/** Canonical bytes and FNV-1a (src/simulation/simulation.cpp, src/core/hash.cpp). */
module Canonical {
  import opened Core
  import opened Bits
  import opened Records
  import opened Simulation

  const SIMULATION_VERSION: int := 1
  const HEAD_WIDTHS: seq<nat> := [4, 4]
  const PLAYER_WIDTHS: seq<nat> := [1, 4, 4, 4, 4, 1, 1, 2, 2, 2]
  const ID_WIDTHS: seq<nat> := [4]
  const PROJECTILE_WIDTHS: seq<nat> := [1, 4, 1, 4, 4, 4, 4, 2]
  const CANONICAL_SIZE: int := 1598

  /** Two's complement. */
  function Unsigned(x: int, modulus: int): (r: nat)
    requires modulus > 0
    ensures r < modulus
  {
    x % modulus
  }

  lemma UnsignedIsInjective(x: int, y: int, modulus: int)
    requires modulus == U8 || modulus == U16 || modulus == U32
    requires -modulus <= 2 * x < modulus && -modulus <= 2 * y < modulus
    requires Unsigned(x, modulus) == Unsigned(y, modulus)
    ensures x == y
  {
    SignedMod(x, modulus);
    SignedMod(y, modulus);
  }

  lemma SignedMod(x: int, modulus: int)
    requires modulus == U8 || modulus == U16 || modulus == U32
    requires -modulus <= 2 * x < modulus
    ensures x % modulus == if x < 0 then x + modulus else x
  {
    if modulus == U8 {
      assert x % 0x100 == if x < 0 then x + 0x100 else x;
    } else if modulus == U16 {
      assert x % 0x1_0000 == if x < 0 then x + 0x1_0000 else x;
    } else {
      assert x % 0x1_0000_0000 == if x < 0 then x + 0x1_0000_0000 else x;
    }
  }

  function PlayerCode(id: PlayerId): nat { if id.A? then 0 else 1 }

  function HeadValues(w: World): seq<nat> { [SIMULATION_VERSION, w.frame] }

  function PlayerValues(p: Player): (r: seq<nat>)
    ensures |r| == |PLAYER_WIDTHS|
  {
    [PlayerCode(p.id), Unsigned(p.x, U32), Unsigned(p.y, U32), Unsigned(p.vx, U32), Unsigned(p.vy, U32),
     Unsigned(p.facingX, U8), Unsigned(p.facingY, U8), Unsigned(p.hp, U16), p.score, p.cooldown]
  }

  function ProjectileValues(p: Projectile): (r: seq<nat>)
    ensures |r| == |PROJECTILE_WIDTHS|
  {
    [if p.active then 1 else 0, p.id, PlayerCode(p.owner), Unsigned(p.x, U32), Unsigned(p.y, U32),
     Unsigned(p.vx, U32), Unsigned(p.vy, U32), p.ttl]
  }

  function PlayerBytes(p: Player): (r: seq<u8>) { Encode(PlayerValues(p), PLAYER_WIDTHS) }

  function ProjectileBytes(p: Projectile): (r: seq<u8>) { Encode(ProjectileValues(p), PROJECTILE_WIDTHS) }

  function PoolBytes(projectiles: seq<Projectile>): seq<u8> {
    if projectiles == [] then []
    else PoolBytes(projectiles[..|projectiles| - 1]) + ProjectileBytes(projectiles[|projectiles| - 1])
  }

  function HeadBytes(w: World): seq<u8> { Encode(HeadValues(w), HEAD_WIDTHS) }

  function IdBytes(w: World): seq<u8> { Encode([w.nextId], ID_WIDTHS) }

  function Serialized(w: World): seq<u8> {
    HeadBytes(w) + (PlayerBytes(w.players[0]) + (PlayerBytes(w.players[1]) + (IdBytes(w) + PoolBytes(w.projectiles))))
  }

  method SerializeCanonical(w: World) returns (bytes: seq<u8>)
    ensures bytes == Serialized(w)
  {
    hide PlayerBytes, ProjectileBytes, HeadBytes, IdBytes;
    bytes := HeadBytes(w);
    for i := 0 to 2
      invariant i == 0 ==> bytes == HeadBytes(w)
      invariant i == 1 ==> bytes == HeadBytes(w) + PlayerBytes(w.players[0])
      invariant i == 2 ==> bytes == HeadBytes(w) + PlayerBytes(w.players[0]) + PlayerBytes(w.players[1])
    {
      bytes := bytes + PlayerBytes(w.players[i]);
    }
    bytes := bytes + IdBytes(w);
    ghost var prefix := bytes;
    for i := 0 to MAX_PROJECTILES
      invariant bytes == prefix + PoolBytes(w.projectiles[..i])
    {
      assert w.projectiles[..i + 1][..i] == w.projectiles[..i];
      bytes := bytes + ProjectileBytes(w.projectiles[i]);
    }
    assert w.projectiles[..MAX_PROJECTILES] == w.projectiles;
  }

  // ---- Canonical bytes identify the world ----

  lemma PlayerValuesFit(p: Player)
    ensures Fits(PlayerValues(p), PLAYER_WIDTHS)
  {
    hide Pow256;
    WidthValues();
  }

  lemma ProjectileValuesFit(p: Projectile)
    ensures Fits(ProjectileValues(p), PROJECTILE_WIDTHS)
  {
    hide Pow256;
    WidthValues();
  }

  lemma PlayerValuesAreInjective(p: Player, q: Player)
    requires PlayerValues(p) == PlayerValues(q)
    ensures p == q
  {
    hide Unsigned;
    var v, w := PlayerValues(p), PlayerValues(q);
    assert v[0] == w[0] && v[1] == w[1] && v[2] == w[2] && v[3] == w[3] && v[4] == w[4];
    assert v[5] == w[5] && v[6] == w[6] && v[7] == w[7] && v[8] == w[8] && v[9] == w[9];
    UnsignedIsInjective(p.x, q.x, U32);
    UnsignedIsInjective(p.y, q.y, U32);
    UnsignedIsInjective(p.vx, q.vx, U32);
    UnsignedIsInjective(p.vy, q.vy, U32);
    UnsignedIsInjective(p.facingX, q.facingX, U8);
    UnsignedIsInjective(p.facingY, q.facingY, U8);
    UnsignedIsInjective(p.hp, q.hp, U16);
  }

  lemma ProjectileValuesAreInjective(p: Projectile, q: Projectile)
    requires ProjectileValues(p) == ProjectileValues(q)
    ensures p == q
  {
    hide Unsigned;
    var v, w := ProjectileValues(p), ProjectileValues(q);
    assert v[0] == w[0] && v[1] == w[1] && v[2] == w[2] && v[3] == w[3] && v[4] == w[4];
    assert v[5] == w[5] && v[6] == w[6] && v[7] == w[7];
    UnsignedIsInjective(p.x, q.x, U32);
    UnsignedIsInjective(p.y, q.y, U32);
    UnsignedIsInjective(p.vx, q.vx, U32);
    UnsignedIsInjective(p.vy, q.vy, U32);
  }

  lemma PlayerBytesAreInjective(p: Player, q: Player)
    requires PlayerBytes(p) == PlayerBytes(q)
    ensures p == q
  {
    hide PlayerValues, Encode, Fits;
    PlayerValuesFit(p);
    PlayerValuesFit(q);
    EncodeIsInjective(PlayerValues(p), PlayerValues(q), PLAYER_WIDTHS);
    PlayerValuesAreInjective(p, q);
  }

  lemma ProjectileBytesAreInjective(p: Projectile, q: Projectile)
    requires ProjectileBytes(p) == ProjectileBytes(q)
    ensures p == q
  {
    hide ProjectileValues, Encode, Fits;
    ProjectileValuesFit(p);
    ProjectileValuesFit(q);
    EncodeIsInjective(ProjectileValues(p), ProjectileValues(q), PROJECTILE_WIDTHS);
    ProjectileValuesAreInjective(p, q);
  }

  lemma TotalFrom(widths: seq<nat>, i: nat)
    requires i < |widths|
    ensures Total(widths[i..]) == widths[i] + Total(widths[i + 1..])
  {
    assert widths[i..][1..] == widths[i + 1..];
  }

  lemma RecordSizes()
    ensures Total(HEAD_WIDTHS) == 8 && Total(PLAYER_WIDTHS) == 25 && Total(ID_WIDTHS) == 4
      && Total(PROJECTILE_WIDTHS) == 24
  {
    SumWidths(HEAD_WIDTHS);
    SumWidths(PLAYER_WIDTHS);
    SumWidths(ID_WIDTHS);
    SumWidths(PROJECTILE_WIDTHS);
  }

  function Sum(widths: seq<nat>, n: nat): nat
    requires n <= |widths|
  {
    if n == 0 then 0 else Sum(widths, n - 1) + widths[n - 1]
  }

  lemma {:induction false} SumWidths(widths: seq<nat>)
    ensures Total(widths) == Sum(widths, |widths|)
  {
    var n := |widths|;
    assert widths[n..] == [] && widths[0..] == widths;
    for i := n downto 0
      invariant Total(widths[i..]) + Sum(widths, i) == Sum(widths, n)
    {
      TotalFrom(widths, i);
    }
  }

  lemma {:induction false} PoolSize(projectiles: seq<Projectile>)
    ensures |PoolBytes(projectiles)| == 24 * |projectiles|
  {
    hide ProjectileValues;
    RecordSizes();
    if projectiles != [] {
      PoolSize(projectiles[..|projectiles| - 1]);
    }
  }

  lemma {:induction false} PoolBytesAreInjective(p: seq<Projectile>, q: seq<Projectile>)
    requires |p| == |q| && PoolBytes(p) == PoolBytes(q)
    ensures p == q
  {
    hide ProjectileBytes;
    if p != [] {
      var n := |p| - 1;
      PoolSize(p[..n]);
      PoolSize(q[..n]);
      SplitEqual(PoolBytes(p[..n]), ProjectileBytes(p[n]), PoolBytes(q[..n]), ProjectileBytes(q[n]));
      PoolBytesAreInjective(p[..n], q[..n]);
      ProjectileBytesAreInjective(p[n], q[n]);
      assert p == p[..n] + [p[n]] && q == q[..n] + [q[n]];
    }
  }

  /** Every world has 1598 canonical bytes, and two worlds with the same bytes are the same world. */
  lemma CanonicalBytesIdentifyTheWorld(v: World, w: World)
    ensures |Serialized(v)| == CANONICAL_SIZE
    ensures Serialized(v) == Serialized(w) ==> v == w
  {
    RecordSizes();
    PoolSize(v.projectiles);
    if Serialized(v) == Serialized(w) {
      WorldFromBytes(v, w);
    }
  }

  lemma WorldFromBytes(v: World, w: World)
    requires Serialized(v) == Serialized(w)
    ensures v == w
  {
    hide PlayerBytes, PoolBytes, HeadBytes, IdBytes;
    FieldSizes(v, w);
    var v2 := IdBytes(v) + PoolBytes(v.projectiles);
    var w2 := IdBytes(w) + PoolBytes(w.projectiles);
    var v1, w1 := PlayerBytes(v.players[1]) + v2, PlayerBytes(w.players[1]) + w2;
    var v0, w0 := PlayerBytes(v.players[0]) + v1, PlayerBytes(w.players[0]) + w1;
    SplitEqual(HeadBytes(v), v0, HeadBytes(w), w0);
    SplitEqual(PlayerBytes(v.players[0]), v1, PlayerBytes(w.players[0]), w1);
    SplitEqual(PlayerBytes(v.players[1]), v2, PlayerBytes(w.players[1]), w2);
    SplitEqual(IdBytes(v), PoolBytes(v.projectiles), IdBytes(w), PoolBytes(w.projectiles));
    HeadAndIdFromBytes(v, w);
    PlayerBytesAreInjective(v.players[0], w.players[0]);
    PlayerBytesAreInjective(v.players[1], w.players[1]);
    PoolBytesAreInjective(v.projectiles, w.projectiles);
    assert v.players == w.players;
  }

  lemma HeadAndIdFromBytes(v: World, w: World)
    requires HeadBytes(v) == HeadBytes(w) && IdBytes(v) == IdBytes(w)
    ensures v.frame == w.frame && v.nextId == w.nextId
  {
    WidthValues();
    hide Encode, Pow256;
    EncodeIsInjective(HeadValues(v), HeadValues(w), HEAD_WIDTHS);
    assert HeadValues(v)[1] == HeadValues(w)[1];
    EncodeIsInjective([v.nextId], [w.nextId], ID_WIDTHS);
    assert [v.nextId][0] == [w.nextId][0];
  }

  lemma FieldSizes(v: World, w: World)
    ensures |HeadBytes(v)| == |HeadBytes(w)| && |IdBytes(v)| == |IdBytes(w)|
    ensures |PlayerBytes(v.players[0])| == |PlayerBytes(w.players[0])|
    ensures |PlayerBytes(v.players[1])| == |PlayerBytes(w.players[1])|
  {
    hide Encode;
  }

  // ---- FNV-1a ----

  const FNV_OFFSET: u64 := 14695981039346656037
  const FNV_PRIME: int := 1099511628211
  const FNV_INVERSE: int := 14886173955864302971

  function FnvStep(hash: u64, byte: u8): u64 {
    Xor(hash, byte) * FNV_PRIME % U64
  }

  function FnvFrom(hash: u64, bytes: seq<u8>): u64
    decreases |bytes|
  {
    if bytes == [] then hash else FnvFrom(FnvStep(hash, bytes[0]), bytes[1..])
  }

  function Fnv1a(bytes: seq<u8>): u64 { FnvFrom(FNV_OFFSET, bytes) }

  lemma {:induction false} FnvOfConcat(hash: u64, bytes: seq<u8>, more: seq<u8>)
    ensures FnvFrom(hash, bytes + more) == FnvFrom(FnvFrom(hash, bytes), more)
    decreases |bytes|
  {
    hide FnvStep;
    if bytes == [] {
      assert bytes + more == more;
    } else {
      assert (bytes + more)[0] == bytes[0] && (bytes + more)[1..] == bytes[1..] + more;
      FnvOfConcat(FnvStep(hash, bytes[0]), bytes[1..], more);
    }
  }

  /** The hash of nothing is the offset basis. One more byte is mixed in before the product with the prime. */
  lemma HashGrows(bytes: seq<u8>, byte: u8)
    ensures Fnv1a([]) == 0xCBF2_9CE4_8422_2325
    ensures Fnv1a(bytes + [byte]) == Xor(Fnv1a(bytes), byte) * 0x100_0000_01B3 % 0x1_0000_0000_0000_0000
  {
    hide Xor;
    FnvOfConcat(FNV_OFFSET, bytes, [byte]);
    assert [byte][1..] == [];
  }

  method Fnv1a64(bytes: seq<u8>) returns (hash: u64)
    ensures hash == Fnv1a(bytes)
  {
    hide FnvStep;
    hash := FNV_OFFSET;
    for i := 0 to |bytes|
      invariant FnvFrom(hash, bytes[i..]) == Fnv1a(bytes)
    {
      assert bytes[i..][0] == bytes[i] && bytes[i..][1..] == bytes[i + 1..];
      hash := FnvStep(hash, bytes[i]);
    }
  }

  function HashCanonical(w: World): u64 { Fnv1a(Serialized(w)) }

  method HashOf(w: World) returns (hash: u64)
    ensures hash == HashCanonical(w)
  {
    var bytes := SerializeCanonical(w);
    hash := Fnv1a64(bytes);
  }

  /** The multiplier is odd, so the multiplication has an inverse modulo 2^64. */
  lemma MultiplierIsInvertible(x: nat)
    requires x < U64
    ensures x * FNV_PRIME % U64 * FNV_INVERSE % U64 == x
  {
    var t, r := x * 1099511628211 / 0x1_0000_0000_0000_0000, x * 1099511628211 % 0x1_0000_0000_0000_0000;
    assert 1099511628211 * 14886173955864302971 == 887285111055 * 0x1_0000_0000_0000_0000 + 1;
    var q := 887285111055 * x - 14886173955864302971 * t;
    assert r * 14886173955864302971 == q * 0x1_0000_0000_0000_0000 + x;
    RemainderOf(q, x);
  }

  lemma RemainderOf(q: int, x: nat)
    requires x < U64
    ensures (q * 0x1_0000_0000_0000_0000 + x) % 0x1_0000_0000_0000_0000 == x
  {
  }

  /** Each step is injective in the register and in the byte. */
  lemma FnvStepIsInjective(h: u64, g: u64, b: u8, c: u8)
    requires FnvStep(h, b) == FnvStep(g, c)
    ensures b == c ==> h == g
    ensures h == g ==> b == c
  {
    Pow2Values();
    Pow2Grows();
    XorIsBounded(h, b, 64);
    XorIsBounded(g, c, 64);
    MultiplierIsInvertible(Xor(h, b));
    MultiplierIsInvertible(Xor(g, c));
    if b == c {
      XorIsInjective(h, g, b);
    }
    if h == g {
      XorCommutes(h, b);
      XorCommutes(h, c);
      XorIsInjective(b, c, h);
    }
  }

  lemma Pow2Grows()
    ensures U8 <= Pow2(64)
  {
    Pow2Values();
  }

  lemma {:induction false} FnvFromIsInjective(h: u64, g: u64, bytes: seq<u8>)
    requires FnvFrom(h, bytes) == FnvFrom(g, bytes)
    ensures h == g
    decreases |bytes|
  {
    if bytes != [] {
      FnvFromIsInjective(FnvStep(h, bytes[0]), FnvStep(g, bytes[0]), bytes[1..]);
      FnvStepIsInjective(h, g, bytes[0], bytes[0]);
    }
  }

  lemma {:induction false} FnvSeesOneByte(h: u64, bytes: seq<u8>, i: nat, byte: u8)
    requires i < |bytes| && byte != bytes[i]
    ensures FnvFrom(h, bytes[i := byte]) != FnvFrom(h, bytes)
    decreases |bytes|
  {
    var other := bytes[i := byte];
    if i == 0 {
      assert other[1..] == bytes[1..];
      if FnvFrom(h, other) == FnvFrom(h, bytes) {
        FnvFromIsInjective(FnvStep(h, other[0]), FnvStep(h, bytes[0]), bytes[1..]);
        FnvStepIsInjective(h, h, other[0], bytes[0]);
      }
    } else {
      assert other[1..] == bytes[1..][i - 1 := byte];
      FnvSeesOneByte(FnvStep(h, bytes[0]), bytes[1..], i - 1, byte);
    }
  }

  /** Worlds whose canonical bytes differ in exactly one byte have different hashes. */
  lemma OneByteChangesTheHash(v: World, w: World, i: nat, byte: u8)
    requires i < |Serialized(v)| && byte != Serialized(v)[i] && Serialized(w) == Serialized(v)[i := byte]
    ensures HashCanonical(v) != HashCanonical(w)
  {
    FnvSeesOneByte(FNV_OFFSET, Serialized(v), i, byte);
  }
}
