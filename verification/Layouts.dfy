/**
 * The byte layouts by offset, in plain numbers: canonical states, packets and replay files
 * (src/simulation/simulation.cpp, src/protocol/codec.cpp, src/replay/replay.cpp).
 */
module Layouts {
  import opened Core
  import opened Simulation
  import opened Bits
  import opened Records
  import opened Crc32s
  import opened Canonical
  import Codec
  import Replays

  /** The little-endian number in `width` bytes from `at` on. */
  function Field(bytes: seq<u8>, at: nat, width: nat): nat
    requires at + width <= |bytes|
  {
    Number(bytes[at..at + width])
  }

  /** Little-endian is least significant byte first. */
  lemma LittleEndianDigits(value: nat)
    ensures LittleEndian(value, 1) == [value % 256]
    ensures LittleEndian(value, 2) == [value % 256, value / 256 % 256]
    ensures LittleEndian(value, 4) == [value % 256, value / 256 % 256, value / 65536 % 256, value / 16777216 % 256]
  {
    assert LittleEndian(value / 256, 1) == [value / 256 % 256];
    assert LittleEndian(value / 256 / 256 / 256, 1) == [value / 256 / 256 / 256 % 256];
    assert value / 256 / 256 == value / 65536 && value / 256 / 256 / 256 == value / 16777216;
  }

  // ---- Records by offset ----

  lemma SliceOf<T>(s: seq<T>, from: nat, to: nat, i: nat, j: nat)
    requires i <= j && from + j <= to <= |s|
    ensures s[from..to][i..j] == s[from + i..from + j]
  {
    var a, b := s[from..to][i..j], s[from + i..from + j];
    assert |a| == |b|;
    forall k | 0 <= k < |a| ensures a[k] == b[k] {
      assert a[k] == s[from..to][i + k] == s[from + (i + k)];
    }
  }

  /** Where the i-th field of a record starts. */
  function Offset(widths: seq<nat>, i: nat): nat
    requires i <= |widths|
  {
    if i == 0 then 0 else Offset(widths, i - 1) + widths[i - 1]
  }

  lemma {:induction false} OffsetOfRest(widths: seq<nat>, i: nat)
    requires 0 < i <= |widths|
    ensures Offset(widths, i) == widths[0] + Offset(widths[1..], i - 1)
  {
    if i > 1 {
      OffsetOfRest(widths, i - 1);
    }
  }

  lemma {:induction false} OffsetFits(widths: seq<nat>, i: nat)
    requires i < |widths|
    ensures Offset(widths, i) + widths[i] <= Total(widths)
    decreases |widths|
  {
    if i > 0 {
      OffsetFits(widths[1..], i - 1);
      OffsetOfRest(widths, i);
    }
  }

  lemma {:induction false} FieldOfRecord(values: seq<nat>, widths: seq<nat>, i: nat)
    requires Fits(values, widths) && i < |values|
    ensures Offset(widths, i) + widths[i] <= |Encode(values, widths)|
    ensures Field(Encode(values, widths), Offset(widths, i), widths[i]) == values[i]
    decreases |values|
  {
    OffsetFits(widths, i);
    var head, tail := LittleEndian(values[0], widths[0]), Encode(values[1..], widths[1..]);
    if i == 0 {
      NumberOfLittleEndian(values[0], widths[0]);
      assert (head + tail)[0..widths[0]] == head;
    } else {
      OffsetOfRest(widths, i);
      OffsetFits(widths[1..], i - 1);
      FieldOfRecord(values[1..], widths[1..], i - 1);
      var at := Offset(widths[1..], i - 1);
      assert (head + tail)[widths[0] + at..widths[0] + at + widths[i]] == tail[at..at + widths[i]];
    }
  }

  // ---- The canonical state ----

  /** Two's complement. */
  function Signed(x: int, modulus: nat): nat
    requires 0 <= x + modulus
  {
    if x < 0 then x + modulus else x
  }

  /** 25 bytes a player. */
  ghost predicate PlayerAt(bytes: seq<u8>, at: nat, p: Player) {
    && at + 25 <= |bytes|
    && Field(bytes, at, 1) == (if p.id == A then 0 else 1)
    && Field(bytes, at + 1, 4) == Signed(p.x, 0x1_0000_0000) && Field(bytes, at + 5, 4) == Signed(p.y, 0x1_0000_0000)
    && Field(bytes, at + 9, 4) == Signed(p.vx, 0x1_0000_0000) && Field(bytes, at + 13, 4) == Signed(p.vy, 0x1_0000_0000)
    && Field(bytes, at + 17, 1) == Signed(p.facingX, 256) && Field(bytes, at + 18, 1) == Signed(p.facingY, 256)
    && Field(bytes, at + 19, 2) == Signed(p.hp, 65536) && Field(bytes, at + 21, 2) == p.score
    && Field(bytes, at + 23, 2) == p.cooldown
  }

  /** 24 bytes a slot. */
  ghost predicate ShotAt(bytes: seq<u8>, at: nat, p: Projectile) {
    && at + 24 <= |bytes|
    && Field(bytes, at, 1) == (if p.active then 1 else 0) && Field(bytes, at + 1, 4) == p.id
    && Field(bytes, at + 5, 1) == (if p.owner == A then 0 else 1)
    && Field(bytes, at + 6, 4) == Signed(p.x, 0x1_0000_0000) && Field(bytes, at + 10, 4) == Signed(p.y, 0x1_0000_0000)
    && Field(bytes, at + 14, 4) == Signed(p.vx, 0x1_0000_0000)
    && Field(bytes, at + 18, 4) == Signed(p.vy, 0x1_0000_0000) && Field(bytes, at + 22, 2) == p.ttl
  }

  lemma PlayerOffsets()
    ensures var w := PLAYER_WIDTHS;
      && Offset(w, 0) == 0 && Offset(w, 1) == 1 && Offset(w, 2) == 5 && Offset(w, 3) == 9 && Offset(w, 4) == 13
      && Offset(w, 5) == 17 && Offset(w, 6) == 18 && Offset(w, 7) == 19 && Offset(w, 8) == 21 && Offset(w, 9) == 23
  {
    assert Offset(PLAYER_WIDTHS, 2) == 5;
    assert Offset(PLAYER_WIDTHS, 4) == 13;
    assert Offset(PLAYER_WIDTHS, 6) == 18;
    assert Offset(PLAYER_WIDTHS, 8) == 21;
  }

  lemma ShotOffsets()
    ensures var w := PROJECTILE_WIDTHS;
      && Offset(w, 0) == 0 && Offset(w, 1) == 1 && Offset(w, 2) == 5 && Offset(w, 3) == 6 && Offset(w, 4) == 10
      && Offset(w, 5) == 14 && Offset(w, 6) == 18 && Offset(w, 7) == 22
  {
    assert Offset(PROJECTILE_WIDTHS, 2) == 5;
    assert Offset(PROJECTILE_WIDTHS, 4) == 10;
    assert Offset(PROJECTILE_WIDTHS, 6) == 18;
  }

  lemma SignedIsUnsigned(x: int, modulus: int)
    requires modulus == U8 || modulus == U16 || modulus == U32
    requires -modulus <= 2 * x < modulus
    ensures Unsigned(x, modulus) == Signed(x, modulus)
  {
    SignedMod(x, modulus);
  }

  lemma PlayerLayout(p: Player)
    ensures PlayerAt(PlayerBytes(p), 0, p)
  {
    hide Encode, Field, Offset, PlayerValues, Unsigned, Signed, Fits;
    RecordSizes();
    PlayerOffsets();
    PlayerValuesFit(p);
    PlayerFields(p);
    forall i | 0 <= i < 10
      ensures Field(PlayerBytes(p), Offset(PLAYER_WIDTHS, i), PLAYER_WIDTHS[i]) == PlayerValues(p)[i]
    {
      FieldOfRecord(PlayerValues(p), PLAYER_WIDTHS, i);
    }
  }

  lemma PlayerFields(p: Player)
    ensures var v := PlayerValues(p);
      && v[0] == (if p.id == A then 0 else 1) && v[1] == Signed(p.x, U32) && v[2] == Signed(p.y, U32)
      && v[3] == Signed(p.vx, U32) && v[4] == Signed(p.vy, U32) && v[5] == Signed(p.facingX, U8)
      && v[6] == Signed(p.facingY, U8) && v[7] == Signed(p.hp, U16) && v[8] == p.score && v[9] == p.cooldown
  {
    hide Unsigned, Signed;
    SignedIsUnsigned(p.x, U32);
    SignedIsUnsigned(p.y, U32);
    SignedIsUnsigned(p.vx, U32);
    SignedIsUnsigned(p.vy, U32);
    SignedIsUnsigned(p.facingX, U8);
    SignedIsUnsigned(p.facingY, U8);
    SignedIsUnsigned(p.hp, U16);
  }

  lemma ShotLayout(p: Projectile)
    ensures ShotAt(ProjectileBytes(p), 0, p)
  {
    hide Encode, Field, Offset, ProjectileValues, Unsigned, Signed, Fits;
    RecordSizes();
    ShotOffsets();
    ProjectileValuesFit(p);
    ShotFields(p);
    forall i | 0 <= i < 8
      ensures Field(ProjectileBytes(p), Offset(PROJECTILE_WIDTHS, i), PROJECTILE_WIDTHS[i]) == ProjectileValues(p)[i]
    {
      FieldOfRecord(ProjectileValues(p), PROJECTILE_WIDTHS, i);
    }
  }

  lemma ShotFields(p: Projectile)
    ensures var v := ProjectileValues(p);
      && v[0] == (if p.active then 1 else 0) && v[1] == p.id && v[2] == (if p.owner == A then 0 else 1)
      && v[3] == Signed(p.x, U32) && v[4] == Signed(p.y, U32) && v[5] == Signed(p.vx, U32)
      && v[6] == Signed(p.vy, U32) && v[7] == p.ttl
  {
    hide Unsigned, Signed;
    SignedIsUnsigned(p.x, U32);
    SignedIsUnsigned(p.y, U32);
    SignedIsUnsigned(p.vx, U32);
    SignedIsUnsigned(p.vy, U32);
  }

  lemma SameFields(bytes: seq<u8>, at: nat, size: nat, part: seq<u8>)
    requires at + size <= |bytes| && |part| == size && bytes[at..at + size] == part
    ensures forall k, width :: 0 <= k && 0 <= width && k + width <= size ==>
        Field(bytes, at + k, width) == Field(part, k, width)
  {
    forall k, width | 0 <= k && 0 <= width && k + width <= size
      ensures Field(bytes, at + k, width) == Field(part, k, width)
    {
      SliceOf(bytes, at, at + size, k, k + width);
    }
  }

  lemma PlayerInPlace(bytes: seq<u8>, at: nat, p: Player)
    requires at + 25 <= |bytes| && bytes[at..at + 25] == PlayerBytes(p)
    ensures PlayerAt(bytes, at, p)
  {
    hide Field, PlayerBytes, Signed;
    PlayerLayout(p);
    SameFields(bytes, at, 25, PlayerBytes(p));
    assert Field(bytes, at + 0, 1) == Field(PlayerBytes(p), 0, 1);
  }

  lemma ShotInPlace(bytes: seq<u8>, at: nat, p: Projectile)
    requires at + 24 <= |bytes| && bytes[at..at + 24] == ProjectileBytes(p)
    ensures ShotAt(bytes, at, p)
  {
    hide Field, ProjectileBytes, Signed;
    ShotLayout(p);
    SameFields(bytes, at, 24, ProjectileBytes(p));
    assert Field(bytes, at + 0, 1) == Field(ProjectileBytes(p), 0, 1);
  }

  lemma Slices<T>(a: seq<T>, b: seq<T>, i: nat, j: nat)
    requires i <= j <= |a|
    ensures (a + b)[i..j] == a[i..j] && (a + b)[|a|..|a| + |b|] == b
  {
  }

  lemma PoolSnoc(projectiles: seq<Projectile>)
    requires projectiles != []
    ensures var n := |projectiles| - 1;
      && PoolBytes(projectiles) == PoolBytes(projectiles[..n]) + ProjectileBytes(projectiles[n])
      && |PoolBytes(projectiles[..n])| == 24 * n && |ProjectileBytes(projectiles[n])| == 24
  {
    hide ProjectileValues;
    PoolSize(projectiles[..|projectiles| - 1]);
    RecordSizes();
  }

  lemma {:induction false} SlotInPool(projectiles: seq<Projectile>, k: nat)
    requires k < |projectiles|
    ensures |PoolBytes(projectiles)| == 24 * |projectiles|
    ensures PoolBytes(projectiles)[24 * k..24 * k + 24] == ProjectileBytes(projectiles[k])
  {
    hide ProjectileBytes, PoolBytes;
    var n := |projectiles| - 1;
    PoolSnoc(projectiles);
    var before, last := PoolBytes(projectiles[..n]), ProjectileBytes(projectiles[n]);
    if k == n {
      Slices(before, last, 0, 0);
    } else {
      SlotInPool(projectiles[..n], k);
      Slices(before, last, 24 * k, 24 * k + 24);
    }
  }

  /** The five parts of a canonical state, in place. */
  lemma StateParts(w: World)
    ensures var bytes := Serialized(w);
      && |bytes| == 1598
      && bytes[0..8] == HeadBytes(w) && bytes[8..33] == PlayerBytes(w.players[0])
      && bytes[33..58] == PlayerBytes(w.players[1]) && bytes[58..62] == IdBytes(w)
      && bytes[62..1598] == PoolBytes(w.projectiles)
  {
    hide Encode, PlayerValues, ProjectileValues, PoolBytes, PlayerBytes, HeadBytes, IdBytes;
    PartSizes(w);
    var head, p0, p1, id := HeadBytes(w), PlayerBytes(w.players[0]), PlayerBytes(w.players[1]), IdBytes(w);
    var rest2 := id + PoolBytes(w.projectiles);
    var rest1 := p1 + rest2;
    var rest0 := p0 + rest1;
    assert Serialized(w) == head + rest0;
    assert rest0[..25] == p0 && rest0[25..] == rest1 && rest1[..25] == p1 && rest1[25..] == rest2;
  }

  lemma PartSizes(w: World)
    ensures |HeadBytes(w)| == 8 && |PlayerBytes(w.players[0])| == |PlayerBytes(w.players[1])| == 25
    ensures |IdBytes(w)| == 4 && |PoolBytes(w.projectiles)| == 1536
  {
    hide Encode, PlayerValues, ProjectileValues, PoolBytes;
    RecordSizes();
    PoolSize(w.projectiles);
  }

  /** Version, frame, both players, the next id, then the 64 slots: every field at its place, and nothing else. */
  lemma CanonicalLayout(w: World)
    ensures var bytes := Serialized(w);
      && |bytes| == 1598
      && Field(bytes, 0, 4) == 1 && Field(bytes, 4, 4) == w.frame
      && PlayerAt(bytes, 8, w.players[0]) && PlayerAt(bytes, 33, w.players[1])
      && Field(bytes, 58, 4) == w.nextId
      && forall k :: 0 <= k < 64 ==> ShotAt(bytes, 62 + 24 * k, w.projectiles[k])
  {
    hide Serialized, HeadBytes, PlayerBytes, IdBytes, PoolBytes, PlayerAt, ShotAt;
    var bytes := Serialized(w);
    StateParts(w);
    HeadLayout(w, bytes);
    PlayerInPlace(bytes, 8, w.players[0]);
    PlayerInPlace(bytes, 33, w.players[1]);
    forall k | 0 <= k < 64 ensures ShotAt(bytes, 62 + 24 * k, w.projectiles[k]) {
      SlotInPool(w.projectiles, k);
      SliceOf(bytes, 62, 1598, 24 * k, 24 * k + 24);
      ShotInPlace(bytes, 62 + 24 * k, w.projectiles[k]);
    }
  }

  // ---- Tables ----

  lemma RecordInPlace(bytes: seq<u8>, at: nat, values: seq<nat>, widths: seq<nat>)
    requires Fits(values, widths) && at + Total(widths) <= |bytes|
    requires bytes[at..at + Total(widths)] == Encode(values, widths)
    ensures forall i :: 0 <= i < |values| ==>
        at + Offset(widths, i) + widths[i] <= |bytes|
        && Field(bytes, at + Offset(widths, i), widths[i]) == values[i]
  {
    hide Encode, Total, Offset, Field;
    forall i | 0 <= i < |values|
      ensures at + Offset(widths, i) + widths[i] <= |bytes|
        && Field(bytes, at + Offset(widths, i), widths[i]) == values[i]
    {
      OffsetFits(widths, i);
      FieldOfRecord(values, widths, i);
      SameFields(bytes, at, Total(widths), Encode(values, widths));
    }
  }

  lemma HeadLayout(w: World, bytes: seq<u8>)
    requires |bytes| == 1598 && bytes[0..8] == HeadBytes(w) && bytes[58..62] == IdBytes(w)
    ensures Field(bytes, 0, 4) == 1 && Field(bytes, 4, 4) == w.frame && Field(bytes, 58, 4) == w.nextId
  {
    hide Encode, Pow256, Total, Field, Offset;
    WidthValues();
    RecordSizes();
    HeadOffsets();
    RecordInPlace(bytes, 0, HeadValues(w), HEAD_WIDTHS);
    RecordInPlace(bytes, 58, [w.nextId], ID_WIDTHS);
    assert HeadValues(w)[0] == 1 && HeadValues(w)[1] == w.frame && [w.nextId][0] == w.nextId && 58 + 0 == 58;
  }

  lemma HeadOffsets()
    ensures Offset(HEAD_WIDTHS, 0) == 0 && Offset(HEAD_WIDTHS, 1) == 4 && Offset(ID_WIDTHS, 0) == 0
  {
  }

  lemma {:induction false} RowInTable(rows: seq<seq<nat>>, widths: seq<nat>, k: nat, size: nat)
    requires k < |rows| && size == Total(widths) && forall i :: 0 <= i < |rows| ==> |rows[i]| == |widths|
    ensures 0 <= k * size && k * size + size <= |EncodeRows(rows, widths)|
    ensures EncodeRows(rows, widths)[k * size..k * size + size] == Encode(rows[k], widths)
    decreases k
  {
    hide Encode, Total;
    var first, rest := Encode(rows[0], widths), EncodeRows(rows[1..], widths);
    if k == 0 {
      assert (first + rest)[..size] == first;
    } else {
      RowInTable(rows[1..], widths, k - 1, size);
      OneLess(k, size);
      var at := (k - 1) * size;
      assert (first + rest)[size + at..size + at + size] == rest[at..at + size];
    }
  }

  // ---- Packets ----

  ghost predicate InputAt(bytes: seq<u8>, at: nat, i: InputFrame) {
    && at + 10 <= |bytes|
    && Field(bytes, at, 4) == i.frame && Field(bytes, at + 4, 1) == (if i.player == A then 0 else 1)
    && Field(bytes, at + 5, 1) == i.buttons && Field(bytes, at + 6, 4) == i.sequence
  }

  ghost predicate HashAt(bytes: seq<u8>, at: nat, frame: u32, hash: u64) {
    at + 12 <= |bytes| && Field(bytes, at, 4) == frame && Field(bytes, at + 4, 8) == hash
  }

  ghost predicate PacketHeaderAt(bytes: seq<u8>, p: Codec.Packet, payload: nat) {
    && 32 <= |bytes|
    && Field(bytes, 0, 4) == 0x4B424C52 && Field(bytes, 4, 2) == 1 && Field(bytes, 6, 1) == p.kind
    && Field(bytes, 7, 1) == (if p.sender == A then 0 else 1) && Field(bytes, 8, 4) == p.sequence
    && Field(bytes, 12, 4) == p.ack && Field(bytes, 16, 8) == p.scenario && Field(bytes, 24, 4) == p.confirmedFrame
    && Field(bytes, 28, 1) == |p.inputs| && Field(bytes, 29, 1) == |p.hashes| && Field(bytes, 30, 2) == payload
  }

  lemma PacketOffsets()
    ensures var w := Codec.HEADER_WIDTHS;
      && |w| == 11 && Offset(w, 0) == 0 && Offset(w, 1) == 4 && Offset(w, 2) == 6 && Offset(w, 3) == 7
      && Offset(w, 4) == 8 && Offset(w, 5) == 12 && Offset(w, 6) == 16 && Offset(w, 7) == 24 && Offset(w, 8) == 28
      && Offset(w, 9) == 29 && Offset(w, 10) == 30
  {
    var w := Codec.HEADER_WIDTHS;
    assert w == [4, 2, 1, 1, 4, 4, 8, 4, 1, 1, 2];
    assert Offset(w, 1) == 4 && Offset(w, 2) == Offset(w, 1) + 2 && Offset(w, 3) == Offset(w, 2) + 1;
    assert Offset(w, 4) == Offset(w, 3) + 1 && Offset(w, 5) == Offset(w, 4) + 4 && Offset(w, 6) == Offset(w, 5) + 4;
    assert Offset(w, 7) == Offset(w, 6) + 8 && Offset(w, 8) == Offset(w, 7) + 4 && Offset(w, 9) == Offset(w, 8) + 1;
    assert Offset(w, 10) == Offset(w, 9) + 1;
  }

  lemma SmallOffsets()
    ensures var w := Codec.INPUT_WIDTHS;
      Offset(w, 0) == 0 && Offset(w, 1) == 4 && Offset(w, 2) == 5 && Offset(w, 3) == 6
    ensures var w := Codec.HASH_WIDTHS; Offset(w, 0) == 0 && Offset(w, 1) == 4
    ensures var w := Codec.HELLO_WIDTHS; Offset(w, 0) == 0 && Offset(w, 1) == 4 && Offset(w, 2) == 12
    ensures var w := Replays.CHECKPOINT_WIDTHS; Offset(w, 0) == 0 && Offset(w, 1) == 4
    ensures var w := Replays.PAIR_WIDTHS;
      Offset(w, 0) == 0 && Offset(w, 1) == 4 && Offset(w, 2) == 5 && Offset(w, 3) == 9 && Offset(w, 4) == 10
  {
    assert Offset(Codec.INPUT_WIDTHS, 2) == 5;
    assert Offset(Replays.PAIR_WIDTHS, 2) == 5;
  }

  lemma PacketHeaderLayout(p: Codec.Packet, bytes: seq<u8>)
    requires Codec.Encodable(p) && 32 <= |bytes| && bytes[..32] == Codec.Header(p)
    ensures PacketHeaderAt(bytes, p, |Codec.Payload(p)|)
  {
    hide Field, Offset, Encode, Total, Codec.Payload, Codec.Header, Fits, Codec.PrefixRow;
    Codec.HeaderIsARecord(p);
    Codec.LayoutSizes();
    PacketOffsets();
    assert bytes[0..0 + 32] == bytes[..32];
    RecordInPlace(bytes, 0, Codec.HeaderRow(p), Codec.HEADER_WIDTHS);
    HeaderFields(p);
    FieldsByIndex(bytes, Codec.HeaderRow(p), Codec.HEADER_WIDTHS);
  }

  lemma FieldsByIndex(bytes: seq<u8>, row: seq<nat>, w: seq<nat>)
    requires |row| == |w| == 11
    requires forall i :: 0 <= i < 11 ==>
        0 + Offset(w, i) + w[i] <= |bytes| && Field(bytes, 0 + Offset(w, i), w[i]) == row[i]
    ensures forall i :: 0 <= i < 11 ==>
        Offset(w, i) + w[i] <= |bytes| && Field(bytes, Offset(w, i), w[i]) == row[i]
  {
    hide Field, Offset;
    forall i | 0 <= i < 11 ensures Offset(w, i) + w[i] <= |bytes| && Field(bytes, Offset(w, i), w[i]) == row[i] {
      assert 0 + Offset(w, i) == Offset(w, i);
    }
  }

  lemma HeaderFields(p: Codec.Packet)
    requires Codec.Encodable(p)
    ensures var r := Codec.HeaderRow(p);
      && r[0] == 0x4B424C52 && r[1] == 1 && r[2] == p.kind && r[3] == (if p.sender == A then 0 else 1)
      && r[4] == p.sequence && r[5] == p.ack && r[6] == p.scenario && r[7] == p.confirmedFrame
      && r[8] == |p.inputs| && r[9] == |p.hashes| && r[10] == |Codec.Payload(p)|
  {
    hide Codec.Payload;
  }

  lemma InputInPlace(bytes: seq<u8>, at: nat, i: InputFrame)
    requires at + 10 <= |bytes| && bytes[at..at + 10] == Encode(Codec.InputRow(i), Codec.INPUT_WIDTHS)
    ensures InputAt(bytes, at, i)
  {
    hide Field, Offset, Encode, Total, Pow256;
    WidthValues();
    Codec.LayoutSizes();
    SmallOffsets();
    RecordInPlace(bytes, at, Codec.InputRow(i), Codec.INPUT_WIDTHS);
    var row := Codec.InputRow(i);
    assert row[0] == i.frame && row[1] == if i.player == A then 0 else 1;
    assert row[2] == i.buttons && row[3] == i.sequence;
    assert at + 0 == at;
  }

  lemma HashInPlace(bytes: seq<u8>, at: nat, row: seq<nat>, frame: u32, hash: u64)
    requires row == [frame, hash] && at + 12 <= |bytes| && bytes[at..at + 12] == Encode(row, [4, 8])
    ensures HashAt(bytes, at, frame, hash)
  {
    hide Field, Offset, Encode, Total, Pow256;
    WidthValues();
    Codec.LayoutSizes();
    SmallOffsets();
    RecordInPlace(bytes, at, row, Codec.HASH_WIDTHS);
    assert row[0] == frame && row[1] == hash && at + 0 == at;
  }

  lemma PacketParts(p: Codec.Packet)
    requires Codec.Encodable(p)
    ensures Codec.Encoded(p).Ok?
    ensures var bytes, n, m := Codec.Encoded(p).value, |p.inputs|, |p.hashes|;
      var end := 32 + 10 * n + 12 * m + if p.kind == 1 then 16 else 0;
      && |bytes| == end + 4 && bytes[..32] == Codec.Header(p) && |Codec.Payload(p)| == end - 32
      && bytes[32..32 + 10 * n] == EncodeRows(Codec.InputRows(p.inputs), Codec.INPUT_WIDTHS)
      && bytes[32 + 10 * n..32 + 10 * n + 12 * m] == EncodeRows(Codec.HashRows(p.hashes), Codec.HASH_WIDTHS)
      && bytes[32 + 10 * n + 12 * m..end] == Codec.HelloBytes(p.hello)
      && bytes[end..] == LittleEndian(Crc32(bytes[..end]), 4)
  {
    hide Codec.InputRow, Codec.HashRow, Codec.HelloRow, Codec.PrefixRow, Encode, EncodeRows, Total, Codec.EncodeError,
         Crc32, Codec.HelloBytes, LittleEndian, Codec.Header;
    Codec.LayoutSizes();
    Codec.PayloadSize(p);
    var bytes, body := Codec.Encoded(p).value, Codec.Body(p);
    var payload := Codec.Payload(p);
    var n, m := |p.inputs|, |p.hashes|;
    SealIsIntact(body);
    assert bytes[..|body|] == body && bytes[|body|..] == LittleEndian(Crc32(body), 4);
    assert body == Codec.Header(p) + payload;
    assert bytes[..32] == body[..32] == Codec.Header(p);
    var inputs := EncodeRows(Codec.InputRows(p.inputs), Codec.INPUT_WIDTHS);
    var hashes := EncodeRows(Codec.HashRows(p.hashes), Codec.HASH_WIDTHS);
    assert payload == inputs + (hashes + Codec.HelloBytes(p.hello));
    assert bytes[32..32 + 10 * n] == body[32..32 + 10 * n] == inputs;
    assert bytes[32 + 10 * n..32 + 10 * n + 12 * m] == body[32 + 10 * n..32 + 10 * n + 12 * m] == hashes;
    assert bytes[32 + 10 * n + 12 * m..|body|] == body[32 + 10 * n + 12 * m..] == Codec.HelloBytes(p.hello);
  }

  lemma InputOfTable(bytes: seq<u8>, inputs: seq<InputFrame>, k: nat)
    requires k < |inputs| && 32 + 10 * |inputs| <= |bytes|
    requires bytes[32..32 + 10 * |inputs|] == EncodeRows(Codec.InputRows(inputs), Codec.INPUT_WIDTHS)
    ensures InputAt(bytes, 32 + 10 * k, inputs[k])
  {
    hide Encode, EncodeRows, Total, InputAt, Codec.InputRow;
    Codec.LayoutSizes();
    RowInTable(Codec.InputRows(inputs), Codec.INPUT_WIDTHS, k, 10);
    var at := 32 + 10 * k;
    SliceOf(bytes, 32, 32 + 10 * |inputs|, k * 10, k * 10 + 10);
    InputInPlace(bytes, at, inputs[k]);
  }

  lemma HashOfTable(bytes: seq<u8>, from: nat, hashes: seq<Codec.ConfirmedHash>, k: nat)
    requires k < |hashes| && from + 12 * |hashes| <= |bytes|
    requires bytes[from..from + 12 * |hashes|] == EncodeRows(Codec.HashRows(hashes), Codec.HASH_WIDTHS)
    ensures HashAt(bytes, from + 12 * k, hashes[k].frame, hashes[k].hash)
  {
    hide Encode, EncodeRows, Total, HashAt, Codec.HashRow;
    Codec.LayoutSizes();
    RowInTable(Codec.HashRows(hashes), Codec.HASH_WIDTHS, k, 12);
    var at := from + 12 * k;
    SliceOf(bytes, from, from + 12 * |hashes|, k * 12, k * 12 + 12);
    HashRowIs(hashes[k]);
    HashInPlace(bytes, at, Codec.HashRow(hashes[k]), hashes[k].frame, hashes[k].hash);
  }

  /** Every field of an encoded packet by offset: 32 bytes of header, 10 an input, 12 a hash, 16 a greeting, a CRC. */
  lemma PacketLayout(p: Codec.Packet)
    requires Codec.Encodable(p)
    ensures Codec.Encoded(p).Ok?
    ensures var bytes, n, m := Codec.Encoded(p).value, |p.inputs|, |p.hashes|;
      var end := 32 + 10 * n + 12 * m + if p.kind == 1 then 16 else 0;
      && |bytes| == end + 4 && PacketHeaderAt(bytes, p, end - 32)
      && (forall k :: 0 <= k < n ==> InputAt(bytes, 32 + 10 * k, p.inputs[k]))
      && (forall k :: 0 <= k < m ==> HashAt(bytes, 32 + 10 * n + 12 * k, p.hashes[k].frame, p.hashes[k].hash))
      && (p.kind == 1 ==>
            && p.hello.Some? && Field(bytes, end - 16, 4) == p.hello.value.simulationVersion
            && Field(bytes, end - 12, 8) == p.hello.value.digest
            && Field(bytes, end - 4, 4) == p.hello.value.targetFrame)
      && bytes[end..] == LittleEndian(Crc32(bytes[..end]), 4)
  {
    hide Field, Offset, Encode, EncodeRows, Total, Crc32, Codec.Payload, Codec.Header, PacketHeaderAt, InputAt, HashAt,
         Codec.InputRow, Codec.HashRow, Codec.HelloRow, Codec.EncodeError, LittleEndian, Codec.Encoded;
    PacketParts(p);
    Codec.LayoutSizes();
    var bytes, n, m := Codec.Encoded(p).value, |p.inputs|, |p.hashes|;
    PacketHeaderLayout(p, bytes);
    forall k | 0 <= k < n ensures InputAt(bytes, 32 + 10 * k, p.inputs[k]) {
      InputOfTable(bytes, p.inputs, k);
    }
    forall k | 0 <= k < m ensures HashAt(bytes, 32 + 10 * n + 12 * k, p.hashes[k].frame, p.hashes[k].hash) {
      HashOfTable(bytes, 32 + 10 * n, p.hashes, k);
    }
    if p.kind == 1 {
      GreetingInPlace(p, bytes, 32 + 10 * n + 12 * m);
    }
  }

  lemma HashRowIs(h: Codec.ConfirmedHash)
    ensures Codec.HashRow(h) == [h.frame, h.hash]
  {
  }

  lemma GreetingInPlace(p: Codec.Packet, bytes: seq<u8>, at: nat)
    requires Codec.Encodable(p) && p.kind == 1 && at + 16 <= |bytes| && bytes[at..at + 16] == Codec.HelloBytes(p.hello)
    ensures p.hello.Some? && Field(bytes, at, 4) == p.hello.value.simulationVersion
      && Field(bytes, at + 4, 8) == p.hello.value.digest && Field(bytes, at + 12, 4) == p.hello.value.targetFrame
  {
    hide Field, Offset, Encode, Total, Pow256, Codec.OwnInputs, Codec.OrderedHashes;
    WidthValues();
    Codec.LayoutSizes();
    SmallOffsets();
    var h := p.hello.value;
    RecordInPlace(bytes, at, Codec.HelloRow(h), Codec.HELLO_WIDTHS);
    var row := Codec.HelloRow(h);
    assert row[0] == h.simulationVersion && row[1] == h.digest && row[2] == h.targetFrame && at + 0 == at;
  }

  // ---- Replay files ----

  ghost predicate ReplayHeaderAt(bytes: seq<u8>, r: Replays.Replay) {
    && 48 <= |bytes|
    && Field(bytes, 0, 4) == 0x50524C52 && Field(bytes, 4, 2) == 1 && Field(bytes, 6, 2) == 1
    && Field(bytes, 8, 2) == 1 && Field(bytes, 10, 1) == r.variant && Field(bytes, 11, 1) == 0
    && Field(bytes, 12, 8) == r.scenarioSeed && Field(bytes, 20, 8) == r.transportSeed
    && Field(bytes, 28, 4) == r.finalFrame && Field(bytes, 32, 4) == |r.inputs|
    && Field(bytes, 36, 4) == |r.checkpoints| && Field(bytes, 40, 8) == r.expectedHash
  }

  /** 14 bytes a pair; both inputs share their frame number. */
  ghost predicate PairAt(bytes: seq<u8>, at: nat, p: InputPair) {
    && at + 14 <= |bytes|
    && Field(bytes, at, 4) == p.a.frame && Field(bytes, at + 4, 1) == p.a.buttons
    && Field(bytes, at + 5, 4) == p.a.sequence && Field(bytes, at + 9, 1) == p.b.buttons
    && Field(bytes, at + 10, 4) == p.b.sequence
  }

  lemma ReplayOffsets()
    ensures var w := Replays.HEADER_WIDTHS;
      && |w| == 12 && Offset(w, 0) == 0 && Offset(w, 1) == 4 && Offset(w, 2) == 6 && Offset(w, 3) == 8
      && Offset(w, 4) == 10 && Offset(w, 5) == 11 && Offset(w, 6) == 12 && Offset(w, 7) == 20 && Offset(w, 8) == 28
      && Offset(w, 9) == 32 && Offset(w, 10) == 36 && Offset(w, 11) == 40
  {
    var w := Replays.HEADER_WIDTHS;
    assert Offset(w, 1) == 4 && Offset(w, 2) == Offset(w, 1) + 2 && Offset(w, 3) == Offset(w, 2) + 2;
    assert Offset(w, 4) == Offset(w, 3) + 2 && Offset(w, 5) == Offset(w, 4) + 1 && Offset(w, 6) == Offset(w, 5) + 1;
    assert Offset(w, 7) == Offset(w, 6) + 8 && Offset(w, 8) == Offset(w, 7) + 8 && Offset(w, 9) == Offset(w, 8) + 4;
    assert Offset(w, 10) == Offset(w, 9) + 4 && Offset(w, 11) == Offset(w, 10) + 4;
  }

  lemma ReplayHeaderFields(r: Replays.Replay)
    requires Replays.Encodable(r)
    ensures var row := Replays.HeaderRow(r);
      && row[0] == 0x50524C52 && row[1] == 1 && row[2] == 1 && row[3] == 1 && row[4] == r.variant && row[5] == 0
      && row[6] == r.scenarioSeed && row[7] == r.transportSeed && row[8] == r.finalFrame && row[9] == |r.inputs|
      && row[10] == |r.checkpoints| && row[11] == r.expectedHash
  {
    hide Replays.PairIsAligned;
  }

  lemma ReplayHeaderLayout(r: Replays.Replay, bytes: seq<u8>)
    requires Replays.Encodable(r) && 48 <= |bytes|
    requires bytes[0..0 + 48] == Encode(Replays.HeaderRow(r), Replays.HEADER_WIDTHS)
    ensures ReplayHeaderAt(bytes, r)
  {
    hide Field, Offset, Encode, Total, Fits, Replays.HeaderRow, Replays.EncodeError;
    Replays.HeaderRowFits(r);
    Replays.LayoutSizes();
    ReplayOffsets();
    RecordInPlace(bytes, 0, Replays.HeaderRow(r), Replays.HEADER_WIDTHS);
    ReplayHeaderFields(r);
    var row, w := Replays.HeaderRow(r), Replays.HEADER_WIDTHS;
    forall i | 0 <= i < 12 ensures Offset(w, i) + w[i] <= |bytes| && Field(bytes, Offset(w, i), w[i]) == row[i] {
      assert 0 + Offset(w, i) == Offset(w, i);
    }
  }

  lemma PairInPlace(bytes: seq<u8>, at: nat, p: InputPair)
    requires at + 14 <= |bytes| && bytes[at..at + 14] == Encode(Replays.PairRow(p), Replays.PAIR_WIDTHS)
    ensures PairAt(bytes, at, p)
  {
    hide Field, Offset, Encode, Total, Pow256;
    WidthValues();
    Replays.LayoutSizes();
    SmallOffsets();
    RecordInPlace(bytes, at, Replays.PairRow(p), Replays.PAIR_WIDTHS);
    var row := Replays.PairRow(p);
    assert row[0] == p.a.frame && row[1] == p.a.buttons && row[2] == p.a.sequence && row[3] == p.b.buttons
      && row[4] == p.b.sequence && at + 0 == at;
  }

  lemma ReplayParts(r: Replays.Replay)
    requires Replays.Encodable(r)
    ensures Replays.Encoded(r).Ok?
    ensures |Replays.Encoded(r).value| == 52 + 14 * |r.inputs| + 12 * |r.checkpoints|
    ensures var bytes, n, m := Replays.Encoded(r).value, |r.inputs|, |r.checkpoints|;
      var end := 48 + 14 * n + 12 * m;
      && bytes[0..0 + 48] == Encode(Replays.HeaderRow(r), Replays.HEADER_WIDTHS)
      && bytes[48..48 + 14 * n] == EncodeRows(Replays.PairRows(r.inputs), Replays.PAIR_WIDTHS)
      && bytes[48 + 14 * n..end] == EncodeRows(Replays.CheckpointRows(r.checkpoints), Replays.CHECKPOINT_WIDTHS)
      && bytes[end..] == LittleEndian(Crc32(bytes[..end]), 4)
  {
    hide Replays.PairRow, Replays.CheckpointRow, Replays.HeaderRow, Encode, EncodeRows, Total, Replays.EncodeError,
         Crc32, LittleEndian;
    Replays.LayoutSizes();
    Replays.PayloadSize(r);
    var bytes, body := Replays.Encoded(r).value, Replays.Body(r);
    var n := |r.inputs|;
    SealIsIntact(body);
    var header := Encode(Replays.HeaderRow(r), Replays.HEADER_WIDTHS);
    var pairs := EncodeRows(Replays.PairRows(r.inputs), Replays.PAIR_WIDTHS);
    assert bytes[..|body|] == body && bytes[|body|..] == LittleEndian(Crc32(body), 4);
    assert body == header + (pairs + EncodeRows(Replays.CheckpointRows(r.checkpoints), Replays.CHECKPOINT_WIDTHS));
    assert bytes[0..48] == body[0..48] == header;
    assert bytes[48..48 + 14 * n] == body[48..48 + 14 * n] == pairs;
    assert bytes[48 + 14 * n..|body|] == body[48 + 14 * n..];
  }

  lemma PairOfTable(bytes: seq<u8>, inputs: seq<InputPair>, k: nat)
    requires k < |inputs| && 48 + 14 * |inputs| <= |bytes|
    requires bytes[48..48 + 14 * |inputs|] == EncodeRows(Replays.PairRows(inputs), Replays.PAIR_WIDTHS)
    ensures PairAt(bytes, 48 + 14 * k, inputs[k])
  {
    hide Encode, EncodeRows, Total, PairAt, Replays.PairRow;
    Replays.LayoutSizes();
    RowInTable(Replays.PairRows(inputs), Replays.PAIR_WIDTHS, k, 14);
    SliceOf(bytes, 48, 48 + 14 * |inputs|, k * 14, k * 14 + 14);
    PairInPlace(bytes, 48 + 14 * k, inputs[k]);
  }

  lemma CheckpointOfTable(bytes: seq<u8>, from: nat, checkpoints: seq<Replays.Checkpoint>, k: nat)
    requires k < |checkpoints| && from + 12 * |checkpoints| <= |bytes|
    requires bytes[from..from + 12 * |checkpoints|]
          == EncodeRows(Replays.CheckpointRows(checkpoints), Replays.CHECKPOINT_WIDTHS)
    ensures HashAt(bytes, from + 12 * k, checkpoints[k].frame, checkpoints[k].hash)
  {
    hide Encode, EncodeRows, Total, HashAt, Replays.CheckpointRow;
    Replays.LayoutSizes();
    RowInTable(Replays.CheckpointRows(checkpoints), Replays.CHECKPOINT_WIDTHS, k, 12);
    SliceOf(bytes, from, from + 12 * |checkpoints|, k * 12, k * 12 + 12);
    CheckpointRowIs(checkpoints[k]);
    HashInPlace(bytes, from + 12 * k, Replays.CheckpointRow(checkpoints[k]), checkpoints[k].frame,
      checkpoints[k].hash);
  }

  /** Every field of an encoded replay, by offset: a 48-byte header, 14 bytes a pair, 12 a checkpoint, a CRC. */
  lemma ReplayLayout(r: Replays.Replay)
    requires Replays.Encodable(r)
    ensures Replays.Encoded(r).Ok?
    ensures var bytes, n, m := Replays.Encoded(r).value, |r.inputs|, |r.checkpoints|;
      var end := 48 + 14 * n + 12 * m;
      && |bytes| == end + 4 && ReplayHeaderAt(bytes, r)
      && (forall k :: 0 <= k < n ==> PairAt(bytes, 48 + 14 * k, r.inputs[k]))
      && (forall k :: 0 <= k < m ==>
            HashAt(bytes, 48 + 14 * n + 12 * k, r.checkpoints[k].frame, r.checkpoints[k].hash))
      && bytes[end..] == LittleEndian(Crc32(bytes[..end]), 4)
  {
    hide Field, Offset, Encode, EncodeRows, Total, Crc32, ReplayHeaderAt, PairAt, HashAt, Replays.PairRow,
         Replays.CheckpointRow, Replays.HeaderRow, Replays.EncodeError, LittleEndian, Replays.Encoded;
    ReplayParts(r);
    Replays.LayoutSizes();
    var bytes, n, m := Replays.Encoded(r).value, |r.inputs|, |r.checkpoints|;
    ReplayHeaderLayout(r, bytes);
    forall k | 0 <= k < n ensures PairAt(bytes, 48 + 14 * k, r.inputs[k]) {
      PairOfTable(bytes, r.inputs, k);
    }
    forall k | 0 <= k < m
      ensures HashAt(bytes, 48 + 14 * n + 12 * k, r.checkpoints[k].frame, r.checkpoints[k].hash)
    {
      CheckpointOfTable(bytes, 48 + 14 * n, r.checkpoints, k);
    }
  }

  lemma CheckpointRowIs(c: Replays.Checkpoint)
    ensures Replays.CheckpointRow(c) == [c.frame, c.hash]
  {
  }

  // ---- What the decoders refuse ----

  lemma FieldsOfDecoded(bytes: seq<u8>, widths: seq<nat>)
    requires |bytes| == Total(widths)
    ensures |Decode(bytes, widths)| == |widths|
    ensures forall i :: 0 <= i < |widths| ==>
        Offset(widths, i) + widths[i] <= |bytes|
        && Field(bytes, Offset(widths, i), widths[i]) == Decode(bytes, widths)[i]
  {
    hide Encode, Decode, Total, Offset, Field, Fits;
    EncodeDecode(bytes, widths);
    forall i | 0 <= i < |widths|
      ensures Offset(widths, i) + widths[i] <= |bytes|
        && Field(bytes, Offset(widths, i), widths[i]) == Decode(bytes, widths)[i]
    {
      FieldOfRecord(Decode(bytes, widths), widths, i);
    }
  }

  lemma PrefixField(bytes: seq<u8>, n: nat)
    requires n <= |bytes|
    ensures forall at, width :: 0 <= at && 0 <= width && at + width <= n ==>
        Field(bytes[..n], at, width) == Field(bytes, at, width)
  {
    forall at, width | 0 <= at && 0 <= width && at + width <= n
      ensures Field(bytes[..n], at, width) == Field(bytes, at, width)
    {
      SliceOf(bytes, 0, n, at, at + width);
      assert bytes[0..n] == bytes[..n];
    }
  }

  lemma PacketFieldsDecoded(bytes: seq<u8>)
    requires |bytes| >= 36
    ensures Total(Codec.HEADER_WIDTHS) == 32
    ensures var h := Decode(bytes[..32], Codec.HEADER_WIDTHS);
      && |h| == 11 && h[0] == Field(bytes, 0, 4) && h[1] == Field(bytes, 4, 2) && h[2] == Field(bytes, 6, 1)
      && h[3] == Field(bytes, 7, 1) && h[8] == Field(bytes, 28, 1) && h[9] == Field(bytes, 29, 1)
      && h[10] == Field(bytes, 30, 2)
  {
    hide Decode, Total, Offset, Field;
    Codec.LayoutSizes();
    PacketOffsets();
    PrefixField(bytes, 32);
    FieldsOfDecoded(bytes[..32], Codec.HEADER_WIDTHS);
    var w := Codec.HEADER_WIDTHS;
    assert w[0] == 4 && w[1] == 2 && w[2] == 1 && w[3] == 1 && w[8] == 1 && w[9] == 1 && w[10] == 2;
  }

  /** The error of a packet that is refused before its payload is read, by the first check that fails. */
  lemma PacketRefusals(bytes: seq<u8>)
    ensures |bytes| < 36 ==> Codec.Decoded(bytes) == Err(TruncatedData)
    ensures |bytes| > 1200 ==> Codec.Decoded(bytes) == Err(InvalidLength)
    ensures 36 <= |bytes| <= 1200 ==>
        var end, count, hashes := |bytes| - 4, Field(bytes, 28, 1), Field(bytes, 29, 1);
        var payload := 10 * count + 12 * hashes + if Field(bytes, 6, 1) == 1 then 16 else 0;
        if Number(bytes[end..]) != Crc32(bytes[..end]) then Codec.Decoded(bytes) == Err(IntegrityMismatch)
        else if Field(bytes, 0, 4) != 0x4B424C52 then Codec.Decoded(bytes) == Err(InvalidMagic)
        else if Field(bytes, 4, 2) != 1 then Codec.Decoded(bytes) == Err(UnsupportedVersion)
        else if !(1 <= Field(bytes, 6, 1) <= 4) then Codec.Decoded(bytes) == Err(UnknownPacketType)
        else if Field(bytes, 7, 1) > 1 then Codec.Decoded(bytes) == Err(InvalidArgument)
        else if count > 32 || hashes > 32 then Codec.Decoded(bytes) == Err(CapacityExceeded)
        else if Field(bytes, 30, 2) != payload || |bytes| != 36 + payload then
          Codec.Decoded(bytes) == Err(InvalidLength)
        else Codec.Decoded(bytes).Err? ==> Codec.Decoded(bytes) == Err(InvalidArgument)
  {
    hide Decode, Total, Offset, Field, Crc32, Number, Codec.InputsAccepted, Codec.OrderedHashes;
    if 36 <= |bytes| <= 1200 {
      PacketFieldsDecoded(bytes);
    }
  }

  lemma ReplayFieldsDecoded(bytes: seq<u8>)
    requires |bytes| >= 52
    ensures Total(Replays.HEADER_WIDTHS) == 48
    ensures var h := Decode(bytes[..48], Replays.HEADER_WIDTHS);
      && |h| == 12 && h[0] == Field(bytes, 0, 4) && h[1] == Field(bytes, 4, 2) && h[2] == Field(bytes, 6, 2)
      && h[3] == Field(bytes, 8, 2) && h[4] == Field(bytes, 10, 1) && h[5] == Field(bytes, 11, 1)
      && h[8] == Field(bytes, 28, 4) && h[9] == Field(bytes, 32, 4) && h[10] == Field(bytes, 36, 4)
  {
    hide Decode, Total, Offset, Field;
    Replays.LayoutSizes();
    ReplayOffsets();
    PrefixField(bytes, 48);
    FieldsOfDecoded(bytes[..48], Replays.HEADER_WIDTHS);
    var w := Replays.HEADER_WIDTHS;
    assert w[0] == 4 && w[1] == w[2] == w[3] == 2 && w[4] == w[5] == 1 && w[8] == w[9] == w[10] == 4;
  }

  /** The error of a replay file that is refused before its tables are read, by the first check that fails. */
  lemma ReplayRefusals(bytes: seq<u8>)
    ensures |bytes| < 52 ==> Replays.Decoded(bytes) == Err(TruncatedData)
    ensures 52 <= |bytes| ==>
        var end, pairs, checkpoints := |bytes| - 4, Field(bytes, 32, 4), Field(bytes, 36, 4);
        if Number(bytes[end..]) != Crc32(bytes[..end]) then Replays.Decoded(bytes) == Err(IntegrityMismatch)
        else if Field(bytes, 0, 4) != 0x50524C52 then Replays.Decoded(bytes) == Err(InvalidMagic)
        else if Field(bytes, 4, 2) != 1 || Field(bytes, 6, 2) != 1 || Field(bytes, 8, 2) != 1 then
          Replays.Decoded(bytes) == Err(UnsupportedVersion)
        else if Field(bytes, 10, 1) > 1 || Field(bytes, 11, 1) != 0 then Replays.Decoded(bytes) == Err(InvalidArgument)
        else if pairs > 1000000 || checkpoints > 100000 || pairs != Field(bytes, 28, 4) then
          Replays.Decoded(bytes) == Err(CapacityExceeded)
        else if |bytes| != 52 + 14 * pairs + 12 * checkpoints then Replays.Decoded(bytes) == Err(InvalidLength)
        else Replays.Decoded(bytes).Err? ==> Replays.Decoded(bytes) == Err(InvalidArgument)
  {
    hide Decode, Total, Offset, Field, Crc32, Number, Replays.PairsAccepted, Replays.CheckpointsOrdered;
    if 52 <= |bytes| {
      ReplayFieldsDecoded(bytes);
    }
  }

  /** The error of a packet that is not encoded, by the first check that fails. */
  lemma UnencodablePackets(p: Codec.Packet)
    ensures
      if p.version != 1 then Codec.Encoded(p) == Err(UnsupportedVersion)
      else if !(1 <= p.kind <= 4) then Codec.Encoded(p) == Err(UnknownPacketType)
      else if |p.inputs| > 32 || |p.hashes| > 32 then Codec.Encoded(p) == Err(CapacityExceeded)
      else if (p.kind == 1 && (p.hello.None? || p.inputs != [] || p.hashes != [])) || (p.kind != 1 && p.hello.Some?)
        || (exists k :: 0 <= k < |p.inputs| && p.inputs[k].player != p.sender)
        || (exists k :: 0 < k < |p.hashes| && !FrameBefore(p.hashes[k - 1].frame, p.hashes[k].frame))
      then Codec.Encoded(p) == Err(InvalidArgument)
      else Codec.Encoded(p).Ok?
  {
    hide Codec.Body, FrameBefore;
  }

  /** The error of a replay that is not encoded, by the first check that fails. */
  lemma UnencodableReplays(r: Replays.Replay)
    ensures
      if r.replayVersion != 1 || r.simulationVersion != 1 || r.protocolVersion != 1 then
        Replays.Encoded(r) == Err(UnsupportedVersion)
      else if r.variant > 1 then Replays.Encoded(r) == Err(InvalidArgument)
      else if |r.inputs| > 1000000 || |r.checkpoints| > 100000 || |r.inputs| != r.finalFrame then
        Replays.Encoded(r) == Err(CapacityExceeded)
      else if (exists k :: 0 <= k < |r.inputs| && !(r.inputs[k].a.player == A && r.inputs[k].b.player == B
                                                    && r.inputs[k].a.frame == r.inputs[k].b.frame))
      then Replays.Encoded(r) == Err(InvalidArgument)
      else Replays.Encoded(r).Ok?
  {
    hide Replays.Body;
  }
}
