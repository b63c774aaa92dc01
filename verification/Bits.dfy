/** Exclusive-or and little-endian bytes over natural numbers. */
module Bits {
  import opened Core

  function Pow2(n: nat): (r: int)
    ensures r > 0
  {
    if n == 0 then 1 else 2 * Pow2(n - 1)
  }

  predicate Bit(mask: nat, i: nat) {
    if i == 0 then mask % 2 == 1 else Bit(mask / 2, i - 1)
  }

  function Xor(a: nat, b: nat): (r: nat)
    decreases a + b
  {
    if a == 0 && b == 0 then 0 else 2 * Xor(a / 2, b / 2) + (a + b) % 2
  }

  /** A bit of the exclusive-or is set exactly when it is set in one of the two and not the other. */
  lemma {:induction false} XorBits(a: nat, b: nat, i: nat)
    ensures Bit(Xor(a, b), i) <==> Bit(a, i) != Bit(b, i)
    decreases i
  {
    hide Xor;
    XorHalves(a, b);
    if i == 0 {
      OddSum(a, b);
    } else {
      XorBits(a / 2, b / 2, i - 1);
    }
  }

  lemma OddSum(a: nat, b: nat)
    ensures (a + b) % 2 == 1 <==> (a % 2 == 1) != (b % 2 == 1)
  {
  }

  lemma XorHalves(a: nat, b: nat)
    ensures Xor(a, b) / 2 == Xor(a / 2, b / 2) && Xor(a, b) % 2 == (a + b) % 2
  {
    if a == 0 && b == 0 {
      assert Xor(0, 0) == 0;
    }
  }

  lemma {:induction false} XorZero(b: nat)
    ensures Xor(0, b) == b
  {
    if b != 0 {
      XorZero(b / 2);
    }
  }

  lemma {:induction false} XorUndoes(a: nat, b: nat)
    ensures Xor(Xor(a, b), b) == a
    decreases a + b
  {
    if a != 0 || b != 0 {
      XorUndoes(a / 2, b / 2);
      var half := Xor(a / 2, b / 2);
      Parity(a, b, half);
    }
  }

  lemma Parity(a: nat, b: nat, half: nat)
    ensures (2 * half + (a + b) % 2) / 2 == half
    ensures (2 * half + (a + b) % 2 + b) % 2 == a % 2
  {
    var p, q := a / 2, b / 2;
    assert a == 2 * p + a % 2 && b == 2 * q + b % 2;
  }

  lemma {:induction false} XorIsBounded(a: nat, b: nat, n: nat)
    requires a < Pow2(n) && b < Pow2(n)
    ensures Xor(a, b) < Pow2(n)
  {
    if n > 0 {
      XorIsBounded(a / 2, b / 2, n - 1);
    }
  }

  lemma XorIsInjective(a: nat, a': nat, b: nat)
    requires Xor(a, b) == Xor(a', b)
    ensures a == a'
  {
    XorUndoes(a, b);
    XorUndoes(a', b);
  }

  lemma {:induction false} XorCommutes(a: nat, b: nat)
    ensures Xor(a, b) == Xor(b, a)
    decreases a + b
  {
    if a != 0 || b != 0 {
      XorCommutes(a / 2, b / 2);
    }
  }

  lemma Pow2Values()
    ensures Pow2(8) == U8 && Pow2(31) == HALF && Pow2(32) == U32 && Pow2(64) == U64
  {
    assert Pow2(4) == 16;
    assert Pow2(8) == 256;
    assert Pow2(12) == 0x1000;
    assert Pow2(16) == U16;
    assert Pow2(20) == 0x10_0000;
    assert Pow2(24) == 0x100_0000;
    assert Pow2(28) == 0x1000_0000;
    assert Pow2(32) == U32;
    assert Pow2(36) == 0x10_0000_0000;
    assert Pow2(40) == 0x100_0000_0000;
    assert Pow2(44) == 0x1000_0000_0000;
    assert Pow2(48) == 0x1_0000_0000_0000;
    assert Pow2(52) == 0x10_0000_0000_0000;
    assert Pow2(56) == 0x100_0000_0000_0000;
    assert Pow2(60) == 0x1000_0000_0000_0000;
  }

  // ---- Little-endian encoding ----

  function Pow256(n: nat): (r: nat)
    ensures r > 0
  {
    if n == 0 then 1 else 256 * Pow256(n - 1)
  }

  function LittleEndian(value: nat, width: nat): (r: seq<u8>)
    ensures |r| == width
  {
    if width == 0 then [] else [value % 256] + LittleEndian(value / 256, width - 1)
  }

  function Number(bytes: seq<u8>): nat {
    if bytes == [] then 0 else bytes[0] + 256 * Number(bytes[1..])
  }

  lemma {:induction false} NumberOfLittleEndian(value: nat, width: nat)
    requires value < Pow256(width)
    ensures Number(LittleEndian(value, width)) == value
  {
    if width > 0 {
      NumberOfLittleEndian(value / 256, width - 1);
      assert LittleEndian(value, width)[1..] == LittleEndian(value / 256, width - 1);
    }
  }

  lemma {:induction false} LittleEndianOfNumber(bytes: seq<u8>)
    ensures LittleEndian(Number(bytes), |bytes|) == bytes && Number(bytes) < Pow256(|bytes|)
  {
    if bytes != [] {
      LittleEndianOfNumber(bytes[1..]);
      assert Number(bytes) % 256 == bytes[0] && Number(bytes) / 256 == Number(bytes[1..]);
    }
  }

  lemma WidthValues()
    ensures Pow256(1) == U8 && Pow256(2) == U16 && Pow256(4) == U32 && Pow256(8) == U64
  {
    assert Pow256(2) == U16;
    assert Pow256(4) == U32;
    assert Pow256(6) == 0x1_0000_0000_0000;
  }

  // ---- Division ----

  lemma DivisionIsUnique(x: nat, m: nat, q: nat, r: nat)
    requires m > 0 && x == q * m + r && r < m
    ensures x / m == q && x % m == r
  {
    assert x == x / m * m + x % m;
    var k := x / m - q;
    assert k * m == r - x % m;
    MultipleBounds(k, m);
  }

  lemma MultipleBounds(k: int, m: nat)
    ensures k > 0 ==> k * m >= m
    ensures k < 0 ==> k * m <= 0 - m
  {
    if k > 0 {
      Scaled(1, k, m);
    } else if k < 0 {
      Scaled(k, -1, m);
    }
  }

  lemma Scaled(j: int, k: int, m: nat)
    requires j <= k
    ensures j * m <= k * m
  {
  }
}
