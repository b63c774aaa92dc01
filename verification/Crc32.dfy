/** CRC-32/ISO-HDLC (src/protocol/crc32.cpp; section 8 of RFC 1952). */
module Crc32s {
  import opened Core
  import opened Bits

  const POLYNOMIAL: u32 := 0xEDB88320
  const ONES: u32 := 0xFFFF_FFFF

  function BitStep(c: u32): (r: u32) {
    XorIsU32(c / 2, POLYNOMIAL);
    if c % 2 == 1 then Xor(c / 2, POLYNOMIAL) else c / 2
  }

  function BitSteps(c: u32, n: nat): u32 {
    if n == 0 then c else BitStep(BitSteps(c, n - 1))
  }

  function ByteStep(c: u32, byte: u8): u32 {
    XorIsU32(c, byte);
    BitSteps(Xor(c, byte), 8)
  }

  function Register(c: u32, bytes: seq<u8>): u32
    decreases |bytes|
  {
    if bytes == [] then c else Register(ByteStep(c, bytes[0]), bytes[1..])
  }

  function Crc32(bytes: seq<u8>): u32 {
    XorIsU32(Register(ONES, bytes), ONES);
    Xor(Register(ONES, bytes), ONES)
  }

  method ComputeCrc32(bytes: seq<u8>) returns (checksum: u32)
    ensures checksum == Crc32(bytes)
  {
    hide BitStep, Xor;
    checksum := ONES;
    for i := 0 to |bytes|
      invariant Register(checksum, bytes[i..]) == Register(ONES, bytes)
    {
      assert bytes[i..][0] == bytes[i] && bytes[i..][1..] == bytes[i + 1..];
      ghost var before := checksum;
      XorIsU32(checksum, bytes[i]);
      checksum := Xor(checksum, bytes[i]);
      for bit := 0 to 8
        invariant checksum == BitSteps(Xor(before, bytes[i]), bit)
      {
        checksum := BitStep(checksum);
      }
      assert checksum == ByteStep(before, bytes[i]);
    }
    XorIsU32(checksum, ONES);
    checksum := Xor(checksum, ONES);
  }

  // ---- The checksum, step by step ----

  /** A step halves the register; an odd one, whose lowest bit falls out, is mixed with the reflected polynomial. */
  lemma BitStepHalves(c: nat)
    requires 2 * c + 1 < U32
    ensures POLYNOMIAL == 0xEDB8_8320
    ensures BitStep(2 * c) == c && BitStep(2 * c + 1) == Xor(c, POLYNOMIAL)
  {
    assert POLYNOMIAL == 0xEDB8_8320;
    hide Xor, POLYNOMIAL;
    EvenOrOdd(c);
  }

  lemma EvenOrOdd(c: nat)
    ensures 2 * c / 2 == (2 * c + 1) / 2 == c && 2 * c % 2 == 0 && (2 * c + 1) % 2 == 1
  {
  }

  lemma {:induction false} RegisterOfConcat(c: u32, bytes: seq<u8>, more: seq<u8>)
    ensures Register(c, bytes + more) == Register(Register(c, bytes), more)
    decreases |bytes|
  {
    hide ByteStep;
    if bytes == [] {
      assert bytes + more == more;
    } else {
      assert (bytes + more)[0] == bytes[0] && (bytes + more)[1..] == bytes[1..] + more;
      RegisterOfConcat(ByteStep(c, bytes[0]), bytes[1..], more);
    }
  }

  /**
   * The checksum of nothing is 0. One more byte is mixed into the inverted checksum, whose 32 bits then step eight
   * times.
   */
  lemma ChecksumGrows(bytes: seq<u8>, byte: u8)
    ensures Crc32([]) == 0
    ensures Xor(Xor(Crc32(bytes), 0xFFFF_FFFF), byte) < U32 && Xor(Crc32(bytes + [byte]), 0xFFFF_FFFF)
         == BitStep(BitStep(BitStep(BitStep(BitStep(BitStep(BitStep(BitStep(
              Xor(Xor(Crc32(bytes), 0xFFFF_FFFF), byte)))))))))
  {
    hide BitStep, BitSteps, Xor;
    var before := Register(ONES, bytes);
    RegisterOfConcat(ONES, bytes, [byte]);
    assert [byte][1..] == [] && Register(before, [byte]) == ByteStep(before, byte);
    XorUndoes(before, ONES);
    XorUndoes(Register(ONES, bytes + [byte]), ONES);
    NothingIsZero();
    XorIsU32(before, byte);
    EightSteps(Xor(before, byte));
  }

  lemma NothingIsZero()
    ensures Crc32([]) == 0
  {
    XorZero(ONES);
    XorUndoes(0, ONES);
  }

  lemma EightSteps(c: u32)
    ensures BitSteps(c, 8) == BitStep(BitStep(BitStep(BitStep(BitStep(BitStep(BitStep(BitStep(c))))))))
  {
    hide BitStep;
    OneStep(c, 0);
    OneStep(c, 1);
    OneStep(c, 2);
    OneStep(c, 3);
    OneStep(c, 4);
    OneStep(c, 5);
    OneStep(c, 6);
    OneStep(c, 7);
  }

  lemma OneStep(c: u32, n: nat)
    ensures BitSteps(c, 0) == c && BitSteps(c, n + 1) == BitStep(BitSteps(c, n))
  {
  }

  lemma XorIsU32(a: u32, b: u32)
    ensures Xor(a, b) < U32
  {
    Pow2Values();
    XorIsBounded(a, b, 32);
  }

  /** The polynomial's top bit tells an odd register from an even one after the shift. */
  lemma TopBit(a: nat)
    requires a < HALF
    ensures Xor(a, POLYNOMIAL) >= HALF
  {
    if Xor(a, POLYNOMIAL) < HALF {
      Pow2Values();
      XorCommutes(a, POLYNOMIAL);
      XorUndoes(POLYNOMIAL, a);
      XorIsBounded(Xor(POLYNOMIAL, a), a, 31);
    }
  }

  lemma BitStepIsInjective(c: u32, d: u32)
    requires BitStep(c) == BitStep(d)
    ensures c == d
  {
    TopBit(c / 2);
    TopBit(d / 2);
    if c % 2 == 1 && d % 2 == 1 {
      XorIsInjective(c / 2, d / 2, POLYNOMIAL);
    }
  }

  lemma {:induction false} BitStepsAreInjective(c: u32, d: u32, n: nat)
    requires BitSteps(c, n) == BitSteps(d, n)
    ensures c == d
  {
    if n > 0 {
      BitStepIsInjective(BitSteps(c, n - 1), BitSteps(d, n - 1));
      BitStepsAreInjective(c, d, n - 1);
    }
  }

  /** A byte step is injective in the register and in the byte. */
  lemma ByteStepIsInjective(c: u32, d: u32, a: u8, b: u8)
    requires ByteStep(c, a) == ByteStep(d, b)
    ensures a == b ==> c == d
    ensures c == d ==> a == b
  {
    hide BitSteps;
    XorIsU32(c, a);
    XorIsU32(d, b);
    BitStepsAreInjective(Xor(c, a), Xor(d, b), 8);
    if a == b {
      XorIsInjective(c, d, a);
    }
    if c == d {
      XorCommutes(c, a);
      XorCommutes(c, b);
      XorIsInjective(a, b, c);
    }
  }

  lemma {:induction false} RegisterIsInjective(c: u32, d: u32, bytes: seq<u8>)
    requires Register(c, bytes) == Register(d, bytes)
    ensures c == d
    decreases |bytes|
  {
    if bytes != [] {
      RegisterIsInjective(ByteStep(c, bytes[0]), ByteStep(d, bytes[0]), bytes[1..]);
      ByteStepIsInjective(c, d, bytes[0], bytes[0]);
    }
  }

  lemma {:induction false} RegisterSeesOneByte(c: u32, bytes: seq<u8>, i: nat, byte: u8)
    requires i < |bytes| && byte != bytes[i]
    ensures Register(c, bytes[i := byte]) != Register(c, bytes)
    decreases |bytes|
  {
    hide ByteStep;
    var other := bytes[i := byte];
    if i == 0 {
      assert other[1..] == bytes[1..];
      if Register(c, other) == Register(c, bytes) {
        RegisterIsInjective(ByteStep(c, other[0]), ByteStep(c, bytes[0]), bytes[1..]);
        ByteStepIsInjective(c, c, other[0], bytes[0]);
      }
    } else {
      assert other[1..] == bytes[1..][i - 1 := byte];
      RegisterSeesOneByte(ByteStep(c, bytes[0]), bytes[1..], i - 1, byte);
    }
  }

  // ---- Checksummed messages ----

  const CHECKSUM_SIZE: int := 4

  /** The last four bytes are the little-endian CRC-32 of the others. */
  predicate Intact(bytes: seq<u8>)
    requires |bytes| >= CHECKSUM_SIZE
  {
    var n := |bytes| - CHECKSUM_SIZE;
    Number(bytes[n..]) == Crc32(bytes[..n])
  }

  /** Replacing any one byte of an intact message, checksum included, makes it detectably corrupt. */
  lemma OneByteIsCaught(bytes: seq<u8>, i: nat, byte: u8)
    requires |bytes| >= CHECKSUM_SIZE && Intact(bytes) && i < |bytes| && byte != bytes[i]
    ensures !Intact(bytes[i := byte])
  {
    hide Register;
    var n := |bytes| - CHECKSUM_SIZE;
    var other := bytes[i := byte];
    if i < n {
      assert other[..n] == bytes[..n][i := byte] && other[n..] == bytes[n..];
      RegisterSeesOneByte(ONES, bytes[..n], i, byte);
      if Crc32(other[..n]) == Crc32(bytes[..n]) {
        XorIsInjective(Register(ONES, other[..n]), Register(ONES, bytes[..n]), ONES);
      }
    } else {
      assert other[..n] == bytes[..n] && other[n..] == bytes[n..][i - n := byte];
      LittleEndianOfNumber(other[n..]);
      LittleEndianOfNumber(bytes[n..]);
      assert other[n..][i - n] != bytes[n..][i - n];
    }
  }

  // ---- Sealing ----

  function Sealed(body: seq<u8>): (r: seq<u8>)
    ensures |r| == |body| + CHECKSUM_SIZE
  {
    body + LittleEndian(Crc32(body), CHECKSUM_SIZE)
  }

  lemma SealIsIntact(body: seq<u8>)
    ensures Intact(Sealed(body)) && Sealed(body)[..|body|] == body
  {
    hide Crc32;
    WidthValues();
    NumberOfLittleEndian(Crc32(body), CHECKSUM_SIZE);
    assert Sealed(body)[|body|..] == LittleEndian(Crc32(body), CHECKSUM_SIZE);
  }
}
