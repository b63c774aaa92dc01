/** Duplicate filtering with a 64-bit receive mask (src/protocol/sequence_window.cpp). */
module SequenceWindows {
  import opened Core
  import opened Bits

  datatype Disposition = Newest | OutOfOrder | Duplicate | Stale

  const WINDOW: int := 64

  // ---- Mask bits ----

  /** `mask |= 1 << i` */
  function SetBit(mask: nat, i: nat): nat {
    if i == 0 then mask / 2 * 2 + 1 else mask % 2 + 2 * SetBit(mask / 2, i - 1)
  }

  /** `mask << k` on 64 bits */
  function ShiftLeft(mask: nat, k: nat): nat {
    if k == 0 then mask else ShiftLeft(mask, k - 1) * 2 % U64
  }

  lemma {:induction false} BitOfRemainder(x: nat, n: nat, i: nat)
    requires i < n
    ensures Bit(x % Pow2(n), i) <==> Bit(x, i)
    decreases n
  {
    HalfRemainder(x, Pow2(n - 1));
    if i > 0 {
      BitOfRemainder(x / 2, n - 1, i - 1);
    }
  }

  lemma HalfRemainder(x: nat, p: nat)
    requires p > 0
    ensures x % (2 * p) / 2 == x / 2 % p && x % (2 * p) % 2 == x % 2
  {
    var q, r := x / 2 / p, x / 2 % p;
    assert x / 2 == q * p + r;
    var low := 2 * r + x % 2;
    assert x == q * (2 * p) + low;
    assert 0 <= low < 2 * p;
    DivisionIsUnique(x, 2 * p, q, low);
  }

  lemma {:induction false} ShiftedBit(mask: nat, k: nat, i: nat)
    requires mask < U64 && i < WINDOW
    ensures Bit(ShiftLeft(mask, k), i) <==> i >= k && Bit(mask, i - k)
    ensures ShiftLeft(mask, k) < U64
    decreases k
  {
    if k > 0 {
      var x := ShiftLeft(mask, k - 1);
      Pow2Values();
      BitOfRemainder(x * 2, 64, i);
      assert x * 2 / 2 == x;
      if i > 0 {
        ShiftedBit(mask, k - 1, i - 1);
      }
    }
  }

  lemma {:induction false} SetBitIsSet(mask: nat, b: nat, i: nat)
    ensures Bit(SetBit(mask, b), i) <==> i == b || Bit(mask, i)
  {
    if b == 0 {
      assert SetBit(mask, 0) / 2 == mask / 2;
    } else {
      assert SetBit(mask, b) / 2 == SetBit(mask / 2, b - 1) && SetBit(mask, b) % 2 == mask % 2;
      if i > 0 {
        SetBitIsSet(mask / 2, b - 1, i - 1);
      }
    }
  }

  lemma {:induction false} SetBitIsBounded(mask: nat, b: nat, n: nat)
    requires b < n && mask < Pow2(n)
    ensures SetBit(mask, b) < Pow2(n)
  {
    if b > 0 {
      SetBitIsBounded(mask / 2, b - 1, n - 1);
    }
  }

  // ---- The window as a set of logical sequence numbers ----

  datatype Window = Window(newest: Option<int>, accepted: set<int>)

  const EMPTY: Window := Window(None, {})

  predicate Coherent(w: Window) {
    && (w.newest.None? ==> w.accepted == {})
    && (w.newest.Some? ==> w.newest.value in w.accepted && forall n :: n in w.accepted ==> n <= w.newest.value)
  }

  function Judged(w: Window, number: int): Disposition {
    if w.newest.None? || number > w.newest.value then Newest
    else if w.newest.value - number >= WINDOW && number != w.newest.value then Stale
    else if number in w.accepted then Duplicate
    else OutOfOrder
  }

  predicate Accepted(d: Disposition) { d.Newest? || d.OutOfOrder? }

  function Observed(w: Window, number: int): Window {
    match Judged(w, number)
    case Newest => Window(Some(number), w.accepted + {number})
    case OutOfOrder => w.(accepted := w.accepted + {number})
    case _ => w
  }

  class SequenceWindow {
    var initialized: bool
    var newest: u32
    var receivedMask: u64
    ghost var window: Window

    ghost predicate Valid()
      reads this
    {
      && Coherent(window)
      && (initialized <==> window.newest.Some?)
      && (initialized ==>
            && newest == Tag(window.newest.value)
            && forall i :: 0 <= i < WINDOW ==> (Bit(receivedMask, i) <==> window.newest.value - i in window.accepted))
    }

    constructor ()
      ensures Valid() && window == EMPTY
    {
      initialized, newest, receivedMask, window := false, 0, 0, EMPTY;
    }

    /** Mask bit i is set exactly when newest - i was accepted, across 32-bit wrap. */
    method Observe(sequence: u32, ghost number: int) returns (d: Disposition)
      requires Valid() && sequence == Tag(number)
      requires window.newest.Some? ==> -HALF <= number - window.newest.value < HALF
      modifies this
      ensures Valid() && d == old(Judged(window, number)) && window == old(Observed(window, number))
    {
      hide Bit, SetBit, ShiftLeft, Tag;
      ghost var before := window;
      if !initialized {
        FirstBit();
        initialized, newest, receivedMask, window := true, sequence, 1, Observed(window, number);
        return Newest;
      }
      Distances(number, window.newest.value);
      var forward := (sequence - newest) % U32;
      if forward == 0 {
        return Duplicate;
      }
      if forward < HALF {
        receivedMask := Advanced(receivedMask, forward);
        newest := sequence;
        window := Observed(window, number);
        return Newest;
      }
      var behind := (newest - sequence) % U32;
      if behind >= WINDOW {
        return Stale;
      }
      if Bit(receivedMask, behind) {
        return Duplicate;
      }
      forall i | 0 <= i < WINDOW ensures Bit(SetBit(receivedMask, behind), i) <==> i == behind || Bit(receivedMask, i) {
        SetBitIsSet(receivedMask, behind, i);
      }
      Pow2Values();
      SetBitIsBounded(receivedMask, behind, 64);
      receivedMask := SetBit(receivedMask, behind);
      window := Observed(window, number);
      return OutOfOrder;
    }
  }

  function Advanced(mask: u64, forward: nat): (r: u64)
    requires forward > 0
    ensures forall i :: 0 <= i < WINDOW ==> (Bit(r, i) <==> i == 0 || (i >= forward && Bit(mask, i - forward)))
  {
    if forward >= WINDOW then
      FirstBit();
      1
    else
      ShiftAndSet(mask, forward);
      SetBit(ShiftLeft(mask, forward), 0)
  }

  lemma ShiftAndSet(mask: u64, forward: nat)
    ensures SetBit(ShiftLeft(mask, forward), 0) < U64
    ensures forall i :: 0 <= i < WINDOW ==>
        (Bit(SetBit(ShiftLeft(mask, forward), 0), i) <==> i == 0 || (i >= forward && Bit(mask, i - forward)))
  {
    hide Bit, SetBit, ShiftLeft;
    Pow2Values();
    ShiftedBit(mask, forward, 0);
    SetBitIsBounded(ShiftLeft(mask, forward), 0, 64);
    forall i | 0 <= i < WINDOW
      ensures Bit(SetBit(ShiftLeft(mask, forward), 0), i) <==> i == 0 || (i >= forward && Bit(mask, i - forward))
    {
      ShiftedBit(mask, forward, i);
      SetBitIsSet(ShiftLeft(mask, forward), 0, i);
    }
  }

  lemma FirstBit()
    ensures forall i :: 0 <= i < WINDOW ==> (Bit(1, i) <==> i == 0)
  {
    forall i | 0 <= i < WINDOW ensures Bit(1, i) <==> i == 0 {
      SetBitIsSet(0, 0, i);
      NoBits(i);
    }
  }

  lemma {:induction false} NoBits(i: nat)
    ensures !Bit(0, i)
  {
    if i > 0 {
      NoBits(i - 1);
    }
  }

  lemma Distances(number: int, newest: int)
    requires -HALF <= number - newest < HALF
    ensures var forward, behind := (Tag(number) - Tag(newest)) % U32, (Tag(newest) - Tag(number)) % U32;
      && (forward == 0 <==> number == newest)
      && (0 < forward < HALF <==> number > newest)
      && (number >= newest ==> forward == number - newest)
      && (number <= newest ==> behind == newest - number)
  {
    TagDifference(newest, number);
    TagDifference(number, newest);
    SmallMod(number - newest);
    SmallMod(newest - number);
  }

  // ---- Over a whole run ----

  function After(w: Window, numbers: seq<int>): Window {
    if numbers == [] then w else Observed(After(w, numbers[..|numbers| - 1]), numbers[|numbers| - 1])
  }

  /** The verdict on the i-th arrival of a run. */
  function Verdict(numbers: seq<int>, i: nat): Disposition
    requires i < |numbers|
  {
    Judged(After(EMPTY, numbers[..i]), numbers[i])
  }

  lemma {:induction false} RunIsCoherent(numbers: seq<int>)
    ensures Coherent(After(EMPTY, numbers))
    ensures forall n :: n in After(EMPTY, numbers).accepted ==> n in numbers
  {
    if numbers != [] {
      var k := |numbers| - 1;
      RunIsCoherent(numbers[..k]);
      assert numbers[k] in numbers;
      assert forall n :: n in numbers[..k] ==> n in numbers;
    }
  }

  lemma {:induction false} AcceptedGrows(numbers: seq<int>, i: nat, n: int)
    requires i <= |numbers| && n in After(EMPTY, numbers[..i]).accepted
    ensures n in After(EMPTY, numbers).accepted
    decreases |numbers|
  {
    if i < |numbers| {
      var k := |numbers| - 1;
      assert numbers[..k][..i] == numbers[..i];
      AcceptedGrows(numbers[..k], i, n);
    } else {
      assert numbers[..i] == numbers;
    }
  }

  /** No logical sequence number is accepted twice in any run. */
  lemma AcceptedAtMostOnce(numbers: seq<int>, i: nat, j: nat)
    requires i < j < |numbers| && numbers[i] == numbers[j]
    ensures !(Accepted(Verdict(numbers, i)) && Accepted(Verdict(numbers, j)))
  {
    if Accepted(Verdict(numbers, i)) {
      assert numbers[..i + 1][..i] == numbers[..i];
      assert numbers[i] in After(EMPTY, numbers[..i + 1]).accepted;
      assert numbers[..j][..i + 1] == numbers[..i + 1];
      AcceptedGrows(numbers[..j], i + 1, numbers[i]);
      RunIsCoherent(numbers[..j]);
    }
  }

  /** A number never seen before that is fewer than 64 behind the newest is accepted. */
  lemma UnseenIsAccepted(numbers: seq<int>, i: nat)
    requires i < |numbers| && numbers[i] !in numbers[..i]
    requires forall k :: 0 <= k < i ==> numbers[k] - numbers[i] < WINDOW
    ensures Accepted(Verdict(numbers, i))
  {
    RunIsCoherent(numbers[..i]);
    var w := After(EMPTY, numbers[..i]);
    if w.newest.Some? {
      var k :| 0 <= k < i && numbers[..i][k] == w.newest.value;
    }
  }

  ghost predicate IsGreatest(m: int, numbers: seq<int>) { m in numbers && forall n :: n in numbers ==> n <= m }

  /** The window knows the greatest number received, and remembers every one fewer than 64 behind it. */
  lemma {:induction false} WindowRemembers(numbers: seq<int>, m: int)
    requires IsGreatest(m, numbers)
    ensures var w := After(EMPTY, numbers);
      w.newest == Some(m) && forall n :: n in numbers && m - n < 64 ==> n in w.accepted
  {
    var k := |numbers| - 1;
    var x := numbers[k];
    assert x in numbers && forall n :: n in numbers <==> n == x || n in numbers[..k];
    if k > 0 {
      if m in numbers[..k] {
        WindowRemembers(numbers[..k], m);
        RunIsCoherent(numbers[..k]);
        ObservedKeeps(After(EMPTY, numbers[..k]), x, m);
      } else {
        var m' := Greatest(numbers[..k]);
        WindowRemembers(numbers[..k], m');
      }
    }
  }

  lemma ObservedKeeps(w: Window, x: int, m: int)
    requires w.newest == Some(m) && x <= m && Coherent(w)
    ensures Observed(w, x).newest == Some(m) && w.accepted <= Observed(w, x).accepted
    ensures m - x < 64 ==> x in Observed(w, x).accepted
  {
  }

  lemma Greatest(numbers: seq<int>) returns (m: int)
    requires numbers != []
    ensures IsGreatest(m, numbers)
  {
    var k := |numbers| - 1;
    if k == 0 {
      m := numbers[0];
    } else {
      assert forall n :: n in numbers <==> n == numbers[k] || n in numbers[..k];
      m := Greatest(numbers[..k]);
      if m < numbers[k] {
        m := numbers[k];
      }
    }
  }

  /**
   * The verdict by what was received before, `m` being the greatest of it: newest beyond it, stale 64 or more behind
   * it, and otherwise a duplicate exactly when the same number was received before.
   */
  lemma VerdictByHistory(numbers: seq<int>, i: nat, m: int)
    requires i < |numbers| && (i > 0 ==> IsGreatest(m, numbers[..i]))
    ensures Verdict(numbers, i) ==
      if i == 0 || numbers[i] > m then Newest
      else if m - numbers[i] >= 64 then Stale
      else if numbers[i] in numbers[..i] then Duplicate
      else OutOfOrder
  {
    RunIsCoherent(numbers[..i]);
    if i > 0 {
      WindowRemembers(numbers[..i], m);
    }
  }
}
