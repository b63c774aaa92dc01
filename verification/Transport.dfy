/** The seeded transport: a bounded, lossy, delaying queue (src/transport/seeded_transport.cpp). */
module Transport {
  import opened Core
  import opened Bits

  datatype Endpoint = A | B | Relay
  datatype Policy = Fail | DropOldest

  datatype Config = Config(baseLatency: u32, jitter: u32, lossPercent: u32, reorderPercent: u32, duplicatePercent: u32,
    burstLossPercent: u32, maxPackets: nat, maxBytes: nat, bandwidth: nat, maxAge: u32, policy: Policy)

  datatype Scheduled = Scheduled(from: Endpoint, to: Endpoint, bytes: seq<u8>, enqueuedAt: u32, scheduledFor: u32,
                                 rank: u32, ordinal: nat, duplicate: bool)

  datatype Metrics = Metrics(sent: nat, delivered: nat, droppedLoss: nat, droppedOverflow: nat, droppedAge: nat,
                             duplicated: nat, reordered: nat)

  function TotalBytes(queue: seq<Scheduled>): nat {
    if queue == [] then 0 else TotalBytes(queue[..|queue| - 1]) + |queue[|queue| - 1].bytes|
  }

  lemma {:induction false} TotalOfConcat(p: seq<Scheduled>, q: seq<Scheduled>)
    ensures TotalBytes(p + q) == TotalBytes(p) + TotalBytes(q)
  {
    if q == [] {
      assert p + q == p;
    } else {
      var n := |q| - 1;
      assert (p + q)[..|p + q| - 1] == p + q[..n];
      TotalOfConcat(p, q[..n]);
    }
  }

  lemma TotalWithout(queue: seq<Scheduled>, i: nat)
    requires i < |queue|
    ensures TotalBytes(queue[..i] + queue[i + 1..]) == TotalBytes(queue) - |queue[i].bytes|
    ensures |queue[i].bytes| <= TotalBytes(queue)
  {
    assert queue == queue[..i] + ([queue[i]] + queue[i + 1..]);
    TotalOfConcat(queue[..i], [queue[i]] + queue[i + 1..]);
    TotalOfConcat([queue[i]], queue[i + 1..]);
    TotalOfConcat(queue[..i], queue[i + 1..]);
    assert [queue[i]][..0] == [];
  }

  // ---- Capacity ----

  predicate Exceeds(c: Config, queue: seq<Scheduled>, packets: nat, bytes: nat) {
    |queue| + packets > c.maxPackets || TotalBytes(queue) + bytes > c.maxBytes
  }

  function OldestIndex(queue: seq<Scheduled>): (r: nat)
    requires queue != []
    ensures r < |queue| && forall i :: 0 <= i < |queue| ==> queue[r].ordinal <= queue[i].ordinal
  {
    if |queue| == 1 then 0
    else
      var n := |queue| - 1;
      var r := OldestIndex(queue[..n]);
      if queue[n].ordinal < queue[r].ordinal then n else r
  }

  function WithoutOldest(queue: seq<Scheduled>): (r: seq<Scheduled>)
    requires queue != []
    ensures |r| == |queue| - 1
  {
    var i := OldestIndex(queue);
    queue[..i] + queue[i + 1..]
  }

  /** Evict the least ordinal until `packets` more fit. */
  function Evicted(c: Config, queue: seq<Scheduled>, packets: nat, bytes: nat): (r: seq<Scheduled>)
    ensures |r| <= |queue|
    ensures r == [] || !Exceeds(c, r, packets, bytes)
    decreases |queue|
  {
    if queue != [] && Exceeds(c, queue, packets, bytes) then Evicted(c, WithoutOldest(queue), packets, bytes) else queue
  }

  function CopiesSize(size: nat, copies: nat): nat { size * copies }

  predicate DistinctOrdinals(queue: seq<Scheduled>) {
    forall i, j :: 0 <= i < j < |queue| ==> queue[i].ordinal != queue[j].ordinal
  }

  lemma WithoutOne(queue: seq<Scheduled>, i: nat)
    requires i < |queue| && DistinctOrdinals(queue)
    ensures DistinctOrdinals(queue[..i] + queue[i + 1..])
    ensures forall s :: s in queue[..i] + queue[i + 1..] <==> s in queue && s.ordinal != queue[i].ordinal
  {
    var r := queue[..i] + queue[i + 1..];
    assert forall k :: 0 <= k < |r| ==> r[k] == queue[if k < i then k else k + 1];
    forall s | s in queue && s.ordinal != queue[i].ordinal ensures s in r {
      var k :| 0 <= k < |queue| && queue[k] == s;
      assert r[if k < i then k else k - 1] == s;
    }
  }

  lemma WithoutOldestKeepsYoungest(queue: seq<Scheduled>)
    requires queue != [] && DistinctOrdinals(queue)
    ensures DistinctOrdinals(WithoutOldest(queue))
    ensures forall s :: s in queue <==> s == queue[OldestIndex(queue)] || s in WithoutOldest(queue)
    ensures forall s :: s in WithoutOldest(queue) ==> queue[OldestIndex(queue)].ordinal < s.ordinal
  {
    hide OldestIndex;
    var i := OldestIndex(queue);
    WithoutOne(queue, i);
    forall s | s in queue ensures s == queue[i] || queue[i].ordinal < s.ordinal {
      var k :| 0 <= k < |queue| && queue[k] == s;
      if k != i {
        assert queue[k].ordinal != queue[i].ordinal;
      }
    }
  }

  /** Whatever is evicted is older than everything that stays. */
  lemma {:induction false} EvictionTakesTheOldest(c: Config, queue: seq<Scheduled>, packets: nat, bytes: nat,
      gone: Scheduled, stays: Scheduled)
    requires DistinctOrdinals(queue)
    requires gone in queue && gone !in Evicted(c, queue, packets, bytes) && stays in Evicted(c, queue, packets, bytes)
    ensures stays in queue && gone.ordinal < stays.ordinal
    decreases |queue|
  {
    if queue != [] && Exceeds(c, queue, packets, bytes) {
      WithoutOldestKeepsYoungest(queue);
      EvictionSelects(c, WithoutOldest(queue), packets, bytes);
      if gone in WithoutOldest(queue) {
        EvictionTakesTheOldest(c, WithoutOldest(queue), packets, bytes, gone, stays);
      }
    }
  }

  /** Nothing is evicted needlessly: with the last one evicted still there, the new packets would not fit. */
  lemma {:induction false} EvictionIsNeeded(c: Config, queue: seq<Scheduled>, packets: nat, bytes: nat)
    requires Evicted(c, queue, packets, bytes) != queue
    ensures exists q ::
        && q != [] && WithoutOldest(q) == Evicted(c, queue, packets, bytes)
        && (|q| + packets > c.maxPackets || TotalBytes(q) + bytes > c.maxBytes)
    decreases |queue|
  {
    hide OldestIndex, TotalBytes;
    if Evicted(c, WithoutOldest(queue), packets, bytes) != WithoutOldest(queue) {
      EvictionIsNeeded(c, WithoutOldest(queue), packets, bytes);
    }
  }

  lemma {:induction false} EvictionSelects(c: Config, queue: seq<Scheduled>, packets: nat, bytes: nat)
    requires DistinctOrdinals(queue)
    ensures DistinctOrdinals(Evicted(c, queue, packets, bytes))
    ensures forall s :: s in Evicted(c, queue, packets, bytes) ==> s in queue
    ensures TotalBytes(Evicted(c, queue, packets, bytes)) <= TotalBytes(queue)
    decreases |queue|
  {
    if queue != [] && Exceeds(c, queue, packets, bytes) {
      WithoutOldestKeepsYoungest(queue);
      TotalWithout(queue, OldestIndex(queue));
      EvictionSelects(c, WithoutOldest(queue), packets, bytes);
    }
  }

  // ---- The delivery order and sweep ----

  predicate Precedes(l: Scheduled, r: Scheduled) {
    if l.scheduledFor != r.scheduledFor then l.scheduledFor < r.scheduledFor
    else if l.rank != r.rank then l.rank < r.rank
    else l.ordinal < r.ordinal
  }

  predicate InOrder(queue: seq<Scheduled>) {
    forall i, j :: 0 <= i < j < |queue| ==> Precedes(queue[i], queue[j])
  }

  function Inserted(queue: seq<Scheduled>, s: Scheduled): (r: seq<Scheduled>)
    ensures |r| == |queue| + 1
  {
    if queue == [] || Precedes(s, queue[0]) then [s] + queue else [queue[0]] + Inserted(queue[1..], s)
  }

  /** `std::stable_sort` by (tick, rank, ordinal). */
  function Arranged(queue: seq<Scheduled>): (r: seq<Scheduled>)
    ensures |r| == |queue|
  {
    if queue == [] then [] else Inserted(Arranged(queue[..|queue| - 1]), queue[|queue| - 1])
  }

  lemma {:induction false} InsertedIsInOrder(queue: seq<Scheduled>, s: Scheduled)
    requires InOrder(queue) && DistinctOrdinals(queue) && forall q :: q in queue ==> q.ordinal != s.ordinal
    ensures InOrder(Inserted(queue, s)) && DistinctOrdinals(Inserted(queue, s))
    ensures forall q :: q in Inserted(queue, s) <==> q == s || q in queue
    ensures TotalBytes(Inserted(queue, s)) == TotalBytes(queue) + |s.bytes|
  {
    hide TotalBytes;
    Cons(s, queue);
    if queue == [] {
      NoBytes();
    } else if Precedes(s, queue[0]) {
      forall q | q in queue ensures Precedes(s, q) {
        var i :| 0 <= i < |queue| && queue[i] == q;
        assert i == 0 || Precedes(queue[0], queue[i]);
      }
      ConsInOrder(s, queue);
    } else {
      var head, rest := queue[0], Inserted(queue[1..], s);
      assert queue == [head] + queue[1..];
      Cons(head, queue[1..]);
      InsertedIsInOrder(queue[1..], s);
      Cons(head, rest);
      forall q | q in queue[1..] ensures Precedes(head, q) && head.ordinal != q.ordinal {
        var i :| 0 <= i < |queue[1..]| && queue[1..][i] == q;
        assert queue[i + 1] == q;
      }
      ConsInOrder(head, rest);
    }
  }

  lemma NoBytes()
    ensures TotalBytes([]) == 0
  {
  }

  /** Sorting keeps the packets and puts them in strict delivery order. */
  lemma {:induction false} ArrangedIsInOrder(queue: seq<Scheduled>)
    requires DistinctOrdinals(queue)
    ensures InOrder(Arranged(queue)) && DistinctOrdinals(Arranged(queue))
    ensures forall q :: q in Arranged(queue) <==> q in queue
    ensures TotalBytes(Arranged(queue)) == TotalBytes(queue)
  {
    if queue != [] {
      var n := |queue| - 1;
      ArrangedIsInOrder(queue[..n]);
      assert forall q :: q in queue <==> q in queue[..n] || q == queue[n];
      forall q | q in Arranged(queue[..n]) ensures q.ordinal != queue[n].ordinal {
        var i :| 0 <= i < n && queue[..n][i] == q;
      }
      InsertedIsInOrder(Arranged(queue[..n]), queue[n]);
    }
  }

  function Age(now: u32, s: Scheduled): u32 { (now - s.enqueuedAt) % U32 }

  predicate TooOld(c: Config, now: u32, s: Scheduled) { Age(now, s) > c.maxAge }

  predicate Ready(now: u32, budget: nat, s: Scheduled) { s.scheduledFor <= now && |s.bytes| <= budget }

  datatype Sweep = Sweep(kept: seq<Scheduled>, delivered: seq<Scheduled>, aged: seq<Scheduled>)

  /** One pass: drop what is too old, deliver what is due and fits the remaining budget, keep the rest. */
  function Swept(c: Config, now: u32, budget: nat, queue: seq<Scheduled>): Sweep {
    if queue == [] then Sweep([], [], [])
    else
      var s := queue[0];
      if TooOld(c, now, s) then
        var rest := Swept(c, now, budget, queue[1..]);
        rest.(aged := [s] + rest.aged)
      else if Ready(now, budget, s) then
        var rest := Swept(c, now, budget - |s.bytes|, queue[1..]);
        rest.(delivered := [s] + rest.delivered)
      else
        var rest := Swept(c, now, budget, queue[1..]);
        rest.(kept := [s] + rest.kept)
  }

  function Joined(kept: seq<Scheduled>, delivered: seq<Scheduled>, aged: seq<Scheduled>, rest: Sweep): Sweep {
    Sweep(kept + rest.kept, delivered + rest.delivered, aged + rest.aged)
  }

  lemma SweepStep(c: Config, now: u32, budget: nat, queue: seq<Scheduled>, kept: seq<Scheduled>,
      delivered: seq<Scheduled>, aged: seq<Scheduled>)
    requires queue != []
    ensures var s := queue[0];
      Joined(kept, delivered, aged, Swept(c, now, budget, queue)) ==
        if TooOld(c, now, s) then Joined(kept, delivered, aged + [s], Swept(c, now, budget, queue[1..]))
        else if Ready(now, budget, s) then Joined(kept, delivered + [s], aged, Swept(c, now, budget - |s.bytes|,
          queue[1..]))
        else Joined(kept + [s], delivered, aged, Swept(c, now, budget, queue[1..]))
  {
  }

  lemma {:induction false} TotalOfFirst(queue: seq<Scheduled>)
    requires queue != []
    ensures TotalBytes(queue) == |queue[0].bytes| + TotalBytes(queue[1..])
  {
    assert queue == [queue[0]] + queue[1..] && [queue[0]][..0] == [];
    TotalOfConcat([queue[0]], queue[1..]);
  }

  lemma Cons(s: Scheduled, rest: seq<Scheduled>)
    ensures forall q :: q in [s] + rest <==> q == s || q in rest
    ensures TotalBytes([s] + rest) == |s.bytes| + TotalBytes(rest)
    ensures ([s] + rest)[1..] == rest
  {
    TotalOfFirst([s] + rest);
  }

  lemma ConsInOrder(s: Scheduled, rest: seq<Scheduled>)
    requires InOrder(rest) && DistinctOrdinals(rest)
    requires forall q :: q in rest ==> Precedes(s, q) && s.ordinal != q.ordinal
    ensures InOrder([s] + rest) && DistinctOrdinals([s] + rest)
  {
    hide Precedes;
    forall i, j | 0 <= i < j < |[s] + rest|
      ensures Precedes(([s] + rest)[i], ([s] + rest)[j]) && ([s] + rest)[i].ordinal != ([s] + rest)[j].ordinal
    {
      assert ([s] + rest)[j] == rest[j - 1] && rest[j - 1] in rest;
    }
  }

  /** `r` splits `queue` without loss and delivers at most `budget` bytes. */
  ghost predicate Conserving(queue: seq<Scheduled>, r: Sweep, budget: nat) {
    && |r.kept| + |r.delivered| + |r.aged| == |queue|
    && TotalBytes(r.kept) + TotalBytes(r.delivered) + TotalBytes(r.aged) == TotalBytes(queue)
    && TotalBytes(r.delivered) <= budget
  }

  /** Nothing in `r` is delivered early or over age; only what is over age is dropped. */
  ghost predicate Selecting(c: Config, now: u32, queue: seq<Scheduled>, r: Sweep) {
    && (forall s :: s in queue <==> s in r.kept || s in r.delivered || s in r.aged)
    && (forall s :: s in r.delivered ==> s.scheduledFor <= now && !TooOld(c, now, s))
    && (forall s :: s in r.aged ==> TooOld(c, now, s))
    && (forall s :: s in r.kept ==> !TooOld(c, now, s))
  }

  lemma Ages(c: Config, now: u32, budget: nat, s: Scheduled, rest: seq<Scheduled>, r: Sweep)
    requires Conserving(rest, r, budget) && Selecting(c, now, rest, r) && TooOld(c, now, s)
    ensures Conserving([s] + rest, r.(aged := [s] + r.aged), budget)
    ensures Selecting(c, now, [s] + rest, r.(aged := [s] + r.aged))
  {
    hide TotalBytes, TooOld;
    Cons(s, rest);
    Cons(s, r.aged);
  }

  lemma Leaves(c: Config, now: u32, budget: nat, s: Scheduled, rest: seq<Scheduled>, r: Sweep)
    requires |s.bytes| <= budget && Conserving(rest, r, budget - |s.bytes|) && Selecting(c, now, rest, r)
    requires !TooOld(c, now, s) && s.scheduledFor <= now
    ensures Conserving([s] + rest, r.(delivered := [s] + r.delivered), budget)
    ensures Selecting(c, now, [s] + rest, r.(delivered := [s] + r.delivered))
  {
    hide TotalBytes, TooOld;
    Cons(s, rest);
    Cons(s, r.delivered);
  }

  lemma Stays(c: Config, now: u32, budget: nat, s: Scheduled, rest: seq<Scheduled>, r: Sweep)
    requires Conserving(rest, r, budget) && Selecting(c, now, rest, r) && !TooOld(c, now, s)
    ensures Conserving([s] + rest, r.(kept := [s] + r.kept), budget)
    ensures Selecting(c, now, [s] + rest, r.(kept := [s] + r.kept))
  {
    hide TotalBytes, TooOld;
    Cons(s, rest);
    Cons(s, r.kept);
  }

  lemma SweptFirst(c: Config, now: u32, budget: nat, queue: seq<Scheduled>)
    requires queue != []
    ensures var s := queue[0];
      Swept(c, now, budget, queue) ==
        if TooOld(c, now, s) then
          var rest := Swept(c, now, budget, queue[1..]);
          rest.(aged := [s] + rest.aged)
        else if Ready(now, budget, s) then
          var rest := Swept(c, now, budget - |s.bytes|, queue[1..]);
          rest.(delivered := [s] + rest.delivered)
        else
          var rest := Swept(c, now, budget, queue[1..]);
          rest.(kept := [s] + rest.kept)
  {
    hide TooOld;
  }

  lemma {:induction false} SweepSplits(c: Config, now: u32, budget: nat, queue: seq<Scheduled>)
    ensures Conserving(queue, Swept(c, now, budget, queue), budget)
    ensures Selecting(c, now, queue, Swept(c, now, budget, queue))
    decreases |queue|
  {
    if queue == [] {
      NoBytes();
    } else {
      hide Conserving, Selecting, TooOld, Ready, Swept;
      var s, rest := queue[0], queue[1..];
      assert queue == [s] + rest;
      SweptFirst(c, now, budget, queue);
      ReadyFits(now, budget, s);
      if TooOld(c, now, s) {
        SweepSplits(c, now, budget, rest);
        Ages(c, now, budget, s, rest, Swept(c, now, budget, rest));
      } else if Ready(now, budget, s) {
        SweepSplits(c, now, budget - |s.bytes|, rest);
        Leaves(c, now, budget, s, rest, Swept(c, now, budget - |s.bytes|, rest));
      } else {
        SweepSplits(c, now, budget, rest);
        Stays(c, now, budget, s, rest, Swept(c, now, budget, rest));
      }
    }
  }

  lemma ReadyFits(now: u32, budget: nat, s: Scheduled)
    ensures Ready(now, budget, s) ==> s.scheduledFor <= now && |s.bytes| <= budget
  {
  }

  /** A sweep loses nothing and spends no more than its budget. */
  lemma SweepConserves(c: Config, now: u32, budget: nat, queue: seq<Scheduled>)
    ensures var r := Swept(c, now, budget, queue);
      && |r.kept| + |r.delivered| + |r.aged| == |queue|
      && TotalBytes(r.kept) + TotalBytes(r.delivered) + TotalBytes(r.aged) == TotalBytes(queue)
      && TotalBytes(r.delivered) <= budget
  {
    hide TotalBytes, Swept;
    SweepSplits(c, now, budget, queue);
  }

  /** Nothing is delivered early or over age; only what is over age is dropped. */
  lemma SweepSelects(c: Config, now: u32, budget: nat, queue: seq<Scheduled>)
    ensures var r := Swept(c, now, budget, queue);
      && (forall s :: s in queue <==> s in r.kept || s in r.delivered || s in r.aged)
      && (forall s :: s in r.delivered ==> s.scheduledFor <= now && !TooOld(c, now, s))
      && (forall s :: s in r.aged ==> TooOld(c, now, s))
      && (forall s :: s in r.kept ==> !TooOld(c, now, s))
  {
    hide TotalBytes, Swept, TooOld;
    SweepSplits(c, now, budget, queue);
  }

  /** Deliveries and leftovers keep the queue's order; no packet is both delivered and kept. */
  lemma {:induction false} SweepKeepsOrder(c: Config, now: u32, budget: nat, queue: seq<Scheduled>)
    requires InOrder(queue) && DistinctOrdinals(queue)
    ensures var r := Swept(c, now, budget, queue);
      && InOrder(r.delivered) && InOrder(r.kept) && DistinctOrdinals(r.kept) && DistinctOrdinals(r.delivered)
      && (forall s, t :: s in r.delivered && t in r.kept ==> s.ordinal != t.ordinal)
    decreases |queue|
  {
    if queue != [] {
      hide TotalBytes, TooOld, Precedes;
      var s := queue[0];
      var budget' := if !TooOld(c, now, s) && Ready(now, budget, s) then budget - |s.bytes| else budget;
      var rest := Swept(c, now, budget', queue[1..]);
      SweepKeepsOrder(c, now, budget', queue[1..]);
      SweepSelects(c, now, budget', queue[1..]);
      forall q | q in queue[1..] ensures Precedes(s, q) && s.ordinal != q.ordinal {
        var i :| 0 <= i < |queue[1..]| && queue[1..][i] == q;
        assert queue[i + 1] == q;
      }
      ConsInOrder(s, rest.delivered);
      ConsInOrder(s, rest.kept);
      Cons(s, rest.delivered);
      Cons(s, rest.kept);
    }
  }

  /** With enough bandwidth and nothing over age, exactly the due packets are delivered. */
  lemma {:induction false} AmpleSweepIsExact(c: Config, now: u32, budget: nat, queue: seq<Scheduled>)
    requires TotalBytes(queue) <= budget && forall s :: s in queue ==> !TooOld(c, now, s)
    ensures var r := Swept(c, now, budget, queue);
      && r.aged == []
      && (forall s :: s in r.delivered <==> s in queue && s.scheduledFor <= now)
      && (forall s :: s in r.kept <==> s in queue && s.scheduledFor > now)
    decreases |queue|
  {
    if queue != [] {
      TotalOfFirst(queue);
      assert forall q :: q in queue <==> q == queue[0] || q in queue[1..];
      AmpleSweepIsExact(c, now, if Ready(now, budget, queue[0]) then budget - |queue[0].bytes| else budget, queue[1..]);
    }
  }

  /** Tick first, then rank, then ordinal. */
  predicate Sooner(a: Scheduled, b: Scheduled) {
    || a.scheduledFor < b.scheduledFor
    || (a.scheduledFor == b.scheduledFor && (a.rank < b.rank || (a.rank == b.rank && a.ordinal < b.ordinal)))
  }

  /** A due packet stays behind only when what left sooner used up the bandwidth it needed. */
  ghost predicate CrowdedOut(delivered: seq<Scheduled>, s: Scheduled, budget: nat) {
    exists n ::
      0 <= n <= |delivered| && TotalBytes(delivered[..n]) + |s.bytes| > budget
      && (forall i :: 0 <= i < n ==> Sooner(delivered[i], s))
      && (forall i :: n <= i < |delivered| ==> Sooner(s, delivered[i]))
  }

  ghost predicate FairlySwept(c: Config, now: u32, budget: nat, r: Sweep) {
    && (forall i, j :: 0 <= i < j < |r.delivered| ==> Sooner(r.delivered[i], r.delivered[j]))
    && (forall s :: s in r.delivered ==> s.scheduledFor <= now && (now - s.enqueuedAt) % U32 <= c.maxAge)
    && (forall s :: s in r.aged ==> (now - s.enqueuedAt) % U32 > c.maxAge)
    && (forall s :: s in r.kept ==> (now - s.enqueuedAt) % U32 <= c.maxAge)
    && (forall s :: s in r.kept && s.scheduledFor <= now ==> CrowdedOut(r.delivered, s, budget))
  }

  lemma CrowdedByOneMore(first: Scheduled, delivered: seq<Scheduled>, s: Scheduled, budget: nat)
    requires |first.bytes| <= budget && CrowdedOut(delivered, s, budget - |first.bytes|) && Sooner(first, s)
    ensures CrowdedOut([first] + delivered, s, budget)
  {
    hide TotalBytes, Sooner;
    var n :| 0 <= n <= |delivered| && TotalBytes(delivered[..n]) + |s.bytes| > budget - |first.bytes|
      && (forall i :: 0 <= i < n ==> Sooner(delivered[i], s))
      && (forall i :: n <= i < |delivered| ==> Sooner(s, delivered[i]));
    var all := [first] + delivered;
    assert all[..n + 1] == [first] + delivered[..n];
    Cons(first, delivered[..n]);
    assert TotalBytes(all[..n + 1]) + |s.bytes| > budget;
  }

  lemma NothingFits(delivered: seq<Scheduled>, s: Scheduled, budget: nat)
    requires |s.bytes| > budget && forall i :: 0 <= i < |delivered| ==> Sooner(s, delivered[i])
    ensures CrowdedOut(delivered, s, budget)
  {
    NoBytes();
    assert delivered[..0] == [];
    assert TotalBytes(delivered[..0]) + |s.bytes| > budget;
  }

  /** The sweep takes due packets soonest first, drops exactly what is over age, and leaves room to no due packet. */
  lemma {:induction false} SweepIsFair(c: Config, now: u32, budget: nat, queue: seq<Scheduled>)
    requires InOrder(queue) && DistinctOrdinals(queue)
    ensures FairlySwept(c, now, budget, Swept(c, now, budget, queue))
    decreases |queue|
  {
    hide TotalBytes;
    if queue != [] {
      var s, rest := queue[0], queue[1..];
      forall q | q in rest ensures Sooner(s, q) {
        var i :| 0 <= i < |rest| && rest[i] == q;
        assert Precedes(queue[0], queue[i + 1]);
      }
      if TooOld(c, now, s) {
        SweepIsFair(c, now, budget, rest);
      } else if Ready(now, budget, s) {
        SweepIsFair(c, now, budget - |s.bytes|, rest);
        FairDelivery(c, now, budget, s, rest);
      } else {
        SweepIsFair(c, now, budget, rest);
        FairKeeping(c, now, budget, s, rest);
      }
    }
  }

  lemma FairDelivery(c: Config, now: u32, budget: nat, s: Scheduled, rest: seq<Scheduled>)
    requires Ready(now, budget, s) && !TooOld(c, now, s) && forall q :: q in rest ==> Sooner(s, q)
    requires FairlySwept(c, now, budget - |s.bytes|, Swept(c, now, budget - |s.bytes|, rest))
    ensures var r := Swept(c, now, budget - |s.bytes|, rest);
      FairlySwept(c, now, budget, r.(delivered := [s] + r.delivered))
  {
    hide TotalBytes, Swept, Sooner, CrowdedOut;
    var r := Swept(c, now, budget - |s.bytes|, rest);
    SweepSelects(c, now, budget - |s.bytes|, rest);
    var all := [s] + r.delivered;
    forall i, j | 0 <= i < j < |all| ensures Sooner(all[i], all[j]) {
      assert all[j] == r.delivered[j - 1] && r.delivered[j - 1] in r.delivered;
    }
    forall q | q in r.kept && q.scheduledFor <= now ensures CrowdedOut(all, q, budget) {
      CrowdedByOneMore(s, r.delivered, q, budget);
    }
  }

  lemma FairKeeping(c: Config, now: u32, budget: nat, s: Scheduled, rest: seq<Scheduled>)
    requires !Ready(now, budget, s) && !TooOld(c, now, s) && forall q :: q in rest ==> Sooner(s, q)
    requires FairlySwept(c, now, budget, Swept(c, now, budget, rest))
    ensures var r := Swept(c, now, budget, rest); FairlySwept(c, now, budget, r.(kept := [s] + r.kept))
  {
    hide TotalBytes, Swept, Sooner, CrowdedOut;
    var r := Swept(c, now, budget, rest);
    SweepSelects(c, now, budget, rest);
    if s.scheduledFor <= now {
      NothingFits(r.delivered, s, budget);
    }
  }

  // ---- Draws: what the random source handed out, in order ----

  /** A chance takes one draw below 100 and compares it with the percentage; an impossible chance takes none. */
  ghost predicate Hit(percent: u32, draws: seq<u32>, i: nat) { percent != 0 && i < |draws| && draws[i] < percent }

  function Cost(percent: u32): nat { if percent == 0 then 0 else 1 }

  /** A packet is lost while a burst lasts, when one starts, or on its own. */
  ghost predicate IsLost(c: Config, burst: nat, draws: seq<u32>, i: nat) {
    burst > 0 || Hit(c.burstLossPercent, draws, i) || Hit(c.lossPercent, draws, i + Cost(c.burstLossPercent))
  }

  /** The draws that decide a loss; a burst that starts draws its length too. */
  ghost function LossDraws(c: Config, burst: nat, draws: seq<u32>, i: nat): nat {
    if burst > 0 then 0
    else if Hit(c.burstLossPercent, draws, i) then 2
    else Cost(c.burstLossPercent) + Cost(c.lossPercent)
  }

  /** How many packets in a row are still to be lost afterwards. */
  ghost predicate BurstGoesOn(c: Config, burst: nat, draws: seq<u32>, i: nat, after: nat) {
    if burst > 0 then after == burst - 1
    else if Hit(c.burstLossPercent, draws, i) then i + 1 < |draws| && draws[i + 1] < 3 && after == 1 + draws[i + 1]
    else after == 0
  }

  function JitterDraws(c: Config): nat { if c.jitter > 0 then 1 else 0 }

  function Jitter(c: Config, draws: seq<u32>, i: nat): int {
    if c.jitter == 0 || i >= |draws| then 0 else draws[i] % (2 * c.jitter + 1) - c.jitter
  }

  /** The rank of a copy whose draws start at `i`: positive exactly when its reorder chance hits. */
  ghost predicate RankedBy(c: Config, draws: seq<u32>, i: nat, rank: nat) {
    if Hit(c.reorderPercent, draws, i + JitterDraws(c)) then
      i + JitterDraws(c) + 1 < |draws| && rank - 1 == draws[i + JitterDraws(c) + 1]
    else
      rank == 0
  }

  /** Base latency plus a draw within the jitter, never negative, plus the rank; the last tick is the ceiling. */
  ghost predicate DelayedBy(c: Config, now: u32, draws: seq<u32>, i: nat, s: Scheduled) {
    && RankedBy(c, draws, i, s.rank) && (c.jitter > 0 ==> i < |draws|)
    && var jittered := c.baseLatency + Jitter(c, draws, i);
       var delay := (if jittered < 0 then 0 else jittered) + s.rank;
       s.scheduledFor == if now + delay < U32 - 1 then now + delay else U32 - 1
  }

  /**
   * What the draws do to one copy: the least is `jitter` ticks early but never before now, each greater one a tick
   * later up to `jitter` ticks late, and a hit of the reorder chance adds one tick and a further draw.
   */
  lemma JitterSpansTheDraws(c: Config, now: u32, draws: seq<u32>, i: nat, s: Scheduled)
    requires DelayedBy(c, now, draws, i, s)
    requires now + LongestDelay(c) + s.rank < U32 - 1
    ensures c.jitter == 0 ==> s.scheduledFor == now + c.baseLatency + s.rank
    ensures c.jitter > 0 && draws[i] <= 2 * c.jitter ==>
        s.scheduledFor - s.rank - now
          == if c.baseLatency + draws[i] >= c.jitter then c.baseLatency + draws[i] - c.jitter else 0
    ensures var at := i + (if c.jitter > 0 then 1 else 0);
      if 0 < c.reorderPercent && at < |draws| && draws[at] < c.reorderPercent then
        at + 1 < |draws| && s.rank == 1 + draws[at + 1]
      else
        s.rank == 0
  {
    hide Jitter;
    JitterByDraw(c, draws, i);
  }

  /** A draw counts from `jitter` ticks early on, and the count starts over every 2 * jitter + 1 draws. */
  lemma JitterByDraw(c: Config, draws: seq<u32>, i: nat)
    ensures c.jitter == 0 ==> Jitter(c, draws, i) == 0
    ensures c.jitter > 0 && i < |draws| && draws[i] <= 2 * c.jitter ==> Jitter(c, draws, i) == draws[i] - c.jitter
    ensures c.jitter > 0 && i < |draws| ==>
        Jitter(c, draws, i) + c.jitter + draws[i] / (2 * c.jitter + 1) * (2 * c.jitter + 1) == draws[i]
  {
    if c.jitter > 0 && i < |draws| {
      var width := 2 * c.jitter + 1;
      assert draws[i] == draws[i] / width * width + draws[i] % width;
      if draws[i] < width {
        DivisionIsUnique(draws[i], width, 0, draws[i]);
      }
    }
  }

  ghost function CopyDraws(c: Config, draws: seq<u32>, i: nat): nat {
    JitterDraws(c) + Cost(c.reorderPercent) + if Hit(c.reorderPercent, draws, i + JitterDraws(c)) then 1 else 0
  }

  /** How many copies a packet that is not lost makes: two exactly when its duplicate chance hits. */
  ghost function Doubled(c: Config, draws: seq<u32>, i: nat): nat { if Hit(c.duplicatePercent, draws, i) then 2 else 1 }

  /** The draws of `count` copies, one copy after the other. */
  ghost function CopiesDraws(c: Config, draws: seq<u32>, i: nat, count: nat): nat
    decreases count
  {
    if count == 0 then 0 else CopyDraws(c, draws, i) + CopiesDraws(c, draws, i + CopyDraws(c, draws, i), count - 1)
  }

  /** The last `count` of the queue were delayed by the draws from `i` on, one copy after the other. */
  ghost predicate CopiesDelayed(c: Config, now: u32, draws: seq<u32>, i: nat, queue: seq<Scheduled>, count: nat)
    requires count <= |queue|
  {
    && (count > 0 ==> DelayedBy(c, now, draws, i, queue[|queue| - count]))
    && (count == 2 ==> DelayedBy(c, now, draws, i + CopyDraws(c, draws, i), queue[|queue| - 1]))
  }

  /** Later draws change nothing about what earlier ones decided. */
  lemma LossStays(c: Config, burst: nat, draws: seq<u32>, later: seq<u32>, i: nat, after: nat)
    requires draws <= later && |draws| == i + LossDraws(c, burst, draws, i)
    ensures LossDraws(c, burst, later, i) == LossDraws(c, burst, draws, i)
    ensures IsLost(c, burst, later, i) <==> IsLost(c, burst, draws, i)
    ensures BurstGoesOn(c, burst, draws, i, after) ==> BurstGoesOn(c, burst, later, i, after)
  {
  }

  lemma CopyStays(c: Config, now: u32, draws: seq<u32>, later: seq<u32>, i: nat, s: Scheduled)
    requires draws <= later && |draws| == i + CopyDraws(c, draws, i)
    ensures CopyDraws(c, later, i) == CopyDraws(c, draws, i)
    ensures DelayedBy(c, now, draws, i, s) ==> DelayedBy(c, now, later, i, s)
  {
  }

  lemma CopiesTakeTurns(c: Config, draws: seq<u32>, i: nat)
    ensures CopiesDraws(c, draws, i, 1) == CopyDraws(c, draws, i)
    ensures CopiesDraws(c, draws, i, 2)
         == CopyDraws(c, draws, i) + CopyDraws(c, draws, i + CopyDraws(c, draws, i))
  {
    hide CopyDraws;
    assert CopiesDraws(c, draws, i + CopyDraws(c, draws, i), 1) == CopyDraws(c, draws, i + CopyDraws(c, draws, i));
  }

  lemma JitterStays(c: Config, draws: seq<u32>, later: seq<u32>, i: nat)
    requires draws <= later && |draws| == i + JitterDraws(c)
    ensures Jitter(c, later, i) == Jitter(c, draws, i)
  {
  }

  lemma HitStays(percent: u32, draws: seq<u32>, later: seq<u32>, i: nat)
    requires draws <= later && |draws| == i + Cost(percent)
    ensures Hit(percent, later, i) <==> Hit(percent, draws, i)
  {
  }

  /** What a refusal means: the copies do not fit the queue, or, when old packets make way, not even an empty one. */
  predicate Refused(c: Config, queue: seq<Scheduled>, count: nat, size: nat) {
    Exceeds(c, if c.policy.DropOldest? then [] else queue, count, CopiesSize(size, count))
  }

  /** In plain numbers: copies of a packet are refused when they do not fit beside what may not be dropped for them. */
  lemma RefusalIsNoRoom(c: Config, queue: seq<Scheduled>, copies: nat, size: nat)
    requires 1 <= copies <= 2
    ensures Refused(c, queue, copies, size) <==>
        if c.policy.DropOldest? then copies > c.maxPackets || copies * size > c.maxBytes
        else |queue| + copies > c.maxPackets || TotalBytes(queue) + copies * size > c.maxBytes
  {
    assert TotalBytes([]) == 0;
  }

  // ---- The transport ----

  /**
   * What one accepted copy may look like: its delay is within the jitter of the base latency, plus its rank when it was
   * reordered, so it stays within base - jitter .. base + 2 * jitter + 2. None is reordered at 0 percent, all at 100.
   */
  ghost predicate CopyOf(c: Config, s: Scheduled, from: Endpoint, to: Endpoint, bytes: seq<u8>, now: u32, ordinal: nat,
      duplicate: bool) {
    && s.from == from && s.to == to && s.bytes == bytes && s.enqueuedAt == now && s.ordinal == ordinal
    && s.duplicate == duplicate
    && now <= s.scheduledFor
    && (now + c.baseLatency + s.rank <= s.scheduledFor + c.jitter || s.scheduledFor == U32 - 1)
    && s.scheduledFor <= now + c.baseLatency + c.jitter + s.rank <= now + LongestDelay(c)
    && (c.reorderPercent == 0 ==> s.rank == 0) && (c.reorderPercent >= 100 ==> s.rank > 0)
  }

  /** How many of these packets were reordered. */
  function Reorders(queue: seq<Scheduled>): nat {
    if queue == [] then 0 else (if queue[0].rank > 0 then 1 else 0) + Reorders(queue[1..])
  }

  /** The queue after a send: what the eviction leaves of the old one, then one copy of the packet or two. */
  ghost predicate Extended(c: Config, before: seq<Scheduled>, after: seq<Scheduled>, ordinal: nat, from: Endpoint,
      to: Endpoint, bytes: seq<u8>, now: u32, copies: nat) {
    && 1 <= copies <= 2 && copies <= |after|
    && after[..|after| - copies] == Evicted(c, before, copies, CopiesSize(|bytes|, copies))
    && (c.policy.Fail? ==> !Exceeds(c, before, copies, CopiesSize(|bytes|, copies)))
    && CopyOf(c, after[|after| - copies], from, to, bytes, now, ordinal, false)
    && (copies == 2 ==> CopyOf(c, after[|after| - 1], from, to, bytes, now, ordinal + 1, true))
  }

  /** Nothing is evicted when two more copies fit, or ever under the failing policy. */
  lemma ExtendedKeeps(c: Config, before: seq<Scheduled>, after: seq<Scheduled>, ordinal: nat, from: Endpoint,
      to: Endpoint, bytes: seq<u8>, now: u32, copies: nat)
    requires Extended(c, before, after, ordinal, from, to, bytes, now, copies) && DistinctOrdinals(before)
    ensures forall s :: s in after[..|after| - copies] ==> s in before
    ensures c.policy.Fail? || !Exceeds(c, before, 2, 2 * |bytes|) ==> after[..|after| - copies] == before
  {
    hide Exceeds, CopyOf, DistinctOrdinals, CopiesSize;
    EvictionSelects(c, before, copies, CopiesSize(|bytes|, copies));
    FewerFit(c, before, copies, |bytes|);
    NothingToEvict(c, before, copies, CopiesSize(|bytes|, copies));
  }

  function LongestDelay(c: Config): nat { c.baseLatency + 2 * c.jitter + 2 }

  predicate PercentsAreValid(c: Config) {
    c.lossPercent <= 100 && c.reorderPercent <= 100 && c.duplicatePercent <= 100 && c.burstLossPercent <= 100
  }

  class SeededTransport {
    const config: Config
    var queue: seq<Scheduled>
    var queuedBytes: nat
    var nextOrdinal: nat
    var burstRemaining: nat
    var metrics: Metrics
    /** Sends that returned an error, and the ordinals of everything delivered so far. */
    ghost var failedSends: nat
    ghost var deliveredOrdinals: set<nat>
    /** Everything the random source has handed out. */
    ghost var draws: seq<u32>

    ghost predicate Conserves()
      reads this
    {
      metrics.sent + metrics.duplicated
        == metrics.delivered + metrics.droppedLoss + metrics.droppedOverflow + metrics.droppedAge + |queue|
           + failedSends
    }

    ghost predicate OrdinalsAreUnique()
      reads this`queue, this`nextOrdinal, this`deliveredOrdinals
    {
      && DistinctOrdinals(queue)
      && (forall s :: s in queue ==> s.ordinal < nextOrdinal && s.ordinal !in deliveredOrdinals)
      && (forall n :: n in deliveredOrdinals ==> n < nextOrdinal)
    }

    ghost predicate Valid()
      reads this
    {
      && queuedBytes == TotalBytes(queue)
      && |queue| <= config.maxPackets && queuedBytes <= config.maxBytes
      && (forall s :: s in queue ==> |s.bytes| <= MAX_PACKET_BYTES)
      && Conserves() && OrdinalsAreUnique()
    }

    constructor (c: Config)
      ensures Valid() && config == c && queue == [] && nextOrdinal == 0 && burstRemaining == 0
      ensures metrics == Metrics(0, 0, 0, 0, 0, 0, 0) && failedSends == 0 && deliveredOrdinals == {} && draws == []
    {
      config := c;
      queue, queuedBytes, nextOrdinal, burstRemaining := [], 0, 0, 0;
      metrics := Metrics(0, 0, 0, 0, 0, 0, 0);
      failedSends, deliveredOrdinals, draws := 0, {}, [];
    }

    // The random source: an arbitrary stream.

    method NextU32() returns (r: u32)
      modifies this`draws
      ensures draws == old(draws) + [r]
    {
      r := *;
      draws := draws + [r];
    }

    method Bounded(bound: u32) returns (r: u32)
      modifies this`draws
      ensures if bound == 0 then r == 0 && draws == old(draws) else r < bound && draws == old(draws) + [r]
    {
      if bound == 0 {
        return 0;
      }
      r :| 0 <= r < bound;
      draws := draws + [r];
    }

    method Chance(percent: u32) returns (r: bool)
      modifies this`draws
      ensures old(draws) <= draws && |draws| == |old(draws)| + Cost(percent)
      ensures r <==> Hit(percent, draws, |old(draws)|)
      ensures (percent == 0 ==> !r) && (percent >= 100 ==> r)
    {
      if percent == 0 {
        return false;
      }
      var draw := Bounded(100);
      return draw < percent;
    }

    /** Fails without a change, or evicts the oldest packets until the new ones fit. */
    method EnsureCapacity(packets: nat, bytes: nat) returns (r: Result<()>)
      requires Valid()
      modifies this`queue, this`queuedBytes, this`metrics
      ensures Valid()
      ensures r.Ok? <==> !Exceeds(config, queue, packets, bytes)
      ensures r.Ok? <==> |queue| + packets <= config.maxPackets && queuedBytes + bytes <= config.maxBytes
      ensures !Exceeds(config, old(queue), packets, bytes) ==> queue == old(queue) && metrics == old(metrics)
      ensures Exceeds(config, old(queue), packets, bytes) && config.policy.Fail? ==>
          r == Err(QueueOverflow) && queue == old(queue) && metrics == old(metrics)
      ensures Exceeds(config, old(queue), packets, bytes) && config.policy.DropOldest? ==>
          && queue == Evicted(config, old(queue), packets, bytes)
          && metrics == old(metrics).(droppedOverflow := old(metrics).droppedOverflow + |old(queue)| - |queue|)
      ensures r.Err? ==> r == Err(QueueOverflow)
      ensures forall s :: s in queue ==> s in old(queue)
    {
      EvictionSelects(config, queue, packets, bytes);
      if !(|queue| + packets > config.maxPackets || queuedBytes + bytes > config.maxBytes) {
        return Ok(());
      }
      if config.policy.Fail? {
        return Err(QueueOverflow);
      }
      while (|queue| + packets > config.maxPackets || queuedBytes + bytes > config.maxBytes) && queue != []
        invariant Valid() && |queue| <= |old(queue)|
        invariant Evicted(config, queue, packets, bytes) == Evicted(config, old(queue), packets, bytes)
        invariant metrics == old(metrics).(droppedOverflow := old(metrics).droppedOverflow + |old(queue)| - |queue|)
        decreases |queue|
      {
        DropOldest();
      }
      if |queue| + packets > config.maxPackets || queuedBytes + bytes > config.maxBytes {
        return Err(QueueOverflow);
      }
      return Ok(());
    }

    method DropOldest()
      requires Valid() && queue != []
      modifies this`queue, this`queuedBytes, this`metrics
      ensures Valid() && queue == WithoutOldest(old(queue))
      ensures metrics == old(metrics).(droppedOverflow := old(metrics).droppedOverflow + 1)
    {
      hide TotalBytes;
      WithoutOldestKeepsYoungest(queue);
      var oldest := OldestIndex(queue);
      TotalWithout(queue, oldest);
      queuedBytes := queuedBytes - |queue[oldest].bytes|;
      queue := queue[..oldest] + queue[oldest + 1..];
      metrics := metrics.(droppedOverflow := metrics.droppedOverflow + 1);
    }

    /** Draw the delay of one copy. */
    method DrawSchedule(now: u32) returns (scheduledFor: u32, rank: u32)
      modifies this`metrics, this`draws
      ensures now <= scheduledFor <= now + config.baseLatency + config.jitter + rank <= now + LongestDelay(config)
      ensures now + config.baseLatency + rank <= scheduledFor + config.jitter || scheduledFor == U32 - 1
      ensures metrics == old(metrics).(reordered := old(metrics).reordered + if rank > 0 then 1 else 0)
      ensures (config.reorderPercent == 0 ==> rank == 0) && (config.reorderPercent >= 100 ==> rank > 0)
      ensures old(draws) <= draws && |draws| == |old(draws)| + CopyDraws(config, draws, |old(draws)|)
      ensures forall s: Scheduled :: s.rank == rank && s.scheduledFor == scheduledFor ==>
          DelayedBy(config, now, draws, |old(draws)|, s)
    {
      hide Jitter;
      var delay := DrawJitter();
      ghost var drawn := draws;
      delay := if delay < 0 then 0 else delay;
      rank := 0;
      var reorders := Chance(config.reorderPercent);
      if reorders {
        var wrapped := (config.jitter + 2) % U32;
        var draw := Bounded(if wrapped < 2 then 2 else wrapped);
        rank := 1 + draw;
        delay := delay + rank;
        metrics := metrics.(reordered := metrics.reordered + 1);
      }
      JitterStays(config, drawn, draws, |old(draws)|);
      var scheduled := now + delay;
      scheduledFor := if scheduled < U32 - 1 then scheduled else U32 - 1;
    }

    method DrawJitter() returns (delay: int)
      modifies this`draws
      ensures config.baseLatency - config.jitter <= delay <= config.baseLatency + config.jitter
      ensures old(draws) <= draws && |draws| == |old(draws)| + JitterDraws(config)
      ensures delay == config.baseLatency + Jitter(config, draws, |old(draws)|)
    {
      delay := config.baseLatency;
      if config.jitter > 0 {
        var width := config.jitter * 2 + 1;
        var next := NextU32();
        delay := delay + next % width - config.jitter;
      }
    }

    method Enqueue(from: Endpoint, to: Endpoint, bytes: seq<u8>, now: u32, duplicate: bool)
      requires queuedBytes == TotalBytes(queue) && OrdinalsAreUnique()
      modifies this`queue, this`queuedBytes, this`nextOrdinal, this`metrics, this`draws
      ensures queuedBytes == TotalBytes(queue) == old(queuedBytes) + |bytes| && OrdinalsAreUnique()
      ensures |queue| == |old(queue)| + 1 && queue[..|old(queue)|] == old(queue)
      ensures CopyOf(config, queue[|old(queue)|], from, to, bytes, now, old(nextOrdinal), duplicate)
      ensures forall s :: s in queue ==> s in old(queue) || s.bytes == bytes
      ensures nextOrdinal == old(nextOrdinal) + 1
      ensures metrics == old(metrics).(reordered := old(metrics).reordered + Reorders(queue[|old(queue)|..]))
      ensures old(draws) <= draws && |draws| == |old(draws)| + CopyDraws(config, draws, |old(draws)|)
      ensures DelayedBy(config, now, draws, |old(draws)|, queue[|old(queue)|])
    {
      hide TotalBytes, DistinctOrdinals, Reorders, DelayedBy, CopyDraws;
      var scheduledFor, rank := DrawSchedule(now);
      var s := Scheduled(from, to, bytes, now, scheduledFor, rank, nextOrdinal, duplicate);
      OneMoreQueued(queue, s);
      queue := queue + [s];
      nextOrdinal := nextOrdinal + 1;
      queuedBytes := queuedBytes + |bytes|;
    }

    method LoseIt() returns (lost: bool)
      modifies this`burstRemaining, this`draws
      ensures old(Valid()) ==> Valid()
      ensures old(draws) <= draws
        && |draws| == |old(draws)| + LossDraws(config, old(burstRemaining), draws, |old(draws)|)
      ensures lost <==> IsLost(config, old(burstRemaining), draws, |old(draws)|)
      ensures BurstGoesOn(config, old(burstRemaining), draws, |old(draws)|, burstRemaining)
      ensures config.lossPercent >= 100 || old(burstRemaining) > 0 ==> lost
      ensures old(burstRemaining) == 0 ==> burstRemaining <= 3
      ensures old(burstRemaining) == 0 && config.burstLossPercent >= 100 ==> burstRemaining >= 1
      ensures config.lossPercent == 0 && config.burstLossPercent == 0 && old(burstRemaining) == 0 ==>
          !lost && burstRemaining == 0
    {
      if burstRemaining > 0 {
        burstRemaining := burstRemaining - 1;
        return true;
      }
      var burst := Chance(config.burstLossPercent);
      if burst {
        var extra := Bounded(3);
        burstRemaining := 1 + extra;
        return true;
      }
      lost := Chance(config.lossPercent);
    }

    /**
     * Every packet sent ends up counted once: refused, lost, or queued in one or two copies. When copies are queued,
     * what stays of the old queue is what `Evicted` leaves, and everything else of it counts as an overflow drop.
     */
    method Send(from: Endpoint, to: Endpoint, bytes: seq<u8>, now: u32) returns (r: Result<()>, ghost copies: nat)
      requires Valid()
      modifies this
      ensures Valid()
      ensures metrics.sent == old(metrics.sent) + 1 && deliveredOrdinals == old(deliveredOrdinals)
      ensures failedSends == old(failedSends) + if r.Err? then 1 else 0
      ensures metrics.delivered == old(metrics.delivered) && metrics.droppedAge == old(metrics.droppedAge)
      ensures metrics.duplicated == old(metrics.duplicated) + if copies == 2 then 1 else 0
      ensures metrics.droppedLoss == old(metrics.droppedLoss) + if r.Ok? && copies == 0 then 1 else 0
      ensures metrics.droppedOverflow == old(metrics.droppedOverflow) + |old(queue)| + copies - |queue|
      ensures nextOrdinal == old(nextOrdinal) + copies && copies <= 2 && |queue| >= copies
      ensures metrics.reordered == old(metrics.reordered) + Reorders(queue[|queue| - copies..])
      ensures |bytes| > MAX_PACKET_BYTES ==> r == Err(InvalidLength)
      ensures |bytes| <= MAX_PACKET_BYTES && !PercentsAreValid(config) ==> r == Err(InvalidArgument)
      ensures |bytes| <= MAX_PACKET_BYTES && PercentsAreValid(config) && r.Err? ==>
          r == Err(QueueOverflow) && Exceeds(config, queue, 2, 2 * |bytes|)
      ensures r.Err? ==>
          copies == 0 && queue == if r == Err(QueueOverflow) && config.policy.DropOldest? then [] else old(queue)
      ensures r.Ok? && copies == 0 ==> queue == old(queue)
      ensures copies > 0 ==> Extended(config, old(queue), queue, old(nextOrdinal), from, to, bytes, now, copies)
      ensures |bytes| > MAX_PACKET_BYTES || !PercentsAreValid(config) ==>
          burstRemaining == old(burstRemaining) && draws == old(draws)
      ensures old(draws) <= draws
      ensures |bytes| <= MAX_PACKET_BYTES && PercentsAreValid(config) ==>
          var i, burst := |old(draws)|, old(burstRemaining);
          && (r.Ok? && copies == 0 <==> IsLost(config, burst, draws, i))
          && BurstGoesOn(config, burst, draws, i, burstRemaining)
          && var d := i + LossDraws(config, burst, draws, i);
             && (IsLost(config, burst, draws, i) ==> |draws| == d)
             && (!IsLost(config, burst, draws, i) ==>
                   && (r.Err? <==> Refused(config, old(queue), Doubled(config, draws, d), |bytes|))
                   && (r.Ok? ==> copies == Doubled(config, draws, d))
                   && CopiesDelayed(config, now, draws, d + Cost(config.duplicatePercent), queue, copies)
                   && |draws| == d + Cost(config.duplicatePercent)
                                 + CopiesDraws(config, draws, d + Cost(config.duplicatePercent), copies))
      ensures old(burstRemaining) == 0 ==> burstRemaining <= 3
      ensures old(burstRemaining) == 0 && config.burstLossPercent == 100 && PercentsAreValid(config)
              && |bytes| <= MAX_PACKET_BYTES ==>
          burstRemaining >= 1
      ensures config.duplicatePercent == 0 ==> copies <= 1
      ensures config.duplicatePercent == 100 ==> copies != 1
      ensures PercentsAreValid(config) && |bytes| <= MAX_PACKET_BYTES
              && (config.lossPercent == 100 || old(burstRemaining) > 0) ==>
          r.Ok? && copies == 0
      ensures PercentsAreValid(config) && |bytes| <= MAX_PACKET_BYTES
              && config.lossPercent == 0 && config.burstLossPercent == 0 && old(burstRemaining) == 0
              && !Exceeds(config, old(queue), 2, 2 * |bytes|) ==>
          r.Ok? && copies > 0 && burstRemaining == 0
    {
      hide Exceeds, Extended, Reorders, SeededTransport.Valid, CopiesSize, IsLost, LossDraws, BurstGoesOn, Refused,
           Doubled, CopiesDelayed, CopiesDraws, Cost;
      copies := 0;
      CountSend();
      assert queue[..|queue|] == queue && queue[|queue|..] == [];
      NothingReorders();
      if |bytes| > MAX_PACKET_BYTES {
        return Err(InvalidLength), 0;
      }
      if config.lossPercent > 100 || config.reorderPercent > 100 || config.duplicatePercent > 100
        || config.burstLossPercent > 100 {
        return Err(InvalidArgument), 0;
      }
      ghost var i, burst := |draws|, burstRemaining;
      var lost := LoseIt();
      ghost var drawn := draws;
      if lost {
        CountLoss();
        return Ok(()), 0;
      }
      r, copies := QueueCopies(from, to, bytes, now);
      LossStays(config, burst, drawn, draws, i, burstRemaining);
    }

    /** Until its fate is known, a packet counts as refused. */
    method CountSend()
      requires Valid()
      modifies this`metrics, this`failedSends
      ensures Valid() && metrics == old(metrics).(sent := old(metrics).sent + 1)
        && failedSends == old(failedSends) + 1
    {
      hide TotalBytes, SeededTransport.OrdinalsAreUnique;
      metrics := metrics.(sent := metrics.sent + 1);
      failedSends := failedSends + 1;
    }

    method CountLoss()
      requires Valid() && failedSends > 0
      modifies this`metrics, this`failedSends
      ensures Valid() && metrics == old(metrics).(droppedLoss := old(metrics).droppedLoss + 1)
        && failedSends == old(failedSends) - 1
    {
      hide TotalBytes, SeededTransport.OrdinalsAreUnique;
      metrics := metrics.(droppedLoss := metrics.droppedLoss + 1);
      failedSends := failedSends - 1;
    }

    /** The packet is not lost: make room for one copy or two and queue them. `failedSends` already counts a failure. */
    method QueueCopies(from: Endpoint, to: Endpoint, bytes: seq<u8>, now: u32)
      returns (r: Result<()>, ghost copies: nat)
      requires Valid() && |bytes| <= MAX_PACKET_BYTES && failedSends > 0
      modifies this`queue, this`queuedBytes, this`nextOrdinal, this`metrics, this`failedSends, this`draws
      ensures Valid()
      ensures old(draws) <= draws
      ensures |draws| == |old(draws)| + Cost(config.duplicatePercent)
                         + CopiesDraws(config, draws, |old(draws)| + Cost(config.duplicatePercent), copies)
      ensures r.Err? <==> Refused(config, old(queue), Doubled(config, draws, |old(draws)|), |bytes|)
      ensures r.Ok? ==> copies == Doubled(config, draws, |old(draws)|)
      ensures config.duplicatePercent == 0 ==> copies <= 1
      ensures config.duplicatePercent >= 100 ==> copies != 1
      ensures |queue| >= copies
        && CopiesDelayed(config, now, draws, |old(draws)| + Cost(config.duplicatePercent), queue, copies)
      ensures failedSends == old(failedSends) - if r.Err? then 0 else 1
      ensures metrics == old(metrics).(duplicated := old(metrics).duplicated + if copies == 2 then 1 else 0,
                                       droppedOverflow := metrics.droppedOverflow, reordered := metrics.reordered)
      ensures metrics.droppedOverflow == old(metrics.droppedOverflow) + |old(queue)| + copies - |queue|
      ensures nextOrdinal == old(nextOrdinal) + copies && copies <= 2 && |queue| >= copies
      ensures metrics.reordered == old(metrics.reordered) + Reorders(queue[|queue| - copies..])
      ensures r.Ok? <==> copies > 0
      ensures r.Err? ==> r == Err(QueueOverflow) && Exceeds(config, queue, 2, 2 * |bytes|)
      ensures r.Err? ==> queue == if config.policy.DropOldest? then [] else old(queue)
      ensures copies > 0 ==> Extended(config, old(queue), queue, old(nextOrdinal), from, to, bytes, now, copies)
      ensures !Exceeds(config, old(queue), 2, 2 * |bytes|) ==> r.Ok?
    {
      hide TotalBytes, Exceeds, CopyOf, DistinctOrdinals, Evicted, Reorders, CopiesSize, Refused,
           SeededTransport.OrdinalsAreUnique, CopiesDelayed, CopyDraws, CopiesDraws, Hit, Cost;
      var duplicate := Chance(config.duplicatePercent);
      ghost var drawn := draws;
      var count := if duplicate then 2 else 1;
      NothingReorders();
      assert queue[|queue|..] == [];
      var capacity := MakeRoom(count, |bytes|);
      assert queue[|queue|..] == [];
      if capacity.Err? {
        NoCopies(config, now, drawn, |drawn|, queue);
        return Err(capacity.error), 0;
      }
      copies := count;
      EnqueueCopies(from, to, bytes, now, count);
      HitStays(config.duplicatePercent, drawn, draws, |old(draws)|);
      assert queue[..|queue| - copies] == Evicted(config, old(queue), count, CopiesSize(|bytes|, count));
      if duplicate {
        metrics := metrics.(duplicated := metrics.duplicated + 1);
      }
      failedSends := failedSends - 1;
      r := Ok(());
    }

    /** Room for `count` copies, by eviction if the policy allows. */
    method MakeRoom(count: nat, size: nat) returns (r: Result<()>)
      requires Valid() && 1 <= count <= 2
      modifies this`queue, this`queuedBytes, this`metrics
      ensures Valid() && (r.Err? <==> Refused(config, old(queue), count, size))
      ensures r.Ok? ==> !Exceeds(config, queue, count, CopiesSize(size, count))
      ensures r.Ok? ==> queue == Evicted(config, old(queue), count, CopiesSize(size, count))
      ensures r.Ok? && config.policy.Fail? ==> !Exceeds(config, old(queue), count, CopiesSize(size, count))
      ensures r.Err? ==> r == Err(QueueOverflow) && Exceeds(config, queue, 2, 2 * size)
      ensures r.Err? ==> queue == if config.policy.DropOldest? then [] else old(queue)
      ensures metrics == old(metrics).(droppedOverflow := old(metrics).droppedOverflow + |old(queue)| - |queue|)
      ensures !Exceeds(config, old(queue), 2, 2 * size) ==> r.Ok?
    {
      hide TotalBytes, Exceeds, DistinctOrdinals, Evicted, CopiesSize, SeededTransport.Valid;
      FewerFit(config, queue, count, size);
      NothingToEvict(config, queue, count, CopiesSize(size, count));
      r := EnsureCapacity(count, CopiesSize(size, count));
      FewerFit(config, queue, count, size);
      NothingLeft(config, old(queue), count, CopiesSize(size, count));
      EmptyIsRoomiest(config, queue, count, CopiesSize(size, count));
    }

    method EnqueueCopies(from: Endpoint, to: Endpoint, bytes: seq<u8>, now: u32, count: nat)
      requires Valid() && 1 <= count <= 2 && |bytes| <= MAX_PACKET_BYTES
        && !Exceeds(config, queue, count, CopiesSize(|bytes|, count))
      modifies this`queue, this`queuedBytes, this`nextOrdinal, this`metrics, this`draws
      ensures queuedBytes == TotalBytes(queue) && OrdinalsAreUnique()
      ensures old(draws) <= draws && |draws| == |old(draws)| + CopiesDraws(config, draws, |old(draws)|, count)
      ensures |queue| >= count && CopiesDelayed(config, now, draws, |old(draws)|, queue, count)
      ensures |queue| <= config.maxPackets && queuedBytes <= config.maxBytes
      ensures forall s :: s in queue ==> |s.bytes| <= MAX_PACKET_BYTES
      ensures |queue| == |old(queue)| + count && queue[..|old(queue)|] == old(queue)
      ensures nextOrdinal == old(nextOrdinal) + count
      ensures metrics == old(metrics).(reordered := old(metrics).reordered + Reorders(queue[|old(queue)|..]))
      ensures CopyOf(config, queue[|old(queue)|], from, to, bytes, now, old(nextOrdinal), false)
      ensures count == 2 ==>
          CopyOf(config, queue[|old(queue)| + 1], from, to, bytes, now, old(nextOrdinal) + 1, true)
    {
      hide TotalBytes, CopyOf, CopiesSize, DelayedBy, CopyDraws, CopiesDraws;
      OneOrTwo(|bytes|);
      ghost var before, i := queue, |draws|;
      Enqueue(from, to, bytes, now, false);
      ghost var first, drawn := queue, draws;
      CopiesTakeTurns(config, draws, i);
      if count == 2 {
        Enqueue(from, to, bytes, now, true);
        CopyStays(config, now, drawn, draws, i, first[|before|]);
        CopiesTakeTurns(config, draws, i);
        assert queue[..|before|] == first[..|before|] && queue[|before|] == first[|before|];
        assert queue[|before|..][1..] == queue[|first|..];
      }
    }

    /** Everything due and in budget leaves in (tick, rank, ordinal) order; everything over age is dropped. */
    method Deliver(now: u32) returns (deliveries: seq<Scheduled>)
      requires Valid()
      modifies this
      ensures Valid()
      ensures var swept := Swept(config, now, config.bandwidth, Arranged(old(queue)));
        && deliveries == swept.delivered && queue == swept.kept
        && metrics == old(metrics).(delivered := old(metrics).delivered + |swept.delivered|,
                                    droppedAge := old(metrics).droppedAge + |swept.aged|)
      ensures nextOrdinal == old(nextOrdinal) && burstRemaining == old(burstRemaining)
        && failedSends == old(failedSends) && draws == old(draws)
      ensures FairlySwept(config, now, config.bandwidth, Swept(config, now, config.bandwidth, Arranged(old(queue))))
      ensures deliveredOrdinals == old(deliveredOrdinals) + set i | 0 <= i < |deliveries| :: deliveries[i].ordinal
      ensures forall s :: s in deliveries ==> s.ordinal !in old(deliveredOrdinals)
      ensures InOrder(deliveries) && DistinctOrdinals(deliveries) && TotalBytes(deliveries) <= config.bandwidth
    {
      hide TotalBytes, TooOld, Ready, Precedes, Swept, Arranged, FairlySwept;
      ghost var before := queue;
      ArrangedIsInOrder(queue);
      SweepConserves(config, now, config.bandwidth, Arranged(queue));
      SweepSelects(config, now, config.bandwidth, Arranged(queue));
      SweepKeepsOrder(config, now, config.bandwidth, Arranged(queue));
      SweepIsFair(config, now, config.bandwidth, Arranged(queue));
      queue := Arranged(queue);
      deliveries := SweepQueue(now);
      ghost var swept := Swept(config, now, config.bandwidth, Arranged(before));
      deliveredOrdinals := deliveredOrdinals + set i | 0 <= i < |deliveries| :: deliveries[i].ordinal;
      forall s | s in queue ensures s.ordinal !in deliveredOrdinals && s.ordinal < nextOrdinal
        && |s.bytes| <= MAX_PACKET_BYTES {
        assert s in swept.kept && s in before;
        forall i | 0 <= i < |deliveries| ensures deliveries[i].ordinal != s.ordinal {
          assert deliveries[i] in swept.delivered;
        }
      }
      forall n | n in deliveredOrdinals ensures n < nextOrdinal {
        if n !in old(deliveredOrdinals) {
          var i :| 0 <= i < |deliveries| && deliveries[i].ordinal == n;
          assert deliveries[i] in swept.delivered && deliveries[i] in before;
        }
      }
    }

    /** The erase loop over the sorted queue. */
    method SweepQueue(now: u32) returns (deliveries: seq<Scheduled>)
      requires queuedBytes == TotalBytes(queue)
      modifies this`queue, this`queuedBytes, this`metrics
      ensures queuedBytes == TotalBytes(queue)
      ensures var swept := Swept(config, now, config.bandwidth, old(queue));
        && deliveries == swept.delivered && queue == swept.kept
        && metrics == old(metrics).(delivered := old(metrics).delivered + |swept.delivered|,
                                    droppedAge := old(metrics).droppedAge + |swept.aged|)
    {
      hide TotalBytes, TooOld, Swept, Joined;
      JoinedEnds(config, now, config.bandwidth, queue);
      deliveries := [];
      var budget: nat := config.bandwidth;
      var i := 0;
      ghost var aged: seq<Scheduled> := [];
      ghost var whole := Swept(config, now, config.bandwidth, queue);
      while i < |queue|
        invariant i <= |queue| && queuedBytes == TotalBytes(queue)
        invariant whole == Joined(queue[..i], deliveries, aged, Swept(config, now, budget, queue[i..]))
        invariant metrics == old(metrics).(delivered := old(metrics).delivered + |deliveries|,
                                           droppedAge := old(metrics).droppedAge + |aged|)
        decreases |queue| - i
      {
        var s := queue[i];
        ghost var old_ := queue;
        ghost var tail := queue[i..];
        assert tail[0] == s && tail[1..] == queue[i + 1..];
        TotalWithout(queue, i);
        SweepStep(config, now, budget, tail, queue[..i], deliveries, aged);
        if TooOld(config, now, s) {
          queuedBytes := queuedBytes - |s.bytes|;
          queue := queue[..i] + queue[i + 1..];
          assert queue[i..] == tail[1..] && queue[..i] == old_[..i];
          metrics := metrics.(droppedAge := metrics.droppedAge + 1);
          aged := aged + [s];
        } else if s.scheduledFor <= now && |s.bytes| <= budget {
          budget := budget - |s.bytes|;
          queuedBytes := queuedBytes - |s.bytes|;
          deliveries := deliveries + [s];
          queue := queue[..i] + queue[i + 1..];
          assert queue[i..] == tail[1..] && queue[..i] == old_[..i];
          metrics := metrics.(delivered := metrics.delivered + 1);
        } else {
          i := i + 1;
          assert queue[..i] == queue[..i - 1] + [s];
        }
      }
      assert queue[i..] == [] && queue[..i] == queue;
      JoinedEmpty(config, now, budget, queue, deliveries, aged);
    }
  }

  lemma JoinedEnds(c: Config, now: u32, budget: nat, queue: seq<Scheduled>)
    ensures Joined(queue[..0], [], [], Swept(c, now, budget, queue[0..])) == Swept(c, now, budget, queue)
  {
    assert queue[0..] == queue;
  }

  lemma JoinedEmpty(c: Config, now: u32, budget: nat, kept: seq<Scheduled>, delivered: seq<Scheduled>,
      aged: seq<Scheduled>)
    ensures Joined(kept, delivered, aged, Swept(c, now, budget, [])) == Sweep(kept, delivered, aged)
  {
  }

  lemma OneMoreQueued(queue: seq<Scheduled>, s: Scheduled)
    requires DistinctOrdinals(queue) && forall q :: q in queue ==> q.ordinal < s.ordinal
    ensures DistinctOrdinals(queue + [s]) && TotalBytes(queue + [s]) == TotalBytes(queue) + |s.bytes|
    ensures (queue + [s])[..|queue|] == queue
    ensures Reorders((queue + [s])[|queue|..]) == if s.rank > 0 then 1 else 0
    ensures forall q :: q in queue + [s] <==> q in queue || q == s
  {
    assert (queue + [s])[|queue|..] == [s] && [s][1..] == [];
    forall i | 0 <= i < |queue| ensures queue[i].ordinal < s.ordinal {
      assert queue[i] in queue;
    }
  }

  lemma EmptyIsRoomiest(c: Config, queue: seq<Scheduled>, packets: nat, bytes: nat)
    ensures Exceeds(c, [], packets, bytes) ==> Exceeds(c, queue, packets, bytes)
  {
    NoBytes();
  }

  lemma NoCopies(c: Config, now: u32, draws: seq<u32>, i: nat, queue: seq<Scheduled>)
    ensures CopiesDraws(c, draws, i, 0) == 0 && CopiesDelayed(c, now, draws, i, queue, 0)
  {
  }

  lemma NothingReorders()
    ensures Reorders([]) == 0
  {
  }

  lemma NothingToEvict(c: Config, queue: seq<Scheduled>, packets: nat, bytes: nat)
    ensures !Exceeds(c, queue, packets, bytes) ==> Evicted(c, queue, packets, bytes) == queue
  {
  }

  lemma NothingLeft(c: Config, queue: seq<Scheduled>, packets: nat, bytes: nat)
    ensures var left := Evicted(c, queue, packets, bytes); left == [] || !Exceeds(c, left, packets, bytes)
  {
    hide Exceeds;
  }

  lemma OneOrTwo(size: nat)
    ensures CopiesSize(size, 1) == size && CopiesSize(size, 2) == size + size
  {
  }

  lemma FewerFit(c: Config, queue: seq<Scheduled>, count: nat, size: nat)
    requires 1 <= count <= 2
    ensures !Exceeds(c, queue, 2, 2 * size) ==> !Exceeds(c, queue, count, CopiesSize(size, count))
  {
    hide CopiesSize;
    OneOrTwo(size);
  }
}
