/** The five rings a session owns: `RollbackSession::Storage` of src/netcode/session.cpp. */
module Storages {
  import opened Core
  import opened FrameRings
  import opened Simulation

  /** What the rings answer for, by unbounded frame number. */
  datatype Rings = Rings(local: map<int, InputFrame>, remote: map<int, InputFrame>, used: map<int, InputFrame>,
                         snapshots: map<int, World>, hashes: map<int, u64>)

  class Storage {
    const localInputs: FrameRing<InputFrame>
    const remoteInputs: FrameRing<InputFrame>
    const usedRemote: FrameRing<InputFrame>
    const snapshots: FrameRing<World>
    const hashes: FrameRing<u64>
    ghost const origin: int
    ghost const repr: set<object>

    ghost predicate Separate() {
      var l: object, r: object, u: object, s: object, h: object := localInputs, remoteInputs, usedRemote, snapshots,
        hashes;
      var l': object, r': object, u': object, s': object, h': object :=
        localInputs.slots, remoteInputs.slots, usedRemote.slots, snapshots.slots, hashes.slots;
      && repr == {l, r, u, s, h, l', r', u', s', h'} && this !in repr
      && l != r && l != u && l != s && l != h && r != u && r != s && r != h && u != s && u != h && s != h
      && l' != r' && l' != u' && l' != s' && l' != h' && r' != u' && r' != s' && r' != h' && u' != s' && u' != h'
      && s' != h'
    }

    ghost predicate Valid()
      reads repr
    {
      && Separate()
      && localInputs.Valid() && remoteInputs.Valid() && usedRemote.Valid() && snapshots.Valid() && hashes.Valid()
      && localInputs.origin == remoteInputs.origin == usedRemote.origin == snapshots.origin == hashes.origin == origin
    }

    ghost function View(): Rings
      reads localInputs, remoteInputs, usedRemote, snapshots, hashes
    {
      Rings(localInputs.live, remoteInputs.live, usedRemote.live, snapshots.live, hashes.live)
    }

    ghost predicate Spans(frame: int) { origin <= frame < origin + U32 }

    constructor (ghost start: int)
      ensures Valid() && fresh(repr) && origin == start
      ensures View() == Rings(map[], map[], map[], map[], map[])
    {
      hide FrameRing.Valid;
      var l := new FrameRing<InputFrame>(start);
      var r := new FrameRing<InputFrame>(start);
      var u := new FrameRing<InputFrame>(start);
      var s := new FrameRing<World>(start);
      var h := new FrameRing<u64>(start);
      localInputs, remoteInputs, usedRemote, snapshots, hashes := l, r, u, s, h;
      origin := start;
      repr := {l, l.slots, r, r.slots, u, u.slots, s, s.slots, h, h.slots};
    }

    method PutLocal(frame: u32, value: InputFrame, ghost number: int)
      requires Valid() && Spans(number) && frame == Tag(number)
      modifies repr
      ensures Valid() && View() == old(View()).(local := Stored(old(View().local), number, value))
    {
      hide FrameRing.Valid, Stored, Tag;
      localInputs.Put(frame, value, number);
    }

    method PutRemote(frame: u32, value: InputFrame, ghost number: int)
      requires Valid() && Spans(number) && frame == Tag(number)
      modifies repr
      ensures Valid() && View() == old(View()).(remote := Stored(old(View().remote), number, value))
    {
      hide FrameRing.Valid, Stored, Tag;
      remoteInputs.Put(frame, value, number);
    }

    method PutUsed(frame: u32, value: InputFrame, ghost number: int)
      requires Valid() && Spans(number) && frame == Tag(number)
      modifies repr
      ensures Valid() && View() == old(View()).(used := Stored(old(View().used), number, value))
    {
      hide FrameRing.Valid, Stored, Tag;
      usedRemote.Put(frame, value, number);
    }

    method PutSnapshot(frame: u32, value: World, ghost number: int)
      requires Valid() && Spans(number) && frame == Tag(number)
      modifies repr
      ensures Valid() && View() == old(View()).(snapshots := Stored(old(View().snapshots), number, value))
    {
      hide FrameRing.Valid, Stored, Tag;
      snapshots.Put(frame, value, number);
    }

    method PutHash(frame: u32, value: u64, ghost number: int)
      requires Valid() && Spans(number) && frame == Tag(number)
      modifies repr
      ensures Valid() && View() == old(View()).(hashes := Stored(old(View().hashes), number, value))
    {
      hide FrameRing.Valid, Stored, Tag;
      hashes.Put(frame, value, number);
    }

    method GetLocal(frame: u32, ghost number: int) returns (r: Result<InputFrame>)
      requires Valid() && Spans(number) && frame == Tag(number)
      ensures r == if number in View().local then Ok(View().local[number]) else Err(StaleFrame)
    {
      hide FrameRing.Valid, Tag;
      r := localInputs.Get(frame, number);
    }

    method GetRemote(frame: u32, ghost number: int) returns (r: Result<InputFrame>)
      requires Valid() && Spans(number) && frame == Tag(number)
      ensures r == if number in View().remote then Ok(View().remote[number]) else Err(StaleFrame)
    {
      hide FrameRing.Valid, Tag;
      r := remoteInputs.Get(frame, number);
    }

    method GetUsed(frame: u32, ghost number: int) returns (r: Result<InputFrame>)
      requires Valid() && Spans(number) && frame == Tag(number)
      ensures r == if number in View().used then Ok(View().used[number]) else Err(StaleFrame)
    {
      hide FrameRing.Valid, Tag;
      r := usedRemote.Get(frame, number);
    }

    method GetSnapshot(frame: u32, ghost number: int) returns (r: Result<World>)
      requires Valid() && Spans(number) && frame == Tag(number)
      ensures r == if number in View().snapshots then Ok(View().snapshots[number]) else Err(StaleFrame)
    {
      hide FrameRing.Valid, Tag;
      r := snapshots.Get(frame, number);
    }

    method GetHash(frame: u32, ghost number: int) returns (r: Result<u64>)
      requires Valid() && Spans(number) && frame == Tag(number)
      ensures r == if number in View().hashes then Ok(View().hashes[number]) else Err(StaleFrame)
    {
      hide FrameRing.Valid, Tag;
      r := hashes.Get(frame, number);
    }

    method HasBothInputs(frame: u32, ghost number: int) returns (r: bool)
      requires Valid() && Spans(number) && frame == Tag(number)
      ensures r <==> number in View().local && number in View().remote
    {
      hide FrameRing.Valid, Tag;
      r := localInputs.Contains(frame, number);
      if r {
        r := remoteInputs.Contains(frame, number);
      }
    }
  }
}
