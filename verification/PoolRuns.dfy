/** Whole runs of the frame queue: every interleaving of writes, reads and clears. */
module PoolRuns {
  import opened BufferPool
  import opened Common
  import opened FrameGrouping

  datatype Op = Write(frame: Option<Fragment>) | Read | Clear

  /** One call, with the temporary buffer it created if it is a write that found no free one. */
  datatype Call<!B> = Call(op: Op, made: Option<B>)

  /** A write that takes a buffer creates one exactly when none is free, and otherwise must find a
      permanent one to stop the eviction loop. */
  ghost predicate CanCall<B>(p: Pool<B>, c: Call<B>, bufferSize: nat) {
    if c.op.Write? && c.op.frame.Some? && Takes(p, c.op.frame.value, bufferSize) then
      if p.free == [] then c.made.Some? && c.made.value !in p.image
      else c.made.None? && exists b <- p.free :: b in p.permanent
    else
      c.made.None?
  }

  ghost predicate Called<B>(p: Pool<B>, c: Call<B>, bufferSize: nat, q: Pool<B>) {
    match c.op
    case Write(None) => q == p
    case Write(Some(f)) => Wrote(p, f, bufferSize, c.made, q)
    case Read => if p.queue == [] then q == p else Held(p) && q == Depart(p)
    case Clear => Held(p) && q == DepartAll(p)
  }

  /** `pools[i + 1]` is the state after `calls[i]` in state `pools[i]`. */
  ghost predicate Run<B>(pools: seq<Pool<B>>, calls: seq<Call<B>>, bufferSize: nat) {
    && |pools| == |calls| + 1
    && forall i :: 0 <= i < |calls| ==>
         CanCall(pools[i], calls[i], bufferSize) && Called(pools[i], calls[i], bufferSize, pools[i + 1])
  }

  function Written<B>(calls: seq<Call<B>>): seq<Fragment> {
    if calls == [] then []
    else
      var last := calls[|calls| - 1];
      Written(calls[..|calls| - 1])
      + (if last.op.Write? && last.op.frame.Some? then [last.op.frame.value] else [])
  }

  // ---------- the eviction loop ----------

  /** The loop leaves a buffer to pop exactly when a permanent one is free. */
  lemma {:induction false} EvictLeaves<B>(p: Pool<B>)
    ensures EvictAll(p).free != [] <==> exists b <- p.free :: b in p.permanent
    decreases |p.free|
  {
    if p.free == [] {
    } else {
      assert p.free == [p.free[0]] + p.free[1..];
      if p.free[0] !in p.permanent {
        EvictLeaves(Evict(p));
      }
    }
  }

  lemma {:induction false} EvictAllKeeps<B>(p: Pool<B>, capacity: nat, bufferSize: nat)
    requires Consistent(p, capacity, bufferSize)
    ensures Consistent(EvictAll(p), capacity, bufferSize)
    ensures EvictAll(p).pending == p.pending && EvictAll(p).writes == p.writes
    ensures EvictAll(p).queue == p.queue && EvictAll(p).departed == p.departed
    decreases |p.free|
  {
    if p.free != [] && p.free[0] !in p.permanent {
      EvictKeeps(p, capacity, bufferSize);
      EvictAllKeeps(Evict(p), capacity, bufferSize);
    }
  }

  // ---------- every interleaving ----------

  lemma WroteKeeps<B>(p: Pool<B>, f: Fragment, made: Option<B>, q: Pool<B>, capacity: nat, bufferSize: nat)
    requires Consistent(p, capacity, bufferSize)
    requires made.Some? ==> made.value !in p.image
    requires Wrote(p, f, bufferSize, made, q)
    ensures Consistent(q, capacity, bufferSize) && q.writes == p.writes + [f]
  {
    hide Consistent;
    if Takes(p, f, bufferSize) {
      if made.Some? {
        CreateKeeps(p, made.value, Frame([], 0), capacity, bufferSize);
      } else {
        EvictAllKeeps(p, capacity, bufferSize);
      }
    }
    WriteKeeps(Prepare(p, f, bufferSize, made), f, capacity, bufferSize);
  }

  lemma CallKeeps<B>(p: Pool<B>, c: Call<B>, q: Pool<B>, capacity: nat, bufferSize: nat)
    requires Consistent(p, capacity, bufferSize)
    requires CanCall(p, c, bufferSize) && Called(p, c, bufferSize, q)
    ensures Consistent(q, capacity, bufferSize) && q.writes == p.writes + Written([c])
  {
    hide Consistent, Wrote;
    assert [c][..0] == [];
    match c.op
    case Write(None) =>
    case Write(Some(f)) =>
      WroteKeeps(p, f, c.made, q, capacity, bufferSize);
    case Read =>
      if p.queue != [] {
        DepartKeeps(p, capacity, bufferSize);
      }
    case Clear =>
      ClearKeeps(p, capacity, bufferSize);
  }

  lemma {:induction false} ClearKeeps<B>(p: Pool<B>, capacity: nat, bufferSize: nat)
    requires Consistent(p, capacity, bufferSize)
    ensures Consistent(DepartAll(p), capacity, bufferSize)
    decreases |p.queue|
  {
    if p.queue == [] {
      assert DepartAll(p) == p;
    } else {
      DepartAllStep(p);
      DepartKeeps(p, capacity, bufferSize);
      ClearKeeps(Depart(p), capacity, bufferSize);
    }
  }

  lemma {:induction false} RunKeeps<B>(pools: seq<Pool<B>>, calls: seq<Call<B>>, capacity: nat, bufferSize: nat)
    requires Run(pools, calls, bufferSize) && Consistent(pools[0], capacity, bufferSize)
    ensures forall i :: 0 <= i < |pools| ==> Consistent(pools[i], capacity, bufferSize)
    ensures pools[|calls|].writes == pools[0].writes + Written(calls)
  {
    hide Consistent, CanCall, Called;
    if calls == [] {
    } else {
      var n := |calls| - 1;
      RunKeeps(pools[..n + 1], calls[..n], capacity, bufferSize);
      CallKeeps(pools[n], calls[n], pools[n + 1], capacity, bufferSize);
      assert [calls[n]][..0] == [];
      assert forall i :: 0 <= i <= n ==> pools[i] == pools[..n + 1][i];
    }
  }

  /** What a queue holds just after it is initialised with `capacity` buffers. */
  ghost predicate Initial<B>(p: Pool<B>, capacity: nat, bufferSize: nat) {
    && Consistent(p, capacity, bufferSize) && NoTemporaries(p)
    && p.queue == [] && p.pending == [] && p.writes == [] && p.departed == []
  }

  lemma ConsistentYields<B>(p: Pool<B>, capacity: nat, bufferSize: nat)
    requires Consistent(p, capacity, bufferSize)
    ensures Held(p) && p.departed + Show(p.queue, p.image) == AssembleAll(p.writes, bufferSize).emitted
  {
  }

  /** Main theorem: whatever calls were made, in whatever order, the frames that have left the
      queue followed by those still in it are the frames of the stream written. */
  lemma RunYieldsFrames<B>(pools: seq<Pool<B>>, calls: seq<Call<B>>, capacity: nat, bufferSize: nat)
    requires Run(pools, calls, bufferSize) && Initial(pools[0], capacity, bufferSize)
    ensures var last := pools[|calls|];
            && Held(last)
            && last.departed + Show(last.queue, last.image) == Frames(Written(calls), bufferSize)
  {
    hide Consistent;
    RunKeeps(pools, calls, capacity, bufferSize);
    ConsistentYields(pools[|calls|], capacity, bufferSize);
    assert [] + Written(calls) == Written(calls);
    FoldIsGrammar(Written(calls), bufferSize);
  }

  /** The frame a call hands to its caller, as it is when read. */
  ghost function Delivers<B>(p: Pool<B>, c: Call<B>): seq<Frame>
    requires Held(p)
  {
    if c.op.Read? && p.queue != [] then [p.image[p.queue[0]]] else []
  }

  ghost function Delivered<B>(pools: seq<Pool<B>>, calls: seq<Call<B>>): seq<Frame>
    requires |pools| == |calls| + 1 && forall p <- pools :: Held(p)
  {
    if calls == [] then []
    else
      var n := |calls| - 1;
      Delivered(pools[..n + 1], calls[..n]) + Delivers(pools[n], calls[n])
  }

  lemma {:induction false} EvictDepartsNothing<B>(p: Pool<B>)
    ensures EvictAll(p).departed == p.departed
    decreases |p.free|
  {
    if p.free != [] && p.free[0] !in p.permanent {
      EvictDepartsNothing(Evict(p));
    }
  }

  lemma WriteDepartsNothing<B>(p: Pool<B>, f: Fragment, made: Option<B>, q: Pool<B>, bufferSize: nat)
    requires Wrote(p, f, bufferSize, made, q)
    ensures q.departed == p.departed
  {
    EvictDepartsNothing(p);
  }

  lemma CallDeparts<B>(p: Pool<B>, c: Call<B>, q: Pool<B>, bufferSize: nat)
    requires Held(p) && !c.op.Clear? && Called(p, c, bufferSize, q)
    ensures q.departed == p.departed + Delivers(p, c)
  {
    if c.op.Write? && c.op.frame.Some? {
      WriteDepartsNothing(p, c.op.frame.value, c.made, q, bufferSize);
    }
  }

  /** Unless the queue is cleared, every frame that left it was read, in order. */
  lemma {:induction false} DepartedIsDelivered<B>(pools: seq<Pool<B>>, calls: seq<Call<B>>, bufferSize: nat)
    requires Run(pools, calls, bufferSize) && forall p <- pools :: Held(p)
    requires forall c <- calls :: !c.op.Clear?
    ensures pools[|calls|].departed == pools[0].departed + Delivered(pools, calls)
  {
    hide Called, CanCall, Held;
    if calls == [] {
    } else {
      var n := |calls| - 1;
      DepartedIsDelivered(pools[..n + 1], calls[..n], bufferSize);
      assert Called(pools[n], calls[n], bufferSize, pools[n + 1]);
      CallDeparts(pools[n], calls[n], pools[n + 1], bufferSize);
    }
  }

  lemma AllHeld<B>(pools: seq<Pool<B>>, calls: seq<Call<B>>, capacity: nat, bufferSize: nat)
    requires Run(pools, calls, bufferSize) && Consistent(pools[0], capacity, bufferSize)
    ensures forall p <- pools :: Held(p)
  {
    RunKeeps(pools, calls, capacity, bufferSize);
    forall p | p in pools ensures Held(p) {
      var i :| 0 <= i < |pools| && pools[i] == p;
      ConsistentYields(pools[i], capacity, bufferSize);
    }
  }

  /** What was read so far, followed by what is queued, is what the stream yields, for every
      interleaving of writes and reads. */
  lemma ReadsYieldFrames<B>(pools: seq<Pool<B>>, calls: seq<Call<B>>, capacity: nat, bufferSize: nat)
    requires Run(pools, calls, bufferSize) && Initial(pools[0], capacity, bufferSize)
    requires forall c <- calls :: !c.op.Clear?
    ensures (forall p <- pools :: Held(p)) && Held(pools[|calls|])
    ensures Delivered(pools, calls) + Show(pools[|calls|].queue, pools[|calls|].image)
         == Frames(Written(calls), bufferSize)
  {
    assert |pools| == |calls| + 1;
    hide Consistent, Run, Held;
    AllHeld(pools, calls, capacity, bufferSize);
    RunYieldsFrames(pools, calls, capacity, bufferSize);
    DepartedIsDelivered(pools, calls, bufferSize);
    assert pools[|calls|].departed == [] + Delivered(pools, calls) == Delivered(pools, calls);
  }

  /** `pools` and `calls` record a run from `start` to `last` whose reads handed out `delivered`. */
  ghost predicate Log<B>(
    start: Pool<B>, pools: seq<Pool<B>>, calls: seq<Call<B>>, last: Pool<B>, delivered: seq<Frame>, bufferSize: nat)
  {
    && |pools| == |calls| + 1 && pools[0] == start && pools[|calls|] == last
    && Run(pools, calls, bufferSize)
    && (forall p <- pools :: Held(p)) && delivered == Delivered(pools, calls)
  }

  lemma LogStarts<B>(start: Pool<B>, bufferSize: nat)
    requires Held(start)
    ensures Log(start, [start], [], start, [], bufferSize)
  {
  }

  lemma LogGrows<B>(start: Pool<B>, pools: seq<Pool<B>>, calls: seq<Call<B>>, p: Pool<B>, c: Call<B>, q: Pool<B>,
                    delivered: seq<Frame>, bufferSize: nat)
    requires Log(start, pools, calls, p, delivered, bufferSize)
    requires CanCall(p, c, bufferSize) && Called(p, c, bufferSize, q) && Held(q)
    ensures Log(start, pools + [q], calls + [c], q, delivered + Delivers(p, c), bufferSize)
  {
    hide CanCall, Called, Held;
    var pools', calls' := pools + [q], calls + [c];
    assert pools'[..|pools|] == pools && calls'[..|calls|] == calls;
    assert forall i :: 0 <= i < |pools| ==> pools'[i] == pools[i];
  }

  // ---------- occupancy ----------

  /** Each write starts with fewer than `capacity` frames queued. */
  ghost predicate Paced<B>(pools: seq<Pool<B>>, calls: seq<Call<B>>, capacity: nat)
    requires |pools| == |calls| + 1
  {
    forall i :: 0 <= i < |calls| && calls[i].op.Write? ==> |pools[i].queue| < capacity
  }

  /** Only temporaries are free: the eviction loop deletes them all and then pops an empty list. */
  ghost predicate Stuck<B>(p: Pool<B>, f: Fragment, bufferSize: nat) {
    Takes(p, f, bufferSize) && p.free != [] && forall b <- p.free :: b !in p.permanent
  }

  /** Exactly in a stuck state the loop leaves nothing of a list that was not empty, and exactly then
      no call can write `f`. */
  lemma StuckIsExact<B>(p: Pool<B>, f: Fragment, made: Option<B>, bufferSize: nat)
    ensures Stuck(p, f, bufferSize) <==> Takes(p, f, bufferSize) && p.free != [] && EvictAll(p).free == []
    ensures CanCall(p, Call(Op.Write(Some(f)), made), bufferSize)
       <==> && !Stuck(p, f, bufferSize)
            && if Takes(p, f, bufferSize) && p.free == [] then made.Some? && made.value !in p.image else made.None?
  {
    EvictLeaves(p);
  }

  lemma {:induction false} AtMost<B>(s: set<B>, list: seq<B>)
    requires forall b <- s :: b in list
    ensures |s| <= |list|
  {
    if list == [] {
      assert s == {};
    } else {
      assert list == [list[0]] + list[1..];
      AtMost(s - {list[0]}, list[1..]);
    }
  }

  /** As long as fewer than `capacity` frames are queued, some permanent buffer is not queued. */
  lemma RoomToWrite<B>(p: Pool<B>, f: Fragment, capacity: nat, bufferSize: nat)
    requires Consistent(p, capacity, bufferSize) && |p.queue| < capacity && Takes(p, f, bufferSize)
    ensures exists b <- p.free :: b in p.permanent
  {
    if forall b <- p.permanent :: b in p.queue {
      AtMost(p.permanent, p.queue);
    }
    var b :| b in p.permanent && b !in p.queue;
    OwnedIsLive(p, b);
  }

  /** Whatever temporaries there are, a write that starts with fewer than `capacity` frames queued
      finds a permanent buffer to pop, and makes no temporary. */
  lemma RoomIsSafe<B>(p: Pool<B>, f: Fragment, capacity: nat, bufferSize: nat)
    requires Consistent(p, capacity, bufferSize) && |p.queue| < capacity
    ensures !Stuck(p, f, bufferSize) && (Takes(p, f, bufferSize) ==> p.free != [])
    ensures CanCall(p, Call(Op.Write(Some(f)), None), bufferSize)
  {
    hide Consistent;
    if Takes(p, f, bufferSize) {
      RoomToWrite(p, f, capacity, bufferSize);
    }
    StuckIsExact(p, f, None, bufferSize);
  }

  /** Such a write can be made at the end of every run. */
  lemma WriteWithRoomIsSafe<B>(
    pools: seq<Pool<B>>, calls: seq<Call<B>>, f: Fragment, capacity: nat, bufferSize: nat)
    requires Run(pools, calls, bufferSize) && Consistent(pools[0], capacity, bufferSize)
    requires |pools[|calls|].queue| < capacity
    ensures CanCall(pools[|calls|], Call(Op.Write(Some(f)), None), bufferSize)
  {
    RunKeeps(pools, calls, capacity, bufferSize);
    RoomIsSafe(pools[|calls|], f, capacity, bufferSize);
  }

  lemma NothingToEvict<B>(p: Pool<B>)
    requires Owned(p) && NoTemporaries(p)
    ensures EvictAll(p) == p
  {
    if p.free != [] {
      OwnedIsLive(p, p.free[0]);
    }
  }

  lemma WriteKeepsPermanent<B>(p: Pool<B>, f: Fragment, q: Pool<B>, capacity: nat, bufferSize: nat)
    requires Consistent(p, capacity, bufferSize) && NoTemporaries(p) && Wrote(p, f, bufferSize, None, q)
    ensures NoTemporaries(q) && q.image.Keys == p.image.Keys
  {
    NothingToEvict(p);
    if Takes(p, f, bufferSize) {
      OwnedIsLive(p, p.free[0]);
    } else if p.pending != [] {
      OwnedIsLive(p, p.pending[0]);
    }
  }

  /** Occupancy bound: a run paced by the size of the queue never makes a temporary buffer, and the
      permanent ones stay shared out among the three containers. */
  lemma {:induction false} PacedRun<B>(pools: seq<Pool<B>>, calls: seq<Call<B>>, capacity: nat, bufferSize: nat)
    requires Run(pools, calls, bufferSize) && Initial(pools[0], capacity, bufferSize)
    requires Paced(pools, calls, capacity)
    ensures forall i :: 0 <= i < |calls| ==> calls[i].made.None?
    ensures forall i :: 0 <= i < |pools| ==>
              && NoTemporaries(pools[i])
              && |pools[i].pending| + |pools[i].free| + |pools[i].queue| == capacity
  {
    hide Consistent, CanCall, Called, NoTemporaries;
    var n := |calls|;
    InitialIsPermanent(pools[0], capacity, bufferSize);
    RunKeeps(pools, calls, capacity, bufferSize);
    if n > 0 {
      PacedRun(pools[..n], calls[..n - 1], capacity, bufferSize);
      assert forall i :: 0 <= i < n ==> pools[i] == pools[..n][i];
      assert forall i :: 0 <= i < n - 1 ==> calls[i] == calls[..n - 1][i];
      PacedCall(pools[n - 1], calls[n - 1], pools[n], capacity, bufferSize);
    }
    SharedOut(pools[n], capacity, bufferSize);
  }

  lemma InitialIsPermanent<B>(p: Pool<B>, capacity: nat, bufferSize: nat)
    requires Initial(p, capacity, bufferSize)
    ensures Consistent(p, capacity, bufferSize) && NoTemporaries(p)
  {
  }

  lemma SharedOut<B>(p: Pool<B>, capacity: nat, bufferSize: nat)
    requires Consistent(p, capacity, bufferSize) && NoTemporaries(p)
    ensures |p.pending| + |p.free| + |p.queue| == capacity
  {
    Occupancy(p, capacity);
  }

  lemma PacedCall<B>(p: Pool<B>, c: Call<B>, q: Pool<B>, capacity: nat, bufferSize: nat)
    requires Consistent(p, capacity, bufferSize) && NoTemporaries(p)
    requires CanCall(p, c, bufferSize) && Called(p, c, bufferSize, q)
    requires c.op.Write? ==> |p.queue| < capacity
    ensures c.made.None? && NoTemporaries(q)
  {
    if c.op.Write? && c.op.frame.Some? {
      RoomIsSafe(p, c.op.frame.value, capacity, bufferSize);
      WriteKeepsPermanent(p, c.op.frame.value, q, capacity, bufferSize);
    }
  }

  // ---------- stability of a frame that was read ----------

  /** How many buffers the writes of a run take from the free list. */
  ghost function Taken<B>(pools: seq<Pool<B>>, calls: seq<Call<B>>, bufferSize: nat): nat
    requires |pools| == |calls| + 1
  {
    if calls == [] then 0
    else
      var n := |calls| - 1;
      Taken(pools[..n + 1], calls[..n], bufferSize) + TakenBy(pools[n], calls[n], bufferSize)
  }

  ghost function TakenBy<B>(p: Pool<B>, c: Call<B>, bufferSize: nat): nat {
    if c.op.Write? && c.op.frame.Some? && Takes(p, c.op.frame.value, bufferSize) then 1 else 0
  }

  /** The free buffers of `p` from position `k` on are at the head of `q`'s free list, holding the
      frames they held. */
  ghost predicate Rotated<B>(p: Pool<B>, k: nat, q: Pool<B>) {
    k <= |p.free| ==>
      && p.free[k..] <= q.free
      && forall i :: k <= i < |p.free| ==>
           p.free[i] in p.image && p.free[i] in q.image && q.image[p.free[i]] == p.image[p.free[i]]
  }

  lemma FreeIsLive<B>(p: Pool<B>, i: nat, capacity: nat, bufferSize: nat)
    requires Consistent(p, capacity, bufferSize) && i < |p.free|
    ensures p.free[i] in p.image && (p.pending != [] ==> p.free[i] != p.pending[0])
    ensures i > 0 ==> p.free[i] != p.free[0]
  {
    OwnedIsLive(p, p.free[i]);
    if i > 0 {
      OwnedIsDistinct(p, p.free, 0, i);
    }
  }

  lemma CallRotates<B>(p: Pool<B>, c: Call<B>, q: Pool<B>, capacity: nat, bufferSize: nat)
    requires Consistent(p, capacity, bufferSize) && NoTemporaries(p)
    requires CanCall(p, c, bufferSize) && Called(p, c, bufferSize, q)
    ensures Rotated(p, TakenBy(p, c, bufferSize), q)
  {
    NothingToEvict(p);
    hide Consistent, NoTemporaries, EvictAll;
    forall i | 0 <= i < |p.free|
      ensures p.free[i] in p.image && (p.pending != [] ==> p.free[i] != p.pending[0])
      ensures i > 0 ==> p.free[i] != p.free[0]
    {
      FreeIsLive(p, i, capacity, bufferSize);
    }
  }

  lemma RotatedTwice<B>(p: Pool<B>, k: nat, q: Pool<B>, j: nat, r: Pool<B>)
    requires Rotated(p, k, q) && Rotated(q, j, r)
    ensures Rotated(p, k + j, r)
  {
    if k + j <= |p.free| {
      assert p.free[k..][j..] == p.free[k + j..];
      assert p.free[k + j..] <= q.free[j..];
      forall i | k + j <= i < |p.free|
        ensures p.free[i] in r.image && r.image[p.free[i]] == p.image[p.free[i]]
      {
        assert p.free[i] == p.free[k..][i - k] == q.free[i - k];
      }
    }
  }

  ghost predicate AllPermanent<B>(pools: seq<Pool<B>>, capacity: nat, bufferSize: nat) {
    forall i :: 0 <= i < |pools| ==> Consistent(pools[i], capacity, bufferSize) && NoTemporaries(pools[i])
  }

  /** Without temporaries the free list is a queue: only writes that take a buffer use it up, from
      the front, and no call touches what the waiting buffers hold. */
  lemma {:induction false} RunRotates<B>(pools: seq<Pool<B>>, calls: seq<Call<B>>, capacity: nat, bufferSize: nat)
    requires Run(pools, calls, bufferSize) && AllPermanent(pools, capacity, bufferSize)
    ensures Rotated(pools[0], Taken(pools, calls, bufferSize), pools[|calls|])
  {
    hide Consistent, NoTemporaries, CanCall, Called, Rotated, TakenBy;
    if calls == [] {
      StandsStill(pools[0], capacity, bufferSize);
    } else {
      var n := |calls| - 1;
      RunRotates(pools[..n + 1], calls[..n], capacity, bufferSize);
      CallRotates(pools[n], calls[n], pools[n + 1], capacity, bufferSize);
      RotatedTwice(pools[0], Taken(pools[..n + 1], calls[..n], bufferSize), pools[n],
                   TakenBy(pools[n], calls[n], bufferSize), pools[n + 1]);
    }
  }

  lemma StandsStill<B>(p: Pool<B>, capacity: nat, bufferSize: nat)
    requires Consistent(p, capacity, bufferSize)
    ensures Rotated(p, 0, p)
  {
    forall i | 0 <= i < |p.free| ensures p.free[i] in p.image {
      OwnedIsLive(p, p.free[i]);
    }
  }

  /** Stability: a frame read in state `p`, with `k` buffers free, is left alone by every run that
      follows until a write takes a buffer for the `k + 1`st time, and that write reuses its buffer. */
  lemma ReadFrameStays<B>(p: Pool<B>, pools: seq<Pool<B>>, calls: seq<Call<B>>, capacity: nat, bufferSize: nat)
    requires Run(pools, calls, bufferSize) && AllPermanent(pools, capacity, bufferSize)
    requires p.queue != [] && Held(p) && pools[0] == Depart(p)
    requires Taken(pools, calls, bufferSize) <= |p.free|
    ensures var b, last := p.queue[0], pools[|calls|];
            && b in last.image && last.image[b] == p.image[b]
            && (Taken(pools, calls, bufferSize) == |p.free| ==> last.free != [] && last.free[0] == b)
  {
    assert |pools| == |calls| + 1;
    hide Run, AllPermanent, Taken;
    var q, t := pools[0], Taken(pools, calls, bufferSize);
    RunRotates(pools, calls, capacity, bufferSize);
    assert q.free[|p.free|] == p.queue[0];
    assert q.free[t..][|p.free| - t] == p.queue[0];
  }

  /** The bound is sharp: the next write that takes a buffer overwrites the one at the head. */
  lemma HeadIsReused<B>(p: Pool<B>, f: Fragment, q: Pool<B>, capacity: nat, bufferSize: nat)
    requires Consistent(p, capacity, bufferSize) && NoTemporaries(p)
    requires p.free != [] && Takes(p, f, bufferSize) && Wrote(p, f, bufferSize, None, q)
    ensures p.free[0] in q.image && q.image[p.free[0]] == Alone(f)
  {
    OwnedIsLive(p, p.free[0]);
  }

  // ---------- stability with temporaries about ----------

  ghost function PermanentIn<B>(list: seq<B>, permanent: set<B>): nat {
    if list == [] then 0
    else PermanentIn(list[1..], permanent) + (if list[0] in permanent then 1 else 0)
  }

  lemma {:induction false} AllPermanentIn<B>(list: seq<B>, permanent: set<B>)
    requires forall i :: 0 <= i < |list| ==> list[i] in permanent
    ensures PermanentIn(list, permanent) == |list|
  {
    if list == [] {
    } else {
      AllPermanentIn(list[1..], permanent);
    }
  }

  /** Without temporaries the bound is the length of the free list. */
  lemma FreeIsPermanent<B>(p: Pool<B>)
    requires Owned(p) && NoTemporaries(p)
    ensures PermanentIn(p.free, p.permanent) == |p.free|
  {
    forall i | 0 <= i < |p.free| ensures p.free[i] in p.permanent {
      OwnedIsLive(p, p.free[i]);
    }
    AllPermanentIn(p.free, p.permanent);
  }

  /** How many permanent buffers are ahead of the one at `i` on the free list. */
  ghost function Ahead<B>(p: Pool<B>, i: nat): nat
    requires i <= |p.free|
  {
    PermanentIn(p.free[..i], p.permanent)
  }

  lemma AheadOfTail<B>(p: Pool<B>, i: nat)
    requires 0 < i <= |p.free|
    ensures Ahead(p, i) == PermanentIn(p.free[1..][..i - 1], p.permanent) + (if p.free[0] in p.permanent then 1 else 0)
  {
    assert p.free[..i][1..] == p.free[1..][..i - 1];
  }

  /** Buffer `i` of `p`'s free list is buffer `j` of `q`'s, with `k` permanent ones fewer ahead of it,
      and holds what it held. */
  ghost predicate Moved<B>(p: Pool<B>, i: nat, q: Pool<B>, j: nat, k: int) {
    && i < |p.free| && j < |q.free| && q.free[j] == p.free[i] && q.permanent == p.permanent
    && Ahead(q, j) == Ahead(p, i) - k
    && p.free[i] in p.image && p.free[i] in q.image && q.image[p.free[i]] == p.image[p.free[i]]
  }

  lemma {:induction false} EvictMoves<B>(p: Pool<B>, i: nat, capacity: nat, bufferSize: nat) returns (j: nat)
    requires Consistent(p, capacity, bufferSize) && i < |p.free| && Ahead(p, i) > 0
    ensures Moved(p, i, EvictAll(p), j, 0) && j > 0
    ensures EvictAll(p).free[0] in p.permanent
    decreases |p.free|
  {
    hide Consistent;
    FreeIsLive(p, i, capacity, bufferSize);
    if p.free[0] in p.permanent {
      j := i;
    } else {
      AheadOfTail(p, i);
      EvictKeeps(p, capacity, bufferSize);
      j := EvictMoves(Evict(p), i - 1, capacity, bufferSize);
    }
  }

  lemma FillMoves<B>(p: Pool<B>, i: nat, f: Fragment, capacity: nat, bufferSize: nat)
    requires Consistent(p, capacity, bufferSize) && 0 < i < |p.free| && p.free[0] in p.permanent
    ensures Moved(p, i, Fill(p, f), i - 1, 1)
  {
    FreeIsLive(p, i, capacity, bufferSize);
    AheadOfTail(p, i);
  }

  /** Calls that take no buffer only append to the free list. */
  lemma StayMoves<B>(p: Pool<B>, i: nat, q: Pool<B>, capacity: nat, bufferSize: nat)
    requires Consistent(p, capacity, bufferSize) && i < |p.free|
    requires p.free <= q.free && q.permanent == p.permanent && p.free[i] in q.image
    requires p.free[i] in p.image ==> q.image[p.free[i]] == p.image[p.free[i]]
    ensures Moved(p, i, q, i, 0)
  {
    FreeIsLive(p, i, capacity, bufferSize);
    assert q.free[..i] == p.free[..i];
  }

  lemma CallMoves<B>(p: Pool<B>, i: nat, c: Call<B>, q: Pool<B>, capacity: nat, bufferSize: nat) returns (j: nat)
    requires Consistent(p, capacity, bufferSize) && i < |p.free|
    requires CanCall(p, c, bufferSize) && Called(p, c, bufferSize, q)
    requires TakenBy(p, c, bufferSize) <= Ahead(p, i)
    ensures Moved(p, i, q, j, TakenBy(p, c, bufferSize))
  {
    hide Consistent, Ahead, EvictAll;
    FreeIsLive(p, i, capacity, bufferSize);
    if TakenBy(p, c, bufferSize) == 1 {
      EvictAllKeeps(p, capacity, bufferSize);
      j := EvictMoves(p, i, capacity, bufferSize);
      FillMoves(EvictAll(p), j, c.op.frame.value, capacity, bufferSize);
      j := j - 1;
    } else {
      j := i;
      StayMoves(p, i, q, capacity, bufferSize);
    }
  }

  lemma {:induction false} RunMoves<B>(
    pools: seq<Pool<B>>, calls: seq<Call<B>>, i: nat, capacity: nat, bufferSize: nat) returns (j: nat)
    requires Run(pools, calls, bufferSize) && Consistent(pools[0], capacity, bufferSize) && i < |pools[0].free|
    requires Taken(pools, calls, bufferSize) <= Ahead(pools[0], i)
    ensures Moved(pools[0], i, pools[|calls|], j, Taken(pools, calls, bufferSize))
  {
    hide Consistent, CanCall, Called, TakenBy, Ahead;
    if calls == [] {
      j := i;
      FreeIsLive(pools[0], i, capacity, bufferSize);
    } else {
      var n := |calls| - 1;
      var k := RunMoves(pools[..n + 1], calls[..n], i, capacity, bufferSize);
      RunKeeps(pools, calls, capacity, bufferSize);
      j := CallMoves(pools[n], k, calls[n], pools[n + 1], capacity, bufferSize);
    }
  }

  /** Stability in general: a frame read in state `p` is left alone until writes have taken as many
      buffers as permanent ones were free, whatever temporaries there are; and no buffer ahead of its
      own is permanent then. */
  lemma ReadFrameStaysAnyway<B>(p: Pool<B>, pools: seq<Pool<B>>, calls: seq<Call<B>>, capacity: nat, bufferSize: nat)
    requires Run(pools, calls, bufferSize) && Consistent(pools[0], capacity, bufferSize)
    requires p.queue != [] && Held(p) && pools[0] == Depart(p)
    requires Taken(pools, calls, bufferSize) <= PermanentIn(p.free, p.permanent)
    ensures var b, last := p.queue[0], pools[|calls|];
            && b in last.image && last.image[b] == p.image[b]
            && exists j :: 0 <= j < |last.free| && last.free[j] == b
                 && Ahead(last, j) == PermanentIn(p.free, p.permanent) - Taken(pools, calls, bufferSize)
  {
    assert |pools| == |calls| + 1;
    hide Run, Consistent, Taken;
    assert pools[0].free[..|p.free|] == p.free;
    var j := RunMoves(pools, calls, |p.free|, capacity, bufferSize);
  }

  lemma {:induction false} EvictEnds<B>(p: Pool<B>, i: nat)
    requires i < |p.free| && Ahead(p, i) == 0
    ensures var r := EvictAll(p); p.free[i] !in r.image || (r.free != [] && r.free[0] == p.free[i])
    decreases i
  {
    if i == 0 {
      if p.free[0] !in p.permanent {
        EvictShrinks(Evict(p));
      }
    } else {
      AheadOfTail(p, i);
      EvictEnds(Evict(p), i - 1);
    }
  }

  lemma {:induction false} EvictShrinks<B>(p: Pool<B>)
    ensures EvictAll(p).image.Keys <= p.image.Keys && EvictAll(p).pending == p.pending
    decreases |p.free|
  {
    if p.free != [] && p.free[0] !in p.permanent {
      EvictShrinks(Evict(p));
    }
  }

  /** The bound is sharp: with no permanent buffer ahead of it, the next write that takes a buffer
      overwrites or deletes it. */
  lemma NextTakeEndsIt<B>(p: Pool<B>, i: nat, f: Fragment, q: Pool<B>, bufferSize: nat)
    requires i < |p.free| && Ahead(p, i) == 0
    requires Takes(p, f, bufferSize) && Wrote(p, f, bufferSize, None, q)
    ensures p.free[i] in q.image ==> q.image[p.free[i]] == Alone(f)
  {
    EvictEnds(p, i);
    EvictShrinks(p);
  }

  // ---------- the eviction loop can run dry ----------

  /** A fragment that is a frame of its own. */
  predicate IsWhole(f: Fragment, bufferSize: nat) {
    !IsSkipped(f, bufferSize) && !OpensGroup(f)
  }

  /** One write more than there are permanent buffers, then reads and writes of all of these, and a
      last read. */
  function UnderflowOps(f: Fragment, n: nat): (ops: seq<Op>)
    ensures |ops| == 3 * n + 2
  {
    seq(3 * n + 2, i => if i <= n || 2 * n < i <= 3 * n then Op.Write(Some(f)) else Read)
  }

  /** Where these calls stand after `m` of them: `a` are the permanent buffers in the order they were
      free at first, `t` is the temporary made by the write after the first `n`. */
  ghost predicate Underflowing<B>(p: Pool<B>, a: seq<B>, t: B, m: nat) {
    var n := |a|;
    && p.pending == []
    && (forall i :: 0 <= i < n ==> a[i] in p.permanent)
    && if m <= n then p.free == a[m..] && p.queue == a[..m]
       else t !in p.permanent
            && if m <= 2 * n + 1 then p.free == a[..m - n - 1] && p.queue == a[m - n - 1..] + [t]
               else if m <= 3 * n + 1 then p.free == a[m - 2 * n - 1..] && p.queue == [t] + a[..m - 2 * n - 1]
               else p.free == [t] && p.queue == a
  }

  lemma WholeWrite<B>(p: Pool<B>, c: Call<B>, f: Fragment, q: Pool<B>, bufferSize: nat)
    requires p.pending == [] && IsWhole(f, bufferSize) && (p.free == [] || p.free[0] in p.permanent)
    requires c.op == Op.Write(Some(f)) && CanCall(p, c, bufferSize) && Called(p, c, bufferSize, q)
    ensures q.pending == [] && q.permanent == p.permanent && p.image.Keys <= q.image.Keys
    ensures if p.free != [] then q.free == p.free[1..] && q.queue == p.queue + [p.free[0]]
            else q.free == [] && c.made.Some? && c.made.value !in p.image && q.queue == p.queue + [c.made.value]
  {
  }

  lemma ReadDeparts<B>(p: Pool<B>, c: Call<B>, q: Pool<B>, bufferSize: nat)
    requires c.op.Read? && p.queue != [] && Called(p, c, bufferSize, q)
    ensures Held(p) && q == Depart(p)
  {
  }

  lemma UnderflowRead<B>(p: Pool<B>, q: Pool<B>, a: seq<B>, t: B, m: nat)
    requires Underflowing(p, a, t, m) && q.pending == [] && q.permanent == p.permanent
    requires |a| < m <= 2 * |a| || m == 3 * |a| + 1
    requires p.queue != [] && q.queue == p.queue[1..] && q.free == p.free + [p.queue[0]]
    ensures Underflowing(q, a, t, m + 1)
  {
    var n := |a|;
    if m <= 2 * n {
      assert p.queue[0] == a[m - n - 1] && a[..m - n - 1] + [a[m - n - 1]] == a[..m - n];
    } else {
      assert a[..n] == a && q.free == [t];
    }
  }

  lemma UnderflowWrite<B>(p: Pool<B>, q: Pool<B>, a: seq<B>, t: B, m: nat)
    requires Underflowing(p, a, t, m) && q.pending == [] && q.permanent == p.permanent
    requires m <= |a| || 2 * |a| < m <= 3 * |a|
    requires p.free != [] ==> q.free == p.free[1..] && q.queue == p.queue + [p.free[0]]
    requires p.free == [] ==> q.free == [] && q.queue == p.queue + [t] && t !in p.permanent
    ensures Underflowing(q, a, t, m + 1)
  {
    var n := |a|;
    if m < n {
      assert a[..m] + [a[m]] == a[..m + 1];
    } else if m == n {
      assert a[..n] == a == a[0..];
    } else {
      var k := m - 2 * n - 1;
      assert ([t] + a[..k]) + [a[k]] == [t] + a[..k + 1];
    }
  }

  lemma UnderflowStep<B>(p: Pool<B>, c: Call<B>, q: Pool<B>, a: seq<B>, t: B, f: Fragment, m: nat, bufferSize: nat)
    requires IsWhole(f, bufferSize) && a != [] && Underflowing(p, a, t, m) && p.permanent <= p.image.Keys
    requires m <= 3 * |a| + 1 && c.op == UnderflowOps(f, |a|)[m]
    requires CanCall(p, c, bufferSize) && Called(p, c, bufferSize, q)
    requires m == |a| && c.made.Some? ==> t == c.made.value
    ensures Underflowing(q, a, t, m + 1) && (m == |a| ==> c.made.Some?)
  {
    UnderflowCanGoOn(p, a, t, f, m);
    hide CanCall, Called, Underflowing;
    if c.op.Read? {
      ReadDeparts(p, c, q, bufferSize);
      UnderflowRead(p, q, a, t, m);
    } else {
      WholeWrite(p, c, f, q, bufferSize);
      UnderflowWrite(p, q, a, t, m);
    }
  }

  ghost predicate MakesUnderflow<B>(calls: seq<Call<B>>, f: Fragment, n: nat) {
    |calls| <= 3 * n + 2 && forall i :: 0 <= i < |calls| ==> calls[i].op == UnderflowOps(f, n)[i]
  }

  lemma InitialFree<B>(p: Pool<B>, n: nat, bufferSize: nat)
    requires Initial(p, n, bufferSize)
    ensures |p.free| == n && forall i :: 0 <= i < n ==> p.free[i] in p.permanent
  {
    Occupancy(p, n);
    forall i | 0 <= i < n ensures p.free[i] in p.permanent {
      OwnedIsLive(p, p.free[i]);
    }
  }

  lemma {:induction false} UnderflowShape<B>(
    pools: seq<Pool<B>>, calls: seq<Call<B>>, t: B, f: Fragment, n: nat, bufferSize: nat)
    requires Run(pools, calls, bufferSize) && Initial(pools[0], n, bufferSize) && n > 0
    requires IsWhole(f, bufferSize) && MakesUnderflow(calls, f, n)
    requires |calls| > n && calls[n].made.Some? ==> t == calls[n].made.value
    ensures Underflowing(pools[|calls|], pools[0].free, t, |calls|)
    ensures |calls| > n ==> calls[n].made.Some?
  {
    hide Consistent, CanCall, Called, Underflowing;
    InitialFree(pools[0], n, bufferSize);
    if calls == [] {
      UnderflowStarts(pools[0], t);
    } else {
      var m := |calls| - 1;
      UnderflowShape(pools[..m + 1], calls[..m], t, f, n, bufferSize);
      RunKeeps(pools, calls, n, bufferSize);
      PermanentIsLive(pools[m], n, bufferSize);
      UnderflowStep(pools[m], calls[m], pools[m + 1], pools[0].free, t, f, m, bufferSize);
    }
  }

  lemma UnderflowStarts<B>(p: Pool<B>, t: B)
    requires p.pending == [] && p.queue == [] && forall i :: 0 <= i < |p.free| ==> p.free[i] in p.permanent
    ensures Underflowing(p, p.free, t, 0)
  {
  }

  lemma PermanentIsLive<B>(p: Pool<B>, n: nat, bufferSize: nat)
    requires Consistent(p, n, bufferSize)
    ensures p.permanent <= p.image.Keys
  {
  }

  lemma UnderflowStuck<B>(p: Pool<B>, a: seq<B>, t: B, f: Fragment, m: nat, bufferSize: nat)
    requires a != [] && m <= 3 * |a| + 2 && IsWhole(f, bufferSize) && Underflowing(p, a, t, m)
    ensures Stuck(p, f, bufferSize) <==> m == 3 * |a| + 2
  {
    if m < 3 * |a| + 2 && p.free != [] {
      assert p.free[0] in p.permanent;
    }
  }

  /** Whatever the number `n` of permanent buffers, these calls always end in a stuck state, and no
      fewer of them do. */
  lemma UnderflowIsCertain<B>(pools: seq<Pool<B>>, calls: seq<Call<B>>, f: Fragment, n: nat, bufferSize: nat)
    requires Run(pools, calls, bufferSize) && Initial(pools[0], n, bufferSize) && n > 0
    requires IsWhole(f, bufferSize) && MakesUnderflow(calls, f, n)
    ensures Stuck(pools[|calls|], f, bufferSize) <==> |calls| == 3 * n + 2
  {
    hide Consistent, CanCall, Called, Underflowing, Stuck;
    InitialFree(pools[0], n, bufferSize);
    var t := if |calls| > n && calls[n].made.Some? then calls[n].made.value else pools[0].free[0];
    UnderflowShape(pools, calls, t, f, n, bufferSize);
    UnderflowStuck(pools[|calls|], pools[0].free, t, f, |calls|, bufferSize);
  }

  /** The next of these calls, `t` being the temporary it makes if it must make one. */
  lemma UnderflowNext<B>(p: Pool<B>, t: B, f: Fragment, op: Op, n: nat, bufferSize: nat)
    returns (c: Call<B>, q: Pool<B>)
    requires Consistent(p, n, bufferSize) && IsWhole(f, bufferSize) && p.pending == []
    requires if op == Op.Write(Some(f)) then p.free != [] ==> p.free[0] in p.permanent else op.Read? && p.queue != []
    requires p.free == [] && op.Write? ==> t !in p.image
    ensures c.op == op && CanCall(p, c, bufferSize) && Called(p, c, bufferSize, q)
    ensures op.Read? || p.free != [] ==> q.image.Keys == p.image.Keys
  {
    ConsistentYields(p, n, bufferSize);
    if op.Read? {
      c, q := Call(op, None), Depart(p);
    } else {
      c := Call(op, if p.free == [] then Some(t) else None);
      q := BufferPool.Write(Prepare(p, f, bufferSize, c.made), f, bufferSize);
      if p.free != [] {
        OwnedIsLive(p, p.free[0]);
      }
    }
  }

  /** The first `m` of these calls can be made, from every initial state and with any buffer that is not
      live as the temporary. */
  lemma {:induction false} UnderflowPrefix<B>(p: Pool<B>, t: B, f: Fragment, n: nat, m: nat, bufferSize: nat)
    returns (pools: seq<Pool<B>>, calls: seq<Call<B>>)
    requires Initial(p, n, bufferSize) && n > 0 && t !in p.image && IsWhole(f, bufferSize) && m <= 3 * n + 2
    ensures Run(pools, calls, bufferSize) && pools[0] == p && |calls| == m && MakesUnderflow(calls, f, n)
    ensures m <= n ==> pools[m].image.Keys == p.image.Keys
    decreases m
  {
    hide Consistent, CanCall, Called, Underflowing;
    if m == 0 {
      pools, calls := [p], [];
    } else {
      pools, calls := UnderflowPrefix(p, t, f, n, m - 1, bufferSize);
      RunKeeps(pools, calls, n, bufferSize);
      InitialFree(p, n, bufferSize);
      var u := if m - 1 > n && calls[n].made.Some? then calls[n].made.value else p.free[0];
      UnderflowShape(pools, calls, u, f, n, bufferSize);
      UnderflowCanGoOn(pools[m - 1], p.free, u, f, m - 1);
      var c, q := UnderflowNext(pools[m - 1], t, f, UnderflowOps(f, n)[m - 1], n, bufferSize);
      ExtendRun(pools, calls, c, q, bufferSize);
      pools, calls := pools + [q], calls + [c];
    }
  }

  lemma UnderflowCanGoOn<B>(p: Pool<B>, a: seq<B>, t: B, f: Fragment, m: nat)
    requires a != [] && m <= 3 * |a| + 1 && Underflowing(p, a, t, m)
    ensures p.pending == []
    ensures if UnderflowOps(f, |a|)[m] == Op.Write(Some(f)) then p.free != [] ==> p.free[0] in p.permanent
            else UnderflowOps(f, |a|)[m].Read? && p.queue != []
    ensures UnderflowOps(f, |a|)[m].Write? ==> (p.free == [] <==> m == |a|)
    ensures m < |a| ==> p.free != []
  {
  }

  lemma ExtendRun<B>(pools: seq<Pool<B>>, calls: seq<Call<B>>, c: Call<B>, q: Pool<B>, bufferSize: nat)
    requires Run(pools, calls, bufferSize)
    requires CanCall(pools[|calls|], c, bufferSize) && Called(pools[|calls|], c, bufferSize, q)
    ensures Run(pools + [q], calls + [c], bufferSize)
  {
    hide CanCall, Called;
  }

  /** The eviction loop can run dry whatever the capacity. */
  lemma EvictionCanUnderflow<B>(p: Pool<B>, t: B, f: Fragment, capacity: nat, bufferSize: nat)
    returns (pools: seq<Pool<B>>, calls: seq<Call<B>>)
    requires Initial(p, capacity, bufferSize) && capacity > 0 && t !in p.image && IsWhole(f, bufferSize)
    ensures Run(pools, calls, bufferSize) && pools[0] == p
    ensures |calls| == 3 * capacity + 2
    ensures forall i :: 0 <= i < |calls| ==> calls[i].op == UnderflowOps(f, capacity)[i]
    ensures Stuck(pools[|calls|], f, bufferSize)
  {
    hide Stuck, Initial, CanCall, Called;
    pools, calls := UnderflowPrefix(p, t, f, capacity, 3 * capacity + 2, bufferSize);
    UnderflowIsCertain(pools, calls, f, capacity, bufferSize);
  }
}
