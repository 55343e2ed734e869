/** A call on a frame queue is a step of the runs over its pool, so that what is proved of all runs
    holds of every sequence of calls. */
module QueueCalls {
  import opened BufferPool
  import opened Common
  import opened FrameGrouping
  import opened FrameQueues
  import opened PoolRuns

  /** The flag kept in a buffer says what the history says of it. */
  lemma WritableIsNotStuck(q: FrameQueue, f: Fragment)
    requires q.Valid()
    ensures q.Writable(Some(f)) <==> !Stuck(q.State(), f, q.bufferSize)
  {
    forall i | 0 <= i < |q.free| ensures q.free[i].temporary <==> q.free[i] !in q.permanent {
      OwnedIsLive(q.State(), q.free[i]);
      assert q.StoredAt(q.free[i]);
    }
  }

  /** `buffer` is the frame handed out, if the call is a read of a queue that is not empty. */
  method Perform(q: FrameQueue, op: Op) returns (buffer: FrameBuffer?, ghost c: Call<FrameBuffer>)
    requires q.Valid() && (op.Write? ==> q.Writable(op.frame))
    modifies q.Footprint()
    ensures q.Valid() && q.capacity == old(q.capacity) && q.bufferSize == old(q.bufferSize)
    ensures fresh(q.Footprint() - old(q.Footprint()))
    ensures c.op == op && CanCall(old(q.State()), c, q.bufferSize) && Called(old(q.State()), c, q.bufferSize, q.State())
    ensures Held(old(q.State()))
    ensures buffer == if op.Read? && old(q.queue) != [] then old(q.queue)[0] else null
    ensures buffer == null ==> Delivers(old(q.State()), c) == []
    ensures buffer != null ==> buffer.Valid() && Delivers(old(q.State()), c) == [buffer.Content()]
  {
    hide Wrote;
    buffer := null;
    match op
    case Write(frame) =>
      if frame.Some? {
        WritableIsNotStuck(q, frame.value);
      }
      var ok, made := q.WriteBack(frame);
      c := Call(op, made);
    case Read =>
      buffer := q.ReadFront();
      c := Call(op, None);
    case Clear =>
      q.Clear();
      c := Call(op, None);
  }

  lemma ValidIsHeld(q: FrameQueue)
    requires q.Valid()
    ensures Held(q.State())
  {
    ConsistentYields(q.State(), q.capacity, q.bufferSize);
  }

  /** Only a full queue can make a write unsafe. */
  lemma RoomIsWritable(q: FrameQueue, f: Fragment)
    requires q.Valid() && |q.queue| < q.capacity
    ensures q.Writable(Some(f))
    ensures Takes(q.State(), f, q.bufferSize) ==> q.free != []
  {
    RoomIsSafe(q.State(), f, q.capacity, q.bufferSize);
    WritableIsNotStuck(q, f);
  }

  /** Makes the calls in order, copying out every frame as it is read, up to the first write whose
      eviction loop would run dry, which takes a full queue.  `pools` and `calls` are the run they
      make. */
  method Drive(q: FrameQueue, ops: seq<Op>)
    returns (done: nat, delivered: seq<Frame>,
             ghost pools: seq<Pool<FrameBuffer>>, ghost calls: seq<Call<FrameBuffer>>)
    requires q.Valid()
    modifies q.Footprint()
    ensures q.Valid() && q.capacity == old(q.capacity) && q.bufferSize == old(q.bufferSize)
    ensures fresh(q.Footprint() - old(q.Footprint()))
    ensures |calls| == done <= |ops| && forall i :: 0 <= i < done ==> calls[i].op == ops[i]
    ensures done < |ops| ==> ops[done].Write? && !q.Writable(ops[done].frame) && |q.queue| >= q.capacity
    ensures Log(old(q.State()), pools, calls, q.State(), delivered, q.bufferSize)
  {
    hide Log, CanCall, Called, FrameQueue.Valid, FrameQueue.Writable;
    done, delivered, pools, calls := 0, [], [q.State()], [];
    ValidIsHeld(q);
    LogStarts(q.State(), q.bufferSize);
    while done < |ops| && (ops[done].Write? ==> q.Writable(ops[done].frame))
      invariant q.Valid() && q.capacity == old(q.capacity) && q.bufferSize == old(q.bufferSize)
      invariant fresh(q.Footprint() - old(q.Footprint()))
      invariant |calls| == done <= |ops| && forall i :: 0 <= i < done ==> calls[i].op == ops[i]
      invariant Log(old(q.State()), pools, calls, q.State(), delivered, q.bufferSize)
    {
      ghost var before, soFar := q.State(), delivered;
      var buffer, c := Perform(q, ops[done]);
      if buffer != null {
        delivered := delivered + [Frame(buffer.data[..buffer.length], buffer.flags)];
      }
      ValidIsHeld(q);
      LogGrows(old(q.State()), pools, calls, before, c, q.State(), soFar, q.bufferSize);
      assert delivered == soFar + Delivers(before, c);
      pools, calls, done := pools + [q.State()], calls + [c], done + 1;
    }
    if done < |ops| {
      FullIfNotWritable(q, ops[done].frame);
    }
  }

  lemma FullIfNotWritable(q: FrameQueue, frame: Option<Fragment>)
    requires q.Valid() && !q.Writable(frame)
    ensures |q.queue| >= q.capacity
  {
    if |q.queue| < q.capacity {
      RoomIsWritable(q, frame.value);
    }
  }

  /** From initialisation on: the frames that left the queue and those in it are the frames of what
      was written; and without clears the former are those copied out. */
  method DriveNew(q: FrameQueue, ops: seq<Op>)
    returns (done: nat, delivered: seq<Frame>,
             ghost pools: seq<Pool<FrameBuffer>>, ghost calls: seq<Call<FrameBuffer>>)
    requires q.Valid() && Initial(q.State(), q.capacity, q.bufferSize)
    modifies q.Footprint()
    ensures q.Valid() && q.capacity == old(q.capacity) && q.bufferSize == old(q.bufferSize)
    ensures |calls| == done <= |ops| && forall i :: 0 <= i < done ==> calls[i].op == ops[i]
    ensures Run(pools, calls, q.bufferSize) && pools[0] == old(q.State()) && pools[done] == q.State()
    ensures Held(q.State())
    ensures q.departed + Show(q.queue, q.image) == Frames(Written(calls), q.bufferSize)
    ensures (forall i :: 0 <= i < done ==> !ops[i].Clear?) ==> q.departed == delivered
    ensures done < |ops| ==> ops[done].Write? && !q.Writable(ops[done].frame) && |q.queue| >= q.capacity
  {
    hide Consistent, CanCall, Called, FrameQueue.Valid, Frames;
    done, delivered, pools, calls := Drive(q, ops);
    RunYieldsFrames(pools, calls, q.capacity, q.bufferSize);
    if forall i :: 0 <= i < done ==> !ops[i].Clear? {
      DepartedIsDelivered(pools, calls, q.bufferSize);
      assert [] + delivered == delivered;
    }
  }

  /** A frame read while `k` permanent buffers are free holds what it held until later writes, `pools`
      and `calls` being the run they are part of, have taken more than `k`. */
  method ReadThenDrive(q: FrameQueue, ops: seq<Op>)
    returns (buffer: FrameBuffer?, ghost pools: seq<Pool<FrameBuffer>>, ghost calls: seq<Call<FrameBuffer>>)
    requires q.Valid() && q.queue != []
    modifies q.Footprint()
    ensures q.Valid() && Held(old(q.State()))
    ensures Run(pools, calls, q.bufferSize) && pools[0] == Depart(old(q.State())) && pools[|calls|] == q.State()
    ensures buffer == old(q.queue)[0]
    ensures Taken(pools, calls, q.bufferSize) <= PermanentIn(old(q.free), old(q.permanent)) ==>
              buffer.Valid() && buffer.Content() == old(q.image)[buffer]
  {
    hide Run, Taken, CanCall, PermanentIn, FrameQueue.Valid, Delivered, Consistent;
    ghost var start, c, done, delivered := q.State(), Call(Read, None), 0, [];
    ValidIsHeld(q);
    buffer, c := Perform(q, Read);
    ValidIsConsistent(q);
    done, delivered, pools, calls := Drive(q, ops);
    if Taken(pools, calls, q.bufferSize) <= PermanentIn(start.free, start.permanent) {
      ReadFrameStaysAnyway(start, pools, calls, q.capacity, q.bufferSize);
      FrameIsStored(q, buffer);
    }
  }

  lemma ValidIsConsistent(q: FrameQueue)
    requires q.Valid()
    ensures Consistent(q.State(), q.capacity, q.bufferSize)
  {
  }

  lemma FrameIsStored(q: FrameQueue, b: FrameBuffer)
    requires q.Valid() && b in q.image
    ensures b.Valid() && b.Content() == q.image[b]
  {
    assert q.StoredAt(b);
  }

  /** Any new queue with at least one buffer can be brought to where the next write runs dry. */
  method RunDry(q: FrameQueue, f: Fragment)
    requires q.Valid() && q.capacity > 0 && Initial(q.State(), q.capacity, q.bufferSize)
    requires IsWhole(f, q.bufferSize)
    modifies q.Footprint()
    ensures q.Valid() && !q.Writable(Some(f))
  {
    hide Initial, Run, CanCall, FrameQueue.Valid, FrameQueue.Writable, Stuck, IsWhole;
    ghost var pools, calls := [q.State()], [];
    var done, delivered;
    done, delivered, pools, calls := Drive(q, UnderflowOps(f, q.capacity));
    UnderflowIsCertain(pools, calls, f, q.capacity, q.bufferSize);
    WritableIsNotStuck(q, f);
  }

  /** A writer that asks for the size first: it never runs the loop dry and never makes a temporary,
      though it may delete some. */
  method WritePaced(q: FrameQueue, f: Fragment) returns (written: bool, ok: bool)
    requires q.Valid()
    modifies q.Footprint()
    ensures q.Valid() && fresh(q.Footprint() - old(q.Footprint()))
    ensures q.capacity == old(q.capacity) && q.bufferSize == old(q.bufferSize)
    ensures written <==> |old(q.queue)| < q.capacity
    ensures written ==>
              ok == (Kept(AssembleAll(old(q.writes) + [f], q.bufferSize))
                     == Kept(AssembleAll(old(q.writes), q.bufferSize)) + f.data)
    ensures written ==> Wrote(old(q.State()), f, q.bufferSize, None, q.State())
    ensures !written ==> !ok && q.State() == old(q.State())
    ensures old(NoTemporaries(q.State())) ==> NoTemporaries(q.State()) && q.Footprint() == old(q.Footprint())
  {
    hide Consistent, Wrote, FrameQueue.Stored, AssembleAll, Accepts, Kept;
    var n := q.Size();
    if n >= q.capacity {
      return false, false;
    }
    RoomIsWritable(q, f);
    ghost var before := q.State();
    ghost var made;
    ok, made := q.WriteBack(Some(f));
    if NoTemporaries(before) {
      WriteKeepsPermanent(before, f, q.State(), q.capacity, q.bufferSize);
    }
    written := true;
  }
}
