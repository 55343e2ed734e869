/** The streaming callback: every encoder buffer is written to the frame queue, and one frame is
    read back at once. */
module CameraStream {
  import opened BufferPool
  import opened Common
  import opened FrameGrouping
  import opened FrameQueues
  import PoolRuns
  import QueueCalls

  /** What holds between two callbacks. */
  ghost predicate Idle(q: FrameQueue)
    reads q, q.image.Keys, set b <- q.image :: b.data
  {
    q.Valid() && NoTemporaries(q.State()) && q.queue == [] && q.capacity >= 1
  }

  /** After a write into an idle queue at most one frame is queued, and still no temporary exists. */
  lemma IdleWrite<B>(p: Pool<B>, f: Fragment, q: Pool<B>, capacity: nat, bufferSize: nat)
    requires Consistent(p, capacity, bufferSize) && NoTemporaries(p) && p.queue == [] && capacity >= 1
    requires Wrote(p, f, bufferSize, None, q)
    ensures NoTemporaries(q) && |q.queue| <= 1 && q.writes == p.writes + [f] && q.departed == p.departed
    ensures q.image.Keys == p.image.Keys
  {
    PoolRuns.WriteKeepsPermanent(p, f, q, capacity, bufferSize);
    PoolRuns.WroteKeeps(p, f, None, q, capacity, bufferSize);
    PoolRuns.WriteDepartsNothing(p, f, None, q, bufferSize);
    PoolRuns.NothingToEvict(p);
  }

  lemma EmptyQueueYields<B>(p: Pool<B>, capacity: nat, bufferSize: nat)
    requires Consistent(p, capacity, bufferSize) && p.queue == []
    ensures p.departed == AssembleAll(p.writes, bufferSize).emitted
  {
  }

  /** One callback: no temporary is ever made, and the frame the fragment completes, if any, is
      read back in the same callback. */
  method OnCamBuffer(q: FrameQueue, f: Fragment) returns (buffer: FrameBuffer?)
    requires Idle(q)
    modifies q.Footprint()
    ensures Idle(q) && q.capacity == old(q.capacity) && q.bufferSize == old(q.bufferSize)
    ensures q.Footprint() == old(q.Footprint())
    ensures q.writes == old(q.writes) + [f]
    ensures q.departed == AssembleAll(q.writes, q.bufferSize).emitted
    ensures buffer == null ==> q.departed == old(q.departed)
    ensures buffer != null ==> buffer.Valid() && q.departed == old(q.departed) + [buffer.Content()]
  {
    hide Consistent, Wrote, FrameQueue.Stored;
    QueueCalls.RoomIsWritable(q, f);
    ghost var before := q.State();
    var _, made := q.WriteBack(Some(f));
    assert made.None?;
    IdleWrite(before, f, q.State(), q.capacity, q.bufferSize);
    buffer := q.ReadFront();
    EmptyQueueYields(q.State(), q.capacity, q.bufferSize);
  }

  /** The stream written so far has been read back frame by frame. */
  ghost predicate Recorded(q: FrameQueue, written: seq<Fragment>, delivered: seq<Frame>, capacity: nat, bufferSize: nat)
    reads q, q.image.Keys, set b <- q.image :: b.data
  {
    && Idle(q) && q.capacity == capacity && q.bufferSize == bufferSize
    && q.writes == written && q.departed == delivered == AssembleAll(written, bufferSize).emitted
  }

  /** One more buffer, with the frame it completes copied out at once. */
  method RecordOne(q: FrameQueue, f: Fragment, delivered: seq<Frame>, ghost written: seq<Fragment>)
    returns (more: seq<Frame>)
    requires Recorded(q, written, delivered, q.capacity, q.bufferSize)
    modifies q.Footprint()
    ensures Recorded(q, written + [f], more, old(q.capacity), old(q.bufferSize))
    ensures q.capacity == old(q.capacity) && q.bufferSize == old(q.bufferSize)
    ensures q.Footprint() == old(q.Footprint())
  {
    hide Idle, AssembleAll;
    var buffer := OnCamBuffer(q, f);
    more := if buffer == null then delivered else delivered + [Frame(buffer.data[..buffer.length], buffer.flags)];
  }

  lemma NothingRecorded(q: FrameQueue)
    requires Idle(q) && q.writes == [] && q.departed == []
    ensures Recorded(q, [], [], q.capacity, q.bufferSize)
  {
    hide Idle;
  }

  lemma RecordedFrames(q: FrameQueue, written: seq<Fragment>, delivered: seq<Frame>, capacity: nat, bufferSize: nat)
    requires Recorded(q, written, delivered, capacity, bufferSize)
    ensures delivered == Frames(written, bufferSize)
  {
    hide Idle;
    FoldIsGrammar(written, bufferSize);
  }

  /** A whole recording: the frames read back, with the bytes they had when read, are the frames of
      the encoder's stream. */
  method Record(q: FrameQueue, fragments: seq<Fragment>) returns (delivered: seq<Frame>)
    requires Idle(q) && q.writes == [] && q.departed == []
    modifies q.Footprint()
    ensures Recorded(q, fragments, delivered, old(q.capacity), old(q.bufferSize))
    ensures delivered == Frames(fragments, old(q.bufferSize))
  {
    hide Idle, Recorded, Frames;
    delivered := [];
    NothingRecorded(q);
    for i := 0 to |fragments|
      invariant q.Footprint() == old(q.Footprint())
      invariant q.capacity == old(q.capacity) && q.bufferSize == old(q.bufferSize)
      invariant Recorded(q, fragments[..i], delivered, q.capacity, q.bufferSize)
    {
      delivered := RecordOne(q, fragments[i], delivered, fragments[..i]);
      assert fragments[..i + 1] == fragments[..i] + [fragments[i]];
    }
    assert fragments[..|fragments|] == fragments;
    RecordedFrames(q, fragments, delivered, q.capacity, q.bufferSize);
  }
}
