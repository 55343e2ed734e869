/** The encoder's frame buffers: a pool of byte arrays that move between a free list, one pending
    group and the queue of finished frames. */
module FrameQueues {
  import opened BufferPool
  import opened Common
  import opened FrameGrouping

  /** `size_t` on the 32-bit target, and the largest object `malloc` can return there. */
  const SIZE_MODULUS: nat := 0x1_0000_0000
  const MAX_OBJECT: nat := 0x7FFF_FFFF

  class FrameBuffer {
    const temporary: bool
    const data: array<uint8>
    var flags: uint8
    var length: nat

    ghost predicate Valid()
      reads this
    {
      length <= data.Length
    }

    ghost function Content(): Frame
      requires Valid()
      reads this, data
    {
      Frame(data[..length], flags)
    }

    constructor (capacity: nat, temporary: bool)
      ensures Valid() && fresh(data)
      ensures data.Length == capacity && this.temporary == temporary
      ensures Content() == Frame([], 0)
    {
      data := new uint8[capacity];
      length := 0;
      flags := 0;
      this.temporary := temporary;
    }

    predicate IsFrameEnd()
      reads this
    {
      FrameGrouping.IsFrameEnd(flags)
    }

    predicate IsConfig()
      reads this
    {
      FrameGrouping.IsConfig(flags)
    }

    method Reset()
      modifies this
      ensures Valid() && Content() == Frame([], 0)
    {
      flags := 0;
      length := 0;
    }

    method Copy(f: Fragment)
      requires |f.data| <= data.Length
      modifies this, data
      ensures Valid() && Content() == Alone(f)
    {
      flags := LowFlags(f.flags);
      forall i | 0 <= i < |f.data| {
        data[i] := f.data[i];
      }
      length := |f.data|;
    }

    /** The bytes already held stay; the flags become those of the new fragment. */
    method Append(f: Fragment)
      requires Valid() && length + |f.data| <= data.Length
      modifies this, data
      ensures Valid()
      ensures Content() == Frame(old(Content()).data + f.data, LowFlags(f.flags))
    {
      flags := LowFlags(f.flags);
      forall i | 0 <= i < |f.data| {
        data[length + i] := f.data[i];
      }
      length := length + |f.data|;
    }
  }

  class FrameQueue {
    var inited: bool
    var capacity: nat
    var bufferSize: nat
    var queue: seq<FrameBuffer>
    var free: seq<FrameBuffer>
    var pending: seq<FrameBuffer>

    /** The buffers allocated and not deleted yet, with the frame each holds. */
    ghost var image: map<FrameBuffer, Frame>
    /** Which buffer an array of bytes belongs to. */
    ghost var owner: map<array<uint8>, FrameBuffer>
    /** The buffers `Init` made. */
    ghost var permanent: set<FrameBuffer>
    /** Every fragment written, and every frame that has left the queue, since `Init`. */
    ghost var writes: seq<Fragment>
    ghost var departed: seq<Frame>

    ghost function State(): Pool<FrameBuffer>
      reads this
    {
      Pool(pending, free, queue, image, permanent, writes, departed)
    }

    ghost function Footprint(): set<object>
      reads this`image
    {
      {this} + image.Keys + set b <- image :: b.data
    }

    /** A live buffer holds the frame `image` says, in bytes it shares with no other. */
    ghost predicate StoredAt(b: FrameBuffer)
      requires b in image
      reads this`bufferSize, this`image, this`owner, this`permanent, b, b.data
    {
      && b.data.Length == bufferSize && b.Valid() && b.Content() == image[b]
      && b.data in owner && owner[b.data] == b
      && (b.temporary <==> b !in permanent)
    }

    ghost predicate Stored()
      reads this`bufferSize, this`image, this`owner, this`permanent, image.Keys, set b <- image :: b.data
    {
      forall b <- image :: StoredAt(b)
    }

    ghost predicate Valid()
      reads this, image.Keys, set b <- image :: b.data
    {
      inited && bufferSize <= MAX_OBJECT && Stored() && Consistent(State(), capacity, bufferSize)
    }

    /** What a `FrameQueue` satisfies even before `Init`: it owns the buffers it holds. */
    ghost predicate Allocated()
      reads this`pending, this`free, this`queue, this`image
    {
      multiset(pending) + multiset(free) + multiset(queue) == multiset(image.Keys)
    }

    /** The eviction loop of `WriteBack` leaves something to pop. */
    predicate EvictionSafe()
      reads this, free
    {
      free == [] || exists b <- free :: !b.temporary
    }

    /** The default constructor sets none of the scalar members. */
    constructor (indeterminate: bool, capacity: nat, bufferSize: nat)
      ensures Allocated() && image == map[]
    {
      inited, this.capacity, this.bufferSize := indeterminate, capacity, bufferSize;
      queue, free, pending := [], [], [];
      image, owner, permanent, writes, departed := map[], map[], {}, [], [];
    }

    /** `delete buffer`: only a live buffer may be deleted. */
    ghost method Delete(b: FrameBuffer)
      requires b in image
      modifies this`image
      ensures image == old(image) - {b}
    {
      image := image - {b};
    }

    method Destroy()
      requires Allocated()
      modifies this`image, this`pending, this`free, this`queue
      ensures image == map[] && pending == [] && free == [] && queue == []
    {
      for i := 0 to |pending|
        invariant multiset(pending[i..]) + (multiset(free) + multiset(queue)) == multiset(image.Keys)
      {
        Released(pending[i..], multiset(free) + multiset(queue), image.Keys);
        Delete(pending[i]);
        assert pending[i..][1..] == pending[i + 1..];
      }
      pending := [];
      for i := 0 to |free|
        invariant multiset(free[i..]) + multiset(queue) == multiset(image.Keys)
      {
        Released(free[i..], multiset(queue), image.Keys);
        Delete(free[i]);
        assert free[i..][1..] == free[i + 1..];
      }
      free := [];
      for i := 0 to |queue|
        invariant multiset(queue[i..]) + multiset{} == multiset(image.Keys)
      {
        Released(queue[i..], multiset{}, image.Keys);
        Delete(queue[i]);
        assert queue[i..][1..] == queue[i + 1..];
      }
      queue := [];
      assert forall b <- image :: multiset(image.Keys)[b] == 1;
    }

    /** Deletes whatever the queue holds and starts an empty stream with `newCapacity` buffers. */
    method Init(newCapacity: nat, newBufferSize: nat)
      requires Allocated() && newBufferSize <= MAX_OBJECT
      modifies this
      ensures Valid() && NoTemporaries(State())
      ensures fresh(image.Keys) && fresh(owner.Keys)
      ensures capacity == newCapacity && bufferSize == newBufferSize
      ensures |free| == capacity && pending == [] && queue == []
      ensures writes == [] && departed == []
    {
      hide *;
      Restart(newCapacity, newBufferSize);
      FillFreeList();
      FilledIsValid();
    }

    method Restart(newCapacity: nat, newBufferSize: nat)
      requires Allocated()
      modifies this
      ensures inited && capacity == newCapacity && bufferSize == newBufferSize && Filling(0)
    {
      hide *;
      capacity := newCapacity;
      bufferSize := newBufferSize;
      inited := true;
      Destroy();
      owner, permanent, writes, departed := map[], {}, [], [];
      NothingFilled();
    }

    lemma NothingFilled()
      requires image == map[] && owner == map[] && permanent == {} && free == pending == queue == []
      requires writes == [] && departed == []
      ensures Filling(0)
    {
      NewIsConsistent<FrameBuffer>(bufferSize);
    }

    lemma FilledIsValid()
      requires inited && bufferSize <= MAX_OBJECT && Filling(capacity)
      ensures Valid() && NoTemporaries(State())
      ensures |free| == capacity && pending == [] && queue == [] && writes == [] && departed == []
    {
    }

    method FillFreeList()
      requires Filling(0)
      modifies this`free, this`image, this`owner, this`permanent
      ensures Filling(capacity)
      ensures fresh(image.Keys) && fresh(owner.Keys)
    {
      assert image.Keys == {} && owner.Keys == {};
      hide Filling;
      for index := 0 to capacity
        invariant Filling(index) && fresh(image.Keys) && fresh(owner.Keys)
      {
        AddNewBuffer(index);
      }
    }

    method AddNewBuffer(ghost n: nat)
      requires Filling(n)
      modifies this`free, this`image, this`owner, this`permanent
      ensures Filling(n + 1)
      ensures fresh(image.Keys - old(image.Keys)) && fresh(owner.Keys - old(owner.Keys))
    {
      hide Filling;
      var buffer := new FrameBuffer(bufferSize, false);
      AddBuffer(buffer, n);
    }

    /** `Init` has put `n` buffers on the free list so far. */
    ghost predicate Filling(n: nat)
      reads this, image.Keys, set b <- image :: b.data
    {
      && Stored() && permanent == image.Keys && (n == 0 ==> image == map[] && owner == map[])
      && |free| == n && pending == [] && queue == []
      && writes == [] && departed == [] && Consistent(State(), n, bufferSize)
    }

    /** Takes a new, empty buffer into account; it goes into no container yet. */
    method Adopt(buffer: FrameBuffer)
      requires Stored() && buffer !in image && buffer.data !in owner && buffer !in permanent
      requires buffer.data.Length == bufferSize && buffer.Valid() && buffer.Content() == Frame([], 0)
      modifies this`image, this`owner, this`permanent
      ensures Stored() && image == old(image)[buffer := Frame([], 0)] && owner == old(owner)[buffer.data := buffer]
      ensures permanent == if buffer.temporary then old(permanent) else old(permanent) + {buffer}
    {
      permanent := if buffer.temporary then permanent else permanent + {buffer};
      image := image[buffer := Frame([], 0)];
      owner := owner[buffer.data := buffer];
      forall b <- image ensures StoredAt(b) {
        assert b != buffer ==> old(b in image && StoredAt(b));
      }
    }

    method AddBuffer(buffer: FrameBuffer, ghost n: nat)
      requires Filling(n)
      requires buffer !in image && buffer.data !in owner && !buffer.temporary
      requires buffer.data.Length == bufferSize && buffer.Valid() && buffer.Content() == Frame([], 0)
      modifies this`free, this`image, this`owner, this`permanent
      ensures Filling(n + 1) && image.Keys == old(image.Keys) + {buffer}
      ensures owner.Keys == old(owner.Keys) + {buffer.data}
    {
      hide Consistent, Stored;
      EnrolKeeps(State(), buffer, Frame([], 0), n, bufferSize);
      Adopt(buffer);
      free := free + [buffer];
    }

    method Size() returns (n: nat)
      ensures n == |queue|
    {
      n := |queue|;
    }

    /** The front of the queue moves to the back of the free list. */
    method FreeFront() returns (buffer: FrameBuffer)
      requires Valid() && queue != []
      modifies this`queue, this`free, this`departed
      ensures Valid() && State() == Depart(old(State())) && buffer == old(queue)[0] && buffer.Valid()
      ensures departed == old(departed) + [buffer.Content()]
    {
      hide Consistent;
      DepartKeeps(State(), capacity, bufferSize);
      buffer := queue[0];
      departed := departed + [image[buffer]];
      queue := queue[1..];
      free := free + [buffer];
    }

    /** Hands out the front frame; its buffer is free again at once, at the back of the list. */
    method ReadFront() returns (buffer: FrameBuffer?)
      requires Valid()
      modifies this`queue, this`free, this`departed
      ensures Valid()
      ensures buffer == null <==> old(queue) == []
      ensures buffer == null ==> State() == old(State())
      ensures buffer != null ==>
                && buffer.Valid() && old(queue)[0] == buffer && State() == Depart(old(State()))
                && departed == old(departed) + [buffer.Content()]
    {
      if queue == [] {
        return null;
      }
      buffer := FreeFront();
    }

    /** Takes every queued frame out, unread. */
    method Clear()
      requires Valid()
      modifies this`queue, this`free, this`departed
      ensures Valid()
      ensures State() == DepartAll(old(State()))
    {
      while queue != []
        invariant Valid()
        invariant DepartAll(State()) == DepartAll(old(State()))
      {
        DepartAllStep(State());
        var _ := FreeFront();
      }
    }

    method EvictFront()
      requires Valid() && free != [] && free[0].temporary
      modifies this`free, this`image
      ensures Valid() && State() == Evict(old(State())) && image.Keys <= old(image).Keys
    {
      hide Consistent;
      EvictKeeps(State(), capacity, bufferSize);
      var buffer := free[0];
      free := free[1..];
      Delete(buffer);
    }

    lemma LiveIsStored(b: FrameBuffer)
      requires Stored() && b in image
      ensures StoredAt(b)
    {
    }

    lemma FreeIsStored(b: FrameBuffer)
      requires Valid() && b in free
      ensures b in image && StoredAt(b)
    {
      OwnedIsLive(State(), b);
    }

    /** The eviction loop: temporaries at the head of the free list are deleted.  A buffer is left
        to pop exactly when the list held a permanent one. */
    method EvictTemporaries()
      requires Valid() && free != []
      modifies this`free, this`image
      ensures Valid() && State() == EvictAll(old(State())) && image.Keys <= old(image).Keys
      ensures free != [] <==> old(EvictionSafe())
    {
      hide Consistent;
      while |free| >= 1 && free[0].temporary
        invariant Valid() && EvictAll(State()) == EvictAll(old(State())) && image.Keys <= old(image).Keys
        invariant (exists b <- free :: !b.temporary) <==> old(EvictionSafe())
      {
        ghost var list := free;
        assert list == [free[0]] + list[1..];
        FreeIsStored(free[0]);
        EvictFront();
      }
      if free != [] {
        FreeIsStored(free[0]);
      }
    }

    method LoadInto(buffer: FrameBuffer, f: Fragment)
      requires Stored() && buffer in image && |f.data| <= bufferSize
      modifies this`image, buffer, buffer.data
      ensures Stored() && buffer.flags == LowFlags(f.flags) && image == old(image)[buffer := Alone(f)]
    {
      buffer.Reset();
      buffer.Copy(f);
      image := image[buffer := Alone(f)];
      forall b <- image ensures StoredAt(b) {
        assert old(StoredAt(b)) && (b != buffer ==> b.data != buffer.data);
      }
    }

    method AppendInto(buffer: FrameBuffer, f: Fragment)
      requires Stored() && buffer in image && |image[buffer].data| + |f.data| <= bufferSize
      modifies this`image, buffer, buffer.data
      ensures Stored() && buffer.flags == LowFlags(f.flags)
      ensures image == old(image)[buffer := Frame(old(image)[buffer].data + f.data, LowFlags(f.flags))]
    {
      buffer.Append(f);
      image := image[buffer := Frame(image[buffer].data + f.data, LowFlags(f.flags))];
      forall b <- image ensures StoredAt(b) {
        assert old(StoredAt(b)) && (b != buffer ==> b.data != buffer.data);
      }
    }

    /** The state with `buffer`, which is in no container, counted as the head of the free list. */
    ghost function Holding(buffer: FrameBuffer): Pool<FrameBuffer>
      reads this
    {
      State().(free := [buffer] + free)
    }

    /** A new temporary buffer, as good as at the head of the free list. */
    method AdoptTemporary(buffer: FrameBuffer)
      requires Valid() && buffer !in image && buffer.data !in owner && buffer.temporary
      requires buffer.data.Length == bufferSize && buffer.Valid() && buffer.Content() == Frame([], 0)
      modifies this`image, this`owner, this`permanent
      ensures Stored() && Holding(buffer) == Create(old(State()), buffer, Frame([], 0))
      ensures Consistent(Holding(buffer), capacity, bufferSize)
      ensures image.Keys == old(image).Keys + {buffer} && owner.Keys == old(owner).Keys + {buffer.data}
    {
      hide Consistent, Stored;
      CreateKeeps(State(), buffer, Frame([], 0), capacity, bufferSize);
      Adopt(buffer);
    }

    /** Writes into `buffer` and puts it where the fragment's flags say. */
    method Fill(buffer: FrameBuffer, f: Fragment)
      requires inited && bufferSize <= MAX_OBJECT && Stored()
      requires Consistent(Holding(buffer), capacity, bufferSize)
      requires NeedsBuffer(AssembleAll(writes, bufferSize), f, bufferSize)
      modifies this`pending, this`queue, this`image, this`writes, buffer, buffer.data
      ensures Valid() && State() == BufferPool.Fill(old(Holding(buffer)), f)
      ensures image.Keys == old(image).Keys
    {
      hide Consistent, Stored;
      FillKeeps(Holding(buffer), f, capacity, bufferSize);
      assert Holding(buffer).free[1..] == free;
      LoadInto(buffer, f);
      writes := writes + [f];
      if buffer.IsConfig() {
        pending := pending + [buffer];
      } else {
        queue := queue + [buffer];
      }
    }

    /** The open group no longer fits. */
    method DropPending(f: Fragment)
      requires Valid() && pending != [] && !IsSkipped(f, bufferSize)
      requires Overflows(AssembleAll(writes, bufferSize), f, bufferSize)
      modifies this`free, this`pending, this`writes
      ensures Valid() && State() == Drop(old(State()), f)
    {
      hide Consistent;
      DropKeeps(State(), f, capacity, bufferSize);
      free := free + [pending[0]];
      pending := [];
      writes := writes + [f];
    }

    method GrowPending(buffer: FrameBuffer, f: Fragment)
      requires Valid() && pending == [buffer] && !IsSkipped(f, bufferSize)
      requires !Overflows(AssembleAll(writes, bufferSize), f, bufferSize)
      modifies this`pending, this`queue, this`image, this`writes, buffer, buffer.data
      ensures Valid() && State() == Grow(old(State()), f) && image.Keys == old(image).Keys
    {
      hide Consistent, Stored;
      GrowKeeps(State(), f, capacity, bufferSize);
      AppendInto(buffer, f);
      writes := writes + [f];
      if buffer.IsFrameEnd() {
        pending := [];
        queue := queue + [buffer];
      }
    }

    method WritePending(f: Fragment) returns (ok: bool)
      requires Valid() && pending != [] && !IsSkipped(f, bufferSize)
      modifies Footprint()
      ensures Valid() && Wrote(old(State()), f, bufferSize, None, State())
      ensures ok == Accepts(AssembleAll(old(writes), bufferSize), f, bufferSize)
      ensures capacity == old(capacity) && bufferSize == old(bufferSize)
      ensures image.Keys == old(image).Keys && owner == old(owner)
    {
      hide Consistent, Wrote, Stored, Drop, Grow, AssembleAll;
      WrotePending(State(), f, capacity, bufferSize);
      var buffer := pending[|pending| - 1];
      LiveIsStored(buffer);
      if (buffer.length + |f.data|) % SIZE_MODULUS > bufferSize {
        DropPending(f);
        ok := false;
      } else {
        GrowPending(buffer, f);
        ok := true;
      }
    }

    method TakeFree() returns (buffer: FrameBuffer)
      requires Valid() && free != [] && EvictionSafe()
      modifies this`free, this`image
      ensures Stored() && Holding(buffer) == EvictAll(old(State()))
      ensures Consistent(Holding(buffer), capacity, bufferSize)
      ensures buffer in image && image.Keys <= old(image).Keys
    {
      hide Stored, Consistent, EvictAll;
      EvictTemporaries();
      FreeIsStored(free[0]);
      buffer := free[0];
      assert free == [buffer] + free[1..];
      free := free[1..];
    }

    /** The buffer to write into: a new temporary if none is free, else the first permanent one. */
    method Acquire(ghost f: Fragment) returns (buffer: FrameBuffer, ghost made: Option<FrameBuffer>)
      requires Valid() && Takes(State(), f, bufferSize) && EvictionSafe()
      modifies this`free, this`image, this`owner, this`permanent
      ensures Stored() && Holding(buffer) == Prepare(old(State()), f, bufferSize, made)
      ensures Consistent(Holding(buffer), capacity, bufferSize)
      ensures made.Some? <==> old(free) == []
      ensures made.Some? ==> made.value !in old(image)
      ensures buffer in image && fresh(Footprint() - old(Footprint()))
    {
      hide Stored, Consistent, Create, EvictAll;
      if free == [] {
        buffer := new FrameBuffer(bufferSize, true);
        AdoptTemporary(buffer);
        made := Some(buffer);
      } else {
        buffer := TakeFree();
        made := None;
      }
    }

    method WriteFree(f: Fragment) returns (ghost made: Option<FrameBuffer>)
      requires Valid() && Takes(State(), f, bufferSize) && EvictionSafe()
      modifies Footprint()
      ensures Valid() && Wrote(old(State()), f, bufferSize, made, State())
      ensures made.Some? <==> old(free) == []
      ensures made.Some? ==> made.value !in old(image)
      ensures Accepts(AssembleAll(old(writes), bufferSize), f, bufferSize)
      ensures fresh(Footprint() - old(Footprint()))
      ensures capacity == old(capacity) && bufferSize == old(bufferSize)
    {
      hide Stored, Consistent, Prepare, Wrote;
      ghost var before := State();
      var buffer;
      buffer, made := Acquire(f);
      WroteTaken(before, f, made, capacity, bufferSize);
      Fill(buffer, f);
    }

    /** Writing `frame` finds something to pop whenever it pops the free list. */
    predicate Writable(frame: Option<Fragment>)
      reads this, free
    {
      frame.Some? && !IsSkipped(frame.value, bufferSize) && pending == [] ==> EvictionSafe()
    }

    /** `made` is the temporary buffer created, if any. */
    method WriteBack(frame: Option<Fragment>) returns (ok: bool, ghost made: Option<FrameBuffer>)
      requires Valid() && Writable(frame)
      modifies Footprint()
      ensures Valid() && capacity == old(capacity) && bufferSize == old(bufferSize)
      ensures fresh(Footprint() - old(Footprint()))
      ensures frame.None? ==> !ok && made.None? && State() == old(State())
      ensures frame.Some? ==> ok == Accepts(AssembleAll(old(writes), bufferSize), frame.value, bufferSize)
      ensures frame.Some? ==>
                ok == (Kept(AssembleAll(old(writes) + [frame.value], bufferSize))
                       == Kept(AssembleAll(old(writes), bufferSize)) + frame.value.data)
      ensures frame.Some? ==> Wrote(old(State()), frame.value, bufferSize, made, State())
      ensures made.Some? <==> frame.Some? && Takes(old(State()), frame.value, bufferSize) && old(free) == []
      ensures made.Some? ==> made.value !in old(image)
    {
      hide Stored, Consistent, Wrote, Kept, AssembleAll;
      made := None;
      if !inited || frame.None? {
        return false, None;
      }
      var f := frame.value;
      AnswerMeansKept(writes, f, bufferSize);
      if |f.data| == 0 && f.flags == 0 {
        WroteSkipped(State(), f, capacity, bufferSize);
        writes := writes + [f];
        return true, None;
      }
      if |f.data| > bufferSize {
        WroteSkipped(State(), f, capacity, bufferSize);
        writes := writes + [f];
        return false, None;
      }
      if pending != [] {
        ok := WritePending(f);
        return;
      }
      made := WriteFree(f);
      ok := true;
    }
  }
}
