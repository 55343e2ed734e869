/** Who holds which frame buffer, as values: the moves `FrameQueue` makes between its three
    containers and the invariant they all keep.  `B` is the type of buffer identities. */
module BufferPool {
  import opened Common
  import opened FrameGrouping

  /** `image` gives every live buffer its current frame; `permanent` are the live buffers that are
      not temporary.  `writes` is the stream written so far and `departed` the frames that have
      left the queue, both since the queue was initialised. */
  datatype Pool<!B> = Pool(
    pending: seq<B>,
    free: seq<B>,
    queue: seq<B>,
    image: map<B, Frame>,
    permanent: set<B>,
    writes: seq<Fragment>,
    departed: seq<Frame>)

  ghost predicate Within<B>(s: seq<B>, image: map<B, Frame>) {
    forall i :: 0 <= i < |s| ==> s[i] in image
  }

  /** The frames held by a container, in order. */
  ghost function Show<B>(s: seq<B>, image: map<B, Frame>): (frames: seq<Frame>)
    requires Within(s, image)
    ensures |frames| == |s| && forall i :: 0 <= i < |s| ==> frames[i] == image[s[i]]
  {
    seq(|s|, i requires 0 <= i < |s| => image[s[i]])
  }

  /** The three containers together hold every live buffer once, and nothing else. */
  ghost predicate Owned<B>(p: Pool<B>) {
    multiset(p.pending) + multiset(p.free) + multiset(p.queue) == multiset(p.image.Keys)
  }

  ghost predicate Counted<B>(p: Pool<B>, capacity: nat) {
    p.permanent <= p.image.Keys && |p.permanent| == capacity
  }

  ghost predicate Fits<B>(p: Pool<B>, bufferSize: nat) {
    forall b <- p.image :: |p.image[b].data| <= bufferSize
  }

  ghost predicate Held<B>(p: Pool<B>) {
    Within(p.pending, p.image) && Within(p.queue, p.image)
  }

  /** What was taken out, followed by what is queued, is what the stream written yields; the
      pending buffer holds the open group. */
  ghost predicate Refines<B>(p: Pool<B>, bufferSize: nat) {
    var a := AssembleAll(p.writes, bufferSize);
    && Held(p)
    && p.departed + Show(p.queue, p.image) == a.emitted
    && |p.pending| == (if a.open.Some? then 1 else 0)
    && (a.open.Some? ==> p.image[p.pending[0]] == a.open.value)
  }

  ghost predicate Consistent<B>(p: Pool<B>, capacity: nat, bufferSize: nat) {
    Owned(p) && Counted(p, capacity) && Fits(p, bufferSize) && Refines(p, bufferSize)
  }

  ghost predicate NoTemporaries<B>(p: Pool<B>) {
    p.image.Keys == p.permanent
  }

  // ---------- ownership ----------

  lemma OwnedIsLive<B>(p: Pool<B>, b: B)
    requires Owned(p)
    ensures b in p.image <==> b in p.pending || b in p.free || b in p.queue
    ensures b in p.pending ==> b !in p.free && b !in p.queue
    ensures b in p.free ==> b !in p.queue
  {
    assert b in p.image <==> multiset(p.image.Keys)[b] == 1;
    assert multiset(p.image.Keys)[b]
        == multiset(p.pending)[b] + multiset(p.free)[b] + multiset(p.queue)[b];
    assert b in p.pending <==> b in multiset(p.pending);
    assert b in p.free <==> b in multiset(p.free);
    assert b in p.queue <==> b in multiset(p.queue);
  }

  /** No container holds a buffer twice. */
  lemma OwnedIsDistinct<B>(p: Pool<B>, s: seq<B>, i: nat, j: nat)
    requires Owned(p) && (s == p.pending || s == p.free || s == p.queue)
    requires i < j < |s|
    ensures s[i] != s[j]
  {
    var head, tail := s[..j], s[j..];
    assert s == head + tail && head[i] == s[i] && tail[0] == s[j];
    assert multiset(s)[s[i]] == multiset(head)[s[i]] + multiset(tail)[s[i]];
    assert multiset(s)[s[i]] <= multiset(p.image.Keys)[s[i]] <= 1;
  }

  lemma {:induction false} CountOwned<B>(live: set<B>)
    ensures |multiset(live)| == |live|
  {
    if live == {} {
    } else {
      var b :| b in live;
      CountOwned(live - {b});
      assert multiset(live) == multiset(live - {b}) + multiset{b};
    }
  }

  /** Without temporaries the three containers share out exactly `capacity` buffers. */
  lemma Occupancy<B>(p: Pool<B>, capacity: nat)
    requires Owned(p) && Counted(p, capacity) && NoTemporaries(p)
    ensures |p.pending| + |p.free| + |p.queue| == capacity
  {
    CountOwned(p.image.Keys);
    assert |multiset(p.pending) + multiset(p.free) + multiset(p.queue)|
        == |p.pending| + |p.free| + |p.queue|;
  }

  /** Deleting the head of a container: it is live, and is in no container afterwards. */
  lemma Released<B>(s: seq<B>, others: multiset<B>, live: set<B>)
    requires s != [] && multiset(s) + others == multiset(live)
    ensures s[0] in live && multiset(s[1..]) + others == multiset(live - {s[0]})
  {
    assert s == [s[0]] + s[1..];
    assert multiset(live)[s[0]] >= 1;
    assert multiset(live - {s[0]}) == multiset(live) - multiset{s[0]};
  }

  // ---------- the moves ----------

  lemma NewIsConsistent<B>(bufferSize: nat)
    ensures Consistent<B>(Pool([], [], [], map[], {}, [], []), 0, bufferSize)
  {
  }

  /** The head of the queue goes to the back of the free list. */
  ghost function Depart<B>(p: Pool<B>): Pool<B>
    requires p.queue != [] && Held(p)
  {
    p.(queue := p.queue[1..],
       free := p.free + [p.queue[0]],
       departed := p.departed + [p.image[p.queue[0]]])
  }

  /** The whole queue goes to the back of the free list. */
  ghost function DepartAll<B>(p: Pool<B>): Pool<B>
    requires Held(p)
  {
    p.(queue := [], free := p.free + p.queue, departed := p.departed + Show(p.queue, p.image))
  }

  lemma DepartShows<B>(queue: seq<B>, image: map<B, Frame>, departed: seq<Frame>)
    requires queue != [] && Within(queue, image)
    ensures departed + Show(queue, image) == (departed + [image[queue[0]]]) + Show(queue[1..], image)
  {
    assert Show(queue, image) == [image[queue[0]]] + Show(queue[1..], image);
  }

  lemma DepartKeeps<B>(p: Pool<B>, capacity: nat, bufferSize: nat)
    requires Consistent(p, capacity, bufferSize) && p.queue != []
    ensures p.queue[0] in p.image && Consistent(Depart(p), capacity, bufferSize)
  {
    assert p.queue == [p.queue[0]] + p.queue[1..];
    DepartShows(p.queue, p.image, p.departed);
  }

  lemma DepartAllStep<B>(p: Pool<B>)
    requires p.queue != [] && Held(p)
    ensures Held(Depart(p)) && DepartAll(Depart(p)) == DepartAll(p)
  {
    DepartShows(p.queue, p.image, p.departed);
    assert (p.free + [p.queue[0]]) + p.queue[1..] == p.free + p.queue;
  }

  /** The head of the free list is deleted. */
  ghost function Evict<B>(p: Pool<B>): Pool<B>
    requires p.free != []
  {
    p.(free := p.free[1..], image := p.image - {p.free[0]})
  }

  lemma EvictKeeps<B>(p: Pool<B>, capacity: nat, bufferSize: nat)
    requires Consistent(p, capacity, bufferSize)
    requires p.free != [] && (p.free[0] in p.image ==> p.free[0] !in p.permanent)
    ensures p.free[0] in p.image && Consistent(Evict(p), capacity, bufferSize)
  {
    var b := p.free[0];
    assert p.free == [b] + p.free[1..];
    OwnedIsLive(p, b);
    assert multiset(Evict(p).image.Keys) == multiset(p.image.Keys) - multiset{b};
    assert Show(p.queue, Evict(p).image) == Show(p.queue, p.image);
  }

  /** A new permanent buffer joins the free list. */
  ghost function Enrol<B>(p: Pool<B>, b: B, x: Frame): Pool<B> {
    p.(free := p.free + [b], image := p.image[b := x], permanent := p.permanent + {b})
  }

  lemma EnrolKeeps<B>(p: Pool<B>, b: B, x: Frame, capacity: nat, bufferSize: nat)
    requires Consistent(p, capacity, bufferSize) && b !in p.image && |x.data| <= bufferSize
    ensures Consistent(Enrol(p, b, x), capacity + 1, bufferSize)
  {
    assert multiset(Enrol(p, b, x).image.Keys) == multiset(p.image.Keys) + multiset{b};
    assert Show(p.queue, Enrol(p, b, x).image) == Show(p.queue, p.image);
  }

  /** A buffer that was not live yet appears at the head of an empty free list. */
  ghost function Create<B>(p: Pool<B>, b: B, x: Frame): Pool<B>
  {
    p.(free := [b] + p.free, image := p.image[b := x])
  }

  lemma CreateKeeps<B>(p: Pool<B>, b: B, x: Frame, capacity: nat, bufferSize: nat)
    requires Consistent(p, capacity, bufferSize) && b !in p.image && |x.data| <= bufferSize
    ensures b !in p.permanent && Consistent(Create(p, b, x), capacity, bufferSize)
  {
    OwnedIsLive(p, b);
    assert multiset(Create(p, b, x).image.Keys) == multiset(p.image.Keys) + multiset{b};
    assert Show(p.queue, Create(p, b, x).image) == Show(p.queue, p.image);
  }

  /** A skipped fragment changes nothing but the history. */
  lemma SkipKeeps<B>(p: Pool<B>, f: Fragment, capacity: nat, bufferSize: nat)
    requires Consistent(p, capacity, bufferSize) && IsSkipped(f, bufferSize)
    ensures Consistent(p.(writes := p.writes + [f]), capacity, bufferSize)
  {
    hide AssembleAll;
    AssembleAllSnoc(p.writes, f, bufferSize);
  }

  /** A fragment written while no group is open goes into the head of the free list. */
  ghost function Fill<B>(p: Pool<B>, f: Fragment): Pool<B>
    requires p.free != []
  {
    var b := p.free[0];
    var q := p.(free := p.free[1..], image := p.image[b := Alone(f)], writes := p.writes + [f]);
    if OpensGroup(f) then q.(pending := q.pending + [b]) else q.(queue := q.queue + [b])
  }

  lemma FillKeepsOwned<B>(p: Pool<B>, f: Fragment)
    requires Owned(p) && p.free != []
    ensures p.free[0] in p.image && Fill(p, f).image.Keys == p.image.Keys && Owned(Fill(p, f))
  {
    var b := p.free[0];
    assert p.free == [b] + p.free[1..];
    OwnedIsLive(p, b);
    assert Fill(p, f).image.Keys == p.image.Keys;
  }

  lemma FillShows<B>(p: Pool<B>, f: Fragment)
    requires Owned(p) && Held(p) && p.free != []
    ensures Within(p.queue, Fill(p, f).image) && Show(p.queue, Fill(p, f).image) == Show(p.queue, p.image)
  {
    OwnedIsLive(p, p.free[0]);
  }

  lemma FillKeeps<B>(p: Pool<B>, f: Fragment, capacity: nat, bufferSize: nat)
    requires Consistent(p, capacity, bufferSize) && p.free != []
    requires NeedsBuffer(AssembleAll(p.writes, bufferSize), f, bufferSize)
    ensures p.free[0] in p.image && Consistent(Fill(p, f), capacity, bufferSize)
  {
    hide AssembleAll, Owned;
    var q := Fill(p, f);
    AssembleAllSnoc(p.writes, f, bufferSize);
    FillKeepsOwned(p, f);
    FillShows(p, f);
    if !OpensGroup(f) {
      assert Show(q.queue, q.image) == Show(p.queue, p.image) + [Alone(f)];
    }
  }

  /** The open group overflows: its buffer goes back to the free list. */
  ghost function Drop<B>(p: Pool<B>, f: Fragment): Pool<B>
    requires p.pending != []
  {
    p.(pending := [], free := p.free + [p.pending[0]], writes := p.writes + [f])
  }

  lemma DropKeeps<B>(p: Pool<B>, f: Fragment, capacity: nat, bufferSize: nat)
    requires Consistent(p, capacity, bufferSize) && p.pending != [] && !IsSkipped(f, bufferSize)
    requires Overflows(AssembleAll(p.writes, bufferSize), f, bufferSize)
    ensures Consistent(Drop(p, f), capacity, bufferSize)
  {
    hide AssembleAll;
    AssembleAllSnoc(p.writes, f, bufferSize);
    assert p.pending == [p.pending[0]];
  }

  /** The fragment is appended to the open group, which is queued when the frame ends. */
  ghost function Grow<B>(p: Pool<B>, f: Fragment): Pool<B>
    requires p.pending != [] && p.pending[0] in p.image
  {
    var b := p.pending[0];
    var x := Frame(p.image[b].data + f.data, LowFlags(f.flags));
    var q := p.(image := p.image[b := x], writes := p.writes + [f]);
    if EndsFrame(f) then q.(pending := [], queue := p.queue + [b]) else q
  }

  lemma GrowKeeps<B>(p: Pool<B>, f: Fragment, capacity: nat, bufferSize: nat)
    requires Consistent(p, capacity, bufferSize) && p.pending != [] && !IsSkipped(f, bufferSize)
    requires !Overflows(AssembleAll(p.writes, bufferSize), f, bufferSize)
    ensures p.pending[0] in p.image && |p.image[p.pending[0]].data| + |f.data| <= bufferSize
    ensures Consistent(Grow(p, f), capacity, bufferSize)
  {
    var b, q := p.pending[0], Grow(p, f);
    hide AssembleAll;
    AssembleAllSnoc(p.writes, f, bufferSize);
    assert p.pending == [b];
    OwnedIsLive(p, b);
    assert q.image.Keys == p.image.Keys;
    assert Show(p.queue, q.image) == Show(p.queue, p.image);
    if EndsFrame(f) {
      assert Show(q.queue, q.image) == Show(p.queue, p.image) + [q.image[b]];
    }
  }

  /** Every temporary at the head of the free list is deleted. */
  ghost function EvictAll<B>(p: Pool<B>): Pool<B>
    decreases |p.free|
  {
    if p.free != [] && p.free[0] !in p.permanent then EvictAll(Evict(p)) else p
  }

  /** Writing a fragment, once a buffer is ready at the head of the free list if one is needed. */
  ghost function Write<B>(p: Pool<B>, f: Fragment, bufferSize: nat): Pool<B>
    requires Held(p) && (!IsSkipped(f, bufferSize) && p.pending == [] ==> p.free != [])
  {
    if IsSkipped(f, bufferSize) then p.(writes := p.writes + [f])
    else if p.pending == [] then Fill(p, f)
    else if |p.image[p.pending[0]].data| + |f.data| > bufferSize then Drop(p, f)
    else Grow(p, f)
  }

  lemma WriteKeeps<B>(p: Pool<B>, f: Fragment, capacity: nat, bufferSize: nat)
    requires Consistent(p, capacity, bufferSize)
    requires !IsSkipped(f, bufferSize) && p.pending == [] ==> p.free != []
    ensures Consistent(Write(p, f, bufferSize), capacity, bufferSize)
    ensures Write(p, f, bufferSize).writes == p.writes + [f]
  {
    if IsSkipped(f, bufferSize) {
      SkipKeeps(p, f, capacity, bufferSize);
    } else if p.pending == [] {
      FillKeeps(p, f, capacity, bufferSize);
    } else if |p.image[p.pending[0]].data| + |f.data| > bufferSize {
      DropKeeps(p, f, capacity, bufferSize);
    } else {
      GrowKeeps(p, f, capacity, bufferSize);
    }
  }

  /** Whether writing `f` takes a buffer out of the free list. */
  predicate Takes<B>(p: Pool<B>, f: Fragment, bufferSize: nat) {
    !IsSkipped(f, bufferSize) && p.pending == []
  }

  /** What `FrameQueue.WriteBack` does before it writes: a buffer is created when none is free,
      temporaries are evicted otherwise. */
  ghost function Prepare<B>(p: Pool<B>, f: Fragment, bufferSize: nat, made: Option<B>): Pool<B> {
    if !Takes(p, f, bufferSize) then p
    else if made.Some? then Create(p, made.value, Frame([], 0))
    else EvictAll(p)
  }

  /** `q` is the state after writing `f` in state `p`. */
  ghost predicate Wrote<B>(p: Pool<B>, f: Fragment, bufferSize: nat, made: Option<B>, q: Pool<B>) {
    var r := Prepare(p, f, bufferSize, made);
    Held(r) && (Takes(p, f, bufferSize) ==> r.free != []) && q == Write(r, f, bufferSize)
  }

  lemma WroteSkipped<B>(p: Pool<B>, f: Fragment, capacity: nat, bufferSize: nat)
    requires Consistent(p, capacity, bufferSize) && IsSkipped(f, bufferSize)
    ensures var q := p.(writes := p.writes + [f]);
            Consistent(q, capacity, bufferSize) && Wrote(p, f, bufferSize, None, q)
  {
    SkipKeeps(p, f, capacity, bufferSize);
  }

  lemma WroteTaken<B>(p: Pool<B>, f: Fragment, made: Option<B>, capacity: nat, bufferSize: nat)
    requires Takes(p, f, bufferSize)
    requires var r := Prepare(p, f, bufferSize, made);
             Consistent(r, capacity, bufferSize) && r.pending == p.pending && r.writes == p.writes && r.free != []
    ensures var r := Prepare(p, f, bufferSize, made);
            && NeedsBuffer(AssembleAll(r.writes, bufferSize), f, bufferSize)
            && Wrote(p, f, bufferSize, made, Fill(r, f))
  {
  }

  /** The pending buffer holds the open group. */
  lemma WrotePending<B>(p: Pool<B>, f: Fragment, capacity: nat, bufferSize: nat)
    requires Consistent(p, capacity, bufferSize) && p.pending != [] && !IsSkipped(f, bufferSize)
    ensures |p.pending| == 1 && p.pending[0] in p.image && |p.image[p.pending[0]].data| <= bufferSize
    ensures var a := AssembleAll(p.writes, bufferSize);
            && a.open == Some(p.image[p.pending[0]])
            && Wrote(p, f, bufferSize, None, if Overflows(a, f, bufferSize) then Drop(p, f) else Grow(p, f))
  {
  }
}
