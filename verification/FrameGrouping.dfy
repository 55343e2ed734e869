/** How a stream of encoder fragments is cut into frames.

    The fold `AssembleAll` follows `FrameQueue::write_back` one fragment at a time with everything
    about buffers taken away.  `Frames` says what the result is without any state: it reads the
    stream as a grammar, looking ahead from each CONFIG fragment to the end of its group.  The
    main theorem of this module is that both agree on every stream.
  */
module FrameGrouping {
  import opened Common

  /** The part of an MMAL buffer header that is read here: `length` is `|data|`. */
  datatype Fragment = Fragment(data: seq<uint8>, flags: uint32)

  /** Bytes and flag bits of a finished frame. */
  datatype Frame = Frame(data: seq<uint8>, flags: uint8)

  /** `std::bitset<8>` keeps the low eight bits of the header's 32 flag bits. */
  function LowFlags(flags: uint32): uint8 {
    flags % 0x100
  }

  predicate IsFrameEnd(flags: uint8) {
    flags / 4 % 2 == 1
  }

  predicate IsConfig(flags: uint8) {
    flags / 32 % 2 == 1
  }

  /** An empty header without any flag. */
  predicate IsEmpty(f: Fragment) {
    f.data == [] && f.flags == 0
  }

  predicate IsOversize(f: Fragment, bufferSize: nat) {
    |f.data| > bufferSize
  }

  predicate IsSkipped(f: Fragment, bufferSize: nat) {
    IsEmpty(f) || IsOversize(f, bufferSize)
  }

  predicate EndsFrame(f: Fragment) {
    IsFrameEnd(LowFlags(f.flags))
  }

  predicate OpensGroup(f: Fragment) {
    IsConfig(LowFlags(f.flags))
  }

  function Alone(f: Fragment): Frame {
    Frame(f.data, LowFlags(f.flags))
  }

  /** Bit `i` of a number. */
  function Bit(n: nat, i: nat): bool {
    if i == 0 then n % 2 == 1 else Bit(n / 2, i - 1)
  }

  function Power(k: nat): nat {
    if k == 0 then 1 else 2 * Power(k - 1)
  }

  lemma {:induction false} SameBits(n: nat, q: nat, r: nat, k: nat, i: nat)
    requires i < k && n == Power(k) * q + r
    ensures Bit(n, i) == Bit(r, i)
  {
    var t := Power(k - 1) * q;
    assert Power(k) * q == 2 * t;
    if i > 0 {
      SameBits(n / 2, q, r / 2, k - 1, i - 1);
    }
  }

  lemma BitsSkipped(n: nat, i: nat)
    ensures Bit(n, i + 2) == Bit(n / 4, i)
  {
    assert Bit(n, i + 2) == Bit(n / 2, i + 1);
    assert n / 2 / 2 == n / 4;
  }

  lemma BitsTwoAndFive(n: nat)
    ensures Bit(n, 2) == (n / 4 % 2 == 1) && Bit(n, 5) == (n / 32 % 2 == 1)
  {
    BitsSkipped(n, 0);
    BitsSkipped(n, 3);
    BitsSkipped(n / 4, 1);
    hide Bit;
    assert n / 4 / 4 == n / 16;
    LastBits(n / 4);
    LastBits(n / 16);
    assert n / 16 / 2 == n / 32;
  }

  lemma LastBits(n: nat)
    ensures Bit(n, 0) == (n % 2 == 1) && Bit(n, 1) == (n / 2 % 2 == 1)
  {
  }

  /** A frame's flags are bits 0 to 7 of the header's; bit 2 ends a frame and bit 5 is the CONFIG flag. */
  lemma FlagBits(f: Fragment)
    ensures forall i :: 0 <= i < 8 ==> Bit(LowFlags(f.flags), i) == Bit(f.flags, i)
    ensures EndsFrame(f) <==> Bit(f.flags, 2)
    ensures OpensGroup(f) <==> Bit(f.flags, 5)
  {
    assert Power(8) == 0x100;
    forall i | 0 <= i < 8 ensures Bit(LowFlags(f.flags), i) == Bit(f.flags, i) {
      SameBits(f.flags, f.flags / 0x100, f.flags % 0x100, 8, i);
    }
    BitsTwoAndFive(LowFlags(f.flags));
  }

  // ---------- one fragment at a time ----------

  /** The open group, if any, and every frame emitted so far. */
  datatype Assembly = Assembly(open: Option<Frame>, emitted: seq<Frame>)

  const NOTHING := Assembly(None, [])

  predicate Overflows(a: Assembly, f: Fragment, bufferSize: nat) {
    a.open.Some? && |a.open.value.data| + |f.data| > bufferSize
  }

  predicate Accepts(a: Assembly, f: Fragment, bufferSize: nat) {
    IsEmpty(f) || (!IsOversize(f, bufferSize) && !Overflows(a, f, bufferSize))
  }

  /** Whether writing `f` takes a buffer from the pool. */
  predicate NeedsBuffer(a: Assembly, f: Fragment, bufferSize: nat) {
    !IsSkipped(f, bufferSize) && a.open.None?
  }

  function Assemble(a: Assembly, f: Fragment, bufferSize: nat): Assembly {
    if IsSkipped(f, bufferSize) then
      a
    else if a.open.Some? then
      if Overflows(a, f, bufferSize) then
        a.(open := None)
      else
        var grown := Frame(a.open.value.data + f.data, LowFlags(f.flags));
        if EndsFrame(f) then Assembly(None, a.emitted + [grown]) else a.(open := Some(grown))
    else if OpensGroup(f) then
      a.(open := Some(Alone(f)))
    else
      a.(emitted := a.emitted + [Alone(f)])
  }

  function AssembleFrom(a: Assembly, history: seq<Fragment>, bufferSize: nat): Assembly
    decreases |history|
  {
    if history == [] then a
    else AssembleFrom(Assemble(a, history[0], bufferSize), history[1..], bufferSize)
  }

  function AssembleAll(history: seq<Fragment>, bufferSize: nat): Assembly {
    AssembleFrom(NOTHING, history, bufferSize)
  }

  lemma {:induction false} AssembleSnoc(a: Assembly, history: seq<Fragment>, f: Fragment, bufferSize: nat)
    ensures AssembleFrom(a, history + [f], bufferSize)
            == Assemble(AssembleFrom(a, history, bufferSize), f, bufferSize)
    decreases |history|
  {
    if history == [] {
      assert (history + [f])[1..] == [];
    } else {
      assert (history + [f])[1..] == history[1..] + [f];
      AssembleSnoc(Assemble(a, history[0], bufferSize), history[1..], f, bufferSize);
    }
  }

  lemma AssembleAllSnoc(history: seq<Fragment>, f: Fragment, bufferSize: nat)
    ensures AssembleAll(history + [f], bufferSize) == Assemble(AssembleAll(history, bufferSize), f, bufferSize)
  {
    AssembleSnoc(NOTHING, history, f, bufferSize);
  }

  // ---------- the whole stream at once ----------

  /** The bytes a run of fragments contributes: oversize ones contribute nothing. */
  function Payload(history: seq<Fragment>, bufferSize: nat): seq<uint8> {
    if history == [] then []
    else (if IsSkipped(history[0], bufferSize) then [] else history[0].data) + Payload(history[1..], bufferSize)
  }

  /** The group that starts at `history[0]` is decided at index `n`: that fragment is the one
      that ends the frame or that no longer fits. */
  predicate DecidesGroup(history: seq<Fragment>, n: nat, bufferSize: nat) {
    && 1 <= n < |history|
    && !IsSkipped(history[n], bufferSize)
    && (EndsFrame(history[n]) || |Payload(history[..n + 1], bufferSize)| > bufferSize)
  }

  /** The first index that decides the group, or the length of the stream when it stays open. */
  function GroupEnd(history: seq<Fragment>, from: nat, bufferSize: nat): (n: nat)
    requires 1 <= from <= |history|
    ensures from <= n <= |history|
    ensures n < |history| ==> DecidesGroup(history, n, bufferSize)
    ensures forall m :: from <= m < n ==> !DecidesGroup(history, m, bufferSize)
    decreases |history| - from
  {
    if from == |history| || DecidesGroup(history, from, bufferSize) then from
    else GroupEnd(history, from + 1, bufferSize)
  }

  /** What a group decided at index `n` yields: nothing when it overflowed there. */
  function GroupFrames(history: seq<Fragment>, n: nat, bufferSize: nat): seq<Frame>
    requires n < |history|
  {
    var payload := Payload(history[..n + 1], bufferSize);
    if |payload| > bufferSize then [] else [Frame(payload, LowFlags(history[n].flags))]
  }

  /** The frames of a stream, read as a grammar: skipped fragments vanish, a fragment without the
      CONFIG flag is a frame of its own, and a CONFIG fragment heads a group that is emitted whole,
      dropped whole together with the fragment that overflows it, or still open at the end. */
  function Frames(history: seq<Fragment>, bufferSize: nat): seq<Frame>
    decreases |history|
  {
    if history == [] then
      []
    else if IsSkipped(history[0], bufferSize) then
      Frames(history[1..], bufferSize)
    else if !OpensGroup(history[0]) then
      [Alone(history[0])] + Frames(history[1..], bufferSize)
    else
      var n := GroupEnd(history, 1, bufferSize);
      if n == |history| then [] else GroupFrames(history, n, bufferSize) + Frames(history[n + 1..], bufferSize)
  }

  // ---------- both agree ----------

  /** Emitted frames are only ever appended to. */
  lemma {:induction false} EmittedGrows(a: Assembly, history: seq<Fragment>, bufferSize: nat)
    ensures AssembleFrom(a, history, bufferSize)
            == var b := AssembleFrom(Assembly(a.open, []), history, bufferSize);
               Assembly(b.open, a.emitted + b.emitted)
    decreases |history|
  {
    if history == [] {
    } else {
      var next := Assemble(a, history[0], bufferSize);
      var bare := Assemble(Assembly(a.open, []), history[0], bufferSize);
      assert next == Assembly(bare.open, a.emitted + bare.emitted);
      EmittedGrows(next, history[1..], bufferSize);
      EmittedGrows(bare, history[1..], bufferSize);
      var rest := AssembleFrom(Assembly(bare.open, []), history[1..], bufferSize);
      assert (a.emitted + bare.emitted) + rest.emitted == a.emitted + (bare.emitted + rest.emitted);
    }
  }

  lemma {:induction false} PayloadSnoc(history: seq<Fragment>, f: Fragment, bufferSize: nat)
    ensures Payload(history + [f], bufferSize)
            == Payload(history, bufferSize) + (if IsSkipped(f, bufferSize) then [] else f.data)
  {
    if history == [] {
      assert (history + [f])[1..] == [];
    } else {
      assert (history + [f])[1..] == history[1..] + [f];
      PayloadSnoc(history[1..], f, bufferSize);
    }
  }

  /** What is folded so far inside an undecided group: its bytes, and nothing emitted yet. */
  ghost predicate Growing(a: Assembly, history: seq<Fragment>, n: nat, bufferSize: nat)
    requires n <= |history|
  {
    && a.open.Some?
    && a.open.value.data == Payload(history[..n], bufferSize)
    && a.emitted == []
  }

  /** Folding the undecided part of a group only grows it. */
  lemma GroupStep(a: Assembly, history: seq<Fragment>, n: nat, bufferSize: nat)
    requires 1 <= n < |history| && Growing(a, history, n, bufferSize)
    ensures var b := Assemble(a, history[n], bufferSize);
            if DecidesGroup(history, n, bufferSize) then b == Assembly(None, GroupFrames(history, n, bufferSize))
            else Growing(b, history, n + 1, bufferSize)
  {
    assert history[..n + 1] == history[..n] + [history[n]];
    PayloadSnoc(history[..n], history[n], bufferSize);
    if !IsSkipped(history[n], bufferSize) {
      assert Payload(history[..n + 1], bufferSize) == a.open.value.data + history[n].data;
    }
  }

  /** Frames are the fold's output, from any point inside an open group. */
  lemma {:induction false} FoldGroup(a: Assembly, history: seq<Fragment>, n: nat, bufferSize: nat)
    requires 1 <= n <= |history| && Growing(a, history, n, bufferSize)
    ensures var end := GroupEnd(history, n, bufferSize);
            AssembleFrom(a, history[n..], bufferSize).emitted ==
            if end == |history| then []
            else GroupFrames(history, end, bufferSize) + Frames(history[end + 1..], bufferSize)
    decreases |history| - n, 0
  {
    hide DecidesGroup, GroupFrames, Payload, Assemble, Frames;
    if n < |history| {
      var b := Assemble(a, history[n], bufferSize);
      GroupStep(a, history, n, bufferSize);
      assert history[n..][1..] == history[n + 1..];
      if DecidesGroup(history, n, bufferSize) {
        EmittedGrows(b, history[n + 1..], bufferSize);
        FoldIsGrammar(history[n + 1..], bufferSize);
      } else {
        FoldGroup(b, history, n + 1, bufferSize);
      }
    }
  }

  lemma GroupOpens(history: seq<Fragment>, bufferSize: nat)
    requires history != [] && !IsSkipped(history[0], bufferSize) && OpensGroup(history[0])
    ensures Growing(Assemble(NOTHING, history[0], bufferSize), history, 1, bufferSize)
  {
    var f := history[0];
    assert history[..1] == [f] && [f][1..] == [];
    assert Payload([f], bufferSize) == f.data + Payload([], bufferSize) == f.data;
  }

  /** Main theorem: the incremental assembly emits exactly the frames of the grammar. */
  lemma {:induction false} FoldIsGrammar(history: seq<Fragment>, bufferSize: nat)
    ensures AssembleAll(history, bufferSize).emitted == Frames(history, bufferSize)
    decreases |history|, 1
  {
    if history == [] {
    } else if IsSkipped(history[0], bufferSize) || !OpensGroup(history[0]) {
      FoldIsGrammar(history[1..], bufferSize);
      LoneFragment(history, bufferSize);
    } else {
      GroupOpens(history, bufferSize);
      hide GroupFrames, Growing, Payload, Assemble;
      FoldGroup(Assemble(NOTHING, history[0], bufferSize), history, 1, bufferSize);
    }
  }

  lemma LoneFragment(history: seq<Fragment>, bufferSize: nat)
    requires history != [] && (IsSkipped(history[0], bufferSize) || !OpensGroup(history[0]))
    requires AssembleAll(history[1..], bufferSize).emitted == Frames(history[1..], bufferSize)
    ensures AssembleAll(history, bufferSize).emitted == Frames(history, bufferSize)
  {
    var next := Assemble(NOTHING, history[0], bufferSize);
    EmittedGrows(next, history[1..], bufferSize);
    assert Assembly(next.open, []) == NOTHING;
  }

  // ---------- consequences ----------

  /** Every frame fits a buffer, and so does the open group. */
  lemma {:induction false} FramesFit(a: Assembly, history: seq<Fragment>, bufferSize: nat)
    requires a.open.Some? ==> |a.open.value.data| <= bufferSize
    requires forall x <- a.emitted :: |x.data| <= bufferSize
    ensures var b := AssembleFrom(a, history, bufferSize);
            && (b.open.Some? ==> |b.open.value.data| <= bufferSize)
            && (forall x <- b.emitted :: |x.data| <= bufferSize)
    decreases |history|
  {
    if history == [] {
    } else {
      FramesFit(Assemble(a, history[0], bufferSize), history[1..], bufferSize);
    }
  }

  function Bytes(frames: seq<Frame>): seq<uint8> {
    if frames == [] then [] else Bytes(frames[..|frames| - 1]) + frames[|frames| - 1].data
  }

  function OpenBytes(a: Assembly): seq<uint8> {
    if a.open.Some? then a.open.value.data else []
  }

  /** No group of the stream is ever dropped. */
  predicate NoOverflow(a: Assembly, history: seq<Fragment>, bufferSize: nat)
    decreases |history|
  {
    history == [] ||
    (&& (IsSkipped(history[0], bufferSize) || !Overflows(a, history[0], bufferSize))
     && NoOverflow(Assemble(a, history[0], bufferSize), history[1..], bufferSize))
  }

  /** The accepted bytes so far, as emitted plus open. */
  function Kept(a: Assembly): seq<uint8> {
    Bytes(a.emitted) + OpenBytes(a)
  }

  lemma KeptStep(a: Assembly, f: Fragment, bufferSize: nat)
    ensures var now := if IsSkipped(f, bufferSize) then [] else f.data;
            var next := Assemble(a, f, bufferSize);
            if IsSkipped(f, bufferSize) || !Overflows(a, f, bufferSize)
            then Kept(next) == Kept(a) + now
            else |Kept(next)| < |Kept(a)| + |now|
  {
    var next := Assemble(a, f, bufferSize);
    if next.emitted != a.emitted {
      assert next.emitted[..|next.emitted| - 1] == a.emitted;
    }
  }

  /** A fragment is accepted exactly when its bytes are kept and none kept before are lost. */
  lemma AcceptedIsKept(a: Assembly, f: Fragment, bufferSize: nat)
    ensures Accepts(a, f, bufferSize) <==> Kept(Assemble(a, f, bufferSize)) == Kept(a) + f.data
  {
    KeptStep(a, f, bufferSize);
    assert Kept(a) + [] == Kept(a);
  }

  /** And exactly when it fits behind the open group. */
  lemma AcceptedIsRoom(a: Assembly, f: Fragment, bufferSize: nat)
    requires |OpenBytes(a)| <= bufferSize
    ensures Accepts(a, f, bufferSize) <==> |OpenBytes(a)| + |f.data| <= bufferSize
  {
  }

  /** Without an open group, only fragments without bytes and flags, and those that no buffer holds,
      leave no trace. */
  lemma OnlySkippedLeaveNoTrace(a: Assembly, f: Fragment, bufferSize: nat)
    requires a.open.None?
    ensures Assemble(a, f, bufferSize) == a <==> (f.data == [] && f.flags == 0) || |f.data| > bufferSize
  {
  }

  /** What the answer to a write means for the stream written so far. */
  lemma AnswerMeansKept(history: seq<Fragment>, f: Fragment, bufferSize: nat)
    ensures Accepts(AssembleAll(history, bufferSize), f, bufferSize) <==>
            Kept(AssembleAll(history + [f], bufferSize)) == Kept(AssembleAll(history, bufferSize)) + f.data
  {
    AssembleAllSnoc(history, f, bufferSize);
    AcceptedIsKept(AssembleAll(history, bufferSize), f, bufferSize);
  }

  /** Bytes lost at one step are never made up for. */
  lemma Appends(kept: seq<uint8>, next: seq<uint8>, now: seq<uint8>, rest: seq<uint8>, all: seq<uint8>)
    requires |all| <= |next| + |rest|
    requires next == kept + now || |next| < |kept| + |now|
    ensures |all| <= |kept| + |now + rest|
    ensures all == kept + (now + rest) <==> next == kept + now && all == next + rest
  {
    assert (kept + now) + rest == kept + (now + rest);
  }

  /** Lossless exactly when no group overflows: only then are the emitted bytes followed by the
      open group all accepted bytes, in the order written. */
  lemma {:induction false} Lossless(a: Assembly, history: seq<Fragment>, bufferSize: nat)
    ensures |Kept(AssembleFrom(a, history, bufferSize))| <= |Kept(a)| + |Payload(history, bufferSize)|
    ensures NoOverflow(a, history, bufferSize) <==>
            Kept(AssembleFrom(a, history, bufferSize)) == Kept(a) + Payload(history, bufferSize)
    decreases |history|
  {
    hide Kept, Assemble, Overflows, IsSkipped;
    if history == [] {
    } else {
      var f, next, rest := history[0], Assemble(a, history[0], bufferSize), history[1..];
      KeptStep(a, f, bufferSize);
      Lossless(next, rest, bufferSize);
      Appends(Kept(a), Kept(next), if IsSkipped(f, bufferSize) then [] else f.data, Payload(rest, bufferSize),
              Kept(AssembleFrom(next, rest, bufferSize)));
    }
  }
}
