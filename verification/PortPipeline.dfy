/** The recorder's main loop against the port callbacks, one MMAL call at a time.  `Camera` is the
    link from the camera's video port to the encoder, `Encoded` the one from the encoder to the
    application. */
module PortPipeline {
  import opened MmalQueues

  /** Where the headers of one pool are.  The ports hand headers back in any order.  `filledLog` is
      the order in which the callback queued filled headers and `usedLog` the order in which the
      loop passed them on; both are history. */
  datatype Link = Link(
    pool: seq<Header>,
    outputPort: multiset<Header>,
    filled: seq<Header>,
    inputPort: multiset<Header>,
    filledLog: seq<Header>,
    usedLog: seq<Header>)

  /** Where the loop is, and the header in its hand. */
  datatype Loop =
    | FillCamera
    | CameraSend(h: Header)
    | CameraPutBack(h: Header)
    | FillEncoded
    | EncodedSend(h: Header)
    | EncodedPutBack(h: Header)
    | PassOn
    | PassOnSend(h: Header)
    | PassOnPutBack(h: Header)
    | TakeEncoded
    | Deliver(h: Header)
    | Stopped

  datatype State = State(camera: Link, encoded: Link, loop: Loop)

  datatype Event =
    | LoopStep(accepted: bool)       // `accepted` answers a send, and is ignored elsewhere
    | StopRequested
    | CameraFilled(h: Header)        // output port callbacks
    | EncoderFilled(h: Header)
    | EncoderConsumed(h: Header)     // input port callback

  predicate Enabled(s: State, e: Event) {
    match e
    case LoopStep(_) => s.loop != Stopped
    case StopRequested => s.loop == FillCamera
    case CameraFilled(h) => h in s.camera.outputPort
    case EncoderFilled(h) => h in s.encoded.outputPort
    case EncoderConsumed(h) => h in s.camera.inputPort
  }

  function LoopNext(s: State, accepted: bool): State {
    var c, e := s.camera, s.encoded;
    match s.loop
    case FillCamera =>
      if c.pool == [] then s.(loop := FillEncoded)
      else s.(camera := c.(pool := c.pool[1..]), loop := CameraSend(c.pool[0]))
    case CameraSend(h) =>
      if accepted then s.(camera := c.(outputPort := c.outputPort + multiset{h}), loop := FillCamera)
      else s.(loop := CameraPutBack(h))
    case CameraPutBack(h) => s.(camera := c.(pool := [h] + c.pool), loop := Stopped)
    case FillEncoded =>
      if e.pool == [] then s.(loop := PassOn)
      else s.(encoded := e.(pool := e.pool[1..]), loop := EncodedSend(e.pool[0]))
    case EncodedSend(h) =>
      if accepted then s.(encoded := e.(outputPort := e.outputPort + multiset{h}), loop := FillEncoded)
      else s.(loop := EncodedPutBack(h))
    case EncodedPutBack(h) => s.(encoded := e.(pool := [h] + e.pool), loop := Stopped)
    case PassOn =>
      if c.filled == [] then s.(loop := TakeEncoded)
      else s.(camera := c.(filled := c.filled[1..]), loop := PassOnSend(c.filled[0]))
    case PassOnSend(h) =>
      if accepted then
        s.(camera := c.(inputPort := c.inputPort + multiset{h}, usedLog := c.usedLog + [h]), loop := TakeEncoded)
      else s.(loop := PassOnPutBack(h))
    case PassOnPutBack(h) => s.(camera := c.(filled := [h] + c.filled), loop := Stopped)
    case TakeEncoded =>
      if e.filled == [] then s.(loop := FillCamera)
      else s.(encoded := e.(filled := e.filled[1..]), loop := Deliver(e.filled[0]))
    case Deliver(h) =>
      s.(encoded := e.(pool := e.pool + [h], usedLog := e.usedLog + [h]), loop := FillCamera)
    case Stopped => s
  }

  /** The output port callback queues the filled header behind the ones already there. */
  function Fill(l: Link, h: Header): Link {
    l.(outputPort := l.outputPort - multiset{h}, filled := l.filled + [h], filledLog := l.filledLog + [h])
  }

  /** The input port callback returns the header to its pool. */
  function Consume(l: Link, h: Header): Link {
    l.(inputPort := l.inputPort - multiset{h}, pool := l.pool + [h])
  }

  function Next(s: State, e: Event): State
    requires Enabled(s, e)
  {
    match e
    case LoopStep(accepted) => LoopNext(s, accepted)
    case StopRequested => s.(loop := Stopped)
    case CameraFilled(h) => s.(camera := Fill(s.camera, h))
    case EncoderFilled(h) => s.(encoded := Fill(s.encoded, h))
    case EncoderConsumed(h) => s.(camera := Consume(s.camera, h))
  }

  predicate Run(states: seq<State>, events: seq<Event>) {
    && |states| == |events| + 1
    && forall k :: 0 <= k < |events| ==>
         Enabled(states[k], events[k]) && states[k + 1] == Next(states[k], events[k])
  }

  // ---------- ownership ----------

  /** The headers of each pool that are in the loop's hand. */
  function CameraHand(loop: Loop): seq<Header> {
    match loop
    case CameraSend(h) => [h]
    case CameraPutBack(h) => [h]
    case PassOnSend(h) => [h]
    case PassOnPutBack(h) => [h]
    case _ => []
  }

  function EncodedHand(loop: Loop): seq<Header> {
    match loop
    case EncodedSend(h) => [h]
    case EncodedPutBack(h) => [h]
    case Deliver(h) => [h]
    case _ => []
  }

  function Whereabouts(l: Link, hand: seq<Header>): multiset<Header> {
    multiset(l.pool) + l.outputPort + multiset(l.filled) + l.inputPort + multiset(hand)
  }

  /** Filled headers in the loop's hand. */
  function CameraPassing(loop: Loop): seq<Header> {
    if loop.PassOnSend? || loop.PassOnPutBack? then [loop.h] else []
  }

  function EncodedPassing(loop: Loop): seq<Header> {
    if loop.Deliver? then [loop.h] else []
  }

  /** Filled headers are passed on in the order the callback queued them. */
  predicate InOrder(s: State) {
    && Sequence(s.camera, CameraPassing(s.loop)) == s.camera.filledLog
    && Sequence(s.encoded, EncodedPassing(s.loop)) == s.encoded.filledLog
  }

  predicate Owned(s: State, camera: multiset<Header>, encoded: multiset<Header>) {
    && Whereabouts(s.camera, CameraHand(s.loop)) == camera
    && Whereabouts(s.encoded, EncodedHand(s.loop)) == encoded
  }

  lemma TakeFromPool(l: Link)
    requires l.pool != []
    ensures Whereabouts(l.(pool := l.pool[1..]), [l.pool[0]]) == Whereabouts(l, [])
  {
    assert l.pool == [l.pool[0]] + l.pool[1..];
  }

  lemma TakeFromFilled(l: Link)
    requires l.filled != []
    ensures Whereabouts(l.(filled := l.filled[1..]), [l.filled[0]]) == Whereabouts(l, [])
  {
    assert l.filled == [l.filled[0]] + l.filled[1..];
  }

  lemma PutDown(l: Link, h: Header)
    ensures Whereabouts(l.(pool := [h] + l.pool), []) == Whereabouts(l, [h])
    ensures Whereabouts(l.(filled := [h] + l.filled), []) == Whereabouts(l, [h])
    ensures Whereabouts(l.(outputPort := l.outputPort + multiset{h}), []) == Whereabouts(l, [h])
  {
  }

  lemma PassedOn(l: Link, h: Header)
    ensures Whereabouts(l.(inputPort := l.inputPort + multiset{h}, usedLog := l.usedLog + [h]), [])
         == Whereabouts(l, [h])
    ensures Whereabouts(l.(pool := l.pool + [h], usedLog := l.usedLog + [h]), []) == Whereabouts(l, [h])
  {
  }

  lemma LoopKeepsOwned(s: State, accepted: bool, camera: multiset<Header>, encoded: multiset<Header>)
    requires Owned(s, camera, encoded)
    ensures Owned(LoopNext(s, accepted), camera, encoded)
  {
    hide Whereabouts;
    match s.loop
    case FillCamera => if s.camera.pool != [] { TakeFromPool(s.camera); }
    case CameraSend(h) => PutDown(s.camera, h);
    case CameraPutBack(h) => PutDown(s.camera, h);
    case FillEncoded => if s.encoded.pool != [] { TakeFromPool(s.encoded); }
    case EncodedSend(h) => PutDown(s.encoded, h);
    case EncodedPutBack(h) => PutDown(s.encoded, h);
    case PassOn => if s.camera.filled != [] { TakeFromFilled(s.camera); }
    case PassOnSend(h) => PassedOn(s.camera, h);
    case PassOnPutBack(h) => PutDown(s.camera, h);
    case TakeEncoded => if s.encoded.filled != [] { TakeFromFilled(s.encoded); }
    case Deliver(h) => PassedOn(s.encoded, h);
    case Stopped =>
  }

  lemma CallbackKeepsWhereabouts(l: Link, h: Header, hand: seq<Header>)
    ensures h in l.outputPort ==> Whereabouts(Fill(l, h), hand) == Whereabouts(l, hand)
    ensures h in l.inputPort ==>
              Whereabouts(Consume(l, h), hand) == Whereabouts(l, hand)
  {
  }

  lemma StepKeepsOwned(s: State, e: Event, camera: multiset<Header>, encoded: multiset<Header>)
    requires Owned(s, camera, encoded) && Enabled(s, e)
    ensures Owned(Next(s, e), camera, encoded)
  {
    hide Whereabouts, LoopNext, Fill, Consume;
    match e
    case LoopStep(accepted) => LoopKeepsOwned(s, accepted, camera, encoded);
    case StopRequested =>
    case CameraFilled(h) => CallbackKeepsWhereabouts(s.camera, h, CameraHand(s.loop));
    case EncoderFilled(h) => CallbackKeepsWhereabouts(s.encoded, h, EncodedHand(s.loop));
    case EncoderConsumed(h) => CallbackKeepsWhereabouts(s.camera, h, CameraHand(s.loop));
  }

  /** Passed on, in hand, and waiting. */
  function Sequence(l: Link, hand: seq<Header>): seq<Header> {
    l.usedLog + (hand + l.filled)
  }

  lemma PickUp(l: Link)
    requires l.filled != []
    ensures Sequence(l.(filled := l.filled[1..]), [l.filled[0]]) == Sequence(l, [])
  {
    assert l.filled == [l.filled[0]] + l.filled[1..];
  }

  lemma LayDown(l: Link, h: Header, pool: seq<Header>, inputPort: multiset<Header>)
    ensures Sequence(l.(filled := [h] + l.filled), []) == Sequence(l, [h])
    ensures Sequence(l.(pool := pool, inputPort := inputPort, usedLog := l.usedLog + [h]), []) == Sequence(l, [h])
  {
    assert l.usedLog + ([h] + l.filled) == (l.usedLog + [h]) + l.filled;
  }

  lemma LoopKeepsInOrder(s: State, accepted: bool)
    requires InOrder(s)
    ensures InOrder(LoopNext(s, accepted))
  {
    hide Sequence;
    var c, e := s.camera, s.encoded;
    match s.loop
    case PassOn => if c.filled != [] { PickUp(c); }
    case PassOnSend(h) => LayDown(c, h, c.pool, c.inputPort + multiset{h});
    case PassOnPutBack(h) => LayDown(c, h, c.pool, c.inputPort);
    case TakeEncoded => if e.filled != [] { PickUp(e); }
    case Deliver(h) => LayDown(e, h, e.pool + [h], e.inputPort);
    case _ => LoopKeepsSequence(s, accepted);
  }

  lemma LoopKeepsSequence(s: State, accepted: bool)
    requires !(s.loop.PassOn? || s.loop.PassOnSend? || s.loop.PassOnPutBack? || s.loop.TakeEncoded? || s.loop.Deliver?)
    ensures var t := LoopNext(s, accepted);
            && Sequence(t.camera, CameraPassing(t.loop)) == Sequence(s.camera, CameraPassing(s.loop))
            && Sequence(t.encoded, EncodedPassing(t.loop)) == Sequence(s.encoded, EncodedPassing(s.loop))
            && t.camera.filledLog == s.camera.filledLog && t.encoded.filledLog == s.encoded.filledLog
  {
  }

  lemma CallbackKeepsSequence(l: Link, h: Header, hand: seq<Header>)
    ensures Sequence(Fill(l, h), hand) == Sequence(l, hand) + [h]
    ensures Sequence(Consume(l, h), hand) == Sequence(l, hand)
  {
  }

  lemma StepKeepsInOrder(s: State, e: Event)
    requires InOrder(s) && Enabled(s, e)
    ensures InOrder(Next(s, e))
  {
    hide Sequence, LoopNext;
    match e
    case LoopStep(accepted) => LoopKeepsInOrder(s, accepted);
    case StopRequested =>
    case CameraFilled(h) => CallbackKeepsSequence(s.camera, h, CameraPassing(s.loop));
    case EncoderFilled(h) => CallbackKeepsSequence(s.encoded, h, EncodedPassing(s.loop));
    case EncoderConsumed(h) => CallbackKeepsSequence(s.camera, h, CameraPassing(s.loop));
  }

  /** Both pools full, the loop at its start. */
  function Init(camera: seq<Header>, encoded: seq<Header>): State {
    State(Link(camera, multiset{}, [], multiset{}, [], []),
          Link(encoded, multiset{}, [], multiset{}, [], []), FillCamera)
  }

  lemma {:induction false} RunKeeps(
    states: seq<State>, events: seq<Event>, camera: multiset<Header>, encoded: multiset<Header>)
    requires Run(states, events) && InOrder(states[0]) && Owned(states[0], camera, encoded)
    ensures InOrder(states[|events|]) && Owned(states[|events|], camera, encoded)
  {
    hide InOrder, Owned, Enabled, Next;
    if events == [] {
    } else {
      var n := |events| - 1;
      RunKeeps(states[..n + 1], events[..n], camera, encoded);
      StepKeepsInOrder(states[n], events[n]);
      StepKeepsOwned(states[n], events[n], camera, encoded);
    }
  }

  /** Main theorem: under every interleaving of the loop with the callbacks, and whichever sends are
      refused, every header of a pool is in exactly one place, and filled headers are passed on in
      the order they were queued. */
  lemma EveryHeaderInOnePlace(states: seq<State>, events: seq<Event>, camera: seq<Header>, encoded: seq<Header>)
    requires Run(states, events) && states[0] == Init(camera, encoded)
    ensures var s := states[|events|];
            && Whereabouts(s.camera, CameraHand(s.loop)) == multiset(camera)
            && Whereabouts(s.encoded, EncodedHand(s.loop)) == multiset(encoded)
    ensures var s := states[|events|];
            && s.camera.usedLog <= s.camera.filledLog
            && s.encoded.usedLog <= s.encoded.filledLog
            && s.camera.filledLog[|s.camera.usedLog|..] == CameraPassing(s.loop) + s.camera.filled
            && s.encoded.filledLog[|s.encoded.usedLog|..] == EncodedPassing(s.loop) + s.encoded.filled
  {
    hide Whereabouts;
    var s := states[|events|];
    InitIsOwned(camera, encoded);
    RunKeeps(states, events, multiset(camera), multiset(encoded));
  }

  lemma InitIsOwned(camera: seq<Header>, encoded: seq<Header>)
    ensures InOrder(Init(camera, encoded)) && Owned(Init(camera, encoded), multiset(camera), multiset(encoded))
  {
  }

  predicate Nowhere(l: Link, h: Header) {
    h !in l.pool && h !in l.outputPort && h !in l.filled && h !in l.inputPort
  }

  /** With distinct headers no place and no port ever holds one twice, and a header the loop is about
      to send or to read is nowhere else. */
  lemma HandIsExclusive(states: seq<State>, events: seq<Event>, camera: seq<Header>, encoded: seq<Header>)
    requires Run(states, events) && states[0] == Init(camera, encoded)
    requires forall h :: multiset(camera)[h] <= 1 && multiset(encoded)[h] <= 1
    ensures var s := states[|events|];
            && (forall h <- CameraHand(s.loop) :: Nowhere(s.camera, h))
            && (forall h <- EncodedHand(s.loop) :: Nowhere(s.encoded, h))
  {
    EveryHeaderInOnePlace(states, events, camera, encoded);
    var s := states[|events|];
    forall h | h in CameraHand(s.loop) ensures Nowhere(s.camera, h) {
      OnlyInHand(s.camera, h);
    }
    forall h | h in EncodedHand(s.loop) ensures Nowhere(s.encoded, h) {
      OnlyInHand(s.encoded, h);
    }
  }

  lemma OnlyInHand(l: Link, h: Header)
    requires Whereabouts(l, [h])[h] <= 1
    ensures Nowhere(l, h)
  {
    assert Whereabouts(l, [h])[h]
        == multiset(l.pool)[h] + l.outputPort[h] + multiset(l.filled)[h] + l.inputPort[h] + multiset([h])[h];
    assert h in l.pool <==> h in multiset(l.pool);
    assert h in l.filled <==> h in multiset(l.filled);
  }

  // ---------- filling a port, step by step ----------

  /** The link after its output port has taken the first `n` headers of the pool. */
  function Sent(l: Link, n: nat): Link
    requires n <= |l.pool|
  {
    l.(pool := l.pool[n..], outputPort := l.outputPort + multiset(l.pool[..n]))
  }

  /** The state after the camera's port was filled from its pool, the `n`th send being answered with
      `answers(n)`. */
  function Filled(s: State, answers: nat -> Status, from: nat): State {
    var n := Accepted(answers, from, |s.camera.pool|);
    s.(camera := Sent(s.camera, n), loop := if n == |s.camera.pool| then FillEncoded else Stopped)
  }

  /** Likewise for the encoder's output port. */
  function EncoderFilledUp(s: State, answers: nat -> Status, from: nat): State {
    var n := Accepted(answers, from, |s.encoded.pool|);
    s.(encoded := Sent(s.encoded, n), loop := if n == |s.encoded.pool| then PassOn else Stopped)
  }

  lemma Extends(states: seq<State>, events: seq<Event>, first: State, e: Event)
    requires Run(states, events) && Enabled(first, e) && states[0] == Next(first, e)
    ensures Run([first] + states, [e] + events)
    ensures ([first] + states)[|[e] + events|] == states[|events|]
  {
    hide Enabled, Next;
  }

  function FirstSent(l: Link): Link
    requires l.pool != []
  {
    l.(pool := l.pool[1..], outputPort := l.outputPort + multiset{l.pool[0]})
  }

  /** Taking the pool's head and offering it to the port. */
  lemma CameraOffer(s: State, accepted: bool)
    requires s.loop == FillCamera && s.camera.pool != []
    ensures var e, l, h := LoopStep(accepted), s.camera, s.camera.pool[0];
            var t := s.(camera := l.(pool := l.pool[1..]), loop := CameraSend(h));
            && Enabled(s, e) && Next(s, e) == t && Enabled(t, e)
            && if accepted then Next(t, e) == s.(camera := FirstSent(l))
               else
                 var u := t.(loop := CameraPutBack(h));
                 Next(t, e) == u && Enabled(u, e) && Next(u, e) == s.(loop := Stopped)
  {
    assert [s.camera.pool[0]] + s.camera.pool[1..] == s.camera.pool;
  }

  /** Filling a port from its pool is a run of the loop's single steps. */
  lemma {:induction false} FillIsRun(s: State, answers: nat -> Status, from: nat)
    returns (states: seq<State>, events: seq<Event>)
    requires s.loop == FillCamera
    ensures Run(states, events) && states[0] == s && states[|events|] == Filled(s, answers, from)
    decreases |s.camera.pool|
  {
    hide Accepted, Sent, FirstSent;
    var ok, l := LoopStep(answers(from) == SUCCESS), s.camera;
    if l.pool == [] {
      NoneSent(l, answers, from);
      states, events := [s, s.(loop := FillEncoded)], [ok];
    } else {
      CameraOffer(s, answers(from) == SUCCESS);
      hide Enabled, Next;
      var t := s.(camera := l.(pool := l.pool[1..]), loop := CameraSend(l.pool[0]));
      if answers(from) == SUCCESS {
        OneMoreSent(l, answers, from);
        states, events := FillIsRun(s.(camera := FirstSent(l)), answers, from + 1);
      } else {
        NoneSent(l, answers, from);
        states, events := [t.(loop := CameraPutBack(l.pool[0])), s.(loop := Stopped)], [ok];
      }
      Extends(states, events, t, ok);
      states, events := [t] + states, [ok] + events;
      Extends(states, events, s, ok);
      states, events := [s] + states, [ok] + events;
    }
  }

  /** Taking the pool's head and offering it to the port. */
  lemma EncoderOffer(s: State, accepted: bool)
    requires s.loop == FillEncoded && s.encoded.pool != []
    ensures var e, l, h := LoopStep(accepted), s.encoded, s.encoded.pool[0];
            var t := s.(encoded := l.(pool := l.pool[1..]), loop := EncodedSend(h));
            && Enabled(s, e) && Next(s, e) == t && Enabled(t, e)
            && if accepted then Next(t, e) == s.(encoded := FirstSent(l))
               else
                 var u := t.(loop := EncodedPutBack(h));
                 Next(t, e) == u && Enabled(u, e) && Next(u, e) == s.(loop := Stopped)
  {
    assert [s.encoded.pool[0]] + s.encoded.pool[1..] == s.encoded.pool;
  }

  /** Likewise for the encoder's output port. */
  lemma {:induction false} EncoderFillIsRun(s: State, answers: nat -> Status, from: nat)
    returns (states: seq<State>, events: seq<Event>)
    requires s.loop == FillEncoded
    ensures Run(states, events) && states[0] == s && states[|events|] == EncoderFilledUp(s, answers, from)
    decreases |s.encoded.pool|
  {
    hide Accepted, Sent, FirstSent;
    var ok, l := LoopStep(answers(from) == SUCCESS), s.encoded;
    if l.pool == [] {
      NoneSent(l, answers, from);
      states, events := [s, s.(loop := PassOn)], [ok];
    } else {
      EncoderOffer(s, answers(from) == SUCCESS);
      hide Enabled, Next;
      var t := s.(encoded := l.(pool := l.pool[1..]), loop := EncodedSend(l.pool[0]));
      if answers(from) == SUCCESS {
        OneMoreSent(l, answers, from);
        states, events := EncoderFillIsRun(s.(encoded := FirstSent(l)), answers, from + 1);
      } else {
        NoneSent(l, answers, from);
        states, events := [t.(loop := EncodedPutBack(l.pool[0])), s.(loop := Stopped)], [ok];
      }
      Extends(states, events, t, ok);
      states, events := [t] + states, [ok] + events;
      Extends(states, events, s, ok);
      states, events := [s] + states, [ok] + events;
    }
  }

  lemma NoneSent(l: Link, answers: nat -> Status, from: nat)
    requires l.pool == [] || answers(from) != SUCCESS
    ensures Accepted(answers, from, |l.pool|) == 0 && Sent(l, 0) == l
  {
    assert l.pool[..0] == [] && l.pool[0..] == l.pool;
  }

  lemma AcceptedStep(answers: nat -> Status, from: nat, n: nat)
    requires n > 0 && answers(from) == SUCCESS
    ensures Accepted(answers, from, n) == 1 + Accepted(answers, from + 1, n - 1)
  {
  }

  /** What is left to send after the first header was accepted. */
  lemma OneMoreSent(l: Link, answers: nat -> Status, from: nat)
    requires l.pool != [] && answers(from) == SUCCESS
    ensures |FirstSent(l).pool| == |l.pool| - 1
    ensures var n := Accepted(answers, from + 1, |l.pool| - 1);
            Accepted(answers, from, |l.pool|) == n + 1 && Sent(FirstSent(l), n) == Sent(l, n + 1)
  {
    AcceptedStep(answers, from, |l.pool|);
    FirstIsSent(l);
    hide Accepted, Sent, FirstSent;
    SentMore(l, Accepted(answers, from + 1, |l.pool| - 1));
  }

  lemma FirstIsSent(l: Link)
    requires l.pool != []
    ensures |FirstSent(l).pool| == |l.pool| - 1
  {
  }

  lemma SentMore(l: Link, n: nat)
    requires n < |l.pool|
    ensures Sent(FirstSent(l), n) == Sent(l, n + 1)
  {
    FirstAndRest(l.outputPort, l.pool, n);
  }

  lemma FirstAndRest(sent: multiset<Header>, p: seq<Header>, n: nat)
    requires n < |p|
    ensures p[1..][n..] == p[n + 1..]
    ensures sent + multiset{p[0]} + multiset(p[1..][..n]) == sent + multiset(p[..n + 1])
  {
    assert p[..n + 1] == [p[0]] + p[1..][..n];
  }
}
