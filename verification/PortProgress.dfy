/** Progress of the recorder's loop: what one round does, and when a filled header is passed on. */
module PortProgress {
  import opened MmalQueues
  import opened PortPipeline

  // ---------- one round ----------

  /** The oldest header the camera filled goes to the encoder, if the encoder takes it. */
  function HandedOver(s: State, accepted: bool): State {
    var c := s.camera;
    if c.filled == [] then s.(loop := TakeEncoded)
    else if accepted then
      var h := c.filled[0];
      s.(camera := c.(filled := c.filled[1..], inputPort := c.inputPort + multiset{h}, usedLog := c.usedLog + [h]),
         loop := TakeEncoded)
    else s.(loop := Stopped)
  }

  /** The oldest header the encoder filled is read and goes back to its pool. */
  function Delivered(s: State): State {
    var e := s.encoded;
    if e.filled == [] then s.(loop := FillCamera)
    else
      var h := e.filled[0];
      s.(encoded := e.(filled := e.filled[1..], pool := e.pool + [h], usedLog := e.usedLog + [h]), loop := FillCamera)
  }

  /** How the ports answer the sends of one round. */
  datatype Answers = Answers(camera: nat -> Status, encoder: nat -> Status, input: Status)

  function Round(s: State, a: Answers): State {
    var filled := Filled(s, a.camera, 0);
    if filled.loop == Stopped then filled
    else
      var both := EncoderFilledUp(filled, a.encoder, 0);
      if both.loop == Stopped then both
      else
        var handed := HandedOver(both, a.input == SUCCESS);
        if handed.loop == Stopped then handed else Delivered(handed)
  }

  lemma Join(states: seq<State>, events: seq<Event>, more: seq<State>, later: seq<Event>)
    requires Run(states, events) && Run(more, later) && states[|events|] == more[0]
    ensures Run(states + more[1..], events + later)
    ensures (states + more[1..])[0] == states[0]
    ensures (states + more[1..])[|events + later|] == more[|later|]
  {
    hide Enabled, Next;
    var all, es := states + more[1..], events + later;
    forall k | 0 <= k < |es| ensures Enabled(all[k], es[k]) && all[k + 1] == Next(all[k], es[k]) {
      if k < |events| {
        assert all[k] == states[k] && es[k] == events[k] && all[k + 1] == states[k + 1];
      } else {
        var i := k - |events|;
        assert all[k] == more[i] && es[k] == later[i] && all[k + 1] == more[i + 1];
      }
    }
  }

  lemma HandOverIsRun(s: State, accepted: bool) returns (states: seq<State>, events: seq<Event>)
    requires s.loop == PassOn
    ensures Run(states, events) && states[0] == s && states[|events|] == HandedOver(s, accepted)
  {
    var e := LoopStep(accepted);
    var t := Next(s, e);
    states, events := [s, t], [e];
    if s.camera.filled != [] {
      var u := Next(t, e);
      states, events := states + [u], events + [e];
      if !accepted {
        states, events := states + [Next(u, e)], events + [e];
        assert [s.camera.filled[0]] + s.camera.filled[1..] == s.camera.filled;
      }
    }
  }

  lemma DeliveryIsRun(s: State) returns (states: seq<State>, events: seq<Event>)
    requires s.loop == TakeEncoded
    ensures Run(states, events) && states[0] == s && states[|events|] == Delivered(s)
  {
    var e := LoopStep(true);
    var t := Next(s, e);
    states, events := [s, t], [e];
    if s.encoded.filled != [] {
      states, events := states + [Next(t, e)], events + [e];
    }
  }

  /** One iteration of the recorder's loop, whatever the ports answer, is a run of its single steps. */
  lemma RoundIsRun(s: State, a: Answers) returns (states: seq<State>, events: seq<Event>)
    requires s.loop == FillCamera
    ensures Run(states, events) && states[0] == s && states[|events|] == Round(s, a)
  {
    hide Run, HandedOver, Delivered;
    states, events := FillIsRun(s, a.camera, 0);
    RunHasStates(states, events);
    if states[|events|].loop != Stopped {
      var more, later := EncoderFillIsRun(states[|events|], a.encoder, 0);
      states, events := Continue(states, events, more, later);
      if states[|events|].loop != Stopped {
        more, later := HandOverIsRun(states[|events|], a.input == SUCCESS);
        states, events := Continue(states, events, more, later);
        if states[|events|].loop != Stopped {
          HandedOverOn(more[0], a.input == SUCCESS);
          more, later := DeliveryIsRun(states[|events|]);
          states, events := Continue(states, events, more, later);
        }
      }
    }
  }

  lemma RunHasStates(states: seq<State>, events: seq<Event>)
    requires Run(states, events)
    ensures |states| == |events| + 1
  {
  }

  lemma HandedOverOn(s: State, accepted: bool)
    ensures HandedOver(s, accepted).loop == Stopped || HandedOver(s, accepted).loop == TakeEncoded
  {
  }

  lemma Continue(states: seq<State>, events: seq<Event>, more: seq<State>, later: seq<Event>)
    returns (all: seq<State>, es: seq<Event>)
    requires Run(states, events) && Run(more, later)
    requires states[|events|] == more[0]
    ensures Run(all, es) && |all| == |es| + 1 && all[0] == states[0] && all[|es|] == more[|later|]
  {
    Join(states, events, more, later);
    all, es := states + more[1..], events + later;
  }

  function FirstOf(q: seq<Header>): seq<Header> {
    if q == [] then [] else q[..1]
  }

  function RestOf(q: seq<Header>): seq<Header> {
    if q == [] then [] else q[1..]
  }

  /** Every send of the round is accepted. */
  ghost predicate Willing(a: Answers) {
    a.input == SUCCESS && forall n: nat :: a.camera(n) == SUCCESS && a.encoder(n) == SUCCESS
  }

  /** What a round moves when no port refuses: both pools into their output ports, the oldest header
      the camera filled into the encoder, and the oldest the encoder filled to the application and
      back to its pool. */
  lemma RoundMoves(s: State, a: Answers)
    requires s.loop == FillCamera && Willing(a)
    ensures var c, e, t := s.camera, s.encoded, Round(s, a);
            && t.loop == FillCamera
            && t.camera.pool == [] && t.camera.outputPort == c.outputPort + multiset(c.pool)
            && t.camera.filled == RestOf(c.filled) && t.camera.inputPort == c.inputPort + multiset(FirstOf(c.filled))
            && t.camera.usedLog == c.usedLog + FirstOf(c.filled)
            && t.encoded.pool == FirstOf(e.filled) && t.encoded.outputPort == e.outputPort + multiset(e.pool)
            && t.encoded.filled == RestOf(e.filled)
            && t.encoded.usedLog == e.usedLog + FirstOf(e.filled)
  {
    AllSent(s.camera, a.camera);
    AllSent(s.encoded, a.encoder);
    hide Accepted, Sent;
    var c, e := s.camera, s.encoded;
    assert c.usedLog + [] == c.usedLog && e.usedLog + [] == e.usedLog;
    assert c.filled != [] ==> c.filled[..1] == [c.filled[0]];
    assert e.filled != [] ==> e.filled[..1] == [e.filled[0]] && [] + [e.filled[0]] == [e.filled[0]];
  }

  lemma AllSent(l: Link, answers: nat -> Status)
    requires forall n: nat :: answers(n) == SUCCESS
    ensures Accepted(answers, 0, |l.pool|) == |l.pool|
    ensures Sent(l, |l.pool|) == l.(pool := [], outputPort := l.outputPort + multiset(l.pool))
  {
    assert l.pool[..|l.pool|] == l.pool;
  }

  // ---------- every filled header is delivered ----------

  /** Nobody asks the loop to stop, and no send is refused. */
  predicate Smooth(e: Event) {
    e != StopRequested && (e.LoopStep? ==> e.accepted)
  }

  predicate Going(loop: Loop) {
    !loop.Stopped? && !loop.CameraPutBack? && !loop.EncodedPutBack? && !loop.PassOnPutBack?
  }

  /** Steps the loop still takes until the end of its round; the encoder may hand back headers for the
      camera's pool meanwhile. */
  function Left(s: State): nat {
    var c, e := |s.camera.pool| + |s.camera.inputPort|, |s.encoded.pool|;
    match s.loop
    case FillCamera => 2 * c + 2 * e + 6
    case CameraSend(_) => 2 * c + 2 * e + 7
    case FillEncoded => 2 * e + 5
    case EncodedSend(_) => 2 * e + 6
    case PassOn => 4
    case PassOnSend(_) => 3
    case TakeEncoded => 2
    case Deliver(_) => 1
    case _ => 0
  }

  /** Pools of `n` and `m` headers at most. */
  predicate Small(s: State, n: nat, m: nat) {
    && |s.camera.pool| + |s.camera.inputPort| + |CameraHand(s.loop)| <= n
    && |s.encoded.pool| + |EncodedHand(s.loop)| <= m
  }

  function RoundBound(n: nat, m: nat): nat {
    2 * n + 2 * m + 6
  }

  /** Steps the loop still takes until it has delivered header `x` of those the encoder filled. */
  function StepsTo(s: State, x: nat, n: nat, m: nat): nat {
    var used := |s.encoded.usedLog|;
    if x < used then 0 else (x - used) * RoundBound(n, m) + Left(s)
  }

  lemma LeftIsSmall(s: State, n: nat, m: nat)
    requires Small(s, n, m)
    ensures Left(s) <= RoundBound(n, m)
  {
  }

  lemma LoopLeaves(s: State)
    requires Going(s.loop) && (s.loop == TakeEncoded ==> s.encoded.filled != [])
    ensures var t := LoopNext(s, true);
            && Going(t.loop) && t.encoded.filledLog == s.encoded.filledLog
            && if s.loop.Deliver? then t.encoded.usedLog == s.encoded.usedLog + [s.loop.h] && Left(s) == 1
               else t.encoded.usedLog == s.encoded.usedLog && Left(t) + 1 <= Left(s)
  {
  }

  lemma CallbackLeaves(s: State, e: Event)
    requires Enabled(s, e) && Smooth(e) && !e.LoopStep?
    ensures var t := Next(s, e);
            && t.loop == s.loop && t.encoded.usedLog == s.encoded.usedLog && Left(t) == Left(s)
            && s.encoded.filledLog <= t.encoded.filledLog
  {
  }

  /** A step of the loop either ends the round by a delivery or leaves one step fewer; callbacks leave
      it no more. */
  lemma StepLeaves(s: State, e: Event)
    requires Going(s.loop) && Enabled(s, e) && Smooth(e)
    requires s.loop == TakeEncoded ==> s.encoded.filled != []
    ensures Going(Next(s, e).loop)
    ensures var t := Next(s, e);
            if e.LoopStep? && s.loop.Deliver? then t.encoded.usedLog == s.encoded.usedLog + [s.loop.h] && Left(s) == 1
            else t.encoded.usedLog == s.encoded.usedLog && Left(t) + (if e.LoopStep? then 1 else 0) <= Left(s)
    ensures s.encoded.filledLog <= Next(s, e).encoded.filledLog
  {
    hide LoopNext, Left;
    if e.LoopStep? {
      LoopLeaves(s);
    } else {
      CallbackLeaves(s, e);
    }
  }

  lemma StepsFall(s: State, e: Event, x: nat, n: nat, m: nat)
    requires Going(s.loop) && InOrder(s) && Enabled(s, e) && Smooth(e) && Small(Next(s, e), n, m)
    requires |s.encoded.usedLog| <= x < |s.encoded.filledLog|
    ensures Going(Next(s, e).loop) && s.encoded.filledLog <= Next(s, e).encoded.filledLog
    ensures StepsTo(Next(s, e), x, n, m) + (if e.LoopStep? then 1 else 0) <= StepsTo(s, x, n, m)
  {
    SomethingToTake(s, x);
    StepLeaves(s, e);
    LeftIsSmall(Next(s, e), n, m);
    hide Next, Enabled, Left, Small, RoundBound, InOrder;
    OneRoundLess(x - |s.encoded.usedLog|, RoundBound(n, m));
  }

  lemma OneRoundLess(d: nat, r: nat)
    ensures d > 0 ==> (d - 1) * r == d * r - r
    ensures d == 0 ==> d * r == 0
  {
  }

  lemma SomethingToTake(s: State, x: nat)
    requires InOrder(s) && |s.encoded.usedLog| <= x < |s.encoded.filledLog|
    ensures s.loop == TakeEncoded ==> s.encoded.filled != []
  {
  }

  predicate AllSmooth(events: seq<Event>) {
    forall k :: 0 <= k < |events| ==> Smooth(events[k])
  }

  function LoopSteps(events: seq<Event>): nat {
    if events == [] then 0
    else LoopSteps(events[..|events| - 1]) + (if events[|events| - 1].LoopStep? then 1 else 0)
  }

  /** The pools never hold more than they held at first. */
  lemma StaySmall(states: seq<State>, events: seq<Event>, camera: seq<Header>, encoded: seq<Header>)
    requires Run(states, events) && states[0] == Init(camera, encoded)
    ensures InOrder(states[|events|]) && Small(states[|events|], |camera|, |encoded|)
    ensures |EncodedPassing(states[|events|].loop) + states[|events|].encoded.filled| <= |encoded|
  {
    InitIsOwned(camera, encoded);
    RunKeeps(states, events, multiset(camera), multiset(encoded));
    hide Run, InOrder, Owned, Small, EncodedPassing;
    OwnedIsSmall(states[|events|], camera, encoded);
  }

  lemma OwnedIsSmall(s: State, camera: seq<Header>, encoded: seq<Header>)
    requires Owned(s, multiset(camera), multiset(encoded))
    ensures Small(s, |camera|, |encoded|)
    ensures |EncodedPassing(s.loop) + s.encoded.filled| <= |encoded|
  {
    LinkSize(s.camera, CameraHand(s.loop));
    LinkSize(s.encoded, EncodedHand(s.loop));
    SeqSize(camera);
    SeqSize(encoded);
    hide Whereabouts;
  }

  lemma SeqSize(list: seq<Header>)
    ensures |multiset(list)| == |list|
  {
  }

  lemma LinkSize(l: Link, hand: seq<Header>)
    ensures |Whereabouts(l, hand)| == |l.pool| + |l.outputPort| + |l.filled| + |l.inputPort| + |hand|
  {
  }

  lemma GoingStep(s: State, e: Event)
    requires Going(s.loop) && Enabled(s, e) && Smooth(e)
    ensures Going(Next(s, e).loop)
    ensures |s.encoded.usedLog| <= |Next(s, e).encoded.usedLog|
    ensures s.encoded.filledLog <= Next(s, e).encoded.filledLog
  {
  }

  lemma {:induction false} GoingSoFar(states: seq<State>, events: seq<Event>)
    requires Run(states, events) && Going(states[0].loop) && AllSmooth(events)
    ensures Going(states[|events|].loop)
  {
    hide Next, Enabled, Going, Smooth;
    if events == [] {
    } else {
      var n := |events| - 1;
      GoingSoFar(states[..n + 1], events[..n]);
      assert Enabled(states[n], events[n]) && states[n + 1] == Next(states[n], events[n]);
      GoingStep(states[n], events[n]);
    }
  }

  /** From state `k` on, while header `x` is not delivered, every step of the loop brings that nearer. */
  lemma {:induction false} StepsFallOver(
    states: seq<State>, events: seq<Event>, camera: seq<Header>, encoded: seq<Header>, k: nat, x: nat)
    requires Run(states, events) && states[0] == Init(camera, encoded) && AllSmooth(events)
    requires k <= |events| && x < |states[k].encoded.filledLog|
    ensures var last := states[|events|];
            && Going(states[k].loop) && Going(last.loop)
            && states[k].encoded.filledLog <= last.encoded.filledLog
            && (x < |last.encoded.usedLog|
                || LoopSteps(events[k..]) + StepsTo(last, x, |camera|, |encoded|)
                   <= StepsTo(states[k], x, |camera|, |encoded|))
    decreases |events|
  {
    GoingSoFar(states, events);
    hide InOrder, Small, StepsTo, Next, Enabled, Going, Smooth;
    if k < |events| {
      var n := |events| - 1;
      StepsFallOver(states[..n + 1], events[..n], camera, encoded, k, x);
      assert events[..n][k..] == events[k..][..n - k];
      StaySmall(states[..n + 1], events[..n], camera, encoded);
      StaySmall(states, events, camera, encoded);
      assert Enabled(states[n], events[n]) && states[n + 1] == Next(states[n], events[n]);
      GoingStep(states[n], events[n]);
      if |states[n].encoded.usedLog| <= x {
        StepsFall(states[n], events[n], x, |camera|, |encoded|);
      }
    }
  }

  /** Main theorem: with no refusal and no request to stop, a header the encoder has filled is delivered,
      in its turn, before the loop has taken as many steps as this bound on the two pools says, whatever
      the callbacks do in between; and the loop can always take a step. */
  lemma FilledIsDelivered(
    states: seq<State>, events: seq<Event>, camera: seq<Header>, encoded: seq<Header>, k: nat, x: nat)
    requires Run(states, events) && states[0] == Init(camera, encoded) && AllSmooth(events)
    requires k <= |events| && x < |states[k].encoded.filledLog|
    ensures var last := states[|events|];
            && Enabled(last, LoopStep(true))
            && (LoopSteps(events[k..]) >= |encoded| * RoundBound(|camera|, |encoded|) ==>
                  x < |last.encoded.usedLog| && last.encoded.usedLog[x] == states[k].encoded.filledLog[x])
  {
    assert |states| == |events| + 1;
    hide Run, AllSmooth, Settled, StepsTo, RoundBound, Going, Enabled, Init, LoopSteps;
    var last, n, m := states[|events|], |camera|, |encoded|;
    StepsFallOver(states, events, camera, encoded, k, x);
    GoingCanStep(last);
    AtState(states, events, camera, encoded, k);
    AtState(states, events, camera, encoded, |events|);
    StepsAreFew(states[k], x, n, m);
    StepsAreFew(last, x, n, m);
    if LoopSteps(events[k..]) >= m * RoundBound(n, m) {
      Taken(last, states[k], n, m, x);
    }
  }

  /** What is known of a reachable state of the encoder's link. */
  predicate Settled(s: State, n: nat, m: nat) {
    && Small(s, n, m) && s.encoded.usedLog <= s.encoded.filledLog
    && s.encoded.filledLog[|s.encoded.usedLog|..] == EncodedPassing(s.loop) + s.encoded.filled
    && |EncodedPassing(s.loop) + s.encoded.filled| <= m
  }

  lemma AtState(states: seq<State>, events: seq<Event>, camera: seq<Header>, encoded: seq<Header>, k: nat)
    requires Run(states, events) && states[0] == Init(camera, encoded) && k <= |events|
    ensures Settled(states[k], |camera|, |encoded|)
  {
    var before, past := states[..k + 1], events[..k];
    assert Run(before, past) by {
      assert forall i :: 0 <= i < k ==> past[i] == events[i];
    }
    hide Run, Small, Whereabouts, EncodedPassing, CameraPassing, InOrder;
    StaySmall(before, past, camera, encoded);
    EveryHeaderInOnePlace(before, past, camera, encoded);
  }

  lemma GoingCanStep(s: State)
    requires Going(s.loop)
    ensures Enabled(s, LoopStep(true))
  {
  }

  lemma Taken(last: State, first: State, n: nat, m: nat, x: nat)
    requires Settled(last, n, m) && first.encoded.filledLog <= last.encoded.filledLog
    requires x < |first.encoded.filledLog| && x < |last.encoded.usedLog|
    ensures last.encoded.usedLog[x] == first.encoded.filledLog[x]
  {
  }

  lemma StepsAreFew(s: State, x: nat, n: nat, m: nat)
    requires Going(s.loop) && Settled(s, n, m) && x < |s.encoded.filledLog|
    ensures x < |s.encoded.usedLog| || 0 < StepsTo(s, x, n, m) <= m * RoundBound(n, m)
  {
    LeftIsSmall(s, n, m);
    var used, r := |s.encoded.usedLog|, RoundBound(n, m);
    if used <= x {
      assert x - used < |s.encoded.filledLog[used..]|;
      hide RoundBound, Small, EncodedPassing;
      Product(x - used, m, r);
    }
  }

  lemma {:induction false} Product(d: nat, m: nat, r: nat)
    requires d < m
    ensures 0 <= d * r && d * r + r <= m * r
  {
    assert m * r == (m - 1) * r + r;
    if d < m - 1 {
      Product(d, m - 1, r);
    } else {
      assert d == m - 1;
    }
    NotNegative(d, r);
  }

  lemma {:induction false} NotNegative(d: nat, r: nat)
    ensures 0 <= d * r
  {
    if d > 0 {
      NotNegative(d - 1, r);
      assert d * r == (d - 1) * r + r;
    }
  }

  /** The ports may hand back any of their headers at any time, and the loop may be asked to stop at
      the start of a round. */
  lemma AnyTime(s: State, h: Header)
    ensures h in s.camera.outputPort ==> Enabled(s, CameraFilled(h))
    ensures h in s.encoded.outputPort ==> Enabled(s, EncoderFilled(h))
    ensures h in s.camera.inputPort ==> Enabled(s, EncoderConsumed(h))
    ensures s.loop == FillCamera ==> Enabled(s, StopRequested)
  {
  }

  // ---------- what the callbacks and the caller did ----------

  /** The headers of the events of one kind, in order. */
  function CameraFills(events: seq<Event>): seq<Header> {
    if events == [] then []
    else
      var n := |events| - 1;
      if events[n].CameraFilled? then CameraFills(events[..n]) + [events[n].h] else CameraFills(events[..n])
  }

  function EncoderFills(events: seq<Event>): seq<Header> {
    if events == [] then []
    else
      var n := |events| - 1;
      if events[n].EncoderFilled? then EncoderFills(events[..n]) + [events[n].h] else EncoderFills(events[..n])
  }

  function Consumptions(events: seq<Event>): seq<Header> {
    if events == [] then []
    else
      var n := |events| - 1;
      if events[n].EncoderConsumed? then Consumptions(events[..n]) + [events[n].h] else Consumptions(events[..n])
  }

  /** What the callbacks handed over is what the loop passes on; the encoder holds what it was sent and
      has not consumed; and a request stops the loop for good. */
  predicate Recorded(s: State, events: seq<Event>) {
    && s.camera.filledLog == CameraFills(events)
    && s.encoded.filledLog == EncoderFills(events)
    && s.camera.inputPort + multiset(Consumptions(events)) == multiset(s.camera.usedLog)
    && (StopRequested in events ==> s.loop == Stopped)
  }

  lemma LoopKeepsRecords(s: State, accepted: bool, consumed: multiset<Header>)
    ensures var t := LoopNext(s, accepted);
            && t.camera.filledLog == s.camera.filledLog && t.encoded.filledLog == s.encoded.filledLog
            && (s.camera.inputPort + consumed == multiset(s.camera.usedLog) ==>
                  t.camera.inputPort + consumed == multiset(t.camera.usedLog))
            && (s.loop == Stopped ==> t.loop == Stopped)
  {
    if s.loop.PassOnSend? && accepted {
      var h, l := s.loop.h, s.camera;
      assert multiset(l.usedLog + [h]) == multiset(l.usedLog) + multiset{h};
    }
  }

  lemma RecordsSnoc(past: seq<Event>, e: Event)
    ensures CameraFills(past + [e]) == CameraFills(past) + (if e.CameraFilled? then [e.h] else [])
    ensures EncoderFills(past + [e]) == EncoderFills(past) + (if e.EncoderFilled? then [e.h] else [])
    ensures Consumptions(past + [e]) == Consumptions(past) + (if e.EncoderConsumed? then [e.h] else [])
    ensures StopRequested in past + [e] <==> StopRequested in past || e == StopRequested
  {
    var all := past + [e];
    assert all[..|past|] == past && all[|past|] == e;
  }

  lemma StepKeepsRecorded(s: State, past: seq<Event>, e: Event)
    requires Recorded(s, past) && Enabled(s, e)
    ensures Recorded(Next(s, e), past + [e])
  {
    RecordsSnoc(past, e);
    hide LoopNext, CameraFills, EncoderFills, Consumptions;
    assert CameraFills(past) + [] == CameraFills(past) && EncoderFills(past) + [] == EncoderFills(past);
    assert Consumptions(past) + [] == Consumptions(past);
    if e.LoopStep? {
      LoopKeepsRecords(s, e.accepted, multiset(Consumptions(past)));
    } else if e.EncoderConsumed? {
      assert multiset(Consumptions(past) + [e.h]) == multiset(Consumptions(past)) + multiset{e.h};
    }
  }

  lemma {:induction false} EventsAreRecorded(
    states: seq<State>, events: seq<Event>, camera: seq<Header>, encoded: seq<Header>)
    requires Run(states, events) && states[0] == Init(camera, encoded)
    ensures Recorded(states[|events|], events)
  {
    if events == [] {
    } else {
      hide Enabled, Next, Recorded;
      var n := |events| - 1;
      EventsAreRecorded(states[..n + 1], events[..n], camera, encoded);
      assert Enabled(states[n], events[n]) && states[n + 1] == Next(states[n], events[n]);
      StepKeepsRecorded(states[n], events[..n], events[n]);
      assert events == events[..n] + [events[n]];
    }
  }
}
