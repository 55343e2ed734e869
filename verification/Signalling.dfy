/** The two ends of one call: the browser's signal handlers and the server's WebRTC handler, joined
    by two FIFO channels.  Handlers run to completion; the browser's promises and the server's
    gathering thread are separate steps. */
module Signalling {

  type Candidate = nat

  datatype ToServer = Call | Answer | AddIceCandidate(candidate: Candidate) | Hangup

  datatype Socket = Connecting | Open | Closing | Closed

  /** `setting` and `answering` count the pending calls of setRemoteDescription and createAnswer;
      `local` is set once setLocalDescription was called, which starts gathering. */
  datatype Browser = Browser(socket: Socket, setting: nat, answering: nat, local: bool)

  /** What the server does to its peer connection. */
  datatype Applied = SetRemoteDescription | AddRemoteCandidate(candidate: Candidate) | Close

  /** `Creating` is inside createPeerConnection, before the client is in the table. */
  datatype Server = Idle | Creating | Ready | Ended

  /** `toBrowser` counts the offers in flight.  `sent`, `received`, `offersSent`, `offersReceived`
      and `applied` are history. */
  datatype State = State(
    browser: Browser,
    server: Server,
    gathered: bool,
    toServer: seq<ToServer>,
    toBrowser: nat,
    sent: seq<ToServer>,
    received: seq<ToServer>,
    offersSent: nat,
    offersReceived: nat,
    applied: seq<Applied>)

  function Init(): State {
    State(Browser(Connecting, 0, 0, false), Idle, false, [], 0, [], [], 0, 0, [])
  }

  datatype Event =
    | SocketOpens
    | OfferArrives
    | RemoteDescriptionSet
    | RemoteDescriptionFails
    | AnswerCreated
    | AnswerFails
    | CandidateFound(candidate: Candidate)
    | UserHangsUp
    | SocketCloses
    | ServerReceives
    | ClientStored
    | GatheringCompletes

  predicate Enabled(s: State, e: Event) {
    var b := s.browser;
    match e
    case SocketOpens => b.socket == Connecting
    case OfferArrives => (b.socket == Open || b.socket == Closing) && s.toBrowser > 0
    case RemoteDescriptionSet => b.setting > 0
    case RemoteDescriptionFails => b.setting > 0
    case AnswerCreated => b.answering > 0
    case AnswerFails => b.answering > 0
    case CandidateFound(_) => b.local && b.socket != Closed
    case UserHangsUp => b.socket == Open || b.socket == Closing
    case SocketCloses => b.socket != Closed
    case ServerReceives => s.server != Creating && s.toServer != []
    case ClientStored => s.server == Creating
    case GatheringCompletes => (s.server == Creating || s.server == Ready) && !s.gathered
  }

  /** `ws.send`: silently dropped unless the socket is open. */
  function Send(s: State, m: ToServer): State {
    if s.browser.socket == Open then s.(toServer := s.toServer + [m], sent := s.sent + [m]) else s
  }

  function Next(s: State, e: Event): State
    requires Enabled(s, e)
  {
    var b := s.browser;
    match e
    case SocketOpens => Send(s.(browser := b.(socket := Open)), Call)
    case OfferArrives =>
      s.(toBrowser := s.toBrowser - 1, offersReceived := s.offersReceived + 1, browser := b.(setting := b.setting + 1))
    case RemoteDescriptionSet =>
      s.(browser := b.(setting := b.setting - 1,
                       answering := if b.socket == Closed then b.answering else b.answering + 1))
    case RemoteDescriptionFails =>
      s.(browser := b.(setting := b.setting - 1, socket := if b.socket == Open then Closing else b.socket))
    case AnswerCreated =>
      if b.socket == Closed then s.(browser := b.(answering := b.answering - 1))
      else Send(s.(browser := b.(answering := b.answering - 1, local := true)), Answer)
    case AnswerFails => s.(browser := b.(answering := b.answering - 1))
    case CandidateFound(c) => Send(s, AddIceCandidate(c))
    case UserHangsUp => Send(s, Hangup)
    case SocketCloses => s.(browser := b.(socket := Closed))
    case ServerReceives =>
      OnData(s.(toServer := s.toServer[1..], received := s.received + [s.toServer[0]]), s.toServer[0])
    case ClientStored => s.(server := Ready)
    case GatheringCompletes => s.(gathered := true, toBrowser := s.toBrowser + 1, offersSent := s.offersSent + 1)
  }

  /** `WebRTCHandler::onData`.  A second call would find the client already in the table. */
  function OnData(s: State, m: ToServer): State {
    match m
    case Call => if s.server == Ready then s else s.(server := Creating, gathered := false)
    case Answer => if s.server == Ready then s.(applied := s.applied + [SetRemoteDescription]) else s
    case AddIceCandidate(c) => if s.server == Ready then s.(applied := s.applied + [AddRemoteCandidate(c)]) else s
    case Hangup => if s.server == Ready then s.(server := Ended, applied := s.applied + [Close]) else s
  }

  predicate Run(states: seq<State>, events: seq<Event>) {
    && |states| == |events| + 1
    && forall k :: 0 <= k < |events| ==>
         Enabled(states[k], events[k]) && states[k + 1] == Next(states[k], events[k])
  }

  // ---------- what the browser sends ----------

  predicate AnsweredBefore(m: seq<ToServer>, n: nat)
    requires n <= |m|
  {
    exists i :: 0 <= i < n && m[i] == Answer
  }

  /** One call, first; candidates only behind an answer. */
  predicate WellOrdered(m: seq<ToServer>) {
    && (forall i :: 0 <= i < |m| ==> (m[i] == Call <==> i == 0))
    && (forall i :: 0 <= i < |m| && m[i].AddIceCandidate? ==> AnsweredBefore(m, i))
  }

  predicate BrowserSound(s: State) {
    && WellOrdered(s.sent)
    && s.sent == s.received + s.toServer
    && (s.browser.socket == Connecting ==> s.sent == [])
    && (s.browser.socket == Open ==> s.sent != [] && (s.browser.local ==> AnsweredBefore(s.sent, |s.sent|)))
    && (s.browser.setting + s.browser.answering > 0 || s.browser.local || AnsweredBefore(s.sent, |s.sent|)
        ==> s.offersReceived > 0)
    && (s.browser.socket == Connecting ==> s.browser.setting == s.browser.answering == 0 && !s.browser.local)
    && s.offersSent == s.offersReceived + s.toBrowser
  }

  // ---------- what the server applies ----------

  predicate RemoteSet(a: seq<Applied>, n: nat)
    requires n <= |a|
  {
    exists i :: 0 <= i < n && a[i] == SetRemoteDescription
  }

  /** No candidate before the remote description, nothing after the connection is closed. */
  predicate Proper(a: seq<Applied>) {
    && (forall i :: 0 <= i < |a| && a[i].AddRemoteCandidate? ==> RemoteSet(a, i))
    && (forall i :: 0 <= i < |a| - 1 ==> a[i] != Close)
  }

  predicate ServerSound(s: State) {
    && Proper(s.applied)
    && (s.server == Idle <==> s.received == [])
    && (s.server == Creating ==> s.received == [Call])
    && (s.server == Creating || s.server == Idle ==> s.applied == [])
    && (s.server == Ready ==> s.applied == [] || s.applied[|s.applied| - 1] != Close)
    && (s.server == Ready && AnsweredBefore(s.received, |s.received|) ==> RemoteSet(s.applied, |s.applied|))
    && (RemoteSet(s.applied, |s.applied|) ==> AnsweredBefore(s.received, |s.received|))
  }

  lemma SnocAnswered(m: seq<ToServer>, x: ToServer)
    ensures forall n: nat | n <= |m| :: AnsweredBefore(m + [x], n) <==> AnsweredBefore(m, n)
    ensures AnsweredBefore(m + [x], |m| + 1) <==> AnsweredBefore(m, |m|) || x == Answer
  {
    assert forall i :: 0 <= i < |m| ==> (m + [x])[i] == m[i];
    assert (m + [x])[|m|] == x;
    forall n: nat | n <= |m| && AnsweredBefore(m, n) ensures AnsweredBefore(m + [x], n) {
      var i :| 0 <= i < n && m[i] == Answer;
      assert (m + [x])[i] == Answer;
    }
    if AnsweredBefore(m, |m|) {
      var i :| 0 <= i < |m| && m[i] == Answer;
      assert (m + [x])[i] == Answer;
    }
  }

  lemma SendKeepsOrder(m: seq<ToServer>, x: ToServer)
    requires WellOrdered(m)
    requires x == Call <==> m == []
    requires x.AddIceCandidate? ==> AnsweredBefore(m, |m|)
    ensures WellOrdered(m + [x])
  {
    SnocAnswered(m, x);
  }

  /** Sending keeps the browser's side in order, given what `x` needs. */
  lemma SendKeepsBrowser(s: State, x: ToServer)
    requires BrowserSound(s) && (s.browser.socket == Open ==> (x == Call <==> s.sent == []))
    requires x.AddIceCandidate? && s.browser.socket == Open ==> AnsweredBefore(s.sent, |s.sent|)
    requires x == Answer && s.browser.socket == Open ==> s.offersReceived > 0
    ensures BrowserSound(Send(s, x))
  {
    if s.browser.socket == Open {
      SendKeepsOrder(s.sent, x);
      SnocAnswered(s.sent, x);
      assert s.sent + [x] == s.received + (s.toServer + [x]);
    }
  }

  lemma AnswerKeepsBrowser(s: State)
    requires BrowserSound(s) && Enabled(s, AnswerCreated)
    ensures BrowserSound(Next(s, AnswerCreated))
  {
    if s.browser.socket == Open {
      SendKeepsOrder(s.sent, Answer);
      SnocAnswered(s.sent, Answer);
      assert s.sent + [Answer] == s.received + (s.toServer + [Answer]);
    }
  }

  lemma OpeningKeepsBrowser(s: State)
    requires BrowserSound(s) && Enabled(s, SocketOpens)
    ensures BrowserSound(Next(s, SocketOpens))
  {
    SendKeepsOrder([], Call);
    SnocAnswered([], Call);
    assert s.sent + [Call] == s.received + (s.toServer + [Call]);
  }

  lemma ReceivingKeepsBrowser(s: State)
    requires BrowserSound(s) && Enabled(s, ServerReceives)
    ensures BrowserSound(Next(s, ServerReceives))
  {
    assert s.received + s.toServer == (s.received + [s.toServer[0]]) + s.toServer[1..];
  }

  lemma BrowserStep(s: State, e: Event)
    requires BrowserSound(s) && Enabled(s, e)
    ensures BrowserSound(Next(s, e))
  {
    match e
    case SocketOpens => OpeningKeepsBrowser(s);
    case AnswerCreated => AnswerKeepsBrowser(s);
    case ServerReceives => ReceivingKeepsBrowser(s);
    case CandidateFound(c) => SendKeepsBrowser(s, AddIceCandidate(c));
    case UserHangsUp =>
      if s.browser.socket == Open {
        SendKeepsBrowser(s, Hangup);
      }
    case _ => hide WellOrdered, AnsweredBefore;
  }

  lemma SnocApplied(a: seq<Applied>, x: Applied)
    requires Proper(a) && (a == [] || a[|a| - 1] != Close)
    requires x.AddRemoteCandidate? ==> RemoteSet(a, |a|)
    ensures Proper(a + [x])
    ensures RemoteSet(a + [x], |a| + 1) <==> RemoteSet(a, |a|) || x == SetRemoteDescription
  {
    assert forall i :: 0 <= i < |a| ==> (a + [x])[i] == a[i];
    assert (a + [x])[|a|] == x;
    forall n: nat | n <= |a| && RemoteSet(a, n) ensures RemoteSet(a + [x], n) {
      var i :| 0 <= i < n && a[i] == SetRemoteDescription;
      assert (a + [x])[i] == SetRemoteDescription;
    }
    if RemoteSet(a, |a|) {
      var i :| 0 <= i < |a| && a[i] == SetRemoteDescription;
      assert (a + [x])[i] == SetRemoteDescription;
    }
  }

  /** The head of the channel is a call exactly when nothing was received before, and a candidate
      only once an answer was received: the channel is first in, first out. */
  lemma HeadOfChannel(s: State)
    requires BrowserSound(s) && s.toServer != []
    ensures s.toServer[0] == Call <==> s.received == []
    ensures s.toServer[0].AddIceCandidate? ==> AnsweredBefore(s.received, |s.received|)
  {
    var n := |s.received|;
    assert s.sent[n] == s.toServer[0];
    if s.toServer[0].AddIceCandidate? {
      var i :| 0 <= i < n && s.sent[i] == Answer;
      assert s.received[i] == Answer;
    }
  }

  /** The server handles the head of the channel while the client is in its table. */
  lemma ReadyStep(s: State)
    requires BrowserSound(s) && ServerSound(s) && s.server == Ready && s.toServer != []
    ensures ServerSound(Next(s, ServerReceives))
  {
    hide BrowserSound, Proper, AnsweredBefore, RemoteSet;
    var m := s.toServer[0];
    HeadOfChannel(s);
    SnocAnswered(s.received, m);
    var x := match m
      case Answer => SetRemoteDescription
      case AddIceCandidate(c) => AddRemoteCandidate(c)
      case _ => Close;
    SnocApplied(s.applied, x);
  }

  lemma ServerStep(s: State, e: Event)
    requires BrowserSound(s) && ServerSound(s) && Enabled(s, e)
    ensures ServerSound(Next(s, e))
  {
    hide BrowserSound, Proper;
    if e.ServerReceives? {
      if s.server == Ready {
        ReadyStep(s);
      } else {
        HeadOfChannel(s);
        SnocAnswered(s.received, s.toServer[0]);
      }
    }
  }

  lemma {:induction false} RunKeepsSound(states: seq<State>, events: seq<Event>)
    requires Run(states, events) && states[0] == Init()
    ensures BrowserSound(states[|events|]) && ServerSound(states[|events|])
  {
    hide BrowserSound, ServerSound, Enabled, Next;
    if events == [] {
      BrowserStartsSound();
      ServerStartsSound();
    } else {
      var n := |events| - 1;
      RunKeepsSound(states[..n + 1], events[..n]);
      BrowserStep(states[n], events[n]);
      ServerStep(states[n], events[n]);
    }
  }

  lemma BrowserStartsSound()
    ensures BrowserSound(Init())
  {
  }

  lemma ServerStartsSound()
    ensures ServerSound(Init())
  {
  }

  /** Main theorem, over all interleavings of one call: the server adds a remote candidate only after
      it has set the remote description, sets one only when the offer of this session was sent and
      received, and does nothing to the connection after closing it. */
  lemma SignallingIsProper(states: seq<State>, events: seq<Event>)
    requires Run(states, events) && states[0] == Init()
    ensures var s := states[|events|];
            && Proper(s.applied)
            && (RemoteSet(s.applied, |s.applied|) ==> 0 < s.offersReceived <= s.offersSent)
  {
    RunKeepsSound(states, events);
    var s := states[|events|];
    if RemoteSet(s.applied, |s.applied|) {
      var i :| 0 <= i < |s.received| && s.received[i] == Answer;
      assert s.sent[i] == Answer;
    }
  }

  // ---------- which candidates ----------

  function BeforeHangup(m: seq<ToServer>): seq<ToServer> {
    if m == [] || m[0] == Hangup then [] else [m[0]] + BeforeHangup(m[1..])
  }

  function CandidatesOf(m: seq<ToServer>): seq<Candidate> {
    if m == [] then []
    else
      var last := m[|m| - 1];
      var before := CandidatesOf(m[..|m| - 1]);
      if last.AddIceCandidate? then before + [last.candidate] else before
  }

  function CandidatesAdded(a: seq<Applied>): seq<Candidate> {
    if a == [] then []
    else
      var last := a[|a| - 1];
      var before := CandidatesAdded(a[..|a| - 1]);
      if last.AddRemoteCandidate? then before + [last.candidate] else before
  }

  /** What a message asks the server to do. */
  function Effect(m: ToServer): seq<Applied> {
    match m
    case Call => []
    case Answer => [SetRemoteDescription]
    case AddIceCandidate(c) => [AddRemoteCandidate(c)]
    case Hangup => [Close]
  }

  function Effects(m: seq<ToServer>): seq<Applied> {
    if m == [] then [] else Effects(m[..|m| - 1]) + Effect(m[|m| - 1])
  }

  /** What was applied so far is what the messages before the first hangup ask for, and the closing
      that the first hangup asks for, if there was one; the client is in the table, or about to be,
      until then. */
  predicate Faithful(s: State) {
    && s.applied == Effects(BeforeHangup(s.received)) + (if BeforeHangup(s.received) == s.received then [] else [Close])
    && (s.server == Ended <==> BeforeHangup(s.received) != s.received)
    && CandidatesAdded(s.applied) == CandidatesOf(BeforeHangup(s.received))
  }

  lemma EffectsSnoc(m: seq<ToServer>, x: ToServer)
    ensures Effects(m + [x]) == Effects(m) + Effect(x)
  {
    assert (m + [x])[..|m|] == m;
  }

  lemma {:induction false} BeforeHangupSnoc(m: seq<ToServer>, x: ToServer)
    ensures BeforeHangup(m) <= m
    ensures BeforeHangup(m + [x]) == if BeforeHangup(m) == m && x != Hangup then m + [x] else BeforeHangup(m)
  {
    if m == [] {
      assert ([] + [x])[1..] == [];
    } else {
      assert (m + [x])[1..] == m[1..] + [x];
      BeforeHangupSnoc(m[1..], x);
      assert m == [m[0]] + m[1..];
    }
  }

  lemma CandidatesSnoc(m: seq<ToServer>, x: ToServer, a: seq<Applied>, y: Applied)
    ensures CandidatesOf(m + [x]) == if x.AddIceCandidate? then CandidatesOf(m) + [x.candidate] else CandidatesOf(m)
    ensures CandidatesAdded(a + [y])
         == if y.AddRemoteCandidate? then CandidatesAdded(a) + [y.candidate] else CandidatesAdded(a)
  {
    assert (m + [x])[..|m|] == m && (a + [y])[..|a|] == a;
  }

  lemma StepKeepsFaithful(s: State, e: Event)
    requires BrowserSound(s) && ServerSound(s) && Faithful(s) && Enabled(s, e)
    ensures Faithful(Next(s, e))
  {
    hide BrowserSound, Proper, AnsweredBefore, RemoteSet, CandidatesOf, CandidatesAdded, BeforeHangup, Effects;
    if e.ServerReceives? {
      var m := s.toServer[0];
      EffectsSnoc(s.received, m);
      assert s.applied + [] == s.applied && Effects(s.received) + [] == Effects(s.received);
      HeadOfChannel(s);
      BeforeHangupSnoc(s.received, m);
      CandidatesSnoc(s.received, m, s.applied, SetRemoteDescription);
      CandidatesSnoc(s.received, m, s.applied, Close);
      if m.AddIceCandidate? {
        CandidatesSnoc(s.received, m, s.applied, AddRemoteCandidate(m.candidate));
      }
    }
  }

  lemma {:induction false} RunKeepsFaithful(states: seq<State>, events: seq<Event>)
    requires Run(states, events) && states[0] == Init()
    ensures Faithful(states[|events|])
  {
    hide BrowserSound, ServerSound, Faithful, Enabled, Next;
    if events == [] {
      assert Faithful(Init()) by {
        StartsFaithful();
      }
    } else {
      var n := |events| - 1;
      RunKeepsFaithful(states[..n + 1], events[..n]);
      RunKeepsSound(states[..n + 1], events[..n]);
      StepKeepsFaithful(states[n], events[n]);
    }
  }

  lemma StartsFaithful()
    ensures Faithful(Init())
  {
  }

  /** Main theorem on the server: it has done exactly what the messages it received before the first
      hangup ask for, in order, and has closed the connection exactly if it received a hangup; what it
      received is a prefix of what was sent. */
  lemma MessagesAreApplied(states: seq<State>, events: seq<Event>)
    requires Run(states, events) && states[0] == Init()
    ensures var s := states[|events|];
            && s.received <= s.sent
            && s.applied == Effects(BeforeHangup(s.received)) + (if Hangup in s.received then [Close] else [])
            && (s.server == Ended <==> Hangup in s.received)
            && (s.server == Ended <==> s.applied != [] && s.applied[|s.applied| - 1] == Close)
  {
    var s := states[|events|];
    HangupReceived(s.received);
    hide Effects, BeforeHangup;
    RunKeepsSound(states, events);
    RunKeepsFaithful(states, events);
    EffectsNeverClose(BeforeHangup(s.received));
  }

  lemma {:induction false} HangupReceived(m: seq<ToServer>)
    ensures Hangup in m <==> BeforeHangup(m) != m
    ensures Hangup !in BeforeHangup(m)
  {
    if m == [] {
    } else {
      HangupReceived(m[1..]);
      assert m == [m[0]] + m[1..];
    }
  }

  lemma {:induction false} EffectsNeverClose(m: seq<ToServer>)
    requires Hangup !in m
    ensures Close !in Effects(m)
  {
    if m == [] {
    } else {
      assert m == m[..|m| - 1] + [m[|m| - 1]];
      EffectsNeverClose(m[..|m| - 1]);
    }
  }

  /** On candidates: the server adds exactly those it was sent before the first hangup it received,
      each once and in the order sent. */
  lemma CandidatesArrive(states: seq<State>, events: seq<Event>)
    requires Run(states, events) && states[0] == Init()
    ensures var s := states[|events|];
            && s.received <= s.sent
            && CandidatesAdded(s.applied) == CandidatesOf(BeforeHangup(s.received))
  {
    hide CandidatesOf, CandidatesAdded, BeforeHangup, Effects;
    RunKeepsSound(states, events);
    RunKeepsFaithful(states, events);
  }

  // ---------- what the browser sends, and when ----------

  /** The socket has opened and nothing has closed it since. */
  predicate OpenAfter(events: seq<Event>) {
    events != []
    && var last := events[|events| - 1];
       last == SocketOpens
       || (last != SocketCloses && last != RemoteDescriptionFails && OpenAfter(events[..|events| - 1]))
  }

  /** The messages the page's events ask for while the socket is open. */
  function Asked(events: seq<Event>): seq<ToServer> {
    if events == [] then []
    else
      var n := |events| - 1;
      var before, open := Asked(events[..n]), OpenAfter(events[..n]);
      match events[n]
      case SocketOpens => before + [Call]
      case AnswerCreated => if open then before + [Answer] else before
      case CandidateFound(c) => if open then before + [AddIceCandidate(c)] else before
      case UserHangsUp => if open then before + [Hangup] else before
      case _ => before
  }

  /** Descriptions set while the socket was not closed, less the answers made or given up since. */
  function AnswersOwed(events: seq<Event>): int {
    if events == [] then 0
    else
      var n := |events| - 1;
      var before := AnswersOwed(events[..n]);
      match events[n]
      case RemoteDescriptionSet => if SocketCloses in events[..n] then before else before + 1
      case AnswerCreated => before - 1
      case AnswerFails => before - 1
      case _ => before
  }

  /** An answer was made while the socket was not closed: gathering has started. */
  predicate Gathers(events: seq<Event>) {
    events != []
    && var n := |events| - 1;
       Gathers(events[..n]) || (events[n] == AnswerCreated && SocketCloses !in events[..n])
  }

  function Times(events: seq<Event>, e: Event): nat {
    if events == [] then 0
    else Times(events[..|events| - 1], e) + (if events[|events| - 1] == e then 1 else 0)
  }

  /** Nothing is sent but what was asked for, all of it, in order; each completed gathering sent an
      offer, and each offer that arrived has been or is being set. */
  predicate Bookkept(s: State, events: seq<Event>) {
    MessagesBooked(s, events) && StepsBooked(s, events)
  }

  predicate MessagesBooked(s: State, events: seq<Event>) {
    && (s.browser.socket == Open <==> OpenAfter(events))
    && s.sent == Asked(events)
    && s.offersSent == Times(events, GatheringCompletes)
    && s.offersReceived == Times(events, OfferArrives)
  }

  predicate StepsBooked(s: State, events: seq<Event>) {
    && (s.browser.socket == Closed <==> SocketCloses in events)
    && s.browser.answering == AnswersOwed(events)
    && (s.browser.local <==> Gathers(events))
    && s.browser.setting + Times(events, RemoteDescriptionSet) + Times(events, RemoteDescriptionFails)
       == Times(events, OfferArrives)
  }

  lemma StepKeepsMessagesBooked(s: State, past: seq<Event>, e: Event)
    requires MessagesBooked(s, past) && Enabled(s, e)
    ensures MessagesBooked(Next(s, e), past + [e])
  {
    var all := past + [e];
    assert all[..|past|] == past && all[|past|] == e;
  }

  lemma StepKeepsStepsBooked(s: State, past: seq<Event>, e: Event)
    requires StepsBooked(s, past) && Enabled(s, e)
    ensures StepsBooked(Next(s, e), past + [e])
  {
    var all := past + [e];
    assert all[..|past|] == past && all[|past|] == e;
    assert SocketCloses in all <==> SocketCloses in past || e == SocketCloses;
  }

  lemma {:induction false} BooksAreKept(states: seq<State>, events: seq<Event>)
    requires Run(states, events) && states[0] == Init()
    ensures Bookkept(states[|events|], events)
  {
    if events == [] {
    } else {
      hide Enabled, Next, MessagesBooked, StepsBooked;
      var n := |events| - 1;
      BooksAreKept(states[..n + 1], events[..n]);
      assert Enabled(states[n], events[n]) && states[n + 1] == Next(states[n], events[n]);
      StepKeepsMessagesBooked(states[n], events[..n], events[n]);
      StepKeepsStepsBooked(states[n], events[..n], events[n]);
      assert events == events[..n] + [events[n]];
    }
  }

  /** What may go wrong, or be cut short, at any time. */
  lemma CanFail(s: State)
    ensures s.browser.setting > 0 ==> Enabled(s, RemoteDescriptionSet) && Enabled(s, RemoteDescriptionFails)
    ensures s.browser.answering > 0 ==> Enabled(s, AnswerCreated) && Enabled(s, AnswerFails)
    ensures s.browser.socket != Closed ==> Enabled(s, SocketCloses)
    ensures s.browser.socket == Open || s.browser.socket == Closing ==> Enabled(s, UserHangsUp)
  {
  }

  /** A candidate may still be found while the socket closes, and is dropped then. */
  lemma ClosingDrops(s: State, c: Candidate)
    requires s.browser.local && s.browser.socket == Closing
    ensures Enabled(s, CandidateFound(c)) && Next(s, CandidateFound(c)) == s
  {
  }

  // ---------- a call that goes through ----------

  lemma More(states: seq<State>, events: seq<Event>, e: Event) returns (all: seq<State>, es: seq<Event>, last: State)
    requires Run(states, events) && Enabled(states[|events|], e)
    ensures Run(all, es) && |all| == |es| + 1 && all[0] == states[0]
    ensures last == all[|es|] == Next(states[|events|], e)
  {
    hide Enabled, Next;
    last := Next(states[|events|], e);
    all, es := states + [last], events + [e];
  }

  function Adding(candidates: seq<Candidate>): (a: seq<Applied>)
    ensures |a| == |candidates| && forall i :: 0 <= i < |a| ==> a[i] == AddRemoteCandidate(candidates[i])
  {
    seq(|candidates|, i requires 0 <= i < |candidates| => AddRemoteCandidate(candidates[i]))
  }

  predicate Talking(s: State, added: seq<Applied>) {
    && s.browser.socket == Open && s.browser.local && s.server == Ready && s.toServer == []
    && s.applied == [SetRemoteDescription] + added
  }

  lemma CallIsSetUp() returns (states: seq<State>, events: seq<Event>, s: State)
    ensures Run(states, events) && |states| == |events| + 1 && states[0] == Init() && s == states[|events|]
    ensures Talking(s, [])
  {
    states, events, s := [Init()], [], Init();
    assert Run(states, events);
    hide Run;
    states, events, s := More(states, events, SocketOpens);
    states, events, s := More(states, events, ServerReceives);
    states, events, s := More(states, events, GatheringCompletes);
    states, events, s := More(states, events, ClientStored);
    states, events, s := More(states, events, OfferArrives);
    states, events, s := More(states, events, RemoteDescriptionSet);
    states, events, s := More(states, events, AnswerCreated);
    states, events, s := More(states, events, ServerReceives);
  }

  lemma {:induction false} CandidatesGoThrough(candidates: seq<Candidate>)
    returns (states: seq<State>, events: seq<Event>, s: State)
    ensures Run(states, events) && |states| == |events| + 1 && states[0] == Init() && s == states[|events|]
    ensures Talking(s, Adding(candidates))
  {
    hide Run;
    if candidates == [] {
      states, events, s := CallIsSetUp();
    } else {
      var n := |candidates| - 1;
      states, events, s := CandidatesGoThrough(candidates[..n]);
      states, events, s := More(states, events, CandidateFound(candidates[n]));
      states, events, s := More(states, events, ServerReceives);
      assert Adding(candidates) == Adding(candidates[..n]) + [AddRemoteCandidate(candidates[n])];
    }
  }

  /** A call can go through from beginning to end with any candidates. */
  lemma CallGoesThrough(candidates: seq<Candidate>) returns (states: seq<State>, events: seq<Event>)
    ensures Run(states, events) && states[0] == Init()
    ensures states[|events|].server == Ended
    ensures states[|events|].applied == [SetRemoteDescription] + Adding(candidates) + [Close]
  {
    hide Run;
    var s;
    states, events, s := CandidatesGoThrough(candidates);
    states, events, s := More(states, events, UserHangsUp);
    states, events, s := More(states, events, ServerReceives);
  }

  /** Once the client has hung up and the server has heard of it, nothing is applied any more. */
  lemma {:induction false} NothingAfterHangup(states: seq<State>, events: seq<Event>, k: nat)
    requires Run(states, events) && states[0] == Init() && k < |states| && states[k].server == Ended
    ensures states[|events|].server == Ended && states[|events|].applied == states[k].applied
    decreases |events|
  {
    if k < |events| {
      var n := |events| - 1;
      NothingAfterHangup(states[..n + 1], events[..n], k);
      RunKeepsSound(states[..n + 1], events[..n]);
      assert Enabled(states[n], events[n]) && states[n + 1] == Next(states[n], events[n]);
      if events[n].ServerReceives? {
        HeadOfChannel(states[n]);
      }
    }
  }
}
