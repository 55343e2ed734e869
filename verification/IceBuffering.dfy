/** The browser's candidate buffer: candidates that arrive before the remote description wait, and
    are handed to the peer connection once it is set. */
module IceBuffering {
  import opened Common

  /** A candidate as the server describes it, and the part of it the browser keeps. */
  datatype Description = Description(sdpMLineIndex: nat, sdpMid: string, candidate: string)
  datatype Candidate = Candidate(sdpMLineIndex: nat, candidate: string)

  function Keep(d: Description): (c: Candidate)
    ensures c.sdpMLineIndex == d.sdpMLineIndex && c.candidate == d.candidate
  {
    Candidate(d.sdpMLineIndex, d.candidate)
  }

  /** What the page sees of an open connection.  An offer starts `setRemoteDescription`; its success
      callback is an event of its own. */
  datatype Event =
    | Offer
    | RemoteDescriptionSet
    | Answer
    | Message
    | IceCandidate(data: Option<Description>)   // `None` marks the end of gathering
    | IceCandidates(list: seq<Description>)

  function Kept(list: seq<Description>): (r: seq<Candidate>)
    ensures |r| == |list| && forall i :: 0 <= i < |list| ==> r[i] == Keep(list[i])
  {
    seq(|list|, i requires 0 <= i < |list| => Keep(list[i]))
  }

  function Carries(e: Event): seq<Candidate> {
    match e
    case IceCandidate(data) => if data.None? then [] else [Keep(data.value)]
    case IceCandidates(list) => Kept(list)
    case _ => []
  }

  /** Every candidate that arrived, in order. */
  function Arrivals(events: seq<Event>): seq<Candidate> {
    if events == [] then [] else Arrivals(events[..|events| - 1]) + Carries(events[|events| - 1])
  }

  /** A description the server sent, in a message of its own or in a list. */
  predicate Describes(e: Event, d: Description) {
    e == IceCandidate(Some(d)) || (e.IceCandidates? && d in e.list)
  }

  /** What arrives are the descriptions sent, without their media ids. */
  lemma {:induction false} ArrivesAsSent(events: seq<Event>, c: Candidate)
    ensures c in Arrivals(events) <==>
            exists k, d :: 0 <= k < |events| && Describes(events[k], d)
                           && d.sdpMLineIndex == c.sdpMLineIndex && d.candidate == c.candidate
  {
    hide Carries, Describes;
    if events == [] {
    } else {
      var n := |events| - 1;
      ArrivesAsSent(events[..n], c);
      CarriedAsSent(events[n], c);
      if c in Arrivals(events[..n]) {
        var k, d :| 0 <= k < n && Describes(events[..n][k], d)
                    && d.sdpMLineIndex == c.sdpMLineIndex && d.candidate == c.candidate;
        assert Describes(events[k], d);
      }
      forall k, d | 0 <= k < |events| && Describes(events[k], d)
                    && d.sdpMLineIndex == c.sdpMLineIndex && d.candidate == c.candidate
        ensures c in Arrivals(events)
      {
        if k < n {
          assert Describes(events[..n][k], d);
        }
      }
    }
  }

  lemma {:induction false} AllArrive(events: seq<Event>)
    ensures |Arrivals(events)| == Sent(events)
  {
    if events == [] {
    } else {
      AllArrive(events[..|events| - 1]);
    }
  }

  lemma CarriedAsSent(e: Event, c: Candidate)
    ensures c in Carries(e) <==>
            exists d :: Describes(e, d) && d.sdpMLineIndex == c.sdpMLineIndex && d.candidate == c.candidate
  {
    if c in Carries(e) {
      var i :| 0 <= i < |Carries(e)| && Carries(e)[i] == c;
      var d := if e.IceCandidate? then e.data.value else e.list[i];
      assert Describes(e, d);
    }
    forall d | Describes(e, d) && d.sdpMLineIndex == c.sdpMLineIndex && d.candidate == c.candidate
      ensures c in Carries(e)
    {
      if e.IceCandidates? {
        var i :| 0 <= i < |e.list| && e.list[i] == d;
        assert Carries(e)[i] == c;
      }
    }
  }

  /** How many descriptions were sent. */
  function Sent(events: seq<Event>): nat {
    if events == [] then 0
    else
      var last := events[|events| - 1];
      Sent(events[..|events| - 1])
      + (if last.IceCandidates? then |last.list| else if last.IceCandidate? && last.data.Some? then 1 else 0)
  }

  predicate Described(events: seq<Event>) {
    exists k :: 0 <= k < |events| && events[k] == RemoteDescriptionSet
  }

  lemma ArrivalsSnoc(past: seq<Event>, e: Event)
    ensures Arrivals(past + [e]) == Arrivals(past) + Carries(e)
  {
    assert (past + [e])[..|past|] == past && (past + [e])[|past|] == e;
  }

  lemma Snoc(past: seq<Event>, e: Event)
    ensures Arrivals(past + [e]) == Arrivals(past) + Carries(e)
    ensures Described(past + [e]) <==> Described(past) || e == RemoteDescriptionSet
  {
    assert (past + [e])[..|past|] == past && (past + [e])[|past|] == e;
    assert forall k :: 0 <= k < |past| ==> (past + [e])[k] == past[k];
  }

  class SignalClient {
    var iceCandidates: seq<Candidate>
    var hasRemoteDesc: bool
    /** The candidates handed to the peer connection, in order. */
    var handed: seq<Candidate>

    /** `onopen` creates a fresh peer connection. */
    constructor ()
      ensures iceCandidates == [] && !hasRemoteDesc && handed == []
    {
      iceCandidates, hasRemoteDesc, handed := [], false, [];
    }

    method AddIceCandidates()
      modifies this`handed, this`iceCandidates
      ensures hasRemoteDesc ==> handed == old(handed) + old(iceCandidates) && iceCandidates == []
      ensures !hasRemoteDesc ==> handed == old(handed) && iceCandidates == old(iceCandidates)
    {
      if hasRemoteDesc {
        for i := 0 to |iceCandidates|
          invariant iceCandidates == old(iceCandidates)
          invariant handed == old(handed) + iceCandidates[..i]
        {
          handed := handed + [iceCandidates[i]];
        }
        iceCandidates := [];
      }
    }

    method PushAll(list: seq<Description>)
      modifies this`iceCandidates
      ensures iceCandidates == old(iceCandidates) + Kept(list)
    {
      for i := 0 to |list|
        invariant iceCandidates == old(iceCandidates) + Kept(list)[..i]
      {
        iceCandidates := iceCandidates + [Keep(list[i])];
      }
    }

    /** Handed over and waiting candidates are all that arrived, in order; before the description
        nothing is handed over, and after it nothing waits. */
    ghost predicate Holds(events: seq<Event>)
      reads this
    {
      && hasRemoteDesc == Described(events)
      && handed == (if hasRemoteDesc then Arrivals(events) else [])
      && iceCandidates == (if hasRemoteDesc then [] else Arrivals(events))
    }

    method OnEvent(e: Event, ghost past: seq<Event>)
      requires Holds(past)
      modifies this
      ensures Holds(past + [e])
    {
      Snoc(past, e);
      hide Arrivals, Described;
      match e
      case RemoteDescriptionSet =>
        hasRemoteDesc := true;
        AddIceCandidates();
      case IceCandidate(data) =>
        if data.Some? {
          iceCandidates := iceCandidates + [Keep(data.value)];
          AddIceCandidates();
        }
      case IceCandidates(list) =>
        PushAll(list);
        AddIceCandidates();
      case _ =>
    }

    /** Exactly once and in order, whatever messages arrive when. */
    method OnEvents(events: seq<Event>)
      requires iceCandidates == [] && !hasRemoteDesc && handed == []
      modifies this
      ensures Holds(events)
    {
      assert events[..0] == [] && Holds([]);
      hide Holds;
      for i := 0 to |events|
        invariant Holds(events[..i])
      {
        OnEvent(events[i], events[..i]);
        assert events[..i + 1] == events[..i] + [events[i]];
      }
      assert events[..|events|] == events;
    }
  }

  /** What the server sent, without the browser's own event. */
  function Messages(events: seq<Event>): seq<Event> {
    if events == [] then []
    else
      var n := |events| - 1;
      if events[n] == RemoteDescriptionSet then Messages(events[..n]) else Messages(events[..n]) + [events[n]]
  }

  lemma {:induction false} MessagesCarryAll(events: seq<Event>)
    ensures Arrivals(Messages(events)) == Arrivals(events)
  {
    if events == [] {
    } else {
      var n := |events| - 1;
      MessagesCarryAll(events[..n]);
      if events[n] == RemoteDescriptionSet {
        assert Arrivals(events[..n]) + [] == Arrivals(events[..n]);
      } else {
        Snoc(Messages(events[..n]), events[n]);
      }
    }
  }

  /** The buffer is invisible once the description is set: two pages that are sent the same messages
      hand over the same candidates in the same order, whenever, and however often, each has its
      description set. */
  lemma DescriptionTimeIsIrrelevant(p: SignalClient, r: SignalClient, here: seq<Event>, there: seq<Event>)
    requires p.Holds(here) && r.Holds(there) && Messages(here) == Messages(there)
    ensures Described(here) && Described(there) ==>
              p.handed == r.handed == Arrivals(Messages(here)) && p.iceCandidates == r.iceCandidates == []
    ensures Described(here) && !Described(there) ==> r.handed == [] && r.iceCandidates == p.handed
  {
    MessagesCarryAll(here);
    MessagesCarryAll(there);
  }

  /** The same of two pages from their start, the description of each being set once, at any time. */
  method TwoPages(p: SignalClient, r: SignalClient, a: seq<Event>, b: seq<Event>, c: seq<Event>, d: seq<Event>)
    requires p != r && a + b == c + d
    requires p.iceCandidates == r.iceCandidates == [] && !p.hasRemoteDesc && !r.hasRemoteDesc
    requires p.handed == r.handed == []
    modifies p, r
    ensures p.handed == r.handed == Arrivals(a + b) && p.iceCandidates == r.iceCandidates == []
  {
    p.OnEvents(a + [RemoteDescriptionSet] + b);
    r.OnEvents(c + [RemoteDescriptionSet] + d);
    SetInside(a, b);
    SetInside(c, d);
  }

  lemma LastApart<T>(a: seq<T>, b: seq<T>)
    requires b != []
    ensures var n := |b| - 1; b == b[..n] + [b[n]] && a + b == (a + b[..n]) + [b[n]]
  {
  }

  lemma Regroup<T>(a: seq<T>, b: seq<T>, c: seq<T>)
    ensures (a + b) + c == a + (b + c)
  {
  }

  lemma {:induction false} ArrivalsAppend(a: seq<Event>, b: seq<Event>)
    ensures Arrivals(a + b) == Arrivals(a) + Arrivals(b)
  {
    if b == [] {
      assert a + b == a;
      assert Arrivals(a) + [] == Arrivals(a);
    } else {
      hide Carries, Arrivals;
      var n := |b| - 1;
      var init, x := b[..n], b[n];
      LastApart(a, b);
      ArrivalsSnoc(a + init, x);
      ArrivalsSnoc(init, x);
      ArrivalsAppend(a, init);
      Regroup(Arrivals(a), Arrivals(init), Carries(x));
    }
  }

  lemma SetInside(a: seq<Event>, b: seq<Event>)
    ensures Arrivals(a + [RemoteDescriptionSet] + b) == Arrivals(a + b)
    ensures Described(a + [RemoteDescriptionSet] + b)
  {
    var update := [RemoteDescriptionSet];
    assert Described(a + update + b) by {
      assert (a + update + b)[|a|] == RemoteDescriptionSet;
    }
    hide Arrivals, Described;
    ArrivalsAppend(a + update, b);
    Snoc(a, RemoteDescriptionSet);
    assert Arrivals(a) + [] == Arrivals(a);
    ArrivalsAppend(a, b);
  }
}
