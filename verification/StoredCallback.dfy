/** A callback slot that remembers the last call it could not deliver. */
module StoredCallbacks {
  import opened Common

  /** Callbacks are told apart by number. */
  datatype Op<A> = Assign(callback: Option<nat>) | Invoke(args: A)

  function After<A>(current: Option<nat>, op: Op<A>): Option<nat> {
    if op.Assign? then op.callback else current
  }

  /** The callback in place after a sequence of operations that starts with `current` in place. */
  function Current<A>(trace: seq<Op<A>>, current: Option<nat>): Option<nat> {
    if trace == [] then current
    else After(Current(trace[..|trace| - 1], current), trace[|trace| - 1])
  }

  predicate AllNull<A>(trace: seq<Op<A>>) {
    forall k :: 0 <= k < |trace| ==> trace[k] == Assign(None)
  }

  // ---------- the whole trace ----------

  /** Who is given a call that was missed just before `rest`: the next callback assigned, unless
      another call comes first and takes its place. */
  function Receiver<A>(rest: seq<Op<A>>): Option<nat> {
    if rest == [] then None
    else match rest[0]
      case Invoke(_) => None
      case Assign(Some(c)) => Some(c)
      case Assign(None) => Receiver(rest[1..])
  }

  /** The calls that reach a callback, and which, in order: of each run of missed calls only the
      last, and only if a callback is assigned before the trace ends. */
  function Delivered<A>(trace: seq<Op<A>>, current: Option<nat>): seq<(nat, A)> {
    if trace == [] then []
    else match trace[0]
      case Assign(func) => Delivered(trace[1..], func)
      case Invoke(args) =>
        var receiver := if current.Some? then current else Receiver(trace[1..]);
        (if receiver.Some? then [(receiver.value, args)] else []) + Delivered(trace[1..], current)
  }

  /** Call `j` found no callback, and nothing but assignments of null came after it: it is the last
      call of a run of missed ones that is still open. */
  predicate OpenMiss<A>(trace: seq<Op<A>>, current: Option<nat>, j: nat) {
    && j < |trace| && trace[j].Invoke? && Current(trace[..j], current) == None
    && forall k :: j < k < |trace| ==> trace[k] == Assign(None)
  }

  lemma OpenMissIsUnique<A>(trace: seq<Op<A>>, current: Option<nat>, i: nat, j: nat)
    requires OpenMiss(trace, current, i) && OpenMiss(trace, current, j)
    ensures i == j
  {
  }

  /** The missed call that is still waiting for a callback. */
  ghost function Waiting<A>(trace: seq<Op<A>>, current: Option<nat>): Option<A> {
    if j: nat :| OpenMiss(trace, current, j) then Some(trace[j].args) else None
  }

  // ---------- one more operation ----------

  lemma {:induction false} CurrentHead<A>(trace: seq<Op<A>>, current: Option<nat>)
    requires trace != []
    ensures Current(trace, current) == Current(trace[1..], After(current, trace[0]))
  {
    var n := |trace| - 1;
    if n > 0 {
      CurrentHead(trace[..n], current);
      assert trace[..n][1..] == trace[1..][..n - 1];
    }
  }

  lemma OpenMissShifts<A>(trace: seq<Op<A>>, current: Option<nat>, j: nat)
    requires trace != []
    ensures OpenMiss(trace, current, j + 1) <==> OpenMiss(trace[1..], After(current, trace[0]), j)
  {
    if j + 1 < |trace| {
      CurrentHead(trace[..j + 1], current);
      assert trace[..j + 1][1..] == trace[1..][..j];
      assert trace[1..][j + 1..] == trace[j + 2..];
    }
  }

  lemma WaitingIs<A>(trace: seq<Op<A>>, current: Option<nat>, j: nat)
    requires OpenMiss(trace, current, j)
    ensures Waiting(trace, current) == Some(trace[j].args)
  {
    var i: nat :| OpenMiss(trace, current, i) && Waiting(trace, current) == Some(trace[i].args);
    OpenMissIsUnique(trace, current, i, j);
  }

  /** Which call waits, found from the front. */
  lemma WaitingHead<A>(trace: seq<Op<A>>, current: Option<nat>)
    requires trace != []
    ensures Waiting(trace, current)
         == if trace[0].Invoke? && current == None && AllNull(trace[1..]) then Some(trace[0].args)
            else Waiting(trace[1..], After(current, trace[0]))
  {
    var next := After(current, trace[0]);
    assert trace[..0] == [];
    assert trace == [trace[0]] + trace[1..];
    if OpenMiss(trace, current, 0) {
      WaitingIs(trace, current, 0);
    } else if j: nat :| OpenMiss(trace[1..], next, j) {
      OpenMissShifts(trace, current, j);
      WaitingIs(trace[1..], next, j);
      WaitingIs(trace, current, j + 1);
    } else if j: nat :| OpenMiss(trace, current, j) {
      OpenMissShifts(trace, current, j - 1);
      assert false;
    }
  }

  lemma {:induction false} ReceiverSnoc<A>(rest: seq<Op<A>>, op: Op<A>)
    ensures AllNull(rest) ==> Receiver(rest) == None && Receiver(rest + [op]) == Receiver([op])
    ensures !AllNull(rest) ==> Receiver(rest + [op]) == Receiver(rest)
  {
    if rest == [] {
      assert rest + [op] == [op];
    } else {
      assert (rest + [op])[1..] == rest[1..] + [op];
      ReceiverSnoc(rest[1..], op);
      assert AllNull(rest) <==> rest[0] == Assign(None) && AllNull(rest[1..]) by {
        assert rest == [rest[0]] + rest[1..];
      }
    }
  }

  /** What the operation `op` delivers, given the callback in place and the call that waits. */
  function Delivers<A>(callback: Option<nat>, waiting: Option<A>, op: Op<A>): seq<(nat, A)> {
    match op
    case Invoke(args) => if callback.Some? then [(callback.value, args)] else []
    case Assign(func) => if func.Some? && waiting.Some? then [(func.value, waiting.value)] else []
  }

  /** A callback in place means nothing waits. */
  lemma {:induction false} WaitingNeedsNone<A>(trace: seq<Op<A>>, current: Option<nat>)
    ensures Waiting(trace, current).Some? ==> Current(trace, current) == None
  {
    if trace == [] {
    } else {
      WaitingHead(trace, current);
      CurrentHead(trace, current);
      if AllNull(trace[1..]) {
        NullsChangeNothing(trace[1..], None);
      }
      WaitingNeedsNone(trace[1..], After(current, trace[0]));
    }
  }

  lemma {:induction false} NullsChangeNothing<A>(trace: seq<Op<A>>, current: Option<nat>)
    requires AllNull(trace)
    ensures Current(trace, None) == None && Waiting(trace, current) == None
    ensures Delivered(trace, current) == []
  {
    if trace == [] {
    } else {
      CurrentHead(trace, None);
      NullsChangeNothing(trace[1..], None);
    }
  }

  lemma {:induction false} DeliveredSnoc<A>(trace: seq<Op<A>>, current: Option<nat>, op: Op<A>)
    ensures Delivered(trace + [op], current)
         == Delivered(trace, current) + Delivers(Current(trace, current), Waiting(trace, current), op)
  {
    hide Waiting, Current, AllNull;
    var all := trace + [op];
    if trace == [] {
      NothingWaits<A>(current);
      assert all == [op] && all[1..] == [];
    } else {
      var next := After(current, trace[0]);
      assert all[1..] == trace[1..] + [op];
      WaitingHead(trace, current);
      CurrentHead(trace, current);
      DeliveredSnoc(trace[1..], next, op);
      ReceiverSnoc(trace[1..], op);
      if AllNull(trace[1..]) {
        NullsChangeNothing(trace[1..], next);
      }
    }
  }

  lemma NothingWaits<A>(current: Option<nat>)
    ensures Current<A>([], current) == current && Waiting<A>([], current) == None
  {
  }

  lemma Prefixes<A>(trace: seq<Op<A>>, op: Op<A>)
    ensures (trace + [op])[..|trace|] == trace && (trace + [op])[|trace|] == op
    ensures forall j :: 0 <= j < |trace| ==> (trace + [op])[j] == trace[j] && (trace + [op])[..j] == trace[..j]
  {
  }

  lemma AfterAssign<A>(trace: seq<Op<A>>, current: Option<nat>, func: Option<nat>)
    ensures var all, waiting := trace + [Assign(func)], Waiting(trace, current);
            && Current(all, current) == func
            && Delivered(all, current) == Delivered(trace, current)
                 + (if func.Some? && waiting.Some? then [(func.value, waiting.value)] else [])
            && Waiting(all, current) == if func == None then waiting else None
  {
    var all := trace + [Op.Assign(func)];
    Prefixes(trace, Op.Assign(func));
    DeliveredSnoc(trace, current, Op.Assign(func));
    forall j: nat ensures OpenMiss(all, current, j) <==> func == None && OpenMiss(trace, current, j) {
      assert j < |trace| ==> all[|trace|] == Assign(func);
    }
    if j: nat :| func == None && OpenMiss(trace, current, j) {
      WaitingIs(trace, current, j);
      WaitingIs(all, current, j);
    }
  }

  lemma AfterInvoke<A>(trace: seq<Op<A>>, current: Option<nat>, args: A)
    ensures var all, callback := trace + [Invoke(args)], Current(trace, current);
            && Current(all, current) == callback
            && Delivered(all, current) == Delivered(trace, current)
                 + (if callback.Some? then [(callback.value, args)] else [])
            && Waiting(all, current) == if callback == None then Some(args) else None
  {
    var all := trace + [Op.Invoke(args)];
    Prefixes(trace, Op.Invoke(args));
    DeliveredSnoc(trace, current, Op.Invoke(args));
    forall j: nat ensures OpenMiss(all, current, j) <==> j == |trace| && Current(trace, current) == None {
      assert j < |trace| ==> all[|trace|].Invoke?;
    }
    if Current(trace, current) == None {
      WaitingIs(all, current, |trace|);
    }
  }

  /** Two calls missed, null assigned, then a callback, another call: the second and the last arrive. */
  lemma MissedTwice<A>(a: A, b: A, c: A, callback: nat)
    ensures Delivered([Invoke(a), Invoke(b), Assign(None), Assign(Some(callback)), Invoke(c)], None)
         == [(callback, b), (callback, c)]
  {
    var empty: seq<Op<A>> := [];
    NothingWaits<A>(None);
    assert Delivered(empty, None) == [];
    hide Delivered, Waiting, Current;
    AfterInvoke(empty, None, a);
    var one := empty + [Op.Invoke(a)];
    AfterInvoke(one, None, b);
    var two := one + [Op.Invoke(b)];
    AfterAssign(two, None, None);
    var three := two + [Op.Assign(None)];
    AfterAssign(three, None, Some(callback));
    var four := three + [Op.Assign(Some(callback))];
    AfterInvoke(four, None, c);
    assert four + [Op.Invoke(c)]
        == [Op.Invoke(a), Op.Invoke(b), Op.Assign(None), Op.Assign(Some(callback)), Op.Invoke(c)];
  }

  /** With a callback in place throughout, every call arrives. */
  lemma {:induction false} NoneMissed<A>(trace: seq<Op<A>>, current: Option<nat>)
    requires current.Some? && forall k :: 0 <= k < |trace| ==> trace[k] != Assign(None)
    ensures Arguments(Delivered(trace, current)) == Invoked(trace)
  {
    if trace == [] {
    } else {
      NoneMissed(trace[1..], After(current, trace[0]));
      var rest := Delivered(trace[1..], After(current, trace[0]));
      if trace[0].Invoke? {
        assert ([(current.value, trace[0].args)] + rest)[1..] == rest;
      } else {
        assert [] + Invoked(trace[1..]) == Invoked(trace[1..]);
      }
    }
  }

  function Arguments<A>(delivered: seq<(nat, A)>): seq<A> {
    if delivered == [] then [] else [delivered[0].1] + Arguments(delivered[1..])
  }

  function Invoked<A>(trace: seq<Op<A>>): seq<A> {
    if trace == [] then []
    else (if trace[0].Invoke? then [trace[0].args] else []) + Invoked(trace[1..])
  }

  class SynchronizedStoredCallback<A(==)> {
    var callback: Option<nat>
    var stored: Option<A>
    /** The calls made to callbacks, in order. */
    var delivered: seq<(nat, A)>

    constructor (callback: Option<nat>)
      ensures this.callback == callback && stored == None && delivered == []
    {
      this.callback, stored, delivered := callback, None, [];
    }

    /** `trace` was done to a slot that held `first`. */
    ghost predicate Holds(trace: seq<Op<A>>, first: Option<nat>)
      reads this
    {
      callback == Current(trace, first) && stored == Waiting(trace, first) && delivered == Delivered(trace, first)
    }

    method Set(func: Option<nat>, ghost trace: seq<Op<A>>, ghost first: Option<nat>)
      requires Holds(trace, first)
      modifies this
      ensures Holds(trace + [Assign(func)], first)
    {
      hide Waiting, Current, Delivered;
      AfterAssign(trace, first, func);
      callback := func;
      if func.Some? && stored.Some? {
        delivered := delivered + [(func.value, stored.value)];
        stored := None;
      }
    }

    /** Returns true whether or not a callback is there. */
    method Call(args: A, ghost trace: seq<Op<A>>, ghost first: Option<nat>) returns (ok: bool)
      requires Holds(trace, first)
      modifies this
      ensures ok && Holds(trace + [Invoke(args)], first)
    {
      hide Waiting, Current, Delivered;
      AfterInvoke(trace, first, args);
      WaitingNeedsNone(trace, first);
      if callback.Some? {
        delivered := delivered + [(callback.value, args)];
      } else {
        stored := Some(args);
      }
      ok := true;
    }
  }

  /** Main theorem: for any sequence of calls and assignments, what was delivered is what a reading
      of the whole trace says, and what is stored is the missed call that is still open. */
  method Run<A(==)>(slot: SynchronizedStoredCallback<A>, trace: seq<Op<A>>)
    requires slot.stored == None && slot.delivered == []
    modifies slot
    ensures slot.callback == Current(trace, old(slot.callback))
    ensures slot.delivered == Delivered(trace, old(slot.callback))
    ensures slot.callback.Some? ==> slot.stored == None
    ensures forall j: nat :: OpenMiss(trace, old(slot.callback), j) ==> slot.stored == Some(trace[j].args)
    ensures slot.stored.Some? ==> exists j: nat :: OpenMiss(trace, old(slot.callback), j)
  {
    ghost var first := slot.callback;
    for i := 0 to |trace|
      invariant slot.Holds(trace[..i], first)
    {
      match trace[i] {
        case Assign(func) => slot.Set(func, trace[..i], first);
        case Invoke(args) => var _ := slot.Call(args, trace[..i], first);
      }
      assert trace[..i + 1] == trace[..i] + [trace[i]];
    }
    assert trace[..|trace|] == trace;
    WaitingNeedsNone(trace, first);
    forall j: nat | OpenMiss(trace, first, j) ensures slot.stored == Some(trace[j].args) {
      WaitingIs(trace, first, j);
    }
  }
}
