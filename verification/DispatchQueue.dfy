/** The worker pool as a small-step transition system: any number of workers and callers, one
    mutex, one condition variable with spurious wake-ups, and notifications sent after the mutex
    has been released. */
module DispatchQueues {
  import opened Common

  /** `Wanting` is a worker about to take the mutex: at the start of its loop, woken inside `wait`,
      or back from an operation.  In all three places it looks at `quit` and the queue next. */
  datatype Worker = Wanting | Holding | Blocked | Running(op: nat) | Exited

  datatype Task = Dispatch | RemovePending | Shutdown

  /** `Unlocked` has released the mutex and not notified yet; `Joining(n)` waits for worker `n`. */
  datatype Stage = Waiting | Locked | Unlocked | Joining(next: nat) | Finished

  datatype Caller = Caller(task: Task, stage: Stage)

  datatype Holder = ByWorker(worker: nat) | ByCaller(caller: nat)

  /** An operation is known by its place in the order of the pushes.  `pushed`, `started`,
      `finished` and `removed` are history; `alarmed` records that `notify_all` has run. */
  datatype State = State(
    mutex: Option<Holder>,
    workers: seq<Worker>,
    callers: seq<Caller>,
    queue: seq<nat>,
    quit: bool,
    alarmed: bool,
    pushed: nat,
    started: seq<nat>,
    finished: seq<nat>,
    removed: seq<nat>)

  datatype Event =
    | WorkerLocks(i: nat)
    | WorkerDecides(i: nat)
    | OpReturns(i: nat)
    | SpuriousWakeUp(i: nat)
    | CallArrives(task: Task)
    | CallerLocks(j: nat)
    | CallerActs(j: nat)
    | NotifyOne(j: nat, i: nat)
    | NotifyNone(j: nat)
    | NotifyAll(j: nat)
    | Joins(j: nat)

  predicate IsWorker(s: State, i: nat, w: Worker) {
    i < |s.workers| && s.workers[i] == w
  }

  predicate IsCaller(s: State, j: nat, c: Caller) {
    j < |s.callers| && s.callers[j] == c
  }

  predicate Enabled(s: State, e: Event) {
    match e
    case WorkerLocks(i) => s.mutex.None? && IsWorker(s, i, Wanting)
    case WorkerDecides(i) => IsWorker(s, i, Holding)
    case OpReturns(i) => i < |s.workers| && s.workers[i].Running?
    case SpuriousWakeUp(i) => IsWorker(s, i, Blocked)
    case CallArrives(_) => true
    case CallerLocks(j) => s.mutex.None? && j < |s.callers| && s.callers[j].stage == Waiting
    case CallerActs(j) => j < |s.callers| && s.callers[j].stage == Locked
    case NotifyOne(j, i) => IsCaller(s, j, Caller(Dispatch, Unlocked)) && IsWorker(s, i, Blocked)
    case NotifyNone(j) =>
      && IsCaller(s, j, Caller(Dispatch, Unlocked))
      && forall i :: 0 <= i < |s.workers| ==> s.workers[i] != Blocked
    case NotifyAll(j) => IsCaller(s, j, Caller(Shutdown, Unlocked))
    case Joins(j) =>
      && j < |s.callers| && s.callers[j].stage.Joining?
      && (s.callers[j].stage.next < |s.workers| ==> s.workers[s.callers[j].stage.next] == Exited)
  }

  function SetWorker(s: State, i: nat, w: Worker): State
    requires i < |s.workers|
  {
    s.(workers := s.workers[i := w])
  }

  function SetStage(s: State, j: nat, stage: Stage): State
    requires j < |s.callers|
  {
    s.(callers := s.callers[j := s.callers[j].(stage := stage)])
  }

  function Awaken(workers: seq<Worker>): seq<Worker> {
    seq(|workers|, i requires 0 <= i < |workers| => if workers[i] == Blocked then Wanting else workers[i])
  }

  function Next(s: State, e: Event): State
    requires Enabled(s, e)
  {
    match e
    case WorkerLocks(i) => SetWorker(s, i, Holding).(mutex := Some(ByWorker(i)))
    case WorkerDecides(i) =>
      var free := s.(mutex := None);
      if s.quit then SetWorker(free, i, Exited)
      else if s.queue == [] then SetWorker(free, i, Blocked)
      else SetWorker(free, i, Running(s.queue[0])).(queue := s.queue[1..], started := s.started + [s.queue[0]])
    case OpReturns(i) => SetWorker(s, i, Wanting).(finished := s.finished + [s.workers[i].op])
    case SpuriousWakeUp(i) => SetWorker(s, i, Wanting)
    case CallArrives(task) => s.(callers := s.callers + [Caller(task, Waiting)])
    case CallerLocks(j) => SetStage(s, j, Locked).(mutex := Some(ByCaller(j)))
    case CallerActs(j) =>
      var free := s.(mutex := None);
      (match s.callers[j].task
       case Dispatch => SetStage(free, j, Unlocked).(queue := s.queue + [s.pushed], pushed := s.pushed + 1)
       case RemovePending => SetStage(free, j, Finished).(queue := [], removed := s.removed + s.queue)
       case Shutdown => SetStage(free, j, Unlocked).(quit := true))
    case NotifyOne(j, i) => SetWorker(SetStage(s, j, Finished), i, Wanting)
    case NotifyNone(j) => SetStage(s, j, Finished)
    case NotifyAll(j) => SetStage(s, j, Joining(0)).(workers := Awaken(s.workers), alarmed := true)
    case Joins(j) =>
      var n := s.callers[j].stage.next;
      SetStage(s, j, if n < |s.workers| then Joining(n + 1) else Finished)
  }

  /** The constructor starts `n` workers. */
  function Init(n: nat): State {
    State(None, seq(n, _ => Wanting), [], [], false, false, 0, [], [], [])
  }

  predicate Run(states: seq<State>, events: seq<Event>) {
    && |states| == |events| + 1
    && forall k :: 0 <= k < |events| ==>
         Enabled(states[k], events[k]) && states[k + 1] == Next(states[k], events[k])
  }

  // ---------- the mutex ----------

  /** A worker holds the mutex exactly when the mutex says so, and likewise a caller. */
  predicate WorkersExclusive(workers: seq<Worker>, mutex: Option<Holder>) {
    && (forall i :: 0 <= i < |workers| ==> (workers[i] == Holding <==> mutex == Some(ByWorker(i))))
    && (mutex.Some? && mutex.value.ByWorker? ==> mutex.value.worker < |workers|)
  }

  predicate CallersExclusive(callers: seq<Caller>, mutex: Option<Holder>) {
    && (forall j :: 0 <= j < |callers| ==> (callers[j].stage == Locked <==> mutex == Some(ByCaller(j))))
    && (mutex.Some? && mutex.value.ByCaller? ==> mutex.value.caller < |callers|)
  }

  predicate Exclusive(s: State) {
    WorkersExclusive(s.workers, s.mutex) && CallersExclusive(s.callers, s.mutex)
  }

  lemma StepKeepsWorkersExclusive(s: State, e: Event)
    requires Exclusive(s) && Enabled(s, e)
    ensures WorkersExclusive(Next(s, e).workers, Next(s, e).mutex)
  {
  }

  lemma StepKeepsCallersExclusive(s: State, e: Event)
    requires Exclusive(s) && Enabled(s, e)
    ensures CallersExclusive(Next(s, e).callers, Next(s, e).mutex)
  {
  }

  lemma StepKeepsExclusive(s: State, e: Event)
    requires Exclusive(s) && Enabled(s, e)
    ensures Exclusive(Next(s, e))
  {
    hide WorkersExclusive, CallersExclusive, Enabled, Next;
    StepKeepsWorkersExclusive(s, e);
    StepKeepsCallersExclusive(s, e);
  }

  // ---------- counting threads ----------

  function Count<T>(s: seq<T>, p: T -> bool): nat {
    if s == [] then 0 else Count(s[1..], p) + (if p(s[0]) then 1 else 0)
  }

  lemma {:induction false} CountUpdate<T>(s: seq<T>, i: nat, x: T, p: T -> bool)
    requires i < |s|
    ensures Count(s[i := x], p) == Count(s, p) - (if p(s[i]) then 1 else 0) + (if p(x) then 1 else 0)
  {
    if i > 0 {
      assert s[i := x][1..] == s[1..][i - 1 := x];
      CountUpdate(s[1..], i - 1, x, p);
    } else {
      assert s[i := x][1..] == s[1..];
    }
  }

  lemma {:induction false} CountSnoc<T>(s: seq<T>, x: T, p: T -> bool)
    ensures Count(s + [x], p) == Count(s, p) + (if p(x) then 1 else 0)
  {
    if s == [] {
    } else {
      assert (s + [x])[1..] == s[1..] + [x];
      CountSnoc(s[1..], x, p);
    }
  }

  lemma {:induction false} CountSome<T>(s: seq<T>, p: T -> bool)
    ensures Count(s, p) <= |s|
    ensures Count(s, p) > 0 <==> exists i :: 0 <= i < |s| && p(s[i])
  {
    if s == [] {
    } else {
      CountSome(s[1..], p);
      if Count(s[1..], p) > 0 {
        var i :| 0 <= i < |s[1..]| && p(s[1..][i]);
        assert p(s[i + 1]);
      }
      forall i | 0 <= i < |s| && p(s[i]) ensures Count(s, p) > 0 {
        if i > 0 {
          assert p(s[1..][i - 1]);
        }
      }
    }
  }

  // ---------- no lost wake-up ----------

  /** Awake and about to look at the queue. */
  predicate IsAwake(w: Worker) {
    w == Wanting || w == Holding
  }

  predicate IsAsleep(w: Worker) {
    w == Blocked
  }

  predicate IsNotifying(c: Caller) {
    c == Caller(Dispatch, Unlocked)
  }

  /** While a worker sleeps, every queued operation has an awake worker or a notification in flight
      of its own. */
  predicate WakeUps(s: State) {
    !s.quit && Count(s.workers, IsAsleep) > 0
    ==> |s.queue| <= Count(s.workers, IsAwake) + Count(s.callers, IsNotifying)
  }

  lemma WorkerCounts(workers: seq<Worker>, i: nat, w: Worker)
    requires i < |workers|
    ensures var t := workers[i := w];
            && Count(t, IsAwake) == Count(workers, IsAwake)
                 - (if IsAwake(workers[i]) then 1 else 0) + (if IsAwake(w) then 1 else 0)
            && Count(t, IsAsleep) == Count(workers, IsAsleep)
                 - (if IsAsleep(workers[i]) then 1 else 0) + (if IsAsleep(w) then 1 else 0)
  {
    CountUpdate(workers, i, w, IsAwake);
    CountUpdate(workers, i, w, IsAsleep);
  }

  lemma StepKeepsWakeUps(s: State, e: Event)
    requires WakeUps(s) && Enabled(s, e)
    ensures WakeUps(Next(s, e))
  {
    hide Count;
    var t := Next(s, e);
    match e
    case WorkerLocks(i) => WorkerCounts(s.workers, i, t.workers[i]);
    case WorkerDecides(i) => WorkerCounts(s.workers, i, t.workers[i]);
    case OpReturns(i) => WorkerCounts(s.workers, i, t.workers[i]);
    case SpuriousWakeUp(i) => WorkerCounts(s.workers, i, t.workers[i]);
    case CallArrives(task) => CountSnoc(s.callers, Caller(task, Waiting), IsNotifying);
    case CallerLocks(j) => CountUpdate(s.callers, j, t.callers[j], IsNotifying);
    case CallerActs(j) => CountUpdate(s.callers, j, t.callers[j], IsNotifying);
    case NotifyOne(j, i) =>
      WorkerCounts(s.workers, i, t.workers[i]);
      CountUpdate(s.callers, j, t.callers[j], IsNotifying);
    case NotifyNone(j) => CountSome(t.workers, IsAsleep);
    case NotifyAll(j) => CountSome(t.workers, IsAsleep);
    case Joins(j) => CountUpdate(s.callers, j, t.callers[j], IsNotifying);
  }

  // ---------- shutdown ----------

  /** A worker only leaves because of `quit`, and after the alarm nobody sleeps. */
  predicate Leaving(s: State) {
    && (forall i :: 0 <= i < |s.workers| && s.workers[i] == Exited ==> s.quit)
    && (s.alarmed ==> s.quit && forall i :: 0 <= i < |s.workers| ==> s.workers[i] != Blocked)
  }

  /** Until the alarm is raised, a caller that set `quit` is about to raise it. */
  predicate Alarming(s: State) {
    && (s.quit && !s.alarmed ==> exists j :: 0 <= j < |s.callers| && s.callers[j] == Caller(Shutdown, Unlocked))
    && (forall j :: 0 <= j < |s.callers| && s.callers[j] == Caller(Shutdown, Unlocked) ==> s.quit)
  }

  /** Removing pending operations ends with the mutex: there is nobody to notify. */
  predicate Staged(s: State) {
    forall j :: 0 <= j < |s.callers| ==> s.callers[j] != Caller(RemovePending, Unlocked)
  }

  predicate Quitting(s: State) {
    Leaving(s) && Alarming(s) && Staged(s)
  }

  lemma StepKeepsStaged(s: State, e: Event)
    requires Staged(s) && Enabled(s, e)
    ensures Staged(Next(s, e))
  {
    hide Awaken;
  }

  lemma StepKeepsLeaving(s: State, e: Event)
    requires Quitting(s) && Enabled(s, e)
    ensures Leaving(Next(s, e))
  {
  }

  lemma StepKeepsAlarming(s: State, e: Event)
    requires Alarming(s) && Enabled(s, e)
    ensures Alarming(Next(s, e))
  {
    hide Awaken;
    var t := Next(s, e);
    if s.quit && !s.alarmed {
      var j :| 0 <= j < |s.callers| && s.callers[j] == Caller(Shutdown, Unlocked);
      assert !t.alarmed ==> t.callers[j] == Caller(Shutdown, Unlocked);
    } else if e.CallerActs? {
      assert !s.quit && t.quit ==> t.callers[e.j] == Caller(Shutdown, Unlocked);
    }
  }

  lemma StepKeepsQuitting(s: State, e: Event)
    requires Quitting(s) && Enabled(s, e)
    ensures Quitting(Next(s, e))
  {
    hide Leaving, Alarming, Staged, Enabled, Next;
    StepKeepsStaged(s, e);
    StepKeepsLeaving(s, e);
    StepKeepsAlarming(s, e);
  }

  /** Steps a worker still takes once nobody sleeps any more. */
  function Ahead(w: Worker): nat {
    match w
    case Running(_) => 3
    case Wanting => 2
    case Holding => 1
    case Blocked => 0
    case Exited => 0
  }

  function Remaining(workers: seq<Worker>): nat {
    if workers == [] then 0 else Ahead(workers[0]) + Remaining(workers[1..])
  }

  lemma {:induction false} RemainingUpdate(workers: seq<Worker>, i: nat, w: Worker)
    requires i < |workers|
    ensures Remaining(workers[i := w]) == Remaining(workers) - Ahead(workers[i]) + Ahead(w)
  {
    if i > 0 {
      assert workers[i := w][1..] == workers[1..][i - 1 := w];
      RemainingUpdate(workers[1..], i - 1, w);
    } else {
      assert workers[i := w][1..] == workers[1..];
    }
  }

  lemma {:induction false} RemainingZero(workers: seq<Worker>)
    ensures Remaining(workers) <= 3 * |workers|
    ensures Remaining(workers) == 0 <==>
            forall i :: 0 <= i < |workers| ==> workers[i] == Exited || workers[i] == Blocked
  {
    if workers == [] {
    } else {
      RemainingZero(workers[1..]);
      assert forall i :: 0 < i < |workers| ==> workers[i] == workers[1..][i - 1];
    }
  }

  predicate IsWorkerStep(e: Event) {
    e.WorkerLocks? || e.WorkerDecides? || e.OpReturns?
  }

  function WorkerSteps(events: seq<Event>): nat {
    if events == [] then 0
    else WorkerSteps(events[..|events| - 1]) + (if IsWorkerStep(events[|events| - 1]) then 1 else 0)
  }

  lemma StepAfterAlarm(s: State, e: Event)
    requires Quitting(s) && s.alarmed && Enabled(s, e)
    ensures Next(s, e).alarmed
    ensures Remaining(Next(s, e).workers) + (if IsWorkerStep(e) then 1 else 0) == Remaining(s.workers)
  {
    match e
    case WorkerLocks(i) => RemainingUpdate(s.workers, i, Holding);
    case WorkerDecides(i) => RemainingUpdate(s.workers, i, Exited);
    case OpReturns(i) => RemainingUpdate(s.workers, i, Wanting);
    case NotifyAll(j) => assert Awaken(s.workers) == s.workers;
    case _ =>
  }

  /** Steps a caller still takes, joining `n` workers if it shuts down. */
  function StepsLeft(c: Caller, n: nat): nat {
    match c.stage
    case Waiting => n + 4
    case Locked => n + 3
    case Unlocked => n + 2
    case Joining(k) => if k <= n then n - k + 1 else 1
    case Finished => 0
  }

  function CallersRemaining(callers: seq<Caller>, n: nat): nat {
    if callers == [] then 0 else StepsLeft(callers[0], n) + CallersRemaining(callers[1..], n)
  }

  lemma {:induction false} CallersUpdate(callers: seq<Caller>, j: nat, c: Caller, n: nat)
    requires j < |callers|
    ensures CallersRemaining(callers[j := c], n)
         == CallersRemaining(callers, n) - StepsLeft(callers[j], n) + StepsLeft(c, n)
  {
    if j > 0 {
      assert callers[j := c][1..] == callers[1..][j - 1 := c];
      CallersUpdate(callers[1..], j - 1, c, n);
    } else {
      assert callers[j := c][1..] == callers[1..];
    }
  }

  lemma {:induction false} CallersSnoc(callers: seq<Caller>, c: Caller, n: nat)
    ensures CallersRemaining(callers + [c], n) == CallersRemaining(callers, n) + StepsLeft(c, n)
  {
    if callers == [] {
    } else {
      assert (callers + [c])[1..] == callers[1..] + [c];
      CallersSnoc(callers[1..], c, n);
    }
  }

  /** Steps of any kind that the threads at hand still take, once nobody sleeps any more. */
  function TotalRemaining(s: State): nat {
    Remaining(s.workers) + CallersRemaining(s.callers, |s.workers|)
  }

  function NewCalls(events: seq<Event>): nat {
    if events == [] then 0
    else NewCalls(events[..|events| - 1]) + (if events[|events| - 1].CallArrives? then 1 else 0)
  }

  lemma CallerStep(s: State, e: Event)
    requires Quitting(s) && s.alarmed && Enabled(s, e) && !e.CallArrives?
    ensures CallersRemaining(Next(s, e).callers, |s.workers|) + (if IsWorkerStep(e) then 0 else 1)
         <= CallersRemaining(s.callers, |s.workers|)
  {
    hide CallersRemaining;
    var n, t := |s.workers|, Next(s, e);
    if !IsWorkerStep(e) {
      assert !e.SpuriousWakeUp? && !e.NotifyOne?;
      CallersUpdate(s.callers, e.j, t.callers[e.j], n);
    }
  }

  /** After the alarm every step but the arrival of a call brings the end nearer. */
  lemma TotalStep(s: State, e: Event)
    requires Quitting(s) && s.alarmed && Enabled(s, e)
    ensures 1 + TotalRemaining(Next(s, e))
         <= TotalRemaining(s) + (if e.CallArrives? then |s.workers| + 5 else 0)
    ensures |Next(s, e).workers| == |s.workers|
  {
    hide CallersRemaining, Remaining, Quitting;
    StepAfterAlarm(s, e);
    if e.CallArrives? {
      CallersSnoc(s.callers, Caller(e.task, Waiting), |s.workers|);
    } else {
      CallerStep(s, e);
    }
  }

  // ---------- every operation is accounted for ----------

  function Order(n: nat): seq<nat> {
    if n == 0 then [] else Order(n - 1) + [n - 1]
  }

  function OpOf(w: Worker): multiset<nat> {
    if w.Running? then multiset{w.op} else multiset{}
  }

  /** The operations workers are running now. */
  function Busy(workers: seq<Worker>): multiset<nat> {
    if workers == [] then multiset{} else OpOf(workers[0]) + Busy(workers[1..])
  }

  lemma {:induction false} BusyCount(workers: seq<Worker>, i: nat, w: Worker, op: nat)
    requires i < |workers|
    ensures Busy(workers[i := w])[op] + OpOf(workers[i])[op] == Busy(workers)[op] + OpOf(w)[op]
  {
    hide OpOf;
    if i > 0 {
      assert workers[i := w][1..] == workers[1..][i - 1 := w];
      BusyCount(workers[1..], i - 1, w, op);
    } else {
      assert workers[i := w][1..] == workers[1..];
    }
  }

  lemma BusyUpdate(workers: seq<Worker>, i: nat, w: Worker)
    requires i < |workers|
    ensures Busy(workers[i := w]) + OpOf(workers[i]) == Busy(workers) + OpOf(w)
    ensures OpOf(workers[i]) == OpOf(w) == multiset{} ==> Busy(workers[i := w]) == Busy(workers)
  {
    hide Busy, OpOf;
    forall op: nat
      ensures Busy(workers[i := w])[op] + OpOf(workers[i])[op] == Busy(workers)[op] + OpOf(w)[op]
    {
      BusyCount(workers, i, w, op);
    }
  }

  lemma {:induction false} BusyAwaken(workers: seq<Worker>)
    ensures Busy(Awaken(workers)) == Busy(workers)
  {
    if workers == [] {
    } else {
      assert Awaken(workers)[1..] == Awaken(workers[1..]);
      BusyAwaken(workers[1..]);
    }
  }

  predicate Increasing(s: seq<nat>, below: nat) {
    && (forall i, j :: 0 <= i < j < |s| ==> s[i] < s[j])
    && (forall i :: 0 <= i < |s| ==> s[i] < below)
  }

  /** Every operation pushed is in one place, once: queued, started or removed. */
  predicate Placed(queue: seq<nat>, started: seq<nat>, removed: seq<nat>, pushed: nat) {
    multiset(queue) + multiset(started) + multiset(removed) == multiset(Order(pushed))
  }

  /** Every operation started is in one place, once: finished or running on one worker. */
  predicate Handled(started: seq<nat>, finished: seq<nat>, workers: seq<Worker>) {
    multiset(started) == multiset(finished) + Busy(workers)
  }

  /** What was started and then what is queued follow the order of the pushes, without gaps if
      nothing was removed. */
  predicate InOrder(s: State) {
    && Increasing(s.started + s.queue, s.pushed)
    && (s.removed == [] ==> s.started + s.queue == Order(s.pushed))
  }

  /** A single worker finishes in the order it starts. */
  predicate OneAtATime(s: State) {
    |s.workers| == 1 ==>
      s.started == s.finished + (if s.workers[0].Running? then [s.workers[0].op] else [])
  }

  predicate Accounted(s: State) {
    && Placed(s.queue, s.started, s.removed, s.pushed)
    && Handled(s.started, s.finished, s.workers)
  }

  lemma PopPlaced(queue: seq<nat>, started: seq<nat>, removed: seq<nat>, pushed: nat)
    requires queue != [] && Placed(queue, started, removed, pushed)
    ensures Placed(queue[1..], started + [queue[0]], removed, pushed)
  {
    assert queue == [queue[0]] + queue[1..];
  }

  lemma PushPlaced(queue: seq<nat>, started: seq<nat>, removed: seq<nat>, pushed: nat)
    requires Placed(queue, started, removed, pushed)
    ensures Placed(queue + [pushed], started, removed, pushed + 1)
  {
    assert Order(pushed + 1) == Order(pushed) + [pushed];
  }

  lemma RemovePlaced(queue: seq<nat>, started: seq<nat>, removed: seq<nat>, pushed: nat)
    requires Placed(queue, started, removed, pushed)
    ensures Placed([], started, removed + queue, pushed)
  {
  }

  lemma StartHandled(started: seq<nat>, finished: seq<nat>, workers: seq<Worker>, i: nat, op: nat)
    requires Handled(started, finished, workers) && i < |workers| && !workers[i].Running?
    ensures Handled(started + [op], finished, workers[i := Running(op)])
  {
    BusyUpdate(workers, i, Running(op));
    assert Busy(workers[i := Running(op)]) == Busy(workers) + multiset{op};
  }

  lemma ReturnHandled(started: seq<nat>, finished: seq<nat>, workers: seq<Worker>, i: nat, w: Worker)
    requires Handled(started, finished, workers) && i < |workers| && workers[i].Running? && !w.Running?
    ensures Handled(started, finished + [workers[i].op], workers[i := w])
  {
    BusyUpdate(workers, i, w);
    assert OpOf(w) == multiset{} && Busy(workers) + OpOf(w) == Busy(workers);
    assert Busy(workers[i := w]) + multiset{workers[i].op} == Busy(workers);
  }

  lemma StillHandled(started: seq<nat>, finished: seq<nat>, workers: seq<Worker>, i: nat, w: Worker)
    requires Handled(started, finished, workers) && i < |workers| && !workers[i].Running? && !w.Running?
    ensures Handled(started, finished, workers[i := w])
  {
    BusyUpdate(workers, i, w);
  }

  lemma StepKeepsAccounted(s: State, e: Event)
    requires Accounted(s) && Enabled(s, e)
    ensures Accounted(Next(s, e))
  {
    hide Placed, Handled;
    match e
    case WorkerLocks(i) => StillHandled(s.started, s.finished, s.workers, i, Holding);
    case WorkerDecides(i) =>
      if s.quit || s.queue == [] {
        StillHandled(s.started, s.finished, s.workers, i, if s.quit then Exited else Blocked);
      } else {
        StartHandled(s.started, s.finished, s.workers, i, s.queue[0]);
        PopPlaced(s.queue, s.started, s.removed, s.pushed);
      }
    case OpReturns(i) => ReturnHandled(s.started, s.finished, s.workers, i, Wanting);
    case CallerActs(j) =>
      PushPlaced(s.queue, s.started, s.removed, s.pushed);
      RemovePlaced(s.queue, s.started, s.removed, s.pushed);
    case NotifyOne(j, i) => StillHandled(s.started, s.finished, s.workers, i, Wanting);
    case SpuriousWakeUp(i) => StillHandled(s.started, s.finished, s.workers, i, Wanting);
    case NotifyAll(j) => AlarmHandled(s.started, s.finished, s.workers);
    case _ =>
  }

  lemma AlarmHandled(started: seq<nat>, finished: seq<nat>, workers: seq<Worker>)
    requires Handled(started, finished, workers)
    ensures Handled(started, finished, Awaken(workers))
  {
    BusyAwaken(workers);
  }

  lemma StepKeepsInOrder(s: State, e: Event)
    requires InOrder(s) && Enabled(s, e)
    ensures InOrder(Next(s, e))
  {
    hide Increasing, Awaken, Order;
    match e
    case WorkerDecides(i) =>
      if !s.quit && s.queue != [] {
        assert (s.started + [s.queue[0]]) + s.queue[1..] == s.started + s.queue;
      }
    case CallerActs(j) =>
      assert s.started + (s.queue + [s.pushed]) == (s.started + s.queue) + [s.pushed];
      IncreasingSnoc(s.started + s.queue, s.pushed);
      IncreasingPrefix(s.started, s.queue, s.pushed);
      assert s.started + [] == s.started && (s.queue == [] ==> s.started + s.queue == s.started);
    case _ =>
  }

  lemma IncreasingSnoc(s: seq<nat>, below: nat)
    requires Increasing(s, below)
    ensures Increasing(s + [below], below + 1) && Order(below + 1) == Order(below) + [below]
  {
  }

  lemma IncreasingPrefix(s: seq<nat>, rest: seq<nat>, below: nat)
    requires Increasing(s + rest, below)
    ensures Increasing(s, below)
  {
    assert forall i :: 0 <= i < |s| ==> s[i] == (s + rest)[i];
  }

  lemma StepKeepsOneAtATime(s: State, e: Event)
    requires OneAtATime(s) && Enabled(s, e)
    ensures OneAtATime(Next(s, e))
  {
  }

  // ---------- what the calls have done ----------

  /** A dispatch that has had the mutex. */
  predicate HasPushed(c: Caller) {
    c.task == Dispatch && c.stage != Waiting && c.stage != Locked
  }

  /** Each dispatch pushes one operation, while it has the mutex. */
  predicate Pushes(s: State) {
    s.pushed == Count(s.callers, HasPushed)
  }

  lemma StepKeepsPushes(s: State, e: Event)
    requires Pushes(s) && Staged(s) && Enabled(s, e)
    ensures Pushes(Next(s, e))
  {
    hide Count, Awaken, Staged;
    var t := Next(s, e);
    match e
    case CallArrives(task) => CountSnoc(s.callers, Caller(task, Waiting), HasPushed);
    case CallerLocks(j) => CountUpdate(s.callers, j, t.callers[j], HasPushed);
    case CallerActs(j) => CountUpdate(s.callers, j, t.callers[j], HasPushed);
    case NotifyOne(j, _) => CountUpdate(s.callers, j, t.callers[j], HasPushed);
    case NotifyNone(j) => CountUpdate(s.callers, j, t.callers[j], HasPushed);
    case NotifyAll(j) => CountUpdate(s.callers, j, t.callers[j], HasPushed);
    case Joins(j) => CountUpdate(s.callers, j, t.callers[j], HasPushed);
    case _ =>
  }

  predicate FirstExited(workers: seq<Worker>, k: nat) {
    k <= |workers| && forall i :: 0 <= i < k ==> workers[i] == Exited
  }

  /** Only a destructor joins, it waits for one worker after the other, and it returns after all of
      them have left. */
  predicate Joined(workers: seq<Worker>, c: Caller) {
    match c.stage
    case Joining(k) => c.task == Shutdown && FirstExited(workers, k)
    case Finished => c.task == Shutdown ==> FirstExited(workers, |workers|)
    case _ => true
  }

  predicate AllJoined(s: State) {
    forall j :: 0 <= j < |s.callers| ==> Joined(s.workers, s.callers[j])
  }

  lemma ExitedStays(s: State, e: Event, k: nat)
    requires FirstExited(s.workers, k) && Enabled(s, e)
    ensures FirstExited(Next(s, e).workers, k)
  {
  }

  lemma StepKeepsJoined(s: State, e: Event)
    requires AllJoined(s) && Enabled(s, e)
    ensures AllJoined(Next(s, e))
  {
    var t := Next(s, e);
    forall j | 0 <= j < |t.callers| ensures Joined(t.workers, t.callers[j]) {
      if j < |s.callers| {
        CallerKeepsJoined(s, e, j);
      }
    }
  }

  /** How a caller comes to join, and how a destructor comes to return. */
  lemma CallerMovesOn(s: State, e: Event, j: nat)
    requires j < |s.callers| && Enabled(s, e)
    ensures |Next(s, e).callers| >= |s.callers|
    ensures var c, d := s.callers[j], Next(s, e).callers[j];
            || d == c
            || (!d.stage.Joining? && !(d.task == Shutdown && d.stage == Finished))
            || d == Caller(Shutdown, Joining(0))
            || (c.stage.Joining? && d.task == c.task
                && var k := c.stage.next;
                   if k < |s.workers| then s.workers[k] == Exited && d.stage == Joining(k + 1)
                   else d.stage == Finished)
  {
    hide Awaken;
  }

  lemma CallerKeepsJoined(s: State, e: Event, j: nat)
    requires j < |s.callers| && Joined(s.workers, s.callers[j]) && Enabled(s, e)
    ensures |Next(s, e).callers| >= |s.callers| && |Next(s, e).workers| == |s.workers|
    ensures Joined(Next(s, e).workers, Next(s, e).callers[j])
  {
    StepKeepsWorkerCount(s, e);
    CallerMovesOn(s, e, j);
    hide Next, Enabled;
    var c := s.callers[j];
    if c.stage.Joining? {
      ExitedStays(s, e, c.stage.next);
      if c.stage.next < |s.workers| && s.workers[c.stage.next] == Exited {
        ExitedStays(s, e, c.stage.next + 1);
      }
    } else if c == Caller(Shutdown, Finished) {
      ExitedStays(s, e, |s.workers|);
    }
  }

  /** The calls made so far, in the order they arrived. */
  function Arrived(events: seq<Event>): seq<Task> {
    if events == [] then []
    else
      var n := |events| - 1;
      if events[n].CallArrives? then Arrived(events[..n]) + [events[n].task] else Arrived(events[..n])
  }

  /** The callers are those that arrived, each with what it came to do. */
  predicate SameTasks(callers: seq<Caller>, tasks: seq<Task>) {
    |callers| == |tasks| && forall j :: 0 <= j < |callers| ==> callers[j].task == tasks[j]
  }

  lemma StepKeepsTasks(s: State, e: Event, tasks: seq<Task>)
    requires SameTasks(s.callers, tasks) && Enabled(s, e)
    ensures SameTasks(Next(s, e).callers, if e.CallArrives? then tasks + [e.task] else tasks)
  {
  }

  lemma {:induction false} CallersArrived(states: seq<State>, events: seq<Event>)
    requires Run(states, events) && states[0].callers == []
    ensures SameTasks(states[|events|].callers, Arrived(events))
  {
    hide Enabled, Next, SameTasks;
    if events == [] {
      assert SameTasks([], []) by {
        NoTasks();
      }
    } else {
      var n := |events| - 1;
      CallersArrived(states[..n + 1], events[..n]);
      assert Enabled(states[n], events[n]) && states[n + 1] == Next(states[n], events[n]);
      StepKeepsTasks(states[n], events[n], Arrived(events[..n]));
    }
  }

  lemma NoTasks()
    ensures SameTasks([], [])
  {
  }

  // ---------- whole runs ----------

  /** What every reachable state satisfies. */
  predicate Sound(s: State) {
    && Exclusive(s) && WakeUps(s) && Quitting(s) && Accounted(s) && InOrder(s) && OneAtATime(s)
    && Pushes(s) && AllJoined(s)
  }

  lemma StepKeepsSound(s: State, e: Event)
    requires Sound(s) && Enabled(s, e)
    ensures Sound(Next(s, e)) && |Next(s, e).workers| == |s.workers|
  {
    StepKeepsWorkerCount(s, e);
    StagedNow(s);
    hide Exclusive, WakeUps, Quitting, Staged, Accounted, InOrder, OneAtATime, Pushes, AllJoined, Next, Enabled;
    StepKeepsPushes(s, e);
    StepKeepsJoined(s, e);
    StepKeepsExclusive(s, e);
    StepKeepsWakeUps(s, e);
    StepKeepsQuitting(s, e);
    StepKeepsAccounted(s, e);
    StepKeepsInOrder(s, e);
    StepKeepsOneAtATime(s, e);
  }

  lemma StepKeepsWorkerCount(s: State, e: Event)
    requires Enabled(s, e)
    ensures |Next(s, e).workers| == |s.workers|
  {
  }

  lemma StagedNow(s: State)
    requires Quitting(s)
    ensures Staged(s)
  {
  }

  lemma InitIsSound(n: nat)
    ensures Sound(Init(n))
  {
    NobodyBusy(Init(n).workers);
  }

  lemma {:induction false} NobodyBusy(workers: seq<Worker>)
    requires forall i :: 0 <= i < |workers| ==> workers[i] == Wanting
    ensures Busy(workers) == multiset{} && Count(workers, IsAsleep) == 0
  {
    if workers == [] {
    } else {
      NobodyBusy(workers[1..]);
    }
  }

  lemma {:induction false} RunKeepsSound(states: seq<State>, events: seq<Event>)
    requires Run(states, events) && Sound(states[0])
    ensures forall k :: 0 <= k < |states| ==> Sound(states[k]) && |states[k].workers| == |states[0].workers|
  {
    hide Sound, Enabled, Next;
    if events == [] {
    } else {
      var n := |events| - 1;
      RunKeepsSound(states[..n + 1], events[..n]);
      assert forall k :: 0 <= k <= n ==> states[k] == states[..n + 1][k];
      StepKeepsSound(states[n], events[n]);
    }
  }

  /** Queued work is never left to sleeping workers alone: a worker is up, or a notification is
      about to be sent.  And while somebody sleeps, each queued operation has an awake worker or a
      notification in flight of its own. */
  predicate NotLost(s: State) {
    && (s.queue != [] ==>
          || (exists i :: 0 <= i < |s.workers| && s.workers[i] != Blocked && s.workers[i] != Exited)
          || (exists j :: 0 <= j < |s.callers| && s.callers[j] == Caller(Dispatch, Unlocked)))
    && ((exists i :: 0 <= i < |s.workers| && s.workers[i] == Blocked) ==>
          |s.queue| <= Count(s.workers, IsAwake) + Count(s.callers, IsNotifying))
  }

  lemma SoundIsNotLost(s: State)
    requires Sound(s) && !s.quit && |s.workers| > 0
    ensures NotLost(s)
  {
    hide Count;
    CountSome(s.workers, IsAsleep);
    CountSome(s.workers, IsAwake);
    CountSome(s.callers, IsNotifying);
    if i :| 0 <= i < |s.workers| && s.workers[i] == Blocked {
      assert IsAsleep(s.workers[i]);
    } else {
      assert s.workers[0] != Blocked;
    }
  }

  /** Main theorem on wake-ups, over all interleavings of a pool with at least one worker. */
  lemma NoLostWakeUp(states: seq<State>, events: seq<Event>, n: nat, k: nat)
    requires n > 0 && Run(states, events) && states[0] == Init(n) && k < |states|
    ensures !states[k].quit ==> NotLost(states[k])
  {
    hide NotLost, Sound;
    InitIsSound(n);
    RunKeepsSound(states, events);
    if !states[k].quit {
      SoundIsNotLost(states[k]);
    }
  }

  /** Steps the pool itself takes, as opposed to new calls and spurious wake-ups. */
  predicate IsPoolStep(e: Event) {
    IsWorkerStep(e) || e.CallerLocks? || e.CallerActs? || e.NotifyOne? || e.NotifyNone? || e.NotifyAll?
  }

  ghost predicate CanMove(s: State) {
    exists e :: IsPoolStep(e) && Enabled(s, e)
  }

  /** A thread that holds the mutex or wants it never blocks the others for good. */
  lemma MutexMoves(s: State)
    requires Exclusive(s)
    requires s.mutex.Some? || exists i :: 0 <= i < |s.workers| && s.workers[i] == Wanting
    ensures CanMove(s)
  {
    match s.mutex
    case Some(ByWorker(i)) => assert Enabled(s, WorkerDecides(i));
    case Some(ByCaller(j)) => assert Enabled(s, CallerActs(j));
    case None =>
      var i :| 0 <= i < |s.workers| && s.workers[i] == Wanting;
      assert Enabled(s, WorkerLocks(i));
  }

  /** No deadlock: while work is queued the pool can always take a step of its own. */
  lemma QueuedWorkMoves(s: State)
    requires Sound(s) && |s.workers| > 0 && s.queue != [] && !s.quit
    ensures CanMove(s)
  {
    hide Count, WakeUps, Accounted, InOrder, OneAtATime;
    SoundIsNotLost(s);
    if j :| 0 <= j < |s.callers| && s.callers[j] == Caller(Dispatch, Unlocked) {
      if i :| 0 <= i < |s.workers| && s.workers[i] == Blocked {
        assert Enabled(s, NotifyOne(j, i));
      } else {
        assert Enabled(s, NotifyNone(j));
      }
    } else {
      var i :| 0 <= i < |s.workers| && s.workers[i] != Blocked && s.workers[i] != Exited;
      if s.workers[i].Running? {
        assert Enabled(s, OpReturns(i));
      } else {
        MutexMoves(s);
      }
    }
  }

  /** What the surroundings may do at any time: call, and wake a sleeping worker for no reason. */
  lemma AnyTime(s: State, task: Task, i: nat)
    ensures Enabled(s, CallArrives(task))
    ensures i < |s.workers| && s.workers[i] == Blocked ==>
              Enabled(s, SpuriousWakeUp(i)) && IsAwake(Next(s, SpuriousWakeUp(i)).workers[i])
  {
  }

  // ---------- draining ----------

  /** Nobody shuts down, so that nobody joins. */
  predicate NoShutdown(s: State) {
    !s.quit && forall j :: 0 <= j < |s.callers| ==> s.callers[j].task != Shutdown && !s.callers[j].stage.Joining?
  }

  lemma StepKeepsNoShutdown(s: State, e: Event)
    requires NoShutdown(s) && Enabled(s, e) && e != CallArrives(Shutdown)
    ensures NoShutdown(Next(s, e))
  {
    hide Awaken;
  }

  /** Steps a dispatch or a removal can still cause, those of the worker it queues for or wakes
      included. */
  function Work(c: Caller): nat {
    match c.stage
    case Waiting => 9
    case Locked => 8
    case Unlocked => 4
    case Joining(_) => 0
    case Finished => 0
  }

  function CallersWork(callers: seq<Caller>): nat {
    if callers == [] then 0 else Work(callers[0]) + CallersWork(callers[1..])
  }

  lemma {:induction false} WorkUpdate(callers: seq<Caller>, j: nat, c: Caller)
    requires j < |callers|
    ensures CallersWork(callers[j := c]) == CallersWork(callers) - Work(callers[j]) + Work(c)
  {
    if j > 0 {
      assert callers[j := c][1..] == callers[1..][j - 1 := c];
      WorkUpdate(callers[1..], j - 1, c);
    } else {
      assert callers[j := c][1..] == callers[1..];
    }
  }

  lemma {:induction false} WorkSnoc(callers: seq<Caller>, c: Caller)
    ensures CallersWork(callers + [c]) == CallersWork(callers) + Work(c)
  {
    if callers == [] {
      assert ([] + [c])[1..] == [];
    } else {
      assert (callers + [c])[1..] == callers[1..] + [c];
      WorkSnoc(callers[1..], c);
    }
  }

  /** Steps of any kind left until the pool rests, unless calls or spurious wake-ups add some. */
  function Outstanding(s: State): nat {
    Remaining(s.workers) + CallersWork(s.callers) + 3 * |s.queue|
  }

  /** What an event from outside adds. */
  function Adds(e: Event): nat {
    match e
    case CallArrives(_) => 10
    case SpuriousWakeUp(_) => 3
    case _ => 0
  }

  function Added(events: seq<Event>): nat {
    if events == [] then 0 else Added(events[..|events| - 1]) + Adds(events[|events| - 1])
  }

  lemma DrainStep(s: State, e: Event)
    requires NoShutdown(s) && Enabled(s, e)
    ensures 1 + Outstanding(Next(s, e)) <= Outstanding(s) + Adds(e)
  {
    hide Remaining, CallersWork;
    var t := Next(s, e);
    match e
    case WorkerLocks(i) => RemainingUpdate(s.workers, i, t.workers[i]);
    case WorkerDecides(i) => RemainingUpdate(s.workers, i, t.workers[i]);
    case OpReturns(i) => RemainingUpdate(s.workers, i, t.workers[i]);
    case SpuriousWakeUp(i) => RemainingUpdate(s.workers, i, t.workers[i]);
    case CallArrives(task) => WorkSnoc(s.callers, Caller(task, Waiting));
    case CallerLocks(j) => WorkUpdate(s.callers, j, t.callers[j]);
    case CallerActs(j) => WorkUpdate(s.callers, j, t.callers[j]);
    case NotifyOne(j, i) =>
      RemainingUpdate(s.workers, i, t.workers[i]);
      WorkUpdate(s.callers, j, t.callers[j]);
    case NotifyNone(j) => WorkUpdate(s.callers, j, t.callers[j]);
    case _ => assert false;
  }

  /** Every call has returned, every worker sleeps, and every operation was finished or removed. */
  predicate Rests(s: State) {
    && s.queue == []
    && (forall i :: 0 <= i < |s.workers| ==> s.workers[i] == Blocked)
    && (forall j :: 0 <= j < |s.callers| ==> s.callers[j].stage == Finished)
    && multiset(s.finished) + multiset(s.removed) == multiset(Order(s.pushed))
  }

  lemma {:induction false} AsleepIsNotBusy(workers: seq<Worker>)
    requires forall i :: 0 <= i < |workers| ==> workers[i] == Blocked
    ensures Busy(workers) == multiset{}
  {
    if workers == [] {
    } else {
      AsleepIsNotBusy(workers[1..]);
    }
  }

  lemma IdleRests(s: State)
    requires Accounted(s) && s.queue == []
    requires forall i :: 0 <= i < |s.workers| ==> s.workers[i] == Blocked
    requires forall j :: 0 <= j < |s.callers| ==> s.callers[j].stage == Finished
    ensures Rests(s)
  {
    AsleepIsNotBusy(s.workers);
  }

  /** A call that has not returned, or a worker that is up, can move. */
  lemma UnfinishedMoves(s: State)
    requires Exclusive(s) && Staged(s) && Leaving(s) && NoShutdown(s)
    ensures CanMove(s)
         || ((forall i :: 0 <= i < |s.workers| ==> s.workers[i] == Blocked)
             && forall j :: 0 <= j < |s.callers| ==> s.callers[j].stage == Finished)
  {
    if i :| 0 <= i < |s.workers| && s.workers[i] != Blocked {
      if s.workers[i].Running? {
        assert Enabled(s, OpReturns(i));
      } else {
        MutexMoves(s);
      }
    } else if j :| 0 <= j < |s.callers| && s.callers[j].stage != Finished {
      if s.mutex.Some? {
        MutexMoves(s);
      } else if s.callers[j].stage == Waiting {
        assert Enabled(s, CallerLocks(j));
      } else {
        assert s.callers[j] == Caller(s.callers[j].task, Unlocked) && s.callers[j].task != Shutdown;
        assert Enabled(s, if s.workers == [] then NotifyNone(j) else NotifyOne(j, 0));
      }
    }
  }

  /** Unless it rests, a pool that nobody shuts down can take a step of its own. */
  lemma StopsOnlyAtRest(s: State)
    requires Sound(s) && |s.workers| > 0 && NoShutdown(s)
    ensures Rests(s) || CanMove(s)
  {
    hide CanMove, Rests, NoShutdown, WakeUps, Accounted, InOrder, OneAtATime, Exclusive, Leaving, Alarming, Staged;
    NotQuit(s);
    UnfinishedMoves(s);
    if s.queue != [] {
      QueuedWorkMoves(s);
    } else if !CanMove(s) {
      IdleRests(s);
    }
  }

  lemma NotQuit(s: State)
    requires NoShutdown(s)
    ensures !s.quit
  {
  }

  lemma {:induction false} DrainIsBounded(states: seq<State>, events: seq<Event>)
    requires Run(states, events) && NoShutdown(states[0])
    requires forall k :: 0 <= k < |events| ==> events[k] != CallArrives(Shutdown)
    ensures NoShutdown(states[|events|])
    ensures |events| + Outstanding(states[|events|]) <= Outstanding(states[0]) + Added(events)
  {
    hide NoShutdown, Enabled, Next, Outstanding, Adds;
    if events == [] {
    } else {
      var n := |events| - 1;
      DrainIsBounded(states[..n + 1], events[..n]);
      assert Enabled(states[n], events[n]) && states[n + 1] == Next(states[n], events[n]);
      DrainStep(states[n], events[n]);
      StepKeepsNoShutdown(states[n], events[n]);
    }
  }

  /** Main theorem on progress: a run of a pool with `n` workers that nobody shuts down has a bounded
      number of steps but for what calls and spurious wake-ups add, and can go on until every call
      has returned and every operation pushed was finished or removed. */
  lemma DrainEnds(states: seq<State>, events: seq<Event>, n: nat)
    requires n > 0 && Run(states, events) && states[0] == Init(n)
    requires forall k :: 0 <= k < |events| ==> events[k] != CallArrives(Shutdown)
    ensures |events| + Outstanding(states[|events|]) <= 2 * n + Added(events)
    ensures Rests(states[|events|]) || CanMove(states[|events|])
  {
    StartsWithWorkers(n);
    hide Init, Sound, NoShutdown, Rests, CanMove, Enabled, Next, Remaining;
    RunKeepsSound(states, events);
    DrainIsBounded(states, events);
    StopsOnlyAtRest(states[|events|]);
  }

  lemma StartsWithWorkers(n: nat)
    ensures var s := Init(n); Sound(s) && NoShutdown(s) && |s.workers| == n && Outstanding(s) == 2 * n
  {
    InitIsSound(n);
    WantingRemain(Init(n).workers);
  }

  lemma {:induction false} WantingRemain(workers: seq<Worker>)
    requires forall i :: 0 <= i < |workers| ==> workers[i] == Wanting
    ensures Remaining(workers) == 2 * |workers|
  {
    if workers == [] {
    } else {
      WantingRemain(workers[1..]);
    }
  }

  // ---------- shutting down ----------

  /** Once `quit` is set nothing is started any more. */
  lemma {:induction false} NothingStartsAfterQuit(states: seq<State>, events: seq<Event>)
    requires Run(states, events) && states[0].quit
    ensures states[|events|].quit && states[|events|].started == states[0].started
  {
    if events == [] {
    } else {
      var n := |events| - 1;
      NothingStartsAfterQuit(states[..n + 1], events[..n]);
      assert Enabled(states[n], events[n]) && states[n + 1] == Next(states[n], events[n]);
    }
  }

  /** After the alarm the workers have a bounded number of steps left, and every one of their steps,
      in whatever interleaving, uses one up. */
  lemma {:induction false} AlarmBoundsSteps(states: seq<State>, events: seq<Event>)
    requires Run(states, events) && Sound(states[0]) && states[0].alarmed
    ensures states[|events|].alarmed
    ensures WorkerSteps(events) + Remaining(states[|events|].workers) == Remaining(states[0].workers)
    ensures WorkerSteps(events) <= 3 * |states[0].workers|
  {
    hide Sound, Enabled, Next, Remaining;
    RemainingZero(states[0].workers);
    if events == [] {
    } else {
      var n := |events| - 1;
      AlarmBoundsSteps(states[..n + 1], events[..n]);
      RunKeepsSound(states, events);
      assert Enabled(states[n], events[n]) && states[n + 1] == Next(states[n], events[n]);
      AlarmedStep(states[n], events[n]);
    }
  }

  lemma AlarmedStep(s: State, e: Event)
    requires Sound(s) && s.alarmed && Enabled(s, e)
    ensures Next(s, e).alarmed
    ensures Remaining(Next(s, e).workers) + (if IsWorkerStep(e) then 1 else 0) == Remaining(s.workers)
  {
    StepAfterAlarm(s, e);
  }

  /** After the alarm, nobody sleeps; a worker that has not left can move, or the caller that holds
      the mutex can; and with no step left every worker has left, so that every join returns. */
  lemma AlarmLeadsToExit(s: State)
    requires Sound(s) && s.alarmed
    ensures forall i :: 0 <= i < |s.workers| ==> s.workers[i] != Blocked
    ensures Remaining(s.workers) > 0 ==>
              exists e :: (IsWorkerStep(e) || e.CallerActs?) && Enabled(s, e)
    ensures Remaining(s.workers) == 0 ==>
              forall j :: 0 <= j < |s.callers| && s.callers[j].stage.Joining? ==> Enabled(s, Joins(j))
  {
    hide WakeUps, Accounted, InOrder, OneAtATime, Pushes, AllJoined, Remaining;
    RemainingZero(s.workers);
    if Remaining(s.workers) > 0 {
      var i :| 0 <= i < |s.workers| && s.workers[i] != Exited && s.workers[i] != Blocked;
      match s.mutex
      case Some(ByWorker(k)) => assert Enabled(s, WorkerDecides(k));
      case Some(ByCaller(j)) => assert Enabled(s, CallerActs(j));
      case None =>
        if s.workers[i].Running? {
          assert Enabled(s, OpReturns(i));
        } else {
          assert Enabled(s, WorkerLocks(i));
        }
    }
  }

  predicate AllDone(s: State) {
    && (forall i :: 0 <= i < |s.workers| ==> s.workers[i] == Exited)
    && (forall j :: 0 <= j < |s.callers| ==> s.callers[j].stage == Finished)
  }

  lemma CallerMoves(s: State, j: nat)
    requires Sound(s) && s.alarmed && j < |s.callers| && s.callers[j].stage != Finished
    requires forall i :: 0 <= i < |s.workers| ==> s.workers[i] == Exited
    ensures exists e: Event :: !e.CallArrives? && Enabled(s, e)
  {
    hide WakeUps, Accounted, InOrder, OneAtATime, Pushes, AllJoined;
    match s.callers[j].stage
    case Waiting =>
      if s.mutex.Some? {
        assert Enabled(s, CallerActs(s.mutex.value.caller));
      } else {
        assert Enabled(s, CallerLocks(j));
      }
    case Locked => assert Enabled(s, CallerActs(j));
    case Unlocked =>
      if s.callers[j].task == Shutdown {
        assert Enabled(s, NotifyAll(j));
      } else {
        assert s.callers[j] == Caller(Dispatch, Unlocked);
        assert Enabled(s, NotifyNone(j));
      }
    case Joining(k) => assert Enabled(s, Joins(j));
  }

  /** After the alarm somebody can move until every worker has left and every call has returned, the
      destructor's joins included. */
  lemma StopsOnlyWhenDone(s: State)
    requires Sound(s) && s.alarmed
    ensures AllDone(s) || exists e: Event :: !e.CallArrives? && Enabled(s, e)
  {
    hide Sound, Enabled, Remaining;
    AlarmLeadsToExit(s);
    RemainingZero(s.workers);
    if Remaining(s.workers) == 0 && !AllDone(s) {
      var j :| 0 <= j < |s.callers| && s.callers[j].stage != Finished;
      CallerMoves(s, j);
    }
  }

  /** After the alarm every run has a bounded number of steps, apart from what new calls add. */
  lemma CallsAdd(k: nat, r: nat)
    ensures (k + 1) * r == k * r + r
  {
  }

  lemma {:induction false} ShutdownIsBounded(states: seq<State>, events: seq<Event>)
    requires Run(states, events) && Sound(states[0]) && states[0].alarmed
    ensures var last := states[|events|]; last.alarmed && |last.workers| == |states[0].workers|
    ensures |events| + TotalRemaining(states[|events|])
         <= TotalRemaining(states[0]) + NewCalls(events) * (|states[0].workers| + 5)
  {
    hide Sound, Enabled, Next, TotalRemaining;
    if events == [] {
    } else {
      var n := |events| - 1;
      ShutdownIsBounded(states[..n + 1], events[..n]);
      RunKeepsSound(states, events);
      assert Enabled(states[n], events[n]) && states[n + 1] == Next(states[n], events[n]);
      TotalSoundStep(states[n], events[n]);
      hide Run;
      CallsAdd(NewCalls(events[..n]), |states[0].workers| + 5);
    }
  }

  /** Main theorem on shutdown: from the alarm on, a run has a bounded number of steps, however it
      interleaves workers, callers and joins, apart from what calls still arriving add; and it can go
      on until every worker has left and every call, the destructor's joins included, has returned. */
  lemma ShutdownEnds(states: seq<State>, events: seq<Event>, n: nat, k: nat)
    requires Run(states, events) && states[0] == Init(n) && k < |states| && states[k].alarmed
    ensures |events| - k + TotalRemaining(states[|events|])
         <= TotalRemaining(states[k]) + NewCalls(events[k..]) * (n + 5)
    ensures AllDone(states[|events|]) || exists e: Event :: !e.CallArrives? && Enabled(states[|events|], e)
  {
    hide Sound, Enabled, Next, TotalRemaining, AllDone;
    InitIsSound(n);
    RunKeepsSound(states, events);
    assert Run(states[k..], events[k..]) by {
      assert forall i :: 0 <= i < |events| - k ==> events[k..][i] == events[k + i];
    }
    ShutdownIsBounded(states[k..], events[k..]);
    assert states[k..][|events| - k] == states[|events|];
    StopsOnlyWhenDone(states[|events|]);
  }

  lemma TotalSoundStep(s: State, e: Event)
    requires Sound(s) && s.alarmed && Enabled(s, e)
    ensures Next(s, e).alarmed && |Next(s, e).workers| == |s.workers|
    ensures 1 + TotalRemaining(Next(s, e))
         <= TotalRemaining(s) + (if e.CallArrives? then |s.workers| + 5 else 0)
  {
    hide Quitting, TotalRemaining;
    StepAfterAlarm(s, e);
    TotalStep(s, e);
  }

  /** The alarm is always raised: as long as `quit` is set without it, `notify_all` can run. */
  lemma QuitLeadsToAlarm(s: State)
    requires Sound(s) && s.quit && !s.alarmed
    ensures exists j :: Enabled(s, NotifyAll(j)) && Next(s, NotifyAll(j)).alarmed
  {
    hide WakeUps, Accounted, InOrder, OneAtATime, Pushes, AllJoined;
    var j :| 0 <= j < |s.callers| && s.callers[j] == Caller(Shutdown, Unlocked);
    assert Enabled(s, NotifyAll(j));
  }

  // ---------- what became of each operation ----------

  predicate Subsequence(s: seq<nat>, n: nat) {
    forall i :: 0 <= i < |s| ==> s[i] < n && (i > 0 ==> s[i - 1] < s[i])
  }

  /** Main theorem on operations: queued, running, finished and removed operations are all those
      pushed, each once, and every dispatch that has had the mutex pushed one; started and queued ones
      keep the order of the pushes, and are all of them when nothing was removed; a single worker
      finishes in that order too. */
  lemma OperationsAreAccountedFor(states: seq<State>, events: seq<Event>, n: nat)
    requires Run(states, events) && states[0] == Init(n)
    ensures var s := states[|events|];
            && SameTasks(s.callers, Arrived(events))
            && s.pushed == Count(s.callers, HasPushed)
            && multiset(s.queue) + Busy(s.workers) + multiset(s.finished) + multiset(s.removed)
               == multiset(Order(s.pushed))
            && Subsequence(s.started + s.queue, s.pushed)
            && (s.removed == [] ==> s.started + s.queue == Order(s.pushed))
            && (n == 1 ==> s.finished <= s.started)
  {
    hide Busy, Order, Arrived, SameTasks, Count, Enabled, Next, AllJoined, Exclusive, WakeUps, Quitting;
    InitIsSound(n);
    RunKeepsSound(states, events);
    CallersArrived(states, events);
  }

  /** The destructor returns only after every worker has left. */
  lemma DestructorWaits(states: seq<State>, events: seq<Event>, n: nat, j: nat)
    requires Run(states, events) && states[0] == Init(n)
    requires var s := states[|events|]; j < |s.callers| && s.callers[j] == Caller(Shutdown, Finished)
    ensures var s := states[|events|]; |s.workers| == n && forall i :: 0 <= i < n ==> s.workers[i] == Exited
  {
    InitIsSound(n);
    RunKeepsSound(states, events);
    hide Exclusive, WakeUps, Quitting, Accounted, InOrder, OneAtATime, Pushes;
    assert Joined(states[|events|].workers, states[|events|].callers[j]);
  }

  // ---------- removed operations ----------

  /** Only operations pushed after the first `mark` are queued, or were started after `old_`. */
  predicate Beyond(s: State, mark: nat, old_: seq<nat>) {
    && mark <= s.pushed
    && (forall i :: 0 <= i < |s.queue| ==> mark <= s.queue[i])
    && old_ <= s.started && forall i :: |old_| <= i < |s.started| ==> mark <= s.started[i]
  }

  lemma StepKeepsBeyond(s: State, e: Event, mark: nat, old_: seq<nat>)
    requires Beyond(s, mark, old_) && Enabled(s, e)
    ensures Beyond(Next(s, e), mark, old_)
  {
    hide Awaken;
  }

  lemma RemovalClears(s: State, j: nat)
    requires Enabled(s, CallerActs(j)) && s.callers[j].task == RemovePending
    ensures Beyond(Next(s, CallerActs(j)), s.pushed, s.started)
    ensures multiset(Next(s, CallerActs(j)).removed) == multiset(s.removed) + multiset(s.queue)
  {
  }

  lemma {:induction false} RunKeepsBeyond(states: seq<State>, events: seq<Event>, mark: nat, old_: seq<nat>)
    requires Run(states, events) && Beyond(states[0], mark, old_)
    ensures Beyond(states[|events|], mark, old_)
  {
    hide Beyond, Enabled, Next;
    if events == [] {
    } else {
      var n := |events| - 1;
      RunKeepsBeyond(states[..n + 1], events[..n], mark, old_);
      assert Enabled(states[n], events[n]) && states[n + 1] == Next(states[n], events[n]);
      StepKeepsBeyond(states[n], events[n], mark, old_);
    }
  }

  /** Once a removal has had the mutex, in step `k`, no operation pushed before is queued or started
      any more, and those that were queued then count as removed. */
  lemma RemovedStaysRemoved(states: seq<State>, events: seq<Event>, k: nat, j: nat)
    requires Run(states, events) && k < |events| && j < |states[k].callers|
    requires events[k] == CallerActs(j) && states[k].callers[j].task == RemovePending
    ensures multiset(states[k + 1].removed) == multiset(states[k].removed) + multiset(states[k].queue)
    ensures Beyond(states[|events|], states[k].pushed, states[k].started)
  {
    hide Next, Beyond;
    assert Enabled(states[k], events[k]) && states[k + 1] == Next(states[k], events[k]);
    RemovalClears(states[k], j);
    var later := events[k + 1..];
    assert forall i :: 0 <= i < |later| ==> later[i] == events[k + 1 + i];
    RunKeepsBeyond(states[k + 1..], later, states[k].pushed, states[k].started);
    assert states[k + 1..][|events| - k - 1] == states[|events|];
  }
}
