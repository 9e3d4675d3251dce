/**
 The callback gate: one mutex, one condition variable, one callback slot and one
 worker thread, as steps of individual threads that may interleave in any way.
 */
module Gate {

  /** A submitted host function, or a stream callback, which is told the status instead of being skipped. */
  datatype Job = Job(id: nat, hostFunction: bool)

  datatype Slot = Empty | Full(job: Job)

  /** Where an application thread is inside a runtime entry. */
  datatype Place = Outside | Locking | Checking | Waiting | Inside | Leaving

  datatype Worker =
    | NotStarted
    | WLocking
    | WChecking
    | WWaiting
    | WSyncing
    | WDraining
    | WReady(good: bool)
    | WRunning(job: Job, good: bool)   // user code, outside the mutex
    | WReturning
    | WClearing

  datatype Holder = Nobody | Thread(t: nat) | TheWorker

  datatype Event =
    | Entered(t: nat)
    | Submitted(job: Job)
    | Synced(id: nat, ok: bool)
    | Drained(id: nat, ok: bool)
    | Ran(job: Job)
    | Finished(id: nat)

  datatype State = State(holder: Holder, pending: bool, slot: Slot, places: map<nat, Place>, worker: Worker,
                         next: nat, trace: seq<Event>)

  const INIT := State(Nobody, false, Empty, map[], NotStarted, 0, [])

  function PlaceOf(s: State, t: nat): Place { if t in s.places then s.places[t] else Outside }

  function At(s: State, t: nat, p: Place): State { s.(places := s.places[t := p]) }

  function Record(s: State, e: Event): State { s.(trace := s.trace + [e]) }

  datatype Move =
    | Arrive(t: nat)
    | Acquire(t: nat)
    | Check(t: nat)
    | Wake(t: nat)                                           // broadcast or spurious
    | Submit(t: nat, hostFunction: bool, workerMade: bool)
    | Operate(t: nat)                                        // any other runtime call
    | Leave(t: nat)
    | WAcquire | WCheck | WWake
    | WSync(ok: bool)
    | WDrain(ok: bool)
    | WRelease | WCall | WReacquire | WClear

  /** The gate: past the mutex, wait for as long as a callback is pending. */
  function CheckMove(s: State, t: nat): State
  {
    if PlaceOf(s, t) != Checking then s
    else if s.pending then At(s, t, Waiting).(holder := Nobody)
    else Record(At(s, t, Inside), Entered(t))
  }

  /** The first submission starts the worker; when that fails nothing is submitted. */
  function SubmitMove(s: State, t: nat, hostFunction: bool, workerMade: bool): State
  {
    if PlaceOf(s, t) != Inside then s
    else if s.worker == NotStarted && !workerMade then At(s, t, Leaving)
    else
      var job := Job(s.next, hostFunction);
      Record(At(s, t, Leaving).(slot := Full(job), pending := true, next := s.next + 1,
                                worker := if s.worker == NotStarted then WLocking else s.worker),
             Submitted(job))
  }

  function ThreadMove(s: State, m: Move): State
  {
    match m
    case Arrive(t) => if PlaceOf(s, t) == Outside then At(s, t, Locking) else s
    case Acquire(t) => if PlaceOf(s, t) == Locking && s.holder == Nobody then At(s, t, Checking).(holder := Thread(t)) else s
    case Check(t) => CheckMove(s, t)
    case Wake(t) => if PlaceOf(s, t) == Waiting then At(s, t, Locking) else s
    case Submit(t, hostFunction, workerMade) => SubmitMove(s, t, hostFunction, workerMade)
    case Operate(t) => if PlaceOf(s, t) == Inside then At(s, t, Leaving) else s
    case Leave(t) => if PlaceOf(s, t) == Leaving then At(s, t, Outside).(holder := Nobody) else s
    case _ => s
  }

  /** The job is read from the slot when the mutex is released for user code. */
  function WorkerMove(s: State, m: Move): State
  {
    match m
    case WAcquire => if s.worker == WLocking && s.holder == Nobody then s.(holder := TheWorker, worker := WChecking) else s
    case WCheck =>
      if s.worker != WChecking then s
      else if s.pending then s.(worker := WSyncing)
      else s.(worker := WWaiting, holder := Nobody)
    case WWake => if s.worker == WWaiting then s.(worker := WLocking) else s
    case WSync(ok) =>
      if s.worker == WSyncing && s.slot.Full? then
        Record(s.(worker := if ok then WDraining else WReady(false)), Synced(s.slot.job.id, ok))
      else s
    case WDrain(ok) =>
      if s.worker == WDraining && s.slot.Full? then Record(s.(worker := WReady(ok)), Drained(s.slot.job.id, ok)) else s
    case WRelease =>
      if s.worker.WReady? && s.slot.Full? then s.(worker := WRunning(s.slot.job, s.worker.good), holder := Nobody) else s
    case WCall =>
      if !s.worker.WRunning? then s
      else if s.worker.job.hostFunction && !s.worker.good then s.(worker := WReturning)
      else Record(s.(worker := WReturning), Ran(s.worker.job))
    case WReacquire => if s.worker == WReturning && s.holder == Nobody then s.(holder := TheWorker, worker := WClearing) else s
    case WClear =>
      if s.worker == WClearing && s.slot.Full? then
        Record(s.(pending := false, slot := Empty, worker := WChecking), Finished(s.slot.job.id))
      else s
    case _ => s
  }

  predicate IsWorkerMove(m: Move)
  {
    m.WAcquire? || m.WCheck? || m.WWake? || m.WSync? || m.WDrain? || m.WRelease? || m.WCall? || m.WReacquire? || m.WClear?
  }

  function Step(s: State, m: Move): State { if IsWorkerMove(m) then WorkerMove(s, m) else ThreadMove(s, m) }

  function Run(moves: seq<Move>): State
  {
    if moves == [] then INIT else Step(Run(moves[..|moves| - 1]), moves[|moves| - 1])
  }

  // ---------------------------------------------------------------------
  // What the trace must look like
  // ---------------------------------------------------------------------

  /** Nothing enters or is submitted strictly between `a` and `b`. */
  ghost predicate Quiet(trace: seq<Event>, a: int, b: int)
    requires -1 <= a && b <= |trace|
  {
    forall c :: a < c < b ==> !trace[c].Entered? && !trace[c].Submitted?
  }

  /** The submission at `a` finishes at `b`, and nothing enters in between. */
  ghost predicate FinishesAt(trace: seq<Event>, a: nat, b: nat)
    requires a < |trace| && trace[a].Submitted? && b < |trace|
  {
    a < b && trace[b] == Finished(trace[a].job.id) && Quiet(trace, a, b)
  }

  /** Exclusive use of the slot: a submission is either finished, or still the one in the slot with nothing entered since. */
  ghost predicate Exclusive(s: State)
  {
    forall a :: 0 <= a < |s.trace| && s.trace[a].Submitted? ==>
      || (exists b :: 0 <= b < |s.trace| && FinishesAt(s.trace, a, b))
      || (s.slot == Full(s.trace[a].job) && Quiet(s.trace, a, |s.trace|))
  }

  ghost predicate Numbered(s: State)
  {
    && (forall a :: 0 <= a < |s.trace| && s.trace[a].Submitted? ==> s.trace[a].job.id < s.next)
    && (forall a :: 0 <= a < |s.trace| && s.trace[a].Ran? ==> s.trace[a].job.id < s.next)
    && (s.slot.Full? ==> s.slot.job.id < s.next)
  }

  ghost predicate Happened(trace: seq<Event>, e: Event, b: nat)
    requires b <= |trace|
  {
    exists a :: 0 <= a < b && trace[a] == e
  }

  /** A host function ran only after its own synchronisation and drain had succeeded; nothing ran twice. */
  ghost predicate RunsOk(s: State)
  {
    && (forall b :: 0 <= b < |s.trace| && s.trace[b].Ran? ==>
          && Happened(s.trace, Submitted(s.trace[b].job), b)
          && (s.trace[b].job.hostFunction ==>
                Happened(s.trace, Synced(s.trace[b].job.id, true), b) && Happened(s.trace, Drained(s.trace[b].job.id, true), b)))
    && (forall a, b :: 0 <= a < b < |s.trace| && s.trace[a].Ran? && s.trace[b].Ran? ==> s.trace[a].job.id != s.trace[b].job.id)
  }

  predicate Busy(w: Worker) { w.WSyncing? || w.WDraining? || w.WReady? || w.WRunning? || w.WReturning? || w.WClearing? }
  predicate Locked(w: Worker) { w.WChecking? || w.WSyncing? || w.WDraining? || w.WReady? || w.WClearing? }
  predicate Holds(p: Place) { p == Checking || p == Inside || p == Leaving }

  ghost predicate MutexOk(s: State)
  {
    && (forall t: nat :: Holds(PlaceOf(s, t)) <==> s.holder == Thread(t))
    && (Locked(s.worker) <==> s.holder == TheWorker)
  }

  ghost predicate GateOk(s: State)
  {
    && (s.pending <==> s.slot.Full?)
    && (Busy(s.worker) ==> s.pending)
    && (forall t: nat :: PlaceOf(s, t) == Inside ==> !s.pending)
    && (s.worker.WRunning? ==> s.slot == Full(s.worker.job))
  }

  /** How far the job in the slot has come. */
  ghost predicate PhaseOk(s: State)
  {
    s.slot.Full? ==>
      var j := s.slot.job;
      && Happened(s.trace, Submitted(j), |s.trace|)
      && (s.worker.WDraining? || (s.worker.WReady? && s.worker.good) || (s.worker.WRunning? && s.worker.good) ==>
            Happened(s.trace, Synced(j.id, true), |s.trace|))
      && ((s.worker.WReady? && s.worker.good) || (s.worker.WRunning? && s.worker.good) ==>
            Happened(s.trace, Drained(j.id, true), |s.trace|))
      && (!s.worker.WReturning? && !s.worker.WClearing? ==>
            forall a :: 0 <= a < |s.trace| && s.trace[a].Ran? ==> s.trace[a].job.id != j.id)
  }

  ghost predicate Inv(s: State)
  {
    MutexOk(s) && GateOk(s) && Exclusive(s) && Numbered(s) && RunsOk(s) && PhaseOk(s)
  }

  // ---------------------------------------------------------------------
  // Every step keeps it
  // ---------------------------------------------------------------------

  lemma MutexKept(s: State, m: Move)
    requires MutexOk(s)
    ensures MutexOk(Step(s, m))
  {
  }

  lemma GateKept(s: State, m: Move)
    requires MutexOk(s) && GateOk(s)
    ensures GateOk(Step(s, m))
  {
    var s' := Step(s, m);
    forall t: nat | PlaceOf(s', t) == Inside ensures !s'.pending {
      assert Holds(PlaceOf(s, t));
    }
  }

  lemma NumberedKept(s: State, m: Move)
    requires Numbered(s) && GateOk(s)
    ensures Numbered(Step(s, m))
  {
  }

  /** A step appends at most one event, and touches the slot only to fill or clear it. */
  ghost predicate Grows(s: State, s': State, e: Event)
  {
    && s'.trace == s.trace + [e]
    && (e.Entered? ==> s.slot.Empty? && s'.slot.Empty?)
    && (e.Submitted? ==> s.slot.Empty? && s'.slot == Full(e.job))
    && (e.Finished? ==> s.slot.Full? && e.id == s.slot.job.id && s'.slot.Empty?)
    && (e.Synced? || e.Drained? || e.Ran? ==> s'.slot == s.slot)
  }

  lemma StepGrows(s: State, m: Move) returns (e: Event)
    requires MutexOk(s) && GateOk(s)
    ensures (Step(s, m).trace == s.trace && Step(s, m).slot == s.slot) || Grows(s, Step(s, m), e)
  {
    var s' := Step(s, m);
    e := if s'.trace == s.trace then Finished(0) else s'.trace[|s'.trace| - 1];
  }

  lemma ExclusiveGrows(s: State, s': State, e: Event)
    requires Exclusive(s) && Grows(s, s', e)
    ensures Exclusive(s')
  {
    var n := |s.trace|;
    forall a | 0 <= a < |s'.trace| && s'.trace[a].Submitted?
      ensures || (exists b :: 0 <= b < |s'.trace| && FinishesAt(s'.trace, a, b))
              || (s'.slot == Full(s'.trace[a].job) && Quiet(s'.trace, a, |s'.trace|))
    {
      if a < n {
        assert s.trace[a] == s'.trace[a];
        if b :| 0 <= b < n && FinishesAt(s.trace, a, b) {
          assert s'.trace[b] == s.trace[b];
          assert FinishesAt(s'.trace, a, b);
        } else {
          assert s.slot == Full(s.trace[a].job) && Quiet(s.trace, a, n);
          assert e.Finished? ==> FinishesAt(s'.trace, a, n);
        }
      }
    }
  }

  lemma HappenedGrows(trace: seq<Event>, e: Event, x: Event, b: nat)
    requires b <= |trace|
    ensures Happened(trace, x, b) ==> Happened(trace + [e], x, b) && Happened(trace + [e], x, |trace| + 1)
    ensures Happened(trace + [e], e, |trace| + 1)
  {
    if Happened(trace, x, b) {
      var a :| 0 <= a < b && trace[a] == x;
      assert (trace + [e])[a] == x;
    }
    assert (trace + [e])[|trace|] == e;
  }

  /** The one event that can break the running rules is a run, and it comes with the slot's job at the right stage. */
  lemma RunsGrow(s: State, s': State, e: Event)
    requires RunsOk(s) && s'.trace == s.trace + [e]
    requires e.Ran? ==>
               && s.slot == Full(e.job) && PhaseOk(s)
               && s.worker.WRunning? && (e.job.hostFunction ==> s.worker.good)
    ensures RunsOk(s')
  {
    forall b | 0 <= b < |s'.trace| && s'.trace[b].Ran?
      ensures Happened(s'.trace, Submitted(s'.trace[b].job), b)
      ensures s'.trace[b].job.hostFunction ==>
                Happened(s'.trace, Synced(s'.trace[b].job.id, true), b) && Happened(s'.trace, Drained(s'.trace[b].job.id, true), b)
    {
      var j := s'.trace[b].job;
      HappenedGrows(s.trace, e, Submitted(j), b);
      HappenedGrows(s.trace, e, Synced(j.id, true), b);
      HappenedGrows(s.trace, e, Drained(j.id, true), b);
      assert b < |s.trace| ==> s.trace[b] == s'.trace[b];
    }
  }

  lemma RunsKept(s: State, m: Move)
    requires Inv(s)
    ensures RunsOk(Step(s, m))
  {
    var s' := Step(s, m);
    var e := StepGrows(s, m);
    if s'.trace != s.trace {
      assert s'.trace[|s.trace|] == e;
      assert e.Ran? ==> m.WCall? && s.worker.WRunning? && e.job == s.worker.job;
      hide Step, Exclusive, MutexOk, Numbered, RunsOk, PhaseOk;
      RunsGrow(s, s', e);
    }
  }

  /** Threads leave the worker's progress alone; a submission starts a new job from nothing. */
  lemma PhaseKeptByThreads(s: State, m: Move)
    requires MutexOk(s) && GateOk(s) && PhaseOk(s) && Numbered(s) && !IsWorkerMove(m)
    ensures PhaseOk(Step(s, m))
  {
    var s' := Step(s, m);
    var e := StepGrows(s, m);
    if s'.slot.Full? && s'.trace != s.trace {
      assert s'.trace[|s.trace|] == e;
      assert e.Submitted? && !Busy(s'.worker);
      HappenedGrows(s.trace, e, e, |s.trace|);
      assert forall a :: 0 <= a < |s.trace| && s.trace[a].Ran? ==> s.trace[a].job.id != s.next;
    }
  }

  lemma PhaseKeptByWorker(s: State, m: Move)
    requires MutexOk(s) && GateOk(s) && PhaseOk(s) && IsWorkerMove(m)
    ensures PhaseOk(Step(s, m))
  {
    hide Happened;
    var s' := Step(s, m);
    if s'.slot.Full? && s'.trace != s.trace {
      var j := s.slot.job;
      var e := s'.trace[|s.trace|];
      assert s'.trace == s.trace + [e];
      assert e == Synced(j.id, s'.worker.WDraining?) || (s'.worker.WReady? && e == Drained(j.id, s'.worker.good)) || e == Ran(j);
      HappenedGrows(s.trace, e, Submitted(j), |s.trace|);
      HappenedGrows(s.trace, e, Synced(j.id, true), |s.trace|);
      HappenedGrows(s.trace, e, Drained(j.id, true), |s.trace|);
    }
  }

  lemma PhaseKept(s: State, m: Move)
    requires MutexOk(s) && GateOk(s) && PhaseOk(s) && Numbered(s)
    ensures PhaseOk(Step(s, m))
  {
    hide *;
    if IsWorkerMove(m) { PhaseKeptByWorker(s, m); } else { PhaseKeptByThreads(s, m); }
  }

  lemma StepKeeps(s: State, m: Move)
    requires Inv(s)
    ensures Inv(Step(s, m))
  {
    MutexKept(s, m);
    GateKept(s, m);
    NumberedKept(s, m);
    RunsKept(s, m);
    PhaseKept(s, m);
    var e := StepGrows(s, m);
    hide Step, MutexOk, GateOk, Numbered, RunsOk, PhaseOk;
    if Step(s, m).trace != s.trace {
      hide Exclusive;
      ExclusiveGrows(s, Step(s, m), e);
    }
  }

  lemma {:induction false} EveryRunKeeps(moves: seq<Move>)
    ensures Inv(Run(moves))
  {
    if moves != [] {
      EveryRunKeeps(moves[..|moves| - 1]);
      hide Inv, Step;
      StepKeeps(Run(moves[..|moves| - 1]), moves[|moves| - 1]);
    }
  }

  // ---------------------------------------------------------------------
  // Over every interleaving
  // ---------------------------------------------------------------------

  /** Between a submission and its completion no entry passes the gate and the slot is not overwritten. */
  lemma NothingOvertakes(moves: seq<Move>, a: nat, c: nat)
    requires a < c < |Run(moves).trace| && Run(moves).trace[a].Submitted?
    requires Run(moves).trace[c].Entered? || Run(moves).trace[c].Submitted?
    ensures exists b :: a < b < c && Run(moves).trace[b] == Finished(Run(moves).trace[a].job.id)
  {
    EveryRunKeeps(moves);
    var s := Run(moves);
    hide Run;
    assert !Quiet(s.trace, a, |s.trace|);
    var b :| 0 <= b < |s.trace| && FinishesAt(s.trace, a, b);
    assert b != c;
  }

  /** A submitted function runs at most once, and a host function only after its sync and drain succeeded. */
  lemma RunsOnceAndInOrder(moves: seq<Move>, b: nat)
    requires b < |Run(moves).trace| && Run(moves).trace[b].Ran?
    ensures
      var trace := Run(moves).trace;
      var job := trace[b].job;
      && (forall a :: 0 <= a < |trace| && a != b && trace[a].Ran? ==> trace[a].job.id != job.id)
      && Happened(trace, Submitted(job), b)
      && (job.hostFunction ==> Happened(trace, Synced(job.id, true), b) && Happened(trace, Drained(job.id, true), b))
  {
    EveryRunKeeps(moves);
  }

  /** At most one thread is ever inside, and none while a callback is pending. */
  lemma OneInside(moves: seq<Move>, t: nat, u: nat)
    requires PlaceOf(Run(moves), t) == Inside && PlaceOf(Run(moves), u) == Inside
    ensures t == u && !Run(moves).pending && !Busy(Run(moves).worker)
  {
    EveryRunKeeps(moves);
    assert Holds(PlaceOf(Run(moves), t)) && Holds(PlaceOf(Run(moves), u));
  }
}
