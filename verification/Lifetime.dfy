/**
 When the server lets go of native storage. The device works through a queue per
 stream, finishing work whenever it likes; the server must not release pinned
 staging, device memory or module code that queued work still uses.
 */
module Lifetime {

  /** Native storage that queued work may use. */
  datatype Res = Staging(n: nat) | Storage(n: nat) | Code(n: nat)

  datatype Work = Work(id: nat, uses: set<Res>)

  /** A transfer remembers its stream and the operation its event was recorded after. */
  datatype Transfer = Transfer(stream: nat, op: nat)

  datatype Cause = ByWait | ByFree | ByUnload | ByFailure | ByCleanup

  /** A release is clean when nothing queued uses the storage any more, and idle when nothing is queued at all. */
  datatype Release = Release(what: Res, cause: Cause, clean: bool, idle: bool)

  /** Allocations and kernels map to the module they belong to, 0 for none. Stream 0 always exists. */
  datatype Server = Server(allocs: map<nat, nat>, modules: set<nat>, kernels: map<nat, nat>, streams: set<nat>,
                           events: set<nat>, transfers: map<nat, Transfer>,
                           queues: map<nat, seq<Work>>, next: nat, nextOp: nat,
                           trace: seq<Release>, stranded: set<nat>)

  const INIT := Server(map[], {}, map[], {}, {}, map[], map[], 1, 1, [], {})

  function Queue(s: Server, q: nat): seq<Work> { if q in s.queues then s.queues[q] else [] }

  ghost predicate InFlight(s: Server, r: Res)
  {
    exists q: nat, w :: w in Queue(s, q) && r in w.uses
  }

  ghost predicate Idle(s: Server) { forall q: nat :: Queue(s, q) == [] }

  predicate KnownStream(s: Server, q: nat) { q == 0 || q in s.streams }

  ghost function Freed(s: Server, r: Res, cause: Cause): Server
  {
    s.(trace := s.trace + [Release(r, cause, !InFlight(s, r), Idle(s))])
  }

  // ---------------------------------------------------------------------
  // The driver
  // ---------------------------------------------------------------------

  function Enqueue(s: Server, q: nat, uses: set<Res>): Server
  {
    s.(queues := s.queues[q := Queue(s, q) + [Work(s.nextOp, uses)]], nextOp := s.nextOp + 1)
  }

  /** The device finishes the oldest work of a stream. */
  function Finish(s: Server, q: nat): Server
  {
    if Queue(s, q) == [] then s else s.(queues := s.queues[q := Queue(s, q)[1..]])
  }

  function After(ws: seq<Work>, op: nat): seq<Work>
  {
    if ws == [] then [] else (if ws[0].id <= op then [] else [ws[0]]) + After(ws[1..], op)
  }

  /** Barriers. A barrier that fails waits for nothing. */
  function SyncContext(s: Server, works: bool): Server { if works then s.(queues := map[]) else s }
  function SyncStream(s: Server, q: nat, works: bool): Server { if works then s.(queues := s.queues[q := []]) else s }
  function SyncEvent(s: Server, t: Transfer, works: bool): Server
  {
    if works then s.(queues := s.queues[t.stream := After(Queue(s, t.stream), t.op)]) else s
  }

  // ---------------------------------------------------------------------
  // Requests
  // ---------------------------------------------------------------------

  /**
   How far setting up an asynchronous copy gets; `flat` is the one-dimensional form. The
   consuming three-dimensional modes wait for the event within the request.
   */
  datatype Setup =
    | NoBuffer
    | NoEvent
    | NoCopy(flat: bool, barrier: bool)
    | NoRecord(barrier: bool)
    | Consumed(barrier: bool)
    | Complete

  datatype Request =
    | NewAlloc
    | NewGlobal(m: nat)
    | NewModule
    | NewKernel(m: nat)
    | NewStream
    | NewEvent
    | Operate(q: nat, allocs: set<nat>)              // copies and memsets on a stream
    | Launch(k: nat, q: nat, allocs: set<nat>)
    | SubmitCopy(a: nat, q: nat, setup: Setup)
    | Wait(t: nat, barrier: bool)
    | Free(a: nat, barrier: bool, ok: bool)
    | FreeAsync(a: nat, q: nat)
    | Unload(m: nat, barrier: bool, ok: bool)
    | DestroyStream(q: nat, barrier: bool, ok: bool)
    | DestroyEvent(e: nat, barrier: bool, ok: bool)
    | SetFlags                                        // a change of context flags
    | Cleanup(streams: set<nat>, transfers: set<nat>, context: bool)   // which barriers work
    | Device(q: nat)

  function Storages(allocs: set<nat>): set<Res> { set a | a in allocs :: Storage(a) }

  function Drop(s: Server, t: nat): Server { s.(transfers := s.transfers - {t}) }

  /**
   Stage the copy, enqueue it, record its event. A copy that was enqueued but not
   recorded, or that the request itself consumes, is waited for before its staging
   goes, whatever the wait answers.
   */
  ghost function SubmitStep(s: Server, a: nat, q: nat, setup: Setup): Server
  {
    if a !in s.allocs || !KnownStream(s, q) then s
    else
      var t := s.next;
      var s0 := s.(next := t + 1);
      var s1 := Enqueue(s0, q, {Staging(t), Storage(a)});
      match setup
      case NoBuffer => s0
      case NoEvent => Freed(s0, Staging(t), ByFailure)
      case NoCopy(flat, barrier) => Freed(if flat then s0 else SyncStream(s0, q, barrier), Staging(t), ByFailure)
      case NoRecord(barrier) => Freed(SyncStream(s1, q, barrier), Staging(t), ByFailure)
      case Consumed(barrier) => Freed(SyncEvent(s1, Transfer(q, s0.nextOp), barrier), Staging(t), ByFailure)
      case Complete => s1.(transfers := s1.transfers[t := Transfer(q, s0.nextOp)])
  }

  ghost function WaitStep(s: Server, t: nat, barrier: bool): Server
  {
    if t !in s.transfers || !barrier then s
    else Drop(Freed(SyncEvent(s, s.transfers[t], true), Staging(t), ByWait), t)
  }

  ghost function FreeStep(s: Server, a: nat, barrier: bool, ok: bool): Server
  {
    if a !in s.allocs || s.allocs[a] != 0 || !barrier then s
    else
      var s1 := SyncContext(s, true);
      if ok then Freed(s1, Storage(a), ByFree).(allocs := s.allocs - {a}) else s1
  }

  function KernelsOf(s: Server, m: nat): set<nat> { set k | k in s.kernels && s.kernels[k] == m }
  function GlobalsOf(s: Server, m: nat): set<nat> { set a | a in s.allocs && s.allocs[a] == m }

  /** Kernels go first, even if the driver then refuses to unload; variables go with the module. */
  ghost function UnloadStep(s: Server, m: nat, barrier: bool, ok: bool): Server
  {
    if m !in s.modules || !barrier then s
    else
      var s1 := SyncContext(s, true).(kernels := s.kernels - KernelsOf(s, m));
      if ok then Freed(s1, Code(m), ByUnload).(modules := s.modules - {m}, allocs := s.allocs - GlobalsOf(s, m)) else s1
  }

  function DestroyStreamStep(s: Server, q: nat, barrier: bool, ok: bool): Server
  {
    if q !in s.streams || !barrier then s
    else
      var s1 := SyncStream(s, q, true);
      if ok then s1.(streams := s.streams - {q}) else s1
  }

  function DestroyEventStep(s: Server, e: nat, barrier: bool, ok: bool): Server
  {
    if e !in s.events || !barrier then s
    else
      var s1 := SyncContext(s, true);
      if ok then s1.(events := s.events - {e}) else s1
  }

  /** The context is made anew only when no allocation, stream, event, module or transfer is left. Kernels are not looked at. */
  function SetFlagsStep(s: Server): Server
  {
    if s.allocs != map[] || s.streams != {} || s.events != {} || s.modules != {} || s.transfers != map[] then s
    else s.(queues := map[], stranded := s.stranded + s.kernels.Keys)
  }

  function SyncStreams(s: Server, qs: set<nat>): Server
  {
    s.(queues := map q | q in s.queues :: if q in qs && q in s.streams then [] else s.queues[q])
  }

  /** Every transfer is waited for and its staging released, whatever the wait answers. */
  ghost function RetireAll(s: Server, works: set<nat>): Server
    decreases |s.transfers|
  {
    if s.transfers == map[] then s
    else
      var t :| t in s.transfers;
      RetireAll(Drop(Freed(SyncEvent(s, s.transfers[t], t in works), Staging(t), ByCleanup), t), works)
  }

  ghost function ReleaseAll(s: Server): Server
    decreases |s.allocs|
  {
    if s.allocs == map[] then s
    else
      var a :| a in s.allocs;
      ReleaseAll((if s.allocs[a] == 0 then Freed(s, Storage(a), ByCleanup) else s).(allocs := s.allocs - {a}))
  }

  ghost function UnloadAll(s: Server): Server
    decreases |s.modules|
  {
    if s.modules == {} then s
    else
      var m :| m in s.modules;
      UnloadAll(Freed(s, Code(m), ByCleanup).(modules := s.modules - {m}))
  }

  /** Session end: streams, transfers, events and streams, context, memory, kernels, modules. The next session starts clean. */
  ghost function CleanupStep(s: Server, streams: set<nat>, transfers: set<nat>, context: bool): Server
  {
    var s1 := RetireAll(SyncStreams(s, streams), transfers);
    var s2 := SyncContext(s1.(events := {}, streams := {}), context);
    var s3 := UnloadAll(ReleaseAll(s2).(kernels := map[]));
    INIT.(trace := s3.trace, stranded := s3.stranded)
  }

  function NewId(s: Server): Server { s.(next := s.next + 1) }

  ghost function Step(s: Server, r: Request): Server
  {
    match r
    case NewAlloc => NewId(s).(allocs := s.allocs[s.next := 0])
    case NewGlobal(m) => if m in s.modules then NewId(s).(allocs := s.allocs[s.next := m]) else s
    case NewModule => NewId(s).(modules := s.modules + {s.next})
    case NewKernel(m) => if m in s.modules then NewId(s).(kernels := s.kernels[s.next := m]) else s
    case NewStream => NewId(s).(streams := s.streams + {s.next})
    case NewEvent => NewId(s).(events := s.events + {s.next})
    case Operate(q, allocs) =>
      if KnownStream(s, q) && allocs <= s.allocs.Keys then Enqueue(s, q, Storages(allocs)) else s
    case Launch(k, q, allocs) =>
      if k in s.kernels && KnownStream(s, q) && allocs <= s.allocs.Keys then
        Enqueue(s, q, Storages(allocs) + {Code(s.kernels[k])})
      else s
    case SubmitCopy(a, q, setup) => SubmitStep(s, a, q, setup)
    case Wait(t, barrier) => WaitStep(s, t, barrier)
    case Free(a, barrier, ok) => FreeStep(s, a, barrier, ok)
    case FreeAsync(a, q) =>
      if a in s.allocs && s.allocs[a] == 0 && KnownStream(s, q) then s.(allocs := s.allocs - {a}) else s
    case Unload(m, barrier, ok) => UnloadStep(s, m, barrier, ok)
    case DestroyStream(q, barrier, ok) => DestroyStreamStep(s, q, barrier, ok)
    case DestroyEvent(e, barrier, ok) => DestroyEventStep(s, e, barrier, ok)
    case SetFlags => SetFlagsStep(s)
    case Cleanup(streams, transfers, context) => CleanupStep(s, streams, transfers, context)
    case Device(q) => Finish(s, q)
  }

  ghost function Run(rs: seq<Request>): Server
  {
    if rs == [] then INIT else Step(Run(rs[..|rs| - 1]), rs[|rs| - 1])
  }

  // ---------------------------------------------------------------------
  // What every run keeps
  // ---------------------------------------------------------------------

  /** A barrier whose answer the server ignores has worked. */
  predicate Honest(s: Server, r: Request)
  {
    match r
    case SubmitCopy(_, _, NoRecord(barrier)) => barrier
    case SubmitCopy(_, _, Consumed(barrier)) => barrier
    case Cleanup(_, transfers, context) => s.transfers.Keys <= transfers && context
    case _ => true
  }

  /** Queued work that uses the staging of a transfer is that transfer's copy, not later than its event. */
  ghost predicate WorkOk(s: Server, q: nat, w: Work)
  {
    forall n: nat :: Staging(n) in w.uses ==>
      n < s.next && (n in s.transfers ==> s.transfers[n].stream == q && w.id <= s.transfers[n].op)
  }

  ghost predicate StagingOk(s: Server)
  {
    && (forall q: nat, w :: w in Queue(s, q) ==> WorkOk(s, q, w))
    && (forall t :: t in s.transfers ==> t < s.next)
  }

  /** A used kernel has a used module, so no context was ever remade under a kernel. */
  ghost predicate KernelsOk(s: Server)
  {
    && (forall k :: k in s.kernels ==> s.kernels[k] in s.modules)
    && s.stranded == {}
  }

  /** Waits release what nothing uses; freeing and unloading happen only when no work at all is queued. */
  ghost predicate CheckedClean(s: Server)
  {
    forall r :: r in s.trace ==>
      && (r.cause == ByWait ==> r.clean)
      && (r.cause == ByFree || r.cause == ByUnload ==> r.clean && r.idle)
  }

  ghost predicate AllClean(s: Server)
  {
    forall r :: r in s.trace ==> r.clean
  }

  ghost predicate Inv(s: Server)
  {
    StagingOk(s) && KernelsOk(s) && CheckedClean(s)
  }

  // ---------------------------------------------------------------------
  // Queues
  // ---------------------------------------------------------------------

  /** No queue holds anything it did not hold before. */
  ghost predicate Shrinks(s: Server, s': Server)
  {
    forall q: nat, w :: w in Queue(s', q) ==> w in Queue(s, q)
  }

  lemma {:induction false} AfterElements(ws: seq<Work>, op: nat)
    ensures forall w :: w in After(ws, op) <==> w in ws && w.id > op
  {
    if ws != [] {
      AfterElements(ws[1..], op);
      assert ws == [ws[0]] + ws[1..];
    }
  }

  lemma BarriersShrink(s: Server, q: nat, t: Transfer, works: bool)
    ensures Shrinks(s, Finish(s, q)) && Shrinks(s, SyncContext(s, works)) && Shrinks(s, SyncStream(s, q, works))
    ensures Shrinks(s, SyncEvent(s, t, works)) && Idle(SyncContext(s, true))
    ensures SyncStream(s, q, true) == s.(queues := SyncStream(s, q, true).queues) && Queue(SyncStream(s, q, true), q) == []
  {
    AfterElements(Queue(s, t.stream), t.op);
  }

  lemma IdleIsClean(s: Server, r: Res)
    requires Idle(s)
    ensures !InFlight(s, r)
  {
  }

  lemma ShrunkStaging(s: Server, s': Server)
    requires StagingOk(s) && Shrinks(s, s') && s.next <= s'.next
    requires forall t :: t in s'.transfers ==> t in s.transfers && s'.transfers[t] == s.transfers[t]
    ensures StagingOk(s')
  {
    forall q: nat, w | w in Queue(s', q) ensures WorkOk(s', q, w) {
      assert WorkOk(s, q, w);
    }
  }

  /** The event of a transfer covers every use of its staging. */
  lemma WaitedIsClean(s: Server, t: nat)
    requires StagingOk(s) && t in s.transfers
    ensures !InFlight(SyncEvent(s, s.transfers[t], true), Staging(t))
  {
    var tr := s.transfers[t];
    var s' := SyncEvent(s, tr, true);
    AfterElements(Queue(s, tr.stream), tr.op);
    forall q: nat, w | w in Queue(s', q) ensures Staging(t) !in w.uses {
      assert w in Queue(s, q);
      assert WorkOk(s, q, w);
    }
  }

  /** Staging that was never handed to the device is in nobody's way. */
  lemma UnissuedIsClean(s: Server, s': Server)
    requires StagingOk(s) && Shrinks(s, s')
    ensures !InFlight(s', Staging(s.next))
  {
    forall q: nat, w | w in Queue(s', q) ensures Staging(s.next) !in w.uses {
      assert WorkOk(s, q, w);
    }
  }

  lemma EnqueuedStaging(s: Server, q: nat, uses: set<Res>)
    requires StagingOk(s) && forall n: nat :: Staging(n) in uses ==> n < s.next && n !in s.transfers
    ensures StagingOk(Enqueue(s, q, uses))
    ensures forall p: nat, w :: w in Queue(Enqueue(s, q, uses), p) ==> w in Queue(s, p) || (p == q && w == Work(s.nextOp, uses))
  {
    var s' := Enqueue(s, q, uses);
    forall p: nat, w | w in Queue(s', p) ensures w in Queue(s, p) || (p == q && w == Work(s.nextOp, uses)) {
    }
    forall p: nat, w | w in Queue(s', p) ensures WorkOk(s', p, w) {
      if w in Queue(s, p) {
        assert WorkOk(s, p, w);
      }
    }
  }

  // ---------------------------------------------------------------------
  // Submitting a copy
  // ---------------------------------------------------------------------

  lemma RecordedKeeps(s: Server, a: nat, q: nat)
    requires StagingOk(s) && a in s.allocs && KnownStream(s, q)
    ensures StagingOk(SubmitStep(s, a, q, Complete))
  {
    var t := s.next;
    var s0 := s.(next := t + 1);
    var uses := {Staging(t), Storage(a)};
    ShrunkStaging(s, s0);
    EnqueuedStaging(s0, q, uses);
    var s2 := SubmitStep(s, a, q, Complete);
    forall p: nat, w | w in Queue(s2, p) ensures WorkOk(s2, p, w) {
      assert w in Queue(Enqueue(s0, q, uses), p);
      if w in Queue(s0, p) {
        assert w in Queue(s, p);
        assert WorkOk(s, p, w);
      }
    }
  }

  lemma SubmitKeeps(s: Server, a: nat, q: nat, setup: Setup)
    requires StagingOk(s)
    ensures StagingOk(SubmitStep(s, a, q, setup))
  {
    hide InFlight, Idle, After;
    if a in s.allocs && KnownStream(s, q) {
      var t := s.next;
      var s0 := s.(next := t + 1);
      ShrunkStaging(s, s0);
      EnqueuedStaging(s0, q, {Staging(t), Storage(a)});
      var s1 := Enqueue(s0, q, {Staging(t), Storage(a)});
      match setup
      case NoBuffer =>
      case NoEvent => ShrunkStaging(s0, SubmitStep(s, a, q, setup));
      case NoCopy(flat, barrier) =>
        BarriersShrink(s0, q, Transfer(0, 0), barrier);
        ShrunkStaging(s0, SubmitStep(s, a, q, setup));
      case NoRecord(barrier) =>
        BarriersShrink(s1, q, Transfer(0, 0), barrier);
        ShrunkStaging(s1, SubmitStep(s, a, q, setup));
      case Consumed(barrier) =>
        BarriersShrink(s1, q, Transfer(q, s0.nextOp), barrier);
        ShrunkStaging(s1, SubmitStep(s, a, q, setup));
      case Complete => RecordedKeeps(s, a, q);
    }
  }

  /**
   The copy that was enqueued but not recorded: its staging is released in use
   exactly when the wait before it, whose answer is ignored, did not work.
   */
  lemma UnrecordedExact(s: Server, a: nat, q: nat, barrier: bool)
    requires StagingOk(s) && a in s.allocs && KnownStream(s, q)
    ensures
      var s' := SubmitStep(s, a, q, NoRecord(barrier));
      && s'.trace == s.trace + [s'.trace[|s.trace|]]
      && s'.trace[|s.trace|].what == Staging(s.next)
      && (s'.trace[|s.trace|].clean <==> barrier)
  {
    var t := s.next;
    var s0 := s.(next := t + 1);
    ShrunkStaging(s, s0);
    var uses := {Staging(t), Storage(a)};
    EnqueuedStaging(s0, q, uses);
    var s1 := Enqueue(s0, q, uses);
    var s2 := SyncStream(s1, q, barrier);
    BarriersShrink(s1, q, Transfer(0, 0), barrier);
    if barrier {
      forall p: nat, w | w in Queue(s2, p) ensures Staging(t) !in w.uses {
        assert w in Queue(s, p);
        assert WorkOk(s, p, w);
      }
    } else {
      assert Work(s0.nextOp, uses) in Queue(s2, q);
    }
  }

  /** The same for a copy the request consumes: it is in use exactly when the wait for its event failed. */
  lemma ConsumedExact(s: Server, a: nat, q: nat, barrier: bool)
    requires StagingOk(s) && a in s.allocs && KnownStream(s, q)
    ensures
      var s' := SubmitStep(s, a, q, Consumed(barrier));
      && s'.trace == s.trace + [s'.trace[|s.trace|]]
      && s'.trace[|s.trace|].what == Staging(s.next)
      && (s'.trace[|s.trace|].clean <==> barrier)
  {
    var t := s.next;
    var s0 := s.(next := t + 1);
    var uses := {Staging(t), Storage(a)};
    var s1 := Enqueue(s0, q, uses);
    var last := Transfer(q, s0.nextOp);
    var s2 := SyncEvent(s1, last, barrier);
    BarriersShrink(s1, q, last, barrier);
    AfterElements(Queue(s1, q), last.op);
    if barrier {
      forall p: nat, w | w in Queue(s2, p) ensures Staging(t) !in w.uses {
        assert w in Queue(s1, p) && (p == q ==> w.id > last.op);
        assert w in Queue(s, p);
        assert WorkOk(s, p, w);
      }
    } else {
      assert Work(s0.nextOp, uses) in Queue(s2, q);
    }
  }

  /** Every staging a submission lets go of, with working waits, is unused. */
  lemma SubmitReleases(s: Server, a: nat, q: nat, setup: Setup)
    requires StagingOk(s) && (setup.NoRecord? || setup.Consumed? ==> setup.barrier)
    ensures
      var now := SubmitStep(s, a, q, setup).trace;
      now == s.trace || (|now| == |s.trace| + 1 && now == s.trace + [now[|s.trace|]] && now[|s.trace|].clean
                         && now[|s.trace|].cause == ByFailure)
  {
    hide InFlight, Idle, StagingOk, SyncEvent, After;
    if a in s.allocs && KnownStream(s, q) {
      var s0 := s.(next := s.next + 1);
      match setup
      case NoBuffer =>
      case NoEvent => UnissuedIsClean(s, s0);
      case NoCopy(flat, barrier) =>
        BarriersShrink(s0, q, Transfer(0, 0), barrier);
        UnissuedIsClean(s, if flat then s0 else SyncStream(s0, q, barrier));
      case NoRecord(barrier) => UnrecordedExact(s, a, q, barrier);
      case Consumed(barrier) => ConsumedExact(s, a, q, barrier);
      case Complete =>
    }
  }

  lemma SubmitClean(s: Server, a: nat, q: nat, setup: Setup)
    requires StagingOk(s) && (setup.NoRecord? || setup.Consumed? ==> setup.barrier)
    ensures CheckedClean(s) ==> CheckedClean(SubmitStep(s, a, q, setup))
    ensures AllClean(s) ==> AllClean(SubmitStep(s, a, q, setup))
  {
    hide SubmitStep, StagingOk;
    SubmitReleases(s, a, q, setup);
  }

  lemma SubmitChecked(s: Server, a: nat, q: nat, setup: Setup)
    requires CheckedClean(s)
    ensures CheckedClean(SubmitStep(s, a, q, setup))
  {
    hide InFlight, Idle;
  }

  // ---------------------------------------------------------------------
  // Waiting, freeing, unloading
  // ---------------------------------------------------------------------

  lemma WaitKeeps(s: Server, t: nat, barrier: bool)
    requires StagingOk(s)
    ensures StagingOk(WaitStep(s, t, barrier))
    ensures CheckedClean(s) ==> CheckedClean(WaitStep(s, t, barrier))
    ensures AllClean(s) ==> AllClean(WaitStep(s, t, barrier))
  {
    if t in s.transfers && barrier {
      WaitedIsClean(s, t);
      BarriersShrink(s, 0, s.transfers[t], true);
      ShrunkStaging(s, WaitStep(s, t, barrier));
      hide StagingOk, InFlight, SyncEvent, Idle;
    }
  }

  lemma FreeKeeps(s: Server, a: nat, barrier: bool, ok: bool)
    requires StagingOk(s)
    ensures StagingOk(FreeStep(s, a, barrier, ok))
    ensures CheckedClean(s) ==> CheckedClean(FreeStep(s, a, barrier, ok))
    ensures AllClean(s) ==> AllClean(FreeStep(s, a, barrier, ok))
  {
    BarriersShrink(s, 0, Transfer(0, 0), true);
    IdleIsClean(SyncContext(s, true), Storage(a));
    if FreeStep(s, a, barrier, ok) != s { ShrunkStaging(s, FreeStep(s, a, barrier, ok)); }
    hide StagingOk, InFlight, Idle;
  }

  lemma UnloadKeeps(s: Server, m: nat, barrier: bool, ok: bool)
    requires StagingOk(s)
    ensures StagingOk(UnloadStep(s, m, barrier, ok))
    ensures CheckedClean(s) ==> CheckedClean(UnloadStep(s, m, barrier, ok))
    ensures AllClean(s) ==> AllClean(UnloadStep(s, m, barrier, ok))
  {
    var s1 := SyncContext(s, true).(kernels := s.kernels - KernelsOf(s, m));
    BarriersShrink(s, 0, Transfer(0, 0), true);
    assert Idle(s1);
    IdleIsClean(s1, Code(m));
    if UnloadStep(s, m, barrier, ok) != s { ShrunkStaging(s, UnloadStep(s, m, barrier, ok)); }
    hide StagingOk, InFlight, Idle;
  }

  // ---------------------------------------------------------------------
  // Session end
  // ---------------------------------------------------------------------

  lemma {:induction false} RetireAllKeeps(s: Server, works: set<nat>)
    ensures CheckedClean(s) ==> CheckedClean(RetireAll(s, works))
    ensures StagingOk(s) && AllClean(s) && s.transfers.Keys <= works ==> AllClean(RetireAll(s, works))
    ensures RetireAll(s, works) == s.(transfers := map[], queues := RetireAll(s, works).queues, trace := RetireAll(s, works).trace)
    decreases |s.transfers|
  {
    if s.transfers != map[] {
      var t :| t in s.transfers && RetireAll(s, works) == RetireAll(RetiredOne(s, t, t in works), works);
      RetiredOneKeeps(s, t, t in works);
      hide CheckedClean, AllClean, StagingOk, SyncEvent, Freed;
      RetireAllKeeps(RetiredOne(s, t, t in works), works);
    }
  }

  ghost function RetiredOne(s: Server, t: nat, works: bool): Server
    requires t in s.transfers
  {
    Drop(Freed(SyncEvent(s, s.transfers[t], works), Staging(t), ByCleanup), t)
  }

  lemma RetiredOneKeeps(s: Server, t: nat, works: bool)
    requires t in s.transfers
    ensures CheckedClean(s) ==> CheckedClean(RetiredOne(s, t, works))
    ensures StagingOk(s) ==> StagingOk(RetiredOne(s, t, works))
    ensures StagingOk(s) && AllClean(s) && works ==> AllClean(RetiredOne(s, t, works))
  {
    if StagingOk(s) {
      WaitedIsClean(s, t);
      BarriersShrink(s, 0, s.transfers[t], works);
      ShrunkStaging(s, RetiredOne(s, t, works));
    }
    hide StagingOk, InFlight, SyncEvent, Idle;
  }

  lemma SameQueues(s: Server, s': Server)
    requires s'.queues == s.queues
    ensures Idle(s) <==> Idle(s')
  {
    forall q: nat ensures Queue(s, q) == Queue(s', q) {}
  }

  ghost function ReleasedOne(s: Server, a: nat): Server
    requires a in s.allocs
  {
    (if s.allocs[a] == 0 then Freed(s, Storage(a), ByCleanup) else s).(allocs := s.allocs - {a})
  }

  /** Letting go of one thing during cleanup. */
  lemma FreedKeeps(s: Server, r: Res)
    ensures CheckedClean(s) ==> CheckedClean(Freed(s, r, ByCleanup))
    ensures Idle(s) && AllClean(s) ==> AllClean(Freed(s, r, ByCleanup))
  {
    if Idle(s) { IdleIsClean(s, r); }
    hide InFlight, Idle;
  }

  lemma {:induction false} ReleaseAllKeeps(s: Server)
    ensures CheckedClean(s) ==> CheckedClean(ReleaseAll(s))
    ensures Idle(s) && AllClean(s) ==> AllClean(ReleaseAll(s))
    ensures ReleaseAll(s) == s.(allocs := map[], trace := ReleaseAll(s).trace)
    decreases |s.allocs|
  {
    if s.allocs != map[] {
      var a :| a in s.allocs && ReleaseAll(s) == ReleaseAll(ReleasedOne(s, a));
      var s1 := ReleasedOne(s, a);
      FreedKeeps(s, Storage(a));
      SameQueues(s, s1);
      assert CheckedClean(s) ==> CheckedClean(s1);
      assert Idle(s) && AllClean(s) ==> AllClean(s1);
      hide InFlight, Idle, CheckedClean, AllClean;
      ReleaseAllKeeps(s1);
    }
  }

  ghost function UnloadedOne(s: Server, m: nat): Server { Freed(s, Code(m), ByCleanup).(modules := s.modules - {m}) }

  lemma {:induction false} UnloadAllKeeps(s: Server)
    ensures CheckedClean(s) ==> CheckedClean(UnloadAll(s))
    ensures Idle(s) && AllClean(s) ==> AllClean(UnloadAll(s))
    ensures UnloadAll(s) == s.(modules := {}, trace := UnloadAll(s).trace)
    decreases |s.modules|
  {
    if s.modules != {} {
      var m :| m in s.modules && UnloadAll(s) == UnloadAll(UnloadedOne(s, m));
      var s1 := UnloadedOne(s, m);
      FreedKeeps(s, Code(m));
      SameQueues(s, s1);
      assert CheckedClean(s) ==> CheckedClean(s1);
      assert Idle(s) && AllClean(s) ==> AllClean(s1);
      hide InFlight, Idle, CheckedClean, AllClean;
      UnloadAllKeeps(s1);
    }
  }

  lemma SyncedStreams(s: Server, streams: set<nat>)
    requires StagingOk(s)
    ensures StagingOk(SyncStreams(s, streams))
  {
    assert Shrinks(s, SyncStreams(s, streams));
    ShrunkStaging(s, SyncStreams(s, streams));
  }

  lemma CleanupKeeps(s: Server, streams: set<nat>, transfers: set<nat>, context: bool)
    requires StagingOk(s)
    ensures CheckedClean(s) ==> CheckedClean(CleanupStep(s, streams, transfers, context))
    ensures AllClean(s) && s.transfers.Keys <= transfers && context ==> AllClean(CleanupStep(s, streams, transfers, context))
    ensures CleanupStep(s, streams, transfers, context) == INIT.(trace := CleanupStep(s, streams, transfers, context).trace, stranded := s.stranded)
  {
    var s0 := SyncStreams(s, streams);
    SyncedStreams(s, streams);
    RetireAllKeeps(s0, transfers);
    var s1 := RetireAll(s0, transfers);
    var s2 := SyncContext(s1.(events := {}, streams := {}), context);
    BarriersShrink(s1.(events := {}, streams := {}), 0, Transfer(0, 0), context);
    ReleaseAllKeeps(s2);
    var s3 := ReleaseAll(s2).(kernels := map[]);
    SameQueues(s2, s3);
    UnloadAllKeeps(s3);
    hide CheckedClean, AllClean, StagingOk, InFlight, Idle, RetireAll, ReleaseAll, UnloadAll, SyncContext, SyncStreams, Shrinks;
  }

  // ---------------------------------------------------------------------
  // Every request
  // ---------------------------------------------------------------------

  lemma UnloadedKernels(s: Server, m: nat, barrier: bool, ok: bool)
    requires KernelsOk(s)
    ensures KernelsOk(UnloadStep(s, m, barrier, ok))
  {
    hide InFlight, Idle;
  }

  lemma SubmitLeavesKernels(s: Server, a: nat, q: nat, setup: Setup)
    ensures SubmitStep(s, a, q, setup).kernels == s.kernels && SubmitStep(s, a, q, setup).modules == s.modules
    ensures SubmitStep(s, a, q, setup).stranded == s.stranded
  {
    hide InFlight, Idle, Queue;
  }

  /** Kernels follow their modules in and out, so empty module tables mean an empty kernel table. */
  lemma KernelsKept(s: Server, r: Request)
    requires KernelsOk(s) && StagingOk(s)
    ensures KernelsOk(Step(s, r))
  {
    hide CleanupStep, UnloadStep, SubmitStep, InFlight, Idle, Queue, After, StagingOk;
    match r
    case Cleanup(streams, transfers, context) => CleanupKeeps(s, streams, transfers, context);
    case Unload(m, barrier, ok) => UnloadedKernels(s, m, barrier, ok);
    case SubmitCopy(a, q, setup) => SubmitLeavesKernels(s, a, q, setup);
    case _ =>
  }

  /** Table updates that touch neither queues nor transfers. */
  lemma TablesOnly(s: Server, s': Server)
    requires StagingOk(s) && s'.queues == s.queues && s'.transfers == s.transfers && s.next <= s'.next && s'.trace == s.trace
    ensures StagingOk(s') && (CheckedClean(s) ==> CheckedClean(s')) && (AllClean(s) ==> AllClean(s'))
  {
    assert Shrinks(s, s');
    ShrunkStaging(s, s');
  }

  /** Barriers and completions that change nothing else about staging. */
  lemma QueuesOnly(s: Server, s': Server)
    requires StagingOk(s) && Shrinks(s, s') && s'.transfers == s.transfers && s.next <= s'.next && s'.trace == s.trace
    ensures StagingOk(s') && (CheckedClean(s) ==> CheckedClean(s')) && (AllClean(s) ==> AllClean(s'))
  {
    ShrunkStaging(s, s');
  }

  lemma EnqueueKeeps(s: Server, q: nat, uses: set<Res>)
    requires StagingOk(s) && forall n: nat :: Staging(n) !in uses
    ensures
      var s' := Enqueue(s, q, uses);
      StagingOk(s') && (CheckedClean(s) ==> CheckedClean(s')) && (AllClean(s) ==> AllClean(s'))
  {
    EnqueuedStaging(s, q, uses);
  }

  predicate IsSmall(r: Request)
  {
    r.NewAlloc? || r.NewGlobal? || r.NewModule? || r.NewKernel? || r.NewStream? || r.NewEvent? || r.FreeAsync?
  }

  lemma SmallKeeps(s: Server, r: Request)
    requires StagingOk(s) && IsSmall(r)
    ensures StagingOk(Step(s, r))
    ensures CheckedClean(s) ==> CheckedClean(Step(s, r))
    ensures AllClean(s) ==> AllClean(Step(s, r))
  {
    TablesOnly(s, Step(s, r));
  }

  /** `s'` has the queues of `s1`, which is `s` after a barrier, or those of `s`. */
  lemma BarrierKeeps(s: Server, s1: Server, s': Server)
    requires StagingOk(s) && Shrinks(s, s1)
    requires s'.queues == s1.queues || s'.queues == s.queues
    requires s'.transfers == s.transfers && s.next <= s'.next && s'.trace == s.trace
    ensures StagingOk(s') && (CheckedClean(s) ==> CheckedClean(s')) && (AllClean(s) ==> AllClean(s'))
  {
    assert Shrinks(s, s');
    QueuesOnly(s, s');
  }

  lemma StepKeeps(s: Server, r: Request)
    requires StagingOk(s)
    ensures StagingOk(Step(s, r))
    ensures CheckedClean(s) ==> CheckedClean(Step(s, r))
    ensures AllClean(s) && Honest(s, r) ==> AllClean(Step(s, r))
  {
    hide StagingOk, CheckedClean, AllClean, Shrinks, Queue, After, Enqueue, SubmitStep, WaitStep, FreeStep, UnloadStep, CleanupStep;
    if IsSmall(r) {
      SmallKeeps(s, r);
    } else {
      match r
      case Operate(q, allocs) => EnqueueKeeps(s, q, Storages(allocs));
      case Launch(k, q, allocs) =>
        if k in s.kernels { EnqueueKeeps(s, q, Storages(allocs) + {Code(s.kernels[k])}); }
      case SubmitCopy(a, q, setup) =>
        SubmitKeeps(s, a, q, setup);
        if CheckedClean(s) { SubmitChecked(s, a, q, setup); }
        if Honest(s, r) { SubmitClean(s, a, q, setup); }
      case Wait(t, barrier) => WaitKeeps(s, t, barrier);
      case Free(a, barrier, ok) => FreeKeeps(s, a, barrier, ok);
      case Unload(m, barrier, ok) => UnloadKeeps(s, m, barrier, ok);
      case Cleanup(streams, transfers, context) =>
        CleanupKeeps(s, streams, transfers, context);
        FreshStaging(Step(s, r));
      case DestroyStream(q, barrier, ok) =>
        BarriersShrink(s, q, Transfer(0, 0), true);
        BarrierKeeps(s, SyncStream(s, q, true), DestroyStreamStep(s, q, barrier, ok));
      case DestroyEvent(e, barrier, ok) =>
        BarriersShrink(s, 0, Transfer(0, 0), true);
        BarrierKeeps(s, SyncContext(s, true), DestroyEventStep(s, e, barrier, ok));
      case SetFlags =>
        BarriersShrink(s, 0, Transfer(0, 0), true);
        BarrierKeeps(s, SyncContext(s, true), SetFlagsStep(s));
      case Device(q) =>
        BarriersShrink(s, q, Transfer(0, 0), true);
        BarrierKeeps(s, Finish(s, q), Finish(s, q));
    }
  }

  lemma FreshStaging(s: Server)
    requires s.queues == map[] && s.transfers == map[]
    ensures StagingOk(s)
  {
  }

  lemma {:induction false} EveryRunKeeps(rs: seq<Request>)
    ensures Inv(Run(rs))
  {
    if rs != [] {
      EveryRunKeeps(rs[..|rs| - 1]);
      hide Step, StagingOk, KernelsOk, CheckedClean;
      StepKeeps(Run(rs[..|rs| - 1]), rs[|rs| - 1]);
      KernelsKept(Run(rs[..|rs| - 1]), rs[|rs| - 1]);
    }
  }

  // ---------------------------------------------------------------------
  // Over every run
  // ---------------------------------------------------------------------

  /** Whatever barriers do: a wait releases idle staging, memory and code go only when no work at all is left. */
  lemma CheckedReleasesAreSafe(rs: seq<Request>, r: Release)
    requires r in Run(rs).trace
    ensures r.cause == ByWait ==> r.clean
    ensures r.cause == ByFree || r.cause == ByUnload ==> r.clean && r.idle
  {
    EveryRunKeeps(rs);
  }

  /** A used kernel always has a used module, and no change of flags ever stranded one. */
  lemma NoKernelStranded(rs: seq<Request>)
    ensures forall k :: k in Run(rs).kernels ==> Run(rs).kernels[k] in Run(rs).modules
    ensures Run(rs).stranded == {}
  {
    EveryRunKeeps(rs);
  }

  /** Every barrier whose answer is ignored worked. */
  ghost predicate HonestRun(rs: seq<Request>)
  {
    rs == [] || (HonestRun(rs[..|rs| - 1]) && Honest(Run(rs[..|rs| - 1]), rs[|rs| - 1]))
  }

  /** With working barriers nothing is ever released while queued work uses it. */
  lemma {:induction false} NothingReleasedInFlight(rs: seq<Request>)
    requires HonestRun(rs)
    ensures AllClean(Run(rs))
  {
    if rs != [] {
      NothingReleasedInFlight(rs[..|rs| - 1]);
      EveryRunKeeps(rs[..|rs| - 1]);
      hide Step, StagingOk, KernelsOk, CheckedClean, AllClean, Honest;
      StepKeeps(Run(rs[..|rs| - 1]), rs[|rs| - 1]);
    }
  }
}
