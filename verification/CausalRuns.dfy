/**
 Whole runs of the client: every sequence of submissions, event operations,
 synchronisations, destructions, remote errors, transport failures and reconnects.
 */
module CausalRuns {
  import opened Bytes
  import opened Causality
  import opened Frontiers
  import opened Pitched

  const MAX_STREAMS: nat := 1024
  const MAX_EVENTS: nat := 1024
  const MAX_TRANSFERS: nat := 2048

  /** Outcome of one request to the server. */
  datatype Rpc = Success | RemoteError | Lost

  /** An asynchronous copy. The two-dimensional form looks for a table slot only after the server has answered. */
  datatype Copy = Copy(id: nat, toHost: bool, allocation: nat, at: nat, shape: Shape, lateSlot: bool)

  /** What the transfers behind a query's frontier answered. */
  datatype Poll = AllReady | SomePending | PollError | PollLost

  datatype Command =
    | Connect
    | Shutdown
    | NewStream(nonblocking: bool, rpc: Rpc)
    | NewEvent(rpc: Rpc)
    | Submit(lane: nat, copy: Copy, rpc: Rpc)            // one chunk of an asynchronous copy
    | Work(lane: nat, bump: bool, rpc: Rpc)              // memset, device copy, launch, pool allocation
    | Plain(lane: nat, bump: bool, rpc: Rpc)             // operations that skip the legacy ordering
    | Record(event: nat, lane: nat, rpc: Rpc)
    | WaitEvent(lane: nat, event: nat, rpc: Rpc)
    | QueryLane(lane: nat, rpc: Rpc, poll: Poll, waits: Waits)
    | QueryEvent(event: nat, rpc: Rpc, poll: Poll, waits: Waits)
    | SyncStream(lane: nat, rpc: Rpc, waits: Waits)
    | SyncEvent(event: nat, rpc: Rpc, waits: Waits)
    | SyncDevice(rpc: Rpc, waits: Waits)
    | HostFunction(lane: nat, rpc: Rpc, waits: Waits)    // the worker's drain before it calls user code
    | ReleaseAllocation(id: nat, waits: Waits)           // the drain before FREE or UNLOAD
    | DestroyStream(lane: nat, rpc: Rpc, waits: Waits, destroy: Rpc)
    | DestroyEvent(event: nat, rpc: Rpc, waits: Waits, destroy: Rpc)

  const NO_HISTORY := History([], map[], map[])

  ghost function Restart(w: World): World { World(Reset(w.c), NO_HISTORY) }

  ghost function Ordered(w: World, l: nat): World
    requires LiveLane(w.c, l)
  {
    w.(c := ApplyLegacy(w.c, l))
  }

  /** Append an operation to lane `l`; `bump` takes a sequence number for it. */
  ghost function Issue(w: World, l: nat, bump: bool, events: set<nat>): World
    requires LiveLane(w.c, l) && l < SLOTS
  {
    var c := if bump then Bump(w.c, l) else w.c;
    var op := Op(l, if bump then LastOf(c, l) else 0, Preds(w, l, events));
    World(c, w.h.(ops := w.h.ops + [op], tail := w.h.tail[l := |w.h.ops|]))
  }

  /** Enter the copy just issued on lane `l` into the transfer table. */
  ghost function Track(w: World, l: nat, x: Copy): World
  {
    var t := Transfer(x.id, x.toHost, x.allocation, l, LastOf(w.c, l), w.c.order + 1, x.at, x.shape);
    w.(c := w.c.(pending := w.c.pending + [t], order := w.c.order + 1))
  }

  ghost function Drained(w: World, sel: Selector, ws: Waits): (World, Outcome)
  {
    var (c, o) := Drain(w.c, sel, ws);
    (if c.active == w.c.active then w.(c := c) else World(c, NO_HISTORY), o)
  }

  ghost function Answer(w: World, rpc: Rpc, error: World, ok: World): World
  {
    match rpc
    case Lost => Restart(w)
    case RemoteError => error
    case Success => ok
  }

  ghost function SubmitCopy(w: World, l: nat, x: Copy, rpc: Rpc): World
    requires LiveLane(w.c, l) && l < SLOTS
  {
    var w1 := Ordered(w, l);
    var full := |w.c.pending| >= MAX_TRANSFERS;
    if full && !x.lateSlot then w1
    else if full then Answer(w, rpc, w1, Issue(w1, l, false, {}))
    else Answer(w, rpc, w1, Track(Issue(w1, l, true, {}), l, x))
  }

  ghost function RecordEvent(w: World, e: nat, l: nat): World
    requires LiveLane(w.c, l) && l < SLOTS && e < |w.c.events|
  {
    var w1 := Issue(w, l, false, {});
    World(w1.c.(events := w1.c.events[e := Event(true, true, FrontierOf(w.c, l))]),
          w1.h.(recordedAt := w1.h.recordedAt[e := |w.h.ops|]))
  }

  ghost function WaitForEvent(w: World, l: nat, e: nat): World
    requires LiveLane(w.c, l) && l < SLOTS && e < |w.c.events|
  {
    var ev := w.c.events[e];
    if ev.recorded && e in w.h.recordedAt then
      Issue(w.(c := WithFrontier(w.c, l, Merge(FrontierOf(w.c, l), ev.frontier))), l, false, {w.h.recordedAt[e]})
    else Issue(w, l, false, {})
  }

  ghost function Polled(w: World, f: Frontier, poll: Poll, ws: Waits): World
  {
    match poll
    case AllReady => Drained(w, Behind(f), ws).0
    case SomePending => w
    case PollError => w
    case PollLost => Restart(w)
  }

  ghost function KillStream(w: World, s: nat): World
    requires s < |w.c.streams|
  {
    w.(c := w.c.(streams := w.c.streams[s := w.c.streams[s].(live := false, frontier := Zero())]))
  }

  ghost function KillEvent(w: World, e: nat): World
    requires e < |w.c.events|
  {
    w.(c := w.c.(events := w.c.events[e := Event(false, false, Zero())]))
  }

  ghost function DestroyStreamStep(w: World, s: nat, rpc: Rpc, ws: Waits, destroy: Rpc): World
    requires LiveLane(w.c, s) && s < |w.c.streams|
  {
    var (w1, o) := Drained(w, Behind(w.c.streams[s].frontier), ws);
    Answer(w, rpc, w, if o == Failed || s >= |w1.c.streams| then w1 else Answer(w1, destroy, w1, KillStream(w1, s)))
  }

  ghost function DestroyEventStep(w: World, e: nat, rpc: Rpc, ws: Waits, destroy: Rpc): World
    requires e < |w.c.events|
  {
    if w.c.events[e].recorded then
      var (w1, o) := Drained(w, Behind(w.c.events[e].frontier), ws);
      Answer(w, rpc, w, if o == Failed || e >= |w1.c.events| then w1 else Answer(w1, destroy, w1, KillEvent(w1, e)))
    else Answer(w, destroy, w, KillEvent(w, e))
  }

  predicate LiveEvent(c: Client, e: nat) { c.active && e < |c.events| && c.events[e].live }

  ghost function ConnectStep(w: World): World
  {
    if w.c.active then w else w.(c := w.c.(active := true, dflt := Zero(), dlast := 0))
  }

  ghost function NewStreamStep(w: World, nb: bool, rpc: Rpc): World
  {
    if !w.c.active || |w.c.streams| >= MAX_STREAMS then w
    else Answer(w, rpc, w, w.(c := w.c.(streams := w.c.streams + [Stream(true, nb, 0, Zero())])))
  }

  ghost function NewEventStep(w: World, rpc: Rpc): World
  {
    if !w.c.active || |w.c.events| >= MAX_EVENTS then w
    else Answer(w, rpc, w, w.(c := w.c.(events := w.c.events + [Event(true, false, Zero())])))
  }

  ghost function WorkStep(w: World, l: nat, bump: bool, rpc: Rpc): World
    requires LiveLane(w.c, l) && l < SLOTS
  {
    Answer(w, rpc, Ordered(w, l), Issue(Ordered(w, l), l, bump, {}))
  }

  ghost function PlainStep(w: World, l: nat, bump: bool, rpc: Rpc): World
    requires LiveLane(w.c, l) && l < SLOTS
  {
    Answer(w, rpc, w, Issue(w, l, bump, {}))
  }

  ghost function RecordStep(w: World, e: nat, l: nat, rpc: Rpc): World
    requires LiveLane(w.c, l) && l < SLOTS && LiveEvent(w.c, e)
  {
    Answer(w, rpc, Ordered(w, l), RecordEvent(Ordered(w, l), e, l))
  }

  ghost function WaitStep(w: World, l: nat, e: nat, rpc: Rpc): World
    requires LiveLane(w.c, l) && l < SLOTS && LiveEvent(w.c, e)
  {
    Answer(w, rpc, Ordered(w, l), WaitForEvent(Ordered(w, l), l, e))
  }

  ghost function QueryLaneStep(w: World, l: nat, rpc: Rpc, poll: Poll, ws: Waits): World
    requires LiveLane(w.c, l)
  {
    var w1 := Ordered(w, l);
    Answer(w, rpc, w1, Polled(w1, FrontierOf(w1.c, l), poll, ws))
  }

  ghost function QueryEventStep(w: World, e: nat, rpc: Rpc, poll: Poll, ws: Waits): World
    requires LiveEvent(w.c, e)
  {
    Answer(w, rpc, w, Polled(w, w.c.events[e].frontier, poll, ws))
  }

  ghost function SyncStep(w: World, sel: Selector, rpc: Rpc, ws: Waits): World
  {
    Answer(w, rpc, w, Drained(w, sel, ws).0)
  }

  /** The frontier is ordered and copied when the function is handed over, and no other call runs before the drain. */
  ghost function HostFunctionStep(w: World, l: nat, rpc: Rpc, ws: Waits): World
    requires LiveLane(w.c, l)
  {
    var w1 := Ordered(w, l);
    Answer(w, rpc, w1, Drained(w1, Behind(FrontierOf(w1.c, l)), ws).0)
  }

  /** One API call. A call on a handle that does not resolve changes nothing. */
  ghost function Step(w: World, cmd: Command): World
  {
    match cmd
    case Connect => ConnectStep(w)
    case Shutdown => Restart(w)
    case NewStream(nb, rpc) => NewStreamStep(w, nb, rpc)
    case NewEvent(rpc) => NewEventStep(w, rpc)
    case Submit(l, x, rpc) => if LiveLane(w.c, l) && l < SLOTS then SubmitCopy(w, l, x, rpc) else w
    case Work(l, bump, rpc) => if LiveLane(w.c, l) && l < SLOTS then WorkStep(w, l, bump, rpc) else w
    case Plain(l, bump, rpc) => if LiveLane(w.c, l) && l < SLOTS then PlainStep(w, l, bump, rpc) else w
    case Record(e, l, rpc) =>
      if LiveLane(w.c, l) && l < SLOTS && LiveEvent(w.c, e) then RecordStep(w, e, l, rpc) else w
    case WaitEvent(l, e, rpc) =>
      if LiveLane(w.c, l) && l < SLOTS && LiveEvent(w.c, e) then WaitStep(w, l, e, rpc) else w
    case QueryLane(l, rpc, poll, ws) => if LiveLane(w.c, l) then QueryLaneStep(w, l, rpc, poll, ws) else w
    case QueryEvent(e, rpc, poll, ws) => if LiveEvent(w.c, e) then QueryEventStep(w, e, rpc, poll, ws) else w
    case SyncStream(l, rpc, ws) =>
      if LiveLane(w.c, l) && l < |w.c.streams| then SyncStep(w, Behind(w.c.streams[l].frontier), rpc, ws) else w
    case SyncEvent(e, rpc, ws) =>
      if LiveEvent(w.c, e) then SyncStep(w, Behind(w.c.events[e].frontier), rpc, ws) else w
    case SyncDevice(rpc, ws) => if w.c.active then SyncStep(w, Everything, rpc, ws) else w
    case HostFunction(l, rpc, ws) => if LiveLane(w.c, l) then HostFunctionStep(w, l, rpc, ws) else w
    case ReleaseAllocation(id, ws) => Drained(w, OfAllocation(id), ws).0
    case DestroyStream(s, rpc, ws, destroy) =>
      if LiveLane(w.c, s) && s < |w.c.streams| then DestroyStreamStep(w, s, rpc, ws, destroy) else w
    case DestroyEvent(e, rpc, ws, destroy) =>
      if LiveEvent(w.c, e) then DestroyEventStep(w, e, rpc, ws, destroy) else w
  }

  ghost function Init(host: seq<byte>): World { World(Client(false, [], [], Zero(), 0, [], 0, host), NO_HISTORY) }

  ghost function Run(host: seq<byte>, cmds: seq<Command>): World
  {
    if cmds == [] then Init(host) else Step(Run(host, cmds[..|cmds| - 1]), cmds[|cmds| - 1])
  }

  // ---------------------------------------------------------------------
  // The invariant
  // ---------------------------------------------------------------------

  /** No entry is ahead of what its slot has issued. */
  ghost predicate Bounded(c: Client, f: Frontier)
  {
    forall i :: 0 <= i < SLOTS ==> f[i] <= LastOf(c, i)
  }

  /** Without a session no handle is live. */
  ghost predicate Dead(c: Client)
  {
    && !c.active && c.pending == []
    && (forall s :: 0 <= s < |c.streams| ==> !c.streams[s].live)
    && (forall e :: 0 <= e < |c.events| ==> !c.events[e].live)
  }

  ghost predicate FrontiersOk(c: Client)
  {
    && |c.streams| <= MAX_STREAMS
    && (!c.active ==> Dead(c))
    && (forall l: nat :: LiveLane(c, l) ==> Bounded(c, FrontierOf(c, l)) && l < SLOTS && FrontierOf(c, l)[l] == LastOf(c, l))
    && (forall e: nat :: LiveEvent(c, e) ==> Bounded(c, c.events[e].frontier))
  }

  ghost predicate PendingOk(c: Client)
  {
    && (forall t :: t in c.pending ==> LiveLane(c, t.slot) && 1 <= t.seqNo <= LastOf(c, t.slot) && t.order <= c.order)
    && (forall i, j :: 0 <= i < j < |c.pending| ==> c.pending[i].order < c.pending[j].order)
  }

  /** The transfer's own lane has not forgotten it: it happens before that lane's tail. */
  ghost predicate OwnSeen(h: History, t: Transfer)
  {
    t.slot in h.tail && h.tail[t.slot] < |h.ops| && Sees(h.ops, h.tail[t.slot], t)
  }

  ghost predicate HistoryOk(w: World)
  {
    && (!w.c.active ==> w.h == NO_HISTORY)
    && (forall l :: l in w.h.tail ==> (l == DEFAULT_SLOT || l < |w.c.streams|) && w.h.tail[l] < |w.h.ops|)
    && (forall e :: e in w.h.recordedAt ==> w.h.recordedAt[e] < |w.h.ops|)
    && (forall k :: 0 <= k < |w.h.ops| ==> w.h.ops[k].mark <= LastOf(w.c, w.h.ops[k].lane))
    && (forall t :: t in w.c.pending ==> OwnSeen(w.h, t))
  }

  /**
   What happens before a lane's tail is behind the lane's frontier, and a dead lane has nothing
   pending behind it, the transfers in `missed` aside.
   */
  ghost predicate LaneCovers(w: World, l: nat, missed: set<Transfer>)
    requires l in w.h.tail && w.h.tail[l] < |w.h.ops|
  {
    forall t :: t in w.c.pending && t !in missed && Sees(w.h.ops, w.h.tail[l], t) ==>
      LiveLane(w.c, l) && Covered(t, FrontierOf(w.c, l))
  }

  ghost predicate EventCovers(w: World, e: nat, missed: set<Transfer>)
    requires e < |w.c.events|
  {
    && e in w.h.recordedAt && w.h.recordedAt[e] < |w.h.ops|
    && forall t :: t in w.c.pending && t !in missed && Sees(w.h.ops, w.h.recordedAt[e], t) ==>
         Covered(t, w.c.events[e].frontier)
  }

  ghost predicate Covering(w: World, missed: set<Transfer>)
    requires HistoryOk(w)
  {
    && (forall l :: l in w.h.tail ==> LaneCovers(w, l, missed))
    && (forall e: nat :: LiveEvent(w.c, e) && w.c.events[e].recorded ==> EventCovers(w, e, missed))
  }

  ghost predicate Inv(w: World, missed: set<Transfer>)
  {
    FrontiersOk(w.c) && PendingOk(w.c) && HistoryOk(w) && Covering(w, missed)
  }

  // ---------------------------------------------------------------------
  // Frontiers only grow
  // ---------------------------------------------------------------------

  lemma {:induction false} AbsorbGrows(f: Frontier, ss: seq<Stream>)
    ensures Leq(f, Absorb(f, ss))
    ensures forall s :: 0 <= s < |ss| && ss[s].live ==> Leq(ss[s].frontier, Absorb(f, ss))
  {
    if ss != [] {
      AbsorbGrows(f, ss[..|ss| - 1]);
      var rest := Absorb(f, ss[..|ss| - 1]);
      forall s | 0 <= s < |ss| && ss[s].live
        ensures Leq(ss[s].frontier, Absorb(f, ss))
      {
        if s < |ss| - 1 {
          assert Leq(ss[..|ss| - 1][s].frontier, rest);
        }
      }
    }
  }

  lemma {:induction false} AbsorbBounded(c: Client, f: Frontier, ss: seq<Stream>)
    requires Bounded(c, f)
    requires forall s :: 0 <= s < |ss| && ss[s].live ==> Bounded(c, ss[s].frontier)
    ensures Bounded(c, Absorb(f, ss))
  {
    if ss != [] {
      AbsorbBounded(c, f, ss[..|ss| - 1]);
    }
  }

  /** `c'` is `c` with some frontiers moved forward. */
  ghost predicate Advanced(c: Client, c': Client)
  {
    && c' == c.(streams := c'.streams, dflt := c'.dflt)
    && |c'.streams| == |c.streams|
    && (forall s :: 0 <= s < |c.streams| ==> c'.streams[s] == c.streams[s].(frontier := c'.streams[s].frontier))
    && (forall l: nat :: LiveLane(c, l) ==> LiveLane(c', l) && Leq(FrontierOf(c, l), FrontierOf(c', l)))
  }

  lemma AdvancedKeeps(w: World, c': Client, missed: set<Transfer>)
    requires Inv(w, missed) && Advanced(w.c, c') && FrontiersOk(c')
    ensures Inv(w.(c := c'), missed)
  {
    var w' := w.(c := c');
    forall l: nat
      ensures LastOf(c', l) == LastOf(w.c, l) && (LiveLane(c', l) <==> LiveLane(w.c, l))
    {
    }
    assert HistoryOk(w') by {
      forall t | t in c'.pending ensures OwnSeen(w'.h, t) {}
    }
    forall l | l in w.h.tail
      ensures LaneCovers(w', l, missed)
    {
      assert LaneCovers(w, l, missed);
    }
    forall e: nat | LiveEvent(c', e) && c'.events[e].recorded
      ensures EventCovers(w', e, missed)
    {
      assert LiveEvent(w.c, e);
      assert EventCovers(w, e, missed);
    }
  }

  /** Merging a bounded frontier into a lane keeps every bound, and the lane's own entry. */
  lemma MergeIntoLane(c: Client, l: nat, f: Frontier)
    requires FrontiersOk(c) && LiveLane(c, l) && Bounded(c, f)
    ensures
      var c' := WithFrontier(c, l, Merge(FrontierOf(c, l), f));
      Advanced(c, c') && FrontiersOk(c') && Leq(f, FrontierOf(c', l))
  {
    var m := Merge(FrontierOf(c, l), f);
    var c' := WithFrontier(c, l, m);
    forall i: nat ensures LastOf(c', i) == LastOf(c, i) && (LiveLane(c', i) <==> LiveLane(c, i)) {}
    assert Bounded(c, m);
    forall k: nat | LiveLane(c', k)
      ensures Bounded(c', FrontierOf(c', k)) && k < SLOTS && FrontierOf(c', k)[k] == LastOf(c', k)
    {
      assert LiveLane(c, k);
      assert Bounded(c, FrontierOf(c, k));
      if k == l {
        assert FrontierOf(c', k) == m;
      } else {
        assert FrontierOf(c', k) == FrontierOf(c, k);
      }
    }
    forall e: nat | LiveEvent(c', e) ensures Bounded(c', c'.events[e].frontier) {
      assert LiveEvent(c, e);
    }
  }

  lemma ApplyLegacyAdvances(c: Client, l: nat)
    requires FrontiersOk(c) && LiveLane(c, l)
    ensures Advanced(c, ApplyLegacy(c, l)) && FrontiersOk(ApplyLegacy(c, l)) && LiveLane(ApplyLegacy(c, l), l)
    ensures l == DEFAULT_SLOT ==>
              forall s: nat :: LiveLane(c, s) ==> Leq(FrontierOf(c, s), FrontierOf(ApplyLegacy(c, l), l))
    ensures l != DEFAULT_SLOT && !c.streams[l].nonblocking ==> Leq(c.dflt, FrontierOf(ApplyLegacy(c, l), l))
  {
    assert LiveLane(c, DEFAULT_SLOT) && FrontierOf(c, DEFAULT_SLOT) == c.dflt;
    if l == DEFAULT_SLOT {
      AbsorbGrows(c.dflt, c.streams);
      forall s | 0 <= s < |c.streams| && c.streams[s].live
        ensures Bounded(c, c.streams[s].frontier)
      {
        assert LiveLane(c, s) && FrontierOf(c, s) == c.streams[s].frontier;
      }
      AbsorbBounded(c, c.dflt, c.streams);
      var all := Absorb(c.dflt, c.streams);
      assert Merge(c.dflt, all) == all;
      MergeIntoLane(c, l, all);
    } else if !c.streams[l].nonblocking {
      MergeIntoLane(c, l, c.dflt);
    }
  }

  // ---------------------------------------------------------------------
  // Submitting an operation
  // ---------------------------------------------------------------------

  /** Everything pending that a predecessor of the next operation on `l` sees is behind `l`'s frontier. */
  ghost predicate Ready(w: World, l: nat, events: set<nat>, missed: set<Transfer>)
    requires LiveLane(w.c, l)
  {
    forall p, t :: p in Preds(w, l, events) && p < |w.h.ops| && t in w.c.pending && t !in missed && Sees(w.h.ops, p, t) ==>
      Covered(t, FrontierOf(w.c, l))
  }

  /** Taking a sequence number moves nothing that was already issued. */
  lemma BumpLast(c: Client, l: nat)
    requires LiveLane(c, l) && l < SLOTS
    ensures forall k: nat :: LastOf(Bump(c, l), k) == LastOf(c, k) + if k == l then 1 else 0
    ensures forall k: nat :: LiveLane(Bump(c, l), k) <==> LiveLane(c, k)
    ensures forall k: nat :: LiveLane(c, k) ==>
              FrontierOf(Bump(c, l), k) == if k == l then FrontierOf(c, l)[l := LastOf(c, l) + 1] else FrontierOf(c, k)
    ensures Bump(c, l).events == c.events && Bump(c, l).pending == c.pending && Bump(c, l).order == c.order
    ensures |Bump(c, l).streams| == |c.streams| && Bump(c, l).active == c.active
  {}

  lemma BumpOk(c: Client, l: nat)
    requires FrontiersOk(c) && PendingOk(c) && LiveLane(c, l)
    ensures FrontiersOk(Bump(c, l)) && PendingOk(Bump(c, l))
  {
    var c1 := Bump(c, l);
    BumpLast(c, l);
    hide Bump, LastOf, FrontierOf;
    forall k: nat | LiveLane(c1, k)
      ensures Bounded(c1, FrontierOf(c1, k)) && k < SLOTS && FrontierOf(c1, k)[k] == LastOf(c1, k)
    {
      assert LiveLane(c, k);
      assert Bounded(c, FrontierOf(c, k));
      forall i | 0 <= i < SLOTS ensures FrontierOf(c1, k)[i] <= LastOf(c1, i) {}
    }
    forall e: nat | LiveEvent(c1, e)
      ensures Bounded(c1, c1.events[e].frontier)
    {
      assert LiveEvent(c, e);
      assert Bounded(c, c.events[e].frontier);
    }
  }

  /** Taking a sequence number covers nothing pending that was not covered before. */
  lemma BumpCovers(c: Client, l: nat, t: Transfer)
    requires FrontiersOk(c) && PendingOk(c) && LiveLane(c, l) && t in c.pending
    ensures forall k: nat :: LiveLane(c, k) ==> (Covered(t, FrontierOf(Bump(c, l), k)) <==> Covered(t, FrontierOf(c, k)))
  {
    BumpLast(c, l);
    hide Bump, LastOf, FrontierOf;
    forall k: nat | LiveLane(c, k)
      ensures Covered(t, FrontierOf(Bump(c, l), k)) <==> Covered(t, FrontierOf(c, k))
    {
      if k == l && t.slot == l {
        assert FrontierOf(c, l)[l] == LastOf(c, l);
      }
    }
  }

  /** The appended operation's position in history. */
  lemma IssueShape(w: World, l: nat, bump: bool, events: set<nat>)
    requires LiveLane(w.c, l) && l < SLOTS
    ensures
      var w' := Issue(w, l, bump, events);
      var op := Op(l, if bump then LastOf(w.c, l) + 1 else 0, Preds(w, l, events));
      && w'.c == (if bump then Bump(w.c, l) else w.c)
      && w'.h.ops == w.h.ops + [op]
      && w'.h.tail == w.h.tail[l := |w.h.ops|]
      && w'.h.recordedAt == w.h.recordedAt
  {
    BumpLast(w.c, l);
  }

  lemma OwnPred(w: World, l: nat, events: set<nat>)
    requires LiveLane(w.c, l) && l in w.h.tail
    ensures w.h.tail[l] in Preds(w, l, events)
  {}

  lemma IssueHistory(w: World, l: nat, bump: bool, events: set<nat>, missed: set<Transfer>)
    requires Inv(w, missed) && LiveLane(w.c, l)
    ensures l < SLOTS
    ensures HistoryOk(Issue(w, l, bump, events))
  {
    assert l < SLOTS;
    var w' := Issue(w, l, bump, events);
    BumpLast(w.c, l);
    IssueShape(w, l, bump, events);
    hide Issue, Bump, LastOf, Preds;
    var n := |w.h.ops|;
    forall k | 0 <= k < |w'.h.ops|
      ensures w'.h.ops[k].mark <= LastOf(w'.c, w'.h.ops[k].lane)
    {
      if k < n { assert w'.h.ops[k] == w.h.ops[k]; }
    }
    forall t | t in w'.c.pending
      ensures OwnSeen(w'.h, t)
    {
      IssueSees(w, l, bump, events, t, missed);
      assert OwnSeen(w.h, t);
      if t.slot == l { OwnPred(w, l, events); }
    }
  }

  /** What the new tail of `l` sees among the pending transfers is what its predecessors see. */
  lemma IssueSees(w: World, l: nat, bump: bool, events: set<nat>, t: Transfer, missed: set<Transfer>)
    requires Inv(w, missed) && LiveLane(w.c, l) && l < SLOTS && t in w.c.pending
    ensures
      var ops' := Issue(w, l, bump, events).h.ops;
      && |ops'| == |w.h.ops| + 1
      && (Sees(ops', |w.h.ops|, t) <==>
          exists p :: p in Preds(w, l, events) && p < |w.h.ops| && Sees(w.h.ops, p, t))
      && (forall j: nat :: j < |w.h.ops| ==> (Sees(ops', j, t) <==> Sees(w.h.ops, j, t)))
  {
    IssueShape(w, l, bump, events);
    hide Issue, Bump, Preds, Sees;
    var op := Op(l, if bump then LastOf(w.c, l) + 1 else 0, Preds(w, l, events));
    SeesNewest(w.h.ops, op, t);
    assert !IsOpOf(op, t);
    forall j: nat | j < |w.h.ops|
      ensures Sees(w.h.ops + [op], j, t) <==> Sees(w.h.ops, j, t)
    {
      SeesPrefix(w.h.ops, op, j, t);
    }
  }

  /** The lane an operation is appended to stays covered exactly when the operation was ready. */
  lemma IssueLane(w: World, l: nat, bump: bool, events: set<nat>, missed: set<Transfer>)
    requires Inv(w, missed) && LiveLane(w.c, l) && l < SLOTS
    requires HistoryOk(Issue(w, l, bump, events))
    ensures l in Issue(w, l, bump, events).h.tail
    ensures LaneCovers(Issue(w, l, bump, events), l, missed) <==> Ready(w, l, events, missed)
  {
    var w' := Issue(w, l, bump, events);
    var n := |w.h.ops|;
    IssueShape(w, l, bump, events);
    BumpLast(w.c, l);
    hide Issue, Bump, Preds, Sees, FrontierOf, LastOf;
    assert LiveLane(w'.c, l);
    forall t | t in w.c.pending
      ensures Sees(w'.h.ops, n, t) <==> exists p :: p in Preds(w, l, events) && p < n && Sees(w.h.ops, p, t)
      ensures Covered(t, FrontierOf(w'.c, l)) <==> Covered(t, FrontierOf(w.c, l))
    {
      IssueSees(w, l, bump, events, t, missed);
      BumpCovers(w.c, l, t);
    }
    hide LiveLane, Covered;
    assert w'.h.tail[l] == n && w'.c.pending == w.c.pending;
    if LaneCovers(w', l, missed) {
      forall p, t | p in Preds(w, l, events) && p < n && t in w.c.pending && t !in missed && Sees(w.h.ops, p, t)
        ensures Covered(t, FrontierOf(w.c, l))
      {
        assert Sees(w'.h.ops, n, t);
      }
    }
  }

  /** Every other lane and every event keeps its cover. */
  lemma IssueOthers(w: World, l: nat, bump: bool, events: set<nat>, missed: set<Transfer>)
    requires Inv(w, missed) && LiveLane(w.c, l) && l < SLOTS
    requires HistoryOk(Issue(w, l, bump, events))
    ensures forall k :: k in Issue(w, l, bump, events).h.tail && k != l ==> LaneCovers(Issue(w, l, bump, events), k, missed)
    ensures forall e: nat :: LiveEvent(w.c, e) && w.c.events[e].recorded ==>
              e < |Issue(w, l, bump, events).c.events| && EventCovers(Issue(w, l, bump, events), e, missed)
  {
    var w' := Issue(w, l, bump, events);
    IssueShape(w, l, bump, events);
    BumpLast(w.c, l);
    hide Issue, Bump, Preds, Sees, FrontierOf, LastOf;
    forall k | k in w'.h.tail && k != l
      ensures LaneCovers(w', k, missed)
    {
      assert LaneCovers(w, k, missed);
      forall t | t in w'.c.pending && t !in missed && Sees(w'.h.ops, w'.h.tail[k], t)
        ensures LiveLane(w'.c, k) && Covered(t, FrontierOf(w'.c, k))
      {
        IssueSees(w, l, bump, events, t, missed);
      }
    }
    forall e: nat | LiveEvent(w.c, e) && w.c.events[e].recorded
      ensures EventCovers(w', e, missed)
    {
      assert EventCovers(w, e, missed);
      forall t | t in w'.c.pending && t !in missed && Sees(w'.h.ops, w'.h.recordedAt[e], t)
        ensures Covered(t, w'.c.events[e].frontier)
      {
        IssueSees(w, l, bump, events, t, missed);
      }
    }
  }

  /**
   The exact condition: appending an operation keeps the invariant if and only if
   everything pending that its predecessors see is already behind the lane's frontier.
   */
  lemma IssueExact(w: World, l: nat, bump: bool, events: set<nat>, missed: set<Transfer>)
    requires Inv(w, missed) && LiveLane(w.c, l)
    ensures l < SLOTS
    ensures Inv(Issue(w, l, bump, events), missed) <==> Ready(w, l, events, missed)
  {
    IssueHistory(w, l, bump, events, missed);
    var w' := Issue(w, l, bump, events);
    IssueShape(w, l, bump, events);
    BumpOk(w.c, l);
    BumpLast(w.c, l);
    IssueLane(w, l, bump, events, missed);
    IssueOthers(w, l, bump, events, missed);
    hide Issue, Bump, Preds, Ready, LaneCovers, EventCovers, FrontiersOk, PendingOk, HistoryOk, LiveLane;
    if Ready(w, l, events, missed) {
      forall k | k in w'.h.tail ensures LaneCovers(w', k, missed) {}
      forall e: nat | LiveEvent(w'.c, e) && w'.c.events[e].recorded ensures EventCovers(w', e, missed) {
        assert LiveEvent(w.c, e);
      }
    }
  }

  /** After the legacy ordering, an operation with no event edge is ready. */
  lemma OrderedReady(w: World, l: nat, missed: set<Transfer>)
    requires Inv(w, missed) && LiveLane(w.c, l)
    ensures LiveLane(Ordered(w, l).c, l) && l < SLOTS
    ensures Inv(Ordered(w, l), missed) && Ready(Ordered(w, l), l, {}, missed)
  {
    var w1 := Ordered(w, l);
    ApplyLegacyAdvances(w.c, l);
    AdvancedKeeps(w, w1.c, missed);
    var f := FrontierOf(w1.c, l);
    forall p, t | p in Preds(w1, l, {}) && p < |w1.h.ops| && t in w1.c.pending && t !in missed && Sees(w1.h.ops, p, t)
      ensures Covered(t, f)
    {
      if l in w.h.tail && p == w.h.tail[l] {
        assert LaneCovers(w1, l, missed);
      } else if l == DEFAULT_SLOT {
        var m :| m in w.h.tail && m < |w.c.streams| && !w.c.streams[m].nonblocking && p == w.h.tail[m];
        assert LaneCovers(w, m, missed);
        assert Leq(FrontierOf(w.c, m), f);
      } else {
        assert LaneCovers(w, DEFAULT_SLOT, missed);
        assert Leq(w.c.dflt, f);
      }
    }
  }

  /** The legacy rule makes operations on lane `l` wait for lane `s`. */
  predicate Precedes(c: Client, s: nat, l: nat)
    requires LiveLane(c, l)
  {
    if l == DEFAULT_SLOT then s < |c.streams| && !c.streams[s].nonblocking
    else s == DEFAULT_SLOT && !c.streams[l].nonblocking
  }

  /**
   A test on the client's own tables: the pending transfers that merging the
   frontiers the legacy rule asks for would bring behind lane `l`.
   */
  ghost function Skipped(c: Client, l: nat): set<Transfer>
    requires LiveLane(c, l)
  {
    set t | t in c.pending && !Covered(t, FrontierOf(c, l))
            && exists s: nat :: LiveLane(c, s) && Precedes(c, s, l) && Covered(t, FrontierOf(c, s))
  }

  ghost predicate Settled(c: Client, l: nat)
    requires LiveLane(c, l)
  {
    Skipped(c, l) == {}
  }

  /** Besides the lane's own tail, an operation waits for tails of lanes that precede it. */
  lemma PrecedingTail(w: World, l: nat, p: nat) returns (s: nat)
    requires HistoryOk(w) && LiveLane(w.c, l) && p in Preds(w, l, {}) && !(l in w.h.tail && p == w.h.tail[l])
    ensures s in w.h.tail && Precedes(w.c, s, l) && p == w.h.tail[s]
  {
    if l == DEFAULT_SLOT {
      s :| s in w.h.tail && s < |w.c.streams| && !w.c.streams[s].nonblocking && p == w.h.tail[s];
    } else {
      s := DEFAULT_SLOT;
    }
  }

  /** An operation that skips the ordering misses at most the skipped transfers. */
  lemma SkippedReady(w: World, l: nat, missed: set<Transfer>)
    requires Inv(w, missed) && LiveLane(w.c, l)
    ensures Ready(w, l, {}, missed + Skipped(w.c, l))
  {
    hide Sees, Preds, Covered, FrontierOf, LiveLane, Precedes, FrontiersOk, PendingOk;
    var f := FrontierOf(w.c, l);
    var more := missed + Skipped(w.c, l);
    forall p, t | p in Preds(w, l, {}) && p < |w.h.ops| && t in w.c.pending && t !in more && Sees(w.h.ops, p, t)
      ensures Covered(t, f)
    {
      if l in w.h.tail && p == w.h.tail[l] {
        assert LaneCovers(w, l, missed);
      } else {
        var s := PrecedingTail(w, l, p);
        assert LaneCovers(w, s, missed);
      }
    }
  }

  /** Forgetting more transfers keeps the invariant. */
  lemma MissingMore(w: World, missed: set<Transfer>, more: set<Transfer>)
    requires Inv(w, missed) && missed <= more
    ensures Inv(w, more)
  {
    hide Sees, FrontiersOk, PendingOk;
    forall l | l in w.h.tail ensures LaneCovers(w, l, more) {
      assert LaneCovers(w, l, missed);
    }
    forall e: nat | LiveEvent(w.c, e) && w.c.events[e].recorded ensures EventCovers(w, e, more) {
      assert EventCovers(w, e, missed);
    }
  }

  lemma OrderedIssueKeeps(w: World, l: nat, bump: bool, missed: set<Transfer>)
    requires Inv(w, missed) && LiveLane(w.c, l)
    ensures LiveLane(Ordered(w, l).c, l) && l < SLOTS
    ensures Inv(Ordered(w, l), missed) && Inv(Issue(Ordered(w, l), l, bump, {}), missed)
  {
    OrderedReady(w, l, missed);
    hide Ordered, Issue, Inv, Ready;
    IssueExact(Ordered(w, l), l, bump, {}, missed);
  }

  // ---------------------------------------------------------------------
  // The transfer table
  // ---------------------------------------------------------------------

  /** A transfer just issued is seen by nothing but its own operation. */
  lemma FreshSeen(w: World, l: nat, t: Transfer, j: nat, missed: set<Transfer>)
    requires Inv(w, missed) && LiveLane(w.c, l) && l < SLOTS && t.slot == l && t.seqNo == LastOf(w.c, l) + 1
    requires j <= |w.h.ops|
    ensures |Issue(w, l, true, {}).h.ops| == |w.h.ops| + 1
    ensures Sees(Issue(w, l, true, {}).h.ops, j, t) <==> j == |w.h.ops|
  {
    IssueShape(w, l, true, {});
    var ops, n := Issue(w, l, true, {}).h.ops, |w.h.ops|;
    hide Issue, Preds, Bump;
    forall m | 0 <= m < n ensures !IsOpOf(ops[m], t) {
      assert ops[m] == w.h.ops[m] && w.h.ops[m].mark <= LastOf(w.c, w.h.ops[m].lane);
    }
    if Sees(ops, j, t) {
      var m :| 0 <= m < |ops| && IsOpOf(ops[m], t) && HB(ops, m, j);
      HBForward(ops, m, j);
    }
    assert IsOpOf(ops[n], t) && HB(ops, n, n);
  }

  lemma TrackKeeps(w: World, l: nat, x: Copy, missed: set<Transfer>)
    requires Inv(w, missed) && LiveLane(w.c, l) && l < SLOTS
    requires Inv(Issue(w, l, true, {}), missed)
    ensures Inv(Track(Issue(w, l, true, {}), l, x), missed)
  {
    var w1 := Issue(w, l, true, {});
    var w2 := Track(w1, l, x);
    var n := |w.h.ops|;
    IssueShape(w, l, true, {});
    BumpLast(w.c, l);
    hide Issue, Preds, Bump;
    var newest := w2.c.pending[|w1.c.pending|];
    assert w2.c.pending == w1.c.pending + [newest];
    forall k: nat ensures LastOf(w2.c, k) == LastOf(w1.c, k) && (LiveLane(w2.c, k) <==> LiveLane(w1.c, k)) {}
    assert FrontiersOk(w2.c) by {
      forall k: nat | LiveLane(w2.c, k)
        ensures Bounded(w2.c, FrontierOf(w2.c, k)) && k < SLOTS && FrontierOf(w2.c, k)[k] == LastOf(w2.c, k)
      {
        assert Bounded(w1.c, FrontierOf(w1.c, k));
      }
      forall e: nat | LiveEvent(w2.c, e) ensures Bounded(w2.c, w2.c.events[e].frontier) {
        assert LiveEvent(w1.c, e);
      }
    }
    assert PendingOk(w2.c);
    TrackHistory(w, l, x, missed);
    TrackCovering(w, l, x, missed);
  }

  lemma TrackHistory(w: World, l: nat, x: Copy, missed: set<Transfer>)
    requires Inv(w, missed) && LiveLane(w.c, l) && l < SLOTS
    requires Inv(Issue(w, l, true, {}), missed)
    ensures HistoryOk(Track(Issue(w, l, true, {}), l, x))
  {
    var w1 := Issue(w, l, true, {});
    var w2 := Track(w1, l, x);
    IssueShape(w, l, true, {});
    BumpLast(w.c, l);
    hide Issue, Preds, Bump;
    forall k: nat ensures LastOf(w2.c, k) == LastOf(w1.c, k) {}
    forall t | t in w2.c.pending
      ensures OwnSeen(w2.h, t)
    {
      if t !in w1.c.pending { FreshSeen(w, l, t, |w.h.ops|, missed); }
    }
  }

  lemma TrackCovering(w: World, l: nat, x: Copy, missed: set<Transfer>)
    requires Inv(w, missed) && LiveLane(w.c, l) && l < SLOTS
    requires Inv(Issue(w, l, true, {}), missed)
    requires HistoryOk(Track(Issue(w, l, true, {}), l, x))
    ensures Covering(Track(Issue(w, l, true, {}), l, x), missed)
  {
    var w1 := Issue(w, l, true, {});
    var w2 := Track(w1, l, x);
    var n := |w.h.ops|;
    IssueShape(w, l, true, {});
    BumpLast(w.c, l);
    hide Issue, Preds, Bump, Sees;
    var newest := w2.c.pending[|w1.c.pending|];
    assert w2.c.pending == w1.c.pending + [newest];
    forall k: nat ensures LiveLane(w2.c, k) <==> LiveLane(w1.c, k) {}
    forall k | k in w2.h.tail
      ensures LaneCovers(w2, k, missed)
    {
      assert LaneCovers(w1, k, missed);
      FreshSeen(w, l, newest, w2.h.tail[k], missed);
    }
    forall e: nat | LiveEvent(w2.c, e) && w2.c.events[e].recorded
      ensures EventCovers(w2, e, missed)
    {
      assert LiveEvent(w1.c, e);
      assert EventCovers(w1, e, missed);
      assert w1.h.recordedAt[e] < n;
      FreshSeen(w, l, newest, w2.h.recordedAt[e], missed);
    }
  }

  /** Retiring transfers keeps the invariant: there is only less to cover. */
  ghost predicate Retired(c: Client, c': Client)
  {
    && c' == c.(pending := c'.pending, host := c'.host)
    && (forall t :: t in c'.pending ==> t in c.pending)
    && (forall i, j :: 0 <= i < j < |c'.pending| ==> c'.pending[i].order < c'.pending[j].order)
  }

  lemma RetiredKeeps(w: World, c': Client, missed: set<Transfer>)
    requires Inv(w, missed) && Retired(w.c, c')
    ensures Inv(w.(c := c'), missed)
  {
    var w' := w.(c := c');
    forall k: nat ensures LastOf(c', k) == LastOf(w.c, k) && (LiveLane(c', k) <==> LiveLane(w.c, k)) {}
    assert FrontiersOk(c') by {
      assert c'.pending != [] ==> c'.pending[0] in w.c.pending;
      forall k: nat | LiveLane(c', k)
        ensures Bounded(c', FrontierOf(c', k)) && k < SLOTS && FrontierOf(c', k)[k] == LastOf(c', k)
      {
        assert Bounded(w.c, FrontierOf(w.c, k));
      }
      forall e: nat | LiveEvent(c', e) ensures Bounded(c', c'.events[e].frontier) {
        assert LiveEvent(w.c, e);
      }
    }
    assert HistoryOk(w') by {
      forall t | t in c'.pending ensures OwnSeen(w'.h, t) {}
    }
    forall l | l in w.h.tail ensures LaneCovers(w', l, missed) {
      assert LaneCovers(w, l, missed);
    }
    forall e: nat | LiveEvent(c', e) && c'.events[e].recorded ensures EventCovers(w', e, missed) {
      assert LiveEvent(w.c, e);
      assert EventCovers(w, e, missed);
    }
  }

  /** A client with no session has nothing to cover. */
  lemma DeadInv(c: Client, missed: set<Transfer>)
    requires Dead(c) && |c.streams| <= MAX_STREAMS
    ensures Inv(World(c, NO_HISTORY), missed)
  {}

  /** A drain either retires some transfers or loses the session. */
  lemma {:induction false} DrainRetires(c: Client, sel: Selector, ws: Waits)
    requires c.active || c.pending == []
    requires forall i, j :: 0 <= i < j < |c.pending| ==> c.pending[i].order < c.pending[j].order
    ensures Drain(c, sel, ws).0.active == c.active ==> Retired(c, Drain(c, sel, ws).0)
    ensures Drain(c, sel, ws).0.active != c.active ==>
              Dead(Drain(c, sel, ws).0) && |Drain(c, sel, ws).0.streams| == |c.streams|
    ensures Drain(c, sel, ws).1 == Done ==>
              Drain(c, sel, ws).0.active == c.active && forall t :: t in Drain(c, sel, ws).0.pending ==> !Matches(sel, t)
    decreases |c.pending|
  {
    hide Deliver, Matches;
    var k := FirstMatch(c.pending, sel);
    if k < |c.pending| {
      var t := c.pending[k];
      var reply := ReplyTo(ws, t.id);
      if reply.Data? && |reply.bytes| == Expected(t) {
        var c1 := c.(pending := Without(c.pending, k), host := Deliver(c.host, t, reply.bytes));
        assert Retired(c, c1);
        DrainRetires(c1, sel, ws);
      }
    }
  }

  lemma DrainedKeeps(w: World, sel: Selector, ws: Waits, missed: set<Transfer>)
    requires Inv(w, missed)
    ensures Inv(Drained(w, sel, ws).0, missed)
    ensures Drained(w, sel, ws).1 == Done ==>
              Retired(w.c, Drained(w, sel, ws).0.c) && Drained(w, sel, ws).0.h == w.h &&
              forall t :: t in Drained(w, sel, ws).0.c.pending ==> !Matches(sel, t)
  {
    assert w.c.pending != [] ==> w.c.pending[0] in w.c.pending && w.c.active;
    DrainRetires(w.c, sel, ws);
    var c' := Drain(w.c, sel, ws).0;
    if c'.active == w.c.active {
      RetiredKeeps(w, c', missed);
    } else {
      DeadInv(c', missed);
    }
  }

  // ---------------------------------------------------------------------
  // Events and destruction
  // ---------------------------------------------------------------------

  lemma RecordKeeps(w: World, e: nat, l: nat, missed: set<Transfer>)
    requires Inv(w, missed) && LiveLane(w.c, l) && l < SLOTS && LiveEvent(w.c, e)
    requires Inv(Issue(w, l, false, {}), missed)
    ensures Inv(RecordEvent(w, e, l), missed)
  {
    var w1 := Issue(w, l, false, {});
    var w2 := RecordEvent(w, e, l);
    IssueShape(w, l, false, {});
    hide Issue, Preds, Sees;
    var n := |w.h.ops|;
    forall k: nat ensures LastOf(w2.c, k) == LastOf(w.c, k) && (LiveLane(w2.c, k) <==> LiveLane(w.c, k)) {}
    assert FrontiersOk(w2.c) by {
      forall k: nat | LiveLane(w2.c, k)
        ensures Bounded(w2.c, FrontierOf(w2.c, k)) && k < SLOTS && FrontierOf(w2.c, k)[k] == LastOf(w2.c, k)
      {
        assert Bounded(w.c, FrontierOf(w.c, k));
      }
      forall k: nat | LiveEvent(w2.c, k) ensures Bounded(w2.c, w2.c.events[k].frontier) {
        assert LiveEvent(w.c, k);
        assert Bounded(w.c, FrontierOf(w.c, l));
        assert Bounded(w.c, w.c.events[k].frontier);
      }
    }
    assert HistoryOk(w2) by {
      forall t | t in w2.c.pending ensures OwnSeen(w2.h, t) {
        assert OwnSeen(w1.h, t);
      }
    }
    forall k | k in w2.h.tail ensures LaneCovers(w2, k, missed) {
      assert LaneCovers(w1, k, missed);
    }
    forall k: nat | LiveEvent(w2.c, k) && w2.c.events[k].recorded
      ensures EventCovers(w2, k, missed)
    {
      if k == e {
        assert LaneCovers(w1, l, missed);
      } else {
        assert LiveEvent(w1.c, k);
        assert EventCovers(w1, k, missed);
      }
    }
  }

  lemma WaitKeeps(w: World, l: nat, e: nat, missed: set<Transfer>)
    requires Inv(w, missed) && LiveLane(w.c, l) && l < SLOTS && LiveEvent(w.c, e) && Ready(w, l, {}, missed)
    ensures Inv(WaitForEvent(w, l, e), missed)
  {
    var ev := w.c.events[e];
    if ev.recorded {
      assert EventCovers(w, e, missed);
      assert Bounded(w.c, ev.frontier);
      MergeIntoLane(w.c, l, ev.frontier);
      var c1 := WithFrontier(w.c, l, Merge(FrontierOf(w.c, l), ev.frontier));
      AdvancedKeeps(w, c1, missed);
      var w1 := w.(c := c1);
      var at := w.h.recordedAt[e];
      assert Ready(w1, l, {at}, missed) by {
        WaitPreds(w, w1, l, at);
        assert Leq(FrontierOf(w.c, l), FrontierOf(c1, l));
        hide Preds, Sees;
        forall p, t | p in Preds(w1, l, {at}) && p < |w1.h.ops| && t in w1.c.pending && t !in missed && Sees(w1.h.ops, p, t)
          ensures Covered(t, FrontierOf(c1, l))
        {
          if p == at {
            assert Covered(t, ev.frontier);
          } else {
            assert p in Preds(w, l, {});
            assert Covered(t, FrontierOf(w.c, l));
          }
        }
      }
      IssueExact(w1, l, false, {at}, missed);
    } else {
      IssueExact(w, l, false, {}, missed);
    }
  }

  /** Waiting adds one edge to what the operation would wait for anyway. */
  lemma WaitPreds(w: World, w1: World, l: nat, at: nat)
    requires LiveLane(w.c, l) && Advanced(w.c, w1.c) && w1.h == w.h
    ensures LiveLane(w1.c, l)
    ensures Preds(w1, l, {at}) == Preds(w, l, {}) + {at}
  {
    assert forall m :: 0 <= m < |w.c.streams| ==> w1.c.streams[m].nonblocking == w.c.streams[m].nonblocking;
    assert LegacyPreds(w1, l) == LegacyPreds(w, l);
  }

  /** A lane covers everything pending that it submitted itself. */
  lemma OwnCovered(c: Client, l: nat)
    requires FrontiersOk(c) && PendingOk(c) && LiveLane(c, l)
    ensures forall t :: t in c.pending && t.slot == l ==> Covered(t, FrontierOf(c, l))
  {}

  /** A stream is destroyed only after everything behind its frontier was retired. */
  lemma KillStreamKeeps(w: World, s: nat, missed: set<Transfer>)
    requires Inv(w, missed) && LiveLane(w.c, s) && s < |w.c.streams|
    requires forall t :: t in w.c.pending ==> !Covered(t, w.c.streams[s].frontier)
    ensures Inv(KillStream(w, s), missed)
  {
    var w' := KillStream(w, s);
    assert FrontierOf(w.c, s) == w.c.streams[s].frontier;
    forall k: nat
      ensures LastOf(w'.c, k) == LastOf(w.c, k)
      ensures LiveLane(w'.c, k) ==> k != s && LiveLane(w.c, k) && FrontierOf(w'.c, k) == FrontierOf(w.c, k)
      ensures LiveLane(w.c, k) && k != s ==> LiveLane(w'.c, k)
    {
    }
    assert FrontiersOk(w'.c) by {
      forall k: nat | LiveLane(w'.c, k)
        ensures Bounded(w'.c, FrontierOf(w'.c, k)) && k < SLOTS && FrontierOf(w'.c, k)[k] == LastOf(w'.c, k)
      {
        assert Bounded(w.c, FrontierOf(w.c, k));
      }
      forall e: nat | LiveEvent(w'.c, e) ensures Bounded(w'.c, w'.c.events[e].frontier) {
        assert LiveEvent(w.c, e);
        assert Bounded(w.c, w.c.events[e].frontier);
      }
    }
    assert PendingOk(w'.c) by {
      OwnCovered(w.c, s);
    }
    assert HistoryOk(w') by {
      forall t | t in w'.c.pending ensures OwnSeen(w'.h, t) {}
    }
    KillStreamCovering(w, s, missed);
  }

  lemma KillStreamCovering(w: World, s: nat, missed: set<Transfer>)
    requires Inv(w, missed) && LiveLane(w.c, s) && s < |w.c.streams|
    requires forall t :: t in w.c.pending ==> !Covered(t, w.c.streams[s].frontier)
    requires HistoryOk(KillStream(w, s))
    ensures Covering(KillStream(w, s), missed)
  {
    var w' := KillStream(w, s);
    hide Sees;
    assert FrontierOf(w.c, s) == w.c.streams[s].frontier;
    forall l | l in w'.h.tail ensures LaneCovers(w', l, missed) {
      assert LaneCovers(w, l, missed);
    }
    forall e: nat | LiveEvent(w'.c, e) && w'.c.events[e].recorded ensures EventCovers(w', e, missed) {
      assert LiveEvent(w.c, e);
      assert EventCovers(w, e, missed);
    }
  }

  lemma KillEventKeeps(w: World, e: nat, missed: set<Transfer>)
    requires Inv(w, missed) && e < |w.c.events|
    ensures Inv(KillEvent(w, e), missed)
  {
    var w' := KillEvent(w, e);
    hide Sees;
    forall k: nat ensures LastOf(w'.c, k) == LastOf(w.c, k) && (LiveLane(w'.c, k) <==> LiveLane(w.c, k)) {}
    assert FrontiersOk(w'.c) by {
      forall k: nat | LiveLane(w'.c, k)
        ensures Bounded(w'.c, FrontierOf(w'.c, k)) && k < SLOTS && FrontierOf(w'.c, k)[k] == LastOf(w'.c, k)
      {
        assert Bounded(w.c, FrontierOf(w.c, k));
      }
      forall k: nat | LiveEvent(w'.c, k) ensures Bounded(w'.c, w'.c.events[k].frontier) {
        assert LiveEvent(w.c, k);
        assert Bounded(w.c, w.c.events[k].frontier);
      }
    }
    assert HistoryOk(w') by {
      forall t | t in w'.c.pending ensures OwnSeen(w'.h, t) {}
    }
    forall l | l in w'.h.tail ensures LaneCovers(w', l, missed) {
      assert LaneCovers(w, l, missed);
    }
    forall k: nat | LiveEvent(w'.c, k) && w'.c.events[k].recorded ensures EventCovers(w', k, missed) {
      assert LiveEvent(w.c, k);
      assert EventCovers(w, k, missed);
    }
  }

  // ---------------------------------------------------------------------
  // Whole runs
  // ---------------------------------------------------------------------

  /** What a command leaves behind: nothing, unless it skips the ordering on a lane that is not settled. */
  ghost function SkippedBy(w: World, cmd: Command): set<Transfer>
  {
    if cmd.Plain? && cmd.rpc == Success && LiveLane(w.c, cmd.lane) then Skipped(w.c, cmd.lane) else {}
  }

  lemma RestartKeeps(w: World, missed: set<Transfer>)
    requires Inv(w, missed)
    ensures Inv(Restart(w), missed)
  {
    DeadInv(Reset(w.c), missed);
  }

  lemma NewStreamKeeps(w: World, nb: bool, missed: set<Transfer>)
    requires Inv(w, missed) && w.c.active && |w.c.streams| < MAX_STREAMS
    ensures Inv(w.(c := w.c.(streams := w.c.streams + [Stream(true, nb, 0, Zero())])), missed)
  {
    var n := |w.c.streams|;
    var w' := w.(c := w.c.(streams := w.c.streams + [Stream(true, nb, 0, Zero())]));
    hide Sees;
    forall k: nat
      ensures LastOf(w'.c, k) == LastOf(w.c, k)
      ensures LiveLane(w'.c, k) <==> LiveLane(w.c, k) || k == n
      ensures LiveLane(w.c, k) ==> FrontierOf(w'.c, k) == FrontierOf(w.c, k)
    {
    }
    assert FrontiersOk(w'.c) by {
      forall k: nat | LiveLane(w'.c, k)
        ensures Bounded(w'.c, FrontierOf(w'.c, k)) && k < SLOTS && FrontierOf(w'.c, k)[k] == LastOf(w'.c, k)
      {
        if k != n { assert Bounded(w.c, FrontierOf(w.c, k)); }
      }
      forall e: nat | LiveEvent(w'.c, e) ensures Bounded(w'.c, w'.c.events[e].frontier) {
        assert LiveEvent(w.c, e);
        assert Bounded(w.c, w.c.events[e].frontier);
      }
    }
    assert HistoryOk(w') by {
      forall t | t in w'.c.pending ensures OwnSeen(w'.h, t) {}
    }
    forall l | l in w'.h.tail ensures LaneCovers(w', l, missed) {
      assert LaneCovers(w, l, missed);
    }
    forall e: nat | LiveEvent(w'.c, e) && w'.c.events[e].recorded ensures EventCovers(w', e, missed) {
      assert LiveEvent(w.c, e);
      assert EventCovers(w, e, missed);
    }
  }

  lemma NewEventKeeps(w: World, missed: set<Transfer>)
    requires Inv(w, missed) && w.c.active
    ensures Inv(w.(c := w.c.(events := w.c.events + [Event(true, false, Zero())])), missed)
  {
    var w' := w.(c := w.c.(events := w.c.events + [Event(true, false, Zero())]));
    hide Sees;
    forall k: nat ensures LastOf(w'.c, k) == LastOf(w.c, k) && (LiveLane(w'.c, k) <==> LiveLane(w.c, k)) {}
    assert FrontiersOk(w'.c) by {
      forall k: nat | LiveLane(w'.c, k)
        ensures Bounded(w'.c, FrontierOf(w'.c, k)) && k < SLOTS && FrontierOf(w'.c, k)[k] == LastOf(w'.c, k)
      {
        assert Bounded(w.c, FrontierOf(w.c, k));
      }
      forall e: nat | LiveEvent(w'.c, e) ensures Bounded(w'.c, w'.c.events[e].frontier) {
        if e < |w.c.events| {
          assert LiveEvent(w.c, e);
          assert Bounded(w.c, w.c.events[e].frontier);
        }
      }
    }
    assert HistoryOk(w') by {
      forall t | t in w'.c.pending ensures OwnSeen(w'.h, t) {}
    }
    forall l | l in w'.h.tail ensures LaneCovers(w', l, missed) {
      assert LaneCovers(w, l, missed);
    }
    forall e: nat | LiveEvent(w'.c, e) && w'.c.events[e].recorded ensures EventCovers(w', e, missed) {
      assert LiveEvent(w.c, e);
      assert EventCovers(w, e, missed);
    }
  }

  lemma ConnectKeeps(w: World, missed: set<Transfer>)
    requires Inv(w, missed) && !w.c.active
    ensures Inv(w.(c := w.c.(active := true, dflt := Zero(), dlast := 0)), missed)
  {
    var c' := w.c.(active := true, dflt := Zero(), dlast := 0);
    assert forall l: nat :: LiveLane(c', l) ==> l == DEFAULT_SLOT;
    assert forall e: nat :: !LiveEvent(c', e);
  }

  lemma DestroyStreamKeeps(w: World, s: nat, rpc: Rpc, ws: Waits, destroy: Rpc, missed: set<Transfer>)
    requires Inv(w, missed) && LiveLane(w.c, s) && s < |w.c.streams|
    ensures Inv(DestroyStreamStep(w, s, rpc, ws, destroy), missed)
  {
    hide Inv, Drained, Restart, KillStream, Covered;
    var sel := Behind(w.c.streams[s].frontier);
    DrainedKeeps(w, sel, ws, missed);
    var (w1, o) := Drained(w, sel, ws);
    RestartKeeps(w, missed);
    RestartKeeps(w1, missed);
    if o == Done {
      assert forall t :: t in w1.c.pending ==> !Matches(sel, t);
      KillStreamKeeps(w1, s, missed);
    }
  }

  lemma DestroyedEventKeeps(w: World, e: nat, o: Outcome, destroy: Rpc, missed: set<Transfer>)
    requires Inv(w, missed)
    ensures Inv(if o == Failed || e >= |w.c.events| then w else Answer(w, destroy, w, KillEvent(w, e)), missed)
  {
    RestartKeeps(w, missed);
    hide Inv, Restart, KillEvent;
    if o == Done && e < |w.c.events| { KillEventKeeps(w, e, missed); }
  }

  lemma DestroyEventKeeps(w: World, e: nat, rpc: Rpc, ws: Waits, destroy: Rpc, missed: set<Transfer>)
    requires Inv(w, missed) && e < |w.c.events|
    ensures Inv(DestroyEventStep(w, e, rpc, ws, destroy), missed)
  {
    hide Inv, Drained, Restart, KillEvent;
    RestartKeeps(w, missed);
    if w.c.events[e].recorded {
      var sel := Behind(w.c.events[e].frontier);
      DrainedKeeps(w, sel, ws, missed);
      var (w1, o) := Drained(w, sel, ws);
      DestroyedEventKeeps(w1, e, o, destroy, missed);
    } else {
      KillEventKeeps(w, e, missed);
    }
  }

  lemma SubmitKeeps(w: World, l: nat, x: Copy, rpc: Rpc, missed: set<Transfer>)
    requires Inv(w, missed) && LiveLane(w.c, l) && l < SLOTS
    ensures Inv(SubmitCopy(w, l, x, rpc), missed)
  {
    RestartKeeps(w, missed);
    OrderedIssueKeeps(w, l, false, missed);
    OrderedIssueKeeps(w, l, true, missed);
    TrackKeeps(Ordered(w, l), l, x, missed);
  }

  lemma PolledKeeps(w: World, f: Frontier, poll: Poll, ws: Waits, missed: set<Transfer>)
    requires Inv(w, missed)
    ensures Inv(Polled(w, f, poll, ws), missed)
  {
    RestartKeeps(w, missed);
    DrainedKeeps(w, Behind(f), ws, missed);
  }

  lemma RecordStepKeeps(w: World, e: nat, l: nat, rpc: Rpc, missed: set<Transfer>)
    requires Inv(w, missed) && LiveLane(w.c, l) && l < SLOTS && LiveEvent(w.c, e)
    ensures Inv(RecordStep(w, e, l, rpc), missed)
  {
    RestartKeeps(w, missed);
    hide Inv, Issue, Ordered, Restart, RecordEvent;
    OrderedIssueKeeps(w, l, false, missed);
    OrderedEvents(w, l);
    RecordKeeps(Ordered(w, l), e, l, missed);
  }

  lemma WaitStepKeeps(w: World, l: nat, e: nat, rpc: Rpc, missed: set<Transfer>)
    requires Inv(w, missed) && LiveLane(w.c, l) && l < SLOTS && LiveEvent(w.c, e)
    ensures Inv(WaitStep(w, l, e, rpc), missed)
  {
    RestartKeeps(w, missed);
    hide Inv, Ordered, Restart, WaitForEvent, Ready;
    OrderedReady(w, l, missed);
    OrderedEvents(w, l);
    WaitKeeps(Ordered(w, l), l, e, missed);
  }

  lemma QueryLaneKeeps(w: World, l: nat, rpc: Rpc, poll: Poll, ws: Waits, missed: set<Transfer>)
    requires Inv(w, missed) && LiveLane(w.c, l)
    ensures Inv(QueryLaneStep(w, l, rpc, poll, ws), missed)
  {
    RestartKeeps(w, missed);
    hide Inv, Ordered, Restart, Polled, Ready;
    OrderedReady(w, l, missed);
    var w1 := Ordered(w, l);
    PolledKeeps(w1, FrontierOf(w1.c, l), poll, ws, missed);
  }

  lemma IssueStepsKeep(w: World, l: nat, bump: bool, rpc: Rpc, missed: set<Transfer>)
    requires Inv(w, missed) && LiveLane(w.c, l) && l < SLOTS
    ensures Inv(WorkStep(w, l, bump, rpc), missed)
    ensures Inv(PlainStep(w, l, bump, rpc), missed + if rpc == Success then Skipped(w.c, l) else {})
  {
    var more := missed + if rpc == Success then Skipped(w.c, l) else {};
    MissingMore(w, missed, more);
    SkippedReady(w, l, missed);
    hide Inv, Issue, Ordered, Restart, Ready, Skipped;
    RestartKeeps(w, missed);
    RestartKeeps(w, more);
    OrderedIssueKeeps(w, l, bump, missed);
    IssueExact(w, l, bump, {}, more);
  }

  lemma HostFunctionKeeps(w: World, l: nat, rpc: Rpc, ws: Waits, missed: set<Transfer>)
    requires Inv(w, missed) && LiveLane(w.c, l)
    ensures Inv(HostFunctionStep(w, l, rpc, ws), missed)
  {
    hide Inv, Ordered, Restart, Drained, Ready;
    RestartKeeps(w, missed);
    OrderedReady(w, l, missed);
    var w1 := Ordered(w, l);
    DrainedKeeps(w1, Behind(FrontierOf(w1.c, l)), ws, missed);
  }

  lemma HandleStepsKeep(w: World, nb: bool, rpc: Rpc, missed: set<Transfer>)
    requires Inv(w, missed)
    ensures Inv(ConnectStep(w), missed) && Inv(NewStreamStep(w, nb, rpc), missed) && Inv(NewEventStep(w, rpc), missed) && Inv(Restart(w), missed)
  {
    RestartKeeps(w, missed);
    hide Inv, Restart;
    if w.c.active {
      if |w.c.streams| < MAX_STREAMS { NewStreamKeeps(w, nb, missed); }
      NewEventKeeps(w, missed);
    } else {
      ConnectKeeps(w, missed);
    }
  }

  lemma SyncKeeps(w: World, sel: Selector, rpc: Rpc, ws: Waits, missed: set<Transfer>)
    requires Inv(w, missed)
    ensures Inv(SyncStep(w, sel, rpc, ws), missed) && Inv(Drained(w, sel, ws).0, missed)
  {
    RestartKeeps(w, missed);
    DrainedKeeps(w, sel, ws, missed);
  }

  lemma QueryEventKeeps(w: World, e: nat, rpc: Rpc, poll: Poll, ws: Waits, missed: set<Transfer>)
    requires Inv(w, missed) && LiveEvent(w.c, e)
    ensures Inv(QueryEventStep(w, e, rpc, poll, ws), missed)
  {
    RestartKeeps(w, missed);
    PolledKeeps(w, w.c.events[e].frontier, poll, ws, missed);
  }

  lemma PlainKeeps(w: World, l: nat, bump: bool, rpc: Rpc, missed: set<Transfer>)
    requires Inv(w, missed)
    ensures Inv(Step(w, Plain(l, bump, rpc)), missed + SkippedBy(w, Plain(l, bump, rpc)))
  {
    assert LiveLane(w.c, l) ==> l < SLOTS;
    assert missed + {} == missed;
    hide Inv, PlainStep, Skipped, LiveLane;
    if LiveLane(w.c, l) { IssueStepsKeep(w, l, bump, rpc, missed); }
  }

  /** Every API call keeps the invariant, but for what it skips. */
  lemma StepKeeps(w: World, cmd: Command, missed: set<Transfer>)
    requires Inv(w, missed)
    ensures Inv(Step(w, cmd), missed + SkippedBy(w, cmd))
  {
    hide Inv, Step, Skipped;
    if cmd.Plain? {
      PlainKeeps(w, cmd.lane, cmd.bump, cmd.rpc, missed);
    } else {
      OrderedStepKeeps(w, cmd, missed);
      assert missed + SkippedBy(w, cmd) == missed;
    }
  }

  lemma OrderedStepKeeps(w: World, cmd: Command, missed: set<Transfer>)
    requires Inv(w, missed) && !cmd.Plain?
    ensures Inv(Step(w, cmd), missed)
  {
    hide Inv, Issue, Drained, Restart, DestroyStreamStep, DestroyEventStep, SubmitCopy, Ready, RecordStep, WaitStep,
         QueryLaneStep, QueryEventStep, SyncStep, WorkStep, PlainStep, ConnectStep, NewStreamStep, NewEventStep, LiveLane,
         LiveEvent, HostFunctionStep;
    match cmd {
      case Connect => HandleStepsKeep(w, false, Success, missed);
      case Shutdown => HandleStepsKeep(w, false, Success, missed);
      case NewStream(nb, rpc) => HandleStepsKeep(w, nb, rpc, missed);
      case NewEvent(rpc) => HandleStepsKeep(w, false, rpc, missed);
      case Submit(l, x, rpc) => if LiveLane(w.c, l) && l < SLOTS { SubmitKeeps(w, l, x, rpc, missed); }
      case Work(l, bump, rpc) => if LiveLane(w.c, l) && l < SLOTS { IssueStepsKeep(w, l, bump, rpc, missed); }
      case Record(e, l, rpc) =>
        if LiveLane(w.c, l) && l < SLOTS && LiveEvent(w.c, e) { RecordStepKeeps(w, e, l, rpc, missed); }
      case WaitEvent(l, e, rpc) =>
        if LiveLane(w.c, l) && l < SLOTS && LiveEvent(w.c, e) { WaitStepKeeps(w, l, e, rpc, missed); }
      case QueryLane(l, rpc, poll, ws) => if LiveLane(w.c, l) { QueryLaneKeeps(w, l, rpc, poll, ws, missed); }
      case QueryEvent(e, rpc, poll, ws) => if LiveEvent(w.c, e) { QueryEventKeeps(w, e, rpc, poll, ws, missed); }
      case SyncStream(l, rpc, ws) =>
        if LiveLane(w.c, l) && l < |w.c.streams| { SyncKeeps(w, Behind(w.c.streams[l].frontier), rpc, ws, missed); }
      case SyncEvent(e, rpc, ws) =>
        if LiveEvent(w.c, e) {
          EventExists(w.c, e);
          SyncKeeps(w, Behind(w.c.events[e].frontier), rpc, ws, missed);
        }
      case HostFunction(l, rpc, ws) => if LiveLane(w.c, l) { HostFunctionKeeps(w, l, rpc, ws, missed); }
      case SyncDevice(rpc, ws) => SyncKeeps(w, Everything, rpc, ws, missed);
      case ReleaseAllocation(id, ws) => SyncKeeps(w, OfAllocation(id), Success, ws, missed);
      case DestroyStream(s, rpc, ws, destroy) =>
        if LiveLane(w.c, s) && s < |w.c.streams| { DestroyStreamKeeps(w, s, rpc, ws, destroy, missed); }
      case DestroyEvent(e, rpc, ws, destroy) =>
        if LiveEvent(w.c, e) {
          EventExists(w.c, e);
          DestroyEventKeeps(w, e, rpc, ws, destroy, missed);
        }
    }
  }

  lemma EventExists(c: Client, e: nat)
    requires LiveEvent(c, e)
    ensures e < |c.events|
  {}

  lemma OrderedEvents(w: World, l: nat)
    requires LiveLane(w.c, l)
    ensures Ordered(w, l).c.events == w.c.events && Ordered(w, l).c.active == w.c.active
    ensures forall e: nat :: LiveEvent(w.c, e) ==> LiveEvent(Ordered(w, l).c, e)
  {}

  /** The transfers that an operation of the running session skipped. */
  ghost function Missed(host: seq<byte>, cmds: seq<Command>): set<Transfer>
  {
    if cmds == [] || !Run(host, cmds).c.active then {}
    else Missed(host, cmds[..|cmds| - 1]) + SkippedBy(Run(host, cmds[..|cmds| - 1]), cmds[|cmds| - 1])
  }

  lemma {:induction false} EveryRunKeeps(host: seq<byte>, cmds: seq<Command>)
    ensures Inv(Run(host, cmds), Missed(host, cmds))
  {
    if cmds == [] {
      DeadInv(Init(host).c, {});
    } else {
      var w := Run(host, cmds[..|cmds| - 1]);
      EveryRunKeeps(host, cmds[..|cmds| - 1]);
      StepKeeps(w, cmds[|cmds| - 1], Missed(host, cmds[..|cmds| - 1]));
      NothingPending(Run(host, cmds), Missed(host, cmds[..|cmds| - 1]) + SkippedBy(w, cmds[|cmds| - 1]));
      hide Inv, Step, SkippedBy;
    }
  }

  lemma NothingPending(w: World, missed: set<Transfer>)
    requires Inv(w, missed)
    ensures !w.c.active ==> Inv(w, {})
  {}

  /** Every operation that skips the ordering is issued at a settled lane. */
  ghost predicate SettledRun(host: seq<byte>, cmds: seq<Command>)
  {
    forall k :: 0 <= k < |cmds| ==> SettledAt(Run(host, cmds[..k]).c, cmds[k])
  }

  ghost predicate SettledAt(c: Client, cmd: Command)
  {
    cmd.Plain? && cmd.rpc == Success && LiveLane(c, cmd.lane) ==> Settled(c, cmd.lane)
  }

  /** Such a run misses nothing, and so do its earlier parts. */
  lemma {:induction false} SettledRunMissesNothing(host: seq<byte>, cmds: seq<Command>)
    requires SettledRun(host, cmds)
    ensures Missed(host, cmds) == {}
  {
    if cmds != [] {
      var less := cmds[..|cmds| - 1];
      hide Run, Skipped;
      forall k | 0 <= k < |less| ensures SettledAt(Run(host, less[..k]).c, less[k]) {
        assert less[..k] == cmds[..k] && less[k] == cmds[k];
      }
      SettledRunMissesNothing(host, less);
      assert SettledAt(Run(host, cmds[..|cmds| - 1]).c, cmds[|cmds| - 1]);
    }
  }

  /**
   In every run: a pending transfer that happens before a live lane's tail is
   behind that lane's frontier, unless an operation skipped it; no entry is ahead of
   its slot; a live lane's own entry is the last number it issued; and every pending
   transfer belongs to a live lane, so destroying a stream leaves nothing pending
   from its slot.
   */
  lemma FrontiersAreCausal(host: seq<byte>, cmds: seq<Command>)
    ensures
      var w := Run(host, cmds);
      && (forall l :: l in w.h.tail ==> w.h.tail[l] < |w.h.ops|)
      && (forall l, t :: l in w.h.tail && LiveLane(w.c, l) && t in w.c.pending && Sees(w.h.ops, w.h.tail[l], t) ==>
            Covered(t, FrontierOf(w.c, l)) || t in Missed(host, cmds))
      && (forall l: nat, i :: LiveLane(w.c, l) && 0 <= i < SLOTS ==> FrontierOf(w.c, l)[i] <= LastOf(w.c, i))
      && (forall l: nat :: LiveLane(w.c, l) ==> l < SLOTS && FrontierOf(w.c, l)[l] == LastOf(w.c, l))
      && (forall t :: t in w.c.pending ==> LiveLane(w.c, t.slot) && OwnSeen(w.h, t))
  {
    EveryRunKeeps(host, cmds);
    var w := Run(host, cmds);
    hide Run, Sees, Missed;
    forall l | l in w.h.tail
      ensures w.h.tail[l] < |w.h.ops| && LaneCovers(w, l, Missed(host, cmds))
    {
    }
    forall l: nat | LiveLane(w.c, l)
      ensures Bounded(w.c, FrontierOf(w.c, l))
    {
    }
  }

  /** Before a host function is called, everything that the stream and the legacy rule order before it has been delivered. */
  lemma HostFunctionSeesThePast(host: seq<byte>, cmds: seq<Command>, l: nat, ws: Waits)
    requires LiveLane(Run(host, cmds).c, l)
    requires
      var w1 := Ordered(Run(host, cmds), l);
      LiveLane(w1.c, l) && Answered(Selected(w1.c.pending, Behind(FrontierOf(w1.c, l))), ws)
    ensures
      var w := Run(host, cmds);
      var w' := Step(w, HostFunction(l, Success, ws));
      && w'.h == w.h
      && w'.c.host == DeliverAll(w.c.host, Selected(w.c.pending, Behind(FrontierOf(Ordered(w, l).c, l))), ws)
      && forall p, t :: p in Preds(w, l, {}) && p < |w.h.ops| && t in w'.c.pending && Sees(w.h.ops, p, t) ==>
           t in Missed(host, cmds)
  {
    EveryRunKeeps(host, cmds);
    var w, missed := Run(host, cmds), Missed(host, cmds);
    var w1 := Ordered(w, l);
    OrderedReady(w, l, missed);
    OrderedPreds(w, l, missed);
    HostFunctionIsDrain(w, l, ws);
    hide Run, Sees, Selected, Unselected, Answered, DeliverAll, Drained, InOrder, Inv, Covered, Missed, Preds, Step;
    AnsweredDrain(w1, Behind(FrontierOf(w1.c, l)), ws, missed);
  }

  lemma HostFunctionIsDrain(w: World, l: nat, ws: Waits)
    requires LiveLane(w.c, l) && LiveLane(Ordered(w, l).c, l)
    ensures Step(w, HostFunction(l, Success, ws)) ==
            Drained(Ordered(w, l), Behind(FrontierOf(Ordered(w, l).c, l)), ws).0
  {
    hide Drained;
  }

  lemma OrderedPreds(w: World, l: nat, missed: set<Transfer>)
    requires Inv(w, missed) && LiveLane(w.c, l)
    ensures LiveLane(Ordered(w, l).c, l)
    ensures Preds(Ordered(w, l), l, {}) == Preds(w, l, {})
    ensures Ordered(w, l).h == w.h && Ordered(w, l).c.pending == w.c.pending && Ordered(w, l).c.host == w.c.host
  {
    ApplyLegacyAdvances(w.c, l);
    var w1 := Ordered(w, l);
    assert forall m :: 0 <= m < |w.c.streams| ==> w1.c.streams[m].nonblocking == w.c.streams[m].nonblocking;
    assert LegacyPreds(w1, l) == LegacyPreds(w, l);
  }

  // ---------------------------------------------------------------------
  // What a successful synchronisation has done
  // ---------------------------------------------------------------------

  ghost predicate InOrder(ts: seq<Transfer>)
  {
    forall i, j :: 0 <= i < j < |ts| ==> ts[i].order < ts[j].order
  }

  lemma {:induction false} SelectedInOrder(ts: seq<Transfer>, sel: Selector)
    requires InOrder(ts)
    ensures InOrder(Selected(ts, sel))
  {
    hide Matches;
    if ts != [] {
      var rest := ts[1..];
      SelectedInOrder(rest, sel);
      SelectedElements(rest, sel);
      forall t | t in Selected(rest, sel) ensures ts[0].order < t.order {
        assert t in rest;
      }
    }
  }

  /**
   Synchronising a stream in any run, every payload having arrived: the transfers
   behind its frontier are delivered once each in submit order, the others stay,
   nothing else in host memory changes, and nothing that happened before the stream's
   last operation is still pending, unless an operation skipped it.
   */
  lemma SyncDeliversThePast(host: seq<byte>, cmds: seq<Command>, l: nat, ws: Waits)
    requires LiveLane(Run(host, cmds).c, l) && l < |Run(host, cmds).c.streams|
    requires Answered(Selected(Run(host, cmds).c.pending, Behind(Run(host, cmds).c.streams[l].frontier)), ws)
    ensures SyncDone(Run(host, cmds), Step(Run(host, cmds), SyncStream(l, Success, ws)), l, ws, Missed(host, cmds))
  {
    EveryRunKeeps(host, cmds);
    hide Run, Inv, SyncDone, Step, Missed;
    SyncExact(Run(host, cmds), l, ws, Missed(host, cmds));
  }

  /** In a settled run synchronising a stream leaves nothing of its past pending, without exception. */
  lemma SettledSyncDeliversThePast(host: seq<byte>, cmds: seq<Command>, l: nat, ws: Waits)
    requires SettledRun(host, cmds)
    requires LiveLane(Run(host, cmds).c, l) && l < |Run(host, cmds).c.streams|
    requires Answered(Selected(Run(host, cmds).c.pending, Behind(Run(host, cmds).c.streams[l].frontier)), ws)
    ensures SyncDone(Run(host, cmds), Step(Run(host, cmds), SyncStream(l, Success, ws)), l, ws, {})
  {
    hide Run, SyncDone, Step, Missed, SettledRun;
    SettledRunMissesNothing(host, cmds);
    SyncDeliversThePast(host, cmds, l, ws);
  }

  /** What a successful synchronisation of stream `l` turns `w` into. */
  ghost predicate SyncDone(w: World, w': World, l: nat, ws: Waits, missed: set<Transfer>)
    requires l < |w.c.streams|
    requires Answered(Selected(w.c.pending, Behind(w.c.streams[l].frontier)), ws)
  {
    var f := w.c.streams[l].frontier;
    var sel := Behind(f);
    && InOrder(Selected(w.c.pending, sel))
    && w' == w.(c := w.c.(pending := Unselected(w.c.pending, sel), host := DeliverAll(w.c.host, Selected(w.c.pending, sel), ws)))
    && (forall a :: 0 <= a < |w.c.host| && !Reached(Selected(w.c.pending, sel), a) ==> w'.c.host[a] == w.c.host[a])
    && (forall t :: t in w'.c.pending <==> t in w.c.pending && !Covered(t, f))
    && (l in w.h.tail ==> w.h.tail[l] < |w.h.ops| && forall t :: t in w'.c.pending && Sees(w.h.ops, w.h.tail[l], t) ==> t in missed)
  }

  lemma SyncExact(w: World, l: nat, ws: Waits, missed: set<Transfer>)
    requires Inv(w, missed) && LiveLane(w.c, l) && l < |w.c.streams|
    requires Answered(Selected(w.c.pending, Behind(w.c.streams[l].frontier)), ws)
    ensures SyncDone(w, Step(w, SyncStream(l, Success, ws)), l, ws, missed)
  {
    var sel := Behind(w.c.streams[l].frontier);
    hide Inv, Drained, Sees, Selected, Unselected, Answered, DeliverAll, InOrder, Step, Covered, LiveLane, Reached;
    StepIsDrain(w, l, ws);
    AnsweredDrain(w, sel, ws, missed);
    PastIsBehind(w, l, missed);
    forall a: nat | a < |w.c.host| && !Reached(Selected(w.c.pending, sel), a)
      ensures DeliverAll(w.c.host, Selected(w.c.pending, sel), ws)[a] == w.c.host[a]
    {
      DeliverOutside(w.c.host, Selected(w.c.pending, sel), ws, a);
    }
  }

  lemma StepIsDrain(w: World, l: nat, ws: Waits)
    requires LiveLane(w.c, l) && l < |w.c.streams|
    ensures Step(w, SyncStream(l, Success, ws)) == Drained(w, Behind(w.c.streams[l].frontier), ws).0
  {
    hide Drained;
  }

  /** Synchronising a recorded event delivers everything that happened before its record. */
  lemma EventSyncDeliversThePast(host: seq<byte>, cmds: seq<Command>, e: nat, ws: Waits)
    requires LiveEvent(Run(host, cmds).c, e) && Run(host, cmds).c.events[e].recorded
    requires Answered(Selected(Run(host, cmds).c.pending, Behind(Run(host, cmds).c.events[e].frontier)), ws)
    ensures
      var w := Run(host, cmds);
      var w' := Step(w, SyncEvent(e, Success, ws));
      && w'.h == w.h && w'.c.pending == Unselected(w.c.pending, Behind(w.c.events[e].frontier))
      && w'.c.host == DeliverAll(w.c.host, Selected(w.c.pending, Behind(w.c.events[e].frontier)), ws)
      && e in w.h.recordedAt && w.h.recordedAt[e] < |w.h.ops|
      && forall t :: t in w'.c.pending && Sees(w.h.ops, w.h.recordedAt[e], t) ==> t in Missed(host, cmds)
  {
    EveryRunKeeps(host, cmds);
    var w, missed := Run(host, cmds), Missed(host, cmds);
    var sel := Behind(w.c.events[e].frontier);
    hide Run, Sees, Selected, Unselected, Answered, DeliverAll, Drained, InOrder, Inv, Covered, Missed;
    EventPastIsBehind(w, e, missed);
    AnsweredDrain(w, sel, ws, missed);
    EventStepIsDrain(w, e, ws);
    hide Step;
  }

  lemma EventPastIsBehind(w: World, e: nat, missed: set<Transfer>)
    requires Inv(w, missed) && LiveEvent(w.c, e) && w.c.events[e].recorded
    ensures EventCovers(w, e, missed)
  {
  }

  lemma EventStepIsDrain(w: World, e: nat, ws: Waits)
    requires LiveEvent(w.c, e)
    ensures Step(w, SyncEvent(e, Success, ws)) == Drained(w, Behind(w.c.events[e].frontier), ws).0
  {
    hide Drained;
  }

  /** Synchronising the device, or the default stream, delivers everything. */
  lemma DeviceSyncDeliversAll(host: seq<byte>, cmds: seq<Command>, ws: Waits)
    requires Run(host, cmds).c.active
    requires Answered(Run(host, cmds).c.pending, ws)
    ensures
      var w := Run(host, cmds);
      var w' := Step(w, SyncDevice(Success, ws));
      && InOrder(w.c.pending)
      && w' == w.(c := w.c.(pending := [], host := DeliverAll(w.c.host, w.c.pending, ws)))
  {
    EveryRunKeeps(host, cmds);
    var w, missed := Run(host, cmds), Missed(host, cmds);
    EverythingSelected(w.c.pending);
    hide Run, Selected, Unselected, Answered, DeliverAll, Drained, Inv, Missed;
    AnsweredDrain(w, Everything, ws, missed);
    DeviceStepIsDrain(w, ws);
    hide Step;
  }

  lemma DeviceStepIsDrain(w: World, ws: Waits)
    requires w.c.active
    ensures Step(w, SyncDevice(Success, ws)) == Drained(w, Everything, ws).0
  {
    hide Drained;
  }

  lemma {:induction false} EverythingSelected(ts: seq<Transfer>)
    ensures Selected(ts, Everything) == ts && Unselected(ts, Everything) == []
  {
    if ts != [] {
      EverythingSelected(ts[1..]);
    }
  }

  /** The drain of a synchronisation whose payloads have all arrived. */
  lemma AnsweredDrain(w: World, sel: Selector, ws: Waits, missed: set<Transfer>)
    requires Inv(w, missed) && Answered(Selected(w.c.pending, sel), ws)
    ensures InOrder(Selected(w.c.pending, sel))
    ensures Drained(w, sel, ws).0 == w.(c := w.c.(pending := Unselected(w.c.pending, sel),
                                                   host := DeliverAll(w.c.host, Selected(w.c.pending, sel), ws)))
    ensures forall t :: t in Unselected(w.c.pending, sel) <==> t in w.c.pending && !Matches(sel, t)
  {
    DrainExact(w.c, sel, ws);
    SelectedElements(w.c.pending, sel);
    SelectedInOrder(w.c.pending, sel);
    hide Drain, Selected, Unselected, Answered, DeliverAll, Covering, HistoryOk, FrontiersOk;
  }

  lemma PastIsBehind(w: World, l: nat, missed: set<Transfer>)
    requires Inv(w, missed) && LiveLane(w.c, l) && l < |w.c.streams|
    ensures l in w.h.tail ==> w.h.tail[l] < |w.h.ops|
    ensures l in w.h.tail ==>
              forall t :: t in w.c.pending && t !in missed && Sees(w.h.ops, w.h.tail[l], t) ==>
                Covered(t, w.c.streams[l].frontier)
  {
    assert LiveLane(w.c, DEFAULT_SLOT) && |w.c.streams| <= MAX_STREAMS;
    assert FrontierOf(w.c, l) == w.c.streams[l].frontier;
    assert l in w.h.tail ==> LaneCovers(w, l, missed);
  }

  // ---------------------------------------------------------------------
  // Operations that skip the ordering
  // ---------------------------------------------------------------------

  /** What an operation on lane `l` that skips the ordering does to the cover of `t`. */
  ghost predicate SkipDamage(w: World, w': World, l: nat, t: Transfer, missed: set<Transfer>)
    requires LiveLane(w.c, l)
  {
    && LiveLane(w'.c, l) && t in w'.c.pending && l in w'.h.tail && w'.h.tail[l] < |w'.h.ops|
    && (Precedes(w.c, t.slot, l) ==> Sees(w'.h.ops, w'.h.tail[l], t))
    && (Precedes(w.c, t.slot, l) || (t !in missed && Sees(w'.h.ops, w'.h.tail[l], t)) ==>
          (Covered(t, FrontierOf(w'.c, l)) <==> t !in Skipped(w.c, l)))
  }

  /**
   The exact damage, on the tables, in every run: after an operation on lane `l` that
   skips the ordering, a pending transfer that the new tail sees, not missed before, is
   behind the frontier exactly when it was not skipped. The new tail sees every pending
   transfer of a lane the legacy rule orders before `l`, and for those it is exact even
   if some other lane missed them.
   */
  lemma SkippingExact(host: seq<byte>, cmds: seq<Command>, l: nat, bump: bool, t: Transfer)
    requires LiveLane(Run(host, cmds).c, l) && t in Run(host, cmds).c.pending
    ensures SkipDamage(Run(host, cmds), Step(Run(host, cmds), Plain(l, bump, Success)), l, t, Missed(host, cmds))
  {
    EveryRunKeeps(host, cmds);
    SkippingBreaks(Run(host, cmds), l, bump, t, Missed(host, cmds));
    hide Run, Missed, Inv, Step, Skipped, SkipDamage;
  }

  lemma PlainIssues(w: World, l: nat, bump: bool, missed: set<Transfer>)
    requires Inv(w, missed) && LiveLane(w.c, l)
    ensures l < SLOTS && Step(w, Plain(l, bump, Success)) == Issue(w, l, bump, {})
  {
    hide Issue;
  }

  /** A pending transfer of a preceding lane is seen by a predecessor and behind that lane's frontier. */
  lemma PrecedingOwn(w: World, l: nat, t: Transfer, missed: set<Transfer>)
    requires Inv(w, missed) && LiveLane(w.c, l) && t in w.c.pending && Precedes(w.c, t.slot, l)
    ensures exists p :: p in Preds(w, l, {}) && p < |w.h.ops| && Sees(w.h.ops, p, t)
    ensures LiveLane(w.c, t.slot) && Covered(t, FrontierOf(w.c, t.slot))
  {
    assert OwnSeen(w.h, t) && w.h.tail[t.slot] in Preds(w, l, {});
    OwnCovered(w.c, t.slot);
    hide Sees, Preds, Covered;
  }

  lemma SkippingBreaks(w: World, l: nat, bump: bool, t: Transfer, missed: set<Transfer>)
    requires Inv(w, missed) && LiveLane(w.c, l) && t in w.c.pending
    ensures SkipDamage(w, Step(w, Plain(l, bump, Success)), l, t, missed)
  {
    PlainIssues(w, l, bump, missed);
    BumpCoversOk(w, l, t, missed);
    hide Inv, Issue, Preds, Sees, Bump, Covered, FrontierOf, LastOf, Precedes, Step;
    if Precedes(w.c, t.slot, l) { PrecedingOwn(w, l, t, missed); }
    SkippedReady(w, l, missed);
    IssueSees(w, l, bump, {}, t, missed);
    IssueShape(w, l, bump, {});
  }

  lemma BumpCoversOk(w: World, l: nat, t: Transfer, missed: set<Transfer>)
    requires Inv(w, missed) && LiveLane(w.c, l) && l < SLOTS && t in w.c.pending
    ensures LiveLane(Bump(w.c, l), l) && Bump(w.c, l).pending == w.c.pending
    ensures Covered(t, FrontierOf(Bump(w.c, l), l)) <==> Covered(t, FrontierOf(w.c, l))
  {
    BumpLast(w.c, l);
    BumpCovers(w.c, l, t);
  }

  /** A copy on the default stream, then a two-dimensional memset on a blocking stream. */
  ghost function SkippingRun(x: Copy): seq<Command>
  {
    [Connect, NewStream(false, Success), Submit(DEFAULT_SLOT, x, Success), Plain(0, true, Success)]
  }

  /**
   The two-dimensional memset does not apply the legacy ordering. After the run
   above the copy happens before the tail of stream 0 and is pending, yet the
   frontier of stream 0 does not cover it, so synchronising stream 0 leaves its
   payload undelivered.
   */
  lemma SkippingBreaksCoverage(host: seq<byte>, x: Copy)
    ensures
      var w := Run(host, SkippingRun(x));
      && 0 in w.h.tail && w.h.tail[0] < |w.h.ops| && LiveLane(w.c, 0) && |w.c.pending| == 1
      && Sees(w.h.ops, w.h.tail[0], w.c.pending[0])
      && !Covered(w.c.pending[0], FrontierOf(w.c, 0))
  {
    SkippingUnfolds(host, x);
    hide Run, Step, Sees, SubmitCopy, PlainStep;
    SkippingUncovered(NewStreamStep(ConnectStep(Init(host)), false, Success), x);
    hide *;
  }

  /** The last two calls of the run, on a fresh client with one blocking stream. */
  lemma SkippingUncovered(w2: World, x: Copy)
    requires w2.h == NO_HISTORY && w2.c.active && w2.c.streams == [Stream(true, false, 0, Zero())] && w2.c.pending == []
    requires w2.c.dflt == Zero() && w2.c.dlast == 0
    ensures LiveLane(w2.c, DEFAULT_SLOT) && LiveLane(SubmitCopy(w2, DEFAULT_SLOT, x, Success).c, 0)
    ensures
      var w := PlainStep(SubmitCopy(w2, DEFAULT_SLOT, x, Success), 0, true, Success);
      && 0 in w.h.tail && w.h.tail[0] < |w.h.ops| && LiveLane(w.c, 0) && |w.c.pending| == 1
      && Sees(w.h.ops, w.h.tail[0], w.c.pending[0])
      && !Covered(w.c.pending[0], FrontierOf(w.c, 0))
  {
    var w3 := SubmitCopy(w2, DEFAULT_SLOT, x, Success);
    var w4 := PlainStep(w3, 0, true, Success);
    var t := w4.c.pending[0];
    assert w3.h.ops == [Op(DEFAULT_SLOT, 1, w3.h.ops[0].preds)];
    assert w4.h.ops[0] == w3.h.ops[0] && w4.h.ops[1].preds == Preds(w3, 0, {});
    assert 0 in w4.h.ops[1].preds;
    assert HB(w4.h.ops, 0, 0) && HB(w4.h.ops, 0, 1);
    assert IsOpOf(w4.h.ops[0], t);
  }

  lemma RunSnoc(host: seq<byte>, cmds: seq<Command>, cmd: Command)
    ensures Run(host, cmds + [cmd]) == Step(Run(host, cmds), cmd)
  {
    hide Step;
    assert (cmds + [cmd])[..|cmds|] == cmds;
  }

  /** What the calls of the run above do, one by one. */
  lemma SkippingSteps(w0: World, x: Copy)
    requires !w0.c.active && w0.c.streams == []
    ensures
      var w1 := ConnectStep(w0);
      var w2 := NewStreamStep(w1, false, Success);
      && Step(w0, Connect) == w1 && Step(w1, NewStream(false, Success)) == w2 && LiveLane(w2.c, DEFAULT_SLOT)
      && var w3 := SubmitCopy(w2, DEFAULT_SLOT, x, Success);
      && Step(w2, Submit(DEFAULT_SLOT, x, Success)) == w3
      && (LiveLane(w3.c, 0) ==> Step(w3, Plain(0, true, Success)) == PlainStep(w3, 0, true, Success))
  {
    hide SubmitCopy, PlainStep;
  }

  lemma SkippingLive(w2: World, x: Copy)
    requires LiveLane(w2.c, DEFAULT_SLOT) && LiveLane(w2.c, 0)
    ensures LiveLane(SubmitCopy(w2, DEFAULT_SLOT, x, Success).c, 0)
  {
    hide Preds, Absorb;
  }

  lemma SkippingUnfolds(host: seq<byte>, x: Copy)
    ensures
      var w1 := ConnectStep(Init(host));
      var w2 := NewStreamStep(w1, false, Success);
      && LiveLane(w2.c, DEFAULT_SLOT)
      && var w3 := SubmitCopy(w2, DEFAULT_SLOT, x, Success);
      && LiveLane(w3.c, 0)
      && Run(host, SkippingRun(x)) == PlainStep(w3, 0, true, Success)
  {
    hide Step, SubmitCopy, PlainStep, Run;
    FourCalls(host, Connect, NewStream(false, Success), Submit(DEFAULT_SLOT, x, Success), Plain(0, true, Success));
    SkippingSteps(Init(host), x);
    FreshStream(host);
    SkippingLive(NewStreamStep(ConnectStep(Init(host)), false, Success), x);
    hide ConnectStep, NewStreamStep, Init, LiveLane;
  }

  lemma FreshStream(host: seq<byte>)
    ensures
      var c := NewStreamStep(ConnectStep(Init(host)), false, Success).c;
      LiveLane(c, 0) && LiveLane(c, DEFAULT_SLOT)
  {}

  lemma FourCalls(host: seq<byte>, c1: Command, c2: Command, c3: Command, c4: Command)
    ensures Run(host, [c1, c2, c3, c4]) == Step(Step(Step(Step(Init(host), c1), c2), c3), c4)
  {
    assert Run(host, []) == Init(host);
    hide Run, Step, Init;
    RunSnoc(host, [], c1);
    RunSnoc(host, [c1], c2);
    RunSnoc(host, [c1, c2], c3);
    RunSnoc(host, [c1, c2, c3], c4);
    assert [] + [c1] == [c1] && [c1] + [c2] == [c1, c2] && [c1, c2] + [c3] == [c1, c2, c3];
    assert [c1, c2, c3] + [c4] == [c1, c2, c3, c4];
  }
}
