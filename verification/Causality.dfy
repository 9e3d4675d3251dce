/**
 The client's stream ordering. Every stream, every recorded event and the legacy
 default stream carry a causal frontier; asynchronous copies are hidden transfers
 stamped with a slot and a sequence number. The history below records what the
 CUDA rules order, independently of the frontiers.
 */
module Causality {
  import opened Bytes
  import opened Frontiers
  import opened Pitched

  datatype Stream = Stream(live: bool, nonblocking: bool, last: nat, frontier: Frontier)
  datatype Event = Event(live: bool, recorded: bool, frontier: Frontier)

  /** A hidden transfer. Only copies to the host have a destination in host memory. */
  datatype Transfer = Transfer(id: nat, toHost: bool, allocation: nat, slot: nat, seqNo: nat, order: nat,
                               at: nat, shape: Shape)

  /** Pending transfers are listed in submit order. */
  datatype Client = Client(active: bool, streams: seq<Stream>, events: seq<Event>,
                           dflt: Frontier, dlast: nat,
                           pending: seq<Transfer>, order: nat, host: seq<byte>)

  /** One submitted operation: its stream slot, the sequence number it took (0 for none), what it waits for. */
  datatype Op = Op(lane: nat, mark: nat, preds: set<nat>)

  /** What has been submitted in this session, the last operation of each lane, where each event was recorded. */
  datatype History = History(ops: seq<Op>, tail: map<nat, nat>, recordedAt: map<nat, nat>)

  datatype World = World(c: Client, h: History)

  // ---------------------------------------------------------------------
  // Client state
  // ---------------------------------------------------------------------

  predicate LiveLane(c: Client, l: nat)
  {
    c.active && (l == DEFAULT_SLOT || (l < |c.streams| && c.streams[l].live))
  }

  /** Last sequence number issued from a slot. */
  function LastOf(c: Client, l: nat): nat
  {
    if l == DEFAULT_SLOT then c.dlast else if l < |c.streams| then c.streams[l].last else 0
  }

  function FrontierOf(c: Client, l: nat): Frontier
    requires LiveLane(c, l)
  {
    if l == DEFAULT_SLOT then c.dflt else c.streams[l].frontier
  }

  function WithFrontier(c: Client, l: nat, f: Frontier): Client
    requires LiveLane(c, l)
  {
    if l == DEFAULT_SLOT then c.(dflt := f) else c.(streams := c.streams[l := c.streams[l].(frontier := f)])
  }

  predicate Covered(t: Transfer, f: Frontier)
  {
    t.slot < SLOTS && t.seqNo <= f[t.slot]
  }

  /** The default stream absorbs every live stream, blocking or not. */
  function Absorb(f: Frontier, ss: seq<Stream>): Frontier
  {
    if ss == [] then f
    else
      var rest := Absorb(f, ss[..|ss| - 1]);
      if ss[|ss| - 1].live then Merge(rest, ss[|ss| - 1].frontier) else rest
  }

  /** Legacy default-stream ordering, applied before an operation on lane `l`. */
  function ApplyLegacy(c: Client, l: nat): Client
    requires LiveLane(c, l)
  {
    if l == DEFAULT_SLOT then c.(dflt := Absorb(c.dflt, c.streams))
    else if c.streams[l].nonblocking then c
    else WithFrontier(c, l, Merge(c.streams[l].frontier, c.dflt))
  }

  /** Take the next sequence number of the lane and publish it in the lane's own frontier entry. */
  function Bump(c: Client, l: nat): Client
    requires LiveLane(c, l) && l < SLOTS
  {
    if l == DEFAULT_SLOT then c.(dlast := c.dlast + 1, dflt := c.dflt[l := c.dlast + 1])
    else
      var s := c.streams[l];
      c.(streams := c.streams[l := s.(last := s.last + 1, frontier := s.frontier[l := s.last + 1])])
  }

  /** Transport failure or shutdown: every handle dies, nothing is replayed. */
  function Reset(c: Client): Client
  {
    Client(false,
           seq(|c.streams|, i requires 0 <= i < |c.streams| => c.streams[i].(live := false, frontier := Zero())),
           seq(|c.events|, i requires 0 <= i < |c.events| => Event(false, false, Zero())),
           Zero(), 0, [], 0, c.host)
  }

  // ---------------------------------------------------------------------
  // Happens-before
  // ---------------------------------------------------------------------

  /** What the legacy rule makes an operation on lane `l` wait for. */
  ghost function LegacyPreds(w: World, l: nat): set<nat>
    requires LiveLane(w.c, l)
  {
    if l == DEFAULT_SLOT then
      set m | m in w.h.tail && m < |w.c.streams| && !w.c.streams[m].nonblocking :: w.h.tail[m]
    else if !w.c.streams[l].nonblocking && DEFAULT_SLOT in w.h.tail then {w.h.tail[DEFAULT_SLOT]}
    else {}
  }

  /** Stream order, the legacy rule and event edges. */
  ghost function Preds(w: World, l: nat, events: set<nat>): set<nat>
    requires LiveLane(w.c, l)
  {
    (if l in w.h.tail then {w.h.tail[l]} else {}) + LegacyPreds(w, l) + events
  }

  /** Operation `i` happens before operation `j`, or is it. */
  ghost predicate HB(ops: seq<Op>, i: nat, j: nat)
    requires j < |ops|
    decreases j
  {
    i == j || exists p :: p in ops[j].preds && p < j && HB(ops, i, p)
  }

  predicate IsOpOf(op: Op, t: Transfer) { op.lane == t.slot && op.mark == t.seqNo }

  /** The operation that submitted `t` happens before operation `j`, or is it. */
  ghost predicate Sees(ops: seq<Op>, j: nat, t: Transfer)
    requires j < |ops|
  {
    exists m :: 0 <= m < |ops| && IsOpOf(ops[m], t) && HB(ops, m, j)
  }

  lemma {:induction false} HBForward(ops: seq<Op>, i: nat, j: nat)
    requires j < |ops| && HB(ops, i, j)
    ensures i <= j
    decreases j
  {
    if i != j {
      var p :| p in ops[j].preds && p < j && HB(ops, i, p);
      HBForward(ops, i, p);
    }
  }

  lemma {:induction false} HBPrefix(ops: seq<Op>, op: Op, i: nat, j: nat)
    requires j < |ops|
    ensures HB(ops + [op], i, j) <==> HB(ops, i, j)
    decreases j
  {
    forall p | p in ops[j].preds && p < j
      ensures HB(ops + [op], i, p) <==> HB(ops, i, p)
    {
      HBPrefix(ops, op, i, p);
    }
    assert (ops + [op])[j] == ops[j];
  }

  /** Submitting more work never changes what happened before earlier operations. */
  lemma SeesPrefix(ops: seq<Op>, op: Op, j: nat, t: Transfer)
    requires j < |ops|
    ensures Sees(ops + [op], j, t) <==> Sees(ops, j, t)
  {
    var all := ops + [op];
    if Sees(all, j, t) {
      var m :| 0 <= m < |all| && IsOpOf(all[m], t) && HB(all, m, j);
      HBForward(all, m, j);
      HBPrefix(ops, op, m, j);
      assert IsOpOf(ops[m], t);
    }
    if Sees(ops, j, t) {
      var m :| 0 <= m < |ops| && IsOpOf(ops[m], t) && HB(ops, m, j);
      HBPrefix(ops, op, m, j);
      assert IsOpOf(all[m], t);
    }
  }

  /** The newest operation sees its own transfer and what its predecessors see. */
  lemma SeesNewest(ops: seq<Op>, op: Op, t: Transfer)
    ensures Sees(ops + [op], |ops|, t) <==>
            IsOpOf(op, t) || exists p :: p in op.preds && p < |ops| && Sees(ops, p, t)
  {
    var all, n := ops + [op], |ops|;
    assert all[n] == op;
    if Sees(all, n, t) {
      var m :| 0 <= m < |all| && IsOpOf(all[m], t) && HB(all, m, n);
      if m != n {
        var p :| p in op.preds && p < n && HB(all, m, p);
        HBForward(all, m, p);
        HBPrefix(ops, op, m, p);
        assert IsOpOf(ops[m], t);
        assert Sees(ops, p, t);
      }
    }
    if IsOpOf(op, t) {
      assert HB(all, n, n);
    }
    if p :| p in op.preds && p < |ops| && Sees(ops, p, t) {
      SeesPrefix(ops, op, p, t);
      var m :| 0 <= m < |all| && IsOpOf(all[m], t) && HB(all, m, p);
      assert HB(all, m, n);
    }
  }

  // ---------------------------------------------------------------------
  // Retirement
  // ---------------------------------------------------------------------

  /** Which pending transfers a drain retires. */
  datatype Selector = Behind(frontier: Frontier) | Everything | OfAllocation(id: nat)

  predicate Matches(sel: Selector, t: Transfer)
  {
    match sel
    case Behind(f) => Covered(t, f)
    case Everything => true
    case OfAllocation(id) => t.allocation == id
  }

  /** Outcome of waiting for one transfer. */
  datatype WaitReply = Data(bytes: seq<byte>) | WaitError | WaitLost

  type Waits = map<nat, WaitReply>

  function ReplyTo(ws: Waits, id: nat): WaitReply { if id in ws then ws[id] else WaitError }

  /** Payload length the client insists on. */
  function Expected(t: Transfer): nat { if t.toHost then t.shape.Volume() else 0 }

  /** Host memory once the payload of `t` has been delivered. */
  ghost function Deliver(host: seq<byte>, t: Transfer, data: seq<byte>): (r: seq<byte>)
    requires |data| == Expected(t)
    ensures |r| == |host|
  {
    if t.toHost then Scatter(host, t.at, t.shape, data) else host
  }

  function FirstMatch(ts: seq<Transfer>, sel: Selector): (k: nat)
    ensures k <= |ts|
    ensures forall i :: 0 <= i < k ==> !Matches(sel, ts[i])
    ensures k < |ts| ==> Matches(sel, ts[k])
  {
    if ts == [] || Matches(sel, ts[0]) then 0 else 1 + FirstMatch(ts[1..], sel)
  }

  function Without(ts: seq<Transfer>, k: nat): seq<Transfer>
    requires k < |ts|
  {
    ts[..k] + ts[k + 1..]
  }

  datatype Outcome = Done | Failed

  /** Retire the oldest matching transfer, again and again, until none is left or a wait fails. */
  ghost function Drain(c: Client, sel: Selector, ws: Waits): (Client, Outcome)
    decreases |c.pending|
  {
    var k := FirstMatch(c.pending, sel);
    if k == |c.pending| then (c, Done)
    else
      var t := c.pending[k];
      match ReplyTo(ws, t.id)
      case WaitLost => (Reset(c), Failed)
      case WaitError => (c, Failed)
      case Data(bytes) =>
        if |bytes| != Expected(t) then (c, Failed)
        else Drain(c.(pending := Without(c.pending, k), host := Deliver(c.host, t, bytes)), sel, ws)
  }

  /** The matching transfers, oldest first. */
  function Selected(ts: seq<Transfer>, sel: Selector): seq<Transfer>
  {
    if ts == [] then [] else (if Matches(sel, ts[0]) then [ts[0]] else []) + Selected(ts[1..], sel)
  }

  /** The other transfers, in unchanged order. */
  function Unselected(ts: seq<Transfer>, sel: Selector): seq<Transfer>
  {
    if ts == [] then [] else (if Matches(sel, ts[0]) then [] else [ts[0]]) + Unselected(ts[1..], sel)
  }

  /** Every payload arrived with the length the client expects. */
  ghost predicate Answered(ts: seq<Transfer>, ws: Waits)
  {
    forall t :: t in ts ==> ReplyTo(ws, t.id).Data? && |ReplyTo(ws, t.id).bytes| == Expected(t)
  }

  /** Payloads delivered one after the other. */
  ghost function DeliverAll(host: seq<byte>, ts: seq<Transfer>, ws: Waits): (r: seq<byte>)
    requires Answered(ts, ws)
    ensures |r| == |host|
    decreases |ts|
  {
    if ts == [] then host
    else
      assert ts[0] in ts;
      DeliverAll(Deliver(host, ts[0], ReplyTo(ws, ts[0].id).bytes), ts[1..], ws)
  }

  /** Address `a` belongs to the destination of one of the payloads. */
  ghost predicate Reached(ts: seq<Transfer>, a: nat)
  {
    exists t :: t in ts && t.toHost && t.shape.Covers(t.at, a)
  }

  /** Host memory outside every payload's destination is untouched. */
  lemma {:induction false} DeliverOutside(host: seq<byte>, ts: seq<Transfer>, ws: Waits, a: nat)
    requires Answered(ts, ws) && a < |host| && !Reached(ts, a)
    ensures DeliverAll(host, ts, ws)[a] == host[a]
    decreases |ts|
  {
    if ts != [] {
      var t := ts[0];
      assert t in ts;
      hide Scatter;
      if t.toHost { ScatterOutside(host, t.at, t.shape, ReplyTo(ws, t.id).bytes, a); }
      assert forall u :: u in ts[1..] ==> u in ts;
      DeliverOutside(Deliver(host, t, ReplyTo(ws, t.id).bytes), ts[1..], ws, a);
    }
  }

  lemma {:induction false} SelectedElements(ts: seq<Transfer>, sel: Selector)
    ensures forall t :: t in Selected(ts, sel) <==> t in ts && Matches(sel, t)
    ensures forall t :: t in Unselected(ts, sel) <==> t in ts && !Matches(sel, t)
  {
    if ts != [] {
      SelectedElements(ts[1..], sel);
      assert ts == [ts[0]] + ts[1..];
    }
  }

  lemma {:induction false} SelectedNone(ts: seq<Transfer>, sel: Selector)
    requires FirstMatch(ts, sel) == |ts|
    ensures Selected(ts, sel) == [] && Unselected(ts, sel) == ts
  {
    if ts != [] {
      SelectedNone(ts[1..], sel);
    }
  }

  /** Removing the first matching transfer takes one off the front of the selection. */
  lemma {:induction false} SelectedFirst(ts: seq<Transfer>, sel: Selector, k: nat)
    requires k == FirstMatch(ts, sel) && k < |ts|
    ensures Selected(ts, sel) == [ts[k]] + Selected(Without(ts, k), sel)
    ensures Unselected(ts, sel) == Unselected(Without(ts, k), sel)
  {
    hide Matches;
    if Matches(sel, ts[0]) {
      assert Without(ts, 0) == ts[1..];
    } else {
      var rest := ts[1..];
      SelectedFirst(rest, sel, k - 1);
      var less := Without(rest, k - 1);
      assert Without(ts, k) == [ts[0]] + less;
      SelectedAfter(ts[0], less, sel);
    }
  }

  lemma SelectedAfter(t: Transfer, ts: seq<Transfer>, sel: Selector)
    requires !Matches(sel, t)
    ensures Selected([t] + ts, sel) == Selected(ts, sel) && Unselected([t] + ts, sel) == [t] + Unselected(ts, sel)
  {
    hide Matches;
    assert ([t] + ts)[1..] == ts;
  }

  /**
   A drain succeeds exactly when every selected transfer is answered. Then the
   selected transfers are gone, the others are untouched and in the same order,
   and host memory is the submit-order fold of the selected payloads.
   */
  lemma {:induction false} DrainExact(c: Client, sel: Selector, ws: Waits)
    ensures Drain(c, sel, ws).1 == Done <==> Answered(Selected(c.pending, sel), ws)
    ensures Drain(c, sel, ws).1 == Done ==>
              Drain(c, sel, ws).0 == c.(pending := Unselected(c.pending, sel),
                                        host := DeliverAll(c.host, Selected(c.pending, sel), ws))
    decreases |c.pending|
  {
    var k := FirstMatch(c.pending, sel);
    if k == |c.pending| {
      SelectedNone(c.pending, sel);
    } else {
      SelectedFirst(c.pending, sel, k);
      var t := c.pending[k];
      var rest := Selected(Without(c.pending, k), sel);
      assert Selected(c.pending, sel) == [t] + rest;
      assert Answered([t] + rest, ws) <==> Answered([t], ws) && Answered(rest, ws);
      if Answered([t], ws) {
        assert t in [t];
        var c1 := c.(pending := Without(c.pending, k), host := Deliver(c.host, t, ReplyTo(ws, t.id).bytes));
        DrainExact(c1, sel, ws);
        assert ([t] + rest)[0] == t && ([t] + rest)[1..] == rest;
      } else {
        assert !(ReplyTo(ws, t.id).Data? && |ReplyTo(ws, t.id).bytes| == Expected(t));
      }
    }
  }

  /** `end` is `c` after retiring the first `n` selected transfers and nothing else. */
  ghost predicate PartlyDrained(c: Client, end: Client, sel: Selector, ws: Waits, n: nat)
  {
    && n <= |Selected(c.pending, sel)|
    && Answered(Selected(c.pending, sel)[..n], ws)
    && Selected(end.pending, sel) == Selected(c.pending, sel)[n..]
    && Unselected(end.pending, sel) == Unselected(c.pending, sel)
    && end == c.(pending := end.pending, host := DeliverAll(c.host, Selected(c.pending, sel)[..n], ws))
  }

  /** The client once the answered transfer `k` is retired. */
  ghost function RetiredAt(c: Client, k: nat, ws: Waits): Client
    requires k < |c.pending| && Answered([c.pending[k]], ws)
  {
    var t := c.pending[k];
    assert t in [t];
    c.(pending := Without(c.pending, k), host := Deliver(c.host, t, ReplyTo(ws, t.id).bytes))
  }

  lemma PartlyDrainedStep(c: Client, end: Client, sel: Selector, ws: Waits, k: nat, m: nat)
    requires k == FirstMatch(c.pending, sel) && k < |c.pending| && Answered([c.pending[k]], ws)
    requires PartlyDrained(RetiredAt(c, k, ws), end, sel, ws, m)
    ensures PartlyDrained(c, end, sel, ws, m + 1)
  {
    hide Deliver, Matches, Selected, Unselected;
    SelectedFirst(c.pending, sel, k);
    var t := c.pending[k];
    var all, rest := Selected(c.pending, sel), Selected(Without(c.pending, k), sel);
    assert all[..m + 1] == [t] + rest[..m];
    assert all[..m + 1][0] == t && all[..m + 1][1..] == rest[..m];
    assert all[m + 1..] == rest[m..];
  }

  lemma PartlyDrainedNone(c: Client, sel: Selector, ws: Waits)
    ensures PartlyDrained(c, c, sel, ws, 0)
  {
    assert Selected(c.pending, sel)[..0] == [];
    assert Selected(c.pending, sel)[0..] == Selected(c.pending, sel);
  }

  /** A drain that fails short of losing the session leaves an earlier stage of the same retirement. */
  lemma {:induction false} DrainFailedIsPrefix(c: Client, sel: Selector, ws: Waits) returns (n: nat)
    requires Drain(c, sel, ws).1 == Failed && Drain(c, sel, ws).0.active
    ensures PartlyDrained(c, Drain(c, sel, ws).0, sel, ws, n)
    ensures n < |Selected(c.pending, sel)|
    decreases |c.pending|
  {
    hide Drain, Answered, RetiredAt, Selected, Unselected, PartlyDrained;
    FailedDrain(c, sel, ws);
    var k := FirstMatch(c.pending, sel);
    SelectedFirst(c.pending, sel, k);
    if Answered([c.pending[k]], ws) {
      var m := DrainFailedIsPrefix(RetiredAt(c, k, ws), sel, ws);
      PartlyDrainedStep(c, Drain(c, sel, ws).0, sel, ws, k, m);
      SelectedRetired(c, k, ws, sel);
      n := m + 1;
    } else {
      PartlyDrainedNone(c, sel, ws);
      n := 0;
    }
  }

  /** A failed drain either retires its first transfer and fails later, or fails there and then. */
  lemma FailedDrain(c: Client, sel: Selector, ws: Waits)
    requires Drain(c, sel, ws).1 == Failed && Drain(c, sel, ws).0.active
    ensures
      var k := FirstMatch(c.pending, sel);
      && k < |c.pending|
      && (Answered([c.pending[k]], ws) ==> Drain(c, sel, ws) == Drain(RetiredAt(c, k, ws), sel, ws))
      && (Answered([c.pending[k]], ws) ==> |RetiredAt(c, k, ws).pending| < |c.pending|)
      && (!Answered([c.pending[k]], ws) ==> Drain(c, sel, ws).0 == c)
  {
    hide Deliver, Expected, Matches;
    var k := FirstMatch(c.pending, sel);
    if k < |c.pending| {
      var t := c.pending[k];
      assert t in [t];
      assert Answered([t], ws) <==> ReplyTo(ws, t.id).Data? && |ReplyTo(ws, t.id).bytes| == Expected(t);
    }
  }

  lemma SelectedRetired(c: Client, k: nat, ws: Waits, sel: Selector)
    requires k < |c.pending| && Answered([c.pending[k]], ws)
    ensures RetiredAt(c, k, ws).pending == Without(c.pending, k)
  {
    hide Deliver;
  }
}
