/**
 The hidden-transfer table as the client keeps it: a fixed array of slots filled
 and cleared in any order, searched for the oldest match, proved against the
 submit-ordered list of pending transfers.
 */
module TransferTable {
  import opened Bytes
  import opened Causality
  import opened Frontiers
  import opened Pitched

  datatype Slot = Free | Held(t: Transfer)

  /** The slots hold exactly the pending transfers, each once. */
  ghost predicate Represents(slots: seq<Slot>, pending: seq<Transfer>)
  {
    && (forall i, j :: 0 <= i < j < |pending| ==> pending[i].order < pending[j].order)
    && (forall t :: t in pending ==> Held(t) in slots)
    && (forall i :: 0 <= i < |slots| && slots[i].Held? ==> slots[i].t in pending)
    && (forall i, j :: 0 <= i < j < |slots| && slots[i].Held? && slots[j].Held? ==> slots[i].t.order != slots[j].t.order)
  }

  predicate Picks(slot: Slot, sel: Selector) { slot.Held? && Matches(sel, slot.t) }

  /** Index `i` holds a match and no match in the first `n` slots is older. */
  ghost predicate OldestOf(slots: seq<Slot>, sel: Selector, n: nat, i: nat)
    requires n <= |slots|
  {
    && i < n && Picks(slots[i], sel)
    && forall j :: 0 <= j < n && Picks(slots[j], sel) ==> slots[i].t.order <= slots[j].t.order
  }

  ghost predicate NoneOf(slots: seq<Slot>, sel: Selector, n: nat)
    requires n <= |slots|
  {
    forall j :: 0 <= j < n ==> !Picks(slots[j], sel)
  }

  /** The slot with the least submit order is the first match of the ordered list. */
  lemma OldestIsFirst(slots: seq<Slot>, pending: seq<Transfer>, sel: Selector, i: nat)
    requires Represents(slots, pending) && OldestOf(slots, sel, |slots|, i)
    ensures FirstMatch(pending, sel) < |pending| && pending[FirstMatch(pending, sel)] == slots[i].t
  {
    var t := slots[i].t;
    forall q | 0 <= q < |pending| && Matches(sel, pending[q])
      ensures t.order <= pending[q].order
    {
      assert Held(pending[q]) in slots;
      var j :| 0 <= j < |slots| && slots[j] == Held(pending[q]);
      assert Picks(slots[j], sel);
    }
    assert t in pending;
  }

  lemma NoneIsLast(slots: seq<Slot>, pending: seq<Transfer>, sel: Selector)
    requires Represents(slots, pending) && NoneOf(slots, sel, |slots|)
    ensures FirstMatch(pending, sel) == |pending|
  {
    forall q | 0 <= q < |pending|
      ensures !Matches(sel, pending[q])
    {
      assert Held(pending[q]) in slots;
      var j :| 0 <= j < |slots| && slots[j] == Held(pending[q]);
      assert !Picks(slots[j], sel);
    }
  }

  lemma WithoutElements(pending: seq<Transfer>, k: nat)
    requires k < |pending| && forall i, j :: 0 <= i < j < |pending| ==> pending[i].order < pending[j].order
    ensures
      var less := Without(pending, k);
      && (forall t :: t in less <==> t in pending && t != pending[k])
      && (forall i, j :: 0 <= i < j < |less| ==> less[i].order < less[j].order)
  {
    var less := Without(pending, k);
    forall t | t in pending && t != pending[k] ensures t in less {
      var p :| 0 <= p < |pending| && pending[p] == t;
      assert p < k ==> less[p] == t;
      assert p > k ==> less[p - 1] == t;
    }
    forall t | t in less ensures t in pending && t != pending[k] {
      var p :| 0 <= p < |less| && less[p] == t;
      assert t == pending[if p < k then p else p + 1];
    }
  }

  lemma FreedRepresents(slots: seq<Slot>, pending: seq<Transfer>, i: nat, k: nat)
    requires Represents(slots, pending) && i < |slots| && k < |pending| && slots[i] == Held(pending[k])
    ensures Represents(slots[i := Free], Without(pending, k))
  {
    WithoutElements(pending, k);
    var less, s := Without(pending, k), slots[i := Free];
    forall t | t in less ensures Held(t) in s {
      assert Held(t) in slots;
      var j :| 0 <= j < |slots| && slots[j] == Held(t);
      assert s[j] == Held(t);
    }
    forall j | 0 <= j < |s| && s[j].Held? ensures s[j].t in less {
      assert slots[j].t in pending;
    }
  }

  lemma FilledRepresents(slots: seq<Slot>, pending: seq<Transfer>, i: nat, t: Transfer)
    requires Represents(slots, pending) && i < |slots| && slots[i].Free?
    requires forall p :: p in pending ==> p.order < t.order
    ensures Represents(slots[i := Held(t)], pending + [t])
  {
    var s, more := slots[i := Held(t)], pending + [t];
    forall u | u in more ensures Held(u) in s {
      if u == t {
        assert s[i] == Held(t);
      } else {
        assert Held(u) in slots;
        var j :| 0 <= j < |slots| && slots[j] == Held(u);
        assert s[j] == Held(u);
      }
    }
    forall j | 0 <= j < |s| && s[j].Held? ensures s[j].t in more {
      assert j != i ==> slots[j].t in pending;
    }
  }

  function LiveCount(slots: seq<Slot>): nat
  {
    if slots == [] then 0 else LiveCount(slots[..|slots| - 1]) + if slots[|slots| - 1].Held? then 1 else 0
  }

  lemma {:induction false} LiveCountFreed(slots: seq<Slot>, i: nat)
    requires i < |slots| && slots[i].Held?
    ensures LiveCount(slots) == LiveCount(slots[i := Free]) + 1
  {
    var n := |slots| - 1;
    if i < n {
      LiveCountFreed(slots[..n], i);
      assert slots[i := Free][..n] == slots[..n][i := Free];
    } else {
      assert slots[i := Free][..n] == slots[..n];
    }
  }

  lemma {:induction false} LiveCountZero(slots: seq<Slot>)
    ensures LiveCount(slots) == 0 <==> forall i :: 0 <= i < |slots| ==> slots[i].Free?
    ensures LiveCount(slots) <= |slots|
    ensures LiveCount(slots) == |slots| <==> forall i :: 0 <= i < |slots| ==> slots[i].Held?
  {
    if slots != [] {
      var n := |slots| - 1;
      LiveCountZero(slots[..n]);
      assert forall i :: 0 <= i < n ==> slots[..n][i] == slots[i];
    }
  }

  /** The table holds as many live slots as there are pending transfers, so it is full only at capacity. */
  lemma {:induction false} LiveCountIsPending(slots: seq<Slot>, pending: seq<Transfer>)
    requires Represents(slots, pending)
    ensures LiveCount(slots) == |pending|
    ensures (exists i :: 0 <= i < |slots| && slots[i].Free?) <==> |pending| < |slots|
    decreases |pending|
  {
    LiveCountZero(slots);
    if pending != [] {
      var k := |pending| - 1;
      assert pending[k] in pending;
      var i :| 0 <= i < |slots| && slots[i] == Held(pending[k]);
      FreedRepresents(slots, pending, i, k);
      LiveCountIsPending(slots[i := Free], Without(pending, k));
      LiveCountFreed(slots, i);
    }
  }

  // ---------------------------------------------------------------------
  // The connection
  // ---------------------------------------------------------------------

  datatype Call = Asked(id: nat) | Waited(id: nat)
  datatype State = IsReady | IsPending | AskError | AskLost

  /** Requests about transfers. Which copies the device has finished when a request arrives is up to the device. */
  class Link {
    const finished: nat -> set<nat>
    const broken: map<nat, State>
    const waits: Waits
    var log: seq<Call>

    constructor (finished: nat -> set<nat>, broken: map<nat, State>, waits: Waits)
      ensures this.finished == finished && this.broken == broken && this.waits == waits && log == []
    {
      this.finished, this.broken, this.waits, log := finished, broken, waits, [];
    }

    /** A finished copy stays finished. */
    ghost predicate Monotone()
    {
      forall i: nat, j: nat :: i <= j ==> finished(i) <= finished(j)
    }

    /** The request that arrives as number `k` is refused, or loses the connection. */
    predicate Breaks(k: nat) { k in broken && (broken[k] == AskError || broken[k] == AskLost) }

    /** None of the next `n` requests after number `from` breaks. */
    ghost predicate Unbroken(from: nat, n: nat)
    {
      forall k: nat :: from <= k < from + n ==> !Breaks(k)
    }

    method Ask(id: nat) returns (s: State)
      modifies this
      ensures log == old(log) + [Asked(id)]
      ensures s == if Breaks(|old(log)|) then broken[|old(log)|]
                   else if id in finished(|old(log)|) then IsReady else IsPending
    {
      if Breaks(|log|) {
        s := broken[|log|];
      } else {
        s := if id in finished(|log|) then IsReady else IsPending;
      }
      log := log + [Asked(id)];
    }

    method Wait(id: nat) returns (r: WaitReply)
      modifies this
      ensures log == old(log) + [Waited(id)]
      ensures r == ReplyTo(waits, id)
    {
      r := ReplyTo(waits, id);
      log := log + [Waited(id)];
    }
  }

  /** Every request since `from` is a wait for one of `ids`. */
  ghost predicate OnlyWaits(log: seq<Call>, from: nat, ids: set<nat>)
  {
    forall k :: from <= k < |log| ==> log[k].Waited? && log[k].id in ids
  }

  /** Every wait since `from` was for a copy that had already finished, so none of them blocked. */
  ghost predicate NeverBlocked(log: seq<Call>, from: nat, finished: nat -> set<nat>)
  {
    forall k: nat :: from <= k < |log| && log[k].Waited? ==> log[k].id in finished(k)
  }

  ghost function Ids(ts: seq<Transfer>, sel: Selector): set<nat>
  {
    set t | t in ts && Matches(sel, t) :: t.id
  }

  /** Some covered copy was unfinished when a request made after `from` arrived. */
  ghost predicate SawUnfinished(link: Link, from: nat, to: nat, f: Frontier, ts: seq<Transfer>)
  {
    exists k: nat, t :: from <= k < to && t in ts && Covered(t, f) && t.id !in link.finished(k)
  }

  /** Every covered copy is finished when request `k` arrives. */
  ghost predicate AllFinished(link: Link, k: nat, f: Frontier, ts: seq<Transfer>)
  {
    forall t :: t in ts && Covered(t, f) ==> t.id in link.finished(k)
  }

  datatype QueryResult = Ready | NotReady | QueryError

  /** Destinations lie inside host memory; their rows may overlap. */
  ghost predicate Deliverable(t: Transfer, size: nat)
  {
    t.toHost ==> t.shape.Fits(t.at, size)
  }

  /** The client after waiting for pending transfer `k`. */
  ghost function Consumed(c: Client, k: nat, ws: Waits): (Client, Outcome)
    requires k < |c.pending|
  {
    var t := c.pending[k];
    match ReplyTo(ws, t.id)
    case WaitLost => (Reset(c), Failed)
    case WaitError => (c, Failed)
    case Data(bytes) =>
      if |bytes| != Expected(t) then (c, Failed)
      else (c.(pending := Without(c.pending, k), host := Deliver(c.host, t, bytes)), Done)
  }

  lemma DrainUnfolds(c: Client, sel: Selector, ws: Waits)
    ensures
      var k := FirstMatch(c.pending, sel);
      Drain(c, sel, ws) ==
        if k == |c.pending| then (c, Done)
        else
          var (c', o) := Consumed(c, k, ws);
          if o == Failed then (c', Failed) else Drain(c', sel, ws)
  {
    hide Deliver, Reset;
  }

  lemma ConsumedShrinks(c: Client, sel: Selector, k: nat, ws: Waits)
    requires k < |c.pending| && Consumed(c, k, ws).1 == Done
    ensures |Consumed(c, k, ws).0.pending| < |c.pending|
    ensures Ids(Consumed(c, k, ws).0.pending, sel) <= Ids(c.pending, sel)
  {
    hide Deliver, Reset;
  }

  // ---------------------------------------------------------------------
  // The table
  // ---------------------------------------------------------------------

  class Table {
    const slots: array<Slot>
    const host: array<byte>

    constructor (capacity: nat, host: array<byte>)
      ensures this.host == host && fresh(slots) && slots.Length == capacity
      ensures Represents(slots[..], [])
    {
      this.host := host;
      slots := new Slot[capacity](_ => Free);
    }

    /** The table and host memory are those of client `c`. */
    ghost predicate Holds(c: Client)
      reads this, slots, host
    {
      && Represents(slots[..], c.pending) && host[..] == c.host
      && forall t :: t in c.pending ==> Deliverable(t, host.Length)
    }

    method FindFree() returns (i: nat)
      ensures i <= slots.Length && (i < slots.Length ==> slots[i].Free?)
      ensures i == slots.Length ==> forall j :: 0 <= j < slots.Length ==> slots[j].Held?
    {
      i := 0;
      while i < slots.Length && slots[i].Held?
        invariant i <= slots.Length && forall j :: 0 <= j < i ==> slots[j].Held?
      {
        i := i + 1;
      }
    }

    method CountLive() returns (n: nat)
      ensures n == LiveCount(slots[..])
    {
      n := 0;
      for i := 0 to slots.Length
        invariant n == LiveCount(slots[..i])
      {
        assert slots[..i + 1][..i] == slots[..i];
        if slots[i].Held? { n := n + 1; }
      }
      assert slots[..slots.Length] == slots[..];
    }

    method Oldest(sel: Selector) returns (found: bool, best: nat)
      ensures found ==> OldestOf(slots[..], sel, slots.Length, best)
      ensures !found ==> NoneOf(slots[..], sel, slots.Length)
    {
      found, best := false, 0;
      for i := 0 to slots.Length
        invariant found ==> OldestOf(slots[..], sel, i, best)
        invariant !found ==> NoneOf(slots[..], sel, i)
      {
        if Picks(slots[i], sel) && (!found || slots[i].t.order < slots[best].t.order) {
          found, best := true, i;
        }
      }
    }

    /** Losing the connection empties the table. */
    method Clear()
      modifies slots
      ensures Represents(slots[..], [])
    {
      for i := 0 to slots.Length
        invariant forall j :: 0 <= j < i ==> slots[j].Free?
      {
        slots[i] := Free;
      }
    }

    /** Deliver one payload to host memory. */
    method Store(t: Transfer, bytes: seq<byte>)
      requires Deliverable(t, host.Length) && |bytes| == Expected(t)
      modifies host
      ensures host[..] == Deliver(old(host[..]), t, bytes)
    {
      if t.toHost {
        ScatterInto(host, t.at, t.shape, bytes);
      }
    }

    /** Wait for one transfer, deliver its payload and clear its slot. */
    method Consume(i: nat, link: Link, ghost c: Client, ghost k: nat) returns (o: Outcome, ghost c': Client)
      requires Holds(c) && i < slots.Length && k < |c.pending| && slots[i] == Held(c.pending[k])
      modifies slots, host, link
      ensures (c', o) == Consumed(c, k, link.waits) && Holds(c')
      ensures link.log == old(link.log) + [Waited(c.pending[k].id)]
    {
      var t := slots[i].t;
      var reply := link.Wait(t.id);
      if reply.WaitLost? {
        Clear();
        return Failed, Reset(c);
      }
      if !reply.Data? || |reply.bytes| != Expected(t) {
        return Failed, c;
      }
      Store(t, reply.bytes);
      FreedRepresents(slots[..], c.pending, i, k);
      WithoutElements(c.pending, k);
      slots[i] := Free;
      return Done, c.(pending := Without(c.pending, k), host := Deliver(c.host, t, reply.bytes));
    }

    /** Retire matching transfers, oldest first, until none is left or a wait fails. */
    method Retire(sel: Selector, link: Link, ghost c: Client) returns (o: Outcome, ghost c': Client)
      requires Holds(c)
      modifies slots, host, link
      ensures (c', o) == Drain(c, sel, link.waits)
      ensures Holds(c')
      ensures old(link.log) <= link.log && OnlyWaits(link.log, |old(link.log)|, Ids(c.pending, sel))
    {
      hide Drain, Consumed, Represents, NoneOf;
      o, c' := Done, c;
      ghost var start := link.log;
      var found, i := Oldest(sel);
      while found
        invariant o == Done && Holds(c') && Drain(c', sel, link.waits) == Drain(c, sel, link.waits)
        invariant if found then OldestOf(slots[..], sel, slots.Length, i) else NoneOf(slots[..], sel, slots.Length)
        invariant Ids(c'.pending, sel) <= Ids(c.pending, sel)
        invariant start <= link.log && OnlyWaits(link.log, |start|, Ids(c.pending, sel))
        decreases |c'.pending|
      {
        OldestIsFirst(slots[..], c'.pending, sel, i);
        ghost var k := FirstMatch(c'.pending, sel);
        DrainUnfolds(c', sel, link.waits);
        assert c'.pending[k].id in Ids(c'.pending, sel);
        ghost var prior := c';
        o, c' := Consume(i, link, c', k);
        if o == Failed { return; }
        ConsumedShrinks(prior, sel, k, link.waits);
        found, i := Oldest(sel);
      }
      NoneIsLast(slots[..], c'.pending, sel);
      DrainUnfolds(c', sel, link.waits);
    }

    /** Enter a transfer submitted after every pending one, unless the table is full. */
    method Enter(t: Transfer, ghost c: Client) returns (ok: bool)
      requires Holds(c) && Deliverable(t, host.Length) && forall p :: p in c.pending ==> p.order < t.order
      modifies slots
      ensures ok <==> |c.pending| < slots.Length
      ensures Holds(if ok then c.(pending := c.pending + [t]) else c)
    {
      LiveCountIsPending(slots[..], c.pending);
      var i := FindFree();
      ok := i < slots.Length;
      if ok {
        assert slots[..][i].Free?;
        FilledRepresents(slots[..], c.pending, i, t);
        slots[i] := Held(t);
      } else {
        assert forall j :: 0 <= j < |slots[..]| ==> slots[..][j].Held?;
      }
    }

    /**
     Ask about every covered transfer in table order; stop at the first that is not
     finished. The answer is an error exactly when the last request broke.
     */
    method Poll(f: Frontier, link: Link, ghost c: Client) returns (s: State)
      requires Holds(c)
      modifies link
      ensures old(link.log) <= link.log && forall k :: |old(link.log)| <= k < |link.log| ==> link.log[k].Asked?
      ensures |link.log| <= |old(link.log)| + slots.Length
      ensures s == IsPending ==> SawUnfinished(link, |old(link.log)|, |link.log|, f, c.pending)
      ensures s == IsReady && link.Monotone() ==> AllFinished(link, |link.log|, f, c.pending)
      ensures s == AskError || s == AskLost ==>
                |old(link.log)| < |link.log| && link.Breaks(|link.log| - 1) && s == link.broken[|link.log| - 1]
    {
      ghost var start := link.log;
      for i := 0 to slots.Length
        invariant start <= link.log && forall k :: |start| <= k < |link.log| ==> link.log[k].Asked?
        invariant |link.log| <= |start| + i
        invariant link.Monotone() ==>
                    forall j :: 0 <= j < i && Picks(slots[j], Behind(f)) ==> slots[j].t.id in link.finished(|link.log|)
      {
        if Picks(slots[i], Behind(f)) {
          ghost var now: nat := |link.log|;
          s := link.Ask(slots[i].t.id);
          if s != IsReady {
            if s == IsPending {
              assert slots[..][i].t in c.pending;
              assert now < |link.log| && slots[i].t.id !in link.finished(now);
            }
            return;
          }
          assert link.Monotone() ==> link.finished(now) <= link.finished(now + 1);
        }
      }
      s := IsReady;
      forall t | t in c.pending && Covered(t, f) && link.Monotone()
        ensures t.id in link.finished(|link.log|)
      {
        assert Held(t) in slots[..];
        var j :| 0 <= j < slots.Length && slots[j] == Held(t);
        assert Picks(slots[j], Behind(f));
      }
    }

    /**
     A query consumes nothing unless every covered transfer has answered ready.
     Then it retires all of them, and each wait is for a copy already finished.
     Unless a request breaks, the answer is not ready with nothing consumed, or
     the drain; and the drain is what happens when everything had finished.
     */
    method RetireIfReady(f: Frontier, link: Link, ghost c: Client) returns (r: QueryResult, ghost c': Client)
      requires Holds(c)
      modifies slots, host, link
      ensures Holds(c') && old(link.log) <= link.log
      ensures r == NotReady ==> c' == c && SawUnfinished(link, |old(link.log)|, |link.log|, f, c.pending)
      ensures r == Ready ==> (c', Done) == Drain(c, Behind(f), link.waits)
      ensures r == Ready && link.Monotone() ==> AllFinished(link, |link.log|, f, c.pending)
      ensures r == QueryError ==> c' == c || c' == Reset(c) || (c', Failed) == Drain(c, Behind(f), link.waits)
      ensures link.Monotone() && !AllFinished(link, |link.log|, f, c.pending) ==> r != Ready && (c' == c || c' == Reset(c))
      ensures link.Unbroken(|old(link.log)|, slots.Length) ==>
                r == NotReady || (c', if r == Ready then Done else Failed) == Drain(c, Behind(f), link.waits)
      ensures link.Unbroken(|old(link.log)|, slots.Length) && link.Monotone() && AllFinished(link, |old(link.log)|, f, c.pending) ==>
                (c', if r == Ready then Done else Failed) == Drain(c, Behind(f), link.waits)
      ensures link.Monotone() ==> NeverBlocked(link.log, |old(link.log)|, link.finished)
    {
      hide Drain;
      ghost var start := |link.log|;
      var s := Poll(f, link, c);
      ghost var asked := link.log;
      c' := c;
      PollMeans(link, start, |asked|, f, c.pending);
      match s
      case IsPending => r := NotReady;
      case AskError => r := QueryError;
      case AskLost =>
        Clear();
        r, c' := QueryError, Reset(c);
      case IsReady =>
        var o;
        o, c' := Retire(Behind(f), link, c);
        r := if o == Done then Ready else QueryError;
        FinishedBefore(link, asked, f, c);
        PollMeans(link, |asked|, |link.log|, f, c.pending);
    }
  }

  /** What is finished stays so, and what was seen unfinished had not been finished before. */
  lemma PollMeans(link: Link, from: nat, to: nat, f: Frontier, ts: seq<Transfer>)
    requires from <= to
    ensures link.Monotone() && SawUnfinished(link, from, to, f, ts) ==> !AllFinished(link, from, f, ts)
    ensures link.Monotone() && AllFinished(link, from, f, ts) ==> AllFinished(link, to, f, ts)
  {
    if link.Monotone() {
      forall k: nat | from <= k ensures link.finished(from) <= link.finished(k) {}
    }
  }

  lemma FinishedBefore(link: Link, asked: seq<Call>, f: Frontier, c: Client)
    requires asked <= link.log && OnlyWaits(link.log, |asked|, Ids(c.pending, Behind(f)))
    requires link.Monotone() ==> forall t :: t in c.pending && Covered(t, f) ==> t.id in link.finished(|asked|)
    ensures link.Monotone() ==> NeverBlocked(link.log, |asked|, link.finished)
  {
    if link.Monotone() {
      forall k: nat | |asked| <= k < |link.log| && link.log[k].Waited?
        ensures link.log[k].id in link.finished(k)
      {
        assert link.log[k].id in Ids(c.pending, Behind(f));
        assert link.finished(|asked|) <= link.finished(k);
      }
    }
  }
}
