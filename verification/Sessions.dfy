/**
 Client and server across sessions. Every connection starts a server session
 whose identifiers begin again at 1; client handles remember the generation they
 were made in. A failure or a shutdown ends the session and nothing is replayed.
 */
module Sessions {
  import opened Bytes

  datatype Kind = Stream | Event | Module | Kernel | Memory | Copy

  /** A server identifier, marked with the session that issued it. Only `n` travels and only `n` is compared. */
  datatype Tag = Tag(session: nat, n: nat)

  datatype Info =
    | Plain
    | Span(size: nat, parent: Tag)           // device memory; parent 0 unless it is a module's variable
    | Payload(bytes: nat, toHost: bool)      // a hidden transfer
    | Entry(owner: Tag)                      // a kernel of a module

  datatype Handle = Handle(kind: Kind, live: bool, gen: nat, id: Tag, info: Info)

  /** Handles are never moved. `gen` is the active generation, 0 without a session; `nextGen` is a 64-bit counter. */
  datatype Client = Client(gen: nat, nextGen: nat, handles: seq<Handle>)

  datatype Key = Key(kind: Kind, n: nat)

  datatype Record =
    | Native
    | Storage(ptr: nat, size: nat, parent: nat)
    | Staging(bytes: nat, toHost: bool)
    | Function(owner: nat)

  datatype Server = Server(records: map<Key, Record>, next: map<Kind, nat>)

  /** A request carried identifier `id` in session `session`. */
  datatype Sent = Sent(session: nat, id: Tag)

  /** `gens` lists the generation of every session so far. */
  datatype World = World(c: Client, s: Server, session: nat, log: seq<Sent>, gens: seq<nat>)

  function Capacity(kind: Kind): nat
  {
    match kind
    case Stream => 64
    case Event => 128
    case Module => 32
    case Kernel => 128
    case Memory => 64
    case Copy => 128
  }

  // ---------------------------------------------------------------------
  // Server handlers
  // ---------------------------------------------------------------------

  const FRESH: Server :=
    Server(map[], map[Stream := 1, Event := 1, Module := 1, Kernel := 1, Memory := 1, Copy := 1])

  /** What the driver answers while a request is handled. */
  datatype Driver = Driver(barrier: bool, ok: bool, ptr: nat, size: nat)

  datatype Reply = Refused | Created(n: nat, size: nat) | Fine | Returned(len: nat)

  ghost predicate Room(s: Server, kind: Kind)
  {
    |set k | k in s.records && k.kind == kind| < Capacity(kind)
  }

  function NextOf(s: Server, kind: Kind): nat { if kind in s.next then s.next[kind] else 1 }

  function Put(s: Server, kind: Kind, r: Record): Server
  {
    Server(s.records[Key(kind, NextOf(s, kind)) := r], s.next[kind := NextOf(s, kind) + 1])
  }

  /** Slots are taken before the driver is asked, except for modules and kernels. */
  function Spoil(s: Server, kind: Kind): Server
  {
    if kind == Module || kind == Kernel then s else s.(next := s.next[kind := NextOf(s, kind) + 1])
  }

  /** A record already made for this module variable. */
  ghost predicate Known(s: Server, owner: nat, ptr: nat, n: nat)
  {
    && Key(Memory, n) in s.records && s.records[Key(Memory, n)].Storage?
    && s.records[Key(Memory, n)].parent == owner && s.records[Key(Memory, n)].ptr == ptr
  }

  function RecordOf(kind: Kind, owner: nat, size: nat, toHost: bool, ptr: nat): Record
  {
    match kind
    case Memory => Storage(ptr, size, owner)
    case Copy => Staging(size, toHost)
    case Kernel => Function(owner)
    case Stream => Native
    case Event => Native
    case Module => Native
  }

  ghost function ServeNew(s: Server, kind: Kind, owner: nat, size: nat, toHost: bool, d: Driver): (Server, Reply)
  {
    if kind == Memory && owner != 0 && d.ok && (exists n :: Known(s, owner, d.ptr, n)) then
      var n :| Known(s, owner, d.ptr, n);
      (s, Created(n, s.records[Key(Memory, n)].size))
    else ServeFresh(s, kind, owner, size, toHost, d)
  }

  ghost function ServeFresh(s: Server, kind: Kind, owner: nat, size: nat, toHost: bool, d: Driver): (Server, Reply)
  {
    if !Room(s, kind) then (s, Refused)
    else if !d.ok then (if kind == Memory && owner != 0 then s else Spoil(s, kind), Refused)
    else
      var actual := if kind == Memory && owner != 0 then d.size else size;
      (Put(s, kind, RecordOf(kind, owner, actual, toHost, d.ptr)), Created(NextOf(s, kind), actual))
  }

  predicate FunctionOf(r: Record, owner: nat) { r.Function? && r.owner == owner }
  predicate VariableOf(r: Record, owner: nat) { r.Storage? && r.parent == owner }

  function WithoutKernels(s: Server, owner: nat): Server
  {
    s.(records := map k | k in s.records && !FunctionOf(s.records[k], owner) :: s.records[k])
  }

  function WithoutModule(s: Server, owner: nat): Server
  {
    s.(records := map k | k in s.records && !FunctionOf(s.records[k], owner) && !VariableOf(s.records[k], owner)
                          && k != Key(Module, owner) :: s.records[k])
  }

  /** Free, destroy or unload. A module's kernels go before the driver is asked to unload it. */
  function ServeDrop(s: Server, k: Key, d: Driver): (Server, Reply)
  {
    if k !in s.records || k.kind == Kernel || k.kind == Copy then (s, Refused)
    else if k.kind == Memory && s.records[k].Storage? && s.records[k].parent != 0 then (s, Refused)
    else if !d.barrier then (s, Refused)
    else if k.kind == Module then
      if d.ok then (WithoutModule(s, k.n), Fine) else (WithoutKernels(s, k.n), Refused)
    else if !d.ok then (s, Refused)
    else (s.(records := s.records - {k}), Fine)
  }

  function ServeAwait(s: Server, n: nat, d: Driver): (Server, Reply)
  {
    var k := Key(Copy, n);
    if k !in s.records || !d.barrier then (s, Refused)
    else
      (s.(records := s.records - {k}),
       Returned(if s.records[k].Staging? && s.records[k].toHost then s.records[k].bytes else 0))
  }

  // ---------------------------------------------------------------------
  // Client
  // ---------------------------------------------------------------------

  const NOBODY := Tag(0, 0)

  predicate Resolves(c: Client, i: nat)
  {
    i < |c.handles| && c.handles[i].live && c.gen != 0 && c.handles[i].gen == c.gen
  }

  function Dead(h: Handle): Handle { h.(live := false) }

  /** A failure kills every handle of the failed generation. */
  function Failed(c: Client): Client
  {
    Client(0, c.nextGen,
           seq(|c.handles|, i requires 0 <= i < |c.handles| =>
             if c.handles[i].gen == c.gen then Dead(c.handles[i]) else c.handles[i]))
  }

  /** A shutdown kills every handle. */
  function Closed(c: Client): Client
  {
    Client(0, c.nextGen, seq(|c.handles|, i requires 0 <= i < |c.handles| => Dead(c.handles[i])))
  }

  function Added(c: Client, kind: Kind, id: Tag, info: Info): Client
  {
    c.(handles := c.handles + [Handle(kind, true, c.gen, id, info)])
  }

  function Killed(c: Client, i: nat): Client
    requires i < |c.handles|
  {
    c.(handles := c.handles[i := Dead(c.handles[i])])
  }

  /** The client's view of an unloaded module: its kernels and variables, and itself. */
  predicate Unloaded(c: Client, h: Handle, n: nat)
  {
    (h.kind == Kernel && h.info.Entry? && h.info.owner.n == n)
    || (h.kind == Memory && h.info.Span? && h.gen == c.gen && h.info.parent.n == n)
  }

  function KilledModule(c: Client, i: nat, n: nat): Client
    requires i < |c.handles|
  {
    c.(handles := seq(|c.handles|, j requires 0 <= j < |c.handles| =>
                    if j == i || Unloaded(c, c.handles[j], n) then Dead(c.handles[j]) else c.handles[j]))
  }

  // ---------------------------------------------------------------------
  // Requests
  // ---------------------------------------------------------------------

  /** Whether the connection survives the request, and if not, whether the server had acted on it. */
  datatype Net = Delivered | LostBefore | LostAfter

  /** `names` are positions in the list of handles the call resolved when it started. */
  datatype Action =
    | Use(names: seq<nat>, ok: bool, net: Net)
    | New(kind: Kind, names: seq<nat>, size: nat, toHost: bool, slot: bool, driver: Driver, net: Net)
    | Drop(name: nat, others: seq<nat>, driver: Driver, net: Net)
    | Await(i: nat, driver: Driver, net: Net)

  datatype Taken = Taken(i: nat, h: Handle)

  function Names(ts: seq<Taken>, names: seq<nat>): seq<Taken>
  {
    if names == [] then []
    else (if names[0] < |ts| then [ts[names[0]]] else []) + Names(ts, names[1..])
  }

  function Logged(w: World, ts: seq<Taken>): World
  {
    w.(log := w.log + seq(|ts|, k requires 0 <= k < |ts| => Sent(w.session, ts[k].h.id)))
  }

  function Lost(w: World): World { w.(c := Failed(w.c)) }

  /** Every identifier the request names must be found. */
  predicate Found(s: Server, ts: seq<Taken>)
  {
    forall t :: t in ts ==> Key(t.h.kind, t.h.id.n) in s.records
  }

  /** The module a new kernel or variable belongs to. */
  function OwnerOf(kind: Kind, ts: seq<Taken>): Tag
  {
    if (kind == Kernel || kind == Memory) && ts != [] && ts[0].h.kind == Module then ts[0].h.id else NOBODY
  }

  function InfoOf(kind: Kind, owner: Tag, size: nat, toHost: bool): Info
  {
    match kind
    case Memory => Span(size, owner)
    case Copy => Payload(size, toHost)
    case Kernel => Entry(owner)
    case Stream => Plain
    case Event => Plain
    case Module => Plain
  }

  /**
   A module variable is accepted only with the size the program declared. `slot` says
   whether the client still finds a place for the new handle once the answer is in.
   */
  ghost function NewAction(w: World, ts: seq<Taken>, kind: Kind, size: nat, toHost: bool, slot: bool, d: Driver, net: Net)
    : (World, bool)
  {
    var owner := OwnerOf(kind, ts);
    var (s, reply) :=
      if !Found(w.s, ts) || (kind == Kernel && owner.n == 0) then (w.s, Refused)
      else ServeNew(w.s, kind, owner.n, size, toHost, d);
    if net == LostBefore then (Lost(w), false)
    else if net == LostAfter then (Lost(w.(s := s)), false)
    else if !reply.Created? then (w.(s := s), false)
    else if !slot || (kind == Memory && owner.n != 0 && reply.size != size) then (w.(s := s), false)
    else (w.(s := s, c := Added(w.c, kind, Tag(w.session, reply.n), InfoOf(kind, owner, reply.size, toHost))), true)
  }

  /** Module variables are never freed on their own. */
  function DropAction(w: World, t: Taken, others: seq<Taken>, d: Driver, net: Net): (World, bool)
    requires t.i < |w.c.handles|
  {
    if t.h.kind == Kernel || t.h.kind == Copy || (t.h.info.Span? && t.h.info.parent.n != 0) then (w, false)
    else
      var (s, reply) := if Found(w.s, others) then ServeDrop(w.s, Key(t.h.kind, t.h.id.n), d) else (w.s, Refused);
      if net == LostBefore then (Lost(w), false)
      else if net == LostAfter then (Lost(w.(s := s)), false)
      else if reply != Fine then (w.(s := s), false)
      else
        (w.(s := s, c := if t.h.kind == Module then KilledModule(w.c, t.i, t.h.id.n) else Killed(w.c, t.i)), true)
  }

  /** A payload of unexpected length is an error, although the server has already let the transfer go. */
  function AwaitAction(w: World, i: nat, d: Driver, net: Net): (World, bool)
    requires i < |w.c.handles|
  {
    var h := w.c.handles[i];
    var (s, reply) := ServeAwait(w.s, h.id.n, d);
    if net == LostBefore then (Lost(w), false)
    else if net == LostAfter then (Lost(w.(s := s)), false)
    else if !reply.Returned? then (w.(s := s), false)
    else if !h.info.Payload? || reply.len != (if h.info.toHost then h.info.bytes else 0) then (w.(s := s), false)
    else (w.(s := s, c := Killed(w.c, i)), true)
  }

  function UseAction(w: World, ts: seq<Taken>, ok: bool, net: Net): (World, bool)
  {
    if net != Delivered then (Lost(w), false) else (w, ok && Found(w.s, ts))
  }

  predicate AwaitsTransfer(c: Client, i: nat) { i < |c.handles| && c.handles[i].live && c.handles[i].kind == Copy }

  /** One request of an API call; the flag says whether the call goes on. */
  ghost function Act(w: World, ts: seq<Taken>, a: Action): (World, bool)
  {
    match a
    case Use(names, ok, net) => UseAction(Logged(w, Names(ts, names)), Names(ts, names), ok, net)
    case New(kind, names, size, toHost, slot, d, net) =>
      NewAction(Logged(w, Names(ts, names)), Names(ts, names), kind, size, toHost, slot, d, net)
    case Drop(p, others, d, net) =>
      if p < |ts| && ts[p].i < |w.c.handles| then
        DropAction(Logged(w, [ts[p]] + Names(ts, others)), ts[p], Names(ts, others), d, net)
      else (w, false)
    case Await(i, d, net) =>
      if AwaitsTransfer(w.c, i) then AwaitAction(Logged(w, [Taken(i, w.c.handles[i])]), i, d, net) else (w, false)
  }

  /** The requests of one call, up to the first that fails. */
  ghost function Acts(w: World, ts: seq<Taken>, actions: seq<Action>): World
    decreases |actions|
  {
    if actions == [] then w
    else
      var (w', more) := Act(w, ts, actions[0]);
      if more then Acts(w', ts, actions[1..]) else w'
  }

  datatype Hello = Negotiated | Legacy | Rejected

  datatype Command =
    | Connect(reached: bool, hello: Hello)
    | Shutdown
    | Call(handles: seq<nat>, actions: seq<Action>)

  predicate AllResolve(c: Client, picks: seq<nat>) { forall k :: 0 <= k < |picks| ==> Resolves(c, picks[k]) }

  function Take(c: Client, picks: seq<nat>): seq<Taken>
    requires AllResolve(c, picks)
  {
    seq(|picks|, k requires 0 <= k < |picks| => Taken(picks[k], c.handles[picks[k]]))
  }

  /** Connecting is lazy, takes the next generation, and is refused for good once the counter has wrapped to 0. */
  function ConnectStep(w: World, reached: bool, hello: Hello): World
  {
    if w.c.gen != 0 || w.c.nextGen == 0 || !reached then w
    else
      var g := w.c.nextGen;
      var w1 := World(w.c.(gen := g, nextGen := (g + 1) % TWO64), FRESH, w.session + 1, w.log, w.gens + [g]);
      if hello == Rejected then Lost(w1) else w1
  }

  ghost function Step(w: World, cmd: Command): World
  {
    match cmd
    case Connect(reached, hello) => ConnectStep(w, reached, hello)
    case Shutdown => w.(c := Closed(w.c))
    case Call(picks, actions) =>
      if w.c.gen != 0 && AllResolve(w.c, picks) then Acts(w, Take(w.c, picks), actions) else w
  }

  ghost function Run(cmds: seq<Command>): World
  {
    if cmds == [] then World(Client(0, 1, []), FRESH, 0, [], [])
    else Step(Run(cmds[..|cmds| - 1]), cmds[|cmds| - 1])
  }

  // ---------------------------------------------------------------------
  // What every run keeps
  // ---------------------------------------------------------------------

  predicate Shaped(kind: Kind, r: Record)
  {
    match kind
    case Memory => r.Storage?
    case Copy => r.Staging?
    case Kernel => r.Function?
    case Stream => r.Native?
    case Event => r.Native?
    case Module => r.Native?
  }

  ghost predicate ServerOk(s: Server)
  {
    && (forall k :: k in s.records ==> 1 <= k.n < NextOf(s, k.kind) && Shaped(k.kind, s.records[k]))
    && (forall kind :: 1 <= NextOf(s, kind))
  }

  /** Both sides describe the same object: same size, same owner, same direction. */
  predicate Agrees(info: Info, r: Record)
  {
    match info
    case Plain => r.Native?
    case Span(size, parent) => r.Storage? && r.size == size && r.parent == parent.n
    case Payload(bytes, toHost) => r == Staging(bytes, toHost)
    case Entry(owner) => r == Function(owner.n)
  }

  function KeyOf(h: Handle): Key { Key(h.kind, h.id.n) }

  /** A live handle belongs to the running session and, kernels aside, names a record; a record it names agrees with it. */
  ghost predicate HandleOk(w: World, h: Handle)
  {
    && h.id.session <= w.session
    && (h.kind == Memory <==> h.info.Span?) && (h.kind == Kernel <==> h.info.Entry?)
    && (h.id.session == w.session ==> 1 <= h.id.n < NextOf(w.s, h.kind))
    && (h.live ==> w.c.gen != 0 && h.gen == w.c.gen && h.id.session == w.session)
    && (h.live && h.kind != Kernel ==> KeyOf(h) in w.s.records)
    && (h.id.session == w.session && KeyOf(h) in w.s.records ==> Agrees(h.info, w.s.records[KeyOf(h)]))
  }

  /** Within a session only module variables are named twice. */
  predicate Distinct(h: Handle, g: Handle)
  {
    h.id.session == g.id.session && KeyOf(h) == KeyOf(g) ==>
      h.info.Span? && g.info.Span? && h.info.parent.n != 0 && g.info.parent.n != 0
  }

  ghost predicate HandlesOk(w: World)
  {
    && (forall i :: 0 <= i < |w.c.handles| ==> HandleOk(w, w.c.handles[i]))
    && (forall i, j :: 0 <= i < j < |w.c.handles| && w.c.handles[j].id.session == w.session ==> Distinct(w.c.handles[i], w.c.handles[j]))
  }

  ghost predicate GenerationsOk(w: World)
  {
    && w.c.nextGen < TWO64
    && |w.gens| == w.session
    && (w.c.gen != 0 ==> w.gens != [] && w.c.gen == w.gens[|w.gens| - 1])
    && (forall i :: 0 <= i < |w.gens| ==> 1 <= w.gens[i] && (w.c.nextGen == 0 || w.gens[i] < w.c.nextGen))
    && (forall i, j :: 0 <= i < j < |w.gens| ==> w.gens[i] < w.gens[j])
  }

  ghost predicate LogOk(w: World)
  {
    forall e :: e in w.log ==> e.id.session == e.session
  }

  ghost predicate Inv(w: World)
  {
    ServerOk(w.s) && HandlesOk(w) && GenerationsOk(w) && LogOk(w)
  }

  /** The handles a call resolved are still the same handles, of the same session. */
  ghost predicate TakenOk(w: World, t: Taken)
  {
    && t.i < |w.c.handles| && t.h.id.session == w.session
    && t.h == w.c.handles[t.i].(live := t.h.live)
  }

  ghost predicate AllTaken(w: World, ts: seq<Taken>)
  {
    forall t :: t in ts ==> TakenOk(w, t)
  }

  // ---------------------------------------------------------------------
  // Sending
  // ---------------------------------------------------------------------

  lemma {:induction false} NamesTaken(w: World, ts: seq<Taken>, names: seq<nat>)
    requires AllTaken(w, ts)
    ensures AllTaken(w, Names(ts, names))
  {
    if names != [] {
      NamesTaken(w, ts, names[1..]);
    }
  }

  lemma LoggedInv(w: World, ts: seq<Taken>)
    requires Inv(w) && AllTaken(w, ts)
    ensures Inv(Logged(w, ts)) && AllTaken(Logged(w, ts), ts)
  {
    var w' := Logged(w, ts);
    forall i | 0 <= i < |w.c.handles| ensures HandleOk(w', w'.c.handles[i]) {
      assert HandleOk(w, w.c.handles[i]);
    }
    forall e | e in w'.log ensures e.id.session == e.session {
      var k :| 0 <= k < |w'.log| && w'.log[k] == e;
      if k < |w.log| {
        assert e in w.log;
      } else {
        assert ts[k - |w.log|] in ts;
      }
    }
  }

  // ---------------------------------------------------------------------
  // One request at a time
  // ---------------------------------------------------------------------

  /** Counters never go down and records never change; what is new is above the old counters. */
  ghost predicate Follows(s: Server, s': Server)
  {
    && ServerOk(s') && (forall kind :: NextOf(s, kind) <= NextOf(s', kind))
    && (forall k :: k in s'.records ==> (k in s.records && s'.records[k] == s.records[k]) || NextOf(s, k.kind) <= k.n)
  }

  /** `s'` forgets nothing that a live handle names. */
  ghost predicate Upholds(w: World, s': Server)
  {
    && Follows(w.s, s')
    && forall i :: 0 <= i < |w.c.handles| && w.c.handles[i].live && w.c.handles[i].kind != Kernel ==>
         KeyOf(w.c.handles[i]) in s'.records
  }

  lemma UpheldKeeps(w: World, s': Server)
    requires Inv(w) && Upholds(w, s')
    ensures Inv(w.(s := s'))
  {
    var w' := w.(s := s');
    forall i | 0 <= i < |w.c.handles| ensures HandleOk(w', w'.c.handles[i]) {
      assert HandleOk(w, w.c.handles[i]);
    }
  }

  /** Losing the connection leaves no live handle, whatever the server did meanwhile. */
  lemma LostKeeps(w: World, s': Server)
    requires Inv(w) && Follows(w.s, s')
    ensures Inv(Lost(w.(s := s')))
    ensures forall i :: 0 <= i < |w.c.handles| ==> !Lost(w.(s := s')).c.handles[i].live
  {
    var w' := Lost(w.(s := s'));
    forall i | 0 <= i < |w.c.handles| ensures HandleOk(w', w'.c.handles[i]) && !w'.c.handles[i].live {
      assert HandleOk(w, w.c.handles[i]);
    }
    forall i, j | 0 <= i < j < |w.c.handles| && w'.c.handles[j].id.session == w.session
      ensures Distinct(w'.c.handles[i], w'.c.handles[j])
    {
      assert Distinct(w.c.handles[i], w.c.handles[j]);
    }
  }

  ghost predicate Extends(s: Server, s': Server)
  {
    Follows(s, s') && forall k :: k in s.records ==> k in s'.records
  }

  lemma PutOk(s: Server, kind: Kind, r: Record)
    requires ServerOk(s) && Shaped(kind, r)
    ensures Extends(s, Put(s, kind, r))
    ensures Key(kind, NextOf(s, kind)) !in s.records
    ensures
      var k := Key(kind, NextOf(s, kind));
      k in Put(s, kind, r).records && Put(s, kind, r).records[k] == r && k.n < NextOf(Put(s, kind, r), kind)
  {
    var s' := Put(s, kind, r);
    forall k ensures 1 <= NextOf(s, k) <= NextOf(s', k) {}
  }

  lemma SpoilOk(s: Server, kind: Kind)
    requires ServerOk(s)
    ensures Extends(s, Spoil(s, kind))
  {
    var s' := Spoil(s, kind);
    forall k ensures 1 <= NextOf(s, k) <= NextOf(s', k) {}
  }

  /** What a creation answers: a new identifier, or the record of a variable asked for before. */
  ghost predicate NewOk(s: Server, kind: Kind, owner: Tag, toHost: bool, s': Server, reply: Reply)
  {
    && Extends(s, s')
    && (reply.Created? ==>
          var k := Key(kind, reply.n);
          && 1 <= reply.n < NextOf(s', kind)
          && k in s'.records && Agrees(InfoOf(kind, owner, reply.size, toHost), s'.records[k])
          && (NextOf(s, kind) <= reply.n || (kind == Memory && owner.n != 0)))
  }

  lemma ServedFresh(s: Server, kind: Kind, owner: Tag, size: nat, toHost: bool, d: Driver)
    requires ServerOk(s)
    ensures
      var (s', reply) := ServeFresh(s, kind, owner.n, size, toHost, d);
      NewOk(s, kind, owner, toHost, s', reply)
  {
    assert Extends(s, s) && 1 <= NextOf(s, kind);
    SpoilOk(s, kind);
    var actual := if kind == Memory && owner.n != 0 then d.size else size;
    var r := RecordOf(kind, owner.n, actual, toHost, d.ptr);
    assert Shaped(kind, r) && Agrees(InfoOf(kind, owner, actual, toHost), r);
    PutOk(s, kind, r);
    hide Put, Spoil, NextOf, Room, RecordOf, Shaped, Extends, Follows, ServerOk, InfoOf, Agrees;
  }

  lemma ServedNew(s: Server, kind: Kind, owner: Tag, size: nat, toHost: bool, d: Driver)
    requires ServerOk(s)
    ensures
      var (s', reply) := ServeNew(s, kind, owner.n, size, toHost, d);
      NewOk(s, kind, owner, toHost, s', reply)
  {
    hide ServeFresh;
    ServedFresh(s, kind, owner, size, toHost, d);
    assert Extends(s, s);
    forall n: nat | Known(s, owner.n, d.ptr, n)
      ensures 1 <= n < NextOf(s, Memory)
      ensures Agrees(InfoOf(Memory, owner, s.records[Key(Memory, n)].size, toHost), s.records[Key(Memory, n)])
    {
    }
    hide Extends, Follows, ServerOk, NextOf, InfoOf, Agrees;
  }

  lemma ExtendsUpholds(w: World, s': Server)
    requires Inv(w) && Extends(w.s, s')
    ensures Inv(w.(s := s')) && Inv(Lost(w.(s := s')))
  {
    forall i | 0 <= i < |w.c.handles| && w.c.handles[i].live && w.c.handles[i].kind != Kernel
      ensures KeyOf(w.c.handles[i]) in s'.records
    {
      assert HandleOk(w, w.c.handles[i]);
    }
    UpheldKeeps(w, s');
    LostKeeps(w, s');
  }

  /** A new handle is one more name for the running session, never for an object some other handle owns. */
  lemma AddedKeeps(w: World, kind: Kind, id: Tag, info: Info)
    requires Inv(w) && w.c.gen != 0 && id.session == w.session
    requires (kind == Memory <==> info.Span?) && (kind == Kernel <==> info.Entry?)
    requires 1 <= id.n < NextOf(w.s, kind)
    requires Key(kind, id.n) in w.s.records && Agrees(info, w.s.records[Key(kind, id.n)])
    requires forall i :: 0 <= i < |w.c.handles| ==> Distinct(w.c.handles[i], Handle(kind, true, w.c.gen, id, info))
    ensures Inv(w.(c := Added(w.c, kind, id, info)))
  {
    var w' := w.(c := Added(w.c, kind, id, info));
    forall i | 0 <= i < |w'.c.handles| ensures HandleOk(w', w'.c.handles[i]) {
      if i < |w.c.handles| {
        assert HandleOk(w, w.c.handles[i]);
      }
    }
  }

  /** A fresh identifier is above every identifier of the session; a known one belongs to a module variable. */
  lemma NewIsDistinct(w: World, h: Handle, s': Server)
    requires Inv(w) && Extends(w.s, s') && h.id.session == w.session && (h.kind == Memory <==> h.info.Span?)
    requires KeyOf(h) in s'.records && Agrees(h.info, s'.records[KeyOf(h)])
    requires NextOf(w.s, h.kind) <= h.id.n || (h.kind == Memory && h.info.parent.n != 0)
    ensures forall i :: 0 <= i < |w.c.handles| ==> Distinct(w.c.handles[i], h)
  {
    forall i | 0 <= i < |w.c.handles| ensures Distinct(w.c.handles[i], h) {
      assert HandleOk(w, w.c.handles[i]);
    }
  }

  lemma CreatedKeeps(w: World, kind: Kind, owner: Tag, toHost: bool, s': Server, reply: Reply)
    requires Inv(w) && w.c.gen != 0 && NewOk(w.s, kind, owner, toHost, s', reply) && reply.Created?
    ensures Inv(w.(s := s', c := Added(w.c, kind, Tag(w.session, reply.n), InfoOf(kind, owner, reply.size, toHost))))
  {
    var info := InfoOf(kind, owner, reply.size, toHost);
    var h := Handle(kind, true, w.c.gen, Tag(w.session, reply.n), info);
    assert (kind == Memory <==> info.Span?) && (kind == Kernel <==> info.Entry?) && (kind == Memory ==> info.parent == owner);
    hide Inv, Extends, InfoOf;
    NewIsDistinct(w, h, s');
    ExtendsUpholds(w, s');
    AddedKeeps(w.(s := s'), kind, h.id, info);
  }

  lemma NewKeeps(w: World, ts: seq<Taken>, kind: Kind, size: nat, toHost: bool, slot: bool, d: Driver, net: Net)
    requires Inv(w) && w.c.gen != 0
    ensures Inv(NewAction(w, ts, kind, size, toHost, slot, d, net).0)
  {
    var owner := OwnerOf(kind, ts);
    var (s, reply) :=
      if !Found(w.s, ts) || (kind == Kernel && owner.n == 0) then (w.s, Refused)
      else ServeNew(w.s, kind, owner.n, size, toHost, d);
    assert Extends(w.s, w.s);
    ServedNew(w.s, kind, owner, size, toHost, d);
    assert NewOk(w.s, kind, owner, toHost, s, reply);
    ExtendsUpholds(w, w.s);
    assert w.(s := w.s) == w;
    hide Inv, Extends, ServeNew, Found, Lost, InfoOf, OwnerOf, Added;
    ExtendsUpholds(w, s);
    if reply.Created? { CreatedKeeps(w, kind, owner, toHost, s, reply); }
  }

  lemma ShrunkFollows(s: Server, s': Server)
    requires ServerOk(s) && s'.next == s.next
    requires forall k :: k in s'.records ==> k in s.records && s'.records[k] == s.records[k]
    ensures Follows(s, s')
  {
    forall kind ensures NextOf(s', kind) == NextOf(s, kind) {}
  }

  lemma DropFollows(s: Server, k: Key, d: Driver)
    requires ServerOk(s)
    ensures Follows(s, ServeDrop(s, k, d).0)
  {
    hide Follows;
    ShrunkFollows(s, ServeDrop(s, k, d).0);
  }

  lemma KilledKeeps(w: World, i: nat)
    requires Inv(w) && i < |w.c.handles|
    ensures Inv(w.(c := Killed(w.c, i)))
  {
    var w' := w.(c := Killed(w.c, i));
    forall j | 0 <= j < |w'.c.handles| ensures HandleOk(w', w'.c.handles[j]) {
      assert HandleOk(w, w.c.handles[j]);
    }
    forall j, k | 0 <= j < k < |w'.c.handles| && w'.c.handles[k].id.session == w.session
      ensures Distinct(w'.c.handles[j], w'.c.handles[k])
    {
      assert Distinct(w.c.handles[j], w.c.handles[k]);
    }
  }

  /** Once the client has let go of the only handle, the record may go. */
  lemma RemovedKeeps(w: World, i: nat)
    requires Inv(w) && i < |w.c.handles| && w.c.handles[i].id.session == w.session
    requires !(w.c.handles[i].info.Span? && w.c.handles[i].info.parent.n != 0)
    ensures Inv(w.(s := w.s.(records := w.s.records - {KeyOf(w.c.handles[i])}), c := Killed(w.c, i)))
  {
    KilledKeeps(w, i);
    var w1 := w.(c := Killed(w.c, i));
    var s' := w.s.(records := w.s.records - {KeyOf(w.c.handles[i])});
    forall j | 0 <= j < |w1.c.handles| && w1.c.handles[j].live && w1.c.handles[j].kind != Kernel
      ensures KeyOf(w1.c.handles[j]) in s'.records
    {
      assert HandleOk(w, w.c.handles[j]);
      assert j < i ==> Distinct(w.c.handles[j], w.c.handles[i]);
      assert i < j ==> Distinct(w.c.handles[i], w.c.handles[j]);
    }
    ShrunkFollows(w.s, s');
    UpheldKeeps(w1, s');
  }

  lemma KilledModuleKeeps(w: World, i: nat, n: nat)
    requires Inv(w) && i < |w.c.handles|
    ensures Inv(w.(c := KilledModule(w.c, i, n)))
  {
    var w' := w.(c := KilledModule(w.c, i, n));
    forall j | 0 <= j < |w'.c.handles| ensures HandleOk(w', w'.c.handles[j]) {
      assert HandleOk(w, w.c.handles[j]);
    }
    forall j, k | 0 <= j < k < |w'.c.handles| && w'.c.handles[k].id.session == w.session
      ensures Distinct(w'.c.handles[j], w'.c.handles[k])
    {
      assert Distinct(w.c.handles[j], w.c.handles[k]);
    }
  }

  /** Both sides forget the same kernels and variables when a module goes. */
  lemma UnloadedKeeps(w: World, i: nat)
    requires Inv(w) && i < |w.c.handles| && w.c.handles[i].id.session == w.session && w.c.handles[i].kind == Module
    ensures
      var n := w.c.handles[i].id.n;
      Inv(w.(s := WithoutModule(w.s, n), c := KilledModule(w.c, i, n)))
  {
    var n := w.c.handles[i].id.n;
    assert HandleOk(w, w.c.handles[i]);
    KilledModuleKeeps(w, i, n);
    var w1 := w.(c := KilledModule(w.c, i, n));
    var s' := WithoutModule(w.s, n);
    forall j | 0 <= j < |w1.c.handles| && w1.c.handles[j].live && w1.c.handles[j].kind != Kernel
      ensures KeyOf(w1.c.handles[j]) in s'.records
    {
      assert HandleOk(w, w.c.handles[j]);
      assert j < i ==> Distinct(w.c.handles[j], w.c.handles[i]);
      assert i < j ==> Distinct(w.c.handles[i], w.c.handles[j]);
    }
    ShrunkFollows(w.s, s');
    UpheldKeeps(w1, s');
  }

  lemma RefusedDropKeeps(w: World, k: Key, d: Driver)
    requires Inv(w) && ServeDrop(w.s, k, d).1 != Fine
    ensures Inv(w.(s := ServeDrop(w.s, k, d).0))
  {
    var s' := ServeDrop(w.s, k, d).0;
    DropFollows(w.s, k, d);
    forall j | 0 <= j < |w.c.handles| && w.c.handles[j].live && w.c.handles[j].kind != Kernel
      ensures KeyOf(w.c.handles[j]) in s'.records
    {
      assert HandleOk(w, w.c.handles[j]);
    }
    UpheldKeeps(w, s');
  }

  lemma DropKeeps(w: World, t: Taken, others: seq<Taken>, d: Driver, net: Net)
    requires Inv(w) && TakenOk(w, t)
    ensures Inv(DropAction(w, t, others, d, net).0)
  {
    var k := Key(t.h.kind, t.h.id.n);
    var (s, reply) := if Found(w.s, others) then ServeDrop(w.s, k, d) else (w.s, Refused);
    ShrunkFollows(w.s, w.s);
    DropFollows(w.s, k, d);
    LostKeeps(w, w.s);
    LostKeeps(w, s);
    assert w.(s := w.s) == w;
    if reply != Fine {
      if Found(w.s, others) { RefusedDropKeeps(w, k, d); }
    } else if t.h.kind == Module {
      UnloadedKeeps(w, t.i);
    } else if !(t.h.info.Span? && t.h.info.parent.n != 0) {
      RemovedKeeps(w, t.i);
    }
    hide Inv, Found, Lost, WithoutModule, WithoutKernels, KilledModule, Killed, Follows;
  }

  /** Sizes agree, so a payload never has an unexpected length. */
  lemma AwaitKeeps(w: World, i: nat, d: Driver, net: Net)
    requires Inv(w) && AwaitsTransfer(w.c, i)
    ensures Inv(AwaitAction(w, i, d, net).0)
  {
    var h := w.c.handles[i];
    assert HandleOk(w, h);
    var (s, reply) := ServeAwait(w.s, h.id.n, d);
    ShrunkFollows(w.s, w.s);
    ShrunkFollows(w.s, s);
    LostKeeps(w, w.s);
    LostKeeps(w, s);
    assert w.(s := w.s) == w;
    RemovedKeeps(w, i);
    assert h.info.Payload?;
    hide Inv, Lost, Killed, Follows;
  }

  lemma UseKeeps(w: World, ts: seq<Taken>, ok: bool, net: Net)
    requires Inv(w)
    ensures Inv(UseAction(w, ts, ok, net).0)
  {
    ShrunkFollows(w.s, w.s);
    LostKeeps(w, w.s);
    assert w.(s := w.s) == w;
  }

  lemma ActKeeps(w: World, ts: seq<Taken>, a: Action)
    requires Inv(w) && AllTaken(w, ts) && w.c.gen != 0
    ensures Inv(Act(w, ts, a).0)
  {
    hide Inv, UseAction, NewAction, DropAction, AwaitAction;
    match a
    case Use(names, ok, net) =>
      NamesTaken(w, ts, names);
      LoggedInv(w, Names(ts, names));
      UseKeeps(Logged(w, Names(ts, names)), Names(ts, names), ok, net);
    case New(kind, names, size, toHost, slot, d, net) =>
      NamesTaken(w, ts, names);
      LoggedInv(w, Names(ts, names));
      NewKeeps(Logged(w, Names(ts, names)), Names(ts, names), kind, size, toHost, slot, d, net);
    case Drop(p, others, d, net) =>
      if p < |ts| && ts[p].i < |w.c.handles| {
        NamesTaken(w, ts, others);
        var sent := [ts[p]] + Names(ts, others);
        LoggedInv(w, sent);
        assert ts[p] in sent;
        DropKeeps(Logged(w, sent), ts[p], Names(ts, others), d, net);
      }
    case Await(i, d, net) =>
      if AwaitsTransfer(w.c, i) {
        var t := Taken(i, w.c.handles[i]);
        LiveIsCurrent(w, i);
        LoggedInv(w, [t]);
        AwaitKeeps(Logged(w, [t]), i, d, net);
      }
  }

  lemma LiveIsCurrent(w: World, i: nat)
    requires Inv(w) && i < |w.c.handles| && w.c.handles[i].live
    ensures TakenOk(w, Taken(i, w.c.handles[i])) && w.c.gen != 0 && w.c.handles[i].gen == w.c.gen
  {
    assert HandleOk(w, w.c.handles[i]);
  }

  /** Handles keep their place, and once dead stay dead. */
  ghost predicate Ages(c: Client, c': Client)
  {
    && |c.handles| <= |c'.handles|
    && forall i :: 0 <= i < |c.handles| ==>
         c'.handles[i] == c.handles[i].(live := c'.handles[i].live) && (c'.handles[i].live ==> c.handles[i].live)
  }

  lemma ActAges(w: World, ts: seq<Taken>, a: Action)
    ensures Ages(w.c, Act(w, ts, a).0.c) && Act(w, ts, a).0.session == w.session
    ensures Act(w, ts, a).1 ==> Act(w, ts, a).0.c.gen == w.c.gen
  {
    hide ServeNew, ServeDrop, ServeAwait, Found, Names, OwnerOf, InfoOf;
  }

  lemma {:induction false} ActsKeep(w: World, ts: seq<Taken>, actions: seq<Action>)
    requires Inv(w) && AllTaken(w, ts) && w.c.gen != 0
    ensures Inv(Acts(w, ts, actions)) && Ages(w.c, Acts(w, ts, actions).c) && Acts(w, ts, actions).session == w.session
    decreases |actions|
  {
    hide Inv, Act;
    if actions != [] {
      ActKeeps(w, ts, actions[0]);
      ActAges(w, ts, actions[0]);
      var (w', more) := Act(w, ts, actions[0]);
      if more {
        ActsKeep(w', ts, actions[1..]);
      }
    }
  }

  // ---------------------------------------------------------------------
  // Whole runs
  // ---------------------------------------------------------------------

  lemma ClosedKeeps(w: World)
    requires Inv(w)
    ensures Inv(w.(c := Closed(w.c)))
  {
    var w' := w.(c := Closed(w.c));
    forall j | 0 <= j < |w'.c.handles| ensures HandleOk(w', w'.c.handles[j]) {
      assert HandleOk(w, w.c.handles[j]);
    }
    forall j, k | 0 <= j < k < |w'.c.handles| && w'.c.handles[k].id.session == w.session
      ensures Distinct(w'.c.handles[j], w'.c.handles[k])
    {
      assert Distinct(w.c.handles[j], w.c.handles[k]);
    }
  }

  lemma FreshOk()
    ensures ServerOk(FRESH)
  {
    forall kind ensures NextOf(FRESH, kind) == 1 {}
  }

  lemma ConnectKeeps(w: World, reached: bool, hello: Hello)
    requires Inv(w)
    ensures Inv(ConnectStep(w, reached, hello))
  {
    if !(w.c.gen != 0 || w.c.nextGen == 0 || !reached) {
      FreshOk();
      var g := w.c.nextGen;
      var w1 := World(w.c.(gen := g, nextGen := (g + 1) % TWO64), FRESH, w.session + 1, w.log, w.gens + [g]);
      forall j | 0 <= j < |w1.c.handles| ensures HandleOk(w1, w1.c.handles[j]) && w1.c.handles[j].id.session < w1.session {
        assert HandleOk(w, w.c.handles[j]);
      }
      assert w1.c.nextGen == 0 || w1.c.nextGen == g + 1;
      assert Inv(w1);
      ShrunkFollows(w1.s, w1.s);
      LostKeeps(w1, w1.s);
      assert w1.(s := w1.s) == w1;
    }
  }

  lemma TakeOk(w: World, picks: seq<nat>)
    requires Inv(w) && AllResolve(w.c, picks)
    ensures AllTaken(w, Take(w.c, picks))
  {
    var ts := Take(w.c, picks);
    forall t | t in ts ensures TakenOk(w, t) {
      var k :| 0 <= k < |ts| && ts[k] == t;
      assert Resolves(w.c, picks[k]);
      LiveIsCurrent(w, picks[k]);
    }
  }

  lemma StepKeeps(w: World, cmd: Command)
    requires Inv(w)
    ensures Inv(Step(w, cmd)) && Ages(w.c, Step(w, cmd).c) && w.session <= Step(w, cmd).session
  {
    match cmd
    case Connect(reached, hello) =>
      ConnectKeeps(w, reached, hello);
      hide Inv;
    case Shutdown =>
      ClosedKeeps(w);
      hide Inv;
    case Call(picks, actions) =>
      if w.c.gen != 0 && AllResolve(w.c, picks) {
        TakeOk(w, picks);
        hide Inv, Acts, AllTaken;
        ActsKeep(w, Take(w.c, picks), actions);
      }
  }

  lemma {:induction false} EveryRunKeeps(cmds: seq<Command>)
    ensures Inv(Run(cmds))
  {
    if cmds == [] {
      FreshOk();
    } else {
      EveryRunKeeps(cmds[..|cmds| - 1]);
      hide Inv;
      StepKeeps(Run(cmds[..|cmds| - 1]), cmds[|cmds| - 1]);
    }
  }

  /**
   In every run a live handle is one of the active generation and, unless it is a
   kernel, names a used server record. What it names has the same size, owner and direction.
   */
  lemma TablesAgree(cmds: seq<Command>, i: nat)
    requires i < |Run(cmds).c.handles| && Run(cmds).c.handles[i].live
    ensures
      var w := Run(cmds);
      var h := w.c.handles[i];
      && w.c.gen != 0 && h.gen == w.c.gen
      && (h.kind != Kernel ==> KeyOf(h) in w.s.records)
      && (KeyOf(h) in w.s.records ==> Agrees(h.info, w.s.records[KeyOf(h)]))
  {
    EveryRunKeeps(cmds);
    assert HandleOk(Run(cmds), Run(cmds).c.handles[i]);
  }

  /** No request ever carries an identifier of another session, although identifiers restart in each. */
  lemma NoForeignIdentifier(cmds: seq<Command>)
    ensures forall e :: e in Run(cmds).log ==> e.id.session == e.session
    ensures forall i: nat :: Resolves(Run(cmds).c, i) ==> Run(cmds).c.handles[i].id.session == Run(cmds).session
  {
    EveryRunKeeps(cmds);
    var w := Run(cmds);
    forall i: nat | Resolves(w.c, i) ensures w.c.handles[i].id.session == w.session {
      assert HandleOk(w, w.c.handles[i]);
    }
  }

  /** One generation per session, none of them 0, none used twice, even as the 64-bit counter runs out. */
  lemma GenerationsNeverRepeat(cmds: seq<Command>)
    ensures |Run(cmds).gens| == Run(cmds).session
    ensures forall i, j :: 0 <= i < j < |Run(cmds).gens| ==> 0 < Run(cmds).gens[i] < Run(cmds).gens[j]
    ensures Run(cmds).c.gen != 0 ==> Run(cmds).session > 0 && Run(cmds).c.gen == Run(cmds).gens[Run(cmds).session - 1]
  {
    EveryRunKeeps(cmds);
  }

  lemma {:induction false} RunsAge(cmds: seq<Command>, more: seq<Command>)
    ensures Ages(Run(cmds).c, Run(cmds + more).c) && Run(cmds).session <= Run(cmds + more).session
    decreases |more|
  {
    if more == [] {
      assert cmds + more == cmds;
    } else {
      var less := more[..|more| - 1];
      RunsAge(cmds, less);
      EveryRunKeeps(cmds + less);
      assert (cmds + more)[..|cmds + more| - 1] == cmds + less;
      assert Run(cmds + more) == Step(Run(cmds + less), more[|more| - 1]);
      hide Step, Run, Inv;
      StepKeeps(Run(cmds + less), more[|more| - 1]);
    }
  }

  /** A handle that is dead, or whose session is over, never resolves again. */
  lemma StaleForever(cmds: seq<Command>, more: seq<Command>, i: nat)
    requires i < |Run(cmds).c.handles|
    requires !Run(cmds).c.handles[i].live || Run(cmds).session < Run(cmds + more).session
    ensures i < |Run(cmds + more).c.handles| && !Run(cmds + more).c.handles[i].live
    ensures !Resolves(Run(cmds + more).c, i)
  {
    RunsAge(cmds, more);
    EveryRunKeeps(cmds);
    EveryRunKeeps(cmds + more);
    assert Ages(Run(cmds).c, Run(cmds + more).c);
    assert HandleOk(Run(cmds), Run(cmds).c.handles[i]);
    assert HandleOk(Run(cmds + more), Run(cmds + more).c.handles[i]);
    hide Run, Agrees;
  }

  // ---------------------------------------------------------------------
  // When kernels agree
  // ---------------------------------------------------------------------

  predicate LiveKernel(c: Client, i: int) { 0 <= i < |c.handles| && c.handles[i].live && c.handles[i].kind == Kernel }

  /** Every live kernel handle names a used record of its module. */
  ghost predicate KernelsAgree(w: World)
  {
    forall i :: LiveKernel(w.c, i) ==>
      KeyOf(w.c.handles[i]) in w.s.records && Agrees(w.c.handles[i].info, w.s.records[KeyOf(w.c.handles[i])])
  }

  /** An unload of module `n` that reaches the driver and fails there, with the connection intact. */
  predicate Strands(w: World, ts: seq<Taken>, a: Action, n: nat)
  {
    && a.Drop? && a.net == Delivered && a.driver.barrier && !a.driver.ok
    && a.name < |ts| && ts[a.name].h.kind == Module && ts[a.name].h.id.n == n
    && Found(w.s, [ts[a.name]] + Names(ts, a.others))
  }

  lemma DropKernel(w: World, t: Taken, others: seq<Taken>, d: Driver, net: Net, i: nat)
    requires Inv(w) && TakenOk(w, t) && i < |w.c.handles| && w.c.handles[i].kind == Kernel
    requires DropAction(w, t, others, d, net).0.c.handles[i].live
    ensures
      var h := w.c.handles[i];
      KeyOf(h) in DropAction(w, t, others, d, net).0.s.records <==>
      KeyOf(h) in w.s.records && !(net == Delivered && d.barrier && !d.ok && t.h.kind == Module && h.info.owner.n == t.h.id.n
                                   && Key(Module, t.h.id.n) in w.s.records && Found(w.s, others))
  {
    assert HandleOk(w, w.c.handles[i]) && HandleOk(w, w.c.handles[t.i]);
    ShrunkFollows(w.s, w.s);
    LostKeeps(w, w.s);
    assert w.(s := w.s) == w;
    DropFollows(w.s, Key(t.h.kind, t.h.id.n), d);
    LostKeeps(w, ServeDrop(w.s, Key(t.h.kind, t.h.id.n), d).0);
    hide Inv, Found, Lost, Follows;
  }

  lemma NewKernel(w: World, ts: seq<Taken>, kind: Kind, size: nat, toHost: bool, slot: bool, d: Driver, net: Net)
    requires Inv(w)
    ensures Extends(w.s, NewAction(w, ts, kind, size, toHost, slot, d, net).0.s)
    ensures
      var w' := NewAction(w, ts, kind, size, toHost, slot, d, net).0;
      forall i :: |w.c.handles| <= i < |w'.c.handles| ==> KeyOf(w'.c.handles[i]) in w'.s.records
  {
    var owner := OwnerOf(kind, ts);
    assert Extends(w.s, w.s);
    ServedNew(w.s, kind, owner, size, toHost, d);
    hide Inv, Extends, ServeNew, Found, InfoOf, OwnerOf;
  }

  lemma UseKernel(w: World, ts: seq<Taken>, ok: bool, net: Net)
    ensures UseAction(w, ts, ok, net).0.s == w.s && |UseAction(w, ts, ok, net).0.c.handles| == |w.c.handles|
  {}

  lemma AwaitKernel(w: World, i: nat, d: Driver, net: Net)
    requires i < |w.c.handles|
    ensures forall k: Key :: k.kind == Kernel ==> (k in AwaitAction(w, i, d, net).0.s.records <==> k in w.s.records)
    ensures |AwaitAction(w, i, d, net).0.c.handles| == |w.c.handles|
  {}

  lemma FoundBoth(s: Server, t: Taken, others: seq<Taken>)
    ensures Found(s, [t] + others) <==> Key(t.h.kind, t.h.id.n) in s.records && Found(s, others)
  {
    assert t in [t] + others;
    assert forall o :: o in others ==> o in [t] + others;
  }

  /** What one request does to the record of a kernel whose handle stays live. */
  lemma KernelKept(w: World, ts: seq<Taken>, a: Action, i: nat)
    requires Inv(w) && AllTaken(w, ts) && w.c.gen != 0
    requires i < |w.c.handles| <= |Act(w, ts, a).0.c.handles|
    requires w.c.handles[i].kind == Kernel && Act(w, ts, a).0.c.handles[i].live
    ensures w.c.handles[i].info.Entry?
    ensures KeyOf(w.c.handles[i]) in Act(w, ts, a).0.s.records <==>
            KeyOf(w.c.handles[i]) in w.s.records && !Strands(w, ts, a, w.c.handles[i].info.owner.n)
  {
    assert HandleOk(w, w.c.handles[i]);
    hide Inv, UseAction, NewAction, DropAction, AwaitAction, Found;
    match a
    case Use(names, ok, net) =>
      UseKernel(Logged(w, Names(ts, names)), Names(ts, names), ok, net);
    case New(kind, names, size, toHost, slot, d, net) =>
      NamesTaken(w, ts, names);
      LoggedInv(w, Names(ts, names));
      NewKernel(Logged(w, Names(ts, names)), Names(ts, names), kind, size, toHost, slot, d, net);
    case Drop(p, others, d, net) =>
      if p < |ts| {
        assert TakenOk(w, ts[p]);
        NamesTaken(w, ts, others);
        var sent := [ts[p]] + Names(ts, others);
        LoggedInv(w, sent);
        assert ts[p] in sent;
        DropKernel(Logged(w, sent), ts[p], Names(ts, others), d, net, i);
        FoundBoth(w.s, ts[p], Names(ts, others));
      }
    case Await(j, d, net) =>
      if AwaitsTransfer(w.c, j) { AwaitKernel(Logged(w, [Taken(j, w.c.handles[j])]), j, d, net); }
  }

  /** A handle comes with its record, and a failed unload is the last request of its call. */
  lemma KernelMade(w: World, ts: seq<Taken>, a: Action)
    requires Inv(w) && AllTaken(w, ts) && w.c.gen != 0
    ensures
      var (w', more) := Act(w, ts, a);
      && (forall i :: |w.c.handles| <= i < |w'.c.handles| ==> KeyOf(w'.c.handles[i]) in w'.s.records)
      && (forall n :: Strands(w, ts, a, n) ==> !more && w'.c == w.c)
  {
    hide Inv, UseAction, NewAction, AwaitAction, Found, WithoutKernels, WithoutModule;
    match a
    case Use(names, ok, net) =>
      UseKernel(Logged(w, Names(ts, names)), Names(ts, names), ok, net);
    case New(kind, names, size, toHost, slot, d, net) =>
      NamesTaken(w, ts, names);
      LoggedInv(w, Names(ts, names));
      NewKernel(Logged(w, Names(ts, names)), Names(ts, names), kind, size, toHost, slot, d, net);
    case Drop(p, others, d, net) =>
      if p < |ts| {
        FoundBoth(w.s, ts[p], Names(ts, others));
        TakenModule(w, ts[p]);
      }
    case Await(j, d, net) =>
      if AwaitsTransfer(w.c, j) { AwaitKernel(Logged(w, [Taken(j, w.c.handles[j])]), j, d, net); }
  }

  lemma TakenModule(w: World, t: Taken)
    requires Inv(w) && TakenOk(w, t)
    ensures t.h.kind == Module ==> !t.h.info.Span?
  {
    assert HandleOk(w, w.c.handles[t.i]);
  }

  /**
   Kernel agreement is kept by every request but one: the unload of a module that
   fails at the driver while the client still holds one of its kernels.
   */
  lemma AgreementKeptExactly(w: World, ts: seq<Taken>, a: Action)
    requires Inv(w) && AllTaken(w, ts) && w.c.gen != 0 && KernelsAgree(w)
    ensures KernelsAgree(Act(w, ts, a).0) <==>
            !exists i :: LiveKernel(w.c, i) && w.c.handles[i].info.Entry? && Strands(w, ts, a, w.c.handles[i].info.owner.n)
  {
    var w' := Act(w, ts, a).0;
    ActKeeps(w, ts, a);
    ActAges(w, ts, a);
    KernelMade(w, ts, a);
    hide Act, Strands, Agrees;
    forall i: nat | i < |w'.c.handles| && w'.c.handles[i].kind == Kernel && w'.c.handles[i].live
      ensures HandleOk(w', w'.c.handles[i])
      ensures i < |w.c.handles| ==>
                w.c.handles[i].info.Entry? &&
                (KeyOf(w'.c.handles[i]) in w'.s.records <==> !Strands(w, ts, a, w.c.handles[i].info.owner.n))
    {
      if i < |w.c.handles| { KernelKept(w, ts, a, i); }
    }
    forall i: nat | i < |w.c.handles| ensures w.c.handles[i].info.Entry? <==> w.c.handles[i].kind == Kernel {
      assert HandleOk(w, w.c.handles[i]);
    }
  }

  /** Some request of the call is a failed unload of module `n`. */
  ghost predicate Stranded(w: World, ts: seq<Taken>, actions: seq<Action>, n: nat)
    decreases |actions|
  {
    && actions != []
    && (Strands(w, ts, actions[0], n)
        || (Act(w, ts, actions[0]).1 && Stranded(Act(w, ts, actions[0]).0, ts, actions[1..], n)))
  }

  lemma {:induction false} CallKernel(w: World, ts: seq<Taken>, actions: seq<Action>, i: nat)
    requires Inv(w) && AllTaken(w, ts) && w.c.gen != 0
    requires i < |Acts(w, ts, actions).c.handles|
    requires Acts(w, ts, actions).c.handles[i].live && Acts(w, ts, actions).c.handles[i].kind == Kernel
    ensures
      var w' := Acts(w, ts, actions);
      var h := w'.c.handles[i];
      && h.info.Entry?
      && (KeyOf(h) in w'.s.records <==>
          (i < |w.c.handles| ==> KeyOf(h) in w.s.records) && !Stranded(w, ts, actions, h.info.owner.n))
    decreases |actions|
  {
    ActsKeep(w, ts, actions);
    assert HandleOk(Acts(w, ts, actions), Acts(w, ts, actions).c.handles[i]);
    if actions != [] {
      hide Inv, Act, Strands;
      ActKeeps(w, ts, actions[0]);
      ActAges(w, ts, actions[0]);
      KernelMade(w, ts, actions[0]);
      var (w1, more) := Act(w, ts, actions[0]);
      if more {
        ActsKeep(w1, ts, actions[1..]);
        CallKernel(w1, ts, actions[1..], i);
      }
      if i < |w.c.handles| { KernelKept(w, ts, actions[0], i); }
    }
  }

  /** The command is a call in which an unload of module `n` fails at the driver. */
  ghost predicate FailsUnload(w: World, cmd: Command, n: nat)
  {
    cmd.Call? && w.c.gen != 0 && AllResolve(w.c, cmd.handles) && Stranded(w, Take(w.c, cmd.handles), cmd.actions, n)
  }

  lemma StepKernel(w: World, cmd: Command, i: nat)
    requires Inv(w) && i < |Step(w, cmd).c.handles|
    requires Step(w, cmd).c.handles[i].live && Step(w, cmd).c.handles[i].kind == Kernel
    ensures
      var w' := Step(w, cmd);
      var h := w'.c.handles[i];
      && h.info.Entry?
      && (KeyOf(h) in w'.s.records <==>
          (i < |w.c.handles| ==> KeyOf(h) in w.s.records) && !FailsUnload(w, cmd, h.info.owner.n))
  {
    StepKeeps(w, cmd);
    assert HandleOk(Step(w, cmd), Step(w, cmd).c.handles[i]);
    assert i < |w.c.handles| ==> HandleOk(w, w.c.handles[i]);
    if cmd.Call? && w.c.gen != 0 && AllResolve(w.c, cmd.handles) {
      TakeOk(w, cmd.handles);
      hide Inv, Acts, Stranded;
      CallKernel(w, Take(w.c, cmd.handles), cmd.actions, i);
    }
  }

  /** Command `k` of the run fails to unload the module of kernel handle `i`, which exists by then. */
  ghost predicate Orphans(cmds: seq<Command>, k: nat, i: nat)
    requires k < |cmds|
  {
    && i < |Run(cmds[..k + 1]).c.handles| && Run(cmds[..k + 1]).c.handles[i].info.Entry?
    && FailsUnload(Run(cmds[..k]), cmds[k], Run(cmds[..k + 1]).c.handles[i].info.owner.n)
  }

  lemma OrphansEarlier(cmds: seq<Command>, k: nat, i: nat)
    requires k < |cmds| - 1
    ensures Orphans(cmds, k, i) <==> Orphans(cmds[..|cmds| - 1], k, i)
  {
    var less := cmds[..|cmds| - 1];
    assert less[..k] == cmds[..k] && less[..k + 1] == cmds[..k + 1] && less[k] == cmds[k];
  }

  lemma OrphansLast(cmds: seq<Command>, i: nat)
    requires cmds != [] && i < |Run(cmds).c.handles| && Run(cmds).c.handles[i].info.Entry?
    ensures Orphans(cmds, |cmds| - 1, i) <==>
            FailsUnload(Run(cmds[..|cmds| - 1]), cmds[|cmds| - 1], Run(cmds).c.handles[i].info.owner.n)
  {
    assert cmds[..|cmds| - 1 + 1] == cmds;
  }

  /** No command orphans a handle before it exists. */
  lemma NotYetOrphaned(cmds: seq<Command>, k: nat, i: nat)
    requires k < |cmds| && |Run(cmds).c.handles| <= i
    ensures !Orphans(cmds, k, i)
  {
    hide FailsUnload, Run;
    RunsAge(cmds[..k + 1], cmds[k + 1..]);
    assert cmds[..k + 1] + cmds[k + 1..] == cmds;
  }

  /** No unload of the kernel's module failed after its handle was made. */
  ghost predicate NeverOrphaned(cmds: seq<Command>, i: nat)
  {
    forall k :: 0 <= k < |cmds| ==> !Orphans(cmds, k, i)
  }

  lemma NeverOrphanedStep(cmds: seq<Command>, i: nat)
    requires cmds != []
    ensures
      var less := cmds[..|cmds| - 1];
      NeverOrphaned(cmds, i) <==>
      !Orphans(cmds, |cmds| - 1, i) && (i < |Run(less).c.handles| ==> NeverOrphaned(less, i))
  {
    hide Run, Orphans;
    var n := |cmds| - 1;
    var less := cmds[..n];
    forall k: nat | k < n
      ensures Orphans(cmds, k, i) <==> Orphans(less, k, i)
      ensures |Run(less).c.handles| <= i ==> !Orphans(less, k, i)
    {
      OrphansEarlier(cmds, k, i);
      if |Run(less).c.handles| <= i { NotYetOrphaned(less, k, i); }
    }
  }

  /** A live kernel handle has its record exactly when no unload of its module failed after it was made. */
  lemma {:induction false} KernelHasRecord(cmds: seq<Command>, i: nat)
    requires LiveKernel(Run(cmds).c, i)
    ensures KeyOf(Run(cmds).c.handles[i]) in Run(cmds).s.records <==> NeverOrphaned(cmds, i)
    decreases |cmds|
  {
    if cmds != [] {
      var less := cmds[..|cmds| - 1];
      var w := Run(less);
      EveryRunKeeps(less);
      assert Run(cmds) == Step(w, cmds[|cmds| - 1]);
      hide Run, Step, FailsUnload, Inv, Orphans, NeverOrphaned;
      StepKeeps(w, cmds[|cmds| - 1]);
      StepKernel(w, cmds[|cmds| - 1], i);
      OrphansLast(cmds, i);
      NeverOrphanedStep(cmds, i);
      if i < |w.c.handles| { KernelHasRecord(less, i); }
    }
  }

  /** Over whole runs: the kernel tables agree exactly when no live kernel handle was orphaned. */
  lemma KernelsAgreeExactly(cmds: seq<Command>)
    ensures KernelsAgree(Run(cmds)) <==>
            forall i: nat :: LiveKernel(Run(cmds).c, i) ==> NeverOrphaned(cmds, i)
  {
    var w := Run(cmds);
    EveryRunKeeps(cmds);
    hide Run, NeverOrphaned, Agrees;
    forall i: nat | LiveKernel(w.c, i)
      ensures HandleOk(w, w.c.handles[i])
      ensures KeyOf(w.c.handles[i]) in w.s.records <==> NeverOrphaned(cmds, i)
    {
      KernelHasRecord(cmds, i);
    }
  }

  // ---------------------------------------------------------------------
  // A run that orphans a kernel
  // ---------------------------------------------------------------------

  const WORKING := Driver(true, true, 0, 0)
  const STUCK := Driver(true, false, 0, 0)

  lemma EmptyRoom(s: Server, kind: Kind)
    requires forall k :: k in s.records ==> k.kind != kind
    ensures Room(s, kind)
  {
    assert (set k | k in s.records && k.kind == kind) == {};
  }

  /** Load a module, take a kernel from it, then fail to unload it. */
  function UnloadingRun(): seq<Command>
  {
    [Connect(true, Negotiated),
     Call([], [New(Module, [], 0, false, true, WORKING, Delivered)]),
     Call([0], [New(Kernel, [0], 0, false, true, WORKING, Delivered)]),
     Call([0], [Drop(0, [], STUCK, Delivered)])]
  }

  /** After that run the kernel is gone on the server only. */
  lemma KernelOutlivesRecord()
    ensures
      var w := Run(UnloadingRun());
      && |w.c.handles| == 2 && w.c.handles[1].kind == Kernel && Resolves(w.c, 1)
      && KeyOf(w.c.handles[1]) !in w.s.records
      && Resolves(w.c, 0) && KeyOf(w.c.handles[0]) in w.s.records
  {
    var a0 := Connect(true, Negotiated);
    var a1 := Call([], [New(Module, [], 0, false, true, WORKING, Delivered)]);
    var a2 := Call([0], [New(Kernel, [0], 0, false, true, WORKING, Delivered)]);
    var a3 := Call([0], [Drop(0, [], STUCK, Delivered)]);
    var m := Handle(Module, true, 1, Tag(1, 1), Plain);
    var k := Handle(Kernel, true, 1, Tag(1, 1), Entry(Tag(1, 1)));
    var w0 := World(Client(1, 2, []), FRESH, 1, [], [1]);
    var w1 := World(Client(1, 2, [m]), Put(FRESH, Module, Native), 1, [], [1]);
    var w2 := World(Client(1, 2, [m, k]), Put(w1.s, Kernel, Function(1)), 1, [Sent(1, m.id)], [1]);
    ModuleLoaded(w0, w1, m);
    KernelTaken(w1, w2, m, k);
    UnloadFails(w2, m);
    assert Step(Run([]), a0) == w0;
    hide Step;
    assert UnloadingRun() == [a0, a1, a2, a3];
    assert [a0, a1, a2, a3][..3] == [a0, a1, a2] && [a0, a1, a2][..2] == [a0, a1] && [a0, a1][..1] == [a0] && [a0][..0] == [];
    assert Run([a0]) == w0;
    assert Run([a0, a1]) == w1;
    assert Run([a0, a1, a2]) == w2;
  }

  lemma ModuleLoaded(w0: World, w1: World, m: Handle)
    requires w0 == World(Client(1, 2, []), FRESH, 1, [], [1]) && m == Handle(Module, true, 1, Tag(1, 1), Plain)
    requires w1 == World(Client(1, 2, [m]), Put(FRESH, Module, Native), 1, [], [1])
    ensures Step(w0, Call([], [New(Module, [], 0, false, true, WORKING, Delivered)])) == w1
  {
    var a := New(Module, [], 0, false, true, WORKING, Delivered);
    EmptyRoom(FRESH, Module);
    assert Take(w0.c, []) == [];
    assert Logged(w0, []) == w0;
    assert ServeNew(w0.s, Module, 0, 0, false, WORKING) == (w1.s, Created(1, 0));
    assert w0.c.handles + [m] == [m];
    assert Names([], []) == [];
    assert NewAction(w0, [], Module, 0, false, true, WORKING, Delivered) == (w1, true);
    assert Acts(w0, [], [a]) == Acts(w1, [], [a][1..]);
  }

  lemma KernelTaken(w1: World, w2: World, m: Handle, k: Handle)
    requires m == Handle(Module, true, 1, Tag(1, 1), Plain) && k == Handle(Kernel, true, 1, Tag(1, 1), Entry(Tag(1, 1)))
    requires w1 == World(Client(1, 2, [m]), Put(FRESH, Module, Native), 1, [], [1])
    requires w2 == World(Client(1, 2, [m, k]), Put(w1.s, Kernel, Function(1)), 1, [Sent(1, m.id)], [1])
    ensures Step(w1, Call([0], [New(Kernel, [0], 0, false, true, WORKING, Delivered)])) == w2
  {
    var a := New(Kernel, [0], 0, false, true, WORKING, Delivered);
    EmptyRoom(w1.s, Kernel);
    var ts := [Taken(0, m)];
    assert Take(w1.c, [0]) == ts;
    assert [0][1..] == [];
    assert Names(ts, [0]) == ts + Names(ts, []);
    assert Names(ts, [0]) == ts;
    var w := w1.(log := [Sent(1, m.id)]);
    assert Logged(w1, ts) == w;
    assert ServeNew(w.s, Kernel, 1, 0, false, WORKING) == (w2.s, Created(1, 0));
    assert w.c.handles + [k] == [m, k];
    assert NewAction(w, ts, Kernel, 0, false, true, WORKING, Delivered) == (w2, true);
    assert Acts(w1, ts, [a]) == Acts(w2, ts, [a][1..]);
  }

  lemma UnloadFails(w2: World, m: Handle)
    requires m == Handle(Module, true, 1, Tag(1, 1), Plain) && w2.c.gen == 1 && |w2.c.handles| == 2 && w2.c.handles[0] == m
    requires w2.s == Put(Put(FRESH, Module, Native), Kernel, Function(1))
    ensures
      var w3 := Step(w2, Call([0], [Drop(0, [], STUCK, Delivered)]));
      w3.c == w2.c && Key(Kernel, 1) !in w3.s.records && Key(Module, 1) in w3.s.records
  {
    var a := Drop(0, [], STUCK, Delivered);
    var ts := [Taken(0, m)];
    assert Take(w2.c, [0]) == ts;
    assert Names(ts, []) == [];
    assert !Act(w2, ts, a).1;
    assert Acts(w2, ts, [a]) == Act(w2, ts, a).0;
  }

  // ---------------------------------------------------------------------
  // The loops over the handle table
  // ---------------------------------------------------------------------

  /** The failure loop kills the handles of one generation and touches no other. */
  method FailLoop(handles: array<Handle>, gen: nat, ghost nextGen: nat)
    modifies handles
    ensures handles[..] == Failed(Client(gen, nextGen, old(handles[..]))).handles
  {
    for i := 0 to handles.Length
      invariant forall j :: 0 <= j < i ==>
                  handles[j] == if old(handles[j]).gen == gen then Dead(old(handles[j])) else old(handles[j])
      invariant forall j :: i <= j < handles.Length ==> handles[j] == old(handles[j])
    {
      if handles[i].gen == gen {
        handles[i] := Dead(handles[i]);
      }
    }
  }

  /** The unload loops kill the module's kernels and variables, then the module. */
  method UnloadLoop(handles: array<Handle>, gen: nat, i: nat, n: nat, ghost nextGen: nat)
    requires i < handles.Length
    modifies handles
    ensures handles[..] == KilledModule(Client(gen, nextGen, old(handles[..])), i, n).handles
  {
    ghost var c := Client(gen, nextGen, handles[..]);
    for j := 0 to handles.Length
      invariant forall k :: 0 <= k < j ==>
                  handles[k] == if Unloaded(c, c.handles[k], n) then Dead(c.handles[k]) else c.handles[k]
      invariant forall k :: j <= k < handles.Length ==> handles[k] == c.handles[k]
    {
      var h := handles[j];
      if (h.kind == Kernel && h.info.Entry? && h.info.owner.n == n)
         || (h.kind == Memory && h.info.Span? && h.gen == gen && h.info.parent.n == n) {
        handles[j] := Dead(h);
      }
    }
    handles[i] := Dead(handles[i]);
  }
}
