/**
 Kernel launches on the wire. Client and server read the kernel's argument layout
 from the same image metadata; the client turns device pointers into allocation
 numbers and offsets, the server turns those into native addresses.
 */
module Launch {
  import opened Arena
  import opened Bytes
  import opened Metadata
  import Sessions
  import opened Wire

  const MAX_ARGUMENTS: nat := 32
  const MAX_PAYLOAD: nat := 0x400_0000
  const HEADER: nat := 48

  const REMOTE_POINTER: nat := 1
  const INT32: nat := 2
  const UINT64: nat := 3
  const FLOAT32: nat := 4
  const RAW: nat := 5

  // ---------------------------------------------------------------------
  // The layout the client takes from the metadata
  // ---------------------------------------------------------------------

  datatype Slot = Pointer | Value(size: nat)

  /** Argument `a` follows the argument that ended at `prior` and stays inside the segment. */
  predicate LaidOut(a: Arg, first: bool, prior: nat, segment: nat)
  {
    a.size != 0 && a.offset + a.size <= segment && (first || prior <= a.offset)
  }

  function SlotOf(a: Arg): Option<Slot>
  {
    match KindOf(a)
    case GlobalBuffer => if a.size == 8 && a.addressSpace == Ascii("global") then Some(Pointer) else None
    case ByValue => Some(Value(a.size))
    case UnknownKind => None
  }

  function SlotsFrom(args: seq<Arg>, first: bool, prior: nat, segment: nat): Option<seq<Slot>>
  {
    if args == [] then Some([])
    else if !LaidOut(args[0], first, prior, segment) || SlotOf(args[0]).None? then None
    else
      match SlotsFrom(args[1..], false, args[0].offset + args[0].size, segment)
      case None => None
      case Some(rest) => Some([SlotOf(args[0]).value] + rest)
  }

  /** The client's view of a kernel: every argument understood and laid out in order without overlap. */
  function Normalised(k: Kernel): Option<seq<Slot>>
  {
    if |k.args| > MAX_ARGUMENTS then None else SlotsFrom(k.args, true, 0, k.size)
  }

  /** What the client accepts agrees with the metadata argument by argument. */
  predicate SlotAgrees(x: Slot, a: Arg)
  {
    match x
    case Pointer => KindOf(a) == GlobalBuffer && a.size == 8
    case Value(n) => KindOf(a) == ByValue && a.size == n && n != 0
  }

  lemma {:induction false} SlotsAgree(args: seq<Arg>, first: bool, prior: nat, segment: nat)
    requires SlotsFrom(args, first, prior, segment).Some?
    ensures
      var xs := SlotsFrom(args, first, prior, segment).value;
      |xs| == |args| && forall i :: 0 <= i < |args| ==> SlotAgrees(xs[i], args[i])
  {
    hide KindOf;
    if args != [] {
      SlotsAgree(args[1..], false, args[0].offset + args[0].size, segment);
    }
  }

  // ---------------------------------------------------------------------
  // Serialising
  // ---------------------------------------------------------------------

  /** What the application passes: a device pointer, or the bytes of a value. */
  datatype Actual = Device(p: nat) | Bytes(bytes: seq<byte>)

  predicate Suits(x: Slot, a: Actual)
  {
    match x
    case Pointer => a.Device?
    case Value(n) => a.Bytes? && |a.bytes| == n
  }

  predicate AllSuit(xs: seq<Slot>, given: seq<Actual>)
  {
    |xs| == |given| && forall i :: 0 <= i < |xs| ==> Suits(xs[i], given[i])
  }

  datatype Call = Call(kernel: u64, stream: u64, grid: seq<u32>, block: seq<u32>, shared: nat, actuals: seq<Actual>)

  predicate Shaped(c: Call) { |c.grid| == 3 && |c.block| == 3 }

  predicate Positive(ws: seq<u32>) { forall i :: 0 <= i < |ws| ==> ws[i] != 0 }

  /** A pointer is usable when one byte can be accessed through it. */
  function ArgBytes(a: Actual, resolve: nat -> Resolved): Option<seq<byte>>
  {
    match a
    case Device(p) =>
      if resolve(p).Resolved? then
        Some(Big(4, REMOTE_POINTER) + Big(4, 16) + Big(8, resolve(p).id) + Big(8, resolve(p).offset))
      else None
    case Bytes(bytes) => Some(Big(4, RAW) + Big(4, |bytes|) + bytes)
  }

  function ArgsBytes(given: seq<Actual>, resolve: nat -> Resolved): Option<seq<byte>>
  {
    if given == [] then Some([])
    else
      match ArgBytes(given[0], resolve)
      case None => None
      case Some(e) =>
        match ArgsBytes(given[1..], resolve)
        case None => None
        case Some(rest) => Some(e + rest)
  }

  function ArgLength(x: Slot): nat { match x case Pointer => 24 case Value(n) => 8 + n }

  function Length(xs: seq<Slot>): nat { if xs == [] then 0 else ArgLength(xs[0]) + Length(xs[1..]) }

  function HeaderWords(c: Call): seq<u32>
    requires Shaped(c) && c.shared < TWO32 && |c.actuals| < TWO32
  {
    c.grid + c.block + [c.shared, |c.actuals|]
  }

  function HeaderBytes(c: Call): (r: seq<byte>)
    requires Shaped(c) && c.shared < TWO32 && |c.actuals| < TWO32
    ensures |r| == HEADER
  {
    Big(8, c.kernel) + Big(8, c.stream) + Words(HeaderWords(c))
  }

  /** The payload, unless a dimension is zero, shared memory or the total does not fit 32 bits, or a pointer is bad. */
  function Serialise(c: Call, xs: seq<Slot>, resolve: nat -> Resolved): Option<seq<byte>>
    requires Shaped(c) && AllSuit(xs, c.actuals) && |xs| <= MAX_ARGUMENTS
  {
    if !Positive(c.grid) || !Positive(c.block) || c.shared >= TWO32 then None
    else if HEADER + Length(xs) >= TWO32 then None
    else
      match ArgsBytes(c.actuals, resolve)
      case None => None
      case Some(rest) => Some(HeaderBytes(c) + rest)
  }

  // ---------------------------------------------------------------------
  // Decoding
  // ---------------------------------------------------------------------

  datatype Status = BadRequest | NotFound | AbiMismatch

  datatype Outcome<T> = Ok(value: T) | Fail(status: Status)

  /** A native address, the bytes of a value, or a number of one of the older typed forms. */
  datatype Param = Address(a: nat) | Bits(bytes: seq<byte>) | Number(v: nat)

  datatype Native = Native(ptr: nat, size: nat)

  datatype Server = Server(kernels: map<nat, Kernel>, streams: set<nat>, allocs: map<nat, Native>)

  datatype Decoded = Decoded(kernel: nat, stream: nat, grid: seq<u32>, block: seq<u32>, shared: nat, params: seq<Param>)

  /** Wire size of the fixed-size kinds. */
  function WireSize(kind: nat): nat
  {
    if kind == REMOTE_POINTER then 16
    else if kind == INT32 || kind == FLOAT32 then 4
    else if kind == UINT64 then 8
    else 0
  }

  function AbiSize(kind: nat, size: nat): nat { if kind == REMOTE_POINTER then 8 else if kind == RAW then size else WireSize(kind) }

  /** The metadata kind a wire kind stands for. */
  function WantedKind(kind: nat): ArgKind
  {
    if kind == REMOTE_POINTER then GlobalBuffer else if kind == RAW || WireSize(kind) != 0 then ByValue else UnknownKind
  }

  function DecodeArg(srv: Server, meta: Arg, s: seq<byte>, pos: nat): (r: Outcome<(Param, nat)>)
    ensures r.Ok? ==> pos < r.value.1 <= |s|
  {
    if pos + 8 > |s| then Fail(BadRequest)
    else
      var kind, size := Take(s, pos, 4).value, Take(s, pos + 4, 4).value;
      var p := pos + 8;
      if p + size > |s| then Fail(BadRequest)
      else if kind != RAW && (WireSize(kind) == 0 || size != WireSize(kind)) then Fail(BadRequest)
      else if kind == RAW && size == 0 then Fail(BadRequest)
      else if WantedKind(kind) == UnknownKind || KindOf(meta) != WantedKind(kind) || meta.size != AbiSize(kind, size) then
        Fail(AbiMismatch)
      else if kind == REMOTE_POINTER then
        var id, offset := Take(s, p, 8).value, Take(s, p + 8, 8).value;
        if id !in srv.allocs then Fail(NotFound)
        else if offset >= srv.allocs[id].size then Fail(BadRequest)
        else Ok((Address(srv.allocs[id].ptr + offset), p + size))
      else if kind == RAW then Ok((Bits(s[p..p + size]), p + size))
      else Ok((Number(Take(s, p, size).value), p + size))
  }

  function DecodeArgs(srv: Server, metas: seq<Arg>, s: seq<byte>, pos: nat): (r: Outcome<(seq<Param>, nat)>)
    requires pos <= |s|
    ensures r.Ok? ==> pos <= r.value.1 <= |s|
    decreases |metas|
  {
    if metas == [] then Ok(([], pos))
    else
      match DecodeArg(srv, metas[0], s, pos)
      case Fail(e) => Fail(e)
      case Ok((v, p)) =>
        match DecodeArgs(srv, metas[1..], s, p)
        case Fail(e) => Fail(e)
        case Ok((vs, q)) => Ok(([v] + vs, q))
  }

  function HeaderWord(s: seq<byte>, i: nat): u32
    requires |s| >= HEADER && i < 8
  {
    PowSizes();
    FromBigRoundTrip(s[16 + 4 * i..20 + 4 * i]);
    FromBig(s[16 + 4 * i..20 + 4 * i])
  }

  function Decode(srv: Server, s: seq<byte>): Outcome<Decoded>
  {
    if |s| < HEADER then Fail(BadRequest)
    else
      var kernel, stream, argc := Take(s, 0, 8).value, Take(s, 8, 8).value, HeaderWord(s, 7);
      if argc > MAX_ARGUMENTS then Fail(BadRequest)
      else if kernel !in srv.kernels then Fail(NotFound)
      else if argc != |srv.kernels[kernel].args| then Fail(AbiMismatch)
      else if stream != 0 && stream !in srv.streams then Fail(NotFound)
      else
        match DecodeArgs(srv, srv.kernels[kernel].args, s, HEADER)
        case Fail(e) => Fail(e)
        case Ok((params, p)) =>
          if p != |s| then Fail(BadRequest)
          else
            var grid := [HeaderWord(s, 0), HeaderWord(s, 1), HeaderWord(s, 2)];
            var block := [HeaderWord(s, 3), HeaderWord(s, 4), HeaderWord(s, 5)];
            if !Positive(grid) || !Positive(block) then Fail(BadRequest)
            else Ok(Decoded(kernel, stream, grid, block, HeaderWord(s, 6), params))
  }

  // ---------------------------------------------------------------------
  // Agreement
  // ---------------------------------------------------------------------

  /** The tables agree: what the client can resolve, the server knows under the same number and size. */
  ghost predicate Agree(m: map<nat, Alloc>, srv: Server)
  {
    forall b :: b in m ==> m[b].id < TWO64 && m[b].size < TWO64 && m[b].id in srv.allocs && srv.allocs[m[b].id].size == m[b].size
  }

  ghost predicate ResolvesAll(m: map<nat, Alloc>, resolve: nat -> Resolved)
  {
    forall p: nat :: Resolves(m, p, 1, resolve(p))
  }

  /** The argument the kernel must see: device pointers moved from the client's address range to the native one. */
  ghost predicate Translated(m: map<nat, Alloc>, srv: Server, a: Actual, v: Param)
  {
    match a
    case Bytes(bytes) => v == Bits(bytes)
    case Device(p) =>
      exists b: nat :: Holds(m, b, p) && m[b].id in srv.allocs && p < b + m[b].size && v == Address(srv.allocs[m[b].id].ptr + (p - b))
  }

  ghost predicate AllTranslated(m: map<nat, Alloc>, srv: Server, given: seq<Actual>, vs: seq<Param>)
  {
    |given| == |vs| && forall i :: 0 <= i < |given| ==> Translated(m, srv, given[i], vs[i])
  }

  lemma PointerRead(srv: Server, meta: Arg, id: nat, offset: nat, s: seq<byte>, pos: nat)
    requires SlotAgrees(Pointer, meta) && id < TWO64 && offset < TWO64 && id in srv.allocs && offset < srv.allocs[id].size
    requires Stands(s, pos, Big(4, REMOTE_POINTER) + Big(4, 16) + Big(8, id) + Big(8, offset))
    ensures DecodeArg(srv, meta, s, pos) == Ok((Address(srv.allocs[id].ptr + offset), pos + 24))
  {
    hide KindOf, FromBig, Big, Pow;
    PowSizes();
    StandsParts(s, pos, Big(4, REMOTE_POINTER) + Big(4, 16) + Big(8, id), Big(8, offset));
    StandsParts(s, pos, Big(4, REMOTE_POINTER) + Big(4, 16), Big(8, id));
    StandsParts(s, pos, Big(4, REMOTE_POINTER), Big(4, 16));
    StandsNumber(s, pos, 4, REMOTE_POINTER);
    StandsNumber(s, pos + 4, 4, 16);
    StandsNumber(s, pos + 8, 8, id);
    StandsNumber(s, pos + 16, 8, offset);
    hide Take;
  }

  lemma ValueRead(srv: Server, meta: Arg, bytes: seq<byte>, s: seq<byte>, pos: nat)
    requires SlotAgrees(Value(|bytes|), meta) && |bytes| < TWO32
    requires Stands(s, pos, Big(4, RAW) + Big(4, |bytes|) + bytes)
    ensures DecodeArg(srv, meta, s, pos) == Ok((Bits(bytes), pos + 8 + |bytes|))
  {
    hide KindOf, FromBig, Big, Pow, Take;
    PowSizes();
    StandsParts(s, pos, Big(4, RAW) + Big(4, |bytes|), bytes);
    StandsParts(s, pos, Big(4, RAW), Big(4, |bytes|));
    StandsNumber(s, pos, 4, RAW);
    StandsNumber(s, pos + 4, 4, |bytes|);
    assert pos + 8 + |bytes| <= |s| && s[pos + 8..pos + 8 + |bytes|] == bytes;
    hide Stands;
  }

  /** One argument arrives translated. */
  lemma ArgRead(m: map<nat, Alloc>, srv: Server, resolve: nat -> Resolved, meta: Arg, x: Slot, a: Actual, s: seq<byte>, pos: nat)
    returns (v: Param)
    requires Agree(m, srv) && ResolvesAll(m, resolve) && SlotAgrees(x, meta) && Suits(x, a) && ArgLength(x) < TWO32
    requires ArgBytes(a, resolve).Some? && Stands(s, pos, ArgBytes(a, resolve).value)
    ensures |ArgBytes(a, resolve).value| == ArgLength(x)
    ensures DecodeArg(srv, meta, s, pos) == Ok((v, pos + ArgLength(x))) && Translated(m, srv, a, v)
  {
    hide DecodeArg, KindOf, Stands;
    match a
    case Bytes(bytes) =>
      v := Bits(bytes);
      ValueRead(srv, meta, bytes, s, pos);
    case Device(p) =>
      var r := resolve(p);
      assert Resolves(m, p, 1, r);
      var b: nat :| Holds(m, b, p) && m[b].base == b && r == Answer(m[b], p, 1);
      v := Address(srv.allocs[r.id].ptr + r.offset);
      PointerRead(srv, meta, r.id, r.offset, s, pos);
  }

  lemma {:induction false} ArgsRead(m: map<nat, Alloc>, srv: Server, resolve: nat -> Resolved, metas: seq<Arg>, xs: seq<Slot>,
                                    given: seq<Actual>, s: seq<byte>, pos: nat)
    returns (vs: seq<Param>)
    requires Agree(m, srv) && ResolvesAll(m, resolve) && Length(xs) < TWO32 && pos <= |s|
    requires |metas| == |xs| && AllSuit(xs, given) && forall i :: 0 <= i < |xs| ==> SlotAgrees(xs[i], metas[i])
    requires ArgsBytes(given, resolve).Some? && Stands(s, pos, ArgsBytes(given, resolve).value)
    ensures |ArgsBytes(given, resolve).value| == Length(xs)
    ensures DecodeArgs(srv, metas, s, pos) == Ok((vs, pos + Length(xs))) && AllTranslated(m, srv, given, vs)
    decreases |xs|
  {
    hide Agree, ResolvesAll, DecodeArg, ArgBytes, SlotAgrees, Suits, Translated, Stands, ArgLength;
    if xs == [] {
      vs := [];
    } else {
      var e, rest := ArgBytes(given[0], resolve).value, ArgsBytes(given[1..], resolve).value;
      StandsParts(s, pos, e, rest);
      var v := ArgRead(m, srv, resolve, metas[0], xs[0], given[0], s, pos);
      var ws := ArgsRead(m, srv, resolve, metas[1..], xs[1..], given[1..], s, pos + |e|);
      vs := [v] + ws;
    }
  }

  lemma HeaderRead(c: Call, rest: seq<byte>)
    requires Shaped(c) && c.shared < TWO32 && |c.actuals| < TWO32
    ensures
      var s := HeaderBytes(c) + rest;
      && Take(s, 0, 8) == Some(c.kernel) && Take(s, 8, 8) == Some(c.stream)
      && forall i: nat :: i < 8 ==> HeaderWord(s, i) == HeaderWords(c)[i]
  {
    PowSizes();
    var s := HeaderBytes(c) + rest;
    var k, t, w := Big(8, c.kernel), Big(8, c.stream), Words(HeaderWords(c));
    assert s == [] + k + (t + w + rest) && s == k + t + (w + rest);
    TakeWritten([], 8, c.kernel, t + w + rest);
    TakeWritten(k, 8, c.stream, w + rest);
    forall i: nat | i < 8 ensures HeaderWord(s, i) == HeaderWords(c)[i] {
      WordsAt(HeaderWords(c), i);
      assert s[16 + 4 * i..20 + 4 * i] == w[4 * i..4 * i + 4];
    }
  }

  /**
   Whatever the client serialises, the server decodes: same kernel, stream and
   dimensions, the same value bytes, and each device pointer at the same distance
   from the native base as from the client's.
   */
  lemma LaunchArrives(c: Call, m: map<nat, Alloc>, srv: Server, resolve: nat -> Resolved) returns (params: seq<Param>)
    requires Shaped(c) && Agree(m, srv) && ResolvesAll(m, resolve)
    requires c.kernel in srv.kernels && Normalised(srv.kernels[c.kernel]).Some?
    requires c.stream == 0 || c.stream in srv.streams
    requires AllSuit(Normalised(srv.kernels[c.kernel]).value, c.actuals) && |Normalised(srv.kernels[c.kernel]).value| <= MAX_ARGUMENTS
    requires Serialise(c, Normalised(srv.kernels[c.kernel]).value, resolve).Some?
    ensures
      var payload := Serialise(c, Normalised(srv.kernels[c.kernel]).value, resolve).value;
      && Decode(srv, payload) == Ok(Decoded(c.kernel, c.stream, c.grid, c.block, c.shared, params))
      && |payload| == HEADER + Length(Normalised(srv.kernels[c.kernel]).value)
    ensures AllTranslated(m, srv, c.actuals, params)
  {
    hide Agree, ResolvesAll, DecodeArgs, Translated, HeaderBytes, HeaderWord, Take, SlotsFrom, SlotAgrees, Suits, ArgsBytes;
    var k := srv.kernels[c.kernel];
    var xs := Normalised(k).value;
    SlotsAgree(k.args, true, 0, k.size);
    var rest := ArgsBytes(c.actuals, resolve).value;
    var s := HeaderBytes(c) + rest;
    HeaderRead(c, rest);
    assert s[HEADER..HEADER + |rest|] == rest;
    params := ArgsRead(m, srv, resolve, k.args, xs, c.actuals, s, HEADER);
    hide AllTranslated, Length;
    var ws := HeaderWords(c);
    assert ws[0..3] == c.grid && ws[3..6] == c.block;
    assert [HeaderWord(s, 0), HeaderWord(s, 1), HeaderWord(s, 2)] == c.grid;
    assert [HeaderWord(s, 3), HeaderWord(s, 4), HeaderWord(s, 5)] == c.block;
  }

  // ---------------------------------------------------------------------
  // In every run of client and server
  // ---------------------------------------------------------------------

  predicate Allocates(h: Sessions.Handle, a: Alloc)
  {
    h.live && h.kind == Sessions.Memory && h.info.Span? && h.id.n == a.id && h.info.size == a.size
  }

  /** The address table holds live memory handles of the session, under 64-bit identifiers and sizes. */
  ghost predicate Mirrors(m: map<nat, Alloc>, handles: seq<Sessions.Handle>)
  {
    forall b :: b in m ==>
      m[b].id < TWO64 && m[b].size < TWO64 && exists i :: 0 <= i < |handles| && Allocates(handles[i], m[b])
  }

  /** The launch handler looks its objects up among the session's records. */
  ghost predicate Serves(srv: Server, records: map<Sessions.Key, Sessions.Record>)
  {
    forall k :: k in records ==>
      && (k.kind == Sessions.Memory && records[k].Storage? ==>
            k.n in srv.allocs && srv.allocs[k.n] == Native(records[k].ptr, records[k].size))
      && (k.kind == Sessions.Kernel ==> k.n in srv.kernels)
      && (k.kind == Sessions.Stream ==> k.n in srv.streams)
  }

  /** The agreement launches rest on holds in every run. */
  lemma AgreeInEveryRun(cmds: seq<Sessions.Command>, m: map<nat, Alloc>, srv: Server)
    requires Mirrors(m, Sessions.Run(cmds).c.handles) && Serves(srv, Sessions.Run(cmds).s.records)
    ensures Agree(m, srv)
  {
    hide Sessions.Run;
    var w := Sessions.Run(cmds);
    forall b | b in m
      ensures m[b].id in srv.allocs && srv.allocs[m[b].id].size == m[b].size
    {
      var i: nat :| i < |w.c.handles| && Allocates(w.c.handles[i], m[b]);
      Sessions.TablesAgree(cmds, i);
    }
  }

  /** The launch names a live kernel whose module never failed to unload, and no stream or a live one. */
  ghost predicate Launchable(cmds: seq<Sessions.Command>, c: Call, kernel: nat, stream: nat)
  {
    var cl := Sessions.Run(cmds).c;
    && Sessions.LiveKernel(cl, kernel) && Sessions.NeverOrphaned(cmds, kernel) && c.kernel == cl.handles[kernel].id.n
    && (c.stream == 0 ||
        (stream < |cl.handles| && cl.handles[stream].live && cl.handles[stream].kind == Sessions.Stream
         && c.stream == cl.handles[stream].id.n))
  }

  lemma LaunchFound(cmds: seq<Sessions.Command>, c: Call, kernel: nat, stream: nat, srv: Server)
    requires Launchable(cmds, c, kernel, stream) && Serves(srv, Sessions.Run(cmds).s.records)
    ensures c.kernel in srv.kernels && (c.stream == 0 || c.stream in srv.streams)
  {
    hide Sessions.Run, Sessions.NeverOrphaned;
    Sessions.KernelHasRecord(cmds, kernel);
    if c.stream != 0 { Sessions.TablesAgree(cmds, stream); }
  }

  /**
   In every run, a launch the client serialises from live handles arrives: the server
   finds its kernel and stream and sees every pointer and value the program passed.
   */
  lemma LaunchArrivesInEveryRun(cmds: seq<Sessions.Command>, c: Call, kernel: nat, stream: nat, m: map<nat, Alloc>, srv: Server,
                                resolve: nat -> Resolved)
    returns (params: seq<Param>)
    requires Launchable(cmds, c, kernel, stream) && Shaped(c) && ResolvesAll(m, resolve)
    requires Mirrors(m, Sessions.Run(cmds).c.handles) && Serves(srv, Sessions.Run(cmds).s.records)
    requires c.kernel in srv.kernels ==>
               var xs := Normalised(srv.kernels[c.kernel]);
               xs.Some? && |xs.value| <= MAX_ARGUMENTS && AllSuit(xs.value, c.actuals) && Serialise(c, xs.value, resolve).Some?
    ensures c.kernel in srv.kernels
    ensures Decode(srv, Serialise(c, Normalised(srv.kernels[c.kernel]).value, resolve).value) ==
            Ok(Decoded(c.kernel, c.stream, c.grid, c.block, c.shared, params))
    ensures AllTranslated(m, srv, c.actuals, params)
  {
    hide Sessions.Run, Decode, Serialise, Normalised, ResolvesAll, AllSuit, Agree, Mirrors, Serves, Launchable, AllTranslated;
    LaunchFound(cmds, c, kernel, stream, srv);
    AgreeInEveryRun(cmds, m, srv);
    params := LaunchArrives(c, m, srv, resolve);
  }

  // ---------------------------------------------------------------------
  // When a launch is serialised, and when it is accepted
  // ---------------------------------------------------------------------

  predicate PointersUsable(given: seq<Actual>, resolve: nat -> Resolved)
  {
    forall i :: 0 <= i < |given| && given[i].Device? ==> resolve(given[i].p).Resolved?
  }

  lemma {:induction false} ArgsBytesExact(given: seq<Actual>, resolve: nat -> Resolved)
    ensures ArgsBytes(given, resolve).Some? <==> PointersUsable(given, resolve)
  {
    if given != [] {
      var rest := given[1..];
      ArgsBytesExact(rest, resolve);
      assert PointersUsable(given, resolve) <==> ArgBytes(given[0], resolve).Some? && PointersUsable(rest, resolve) by {
        assert forall i :: 0 <= i < |rest| ==> given[i + 1] == rest[i];
        if ArgBytes(given[0], resolve).Some? && PointersUsable(rest, resolve) {
          forall i | 0 <= i < |given| && given[i].Device? ensures resolve(given[i].p).Resolved? {
            assert i > 0 ==> given[i] == rest[i - 1];
          }
        }
      }
    }
  }

  /** A pointer is usable exactly when it points into a live allocation, not just past its end. */
  lemma UsableExact(m: map<nat, Alloc>, resolve: nat -> Resolved, p: nat)
    requires Resolves(m, p, 1, resolve(p))
    requires forall b: nat, c: nat :: Holds(m, b, p) && Holds(m, c, p) ==> b == c
    requires forall b: nat :: b in m ==> m[b].base == b
    ensures resolve(p).Resolved? <==> exists b: nat :: b in m && b <= p < b + m[b].size
  {
    if b: nat :| b in m && b <= p < b + m[b].size {
      assert Holds(m, b, p);
    }
  }

  /** The client serialises a launch exactly when nothing it checks is wrong. */
  lemma SerialiseExact(c: Call, xs: seq<Slot>, resolve: nat -> Resolved)
    requires Shaped(c) && AllSuit(xs, c.actuals) && |xs| <= MAX_ARGUMENTS
    ensures Serialise(c, xs, resolve).Some? <==>
            && Positive(c.grid) && Positive(c.block) && c.shared < TWO32
            && HEADER + Length(xs) < TWO32 && PointersUsable(c.actuals, resolve)
  {
    ArgsBytesExact(c.actuals, resolve);
  }

  /** The session loop drops longer payloads before anything is decoded. */
  predicate Accepted(srv: Server, payload: seq<byte>) { |payload| <= MAX_PAYLOAD && Decode(srv, payload).Ok? }

  /** Of the launches the client serialises, the server accepts exactly those of at most 64 MiB. */
  lemma AcceptedExactly(c: Call, m: map<nat, Alloc>, srv: Server, resolve: nat -> Resolved)
    requires Shaped(c) && Agree(m, srv) && ResolvesAll(m, resolve)
    requires c.kernel in srv.kernels && Normalised(srv.kernels[c.kernel]).Some?
    requires c.stream == 0 || c.stream in srv.streams
    requires AllSuit(Normalised(srv.kernels[c.kernel]).value, c.actuals) && |Normalised(srv.kernels[c.kernel]).value| <= MAX_ARGUMENTS
    requires Serialise(c, Normalised(srv.kernels[c.kernel]).value, resolve).Some?
    ensures Accepted(srv, Serialise(c, Normalised(srv.kernels[c.kernel]).value, resolve).value) <==>
            HEADER + Length(Normalised(srv.kernels[c.kernel]).value) <= MAX_PAYLOAD
  {
    hide Decode, Serialise, Normalised, Agree, ResolvesAll, AllSuit, Length;
    var params := LaunchArrives(c, m, srv, resolve);
  }

  /** A kernel that takes one 64 MiB structure by value. */
  const LARGE_ARG := Arg([], 0, MAX_PAYLOAD, Ascii("by_value"), [])
  const LARGE_KERNEL := Kernel([], [], 8, MAX_PAYLOAD, 32, [LARGE_ARG])

  /** The client serialises a launch of it, which the server then refuses. */
  lemma LargeValueRefused(bytes: seq<byte>, srv: Server, resolve: nat -> Resolved)
    requires |bytes| == MAX_PAYLOAD && srv.kernels == map[1 := LARGE_KERNEL]
    ensures
      var c := Call(1, 0, [1, 1, 1], [1, 1, 1], 0, [Bytes(bytes)]);
      && Normalised(LARGE_KERNEL) == Some([Value(MAX_PAYLOAD)])
      && Serialise(c, [Value(MAX_PAYLOAD)], resolve).Some?
      && !Accepted(srv, Serialise(c, [Value(MAX_PAYLOAD)], resolve).value)
  {
    var c := Call(1, 0, [1, 1, 1], [1, 1, 1], 0, [Bytes(bytes)]);
    var xs := [Value(MAX_PAYLOAD)];
    LargeNormalised();
    assert xs[1..] == [] && [Bytes(bytes)][1..] == [];
    assert Length(xs) == 8 + MAX_PAYLOAD + Length(xs[1..]);
    hide Big, Words, Decode, HeaderBytes;
    SerialiseExact(c, xs, resolve);
    assert ArgsBytes(c.actuals, resolve).value == Big(4, RAW) + Big(4, |bytes|) + bytes + [];
  }

  lemma LargeNormalised()
    ensures Normalised(LARGE_KERNEL) == Some([Value(MAX_PAYLOAD)])
  {
    assert |Ascii("by_value")| == 8 && |Ascii("global_buffer")| == 13;
    assert KindOf(LARGE_ARG) == ByValue;
    assert [LARGE_ARG][1..] == [];
    assert SlotOf(LARGE_ARG) == Some(Value(MAX_PAYLOAD)) && LaidOut(LARGE_ARG, true, 0, MAX_PAYLOAD);
    assert SlotsFrom([LARGE_ARG][1..], false, MAX_PAYLOAD, MAX_PAYLOAD) == Some([]);
    assert SlotsFrom([LARGE_ARG], true, 0, MAX_PAYLOAD) == Some([Value(MAX_PAYLOAD)] + []);
    assert [Value(MAX_PAYLOAD)] + [] == [Value(MAX_PAYLOAD)];
    assert |LARGE_KERNEL.args| == 1;
  }

  // ---------------------------------------------------------------------
  // The loops
  // ---------------------------------------------------------------------

  ghost function Joined<T>(done: seq<T>, rest: Option<seq<T>>): Option<seq<T>>
  {
    match rest
    case None => None
    case Some(xs) => Some(done + xs)
  }

  /** The client's pass over the metadata. */
  method NormaliseLoop(k: Kernel) returns (r: Option<seq<Slot>>)
    ensures r == Normalised(k)
  {
    if |k.args| > MAX_ARGUMENTS { return None; }
    hide LaidOut, SlotOf;
    var xs: seq<Slot>, prior: nat := [], 0;
    ghost var whole := SlotsFrom(k.args, true, 0, k.size);
    assert k.args[0..] == k.args && (whole.Some? ==> [] + whole.value == whole.value);
    for i := 0 to |k.args|
      invariant whole == Joined(xs, SlotsFrom(k.args[i..], i == 0, prior, k.size))
    {
      var a := k.args[i];
      assert k.args[i..][0] == a && k.args[i..][1..] == k.args[i + 1..];
      if !LaidOut(a, i == 0, prior, k.size) { return None; }
      var x := SlotOf(a);
      if x.None? { return None; }
      ghost var rest := SlotsFrom(k.args[i + 1..], false, a.offset + a.size, k.size);
      assert rest.Some? ==> xs + ([x.value] + rest.value) == (xs + [x.value]) + rest.value;
      xs, prior := xs + [x.value], a.offset + a.size;
    }
    assert k.args[|k.args|..] == [] && xs + [] == xs;
    r := Some(xs);
  }

  /** The client's pass over the arguments. */
  method SerialiseLoop(given: seq<Actual>, resolve: nat -> Resolved) returns (r: Option<seq<byte>>)
    ensures r == ArgsBytes(given, resolve)
  {
    hide ArgBytes;
    var out: seq<byte> := [];
    ghost var whole := ArgsBytes(given, resolve);
    assert given[0..] == given && (whole.Some? ==> [] + whole.value == whole.value);
    for i := 0 to |given|
      invariant whole == Joined(out, ArgsBytes(given[i..], resolve))
    {
      assert given[i..][0] == given[i] && given[i..][1..] == given[i + 1..];
      var e := ArgBytes(given[i], resolve);
      if e.None? { return None; }
      ghost var rest := ArgsBytes(given[i + 1..], resolve);
      assert rest.Some? ==> out + (e.value + rest.value) == (out + e.value) + rest.value;
      out := out + e.value;
    }
    assert given[|given|..] == [] && out + [] == out;
    r := Some(out);
  }

  ghost function JoinedParams(done: seq<Param>, rest: Outcome<(seq<Param>, nat)>): Outcome<(seq<Param>, nat)>
  {
    match rest
    case Fail(e) => Fail(e)
    case Ok((vs, p)) => Ok((done + vs, p))
  }

  /** The server's pass over the arguments. */
  method DecodeLoop(srv: Server, metas: seq<Arg>, s: seq<byte>, start: nat) returns (r: Outcome<(seq<Param>, nat)>)
    requires start <= |s|
    ensures r == DecodeArgs(srv, metas, s, start)
  {
    hide DecodeArg;
    var vs: seq<Param>, pos: nat := [], start;
    ghost var whole := DecodeArgs(srv, metas, s, start);
    assert metas[0..] == metas && (whole.Ok? ==> [] + whole.value.0 == whole.value.0);
    for i := 0 to |metas|
      invariant pos <= |s| && whole == JoinedParams(vs, DecodeArgs(srv, metas[i..], s, pos))
    {
      assert metas[i..][0] == metas[i] && metas[i..][1..] == metas[i + 1..];
      var d := DecodeArg(srv, metas[i], s, pos);
      if d.Fail? { return Fail(d.status); }
      ghost var rest := DecodeArgs(srv, metas[i + 1..], s, d.value.1);
      assert rest.Ok? ==> vs + ([d.value.0] + rest.value.0) == (vs + [d.value.0]) + rest.value.0;
      vs, pos := vs + [d.value.0], d.value.1;
    }
    assert metas[|metas|..] == [] && vs + [] == vs;
    r := Ok((vs, pos));
  }
}
