/**
 Kernel metadata: module, kernel and argument records read from a MessagePack map,
 keys in any order, unknown keys skipped.
 */
module Metadata {
  import opened Bytes
  import opened Wire
  import opened MsgPack

  const MAX_KERNELS: nat := 32
  const MAX_ARGS: nat := 32

  function Ascii(s: string): seq<byte>
  {
    seq(|s|, i requires 0 <= i < |s| => if s[i] as int < 256 then s[i] as int else 0)
  }

  /** A string as C code sees it after copying it into a buffer of `size` bytes: cut to fit, and up to the first zero. */
  function Cut(text: seq<byte>, size: nat): seq<byte>
  {
    BeforeZero(if |text| >= size && size > 0 then text[..size - 1] else text)
  }

  function BeforeZero(s: seq<byte>): seq<byte>
  {
    if s == [] || s[0] == 0 then [] else [s[0]] + BeforeZero(s[1..])
  }

  /** Text without a zero byte that fits its buffer is kept as it is. */
  lemma CutKeeps(text: seq<byte>, size: nat)
    requires |text| < size && 0 !in text
    ensures Cut(text, size) == text
  {
    BeforeZeroKeeps(text);
  }

  lemma {:induction false} BeforeZeroKeeps(s: seq<byte>)
    requires 0 !in s
    ensures BeforeZero(s) == s
  {
    if s != [] {
      BeforeZeroKeeps(s[1..]);
    }
  }

  // ---------------------------------------------------------------------
  // Records
  // ---------------------------------------------------------------------

  datatype Arg = Arg(name: seq<byte>, offset: nat, size: nat, valueKind: seq<byte>, addressSpace: seq<byte>)

  datatype Kernel = Kernel(name: seq<byte>, symbol: seq<byte>, align: nat, size: nat, warp: nat, args: seq<Arg>)

  datatype Module = Module(major: nat, minor: nat, kernels: seq<Kernel>)

  const NO_ARG := Arg([], 0, 0, [], [])
  const NO_KERNEL := Kernel([], [], 0, 0, 0, [])
  const NO_MODULE := Module(0, 0, [])

  datatype ArgKind = GlobalBuffer | ByValue | UnknownKind

  function KindOf(a: Arg): ArgKind
  {
    if a.valueKind == Ascii("global_buffer") then GlobalBuffer
    else if a.valueKind == Ascii("by_value") then ByValue
    else UnknownKind
  }

  // ---------------------------------------------------------------------
  // Arguments
  // ---------------------------------------------------------------------

  datatype ArgField = AName | AOffset | ASize | AKind | ASpace | AOther

  function ArgFieldOf(key: seq<byte>): ArgField
  {
    var k := Cut(key, 64);
    if k == Ascii(".name") then AName
    else if k == Ascii(".offset") then AOffset
    else if k == Ascii(".size") then ASize
    else if k == Ascii(".value_kind") then AKind
    else if k == Ascii(".address_space") then ASpace
    else AOther
  }

  /** The value of one field, stored into the record, and the position after it. */
  function ArgValue(s: seq<byte>, pos: nat, f: ArgField, a: Arg): (r: Option<(Arg, nat)>)
    ensures r.Some? ==> pos < r.value.1 <= |s|
  {
    match f
    case AName => Store(TextAt(s, pos), (t: seq<byte>) => a.(name := Cut(t, 64)))
    case AOffset => Store(Word32(UintAt(s, pos)), (v: nat) => a.(offset := v))
    case ASize => Store(Word32(UintAt(s, pos)), (v: nat) => a.(size := v))
    case AKind => Store(TextAt(s, pos), (t: seq<byte>) => a.(valueKind := Cut(t, 32)))
    case ASpace => Store(TextAt(s, pos), (t: seq<byte>) => a.(addressSpace := Cut(t, 32)))
    case AOther => Skipped(Skip(s, pos), a)
  }

  function Store<T, R>(r: Option<(T, nat)>, f: T -> R): Option<(R, nat)>
  {
    if r.None? then None else Some((f(r.value.0), r.value.1))
  }

  function Skipped<R>(p: Option<nat>, a: R): Option<(R, nat)>
  {
    if p.None? then None else Some((a, p.value))
  }

  /** Offsets and sizes above 32 bits are refused. */
  function Word32(r: Option<(nat, nat)>): Option<(nat, nat)>
  {
    if r.Some? && r.value.0 >= TWO32 then None else r
  }

  function ArgFields(s: seq<byte>, pos: nat, n: nat, a: Arg): (r: Option<(Arg, nat)>)
    requires pos <= |s|
    ensures r.Some? ==> pos <= r.value.1 <= |s|
    decreases n
  {
    if n == 0 then Some((a, pos))
    else
      match TextAt(s, pos)
      case None => None
      case Some((key, p)) =>
        match ArgValue(s, p, ArgFieldOf(key), a)
        case None => None
        case Some((a', q)) => ArgFields(s, q, n - 1, a')
  }

  function ParseArg(s: seq<byte>, pos: nat): (r: Option<(Arg, nat)>)
    ensures r.Some? ==> pos < r.value.1 <= |s|
  {
    match MapLenAt(s, pos)
    case None => None
    case Some((n, p)) => ArgFields(s, p, n, NO_ARG)
  }

  // ---------------------------------------------------------------------
  // Printed arguments
  // ---------------------------------------------------------------------

  /** `value` prints field `f` of `a`; under an unknown key anything may stand that can be skipped. */
  predicate PrintsArgField(f: ArgField, value: Tree, a: Arg)
  {
    match f
    case AName => value.Str? && Cut(value.text, 64) == a.name
    case AOffset => a.offset < TWO32 && IsUint(value, a.offset)
    case ASize => a.size < TWO32 && IsUint(value, a.size)
    case AKind => value.Str? && Cut(value.text, 32) == a.valueKind
    case ASpace => value.Str? && Cut(value.text, 32) == a.addressSpace
    case AOther => Narrow(value)
  }

  /** Keys and values in turn, in any order. */
  predicate PrintsArgPairs(f: Forest, a: Arg)
  {
    match f
    case Nil => true
    case Cons(_, Nil) => false
    case Cons(k, Cons(v, rest)) => k.Str? && PrintsArgField(ArgFieldOf(k.text), v, a) && PrintsArgPairs(rest, a)
  }

  predicate HasArgField(f: Forest, x: ArgField)
  {
    match f
    case Nil => false
    case Cons(_, Nil) => false
    case Cons(k, Cons(_, rest)) => (k.Str? && ArgFieldOf(k.text) == x) || HasArgField(rest, x)
  }

  /** A map that prints an argument: every field that is not at its default is there. */
  predicate PrintsArg(t: Tree, a: Arg)
  {
    && t.Map? && PrintsArgPairs(t.pairs, a)
    && (a.name == [] || HasArgField(t.pairs, AName))
    && (a.offset == 0 || HasArgField(t.pairs, AOffset))
    && (a.size == 0 || HasArgField(t.pairs, ASize))
    && (a.valueKind == [] || HasArgField(t.pairs, AKind))
    && (a.addressSpace == [] || HasArgField(t.pairs, ASpace))
  }

  /** `a` with field `x` taken from `b`. */
  function WithArgField(a: Arg, x: ArgField, b: Arg): Arg
  {
    match x
    case AName => a.(name := b.name)
    case AOffset => a.(offset := b.offset)
    case ASize => a.(size := b.size)
    case AKind => a.(valueKind := b.valueKind)
    case ASpace => a.(addressSpace := b.addressSpace)
    case AOther => a
  }

  lemma ArgValueRead(f: ArgField, v: Tree, a: Arg, acc: Arg, s: seq<byte>, pos: nat)
    requires Legal(v) && PrintsArgField(f, v, a) && Stands(s, pos, Encode(v))
    ensures ArgValue(s, pos, f, acc) == Some((WithArgField(acc, f, a), pos + |Encode(v)|))
  {
    hide Encode, Stands, TextAt, UintAt, Skip, Cut;
    match f
    case AName => TextRead(v.width, v.text, s, pos);
    case AOffset => UintRead(v, a.offset, s, pos);
    case ASize => UintRead(v, a.size, s, pos);
    case AKind => TextRead(v.width, v.text, s, pos);
    case ASpace => TextRead(v.width, v.text, s, pos);
    case AOther => SkipExact(v, s, pos);
  }

  /** `r` is `acc` with the fields named in the pairs taken from `a`. */
  predicate ArgMerged(f: Forest, acc: Arg, a: Arg, r: Arg)
  {
    && r.name == (if HasArgField(f, AName) then a.name else acc.name)
    && r.offset == (if HasArgField(f, AOffset) then a.offset else acc.offset)
    && r.size == (if HasArgField(f, ASize) then a.size else acc.size)
    && r.valueKind == (if HasArgField(f, AKind) then a.valueKind else acc.valueKind)
    && r.addressSpace == (if HasArgField(f, ASpace) then a.addressSpace else acc.addressSpace)
  }

  lemma {:induction false} ArgFieldsRead(f: Forest, a: Arg, acc: Arg, s: seq<byte>, pos: nat) returns (r: Arg)
    requires AllLegal(f) && PrintsArgPairs(f, a) && Stands(s, pos, EncodeAll(f))
    ensures Len(f) % 2 == 0 && pos + |EncodeAll(f)| <= |s|
    ensures ArgFields(s, pos, Len(f) / 2, acc) == Some((r, pos + |EncodeAll(f)|))
    ensures ArgMerged(f, acc, a, r)
    decreases f
  {
    hide Encode, EncodeAll, Stands, TextAt, ArgValue, ArgFieldOf, Legal, AllLegal, PrintsArgField;
    NothingStands(s, pos);
    if f == Nil {
      r := acc;
    } else {
      var k, v, rest := f.head, f.tail.head, f.tail.tail;
      PairStands(f, s, pos);
      var p := pos + |Encode(k)|;
      var q := p + |Encode(v)|;
      var x := ArgFieldOf(k.text);
      TextRead(k.width, k.text, s, pos);
      ArgValueRead(x, v, a, acc, s, p);
      r := ArgFieldsRead(rest, a, WithArgField(acc, x, a), s, q);
      ArgFieldsStep(s, pos, Len(rest) / 2, acc, k.text, p, WithArgField(acc, x, a), q);
      ArgMergedStep(f, acc, a, r);
      hide ArgFields, ArgMerged, WithArgField, HasArgField;
    }
  }

  lemma ArgMergedStep(f: Forest, acc: Arg, a: Arg, r: Arg)
    requires f.Cons? && f.tail.Cons? && f.head.Str?
    requires ArgMerged(f.tail.tail, WithArgField(acc, ArgFieldOf(f.head.text), a), a, r)
    ensures ArgMerged(f, acc, a, r)
  {
    hide ArgFieldOf;
  }

  /** Starting from defaults, a map that prints `a` merges into `a`. */
  lemma ArgMergedAll(t: Tree, a: Arg, r: Arg)
    requires PrintsArg(t, a) && ArgMerged(t.pairs, NO_ARG, a, r)
    ensures r == a
  {
    hide HasArgField, PrintsArgPairs;
  }

  /** One turn of the loop. */
  lemma ArgFieldsStep(s: seq<byte>, pos: nat, n: nat, acc: Arg, key: seq<byte>, p: nat, acc': Arg, q: nat)
    requires pos <= |s| && TextAt(s, pos) == Some((key, p)) && ArgValue(s, p, ArgFieldOf(key), acc) == Some((acc', q))
    ensures q <= |s| && ArgFields(s, pos, n + 1, acc) == ArgFields(s, q, n, acc')
  {
    hide TextAt, ArgValue, ArgFieldOf;
  }

  lemma NothingStands(s: seq<byte>, pos: nat)
    ensures EncodeAll(Nil) == [] && (forall f :: AllLegal(f) && Stands(s, pos, EncodeAll(f)) ==> pos + |EncodeAll(f)| <= |s|)
  {
  }

  /** Where the parts of a key-value pair and the rest of the map stand. */
  lemma PairStands(f: Forest, s: seq<byte>, pos: nat)
    requires AllLegal(f) && f.Cons? && f.tail.Cons? && Stands(s, pos, EncodeAll(f))
    ensures Legal(f.head) && AllLegal(f.tail)
    ensures Legal(f.tail.head) && AllLegal(f.tail.tail)
    ensures
      var e, g := Encode(f.head), Encode(f.tail.head);
      && Stands(s, pos, e) && Stands(s, pos + |e|, g) && Stands(s, pos + |e| + |g|, EncodeAll(f.tail.tail))
      && |EncodeAll(f)| == |e| + |g| + |EncodeAll(f.tail.tail)|
      && pos + |e| + |g| <= |s|
  {
    hide Encode, Legal;
    var e, g := Encode(f.head), Encode(f.tail.head);
    StandsParts(s, pos, e, EncodeAll(f.tail));
    StandsParts(s, pos + |e|, g, EncodeAll(f.tail.tail));
  }

  lemma MapOpens(t: Tree, s: seq<byte>, pos: nat)
    requires t.Map? && Legal(t) && Stands(s, pos, Encode(t))
    ensures AllLegal(t.pairs) && MapLenAt(s, pos) == Some((Len(t.pairs) / 2, pos + 1 + t.width))
    ensures Stands(s, pos + 1 + t.width, EncodeAll(t.pairs)) && |Encode(t)| == 1 + t.width + |EncodeAll(t.pairs)|
  {
    MapBody(t.width, t.pairs, s, pos);
    CountRead(t.width, Len(t.pairs) / 2, s, pos, 0x80, 0xde, 0xdf);
    hide Encode, EncodeAll, Stands, CountAt, HeadAt;
  }

  lemma ParseArgRead(t: Tree, a: Arg, s: seq<byte>, pos: nat)
    requires Legal(t) && PrintsArg(t, a) && Stands(s, pos, Encode(t))
    ensures ParseArg(s, pos) == Some((a, pos + |Encode(t)|))
  {
    hide Encode, EncodeAll, Stands, MapLenAt, ArgFields, Legal, AllLegal, HasArgField, PrintsArgPairs, ArgMerged;
    MapOpens(t, s, pos);
    var r := ArgFieldsRead(t.pairs, a, NO_ARG, s, pos + 1 + t.width);
    ArgMergedAll(t, a, r);
  }

  // ---------------------------------------------------------------------
  // Kernels
  // ---------------------------------------------------------------------

  datatype KernelField = KName | KSymbol | KAlign | KSize | KWarp | KArgs | KOther

  function KernelFieldOf(key: seq<byte>): KernelField
  {
    var k := Cut(key, 96);
    if k == Ascii(".name") then KName
    else if k == Ascii(".symbol") then KSymbol
    else if k == Ascii(".kernarg_segment_align") then KAlign
    else if k == Ascii(".kernarg_segment_size") then KSize
    else if k == Ascii(".warp_size") then KWarp
    else if k == Ascii(".args") then KArgs
    else KOther
  }

  function ArgsAt(s: seq<byte>, pos: nat, n: nat): (r: Option<(seq<Arg>, nat)>)
    requires pos <= |s|
    ensures r.Some? ==> pos <= r.value.1 <= |s|
    decreases n
  {
    if n == 0 then Some(([], pos))
    else
      match ParseArg(s, pos)
      case None => None
      case Some((a, p)) =>
        match ArgsAt(s, p, n - 1)
        case None => None
        case Some((rest, q)) => Some(([a] + rest, q))
  }

  function ArgArray(s: seq<byte>, pos: nat): (r: Option<(seq<Arg>, nat)>)
    ensures r.Some? ==> pos < r.value.1 <= |s|
  {
    match ArrayLenAt(s, pos)
    case None => None
    case Some((n, p)) => if n > MAX_ARGS then None else ArgsAt(s, p, n)
  }

  /** Alignments and sizes are cut to 32 bits without a check. */
  function KernelValue(s: seq<byte>, pos: nat, f: KernelField, k: Kernel): (r: Option<(Kernel, nat)>)
    ensures r.Some? ==> pos < r.value.1 <= |s|
  {
    match f
    case KName => Store(TextAt(s, pos), (t: seq<byte>) => k.(name := Cut(t, 128)))
    case KSymbol => Store(TextAt(s, pos), (t: seq<byte>) => k.(symbol := Cut(t, 128)))
    case KAlign => Store(UintAt(s, pos), (v: nat) => k.(align := v % TWO32))
    case KSize => Store(UintAt(s, pos), (v: nat) => k.(size := v % TWO32))
    case KWarp => Store(UintAt(s, pos), (v: nat) => k.(warp := v % TWO32))
    case KArgs => Store(ArgArray(s, pos), (xs: seq<Arg>) => k.(args := xs))
    case KOther => Skipped(Skip(s, pos), k)
  }

  function KernelFields(s: seq<byte>, pos: nat, n: nat, k: Kernel): (r: Option<(Kernel, nat)>)
    requires pos <= |s|
    ensures r.Some? ==> pos <= r.value.1 <= |s|
    decreases n
  {
    if n == 0 then Some((k, pos))
    else
      match TextAt(s, pos)
      case None => None
      case Some((key, p)) =>
        match KernelValue(s, p, KernelFieldOf(key), k)
        case None => None
        case Some((k', q)) => KernelFields(s, q, n - 1, k')
  }

  function ParseKernel(s: seq<byte>, pos: nat): (r: Option<(Kernel, nat)>)
    ensures r.Some? ==> pos < r.value.1 <= |s|
  {
    match MapLenAt(s, pos)
    case None => None
    case Some((n, p)) => KernelFields(s, p, n, NO_KERNEL)
  }

  predicate PrintsArgs(f: Forest, args: seq<Arg>)
  {
    match f
    case Nil => args == []
    case Cons(t, rest) => args != [] && PrintsArg(t, args[0]) && PrintsArgs(rest, args[1..])
  }

  predicate PrintsKernelField(f: KernelField, value: Tree, k: Kernel)
  {
    match f
    case KName => value.Str? && Cut(value.text, 128) == k.name
    case KSymbol => value.Str? && Cut(value.text, 128) == k.symbol
    case KAlign => k.align < TWO32 && IsUint(value, k.align)
    case KSize => k.size < TWO32 && IsUint(value, k.size)
    case KWarp => k.warp < TWO32 && IsUint(value, k.warp)
    case KArgs => value.Arr? && |k.args| <= MAX_ARGS && PrintsArgs(value.items, k.args)
    case KOther => Narrow(value)
  }

  predicate PrintsKernelPairs(f: Forest, k: Kernel)
  {
    match f
    case Nil => true
    case Cons(_, Nil) => false
    case Cons(x, Cons(v, rest)) => x.Str? && PrintsKernelField(KernelFieldOf(x.text), v, k) && PrintsKernelPairs(rest, k)
  }

  predicate HasKernelField(f: Forest, x: KernelField)
  {
    match f
    case Nil => false
    case Cons(_, Nil) => false
    case Cons(k, Cons(_, rest)) => (k.Str? && KernelFieldOf(k.text) == x) || HasKernelField(rest, x)
  }

  predicate PrintsKernel(t: Tree, k: Kernel)
  {
    && t.Map? && PrintsKernelPairs(t.pairs, k)
    && (k.name == [] || HasKernelField(t.pairs, KName))
    && (k.symbol == [] || HasKernelField(t.pairs, KSymbol))
    && (k.align == 0 || HasKernelField(t.pairs, KAlign))
    && (k.size == 0 || HasKernelField(t.pairs, KSize))
    && (k.warp == 0 || HasKernelField(t.pairs, KWarp))
    && (k.args == [] || HasKernelField(t.pairs, KArgs))
  }

  function WithKernelField(k: Kernel, x: KernelField, b: Kernel): Kernel
  {
    match x
    case KName => k.(name := b.name)
    case KSymbol => k.(symbol := b.symbol)
    case KAlign => k.(align := b.align)
    case KSize => k.(size := b.size)
    case KWarp => k.(warp := b.warp)
    case KArgs => k.(args := b.args)
    case KOther => k
  }

  lemma ArrayOpens(t: Tree, s: seq<byte>, pos: nat)
    requires t.Arr? && Legal(t) && Stands(s, pos, Encode(t))
    ensures AllLegal(t.items) && ArrayLenAt(s, pos) == Some((Len(t.items), pos + 1 + t.width))
    ensures Stands(s, pos + 1 + t.width, EncodeAll(t.items)) && |Encode(t)| == 1 + t.width + |EncodeAll(t.items)|
  {
    ArrayBody(t.width, t.items, s, pos);
    var h := Header(t.width, Len(t.items), 0x90, (0, 0xdc, 0xdd));
    StandsParts(s, pos, h, EncodeAll(t.items));
    CountRead(t.width, Len(t.items), s, pos, 0x90, 0xdc, 0xdd);
    hide Encode, EncodeAll, Stands, CountAt, HeadAt;
  }

  /** Where the head and the rest of a list of values stand. */
  lemma HeadStands(f: Forest, s: seq<byte>, pos: nat)
    requires AllLegal(f) && f.Cons? && Stands(s, pos, EncodeAll(f))
    ensures Legal(f.head) && AllLegal(f.tail) && Stands(s, pos, Encode(f.head))
    ensures Stands(s, pos + |Encode(f.head)|, EncodeAll(f.tail)) && pos + |Encode(f.head)| <= |s|
    ensures |EncodeAll(f)| == |Encode(f.head)| + |EncodeAll(f.tail)|
  {
    hide Encode, Legal;
    StandsParts(s, pos, Encode(f.head), EncodeAll(f.tail));
  }

  lemma {:induction false} ArgsRead(f: Forest, args: seq<Arg>, s: seq<byte>, pos: nat)
    requires AllLegal(f) && PrintsArgs(f, args) && pos <= |s| && Stands(s, pos, EncodeAll(f))
    ensures Len(f) == |args| && ArgsAt(s, pos, |args|) == Some((args, pos + |EncodeAll(f)|))
    decreases f
  {
    hide Encode, EncodeAll, Stands, Legal, AllLegal, ParseArg, PrintsArg;
    NothingStands(s, pos);
    if f.Cons? {
      HeadStands(f, s, pos);
      ParseArgRead(f.head, args[0], s, pos);
      ArgsRead(f.tail, args[1..], s, pos + |Encode(f.head)|);
      assert [args[0]] + args[1..] == args;
    }
  }

  lemma ArgArrayRead(t: Tree, args: seq<Arg>, s: seq<byte>, pos: nat)
    requires t.Arr? && Legal(t) && |args| <= MAX_ARGS && PrintsArgs(t.items, args) && Stands(s, pos, Encode(t))
    ensures ArgArray(s, pos) == Some((args, pos + |Encode(t)|))
  {
    hide Encode, EncodeAll, Stands, Legal, AllLegal, ArrayLenAt, ArgsAt, PrintsArgs;
    ArrayOpens(t, s, pos);
    ArgsRead(t.items, args, s, pos + 1 + t.width);
  }

  lemma KernelValueRead(f: KernelField, v: Tree, k: Kernel, acc: Kernel, s: seq<byte>, pos: nat)
    requires Legal(v) && PrintsKernelField(f, v, k) && Stands(s, pos, Encode(v))
    ensures KernelValue(s, pos, f, acc) == Some((WithKernelField(acc, f, k), pos + |Encode(v)|))
  {
    hide Encode, Stands, TextAt, UintAt, Skip, Cut, ArgArray, PrintsArgs, Legal, Narrow, IsUint;
    match f
    case KName => TextRead(v.width, v.text, s, pos);
    case KSymbol => TextRead(v.width, v.text, s, pos);
    case KAlign => UintRead(v, k.align, s, pos);
    case KSize => UintRead(v, k.size, s, pos);
    case KWarp => UintRead(v, k.warp, s, pos);
    case KArgs => ArgArrayRead(v, k.args, s, pos);
    case KOther => SkipExact(v, s, pos);
  }

  predicate KernelMerged(f: Forest, acc: Kernel, k: Kernel, r: Kernel)
  {
    && r.name == (if HasKernelField(f, KName) then k.name else acc.name)
    && r.symbol == (if HasKernelField(f, KSymbol) then k.symbol else acc.symbol)
    && r.align == (if HasKernelField(f, KAlign) then k.align else acc.align)
    && r.size == (if HasKernelField(f, KSize) then k.size else acc.size)
    && r.warp == (if HasKernelField(f, KWarp) then k.warp else acc.warp)
    && r.args == (if HasKernelField(f, KArgs) then k.args else acc.args)
  }

  lemma KernelMergedStep(f: Forest, acc: Kernel, k: Kernel, r: Kernel)
    requires f.Cons? && f.tail.Cons? && f.head.Str?
    requires KernelMerged(f.tail.tail, WithKernelField(acc, KernelFieldOf(f.head.text), k), k, r)
    ensures KernelMerged(f, acc, k, r)
  {
    hide KernelFieldOf;
  }

  lemma KernelMergedAll(t: Tree, k: Kernel, r: Kernel)
    requires PrintsKernel(t, k) && KernelMerged(t.pairs, NO_KERNEL, k, r)
    ensures r == k
  {
    hide HasKernelField, PrintsKernelPairs;
  }

  lemma KernelFieldsStep(s: seq<byte>, pos: nat, n: nat, acc: Kernel, key: seq<byte>, p: nat, acc': Kernel, q: nat)
    requires pos <= |s| && TextAt(s, pos) == Some((key, p)) && KernelValue(s, p, KernelFieldOf(key), acc) == Some((acc', q))
    ensures q <= |s| && KernelFields(s, pos, n + 1, acc) == KernelFields(s, q, n, acc')
  {
    hide TextAt, KernelValue, KernelFieldOf;
  }

  lemma {:induction false} KernelFieldsRead(f: Forest, k: Kernel, acc: Kernel, s: seq<byte>, pos: nat) returns (r: Kernel)
    requires AllLegal(f) && PrintsKernelPairs(f, k) && Stands(s, pos, EncodeAll(f))
    ensures Len(f) % 2 == 0 && pos + |EncodeAll(f)| <= |s|
    ensures KernelFields(s, pos, Len(f) / 2, acc) == Some((r, pos + |EncodeAll(f)|))
    ensures KernelMerged(f, acc, k, r)
    decreases f
  {
    hide Encode, EncodeAll, Stands, TextAt, KernelValue, KernelFieldOf, Legal, AllLegal, PrintsKernelField;
    NothingStands(s, pos);
    if f == Nil {
      r := acc;
    } else {
      var x, v, rest := f.head, f.tail.head, f.tail.tail;
      PairStands(f, s, pos);
      var p := pos + |Encode(x)|;
      var q := p + |Encode(v)|;
      var field := KernelFieldOf(x.text);
      TextRead(x.width, x.text, s, pos);
      KernelValueRead(field, v, k, acc, s, p);
      r := KernelFieldsRead(rest, k, WithKernelField(acc, field, k), s, q);
      KernelFieldsStep(s, pos, Len(rest) / 2, acc, x.text, p, WithKernelField(acc, field, k), q);
      KernelMergedStep(f, acc, k, r);
      hide KernelFields, KernelMerged, WithKernelField, HasKernelField;
    }
  }

  lemma ParseKernelRead(t: Tree, k: Kernel, s: seq<byte>, pos: nat)
    requires Legal(t) && PrintsKernel(t, k) && Stands(s, pos, Encode(t))
    ensures ParseKernel(s, pos) == Some((k, pos + |Encode(t)|))
  {
    hide Encode, EncodeAll, Stands, MapLenAt, KernelFields, Legal, AllLegal, HasKernelField, PrintsKernelPairs, KernelMerged;
    MapOpens(t, s, pos);
    var r := KernelFieldsRead(t.pairs, k, NO_KERNEL, s, pos + 1 + t.width);
    KernelMergedAll(t, k, r);
  }

  // ---------------------------------------------------------------------
  // Modules
  // ---------------------------------------------------------------------

  datatype RootField = RKernels | RVersion | ROther

  function RootFieldOf(key: seq<byte>): RootField
  {
    var k := Cut(key, 96);
    if k == Ascii("iluvatar.kernels") then RKernels
    else if k == Ascii("iluvatar.version") then RVersion
    else ROther
  }

  function KernelsAt(s: seq<byte>, pos: nat, n: nat): (r: Option<(seq<Kernel>, nat)>)
    requires pos <= |s|
    ensures r.Some? ==> pos <= r.value.1 <= |s|
    decreases n
  {
    if n == 0 then Some(([], pos))
    else
      match ParseKernel(s, pos)
      case None => None
      case Some((k, p)) =>
        match KernelsAt(s, p, n - 1)
        case None => None
        case Some((rest, q)) => Some(([k] + rest, q))
  }

  function KernelArray(s: seq<byte>, pos: nat): (r: Option<(seq<Kernel>, nat)>)
    ensures r.Some? ==> pos < r.value.1 <= |s|
  {
    match ArrayLenAt(s, pos)
    case None => None
    case Some((n, p)) => if n > MAX_KERNELS then None else KernelsAt(s, p, n)
  }

  function UintsAt(s: seq<byte>, pos: nat, n: nat): (r: Option<(seq<nat>, nat)>)
    requires pos <= |s|
    ensures r.Some? ==> pos <= r.value.1 <= |s| && |r.value.0| == n
    decreases n
  {
    if n == 0 then Some(([], pos))
    else
      match UintAt(s, pos)
      case None => None
      case Some((v, p)) =>
        match UintsAt(s, p, n - 1)
        case None => None
        case Some((rest, q)) => Some(([v] + rest, q))
  }

  function UintArray(s: seq<byte>, pos: nat): (r: Option<(seq<nat>, nat)>)
    ensures r.Some? ==> pos < r.value.1 <= |s|
  {
    match ArrayLenAt(s, pos)
    case None => None
    case Some((n, p)) => UintsAt(s, p, n)
  }

  /** The first two numbers are the version; more are read and dropped. */
  function Versioned(m: Module, vs: seq<nat>): Module
  {
    m.(major := if |vs| > 0 then vs[0] % TWO32 else m.major, minor := if |vs| > 1 then vs[1] % TWO32 else m.minor)
  }

  function RootValue(s: seq<byte>, pos: nat, f: RootField, m: Module): (r: Option<(Module, nat)>)
    ensures r.Some? ==> pos < r.value.1 <= |s|
  {
    match f
    case RKernels => Store(KernelArray(s, pos), (ks: seq<Kernel>) => m.(kernels := ks))
    case RVersion => Store(UintArray(s, pos), (vs: seq<nat>) => Versioned(m, vs))
    case ROther => Skipped(Skip(s, pos), m)
  }

  function RootFields(s: seq<byte>, pos: nat, n: nat, m: Module): (r: Option<(Module, nat)>)
    requires pos <= |s|
    ensures r.Some? ==> pos <= r.value.1 <= |s|
    decreases n
  {
    if n == 0 then Some((m, pos))
    else
      match TextAt(s, pos)
      case None => None
      case Some((key, p)) =>
        match RootValue(s, p, RootFieldOf(key), m)
        case None => None
        case Some((m', q)) => RootFields(s, q, n - 1, m')
  }

  /** The whole input is one map; anything after it is refused. */
  function ParseRoot(s: seq<byte>): Option<Module>
  {
    match MapLenAt(s, 0)
    case None => None
    case Some((n, p)) =>
      match RootFields(s, p, n, NO_MODULE)
      case None => None
      case Some((m, q)) => if q == |s| then Some(m) else None
  }

  predicate PrintsKernels(f: Forest, ks: seq<Kernel>)
  {
    match f
    case Nil => ks == []
    case Cons(t, rest) => ks != [] && PrintsKernel(t, ks[0]) && PrintsKernels(rest, ks[1..])
  }

  predicate PrintsUints(f: Forest, vs: seq<nat>)
  {
    match f
    case Nil => vs == []
    case Cons(t, rest) => vs != [] && IsUint(t, vs[0]) && PrintsUints(rest, vs[1..])
  }

  predicate PrintsVersion(t: Tree, m: Module)
  {
    && t.Arr? && m.major < TWO32 && m.minor < TWO32
    && match t.items
       case Cons(a, Cons(b, Nil)) => IsUint(a, m.major) && IsUint(b, m.minor)
       case _ => false
  }

  predicate PrintsRootField(f: RootField, value: Tree, m: Module)
  {
    match f
    case RKernels => value.Arr? && |m.kernels| <= MAX_KERNELS && PrintsKernels(value.items, m.kernels)
    case RVersion => PrintsVersion(value, m)
    case ROther => Narrow(value)
  }

  predicate PrintsRootPairs(f: Forest, m: Module)
  {
    match f
    case Nil => true
    case Cons(_, Nil) => false
    case Cons(x, Cons(v, rest)) => x.Str? && PrintsRootField(RootFieldOf(x.text), v, m) && PrintsRootPairs(rest, m)
  }

  predicate HasRootField(f: Forest, x: RootField)
  {
    match f
    case Nil => false
    case Cons(_, Nil) => false
    case Cons(k, Cons(_, rest)) => (k.Str? && RootFieldOf(k.text) == x) || HasRootField(rest, x)
  }

  /** A map that prints a module. */
  predicate PrintsModule(t: Tree, m: Module)
  {
    && t.Map? && PrintsRootPairs(t.pairs, m)
    && (m.kernels == [] || HasRootField(t.pairs, RKernels))
    && ((m.major == 0 && m.minor == 0) || HasRootField(t.pairs, RVersion))
  }

  function WithRootField(m: Module, x: RootField, b: Module): Module
  {
    match x
    case RKernels => m.(kernels := b.kernels)
    case RVersion => m.(major := b.major, minor := b.minor)
    case ROther => m
  }

  lemma {:induction false} KernelsRead(f: Forest, ks: seq<Kernel>, s: seq<byte>, pos: nat)
    requires AllLegal(f) && PrintsKernels(f, ks) && pos <= |s| && Stands(s, pos, EncodeAll(f))
    ensures Len(f) == |ks| && KernelsAt(s, pos, |ks|) == Some((ks, pos + |EncodeAll(f)|))
    decreases f
  {
    hide Encode, EncodeAll, Stands, Legal, AllLegal, ParseKernel, PrintsKernel;
    NothingStands(s, pos);
    if f.Cons? {
      HeadStands(f, s, pos);
      ParseKernelRead(f.head, ks[0], s, pos);
      KernelsRead(f.tail, ks[1..], s, pos + |Encode(f.head)|);
      assert [ks[0]] + ks[1..] == ks;
    }
  }

  lemma KernelArrayRead(t: Tree, ks: seq<Kernel>, s: seq<byte>, pos: nat)
    requires t.Arr? && Legal(t) && |ks| <= MAX_KERNELS && PrintsKernels(t.items, ks) && Stands(s, pos, Encode(t))
    ensures KernelArray(s, pos) == Some((ks, pos + |Encode(t)|))
  {
    hide Encode, EncodeAll, Stands, Legal, AllLegal, ArrayLenAt, KernelsAt, PrintsKernels;
    ArrayOpens(t, s, pos);
    KernelsRead(t.items, ks, s, pos + 1 + t.width);
  }

  lemma {:induction false} UintsRead(f: Forest, vs: seq<nat>, s: seq<byte>, pos: nat)
    requires AllLegal(f) && PrintsUints(f, vs) && pos <= |s| && Stands(s, pos, EncodeAll(f))
    ensures Len(f) == |vs| && UintsAt(s, pos, |vs|) == Some((vs, pos + |EncodeAll(f)|))
    decreases f
  {
    hide Encode, EncodeAll, Stands, Legal, AllLegal, UintAt, IsUint;
    NothingStands(s, pos);
    if f.Cons? {
      HeadStands(f, s, pos);
      UintRead(f.head, vs[0], s, pos);
      UintsRead(f.tail, vs[1..], s, pos + |Encode(f.head)|);
      assert [vs[0]] + vs[1..] == vs;
    }
  }

  lemma VersionRead(t: Tree, m: Module, s: seq<byte>, pos: nat)
    requires Legal(t) && PrintsVersion(t, m) && Stands(s, pos, Encode(t))
    ensures UintArray(s, pos) == Some(([m.major, m.minor], pos + |Encode(t)|))
  {
    hide Encode, EncodeAll, Stands, Legal, AllLegal, ArrayLenAt, UintsAt, IsUint;
    var vs := [m.major, m.minor];
    assert vs[1..] == [m.minor] && [m.minor][1..] == [];
    assert PrintsUints(t.items.tail, [m.minor]);
    assert PrintsUints(t.items, vs);
    ArrayOpens(t, s, pos);
    UintsRead(t.items, vs, s, pos + 1 + t.width);
  }

  lemma RootValueRead(f: RootField, v: Tree, m: Module, acc: Module, s: seq<byte>, pos: nat)
    requires Legal(v) && PrintsRootField(f, v, m) && Stands(s, pos, Encode(v))
    ensures RootValue(s, pos, f, acc) == Some((WithRootField(acc, f, m), pos + |Encode(v)|))
  {
    hide Encode, Stands, Skip, KernelArray, UintArray, PrintsKernels, Legal, Narrow, IsUint;
    match f
    case RKernels => KernelArrayRead(v, m.kernels, s, pos);
    case RVersion => VersionRead(v, m, s, pos);
    case ROther => SkipExact(v, s, pos);
  }

  predicate RootMerged(f: Forest, acc: Module, m: Module, r: Module)
  {
    && r.kernels == (if HasRootField(f, RKernels) then m.kernels else acc.kernels)
    && r.major == (if HasRootField(f, RVersion) then m.major else acc.major)
    && r.minor == (if HasRootField(f, RVersion) then m.minor else acc.minor)
  }

  lemma RootMergedStep(f: Forest, acc: Module, m: Module, r: Module)
    requires f.Cons? && f.tail.Cons? && f.head.Str?
    requires RootMerged(f.tail.tail, WithRootField(acc, RootFieldOf(f.head.text), m), m, r)
    ensures RootMerged(f, acc, m, r)
  {
    hide RootFieldOf;
  }

  lemma RootFieldsStep(s: seq<byte>, pos: nat, n: nat, acc: Module, key: seq<byte>, p: nat, acc': Module, q: nat)
    requires pos <= |s| && TextAt(s, pos) == Some((key, p)) && RootValue(s, p, RootFieldOf(key), acc) == Some((acc', q))
    ensures q <= |s| && RootFields(s, pos, n + 1, acc) == RootFields(s, q, n, acc')
  {
    hide TextAt, RootValue, RootFieldOf;
  }

  lemma {:induction false} RootFieldsRead(f: Forest, m: Module, acc: Module, s: seq<byte>, pos: nat) returns (r: Module)
    requires AllLegal(f) && PrintsRootPairs(f, m) && Stands(s, pos, EncodeAll(f))
    ensures Len(f) % 2 == 0 && pos + |EncodeAll(f)| <= |s|
    ensures RootFields(s, pos, Len(f) / 2, acc) == Some((r, pos + |EncodeAll(f)|))
    ensures RootMerged(f, acc, m, r)
    decreases f
  {
    hide Encode, EncodeAll, Stands, TextAt, RootValue, RootFieldOf, Legal, AllLegal, PrintsRootField;
    NothingStands(s, pos);
    if f == Nil {
      r := acc;
    } else {
      var x, v, rest := f.head, f.tail.head, f.tail.tail;
      PairStands(f, s, pos);
      var p := pos + |Encode(x)|;
      var q := p + |Encode(v)|;
      var field := RootFieldOf(x.text);
      TextRead(x.width, x.text, s, pos);
      RootValueRead(field, v, m, acc, s, p);
      r := RootFieldsRead(rest, m, WithRootField(acc, field, m), s, q);
      RootFieldsStep(s, pos, Len(rest) / 2, acc, x.text, p, WithRootField(acc, field, m), q);
      RootMergedStep(f, acc, m, r);
      hide RootFields, RootMerged, WithRootField, HasRootField;
    }
  }

  /**
   Any printing of a module record parses back to it: fields in any order, any
   legal widths, unknown keys in between. Bytes after it are refused.
   */
  lemma ParseInvertsPrint(t: Tree, m: Module, extra: seq<byte>)
    requires Legal(t) && PrintsModule(t, m)
    ensures ParseRoot(Encode(t)) == Some(m)
    ensures extra != [] ==> ParseRoot(Encode(t) + extra) == None
  {
    ParsePrinted(t, m, []);
    ParsePrinted(t, m, extra);
    assert Encode(t) + [] == Encode(t);
  }

  lemma ParsePrinted(t: Tree, m: Module, extra: seq<byte>)
    requires Legal(t) && PrintsModule(t, m)
    ensures ParseRoot(Encode(t) + extra) == if extra == [] then Some(m) else None
  {
    hide Encode, EncodeAll, MapLenAt, RootFields, Legal, AllLegal, HasRootField, PrintsRootPairs;
    var s := Encode(t) + extra;
    assert s[0..0 + |Encode(t)|] == Encode(t);
    assert Stands(s, 0, Encode(t));
    hide Stands;
    MapOpens(t, s, 0);
    var r := RootFieldsRead(t.pairs, m, NO_MODULE, s, 1 + t.width);
    assert r == m;
  }

  // ---------------------------------------------------------------------
  // The loops
  // ---------------------------------------------------------------------

  method ParseArgLoop(s: seq<byte>, pos: nat) returns (r: Option<(Arg, nat)>)
    ensures r == ParseArg(s, pos)
  {
    hide TextAt, ArgValue, ArgFieldOf, MapLenAt;
    var head := MapLenAt(s, pos);
    if head.None? { return None; }
    var n: nat, p: nat, a := head.value.0, head.value.1, NO_ARG;
    for i := 0 to n
      invariant p <= |s| && ParseArg(s, pos) == ArgFields(s, p, n - i, a)
    {
      var key := TextAt(s, p);
      if key.None? { return None; }
      var value := ArgValue(s, key.value.1, ArgFieldOf(key.value.0), a);
      if value.None? { return None; }
      a, p := value.value.0, value.value.1;
    }
    return Some((a, p));
  }

  method ParseKernelLoop(s: seq<byte>, pos: nat) returns (r: Option<(Kernel, nat)>)
    ensures r == ParseKernel(s, pos)
  {
    hide TextAt, KernelValue, KernelFieldOf, MapLenAt;
    var head := MapLenAt(s, pos);
    if head.None? { return None; }
    var n: nat, p: nat, k := head.value.0, head.value.1, NO_KERNEL;
    for i := 0 to n
      invariant p <= |s| && ParseKernel(s, pos) == KernelFields(s, p, n - i, k)
    {
      var key := TextAt(s, p);
      if key.None? { return None; }
      var value := KernelValue(s, key.value.1, KernelFieldOf(key.value.0), k);
      if value.None? { return None; }
      k, p := value.value.0, value.value.1;
    }
    return Some((k, p));
  }

  method ParseRootLoop(s: seq<byte>) returns (r: Option<Module>)
    ensures r == ParseRoot(s)
  {
    hide TextAt, RootValue, RootFieldOf, MapLenAt;
    var head := MapLenAt(s, 0);
    if head.None? { return None; }
    var n: nat, p: nat, m := head.value.0, head.value.1, NO_MODULE;
    ghost var start := p;
    for i := 0 to n
      invariant p <= |s| && RootFields(s, start, n, NO_MODULE) == RootFields(s, p, n - i, m)
    {
      var key := TextAt(s, p);
      if key.None? { return None; }
      var value := RootValue(s, key.value.1, RootFieldOf(key.value.0), m);
      if value.None? { return None; }
      m, p := value.value.0, value.value.1;
    }
    return if p == |s| then Some(m) else None;
  }
}
