/** A printer for metadata records, so that the parser is the inverse of something written down. */
module MetadataPrinter {
  import opened Bytes
  import opened Wire
  import opened MsgPack
  import opened Metadata

  // ---------------------------------------------------------------------
  // Keys
  // ---------------------------------------------------------------------

  lemma AsciiKeeps(s: string, size: nat)
    requires |s| < size && forall i :: 0 <= i < |s| ==> 0 < s[i] as int < 256
    ensures Cut(Ascii(s), size) == Ascii(s)
  {
    CutKeeps(Ascii(s), size);
  }

  lemma ArgKeys()
    ensures ArgFieldOf(Ascii(".name")) == AName
    ensures ArgFieldOf(Ascii(".offset")) == AOffset
    ensures ArgFieldOf(Ascii(".size")) == ASize
    ensures ArgFieldOf(Ascii(".value_kind")) == AKind
    ensures ArgFieldOf(Ascii(".address_space")) == ASpace
  {
    AsciiKeeps(".name", 64);
    AsciiKeeps(".offset", 64);
    AsciiKeeps(".size", 64);
    AsciiKeeps(".value_kind", 64);
    AsciiKeeps(".address_space", 64);
    assert Ascii(".name")[1] != Ascii(".size")[1];
    hide Cut;
  }

  lemma AlignKey()
    ensures KernelFieldOf(Ascii(".kernarg_segment_align")) == KAlign
  {
    hide Cut;
    AsciiKeeps(".kernarg_segment_align", 96);
  }

  lemma SizeKey()
    ensures KernelFieldOf(Ascii(".kernarg_segment_size")) == KSize
  {
    hide Cut;
    AsciiKeeps(".kernarg_segment_size", 96);
  }

  lemma NameKeys()
    ensures KernelFieldOf(Ascii(".name")) == KName && KernelFieldOf(Ascii(".args")) == KArgs
  {
    hide Cut;
    AsciiKeeps(".name", 96);
    AsciiKeeps(".args", 96);
    assert Ascii(".name")[1] != Ascii(".args")[1];
  }

  lemma OtherKeys()
    ensures KernelFieldOf(Ascii(".symbol")) == KSymbol && KernelFieldOf(Ascii(".warp_size")) == KWarp
  {
    hide Cut;
    AsciiKeeps(".symbol", 96);
    AsciiKeeps(".warp_size", 96);
  }

  lemma RootKeys()
    ensures RootFieldOf(Ascii("iluvatar.kernels")) == RKernels
    ensures RootFieldOf(Ascii("iluvatar.version")) == RVersion
  {
    AsciiKeeps("iluvatar.kernels", 96);
    AsciiKeeps("iluvatar.version", 96);
    assert Ascii("iluvatar.kernels")[9] != Ascii("iluvatar.version")[9];
    hide Cut;
  }

  // ---------------------------------------------------------------------
  // Records that fit their C structures
  // ---------------------------------------------------------------------

  predicate TextFits(s: seq<byte>, size: nat) { |s| < size && 0 !in s }

  predicate ArgFits(a: Arg)
  {
    && TextFits(a.name, 64) && TextFits(a.valueKind, 32) && TextFits(a.addressSpace, 32)
    && a.offset < TWO32 && a.size < TWO32
  }

  predicate KernelFits(k: Kernel)
  {
    && TextFits(k.name, 128) && TextFits(k.symbol, 128)
    && k.align < TWO32 && k.size < TWO32 && k.warp < TWO32
    && |k.args| <= MAX_ARGS && forall i :: 0 <= i < |k.args| ==> ArgFits(k.args[i])
  }

  predicate ModuleFits(m: Module)
  {
    && m.major < TWO32 && m.minor < TWO32
    && |m.kernels| <= MAX_KERNELS && forall i :: 0 <= i < |m.kernels| ==> KernelFits(m.kernels[i])
  }

  // ---------------------------------------------------------------------
  // Printing
  // ---------------------------------------------------------------------

  function Text(s: seq<byte>): Tree { Str(4, s) }
  function Word(v: nat): Tree { Scalar(0xce, Big(4, v)) }
  function Pair(key: string, v: Tree, rest: Forest): Forest { Cons(Text(Ascii(key)), Cons(v, rest)) }

  function PrintArg(a: Arg): Tree
  {
    Map(4, Pair(".address_space", Text(a.addressSpace), Pair(".name", Text(a.name), Pair(".offset", Word(a.offset),
           Pair(".size", Word(a.size), Pair(".value_kind", Text(a.valueKind), Nil))))))
  }

  function PrintArgs(args: seq<Arg>): (f: Forest)
    ensures Len(f) == |args|
  {
    if args == [] then Nil else Cons(PrintArg(args[0]), PrintArgs(args[1..]))
  }

  function PrintKernel(k: Kernel): Tree
  {
    Map(4, Pair(".args", Arr(4, PrintArgs(k.args)), Pair(".kernarg_segment_align", Word(k.align),
           Pair(".kernarg_segment_size", Word(k.size), Pair(".name", Text(k.name), Pair(".symbol", Text(k.symbol),
           Pair(".warp_size", Word(k.warp), Nil)))))))
  }

  function PrintKernels(ks: seq<Kernel>): (f: Forest)
    ensures Len(f) == |ks|
  {
    if ks == [] then Nil else Cons(PrintKernel(ks[0]), PrintKernels(ks[1..]))
  }

  function PrintModule(m: Module): Tree
  {
    Map(4, Pair("iluvatar.kernels", Arr(4, PrintKernels(m.kernels)),
           Pair("iluvatar.version", Arr(4, Cons(Word(m.major), Cons(Word(m.minor), Nil))), Nil)))
  }

  lemma WordPrints(v: nat)
    requires v < TWO32
    ensures Legal(Word(v)) && IsUint(Word(v), v)
  {
    PowSizes();
    BigRoundTrip(4, v);
  }

  lemma TextPrints(s: seq<byte>)
    requires |s| < TWO32
    ensures Legal(Text(s))
  {
    PowSizes();
  }

  lemma PairPrints(key: string, v: Tree, rest: Forest)
    requires |key| < 64 && Legal(v) && AllLegal(rest)
    ensures AllLegal(Pair(key, v, rest)) && Len(Pair(key, v, rest)) == 2 + Len(rest)
  {
    TextPrints(Ascii(key));
  }

  lemma ContainerLegal(f: Forest)
    requires AllLegal(f) && Len(f) < 100
    ensures Legal(Arr(4, f)) && (Len(f) % 2 == 0 ==> Legal(Map(4, f)))
  {
    PowSizes();
  }

  lemma ArgPrinted(a: Arg)
    requires ArgFits(a)
    ensures Legal(PrintArg(a)) && PrintsArg(PrintArg(a), a)
  {
    ArgLegal(a);
    ArgPairsPrinted(a);
  }

  lemma ArgLegal(a: Arg)
    requires ArgFits(a)
    ensures Legal(PrintArg(a))
  {
    hide Legal, Pair, Word, Text, Ascii;
    WordPrints(a.offset);
    WordPrints(a.size);
    TextPrints(a.addressSpace);
    TextPrints(a.name);
    TextPrints(a.valueKind);
    var f1 := Pair(".value_kind", Text(a.valueKind), Nil);
    PairPrints(".value_kind", Text(a.valueKind), Nil);
    var f2 := Pair(".size", Word(a.size), f1);
    PairPrints(".size", Word(a.size), f1);
    var f3 := Pair(".offset", Word(a.offset), f2);
    PairPrints(".offset", Word(a.offset), f2);
    var f4 := Pair(".name", Text(a.name), f3);
    PairPrints(".name", Text(a.name), f3);
    PairPrints(".address_space", Text(a.addressSpace), f4);
    ContainerLegal(Pair(".address_space", Text(a.addressSpace), f4));
  }

  lemma ArgPairsPrinted(a: Arg)
    requires ArgFits(a)
    ensures PrintsArg(PrintArg(a), a)
  {
    hide ArgFieldOf, Ascii, IsUint, Cut, Word;
    ArgKeys();
    WordPrints(a.offset);
    WordPrints(a.size);
    CutKeeps(a.name, 64);
    CutKeeps(a.valueKind, 32);
    CutKeeps(a.addressSpace, 32);
    var f1 := Pair(".value_kind", Text(a.valueKind), Nil);
    var f2 := Pair(".size", Word(a.size), f1);
    var f3 := Pair(".offset", Word(a.offset), f2);
    var f4 := Pair(".name", Text(a.name), f3);
    var f5 := Pair(".address_space", Text(a.addressSpace), f4);
    assert PrintsArgPairs(f1, a) && HasArgField(f1, AKind);
    assert PrintsArgPairs(f2, a) && HasArgField(f2, ASize) && HasArgField(f2, AKind);
    assert PrintsArgPairs(f3, a) && HasArgField(f3, AOffset) && HasArgField(f3, ASize) && HasArgField(f3, AKind);
    assert PrintsArgPairs(f4, a) && HasArgField(f4, AName) && HasArgField(f4, AOffset) && HasArgField(f4, ASize) && HasArgField(f4, AKind);
    assert PrintsArgPairs(f5, a) && HasArgField(f5, ASpace);
  }

  lemma {:induction false} ArgsPrinted(args: seq<Arg>)
    requires forall i :: 0 <= i < |args| ==> ArgFits(args[i])
    ensures AllLegal(PrintArgs(args)) && PrintsArgs(PrintArgs(args), args)
  {
    hide Legal, PrintArg, PrintsArg, ArgFits;
    if args != [] {
      ArgPrinted(args[0]);
      ArgsPrinted(args[1..]);
    }
  }

  lemma KernelLegal(k: Kernel)
    requires KernelFits(k)
    ensures Legal(PrintKernel(k))
  {
    hide Legal, Pair, Word, Text, Ascii, ArgFits, PrintArgs, PrintsArgs;
    WordPrints(k.align);
    WordPrints(k.size);
    WordPrints(k.warp);
    TextPrints(k.name);
    TextPrints(k.symbol);
    ArgsPrinted(k.args);
    ContainerLegal(PrintArgs(k.args));
    var f1 := Pair(".warp_size", Word(k.warp), Nil);
    PairPrints(".warp_size", Word(k.warp), Nil);
    var f2 := Pair(".symbol", Text(k.symbol), f1);
    PairPrints(".symbol", Text(k.symbol), f1);
    var f3 := Pair(".name", Text(k.name), f2);
    PairPrints(".name", Text(k.name), f2);
    var f4 := Pair(".kernarg_segment_size", Word(k.size), f3);
    PairPrints(".kernarg_segment_size", Word(k.size), f3);
    var f5 := Pair(".kernarg_segment_align", Word(k.align), f4);
    PairPrints(".kernarg_segment_align", Word(k.align), f4);
    PairPrints(".args", Arr(4, PrintArgs(k.args)), f5);
    ContainerLegal(Pair(".args", Arr(4, PrintArgs(k.args)), f5));
  }

  lemma KernelPairsPrinted(k: Kernel)
    requires KernelFits(k)
    ensures PrintsKernel(PrintKernel(k), k)
  {
    hide KernelFieldOf, Ascii, IsUint, Cut, Word, PrintArgs, PrintsArgs, ArgFits;
    AlignKey();
    SizeKey();
    NameKeys();
    OtherKeys();
    WordPrints(k.align);
    WordPrints(k.size);
    WordPrints(k.warp);
    CutKeeps(k.name, 128);
    CutKeeps(k.symbol, 128);
    ArgsPrinted(k.args);
    var f1 := Pair(".warp_size", Word(k.warp), Nil);
    var f2 := Pair(".symbol", Text(k.symbol), f1);
    var f3 := Pair(".name", Text(k.name), f2);
    var f4 := Pair(".kernarg_segment_size", Word(k.size), f3);
    var f5 := Pair(".kernarg_segment_align", Word(k.align), f4);
    var f6 := Pair(".args", Arr(4, PrintArgs(k.args)), f5);
    assert PrintsKernelPairs(f1, k) && HasKernelField(f1, KWarp);
    assert PrintsKernelPairs(f2, k) && HasKernelField(f2, KWarp) && HasKernelField(f2, KSymbol);
    assert PrintsKernelPairs(f3, k) && HasKernelField(f3, KWarp) && HasKernelField(f3, KSymbol) && HasKernelField(f3, KName);
    assert PrintsKernelPairs(f4, k) && HasKernelField(f4, KWarp) && HasKernelField(f4, KSymbol) && HasKernelField(f4, KName)
           && HasKernelField(f4, KSize);
    assert PrintsKernelPairs(f5, k) && HasKernelField(f5, KWarp) && HasKernelField(f5, KSymbol) && HasKernelField(f5, KName)
           && HasKernelField(f5, KSize) && HasKernelField(f5, KAlign);
    assert PrintsKernelPairs(f6, k) && HasKernelField(f6, KArgs);
  }

  lemma {:induction false} KernelsPrinted(ks: seq<Kernel>)
    requires forall i :: 0 <= i < |ks| ==> KernelFits(ks[i])
    ensures AllLegal(PrintKernels(ks)) && PrintsKernels(PrintKernels(ks), ks)
  {
    hide Legal, PrintKernel, PrintsKernel, KernelFits;
    if ks != [] {
      KernelLegal(ks[0]);
      KernelPairsPrinted(ks[0]);
      KernelsPrinted(ks[1..]);
    }
  }

  lemma ModulePrinted(m: Module)
    requires ModuleFits(m)
    ensures Legal(PrintModule(m)) && PrintsModule(PrintModule(m), m)
  {
    hide Legal, RootFieldOf, Ascii, IsUint, Word, Text, PrintKernels, PrintsKernels, KernelFits;
    RootKeys();
    WordPrints(m.major);
    WordPrints(m.minor);
    KernelsPrinted(m.kernels);
    ContainerLegal(PrintKernels(m.kernels));
    var version := Cons(Word(m.major), Cons(Word(m.minor), Nil));
    assert Len(Nil) == 0 && Len(version.tail) == 1 && Len(version) == 2;
    ContainerLegal(version);
    var f1 := Pair("iluvatar.version", Arr(4, version), Nil);
    PairPrints("iluvatar.version", Arr(4, version), Nil);
    var f2 := Pair("iluvatar.kernels", Arr(4, PrintKernels(m.kernels)), f1);
    PairPrints("iluvatar.kernels", Arr(4, PrintKernels(m.kernels)), f1);
    ContainerLegal(f2);
    RootPairsPrinted(m);
  }

  lemma RootPairsPrinted(m: Module)
    requires ModuleFits(m)
    ensures PrintsModule(PrintModule(m), m)
  {
    hide RootFieldOf, Ascii, IsUint, Word, PrintKernels, PrintsKernels, KernelFits;
    RootKeys();
    WordPrints(m.major);
    WordPrints(m.minor);
    KernelsPrinted(m.kernels);
    var f1 := Pair("iluvatar.version", Arr(4, Cons(Word(m.major), Cons(Word(m.minor), Nil))), Nil);
    assert PrintsRootPairs(f1, m) && HasRootField(f1, RVersion);
    var f2 := Pair("iluvatar.kernels", Arr(4, PrintKernels(m.kernels)), f1);
    assert PrintsRootPairs(f2, m) && HasRootField(f2, RKernels) && HasRootField(f2, RVersion);
  }

  /** Every module record that fits the C structures survives printing and parsing. */
  lemma ParseInvertsPrinter(m: Module)
    requires ModuleFits(m)
    ensures Legal(PrintModule(m)) && ParseRoot(Encode(PrintModule(m))) == Some(m)
  {
    hide Legal, PrintModule, Encode, ParseRoot, PrintsModule, ModuleFits;
    ModulePrinted(m);
    ParseInvertsPrint(PrintModule(m), m, []);
  }
}
