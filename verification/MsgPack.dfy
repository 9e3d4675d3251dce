/**
 The MessagePack reader used for kernel metadata ("Formats" section of the
 MessagePack specification), without extension types.
 */
module MsgPack {
  import opened Bytes
  import opened Wire

  // ---------------------------------------------------------------------
  // Values in any legal encoding
  // ---------------------------------------------------------------------

  /**
   A value together with the encoding chosen for it. `width` is the number of bytes
   of a length field, 0 when the length is part of the type byte.
   */
  datatype Tree =
    | Simple(c: byte)                            // small integers, nil, booleans
    | Scalar(c: byte, payload: seq<byte>)        // wider integers and floats
    | Str(width: nat, text: seq<byte>)
    | Bin(width: nat, data: seq<byte>)
    | Arr(width: nat, items: Forest)
    | Map(width: nat, pairs: Forest)             // keys and values in turn

  datatype Forest = Nil | Cons(head: Tree, tail: Forest)

  function Len(f: Forest): nat { match f case Nil => 0 case Cons(_, t) => 1 + Len(t) }

  predicate IsSimple(c: byte) { c <= 0x7f || c >= 0xe0 || c == 0xc0 || c == 0xc2 || c == 0xc3 }

  /** Payload size of the fixed-size types. */
  function ScalarSize(c: byte): nat
  {
    if c == 0xcc || c == 0xd0 then 1
    else if c == 0xcd || c == 0xd1 then 2
    else if c == 0xca || c == 0xce || c == 0xd2 then 4
    else if c == 0xcb || c == 0xcf || c == 0xd3 then 8
    else 0
  }

  /** A length of `n` in a field of `width` bytes, or below `small` inside the type byte. */
  predicate LengthFits(width: nat, n: nat, small: nat)
  {
    if width == 0 then n < small else (width == 1 || width == 2 || width == 4) && n < Pow(width)
  }

  /** Containers have no one-byte length. */
  predicate CountFits(width: nat, n: nat) { width != 1 && LengthFits(width, n, 16) }

  predicate Legal(t: Tree)
  {
    match t
    case Simple(c) => IsSimple(c)
    case Scalar(c, p) => ScalarSize(c) > 0 && |p| == ScalarSize(c)
    case Str(w, s) => LengthFits(w, |s|, 32)
    case Bin(w, s) => w != 0 && LengthFits(w, |s|, 0)
    case Arr(w, f) => CountFits(w, Len(f)) && AllLegal(f)
    case Map(w, f) => Len(f) % 2 == 0 && CountFits(w, Len(f) / 2) && AllLegal(f)
  }

  predicate AllLegal(f: Forest) { match f case Nil => true case Cons(t, rest) => Legal(t) && AllLegal(rest) }

  /** Type byte and length field: `fix` carries small lengths, `wide` is the code of the one-byte form. */
  function Header(width: nat, n: nat, fix: nat, codes: (byte, byte, byte)): seq<byte>
    requires fix + n < 256 || width != 0
  {
    if width == 0 then [fix + n]
    else if width == 1 then [codes.0] + Big(1, n)
    else if width == 2 then [codes.1] + Big(2, n)
    else [codes.2] + Big(4, n)
  }

  function Encode(t: Tree): seq<byte>
    requires Legal(t)
  {
    match t
    case Simple(c) => [c]
    case Scalar(c, p) => [c] + p
    case Str(w, s) => Header(w, |s|, 0xa0, (0xd9, 0xda, 0xdb)) + s
    case Bin(w, s) => Header(w, |s|, 0, (0xc4, 0xc5, 0xc6)) + s
    case Arr(w, f) => Header(w, Len(f), 0x90, (0, 0xdc, 0xdd)) + EncodeAll(f)
    case Map(w, f) => Header(w, Len(f) / 2, 0x80, (0, 0xde, 0xdf)) + EncodeAll(f)
  }

  function EncodeAll(f: Forest): seq<byte>
    requires AllLegal(f)
  {
    match f case Nil => [] case Cons(t, rest) => Encode(t) + EncodeAll(rest)
  }

  // ---------------------------------------------------------------------
  // Reading
  // ---------------------------------------------------------------------

  /** What follows a type byte and its length field: plain bytes, or a number of values. */
  datatype Token = Leaf(n: nat) | Group(count: nat)

  /** Width of the length field, 0 for none. */
  function LengthWidth(c: byte): nat
  {
    if c == 0xc4 || c == 0xd9 then 1
    else if c == 0xc5 || c == 0xda || c == 0xdc || c == 0xde then 2
    else if c == 0xc6 || c == 0xdb || c == 0xdd || c == 0xdf then 4
    else 0
  }

  /** Map counts are doubled in 32 bits. */
  function Doubled(n: nat): nat { (2 * n) % TWO32 }

  function TokenOf(c: byte, n: nat): Token
  {
    if c == 0xdc || c == 0xdd then Group(n)
    else if c == 0xde || c == 0xdf then Group(Doubled(n))
    else Leaf(n)
  }

  /** The token at `pos` and the position after its length field. */
  function HeadAt(s: seq<byte>, pos: nat): (r: Option<(Token, nat)>)
    ensures r.Some? ==> pos < r.value.1 <= |s|
  {
    if pos >= |s| then None
    else
      var c := s[pos];
      if IsSimple(c) then Some((Leaf(0), pos + 1))
      else if 0xa0 <= c <= 0xbf then Some((Leaf(c - 0xa0), pos + 1))
      else if 0x90 <= c <= 0x9f then Some((Group(c - 0x90), pos + 1))
      else if 0x80 <= c <= 0x8f then Some((Group(Doubled(c - 0x80)), pos + 1))
      else if LengthWidth(c) > 0 then
        var n := Take(s, pos + 1, LengthWidth(c));
        if n.None? then None else Some((TokenOf(c, n.value), pos + 1 + LengthWidth(c)))
      else if ScalarSize(c) > 0 then Some((Leaf(ScalarSize(c)), pos + 1))
      else None
  }

  /** Skipping one value: on success the position has moved forward and is still inside the input. */
  function Skip(s: seq<byte>, pos: nat): (r: Option<nat>)
    ensures r.Some? ==> pos < r.value <= |s|
    decreases |s| - pos, 0
  {
    match HeadAt(s, pos)
    case None => None
    case Some((Leaf(n), p)) => if n > |s| - p then None else Some(p + n)
    case Some((Group(count), p)) => SkipN(s, p, count)
  }

  function SkipN(s: seq<byte>, pos: nat, count: nat): (r: Option<nat>)
    requires pos <= |s|
    ensures r.Some? ==> pos <= r.value <= |s|
    decreases |s| - pos, count
  {
    if count == 0 then Some(pos)
    else
      match Skip(s, pos)
      case None => None
      case Some(p) => SkipN(s, p, count - 1)
  }

  // ---------------------------------------------------------------------
  // Skipping consumes exactly one value
  // ---------------------------------------------------------------------

  /** No map in the value has 2^31 pairs or more. */
  predicate Narrow(t: Tree)
  {
    match t
    case Arr(_, f) => AllNarrow(f)
    case Map(_, f) => Len(f) < TWO32 && AllNarrow(f)
    case _ => true
  }

  predicate AllNarrow(f: Forest) { match f case Nil => true case Cons(t, rest) => Narrow(t) && AllNarrow(rest) }

  lemma FirstByte(s: seq<byte>, pos: nat, c: byte, rest: seq<byte>)
    requires Stands(s, pos, [c] + rest)
    ensures pos < |s| && s[pos] == c && Stands(s, pos + 1, rest)
  {
    StandsParts(s, pos, [c], rest);
    assert s[pos..pos + 1][0] == c;
  }

  /** A header with a length field is read back whatever its width. */
  lemma WideHeader(s: seq<byte>, pos: nat, c: byte, width: nat, n: nat)
    requires !IsSimple(c) && !(0x80 <= c <= 0xbf) && LengthWidth(c) == width > 0 && n < Pow(width)
    requires Stands(s, pos, [c] + Big(width, n))
    ensures HeadAt(s, pos) == Some((TokenOf(c, n), pos + 1 + width))
  {
    FirstByte(s, pos, c, Big(width, n));
    StandsNumber(s, pos + 1, width, n);
  }

  lemma HeaderLength(width: nat, n: nat, fix: nat, codes: (byte, byte, byte))
    requires fix + n < 256 || width != 0
    requires width == 0 || width == 1 || width == 2 || width == 4
    ensures |Header(width, n, fix, codes)| == 1 + width
  {
  }

  lemma StringHead(s: seq<byte>, pos: nat, width: nat, n: nat)
    requires LengthFits(width, n, 32) && Stands(s, pos, Header(width, n, 0xa0, (0xd9, 0xda, 0xdb)))
    ensures HeadAt(s, pos) == Some((Leaf(n), pos + 1 + width))
  {
    if width == 0 {
      FirstByte(s, pos, 0xa0 + n, []);
    } else {
      WideHeader(s, pos, if width == 1 then 0xd9 else if width == 2 then 0xda else 0xdb, width, n);
    }
  }

  lemma BinHead(s: seq<byte>, pos: nat, width: nat, n: nat)
    requires width != 0 && LengthFits(width, n, 0) && Stands(s, pos, Header(width, n, 0, (0xc4, 0xc5, 0xc6)))
    ensures HeadAt(s, pos) == Some((Leaf(n), pos + 1 + width))
  {
    WideHeader(s, pos, if width == 1 then 0xc4 else if width == 2 then 0xc5 else 0xc6, width, n);
  }

  lemma ArrayHead(s: seq<byte>, pos: nat, width: nat, n: nat)
    requires CountFits(width, n) && Stands(s, pos, Header(width, n, 0x90, (0, 0xdc, 0xdd)))
    ensures HeadAt(s, pos) == Some((Group(n), pos + 1 + width))
  {
    if width == 0 {
      FirstByte(s, pos, 0x90 + n, []);
    } else {
      WideHeader(s, pos, if width == 2 then 0xdc else 0xdd, width, n);
    }
  }

  lemma MapHead(s: seq<byte>, pos: nat, width: nat, n: nat)
    requires CountFits(width, n) && Stands(s, pos, Header(width, n, 0x80, (0, 0xde, 0xdf)))
    ensures HeadAt(s, pos) == Some((Group(Doubled(n)), pos + 1 + width))
  {
    if width == 0 {
      FirstByte(s, pos, 0x80 + n, []);
    } else {
      WideHeader(s, pos, if width == 2 then 0xde else 0xdf, width, n);
    }
  }

  lemma SimpleHead(s: seq<byte>, pos: nat, c: byte)
    requires IsSimple(c) && Stands(s, pos, [c])
    ensures HeadAt(s, pos) == Some((Leaf(0), pos + 1))
  {
    FirstByte(s, pos, c, []);
  }

  lemma ScalarHead(s: seq<byte>, pos: nat, c: byte, p: seq<byte>)
    requires ScalarSize(c) > 0 && |p| == ScalarSize(c) && Stands(s, pos, [c] + p)
    ensures HeadAt(s, pos) == Some((Leaf(|p|), pos + 1)) && Stands(s, pos + 1, p)
  {
    FirstByte(s, pos, c, p);
  }

  lemma SkipUnfolds(s: seq<byte>, pos: nat)
    ensures Skip(s, pos) ==
      match HeadAt(s, pos)
      case None => None
      case Some((Leaf(n), p)) => if n > |s| - p then None else Some(p + n)
      case Some((Group(count), p)) => SkipN(s, p, count)
  {
    hide HeadAt;
  }

  /** `Skip` consumes exactly the bytes of the value. */
  lemma {:induction false} SkipExact(t: Tree, s: seq<byte>, pos: nat)
    requires Legal(t) && Narrow(t) && Stands(s, pos, Encode(t))
    ensures Skip(s, pos) == Some(pos + |Encode(t)|)
    decreases t, 1
  {
    hide HeadAt, Header, Take, Pow, Big, Skip, SkipN, EncodeAll;
    match t
    case Simple(c) =>
      SimpleHead(s, pos, c);
      SkipUnfolds(s, pos);
    case Scalar(c, p) =>
      ScalarHead(s, pos, c, p);
      SkipUnfolds(s, pos);
    case Str(w, x) => StringSkip(s, pos, w, x);
    case Bin(w, x) => BinSkip(s, pos, w, x);
    case Arr(w, f) =>
      ArrayBody(w, f, s, pos);
      hide Stands;
      SkipAllExact(f, s, pos + 1 + w);
      SkipUnfolds(s, pos);
    case Map(w, f) =>
      MapBody(w, f, s, pos);
      assert Doubled(Len(f) / 2) == Len(f);
      hide Stands, Doubled;
      SkipAllExact(f, s, pos + 1 + w);
      SkipUnfolds(s, pos);
  }

  lemma ArrayBody(w: nat, f: Forest, s: seq<byte>, pos: nat)
    requires Legal(Arr(w, f)) && Stands(s, pos, Encode(Arr(w, f)))
    ensures HeadAt(s, pos) == Some((Group(Len(f)), pos + 1 + w)) && Stands(s, pos + 1 + w, EncodeAll(f))
    ensures |Encode(Arr(w, f))| == 1 + w + |EncodeAll(f)|
  {
    hide HeadAt, Big, Pow, EncodeAll, AllLegal;
    var h := Header(w, Len(f), 0x90, (0, 0xdc, 0xdd));
    HeaderLength(w, Len(f), 0x90, (0, 0xdc, 0xdd));
    StandsParts(s, pos, h, EncodeAll(f));
    ArrayHead(s, pos, w, Len(f));
  }

  lemma MapBody(w: nat, f: Forest, s: seq<byte>, pos: nat)
    requires Legal(Map(w, f)) && Stands(s, pos, Encode(Map(w, f)))
    ensures HeadAt(s, pos) == Some((Group(Doubled(Len(f) / 2)), pos + 1 + w)) && Stands(s, pos + 1 + w, EncodeAll(f))
    ensures |Encode(Map(w, f))| == 1 + w + |EncodeAll(f)|
    ensures Stands(s, pos, Header(w, Len(f) / 2, 0x80, (0, 0xde, 0xdf)))
  {
    hide HeadAt, Big, Pow, EncodeAll, AllLegal, Doubled;
    var n := Len(f) / 2;
    var h := Header(w, n, 0x80, (0, 0xde, 0xdf));
    HeaderLength(w, n, 0x80, (0, 0xde, 0xdf));
    StandsParts(s, pos, h, EncodeAll(f));
    MapHead(s, pos, w, n);
  }

  lemma StringSkip(s: seq<byte>, pos: nat, w: nat, x: seq<byte>)
    requires LengthFits(w, |x|, 32) && Stands(s, pos, Header(w, |x|, 0xa0, (0xd9, 0xda, 0xdb)) + x)
    ensures HeadAt(s, pos) == Some((Leaf(|x|), pos + 1 + w)) && Stands(s, pos + 1 + w, x)
    ensures Skip(s, pos) == Some(pos + 1 + w + |x|) && |Header(w, |x|, 0xa0, (0xd9, 0xda, 0xdb))| == 1 + w
  {
    StandsParts(s, pos, Header(w, |x|, 0xa0, (0xd9, 0xda, 0xdb)), x);
    HeaderLength(w, |x|, 0xa0, (0xd9, 0xda, 0xdb));
    StringHead(s, pos, w, |x|);
    hide HeadAt, Header;
  }

  lemma BinSkip(s: seq<byte>, pos: nat, w: nat, x: seq<byte>)
    requires w != 0 && LengthFits(w, |x|, 0) && Stands(s, pos, Header(w, |x|, 0, (0xc4, 0xc5, 0xc6)) + x)
    ensures Skip(s, pos) == Some(pos + 1 + w + |x|) && |Header(w, |x|, 0, (0xc4, 0xc5, 0xc6))| == 1 + w
  {
    StandsParts(s, pos, Header(w, |x|, 0, (0xc4, 0xc5, 0xc6)), x);
    HeaderLength(w, |x|, 0, (0xc4, 0xc5, 0xc6));
    BinHead(s, pos, w, |x|);
    hide HeadAt, Header;
  }

  lemma {:induction false} SkipAllExact(f: Forest, s: seq<byte>, pos: nat)
    requires AllLegal(f) && AllNarrow(f) && Stands(s, pos, EncodeAll(f))
    ensures SkipN(s, pos, Len(f)) == Some(pos + |EncodeAll(f)|)
    decreases f, 0
  {
    hide Encode, Legal, Narrow, Skip, Stands;
    match f
    case Nil =>
    case Cons(t, rest) =>
      StandsParts(s, pos, Encode(t), EncodeAll(rest));
      SkipExact(t, s, pos);
      SkipAllExact(rest, s, pos + |Encode(t)|);
  }

  // ---------------------------------------------------------------------
  // Legal values that are not narrow
  // ---------------------------------------------------------------------

  function Append(f: Forest, g: Forest): Forest { match f case Nil => g case Cons(t, rest) => Cons(t, Append(rest, g)) }

  lemma {:induction false} Appended(f: Forest, g: Forest)
    requires AllLegal(f) && AllLegal(g)
    ensures AllLegal(Append(f, g)) && Len(Append(f, g)) == Len(f) + Len(g)
    ensures EncodeAll(Append(f, g)) == EncodeAll(f) + EncodeAll(g)
    ensures AllNarrow(Append(f, g)) <==> AllNarrow(f) && AllNarrow(g)
  {
    hide Legal, Encode, Narrow;
    match f
    case Nil =>
    case Cons(t, rest) =>
      Appended(rest, g);
      assert Encode(t) + (EncodeAll(rest) + EncodeAll(g)) == Encode(t) + EncodeAll(rest) + EncodeAll(g);
  }

  /** Skipping some values and then more is skipping them all. */
  lemma {:induction false} SkipNAdd(s: seq<byte>, pos: nat, m: nat, n: nat)
    requires pos <= |s|
    ensures SkipN(s, pos, m + n) ==
      match SkipN(s, pos, m)
      case None => None
      case Some(p) => SkipN(s, p, n)
    decreases m
  {
    hide Skip;
    if m > 0 && Skip(s, pos).Some? {
      SkipNAdd(s, Skip(s, pos).value, m - 1, n);
    }
  }

  lemma {:induction false} EncodedNotEmpty(f: Forest)
    requires AllLegal(f)
    ensures |EncodeAll(f)| >= Len(f)
  {
    match f
    case Nil =>
    case Cons(t, rest) =>
      OneByte(t);
      hide Encode, Legal;
      EncodedNotEmpty(rest);
  }

  lemma OneByte(t: Tree)
    requires Legal(t)
    ensures |Encode(t)| >= 1
  {
    hide EncodeAll, AllLegal, Big, Pow;
  }

  predicate IsLeaf(t: Tree) { !t.Arr? && !t.Map? }

  /** A leaf is skipped. */
  lemma LeafSkip(t: Tree, s: seq<byte>, pos: nat)
    requires Legal(t) && IsLeaf(t) && Stands(s, pos, Encode(t))
    ensures Skip(s, pos) == Some(pos + |Encode(t)|) && Narrow(t)
  {
    hide Skip, Encode, Stands;
    SkipExact(t, s, pos);
  }

  /** The items of a container, and how many of them are skipped. */
  lemma OpenBody(t: Tree, s: seq<byte>, pos: nat) returns (g: Forest, d: nat, p: nat)
    requires Legal(t) && !IsLeaf(t) && Stands(s, pos, Encode(t))
    ensures AllLegal(g) && pos < p && p + |EncodeAll(g)| == pos + |Encode(t)| && Stands(s, p, EncodeAll(g))
    ensures HeadAt(s, pos) == Some((Group(d), p)) && d <= Len(g)
    ensures Narrow(t) <==> d == Len(g) && AllNarrow(g)
  {
    hide HeadAt, Header, Take, Pow, Big, EncodeAll, Stands;
    if t.Arr? {
      g, d, p := t.items, Len(t.items), pos + 1 + t.width;
      ArrayBody(t.width, g, s, pos);
    } else {
      g, d, p := t.pairs, Doubled(Len(t.pairs) / 2), pos + 1 + t.width;
      MapBody(t.width, g, s, pos);
      DoubledLength(t.width, g);
    }
  }

  /** What a container is skipped as: a number of values of the stream of its items and what follows it. */
  lemma OpenGroup(t: Tree, rest: Forest, s: seq<byte>, pos: nat, c: nat)
    returns (g: Forest, d: nat, p: nat)
    requires Legal(t) && !IsLeaf(t) && AllLegal(rest) && c > 0 && Stands(s, pos, EncodeAll(Cons(t, rest)))
    ensures AllLegal(g) && AllLegal(Append(g, rest)) && p <= |s| && d <= Len(g)
    ensures SkipN(s, pos, c) == SkipN(s, p, d + (c - 1)) && Stands(s, p, EncodeAll(Append(g, rest)))
    ensures pos < p && p + |EncodeAll(Append(g, rest))| == pos + |EncodeAll(Cons(t, rest))|
    ensures Narrow(t) <==> d == Len(g) && AllNarrow(g)
  {
    hide HeadAt, Skip, SkipN, Encode, Legal, Narrow, AllNarrow, Append;
    StandsParts(s, pos, Encode(t), EncodeAll(rest));
    g, d, p := OpenBody(t, s, pos);
    Appended(g, rest);
    StandsJoin(s, p, EncodeAll(g), EncodeAll(rest));
    hide Stands, EncodeAll;
    SkipUnfolds(s, pos);
    SkipNAdd(s, p, d, c - 1);
    SkipNUnfolds(s, pos, c);
  }

  lemma DoubledLength(w: nat, f: Forest)
    requires Legal(Map(w, f))
    ensures Doubled(Len(f) / 2) <= Len(f) && (Doubled(Len(f) / 2) == Len(f) <==> Len(f) < TWO32)
  {
    PowSizes();
    hide AllLegal, Pow;
  }

  lemma SkipNUnfolds(s: seq<byte>, pos: nat, c: nat)
    requires pos <= |s| && c > 0
    ensures SkipN(s, pos, c) ==
      match Skip(s, pos)
      case None => None
      case Some(p) => SkipN(s, p, c - 1)
  {
    hide Skip;
  }

  lemma StandsJoin(s: seq<byte>, pos: nat, x: seq<byte>, y: seq<byte>)
    requires Stands(s, pos, x) && Stands(s, pos + |x|, y)
    ensures Stands(s, pos, x + y)
  {
    assert s[pos..pos + |x| + |y|] == s[pos..pos + |x|] + s[pos + |x|..pos + |x| + |y|];
  }

  /**
   Skipping at most as many values as the stream holds succeeds and never passes the end
   of the stream; it reaches the end exactly when all values are skipped and none holds
   a map of 2^31 pairs or more.
   */
  lemma {:induction false} StreamSkip(f: Forest, s: seq<byte>, pos: nat, c: nat)
    requires AllLegal(f) && Stands(s, pos, EncodeAll(f)) && c <= Len(f)
    ensures pos <= |s| && SkipN(s, pos, c).Some? && SkipN(s, pos, c).value <= pos + |EncodeAll(f)|
    ensures SkipN(s, pos, c).value == pos + |EncodeAll(f)| <==> c == Len(f) && AllNarrow(f)
    decreases |EncodeAll(f)|
  {
    hide Skip, SkipN, Encode, EncodeAll, Legal, Narrow, Stands, HeadAt, Append;
    if c == 0 {
      StreamStart(f, s, pos);
    } else if IsLeaf(f.head) {
      LeafStream(f.head, f.tail, s, pos, c);
      StreamSkip(f.tail, s, pos + |Encode(f.head)|, c - 1);
    } else {
      var g, d, p := OpenGroup(f.head, f.tail, s, pos, c);
      Appended(g, f.tail);
      StreamSkip(Append(g, f.tail), s, p, d + (c - 1));
    }
  }

  lemma StreamStart(f: Forest, s: seq<byte>, pos: nat)
    requires AllLegal(f) && Stands(s, pos, EncodeAll(f))
    ensures pos <= |s| && SkipN(s, pos, 0) == Some(pos) && (EncodeAll(f) == [] <==> Len(f) == 0 && AllNarrow(f))
  {
    EncodedNotEmpty(f);
    hide Encode, Legal, Narrow;
  }

  lemma LeafStream(t: Tree, rest: Forest, s: seq<byte>, pos: nat, c: nat)
    requires Legal(t) && IsLeaf(t) && AllLegal(rest) && c > 0 && Stands(s, pos, EncodeAll(Cons(t, rest)))
    ensures pos + |Encode(t)| <= |s| && SkipN(s, pos, c) == SkipN(s, pos + |Encode(t)|, c - 1) && Narrow(t)
    ensures |Encode(t)| >= 1 && |EncodeAll(Cons(t, rest))| == |Encode(t)| + |EncodeAll(rest)|
    ensures Stands(s, pos + |Encode(t)|, EncodeAll(rest))
  {
    OneByte(t);
    hide Skip, SkipN, Encode, Legal, Narrow, HeadAt;
    StandsParts(s, pos, Encode(t), EncodeAll(rest));
    LeafSkip(t, s, pos);
    SkipNUnfolds(s, pos, c);
  }

  /**
   For every legal value: skipping succeeds, never goes past its end, and stops at its
   end exactly when no map in it has 2^31 pairs or more.
   */
  lemma SkippedIffNarrow(t: Tree, s: seq<byte>, pos: nat)
    requires Legal(t) && Stands(s, pos, Encode(t))
    ensures Skip(s, pos).Some? && Skip(s, pos).value <= pos + |Encode(t)|
    ensures Skip(s, pos).value == pos + |Encode(t)| <==> Narrow(t)
  {
    Alone(t);
    hide Skip, SkipN, Encode, EncodeAll, Legal, Narrow, Stands, HeadAt;
    StreamSkip(Cons(t, Nil), s, pos, 1);
    SkipNUnfolds(s, pos, 1);
    SkipNone(s, pos);
  }

  lemma Alone(t: Tree)
    requires Legal(t)
    ensures AllLegal(Cons(t, Nil)) && Len(Cons(t, Nil)) == 1 && EncodeAll(Cons(t, Nil)) == Encode(t)
    ensures AllNarrow(Cons(t, Nil)) <==> Narrow(t)
  {
    hide Legal, Narrow, Encode;
    assert AllLegal(Nil) && AllNarrow(Nil) && Len(Nil) == 0 && EncodeAll(Nil) == [];
    assert Encode(t) + [] == Encode(t);
  }

  lemma SkipNone(s: seq<byte>, pos: nat)
    ensures Skip(s, pos).Some? ==> SkipN(s, Skip(s, pos).value, 0) == Skip(s, pos)
  {
    hide HeadAt;
  }

  /** A value that fits the 32-bit length of a note holds no such map. */
  lemma {:induction false} ShortIsNarrow(t: Tree)
    requires Legal(t) && |Encode(t)| < TWO32
    ensures Narrow(t)
    decreases t, 1
  {
    match t
    case Arr(w, f) => HeaderShort(w, Len(f), 0x90, EncodeAll(f)); ShortAllNarrow(f);
    case Map(w, f) =>
      HeaderShort(w, Len(f) / 2, 0x80, EncodeAll(f));
      ShortAllNarrow(f);
      EncodedNotEmpty(f);
    case _ =>
  }

  lemma HeaderShort(w: nat, n: nat, fix: byte, body: seq<byte>)
    requires fix + n < 256 || w != 0
    ensures |Header(w, n, fix, (0, 0xdc, 0xdd)) + body| >= |body| && |Header(w, n, fix, (0, 0xde, 0xdf)) + body| >= |body|
  {}

  lemma {:induction false} ShortAllNarrow(f: Forest)
    requires AllLegal(f) && |EncodeAll(f)| < TWO32
    ensures AllNarrow(f)
    decreases f, 0
  {
    match f
    case Nil =>
    case Cons(t, rest) =>
      ShortIsNarrow(t);
      ShortAllNarrow(rest);
  }

  /** So within a note every legal value is skipped exactly. */
  lemma SkipExactInNotes(t: Tree, s: seq<byte>, pos: nat)
    requires |s| < TWO32 && Legal(t) && Stands(s, pos, Encode(t))
    ensures Skip(s, pos) == Some(pos + |Encode(t)|)
  {
    hide Encode, Skip;
    ShortIsNarrow(t);
    SkipExact(t, s, pos);
  }

  // ---------------------------------------------------------------------
  // What is accepted
  // ---------------------------------------------------------------------

  /** The header of a map with the top bit of a 32-bit count set, which doubling loses. */
  function LostHeader(n: nat): seq<byte> { [0xdf] + Big(4, n + TWO31) }

  /** `e` is an encoding of `t` in which the top bit of any 32-bit map count may be set. */
  ghost predicate Spells(t: Tree, e: seq<byte>)
    requires Legal(t)
    decreases t, 1
  {
    match t
    case Arr(w, f) => Starts(e, Header(w, Len(f), 0x90, (0, 0xdc, 0xdd))) && SpellsAll(f, e[1 + w..])
    case Map(w, f) =>
      && (Starts(e, Header(w, Len(f) / 2, 0x80, (0, 0xde, 0xdf))) || (w == 4 && Starts(e, LostHeader(Len(f) / 2))))
      && SpellsAll(f, e[1 + w..])
    case _ => e == Encode(t)
  }

  ghost predicate SpellsAll(f: Forest, e: seq<byte>)
    requires AllLegal(f)
    decreases f, 0
  {
    match f
    case Nil => e == []
    case Cons(t, rest) => exists k :: 0 <= k <= |e| && Spells(t, e[..k]) && SpellsAll(rest, e[k..])
  }

  predicate Starts(e: seq<byte>, h: seq<byte>) { |h| <= |e| && e[..|h|] == h }

  lemma StartsStands(s: seq<byte>, pos: nat, p: nat, h: seq<byte>)
    requires pos <= p <= |s| && Starts(s[pos..p], h)
    ensures Stands(s, pos, h) && pos + |h| <= p && s[pos..p][|h|..] == s[pos + |h|..p]
  {
    assert s[pos..p][..|h|] == s[pos..pos + |h|];
  }

  lemma LostHead(s: seq<byte>, pos: nat, n: nat)
    requires n < TWO31 && Stands(s, pos, LostHeader(n))
    ensures HeadAt(s, pos) == Some((Group(2 * n), pos + 5))
  {
    PowSizes();
    hide Big, Pow, Take, FromBig;
    WideHeader(s, pos, 0xdf, 4, n + TWO31);
  }

  /** Whatever spells a narrow value is skipped. */
  lemma {:induction false} SpelledIsSkipped(t: Tree, s: seq<byte>, pos: nat, p: nat)
    requires Legal(t) && Narrow(t) && pos <= p <= |s| && Spells(t, s[pos..p])
    ensures Skip(s, pos) == Some(p)
    decreases t, 1
  {
    hide HeadAt, Skip, SkipN, Spells, SpellsAll, Legal;
    if IsLeaf(t) {
      SpelledLeaf(t, s, pos, p);
    } else if t.Arr? {
      SpelledArray(t.width, t.items, s, pos, p);
      SpelledAllSkipped(t.items, s, pos + 1 + t.width, p);
      SkipUnfolds(s, pos);
    } else {
      SpelledMap(t.width, t.pairs, s, pos, p);
      SpelledAllSkipped(t.pairs, s, pos + 1 + t.width, p);
      SkipUnfolds(s, pos);
    }
  }

  lemma SpelledLeaf(t: Tree, s: seq<byte>, pos: nat, p: nat)
    requires Legal(t) && IsLeaf(t) && pos <= p <= |s| && Spells(t, s[pos..p])
    ensures Skip(s, pos) == Some(p)
  {
    hide Encode, Skip, Legal;
    LeafSkip(t, s, pos);
  }

  lemma SpelledArray(w: nat, f: Forest, s: seq<byte>, pos: nat, p: nat)
    requires Legal(Arr(w, f)) && pos <= p <= |s| && Spells(Arr(w, f), s[pos..p])
    ensures AllLegal(f) && HeadAt(s, pos) == Some((Group(Len(f)), pos + 1 + w))
    ensures pos + 1 + w <= p && SpellsAll(f, s[pos + 1 + w..p])
  {
    hide HeadAt, Pow, Big, Header, AllLegal, SpellsAll, Len, Encode, Stands;
    var h := Header(w, Len(f), 0x90, (0, 0xdc, 0xdd));
    HeaderLength(w, Len(f), 0x90, (0, 0xdc, 0xdd));
    StartsStands(s, pos, p, h);
    ArrayHead(s, pos, w, Len(f));
  }

  lemma SpelledMap(w: nat, f: Forest, s: seq<byte>, pos: nat, p: nat)
    requires Legal(Map(w, f)) && Len(f) < TWO32 && pos <= p <= |s| && Spells(Map(w, f), s[pos..p])
    ensures AllLegal(f) && HeadAt(s, pos) == Some((Group(Len(f)), pos + 1 + w))
    ensures pos + 1 + w <= p && SpellsAll(f, s[pos + 1 + w..p])
  {
    hide HeadAt, Pow, Big, Header, AllLegal, SpellsAll, Len, LostHeader;
    SpelledMapHead(w, f, s, pos, p);
  }

  lemma SpelledMapHead(w: nat, f: Forest, s: seq<byte>, pos: nat, p: nat)
    requires Legal(Map(w, f)) && Len(f) < TWO32 && pos <= p <= |s|
    requires Starts(s[pos..p], Header(w, Len(f) / 2, 0x80, (0, 0xde, 0xdf))) || (w == 4 && Starts(s[pos..p], LostHeader(Len(f) / 2)))
    ensures HeadAt(s, pos) == Some((Group(Len(f)), pos + 1 + w)) && pos + 1 + w <= p && s[pos..p][1 + w..] == s[pos + 1 + w..p]
  {
    var n := Len(f) / 2;
    DoubledLength(w, f);
    HeaderLength(w, n, 0x80, (0, 0xde, 0xdf));
    hide HeadAt, Take, Pow, Big, Header, AllLegal, Doubled;
    if Starts(s[pos..p], Header(w, n, 0x80, (0, 0xde, 0xdf))) {
      StartsStands(s, pos, p, Header(w, n, 0x80, (0, 0xde, 0xdf)));
      MapHead(s, pos, w, n);
    } else {
      StartsStands(s, pos, p, LostHeader(n));
      LostHead(s, pos, n);
    }
  }

  lemma {:induction false} SpelledAllSkipped(f: Forest, s: seq<byte>, pos: nat, p: nat)
    requires AllLegal(f) && AllNarrow(f) && pos <= p <= |s| && SpellsAll(f, s[pos..p])
    ensures SkipN(s, pos, Len(f)) == Some(p)
    decreases f, 0
  {
    hide Spells, Legal, Narrow, Skip;
    match f
    case Nil =>
    case Cons(t, rest) =>
      var e := s[pos..p];
      var k :| 0 <= k <= |e| && Spells(t, e[..k]) && SpellsAll(rest, e[k..]);
      assert e[..k] == s[pos..pos + k] && e[k..] == s[pos + k..p];
      SpelledIsSkipped(t, s, pos, pos + k);
      SpelledAllSkipped(rest, s, pos + k, p);
  }

  /** The header at `pos` announces a map of 2^31 pairs or more. */
  predicate Announces(s: seq<byte>, pos: nat)
  {
    pos + 5 <= |s| && s[pos] == 0xdf && FromBig(s[pos + 1..pos + 5]) >= TWO31
  }

  /** No header that skipping visits does. */
  predicate Modest(s: seq<byte>, pos: nat)
    decreases |s| - pos, 0
  {
    match HeadAt(s, pos)
    case None => true
    case Some((Leaf(_), _)) => true
    case Some((Group(count), p)) => !Announces(s, pos) && ModestN(s, p, count)
  }

  predicate ModestN(s: seq<byte>, pos: nat, count: nat)
    requires pos <= |s|
    decreases |s| - pos, count
  {
    count == 0 || (Modest(s, pos) && (Skip(s, pos).Some? ==> ModestN(s, Skip(s, pos).value, count - 1)))
  }

  lemma Taken(s: seq<byte>, pos: nat, w: nat)
    requires pos + 1 + w <= |s|
    ensures s[pos..pos + 1 + w] == [s[pos]] + Big(w, FromBig(s[pos + 1..pos + 1 + w]))
    ensures FromBig(s[pos + 1..pos + 1 + w]) < Pow(w)
  {
    FromBigRoundTrip(s[pos + 1..pos + 1 + w]);
  }

  lemma Glued(s: seq<byte>, a: nat, b: nat, c: nat)
    requires a <= b <= c <= |s|
    ensures s[a..b] + s[b..c] == s[a..c]
  {}

  /** The leaf at `pos`. */
  lemma LeafTree(s: seq<byte>, pos: nat, n: nat, p: nat) returns (t: Tree)
    requires HeadAt(s, pos) == Some((Leaf(n), p)) && n <= |s| - p
    ensures Legal(t) && IsLeaf(t) && Encode(t) == s[pos..p + n]
  {
    var c := s[pos];
    var x := s[p..p + n];
    Glued(s, pos, p, p + n);
    if !IsSimple(c) && !(0x80 <= c <= 0xbf) && LengthWidth(c) > 0 {
      t := WideLeaf(s, pos, n, p);
    } else {
      hide Big, Pow, FromBig, Take;
      assert s[pos..p] == [c];
      t := if IsSimple(c) then Simple(c) else if 0xa0 <= c <= 0xbf then Str(0, x) else Scalar(c, x);
    }
  }

  lemma WideLeaf(s: seq<byte>, pos: nat, n: nat, p: nat) returns (t: Tree)
    requires HeadAt(s, pos) == Some((Leaf(n), p)) && n <= |s| - p
    requires !IsSimple(s[pos]) && !(0x80 <= s[pos] <= 0xbf) && LengthWidth(s[pos]) > 0
    ensures Legal(t) && IsLeaf(t) && Encode(t) == s[pos..p + n]
  {
    var c := s[pos];
    var w := LengthWidth(c);
    Taken(s, pos, w);
    Glued(s, pos, p, p + n);
    hide Big, Pow, FromBig;
    t := if c == 0xc4 || c == 0xc5 || c == 0xc6 then Bin(w, s[p..p + n]) else Str(w, s[p..p + n]);
  }

  /** The header of a container: `w` bytes of count, for a map half the number of items unless the top bit is lost. */
  lemma GroupHeader(s: seq<byte>, pos: nat, count: nat, p: nat) returns (w: nat, isMap: bool)
    requires HeadAt(s, pos) == Some((Group(count), p))
    ensures p == pos + 1 + w
    ensures !isMap ==> CountFits(w, count) && s[pos..p] == Header(w, count, 0x90, (0, 0xdc, 0xdd))
    ensures isMap ==> count % 2 == 0 && count < TWO32 && CountFits(w, count / 2) &&
                      (s[pos..p] == Header(w, count / 2, 0x80, (0, 0xde, 0xdf)) ||
                       (w == 4 && Announces(s, pos) && s[pos..p] == LostHeader(count / 2)))
  {
    PowSizes();
    var c := s[pos];
    w := LengthWidth(c);
    if !(0x80 <= c <= 0x9f) { Taken(s, pos, w); } else { assert s[pos..p] == [c]; }
    hide Big, Pow, FromBig;
    isMap := 0x80 <= c <= 0x8f || c == 0xde || c == 0xdf;
    if isMap {
      var n := if w == 0 then c - 0x80 else FromBig(s[pos + 1..pos + 1 + w]);
      assert count == Doubled(n);
      HalfDoubled(n);
    }
  }

  lemma HalfDoubled(n: nat)
    requires n < TWO32
    ensures Doubled(n) % 2 == 0 && Doubled(n) < TWO32 && Doubled(n) / 2 == if n < TWO31 then n else n - TWO31
  {}

  /** The container at `pos` whose items `f` stand from `p` to `q`. */
  lemma GroupTree(s: seq<byte>, pos: nat, f: Forest, p: nat, q: nat) returns (t: Tree)
    requires HeadAt(s, pos) == Some((Group(Len(f)), p)) && p <= q <= |s|
    requires AllLegal(f) && AllNarrow(f) && SpellsAll(f, s[p..q])
    ensures Legal(t) && Narrow(t) && Spells(t, s[pos..q])
    ensures !Announces(s, pos) && EncodeAll(f) == s[p..q] ==> Encode(t) == s[pos..q]
  {
    hide HeadAt, Big, Pow, FromBig, EncodeAll, SpellsAll, AllLegal, AllNarrow, Len, Announces, Header, LostHeader;
    var w, isMap := GroupHeader(s, pos, Len(f), p);
    Glued(s, pos, p, q);
    assert s[pos..q][..1 + w] == s[pos..p] && s[pos..q][1 + w..] == s[p..q];
    t := if isMap then Map(w, f) else Arr(w, f);
  }

  /** Whatever is skipped spells a value, and is its encoding if no header announced too much. */
  lemma {:induction false} SkippedIsSpelled(s: seq<byte>, pos: nat) returns (t: Tree)
    requires Skip(s, pos).Some?
    ensures Legal(t) && Narrow(t) && Spells(t, s[pos..Skip(s, pos).value])
    ensures Modest(s, pos) ==> Encode(t) == s[pos..Skip(s, pos).value]
    decreases |s| - pos, 0
  {
    SkipUnfolds(s, pos);
    ModestUnfolds(s, pos);
    hide Skip, SkipN, Modest, ModestN, Encode, EncodeAll, Spells, SpellsAll, Legal, Narrow, HeadAt, Announces;
    match HeadAt(s, pos).value
    case (Leaf(n), p) =>
      t := LeafTree(s, pos, n, p);
      LeafSpells(t, s[pos..p + n]);
    case (Group(count), p) =>
      var f := SkippedAreSpelled(s, p, count);
      t := GroupTree(s, pos, f, p, SkipN(s, p, count).value);
  }

  lemma LeafSpells(t: Tree, e: seq<byte>)
    requires Legal(t) && IsLeaf(t) && Encode(t) == e
    ensures Narrow(t) && Spells(t, e)
  {
    hide Encode;
  }

  lemma ModestUnfolds(s: seq<byte>, pos: nat)
    ensures Modest(s, pos) ==
      match HeadAt(s, pos)
      case None => true
      case Some((Leaf(_), _)) => true
      case Some((Group(count), p)) => !Announces(s, pos) && ModestN(s, p, count)
  {
    hide HeadAt, Announces;
  }

  lemma {:induction false} SkippedAreSpelled(s: seq<byte>, pos: nat, count: nat) returns (f: Forest)
    requires pos <= |s| && SkipN(s, pos, count).Some?
    ensures AllLegal(f) && AllNarrow(f) && Len(f) == count && SpellsAll(f, s[pos..SkipN(s, pos, count).value])
    ensures ModestN(s, pos, count) ==> EncodeAll(f) == s[pos..SkipN(s, pos, count).value]
    decreases |s| - pos, count
  {
    hide Skip, Modest, Encode, Spells, Legal, Narrow;
    if count == 0 {
      f := Nil;
    } else {
      var p := Skip(s, pos).value;
      var q := SkipN(s, pos, count).value;
      var t := SkippedIsSpelled(s, pos);
      var rest := SkippedAreSpelled(s, p, count - 1);
      f := Cons(t, rest);
      var e := s[pos..q];
      assert e[..p - pos] == s[pos..p] && e[p - pos..] == s[p..q];
      Glued(s, pos, p, q);
    }
  }

  /** Skipping accepts exactly the spellings of narrow values. */
  lemma AcceptedExactly(s: seq<byte>, pos: nat, p: nat)
    requires pos <= p <= |s|
    ensures Skip(s, pos) == Some(p) <==> exists t :: Legal(t) && Narrow(t) && Spells(t, s[pos..p])
  {
    hide Skip, Spells, Legal, Narrow;
    if Skip(s, pos) == Some(p) {
      var t := SkippedIsSpelled(s, pos);
    }
    if t :| Legal(t) && Narrow(t) && Spells(t, s[pos..p]) {
      SpelledIsSkipped(t, s, pos, p);
    }
  }

  /** Skipping a legal narrow value meets no header that announces too much. */
  lemma {:induction false} NarrowIsModest(t: Tree, s: seq<byte>, pos: nat)
    requires Legal(t) && Narrow(t) && Stands(s, pos, Encode(t))
    ensures Modest(s, pos)
    decreases t, 1
  {
    ModestUnfolds(s, pos);
    hide HeadAt, Header, Take, Pow, Big, Modest, ModestN, EncodeAll, Skip, Announces;
    if IsLeaf(t) {
      LeafSilent(t, s, pos);
    } else if t.Arr? {
      ArrayBody(t.width, t.items, s, pos);
      ArraySilent(t.width, t.items, s, pos);
      AllNarrowModest(t.items, s, pos + 1 + t.width);
    } else {
      MapBody(t.width, t.pairs, s, pos);
      DoubledLength(t.width, t.pairs);
      MapSilent(t.width, t.pairs, s, pos);
      AllNarrowModest(t.pairs, s, pos + 1 + t.width);
    }
  }

  lemma LeafSilent(t: Tree, s: seq<byte>, pos: nat)
    requires Legal(t) && IsLeaf(t) && Stands(s, pos, Encode(t))
    ensures HeadAt(s, pos).Some? && HeadAt(s, pos).value.0.Leaf?
  {
    hide HeadAt, Pow, Big, Take;
    match t
    case Simple(c) => SimpleHead(s, pos, c);
    case Scalar(c, p) => ScalarHead(s, pos, c, p);
    case Str(w, x) => StringSkip(s, pos, w, x);
    case Bin(w, x) =>
      StandsParts(s, pos, Header(w, |x|, 0, (0xc4, 0xc5, 0xc6)), x);
      BinHead(s, pos, w, |x|);
  }

  lemma ArraySilent(w: nat, f: Forest, s: seq<byte>, pos: nat)
    requires Legal(Arr(w, f)) && Stands(s, pos, Encode(Arr(w, f)))
    ensures !Announces(s, pos)
  {
    hide Big, Pow, EncodeAll, AllLegal, FromBig;
    var h := Header(w, Len(f), 0x90, (0, 0xdc, 0xdd));
    StandsParts(s, pos, h, EncodeAll(f));
    assert s[pos..pos + |h|][0] == h[0];
  }

  lemma MapSilent(w: nat, f: Forest, s: seq<byte>, pos: nat)
    requires Legal(Map(w, f)) && Len(f) < TWO32 && Stands(s, pos, Encode(Map(w, f)))
    ensures !Announces(s, pos)
  {
    PowSizes();
    hide Big, Pow, EncodeAll, AllLegal, FromBig;
    var n := Len(f) / 2;
    var h := Header(w, n, 0x80, (0, 0xde, 0xdf));
    StandsParts(s, pos, h, EncodeAll(f));
    assert s[pos..pos + |h|][0] == h[0];
    if w == 4 {
      BigRoundTrip(4, n);
      assert s[pos..pos + 5][1..] == s[pos + 1..pos + 5] && h[1..] == Big(4, n);
    }
  }

  lemma {:induction false} AllNarrowModest(f: Forest, s: seq<byte>, pos: nat)
    requires AllLegal(f) && AllNarrow(f) && Stands(s, pos, EncodeAll(f))
    ensures pos <= |s| && ModestN(s, pos, Len(f))
    decreases f, 0
  {
    hide Encode, Legal, Narrow, Skip, Modest;
    match f
    case Nil =>
    case Cons(t, rest) =>
      StandsParts(s, pos, Encode(t), EncodeAll(rest));
      SkipExact(t, s, pos);
      NarrowIsModest(t, s, pos);
      AllNarrowModest(rest, s, pos + |Encode(t)|);
  }

  /**
   The converse of exact skipping: what is skipped is the encoding of a legal value if and
   only if no map header on the way announces 2^31 pairs or more.
   */
  lemma WholeExactly(s: seq<byte>, pos: nat)
    requires Skip(s, pos).Some?
    ensures (exists t :: Legal(t) && Encode(t) == s[pos..Skip(s, pos).value]) <==> Modest(s, pos)
  {
    hide Encode, Legal, Narrow, Modest, Skip, Spells;
    var p := Skip(s, pos).value;
    if Modest(s, pos) {
      var t := SkippedIsSpelled(s, pos);
    }
    if t :| Legal(t) && Encode(t) == s[pos..p] {
      SkippedIffNarrow(t, s, pos);
      NarrowIsModest(t, s, pos);
    }
  }

  /** Five bytes, a map header that announces 2^31 pairs and nothing after it, pass for a whole value. */
  lemma TruncatedMapAccepted(s: seq<byte>)
    requires s == [0xdf, 0x80, 0, 0, 0]
    ensures Skip(s, 0) == Some(5)
    ensures !exists t :: Legal(t) && Encode(t) == s
  {
    assert s[..1] == [0xdf];
    assert s[1..5] == [0x80, 0, 0, 0] && s[1..5][..3] == [0x80, 0, 0] && s[1..5][..3][..2] == [0x80, 0];
    assert [0x80, 0][..1] == [0x80];
    assert FromBig([0x80]) == 0x80 && FromBig([0x80, 0]) == 0x8000 && FromBig([0x80, 0, 0]) == 0x80_0000;
    assert FromBig(s[1..5]) == TWO31;
    assert HeadAt(s, 0) == Some((Group(0), 5));
    SkipUnfolds(s, 0);
    ModestUnfolds(s, 0);
    hide Encode, Legal, Modest, Skip, HeadAt;
    WholeExactly(s, 0);
    assert s[0..5] == s;
  }

  // ---------------------------------------------------------------------
  // Typed reads
  // ---------------------------------------------------------------------

  /** A container count: inside the type byte, or in a field of 2 or 4 bytes. */
  function CountAt(s: seq<byte>, pos: nat, fix: byte, code16: byte, code32: byte): (r: Option<(nat, nat)>)
    requires fix <= 0xf0
    ensures r.Some? ==> pos < r.value.1 <= |s|
  {
    if pos >= |s| then None
    else
      var c := s[pos];
      if fix <= c <= fix + 0x0f then Some((c - fix, pos + 1))
      else if c == code16 || c == code32 then
        var w := if c == code16 then 2 else 4;
        var n := Take(s, pos + 1, w);
        if n.None? then None else Some((n.value, pos + 1 + w))
      else None
  }

  function MapLenAt(s: seq<byte>, pos: nat): (r: Option<(nat, nat)>)
    ensures r.Some? ==> pos < r.value.1 <= |s|
  {
    CountAt(s, pos, 0x80, 0xde, 0xdf)
  }

  function ArrayLenAt(s: seq<byte>, pos: nat): (r: Option<(nat, nat)>)
    ensures r.Some? ==> pos < r.value.1 <= |s|
  {
    CountAt(s, pos, 0x90, 0xdc, 0xdd)
  }

  /** A string; the caller keeps as much of it as its buffer holds. */
  function TextAt(s: seq<byte>, pos: nat): (r: Option<(seq<byte>, nat)>)
    ensures r.Some? ==> pos < r.value.1 <= |s|
  {
    if pos >= |s| then None
    else
      var c := s[pos];
      var w := if c == 0xd9 then 1 else if c == 0xda then 2 else if c == 0xdb then 4 else 0;
      if !(0xa0 <= c <= 0xbf) && w == 0 then None
      else
        var n := if w == 0 then Some(c - 0xa0) else Take(s, pos + 1, w);
        if n.None? || n.value > |s| - (pos + 1 + w) then None
        else Some((s[pos + 1 + w..pos + 1 + w + n.value], pos + 1 + w + n.value))
  }

  predicate IsSigned(c: byte) { 0xd0 <= c <= 0xd3 }
  predicate IsInteger(c: byte) { 0xcc <= c <= 0xcf || IsSigned(c) }

  /** A nonnegative integer of any width, signed or unsigned. */
  function UintAt(s: seq<byte>, pos: nat): (r: Option<(nat, nat)>)
    ensures r.Some? ==> pos < r.value.1 <= |s|
  {
    if pos >= |s| then None
    else
      var c := s[pos];
      if c <= 0x7f then Some((c, pos + 1))
      else if !IsInteger(c) then None
      else
        var w := ScalarSize(c);
        var n := Take(s, pos + 1, w);
        if n.None? || (IsSigned(c) && 2 * n.value >= Pow(w)) then None else Some((n.value, pos + 1 + w))
  }

  /** `t` is an encoding of the nonnegative integer `v`. */
  predicate IsUint(t: Tree, v: nat)
  {
    match t
    case Simple(c) => c <= 0x7f && v == c
    case Scalar(c, p) => IsInteger(c) && FromBig(p) == v && (IsSigned(c) ==> 2 * v < Pow(|p|))
    case _ => false
  }

  lemma UintRead(t: Tree, v: nat, s: seq<byte>, pos: nat)
    requires Legal(t) && IsUint(t, v) && Stands(s, pos, Encode(t))
    ensures UintAt(s, pos) == Some((v, pos + |Encode(t)|))
  {
    match t
    case Simple(c) => FirstByte(s, pos, c, []);
    case Scalar(c, p) => FirstByte(s, pos, c, p);
  }

  lemma TextRead(w: nat, x: seq<byte>, s: seq<byte>, pos: nat)
    requires Legal(Str(w, x)) && Stands(s, pos, Encode(Str(w, x)))
    ensures TextAt(s, pos) == Some((x, pos + |Encode(Str(w, x))|))
  {
    StringSkip(s, pos, w, x);
    var h := Header(w, |x|, 0xa0, (0xd9, 0xda, 0xdb));
    StandsParts(s, pos, h, x);
    if w == 0 {
      FirstByte(s, pos, 0xa0 + |x|, []);
    } else {
      var c := if w == 1 then 0xd9 else if w == 2 then 0xda else 0xdb;
      FirstByte(s, pos, c, Big(w, |x|));
      StandsNumber(s, pos + 1, w, |x|);
    }
    hide Skip, HeadAt;
  }

  lemma CountRead(w: nat, n: nat, s: seq<byte>, pos: nat, fix: byte, code16: byte, code32: byte)
    requires CountFits(w, n) && fix <= 0xf0 && code16 != code32
    requires !(fix <= code16 <= fix + 0x0f) && !(fix <= code32 <= fix + 0x0f)
    requires Stands(s, pos, Header(w, n, fix, (0, code16, code32)))
    ensures CountAt(s, pos, fix, code16, code32) == Some((n, pos + 1 + w))
  {
    if w == 0 {
      FirstByte(s, pos, fix + n, []);
    } else {
      FirstByte(s, pos, if w == 2 then code16 else code32, Big(w, n));
      StandsNumber(s, pos + 1, w, n);
    }
  }

  // ---------------------------------------------------------------------
  // The reader
  // ---------------------------------------------------------------------

  /** A cursor over the input. Whatever happens, the cursor never leaves it. */
  class Reader {
    const data: seq<byte>
    var pos: nat

    constructor (data: seq<byte>, start: nat)
      requires start <= |data|
      ensures this.data == data && pos == start && Valid()
    {
      this.data, pos := data, start;
    }

    ghost predicate Valid()
      reads this
    {
      pos <= |data|
    }

    /** Move past `n` bytes, if there are that many. */
    method Advance(n: nat) returns (ok: bool)
      requires Valid()
      modifies this
      ensures Valid() && (ok <==> n <= |data| - old(pos))
      ensures pos == if ok then old(pos) + n else old(pos)
    {
      ok := n <= |data| - pos;
      if ok { pos := pos + n; }
    }

    /** Read a big-endian number of `w` bytes. */
    method Number(w: nat) returns (r: Option<nat>)
      requires Valid()
      modifies this
      ensures Valid() && r == Take(data, old(pos), w)
      ensures pos == if r.Some? then old(pos) + w else old(pos)
    {
      r := Take(data, pos, w);
      if r.Some? { pos := pos + w; }
    }

    /** Read a type byte and its length field. */
    method Head() returns (r: Option<Token>)
      requires Valid()
      modifies this
      ensures Valid() && old(pos) <= pos
      ensures r.Some? <==> HeadAt(data, old(pos)).Some?
      ensures r.Some? ==> HeadAt(data, old(pos)) == Some((r.value, pos))
    {
      if pos == |data| { return None; }
      var c := data[pos];
      pos := pos + 1;
      if IsSimple(c) { return Some(Leaf(0)); }
      if 0xa0 <= c <= 0xbf { return Some(Leaf(c - 0xa0)); }
      if 0x90 <= c <= 0x9f { return Some(Group(c - 0x90)); }
      if 0x80 <= c <= 0x8f { return Some(Group(Doubled(c - 0x80))); }
      if LengthWidth(c) > 0 {
        var n := Number(LengthWidth(c));
        return if n.None? then None else Some(TokenOf(c, n.value));
      }
      return if ScalarSize(c) > 0 then Some(Leaf(ScalarSize(c))) else None;
    }

    /** Skip one value of any kind. */
    method SkipValue() returns (ok: bool)
      requires Valid()
      modifies this
      ensures Valid() && old(pos) <= pos
      ensures ok <==> Skip(data, old(pos)).Some?
      ensures ok ==> old(pos) < pos == Skip(data, old(pos)).value
      decreases |data| - pos, 0
    {
      hide HeadAt;
      SkipUnfolds(data, pos);
      var t := Head();
      if t.None? { return false; }
      match t.value
      case Leaf(n) => ok := Advance(n);
      case Group(count) => ok := SkipValues(count);
    }

    /** Skip a number of values. */
    method SkipValues(count: nat) returns (ok: bool)
      requires Valid()
      modifies this
      ensures Valid() && old(pos) <= pos
      ensures ok <==> SkipN(data, old(pos), count).Some?
      ensures ok ==> pos == SkipN(data, old(pos), count).value
      decreases |data| - pos, count
    {
      hide HeadAt, Skip;
      var i := 0;
      while i < count
        invariant i <= count && Valid() && old(pos) + i <= pos
        invariant SkipN(data, old(pos), count) == SkipN(data, pos, count - i)
      {
        ok := SkipValue();
        if !ok { return; }
        i := i + 1;
      }
      ok := true;
    }
  }
}
