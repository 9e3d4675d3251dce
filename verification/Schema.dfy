/**
 Schema-driven payloads. A schema is a list of fields; the generated encoder and
 decoder are the same for every list, so one proof covers every generated call.
 Signed and identifier fields travel as the 32- or 64-bit words they are cast to.
 */
module Schema {
  import opened Bytes
  import opened Wire

  /** A word of 4 or 8 bytes, or counted bytes with a maximum; text may hold no zero byte. */
  datatype Field = Word(bytes: nat) | Counted(max: nat, text: bool)

  datatype Value = Number(n: nat) | Content(data: seq<byte>)

  predicate ValidField(f: Field)
  {
    match f
    case Word(n) => n == 4 || n == 8
    case Counted(max, _) => 1 <= max <= 65535
  }

  predicate Valid(fs: seq<Field>) { forall i :: 0 <= i < |fs| ==> ValidField(fs[i]) }

  /** A value the C structure of the field can hold and the encoder accepts. */
  predicate FitsField(f: Field, v: Value)
  {
    match f
    case Word(n) => v.Number? && v.n < Pow(n)
    case Counted(max, text) => v.Content? && |v.data| <= max && (text ==> 0 !in v.data)
  }

  predicate Fits(fs: seq<Field>, vs: seq<Value>)
  {
    |fs| == |vs| && forall i :: 0 <= i < |fs| ==> FitsField(fs[i], vs[i])
  }

  function MinField(f: Field): nat { match f case Word(n) => n case Counted(_, _) => 4 }
  function MaxField(f: Field): nat { match f case Word(n) => n case Counted(max, _) => 4 + max }

  /** The wire bounds of a field list. */
  function Min(fs: seq<Field>): nat { if fs == [] then 0 else MinField(fs[0]) + Min(fs[1..]) }
  function Max(fs: seq<Field>): nat { if fs == [] then 0 else MaxField(fs[0]) + Max(fs[1..]) }

  function EncodeField(f: Field, v: Value): seq<byte>
    requires FitsField(f, v)
  {
    match f
    case Word(n) => Big(n, v.n)
    case Counted(_, _) => Big(4, |v.data|) + v.data
  }

  function Encode(fs: seq<Field>, vs: seq<Value>): seq<byte>
    requires Fits(fs, vs)
  {
    if fs == [] then [] else EncodeField(fs[0], vs[0]) + Encode(fs[1..], vs[1..])
  }

  /** One field at `pos`: its value and where the next one starts. */
  function DecodeField(f: Field, s: seq<byte>, pos: nat): Option<(Value, nat)>
    requires pos <= |s|
  {
    match f
    case Word(n) =>
      var w := Take(s, pos, n);
      if w.None? then None else Some((Number(w.value), pos + n))
    case Counted(max, text) =>
      var w := Take(s, pos, 4);
      if w.None? || w.value > max || w.value > |s| - (pos + 4) then None
      else
        var data := s[pos + 4..pos + 4 + w.value];
        if text && 0 in data then None else Some((Content(data), pos + 4 + w.value))
  }

  function DecodeAt(fs: seq<Field>, s: seq<byte>, pos: nat): Option<(seq<Value>, nat)>
    requires pos <= |s|
  {
    if fs == [] then Some(([], pos))
    else
      match DecodeField(fs[0], s, pos)
      case None => None
      case Some((v, p)) =>
        if p > |s| then None
        else
          match DecodeAt(fs[1..], s, p)
          case None => None
          case Some((vs, q)) => Some(([v] + vs, q))
  }

  /** The decoder: length within bounds, every field, nothing left over. */
  function Decode(fs: seq<Field>, s: seq<byte>): Option<seq<Value>>
  {
    if |s| < Min(fs) || |s| > Max(fs) then None
    else
      match DecodeAt(fs, s, 0)
      case None => None
      case Some((vs, p)) => if p == |s| then Some(vs) else None
  }

  // ---------------------------------------------------------------------
  // Both directions
  // ---------------------------------------------------------------------

  lemma FieldRoundTrip(f: Field, v: Value, before: seq<byte>, after: seq<byte>)
    requires ValidField(f) && FitsField(f, v)
    ensures
      DecodeField(f, before + EncodeField(f, v) + after, |before|) == Some((v, |before| + |EncodeField(f, v)|))
  {
    match f
    case Word(n) => TakeWritten(before, n, v.n, after);
    case Counted(max, text) => CountedRoundTrip(max, text, v.data, before, after);
  }

  lemma CountedRoundTrip(max: nat, text: bool, data: seq<byte>, before: seq<byte>, after: seq<byte>)
    requires ValidField(Counted(max, text)) && FitsField(Counted(max, text), Content(data))
    ensures
      DecodeField(Counted(max, text), before + (Big(4, |data|) + data) + after, |before|) ==
      Some((Content(data), |before| + 4 + |data|))
  {
    hide Take, Big, Pow, FromBig, DecodeField;
    PowSizes();
    TakeWritten(before, 4, |data|, data + after);
    Regroup(before, Big(4, |data|), data, after);
    CountedStands(max, text, data, before + (Big(4, |data|) + data) + after, |before|);
  }

  lemma CountedStands(max: nat, text: bool, data: seq<byte>, s: seq<byte>, pos: nat)
    requires FitsField(Counted(max, text), Content(data)) && Take(s, pos, 4) == Some(|data|)
    requires pos + 4 + |data| <= |s| && s[pos + 4..pos + 4 + |data|] == data
    ensures DecodeField(Counted(max, text), s, pos) == Some((Content(data), pos + 4 + |data|))
  {
    hide Take;
  }

  lemma Regroup(a: seq<byte>, h: seq<byte>, d: seq<byte>, c: seq<byte>)
    ensures a + (h + d) + c == a + h + (d + c)
    ensures (a + (h + d) + c)[|a| + |h|..|a| + |h| + |d|] == d
  {
  }

  lemma {:induction false} RoundTripAt(fs: seq<Field>, vs: seq<Value>, before: seq<byte>, after: seq<byte>)
    requires Valid(fs) && Fits(fs, vs)
    ensures DecodeAt(fs, before + Encode(fs, vs) + after, |before|) == Some((vs, |before| + |Encode(fs, vs)|))
    decreases |fs|
  {
    hide DecodeField, EncodeField, ValidField, FitsField;
    if fs != [] {
      var e, rest := EncodeField(fs[0], vs[0]), Encode(fs[1..], vs[1..]);
      var s := before + Encode(fs, vs) + after;
      FieldRoundTrip(fs[0], vs[0], before, rest + after);
      assert s == before + e + (rest + after);
      RoundTripAt(fs[1..], vs[1..], before + e, after);
      assert s == (before + e) + rest + after;
      assert |before| + |e| <= |s|;
      assert [vs[0]] + vs[1..] == vs;
    }
  }

  lemma {:induction false} EncodedLength(fs: seq<Field>, vs: seq<Value>)
    requires Fits(fs, vs)
    ensures Min(fs) <= |Encode(fs, vs)| <= Max(fs)
  {
    if fs != [] {
      EncodedLength(fs[1..], vs[1..]);
    }
  }

  /** Decoding inverts encoding, for every schema. */
  lemma DecodeInvertsEncode(fs: seq<Field>, vs: seq<Value>)
    requires Valid(fs) && Fits(fs, vs)
    ensures Decode(fs, Encode(fs, vs)) == Some(vs)
  {
    RoundTripAt(fs, vs, [], []);
    EncodedLength(fs, vs);
    assert [] + Encode(fs, vs) + [] == Encode(fs, vs);
  }

  lemma Joins(s: seq<byte>, a: nat, b: nat, c: nat)
    requires a <= b <= c <= |s|
    ensures s[a..b] + s[b..c] == s[a..c]
  {
  }

  lemma FieldCanonical(f: Field, s: seq<byte>, pos: nat)
    requires ValidField(f) && pos <= |s| && DecodeField(f, s, pos).Some?
    ensures
      var (v, p) := DecodeField(f, s, pos).value;
      pos <= p <= |s| && FitsField(f, v) && EncodeField(f, v) == s[pos..p]
  {
    match f
    case Word(n) => TakenStands(s, pos, n);
    case Counted(max, text) =>
      TakenStands(s, pos, 4);
      var n := Take(s, pos, 4).value;
      hide Big, Pow, Take;
      Joins(s, pos, pos + 4, pos + 4 + n);
  }

  lemma {:induction false} CanonicalAt(fs: seq<Field>, s: seq<byte>, pos: nat)
    requires Valid(fs) && pos <= |s| && DecodeAt(fs, s, pos).Some?
    ensures
      var (vs, p) := DecodeAt(fs, s, pos).value;
      pos <= p <= |s| && Fits(fs, vs) && Encode(fs, vs) == s[pos..p]
    decreases |fs|
  {
    hide DecodeField, EncodeField, ValidField, FitsField;
    if fs != [] {
      FieldCanonical(fs[0], s, pos);
      var (v, p) := DecodeField(fs[0], s, pos).value;
      CanonicalAt(fs[1..], s, p);
      var (vs, q) := DecodeAt(fs[1..], s, p).value;
      assert ([v] + vs)[1..] == vs;
      assert s[pos..p] + s[p..q] == s[pos..q];
    }
  }

  /** Every accepted payload is the encoding of what it decodes to. */
  lemma AcceptedReencodes(fs: seq<Field>, s: seq<byte>)
    requires Valid(fs) && Decode(fs, s).Some?
    ensures Fits(fs, Decode(fs, s).value) && Encode(fs, Decode(fs, s).value) == s
  {
    CanonicalAt(fs, s, 0);
  }

  // ---------------------------------------------------------------------
  // Bounds
  // ---------------------------------------------------------------------

  function Shortest(fs: seq<Field>): (vs: seq<Value>)
    ensures |vs| == |fs|
  {
    if fs == [] then [] else [if fs[0].Word? then Number(0) else Content([])] + Shortest(fs[1..])
  }

  function Longest(fs: seq<Field>): (vs: seq<Value>)
    ensures |vs| == |fs|
  {
    if fs == [] then []
    else [if fs[0].Word? then Number(0) else Content(seq(fs[0].max, _ => 1))] + Longest(fs[1..])
  }

  /** Both wire bounds are reached, so neither could be tightened. */
  lemma {:induction false} BoundsAttained(fs: seq<Field>)
    ensures Fits(fs, Shortest(fs)) && |Encode(fs, Shortest(fs))| == Min(fs)
    ensures Fits(fs, Longest(fs)) && |Encode(fs, Longest(fs))| == Max(fs)
  {
    if fs != [] {
      BoundsAttained(fs[1..]);
      var a, b := Shortest(fs), Longest(fs);
      assert a[1..] == Shortest(fs[1..]) && b[1..] == Longest(fs[1..]);
      forall i | 0 <= i < |fs| ensures FitsField(fs[i], a[i]) && FitsField(fs[i], b[i]) {
        if i > 0 {
          assert FitsField(fs[1..][i - 1], a[1..][i - 1]) && FitsField(fs[1..][i - 1], b[1..][i - 1]);
        }
      }
    }
  }

  // ---------------------------------------------------------------------
  // The table of calls
  // ---------------------------------------------------------------------

  datatype Api = Api(opcode: nat, request: seq<Field>, response: seq<Field>)

  ghost predicate ValidTable(apis: seq<Api>)
  {
    && (forall i :: 0 <= i < |apis| ==> Valid(apis[i].request) && Valid(apis[i].response))
    && (forall i, j :: 0 <= i < j < |apis| ==> apis[i].opcode != apis[j].opcode)
  }

  /** The length check made before a payload is handed to its decoder. */
  method ValidatePayload(apis: seq<Api>, opcode: nat, length: nat, response: bool) returns (ok: bool)
    requires ValidTable(apis)
    ensures ok <==> exists i :: 0 <= i < |apis| && apis[i].opcode == opcode && WithinBounds(apis[i], length, response)
  {
    ok := false;
    for i := 0 to |apis|
      invariant forall j :: 0 <= j < i ==> apis[j].opcode != opcode
    {
      if apis[i].opcode == opcode {
        return WithinBounds(apis[i], length, response);
      }
    }
  }

  function FieldsOf(api: Api, response: bool): seq<Field> { if response then api.response else api.request }

  predicate WithinBounds(api: Api, length: nat, response: bool)
  {
    Min(FieldsOf(api, response)) <= length <= Max(FieldsOf(api, response))
  }

  /** The length check never turns away an encoded payload. */
  lemma EncodingsPass(apis: seq<Api>, i: nat, vs: seq<Value>, response: bool)
    requires ValidTable(apis) && i < |apis|
    requires Fits(FieldsOf(apis[i], response), vs)
    ensures WithinBounds(apis[i], |Encode(FieldsOf(apis[i], response), vs)|, response)
  {
    EncodedLength(FieldsOf(apis[i], response), vs);
  }

  // ---------------------------------------------------------------------
  // The emitted loops
  // ---------------------------------------------------------------------

  method Write(out: array<byte>, pos: nat, bytes: seq<byte>)
    requires pos + |bytes| <= out.Length
    modifies out
    ensures out[..pos + |bytes|] == old(out[..pos]) + bytes && out[pos + |bytes|..] == old(out[pos + |bytes|..])
  {
    for i := 0 to |bytes|
      invariant out[..pos + i] == old(out[..pos]) + bytes[..i] && out[pos + i..] == old(out[pos + i..])
    {
      out[pos + i] := bytes[i];
      assert bytes[..i + 1] == bytes[..i] + [bytes[i]];
    }
    assert bytes[..|bytes|] == bytes;
  }

  ghost function Encoded(fs: seq<Field>, vs: seq<Value>): seq<byte> { if Fits(fs, vs) then Encode(fs, vs) else [] }

  lemma EncodedSuffix(fs: seq<Field>, vs: seq<Value>, i: nat, done: seq<byte>)
    requires |vs| == |fs| && i < |fs| && FitsField(fs[i], vs[i])
    ensures Fits(fs[i..], vs[i..]) <==> Fits(fs[i + 1..], vs[i + 1..])
    ensures Fits(fs[i..], vs[i..]) ==>
              done + Encoded(fs[i..], vs[i..]) == done + EncodeField(fs[i], vs[i]) + Encoded(fs[i + 1..], vs[i + 1..])
    ensures Max(fs[i..]) == MaxField(fs[i]) + Max(fs[i + 1..])
    ensures |EncodeField(fs[i], vs[i])| <= MaxField(fs[i])
  {
    assert fs[i..][0] == fs[i] && fs[i..][1..] == fs[i + 1..] && vs[i..][0] == vs[i] && vs[i..][1..] == vs[i + 1..];
    assert |EncodeField(fs[i], vs[i])| <= MaxField(fs[i]);
    hide EncodeField, FitsField, MaxField;
    var f0, v0, f1, v1 := fs[i..], vs[i..], fs[i + 1..], vs[i + 1..];
    if Fits(f1, v1) {
      forall k | 0 <= k < |f0| ensures FitsField(f0[k], v0[k]) {
        if k > 0 { assert FitsField(f1[k - 1], v1[k - 1]); }
      }
      assert done + (EncodeField(fs[i], vs[i]) + Encode(f1, v1)) == done + EncodeField(fs[i], vs[i]) + Encode(f1, v1);
    }
    if Fits(f0, v0) {
      forall k | 0 <= k < |f1| ensures FitsField(f1[k], v1[k]) {
        assert FitsField(f0[k + 1], v0[k + 1]);
      }
    }
  }

  /** `done` is what the first `i` fields encode to, as far as the values fit. */
  ghost predicate Ahead(done: seq<byte>, fs: seq<Field>, vs: seq<Value>, i: nat)
    requires |vs| == |fs| && i <= |fs|
  {
    && (Fits(fs, vs) <==> Fits(fs[i..], vs[i..]))
    && (Fits(fs, vs) ==> done + Encoded(fs[i..], vs[i..]) == Encoded(fs, vs))
  }

  lemma AheadStep(done: seq<byte>, fs: seq<Field>, vs: seq<Value>, i: nat)
    requires |vs| == |fs| && i < |fs| && Ahead(done, fs, vs, i)
    ensures FitsField(fs[i], vs[i]) ==> Ahead(done + EncodeField(fs[i], vs[i]), fs, vs, i + 1)
    ensures !FitsField(fs[i], vs[i]) ==> !Fits(fs, vs)
    ensures Max(fs[i..]) == MaxField(fs[i]) + Max(fs[i + 1..])
  {
    hide EncodeField, Encoded;
    if FitsField(fs[i], vs[i]) {
      EncodedSuffix(fs, vs, i, done);
    }
    assert fs[i..][0] == fs[i] && fs[i..][1..] == fs[i + 1..];
  }

  lemma AheadEnds(done: seq<byte>, fs: seq<Field>, vs: seq<Value>)
    requires |vs| == |fs|
    ensures Ahead([], fs, vs, 0)
    ensures Ahead(done, fs, vs, |fs|) ==> Fits(fs, vs) && done == Encode(fs, vs)
  {
    assert fs[0..] == fs && vs[0..] == vs && [] + Encoded(fs, vs) == Encoded(fs, vs);
    assert fs[|fs|..] == [] && vs[|fs|..] == [] && done + [] == done;
  }

  /** One field of the C structure: words hold any value of their width, counted fields carry a length of their own. */
  predicate HoldsField(f: Field, v: Value)
  {
    if f.Word? then v.Number? && v.n < Pow(f.bytes) else v.Content?
  }

  /** A string must also be followed by a zero byte in its buffer; `after` is the byte there. */
  predicate Terminated(f: Field, after: byte) { f.Counted? && f.text ==> after == 0 }

  /** Bytes a field is written in. */
  function Size(f: Field, v: Value): nat { if f.Word? then f.bytes else if v.Content? then 4 + |v.data| else 4 }

  /** Counted fields are checked before they are written, against the schema and the room left; words are not. */
  predicate Refused(f: Field, v: Value, after: byte, cap: nat, pos: nat)
    requires HoldsField(f, v)
  {
    f.Counted? && (|v.data| > f.max || (f.text && (after != 0 || 0 in v.data)) || pos > cap || cap - pos < 4 + |v.data|)
  }

  predicate HoldsAll(fs: seq<Field>, vs: seq<Value>)
  {
    |vs| == |fs| && forall i :: 0 <= i < |fs| ==> HoldsField(fs[i], vs[i])
  }

  /** Writing field `i` and those after it at `pos`: whether all are written, and how far the output has been written by then. */
  function Walk(fs: seq<Field>, vs: seq<Value>, after: seq<byte>, cap: nat, i: nat, pos: nat): (r: (bool, nat))
    requires HoldsAll(fs, vs) && |after| == |fs| && i <= |fs|
    ensures pos <= r.1
    decreases |fs| - i
  {
    if i == |fs| then (true, pos)
    else if Refused(fs[i], vs[i], after[i], cap, pos) then (false, pos)
    else Walk(fs, vs, after, cap, i + 1, pos + Size(fs[i], vs[i]))
  }

  /** How far the encoder writes when it is told that `cap` bytes are there. */
  function Reach(fs: seq<Field>, vs: seq<Value>, after: seq<byte>, cap: nat): nat
    requires HoldsAll(fs, vs) && |after| == |fs|
  {
    if cap < Min(fs) then 0 else Walk(fs, vs, after, cap, 0, 0).1
  }

  /** Every counted field from `i` on, written at its place, ends within `cap`. */
  predicate CountedInside(fs: seq<Field>, vs: seq<Value>, cap: nat, i: nat, pos: nat)
    requires |vs| == |fs| && i <= |fs|
    decreases |fs| - i
  {
    i == |fs| || ((fs[i].Counted? ==> pos + Size(fs[i], vs[i]) <= cap) &&
                  CountedInside(fs, vs, cap, i + 1, pos + Size(fs[i], vs[i])))
  }

  lemma {:induction false} WalkExact(fs: seq<Field>, vs: seq<Value>, after: seq<byte>, cap: nat, i: nat, pos: nat)
    requires HoldsAll(fs, vs) && |after| == |fs| && i <= |fs|
    ensures Walk(fs, vs, after, cap, i, pos).0 <==>
            CountedInside(fs, vs, cap, i, pos) && forall k :: i <= k < |fs| ==> FitsField(fs[k], vs[k]) && Terminated(fs[k], after[k])
    decreases |fs| - i
  {
    if i < |fs| {
      WalkExact(fs, vs, after, cap, i + 1, pos + Size(fs[i], vs[i]));
    }
  }

  lemma {:induction false} EnoughRoom(fs: seq<Field>, vs: seq<Value>, cap: nat, i: nat, pos: nat)
    requires Fits(fs, vs) && i <= |fs| && Fits(fs[i..], vs[i..]) && pos + |Encode(fs[i..], vs[i..])| <= cap
    ensures CountedInside(fs, vs, cap, i, pos)
    decreases |fs| - i
  {
    if i < |fs| {
      assert fs[i..][0] == fs[i] && vs[i..][0] == vs[i] && fs[i..][1..] == fs[i + 1..] && vs[i..][1..] == vs[i + 1..];
      assert |EncodeField(fs[i], vs[i])| == Size(fs[i], vs[i]);
      EnoughRoom(fs, vs, cap, i + 1, pos + Size(fs[i], vs[i]));
    }
  }

  method WriteField(out: array<byte>, cap: nat, pos: nat, f: Field, v: Value, after: byte) returns (ok: bool, next: nat)
    requires ValidField(f) && HoldsField(f, v)
    requires !Refused(f, v, after, cap, pos) ==> pos + Size(f, v) <= out.Length
    modifies out
    ensures ok <==> !Refused(f, v, after, cap, pos)
    ensures ok ==> FitsField(f, v) && next == pos + Size(f, v) == pos + |EncodeField(f, v)|
    ensures ok ==> out[..next] == old(out[..pos]) + EncodeField(f, v) && out[next..] == old(out[next..])
    ensures !ok ==> next == pos && out[..] == old(out[..])
  {
    if f.Counted? {
      if |v.data| > f.max { return false, pos; }
      if f.text && (after != 0 || 0 in v.data) { return false, pos; }
      if pos > cap || cap - pos < 4 + |v.data| { return false, pos; }
    }
    var e := EncodeField(f, v);
    Write(out, pos, e);
    return true, pos + |e|;
  }

  /**
   The encoder walks the fields and writes at a cursor. `out` is the memory at the output
   pointer, `cap` the capacity the caller claims for it; the encoder never looks at the former.
   */
  method EncodeInto(out: array<byte>, cap: nat, fs: seq<Field>, vs: seq<Value>, after: seq<byte>) returns (ok: bool, length: nat)
    requires Valid(fs) && HoldsAll(fs, vs) && |after| == |fs| && Reach(fs, vs, after, cap) <= out.Length
    modifies out
    ensures ok <==> Min(fs) <= cap && CountedInside(fs, vs, cap, 0, 0) && Fits(fs, vs) &&
                    forall i :: 0 <= i < |fs| ==> Terminated(fs[i], after[i])
    ensures Fits(fs, vs) && |Encode(fs, vs)| <= cap && (forall i :: 0 <= i < |fs| ==> Terminated(fs[i], after[i])) ==> ok
    ensures ok ==> length == Reach(fs, vs, after, cap) && out[..length] == Encode(fs, vs)
    ensures out[Reach(fs, vs, after, cap)..] == old(out[Reach(fs, vs, after, cap)..])
  {
    WalkExact(fs, vs, after, cap, 0, 0);
    EncoderEnough(fs, vs, cap);
    length := 0;
    if cap < Min(fs) { return false, 0; }
    AheadEnds([], fs, vs);
    assert out[..0] == [];
    hide Ahead, Fits, FitsField, EncodeField, Encode, HoldsField, MaxField, ValidField, Terminated, CountedInside, Refused, Size,
         Walk, Min, Max;
    for i := 0 to |fs|
      invariant Walk(fs, vs, after, cap, 0, 0) == Walk(fs, vs, after, cap, i, length)
      invariant length <= out.Length && Ahead(out[..length], fs, vs, i) && out[length..] == old(out[length..])
    {
      AheadStep(out[..length], fs, vs, i);
      WalkStep(fs, vs, after, cap, i, length);
      ghost var from := length;
      ok, length := WriteField(out, cap, length, fs[i], vs[i], after[i]);
      if !ok { return false, 0; }
      assert old(out[from..])[length - from..] == old(out[length..]);
    }
    ok := true;
    WalkEnd(fs, vs, after, cap, length);
    AheadEnds(out[..length], fs, vs);
  }

  lemma WalkStep(fs: seq<Field>, vs: seq<Value>, after: seq<byte>, cap: nat, i: nat, pos: nat)
    requires HoldsAll(fs, vs) && |after| == |fs| && i < |fs|
    ensures Walk(fs, vs, after, cap, i, pos) ==
            if Refused(fs[i], vs[i], after[i], cap, pos) then (false, pos)
            else Walk(fs, vs, after, cap, i + 1, pos + Size(fs[i], vs[i]))
  {
    hide Refused, Size;
  }

  lemma WalkEnd(fs: seq<Field>, vs: seq<Value>, after: seq<byte>, cap: nat, pos: nat)
    requires HoldsAll(fs, vs) && |after| == |fs|
    ensures Walk(fs, vs, after, cap, |fs|, pos) == (true, pos)
  {}

  /** A capacity that holds the encoding holds its least length and every counted field. */
  lemma EncoderEnough(fs: seq<Field>, vs: seq<Value>, cap: nat)
    requires |vs| == |fs|
    ensures Fits(fs, vs) && |Encode(fs, vs)| <= cap ==> Min(fs) <= cap && CountedInside(fs, vs, cap, 0, 0)
  {
    if Fits(fs, vs) && |Encode(fs, vs)| <= cap {
      assert fs[0..] == fs && vs[0..] == vs;
      EncodedLength(fs, vs);
      EnoughRoom(fs, vs, cap, 0, 0);
    }
  }

  // ---------------------------------------------------------------------
  // Which schemas are safe
  // ---------------------------------------------------------------------

  lemma {:induction false} MaxSnoc(fs: seq<Field>, i: nat)
    requires i < |fs|
    ensures Max(fs[..i + 1]) == Max(fs[..i]) + MaxField(fs[i])
  {
    if i == 0 {
      assert fs[..1] == [fs[0]] && fs[..0] == [] && [fs[0]][1..] == [];
    } else {
      MaxSnoc(fs[1..], i - 1);
      assert fs[..i + 1][1..] == fs[1..][..i] && fs[..i][1..] == fs[1..][..i - 1];
    }
  }

  /** Whatever the values and the claimed capacity, the encoder writes only within it. */
  ghost predicate StaysInside(fs: seq<Field>)
  {
    forall vs: seq<Value>, after: seq<byte>, cap: nat :: HoldsAll(fs, vs) && |after| == |fs| ==> Reach(fs, vs, after, cap) <= cap
  }

  /** Every word ends, at the latest, within the least length of the payload, which is checked at the start. */
  predicate WordsEarly(fs: seq<Field>)
  {
    forall j :: 0 <= j < |fs| && fs[j].Word? ==> Max(fs[..j + 1]) <= Min(fs)
  }

  lemma {:induction false} WalkInside(fs: seq<Field>, vs: seq<Value>, after: seq<byte>, cap: nat, i: nat, pos: nat)
    requires HoldsAll(fs, vs) && |after| == |fs| && i <= |fs| && WordsEarly(fs) && Min(fs) <= cap
    requires pos <= cap && pos <= Max(fs[..i])
    ensures Walk(fs, vs, after, cap, i, pos).1 <= cap
    decreases |fs| - i
  {
    if i < |fs| && !Refused(fs[i], vs[i], after[i], cap, pos) {
      MaxSnoc(fs, i);
      assert fs[i].Word? ==> Max(fs[..i + 1]) <= Min(fs);
      WalkInside(fs, vs, after, cap, i + 1, pos + Size(fs[i], vs[i]));
    }
  }

  lemma {:induction false} LongestAt(fs: seq<Field>, i: nat)
    requires i < |fs|
    ensures Longest(fs)[i] == if fs[i].Word? then Number(0) else Content(seq(fs[i].max, _ => 1))
  {
    if i > 0 { LongestAt(fs[1..], i - 1); }
  }

  /** With the longest values, and room for everything before word `j`, that word is written. */
  lemma {:induction false} WalkReaches(fs: seq<Field>, after: seq<byte>, cap: nat, i: nat, j: nat)
    requires i <= j < |fs| && fs[j].Word? && HoldsAll(fs, Longest(fs)) && |after| == |fs|
    requires (forall k :: 0 <= k < |fs| ==> after[k] == 0) && Max(fs[..j]) <= cap
    ensures Walk(fs, Longest(fs), after, cap, i, Max(fs[..i])).1 >= Max(fs[..j + 1])
    decreases j - i
  {
    MaxSnoc(fs, i);
    LongestAt(fs, i);
    if i < j {
      MaxPrefix(fs, i + 1, j);
      WalkReaches(fs, after, cap, i + 1, j);
    }
  }

  lemma {:induction false} MaxPrefix(fs: seq<Field>, i: nat, j: nat)
    requires i <= j <= |fs|
    ensures Max(fs[..i]) <= Max(fs[..j])
    decreases j
  {
    if i < j {
      MaxPrefix(fs, i, j - 1);
      MaxSnoc(fs, j - 1);
    }
  }

  lemma HoldsLongest(fs: seq<Field>)
    requires Valid(fs)
    ensures HoldsAll(fs, Longest(fs))
  {
    PowSizes();
    forall i | 0 <= i < |fs| ensures HoldsField(fs[i], Longest(fs)[i]) {
      LongestAt(fs, i);
      assert ValidField(fs[i]);
    }
  }

  /**
   The encoder checks room at the start and at counted fields only. It stays inside every
   claimed capacity exactly for the schemas whose words all end early enough.
   */
  lemma InsideExactly(fs: seq<Field>)
    requires Valid(fs)
    ensures StaysInside(fs) <==> WordsEarly(fs)
  {
    if WordsEarly(fs) {
      forall vs: seq<Value>, after: seq<byte>, cap: nat | HoldsAll(fs, vs) && |after| == |fs|
        ensures Reach(fs, vs, after, cap) <= cap
      {
        if Min(fs) <= cap { WalkInside(fs, vs, after, cap, 0, 0); }
      }
    } else {
      var j :| 0 <= j < |fs| && fs[j].Word? && Max(fs[..j + 1]) > Min(fs);
      var cap := if Min(fs) < Max(fs[..j]) then Max(fs[..j]) else Min(fs);
      var after := seq(|fs|, _ => 0);
      HoldsLongest(fs);
      WalkReaches(fs, after, cap, 0, j);
      MaxSnoc(fs, j);
      assert ValidField(fs[j]);
      assert fs[..0] == [];
      assert Reach(fs, Longest(fs), after, cap) > cap;
    }
  }

  /** In particular no schema with all its words before its counted fields goes wrong. */
  lemma WordsFirst(fs: seq<Field>)
    requires forall i, j :: 0 <= i < j < |fs| && fs[j].Word? ==> fs[i].Word?
    ensures WordsEarly(fs)
  {
    forall j | 0 <= j < |fs| && fs[j].Word? ensures Max(fs[..j + 1]) <= Min(fs) {
      OnlyWords(fs, j + 1);
    }
  }

  lemma {:induction false} OnlyWords(fs: seq<Field>, n: nat)
    requires n <= |fs| && forall i :: 0 <= i < n ==> fs[i].Word?
    ensures Max(fs[..n]) <= Min(fs)
  {
    if n > 0 {
      OnlyWords(fs[1..], n - 1);
      assert fs[..n][1..] == fs[1..][..n - 1];
    }
  }

  /** Bytes and then a word: told of 8 bytes, the encoder writes 12. */
  lemma WordPastTheEnd(data: seq<byte>)
    requires |data| == 4
    ensures
      var fs, vs := [Counted(4, false), Word(4)], [Content(data), Number(0)];
      HoldsAll(fs, vs) && Reach(fs, vs, [0, 0], 8) == 12
  {
    PowSizes();
    var fs, vs := [Counted(4, false), Word(4)], [Content(data), Number(0)];
    assert fs[1..] == [Word(4)] && fs[1..][1..] == [];
    assert Min(fs) == 4 + Min(fs[1..]) && Min(fs[1..]) == 4 + Min(fs[1..][1..]);
    assert Walk(fs, vs, [0, 0], 8, 2, 12) == (true, 12);
    assert Walk(fs, vs, [0, 0], 8, 1, 8) == (true, 12);
  }

  ghost function Prepended(vs: seq<Value>, d: Option<(seq<Value>, nat)>): Option<(seq<Value>, nat)>
  {
    match d
    case None => None
    case Some((ws, p)) => Some((vs + ws, p))
  }

  lemma DecodeSuffix(fs: seq<Field>, s: seq<byte>, pos: nat, i: nat, vs: seq<Value>)
    requires Valid(fs) && pos <= |s| && i < |fs|
    ensures DecodeField(fs[i], s, pos).None? ==> DecodeAt(fs[i..], s, pos).None?
    ensures DecodeField(fs[i], s, pos).Some? ==>
              var (v, p) := DecodeField(fs[i], s, pos).value;
              p <= |s| && Prepended(vs, DecodeAt(fs[i..], s, pos)) == Prepended(vs + [v], DecodeAt(fs[i + 1..], s, p))
  {
    assert fs[i..][0] == fs[i] && fs[i..][1..] == fs[i + 1..];
    var d := DecodeField(fs[i], s, pos);
    if d.Some? {
      FieldCanonical(fs[i], s, pos);
      hide DecodeField;
      var rest := DecodeAt(fs[i + 1..], s, d.value.1);
      assert rest.Some? ==> vs + ([d.value.0] + rest.value.0) == vs + [d.value.0] + rest.value.0;
    }
  }

  /** The decoder walks the fields and reads at a cursor. */
  method DecodeFrom(fs: seq<Field>, s: seq<byte>) returns (r: Option<seq<Value>>)
    requires Valid(fs)
    ensures r == Decode(fs, s)
  {
    if |s| < Min(fs) || |s| > Max(fs) { return None; }
    var pos: nat, i: nat, vs := 0, 0, [];
    ghost var whole := DecodeAt(fs, s, 0);
    assert fs[0..] == fs && (whole.Some? ==> [] + whole.value.0 == whole.value.0);
    while i < |fs|
      invariant i <= |fs| && pos <= |s|
      invariant whole == Prepended(vs, DecodeAt(fs[i..], s, pos))
    {
      DecodeSuffix(fs, s, pos, i, vs);
      var d := DecodeField(fs[i], s, pos);
      if d.None? { return None; }
      vs, pos, i := vs + [d.value.0], d.value.1, i + 1;
    }
    assert fs[i..] == [] && vs + [] == vs;
    return if pos == |s| then Some(vs) else None;
  }
}
