/**
 Finding the metadata inside an ELF64 little-endian image: the first section named
 ".note" (System V gABI, chapter 4 "Sections"), and in it the first note of owner
 "Iluvatar" and type 0x0A (chapter 5 "Note Section").
 */
module ElfNotes {
  import opened Arith
  import opened Bytes
  import opened Wire
  import MsgPack
  import opened Metadata

  // ---------------------------------------------------------------------
  // Notes
  // ---------------------------------------------------------------------

  datatype Note = Note(owner: seq<byte>, desc: seq<byte>, kind: u32)

  function Align4(n: nat): (r: nat)
    ensures n <= r < n + 4 && r % 4 == 0
  {
    (n + 3) / 4 * 4
  }

  const OWNER: seq<byte> := [0x49, 0x6c, 0x75, 0x76, 0x61, 0x74, 0x61, 0x72]   // "Iluvatar"

  /** Owner names normally end in a zero; only the first eight bytes are looked at. */
  predicate Wanted(n: Note)
  {
    |n.owner| >= 8 && n.owner[..8] == OWNER && n.kind == 0x0a
  }

  /** The note at `pos` and where the next one starts, if both its padded parts fit. */
  function NoteAt(s: seq<byte>, pos: nat): (r: Option<(Note, nat)>)
    ensures r.Some? ==> pos + 12 <= r.value.1 <= |s|
  {
    if pos + 12 > |s| then None
    else
      var nameSize, descSize := Le(s, pos, 4), Le(s, pos + 4, 4);
      FromLittleRoundTrip(s[pos + 8..pos + 12]);
      PowSizes();
      var p := pos + 12;
      if Align4(nameSize) > |s| - p then None
      else
        var q := p + Align4(nameSize);
        if Align4(descSize) > |s| - q then None
        else Some((Note(s[p..p + nameSize], s[q..q + descSize], Le(s, pos + 8, 4)), q + Align4(descSize)))
  }

  /** Walk from note to note until a wanted one turns up. */
  function FindNote(s: seq<byte>, pos: nat): Option<seq<byte>>
    decreases |s| - pos
  {
    match NoteAt(s, pos)
    case None => None
    case Some((n, p)) => if Wanted(n) then Some(n.desc) else FindNote(s, p)
  }

  // ---------------------------------------------------------------------
  // A note section as it is written
  // ---------------------------------------------------------------------

  predicate WritableNote(n: Note) { |n.owner| < TWO32 && |n.desc| < TWO32 }

  function Padded(s: seq<byte>): (r: seq<byte>)
    ensures |r| == Align4(|s|) && s <= r
  {
    s + seq(Align4(|s|) - |s|, _ => 0)
  }

  function WriteNote(n: Note): seq<byte>
    requires WritableNote(n)
  {
    Little(4, |n.owner|) + Little(4, |n.desc|) + Little(4, n.kind) + Padded(n.owner) + Padded(n.desc)
  }

  function WriteNotes(ns: seq<Note>): seq<byte>
    requires forall n :: n in ns ==> WritableNote(n)
  {
    if ns == [] then [] else WriteNote(ns[0]) + WriteNotes(ns[1..])
  }

  lemma LePart(before: seq<byte>, v: u32, after: seq<byte>)
    ensures Le(before + Little(4, v) + after, |before|, 4) == v
  {
    PowSizes();
    LittleRoundTrip(4, v);
    assert (before + Little(4, v) + after)[|before|..|before| + 4] == Little(4, v);
  }

  /** A written note is read back, whatever comes before and after it. */
  lemma NoteReadBack(before: seq<byte>, n: Note, after: seq<byte>)
    requires WritableNote(n)
    ensures NoteAt(before + WriteNote(n) + after, |before|) == Some((n, |before| + |WriteNote(n)|))
  {
    hide FromLittle, Little, Pow, Padded;
    var s := before + WriteNote(n) + after;
    var a, b, c := Little(4, |n.owner|), Little(4, |n.desc|), Little(4, n.kind);
    var o, d := Padded(n.owner), Padded(n.desc);
    Grouped(before, a, b, c, o, d, after);
    LePart(before, |n.owner|, b + c + o + d + after);
    LePart(before + a, |n.desc|, c + o + d + after);
    LePart(before + a + b, n.kind, o + d + after);
    NoteParts(before + a + b + c, o, d, after, n.owner, n.desc);
    hide Le;
  }

  lemma Grouped(x: seq<byte>, a: seq<byte>, b: seq<byte>, c: seq<byte>, o: seq<byte>, d: seq<byte>, y: seq<byte>)
    ensures
      var s := x + (a + b + c + o + d) + y;
      && s == x + a + (b + c + o + d + y)
      && s == (x + a) + b + (c + o + d + y)
      && s == (x + a + b) + c + (o + d + y)
      && s == (x + a + b + c) + o + d + y
  {
  }

  lemma NoteParts(before: seq<byte>, o: seq<byte>, d: seq<byte>, after: seq<byte>, owner: seq<byte>, desc: seq<byte>)
    requires owner <= o && desc <= d
    ensures
      var s := before + o + d + after;
      var p := |before|;
      s[p..p + |owner|] == owner && s[p + |o|..p + |o| + |desc|] == desc
  {
  }

  /** The index of the first wanted note, or the number of notes. */
  function FirstWanted(ns: seq<Note>): (k: nat)
    ensures k <= |ns| && (k < |ns| ==> Wanted(ns[k])) && forall i :: 0 <= i < k ==> !Wanted(ns[i])
  {
    if ns == [] || Wanted(ns[0]) then 0 else 1 + FirstWanted(ns[1..])
  }

  /** Over any list of notes, the walk finds the description of the first wanted one. */
  lemma {:induction false} WalkFindsFirst(before: seq<byte>, ns: seq<Note>, after: seq<byte>)
    requires forall n :: n in ns ==> WritableNote(n)
    requires FirstWanted(ns) < |ns|
    ensures FindNote(before + WriteNotes(ns) + after, |before|) == Some(ns[FirstWanted(ns)].desc)
    decreases |ns|
  {
    hide NoteAt, WriteNote, Wanted;
    var s := before + WriteNotes(ns) + after;
    var w, rest := WriteNote(ns[0]), WriteNotes(ns[1..]);
    assert s == before + w + (rest + after);
    NoteReadBack(before, ns[0], rest + after);
    if !Wanted(ns[0]) {
      WalkFindsFirst(before + w, ns[1..], after);
      assert s == (before + w) + rest + after;
    }
  }

  /** When no note is wanted and the section ends with the last of them, nothing is found. */
  lemma {:induction false} WalkFindsNone(before: seq<byte>, ns: seq<Note>)
    requires forall n :: n in ns ==> WritableNote(n)
    requires FirstWanted(ns) == |ns|
    ensures FindNote(before + WriteNotes(ns), |before|) == None
    decreases |ns|
  {
    hide NoteAt, WriteNote, Wanted;
    if ns == [] {
      NoNoteLeft(before + WriteNotes(ns), |before|);
    } else {
      var w, rest := WriteNote(ns[0]), WriteNotes(ns[1..]);
      assert !Wanted(ns[0]) && FirstWanted(ns[1..]) == |ns[1..]|;
      Regrouped(before, w, rest);
      NoteReadBack(before, ns[0], rest);
      WalkFindsNone(before + w, ns[1..]);
      hide WriteNotes, FirstWanted, WritableNote;
    }
  }

  lemma Regrouped(a: seq<byte>, b: seq<byte>, c: seq<byte>)
    ensures a + (b + c) == a + b + c
  {
  }

  lemma NoNoteLeft(s: seq<byte>, pos: nat)
    requires pos + 12 > |s|
    ensures FindNote(s, pos) == None
  {
  }

  /** The walk as a loop. */
  method FindNoteLoop(s: seq<byte>) returns (r: Option<seq<byte>>)
    ensures r == FindNote(s, 0)
  {
    hide NoteAt, Wanted;
    var pos: nat := 0;
    while true
      invariant FindNote(s, 0) == FindNote(s, pos)
      decreases |s| - pos
    {
      var n := NoteAt(s, pos);
      if n.None? { return None; }
      if Wanted(n.value.0) { return Some(n.value.0.desc); }
      pos := n.value.1;
    }
  }

  // ---------------------------------------------------------------------
  // Sections
  // ---------------------------------------------------------------------

  datatype Section = Section(name: nat, offset: nat, size: nat)

  predicate SafeRange(total: nat, offset: nat, size: nat) { offset <= total && size <= total - offset }

  predicate IsElf64(image: seq<byte>)
  {
    |image| >= 64 && image[..4] == [0x7f, 0x45, 0x4c, 0x46] && image[4] == 2 && image[5] == 1
  }

  function TableAt(image: seq<byte>): nat requires |image| >= 64 { Le(image, 0x28, 8) }
  function EntrySize(image: seq<byte>): nat requires |image| >= 64 { Le(image, 0x3a, 2) }
  function Entries(image: seq<byte>): nat requires |image| >= 64 { Le(image, 0x3c, 2) }
  function NamesIndex(image: seq<byte>): nat requires |image| >= 64 { Le(image, 0x3e, 2) }

  /** The section table lies in the image and names a section of names. */
  predicate TableOk(image: seq<byte>)
  {
    && IsElf64(image) && EntrySize(image) >= 64 && NamesIndex(image) < Entries(image)
    && SafeRange(|image|, TableAt(image), EntrySize(image) * Entries(image))
  }

  /** Section `i`, if its entry and its contents lie in the image. */
  function SectionAt(image: seq<byte>, i: nat): (r: Option<Section>)
    requires TableOk(image)
    ensures r.Some? ==> SafeRange(|image|, r.value.offset, r.value.size)
  {
    var off := TableAt(image) + i * EntrySize(image);
    if !SafeRange(|image|, off, EntrySize(image)) then None
    else
      var sec := Section(Le(image, off, 4), Le(image, off + 24, 8), Le(image, off + 32, 8));
      if SafeRange(|image|, sec.offset, sec.size) then Some(sec) else None
  }

  /** The offset of a section entry is computed without wrapping in 64 bits. */
  lemma EntryOffsetFits(image: seq<byte>, i: nat)
    requires TableOk(image) && i < Entries(image) && |image| < TWO64
    ensures TableAt(image) + i * EntrySize(image) + EntrySize(image) <= |image|
  {
    hide Le;
    MulStep(i, Entries(image), EntrySize(image));
  }

  lemma MulStep(i: nat, n: nat, e: nat)
    requires i < n
    ensures i * e + e <= e * n
  {
    TimesIsProduct(i, e);
    TimesIsProduct(n, e);
    TimesStep(i, n, e);
  }

  function Contents(image: seq<byte>, sec: Section): seq<byte>
    requires SafeRange(|image|, sec.offset, sec.size)
  {
    image[sec.offset..sec.offset + sec.size]
  }

  /** The name at `at` in the section of names is ".note" followed by a zero. */
  predicate IsNoteName(names: seq<byte>, at: nat)
  {
    at < |names| && 6 <= |names| - at && names[at..at + 6] == [0x2e, 0x6e, 0x6f, 0x74, 0x65, 0]
  }

  predicate IsNoteSection(image: seq<byte>, names: seq<byte>, i: nat)
    requires TableOk(image)
  {
    SectionAt(image, i).Some? && IsNoteName(names, SectionAt(image, i).value.name)
  }

  /** Section `i` is the first named ".note", and every section before it is sound. */
  ghost predicate FirstNoteSection(image: seq<byte>, names: seq<byte>, i: nat)
    requires TableOk(image)
  {
    && i < Entries(image) && IsNoteSection(image, names, i)
    && forall j: nat :: j < i ==> SectionAt(image, j).Some? && !IsNoteSection(image, names, j)
  }

  /** The walk over the section table stops at the first ".note" section, or at the first broken one. */
  method FindSection(image: seq<byte>, names: seq<byte>) returns (r: Option<Section>)
    requires TableOk(image)
    ensures r.Some? ==> exists i: nat :: FirstNoteSection(image, names, i) && SectionAt(image, i) == r
    ensures r.None? ==> forall i: nat :: !FirstNoteSection(image, names, i)
  {
    assert |image| >= 64;
    hide SectionAt, IsNoteName, TableOk, Entries;
    for i := 0 to Entries(image)
      invariant forall j: nat :: j < i ==> SectionAt(image, j).Some? && !IsNoteSection(image, names, j)
    {
      r := SectionAt(image, i);
      if r.None? { return; }
      if IsNoteName(names, r.value.name) {
        assert FirstNoteSection(image, names, i);
        return;
      }
    }
    r := None;
  }

  /** The metadata of an image; without kernels it is refused. */
  method ParseImage(image: seq<byte>) returns (r: Option<Module>)
    ensures TableOk(image) && SectionAt(image, NamesIndex(image)).Some? ==>
              var names := Contents(image, SectionAt(image, NamesIndex(image)).value);
              && (forall i: nat :: FirstNoteSection(image, names, i) ==>
                   r == ModuleIn(Contents(image, SectionAt(image, i).value)))
              && ((forall i: nat :: !FirstNoteSection(image, names, i)) ==> r == None)
    ensures !(TableOk(image) && SectionAt(image, NamesIndex(image)).Some?) ==> r == None
  {
    if !TableOk(image) { return None; }
    hide TableOk, SectionAt, IsNoteSection, FindNote, ParseRoot;
    var strings := SectionAt(image, NamesIndex(image));
    if strings.None? { return None; }
    ghost var names := Contents(image, strings.value);
    var found := FindSection(image, Contents(image, strings.value));
    if found.None? { return None; }
    OneFirst(image, names);
    var desc := FindNoteLoop(Contents(image, found.value));
    if desc.None? { return None; }
    var m := ParseRootLoop(desc.value);
    r := if m.Some? && m.value.kernels != [] then m else None;
  }

  /** The module described by a note section. */
  function ModuleIn(notes: seq<byte>): Option<Module>
  {
    match FindNote(notes, 0)
    case None => None
    case Some(desc) =>
      var m := ParseRoot(desc);
      if m.Some? && m.value.kernels != [] then m else None
  }

  lemma OneFirst(image: seq<byte>, names: seq<byte>)
    requires TableOk(image)
    ensures forall i: nat, j: nat :: FirstNoteSection(image, names, i) && FirstNoteSection(image, names, j) ==> i == j
  {
    hide IsNoteSection, TableOk, SectionAt;
    forall i: nat, j: nat | FirstNoteSection(image, names, i) && FirstNoteSection(image, names, j) ensures i == j {
      assert !(i < j) && !(j < i);
    }
  }

  lemma SectionFindsFirst(ns: seq<Note>, after: seq<byte>)
    requires (forall n :: n in ns ==> WritableNote(n)) && FirstWanted(ns) < |ns|
    ensures FindNote(WriteNotes(ns) + after, 0) == Some(ns[FirstWanted(ns)].desc)
  {
    hide FindNote, WriteNotes, WritableNote, FirstWanted;
    WalkFindsFirst([], ns, after);
    assert [] + WriteNotes(ns) + after == WriteNotes(ns) + after;
  }

  /** A module printed into the first wanted note of a section is found and read back. */
  lemma PrintedModuleFound(ns: seq<Note>, t: MsgPack.Tree, m: Module, after: seq<byte>)
    requires forall n :: n in ns ==> WritableNote(n)
    requires MsgPack.Legal(t) && PrintsModule(t, m) && m.kernels != []
    requires FirstWanted(ns) < |ns| && ns[FirstWanted(ns)].desc == MsgPack.Encode(t)
    ensures ModuleIn(WriteNotes(ns) + after) == Some(m)
  {
    hide FindNote, ParseRoot, MsgPack.Legal, MsgPack.Encode, PrintsModule, WriteNotes, WritableNote, FirstWanted;
    SectionFindsFirst(ns, after);
    ParseInvertsPrint(t, m, []);
  }
}
