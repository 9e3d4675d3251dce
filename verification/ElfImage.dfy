/**
 How long a device ELF image is, judged from its own tables, and how an image is
 taken out of a fat binary.
 */
module ElfImage {
  import opened Arith
  import opened Bytes
  import opened Wire

  const MACHINE: nat := 0xf8
  const OSABI: byte := 0x42
  const NOBITS: nat := 8
  const MAX_BYTES: nat := 0x1000_0000
  const FATBIN_MAGIC: nat := 0x2016_0329
  const FATBIN_VERSION: nat := 0x1_0000

  /** A read depends only on the bytes it covers. */
  lemma LeLocal(s: seq<byte>, s': seq<byte>, e: nat, pos: nat, n: nat)
    requires e <= |s| && e <= |s'| && s'[..e] == s[..e] && pos + n <= e
    ensures Le(s', pos, n) == Le(s, pos, n)
  {
    assert s'[pos..pos + n] == s'[..e][pos..pos + n] == s[..e][pos..pos + n] == s[pos..pos + n];
  }

  // ---------------------------------------------------------------------
  // The header and the two tables
  // ---------------------------------------------------------------------

  /** A table of `count` entries of `size` bytes at `offset`. */
  datatype Table = Table(offset: nat, size: nat, count: nat)

  function Programs(s: seq<byte>): Table requires |s| >= 64 { Table(Le(s, 32, 8), Le(s, 54, 2), Le(s, 56, 2)) }
  function Sections(s: seq<byte>): Table requires |s| >= 64 { Table(Le(s, 40, 8), Le(s, 58, 2), Le(s, 60, 2)) }

  predicate HeaderOk(s: seq<byte>)
  {
    && |s| >= 64 && s[..4] == [0x7f, 0x45, 0x4c, 0x46] && s[4] == 2 && s[5] == 1 && s[6] == 1 && s[7] == OSABI
    && Le(s, 18, 2) == MACHINE && Le(s, 20, 4) == 1 && Le(s, 52, 2) == 64
    && (Programs(s).count != 0 ==> Programs(s).size >= 56)
    && (Sections(s).count != 0 ==> Sections(s).size >= 64)
  }

  /** End of a range of bytes, unless the sum does not fit 64 bits. */
  function RangeEnd(offset: nat, length: nat): Option<nat>
  {
    if offset + length >= TWO64 then None else Some(offset + length)
  }

  /** End of a table; an empty table is not looked at. */
  function TableEnd(t: Table): Option<nat>
  {
    if t.count == 0 then Some(0) else RangeEnd(t.offset, Times(t.count, t.size))
  }

  predicate Inside(end: Option<nat>, limit: nat) { end.Some? && end.value <= limit }

  /** Both tables lie within the first `limit` bytes. */
  predicate TablesInside(s: seq<byte>, limit: nat)
    requires |s| >= 64
  {
    Inside(TableEnd(Programs(s)), limit) && Inside(TableEnd(Sections(s)), limit)
  }

  function Entry(t: Table, i: nat): nat { t.offset + Times(i, t.size) }

  lemma EntryInside(t: Table, i: nat, limit: nat)
    requires i < t.count && Inside(TableEnd(t), limit)
    ensures Entry(t, i) + t.size <= limit
  {
    TimesStep(i, t.count, t.size);
  }

  /** End of program segment `i`. */
  function SegmentEnd(s: seq<byte>, i: nat): Option<nat>
    requires HeaderOk(s) && TablesInside(s, |s|) && i < Programs(s).count
  {
    EntryInside(Programs(s), i, |s|);
    var p := Entry(Programs(s), i);
    RangeEnd(Le(s, p + 8, 8), Le(s, p + 32, 8))
  }

  /** End of section `i`; sections without bytes of their own do not count. */
  function SectionEnd(s: seq<byte>, i: nat): Option<nat>
    requires HeaderOk(s) && TablesInside(s, |s|) && i < Sections(s).count
  {
    EntryInside(Sections(s), i, |s|);
    var p := Entry(Sections(s), i);
    if Le(s, p + 4, 4) == NOBITS then Some(0) else RangeEnd(Le(s, p + 24, 8), Le(s, p + 32, 8))
  }

  // ---------------------------------------------------------------------
  // The extent
  // ---------------------------------------------------------------------

  /** Everything the image refers to ends at or before `limit`. */
  ghost predicate Bounded(s: seq<byte>, limit: nat)
  {
    && HeaderOk(s) && TablesInside(s, |s|) && TablesInside(s, limit) && 64 <= limit
    && (forall i: nat :: i < Programs(s).count ==> Inside(SegmentEnd(s, i), limit))
    && (forall i: nat :: i < Sections(s).count ==> Inside(SectionEnd(s, i), limit))
  }

  /** The extent is the least such bound, and it lies in the available bytes. */
  ghost predicate IsExtent(s: seq<byte>, e: nat)
  {
    Bounded(s, e) && e <= |s| && forall limit: nat :: Bounded(s, limit) ==> e <= limit
  }

  lemma ExtentUnique(s: seq<byte>, e: nat, e': nat)
    requires IsExtent(s, e) && IsExtent(s, e')
    ensures e == e'
  {
  }

  /** What the image refers to is decided by the bytes within any bound on it. */
  lemma BoundedLocal(s: seq<byte>, s': seq<byte>, e: nat, limit: nat)
    requires Bounded(s, e) && e <= |s| && e <= |s'| && s'[..e] == s[..e]
    ensures Bounded(s', limit) <==> Bounded(s, limit)
  {
    HeaderLocal(s, s', e);
    assert TablesInside(s', |s'|) && TablesInside(s', e);
    forall i: nat | i < Programs(s).count ensures SegmentEnd(s', i) == SegmentEnd(s, i) {
      EntryInside(Programs(s), i, e);
      var p := Entry(Programs(s), i);
      LeLocal(s, s', e, p + 8, 8);
      LeLocal(s, s', e, p + 32, 8);
    }
    forall i: nat | i < Sections(s).count ensures SectionEnd(s', i) == SectionEnd(s, i) {
      EntryInside(Sections(s), i, e);
      var p := Entry(Sections(s), i);
      LeLocal(s, s', e, p + 4, 4);
      LeLocal(s, s', e, p + 24, 8);
      LeLocal(s, s', e, p + 32, 8);
    }
    hide Le, SegmentEnd, SectionEnd, TableEnd, HeaderOk, Programs, Sections;
  }

  lemma HeaderLocal(s: seq<byte>, s': seq<byte>, e: nat)
    requires HeaderOk(s) && 64 <= e <= |s| && e <= |s'| && s'[..e] == s[..e]
    ensures HeaderOk(s') && Programs(s') == Programs(s) && Sections(s') == Sections(s)
  {
    LeLocal(s, s', e, 18, 2);
    LeLocal(s, s', e, 20, 4);
    LeLocal(s, s', e, 32, 8);
    LeLocal(s, s', e, 40, 8);
    LeLocal(s, s', e, 52, 2);
    LeLocal(s, s', e, 54, 2);
    LeLocal(s, s', e, 56, 2);
    LeLocal(s, s', e, 58, 2);
    LeLocal(s, s', e, 60, 2);
    forall i | 0 <= i < 8 ensures s'[i] == s[i] {
      assert s'[i] == s'[..e][i] == s[..e][i];
    }
    assert s'[..4] == s[..4];
  }

  /** The extent depends only on the bytes inside it: any input that starts with them has the same extent. */
  lemma ExtentLocal(s: seq<byte>, s': seq<byte>, e: nat)
    requires IsExtent(s, e) && e <= |s'| && s'[..e] == s[..e]
    ensures IsExtent(s', e)
  {
    forall limit: nat ensures Bounded(s', limit) <==> Bounded(s, limit) {
      BoundedLocal(s, s', e, limit);
    }
  }

  // ---------------------------------------------------------------------
  // The loops that compute it
  // ---------------------------------------------------------------------

  /** `end` is the least bound on the tables and on the first `m` segments and `n` sections. */
  ghost predicate Scanned(s: seq<byte>, m: nat, n: nat, end: nat)
    requires HeaderOk(s) && TablesInside(s, |s|) && m <= Programs(s).count && n <= Sections(s).count
  {
    && 64 <= end <= |s| && TablesInside(s, end)
    && (forall i: nat :: i < m ==> Inside(SegmentEnd(s, i), end))
    && (forall i: nat :: i < n ==> Inside(SectionEnd(s, i), end))
    && (forall limit: nat :: Bounded(s, limit) ==> end <= limit)
  }

  function Max(a: nat, b: nat): nat { if a >= b then a else b }

  method Extent(s: seq<byte>) returns (r: Option<nat>)
    ensures r.Some? ==> IsExtent(s, r.value)
    ensures r.None? ==> forall e: nat :: !IsExtent(s, e)
  {
    if !HeaderOk(s) { return None; }
    var programs, sections := TableEnd(Programs(s)), TableEnd(Sections(s));
    if !Inside(programs, |s|) || !Inside(sections, |s|) { return None; }
    var end := Max(64, Max(programs.value, sections.value));
    assert Scanned(s, 0, 0, end);
    hide Le, TableEnd, HeaderOk, Programs, Sections, SegmentEnd, SectionEnd, TablesInside, Bounded, Scanned;
    for i := 0 to Programs(s).count
      invariant Scanned(s, i, 0, end)
    {
      var e := SegmentEnd(s, i);
      SegmentScanned(s, i, end);
      if !Inside(e, |s|) { return None; }
      end := Max(end, e.value);
    }
    for i := 0 to Sections(s).count
      invariant Scanned(s, Programs(s).count, i, end)
    {
      var e := SectionEnd(s, i);
      SectionScanned(s, Programs(s).count, i, end);
      if !Inside(e, |s|) { return None; }
      end := Max(end, e.value);
    }
    ScanDone(s, end);
    r := Some(end);
  }

  lemma SegmentScanned(s: seq<byte>, i: nat, end: nat)
    requires HeaderOk(s) && TablesInside(s, |s|) && i < Programs(s).count && Scanned(s, i, 0, end)
    ensures Inside(SegmentEnd(s, i), |s|) ==> Scanned(s, i + 1, 0, Max(end, SegmentEnd(s, i).value))
    ensures !Inside(SegmentEnd(s, i), |s|) ==> forall e: nat :: !IsExtent(s, e)
  {
    hide Le, TableEnd, HeaderOk, Programs, Sections, SegmentEnd, SectionEnd;
  }

  lemma SectionScanned(s: seq<byte>, m: nat, i: nat, end: nat)
    requires HeaderOk(s) && TablesInside(s, |s|) && m <= Programs(s).count && i < Sections(s).count && Scanned(s, m, i, end)
    ensures Inside(SectionEnd(s, i), |s|) ==> Scanned(s, m, i + 1, Max(end, SectionEnd(s, i).value))
    ensures !Inside(SectionEnd(s, i), |s|) ==> forall e: nat :: !IsExtent(s, e)
  {
    hide Le, TableEnd, HeaderOk, Programs, Sections, SegmentEnd, SectionEnd;
  }

  lemma ScanDone(s: seq<byte>, end: nat)
    requires HeaderOk(s) && TablesInside(s, |s|) && Scanned(s, Programs(s).count, Sections(s).count, end)
    ensures IsExtent(s, end)
  {
    hide Le, TableEnd, HeaderOk, Programs, Sections, SegmentEnd, SectionEnd;
  }

  // ---------------------------------------------------------------------
  // Fat binaries
  // ---------------------------------------------------------------------

  /** An image of `n` bytes starts at `o`. */
  ghost predicate ImageAt(s: seq<byte>, o: nat, n: nat) { o <= |s| && IsExtent(s[o..], n) }

  ghost predicate HasImage(s: seq<byte>, o: nat) { exists n: nat :: ImageAt(s, o, n) }

  /** The image at `o` is the only one, apart from what may lie inside it. */
  ghost predicate Sole(s: seq<byte>, o: nat, n: nat)
  {
    && ImageAt(s, o, n)
    && (forall p: nat :: p < o ==> !HasImage(s, p))
    && (forall p: nat :: o + n <= p ==> !HasImage(s, p))
  }

  /** A first image and, after its end, another. */
  ghost predicate Ambiguous(s: seq<byte>)
  {
    exists o: nat, n: nat, q: nat :: FirstThenAnother(s, o, n, q)
  }

  ghost predicate FirstThenAnother(s: seq<byte>, o: nat, n: nat, q: nat)
  {
    ImageAt(s, o, n) && (forall p: nat :: p < o ==> !HasImage(s, p)) && o + n <= q && HasImage(s, q)
  }

  lemma ImageSize(s: seq<byte>, o: nat, n: nat)
    requires ImageAt(s, o, n)
    ensures 64 <= n && o + n <= |s|
  {
  }

  lemma SoleUnique(s: seq<byte>, o: nat, n: nat, o': nat, n': nat)
    requires Sole(s, o, n) && ImageAt(s, o', n') && forall p: nat :: p < o' ==> !HasImage(s, p)
    ensures o == o' && n == n'
  {
    hide IsExtent;
    assert HasImage(s, o) && HasImage(s, o');
    assert !(o' < o) && !(o < o');
    ExtentUnique(s[o..], n, n');
  }

  lemma AmbiguousNotSole(s: seq<byte>, o: nat, n: nat)
    requires Ambiguous(s)
    ensures !Sole(s, o, n)
  {
    hide ImageAt, HasImage;
    if Sole(s, o, n) {
      var o', n', q: nat :| FirstThenAnother(s, o', n', q);
      SoleUnique(s, o, n, o', n');
    }
  }

  /** How the search stands when it has looked at everything before `off`. */
  ghost predicate Searched(s: seq<byte>, off: nat, count: nat, o: nat, n: nat)
  {
    && (count == 0 ==> forall p: nat :: p < off ==> !HasImage(s, p))
    && (count == 1 ==>
          && ImageAt(s, o, n) && o + n <= off
          && (forall p: nat :: p < o ==> !HasImage(s, p))
          && (forall p: nat :: o + n <= p < off ==> !HasImage(s, p)))
    && (count >= 2 ==> Ambiguous(s))
  }

  lemma SearchMisses(s: seq<byte>, off: nat, count: nat, o: nat, n: nat)
    requires Searched(s, off, count, o, n) && !HasImage(s, off)
    ensures Searched(s, off + 1, count, o, n)
  {
    hide ImageAt, HasImage, Ambiguous;
  }

  lemma SearchHits(s: seq<byte>, off: nat, count: nat, o: nat, n: nat, e: nat)
    requires Searched(s, off, count, o, n) && ImageAt(s, off, e)
    ensures Searched(s, off + e, count + 1, off, e)
  {
    hide ImageAt;
    assert HasImage(s, off);
    hide HasImage;
    if count == 1 {
      assert FirstThenAnother(s, o, n, off);
    }
  }

  lemma NoImageAtEnd(s: seq<byte>, off: nat)
    requires |s| < off + 64
    ensures forall p: nat :: off <= p ==> !HasImage(s, p)
  {
    forall p: nat, n: nat | off <= p ensures !ImageAt(s, p, n) {
      if p <= |s| {
        assert |s[p..]| < 64;
      }
    }
  }

  /** The scan finds an image exactly when there is a sole one. */
  method ExtractOne(s: seq<byte>) returns (r: Option<(nat, nat)>)
    ensures r.Some? ==> Sole(s, r.value.0, r.value.1)
    ensures r.None? ==> forall o: nat, n: nat :: !Sole(s, o, n)
  {
    hide IsExtent, ImageAt, HasImage;
    var off: nat, count: nat, o: nat, n: nat := 0, 0, 0, 0;
    while off + 4 <= |s|
      invariant Searched(s, off, count, o, n)
      decreases |s| - off
    {
      var e := Extent(s[off..]);
      if e.Some? {
        assert ImageAt(s, off, e.value) by { Placed(s, off, e.value); }
        SearchHits(s, off, count, o, n, e.value);
        ImageSize(s, off, e.value);
        o, n, count, off := off, e.value, count + 1, off + e.value;
      } else {
        NotPlaced(s, off);
        SearchMisses(s, off, count, o, n);
        off := off + 1;
      }
    }
    NoImageAtEnd(s, off);
    if count == 1 {
      r := Some((o, n));
    } else {
      r := None;
      NoSole(s, off, count);
    }
  }

  lemma Placed(s: seq<byte>, off: nat, e: nat)
    requires off <= |s| && IsExtent(s[off..], e)
    ensures ImageAt(s, off, e)
  {
  }

  lemma NotPlaced(s: seq<byte>, off: nat)
    requires off <= |s| && forall e: nat :: !IsExtent(s[off..], e)
    ensures !HasImage(s, off)
  {
  }

  lemma NoSole(s: seq<byte>, off: nat, count: nat)
    requires count != 1
    requires count == 0 ==> forall p: nat :: p < off ==> !HasImage(s, p)
    requires forall p: nat :: off <= p ==> !HasImage(s, p)
    requires count >= 2 ==> Ambiguous(s)
    ensures forall o: nat, n: nat :: !Sole(s, o, n)
  {
    hide ImageAt;
    forall o: nat, n: nat ensures !Sole(s, o, n) {
      if count >= 2 {
        AmbiguousNotSole(s, o, n);
      } else {
        assert ImageAt(s, o, n) ==> HasImage(s, o);
      }
    }
  }

  // ---------------------------------------------------------------------
  // Library images
  // ---------------------------------------------------------------------

  function Capped(code: seq<byte>): seq<byte> { if |code| > MAX_BYTES then code[..MAX_BYTES] else code }

  /** The length a fat binary states for itself, header included. */
  function FatLength(code: seq<byte>): (r: Option<nat>)
    ensures r.Some? ==> 24 <= r.value <= |code| && r.value <= MAX_BYTES
  {
    if |code| < 24 || Le(code, 0, 4) != FATBIN_MAGIC || Le(code, 4, 4) != FATBIN_VERSION then None
    else
      var total := RangeEnd(Le(code, 8, 8), 16);
      if total.None? || total.value < 24 || total.value > |code| || total.value > MAX_BYTES then None else total
  }

  ghost predicate StartsWith(code: seq<byte>, e: nat, image: seq<byte>)
  {
    IsExtent(Capped(code), e) && e <= |code| && image == code[..e]
  }

  ghost predicate Contains(code: seq<byte>, o: nat, n: nat, image: seq<byte>)
    requires FatLength(code).Some?
  {
    Sole(code[..FatLength(code).value], o, n) && o + n <= |code| && image == code[o..o + n]
  }

  /** `image` is what `code` holds: the image it starts with, or the sole image of a fat binary. */
  ghost predicate IsLibraryImage(code: seq<byte>, image: seq<byte>)
  {
    if exists e: nat :: IsExtent(Capped(code), e) then exists e: nat :: StartsWith(code, e, image)
    else FatLength(code).Some? && exists o: nat, n: nat :: Contains(code, o, n, image)
  }

  /** The image that was taken is an image of its own, of exactly its length. */
  lemma TakenIsWhole(code: seq<byte>, image: seq<byte>)
    requires IsLibraryImage(code, image)
    ensures IsExtent(image, |image|) && |image| <= MAX_BYTES
  {
    hide IsExtent, FatLength;
    if exists e: nat :: IsExtent(Capped(code), e) {
      var e: nat :| StartsWith(code, e, image);
      ExtentWithin(Capped(code), e);
      assert Capped(code)[..e] == image[..e];
      ExtentLocal(Capped(code), image, e);
    } else {
      var o: nat, m: nat :| Contains(code, o, m, image);
      var fat := code[..FatLength(code).value];
      ImageSize(fat, o, m);
      assert fat[o..][..m] == image[..m];
      ExtentLocal(fat[o..], image, m);
    }
  }

  /** Normalising an image that is already normal returns it unchanged. */
  lemma NormalisingTwice(code: seq<byte>, image: seq<byte>)
    requires IsLibraryImage(code, image)
    ensures IsLibraryImage(image, image)
    ensures forall other :: IsLibraryImage(image, other) ==> other == image
  {
    hide IsExtent, FatLength, Contains;
    TakenIsWhole(code, image);
    var n := |image|;
    assert Capped(image) == image && image[..n] == image;
    assert StartsWith(image, n, image);
    forall other | IsLibraryImage(image, other) ensures other == image {
      var e: nat :| StartsWith(image, e, other);
      ExtentUnique(image, e, n);
    }
  }

  lemma ExtentWithin(s: seq<byte>, e: nat)
    requires IsExtent(s, e)
    ensures e <= |s|
  {
  }

  /** The normaliser. */
  method LibraryImage(code: seq<byte>) returns (r: Option<seq<byte>>)
    ensures r.Some? ==> IsLibraryImage(code, r.value)
    ensures r.None? ==> forall image :: !IsLibraryImage(code, image)
  {
    hide IsExtent, FatLength, Sole;
    var e := Extent(Capped(code));
    if e.Some? {
      ExtentWithin(Capped(code), e.value);
      assert StartsWith(code, e.value, code[..e.value]);
      return Some(code[..e.value]);
    }
    var total := FatLength(code);
    if total.None? { return None; }
    var found := ExtractOne(code[..total.value]);
    if found.None? { return None; }
    var (o, n) := found.value;
    SoleInside(code[..total.value], o, n);
    assert Contains(code, o, n, code[o..o + n]);
    return Some(code[o..o + n]);
  }

  lemma SoleInside(s: seq<byte>, o: nat, n: nat)
    requires Sole(s, o, n)
    ensures o + n <= |s|
  {
    ImageSize(s, o, n);
  }
}
