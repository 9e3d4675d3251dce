/**
 Pitched two- and three-dimensional copies: the client packs the rows of a host
 region into a flat payload, the server hands the driver a descriptor over that
 payload, and device-to-host payloads are scattered row by row at retirement.
 */
module Pitched {
  import opened Arith
  import opened Bytes

  /** A region of `depth` slices of `height` rows of `width` bytes. */
  datatype Shape = Shape(pitch: nat, slice: nat, width: nat, height: nat, depth: nat) {
    /** Rows do not overlap. A single slice never uses the slice pitch. */
    ghost predicate WellFormed() {
      && 0 < width <= pitch && 0 < height && 0 < depth
      && (depth == 1 || Times(height, pitch) <= slice)
    }

    function Rows(): nat { Times(depth, height) }

    function Volume(): nat { Times(Rows(), width) }

    /** Offset of byte (z, y, x) from the first byte of the region. */
    function At(z: nat, y: nat, x: nat): nat { Times(z, slice) + Times(y, pitch) + x }

    /** Rows are numbered slice by slice. */
    function Row(z: nat, y: nat): nat { Times(z, height) + y }

    /** Position of byte (z, y, x) in the packed form. */
    function Packed(z: nat, y: nat, x: nat): nat { Times(Row(z, y), width) + x }

    ghost predicate Has(z: nat, y: nat, x: nat) { z < depth && y < height && x < width }

    /** Address `a` holds one of the bytes of the region placed at `at`. */
    ghost predicate Covers(at: nat, a: nat) {
      exists z: nat, y: nat, x: nat :: Has(z, y, x) && a == at + At(z, y, x)
    }

    /** Every byte of the region, placed at `at`, lies below `size`. */
    ghost predicate Fits(at: nat, size: nat) {
      forall z: nat, y: nat, x: nat :: Has(z, y, x) ==> at + At(z, y, x) < size
    }
  }

  /** A row that comes first in (z, y) order ends before the next one starts. */
  lemma AtOrdered(s: Shape, z: nat, y: nat, z': nat, y': nat)
    requires s.WellFormed() && s.Has(z, y, 0) && s.Has(z', y', 0)
    requires z < z' || (z == z' && y < y')
    ensures s.At(z, y, 0) + s.width <= s.At(z', y', 0)
  {
    if z == z' {
      TimesStep(y, y', s.pitch);
    } else {
      TimesStep(y, s.height, s.pitch);
      TimesStep(z, z', s.slice);
    }
  }

  /** Bytes of different rows never meet, so (z, y, x) to offset is injective. */
  lemma AtInjective(s: Shape, z: nat, y: nat, x: nat, z': nat, y': nat, x': nat)
    requires s.WellFormed() && s.Has(z, y, x) && s.Has(z', y', x')
    requires s.At(z, y, x) == s.At(z', y', x')
    ensures z == z' && y == y' && x == x'
  {
    if z < z' || (z == z' && y < y') {
      AtOrdered(s, z, y, z', y');
    } else if z' < z || (z == z' && y' < y) {
      AtOrdered(s, z', y', z, y);
    }
  }

  /** Rows are numbered in (z, y) order. */
  lemma RowOrder(s: Shape, z: nat, y: nat, z': nat, y': nat)
    requires y < s.height && y' < s.height
    requires s.Row(z, y) <= s.Row(z', y') && !(z == z' && y == y')
    ensures z < z' || (z == z' && y < y')
  {
    if z' < z { TimesStep(z', z, s.height); }
  }

  /** The packed row of (z, y) is inside the packed form. */
  lemma PackedInside(s: Shape, z: nat, y: nat)
    requires z < s.depth && y < s.height
    ensures s.Row(z, y) < s.Rows()
    ensures s.Packed(z, y, 0) + s.width <= s.Volume()
  {
    TimesStep(z, s.depth, s.height);
    TimesStep(s.Row(z, y), s.Rows(), s.width);
  }

  /** Every row number is the row of one (z, y). */
  lemma RowParts(s: Shape, row: nat)
    requires s.height > 0 && row < s.Rows()
    ensures row / s.height < s.depth && row % s.height < s.height
    ensures s.Row(row / s.height, row % s.height) == row
  {
    DivRem(row, s.height);
    if s.depth <= row / s.height { TimesMono(s.depth, row / s.height, s.height); }
  }

  /** Every packed position is one byte of the region. */
  lemma Unpack(s: Shape, i: nat) returns (z: nat, y: nat, x: nat)
    requires s.width > 0 && s.height > 0 && i < s.Volume()
    ensures s.Has(z, y, x) && i == s.Packed(z, y, x)
  {
    DivRem(i, s.width);
    var row := i / s.width;
    if s.Rows() <= row { TimesMono(s.Rows(), row, s.width); }
    RowParts(s, row);
    z, y, x := row / s.height, row % s.height, i % s.width;
  }

  // ---------------------------------------------------------------------
  // Specification: the direct nested copy, byte by byte
  // ---------------------------------------------------------------------

  /** `after` is `before` with the region at `dstAt` holding the source region's bytes. */
  ghost predicate NestedCopy(before: seq<byte>, after: seq<byte>, dstAt: nat, d: Shape,
                             src: seq<byte>, srcAt: nat, s: Shape)
    requires d.width == s.width && d.height == s.height && d.depth == s.depth
    requires d.Fits(dstAt, |before|) && s.Fits(srcAt, |src|)
  {
    && |after| == |before|
    && (forall z: nat, y: nat, x: nat ::
          d.Has(z, y, x) && s.Has(z, y, x) ==> after[dstAt + d.At(z, y, x)] == src[srcAt + s.At(z, y, x)])
    && (forall a :: 0 <= a < |before| && !d.Covers(dstAt, a) ==> after[a] == before[a])
  }

  /** The direct nested copy determines the result. */
  lemma NestedCopyUnique(before: seq<byte>, a1: seq<byte>, a2: seq<byte>, dstAt: nat, d: Shape,
                         src: seq<byte>, srcAt: nat, s: Shape)
    requires d.width == s.width && d.height == s.height && d.depth == s.depth
    requires d.Fits(dstAt, |before|) && s.Fits(srcAt, |src|)
    requires NestedCopy(before, a1, dstAt, d, src, srcAt, s)
    requires NestedCopy(before, a2, dstAt, d, src, srcAt, s)
    ensures a1 == a2
  {
    forall a | 0 <= a < |before|
      ensures a1[a] == a2[a]
    {
      if d.Covers(dstAt, a) {
        var z: nat, y: nat, x: nat :| d.Has(z, y, x) && a == dstAt + d.At(z, y, x);
        assert s.Has(z, y, x);
      }
    }
  }

  /** The first `n` rows of the region are in place in `flat`. */
  ghost predicate PackedUpTo(flat: seq<byte>, src: seq<byte>, srcAt: nat, s: Shape, n: nat)
    requires s.Fits(srcAt, |src|)
  {
    && |flat| == s.Volume()
    && forall z: nat, y: nat, x: nat ::
         s.Has(z, y, x) && s.Row(z, y) < n ==>
         s.Packed(z, y, x) < |flat| && flat[s.Packed(z, y, x)] == src[srcAt + s.At(z, y, x)]
  }

  /** Reading the region into packed order. */
  ghost predicate IsPack(flat: seq<byte>, src: seq<byte>, srcAt: nat, s: Shape)
    requires s.Fits(srcAt, |src|)
  {
    PackedUpTo(flat, src, srcAt, s, s.Rows())
  }

  /** Packing is a function: two packed forms of the same region are equal. */
  lemma PackUnique(f: seq<byte>, g: seq<byte>, src: seq<byte>, srcAt: nat, s: Shape)
    requires s.Fits(srcAt, |src|) && s.width > 0 && s.height > 0
    requires IsPack(f, src, srcAt, s) && IsPack(g, src, srcAt, s)
    ensures f == g
  {
    forall i | 0 <= i < |f|
      ensures f[i] == g[i]
    {
      var z, y, x := Unpack(s, i);
      PackedInside(s, z, y);
    }
  }

  // ---------------------------------------------------------------------
  // The client's row loops
  // ---------------------------------------------------------------------

  /** Memory with `data` written at `at`, as far as it is inside. */
  function Overwrite(mem: seq<byte>, at: nat, data: seq<byte>): (r: seq<byte>)
    ensures |r| == |mem|
  {
    seq(|mem|, a requires 0 <= a < |mem| => if at <= a < at + |data| then data[a - at] else mem[a])
  }

  /** Row (z, y) has a source in the payload and a place in memory. */
  lemma RowFits(size: nat, at: nat, s: Shape, z: nat, y: nat)
    requires s.Fits(at, size) && z < s.depth && y < s.height
    ensures s.Packed(z, y, 0) + s.width <= s.Volume()
    ensures s.width > 0 ==> at + s.At(z, y, 0) + s.width <= size
  {
    PackedInside(s, z, y);
    assert s.width > 0 ==> s.Has(z, y, s.width - 1);
  }

  /** Offset of a row, by its number. */
  function RowAt(s: Shape, row: nat): nat { if s.height == 0 then 0 else s.At(row / s.height, row % s.height, 0) }

  /** A row of the packed payload. */
  function PackedRow(s: Shape, flat: seq<byte>, row: nat): (r: seq<byte>)
    requires |flat| == s.Volume() && row < s.Rows()
    ensures |r| == s.width
  {
    TimesStep(row, s.Rows(), s.width);
    flat[Times(row, s.width)..Times(row, s.width) + s.width]
  }

  /** Memory once the first `n` rows have been written, one after the other. */
  ghost function RowsWritten(mem: seq<byte>, at: nat, s: Shape, flat: seq<byte>, n: nat): (r: seq<byte>)
    requires |flat| == s.Volume() && n <= s.Rows()
    ensures |r| == |mem|
  {
    if n == 0 then mem
    else Overwrite(RowsWritten(mem, at, s, flat, n - 1), at + RowAt(s, n - 1), PackedRow(s, flat, n - 1))
  }

  /** Memory once the whole packed payload has been written to its region. */
  ghost function Scatter(mem: seq<byte>, at: nat, s: Shape, flat: seq<byte>): (r: seq<byte>)
    requires |flat| == s.Volume()
    ensures |r| == |mem|
  {
    RowsWritten(mem, at, s, flat, s.Rows())
  }

  predicate RowCovers(s: Shape, at: nat, row: nat, a: nat) { at + RowAt(s, row) <= a < at + RowAt(s, row) + s.width }

  /** Where rows overlap the last one wins. */
  lemma {:induction false} LastRowWins(mem: seq<byte>, at: nat, s: Shape, flat: seq<byte>, n: nat, row: nat, a: nat)
    requires |flat| == s.Volume() && row < n <= s.Rows() && a < |mem| && RowCovers(s, at, row, a)
    requires forall r :: row < r < n ==> !RowCovers(s, at, r, a)
    ensures RowsWritten(mem, at, s, flat, n)[a] == PackedRow(s, flat, row)[a - at - RowAt(s, row)]
  {
    hide RowAt, PackedRow;
    if row < n - 1 {
      assert !RowCovers(s, at, n - 1, a);
      LastRowWins(mem, at, s, flat, n - 1, row, a);
    }
  }

  lemma {:induction false} NoRowTouches(mem: seq<byte>, at: nat, s: Shape, flat: seq<byte>, n: nat, a: nat)
    requires |flat| == s.Volume() && n <= s.Rows() && a < |mem|
    requires forall r :: 0 <= r < n ==> !RowCovers(s, at, r, a)
    ensures RowsWritten(mem, at, s, flat, n)[a] == mem[a]
  {
    hide RowAt, PackedRow;
    if n > 0 {
      assert !RowCovers(s, at, n - 1, a);
      NoRowTouches(mem, at, s, flat, n - 1, a);
    }
  }

  /** Rows and coordinates describe the same bytes. */
  lemma RowOfByte(s: Shape, z: nat, y: nat)
    requires z < s.depth && y < s.height
    ensures s.Row(z, y) < s.Rows() && RowAt(s, s.Row(z, y)) == s.At(z, y, 0)
  {
    PackedInside(s, z, y);
    DivRemUnique(z, y, s.height);
  }

  lemma CoveredByRow(s: Shape, at: nat, row: nat, a: nat)
    requires row < s.Rows() && RowCovers(s, at, row, a)
    ensures s.Covers(at, a)
  {
    if s.height == 0 { NoRows(s.depth); }
    RowParts(s, row);
    assert s.Has(row / s.height, row % s.height, a - at - RowAt(s, row));
  }

  lemma {:induction false} NoRows(n: nat)
    ensures Times(n, 0) == 0
  {
    if n > 0 { NoRows(n - 1); }
  }

  /** Nothing outside the region is touched, whatever the pitches. */
  lemma ScatterOutside(mem: seq<byte>, at: nat, s: Shape, flat: seq<byte>, a: nat)
    requires |flat| == s.Volume() && a < |mem| && !s.Covers(at, a)
    ensures Scatter(mem, at, s, flat)[a] == mem[a]
  {
    hide RowAt, RowCovers, RowsWritten;
    forall r: nat | r < s.Rows() ensures !RowCovers(s, at, r, a) {
      if RowCovers(s, at, r, a) { CoveredByRow(s, at, r, a); }
    }
    NoRowTouches(mem, at, s, flat, s.Rows(), a);
  }

  /** `now` is memory with every packed byte in its place and nothing else touched. */
  ghost predicate Scattered(now: seq<byte>, mem: seq<byte>, at: nat, s: Shape, flat: seq<byte>)
    requires s.Fits(at, |mem|)
  {
    && |now| == |mem|
    && (forall z: nat, y: nat, x: nat ::
          s.Has(z, y, x) ==> s.Packed(z, y, x) < |flat| && now[at + s.At(z, y, x)] == flat[s.Packed(z, y, x)])
    && (forall a :: 0 <= a < |mem| && !s.Covers(at, a) ==> now[a] == mem[a])
  }

  /** No row reaches into a later one. */
  ghost predicate Apart(s: Shape)
  {
    forall z: nat, y: nat, x: nat, r: nat ::
      s.Has(z, y, x) && s.Row(z, y) < r < s.Rows() ==> !RowCovers(s, 0, r, s.At(z, y, x))
  }

  lemma WellFormedApart(s: Shape)
    requires s.WellFormed()
    ensures Apart(s)
  {
    forall z: nat, y: nat, x: nat, r: nat | s.Has(z, y, x) && s.Row(z, y) < r < s.Rows()
      ensures !RowCovers(s, 0, r, s.At(z, y, x))
    {
      RowParts(s, r);
      RowOrder(s, z, y, r / s.height, r % s.height);
      AtOrdered(s, z, y, r / s.height, r % s.height);
    }
  }

  lemma ScatterPlace(mem: seq<byte>, at: nat, s: Shape, flat: seq<byte>, z: nat, y: nat, x: nat)
    requires Apart(s) && s.Fits(at, |mem|) && |flat| == s.Volume() && s.Has(z, y, x)
    ensures s.Packed(z, y, x) < |flat| && at + s.At(z, y, x) < |mem|
    ensures Scatter(mem, at, s, flat)[at + s.At(z, y, x)] == flat[s.Packed(z, y, x)]
  {
    var a, row := at + s.At(z, y, x), s.Row(z, y);
    PackedInside(s, z, y);
    RowOfByte(s, z, y);
    forall r | row < r < s.Rows() ensures !RowCovers(s, at, r, a) {
      assert !RowCovers(s, 0, r, s.At(z, y, x));
    }
    LastRowWins(mem, at, s, flat, s.Rows(), row, a);
    hide RowsWritten, RowAt;
  }

  /** Where rows do not overlap, scattering puts every packed byte in its place and touches nothing else. */
  lemma ScatterMeaning(mem: seq<byte>, at: nat, s: Shape, flat: seq<byte>)
    requires Apart(s) && s.Fits(at, |mem|) && |flat| == s.Volume()
    ensures Scattered(Scatter(mem, at, s, flat), mem, at, s, flat)
  {
    hide Scatter, Apart;
    forall z: nat, y: nat, x: nat | s.Has(z, y, x)
      ensures s.Packed(z, y, x) < |flat|
      ensures Scatter(mem, at, s, flat)[at + s.At(z, y, x)] == flat[s.Packed(z, y, x)]
    {
      ScatterPlace(mem, at, s, flat, z, y, x);
    }
    forall a | 0 <= a < |mem| && !s.Covers(at, a) ensures Scatter(mem, at, s, flat)[a] == mem[a] {
      ScatterOutside(mem, at, s, flat, a);
    }
  }

  /** The payload that tells bytes `i` and the others apart. */
  function Marked(n: nat, i: nat): (r: seq<byte>)
    ensures |r| == n
  {
    seq(n, k => if k == i then 1 else 0)
  }

  /**
   The exact pitch condition for a two-dimensional destination: every payload arrives
   whole if and only if there is one row or the rows do not overlap.
   */
  lemma ArrivesWholeExactly(mem: seq<byte>, at: nat, s: Shape)
    requires s.depth == 1 && s.width > 0 && s.height > 0 && s.Fits(at, |mem|)
    ensures (forall flat: seq<byte> :: |flat| == s.Volume() ==> Scattered(Scatter(mem, at, s, flat), mem, at, s, flat)) <==>
            s.height == 1 || s.width <= s.pitch
  {
    if s.height == 1 || s.width <= s.pitch {
      if s.height > 1 { WellFormedApart(s); }
      assert Apart(s);
      hide Apart, Scatter, Scattered;
      forall flat: seq<byte> | |flat| == s.Volume()
        ensures Scattered(Scatter(mem, at, s, flat), mem, at, s, flat)
      {
        ScatterMeaning(mem, at, s, flat);
      }
    } else {
      var flat := Marked(s.Volume(), s.pitch);
      OverlapLoses(mem, at, s, Scatter(mem, at, s, flat), flat);
    }
  }

  lemma TwoRows(s: Shape)
    requires s.depth == 1 && s.height == 2
    ensures s.Rows() == 2 && s.Volume() == 2 * s.width
    ensures RowAt(s, 0) == 0 && RowAt(s, 1) == s.pitch
  {
    hide Times;
    TimesIsProduct(s.depth, s.height);
    TimesIsProduct(s.Rows(), s.width);
    TimesIsProduct(0, s.slice);
    TimesIsProduct(0, s.pitch);
    TimesIsProduct(1, s.pitch);
  }

  lemma TwoRowParts(size: nat, at: nat, s: Shape, flat: seq<byte>)
    requires s.depth == 1 && s.height == 2 && s.width > 0 && |flat| == s.Volume() == 2 * s.width && s.Rows() == 2 && s.Fits(at, size)
    ensures PackedRow(s, flat, 0) == flat[..s.width] && PackedRow(s, flat, 1) == flat[s.width..]
    ensures at + s.pitch + s.width <= size
  {
    hide Times;
    TimesIsProduct(0, s.width);
    TimesIsProduct(1, s.width);
    assert s.Has(0, 1, s.width - 1);
    TimesIsProduct(0, s.slice);
    TimesIsProduct(1, s.pitch);
  }

  /** Of two overlapping rows the first keeps only the bytes before the pitch. */
  lemma OverlappingRows(mem: seq<byte>, at: nat, s: Shape, flat: seq<byte>, x: nat)
    requires s.depth == 1 && s.height == 2 && s.pitch < s.width && |flat| == 2 * s.width && s.Fits(at, |mem|)
    requires x < s.pitch + s.width
    ensures |flat| == s.Volume() && at + x < |mem|
    ensures Scatter(mem, at, s, flat)[at + x] == if x < s.pitch then flat[x] else flat[s.width + x - s.pitch]
  {
    hide Times, RowAt, Shape.Rows, Shape.Volume, RowsWritten, PackedRow, Shape.Fits;
    TwoRows(s);
    TwoRowParts(|mem|, at, s, flat);
    if x < s.pitch {
      LastRowWins(mem, at, s, flat, 2, 0, at + x);
    } else {
      LastRowWins(mem, at, s, flat, 2, 1, at + x);
    }
  }

  /** Two rows of two bytes, one byte apart: the last byte of the first row is lost. */
  lemma OverlapExample(a: byte, b: byte, c: byte, d: byte)
    ensures Shape(1, 0, 2, 2, 1).Volume() == 4
    ensures Scatter([0, 0, 0], 0, Shape(1, 0, 2, 2, 1), [a, b, c, d]) == [a, c, d]
  {
    var s: Shape, mem: seq<byte>, flat := Shape(1, 0, 2, 2, 1), [0, 0, 0], [a, b, c, d];
    OverlapIs(mem, s, flat);
    hide Scatter, Shape.Volume;
  }

  lemma OverlapIs(mem: seq<byte>, s: Shape, flat: seq<byte>)
    requires |mem| == 3 && |flat| == 4 && s.pitch == 1 && s.width == 2 && s.height == 2 && s.depth == 1
    ensures s.Volume() == 4 && Scatter(mem, 0, s, flat) == [flat[0], flat[2], flat[3]]
  {
    hide Times, Scatter, Shape.Volume;
    assert s.Fits(0, 3) by {
      forall z: nat, y: nat, x: nat | s.Has(z, y, x) ensures 0 + s.At(z, y, x) < 3 {
        TimesIsProduct(z, s.slice);
        TimesIsProduct(y, s.pitch);
      }
    }
    OverlappingRows(mem, 0, s, flat, 0);
    OverlappingRows(mem, 0, s, flat, 1);
    OverlappingRows(mem, 0, s, flat, 2);
  }

  /** Byte `pitch` of the first row and byte 0 of the second share an address. */
  lemma OverlapLoses(mem: seq<byte>, at: nat, s: Shape, now: seq<byte>, flat: seq<byte>)
    requires s.depth == 1 && s.pitch < s.width && s.height > 1 && s.Fits(at, |mem|)
    requires |flat| == s.Volume() && flat == Marked(s.Volume(), s.pitch)
    ensures !Scattered(now, mem, at, s, flat)
  {
    assert s.Has(0, 0, s.pitch) && s.Has(0, 1, 0);
    assert s.At(0, 0, s.pitch) == s.At(0, 1, 0);
    assert s.Packed(0, 0, s.pitch) == s.pitch && s.Packed(0, 1, 0) == s.width;
    PackedInside(s, 0, 0);
    PackedInside(s, 0, 1);
    assert flat[s.Packed(0, 0, s.pitch)] != flat[s.Packed(0, 1, 0)];
  }

  lemma NothingWritten(mem: seq<byte>, at: nat, s: Shape, flat: seq<byte>)
    requires |flat| == s.Volume()
    ensures RowsWritten(mem, at, s, flat, 0) == mem
  {}

  /** One row of the loops below: memcpy of packed row (z, y) to its place. */
  method ScatterRowInto(mem: array<byte>, at: nat, s: Shape, flat: seq<byte>, z: nat, y: nat, ghost was: seq<byte>)
    requires mem.Length == |was| && s.Fits(at, |was|) && |flat| == s.Volume()
    requires z < s.depth && y < s.height && s.Row(z, y) < s.Rows()
    requires mem[..] == RowsWritten(was, at, s, flat, s.Row(z, y))
    modifies mem
    ensures mem[..] == RowsWritten(was, at, s, flat, s.Row(z, y) + 1)
  {
    RowFits(mem.Length, at, s, z, y);
    RowOfByte(s, z, y);
    var to, from := at + s.At(z, y, 0), s.Packed(z, y, 0);
    ghost var prior := mem[..];
    forall x | 0 <= x < s.width {
      mem[to + x] := flat[from + x];
    }
    assert mem[..] == Overwrite(prior, to, PackedRow(s, flat, s.Row(z, y)));
  }

  /** The retirement loops over slices and rows leave exactly the scattered memory, overlapping rows included. */
  method ScatterInto(mem: array<byte>, at: nat, s: Shape, flat: seq<byte>)
    requires s.Fits(at, mem.Length) && |flat| == s.Volume()
    modifies mem
    ensures mem[..] == Scatter(old(mem[..]), at, s, flat)
  {
    hide RowsWritten, Shape.Fits;
    ghost var was := mem[..];
    NothingWritten(was, at, s, flat);
    for z := 0 to s.depth
      invariant Times(z, s.height) <= s.Rows()
      invariant mem[..] == RowsWritten(was, at, s, flat, Times(z, s.height))
    {
      TimesMono(z + 1, s.depth, s.height);
      for y := 0 to s.height
        invariant s.Row(z, y) <= s.Rows()
        invariant mem[..] == RowsWritten(was, at, s, flat, s.Row(z, y))
      {
        PackedInside(s, z, y);
        ScatterRowInto(mem, at, s, flat, z, y, was);
      }
    }
  }

  lemma PackOneRow(prior: seq<byte>, now: seq<byte>, mem: seq<byte>, at: nat, s: Shape, z: nat, y: nat)
    requires s.Fits(at, |mem|) && z < s.depth && y < s.height
    requires PackedUpTo(prior, mem, at, s, s.Row(z, y))
    requires s.Packed(z, y, 0) + s.width <= |prior| && at + s.At(z, y, 0) + s.width <= |mem| && s.width > 0
    requires now == Overwrite(prior, s.Packed(z, y, 0), mem[at + s.At(z, y, 0)..at + s.At(z, y, 0) + s.width])
    ensures PackedUpTo(now, mem, at, s, s.Row(z, y) + 1)
  {
    forall z': nat, y': nat, x: nat | s.Has(z', y', x) && s.Row(z', y') < s.Row(z, y) + 1
      ensures s.Packed(z', y', x) < |now| && now[s.Packed(z', y', x)] == mem[at + s.At(z', y', x)]
    {
      PackedInside(s, z', y');
      if s.Row(z', y') < s.Row(z, y) {
        TimesStep(s.Row(z', y'), s.Row(z, y), s.width);
      } else if !(z' == z && y' == y) {
        RowOrder(s, z', y', z, y);
        RowOrder(s, z, y, z', y');
      }
    }
  }

  method PackRowFrom(mem: seq<byte>, at: nat, s: Shape, flat: array<byte>, z: nat, y: nat)
    requires s.Fits(at, |mem|) && z < s.depth && y < s.height
    requires PackedUpTo(flat[..], mem, at, s, s.Row(z, y))
    modifies flat
    ensures PackedUpTo(flat[..], mem, at, s, s.Row(z, y) + 1)
  {
    RowFits(|mem|, at, s, z, y);
    var to, from := s.Packed(z, y, 0), at + s.At(z, y, 0);
    ghost var prior := flat[..];
    forall x | 0 <= x < s.width {
      flat[to + x] := mem[from + x];
    }
    if s.width > 0 {
      assert flat[..] == Overwrite(prior, to, mem[from..from + s.width]);
      PackOneRow(prior, flat[..], mem, at, s, z, y);
    }
  }

  /** The client's packing loops: row (z, y) goes to packed row z * height + y. */
  method PackFrom(mem: seq<byte>, at: nat, s: Shape) returns (flat: array<byte>)
    requires s.Fits(at, |mem|)
    ensures fresh(flat)
    ensures IsPack(flat[..], mem, at, s)
  {
    flat := new byte[s.Volume()];
    for z := 0 to s.depth
      invariant PackedUpTo(flat[..], mem, at, s, Times(z, s.height))
    {
      for y := 0 to s.height
        invariant PackedUpTo(flat[..], mem, at, s, s.Row(z, y))
      {
        PackRowFrom(mem, at, s, flat, z, y);
      }
    }
  }

  // ---------------------------------------------------------------------
  // The server's descriptor
  // ---------------------------------------------------------------------

  /** One side of the driver's three-dimensional copy: rows are addressed through a row height. */
  datatype Side = Side(base: nat, pitch: nat, rowHeight: nat) {
    function At(z: nat, y: nat, x: nat): nat { base + Times(Times(z, rowHeight) + y, pitch) + x }

    ghost predicate Hits(a: int, w: nat, h: nat, d: nat) {
      exists z: nat, y: nat, x: nat :: z < d && y < h && x < w && At(z, y, x) == a
    }
  }

  /** What the driver does for a descriptor of extent (w, h, d): its documented effect. */
  ghost predicate DriverCopy(before: seq<byte>, after: seq<byte>, dst: Side, src: seq<byte>, from: Side,
                             w: nat, h: nat, d: nat)
  {
    && |after| == |before|
    && (forall z: nat, y: nat, x: nat {:trigger dst.At(z, y, x)} ::
          z < d && y < h && x < w ==>
          && dst.At(z, y, x) < |after| && from.At(z, y, x) < |src|
          && after[dst.At(z, y, x)] == src[from.At(z, y, x)])
    && (forall a :: 0 <= a < |before| && !dst.Hits(a, w, h, d) ==> after[a] == before[a])
  }

  /** The server describes a device region of slice pitch `slice` by the row height slice / pitch. */
  function DeviceSide(base: nat, s: Shape): Side
    requires s.pitch > 0
  {
    Side(base, s.pitch, s.slice / s.pitch)
  }

  /** The packed payload is described by its width and height. */
  function PackedSide(s: Shape): Side { Side(0, s.width, s.height) }

  /** Describing a slice pitch by its row height loses nothing when the pitch divides it. */
  lemma DeviceSideAt(base: nat, s: Shape, z: nat, y: nat, x: nat)
    requires s.pitch > 0 && s.slice % s.pitch == 0
    ensures DeviceSide(base, s).At(z, y, x) == base + s.At(z, y, x)
  {
    var k := s.slice / s.pitch;
    DivRem(s.slice, s.pitch);
    TimesAdd(Times(z, k), y, s.pitch);
    TimesAssoc(z, k, s.pitch);
  }

  /** Host to device: pack, send, and let the driver copy is the direct nested copy. */
  lemma HostToDevice(host: seq<byte>, hostAt: nat, hs: Shape, flat: seq<byte>,
                     dev: seq<byte>, dev': seq<byte>, devAt: nat, ds: Shape)
    requires hs.width == ds.width && hs.height == ds.height && hs.depth == ds.depth
    requires ds.pitch > 0 && ds.slice % ds.pitch == 0
    requires hs.Fits(hostAt, |host|) && ds.Fits(devAt, |dev|)
    requires IsPack(flat, host, hostAt, hs)
    requires DriverCopy(dev, dev', DeviceSide(devAt, ds), flat, PackedSide(ds), ds.width, ds.height, ds.depth)
    ensures NestedCopy(dev, dev', devAt, ds, host, hostAt, hs)
  {
    var to, from := DeviceSide(devAt, ds), PackedSide(ds);
    forall z: nat, y: nat, x: nat | ds.Has(z, y, x) && hs.Has(z, y, x)
      ensures dev'[devAt + ds.At(z, y, x)] == host[hostAt + hs.At(z, y, x)]
    {
      DeviceSideAt(devAt, ds, z, y, x);
      PackedInside(hs, z, y);
      assert dev'[to.At(z, y, x)] == flat[from.At(z, y, x)];
      assert from.At(z, y, x) == hs.Packed(z, y, x);
    }
    forall a | 0 <= a < |dev| && !ds.Covers(devAt, a)
      ensures dev'[a] == dev[a]
    {
      if to.Hits(a, ds.width, ds.height, ds.depth) {
        var z: nat, y: nat, x: nat :| z < ds.depth && y < ds.height && x < ds.width && to.At(z, y, x) == a;
        DeviceSideAt(devAt, ds, z, y, x);
        assert ds.Has(z, y, x);
        assert false;
      }
    }
  }

  /** Device to host: the driver packs, and scattering the packed bytes is the direct nested copy. */
  lemma ScatteredIsNested(dev: seq<byte>, devAt: nat, ds: Shape, blank: seq<byte>, flat: seq<byte>,
                          host: seq<byte>, after: seq<byte>, hostAt: nat, hs: Shape)
    requires hs.width == ds.width && hs.height == ds.height && hs.depth == ds.depth
    requires ds.pitch > 0 && ds.slice % ds.pitch == 0
    requires ds.Fits(devAt, |dev|) && hs.Fits(hostAt, |host|)
    requires DriverCopy(blank, flat, PackedSide(ds), dev, DeviceSide(devAt, ds), ds.width, ds.height, ds.depth)
    requires Scattered(after, host, hostAt, hs, flat)
    ensures NestedCopy(host, after, hostAt, hs, dev, devAt, ds)
  {
    forall z: nat, y: nat, x: nat | hs.Has(z, y, x) && ds.Has(z, y, x)
      ensures after[hostAt + hs.At(z, y, x)] == dev[devAt + ds.At(z, y, x)]
    {
      PackedInside(hs, z, y);
      DeviceSideAt(devAt, ds, z, y, x);
      assert flat[PackedSide(ds).At(z, y, x)] == dev[DeviceSide(devAt, ds).At(z, y, x)];
      assert PackedSide(ds).At(z, y, x) == hs.Packed(z, y, x);
    }
  }

  /** The device-to-host path end to end, through the client's retirement loops. */
  lemma DeviceToHost(dev: seq<byte>, devAt: nat, ds: Shape, blank: seq<byte>, flat: seq<byte>,
                     host: seq<byte>, hostAt: nat, hs: Shape)
    requires hs.width == ds.width && hs.height == ds.height && hs.depth == ds.depth
    requires ds.pitch > 0 && ds.slice % ds.pitch == 0
    requires hs.WellFormed() && ds.Fits(devAt, |dev|) && hs.Fits(hostAt, |host|)
    requires |blank| == ds.Volume()
    requires DriverCopy(blank, flat, PackedSide(ds), dev, DeviceSide(devAt, ds), ds.width, ds.height, ds.depth)
    ensures |flat| == hs.Volume()
    ensures NestedCopy(host, Scatter(host, hostAt, hs, flat), hostAt, hs, dev, devAt, ds)
  {
    assert |flat| == hs.Volume();
    WellFormedApart(hs);
    ScatterMeaning(host, hostAt, hs, flat);
    ScatteredIsNested(dev, devAt, ds, blank, flat, host, Scatter(host, hostAt, hs, flat), hostAt, hs);
  }

  /** Copying a host region to the device and back restores exactly the host memory it was taken from. */
  lemma ThereAndBack(host: seq<byte>, hostAt: nat, hs: Shape, dev: seq<byte>, dev': seq<byte>, devAt: nat, ds: Shape,
                     spoilt: seq<byte>, back: seq<byte>)
    requires hs.width == ds.width && hs.height == ds.height && hs.depth == ds.depth
    requires hs.Fits(hostAt, |host|) && ds.Fits(devAt, |dev|) && |spoilt| == |host|
    requires NestedCopy(dev, dev', devAt, ds, host, hostAt, hs)
    requires forall a :: 0 <= a < |host| && !hs.Covers(hostAt, a) ==> spoilt[a] == host[a]
    requires NestedCopy(spoilt, back, hostAt, hs, dev', devAt, ds)
    ensures back == host
  {
    forall z: nat, y: nat, x: nat | hs.Has(z, y, x)
      ensures back[hostAt + hs.At(z, y, x)] == host[hostAt + hs.At(z, y, x)]
    {
      assert ds.Has(z, y, x);
    }
    NestedCopyUnique(spoilt, back, host, hostAt, hs, host, hostAt, hs);
  }
}
