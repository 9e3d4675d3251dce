/**
 The bounds checks on pitched regions, in the machine's own 64-bit arithmetic:
 the client's two- and three-dimensional checks and the server's check of the
 descriptor it is sent.
 */
module Regions {
  import opened Arith
  import opened Bytes
  import opened Pitched

  function Sub64(a: u64, b: u64): u64 { (a - b) % TWO64 }

  // ---------------------------------------------------------------------
  // The checks, operation by operation
  // ---------------------------------------------------------------------

  /** Client: does a two-dimensional region starting at `offset` stay inside the allocation? */
  predicate Checked2dExtent(offset: u64, pitch: u64, width: u64, height: u64, size: u64)
  {
    if height == 0 || width == 0 || pitch == 0 || width > pitch || offset > size then false
    else if height - 1 > Sub64(size, offset) / pitch then false
    else
      var row := Add64(offset, Mul64(height - 1, pitch));
      width <= Sub64(size, row)
  }

  datatype Position = Position(x: u64, y: u64, z: u64)
  datatype Extent = Extent(width: u64, height: u64, depth: u64)
  datatype Accepted = Rejected | At(offset: u64)

  /** The position is folded into the offset one guarded step at a time: slices, rows, bytes. */
  function FoldPosition(base: u64, pos: Position, pitch: u64, slice: u64, limit: u64): Accepted
    requires pitch > 0 && slice > 0
  {
    if pos.z > Sub64(limit, base) / slice then Rejected
    else
      var o1 := Add64(base, Mul64(pos.z, slice));
      if pos.y > Sub64(limit, o1) / pitch then Rejected
      else
        var o2 := Add64(o1, Mul64(pos.y, pitch));
        if pos.x > Sub64(limit, o2) then Rejected else At(Add64(o2, pos.x))
  }

  /** The last slice of the region is checked as a two-dimensional region. */
  predicate CheckedLastSlice(offset: u64, pitch: u64, slice: u64, extent: Extent, limit: u64)
    requires slice > 0 && extent.depth > 0
  {
    if extent.depth - 1 > Sub64(limit, offset) / slice then false
    else
      Checked2dExtent(Add64(offset, Mul64(extent.depth - 1, slice)), pitch, extent.width, extent.height, limit)
  }

  /** Client: byte offset of a three-dimensional region, if it stays inside the limit. */
  function Checked3dRegion(base: u64, pos: Position, pitch: u64, slice: u64, extent: Extent, limit: u64): Accepted
  {
    if extent.width == 0 || extent.height == 0 || extent.depth == 0 || pitch == 0 || slice == 0 || slice % pitch != 0
    then Rejected
    else
      var rows := slice / pitch;
      if pos.x > pitch || extent.width > Sub64(pitch, pos.x) || pos.y > rows || extent.height > Sub64(rows, pos.y) ||
         base > limit
      then Rejected
      else
        var folded := FoldPosition(base, pos, pitch, slice, limit);
        if folded.At? && CheckedLastSlice(folded.offset, pitch, slice, extent, limit) then folded else Rejected
  }

  /** Server: does the described region stay inside the allocation? The caller has ruled out empty extents. */
  predicate Valid3dAllocation(size: u64, offset: u64, pitch: u64, slice: u64, extent: Extent)
    requires extent.width > 0 && extent.height > 0 && extent.depth > 0
  {
    if pitch == 0 || slice == 0 || slice % pitch != 0 || extent.width > pitch || extent.height > slice / pitch ||
       offset > size
    then false
    else if extent.depth - 1 > Sub64(size, offset) / slice then false
    else
      var last := Add64(offset, Mul64(extent.depth - 1, slice));
      if extent.height - 1 > Sub64(size, last) / pitch then false
      else
        var lastRow := Add64(last, Mul64(extent.height - 1, pitch));
        extent.width <= Sub64(size, lastRow)
  }

  // ---------------------------------------------------------------------
  // What they decide
  // ---------------------------------------------------------------------

  function Region2d(pitch: u64, width: u64, height: u64): Shape { Shape(pitch, 0, width, height, 1) }

  function Region3d(pitch: u64, slice: u64, e: Extent): Shape { Shape(pitch, slice, e.width, e.height, e.depth) }

  /** First byte of the region, in unbounded arithmetic. */
  function Start(base: u64, pos: Position, pitch: u64, slice: u64): nat
  {
    base + Times(pos.z, slice) + Times(pos.y, pitch) + pos.x
  }

  /** A box of rows inside the slices the pitches describe. */
  ghost predicate WellPlaced(pos: Position, pitch: u64, slice: u64, e: Extent)
  {
    && e.width > 0 && e.height > 0 && e.depth > 0
    && pitch > 0 && slice > 0 && slice % pitch == 0
    && pos.x + e.width <= pitch && pos.y + e.height <= slice / pitch
  }

  /** The guard `k > n / p` is exactly "k steps of p do not fit in n". */
  lemma DivGuard(k: nat, n: nat, p: nat)
    requires p > 0
    ensures k <= n / p <==> Times(k, p) <= n
  {
    DivRem(n, p);
    if k <= n / p {
      TimesMono(k, n / p, p);
    } else {
      TimesStep(n / p, k, p);
    }
  }

  lemma SubExact(a: u64, b: u64)
    requires b <= a
    ensures Sub64(a, b) == a - b
  {}

  lemma AddExact(a: u64, b: u64)
    requires a + b < TWO64
    ensures Add64(a, b) == a + b
  {}

  lemma MulExact(k: u64, p: u64)
    requires Times(k, p) < TWO64
    ensures Mul64(k, p) == Times(k, p)
  {
    TimesIsProduct(k, p);
  }

  /** A guarded step neither overflows nor leaves the limit. */
  lemma GuardedStep(at: u64, k: u64, p: u64, limit: u64)
    requires p > 0 && at <= limit
    ensures Sub64(limit, at) == limit - at
    ensures k <= (limit - at) / p <==> at + Times(k, p) <= limit
    ensures at + Times(k, p) <= limit ==> Add64(at, Mul64(k, p)) == at + Times(k, p)
  {
    hide Times, Add64, Sub64, Mul64;
    SubExact(limit, at);
    DivGuard(k, limit - at, p);
    if at + Times(k, p) <= limit {
      MulExact(k, p);
      AddExact(at, Mul64(k, p));
    }
  }

  /** A region fits exactly when its last byte does. */
  lemma FitsByLastByte(s: Shape, at: nat, size: nat)
    requires s.width > 0 && s.height > 0 && s.depth > 0
    ensures s.Fits(at, size) <==> at + s.At(s.depth - 1, s.height - 1, s.width - 1) < size
  {
    assert s.Has(s.depth - 1, s.height - 1, s.width - 1);
    if at + s.At(s.depth - 1, s.height - 1, s.width - 1) < size {
      forall z: nat, y: nat, x: nat | s.Has(z, y, x)
        ensures at + s.At(z, y, x) < size
      {
        TimesMono(z, s.depth - 1, s.slice);
        TimesMono(y, s.height - 1, s.pitch);
      }
    }
  }

  /** Two dimensions: accepted exactly when the shape is sound and every byte is inside. */
  lemma Checked2dExact(offset: u64, pitch: u64, width: u64, height: u64, size: u64)
    ensures Checked2dExtent(offset, pitch, width, height, size) <==>
            Region2d(pitch, width, height).WellFormed() && Region2d(pitch, width, height).Fits(offset, size)
  {
    var s := Region2d(pitch, width, height);
    assert Times(0, s.slice) == 0;
    hide Times, Add64, Sub64, Mul64, Shape.Fits;
    if height > 0 && 0 < width <= pitch {
      FitsByLastByte(s, offset, size);
      if offset <= size {
        GuardedStep(offset, height - 1, pitch, size);
        var row := offset + Times(height - 1, pitch);
        if row <= size { SubExact(size, row); }
      }
    }
  }

  /** The row bound on the extent keeps slices apart. */
  lemma SlicesApart(pos: Position, pitch: u64, slice: u64, e: Extent)
    requires WellPlaced(pos, pitch, slice, e)
    ensures Region3d(pitch, slice, e).WellFormed()
  {
    DivRem(slice, pitch);
    TimesMono(e.height, slice / pitch, pitch);
  }

  /** The last slice of a region is a two-dimensional region, and the region fits when it does. */
  lemma FitsByLastSlice(pitch: u64, slice: u64, e: Extent, at: nat, size: nat)
    requires e.width > 0 && e.height > 0 && e.depth > 0
    ensures Region3d(pitch, slice, e).Fits(at, size) <==>
            Region2d(pitch, e.width, e.height).Fits(at + Times(e.depth - 1, slice), size)
  {
    FitsByLastByte(Region3d(pitch, slice, e), at, size);
    FitsByLastByte(Region2d(pitch, e.width, e.height), at + Times(e.depth - 1, slice), size);
  }

  lemma FoldExact(base: u64, pos: Position, pitch: u64, slice: u64, limit: u64)
    requires pitch > 0 && slice > 0 && base <= limit
    ensures FoldPosition(base, pos, pitch, slice, limit) ==
            if Start(base, pos, pitch, slice) <= limit then At(Start(base, pos, pitch, slice)) else Rejected
  {
    hide Times, Add64, Sub64, Mul64;
    GuardedStep(base, pos.z, slice, limit);
    if base + Times(pos.z, slice) <= limit {
      var o1 := base + Times(pos.z, slice);
      GuardedStep(o1, pos.y, pitch, limit);
      if o1 + Times(pos.y, pitch) <= limit {
        var o2 := o1 + Times(pos.y, pitch);
        SubExact(limit, o2);
        if o2 + pos.x <= limit { AddExact(o2, pos.x); }
      }
    }
  }

  lemma LastSliceExact(at: u64, pitch: u64, slice: u64, e: Extent, limit: u64)
    requires slice > 0 && e.depth > 0 && e.height > 0 && 0 < e.width <= pitch && at <= limit
    ensures CheckedLastSlice(at, pitch, slice, e, limit) <==> Region3d(pitch, slice, e).Fits(at, limit)
  {
    hide Times, Add64, Sub64, Mul64, Checked2dExtent, Shape.Fits;
    GuardedStep(at, e.depth - 1, slice, limit);
    FitsByLastSlice(pitch, slice, e, at, limit);
    if at + Times(e.depth - 1, slice) <= limit {
      Checked2dExact(at + Times(e.depth - 1, slice), pitch, e.width, e.height, limit);
    } else {
      FitsByLastByte(Region3d(pitch, slice, e), at, limit);
    }
  }

  /**
   Three dimensions: accepted exactly when the box is well placed and every byte
   is inside; the reported offset is the unwrapped one.
   */
  lemma Checked3dExact(base: u64, pos: Position, pitch: u64, slice: u64, e: Extent, limit: u64)
    ensures Checked3dRegion(base, pos, pitch, slice, e, limit).At? <==>
            WellPlaced(pos, pitch, slice, e) && Region3d(pitch, slice, e).Fits(Start(base, pos, pitch, slice), limit)
    ensures Checked3dRegion(base, pos, pitch, slice, e, limit).At? ==>
            Checked3dRegion(base, pos, pitch, slice, e, limit).offset == Start(base, pos, pitch, slice)
  {
    assert pos.x <= pitch ==> Sub64(pitch, pos.x) == pitch - pos.x;
    assert pitch > 0 && pos.y <= slice / pitch ==> Sub64(slice / pitch, pos.y) == slice / pitch - pos.y;
    hide Times, Add64, Sub64, Mul64, FoldPosition, CheckedLastSlice, Shape.Fits;
    if WellPlaced(pos, pitch, slice, e) {
      var start := Start(base, pos, pitch, slice);
      FitsByLastByte(Region3d(pitch, slice, e), start, limit);
      if base <= limit {
        FoldExact(base, pos, pitch, slice, limit);
        if start <= limit { LastSliceExact(start, pitch, slice, e, limit); }
      }
    }
  }

  /** The server accepts exactly the well-shaped descriptors whose every byte is inside. */
  lemma Valid3dExact(size: u64, offset: u64, pitch: u64, slice: u64, e: Extent)
    requires e.width > 0 && e.height > 0 && e.depth > 0
    ensures Valid3dAllocation(size, offset, pitch, slice, e) <==>
            WellPlaced(Position(0, 0, 0), pitch, slice, e) && Region3d(pitch, slice, e).Fits(offset, size)
  {
    hide Times, Add64, Sub64, Mul64, Shape.Fits;
    if WellPlaced(Position(0, 0, 0), pitch, slice, e) {
      FitsByLastByte(Region3d(pitch, slice, e), offset, size);
      if offset <= size {
        GuardedStep(offset, e.depth - 1, slice, size);
        var last := offset + Times(e.depth - 1, slice);
        if last <= size {
          GuardedStep(last, e.height - 1, pitch, size);
          var lastRow := last + Times(e.height - 1, pitch);
          if lastRow <= size { SubExact(size, lastRow); }
        }
      }
    }
  }

  /** A region the client resolves is a region the server accepts, when the sizes agree. */
  lemma ClientAcceptsServerAccepts(base: u64, pos: Position, pitch: u64, slice: u64, e: Extent, size: u64)
    requires Checked3dRegion(base, pos, pitch, slice, e, size).At?
    ensures Valid3dAllocation(size, Checked3dRegion(base, pos, pitch, slice, e, size).offset, pitch, slice, e)
    ensures pitch > 0 && slice % pitch == 0 && Region3d(pitch, slice, e).WellFormed()
    ensures Region3d(pitch, slice, e).Fits(Checked3dRegion(base, pos, pitch, slice, e, size).offset, size)
  {
    Checked3dExact(base, pos, pitch, slice, e, size);
    Valid3dExact(size, Checked3dRegion(base, pos, pitch, slice, e, size).offset, pitch, slice, e);
    SlicesApart(pos, pitch, slice, e);
  }

  /**
   Three-dimensional copy to the device, checks included: when the client accepts the
   device region and the host region, packing and the driver's copy are the nested copy.
   */
  lemma AcceptedToDevice(base: u64, pos: Position, pitch: u64, slice: u64, hostPos: Position, hostPitch: u64, hostSlice: u64,
                         e: Extent, host: seq<byte>, flat: seq<byte>, dev: seq<byte>, dev': seq<byte>)
    requires |dev| < TWO64 && |host| < TWO64
    requires
      var to, from := Checked3dRegion(base, pos, pitch, slice, e, |dev|), Checked3dRegion(0, hostPos, hostPitch, hostSlice, e, |host|);
      && to.At? && from.At? && Region3d(hostPitch, hostSlice, e).Fits(from.offset, |host|)
      && IsPack(flat, host, from.offset, Region3d(hostPitch, hostSlice, e))
      && pitch > 0
      && DriverCopy(dev, dev', DeviceSide(to.offset, Region3d(pitch, slice, e)), flat, PackedSide(Region3d(pitch, slice, e)),
                    e.width, e.height, e.depth)
    ensures
      var to, from := Checked3dRegion(base, pos, pitch, slice, e, |dev|), Checked3dRegion(0, hostPos, hostPitch, hostSlice, e, |host|);
      && Region3d(pitch, slice, e).Fits(to.offset, |dev|)
      && NestedCopy(dev, dev', to.offset, Region3d(pitch, slice, e), host, from.offset, Region3d(hostPitch, hostSlice, e))
  {
    hide Checked3dRegion;
    var to, from := Checked3dRegion(base, pos, pitch, slice, e, |dev|), Checked3dRegion(0, hostPos, hostPitch, hostSlice, e, |host|);
    ClientAcceptsServerAccepts(base, pos, pitch, slice, e, |dev|);
    hide IsPack, DriverCopy, NestedCopy, Shape.Fits;
    HostToDevice(host, from.offset, Region3d(hostPitch, hostSlice, e), flat, dev, dev', to.offset, Region3d(pitch, slice, e));
  }

  /** Three-dimensional copy to the host, checks included. */
  lemma AcceptedToHost(base: u64, pos: Position, pitch: u64, slice: u64, hostPos: Position, hostPitch: u64, hostSlice: u64,
                       e: Extent, dev: seq<byte>, blank: seq<byte>, flat: seq<byte>, host: seq<byte>)
    requires |dev| < TWO64 && |host| < TWO64
    requires
      var from, to := Checked3dRegion(base, pos, pitch, slice, e, |dev|), Checked3dRegion(0, hostPos, hostPitch, hostSlice, e, |host|);
      && from.At? && to.At? && pitch > 0 && |blank| == Region3d(pitch, slice, e).Volume()
      && DriverCopy(blank, flat, PackedSide(Region3d(pitch, slice, e)), dev, DeviceSide(from.offset, Region3d(pitch, slice, e)),
                    e.width, e.height, e.depth)
    ensures
      var from, to := Checked3dRegion(base, pos, pitch, slice, e, |dev|), Checked3dRegion(0, hostPos, hostPitch, hostSlice, e, |host|);
      var ds, hs := Region3d(pitch, slice, e), Region3d(hostPitch, hostSlice, e);
      && ds.Fits(from.offset, |dev|) && hs.Fits(to.offset, |host|) && |flat| == hs.Volume()
      && NestedCopy(host, Scatter(host, to.offset, hs, flat), to.offset, hs, dev, from.offset, ds)
  {
    hide Checked3dRegion;
    var from, to := Checked3dRegion(base, pos, pitch, slice, e, |dev|), Checked3dRegion(0, hostPos, hostPitch, hostSlice, e, |host|);
    ClientAcceptsServerAccepts(base, pos, pitch, slice, e, |dev|);
    ClientAcceptsServerAccepts(0, hostPos, hostPitch, hostSlice, e, |host|);
    hide DriverCopy, NestedCopy, Shape.Fits, Scatter, Shape.WellFormed;
    DeviceToHost(dev, from.offset, Region3d(pitch, slice, e), blank, flat, host, to.offset, Region3d(hostPitch, hostSlice, e));
  }
}
