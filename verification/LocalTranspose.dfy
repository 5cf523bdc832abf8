/** Reordering one rank's box from one memory permutation to another. */
module LocalTransposes {
  import opened MachineInts
  import opened Nonlinear
  import opened MixedRadix
  import opened Axis
  import opened Geometry
  import opened Pencil
  import opened Segments
  import opened RemapRoutes
  import opened Gathers

  /** Two memory orders of one box. */
  ghost predicate SameBox(source: LocalLayout, destination: LocalLayout) {
    source.Valid() && destination.Valid() && source.ranges == destination.ranges
  }

  function GroupOf(linear: nat, len: nat): nat
    requires 0 < len
  {
    linear / len
  }

  function Within(linear: nat, len: nat): (k: nat)
    requires 0 < len
    ensures k < len
  {
    linear % len
  }

  /** Where a layout keeps logical position `linear`: group `linear / len`, index `linear % len` in
      logical row-major order. */
  ghost function LogicalCell(l: LocalLayout, linear: nat): (cell: nat)
    requires l.Valid() && 0 < l.Len()
  {
    Times(GroupOf(linear, l.Len()), l.Len()) + LogicalOffset(l, Within(linear, l.Len()))
  }

  ghost function LogicalOffset(l: LocalLayout, k: nat): (offset: nat)
    requires l.Valid() && k < l.Len()
    ensures offset < l.Len()
  {
    IndexRoundTrip(l.ranges, k);
    OffsetRoundTrip(l, IndexAt(l.ranges, k));
    l.Offset(IndexAt(l.ranges, k))
  }

  lemma LogicalCellFits(l: LocalLayout, extraCount: nat, linear: nat)
    requires l.Valid() && linear < Times(extraCount, l.Len())
    ensures 0 < l.Len() && LogicalCell(l, linear) < Times(extraCount, l.Len())
    ensures Times(linear / l.Len(), l.Len()) <= Times(extraCount, l.Len())
  {
    TimesSplit(linear, extraCount, l.Len());
    TimesMono(linear / l.Len() + 1, extraCount, l.Len(), l.Len());
  }

  lemma LogicalCellInjective(l: LocalLayout, a: nat, b: nat)
    requires l.Valid() && 0 < l.Len() && LogicalCell(l, a) == LogicalCell(l, b)
    ensures a == b
  {
    var len := l.Len();
    TimesDivides(a, len);
    TimesDivides(b, len);
    if a / len < b / len {
      TimesMono(a / len + 1, b / len, len, len);
      assert false;
    } else if b / len < a / len {
      TimesMono(b / len + 1, a / len, len, len);
      assert false;
    } else {
      IndexRoundTrip(l.ranges, a % len);
      IndexRoundTrip(l.ranges, b % len);
      OffsetInjective(l, IndexAt(l.ranges, a % len), IndexAt(l.ranges, b % len));
    }
  }

  /** Global index `g` in group `e` is logical position `e * len + PlaceIn(g)`. */
  lemma LogicalCellOfIndex(l: LocalLayout, extraCount: nat, e: nat, g: seq<nat>)
    requires l.Valid() && InBox(l.ranges, g) && e < extraCount
    ensures 0 < l.Len() && Times(e, l.Len()) + PlaceIn(l.ranges, g) < Times(extraCount, l.Len())
    ensures LogicalCell(l, Times(e, l.Len()) + PlaceIn(l.ranges, g)) == StorageCell(l, extraCount, e, g)
  {
    PlaceRoundTrip(l.ranges, g);
    TimesDivMod(e, l.Len(), PlaceIn(l.ranges, g));
    TimesMono(e + 1, extraCount, l.Len(), l.Len());
  }

  /** Both offsets of one logical position; for a valid pair of layouts the checks cannot fail. */
  method LogicalOffsets(source: LocalLayout, destination: LocalLayout, linear: usize, ghost extraCount: nat)
    returns (r: Result<(usize, usize), GeometryError>)
    requires SameBox(source, destination) && linear < Times(extraCount, source.Len()) <= USIZE_MAX
    ensures 0 < source.Len() && r == Ok((LogicalCell(source, linear), LogicalCell(destination, linear)))
  {
    var len := source.Len();
    LogicalCellFits(source, extraCount, linear);
    LogicalCellFits(destination, extraCount, linear);
    TimesDivides(linear, len);
    var spatial, extra := linear % len, linear / len;
    var indices := MemoryCoordinates(Shape(source.ranges), spatial);
    IndexRoundTrip(source.ranges, spatial);
    ghost var g := IndexAt(source.ranges, spatial);
    assert Relative(source.ranges, g) == indices;
    var from := SpatialOffset(source, indices, g);
    var to := SpatialOffset(destination, indices, g);
    if from.None? || to.None? {
      return Err(SizeOverflow);
    }
    var sourceBase := CheckedMul(extra, len);
    var destinationBase := CheckedMul(extra, destination.Len());
    if sourceBase.None? || destinationBase.None? {
      return Err(SizeOverflow);
    }
    var sourceCell := CheckedAdd(sourceBase.value, from.value);
    var destinationCell := CheckedAdd(destinationBase.value, to.value);
    if sourceCell.None? || destinationCell.None? {
      return Err(SizeOverflow);
    }
    return Ok((sourceCell.value, destinationCell.value));
  }

  /** The checked offset of a local index in one layout. */
  method SpatialOffset(l: LocalLayout, indices: seq<nat>, ghost g: seq<nat>) returns (r: Option<nat>)
    requires l.Valid() && InBox(l.ranges, g) && indices == Relative(l.ranges, g)
    ensures r == Some(l.Offset(g))
  {
    RelativeInBounds(l.ranges, g);
    r := OffsetIn(l, l.permutation.Permute(indices));
  }

  /** The first `n` logical positions of `staged` are in destination order. */
  ghost predicate Reordered<T>(source: LocalLayout, destination: LocalLayout, n: nat, staged: seq<T>, storage: seq<T>)
    requires SameBox(source, destination)
  {
    forall linear :: 0 <= linear < n ==> PositionMoved(source, destination, linear, staged, storage)
  }

  ghost predicate PositionMoved<T>(source: LocalLayout, destination: LocalLayout, linear: nat, staged: seq<T>,
                                   storage: seq<T>)
    requires SameBox(source, destination)
  {
    && 0 < source.Len() && LogicalCell(source, linear) < |staged| && LogicalCell(destination, linear) < |storage|
    && storage[LogicalCell(destination, linear)] == staged[LogicalCell(source, linear)]
  }

  /** Writes the first `count` staged values in destination order, over the prefix of the storage only. */
  method WriteStaged<T>(source: LocalLayout, destination: LocalLayout, extraCount: nat, staged: seq<T>,
                        storage: array<T>, count: nat)
    requires SameBox(source, destination)
      && count <= |staged| == Times(extraCount, source.Len()) <= storage.Length <= USIZE_MAX
    modifies storage
    ensures Reordered(source, destination, count, staged, storage[..])
    ensures forall c :: |staged| <= c < storage.Length ==> storage[c] == old(storage[c])
  {
    ghost var start := storage[..];
    for linear := 0 to count
      invariant Reordered(source, destination, linear, staged, storage[..])
      invariant forall c :: |staged| <= c < storage.Length ==> storage[c] == start[c]
    {
      var offsets := LogicalOffsets(source, destination, linear, extraCount);
      if offsets.Err? {
        return;
      }
      LogicalCellFits(source, extraCount, linear);
      LogicalCellFits(destination, extraCount, linear);
      ghost var was := storage[..];
      hide LogicalCell;
      hide SameBox;
      storage[offsets.value.1] := staged[offsets.value.0];
      forall j | 0 <= j <= linear ensures PositionMoved(source, destination, j, staged, storage[..]) {
        if j < linear {
          assert PositionMoved(source, destination, j, staged, was);
          PositionStays(source, destination, j, linear, staged, was, storage[..]);
        }
      }
    }
  }

  lemma PositionStays<T>(source: LocalLayout, destination: LocalLayout, j: nat, linear: nat, staged: seq<T>,
                         was: seq<T>, now: seq<T>)
    requires SameBox(source, destination) && PositionMoved(source, destination, j, staged, was) && j != linear
      && |now| == |was|
    requires forall c :: 0 <= c < |was| && c != LogicalCell(destination, linear) ==> now[c] == was[c]
    ensures PositionMoved(source, destination, j, staged, now)
  {
    if LogicalCell(destination, j) == LogicalCell(destination, linear) {
      LogicalCellInjective(destination, j, linear);
    }
  }

  /** Reordering keeps every logical value: index by index, in every extra group. */
  lemma ReorderingKeepsValues<T>(source: LocalLayout, destination: LocalLayout, extraCount: nat, staged: seq<T>,
                                 storage: seq<T>, e: nat, g: seq<nat>)
    requires SameBox(source, destination)
      && Reordered(source, destination, Times(extraCount, source.Len()), staged, storage)
    requires e < extraCount && InBox(source.ranges, g)
    ensures StorageCell(source, extraCount, e, g) < |staged| && StorageCell(destination, extraCount, e, g) < |storage|
    ensures storage[StorageCell(destination, extraCount, e, g)] == staged[StorageCell(source, extraCount, e, g)]
  {
    LogicalCellOfIndex(source, extraCount, e, g);
    LogicalCellOfIndex(destination, extraCount, e, g);
    assert PositionMoved(source, destination, Times(e, source.Len()) + PlaceIn(source.ranges, g), staged, storage);
  }

  /** Copying into a separate array: the destination is exactly the reordered source. */
  method ExecuteViews<T>(source: LocalLayout, destination: LocalLayout, extraCount: nat, from: array<T>, to: array<T>)
    requires SameBox(source, destination) && from != to
    requires from.Length == to.Length == Times(extraCount, source.Len()) <= USIZE_MAX
    modifies to
    ensures Reordered(source, destination, from.Length, from[..], to[..])
  {
    WriteStaged(source, destination, extraCount, from[..], to, from.Length);
  }
}
