/** Preflight bounds of a region. */
module RegionChecks {
  // The constant-size check against the element-by-element scan. The ranges, shape, lengths and region are
  // arbitrary: ranges may be inverted or empty, the memory shape need not match the ranges, and every
  // product may overflow.

  import opened MachineInts
  import opened Nonlinear
  import opened MixedRadix
  import opened Axis
  import opened Geometry
  import opened Pencil
  import opened RegionWalks

  datatype Local = Local(ranges: seq<Range>, shapeMemory: seq<usize>, permutation: AxisPermutation,
                         localLen: usize, storageLen: usize)
  {
    ghost predicate Valid(n: nat) {
      |ranges| == |shapeMemory| == n && permutation.Valid(n) && n <= USIZE_MAX && FitsUsize(ranges)
    }
  }

  /** The number of elements of a region; inverted axes and overflow are errors. */
  method RegionSpatialLen(region: seq<Range>) returns (r: Result<usize, PreparationFailed>)
    requires FitsUsize(region)
    ensures r.Ok? <==> Ordered(region) && Volume(region) <= USIZE_MAX
    ensures r.Ok? ==> r.value == Volume(region)
  {
    var shape: seq<usize> := [];
    for axis := 0 to |region|
      invariant |shape| == axis
      invariant forall a :: 0 <= a < axis ==> region[a].start <= region[a].end && shape[a] == Shape(region)[a]
    {
      var length := CheckedSub(region[axis].end, region[axis].start);
      if length.None? {
        return Err(PreparationFailed);
      }
      shape := shape + [length.value];
    }
    assert shape == Shape(region);
    var product := CheckedProduct(shape);
    return if product.Ok? then Ok(product.value) else Err(PreparationFailed);
  }

  /** Element `k` of the region, in extra group `e`, is inside the ranges and its checked
      offset exists and lies inside the storage. */
  ghost predicate ElementFits(l: Local, region: Box, e: nat, k: nat)
    requires l.Valid(|region|) && k < Volume(region)
  {
    IndexRoundTrip(region, k);
    var g := IndexAt(region, k);
    && InBox(l.ranges, g)
    && var offset := RowMajor(l.shapeMemory, l.permutation.Permute(Relative(l.ranges, g)));
       offset.Ok? && Times(e, l.localLen) + offset.value <= USIZE_MAX
         && Times(e, l.localLen) + offset.value < l.storageLen
  }

  /** What the element-by-element scan accepts. */
  ghost predicate ScanAccepts(l: Local, region: Box, extraCount: nat)
    requires l.Valid(|region|)
  {
    extraCount == 0
    || (&& Ordered(region) && Volume(region) <= USIZE_MAX
        && forall e, k :: 0 <= e < extraCount && 0 <= k < Volume(region) ==> ElementFits(l, region, e, k))
  }

  /** Checks the two corners of the region instead of every element, and decides the same. */
  method ValidateRegionOffsets(l: Local, region: seq<Range>, extraCount: usize)
    returns (r: Result<(), PreparationFailed>)
    requires l.Valid(|region|) && FitsUsize(region)
    ensures r.Ok? <==> ScanAccepts(l, region, extraCount)
  {
    if extraCount == 0 {
      return Ok(());
    }
    var len := RegionSpatialLen(region);
    if len.Err? {
      return Err(PreparationFailed);
    }
    if len.value == 0 {
      return Ok(());
    }
    PositiveProduct(Shape(region));
    hide ElementFits;
    var lastLocal: seq<usize> := [];
    for axis := 0 to |region|
      invariant |lastLocal| == axis
      invariant forall a :: 0 <= a < axis ==> LastCorner(l.ranges[a], region[a], lastLocal[a])
    {
      var local, requested := l.ranges[axis], region[axis];
      assert 0 < Shape(region)[axis];
      if requested.start < local.start || requested.end > local.end {
        ScanFailsOutside(l, region, extraCount, axis);
        return Err(PreparationFailed);
      }
      var offset := ThenSub(CheckedSub(requested.end, 1), local.start);
      if offset.None? {
        assert false;
      }
      lastLocal := lastLocal + [offset.value];
    }
    CornerDecides(l, region, extraCount, lastLocal);
    var lastMemory := l.permutation.Permute(lastLocal);
    assert lastMemory == l.permutation.Permute<nat>(lastLocal);
    hide ScanAccepts;
    hide RowMajor;
    var maxSpatial := RowMajorOffset(l.shapeMemory, lastMemory);
    if maxSpatial.Err? {
      return Err(PreparationFailed);
    }
    var extraOffset := CheckedMul(extraCount - 1, l.localLen);
    var maxOffset := if extraOffset.Some? then CheckedAdd(extraOffset.value, maxSpatial.value) else None;
    if maxOffset.None? || maxOffset.value >= l.storageLen {
      return Err(PreparationFailed);
    }
    return Ok(());
  }

  /** One axis: the requested range is nonempty, inside the local one, and ends at `last`. */
  ghost predicate LastCorner(local: Range, requested: Range, last: nat) {
    && local.start <= requested.start < requested.end <= local.end
    && last == requested.end - 1 - local.start
  }

  /** The first and last element of a nonempty region are its two corners. */
  lemma Corners(region: Box)
    requires Ordered(region) && 0 < Volume(region)
    ensures IndexAt(region, 0) == seq(|region|, a requires 0 <= a < |region| => region[a].start)
    ensures Positive(Shape(region))
    ensures IndexAt(region, Volume(region) - 1) ==
      seq(|region|, a requires 0 <= a < |region| => region[a].start + Shape(region)[a] - 1)
  {
    var shape := Shape(region);
    PositiveProduct(shape);
    LinearZeros(shape, Zeros(|shape|));
    DigitsOfLinear(shape, Zeros(|shape|));
    LinearOfLast(shape, LastIndex(shape));
    DigitsOfLinear(shape, LastIndex(shape));
  }

  lemma ScanFailsOutside(l: Local, region: Box, extraCount: nat, axis: nat)
    requires l.Valid(|region|) && Ordered(region) && 0 < Volume(region) && 0 < extraCount && axis < |region|
    requires region[axis].start < l.ranges[axis].start || region[axis].end > l.ranges[axis].end
    ensures !ScanAccepts(l, region, extraCount)
  {
    Corners(region);
    var k := if region[axis].start < l.ranges[axis].start then 0 else Volume(region) - 1;
    assert !l.ranges[axis].Contains(IndexAt(region, k)[axis]);
    assert !ElementFits(l, region, 0, k);
  }

  /** Inside the ranges, the last corner in the last extra group decides for all elements. */
  lemma CornerDecides(l: Local, region: Box, extraCount: nat, lastLocal: seq<nat>)
    requires l.Valid(|region|) && Ordered(region) && 0 < Volume(region) <= USIZE_MAX && 0 < extraCount
    requires |lastLocal| == |region|
    requires forall a :: 0 <= a < |region| ==> LastCorner(l.ranges[a], region[a], lastLocal[a])
    ensures var max := RowMajor(l.shapeMemory, l.permutation.Permute(lastLocal));
      ScanAccepts(l, region, extraCount) <==>
        max.Ok? && Times(extraCount - 1, l.localLen) + max.value <= USIZE_MAX
        && Times(extraCount - 1, l.localLen) + max.value < l.storageLen
  {
    if ScanAccepts(l, region, extraCount) {
      LastElementFits(l, region, extraCount, lastLocal);
    }
    var max := RowMajor(l.shapeMemory, l.permutation.Permute(lastLocal));
    if && max.Ok? && Times(extraCount - 1, l.localLen) + max.value <= USIZE_MAX
       && Times(extraCount - 1, l.localLen) + max.value < l.storageLen
    {
      forall e, k | 0 <= e < extraCount && 0 <= k < Volume(region) ensures ElementFits(l, region, e, k) {
        ElementBelowCorner(l, region, k, lastLocal);
        TimesMono(e, extraCount - 1, l.localLen, l.localLen);
      }
    }
  }

  lemma LastElementFits(l: Local, region: Box, extraCount: nat, lastLocal: seq<nat>)
    requires l.Valid(|region|) && Ordered(region) && 0 < Volume(region) && 0 < extraCount && |lastLocal| == |region|
    requires forall a :: 0 <= a < |region| ==> LastCorner(l.ranges[a], region[a], lastLocal[a])
    requires ScanAccepts(l, region, extraCount)
    ensures var max := RowMajor(l.shapeMemory, l.permutation.Permute(lastLocal));
      max.Ok? && Times(extraCount - 1, l.localLen) + max.value <= USIZE_MAX
      && Times(extraCount - 1, l.localLen) + max.value < l.storageLen
  {
    var last := Volume(region) - 1;
    Corners(region);
    assert Relative(l.ranges, IndexAt(region, last)) == lastLocal;
    assert ElementFits(l, region, extraCount - 1, last);
  }

  /** Every element's checked offset exists when the last corner's does, and is no larger. */
  lemma ElementBelowCorner(l: Local, region: Box, k: nat, lastLocal: seq<nat>)
    requires l.Valid(|region|) && k < Volume(region) && |lastLocal| == |region|
    requires forall a :: 0 <= a < |region| ==> LastCorner(l.ranges[a], region[a], lastLocal[a])
    requires RowMajor(l.shapeMemory, l.permutation.Permute(lastLocal)).Ok?
    ensures InBox(l.ranges, IndexAt(region, k))
    ensures var offset := RowMajor(l.shapeMemory, l.permutation.Permute(Relative(l.ranges, IndexAt(region, k))));
      offset.Ok? && offset.value <= RowMajor(l.shapeMemory, l.permutation.Permute(lastLocal)).value
  {
    IndexRoundTrip(region, k);
    var memory := l.permutation.Permute(Relative(l.ranges, IndexAt(region, k)));
    var last := l.permutation.Permute(lastLocal);
    RowMajorMeaning(l.shapeMemory, last);
    RowMajorMeaning(l.shapeMemory, memory);
    LinearMonotone(l.shapeMemory, memory, last);
  }
}
