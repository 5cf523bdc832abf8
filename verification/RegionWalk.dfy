/** Copying a box of global indices between pencil storage and a contiguous payload. */
module RegionWalks {
  // The payload holds the box in global row-major order. The walk keeps an odometer over the outer axes and
  // copies the last axis as one strided run.

  import opened MachineInts
  import opened Nonlinear
  import opened MixedRadix
  import opened Axis
  import opened Geometry
  import opened Pencil

  datatype PreparationFailed = PreparationFailed

  datatype RegionWalk = RegionWalk(
    start: nat, stride: seq<nat>, extent: seq<nat>,
    outerLen: nat, runLen: nat, runStride: nat, maxOffset: nat)

  /** `region` is a nonempty box inside `box`. */
  ghost predicate Covers(box: Box, region: Box) {
    && |region| == |box|
    && forall a :: 0 <= a < |box| ==> box[a].start <= region[a].start < region[a].end <= box[a].end
  }

  /** The start corner of `region` relative to `box`. */
  function Lead(box: Box, region: Box): (lead: seq<nat>)
    requires |region| == |box|
    ensures |lead| == |box|
  {
    seq(|box|, a requires 0 <= a < |box| =>
      if box[a].start <= region[a].start then region[a].start - box[a].start else 0)
  }

  function LastIndex(extent: seq<nat>): (last: seq<nat>)
    ensures |last| == |extent|
  {
    seq(|extent|, a requires 0 <= a < |extent| => if extent[a] == 0 then 0 else extent[a] - 1)
  }

  ghost predicate WalkFor(l: LocalLayout, region: Box, w: RegionWalk) {
    && l.Valid() && Covers(l.ranges, region)
    && StridesOf(l.permutation, l.ShapeMemory(), w.stride)
    && w.extent == Shape(region)
    && var n := |region| - 1;
       && w.start == Dot(w.stride, Lead(l.ranges, region))
       && w.maxOffset == w.start + Dot(w.stride, LastIndex(w.extent))
       && w.outerLen == Product(w.extent[..n])
       && w.runLen == w.extent[n]
       && w.runStride == w.stride[n]
  }

  /** Offset of the `k`-th element the walk visits. */
  ghost function WalkOffset(w: RegionWalk, k: nat): nat
    requires |w.stride| == |w.extent| && Positive(w.extent)
  {
    w.start + Dot(w.stride, Digits(w.extent, k))
  }

  lemma CoversBox(box: Box, region: Box, g: seq<nat>)
    requires Covers(box, region) && InBox(region, g)
    ensures InBox(box, g)
  {
  }

  /** The walk visits exactly the element-wise offsets of the region, in global row-major
      order, and stays between its start and its maximum. */
  lemma WalkVisits(l: LocalLayout, region: Box, w: RegionWalk, k: nat)
    requires WalkFor(l, region, w) && k < Volume(region)
    ensures InBox(l.ranges, IndexAt(region, k))
    ensures WalkOffset(w, k) == l.Offset(IndexAt(region, k))
    ensures w.start <= WalkOffset(w, k) <= w.maxOffset < l.Len()
  {
    LinearOfDigits(w.extent, k);
    IndexRoundTrip(region, k);
    var d := Digits(w.extent, k);
    var g := IndexAt(region, k);
    CoversBox(l.ranges, region, g);
    var x := Relative(l.ranges, g);
    DotAdd(w.stride, Lead(l.ranges, region), d, x);
    StridedOffset(l.permutation, l.ShapeMemory(), w.stride, x);
    DotMonotone(w.stride, d, LastIndex(w.extent));
    WalkMaximum(l, region, w);
  }

  /** The largest offset is that of the region's last corner, inside the local block. */
  lemma WalkMaximum(l: LocalLayout, region: Box, w: RegionWalk)
    requires WalkFor(l, region, w)
    ensures w.maxOffset < l.Len() <= USIZE_MAX
  {
    var g := Shifted(region, LastIndex(w.extent));
    CoversBox(l.ranges, region, g);
    var x := Relative(l.ranges, g);
    DotAdd(w.stride, Lead(l.ranges, region), LastIndex(w.extent), x);
    StridedOffset(l.permutation, l.ShapeMemory(), w.stride, x);
    OffsetRoundTrip(l, g);
    assert l.ShapeMemory()[0..] == l.ShapeMemory();
  }

  lemma WalkVolume(l: LocalLayout, region: Box, w: RegionWalk)
    requires WalkFor(l, region, w)
    ensures Positive(w.extent) && 0 < w.outerLen && 0 < w.runLen
    ensures Times(w.outerLen, w.runLen) == Volume(region)
  {
    PositiveProduct(w.extent);
    PositiveProduct(w.extent[..|w.extent| - 1]);
  }

  lemma DotNext(stride: seq<nat>, index: seq<nat>, k: nat)
    requires |index| == |stride| && k < |stride|
    ensures Dot(stride, index[..k + 1]) == Dot(stride, index[..k]) + Times(index[k], stride[k])
  {
    assert index[..k + 1][..k] == index[..k];
  }

  /** The far corner of a region inside the box has an offset below the local length. */
  lemma WalkReach(l: LocalLayout, region: Box, stride: seq<nat>)
    requires l.Valid() && Covers(l.ranges, region) && StridesOf(l.permutation, l.ShapeMemory(), stride)
    ensures Dot(stride, Lead(l.ranges, region)) + Dot(stride, LastIndex(Shape(region))) < l.Len() <= USIZE_MAX
  {
    var g := Shifted(region, LastIndex(Shape(region)));
    CoversBox(l.ranges, region, g);
    DotAdd(stride, Lead(l.ranges, region), LastIndex(Shape(region)), Relative(l.ranges, g));
    StridedOffset(l.permutation, l.ShapeMemory(), stride, Relative(l.ranges, g));
    OffsetRoundTrip(l, g);
    assert l.ShapeMemory()[0..] == l.ShapeMemory();
  }

  lemma OuterBound(box: Box, region: Box, k: nat)
    requires Covers(box, region) && k <= |region|
    ensures Product(Shape(region)[..k]) <= Volume(box)
  {
    TailProductBound(Shape(region), k);
    ProductMonotone(Shape(region), Shape(box));
  }

  lemma StridesFit(l: LocalLayout, k: nat, running: nat, extent: nat)
    requires l.Valid() && k < |l.ranges|
    requires running == Product(l.ShapeMemory()[k + 1..]) && extent == l.ShapeMemory()[k]
    ensures Times(running, extent) == Product(l.ShapeMemory()[k..]) <= USIZE_MAX
  {
    ProductTail(l.ShapeMemory(), k);
  }

  /** The strides of the axes at memory positions from `position` on are stored. */
  ghost predicate StridesFrom(p: AxisPermutation, memory: seq<nat>, stride: seq<nat>, position: nat)
    requires p.Valid(|memory|) && |stride| == |memory|
  {
    forall q :: position <= q < |memory| ==> stride[p.axes[q]] == Product(memory[q + 1..])
  }

  lemma StridesFromEnd(p: AxisPermutation, memory: seq<nat>, stride: seq<nat>)
    requires p.Valid(|memory|) && |stride| == |memory|
    ensures StridesFrom(p, memory, stride, |memory|)
  {
  }

  lemma StrideStored(p: AxisPermutation, memory: seq<nat>, stride: seq<nat>, position: nat, running: nat)
    requires p.Valid(|memory|) && |stride| == |memory| && position < |memory|
    requires StridesFrom(p, memory, stride, position + 1) && running == Product(memory[position + 1..])
    ensures StridesFrom(p, memory, stride[p.axes[position] := running], position)
  {
    hide Product;
    forall q | position < q < |memory| ensures p.axes[q] != p.axes[position] {
      assert p.logicalToMemory[p.axes[q]] == q;
    }
  }

  lemma StridesComplete(p: AxisPermutation, memory: seq<nat>, stride: seq<nat>)
    requires p.Valid(|memory|) && |stride| == |memory| && StridesFrom(p, memory, stride, 0)
    ensures StridesOf(p, memory, stride)
  {
  }

  /** The memory stride of every logical axis. */
  method AxisStrides(l: LocalLayout) returns (stride: seq<nat>)
    requires l.Valid()
    ensures StridesOf(l.permutation, l.ShapeMemory(), stride)
  {
    var n := |l.ranges|;
    var shape := l.ShapeMemory();
    stride := Zeros(n);
    var running: usize := 1;
    assert Product(shape[n..]) == 1 by {
      assert shape[n..] == [];
    }
    hide Product;
    hide StridesFrom;
    StridesFromEnd(l.permutation, shape, stride);
    for position := n downto 0
      invariant |stride| == n && running == Product(shape[position..])
      invariant StridesFrom(l.permutation, shape, stride, position)
    {
      var axis, extent := l.permutation.axes[position], shape[position];
      StridesFit(l, position, running, extent);
      StrideStored(l.permutation, shape, stride, position, running);
      stride := stride[axis := running];
      running := Multiply(running, extent);
    }
    StridesComplete(l.permutation, shape, stride);
  }

  /** What the walk has accumulated after scanning the first `axis` axes. */
  ghost predicate Scanned(l: LocalLayout, region: Box, stride: seq<nat>, axis: nat,
                          extent: seq<nat>, start: nat, span: nat, outerLen: nat) {
    && |region| == |l.ranges| == |stride| && axis <= |region|
    && (forall a :: 0 <= a < axis ==> l.ranges[a].start <= region[a].start < region[a].end <= l.ranges[a].end)
    && extent == Shape(region)[..axis]
    && start == Dot(stride, Lead(l.ranges, region)[..axis])
    && span == Dot(stride, LastIndex(Shape(region))[..axis])
    && (axis < |region| ==> outerLen == Product(Shape(region)[..axis]))
    && (0 < axis == |region| ==> outerLen == Product(Shape(region)[..axis - 1]))
  }

  lemma ScanStep(l: LocalLayout, region: Box, stride: seq<nat>, axis: nat,
                 extent: seq<nat>, start: nat, span: nat, outerLen: nat)
    requires Scanned(l, region, stride, axis, extent, start, span, outerLen) && axis < |region|
    requires l.ranges[axis].start <= region[axis].start < region[axis].end <= l.ranges[axis].end
    ensures var length := region[axis].end - region[axis].start;
      Scanned(l, region, stride, axis + 1, extent + [length],
              start + Times(region[axis].start - l.ranges[axis].start, stride[axis]),
              span + Times(length - 1, stride[axis]),
              if axis + 1 < |region| then Times(outerLen, length) else outerLen)
  {
    DotNext(stride, Lead(l.ranges, region), axis);
    DotNext(stride, LastIndex(Shape(region)), axis);
    ProductFront(Shape(region), axis);
  }

  lemma ScanBound(l: LocalLayout, region: Box, stride: seq<nat>, axis: nat,
                  extent: seq<nat>, start: nat, span: nat, outerLen: nat)
    requires l.Valid() && StridesOf(l.permutation, l.ShapeMemory(), stride)
    requires Covers(l.ranges, region) && Scanned(l, region, stride, axis, extent, start, span, outerLen)
    ensures start <= USIZE_MAX && span <= USIZE_MAX && (axis < |region| ==> outerLen <= USIZE_MAX)
  {
    WalkReach(l, region, stride);
    DotMonotone(stride, Lead(l.ranges, region)[..axis], Lead(l.ranges, region));
    DotMonotone(stride, LastIndex(Shape(region))[..axis], LastIndex(Shape(region)));
    OuterBound(l.ranges, region, axis);
  }

  /** One axis of the scan; when the whole region lies inside the box, nothing overflows. */
  lemma ScanFits(l: LocalLayout, region: Box, stride: seq<nat>, axis: nat,
                 extent: seq<nat>, start: nat, span: nat, outerLen: nat, lead: nat, last: nat)
    requires l.Valid() && StridesOf(l.permutation, l.ShapeMemory(), stride)
    requires Scanned(l, region, stride, axis, extent, start, span, outerLen) && axis < |region|
    requires l.ranges[axis].start + lead == region[axis].start
      && region[axis].start + last + 1 == region[axis].end <= l.ranges[axis].end
    ensures Scanned(l, region, stride, axis + 1, extent + [last + 1],
                    start + Times(lead, stride[axis]), span + Times(last, stride[axis]),
                    if axis + 1 < |region| then Times(outerLen, last + 1) else outerLen)
    ensures Covers(l.ranges, region) ==>
      && start + Times(lead, stride[axis]) <= USIZE_MAX
      && span + Times(last, stride[axis]) <= USIZE_MAX
      && (axis + 1 < |region| ==> Times(outerLen, last + 1) <= USIZE_MAX)
  {
    hide Dot;
    hide Product;
    hide StridesOf;
    hide LocalLayout.Valid;
    hide Covers;
    assert |stride| == |region| == |l.ranges|;
    hide Scanned;
    ScanStep(l, region, stride, axis, extent, start, span, outerLen);
    if Covers(l.ranges, region) {
      ScanBound(l, region, stride, axis + 1, extent + [last + 1],
                start + Times(lead, stride[axis]), span + Times(last, stride[axis]),
                if axis + 1 < |region| then Times(outerLen, last + 1) else outerLen);
    }
  }

  /** Builds the walk for every nonempty region inside the local box and rejects all others. */
  method WalkOf(l: LocalLayout, region: seq<Range>) returns (r: Result<RegionWalk, PreparationFailed>)
    requires l.Valid() && |region| == |l.ranges|
    requires FitsUsize(region)
    ensures r.Ok? <==> Covers(l.ranges, region)
    ensures r.Ok? ==> WalkFor(l, region, r.value)
  {
    hide Scanned;
    hide StridesOf;
    hide Dot;
    hide Product;
    var n := |region|;
    var stride := AxisStrides(l);
    ScanStart(l, region, stride);
    var extent: seq<usize> := [];
    var start: usize, span: usize, outerLen: usize, runLen: nat, runStride: nat := 0, 0, 1, 0, 0;
    for axis := 0 to n
      invariant Scanned(l, region, stride, axis, extent, start, span, outerLen)
      invariant |extent| == axis && (axis == n ==> runLen == extent[n - 1] && runStride == stride[n - 1])
    {
      var local, requested, pitch := l.ranges[axis], region[axis], stride[axis];
      if requested.start < local.start || requested.end > local.end {
        return Err(PreparationFailed);
      }
      var length := CheckedSub(requested.end, requested.start);
      if length.None? || length.value == 0 {
        return Err(PreparationFailed);
      }
      var lead, last := requested.start - local.start, length.value - 1;
      ScanFits(l, region, stride, axis, extent, start, span, outerLen, lead, last);
      var step := CheckedMul(lead, pitch);
      var nextStart := if step.Some? then CheckedAdd(start, step.value) else None;
      var reach := CheckedMul(last, pitch);
      var nextSpan := if reach.Some? then CheckedAdd(span, reach.value) else None;
      if nextStart.None? || nextSpan.None? {
        return Err(PreparationFailed);
      }
      extent, start, span := extent + [length.value], nextStart.value, nextSpan.value;
      if axis + 1 < n {
        var outer := CheckedMul(outerLen, length.value);
        if outer.None? {
          return Err(PreparationFailed);
        }
        outerLen := outer.value;
      } else {
        runLen, runStride := length.value, pitch;
      }
    }
    ScanDone(l, region, stride, extent, start, span, outerLen);
    var maxOffset := CheckedAdd(start, span);
    return Ok(RegionWalk(start, stride, extent, outerLen, runLen, runStride, maxOffset.value));
  }

  lemma ScanStart(l: LocalLayout, region: Box, stride: seq<nat>)
    requires l.Valid() && |region| == |l.ranges| && StridesOf(l.permutation, l.ShapeMemory(), stride)
    ensures Scanned(l, region, stride, 0, [], 0, 0, 1) && |stride| == |region|
  {
  }

  lemma ScanDone(l: LocalLayout, region: Box, stride: seq<nat>,
                 extent: seq<nat>, start: nat, span: nat, outerLen: nat)
    requires l.Valid() && StridesOf(l.permutation, l.ShapeMemory(), stride)
    requires Scanned(l, region, stride, |region|, extent, start, span, outerLen)
    ensures Covers(l.ranges, region) && extent == Shape(region)
    ensures start == Dot(stride, Lead(l.ranges, region)) && span == Dot(stride, LastIndex(extent))
    ensures start + span <= USIZE_MAX
    ensures outerLen == Product(extent[..|region| - 1])
  {
    WalkReach(l, region, stride);
    assert extent == Shape(region);
    assert Lead(l.ranges, region)[..|region|] == Lead(l.ranges, region);
    assert LastIndex(Shape(region))[..|region|] == LastIndex(Shape(region));
  }

  /** The odometer's successor: the row-major next index, wrapping to zero at the end. */
  function Next(shape: seq<nat>, index: seq<nat>): (next: seq<nat>)
    requires |index| == |shape|
    ensures |next| == |shape|
  {
    if shape == [] then []
    else
      var last := |shape| - 1;
      if index[last] + 1 < shape[last] then index[last := index[last] + 1]
      else Next(shape[..last], index[..last]) + [0]
  }

  /** Counting positions is the same as stepping the odometer. */
  lemma {:induction false} NextDigits(shape: seq<nat>, p: nat)
    requires p + 1 < Product(shape)
    ensures Positive(shape) && Next(shape, Digits(shape, p)) == Digits(shape, p + 1)
  {
    PositiveProduct(shape);
    if shape != [] {
      var last := |shape| - 1;
      var m, rest := shape[last], shape[..last];
      var d := Digits(shape, p);
      assert d[..last] == Digits(rest, p / m);
      TimesSplit(p, Product(rest), m);
      TimesSplit(p + 1, Product(rest), m);
      if p % m + 1 < m {
        TimesDivMod(p / m, m, p % m + 1);
      } else {
        TimesDivMod(p / m + 1, m, 0);
        NextDigits(rest, p / m);
      }
    }
  }

  ghost predicate WalkFits(w: RegionWalk) {
    && 0 < |w.extent| == |w.stride|
    && w.start + Dot(w.stride, LastIndex(w.extent)) == w.maxOffset <= USIZE_MAX
    && forall a :: 0 <= a < |w.extent| ==> w.extent[a] <= USIZE_MAX
  }

  /** `c` is a position of the odometer over the outer axes. */
  ghost predicate OuterIndex(w: RegionWalk, c: seq<nat>) {
    && |c| + 1 == |w.extent| == |w.stride|
    && forall a :: 0 <= a < |c| ==> c[a] < w.extent[a]
  }

  lemma OuterBounded(w: RegionWalk, c: seq<nat>)
    requires WalkFits(w) && OuterIndex(w, c)
    ensures w.start + Dot(w.stride, c) <= w.maxOffset
  {
    DotMonotone(w.stride, c, LastIndex(w.extent));
  }

  /** `now` is `was` with the axes from `axis` on wrapped to zero. */
  ghost predicate Wrapped(w: RegionWalk, was: seq<nat>, now: seq<nat>, axis: nat) {
    && OuterIndex(w, was) && OuterIndex(w, now) && axis <= |was|
    && (forall a :: 0 <= a < axis ==> now[a] == was[a])
    && (forall a :: axis <= a < |was| ==> now[a] == 0 && was[a] + 1 >= w.extent[a])
  }

  lemma {:induction false} NextAtAxis(shape: seq<nat>, was: seq<nat>, now: seq<nat>, axis: nat)
    requires |was| == |now| <= |shape| && axis < |was|
    requires forall a :: 0 <= a < axis ==> now[a] == was[a]
    requires now[axis] == was[axis] + 1 < shape[axis]
    requires forall a :: axis < a < |was| ==> now[a] == 0 && was[a] + 1 >= shape[a]
    ensures Next(shape[..|was|], was) == now
  {
    var last := |was| - 1;
    var s := shape[..|was|];
    assert s[..last] == shape[..last];
    if axis == last {
      assert now == was[last := was[last] + 1];
    } else {
      NextAtAxis(shape, was[..last], now[..last], axis);
      assert now == now[..last] + [0];
    }
  }

  lemma {:induction false} NextWraps(shape: seq<nat>, was: seq<nat>)
    requires |was| <= |shape|
    requires forall a :: 0 <= a < |was| ==> was[a] + 1 >= shape[a]
    ensures Next(shape[..|was|], was) == Zeros(|was|)
  {
    if was != [] {
      NextWraps(shape, was[..|was| - 1]);
      assert shape[..|was|][..|was| - 1] == shape[..|was| - 1];
    }
  }

  lemma StepUp(w: RegionWalk, was: seq<nat>, now: seq<nat>, axis: nat)
    requires WalkFits(w) && axis < |was| && Wrapped(w, was, now, axis + 1)
    requires was[axis] + 1 < w.extent[axis]
    ensures now[axis := now[axis] + 1] == Next(w.extent[..|was|], was)
    ensures OuterIndex(w, now[axis := now[axis] + 1])
    ensures w.start + Dot(w.stride, now[axis := now[axis] + 1]) ==
      w.start + Dot(w.stride, now) + w.stride[axis] <= w.maxOffset
  {
    OuterBounded(w, now[axis := now[axis] + 1]);
    DotStep(w.stride, now, axis);
    NextAtAxis(w.extent, was, now[axis := now[axis] + 1], axis);
  }

  lemma GiveBack(w: RegionWalk, was: seq<nat>, now: seq<nat>, axis: nat, count: nat, stride: nat)
    requires WalkFits(w) && axis < |was| && Wrapped(w, was, now, axis + 1)
    requires was[axis] + 1 >= w.extent[axis]
    requires count == was[axis] && stride == w.stride[axis]
    ensures Wrapped(w, was, now[axis := 0], axis)
    ensures Dot(w.stride, now[axis := 0]) + Times(count, stride) == Dot(w.stride, now)
  {
    DotUpdate(w.stride, now, axis, 0);
  }

  /** One odometer step over the outer counter. A wrapping axis gives back what it had
      accumulated before the next axis advances, so the offset never leaves the region,
      whatever the strides are. */
  method AdvanceRegion(w: RegionWalk, was: seq<nat>, offset: usize) returns (counter: seq<nat>, moved: usize)
    requires WalkFits(w) && OuterIndex(w, was) && offset == w.start + Dot(w.stride, was)
    ensures OuterIndex(w, counter) && counter == Next(w.extent[..|was|], was)
    ensures w.start <= moved == w.start + Dot(w.stride, counter) <= w.maxOffset
  {
    counter, moved := was, offset;
    OuterBounded(w, was);
    for axis := |was| downto 0
      invariant Wrapped(w, was, counter, axis)
      invariant w.start + Dot(w.stride, counter) == moved <= w.maxOffset
    {
      var count, stride := counter[axis], w.stride[axis];
      if count + 1 < w.extent[axis] {
        StepUp(w, was, counter, axis);
        counter := counter[axis := count + 1];
        moved := moved + stride;
        return;
      }
      GiveBack(w, was, counter, axis, count, stride);
      var give := Multiply(count, stride);
      moved := moved - give;
      counter := counter[axis := 0];
    }
    NextWraps(w.extent, was);
  }
}
