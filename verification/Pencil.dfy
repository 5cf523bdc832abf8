/** Distributions of a global array over a process grid, and the local layout each rank stores. */
module Pencil {
  // Its box of global indices, in permuted row-major order.

  import opened MachineInts
  import opened Nonlinear
  import opened MixedRadix
  import opened Counting
  import opened Axis
  import opened Geometry

  type Box = seq<Range>

  ghost predicate InBox(box: Box, g: seq<nat>) {
    |g| == |box| && forall a :: 0 <= a < |box| ==> box[a].Contains(g[a])
  }

  predicate Ordered(box: Box) {
    forall a :: 0 <= a < |box| ==> box[a].start <= box[a].end
  }

  predicate FitsUsize(box: Box) {
    forall a :: 0 <= a < |box| ==> box[a].start <= USIZE_MAX && box[a].end <= USIZE_MAX
  }

  function Shape(box: Box): (shape: seq<nat>)
    ensures |shape| == |box|
  {
    seq(|box|, a requires 0 <= a < |box| => box[a].Len())
  }

  function Volume(box: Box): nat {
    Product(Shape(box))
  }

  /** The index of `g` relative to the start corner of `box`. */
  function Relative(box: Box, g: seq<nat>): (x: seq<nat>)
    requires |g| == |box| && forall a :: 0 <= a < |box| ==> box[a].start <= g[a]
    ensures |x| == |box|
  {
    seq(|box|, a requires 0 <= a < |box| => g[a] - box[a].start)
  }

  function Shifted(box: Box, x: seq<nat>): (g: seq<nat>)
    requires |x| == |box|
    ensures |g| == |box|
  {
    seq(|box|, a requires 0 <= a < |box| => box[a].start + x[a])
  }

  lemma RelativeInBounds(box: Box, g: seq<nat>)
    requires InBox(box, g)
    ensures InBounds(Shape(box), Relative(box, g)) && Shifted(box, Relative(box, g)) == g
  {
  }

  lemma ShiftedInBox(box: Box, x: seq<nat>)
    requires InBounds(Shape(box), x)
    ensures InBox(box, Shifted(box, x)) && Relative(box, Shifted(box, x)) == x
  {
  }

  /** Position of `g` in the global row-major enumeration of `box`: its place in a payload. */
  function PlaceIn(box: Box, g: seq<nat>): nat
    requires |g| == |box| && forall a :: 0 <= a < |box| ==> box[a].start <= g[a]
  {
    Linear(Shape(box), Relative(box, g))
  }

  /** The `k`-th index of `box` in global row-major order. */
  function IndexAt(box: Box, k: nat): seq<nat>
    requires k < Volume(box)
  {
    PositiveProduct(Shape(box));
    Shifted(box, Digits(Shape(box), k))
  }

  /** `PlaceIn` and `IndexAt` number the indices of a box by `0..Volume(box)`. */
  lemma PlaceRoundTrip(box: Box, g: seq<nat>)
    requires InBox(box, g)
    ensures PlaceIn(box, g) < Volume(box) && IndexAt(box, PlaceIn(box, g)) == g
  {
    RelativeInBounds(box, g);
    LinearBound(Shape(box), Relative(box, g));
    DigitsOfLinear(Shape(box), Relative(box, g));
  }

  lemma IndexRoundTrip(box: Box, k: nat)
    requires k < Volume(box)
    ensures InBox(box, IndexAt(box, k)) && PlaceIn(box, IndexAt(box, k)) == k
  {
    LinearOfDigits(Shape(box), k);
    ShiftedInBox(box, Digits(Shape(box), k));
  }

  lemma EmptyBox(box: Box)
    requires Volume(box) == 0
    ensures forall g :: !InBox(box, g)
  {
    forall g | InBox(box, g) ensures false {
      PlaceRoundTrip(box, g);
    }
  }

  /** One rank's box and memory order. */
  datatype LocalLayout = LocalLayout(ranges: Box, permutation: AxisPermutation) {
    ghost predicate Valid() {
      && 0 < |ranges|
      && permutation.Valid(|ranges|)
      && Ordered(ranges)
      && FitsUsize(ranges)
      && (forall k :: 0 <= k <= |ranges| ==> Product(ShapeMemory()[k..]) <= USIZE_MAX)
    }

    function ShapeMemory(): (shape: seq<nat>)
      requires forall p :: 0 <= p < |permutation.axes| ==> permutation.axes[p] < |ranges|
      ensures |shape| == |permutation.axes|
    {
      permutation.Permute(Shape(ranges))
    }

    function Len(): nat { Volume(ranges) }

    /** Storage offset, inside one extra block, of global index `g`. */
    function Offset(g: seq<nat>): nat
      requires forall p :: 0 <= p < |permutation.axes| ==> permutation.axes[p] < |ranges|
      requires |g| == |ranges| && forall a :: 0 <= a < |ranges| ==> ranges[a].start <= g[a]
    {
      Linear(ShapeMemory(), permutation.Permute(Relative(ranges, g)))
    }

    /** The global index stored at a local offset: the decode loop of the source. */
    function IndexOf(offset: nat): seq<nat>
      requires permutation.Valid(|ranges|) && offset < Product(ShapeMemory())
    {
      PositiveProduct(ShapeMemory());
      Shifted(ranges, permutation.Unpermute(Digits(ShapeMemory(), offset)))
    }
  }

  lemma LayoutLen(l: LocalLayout)
    requires l.permutation.Valid(|l.ranges|)
    ensures Product(l.ShapeMemory()) == l.Len()
  {
    PermutedProduct(l.permutation, Shape(l.ranges));
  }

  /** Every index of the box has its own offset below the local length. */
  lemma OffsetRoundTrip(l: LocalLayout, g: seq<nat>)
    requires l.permutation.Valid(|l.ranges|) && InBox(l.ranges, g)
    ensures l.Offset(g) < l.Len() == Product(l.ShapeMemory()) && l.IndexOf(l.Offset(g)) == g
  {
    LayoutLen(l);
    var x := Relative(l.ranges, g);
    RelativeInBounds(l.ranges, g);
    assert InBounds(l.ShapeMemory(), l.permutation.Permute(x));
    LinearBound(l.ShapeMemory(), l.permutation.Permute(x));
    DigitsOfLinear(l.ShapeMemory(), l.permutation.Permute(x));
    PermuteRoundTrip(l.permutation, x);
  }

  /** Every offset below the local length is the offset of an index of the box. */
  lemma IndexOfRoundTrip(l: LocalLayout, offset: nat)
    requires l.permutation.Valid(|l.ranges|) && offset < l.Len()
    ensures offset < Product(l.ShapeMemory())
    ensures InBox(l.ranges, l.IndexOf(offset)) && l.Offset(l.IndexOf(offset)) == offset
  {
    LayoutLen(l);
    LinearOfDigits(l.ShapeMemory(), offset);
    var m := Digits(l.ShapeMemory(), offset);
    var x := l.permutation.Unpermute(m);
    forall a | 0 <= a < |l.ranges| ensures x[a] < Shape(l.ranges)[a] {
      var q := l.permutation.logicalToMemory[a];
      assert l.ShapeMemory()[q] == Shape(l.ranges)[a];
    }
    ShiftedInBox(l.ranges, x);
    PermuteRoundTrip(l.permutation, m);
  }

  lemma OffsetInjective(l: LocalLayout, g: seq<nat>, h: seq<nat>)
    requires l.permutation.Valid(|l.ranges|) && InBox(l.ranges, g) && InBox(l.ranges, h)
    requires l.Offset(g) == l.Offset(h)
    ensures g == h
  {
    OffsetRoundTrip(l, g);
    OffsetRoundTrip(l, h);
  }

  /** The checked offset of in-bounds memory coordinates. */
  method OffsetIn(l: LocalLayout, memory: seq<nat>) returns (r: Option<nat>)
    requires l.Valid() && |memory| == |l.ranges| && InBounds(l.ShapeMemory(), memory)
    ensures r == Some(Linear(l.ShapeMemory(), memory))
  {
    LayoutLen(l);
    LinearBound(l.ShapeMemory(), memory);
    assert l.ShapeMemory()[0..] == l.ShapeMemory();
    forall q | 0 <= q < |l.ShapeMemory()| ensures l.ShapeMemory()[q] <= USIZE_MAX {
      assert l.ranges[l.permutation.axes[q]].Len() <= USIZE_MAX;
    }
    RowMajorMeaning(l.ShapeMemory(), memory);
    var offset := RowMajorOffset(l.ShapeMemory(), memory);
    return if offset.Ok? then Some(offset.value) else None;
  }

  function Find(s: seq<nat>, x: nat): (r: Option<nat>)
    ensures r.Some? ==> r.value < |s| && s[r.value] == x
    ensures r.None? ==> x !in s
  {
    if s == [] then None
    else if s[|s| - 1] == x then Some(|s| - 1)
    else Find(s[..|s| - 1], x)
  }

  /** A global shape distributed over a process grid. `decomposition[t]` is the spatial axis
      split along grid axis `t`; `permutation` is the memory order on every rank. */
  datatype Distribution = Distribution(
    grid: seq<nat>, shape: seq<nat>, decomposition: seq<nat>, permutation: AxisPermutation)
  {
    ghost predicate Valid() {
      && 0 < |decomposition| == |grid| <= |shape|
      && Positive(grid) && Product(grid) <= COUNT_MAX
      && Positive(shape) && Product(shape) <= USIZE_MAX
      && DistinctAxes(decomposition, |shape|)
      && permutation.Valid(|shape|)
    }

    /** The box owned at process coordinates `coords`. */
    function RangesAt(coords: seq<nat>): (box: Box)
      requires |coords| == |grid| == |decomposition| && Positive(grid)
      ensures |box| == |shape|
    {
      seq(|shape|, a requires 0 <= a < |shape| => AxisRange(shape, grid, coords, decomposition, a))
    }

    function LayoutAt(coords: seq<nat>): LocalLayout
      requires |coords| == |grid| == |decomposition| && Positive(grid)
    {
      LocalLayout(RangesAt(coords), permutation)
    }

    /** The process coordinates that own global index `g`. */
    ghost function OwnerOf(g: seq<nat>): (coords: seq<nat>)
      requires Valid() && InBounds(shape, g)
      ensures |coords| == |grid|
    {
      seq(|grid|, t requires 0 <= t < |grid| =>
        Owner(g[decomposition[t]], shape[decomposition[t]], grid[t]))
    }
  }

  lemma OwnerInBounds(d: Distribution, g: seq<nat>)
    requires d.Valid() && InBounds(d.shape, g)
    ensures InBounds(d.grid, d.OwnerOf(g))
  {
    forall t | 0 <= t < |d.grid| ensures d.OwnerOf(g)[t] < d.grid[t] {
      var a := d.decomposition[t];
      OwnerIsUnique(g[a], d.shape[a], d.grid[t], 0);
    }
  }

  /** The boxes of the grid tile the global array: each index has exactly one owner. */
  lemma BoxesTile(d: Distribution, g: seq<nat>, coords: seq<nat>)
    requires d.Valid() && InBounds(d.shape, g) && InBounds(d.grid, coords)
    ensures InBounds(d.grid, d.OwnerOf(g))
    ensures InBox(d.RangesAt(coords), g) <==> coords == d.OwnerOf(g)
  {
    var owner := d.OwnerOf(g);
    forall t | 0 <= t < |d.grid|
      ensures owner[t] < d.grid[t]
      ensures d.RangesAt(coords)[d.decomposition[t]].Contains(g[d.decomposition[t]]) <==> coords[t] == owner[t]
    {
      var a := d.decomposition[t];
      OwnerIsUnique(g[a], d.shape[a], d.grid[t], coords[t]);
      assert Find(d.decomposition, a) == Some(t);
    }
    if coords == owner {
      forall a | 0 <= a < |d.shape| ensures d.RangesAt(coords)[a].Contains(g[a]) {
        if Find(d.decomposition, a).Some? {
          assert a == d.decomposition[Find(d.decomposition, a).value];
        }
      }
    }
  }

  /** Boxes lie inside the global shape and their layouts meet every size bound. */
  lemma LayoutValid(d: Distribution, coords: seq<nat>)
    requires d.Valid() && InBounds(d.grid, coords)
    ensures d.LayoutAt(coords).Valid()
    ensures forall a :: 0 <= a < |d.shape| ==> d.RangesAt(coords)[a].end <= d.shape[a]
    ensures d.LayoutAt(coords).Len() <= Product(d.shape)
  {
    var l := d.LayoutAt(coords);
    var whole := d.permutation.Permute(d.shape);
    forall a | 0 <= a < |d.shape|
      ensures l.ranges[a].start <= l.ranges[a].end <= d.shape[a]
    {
      match Find(d.decomposition, a) {
        case None =>
        case Some(t) => PartitionTiles(d.shape[a], d.grid[t]);
      }
    }
    PermutedProduct(d.permutation, d.shape);
    assert Positive(whole);
    forall k | 0 <= k <= |l.ranges| ensures Product(l.ShapeMemory()[k..]) <= Product(d.shape) {
      ProductMonotone(l.ShapeMemory()[k..], whole[k..]);
      TailProductBound(whole, k);
    }
    ProductMonotone(Shape(l.ranges), d.shape);
    forall a | 0 <= a < |d.shape| ensures d.shape[a] <= Product(d.shape) {
      AxisBound(d.shape, a);
    }
  }

  /** The box at process coordinates: part `coords[t]` of every decomposed axis, the whole of all others. */
  lemma BoxIs(d: Distribution, coords: seq<nat>, a: nat)
    requires d.Valid() && InBounds(d.grid, coords) && a < |d.shape|
    ensures forall t :: 0 <= t < |d.decomposition| && d.decomposition[t] == a ==>
      && d.RangesAt(coords)[a].start == d.shape[a] * coords[t] / d.grid[t]
      && d.RangesAt(coords)[a].end == d.shape[a] * (coords[t] + 1) / d.grid[t]
    ensures a !in d.decomposition ==> d.RangesAt(coords)[a] == Range(0, d.shape[a])
  {
    forall t | 0 <= t < |d.decomposition| && d.decomposition[t] == a
      ensures Find(d.decomposition, a) == Some(t)
      ensures d.RangesAt(coords)[a].start == d.shape[a] * coords[t] / d.grid[t]
      ensures d.RangesAt(coords)[a].end == d.shape[a] * (coords[t] + 1) / d.grid[t]
    {
      PartitionStartIs(d.shape[a], d.grid[t], coords[t]);
      PartitionStartIs(d.shape[a], d.grid[t], coords[t] + 1);
    }
  }

  /** Memory order: memory axis `q` is spatial axis `axes[q]`. */
  lemma MemoryOrder(d: Distribution, coords: seq<nat>)
    requires d.Valid() && InBounds(d.grid, coords)
    ensures d.LayoutAt(coords).ranges == d.RangesAt(coords)
    ensures |d.LayoutAt(coords).ShapeMemory()| == |d.shape| == |d.permutation.axes|
    ensures forall q :: 0 <= q < |d.shape| ==>
      d.LayoutAt(coords).ShapeMemory()[q] == d.RangesAt(coords)[d.permutation.axes[q]].Len()
  {
  }

  /** The extents of the memory axes, and for each of them the distance of `g` from the start of the box times
      the product of the extents of the later memory axes. */
  ghost predicate InMemoryOrder(axes: seq<nat>, box: Box, g: seq<nat>, extents: seq<nat>, terms: seq<nat>) {
    && |axes| == |extents| == |terms| == |box| == |g|
    && forall q :: 0 <= q < |axes| ==>
         axes[q] < |box| && box[axes[q]].start <= g[axes[q]]
         && extents[q] == box[axes[q]].end - box[axes[q]].start
         && terms[q] == (g[axes[q]] - box[axes[q]].start) * Product(extents[q + 1..])
  }

  lemma PermutedAxes(d: Distribution, coords: seq<nat>, g: seq<nat>)
    requires d.Valid() && InBounds(d.grid, coords) && InBox(d.RangesAt(coords), g)
    ensures |d.permutation.axes| == |d.shape| == |g| == |d.RangesAt(coords)|
    ensures forall q :: 0 <= q < |d.shape| ==> d.permutation.axes[q] < |d.shape|
    ensures forall a :: 0 <= a < |d.shape| ==> d.RangesAt(coords)[a].start <= g[a]
    ensures d.LayoutAt(coords).permutation == d.permutation
  {
  }

  /** The storage offset of a global index, inside its extra group: along memory axis `q` the distance from the
      start of the box, as often as the extents of the later memory axes multiply to. */
  lemma OffsetIs(d: Distribution, coords: seq<nat>, box: Box, g: seq<nat>, extents: seq<nat>, terms: seq<nat>)
    requires d.Valid() && InBounds(d.grid, coords) && box == d.RangesAt(coords) && InBox(box, g)
    requires InMemoryOrder(d.permutation.axes, box, g, extents, terms)
    ensures d.LayoutAt(coords).Offset(g) == Total(terms)
  {
    var l := d.LayoutAt(coords);
    MemoryOrder(d, coords);
    PermutedAxes(d, coords, g);
    LayoutTerms(l, g, extents, terms);
  }

  lemma LayoutTerms(l: LocalLayout, g: seq<nat>, extents: seq<nat>, terms: seq<nat>)
    requires l.permutation.Valid(|l.ranges|) && InBox(l.ranges, g)
    requires InMemoryOrder(l.permutation.axes, l.ranges, g, extents, terms)
    ensures extents == l.ShapeMemory() && l.Offset(g) == Total(terms)
  {
    hide Product;
    assert extents == l.ShapeMemory();
    var index := l.permutation.Permute(Relative(l.ranges, g));
    forall q | 0 <= q < |terms| ensures terms[q] == Times(index[q], Product(extents[q + 1..])) {
      TimesIs(index[q], Product(extents[q + 1..]));
    }
    LinearIsTotalOfTimes(extents, index, terms);
  }

  /** The last memory axis is contiguous. */
  lemma LastAxisIsContiguous(d: Distribution, coords: seq<nat>, g: seq<nat>)
    requires d.Valid() && InBounds(d.grid, coords) && InBox(d.RangesAt(coords), g)
    ensures var a := d.permutation.axes[|d.shape| - 1];
      d.LayoutAt(coords).Offset(g[a := g[a] + 1]) == d.LayoutAt(coords).Offset(g) + 1
  {
    var l, last := d.LayoutAt(coords), |d.shape| - 1;
    var a := d.permutation.axes[last];
    var x, y := Relative(l.ranges, g), Relative(l.ranges, g[a := g[a] + 1]);
    assert y == x[a := x[a] + 1];
    PermuteUpdate(l.permutation, x, a, x[a] + 1);
    assert l.permutation.Permute(y)[..last] == l.permutation.Permute(x)[..last];
  }

  lemma AxisBound(shape: seq<nat>, a: nat)
    requires a < |shape| && Positive(shape)
    ensures shape[a] <= Product(shape)
  {
    TailProductBound(shape, a);
    ProductTail(shape, a);
    PositiveProduct(shape[a + 1..]);
    TimesIs(shape[a], Product(shape[a + 1..]));
    MulMono(1, Product(shape[a + 1..]), shape[a]);
  }

  lemma BoxInShape(d: Distribution, coords: seq<nat>, g: seq<nat>)
    requires d.Valid() && InBounds(d.grid, coords) && InBox(d.RangesAt(coords), g)
    ensures InBounds(d.shape, g)
  {
    LayoutValid(d, coords);
  }

  /** The range of spatial axis `a`: split if some topology axis decomposes it, else whole. */
  function AxisRange(shape: seq<nat>, grid: seq<nat>, coords: seq<nat>, decomposition: seq<nat>, a: nat): Range
    requires a < |shape| && |grid| == |coords| == |decomposition| && Positive(grid)
  {
    match Find(decomposition, a)
    case None => Range(0, shape[a])
    case Some(t) => Part(shape[a], grid[t], coords[t])
  }

  ghost predicate FirstBadCoordinate(grid: seq<nat>, coords: seq<nat>, t: nat, error: GeometryError) {
    && t < |grid| == |coords|
    && coords[t] >= grid[t] && InBounds(grid[..t], coords[..t])
    && error == (if grid[t] == 0 then ZeroProcessExtent(t) else ProcessCoordinateOutOfBounds(t, coords[t], grid[t]))
  }

  /** The loop that narrows one axis per topology axis builds exactly `RangesAt`. */
  method LocalRangesFor(shape: seq<usize>, grid: seq<usize>, coords: seq<usize>, decomposition: seq<usize>)
    returns (r: Result<Box, GeometryError>)
    requires |grid| == |coords| == |decomposition| && DistinctAxes(decomposition, |shape|)
    requires |grid| <= USIZE_MAX
    ensures r.Ok? <==> InBounds(grid, coords)
    ensures r.Ok? ==> |r.value| == |shape|
    ensures r.Ok? ==> forall a :: 0 <= a < |shape| ==> r.value[a] == AxisRange(shape, grid, coords, decomposition, a)
    ensures r.Err? ==> exists t :: FirstBadCoordinate(grid, coords, t, r.error)
  {
    var ranges := seq(|shape|, a requires 0 <= a < |shape| => Range(0, shape[a]));
    for t := 0 to |grid|
      invariant |ranges| == |shape|
      invariant InBounds(grid[..t], coords[..t])
      invariant forall a :: 0 <= a < |shape| ==>
        ranges[a] == AxisRange(shape, grid[..t], coords[..t], decomposition[..t], a)
    {
      if grid[t] == 0 {
        assert FirstBadCoordinate(grid, coords, t, ZeroProcessExtent(t));
        return Err(ZeroProcessExtent(t));
      }
      if coords[t] >= grid[t] {
        assert FirstBadCoordinate(grid, coords, t, ProcessCoordinateOutOfBounds(t, coords[t], grid[t]));
        return Err(ProcessCoordinateOutOfBounds(t, coords[t], grid[t]));
      }
      var axis := decomposition[t];
      var part := PartitionRange(shape[axis], grid[t], coords[t]);
      ranges := ranges[axis := part.value];
      assert decomposition[..t + 1][..t] == decomposition[..t];
    }
    assert grid[..|grid|] == grid && coords[..|grid|] == coords && decomposition[..|grid|] == decomposition;
    return Ok(ranges);
  }
}
