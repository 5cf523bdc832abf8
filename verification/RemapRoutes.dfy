/** Requests of a spatial remap: which rank owns the source of every destination element. */
module RemapRoutes {
  import opened MachineInts
  import opened Nonlinear
  import opened MixedRadix
  import opened Counting
  import opened Axis
  import opened Geometry
  import opened Pencil
  import opened Plans
  import opened Affines

  /** Binary search for the part that holds `index`. Empty parts cannot mislead it: it finds the
      one owner, and fails only outside the axis or without parts. */
  method PartitionOwner(index: usize, extent: usize, parts: usize) returns (r: Result<nat, RemapError>)
    ensures r.Ok? <==> index < extent && 0 < parts
    ensures r.Ok? ==> r.value == Owner(index, extent, parts) < parts
    ensures r.Err? ==> r.error == StructuralInconsistency
  {
    if extent == 0 || index >= extent || parts == 0 {
      return Err(StructuralInconsistency);
    }
    var low: usize, high: usize := 0, parts;
    ghost var owner := Owner(index, extent, parts);
    OwnerIsUnique(index, extent, parts, 0);
    hide Owner;
    hide PartitionStart;
    while low < high
      invariant low <= owner < high <= parts
      decreases high - low
    {
      var middle: usize := low + (high - low) / 2;
      var range := PartitionRange(extent, parts, middle);
      if range.Err? {
        return Err(StructuralInconsistency);
      }
      StartsBefore(index, extent, parts, middle);
      StartsBefore(index, extent, parts, middle + 1);
      if index < range.value.start {
        high := middle;
      } else if index >= range.value.end {
        low := middle + 1;
      } else {
        return Ok(middle);
      }
    }
    return Err(StructuralInconsistency);
  }

  /** The rank that owns a global index of the source. */
  method OwnerRank(d: Distribution, g: seq<nat>) returns (r: Result<nat, RemapError>)
    requires d.Valid() && InBounds(d.shape, g)
    ensures r == Ok(Linear(d.grid, d.OwnerOf(g))) && r.value < Product(d.grid)
  {
    ghost var owner := d.OwnerOf(g);
    var coords: seq<nat> := [];
    for t := 0 to |d.grid|
      invariant coords == owner[..t]
    {
      var a := d.decomposition[t];
      AxisBound(d.shape, a);
      AxisBound(d.grid, t);
      var coordinate := PartitionOwner(g[a], d.shape[a], d.grid[t]);
      if coordinate.Err? {
        return Err(StructuralInconsistency);
      }
      coords := coords + [coordinate.value];
    }
    assert coords == owner;
    OwnerInBounds(d, g);
    LinearBound(d.grid, owner);
    var rank := Linear(d.grid, coords);
    if rank >= Product(d.grid) {
      return Err(StructuralInconsistency);
    }
    return Ok(rank);
  }

  /** The division loop that splits a linear index into coordinates, last axis first. */
  method Decode(shape: seq<nat>, linear: nat) returns (r: Option<seq<nat>>)
    ensures r.Some? <==> linear < Product(shape)
    ensures r.Some? ==> Positive(shape) && r.value == Digits(shape, linear)
  {
    PositiveProduct(shape);
    assert shape[..|shape|] == shape;
    hide Product;
    hide Digits;
    var remainder: nat, index: seq<nat> := linear, [];
    for axis := |shape| downto 0
      invariant |index| == |shape| - axis && Positive(shape[axis..])
      invariant linear < Product(shape) <==> remainder < Product(shape[..axis])
      invariant Positive(shape) ==> Digits(shape, linear) == Digits(shape[..axis], remainder) + index
    {
      if shape[axis] == 0 {
        return None;
      }
      DecodeStep(shape, axis, remainder);
      index := [remainder % shape[axis]] + index;
      remainder := remainder / shape[axis];
    }
    EmptyProduct(shape);
    if remainder != 0 {
      return None;
    }
    return Some(index);
  }

  lemma EmptyProduct(shape: seq<nat>)
    ensures Product(shape[..0]) == 1 && Digits(shape[..0], 0) == []
  {
  }

  lemma DecodeStep(shape: seq<nat>, axis: nat, remainder: nat)
    requires axis < |shape| && 0 < shape[axis]
    ensures remainder / shape[axis] >= 0
    ensures remainder < Product(shape[..axis + 1]) <==> remainder / shape[axis] < Product(shape[..axis])
    ensures Positive(shape) ==>
      Digits(shape[..axis + 1], remainder) == Digits(shape[..axis], remainder / shape[axis]) + [remainder % shape[axis]]
  {
    assert shape[..axis + 1][..axis] == shape[..axis];
    ProductFront(shape, axis);
    hide Product;
    RowsBelow(remainder, shape[axis], Product(shape[..axis]));
  }

  lemma RowsBelow(x: nat, m: nat, n: nat)
    requires 0 < m
    ensures x < Times(n, m) <==> x / m < n
  {
    TimesIs(n, m);
    if n != 0 {
      DivLess(x, n - 1, m);
    }
  }

  /** The local coordinate stored at a memory offset. */
  method LocalCoordinate(l: LocalLayout, memoryLinear: nat) returns (r: Result<seq<nat>, RemapError>)
    requires l.Valid()
    ensures r.Ok? <==> memoryLinear < l.Len()
    ensures r.Ok? ==> memoryLinear < Product(l.ShapeMemory()) && |r.value| == |l.ranges|
    ensures r.Ok? ==>
      Shifted(l.ranges, r.value) == l.IndexOf(memoryLinear) && InBox(l.ranges, Shifted(l.ranges, r.value))
    ensures r.Err? ==> r.error == StructuralInconsistency
  {
    LayoutLen(l);
    if memoryLinear >= l.Len() {
      return Err(StructuralInconsistency);
    }
    var decoded := Decode(l.ShapeMemory(), memoryLinear);
    if decoded.None? {
      return Err(StructuralInconsistency);
    }
    var memory := decoded.value;
    var logical := new nat[|l.ranges|](_ => 0);
    for p := 0 to |l.ranges|
      invariant forall q :: 0 <= q < p ==> logical[l.permutation.axes[q]] == memory[q]
    {
      logical[l.permutation.axes[p]] := memory[p];
    }
    assert logical[..] == l.permutation.Unpermute(memory) by {
      forall a | 0 <= a < |l.ranges| ensures logical[a] == memory[l.permutation.logicalToMemory[a]] {
        assert l.permutation.axes[l.permutation.logicalToMemory[a]] == a;
      }
    }
    IndexOfRoundTrip(l, memoryLinear);
    return Ok(logical[..]);
  }

  /** One destination element's request: the rank that owns its source, and which index it is. */
  datatype Route = Route(owner: nat, globalIndex: nat, destinationOffset: nat)

  datatype Remap = Remap(source: Distribution, destination: Distribution, affine: Affine) {
    ghost predicate Valid() {
      && source.Valid() && destination.Valid()
      && source.grid == destination.grid && source.shape == destination.shape
      && affine.Valid(|source.shape|)
    }

    function Ranks(): nat { Product(source.grid) }

    function SourceAt(rank: nat): LocalLayout
      requires Positive(source.grid) && |source.grid| == |source.decomposition|
    {
      source.LayoutAt(Digits(source.grid, rank))
    }

    function DestinationAt(rank: nat): LocalLayout
      requires Positive(destination.grid) && |destination.grid| == |destination.decomposition|
    {
      destination.LayoutAt(Digits(destination.grid, rank))
    }
  }

  lemma RankLayouts(m: Remap, rank: nat)
    requires m.Valid() && rank < m.Ranks()
    ensures InBounds(m.source.grid, Digits(m.source.grid, rank))
      && Linear(m.source.grid, Digits(m.source.grid, rank)) == rank
    ensures m.SourceAt(rank).Valid() && m.DestinationAt(rank).Valid()
    ensures m.SourceAt(rank).Len() <= USIZE_MAX && m.DestinationAt(rank).Len() <= USIZE_MAX
  {
    LinearOfDigits(m.source.grid, rank);
    LayoutValid(m.source, Digits(m.source.grid, rank));
    LayoutValid(m.destination, Digits(m.source.grid, rank));
  }

  /** The global index of a destination element. */
  ghost function ElementAt(m: Remap, rank: nat, offset: nat): (g: seq<nat>)
    requires m.Valid() && rank < m.Ranks() && offset < m.DestinationAt(rank).Len()
    ensures InBox(m.DestinationAt(rank).ranges, g) && InBounds(m.destination.shape, g)
    ensures m.DestinationAt(rank).Offset(g) == offset
  {
    RankLayouts(m, rank);
    IndexOfRoundTrip(m.DestinationAt(rank), offset);
    BoxInShape(m.destination, Digits(m.destination.grid, rank), m.DestinationAt(rank).IndexOf(offset));
    m.DestinationAt(rank).IndexOf(offset)
  }

  ghost function SourceOf(m: Remap, g: seq<nat>): (s: seq<nat>)
    requires m.Valid() && InBounds(m.destination.shape, g)
    ensures InBounds(m.source.shape, s)
  {
    AffineIsBijection(m.affine, m.source.shape, g);
    m.affine.Apply(m.source.shape, g)
  }

  ghost function RouteAt(m: Remap, rank: nat, offset: nat): (route: Route)
    requires m.Valid() && rank < m.Ranks() && offset < m.DestinationAt(rank).Len()
    ensures route.owner < m.Ranks() && route.globalIndex < Product(m.source.shape) && route.destinationOffset == offset
  {
    var s := SourceOf(m, ElementAt(m, rank, offset));
    OwnerInBounds(m.source, s);
    LinearBound(m.source.grid, m.source.OwnerOf(s));
    LinearBound(m.source.shape, s);
    Route(Linear(m.source.grid, m.source.OwnerOf(s)), Linear(m.source.shape, s), offset)
  }

  lemma ShapeFits(d: Distribution)
    requires d.Valid()
    ensures forall a :: 0 <= a < |d.shape| ==> d.shape[a] <= USIZE_MAX
  {
    forall a | 0 <= a < |d.shape| ensures d.shape[a] <= USIZE_MAX {
      AxisBound(d.shape, a);
    }
  }

  method AddStarts(box: Box, local: seq<nat>) returns (r: Result<seq<nat>, RemapError>)
    requires |local| == |box|
    ensures r.Ok? <==> forall a :: 0 <= a < |box| ==> box[a].start + local[a] <= USIZE_MAX
    ensures r.Ok? ==> r.value == Shifted(box, local)
    ensures r.Err? ==> r.error == RemapError.SizeOverflow
  {
    var global: seq<nat> := [];
    for axis := 0 to |box|
      invariant |global| == axis
      invariant forall a :: 0 <= a < axis ==> global[a] == box[a].start + local[a] <= USIZE_MAX
    {
      var sum := CheckedAdd(box[axis].start, local[axis]);
      if sum.None? {
        return Err(RemapError.SizeOverflow);
      }
      global := global + [sum.value];
    }
    return Ok(global);
  }

  /** Owner and global index of the source of destination index `g`. */
  method RouteOf(m: Remap, offset: nat, g: seq<usize>) returns (r: Result<Route, RemapError>)
    requires m.Valid() && InBounds(m.destination.shape, g)
    ensures r ==
      Ok(Route(Linear(m.source.grid, m.source.OwnerOf(SourceOf(m, g))), Linear(m.source.shape, SourceOf(m, g)), offset))
  {
    ShapeFits(m.source);
    ghost var s := SourceOf(m, g);
    var source, turns := AffineCoordinate(g, m.source.shape, m.affine.signs, m.affine.offsets);
    if source.Err? {
      return Err(StructuralInconsistency);
    }
    assert source.value == s;
    var owner := OwnerRank(m.source, source.value);
    if owner.Err? {
      return Err(StructuralInconsistency);
    }
    LinearBound(m.source.shape, s);
    RowMajorMeaning(m.source.shape, s);
    var linear := RowMajorOffset(m.source.shape, source.value);
    if linear.Err? {
      return Err(StructuralInconsistency);
    }
    return Ok(Route(owner.value, linear.value, offset));
  }

  /** The body of the route loop: none of its checks can fail. */
  method BuildRoute(m: Remap, rank: nat, offset: usize) returns (r: Result<Route, RemapError>)
    requires m.Valid() && rank < m.Ranks() && offset < m.DestinationAt(rank).Len()
    ensures r == Ok(RouteAt(m, rank, offset))
  {
    RankLayouts(m, rank);
    var l := m.DestinationAt(rank);
    ghost var g := ElementAt(m, rank, offset);
    var local := LocalCoordinate(l, offset);
    if local.Err? {
      return Err(StructuralInconsistency);
    }
    ShapeFits(m.destination);
    assert Shifted(l.ranges, local.value) == g;
    var global := AddStarts(l.ranges, local.value);
    if global.Err? {
      return Err(RemapError.SizeOverflow);
    }
    r := RouteOf(m, offset, global.value);
  }

  // ----- Grouping by owner

  ghost predicate SortedByOwner(entries: seq<Route>) {
    forall i, j :: 0 <= i < j < |entries| ==> entries[i].owner <= entries[j].owner
  }

  /** How many entries name rank `q`. */
  ghost function CountOwner(entries: seq<Route>, q: nat): nat {
    if entries == [] then 0
    else CountOwner(entries[..|entries| - 1], q) + if entries[|entries| - 1].owner == q then 1 else 0
  }

  /** How many entries name a rank below `q`. */
  ghost function CountBelow(entries: seq<Route>, q: nat): (n: nat)
    ensures n <= |entries|
  {
    if entries == [] then 0
    else CountBelow(entries[..|entries| - 1], q) + if entries[|entries| - 1].owner < q then 1 else 0
  }

  lemma {:induction false} CountsAdd(entries: seq<Route>, q: nat)
    ensures CountBelow(entries, q) + CountOwner(entries, q) == CountBelow(entries, q + 1)
    ensures CountBelow(entries, 0) == 0
  {
    if entries != [] {
      CountsAdd(entries[..|entries| - 1], q);
    }
  }

  lemma {:induction false} CountAll(entries: seq<Route>, q: nat)
    requires forall i :: 0 <= i < |entries| ==> entries[i].owner < q
    ensures CountBelow(entries, q) == |entries|
  {
    if entries != [] {
      CountAll(entries[..|entries| - 1], q);
    }
  }

  /** Sorted entries name ranks below `q` exactly up to position `CountBelow`. */
  lemma {:induction false} SortedSplit(entries: seq<Route>, q: nat, i: nat)
    requires SortedByOwner(entries) && i < |entries|
    ensures entries[i].owner < q <==> i < CountBelow(entries, q)
  {
    var last := |entries| - 1;
    if entries[last].owner < q {
      CountAll(entries, q);
    } else if i < last {
      SortedSplit(entries[..last], q, i);
    }
  }

  /** Counts depend only on which entries there are, not on their order. */
  lemma {:induction false} CountsOfPermutation(a: seq<Route>, b: seq<Route>, q: nat)
    requires multiset(a) == multiset(b)
    ensures CountOwner(a, q) == CountOwner(b, q) && CountBelow(a, q) == CountBelow(b, q)
    decreases |a|
  {
    if a == [] {
      assert |multiset(b)| == 0;
    } else {
      assert a[|a| - 1] in multiset(b);
      var j :| 0 <= j < |b| && b[j] == a[|a| - 1];
      RemoveBoth(a, b, j);
      CountsOfPermutation(a[..|a| - 1], b[..j] + b[j + 1..], q);
      CountsSplit(b, j, q);
    }
  }

  lemma RemoveBoth(a: seq<Route>, b: seq<Route>, j: nat)
    requires a != [] && j < |b| && b[j] == a[|a| - 1] && multiset(a) == multiset(b)
    ensures multiset(a[..|a| - 1]) == multiset(b[..j] + b[j + 1..])
  {
    var last := b[j];
    assert a == a[..|a| - 1] + [last] && b == b[..j] + [last] + b[j + 1..];
    assert multiset(a) == multiset(a[..|a| - 1]) + multiset{last};
    assert multiset(b) == multiset(b[..j]) + multiset{last} + multiset(b[j + 1..]);
    assert multiset(a[..|a| - 1]) == multiset(a) - multiset{last};
  }

  lemma {:induction false} CountsSplit(b: seq<Route>, j: nat, q: nat)
    requires j < |b|
    ensures CountOwner(b, q) == CountOwner(b[..j] + b[j + 1..], q) + if b[j].owner == q then 1 else 0
    ensures CountBelow(b, q) == CountBelow(b[..j] + b[j + 1..], q) + if b[j].owner < q then 1 else 0
    decreases |b|
  {
    var last := |b| - 1;
    if j == last {
      assert b[..j] + b[j + 1..] == b[..last];
    } else {
      CountsSplit(b[..last], j, q);
      assert (b[..j] + b[j + 1..])[..last - 1] == b[..last][..j] + b[..last][j + 1..];
    }
  }

  /** The unstable sort of the standard library, known to its callers by this contract only: any
      order among entries with the same owner is possible. */
  method SortUnstableByOwner(entries: seq<Route>) returns (sorted: seq<Route>)
    ensures multiset(sorted) == multiset(entries) && SortedByOwner(sorted)
  {
    sorted := [];
    for i := 0 to |entries|
      invariant multiset(sorted) == multiset(entries[..i]) && SortedByOwner(sorted)
    {
      assert entries[..i + 1] == entries[..i] + [entries[i]];
      sorted := InsertByOwner(sorted, entries[i]);
    }
    assert entries[..|entries|] == entries;
  }

  method InsertByOwner(sorted: seq<Route>, entry: Route) returns (r: seq<Route>)
    requires SortedByOwner(sorted)
    ensures multiset(r) == multiset(sorted) + multiset{entry} && SortedByOwner(r)
  {
    var j := |sorted|;
    while 0 < j && entry.owner < sorted[j - 1].owner
      invariant 0 <= j <= |sorted|
      invariant forall k :: j <= k < |sorted| ==> entry.owner < sorted[k].owner
    {
      j := j - 1;
    }
    r := InsertAt(sorted, entry, j);
    forall i, k | 0 <= i < k < |r| ensures r[i].owner <= r[k].owner {
      if 0 < j {
        assert i < j - 1 ==> sorted[i].owner <= sorted[j - 1].owner;
      }
    }
  }

  function InsertAt(s: seq<Route>, entry: Route, j: nat): (r: seq<Route>)
    requires j <= |s|
    ensures multiset(r) == multiset(s) + multiset{entry}
    ensures |r| == |s| + 1
    ensures forall i :: 0 <= i < |r| ==> r[i] == if i < j then s[i] else if i == j then entry else s[i - 1]
  {
    assert s == s[..j] + s[j..];
    s[..j] + [entry] + s[j..]
  }

  /** Every value fits MPI's `Count`. */
  ghost predicate AreCounts(s: seq<nat>) {
    forall i :: 0 <= i < |s| ==> s[i] <= COUNT_MAX
  }

  ghost predicate NoNegative(s: seq<int>) {
    forall i :: 0 <= i < |s| ==> 0 <= s[i]
  }

  /** The values with negative ones replaced by zero. */
  ghost function Clipped(s: seq<int>): (c: seq<nat>)
    ensures |c| == |s| && forall i :: 0 <= i < |s| ==> c[i] == if s[i] < 0 then 0 else s[i]
  {
    seq(|s|, i requires 0 <= i < |s| => if s[i] < 0 then 0 else s[i])
  }

  lemma ClippedSame(s: seq<int>)
    ensures NoNegative(s) ==> Clipped(s) == s
  {
  }

  /** Segments that follow one another and fill the buffer. */
  ghost predicate IsPartition(counts: seq<int>, displacements: seq<int>, total: nat) {
    && NoNegative(counts) && |counts| == |displacements| && PrefixSum(Clipped(counts), |counts|) == total
    && forall q :: 0 <= q < |counts| ==> displacements[q] == PrefixSum(Clipped(counts), q)
  }

  /** Accepts exactly the vectors whose segments follow one another and fill the buffer. Only a negative
      value is reported as an overflow. */
  method ValidatePartitionLayout(counts: seq<count32>, displacements: seq<count32>, logicalLen: usize)
    returns (r: Result<nat, RemapError>)
    ensures r.Ok? <==> IsPartition(counts, displacements, logicalLen)
    ensures r == Ok(logicalLen) || r == Err(StructuralInconsistency) || r == Err(MpiCountOverflow)
    ensures r == Err(MpiCountOverflow) ==> !NoNegative(counts) || !NoNegative(displacements)
  {
    hide Clipped;
    hide IsPartition;
    hide NoNegative;
    if |counts| != |displacements| {
      LengthsDiffer(counts, displacements, logicalLen);
      return Err(StructuralInconsistency);
    }
    ghost var clipped := Clipped(counts);
    var next: usize := 0;
    for q := 0 to |counts|
      invariant next == PrefixSum(clipped, q) <= logicalLen
      invariant forall i :: 0 <= i < q ==> InOrder(counts, displacements, i)
    {
      RefusedAt(counts, displacements, q, logicalLen);
      if counts[q] < 0 || displacements[q] < 0 {
        return Err(MpiCountOverflow);
      }
      if displacements[q] != next {
        return Err(StructuralInconsistency);
      }
      var end := CheckedAdd(displacements[q], counts[q]);
      if end.value > logicalLen {
        return Err(StructuralInconsistency);
      }
      next := end.value;
    }
    Complete(counts, displacements, logicalLen);
    if next != logicalLen {
      return Err(StructuralInconsistency);
    }
    return Ok(next);
  }

  lemma ConsecutiveIsPartition(counts: seq<nat>, displacements: seq<nat>, total: nat)
    requires |counts| == |displacements| && PrefixSum(counts, |counts|) == total
    requires forall q :: 0 <= q < |counts| ==> displacements[q] == PrefixSum(counts, q)
    ensures IsPartition(counts, displacements, total)
  {
    ClippedSame(counts);
  }

  /** Entry `i` is not negative and starts where the entries before it end. */
  ghost predicate InOrder(counts: seq<int>, displacements: seq<int>, i: nat)
    requires i < |counts| == |displacements|
  {
    0 <= counts[i] && displacements[i] == PrefixSum(Clipped(counts), i)
  }

  lemma RefusedAt(counts: seq<int>, displacements: seq<int>, q: nat, total: nat)
    requires q < |counts| == |displacements|
    ensures !InOrder(counts, displacements, q) ==> !IsPartition(counts, displacements, total)
    ensures PrefixSum(Clipped(counts), q + 1) > total ==> !IsPartition(counts, displacements, total)
    ensures counts[q] < 0 || displacements[q] < 0 ==> !NoNegative(counts) || !NoNegative(displacements)
  {
    hide PrefixSum;
    hide Clipped;
    PrefixSumGrows(Clipped(counts), q + 1, |counts|);
  }

  lemma Complete(counts: seq<int>, displacements: seq<int>, total: nat)
    requires |counts| == |displacements| && forall i :: 0 <= i < |counts| ==> InOrder(counts, displacements, i)
    ensures IsPartition(counts, displacements, total) <==> PrefixSum(Clipped(counts), |counts|) == total
  {
    forall i | 0 <= i < |counts| ensures 0 <= counts[i] && displacements[i] == PrefixSum(Clipped(counts), i) {
      assert InOrder(counts, displacements, i);
    }
  }

  lemma LengthsDiffer(counts: seq<int>, displacements: seq<int>, total: nat)
    requires |counts| != |displacements|
    ensures !IsPartition(counts, displacements, total)
  {
  }

  lemma PrefixSumGrows(lens: seq<nat>, q: nat, q': nat)
    requires q <= q' <= |lens|
    ensures PrefixSum(lens, q) <= PrefixSum(lens, q')
  {
    if q < q' {
      PrefixSumMonotone(lens, q, q');
    }
  }

  datatype OwnerRoutes = OwnerRoutes(entries: seq<Route>, counts: seq<nat>, displacements: seq<nat>)

  /** The requests of one rank: one per destination element, sorted by owner, ties in any order. */
  ghost predicate RoutesOf(m: Remap, rank: nat, entries: seq<Route>)
    requires m.Valid() && rank < m.Ranks()
  {
    && |entries| == m.DestinationAt(rank).Len()
    && SortedByOwner(entries) && NoDuplicates(entries)
    && forall i :: 0 <= i < |entries| ==> IsRoute(m, rank, entries[i])
  }

  ghost predicate IsRoute(m: Remap, rank: nat, entry: Route)
    requires m.Valid() && rank < m.Ranks()
  {
    entry.destinationOffset < m.DestinationAt(rank).Len() && entry == RouteAt(m, rank, entry.destinationOffset)
  }

  /** Counts and displacements describe the runs of equal owners. */
  ghost predicate GroupedBy(entries: seq<Route>, ranks: nat, counts: seq<nat>, displacements: seq<nat>) {
    && |counts| == |displacements| == ranks
    && forall q :: 0 <= q < ranks ==> counts[q] == CountOwner(entries, q) && displacements[q] == CountBelow(entries, q)
  }

  ghost function AllRoutes(m: Remap, rank: nat): (entries: seq<Route>)
    requires m.Valid() && rank < m.Ranks()
    ensures |entries| == m.DestinationAt(rank).Len()
  {
    seq(m.DestinationAt(rank).Len(), o requires 0 <= o < m.DestinationAt(rank).Len() => RouteAt(m, rank, o))
  }

  /** Every destination element has exactly one request. */
  lemma RouteFor(m: Remap, rank: nat, entries: seq<Route>, offset: nat) returns (i: nat)
    requires m.Valid() && rank < m.Ranks() && RoutesOf(m, rank, entries) && offset < m.DestinationAt(rank).Len()
    ensures i < |entries| && entries[i] == RouteAt(m, rank, offset)
  {
    var offsets: seq<nat> := seq(|entries|, i requires 0 <= i < |entries| => entries[i].destinationOffset);
    forall j, k | 0 <= j < k < |entries| ensures offsets[j] != offsets[k] {
      assert IsRoute(m, rank, entries[j]) && IsRoute(m, rank, entries[k]);
    }
    forall j | 0 <= j < |entries| ensures offsets[j] < |entries| {
      assert IsRoute(m, rank, entries[j]);
    }
    Pigeonhole(offsets, |entries|);
    assert offset in offsets;
    i :| 0 <= i < |offsets| && offsets[i] == offset;
    assert IsRoute(m, rank, entries[i]);
  }

  method CollectRoutes(m: Remap, rank: nat) returns (r: Result<seq<Route>, RemapError>)
    requires m.Valid() && rank < m.Ranks()
    ensures r == Ok(AllRoutes(m, rank))
  {
    RankLayouts(m, rank);
    var len: usize := m.DestinationAt(rank).Len();
    var entries: seq<Route> := [];
    hide AllRoutes;
    hide RouteAt;
    hide Remap.Valid;
    hide Remap.DestinationAt;
    hide Remap.Ranks;
    hide LocalLayout.Len;
    for offset := 0 to len
      invariant |entries| == offset && forall i :: 0 <= i < offset ==> entries[i] == RouteAt(m, rank, i)
    {
      var route := BuildRoute(m, rank, offset);
      if route.Err? {
        return Err(StructuralInconsistency);
      }
      entries := entries + [route.value];
    }
    AllCollected(m, rank, entries);
    return Ok(entries);
  }

  lemma AllCollected(m: Remap, rank: nat, entries: seq<Route>)
    requires m.Valid() && rank < m.Ranks() && |entries| == m.DestinationAt(rank).Len()
    requires forall o :: 0 <= o < |entries| ==> entries[o] == RouteAt(m, rank, o)
    ensures entries == AllRoutes(m, rank)
  {
  }

  method CountOwners(entries: seq<Route>, ranks: nat) returns (counts: seq<nat>)
    requires forall i :: 0 <= i < |entries| ==> entries[i].owner < ranks
    ensures |counts| == ranks && forall q :: 0 <= q < ranks ==> counts[q] == CountOwner(entries, q)
  {
    var owned := new nat[ranks](_ => 0);
    for i := 0 to |entries|
      invariant forall q :: 0 <= q < ranks ==> owned[q] == CountOwner(entries[..i], q)
    {
      assert entries[..i + 1][..i] == entries[..i];
      owned[entries[i].owner] := owned[entries[i].owner] + 1;
    }
    assert entries[..|entries|] == entries;
    return owned[..];
  }

  ghost predicate GroupsFit(entries: seq<Route>, ranks: nat) {
    forall q :: 0 <= q < ranks ==> CountOwner(entries, q) <= COUNT_MAX && CountBelow(entries, q) <= COUNT_MAX
  }

  method GroupEntries(entries: seq<Route>, ranks: nat) returns (r: Result<OwnerRoutes, RemapError>)
    requires |entries| <= USIZE_MAX && SortedByOwner(entries)
    requires forall i :: 0 <= i < |entries| ==> entries[i].owner < ranks
    ensures r.Ok? <==> GroupsFit(entries, ranks)
    ensures r.Ok? ==> r.value.entries == entries && GroupedBy(entries, ranks, r.value.counts, r.value.displacements)
    ensures r.Err? ==> r.error == MpiCountOverflow
  {
    hide IsPartition;
    hide Clipped;
    hide NoNegative;
    hide PrefixSum;
    hide SortedByOwner;
    var owned := CountOwners(entries, ranks);
    var counts: seq<nat>, displacements: seq<nat> := [], [];
    var displacement: usize := 0;
    CountsAdd(entries, 0);
    for q := 0 to ranks
      invariant |counts| == |displacements| == q && AreCounts(counts) && AreCounts(displacements)
      invariant displacement == CountBelow(entries, q)
      invariant forall i :: 0 <= i < q ==>
        counts[i] == CountOwner(entries, i) && displacements[i] == CountBelow(entries, i)
    {
      if owned[q] > COUNT_MAX || displacement > COUNT_MAX {
        return Err(MpiCountOverflow);
      }
      CountsAdd(entries, q);
      counts := counts + [owned[q]];
      displacements := displacements + [displacement];
      var sum := CheckedAdd(displacement, owned[q]);
      if sum.None? {
        return Err(RemapError.SizeOverflow);
      }
      displacement := sum.value;
    }
    CountAll(entries, ranks);
    if displacement != |entries| {
      return Err(StructuralInconsistency);
    }
    GroupsArePartition(entries, ranks, counts, displacements);
    var valid := ValidatePartitionLayout(counts, displacements, |entries|);
    if valid.Err? {
      return Err(StructuralInconsistency);
    }
    return Ok(OwnerRoutes(entries, counts, displacements));
  }

  lemma GroupsArePartition(entries: seq<Route>, ranks: nat, counts: seq<nat>, displacements: seq<nat>)
    requires GroupedBy(entries, ranks, counts, displacements) && CountBelow(entries, ranks) == |entries|
    ensures IsPartition(counts, displacements, |entries|)
  {
    forall q | 0 <= q <= ranks ensures PrefixSum(counts, q) == CountBelow(entries, q) {
      PrefixSumOfCounts(entries, counts, q);
    }
    ConsecutiveIsPartition(counts, displacements, |entries|);
  }

  lemma {:induction false} PrefixSumOfCounts(entries: seq<Route>, counts: seq<nat>, q: nat)
    requires q <= |counts| && forall i :: 0 <= i < |counts| ==> counts[i] == CountOwner(entries, i)
    ensures PrefixSum(counts, q) == CountBelow(entries, q)
  {
    if q == 0 {
      CountsAdd(entries, 0);
    } else {
      PrefixSumOfCounts(entries, counts, q - 1);
      CountsAdd(entries, q - 1);
    }
  }

  /** The routes of one rank. The only failure is a count or displacement beyond MPI's `Count`. */
  method BuildOwnerRoutes(m: Remap, rank: nat) returns (r: Result<OwnerRoutes, RemapError>)
    requires m.Valid() && rank < m.Ranks()
    ensures r.Ok? <==> GroupsFit(AllRoutes(m, rank), m.Ranks())
    ensures r.Ok? ==> RoutesOf(m, rank, r.value.entries)
    ensures r.Ok? ==> GroupedBy(r.value.entries, m.Ranks(), r.value.counts, r.value.displacements)
    ensures r.Err? ==> r.error == MpiCountOverflow
  {
    hide AllRoutes;
    hide RouteAt;
    hide RoutesOf;
    hide GroupedBy;
    hide Remap.Valid;
    hide Remap.DestinationAt;
    hide LocalLayout.Len;
    hide IsRoute;
    hide SortedByOwner;
    hide NoDuplicates;
    RankLayouts(m, rank);
    var collected := CollectRoutes(m, rank);
    if collected.Err? {
      return Err(StructuralInconsistency);
    }
    var entries := SortUnstableByOwner(collected.value);
    SortedRoutes(m, rank, entries);
    r := GroupEntries(entries, m.Ranks());
    SameGroups(entries, AllRoutes(m, rank), m.Ranks());
  }

  lemma SameGroups(entries: seq<Route>, all: seq<Route>, ranks: nat)
    requires multiset(entries) == multiset(all)
    ensures GroupsFit(entries, ranks) <==> GroupsFit(all, ranks)
  {
    forall q | 0 <= q < ranks
      ensures CountOwner(entries, q) == CountOwner(all, q) && CountBelow(entries, q) == CountBelow(all, q)
    {
      CountsOfPermutation(entries, all, q);
    }
  }

  lemma SortedRoutes(m: Remap, rank: nat, entries: seq<Route>)
    requires m.Valid() && rank < m.Ranks() && SortedByOwner(entries)
    requires multiset(entries) == multiset(AllRoutes(m, rank))
    ensures RoutesOf(m, rank, entries) && |entries| == m.DestinationAt(rank).Len()
    ensures forall i :: 0 <= i < |entries| ==> entries[i].owner < m.Ranks()
  {
    var all := AllRoutes(m, rank);
    hide RouteAt;
    hide Remap.Valid;
    hide Remap.DestinationAt;
    hide LocalLayout.Len;
    PermutationFacts(all, entries);
    forall i | 0 <= i < |entries| ensures IsRoute(m, rank, entries[i]) {
      var o :| 0 <= o < |all| && all[o] == entries[i];
    }
  }

  lemma PermutationFacts<T>(a: seq<T>, b: seq<T>)
    requires NoDuplicates(a) && multiset(a) == multiset(b)
    ensures NoDuplicates(b) && |b| == |a| && forall i :: 0 <= i < |b| ==> b[i] in a
  {
    assert |b| == |multiset(b)| == |multiset(a)| == |a|;
    forall i | 0 <= i < |b| ensures b[i] in a {
      assert b[i] in multiset(b);
    }
    forall i, j | 0 <= i < j < |b| ensures b[i] != b[j] {
      if b[i] == b[j] {
        assert b == b[..i] + [b[i]] + b[i + 1..j] + [b[j]] + b[j + 1..];
        assert multiset(b)[b[i]] >= 2;
        OnceInNoDuplicates(a, b[i]);
      }
    }
  }

  lemma {:induction false} OnceInNoDuplicates<T>(a: seq<T>, x: T)
    requires NoDuplicates(a)
    ensures multiset(a)[x] <= 1
  {
    if a != [] {
      var last := |a| - 1;
      assert a == a[..last] + [a[last]];
      OnceInNoDuplicates(a[..last], x);
      assert a[last] !in a[..last];
    }
  }
}
