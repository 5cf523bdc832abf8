/** The plan of a distributed transpose. */
module Plans {
  // Two distributions over one process grid that differ in the axis split along a single topology axis, and
  // the regions each pair of ranks exchanges.

  import opened MachineInts
  import opened Nonlinear
  import opened MixedRadix
  import opened Counting
  import opened Axis
  import opened Geometry
  import opened Pencil
  import opened RegionWalks
  import opened Segments

  datatype TransposeError =
    | IncompatibleTopology
    | IncompatibleGlobalShape
    | UnsupportedDecompositionChange
    | WorkspaceTooSmall
    | CountOverflow
    | PreparationFailed

  /** The sum of the first `q` lengths: the displacement of segment `q`. */
  function PrefixSum(lens: seq<nat>, q: nat): nat
    requires q <= |lens|
  {
    if q == 0 then 0 else PrefixSum(lens, q - 1) + lens[q - 1]
  }

  lemma {:induction false} PrefixSumMonotone(lens: seq<nat>, q: nat, q': nat)
    requires q < q' <= |lens|
    ensures PrefixSum(lens, q) + lens[q] <= PrefixSum(lens, q')
  {
    if q + 1 < q' {
      PrefixSumMonotone(lens, q, q' - 1);
    }
  }

  ghost predicate ScaledBy(s: seq<nat>, extraCount: nat, scaled: seq<nat>) {
    |scaled| == |s| && forall q :: 0 <= q < |s| ==> scaled[q] == Times(s[q], extraCount)
  }

  lemma {:induction false} ScaledPrefix(lens: seq<nat>, scaled: seq<nat>, factor: nat, q: nat)
    requires q <= |lens| && ScaledBy(lens, factor, scaled)
    ensures PrefixSum(scaled, q) == Times(PrefixSum(lens, q), factor)
  {
    TimesIs(0, factor);
    if q != 0 {
      ScaledPrefix(lens, scaled, factor, q - 1);
      TimesDistribute(PrefixSum(lens, q - 1), lens[q - 1], factor);
    }
  }

  /** Lengths proportional to the parts of an axis add up to that multiple of the axis. */
  lemma {:induction false} PrefixSumOfParts(lens: seq<nat>, n: nat, others: nat, q: nat)
    requires q <= |lens| && 0 < |lens|
    requires forall i :: 0 <= i < |lens| ==> lens[i] == Times(Part(n, |lens|, i).Len(), others)
    ensures PrefixSum(lens, q) == Times(PartitionStart(n, |lens|, q), others)
    ensures q == |lens| ==> PrefixSum(lens, q) == Times(n, others)
  {
    PartitionEnds(n, |lens|);
    if q != 0 {
      PrefixSumOfParts(lens, n, others, q - 1);
      PartitionMonotone(n, |lens|, q - 1, q);
      TimesDistribute(PartitionStart(n, |lens|, q - 1), Part(n, |lens|, q - 1).Len(), others);
    }
  }

  datatype Plan = Plan(source: Distribution, destination: Distribution, axis: nat) {
    ghost predicate Valid() {
      && source.Valid() && destination.Valid()
      && source.grid == destination.grid && source.shape == destination.shape
      && axis < |source.grid| && ChangedOnlyAt(source.decomposition, destination.decomposition, axis)
    }

    /** The number of ranks along the changed topology axis. */
    function Peers(): nat
      requires axis < |source.grid|
    {
      source.grid[axis]
    }

    ghost predicate Rank(c: seq<nat>) { InBounds(source.grid, c) }

    /** The peer at coordinate `q` of the line through `c`. */
    function PeerOf(c: seq<nat>, q: nat): seq<nat>
      requires axis < |c|
    {
      c[axis := q]
    }

    function SendRegion(c: seq<nat>, q: nat): (region: Box)
      requires Fits(c)
      ensures |region| == |source.shape|
    {
      Intersect(source.RangesAt(c), destination.RangesAt(PeerOf(c, q)))
    }

    function ReceiveRegion(c: seq<nat>, q: nat): (region: Box)
      requires Fits(c)
      ensures |region| == |source.shape|
    {
      Intersect(source.RangesAt(PeerOf(c, q)), destination.RangesAt(c))
    }

    predicate Fits(c: seq<nat>) {
      && axis < |c| == |source.grid| == |source.decomposition| == |destination.grid| == |destination.decomposition|
      && |source.shape| == |destination.shape| && Positive(source.grid) && Positive(destination.grid)
    }

    function SendLens(c: seq<nat>): (lens: seq<nat>)
      requires Fits(c)
      ensures |lens| == Peers()
    {
      seq(Peers(), q requires 0 <= q < Peers() => Volume(SendRegion(c, q)))
    }

    function ReceiveLens(c: seq<nat>): (lens: seq<nat>)
      requires Fits(c)
      ensures |lens| == Peers()
    {
      seq(Peers(), q requires 0 <= q < Peers() => Volume(ReceiveRegion(c, q)))
    }

    function SendSegment(c: seq<nat>, q: nat): Segment
      requires Fits(c) && q < Peers()
    {
      Segment(SendRegion(c, q), SendLens(c)[q], PrefixSum(SendLens(c), q))
    }

    function ReceiveSegment(c: seq<nat>, q: nat): Segment
      requires Fits(c) && q < Peers()
    {
      Segment(ReceiveRegion(c, q), ReceiveLens(c)[q], PrefixSum(ReceiveLens(c), q))
    }

    function SendSegments(c: seq<nat>): (s: seq<Segment>)
      requires Fits(c)
      ensures |s| == Peers()
    {
      seq(Peers(), q requires 0 <= q < Peers() => SendSegment(c, q))
    }

    function ReceiveSegments(c: seq<nat>): (s: seq<Segment>)
      requires Fits(c)
      ensures |s| == Peers()
    {
      seq(Peers(), q requires 0 <= q < Peers() => ReceiveSegment(c, q))
    }

    /** The same exchange seen from the receiving side. */
    function Reverse(): Plan { Plan(destination, source, axis) }
  }

  ghost predicate ChangedOnlyAt(a: seq<nat>, b: seq<nat>, axis: nat) {
    && |a| == |b| && axis < |a| && a[axis] != b[axis]
    && forall i :: 0 <= i < |a| && i != axis ==> a[i] == b[i]
  }

  /** Accepts exactly the pairs that differ at one position, and names that position. */
  method ValidatePlanLayout(source: Distribution, destination: Distribution, sameTopology: bool)
    returns (r: Result<nat, TransposeError>)
    requires |source.decomposition| == |destination.decomposition|
    ensures !sameTopology ==> r == Err(IncompatibleTopology)
    ensures sameTopology && source.shape != destination.shape ==> r == Err(IncompatibleGlobalShape)
    ensures sameTopology && source.shape == destination.shape && r.Err? ==> r.error == UnsupportedDecompositionChange
    ensures sameTopology && source.shape == destination.shape ==>
      (r.Ok? <==> exists axis :: ChangedOnlyAt(source.decomposition, destination.decomposition, axis))
    ensures r.Ok? ==> ChangedOnlyAt(source.decomposition, destination.decomposition, r.value)
  {
    if !sameTopology {
      return Err(IncompatibleTopology);
    }
    if source.shape != destination.shape {
      return Err(IncompatibleGlobalShape);
    }
    var changed: Option<nat> := None;
    for axis := 0 to |source.decomposition|
      invariant changed.Some? ==>
        changed.value < axis && source.decomposition[changed.value] != destination.decomposition[changed.value]
      invariant forall i :: 0 <= i < axis && changed != Some(i) ==>
        source.decomposition[i] == destination.decomposition[i]
    {
      if source.decomposition[axis] != destination.decomposition[axis] {
        if changed.Some? {
          return Err(UnsupportedDecompositionChange);
        }
        changed := Some(axis);
      }
    }
    if changed.Some? {
      assert ChangedOnlyAt(source.decomposition, destination.decomposition, changed.value);
      return Ok(changed.value);
    }
    return Err(UnsupportedDecompositionChange);
  }

  function Intersect(left: Box, right: Box): (box: Box)
    requires |left| == |right|
    ensures |box| == |left|
  {
    seq(|left|, a requires 0 <= a < |left| => IntersectAxis(left[a], right[a]))
  }

  function IntersectAxis(left: Range, right: Range): Range {
    var start, end := Max(left.start, right.start), Min(left.end, right.end);
    if start < end then Range(start, end) else Range(start, start)
  }

  lemma IntersectIsBoth(left: Box, right: Box, g: seq<nat>)
    requires |left| == |right|
    ensures InBox(Intersect(left, right), g) <==> InBox(left, g) && InBox(right, g)
  {
    if InBox(Intersect(left, right), g) {
      forall a | 0 <= a < |left| ensures left[a].Contains(g[a]) && right[a].Contains(g[a]) {
        assert Intersect(left, right)[a].Contains(g[a]);
      }
    }
  }

  lemma IntersectCovered(left: Box, right: Box)
    requires |left| == |right| && FitsUsize(left) && FitsUsize(right)
    ensures Ordered(Intersect(left, right)) && FitsUsize(Intersect(left, right))
    ensures 0 < Volume(Intersect(left, right)) ==>
      Covers(left, Intersect(left, right)) && Covers(right, Intersect(left, right))
  {
    PositiveProduct(Shape(Intersect(left, right)));
    if 0 < Volume(Intersect(left, right)) {
      forall a | 0 <= a < |left| ensures Intersect(left, right)[a].start < Intersect(left, right)[a].end {
        assert 0 < Shape(Intersect(left, right))[a];
      }
    }
  }

  lemma ReverseIsValid(p: Plan)
    requires p.Valid()
    ensures p.Reverse().Valid()
  {
  }

  /** What `c` sends to its peer `q` is exactly what that peer receives from `c`. */
  lemma RegionsAgree(p: Plan, c: seq<nat>, q: nat)
    requires p.Valid() && p.Rank(c) && q < p.Peers()
    ensures p.Rank(p.PeerOf(c, q)) && p.Fits(c) && p.Fits(p.PeerOf(c, q))
    ensures p.SendRegion(c, q) == p.ReceiveRegion(p.PeerOf(c, q), c[p.axis])
    ensures p.ReceiveRegion(c, q) == p.SendRegion(p.PeerOf(c, q), c[p.axis])
  {
    assert p.PeerOf(p.PeerOf(c, q), c[p.axis]) == c;
  }

  /** Receive regions are the reverse plan's send regions. */
  lemma ReverseRegions(p: Plan, c: seq<nat>, q: nat)
    requires p.Valid() && p.Rank(c) && q < p.Peers()
    ensures p.Fits(c) && p.Reverse().Fits(c)
    ensures p.ReceiveRegion(c, q) == p.Reverse().SendRegion(c, q)
  {
    var s, d := p.source.RangesAt(p.PeerOf(c, q)), p.destination.RangesAt(c);
    forall a | 0 <= a < |s| ensures IntersectAxis(s[a], d[a]) == IntersectAxis(d[a], s[a]) {
    }
  }

  /** Index `g` of the box of `c` goes to exactly one peer: the destination owner's coordinate. */
  lemma SendRegionsTile(p: Plan, c: seq<nat>, q: nat, g: seq<nat>)
    requires p.Valid() && p.Rank(c) && q < p.Peers() && InBounds(p.source.shape, g)
    requires InBox(p.source.RangesAt(c), g)
    ensures p.destination.OwnerOf(g) == p.PeerOf(c, p.destination.OwnerOf(g)[p.axis])
    ensures p.destination.OwnerOf(g)[p.axis] < p.Peers()
    ensures InBox(p.SendRegion(c, q), g) <==> q == p.destination.OwnerOf(g)[p.axis]
  {
    var there := p.destination.OwnerOf(g);
    BoxesTile(p.source, g, c);
    assert c == p.source.OwnerOf(g);
    assert there == p.PeerOf(c, there[p.axis]);
    BoxesTile(p.destination, g, p.PeerOf(c, q));
    IntersectIsBoth(p.source.RangesAt(c), p.destination.RangesAt(p.PeerOf(c, q)), g);
    assert p.PeerOf(c, q)[p.axis] == q;
  }

  lemma ReceiveRegionsTile(p: Plan, c: seq<nat>, q: nat, g: seq<nat>)
    requires p.Valid() && p.Rank(c) && q < p.Peers() && InBounds(p.source.shape, g)
    requires InBox(p.destination.RangesAt(c), g)
    ensures p.source.OwnerOf(g) == p.PeerOf(c, p.source.OwnerOf(g)[p.axis])
    ensures p.source.OwnerOf(g)[p.axis] < p.Peers()
    ensures InBox(p.ReceiveRegion(c, q), g) <==> q == p.source.OwnerOf(g)[p.axis]
  {
    ReverseIsValid(p);
    ReverseRegions(p, c, q);
    SendRegionsTile(p.Reverse(), c, q, g);
  }

  lemma SendRegionsDisjoint(p: Plan, c: seq<nat>)
    requires p.Valid() && p.Rank(c)
    ensures p.Fits(c) && DisjointRegions(p.SendSegments(c))
  {
    forall q, q', g | 0 <= q < q' < p.Peers() ensures !(InBox(p.SendRegion(c, q), g) && InBox(p.SendRegion(c, q'), g)) {
      if InBox(p.SendRegion(c, q), g) && InBox(p.SendRegion(c, q'), g) {
        IntersectIsBoth(p.source.RangesAt(c), p.destination.RangesAt(p.PeerOf(c, q)), g);
        BoxInShape(p.source, c, g);
        SendRegionsTile(p, c, q, g);
        SendRegionsTile(p, c, q', g);
      }
    }
  }

  lemma ReceiveRegionsDisjoint(p: Plan, c: seq<nat>)
    requires p.Valid() && p.Rank(c)
    ensures p.Fits(c) && DisjointRegions(p.ReceiveSegments(c))
  {
    ReverseIsValid(p);
    SendRegionsDisjoint(p.Reverse(), c);
    forall q | 0 <= q < p.Peers() ensures p.ReceiveSegments(c)[q].region == p.Reverse().SendSegments(c)[q].region {
      ReverseRegions(p, c, q);
    }
  }

  /** Along every axis but the cut one, a send region is as long as the local box. */
  lemma SendRegionAxis(p: Plan, c: seq<nat>, q: nat, a: nat)
    requires p.Valid() && p.Rank(c) && q < p.Peers() && a < |p.source.shape|
    ensures p.Fits(c)
    ensures var cut := p.destination.decomposition[p.axis];
      && (a == cut ==> p.source.RangesAt(c)[a] == Range(0, p.source.shape[cut]))
      && p.SendRegion(c, q)[a].Len() ==
        (if a == cut then Part(p.source.shape[cut], p.Peers(), q) else p.source.RangesAt(c)[a]).Len()
  {
    var cut := p.destination.decomposition[p.axis];
    var mine, theirs := p.source.RangesAt(c), p.destination.RangesAt(p.PeerOf(c, q));
    hide PartitionStart;
    if a == cut {
      assert Find(p.source.decomposition, cut).None?;
      assert mine[cut] == Range(0, p.source.shape[cut]);
      assert Find(p.destination.decomposition, cut) == Some(p.axis);
      PartitionTiles(p.source.shape[cut], p.Peers());
    } else {
      OtherAxis(p, c, q, a);
    }
  }

  lemma OtherAxis(p: Plan, c: seq<nat>, q: nat, a: nat)
    requires p.Valid() && p.Rank(c) && q < p.Peers() && a < |p.source.shape|
    requires a != p.destination.decomposition[p.axis]
    ensures p.Fits(c)
    ensures IntersectAxis(p.source.RangesAt(c)[a], p.destination.RangesAt(p.PeerOf(c, q))[a]).Len() ==
      p.source.RangesAt(c)[a].Len()
  {
    var mine, theirs := p.source.RangesAt(c), p.destination.RangesAt(p.PeerOf(c, q));
    LayoutValid(p.source, c);
    hide PartitionStart;
    match Find(p.destination.decomposition, a) {
      case None => assert theirs[a] == Range(0, p.source.shape[a]);
      case Some(t) =>
        assert p.source.decomposition[t] == a && Find(p.source.decomposition, a) == Some(t);
        assert theirs[a] == mine[a];
    }
  }

  /** A send region is the local box with one axis cut to the peer's part of it. */
  lemma SendRegionShape(p: Plan, c: seq<nat>, q: nat)
    requires p.Valid() && p.Rank(c) && q < p.Peers()
    ensures p.Fits(c)
    ensures var cut := p.destination.decomposition[p.axis];
      && Shape(p.source.RangesAt(c))[cut] == p.source.shape[cut]
      && Shape(p.SendRegion(c, q)) == Shape(p.source.RangesAt(c))[cut := Part(p.source.shape[cut], p.Peers(), q).Len()]
  {
    hide Part;
    var cut := p.destination.decomposition[p.axis];
    SendRegionAxis(p, c, q, cut);
    forall a | 0 <= a < |p.source.shape|
      ensures Shape(p.SendRegion(c, q))[a] ==
        Shape(p.source.RangesAt(c))[cut := Part(p.source.shape[cut], p.Peers(), q).Len()][a]
    {
      SendRegionAxis(p, c, q, a);
    }
  }

  /** Product of the local extents other than the cut one. */
  ghost function Others(p: Plan, c: seq<nat>): nat
    requires p.Valid() && p.Rank(c)
  {
    var cut := p.destination.decomposition[p.axis];
    Product(Shape(p.source.RangesAt(c))[..cut] + Shape(p.source.RangesAt(c))[cut + 1..])
  }

  lemma SendVolume(p: Plan, c: seq<nat>, q: nat)
    requires p.Valid() && p.Rank(c) && q < p.Peers()
    ensures p.Fits(c)
    ensures var n := p.source.shape[p.destination.decomposition[p.axis]];
      && Volume(p.SendRegion(c, q)) == Times(Part(n, p.Peers(), q).Len(), Others(p, c))
      && Volume(p.source.RangesAt(c)) == Times(n, Others(p, c))
  {
    var cut := p.destination.decomposition[p.axis];
    var shape := Shape(p.source.RangesAt(c));
    var len := Part(p.source.shape[cut], p.Peers(), q).Len();
    SendRegionShape(p, c, q);
    hide Product;
    ProductUpdate(shape, cut, len);
    ProductRemove(shape, cut);
    TimesComm(Others(p, c), len);
    TimesComm(Others(p, c), shape[cut]);
  }

  /** Together the send segments hold the whole local box. */
  lemma SendTotal(p: Plan, c: seq<nat>)
    requires p.Valid() && p.Rank(c)
    ensures p.Fits(c) && PrefixSum(p.SendLens(c), p.Peers()) == Volume(p.source.RangesAt(c))
  {
    var n := p.source.shape[p.destination.decomposition[p.axis]];
    forall i | 0 <= i < p.Peers() ensures p.SendLens(c)[i] == Times(Part(n, p.Peers(), i).Len(), Others(p, c)) {
      SendVolume(p, c, i);
    }
    SendVolume(p, c, 0);
    PrefixSumOfParts(p.SendLens(c), n, Others(p, c), p.Peers());
  }

  /** The segments of a plan are well placed: what packing and unpacking rely on. */
  lemma SendSegmented(p: Plan, c: seq<nat>)
    requires p.Valid() && p.Rank(c)
    ensures p.Fits(c) && Segmented(p.source.LayoutAt(c), p.SendSegments(c), p.source.LayoutAt(c).Len())
  {
    var l, segments := p.source.LayoutAt(c), p.SendSegments(c);
    LayoutValid(p.source, c);
    SendTotal(p, c);
    forall q | 0 <= q < |segments| ensures Placed(l, segments[q], l.Len()) {
      RegionsAgree(p, c, q);
      LayoutValid(p.destination, p.PeerOf(c, q));
      IntersectCovered(p.source.RangesAt(c), p.destination.RangesAt(p.PeerOf(c, q)));
      PrefixSumMonotone(p.SendLens(c), q, p.Peers());
    }
    forall q, q' | 0 <= q < q' < |segments|
      ensures segments[q].displacement + segments[q].len <= segments[q'].displacement
    {
      PrefixSumMonotone(p.SendLens(c), q, q');
    }
  }

  lemma ReceiveSegmented(p: Plan, c: seq<nat>)
    requires p.Valid() && p.Rank(c)
    ensures p.Fits(c) && Segmented(p.destination.LayoutAt(c), p.ReceiveSegments(c), p.destination.LayoutAt(c).Len())
  {
    ReverseIsValid(p);
    SendSegmented(p.Reverse(), c);
    forall q | 0 <= q < p.Peers() ensures p.ReceiveRegion(c, q) == p.Reverse().SendRegion(c, q) {
      ReverseRegions(p, c, q);
    }
    assert p.ReceiveLens(c) == p.Reverse().SendLens(c);
    assert p.ReceiveSegments(c) == p.Reverse().SendSegments(c);
  }
}
