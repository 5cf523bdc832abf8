/** The transpose over all ranks. */
module TransposeWorlds {
  // A world is one buffer per rank, in the row-major Cartesian numbering of section 7.2 of MPI-3.1; the
  // exchange is section 5.8's Alltoallv.

  import opened MachineInts
  import opened Nonlinear
  import opened MixedRadix
  import opened Axis
  import opened Geometry
  import opened Pencil
  import opened Segments
  import opened Plans
  import opened Transposes

  function RankOf(grid: seq<nat>, c: seq<nat>): nat
    requires |c| == |grid|
  {
    Linear(grid, c)
  }

  /** One buffer per rank, each at least as long as its part of the exchange. */
  ghost predicate WorldOf<T>(d: Distribution, extraCount: nat, world: seq<seq<T>>) {
    && d.Valid() && |world| == Product(d.grid)
    && forall c :: InBounds(d.grid, c) ==>
      RankOf(d.grid, c) < |world| && RankHolds(d, extraCount, c, world[RankOf(d.grid, c)])
  }

  ghost predicate RankHolds<T>(d: Distribution, extraCount: nat, c: seq<nat>, storage: seq<T>)
    requires d.Valid() && InBounds(d.grid, c)
  {
    Times(extraCount, d.LayoutAt(c).Len()) <= |storage|
  }

  /** The value at global index `g` in extra group `e`: read from its owner's storage. */
  ghost function GlobalAt<T>(d: Distribution, extraCount: nat, world: seq<seq<T>>, e: nat, g: seq<nat>): T
    requires WorldOf(d, extraCount, world) && e < extraCount && InBounds(d.shape, g)
  {
    OwnerHolds(d, extraCount, world, e, g, d.OwnerOf(g));
    world[RankOf(d.grid, d.OwnerOf(g))][StorageCell(d.LayoutAt(d.OwnerOf(g)), extraCount, e, g)]
  }

  lemma OwnerHolds<T>(d: Distribution, extraCount: nat, world: seq<seq<T>>, e: nat, g: seq<nat>, c: seq<nat>)
    requires WorldOf(d, extraCount, world) && e < extraCount && InBounds(d.shape, g) && c == d.OwnerOf(g)
    ensures InBounds(d.grid, c) && d.LayoutAt(c).Valid() && InBox(d.LayoutAt(c).ranges, g)
    ensures RankOf(d.grid, c) < |world| && StorageCell(d.LayoutAt(c), extraCount, e, g) < |world[RankOf(d.grid, c)]|
  {
    OwnerInBounds(d, g);
    BoxesTile(d, g, c);
    LayoutValid(d, c);
    hide InBounds;
    hide Distribution.OwnerOf;
    hide Distribution.RangesAt;
    hide Distribution.Valid;
    assert RankHolds(d, extraCount, c, world[RankOf(d.grid, c)]);
  }

  /** In the storage of any rank whose box contains `g`. */
  lemma GlobalAtRank<T>(d: Distribution, extraCount: nat, world: seq<seq<T>>, e: nat, g: seq<nat>, c: seq<nat>)
    requires WorldOf(d, extraCount, world) && e < extraCount && InBounds(d.shape, g)
    requires InBounds(d.grid, c) && InBox(d.RangesAt(c), g)
    ensures d.LayoutAt(c).Valid() && RankOf(d.grid, c) < |world|
    ensures StorageCell(d.LayoutAt(c), extraCount, e, g) < |world[RankOf(d.grid, c)]|
    ensures GlobalAt(d, extraCount, world, e, g) ==
      world[RankOf(d.grid, c)][StorageCell(d.LayoutAt(c), extraCount, e, g)]
  {
    BoxesTile(d, g, c);
    OwnerHolds(d, extraCount, world, e, g, c);
  }

  ghost predicate SameGlobalArray<T>(s: Distribution, source: seq<seq<T>>, d: Distribution, destination: seq<seq<T>>,
                                     extraCount: nat) {
    && WorldOf(s, extraCount, source) && WorldOf(d, extraCount, destination) && s.shape == d.shape
    && forall e, g :: 0 <= e < extraCount && InBounds(d.shape, g) ==>
         GlobalAt(d, extraCount, destination, e, g) == GlobalAt(s, extraCount, source, e, g)
  }

  /** Every cell below the local length is the cell of a global index, so a global array fixes
      the contents of every rank. */
  lemma GlobalArrayFixesStorage<T>(d: Distribution, extraCount: nat, a: seq<seq<T>>, b: seq<seq<T>>, c: seq<nat>,
                                   cell: nat)
    requires SameGlobalArray(d, a, d, b, extraCount) && InBounds(d.grid, c)
      && cell < Times(extraCount, d.LayoutAt(c).Len())
    ensures RankOf(d.grid, c) < |a| == |b| && cell < |a[RankOf(d.grid, c)]| && cell < |b[RankOf(d.grid, c)]|
    ensures a[RankOf(d.grid, c)][cell] == b[RankOf(d.grid, c)][cell]
  {
    var l := d.LayoutAt(c);
    LayoutValid(d, c);
    TimesSplit(cell, extraCount, l.Len());
    var e, offset := cell / l.Len(), cell % l.Len();
    IndexOfRoundTrip(l, offset);
    var g := l.IndexOf(offset);
    BoxInShape(d, c, g);
    assert StorageCell(l, extraCount, e, g) == cell;
    hide GlobalAt;
    hide StorageCell;
    hide WorldOf;
    GlobalAtRank(d, extraCount, a, e, g, c);
    GlobalAtRank(d, extraCount, b, e, g, c);
    assert GlobalAt(d, extraCount, b, e, g) == GlobalAt(d, extraCount, a, e, g);
  }

  /** The segment of a receive buffer that holds cell `i`, among the first `n`. */
  ghost function SegmentHolding(displacements: seq<nat>, counts: seq<nat>, i: nat, n: nat): (q: Option<nat>)
    requires n <= |displacements| == |counts|
    ensures q.Some? ==> q.value < n && displacements[q.value] <= i < displacements[q.value] + counts[q.value]
    ensures q.None? ==> forall r :: 0 <= r < n ==> !(displacements[r] <= i < displacements[r] + counts[r])
  {
    if n == 0 then None
    else if displacements[n - 1] <= i < displacements[n - 1] + counts[n - 1] then Some(n - 1)
    else SegmentHolding(displacements, counts, i, n - 1)
  }

  /** What MPI demands of an Alltoallv call on one line of ranks: full vectors, equal counts at
      both ends of every pair, segments inside the buffers, receive segments apart. */
  ghost predicate Consistent<T>(xs: seq<Exchange>, sent: seq<seq<T>>, before: seq<seq<T>>) {
    && |xs| == |sent| == |before|
    && (forall i :: 0 <= i < |xs| ==>
         |xs[i].sendCounts| == |xs[i].sendDisplacements| == |xs[i].receiveCounts| == |xs[i].receiveDisplacements| ==
           |xs|)
    && (forall i, j :: 0 <= i < |xs| && 0 <= j < |xs| ==> Linked(xs[i], i, xs[j], j, sent[i], before[j]))
    && (forall i, j, k :: 0 <= i < |xs| && 0 <= j < k < |xs| ==>
         xs[i].receiveDisplacements[j] + xs[i].receiveCounts[j] <= xs[i].receiveDisplacements[k])
  }

  ghost predicate Linked<T>(x: Exchange, i: nat, y: Exchange, j: nat, sent: seq<T>, before: seq<T>)
    requires j < |x.sendCounts| == |x.sendDisplacements| && i < |y.receiveCounts| == |y.receiveDisplacements|
  {
    && x.sendCounts[j] == y.receiveCounts[i]
    && x.sendDisplacements[j] + x.sendCounts[j] <= |sent|
    && y.receiveDisplacements[i] + y.receiveCounts[i] <= |before|
  }

  /** The receive buffer of member `me` after Alltoallv. */
  ghost function AllToAllV<T>(xs: seq<Exchange>, me: nat, sent: seq<seq<T>>, before: seq<seq<T>>): (after: seq<T>)
    requires Consistent(xs, sent, before) && me < |xs|
    ensures |after| == |before[me]|
  {
    seq(|before[me]|, i requires 0 <= i < |before[me]| =>
      var held := SegmentHolding(xs[me].receiveDisplacements, xs[me].receiveCounts, i, |xs|);
      if held.None? then before[me][i]
      else
        var q := held.value;
        assert Linked(xs[q], q, xs[me], me, sent[q], before[me]);
        sent[q][xs[q].sendDisplacements[me] + (i - xs[me].receiveDisplacements[q])])
  }

  lemma SegmentArrives<T>(xs: seq<Exchange>, me: nat, q: nat, sent: seq<seq<T>>, before: seq<seq<T>>, k: nat)
    requires Consistent(xs, sent, before) && me < |xs| && q < |xs| && k < xs[me].receiveCounts[q]
    ensures Linked(xs[q], q, xs[me], me, sent[q], before[me])
    ensures AllToAllV(xs, me, sent, before)[xs[me].receiveDisplacements[q] + k] ==
      sent[q][xs[q].sendDisplacements[me] + k]
  {
    var i := xs[me].receiveDisplacements[q] + k;
    var held := SegmentHolding(xs[me].receiveDisplacements, xs[me].receiveCounts, i, |xs|);
    assert held == Some(q);
  }

  /** The exchanges of the ranks on the line through `c`, and their buffers. */
  ghost function LineExchanges(p: Plan, c: seq<nat>, extraCount: nat): (xs: seq<Exchange>)
    requires p.Valid() && p.Rank(c)
    ensures |xs| == p.Peers()
  {
    seq(p.Peers(), q requires 0 <= q < p.Peers() => ExchangeAt(p, p.PeerOf(c, q), extraCount, AllToAllv))
  }

  ghost function LineOf<T>(p: Plan, c: seq<nat>, world: seq<seq<T>>): (line: seq<seq<T>>)
    requires p.Valid() && p.Rank(c) && |world| == Product(p.source.grid)
    ensures |line| == p.Peers()
  {
    LinesInWorld(p, c);
    seq(p.Peers(), q requires 0 <= q < p.Peers() => world[RankOf(p.source.grid, p.PeerOf(c, q))])
  }

  lemma LinesInWorld(p: Plan, c: seq<nat>)
    requires p.Valid() && p.Rank(c)
    ensures forall q :: 0 <= q < p.Peers() ==> RankOf(p.source.grid, p.PeerOf(c, q)) < Product(p.source.grid)
  {
    forall q | 0 <= q < p.Peers() ensures RankOf(p.source.grid, p.PeerOf(c, q)) < Product(p.source.grid) {
      LinearBound(p.source.grid, p.PeerOf(c, q));
    }
  }

  /** The exchanges prepared by the ranks of one line satisfy everything MPI demands. */
  lemma ExchangesConsistent<T>(p: Plan, c: seq<nat>, extraCount: nat, sent: seq<seq<T>>, before: seq<seq<T>>)
    requires p.Valid() && p.Rank(c) && WorldOf(p.source, extraCount, sent) && WorldOf(p.destination, extraCount, before)
    ensures Consistent(LineExchanges(p, c, extraCount), LineOf(p, c, sent), LineOf(p, c, before))
  {
    LineLinked(p, c, extraCount, sent, before);
    LineApart(p, c, extraCount);
    hide ExchangeAt;
    hide Linked;
    hide WorldOf;
  }

  lemma LineLinked<T>(p: Plan, c: seq<nat>, extraCount: nat, sent: seq<seq<T>>, before: seq<seq<T>>)
    requires p.Valid() && p.Rank(c) && WorldOf(p.source, extraCount, sent) && WorldOf(p.destination, extraCount, before)
    ensures forall i, j :: 0 <= i < p.Peers() && 0 <= j < p.Peers() ==>
      Linked(LineExchanges(p, c, extraCount)[i], i, LineExchanges(p, c, extraCount)[j], j, LineOf(p, c, sent)[i],
             LineOf(p, c, before)[j])
  {
    forall i, j | 0 <= i < p.Peers() && 0 <= j < p.Peers()
      ensures Linked(LineExchanges(p, c, extraCount)[i], i, LineExchanges(p, c, extraCount)[j], j,
                     LineOf(p, c, sent)[i], LineOf(p, c, before)[j])
    {
      ExchangesLinked(p, c, extraCount, i, j, LineOf(p, c, sent)[i], LineOf(p, c, before)[j]);
    }
  }

  lemma LineApart(p: Plan, c: seq<nat>, extraCount: nat)
    requires p.Valid() && p.Rank(c)
    ensures var xs := LineExchanges(p, c, extraCount);
      forall i, j, k :: 0 <= i < |xs| && 0 <= j < k < |xs| ==>
        xs[i].receiveDisplacements[j] + xs[i].receiveCounts[j] <= xs[i].receiveDisplacements[k]
  {
    forall i, j, k | 0 <= i < p.Peers() && 0 <= j < k < p.Peers()
      ensures var x := LineExchanges(p, c, extraCount)[i];
        x.receiveDisplacements[j] + x.receiveCounts[j] <= x.receiveDisplacements[k]
    {
      ReceivesApart(p, p.PeerOf(c, i), j, k, extraCount);
    }
  }

  lemma ReceivesApart(p: Plan, c: seq<nat>, j: nat, k: nat, extraCount: nat)
    requires p.Valid() && p.Rank(c) && j < k < p.Peers()
    ensures var x := ExchangeAt(p, c, extraCount, AllToAllv);
      x.receiveDisplacements[j] + x.receiveCounts[j] <= x.receiveDisplacements[k]
  {
    SegmentsApart(p.ReceiveLens(c), j, k, extraCount);
  }

  lemma SegmentsApart(lens: seq<nat>, j: nat, k: nat, extraCount: nat)
    requires j < k <= |lens|
    ensures Times(PrefixSum(lens, j), extraCount) + Times(lens[j], extraCount) <= Times(PrefixSum(lens, k), extraCount)
  {
    PrefixSumMonotone(lens, j, k);
    TimesDistribute(PrefixSum(lens, j), lens[j], extraCount);
    TimesMono(PrefixSum(lens, j) + lens[j], PrefixSum(lens, k), extraCount, extraCount);
  }

  lemma ExchangesLinked<T>(p: Plan, c: seq<nat>, extraCount: nat, i: nat, j: nat, sent: seq<T>, before: seq<T>)
    requires p.Valid() && p.Rank(c) && i < p.Peers() && j < p.Peers()
    requires RankHolds(p.source, extraCount, p.PeerOf(c, i), sent)
      && RankHolds(p.destination, extraCount, p.PeerOf(c, j), before)
    ensures Linked(ExchangeAt(p, p.PeerOf(c, i), extraCount, AllToAllv), i,
                   ExchangeAt(p, p.PeerOf(c, j), extraCount, AllToAllv), j, sent, before)
  {
    var a, b := p.PeerOf(c, i), p.PeerOf(c, j);
    assert p.PeerOf(a, j) == b && p.PeerOf(b, i) == a;
    RegionsAgree(p, a, j);
    SegmentsApart(p.SendLens(a), j, p.Peers(), extraCount);
    SegmentsApart(p.ReceiveLens(b), i, p.Peers(), extraCount);
    SendTotal(p, a);
    ReceiveTotal(p, b);
    TimesComm(extraCount, Volume(p.source.RangesAt(a)));
    TimesComm(extraCount, Volume(p.destination.RangesAt(b)));
  }

  /** Segment `q` of what `c` sent stands where its peer receives it. */
  ghost predicate SegmentDelivered<T>(p: Plan, extraCount: nat, c: seq<nat>, q: nat, sent: seq<T>, received: seq<T>)
    requires p.Valid() && p.Rank(c) && q < p.Peers()
  {
    var s, r := p.SendSegment(c, q), p.ReceiveSegment(p.PeerOf(c, q), c[p.axis]);
    SameSegment(s, r, extraCount, sent, received)
  }

  ghost predicate SameSegment<T>(s: Segment, r: Segment, extraCount: nat, sent: seq<T>, received: seq<T>) {
    var n, at, there := Times(s.len, extraCount), Times(s.displacement, extraCount), Times(r.displacement, extraCount);
    at + n <= |sent| && there + n <= |received| && received[there..there + n] == sent[at..at + n]
  }

  /** Every message of the exchange arrived; with `skipSelf`, no rank sent one to itself. */
  ghost predicate Delivered<T>(p: Plan, extraCount: nat, skipSelf: bool, sent: seq<seq<T>>, received: seq<seq<T>>)
    requires p.Valid() && WorldOf(p.source, extraCount, sent) && WorldOf(p.destination, extraCount, received)
  {
    forall c, q :: p.Rank(c) && 0 <= q < p.Peers() && !(skipSelf && q == c[p.axis]) ==>
      MessageDelivered(p, extraCount, c, q, sent, received)
  }

  ghost predicate MessageDelivered<T>(p: Plan, extraCount: nat, c: seq<nat>, q: nat, sent: seq<seq<T>>,
                                      received: seq<seq<T>>)
    requires p.Valid() && p.Rank(c) && q < p.Peers() && |sent| == |received| == Product(p.source.grid)
  {
    LinearBound(p.source.grid, c);
    LinearBound(p.source.grid, p.PeerOf(c, q));
    SegmentDelivered(p, extraCount, c, q, sent[RankOf(p.source.grid, c)],
                     received[RankOf(p.source.grid, p.PeerOf(c, q))])
  }

  ghost predicate Exchanged<T>(p: Plan, extraCount: nat, sent: seq<seq<T>>, before: seq<seq<T>>, received: seq<seq<T>>)
    requires p.Valid() && WorldOf(p.source, extraCount, sent) && WorldOf(p.destination, extraCount, before)
    requires |received| == |before|
  {
    forall c :: p.Rank(c) ==> LineExchanged(p, extraCount, c, sent, before, received)
  }

  ghost predicate LineExchanged<T>(p: Plan, extraCount: nat, c: seq<nat>, sent: seq<seq<T>>, before: seq<seq<T>>,
                                   received: seq<seq<T>>)
    requires p.Valid() && p.Rank(c) && WorldOf(p.source, extraCount, sent) && WorldOf(p.destination, extraCount, before)
    requires |received| == |before|
  {
    ExchangesConsistent(p, c, extraCount, sent, before);
    received[RankOf(p.source.grid, c)] ==
      AllToAllV(LineExchanges(p, c, extraCount), c[p.axis], LineOf(p, c, sent), LineOf(p, c, before))
  }

  /** Alltoallv on every line delivers every segment of every rank. */
  lemma AllToAllVDelivers<T>(p: Plan, extraCount: nat, sent: seq<seq<T>>, before: seq<seq<T>>, received: seq<seq<T>>)
    requires p.Valid() && WorldOf(p.source, extraCount, sent) && WorldOf(p.destination, extraCount, before)
    requires |received| == |before| && Exchanged(p, extraCount, sent, before, received)
    ensures WorldOf(p.destination, extraCount, received)
    ensures Delivered(p, extraCount, false, sent, received)
  {
    forall c | p.Rank(c)
      ensures RankOf(p.source.grid, c) < |received|
        && RankHolds(p.destination, extraCount, c, received[RankOf(p.source.grid, c)])
    {
      assert LineExchanged(p, extraCount, c, sent, before, received);
      assert p.PeerOf(c, c[p.axis]) == c;
      assert RankHolds(p.destination, extraCount, c, before[RankOf(p.source.grid, c)]);
    }
    forall c, q | p.Rank(c) && 0 <= q < p.Peers() ensures MessageDelivered(p, extraCount, c, q, sent, received) {
      MessageArrives(p, extraCount, c, q, sent, before, received);
    }
  }

  lemma MessageArrives<T>(p: Plan, extraCount: nat, c: seq<nat>, q: nat, sent: seq<seq<T>>, before: seq<seq<T>>,
                          received: seq<seq<T>>)
    requires p.Valid() && WorldOf(p.source, extraCount, sent) && WorldOf(p.destination, extraCount, before)
    requires |received| == |before| && p.Rank(c) && q < p.Peers()
    requires LineExchanged(p, extraCount, p.PeerOf(c, q), sent, before, received)
    ensures MessageDelivered(p, extraCount, c, q, sent, received)
  {
    hide LineOf;
    hide LineExchanges;
    hide ExchangeAt;
    hide AllToAllV;
    hide Consistent;
    hide SegmentDelivered;
    hide WorldOf;
    hide Plan.Valid;
    hide InBounds;
    SameGrids(p, extraCount, sent, before);
    LineMembers(p, extraCount, c, q, sent, before);
    var d := p.PeerOf(c, q);
    ExchangesConsistent(p, d, extraCount, sent, before);
    SegmentFromLine(p, extraCount, c, q, LineExchanges(p, d, extraCount), LineOf(p, d, sent), LineOf(p, d, before));
  }

  lemma SameGrids<T>(p: Plan, extraCount: nat, sent: seq<seq<T>>, before: seq<seq<T>>)
    requires p.Valid() && WorldOf(p.source, extraCount, sent) && WorldOf(p.destination, extraCount, before)
    ensures |sent| == |before| == Product(p.source.grid)
  {
  }

  /** Both ends of a message, as members of the receiver's line. */
  lemma LineMembers<T>(p: Plan, extraCount: nat, c: seq<nat>, q: nat, sent: seq<seq<T>>, before: seq<seq<T>>)
    requires p.Valid() && p.Rank(c) && q < p.Peers() && |sent| == |before| == Product(p.source.grid)
    ensures p.axis < |c| && p.Rank(p.PeerOf(c, q)) && p.PeerOf(c, q)[p.axis] == q && c[p.axis] < p.Peers()
    ensures var xs := LineExchanges(p, p.PeerOf(c, q), extraCount);
      xs[c[p.axis]] == ExchangeAt(p, c, extraCount, AllToAllv)
        && xs[q] == ExchangeAt(p, p.PeerOf(c, q), extraCount, AllToAllv)
    ensures RankOf(p.source.grid, c) < |sent|
      && LineOf(p, p.PeerOf(c, q), sent)[c[p.axis]] == sent[RankOf(p.source.grid, c)]
    ensures RankOf(p.source.grid, p.PeerOf(c, q)) < |before|
  {
    hide ExchangeAt;
    var d := p.PeerOf(c, q);
    assert p.PeerOf(d, c[p.axis]) == c && p.PeerOf(d, q) == d;
    LinesInWorld(p, d);
    LinearBound(p.source.grid, d);
  }

  lemma SegmentFromLine<T>(p: Plan, extraCount: nat, c: seq<nat>, q: nat, xs: seq<Exchange>, line: seq<seq<T>>,
                           was: seq<seq<T>>)
    requires p.Valid() && p.Rank(c) && q < p.Peers() && Consistent(xs, line, was) && |xs| == p.Peers()
    requires xs[c[p.axis]] == ExchangeAt(p, c, extraCount, AllToAllv)
      && xs[q] == ExchangeAt(p, p.PeerOf(c, q), extraCount, AllToAllv)
    ensures SegmentDelivered(p, extraCount, c, q, line[c[p.axis]], AllToAllV(xs, q, line, was))
  {
    EntriesAgree(p, extraCount, c, q);
    hide ExchangeAt;
    LineSegment(xs, c[p.axis], q, p.SendSegment(c, q), p.ReceiveSegment(p.PeerOf(c, q), c[p.axis]), extraCount, line,
                was);
  }

  lemma LineSegment<T>(xs: seq<Exchange>, from: nat, to: nat, s: Segment, r: Segment, extraCount: nat,
                       line: seq<seq<T>>, was: seq<seq<T>>)
    requires Consistent(xs, line, was) && from < |xs| && to < |xs| && s.len == r.len
    requires xs[from].sendCounts[to] == Times(s.len, extraCount)
      && xs[from].sendDisplacements[to] == Times(s.displacement, extraCount)
    requires xs[to].receiveCounts[from] == Times(r.len, extraCount)
      && xs[to].receiveDisplacements[from] == Times(r.displacement, extraCount)
    ensures SameSegment(s, r, extraCount, line[from], AllToAllV(xs, to, line, was))
  {
    assert Linked(xs[from], from, xs[to], to, line[from], was[to]);
    var after := AllToAllV(xs, to, line, was);
    assert |after| == |was[to]|;
    hide AllToAllV;
    hide Consistent;
    var n, at, there := Times(s.len, extraCount), Times(s.displacement, extraCount), Times(r.displacement, extraCount);
    var left, right := after[there..there + n], line[from][at..at + n];
    forall i | 0 <= i < n ensures left[i] == right[i] {
      SegmentArrives(xs, to, from, line, was, i);
    }
  }

  /** The exchange entries of the two ends of one message, in terms of their segments. */
  lemma EntriesAgree(p: Plan, extraCount: nat, c: seq<nat>, q: nat)
    requires p.Valid() && p.Rank(c) && q < p.Peers()
    ensures p.Fits(c) && p.Fits(p.PeerOf(c, q)) && c[p.axis] < p.Peers()
    ensures var x, y := ExchangeAt(p, c, extraCount, AllToAllv), ExchangeAt(p, p.PeerOf(c, q), extraCount, AllToAllv);
      var s, r := p.SendSegment(c, q), p.ReceiveSegment(p.PeerOf(c, q), c[p.axis]);
      && x.sendCounts[q] == Times(s.len, extraCount) && x.sendDisplacements[q] == Times(s.displacement, extraCount)
      && y.receiveCounts[c[p.axis]] == Times(r.len, extraCount)
      && y.receiveDisplacements[c[p.axis]] == Times(r.displacement, extraCount)
      && s.region == r.region && s.len == r.len
  {
    RegionsAgree(p, c, q);
  }

  /** One index from its source rank to its destination rank, through both buffers. */
  lemma IndexMoves<T>(p: Plan, extraCount: nat, c: seq<nat>, q: nat, e: nat, g: seq<nat>,
                      source: seq<T>, sent: seq<T>, received: seq<T>, destination: seq<T>)
    requires p.Valid() && p.Rank(c) && q < p.Peers() && e < extraCount
    requires InBox(p.source.RangesAt(c), g) && InBox(p.destination.RangesAt(p.PeerOf(c, q)), g)
    requires GroupHeld(p.source.LayoutAt(c), p.SendSegment(c, q), extraCount, e, source, sent)
    requires SegmentDelivered(p, extraCount, c, q, sent, received)
    requires p.Fits(p.PeerOf(c, q)) && c[p.axis] < p.Peers()
    requires GroupHeld(p.destination.LayoutAt(p.PeerOf(c, q)), p.ReceiveSegment(p.PeerOf(c, q), c[p.axis]), extraCount,
                       e, destination, received)
    ensures p.source.LayoutAt(c).Valid() && p.destination.LayoutAt(p.PeerOf(c, q)).Valid()
    ensures StorageCell(p.source.LayoutAt(c), extraCount, e, g) < |source|
    ensures StorageCell(p.destination.LayoutAt(p.PeerOf(c, q)), extraCount, e, g) < |destination|
    ensures destination[StorageCell(p.destination.LayoutAt(p.PeerOf(c, q)), extraCount, e, g)]
         == source[StorageCell(p.source.LayoutAt(c), extraCount, e, g)]
  {
    var d, sl, dl := p.PeerOf(c, q), p.source.LayoutAt(c), p.destination.LayoutAt(p.PeerOf(c, q));
    var s, r := p.SendSegment(c, q), p.ReceiveSegment(d, c[p.axis]);
    EntriesAgree(p, extraCount, c, q);
    IntersectIsBoth(p.source.RangesAt(c), p.destination.RangesAt(d), g);
    LayoutValid(p.source, c);
    LayoutValid(p.destination, d);
    ThroughBuffers(sl, s, dl, r, extraCount, e, g, source, sent, received, destination);
  }

  /** Held on the sending side, copied over, held on the receiving side. */
  lemma ThroughBuffers<T>(sl: LocalLayout, s: Segment, dl: LocalLayout, r: Segment, extraCount: nat, e: nat,
                          g: seq<nat>, source: seq<T>, sent: seq<T>, received: seq<T>, destination: seq<T>)
    requires GroupHeld(sl, s, extraCount, e, source, sent) && GroupHeld(dl, r, extraCount, e, destination, received)
    requires s.region == r.region && s.len == r.len && InBox(s.region, g) && e < extraCount
    requires SameSegment(s, r, extraCount, sent, received)
    ensures InBox(sl.ranges, g) && InBox(dl.ranges, g)
    ensures StorageCell(sl, extraCount, e, g) < |source| && StorageCell(dl, extraCount, e, g) < |destination|
    ensures destination[StorageCell(dl, extraCount, e, g)] == source[StorageCell(sl, extraCount, e, g)]
  {
    HeldAt(sl, s, extraCount, e, source, sent, g);
    HeldAt(dl, r, extraCount, e, destination, received, g);
    hide GroupHeld;
    hide PlaceIn;
    hide StorageCell;
    hide Slot;
    hide SameSegment;
    SlotArrives(s, r, extraCount, e, PlaceIn(s.region, g), sent, received);
  }

  /** Element `k` of extra group `e` of a segment, at both ends. */
  lemma SlotArrives<T>(s: Segment, r: Segment, extraCount: nat, e: nat, k: nat, sent: seq<T>, received: seq<T>)
    requires SameSegment(s, r, extraCount, sent, received) && s.len == r.len && e < extraCount && k < s.len
    ensures Slot(s, extraCount, e, k) < |sent| && Slot(r, extraCount, e, k) < |received|
    ensures received[Slot(r, extraCount, e, k)] == sent[Slot(s, extraCount, e, k)]
  {
    var i := Times(e, s.len) + k;
    TimesMono(e + 1, extraCount, s.len, s.len);
    TimesComm(s.len, extraCount);
    var n, at, there := Times(s.len, extraCount), Times(s.displacement, extraCount), Times(r.displacement, extraCount);
    assert received[there..there + n][i] == sent[at..at + n][i];
  }

  ghost function Skip(skipSelf: bool, own: nat): Option<nat> {
    if skipSelf then Some(own) else None
  }

  /** Every rank packed its source storage. */
  ghost predicate Packed<T>(p: Plan, extraCount: nat, skipSelf: bool, source: seq<seq<T>>, sent: seq<seq<T>>)
    requires p.Valid() && WorldOf(p.source, extraCount, source) && WorldOf(p.source, extraCount, sent)
  {
    forall c :: p.Rank(c) ==>
      RankPacked(p, extraCount, skipSelf, c, source[RankOf(p.source.grid, c)], sent[RankOf(p.source.grid, c)])
  }

  ghost predicate RankPacked<T>(p: Plan, extraCount: nat, skipSelf: bool, c: seq<nat>, storage: seq<T>, buffer: seq<T>)
    requires p.Valid() && p.Rank(c)
  {
    Held(p.source.LayoutAt(c), p.SendSegments(c), Skip(skipSelf, c[p.axis]), extraCount, storage, buffer)
  }

  /** Every rank unpacked its receive buffer. */
  ghost predicate Unpacked<T>(p: Plan, extraCount: nat, skipSelf: bool, received: seq<seq<T>>, destination: seq<seq<T>>)
    requires p.Valid() && WorldOf(p.destination, extraCount, received)
      && WorldOf(p.destination, extraCount, destination)
  {
    forall c :: p.Rank(c) ==>
      RankUnpacked(p, extraCount, skipSelf, c, received[RankOf(p.source.grid, c)],
                   destination[RankOf(p.source.grid, c)])
  }

  ghost predicate RankUnpacked<T>(p: Plan, extraCount: nat, skipSelf: bool, c: seq<nat>, buffer: seq<T>,
                                  storage: seq<T>)
    requires p.Valid() && p.Rank(c)
  {
    Held(p.destination.LayoutAt(c), p.ReceiveSegments(c), Skip(skipSelf, c[p.axis]), extraCount, storage, buffer)
  }

  /** Every rank's own region reached destination storage without passing through the buffers. */
  ghost predicate SelfCopied<T>(p: Plan, extraCount: nat, source: seq<seq<T>>, destination: seq<seq<T>>)
    requires p.Valid() && WorldOf(p.source, extraCount, source) && WorldOf(p.destination, extraCount, destination)
  {
    forall c :: p.Rank(c) ==>
      RankSelfCopied(p, extraCount, c, source[RankOf(p.source.grid, c)], destination[RankOf(p.source.grid, c)])
  }

  ghost predicate RankSelfCopied<T>(p: Plan, extraCount: nat, c: seq<nat>, source: seq<T>, destination: seq<T>)
    requires p.Valid() && p.Rank(c)
  {
    SameRegion(p.source.LayoutAt(c), p.destination.LayoutAt(c), p.SendRegion(c, c[p.axis]), extraCount, source,
               destination)
  }

  /** Copying the own region first and unpacking the other peers afterwards leaves it in place. */
  lemma SelfRegionKept<T>(p: Plan, extraCount: nat, c: seq<nat>, source: seq<T>, copied: seq<T>, destination: seq<T>)
    requires p.Valid() && p.Rank(c) && RankSelfCopied(p, extraCount, c, source, copied)
    requires Untouched(p.destination.LayoutAt(c), p.ReceiveSegments(c), Some(c[p.axis]), extraCount, copied,
                       destination)
    ensures RankSelfCopied(p, extraCount, c, source, destination)
  {
    var sl, dl, region := p.source.LayoutAt(c), p.destination.LayoutAt(c), p.SendRegion(c, c[p.axis]);
    forall g | InBox(region, g) && InBox(dl.ranges, g) ensures Outside(dl, p.ReceiveSegments(c), Some(c[p.axis]), g) {
      SelfOutside(p, c, g);
    }
    RegionKept(sl, dl, region, p.ReceiveSegments(c), Some(c[p.axis]), extraCount, source, copied, destination);
  }

  lemma SelfOutside(p: Plan, c: seq<nat>, g: seq<nat>)
    requires p.Valid() && p.Rank(c)
    requires InBox(p.SendRegion(c, c[p.axis]), g) && InBox(p.destination.RangesAt(c), g)
    ensures Outside(p.destination.LayoutAt(c), p.ReceiveSegments(c), Some(c[p.axis]), g)
  {
    var own := c[p.axis];
    EntriesAgree(p, 0, c, own);
    assert p.PeerOf(c, own) == c;
    BoxInShape(p.destination, c, g);
    forall q | 0 <= q < p.Peers() && q != own ensures !InBox(p.ReceiveSegments(c)[q].region, g) {
      ReceiveRegionsTile(p, c, q, g);
      ReceiveRegionsTile(p, c, own, g);
    }
  }

  lemma RegionKept<T>(sl: LocalLayout, dl: LocalLayout, region: Box, segments: seq<Segment>, skip: Option<nat>,
                      extraCount: nat, source: seq<T>, was: seq<T>, now: seq<T>)
    requires SameRegion(sl, dl, region, extraCount, source, was) && Untouched(dl, segments, skip, extraCount, was, now)
    requires forall g :: InBox(region, g) && InBox(dl.ranges, g) ==> Outside(dl, segments, skip, g)
    ensures SameRegion(sl, dl, region, extraCount, source, now)
  {
    hide Outside;
    hide StorageCell;
  }

  /** Every rank fills its destination storage: it copies its own region first, if that message is
      skipped, and then unpacks the segments it received. */
  ghost predicate Assembled<T>(p: Plan, extraCount: nat, skipSelf: bool, source: seq<seq<T>>, received: seq<seq<T>>,
                               copied: seq<seq<T>>, destination: seq<seq<T>>)
    requires p.Valid() && WorldOf(p.source, extraCount, source) && WorldOf(p.destination, extraCount, received)
    requires WorldOf(p.destination, extraCount, copied) && WorldOf(p.destination, extraCount, destination)
  {
    forall c :: p.Rank(c) ==>
      RankAssembled(p, extraCount, skipSelf, c, source[RankOf(p.source.grid, c)], received[RankOf(p.source.grid, c)],
                    copied[RankOf(p.source.grid, c)], destination[RankOf(p.source.grid, c)])
  }

  ghost predicate RankAssembled<T>(p: Plan, extraCount: nat, skipSelf: bool, c: seq<nat>, source: seq<T>,
                                   buffer: seq<T>, copied: seq<T>, storage: seq<T>)
    requires p.Valid() && p.Rank(c)
  {
    && (skipSelf ==> RankSelfCopied(p, extraCount, c, source, copied))
    && RankUnpacked(p, extraCount, skipSelf, c, buffer, storage)
    && Untouched(p.destination.LayoutAt(c), p.ReceiveSegments(c), Skip(skipSelf, c[p.axis]), extraCount, copied,
                 storage)
  }

  /** In this order every segment and the own region are in place at the end. */
  lemma AssembledInPlace<T>(p: Plan, extraCount: nat, skipSelf: bool, source: seq<seq<T>>, received: seq<seq<T>>,
                            copied: seq<seq<T>>, destination: seq<seq<T>>)
    requires p.Valid() && WorldOf(p.source, extraCount, source) && WorldOf(p.destination, extraCount, received)
    requires WorldOf(p.destination, extraCount, copied) && WorldOf(p.destination, extraCount, destination)
    requires Assembled(p, extraCount, skipSelf, source, received, copied, destination)
    ensures Unpacked(p, extraCount, skipSelf, received, destination)
    ensures skipSelf ==> SelfCopied(p, extraCount, source, destination)
  {
    hide RankSelfCopied;
    hide RankUnpacked;
    hide Untouched;
    forall c | p.Rank(c)
      ensures RankUnpacked(p, extraCount, skipSelf, c, received[RankOf(p.source.grid, c)],
                           destination[RankOf(p.source.grid, c)])
      ensures skipSelf ==>
        RankSelfCopied(p, extraCount, c, source[RankOf(p.source.grid, c)], destination[RankOf(p.source.grid, c)])
    {
      var r := RankOf(p.source.grid, c);
      assert RankAssembled(p, extraCount, skipSelf, c, source[r], received[r], copied[r], destination[r]);
      if skipSelf {
        SelfRegionKept(p, extraCount, c, source[r], copied[r], destination[r]);
      }
    }
  }

  /** The transpose theorem: pack, exchange and unpack on all ranks keep the global array, for
      every grid, shape, pair of permutations, extra count and pair of decompositions that
      differ at one position, with or without messages from a rank to itself. */
  lemma TransposeKeepsGlobalArray<T>(p: Plan, extraCount: nat, skipSelf: bool, source: seq<seq<T>>, sent: seq<seq<T>>,
                                     received: seq<seq<T>>, destination: seq<seq<T>>)
    requires p.Valid() && WorldOf(p.source, extraCount, source) && WorldOf(p.source, extraCount, sent)
    requires WorldOf(p.destination, extraCount, received) && WorldOf(p.destination, extraCount, destination)
    requires Packed(p, extraCount, skipSelf, source, sent) && Delivered(p, extraCount, skipSelf, sent, received)
    requires Unpacked(p, extraCount, skipSelf, received, destination)
    requires skipSelf ==> SelfCopied(p, extraCount, source, destination)
    ensures SameGlobalArray(p.source, source, p.destination, destination, extraCount)
  {
    hide GlobalAt;
    hide Packed;
    hide Delivered;
    hide Unpacked;
    hide SelfCopied;
    forall e, g | 0 <= e < extraCount && InBounds(p.destination.shape, g)
      ensures GlobalAt(p.destination, extraCount, destination, e, g) == GlobalAt(p.source, extraCount, source, e, g)
    {
      ValueMoves(p, extraCount, skipSelf, source, sent, received, destination, e, g);
    }
  }

  lemma ValueMoves<T>(p: Plan, extraCount: nat, skipSelf: bool, source: seq<seq<T>>, sent: seq<seq<T>>,
                      received: seq<seq<T>>, destination: seq<seq<T>>, e: nat, g: seq<nat>)
    requires p.Valid() && WorldOf(p.source, extraCount, source) && WorldOf(p.source, extraCount, sent)
    requires WorldOf(p.destination, extraCount, received) && WorldOf(p.destination, extraCount, destination)
    requires Packed(p, extraCount, skipSelf, source, sent) && Delivered(p, extraCount, skipSelf, sent, received)
    requires Unpacked(p, extraCount, skipSelf, received, destination)
    requires skipSelf ==> SelfCopied(p, extraCount, source, destination)
    requires e < extraCount && InBounds(p.source.shape, g)
    ensures GlobalAt(p.destination, extraCount, destination, e, g) == GlobalAt(p.source, extraCount, source, e, g)
  {
    OwnersMeet(p, g);
    var c, d, q := p.source.OwnerOf(g), p.destination.OwnerOf(g), p.destination.OwnerOf(g)[p.axis];
    hide Distribution.OwnerOf;
    hide GlobalAt;
    GlobalAtRank(p.source, extraCount, source, e, g, c);
    GlobalAtRank(p.destination, extraCount, destination, e, g, d);
    CellMoves(p, extraCount, skipSelf, source, sent, received, destination, c, q, e, g);
  }

  lemma CellMoves<T>(p: Plan, extraCount: nat, skipSelf: bool, source: seq<seq<T>>, sent: seq<seq<T>>,
                     received: seq<seq<T>>, destination: seq<seq<T>>, c: seq<nat>, q: nat, e: nat, g: seq<nat>)
    requires p.Valid() && WorldOf(p.source, extraCount, source) && WorldOf(p.source, extraCount, sent)
    requires WorldOf(p.destination, extraCount, received) && WorldOf(p.destination, extraCount, destination)
    requires Packed(p, extraCount, skipSelf, source, sent) && Delivered(p, extraCount, skipSelf, sent, received)
    requires Unpacked(p, extraCount, skipSelf, received, destination)
    requires skipSelf ==> SelfCopied(p, extraCount, source, destination)
    requires p.Rank(c) && q < p.Peers() && p.Rank(p.PeerOf(c, q)) && InBox(p.SendRegion(c, q), g) && e < extraCount
    requires InBox(p.source.RangesAt(c), g) && InBox(p.destination.RangesAt(p.PeerOf(c, q)), g)
    ensures p.source.LayoutAt(c).Valid() && p.destination.LayoutAt(p.PeerOf(c, q)).Valid()
    ensures var src, dst := source[RankOf(p.source.grid, c)], destination[RankOf(p.source.grid, p.PeerOf(c, q))];
      && StorageCell(p.source.LayoutAt(c), extraCount, e, g) < |src|
      && StorageCell(p.destination.LayoutAt(p.PeerOf(c, q)), extraCount, e, g) < |dst|
      && dst[StorageCell(p.destination.LayoutAt(p.PeerOf(c, q)), extraCount, e, g)] ==
        src[StorageCell(p.source.LayoutAt(c), extraCount, e, g)]
  {
    var d := p.PeerOf(c, q);
    var src, dst := source[RankOf(p.source.grid, c)], destination[RankOf(p.source.grid, d)];
    if skipSelf && q == c[p.axis] {
      assert d == c;
      assert RankSelfCopied(p, extraCount, c, src, dst);
    } else {
      var buffer, arrived := sent[RankOf(p.source.grid, c)], received[RankOf(p.source.grid, d)];
      assert RankPacked(p, extraCount, skipSelf, c, src, buffer);
      assert RankUnpacked(p, extraCount, skipSelf, d, arrived, dst);
      assert MessageDelivered(p, extraCount, c, q, sent, received);
      MessageMoves(p, extraCount, skipSelf, c, q, e, g, src, buffer, arrived, dst);
    }
  }

  /** The two owners of an index lie on one line, and the index lies in the region between them. */
  lemma OwnersMeet(p: Plan, g: seq<nat>)
    requires p.Valid() && InBounds(p.source.shape, g)
    ensures var c, d := p.source.OwnerOf(g), p.destination.OwnerOf(g);
      && p.Rank(c) && p.Rank(d) && d[p.axis] < p.Peers() && c[p.axis] < p.Peers() && d == p.PeerOf(c, d[p.axis])
      && InBox(p.source.RangesAt(c), g) && InBox(p.destination.RangesAt(d), g) && InBox(p.SendRegion(c, d[p.axis]), g)
  {
    var c, d := p.source.OwnerOf(g), p.destination.OwnerOf(g);
    OwnerInBounds(p.source, g);
    OwnerInBounds(p.destination, g);
    BoxesTile(p.source, g, c);
    BoxesTile(p.destination, g, d);
    SendRegionsTile(p, c, d[p.axis], g);
  }

  lemma MessageMoves<T>(p: Plan, extraCount: nat, skipSelf: bool, c: seq<nat>, q: nat, e: nat, g: seq<nat>,
                        source: seq<T>, sent: seq<T>, received: seq<T>, destination: seq<T>)
    requires p.Valid() && p.Rank(c) && q < p.Peers() && e < extraCount && !(skipSelf && q == c[p.axis])
    requires p.Rank(p.PeerOf(c, q)) && InBox(p.SendRegion(c, q), g)
    requires RankPacked(p, extraCount, skipSelf, c, source, sent)
      && SegmentDelivered(p, extraCount, c, q, sent, received)
    requires RankUnpacked(p, extraCount, skipSelf, p.PeerOf(c, q), received, destination)
    ensures InBox(p.source.RangesAt(c), g) && InBox(p.destination.RangesAt(p.PeerOf(c, q)), g)
    ensures p.source.LayoutAt(c).Valid() && p.destination.LayoutAt(p.PeerOf(c, q)).Valid()
    ensures StorageCell(p.source.LayoutAt(c), extraCount, e, g) < |source|
    ensures StorageCell(p.destination.LayoutAt(p.PeerOf(c, q)), extraCount, e, g) < |destination|
    ensures destination[StorageCell(p.destination.LayoutAt(p.PeerOf(c, q)), extraCount, e, g)]
         == source[StorageCell(p.source.LayoutAt(c), extraCount, e, g)]
  {
    var d, own := p.PeerOf(c, q), c[p.axis];
    IntersectIsBoth(p.source.RangesAt(c), p.destination.RangesAt(d), g);
    EntriesAgree(p, extraCount, c, q);
    PlaceRoundTrip(p.SendRegion(c, q), g);
    hide GroupHeld;
    hide SegmentDelivered;
    assert p.SendSegments(c)[q] == p.SendSegment(c, q) && p.ReceiveSegments(d)[own] == p.ReceiveSegment(d, own);
    assert GroupHeld(p.source.LayoutAt(c), p.SendSegments(c)[q], extraCount, e, source, sent);
    assert d[p.axis] == q;
    assert GroupHeld(p.destination.LayoutAt(d), p.ReceiveSegments(d)[own], extraCount, e, destination, received);
    IndexMoves(p, extraCount, c, q, e, g, source, sent, received, destination);
  }

  /** Alltoallv execution on all ranks. */
  lemma AllToAllVTransposeKeepsGlobalArray<T>(p: Plan, extraCount: nat, source: seq<seq<T>>, sent: seq<seq<T>>,
                                              before: seq<seq<T>>, received: seq<seq<T>>, destination: seq<seq<T>>)
    requires p.Valid() && WorldOf(p.source, extraCount, source) && WorldOf(p.source, extraCount, sent)
    requires WorldOf(p.destination, extraCount, before) && |received| == |before|
    requires WorldOf(p.destination, extraCount, received) && WorldOf(p.destination, extraCount, destination)
    requires Packed(p, extraCount, false, source, sent)
    requires Exchanged(p, extraCount, sent, before, received)
    requires Unpacked(p, extraCount, false, received, destination)
    ensures SameGlobalArray(p.source, source, p.destination, destination, extraCount)
  {
    AllToAllVDelivers(p, extraCount, sent, before, received);
    TransposeKeepsGlobalArray(p, extraCount, false, source, sent, received, destination);
  }

  /** Skipping the message to oneself changes nothing: the full path, and the path that copies the own
      region and then unpacks the other segments, fill every rank's destination storage with the same
      values. */
  lemma SelfCopyPathAgrees<T>(p: Plan, extraCount: nat, source: seq<seq<T>>,
                              fullSent: seq<seq<T>>, fullReceived: seq<seq<T>>, full: seq<seq<T>>,
                              skipSent: seq<seq<T>>, skipReceived: seq<seq<T>>, copied: seq<seq<T>>,
                              skipped: seq<seq<T>>, c: seq<nat>, cell: nat)
    requires p.Valid() && WorldOf(p.source, extraCount, source) && WorldOf(p.source, extraCount, fullSent)
      && WorldOf(p.source, extraCount, skipSent)
    requires WorldOf(p.destination, extraCount, fullReceived) && WorldOf(p.destination, extraCount, full)
    requires WorldOf(p.destination, extraCount, skipReceived) && WorldOf(p.destination, extraCount, copied)
      && WorldOf(p.destination, extraCount, skipped)
    requires Packed(p, extraCount, false, source, fullSent) && Delivered(p, extraCount, false, fullSent, fullReceived)
    requires Unpacked(p, extraCount, false, fullReceived, full)
    requires Packed(p, extraCount, true, source, skipSent) && Delivered(p, extraCount, true, skipSent, skipReceived)
    requires Assembled(p, extraCount, true, source, skipReceived, copied, skipped)
    requires p.Rank(c) && cell < Times(extraCount, p.destination.LayoutAt(c).Len())
    ensures var r := RankOf(p.source.grid, c);
      r < |full| == |skipped| && cell < |full[r]| && cell < |skipped[r]| && full[r][cell] == skipped[r][cell]
  {
    hide Packed;
    hide Delivered;
    hide Unpacked;
    hide SelfCopied;
    hide Assembled;
    hide WorldOf;
    hide GlobalAt;
    AssembledInPlace(p, extraCount, true, source, skipReceived, copied, skipped);
    TransposeKeepsGlobalArray(p, extraCount, false, source, fullSent, fullReceived, full);
    TransposeKeepsGlobalArray(p, extraCount, true, source, skipSent, skipReceived, skipped);
    SameArrays(p, extraCount, source, full, skipped);
    GlobalArrayFixesStorage(p.destination, extraCount, full, skipped, c, cell);
  }

  /** Two arrays that equal a third are equal. */
  lemma SameArrays<T>(p: Plan, extraCount: nat, source: seq<seq<T>>, a: seq<seq<T>>, b: seq<seq<T>>)
    requires SameGlobalArray(p.source, source, p.destination, a, extraCount)
      && SameGlobalArray(p.source, source, p.destination, b, extraCount)
    ensures SameGlobalArray(p.destination, a, p.destination, b, extraCount)
  {
    hide GlobalAt;
    hide WorldOf;
    forall e, g | 0 <= e < extraCount && InBounds(p.destination.shape, g)
      ensures GlobalAt(p.destination, extraCount, b, e, g) == GlobalAt(p.destination, extraCount, a, e, g)
    {
      assert GlobalAt(p.destination, extraCount, a, e, g) == GlobalAt(p.source, extraCount, source, e, g);
    }
  }
}
