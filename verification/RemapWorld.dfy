/** A spatial remap over all ranks. */
module RemapWorlds {
  // Every source element is requested exactly once, so preparation cannot find an inconsistency, and
  // applying the plan realises the affine map.

  import opened MachineInts
  import opened Nonlinear
  import opened MixedRadix
  import opened Counting
  import opened Axis
  import opened Geometry
  import opened Pencil
  import opened Plans
  import opened Affines
  import opened RemapRoutes
  import opened RemapPayloads
  import opened Transposes
  import opened TransposeWorlds

  /** The sorted routes of every rank. */
  ghost predicate Routed(m: Remap, world: seq<seq<Route>>) {
    && m.Valid() && |world| == m.Ranks()
    && forall r :: 0 <= r < |world| ==> RoutesOf(m, r, world[r])
  }

  /** A request together with the rank that makes it. */
  datatype Request = Request(rank: nat, route: Route)

  /** The requests of rank `r` to rank `s`, in the order they are sent. */
  ghost function RequestsFrom(world: seq<seq<Route>>, r: nat, s: nat): (requests: seq<Request>)
    requires r < |world|
    ensures |requests| == CountOwner(world[r], s)
    ensures forall k :: 0 <= k < |requests| ==>
      CountBelow(world[r], s) + k < |world[r]| && requests[k] == Request(r, world[r][CountBelow(world[r], s) + k])
  {
    CountsAdd(world[r], s);
    seq(CountOwner(world[r], s),
        k requires 0 <= k < CountOwner(world[r], s) => Request(r, world[r][CountBelow(world[r], s) + k]))
  }

  /** All requests that ranks `0..n` make to rank `s`, in the order rank `s` receives them. */
  ghost function RequestsTo(world: seq<seq<Route>>, s: nat, n: nat): (requests: seq<Request>)
    requires n <= |world|
  {
    if n == 0 then [] else RequestsTo(world, s, n - 1) + RequestsFrom(world, n - 1, s)
  }

  /** The request counts that rank `s` receives. */
  ghost function Incoming(world: seq<seq<Route>>, s: nat): (counts: seq<nat>)
    ensures |counts| == |world| && forall r :: 0 <= r < |world| ==> counts[r] == CountOwner(world[r], s)
  {
    seq(|world|, r requires 0 <= r < |world| => CountOwner(world[r], s))
  }

  lemma {:induction false} RequestsLength(world: seq<seq<Route>>, s: nat, n: nat)
    requires n <= |world|
    ensures |RequestsTo(world, s, n)| == PrefixSum(Incoming(world, s), n)
  {
    if n != 0 {
      RequestsLength(world, s, n - 1);
    }
  }

  /** The request at the `k`-th place of the segment from rank `r`. */
  lemma {:induction false} RequestPlace(world: seq<seq<Route>>, s: nat, n: nat, r: nat, k: nat)
    requires r < n <= |world| && k < CountOwner(world[r], s)
    ensures PrefixSum(Incoming(world, s), r) + k < |RequestsTo(world, s, n)|
    ensures RequestsTo(world, s, n)[PrefixSum(Incoming(world, s), r) + k] == RequestsFrom(world, r, s)[k]
    decreases n
  {
    RequestsLength(world, s, n - 1);
    RequestsLength(world, s, n);
    if r < n - 1 {
      RequestPlace(world, s, n - 1, r, k);
    }
  }

  ghost predicate AllSorted(world: seq<seq<Route>>) {
    forall r :: 0 <= r < |world| ==> SortedByOwner(world[r]) && NoDuplicates(world[r])
  }

  lemma RunOwner(entries: seq<Route>, s: nat, k: nat)
    requires SortedByOwner(entries) && k < CountOwner(entries, s)
    ensures CountBelow(entries, s) + k < |entries| && entries[CountBelow(entries, s) + k].owner == s
  {
    CountsAdd(entries, s);
    SortedSplit(entries, s, CountBelow(entries, s) + k);
    SortedSplit(entries, s + 1, CountBelow(entries, s) + k);
  }

  /** Every received request is an entry of its rank that names this rank as the owner. */
  lemma {:induction false} RequestsAreEntries(world: seq<seq<Route>>, s: nat, n: nat, j: nat) returns (i: nat)
    requires AllSorted(world) && n <= |world| && j < |RequestsTo(world, s, n)|
    ensures var q := RequestsTo(world, s, n)[j];
      q.rank < n && i < |world[q.rank]| && q.route == world[q.rank][i] && q.route.owner == s
    decreases n
  {
    if j < |RequestsTo(world, s, n - 1)| {
      i := RequestsAreEntries(world, s, n - 1, j);
    } else {
      var k := j - |RequestsTo(world, s, n - 1)|;
      i := CountBelow(world[n - 1], s) + k;
      RunOwner(world[n - 1], s, k);
    }
  }

  lemma {:induction false} RequestsDistinct(world: seq<seq<Route>>, s: nat, n: nat)
    requires AllSorted(world) && n <= |world|
    ensures NoDuplicates(RequestsTo(world, s, n))
  {
    if n != 0 {
      RequestsDistinct(world, s, n - 1);
      var before, here := RequestsTo(world, s, n - 1), RequestsFrom(world, n - 1, s);
      forall j | 0 <= j < |before| ensures before[j].rank < n - 1 {
        var _ := RequestsAreEntries(world, s, n - 1, j);
      }
      RunDistinct(world, n - 1, s);
      JoinDistinct(before, here, n - 1);
    }
  }

  lemma RunDistinct(world: seq<seq<Route>>, r: nat, s: nat)
    requires r < |world| && NoDuplicates(world[r])
    ensures NoDuplicates(RequestsFrom(world, r, s))
  {
    CountsAdd(world[r], s);
    var here, start := RequestsFrom(world, r, s), CountBelow(world[r], s);
    forall j, k | 0 <= j < k < |here| ensures here[j] != here[k] {
      assert world[r][start + j] != world[r][start + k];
    }
  }

  lemma JoinDistinct(before: seq<Request>, here: seq<Request>, rank: nat)
    requires NoDuplicates(before) && NoDuplicates(here)
    requires forall j :: 0 <= j < |before| ==> before[j].rank < rank
    requires forall j :: 0 <= j < |here| ==> here[j].rank == rank
    ensures NoDuplicates(before + here)
  {
  }

  /** A requested global index comes from one destination element only. */
  lemma RequestsInjective(m: Remap, a: Request, b: Request)
    requires m.Valid() && a.rank < m.Ranks() && b.rank < m.Ranks()
    requires IsRoute(m, a.rank, a.route) && IsRoute(m, b.rank, b.route)
    requires a.route.globalIndex == b.route.globalIndex
    ensures a == b
  {
    var g, h := ElementAt(m, a.rank, a.route.destinationOffset), ElementAt(m, b.rank, b.route.destinationOffset);
    LinearInjective(m.source.shape, SourceOf(m, g), SourceOf(m, h));
    AffineIsBijection(m.affine, m.source.shape, g);
    AffineIsBijection(m.affine, m.source.shape, h);
    assert g == h;
    SameRank(m, g, a.rank, b.rank);
  }

  /** Boxes of different ranks share no index. */
  lemma SameRank(m: Remap, g: seq<nat>, a: nat, b: nat)
    requires m.Valid() && a < m.Ranks() && b < m.Ranks() && InBounds(m.destination.shape, g)
    requires InBox(m.DestinationAt(a).ranges, g) && InBox(m.DestinationAt(b).ranges, g)
    ensures a == b
  {
    RankLayouts(m, a);
    RankLayouts(m, b);
    BoxesTile(m.destination, g, Digits(m.destination.grid, a));
    BoxesTile(m.destination, g, Digits(m.destination.grid, b));
  }

  /** The rank whose box contains destination index `g`. */
  ghost function RankFor(d: Distribution, g: seq<nat>): (r: nat)
    requires d.Valid() && InBounds(d.shape, g)
    ensures r < Product(d.grid) && InBox(d.RangesAt(Digits(d.grid, r)), g) && Digits(d.grid, r) == d.OwnerOf(g)
  {
    OwnerInBounds(d, g);
    LinearBound(d.grid, d.OwnerOf(g));
    DigitsOfLinear(d.grid, d.OwnerOf(g));
    BoxesTile(d, g, d.OwnerOf(g));
    Linear(d.grid, d.OwnerOf(g))
  }

  lemma RoutedSorted(m: Remap, world: seq<seq<Route>>)
    requires Routed(m, world)
    ensures AllSorted(world)
  {
    forall r | 0 <= r < |world| ensures SortedByOwner(world[r]) && NoDuplicates(world[r]) {
      assert RoutesOf(m, r, world[r]);
    }
  }

  /** A route names the rank that owns the index it asks for. */
  lemma RouteIsOwned(m: Remap, rank: nat, route: Route)
    requires m.Valid() && rank < m.Ranks() && IsRoute(m, rank, route)
    ensures Owned(m, route.owner, route.globalIndex)
    ensures Digits(m.source.shape, route.globalIndex) == SourceOf(m, ElementAt(m, rank, route.destinationOffset))
  {
    var s := SourceOf(m, ElementAt(m, rank, route.destinationOffset));
    LinearBound(m.source.shape, s);
    DigitsOfLinear(m.source.shape, s);
  }

  lemma RequestOwned(m: Remap, world: seq<seq<Route>>, s: nat, j: nat)
    requires Routed(m, world) && s < |world| && j < |RequestsTo(world, s, |world|)|
    ensures var q := RequestsTo(world, s, |world|)[j];
      q.rank < m.Ranks() && IsRoute(m, q.rank, q.route) && Owned(m, s, q.route.globalIndex)
  {
    RoutedSorted(m, world);
    var i := RequestsAreEntries(world, s, |world|, j);
    var q := RequestsTo(world, s, |world|)[j];
    assert RoutesOf(m, q.rank, world[q.rank]);
    assert IsRoute(m, q.rank, world[q.rank][i]);
    RouteIsOwned(m, q.rank, q.route);
  }

  /** Where rank `s` stores the elements it is asked for, in the order of the requests. */
  ghost predicate OffsetsOf(m: Remap, world: seq<seq<Route>>, s: nat, offsets: seq<nat>)
    requires Routed(m, world) && s < |world|
  {
    && |offsets| == |RequestsTo(world, s, |world|)|
    && forall j :: 0 <= j < |offsets| ==> OffsetAt(m, world, s, j, offsets[j])
  }

  ghost predicate OffsetAt(m: Remap, world: seq<seq<Route>>, s: nat, j: nat, offset: nat)
    requires Routed(m, world) && s < |world| && j < |RequestsTo(world, s, |world|)|
  {
    RequestOwned(m, world, s, j);
    offset == StoredAt(m, s, RequestsTo(world, s, |world|)[j].route.globalIndex)
  }

  lemma OffsetsDistinct(m: Remap, world: seq<seq<Route>>, s: nat, offsets: seq<nat>)
    requires Routed(m, world) && s < |world| && OffsetsOf(m, world, s, offsets)
    ensures NoDuplicates(offsets) && forall j :: 0 <= j < |offsets| ==> offsets[j] < m.SourceAt(s).Len()
  {
    forall j | 0 <= j < |offsets| ensures offsets[j] < m.SourceAt(s).Len() {
      assert OffsetAt(m, world, s, j, offsets[j]);
    }
    hide OffsetAt;
    hide Routed;
    hide RequestsTo;
    forall j, k | 0 <= j < k < |offsets| ensures offsets[j] != offsets[k] {
      if offsets[j] == offsets[k] {
        SameRequest(m, world, s, j, k, offsets[j]);
        assert false;
      }
    }
  }

  /** Two requests for one storage cell are one request. */
  lemma SameRequest(m: Remap, world: seq<seq<Route>>, s: nat, j: nat, k: nat, offset: nat)
    requires Routed(m, world) && s < |world| && j < |RequestsTo(world, s, |world|)|
      && k < |RequestsTo(world, s, |world|)|
    requires OffsetAt(m, world, s, j, offset) && OffsetAt(m, world, s, k, offset)
    ensures j == k
  {
    var q := RequestsTo(world, s, |world|);
    RequestOwned(m, world, s, j);
    RequestOwned(m, world, s, k);
    SameIndex(m, s, q[j].route.globalIndex, q[k].route.globalIndex);
    RequestsInjective(m, q[j], q[k]);
    RoutedSorted(m, world);
    RequestsDistinct(world, s, |world|);
  }

  lemma SameIndex(m: Remap, s: nat, a: nat, b: nat)
    requires m.Valid() && s < m.Ranks() && Owned(m, s, a) && Owned(m, s, b) && StoredAt(m, s, a) == StoredAt(m, s, b)
    ensures a == b
  {
    OwnedInBox(m, s, a);
    OwnedInBox(m, s, b);
    OffsetInjective(m.SourceAt(s), Digits(m.source.shape, a), Digits(m.source.shape, b));
    LinearOfDigits(m.source.shape, a);
    LinearOfDigits(m.source.shape, b);
  }

  /** Source index `h` is asked for: by the rank and element that `Undo` names. */
  lemma IndexIsRequested(m: Remap, world: seq<seq<Route>>, s: nat, h: seq<nat>) returns (j: nat)
    requires Routed(m, world) && s < |world| && InBounds(m.source.shape, h) && InBox(m.SourceAt(s).ranges, h)
    ensures j < |RequestsTo(world, s, |world|)|
      && RequestsTo(world, s, |world|)[j].route.globalIndex == Linear(m.source.shape, h)
  {
    AffineIsBijection(m.affine, m.source.shape, h);
    var g := m.affine.Undo(m.source.shape, h);
    var r := RankFor(m.destination, g);
    var offset := m.DestinationAt(r).Offset(g);
    RankLayouts(m, r);
    OffsetRoundTrip(m.DestinationAt(r), g);
    assert RoutesOf(m, r, world[r]);
    var i := RouteFor(m, r, world[r], offset);
    assert ElementAt(m, r, offset) == g && SourceOf(m, g) == h;
    OwnerIsRank(m, s, h);
    j := EntryIsRequested(world, s, r, i);
  }

  lemma OwnerIsRank(m: Remap, s: nat, h: seq<nat>)
    requires m.Valid() && s < m.Ranks() && InBounds(m.source.shape, h) && InBox(m.SourceAt(s).ranges, h)
    ensures Linear(m.source.grid, m.source.OwnerOf(h)) == s
  {
    RankLayouts(m, s);
    BoxesTile(m.source, h, Digits(m.source.grid, s));
  }

  lemma EntryIsRequested(world: seq<seq<Route>>, s: nat, r: nat, i: nat) returns (j: nat)
    requires r < |world| && SortedByOwner(world[r]) && i < |world[r]| && world[r][i].owner == s
    ensures j < |RequestsTo(world, s, |world|)| && RequestsTo(world, s, |world|)[j] == Request(r, world[r][i])
    ensures CountBelow(world[r], s) <= i < CountBelow(world[r], s + 1)
    ensures j == PrefixSum(Incoming(world, s), r) + (i - CountBelow(world[r], s))
  {
    SortedSplit(world[r], s, i);
    SortedSplit(world[r], s + 1, i);
    CountsAdd(world[r], s);
    var k := i - CountBelow(world[r], s);
    RequestPlace(world, s, |world|, r, k);
    j := PrefixSum(Incoming(world, s), r) + k;
  }

  /** Every source element of every rank is requested exactly once: each rank receives exactly as
      many requests as it has elements, owns all of them, and their offsets are all its offsets.
      So the checks of `ReceiveLayout` and `IncomingSourceOffsets` never report an inconsistency. */
  lemma EveryElementRequestedOnce(m: Remap, world: seq<seq<Route>>, s: nat, offsets: seq<nat>)
    requires Routed(m, world) && s < |world| && OffsetsOf(m, world, s, offsets)
    ensures PrefixSum(Incoming(world, s), |world|) == |RequestsTo(world, s, |world|)| == m.SourceAt(s).Len()
    ensures forall j :: 0 <= j < |offsets| ==> Owned(m, s, RequestsTo(world, s, |world|)[j].route.globalIndex)
    ensures NoDuplicates(offsets) && forall k :: 0 <= k < m.SourceAt(s).Len() ==> k in offsets
  {
    var l := m.SourceAt(s);
    RequestsLength(world, s, |world|);
    OffsetsDistinct(m, world, s, offsets);
    forall j | 0 <= j < |offsets| ensures Owned(m, s, RequestsTo(world, s, |world|)[j].route.globalIndex) {
      RequestOwned(m, world, s, j);
    }
    forall k | 0 <= k < l.Len() ensures k in offsets {
      CellIsRequested(m, world, s, offsets, k);
    }
    Pigeonhole(offsets, l.Len());
  }

  lemma CellIsRequested(m: Remap, world: seq<seq<Route>>, s: nat, offsets: seq<nat>, cell: nat)
    requires Routed(m, world) && s < |world| && OffsetsOf(m, world, s, offsets) && cell < m.SourceAt(s).Len()
    ensures cell in offsets
  {
    var l := m.SourceAt(s);
    RankLayouts(m, s);
    IndexOfRoundTrip(l, cell);
    var h := l.IndexOf(cell);
    BoxInShape(m.source, Digits(m.source.grid, s), h);
    var j := IndexIsRequested(m, world, s, h);
    assert OffsetAt(m, world, s, j, offsets[j]);
    DigitsOfLinear(m.source.shape, h);
  }

  // ----- The exchange of requests

  /** What rank `r` passes to Alltoallv: its own groups, and the groups of the others for it. */
  ghost predicate IsRequestExchange(world: seq<seq<Route>>, r: nat, x: Exchange)
    requires r < |world|
  {
    && |x.sendCounts| == |x.sendDisplacements| == |x.receiveCounts| == |x.receiveDisplacements| == |world|
    && forall q :: 0 <= q < |world| ==>
      IsGroup(world, r, q, x.sendCounts[q], x.sendDisplacements[q], x.receiveCounts[q], x.receiveDisplacements[q])
  }

  ghost predicate IsGroup(world: seq<seq<Route>>, r: nat, q: nat, sendCount: nat, sendAt: nat, receiveCount: nat,
                          receiveAt: nat)
    requires r < |world| && q < |world|
  {
    && sendCount == CountOwner(world[r], q) && sendAt == CountBelow(world[r], q)
    && receiveCount == CountOwner(world[q], r) && receiveAt == PrefixSum(Incoming(world, r), q)
  }

  ghost predicate RequestExchanges(world: seq<seq<Route>>, xs: seq<Exchange>) {
    |xs| == |world| && forall r :: 0 <= r < |xs| ==> IsRequestExchange(world, r, xs[r])
  }

  /** The send buffer of rank `r` holds its requested indices, and may be longer. */
  ghost predicate IndicesOf(entries: seq<Route>, buffer: seq<nat>) {
    |entries| <= |buffer| && forall i :: 0 <= i < |entries| ==> buffer[i] == entries[i].globalIndex
  }

  ghost predicate IndexBuffers(world: seq<seq<Route>>, sent: seq<seq<nat>>, before: seq<seq<nat>>) {
    && |sent| == |before| == |world|
    && (forall r :: 0 <= r < |world| ==> IndicesOf(world[r], sent[r]))
    && (forall s :: 0 <= s < |world| ==> PrefixSum(Incoming(world, s), |world|) <= |before[s]|)
  }

  lemma RequestExchangeConsistent(world: seq<seq<Route>>, xs: seq<Exchange>, sent: seq<seq<nat>>, before: seq<seq<nat>>)
    requires RequestExchanges(world, xs) && IndexBuffers(world, sent, before)
    ensures Consistent(xs, sent, before)
  {
    forall i, j | 0 <= i < |xs| && 0 <= j < |xs| ensures Linked(xs[i], i, xs[j], j, sent[i], before[j]) {
      assert IsRequestExchange(world, i, xs[i]) && IsRequestExchange(world, j, xs[j]);
      CountsAdd(world[i], j);
      PrefixSumMonotone(Incoming(world, j), i, |world|);
    }
    forall i, j, k | 0 <= i < |xs| && 0 <= j < k < |xs|
      ensures xs[i].receiveDisplacements[j] + xs[i].receiveCounts[j] <= xs[i].receiveDisplacements[k]
    {
      assert IsRequestExchange(world, i, xs[i]);
      PrefixSumMonotone(Incoming(world, i), j, k);
    }
  }

  lemma RunArrives(world: seq<seq<Route>>, xs: seq<Exchange>, sent: seq<seq<nat>>, before: seq<seq<nat>>, s: nat,
                   r: nat, k: nat)
    requires RequestExchanges(world, xs) && IndexBuffers(world, sent, before) && Consistent(xs, sent, before)
    requires s < |world| && r < |world| && k < CountOwner(world[r], s)
    ensures PrefixSum(Incoming(world, s), r) + k < |before[s]|
    ensures AllToAllV(xs, s, sent, before)[PrefixSum(Incoming(world, s), r) + k] ==
      RequestsFrom(world, r, s)[k].route.globalIndex
  {
    hide Consistent;
    hide AllToAllV;
    hide PrefixSum;
    assert IsRequestExchange(world, s, xs[s]) && IsRequestExchange(world, r, xs[r]);
    PrefixSumMonotone(Incoming(world, s), r, |world|);
    assert IndicesOf(world[r], sent[r]);
    SegmentArrives(xs, s, r, sent, before, k);
  }

  /** Rank `s` receives the requests to it in order. */
  lemma {:induction false} RequestsArrive(world: seq<seq<Route>>, xs: seq<Exchange>, sent: seq<seq<nat>>,
                                          before: seq<seq<nat>>, s: nat, n: nat, j: nat)
    requires RequestExchanges(world, xs) && IndexBuffers(world, sent, before) && Consistent(xs, sent, before)
    requires s < |world| && n <= |world| && j < |RequestsTo(world, s, n)|
    ensures j < |before[s]| && AllToAllV(xs, s, sent, before)[j] == RequestsTo(world, s, n)[j].route.globalIndex
    decreases n
  {
    hide Consistent;
    hide AllToAllV;
    hide RequestExchanges;
    RequestsLength(world, s, n - 1);
    if j < |RequestsTo(world, s, n - 1)| {
      RequestsArrive(world, xs, sent, before, s, n - 1, j);
    } else {
      RunArrives(world, xs, sent, before, s, n - 1, j - |RequestsTo(world, s, n - 1)|);
    }
  }

  /** The requests rank `s` received, read off its receive buffer. */
  ghost predicate Received(xs: seq<Exchange>, sent: seq<seq<nat>>, before: seq<seq<nat>>, s: nat, requests: seq<nat>)
    requires Consistent(xs, sent, before) && s < |xs|
  {
    |requests| <= |before[s]| && requests == AllToAllV(xs, s, sent, before)[..|requests|]
  }

  /** After the exchange of requests rank `s` holds exactly the requests to it. */
  ghost predicate RequestsReceived(world: seq<seq<Route>>, xs: seq<Exchange>, sent: seq<seq<nat>>,
                                   before: seq<seq<nat>>, s: nat, requests: seq<nat>)
    requires RequestExchanges(world, xs) && IndexBuffers(world, sent, before) && s < |world|
  {
    RequestExchangeConsistent(world, xs, sent, before);
    |requests| == PrefixSum(Incoming(world, s), |world|) && Received(xs, sent, before, s, requests)
  }

  /** What a rank receives is as many requests as it has elements, all of them for elements it
      owns: `ReceiveLayout` and `IncomingSourceOffsets` accept them, and the offsets decoded from
      them are the offsets of the requests. */
  lemma ReceivedRequestsAccepted(m: Remap, world: seq<seq<Route>>, xs: seq<Exchange>, sent: seq<seq<nat>>,
                                 before: seq<seq<nat>>, s: nat, requests: seq<nat>, offsets: seq<nat>)
    requires Routed(m, world) && RequestExchanges(world, xs) && IndexBuffers(world, sent, before)
    requires s < |world| && RequestsReceived(world, xs, sent, before, s, requests)
    ensures |requests| == m.SourceAt(s).Len()
    ensures forall j :: 0 <= j < |requests| ==> Owned(m, s, requests[j])
    ensures Decoded(m, s, requests, offsets) ==> OffsetsOf(m, world, s, offsets)
  {
    RequestsLength(world, s, |world|);
    RequestExchangeConsistent(world, xs, sent, before);
    hide AllToAllV;
    hide Consistent;
    hide Owned;
    hide StoredAt;
    hide Routed;
    hide RequestExchanges;
    hide IndexBuffers;
    forall j | 0 <= j < |requests| ensures RequestArrived(m, world, s, j, requests[j]) {
      RequestsArrive(world, xs, sent, before, s, |world|, j);
      RequestOwned(m, world, s, j);
    }
    AcceptedOffsets(m, world, s, requests, offsets);
  }

  ghost predicate RequestArrived(m: Remap, world: seq<seq<Route>>, s: nat, j: nat, request: nat)
    requires m.Valid() && j < |RequestsTo(world, s, |world|)|
  {
    request == RequestsTo(world, s, |world|)[j].route.globalIndex && Owned(m, s, request)
  }

  lemma AcceptedOffsets(m: Remap, world: seq<seq<Route>>, s: nat, requests: seq<nat>, offsets: seq<nat>)
    requires Routed(m, world) && s < |world| && |requests| == |RequestsTo(world, s, |world|)|
    requires forall j :: 0 <= j < |requests| ==> RequestArrived(m, world, s, j, requests[j])
    ensures |requests| == m.SourceAt(s).Len()
    ensures Decoded(m, s, requests, offsets) ==> OffsetsOf(m, world, s, offsets)
  {
    forall j | 0 <= j < |requests| ensures Owned(m, s, requests[j]) {
      assert RequestArrived(m, world, s, j, requests[j]);
    }
    var stored := seq(|requests|, j requires 0 <= j < |requests| => StoredAt(m, s, requests[j]));
    hide StoredAt;
    hide Owned;
    hide Routed;
    forall j | 0 <= j < |requests| ensures OffsetAt(m, world, s, j, stored[j]) {
      assert RequestArrived(m, world, s, j, requests[j]);
    }
    EveryElementRequestedOnce(m, world, s, stored);
    if Decoded(m, s, requests, offsets) {
      forall j | 0 <= j < |requests| ensures offsets[j] == stored[j] {
        assert DecodedAt(m, s, requests[j], offsets[j]);
      }
      assert offsets == stored;
    }
  }

  // ----- Applying the plan

  /** The payload exchange is the request exchange turned around, every number times the extra count. */
  ghost predicate IsPayloadExchange(world: seq<seq<Route>>, extraCount: nat, r: nat, x: Exchange)
    requires r < |world|
  {
    && |x.sendCounts| == |x.sendDisplacements| == |x.receiveCounts| == |x.receiveDisplacements| == |world|
    && forall q :: 0 <= q < |world| ==>
         IsPayloadGroup(world, extraCount, r, q, x.sendCounts[q], x.sendDisplacements[q], x.receiveCounts[q],
                        x.receiveDisplacements[q])
  }

  ghost predicate IsPayloadGroup(world: seq<seq<Route>>, extraCount: nat, r: nat, q: nat,
                                 sendCount: nat, sendAt: nat, receiveCount: nat, receiveAt: nat)
    requires r < |world| && q < |world|
  {
    && sendCount == Times(CountOwner(world[q], r), extraCount)
    && sendAt == Times(PrefixSum(Incoming(world, r), q), extraCount)
    && receiveCount == Times(CountOwner(world[r], q), extraCount)
    && receiveAt == Times(CountBelow(world[r], q), extraCount)
  }

  ghost predicate PayloadExchanges(world: seq<seq<Route>>, extraCount: nat, xs: seq<Exchange>) {
    |xs| == |world| && forall r :: 0 <= r < |xs| ==> IsPayloadExchange(world, extraCount, r, xs[r])
  }

  /** Payload buffers long enough for both sides of the exchange. */
  ghost predicate PayloadBuffers<T>(world: seq<seq<Route>>, extraCount: nat, sent: seq<seq<T>>, before: seq<seq<T>>) {
    && |sent| == |before| == |world|
    && (forall s :: 0 <= s < |world| ==> Times(PrefixSum(Incoming(world, s), |world|), extraCount) <= |sent[s]|)
    && (forall r :: 0 <= r < |world| ==> Times(|world[r]|, extraCount) <= |before[r]|)
  }

  lemma PayloadExchangeConsistent<T>(world: seq<seq<Route>>, extraCount: nat, xs: seq<Exchange>, sent: seq<seq<T>>,
                                     before: seq<seq<T>>)
    requires PayloadExchanges(world, extraCount, xs) && PayloadBuffers(world, extraCount, sent, before)
    ensures Consistent(xs, sent, before)
  {
    forall i, j | 0 <= i < |xs| && 0 <= j < |xs| ensures Linked(xs[i], i, xs[j], j, sent[i], before[j]) {
      PayloadLinked(world, extraCount, i, j, xs[i], xs[j], sent[i], before[j]);
    }
    forall i, j, k | 0 <= i < |xs| && 0 <= j < k < |xs|
      ensures xs[i].receiveDisplacements[j] + xs[i].receiveCounts[j] <= xs[i].receiveDisplacements[k]
    {
      assert IsPayloadExchange(world, extraCount, i, xs[i]);
      GroupsApart(world[i], extraCount, j, k);
    }
  }

  lemma PayloadLinked<T>(world: seq<seq<Route>>, extraCount: nat, i: nat, j: nat, x: Exchange, y: Exchange,
                         sent: seq<T>, before: seq<T>)
    requires i < |world| && j < |world|
    requires IsPayloadExchange(world, extraCount, i, x) && IsPayloadExchange(world, extraCount, j, y)
    requires Times(PrefixSum(Incoming(world, i), |world|), extraCount) <= |sent|
      && Times(|world[j]|, extraCount) <= |before|
    ensures Linked(x, i, y, j, sent, before)
  {
    SegmentsApart(Incoming(world, i), j, |world|, extraCount);
    CountsAdd(world[j], i);
    TimesDistribute(CountBelow(world[j], i), CountOwner(world[j], i), extraCount);
    TimesMono(CountBelow(world[j], i + 1), |world[j]|, extraCount, extraCount);
  }

  lemma GroupsApart(entries: seq<Route>, extraCount: nat, j: nat, k: nat)
    requires j < k
    ensures Times(CountBelow(entries, j), extraCount) +
      Times(CountOwner(entries, j), extraCount) <= Times(CountBelow(entries, k), extraCount)
  {
    CountsAdd(entries, j);
    CountsGrow(entries, j + 1, k);
    TimesDistribute(CountBelow(entries, j), CountOwner(entries, j), extraCount);
    TimesMono(CountBelow(entries, j + 1), CountBelow(entries, k), extraCount, extraCount);
  }

  lemma {:induction false} CountsGrow(entries: seq<Route>, j: nat, k: nat)
    requires j <= k
    ensures CountBelow(entries, j) <= CountBelow(entries, k)
  {
    if entries != [] {
      CountsGrow(entries[..|entries| - 1], j, k);
    }
  }

  /** Rank `s` packed the elements it was asked for, its offsets in the order of the requests. */
  ghost predicate RankPacked<T>(world: seq<seq<Route>>, extraCount: nat, s: nat, len: nat, offsets: seq<nat>,
                                storage: seq<T>, payload: seq<T>)
    requires s < |world|
  {
    var counts := Incoming(world, s);
    Agrees(counts, Displacements(counts), offsets, extraCount, len, |world|, storage, payload)
  }

  ghost function OwnedCounts(entries: seq<Route>, n: nat): (counts: seq<nat>)
    ensures |counts| == n && forall q :: 0 <= q < n ==> counts[q] == CountOwner(entries, q)
  {
    seq(n, q requires 0 <= q < n => CountOwner(entries, q))
  }

  ghost function DestinationOffsets(entries: seq<Route>): (offsets: seq<nat>)
    ensures |offsets| == |entries| && forall i :: 0 <= i < |entries| ==> offsets[i] == entries[i].destinationOffset
  {
    seq(|entries|, i requires 0 <= i < |entries| => entries[i].destinationOffset)
  }

  /** Rank `r` unpacked what it received into the cells that asked for it. */
  ghost predicate RankUnpacked<T>(world: seq<seq<Route>>, extraCount: nat, r: nat, len: nat, storage: seq<T>,
                                  payload: seq<T>)
    requires r < |world|
  {
    var counts := OwnedCounts(world[r], |world|);
    Agrees(counts, Displacements(counts), DestinationOffsets(world[r]), extraCount, len, |world|, storage, payload)
  }

  lemma AgreesAt<T>(counts: seq<nat>, displacements: seq<nat>, offsets: seq<nat>, extraCount: nat, len: nat, n: nat,
                    storage: seq<T>, payload: seq<T>, q: nat, e: nat, k: nat)
    requires n <= |counts| == |displacements|
      && Agrees(counts, displacements, offsets, extraCount, len, n, storage, payload)
    requires q < n && e < extraCount && k < counts[q]
    ensures displacements[q] + k < |offsets|
    ensures CellsAgree(Times(e, len) + offsets[displacements[q] + k],
                       PayloadCell(displacements[q], counts[q], extraCount, e, k), storage, payload)
  {
    assert GroupAgrees(counts[q], displacements[q], offsets, extraCount, len, e, storage, payload);
    assert CellsAgree(RequestCell(offsets, displacements[q], len, e, k),
                      PayloadCell(displacements[q], counts[q], extraCount, e, k), storage, payload);
  }

  /** Element `k` of extra group `e` of one message, at both ends. */
  lemma PayloadArrives<T>(world: seq<seq<Route>>, extraCount: nat, xs: seq<Exchange>, sent: seq<seq<T>>,
                          before: seq<seq<T>>, r: nat, s: nat, e: nat, k: nat)
    requires PayloadExchanges(world, extraCount, xs) && PayloadBuffers(world, extraCount, sent, before)
      && Consistent(xs, sent, before)
    requires r < |world| && s < |world| && e < extraCount && k < CountOwner(world[r], s)
    ensures var count := CountOwner(world[r], s);
      var to := PayloadCell(CountBelow(world[r], s), count, extraCount, e, k);
      var from := PayloadCell(PrefixSum(Incoming(world, s), r), count, extraCount, e, k);
      to < |before[r]| && from < |sent[s]| && AllToAllV(xs, r, sent, before)[to] == sent[s][from]
  {
    hide Consistent;
    hide AllToAllV;
    assert IsPayloadExchange(world, extraCount, r, xs[r]) && IsPayloadExchange(world, extraCount, s, xs[s]);
    var count := CountOwner(world[r], s);
    TimesMono(e + 1, extraCount, count, count);
    TimesComm(count, extraCount);
    SegmentArrives(xs, r, s, sent, before, Times(e, count) + k);
  }

  lemma PackedElement<T>(world: seq<seq<Route>>, extraCount: nat, s: nat, r: nat, k: nat, e: nat, len: nat,
                         offsets: seq<nat>, storage: seq<T>, payload: seq<T>)
    requires s < |world| && r < |world| && k < CountOwner(world[r], s) && e < extraCount
    requires RankPacked(world, extraCount, s, len, offsets, storage, payload)
    ensures PrefixSum(Incoming(world, s), r) + k < |offsets|
    ensures CellsAgree(Times(e, len) + offsets[PrefixSum(Incoming(world, s), r) + k],
                       PayloadCell(PrefixSum(Incoming(world, s), r), CountOwner(world[r], s), extraCount, e, k),
                       storage, payload)
  {
    var counts := Incoming(world, s);
    hide PrefixSum;
    AgreesAt(counts, Displacements(counts), offsets, extraCount, len, |world|, storage, payload, r, e, k);
  }

  lemma UnpackedElement<T>(world: seq<seq<Route>>, extraCount: nat, r: nat, s: nat, k: nat, e: nat, len: nat,
                           storage: seq<T>, payload: seq<T>)
    requires s < |world| && r < |world| && k < CountOwner(world[r], s) && e < extraCount
    requires RankUnpacked(world, extraCount, r, len, storage, payload)
    ensures CountBelow(world[r], s) + k < |world[r]|
    ensures CellsAgree(Times(e, len) + world[r][CountBelow(world[r], s) + k].destinationOffset,
                       PayloadCell(CountBelow(world[r], s), CountOwner(world[r], s), extraCount, e, k), storage,
                       payload)
  {
    var counts, offsets := OwnedCounts(world[r], |world|), DestinationOffsets(world[r]);
    PrefixSumOfCounts(world[r], counts, s);
    hide PrefixSum;
    hide CountOwner;
    hide CountBelow;
    assert Displacements(counts)[s] == CountBelow(world[r], s);
    AgreesAt(counts, Displacements(counts), offsets, extraCount, len, |world|, storage, payload, s, e, k);
  }

  /** Element `k` of the message from rank `s` to rank `r`, from storage to storage. */
  lemma ValueArrives<T>(world: seq<seq<Route>>, extraCount: nat, xs: seq<Exchange>, sent: seq<seq<T>>,
                        before: seq<seq<T>>, r: nat, s: nat, k: nat, e: nat, sourceLen: nat, offsets: seq<nat>,
                        source: seq<T>, destinationLen: nat, destination: seq<T>)
    requires PayloadExchanges(world, extraCount, xs) && PayloadBuffers(world, extraCount, sent, before)
      && Consistent(xs, sent, before)
    requires r < |world| && s < |world| && e < extraCount && k < CountOwner(world[r], s)
    requires RankPacked(world, extraCount, s, sourceLen, offsets, source, sent[s])
    requires RankUnpacked(world, extraCount, r, destinationLen, destination, AllToAllV(xs, r, sent, before))
    ensures PrefixSum(Incoming(world, s), r) + k < |offsets| && CountBelow(world[r], s) + k < |world[r]|
    ensures var from := Times(e, sourceLen) + offsets[PrefixSum(Incoming(world, s), r) + k];
      var to := Times(e, destinationLen) + world[r][CountBelow(world[r], s) + k].destinationOffset;
      from < |source| && to < |destination| && destination[to] == source[from]
  {
    hide RankPacked;
    hide RankUnpacked;
    hide AllToAllV;
    hide Consistent;
    hide PrefixSum;
    hide CountOwner;
    hide CountBelow;
    PackedElement(world, extraCount, s, r, k, e, sourceLen, offsets, source, sent[s]);
    UnpackedElement(world, extraCount, r, s, k, e, destinationLen, destination, AllToAllV(xs, r, sent, before));
    PayloadArrives(world, extraCount, xs, sent, before, r, s, e, k);
  }

  /** The place of entry `i` among the requests to its owner, and the owner's offset for it. */
  lemma RequestOffset(m: Remap, world: seq<seq<Route>>, r: nat, i: nat, s: nat, offsets: seq<nat>) returns (k: nat)
    requires Routed(m, world) && r < |world| && i < |world[r]| && s < |world| && s == world[r][i].owner
    requires OffsetsOf(m, world, s, offsets)
    ensures k < CountOwner(world[r], s) && i == CountBelow(world[r], s) + k
    ensures PrefixSum(Incoming(world, s), r) + k < |offsets|
    ensures Owned(m, s, world[r][i].globalIndex)
    ensures offsets[PrefixSum(Incoming(world, s), r) + k] == StoredAt(m, s, world[r][i].globalIndex)
  {
    hide InBounds;
    hide NoDuplicates;
    hide Digits;
    hide Linear;
    hide StoredAt;
    hide Owned;
    hide IsRoute;
    hide RoutesOf;
    hide LocalLayout.Len;
    hide Distribution.RangesAt;
    hide Distribution.Valid;
    hide Affine.Valid;
    hide SortedByOwner;
    RoutedSorted(m, world);
    var j := EntryIsRequested(world, s, r, i);
    RequestOwned(m, world, s, j);
    assert OffsetAt(m, world, s, j, offsets[j]);
    k := i - CountBelow(world[r], s);
    CountsAdd(world[r], s);
  }

  /** Every rank packed, exchanged and unpacked with the prepared plan. */
  ghost predicate Applied<T>(m: Remap, world: seq<seq<Route>>, extraCount: nat, offsets: seq<seq<nat>>,
                             xs: seq<Exchange>, source: seq<seq<T>>, sent: seq<seq<T>>, before: seq<seq<T>>,
                             destination: seq<seq<T>>)
    requires Routed(m, world)
  {
    && |offsets| == |source| == |destination| == |world|
    && PayloadExchanges(world, extraCount, xs) && PayloadBuffers(world, extraCount, sent, before)
    && Consistent(xs, sent, before)
    && (forall s :: 0 <= s < |world| ==> OffsetsOf(m, world, s, offsets[s]))
    && (forall s :: 0 <= s < |world| ==>
        RankPacked(world, extraCount, s, m.SourceAt(s).Len(), offsets[s], source[s], sent[s]))
    && (forall r :: 0 <= r < |world| ==>
         RankUnpacked(world, extraCount, r, m.DestinationAt(r).Len(), destination[r], AllToAllV(xs, r, sent, before)))
  }

  /** `s` is the source index of `g`: on every axis it lies inside the extent and differs from
      `sign * g + offset` by whole turns around the extent. */
  ghost predicate IsImage(m: Remap, g: seq<nat>, s: seq<nat>, turns: seq<int>)
    requires m.Valid() && InBounds(m.destination.shape, g)
  {
    && |s| == |turns| == |m.source.shape|
    && forall a :: 0 <= a < |s| ==>
         s[a] < m.source.shape[a]
         && m.affine.signs[a] * g[a] + m.affine.offsets[a] == turns[a] * m.source.shape[a] + s[a]
  }

  lemma ImageOf(m: Remap, g: seq<nat>) returns (s: seq<nat>, turns: seq<int>)
    requires m.Valid() && InBounds(m.destination.shape, g)
    ensures IsImage(m, g, s, turns) && s == SourceOf(m, g)
  {
    s := SourceOf(m, g);
    turns := Turns(m.affine, m.source.shape, g);
  }

  /** The remap theorem: for arbitrary decompositions and permutations on both sides, any order of
      requests with the same owner, and any extra count, destination index `g` ends up with the
      source value at the image `s` of `g`. */
  lemma RemapRealisesAffineMap<T>(m: Remap, world: seq<seq<Route>>, extraCount: nat, offsets: seq<seq<nat>>,
                                  xs: seq<Exchange>, source: seq<seq<T>>, sent: seq<seq<T>>, before: seq<seq<T>>,
                                  destination: seq<seq<T>>, e: nat, g: seq<nat>)
    returns (s: seq<nat>, turns: seq<int>)
    requires Routed(m, world) && WorldOf(m.source, extraCount, source)
      && WorldOf(m.destination, extraCount, destination)
    requires Applied(m, world, extraCount, offsets, xs, source, sent, before, destination)
    requires e < extraCount && InBounds(m.destination.shape, g)
    ensures IsImage(m, g, s, turns) && InBounds(m.source.shape, s)
    ensures GlobalAt(m.destination, extraCount, destination, e, g) == GlobalAt(m.source, extraCount, source, e, s)
  {
    hide IsImage;
    hide InBounds;
    hide GlobalAt;
    hide WorldOf;
    hide Routed;
    hide Applied;
    RoutedValid(m, world);
    s, turns := ImageOf(m, g);
    SourceArrives(m, world, extraCount, offsets, xs, source, sent, before, destination, e, g);
  }

  lemma RoutedValid(m: Remap, world: seq<seq<Route>>)
    requires Routed(m, world)
    ensures m.Valid()
  {
  }

  lemma SourceArrives<T>(m: Remap, world: seq<seq<Route>>, extraCount: nat, offsets: seq<seq<nat>>, xs: seq<Exchange>,
                         source: seq<seq<T>>, sent: seq<seq<T>>, before: seq<seq<T>>, destination: seq<seq<T>>, e: nat,
                         g: seq<nat>)
    requires Routed(m, world) && WorldOf(m.source, extraCount, source)
      && WorldOf(m.destination, extraCount, destination)
    requires Applied(m, world, extraCount, offsets, xs, source, sent, before, destination)
    requires e < extraCount && InBounds(m.destination.shape, g)
    ensures GlobalAt(m.destination, extraCount, destination, e, g) ==
      GlobalAt(m.source, extraCount, source, e, SourceOf(m, g))
  {
    hide InBounds;
    hide InBox;
    hide Affine.Apply;
    hide Affine.Valid;
    hide Distribution.OwnerOf;
    hide Distribution.RangesAt;
    hide LocalLayout.Len;
    hide LocalLayout.Offset;
    hide LocalLayout.IndexOf;
    hide Digits;
    hide Linear;
    hide GlobalAt;
    hide WorldOf;
    hide OffsetsOf;
    hide RankPacked;
    hide RankUnpacked;
    hide Consistent;
    hide AllToAllV;
    hide StoredAt;
    hide Owned;
    hide PrefixSum;
    hide NoDuplicates;
    hide Incoming;
    var h, r := SourceOf(m, g), RankFor(m.destination, g);
    var i := RouteOfIndex(m, world, r, g);
    var owner := world[r][i].owner;
    ReadDestination(m, extraCount, destination, e, g, r);
    ReadSource(m, extraCount, source, e, h, owner);
    var k := RequestOffset(m, world, r, i, owner, offsets[owner]);
    EntryMoves(world, extraCount, xs, sent, before, r, i, owner, k, e, m.SourceAt(owner).Len(), offsets[owner],
               source[owner], m.DestinationAt(r).Len(), destination[r], StoredAt(m, owner, world[r][i].globalIndex));
  }

  /** Preparation on all ranks: the requests are exchanged, and every rank decodes what it received. */
  ghost predicate PreparedOnAll(m: Remap, world: seq<seq<Route>>, xs: seq<Exchange>, sent: seq<seq<nat>>,
                                before: seq<seq<nat>>, offsets: seq<seq<nat>>)
    requires Routed(m, world)
  {
    && RequestExchanges(world, xs) && IndexBuffers(world, sent, before) && |offsets| == |world|
    && forall s :: 0 <= s < |world| ==> RankPrepared(m, world, xs, sent, before, s, offsets[s])
  }

  ghost predicate RankPrepared(m: Remap, world: seq<seq<Route>>, xs: seq<Exchange>, sent: seq<seq<nat>>,
                               before: seq<seq<nat>>, s: nat, offsets: seq<nat>)
    requires Routed(m, world) && RequestExchanges(world, xs) && IndexBuffers(world, sent, before) && s < |world|
  {
    exists requests :: RequestsReceived(world, xs, sent, before, s, requests) && Decoded(m, s, requests, offsets)
  }

  lemma OffsetsDecoded(m: Remap, world: seq<seq<Route>>, xs: seq<Exchange>, sent: seq<seq<nat>>, before: seq<seq<nat>>,
                       s: nat, offsets: seq<nat>)
    requires Routed(m, world) && RequestExchanges(world, xs) && IndexBuffers(world, sent, before) && s < |world|
    requires RankPrepared(m, world, xs, sent, before, s, offsets)
    ensures OffsetsOf(m, world, s, offsets)
  {
    hide RequestsReceived;
    hide Decoded;
    hide OffsetsOf;
    var requests :| RequestsReceived(world, xs, sent, before, s, requests) && Decoded(m, s, requests, offsets);
    ReceivedRequestsAccepted(m, world, xs, sent, before, s, requests, offsets);
  }

  /** Execution on all ranks: pack by the decoded offsets, exchange, unpack. */
  ghost predicate ExecutedOnAll<T>(m: Remap, world: seq<seq<Route>>, extraCount: nat, offsets: seq<seq<nat>>,
                                   xs: seq<Exchange>, source: seq<seq<T>>, sent: seq<seq<T>>, before: seq<seq<T>>,
                                   destination: seq<seq<T>>)
    requires Routed(m, world)
  {
    && |offsets| == |source| == |destination| == |world|
    && PayloadExchanges(world, extraCount, xs) && PayloadBuffers(world, extraCount, sent, before)
    && (PayloadExchangeConsistent(world, extraCount, xs, sent, before);
        && (forall s :: 0 <= s < |world| ==>
            RankPacked(world, extraCount, s, m.SourceAt(s).Len(), offsets[s], source[s], sent[s]))
        && (forall r :: 0 <= r < |world| ==>
             RankUnpacked(world, extraCount, r, m.DestinationAt(r).Len(), destination[r],
                          AllToAllV(xs, r, sent, before))))
  }

  /** The remap from preparation to result: whatever order of requests the sort chose, preparing and
      executing on all ranks puts the value at the affine image of each destination index there. Neither
      the offsets nor the consistency of the two exchanges is assumed. */
  lemma PreparedRemapRealisesAffineMap<T>(m: Remap, world: seq<seq<Route>>, extraCount: nat, requestXs: seq<Exchange>,
                                          indices: seq<seq<nat>>, indexBuffers: seq<seq<nat>>, offsets: seq<seq<nat>>,
                                          xs: seq<Exchange>, source: seq<seq<T>>, sent: seq<seq<T>>,
                                          before: seq<seq<T>>, destination: seq<seq<T>>, e: nat, g: seq<nat>)
    returns (s: seq<nat>, turns: seq<int>)
    requires Routed(m, world) && WorldOf(m.source, extraCount, source)
      && WorldOf(m.destination, extraCount, destination)
    requires PreparedOnAll(m, world, requestXs, indices, indexBuffers, offsets)
    requires ExecutedOnAll(m, world, extraCount, offsets, xs, source, sent, before, destination)
    requires e < extraCount && InBounds(m.destination.shape, g)
    ensures |s| == |turns| == |m.source.shape| && InBounds(m.source.shape, s)
    ensures forall a :: 0 <= a < |s| ==>
      m.affine.signs[a] * g[a] + m.affine.offsets[a] == turns[a] * m.source.shape[a] + s[a]
    ensures GlobalAt(m.destination, extraCount, destination, e, g) == GlobalAt(m.source, extraCount, source, e, s)
  {
    hide InBounds;
    hide Affine.Apply;
    hide GlobalAt;
    hide WorldOf;
    hide Routed;
    hide RankPrepared;
    hide OffsetsOf;
    hide AllToAllV;
    hide Consistent;
    hide RankPacked;
    hide RankUnpacked;
    hide PayloadExchanges;
    hide PayloadBuffers;
    forall rank | 0 <= rank < |world| ensures OffsetsOf(m, world, rank, offsets[rank]) {
      assert RankPrepared(m, world, requestXs, indices, indexBuffers, rank, offsets[rank]);
      OffsetsDecoded(m, world, requestXs, indices, indexBuffers, rank, offsets[rank]);
    }
    PayloadExchangeConsistent(world, extraCount, xs, sent, before);
    s, turns := RemapRealisesAffineMap(m, world, extraCount, offsets, xs, source, sent, before, destination, e, g);
  }

  lemma EntryMoves<T>(world: seq<seq<Route>>, extraCount: nat, xs: seq<Exchange>, sent: seq<seq<T>>,
                      before: seq<seq<T>>, r: nat, i: nat, s: nat, k: nat, e: nat, sourceLen: nat, offsets: seq<nat>,
                      source: seq<T>, destinationLen: nat, destination: seq<T>, offset: nat)
    requires PayloadExchanges(world, extraCount, xs) && PayloadBuffers(world, extraCount, sent, before)
      && Consistent(xs, sent, before)
    requires r < |world| && i < |world[r]| && s < |world| && e < extraCount
    requires k < CountOwner(world[r], s) && i == CountBelow(world[r], s) + k
    requires PrefixSum(Incoming(world, s), r) + k < |offsets| && offsets[PrefixSum(Incoming(world, s), r) + k] == offset
    requires RankPacked(world, extraCount, s, sourceLen, offsets, source, sent[s])
    requires RankUnpacked(world, extraCount, r, destinationLen, destination, AllToAllV(xs, r, sent, before))
    ensures var from, to := Times(e, sourceLen) + offset, Times(e, destinationLen) + world[r][i].destinationOffset;
      from < |source| && to < |destination| && destination[to] == source[from]
  {
    hide RankPacked;
    hide RankUnpacked;
    hide Consistent;
    hide AllToAllV;
    hide PrefixSum;
    hide CountOwner;
    hide CountBelow;
    ValueArrives(world, extraCount, xs, sent, before, r, s, k, e, sourceLen, offsets, source, destinationLen,
                 destination);
  }

  /** The entry of rank `r` for index `g` of its box. */
  lemma RouteOfIndex(m: Remap, world: seq<seq<Route>>, r: nat, g: seq<nat>) returns (i: nat)
    requires Routed(m, world) && r < |world| && InBounds(m.destination.shape, g) && InBox(m.DestinationAt(r).ranges, g)
    ensures i < |world[r]| && world[r][i].owner < |world|
    ensures world[r][i].destinationOffset == m.DestinationAt(r).Offset(g)
    ensures world[r][i].globalIndex == Linear(m.source.shape, SourceOf(m, g))
    ensures world[r][i].owner == Linear(m.source.grid, m.source.OwnerOf(SourceOf(m, g)))
  {
    RankLayouts(m, r);
    OffsetRoundTrip(m.DestinationAt(r), g);
    assert RoutesOf(m, r, world[r]);
    i := RouteFor(m, r, world[r], m.DestinationAt(r).Offset(g));
    assert ElementAt(m, r, m.DestinationAt(r).Offset(g)) == g;
  }

  lemma ReadDestination<T>(m: Remap, extraCount: nat, world: seq<seq<T>>, e: nat, g: seq<nat>, r: nat)
    requires m.Valid() && WorldOf(m.destination, extraCount, world) && e < extraCount && r < m.Ranks()
    requires InBounds(m.destination.shape, g) && InBox(m.DestinationAt(r).ranges, g)
    ensures r < |world| && Times(e, m.DestinationAt(r).Len()) + m.DestinationAt(r).Offset(g) < |world[r]|
    ensures GlobalAt(m.destination, extraCount, world, e, g) ==
      world[r][Times(e, m.DestinationAt(r).Len()) + m.DestinationAt(r).Offset(g)]
  {
    hide GlobalAt;
    hide WorldOf;
    hide InBox;
    hide InBounds;
    hide Digits;
    hide Linear;
    hide Product;
    RankLayouts(m, r);
    GlobalAtRank(m.destination, extraCount, world, e, g, Digits(m.destination.grid, r));
  }

  lemma ReadSource<T>(m: Remap, extraCount: nat, world: seq<seq<T>>, e: nat, h: seq<nat>, s: nat)
    requires m.Valid() && WorldOf(m.source, extraCount, world) && e < extraCount && s < m.Ranks()
    requires InBounds(m.source.shape, h) && s == Linear(m.source.grid, m.source.OwnerOf(h))
    ensures Owned(m, s, Linear(m.source.shape, h))
    ensures s < |world| && Times(e, m.SourceAt(s).Len()) + StoredAt(m, s, Linear(m.source.shape, h)) < |world[s]|
    ensures GlobalAt(m.source, extraCount, world, e, h) ==
      world[s][Times(e, m.SourceAt(s).Len()) + StoredAt(m, s, Linear(m.source.shape, h))]
  {
    RankLayouts(m, s);
    LinearBound(m.source.shape, h);
    DigitsOfLinear(m.source.shape, h);
    OwnedInBox(m, s, Linear(m.source.shape, h));
    hide GlobalAt;
    hide WorldOf;
    GlobalAtRank(m.source, extraCount, world, e, h, Digits(m.source.grid, s));
  }
}
