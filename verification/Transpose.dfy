/** The distributed transpose on one rank: peer list, counts, preflight, packing and unpacking. */
module Transposes {
  import opened MachineInts
  import opened Nonlinear
  import opened MixedRadix
  import opened Axis
  import opened Geometry
  import opened Pencil
  import opened RegionWalks
  import opened RegionChecks
  import opened Segments
  import opened Plans

  datatype Mode = AllToAllv | PointToPoint

  datatype Peer = Peer(coordinate: nat, send: Segment, receive: Segment)

  /** The calling rank's counts and displacements, one entry per peer; point-to-point execution
      passes no displacements to MPI. */
  datatype Exchange = Exchange(
    sendCounts: seq<nat>, sendDisplacements: seq<nat>,
    receiveCounts: seq<nat>, receiveDisplacements: seq<nat>)

  ghost predicate PeersOf(p: Plan, c: seq<nat>, peers: seq<Peer>) {
    && p.Fits(c) && |peers| == p.Peers()
    && forall q :: 0 <= q < |peers| ==> peers[q] == PeerAt(p, c, q)
  }

  function PeerAt(p: Plan, c: seq<nat>, q: nat): Peer
    requires p.Fits(c) && q < p.Peers()
  {
    Peer(q, p.SendSegment(c, q), p.ReceiveSegment(c, q))
  }

  lemma SegmentsFit(p: Plan, c: seq<nat>, q: nat)
    requires p.Valid() && p.Rank(c) && q < p.Peers()
    ensures p.Fits(c)
    ensures Placed(p.source.LayoutAt(c), p.SendSegment(c, q), p.source.LayoutAt(c).Len())
    ensures Placed(p.destination.LayoutAt(c), p.ReceiveSegment(c, q), p.destination.LayoutAt(c).Len())
    ensures Ordered(p.SendRegion(c, q)) && Ordered(p.ReceiveRegion(c, q))
    ensures PrefixSum(p.SendLens(c), q + 1) <= p.source.LayoutAt(c).Len() <= USIZE_MAX
    ensures PrefixSum(p.ReceiveLens(c), q + 1) <= p.destination.LayoutAt(c).Len() <= USIZE_MAX
  {
    SendSegmented(p, c);
    ReceiveSegmented(p, c);
    assert p.SendSegments(c)[q] == p.SendSegment(c, q) && p.ReceiveSegments(c)[q] == p.ReceiveSegment(c, q);
    LayoutValid(p.source, c);
    LayoutValid(p.destination, c);
    RegionsAgree(p, c, q);
    LayoutValid(p.source, p.PeerOf(c, q));
    LayoutValid(p.destination, p.PeerOf(c, q));
    IntersectCovered(p.source.RangesAt(c), p.destination.RangesAt(p.PeerOf(c, q)));
    IntersectCovered(p.source.RangesAt(p.PeerOf(c, q)), p.destination.RangesAt(c));
  }

  /** Builds the peer list; none of its checks can fail for a valid plan. */
  method BuildPeerMetadata(p: Plan, c: seq<nat>) returns (r: Result<seq<Peer>, PreparationFailed>)
    requires p.Valid() && p.Rank(c) && p.Peers() <= COUNT_MAX
    ensures r.Ok? && PeersOf(p, c, r.value)
  {
    assert p.Fits(c) && p.axis < |p.source.grid|;
    var n := p.Peers();
    var peers: seq<Peer> := [];
    var sendDisplacement: usize, receiveDisplacement: usize := 0, 0;
    PeerZero(p, c);
    hide PeerAt;
    hide PeersOf;
    hide Plan.Fits;
    hide Plan.Peers;
    hide Plan.Valid;
    hide Plan.Rank;
    hide SendBefore;
    hide ReceiveBefore;
    for q := 0 to n
      invariant |peers| == q && forall i :: 0 <= i < q ==> peers[i] == PeerAt(p, c, i)
      invariant sendDisplacement == SendBefore(p, c, q) && receiveDisplacement == ReceiveBefore(p, c, q)
    {
      if q > COUNT_MAX {
        return Err(PreparationFailed.PreparationFailed);
      }
      var peer := NextPeer(p, c, q, sendDisplacement, receiveDisplacement);
      if peer.Err? {
        return Err(PreparationFailed.PreparationFailed);
      }
      peers := peers + [peer.value.0];
      sendDisplacement, receiveDisplacement := peer.value.1, peer.value.2;
    }
    PeersComplete(p, c, peers);
    return Ok(peers);
  }

  ghost function SendBefore(p: Plan, c: seq<nat>, q: nat): nat
    requires p.Fits(c) && q <= p.Peers()
  {
    PrefixSum(p.SendLens(c), q)
  }

  ghost function ReceiveBefore(p: Plan, c: seq<nat>, q: nat): nat
    requires p.Fits(c) && q <= p.Peers()
  {
    PrefixSum(p.ReceiveLens(c), q)
  }

  lemma PeerZero(p: Plan, c: seq<nat>)
    requires p.Fits(c)
    ensures SendBefore(p, c, 0) == ReceiveBefore(p, c, 0) == 0
  {
  }

  /** Peer `q` from its two regions and the elements before it; the next displacements fit. */
  lemma PeerNext(p: Plan, c: seq<nat>, q: nat)
    requires p.Valid() && p.Rank(c) && q < p.Peers()
    ensures p.Fits(c) && p.Fits(p.PeerOf(c, q)) && |p.source.RangesAt(c)| == |p.destination.RangesAt(c)|
    ensures var send := Intersect(p.source.RangesAt(c), p.destination.RangesAt(p.PeerOf(c, q)));
      var receive := Intersect(p.source.RangesAt(p.PeerOf(c, q)), p.destination.RangesAt(c));
      && Ordered(send) && FitsUsize(send) && Ordered(receive) && FitsUsize(receive)
      && SendBefore(p, c, q) + Volume(send) == SendBefore(p, c, q + 1) <= USIZE_MAX
      && ReceiveBefore(p, c, q) + Volume(receive) == ReceiveBefore(p, c, q + 1) <= USIZE_MAX
      && PeerAt(p, c, q) == Peer(q, Segment(send, Volume(send), SendBefore(p, c, q)),
                                    Segment(receive, Volume(receive), ReceiveBefore(p, c, q)))
  {
    SegmentsFit(p, c, q);
  }

  lemma PeersComplete(p: Plan, c: seq<nat>, peers: seq<Peer>)
    requires p.Fits(c) && |peers| == p.Peers() && forall q :: 0 <= q < |peers| ==> peers[q] == PeerAt(p, c, q)
    ensures PeersOf(p, c, peers)
  {
  }

  /** One peer's entry: the parts of the own boxes that meet the peer's, and the next displacements. */
  method NextPeer(p: Plan, c: seq<nat>, q: nat, sendDisplacement: usize, receiveDisplacement: usize)
    returns (r: Result<(Peer, nat, nat), PreparationFailed>)
    requires p.Valid() && p.Rank(c) && p.Fits(c) && q < p.Peers()
    requires sendDisplacement == SendBefore(p, c, q) && receiveDisplacement == ReceiveBefore(p, c, q)
    ensures r == Ok((PeerAt(p, c, q), SendBefore(p, c, q + 1), ReceiveBefore(p, c, q + 1)))
    ensures SendBefore(p, c, q + 1) <= USIZE_MAX && ReceiveBefore(p, c, q + 1) <= USIZE_MAX
  {
    hide PeerAt;
    hide Intersect;
    hide Distribution.RangesAt;
    hide Plan.Valid;
    hide Plan.Rank;
    hide Volume;
    hide SendBefore;
    hide ReceiveBefore;
    PeerNext(p, c, q);
    var there := p.PeerOf(c, q);
    var sendRegion := Intersect(p.source.RangesAt(c), p.destination.RangesAt(there));
    var receiveRegion := Intersect(p.source.RangesAt(there), p.destination.RangesAt(c));
    r := MeasurePeer(q, sendRegion, receiveRegion, sendDisplacement, receiveDisplacement);
  }

  /** Measures both regions of one peer and advances the displacements. */
  method MeasurePeer(q: nat, sendRegion: Box, receiveRegion: Box, sendDisplacement: usize, receiveDisplacement: usize)
    returns (r: Result<(Peer, nat, nat), PreparationFailed>)
    requires Ordered(sendRegion) && FitsUsize(sendRegion) && sendDisplacement + Volume(sendRegion) <= USIZE_MAX
    requires Ordered(receiveRegion) && FitsUsize(receiveRegion)
      && receiveDisplacement + Volume(receiveRegion) <= USIZE_MAX
    ensures r == Ok((Peer(q, Segment(sendRegion, Volume(sendRegion), sendDisplacement),
                             Segment(receiveRegion, Volume(receiveRegion), receiveDisplacement)),
                     sendDisplacement + Volume(sendRegion), receiveDisplacement + Volume(receiveRegion)))
  {
    hide Volume;
    var sendLen := RegionSpatialLen(sendRegion);
    var receiveLen := RegionSpatialLen(receiveRegion);
    if sendLen.Err? || receiveLen.Err? {
      return Err(PreparationFailed.PreparationFailed);
    }
    var peer := Peer(q, Segment(sendRegion, sendLen.value, sendDisplacement),
                        Segment(receiveRegion, receiveLen.value, receiveDisplacement));
    var send := CheckedAdd(sendDisplacement, sendLen.value);
    var receive := CheckedAdd(receiveDisplacement, receiveLen.value);
    if send.None? || receive.None? {
      return Err(PreparationFailed.PreparationFailed);
    }
    return Ok((peer, send.value, receive.value));
  }

  /** What the exchange of rank `c` is: every length and displacement times the extra count. */
  ghost function ExchangeAt(p: Plan, c: seq<nat>, extraCount: nat, mode: Mode): (x: Exchange)
    requires p.Fits(c)
    ensures |x.sendCounts| == |x.receiveCounts| == p.Peers()
    ensures |x.sendDisplacements| == |x.receiveDisplacements| == if mode == AllToAllv then p.Peers() else 0
  {
    Exchange(
      Scaled(p.SendLens(c), extraCount), if mode == AllToAllv then Scaled(Displacements(p.SendLens(c)), extraCount)
        else [],
      Scaled(p.ReceiveLens(c), extraCount), if mode == AllToAllv
        then Scaled(Displacements(p.ReceiveLens(c)), extraCount) else [])
  }

  ghost function Scaled(s: seq<nat>, factor: nat): (r: seq<nat>)
    ensures |r| == |s| && forall i :: 0 <= i < |s| ==> r[i] == Times(s[i], factor)
  {
    seq(|s|, i requires 0 <= i < |s| => Times(s[i], factor))
  }

  ghost function Displacements(lens: seq<nat>): (r: seq<nat>)
    ensures |r| == |lens| && forall i :: 0 <= i < |lens| ==> r[i] == PrefixSum(lens, i)
  {
    seq(|lens|, i requires 0 <= i < |lens| => PrefixSum(lens, i))
  }

  /** The first `n` counts, and for Alltoallv the first `n` displacements, fit MPI's `Count`. */
  ghost predicate CountsFit(p: Plan, c: seq<nat>, extraCount: nat, mode: Mode, n: nat)
    requires p.Fits(c) && n <= p.Peers()
  {
    forall q :: 0 <= q < n ==>
      && SegmentFits(p.SendSegment(c, q), extraCount, mode)
      && SegmentFits(p.ReceiveSegment(c, q), extraCount, mode)
  }

  predicate SegmentFits(s: Segment, extraCount: nat, mode: Mode) {
    Times(s.len, extraCount) <= COUNT_MAX && (mode == AllToAllv ==> Times(s.displacement, extraCount) <= COUNT_MAX)
  }

  /** The products and their sum fit `usize`, and what is passed to MPI fits its `Count`. */
  predicate SegmentAccepted(s: Segment, extraCount: nat, mode: Mode) {
    SegmentFits(s, extraCount, mode) && Times(s.len, extraCount) + Times(s.displacement, extraCount) <= USIZE_MAX
  }

  /** Checks one side of one peer: its count, and its displacement where the mode sends one. */
  method CheckedSegment(s: Segment, batch: nat, mode: Mode) returns (r: Result<(usize, usize), TransposeError>)
    ensures r.Ok? <==> SegmentAccepted(s, batch, mode)
    ensures r.Ok? ==> r.value == (Times(s.len, batch), Times(s.displacement, batch))
    ensures r.Err? ==> r.error == CountOverflow
  {
    var count := CheckedMul(s.len, batch);
    var offset := CheckedMul(s.displacement, batch);
    if count.None? || offset.None? || count.value > COUNT_MAX || (mode == AllToAllv && offset.value > COUNT_MAX) {
      return Err(CountOverflow);
    }
    var end := CheckedAdd(count.value, offset.value);
    if end.None? {
      return Err(CountOverflow);
    }
    return Ok((count.value, offset.value));
  }

  /** At most `COUNT_MAX` counts that fit `Count` add up to less than a machine word. */
  lemma {:induction false} TotalsFit(lens: seq<nat>, extraCount: nat, q: nat)
    requires q <= |lens| && q <= COUNT_MAX && forall i :: 0 <= i < q ==> CountFits(lens, extraCount, i)
    ensures Times(PrefixSum(lens, q), extraCount) <= q * COUNT_MAX <= USIZE_MAX
  {
    if q == 0 {
      TimesIs(0, extraCount);
    } else {
      TotalsFit(lens, extraCount, q - 1);
      assert CountFits(lens, extraCount, q - 1);
      TimesDistribute(PrefixSum(lens, q - 1), lens[q - 1], extraCount);
    }
  }

  /** Once the segments before it fit, a segment that fits `Count` passes every other check too. */
  lemma NextAccepted(p: Plan, c: seq<nat>, q: nat, extraCount: nat, mode: Mode)
    requires p.Fits(c) && q < p.Peers() <= COUNT_MAX && CountsFit(p, c, extraCount, mode, q)
    ensures SegmentFits(p.SendSegment(c, q), extraCount, mode) ==> (
      && SegmentAccepted(p.SendSegment(c, q), extraCount, mode)
      && Times(PrefixSum(p.SendLens(c), q), extraCount) + Times(p.SendSegment(c, q).len, extraCount) ==
        Times(PrefixSum(p.SendLens(c), q + 1), extraCount) <= USIZE_MAX)
    ensures SegmentFits(p.ReceiveSegment(c, q), extraCount, mode) ==> (
      && SegmentAccepted(p.ReceiveSegment(c, q), extraCount, mode)
      && Times(PrefixSum(p.ReceiveLens(c), q), extraCount) + Times(p.ReceiveSegment(c, q).len, extraCount) ==
        Times(PrefixSum(p.ReceiveLens(c), q + 1), extraCount) <= USIZE_MAX)
  {
    hide SegmentFits;
    hide SegmentAccepted;
    hide PrefixSum;
    forall i | 0 <= i < q
      ensures CountFits(p.SendLens(c), extraCount, i) && CountFits(p.ReceiveLens(c), extraCount, i)
    {
      FitsCount(p.SendSegment(c, i), extraCount, mode);
      FitsCount(p.ReceiveSegment(c, i), extraCount, mode);
    }
    NextFits(p.SendLens(c), p.SendSegment(c, q), q, extraCount, mode);
    NextFits(p.ReceiveLens(c), p.ReceiveSegment(c, q), q, extraCount, mode);
  }

  ghost predicate CountFits(lens: seq<nat>, extraCount: nat, i: nat) {
    i < |lens| && Times(lens[i], extraCount) <= COUNT_MAX
  }

  lemma FitsCount(s: Segment, extraCount: nat, mode: Mode)
    ensures SegmentFits(s, extraCount, mode) ==> Times(s.len, extraCount) <= COUNT_MAX
  {
  }

  lemma NextFits(lens: seq<nat>, s: Segment, q: nat, extraCount: nat, mode: Mode)
    requires q < |lens| && q < COUNT_MAX && s.len == lens[q] && s.displacement == PrefixSum(lens, q)
    requires forall i :: 0 <= i < q ==> CountFits(lens, extraCount, i)
    ensures SegmentFits(s, extraCount, mode) ==> (
      && SegmentAccepted(s, extraCount, mode)
      && Times(PrefixSum(lens, q), extraCount) + Times(s.len, extraCount) ==
        Times(PrefixSum(lens, q + 1), extraCount) <= USIZE_MAX)
  {
    if SegmentFits(s, extraCount, mode) {
      assert CountFits(lens, extraCount, q);
      TotalsFit(lens, extraCount, q + 1);
      TimesDistribute(PrefixSum(lens, q), lens[q], extraCount);
    }
  }

  /** The total payload lengths, for any extra count: the only failure is a count, or with Alltoallv a
      displacement, beyond `Count`. A topology has at most `COUNT_MAX` ranks along an axis. */
  method WorkspaceRequirements(p: Plan, c: seq<nat>, peers: seq<Peer>, batch: usize, mode: Mode)
    returns (r: Result<(usize, usize), TransposeError>)
    requires p.Valid() && p.Rank(c) && PeersOf(p, c, peers) && p.Peers() <= COUNT_MAX
    ensures r.Ok? <==> CountsFit(p, c, batch, mode, p.Peers())
    ensures r.Ok? ==>
      r.value == (Times(p.source.LayoutAt(c).Len(), batch), Times(p.destination.LayoutAt(c).Len(), batch))
    ensures r.Err? ==> r.error == CountOverflow
  {
    hide Plan.Valid;
    hide InBounds;
    hide Product;
    hide Placed;
    hide SegmentAccepted;
    var sendLen: usize, receiveLen: usize := 0, 0;
    ghost var sends, receives := p.SendLens(c), p.ReceiveLens(c);
    TimesIs(0, batch);
    for q := 0 to |peers|
      invariant CountsFit(p, c, batch, mode, q)
      invariant sendLen == Times(PrefixSum(sends, q), batch) && receiveLen == Times(PrefixSum(receives, q), batch)
    {
      var peer := peers[q];
      NextAccepted(p, c, q, batch, mode);
      AcceptedFits(peer.send, batch, mode);
      AcceptedFits(peer.receive, batch, mode);
      var send := CheckedSegment(peer.send, batch, mode);
      var receive := CheckedSegment(peer.receive, batch, mode);
      if send.Err? || receive.Err? {
        return Err(CountOverflow);
      }
      var sentSoFar := CheckedAdd(sendLen, send.value.0);
      var receivedSoFar := CheckedAdd(receiveLen, receive.value.0);
      if sentSoFar.None? || receivedSoFar.None? {
        return Err(CountOverflow);
      }
      sendLen, receiveLen := sentSoFar.value, receivedSoFar.value;
    }
    SendTotal(p, c);
    ReceiveTotal(p, c);
    return Ok((sendLen, receiveLen));
  }

  lemma AcceptedFits(s: Segment, extraCount: nat, mode: Mode)
    ensures SegmentAccepted(s, extraCount, mode) ==> SegmentFits(s, extraCount, mode)
  {
  }

  /** Counts and displacements for one extra count. */
  method PrepareExchangeCounts(p: Plan, c: seq<nat>, peers: seq<Peer>, batch: usize, mode: Mode)
    returns (r: Result<Exchange, TransposeError>)
    requires p.Valid() && p.Rank(c) && PeersOf(p, c, peers) && p.Peers() <= COUNT_MAX
    ensures r == if CountsFit(p, c, batch, mode, p.Peers()) then Ok(ExchangeAt(p, c, batch, mode))
      else Err(CountOverflow)
  {
    var required := WorkspaceRequirements(p, c, peers, batch, mode);
    if required.Err? {
      return Err(required.error);
    }
    forall q | 0 <= q < |peers| ensures PeerFits(peers[q], p.Peers(), batch, mode, required.value.0, required.value.1) {
      SegmentsScaled(p, c, q, batch);
    }
    r := CountPeers(peers, p.Peers(), batch, mode, required.value.0, required.value.1);
    ghost var x := ExchangeAt(p, c, batch, mode);
    assert r.value.sendCounts == x.sendCounts && r.value.receiveCounts == x.receiveCounts;
    assert r.value.sendDisplacements == x.sendDisplacements && r.value.receiveDisplacements == x.receiveDisplacements;
  }

  ghost predicate PeerFits(peer: Peer, extent: nat, batch: nat, mode: Mode, sendLen: nat, receiveLen: nat) {
    && peer.coordinate < extent && SegmentFits(peer.send, batch, mode) && SegmentFits(peer.receive, batch, mode)
    && Times(peer.send.len, batch) + Times(peer.send.displacement, batch) <= sendLen
    && Times(peer.receive.len, batch) + Times(peer.receive.displacement, batch) <= receiveLen
  }

  /** The loop that fills the count and displacement vectors. */
  method CountPeers(peers: seq<Peer>, extent: nat, batch: usize, mode: Mode, sendLen: usize, receiveLen: usize)
    returns (r: Result<Exchange, TransposeError>)
    requires forall q :: 0 <= q < |peers| ==> PeerFits(peers[q], extent, batch, mode, sendLen, receiveLen)
    ensures r.Ok?
    ensures var x, n := r.value, if mode == AllToAllv then |peers| else 0;
      && |x.sendCounts| == |x.receiveCounts| == |peers| && |x.sendDisplacements| == |x.receiveDisplacements| == n
      && (forall i :: 0 <= i < |peers| ==> x.sendCounts[i] == Times(peers[i].send.len, batch))
      && (forall i :: 0 <= i < |peers| ==> x.receiveCounts[i] == Times(peers[i].receive.len, batch))
      && (forall i :: 0 <= i < n ==> x.sendDisplacements[i] == Times(peers[i].send.displacement, batch))
      && (forall i :: 0 <= i < n ==> x.receiveDisplacements[i] == Times(peers[i].receive.displacement, batch))
  {
    var sendCounts: seq<nat>, sendDisplacements: seq<nat>, receiveCounts: seq<nat>,
        receiveDisplacements: seq<nat> := [], [], [], [];
    hide SegmentFits;
    for q := 0 to |peers|
      invariant |sendCounts| == |receiveCounts| == q
      invariant |sendDisplacements| == |receiveDisplacements| == if mode == AllToAllv then q else 0
      invariant forall i :: 0 <= i < q ==> sendCounts[i] == Times(peers[i].send.len, batch)
      invariant forall i :: 0 <= i < q ==> receiveCounts[i] == Times(peers[i].receive.len, batch)
      invariant forall i :: 0 <= i < |sendDisplacements| ==>
        sendDisplacements[i] == Times(peers[i].send.displacement, batch)
      invariant forall i :: 0 <= i < |sendDisplacements| ==>
        receiveDisplacements[i] == Times(peers[i].receive.displacement, batch)
    {
      assert PeerFits(peers[q], extent, batch, mode, sendLen, receiveLen);
      if peers[q].coordinate >= extent {
        return Err(TransposeError.PreparationFailed);
      }
      var send := CheckedPartition(peers[q].send, batch, sendLen, mode);
      var receive := CheckedPartition(peers[q].receive, batch, receiveLen, mode);
      if send.Err? || receive.Err? {
        return Err(TransposeError.PreparationFailed);
      }
      sendCounts, receiveCounts := sendCounts + [send.value.0], receiveCounts + [receive.value.0];
      if mode == AllToAllv {
        sendDisplacements, receiveDisplacements := sendDisplacements + [send.value.1],
        receiveDisplacements + [receive.value.1];
      }
    }
    return Ok(Exchange(sendCounts, sendDisplacements, receiveCounts, receiveDisplacements));
  }

  /** The second check of one side of one peer: once the totals were computed it cannot fail. */
  method CheckedPartition(s: Segment, batch: nat, total: usize, mode: Mode)
    returns (r: Result<(nat, nat), TransposeError>)
    requires SegmentFits(s, batch, mode) && Times(s.len, batch) + Times(s.displacement, batch) <= total
    ensures r == Ok((Times(s.len, batch), Times(s.displacement, batch)))
  {
    var checked := CheckedSegment(s, batch, mode);
    if checked.value.0 + checked.value.1 > total {
      return Err(TransposeError.PreparationFailed);
    }
    return Ok((checked.value.0, checked.value.1));
  }

  /** Count and displacement of a segment end within the scaled total. */
  lemma SegmentsScaled(p: Plan, c: seq<nat>, q: nat, batch: nat)
    requires p.Valid() && p.Rank(c) && q < p.Peers()
    requires Times(p.source.LayoutAt(c).Len(), batch) <= USIZE_MAX
      && Times(p.destination.LayoutAt(c).Len(), batch) <= USIZE_MAX
    ensures p.Fits(c)
    ensures var s := p.SendSegment(c, q);
      Times(s.len, batch) + Times(s.displacement, batch) ==
        Times(PrefixSum(p.SendLens(c), q + 1), batch) <= Times(p.source.LayoutAt(c).Len(), batch)
    ensures var s := p.ReceiveSegment(c, q);
      Times(s.len, batch) + Times(s.displacement, batch) ==
        Times(PrefixSum(p.ReceiveLens(c), q + 1), batch) <= Times(p.destination.LayoutAt(c).Len(), batch)
  {
    SegmentsFit(p, c, q);
    ScaledSegment(p.SendLens(c), q, batch, p.source.LayoutAt(c).Len());
    ScaledSegment(p.ReceiveLens(c), q, batch, p.destination.LayoutAt(c).Len());
  }

  lemma ReceiveTotal(p: Plan, c: seq<nat>)
    requires p.Valid() && p.Rank(c)
    ensures p.Fits(c) && PrefixSum(p.ReceiveLens(c), p.Peers()) == Volume(p.destination.RangesAt(c))
  {
    ReverseIsValid(p);
    SendTotal(p.Reverse(), c);
    forall q | 0 <= q < p.Peers() ensures p.ReceiveRegion(c, q) == p.Reverse().SendRegion(c, q) {
      ReverseRegions(p, c, q);
    }
    assert p.ReceiveLens(c) == p.Reverse().SendLens(c);
  }

  lemma ScaledSegment(lens: seq<nat>, q: nat, batch: nat, total: nat)
    requires q < |lens| && PrefixSum(lens, q + 1) <= total && Times(total, batch) <= USIZE_MAX
    ensures Times(lens[q], batch) + Times(PrefixSum(lens, q), batch) ==
      Times(PrefixSum(lens, q + 1), batch) <= Times(total, batch)
  {
    TimesDistribute(PrefixSum(lens, q), lens[q], batch);
    TimesMono(PrefixSum(lens, q + 1), total, batch, batch);
  }

  /** A well placed region passes the preflight scan of storage that holds every extra group. */
  lemma PlacedIsAccepted(l: LocalLayout, s: Segment, extraCount: nat, total: nat, local: Local)
    requires l.Valid() && Placed(l, s, total) && Ordered(s.region) && s.len <= USIZE_MAX
    requires local.Valid(|s.region|) && local.ranges == l.ranges && local.permutation == l.permutation
    requires local.shapeMemory == l.ShapeMemory() && local.localLen == l.Len()
    requires local.storageLen == Times(l.Len(), extraCount)
    ensures ScanAccepts(local, s.region, extraCount)
  {
    forall e, k | 0 <= e < extraCount && 0 <= k < Volume(s.region) ensures ElementFits(local, s.region, e, k) {
      IndexRoundTrip(s.region, k);
      var g := IndexAt(s.region, k);
      CoversBox(l.ranges, s.region, g);
      OffsetRoundTrip(l, g);
      RelativeInBounds(l.ranges, g);
      RowMajorMeaning(l.ShapeMemory(), l.permutation.Permute(Relative(l.ranges, g)));
      TimesMono(e + 1, extraCount, l.Len(), l.Len());
      TimesComm(l.Len(), extraCount);
    }
  }

  method ValidatePeers(p: Plan, c: seq<nat>, peers: seq<Peer>, batch: usize, sourceLen: usize, destinationLen: usize)
    returns (r: Result<(), PreparationFailed>)
    requires p.Valid() && p.Rank(c) && PeersOf(p, c, peers) && |p.source.shape| <= USIZE_MAX
    requires sourceLen == Times(p.source.LayoutAt(c).Len(), batch)
      && destinationLen == Times(p.destination.LayoutAt(c).Len(), batch)
    ensures r.Ok?
  {
    var sl, dl := p.source.LayoutAt(c), p.destination.LayoutAt(c);
    LayoutValid(p.source, c);
    LayoutValid(p.destination, c);
    MemoryFits(sl);
    MemoryFits(dl);
    var source := Local(sl.ranges, sl.ShapeMemory(), sl.permutation, sl.Len(), sourceLen);
    var destination := Local(dl.ranges, dl.ShapeMemory(), dl.permutation, dl.Len(), destinationLen);
    hide ScanAccepts;
    for q := 0 to |peers| {
      SegmentsFit(p, c, q);
      var send, receive := peers[q].send, peers[q].receive;
      var sendLen := RegionSpatialLen(send.region);
      var receiveLen := RegionSpatialLen(receive.region);
      if sendLen.Err? || receiveLen.Err? || sendLen.value != send.len || receiveLen.value != receive.len {
        return Err(PreparationFailed.PreparationFailed);
      }
      PlacedIsAccepted(sl, send, batch, sl.Len(), source);
      PlacedIsAccepted(dl, receive, batch, dl.Len(), destination);
      var sent := ValidateRegionOffsets(source, send.region, batch);
      var received := ValidateRegionOffsets(destination, receive.region, batch);
      if sent.Err? || received.Err? {
        return Err(PreparationFailed.PreparationFailed);
      }
    }
    return Ok(());
  }

  lemma MemoryFits(l: LocalLayout)
    requires l.Valid()
    ensures l.Len() <= USIZE_MAX && forall q :: 0 <= q < |l.ShapeMemory()| ==> l.ShapeMemory()[q] <= USIZE_MAX
  {
    LayoutLen(l);
    assert l.ShapeMemory()[0..] == l.ShapeMemory();
    forall q | 0 <= q < |l.ShapeMemory()| ensures l.ShapeMemory()[q] <= USIZE_MAX {
      assert l.ranges[l.permutation.axes[q]].Len() <= USIZE_MAX;
    }
  }

  /** Local preparation decides exactly three things: the counts fit, the workspace is long
      enough, and the two storages are as long as the layouts say. Nothing else can fail. */
  method PrepareCommon(p: Plan, c: seq<nat>, peers: seq<Peer>, batch: usize, mode: Mode,
                       sourceLen: usize, destinationLen: usize, sendCapacity: usize, receiveCapacity: usize)
    returns (r: Result<Exchange, TransposeError>)
    requires p.Valid() && p.Rank(c) && PeersOf(p, c, peers) && |p.source.shape| <= USIZE_MAX && p.Peers() <= COUNT_MAX
    ensures var send, receive := Times(p.source.LayoutAt(c).Len(), batch),
        Times(p.destination.LayoutAt(c).Len(), batch);
      r == if !CountsFit(p, c, batch, mode, p.Peers()) then Err(CountOverflow)
           else if sendCapacity < send || receiveCapacity < receive then Err(WorkspaceTooSmall)
           else if send != sourceLen || receive != destinationLen then Err(TransposeError.PreparationFailed)
           else Ok(ExchangeAt(p, c, batch, mode))
  {
    var required := WorkspaceRequirements(p, c, peers, batch, mode);
    if required.Err? {
      return Err(required.error);
    }
    if sendCapacity < required.value.0 || receiveCapacity < required.value.1 {
      return Err(WorkspaceTooSmall);
    }
    var prepared := PrepareExchangeCounts(p, c, peers, batch, mode);
    if prepared.Err? {
      return Err(CountOverflow);
    }
    if required.value.0 != sourceLen || required.value.1 != destinationLen {
      return Err(TransposeError.PreparationFailed);
    }
    SendTotal(p, c);
    ReceiveTotal(p, c);
    var sent := TotalIs(prepared.value.sendCounts, sourceLen, p.SendLens(c), batch);
    var received := TotalIs(prepared.value.receiveCounts, destinationLen, p.ReceiveLens(c), batch);
    if !sent || !received {
      return Err(TransposeError.PreparationFailed);
    }
    var validated := ValidatePeers(p, c, peers, batch, sourceLen, destinationLen);
    if validated.Err? {
      return Err(TransposeError.PreparationFailed);
    }
    return Ok(prepared.value);
  }

  /** The checked sum of the counts is the expected length. */
  method TotalIs(counts: seq<nat>, expected: usize, ghost lens: seq<nat>, ghost batch: nat) returns (ok: bool)
    requires |counts| == |lens| && forall i :: 0 <= i < |lens| ==> counts[i] == Times(lens[i], batch)
    requires expected == Times(PrefixSum(lens, |lens|), batch)
    ensures ok
  {
    var total: usize := 0;
    TimesIs(0, batch);
    for i := 0 to |counts|
      invariant total == Times(PrefixSum(lens, i), batch)
    {
      if i + 1 < |lens| {
        PrefixSumMonotone(lens, i + 1, |lens|);
      }
      ScaledSegment(lens, i, batch, PrefixSum(lens, |lens|));
      var sum := CheckedAdd(total, counts[i]);
      if sum.None? {
        return false;
      }
      total := sum.value;
    }
    return total == expected;
  }

  /** Packs every peer's region, or every one but the calling rank's own, into the send buffer. */
  method PackSource<T>(p: Plan, c: seq<nat>, skipSelf: bool, storage: array<T>, buffer: array<T>, extraCount: usize)
    requires p.Valid() && p.Rank(c) && storage != buffer
    requires Times(extraCount, p.source.LayoutAt(c).Len()) <= storage.Length <= USIZE_MAX
    requires Times(extraCount, p.source.LayoutAt(c).Len()) <= buffer.Length <= USIZE_MAX
    modifies buffer
    ensures p.Fits(c)
    ensures Held(p.source.LayoutAt(c), p.SendSegments(c), if skipSelf then Some(c[p.axis]) else None, extraCount,
                 storage[..], buffer[..])
  {
    SendSegmented(p, c);
    TimesComm(extraCount, p.source.LayoutAt(c).Len());
    PackSourceRegions(p.SendSegments(c), if skipSelf then Some(c[p.axis]) else None, p.source.LayoutAt(c), storage,
                      buffer,
      extraCount, p.source.LayoutAt(c).Len());
  }

  /** Unpacks the received segments into destination storage; a tail beyond the layout stays. */
  method UnpackDestination<T>(p: Plan, c: seq<nat>, skipSelf: bool, storage: array<T>, buffer: array<T>,
                              extraCount: usize)
    requires p.Valid() && p.Rank(c) && storage != buffer
    requires Times(extraCount, p.destination.LayoutAt(c).Len()) <= storage.Length <= USIZE_MAX
    requires Times(extraCount, p.destination.LayoutAt(c).Len()) <= buffer.Length <= USIZE_MAX
    modifies storage
    ensures p.Fits(c)
    ensures var skip := if skipSelf then Some(c[p.axis]) else None;
      && Held(p.destination.LayoutAt(c), p.ReceiveSegments(c), skip, extraCount, storage[..], buffer[..])
      && Untouched(p.destination.LayoutAt(c), p.ReceiveSegments(c), skip, extraCount, old(storage[..]), storage[..])
  {
    ReceiveSegmented(p, c);
    ReceiveRegionsDisjoint(p, c);
    TimesComm(extraCount, p.destination.LayoutAt(c).Len());
    UnpackDestinationRegions(p.ReceiveSegments(c), if skipSelf then Some(c[p.axis]) else None,
                             p.destination.LayoutAt(c), storage, buffer,
      extraCount, p.destination.LayoutAt(c).Len());
  }
}
