/** The second half of a remap plan. */
module RemapPayloads {
  // The owner's side of the requests, payload counts, and the loops that pack and unpack extra-major payload
  // segments.

  import opened MachineInts
  import opened Nonlinear
  import opened MixedRadix
  import opened Counting
  import opened Axis
  import opened Geometry
  import opened Pencil
  import opened Plans
  import opened Affines
  import opened RemapRoutes

  /** Displacements are the running sums of the counts. */
  ghost predicate Consecutive(counts: seq<nat>, displacements: seq<nat>) {
    |counts| == |displacements| && forall q :: 0 <= q < |counts| ==> displacements[q] == PrefixSum(counts, q)
  }

  ghost predicate SumsFit(counts: seq<nat>) {
    forall q :: 0 <= q < |counts| ==> PrefixSum(counts, q) <= COUNT_MAX
  }

  /** Displacements of the incoming requests, and a check of their number. */
  method ReceiveLayout(counts: seq<count32>, expectedTotal: usize) returns (r: Result<seq<nat>, RemapError>)
    ensures r.Ok? <==>
      NoNegative(counts) && SumsFit(Clipped(counts)) && PrefixSum(Clipped(counts), |counts|) == expectedTotal
    ensures r.Ok? ==> Consecutive(Clipped(counts), r.value) && AreCounts(r.value)
    ensures r.Err? ==>
      r.error == if NoNegative(counts) && SumsFit(Clipped(counts)) then StructuralInconsistency else MpiCountOverflow
  {
    hide Clipped;
    hide PrefixSum;
    hide IsPartition;
    ghost var clipped := Clipped(counts);
    var displacements: seq<nat> := [];
    var total: usize := 0;
    SumOfNone(clipped);
    for q := 0 to |counts|
      invariant |displacements| == q && AreCounts(displacements)
      invariant total == PrefixSum(clipped, q)
      invariant forall i :: 0 <= i < q ==> 0 <= counts[i] && displacements[i] == PrefixSum(clipped, i)
    {
      NextSum(clipped, q);
      if counts[q] < 0 || total > COUNT_MAX {
        return Err(MpiCountOverflow);
      }
      displacements := displacements + [total];
      var sum := CheckedAdd(total, counts[q]);
      if sum.None? {
        return Err(RemapError.SizeOverflow);
      }
      total := sum.value;
    }
    assert NoNegative(counts) && Consecutive(clipped, displacements);
    CompletePartition(counts, displacements, total);
    var valid := ValidatePartitionLayout(counts, displacements, total);
    if valid.Err? || total != expectedTotal {
      return Err(StructuralInconsistency);
    }
    return Ok(displacements);
  }

  lemma SumOfNone(counts: seq<nat>)
    ensures PrefixSum(counts, 0) == 0
  {
  }

  lemma NextSum(counts: seq<nat>, q: nat)
    requires q < |counts|
    ensures PrefixSum(counts, q + 1) == PrefixSum(counts, q) + counts[q]
  {
  }

  lemma CompletePartition(counts: seq<int>, displacements: seq<nat>, total: nat)
    requires NoNegative(counts) && Consecutive(Clipped(counts), displacements)
      && PrefixSum(Clipped(counts), |counts|) == total
    ensures IsPartition(counts, displacements, total)
  {
  }

  /** A requested index exists and is owned by this rank. */
  ghost predicate Owned(m: Remap, rank: nat, request: nat)
    requires m.Valid()
  {
    request < Product(m.source.shape)
    && (LinearOfDigits(m.source.shape, request);
        Linear(m.source.grid, m.source.OwnerOf(Digits(m.source.shape, request))) == rank)
  }

  /** Where this rank stores a requested index. */
  ghost function StoredAt(m: Remap, rank: nat, request: nat): (offset: nat)
    requires m.Valid() && rank < m.Ranks() && Owned(m, rank, request)
    ensures offset < m.SourceAt(rank).Len()
  {
    OwnedInBox(m, rank, request);
    OffsetRoundTrip(m.SourceAt(rank), Digits(m.source.shape, request));
    m.SourceAt(rank).Offset(Digits(m.source.shape, request))
  }

  lemma OwnedInBox(m: Remap, rank: nat, request: nat)
    requires m.Valid() && rank < m.Ranks() && request < Product(m.source.shape)
    ensures m.SourceAt(rank).Valid()
    ensures Owned(m, rank, request) <==> InBox(m.SourceAt(rank).ranges, Digits(m.source.shape, request))
  {
    var s := Digits(m.source.shape, request);
    RankLayouts(m, rank);
    LinearOfDigits(m.source.shape, request);
    BoxesTile(m.source, s, Digits(m.source.grid, rank));
    OwnerInBounds(m.source, s);
    if Owned(m, rank, request) {
      LinearInjective(m.source.grid, m.source.OwnerOf(s), Digits(m.source.grid, rank));
    }
  }

  /** The first request that this rank does not own. */
  ghost predicate FirstForeign(m: Remap, rank: nat, requests: seq<nat>, j: nat)
    requires m.Valid()
  {
    j < |requests| && !Owned(m, rank, requests[j]) && forall i :: 0 <= i < j ==> Owned(m, rank, requests[i])
  }

  /** Every request is owned, and `offsets` says where. */
  ghost predicate Decoded(m: Remap, rank: nat, requests: seq<nat>, offsets: seq<nat>)
    requires m.Valid() && rank < m.Ranks()
  {
    |offsets| == |requests| && forall j :: 0 <= j < |requests| ==> DecodedAt(m, rank, requests[j], offsets[j])
  }

  ghost predicate DecodedAt(m: Remap, rank: nat, request: nat, offset: nat)
    requires m.Valid() && rank < m.Ranks()
  {
    Owned(m, rank, request) && offset == StoredAt(m, rank, request)
  }

  /** Decodes every request and finds its storage offset. */
  method IncomingSourceOffsets(m: Remap, rank: nat, requests: seq<usize>) returns (r: Result<seq<nat>, RemapError>)
    requires m.Valid() && rank < m.Ranks()
    ensures r.Ok? <==>
      (forall j :: 0 <= j < |requests| ==> Owned(m, rank, requests[j])) && |requests| == m.SourceAt(rank).Len()
    ensures r.Ok? ==> Decoded(m, rank, requests, r.value)
    ensures r.Err? && r.error != StructuralInconsistency ==>
      exists j: nat :: FirstForeign(m, rank, requests, j) && r.error == WrongOwner(rank, requests[j])
  {
    var offsets: seq<nat>, len := [], m.SourceAt(rank).Len();
    hide StoredAt;
    hide Owned;
    hide Remap.Valid;
    hide Remap.Ranks;
    for j := 0 to |requests|
      invariant |offsets| == j && forall i :: 0 <= i < j ==> DecodedAt(m, rank, requests[i], offsets[i])
    {
      var offset := SourceOffset(m, rank, requests[j]);
      if offset.None? {
        assert FirstForeign(m, rank, requests, j);
        return Err(WrongOwner(rank, requests[j]));
      }
      offsets := offsets + [offset.value];
    }
    if |offsets| != len {
      return Err(StructuralInconsistency);
    }
    return Ok(offsets);
  }

  /** One request: its coordinate, its owner, and its place in the local box. */
  method SourceOffset(m: Remap, rank: nat, request: usize) returns (r: Option<nat>)
    requires m.Valid() && rank < m.Ranks()
    ensures r.Some? <==> Owned(m, rank, request)
    ensures r.Some? ==> r.value == StoredAt(m, rank, request)
  {
    var l := m.SourceAt(rank);
    RankLayouts(m, rank);
    var global := Decode(m.source.shape, request);
    if global.None? {
      return None;
    }
    LinearOfDigits(m.source.shape, request);
    OwnedInBox(m, rank, request);
    var owner := OwnerRank(m.source, global.value);
    if owner.Err? || owner.value != rank {
      return None;
    }
    r := LocalSourceOffset(l, global.value);
  }

  /** The storage offset of a global index of the box, or nothing outside it. */
  method LocalSourceOffset(l: LocalLayout, global: seq<nat>) returns (r: Option<nat>)
    requires l.Valid() && |global| == |l.ranges|
    ensures r.Some? <==> InBox(l.ranges, global)
    ensures r.Some? ==> r.value == l.Offset(global)
  {
    var local := LocalOf(l.ranges, global);
    if local.None? {
      return None;
    }
    RelativeInBounds(l.ranges, global);
    r := OffsetIn(l, l.permutation.Permute(local.value));
  }

  /** The coordinate relative to the box, or nothing outside it. */
  method LocalOf(box: Box, global: seq<nat>) returns (r: Option<seq<nat>>)
    requires |global| == |box|
    ensures r.Some? <==> InBox(box, global)
    ensures r.Some? ==> r.value == Relative(box, global)
  {
    var local: seq<nat> := [];
    for axis := 0 to |box|
      invariant |local| == axis
      invariant forall a :: 0 <= a < axis ==> box[a].Contains(global[a]) && local[a] == global[a] - box[a].start
    {
      if !box[axis].Contains(global[axis]) {
        return None;
      }
      local := local + [global[axis] - box[axis].start];
    }
    return Some(local);
  }

  datatype Payload = Payload(
    sendCounts: seq<nat>, sendDisplacements: seq<nat>, receiveCounts: seq<nat>, receiveDisplacements: seq<nat>,
    sendLen: nat, receiveLen: nat)

  /** The vectors cover all ranks and their segments fill `total`. */
  ghost predicate Partition(counts: seq<nat>, displacements: seq<nat>, ranks: nat, total: nat) {
    |counts| == ranks && Consecutive(counts, displacements) && PrefixSum(counts, |counts|) == total
  }

  /** Every count and displacement, times the extra count, fits MPI's `Count`. */
  ghost predicate ScaledFits(counts: seq<nat>, displacements: seq<nat>, extraCount: nat, n: nat)
    requires n <= |counts| == |displacements|
  {
    forall q :: 0 <= q < n ==>
      Times(counts[q], extraCount) <= COUNT_MAX && Times(displacements[q], extraCount) <= COUNT_MAX
  }

  /** What the layout is checked against before anything is scaled. */
  ghost predicate Matching(routes: OwnerRoutes, incomingCounts: seq<int>, incomingDisplacements: seq<int>,
                           sourceLen: nat, destinationLen: nat, ranks: nat) {
    && |routes.counts| == |routes.displacements| == |incomingCounts| == |incomingDisplacements| == ranks
    && |routes.entries| == destinationLen && IsPartition(routes.counts, routes.displacements, destinationLen)
    && IsPartition(incomingCounts, incomingDisplacements, sourceLen)
  }

  /** Payload counts are the request counts times the extra count. Vectors that are no partitions of the
      layouts are refused, elements without size too; of the others exactly those whose byte sizes
      overflow or whose scaled counts or displacements exceed MPI's `Count`. */
  method PayloadLayout(routes: OwnerRoutes, incomingCounts: seq<count32>, incomingDisplacements: seq<count32>,
                       sourceLen: usize, destinationLen: usize, extraCount: usize, width: usize, ranks: nat)
    returns (r: Result<Payload, RemapError>)
    requires AreCounts(routes.counts) && AreCounts(routes.displacements) && |routes.entries| <= USIZE_MAX
    ensures width == 0 ==> r == Err(UnsupportedDatatype)
    ensures r.Ok? <==>
      && 0 < width && Matching(routes, incomingCounts, incomingDisplacements, sourceLen, destinationLen, ranks)
      && Times(Times(sourceLen, extraCount), width) <= USIZE_MAX
      && Times(Times(destinationLen, extraCount), width) <= USIZE_MAX
      && ScaledFits(incomingCounts, incomingDisplacements, extraCount, ranks)
      && ScaledFits(routes.counts, routes.displacements, extraCount, ranks)
    ensures r.Ok? ==>
      && r.value.sendLen == Times(sourceLen, extraCount) && r.value.receiveLen == Times(destinationLen, extraCount)
      && ScaledBy(incomingCounts, extraCount, r.value.sendCounts)
      && ScaledBy(incomingDisplacements, extraCount, r.value.sendDisplacements)
      && ScaledBy(routes.counts, extraCount, r.value.receiveCounts)
      && ScaledBy(routes.displacements, extraCount, r.value.receiveDisplacements)
    ensures
      (r.Err? && 0 < width
       && Matching(routes, incomingCounts, incomingDisplacements, sourceLen, destinationLen, ranks)) ==>
      r.error == RemapError.SizeOverflow || r.error == MpiCountOverflow
  {
    hide PrefixSum;
    if width == 0 {
      return Err(UnsupportedDatatype);
    }
    if |routes.counts| != ranks || |routes.displacements| != ranks || |incomingCounts| != ranks
      || |incomingDisplacements| != ranks || |routes.entries| != destinationLen
    {
      return Err(StructuralInconsistency);
    }
    var routed := ValidatePartitionLayout(routes.counts, routes.displacements, |routes.entries|);
    if routed.Err? {
      return Err(routed.error);
    }
    var incoming := ValidatePartitionLayout(incomingCounts, incomingDisplacements, sourceLen);
    if incoming.Err? {
      return Err(incoming.error);
    }
    var sendLen := SizesFit(sourceLen, extraCount, width);
    var receiveLen := SizesFit(destinationLen, extraCount, width);
    if sendLen.None? || receiveLen.None? {
      return Err(RemapError.SizeOverflow);
    }
    NonNegativePartition(incomingCounts, incomingDisplacements, sourceLen);
    NonNegativePartition(routes.counts, routes.displacements, destinationLen);
    var send := ScalePartition(incomingCounts, incomingDisplacements, extraCount, sourceLen);
    var receive := ScalePartition(routes.counts, routes.displacements, extraCount, destinationLen);
    if send.Err? || receive.Err? {
      return Err(MpiCountOverflow);
    }
    return Ok(Payload(send.value.0, send.value.1, receive.value.0, receive.value.1, sendLen.value, receiveLen.value));
  }

  lemma NonNegativePartition(counts: seq<int>, displacements: seq<int>, total: nat)
    requires IsPartition(counts, displacements, total)
    ensures NoNegative(counts) && NoNegative(displacements) && Partition(counts, displacements, |counts|, total)
  {
    ClippedSame(counts);
  }

  /** The element count, if it and the byte count fit. */
  method SizesFit(len: usize, extraCount: usize, width: usize) returns (r: Option<usize>)
    requires 0 < width
    ensures r == if Times(Times(len, extraCount), width) <= USIZE_MAX then Some(Times(len, extraCount)) else None
  {
    var elements := CheckedMul(len, extraCount);
    TimesMono(Times(len, extraCount), Times(len, extraCount), 1, width);
    TimesIs(Times(len, extraCount), 1);
    if elements.None? {
      return None;
    }
    var bytes := CheckedMul(elements.value, width);
    if bytes.None? {
      return None;
    }
    ProductOfThree(len, extraCount, width);
    var product := CheckedProduct([len, extraCount, width]);
    return if product.Ok? then Some(elements.value) else None;
  }

  lemma ProductOfThree(a: nat, b: nat, c: nat)
    ensures Product([a, b, c]) == Times(Times(a, b), c)
  {
    var one, two, three := [a], [a, b], [a, b, c];
    assert one[..0] == [] && Product(one) == Times(1, a);
    TimesIs(1, a);
    assert two[..1] == one && Product(two) == Times(a, b);
    assert three[..2] == two;
  }

  /** The loop over peers for one direction; the scaled partition is again a partition. */
  method ScalePartition(counts: seq<nat>, displacements: seq<nat>, extraCount: usize, total: nat)
    returns (r: Result<(seq<nat>, seq<nat>), RemapError>)
    requires Partition(counts, displacements, |counts|, total) && Times(total, extraCount) <= USIZE_MAX
    ensures r.Ok? <==> ScaledFits(counts, displacements, extraCount, |counts|)
    ensures r.Ok? ==> ScaledBy(counts, extraCount, r.value.0) && ScaledBy(displacements, extraCount, r.value.1)
    ensures r.Err? ==> r.error == MpiCountOverflow
  {
    forall q | 0 <= q < |counts| ensures ScaledWord(counts[q], displacements[q], extraCount) {
      ScaleStep(counts, q, total, extraCount);
    }
    r := ScaleVectors(counts, displacements, extraCount);
    if r.Ok? {
      ScaledPrefixes(counts, r.value.0, extraCount);
      ConsecutiveIsPartition(r.value.0, r.value.1, Times(total, extraCount));
      var valid := ValidatePartitionLayout(r.value.0, r.value.1, Times(total, extraCount));
      if valid.Err? {
        r := Err(StructuralInconsistency);
      }
    }
  }

  ghost predicate ScaledWord(count: nat, displacement: nat, extraCount: nat) {
    Times(count, extraCount) <= USIZE_MAX && Times(displacement, extraCount) <= USIZE_MAX
  }

  method ScaleVectors(counts: seq<nat>, displacements: seq<nat>, extraCount: usize)
    returns (r: Result<(seq<nat>, seq<nat>), RemapError>)
    requires |counts| == |displacements|
    requires forall q :: 0 <= q < |counts| ==> ScaledWord(counts[q], displacements[q], extraCount)
    ensures r.Ok? <==> ScaledFits(counts, displacements, extraCount, |counts|)
    ensures r.Ok? ==> ScaledBy(counts, extraCount, r.value.0) && ScaledBy(displacements, extraCount, r.value.1)
    ensures r.Err? ==> r.error == MpiCountOverflow
  {
    var scaled: seq<nat>, offsets: seq<nat> := [], [];
    for q := 0 to |counts|
      invariant |scaled| == |offsets| == q && ScaledFits(counts, displacements, extraCount, q)
      invariant forall i :: 0 <= i < q ==>
        scaled[i] == Times(counts[i], extraCount) && offsets[i] == Times(displacements[i], extraCount)
    {
      assert ScaledWord(counts[q], displacements[q], extraCount);
      var elements := CheckedMul(counts[q], extraCount);
      var offset := CheckedMul(displacements[q], extraCount);
      if elements.None? || offset.None? {
        return Err(RemapError.SizeOverflow);
      }
      if elements.value > COUNT_MAX || offset.value > COUNT_MAX {
        return Err(MpiCountOverflow);
      }
      scaled, offsets := scaled + [elements.value], offsets + [offset.value];
    }
    return Ok((scaled, offsets));
  }

  lemma ScaleStep(counts: seq<nat>, q: nat, total: nat, extraCount: nat)
    requires q < |counts| && PrefixSum(counts, |counts|) == total
    ensures Times(counts[q], extraCount) <= Times(total, extraCount)
      && Times(PrefixSum(counts, q), extraCount) <= Times(total, extraCount)
  {
    PrefixSumMonotone(counts, q, |counts|);
    TimesMono(counts[q], total, extraCount, extraCount);
    TimesMono(PrefixSum(counts, q), total, extraCount, extraCount);
  }

  lemma ScaledPrefixes(lens: seq<nat>, scaled: seq<nat>, factor: nat)
    requires ScaledBy(lens, factor, scaled)
    ensures forall q :: 0 <= q <= |lens| ==> PrefixSum(scaled, q) == Times(PrefixSum(lens, q), factor)
  {
    forall q | 0 <= q <= |lens| ensures PrefixSum(scaled, q) == Times(PrefixSum(lens, q), factor) {
      ScaledPrefix(lens, scaled, factor, q);
    }
  }

  // ----- Moving values between storage and payload

  /** Cell of element `k` of one peer's payload segment in extra group `e`. */
  ghost function PayloadCell(displacement: nat, count: nat, extraCount: nat, e: nat, k: nat): nat {
    Times(displacement, extraCount) + Times(e, count) + k
  }

  /** Storage cell of request `displacement + k` in extra group `e`. */
  ghost function RequestCell(offsets: seq<nat>, displacement: nat, len: nat, e: nat, k: nat): nat
    requires displacement + k < |offsets|
  {
    Times(e, len) + offsets[displacement + k]
  }

  /** One extra group of one peer: payload and storage agree, request by request. */
  ghost predicate GroupAgrees<T>(count: nat, displacement: nat, offsets: seq<nat>, extraCount: nat, len: nat, e: nat,
                                 storage: seq<T>, payload: seq<T>)
  {
    && displacement + count <= |offsets|
    && forall k :: 0 <= k < count ==>
         CellsAgree(RequestCell(offsets, displacement, len, e, k), PayloadCell(displacement, count, extraCount, e, k),
                    storage, payload)
  }

  ghost predicate CellsAgree<T>(cell: nat, place: nat, storage: seq<T>, payload: seq<T>) {
    cell < |storage| && place < |payload| && payload[place] == storage[cell]
  }

  /** Every extra group of the first `n` peers: the postcondition of packing and of unpacking. */
  ghost predicate Agrees<T>(counts: seq<nat>, displacements: seq<nat>, offsets: seq<nat>, extraCount: nat, len: nat,
                            n: nat, storage: seq<T>, payload: seq<T>)
    requires n <= |counts| == |displacements|
  {
    forall q, e :: 0 <= q < n && 0 <= e < extraCount ==>
      GroupAgrees(counts[q], displacements[q], offsets, extraCount, len, e, storage, payload)
  }

  /** What the plan gives to packing and unpacking. */
  ghost predicate Prepared(counts: seq<nat>, displacements: seq<nat>, starts: seq<nat>, offsets: seq<nat>,
                           extraCount: nat, len: nat) {
    && Partition(counts, displacements, |counts|, |offsets|) && ScaledBy(displacements, extraCount, starts)
    && forall i :: 0 <= i < |offsets| ==> offsets[i] < len
  }

  lemma GroupBounds(counts: seq<nat>, displacements: seq<nat>, total: nat, extraCount: nat, len: nat, q: nat, e: nat)
    requires Partition(counts, displacements, |counts|, total) && q < |counts| && e < extraCount
    ensures displacements[q] + counts[q] == PrefixSum(counts, q + 1) <= total
    ensures PayloadCell(displacements[q], counts[q], extraCount, e, 0) +
      counts[q] <= Times(displacements[q] + counts[q], extraCount) <= Times(total, extraCount)
    ensures Times(e, len) + len <= Times(extraCount, len)
  {
    PrefixSumGrows(counts, q + 1, |counts|);
    TimesMono(e + 1, extraCount, counts[q], counts[q]);
    TimesComm(counts[q], extraCount);
    TimesDistribute(displacements[q], counts[q], extraCount);
    TimesMono(displacements[q] + counts[q], total, extraCount, extraCount);
    TimesMono(e + 1, extraCount, len, len);
  }

  /** An earlier group ends before a later one starts. */
  lemma GroupsInOrder(counts: seq<nat>, displacements: seq<nat>, total: nat, extraCount: nat, p: nat, f: nat, q: nat,
                      e: nat)
    requires Partition(counts, displacements, |counts|, total) && p <= q < |counts| && f < extraCount && e < extraCount
    requires p < q || f < e
    ensures PayloadCell(displacements[p], counts[p], extraCount, f, 0) +
      counts[p] <= PayloadCell(displacements[q], counts[q], extraCount, e, 0)
  {
    if p < q {
      GroupBounds(counts, displacements, total, extraCount, 0, p, f);
      PrefixSumGrows(counts, p + 1, q);
      TimesMono(displacements[p] + counts[p], displacements[q], extraCount, extraCount);
    } else {
      TimesMono(f + 1, e, counts[q], counts[q]);
    }
  }

  lemma GroupUnmoved<T>(count: nat, displacement: nat, offsets: seq<nat>, extraCount: nat, len: nat, e: nat,
                        storage: seq<T>, was: seq<T>, now: seq<T>, at: nat)
    requires GroupAgrees(count, displacement, offsets, extraCount, len, e, storage, was)
    requires |now| == |was| && at <= |was| && now[..at] == was[..at]
    requires PayloadCell(displacement, count, extraCount, e, 0) + count <= at
    ensures GroupAgrees(count, displacement, offsets, extraCount, len, e, storage, now)
  {
    forall k | 0 <= k < count
      ensures CellsAgree(RequestCell(offsets, displacement, len, e, k),
                         PayloadCell(displacement, count, extraCount, e, k), storage, now)
    {
      var place := PayloadCell(displacement, count, extraCount, e, k);
      assert now[..at][place] == was[..at][place];
      assert CellsAgree(RequestCell(offsets, displacement, len, e, k), place, storage, was);
    }
  }

  /** Packs the requested source elements, peer by peer, extra group by extra group. */
  method PackPayload<T>(counts: seq<nat>, displacements: seq<nat>, starts: seq<nat>, offsets: seq<nat>, len: usize,
                        extraCount: usize, storage: array<T>, payload: array<T>)
    requires Prepared(counts, displacements, starts, offsets, extraCount, len) && storage != payload
    requires Times(extraCount, len) <= storage.Length <= USIZE_MAX
    requires Times(|offsets|, extraCount) <= payload.Length <= USIZE_MAX
    modifies payload
    ensures Agrees(counts, displacements, offsets, extraCount, len, |counts|, storage[..], payload[..])
  {
    for q := 0 to |counts|
      invariant Agrees(counts, displacements, offsets, extraCount, len, q, storage[..], payload[..])
    {
      PackPeer(counts, displacements, starts, offsets, len, extraCount, storage, payload, q);
    }
  }

  method PackPeer<T>(counts: seq<nat>, displacements: seq<nat>, starts: seq<nat>, offsets: seq<nat>, len: usize,
                     extraCount: usize, storage: array<T>, payload: array<T>, q: nat)
    requires Prepared(counts, displacements, starts, offsets, extraCount, len) && storage != payload
    requires Times(extraCount, len) <= storage.Length <= USIZE_MAX
    requires Times(|offsets|, extraCount) <= payload.Length <= USIZE_MAX
    requires q < |counts| && Agrees(counts, displacements, offsets, extraCount, len, q, storage[..], payload[..])
    modifies payload
    ensures Agrees(counts, displacements, offsets, extraCount, len, q + 1, storage[..], payload[..])
  {
    var count, displacement, start := counts[q], displacements[q], starts[q];
    hide GroupAgrees;
    for e := 0 to extraCount
      invariant Agrees(counts, displacements, offsets, extraCount, len, q, storage[..], payload[..])
      invariant forall f :: 0 <= f < e ==>
        GroupAgrees(count, displacement, offsets, extraCount, len, f, storage[..], payload[..])
    {
      ghost var was := payload[..];
      GroupBounds(counts, displacements, |offsets|, extraCount, len, q, e);
      var base := Multiply(e, len);
      var group := Multiply(e, count);
      PackGroup(count, displacement, offsets, extraCount, len, e, storage, base, payload, start + group);
      Preserved(counts, displacements, offsets, extraCount, len, q, e, storage[..], was, payload[..]);
    }
  }

  lemma Preserved<T>(counts: seq<nat>, displacements: seq<nat>, offsets: seq<nat>, extraCount: nat, len: nat, q: nat,
                     e: nat, storage: seq<T>, was: seq<T>, now: seq<T>)
    requires Partition(counts, displacements, |counts|, |offsets|) && q < |counts| && e < extraCount && |now| == |was|
    requires var at := PayloadCell(displacements[q], counts[q], extraCount, e, 0); at <= |was| && now[..at] == was[..at]
    requires Agrees(counts, displacements, offsets, extraCount, len, q, storage, was)
    requires forall f :: 0 <= f < e ==>
      GroupAgrees(counts[q], displacements[q], offsets, extraCount, len, f, storage, was)
    ensures Agrees(counts, displacements, offsets, extraCount, len, q, storage, now)
    ensures forall f :: 0 <= f < e ==>
      GroupAgrees(counts[q], displacements[q], offsets, extraCount, len, f, storage, now)
  {
    var at := PayloadCell(displacements[q], counts[q], extraCount, e, 0);
    hide GroupAgrees;
    forall p, f | 0 <= p < q && 0 <= f < extraCount
      ensures GroupAgrees(counts[p], displacements[p], offsets, extraCount, len, f, storage, now)
    {
      GroupsInOrder(counts, displacements, |offsets|, extraCount, p, f, q, e);
      GroupUnmoved(counts[p], displacements[p], offsets, extraCount, len, f, storage, was, now, at);
    }
    forall f | 0 <= f < e ensures GroupAgrees(counts[q], displacements[q], offsets, extraCount, len, f, storage, now) {
      GroupsInOrder(counts, displacements, |offsets|, extraCount, q, f, q, e);
      GroupUnmoved(counts[q], displacements[q], offsets, extraCount, len, f, storage, was, now, at);
    }
  }

  /** The innermost loop: consecutive payload cells from scattered storage cells. */
  method PackGroup<T>(count: nat, displacement: nat, offsets: seq<nat>, ghost extraCount: nat, ghost len: nat,
                      ghost e: nat, storage: array<T>, base: usize, payload: array<T>, at: usize)
    requires displacement + count <= |offsets| && storage != payload
    requires forall i :: 0 <= i < |offsets| ==> offsets[i] < len
    requires base == Times(e, len) && base + len <= storage.Length <= USIZE_MAX
    requires at == PayloadCell(displacement, count, extraCount, e, 0) && at + count <= payload.Length <= USIZE_MAX
    modifies payload
    ensures GroupAgrees(count, displacement, offsets, extraCount, len, e, storage[..], payload[..])
    ensures payload[..at] == old(payload[..at])
  {
    for k := 0 to count
      invariant payload[..at] == old(payload[..at])
      invariant forall j :: 0 <= j < k ==>
        CellsAgree(RequestCell(offsets, displacement, len, e, j), PayloadCell(displacement, count, extraCount, e, j),
                   storage[..], payload[..])
    {
      ghost var was := payload[..];
      var cell: usize, place: usize := base + offsets[displacement + k], at + k;
      payload[place] := storage[cell];
      forall j | 0 <= j <= k
        ensures CellsAgree(RequestCell(offsets, displacement, len, e, j),
                           PayloadCell(displacement, count, extraCount, e, j), storage[..], payload[..])
      {
        if j < k {
          assert CellsAgree(RequestCell(offsets, displacement, len, e, j),
                            PayloadCell(displacement, count, extraCount, e, j), storage[..], was);
        }
      }
    }
  }

  /** Unpacks every received element into the storage cell that requested it. */
  method UnpackPayload<T>(counts: seq<nat>, displacements: seq<nat>, starts: seq<nat>, offsets: seq<nat>, len: usize,
                          extraCount: usize, storage: array<T>, payload: array<T>)
    requires Prepared(counts, displacements, starts, offsets, extraCount, len) && NoDuplicates(offsets)
      && storage != payload
    requires Times(extraCount, len) <= storage.Length <= USIZE_MAX
    requires Times(|offsets|, extraCount) <= payload.Length <= USIZE_MAX
    modifies storage
    ensures Agrees(counts, displacements, offsets, extraCount, len, |counts|, storage[..], payload[..])
  {
    for q := 0 to |counts|
      invariant Agrees(counts, displacements, offsets, extraCount, len, q, storage[..], payload[..])
    {
      UnpackPeer(counts, displacements, starts, offsets, len, extraCount, storage, payload, q);
    }
  }

  method UnpackPeer<T>(counts: seq<nat>, displacements: seq<nat>, starts: seq<nat>, offsets: seq<nat>, len: usize,
                       extraCount: usize, storage: array<T>, payload: array<T>, q: nat)
    requires Prepared(counts, displacements, starts, offsets, extraCount, len) && NoDuplicates(offsets)
      && storage != payload
    requires Times(extraCount, len) <= storage.Length <= USIZE_MAX
    requires Times(|offsets|, extraCount) <= payload.Length <= USIZE_MAX
    requires q < |counts| && Agrees(counts, displacements, offsets, extraCount, len, q, storage[..], payload[..])
    modifies storage
    ensures Agrees(counts, displacements, offsets, extraCount, len, q + 1, storage[..], payload[..])
  {
    var count, displacement, start := counts[q], displacements[q], starts[q];
    hide GroupAgrees;
    hide NoDuplicates;
    for e := 0 to extraCount
      invariant Agrees(counts, displacements, offsets, extraCount, len, q, storage[..], payload[..])
      invariant forall f :: 0 <= f < e ==>
        GroupAgrees(count, displacement, offsets, extraCount, len, f, storage[..], payload[..])
    {
      ghost var was := storage[..];
      GroupBounds(counts, displacements, |offsets|, extraCount, len, q, e);
      var base := Multiply(e, len);
      var group := Multiply(e, count);
      UnpackGroup(count, displacement, offsets, extraCount, len, e, storage, base, payload, start + group);
      StillAgrees(counts, displacements, offsets, extraCount, len, q, e, was, storage[..], payload[..]);
    }
  }

  ghost predicate IsRequested(offsets: seq<nat>, displacement: nat, count: nat, len: nat, e: nat, cell: nat)
    requires displacement + count <= |offsets|
  {
    exists k :: 0 <= k < count && cell == RequestCell(offsets, displacement, len, e, k)
  }

  lemma StillAgrees<T>(counts: seq<nat>, displacements: seq<nat>, offsets: seq<nat>, extraCount: nat, len: nat, q: nat,
                       e: nat, was: seq<T>, now: seq<T>, payload: seq<T>)
    requires Partition(counts, displacements, |counts|, |offsets|) && q < |counts| && e < extraCount && |now| == |was|
    requires NoDuplicates(offsets) && forall i :: 0 <= i < |offsets| ==> offsets[i] < len
    requires displacements[q] + counts[q] <= |offsets|
    requires forall c :: 0 <= c < |was| && !IsRequested(offsets, displacements[q], counts[q], len, e, c) ==>
      now[c] == was[c]
    requires Agrees(counts, displacements, offsets, extraCount, len, q, was, payload)
    requires forall f :: 0 <= f < e ==>
      GroupAgrees(counts[q], displacements[q], offsets, extraCount, len, f, was, payload)
    ensures Agrees(counts, displacements, offsets, extraCount, len, q, now, payload)
    ensures forall f :: 0 <= f < e ==>
      GroupAgrees(counts[q], displacements[q], offsets, extraCount, len, f, now, payload)
  {
    hide GroupAgrees;
    hide NoDuplicates;
    hide IsRequested;
    forall p, f | 0 <= p < q && 0 <= f < extraCount
      ensures GroupAgrees(counts[p], displacements[p], offsets, extraCount, len, f, now, payload)
    {
      GroupBounds(counts, displacements, |offsets|, extraCount, len, p, f);
      PrefixSumGrows(counts, p + 1, q);
      GroupStands(counts[p], displacements[p], counts[q], displacements[q], offsets, extraCount, len, f, e, was, now,
                  payload);
    }
    forall f | 0 <= f < e ensures GroupAgrees(counts[q], displacements[q], offsets, extraCount, len, f, now, payload) {
      GroupStands(counts[q], displacements[q], counts[q], displacements[q], offsets, extraCount, len, f, e, was, now,
                  payload);
    }
  }

  lemma GroupStands<T>(count: nat, displacement: nat, writtenCount: nat, writtenAt: nat, offsets: seq<nat>,
                       extraCount: nat, len: nat, f: nat, e: nat, was: seq<T>, now: seq<T>, payload: seq<T>)
    requires GroupAgrees(count, displacement, offsets, extraCount, len, f, was, payload)
    requires NoDuplicates(offsets) && forall i :: 0 <= i < |offsets| ==> offsets[i] < len
    requires displacement + count <= writtenAt || f < e
    requires writtenAt + writtenCount <= |offsets| && |now| == |was|
    requires forall c :: 0 <= c < |was| && !IsRequested(offsets, writtenAt, writtenCount, len, e, c) ==>
      now[c] == was[c]
    ensures GroupAgrees(count, displacement, offsets, extraCount, len, f, now, payload)
  {
    forall j | 0 <= j < count
      ensures CellsAgree(RequestCell(offsets, displacement, len, f, j),
                         PayloadCell(displacement, count, extraCount, f, j), now, payload)
    {
      var cell := RequestCell(offsets, displacement, len, f, j);
      assert CellsAgree(cell, PayloadCell(displacement, count, extraCount, f, j), was, payload);
      forall k | 0 <= k < writtenCount ensures cell != RequestCell(offsets, writtenAt, len, e, k) {
        RequestsApart(offsets, len, displacement + j, f, writtenAt + k, e);
      }
      assert !IsRequested(offsets, writtenAt, writtenCount, len, e, cell);
    }
  }

  lemma RequestsApart(offsets: seq<nat>, len: nat, i: nat, f: nat, j: nat, e: nat)
    requires NoDuplicates(offsets) && forall i :: 0 <= i < |offsets| ==> offsets[i] < len
    requires i < |offsets| && j < |offsets| && (i < j || f < e)
    ensures Times(f, len) + offsets[i] != Times(e, len) + offsets[j]
  {
    if f < e {
      TimesMono(f + 1, e, len, len);
    } else if e < f {
      TimesMono(e + 1, f, len, len);
    }
  }

  /** The innermost loop: scattered storage cells from consecutive payload cells. */
  method UnpackGroup<T>(count: nat, displacement: nat, offsets: seq<nat>, ghost extraCount: nat, ghost len: nat,
                        ghost e: nat, storage: array<T>, base: usize, payload: array<T>, at: usize)
    requires displacement + count <= |offsets| && storage != payload
    requires NoDuplicates(offsets) && forall i :: 0 <= i < |offsets| ==> offsets[i] < len
    requires base == Times(e, len) && base + len <= storage.Length <= USIZE_MAX
    requires at == PayloadCell(displacement, count, extraCount, e, 0) && at + count <= payload.Length <= USIZE_MAX
    modifies storage
    ensures GroupAgrees(count, displacement, offsets, extraCount, len, e, storage[..], payload[..])
    ensures forall c :: 0 <= c < storage.Length && !IsRequested(offsets, displacement, count, len, e, c) ==>
      storage[c] == old(storage[c])
  {
    for k := 0 to count
      invariant forall c :: 0 <= c < storage.Length && !IsRequested(offsets, displacement, count, len, e, c) ==>
        storage[c] == old(storage[c])
      invariant forall j :: 0 <= j < k ==>
        CellsAgree(RequestCell(offsets, displacement, len, e, j), PayloadCell(displacement, count, extraCount, e, j),
                   storage[..], payload[..])
    {
      ghost var was := storage[..];
      var cell: usize, place: usize := base + offsets[displacement + k], at + k;
      assert cell == RequestCell(offsets, displacement, len, e, k);
      storage[cell] := payload[place];
      forall j | 0 <= j <= k
        ensures CellsAgree(RequestCell(offsets, displacement, len, e, j),
                           PayloadCell(displacement, count, extraCount, e, j), storage[..], payload[..])
      {
        if j < k {
          assert CellsAgree(RequestCell(offsets, displacement, len, e, j),
                            PayloadCell(displacement, count, extraCount, e, j), was, payload[..]);
          RequestsApart(offsets, len, displacement + j, e, displacement + k, e);
        }
      }
    }
  }
}
