/** Packing the regions of one rank's storage into consecutive payload segments, and the reverse. */
module Segments {
  // Segment `q` holds its region once per extra group, extra-major.

  import opened MachineInts
  import opened Nonlinear
  import opened MixedRadix
  import opened Counting
  import opened Axis
  import opened Geometry
  import opened Pencil
  import opened RegionWalks
  import opened RegionCopies

  /** One peer's region: its element count and the count of all elements before it. */
  datatype Segment = Segment(region: Box, len: nat, displacement: nat)

  /** Every nonempty region lies in the box, and the segments follow one another. */
  ghost predicate Segmented(l: LocalLayout, segments: seq<Segment>, total: nat) {
    && l.Valid()
    && (forall q :: 0 <= q < |segments| ==> Placed(l, segments[q], total))
    && (forall p, q :: 0 <= p < q < |segments| ==>
         segments[p].displacement + segments[p].len <= segments[q].displacement)
  }

  ghost predicate Placed(l: LocalLayout, s: Segment, total: nat) {
    && |s.region| == |l.ranges| && FitsUsize(s.region)
    && s.len == Volume(s.region) && s.displacement + s.len <= total
    && (0 < s.len ==> l.Valid() && Covers(l.ranges, s.region))
  }

  ghost predicate DisjointRegions(segments: seq<Segment>) {
    forall p, q, g :: 0 <= p < q < |segments| ==> !(InBox(segments[p].region, g) && InBox(segments[q].region, g))
  }

  /** The payload cell of element `k` of a segment in extra group `e`. */
  ghost function Slot(s: Segment, extraCount: nat, e: nat, k: nat): nat {
    Times(s.displacement, extraCount) + Times(e, s.len) + k
  }

  lemma SlotBounds(s: Segment, extraCount: nat, e: nat, total: nat)
    requires e < extraCount && s.displacement + s.len <= total
    ensures Slot(s, extraCount, e, 0) + s.len <= Times(s.displacement + s.len, extraCount) <= Times(total, extraCount)
  {
    TimesMono(e + 1, extraCount, s.len, s.len);
    TimesDistribute(s.displacement, s.len, extraCount);
    TimesComm(s.len, extraCount);
    TimesMono(s.displacement + s.len, total, extraCount, extraCount);
  }

  /** Groups of one segment, and different segments, occupy separate payload cells. */
  lemma SlotOrder(s: Segment, t: Segment, extraCount: nat, e: nat, f: nat)
    requires e < extraCount && f < extraCount
    requires s.displacement + s.len <= t.displacement || (s == t && e < f)
    ensures Slot(s, extraCount, e, 0) + s.len <= Slot(t, extraCount, f, 0)
  {
    if s == t && e < f {
      TimesMono(e + 1, f, s.len, s.len);
    } else {
      SlotBounds(s, extraCount, e, t.displacement);
    }
  }

  /** Extra group `e` of the segment holds the region's elements in payload order. */
  ghost predicate GroupHeld<T>(l: LocalLayout, s: Segment, extraCount: nat, e: nat, storage: seq<T>, payload: seq<T>) {
    && 0 < s.len == Volume(s.region) && l.Valid() && Covers(l.ranges, s.region)
    && Times(e, l.Len()) + l.Len() <= |storage|
    && Slot(s, extraCount, e, 0) + s.len <= |payload|
    && forall j :: Slot(s, extraCount, e, 0) <= j < Slot(s, extraCount, e, 0) + s.len ==>
         Cell(Targets(l, s.region), Times(e, l.Len()), Slot(s, extraCount, e, 0), j) < |storage|
         && payload[j] == storage[Cell(Targets(l, s.region), Times(e, l.Len()), Slot(s, extraCount, e, 0), j)]
  }

  /** Every group of every segment that is not skipped and not empty is held. */
  ghost predicate Held<T>(l: LocalLayout, segments: seq<Segment>, skip: Option<nat>, extraCount: nat, storage: seq<T>,
                          payload: seq<T>) {
    forall q, e :: 0 <= q < |segments| && skip != Some(q) && 0 < segments[q].len && 0 <= e < extraCount ==>
      GroupHeld(l, segments[q], extraCount, e, storage, payload)
  }

  lemma GroupStays<T>(l: LocalLayout, s: Segment, extraCount: nat, e: nat, storage: seq<T>, was: seq<T>, now: seq<T>,
                      at: nat, end: nat)
    requires GroupHeld(l, s, extraCount, e, storage, was)
    requires |was| == |now| && forall j :: 0 <= j < |was| && !(at <= j < end) ==> now[j] == was[j]
    requires Slot(s, extraCount, e, 0) + s.len <= at
    ensures GroupHeld(l, s, extraCount, e, storage, now)
  {
  }

  /** The cells one extra group of storage and one payload segment need all exist. */
  lemma GroupFits(l: LocalLayout, s: Segment, extraCount: nat, e: nat, total: nat)
    requires Placed(l, s, total) && 0 < s.len && e < extraCount
    ensures Times(e, l.Len()) + l.Len() <= Times(extraCount, l.Len())
    ensures Slot(s, extraCount, e, 0) + s.len <= Times(total, extraCount)
  {
    SlotBounds(s, extraCount, e, total);
    TimesMono(e + 1, extraCount, l.Len(), l.Len());
  }

  /** Packs every peer's region, except the skipped one, from storage into the send buffer. */
  method PackSourceRegions<T>(segments: seq<Segment>, skip: Option<nat>, l: LocalLayout, storage: array<T>,
                              payload: array<T>, extraCount: usize, ghost total: nat)
    requires Segmented(l, segments, total) && storage != payload
    requires Times(extraCount, l.Len()) <= storage.Length <= USIZE_MAX
    requires Times(total, extraCount) <= payload.Length <= USIZE_MAX
    modifies payload
    ensures Held(l, segments, skip, extraCount, storage[..], payload[..])
  {
    hide GroupHeld;
    hide LocalLayout.Valid;
    if extraCount == 0 {
      return;
    }
    for q := 0 to |segments|
      invariant Held(l, segments[..q], skip, extraCount, storage[..], payload[..])
    {
      var s := segments[q];
      assert Placed(l, s, total);
      if skip == Some(q) || s.len == 0 {
        continue;
      }
      PackSegment(s, l, storage, payload, extraCount, total, segments[..q], skip);
    }
    assert segments[..|segments|] == segments;
  }

  /** The inner loop over extra groups; earlier segments stay as they are. */
  method PackSegment<T>(s: Segment, l: LocalLayout, storage: array<T>, payload: array<T>, extraCount: usize,
                        ghost total: nat, ghost before: seq<Segment>, ghost skip: Option<nat>)
    requires Placed(l, s, total) && 0 < s.len && storage != payload
    requires forall p :: 0 <= p < |before| ==> before[p].displacement + before[p].len <= s.displacement
    requires Times(extraCount, l.Len()) <= storage.Length <= USIZE_MAX
    requires Times(total, extraCount) <= payload.Length <= USIZE_MAX
    requires Held(l, before, skip, extraCount, storage[..], payload[..])
    modifies payload
    ensures Held(l, before, skip, extraCount, storage[..], payload[..])
    ensures forall e :: 0 <= e < extraCount ==> GroupHeld(l, s, extraCount, e, storage[..], payload[..])
  {
    var r := WalkOf(l, s.region);
    var w := r.value;
    WalkIsOver(l, s.region, w);
    ghost var targets := Targets(l, s.region);
    hide WalkOver;
    hide WalkFor;
    hide GroupHeld;
    hide Held;
    hide Targets;
    for e := 0 to extraCount
      invariant Held(l, before, skip, extraCount, storage[..], payload[..])
      invariant forall f :: 0 <= f < e ==> GroupHeld(l, s, extraCount, f, storage[..], payload[..])
    {
      ghost var was := payload[..];
      GroupFits(l, s, extraCount, e, total);
      SegmentStartFits(s, extraCount, total);
      var segmentStart := Multiply(s.displacement, extraCount);
      var groupStart := Multiply(e, s.len);
      var base := Multiply(e, l.Len());
      var at := segmentStart + groupStart;
      CopyRegionToPayload(w, targets, l.Len(), storage, base, payload, at);
      GroupIsHeld(l, s, extraCount, e, storage[..], payload[..]);
      forall f | 0 <= f < e ensures GroupHeld(l, s, extraCount, f, storage[..], payload[..]) {
        SlotOrder(s, s, extraCount, f, e);
        GroupStays(l, s, extraCount, f, storage[..], was, payload[..], at, at + s.len);
      }
      HeldStays(l, s, before, skip, extraCount, e, storage[..], was, payload[..], at);
    }
  }

  lemma HeldStays<T>(l: LocalLayout, s: Segment, before: seq<Segment>, skip: Option<nat>, extraCount: nat, e: nat,
                     storage: seq<T>, was: seq<T>, now: seq<T>, at: nat)
    requires Held(l, before, skip, extraCount, storage, was) && e < extraCount && at == Slot(s, extraCount, e, 0)
    requires forall p :: 0 <= p < |before| ==> before[p].displacement + before[p].len <= s.displacement
    requires |was| == |now| && forall j :: 0 <= j < |was| && !(at <= j < at + s.len) ==> now[j] == was[j]
    ensures Held(l, before, skip, extraCount, storage, now)
  {
    forall p, f | 0 <= p < |before| && skip != Some(p) && 0 < before[p].len && 0 <= f < extraCount
      ensures GroupHeld(l, before[p], extraCount, f, storage, now)
    {
      SlotOrder(before[p], s, extraCount, f, e);
      GroupStays(l, before[p], extraCount, f, storage, was, now, at, at + s.len);
    }
  }

  lemma SegmentStartFits(s: Segment, extraCount: nat, total: nat)
    requires s.displacement + s.len <= total && 0 < extraCount
    ensures Times(s.displacement, extraCount) <= Times(total, extraCount)
  {
    TimesMono(s.displacement, total, extraCount, extraCount);
  }

  lemma GroupIsHeld<T>(l: LocalLayout, s: Segment, extraCount: nat, e: nat, storage: seq<T>, payload: seq<T>)
    requires 0 < s.len == Volume(s.region) && l.Valid() && Covers(l.ranges, s.region)
    requires Times(e, l.Len()) + l.Len() <= |storage| && Slot(s, extraCount, e, 0) + s.len <= |payload|
    requires forall j :: Slot(s, extraCount, e, 0) <= j < Slot(s, extraCount, e, 0) + s.len ==>
      Cell(Targets(l, s.region), Times(e, l.Len()), Slot(s, extraCount, e, 0), j) < |storage|
      && payload[j] == storage[Cell(Targets(l, s.region), Times(e, l.Len()), Slot(s, extraCount, e, 0), j)]
    ensures GroupHeld(l, s, extraCount, e, storage, payload)
  {
  }

  /** Storage beyond the extra groups, and every index that no unskipped region contains, keep
      their values. */
  ghost predicate Untouched<T>(l: LocalLayout, segments: seq<Segment>, skip: Option<nat>, extraCount: nat, was: seq<T>,
                               now: seq<T>) {
    && l.Valid() && |was| == |now| && Times(extraCount, l.Len()) <= |was|
    && (forall c :: Times(extraCount, l.Len()) <= c < |was| ==> now[c] == was[c])
    && forall e, g :: 0 <= e < extraCount && Outside(l, segments, skip, g) ==>
         StorageCell(l, extraCount, e, g) < |was|
           && now[StorageCell(l, extraCount, e, g)] == was[StorageCell(l, extraCount, e, g)]
  }

  ghost predicate Outside(l: LocalLayout, segments: seq<Segment>, skip: Option<nat>, g: seq<nat>) {
    && InBox(l.ranges, g)
    && forall q :: 0 <= q < |segments| && skip != Some(q) ==> !InBox(segments[q].region, g)
  }

  /** Where extra group `e` of storage keeps index `g`. */
  ghost function StorageCell(l: LocalLayout, extraCount: nat, e: nat, g: seq<nat>): (c: nat)
    requires l.Valid() && InBox(l.ranges, g) && e < extraCount
    ensures Times(e, l.Len()) <= c < Times(e, l.Len()) + l.Len() <= Times(extraCount, l.Len())
  {
    OffsetRoundTrip(l, g);
    TimesMono(e + 1, extraCount, l.Len(), l.Len());
    Times(e, l.Len()) + l.Offset(g)
  }

  /** Extra groups lie one after the other, each in the memory order of the layout. */
  lemma StorageCellIs(d: Distribution, coords: seq<nat>, extraCount: nat, e: nat, box: Box, g: seq<nat>,
                      extents: seq<nat>, terms: seq<nat>)
    requires d.Valid() && InBounds(d.grid, coords) && box == d.RangesAt(coords) && InBox(box, g) && e < extraCount
    requires InMemoryOrder(d.permutation.axes, box, g, extents, terms)
    ensures d.LayoutAt(coords).Valid()
    ensures StorageCell(d.LayoutAt(coords), extraCount, e, g) == e * Product(extents) + Total(terms)
  {
    LayoutValid(d, coords);
    OffsetIs(d, coords, box, g, extents, terms);
    MemoryOrder(d, coords);
    LayoutLen(d.LayoutAt(coords));
    assert extents == d.LayoutAt(coords).ShapeMemory();
    TimesIs(e, Product(extents));
  }

  /** A region copied into group `e` changes neither other groups nor disjoint regions. */
  lemma GroupSurvives<T>(l: LocalLayout, s: Segment, t: Segment, extraCount: nat, e: nat, f: nat,
                         was: seq<T>, now: seq<T>, payload: seq<T>, at: nat)
    requires GroupHeld(l, t, extraCount, f, was, payload) && f < extraCount && e < extraCount
    requires 0 < s.len == Volume(s.region) && Covers(l.ranges, s.region)
    requires f != e || forall g :: !(InBox(s.region, g) && InBox(t.region, g))
    requires |was| == |now|
    requires forall c :: 0 <= c < |was| && !OnRegion(Targets(l, s.region), Times(e, l.Len()), at, at + s.len, c) ==>
      now[c] == was[c]
    ensures GroupHeld(l, t, extraCount, f, now, payload)
  {
    var first := Slot(t, extraCount, f, 0);
    var targets, others := Targets(l, s.region), Targets(l, t.region);
    forall j | first <= j < first + t.len
      ensures !OnRegion(targets, Times(e, l.Len()), at, at + s.len, Cell(others, Times(f, l.Len()), first, j))
    {
      forall i | at <= i < at + s.len
        ensures Cell(targets, Times(e, l.Len()), at, i) != Cell(others, Times(f, l.Len()), first, j)
      {
        TargetsApart(l, s.region, t.region, e, f, i - at, j - first);
      }
    }
  }

  lemma TargetsApart(l: LocalLayout, region: Box, other: Box, e: nat, f: nat, i: nat, j: nat)
    requires l.Valid() && Covers(l.ranges, region) && Covers(l.ranges, other)
    requires i < Volume(region) && j < Volume(other)
    requires f != e || forall g :: !(InBox(region, g) && InBox(other, g))
    ensures Times(e, l.Len()) + Targets(l, region)[i] != Times(f, l.Len()) + Targets(l, other)[j]
  {
    TargetInBox(l, region, i);
    TargetInBox(l, other, j);
    if e < f {
      TimesMono(e + 1, f, l.Len(), l.Len());
    } else if f < e {
      TimesMono(f + 1, e, l.Len(), l.Len());
    } else {
      assert !(InBox(region, IndexAt(region, i)) && InBox(other, IndexAt(region, i)));
      if TargetAt(l, region, i) == TargetAt(l, other, j) {
        OffsetInjective(l, IndexAt(region, i), IndexAt(other, j));
        assert false;
      }
    }
  }

  lemma TargetInBox(l: LocalLayout, region: Box, k: nat)
    requires l.Valid() && Covers(l.ranges, region) && k < Volume(region)
    ensures InBox(region, IndexAt(region, k)) && InBox(l.ranges, IndexAt(region, k))
    ensures Targets(l, region)[k] == TargetAt(l, region, k) < l.Len()
  {
    IndexRoundTrip(region, k);
    CoversBox(l.ranges, region, IndexAt(region, k));
    OffsetRoundTrip(l, IndexAt(region, k));
  }

  /** Copying one region into group `e` leaves every index outside it, and the tail, alone. */
  lemma GroupFrame<T>(l: LocalLayout, s: Segment, extraCount: nat, e: nat, was: seq<T>, now: seq<T>, at: nat,
                      segments: seq<Segment>, skip: Option<nat>)
    requires l.Valid() && 0 < s.len == Volume(s.region) && Covers(l.ranges, s.region) && e < extraCount
    requires |was| == |now| && Times(extraCount, l.Len()) <= |was|
    requires forall c :: 0 <= c < |was| && !OnRegion(Targets(l, s.region), Times(e, l.Len()), at, at + s.len, c) ==>
      now[c] == was[c]
    requires exists q :: 0 <= q < |segments| && skip != Some(q) && segments[q] == s
    ensures Untouched(l, segments, skip, extraCount, was, now)
  {
    var targets := Targets(l, s.region);
    TimesMono(e + 1, extraCount, l.Len(), l.Len());
    hide Covers;
    forall c | Times(extraCount, l.Len()) <= c < |was| ensures now[c] == was[c] {
      forall i | at <= i < at + s.len ensures Cell(targets, Times(e, l.Len()), at, i) != c {
        TargetInBox(l, s.region, i - at);
      }
    }
    forall f, g | 0 <= f < extraCount && Outside(l, segments, skip, g)
      ensures StorageCell(l, extraCount, f, g) < |was|
        && now[StorageCell(l, extraCount, f, g)] == was[StorageCell(l, extraCount, f, g)]
    {
      forall i | at <= i < at + s.len
        ensures Cell(targets, Times(e, l.Len()), at, i) != StorageCell(l, extraCount, f, g)
      {
        TargetOffIndex(l, s.region, extraCount, e, f, i - at, g);
      }
    }
  }

  lemma TargetOffIndex(l: LocalLayout, region: Box, extraCount: nat, e: nat, f: nat, k: nat, g: seq<nat>)
    requires l.Valid() && Covers(l.ranges, region) && k < Volume(region) && f < extraCount
    requires InBox(l.ranges, g) && !InBox(region, g)
    ensures Times(e, l.Len()) + Targets(l, region)[k] != StorageCell(l, extraCount, f, g)
  {
    TargetInBox(l, region, k);
    if e < f {
      TimesMono(e + 1, f, l.Len(), l.Len());
    } else if f < e {
      TimesMono(f + 1, e, l.Len(), l.Len());
    } else if l.Offset(g) == TargetAt(l, region, k) {
      OffsetInjective(l, g, IndexAt(region, k));
      assert false;
    }
  }

  lemma UntouchedChain<T>(l: LocalLayout, segments: seq<Segment>, skip: Option<nat>, extraCount: nat, a: seq<T>,
                          b: seq<T>, c: seq<T>)
    requires Untouched(l, segments, skip, extraCount, a, b) && Untouched(l, segments, skip, extraCount, b, c)
    ensures Untouched(l, segments, skip, extraCount, a, c)
  {
  }

  lemma UntouchedWiden<T>(l: LocalLayout, segments: seq<Segment>, s: Segment, skip: Option<nat>, extraCount: nat,
                          a: seq<T>, b: seq<T>)
    requires Untouched(l, segments, skip, extraCount, a, b)
    ensures Untouched(l, segments + [s], skip, extraCount, a, b)
  {
    forall g | Outside(l, segments + [s], skip, g) ensures Outside(l, segments, skip, g) {
      forall q | 0 <= q < |segments| && skip != Some(q) ensures !InBox(segments[q].region, g) {
        assert (segments + [s])[q] == segments[q];
      }
    }
  }

  /** Unpacks every peer's segment, except the skipped one, into its region of storage. */
  method UnpackDestinationRegions<T>(segments: seq<Segment>, skip: Option<nat>, l: LocalLayout, storage: array<T>,
                                     payload: array<T>, extraCount: usize, ghost total: nat)
    requires Segmented(l, segments, total) && DisjointRegions(segments) && storage != payload
    requires Times(extraCount, l.Len()) <= storage.Length <= USIZE_MAX
    requires Times(total, extraCount) <= payload.Length <= USIZE_MAX
    modifies storage
    ensures Held(l, segments, skip, extraCount, storage[..], payload[..])
    ensures Untouched(l, segments, skip, extraCount, old(storage[..]), storage[..])
  {
    if extraCount == 0 {
      return;
    }
    ghost var start := storage[..];
    assert segments[..0] == [];
    for q := 0 to |segments|
      invariant Held(l, segments[..q], skip, extraCount, storage[..], payload[..])
      invariant Untouched(l, segments[..q], skip, extraCount, start, storage[..])
    {
      var s := segments[q];
      assert Placed(l, s, total);
      assert segments[..q + 1] == segments[..q] + [s];
      UntouchedWiden(l, segments[..q], s, skip, extraCount, start, storage[..]);
      if skip == Some(q) || s.len == 0 {
        continue;
      }
      UnpackSegment(s, l, storage, payload, extraCount, total, segments[..q], skip, start);
    }
    assert segments[..|segments|] == segments;
  }

  /** The inner loop over extra groups; regions unpacked before stay as they are. */
  method UnpackSegment<T>(s: Segment, l: LocalLayout, storage: array<T>, payload: array<T>, extraCount: usize,
                          ghost total: nat, ghost before: seq<Segment>, ghost skip: Option<nat>, ghost start: seq<T>)
    requires Placed(l, s, total) && 0 < s.len && storage != payload && skip != Some(|before|)
    requires forall p, g :: 0 <= p < |before| ==> !(InBox(before[p].region, g) && InBox(s.region, g))
    requires Times(extraCount, l.Len()) <= storage.Length <= USIZE_MAX
    requires Times(total, extraCount) <= payload.Length <= USIZE_MAX
    requires Held(l, before, skip, extraCount, storage[..], payload[..])
    requires Untouched(l, before + [s], skip, extraCount, start, storage[..])
    modifies storage
    ensures Held(l, before + [s], skip, extraCount, storage[..], payload[..])
    ensures Untouched(l, before + [s], skip, extraCount, start, storage[..])
  {
    var r := WalkOf(l, s.region);
    hide WalkFor;
    hide GroupHeld;
    hide Held;
    hide Untouched;
    for e := 0 to extraCount
      invariant Held(l, before, skip, extraCount, storage[..], payload[..])
      invariant forall f :: 0 <= f < e ==> GroupHeld(l, s, extraCount, f, storage[..], payload[..])
      invariant Untouched(l, before + [s], skip, extraCount, start, storage[..])
    {
      UnpackGroup(s, r.value, l, storage, payload, extraCount, e, total, before, skip, start);
    }
    HeldWith(l, before, s, skip, extraCount, storage[..], payload[..]);
  }

  /** One extra group of one segment. */
  method UnpackGroup<T>(s: Segment, w: RegionWalk, l: LocalLayout, storage: array<T>, payload: array<T>,
                        extraCount: usize, e: usize, ghost total: nat, ghost before: seq<Segment>,
                        ghost skip: Option<nat>, ghost start: seq<T>)
    requires Placed(l, s, total) && 0 < s.len && storage != payload && skip != Some(|before|) && e < extraCount
    requires WalkFor(l, s.region, w)
    requires forall p, g :: 0 <= p < |before| ==> !(InBox(before[p].region, g) && InBox(s.region, g))
    requires Times(extraCount, l.Len()) <= storage.Length <= USIZE_MAX
    requires Times(total, extraCount) <= payload.Length <= USIZE_MAX
    requires Held(l, before, skip, extraCount, storage[..], payload[..])
    requires forall f :: 0 <= f < e ==> GroupHeld(l, s, extraCount, f, storage[..], payload[..])
    requires Untouched(l, before + [s], skip, extraCount, start, storage[..])
    modifies storage
    ensures Held(l, before, skip, extraCount, storage[..], payload[..])
    ensures forall f :: 0 <= f <= e ==> GroupHeld(l, s, extraCount, f, storage[..], payload[..])
    ensures Untouched(l, before + [s], skip, extraCount, start, storage[..])
  {
    hide WalkOver;
    hide GroupHeld;
    hide Held;
    hide Targets;
    hide Untouched;
    hide InBox;
    hide LocalLayout.Valid;
    WalkIsOver(l, s.region, w);
    ghost var targets, after, was := Targets(l, s.region), before + [s], storage[..];
    assert after[|before|] == s;
    hide WalkFor;
    GroupFits(l, s, extraCount, e, total);
    SegmentStartFits(s, extraCount, total);
    var segmentStart := Multiply(s.displacement, extraCount);
    var groupStart := Multiply(e, s.len);
    var base := Multiply(e, l.Len());
    var at := segmentStart + groupStart;
    CopyRegionFromPayload(w, targets, l.Len(), payload, at, storage, base);
    ghost var now := storage[..];
    GroupIsHeld(l, s, extraCount, e, now, payload[..]);
    GroupFrame(l, s, extraCount, e, was, now, at, after, skip);
    UntouchedChain(l, after, skip, extraCount, start, was, now);
    forall f | 0 <= f < e ensures GroupHeld(l, s, extraCount, f, now, payload[..]) {
      GroupSurvives(l, s, s, extraCount, e, f, was, now, payload[..], at);
    }
    HeldSurvives(l, s, before, skip, extraCount, e, was, now, payload[..], at);
  }

  lemma HeldSurvives<T>(l: LocalLayout, s: Segment, before: seq<Segment>, skip: Option<nat>, extraCount: nat, e: nat,
                        was: seq<T>, now: seq<T>, payload: seq<T>, at: nat)
    requires Held(l, before, skip, extraCount, was, payload) && e < extraCount
    requires l.Valid() && 0 < s.len == Volume(s.region) && Covers(l.ranges, s.region)
    requires forall p, g :: 0 <= p < |before| ==> !(InBox(before[p].region, g) && InBox(s.region, g))
    requires |was| == |now|
    requires forall c :: 0 <= c < |was| && !OnRegion(Targets(l, s.region), Times(e, l.Len()), at, at + s.len, c) ==>
      now[c] == was[c]
    ensures Held(l, before, skip, extraCount, now, payload)
  {
    forall p, f | 0 <= p < |before| && skip != Some(p) && 0 < before[p].len && 0 <= f < extraCount
      ensures GroupHeld(l, before[p], extraCount, f, now, payload)
    {
      assert GroupHeld(l, before[p], extraCount, f, was, payload);
      GroupSurvives(l, s, before[p], extraCount, e, f, was, now, payload, at);
    }
  }

  lemma HeldWith<T>(l: LocalLayout, before: seq<Segment>, s: Segment, skip: Option<nat>, extraCount: nat,
                    storage: seq<T>, payload: seq<T>)
    requires Held(l, before, skip, extraCount, storage, payload)
    requires forall e :: 0 <= e < extraCount ==> GroupHeld(l, s, extraCount, e, storage, payload)
    ensures Held(l, before + [s], skip, extraCount, storage, payload)
  {
    forall q, e | 0 <= q < |before + [s]| && skip != Some(q) && 0 < (before + [s])[q].len && 0 <= e < extraCount
      ensures GroupHeld(l, (before + [s])[q], extraCount, e, storage, payload)
    {
      if q < |before| {
        assert GroupHeld(l, before[q], extraCount, e, storage, payload);
      }
    }
  }

  /** Both layouts hold the region's values, index by index, in every extra group. */
  ghost predicate SameRegion<T>(sl: LocalLayout, dl: LocalLayout, region: Box, extraCount: nat, source: seq<T>,
                                destination: seq<T>) {
    && sl.Valid() && dl.Valid()
    && forall e, g :: 0 <= e < extraCount && InBox(region, g) && InBox(sl.ranges, g) && InBox(dl.ranges, g) ==>
         StorageCell(sl, extraCount, e, g) < |source| && StorageCell(dl, extraCount, e, g) < |destination|
         && destination[StorageCell(dl, extraCount, e, g)] == source[StorageCell(sl, extraCount, e, g)]
  }

  /** One extra group of the self copy. */
  method CopySelfGroup<T>(ghost s: Segment, sw: RegionWalk, sl: LocalLayout, source: array<T>, dw: RegionWalk,
                          dl: LocalLayout, destination: array<T>, ghost extraCount: nat, e: nat, ghost start: seq<T>)
    requires WalkFor(sl, s.region, sw) && WalkFor(dl, s.region, dw)
    requires source != destination && 0 < s.len == Volume(s.region) && e < extraCount
    requires Times(extraCount, sl.Len()) <= source.Length <= USIZE_MAX
    requires Times(extraCount, dl.Len()) <= destination.Length <= USIZE_MAX
    requires forall f :: 0 <= f < e ==> GroupMoved(sl, dl, s.region, f, source[..], destination[..])
    requires Untouched(dl, [s], None, extraCount, start, destination[..])
    modifies destination
    ensures forall f :: 0 <= f <= e ==> GroupMoved(sl, dl, s.region, f, source[..], destination[..])
    ensures Untouched(dl, [s], None, extraCount, start, destination[..])
  {
    WalkIsOver(sl, s.region, sw);
    WalkIsOver(dl, s.region, dw);
    ghost var sources, targets, was := Targets(sl, s.region), Targets(dl, s.region), destination[..];
    hide WalkOver;
    hide Targets;
    hide Untouched;
    TimesMono(e + 1, extraCount, sl.Len(), sl.Len());
    TimesMono(e + 1, extraCount, dl.Len(), dl.Len());
    var sourceBase := Multiply(e, sl.Len());
    var base := Multiply(e, dl.Len());
    CopyRegionBetween(sw, sources, sl.Len(), dw, targets, dl.Len(), source, sourceBase, destination, base);
    ghost var now := destination[..];
    assert [s][0] == s;
    GroupFrame(dl, s, extraCount, e, was, now, 0, [s], None);
    UntouchedChain(dl, [s], None, extraCount, start, was, now);
    forall f | 0 <= f < e ensures GroupMoved(sl, dl, s.region, f, source[..], now) {
      MovedSurvives(sl, dl, s.region, extraCount, e, f, source[..], was, now);
    }
    assert GroupMoved(sl, dl, s.region, e, source[..], now);
  }

  /** Copies the calling rank's own region straight from source storage to destination storage. */
  method CopySelfRegion<T>(s: Segment, sl: LocalLayout, source: array<T>, dl: LocalLayout, destination: array<T>,
                           extraCount: usize)
    requires sl.Valid() && dl.Valid() && |s.region| == |sl.ranges| == |dl.ranges| && FitsUsize(s.region)
    requires s.len == Volume(s.region) && (0 < s.len ==> Covers(sl.ranges, s.region) && Covers(dl.ranges, s.region))
    requires source != destination
    requires Times(extraCount, sl.Len()) <= source.Length <= USIZE_MAX
    requires Times(extraCount, dl.Len()) <= destination.Length <= USIZE_MAX
    modifies destination
    ensures SameRegion(sl, dl, s.region, extraCount, source[..], destination[..])
    ensures Untouched(dl, [s], None, extraCount, old(destination[..]), destination[..])
  {
    if extraCount == 0 {
      return;
    }
    if s.len == 0 {
      EmptyBox(s.region);
      return;
    }
    var sr := WalkOf(sl, s.region);
    var dr := WalkOf(dl, s.region);
    var sw, dw := sr.value, dr.value;
    ghost var start := destination[..];
    hide WalkFor;
    hide Untouched;
    hide GroupMoved;
    UntouchedRefl(dl, [s], None, extraCount, start);
    for e := 0 to extraCount
      invariant forall f :: 0 <= f < e ==> GroupMoved(sl, dl, s.region, f, source[..], destination[..])
      invariant Untouched(dl, [s], None, extraCount, start, destination[..])
    {
      CopySelfGroup(s, sw, sl, source, dw, dl, destination, extraCount, e, start);
    }
    MovedIsSame(sl, dl, s.region, extraCount, source[..], destination[..]);
  }

  lemma UntouchedRefl<T>(l: LocalLayout, segments: seq<Segment>, skip: Option<nat>, extraCount: nat, a: seq<T>)
    requires l.Valid() && Times(extraCount, l.Len()) <= |a|
    ensures Untouched(l, segments, skip, extraCount, a, a)
  {
  }

  ghost predicate GroupMoved<T>(sl: LocalLayout, dl: LocalLayout, region: Box, e: nat, source: seq<T>,
                                destination: seq<T>) {
    && sl.Valid() && dl.Valid() && Covers(sl.ranges, region) && Covers(dl.ranges, region)
    && Times(e, sl.Len()) + sl.Len() <= |source| && Times(e, dl.Len()) + dl.Len() <= |destination|
    && forall j :: 0 <= j < Volume(region) ==>
         Cell(Targets(dl, region), Times(e, dl.Len()), 0, j) < |destination|
         && Cell(Targets(sl, region), Times(e, sl.Len()), 0, j) < |source|
         && destination[Cell(Targets(dl, region), Times(e, dl.Len()), 0, j)] ==
           source[Cell(Targets(sl, region), Times(e, sl.Len()), 0, j)]
  }

  lemma MovedSurvives<T>(sl: LocalLayout, dl: LocalLayout, region: Box, extraCount: nat, e: nat, f: nat,
                         source: seq<T>, was: seq<T>, now: seq<T>)
    requires GroupMoved(sl, dl, region, f, source, was) && f < e < extraCount && |was| == |now|
    requires forall c :: 0 <= c < |was| && !OnRegion(Targets(dl, region), Times(e, dl.Len()), 0, Volume(region), c) ==>
      now[c] == was[c]
    ensures GroupMoved(sl, dl, region, f, source, now)
  {
    forall j | 0 <= j < Volume(region)
      ensures !OnRegion(Targets(dl, region), Times(e, dl.Len()), 0, Volume(region),
                        Cell(Targets(dl, region), Times(f, dl.Len()), 0, j))
    {
      forall i | 0 <= i < Volume(region)
        ensures Cell(Targets(dl, region), Times(e, dl.Len()), 0, i) != Cell(Targets(dl, region), Times(f, dl.Len()), 0,
                                                                            j)
      {
        TargetsApart(dl, region, region, e, f, i, j);
      }
    }
  }

  lemma MovedIsSame<T>(sl: LocalLayout, dl: LocalLayout, region: Box, extraCount: nat, source: seq<T>,
                       destination: seq<T>)
    requires sl.Valid() && dl.Valid() && Covers(sl.ranges, region) && Covers(dl.ranges, region)
    requires forall e :: 0 <= e < extraCount ==> GroupMoved(sl, dl, region, e, source, destination)
    ensures SameRegion(sl, dl, region, extraCount, source, destination)
  {
    forall e, g | 0 <= e < extraCount && InBox(region, g) && InBox(sl.ranges, g) && InBox(dl.ranges, g)
      ensures StorageCell(sl, extraCount, e, g) < |source| && StorageCell(dl, extraCount, e, g) < |destination|
      ensures destination[StorageCell(dl, extraCount, e, g)] == source[StorageCell(sl, extraCount, e, g)]
    {
      TargetOfIndex(sl, region, g);
      TargetOfIndex(dl, region, g);
      assert GroupMoved(sl, dl, region, e, source, destination);
      var j := PlaceIn(region, g);
      assert Cell(Targets(dl, region), Times(e, dl.Len()), 0, j) == StorageCell(dl, extraCount, e, g);
    }
  }

  /** In coordinates: a held group keeps index `g` of its region at payload place `PlaceIn(region, g)`. */
  lemma HeldAt<T>(l: LocalLayout, s: Segment, extraCount: nat, e: nat, storage: seq<T>, payload: seq<T>, g: seq<nat>)
    requires GroupHeld(l, s, extraCount, e, storage, payload) && e < extraCount && InBox(s.region, g)
    ensures InBox(l.ranges, g) && PlaceIn(s.region, g) < s.len
    ensures StorageCell(l, extraCount, e, g) < |storage| && Slot(s, extraCount, e, PlaceIn(s.region, g)) < |payload|
    ensures payload[Slot(s, extraCount, e, PlaceIn(s.region, g))] == storage[StorageCell(l, extraCount, e, g)]
  {
    TargetOfIndex(l, s.region, g);
    var j := Slot(s, extraCount, e, PlaceIn(s.region, g));
    assert Cell(Targets(l, s.region), Times(e, l.Len()), Slot(s, extraCount, e, 0), j) ==
      StorageCell(l, extraCount, e, g);
  }
}
