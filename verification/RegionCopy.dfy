/** The three region copies. */
module RegionCopies {
  // Storage to payload, payload to storage, storage to storage. They are stated against `targets`, the
  // element-by-element list of storage offsets in payload order; the odometer must visit exactly that list.

  import opened MachineInts
  import opened Nonlinear
  import opened MixedRadix
  import opened Counting
  import opened Axis
  import opened Geometry
  import opened Pencil
  import opened RegionWalks

  /** The walk visits the offsets `targets` in order; they are distinct and lie below `len`. */
  ghost predicate WalkOver(w: RegionWalk, targets: seq<nat>, len: nat) {
    && WalkFits(w) && Positive(w.extent) && 0 < w.runLen && 0 < w.runStride
    && w.runLen == w.extent[|w.extent| - 1] && w.runStride == w.stride[|w.stride| - 1]
    && 0 < w.outerLen == Product(w.extent[..|w.extent| - 1])
    && |targets| == Times(w.outerLen, w.runLen)
    && (forall k :: 0 <= k < |targets| ==> targets[k] == WalkOffset(w, k) < len)
    && NoDuplicates(targets)
  }

  /** The odometer at outer position `position`: its counter and the run's first offset. */
  ghost predicate Odometer(w: RegionWalk, position: nat, counter: seq<nat>, offset: nat) {
    && Positive(w.extent) && OuterIndex(w, counter)
    && Positive(w.extent[..|counter|])
    && counter == Digits(w.extent[..|counter|], position)
    && offset == w.start + Dot(w.stride, counter)
  }

  /** The storage cell of payload cell `j`, when the region's payload starts at `at` and its
      extra block of storage at `base`. */
  ghost function Cell(targets: seq<nat>, base: nat, at: nat, j: nat): (cell: nat)
    requires at <= j < at + |targets|
  {
    base + targets[j - at]
  }

  /** The storage cell of payload cell `j` in a strided run that starts at `from` and `p`. */
  function RunCell(from: nat, stride: nat, p: nat, j: nat): nat
    requires p <= j
  {
    from + Times(j - p, stride)
  }

  ghost predicate OnRun(from: nat, stride: nat, p: nat, len: nat, c: int) {
    exists j :: p <= j < p + len && c == RunCell(from, stride, p, j)
  }

  /** `c` holds one of the first `p - at` elements of the region. */
  ghost predicate OnRegion(targets: seq<nat>, base: nat, at: nat, p: nat, c: int)
    requires p <= at + |targets|
  {
    exists j :: at <= j < p && c == Cell(targets, base, at, j)
  }

  /** Element `index` of the run at `position` is element number `position * runLen + index`. */
  lemma RunTarget(w: RegionWalk, targets: seq<nat>, len: nat, position: nat, counter: seq<nat>, offset: nat, index: nat)
    requires WalkOver(w, targets, len) && position < w.outerLen && index < w.runLen
    requires Odometer(w, position, counter, offset)
    ensures Times(position, w.runLen) + index < |targets|
    ensures offset + Times(index, w.runStride) == targets[Times(position, w.runLen) + index]
  {
    var k := Times(position, w.runLen) + index;
    TimesRow(position, w.outerLen, w.runLen, index);
    TimesDivMod(position, w.runLen, index);
    assert Digits(w.extent, k) == counter + [index];
    assert (counter + [index])[..|counter|] == counter;
    assert targets[k] == WalkOffset(w, k);
  }

  /** One run covers the payload cells from `p` on and touches exactly their storage cells. */
  lemma RunSteps(w: RegionWalk, targets: seq<nat>, len: nat, position: nat, counter: seq<nat>, offset: nat,
                 base: nat, at: nat, from: nat, p: nat)
    requires WalkOver(w, targets, len) && position < w.outerLen && Odometer(w, position, counter, offset)
    requires from == base + offset && p == at + Times(position, w.runLen)
    ensures at + Times(position + 1, w.runLen) == p + w.runLen <= at + |targets|
    ensures position + 1 == w.outerLen ==> p + w.runLen == at + |targets|
    ensures forall j :: p <= j < p + w.runLen ==>
      RunCell(from, w.runStride, p, j) == Cell(targets, base, at, j) < base + len
  {
    TimesMono(position + 1, w.outerLen, w.runLen, w.runLen);
    forall j | p <= j < p + w.runLen
      ensures RunCell(from, w.runStride, p, j) == Cell(targets, base, at, j) < base + len
    {
      RunTarget(w, targets, len, position, counter, offset, j - p);
    }
  }

  /** A run's cells belong to the region and differ from every cell already written. */
  lemma RunIsNew(targets: seq<nat>, base: nat, at: nat, from: nat, stride: nat, p: nat, len: nat)
    requires NoDuplicates(targets) && at <= p && p + len <= at + |targets|
    requires forall j :: p <= j < p + len ==> RunCell(from, stride, p, j) == Cell(targets, base, at, j)
    ensures forall c :: OnRun(from, stride, p, len, c) ==> OnRegion(targets, base, at, p + len, c)
    ensures forall c :: OnRegion(targets, base, at, p, c) ==> OnRegion(targets, base, at, p + len, c)
    ensures forall j :: at <= j < p ==> !OnRun(from, stride, p, len, Cell(targets, base, at, j))
  {
  }

  lemma WalkStarts(w: RegionWalk, targets: seq<nat>, len: nat)
    requires WalkOver(w, targets, len)
    ensures 0 < |w.extent| && 0 < w.outerLen && 0 < w.runLen && w.start <= USIZE_MAX
    ensures forall k :: 0 <= k < |targets| ==> targets[k] < len
    ensures Odometer(w, 0, Zeros(|w.extent| - 1), w.start) && Times(0, w.runLen) == 0
  {
    var zeros := Zeros(|w.extent| - 1);
    DotZeros(w.stride, zeros);
    LinearZeros(w.extent[..|zeros|], zeros);
    DigitsOfLinear(w.extent[..|zeros|], zeros);
  }

  /** Moves the odometer to the next outer position. */
  method NextRun(w: RegionWalk, ghost targets: seq<nat>, ghost len: nat, was: seq<nat>, offset: usize,
                 ghost position: nat)
    returns (counter: seq<nat>, moved: usize)
    requires WalkOver(w, targets, len) && Odometer(w, position, was, offset) && position + 1 < w.outerLen
    ensures Odometer(w, position + 1, counter, moved)
  {
    NextDigits(w.extent[..|was|], position);
    counter, moved := AdvanceRegion(w, was, offset);
  }

  /** Reads one strided run into the payload. */
  method GatherRun<T>(storage: array<T>, from: nat, stride: nat, payload: array<T>, p: nat, len: nat)
    requires storage != payload && p + len <= payload.Length
    requires forall j :: p <= j < p + len ==> RunCell(from, stride, p, j) < storage.Length <= USIZE_MAX
    modifies payload
    ensures forall j :: p <= j < p + len ==> payload[j] == storage[RunCell(from, stride, p, j)]
    ensures forall j :: 0 <= j < payload.Length && !(p <= j < p + len) ==> payload[j] == old(payload[j])
  {
    if stride == 1 {
      UnitRun(from, p, len);
      forall i | 0 <= i < len {
        payload[p + i] := storage[from + i];
      }
    } else {
      for i := 0 to len
        invariant forall j :: p <= j < p + i ==> payload[j] == storage[RunCell(from, stride, p, j)]
        invariant forall j :: 0 <= j < payload.Length && !(p <= j < p + i) ==> payload[j] == old(payload[j])
      {
        assert RunCell(from, stride, p, p + i) < storage.Length;
        var skip := Multiply(i, stride);
        payload[p + i] := storage[from + skip];
      }
    }
  }

  /** Writes one strided run from the payload. */
  method ScatterRun<T>(storage: array<T>, from: nat, stride: nat, payload: array<T>, p: nat, len: nat)
    requires storage != payload && p + len <= payload.Length && 0 < stride
    requires forall j :: p <= j < p + len ==> RunCell(from, stride, p, j) < storage.Length <= USIZE_MAX
    modifies storage
    ensures forall j :: p <= j < p + len ==> storage[RunCell(from, stride, p, j)] == payload[j]
    ensures forall c :: 0 <= c < storage.Length && !OnRun(from, stride, p, len, c) ==> storage[c] == old(storage[c])
  {
    if stride == 1 {
      UnitRun(from, p, len);
      forall i | 0 <= i < len {
        storage[from + i] := payload[p + i];
      }
    } else {
      for i := 0 to len
        invariant forall j :: p <= j < p + i ==> storage[RunCell(from, stride, p, j)] == payload[j]
        invariant forall c :: 0 <= c < storage.Length && !OnRun(from, stride, p, i, c) ==> storage[c] == old(storage[c])
      {
        assert RunCell(from, stride, p, p + i) < storage.Length;
        forall j | p <= j < p + i ensures RunCell(from, stride, p, j) != RunCell(from, stride, p, p + i) {
          TimesIncreases(j - p, i, stride);
        }
        var skip := Multiply(i, stride);
        assert OnRun(from, stride, p, i + 1, from + skip);
        storage[from + skip] := payload[p + i];
        assert forall c :: OnRun(from, stride, p, i, c) ==> OnRun(from, stride, p, i + 1, c);
      }
    }
  }

  /** With stride one a run is contiguous: the source copies it as a slice. */
  lemma UnitRun(from: nat, p: nat, len: nat)
    ensures forall j :: p <= j < p + len ==> RunCell(from, 1, p, j) == from + j - p
    ensures 0 < len ==> RunCell(from, 1, p, p + len - 1) == from + len - 1
    ensures forall c :: from <= c < from + len ==> OnRun(from, 1, p, len, c)
  {
    forall j | p <= j < p + len ensures RunCell(from, 1, p, j) == from + j - p {
      TimesIs(j - p, 1);
    }
    forall c | from <= c < from + len ensures OnRun(from, 1, p, len, c) {
      assert c == RunCell(from, 1, p, p + c - from);
    }
  }

  /** Copies one strided run from one storage to another. */
  method MoveRun<T>(source: array<T>, from: nat, sourceStride: nat, destination: array<T>, to: nat, stride: nat,
                    ghost p: nat, len: nat)
    requires source != destination && 0 < stride
    requires forall j :: p <= j < p + len ==> RunCell(from, sourceStride, p, j) < source.Length <= USIZE_MAX
    requires forall j :: p <= j < p + len ==> RunCell(to, stride, p, j) < destination.Length <= USIZE_MAX
    modifies destination
    ensures forall j :: p <= j < p + len ==>
      destination[RunCell(to, stride, p, j)] == source[RunCell(from, sourceStride, p, j)]
    ensures forall c :: 0 <= c < destination.Length && !OnRun(to, stride, p, len, c) ==>
      destination[c] == old(destination[c])
  {
    if sourceStride == 1 && stride == 1 {
      UnitRun(from, p, len);
      UnitRun(to, p, len);
      forall i | 0 <= i < len {
        destination[to + i] := source[from + i];
      }
    } else {
      for i := 0 to len
        invariant forall j :: p <= j < p + i ==>
          destination[RunCell(to, stride, p, j)] == source[RunCell(from, sourceStride, p, j)]
        invariant forall c :: 0 <= c < destination.Length && !OnRun(to, stride, p, i, c) ==>
          destination[c] == old(destination[c])
      {
        assert RunCell(from, sourceStride, p, p + i) < source.Length
          && RunCell(to, stride, p, p + i) < destination.Length;
        forall j | p <= j < p + i ensures RunCell(to, stride, p, j) != RunCell(to, stride, p, p + i) {
          TimesIncreases(j - p, i, stride);
        }
        var skip := Multiply(i, sourceStride);
        var reach := Multiply(i, stride);
        assert OnRun(to, stride, p, i + 1, to + reach);
        destination[to + reach] := source[from + skip];
        assert forall c :: OnRun(to, stride, p, i, c) ==> OnRun(to, stride, p, i + 1, c);
      }
    }
  }

  /** The run at the odometer's position, as elements of the region. */
  method GatherRegionRun<T>(w: RegionWalk, ghost targets: seq<nat>, ghost len: nat, ghost position: nat,
                            ghost counter: seq<nat>, storage: array<T>, base: nat, offset: nat, payload: array<T>,
                            ghost at: nat, p: nat)
    requires WalkOver(w, targets, len) && position < w.outerLen && Odometer(w, position, counter, offset)
    requires storage != payload && base + len <= storage.Length <= USIZE_MAX && at + |targets| <= payload.Length
    requires p == at + Times(position, w.runLen)
    modifies payload
    ensures at + Times(position + 1, w.runLen) == p + w.runLen <= at + |targets|
    ensures position + 1 == w.outerLen ==> p + w.runLen == at + |targets|
    ensures forall j :: p <= j < p + w.runLen ==> payload[j] == storage[Cell(targets, base, at, j)]
    ensures forall j :: 0 <= j < payload.Length && !(p <= j < p + w.runLen) ==> payload[j] == old(payload[j])
  {
    var from := base + offset;
    RunSteps(w, targets, len, position, counter, offset, base, at, from, p);
    GatherRun(storage, from, w.runStride, payload, p, w.runLen);
  }

  method ScatterRegionRun<T>(w: RegionWalk, ghost targets: seq<nat>, ghost len: nat, ghost position: nat,
                             ghost counter: seq<nat>, payload: array<T>, ghost at: nat, p: nat, storage: array<T>,
                             base: nat, offset: nat)
    requires WalkOver(w, targets, len) && position < w.outerLen && Odometer(w, position, counter, offset)
    requires storage != payload && base + len <= storage.Length <= USIZE_MAX && at + |targets| <= payload.Length
    requires p == at + Times(position, w.runLen) <= at + |targets|
    modifies storage
    ensures at + Times(position + 1, w.runLen) == p + w.runLen <= at + |targets|
    ensures position + 1 == w.outerLen ==> p + w.runLen == at + |targets|
    ensures forall j :: p <= j < p + w.runLen ==> storage[Cell(targets, base, at, j)] == payload[j]
    ensures forall j :: at <= j < p ==> storage[Cell(targets, base, at, j)] == old(storage[Cell(targets, base, at, j)])
    ensures forall c :: 0 <= c < storage.Length && !OnRegion(targets, base, at, p + w.runLen, c) ==>
      storage[c] == old(storage[c])
    ensures forall c :: OnRegion(targets, base, at, p, c) ==> OnRegion(targets, base, at, p + w.runLen, c)
  {
    var from := base + offset;
    RunSteps(w, targets, len, position, counter, offset, base, at, from, p);
    RunIsNew(targets, base, at, from, w.runStride, p, w.runLen);
    ScatterRun(storage, from, w.runStride, payload, p, w.runLen);
  }

  method MoveRegionRun<T>(sw: RegionWalk, ghost sources: seq<nat>, ghost sourceLen: nat, ghost sourceCounter: seq<nat>,
                          dw: RegionWalk, ghost targets: seq<nat>, ghost len: nat, ghost counter: seq<nat>,
                          ghost position: nat, source: array<T>, sourceBase: nat, sourceOffset: nat,
                          destination: array<T>, base: nat, offset: nat, ghost p: nat)
    requires WalkOver(sw, sources, sourceLen) && position < sw.outerLen
      && Odometer(sw, position, sourceCounter, sourceOffset)
    requires WalkOver(dw, targets, len) && Odometer(dw, position, counter, offset)
    requires sw.outerLen == dw.outerLen && sw.runLen == dw.runLen && |sources| == |targets|
    requires source != destination && p == Times(position, sw.runLen) <= |targets|
    requires sourceBase + sourceLen <= source.Length <= USIZE_MAX && base + len <= destination.Length <= USIZE_MAX
    modifies destination
    ensures Times(position + 1, sw.runLen) == p + sw.runLen <= |targets|
    ensures position + 1 == sw.outerLen ==> p + sw.runLen == |targets|
    ensures forall j :: p <= j < p + sw.runLen ==>
      destination[Cell(targets, base, 0, j)] == source[Cell(sources, sourceBase, 0, j)]
    ensures forall j :: 0 <= j < p ==>
      destination[Cell(targets, base, 0, j)] == old(destination[Cell(targets, base, 0, j)])
    ensures forall c :: 0 <= c < destination.Length && !OnRegion(targets, base, 0, p + sw.runLen, c) ==>
      destination[c] == old(destination[c])
    ensures forall c :: OnRegion(targets, base, 0, p, c) ==> OnRegion(targets, base, 0, p + sw.runLen, c)
  {
    var from, to := sourceBase + sourceOffset, base + offset;
    RunSteps(sw, sources, sourceLen, position, sourceCounter, sourceOffset, sourceBase, 0, from, p);
    RunSteps(dw, targets, len, position, counter, offset, base, 0, to, p);
    RunIsNew(targets, base, 0, to, dw.runStride, p, dw.runLen);
    MoveRun(source, from, sw.runStride, destination, to, dw.runStride, p, sw.runLen);
  }

  /** Copies one region from storage (its extra block starting at `base`) into the payload
      segment at `at`. */
  method CopyRegionToPayload<T>(w: RegionWalk, ghost targets: seq<nat>, ghost len: nat,
                                storage: array<T>, base: nat, payload: array<T>, at: nat)
    requires WalkOver(w, targets, len)
    requires storage != payload && base + len <= storage.Length <= USIZE_MAX
    requires at + |targets| <= payload.Length <= USIZE_MAX
    modifies payload
    ensures forall j :: at <= j < at + |targets| ==> payload[j] == storage[Cell(targets, base, at, j)]
    ensures forall j :: 0 <= j < payload.Length && !(at <= j < at + |targets|) ==> payload[j] == old(payload[j])
  {
    hide Odometer;
    hide WalkOver;
    WalkStarts(w, targets, len);
    if w.runLen == 0 {
      return;
    }
    var counter := Zeros(|w.extent| - 1);
    var offset: usize, p: nat, position := w.start, at, 0;
    while position < w.outerLen
      invariant position < w.outerLen && Odometer(w, position, counter, offset)
      invariant p == at + Times(position, w.runLen) <= at + |targets|
      invariant forall j :: at <= j < p ==> payload[j] == storage[Cell(targets, base, at, j)]
      invariant forall j :: 0 <= j < payload.Length && !(at <= j < p) ==> payload[j] == old(payload[j])
      decreases w.outerLen - position
    {
      GatherRegionRun(w, targets, len, position, counter, storage, base, offset, payload, at, p);
      p := p + w.runLen;
      if position + 1 == w.outerLen {
        break;
      }
      counter, offset := NextRun(w, targets, len, counter, offset, position);
      position := position + 1;
    }
  }

  /** Copies one payload segment into its region of storage and leaves the rest alone. */
  method CopyRegionFromPayload<T>(w: RegionWalk, ghost targets: seq<nat>, ghost len: nat,
                                  payload: array<T>, at: nat, storage: array<T>, base: nat)
    requires WalkOver(w, targets, len)
    requires storage != payload && base + len <= storage.Length <= USIZE_MAX
    requires at + |targets| <= payload.Length <= USIZE_MAX
    modifies storage
    ensures forall j :: at <= j < at + |targets| ==> storage[Cell(targets, base, at, j)] == payload[j]
    ensures forall c :: 0 <= c < storage.Length && !OnRegion(targets, base, at, at + |targets|, c) ==>
      storage[c] == old(storage[c])
  {
    hide Odometer;
    hide WalkOver;
    WalkStarts(w, targets, len);
    if w.runLen == 0 {
      return;
    }
    var counter := Zeros(|w.extent| - 1);
    var offset: usize, p: nat, position := w.start, at, 0;
    while position < w.outerLen
      invariant position < w.outerLen && Odometer(w, position, counter, offset)
      invariant p == at + Times(position, w.runLen) <= at + |targets|
      invariant forall j :: at <= j < p ==> storage[Cell(targets, base, at, j)] == payload[j]
      invariant forall c :: 0 <= c < storage.Length && !OnRegion(targets, base, at, p, c) ==>
        storage[c] == old(storage[c])
      decreases w.outerLen - position
    {
      ScatterRegionRun(w, targets, len, position, counter, payload, at, p, storage, base, offset);
      p := p + w.runLen;
      if position + 1 == w.outerLen {
        break;
      }
      counter, offset := NextRun(w, targets, len, counter, offset, position);
      position := position + 1;
    }
  }

  /** Copies one region between two layouts without a payload in between. */
  method CopyRegionBetween<T>(sw: RegionWalk, ghost sources: seq<nat>, ghost sourceLen: nat,
                              dw: RegionWalk, ghost targets: seq<nat>, ghost len: nat,
                              source: array<T>, sourceBase: nat, destination: array<T>, base: nat)
    requires WalkOver(sw, sources, sourceLen) && WalkOver(dw, targets, len)
    requires sw.outerLen == dw.outerLen && sw.runLen == dw.runLen && |sources| == |targets|
    requires source != destination
    requires sourceBase + sourceLen <= source.Length <= USIZE_MAX && base + len <= destination.Length <= USIZE_MAX
    modifies destination
    ensures forall j :: 0 <= j < |targets| ==>
      destination[Cell(targets, base, 0, j)] == source[Cell(sources, sourceBase, 0, j)]
    ensures forall c :: 0 <= c < destination.Length && !OnRegion(targets, base, 0, |targets|, c) ==>
      destination[c] == old(destination[c])
  {
    hide Odometer;
    hide WalkOver;
    WalkStarts(sw, sources, sourceLen);
    WalkStarts(dw, targets, len);
    if sw.runLen == 0 {
      return;
    }
    var sourceCounter, counter := Zeros(|sw.extent| - 1), Zeros(|dw.extent| - 1);
    var sourceOffset: usize, offset: usize, position := sw.start, dw.start, 0;
    ghost var p := 0;
    while position < sw.outerLen
      invariant position < sw.outerLen
      invariant Odometer(sw, position, sourceCounter, sourceOffset)
      invariant Odometer(dw, position, counter, offset)
      invariant p == Times(position, sw.runLen) <= |targets|
      invariant forall j :: 0 <= j < p ==>
        destination[Cell(targets, base, 0, j)] == source[Cell(sources, sourceBase, 0, j)]
      invariant forall c :: 0 <= c < destination.Length && !OnRegion(targets, base, 0, p, c) ==>
        destination[c] == old(destination[c])
      decreases sw.outerLen - position
    {
      MoveRegionRun(sw, sources, sourceLen, sourceCounter, dw, targets, len, counter, position,
                    source, sourceBase, sourceOffset, destination, base, offset, p);
      p := p + sw.runLen;
      if position + 1 == sw.outerLen {
        break;
      }
      sourceCounter, sourceOffset := NextRun(sw, sources, sourceLen, sourceCounter, sourceOffset, position);
      counter, offset := NextRun(dw, targets, len, counter, offset, position);
      position := position + 1;
    }
  }

  /** The element-by-element offsets of a region, in global row-major order: the reference
      mapping the walk replaces. */
  ghost function Targets(l: LocalLayout, region: Box): (targets: seq<nat>)
    requires l.Valid() && Covers(l.ranges, region)
    ensures |targets| == Volume(region)
  {
    seq(Volume(region), k requires 0 <= k < Volume(region) => TargetAt(l, region, k))
  }

  ghost function TargetAt(l: LocalLayout, region: Box, k: nat): nat
    requires l.Valid() && Covers(l.ranges, region) && k < Volume(region)
  {
    IndexRoundTrip(region, k);
    l.Offset(IndexAt(region, k))
  }

  /** The walk built for a region visits the reference offsets: distinct, in bounds, in order. */
  lemma WalkIsOver(l: LocalLayout, region: Box, w: RegionWalk)
    requires WalkFor(l, region, w)
    ensures WalkOver(w, Targets(l, region), l.Len())
  {
    WalkMaximum(l, region, w);
    WalkVolume(l, region, w);
    LastStridePositive(l, region, w);
    var targets := Targets(l, region);
    forall k | 0 <= k < |targets| ensures targets[k] == WalkOffset(w, k) < l.Len() {
      WalkVisits(l, region, w, k);
    }
    forall j, k | 0 <= j < k < |targets| ensures targets[j] != targets[k] {
      if targets[j] == targets[k] {
        TargetInjective(l, region, j, k);
      }
    }
  }

  lemma LastStridePositive(l: LocalLayout, region: Box, w: RegionWalk)
    requires WalkFor(l, region, w)
    ensures 0 < w.runStride
  {
    var q := l.permutation.logicalToMemory[|region| - 1];
    InBoundsPositive(l.ShapeMemory(), l.permutation.Permute(Lead(l.ranges, region)));
    PositiveProduct(l.ShapeMemory()[q + 1..]);
  }

  lemma TargetInjective(l: LocalLayout, region: Box, j: nat, k: nat)
    requires l.Valid() && Covers(l.ranges, region) && j < Volume(region) && k < Volume(region)
    requires TargetAt(l, region, j) == TargetAt(l, region, k)
    ensures j == k
  {
    IndexRoundTrip(region, j);
    IndexRoundTrip(region, k);
    CoversBox(l.ranges, region, IndexAt(region, j));
    CoversBox(l.ranges, region, IndexAt(region, k));
    OffsetInjective(l, IndexAt(region, j), IndexAt(region, k));
  }

  /** In coordinates: index `g` of the region is element `PlaceIn(region, g)` of the payload and
      cell `Offset(g)` of storage. */
  lemma TargetOfIndex(l: LocalLayout, region: Box, g: seq<nat>)
    requires l.Valid() && Covers(l.ranges, region) && InBox(region, g)
    ensures InBox(l.ranges, g)
    ensures PlaceIn(region, g) < Volume(region) && Targets(l, region)[PlaceIn(region, g)] == l.Offset(g)
  {
    PlaceRoundTrip(region, g);
    CoversBox(l.ranges, region, g);
  }

  /** Storage cells of indices outside the region are not cells of the region. */
  lemma TargetOutside(l: LocalLayout, region: Box, g: seq<nat>)
    requires l.Valid() && Covers(l.ranges, region) && InBox(l.ranges, g) && !InBox(region, g)
    ensures l.Offset(g) !in Targets(l, region)
  {
    forall k | 0 <= k < Volume(region) ensures l.Offset(g) != TargetAt(l, region, k) {
      IndexRoundTrip(region, k);
      var h := IndexAt(region, k);
      CoversBox(l.ranges, region, h);
      if l.Offset(g) == l.Offset(h) {
        OffsetInjective(l, g, h);
      }
    }
  }
}
