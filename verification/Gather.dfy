/** Gathering a distributed array on one rank. */
module Gathers {
  // In global logical row-major order.

  import opened MachineInts
  import opened Nonlinear
  import opened MixedRadix
  import opened Counting
  import opened Axis
  import opened Geometry
  import opened Pencil
  import opened RegionWalks
  import opened Segments
  import opened Plans
  import opened TransposeWorlds
  import opened RemapRoutes
  import Preflight

  datatype GatherError = GatherCountOverflow | InconsistentBlocks | StorageLengthMismatch

  // ----- Visiting the process grid

  ghost predicate AtEnd(grid: seq<nat>, coords: seq<nat>) {
    |coords| == |grid| && forall a :: 0 <= a < |grid| ==> coords[a] + 1 == grid[a]
  }

  lemma EndIsLast(grid: seq<nat>, coords: seq<nat>)
    requires InBounds(grid, coords)
    ensures AtEnd(grid, coords) <==> Linear(grid, coords) + 1 == Product(grid)
  {
    if AtEnd(grid, coords) {
      LinearOfLast(grid, coords);
    } else if Linear(grid, coords) + 1 == Product(grid) {
      var last := seq(|grid|, a requires 0 <= a < |grid| => if grid[a] == 0 then 0 else grid[a] - 1);
      LinearOfLast(grid, last);
      LinearInjective(grid, coords, last);
      assert false;
    }
  }

  /** The odometer over grid coordinates, in place: the row-major successor, or a wrap to zero. */
  method AdvanceCoordinates(coords: array<nat>, grid: seq<nat>) returns (more: bool)
    requires InBounds(grid, coords[..])
    modifies coords
    ensures more <==> !AtEnd(grid, old(coords[..]))
    ensures more ==> coords[..] == Next(grid, old(coords[..]))
    ensures !more ==> forall a :: 0 <= a < coords.Length ==> coords[a] == 0
  {
    ghost var was := coords[..];
    assert grid[..|grid|] == grid && was[..|grid|] == was;
    for axis := |grid| downto 0
      invariant forall a :: 0 <= a < axis ==> coords[a] == was[a]
      invariant forall a :: axis <= a < |grid| ==> coords[a] == 0 && was[a] + 1 == grid[a]
      invariant Next(grid, was) == Next(grid[..axis], was[..axis]) + Zeros(|grid| - axis)
    {
      assert grid[..axis + 1][..axis] == grid[..axis] && was[..axis + 1][..axis] == was[..axis];
      coords[axis] := coords[axis] + 1;
      if coords[axis] < grid[axis] {
        assert coords[..] == Next(grid, was);
        return true;
      }
      coords[axis] := 0;
      assert [0] + Zeros(|grid| - axis - 1) == Zeros(|grid| - axis);
    }
    return false;
  }

  function RankLayout(d: Distribution, rank: nat): LocalLayout
    requires Positive(d.grid) && |d.grid| == |d.decomposition|
  {
    d.LayoutAt(Digits(d.grid, rank))
  }

  lemma RankLayoutValid(d: Distribution, rank: nat)
    requires d.Valid() && rank < Product(d.grid)
    ensures InBounds(d.grid, Digits(d.grid, rank)) && Linear(d.grid, Digits(d.grid, rank)) == rank
    ensures RankLayout(d, rank).Valid() && RankLayout(d, rank).Len() <= Product(d.shape) <= USIZE_MAX
  {
    LinearOfDigits(d.grid, rank);
    LayoutValid(d, Digits(d.grid, rank));
  }

  // ----- The blocks partition the global index space

  ghost function LenAt(d: Distribution, rank: nat): nat
    requires d.Valid()
  {
    RankLayout(d, rank).Len()
  }

  /** Row-major global index of the element at a local offset of one rank. */
  ghost function GlobalOffset(d: Distribution, rank: nat, offset: nat): (k: nat)
    requires d.Valid() && rank < Product(d.grid) && offset < LenAt(d, rank)
    ensures k < Product(d.shape)
  {
    ElementInShape(d, rank, offset);
    LinearBound(d.shape, RankLayout(d, rank).IndexOf(offset));
    Linear(d.shape, RankLayout(d, rank).IndexOf(offset))
  }

  lemma ElementInShape(d: Distribution, rank: nat, offset: nat)
    requires d.Valid() && rank < Product(d.grid) && offset < LenAt(d, rank)
    ensures offset < Product(RankLayout(d, rank).ShapeMemory()) && RankLayout(d, rank).Valid()
    ensures InBox(RankLayout(d, rank).ranges, RankLayout(d, rank).IndexOf(offset))
      && InBounds(d.shape, RankLayout(d, rank).IndexOf(offset))
    ensures RankLayout(d, rank).Offset(RankLayout(d, rank).IndexOf(offset)) == offset
  {
    RankLayoutValid(d, rank);
    IndexOfRoundTrip(RankLayout(d, rank), offset);
    BoxInShape(d, Digits(d.grid, rank), RankLayout(d, rank).IndexOf(offset));
  }

  /** Each global index comes from one offset of one rank. */
  lemma GlobalOffsetInjective(d: Distribution, r: nat, o: nat, s: nat, p: nat)
    requires d.Valid() && r < Product(d.grid) && s < Product(d.grid)
    requires o < LenAt(d, r) && p < LenAt(d, s)
    requires GlobalOffset(d, r, o) == GlobalOffset(d, s, p)
    ensures r == s && o == p
  {
    ElementInShape(d, r, o);
    ElementInShape(d, s, p);
    var g := RankLayout(d, r).IndexOf(o);
    LinearInjective(d.shape, g, RankLayout(d, s).IndexOf(p));
    RankLayoutValid(d, r);
    RankLayoutValid(d, s);
    BoxesTile(d, g, Digits(d.grid, r));
    BoxesTile(d, g, Digits(d.grid, s));
  }

  ghost function BlockOffsets(d: Distribution, rank: nat): (s: seq<nat>)
    requires d.Valid() && rank < Product(d.grid)
    ensures |s| == LenAt(d, rank) && forall o :: 0 <= o < |s| ==> s[o] == GlobalOffset(d, rank, o)
  {
    seq(LenAt(d, rank), o requires 0 <= o < LenAt(d, rank) => GlobalOffset(d, rank, o))
  }

  /** The global indices of the first `n` ranks' blocks, one after the other. */
  ghost function AllOffsets(d: Distribution, n: nat): seq<nat>
    requires d.Valid() && n <= Product(d.grid)
  {
    if n == 0 then [] else AllOffsets(d, n - 1) + BlockOffsets(d, n - 1)
  }

  ghost function BlockLens(d: Distribution): (lens: seq<nat>)
    requires d.Valid()
    ensures |lens| == Product(d.grid) && forall r :: 0 <= r < |lens| ==> lens[r] == LenAt(d, r)
  {
    seq(Product(d.grid), r requires 0 <= r < Product(d.grid) => LenAt(d, r))
  }

  lemma {:induction false} AllOffsetsLength(d: Distribution, n: nat)
    requires d.Valid() && n <= Product(d.grid)
    ensures |AllOffsets(d, n)| == PrefixSum(BlockLens(d), n)
  {
    hide GlobalOffset;
    hide Distribution.Valid;
    hide LenAt;
    if n != 0 {
      AllOffsetsLength(d, n - 1);
    }
  }

  ghost predicate FromBlock(d: Distribution, n: nat, k: nat)
    requires d.Valid() && n <= Product(d.grid)
  {
    exists r, o :: 0 <= r < n && 0 <= o < LenAt(d, r) && GlobalOffset(d, r, o) == k
  }

  lemma {:induction false} AllOffsetsAre(d: Distribution, n: nat)
    requires d.Valid() && n <= Product(d.grid)
    ensures forall j :: 0 <= j < |AllOffsets(d, n)| ==>
      AllOffsets(d, n)[j] < Product(d.shape) && FromBlock(d, n, AllOffsets(d, n)[j])
    ensures forall r, o :: 0 <= r < n && 0 <= o < LenAt(d, r) ==> GlobalOffset(d, r, o) in AllOffsets(d, n)
  {
    hide GlobalOffset;
    hide Distribution.Valid;
    hide LenAt;
    if n != 0 {
      AllOffsetsAre(d, n - 1);
      var before, here := AllOffsets(d, n - 1), BlockOffsets(d, n - 1);
      forall j | 0 <= j < |before + here|
        ensures (before + here)[j] < Product(d.shape) && FromBlock(d, n, (before + here)[j])
      {
        if j < |before| {
          assert FromBlock(d, n - 1, before[j]);
        } else {
          assert here[j - |before|] == GlobalOffset(d, n - 1, j - |before|);
        }
      }
      forall r, o | 0 <= r < n && 0 <= o < LenAt(d, r) ensures GlobalOffset(d, r, o) in before + here {
        if r == n - 1 {
          assert here[o] in here;
        }
      }
    }
  }

  lemma {:induction false} AllOffsetsDistinct(d: Distribution, n: nat)
    requires d.Valid() && n <= Product(d.grid)
    ensures NoDuplicates(AllOffsets(d, n))
  {
    hide GlobalOffset;
    hide Distribution.Valid;
    hide LenAt;
    hide FromBlock;
    if n != 0 {
      AllOffsetsDistinct(d, n - 1);
      AllOffsetsAre(d, n - 1);
      BlockDistinct(d, n - 1);
      var before, here := AllOffsets(d, n - 1), BlockOffsets(d, n - 1);
      forall i, j | 0 <= i < |before| && 0 <= j < |here| ensures before[i] != here[j] {
        OtherBlock(d, n - 1, before[i], j);
      }
    }
  }

  lemma BlockDistinct(d: Distribution, rank: nat)
    requires d.Valid() && rank < Product(d.grid)
    ensures NoDuplicates(BlockOffsets(d, rank))
  {
    var here := BlockOffsets(d, rank);
    forall i, j | 0 <= i < j < |here| ensures here[i] != here[j] {
      if here[i] == here[j] {
        GlobalOffsetInjective(d, rank, i, rank, j);
      }
    }
  }

  lemma OtherBlock(d: Distribution, rank: nat, k: nat, o: nat)
    requires d.Valid() && rank < Product(d.grid) && FromBlock(d, rank, k) && o < LenAt(d, rank)
    ensures k != BlockOffsets(d, rank)[o]
  {
    var r, p :| 0 <= r < rank && 0 <= p < LenAt(d, r) && GlobalOffset(d, r, p) == k;
    if k == GlobalOffset(d, rank, o) {
      GlobalOffsetInjective(d, r, p, rank, o);
    }
  }

  /** Every global index is in some rank's block. */
  lemma EveryIndexInBlock(d: Distribution, k: nat)
    requires d.Valid() && k < Product(d.shape)
    ensures FromBlock(d, Product(d.grid), k)
  {
    LinearOfDigits(d.shape, k);
    var g := Digits(d.shape, k);
    OwnerInBounds(d, g);
    BoxesTile(d, g, d.OwnerOf(g));
    IndexInBlock(d, g, d.OwnerOf(g));
  }

  lemma IndexInBlock(d: Distribution, g: seq<nat>, c: seq<nat>)
    requires d.Valid() && InBounds(d.shape, g) && InBounds(d.grid, c) && InBox(d.RangesAt(c), g)
    ensures FromBlock(d, Product(d.grid), Linear(d.shape, g))
  {
    LinearBound(d.grid, c);
    DigitsOfLinear(d.grid, c);
    var r := Linear(d.grid, c);
    RankLayoutValid(d, r);
    OffsetRoundTrip(RankLayout(d, r), g);
    assert GlobalOffset(d, r, RankLayout(d, r).Offset(g)) == Linear(d.shape, g);
  }

  /** The blocks of all ranks together have exactly as many elements as the global array. */
  lemma BlocksFillArray(d: Distribution)
    requires d.Valid()
    ensures PrefixSum(BlockLens(d), Product(d.grid)) == Product(d.shape)
  {
    var n := Product(d.grid);
    AllOffsetsLength(d, n);
    AllOffsetsAre(d, n);
    AllOffsetsDistinct(d, n);
    forall k: nat | k < Product(d.shape) ensures k in AllOffsets(d, n) {
      EveryIndexInBlock(d, k);
    }
    Pigeonhole(AllOffsets(d, n), Product(d.shape));
  }

  // ----- Block metadata

  datatype Block = Block(ranges: Box, shapeMemory: seq<nat>, spatialCount: nat, count: nat)

  ghost function BlockAt(d: Distribution, extraCount: nat, rank: nat): Block
    requires d.Valid()
  {
    var l := RankLayout(d, rank);
    Block(l.ranges, l.ShapeMemory(), l.Len(), Times(l.Len(), extraCount))
  }

  /** The block at process coordinates: its only failure is a count beyond MPI's `Count`. */
  method BuildBlock(d: Distribution, coords: seq<nat>, extraCount: usize) returns (r: Result<Block, GatherError>)
    requires d.Valid() && InBounds(d.grid, coords)
    ensures r == var b := BlockAt(d, extraCount, Linear(d.grid, coords));
      if b.count <= COUNT_MAX then Ok(b) else Err(GatherCountOverflow)
  {
    DigitsOfLinear(d.grid, coords);
    LinearBound(d.grid, coords);
    RankLayoutValid(d, Linear(d.grid, coords));
    var ranges := d.RangesAt(coords);
    var shape := Shape(ranges);
    var spatial := CheckedProduct(shape);
    if spatial.Err? {
      return Err(GatherCountOverflow);
    }
    var count := CheckedMul(spatial.value, extraCount);
    if count.None? || count.value > COUNT_MAX {
      return Err(GatherCountOverflow);
    }
    return Ok(Block(ranges, d.permutation.Permute(shape), spatial.value, count.value));
  }

  ghost predicate BlocksFit(d: Distribution, extraCount: nat, n: nat)
    requires d.Valid()
  {
    forall r :: 0 <= r < n ==> BlockAt(d, extraCount, r).count <= COUNT_MAX
  }

  /** The slots of the first `visited` ranks are filled, the others are not. */
  ghost predicate Filed(d: Distribution, extraCount: nat, slots: seq<Option<Block>>, visited: nat)
    requires d.Valid()
  {
    && visited <= |slots| == Product(d.grid) && BlocksFit(d, extraCount, visited)
    && (forall k :: 0 <= k < visited ==> slots[k] == Some(BlockAt(d, extraCount, k)))
    && (forall k :: visited <= k < |slots| ==> slots[k] == None)
  }

  /** Visits every grid coordinate exactly once and files each block under its rank. */
  method CollectBlocks(d: Distribution, extraCount: usize) returns (r: Result<seq<Block>, GatherError>)
    requires d.Valid()
    ensures r.Ok? <==> BlocksFit(d, extraCount, Product(d.grid))
    ensures r.Ok? ==> |r.value| == Product(d.grid) && forall k :: 0 <= k < |r.value| ==>
      r.value[k] == BlockAt(d, extraCount, k)
    ensures r.Err? ==> r.error == GatherCountOverflow
  {
    PositiveProduct(d.grid);
    var slots := new Option<Block>[Product(d.grid)](_ => None);
    var coords := new nat[|d.grid|](_ => 0);
    ghost var visited := 0;
    FirstDigits(d.grid, coords[..]);
    var more := true;
    hide Distribution.Valid;
    hide BlockAt;
    hide Digits;
    hide Product;
    while more
      invariant Filed(d, extraCount, slots[..], visited)
      invariant if more then visited < slots.Length && coords[..] == Digits(d.grid, visited)
        else visited == slots.Length
      decreases slots.Length - visited
    {
      var filed := FileBlock(d, extraCount, coords, slots, visited);
      if filed.Err? {
        return Err(filed.error);
      }
      more := filed.value;
      visited := visited + 1;
    }
    r := AllFiled(d, extraCount, slots[..]);
  }

  /** The body of the visiting loop: files the block of the current coordinates and moves on. */
  method FileBlock(d: Distribution, extraCount: usize, coords: array<nat>, slots: array<Option<Block>>,
                   ghost visited: nat)
    returns (r: Result<bool, GatherError>)
    requires d.Valid() && Filed(d, extraCount, slots[..], visited) && visited < slots.Length
    requires coords[..] == Digits(d.grid, visited)
    modifies coords, slots
    ensures r.Ok? ==> Filed(d, extraCount, slots[..], visited + 1)
    ensures r.Ok? ==>
      if r.value then visited + 1 < slots.Length && coords[..] == Digits(d.grid, visited + 1)
        else visited + 1 == slots.Length
    ensures r.Err? ==> r.error == GatherCountOverflow && BlockAt(d, extraCount, visited).count > COUNT_MAX
  {
    hide Distribution.Valid;
    hide BlockAt;
    hide Product;
    hide Digits;
    hide Linear;
    LinearOfDigits(d.grid, visited);
    var rank := Linear(d.grid, coords[..]);
    assert slots[..][visited] == None;
    if slots[rank].Some? {
      return Err(InconsistentBlocks);
    }
    var block := BuildBlock(d, coords[..], extraCount);
    if block.Err? {
      return Err(GatherCountOverflow);
    }
    ghost var was := slots[..];
    slots[rank] := Some(block.value);
    assert slots[..] == was[visited := Some(block.value)];
    EndIsLast(d.grid, coords[..]);
    if visited + 1 < slots.Length {
      NextDigits(d.grid, visited);
    }
    var more := AdvanceCoordinates(coords, d.grid);
    return Ok(more);
  }

  method AllFiled(d: Distribution, extraCount: nat, slots: seq<Option<Block>>)
    returns (r: Result<seq<Block>, GatherError>)
    requires d.Valid() && Filed(d, extraCount, slots, |slots|)
    ensures r.Ok? && |r.value| == Product(d.grid) && forall k :: 0 <= k < |r.value| ==>
      r.value[k] == BlockAt(d, extraCount, k)
  {
    hide BlockAt;
    hide Distribution.Valid;
    var blocks: seq<Block> := [];
    for k := 0 to |slots|
      invariant |blocks| == k && forall i :: 0 <= i < k ==> blocks[i] == BlockAt(d, extraCount, i)
    {
      if slots[k].None? {
        return Err(InconsistentBlocks);
      }
      blocks := blocks + [slots[k].value];
    }
    return Ok(blocks);
  }

  lemma FirstDigits(grid: seq<nat>, zeros: seq<nat>)
    requires Positive(grid) && |zeros| == |grid| && forall a :: 0 <= a < |zeros| ==> zeros[a] == 0
    ensures zeros == Digits(grid, 0) && InBounds(grid, zeros)
  {
    LinearZeros(grid, zeros);
    DigitsOfLinear(grid, zeros);
  }

  datatype Metadata = Metadata(blocks: seq<Block>, maximumCount: nat, firstNonempty: nat)

  /** What the loop over blocks finds. */
  ghost predicate Summary(counts: seq<nat>, maximum: nat, first: nat) {
    && (forall r :: 0 <= r < |counts| ==> counts[r] <= maximum)
    && (maximum == 0 || maximum in counts)
    && first <= |counts| && (forall r :: 0 <= r < first ==> counts[r] == 0) && (first < |counts| ==> counts[first] != 0)
  }

  ghost function CountsOf(d: Distribution, extraCount: nat): (counts: seq<nat>)
    requires d.Valid()
    ensures |counts| == Product(d.grid) && counts != []
    ensures forall r :: 0 <= r < |counts| ==> counts[r] == BlockAt(d, extraCount, r).count
  {
    PositiveProduct(d.grid);
    seq(Product(d.grid), r requires 0 <= r < Product(d.grid) => BlockAt(d, extraCount, r).count)
  }

  lemma CountsTotal(d: Distribution, extraCount: nat)
    requires d.Valid()
    ensures PrefixSum(CountsOf(d, extraCount), Product(d.grid)) == Times(Product(d.shape), extraCount)
  {
    assert ScaledBy(BlockLens(d), extraCount, CountsOf(d, extraCount));
    ScaledPrefix(BlockLens(d), CountsOf(d, extraCount), extraCount, Product(d.grid));
    BlocksFillArray(d);
  }

  /** The metadata of a gather. The total always equals the global count; what can fail is a count
      beyond MPI's `Count`, or a view whose length is not its rank's. */
  method BuildGatherMetadata(d: Distribution, extraCount: usize, globalCount: usize, rank: nat, viewLen: usize)
    returns (r: Result<Metadata, GatherError>)
    requires d.Valid() && rank < Product(d.grid) && globalCount == Times(Product(d.shape), extraCount)
    ensures r.Ok? <==> BlocksFit(d, extraCount, Product(d.grid)) && viewLen == BlockAt(d, extraCount, rank).count
    ensures r.Ok? ==> |r.value.blocks| == Product(d.grid)
    ensures r.Ok? ==> forall k :: 0 <= k < Product(d.grid) ==> r.value.blocks[k] == BlockAt(d, extraCount, k)
    ensures r.Ok? ==> Summary(CountsOf(d, extraCount), r.value.maximumCount, r.value.firstNonempty)
    ensures r.Err? ==>
      r.error == if BlocksFit(d, extraCount, Product(d.grid)) then StorageLengthMismatch else GatherCountOverflow
  {
    var collected := CollectBlocks(d, extraCount);
    if collected.Err? {
      return Err(GatherCountOverflow);
    }
    var blocks := collected.value;
    CountsTotal(d, extraCount);
    hide BlockAt;
    hide Distribution.Valid;
    var summary := Summarise(blocks, globalCount, CountsOf(d, extraCount));
    if summary.None? {
      return Err(InconsistentBlocks);
    }
    if blocks[rank].count != viewLen {
      return Err(StorageLengthMismatch);
    }
    return Ok(Metadata(blocks, summary.value.0, summary.value.1));
  }

  /** Total, largest count and first rank with elements. */
  method Summarise(blocks: seq<Block>, globalCount: usize, ghost counts: seq<nat>) returns (r: Option<(nat, nat)>)
    requires |counts| == |blocks| && (forall k :: 0 <= k < |blocks| ==> blocks[k].count == counts[k])
    requires PrefixSum(counts, |counts|) == globalCount
    ensures r.Some? && Summary(counts, r.value.0, r.value.1)
  {
    var total: usize, maximum: nat, first: nat := 0, 0, |blocks|;
    for k := 0 to |blocks|
      invariant first <= |blocks|
      invariant total == PrefixSum(counts, k)
      invariant forall i :: 0 <= i < k ==> counts[i] <= maximum
      invariant maximum == 0 || maximum in counts
      invariant if first == |blocks| then forall i :: 0 <= i < k ==> counts[i] == 0
                else first < k && counts[first] != 0 && forall i :: 0 <= i < first ==> counts[i] == 0
    {
      PrefixSumMonotone(counts, k, |blocks|);
      var sum := CheckedAdd(total, blocks[k].count);
      if sum.None? {
        return None;
      }
      total := sum.value;
      maximum := Max(maximum, blocks[k].count);
      if blocks[k].count != 0 && first == |blocks| {
        first := k;
      }
    }
    if total != globalCount {
      return None;
    }
    return Some((maximum, first));
  }

  // ----- Confirming the metadata

  /** What a rank contributes to the minimum: its number, or the number of ranks if it holds nothing. */
  function FirstWord(count: nat, rank: nat, size: nat): nat { if count == 0 then size else rank }

  /** What all ranks contribute to the two reductions. */
  ghost function CountRows(counts: seq<nat>): (rows: seq<seq<nat>>)
    ensures |rows| == |counts| && forall r :: 0 <= r < |counts| ==> rows[r] == [counts[r]]
  {
    seq(|counts|, r requires 0 <= r < |counts| => [counts[r]])
  }

  ghost function FirstRows(counts: seq<nat>): (rows: seq<seq<nat>>)
    ensures |rows| == |counts| && forall r :: 0 <= r < |counts| ==> rows[r] == [FirstWord(counts[r], r, |counts|)]
  {
    seq(|counts|, r requires 0 <= r < |counts| => [FirstWord(counts[r], r, |counts|)])
  }

  /** The largest local count and the least first word of all ranks are what each rank computed alone. */
  lemma ReductionsMatchSummary(counts: seq<nat>, maximum: nat, first: nat)
    requires counts != [] && Summary(counts, maximum, first)
    ensures Preflight.Reduced(Preflight.MAX, CountRows(counts), 1) == [maximum]
    ensures Preflight.Reduced(Preflight.MIN, FirstRows(counts), 1) == [first]
  {
    hide Preflight.Greatest;
    hide Preflight.Least;
    hide Summary;
    GreatestIsMaximum(counts, maximum, first);
    LeastIsFirst(counts, maximum, first);
  }

  lemma GreatestIsMaximum(counts: seq<nat>, maximum: nat, first: nat)
    requires counts != [] && Summary(counts, maximum, first)
    ensures Preflight.Greatest(CountRows(counts), 0) == maximum
  {
    hide Preflight.Greatest;
    var greatest := Preflight.Greatest(CountRows(counts), 0);
    Preflight.GreatestIs(CountRows(counts), 1, 0);
    if maximum != 0 {
      var r :| 0 <= r < |counts| && counts[r] == maximum;
      assert CountRows(counts)[r][0] <= greatest;
    }
  }

  lemma LeastIsFirst(counts: seq<nat>, maximum: nat, first: nat)
    requires counts != [] && Summary(counts, maximum, first)
    ensures Preflight.Least(FirstRows(counts), 0) == first
  {
    hide Preflight.Least;
    Preflight.LeastIs(FirstRows(counts), 1, 0);
    var last := if first < |counts| then first else 0;
    assert Preflight.Least(FirstRows(counts), 0) <= FirstRows(counts)[last][0];
  }

  /** The check of both reductions against the metadata, on any rank whose metadata were built: it never
      fails, so the ranks never diverge here. */
  method ConfirmMetadata(d: Distribution, extraCount: nat, metadata: Metadata, maximumCount: nat, firstNonempty: nat)
    returns (r: Result<(), GatherError>)
    requires d.Valid() && Summary(CountsOf(d, extraCount), metadata.maximumCount, metadata.firstNonempty)
    requires [maximumCount] == Preflight.Reduced(Preflight.MAX, CountRows(CountsOf(d, extraCount)), 1)
    requires [firstNonempty] == Preflight.Reduced(Preflight.MIN, FirstRows(CountsOf(d, extraCount)), 1)
    ensures r.Ok?
  {
    ReductionsMatchSummary(CountsOf(d, extraCount), metadata.maximumCount, metadata.firstNonempty);
    assert [maximumCount][0] == metadata.maximumCount && [firstNonempty][0] == metadata.firstNonempty;
    if maximumCount != metadata.maximumCount || firstNonempty != metadata.firstNonempty {
      return Err(InconsistentBlocks);
    }
    return Ok(());
  }

  // ----- Unpacking a block

  /** Where the global array keeps the element at a local offset of one rank's extra group. */
  ghost function GatheredCell(d: Distribution, rank: nat, e: nat, offset: nat): nat
    requires d.Valid() && rank < Product(d.grid) && offset < LenAt(d, rank)
  {
    Times(e, Product(d.shape)) + GlobalOffset(d, rank, offset)
  }

  /** Every element of the rank's storage is in its global place. */
  ghost predicate BlockGathered<T>(d: Distribution, extraCount: nat, rank: nat, physical: seq<T>, global: seq<T>)
    requires d.Valid() && rank < Product(d.grid)
  {
    forall k :: 0 <= k < Times(LenAt(d, rank), extraCount) ==> ElementGathered(d, rank, k, physical, global)
  }

  /** Element `k` of the storage: extra group `k / len`, local offset `k % len`. */
  ghost predicate ElementGathered<T>(d: Distribution, rank: nat, k: nat, physical: seq<T>, global: seq<T>)
    requires d.Valid() && rank < Product(d.grid)
  {
    && 0 < LenAt(d, rank) && k < |physical|
    && var cell := GatheredCell(d, rank, k / LenAt(d, rank), k % LenAt(d, rank));
       cell < |global| && global[cell] == physical[k]
  }

  /** The division loop without checks. */
  method MemoryCoordinates(shape: seq<nat>, offset: nat) returns (memory: seq<nat>)
    requires offset < Product(shape)
    ensures Positive(shape) && memory == Digits(shape, offset)
  {
    PositiveProduct(shape);
    assert shape[..|shape|] == shape;
    hide Product;
    hide Digits;
    var remainder: nat := offset;
    memory := [];
    for axis := |shape| downto 0
      invariant |memory| == |shape| - axis
      invariant Digits(shape, offset) == Digits(shape[..axis], remainder) + memory
    {
      DecodeStep(shape, axis, remainder);
      memory := [remainder % shape[axis]] + memory;
      remainder := remainder / shape[axis];
    }
    NoDigits(shape, remainder);
  }

  lemma NoDigits(shape: seq<nat>, x: nat)
    ensures Digits(shape[..0], x) == []
  {
  }

  /** The unchecked row-major offset of global coordinates. */
  method LinearOffset(shape: seq<nat>, index: seq<nat>) returns (offset: usize)
    requires InBounds(shape, index) && Product(shape) <= USIZE_MAX
    ensures offset == Linear(shape, index)
  {
    InBoundsPositive(shape, index);
    assert shape[..|shape|] == shape && index[..|index|] == index;
    offset := 0;
    hide Linear;
    hide Product;
    NoLinear(shape, index);
    for axis := 0 to |shape|
      invariant offset == Linear(shape[..axis], index[..axis])
    {
      LinearStep(shape, index, axis);
      var scaled := Multiply(offset, shape[axis]);
      offset := scaled + index[axis];
    }
  }

  lemma NoLinear(shape: seq<nat>, index: seq<nat>)
    requires |index| == |shape|
    ensures Linear(shape[..0], index[..0]) == 0
  {
  }

  lemma LinearStep(shape: seq<nat>, index: seq<nat>, axis: nat)
    requires InBounds(shape, index) && Positive(shape) && axis < |shape|
    ensures Times(Linear(shape[..axis], index[..axis]), shape[axis]) + index[axis] ==
      Linear(shape[..axis + 1], index[..axis + 1]) < Product(shape)
  {
    assert shape[..axis + 1][..axis] == shape[..axis] && index[..axis + 1][..axis] == index[..axis];
    LinearBound(shape[..axis + 1], index[..axis + 1]);
    TailProductBound(shape, axis + 1);
  }

  /** Local offset to global row-major offset: decode, undo the permutation, add the range starts. */
  method GlobalOffsetOf(d: Distribution, rank: nat, block: Block, offset: usize) returns (k: usize)
    requires d.Valid() && rank < Product(d.grid) && offset < LenAt(d, rank)
    requires block.ranges == RankLayout(d, rank).ranges && block.shapeMemory == RankLayout(d, rank).ShapeMemory()
    ensures k == GlobalOffset(d, rank, offset)
  {
    ghost var l := RankLayout(d, rank);
    ElementInShape(d, rank, offset);
    hide Product;
    hide Linear;
    hide Digits;
    var memory := MemoryCoordinates(block.shapeMemory, offset);
    var global := GlobalCoordinates(d.permutation, block.ranges, memory);
    assert global == l.IndexOf(offset);
    k := LinearOffset(d.shape, global);
  }

  /** Undoes the permutation and adds the range starts. */
  method GlobalCoordinates(permutation: AxisPermutation, ranges: Box, memory: seq<nat>) returns (r: seq<nat>)
    requires permutation.Valid(|ranges|) && |memory| == |ranges|
    ensures r == Shifted(ranges, permutation.Unpermute(memory))
  {
    var global := new nat[|ranges|](_ => 0);
    for p := 0 to |memory|
      invariant forall q :: 0 <= q < p ==> global[permutation.axes[q]] == ranges[permutation.axes[q]].start + memory[q]
    {
      var axis := permutation.axes[p];
      global[axis] := ranges[axis].start + memory[p];
    }
    forall a | 0 <= a < |ranges| ensures global[a] == ranges[a].start + memory[permutation.logicalToMemory[a]] {
      assert permutation.axes[permutation.logicalToMemory[a]] == a;
    }
    return global[..];
  }

  /** Copies one rank's storage into its global places, and touches nothing else. */
  method UnpackBlock<T>(d: Distribution, extraCount: usize, rank: nat, block: Block, physical: seq<T>,
                        destination: array<T>)
    requires d.Valid() && rank < Product(d.grid) && block == BlockAt(d, extraCount, rank)
    requires |physical| == block.count <= USIZE_MAX
      && Times(Product(d.shape), extraCount) == destination.Length <= USIZE_MAX
    modifies destination
    ensures BlockGathered(d, extraCount, rank, physical, destination[..])
    ensures forall c :: 0 <= c < destination.Length && !OfBlock(d, extraCount, rank, c) ==>
      destination[c] == old(destination[c])
  {
    if block.count == 0 {
      return;
    }
    hide GatheredCell;
    hide Distribution.Valid;
    hide LenAt;
    for k := 0 to |physical|
      invariant forall j :: 0 <= j < k ==> ElementGathered(d, rank, j, physical, destination[..])
      invariant forall c :: 0 <= c < destination.Length && !OfBlock(d, extraCount, rank, c) ==>
        destination[c] == old(destination[c])
    {
      UnpackElement(d, extraCount, rank, block, physical, destination, k);
    }
  }

  /** A cell of the global array that belongs to one rank's block. */
  ghost predicate OfBlock(d: Distribution, extraCount: nat, rank: nat, cell: nat)
    requires d.Valid() && rank < Product(d.grid)
  {
    exists e, o :: 0 <= e < extraCount && 0 <= o < LenAt(d, rank) && GatheredCell(d, rank, e, o) == cell
  }

  /** Different elements, groups or ranks have different cells. */
  lemma CellsApart(d: Distribution, r: nat, e: nat, o: nat, s: nat, f: nat, p: nat)
    requires d.Valid() && r < Product(d.grid) && s < Product(d.grid) && o < LenAt(d, r) && p < LenAt(d, s)
    requires GatheredCell(d, r, e, o) == GatheredCell(d, s, f, p)
    ensures r == s && e == f && o == p
  {
    var n := Product(d.shape);
    if e < f {
      TimesMono(e + 1, f, n, n);
      assert false;
    } else if f < e {
      TimesMono(f + 1, e, n, n);
      assert false;
    } else {
      GlobalOffsetInjective(d, r, o, s, p);
    }
  }

  lemma CellFits(d: Distribution, extraCount: nat, rank: nat, k: nat)
    requires d.Valid() && rank < Product(d.grid) && k < Times(LenAt(d, rank), extraCount)
    ensures 0 < LenAt(d, rank) && 0 <= k / LenAt(d, rank) < extraCount && 0 <= k % LenAt(d, rank) < LenAt(d, rank)
    ensures GatheredCell(d, rank, k / LenAt(d, rank), k % LenAt(d, rank)) < Times(Product(d.shape), extraCount)
    ensures Times(k / LenAt(d, rank), Product(d.shape)) <= Times(Product(d.shape), extraCount)
    ensures Times(k / LenAt(d, rank), LenAt(d, rank)) + k % LenAt(d, rank) == k
  {
    var len, n := LenAt(d, rank), Product(d.shape);
    TimesComm(len, extraCount);
    TimesSplit(k, extraCount, len);
    TimesMono(k / len + 1, extraCount, n, n);
    TimesComm(n, extraCount);
  }

  /** One iteration: earlier elements stay where they are. */
  method UnpackElement<T>(d: Distribution, ghost extraCount: nat, rank: nat, block: Block, physical: seq<T>,
                          destination: array<T>, k: usize)
    requires d.Valid() && rank < Product(d.grid) && block == BlockAt(d, extraCount, rank)
    requires |physical| == block.count && Times(Product(d.shape), extraCount) == destination.Length <= USIZE_MAX
      && k < block.count
    requires forall j :: 0 <= j < k ==> ElementGathered(d, rank, j, physical, destination[..])
    modifies destination
    ensures forall j :: 0 <= j <= k ==> ElementGathered(d, rank, j, physical, destination[..])
    ensures forall c :: 0 <= c < destination.Length && !OfBlock(d, extraCount, rank, c) ==>
      destination[c] == old(destination[c])
  {
    RankLayoutValid(d, rank);
    CellFits(d, extraCount, rank, k);
    ghost var was := destination[..];
    var e, o := k / block.spatialCount, k % block.spatialCount;
    var spatial := GlobalOffsetOf(d, rank, block, o);
    var group := Multiply(e, Product(d.shape));
    var cell := group + spatial;
    destination[cell] := physical[k];
    assert OfBlock(d, extraCount, rank, cell) by {
      assert GatheredCell(d, rank, e, o) == cell;
    }
    forall j | 0 <= j < k ensures ElementGathered(d, rank, j, physical, destination[..]) {
      ElementStays(d, extraCount, rank, rank, j, e, o, physical, was, destination[..]);
    }
  }

  /** Writing one cell leaves every other element in place. */
  lemma ElementStays<T>(d: Distribution, extraCount: nat, rank: nat, written: nat, j: nat, e: nat, o: nat,
                        physical: seq<T>, was: seq<T>, now: seq<T>)
    requires d.Valid() && rank < Product(d.grid) && written < Product(d.grid) && o < LenAt(d, written)
    requires ElementGathered(d, rank, j, physical, was) && |now| == |was|
    requires rank != written || j != Times(e, LenAt(d, rank)) + o
    requires forall c :: 0 <= c < |was| && c != GatheredCell(d, written, e, o) ==> now[c] == was[c]
    ensures ElementGathered(d, rank, j, physical, now)
  {
    var len := LenAt(d, rank);
    TimesDivides(j, len);
    hide GatheredCell;
    hide LenAt;
    hide Distribution.Valid;
    if GatheredCell(d, rank, j / len, j % len) == GatheredCell(d, written, e, o) {
      CellsApart(d, rank, j / len, j % len, written, e, o);
    }
  }

  lemma TimesDivides(j: nat, len: nat)
    requires 0 < len
    ensures 0 <= j / len && 0 <= j % len < len && Times(j / len, len) + j % len == j
  {
    TimesIs(j / len, len);
  }

  // ----- The root's loop over ranks

  /** The storage every rank contributes. */
  ghost predicate Contributions<T>(d: Distribution, extraCount: nat, world: seq<seq<T>>) {
    && d.Valid() && |world| == Product(d.grid)
    && forall r :: 0 <= r < |world| ==> |world[r]| == Times(LenAt(d, r), extraCount)
  }

  ghost predicate FirstGathered<T>(d: Distribution, extraCount: nat, world: seq<seq<T>>, n: nat, global: seq<T>)
    requires Contributions(d, extraCount, world) && n <= |world|
  {
    forall r :: 0 <= r < n ==> BlockGathered(d, extraCount, r, world[r], global)
  }

  /** The root unpacks its own storage and every received block, in rank order. */
  method GatherBlocks<T>(d: Distribution, extraCount: usize, blocks: seq<Block>, world: seq<seq<T>>, global: array<T>)
    requires Contributions(d, extraCount, world) && |blocks| == |world|
    requires forall r :: 0 <= r < |blocks| ==> blocks[r] == BlockAt(d, extraCount, r) && blocks[r].count <= USIZE_MAX
    requires Times(Product(d.shape), extraCount) == global.Length <= USIZE_MAX
    modifies global
    ensures FirstGathered(d, extraCount, world, |world|, global[..])
  {
    hide BlockGathered;
    hide OfBlock;
    for rank := 0 to |blocks|
      invariant FirstGathered(d, extraCount, world, rank, global[..])
    {
      ghost var was := global[..];
      UnpackBlock(d, extraCount, rank, blocks[rank], world[rank], global);
      forall r | 0 <= r < rank ensures BlockGathered(d, extraCount, r, world[r], global[..]) {
        BlockStays(d, extraCount, r, rank, world[r], was, global[..]);
      }
    }
  }

  lemma BlockStays<T>(d: Distribution, extraCount: nat, r: nat, written: nat, physical: seq<T>, was: seq<T>,
                      now: seq<T>)
    requires d.Valid() && r < Product(d.grid) && written < Product(d.grid) && r != written && |was| == |now|
    requires BlockGathered(d, extraCount, r, physical, was)
    requires forall c :: 0 <= c < |was| && !OfBlock(d, extraCount, written, c) ==> now[c] == was[c]
    ensures BlockGathered(d, extraCount, r, physical, now)
  {
    hide LenAt;
    hide Distribution.Valid;
    hide ElementGathered;
    hide OfBlock;
    forall k | 0 <= k < Times(LenAt(d, r), extraCount) ensures ElementGathered(d, r, k, physical, now) {
      ElementOfOther(d, extraCount, r, written, k, physical, was, now);
    }
  }

  lemma ElementOfOther<T>(d: Distribution, extraCount: nat, r: nat, written: nat, k: nat, physical: seq<T>, was: seq<T>,
                          now: seq<T>)
    requires d.Valid() && r < Product(d.grid) && written < Product(d.grid) && r != written && |was| == |now|
    requires ElementGathered(d, r, k, physical, was)
    requires forall c :: 0 <= c < |was| && !OfBlock(d, extraCount, written, c) ==> now[c] == was[c]
    ensures ElementGathered(d, r, k, physical, now)
  {
    TimesDivides(k, LenAt(d, r));
    var cell := GatheredCell(d, r, k / LenAt(d, r), k % LenAt(d, r));
    if OfBlock(d, extraCount, written, cell) {
      var e, o :| 0 <= e < extraCount && 0 <= o < LenAt(d, written) && GatheredCell(d, written, e, o) == cell;
      CellsApart(d, r, k / LenAt(d, r), k % LenAt(d, r), written, e, o);
    }
  }

  /** What the root holds is the global array: extra group `e`, global index `g`, row-major. */
  lemma GatherIsGlobal<T>(d: Distribution, extraCount: nat, world: seq<seq<T>>, global: seq<T>, e: nat, g: seq<nat>)
    requires Contributions(d, extraCount, world) && FirstGathered(d, extraCount, world, |world|, global)
    requires WorldOf(d, extraCount, world) && e < extraCount && InBounds(d.shape, g)
    ensures Times(e, Product(d.shape)) + Linear(d.shape, g) < |global|
    ensures global[Times(e, Product(d.shape)) + Linear(d.shape, g)] == GlobalAt(d, extraCount, world, e, g)
  {
    OwnerInBounds(d, g);
    var c := d.OwnerOf(g);
    BoxesTile(d, g, c);
    GlobalAtRank(d, extraCount, world, e, g, c);
    GatheredAtRank(d, extraCount, world, global, e, g, c);
  }

  lemma GatheredAtRank<T>(d: Distribution, extraCount: nat, world: seq<seq<T>>, global: seq<T>, e: nat, g: seq<nat>,
                          c: seq<nat>)
    requires Contributions(d, extraCount, world) && FirstGathered(d, extraCount, world, |world|, global)
    requires e < extraCount && InBounds(d.shape, g) && InBounds(d.grid, c) && InBox(d.RangesAt(c), g)
    ensures Linear(d.grid, c) < |world| && d.LayoutAt(c).Valid()
    ensures var k := StorageCell(d.LayoutAt(c), extraCount, e, g);
      && k < |world[Linear(d.grid, c)]| && Times(e, Product(d.shape)) + Linear(d.shape, g) < |global|
      && global[Times(e, Product(d.shape)) + Linear(d.shape, g)] == world[Linear(d.grid, c)][k]
  {
    LinearBound(d.grid, c);
    DigitsOfLinear(d.grid, c);
    var r := Linear(d.grid, c);
    assert RankLayout(d, r) == d.LayoutAt(c);
    RankLayoutValid(d, r);
    assert BlockGathered(d, extraCount, r, world[r], global);
    hide RankLayout;
    hide InBounds;
    hide FirstGathered;
    hide BlockGathered;
    StoredElement(d, extraCount, r, world[r], global, e, g);
  }

  /** The stored element of a global index, as the element of its block. */
  lemma StoredElement<T>(d: Distribution, extraCount: nat, r: nat, physical: seq<T>, global: seq<T>, e: nat,
                         g: seq<nat>)
    requires d.Valid() && r < Product(d.grid) && BlockGathered(d, extraCount, r, physical, global)
    requires e < extraCount && RankLayout(d, r).Valid() && InBox(RankLayout(d, r).ranges, g)
    ensures var k := StorageCell(RankLayout(d, r), extraCount, e, g);
      && k < |physical| && Times(e, Product(d.shape)) + Linear(d.shape, g) < |global|
      && global[Times(e, Product(d.shape)) + Linear(d.shape, g)] == physical[k]
  {
    var l := RankLayout(d, r);
    OffsetRoundTrip(l, g);
    var k := StorageCell(l, extraCount, e, g);
    TimesComm(extraCount, l.Len());
    TimesDivMod(e, l.Len(), l.Offset(g));
    assert ElementGathered(d, r, k, physical, global);
  }
}
