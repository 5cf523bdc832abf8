/** Runs of calls on the arrays of all ranks. */
module ArrayWorlds {
  // Overwrites and local reorderings are calls of single ranks, in any mix and with any outcome. A
  // distributed transpose that is accepted is a call of all ranks at once.

  import opened MachineInts
  import opened Nonlinear
  import opened MixedRadix
  import opened Pencil
  import opened Segments
  import opened Plans
  import opened LocalTransposes
  import opened Registries
  import opened ArrayRuns
  import opened TransposeWorlds
  import Preflight

  /** The layouts that every rank registers, in one order. */
  datatype Shared = Shared(topology: nat, layouts: seq<Distribution>, extraCount: nat) {
    ghost predicate Valid() {
      && layouts != []
      && forall i :: 0 <= i < |layouts| ==>
           layouts[i].Valid() && layouts[i].grid == layouts[0].grid && layouts[i].shape == layouts[0].shape
    }

    function Grid(): seq<nat>
      requires layouts != []
    {
      layouts[0].grid
    }

    function Size(): nat
      requires layouts != []
    {
      Product(Grid())
    }

    ghost predicate Rank(c: seq<nat>)
      requires layouts != []
    {
      InBounds(Grid(), c)
    }

    /** The registry on the rank at coordinates `c`. */
    ghost function PencilsAt(c: seq<nat>): (pencils: seq<Registered>)
      requires Valid() && Rank(c)
      ensures AllValid(pencils) && |pencils| == |layouts|
      ensures forall i :: 0 <= i < |layouts| ==> pencils[i] == Registered(Topology(topology, Grid(), c), layouts[i])
    {
      seq(|layouts|, i requires 0 <= i < |layouts| => Registered(Topology(topology, Grid(), c), layouts[i]))
    }

    /** The plan transposes arrays of this shape on this grid. */
    ghost predicate HasPlan(p: Plan)
      requires layouts != []
    {
      p.Valid() && p.source.grid == Grid() && p.source.shape == layouts[0].shape
    }
  }

  /** The entry of one rank. */
  ghost function Of<A>(w: Shared, world: seq<A>, c: seq<nat>): A
    requires w.Valid() && w.Rank(c) && |world| == w.Size()
  {
    LinearBound(w.Grid(), c);
    world[RankOf(w.Grid(), c)]
  }

  ghost function Storages<T>(world: seq<Contents<T>>): (storages: seq<seq<T>>)
    ensures |storages| == |world| && forall r :: 0 <= r < |world| ==> storages[r] == world[r].storage
  {
    seq(|world|, r requires 0 <= r < |world| => world[r].storage)
  }

  predicate Exchanges<T>(op: ArrayOp<T>) { op.DistributedInPlace? && op.accepted }

  predicate IsCallOf<T>(op: ArrayOp<T>, p: Plan, c: seq<nat>) { Exchanges(op) && op.plan == p && op.coords == c }

  ghost predicate AllExchange<T>(ops: seq<ArrayOp<T>>) {
    forall r :: 0 <= r < |ops| ==> ops[r].DistributedInPlace? && ops[r].accepted
  }

  ghost predicate AllCalled<T>(ops: seq<ArrayOp<T>>) {
    forall r :: 0 <= r < |ops| ==> ops[r].DistributedInPlace? && ops[r].accepted && ops[r].callback.Called?
  }

  ghost function Received<T>(ops: seq<ArrayOp<T>>): (received: seq<seq<T>>)
    requires AllExchange(ops)
    ensures |received| == |ops| && forall r :: 0 <= r < |ops| ==> received[r] == ops[r].received
  {
    seq(|ops|, r requires 0 <= r < |ops| => ops[r].received)
  }

  // ----- Steps of all ranks

  /** The words of the reduction in which the ranks agree how their callbacks ended. */
  ghost function StatusRows<T>(ops: seq<ArrayOp<T>>): (rows: seq<seq<nat>>)
    requires AllCalled(ops)
    ensures |rows| == |ops| && forall r :: 0 <= r < |ops| ==> rows[r] == [StatusOf(ops[r].callback.outcome)]
  {
    seq(|ops|, r requires 0 <= r < |ops| => [StatusOf(ops[r].callback.outcome)])
  }

  /** No rank has a callback, or every rank has one and receives the greatest status. */
  ghost predicate OneStatus<T>(ops: seq<ArrayOp<T>>)
    requires AllExchange(ops)
  {
    || (forall r :: 0 <= r < |ops| ==> ops[r].callback.NoCallback?)
    || (&& ops != [] && AllCalled(ops)
        && forall r :: 0 <= r < |ops| ==> ops[r].callback.status == Preflight.Greatest(StatusRows(ops), 0))
  }

  /** One accepted transpose of all ranks: the same plan, packed, delivered, and one status. */
  ghost predicate Together<T(!new)>(w: Shared, p: Plan, before: seq<Contents<T>>, ops: seq<ArrayOp<T>>)
    requires w.Valid() && |before| == |ops| == w.Size()
  {
    && w.HasPlan(p) && AllExchange(ops) && OneStatus(ops)
    && (forall c :: w.Rank(c) ==> IsCallOf(Of(w, ops, c), p, c))
    && WorldOf(p.source, w.extraCount, Storages(before)) && WorldOf(p.destination, w.extraCount, Received(ops))
    && exists sent :: Carried(w, p, Storages(before), sent, Received(ops))
  }

  ghost predicate Carried<T>(w: Shared, p: Plan, source: seq<seq<T>>, sent: seq<seq<T>>, received: seq<seq<T>>)
    requires p.Valid() && WorldOf(p.source, w.extraCount, source) && WorldOf(p.destination, w.extraCount, received)
  {
    && WorldOf(p.source, w.extraCount, sent) && Packed(p, w.extraCount, false, source, sent)
    && Delivered(p, w.extraCount, false, sent, received)
  }

  /** One call on every rank. */
  ghost predicate WorldStep<T(!new)>(w: Shared, before: seq<Contents<T>>, ops: seq<ArrayOp<T>>, after: seq<Contents<T>>)
    requires w.Valid()
  {
    && |before| == |ops| == |after| == w.Size()
    && (forall c :: w.Rank(c) ==> RankStep(w, before, ops, after, c))
    && forall r :: 0 <= r < |ops| && Exchanges(ops[r]) ==> Together(w, ops[r].plan, before, ops)
  }

  ghost predicate RankStep<T>(w: Shared, before: seq<Contents<T>>, ops: seq<ArrayOp<T>>, after: seq<Contents<T>>,
                              c: seq<nat>)
    requires w.Valid() && w.Rank(c) && |before| == |ops| == |after| == w.Size()
  {
    Step(w.PencilsAt(c), w.extraCount, Of(w, before, c), Of(w, ops, c), Of(w, after, c))
  }

  ghost predicate SizedWorld<T>(w: Shared, world: seq<Contents<T>>)
    requires w.Valid()
  {
    |world| == w.Size() && forall c :: w.Rank(c) ==> Sized(w.PencilsAt(c), w.extraCount, Of(w, world, c))
  }

  /** `run[k + 1]` follows from `run[k]` by one call on every rank. */
  ghost predicate IsWorldRun<T(!new)>(w: Shared, run: seq<seq<Contents<T>>>, ops: seq<seq<ArrayOp<T>>>)
    requires w.Valid()
  {
    |run| == |ops| + 1 && SizedWorld(w, run[0]) && forall k :: 0 <= k < |ops| ==>
      WorldStep(w, run[k], ops[k], run[k + 1])
  }

  lemma {:induction false} WorldStaysSized<T(!new)>(w: Shared, run: seq<seq<Contents<T>>>, ops: seq<seq<ArrayOp<T>>>,
                                                    k: nat)
    requires w.Valid() && IsWorldRun(w, run, ops) && k < |run|
    ensures SizedWorld(w, run[k])
  {
    if k != 0 {
      WorldStaysSized(w, run, ops, k - 1);
      assert WorldStep(w, run[k - 1], ops[k - 1], run[k - 1 + 1]);
      StepKeepsSized(w, run[k - 1], ops[k - 1], run[k]);
    }
  }

  lemma StepKeepsSized<T(!new)>(w: Shared, before: seq<Contents<T>>, ops: seq<ArrayOp<T>>, after: seq<Contents<T>>)
    requires w.Valid() && SizedWorld(w, before) && WorldStep(w, before, ops, after)
    ensures SizedWorld(w, after)
  {
    hide Together;
    hide Step;
    forall c | w.Rank(c) ensures Sized(w.PencilsAt(c), w.extraCount, Of(w, after, c)) {
      assert RankStep(w, before, ops, after, c);
      var run, calls := [Of(w, before, c), Of(w, after, c)], [Of(w, ops, c)];
      RunStaysSized(w.PencilsAt(c), w.extraCount, run, calls, 1);
    }
  }

  // ----- Where a value comes from

  /** The call puts new values in place: a completed overwrite, or a transpose whose callback every rank
      completed. */
  predicate Writes<T>(op: ArrayOp<T>) {
    Commits(op) && (op.Overwrite? || (op.DistributedInPlace? && op.callback.Called?))
  }

  /** The call takes values from other ranks and changes none. */
  ghost predicate Moves<T>(w: Shared, op: ArrayOp<T>)
    requires w.Valid()
  {
    Exchanges(op) && op.callback.NoCallback? && w.HasPlan(op.plan)
  }

  /** The array a rank started with, or the call that wrote a value, and the rank. */
  datatype Origin = AtStart(rank: seq<nat>) | ByCall(number: nat, rank: seq<nat>)

  /** Where the value at global index `g` on rank `c` comes from, before call `k`: back through every move
      to the last call that wrote it. */
  ghost function OriginOf<T>(w: Shared, ops: seq<seq<ArrayOp<T>>>, k: nat, c: seq<nat>, g: seq<nat>): (o: Origin)
    requires w.Valid() && w.Rank(c) && k <= |ops| && InBounds(w.layouts[0].shape, g)
    requires forall j :: 0 <= j < k ==> |ops[j]| == w.Size()
    ensures w.Rank(o.rank) && (o.ByCall? ==> o.number < k)
  {
    if k == 0 then AtStart(c)
    else
      var op := Of(w, ops[k - 1], c);
      if Writes(op) then ByCall(k - 1, c)
      else if Moves(w, op) then
        OwnerInBounds(op.plan.source, g);
        OriginOf(w, ops, k - 1, op.plan.source.OwnerOf(g), g)
      else OriginOf(w, ops, k - 1, c, g)
  }

  /** Rank `c` reads `v` at global index `g` of extra group `e`. */
  ghost predicate Shows<T>(w: Shared, world: seq<Contents<T>>, c: seq<nat>, e: nat, g: seq<nat>, v: T)
    requires w.Valid() && w.Rank(c) && |world| == w.Size() && e < w.extraCount
  {
    RankShows(w, Of(w, world, c), c, e, g, v)
  }

  ghost predicate RankShows<T>(w: Shared, contents: Contents<T>, c: seq<nat>, e: nat, g: seq<nat>, v: T)
    requires w.Valid() && w.Rank(c) && e < w.extraCount
  {
    && contents.state.Valid? && contents.state.index < |w.layouts|
    && WrittenAt(LayoutOf(w.PencilsAt(c), contents.state.index), w.extraCount, contents.storage, e, g, v)
  }

  /** The origin put `v` at `g`. */
  ghost predicate CameFrom<T>(w: Shared, start: seq<Contents<T>>, ops: seq<seq<ArrayOp<T>>>, o: Origin, e: nat,
                              g: seq<nat>, v: T)
    requires w.Valid() && w.Rank(o.rank) && |start| == w.Size() && e < w.extraCount
    requires o.ByCall? ==> o.number < |ops| && |ops[o.number]| == w.Size()
  {
    match o
    case AtStart(c) => Shows(w, start, c, e, g, v)
    case ByCall(m, c) => Wrote(w.PencilsAt(c), w.extraCount, Of(w, ops[m], c), e, g, v)
  }

  ghost predicate SizedOps<T>(w: Shared, ops: seq<seq<ArrayOp<T>>>)
    requires w.Valid()
  {
    forall j :: 0 <= j < |ops| ==> |ops[j]| == w.Size()
  }

  lemma RunIsSized<T(!new)>(w: Shared, run: seq<seq<Contents<T>>>, ops: seq<seq<ArrayOp<T>>>)
    requires w.Valid() && IsWorldRun(w, run, ops)
    ensures SizedOps(w, ops) && forall k :: 0 <= k < |run| ==> |run[k]| == w.Size()
  {
    forall j | 0 <= j < |ops| ensures |ops[j]| == w.Size() {
      assert WorldStep(w, run[j], ops[j], run[j + 1]);
    }
    forall k | 0 <= k < |run| ensures |run[k]| == w.Size() {
      WorldStaysSized(w, run, ops, k);
    }
  }

  /** Over every run, with any mix of overwrites, reorderings and transposes on any rank, completed, refused,
      failed or panicked: what a rank reads at a global index is what its origin put at that index. */
  lemma {:induction false} ValueHasOrigin<T(!new)>(w: Shared, run: seq<seq<Contents<T>>>, ops: seq<seq<ArrayOp<T>>>,
                                                   k: nat, c: seq<nat>, e: nat, g: seq<nat>, v: T)
    requires w.Valid() && w.Rank(c) && IsWorldRun(w, run, ops) && SizedOps(w, ops) && k < |run| && e < w.extraCount
    requires |run[k]| == w.Size() && Shows(w, run[k], c, e, g, v)
    ensures InBounds(w.layouts[0].shape, g) && CameFrom(w, run[0], ops, OriginOf(w, ops, k, c, g), e, g, v)
  {
    hide WorldStep;
    hide Shows;
    hide Wrote;
    hide Writes;
    hide Moves;
    hide Sized;
    hide InBounds;
    ShownInShape(w, run[k], c, e, g, v);
    if k != 0 {
      var before, calls, after := run[k - 1], ops[k - 1], run[k];
      assert WorldStep(w, before, calls, run[k - 1 + 1]);
      WorldStaysSized(w, run, ops, k - 1);
      var op := Of(w, calls, c);
      if Writes(op) {
        WriteShows(w, before, calls, after, c, e, g, v);
      } else if Moves(w, op) {
        MoveFits(w, op, g);
        MoveShows(w, before, calls, after, c, e, g, v);
        ValueHasOrigin(w, run, ops, k - 1, op.plan.source.OwnerOf(g), e, g, v);
      } else {
        KeptShows(w, before, calls, after, c, e, g, v);
        ValueHasOrigin(w, run, ops, k - 1, c, e, g, v);
      }
    }
  }

  lemma MoveFits<T>(w: Shared, op: ArrayOp<T>, g: seq<nat>)
    requires w.Valid() && Moves(w, op) && InBounds(w.layouts[0].shape, g)
    ensures Exchanges(op) && w.HasPlan(op.plan) && w.Rank(op.plan.source.OwnerOf(g))
  {
    OwnerInBounds(op.plan.source, g);
  }

  lemma ShownInShape<T>(w: Shared, world: seq<Contents<T>>, c: seq<nat>, e: nat, g: seq<nat>, v: T)
    requires w.Valid() && w.Rank(c) && |world| == w.Size() && e < w.extraCount && Shows(w, world, c, e, g, v)
    ensures InBounds(w.layouts[0].shape, g)
  {
    BoxInShape(w.layouts[Of(w, world, c).state.index], c, g);
  }

  lemma WriteShows<T(!new)>(w: Shared, before: seq<Contents<T>>, ops: seq<ArrayOp<T>>, after: seq<Contents<T>>,
                            c: seq<nat>, e: nat, g: seq<nat>, v: T)
    requires w.Valid() && w.Rank(c) && WorldStep(w, before, ops, after) && e < w.extraCount
    requires Writes(Of(w, ops, c)) && Shows(w, after, c, e, g, v)
    ensures Wrote(w.PencilsAt(c), w.extraCount, Of(w, ops, c), e, g, v)
  {
    var pencils, op, d := w.PencilsAt(c), Of(w, ops, c), Of(w, after, c);
    assert RankStep(w, before, ops, after, c);
    hide Together;
    hide WrittenAt;
    match op
    case Overwrite(_, written, _) =>
      PrefixHolds(pencils, w.extraCount, d.state.index, d.storage, written, e, g);
    case LocalInPlace(_, _, _) =>
    case DistributedInPlace(_, _, _, _, _, callback) =>
      PrefixHolds(pencils, w.extraCount, d.state.index, d.storage, callback.left, e, g);
  }

  /** A call that writes nothing and takes nothing from other ranks leaves what it reads. */
  lemma KeptShows<T(!new)>(w: Shared, before: seq<Contents<T>>, ops: seq<ArrayOp<T>>, after: seq<Contents<T>>,
                           c: seq<nat>, e: nat, g: seq<nat>, v: T)
    requires w.Valid() && w.Rank(c) && WorldStep(w, before, ops, after) && e < w.extraCount
    requires !Writes(Of(w, ops, c)) && !Moves(w, Of(w, ops, c)) && Shows(w, after, c, e, g, v)
    ensures Shows(w, before, c, e, g, v)
  {
    var pencils, op, b, d := w.PencilsAt(c), Of(w, ops, c), Of(w, before, c), Of(w, after, c);
    assert RankStep(w, before, ops, after, c);
    LinearBound(w.Grid(), c);
    if Exchanges(op) {
      assert Together(w, op.plan, before, ops);
    }
    hide Together;
    Uncommitted(pencils, w.extraCount, b, op, d, g);
    if d != b {
      ReorderingKeepsValues(LayoutOf(pencils, b.state.index), LayoutOf(pencils, d.state.index), w.extraCount, b.storage,
                            d.storage, e, g);
    }
  }

  /** A transpose brings every value from the rank that owned its index. */
  lemma MoveShows<T(!new)>(w: Shared, before: seq<Contents<T>>, ops: seq<ArrayOp<T>>, after: seq<Contents<T>>,
                           c: seq<nat>, e: nat, g: seq<nat>, v: T)
    requires w.Valid() && w.Rank(c) && SizedWorld(w, before) && WorldStep(w, before, ops, after) && e < w.extraCount
    requires Moves(w, Of(w, ops, c)) && Shows(w, after, c, e, g, v) && InBounds(w.layouts[0].shape, g)
    ensures var b := Of(w, ops, c).plan.source.OwnerOf(g); w.Rank(b) && Shows(w, before, b, e, g, v)
  {
    hide Packed;
    hide Delivered;
    hide Unpacked;
    hide WorldOf;
    hide Sized;
    hide RankStep;
    hide WrittenAt;
    hide Shows;
    hide Carried;
    hide OneStatus;
    var p := Of(w, ops, c).plan;
    LinearBound(w.Grid(), c);
    assert Together(w, p, before, ops) && RankStep(w, before, ops, after, c);
    assert IsCallOf(Of(w, ops, c), p, c);
    NoCallbacks(ops, RankOf(w.Grid(), c));
    AllUnpacked(w, p, before, ops, after);
    StorageOf(w, after, c);
    var sent :| Carried(w, p, Storages(before), sent, Received(ops));
    LayoutsMeet(w, p, before, ops, after, c, e, g, v);
    ComesFromOwner(w, p, Storages(before), sent, Received(ops), Storages(after), c, e, g, v);
    var b := p.source.OwnerOf(g);
    assert RankStep(w, before, ops, after, b) && IsCallOf(Of(w, ops, b), p, b);
    StorageOf(w, before, b);
    OwnerShows(w, p, before, ops, after, b, e, g, v);
  }

  lemma StorageOf<T>(w: Shared, world: seq<Contents<T>>, c: seq<nat>)
    requires w.Valid() && w.Rank(c) && |world| == w.Size()
    ensures Of(w, Storages(world), c) == Of(w, world, c).storage
  {
    LinearBound(w.Grid(), c);
  }

  lemma NoCallbacks<T>(ops: seq<ArrayOp<T>>, r: nat)
    requires AllExchange(ops) && OneStatus(ops) && r < |ops| && ops[r].callback.NoCallback?
    ensures forall r :: 0 <= r < |ops| ==> ops[r].callback.NoCallback?
  {
  }

  /** The value in a destination layout is the one its owner had in the source layout. */
  lemma ComesFromOwner<T>(w: Shared, p: Plan, source: seq<seq<T>>, sent: seq<seq<T>>, received: seq<seq<T>>,
                          destination: seq<seq<T>>, c: seq<nat>, e: nat, g: seq<nat>, v: T)
    requires w.Valid() && w.HasPlan(p) && w.Rank(c) && e < w.extraCount && InBounds(w.layouts[0].shape, g)
    requires WorldOf(p.source, w.extraCount, source) && WorldOf(p.destination, w.extraCount, received)
    requires WorldOf(p.destination, w.extraCount, destination) && Carried(w, p, source, sent, received)
    requires Unpacked(p, w.extraCount, false, received, destination) && InBox(p.destination.RangesAt(c), g)
    requires WrittenAt(p.destination.LayoutAt(c), w.extraCount, Of(w, destination, c), e, g, v)
    ensures var b := p.source.OwnerOf(g);
      w.Rank(b) && WrittenAt(p.source.LayoutAt(b), w.extraCount, Of(w, source, b), e, g, v)
  {
    TransposeKeepsGlobalArray(p, w.extraCount, false, source, sent, received, destination);
    hide Packed;
    hide Delivered;
    hide Unpacked;
    var b := p.source.OwnerOf(g);
    OwnerInBounds(p.source, g);
    BoxesTile(p.source, g, b);
    GlobalAtRank(p.source, w.extraCount, source, e, g, b);
    GlobalAtRank(p.destination, w.extraCount, destination, e, g, c);
  }

  /** What a rank reads after an accepted transpose stands in the plan's destination layout. */
  lemma LayoutsMeet<T>(w: Shared, p: Plan, before: seq<Contents<T>>, ops: seq<ArrayOp<T>>, after: seq<Contents<T>>,
                       c: seq<nat>, e: nat, g: seq<nat>, v: T)
    requires w.Valid() && w.Rank(c) && |before| == |ops| == |after| == w.Size() && w.HasPlan(p) && e < w.extraCount
    requires RankStep(w, before, ops, after, c) && IsCallOf(Of(w, ops, c), p, c) && Of(w, ops, c).callback.NoCallback?
    requires Shows(w, after, c, e, g, v)
    ensures WrittenAt(p.destination.LayoutAt(c), w.extraCount, Of(w, after, c).storage, e, g, v)
    ensures InBox(p.destination.RangesAt(c), g)
  {
    hide Held;
    hide TailKept;
  }

  /** Before it, the owner in the plan's source layout reads what its storage holds there. */
  lemma OwnerShows<T>(w: Shared, p: Plan, before: seq<Contents<T>>, ops: seq<ArrayOp<T>>, after: seq<Contents<T>>,
                      b: seq<nat>, e: nat, g: seq<nat>, v: T)
    requires w.Valid() && w.Rank(b) && |before| == |ops| == |after| == w.Size() && w.HasPlan(p) && e < w.extraCount
    requires RankStep(w, before, ops, after, b) && IsCallOf(Of(w, ops, b), p, b)
    requires WrittenAt(p.source.LayoutAt(b), w.extraCount, Of(w, before, b).storage, e, g, v)
    ensures Shows(w, before, b, e, g, v)
  {
    hide Held;
    hide TailKept;
  }

  lemma AllUnpacked<T(!new)>(w: Shared, p: Plan, before: seq<Contents<T>>, ops: seq<ArrayOp<T>>,
                             after: seq<Contents<T>>)
    requires w.Valid() && SizedWorld(w, before) && WorldStep(w, before, ops, after) && Together(w, p, before, ops)
    requires forall r :: 0 <= r < |ops| ==> ops[r].callback.NoCallback?
    ensures WorldOf(p.destination, w.extraCount, Storages(after))
      && Unpacked(p, w.extraCount, false, Received(ops), Storages(after))
  {
    StepKeepsSized(w, before, ops, after);
    hide RankStep;
    hide Sized;
    hide RankHolds;
    hide RankUnpacked;
    forall c | w.Rank(c)
      ensures RankOf(w.Grid(), c) < |after|
      ensures RankHolds(p.destination, w.extraCount, c, Storages(after)[RankOf(w.Grid(), c)])
      ensures RankUnpacked(p, w.extraCount, false, c, Received(ops)[RankOf(w.Grid(), c)],
                           Storages(after)[RankOf(w.Grid(), c)])
    {
      LinearBound(w.Grid(), c);
      assert RankStep(w, before, ops, after, c) && IsCallOf(Of(w, ops, c), p, c);
      RankUnpacks(w, p, before, ops, after, c);
    }
  }

  lemma RankUnpacks<T>(w: Shared, p: Plan, before: seq<Contents<T>>, ops: seq<ArrayOp<T>>, after: seq<Contents<T>>,
                       c: seq<nat>)
    requires w.Valid() && w.Rank(c) && |before| == |ops| == |after| == w.Size() && w.HasPlan(p)
    requires RankStep(w, before, ops, after, c) && Sized(w.PencilsAt(c), w.extraCount, Of(w, after, c))
    requires IsCallOf(Of(w, ops, c), p, c) && Of(w, ops, c).callback.NoCallback?
    ensures RankHolds(p.destination, w.extraCount, c, Of(w, after, c).storage)
    ensures RankUnpacked(p, w.extraCount, false, c, Of(w, ops, c).received, Of(w, after, c).storage)
  {
    hide Held;
    LayoutOfIsValid(w.PencilsAt(c), w.extraCount, Of(w, ops, c).destination);
  }

  // ----- The global array

  /** Every rank has the same layout valid. */
  ghost predicate AllValidAt<T>(w: Shared, world: seq<Contents<T>>, index: nat)
    requires w.Valid()
  {
    && index < |w.layouts| && |world| == w.Size()
    && forall c :: w.Rank(c) ==> Of(w, world, c).state == LayoutState.Valid(index)
  }

  /** No rank completes a write in the calls from `m` to `k`. */
  ghost predicate NoWrites<T>(ops: seq<seq<ArrayOp<T>>>, m: nat, k: nat)
    requires m <= k <= |ops|
  {
    forall j, r :: m <= j < k && 0 <= r < |ops[j]| ==> !Writes(ops[j][r])
  }

  lemma {:induction false} StartOrigin<T>(w: Shared, ops: seq<seq<ArrayOp<T>>>, k: nat, c: seq<nat>, g: seq<nat>)
    requires w.Valid() && w.Rank(c) && SizedOps(w, ops) && k <= |ops| && InBounds(w.layouts[0].shape, g)
      && NoWrites(ops, 0, k)
    ensures OriginOf(w, ops, k, c, g).AtStart?
  {
    hide Writes;
    hide Moves;
    hide InBounds;
    if k != 0 {
      var op := Of(w, ops[k - 1], c);
      NotWritten(w, ops, k - 1, c);
      if Moves(w, op) {
        MoveFits(w, op, g);
        StartOrigin(w, ops, k - 1, op.plan.source.OwnerOf(g), g);
      } else {
        StartOrigin(w, ops, k - 1, c, g);
      }
    }
  }

  lemma NotWritten<T>(w: Shared, ops: seq<seq<ArrayOp<T>>>, j: nat, c: seq<nat>)
    requires w.Valid() && w.Rank(c) && SizedOps(w, ops) && j < |ops| && NoWrites(ops, 0, j + 1)
    ensures !Writes(Of(w, ops[j], c))
  {
    LinearBound(w.Grid(), c);
  }

  /** As long as no rank completes a write, all layouts that are valid on every rank hold one global array,
      whatever reorderings and transposes of whatever outcome lie between. */
  lemma GlobalArrayKept<T(!new)>(w: Shared, run: seq<seq<Contents<T>>>, ops: seq<seq<ArrayOp<T>>>, m: nat, k: nat,
                                 i: nat, j: nat)
    requires w.Valid() && IsWorldRun(w, run, ops) && m <= k < |run| && NoWrites(ops, m, k)
    requires AllValidAt(w, run[m], i) && AllValidAt(w, run[k], j)
    ensures SameGlobalArray(w.layouts[i], Storages(run[m]), w.layouts[j], Storages(run[k]), w.extraCount)
  {
    hide IsWorldRun;
    hide GlobalAt;
    hide WorldOf;
    hide AllValidAt;
    hide NoWrites;
    WorldStaysSized(w, run, ops, m);
    WorldStaysSized(w, run, ops, k);
    AllSized(w, run[m], i);
    AllSized(w, run[k], j);
    ValidWorld(w, run[m], i);
    ValidWorld(w, run[k], j);
    PartOfRun(w, run, ops, m, k);
    forall e, g | 0 <= e < w.extraCount && InBounds(w.layouts[j].shape, g)
      ensures GlobalAt(w.layouts[j], w.extraCount, Storages(run[k]), e, g) ==
        GlobalAt(w.layouts[i], w.extraCount, Storages(run[m]), e, g)
    {
      ValueKept(w, run[m..k + 1], ops[m..k], i, j, e, g);
    }
  }

  lemma AllSized<T>(w: Shared, world: seq<Contents<T>>, index: nat)
    requires w.Valid() && AllValidAt(w, world, index)
    ensures index < |w.layouts| && |world| == w.Size()
  {
  }

  lemma ValueKept<T(!new)>(w: Shared, run: seq<seq<Contents<T>>>, ops: seq<seq<ArrayOp<T>>>, i: nat, j: nat, e: nat,
                           g: seq<nat>)
    requires w.Valid() && IsWorldRun(w, run, ops) && SizedOps(w, ops) && NoWrites(ops, 0, |ops|)
    requires i < |w.layouts| && j < |w.layouts| && e < w.extraCount && InBounds(w.layouts[j].shape, g)
    requires |run| == |ops| + 1 && AllValidAt(w, run[0], i) && AllValidAt(w, run[|ops|], j)
    requires WorldOf(w.layouts[i], w.extraCount, Storages(run[0]))
      && WorldOf(w.layouts[j], w.extraCount, Storages(run[|ops|]))
    ensures GlobalAt(w.layouts[j], w.extraCount, Storages(run[|ops|]), e, g) ==
      GlobalAt(w.layouts[i], w.extraCount, Storages(run[0]), e, g)
  {
    AllSized(w, run[0], i);
    AllSized(w, run[|ops|], j);
    hide IsWorldRun;
    hide GlobalAt;
    hide WorldOf;
    hide AllValidAt;
    hide NoWrites;
    hide Shows;
    var v, c := GlobalAt(w.layouts[j], w.extraCount, Storages(run[|ops|]), e, g), w.layouts[j].OwnerOf(g);
    ValueShown(w, run[|ops|], j, e, g, c, v);
    ValueHasOrigin(w, run, ops, |ops|, c, e, g, v);
    StartOrigin(w, ops, |ops|, c, g);
    ShownValue(w, run[0], i, e, g, OriginOf(w, ops, |ops|, c, g).rank, v);
  }

  lemma PartOfRun<T(!new)>(w: Shared, run: seq<seq<Contents<T>>>, ops: seq<seq<ArrayOp<T>>>, m: nat, k: nat)
    requires w.Valid() && IsWorldRun(w, run, ops) && m <= k < |run|
    ensures |run| == |ops| + 1 && IsWorldRun(w, run[m..k + 1], ops[m..k]) && SizedOps(w, ops[m..k])
    ensures NoWrites(ops, m, k) ==> NoWrites(ops[m..k], 0, k - m)
  {
    WorldStaysSized(w, run, ops, m);
    RunIsSized(w, run, ops);
    var later, calls := run[m..k + 1], ops[m..k];
    hide WorldStep;
    hide SizedWorld;
    forall u | 0 <= u < |calls| ensures WorldStep(w, later[u], calls[u], later[u + 1]) {
      assert WorldStep(w, run[m + u], ops[m + u], run[m + u + 1]);
    }
  }

  /** Where every rank has a layout valid, the storages form a world of that layout. */
  lemma ValidWorld<T>(w: Shared, world: seq<Contents<T>>, index: nat)
    requires w.Valid() && SizedWorld(w, world) && index < |w.layouts|
    ensures WorldOf(w.layouts[index], w.extraCount, Storages(world))
  {
    forall c | w.Rank(c)
      ensures RankOf(w.Grid(), c) < |world|
        && RankHolds(w.layouts[index], w.extraCount, c, Storages(world)[RankOf(w.Grid(), c)])
    {
      LinearBound(w.Grid(), c);
      assert Sized(w.PencilsAt(c), w.extraCount, Of(w, world, c));
      LayoutOfIsValid(w.PencilsAt(c), w.extraCount, index);
    }
  }

  lemma ValueShown<T>(w: Shared, world: seq<Contents<T>>, index: nat, e: nat, g: seq<nat>, c: seq<nat>, v: T)
    requires w.Valid() && AllValidAt(w, world, index) && WorldOf(w.layouts[index], w.extraCount, Storages(world))
    requires e < w.extraCount && InBounds(w.layouts[0].shape, g) && c == w.layouts[index].OwnerOf(g)
    requires v == GlobalAt(w.layouts[index], w.extraCount, Storages(world), e, g)
    ensures w.Rank(c) && Shows(w, world, c, e, g, v)
  {
    OwnerHolds(w.layouts[index], w.extraCount, Storages(world), e, g, c);
    StorageOf(w, world, c);
  }

  lemma ShownValue<T>(w: Shared, world: seq<Contents<T>>, index: nat, e: nat, g: seq<nat>, c: seq<nat>, v: T)
    requires w.Valid() && AllValidAt(w, world, index) && WorldOf(w.layouts[index], w.extraCount, Storages(world))
    requires e < w.extraCount && InBounds(w.layouts[0].shape, g) && w.Rank(c) && Shows(w, world, c, e, g, v)
    ensures v == GlobalAt(w.layouts[index], w.extraCount, Storages(world), e, g)
  {
    GlobalAtRank(w.layouts[index], w.extraCount, Storages(world), e, g, c);
    StorageOf(w, world, c);
  }

  /** All ranks complete an overwrite of one layout. */
  ghost predicate OverwrittenTogether<T>(w: Shared, ops: seq<ArrayOp<T>>, target: nat, written: seq<seq<T>>)
    requires w.Valid() && |ops| == |written| == w.Size()
  {
    forall c :: w.Rank(c) ==> Of(w, ops, c) == Overwrite(Some(target), Of(w, written, c), Completed)
  }

  /** After all ranks overwrote a layout, every layout valid on all ranks holds the global array that was
      written, until a rank completes another write. */
  lemma LastOverwriteHeld<T(!new)>(w: Shared, run: seq<seq<Contents<T>>>, ops: seq<seq<ArrayOp<T>>>, m: nat, k: nat,
                                   target: nat, written: seq<seq<T>>, j: nat)
    requires w.Valid() && IsWorldRun(w, run, ops) && m < k < |run| && NoWrites(ops, m + 1, k)
    requires |ops[m]| == |written| == w.Size() && target < |w.layouts|
      && OverwrittenTogether(w, ops[m], target, written)
    requires AllValidAt(w, run[k], j)
    ensures SameGlobalArray(w.layouts[target], written, w.layouts[j], Storages(run[k]), w.extraCount)
  {
    hide Together;
    hide RankStep;
    hide SizedWorld;
    hide AllValidAt;
    hide SameGlobalArray;
    hide OverwrittenTogether;
    assert WorldStep(w, run[m], ops[m], run[m + 1]);
    OverwrittenWorld(w, run[m], ops[m], run[m + 1], target, written);
    GlobalArrayKept(w, run, ops, m + 1, k, target, j);
    AllSized(w, run[k], j);
    SameThrough(w.layouts[target], written, w.layouts[target], Storages(run[m + 1]), w.layouts[j], Storages(run[k]),
                w.extraCount);
  }

  lemma SameThrough<T>(a: Distribution, x: seq<seq<T>>, b: Distribution, y: seq<seq<T>>, c: Distribution,
                       z: seq<seq<T>>, extraCount: nat)
    requires SameGlobalArray(a, x, b, y, extraCount) && SameGlobalArray(b, y, c, z, extraCount)
    ensures SameGlobalArray(a, x, c, z, extraCount)
  {
    hide GlobalAt;
    hide WorldOf;
    forall e, g | 0 <= e < extraCount && InBounds(c.shape, g)
      ensures GlobalAt(c, extraCount, z, e, g) == GlobalAt(a, extraCount, x, e, g)
    {
      assert GlobalAt(b, extraCount, y, e, g) == GlobalAt(a, extraCount, x, e, g);
    }
  }

  lemma OverwrittenWorld<T(!new)>(w: Shared, before: seq<Contents<T>>, ops: seq<ArrayOp<T>>, after: seq<Contents<T>>,
                                  target: nat, written: seq<seq<T>>)
    requires w.Valid() && WorldStep(w, before, ops, after) && |written| == w.Size() && target < |w.layouts|
    requires OverwrittenTogether(w, ops, target, written)
    ensures AllValidAt(w, after, target)
    ensures SameGlobalArray(w.layouts[target], written, w.layouts[target], Storages(after), w.extraCount)
  {
    var d := w.layouts[target];
    forall c | w.Rank(c) ensures RankOverwritten(w, after, target, written, c) {
      assert RankStep(w, before, ops, after, c);
      LayoutOfIsValid(w.PencilsAt(c), w.extraCount, target);
    }
    hide WorldStep;
    hide OverwrittenTogether;
    forall c | w.Rank(c)
      ensures RankOf(w.Grid(), c) < |after|
      ensures RankHolds(d, w.extraCount, c, written[RankOf(w.Grid(), c)])
      ensures RankHolds(d, w.extraCount, c, Storages(after)[RankOf(w.Grid(), c)])
    {
      LinearBound(w.Grid(), c);
      assert RankOverwritten(w, after, target, written, c);
    }
    forall e, g | 0 <= e < w.extraCount && InBounds(d.shape, g)
      ensures GlobalAt(d, w.extraCount, Storages(after), e, g) == GlobalAt(d, w.extraCount, written, e, g)
    {
      var c := d.OwnerOf(g);
      OwnerHolds(d, w.extraCount, written, e, g, c);
      assert RankOverwritten(w, after, target, written, c);
      StorageOf(w, after, c);
      var n := |Of(w, written, c)|;
      assert Of(w, after, c).storage[..n][StorageCell(d.LayoutAt(c), w.extraCount, e, g)] ==
        Of(w, written, c)[StorageCell(d.LayoutAt(c), w.extraCount, e, g)];
    }
  }

  ghost predicate RankOverwritten<T>(w: Shared, after: seq<Contents<T>>, target: nat, written: seq<seq<T>>, c: seq<nat>)
    requires w.Valid() && w.Rank(c) && |after| == |written| == w.Size() && target < |w.layouts|
  {
    var s, values := Of(w, after, c), Of(w, written, c);
    && s.state == LayoutState.Valid(target) && |values| == Times(w.extraCount, w.layouts[target].LayoutAt(c).Len())
    && |values| <= |s.storage| && s.storage[..|values|] == values
  }

  // ----- Callbacks

  ghost predicate SomeEnds<T>(ops: seq<ArrayOp<T>>, outcome: WriterOutcome)
    requires AllCalled(ops)
  {
    exists r :: 0 <= r < |ops| && ops[r].callback.outcome == outcome
  }

  /** What a rank must report: its own panic or a peer's first, then its own error or a peer's. */
  ghost function Report<T>(ops: seq<ArrayOp<T>>, own: WriterOutcome): CallEnd
    requires AllCalled(ops)
  {
    if own == WriterPanic then Resumed
    else if SomeEnds(ops, WriterPanic) then PeerPanicked
    else if own == WriterError then OwnError
    else if SomeEnds(ops, WriterError) then PeerFailed
    else Succeeded
  }

  /** The reduction of the statuses tells every rank the worst outcome of any callback. */
  lemma StatusTellsWorst<T>(ops: seq<ArrayOp<T>>, r: nat)
    requires AllCalled(ops) && r < |ops| && ops[r].callback.status == Preflight.Greatest(StatusRows(ops), 0)
    ensures EndOfCall(ops[r].callback) == Report(ops, ops[r].callback.outcome)
  {
    var rows := StatusRows(ops);
    Preflight.GreatestIs(rows, 1, 0);
    assert rows[r][0] <= Preflight.Greatest(rows, 0);
    var s :| 0 <= s < |rows| && rows[s][0] == Preflight.Greatest(rows, 0);
    assert ops[s].callback.outcome in [Completed, WriterError, WriterPanic];
    forall t | 0 <= t < |ops| ensures StatusOf(ops[t].callback.outcome) <= Preflight.Greatest(rows, 0) {
      assert rows[t][0] <= Preflight.Greatest(rows, 0);
    }
  }

  ghost predicate AllCompleted<T>(ops: seq<ArrayOp<T>>)
    requires AllCalled(ops)
  {
    forall r :: 0 <= r < |ops| ==> ops[r].callback.outcome == Completed
  }

  /** A rank's call succeeds and leaves its array valid exactly if all ranks' callbacks completed; else the
      array is poisoned, and the rank reports the worst of what happened, here or at a peer. */
  ghost predicate EndsWithAll<T>(ops: seq<ArrayOp<T>>, op: ArrayOp<T>, d: Contents<T>)
    requires AllCalled(ops)
  {
    && Exchanges(op) && op.callback.Called? && EndOfCall(op.callback) == Report(ops, op.callback.outcome)
    && (EndOfCall(op.callback) == Succeeded <==> AllCompleted(ops))
    && d.state == if AllCompleted(ops) then LayoutState.Valid(op.destination) else Poisoned
  }

  /** A transpose with a callback ends alike on all ranks: if every callback completed, every rank's array is
      valid in the destination layout and every call succeeds; if any failed or panicked, every rank's array
      is poisoned and every call reports it. */
  lemma CallbacksEndTogether<T(!new)>(w: Shared, before: seq<Contents<T>>, ops: seq<ArrayOp<T>>,
                                      after: seq<Contents<T>>, c: seq<nat>)
    requires w.Valid() && WorldStep(w, before, ops, after) && w.Rank(c) && AllCalled(ops)
    ensures EndsWithAll(ops, Of(w, ops, c), Of(w, after, c))
  {
    LinearBound(w.Grid(), c);
    assert RankStep(w, before, ops, after, c);
    var r := RankOf(w.Grid(), c);
    assert Exchanges(ops[r]) && Together(w, ops[r].plan, before, ops);
    OneAnswer(ops, r);
    StatusTellsWorst(ops, r);
    hide Together;
    hide Step;
    hide StatusOf;
    hide EndOf;
    hide WorldStep;
    SuccessMeansAll(ops, r);
    StateFollows(w.PencilsAt(c), w.extraCount, Of(w, before, c), ops[r], Of(w, after, c));
  }

  lemma SuccessMeansAll<T>(ops: seq<ArrayOp<T>>, r: nat)
    requires AllCalled(ops) && r < |ops|
    ensures Report(ops, ops[r].callback.outcome) == Succeeded <==> AllCompleted(ops)
  {
    if !AllCompleted(ops) {
      var s :| 0 <= s < |ops| && ops[s].callback.outcome != Completed;
      assert SomeEnds(ops, ops[s].callback.outcome);
    }
  }

  lemma StateFollows<T>(pencils: seq<Registered>, extraCount: nat, c: Contents<T>, op: ArrayOp<T>, d: Contents<T>)
    requires AllValid(pencils) && Step(pencils, extraCount, c, op, d) && Exchanges(op)
    ensures d.state == if EndOfCall(op.callback) == Succeeded then LayoutState.Valid(op.destination) else Poisoned
  {
  }

  lemma OneAnswer<T>(ops: seq<ArrayOp<T>>, r: nat)
    requires AllExchange(ops) && AllCalled(ops) && OneStatus(ops) && r < |ops|
    ensures ops[r].callback.status == Preflight.Greatest(StatusRows(ops), 0)
  {
  }
}
