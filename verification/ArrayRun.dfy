/** Runs of calls on an array with several layouts. */
module ArrayRuns {
  // Which values a valid layout holds, and when an array is poisoned.

  import opened MachineInts
  import opened Nonlinear
  import opened MixedRadix
  import opened Geometry
  import opened Pencil
  import opened Segments
  import opened Plans
  import opened LocalTransposes
  import opened Registries

  // ----- Calls

  /** State and storage; nothing records what was written. */
  datatype Contents<T> = Contents(state: LayoutState, storage: seq<T>)

  /** How a user's writer ends. */
  datatype WriterOutcome = Completed | WriterError | WriterPanic

  /** How an in-place reordering ends once its preflight passed: done, a panic while values are
      staged, or a panic after some destination writes. */
  datatype StagedOutcome = Finished | StagingPanic | WritePanic

  /** A callback sees the unpacked prefix and may change it before it ends. `status` is what the ranks
      agree on afterwards: the greatest status of all ranks' callbacks. */
  datatype Callback<T> = NoCallback | Called(left: seq<T>, outcome: WriterOutcome, status: nat)

  /** What a call reports to its caller: success, the callback's own error, its own panic again, or
      that a peer's callback panicked or failed. */
  datatype CallEnd = Succeeded | OwnError | Resumed | PeerPanicked | PeerFailed

  function StatusOf(outcome: WriterOutcome): nat {
    match outcome
    case Completed => 0
    case WriterError => 1
    case WriterPanic => 2
  }

  /** How the call ends on a rank whose callback ended with `outcome`, under the agreed status. */
  function EndOf(outcome: WriterOutcome, status: nat): CallEnd {
    match outcome
    case WriterPanic => Resumed
    case Completed => if status == 0 then Succeeded else if status == 2 then PeerPanicked else PeerFailed
    case WriterError => if status == 1 then OwnError else if status == 2 then PeerPanicked else PeerFailed
  }

  function EndOfCall<T>(callback: Callback<T>): CallEnd {
    if callback.Called? then EndOf(callback.outcome, callback.status) else Succeeded
  }

  /** One call. `accepted` says that its preflight passed. */
  datatype ArrayOp<T> =
    | Overwrite(target: Option<nat>, written: seq<T>, writer: WriterOutcome)
    | LocalInPlace(accepted: bool, destination: nat, staged: StagedOutcome)
    | DistributedInPlace(accepted: bool, plan: Plan, coords: seq<nat>, destination: nat, received: seq<T>,
                         callback: Callback<T>)

  /** Storage sized for every layout, and a valid index. */
  ghost predicate Sized<T>(pencils: seq<Registered>, extraCount: nat, c: Contents<T>) {
    && (forall i :: 0 <= i < |pencils| ==> UsedLen(pencils, extraCount, i) <= |c.storage|)
    && (c.state.Valid? ==> c.state.index < |pencils|)
  }

  ghost predicate TailKept<T>(was: seq<T>, now: seq<T>, n: nat) {
    n <= |was| == |now| && now[n..] == was[n..]
  }

  /** The writer filled the target view; only its return makes the layout valid. */
  ghost predicate Overwritten<T>(pencils: seq<Registered>, extraCount: nat, c: Contents<T>, target: nat,
                                 written: seq<T>, writer: WriterOutcome, d: Contents<T>)
  {
    && target < |pencils| && |written| == UsedLen(pencils, extraCount, target)
    && TailKept(c.storage, d.storage, |written|)
    && d.storage[..|written|] == written
    && d.state == if writer == Completed then LayoutState.Valid(target) else Poisoned
  }

  /** The active layout's values were reordered for another layout of the same box. */
  ghost predicate MovedLocally<T>(pencils: seq<Registered>, extraCount: nat, c: Contents<T>, destination: nat,
                                  staged: StagedOutcome, d: Contents<T>)
    requires AllValid(pencils)
  {
    && c.state.Valid? && c.state.index < |pencils| && destination < |pencils|
    && SameBox(LayoutOf(pencils, c.state.index), LayoutOf(pencils, destination))
    && TailKept(c.storage, d.storage, UsedLen(pencils, extraCount, destination))
    && if staged == Finished then
         && d.state == LayoutState.Valid(destination)
         && Reordered(LayoutOf(pencils, c.state.index), LayoutOf(pencils, destination),
                      UsedLen(pencils, extraCount, destination), c.storage, d.storage)
       else d.state == Poisoned
  }

  /** The received segments were unpacked over the prefix of the destination layout. */
  ghost predicate MovedBetweenRanks<T>(pencils: seq<Registered>, extraCount: nat, c: Contents<T>, p: Plan,
                                       coords: seq<nat>, destination: nat, received: seq<T>, callback: Callback<T>,
                                       d: Contents<T>)
    requires AllValid(pencils)
  {
    && c.state.Valid? && c.state.index < |pencils| && destination < |pencils| && p.Valid() && p.Rank(coords)
    && p.Fits(coords)
    && LayoutOf(pencils, c.state.index) == p.source.LayoutAt(coords)
    && LayoutOf(pencils, destination) == p.destination.LayoutAt(coords)
    && TailKept(c.storage, d.storage, UsedLen(pencils, extraCount, destination))
    && match callback
       case NoCallback =>
         d.state == LayoutState.Valid(destination)
           && Held(p.destination.LayoutAt(coords), p.ReceiveSegments(coords), None, extraCount, d.storage, received)
       case Called(left, _, _) =>
         && |left| == UsedLen(pencils, extraCount, destination) && d.storage[..|left|] == left
         && d.state == if EndOfCall(callback) == Succeeded then LayoutState.Valid(destination) else Poisoned
  }

  /** The effect of one call. */
  ghost predicate Step<T>(pencils: seq<Registered>, extraCount: nat, c: Contents<T>, op: ArrayOp<T>, d: Contents<T>)
    requires AllValid(pencils)
  {
    match op
    case Overwrite(target, written, writer) =>
      if target.None? then d == c else Overwritten(pencils, extraCount, c, target.value, written, writer, d)
    case LocalInPlace(accepted, destination, staged) =>
      if !accepted || staged == StagingPanic then d == c
        else MovedLocally(pencils, extraCount, c, destination, staged, d)
    case DistributedInPlace(accepted, p, coords, destination, received, callback) =>
      if !accepted then d == c
        else MovedBetweenRanks(pencils, extraCount, c, p, coords, destination, received, callback, d)
  }

  /** `run[k + 1]` follows from `run[k]` by `ops[k]`. */
  ghost predicate IsRun<T>(pencils: seq<Registered>, extraCount: nat, run: seq<Contents<T>>, ops: seq<ArrayOp<T>>)
    requires AllValid(pencils)
  {
    |run| == |ops| + 1 && forall k :: 0 <= k < |ops| ==> Step(pencils, extraCount, run[k], ops[k], run[k + 1])
  }

  lemma {:induction false} RunStaysSized<T>(pencils: seq<Registered>, extraCount: nat, run: seq<Contents<T>>,
                                            ops: seq<ArrayOp<T>>, k: nat)
    requires AllValid(pencils) && IsRun(pencils, extraCount, run, ops) && Sized(pencils, extraCount, run[0])
      && k < |run|
    ensures Sized(pencils, extraCount, run[k]) && |run[k].storage| == |run[0].storage|
  {
    if k != 0 {
      RunStaysSized(pencils, extraCount, run, ops, k - 1);
      assert Step(pencils, extraCount, run[k - 1], ops[k - 1], run[k - 1 + 1]);
    }
  }

  // ----- Completed writes

  /** A completed overwrite, or a distributed transpose that succeeds: with a callback, only if the callbacks
      of all ranks did. Reordering writes no new values. */
  predicate Commits<T>(op: ArrayOp<T>) {
    match op
    case Overwrite(target, _, writer) => target.Some? && writer == Completed
    case LocalInPlace(_, _, _) => false
    case DistributedInPlace(accepted, _, _, _, _, callback) => accepted && EndOfCall(callback) == Succeeded
  }

  /** The last completed write before state `k`. */
  function LastWrite<T>(ops: seq<ArrayOp<T>>, k: nat): (o: Option<nat>)
    requires k <= |ops|
    ensures o.Some? ==> o.value < k && Commits(ops[o.value])
  {
    if k == 0 then None else if Commits(ops[k - 1]) then Some(k - 1) else LastWrite(ops, k - 1)
  }

  /** The segment of a receive buffer that brings global index `g`: that of its source owner. */
  ghost function SegmentOf(p: Plan, coords: seq<nat>, g: seq<nat>): (s: Segment)
    requires p.Valid() && p.Rank(coords) && p.Fits(coords) && InBox(p.destination.RangesAt(coords), g)
    ensures InBox(s.region, g)
  {
    BoxInShape(p.destination, coords, g);
    var q := p.source.OwnerOf(g)[p.axis];
    ReceiveRegionsTile(p, coords, 0, g);
    ReceiveRegionsTile(p, coords, q, g);
    p.ReceiveSegment(coords, q)
  }

  /** The completed write `op` put `v` at global index `g` of extra group `e`. */
  ghost predicate Wrote<T>(pencils: seq<Registered>, extraCount: nat, op: ArrayOp<T>, e: nat, g: seq<nat>, v: T)
    requires AllValid(pencils) && e < extraCount
  {
    match op
    case Overwrite(target, written, _) =>
      target.Some? && target.value < |pencils|
        && WrittenAt(LayoutOf(pencils, target.value), extraCount, written, e, g, v)
    case LocalInPlace(_, _, _) => false
    case DistributedInPlace(_, p, coords, destination, received, callback) =>
      if callback.Called?
        then destination < |pencils| && WrittenAt(LayoutOf(pencils, destination), extraCount, callback.left, e, g, v)
      else p.Valid() && p.Rank(coords) && p.Fits(coords) && ReceivedAt(p, coords, extraCount, received, e, g, v)
  }

  ghost predicate WrittenAt<T>(l: LocalLayout, extraCount: nat, written: seq<T>, e: nat, g: seq<nat>, v: T)
    requires e < extraCount
  {
    l.Valid() && InBox(l.ranges, g) && StorageCell(l, extraCount, e, g) < |written|
      && v == written[StorageCell(l, extraCount, e, g)]
  }

  ghost predicate ReceivedAt<T>(p: Plan, coords: seq<nat>, extraCount: nat, received: seq<T>, e: nat, g: seq<nat>, v: T)
    requires p.Valid() && p.Rank(coords) && p.Fits(coords)
  {
    && InBox(p.destination.RangesAt(coords), g)
    && var s := SegmentOf(p, coords, g);
       var cell := Slot(s, extraCount, e, PlaceIn(s.region, g));
       cell < |received| && v == received[cell]
  }

  /** What a valid layout holds at `g` in group `e`: what the last completed write put there, or, if
      there was none, what the array started with. */
  ghost predicate HoldsLastWrite<T>(pencils: seq<Registered>, extraCount: nat, start: Contents<T>, ops: seq<ArrayOp<T>>,
                                    k: nat, c: Contents<T>, e: nat, g: seq<nat>)
    requires AllValid(pencils) && k <= |ops| && e < extraCount
  {
    && c.state.Valid? && c.state.index < |pencils|
    && var l := LayoutOf(pencils, c.state.index);
       && l.Valid() && InBox(l.ranges, g) && StorageCell(l, extraCount, e, g) < |c.storage|
       && var v := c.storage[StorageCell(l, extraCount, e, g)];
          match LastWrite(ops, k)
          case Some(o) => Wrote(pencils, extraCount, ops[o], e, g, v)
          case None =>
            start.state.Valid? && start.state.index < |pencils|
              && WrittenAt(LayoutOf(pencils, start.state.index), extraCount, start.storage, e, g, v)
  }

  /** Over every run of overwrites, local reorderings and distributed transposes, completed, refused,
      failed or panicked: a valid layout holds, at every index of its box and in every extra group, the
      value of the last completed write. */
  lemma {:induction false} ValidLayoutHoldsLastWrite<T>(pencils: seq<Registered>, extraCount: nat,
                                                        run: seq<Contents<T>>, ops: seq<ArrayOp<T>>, k: nat, e: nat,
                                                        g: seq<nat>)
    requires AllValid(pencils) && IsRun(pencils, extraCount, run, ops) && Sized(pencils, extraCount, run[0])
      && k < |run|
    requires run[k].state.Valid? && run[k].state.index < |pencils| && e < extraCount
    requires InBox(LayoutOf(pencils, run[k].state.index).ranges, g)
    ensures HoldsLastWrite(pencils, extraCount, run[0], ops, k, run[k], e, g)
  {
    hide Step;
    hide Wrote;
    hide HoldsLastWrite;
    if k == 0 {
      StartHolds(pencils, extraCount, run[0], ops, e, g);
    } else {
      var c, d, op := run[k - 1], run[k], ops[k - 1];
      assert Step(pencils, extraCount, c, op, run[k - 1 + 1]);
      if Commits(op) {
        CommitHolds(pencils, extraCount, run[0], ops, k, c, d, e, g);
      } else {
        Uncommitted(pencils, extraCount, c, op, d, g);
        ValidLayoutHoldsLastWrite(pencils, extraCount, run, ops, k - 1, e, g);
        CarriedOver(pencils, extraCount, run[0], ops, k, c, d, e, g);
      }
    }
  }

  lemma StartHolds<T>(pencils: seq<Registered>, extraCount: nat, start: Contents<T>, ops: seq<ArrayOp<T>>, e: nat,
                      g: seq<nat>)
    requires AllValid(pencils) && Sized(pencils, extraCount, start) && start.state.Valid? && e < extraCount
    requires InBox(LayoutOf(pencils, start.state.index).ranges, g)
    ensures HoldsLastWrite(pencils, extraCount, start, ops, 0, start, e, g)
  {
    LayoutOfIsValid(pencils, extraCount, start.state.index);
  }

  /** A call that commits leaves its own values. */
  lemma CommitHolds<T>(pencils: seq<Registered>, extraCount: nat, start: Contents<T>, ops: seq<ArrayOp<T>>, k: nat,
                       c: Contents<T>, d: Contents<T>, e: nat, g: seq<nat>)
    requires AllValid(pencils) && 0 < k <= |ops| && Step(pencils, extraCount, c, ops[k - 1], d) && Commits(ops[k - 1])
    requires d.state.Valid? && d.state.index < |pencils| && e < extraCount
      && InBox(LayoutOf(pencils, d.state.index).ranges, g)
    ensures HoldsLastWrite(pencils, extraCount, start, ops, k, d, e, g)
  {
    hide WrittenAt;
    hide ReceivedAt;
    hide LayoutOf;
    hide Held;
    hide AllValid;
    hide InBox;
    match ops[k - 1]
    case Overwrite(_, written, _) =>
      PrefixHolds(pencils, extraCount, d.state.index, d.storage, written, e, g);
    case LocalInPlace(_, _, _) =>
    case DistributedInPlace(_, p, coords, _, received, callback) =>
      match callback {
        case NoCallback => UnpackedValue(p, coords, extraCount, d.storage, received, e, g);
        case Called(left, _, _) => PrefixHolds(pencils, extraCount, d.state.index, d.storage, left, e, g);
      }
  }

  lemma PrefixHolds<T>(pencils: seq<Registered>, extraCount: nat, index: nat, storage: seq<T>, prefix: seq<T>, e: nat,
                       g: seq<nat>)
    requires AllValid(pencils) && index < |pencils| && e < extraCount && InBox(LayoutOf(pencils, index).ranges, g)
    requires |prefix| == UsedLen(pencils, extraCount, index) <= |storage| && storage[..|prefix|] == prefix
    ensures var l := LayoutOf(pencils, index);
      && l.Valid() && StorageCell(l, extraCount, e, g) < |storage|
      && WrittenAt(l, extraCount, prefix, e, g, storage[StorageCell(l, extraCount, e, g)])
  {
    LayoutOfIsValid(pencils, extraCount, index);
    var cell := StorageCell(LayoutOf(pencils, index), extraCount, e, g);
    assert storage[cell] == storage[..|prefix|][cell];
  }

  /** Unpacked storage has, at each index, the received element of the segment that brings it. */
  lemma UnpackedValue<T>(p: Plan, coords: seq<nat>, extraCount: nat, storage: seq<T>, received: seq<T>, e: nat,
                         g: seq<nat>)
    requires p.Valid() && p.Rank(coords) && p.Fits(coords) && e < extraCount && InBox(p.destination.RangesAt(coords), g)
    requires Held(p.destination.LayoutAt(coords), p.ReceiveSegments(coords), None, extraCount, storage, received)
    ensures var l := p.destination.LayoutAt(coords);
      && l.Valid() && l.ranges == p.destination.RangesAt(coords) && StorageCell(l, extraCount, e, g) < |storage|
      && ReceivedAt(p, coords, extraCount, received, e, g, storage[StorageCell(l, extraCount, e, g)])
  {
    hide GroupHeld;
    LayoutValid(p.destination, coords);
    var s := SegmentOf(p, coords, g);
    BoxInShape(p.destination, coords, g);
    var q := p.source.OwnerOf(g)[p.axis];
    ReceiveRegionsTile(p, coords, 0, g);
    PlaceRoundTrip(s.region, g);
    assert p.ReceiveSegments(coords)[q] == s;
    HeldAt(p.destination.LayoutAt(coords), s, extraCount, e, storage, received, g);
  }

  /** A call that commits nothing but leaves a valid layout changed nothing or reordered the active box. */
  lemma Uncommitted<T>(pencils: seq<Registered>, extraCount: nat, c: Contents<T>, op: ArrayOp<T>, d: Contents<T>,
                       g: seq<nat>)
    requires AllValid(pencils) && Step(pencils, extraCount, c, op, d) && !Commits(op) && d.state.Valid?
      && d.state.index < |pencils|
    requires InBox(LayoutOf(pencils, d.state.index).ranges, g)
    ensures c.state.Valid? && c.state.index < |pencils| && InBox(LayoutOf(pencils, c.state.index).ranges, g)
    ensures d == c || (op.LocalInPlace? && MovedLocally(pencils, extraCount, c, op.destination, Finished, d))
  {
  }

  /** Reordering carries every value to its place in the new layout. */
  lemma CarriedOver<T>(pencils: seq<Registered>, extraCount: nat, start: Contents<T>, ops: seq<ArrayOp<T>>, k: nat,
                       c: Contents<T>, d: Contents<T>, e: nat, g: seq<nat>)
    requires AllValid(pencils) && 0 < k <= |ops| && !Commits(ops[k - 1]) && e < extraCount
    requires d == c
      || (ops[k - 1].LocalInPlace? && MovedLocally(pencils, extraCount, c, ops[k - 1].destination, Finished, d))
    requires HoldsLastWrite(pencils, extraCount, start, ops, k - 1, c, e, g)
    ensures HoldsLastWrite(pencils, extraCount, start, ops, k, d, e, g)
  {
    hide Wrote;
    hide WrittenAt;
    assert LastWrite(ops, k) == LastWrite(ops, k - 1);
    if d != c {
      var from, to := LayoutOf(pencils, c.state.index), LayoutOf(pencils, d.state.index);
      LayoutOfIsValid(pencils, extraCount, d.state.index);
      ReorderingKeepsValues(from, to, extraCount, c.storage, d.storage, e, g);
    }
  }

  // ----- States

  /** A write began and was not completed; a transpose with a callback is unfinished on every rank as soon
      as one rank's callback failed or panicked. */
  predicate Unfinished<T>(op: ArrayOp<T>) {
    match op
    case Overwrite(target, _, writer) => target.Some? && writer != Completed
    case LocalInPlace(accepted, _, staged) => accepted && staged == WritePanic
    case DistributedInPlace(accepted, _, _, _, _, callback) => accepted && EndOfCall(callback) != Succeeded
  }

  predicate IsRecovery<T>(op: ArrayOp<T>) { op.Overwrite? && Commits(op) }

  /** Some write was left unfinished and no overwrite has succeeded since. */
  predicate Spoiled<T>(ops: seq<ArrayOp<T>>, k: nat)
    requires k <= |ops|
  {
    k != 0 && !IsRecovery(ops[k - 1]) && (Unfinished(ops[k - 1]) || Spoiled(ops, k - 1))
  }

  /** An array that starts valid is poisoned exactly while a write is left unfinished and no overwrite has
      succeeded since: only that poisons, and only that recovers. */
  lemma {:induction false} PoisonedExactlyWhileSpoiled<T>(pencils: seq<Registered>, extraCount: nat,
                                                          run: seq<Contents<T>>, ops: seq<ArrayOp<T>>, k: nat)
    requires AllValid(pencils) && IsRun(pencils, extraCount, run, ops) && run[0].state.Valid? && k < |run|
    ensures run[k].state == Poisoned <==> Spoiled(ops, k)
  {
    if k != 0 {
      PoisonedExactlyWhileSpoiled(pencils, extraCount, run, ops, k - 1);
      assert Step(pencils, extraCount, run[k - 1], ops[k - 1], run[k - 1 + 1]);
    }
  }

  /** A poisoned array refuses every in-place operation and stays poisoned until an overwrite succeeds. */
  lemma {:induction false} PoisonedUntilOverwritten<T>(pencils: seq<Registered>, extraCount: nat, run: seq<Contents<T>>,
                                                       ops: seq<ArrayOp<T>>, j: nat, k: nat)
    requires AllValid(pencils) && IsRun(pencils, extraCount, run, ops) && j <= k < |run| && run[j].state == Poisoned
    requires forall m :: j <= m < k ==> !IsRecovery(ops[m])
    ensures run[k].state == Poisoned
    ensures forall m :: j <= m < k && !ops[m].Overwrite? ==> run[m + 1] == run[m]
    decreases k
  {
    if k != j {
      PoisonedUntilOverwritten(pencils, extraCount, run, ops, j, k - 1);
      assert Step(pencils, extraCount, run[k - 1], ops[k - 1], run[k - 1 + 1]);
      assert !IsRecovery(ops[k - 1]);
    }
  }
}
