/** One buffer registered for several layouts, of which at most one is valid at a time. */
module ManyArrays {
  import opened MachineInts
  import opened Nonlinear
  import opened MixedRadix
  import opened Pencil
  import opened Segments
  import opened Plans
  import opened Transposes
  import opened LocalTransposes
  import opened Registries
  import opened ArrayRuns

  datatype OverwriteResult = Written | Rejected(error: ArrayError) | WriterFailed | Unwound

  datatype LocalError =
    | NotActive(error: ArrayError)
    | SourceLayoutMismatch
    | DestinationLayoutMismatch
    | ScratchTooSmall

  class ManyPencilArray<T> {
    const pencils: seq<Registered>
    const extraCount: usize
    const storage: array<T>
    var state: LayoutState

    ghost function Value(): Contents<T>
      reads this, storage
    {
      Contents(state, storage[..])
    }

    ghost predicate Valid()
      reads this, storage
    {
      && AllValid(pencils) && Registry(pencils, if |pencils| == 0 then 0 else |pencils| - 1)
      && storage.Length <= USIZE_MAX && Sized(pencils, extraCount, Value())
    }

    /** Takes a buffer sized for the largest layout; the active layout is valid on what it holds. */
    constructor (pencils: seq<Registered>, active: nat, extraCount: usize, storage: array<T>)
      requires AllValid(pencils) && Registry(pencils, active) && storage.Length <= USIZE_MAX
      requires forall i :: 0 <= i < |pencils| ==> UsedLen(pencils, extraCount, i) <= storage.Length
      ensures Valid() && this.storage == storage && this.pencils == pencils && this.extraCount == extraCount
      ensures state == LayoutState.Valid(active)
    {
      this.pencils, this.extraCount, this.storage := pencils, extraCount, storage;
      state := LayoutState.Valid(active);
    }

    method ActiveIndex() returns (r: Result<nat, ArrayError>)
      requires Valid()
      ensures r == if state.Valid? then Ok(state.index) else Err(PoisonedArray)
    {
      match state {
        case Poisoned => return Err(PoisonedArray);
        case Valid(index) =>
          var count := |pencils|;
          return if index < count then Ok(index) else Err(InvalidActiveLayout(index, count));
      }
    }

    /** The first registered pencil with the same layout; there is at most one. */
    method FindLayout(target: Registered) returns (r: Option<nat>)
      ensures r.Some? ==> r.value < |pencils| && pencils[r.value].SameLayout(target)
      ensures r.None? ==> forall i :: 0 <= i < |pencils| ==> !pencils[i].SameLayout(target)
      ensures r.Some? ==>
        && pencils[r.value].topology == target.topology
        && pencils[r.value].distribution.shape == target.distribution.shape
        && pencils[r.value].distribution.decomposition == target.distribution.decomposition
        && pencils[r.value].distribution.permutation == target.distribution.permutation
      ensures forall i :: 0 <= i < (if r.Some? then r.value else |pencils|) ==>
        || pencils[i].topology != target.topology
        || pencils[i].distribution.shape != target.distribution.shape
        || pencils[i].distribution.decomposition != target.distribution.decomposition
        || pencils[i].distribution.permutation != target.distribution.permutation
    {
      for i := 0 to |pencils|
        invariant forall k :: 0 <= k < i ==> !pencils[k].SameLayout(target)
      {
        if pencils[i].SameLayout(target) {
          return Some(i);
        }
      }
      return None;
    }

    /** Writes `values` over the front of the storage. */
    method Fill(values: seq<T>)
      requires |values| <= storage.Length
      modifies storage
      ensures storage[..|values|] == values && TailKept(old(storage[..]), storage[..], |values|)
    {
      ghost var before := storage[..];
      for k := 0 to |values|
        invariant storage[..k] == values[..k] && storage[k..] == before[k..]
      {
        storage[k] := values[k];
      }
      assert storage[..][|values|..] == before[|values|..];
    }

    /** Poisons, lets the writer fill the target view, and activates it only if the writer returned.
        `written` is what the view holds when the writer stops, complete or not. */
    method OverwriteWith(target: Registered, written: seq<T>, outcome: WriterOutcome)
      returns (r: OverwriteResult, ghost op: ArrayOp<T>)
      requires Valid() && target.Valid() && |written| == Times(extraCount, target.Layout().Len())
      modifies this, storage
      ensures Valid() && Step(pencils, extraCount, old(Value()), op, Value())
      ensures op.Overwrite? && op.writer == outcome && op.written == written
      ensures op.target.Some? <==> exists i :: 0 <= i < |pencils| && pencils[i].SameLayout(target)
      ensures op.target.Some? ==> op.target.value < |pencils| && pencils[op.target.value].SameLayout(target)
      ensures r == if op.target.None? then Rejected(IncompatiblePencils)
                   else match outcome
                        case Completed => Written
                        case WriterError => WriterFailed
                        case WriterPanic => Unwound
    {
      hide Registered.SameLayout;
      var found := FindLayout(target);
      op := Overwrite(found, written, outcome);
      if found.None? {
        return Rejected(IncompatiblePencils), op;
      }
      var index := found.value;
      SameLayoutIsEqual(pencils[index], target);
      assert UsedLen(pencils, extraCount, index) <= storage.Length;
      state := Poisoned;
      Fill(written);
      match outcome {
        case Completed =>
          state := LayoutState.Valid(index);
          r := Written;
        case WriterError => r := WriterFailed;
        case WriterPanic => r := Unwound;
      }
    }

    /** What an in-place reordering demands. */
    ghost predicate Accepts(source: Registered, destination: Registered, scratchCapacity: nat)
      requires Valid()
      reads this, storage
    {
      && state.Valid? && pencils[state.index].SameLayout(source)
      && (exists i :: 0 <= i < |pencils| && pencils[i].SameLayout(destination))
      && UsedLen(pencils, extraCount, state.index) <= scratchCapacity
    }

    /** The preflight that both kinds of in-place transpose share: the active layout is the source and
        the destination is registered. */
    method PrepareInPlace(source: Registered, destination: Registered) returns (r: Result<nat, LocalError>)
      requires Valid()
      ensures r.Ok? <==>
        && state.Valid? && pencils[state.index].SameLayout(source)
        && exists i :: 0 <= i < |pencils| && pencils[i].SameLayout(destination)
      ensures r.Ok? ==> r.value < |pencils| && pencils[r.value].SameLayout(destination)
      ensures r.Err? ==> r.error == if state.Poisoned? then NotActive(PoisonedArray)
                                    else if !pencils[state.index].SameLayout(source) then SourceLayoutMismatch
                                      else DestinationLayoutMismatch
    {
      var active := ActiveIndex();
      if active.Err? {
        return Err(NotActive(active.error));
      }
      if !pencils[active.value].SameLayout(source) {
        return Err(SourceLayoutMismatch);
      }
      var found := FindLayout(destination);
      if found.None? {
        return Err(DestinationLayoutMismatch);
      }
      return Ok(found.value);
    }

    method ValidateInPlace(source: Registered, destination: Registered, scratchCapacity: nat)
      returns (r: Result<nat, LocalError>)
      requires Valid()
      ensures r.Ok? <==> Accepts(source, destination, scratchCapacity)
      ensures r.Ok? ==> r.value < |pencils| && pencils[r.value].SameLayout(destination)
    {
      var prepared := PrepareInPlace(source, destination);
      if prepared.Err? {
        return Err(prepared.error);
      }
      if scratchCapacity < Times(extraCount, pencils[state.index].Len()) {
        return Err(ScratchTooSmall);
      }
      return Ok(prepared.value);
    }

    /** Reorders the active layout inside the buffer. Refusals change nothing, nor does a panic while
        staging; once destination writes begin only completion makes a layout valid again. */
    method LocalTransposeInPlace(source: Registered, destination: Registered, scratchCapacity: nat,
                                 outcome: StagedOutcome, panicAt: nat)
      returns (r: Result<(), LocalError>, ghost op: ArrayOp<T>)
      requires Valid() && source.Valid() && destination.Valid() && SameBox(source.Layout(), destination.Layout())
      modifies this, storage
      ensures Valid() && Step(pencils, extraCount, old(Value()), op, Value())
      ensures op.LocalInPlace? && op.staged == outcome && (op.accepted <==> r.Ok?)
      ensures r.Ok? <==> old(Accepts(source, destination, scratchCapacity))
      ensures r.Ok? ==> op.destination < |pencils| && pencils[op.destination].SameLayout(destination)
    {
      op := LocalInPlace(false, 0, outcome);
      var valid := ValidateInPlace(source, destination, scratchCapacity);
      if valid.Err? {
        return Err(valid.error), op;
      }
      r := Ok(());
      SameLayoutIsEqual(pencils[state.index], source);
      SameLayoutIsEqual(pencils[valid.value], destination);
      op := LocalInPlace(true, valid.value, outcome);
      if outcome == StagingPanic {
        return;
      }
      MoveInPlace(source.Layout(), destination.Layout(), valid.value, outcome, panicAt);
    }

    /** Stages the active prefix, poisons, writes, and commits unless a write panics. */
    method MoveInPlace(sl: LocalLayout, dl: LocalLayout, index: nat, outcome: StagedOutcome, panicAt: nat)
      requires Valid() && state.Valid? && index < |pencils| && SameBox(sl, dl) && outcome != StagingPanic
      requires LayoutOf(pencils, state.index) == sl && LayoutOf(pencils, index) == dl
      modifies this, storage
      ensures Valid() && MovedLocally(pencils, extraCount, old(Value()), index, outcome, Value())
    {
      SameLength(sl, dl);
      var required := Times(extraCount, sl.Len());
      LayoutOfIsValid(pencils, extraCount, state.index);
      LayoutOfIsValid(pencils, extraCount, index);
      assert UsedLen(pencils, extraCount, index) == required;
      var staged := storage[..required];
      ghost var before := storage[..];
      state := Poisoned;
      WriteStaged(sl, dl, extraCount, staged, storage,
                  if outcome == WritePanic && panicAt < required then panicAt else required);
      assert storage[..][required..] == before[required..];
      if outcome == Finished {
        state := LayoutState.Valid(index);
        StagedIsPrefix(sl, dl, required, staged, before, storage[..]);
      }
    }

    /** Completes a distributed transpose: poison, unpack the received segments over the prefix of the
        destination layout, show the prefix to the callback if there is one, and commit only if all ranks'
        callbacks succeeded. */
    method FinishInPlace(p: Plan, c: seq<nat>, destinationIndex: nat, receiveBuffer: array<T>, callback: Callback<T>)
      returns (end: CallEnd, ghost op: ArrayOp<T>, ghost shown: seq<T>)
      requires Valid() && state.Valid? && p.Valid() && p.Rank(c) && receiveBuffer != storage
      requires LayoutOf(pencils, state.index) == p.source.LayoutAt(c)
      requires destinationIndex < |pencils| && LayoutOf(pencils, destinationIndex) == p.destination.LayoutAt(c)
      requires UsedLen(pencils, extraCount, destinationIndex) <= receiveBuffer.Length <= USIZE_MAX
      requires callback.Called? ==> |callback.left| == UsedLen(pencils, extraCount, destinationIndex)
      modifies this, storage
      ensures Valid() && Step(pencils, extraCount, old(Value()), op, Value())
      ensures op == DistributedInPlace(true, p, c, destinationIndex, receiveBuffer[..], callback)
      ensures end == EndOfCall(callback) && (state.Valid? <==> end == Succeeded)
      ensures p.Fits(c)
        && Held(p.destination.LayoutAt(c), p.ReceiveSegments(c), None, extraCount, shown, receiveBuffer[..])
    {
      hide Held;
      LayoutOfIsValid(pencils, extraCount, destinationIndex);
      ghost var before := storage[..];
      ghost var n := UsedLen(pencils, extraCount, destinationIndex);
      state := Poisoned;
      UnpackDestination(p, c, false, storage, receiveBuffer, extraCount);
      shown := storage[..];
      assert storage[..][n..] == before[n..];
      op := DistributedInPlace(true, p, c, destinationIndex, receiveBuffer[..], callback);
      match callback {
        case NoCallback =>
          end := Succeeded;
          state := LayoutState.Valid(destinationIndex);
        case Called(left, outcome, status) =>
          Fill(left);
          end := EndOf(outcome, status);
          if end == Succeeded {
            state := LayoutState.Valid(destinationIndex);
          }
      }
    }
  }

  lemma SameLength(a: LocalLayout, b: LocalLayout)
    requires SameBox(a, b)
    ensures a.Len() == b.Len()
  {
  }

  /** What was staged is the front of the storage. */
  lemma StagedIsPrefix<T>(source: LocalLayout, destination: LocalLayout, n: nat, staged: seq<T>, before: seq<T>,
                          storage: seq<T>)
    requires SameBox(source, destination) && Reordered(source, destination, n, staged, storage)
    requires |staged| <= |before| && staged == before[..|staged|]
    ensures Reordered(source, destination, n, before, storage)
  {
    forall linear | 0 <= linear < n ensures PositionMoved(source, destination, linear, before, storage) {
      assert PositionMoved(source, destination, linear, staged, storage);
    }
  }
}
