/** Batched real transforms: out of place, and packed in one allocation. */
module R2cPlans {
  import opened MachineInts
  import opened Nonlinear
  import opened Complexes
  import opened R2cRows

  const ISIZE_MAX: nat := 0x7FFF_FFFF_FFFF_FFFF

  datatype R2cState = RealInput | ComplexOutput | Poisoned

  datatype R2cError =
    | LengthOverflow
    | NonIntegralBatch
    | BatchCountMismatch(sourceCount: nat, destinationCount: nat)
    | RealLineTooSmall(required: nat, actual: nat)
    | ComplexLineTooSmall(required: nat, actual: nat)
    | ScratchTooSmall(required: nat, actual: nat)
    | ArrayMismatch
    | WorkspaceMismatch
    | StorageLengthMismatch(required: nat, actual: nat)
    | WrongState
    | ArrayPoisoned
    | InvalidSpectrumEndpoint(batch: nat, index: nat)

  /** A panic of the backend unwinds through the call. */
  datatype Outcome = Finished | Failed(error: R2cError) | BackendPanicked

  // ----- Copies of lines

  method CopyLine<T>(source: array<T>, at: nat, line: array<T>, n: nat)
    requires at + n <= source.Length && n <= line.Length && source != line
    modifies line
    ensures line[..n] == source[at..at + n] && line[n..] == old(line[n..])
  {
    for k := 0 to n
      invariant line[..k] == source[at..at + k] && line[n..] == old(line[n..])
    {
      line[k] := source[at + k];
    }
  }

  method WriteReals(storage: array<real>, at: nat, values: seq<real>)
    requires at + |values| <= storage.Length
    modifies storage
    ensures storage[at..at + |values|] == values
    ensures storage[..at] == old(storage[..at]) && storage[at + |values|..] == old(storage[at + |values|..])
  {
    for k := 0 to |values|
      invariant storage[at..at + k] == values[..k]
      invariant storage[..at] == old(storage[..at]) && storage[at + |values|..] == old(storage[at + |values|..])
    {
      storage[at + k] := values[k];
    }
    assert values[..|values|] == values;
  }

  method WriteBins(target: array<Complex>, at: nat, bins: Line)
    requires at + |bins| <= target.Length
    modifies target
    ensures target[at..at + |bins|] == bins
    ensures target[..at] == old(target[..at]) && target[at + |bins|..] == old(target[at + |bins|..])
  {
    for k := 0 to |bins|
      invariant target[at..at + k] == bins[..k]
      invariant target[..at] == old(target[..at]) && target[at + |bins|..] == old(target[at + |bins|..])
    {
      target[at + k] := bins[k];
    }
    assert bins[..|bins|] == bins;
  }

  /** Multiplies a stretch by the scale, in place. */
  method ScaleReals(storage: array<real>, at: nat, n: nat)
    requires 0 < n && at + n <= storage.Length
    modifies storage
    ensures storage[at..at + n] == Rescaled(true, n, old(storage[at..at + n]))
    ensures storage[..at] == old(storage[..at]) && storage[at + n..] == old(storage[at + n..])
  {
    hide Rescaled;
    var scale := 1.0 / n as real;
    ghost var was := storage[at..at + n];
    RescaledNone(n, was);
    for k := 0 to n
      invariant storage[at..at + k] == Rescaled(true, n, was[..k]) && storage[at + k..at + n] == was[k..]
      invariant storage[..at] == old(storage[..at]) && storage[at + n..] == old(storage[at + n..])
    {
      RescaledNext(n, was, k);
      assert storage[at + k] == storage[at + k..at + n][0] == was[k];
      ghost var before, rest := storage[at..at + k], storage[at + k + 1..at + n];
      storage[at + k] := RealMul(storage[at + k], scale);
      assert storage[at..at + k + 1] == before + [storage[at + k]];
      assert storage[at + k + 1..at + n] == rest == was[k + 1..];
    }
    assert was[..n] == was;
  }

  lemma RescaledNone(n: nat, values: seq<real>)
    requires 0 < n
    ensures Rescaled(true, n, values[..0]) == []
  {
  }

  lemma RescaledNext(n: nat, values: seq<real>, k: nat)
    requires 0 < n && k < |values|
    ensures Rescaled(true, n, values[..k + 1]) == Rescaled(true, n, values[..k]) + [RealMul(values[k], 1.0 / n as real)]
  {
  }

  // ----- Lengths and endpoints

  method BatchCountOf(actual: usize, lineLen: usize) returns (r: Result<usize, R2cError>)
    requires 0 < lineLen
    ensures r.Ok? ==> Times(r.value, lineLen) == actual && actual % lineLen == 0 && r.value == actual / lineLen
    ensures r.Err? ==> r == Err(NonIntegralBatch) && forall m: nat :: Times(m, lineLen) != actual
    ensures r.Err? ==> actual % lineLen != 0
  {
    if actual % lineLen != 0 {
      forall m: nat ensures Times(m, lineLen) != actual {
        TimesIs(m, lineLen);
        if m * lineLen == actual {
          DivModUnique(actual, m, lineLen, 0);
        }
      }
      return Err(NonIntegralBatch);
    }
    TimesIs(actual / lineLen, lineLen);
    return Ok(actual / lineLen);
  }

  ghost predicate GoodEndpoints(n: nat, line: Line)
    requires |line| == ComplexLen(n)
  {
    line[0].im == 0.0 && (n % 2 == 0 ==> line[n / 2].im == 0.0)
  }

  ghost predicate GoodRow(n: nat, spectrum: Line, b: nat) {
    Times(b, ComplexLen(n)) + ComplexLen(n) <= |spectrum| && GoodEndpoints(n, Row(spectrum, ComplexLen(n), b))
  }

  /** The first row with a bad endpoint; the first value is reported before the last. */
  ghost predicate FirstBadEndpoint(n: nat, m: nat, spectrum: Line, error: R2cError) {
    && error.InvalidSpectrumEndpoint? && error.batch < m && !GoodRow(n, spectrum, error.batch)
    && (forall b :: 0 <= b < error.batch ==> GoodRow(n, spectrum, b))
    && Times(error.batch, ComplexLen(n)) + ComplexLen(n) <= |spectrum|
    && error.index == if Row(spectrum, ComplexLen(n), error.batch)[0].im != 0.0 then 0 else ComplexLen(n) - 1
  }

  method ValidateEndpoints(n: usize, m: nat, source: seq<Complex>) returns (r: Result<(), R2cError>)
    requires 0 < n && |source| == Times(m, ComplexLen(n))
    ensures r.Ok? <==> forall b :: 0 <= b < m ==> GoodRow(n, source, b)
    ensures r.Err? ==> FirstBadEndpoint(n, m, source, r.error)
  {
    for b := 0 to m
      invariant forall j :: 0 <= j < b ==> GoodRow(n, source, j)
    {
      RowInside(b, m, ComplexLen(n));
      var line := Row(source, ComplexLen(n), b);
      if line[0].im != 0.0 {
        assert !GoodRow(n, source, b);
        return Err(InvalidSpectrumEndpoint(b, 0));
      }
      if n % 2 == 0 && line[n / 2].im != 0.0 {
        assert !GoodRow(n, source, b);
        return Err(InvalidSpectrumEndpoint(b, ComplexLen(n) - 1));
      }
    }
    return Ok(());
  }

  // ----- The in-place array and its workspace

  class LocalR2cInPlaceArray {
    const storage: array<real>
    const realLen: usize
    const batchCount: usize
    var state: R2cState

    constructor (storage: array<real>, realLen: usize, batchCount: usize)
      ensures this.storage == storage && this.realLen == realLen && this.batchCount == batchCount && state == RealInput
    {
      this.storage, this.realLen, this.batchCount, state := storage, realLen, batchCount, RealInput;
    }

    method EnsureState(expected: R2cState) returns (r: Result<(), R2cError>)
      requires !expected.Poisoned?
      ensures r == if state.Poisoned? then Err(ArrayPoisoned) else if state == expected then Ok(()) else Err(WrongState)
    {
      if state.Poisoned? {
        return Err(ArrayPoisoned);
      }
      if state == expected {
        return Ok(());
      }
      return Err(WrongState);
    }
  }

  class LocalR2cInPlaceWorkspace {
    const realLine: array<real>
    const complexLine: array<Complex>
    const scratchLen: usize
    const realLen: usize
    const complexLen: usize

    constructor (realLine: array<real>, complexLine: array<Complex>, scratchLen: usize, realLen: usize,
                 complexLen: usize)
      ensures this.realLine == realLine && this.complexLine == complexLine && this.scratchLen == scratchLen
      ensures this.realLen == realLen && this.complexLen == complexLen
    {
      this.realLine, this.complexLine, this.scratchLen, this.realLen, this.complexLen := realLine, complexLine,
      scratchLen, realLen, complexLen;
    }
  }

  function Addressable(length: nat, size: nat): bool { Times(length, size) <= ISIZE_MAX }

  // ----- One row of a packed array

  /** Row `b` of the storage holds the transform of row `b` of the signal. */
  ghost predicate Packed(backend: Backend, n: nat, b: nat, signal: seq<real>, storage: seq<real>) {
    && Times(b, n) + n <= |signal| && Times(b, 2 * ComplexLen(n)) + 2 * ComplexLen(n) <= |storage|
    && backend.forward(Row(signal, n, b)) == Spectrum(Pairs(Row(storage, 2 * ComplexLen(n), b)))
  }

  /** Writing row `b` changes no row behind it. */
  lemma PackedKept(backend: Backend, n: nat, b: nat, j: nat, signal: seq<real>, was: seq<real>, now: seq<real>)
    requires Packed(backend, n, j, signal, was) && b < j && |was| == |now|
    requires Times(b + 1, 2 * ComplexLen(n)) <= |was|
      && was[Times(b + 1, 2 * ComplexLen(n))..] == now[Times(b + 1, 2 * ComplexLen(n))..]
    ensures Packed(backend, n, j, signal, now)
  {
    var w := 2 * ComplexLen(n);
    TimesMono(b + 1, j, w, w);
    SameTail(was, now, Times(b + 1, w), Times(j, w), w);
  }

  lemma SameTail(was: seq<real>, now: seq<real>, k: nat, at: nat, n: nat)
    requires k <= at && at + n <= |was| == |now| && was[k..] == now[k..]
    ensures was[at..at + n] == now[at..at + n]
  {
    assert was[at..at + n] == was[k..][at - k..at - k + n];
    assert now[at..at + n] == now[k..][at - k..at - k + n];
  }

  lemma SamePrefix(was: seq<real>, now: seq<real>, k: nat, at: nat, n: nat)
    requires at + n <= k <= |was| && k <= |now| && was[..k] == now[..k]
    ensures was[at..at + n] == now[at..at + n]
  {
    assert was[at..at + n] == was[..k][at..at + n];
    assert now[at..at + n] == now[..k][at..at + n];
  }

  lemma AllPacked(backend: Backend, n: nat, m: nat, signal: seq<real>, storage: seq<real>)
    requires |signal| == Times(m, n) && |storage| == 2 * Times(m, ComplexLen(n))
    requires forall b :: 0 <= b < m ==> Packed(backend, n, b, signal, storage)
    ensures ForwardDone(backend, n, m, signal, Pairs(storage))
  {
    forall b | 0 <= b < m ensures ForwardRow(backend, n, b, signal, Pairs(storage)) {
      assert Packed(backend, n, b, signal, storage);
      PairsOfRow(storage, ComplexLen(n), b);
    }
  }

  /** Row `b` of the storage, seen as reals, holds the inverse of row `b` of the spectrum. */
  ghost predicate Unpacked(backend: Backend, n: nat, normalize: bool, b: nat, spectrum: Line, storage: seq<real>) {
    0 < n && Times(b, n) + n <= |storage| && Times(b, ComplexLen(n)) + ComplexLen(n) <= |spectrum|
    && var out := backend.inverse(Row(spectrum, ComplexLen(n), b));
       out.Signal? && Row(storage, n, b) == Rescaled(normalize, n, out.values)
  }

  lemma UnpackedKept(backend: Backend, n: nat, normalize: bool, b: nat, j: nat, spectrum: Line, was: seq<real>,
                     now: seq<real>)
    requires Unpacked(backend, n, normalize, j, spectrum, was) && j < b && |was| == |now|
    requires Times(b, n) <= |was| && was[..Times(b, n)] == now[..Times(b, n)]
    ensures Unpacked(backend, n, normalize, j, spectrum, now)
  {
    RowInside(j, b, n);
    SamePrefix(was, now, Times(b, n), Times(j, n), n);
  }

  lemma AllUnpacked(backend: Backend, n: nat, m: nat, normalize: bool, spectrum: Line, storage: seq<real>)
    requires 0 < n && |spectrum| == Times(m, ComplexLen(n)) && Times(m, n) <= |storage|
    requires forall b :: 0 <= b < m ==> Unpacked(backend, n, normalize, b, spectrum, storage)
    ensures InverseDone(backend, n, m, normalize, spectrum, storage[..Times(m, n)])
  {
    var signal := storage[..Times(m, n)];
    forall b | 0 <= b < m ensures InverseRow(backend, n, b, normalize, spectrum, signal) {
      assert Unpacked(backend, n, normalize, b, spectrum, storage);
      RowInside(b, m, n);
      RowOfPrefix(storage, n, b, Times(m, n));
    }
  }

  // ----- The plan

  class LocalR2cPlan {
    const realLen: usize
    const complexLen: usize
    const scratchLen: usize
    const scalarSize: usize
    const backend: Backend

    ghost predicate Valid() {
      0 < realLen && complexLen == ComplexLen(realLen) && 2 * complexLen <= USIZE_MAX && 0 < scalarSize
        && 2 * scalarSize <= USIZE_MAX && backend.Fits(realLen)
    }

    /** The first check of the buffers that fails, and its error. */
    ghost predicate BufferError(sourceLen: nat, destinationLen: nat, sourceIsReal: bool, realLineLen: nat,
                                complexLineLen: nat, scratch: nat, error: R2cError)
      requires 0 < realLen && 0 < complexLen
    {
      var source, destination := if sourceIsReal then realLen else complexLen,
                                 if sourceIsReal then complexLen else realLen;
      if sourceLen % source != 0 || destinationLen % destination != 0 then error == NonIntegralBatch
      else if sourceLen / source != destinationLen / destination then
        error == BatchCountMismatch(sourceLen / source, destinationLen / destination)
      else if realLineLen < realLen then error == RealLineTooSmall(realLen, realLineLen)
      else if complexLineLen < complexLen then error == ComplexLineTooSmall(complexLen, complexLineLen)
      else scratch < scratchLen && error == ScratchTooSmall(scratchLen, scratch)
    }

    /** Batch counts, line buffers and scratch, in that order. */
    method ValidateLineBuffers(sourceLen: usize, destinationLen: usize, sourceIsReal: bool, realLineLen: usize,
                               complexLineLen: usize, scratch: usize)
      returns (r: Result<(), R2cError>)
      requires Valid()
      ensures r.Ok? <==> BuffersFit(sourceLen, destinationLen, sourceIsReal, realLineLen, complexLineLen, scratch)
      ensures r.Err? ==>
        BufferError(sourceLen, destinationLen, sourceIsReal, realLineLen, complexLineLen, scratch, r.error)
    {
      var sourceRequired, destinationRequired := realLen, complexLen;
      if !sourceIsReal {
        sourceRequired, destinationRequired := complexLen, realLen;
      }
      var sources := BatchCountOf(sourceLen, sourceRequired);
      if sources.Err? {
        return Err(sources.error);
      }
      var destinations := BatchCountOf(destinationLen, destinationRequired);
      if destinations.Err? {
        return Err(destinations.error);
      }
      if sources.value != destinations.value {
        OneCount(sources.value, destinations.value, sourceRequired, destinationRequired);
        return Err(BatchCountMismatch(sources.value, destinations.value));
      }
      if realLineLen < realLen {
        return Err(RealLineTooSmall(realLen, realLineLen));
      }
      if complexLineLen < complexLen {
        return Err(ComplexLineTooSmall(complexLen, complexLineLen));
      }
      if scratch < scratchLen {
        return Err(ScratchTooSmall(scratchLen, scratch));
      }
      assert SameBatches(sources.value, sourceLen, destinationLen, sourceIsReal);
      return Ok(());
    }

    ghost predicate SameBatches(m: nat, sourceLen: nat, destinationLen: nat, sourceIsReal: bool) {
      if sourceIsReal then sourceLen == Times(m, realLen) && destinationLen == Times(m, complexLen)
      else sourceLen == Times(m, complexLen) && destinationLen == Times(m, realLen)
    }

    ghost predicate BuffersFit(sourceLen: nat, destinationLen: nat, sourceIsReal: bool, realLineLen: nat,
                               complexLineLen: nat, scratch: nat) {
      && (exists m: nat :: SameBatches(m, sourceLen, destinationLen, sourceIsReal))
      && realLen <= realLineLen && complexLen <= complexLineLen && scratchLen <= scratch
    }

    /** The value counts of packed rows, if both are addressable. */
    method CheckedInPlaceLengths(batches: usize) returns (r: Result<(usize, usize), R2cError>)
      requires Valid()
      ensures r.Ok? <==> LengthsFit(batches)
      ensures r.Ok? ==> r.value == (Times(batches, realLen), Times(batches, complexLen))
      ensures r.Err? ==> r == Err(LengthOverflow)
    {
      TimesComm(realLen, batches);
      TimesComm(complexLen, batches);
      var reals := CheckedMul(realLen, batches);
      if reals.None? {
        ByteCount(Times(batches, realLen), scalarSize);
        return Err(LengthOverflow);
      }
      var complexes := CheckedMul(complexLen, batches);
      if complexes.None? {
        ByteCount(Times(batches, complexLen), 2 * scalarSize);
        return Err(LengthOverflow);
      }
      if !Addressable(reals.value, scalarSize) || !Addressable(complexes.value, 2 * scalarSize) {
        return Err(LengthOverflow);
      }
      return Ok((reals.value, complexes.value));
    }

    ghost predicate LengthsFit(batches: nat) {
      Addressable(Times(batches, realLen), scalarSize) && Addressable(Times(batches, complexLen), 2 * scalarSize)
    }

    /** What an in-place operation demands before it changes anything. */
    ghost predicate Ready(packed: LocalR2cInPlaceArray, workspace: LocalR2cInPlaceWorkspace, expected: R2cState)
      reads packed, packed.storage
    {
      && packed.state == expected && packed.realLen == realLen && workspace.realLen == realLen
      && workspace.complexLen == complexLen
      && LengthsFit(packed.batchCount) && packed.storage.Length == 2 * Times(packed.batchCount, complexLen)
      && realLen <= workspace.realLine.Length && complexLen <= workspace.complexLine.Length
      && scratchLen <= workspace.scratchLen
      && (expected == ComplexOutput ==> EndpointsGood(packed.batchCount, packed.storage[..]))
    }

    ghost predicate EndpointsGood(batches: nat, storage: seq<real>) {
      forall b :: 0 <= b < batches ==> GoodRow(realLen, Pairs(storage), b)
    }

    /** The first check of an in-place operation that fails, and its error. */
    ghost predicate InPlaceError(packed: LocalR2cInPlaceArray, workspace: LocalR2cInPlaceWorkspace, expected: R2cState,
                                 error: R2cError)
      reads packed, packed.storage
    {
      if packed.state.Poisoned? then error == ArrayPoisoned
      else if packed.state != expected then error == WrongState
      else if packed.realLen != realLen then error == ArrayMismatch
      else if workspace.realLen != realLen || workspace.complexLen != complexLen then error == WorkspaceMismatch
      else if !LengthsFit(packed.batchCount) then error == LengthOverflow
      else if packed.storage.Length / 2 != Times(packed.batchCount, complexLen) then
        error == StorageLengthMismatch(Times(packed.batchCount, complexLen), packed.storage.Length / 2)
      else if workspace.realLine.Length < realLen then error == RealLineTooSmall(realLen, workspace.realLine.Length)
      else if workspace.complexLine.Length < complexLen then
        error == ComplexLineTooSmall(complexLen, workspace.complexLine.Length)
      else if workspace.scratchLen < scratchLen then error == ScratchTooSmall(scratchLen, workspace.scratchLen)
      else
        expected == ComplexOutput
        && FirstBadEndpoint(realLen, packed.batchCount, Pairs(packed.storage[..]), error)
    }

    /** Checks state, plan, workspace, lengths and endpoints, in that order, and changes nothing. The
        batch counts always agree here, because both follow from the array's own count. */
    method ValidateInPlace(packed: LocalR2cInPlaceArray, workspace: LocalR2cInPlaceWorkspace, expected: R2cState)
      returns (r: Result<usize, R2cError>)
      requires Valid() && !expected.Poisoned? && packed.storage.Length % 2 == 0 && packed.storage.Length <= USIZE_MAX
      requires workspace.realLine.Length <= USIZE_MAX && workspace.complexLine.Length <= USIZE_MAX
      ensures r.Ok? <==> Ready(packed, workspace, expected)
      ensures r.Ok? ==> r.value == packed.batchCount
      ensures r.Err? ==> InPlaceError(packed, workspace, expected, r.error)
    {
      hide GoodRow;
      hide FirstBadEndpoint;
      hide Pairs;
      var state := packed.EnsureState(expected);
      if state.Err? {
        return Err(state.error);
      }
      if packed.realLen != realLen {
        return Err(ArrayMismatch);
      }
      if workspace.realLen != realLen || workspace.complexLen != complexLen {
        return Err(WorkspaceMismatch);
      }
      var lengths := CheckedInPlaceLengths(packed.batchCount);
      if lengths.Err? {
        return Err(LengthOverflow);
      }
      var (reals, complexes) := lengths.value;
      if packed.storage.Length / 2 != complexes {
        return Err(StorageLengthMismatch(complexes, packed.storage.Length / 2));
      }
      assert SameBatches(packed.batchCount, reals, complexes, true);
      var buffers := ValidateLineBuffers(reals, complexes, true, workspace.realLine.Length,
                                         workspace.complexLine.Length, workspace.scratchLen);
      if buffers.Err? {
        WholeLines(packed.batchCount, realLen);
        WholeLines(packed.batchCount, complexLen);
        return Err(buffers.error);
      }
      if expected == ComplexOutput {
        var endpoints := ValidateEndpoints(realLen, packed.batchCount, Pairs(packed.storage[..]));
        if endpoints.Err? {
          return Err(endpoints.error);
        }
      }
      return Ok(packed.batchCount);
    }

    // ----- In place

    /** The array, its storage and the two workspace lines are different objects. */
    ghost predicate Separate(packed: LocalR2cInPlaceArray, workspace: LocalR2cInPlaceWorkspace) {
      && packed.storage != workspace.realLine
      && packed.storage.Length % 2 == 0 && packed.storage.Length <= USIZE_MAX
      && workspace.realLine.Length <= USIZE_MAX && workspace.complexLine.Length <= USIZE_MAX
    }

    /** The backend panics on real row `b`. */
    ghost predicate PanicsAt(signal: seq<real>, b: nat) {
      Times(b, realLen) + realLen <= |signal| && backend.forward(Row(signal, realLen, b)).ForwardPanic?
    }

    /** Transforms real rows to longer complex rows in the same allocation, from back to front. */
    method ForwardInPlace(packed: LocalR2cInPlaceArray, workspace: LocalR2cInPlaceWorkspace) returns (r: Outcome)
      requires Valid() && Separate(packed, workspace)
      modifies packed, packed.storage, workspace.realLine
      ensures r.Failed? <==> !old(Ready(packed, workspace, RealInput))
      ensures r.Failed? ==> old(InPlaceError(packed, workspace, RealInput, r.error))
      ensures r.Failed? ==> packed.state == old(packed.state) && packed.storage[..] == old(packed.storage[..])
      ensures r.Failed? ==> workspace.realLine[..] == old(workspace.realLine[..])
      ensures r.Finished? ==>
        packed.state == ComplexOutput && Times(packed.batchCount, realLen) <= packed.storage.Length
      ensures r.Finished? ==>
        ForwardDone(backend, realLen, packed.batchCount, old(packed.storage[..])[..Times(packed.batchCount, realLen)],
                    Pairs(packed.storage[..]))
      ensures r.BackendPanicked? ==> packed.state == Poisoned
      ensures r.BackendPanicked? ==> exists b: nat :: b < packed.batchCount && PanicsAt(old(packed.storage[..]), b)
      ensures realLen <= workspace.realLine.Length ==>
        workspace.realLine[realLen..] == old(workspace.realLine[realLen..])
    {
      hide Ready;
      var valid := ValidateInPlace(packed, workspace, RealInput);
      if valid.Err? {
        return Failed(valid.error);
      }
      ReadyFacts(packed, workspace, RealInput);
      var batches := valid.value;
      ghost var signal := packed.storage[..][..Times(batches, realLen)];
      packed.state := Poisoned;
      for b := batches downto 0
        invariant Times(b, realLen) <= |signal| && packed.storage[..Times(b, realLen)] == signal[..Times(b, realLen)]
        invariant forall j :: b <= j < batches ==> Packed(backend, realLen, j, signal, packed.storage[..])
        invariant packed.state == Poisoned && workspace.realLine[realLen..] == old(workspace.realLine[realLen..])
      {
        var panicked := ForwardRowInPlace(packed.storage, workspace.realLine, b, batches, signal);
        if panicked {
          RowOfPrefix(old(packed.storage[..]), realLen, b, Times(batches, realLen));
          assert PanicsAt(old(packed.storage[..]), b);
          return BackendPanicked;
        }
      }
      packed.state := ComplexOutput;
      AllPacked(backend, realLen, batches, signal, packed.storage[..]);
      return Finished;
    }

    lemma ReadyFacts(packed: LocalR2cInPlaceArray, workspace: LocalR2cInPlaceWorkspace, expected: R2cState)
      requires Valid() && Ready(packed, workspace, expected)
      ensures packed.storage.Length == 2 * Times(packed.batchCount, complexLen) ==
        Times(packed.batchCount, 2 * complexLen)
      ensures Times(packed.batchCount, realLen) <= packed.storage.Length
      ensures realLen <= workspace.realLine.Length && complexLen <= workspace.complexLine.Length
    {
      ComplexRowsAreLonger(realLen, packed.batchCount);
      TimesIs(packed.batchCount, complexLen);
      TimesIs(packed.batchCount, 2 * complexLen);
    }

    /** Row `b`: the real row is saved before the longer complex row covers it, and no row in front of it. */
    method ForwardRowInPlace(storage: array<real>, realLine: array<real>, b: nat, ghost batches: nat,
                             ghost signal: seq<real>) returns (panicked: bool)
      requires Valid() && storage != realLine && realLen <= realLine.Length && b < batches
      requires storage.Length == Times(batches, 2 * complexLen) && |signal| == Times(batches, realLen)
      requires Times(b + 1, realLen) <= storage.Length && Times(b + 1, realLen) <= |signal|
      requires storage[..Times(b + 1, realLen)] == signal[..Times(b + 1, realLen)]
      requires forall j :: b < j < batches ==> Packed(backend, realLen, j, signal, storage[..])
      modifies storage, realLine
      ensures panicked ==> PanicsAt(signal, b)
      ensures !panicked ==> Times(b, realLen) <= |signal| && storage[..Times(b, realLen)] == signal[..Times(b, realLen)]
      ensures !panicked ==> forall j :: b <= j < batches ==> Packed(backend, realLen, j, signal, storage[..])
      ensures realLine[realLen..] == old(realLine[realLen..])
    {
      hide Packed;
      RowInside(b, batches, realLen);
      RowInside(b, batches, 2 * complexLen);
      ComplexRowsAreLonger(realLen, b);
      SamePrefix(storage[..], signal, Times(b + 1, realLen), Times(b, realLen), realLen);
      CopyLine(storage, Times(b, realLen), realLine, realLen);
      assert realLine[..realLen] == Row(signal, realLen, b);
      ghost var was := storage[..];
      var out := backend.forward(realLine[..realLen]);
      assert |BinsOf(out)| == complexLen;
      WriteReals(storage, Times(b, 2 * complexLen), Scalars(BinsOf(out)));
      if out.ForwardPanic? {
        return true;
      }
      ForwardRowDone(b, batches, signal, was, storage[..], out.bins);
      return false;
    }

    /** One more row is packed, and the real rows in front are still there. */
    lemma ForwardRowDone(b: nat, batches: nat, signal: seq<real>, was: seq<real>, now: seq<real>, bins: Line)
      requires Valid() && b < batches && |was| == |now| == Times(batches, 2 * complexLen)
        && |signal| == Times(batches, realLen)
      requires Times(b + 1, realLen) <= |was| && Times(b + 1, realLen) <= |signal|
        && was[..Times(b + 1, realLen)] == signal[..Times(b + 1, realLen)]
      requires forall j :: b < j < batches ==> Packed(backend, realLen, j, signal, was)
      requires Times(b, 2 * complexLen) + 2 * complexLen <= |now| && |bins| == complexLen
      requires Times(b, realLen) + realLen <= |signal| && backend.forward(Row(signal, realLen, b)) == Spectrum(bins)
      requires now[Times(b, 2 * complexLen)..Times(b, 2 * complexLen) + 2 * complexLen] == Scalars(bins)
      requires now[..Times(b, 2 * complexLen)] == was[..Times(b, 2 * complexLen)]
      requires now[Times(b, 2 * complexLen) + 2 * complexLen..] == was[Times(b, 2 * complexLen) + 2 * complexLen..]
      ensures Times(b, realLen) <= |signal| && now[..Times(b, realLen)] == signal[..Times(b, realLen)]
      ensures forall j :: b <= j < batches ==> Packed(backend, realLen, j, signal, now)
    {
      hide Scalars;
      hide Pairs;
      RowInside(b, batches, realLen);
      RowInside(b, batches, 2 * complexLen);
      ComplexRowsAreLonger(realLen, b);
      SamePrefix(now, was, Times(b, 2 * complexLen), 0, Times(b, realLen));
      SamePrefix(was, signal, Times(b + 1, realLen), 0, Times(b, realLen));
      forall j | b <= j < batches ensures Packed(backend, realLen, j, signal, now) {
        if j == b {
          PairsOfScalars(bins);
        } else {
          PackedKept(backend, realLen, b, j, signal, was, now);
        }
      }
    }

    /** Transforms complex rows to shorter real rows in the same allocation, from front to back. */
    method ExecuteInPlaceInverse(packed: LocalR2cInPlaceArray, workspace: LocalR2cInPlaceWorkspace, normalize: bool)
      returns (r: Outcome)
      requires Valid() && Separate(packed, workspace)
      modifies packed, packed.storage, workspace.complexLine
      ensures !old(Ready(packed, workspace, ComplexOutput)) ==>
        r.Failed? && old(InPlaceError(packed, workspace, ComplexOutput, r.error))
      ensures !old(Ready(packed, workspace, ComplexOutput)) ==>
        packed.state == old(packed.state) && packed.storage[..] == old(packed.storage[..])
      ensures !old(Ready(packed, workspace, ComplexOutput)) ==>
        workspace.complexLine[..] == old(workspace.complexLine[..])
      ensures old(Ready(packed, workspace, ComplexOutput)) && !r.Finished? ==> packed.state == Poisoned
      ensures old(Ready(packed, workspace, ComplexOutput)) && !r.Finished? ==>
        exists b: nat :: StopsAt(Pairs(old(packed.storage[..])), b, r)
      ensures r.Finished? ==> packed.state == RealInput && Times(packed.batchCount, realLen) <= packed.storage.Length
      ensures r.Finished? ==>
        InverseDone(backend, realLen, packed.batchCount, normalize, Pairs(old(packed.storage[..])),
                    packed.storage[..Times(packed.batchCount, realLen)])
      ensures complexLen <= workspace.complexLine.Length ==>
        workspace.complexLine[complexLen..] == old(workspace.complexLine[complexLen..])
    {
      hide Ready;
      hide Pairs;
      var valid := ValidateInPlace(packed, workspace, ComplexOutput);
      if valid.Err? {
        return Failed(valid.error);
      }
      ReadyFacts(packed, workspace, ComplexOutput);
      var batches := valid.value;
      ghost var scalars := packed.storage[..];
      ghost var spectrum := Pairs(scalars);
      packed.state := Poisoned;
      for b := 0 to batches
        invariant Times(b, 2 * complexLen) <= |scalars|
          && packed.storage[Times(b, 2 * complexLen)..] == scalars[Times(b, 2 * complexLen)..]
        invariant forall j :: 0 <= j < b ==> Unpacked(backend, realLen, normalize, j, spectrum, packed.storage[..])
        invariant packed.state == Poisoned
          && workspace.complexLine[complexLen..] == old(workspace.complexLine[complexLen..])
      {
        r := InverseRowInPlace(packed.storage, workspace.complexLine, b, batches, normalize, scalars);
        if !r.Finished? {
          return r;
        }
      }
      packed.state := RealInput;
      AllUnpacked(backend, realLen, batches, normalize, spectrum, packed.storage[..]);
      assert packed.storage[..][..Times(batches, realLen)] == packed.storage[..Times(batches, realLen)];
      return Finished;
    }

    /** How a backend failure on `line`, row `b`, ends the call. */
    ghost predicate Stopped(line: Line, b: nat, r: Outcome) {
      match backend.inverse(line)
      case Signal(_) => false
      case EndpointRejected(first, _) => r == Failed(InvalidSpectrumEndpoint(b, if first then 0 else realLen / 2))
      case InversePanic(_) => r.BackendPanicked?
    }

    ghost predicate RowWorks(spectrum: Line, b: nat) {
      Times(b, complexLen) + complexLen <= |spectrum| && backend.inverse(Row(spectrum, complexLen, b)).Signal?
    }

    /** Row `b` is the first that the backend fails on, and its failure is the one reported. */
    ghost predicate StopsAt(spectrum: Line, b: nat, r: Outcome) {
      && Times(b, complexLen) + complexLen <= |spectrum| && Stopped(Row(spectrum, complexLen, b), b, r)
      && forall j :: 0 <= j < b ==> RowWorks(spectrum, j)
    }

    /** The backend's inverse of one line, written at `at` and scaled there. */
    method RestoreLine(line: Line, target: array<real>, at: nat, b: nat, normalize: bool)
      returns (r: Outcome, ghost values: seq<real>)
      requires Valid() && |line| == complexLen && at + realLen <= target.Length
      modifies target
      ensures target[..at] == old(target[..at]) && target[at + realLen..] == old(target[at + realLen..])
      ensures !r.Finished? ==> Stopped(line, b, r)
      ensures r.Finished? ==> |values| == realLen && backend.inverse(line) == Signal(values)
      ensures r.Finished? ==> target[at..at + realLen] == Rescaled(normalize, realLen, values)
    {
      hide Rescaled;
      var out := backend.inverse(line);
      values := ValuesOf(out);
      assert |values| == realLen;
      WriteReals(target, at, ValuesOf(out));
      if out.EndpointRejected? {
        r := Failed(InvalidSpectrumEndpoint(b, if out.first then 0 else complexLen - 1));
        return r, values;
      }
      if out.InversePanic? {
        return BackendPanicked, values;
      }
      if normalize {
        ScaleReals(target, at, realLen);
      }
      NoScale(realLen, values);
      return Finished, values;
    }

    /** Row `b`: the complex row is saved before the shorter real row covers the rows already read. */
    method InverseRowInPlace(storage: array<real>, complexLine: array<Complex>, b: nat, ghost batches: nat,
                             normalize: bool, ghost scalars: seq<real>)
      returns (r: Outcome)
      requires Valid() && complexLen <= complexLine.Length && b < batches
      requires storage.Length == |scalars| == Times(batches, 2 * complexLen) == 2 * Times(batches, complexLen)
      requires Times(b, 2 * complexLen) <= |scalars|
        && storage[Times(b, 2 * complexLen)..] == scalars[Times(b, 2 * complexLen)..]
      requires forall j :: 0 <= j < b ==> Unpacked(backend, realLen, normalize, j, Pairs(scalars), storage[..])
      modifies storage, complexLine
      ensures !r.Finished? ==> StopsAt(Pairs(scalars), b, r)
      ensures r.Finished? ==>
        Times(b + 1, 2 * complexLen) <= |scalars|
          && storage[Times(b + 1, 2 * complexLen)..] == scalars[Times(b + 1, 2 * complexLen)..]
      ensures r.Finished? ==> forall j :: 0 <= j <= b ==>
        Unpacked(backend, realLen, normalize, j, Pairs(scalars), storage[..])
      ensures complexLine[complexLen..] == old(complexLine[complexLen..])
    {
      hide Unpacked;
      hide Pairs;
      hide Rescaled;
      hide Stopped;
      hide StopsAt;
      hide ComplexLen;
      RowFits(b, batches, scalars);
      SameTail(storage[..], scalars, Times(b, 2 * complexLen), Times(b, 2 * complexLen), 2 * complexLen);
      var row := Pairs(storage[Times(b, 2 * complexLen)..Times(b, 2 * complexLen) + 2 * complexLen]);
      WriteBins(complexLine, 0, row);
      ghost var was := storage[..];
      assert complexLine[..complexLen] == complexLine[0..complexLen] == row;
      ghost var values;
      r, values := RestoreLine(complexLine[..complexLen], storage, Times(b, realLen), b, normalize);
      if !r.Finished? {
        Stops(Pairs(scalars), b, r, normalize, was);
        return r;
      }
      InverseRowDone(b, batches, normalize, scalars, was, storage[..], values);
      return Finished;
    }

    lemma RowFits(b: nat, batches: nat, scalars: seq<real>)
      requires Valid() && b < batches && |scalars| == Times(batches, 2 * complexLen) == 2 * Times(batches, complexLen)
      ensures Times(b, 2 * complexLen) + 2 * complexLen <= |scalars| && Times(b, realLen) + realLen <= |scalars|
      ensures Times(b, complexLen) + complexLen <= |Pairs(scalars)|
      ensures Row(Pairs(scalars), complexLen, b) == Pairs(Row(scalars, 2 * complexLen, b))
    {
      RowInside(b, batches, 2 * complexLen);
      RowInside(b, batches, complexLen);
      RowInside(b, b + 1, realLen);
      ComplexRowsAreLonger(realLen, b + 1);
      PairsOfRow(scalars, complexLen, b);
    }

    lemma Stops(spectrum: Line, b: nat, r: Outcome, normalize: bool, was: seq<real>)
      requires Valid() && Times(b, complexLen) + complexLen <= |spectrum| && Stopped(Row(spectrum, complexLen, b), b, r)
      requires forall j :: 0 <= j < b ==> Unpacked(backend, realLen, normalize, j, spectrum, was)
      ensures StopsAt(spectrum, b, r)
    {
      hide Stopped;
      forall j | 0 <= j < b ensures RowWorks(spectrum, j) {
        assert Unpacked(backend, realLen, normalize, j, spectrum, was);
      }
    }

    /** One more real row is in place, and the complex rows behind it are still there. */
    lemma InverseRowDone(b: nat, batches: nat, normalize: bool, scalars: seq<real>, was: seq<real>, now: seq<real>,
                         values: seq<real>)
      requires Valid() && b < batches
        && |was| == |now| == |scalars| == Times(batches, 2 * complexLen) == 2 * Times(batches, complexLen)
      requires Times(b, 2 * complexLen) <= |scalars|
        && was[Times(b, 2 * complexLen)..] == scalars[Times(b, 2 * complexLen)..]
      requires forall j :: 0 <= j < b ==> Unpacked(backend, realLen, normalize, j, Pairs(scalars), was)
      requires Times(b, complexLen) + complexLen <= |Pairs(scalars)|
      requires |values| == realLen && backend.inverse(Row(Pairs(scalars), complexLen, b)) == Signal(values)
      requires Times(b, realLen) + realLen <= |now| && Row(now, realLen, b) == Rescaled(normalize, realLen, values)
      requires now[..Times(b, realLen)] == was[..Times(b, realLen)]
        && now[Times(b, realLen) + realLen..] == was[Times(b, realLen) + realLen..]
      ensures Times(b + 1, 2 * complexLen) <= |scalars|
        && now[Times(b + 1, 2 * complexLen)..] == scalars[Times(b + 1, 2 * complexLen)..]
      ensures forall j :: 0 <= j <= b ==> Unpacked(backend, realLen, normalize, j, Pairs(scalars), now)
    {
      hide Pairs;
      hide Rescaled;
      RowInside(b, batches, 2 * complexLen);
      ComplexRowsAreLonger(realLen, b + 1);
      RowInside(b, b + 1, realLen);
      var next := Times(b + 1, 2 * complexLen);
      SameTail(was, now, Times(b, realLen) + realLen, next, |was| - next);
      SameTail(was, scalars, Times(b, 2 * complexLen), next, |was| - next);
      forall j | 0 <= j <= b ensures Unpacked(backend, realLen, normalize, j, Pairs(scalars), now) {
        if j < b {
          UnpackedKept(backend, realLen, normalize, b, j, Pairs(scalars), was, now);
        }
      }
    }

    // ----- Out of place

    /** Transforms every line of `src` to the same line of `dst`. */
    method Forward(src: array<real>, dst: array<Complex>, realLine: array<real>, scratch: usize) returns (r: Outcome)
      requires Valid() && src != realLine && src.Length <= USIZE_MAX && dst.Length <= USIZE_MAX
        && realLine.Length <= USIZE_MAX
      modifies dst, realLine
      ensures r.Failed? <==> !BuffersFit(src.Length, dst.Length, true, realLine.Length, complexLen, scratch)
      ensures r.Failed? ==> BufferError(src.Length, dst.Length, true, realLine.Length, complexLen, scratch, r.error)
      ensures r.Failed? ==> dst[..] == old(dst[..]) && realLine[..] == old(realLine[..])
      ensures r.Finished? ==> exists m: nat :: ForwardDone(backend, realLen, m, src[..], dst[..])
      ensures r.BackendPanicked? ==> exists b: nat :: PanicsAt(src[..], b)
      ensures realLen <= realLine.Length ==> realLine[realLen..] == old(realLine[realLen..])
    {
      hide ForwardRow;
      var valid := ValidateLineBuffers(src.Length, dst.Length, true, realLine.Length, complexLen, scratch);
      if valid.Err? {
        return Failed(valid.error);
      }
      var lines := src.Length / realLen;
      LineCount(src.Length, dst.Length, true);
      for b := 0 to lines
        invariant forall j :: 0 <= j < b ==> ForwardRow(backend, realLen, j, src[..], dst[..])
        invariant realLine[realLen..] == old(realLine[realLen..])
      {
        RowInside(b, lines, realLen);
        RowInside(b, lines, complexLen);
        CopyLine(src, Times(b, realLen), realLine, realLen);
        assert realLine[..realLen] == Row(src[..], realLen, b);
        var out := backend.forward(realLine[..realLen]);
        assert |BinsOf(out)| == complexLen;
        ghost var was := dst[..];
        WriteBins(dst, Times(b, complexLen), BinsOf(out));
        if out.ForwardPanic? {
          assert PanicsAt(src[..], b);
          return BackendPanicked;
        }
        forall j | 0 <= j <= b ensures ForwardRow(backend, realLen, j, src[..], dst[..]) {
          ForwardRowKept(src[..], was, dst[..], b, j, out.bins);
        }
      }
      assert ForwardDone(backend, realLen, lines, src[..], dst[..]);
      return Finished;
    }

    lemma ForwardRowKept(signal: seq<real>, was: Line, now: Line, b: nat, j: nat, bins: Line)
      requires Valid() && j <= b && |was| == |now| && Times(b, complexLen) + complexLen <= |now|
        && Times(b, realLen) + realLen <= |signal|
      requires |bins| == complexLen && now[Times(b, complexLen)..Times(b, complexLen) + complexLen] == bins
      requires backend.forward(Row(signal, realLen, b)) == Spectrum(bins)
      requires now[..Times(b, complexLen)] == was[..Times(b, complexLen)]
      requires j < b ==> ForwardRow(backend, realLen, j, signal, was)
      ensures ForwardRow(backend, realLen, j, signal, now)
    {
      if j < b {
        RowInside(j, b, complexLen);
        assert Row(now, complexLen, j) ==
          now[..Times(b, complexLen)][Times(j, complexLen)..Times(j, complexLen) + complexLen];
        assert Row(was, complexLen, j) ==
          was[..Times(b, complexLen)][Times(j, complexLen)..Times(j, complexLen) + complexLen];
      }
    }

    /** The common number of lines. */
    lemma LineCount(sourceLen: nat, destinationLen: nat, sourceIsReal: bool)
      requires Valid() && exists m: nat :: SameBatches(m, sourceLen, destinationLen, sourceIsReal)
      ensures SameBatches(sourceLen / (if sourceIsReal then realLen else complexLen), sourceLen, destinationLen,
                          sourceIsReal)
    {
      var m: nat :| SameBatches(m, sourceLen, destinationLen, sourceIsReal);
      var n := if sourceIsReal then realLen else complexLen;
      TimesIs(m, n);
      DivModUnique(sourceLen, m, n, 0);
    }

    /** Transforms every line of `src` to the same real line of `dst`. All endpoints are checked first. */
    method ExecuteInverse(src: array<Complex>, dst: array<real>, complexLine: array<Complex>, scratch: usize,
                          normalize: bool) returns (r: Outcome)
      requires Valid() && src != complexLine && src.Length <= USIZE_MAX && dst.Length <= USIZE_MAX
        && complexLine.Length <= USIZE_MAX
      modifies dst, complexLine
      ensures !InverseReady(src.Length, dst.Length, complexLine.Length, scratch, src[..]) ==>
        r.Failed? && if BuffersFit(src.Length, dst.Length, false, realLen, complexLine.Length, scratch)
                     then FirstBadEndpoint(realLen, src.Length / complexLen, src[..], r.error)
                     else BufferError(src.Length, dst.Length, false, realLen, complexLine.Length, scratch, r.error)
      ensures !InverseReady(src.Length, dst.Length, complexLine.Length, scratch, src[..]) ==>
        dst[..] == old(dst[..]) && complexLine[..] == old(complexLine[..])
      ensures r.Finished? ==> exists m: nat :: InverseDone(backend, realLen, m, normalize, src[..], dst[..])
      ensures InverseReady(src.Length, dst.Length, complexLine.Length, scratch, src[..]) && !r.Finished? ==>
        exists b: nat :: StopsAt(src[..], b, r)
      ensures complexLen <= complexLine.Length ==> complexLine[complexLen..] == old(complexLine[complexLen..])
    {
      hide InverseRow;
      hide GoodRow;
      hide StopsAt;
      var valid := ValidateLineBuffers(src.Length, dst.Length, false, realLen, complexLine.Length, scratch);
      if valid.Err? {
        return Failed(valid.error);
      }
      var lines := src.Length / complexLen;
      LineCount(src.Length, dst.Length, false);
      var endpoints := ValidateEndpoints(realLen, lines, src[..]);
      if endpoints.Err? {
        return Failed(endpoints.error);
      }
      for b := 0 to lines
        invariant forall j :: 0 <= j < b ==> InverseRow(backend, realLen, j, normalize, src[..], dst[..])
        invariant complexLine[complexLen..] == old(complexLine[complexLen..])
      {
        RowInside(b, lines, realLen);
        RowInside(b, lines, complexLen);
        r := InverseOne(src, dst, complexLine, b, normalize);
        if !r.Finished? {
          return r;
        }
      }
      assert InverseDone(backend, realLen, lines, normalize, src[..], dst[..]);
      return Finished;
    }

    ghost predicate InverseReady(sourceLen: nat, destinationLen: nat, complexLineLen: nat, scratch: nat, spectrum: Line)
      requires Valid()
    {
      && BuffersFit(sourceLen, destinationLen, false, realLen, complexLineLen, scratch)
      && forall b :: 0 <= b < sourceLen / complexLen ==> GoodRow(realLen, spectrum, b)
    }

    /** Line `b`. */
    method InverseOne(src: array<Complex>, dst: array<real>, complexLine: array<Complex>, b: nat, normalize: bool)
      returns (r: Outcome)
      requires Valid() && src != complexLine && complexLen <= complexLine.Length
      requires Times(b, complexLen) + complexLen <= src.Length && Times(b, realLen) + realLen <= dst.Length
      requires forall j :: 0 <= j < b ==> InverseRow(backend, realLen, j, normalize, src[..], dst[..])
      modifies dst, complexLine
      ensures !r.Finished? ==> StopsAt(src[..], b, r)
      ensures r.Finished? ==> forall j :: 0 <= j <= b ==> InverseRow(backend, realLen, j, normalize, src[..], dst[..])
      ensures complexLine[complexLen..] == old(complexLine[complexLen..])
    {
      hide InverseRow;
      hide Rescaled;
      hide Stopped;
      CopyLine(src, Times(b, complexLen), complexLine, complexLen);
      ghost var row, was := Row(src[..], complexLen, b), dst[..];
      assert complexLine[..complexLen] == row;
      ghost var values;
      r, values := RestoreLine(complexLine[..complexLen], dst, Times(b, realLen), b, normalize);
      if !r.Finished? {
        forall j | 0 <= j < b ensures RowWorks(src[..], j) {
          InverseRowWorks(src[..], j, normalize, was);
        }
        return r;
      }
      forall j | 0 <= j <= b ensures InverseRow(backend, realLen, j, normalize, src[..], dst[..]) {
        InverseRowKept(src[..], was, dst[..], b, j, normalize, values);
      }
      return Finished;
    }

    lemma InverseRowWorks(spectrum: Line, j: nat, normalize: bool, signal: seq<real>)
      requires Valid() && InverseRow(backend, realLen, j, normalize, spectrum, signal)
      ensures RowWorks(spectrum, j)
    {
    }

    lemma InverseRowKept(spectrum: Line, was: seq<real>, now: seq<real>, b: nat, j: nat, normalize: bool,
                         values: seq<real>)
      requires Valid() && j <= b && |was| == |now| && Times(b, complexLen) + complexLen <= |spectrum|
        && Times(b, realLen) + realLen <= |now|
      requires backend.inverse(Row(spectrum, complexLen, b)) == Signal(values)
        && Row(now, realLen, b) == Rescaled(normalize, realLen, values)
      requires now[..Times(b, realLen)] == was[..Times(b, realLen)]
      requires j < b ==> InverseRow(backend, realLen, j, normalize, spectrum, was)
      ensures InverseRow(backend, realLen, j, normalize, spectrum, now)
    {
      if j < b {
        RowInside(j, b, realLen);
        SamePrefix(was, now, Times(b, realLen), Times(j, realLen), realLen);
      }
    }
  }

  lemma WholeLines(m: nat, n: nat)
    requires 0 < n
    ensures Times(m, n) % n == 0 && Times(m, n) / n == m
  {
    TimesIs(m, n);
    DivModUnique(Times(m, n), m, n, 0);
  }

  /** The raw backward transform leaves its values as they are. */
  lemma NoScale(n: nat, values: seq<real>)
    requires 0 < n
    ensures Rescaled(false, n, values) == values
  {
  }

  /** More elements than there are lengths are more bytes than can be addressed. */
  lemma ByteCount(length: nat, size: nat)
    requires USIZE_MAX < length && 0 < size
    ensures !Addressable(length, size)
  {
    TimesIs(length, size);
    MulMono(1, size, length);
  }

  /** Different counts of source and destination lines are not the same number of lines. */
  lemma OneCount(m: nat, k: nat, a: nat, b: nat)
    requires m != k && 0 < a && 0 < b
    ensures forall c: nat :: Times(c, a) == Times(m, a) ==> Times(c, b) != Times(k, b)
  {
    forall c: nat | Times(c, a) == Times(m, a) ensures Times(c, b) != Times(k, b) {
      SameTimes(c, m, a);
      if Times(c, b) == Times(k, b) {
        SameTimes(c, k, b);
      }
    }
  }
}
