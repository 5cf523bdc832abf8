/** The in-place and the out-of-place real transforms, run on the same values. */
module R2cForms {
  import opened MachineInts
  import opened Nonlinear
  import opened Complexes
  import opened R2cRows
  import opened R2cPlans

  /** A finished forward transform had no panicking row. */
  lemma NoPanic(plan: LocalR2cPlan, m: nat, signal: seq<real>, spectrum: Line, b: nat)
    requires plan.Valid() && ForwardDone(plan.backend, plan.realLen, m, signal, spectrum)
    ensures !plan.PanicsAt(signal, b)
  {
    if Times(b, plan.realLen) + plan.realLen <= |signal| {
      RowNumber(b, m, plan.realLen, |signal|);
      assert ForwardRow(plan.backend, plan.realLen, b, signal, spectrum);
    }
  }

  lemma RowNumber(b: nat, m: nat, n: nat, total: nat)
    requires 0 < n && total == Times(m, n) && Times(b, n) + n <= total
    ensures b < m
  {
    if m <= b {
      TimesMono(m, b, n, n);
    }
  }

  /** Both forward forms on equal values. If both accept their buffers they end the same way, and a finished
      pair leaves equal spectra. */
  method ForwardBothWays(plan: LocalR2cPlan, packed: LocalR2cInPlaceArray, workspace: LocalR2cInPlaceWorkspace,
                         src: array<real>, dst: array<Complex>, realLine: array<real>, scratch: usize)
    returns (inPlace: Outcome, outOfPlace: Outcome)
    requires plan.Valid() && plan.Separate(packed, workspace)
    requires src != realLine && src != packed.storage && src != workspace.realLine && realLine != packed.storage
      && dst != workspace.complexLine
    requires src.Length <= USIZE_MAX && dst.Length <= USIZE_MAX && realLine.Length <= USIZE_MAX
    requires src.Length == Times(packed.batchCount, plan.realLen) <= packed.storage.Length
      && src[..] == packed.storage[..][..src.Length]
    modifies packed, packed.storage, workspace.realLine, dst, realLine
    ensures !inPlace.Failed? && !outOfPlace.Failed? ==> inPlace == outOfPlace
    ensures inPlace.Finished? && outOfPlace.Finished? ==> Pairs(packed.storage[..]) == dst[..]
  {
    hide LocalR2cPlan.Ready;
    hide LocalR2cPlan.BuffersFit;
    hide LocalR2cPlan.PanicsAt;
    hide ForwardDone;
    hide Pairs;
    ghost var start, signal := packed.storage[..], src[..];
    outOfPlace := plan.Forward(src, dst, realLine, scratch);
    assert packed.storage[..] == start;
    inPlace := plan.ForwardInPlace(packed, workspace);
    SameForwardOutcome(plan, packed.batchCount, signal, start, inPlace, outOfPlace, Pairs(packed.storage[..]), dst[..]);
  }

  lemma SameForwardOutcome(plan: LocalR2cPlan, m: nat, signal: seq<real>, start: seq<real>, inPlace: Outcome,
                           outOfPlace: Outcome, packed: Line, dst: Line)
    requires plan.Valid() && |signal| == Times(m, plan.realLen) <= |start| && signal == start[..|signal|]
    requires inPlace.Finished? ==> ForwardDone(plan.backend, plan.realLen, m, signal, packed)
    requires inPlace.BackendPanicked? ==> exists b: nat :: b < m && plan.PanicsAt(start, b)
    requires outOfPlace.Finished? ==> exists k: nat :: ForwardDone(plan.backend, plan.realLen, k, signal, dst)
    requires outOfPlace.BackendPanicked? ==> exists b: nat :: plan.PanicsAt(signal, b)
    ensures !inPlace.Failed? && !outOfPlace.Failed? ==> inPlace == outOfPlace
    ensures inPlace.Finished? && outOfPlace.Finished? ==> packed == dst
  {
    hide ForwardDone;
    if inPlace.Finished? && outOfPlace.Finished? {
      var k: nat :| ForwardDone(plan.backend, plan.realLen, k, signal, dst);
      ForwardFormsAgree(plan.backend, plan.realLen, m, k, signal, packed, dst);
    } else if inPlace.Finished? && outOfPlace.BackendPanicked? {
      var b: nat :| plan.PanicsAt(signal, b);
      NoPanic(plan, m, signal, packed, b);
    } else if inPlace.BackendPanicked? && outOfPlace.Finished? {
      var k: nat :| ForwardDone(plan.backend, plan.realLen, k, signal, dst);
      var b: nat :| b < m && plan.PanicsAt(start, b);
      RowInside(b, m, plan.realLen);
      RowOfPrefix(start, plan.realLen, b, |signal|);
      assert plan.PanicsAt(signal, b);
      NoPanic(plan, k, signal, dst, b);
    }
  }

  /** The first failing row, and so the outcome, is determined by the spectrum. */
  lemma SameStop(plan: LocalR2cPlan, spectrum: Line, b: nat, r: Outcome, c: nat, s: Outcome)
    requires plan.Valid() && plan.StopsAt(spectrum, b, r) && plan.StopsAt(spectrum, c, s)
    ensures r == s
  {
    FirstStop(plan, spectrum, b, r, c);
    FirstStop(plan, spectrum, c, s, b);
    assert b == c;
  }

  lemma FirstStop(plan: LocalR2cPlan, spectrum: Line, b: nat, r: Outcome, c: nat)
    requires plan.Valid() && plan.StopsAt(spectrum, b, r)
    ensures !plan.RowWorks(spectrum, b) && (c < b ==> plan.RowWorks(spectrum, c))
  {
  }

  /** A finished inverse had no failing row. */
  lemma NoStop(plan: LocalR2cPlan, m: nat, normalize: bool, spectrum: Line, signal: seq<real>, b: nat, r: Outcome)
    requires plan.Valid() && InverseDone(plan.backend, plan.realLen, m, normalize, spectrum, signal)
    ensures !plan.StopsAt(spectrum, b, r)
  {
    if Times(b, plan.complexLen) + plan.complexLen <= |spectrum| {
      RowNumber(b, m, plan.complexLen, |spectrum|);
      assert InverseRow(plan.backend, plan.realLen, b, normalize, spectrum, signal);
    }
  }

  /** How a call on this spectrum can end once its buffers are accepted. */
  ghost predicate InverseEnds(plan: LocalR2cPlan, normalize: bool, spectrum: Line, r: Outcome, signal: seq<real>) {
    if r.Finished? then exists m: nat :: InverseDone(plan.backend, plan.realLen, m, normalize, spectrum, signal)
    else exists b: nat :: plan.StopsAt(spectrum, b, r)
  }

  lemma SameInverseOutcome(plan: LocalR2cPlan, normalize: bool, spectrum: Line, r: Outcome, left: seq<real>, s: Outcome,
                           right: seq<real>)
    requires plan.Valid() && InverseEnds(plan, normalize, spectrum, r, left)
      && InverseEnds(plan, normalize, spectrum, s, right)
    ensures r == s && (r.Finished? ==> left == right)
  {
    hide InverseDone;
    hide LocalR2cPlan.StopsAt;
    if r.Finished? {
      var m: nat :| InverseDone(plan.backend, plan.realLen, m, normalize, spectrum, left);
      if s.Finished? {
        var k: nat :| InverseDone(plan.backend, plan.realLen, k, normalize, spectrum, right);
        InverseFormsAgree(plan.backend, plan.realLen, m, k, normalize, spectrum, left, right);
      } else {
        var c: nat :| plan.StopsAt(spectrum, c, s);
        NoStop(plan, m, normalize, spectrum, left, c, s);
      }
    } else {
      var b: nat :| plan.StopsAt(spectrum, b, r);
      if s.Finished? {
        var k: nat :| InverseDone(plan.backend, plan.realLen, k, normalize, spectrum, right);
        NoStop(plan, k, normalize, spectrum, right, b, r);
      } else {
        var c: nat :| plan.StopsAt(spectrum, c, s);
        SameStop(plan, spectrum, b, r, c, s);
      }
    }
  }

  /** Both inverse forms, normalized or not, on equal spectra. If both accept their buffers and endpoints they
      end the same way, with the same error at the same row, and a finished pair leaves equal signals. */
  method InverseBothWays(plan: LocalR2cPlan, packed: LocalR2cInPlaceArray, workspace: LocalR2cInPlaceWorkspace,
                         src: array<Complex>, dst: array<real>, complexLine: array<Complex>, scratch: usize,
                         normalize: bool)
    returns (inPlace: Outcome, outOfPlace: Outcome)
    requires plan.Valid() && plan.Separate(packed, workspace)
    requires src != complexLine && src != workspace.complexLine && dst != packed.storage && dst != workspace.realLine
    requires src.Length <= USIZE_MAX && dst.Length <= USIZE_MAX && complexLine.Length <= USIZE_MAX
    requires src[..] == Pairs(packed.storage[..])
    modifies packed, packed.storage, workspace.complexLine, dst, complexLine
    ensures
      (old(plan.Ready(packed, workspace, ComplexOutput))
       && plan.InverseReady(src.Length, dst.Length, complexLine.Length, scratch, old(src[..]))) ==>
        inPlace == outOfPlace
    ensures
      (old(plan.Ready(packed, workspace, ComplexOutput))
       && plan.InverseReady(src.Length, dst.Length, complexLine.Length, scratch, old(src[..])) && inPlace.Finished?) ==>
      Times(packed.batchCount, plan.realLen) <= packed.storage.Length
        && packed.storage[..Times(packed.batchCount, plan.realLen)] == dst[..]
  {
    hide LocalR2cPlan.Ready;
    hide LocalR2cPlan.InverseReady;
    hide LocalR2cPlan.StopsAt;
    hide InverseDone;
    hide Pairs;
    ghost var spectrum := src[..];
    ghost var ready := plan.Ready(packed, workspace, ComplexOutput);
    ghost var fits := plan.InverseReady(src.Length, dst.Length, complexLine.Length, scratch, spectrum);
    outOfPlace := plan.ExecuteInverse(src, dst, complexLine, scratch, normalize);
    ghost var right := dst[..];
    assert plan.Ready(packed, workspace, ComplexOutput) == ready;
    inPlace := plan.ExecuteInPlaceInverse(packed, workspace, normalize);
    if ready && fits {
      ghost var left := if inPlace.Finished? then packed.storage[..Times(packed.batchCount, plan.realLen)] else [];
      SameInverseOutcome(plan, normalize, spectrum, inPlace, left, outOfPlace, right);
    }
  }
}
