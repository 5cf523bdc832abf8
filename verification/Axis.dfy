/** Axis permutations between logical and memory order. */
module Axis {
  import opened MachineInts
  import opened MixedRadix
  import opened Counting

  datatype AxisError = OutOfBounds(axis: nat, dimensions: nat) | Duplicate(axis: nat)

  datatype AxisPermutation = AxisPermutation(axes: seq<nat>, logicalToMemory: seq<nat>) {
    /** `axes` and `logicalToMemory` are mutually inverse on `0..n`. */
    ghost predicate Valid(n: nat) {
      && |axes| == n && |logicalToMemory| == n
      && (forall p :: 0 <= p < n ==> axes[p] < n && logicalToMemory[axes[p]] == p)
      && (forall a :: 0 <= a < n ==> logicalToMemory[a] < n && axes[logicalToMemory[a]] == a)
    }

    /** Reorders logical-axis values into memory order. */
    function Permute<T>(logical: seq<T>): (memory: seq<T>)
      requires forall p :: 0 <= p < |axes| ==> axes[p] < |logical|
      ensures |memory| == |axes|
    {
      seq(|axes|, p requires 0 <= p < |axes| => logical[axes[p]])
    }

    /** Reorders memory-axis values back into logical order. */
    function Unpermute<T>(memory: seq<T>): (logical: seq<T>)
      requires forall a :: 0 <= a < |logicalToMemory| ==> logicalToMemory[a] < |memory|
      ensures |logical| == |logicalToMemory|
    {
      seq(|logicalToMemory|, a requires 0 <= a < |logicalToMemory| => memory[logicalToMemory[a]])
    }
  }

  ghost predicate DistinctAxes(axes: seq<nat>, dimensions: nat) {
    NoDuplicates(axes) && forall p :: 0 <= p < |axes| ==> axes[p] < dimensions
  }

  /** The error the validation loop reports: the first axis that is out of range or repeats. */
  ghost predicate FirstBadAxis(axes: seq<nat>, dimensions: nat, k: nat, error: AxisError) {
    && k < |axes|
    && DistinctAxes(axes[..k], dimensions)
    && error == (if axes[k] >= dimensions then OutOfBounds(axes[k], dimensions) else Duplicate(axes[k]))
    && (axes[k] < dimensions ==> axes[k] in axes[..k])
  }

  /** The validation loop shared by permutations and decompositions. */
  method CheckAxes(axes: seq<usize>, dimensions: usize) returns (r: Result<(), AxisError>)
    ensures r.Ok? <==> DistinctAxes(axes, dimensions)
    ensures r.Err? ==> exists k :: FirstBadAxis(axes, dimensions, k, r.error)
  {
    var seen := new bool[dimensions](_ => false);
    for p := 0 to |axes|
      invariant DistinctAxes(axes[..p], dimensions)
      invariant forall a :: 0 <= a < dimensions ==> (seen[a] <==> a in axes[..p])
    {
      assert axes[..p + 1] == axes[..p] + [axes[p]];
      if axes[p] >= dimensions {
        assert FirstBadAxis(axes, dimensions, p, OutOfBounds(axes[p], dimensions));
        return Err(OutOfBounds(axes[p], dimensions));
      }
      if seen[axes[p]] {
        assert FirstBadAxis(axes, dimensions, p, Duplicate(axes[p]));
        return Err(Duplicate(axes[p]));
      }
      seen[axes[p]] := true;
    }
    assert axes[..|axes|] == axes;
    return Ok(());
  }

  /** Accepts exactly the permutations of `0..|axes|`, and builds their inverse. */
  method NewPermutation(axes: seq<usize>) returns (r: Result<AxisPermutation, AxisError>)
    requires |axes| <= USIZE_MAX
    ensures r.Ok? <==> DistinctAxes(axes, |axes|)
    ensures r.Ok? ==> r.value.axes == axes && r.value.Valid(|axes|)
    ensures r.Err? ==> exists k :: FirstBadAxis(axes, |axes|, k, r.error)
  {
    var n := |axes|;
    var checked := CheckAxes(axes, n);
    if checked.Err? {
      return Err(checked.error);
    }
    var logicalToMemory := new nat[n](_ => 0);
    for p := 0 to n
      invariant forall q :: 0 <= q < p ==> logicalToMemory[axes[q]] == q
    {
      logicalToMemory[axes[p]] := p;
    }
    Pigeonhole(axes, n);
    forall a | 0 <= a < n
      ensures logicalToMemory[a] < n && axes[logicalToMemory[a]] == a
    {
      assert a in axes;
      var q :| 0 <= q < n && axes[q] == a;
    }
    return Ok(AxisPermutation(axes, logicalToMemory[..]));
  }

  lemma PermuteRoundTrip<T>(p: AxisPermutation, logical: seq<T>)
    requires p.Valid(|logical|)
    ensures p.Unpermute(p.Permute(logical)) == logical
    ensures p.Permute(p.Unpermute(logical)) == logical
  {
  }

  /** Reordering the extents of a box does not change its size. */
  lemma {:induction false} PermutedProduct(p: AxisPermutation, shape: seq<nat>)
    requires p.Valid(|shape|)
    ensures Product(p.Permute(shape)) == Product(shape)
    decreases |shape|
  {
    if shape == [] {
      assert p.Permute(shape) == [];
    } else {
      var n := |shape| - 1;
      var m := p.logicalToMemory[n];
      var memory := p.Permute(shape);
      var p' := WithoutLastAxis(p, n + 1);
      PermutedProduct(p', shape[..n]);
      PermuteWithoutLast(p, shape);
      ProductRemove(memory, m);
    }
  }

  /** Drops the last logical axis from a permutation. */
  ghost function WithoutLastAxis(p: AxisPermutation, n: nat): (r: AxisPermutation)
    requires 0 < n && p.Valid(n)
    ensures r.Valid(n - 1)
    ensures var m := p.logicalToMemory[n - 1]; r.axes == p.axes[..m] + p.axes[m + 1..]
  {
    var m := p.logicalToMemory[n - 1];
    var inverse := seq(n - 1, a requires 0 <= a < n - 1 =>
      if p.logicalToMemory[a] < m then p.logicalToMemory[a] else p.logicalToMemory[a] - 1);
    assert forall a :: 0 <= a < n - 1 ==> p.logicalToMemory[a] != m;
    AxisPermutation(p.axes[..m] + p.axes[m + 1..], inverse)
  }

  lemma PermuteWithoutLast<T>(p: AxisPermutation, s: seq<T>)
    requires s != [] && p.Valid(|s|)
    ensures var m := p.logicalToMemory[|s| - 1];
      WithoutLastAxis(p, |s|).Permute(s[..|s| - 1]) == p.Permute(s)[..m] + p.Permute(s)[m + 1..]
  {
  }

  lemma PermuteUpdate<T>(p: AxisPermutation, s: seq<T>, a: nat, v: T)
    requires p.Valid(|s|) && a < |s|
    ensures p.Permute(s[a := v]) == p.Permute(s)[p.logicalToMemory[a] := v]
  {
  }

  /** `stride[a]` is the memory stride of logical axis `a` in an array of extents `memory`. */
  ghost predicate StridesOf(p: AxisPermutation, memory: seq<nat>, stride: seq<nat>) {
    && p.Valid(|memory|) && |stride| == |memory|
    && forall q :: 0 <= q < |memory| ==> stride[p.axes[q]] == Product(memory[q + 1..])
  }

  /** The memory offset of a logical index is the dot product with the axis strides. */
  lemma StridedOffset(p: AxisPermutation, memory: seq<nat>, stride: seq<nat>, index: seq<nat>)
    requires StridesOf(p, memory, stride) && |index| == |memory|
    ensures Linear(memory, p.Permute(index)) == Dot(stride, index)
  {
    StridedPrefix(p, memory, stride, index, |index|);
  }

  lemma {:induction false} StridedPrefix(p: AxisPermutation, memory: seq<nat>, stride: seq<nat>, index: seq<nat>,
                                         k: nat)
    requires StridesOf(p, memory, stride) && |index| == |memory|
    requires k <= |index| && forall a :: k <= a < |index| ==> index[a] == 0
    ensures Linear(memory, p.Permute(index)) == Dot(stride, index)
    decreases k
  {
    if k == 0 {
      LinearZeros(memory, p.Permute(index));
      DotZeros(stride, index);
    } else {
      var a, v := k - 1, index[k - 1];
      var base := index[a := 0];
      assert index == base[a := v];
      StridedPrefix(p, memory, stride, base, a);
      PermuteUpdate(p, base, a, v);
      LinearSet(memory, p.Permute(base), p.logicalToMemory[a], v);
      DotUpdate(stride, base, a, v);
    }
  }
}
