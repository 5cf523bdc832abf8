/** Building a multidimensional plan from a column-major shape and a list of axes. */
module C2cBuilds {
  import opened MachineInts
  import opened Nonlinear
  import opened MixedRadix
  import opened Counting
  import opened Complexes
  import opened C2cNd
  import opened C2cPlans

  const ISIZE_MAX: nat := 0x7FFF_FFFF_FFFF_FFFF

  /** The shape with its slowest axis first. */
  function Reversed(s: seq<nat>): (r: seq<nat>)
    ensures |r| == |s| && forall i :: 0 <= i < |s| ==> r[i] == s[|s| - 1 - i]
  {
    seq(|s|, i requires 0 <= i < |s| => s[|s| - 1 - i])
  }

  lemma {:induction false} ReversedProduct(s: seq<nat>)
    ensures Product(Reversed(s)) == Product(s)
  {
    if s == [] {
      assert Reversed(s) == [];
    } else {
      var last := |s| - 1;
      ReversedProduct(s[..last]);
      assert Reversed(s)[1..] == Reversed(s[..last]);
      assert Reversed(s) == Reversed(s)[0..];
      ProductTail(Reversed(s), 0);
    }
  }

  /** Below axis `a` lie the axes before it; they are the tail of the reversed shape. */
  lemma AxisProducts(shape: seq<nat>, a: nat)
    requires a < |shape| && Positive(shape)
    ensures var r, p := Reversed(shape), |shape| - 1 - a;
      && Positive(r) && Product(r) == Product(shape) && Product(r[p + 1..]) == Product(shape[..a])
      && 0 < Product(shape[..a]) && r[p] == shape[a]
      && Product(shape) == Times(Times(Product(r[..p]), shape[a]), Product(shape[..a]))
  {
    hide Product;
    var r, p := Reversed(shape), |shape| - 1 - a;
    ReversedProduct(shape);
    ReversedProduct(shape[..a]);
    assert r[p + 1..] == Reversed(shape[..a]);
    PositiveProduct(shape[..a]);
    assert r == r[..p + 1] + r[p + 1..];
    ProductConcat(r[..p + 1], r[p + 1..]);
    ProductFront(r, p);
  }

  lemma DivideTwice(outer: nat, len: nat, stride: nat)
    requires 0 < len && 0 < stride
    ensures Times(Times(outer, len), stride) / len / stride == outer
  {
    TimesIs(outer, len);
    TimesIs(Times(outer, len), stride);
    TimesIs(outer, stride);
    var rows := outer * stride;
    assert outer * len * stride == rows * len by {
      MulAssoc(outer, len, stride);
      MulAssoc(outer, stride, len);
    }
    DivideExact(rows, len);
    DivideExact(outer, stride);
  }

  lemma DivideExact(q: nat, m: nat)
    requires 0 < m
    ensures q * m / m == q
  {
    DivModUnique(q * m, q, m, 0);
  }

  ghost predicate Repeats(axes: seq<nat>, k: nat) {
    k < |axes| && axes[k] in axes[..k] && NoDuplicates(axes[..k])
  }

  /** The error that building a plan reports, in the order of the checks. */
  ghost predicate Rejected(shape: seq<nat>, axes: seq<nat>, elementSize: nat, error: PlanError) {
    if shape == [] || !Positive(shape) then error == InvalidShape
    else if Product(shape) > USIZE_MAX || Times(Product(shape), elementSize) > ISIZE_MAX
      then error == ElementCountOverflow
    else if exists k :: 0 <= k < |axes| && axes[k] >= |shape| then
      exists k: nat :: FirstOutOfRange(axes, |shape|, k) && error == AxisOutOfRange(axes[k], |shape|)
    else exists k: nat :: Repeats(axes, k) && error == DuplicateAxis(axes[k])
  }

  ghost predicate FirstOutOfRange(axes: seq<nat>, rank: nat, k: nat) {
    k < |axes| && axes[k] >= rank && forall j :: 0 <= j < k ==> axes[j] < rank
  }

  ghost predicate Accepted(shape: seq<nat>, axes: seq<nat>, elementSize: nat) {
    && shape != [] && Positive(shape) && Product(shape) <= USIZE_MAX && Times(Product(shape), elementSize) <= ISIZE_MAX
    && (forall k :: 0 <= k < |axes| ==> axes[k] < |shape|) && NoDuplicates(axes)
  }

  /** The length of an array of this shape. */
  method ValidateShape(shape: seq<usize>, elementSize: usize) returns (r: Result<usize, PlanError>)
    requires 0 < elementSize
    ensures r == if shape == [] || !Positive(shape) then Err(InvalidShape)
                 else if Product(shape) > USIZE_MAX || Times(Product(shape), elementSize) > ISIZE_MAX
                   then Err(ElementCountOverflow)
                 else Ok(Product(shape))
  {
    if shape == [] || 0 in shape {
      return Err(InvalidShape);
    }
    var total: usize := 1;
    for k := 0 to |shape|
      invariant total == Product(shape[..k])
    {
      assert shape[..k + 1][..k] == shape[..k];
      var next := CheckedMul(total, shape[k]);
      if next.None? {
        TailProductBound(shape, k + 1);
        return Err(ElementCountOverflow);
      }
      total := next.value;
    }
    assert shape[..|shape|] == shape;
    var bytes := CheckedMul(total, elementSize);
    if bytes.None? || bytes.value > ISIZE_MAX {
      return Err(ElementCountOverflow);
    }
    return Ok(total);
  }

  method ValidateAxes(rank: usize, axes: seq<usize>) returns (r: Result<(), PlanError>)
    ensures r.Ok? <==> (forall k :: 0 <= k < |axes| ==> axes[k] < rank) && NoDuplicates(axes)
    ensures r.Err? && (exists k :: 0 <= k < |axes| && axes[k] >= rank) ==>
      exists k: nat :: FirstOutOfRange(axes, rank, k) && r.error == AxisOutOfRange(axes[k], rank)
    ensures r.Err? && (forall k :: 0 <= k < |axes| ==> axes[k] < rank) ==>
      exists k: nat :: Repeats(axes, k) && r.error == DuplicateAxis(axes[k])
  {
    for k := 0 to |axes|
      invariant forall j :: 0 <= j < k ==> axes[j] < rank
    {
      if axes[k] >= rank {
        assert FirstOutOfRange(axes, rank, k);
        return Err(AxisOutOfRange(axes[k], rank));
      }
    }
    for k := 0 to |axes|
      invariant NoDuplicates(axes[..k])
    {
      if axes[k] in axes[..k] {
        assert Repeats(axes, k);
        return Err(DuplicateAxis(axes[k]));
      }
    }
    assert axes[..|axes|] == axes;
    return Ok(());
  }

  /** The one-dimensional plans: for each length a kernel and its inverse, if the backend can build them. */
  datatype LineKernels = LineKernels(available: nat -> bool, forward: nat -> seq<Line>, inverse: nat -> seq<Line>) {
    ghost predicate Valid() {
      forall n: nat {:trigger forward(n)} {:trigger inverse(n)} :: 0 < n && available(n) ==>
        Undoes(inverse(n), forward(n), n)
    }
  }

  /** What axis `a` of a column-major shape becomes. */
  ghost predicate Built(shape: seq<nat>, a: nat, lines: LineKernels, axis: AxisPlan) {
    && a < |shape| && axis.position == |shape| - 1 - a && axis.Valid(Reversed(shape))
    && axis.kernels == AxisKernels(|shape| - 1 - a, lines.forward(shape[a]), lines.inverse(shape[a]))
  }

  method BuildAxis(shape: seq<usize>, totalLen: usize, a: usize, lines: LineKernels) returns (axis: AxisPlan)
    requires a < |shape| && Positive(shape) && totalLen == Product(shape) && lines.Valid() && lines.available(shape[a])
    ensures fresh(axis) && fresh(axis.lineIn) && fresh(axis.lineOut) && Built(shape, a, lines, axis)
  {
    hide Product;
    hide Undoes;
    AxisProducts(shape, a);
    TailProductBound(shape, a);
    DivideTwice(Product(Reversed(shape)[..|shape| - 1 - a]), shape[a], Product(shape[..a]));
    assert Undoes(lines.inverse(shape[a]), lines.forward(shape[a]), shape[a]);
    var len := shape[a];
    var stride: usize := Product(shape[..a]);
    var outer: usize := totalLen / len / stride;
    axis := new AxisPlan(|shape| - 1 - a, len, stride, outer,
                         AxisKernels(|shape| - 1 - a, lines.forward(len), lines.inverse(len)));
  }

  ghost predicate AllAvailable(shape: seq<nat>, axes: seq<nat>, lines: LineKernels)
    requires forall k :: 0 <= k < |axes| ==> axes[k] < |shape|
  {
    forall k :: 0 <= k < |axes| ==> lines.available(shape[axes[k]])
  }

  /** The first listed axis whose one-dimensional plan cannot be built. */
  ghost predicate FirstFailed(shape: seq<nat>, axes: seq<nat>, lines: LineKernels, k: nat)
    requires forall j :: 0 <= j < |axes| ==> axes[j] < |shape|
  {
    k < |axes| && !lines.available(shape[axes[k]]) && forall j :: 0 <= j < k ==> lines.available(shape[axes[j]])
  }

  /** Validates shape and axes, then builds one pass for each axis, in the order given. */
  method NewColMajor(shape: seq<usize>, axes: seq<usize>, elementSize: usize, lines: LineKernels)
    returns (r: Result<LocalC2cNdPlan, PlanError>)
    requires 0 < elementSize && |shape| <= USIZE_MAX && lines.Valid()
    ensures r.Ok? <==> Accepted(shape, axes, elementSize) && AllAvailable(shape, axes, lines)
    ensures r.Err? && !Accepted(shape, axes, elementSize) ==> Rejected(shape, axes, elementSize, r.error)
    ensures r.Err? && Accepted(shape, axes, elementSize) ==>
      exists k: nat :: FirstFailed(shape, axes, lines, k) && r.error == LineFailed(shape[axes[k]])
    ensures r.Ok? ==> (
      && r.value.Valid() && r.value.shape == Reversed(shape) && |r.value.axes| == |axes|
      && (forall t :: 0 <= t < |axes| ==> Built(shape, axes[t], lines, r.value.axes[t])))
  {
    var total := ValidateShape(shape, elementSize);
    if total.Err? {
      return Err(total.error);
    }
    var checked := ValidateAxes(|shape|, axes);
    if checked.Err? {
      return Err(checked.error);
    }
    var plans: seq<AxisPlan> := [];
    for t := 0 to |axes|
      invariant |plans| == t && forall u :: 0 <= u < t ==>
        Built(shape, axes[u], lines, plans[u]) && lines.available(shape[axes[u]])
    {
      if !lines.available(shape[axes[t]]) {
        assert FirstFailed(shape, axes, lines, t);
        return Err(LineFailed(shape[axes[t]]));
      }
      var plan := BuildAxis(shape, total.value, axes[t], lines);
      plans := plans + [plan];
    }
    var plan := new LocalC2cNdPlan(Reversed(shape), total.value, plans);
    BuiltIsValid(shape, axes, lines, plan);
    return Ok(plan);
  }

  lemma BuiltIsValid(shape: seq<nat>, axes: seq<nat>, lines: LineKernels, plan: LocalC2cNdPlan)
    requires plan.shape == Reversed(shape) && plan.totalLen == Product(shape) && |plan.axes| == |axes|
      && NoDuplicates(axes)
    requires forall t :: 0 <= t < |axes| ==> Built(shape, axes[t], lines, plan.axes[t])
    ensures plan.Valid()
  {
    ReversedProduct(shape);
    var kernels := KernelsOf(plan.axes);
    forall t | 0 <= t < |axes| ensures plan.axes[t].Valid(plan.shape) && AxisFits(plan.shape, kernels[t]) {
      assert Built(shape, axes[t], lines, plan.axes[t]);
    }
    forall t, u | 0 <= t < u < |axes| ensures kernels[t].position != kernels[u].position {
      assert Built(shape, axes[t], lines, plan.axes[t]) && Built(shape, axes[u], lines, plan.axes[u]);
    }
  }
}
