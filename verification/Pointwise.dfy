/** Pointwise operations on arrays of one layout, with singleton extra axes broadcast. */
module Pointwises {
  // A callback may keep state, so results are stated as a fold: the callback runs once for each output
  // position, in storage order, on fully expanded inputs.

  import opened MachineInts
  import opened Nonlinear
  import opened MixedRadix
  import opened Broadcasts

  /** A spatial layout, up to equality, and its local element count. */
  datatype Layout = Layout(id: nat, spatial: usize)

  /** A view of an array: extra groups of `spatial` elements. */
  datatype View<A> = View(layout: Layout, extra: seq<usize>, data: array<A>) {
    ghost predicate Valid() {
      Product(extra) <= USIZE_MAX && data.Length == Times(Product(extra), layout.spatial) && data.Length <= USIZE_MAX
    }
  }

  ghost predicate Fits<A>(v: View<A>, layout: Layout, out: seq<nat>) {
    v.layout == layout && Broadcastable(v.extra, out)
  }

  /** The error for one input that does not fit. */
  ghost predicate InputError<A>(v: View<A>, layout: Layout, out: seq<nat>, error: PointwiseError) {
    if v.layout != layout then error == IncompatiblePencils else ExtentsError(v.extra, out, error)
  }

  /** The error for two inputs: all layouts are compared before any extents, the left extents before the right ones. */
  ghost predicate TwoInputsError<A, B>(left: View<A>, right: View<B>, layout: Layout, out: seq<nat>,
                                       error: PointwiseError) {
    if left.layout != right.layout || left.layout != layout then error == IncompatiblePencils
    else if !Broadcastable(left.extra, out) then ExtentsError(left.extra, out, error)
    else ExtentsError(right.extra, out, error)
  }

  // ----- Expanded inputs

  ghost predicate Expandable<A>(data: seq<A>, dims: seq<nat>, out: seq<nat>, spatial: nat) {
    Broadcastable(dims, out) && |data| == Times(Product(dims), spatial)
  }

  /** Element `i` of the input expanded to the output's extra shape. */
  ghost function ExpandedAt<A>(data: seq<A>, dims: seq<nat>, out: seq<nat>, spatial: nat, i: nat): A
    requires Expandable(data, dims, out, spatial) && i < Times(Product(out), spatial)
  {
    TimesSplit(i, Product(out), spatial);
    SourceInBounds(dims, out, i / spatial);
    TimesRow(SourceGroup(dims, out, i / spatial), Product(dims), spatial, i % spatial);
    data[Times(SourceGroup(dims, out, i / spatial), spatial) + i % spatial]
  }

  ghost function Expanded<A>(data: seq<A>, dims: seq<nat>, out: seq<nat>, spatial: nat): (e: seq<A>)
    requires Expandable(data, dims, out, spatial)
    ensures |e| == Times(Product(out), spatial)
  {
    seq(Times(Product(out), spatial),
        i requires 0 <= i < Times(Product(out), spatial) => ExpandedAt(data, dims, out, spatial, i))
  }

  /** Expanding to the same shape changes nothing. */
  lemma ExpandedSame<A>(data: seq<A>, out: seq<nat>, spatial: nat)
    requires |data| == Times(Product(out), spatial)
    ensures Broadcastable(out, out) && Expanded(data, out, out, spatial) == data
  {
    forall i | 0 <= i < |data| ensures ExpandedAt(data, out, out, spatial, i) == data[i] {
      TimesSplit(i, Product(out), spatial);
      SourceOfSame(out, i / spatial);
    }
  }

  /** Expanding keeps the meaning: the value at coordinate `g` is the input's at `g` with its
      singleton axes set to zero. */
  lemma ExpandedMeaning<A>(data: seq<A>, dims: seq<nat>, out: seq<nat>, spatial: nat, g: seq<nat>, k: nat)
    requires Expandable(data, dims, out, spatial) && InBounds(out, g) && k < spatial
    ensures InBounds(dims, Clamped(dims, g))
    ensures Times(Linear(out, g), spatial) + k < |Expanded(data, dims, out, spatial)|
    ensures Times(Linear(dims, Clamped(dims, g)), spatial) + k < |data|
    ensures Expanded(data, dims, out, spatial)[Times(Linear(out, g), spatial) + k] ==
      data[Times(Linear(dims, Clamped(dims, g)), spatial) + k]
  {
    hide Linear;
    hide Digits;
    hide Product;
    forall a | 0 <= a < |dims| ensures Clamped(dims, g)[a] < dims[a] {
      assert Extends(dims[a], out[a]);
    }
    LinearBound(dims, Clamped(dims, g));
    LinearBound(out, g);
    DigitsOfLinear(out, g);
    TimesDivMod(Linear(out, g), spatial, k);
    TimesRow(Linear(out, g), Product(out), spatial, k);
    TimesRow(Linear(dims, Clamped(dims, g)), Product(dims), spatial, k);
  }

  /** The place the loops read is the expanded element. */
  lemma ReadPlace<A>(data: seq<A>, dims: seq<nat>, out: seq<nat>, spatial: nat, n: nat, k: nat)
    requires Expandable(data, dims, out, spatial) && n < Product(out) && k < spatial
    ensures Positive(out) && SourceGroup(dims, out, n) < Product(dims)
    ensures Times(SourceGroup(dims, out, n), spatial) + k < |data|
      && Times(n, spatial) + k < Times(Product(out), spatial)
    ensures Expanded(data, dims, out, spatial)[Times(n, spatial) + k] ==
      data[Times(SourceGroup(dims, out, n), spatial) + k]
  {
    SourceInBounds(dims, out, n);
    TimesDivMod(n, spatial, k);
    TimesRow(n, Product(out), spatial, k);
    TimesRow(SourceGroup(dims, out, n), Product(dims), spatial, k);
  }

  // ----- Folds

  /** Runs `f` over pairs in order; the final state and the outputs. */
  ghost function Fold2<S, A, B, U>(f: (S, A, B) -> (S, U), s: S, left: seq<A>, right: seq<B>, n: nat): (r: (S, seq<U>))
    requires n <= |left| && n <= |right|
    ensures |r.1| == n
  {
    if n == 0 then (s, [])
    else
      var before := Fold2(f, s, left, right, n - 1);
      var next := f(before.0, left[n - 1], right[n - 1]);
      (next.0, before.1 + [next.1])
  }

  ghost function FoldMany<S, A, U>(f: (S, seq<A>) -> (S, U), s: S, rows: seq<seq<A>>, n: nat): (r: (S, seq<U>))
    requires n <= |rows|
    ensures |r.1| == n
  {
    if n == 0 then (s, [])
    else
      var before := FoldMany(f, s, rows, n - 1);
      var next := f(before.0, rows[n - 1]);
      (next.0, before.1 + [next.1])
  }

  /** The calls of a fold, one after the other: each starts in the state the call before it left. */
  lemma {:induction false} Fold2Calls<S, A, B, U>(f: (S, A, B) -> (S, U), s: S, left: seq<A>, right: seq<B>, n: nat)
    returns (states: seq<S>)
    requires n <= |left| && n <= |right|
    ensures |states| == n + 1 && states[0] == s && states[n] == Fold2(f, s, left, right, n).0
    ensures forall i :: 0 <= i < n ==>
      f(states[i], left[i], right[i]) == (states[i + 1], Fold2(f, s, left, right, n).1[i])
  {
    if n == 0 {
      return [s];
    }
    states := Fold2Calls(f, s, left, right, n - 1);
    states := states + [Fold2(f, s, left, right, n).0];
  }

  lemma {:induction false} FoldManyCalls<S, A, U>(f: (S, seq<A>) -> (S, U), s: S, rows: seq<seq<A>>, n: nat)
    returns (states: seq<S>)
    requires n <= |rows|
    ensures |states| == n + 1 && states[0] == s && states[n] == FoldMany(f, s, rows, n).0
    ensures forall i :: 0 <= i < n ==> f(states[i], rows[i]) == (states[i + 1], FoldMany(f, s, rows, n).1[i])
  {
    if n == 0 {
      return [s];
    }
    states := FoldManyCalls(f, s, rows, n - 1);
    states := states + [FoldMany(f, s, rows, n).0];
  }

  // ----- Plans

  datatype OutputPlan = OutputPlan(dims: seq<usize>, strides: seq<usize>, spatial: usize, extraCount: usize) {
    ghost predicate Valid() {
      && extraCount == Product(dims) && Times(extraCount, spatial) <= USIZE_MAX
      && (0 < extraCount ==> RowMajorStrides(dims, strides))
    }
  }

  /** The strides of one input. With an empty output no element is visited and none are computed. */
  method PrepareInput<A>(v: View<A>, layout: Layout, out: seq<usize>, extraCount: usize)
    returns (r: Result<seq<usize>, PointwiseError>)
    requires v.Valid() && extraCount == Product(out)
    ensures r.Ok? <==> Fits(v, layout, out)
    ensures r.Err? ==> InputError(v, layout, out, r.error)
    ensures r.Ok? && 0 < extraCount ==> RowMajorStrides(v.extra, r.value)
  {
    if v.layout != layout {
      return Err(IncompatiblePencils);
    }
    var fits := ValidateExtents(v.extra, out);
    if fits.Err? {
      return Err(fits.error);
    }
    if extraCount == 0 {
      return Ok([]);
    }
    PositiveProduct(out);
    FewerGroups(v.extra, out);
    r := Strides(v.extra);
  }

  method NewPlan(layout: Layout, out: seq<usize>) returns (plan: OutputPlan)
    requires Product(out) <= USIZE_MAX && Times(Product(out), layout.spatial) <= USIZE_MAX
    ensures plan.Valid() && plan.dims == out && plan.spatial == layout.spatial
  {
    PositiveProduct(out);
    var count: usize := Product(out);
    if count == 0 {
      return OutputPlan(out, [], layout.spatial, 0);
    }
    var strides := Strides(out);
    return OutputPlan(out, strides.value, layout.spatial, count);
  }

  method ValidateTwoInputs<A, B>(left: View<A>, right: View<B>, layout: Layout, out: seq<usize>)
    returns (r: Result<(), PointwiseError>)
    ensures r.Ok? <==> Fits(left, layout, out) && Fits(right, layout, out)
    ensures r.Err? ==> TwoInputsError(left, right, layout, out, r.error)
  {
    if left.layout != right.layout || left.layout != layout {
      return Err(IncompatiblePencils);
    }
    r := ValidateExtents(left.extra, out);
    if r.Ok? {
      r := ValidateExtents(right.extra, out);
    }
  }

  /** Storage that no input shares. */
  ghost predicate Apart(a: object, b: object) { a != b }

  // ----- Two inputs

  /** Both inputs are checked before anything is written. */
  method Pointwise2<S, A, B, U>(left: View<A>, right: View<B>, output: View<U>, f: (S, A, B) -> (S, U), s0: S)
    returns (r: Result<(), PointwiseError>, s: S, ghost states: seq<S>)
    requires left.Valid() && right.Valid() && output.Valid() && Apart(left.data, output.data)
      && Apart(right.data, output.data)
    modifies output.data
    ensures r.Ok? <==> Fits(left, output.layout, output.extra) && Fits(right, output.layout, output.extra)
    ensures r.Err? ==>
      TwoInputsError(left, right, output.layout, output.extra, r.error) && output.data[..] == old(output.data[..])
        && s == s0
    ensures r.Ok? ==>
      (s, output.data[..]) ==
        Fold2(f, s0, Expanded(left.data[..], left.extra, output.extra, output.layout.spatial),
              Expanded(right.data[..], right.extra, output.extra, output.layout.spatial), output.data.Length)
    ensures r.Ok? ==> |states| == output.data.Length + 1 && states[0] == s0 && states[output.data.Length] == s
    ensures r.Ok? ==> forall i :: 0 <= i < output.data.Length ==>
      f(states[i], ExpandedAt(left.data[..], left.extra, output.extra, output.layout.spatial, i),
        ExpandedAt(right.data[..], right.extra, output.extra, output.layout.spatial, i))
      == (states[i + 1], output.data[i])
  {
    hide Expanded;
    hide Broadcastable;
    hide Product;
    hide Fold2;
    hide TwoInputsError;
    hide InputError;
    s := s0;
    var valid := ValidateTwoInputs(left, right, output.layout, output.extra);
    if valid.Err? {
      return Err(valid.error), s, [];
    }
    var plan := NewPlan(output.layout, output.extra);
    var leftStrides := PrepareInput(left, output.layout, plan.dims, plan.extraCount);
    var rightStrides := PrepareInput(right, output.layout, plan.dims, plan.extraCount);
    ghost var ls := Expanded(left.data[..], left.extra, output.extra, plan.spatial);
    ghost var rs := Expanded(right.data[..], right.extra, output.extra, plan.spatial);
    NoPairs(f, s0, ls, rs);
    for n := 0 to plan.extraCount
      invariant Times(n, plan.spatial) <= output.data.Length
      invariant (s, output.data[..Times(n, plan.spatial)]) == Fold2(f, s0, ls, rs, Times(n, plan.spatial))
    {
      RowEnd(n, plan.extraCount, plan.spatial);
      var li := BroadcastLinear(n, plan.dims, left.extra, leftStrides.value, plan.strides);
      var ri := BroadcastLinear(n, plan.dims, right.extra, rightStrides.value, plan.strides);
      s := OneGroup2(left, right, output.data, f, s, li, ri, n, plan.spatial, output.extra, s0);
    }
    assert output.data[..output.data.Length] == output.data[..];
    states := CallsOfPairs(f, s0, ls, rs, s, output.data[..]);
    ExpandedElements(left.data[..], left.extra, output.extra, plan.spatial);
    ExpandedElements(right.data[..], right.extra, output.extra, plan.spatial);
    return Ok(()), s, states;
  }

  lemma CallsOfPairs<S, A, B, U>(f: (S, A, B) -> (S, U), s0: S, left: seq<A>, right: seq<B>, s: S, out: seq<U>)
    returns (states: seq<S>)
    requires |out| == |left| == |right| && (s, out) == Fold2(f, s0, left, right, |out|)
    ensures |states| == |out| + 1 && states[0] == s0 && states[|out|] == s
    ensures forall i :: 0 <= i < |out| ==> f(states[i], left[i], right[i]) == (states[i + 1], out[i])
  {
    states := Fold2Calls(f, s0, left, right, |out|);
  }

  lemma CallsOfRows<S, A, U>(f: (S, seq<A>) -> (S, U), s0: S, rows: seq<seq<A>>, s: S, out: seq<U>)
    returns (states: seq<S>)
    requires |out| == |rows| && (s, out) == FoldMany(f, s0, rows, |out|)
    ensures |states| == |out| + 1 && states[0] == s0 && states[|out|] == s
    ensures forall i :: 0 <= i < |out| ==> f(states[i], rows[i]) == (states[i + 1], out[i])
  {
    states := FoldManyCalls(f, s0, rows, |out|);
  }

  lemma ExpandedElements<A>(data: seq<A>, dims: seq<nat>, out: seq<nat>, spatial: nat)
    requires Expandable(data, dims, out, spatial)
    ensures |Expanded(data, dims, out, spatial)| == Times(Product(out), spatial)
    ensures forall i :: 0 <= i < Times(Product(out), spatial) ==>
      Expanded(data, dims, out, spatial)[i] == ExpandedAt(data, dims, out, spatial, i)
  {
  }

  /** The positions of group `n`. */
  method OneGroup2<S, A, B, U>(left: View<A>, right: View<B>, out: array<U>, f: (S, A, B) -> (S, U), s: S, li: usize,
                               ri: usize, n: usize, spatial: usize, ghost extra: seq<nat>, ghost s0: S)
    returns (t: S)
    requires left.Valid() && right.Valid() && Apart(left.data, out) && Apart(right.data, out)
    requires left.layout.spatial == right.layout.spatial == spatial && Broadcastable(left.extra, extra)
      && Broadcastable(right.extra, extra)
    requires n < Product(extra) && Positive(extra) && li == SourceGroup(left.extra, extra, n)
      && ri == SourceGroup(right.extra, extra, n)
    requires out.Length == Times(Product(extra), spatial) <= USIZE_MAX && Times(n, spatial) + spatial <= out.Length
    requires (s, out[..Times(n, spatial)]) ==
      Fold2(f, s0, Expanded(left.data[..], left.extra, extra, spatial),
            Expanded(right.data[..], right.extra, extra, spatial), Times(n, spatial))
    modifies out
    ensures (t, out[..Times(n, spatial) + spatial]) ==
      Fold2(f, s0, Expanded(left.data[..], left.extra, extra, spatial),
            Expanded(right.data[..], right.extra, extra, spatial), Times(n, spatial) + spatial)
  {
    hide Expanded;
    hide Broadcastable;
    hide Product;
    hide Fold2;
    hide SourceGroup;
    t := s;
    ghost var ls := Expanded(left.data[..], left.extra, extra, spatial);
    ghost var rs := Expanded(right.data[..], right.extra, extra, spatial);
    for k := 0 to spatial
      invariant (t, out[..Times(n, spatial) + k]) == Fold2(f, s0, ls, rs, Times(n, spatial) + k)
    {
      ReadPlace(left.data[..], left.extra, extra, spatial, n, k);
      ReadPlace(right.data[..], right.extra, extra, spatial, n, k);
      t := OnePoint2(left.data, right.data, out, f, t, li, ri, n, k, spatial, ls, rs, s0);
    }
  }

  /** One call of the callback, at position `k` of group `n`. */
  method OnePoint2<S, A, B, U>(left: array<A>, right: array<B>, out: array<U>, f: (S, A, B) -> (S, U), s: S, li: usize,
                               ri: usize, n: usize, k: usize, spatial: usize, ghost ls: seq<A>, ghost rs: seq<B>,
                               ghost s0: S)
    returns (t: S)
    requires left.Length <= USIZE_MAX && right.Length <= USIZE_MAX && out.Length <= USIZE_MAX
    requires Times(li, spatial) + k < left.Length && Times(ri, spatial) + k < right.Length
    requires |ls| == |rs| == out.Length && Times(n, spatial) + k < out.Length
    requires ls[Times(n, spatial) + k] == left[Times(li, spatial) + k]
      && rs[Times(n, spatial) + k] == right[Times(ri, spatial) + k]
    requires (s, out[..Times(n, spatial) + k]) == Fold2(f, s0, ls, rs, Times(n, spatial) + k)
    modifies out
    ensures (t, out[..Times(n, spatial) + k + 1]) == Fold2(f, s0, ls, rs, Times(n, spatial) + k + 1)
    ensures out[Times(n, spatial) + k + 1..] == old(out[Times(n, spatial) + k + 1..])
  {
    var at := Multiply(n, spatial);
    var leftAt := Multiply(li, spatial);
    var rightAt := Multiply(ri, spatial);
    var next := f(s, left[leftAt + k], right[rightAt + k]);
    ghost var done := out[..at + k];
    out[at + k] := next.1;
    assert out[..at + k + 1] == done + [next.1];
    return next.0;
  }

  // ----- In place

  /** The left input is also the output. Its read place is the write place, so a value that was
      already updated is never read again. */
  method Pointwise2InPlace<S, A, B>(left: View<A>, right: View<B>, f: (S, A, B) -> (S, A), s0: S)
    returns (r: Result<(), PointwiseError>, s: S, ghost states: seq<S>)
    requires left.Valid() && right.Valid() && Apart(right.data, left.data)
    modifies left.data
    ensures r.Ok? <==> Fits(right, left.layout, left.extra)
    ensures r.Err? ==>
      TwoInputsError(left, right, left.layout, left.extra, r.error) && left.data[..] == old(left.data[..]) && s == s0
    ensures r.Ok? ==>
      (s, left.data[..]) ==
        Fold2(f, s0, old(left.data[..]), Expanded(right.data[..], right.extra, left.extra, left.layout.spatial),
              left.data.Length)
    ensures r.Ok? ==> |states| == left.data.Length + 1 && states[0] == s0 && states[left.data.Length] == s
    ensures r.Ok? ==> forall i :: 0 <= i < left.data.Length ==>
      f(states[i], old(left.data[i]),
        ExpandedAt(right.data[..], right.extra, left.extra, left.layout.spatial, i))
      == (states[i + 1], left.data[i])
  {
    hide Expanded;
    hide Product;
    hide Fold2;
    hide TwoInputsError;
    hide InputError;
    s := s0;
    var valid := ValidateTwoInputs(left, right, left.layout, left.extra);
    if valid.Err? {
      return Err(valid.error), s, [];
    }
    var plan := NewPlan(left.layout, left.extra);
    var leftStrides := PrepareInput(left, left.layout, plan.dims, plan.extraCount);
    var rightStrides := PrepareInput(right, left.layout, plan.dims, plan.extraCount);
    ghost var ls := left.data[..];
    ghost var rs := Expanded(right.data[..], right.extra, left.extra, plan.spatial);
    NoPairs(f, s0, ls, rs);
    for n := 0 to plan.extraCount
      invariant Times(n, plan.spatial) <= left.data.Length
        && left.data[Times(n, plan.spatial)..] == ls[Times(n, plan.spatial)..]
      invariant (s, left.data[..Times(n, plan.spatial)]) == Fold2(f, s0, ls, rs, Times(n, plan.spatial))
    {
      RowEnd(n, plan.extraCount, plan.spatial);
      var li := BroadcastLinear(n, plan.dims, left.extra, leftStrides.value, plan.strides);
      SourceOfSame(left.extra, n);
      var ri := BroadcastLinear(n, plan.dims, right.extra, rightStrides.value, plan.strides);
      s := OneGroupInPlace(left.data, right, f, s, li, ri, n, plan.spatial, left.extra, ls, s0);
    }
    assert left.data[..left.data.Length] == left.data[..];
    states := CallsOfPairs(f, s0, ls, rs, s, left.data[..]);
    ExpandedElements(right.data[..], right.extra, left.extra, plan.spatial);
    return Ok(()), s, states;
  }

  method OneGroupInPlace<S, A, B>(left: array<A>, right: View<B>, f: (S, A, B) -> (S, A), s: S, li: usize, ri: usize,
                                  n: usize, spatial: usize, ghost extra: seq<nat>, ghost ls: seq<A>, ghost s0: S)
    returns (t: S)
    requires right.Valid() && Apart(right.data, left) && right.layout.spatial == spatial
      && Broadcastable(right.extra, extra)
    requires n < Product(extra) && Positive(extra) && li == n && ri == SourceGroup(right.extra, extra, n)
    requires left.Length == |ls| == Times(Product(extra), spatial) <= USIZE_MAX
      && Times(n, spatial) + spatial <= left.Length
    requires left[Times(n, spatial)..] == ls[Times(n, spatial)..]
    requires (s, left[..Times(n, spatial)]) ==
      Fold2(f, s0, ls, Expanded(right.data[..], right.extra, extra, spatial), Times(n, spatial))
    modifies left
    ensures left[Times(n, spatial) + spatial..] == ls[Times(n, spatial) + spatial..]
    ensures (t, left[..Times(n, spatial) + spatial]) ==
      Fold2(f, s0, ls, Expanded(right.data[..], right.extra, extra, spatial), Times(n, spatial) + spatial)
  {
    hide Expanded;
    hide Broadcastable;
    hide Product;
    hide SourceGroup;
    t := s;
    ghost var rs := Expanded(right.data[..], right.extra, extra, spatial);
    var at := Multiply(n, spatial);
    for k := 0 to spatial
      invariant (t, left[..at + k]) == Fold2(f, s0, ls, rs, at + k) && left[at + k..] == ls[at + k..]
    {
      ReadPlace(right.data[..], right.extra, extra, spatial, n, k);
      var leftAt := Multiply(li, spatial);
      var rightAt := Multiply(ri, spatial);
      assert left[at + k] == left[at + k..][0] == ls[at + k];
      var next := f(t, left[leftAt + k], right.data[rightAt + k]);
      t := next.0;
      ghost var done, rest := left[..at + k], left[at + k..][1..];
      left[at + k] := next.1;
      assert left[..at + k + 1] == done + [next.1];
      assert left[at + k + 1..] == rest == ls[at + k..][1..];
    }
  }

  // ----- Any number of inputs

  datatype MultiInputError = EmptyInputs | Input(index: nat, source: PointwiseError)

  /** The contents of the inputs, as values. */
  ghost predicate Contents<A>(inputs: seq<View<A>>, contents: seq<seq<A>>)
    reads set q | 0 <= q < |inputs| :: inputs[q].data
  {
    |contents| == |inputs| && forall q :: 0 <= q < |inputs| ==> inputs[q].data[..] == contents[q]
  }

  ghost predicate AllExpandable<A>(inputs: seq<View<A>>, contents: seq<seq<A>>, out: seq<nat>, spatial: nat) {
    |contents| == |inputs| && forall q :: 0 <= q < |inputs| ==> Expandable(contents[q], inputs[q].extra, out, spatial)
  }

  /** What the callback is given at position `i`: element `i` of every expanded input, in order. */
  ghost function RowAt<A>(inputs: seq<View<A>>, contents: seq<seq<A>>, out: seq<nat>, spatial: nat,
                          i: nat): (row: seq<A>)
    requires AllExpandable(inputs, contents, out, spatial) && i < Times(Product(out), spatial)
    ensures |row| == |inputs|
  {
    seq(|inputs|, q requires 0 <= q < |inputs| => ExpandedAt(contents[q], inputs[q].extra, out, spatial, i))
  }

  /** Entry `q` of a row is the element of input `q` at that position. */
  lemma RowAtIs<A>(inputs: seq<View<A>>, contents: seq<seq<A>>, out: seq<nat>, spatial: nat, i: nat, q: nat)
    requires AllExpandable(inputs, contents, out, spatial) && i < Times(Product(out), spatial) && q < |inputs|
    ensures |RowAt(inputs, contents, out, spatial, i)| == |inputs|
    ensures RowAt(inputs, contents, out, spatial, i)[q] ==
      Expanded(contents[q], inputs[q].extra, out, spatial)[i]
  {
    ExpandedElements(contents[q], inputs[q].extra, out, spatial);
  }

  ghost function Rows<A>(inputs: seq<View<A>>, contents: seq<seq<A>>, out: seq<nat>, spatial: nat): (rows: seq<seq<A>>)
    requires AllExpandable(inputs, contents, out, spatial)
    ensures |rows| == Times(Product(out), spatial)
    ensures forall i :: 0 <= i < |rows| ==> rows[i] == RowAt(inputs, contents, out, spatial, i)
  {
    seq(Times(Product(out), spatial),
        i requires 0 <= i < Times(Product(out), spatial) => RowAt(inputs, contents, out, spatial, i))
  }

  /** Prepares every input; the first that does not fit is reported. */
  method ManyPlan<A>(inputs: seq<View<A>>, layout: Layout, out: seq<usize>)
    returns (r: Result<OutputPlan, MultiInputError>, strides: seq<seq<usize>>)
    requires (forall q :: 0 <= q < |inputs| ==> inputs[q].Valid()) && Product(out) <= USIZE_MAX
      && Times(Product(out), layout.spatial) <= USIZE_MAX
    ensures r.Ok? <==> inputs != [] && forall q :: 0 <= q < |inputs| ==> Fits(inputs[q], layout, out)
    ensures inputs == [] ==> r == Err(EmptyInputs)
    ensures r.Err? && inputs != [] ==>
      r.error.Input? && r.error.index < |inputs| && !Fits(inputs[r.error.index], layout, out)
        && InputError(inputs[r.error.index], layout, out, r.error.source)
    ensures r.Err? && inputs != [] ==> forall q :: 0 <= q < r.error.index ==> Fits(inputs[q], layout, out)
    ensures r.Ok? ==>
      r.value.Valid() && r.value.dims == out && r.value.spatial == layout.spatial
        && AllStrides(inputs, strides, r.value.extraCount)
  {
    hide Fits;
    hide InputError;
    hide RowMajorStrides;
    strides := [];
    if inputs == [] {
      return Err(EmptyInputs), strides;
    }
    var plan := NewPlan(layout, out);
    for q := 0 to |inputs|
      invariant |strides| == q && forall p :: 0 <= p < q ==> Fits(inputs[p], layout, out)
      invariant forall p :: 0 <= p < q ==> 0 < plan.extraCount ==> RowMajorStrides(inputs[p].extra, strides[p])
    {
      var one := PrepareInput(inputs[q], layout, plan.dims, plan.extraCount);
      if one.Err? {
        return Err(Input(q, one.error)), strides;
      }
      strides := strides + [one.value];
    }
    return Ok(plan), strides;
  }

  ghost predicate AllStrides<A>(inputs: seq<View<A>>, strides: seq<seq<nat>>, extraCount: nat) {
    |strides| == |inputs|
      && (0 < extraCount ==> forall q :: 0 <= q < |inputs| ==> RowMajorStrides(inputs[q].extra, strides[q]))
  }

  /** All inputs are checked before anything is written. */
  method PointwiseMany<S, A, U>(inputs: seq<View<A>>, output: View<U>, f: (S, seq<A>) -> (S, U), s0: S,
                                ghost contents: seq<seq<A>>)
    returns (r: Result<(), MultiInputError>, s: S, ghost states: seq<S>)
    requires (forall q :: 0 <= q < |inputs| ==> inputs[q].Valid() && Apart(inputs[q].data, output.data))
      && output.Valid() && Contents(inputs, contents)
    modifies output.data
    ensures r.Ok? <==> inputs != [] && forall q :: 0 <= q < |inputs| ==> Fits(inputs[q], output.layout, output.extra)
    ensures r.Err? ==> output.data[..] == old(output.data[..]) && s == s0
    ensures inputs == [] ==> r == Err(EmptyInputs)
    ensures r.Err? && inputs != [] ==>
      r.error.Input? && r.error.index < |inputs|
        && InputError(inputs[r.error.index], output.layout, output.extra, r.error.source)
    ensures r.Err? && inputs != [] ==> forall q :: 0 <= q < r.error.index ==>
      Fits(inputs[q], output.layout, output.extra)
    ensures r.Ok? ==> AllExpandable(inputs, contents, output.extra, output.layout.spatial)
    ensures r.Ok? ==>
      (s, output.data[..]) ==
        FoldMany(f, s0, Rows(inputs, contents, output.extra, output.layout.spatial), output.data.Length)
    ensures r.Ok? ==> |states| == output.data.Length + 1 && states[0] == s0 && states[output.data.Length] == s
    ensures r.Ok? ==> forall i :: 0 <= i < output.data.Length ==>
      f(states[i], RowAt(inputs, contents, output.extra, output.layout.spatial, i)) == (states[i + 1], output.data[i])
  {
    hide InputError;
    hide Rows;
    hide Product;
    hide FoldMany;
    hide AllStrides;
    hide AllExpandable;
    hide Broadcastable;
    s := s0;
    var plan, strides := ManyPlan(inputs, output.layout, output.extra);
    if plan.Err? {
      return Err(plan.error), s, [];
    }
    ManyExpand(inputs, contents, output.layout, output.extra);
    var spatial, count := plan.value.spatial, plan.value.extraCount;
    ghost var rows := Rows(inputs, contents, output.extra, spatial);
    NoRows(f, s0, rows);
    for n := 0 to count
      invariant Times(n, spatial) <= output.data.Length && Contents(inputs, contents)
      invariant (s, output.data[..Times(n, spatial)]) == FoldMany(f, s0, rows, Times(n, spatial))
    {
      RowEnd(n, count, spatial);
      s := OneGroupMany(inputs, strides, plan.value, output.data, f, s, n, output.extra, contents, s0);
    }
    assert output.data[..output.data.Length] == output.data[..];
    states := CallsOfRows(f, s0, rows, s, output.data[..]);
    return Ok(()), s, states;
  }

  lemma ManyExpand<A>(inputs: seq<View<A>>, contents: seq<seq<A>>, layout: Layout, out: seq<nat>)
    requires forall q :: 0 <= q < |inputs| ==> inputs[q].Valid() && Fits(inputs[q], layout, out)
    requires Contents(inputs, contents)
    ensures AllExpandable(inputs, contents, out, layout.spatial)
  {
    forall q | 0 <= q < |inputs| ensures Expandable(contents[q], inputs[q].extra, out, layout.spatial) {
      assert inputs[q].data[..] == contents[q];
    }
  }

  method OneGroupMany<S, A, U>(inputs: seq<View<A>>, strides: seq<seq<usize>>, plan: OutputPlan, out: array<U>,
                               f: (S, seq<A>) -> (S, U), s: S, n: usize, ghost extra: seq<nat>,
                               ghost contents: seq<seq<A>>, ghost s0: S)
    returns (t: S)
    requires forall q :: 0 <= q < |inputs| ==> inputs[q].Valid() && Apart(inputs[q].data, out)
    requires Contents(inputs, contents) && AllExpandable(inputs, contents, extra, plan.spatial)
    requires plan.Valid() && plan.dims == extra && n < plan.extraCount && AllStrides(inputs, strides, plan.extraCount)
    requires out.Length == Times(Product(extra), plan.spatial) <= USIZE_MAX
      && Times(n, plan.spatial) + plan.spatial <= out.Length
    requires (s, out[..Times(n, plan.spatial)]) ==
      FoldMany(f, s0, Rows(inputs, contents, extra, plan.spatial), Times(n, plan.spatial))
    modifies out
    ensures Contents(inputs, contents)
    ensures (t, out[..Times(n, plan.spatial) + plan.spatial]) ==
      FoldMany(f, s0, Rows(inputs, contents, extra, plan.spatial), Times(n, plan.spatial) + plan.spatial)
  {
    hide Product;
    hide RowAt;
    hide AllExpandable;
    hide AllStrides;
    hide FoldMany;
    hide OutputPlan.Valid;
    t := s;
    var at := Multiply(n, plan.spatial);
    ghost var rows := Rows(inputs, contents, extra, plan.spatial);
    for k := 0 to plan.spatial
      invariant (t, out[..at + k]) == FoldMany(f, s0, rows, at + k) && Contents(inputs, contents)
    {
      var refs := BuildRefs(inputs, strides, plan, n, k, contents);
      NextRow(f, s0, rows, at + k);
      var next := f(t, refs);
      t := next.0;
      ghost var done := out[..at + k];
      out[at + k] := next.1;
      assert out[..at + k + 1] == done + [next.1];
    }
  }

  /** The inputs of one callback call. */
  method BuildRefs<A>(inputs: seq<View<A>>, strides: seq<seq<usize>>, plan: OutputPlan, n: usize, k: nat,
                      ghost contents: seq<seq<A>>) returns (refs: seq<A>)
    requires (forall q :: 0 <= q < |inputs| ==> inputs[q].Valid()) && Contents(inputs, contents)
      && AllExpandable(inputs, contents, plan.dims, plan.spatial)
    requires plan.Valid() && n < plan.extraCount && k < plan.spatial && AllStrides(inputs, strides, plan.extraCount)
    ensures Times(n, plan.spatial) + k < Times(Product(plan.dims), plan.spatial)
    ensures refs == RowAt(inputs, contents, plan.dims, plan.spatial, Times(n, plan.spatial) + k)
  {
    hide Product;
    hide Expanded;
    hide ExpandedAt;
    hide SourceGroup;
    TimesRow(n, plan.extraCount, plan.spatial, k);
    refs := [];
    for q := 0 to |inputs|
      invariant |refs| == q && forall p :: 0 <= p < q ==>
        refs[p] == RowAt(inputs, contents, plan.dims, plan.spatial, Times(n, plan.spatial) + k)[p]
    {
      assert inputs[q].data[..] == contents[q] && Expandable(contents[q], inputs[q].extra, plan.dims, plan.spatial);
      var group := BroadcastLinear(n, plan.dims, inputs[q].extra, strides[q], plan.strides);
      ReadElement(contents[q], inputs[q].extra, plan.dims, plan.spatial, n, k);
      var at := Multiply(group, plan.spatial);
      refs := refs + [inputs[q].data[at + k]];
    }
  }

  lemma ReadElement<A>(data: seq<A>, dims: seq<nat>, out: seq<nat>, spatial: nat, n: nat, k: nat)
    requires Expandable(data, dims, out, spatial) && n < Product(out) && k < spatial
    ensures Positive(out) && Times(SourceGroup(dims, out, n), spatial) + k < |data|
      && Times(n, spatial) + k < Times(Product(out), spatial)
    ensures ExpandedAt(data, dims, out, spatial, Times(n, spatial) + k) ==
      data[Times(SourceGroup(dims, out, n), spatial) + k]
  {
    ReadPlace(data, dims, out, spatial, n, k);
  }

  lemma NoRows<S, A, U>(f: (S, seq<A>) -> (S, U), s: S, rows: seq<seq<A>>)
    ensures FoldMany(f, s, rows, 0) == (s, [])
  {
  }

  lemma NextRow<S, A, U>(f: (S, seq<A>) -> (S, U), s: S, rows: seq<seq<A>>, n: nat)
    requires n < |rows|
    ensures var before := FoldMany(f, s, rows, n);
      var next := f(before.0, rows[n]);
      FoldMany(f, s, rows, n + 1) == (next.0, before.1 + [next.1])
  {
  }

  lemma NoPairs<S, A, B, U>(f: (S, A, B) -> (S, U), s: S, left: seq<A>, right: seq<B>)
    ensures Fold2(f, s, left, right, 0) == (s, [])
  {
  }

  lemma RowEnd(n: nat, count: nat, spatial: nat)
    requires n < count
    ensures Times(n + 1, spatial) == Times(n, spatial) + spatial <= Times(count, spatial)
  {
    TimesMono(n + 1, count, spatial, spatial);
  }
}
