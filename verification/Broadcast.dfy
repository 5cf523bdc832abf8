/** Broadcasting singleton axes: strides, and the input group an output group reads. */
module Broadcasts {
  import opened MachineInts
  import opened Nonlinear
  import opened MixedRadix

  datatype PointwiseError =
    | IncompatiblePencils
    | ExtraRankMismatch(expected: nat, actual: nat)
    | ExtraExtentMismatch(axis: nat, output: nat, input: nat)
    | CountOverflow

  /** The extents of an input: those of the output, or one. */
  ghost predicate Broadcastable(dims: seq<nat>, out: seq<nat>) {
    |dims| == |out| && forall a :: 0 <= a < |dims| ==> Extends(dims[a], out[a])
  }

  predicate Extends(extent: nat, output: nat) { extent == output || extent == 1 }

  /** The coordinate with singleton axes set to zero. */
  function Clamped(dims: seq<nat>, g: seq<nat>): (c: seq<nat>)
    requires |dims| == |g|
    ensures |c| == |g| && forall a :: 0 <= a < |g| ==> c[a] == if dims[a] == 1 then 0 else g[a]
  {
    seq(|g|, a requires 0 <= a < |g| => if dims[a] == 1 then 0 else g[a])
  }

  /** The input group that output group `n` reads. */
  ghost function SourceGroup(dims: seq<nat>, out: seq<nat>, n: nat): nat
    requires |dims| == |out| && Positive(out)
  {
    Linear(dims, Clamped(dims, Digits(out, n)))
  }

  /** The group read is always one of the input. */
  lemma SourceInBounds(dims: seq<nat>, out: seq<nat>, n: nat)
    requires Broadcastable(dims, out) && n < Product(out)
    ensures Positive(out) && SourceGroup(dims, out, n) < Product(dims)
  {
    LinearOfDigits(out, n);
    var g := Digits(out, n);
    forall a | 0 <= a < |dims| ensures Clamped(dims, g)[a] < dims[a] {
      assert Extends(dims[a], out[a]);
    }
    LinearBound(dims, Clamped(dims, g));
  }

  /** An input with the output's own extents is read group by group. */
  lemma SourceOfSame(out: seq<nat>, n: nat)
    requires n < Product(out)
    ensures Positive(out) && SourceGroup(out, out, n) == n
  {
    LinearOfDigits(out, n);
    assert Clamped(out, Digits(out, n)) == Digits(out, n);
  }

  // ----- Strides

  ghost predicate RowMajorStrides(dims: seq<nat>, strides: seq<nat>) {
    |strides| == |dims| && forall a :: 0 <= a < |dims| ==> strides[a] == Product(dims[a + 1..])
  }

  /** Row-major offsets are sums of coordinate times stride. */
  lemma {:induction false} LinearIsDot(dims: seq<nat>, strides: seq<nat>, g: seq<nat>, k: nat)
    requires RowMajorStrides(dims, strides) && |g| == |dims| && k <= |dims|
    ensures Dot(strides, g[..k]) == Times(Linear(dims[..k], g[..k]), Product(dims[k..]))
  {
    if k == 0 {
      assert g[..0] == [];
    } else {
      LinearIsDot(dims, strides, g, k - 1);
      assert g[..k][..k - 1] == g[..k - 1] && dims[..k][..k - 1] == dims[..k - 1];
      ProductTail(dims, k - 1);
      var before := Linear(dims[..k - 1], g[..k - 1]);
      TimesAssoc(before, dims[k - 1], Product(dims[k..]));
      TimesDistribute(Times(before, dims[k - 1]), g[k - 1], Product(dims[k..]));
    }
  }

  /** Dividing by the stride and reducing by the extent gives the coordinate. */
  lemma {:induction false} DigitByStride(shape: seq<nat>, n: nat, a: nat)
    requires Positive(shape) && a < |shape| && 0 < Product(shape[a + 1..])
    ensures Digits(shape, n)[a] == n / Product(shape[a + 1..]) % shape[a]
    decreases |shape|
  {
    var last := |shape| - 1;
    if a == last {
      assert shape[a + 1..] == [];
    } else {
      var front, s := shape[..last], shape[last];
      var back := shape[a + 1..];
      assert back[..|back| - 1] == front[a + 1..];
      PositiveProduct(front[a + 1..]);
      DigitByStride(front, n / s, a);
      DivideByProduct(n, Product(front[a + 1..]), s);
    }
  }

  lemma DivideByProduct(n: nat, p: nat, s: nat)
    requires 0 < p && 0 < s
    ensures 0 < Times(p, s) && n / Times(p, s) == n / s / p
  {
    Parts(n, s);
    Parts(n / s, p);
    TwoParts(n, p, s, n / s, n % s, n / s / p, n / s % p);
  }

  lemma Parts(n: nat, s: nat)
    requires 0 < s
    ensures n == Times(n / s, s) + n % s && n % s < s
  {
    TimesIs(n / s, s);
  }

  lemma TwoParts(n: nat, p: nat, s: nat, q: nat, r: nat, t: nat, u: nat)
    requires n == Times(q, s) + r && r < s && q == Times(t, p) + u && u < p
    ensures 0 < Times(p, s) && n / Times(p, s) == t
  {
    hide Times;
    Regrouped(n, p, s, q, r, t, u);
    TimesDivMod(t, Times(p, s), Times(u, s) + r);
  }

  lemma Regrouped(n: nat, p: nat, s: nat, q: nat, r: nat, t: nat, u: nat)
    requires n == Times(q, s) + r && r < s && q == Times(t, p) + u && u < p
    ensures n == Times(t, Times(p, s)) + (Times(u, s) + r) && Times(u, s) + r < Times(p, s)
  {
    hide Times;
    TimesDistribute(Times(t, p), u, s);
    TimesAssoc(t, p, s);
    TimesRow(u, p, s, r);
  }

  /** The strides of dimensions whose product fits always fit. */
  method Strides(dims: seq<usize>) returns (r: Result<seq<usize>, PointwiseError>)
    ensures Positive(dims) && Product(dims) <= USIZE_MAX ==> r.Ok?
    ensures r.Ok? ==> RowMajorStrides(dims, r.value)
    ensures r.Err? ==> r == Err(CountOverflow)
  {
    var out: seq<usize> := [];
    var stride: usize := 1;
    assert dims[|dims|..] == [];
    for i := |dims| downto 0
      invariant stride == Product(dims[i..]) && RowMajorStrides(dims[i..], out)
    {
      assert dims[i..][1..] == dims[i + 1..];
      MoreStrides(dims[i..], stride, out);
      out := [stride] + out;
      ProductTail(dims, i);
      var next := CheckedMul(stride, dims[i]);
      if next.None? {
        if Positive(dims) {
          TailProductBound(dims, i);
        }
        return Err(CountOverflow);
      }
      stride := next.value;
    }
    assert dims[0..] == dims;
    return Ok(out);
  }

  lemma MoreStrides(dims: seq<nat>, stride: nat, strides: seq<nat>)
    requires dims != [] && RowMajorStrides(dims[1..], strides) && stride == Product(dims[1..])
    ensures RowMajorStrides(dims, [stride] + strides)
  {
    forall a | 0 <= a < |dims| ensures ([stride] + strides)[a] == Product(dims[a + 1..]) {
      if a != 0 {
        assert dims[1..][a - 1 + 1..] == dims[a + 1..];
      }
    }
  }

  /** The input group of output group `n`. No product or sum leaves `usize`. */
  method BroadcastLinear(n: usize, out: seq<usize>, dims: seq<usize>, strides: seq<usize>, outStrides: seq<usize>)
    returns (group: usize)
    requires Broadcastable(dims, out) && n < Product(out) && Product(dims) <= USIZE_MAX
    requires RowMajorStrides(dims, strides) && RowMajorStrides(out, outStrides)
    ensures Positive(out) && group == SourceGroup(dims, out, n)
  {
    hide Product;
    hide Digits;
    hide Linear;
    LinearOfDigits(out, n);
    SourceInBounds(dims, out, n);
    ghost var c := Clamped(dims, Digits(out, n));
    WholeDot(dims, strides, c);
    group := 0;
    for a := 0 to |out|
      invariant group == Dot(strides, c[..a])
    {
      OneTerm(out, outStrides, n, a);
      PartialDot(strides, c, a);
      var index: usize := n / outStrides[a] % out[a];
      var used := if dims[a] == 1 then 0 else index;
      var term := Multiply(used, strides[a]);
      group := group + term;
    }
    assert c[..|out|] == c;
  }

  lemma WholeDot(dims: seq<nat>, strides: seq<nat>, c: seq<nat>)
    requires RowMajorStrides(dims, strides) && |c| == |dims|
    ensures Dot(strides, c) == Linear(dims, c)
  {
    LinearIsDot(dims, strides, c, |dims|);
    assert dims[..|dims|] == dims && c[..|dims|] == c && dims[|dims|..] == [];
    TimesIs(Linear(dims, c), 1);
  }

  lemma OneTerm(out: seq<nat>, outStrides: seq<nat>, n: nat, a: nat)
    requires Positive(out) && RowMajorStrides(out, outStrides) && a < |out|
    ensures 0 < outStrides[a] && 0 < out[a] && Digits(out, n)[a] == n / outStrides[a] % out[a]
  {
    PositiveProduct(out[a + 1..]);
    DigitByStride(out, n, a);
  }

  /** One more term of the sum, and the sum never exceeds the whole. */
  lemma PartialDot(strides: seq<nat>, c: seq<nat>, a: nat)
    requires |c| <= |strides| && a < |c|
    ensures Dot(strides, c[..a + 1]) == Dot(strides, c[..a]) + Times(c[a], strides[a]) <= Dot(strides, c)
  {
    assert c[..a + 1][..a] == c[..a];
    DotMonotone(strides, c[..a + 1], c);
  }

  /** Checks one input against the output: first the rank, then the first extent that does not fit. */
  method ValidateExtents(input: seq<usize>, output: seq<usize>) returns (r: Result<(), PointwiseError>)
    ensures r.Ok? <==> Broadcastable(input, output)
    ensures r.Err? ==> ExtentsError(input, output, r.error)
  {
    if |input| != |output| {
      return Err(ExtraRankMismatch(|output|, |input|));
    }
    for a := 0 to |input|
      invariant forall b :: 0 <= b < a ==> Extends(input[b], output[b])
    {
      if input[a] != output[a] && input[a] != 1 {
        assert !Extends(input[a], output[a]);
        assert FirstMisfit(input, output, a);
        return Err(ExtraExtentMismatch(a, output[a], input[a]));
      }
    }
    return Ok(());
  }

  /** The error for extents that do not fit: the ranks if they differ, else the first axis that does not fit. */
  ghost predicate ExtentsError(input: seq<nat>, output: seq<nat>, error: PointwiseError) {
    if |input| != |output| then error == ExtraRankMismatch(|output|, |input|)
    else exists a: nat :: FirstMisfit(input, output, a) && error == ExtraExtentMismatch(a, output[a], input[a])
  }

  ghost predicate FirstMisfit(input: seq<nat>, output: seq<nat>, a: nat) {
    a < |input| == |output| && !Extends(input[a], output[a]) && forall b :: 0 <= b < a ==> Extends(input[b], output[b])
  }

  /** An input never has more groups than the output it fits. */
  lemma {:induction false} FewerGroups(dims: seq<nat>, out: seq<nat>)
    requires Broadcastable(dims, out) && Positive(out)
    ensures Positive(dims) && Product(dims) <= Product(out)
  {
    forall a | 0 <= a < |dims| ensures 0 < dims[a] <= out[a] {
      assert Extends(dims[a], out[a]);
    }
    ProductMonotone(dims, out);
  }
}
