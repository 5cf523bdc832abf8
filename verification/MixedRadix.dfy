/** Row-major numbering of an N-dimensional box, for any rank N. */
module MixedRadix {
  // `Linear` is the source's row-major offset, `Digits` the remainder loop that undoes it, `Dot` the same
  // offset written as a sum of coordinate times stride. Products are written with `Times`, so that nonlinear
  // arithmetic is used only where a lemma asks.

  import opened MachineInts
  import opened Nonlinear

  function Product(shape: seq<nat>): nat {
    if shape == [] then 1 else Times(Product(shape[..|shape| - 1]), shape[|shape| - 1])
  }

  ghost predicate InBounds(shape: seq<nat>, index: seq<nat>) {
    |index| == |shape| && forall a :: 0 <= a < |shape| ==> index[a] < shape[a]
  }

  function Linear(shape: seq<nat>, index: seq<nat>): nat
    requires |index| == |shape|
  {
    if shape == [] then 0
    else
      var last := |shape| - 1;
      Times(Linear(shape[..last], index[..last]), shape[last]) + index[last]
  }

  predicate Positive(shape: seq<nat>) {
    forall a :: 0 <= a < |shape| ==> 0 < shape[a]
  }

  function Digits(shape: seq<nat>, linear: nat): (index: seq<nat>)
    requires Positive(shape)
    ensures |index| == |shape|
  {
    if shape == [] then []
    else
      var last := |shape| - 1;
      Digits(shape[..last], linear / shape[last]) + [linear % shape[last]]
  }

  /** Sum of `index[a] * stride[a]` over the axes of `index`. */
  function Dot(stride: seq<nat>, index: seq<nat>): nat
    requires |index| <= |stride|
  {
    if index == [] then 0
    else
      var last := |index| - 1;
      Dot(stride, index[..last]) + Times(index[last], stride[last])
  }

  function Zeros(n: nat): (z: seq<nat>)
    ensures |z| == n && forall a :: 0 <= a < n ==> z[a] == 0
  {
    if n == 0 then [] else Zeros(n - 1) + [0]
  }

  lemma {:induction false} PositiveProduct(shape: seq<nat>)
    ensures Positive(shape) <==> 0 < Product(shape)
  {
    if shape != [] {
      var last := |shape| - 1;
      PositiveProduct(shape[..last]);
      TimesIs(Product(shape[..last]), shape[last]);
      if 0 < Product(shape) {
        assert 0 < Product(shape[..last]) && 0 < shape[last];
        assert forall a :: 0 <= a < last ==> shape[..last][a] == shape[a];
      }
      if Positive(shape) {
        assert Positive(shape[..last]);
        MulMono(1, Product(shape[..last]), shape[last]);
      }
    }
  }

  lemma InBoundsPositive(shape: seq<nat>, index: seq<nat>)
    requires InBounds(shape, index)
    ensures Positive(shape) && 0 < Product(shape)
  {
    PositiveProduct(shape);
  }

  /** Every in-bounds index has an offset below the product of the extents. */
  lemma {:induction false} LinearBound(shape: seq<nat>, index: seq<nat>)
    requires InBounds(shape, index)
    ensures Linear(shape, index) < Product(shape)
  {
    if shape != [] {
      var last := |shape| - 1;
      LinearBound(shape[..last], index[..last]);
      TimesRow(Linear(shape[..last], index[..last]), Product(shape[..last]), shape[last], index[last]);
    }
  }

  function Total(terms: seq<nat>): nat {
    if terms == [] then 0 else Total(terms[..|terms| - 1]) + terms[|terms| - 1]
  }

  /** Row-major numbering: every coordinate counts as often as the later extents multiply to, so the last
      coordinate moves the number by one. */
  lemma LinearIsTotal(shape: seq<nat>, index: seq<nat>, terms: seq<nat>)
    requires |index| == |terms| == |shape|
    requires forall q :: 0 <= q < |shape| ==> terms[q] == index[q] * Product(shape[q + 1..])
    ensures Linear(shape, index) == Total(terms)
  {
    hide Product;
    forall q | 0 <= q < |shape| ensures terms[q] == Times(index[q], Product(shape[q + 1..])) {
      TimesIs(index[q], Product(shape[q + 1..]));
    }
    LinearIsTotalOfTimes(shape, index, terms);
  }

  lemma {:induction false} LinearIsTotalOfTimes(shape: seq<nat>, index: seq<nat>, terms: seq<nat>)
    requires |index| == |terms| == |shape|
    requires forall q :: 0 <= q < |shape| ==> terms[q] == Times(index[q], Product(shape[q + 1..]))
    ensures Linear(shape, index) == Total(terms)
  {
    hide Product;
    if shape != [] {
      var last := |shape| - 1;
      var front := seq(last, q requires 0 <= q < last => Times(index[q], Product(shape[..last][q + 1..])));
      LinearIsTotalOfTimes(shape[..last], index[..last], front);
      forall q | 0 <= q < last ensures terms[..last][q] == Times(front[q], shape[last]) {
        LaterExtents(shape, index[q], q);
      }
      TotalScaled(terms[..last], front, shape[last]);
      NoExtents(shape, index[last]);
    }
  }

  lemma NoExtents(shape: seq<nat>, i: nat)
    ensures Times(i, Product(shape[|shape|..])) == i
  {
    TimesIs(i, 1);
  }

  lemma LaterExtents(shape: seq<nat>, i: nat, q: nat)
    requires q < |shape| - 1
    ensures var last := |shape| - 1;
      Times(i, Product(shape[q + 1..])) == Times(Times(i, Product(shape[..last][q + 1..])), shape[last])
  {
    var last := |shape| - 1;
    var tail, inner := shape[q + 1..], shape[..last][q + 1..];
    assert tail[..|tail| - 1] == inner && tail[|tail| - 1] == shape[last];
    TimesAssoc(i, Product(inner), shape[last]);
  }

  lemma {:induction false} TotalScaled(terms: seq<nat>, front: seq<nat>, n: nat)
    requires |terms| == |front| && forall q :: 0 <= q < |terms| ==> terms[q] == Times(front[q], n)
    ensures Total(terms) == Times(Total(front), n)
  {
    if terms != [] {
      var last := |terms| - 1;
      TotalScaled(terms[..last], front[..last], n);
      TimesDistribute(Total(front[..last]), front[last], n);
    } else {
      TimesIs(0, n);
    }
  }

  /** Decoding an encoded index gives the index back. */
  lemma {:induction false} DigitsOfLinear(shape: seq<nat>, index: seq<nat>)
    requires InBounds(shape, index)
    ensures Positive(shape) && Digits(shape, Linear(shape, index)) == index
  {
    InBoundsPositive(shape, index);
    if shape != [] {
      var last := |shape| - 1;
      DigitsOfLinear(shape[..last], index[..last]);
      TimesDivMod(Linear(shape[..last], index[..last]), shape[last], index[last]);
      assert index == index[..last] + [index[last]];
    }
  }

  /** Encoding a decoded offset gives the offset back. */
  lemma {:induction false} LinearOfDigits(shape: seq<nat>, linear: nat)
    requires linear < Product(shape)
    ensures Positive(shape) && InBounds(shape, Digits(shape, linear))
    ensures Linear(shape, Digits(shape, linear)) == linear
  {
    PositiveProduct(shape);
    if shape != [] {
      var last := |shape| - 1;
      TimesSplit(linear, Product(shape[..last]), shape[last]);
      LinearOfDigits(shape[..last], linear / shape[last]);
      var d := Digits(shape, linear);
      assert d[..last] == Digits(shape[..last], linear / shape[last]);
      InBoundsSnoc(shape, d);
    }
  }

  lemma InBoundsSnoc(shape: seq<nat>, index: seq<nat>)
    requires |shape| == |index| && shape != []
    ensures var last := |shape| - 1;
      InBounds(shape, index) <==> InBounds(shape[..last], index[..last]) && index[last] < shape[last]
  {
    var last := |shape| - 1;
    if InBounds(shape[..last], index[..last]) && index[last] < shape[last] {
      forall a | 0 <= a < |shape| ensures index[a] < shape[a] {
        if a < last {
          assert index[a] == index[..last][a] && shape[..last][a] == shape[a];
        }
      }
    }
  }

  lemma LinearInjective(shape: seq<nat>, a: seq<nat>, b: seq<nat>)
    requires InBounds(shape, a) && InBounds(shape, b)
    requires Linear(shape, a) == Linear(shape, b)
    ensures a == b
  {
    DigitsOfLinear(shape, a);
    DigitsOfLinear(shape, b);
  }

  /** The numbering is monotone under the pointwise order. */
  lemma {:induction false} LinearMonotone(shape: seq<nat>, a: seq<nat>, b: seq<nat>)
    requires |a| == |b| == |shape|
    requires forall i :: 0 <= i < |a| ==> a[i] <= b[i]
    ensures Linear(shape, a) <= Linear(shape, b)
  {
    if shape != [] {
      var last := |shape| - 1;
      LinearMonotone(shape[..last], a[..last], b[..last]);
      TimesMono(Linear(shape[..last], a[..last]), Linear(shape[..last], b[..last]), shape[last], shape[last]);
    }
  }

  lemma {:induction false} ProductConcat(a: seq<nat>, b: seq<nat>)
    ensures Product(a + b) == Times(Product(a), Product(b))
  {
    if b == [] {
      assert a + b == a;
      TimesIs(Product(a), 1);
    } else {
      var last := |b| - 1;
      ProductConcat(a, b[..last]);
      assert (a + b)[..|a + b| - 1] == a + b[..last];
      TimesAssoc(Product(a), Product(b[..last]), b[last]);
    }
  }

  lemma {:induction false} LinearConcat(s: seq<nat>, t: seq<nat>, x: seq<nat>, y: seq<nat>)
    requires |s| == |x| && |t| == |y|
    ensures Linear(s + t, x + y) == Times(Linear(s, x), Product(t)) + Linear(t, y)
  {
    if t == [] {
      assert s + t == s && x + y == x;
      TimesIs(Linear(s, x), 1);
    } else {
      var last := |t| - 1;
      LinearConcat(s, t[..last], x, y[..last]);
      assert (s + t)[..|s + t| - 1] == s + t[..last];
      assert (x + y)[..|x + y| - 1] == x + y[..last];
      TimesDistribute(Times(Linear(s, x), Product(t[..last])), Linear(t[..last], y[..last]), t[last]);
      TimesAssoc(Linear(s, x), Product(t[..last]), t[last]);
    }
  }

  lemma {:induction false} ProductMonotone(a: seq<nat>, b: seq<nat>)
    requires |a| == |b| && forall i :: 0 <= i < |a| ==> a[i] <= b[i]
    ensures Product(a) <= Product(b)
  {
    if a != [] {
      var last := |a| - 1;
      ProductMonotone(a[..last], b[..last]);
      TimesMono(Product(a[..last]), Product(b[..last]), a[last], b[last]);
    }
  }

  /** A tail of a shape with no zero extent is no larger than the whole, nor is a front. */
  lemma TailProductBound(shape: seq<nat>, k: nat)
    requires k <= |shape| && Positive(shape)
    ensures Product(shape[k..]) <= Product(shape) && Product(shape[..k]) <= Product(shape)
  {
    assert shape == shape[..k] + shape[k..];
    ProductConcat(shape[..k], shape[k..]);
    PositiveProduct(shape[..k]);
    PositiveProduct(shape[k..]);
    TimesIs(Product(shape[..k]), Product(shape[k..]));
    MulMono(1, Product(shape[..k]), Product(shape[k..]));
    MulMono(1, Product(shape[k..]), Product(shape[..k]));
  }

  lemma ProductTail(shape: seq<nat>, k: nat)
    requires k < |shape|
    ensures Product(shape[k..]) == Times(shape[k], Product(shape[k + 1..])) == Times(Product(shape[k + 1..]), shape[k])
  {
    assert shape[k..] == [shape[k]] + shape[k + 1..];
    ProductConcat([shape[k]], shape[k + 1..]);
    assert [shape[k]][..0] == [];
    TimesIs(1, shape[k]);
    TimesComm(shape[k], Product(shape[k + 1..]));
  }

  lemma ProductFront(shape: seq<nat>, k: nat)
    requires k < |shape|
    ensures Product(shape[..k + 1]) == Times(Product(shape[..k]), shape[k])
  {
    assert shape[..k + 1][..k] == shape[..k];
  }

  /** Replacing one extent scales the product by the product of the others. */
  lemma ProductUpdate(shape: seq<nat>, k: nat, v: nat)
    requires k < |shape|
    ensures Product(shape[k := v]) == Times(Product(shape[..k] + shape[k + 1..]), v)
  {
    var s := shape[k := v];
    assert s == shape[..k] + s[k..] && s[k + 1..] == shape[k + 1..];
    ProductConcat(shape[..k], s[k..]);
    ProductTail(s, k);
    ProductConcat(shape[..k], shape[k + 1..]);
    TimesAssoc(Product(shape[..k]), Product(shape[k + 1..]), v);
  }

  lemma ProductRemove(shape: seq<nat>, k: nat)
    requires k < |shape|
    ensures Product(shape) == Times(Product(shape[..k] + shape[k + 1..]), shape[k])
  {
    ProductUpdate(shape, k, shape[k]);
    assert shape[k := shape[k]] == shape;
  }

  /** Setting one coordinate moves the offset by that axis's stride per unit. */
  lemma {:induction false} LinearSet(shape: seq<nat>, index: seq<nat>, p: nat, v: nat)
    requires |index| == |shape| && p < |shape| && index[p] == 0
    ensures Linear(shape, index[p := v]) == Linear(shape, index) + Times(v, Product(shape[p + 1..]))
  {
    var last := |shape| - 1;
    var index' := index[p := v];
    if p == last {
      assert index'[..last] == index[..last];
      assert shape[p + 1..] == [];
      TimesIs(v, 1);
    } else {
      LinearSet(shape[..last], index[..last], p, v);
      assert index'[..last] == index[..last][p := v];
      var tail := shape[p + 1..];
      assert tail[..|tail| - 1] == shape[..last][p + 1..];
      TimesDistribute(Linear(shape[..last], index[..last]), Times(v, Product(shape[..last][p + 1..])), shape[last]);
      TimesAssoc(v, Product(shape[..last][p + 1..]), shape[last]);
    }
  }

  lemma {:induction false} DotUpdate(stride: seq<nat>, index: seq<nat>, p: nat, v: nat)
    requires |index| <= |stride| && p < |index|
    ensures Dot(stride, index[p := v]) + Times(index[p], stride[p]) == Dot(stride, index) + Times(v, stride[p])
  {
    var last := |index| - 1;
    var index' := index[p := v];
    if p == last {
      assert index'[..last] == index[..last];
    } else {
      DotUpdate(stride, index[..last], p, v);
      assert index'[..last] == index[..last][p := v];
    }
  }

  lemma DotStep(stride: seq<nat>, index: seq<nat>, p: nat)
    requires |index| <= |stride| && p < |index|
    ensures Dot(stride, index[p := index[p] + 1]) == Dot(stride, index) + stride[p]
  {
    DotUpdate(stride, index, p, index[p] + 1);
  }

  lemma {:induction false} DotMonotone(stride: seq<nat>, a: seq<nat>, b: seq<nat>)
    requires |a| <= |b| <= |stride|
    requires forall i :: 0 <= i < |a| ==> a[i] <= b[i]
    ensures Dot(stride, a) <= Dot(stride, b)
  {
    if b != [] {
      var last := |b| - 1;
      if |a| <= last {
        DotMonotone(stride, a, b[..last]);
      } else {
        DotMonotone(stride, a[..last], b[..last]);
        TimesMono(a[last], b[last], stride[last], stride[last]);
      }
    }
  }

  lemma {:induction false} DotAdd(stride: seq<nat>, a: seq<nat>, b: seq<nat>, c: seq<nat>)
    requires |a| == |b| == |c| <= |stride|
    requires forall i :: 0 <= i < |a| ==> c[i] == a[i] + b[i]
    ensures Dot(stride, c) == Dot(stride, a) + Dot(stride, b)
  {
    if c != [] {
      var last := |c| - 1;
      DotAdd(stride, a[..last], b[..last], c[..last]);
      TimesDistribute(a[last], b[last], stride[last]);
    }
  }

  lemma {:induction false} DotZeros(stride: seq<nat>, z: seq<nat>)
    requires |z| <= |stride| && forall i :: 0 <= i < |z| ==> z[i] == 0
    ensures Dot(stride, z) == 0
  {
    if z != [] {
      DotZeros(stride, z[..|z| - 1]);
    }
  }

  lemma {:induction false} LinearZeros(shape: seq<nat>, z: seq<nat>)
    requires |z| == |shape| && forall i :: 0 <= i < |z| ==> z[i] == 0
    ensures Linear(shape, z) == 0
  {
    if shape != [] {
      LinearZeros(shape[..|shape| - 1], z[..|shape| - 1]);
    }
  }

  /** The last index of a box has the last offset. */
  lemma {:induction false} LinearOfLast(shape: seq<nat>, index: seq<nat>)
    requires |index| == |shape|
    requires forall a :: 0 <= a < |shape| ==> index[a] + 1 == shape[a]
    ensures Linear(shape, index) + 1 == Product(shape)
  {
    if shape != [] {
      var last := |shape| - 1;
      LinearOfLast(shape[..last], index[..last]);
    }
  }
}
