/** The scaled norm. */
module Norms {
  // One value at a time, merged over ranks, and in two passes. Exact reals; a square root is not taken, so
  // norms are stated squared.

  /** Real products, named so that proofs ask for the facts they use. */
  function Prod(a: real, b: real): real { a * b }

  function Square(a: real): real { Prod(a, a) }

  // ----- What is computed

  /** The sum of the squares. */
  ghost function SumSquares(values: seq<real>): real {
    if values == [] then 0.0 else SumSquares(values[..|values| - 1]) + Square(values[|values| - 1])
  }

  /** The largest value, or zero. */
  ghost function MaxOf(values: seq<real>): (m: real)
    ensures 0.0 <= m && forall i :: 0 <= i < |values| ==> values[i] <= m
    ensures m == 0.0 || m in values
  {
    if values == [] then 0.0
    else
      var rest, last := MaxOf(values[..|values| - 1]), values[|values| - 1];
      if last > rest then last else rest
  }

  ghost predicate NonNegative(values: seq<real>) { forall i :: 0 <= i < |values| ==> 0.0 <= values[i] }

  ghost function Concat(ranks: seq<seq<real>>): seq<real> {
    if ranks == [] then [] else Concat(ranks[..|ranks| - 1]) + ranks[|ranks| - 1]
  }

  lemma {:induction false} SumSquaresConcat(a: seq<real>, b: seq<real>)
    ensures SumSquares(a + b) == SumSquares(a) + SumSquares(b)
  {
    if b == [] {
      assert a + b == a;
    } else {
      var last := |b| - 1;
      SumSquaresConcat(a, b[..last]);
      assert (a + b)[..|a + b| - 1] == a + b[..last];
    }
  }

  /** The sum does not depend on the order of the values. */
  lemma {:induction false} SumSquaresUnordered(a: seq<real>, b: seq<real>)
    requires multiset(a) == multiset(b)
    ensures SumSquares(a) == SumSquares(b)
    decreases |a|
  {
    if a == [] {
      assert |multiset(b)| == 0;
    } else {
      var last := |a| - 1;
      assert a[last] in multiset(b);
      var i :| 0 <= i < |b| && b[i] == a[last];
      Matched(a, b, i);
      SumSquaresUnordered(a[..last], b[..i] + b[i + 1..]);
      SquareTakenOut(b, i);
    }
  }

  lemma Matched(a: seq<real>, b: seq<real>, i: nat)
    requires multiset(a) == multiset(b) && a != [] && i < |b| && b[i] == a[|a| - 1]
    ensures multiset(a[..|a| - 1]) == multiset(b[..i] + b[i + 1..])
  {
    TakenOut(a, |a| - 1);
    assert a[..|a| - 1] + a[|a| - 1 + 1..] == a[..|a| - 1];
    TakenOut(b, i);
  }

  lemma TakenOut(b: seq<real>, i: nat)
    requires i < |b|
    ensures multiset(b[..i] + b[i + 1..]) == multiset(b) - multiset{b[i]}
  {
    var front, one, back := b[..i], [b[i]], b[i + 1..];
    assert b == front + (one + back);
    assert multiset(front + (one + back)) == multiset(front) + (multiset(one) + multiset(back));
    assert multiset(front + back) == multiset(front) + multiset(back);
  }

  /** Any one value can be taken out of the sum. */
  lemma SquareTakenOut(values: seq<real>, i: nat)
    requires i < |values|
    ensures SumSquares(values) == SumSquares(values[..i] + values[i + 1..]) + Square(values[i])
  {
    hide SumSquares;
    SumSquaresConcat(values[..i], [values[i]] + values[i + 1..]);
    SumSquaresConcat([values[i]], values[i + 1..]);
    SumSquaresConcat(values[..i], values[i + 1..]);
    assert values == values[..i] + ([values[i]] + values[i + 1..]);
    OneSquare(values[i]);
  }

  lemma OneSquare(a: real)
    ensures SumSquares([a]) == Square(a)
  {
    assert [a][..0] == [];
  }

  // ----- One value at a time

  /** `scale` is the largest value, and `scale * scale * ssq` the sum of squares. */
  ghost predicate Holds(scale: real, ssq: real, values: seq<real>) {
    && scale == MaxOf(values) && Prod(Square(scale), ssq) == SumSquares(values)
    && 0.0 <= ssq <= |values| as real && (if scale > 0.0 then 1.0 <= ssq else ssq == 0.0)
  }

  lemma Positive(x: real, y: real)
    requires 0.0 < x && 0.0 < y
    ensures 0.0 < x * y && 0.0 < Prod(x, y)
  {
  }

  lemma RatioFacts(a: real, b: real)
    requires 0.0 <= a <= b && 0.0 < b
    ensures 0.0 <= a / b <= 1.0 && 0.0 <= Square(a / b) <= 1.0
    ensures Prod(Square(b), Square(a / b)) == Square(a)
  {
    var q := a / b;
    assert q * b == a;
    if q > 1.0 {
      Positive(q - 1.0, b);
      assert false;
    }
    if q < 0.0 {
      Positive(-q, b);
      assert false;
    }
    assert q * q <= q * 1.0;
    assert (b * b) * (q * q) == (q * b) * (q * b);
  }

  lemma ScaleDown(ssq: real, q: real)
    requires 0.0 <= ssq && 0.0 <= Square(q) <= 1.0
    ensures 0.0 <= Prod(Prod(ssq, q), q) <= ssq
    ensures Prod(Prod(ssq, q), q) == Prod(ssq, Square(q))
  {
    assert ssq * q * q == ssq * (q * q);
    assert ssq * (q * q) <= ssq * 1.0;
    assert ssq * (q * q) >= 0.0;
  }

  /** Rescaling the sum to a larger scale keeps the sum of squares it stands for. */
  lemma Rescale(scale: real, ssq: real, larger: real)
    requires 0.0 <= scale <= larger && 0.0 < larger && 0.0 <= ssq
    ensures var q := scale / larger;
      0.0 <= q <= 1.0 && 0.0 <= Prod(Prod(ssq, q), q) <= ssq
        && Prod(Square(larger), Prod(Prod(ssq, q), q)) == Prod(Square(scale), ssq)
  {
    var q := scale / larger;
    RatioFacts(scale, larger);
    ScaleDown(ssq, q);
    var l, s := Square(larger), Square(q);
    assert l * (ssq * s) == ssq * (l * s);
    assert Prod(l, s) == Square(scale);
    assert ssq * Square(scale) == Square(scale) * ssq;
  }

  lemma ProdAdd(a: real, b: real, c: real)
    ensures Prod(a, b + c) == Prod(a, b) + Prod(a, c)
  {
  }

  class NormState {
    var scale: real
    var ssq: real

    constructor ()
      ensures Holds(scale, ssq, [])
    {
      scale, ssq := 0.0, 0.0;
    }

    /** Adds one magnitude. No step divides by zero, and every ratio is at most one. */
    method Push(a: real, ghost pushed: seq<real>)
      requires 0.0 <= a && Holds(scale, ssq, pushed)
      modifies this
      ensures Holds(scale, ssq, pushed + [a])
    {
      hide Prod;
      assert (pushed + [a])[..|pushed|] == pushed;
      if a == 0.0 {
        assert Square(0.0) == 0.0 by {
          ZeroSquare();
        }
        return;
      }
      if a > scale {
        Rescale(scale, ssq, a);
        var ratio := scale / a;
        var small := Prod(Prod(ssq, ratio), ratio);
        ProdAdd(Square(a), 1.0, small);
        ProdOne(Square(a));
        ssq := 1.0 + small;
        scale := a;
      } else {
        RatioFacts(a, scale);
        var ratio := a / scale;
        ProdAdd(Square(scale), ssq, Prod(ratio, ratio));
        ssq := ssq + Prod(ratio, ratio);
      }
    }

    /** Pushes every value of a rank. */
    method PushAll(values: seq<real>)
      requires NonNegative(values) && Holds(scale, ssq, [])
      modifies this
      ensures Holds(scale, ssq, values)
    {
      for i := 0 to |values|
        invariant Holds(scale, ssq, values[..i])
      {
        Push(values[i], values[..i]);
        assert values[..i + 1] == values[..i] + [values[i]];
      }
      assert values[..|values|] == values;
    }
  }

  lemma ZeroSquare()
    ensures Square(0.0) == 0.0
  {
  }

  lemma ProdOne(a: real)
    ensures Prod(a, 1.0) == a
  {
  }

  // ----- All ranks

  /** The state a rank holds when its values are pushed. */
  datatype RankNorm = RankNorm(scale: real, ssq: real)

  /** The all-reduce by maximum. */
  ghost function MaxReduce(x: seq<real>): real { MaxOf(x) }

  /** The all-reduce by sum. */
  ghost function SumReduce(x: seq<real>): real {
    if x == [] then 0.0 else SumReduce(x[..|x| - 1]) + x[|x| - 1]
  }

  ghost function Scales(states: seq<RankNorm>): (x: seq<real>)
    ensures |x| == |states| && forall p :: 0 <= p < |x| ==> x[p] == states[p].scale
  {
    seq(|states|, p requires 0 <= p < |states| => states[p].scale)
  }

  /** What rank `p` contributes to the sum: its `ssq` brought to the global scale. */
  ghost function Contribution(s: RankNorm, global: real): real
    requires global != 0.0
  {
    var ratio := s.scale / global;
    Prod(Prod(s.ssq, ratio), ratio)
  }

  ghost function Contributions(states: seq<RankNorm>, global: real): (x: seq<real>)
    requires global != 0.0
    ensures |x| == |states| && forall p :: 0 <= p < |x| ==> x[p] == Contribution(states[p], global)
  {
    seq(|states|, p requires 0 <= p < |states| => Contribution(states[p], global))
  }

  /** The square of the value every rank returns. */
  ghost function FinishSquared(states: seq<RankNorm>): real {
    var global := MaxReduce(Scales(states));
    if global == 0.0 then 0.0 else Prod(Square(global), SumReduce(Contributions(states, global)))
  }

  ghost predicate Pushed(states: seq<RankNorm>, ranks: seq<seq<real>>) {
    && |states| == |ranks|
    && forall p :: 0 <= p < |ranks| ==> NonNegative(ranks[p]) && Holds(states[p].scale, states[p].ssq, ranks[p])
  }

  /** However the values lie over the ranks, the merged norm is that of all values. */
  lemma MergedNorm(states: seq<RankNorm>, ranks: seq<seq<real>>)
    requires Pushed(states, ranks)
    ensures FinishSquared(states) == SumSquares(Concat(ranks))
  {
    var global := MaxReduce(Scales(states));
    forall p | 0 <= p < |states| ensures 0.0 <= states[p].scale <= global {
      assert Scales(states)[p] == states[p].scale;
    }
    if global == 0.0 {
      AllZero(states, ranks);
    } else {
      MergedSum(states, ranks, global);
    }
  }

  lemma {:induction false} AllZero(states: seq<RankNorm>, ranks: seq<seq<real>>)
    requires Pushed(states, ranks) && forall p :: 0 <= p < |states| ==> states[p].scale == 0.0
    ensures SumSquares(Concat(ranks)) == 0.0
  {
    if ranks != [] {
      var last := |ranks| - 1;
      AllZero(states[..last], ranks[..last]);
      SumSquaresConcat(Concat(ranks[..last]), ranks[last]);
      assert Prod(Square(0.0), states[last].ssq) == 0.0;
    }
  }

  lemma {:induction false} MergedSum(states: seq<RankNorm>, ranks: seq<seq<real>>, global: real)
    requires Pushed(states, ranks) && 0.0 < global && forall p :: 0 <= p < |states| ==> 0.0 <= states[p].scale <= global
    ensures Prod(Square(global), SumReduce(Contributions(states, global))) == SumSquares(Concat(ranks))
  {
    if ranks == [] {
      assert Prod(Square(global), 0.0) == 0.0;
    } else {
      hide Prod;
      hide Square;
      hide Holds;
      hide SumSquares;
      var last := |ranks| - 1;
      var all := Contributions(states, global);
      MergedSum(states[..last], ranks[..last], global);
      assert all[..last] == Contributions(states[..last], global);
      OneContribution(states[last], ranks[last], global);
      ProdAdd(Square(global), SumReduce(all[..last]), all[last]);
      SumSquaresConcat(Concat(ranks[..last]), ranks[last]);
    }
  }

  lemma OneContribution(s: RankNorm, values: seq<real>, global: real)
    requires 0.0 < global && 0.0 <= s.scale <= global && Holds(s.scale, s.ssq, values)
    ensures Prod(Square(global), Contribution(s, global)) == SumSquares(values)
  {
    hide Prod;
    hide Square;
    Rescale(s.scale, s.ssq, global);
  }

  // ----- Two passes

  /** The fold of the second pass over one rank's values. */
  ghost function ScaledSum(values: seq<real>, global: real): real
    requires global != 0.0
  {
    if values == [] then 0.0 else ScaledSum(values[..|values| - 1], global) + Square(values[|values| - 1] / global)
  }

  method LocalMax(values: seq<real>) returns (m: real)
    requires NonNegative(values)
    ensures m == MaxOf(values)
  {
    m := 0.0;
    for i := 0 to |values|
      invariant m == MaxOf(values[..i])
    {
      assert values[..i + 1][..i] == values[..i];
      m := if values[i] > m then values[i] else m;
    }
    assert values[..|values|] == values;
  }

  method LocalScaled(values: seq<real>, global: real) returns (sum: real)
    requires global != 0.0
    ensures sum == ScaledSum(values, global)
  {
    sum := 0.0;
    for i := 0 to |values|
      invariant sum == ScaledSum(values[..i], global)
    {
      assert values[..i + 1][..i] == values[..i];
      var ratio := values[i] / global;
      sum := sum + Prod(ratio, ratio);
    }
    assert values[..|values|] == values;
  }

  ghost function Maxima(ranks: seq<seq<real>>): (x: seq<real>)
    ensures |x| == |ranks| && forall p :: 0 <= p < |x| ==> x[p] == MaxOf(ranks[p])
  {
    seq(|ranks|, p requires 0 <= p < |ranks| => MaxOf(ranks[p]))
  }

  ghost function ScaledSums(ranks: seq<seq<real>>, global: real): (x: seq<real>)
    requires global != 0.0
    ensures |x| == |ranks| && forall p :: 0 <= p < |x| ==> x[p] == ScaledSum(ranks[p], global)
  {
    seq(|ranks|, p requires 0 <= p < |ranks| => ScaledSum(ranks[p], global))
  }

  ghost function TwoPassSquared(ranks: seq<seq<real>>): real {
    var global := MaxReduce(Maxima(ranks));
    if global == 0.0 then 0.0 else Prod(Square(global), SumReduce(ScaledSums(ranks, global)))
  }

  lemma {:induction false} ScaledSumIs(values: seq<real>, global: real)
    requires 0.0 < global && NonNegative(values) && forall i :: 0 <= i < |values| ==> values[i] <= global
    ensures Prod(Square(global), ScaledSum(values, global)) == SumSquares(values)
  {
    if values == [] {
      assert Prod(Square(global), 0.0) == 0.0;
    } else {
      hide Prod;
      var last := |values| - 1;
      ScaledSumIs(values[..last], global);
      RatioFacts(values[last], global);
      ProdAdd(Square(global), ScaledSum(values[..last], global), Square(values[last] / global));
    }
  }

  lemma {:induction false} TwoPassSum(ranks: seq<seq<real>>, global: real)
    requires 0.0 < global && forall p :: 0 <= p < |ranks| ==> NonNegative(ranks[p]) && MaxOf(ranks[p]) <= global
    ensures Prod(Square(global), SumReduce(ScaledSums(ranks, global))) == SumSquares(Concat(ranks))
  {
    if ranks == [] {
      assert Prod(Square(global), 0.0) == 0.0;
    } else {
      hide Prod;
      var last := |ranks| - 1;
      var all := ScaledSums(ranks, global);
      TwoPassSum(ranks[..last], global);
      assert all[..last] == ScaledSums(ranks[..last], global);
      assert MaxOf(ranks[last]) <= global;
      ScaledSumIs(ranks[last], global);
      ProdAdd(Square(global), SumReduce(all[..last]), all[last]);
      SumSquaresConcat(Concat(ranks[..last]), ranks[last]);
    }
  }

  /** The two-pass norm is the same number. */
  lemma TwoPassNorm(ranks: seq<seq<real>>)
    requires forall p :: 0 <= p < |ranks| ==> NonNegative(ranks[p])
    ensures TwoPassSquared(ranks) == SumSquares(Concat(ranks))
  {
    var global := MaxReduce(Maxima(ranks));
    forall p | 0 <= p < |ranks| ensures MaxOf(ranks[p]) <= global {
      assert Maxima(ranks)[p] == MaxOf(ranks[p]);
    }
    if global == 0.0 {
      ZeroNorm(ranks);
    } else {
      TwoPassSum(ranks, global);
    }
  }

  lemma {:induction false} ZeroNorm(ranks: seq<seq<real>>)
    requires forall p :: 0 <= p < |ranks| ==> NonNegative(ranks[p]) && MaxOf(ranks[p]) == 0.0
    ensures SumSquares(Concat(ranks)) == 0.0
  {
    if ranks != [] {
      var last := |ranks| - 1;
      ZeroNorm(ranks[..last]);
      SumSquaresConcat(Concat(ranks[..last]), ranks[last]);
      ZeroValues(ranks[last]);
    }
  }

  lemma {:induction false} ZeroValues(values: seq<real>)
    requires NonNegative(values) && MaxOf(values) == 0.0
    ensures SumSquares(values) == 0.0
  {
    if values != [] {
      var last := |values| - 1;
      assert values[last] == 0.0;
      assert MaxOf(values[..last]) == 0.0;
      ZeroValues(values[..last]);
      ZeroSquare();
    }
  }

  // ----- What one rank does

  /** The state after all pushes is determined by the values. */
  lemma HoldsIsUnique(a: RankNorm, b: RankNorm, values: seq<real>)
    requires Holds(a.scale, a.ssq, values) && Holds(b.scale, b.ssq, values)
    ensures a == b
  {
    if a.scale > 0.0 {
      Cancel(a.scale, a.ssq, b.ssq);
    }
  }

  lemma SquarePositive(a: real)
    requires 0.0 < a
    ensures 0.0 < Square(a)
  {
    hide Prod;
    Positive(a, a);
  }

  lemma Cancel(scale: real, x: real, y: real)
    requires 0.0 < scale && Prod(Square(scale), x) == Prod(Square(scale), y)
    ensures x == y
  {
    SquarePositive(scale);
    hide Square;
    CancelFactor(Square(scale), x, y);
  }

  lemma CancelFactor(s: real, x: real, y: real)
    requires 0.0 < s && Prod(s, x) == Prod(s, y)
    ensures x == y
  {
    if x > y {
      Positive(s, x - y);
      assert false;
    } else if x < y {
      Positive(s, y - x);
      assert false;
    }
  }

  /** One rank of the one-pass norm: it contributes its entry to each reduction, and with the results of
      the reductions returns the sum of squares of the values of all ranks. */
  method OnePassNorm(values: seq<real>, ghost rank: nat, ghost ranks: seq<seq<real>>, ghost states: seq<RankNorm>,
                     globalScale: real, globalSsq: real, globalCount: nat)
    returns (state: RankNorm, contribution: real, squared: real)
    requires rank < |ranks| && ranks[rank] == values && Pushed(states, ranks) && globalCount == |Concat(ranks)|
    requires globalScale == MaxReduce(Scales(states))
    requires globalScale != 0.0 ==> globalSsq == SumReduce(Contributions(states, globalScale))
    ensures state == states[rank] && squared == SumSquares(Concat(ranks))
    ensures globalScale != 0.0 && globalCount != 0 ==> contribution == Contributions(states, globalScale)[rank]
  {
    MergedNorm(states, ranks);
    var pushed := new NormState();
    pushed.PushAll(values);
    state := RankNorm(pushed.scale, pushed.ssq);
    HoldsIsUnique(state, states[rank], values);
    contribution := 0.0;
    if globalScale == 0.0 || globalCount == 0 {
      NoValues(Concat(ranks));
      return state, contribution, 0.0;
    }
    var ratio := state.scale / globalScale;
    contribution := Prod(Prod(state.ssq, ratio), ratio);
    squared := Prod(Square(globalScale), globalSsq);
  }

  lemma NoValues(values: seq<real>)
    ensures |values| == 0 ==> SumSquares(values) == 0.0
  {
  }

  /** One rank of the two-pass norm. */
  method TwoPassNormOf(values: seq<real>, ghost rank: nat, ghost ranks: seq<seq<real>>, globalMax: real,
                       globalScaled: real, globalCount: nat)
    returns (localMax: real, localScaled: real, squared: real)
    requires rank < |ranks| && ranks[rank] == values && globalCount == |Concat(ranks)|
    requires forall p :: 0 <= p < |ranks| ==> NonNegative(ranks[p])
    requires globalMax == MaxReduce(Maxima(ranks))
    requires globalMax != 0.0 ==> globalScaled == SumReduce(ScaledSums(ranks, globalMax))
    ensures localMax == Maxima(ranks)[rank] && squared == SumSquares(Concat(ranks))
    ensures globalMax != 0.0 && globalCount != 0 ==> localScaled == ScaledSums(ranks, globalMax)[rank]
  {
    TwoPassNorm(ranks);
    localMax := LocalMax(values);
    localScaled := 0.0;
    if globalMax == 0.0 || globalCount == 0 {
      NoValues(Concat(ranks));
      return localMax, localScaled, 0.0;
    }
    localScaled := LocalScaled(values, globalMax);
    squared := Prod(Square(globalMax), globalScaled);
  }

  /** One pass or two, over any ranks and in any order, the norm is the same. */
  lemma NormIsIndependent(states: seq<RankNorm>, a: seq<seq<real>>, b: seq<seq<real>>)
    requires Pushed(states, a) && multiset(Concat(a)) == multiset(Concat(b))
    requires forall p :: 0 <= p < |b| ==> NonNegative(b[p])
    ensures FinishSquared(states) == TwoPassSquared(b) == SumSquares(Concat(a))
  {
    MergedNorm(states, a);
    TwoPassNorm(b);
    SumSquaresUnordered(Concat(a), Concat(b));
  }
}
