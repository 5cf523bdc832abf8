/** Complex numbers and linear maps on lines. */
module Complexes {
  datatype Complex = Complex(re: real, im: real)

  const ZERO: Complex := Complex(0.0, 0.0)

  function Add(a: Complex, b: Complex): Complex { Complex(a.re + b.re, a.im + b.im) }

  function Mul(a: Complex, b: Complex): Complex {
    Complex(RealMul(a.re, b.re) - RealMul(a.im, b.im), RealMul(a.re, b.im) + RealMul(a.im, b.re))
  }

  /** Real products, named so that proofs ask for the facts they use. */
  function RealMul(a: real, b: real): real { a * b }

  lemma RealMulAssoc(a: real, b: real, c: real)
    ensures RealMul(a, RealMul(b, c)) == RealMul(RealMul(a, b), c)
  {
  }

  lemma RealMulComm(a: real, b: real)
    ensures RealMul(a, b) == RealMul(b, a)
  {
  }

  lemma RealMulAdd(a: real, b: real, c: real)
    ensures RealMul(a, b + c) == RealMul(a, b) + RealMul(a, c)
    ensures RealMul(a, b - c) == RealMul(a, b) - RealMul(a, c)
  {
  }

  lemma MulAdd(a: Complex, b: Complex, c: Complex)
    ensures Mul(a, Add(b, c)) == Add(Mul(a, b), Mul(a, c))
  {
    RealMulAdd(a.re, b.re, c.re);
    RealMulAdd(a.im, b.im, c.im);
    RealMulAdd(a.re, b.im, c.im);
    RealMulAdd(a.im, b.re, c.re);
  }

  /** Multiplications by two factors can be done in either order. */
  lemma MulSwap(a: Complex, b: Complex, c: Complex)
    ensures Mul(a, Mul(b, c)) == Mul(b, Mul(a, c))
  {
    SwapReal(a.re, b.re, c.re);
    SwapReal(a.re, b.im, c.im);
    SwapReal(a.im, b.re, c.im);
    SwapReal(a.im, b.im, c.re);
    SwapReal(a.re, b.re, c.im);
    SwapReal(a.re, b.im, c.re);
    SwapReal(a.im, b.re, c.re);
    SwapReal(a.im, b.im, c.im);
    var x, y := Mul(b, c), Mul(a, c);
    RealMulAdd(a.re, RealMul(b.re, c.re), RealMul(b.im, c.im));
    RealMulAdd(a.im, RealMul(b.re, c.im), RealMul(b.im, c.re));
    RealMulAdd(a.re, RealMul(b.re, c.im), RealMul(b.im, c.re));
    RealMulAdd(a.im, RealMul(b.re, c.re), RealMul(b.im, c.im));
    RealMulAdd(b.re, RealMul(a.re, c.re), RealMul(a.im, c.im));
    RealMulAdd(b.im, RealMul(a.re, c.im), RealMul(a.im, c.re));
    RealMulAdd(b.re, RealMul(a.re, c.im), RealMul(a.im, c.re));
    RealMulAdd(b.im, RealMul(a.re, c.re), RealMul(a.im, c.im));
  }

  lemma SwapReal(a: real, b: real, c: real)
    ensures RealMul(a, RealMul(b, c)) == RealMul(b, RealMul(a, c))
  {
    RealMulAssoc(a, b, c);
    RealMulAssoc(b, a, c);
    RealMulComm(a, b);
  }

  lemma AddSwap(a: Complex, b: Complex, c: Complex, d: Complex)
    ensures Add(Add(a, b), Add(c, d)) == Add(Add(a, c), Add(b, d))
  {
  }

  lemma MulZero(a: Complex)
    ensures Mul(a, ZERO) == ZERO
  {
  }

  // ----- Linear maps on lines

  type Line = seq<Complex>

  /** One output bin: the sum of products of a matrix row with the line. */
  function Bin(row: Line, line: Line): Complex
    requires |row| == |line|
  {
    if row == [] then ZERO
    else Add(Bin(row[..|row| - 1], line[..|line| - 1]), Mul(row[|row| - 1], line[|line| - 1]))
  }

  ghost predicate IsKernel(matrix: seq<Line>, n: nat) {
    |matrix| == n && forall k :: 0 <= k < n ==> |matrix[k]| == n
  }

  /** What the one-dimensional plan computes: any linear map of lines of length `n`. */
  ghost function Transform(matrix: seq<Line>, line: Line): (out: Line)
    requires IsKernel(matrix, |line|)
    ensures |out| == |line| && forall k :: 0 <= k < |line| ==> out[k] == Bin(matrix[k], line)
  {
    seq(|line|, k requires 0 <= k < |line| => Bin(matrix[k], line))
  }

  /** The second kernel undoes the first. */
  ghost predicate Undoes(inverse: seq<Line>, forward: seq<Line>, n: nat) {
    && IsKernel(inverse, n) && IsKernel(forward, n)
    && forall line: Line {:trigger Transform(inverse, Transform(forward, line))} ::
         |line| == n ==> Transform(inverse, Transform(forward, line)) == line
  }

  lemma UndoesAt(inverse: seq<Line>, forward: seq<Line>, line: Line)
    requires Undoes(inverse, forward, |line|)
    ensures IsKernel(inverse, |line|) && IsKernel(forward, |line|)
      && Transform(inverse, Transform(forward, line)) == line
  {
  }

  ghost function Sum(a: Line, b: Line): (c: Line)
    requires |a| == |b|
    ensures |c| == |a| && forall k :: 0 <= k < |a| ==> c[k] == Add(a[k], b[k])
  {
    seq(|a|, k requires 0 <= k < |a| => Add(a[k], b[k]))
  }

  lemma {:induction false} BinOfSum(row: Line, a: Line, b: Line)
    requires |row| == |a| == |b|
    ensures Bin(row, Sum(a, b)) == Add(Bin(row, a), Bin(row, b))
  {
    if row != [] {
      var last := |row| - 1;
      assert Sum(a, b)[..last] == Sum(a[..last], b[..last]);
      BinOfSum(row[..last], a[..last], b[..last]);
      MulAdd(row[last], a[last], b[last]);
      AddSwap(Bin(row[..last], a[..last]), Bin(row[..last], b[..last]), Mul(row[last], a[last]),
              Mul(row[last], b[last]));
    }
  }

  /** The row of bins of each of `n` lines, all against the same row. */
  ghost function Bins(row: Line, lines: seq<Line>): (out: Line)
    requires forall j :: 0 <= j < |lines| ==> |lines[j]| == |row|
    ensures |out| == |lines| && forall j :: 0 <= j < |lines| ==> out[j] == Bin(row, lines[j])
  {
    seq(|lines|, j requires 0 <= j < |lines| => Bin(row, lines[j]))
  }

  ghost function ColumnOf(lines: seq<Line>, m: nat): (column: Line)
    requires forall j :: 0 <= j < |lines| ==> m < |lines[j]|
    ensures |column| == |lines| && forall j :: 0 <= j < |lines| ==> column[j] == lines[j][m]
  {
    seq(|lines|, j requires 0 <= j < |lines| => lines[j][m])
  }

  ghost function Columns(lines: seq<Line>, n: nat): (columns: seq<Line>)
    requires forall j :: 0 <= j < |lines| ==> |lines[j]| == n
    ensures |columns| == n && forall m :: 0 <= m < n ==> columns[m] == ColumnOf(lines, m)
  {
    seq(n, m requires 0 <= m < n => ColumnOf(lines, m))
  }

  /** Summing first along the lines or first along the columns gives the same: the two passes of a
      two-dimensional transform commute. */
  lemma {:induction false} SumsCommute(a: Line, b: Line, lines: seq<Line>)
    requires |lines| == |a| && forall j :: 0 <= j < |lines| ==> |lines[j]| == |b|
    ensures Bin(a, Bins(b, lines)) == Bin(b, Bins(a, Columns(lines, |b|)))
    decreases |a|
  {
    hide Mul;
    hide Add;
    var columns := Columns(lines, |b|);
    if a == [] {
      forall m | 0 <= m < |b| ensures Bins(a, columns)[m] == ZERO {
      }
      BinOfZeros(b, Bins(a, columns));
    } else {
      var last := |a| - 1;
      var front := lines[..last];
      SumsCommute(a[..last], b, front);
      var rest, x := Bins(a[..last], Columns(front, |b|)), a[last];
      assert Bins(b, lines)[..last] == Bins(b, front);
      LastLine(a, |b|, lines);
      BinOfSum(b, rest, Scaled(x, lines[last]));
      BinOfScaled(b, x, lines[last]);
    }
  }

  /** What the last line adds to the bins of all columns. */
  lemma LastLine(a: Line, n: nat, lines: seq<Line>)
    requires a != [] && |lines| == |a| && forall j :: 0 <= j < |lines| ==> |lines[j]| == n
    ensures var last := |a| - 1;
      Bins(a, Columns(lines, n)) == Sum(Bins(a[..last], Columns(lines[..last], n)), Scaled(a[last], lines[last]))
  {
    hide Mul;
    hide Add;
    var last := |a| - 1;
    var columns, rest := Columns(lines, n), Bins(a[..last], Columns(lines[..last], n));
    forall m | 0 <= m < n ensures Bins(a, columns)[m] == Sum(rest, Scaled(a[last], lines[last]))[m] {
      assert columns[m][..last] == Columns(lines[..last], n)[m];
    }
  }

  lemma {:induction false} BinOfZeros(row: Line, zeros: Line)
    requires |row| == |zeros| && forall k :: 0 <= k < |zeros| ==> zeros[k] == ZERO
    ensures Bin(row, zeros) == ZERO
  {
    if row != [] {
      BinOfZeros(row[..|row| - 1], zeros[..|zeros| - 1]);
      MulZero(row[|row| - 1]);
    }
  }

  ghost function Scaled(x: Complex, a: Line): (c: Line)
    ensures |c| == |a| && forall k :: 0 <= k < |a| ==> c[k] == Mul(x, a[k])
  {
    seq(|a|, k requires 0 <= k < |a| => Mul(x, a[k]))
  }

  lemma {:induction false} BinOfScaled(row: Line, x: Complex, a: Line)
    requires |row| == |a|
    ensures Bin(row, Scaled(x, a)) == Mul(x, Bin(row, a))
  {
    if row == [] {
      MulZero(x);
    } else {
      var last := |row| - 1;
      assert Scaled(x, a)[..last] == Scaled(x, a[..last]);
      BinOfScaled(row[..last], x, a[..last]);
      MulSwap(row[last], x, a[last]);
      MulAdd(x, Bin(row[..last], a[..last]), Mul(row[last], a[last]));
    }
  }
}
