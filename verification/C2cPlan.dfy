/** The loops of a multidimensional plan: gather a strided line, transform it, scatter it back. */
module C2cPlans {
  import opened MachineInts
  import opened Nonlinear
  import opened MixedRadix
  import opened Complexes
  import opened C2cNd

  // ----- Lines by number

  /** The index on line `(a, b)` at position `k`: `a` counts the axes before `p`, `b` those after. */
  ghost function LineIndex(shape: seq<nat>, p: nat, a: nat, b: nat, k: nat): (g: seq<nat>)
    requires p < |shape| && a < Product(shape[..p]) && b < Product(shape[p + 1..])
    ensures |g| == |shape| && g[p] == k
  {
    PositiveProduct(shape[..p]);
    PositiveProduct(shape[p + 1..]);
    Digits(shape[..p], a) + [k] + Digits(shape[p + 1..], b)
  }

  /** Linear offsets in two parts around position `p`. */
  lemma LinearAround(shape: seq<nat>, p: nat, g: seq<nat>)
    requires p < |shape| == |g|
    ensures var stride := Product(shape[p + 1..]);
      Linear(shape, g) ==
        Times(Times(Linear(shape[..p], g[..p]), shape[p]), stride) + Times(g[p], stride) +
          Linear(shape[p + 1..], g[p + 1..])
  {
    hide Linear;
    hide Product;
    var front, back := shape[..p], shape[p + 1..];
    var stride, a, b := Product(back), Linear(front, g[..p]), Linear(back, g[p + 1..]);
    assert shape == shape[..p + 1] + back && g == g[..p + 1] + g[p + 1..];
    LinearConcat(shape[..p + 1], back, g[..p + 1], g[p + 1..]);
    LinearFront(shape, p, g);
    TimesDistribute(Times(a, shape[p]), g[p], stride);
  }

  lemma LinearFront(shape: seq<nat>, p: nat, g: seq<nat>)
    requires p < |shape| == |g|
    ensures Linear(shape[..p + 1], g[..p + 1]) == Times(Linear(shape[..p], g[..p]), shape[p]) + g[p]
  {
    assert shape[..p + 1][..p] == shape[..p] && g[..p + 1][..p] == g[..p];
  }

  lemma LineIndexCell(shape: seq<nat>, p: nat, a: nat, b: nat, k: nat)
    requires p < |shape| && a < Product(shape[..p]) && b < Product(shape[p + 1..]) && k < shape[p]
    ensures InBounds(shape, LineIndex(shape, p, a, b, k))
    ensures Linear(shape, LineIndex(shape, p, a, b, k)) ==
      Times(Times(a, shape[p]), Product(shape[p + 1..])) + Times(k, Product(shape[p + 1..])) + b
    ensures Linear(shape, LineIndex(shape, p, a, b, k)) < Product(shape)
  {
    var g := LineIndex(shape, p, a, b, k);
    LinearOfDigits(shape[..p], a);
    LinearOfDigits(shape[p + 1..], b);
    assert g[..p] == Digits(shape[..p], a) && g[p + 1..] == Digits(shape[p + 1..], b);
    forall i | 0 <= i < |shape| ensures g[i] < shape[i] {
      if i > p {
        assert shape[i] == shape[p + 1..][i - p - 1] && g[i] == g[p + 1..][i - p - 1];
      }
    }
    LinearAround(shape, p, g);
    LinearBound(shape, g);
  }

  /** The number of the line through `g`, in the order the loops visit lines. */
  ghost function LineNumber(shape: seq<nat>, p: nat, g: seq<nat>): nat
    requires p < |shape| == |g|
  {
    Times(Linear(shape[..p], g[..p]), Product(shape[p + 1..])) + Linear(shape[p + 1..], g[p + 1..])
  }

  lemma LineNumberBound(shape: seq<nat>, p: nat, g: seq<nat>)
    requires p < |shape| && InBounds(shape, g)
    ensures LineNumber(shape, p, g) < Times(Product(shape[..p]), Product(shape[p + 1..]))
  {
    LinearBound(shape[..p], g[..p]);
    LinearBound(shape[p + 1..], g[p + 1..]);
    TimesRow(Linear(shape[..p], g[..p]), Product(shape[..p]), Product(shape[p + 1..]),
             Linear(shape[p + 1..], g[p + 1..]));
  }

  /** An index has the number of line `(a, b)` exactly if it lies on it. */
  lemma OnLine(shape: seq<nat>, p: nat, a: nat, b: nat, g: seq<nat>)
    requires p < |shape| && a < Product(shape[..p]) && b < Product(shape[p + 1..]) && InBounds(shape, g)
    ensures LineNumber(shape, p, g) == Times(a, Product(shape[p + 1..])) + b <==> g == LineIndex(shape, p, a, b, g[p])
  {
    hide Linear;
    hide Product;
    var front, back := shape[..p], shape[p + 1..];
    LinearOfDigits(front, a);
    LinearOfDigits(back, b);
    LinearBound(back, g[p + 1..]);
    var h := LineIndex(shape, p, a, b, g[p]);
    assert h[..p] == Digits(front, a) && h[p + 1..] == Digits(back, b);
    TimesDivMod(a, Product(back), b);
    TimesDivMod(Linear(front, g[..p]), Product(back), Linear(back, g[p + 1..]));
    if LineNumber(shape, p, g) == Times(a, Product(back)) + b {
      LinearInjective(front, g[..p], h[..p]);
      LinearInjective(back, g[p + 1..], h[p + 1..]);
      assert g == g[..p] + [g[p]] + g[p + 1..] && h == h[..p] + [h[p]] + h[p + 1..];
    }
  }

  // ----- Gather and scatter

  ghost function StrideCell(at: nat, stride: nat, k: nat): nat { at + Times(k, stride) }

  /** `cells[k]` is the place of element `k` of a strided line. */
  ghost predicate LineCells(cells: seq<nat>, at: nat, stride: nat, len: nat, total: nat) {
    && |cells| == len && (forall k :: 0 <= k < len ==> cells[k] == StrideCell(at, stride, k) && cells[k] < total)
    && forall j, k :: 0 <= j < k < len ==> cells[j] != cells[k]
  }

  method Gather(data: array<Complex>, at: usize, stride: usize, lineIn: array<Complex>, ghost cells: seq<nat>)
    requires LineCells(cells, at, stride, lineIn.Length, data.Length) && data.Length <= USIZE_MAX && data != lineIn
    modifies lineIn
    ensures forall k :: 0 <= k < lineIn.Length ==> lineIn[k] == data[cells[k]]
  {
    for k := 0 to lineIn.Length
      invariant forall j :: 0 <= j < k ==> lineIn[j] == data[cells[j]]
    {
      assert cells[k] == StrideCell(at, stride, k);
      var step := Multiply(k, stride);
      var index: usize := at + step;
      lineIn[k] := data[index];
    }
  }

  method Scatter(lineOut: array<Complex>, data: array<Complex>, at: usize, stride: usize, ghost cells: seq<nat>)
    requires LineCells(cells, at, stride, lineOut.Length, data.Length) && data.Length <= USIZE_MAX && data != lineOut
    modifies data
    ensures forall k :: 0 <= k < lineOut.Length ==> data[cells[k]] == lineOut[k]
    ensures forall c :: 0 <= c < data.Length && c !in cells ==> data[c] == old(data[c])
  {
    for k := 0 to lineOut.Length
      invariant forall j :: 0 <= j < k ==> data[cells[j]] == lineOut[j]
      invariant forall c :: 0 <= c < data.Length && c !in cells ==> data[c] == old(data[c])
    {
      assert cells[k] == StrideCell(at, stride, k);
      var step := Multiply(k, stride);
      var index: usize := at + step;
      assert cells[k] in cells;
      data[index] := lineOut[k];
    }
  }

  /** The one-dimensional plan, as the linear map it computes. */
  method TransformLine(kernel: seq<Line>, lineIn: array<Complex>, lineOut: array<Complex>)
    requires IsKernel(kernel, lineIn.Length) && lineOut.Length == lineIn.Length && lineIn != lineOut
    modifies lineOut
    ensures lineOut[..] == Transform(kernel, lineIn[..])
  {
    for k := 0 to lineOut.Length
      invariant forall j :: 0 <= j < k ==> lineOut[j] == Bin(kernel[j], lineIn[..])
    {
      lineOut[k] := Bin(kernel[k], lineIn[..]);
    }
  }

  /** Gathers one line, transforms it, and puts it back where it came from. */
  method MoveLine(data: array<Complex>, at: usize, stride: usize, kernel: seq<Line>, lineIn: array<Complex>,
                  lineOut: array<Complex>, ghost cells: seq<nat>)
    returns (ghost line: Line)
    requires LineCells(cells, at, stride, lineIn.Length, data.Length) && data.Length <= USIZE_MAX
    requires data != lineIn && data != lineOut && lineIn != lineOut && lineIn.Length == lineOut.Length
      && IsKernel(kernel, lineIn.Length)
    modifies data, lineIn, lineOut
    ensures |line| == lineIn.Length && LineMoved(kernel, cells, line, old(data[..]), data[..])
  {
    Gather(data, at, stride, lineIn, cells);
    line := lineIn[..];
    TransformLine(kernel, lineIn, lineOut);
    ghost var out := lineOut[..];
    Scatter(lineOut, data, at, stride, cells);
    assert lineOut[..] == out;
  }

  /** The cells of line `(a, b)`. */
  ghost function CellsOf(shape: seq<nat>, p: nat, a: nat, b: nat): (cells: seq<nat>)
    requires p < |shape| && a < Product(shape[..p]) && b < Product(shape[p + 1..])
    ensures |cells| == shape[p] && forall k :: 0 <= k < |cells| ==>
      cells[k] == Linear(shape, LineIndex(shape, p, a, b, k))
  {
    seq(shape[p], k requires 0 <= k < shape[p] => Linear(shape, LineIndex(shape, p, a, b, k)))
  }

  lemma CellsAreLine(shape: seq<nat>, p: nat, a: nat, b: nat)
    requires p < |shape| && a < Product(shape[..p]) && b < Product(shape[p + 1..])
    ensures LineCells(CellsOf(shape, p, a, b), Times(Times(a, shape[p]), Product(shape[p + 1..])) + b,
                      Product(shape[p + 1..]), shape[p], Product(shape))
  {
    var cells := CellsOf(shape, p, a, b);
    forall k | 0 <= k < shape[p]
      ensures cells[k] ==
        StrideCell(Times(Times(a, shape[p]), Product(shape[p + 1..])) + b, Product(shape[p + 1..]), k) < Product(shape)
    {
      LineIndexCell(shape, p, a, b, k);
    }
    forall j, k | 0 <= j < k < shape[p] ensures cells[j] != cells[k] {
      LineIndexCell(shape, p, a, b, j);
      LineIndexCell(shape, p, a, b, k);
      if cells[j] == cells[k] {
        LinearInjective(shape, LineIndex(shape, p, a, b, j), LineIndex(shape, p, a, b, k));
      }
    }
  }

  // ----- One axis

  /** The first `t` lines are transformed, the others are as they were. */
  ghost predicate Passed(shape: seq<nat>, p: nat, kernel: seq<Line>, start: Line, now: Line, t: nat)
    requires p < |shape| && IsKernel(kernel, shape[p]) && |start| == Product(shape)
  {
    |now| == |start| && forall i :: 0 <= i < |start| ==> CellPassed(shape, p, kernel, start, now, t, i)
  }

  ghost predicate CellPassed(shape: seq<nat>, p: nat, kernel: seq<Line>, start: Line, now: Line, t: nat, i: nat)
    requires p < |shape| && IsKernel(kernel, shape[p]) && i < |now| == |start| == Product(shape)
  {
    LinearOfDigits(shape, i);
    now[i] == if LineNumber(shape, p, Digits(shape, i)) < t then PassCell(shape, p, kernel, start, i) else start[i]
  }

  /** What the three loops over one line did: transformed values at its cells, nothing elsewhere. */
  ghost predicate LineMoved(kernel: seq<Line>, cells: seq<nat>, line: Line, was: Line, now: Line)
    requires IsKernel(kernel, |line|)
  {
    && |cells| == |line| && |was| == |now|
    && (forall k :: 0 <= k < |cells| ==>
        cells[k] < |was| && line[k] == was[cells[k]] && now[cells[k]] == Bin(kernel[k], line))
    && forall c :: 0 <= c < |now| && c !in cells ==> now[c] == was[c]
  }

  lemma LineDone(shape: seq<nat>, p: nat, kernel: seq<Line>, start: Line, was: Line, now: Line, a: nat, b: nat,
                 line: Line)
    requires p < |shape| && IsKernel(kernel, shape[p]) && |start| == Product(shape) && |line| == shape[p]
    requires a < Product(shape[..p]) && b < Product(shape[p + 1..])
    requires Passed(shape, p, kernel, start, was, Times(a, Product(shape[p + 1..])) + b)
    requires LineMoved(kernel, CellsOf(shape, p, a, b), line, was, now)
    ensures Passed(shape, p, kernel, start, now, Times(a, Product(shape[p + 1..])) + b + 1)
  {
    hide CellPassed;
    hide CellsOf;
    hide LineMoved;
    var next := Times(a, Product(shape[p + 1..])) + b + 1;
    assert |now| == |was| by {
      SameSize(kernel, CellsOf(shape, p, a, b), line, was, now);
    }
    forall i | 0 <= i < |start| ensures CellPassed(shape, p, kernel, start, now, next, i) {
      LinearOfDigits(shape, i);
      CellDone(shape, p, kernel, start, was, now, a, b, line, Digits(shape, i), i);
    }
  }

  lemma SameSize(kernel: seq<Line>, cells: seq<nat>, line: Line, was: Line, now: Line)
    requires IsKernel(kernel, |line|) && LineMoved(kernel, cells, line, was, now)
    ensures |was| == |now|
  {
  }

  lemma CellDone(shape: seq<nat>, p: nat, kernel: seq<Line>, start: Line, was: Line, now: Line, a: nat, b: nat,
                 line: Line, g: seq<nat>, i: nat)
    requires p < |shape| && IsKernel(kernel, shape[p]) && |start| == Product(shape) && |line| == shape[p]
    requires a < Product(shape[..p]) && b < Product(shape[p + 1..])
    requires Passed(shape, p, kernel, start, was, Times(a, Product(shape[p + 1..])) + b)
    requires LineMoved(kernel, CellsOf(shape, p, a, b), line, was, now)
    requires i < |start| && InBounds(shape, g) && Linear(shape, g) == i && Positive(shape) && g == Digits(shape, i)
    ensures |now| == |was| && CellPassed(shape, p, kernel, start, now, Times(a, Product(shape[p + 1..])) + b + 1, i)
  {
    hide LineNumber;
    hide LineAt;
    hide CellsOf;
    hide Passed;
    hide InBounds;
    hide Product;
    hide Linear;
    hide Digits;
    hide IsKernel;
    var t := Times(a, Product(shape[p + 1..])) + b;
    PassedAt(shape, p, kernel, start, was, t, i);
    if LineNumber(shape, p, g) == t {
      OnLineCell(shape, p, kernel, start, was, now, a, b, line, g);
    } else {
      OffLineCell(shape, p, a, b, g);
    }
  }

  lemma PassedAt(shape: seq<nat>, p: nat, kernel: seq<Line>, start: Line, now: Line, t: nat, i: nat)
    requires p < |shape| && IsKernel(kernel, shape[p]) && i < |start| == Product(shape)
      && Passed(shape, p, kernel, start, now, t)
    ensures |now| == |start| && CellPassed(shape, p, kernel, start, now, t, i)
  {
  }

  /** Cells of other lines are not cells of this one. */
  lemma OffLineCell(shape: seq<nat>, p: nat, a: nat, b: nat, g: seq<nat>)
    requires p < |shape| && a < Product(shape[..p]) && b < Product(shape[p + 1..]) && InBounds(shape, g)
    requires LineNumber(shape, p, g) != Times(a, Product(shape[p + 1..])) + b
    ensures Linear(shape, g) !in CellsOf(shape, p, a, b)
  {
    var cells := CellsOf(shape, p, a, b);
    hide LineNumber;
    if Linear(shape, g) in cells {
      var k :| 0 <= k < |cells| && cells[k] == Linear(shape, g);
      LineIndexCell(shape, p, a, b, k);
      LinearInjective(shape, g, LineIndex(shape, p, a, b, k));
      OnLine(shape, p, a, b, g);
    }
  }

  /** Cells of this line hold the bins of the original line. */
  lemma OnLineCell(shape: seq<nat>, p: nat, kernel: seq<Line>, start: Line, was: Line, now: Line, a: nat, b: nat,
                   line: Line, g: seq<nat>)
    requires p < |shape| && IsKernel(kernel, shape[p]) && |start| == Product(shape) && |line| == shape[p]
    requires a < Product(shape[..p]) && b < Product(shape[p + 1..]) && InBounds(shape, g)
    requires Passed(shape, p, kernel, start, was, Times(a, Product(shape[p + 1..])) + b)
    requires LineMoved(kernel, CellsOf(shape, p, a, b), line, was, now)
    requires LineNumber(shape, p, g) == Times(a, Product(shape[p + 1..])) + b
    ensures Linear(shape, g) < |now| && now[Linear(shape, g)] == Bin(kernel[g[p]], LineAt(shape, p, start, g))
  {
    OnLine(shape, p, a, b, g);
    BelowExtent(shape, g, p);
    LinearBound(shape, g);
    hide Passed;
    hide LineNumber;
    hide LineAt;
    LineUntouched(shape, p, kernel, start, was, now, a, b, g, line);
    assert CellsOf(shape, p, a, b)[g[p]] == Linear(shape, g);
  }

  lemma BelowExtent(shape: seq<nat>, g: seq<nat>, p: nat)
    requires InBounds(shape, g) && p < |shape|
    ensures g[p] < shape[p]
  {
  }

  /** The gathered line is the line of the original data. */
  lemma LineUntouched(shape: seq<nat>, p: nat, kernel: seq<Line>, start: Line, was: Line, now: Line, a: nat, b: nat,
                      g: seq<nat>, line: Line)
    requires p < |shape| && IsKernel(kernel, shape[p]) && |start| == Product(shape) && |line| == shape[p]
    requires a < Product(shape[..p]) && b < Product(shape[p + 1..]) && InBounds(shape, g)
      && g == LineIndex(shape, p, a, b, g[p])
    requires Passed(shape, p, kernel, start, was, Times(a, Product(shape[p + 1..])) + b)
    requires LineMoved(kernel, CellsOf(shape, p, a, b), line, was, now)
    ensures line == LineAt(shape, p, start, g)
  {
    hide Passed;
    hide InBounds;
    forall k | 0 <= k < shape[p] ensures line[k] == LineAt(shape, p, start, g)[k] {
      assert line[k] == was[CellsOf(shape, p, a, b)[k]];
      LineCellUntouched(shape, p, kernel, start, was, a, b, k);
      assert LineIndex(shape, p, a, b, k) == Moved(g, p, k);
    }
  }

  lemma LineCellUntouched(shape: seq<nat>, p: nat, kernel: seq<Line>, start: Line, was: Line, a: nat, b: nat, k: nat)
    requires p < |shape| && IsKernel(kernel, shape[p]) && |start| == Product(shape) && k < shape[p]
    requires a < Product(shape[..p]) && b < Product(shape[p + 1..])
    requires Passed(shape, p, kernel, start, was, Times(a, Product(shape[p + 1..])) + b)
    ensures var i := Linear(shape, LineIndex(shape, p, a, b, k)); i < |start| == |was| && was[i] == start[i]
  {
    var h := LineIndex(shape, p, a, b, k);
    LineIndexCell(shape, p, a, b, k);
    OnLine(shape, p, a, b, h);
    DigitsOfLinear(shape, h);
    assert CellPassed(shape, p, kernel, start, was, Times(a, Product(shape[p + 1..])) + b, Linear(shape, h));
  }

  lemma AllPassed(shape: seq<nat>, p: nat, kernel: seq<Line>, start: Line, now: Line)
    requires p < |shape| && IsKernel(kernel, shape[p]) && |start| == Product(shape)
    requires Passed(shape, p, kernel, start, now, Times(Product(shape[..p]), Product(shape[p + 1..])))
    ensures now == Pass(shape, p, kernel, start)
  {
    forall i | 0 <= i < |start| ensures now[i] == Pass(shape, p, kernel, start)[i] {
      LinearOfDigits(shape, i);
      LineNumberBound(shape, p, Digits(shape, i));
      assert CellPassed(shape, p, kernel, start, now, Times(Product(shape[..p]), Product(shape[p + 1..])), i);
    }
  }

  class AxisPlan {
    const position: nat
    const len: usize
    const stride: usize
    const outer: usize
    const kernels: AxisKernels
    const lineIn: array<Complex>
    const lineOut: array<Complex>

    constructor (position: nat, len: usize, stride: usize, outer: usize, kernels: AxisKernels)
      ensures this.position == position && this.len == len && this.stride == stride && this.outer == outer
        && this.kernels == kernels
      ensures lineIn.Length == lineOut.Length == len && lineIn != lineOut && fresh(lineIn) && fresh(lineOut)
    {
      this.position, this.len, this.stride, this.outer, this.kernels := position, len, stride, outer, kernels;
      lineIn := new Complex[len](_ => ZERO);
      lineOut := new Complex[len](_ => ZERO);
    }

    ghost predicate Valid(shape: seq<nat>) {
      && Positive(shape) && position < |shape| && AxisFits(shape, kernels) && kernels.position == position
      && len == shape[position] && stride == Product(shape[position + 1..]) && outer == Product(shape[..position])
      && lineIn.Length == lineOut.Length == len && lineIn != lineOut
    }

    function Kernel(inverse: bool): seq<Line> { if inverse then kernels.inverse else kernels.forward }

    /** Transforms every line along the axis, in place. */
    method Apply(shape: seq<nat>, data: array<Complex>, inverse: bool)
      requires Valid(shape) && data.Length == Product(shape) <= USIZE_MAX && data != lineIn && data != lineOut
      modifies data, lineIn, lineOut
      ensures IsKernel(Kernel(inverse), shape[position])
      ensures data[..] == Pass(shape, position, Kernel(inverse), old(data[..]))
    {
      hide Passed;
      hide Pass;
      hide Undoes;
      hide Product;
      FitsKernels(shape, kernels);
      ghost var start, kernel := data[..], Kernel(inverse);
      NothingPassed(shape, position, kernel, start);
      for a := 0 to outer
        invariant Passed(shape, position, kernel, start, data[..], Times(a, stride))
      {
        for b := 0 to stride
          invariant Passed(shape, position, kernel, start, data[..], Times(a, stride) + b)
        {
          ApplyLine(shape, data, inverse, a, b, start);
        }
      }
      AllPassed(shape, position, kernel, start, data[..]);
    }

    /** One line. */
    method ApplyLine(shape: seq<nat>, data: array<Complex>, inverse: bool, a: usize, b: usize, ghost start: Line)
      requires Valid(shape) && data.Length == Product(shape) == |start| <= USIZE_MAX && data != lineIn
        && data != lineOut
      requires a < outer && b < stride && IsKernel(Kernel(inverse), len)
      requires Passed(shape, position, Kernel(inverse), start, data[..], Times(a, stride) + b)
      modifies data, lineIn, lineOut
      ensures Passed(shape, position, Kernel(inverse), start, data[..], Times(a, stride) + b + 1)
    {
      hide Passed;
      hide CellsOf;
      hide LineMoved;
      hide LineCells;
      hide Product;
      hide AxisFits;
      ghost var cells, was := CellsOf(shape, position, a, b), data[..];
      CellsAreLine(shape, position, a, b);
      ghost var at := Times(Times(a, len), stride) + b;
      StartFits(cells, at, stride, len, data.Length, a, b);
      var rows := Multiply(a, len);
      var base := Multiply(rows, stride);
      var first: usize := base + b;
      ghost var line := MoveLine(data, first, stride, Kernel(inverse), lineIn, lineOut, cells);
      LineDone(shape, position, Kernel(inverse), start, was, data[..], a, b, line);
    }
  }

  /** The products that form the start of a line stay below the array length. */
  lemma StartFits(cells: seq<nat>, at: nat, stride: nat, len: nat, total: nat, a: nat, b: nat)
    requires LineCells(cells, at, stride, len, total) && 0 < len && b < stride && at == Times(Times(a, len), stride) + b
    ensures Times(a, len) <= Times(Times(a, len), stride) <= at < total
  {
    assert cells[0] == StrideCell(at, stride, 0);
    TimesIs(Times(a, len), stride);
    TimesIs(Times(a, len), 1);
    TimesMono(Times(a, len), Times(a, len), 1, stride);
  }

  lemma NothingPassed(shape: seq<nat>, p: nat, kernel: seq<Line>, start: Line)
    requires p < |shape| && IsKernel(kernel, shape[p]) && |start| == Product(shape)
    ensures Times(0, Product(shape[p + 1..])) == 0 && Passed(shape, p, kernel, start, start, 0)
  {
  }

  // ----- The plan

  ghost function KernelsOf(axes: seq<AxisPlan>): (kernels: seq<AxisKernels>)
    ensures |kernels| == |axes| && forall t :: 0 <= t < |axes| ==> kernels[t] == axes[t].kernels
  {
    seq(|axes|, t requires 0 <= t < |axes| => axes[t].kernels)
  }

  ghost function Buffers(axes: seq<AxisPlan>): (buffers: set<array<Complex>>)
    ensures forall t :: 0 <= t < |axes| ==> axes[t].lineIn in buffers && axes[t].lineOut in buffers
  {
    (set t | 0 <= t < |axes| :: axes[t].lineIn) + (set t | 0 <= t < |axes| :: axes[t].lineOut)
  }

  /** The first `t` axes have been transformed. */
  ghost predicate Reached(shape: seq<nat>, kernels: seq<AxisKernels>, t: nat, inverse: bool, start: Line, now: Line) {
    t <= |kernels| && IsPlan(shape, kernels[..t]) && |start| == Product(shape)
      && now == Transformed(shape, kernels[..t], inverse, start)
  }

  lemma NothingReached(shape: seq<nat>, kernels: seq<AxisKernels>, inverse: bool, start: Line)
    requires |start| == Product(shape)
    ensures Reached(shape, kernels, 0, inverse, start, start)
  {
  }

  lemma AllReached(shape: seq<nat>, kernels: seq<AxisKernels>, inverse: bool, start: Line, now: Line)
    requires Reached(shape, kernels, |kernels|, inverse, start, now)
    ensures IsPlan(shape, kernels) && |start| == Product(shape) && now == Transformed(shape, kernels, inverse, start)
  {
    assert kernels[..|kernels|] == kernels;
  }

  lemma ReachedNext(shape: seq<nat>, kernels: seq<AxisKernels>, t: nat, inverse: bool, start: Line, now: Line,
                    next: Line)
    requires IsPlan(shape, kernels) && t < |kernels| && Reached(shape, kernels, t, inverse, start, now)
    requires var k := kernels[t];
      && k.position < |shape| && IsKernel(if inverse then k.inverse else k.forward, shape[k.position])
      && next == Pass(shape, k.position, if inverse then k.inverse else k.forward, now)
    ensures Reached(shape, kernels, t + 1, inverse, start, next)
  {
    hide Pass;
    hide Undoes;
    TransformedStep(shape, kernels, t, inverse, start);
  }

  lemma TransformedStep(shape: seq<nat>, kernels: seq<AxisKernels>, t: nat, inverse: bool, data: Line)
    requires IsPlan(shape, kernels) && |data| == Product(shape) && t < |kernels|
    ensures var k := kernels[t];
      && k.position < |shape| && IsKernel(if inverse then k.inverse else k.forward, shape[k.position])
      && Transformed(shape, kernels[..t + 1], inverse, data)
         == Pass(shape, k.position, if inverse then k.inverse else k.forward,
                 Transformed(shape, kernels[..t], inverse, data))
  {
    hide Pass;
    hide Undoes;
    FitsKernels(shape, kernels[t]);
    var next := kernels[..t + 1];
    assert next[..t] == kernels[..t] && next[t] == kernels[t];
  }

  datatype PlanError =
    | InvalidShape
    | ElementCountOverflow
    | AxisOutOfRange(axis: nat, rank: nat)
    | DuplicateAxis(duplicate: nat)
    | LineFailed(length: nat)
    | DataLength(expected: nat, actual: nat)

  class LocalC2cNdPlan {
    const shape: seq<nat>
    const totalLen: usize
    const axes: seq<AxisPlan>

    constructor (shape: seq<nat>, totalLen: usize, axes: seq<AxisPlan>)
      ensures this.shape == shape && this.totalLen == totalLen && this.axes == axes
    {
      this.shape, this.totalLen, this.axes := shape, totalLen, axes;
    }

    ghost predicate Valid() {
      && totalLen == Product(shape)
      && (forall t :: 0 <= t < |axes| ==> axes[t].Valid(shape)) && IsPlan(shape, KernelsOf(axes))
    }

    /** What running the plan needs to know of it. */
    lemma IsPlanOf()
      requires Valid()
      ensures totalLen == Product(shape) && IsPlan(shape, KernelsOf(axes)) && |KernelsOf(axes)| == |axes|
    {
    }

    /** Checks the length before any value changes, then runs the passes in the listed order. */
    method Apply(data: array<Complex>, inverse: bool) returns (r: Result<(), PlanError>)
      requires Valid() && data !in Buffers(axes)
      modifies data, Buffers(axes)
      ensures r == if data.Length == totalLen then Ok(()) else Err(DataLength(totalLen, data.Length))
      ensures r.Err? ==> data[..] == old(data[..])
      ensures r.Ok? ==> data[..] == Transformed(shape, KernelsOf(axes), inverse, old(data[..]))
    {
      hide Reached;
      hide IsPlan;
      hide Buffers;
      hide KernelsOf;
      hide Product;
      hide LocalC2cNdPlan.Valid;
      IsPlanOf();
      if data.Length != totalLen {
        return Err(DataLength(totalLen, data.Length));
      }
      ghost var start, kernels := data[..], KernelsOf(axes);
      NothingReached(shape, kernels, inverse, start);
      for t := 0 to |axes|
        invariant Reached(shape, kernels, t, inverse, start, data[..])
      {
        ApplyAxis(data, inverse, t, start, kernels);
      }
      AllReached(shape, kernels, inverse, start, data[..]);
      return Ok(());
    }

    /** The pass of one axis. */
    method ApplyAxis(data: array<Complex>, inverse: bool, t: nat, ghost start: Line, ghost kernels: seq<AxisKernels>)
      requires Valid() && data !in Buffers(axes) && data.Length == totalLen && t < |axes|
      requires kernels == KernelsOf(axes) && Reached(shape, kernels, t, inverse, start, data[..])
      modifies data, Buffers(axes)
      ensures Reached(shape, kernels, t + 1, inverse, start, data[..])
    {
      hide Pass;
      hide Undoes;
      hide Reached;
      hide IsPlan;
      hide AxisFits;
      hide Buffers;
      hide Product;
      hide KernelsOf;
      hide IsKernel;
      hide AxisPlan.Valid;
      hide AxisPlan.Kernel;
      hide LocalC2cNdPlan.Valid;
      AxisFacts(t, inverse);
      var axis := axes[t];
      ghost var now := data[..];
      axis.Apply(shape, data, inverse);
      ReachedNext(shape, kernels, t, inverse, start, now, data[..]);
    }

    /** What running one axis needs to know of it. */
    lemma AxisFacts(t: nat, inverse: bool)
      requires Valid() && t < |axes|
      ensures axes[t].Valid(shape) && axes[t].kernels.position == axes[t].position && totalLen == Product(shape)
      ensures IsPlan(shape, KernelsOf(axes)) && KernelsOf(axes)[t] == axes[t].kernels
      ensures axes[t].Kernel(inverse) == if inverse then axes[t].kernels.inverse else axes[t].kernels.forward
      ensures axes[t].lineIn in Buffers(axes) && axes[t].lineOut in Buffers(axes)
    {
    }
  }
}
