/** Multidimensional complex transforms. */
module C2cNd {
  // One strided pass of line transforms per selected axis. The shape is given with the slowest axis first,
  // so that position `p` here is axis `rank - 1 - p` of the column-major plan; the linear index is the same
  // number.

  import opened MachineInts
  import opened Nonlinear
  import opened MixedRadix
  import opened Counting
  import opened Complexes

  // ----- One pass, as a function

  /** Index `g` with position `p` set to `j`. */
  ghost function Moved(g: seq<nat>, p: nat, j: nat): (h: seq<nat>)
    requires p < |g|
    ensures |h| == |g|
  {
    g[p := j]
  }

  /** The line through index `g` along position `p`. */
  ghost function LineAt(shape: seq<nat>, p: nat, data: Line, g: seq<nat>): (line: Line)
    requires p < |shape| && InBounds(shape, g) && |data| == Product(shape)
    ensures |line| == shape[p]
  {
    LineInArray(shape, p, g);
    seq(shape[p], j requires 0 <= j < shape[p] => data[Linear(shape, Moved(g, p, j))])
  }

  lemma LineInArray(shape: seq<nat>, p: nat, g: seq<nat>)
    requires p < |shape| && InBounds(shape, g)
    ensures forall j :: 0 <= j < shape[p] ==>
      InBounds(shape, Moved(g, p, j)) && Linear(shape, Moved(g, p, j)) < Product(shape)
  {
    forall j | 0 <= j < shape[p]
      ensures InBounds(shape, Moved(g, p, j)) && Linear(shape, Moved(g, p, j)) < Product(shape)
    {
      LinearBound(shape, Moved(g, p, j));
    }
  }

  /** Every line along position `p` transformed by the same kernel. */
  ghost function Pass(shape: seq<nat>, p: nat, kernel: seq<Line>, data: Line): (out: Line)
    requires p < |shape| && IsKernel(kernel, shape[p]) && |data| == Product(shape)
    ensures |out| == |data|
  {
    seq(|data|, i requires 0 <= i < |data| => PassCell(shape, p, kernel, data, i))
  }

  ghost function PassCell(shape: seq<nat>, p: nat, kernel: seq<Line>, data: Line, i: nat): Complex
    requires p < |shape| && IsKernel(kernel, shape[p]) && |data| == Product(shape) && i < |data|
  {
    LinearOfDigits(shape, i);
    var g := Digits(shape, i);
    Bin(kernel[g[p]], LineAt(shape, p, data, g))
  }

  lemma PassAt(shape: seq<nat>, p: nat, kernel: seq<Line>, data: Line, g: seq<nat>)
    requires p < |shape| && IsKernel(kernel, shape[p]) && |data| == Product(shape) && InBounds(shape, g)
    ensures Linear(shape, g) < |data|
    ensures Pass(shape, p, kernel, data)[Linear(shape, g)] == Bin(kernel[g[p]], LineAt(shape, p, data, g))
  {
    LinearBound(shape, g);
    DigitsOfLinear(shape, g);
  }

  /** A line of the result is the transformed line. */
  lemma LineOfPass(shape: seq<nat>, p: nat, kernel: seq<Line>, data: Line, g: seq<nat>)
    requires p < |shape| && IsKernel(kernel, shape[p]) && |data| == Product(shape) && InBounds(shape, g)
    ensures LineAt(shape, p, Pass(shape, p, kernel, data), g) == Transform(kernel, LineAt(shape, p, data, g))
  {
    var line := LineAt(shape, p, Pass(shape, p, kernel, data), g);
    forall j | 0 <= j < shape[p] ensures line[j] == Transform(kernel, LineAt(shape, p, data, g))[j] {
      var h := Moved(g, p, j);
      assert InBounds(shape, h);
      PassAt(shape, p, kernel, data, h);
      SameLine(shape, p, data, g, j);
    }
  }

  lemma SameLine(shape: seq<nat>, p: nat, data: Line, g: seq<nat>, j: nat)
    requires p < |shape| && |data| == Product(shape) && InBounds(shape, g) && j < shape[p]
    ensures InBounds(shape, Moved(g, p, j)) && LineAt(shape, p, data, Moved(g, p, j)) == LineAt(shape, p, data, g)
  {
    forall k | 0 <= k < shape[p] ensures Moved(Moved(g, p, j), p, k) == Moved(g, p, k) {
    }
  }

  /** A pass with the inverse kernel undoes a pass with the forward kernel along the same axis. */
  lemma PassUndone(shape: seq<nat>, p: nat, inverse: seq<Line>, forward: seq<Line>, data: Line)
    requires p < |shape| && Undoes(inverse, forward, shape[p]) && |data| == Product(shape)
    ensures Pass(shape, p, inverse, Pass(shape, p, forward, data)) == data
  {
    var middle := Pass(shape, p, forward, data);
    hide Undoes;
    hide Pass;
    forall i | 0 <= i < |data| ensures Pass(shape, p, inverse, middle)[i] == data[i] {
      LinearOfDigits(shape, i);
      CellUndone(shape, p, inverse, forward, data, Digits(shape, i));
    }
  }

  lemma CellUndone(shape: seq<nat>, p: nat, inverse: seq<Line>, forward: seq<Line>, data: Line, g: seq<nat>)
    requires p < |shape| && Undoes(inverse, forward, shape[p]) && |data| == Product(shape) && InBounds(shape, g)
    ensures IsKernel(inverse, shape[p]) && IsKernel(forward, shape[p])
    ensures var i := Linear(shape, g);
      i < |data| && Pass(shape, p, inverse, Pass(shape, p, forward, data))[i] == data[i]
  {
    hide Undoes;
    hide Pass;
    var line := LineAt(shape, p, data, g);
    UndoesAt(inverse, forward, line);
    PassAt(shape, p, inverse, Pass(shape, p, forward, data), g);
    LineOfPass(shape, p, forward, data, g);
    assert Moved(g, p, g[p]) == g;
  }

  /** Passes along different axes commute, whatever linear maps they apply. */
  lemma PassesCommute(shape: seq<nat>, p: nat, a: seq<Line>, q: nat, b: seq<Line>, data: Line)
    requires p < |shape| && q < |shape| && p != q && |data| == Product(shape)
    requires IsKernel(a, shape[p]) && IsKernel(b, shape[q])
    ensures Pass(shape, p, a, Pass(shape, q, b, data)) == Pass(shape, q, b, Pass(shape, p, a, data))
  {
    var left, right := Pass(shape, p, a, Pass(shape, q, b, data)), Pass(shape, q, b, Pass(shape, p, a, data));
    forall i | 0 <= i < |data| ensures left[i] == right[i] {
      LinearOfDigits(shape, i);
      CellsCommute(shape, p, a, q, b, data, Digits(shape, i));
    }
  }

  /** The plane through `g`: its lines along `q`, one for each position along `p`. */
  ghost function Plane(shape: seq<nat>, p: nat, q: nat, data: Line, g: seq<nat>): (lines: seq<Line>)
    requires p < |shape| && q < |shape| && |data| == Product(shape) && InBounds(shape, g)
    ensures |lines| == shape[p] && forall j :: 0 <= j < |lines| ==> |lines[j]| == shape[q]
  {
    seq(shape[p], j requires 0 <= j < shape[p] => LineAt(shape, q, data, Moved(g, p, j)))
  }

  lemma CellsCommute(shape: seq<nat>, p: nat, a: seq<Line>, q: nat, b: seq<Line>, data: Line, g: seq<nat>)
    requires p < |shape| && q < |shape| && p != q && |data| == Product(shape) && InBounds(shape, g)
    requires IsKernel(a, shape[p]) && IsKernel(b, shape[q])
    ensures var i := Linear(shape, g);
      i < |data| && Pass(shape, p, a, Pass(shape, q, b, data))[i] == Pass(shape, q, b, Pass(shape, p, a, data))[i]
  {
    PassAt(shape, p, a, Pass(shape, q, b, data), g);
    PassAt(shape, q, b, Pass(shape, p, a, data), g);
    LineOfBins(shape, p, q, b, data, g);
    LineOfBins(shape, q, p, a, data, g);
    TransposedPlane(shape, p, q, data, g);
    SumsCommute(a[g[p]], b[g[q]], Plane(shape, p, q, data, g));
  }

  /** Along `p`, a pass along `q` leaves one bin of each line of the plane. */
  lemma LineOfBins(shape: seq<nat>, p: nat, q: nat, b: seq<Line>, data: Line, g: seq<nat>)
    requires p < |shape| && q < |shape| && p != q && |data| == Product(shape) && InBounds(shape, g)
      && IsKernel(b, shape[q])
    ensures LineAt(shape, p, Pass(shape, q, b, data), g) == Bins(b[g[q]], Plane(shape, p, q, data, g))
  {
    var line := LineAt(shape, p, Pass(shape, q, b, data), g);
    forall j | 0 <= j < shape[p] ensures line[j] == Bins(b[g[q]], Plane(shape, p, q, data, g))[j] {
      assert InBounds(shape, Moved(g, p, j));
      PassAt(shape, q, b, data, Moved(g, p, j));
    }
  }

  lemma TransposedPlane(shape: seq<nat>, p: nat, q: nat, data: Line, g: seq<nat>)
    requires p < |shape| && q < |shape| && p != q && |data| == Product(shape) && InBounds(shape, g)
    ensures Columns(Plane(shape, p, q, data, g), shape[q]) == Plane(shape, q, p, data, g)
  {
    var columns, plane := Columns(Plane(shape, p, q, data, g), shape[q]), Plane(shape, q, p, data, g);
    forall m | 0 <= m < shape[q] ensures columns[m] == plane[m] {
      forall j | 0 <= j < shape[p] ensures columns[m][j] == plane[m][j] {
        assert Moved(Moved(g, p, j), q, m) == Moved(Moved(g, q, m), p, j);
      }
    }
  }

  // ----- Whole transforms

  /** The kernels of one selected axis. */
  datatype AxisKernels = AxisKernels(position: nat, forward: seq<Line>, inverse: seq<Line>)

  ghost predicate IsPlan(shape: seq<nat>, axes: seq<AxisKernels>) {
    && (forall t :: 0 <= t < |axes| ==> AxisFits(shape, axes[t]))
    && forall t, u :: 0 <= t < u < |axes| ==> axes[t].position != axes[u].position
  }

  ghost predicate AxisFits(shape: seq<nat>, a: AxisKernels) {
    a.position < |shape| && Undoes(a.inverse, a.forward, shape[a.position])
  }

  lemma FitsKernels(shape: seq<nat>, a: AxisKernels)
    requires AxisFits(shape, a)
    ensures a.position < |shape| && IsKernel(a.forward, shape[a.position]) && IsKernel(a.inverse, shape[a.position])
  {
  }

  /** All selected passes, in the order the axes are listed, in either direction. */
  ghost function Transformed(shape: seq<nat>, axes: seq<AxisKernels>, inverse: bool, data: Line): (out: Line)
    requires IsPlan(shape, axes) && |data| == Product(shape)
    ensures |out| == |data|
  {
    if axes == [] then data
    else
      var last := |axes| - 1;
      FitsKernels(shape, axes[last]);
      Pass(shape, axes[last].position, if inverse then axes[last].inverse else axes[last].forward,
           Transformed(shape, axes[..last], inverse, data))
  }

  /** A pass along another axis can be moved through a whole inverse transform. */
  lemma {:induction false} PassThrough(shape: seq<nat>, axes: seq<AxisKernels>, p: nat, kernel: seq<Line>, data: Line)
    requires IsPlan(shape, axes) && |data| == Product(shape) && p < |shape| && IsKernel(kernel, shape[p])
    requires forall t :: 0 <= t < |axes| ==> axes[t].position != p
    ensures Transformed(shape, axes, true, Pass(shape, p, kernel, data)) ==
      Pass(shape, p, kernel, Transformed(shape, axes, true, data))
  {
    hide Pass;
    hide Undoes;
    if axes != [] {
      var last := |axes| - 1;
      FitsKernels(shape, axes[last]);
      PassThrough(shape, axes[..last], p, kernel, data);
      PassesCommute(shape, axes[last].position, axes[last].inverse, p, kernel,
                    Transformed(shape, axes[..last], true, data));
    }
  }

  /** The inverse restores the data, although it visits the axes in the same order as the forward
      transform: for every shape, every list of distinct axes, and every pair of mutually inverse
      linear line kernels. */
  lemma {:induction false} InverseRestores(shape: seq<nat>, axes: seq<AxisKernels>, data: Line)
    requires IsPlan(shape, axes) && |data| == Product(shape)
    ensures Transformed(shape, axes, true, Transformed(shape, axes, false, data)) == data
  {
    hide Pass;
    hide Undoes;
    if axes != [] {
      var last := |axes| - 1;
      var a, rest := axes[last], axes[..last];
      FitsKernels(shape, a);
      var before := Transformed(shape, rest, false, data);
      InverseRestores(shape, rest, data);
      PassThrough(shape, rest, a.position, a.forward, before);
      PassUndone(shape, a.position, a.inverse, a.forward, data);
    }
  }
}
