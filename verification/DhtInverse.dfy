/** A transform by orthogonal real weights is its own inverse up to the length. */
module DhtInverses {
  import opened MachineInts
  import opened Nonlinear
  import opened Complexes
  import opened R2cRows
  import opened Dhts

  /** Cosine plus sine, as real weights. */
  ghost function CasRow(w: Waves, k: nat): (row: Line)
    requires k < |w.cosine| == |w.sine| && |w.cosine[k]| == |w.sine[k]|
    ensures |row| == |w.cosine[k]|
  {
    seq(|w.cosine[k]|, j requires 0 <= j < |w.cosine[k]| => Complex(w.cosine[k][j] + w.sine[k][j], 0.0))
  }

  ghost function CasKernel(w: Waves, n: nat): (kernel: seq<Line>)
    requires w.Valid(n)
    ensures IsKernel(kernel, n)
  {
    seq(n, k requires 0 <= k < n => CasRow(w, k))
  }

  /** Different bins are orthogonal. `RootsOfUnity.WavesAreOrthogonal` proves it of the actual weights. */
  ghost predicate Orthogonal(w: Waves, n: nat)
    requires w.Valid(n)
  {
    forall k, m :: 0 <= k < n && 0 <= m < n ==> RowMeetsColumn(CasKernel(w, n), n, k, m)
  }

  ghost predicate RowMeetsColumn(kernel: seq<Line>, n: nat, k: nat, m: nat)
    requires IsKernel(kernel, n) && k < n && m < n
  {
    Bin(kernel[k], ColumnOf(kernel, m)) == if k == m then Complex(n as real, 0.0) else ZERO
  }

  lemma {:induction false} CasParts(row: Line, cosine: seq<real>, sine: seq<real>, line: Line)
    requires |row| == |cosine| == |sine| == |line| && forall j :: 0 <= j < |row| ==>
      row[j] == Complex(cosine[j] + sine[j], 0.0)
    ensures Bin(row, line) ==
      Complex(Weighted(cosine, Re(line)) + Weighted(sine, Re(line)),
              Weighted(cosine, Im(line)) + Weighted(sine, Im(line)))
  {
    if row != [] {
      var last := |row| - 1;
      CasParts(row[..last], cosine[..last], sine[..last], line[..last]);
      assert Re(line)[..last] == Re(line[..last]) && Im(line)[..last] == Im(line[..last]);
      CasProduct(cosine[last], sine[last], line[last]);
    }
  }

  lemma CasProduct(c: real, s: real, z: Complex)
    ensures Mul(Complex(c + s, 0.0), z) ==
      Complex(RealMul(z.re, c) + RealMul(z.re, s), RealMul(z.im, c) + RealMul(z.im, s))
  {
  }

  lemma MulCommutes(a: Complex, b: Complex)
    ensures Mul(a, b) == Mul(b, a)
  {
  }

  lemma {:induction false} BinCommutes(a: Line, b: Line)
    requires |a| == |b|
    ensures Bin(a, b) == Bin(b, a)
  {
    if a != [] {
      BinCommutes(a[..|a| - 1], b[..|b| - 1]);
      MulCommutes(a[|a| - 1], b[|b| - 1]);
    }
  }

  /** A sum in which one weight is `c` and the others are zero. */
  lemma {:induction false} BinOfOne(line: Line, weights: Line, k: nat, c: Complex)
    requires |line| == |weights| && k < |line|
    requires forall m :: 0 <= m < |weights| ==> weights[m] == if m == k then c else ZERO
    ensures Bin(line, weights) == Mul(line[k], c)
  {
    var last := |line| - 1;
    if k == last {
      BinOfZeros(line[..last], weights[..last]);
    } else {
      BinOfOne(line[..last], weights[..last], k, c);
      MulZero(line[last]);
    }
  }

  /** Two unnormalized transforms multiply every value by the length. */
  lemma TwiceIsLength(kernel: seq<Line>, n: nat, line: Line, k: nat)
    requires IsKernel(kernel, n) && |line| == n && k < n
    requires forall m :: 0 <= m < n ==> RowMeetsColumn(kernel, n, k, m)
    ensures Bin(kernel[k], Transform(kernel, line)) == Mul(line[k], Complex(n as real, 0.0))
  {
    hide Bin;
    assert Transform(kernel, line) == Bins(line, kernel) by {
      forall j | 0 <= j < n ensures Transform(kernel, line)[j] == Bins(line, kernel)[j] {
        BinCommutes(kernel[j], line);
      }
    }
    SumsCommute(kernel[k], line, kernel);
    var weights := Bins(kernel[k], Columns(kernel, n));
    forall m | 0 <= m < n ensures weights[m] == if m == k then Complex(n as real, 0.0) else ZERO {
      assert RowMeetsColumn(kernel, n, k, m);
    }
    BinOfOne(line, weights, k, Complex(n as real, 0.0));
  }

  /** A Hartley line is the transform by the real weights. */
  lemma HartleyIsTransform(w: Waves, n: nat, normalize: bool, line: Line, out: Line, k: nat)
    requires HartleyLine(w, n, normalize, line, out) && k < n
    ensures out[k] == Divided(normalize, n, Bin(CasKernel(w, n)[k], line))
  {
    hide Bin;
    hide Weighted;
    CasParts(CasRow(w, k), w.cosine[k], w.sine[k], line);
  }

  /** With orthogonal weights the normalized inverse restores what the forward transform was given. */
  lemma OrthogonalLineRestored(w: Waves, n: nat, line: Line, middle: Line, out: Line)
    requires HartleyLine(w, n, false, line, middle) && HartleyLine(w, n, true, middle, out) && Orthogonal(w, n)
    ensures out == line
  {
    hide HartleyLine;
    hide Bin;
    LineFacts(w, n, false, line, middle);
    LineFacts(w, n, true, middle, out);
    var kernel := CasKernel(w, n);
    assert middle == Transform(kernel, line) by {
      forall k | 0 <= k < n ensures middle[k] == Transform(kernel, line)[k] {
        HartleyIsTransform(w, n, false, line, middle, k);
      }
    }
    forall k | 0 <= k < n ensures out[k] == line[k] {
      HartleyIsTransform(w, n, true, middle, out, k);
      TwiceIsLength(kernel, n, line, k);
      DividedBack(line[k], n);
    }
  }

  lemma LineFacts(w: Waves, n: nat, normalize: bool, line: Line, out: Line)
    requires HartleyLine(w, n, normalize, line, out)
    ensures 0 < n && w.Valid(n) && |line| == |out| == n
  {
  }

  lemma DividedBack(z: Complex, n: nat)
    requires 0 < n
    ensures Divided(true, n, Mul(z, Complex(n as real, 0.0))) == z
  {
  }

  /** The same for every line of a batch. */
  lemma OrthogonalBatchRestored(w: Waves, n: nat, m: nat, source: Line, middle: Line, out: Line)
    requires 0 < n && w.Valid(n) && Orthogonal(w, n) && |source| == |out| == Times(m, n)
    requires forall b :: 0 <= b < m ==>
      HartleyRow(w, n, false, b, source, middle) && HartleyRow(w, n, true, b, middle, out)
    ensures out == source
  {
    hide HartleyLine;
    hide Orthogonal;
    forall b | 0 <= b < m ensures SameRow(out, source, n, b) {
      assert HartleyRow(w, n, false, b, source, middle);
      OrthogonalLineRestored(w, n, Row(source, n, b), Row(middle, n, b), Row(out, n, b));
    }
    SameRows(out, source, n, m);
  }
}
