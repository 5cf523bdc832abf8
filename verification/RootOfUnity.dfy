/** Powers of a primitive root of unity. */
module RootsOfUnity {
  // They give the cosines and sines of a Hartley transform.

  import opened MachineInts
  import opened Nonlinear
  import opened Complexes
  import opened Dhts
  import opened DhtInverses

  const ONE: Complex := Complex(1.0, 0.0)

  function Conj(a: Complex): Complex { Complex(a.re, -a.im) }

  function Minus(a: Complex, b: Complex): Complex { Complex(a.re - b.re, a.im - b.im) }

  function Pow(w: Complex, e: nat): Complex {
    if e == 0 then ONE else Mul(Pow(w, e - 1), w)
  }

  // ----- Complex arithmetic

  lemma MulOne(a: Complex)
    ensures Mul(a, ONE) == a && Mul(ONE, a) == a
  {
  }

  lemma MulAssociates(a: Complex, b: Complex, c: Complex)
    ensures Mul(a, Mul(b, c)) == Mul(Mul(a, b), c)
  {
    hide Mul;
    MulCommutes(b, c);
    MulSwap(a, c, b);
    MulCommutes(c, Mul(a, b));
  }

  /** Factors regroup in pairs. */
  lemma MulPairs(a: Complex, b: Complex, c: Complex, d: Complex)
    ensures Mul(Mul(a, b), Mul(c, d)) == Mul(Mul(a, c), Mul(b, d))
  {
    hide Mul;
    MulAssociates(a, b, Mul(c, d));
    MulSwap(b, c, d);
    MulAssociates(a, c, Mul(b, d));
  }

  lemma ConjMul(a: Complex, b: Complex)
    ensures Conj(Mul(a, b)) == Mul(Conj(a), Conj(b))
  {
    assert RealMul(-a.im, -b.im) == RealMul(a.im, b.im);
    assert RealMul(a.re, -b.im) == -RealMul(a.re, b.im) && RealMul(-a.im, b.re) == -RealMul(a.im, b.re);
  }

  /** A product is zero only if a factor is. */
  lemma NoZeroDivisors(a: Complex, b: Complex)
    requires Mul(a, b) == ZERO && a != ZERO
    ensures b == ZERO
  {
    var size := RealMul(a.re, a.re) + RealMul(a.im, a.im);
    MulAssociates(Conj(a), a, b);
    assert Mul(Conj(a), a) == Complex(size, 0.0);
    MulZero(Conj(a));
    SizePositive(a);
    ScaledZero(size, b);
  }

  lemma SizePositive(a: Complex)
    requires a != ZERO
    ensures 0.0 < RealMul(a.re, a.re) + RealMul(a.im, a.im)
  {
    if a.re != 0.0 {
      SquarePositive(a.re);
    } else {
      SquarePositive(a.im);
    }
    assert RealMul(a.re, a.re) >= 0.0 && RealMul(a.im, a.im) >= 0.0;
  }

  lemma SquarePositive(x: real)
    requires x != 0.0
    ensures 0.0 < RealMul(x, x)
  {
    if x < 0.0 {
      ProductPositive(-x, -x);
      assert RealMul(-x, -x) == RealMul(x, x);
    } else {
      ProductPositive(x, x);
    }
  }

  lemma ProductPositive(x: real, y: real)
    requires 0.0 < x && 0.0 < y
    ensures 0.0 < RealMul(x, y)
  {
  }

  lemma ScaledZero(size: real, b: Complex)
    requires 0.0 < size && Mul(Complex(size, 0.0), b) == ZERO
    ensures b == ZERO
  {
    assert RealMul(0.0, b.re) == 0.0 && RealMul(0.0, b.im) == 0.0;
    assert size * b.re == 0.0 && size * b.im == 0.0;
  }

  // ----- Powers

  lemma {:induction false} PowAdd(w: Complex, a: nat, b: nat)
    ensures Pow(w, a + b) == Mul(Pow(w, a), Pow(w, b))
  {
    hide Mul;
    if b == 0 {
      MulOne(Pow(w, a));
    } else {
      PowAdd(w, a, b - 1);
      MulAssociates(Pow(w, a), Pow(w, b - 1), w);
    }
  }

  lemma {:induction false} PowTimes(w: Complex, a: nat, b: nat)
    ensures Pow(Pow(w, a), b) == Pow(w, Times(b, a))
  {
    hide Mul;
    if b != 0 {
      PowTimes(w, a, b - 1);
      PowAdd(w, Times(b - 1, a), a);
    }
  }

  lemma {:induction false} PowOfOne(e: nat)
    ensures Pow(ONE, e) == ONE
  {
    hide Mul;
    if e != 0 {
      PowOfOne(e - 1);
      MulOne(ONE);
    }
  }

  lemma {:induction false} PowMul(a: Complex, b: Complex, e: nat)
    ensures Pow(Mul(a, b), e) == Mul(Pow(a, e), Pow(b, e))
  {
    hide Mul;
    if e == 0 {
      MulOne(ONE);
    } else {
      PowMul(a, b, e - 1);
      MulPairs(Pow(a, e - 1), Pow(b, e - 1), a, b);
    }
  }

  lemma {:induction false} PowConj(a: Complex, e: nat)
    ensures Pow(Conj(a), e) == Conj(Pow(a, e))
  {
    if e != 0 {
      hide Mul;
      PowConj(a, e - 1);
      ConjMul(Pow(a, e - 1), a);
    }
  }

  /** On the unit circle. */
  ghost predicate Unit(a: Complex) { Mul(a, Conj(a)) == ONE }

  lemma {:induction false} UnitPow(w: Complex, e: nat)
    requires Unit(w)
    ensures Unit(Pow(w, e))
  {
    PowConj(w, e);
    PowMul(w, Conj(w), e);
    PowOfOne(e);
  }

  /** On the unit circle the inverse is the conjugate. */
  lemma InverseIsConj(a: Complex, b: Complex)
    requires Unit(a) && Mul(a, b) == ONE
    ensures b == Conj(a)
  {
    hide Mul;
    MulCommutes(a, Conj(a));
    MulAssociates(Conj(a), a, b);
    MulOne(b);
    MulOne(Conj(a));
  }

  // ----- Roots of unity

  /** On the unit circle, of order exactly `n`. */
  ghost predicate PrimitiveRoot(w: Complex, n: nat) {
    0 < n && Unit(w) && Pow(w, n) == ONE && forall d :: 0 < d < n ==> Pow(w, d) != ONE
  }

  /** Every power of the root is an `n`-th root of one. */
  lemma PowerIsRoot(w: Complex, n: nat, e: nat)
    requires Pow(w, n) == ONE
    ensures Pow(Pow(w, e), n) == ONE
  {
    PowTimes(w, e, n);
    TimesComm(n, e);
    PowTimes(w, n, e);
    PowOfOne(e);
  }

  /** Powers below `n` are different. */
  lemma PowersDiffer(w: Complex, n: nat, k: nat, m: nat)
    requires PrimitiveRoot(w, n) && m < k < n
    ensures Mul(Pow(w, k), Conj(Pow(w, m))) != ONE
  {
    hide Mul;
    UnitPow(w, m);
    PowAdd(w, k - m, m);
    MulAssociates(Pow(w, k - m), Pow(w, m), Conj(Pow(w, m)));
    MulOne(Pow(w, k - m));
  }

  lemma QuotientOfPowers(w: Complex, n: nat, k: nat, m: nat)
    requires PrimitiveRoot(w, n) && k < n && m < n
    ensures Mul(Pow(w, k), Conj(Pow(w, m))) == ONE <==> k == m
  {
    UnitPow(w, k);
    if m < k {
      PowersDiffer(w, n, k, m);
    } else if k < m {
      PowersDiffer(w, n, m, k);
      ConjSwap(Pow(w, k), Pow(w, m));
    }
  }

  lemma ConjSwap(a: Complex, b: Complex)
    ensures Mul(a, Conj(b)) == ONE ==> Mul(b, Conj(a)) == ONE
  {
    hide Mul;
    ConjMul(a, Conj(b));
    MulCommutes(Conj(a), b);
  }

  // ----- Geometric sums

  ghost function Geometric(v: Complex, n: nat): Complex {
    if n == 0 then ZERO else Add(Geometric(v, n - 1), Pow(v, n - 1))
  }

  lemma {:induction false} Telescopes(v: Complex, n: nat)
    ensures Add(Mul(v, Geometric(v, n)), ONE) == Add(Geometric(v, n), Pow(v, n))
  {
    hide Mul;
    if n == 0 {
      MulZero(v);
    } else {
      Telescopes(v, n - 1);
      MulAdd(v, Geometric(v, n - 1), Pow(v, n - 1));
      MulCommutes(v, Pow(v, n - 1));
    }
  }

  /** The powers of a root of one add up to zero, unless the root is one. */
  lemma GeometricVanishes(v: Complex, n: nat)
    requires Pow(v, n) == ONE && v != ONE
    ensures Geometric(v, n) == ZERO
  {
    var sum := Geometric(v, n);
    Telescopes(v, n);
    assert Mul(v, sum) == sum;
    MinusMul(v, sum);
    NoZeroDivisors(Minus(v, ONE), sum);
  }

  lemma MinusMul(v: Complex, sum: Complex)
    requires Mul(v, sum) == sum
    ensures Mul(Minus(v, ONE), sum) == ZERO
  {
    assert RealMul(v.re - 1.0, sum.re) == RealMul(v.re, sum.re) - sum.re;
    assert RealMul(v.re - 1.0, sum.im) == RealMul(v.re, sum.im) - sum.im;
    assert RealMul(v.im - 0.0, sum.re) == RealMul(v.im, sum.re);
  }

  lemma {:induction false} GeometricOfOne(n: nat)
    ensures Geometric(ONE, n) == Complex(n as real, 0.0)
  {
    hide Pow;
    hide Mul;
    if n != 0 {
      GeometricOfOne(n - 1);
      PowOfOne(n - 1);
    }
  }

  // ----- The waves of a transform

  /** Cosine and sine of `2 pi j k / n`, as the parts of the powers of the root. */
  ghost function WavesOf(w: Complex, n: nat): (waves: Waves)
    ensures |waves.cosine| == |waves.sine| == n
    ensures forall k :: 0 <= k < n ==> |waves.cosine[k]| == |waves.sine[k]| == n
  {
    Waves(seq(n, k requires 0 <= k < n => seq(n, j requires 0 <= j < n => Pow(w, Times(j, k)).re)),
          seq(n, k requires 0 <= k < n => seq(n, j requires 0 <= j < n => Pow(w, Times(j, k)).im)))
  }

  lemma WaveAt(w: Complex, n: nat, k: nat, j: nat)
    requires k < n && j < n
    ensures Complex(WavesOf(w, n).cosine[k][j], WavesOf(w, n).sine[k][j]) == Pow(w, Times(j, k))
  {
  }

  /** Replacing `k` by `n - k` conjugates the power. */
  lemma MirroredPower(w: Complex, n: nat, k: nat, j: nat)
    requires PrimitiveRoot(w, n) && k <= n
    ensures Pow(w, Times(j, n - k)) == Conj(Pow(w, Times(j, k)))
  {
    hide Mul;
    var a, b := Pow(w, Times(j, k)), Pow(w, Times(j, n - k));
    UnitPow(w, Times(j, k));
    PowAdd(w, Times(j, k), Times(j, n - k));
    TimesSum(j, k, n - k);
    PowTimes(w, n, j);
    PowOfOne(j);
    InverseIsConj(a, b);
  }

  lemma TimesSum(j: nat, a: nat, b: nat)
    ensures Times(j, a) + Times(j, b) == Times(j, a + b)
  {
    TimesComm(j, a);
    TimesComm(j, b);
    TimesComm(j, a + b);
    TimesDistribute(a, b, j);
  }

  /** The waves of a primitive root have the symmetry that the reconstruction uses. */
  lemma WavesAreValid(w: Complex, n: nat)
    requires PrimitiveRoot(w, n)
    ensures WavesOf(w, n).Valid(n)
  {
    hide Mul;
    var waves := WavesOf(w, n);
    forall j | 0 <= j < n ensures waves.cosine[0][j] == 1.0 && waves.sine[0][j] == 0.0 {
      WaveAt(w, n, 0, j);
      TimesComm(j, 0);
    }
    forall k | 0 < k < n ensures waves.Mirrored(k) {
      forall j | 0 <= j < n
        ensures waves.cosine[n - k][j] == waves.cosine[k][j] && waves.sine[n - k][j] == -waves.sine[k][j]
      {
        WaveAt(w, n, k, j);
        WaveAt(w, n, n - k, j);
        MirroredPower(w, n, k, j);
      }
    }
  }

  function Cas(z: Complex): real { z.re + z.im }

  /** A product of two sums of cosine and sine is a cosine of the difference plus a sine of the sum. */
  lemma CasProducts(z: Complex, u: Complex)
    ensures RealMul(Cas(z), Cas(u)) == Mul(z, Conj(u)).re + Mul(z, u).im
  {
    assert RealMul(z.im, -u.im) == -RealMul(z.im, u.im);
    assert (z.re + z.im) * (u.re + u.im) == z.re * u.re + z.re * u.im + z.im * u.re + z.im * u.im;
  }

  lemma RealProduct(x: real, y: real)
    ensures Mul(Complex(x, 0.0), Complex(y, 0.0)) == Complex(RealMul(x, y), 0.0)
  {
  }

  /** Weight `j` of row `k`, and of column `k`. */
  lemma WeightAt(w: Complex, n: nat, k: nat, j: nat)
    requires PrimitiveRoot(w, n) && k < n && j < n
    ensures WavesOf(w, n).Valid(n)
    ensures CasKernel(WavesOf(w, n), n)[k][j] == Complex(Cas(Pow(Pow(w, k), j)), 0.0) ==
      CasKernel(WavesOf(w, n), n)[j][k]
  {
    hide Mul;
    WavesAreValid(w, n);
    WaveAt(w, n, k, j);
    WaveAt(w, n, j, k);
    TimesComm(j, k);
    PowTimes(w, k, j);
  }

  /** The first `t` terms of a row against a column. */
  lemma {:induction false} RowTimesColumn(w: Complex, row: Line, column: Line, a: Complex, b: Complex)
    requires |row| == |column|
    requires forall j :: 0 <= j < |row| ==>
      row[j] == Complex(Cas(Pow(a, j)), 0.0) && column[j] == Complex(Cas(Pow(b, j)), 0.0)
    ensures Bin(row, column) == Complex(Geometric(Mul(a, Conj(b)), |row|).re + Geometric(Mul(a, b), |row|).im, 0.0)
  {
    if row != [] {
      hide Mul;
      var last := |row| - 1;
      RowTimesColumn(w, row[..last], column[..last], a, b);
      RealProduct(Cas(Pow(a, last)), Cas(Pow(b, last)));
      CasProducts(Pow(a, last), Pow(b, last));
      PowMul(a, Conj(b), last);
      PowMul(a, b, last);
      PowConj(b, last);
    }
  }

  /** The weights of a transform of length `n` are orthogonal. */
  lemma WavesAreOrthogonal(w: Complex, n: nat)
    requires PrimitiveRoot(w, n)
    ensures WavesOf(w, n).Valid(n) && Orthogonal(WavesOf(w, n), n)
  {
    WavesAreValid(w, n);
    hide RowMeetsColumn;
    forall k, m | 0 <= k < n && 0 <= m < n ensures RowMeetsColumn(CasKernel(WavesOf(w, n), n), n, k, m) {
      RowMeets(w, n, k, m);
    }
  }

  lemma RowMeets(w: Complex, n: nat, k: nat, m: nat)
    requires PrimitiveRoot(w, n) && k < n && m < n
    ensures WavesOf(w, n).Valid(n) && RowMeetsColumn(CasKernel(WavesOf(w, n), n), n, k, m)
  {
    WavesAreValid(w, n);
    var kernel := CasKernel(WavesOf(w, n), n);
    var a, b := Pow(w, k), Pow(w, m);
    forall j | 0 <= j < n
      ensures kernel[k][j] == Complex(Cas(Pow(a, j)), 0.0) && ColumnOf(kernel, m)[j] == Complex(Cas(Pow(b, j)), 0.0)
    {
      WeightAt(w, n, k, j);
      WeightAt(w, n, m, j);
    }
    hide CasKernel;
    hide Mul;
    RowTimesColumn(w, kernel[k], ColumnOf(kernel, m), a, b);
    RootSums(w, n, k, m);
  }

  /** Of the two geometric sums, the one of differences counts equal bins and the other has no imaginary part. */
  lemma RootSums(w: Complex, n: nat, k: nat, m: nat)
    requires PrimitiveRoot(w, n) && k < n && m < n
    ensures Geometric(Mul(Pow(w, k), Conj(Pow(w, m))), n).re == if k == m then n as real else 0.0
    ensures Geometric(Mul(Pow(w, k), Pow(w, m)), n).im == 0.0
  {
    hide Mul;
    var a, b := Pow(w, k), Pow(w, m);
    PowerIsRoot(w, n, k);
    PowerIsRoot(w, n, m);
    PowMul(a, Conj(b), n);
    PowMul(a, b, n);
    PowConj(b, n);
    MulOne(ONE);
    QuotientOfPowers(w, n, k, m);
    GeometricOfOne(n);
    if Mul(a, Conj(b)) != ONE {
      GeometricVanishes(Mul(a, Conj(b)), n);
    }
    if Mul(a, b) != ONE {
      GeometricVanishes(Mul(a, b), n);
    }
  }

  /** The raw transform applied twice multiplies every value by the length. */
  lemma TwiceMultipliesByLength(w: Complex, n: nat, line: Line, once: Line, twice: Line, k: nat)
    requires PrimitiveRoot(w, n) && k < n
    requires HartleyLine(WavesOf(w, n), n, false, line, once) && HartleyLine(WavesOf(w, n), n, false, once, twice)
    ensures |line| == |twice| == n && twice[k] == Mul(line[k], Complex(n as real, 0.0))
  {
    hide HartleyLine;
    hide WavesOf;
    hide Bin;
    var waves := WavesOf(w, n);
    WavesAreOrthogonal(w, n);
    LineFacts(waves, n, false, line, once);
    LineFacts(waves, n, false, once, twice);
    forall j | 0 <= j < n ensures once[j] == Transform(CasKernel(waves, n), line)[j] {
      HartleyIsTransform(waves, n, false, line, once, j);
    }
    assert once == Transform(CasKernel(waves, n), line);
    HartleyIsTransform(waves, n, false, once, twice, k);
    TwiceIsLength(CasKernel(waves, n), n, line, k);
  }

  /** The normalized inverse restores a line, for every length and every primitive root of unity of that
      order. */
  lemma InverseRestoresLine(w: Complex, n: nat, line: Line, middle: Line, out: Line)
    requires PrimitiveRoot(w, n)
    requires HartleyLine(WavesOf(w, n), n, false, line, middle) && HartleyLine(WavesOf(w, n), n, true, middle, out)
    ensures out == line
  {
    hide HartleyLine;
    hide Orthogonal;
    hide WavesOf;
    WavesAreOrthogonal(w, n);
    OrthogonalLineRestored(WavesOf(w, n), n, line, middle, out);
  }

  /** The same for every line of a batch. */
  lemma InverseRestoresBatch(w: Complex, n: nat, m: nat, source: Line, middle: Line, out: Line)
    requires PrimitiveRoot(w, n) && |source| == |out| == Times(m, n)
    requires forall b :: 0 <= b < m ==>
      HartleyRow(WavesOf(w, n), n, false, b, source, middle) && HartleyRow(WavesOf(w, n), n, true, b, middle, out)
    ensures out == source
  {
    hide HartleyRow;
    hide Orthogonal;
    hide WavesOf;
    WavesAreOrthogonal(w, n);
    OrthogonalBatchRestored(WavesOf(w, n), n, m, source, middle, out);
  }

  lemma QuarterTurn(e: nat)
    ensures var i := Complex(0.0, 1.0); Pow(i, 0) == ONE && Pow(i, e + 1) == Complex(-Pow(i, e).im, Pow(i, e).re)
  {
    var a := Pow(Complex(0.0, 1.0), e);
    assert RealMul(a.re, 0.0) == 0.0 && RealMul(a.im, 0.0) == 0.0 && RealMul(a.re, 1.0) == a.re
      && RealMul(a.im, 1.0) == a.im;
  }

  lemma UnitCircle(a: Complex)
    requires RealMul(a.re, a.re) + RealMul(a.im, a.im) == 1.0
    ensures Unit(a)
  {
    RealMulAdd(a.im, 0.0, a.im);
    RealMulAdd(a.re, 0.0, a.im);
    RealMulComm(a.im, a.re);
  }

  lemma UnitParts(x: real)
    ensures RealMul(0.0, x) == 0.0 && RealMul(1.0, x) == x
  {
  }

  lemma UnitOfQuarter()
    ensures Unit(Complex(0.0, 1.0))
  {
    hide RealMul;
    hide Unit;
    UnitParts(0.0);
    UnitParts(1.0);
    UnitCircle(Complex(0.0, 1.0));
  }

  /** There are such roots: `i` has order four. */
  lemma FourthRoot()
    ensures PrimitiveRoot(Complex(0.0, 1.0), 4)
  {
    hide Mul;
    hide Pow;
    hide Unit;
    var i := Complex(0.0, 1.0);
    UnitOfQuarter();
    QuarterTurn(0);
    QuarterTurn(1);
    QuarterTurn(2);
    QuarterTurn(3);
    forall d | 0 < d < 4 ensures Pow(i, d) != ONE {
      assert d == 1 || d == 2 || d == 3;
    }
  }
}
