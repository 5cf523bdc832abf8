/** Real-to-half-complex lines: packed rows, length checks, and what a batch means. */
module R2cRows {
  import opened MachineInts
  import opened Nonlinear
  import opened Complexes

  /** The independent values of the spectrum of a real line. */
  function ComplexLen(n: nat): nat { n / 2 + 1 }

  // ----- Rows

  /** Row `b` of contiguous rows of length `n`. */
  function Row<T>(s: seq<T>, n: nat, b: nat): (row: seq<T>)
    requires Times(b, n) + n <= |s|
    ensures |row| == n
  {
    s[Times(b, n)..Times(b, n) + n]
  }

  /** Row `b` is inside `m` rows, and starts where the rows before it end. */
  lemma RowInside(b: nat, m: nat, n: nat)
    requires b < m
    ensures Times(b + 1, n) == Times(b, n) + n <= Times(m, n)
  {
    TimesIs(b + 1, n);
    TimesIs(m, n);
    MulMono(b + 1, m, n);
  }

  lemma RowOfPrefix<T>(s: seq<T>, n: nat, b: nat, k: nat)
    requires Times(b, n) + n <= k <= |s|
    ensures Row(s[..k], n, b) == Row(s, n, b)
  {
  }

  /** Sequences of rows are equal if their rows are. */
  lemma {:induction false} SameRows<T>(s: seq<T>, t: seq<T>, n: nat, m: nat)
    requires |s| == |t| == Times(m, n)
    requires forall b :: 0 <= b < m ==> SameRow(s, t, n, b)
    ensures s == t
    decreases m
  {
    if m != 0 {
      var last := Times(m - 1, n);
      forall b | 0 <= b < m - 1 ensures SameRow(s[..last], t[..last], n, b) {
        assert SameRow(s, t, n, b);
        RowInside(b, m - 1, n);
        RowOfPrefix(s, n, b, last);
        RowOfPrefix(t, n, b, last);
      }
      SameRows(s[..last], t[..last], n, m - 1);
      assert SameRow(s, t, n, m - 1);
      assert s == s[..last] + Row(s, n, m - 1) && t == t[..last] + Row(t, n, m - 1);
    }
  }

  ghost predicate SameRow<T>(s: seq<T>, t: seq<T>, n: nat, b: nat) {
    Times(b, n) + n <= |s| && Times(b, n) + n <= |t| && Row(s, n, b) == Row(t, n, b)
  }

  // ----- The two views of one allocation

  /** The complex values of an array of scalars. */
  function Pairs(s: seq<real>): (line: Line)
    ensures |line| == |s| / 2
  {
    seq(|s| / 2, k requires 0 <= k < |s| / 2 => Complex(s[2 * k], s[2 * k + 1]))
  }

  /** The scalars of complex values. */
  function Scalars(line: Line): (s: seq<real>)
    ensures |s| == 2 * |line|
  {
    seq(2 * |line|, i requires 0 <= i < 2 * |line| => if i % 2 == 0 then line[i / 2].re else line[i / 2].im)
  }

  lemma PairsOfScalars(line: Line)
    ensures Pairs(Scalars(line)) == line
  {
  }

  /** A complex row is the same seen through either view. */
  lemma PairsOfRow(s: seq<real>, c: nat, b: nat)
    requires Times(b, 2 * c) + 2 * c <= |s|
    ensures Times(b, 2 * c) == 2 * Times(b, c) && Row(Pairs(s), c, b) == Pairs(Row(s, 2 * c, b))
  {
    TimesIs(b, c);
    TimesIs(b, 2 * c);
    MulAssoc(b, 2, c);
    assert b * (2 * c) == 2 * (b * c);
    forall k | 0 <= k < c ensures Row(Pairs(s), c, b)[k] == Pairs(Row(s, 2 * c, b))[k] {
    }
  }

  /** A complex row is at least as long as the real row it replaces. */
  lemma ComplexRowsAreLonger(n: nat, b: nat)
    ensures n < 2 * ComplexLen(n) && Times(b, n) <= Times(b, 2 * ComplexLen(n))
  {
    TimesMono(b, b, n, 2 * ComplexLen(n));
  }

  // ----- One line

  /** What the backend makes of a real line. A panic may leave anything in the destination. */
  datatype ForwardOutcome = Spectrum(bins: Line) | ForwardPanic(left: Line)

  /** What the backend makes of a complex line. It writes the destination before it reports an endpoint. */
  datatype InverseOutcome =
    | Signal(values: seq<real>)
    | EndpointRejected(first: bool, written: seq<real>)
    | InversePanic(left: seq<real>)

  datatype Backend = Backend(forward: seq<real> -> ForwardOutcome, inverse: Line -> InverseOutcome) {
    /** Results fill the destination row. */
    ghost predicate Fits(n: nat) {
      && (forall x: seq<real> :: |x| == n ==> |BinsOf(forward(x))| == ComplexLen(n))
      && (forall x: Line :: |x| == ComplexLen(n) ==> |ValuesOf(inverse(x))| == n)
    }
  }

  function BinsOf(o: ForwardOutcome): Line { if o.Spectrum? then o.bins else o.left }

  function ValuesOf(o: InverseOutcome): seq<real> {
    if o.Signal? then o.values else if o.EndpointRejected? then o.written else o.left
  }

  function Rescaled(normalize: bool, n: nat, values: seq<real>): (r: seq<real>)
    requires 0 < n
    ensures |r| == |values|
  {
    if normalize then seq(|values|, i requires 0 <= i < |values| => RealMul(values[i], 1.0 / n as real)) else values
  }

  /** The normalized inverse divides every value by the length; the raw backward transform leaves it. */
  lemma RescaledIs(normalize: bool, n: nat, values: seq<real>, k: nat)
    requires 0 < n && k < |values|
    ensures RealMul(Rescaled(normalize, n, values)[k], if normalize then n as real else 1.0) == values[k]
  {
    assert 1.0 / n as real * n as real == 1.0;
    assert values[k] * (1.0 / n as real) * n as real == values[k] * (1.0 / n as real * n as real);
  }

  // ----- Batches

  /** `spectrum` holds the transform of every real row. */
  ghost predicate ForwardDone(backend: Backend, n: nat, m: nat, signal: seq<real>, spectrum: Line) {
    && |signal| == Times(m, n) && |spectrum| == Times(m, ComplexLen(n))
    && forall b :: 0 <= b < m ==> ForwardRow(backend, n, b, signal, spectrum)
  }

  ghost predicate ForwardRow(backend: Backend, n: nat, b: nat, signal: seq<real>, spectrum: Line) {
    && Times(b, n) + n <= |signal| && Times(b, ComplexLen(n)) + ComplexLen(n) <= |spectrum|
    && backend.forward(Row(signal, n, b)) == Spectrum(Row(spectrum, ComplexLen(n), b))
  }

  /** `signal` holds the inverse transform of every complex row, divided by the length if asked. */
  ghost predicate InverseDone(backend: Backend, n: nat, m: nat, normalize: bool, spectrum: Line, signal: seq<real>) {
    && 0 < n && |signal| == Times(m, n) && |spectrum| == Times(m, ComplexLen(n))
    && forall b :: 0 <= b < m ==> InverseRow(backend, n, b, normalize, spectrum, signal)
  }

  ghost predicate InverseRow(backend: Backend, n: nat, b: nat, normalize: bool, spectrum: Line, signal: seq<real>)
    requires 0 < n
  {
    && Times(b, n) + n <= |signal| && Times(b, ComplexLen(n)) + ComplexLen(n) <= |spectrum|
    && var out := backend.inverse(Row(spectrum, ComplexLen(n), b));
       out.Signal? && Row(signal, n, b) == Rescaled(normalize, n, out.values)
  }

  lemma SameTimes(c: nat, m: nat, a: nat)
    requires 0 < a && Times(c, a) == Times(m, a)
    ensures c == m
  {
    if c < m {
      TimesIncreases(c, m, a);
    } else if m < c {
      TimesIncreases(m, c, a);
    }
  }

  /** Whatever computed them, in place or not, the rows of a forward transform are the same. */
  lemma ForwardFormsAgree(backend: Backend, n: nat, m: nat, k: nat, signal: seq<real>, left: Line, right: Line)
    requires 0 < n && ForwardDone(backend, n, m, signal, left) && ForwardDone(backend, n, k, signal, right)
    ensures left == right
  {
    SameTimes(m, k, n);
    forall b | 0 <= b < m ensures SameRow(left, right, ComplexLen(n), b) {
      assert ForwardRow(backend, n, b, signal, left) && ForwardRow(backend, n, b, signal, right);
    }
    SameRows(left, right, ComplexLen(n), m);
  }

  /** The same for the inverse and for the raw backward transform. */
  lemma InverseFormsAgree(backend: Backend, n: nat, m: nat, k: nat, normalize: bool, spectrum: Line, left: seq<real>,
                          right: seq<real>)
    requires InverseDone(backend, n, m, normalize, spectrum, left)
      && InverseDone(backend, n, k, normalize, spectrum, right)
    ensures left == right
  {
    SameTimes(m, k, ComplexLen(n));
    forall b | 0 <= b < m ensures SameRow(left, right, n, b) {
      assert InverseRow(backend, n, b, normalize, spectrum, left)
        && InverseRow(backend, n, b, normalize, spectrum, right);
    }
    SameRows(left, right, n, m);
  }

  /** One line survives the two directions of the backend. */
  ghost predicate LineRestored(backend: Backend, n: nat, line: seq<real>)
    requires 0 < n
  {
    var out := backend.forward(line);
    out.Spectrum? ==> (
      var back := backend.inverse(out.bins);
      back.Signal? && Rescaled(true, n, back.values) == line)
  }

  /** The normalized inverse restores a batch if the backend restores each line of it. */
  lemma BatchRestored(backend: Backend, n: nat, m: nat, signal: seq<real>, spectrum: Line, restored: seq<real>)
    requires ForwardDone(backend, n, m, signal, spectrum) && InverseDone(backend, n, m, true, spectrum, restored)
    requires forall line: seq<real> :: |line| == n ==> LineRestored(backend, n, line)
    ensures restored == signal
  {
    forall b | 0 <= b < m ensures SameRow(restored, signal, n, b) {
      assert ForwardRow(backend, n, b, signal, spectrum) && InverseRow(backend, n, b, true, spectrum, restored);
      assert LineRestored(backend, n, Row(signal, n, b));
    }
    SameRows(restored, signal, n, m);
  }
}
