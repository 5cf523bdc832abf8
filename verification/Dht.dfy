/** The Hartley transform of two real lines from one complex transform. */
module Dhts {
  import opened MachineInts
  import opened Nonlinear
  import opened Complexes
  import opened R2cRows

  // ----- Waves

  /** The values of cosine and sine that a transform of length `n` uses: bin `k` at position `j`. */
  datatype Waves = Waves(cosine: seq<seq<real>>, sine: seq<seq<real>>) {
    /** All that the reconstruction needs of them: the angle is zero in bin zero, and replacing `k`
        by `n - k` keeps a cosine and negates a sine. */
    ghost predicate Valid(n: nat) {
      && |cosine| == |sine| == n && (forall k :: 0 <= k < n ==> |cosine[k]| == |sine[k]| == n)
      && (0 < n ==> AngleZero()) && forall k :: 0 < k < n ==> Mirrored(k)
    }

    ghost predicate AngleZero()
      requires 0 < |cosine| && 0 < |sine|
    {
      && (forall j :: 0 <= j < |cosine[0]| ==> cosine[0][j] == 1.0)
      && forall j :: 0 <= j < |sine[0]| ==> sine[0][j] == 0.0
    }

    ghost predicate Mirrored(k: nat)
      requires 0 < k < |cosine| == |sine|
    {
      var mirror := |cosine| - k;
      && cosine[mirror] == cosine[k] && |sine[mirror]| == |sine[k]|
      && forall j :: 0 <= j < |sine[k]| ==> sine[mirror][j] == -sine[k][j]
    }

    /** The row of the forward complex transform: negative exponent. */
    ghost function KernelRow(k: nat): (row: Line)
      requires k < |cosine| == |sine| && |cosine[k]| == |sine[k]|
      ensures |row| == |cosine[k]|
    {
      seq(|cosine[k]|, j requires 0 <= j < |cosine[k]| => Complex(cosine[k][j], -sine[k][j]))
    }

    ghost function Kernel(n: nat): (kernel: seq<Line>)
      requires Valid(n)
      ensures IsKernel(kernel, n)
    {
      seq(n, k requires 0 <= k < n => KernelRow(k))
    }

    /** The Hartley sum of `values` in bin `k`: cosine plus sine. */
    ghost function Hartley(k: nat, values: seq<real>): real
      requires k < |cosine| == |sine| && |cosine[k]| == |sine[k]| == |values|
    {
      Weighted(cosine[k], values) + Weighted(sine[k], values)
    }
  }

  ghost function Weighted(weights: seq<real>, values: seq<real>): real
    requires |weights| == |values|
  {
    if weights == [] then 0.0
    else
      var last := |weights| - 1;
      Weighted(weights[..last], values[..last]) + RealMul(values[last], weights[last])
  }

  ghost function Re(line: Line): (values: seq<real>)
    ensures |values| == |line|
  {
    seq(|line|, j requires 0 <= j < |line| => line[j].re)
  }

  ghost function Im(line: Line): (values: seq<real>)
    ensures |values| == |line|
  {
    seq(|line|, j requires 0 <= j < |line| => line[j].im)
  }

  /** A complex sum against cosine minus `i` sine, in real parts. */
  lemma {:induction false} BinParts(row: Line, cosine: seq<real>, sine: seq<real>, line: Line)
    requires |row| == |cosine| == |sine| == |line| && forall j :: 0 <= j < |row| ==>
      row[j] == Complex(cosine[j], -sine[j])
    ensures Bin(row, line).re == Weighted(cosine, Re(line)) + Weighted(sine, Im(line))
    ensures Bin(row, line).im == Weighted(cosine, Im(line)) - Weighted(sine, Re(line))
  {
    if row != [] {
      var last := |row| - 1;
      BinParts(row[..last], cosine[..last], sine[..last], line[..last]);
      assert Re(line)[..last] == Re(line[..last]) && Im(line)[..last] == Im(line[..last]);
      ProductParts(cosine[last], sine[last], line[last]);
    }
  }

  lemma ProductParts(c: real, s: real, z: Complex)
    ensures Mul(Complex(c, -s), z) == Complex(RealMul(z.re, c) + RealMul(z.im, s), RealMul(z.im, c) - RealMul(z.re, s))
  {
  }

  lemma {:induction false} Negated(a: seq<real>, b: seq<real>, values: seq<real>)
    requires |a| == |b| == |values| && forall j :: 0 <= j < |a| ==> b[j] == -a[j]
    ensures Weighted(b, values) == -Weighted(a, values)
  {
    if a != [] {
      var last := |a| - 1;
      Negated(a[..last], b[..last], values[..last]);
      assert RealMul(values[last], -a[last]) == -RealMul(values[last], a[last]);
    }
  }

  /** The four sums of bins `k` and `n - k`. */
  lemma MirrorParts(w: Waves, n: nat, k: nat, line: Line)
    requires w.Valid(n) && |line| == n && 0 < k < n
    ensures var f, m := Bin(w.KernelRow(k), line), Bin(w.KernelRow(n - k), line);
      && f == Complex(Weighted(w.cosine[k], Re(line)) + Weighted(w.sine[k], Im(line)),
                      Weighted(w.cosine[k], Im(line)) - Weighted(w.sine[k], Re(line)))
      && m == Complex(Weighted(w.cosine[k], Re(line)) - Weighted(w.sine[k], Im(line)),
                      Weighted(w.cosine[k], Im(line)) + Weighted(w.sine[k], Re(line)))
  {
    hide Weighted;
    hide Bin;
    assert w.Mirrored(k);
    BinParts(w.KernelRow(k), w.cosine[k], w.sine[k], line);
    BinParts(w.KernelRow(n - k), w.cosine[n - k], w.sine[n - k], line);
    Negated(w.sine[k], w.sine[n - k], Re(line));
    Negated(w.sine[k], w.sine[n - k], Im(line));
  }

  /** In the bins that are their own mirror every sine sum vanishes. */
  lemma SelfBin(w: Waves, n: nat, k: nat, line: Line)
    requires w.Valid(n) && |line| == n && k < n && (k == 0 || 2 * k == n)
    ensures Bin(w.KernelRow(k), line) == Complex(w.Hartley(k, Re(line)), w.Hartley(k, Im(line)))
  {
    hide Weighted;
    hide Bin;
    BinParts(w.KernelRow(k), w.cosine[k], w.sine[k], line);
    forall j | 0 <= j < n ensures w.sine[k][j] == -w.sine[k][j] {
      if k != 0 {
        assert w.Mirrored(k) && n - k == k;
      }
    }
    Negated(w.sine[k], w.sine[k], Re(line));
    Negated(w.sine[k], w.sine[k], Im(line));
  }

  // ----- What a line means

  function Divided(normalize: bool, n: nat, z: Complex): Complex
    requires 0 < n
  {
    if normalize then Complex(z.re / n as real, z.im / n as real) else z
  }

  /** `out` holds the Hartley sums of the real and of the imaginary parts, each on its own. */
  ghost predicate HartleyLine(w: Waves, n: nat, normalize: bool, line: Line, out: Line) {
    && 0 < n && w.Valid(n) && |line| == |out| == n
    && forall k :: 0 <= k < n ==>
      out[k] == Divided(normalize, n, Complex(w.Hartley(k, Re(line)), w.Hartley(k, Im(line))))
  }

  ghost predicate HartleyRow(w: Waves, n: nat, normalize: bool, b: nat, source: Line, out: Line) {
    && Times(b, n) + n <= |source| && Times(b, n) + n <= |out|
    && HartleyLine(w, n, normalize, Row(source, n, b), Row(out, n, b))
  }

  /** A real line stays real. */
  lemma RealStaysReal(w: Waves, n: nat, normalize: bool, line: Line, out: Line)
    requires HartleyLine(w, n, normalize, line, out) && forall j :: 0 <= j < n ==> line[j].im == 0.0
    ensures forall k :: 0 <= k < n ==> out[k].im == 0.0
  {
    forall k | 0 <= k < n ensures out[k].im == 0.0 {
      NoValues(w.cosine[k], Im(line));
      NoValues(w.sine[k], Im(line));
    }
  }

  lemma {:induction false} NoValues(weights: seq<real>, values: seq<real>)
    requires |weights| == |values| && forall j :: 0 <= j < |values| ==> values[j] == 0.0
    ensures Weighted(weights, values) == 0.0
  {
    if weights != [] {
      NoValues(weights[..|weights| - 1], values[..|values| - 1]);
    }
  }

  /** The length-one transform is the identity, divided or not. */
  lemma LengthOne(w: Waves, normalize: bool, z: Complex)
    requires w.Valid(1)
    ensures HartleyLine(w, 1, normalize, [z], [z])
  {
    One(w.cosine[0], Re([z]));
    One(w.sine[0], Re([z]));
    One(w.cosine[0], Im([z]));
    One(w.sine[0], Im([z]));
  }

  lemma One(weights: seq<real>, values: seq<real>)
    requires |weights| == |values| == 1
    ensures Weighted(weights, values) == RealMul(values[0], weights[0])
  {
    assert weights[..0] == [] && values[..0] == [];
  }

  // ----- The plan

  function Abs(x: real): real { if x < 0.0 then -x else x }

  datatype DhtError =
    | BufferLengthMismatch
    | NonIntegralLines
    | EmbeddingTooSmall(required: nat, actual: nat)
    | DhtScratchTooSmall(required: nat, actual: nat)

  class LocalDhtPlan {
    const lineLen: usize
    const scratchLen: usize
    const maxFinite: real
    ghost const waves: Waves

    ghost predicate Valid() {
      0 < lineLen && waves.Valid(lineLen)
    }

    /** Half the sum, added first unless that could leave the range of the floating-point type. */
    function HalfSum(x: real, y: real): (r: real)
      ensures 2.0 * r == x + y
    {
      if Abs(x) <= maxFinite / 2.0 && Abs(y) <= maxFinite / 2.0 then (x + y) * 0.5 else x * 0.5 + y * 0.5
    }

    /** Copies one line to the workspace and transforms it there. */
    method FillAndFft(source: array<Complex>, at: nat, embedding: array<Complex>, kernel: seq<Line>)
      requires Valid() && at + lineLen <= source.Length && lineLen <= embedding.Length && source != embedding
      requires kernel == waves.Kernel(lineLen)
      modifies embedding
      ensures embedding[..lineLen] == Transform(kernel, source[at..at + lineLen])
        && embedding[lineLen..] == old(embedding[lineLen..])
    {
      for k := 0 to lineLen
        invariant embedding[..k] == source[at..at + k] && embedding[lineLen..] == old(embedding[lineLen..])
      {
        embedding[k] := source[at + k];
      }
      var line := embedding[..lineLen];
      for k := 0 to lineLen
        invariant forall j :: 0 <= j < k ==> embedding[j] == Bin(kernel[j], line)
        invariant embedding[lineLen..] == old(embedding[lineLen..])
      {
        embedding[k] := Bin(kernel[k], line);
      }
    }

    /** Value `k` of the result, from bins `k` and `lineLen - k`. */
    method OneValue(embedding: array<Complex>, k: nat, normalize: bool, ghost line: Line) returns (value: Complex)
      requires Valid() && k < lineLen <= embedding.Length && |line| == lineLen
      requires embedding[..lineLen] == Transform(waves.Kernel(lineLen), line)
      ensures value == Divided(normalize, lineLen, Complex(waves.Hartley(k, Re(line)), waves.Hartley(k, Im(line))))
    {
      hide Bin;
      hide Weighted;
      assert embedding[k] == embedding[..lineLen][k];
      if k == 0 || (lineLen % 2 == 0 && k == lineLen / 2) {
        SelfBin(waves, lineLen, k, line);
        return Divided(normalize, lineLen, embedding[k]);
      }
      MirrorParts(waves, lineLen, k, line);
      assert embedding[lineLen - k] == embedding[..lineLen][lineLen - k];
      var here, mirror := embedding[k], embedding[lineLen - k];
      var realPart := HalfSum(here.re, mirror.re) + HalfSum(mirror.im, -here.im);
      var imaginary := HalfSum(here.im, mirror.im) + HalfSum(here.re, -mirror.re);
      return Divided(normalize, lineLen, Complex(realPart, imaginary));
    }

    /** Rebuilds the Hartley line from the complex transform in the workspace. */
    method WriteLine(destination: array<Complex>, at: nat, embedding: array<Complex>, normalize: bool, ghost line: Line)
      requires Valid() && at + lineLen <= destination.Length && lineLen <= embedding.Length && destination != embedding
        && |line| == lineLen
      requires embedding[..lineLen] == Transform(waves.Kernel(lineLen), line)
      modifies destination
      ensures HartleyLine(waves, lineLen, normalize, line, destination[at..at + lineLen])
      ensures destination[..at] == old(destination[..at])
        && destination[at + lineLen..] == old(destination[at + lineLen..])
    {
      hide Transform;
      hide Bin;
      hide Weighted;
      ghost var out: Line := [];
      for k := 0 to lineLen
        invariant |out| == k && destination[at..at + k] == out
        invariant forall j :: 0 <= j < k ==>
          out[j] == Divided(normalize, lineLen, Complex(waves.Hartley(j, Re(line)), waves.Hartley(j, Im(line))))
        invariant destination[..at] == old(destination[..at])
          && destination[at + lineLen..] == old(destination[at + lineLen..])
      {
        var value := OneValue(embedding, k, normalize, line);
        destination[at + k] := value;
        out := out + [value];
        assert destination[at..at + k + 1] == destination[at..at + k] + [value];
      }
    }

    method ValidateInPlace(dataLen: usize, embeddingLen: usize, scratch: usize) returns (r: Result<(), DhtError>)
      requires Valid()
      ensures r == if dataLen % lineLen != 0 then Err(NonIntegralLines)
                   else if embeddingLen < lineLen then Err(EmbeddingTooSmall(lineLen, embeddingLen))
                   else if scratch < scratchLen then Err(DhtScratchTooSmall(scratchLen, scratch)) else Ok(())
    {
      if dataLen % lineLen != 0 {
        return Err(NonIntegralLines);
      }
      if embeddingLen < lineLen {
        return Err(EmbeddingTooSmall(lineLen, embeddingLen));
      }
      if scratch < scratchLen {
        return Err(DhtScratchTooSmall(scratchLen, scratch));
      }
      return Ok(());
    }

    /** Transforms every line where it lies. */
    method ExecuteInPlace(data: array<Complex>, embedding: array<Complex>, scratch: usize, normalize: bool,
                          kernel: seq<Line>)
      returns (r: Result<(), DhtError>)
      requires Valid() && data != embedding && data.Length <= USIZE_MAX && embedding.Length <= USIZE_MAX
        && kernel == waves.Kernel(lineLen)
      modifies data, embedding
      ensures r.Ok? <==> data.Length % lineLen == 0 && lineLen <= embedding.Length && scratchLen <= scratch
      ensures r.Err? ==> data[..] == old(data[..]) && embedding[..] == old(embedding[..])
      ensures r.Ok? ==> forall b :: 0 <= b < data.Length / lineLen ==>
        HartleyRow(waves, lineLen, normalize, b, old(data[..]), data[..])
      ensures lineLen <= embedding.Length ==> embedding[lineLen..] == old(embedding[lineLen..])
    {
      hide HartleyRow;
      var valid := ValidateInPlace(data.Length, embedding.Length, scratch);
      if valid.Err? {
        return Err(valid.error);
      }
      ghost var start := data[..];
      var lines := data.Length / lineLen;
      TimesIs(lines, lineLen);
      if data.Length == 0 || lineLen == 1 {
        IdentityRows(normalize, start);
        return Ok(());
      }
      for b := 0 to lines
        invariant Times(b, lineLen) <= |start| && data[Times(b, lineLen)..] == start[Times(b, lineLen)..]
        invariant forall j :: 0 <= j < b ==> HartleyRow(waves, lineLen, normalize, j, start, data[..])
        invariant embedding[lineLen..] == old(embedding[lineLen..])
      {
        RowInside(b, lines, lineLen);
        LineInPlace(data, embedding, b, normalize, kernel, start);
      }
      return Ok(());
    }

    /** Line `b` is copied to the workspace before it is overwritten. */
    method LineInPlace(data: array<Complex>, embedding: array<Complex>, b: nat, normalize: bool, kernel: seq<Line>,
                       ghost start: Line)
      requires Valid() && data != embedding && kernel == waves.Kernel(lineLen) && data.Length == |start|
      requires Times(b, lineLen) + lineLen <= |start| && lineLen <= embedding.Length
      requires data[Times(b, lineLen)..] == start[Times(b, lineLen)..]
      requires forall j :: 0 <= j < b ==> HartleyRow(waves, lineLen, normalize, j, start, data[..])
      modifies data, embedding
      ensures data[Times(b, lineLen) + lineLen..] == start[Times(b, lineLen) + lineLen..]
      ensures forall j :: 0 <= j <= b ==> HartleyRow(waves, lineLen, normalize, j, start, data[..])
      ensures embedding[lineLen..] == old(embedding[lineLen..])
    {
      hide HartleyRow;
      hide HartleyLine;
      hide Transform;
      ghost var was := data[..];
      var at := Times(b, lineLen);
      assert data[at..at + lineLen] == data[at..][..lineLen] == start[at..][..lineLen] == Row(start, lineLen, b);
      FillAndFft(data, at, embedding, kernel);
      WriteLine(data, at, embedding, normalize, Row(start, lineLen, b));
      RowsAfter(normalize, b, start, was, data[..]);
      assert data[at + lineLen..] == was[at + lineLen..] == was[at..][lineLen..] == start[at..][lineLen..];
    }

    /** Transforms every line of `src` to the same line of `dst`. */
    method ExecuteOutOfPlace(src: array<Complex>, dst: array<Complex>, embedding: array<Complex>, scratch: usize,
                             normalize: bool, kernel: seq<Line>)
      returns (r: Result<(), DhtError>)
      requires Valid() && src != dst && src != embedding && dst != embedding && kernel == waves.Kernel(lineLen)
      requires src.Length <= USIZE_MAX && embedding.Length <= USIZE_MAX
      modifies dst, embedding
      ensures r.Ok? <==>
        src.Length == dst.Length && src.Length % lineLen == 0 && lineLen <= embedding.Length && scratchLen <= scratch
      ensures r.Err? ==> dst[..] == old(dst[..]) && embedding[..] == old(embedding[..])
      ensures r.Ok? ==> forall b :: 0 <= b < src.Length / lineLen ==>
        HartleyRow(waves, lineLen, normalize, b, src[..], dst[..])
      ensures lineLen <= embedding.Length ==> embedding[lineLen..] == old(embedding[lineLen..])
    {
      hide HartleyRow;
      hide Waves.Valid;
      hide Waves.Kernel;
      if src.Length != dst.Length {
        return Err(BufferLengthMismatch);
      }
      var valid := ValidateInPlace(src.Length, embedding.Length, scratch);
      if valid.Err? {
        return Err(valid.error);
      }
      var lines := src.Length / lineLen;
      TimesIs(lines, lineLen);
      if lineLen == 1 {
        forall k | 0 <= k < dst.Length {
          dst[k] := src[k];
        }
        assert dst[..] == src[..];
        IdentityRows(normalize, src[..]);
        return Ok(());
      }
      LinesOutOfPlace(src, dst, embedding, lines, normalize, kernel);
      return Ok(());
    }

    /** The loop over lines. */
    method LinesOutOfPlace(src: array<Complex>, dst: array<Complex>, embedding: array<Complex>, lines: nat,
                           normalize: bool, kernel: seq<Line>)
      requires Valid() && src != dst && src != embedding && dst != embedding && kernel == waves.Kernel(lineLen)
      requires src.Length == dst.Length == Times(lines, lineLen) && lineLen <= embedding.Length
      modifies dst, embedding
      ensures forall b :: 0 <= b < lines ==> HartleyRow(waves, lineLen, normalize, b, src[..], dst[..])
      ensures embedding[lineLen..] == old(embedding[lineLen..])
    {
      hide HartleyRow;
      hide Waves.Valid;
      hide Waves.Kernel;
      for b := 0 to lines
        invariant forall j :: 0 <= j < b ==> HartleyRow(waves, lineLen, normalize, j, src[..], dst[..])
        invariant embedding[lineLen..] == old(embedding[lineLen..])
      {
        RowInside(b, lines, lineLen);
        LineOutOfPlace(src, dst, embedding, b, normalize, kernel);
      }
    }

    method LineOutOfPlace(src: array<Complex>, dst: array<Complex>, embedding: array<Complex>, b: nat, normalize: bool,
                          kernel: seq<Line>)
      requires Valid() && src != dst && src != embedding && dst != embedding && kernel == waves.Kernel(lineLen)
      requires Times(b, lineLen) + lineLen <= src.Length && src.Length == dst.Length && lineLen <= embedding.Length
      requires forall j :: 0 <= j < b ==> HartleyRow(waves, lineLen, normalize, j, src[..], dst[..])
      modifies dst, embedding
      ensures forall j :: 0 <= j <= b ==> HartleyRow(waves, lineLen, normalize, j, src[..], dst[..])
      ensures embedding[lineLen..] == old(embedding[lineLen..])
    {
      hide HartleyRow;
      hide HartleyLine;
      hide Transform;
      ghost var was := dst[..];
      var at := Times(b, lineLen);
      assert src[at..at + lineLen] == Row(src[..], lineLen, b);
      FillAndFft(src, at, embedding, kernel);
      WriteLine(dst, at, embedding, normalize, Row(src[..], lineLen, b));
      RowsAfter(normalize, b, src[..], was, dst[..]);
    }

    /** Row `b` is written and the rows in front of it are kept. */
    lemma RowsAfter(normalize: bool, b: nat, source: Line, was: Line, now: Line)
      requires Valid() && |was| == |now| && Times(b, lineLen) + lineLen <= |source|
        && Times(b, lineLen) + lineLen <= |now|
      requires forall j :: 0 <= j < b ==> HartleyRow(waves, lineLen, normalize, j, source, was)
      requires now[..Times(b, lineLen)] == was[..Times(b, lineLen)]
      requires HartleyLine(waves, lineLen, normalize, Row(source, lineLen, b),
                           now[Times(b, lineLen)..Times(b, lineLen) + lineLen])
      ensures forall j :: 0 <= j <= b ==> HartleyRow(waves, lineLen, normalize, j, source, now)
    {
      hide HartleyLine;
      forall j | 0 <= j <= b ensures HartleyRow(waves, lineLen, normalize, j, source, now) {
        if j < b {
          RowInside(j, b, lineLen);
          assert HartleyRow(waves, lineLen, normalize, j, source, was);
          RowOfPrefix(was, lineLen, j, Times(b, lineLen));
          RowOfPrefix(now, lineLen, j, Times(b, lineLen));
        }
      }
    }

    lemma IdentityRows(normalize: bool, data: Line)
      requires Valid() && (data == [] || lineLen == 1)
      ensures forall b :: 0 <= b < |data| / lineLen ==> HartleyRow(waves, lineLen, normalize, b, data, data)
    {
      hide HartleyRow;
      forall b | 0 <= b < |data| / lineLen ensures HartleyRow(waves, lineLen, normalize, b, data, data) {
        IdentityRow(normalize, b, data);
      }
    }

    lemma IdentityRow(normalize: bool, b: nat, data: Line)
      requires Valid() && (data == [] || lineLen == 1) && b < |data| / lineLen
      ensures HartleyRow(waves, lineLen, normalize, b, data, data)
    {
      TimesIs(b, lineLen);
      assert Row(data, lineLen, b) == [data[b]];
      LengthOne(waves, normalize, data[b]);
    }
  }
}
