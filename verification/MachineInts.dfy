/** The machine integers of the program. */
module MachineInts {
  // A 64-bit `usize`, the 32-bit signed MPI `Count`, and the checked arithmetic the source uses on them.
  // Assigning to a variable of type `usize` is what obliges a proof that nothing wraps.

  const USIZE_MAX: nat := 0xFFFF_FFFF_FFFF_FFFF
  const COUNT_MAX: nat := 0x7FFF_FFFF

  const U128_MAX: nat := 0xFFFF_FFFF_FFFF_FFFF_FFFF_FFFF_FFFF_FFFF

  type usize = x: nat | x <= USIZE_MAX

  /** MPI's `Count`: a signed 32-bit integer. */
  type count32 = x: int | -0x8000_0000 <= x <= COUNT_MAX

  type u128 = x: nat | x <= U128_MAX

  datatype Option<+T> = None | Some(value: T)

  datatype Result<+T, +E> = Ok(value: T) | Err(error: E)

  function CheckedAdd(a: nat, b: nat): (r: Option<usize>) {
    if a + b <= USIZE_MAX then Some(a + b) else None
  }

  /** `a * b`, kept out of the solver's nonlinear arithmetic until `Nonlinear.TimesIs` is called. */
  function Times(a: nat, b: nat): nat {
    if a == 0 then 0 else Times(a - 1, b) + b
  }

  /** `a / m`, kept out of the solver's nonlinear arithmetic in the same way. */
  function Quotient(a: nat, m: nat): nat
    requires 0 < m
  {
    if a < m then 0 else Quotient(a - m, m) + 1
  }

  function CheckedMul(a: nat, b: nat): (r: Option<usize>) {
    if Times(a, b) <= USIZE_MAX then Some(Times(a, b)) else None
  }

  function CheckedSub(a: nat, b: nat): (r: Option<nat>) {
    if b <= a then Some(a - b) else None
  }

  function ThenSub(a: Option<nat>, b: nat): (r: Option<nat>) {
    if a.Some? then CheckedSub(a.value, b) else None
  }

  function Min(a: nat, b: nat): nat { if a <= b then a else b }

  function Max(a: nat, b: nat): nat { if a <= b then b else a }
}

/** Nonlinear facts, kept apart so that every use names the product it needs. */
module Nonlinear {
  import opened MachineInts

  lemma {:induction false} TimesIs(a: nat, b: nat)
    ensures Times(a, b) == a * b
  {
    if a != 0 {
      TimesIs(a - 1, b);
    }
  }

  lemma MulMono(a: nat, b: nat, c: nat)
    requires a <= b
    ensures a * c <= b * c && c * a <= c * b
  {
  }

  lemma TimesComm(a: nat, b: nat)
    ensures Times(a, b) == Times(b, a)
  {
    TimesIs(a, b);
    TimesIs(b, a);
  }

  lemma TimesAssoc(a: nat, b: nat, c: nat)
    ensures Times(Times(a, b), c) == Times(a, Times(b, c))
  {
    TimesIs(a, b);
    TimesIs(b, c);
    TimesIs(a * b, c);
    TimesIs(a, b * c);
    MulAssoc(a, b, c);
  }

  lemma MulAssoc(a: nat, b: nat, c: nat)
    ensures a * b * c == a * (b * c)
  {
  }

  lemma TimesDistribute(a: nat, b: nat, c: nat)
    ensures Times(a + b, c) == Times(a, c) + Times(b, c)
  {
    TimesIs(a, c);
    TimesIs(b, c);
    TimesIs(a + b, c);
  }

  lemma TimesMono(a: nat, b: nat, c: nat, d: nat)
    requires a <= b && c <= d
    ensures Times(a, c) <= Times(b, d)
  {
    TimesIs(a, c);
    TimesIs(b, d);
    MulMono(a, b, c);
    MulMono(c, d, b);
  }

  lemma TimesIncreases(i: nat, j: nat, m: nat)
    requires i < j && 0 < m
    ensures Times(i, m) < Times(j, m)
  {
    TimesMono(i + 1, j, m, m);
  }

  /** Position `r` of row `q` lies before row `n` ends. */
  lemma TimesRow(q: nat, n: nat, m: nat, r: nat)
    requires q < n && r < m
    ensures Times(q, m) + r < Times(q, m) + m <= Times(n, m)
  {
    TimesMono(q + 1, n, m, m);
  }

  /** Quotient and remainder are determined by `linear == q * m + r` with `r < m`. */
  lemma DivModUnique(linear: nat, q: nat, m: nat, r: nat)
    requires r < m && linear == q * m + r
    ensures linear / m == q && linear % m == r
  {
    var q', r' := linear / m, linear % m;
    assert linear == q' * m + r';
    if q < q' {
      MulMono(q + 1, q', m);
      assert false;
    } else if q' < q {
      MulMono(q' + 1, q, m);
      assert false;
    }
  }

  lemma {:induction false} QuotientIs(a: nat, m: nat)
    requires 0 < m
    ensures Quotient(a, m) == a / m
  {
    if a < m {
      DivModUnique(a, 0, m, a);
    } else {
      QuotientIs(a - m, m);
      var q, r := (a - m) / m, (a - m) % m;
      assert a - m == q * m + r;
      assert (q + 1) * m == q * m + m;
      DivModUnique(a, q + 1, m, r);
    }
  }

  lemma TimesDivMod(q: nat, m: nat, r: nat)
    requires r < m
    ensures (Times(q, m) + r) / m == q && (Times(q, m) + r) % m == r
  {
    TimesIs(q, m);
    DivModUnique(q * m + r, q, m, r);
  }

  /** An offset into `q` rows of `m` splits into a row and a position in it. */
  lemma TimesSplit(linear: nat, q: nat, m: nat)
    requires linear < Times(q, m)
    ensures 0 < m && linear / m < q && linear % m < m && linear == Times(linear / m, m) + linear % m
  {
    TimesIs(q, m);
    if m == 0 {
      assert false;
    }
    if q <= linear / m {
      MulMono(q, linear / m, m);
      assert false;
    }
    TimesIs(linear / m, m);
  }

  /** An unchecked product: the caller owes that it fits. */
  method Multiply(a: nat, b: nat) returns (r: usize)
    requires Times(a, b) <= USIZE_MAX
    ensures r == Times(a, b)
  {
    TimesIs(a, b);
    r := a * b;
  }
}
