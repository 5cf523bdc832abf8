/** The affine map of a spatial remap: along every axis a sign and a translation, modulo the extent. */
module Affines {
  import opened MachineInts
  import opened MixedRadix

  const I128_MAX: int := 0x7FFF_FFFF_FFFF_FFFF_FFFF_FFFF_FFFF_FFFF

  type i128 = x: int | -I128_MAX - 1 <= x <= I128_MAX

  datatype RemapError =
    | SizeOverflow
    | MpiCountOverflow
    | WrongOwner(rank: nat, globalIndex: nat)
    | StructuralInconsistency
    | UnsupportedDatatype

  datatype Affine = Affine(signs: seq<int>, offsets: seq<i128>) {
    ghost predicate Valid(n: nat) {
      |signs| == |offsets| == n && forall a :: 0 <= a < n ==> signs[a] == 1 || signs[a] == -1
    }

    /** `(sign * g + offset) mod extent` along every axis. */
    ghost function Apply(shape: seq<nat>, g: seq<nat>): (s: seq<nat>)
      requires |signs| == |offsets| == |shape| == |g| && Positive(shape)
      ensures |s| == |shape|
    {
      seq(|shape|, a requires 0 <= a < |shape| => Reduce(signs[a] * g[a] + offsets[a], shape[a]))
    }

    /** `sign * (s - offset) mod extent` along every axis. */
    ghost function Undo(shape: seq<nat>, s: seq<nat>): (g: seq<nat>)
      requires |signs| == |offsets| == |shape| == |s| && Positive(shape)
      ensures |g| == |shape|
    {
      seq(|shape|, a requires 0 <= a < |shape| => Reduce(signs[a] * (s[a] - offsets[a]), shape[a]))
    }
  }

  /** The remainder in `0..n`, as Rust's `rem_euclid` computes it. */
  function Reduce(x: int, n: nat): (r: nat)
    requires 0 < n
  {
    x % n
  }

  lemma ReduceUnique(x: int, n: nat, q: int, r: nat)
    requires r < n && x == q * n + r
    ensures Reduce(x, n) == r
  {
    DivMod(x, n);
    var q' := x / n;
    if q < q' {
      RowsApart(q, q', n);
      assert false;
    } else if q' < q {
      RowsApart(q', q, n);
      assert false;
    }
  }

  lemma DivMod(x: int, n: nat)
    requires 0 < n
    ensures x == (x / n) * n + Reduce(x, n) && Reduce(x, n) < n
  {
  }

  lemma RowsApart(a: int, b: int, n: nat)
    requires a < b
    ensures a * n + n <= b * n
  {
    var d := b - a - 1;
    assert b * n == a * n + n + d * n;
  }

  lemma ReduceBound(x: int, n: nat)
    requires 0 < n
    ensures Reduce(x, n) < n
  {
  }

  /** Reducing a summand first makes no difference, whatever its sign. */
  lemma ReduceInner(sign: int, x: int, y: int, n: nat)
    requires 0 < n && (sign == 1 || sign == -1)
    ensures Reduce(sign * Reduce(x, n) + y, n) == Reduce(sign * x + y, n)
  {
    var q, z := x / n, sign * Reduce(x, n) + y;
    var k := z / n;
    DivMod(x, n);
    DivMod(z, n);
    assert sign * x + y == (k + sign * q) * n + Reduce(z, n);
    ReduceUnique(sign * x + y, n, k + sign * q, Reduce(z, n));
  }

  /** The map is a bijection of the index space: `Undo` is its inverse on both sides. */
  lemma AffineIsBijection(m: Affine, shape: seq<nat>, g: seq<nat>)
    requires m.Valid(|shape|) && InBounds(shape, g)
    ensures Positive(shape)
    ensures InBounds(shape, m.Apply(shape, g)) && m.Undo(shape, m.Apply(shape, g)) == g
    ensures InBounds(shape, m.Undo(shape, g)) && m.Apply(shape, m.Undo(shape, g)) == g
  {
    forall a | 0 <= a < |shape|
      ensures m.Apply(shape, g)[a] < shape[a] && m.Undo(shape, m.Apply(shape, g))[a] == g[a]
      ensures m.Undo(shape, g)[a] < shape[a] && m.Apply(shape, m.Undo(shape, g))[a] == g[a]
    {
      AxisIsBijection(m.signs[a], m.offsets[a], shape[a], g[a]);
    }
  }

  lemma AxisIsBijection(sign: int, offset: int, n: nat, x: nat)
    requires x < n && (sign == 1 || sign == -1)
    ensures Reduce(sign * x + offset, n) < n
    ensures Reduce(sign * (Reduce(sign * x + offset, n) - offset), n) == x
    ensures Reduce(sign * (x - offset), n) < n
    ensures Reduce(sign * Reduce(sign * (x - offset), n) + offset, n) == x
  {
    ReduceBound(sign * x + offset, n);
    ReduceBound(sign * (x - offset), n);
    ReduceInner(sign, sign * x + offset, -sign * offset, n);
    ReduceInner(sign, sign * (x - offset), offset, n);
    ReduceUnique(x, n, 0, x);
    SignsCancel(sign, x, offset, Reduce(sign * x + offset, n));
  }

  lemma SignsCancel(sign: int, x: int, offset: int, y: int)
    requires sign == 1 || sign == -1
    ensures sign * (sign * x + offset) + (-sign * offset) == x
    ensures sign * (y - offset) == sign * y + (-sign * offset)
    ensures sign * (sign * (x - offset)) + offset == x
  {
  }

  /** The image of `g` is the only index inside the extents that differs from `sign * g + offset` by whole
      turns around the extent on every axis. */
  lemma ImageIs(m: Affine, shape: seq<nat>, g: seq<nat>, s: seq<nat>, turns: seq<int>)
    requires m.Valid(|shape|) && |g| == |shape| && InBounds(shape, s) && |turns| == |shape|
    requires forall a :: 0 <= a < |shape| ==> m.signs[a] * g[a] + m.offsets[a] == turns[a] * shape[a] + s[a]
    ensures Positive(shape) && s == m.Apply(shape, g)
  {
    forall a | 0 <= a < |shape| ensures s[a] == m.Apply(shape, g)[a] {
      ReduceUnique(m.signs[a] * g[a] + m.offsets[a], shape[a], turns[a], s[a]);
    }
  }

  /** How often each axis turns around its extent. */
  lemma Turns(m: Affine, shape: seq<nat>, g: seq<nat>) returns (turns: seq<int>)
    requires m.Valid(|shape|) && InBounds(shape, g)
    ensures Positive(shape) && |turns| == |shape|
    ensures forall a :: 0 <= a < |shape| ==>
      m.signs[a] * g[a] + m.offsets[a] == turns[a] * shape[a] + m.Apply(shape, g)[a]
  {
    turns := seq(|shape|, a requires 0 <= a < |shape| => (m.signs[a] * g[a] + m.offsets[a]) / shape[a]);
    forall a | 0 <= a < |shape|
      ensures m.signs[a] * g[a] + m.offsets[a] == turns[a] * shape[a] + m.Apply(shape, g)[a]
    {
      DivMod(m.signs[a] * g[a] + m.offsets[a], shape[a]);
    }
  }

  /** The checked computation in `i128`: the raw offset is reduced before it is added, so nothing
      overflows for any offset; only a zero extent or a foreign sign is refused. */
  method AffineCoordinate(destination: seq<usize>, shape: seq<usize>, signs: seq<int>, offsets: seq<i128>)
    returns (r: Result<seq<nat>, RemapError>, ghost turns: seq<int>)
    requires |destination| == |shape| == |signs| == |offsets|
    ensures r.Ok? <==> Positive(shape) && Affine(signs, offsets).Valid(|shape|)
    ensures r.Ok? ==> r.value == Affine(signs, offsets).Apply(shape, destination)
    ensures r.Ok? ==> |turns| == |shape| && forall a :: 0 <= a < |shape| ==>
      r.value[a] < shape[a] && signs[a] * destination[a] + offsets[a] == turns[a] * shape[a] + r.value[a]
    ensures r.Err? ==> r.error == StructuralInconsistency
  {
    hide Reduce;
    var source: seq<nat> := [];
    turns := [];
    for axis := 0 to |shape|
      invariant |source| == |turns| == axis
      invariant forall a :: 0 <= a < axis ==> 0 < shape[a] && (signs[a] == 1 || signs[a] == -1)
      invariant forall a :: 0 <= a < axis ==>
        source[a] < shape[a] && signs[a] * destination[a] + offsets[a] == turns[a] * shape[a] + source[a]
    {
      if shape[axis] <= 0 || (signs[axis] != -1 && signs[axis] != 1) {
        return Err(StructuralInconsistency), turns;
      }
      var reduced, turn := OneAxis(destination[axis], shape[axis], signs[axis], offsets[axis]);
      turns := turns + [turn];
      source := source + [reduced];
    }
    ImageIs(Affine(signs, offsets), shape, destination, source, turns);
    return Ok(source), turns;
  }

  /** One axis. Reducing the offset before it is added keeps the sum inside 128 bits. */
  method OneAxis(destination: usize, extent: usize, sign: int, offset: i128) returns (reduced: usize, ghost turn: int)
    requires 0 < extent && (sign == 1 || sign == -1)
    ensures reduced < extent && sign * destination + offset == turn * extent + reduced
  {
    var coordinate: i128 := destination;
    var signed: i128 := if sign == 1 then coordinate else -coordinate;
    ReduceBound(offset, extent);
    var translated: i128 := signed + Reduce(offset, extent);
    ReduceInner(1, offset, signed, extent);
    ReduceBound(translated, extent);
    reduced := Reduce(translated, extent);
    DivMod(sign * destination + offset, extent);
    turn := (sign * destination + offset) / extent;
  }
}
