/** The floor partition of one axis, ranges, and the checked row-major offset. */
module Geometry {
  import opened MachineInts
  import opened Nonlinear
  import opened MixedRadix

  datatype Range = Range(start: nat, end: nat) {
    predicate Contains(i: nat) { start <= i < end }

    function Len(): nat { if start <= end then end - start else 0 }
  }

  datatype GeometryError =
    | ZeroPartitions
    | ZeroProcessExtent(axis: nat)
    | ProcessCoordinateOutOfBounds(axis: nat, coordinate: nat, extent: nat)
    | RankMismatch(shapeRank: nat, indexRank: nat)
    | LocalIndexOutOfBounds(axis: nat, index: nat, extent: nat)
    | SizeOverflow

  /** `floor(length * k / parts)`. */
  function PartitionStart(length: nat, parts: nat, k: nat): nat
    requires 0 < parts
  {
    Quotient(Times(length, k), parts)
  }

  lemma PartitionStartIs(length: nat, parts: nat, k: nat)
    requires 0 < parts
    ensures PartitionStart(length, parts, k) == length * k / parts
  {
    TimesIs(length, k);
    QuotientIs(Times(length, k), parts);
  }

  function Part(length: nat, parts: nat, k: nat): Range
    requires 0 < parts
  {
    Range(PartitionStart(length, parts, k), PartitionStart(length, parts, k + 1))
  }

  lemma DivLess(a: nat, b: nat, c: nat)
    requires 0 < c
    ensures a / c <= b <==> a < (b + 1) * c
  {
    var q, r := a / c, a % c;
    assert a == q * c + r;
    if q <= b {
      MulMono(q + 1, b + 1, c);
    } else {
      MulMono(b + 1, q, c);
    }
  }

  /** Widened to 128 bits the product of two machine words always fits, and narrowing the quotient back
      loses nothing: up to the number of parts a boundary is at most the length. */
  lemma BoundaryFits(length: usize, parts: usize, position: usize)
    requires 0 < parts && position <= parts
    ensures Times(length, position) <= U128_MAX && PartitionStart(length, parts, position) <= length
  {
    TimesIs(length, position);
    MulMono(length, USIZE_MAX, position);
    MulMono(position, USIZE_MAX, USIZE_MAX);
    MulMono(position, parts, length);
    PartitionStartIs(length, parts, position);
    DivLess(length * position, length, parts);
    assert (length + 1) * parts == length * parts + parts;
  }

  /** One boundary, computed in 128 bits. */
  function Boundary(length: usize, parts: usize, position: usize): (r: usize)
    requires 0 < parts && position <= parts
    ensures r <= length
  {
    BoundaryFits(length, parts, position);
    var product: u128 := Times(length, position);
    Quotient(product, parts)
  }

  function PartitionRange(length: usize, parts: usize, coordinate: usize): (r: Result<Range, GeometryError>)
  {
    if parts == 0 then Err(ZeroPartitions)
    else if coordinate >= parts then Err(ProcessCoordinateOutOfBounds(0, coordinate, parts))
    else
      var next: usize := coordinate + 1;
      Ok(Range(Boundary(length, parts, coordinate), Boundary(length, parts, next)))
  }

  /** The coordinate whose part holds position `i`, in closed form. */
  ghost function Owner(i: nat, length: nat, parts: nat): nat
    requires i < length && 0 < parts
  {
    ((i + 1) * parts - 1) / length
  }

  lemma PartitionEnds(length: nat, parts: nat)
    requires 0 < parts
    ensures PartitionStart(length, parts, 0) == 0 && PartitionStart(length, parts, parts) == length
  {
    DivModUnique(length * parts, length, parts, 0);
    PartitionStartIs(length, parts, 0);
    PartitionStartIs(length, parts, parts);
  }

  /** The parts tile `0..length` in order. */
  lemma PartitionTiles(length: nat, parts: nat)
    requires 0 < parts
    ensures PartitionStart(length, parts, 0) == 0
    ensures PartitionStart(length, parts, parts) == length
    ensures forall j, k :: 0 <= j <= k <= parts ==>
      PartitionStart(length, parts, j) <= PartitionStart(length, parts, k) <= length
  {
    PartitionEnds(length, parts);
    forall j, k | 0 <= j <= k <= parts
      ensures PartitionStart(length, parts, j) <= PartitionStart(length, parts, k) <= length
    {
      PartitionMonotone(length, parts, j, k);
      PartitionMonotone(length, parts, k, parts);
    }
  }

  lemma PartitionMonotone(length: nat, parts: nat, j: nat, k: nat)
    requires 0 < parts && j <= k
    ensures PartitionStart(length, parts, j) <= PartitionStart(length, parts, k)
  {
    PartitionStartIs(length, parts, j);
    PartitionStartIs(length, parts, k);
    var b := PartitionStart(length, parts, k);
    DivLess(length * k, b, parts);
    MulMono(j, k, length);
    DivLess(length * j, b, parts);
  }

  /** No part is longer than any other by more than one element. */
  lemma PartitionBalance(length: nat, parts: nat, k: nat)
    requires 0 < parts
    ensures length / parts <= Part(length, parts, k).Len() <= length / parts + 1
  {
    BalanceOfStarts(length, parts, k);
  }

  lemma BalanceOfStarts(length: nat, parts: nat, k: nat)
    requires 0 < parts
    ensures var start := PartitionStart(length, parts, k);
      start + length / parts <= PartitionStart(length, parts, k + 1) <= start + length / parts + 1
  {
    PartitionStartIs(length, parts, k);
    PartitionStartIs(length, parts, k + 1);
    BalanceOfQuotients(length, parts, k);
  }

  lemma BalanceOfQuotients(length: nat, parts: nat, k: nat)
    requires 0 < parts
    ensures length * k / parts + length / parts <= length * (k + 1) / parts <= length * k / parts + length / parts + 1
  {
    var q, r := length / parts, length % parts;
    var a, s := length * k / parts, length * k % parts;
    assert length * (k + 1) == length * k + length;
    AddQuotients(length * k, a, s, length, q, r, parts);
  }

  lemma AddQuotients(x: nat, a: nat, s: nat, y: nat, q: nat, r: nat, m: nat)
    requires x == a * m + s && y == q * m + r && s < m && r < m
    ensures a + q <= (x + y) / m <= a + q + 1
  {
    assert (a + q) * m == a * m + q * m;
    if s + r < m {
      DivModUnique(x + y, a + q, m, s + r);
    } else {
      assert (a + q + 1) * m == (a + q) * m + m;
      DivModUnique(x + y, a + q + 1, m, s + r - m);
    }
  }

  /** Position `i` lies in part `k` exactly when `k` is its owner; the owner always exists. */
  lemma OwnerIsUnique(i: nat, length: nat, parts: nat, k: nat)
    requires i < length && 0 < parts
    ensures Owner(i, length, parts) < parts
    ensures Part(length, parts, k).Contains(i) <==> k == Owner(i, length, parts)
  {
    var w := (i + 1) * parts - 1;
    MulMono(1, i + 1, parts);
    MulMono(i + 1, length, parts);
    DivLess(w, parts - 1, length);
    assert (i + 1) * parts <= length * parts == parts * length;
    StartsBefore(i, length, parts, k);
    StartsBefore(i, length, parts, k + 1);
  }

  lemma StartsBefore(i: nat, length: nat, parts: nat, k: nat)
    requires i < length && 0 < parts
    ensures PartitionStart(length, parts, k) <= i <==> k <= Owner(i, length, parts)
  {
    MulMono(1, i + 1, parts);
    PartitionStartIs(length, parts, k);
    var w := (i + 1) * parts - 1;
    DivLess(length * k, i, parts);
    assert PartitionStart(length, parts, k) <= i <==> length * k <= w;
    if k > 0 {
      DivLess(w, k - 1, length);
      assert k * length == length * k;
    }
  }

  /** The checked row-major offset, error for error. */
  function RowMajor(shape: seq<nat>, index: seq<nat>): Result<nat, GeometryError> {
    if |shape| != |index| then Err(RankMismatch(|shape|, |index|))
    else if shape == [] then Ok(0)
    else
      var last := |shape| - 1;
      var rest := RowMajor(shape[..last], index[..last]);
      if rest.Err? then rest
      else if index[last] >= shape[last] then Err(LocalIndexOutOfBounds(last, index[last], shape[last]))
      else if Times(rest.value, shape[last]) + index[last] > USIZE_MAX then Err(SizeOverflow)
      else Ok(Times(rest.value, shape[last]) + index[last])
  }

  method RowMajorOffset(shape: seq<usize>, indices: seq<usize>) returns (r: Result<usize, GeometryError>)
    ensures r == RowMajor(shape, indices)
  {
    if |shape| != |indices| {
      return Err(RankMismatch(|shape|, |indices|));
    }
    var offset: usize := 0;
    for axis := 0 to |shape|
      invariant RowMajor(shape[..axis], indices[..axis]) == Ok(offset)
    {
      assert shape[..axis + 1][..axis] == shape[..axis];
      assert indices[..axis + 1][..axis] == indices[..axis];
      if indices[axis] >= shape[axis] {
        var e := LocalIndexOutOfBounds(axis, indices[axis], shape[axis]);
        RowMajorFails(shape, indices, axis + 1, e);
        return Err(e);
      }
      var product := CheckedMul(offset, shape[axis]);
      var sum := if product.Some? then CheckedAdd(product.value, indices[axis]) else None;
      if sum.None? {
        RowMajorFails(shape, indices, axis + 1, SizeOverflow);
        return Err(SizeOverflow);
      }
      offset := sum.value;
    }
    assert shape[..|shape|] == shape && indices[..|shape|] == indices;
    return Ok(offset);
  }

  lemma {:induction false} RowMajorFails(shape: seq<nat>, index: seq<nat>, k: nat, e: GeometryError)
    requires |shape| == |index| && k <= |shape|
    requires RowMajor(shape[..k], index[..k]) == Err(e)
    ensures RowMajor(shape, index) == Err(e)
  {
    if k == |shape| {
      assert shape[..k] == shape && index[..k] == index;
    } else {
      var last := |shape| - 1;
      assert shape[..last][..k] == shape[..k] && index[..last][..k] == index[..k];
      RowMajorFails(shape[..last], index[..last], k, e);
    }
  }

  /** It succeeds exactly on in-bounds indices whose offset fits, and then returns the offset. */
  lemma {:induction false} RowMajorMeaning(shape: seq<nat>, index: seq<nat>)
    ensures RowMajor(shape, index).Ok? <==> InBounds(shape, index) && Linear(shape, index) <= USIZE_MAX
    ensures RowMajor(shape, index).Ok? ==> RowMajor(shape, index).value == Linear(shape, index)
  {
    if |shape| == |index| && shape != [] {
      var last := |shape| - 1;
      RowMajorMeaning(shape[..last], index[..last]);
      if InBounds(shape, index) {
        TimesIs(Linear(shape[..last], index[..last]), shape[last]);
        MulMono(1, shape[last], Linear(shape[..last], index[..last]));
      }
      InBoundsSnoc(shape, index);
    }
  }

  /** The checked product: a zero extent anywhere gives zero, whatever the others are. */
  method CheckedProduct(values: seq<usize>) returns (r: Result<usize, GeometryError>)
    ensures r == if Product(values) <= USIZE_MAX then Ok(Product(values)) else Err(SizeOverflow)
  {
    PositiveProduct(values);
    if 0 in values {
      return Ok(0);
    }
    var acc: usize := 1;
    for k := 0 to |values|
      invariant acc == Product(values[..k])
    {
      assert values[..k + 1][..k] == values[..k];
      var next := CheckedMul(acc, values[k]);
      if next.None? {
        TailProductBound(values, k + 1);
        return Err(SizeOverflow);
      }
      acc := next.value;
    }
    assert values[..|values|] == values;
    return Ok(acc);
  }
}
