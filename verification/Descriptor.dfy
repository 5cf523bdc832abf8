/** The descriptors that ranks compare. */
module Descriptors {
  // A decoder that undoes the builders shows that equal word vectors mean equal operations, layouts, offsets
  // and payload types.

  import opened MachineInts
  import opened Affines
  import opened Preflight

  const DESCRIPTOR_SCHEMA: word := 1
  const OP_PREPARE: word := 0x3601
  const OP_APPLY: word := 0x3602
  const INVALID_AXIS: word := USIZE_MAX
  const WORD_BASE: nat := 0x1_0000_0000_0000_0000

  /** A part of a descriptor: values whose number is known from the header, or a counted list. */
  datatype Field = Fixed(values: seq<word>) | Counted(values: seq<word>)

  datatype Form = FixedForm(len: nat) | CountedForm

  function FormOf(f: Field): Form {
    match f
    case Fixed(values) => FixedForm(|values|)
    case Counted(_) => CountedForm
  }

  function FormsOf(fields: seq<Field>): (forms: seq<Form>)
    ensures |forms| == |fields| && forall i :: 0 <= i < |fields| ==> forms[i] == FormOf(fields[i])
  {
    seq(|fields|, i requires 0 <= i < |fields| => FormOf(fields[i]))
  }

  /** A count is a word. */
  predicate Writable(f: Field) {
    f.Counted? ==> |f.values| <= USIZE_MAX
  }

  function WordsOf(f: Field): seq<word>
    requires Writable(f)
  {
    match f
    case Fixed(values) => values
    case Counted(values) => [|values|] + values
  }

  function Encode(fields: seq<Field>): seq<word>
    requires forall i :: 0 <= i < |fields| ==> Writable(fields[i])
  {
    if fields == [] then [] else WordsOf(fields[0]) + Encode(fields[1..])
  }

  /** The number of words, computed before anything is built. */
  function EncodedLength(fields: seq<Field>): nat {
    if fields == [] then 0 else |fields[0].values| + (if fields[0].Counted? then 1 else 0) + EncodedLength(fields[1..])
  }

  lemma {:induction false} LengthIsExact(fields: seq<Field>)
    requires forall i :: 0 <= i < |fields| ==> Writable(fields[i])
    ensures |Encode(fields)| == EncodedLength(fields)
  {
    if fields != [] {
      LengthIsExact(fields[1..]);
    }
  }

  /** Reads fields of the given forms off the front; nothing if the words run out. */
  function Decode(forms: seq<Form>, words: seq<word>): Option<(seq<Field>, seq<word>)> {
    if forms == [] then Some(([], words))
    else
      var head := DecodeField(forms[0], words);
      if head.None? then None
      else
        var rest := Decode(forms[1..], head.value.1);
        if rest.None? then None else Some(([head.value.0] + rest.value.0, rest.value.1))
  }

  function DecodeField(form: Form, words: seq<word>): Option<(Field, seq<word>)> {
    match form
    case FixedForm(n) => if |words| < n then None else Some((Fixed(words[..n]), words[n..]))
    case CountedForm =>
      if words == [] || |words| - 1 < words[0] then None
      else Some((Counted(words[1..words[0] + 1]), words[words[0] + 1..]))
  }

  lemma DecodeFieldRoundTrip(f: Field, tail: seq<word>)
    requires Writable(f)
    ensures DecodeField(FormOf(f), WordsOf(f) + tail) == Some((f, tail))
  {
    var words := WordsOf(f) + tail;
    match f {
      case Fixed(values) =>
        assert words[..|values|] == values && words[|values|..] == tail;
      case Counted(values) =>
        assert words[1..|values| + 1] == values && words[|values| + 1..] == tail;
    }
  }

  lemma {:induction false} DecodeRoundTrip(fields: seq<Field>, tail: seq<word>)
    requires forall i :: 0 <= i < |fields| ==> Writable(fields[i])
    ensures Decode(FormsOf(fields), Encode(fields) + tail) == Some((fields, tail))
  {
    if fields == [] {
      assert Encode(fields) + tail == tail;
    } else {
      assert Encode(fields) + tail == WordsOf(fields[0]) + (Encode(fields[1..]) + tail);
      DecodeFieldRoundTrip(fields[0], Encode(fields[1..]) + tail);
      DecodeRoundTrip(fields[1..], tail);
      assert FormsOf(fields)[1..] == FormsOf(fields[1..]);
      assert [fields[0]] + fields[1..] == fields;
    }
  }

  // ----- Signs and offsets

  predicate IsSign(sign: int) { sign == 1 || sign == -1 }

  /** The low byte of the sign. */
  function SignWord(sign: int): word
    requires IsSign(sign)
  {
    if sign == 1 then 1 else 0xFF
  }

  function SignOf(w: word): int { if w == 1 then 1 else -1 }

  /** The two halves of the two's complement form, low word first. */
  function OffsetWords(offset: i128): (words: seq<word>)
    ensures |words| == 2
  {
    HalvesAreWords(offset);
    [Reduce(offset, WORD_BASE), Reduce(offset / WORD_BASE, WORD_BASE)]
  }

  lemma HalvesAreWords(offset: i128)
    ensures Reduce(offset, WORD_BASE) <= USIZE_MAX && Reduce(offset / WORD_BASE, WORD_BASE) <= USIZE_MAX
  {
    ReduceBound(offset, WORD_BASE);
    ReduceBound(offset / WORD_BASE, WORD_BASE);
  }

  function OffsetOf(low: word, high: word): int {
    (if high < WORD_BASE / 2 then high else high - WORD_BASE) * WORD_BASE + low
  }

  /** No information is lost over the full 128-bit range, negative offsets included. */
  lemma OffsetRoundTrip(offset: i128)
    ensures OffsetOf(OffsetWords(offset)[0], OffsetWords(offset)[1]) == offset
  {
    var q := offset / WORD_BASE;
    DivMod(offset, WORD_BASE);
    assert -(WORD_BASE / 2) <= q < WORD_BASE / 2;
    if q >= 0 {
      ReduceUnique(q, WORD_BASE, 0, q);
    } else {
      ReduceUnique(q, WORD_BASE, -1, q + WORD_BASE);
    }
  }

  function OffsetsWords(offsets: seq<i128>): (words: seq<word>)
    ensures |words| == 2 * |offsets|
  {
    if offsets == [] then [] else OffsetWords(offsets[0]) + OffsetsWords(offsets[1..])
  }

  lemma {:induction false} OffsetsInjective(a: seq<i128>, b: seq<i128>)
    requires OffsetsWords(a) == OffsetsWords(b)
    ensures a == b
  {
    if a == [] {
    } else {
      OffsetRoundTrip(a[0]);
      OffsetRoundTrip(b[0]);
      assert OffsetsWords(a)[..2] == OffsetWords(a[0]) && OffsetsWords(b)[..2] == OffsetWords(b[0]);
      assert OffsetsWords(a)[2..] == OffsetsWords(a[1..]) && OffsetsWords(b)[2..] == OffsetsWords(b[1..]);
      OffsetsInjective(a[1..], b[1..]);
      assert a == [a[0]] + a[1..] && b == [b[0]] + b[1..];
    }
  }

  function SignsWords(signs: seq<int>): (words: seq<word>)
    requires forall a :: 0 <= a < |signs| ==> IsSign(signs[a])
    ensures |words| == |signs| && forall a :: 0 <= a < |signs| ==> words[a] == SignWord(signs[a])
  {
    seq(|signs|, a requires 0 <= a < |signs| => SignWord(signs[a]))
  }

  lemma SignsInjective(a: seq<int>, b: seq<int>)
    requires forall i :: 0 <= i < |a| ==> IsSign(a[i])
    requires forall i :: 0 <= i < |b| ==> IsSign(b[i])
    requires SignsWords(a) == SignsWords(b)
    ensures a == b
  {
    forall i | 0 <= i < |a| ensures a[i] == b[i] {
      assert SignsWords(a)[i] == SignsWords(b)[i];
      assert SignOf(SignWord(a[i])) == a[i] && SignOf(SignWord(b[i])) == b[i];
    }
  }

  // ----- The three descriptors

  datatype PencilInfo = PencilInfo(shape: seq<word>, decomposition: seq<word>, axes: seq<word>) {
    predicate Valid(n: nat, m: nat) { |shape| == |axes| == n && |decomposition| == m }

    function Fields(): seq<Field> { [Fixed(shape), Fixed(decomposition), Fixed(axes)] }
  }

  /** What a transpose plan is compared by. */
  datatype PlanInfo = PlanInfo(operation: word, n: word, m: word, changedAxis: word, sourceGrid: seq<word>,
                               destinationGrid: seq<word>, source: PencilInfo, destination: PencilInfo)
  {
    predicate Valid() {
      |sourceGrid| == |destinationGrid| == m && source.Valid(n, m) && destination.Valid(n, m)
    }

    function Fields(): (fields: seq<Field>)
      ensures forall i :: 0 <= i < |fields| ==> Writable(fields[i])
    {
      [Fixed([DESCRIPTOR_SCHEMA, operation, n, m, changedAxis]), Fixed(sourceGrid), Fixed(destinationGrid)]
      + source.Fields() + destination.Fields()
    }

    function Words(): seq<word> { Encode(Fields()) }
  }

  /** What a transpose execution is compared by: the plan, the extra shapes and the payload type. */
  datatype ExecuteInfo = ExecuteInfo(operation: word, n: word, m: word, plan: seq<word>, sourceExtra: seq<word>,
                                     destinationExtra: seq<word>, width: word, align: word, typeName: seq<word>,
                                     mpiName: seq<word>)
  {
    predicate Valid() {
      && |plan| == 5 + 4 * m + 4 * n
      && |sourceExtra| <= USIZE_MAX && |destinationExtra| <= USIZE_MAX && |typeName| <= USIZE_MAX
      && |mpiName| <= USIZE_MAX
    }

    function Fields(): (fields: seq<Field>)
      requires Valid()
      ensures forall i :: 0 <= i < |fields| ==> Writable(fields[i])
    {
      [Fixed([DESCRIPTOR_SCHEMA, operation, n, m]), Fixed(plan), Counted(sourceExtra), Counted(destinationExtra),
       Fixed([width, align]), Counted(typeName), Counted(mpiName)]
    }

    function Words(): seq<word>
      requires Valid()
    {
      Encode(Fields())
    }
  }

  /** What a spatial remap plan is compared by. */
  datatype RemapInfo = RemapInfo(n: word, m: word, ranks: word, grid: seq<word>, source: PencilInfo,
                                 destination: PencilInfo, extra: seq<word>, signs: seq<int>, offsets: seq<i128>,
                                 width: word, align: word, typeName: seq<word>, outName: seq<word>)
  {
    predicate Valid() {
      && |grid| == m && source.Valid(n, m) && destination.Valid(n, m)
      && |signs| == |offsets| == n && (forall a :: 0 <= a < |signs| ==> IsSign(signs[a]))
      && |extra| <= USIZE_MAX && |typeName| <= USIZE_MAX && |outName| <= USIZE_MAX
    }

    function Fields(): (fields: seq<Field>)
      requires Valid()
      ensures forall i :: 0 <= i < |fields| ==> Writable(fields[i])
    {
      [Fixed([DESCRIPTOR_SCHEMA, OP_PREPARE, n, m, ranks]), Fixed(grid)] + source.Fields() + destination.Fields()
      + [Counted(extra), Fixed(SignsWords(signs)), Fixed(OffsetsWords(offsets)), Fixed([width, align]),
         Counted(typeName), Counted(outName)]
    }

    function Words(): seq<word>
      requires Valid()
    {
      Encode(Fields())
    }

    /** The length the builder checks itself against. */
    function Length(): nat {
      4 + (1 + m) + 4 * n + 2 * m + (1 + |extra|) + n + 2 * n + 2 + (1 + |typeName|) + (1 + |outName|)
    }
  }

  /** Descriptors with the same first field forms are equal only if all fields are. */
  lemma EqualWordsEqualFields(a: seq<Field>, b: seq<Field>)
    requires forall i :: 0 <= i < |a| ==> Writable(a[i])
    requires forall i :: 0 <= i < |b| ==> Writable(b[i])
    requires FormsOf(a) == FormsOf(b) && Encode(a) == Encode(b)
    ensures a == b
  {
    DecodeRoundTrip(a, []);
    DecodeRoundTrip(b, []);
  }

  lemma HeaderIsPrefix(fields: seq<Field>)
    requires fields != [] && fields[0].Fixed? && forall i :: 0 <= i < |fields| ==> Writable(fields[i])
    ensures |fields[0].values| <= |Encode(fields)| && Encode(fields)[..|fields[0].values|] == fields[0].values
  {
  }

  lemma PlanDescriptorInjective(a: PlanInfo, b: PlanInfo)
    requires a.Valid() && b.Valid() && a.Words() == b.Words()
    ensures a == b
  {
    HeaderIsPrefix(a.Fields());
    HeaderIsPrefix(b.Fields());
    var header := a.Words()[..5];
    assert header[2] == a.n == b.n && header[3] == a.m == b.m;
    assert FormsOf(a.Fields()) == FormsOf(b.Fields());
    EqualWordsEqualFields(a.Fields(), b.Fields());
    assert a.Fields()[0] == b.Fields()[0] && a.Fields()[1] == b.Fields()[1] && a.Fields()[2] == b.Fields()[2];
    PencilFields(a.Fields(), 3, a.source, b.Fields(), b.source);
    PencilFields(a.Fields(), 6, a.destination, b.Fields(), b.destination);
  }

  lemma PencilFields(f: seq<Field>, at: nat, p: PencilInfo, g: seq<Field>, q: PencilInfo)
    requires at + 3 <= |f| == |g| && f == g && f[at..at + 3] == p.Fields() && g[at..at + 3] == q.Fields()
    ensures p == q
  {
    assert p.Fields()[0] == q.Fields()[0] && p.Fields()[1] == q.Fields()[1] && p.Fields()[2] == q.Fields()[2];
  }

  lemma ExecuteDescriptorInjective(a: ExecuteInfo, b: ExecuteInfo)
    requires a.Valid() && b.Valid() && a.Words() == b.Words()
    ensures a == b
  {
    HeaderIsPrefix(a.Fields());
    HeaderIsPrefix(b.Fields());
    var header := a.Words()[..4];
    assert header[2] == a.n == b.n && header[3] == a.m == b.m;
    assert FormsOf(a.Fields()) == FormsOf(b.Fields());
    EqualWordsEqualFields(a.Fields(), b.Fields());
    var f, g := a.Fields(), b.Fields();
    assert f[0] == g[0] && f[1] == g[1] && f[2] == g[2] && f[3] == g[3] && f[4] == g[4] && f[5] == g[5] && f[6] == g[6];
    assert f[4].values[0] == g[4].values[0] && f[4].values[1] == g[4].values[1];
  }

  /** Equal remap descriptors mean equal grids, shapes, decompositions, permutations, extra shapes,
      signs, full-width offsets, sizes and type names. */
  lemma RemapDescriptorInjective(a: RemapInfo, b: RemapInfo)
    requires a.Valid() && b.Valid() && a.Words() == b.Words()
    ensures a == b
  {
    var f, g := a.Fields(), b.Fields();
    HeaderIsPrefix(f);
    HeaderIsPrefix(g);
    var header := a.Words()[..5];
    assert header[2] == a.n == b.n && header[3] == a.m == b.m && header[4] == a.ranks == b.ranks;
    RemapForms(a, b);
    EqualWordsEqualFields(f, g);
    RemapFieldsEqual(a, b);
  }

  lemma RemapForms(a: RemapInfo, b: RemapInfo)
    requires a.Valid() && b.Valid() && a.n == b.n && a.m == b.m
    ensures FormsOf(a.Fields()) == FormsOf(b.Fields())
  {
  }

  lemma RemapFieldsEqual(a: RemapInfo, b: RemapInfo)
    requires a.Valid() && b.Valid() && a.n == b.n && a.m == b.m && a.ranks == b.ranks && a.Fields() == b.Fields()
    ensures a == b
  {
    var f, g := a.Fields(), b.Fields();
    assert f[1] == g[1] && f[2] == g[2] && f[3] == g[3] && f[4] == g[4] && f[5] == g[5] && f[6] == g[6] && f[7] == g[7];
    assert f[8] == g[8] && f[9] == g[9] && f[10] == g[10] && f[11] == g[11] && f[12] == g[12] && f[13] == g[13];
    assert f[11].values[0] == g[11].values[0] && f[11].values[1] == g[11].values[1];
    SignsInjective(a.signs, b.signs);
    OffsetsInjective(a.offsets, b.offsets);
  }

  // ----- Lengths and the builder

  lemma {:induction false} LengthAppend(a: seq<Field>, b: seq<Field>)
    ensures EncodedLength(a + b) == EncodedLength(a) + EncodedLength(b)
  {
    if a == [] {
      assert a + b == b;
    } else {
      assert (a + b)[1..] == a[1..] + b;
      LengthAppend(a[1..], b);
    }
  }

  function FieldLength(f: Field): nat { |f.values| + if f.Counted? then 1 else 0 }

  lemma LengthOfTwo(x: Field, y: Field)
    ensures EncodedLength([x, y]) == FieldLength(x) + FieldLength(y)
  {
    var two, one := [x, y], [y];
    assert two[1..] == one && one[1..] == [];
    assert EncodedLength(one) == FieldLength(y);
  }

  lemma LengthOfThree(x: Field, y: Field, z: Field)
    ensures EncodedLength([x, y, z]) == FieldLength(x) + FieldLength(y) + FieldLength(z)
  {
    assert [x, y, z][1..] == [y, z];
    LengthOfTwo(y, z);
  }

  /** The builders emit exactly the lengths computed beforehand. */
  lemma PlanDescriptorLength(a: PlanInfo)
    requires a.Valid()
    ensures |a.Words()| == 5 + 4 * a.m + 4 * a.n
  {
    LengthIsExact(a.Fields());
    var front := [Fixed([DESCRIPTOR_SCHEMA, a.operation, a.n, a.m, a.changedAxis]), Fixed(a.sourceGrid),
                  Fixed(a.destinationGrid)];
    LengthAppend(front + a.source.Fields(), a.destination.Fields());
    LengthAppend(front, a.source.Fields());
    LengthOfThree(front[0], front[1], front[2]);
    PencilLength(a.source, a.n, a.m);
    PencilLength(a.destination, a.n, a.m);
  }

  lemma PencilLength(p: PencilInfo, n: nat, m: nat)
    requires p.Valid(n, m)
    ensures EncodedLength(p.Fields()) == n + m + n
  {
    LengthOfThree(Fixed(p.shape), Fixed(p.decomposition), Fixed(p.axes));
  }

  lemma RemapDescriptorLength(a: RemapInfo)
    requires a.Valid()
    ensures |a.Words()| == a.Length()
  {
    LengthIsExact(a.Fields());
    var front := [Fixed([DESCRIPTOR_SCHEMA, OP_PREPARE, a.n, a.m, a.ranks]), Fixed(a.grid)];
    var middle := [Counted(a.extra), Fixed(SignsWords(a.signs)), Fixed(OffsetsWords(a.offsets))];
    var back := [Fixed([a.width, a.align]), Counted(a.typeName), Counted(a.outName)];
    assert a.Fields() == front + a.source.Fields() + a.destination.Fields() + middle + back;
    LengthAppend(front + a.source.Fields() + a.destination.Fields() + middle, back);
    LengthAppend(front + a.source.Fields() + a.destination.Fields(), middle);
    LengthAppend(front + a.source.Fields(), a.destination.Fields());
    LengthAppend(front, a.source.Fields());
    LengthOfTwo(front[0], front[1]);
    LengthOfThree(middle[0], middle[1], middle[2]);
    LengthOfThree(back[0], back[1], back[2]);
    PencilLength(a.source, a.n, a.m);
    PencilLength(a.destination, a.n, a.m);
  }

  lemma {:induction false} EncodeSnoc(fields: seq<Field>, f: Field)
    requires Writable(f) && forall i :: 0 <= i < |fields| ==> Writable(fields[i])
    ensures Encode(fields + [f]) == Encode(fields) + WordsOf(f)
  {
    if fields == [] {
      assert fields + [f] == [f] && Encode([f]) == WordsOf(f) + Encode([]);
    } else {
      assert (fields + [f])[1..] == fields[1..] + [f];
      EncodeSnoc(fields[1..], f);
    }
  }

  /** Appends a list of words one by one. */
  method Append(descriptor: seq<word>, values: seq<word>) returns (r: seq<word>)
    ensures r == descriptor + values
  {
    r := descriptor;
    for i := 0 to |values|
      invariant r == descriptor + values[..i]
    {
      r := r + [values[i]];
    }
    assert values[..|values|] == values;
  }

  /** Appends one field; counted fields get their count first. */
  method AppendField(descriptor: seq<word>, f: Field, ghost before: seq<Field>) returns (r: seq<word>)
    requires Writable(f) && (forall i :: 0 <= i < |before| ==> Writable(before[i])) && descriptor == Encode(before)
    ensures r == Encode(before + [f])
  {
    EncodeSnoc(before, f);
    hide Encode;
    match f {
      case Fixed(values) => r := Append(descriptor, values);
      case Counted(values) => r := Append(descriptor, [|values|] + values);
    }
  }

  /** The builder of the remap descriptor; its own length check decides against the caller's length. */
  method BuildRemapDescriptor(a: RemapInfo, length: nat) returns (r: Result<seq<word>, RemapError>)
    requires a.Valid()
    ensures r == if length == a.Length() then Ok(a.Words()) else Err(StructuralInconsistency)
  {
    var fields := a.Fields();
    var descriptor: seq<word> := [];
    for i := 0 to |fields|
      invariant descriptor == Encode(fields[..i])
    {
      assert fields[..i + 1] == fields[..i] + [fields[i]];
      descriptor := AppendField(descriptor, fields[i], fields[..i]);
    }
    assert fields[..|fields|] == fields;
    RemapDescriptorLength(a);
    if |descriptor| != length {
      return Err(StructuralInconsistency);
    }
    return Ok(descriptor);
  }
}
