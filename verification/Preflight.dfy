/** Collective agreement. */
module Preflight {
  // Each rank runs its own program of all-reduce calls; a run exists only if at every step all ranks make
  // the same call with the same length (section 5.9 of MPI-3.1), so the existence of a run is what rules out
  // a mismatched or missing collective.

  import opened MachineInts

  const HEADER_WORDS: nat := 5
  const WORD_CHUNK: nat := 64

  /** A 64-bit word. */
  type word = x: nat | x <= USIZE_MAX

  /** The collectives of the protocols. What a data exchange carries is modelled elsewhere; here it
      is a call that every rank must make. */
  datatype Op = MIN | MAX | ALL_TO_ALL | ALL_TO_ALL_V

  datatype Program<!R> =
    | Return(result: R)
    | AllReduce(op: Op, words: seq<nat>, next: seq<nat> -> Program<R>)

  datatype Call = Call(op: Op, len: nat)

  function Least(rows: seq<seq<nat>>, j: nat): nat
    requires rows != [] && forall i :: 0 <= i < |rows| ==> j < |rows[i]|
  {
    if |rows| == 1 then rows[0][j] else Min(Least(rows[..|rows| - 1], j), rows[|rows| - 1][j])
  }

  function Greatest(rows: seq<seq<nat>>, j: nat): nat
    requires rows != [] && forall i :: 0 <= i < |rows| ==> j < |rows[i]|
  {
    if |rows| == 1 then rows[0][j] else Max(Greatest(rows[..|rows| - 1], j), rows[|rows| - 1][j])
  }

  ghost predicate SameLength(rows: seq<seq<nat>>, n: nat) {
    rows != [] && forall i :: 0 <= i < |rows| ==> |rows[i]| == n
  }

  /** The element-wise reduction that every rank receives. */
  function Reduced(op: Op, rows: seq<seq<nat>>, n: nat): (r: seq<nat>)
    requires SameLength(rows, n)
    ensures |r| == n
  {
    seq(n, j requires 0 <= j < n => if op == MIN then Least(rows, j) else Greatest(rows, j))
  }

  /** All ranks are about to make the same call. */
  ghost predicate Aligned<R>(world: seq<Program<R>>, call: Call) {
    world != [] && forall i :: 0 <= i < |world| ==>
      world[i].AllReduce? && world[i].op == call.op && |world[i].words| == call.len
  }

  ghost function Rows<R>(world: seq<Program<R>>): (rows: seq<seq<nat>>)
    requires forall i :: 0 <= i < |world| ==> world[i].AllReduce?
    ensures |rows| == |world| && forall i :: 0 <= i < |world| ==> rows[i] == world[i].words
  {
    seq(|world|, i requires 0 <= i < |world| => world[i].words)
  }

  ghost function Step<R>(world: seq<Program<R>>, call: Call): (after: seq<Program<R>>)
    requires Aligned(world, call)
    ensures |after| == |world|
  {
    var reduced := Reduced(call.op, Rows(world), call.len);
    seq(|world|, i requires 0 <= i < |world| => world[i].next(reduced))
  }

  /** The world makes exactly the calls of the trace and returns the results. */
  ghost predicate Runs<R(!new)>(world: seq<Program<R>>, trace: seq<Call>, results: seq<R>)
    decreases |trace|
  {
    if trace == [] then
      |results| == |world| && forall i :: 0 <= i < |world| ==> world[i] == Return(results[i])
    else
      Aligned(world, trace[0]) && Runs(Step(world, trace[0]), trace[1..], results)
  }

  /** Every rank's program determines the run: there is at most one trace and one outcome. */
  lemma {:induction false} RunIsUnique<R(!new)>(world: seq<Program<R>>, t: seq<Call>, r: seq<R>, u: seq<Call>,
                                                s: seq<R>)
    requires world != [] && Runs(world, t, r) && Runs(world, u, s)
    ensures t == u && r == s
    decreases |t|
  {
    if t == [] {
      assert world[0].Return?;
      assert u == [];
    } else {
      assert world[0].AllReduce?;
      assert u != [];
      assert t[0] == u[0];
      RunIsUnique(Step(world, t[0]), t[1..], r, u[1..], s);
      assert t == [t[0]] + t[1..] && u == [u[0]] + u[1..];
    }
  }

  // ----- Minimum and maximum

  ghost predicate AllEqual<T>(rows: seq<T>) {
    forall i, j :: 0 <= i < |rows| && 0 <= j < |rows| ==> rows[i] == rows[j]
  }

  lemma {:induction false} LeastIs(rows: seq<seq<nat>>, n: nat, j: nat)
    requires SameLength(rows, n) && j < n
    ensures forall i :: 0 <= i < |rows| ==> Least(rows, j) <= rows[i][j]
    ensures exists i :: 0 <= i < |rows| && rows[i][j] == Least(rows, j)
  {
    if |rows| == 1 {
      assert rows[0][j] == Least(rows, j);
    } else {
      var last := |rows| - 1;
      LeastIs(rows[..last], n, j);
      var i :| 0 <= i < last && rows[..last][i][j] == Least(rows[..last], j);
      assert rows[i][j] == Least(rows[..last], j);
      assert rows[last][j] == rows[|rows| - 1][j];
      forall k | 0 <= k < |rows| ensures Least(rows, j) <= rows[k][j] {
        if k < last {
          assert rows[..last][k] == rows[k];
        }
      }
    }
  }

  lemma {:induction false} GreatestIs(rows: seq<seq<nat>>, n: nat, j: nat)
    requires SameLength(rows, n) && j < n
    ensures forall i :: 0 <= i < |rows| ==> rows[i][j] <= Greatest(rows, j)
    ensures exists i :: 0 <= i < |rows| && rows[i][j] == Greatest(rows, j)
  {
    if |rows| == 1 {
      assert rows[0][j] == Greatest(rows, j);
    } else {
      var last := |rows| - 1;
      GreatestIs(rows[..last], n, j);
      var i :| 0 <= i < last && rows[..last][i][j] == Greatest(rows[..last], j);
      assert rows[i][j] == Greatest(rows[..last], j);
      assert rows[last][j] == rows[|rows| - 1][j];
      forall k | 0 <= k < |rows| ensures rows[k][j] <= Greatest(rows, j) {
        if k < last {
          assert rows[..last][k] == rows[k];
        }
      }
    }
  }

  /** Minimum and maximum agree exactly where all ranks supplied the same word. */
  lemma MinMaxAgree(rows: seq<seq<nat>>, n: nat)
    requires SameLength(rows, n)
    ensures Reduced(MIN, rows, n) == Reduced(MAX, rows, n) <==> AllEqual(rows)
  {
    var min, max := Reduced(MIN, rows, n), Reduced(MAX, rows, n);
    if min == max {
      forall i, k | 0 <= i < |rows| && 0 <= k < |rows| ensures rows[i] == rows[k] {
        forall j | 0 <= j < n ensures rows[i][j] == rows[k][j] {
          assert min[j] == max[j];
          LeastIs(rows, n, j);
          GreatestIs(rows, n, j);
        }
      }
    }
    if AllEqual(rows) {
      forall j | 0 <= j < n ensures min[j] == max[j] {
        LeastIs(rows, n, j);
        GreatestIs(rows, n, j);
      }
    }
  }

  // ----- The complemented form

  function Complement(w: word): word { USIZE_MAX - w }

  /** `[words, !words]`. */
  function Paired(words: seq<word>): (r: seq<word>)
    ensures |r| == 2 * |words|
    ensures forall j :: 0 <= j < |words| ==> r[j] == words[j] && r[|words| + j] == Complement(words[j])
  {
    words + seq(|words|, j requires 0 <= j < |words| => Complement(words[j]))
  }

  method ExpandForMax(values: seq<word>, paired: array<word>)
    requires paired.Length == 2 * |values|
    modifies paired
    ensures paired[..] == Paired(values)
  {
    var n := |values|;
    for j := 0 to n
      invariant forall i :: 0 <= i < j ==> paired[i] == values[i]
    {
      paired[j] := values[j];
    }
    for j := 0 to n
      invariant forall i :: 0 <= i < n ==> paired[i] == values[i]
      invariant forall i :: n <= i < n + j ==> paired[i] == Complement(values[i - n])
    {
      paired[n + j] := Complement(values[j]);
    }
  }

  /** Minimum and maximum recovered from a max-reduced `[words, !words]`. */
  method SplitMinMax(reduced: seq<word>, minimum: array<word>, maximum: array<word>)
    requires minimum != maximum && |reduced| == minimum.Length + maximum.Length && minimum.Length == maximum.Length
    modifies minimum, maximum
    ensures maximum[..] == reduced[..|reduced| / 2]
    ensures minimum[..] == Complements(reduced[|reduced| / 2..])
  {
    var n := |reduced| / 2;
    for j := 0 to n
      invariant forall i :: 0 <= i < j ==> maximum[i] == reduced[i]
    {
      maximum[j] := reduced[j];
    }
    for j := 0 to n
      invariant forall i :: 0 <= i < n ==> maximum[i] == reduced[i]
      invariant forall i :: 0 <= i < j ==> minimum[i] == Complement(reduced[n + i])
    {
      minimum[j] := Complement(reduced[n + j]);
    }
  }

  function Complements(words: seq<nat>): (r: seq<nat>)
    ensures |r| == |words|
  {
    seq(|words|, j requires 0 <= j < |words| => if words[j] <= USIZE_MAX then USIZE_MAX - words[j] else 0)
  }

  /** The test every rank makes on the reduced pair. */
  predicate PairAgrees(reduced: seq<nat>) {
    Complements(reduced[|reduced| / 2..]) == reduced[..|reduced| / 2]
  }

  ghost function PairedRows(rows: seq<seq<word>>): (r: seq<seq<nat>>)
    ensures |r| == |rows| && forall i :: 0 <= i < |rows| ==> r[i] == Paired(rows[i])
  {
    seq(|rows|, i requires 0 <= i < |rows| => Paired(rows[i]))
  }

  /** One max reduction over `[words, !words]` decides equality on all ranks: the complement of
      the greatest complement is the least word. */
  lemma PairedMaxDecides(rows: seq<seq<word>>, n: nat)
    requires rows != [] && forall i :: 0 <= i < |rows| ==> |rows[i]| == n
    ensures SameLength(PairedRows(rows), 2 * n)
    ensures PairAgrees(Reduced(MAX, PairedRows(rows), 2 * n)) <==> AllEqual(rows)
  {
    var paired, plain: seq<seq<nat>> := PairedRows(rows), rows;
    var reduced := Reduced(MAX, paired, 2 * n);
    forall j | 0 <= j < n
      ensures reduced[j] == Greatest(plain, j) && reduced[n + j] == USIZE_MAX - Least(plain, j)
        && Least(plain, j) <= USIZE_MAX
    {
      PairedColumn(rows, n, j);
    }
    assert reduced[..2 * n / 2] == Reduced(MAX, plain, n);
    assert Complements(reduced[2 * n / 2..]) == Reduced(MIN, plain, n);
    MinMaxAgree(plain, n);
    assert AllEqual(plain) <==> AllEqual(rows);
  }

  lemma PairedColumn(rows: seq<seq<word>>, n: nat, j: nat)
    requires rows != [] && (forall i :: 0 <= i < |rows| ==> |rows[i]| == n) && j < n
    ensures SameLength(PairedRows(rows), 2 * n)
    ensures Greatest(PairedRows(rows), j) == Greatest(rows, j)
    ensures Least(rows, j) <= USIZE_MAX && Greatest(PairedRows(rows), n + j) == USIZE_MAX - Least(rows, j)
  {
    var paired, plain: seq<seq<nat>> := PairedRows(rows), rows;
    GreatestIs(paired, 2 * n, j);
    GreatestIs(plain, n, j);
    GreatestIs(paired, 2 * n, n + j);
    LeastIs(plain, n, j);
    forall i | 0 <= i < |rows| ensures paired[i][j] == plain[i][j] && paired[i][n + j] == USIZE_MAX - plain[i][j] {
    }
  }

  // ----- The agreement operations, as the programs every rank runs. `k` is what follows.

  /** One max reduction over `[header, !header]`. */
  function AgreeHeader<R>(header: seq<word>, k: bool -> Program<R>): Program<R> {
    AllReduce(MAX, Paired(header), reduced => k(PairAgrees(reduced)))
  }

  /** One min reduction over a flag. */
  function CollectiveValid<R>(ok: bool, k: bool -> Program<R>): Program<R> {
    AllReduce(MIN, [if ok then 1 else 0], reduced => k(reduced != [] && reduced[0] != 0))
  }

  /** One min and one max reduction per chunk of words. */
  function AgreeWords<R>(words: seq<word>, chunk: nat, equal: bool, k: bool -> Program<R>): Program<R>
    requires 0 < chunk
    decreases |words|
  {
    if words == [] then k(equal)
    else
      var n := Min(chunk, |words|);
      AllReduce(MIN, words[..n], minimum =>
        AllReduce(MAX, words[..n], maximum => AgreeWords(words[n..], chunk, equal && minimum == maximum, k)))
  }

  ghost function Continue<R>(ks: seq<bool -> Program<R>>, b: bool): (world: seq<Program<R>>)
    ensures |world| == |ks| && forall i :: 0 <= i < |ks| ==> world[i] == ks[i](b)
  {
    seq(|ks|, i requires 0 <= i < |ks| => ks[i](b))
  }

  /** Every rank learns whether all headers are equal. */
  lemma HeaderRuns<R(!new)>(world: seq<Program<R>>, headers: seq<seq<word>>, n: nat, ks: seq<bool -> Program<R>>,
                            trace: seq<Call>, results: seq<R>)
    requires world != [] && |headers| == |ks| == |world| && forall i :: 0 <= i < |world| ==> |headers[i]| == n
    requires forall i :: 0 <= i < |world| ==> world[i] == AgreeHeader(headers[i], ks[i])
    requires Runs(Continue(ks, AllEqual(headers)), trace, results)
    ensures Runs(world, [Call(MAX, 2 * n)] + trace, results)
  {
    var call := Call(MAX, 2 * n);
    PairedMaxDecides(headers, n);
    assert Aligned(world, call);
    assert Rows(world) == PairedRows(headers);
    assert Step(world, call) == Continue(ks, AllEqual(headers));
    assert ([call] + trace)[1..] == trace;
  }

  ghost predicate AllTrue(flags: seq<bool>) {
    forall i :: 0 <= i < |flags| ==> flags[i]
  }

  lemma {:induction false} FlagsMin(flags: seq<bool>, rows: seq<seq<nat>>)
    requires flags != [] && |rows| == |flags| && forall i :: 0 <= i < |rows| ==> rows[i] == [if flags[i] then 1 else 0]
    ensures Least(rows, 0) != 0 <==> AllTrue(flags)
  {
    LeastIs(rows, 1, 0);
    if Least(rows, 0) != 0 {
      forall i | 0 <= i < |flags| ensures flags[i] {
        assert Least(rows, 0) <= rows[i][0];
      }
    } else {
      var i :| 0 <= i < |rows| && rows[i][0] == Least(rows, 0);
      assert !flags[i];
    }
  }

  /** Every rank learns whether all flags are true. */
  lemma ValidRuns<R(!new)>(world: seq<Program<R>>, flags: seq<bool>, ks: seq<bool -> Program<R>>, trace: seq<Call>,
                           results: seq<R>)
    requires world != [] && |flags| == |ks| == |world|
    requires forall i :: 0 <= i < |world| ==> world[i] == CollectiveValid(flags[i], ks[i])
    requires Runs(Continue(ks, AllTrue(flags)), trace, results)
    ensures Runs(world, [Call(MIN, 1)] + trace, results)
  {
    var call := Call(MIN, 1);
    assert Aligned(world, call);
    FlagsMin(flags, Rows(world));
    assert Step(world, call) == Continue(ks, AllTrue(flags));
    assert ([call] + trace)[1..] == trace;
  }

  ghost function Heads(rows: seq<seq<word>>, n: nat): (r: seq<seq<nat>>)
    requires forall i :: 0 <= i < |rows| ==> n <= |rows[i]|
    ensures |r| == |rows| && forall i :: 0 <= i < |rows| ==> r[i] == rows[i][..n]
  {
    seq(|rows|, i requires 0 <= i < |rows| => rows[i][..n])
  }

  ghost function Tails(rows: seq<seq<word>>, n: nat): (r: seq<seq<word>>)
    requires forall i :: 0 <= i < |rows| ==> n <= |rows[i]|
    ensures |r| == |rows| && forall i :: 0 <= i < |rows| ==> r[i] == rows[i][n..]
  {
    seq(|rows|, i requires 0 <= i < |rows| => rows[i][n..])
  }

  lemma EqualInParts(rows: seq<seq<word>>, n: nat)
    requires forall i :: 0 <= i < |rows| ==> n <= |rows[i]|
    ensures AllEqual(rows) <==> AllEqual(Heads(rows, n)) && AllEqual(Tails(rows, n))
  {
    forall i, j | 0 <= i < |rows| && 0 <= j < |rows|
      ensures rows[i] == rows[j] <==> rows[i][..n] == rows[j][..n] && rows[i][n..] == rows[j][n..]
    {
      assert rows[i] == rows[i][..n] + rows[i][n..] && rows[j] == rows[j][..n] + rows[j][n..];
    }
  }

  /** Every rank learns whether all words are equal, chunk by chunk. */
  lemma {:induction false} WordsRun<R(!new)>(world: seq<Program<R>>, rows: seq<seq<word>>, n: nat, chunk: nat,
                                             equal: bool, ks: seq<bool -> Program<R>>, trace: seq<Call>,
                                             results: seq<R>)
    returns (full: seq<Call>)
    requires world != [] && |rows| == |ks| == |world| && 0 < chunk && forall i :: 0 <= i < |world| ==> |rows[i]| == n
    requires forall i :: 0 <= i < |world| ==> world[i] == AgreeWords(rows[i], chunk, equal, ks[i])
    requires Runs(Continue(ks, equal && AllEqual(rows)), trace, results)
    ensures Runs(world, full, results)
    decreases n
  {
    hide AllEqual;
    hide Aligned;
    hide Step;
    if n == 0 {
      NoWords(rows);
      assert world == Continue(ks, equal && AllEqual(rows));
      return trace;
    }
    var m := Min(chunk, n);
    var min, max := Call(MIN, m), Call(MAX, m);
    ChunkRuns(world, rows, n, chunk, equal, ks);
    EqualInParts(rows, m);
    var rest := Step(Step(world, min), max);
    var after := WordsRun(rest, Tails(rows, m), n - m, chunk, equal && AllEqual(Heads(rows, m)), ks, trace, results);
    full := [min, max] + after;
    assert full[1..] == [max] + after && ([max] + after)[1..] == after;
  }

  lemma NoWords(rows: seq<seq<word>>)
    requires forall i :: 0 <= i < |rows| ==> rows[i] == []
    ensures AllEqual(rows)
  {
  }

  lemma ChunkRuns<R(!new)>(world: seq<Program<R>>, rows: seq<seq<word>>, n: nat, chunk: nat, equal: bool,
                           ks: seq<bool -> Program<R>>)
    requires world != [] && |rows| == |ks| == |world| && 0 < chunk && 0 < n && forall i :: 0 <= i < |world| ==>
      |rows[i]| == n
    requires forall i :: 0 <= i < |world| ==> world[i] == AgreeWords(rows[i], chunk, equal, ks[i])
    ensures var m := Min(chunk, n);
      && Aligned(world, Call(MIN, m)) && Aligned(Step(world, Call(MIN, m)), Call(MAX, m))
      && forall i :: 0 <= i < |world| ==>
           Step(Step(world, Call(MIN, m)), Call(MAX, m))[i] ==
             AgreeWords(Tails(rows, m)[i], chunk, equal && AllEqual(Heads(rows, m)), ks[i])
  {
    var m := Min(chunk, n);
    var heads := Heads(rows, m);
    assert Aligned(world, Call(MIN, m)) && Rows(world) == heads;
    var middle := Step(world, Call(MIN, m));
    assert Aligned(middle, Call(MAX, m)) && Rows(middle) == heads;
    MinMaxAgree(heads, m);
  }
}
