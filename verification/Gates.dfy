/** Protocols made of agreement gates. */
module Gates {
  // A gate is one agreement step of one rank; a rank runs its gates in order and stops at the first that
  // fails anywhere.

  import opened MachineInts
  import opened Preflight

  datatype Gate<+E> =
    /** All ranks must hold the same words: one reduction over the words and their complements. */
    | Pair(words: seq<word>, mismatch: E)
    /** The same, with a minimum and a maximum reduction per chunk. */
    | Chunks(words: seq<word>, chunk: nat, mismatch: E)
    /** All ranks must have succeeded locally. */
    | Flag(ok: bool, failure: E)
    /** Preflight and request reservation, agreed in one reduction of two flags. */
    | TwoFlags(prepared: bool, reserved: bool, failure: E, unreserved: E)
    /** The outcome of a callback: 0 fine, 1 an error, 2 a panic; the greatest wins. */
    | Status(status: nat, onError: E, onPanic: E)
    /** A check without communication. */
    | Check(ok: bool, failure: E)
    /** A data exchange. */
    | Transfer(op: Op)

  type Outcome<+E> = Result<(), E>

  /** The program of one rank. */
  function Gated<E(!new)>(gates: seq<Gate<E>>): Program<Outcome<E>>
    decreases |gates|, 0
  {
    if gates == [] then Return(Ok(()))
    else
      match gates[0]
      case Pair(words, _) => AgreeHeader(words, Next(gates))
      case Chunks(words, chunk, _) => AgreeWords(words, Max(1, chunk), true, Next(gates))
      case Flag(ok, _) => CollectiveValid(ok, Next(gates))
      case TwoFlags(prepared, reserved, failure, unreserved) =>
        AllReduce(MIN, FlagWords(prepared, reserved), NextOfFlags(gates))
      case Status(status, _, _) => AllReduce(MAX, [status], NextOfStatus(gates))
      case Check(ok, failure) => if ok then Gated(gates[1..]) else Return(Err(failure))
      case Transfer(op) => AllReduce(op, [], NextOfTransfer(gates))
  }

  function FlagWords(prepared: bool, reserved: bool): seq<nat> {
    [if prepared then 1 else 0, if prepared && reserved then 1 else 0]
  }

  /** What follows an agreement with a yes-or-no answer. */
  function Next<E(!new)>(gates: seq<Gate<E>>): bool -> Program<Outcome<E>>
    requires gates != [] && (gates[0].Pair? || gates[0].Chunks? || gates[0].Flag?)
    decreases |gates| - 1, 1
  {
    agreed => if agreed then Gated(gates[1..]) else Return(Err(Failure(gates[0])))
  }

  function Failure<E>(gate: Gate<E>): E
    requires gate.Pair? || gate.Chunks? || gate.Flag?
  {
    match gate
    case Pair(_, e) => e
    case Chunks(_, _, e) => e
    case Flag(_, e) => e
  }

  function NextOfFlags<E(!new)>(gates: seq<Gate<E>>): seq<nat> -> Program<Outcome<E>>
    requires gates != [] && gates[0].TwoFlags?
    decreases |gates| - 1, 1
  {
    reduced =>
      if |reduced| != 2 || reduced[0] == 0 then Return(Err(gates[0].failure))
      else if reduced[1] == 0 then Return(Err(gates[0].unreserved))
      else Gated(gates[1..])
  }

  function NextOfStatus<E(!new)>(gates: seq<Gate<E>>): seq<nat> -> Program<Outcome<E>>
    requires gates != [] && gates[0].Status?
    decreases |gates| - 1, 1
  {
    reduced =>
      if |reduced| != 1 || reduced[0] > 1 then Return(Err(gates[0].onPanic))
      else if reduced[0] == 1 then Return(Err(gates[0].onError))
      else Gated(gates[1..])
  }

  function NextOfTransfer<E(!new)>(gates: seq<Gate<E>>): seq<nat> -> Program<Outcome<E>>
    requires gates != [] && gates[0].Transfer?
    decreases |gates| - 1, 1
  {
    reduced => Gated(gates[1..])
  }

  // ----- All ranks together

  /** One gate per rank that all ranks can enter together: the same call with the same length. */
  ghost predicate Compatible<E>(column: seq<Gate<E>>) {
    forall i, j :: 0 <= i < |column| && 0 <= j < |column| ==> Matches(column[i], column[j])
  }

  ghost predicate Matches<E>(a: Gate<E>, b: Gate<E>) {
    match a
    case Pair(words, _) => b.Pair? && |words| == |b.words|
    case Chunks(words, chunk, _) => b.Chunks? && |words| == |b.words| && Max(1, chunk) == Max(1, b.chunk)
    case Flag(_, _) => b.Flag?
    case TwoFlags(_, _, _, _) => b.TwoFlags?
    case Status(_, _, _) => b.Status?
    case Check(ok, _) => b.Check? && ok == b.ok
    case Transfer(op) => b.Transfer? && op == b.op
  }

  /** The gate opens: equal words, all flags true, no callback failure. */
  ghost predicate Opens<E>(column: seq<Gate<E>>) {
    && (forall i, j :: 0 <= i < |column| && 0 <= j < |column| ==> SameWords(column[i], column[j]))
    && forall i :: 0 <= i < |column| ==> OpensAlone(column[i])
  }

  ghost predicate SameWords<E>(a: Gate<E>, b: Gate<E>) {
    (a.Pair? && b.Pair? ==> a.words == b.words) && (a.Chunks? && b.Chunks? ==> a.words == b.words)
  }

  ghost predicate OpensAlone<E>(gate: Gate<E>) {
    match gate
    case Flag(ok, _) => ok
    case TwoFlags(prepared, reserved, _, _) => prepared && reserved
    case Status(status, _, _) => status == 0
    case Check(ok, _) => ok
    case _ => true
  }

  ghost function FirstGates<E>(world: seq<seq<Gate<E>>>): (column: seq<Gate<E>>)
    requires forall i :: 0 <= i < |world| ==> world[i] != []
    ensures |column| == |world| && forall i :: 0 <= i < |world| ==> column[i] == world[i][0]
  {
    seq(|world|, i requires 0 <= i < |world| => world[i][0])
  }

  ghost function LaterGates<E>(world: seq<seq<Gate<E>>>): (rest: seq<seq<Gate<E>>>)
    requires forall i :: 0 <= i < |world| ==> world[i] != []
    ensures |rest| == |world| && forall i :: 0 <= i < |world| ==> rest[i] == world[i][1..]
  {
    seq(|world|, i requires 0 <= i < |world| => world[i][1..])
  }

  /** Every gate that can be reached, because all earlier ones opened, is compatible; and no rank
      runs out of gates before the others. */
  ghost predicate Lockstep<E>(world: seq<seq<Gate<E>>>)
    requires world != []
    decreases |world[0]|
  {
    if world[0] == [] then forall i :: 0 <= i < |world| ==> world[i] == []
    else
      && (forall i :: 0 <= i < |world| ==> world[i] != [])
      && Compatible(FirstGates(world)) && (Opens(FirstGates(world)) ==> Lockstep(LaterGates(world)))
  }

  ghost function Programs<E(!new)>(world: seq<seq<Gate<E>>>): (programs: seq<Program<Outcome<E>>>)
    ensures |programs| == |world| && forall i :: 0 <= i < |world| ==> programs[i] == Gated(world[i])
  {
    seq(|world|, i requires 0 <= i < |world| => Gated(world[i]))
  }

  /** What the ranks return at a gate that does not open. */
  ghost function Closed<E>(column: seq<Gate<E>>): (results: seq<Outcome<E>>)
    ensures |results| == |column|
  {
    seq(|column|, i requires 0 <= i < |column| => Refusal(column, column[i]))
  }

  /** The preflight error comes before the reservation error, a panic anywhere before an error. */
  ghost function Refusal<E>(column: seq<Gate<E>>, gate: Gate<E>): Outcome<E> {
    match gate
    case Pair(_, e) => Err(e)
    case Chunks(_, _, e) => Err(e)
    case Flag(_, e) => Err(e)
    case TwoFlags(_, _, e, unreserved) => Err(if SomeUnprepared(column) then e else unreserved)
    case Status(_, onError, onPanic) => Err(if SomePanicked(column) then onPanic else onError)
    case Check(_, e) => Err(e)
    case Transfer(_) => Ok(())
  }

  ghost predicate SomeUnprepared<E>(column: seq<Gate<E>>) {
    exists i :: 0 <= i < |column| && column[i].TwoFlags? && !column[i].prepared
  }

  ghost predicate SomePanicked<E>(column: seq<Gate<E>>) {
    exists i :: 0 <= i < |column| && column[i].Status? && column[i].status > 1
  }

  /** What the ranks return: success, or what the first gate that does not open refuses with. */
  ghost function Ends<E>(world: seq<seq<Gate<E>>>): (results: seq<Outcome<E>>)
    requires world != []
    ensures |results| == |world|
    decreases |world[0]|
  {
    if world[0] == [] || exists i :: 0 <= i < |world| && world[i] == [] then seq(|world|, i => Ok(()))
    else if Opens(FirstGates(world)) then Ends(LaterGates(world))
    else Closed(FirstGates(world))
  }

  /** Protocols of gates never get stuck: for any inputs and any pattern of local failures all ranks
      make the same calls with the same lengths, and each returns what the first closed gate says. */
  lemma {:induction false} GatesAgree<E(!new)>(world: seq<seq<Gate<E>>>) returns (trace: seq<Call>)
    requires world != [] && Lockstep(world)
    ensures Runs(Programs(world), trace, Ends(world))
    decreases |world[0]|
  {
    trace := [];
    if world[0] != [] {
      var column, rest, ends := FirstGates(world), LaterGates(world), Ends(world);
      if Opens(column) {
        trace := GatesAgree(rest);
      }
      match column[0] {
        case Pair(_, _) => trace := PairGate(world, column, rest, trace, ends);
        case Chunks(_, _, _) => trace := ChunksGate(world, column, rest, trace, ends);
        case Flag(_, _) => trace := FlagGate(world, column, rest, trace, ends);
        case TwoFlags(_, _, _, _) => trace := TwoFlagsGate(world, column, rest, trace, ends);
        case Status(_, _, _) => trace := StatusGate(world, column, rest, trace, ends);
        case Check(_, _) => trace := CheckGate(world, column, rest, trace, ends);
        case Transfer(_) => trace := TransferGate(world, column, rest, trace, ends);
      }
    }
  }

  /** A first gate per rank, all of the kind of the first rank's, and a run of the rest if it opens. */
  ghost predicate AtGate<E(!new)>(world: seq<seq<Gate<E>>>, column: seq<Gate<E>>, rest: seq<seq<Gate<E>>>,
                                  trace: seq<Call>, ends: seq<Outcome<E>>)
  {
    && world != [] && |column| == |rest| == |world| && Compatible(column)
    && (forall i :: 0 <= i < |world| ==> world[i] != [] && world[i][0] == column[i] && rest[i] == world[i][1..])
    && (if Opens(column) then Runs(Programs(rest), trace, ends) else ends == Closed(column))
  }

  ghost function Nexts<E(!new)>(world: seq<seq<Gate<E>>>): (ks: seq<bool -> Program<Outcome<E>>>)
    requires forall i :: 0 <= i < |world| ==>
      world[i] != [] && (world[i][0].Pair? || world[i][0].Chunks? || world[i][0].Flag?)
    ensures |ks| == |world| && forall i :: 0 <= i < |world| ==> ks[i] == Next(world[i])
  {
    seq(|world|, i requires 0 <= i < |world| => Next(world[i]))
  }

  /** After a yes-or-no agreement every rank goes on, or every rank returns its failure. */
  lemma AfterAgreement<E(!new)>(world: seq<seq<Gate<E>>>, column: seq<Gate<E>>, rest: seq<seq<Gate<E>>>,
                                trace: seq<Call>, ends: seq<Outcome<E>>)
    returns (t: seq<Call>)
    requires AtGate(world, column, rest, trace, ends)
    requires forall i :: 0 <= i < |world| ==> column[i].Pair? || column[i].Chunks? || column[i].Flag?
    ensures Runs(Continue(Nexts(world), Opens(column)), t, ends)
  {
    if Opens(column) {
      assert Continue(Nexts(world), true) == Programs(rest);
      t := trace;
    } else {
      t := [];
      forall i | 0 <= i < |world| ensures Continue(Nexts(world), false)[i] == Return(ends[i]) {
        assert ends[i] == Err(Failure(column[i]));
      }
    }
  }

  lemma PairGate<E(!new)>(world: seq<seq<Gate<E>>>, column: seq<Gate<E>>, rest: seq<seq<Gate<E>>>,
                          trace: seq<Call>, ends: seq<Outcome<E>>)
    returns (t: seq<Call>)
    requires AtGate(world, column, rest, trace, ends) && column[0].Pair?
    ensures Runs(Programs(world), t, ends)
  {
    forall i | 0 <= i < |world| ensures column[i].Pair? && |column[i].words| == |column[0].words| {
      assert Matches(column[0], column[i]);
    }
    var words := seq(|world|, i requires 0 <= i < |world| => column[i].words);
    assert AllEqual(words) <==> Opens(column) by {
      WordsOpen(column, words);
    }
    t := AfterAgreement(world, column, rest, trace, ends);
    HeaderRuns(Programs(world), words, |column[0].words|, Nexts(world), t, ends);
    t := [Call(MAX, 2 * |column[0].words|)] + t;
  }

  lemma WordsOpen<E>(column: seq<Gate<E>>, words: seq<seq<word>>)
    requires |words| == |column|
    requires (forall i :: 0 <= i < |column| ==> column[i].Pair? && words[i] == column[i].words)
          || (forall i :: 0 <= i < |column| ==> column[i].Chunks? && words[i] == column[i].words)
    ensures AllEqual(words) <==> Opens(column)
  {
    if Opens(column) {
      forall i, j | 0 <= i < |words| && 0 <= j < |words| ensures words[i] == words[j] {
        assert SameWords(column[i], column[j]);
      }
    }
  }

  lemma ChunksGate<E(!new)>(world: seq<seq<Gate<E>>>, column: seq<Gate<E>>, rest: seq<seq<Gate<E>>>,
                            trace: seq<Call>, ends: seq<Outcome<E>>)
    returns (t: seq<Call>)
    requires AtGate(world, column, rest, trace, ends) && column[0].Chunks?
    ensures Runs(Programs(world), t, ends)
  {
    var chunk := Max(1, column[0].chunk);
    forall i | 0 <= i < |world|
      ensures column[i].Chunks? && |column[i].words| == |column[0].words| && Max(1, column[i].chunk) == chunk
    {
      assert Matches(column[0], column[i]);
    }
    var words := seq(|world|, i requires 0 <= i < |world| => column[i].words);
    WordsOpen(column, words);
    t := AfterAgreement(world, column, rest, trace, ends);
    t := WordsRun(Programs(world), words, |column[0].words|, chunk, true, Nexts(world), t, ends);
  }

  lemma FlagGate<E(!new)>(world: seq<seq<Gate<E>>>, column: seq<Gate<E>>, rest: seq<seq<Gate<E>>>,
                          trace: seq<Call>, ends: seq<Outcome<E>>)
    returns (t: seq<Call>)
    requires AtGate(world, column, rest, trace, ends) && column[0].Flag?
    ensures Runs(Programs(world), t, ends)
  {
    forall i | 0 <= i < |world| ensures column[i].Flag? {
      assert Matches(column[0], column[i]);
    }
    var flags := seq(|world|, i requires 0 <= i < |world| => column[i].ok);
    forall i | 0 <= i < |world| ensures OpensAlone(column[i]) <==> flags[i] {
    }
    t := AfterAgreement(world, column, rest, trace, ends);
    ValidRuns(Programs(world), flags, Nexts(world), t, ends);
    t := [Call(MIN, 1)] + t;
  }

  /** One more call in front of a run. */
  lemma StepRuns<R(!new)>(world: seq<Program<R>>, call: Call, trace: seq<Call>, results: seq<R>)
    requires Aligned(world, call) && Runs(Step(world, call), trace, results)
    ensures Runs(world, [call] + trace, results)
  {
    assert ([call] + trace)[1..] == trace;
  }

  ghost predicate Stands<E(!new)>(column: seq<Gate<E>>, i: nat, after: Program<Outcome<E>>, rest: seq<Gate<E>>)
    requires i < |column|
  {
    after == if Opens(column) then Gated(rest) else Return(Refusal(column, column[i]))
  }

  /** After a call every rank goes on, or every rank returns an error. */
  lemma AfterCall<E(!new)>(world: seq<seq<Gate<E>>>, column: seq<Gate<E>>, rest: seq<seq<Gate<E>>>, trace: seq<Call>,
                           ends: seq<Outcome<E>>, call: Call, after: seq<Program<Outcome<E>>>)
    returns (t: seq<Call>)
    requires AtGate(world, column, rest, trace, ends)
    requires Aligned(Programs(world), call) && after == Step(Programs(world), call)
    requires forall i :: 0 <= i < |world| ==> Stands(column, i, after[i], rest[i])
    ensures Runs(Programs(world), t, ends)
  {
    if Opens(column) {
      assert after == Programs(rest);
      t := trace;
    } else {
      t := [];
    }
    StepRuns(Programs(world), call, t, ends);
    t := [call] + t;
  }

  lemma TwoFlagsGate<E(!new)>(world: seq<seq<Gate<E>>>, column: seq<Gate<E>>, rest: seq<seq<Gate<E>>>,
                              trace: seq<Call>, ends: seq<Outcome<E>>)
    returns (t: seq<Call>)
    requires AtGate(world, column, rest, trace, ends) && column[0].TwoFlags?
    ensures Runs(Programs(world), t, ends)
  {
    var call, programs := Call(MIN, 2), Programs(world);
    forall i | 0 <= i < |world| ensures column[i].TwoFlags? && programs[i].AllReduce? {
      assert Matches(column[0], column[i]);
    }
    TwoFlagsLeast(column, Rows(programs));
    hide Opens;
    hide Least;
    hide SomeUnprepared;
    hide SomePanicked;
    var after := Step(programs, call);
    forall i | 0 <= i < |world| ensures Stands(column, i, after[i], rest[i]) {
      assert programs[i].next == NextOfFlags(world[i]);
    }
    t := AfterCall(world, column, rest, trace, ends, call, after);
  }

  lemma TwoFlagsLeast<E>(column: seq<Gate<E>>, rows: seq<seq<nat>>)
    requires column != [] && |rows| == |column|
    requires forall i :: 0 <= i < |column| ==>
      column[i].TwoFlags? && rows[i] == FlagWords(column[i].prepared, column[i].reserved)
    ensures SameLength(rows, 2) && (Opens(column) <==> Least(rows, 0) != 0 && Least(rows, 1) != 0)
    ensures SomeUnprepared(column) <==> Least(rows, 0) == 0
  {
    LeastIs(rows, 2, 0);
    LeastIs(rows, 2, 1);
    var g :| 0 <= g < |rows| && rows[g][0] == Least(rows, 0);
    assert column[g].prepared <==> Least(rows, 0) != 0;
    if Opens(column) {
      forall i | 0 <= i < |rows| ensures rows[i] == [1, 1] {
        assert OpensAlone(column[i]);
      }
    } else {
      FlagsClosed(column);
      var i :| 0 <= i < |column| && !OpensAlone(column[i]);
      assert rows[i][1] == 0;
    }
  }

  lemma StatusGreatest<E>(column: seq<Gate<E>>, rows: seq<seq<nat>>)
    requires column != [] && |rows| == |column|
    requires forall i :: 0 <= i < |column| ==> column[i].Status? && rows[i] == [column[i].status]
    ensures SameLength(rows, 1) && (Opens(column) <==> Greatest(rows, 0) == 0)
    ensures SomePanicked(column) <==> Greatest(rows, 0) > 1
  {
    GreatestIs(rows, 1, 0);
    var g :| 0 <= g < |rows| && rows[g][0] == Greatest(rows, 0);
    assert column[g].status == Greatest(rows, 0);
    if Opens(column) {
      forall i | 0 <= i < |rows| ensures rows[i] == [0] {
        assert OpensAlone(column[i]);
      }
    } else {
      FlagsClosed(column);
      var i :| 0 <= i < |column| && !OpensAlone(column[i]);
      assert rows[i][0] > 0;
    }
  }

  /** A gate of flags that does not open has a rank whose own part is closed. */
  lemma FlagsClosed<E>(column: seq<Gate<E>>)
    requires forall i :: 0 <= i < |column| ==> !column[i].Pair? && !column[i].Chunks?
    requires !Opens(column)
    ensures exists i :: 0 <= i < |column| && !OpensAlone(column[i])
  {
  }

  lemma StatusGate<E(!new)>(world: seq<seq<Gate<E>>>, column: seq<Gate<E>>, rest: seq<seq<Gate<E>>>,
                            trace: seq<Call>, ends: seq<Outcome<E>>)
    returns (t: seq<Call>)
    requires AtGate(world, column, rest, trace, ends) && column[0].Status?
    ensures Runs(Programs(world), t, ends)
  {
    var call, programs := Call(MAX, 1), Programs(world);
    forall i | 0 <= i < |world| ensures column[i].Status? && programs[i].AllReduce? {
      assert Matches(column[0], column[i]);
    }
    StatusGreatest(column, Rows(programs));
    hide Opens;
    hide Greatest;
    hide SomeUnprepared;
    hide SomePanicked;
    var after := Step(programs, call);
    forall i | 0 <= i < |world| ensures Stands(column, i, after[i], rest[i]) {
      assert programs[i].next == NextOfStatus(world[i]);
    }
    t := AfterCall(world, column, rest, trace, ends, call, after);
  }

  lemma CheckGate<E(!new)>(world: seq<seq<Gate<E>>>, column: seq<Gate<E>>, rest: seq<seq<Gate<E>>>,
                           trace: seq<Call>, ends: seq<Outcome<E>>)
    returns (t: seq<Call>)
    requires AtGate(world, column, rest, trace, ends) && column[0].Check?
    ensures Runs(Programs(world), t, ends)
  {
    forall i | 0 <= i < |world| ensures column[i].Check? && column[i].ok == column[0].ok {
      assert Matches(column[0], column[i]);
    }
    assert OpensAlone(column[0]) <==> column[0].ok;
    if column[0].ok {
      assert Opens(column);
      assert Programs(world) == Programs(rest);
      t := trace;
    } else {
      t := [];
    }
  }

  lemma TransferGate<E(!new)>(world: seq<seq<Gate<E>>>, column: seq<Gate<E>>, rest: seq<seq<Gate<E>>>,
                              trace: seq<Call>, ends: seq<Outcome<E>>)
    returns (t: seq<Call>)
    requires AtGate(world, column, rest, trace, ends) && column[0].Transfer?
    ensures Runs(Programs(world), t, ends)
  {
    var call := Call(column[0].op, 0);
    forall i | 0 <= i < |world| ensures column[i].Transfer? && column[i].op == column[0].op {
      assert Matches(column[0], column[i]);
    }
    assert Opens(column);
    assert Aligned(Programs(world), call);
    var after := Step(Programs(world), call);
    forall i | 0 <= i < |world| ensures Stands(column, i, after[i], rest[i]) {
      assert Programs(world)[i].next == NextOfTransfer(world[i]);
    }
    t := AfterCall(world, column, rest, trace, ends, call, after);
  }

  // ----- Lockstep, two ranks at a time

  ghost predicate OpensForBoth<E>(a: Gate<E>, b: Gate<E>) {
    SameWords(a, b) && OpensAlone(a) && OpensAlone(b)
  }

  /** Two ranks stay compatible as long as the gates open for both. */
  ghost predicate InStep<E>(a: seq<Gate<E>>, b: seq<Gate<E>>) {
    if a == [] || b == [] then a == b
    else Matches(a[0], b[0]) && (OpensForBoth(a[0], b[0]) ==> InStep(a[1..], b[1..]))
  }

  lemma {:induction false} PairwiseLockstep<E>(world: seq<seq<Gate<E>>>)
    requires world != [] && forall i, j :: 0 <= i < |world| && 0 <= j < |world| ==> InStep(world[i], world[j])
    ensures Lockstep(world)
    decreases |world[0]|
  {
    if world[0] == [] {
      forall i | 0 <= i < |world| ensures world[i] == [] {
        assert InStep(world[0], world[i]);
      }
    } else {
      forall i | 0 <= i < |world| ensures world[i] != [] {
        assert InStep(world[0], world[i]);
      }
      var column, rest := FirstGates(world), LaterGates(world);
      forall i, j | 0 <= i < |world| && 0 <= j < |world| ensures Matches(column[i], column[j]) {
        assert InStep(world[i], world[j]);
      }
      if Opens(column) {
        forall i, j | 0 <= i < |world| && 0 <= j < |world| ensures InStep(rest[i], rest[j]) {
          assert InStep(world[i], world[j]);
          assert SameWords(column[i], column[j]) && OpensAlone(column[i]) && OpensAlone(column[j]);
        }
        PairwiseLockstep(rest);
      }
    }
  }

  /** The gates before `t` all opened. */
  ghost predicate OpenBefore<E>(a: seq<Gate<E>>, b: seq<Gate<E>>, t: nat)
    requires t <= |a| == |b|
  {
    forall u :: 0 <= u < t ==> OpensForBoth(a[u], b[u])
  }

  lemma {:induction false} InStepByIndex<E>(a: seq<Gate<E>>, b: seq<Gate<E>>)
    requires |a| == |b| && forall t :: 0 <= t < |a| && OpenBefore(a, b, t) ==> Matches(a[t], b[t])
    ensures InStep(a, b)
  {
    if a != [] {
      assert OpenBefore(a, b, 0);
      if OpensForBoth(a[0], b[0]) {
        forall t | 0 <= t < |a| - 1 && OpenBefore(a[1..], b[1..], t) ensures Matches(a[1..][t], b[1..][t]) {
          forall u | 0 <= u < t + 1 ensures OpensForBoth(a[u], b[u]) {
            if u > 0 {
              assert OpensForBoth(a[1..][u - 1], b[1..][u - 1]);
            }
          }
          assert OpenBefore(a, b, t + 1);
        }
        InStepByIndex(a[1..], b[1..]);
      }
    }
  }

  // ----- What the ranks return, told by their inputs

  /** A step of all ranks together: whether it goes well, and what every rank returns if it does not. */
  datatype Stage<+E> = Stage(fine: bool, error: E)

  /** The first stage that does not go well decides. */
  function EndOf<E>(stages: seq<Stage<E>>): (end: Outcome<E>)
    ensures end.Ok? <==> AllFine(stages, |stages|)
  {
    if stages == [] then Ok(())
    else if !stages[0].fine then Err(stages[0].error)
    else
      assert forall t :: 1 <= t < |stages| ==> stages[t] == stages[1..][t - 1];
      EndOf(stages[1..])
  }

  predicate AllFine<E>(stages: seq<Stage<E>>, n: nat)
    requires n <= |stages|
  {
    forall t :: 0 <= t < n ==> stages[t].fine
  }

  ghost predicate Tells<E>(column: seq<Gate<E>>, stage: Stage<E>) {
    && (Opens(column) <==> stage.fine)
    && (!stage.fine ==> forall i :: 0 <= i < |column| ==> Refusal(column, column[i]) == Err(stage.error))
  }

  /** Gate `t` of every rank. */
  ghost function Column<E>(world: seq<seq<Gate<E>>>, t: nat): (column: seq<Gate<E>>)
    requires forall i :: 0 <= i < |world| ==> t < |world[i]|
    ensures |column| == |world| && forall i :: 0 <= i < |world| ==> column[i] == world[i][t]
  {
    seq(|world|, i requires 0 <= i < |world| => world[i][t])
  }

  /** The gates of every rank are those of the stages, as far as they are reached. */
  ghost predicate Staged<E>(world: seq<seq<Gate<E>>>, stages: seq<Stage<E>>) {
    && world != [] && (forall i :: 0 <= i < |world| ==> |world[i]| == |stages|)
    && forall t :: 0 <= t < |stages| && AllFine(stages, t) ==> Tells(Column(world, t), stages[t])
  }

  lemma {:induction false} EndsByStage<E>(world: seq<seq<Gate<E>>>, stages: seq<Stage<E>>)
    requires Staged(world, stages)
    ensures forall i :: 0 <= i < |world| ==> Ends(world)[i] == EndOf(stages)
    decreases |stages|
  {
    if stages != [] {
      var rest := LaterGates(world);
      assert Column(world, 0) == FirstGates(world);
      assert AllFine(stages, 0);
      hide Tells;
      if stages[0].fine {
        forall t | 0 <= t < |stages| - 1 && AllFine(stages[1..], t) ensures Tells(Column(rest, t), stages[1..][t]) {
          LaterStage(stages, t);
          assert Column(rest, t) == Column(world, t + 1);
        }
        EndsByStage(rest, stages[1..]);
      }
    }
  }

  lemma LaterStage<E>(stages: seq<Stage<E>>, t: nat)
    requires t < |stages| - 1 && stages[0].fine && AllFine(stages[1..], t)
    ensures AllFine(stages, t + 1)
  {
    forall u | 0 <= u < t + 1 ensures stages[u].fine {
      if u > 0 {
        assert stages[1..][u - 1].fine;
      }
    }
  }

  lemma EndsAtFirst<E>(world: seq<seq<Gate<E>>>, stage: Stage<E>)
    requires world != [] && forall i :: 0 <= i < |world| ==> world[i] != []
    requires Tells(FirstGates(world), stage) && !stage.fine
    ensures forall i :: 0 <= i < |world| ==> Ends(world)[i] == Err(stage.error)
  {
  }
}
