/** What collective calls return. */
module Outcomes {
  // Success and errors of all ranks, told by what the ranks were given and how their local work went.

  import opened MachineInts
  import opened Preflight
  import opened Gates
  import opened Descriptors
  import opened Agreement

  /** The calls ask for the same: one operation, on equal plans, executions, remaps or descriptors. */
  predicate SameRequest(a: ArrayCall, b: ArrayCall) {
    match a
    case NewPlan(plan, _, _, _, _) => b.NewPlan? && plan == b.plan
    case Execute(x, _, _, _, _, _) => b.Execute? && x == b.execution
    case PrepareRemap(remap, _, _, _, _, _, _, _, _, _, _, _, _, _) => b.PrepareRemap? && remap == b.remap
    case ApplyRemap(n, m, descriptor, _) => b.ApplyRemap? && n == b.n && m == b.m && descriptor == b.descriptor
  }

  /** Everything the rank does on its own turned out well, and its counts fit. */
  predicate LocallyFine(c: ArrayCall)
    requires c.Valid()
  {
    match c
    case NewPlan(plan, built, buffers, layout, peers) =>
      built && buffers && 2 * |plan.Words()| <= COUNT_MAX && layout && peers
    case Execute(x, built, buffers, prepared, reserved, status) =>
      && built && buffers && 2 * |x.Words()| <= COUNT_MAX && prepared
      && (IsAllToAllV(x.operation) || reserved)
      && (IsCallback(x.operation) ==> status == 0)
    case PrepareRemap(remap, _, signsValid, sameTopology, sameShape, built, routes, counts, received, requests, offsets,
                      payload, buffers, datatypeFits) =>
      && signsValid && sameTopology && sameShape && remap.n <= COUNT_MAX && remap.m <= COUNT_MAX
      && remap.Length() <= USIZE_MAX && built && remap.width != 0
      && routes && counts && received && requests && offsets && payload && buffers && datatypeFits
    case ApplyRemap(_, _, _, views) => views
  }

  /** Success of a collective call, in terms of what the ranks were given and how their local work went. */
  ghost predicate Successful(calls: seq<ArrayCall>)
    requires forall i :: 0 <= i < |calls| ==> calls[i].Valid()
  {
    && (forall i, j :: 0 <= i < |calls| && 0 <= j < |calls| ==> SameRequest(calls[i], calls[j]))
    && forall i :: 0 <= i < |calls| ==> LocallyFine(calls[i])
  }

  // ----- What the ranks return

  predicate SameHeading(a: ArrayCall, b: ArrayCall)
    requires a.Valid() && b.Valid()
  {
    a.Operation() == b.Operation()
    && match a
       case NewPlan(p, _, _, _, _) => b.NewPlan? && p.n == b.plan.n && p.m == b.plan.m
       case Execute(x, _, _, _, _, _) =>
         && b.Execute? && x.n == b.execution.n && x.m == b.execution.m
         && LengthWord(|x.Words()|) == LengthWord(|b.execution.Words()|)
       case PrepareRemap(r, _, _, _, _, _, _, _, _, _, _, _, _, _) =>
         b.PrepareRemap? && r.n == b.remap.n && r.m == b.remap.m
       case ApplyRemap(n, m, descriptor, _) => b.ApplyRemap? && n == b.n && m == b.m && |descriptor| == |b.descriptor|
  }

  lemma HeadingMeans(a: ArrayCall, b: ArrayCall)
    requires a.Valid() && b.Valid()
    ensures HeaderOf(a) == HeaderOf(b) <==> SameHeading(a, b)
  {
    if HeaderOf(a) == HeaderOf(b) {
      var x, y := HeaderOf(a), HeaderOf(b);
      HeadersAgree(a, b);
      assert x[2] == y[2] && x[3] == y[3] && x[4] == y[4];
    } else if a.NewPlan? && b.NewPlan? {
      PlanDescriptorLength(a.plan);
      PlanDescriptorLength(b.plan);
    }
    hide PlanInfo.Words;
    hide ExecuteInfo.Words;
  }

  ghost predicate OneHeading(calls: seq<ArrayCall>)
    requires forall i :: 0 <= i < |calls| ==> calls[i].Valid()
  {
    forall i, j :: 0 <= i < |calls| && 0 <= j < |calls| ==> SameHeading(calls[i], calls[j])
  }

  /** How many stages follow the heading. */
  function StageCount(c: ArrayCall): nat {
    match c
    case NewPlan(_, _, _, _, _) => 4
    case Execute(x, _, _, _, _, _) => if IsPointToPoint(x.operation) then 3 else 4
    case PrepareRemap(_, _, _, _, _, _, _, _, _, _, _, _, _, _) => 25
    case ApplyRemap(_, _, _, _) => 3
  }

  /** What the ranks must have in common at stage `t`. */
  predicate Alike(a: ArrayCall, b: ArrayCall, t: nat) {
    match a
    case PrepareRemap(r, signWords, _, _, _, _, _, _, _, _, _, _, _, _) =>
      b.PrepareRemap?
      && (match t
          case 0 => signWords == b.signWords
          case 5 => r.grid == b.remap.grid
          case 6 => r.ranks == b.remap.ranks
          case 8 => r.source.shape == b.remap.source.shape
          case 11 => r.Length() == b.remap.Length()
          case 13 => r == b.remap
          case _ => true)
    case ApplyRemap(_, _, _, _) => t == 0 ==> SameRequest(a, b)
    case _ => t == 1 ==> SameRequest(a, b)
  }

  /** What every rank must have achieved on its own at stage `t`. */
  predicate Fine(c: ArrayCall, t: nat)
    requires c.Valid()
  {
    match c
    case NewPlan(plan, built, buffers, layout, peers) =>
      (match t
       case 0 => built && buffers && 2 * |plan.Words()| <= COUNT_MAX
       case 2 => layout
       case 3 => peers
       case _ => true)
    case Execute(x, built, buffers, prepared, reserved, status) =>
      (match t
       case 0 => built && buffers && 2 * |x.Words()| <= COUNT_MAX
       case 2 => prepared && (IsAllToAllV(x.operation) || reserved)
       case 3 => IsAllToAllV(x.operation) || status == 0
       case _ => true)
    case PrepareRemap(r, _, signsValid, sameTopology, sameShape, built, routes, counts, received, requests, offsets,
                      payload, buffers, datatypeFits) =>
      (match t
       case 1 => signsValid
       case 2 => sameTopology
       case 3 => sameShape
       case 4 => r.m <= COUNT_MAX
       case 7 => r.n <= COUNT_MAX
       case 9 => r.Length() <= USIZE_MAX
       case 12 => built
       case 14 => r.width != 0
       case 15 => routes
       case 16 => counts
       case 18 => received
       case 19 => requests
       case 21 => offsets
       case 22 => payload
       case 23 => buffers
       case 24 => datatypeFits
       case _ => true)
    case ApplyRemap(_, _, _, views) => t == 1 ==> views
  }

  ghost predicate SomeUnpreparedCall(calls: seq<ArrayCall>) {
    exists i :: 0 <= i < |calls| && calls[i].Execute? && !calls[i].prepared
  }

  ghost predicate SomePanickedCall(calls: seq<ArrayCall>) {
    exists i :: 0 <= i < |calls| && calls[i].Execute? && calls[i].status > 1
  }

  /** What every rank returns if stage `t` is the first that does not go well on all of them. A failed preflight
      anywhere comes before a failed reservation, a panic anywhere before an error. */
  ghost function ErrorAt(calls: seq<ArrayCall>, t: nat): ProtocolError
    requires calls != []
  {
    match calls[0]
    case NewPlan(_, _, _, _, _) =>
      if t == 0 then PreparationFailed else if t == 1 then DescriptorMismatch else LocalOrPeer
    case Execute(x, _, _, _, _, _) =>
      if t == 0 then PreparationFailed
      else if t == 1 then DescriptorMismatch
      else if t == 2 then if IsAllToAllV(x.operation) || SomeUnpreparedCall(calls) then LocalOrPeer else Reservation
      else if SomePanickedCall(calls) then CallbackPanicked
      else CallbackFailed
    case PrepareRemap(_, _, _, _, _, _, _, _, _, _, _, _, _, _) =>
      (match t
       case 0 | 11 | 13 => DescriptorMismatch
       case 5 | 6 => DifferentTopology
       case 8 => DifferentShape
       case 14 => UnsupportedDatatype
       case _ => LocalOrPeer)
    case ApplyRemap(_, _, _, _) => if t == 0 then DescriptorMismatch else LocalOrPeer
  }

  ghost function StageAt(calls: seq<ArrayCall>, t: nat): Stage<ProtocolError>
    requires calls != [] && forall i :: 0 <= i < |calls| ==> calls[i].Valid()
  {
    Stage((forall i, j :: 0 <= i < |calls| && 0 <= j < |calls| ==> Alike(calls[i], calls[j], t))
          && (forall i :: 0 <= i < |calls| ==> Fine(calls[i], t)), ErrorAt(calls, t))
  }

  /** The agreement on the heading, and the stages that follow if there is one heading. */
  ghost function StagesOf(calls: seq<ArrayCall>): (stages: seq<Stage<ProtocolError>>)
    requires calls != [] && forall i :: 0 <= i < |calls| ==> calls[i].Valid()
    ensures |stages| == 1 + StageCount(calls[0]) && stages[0] == Stage(OneHeading(calls), DescriptorMismatch)
    ensures forall t :: 0 <= t < StageCount(calls[0]) ==> stages[t + 1] == StageAt(calls, t)
  {
    [Stage(OneHeading(calls), DescriptorMismatch)]
    + seq(StageCount(calls[0]), t requires 0 <= t < StageCount(calls[0]) => StageAt(calls, t))
  }

  lemma RequestHeading(a: ArrayCall, b: ArrayCall)
    requires a.Valid() && b.Valid() && SameRequest(a, b)
    ensures SameHeading(a, b)
  {
    hide PlanInfo.Words;
    hide ExecuteInfo.Words;
  }

  lemma RequestAlike(a: ArrayCall, b: ArrayCall, t: nat)
    requires a.Valid() && b.Valid() && SameRequest(a, b) && LocallyFine(a) && LocallyFine(b)
    ensures Alike(a, b, t)
  {
    hide PlanInfo.Words;
    hide ExecuteInfo.Words;
    hide RemapInfo.Valid;
  }

  /** Agreement at every stage, over one heading, is the same request. */
  lemma AlikeMeans(a: ArrayCall, b: ArrayCall)
    requires a.Valid() && b.Valid() && SameHeading(a, b)
    requires forall t :: 0 <= t < StageCount(a) ==> Alike(a, b, t)
    ensures SameRequest(a, b)
  {
    hide PlanInfo.Words;
    hide ExecuteInfo.Words;
    hide ArrayCall.Valid;
    assert Alike(a, b, 0) && Alike(a, b, 1);
    if a.PrepareRemap? {
      assert Alike(a, b, 13);
    }
  }

  lemma FineMeans(c: ArrayCall)
    requires c.Valid()
    requires forall t :: 0 <= t < StageCount(c) ==> Fine(c, t)
    ensures LocallyFine(c)
  {
    hide PlanInfo.Words;
    hide ExecuteInfo.Words;
    assert Fine(c, 0) && Fine(c, 1) && Fine(c, 2);
    if c.PrepareRemap? {
      assert Fine(c, 3) && Fine(c, 4) && Fine(c, 7) && Fine(c, 9) && Fine(c, 12) && Fine(c, 14) && Fine(c, 15);
      assert Fine(c, 16) && Fine(c, 18) && Fine(c, 19) && Fine(c, 21) && Fine(c, 22) && Fine(c, 23) && Fine(c, 24);
    } else if c.NewPlan? || (c.Execute? && IsCallback(c.execution.operation)) {
      assert Fine(c, 3);
    }
  }

  lemma LocallyFineAt(c: ArrayCall, t: nat)
    requires c.Valid() && LocallyFine(c) && t < StageCount(c)
    ensures Fine(c, t)
  {
    hide PlanInfo.Words;
    hide ExecuteInfo.Words;
  }

  lemma SameCount(a: ArrayCall, b: ArrayCall)
    requires a.Valid() && b.Valid() && SameHeading(a, b)
    ensures StageCount(a) == StageCount(b)
  {
  }

  lemma SuccessIsFine(calls: seq<ArrayCall>, t: nat)
    requires calls != [] && (forall i :: 0 <= i < |calls| ==> calls[i].Valid()) && Successful(calls)
    requires t < StageCount(calls[0])
    ensures OneHeading(calls) && StageAt(calls, t).fine
  {
    hide ArrayCall.Valid;
    hide SameRequest;
    hide LocallyFine;
    hide SameHeading;
    hide Alike;
    hide Fine;
    hide StageCount;
    forall i, j | 0 <= i < |calls| && 0 <= j < |calls|
      ensures SameHeading(calls[i], calls[j]) && Alike(calls[i], calls[j], t)
    {
      RequestHeading(calls[i], calls[j]);
      RequestAlike(calls[i], calls[j], t);
    }
    forall i | 0 <= i < |calls| ensures Fine(calls[i], t) {
      SameCount(calls[i], calls[0]);
      LocallyFineAt(calls[i], t);
    }
  }

  lemma FineIsSuccess(calls: seq<ArrayCall>)
    requires calls != [] && (forall i :: 0 <= i < |calls| ==> calls[i].Valid()) && OneHeading(calls)
    requires forall t :: 0 <= t < StageCount(calls[0]) ==> StageAt(calls, t).fine
    ensures Successful(calls)
  {
    hide ArrayCall.Valid;
    hide SameRequest;
    hide LocallyFine;
    hide SameHeading;
    hide Alike;
    hide Fine;
    hide StageCount;
    forall i | 0 <= i < |calls| ensures LocallyFine(calls[i]) {
      SameCount(calls[i], calls[0]);
      forall t | 0 <= t < StageCount(calls[i]) ensures Fine(calls[i], t) {
        assert StageAt(calls, t).fine;
      }
      FineMeans(calls[i]);
    }
    forall i, j | 0 <= i < |calls| && 0 <= j < |calls| ensures SameRequest(calls[i], calls[j]) {
      SameCount(calls[i], calls[0]);
      forall t | 0 <= t < StageCount(calls[i]) ensures Alike(calls[i], calls[j], t) {
        assert StageAt(calls, t).fine;
      }
      AlikeMeans(calls[i], calls[j]);
    }
  }

  /** All stages go well exactly if the call is successful. */
  lemma AllFineMeans(calls: seq<ArrayCall>)
    requires calls != [] && forall i :: 0 <= i < |calls| ==> calls[i].Valid()
    ensures EndOf(StagesOf(calls)).Ok? <==> Successful(calls)
  {
    var stages, n := StagesOf(calls), StageCount(calls[0]);
    hide ArrayCall.Valid;
    hide StageAt;
    hide OneHeading;
    hide Successful;
    if Successful(calls) {
      SuccessIsFine(calls, 0);
      forall t | 0 <= t < n ensures StageAt(calls, t).fine {
        SuccessIsFine(calls, t);
      }
      assert forall t :: 0 < t < |stages| ==> stages[t] == StageAt(calls, t - 1);
    }
    if EndOf(stages).Ok? {
      assert stages[0].fine;
      forall t | 0 <= t < n ensures StageAt(calls, t).fine {
        assert stages[t + 1].fine;
      }
      FineIsSuccess(calls);
    }
  }

  // ----- Stages and gates

  lemma StageTells(calls: seq<ArrayCall>, column: seq<Gate<ProtocolError>>, t: nat)
    requires calls != [] && |column| == |calls| && forall i :: 0 <= i < |calls| ==> calls[i].Valid()
    requires forall i, j :: 0 <= i < |calls| && 0 <= j < |calls| ==>
      (SameWords(column[i], column[j]) <==> Alike(calls[i], calls[j], t))
    requires forall i :: 0 <= i < |calls| ==> (OpensAlone(column[i]) <==> Fine(calls[i], t))
    requires (forall i :: 0 <= i < |calls| ==> column[i].Transfer?)
          || (forall i :: 0 <= i < |calls| ==> Refusal(column, column[i]) == Err(ErrorAt(calls, t)))
    ensures Tells(column, StageAt(calls, t))
  {
    if forall i :: 0 <= i < |calls| ==> column[i].Transfer? {
      assert Opens(column);
    }
    hide ArrayCall.Valid;
    hide Alike;
    hide Fine;
    hide ErrorAt;
    hide OpensAlone;
    hide SameWords;
    hide Refusal;
    if Opens(column) {
      forall i, j | 0 <= i < |calls| && 0 <= j < |calls| ensures Alike(calls[i], calls[j], t) {
        assert SameWords(column[i], column[j]);
      }
      forall i | 0 <= i < |calls| ensures Fine(calls[i], t) {
        assert OpensAlone(column[i]);
      }
    }
  }

  lemma GateFine(c: ArrayCall, t: nat)
    requires c.Valid() && t < StageCount(c)
    ensures |BodyGates(c)| == StageCount(c) && (OpensAlone(BodyGates(c)[t]) <==> Fine(c, t))
  {
    hide PlanInfo.Words;
    hide ExecuteInfo.Words;
    hide RemapInfo.Words;
    hide RemapInfo.Length;
    hide RemapInfo.Valid;
    hide GeometryGates;
    hide PlanGates;
    hide RouteGates;
    if c.PrepareRemap? {
      if t < 9 {
        assert OpensAlone(GeometryGates(c)[t]) <==> Fine(c, t) by { GeometryFine(c, t); }
      } else if t < 15 {
        assert OpensAlone(PlanGates(c)[t - 9]) <==> Fine(c, t) by { PlanFine(c, t); }
      } else {
        assert OpensAlone(RouteGates(c)[t - 15]) <==> Fine(c, t) by { RouteFine(c, t - 15); }
      }
    }
  }

  lemma GeometryFine(c: ArrayCall, t: nat)
    requires c.Valid() && c.PrepareRemap? && t < 9
    ensures OpensAlone(GeometryGates(c)[t]) <==> Fine(c, t)
  {
  }

  lemma PlanFine(c: ArrayCall, t: nat)
    requires c.Valid() && c.PrepareRemap? && 9 <= t < 15
    ensures OpensAlone(PlanGates(c)[t - 9]) <==> Fine(c, t)
  {
    hide RemapInfo.Words;
    hide RemapInfo.Length;
    hide RemapInfo.Valid;
  }

  lemma RouteFine(c: ArrayCall, t: nat)
    requires c.Valid() && c.PrepareRemap? && t < 10
    ensures OpensAlone(RouteGates(c)[t]) <==> Fine(c, t + 15)
  {
    hide ArrayCall.Valid;
    var gates := RouteGates(c);
    if t < 5 {
      assert OpensAlone(gates[0]) == c.routes && OpensAlone(gates[1]) == c.counts;
      assert OpensAlone(gates[3]) == c.received && OpensAlone(gates[4]) == c.requests;
    } else {
      assert OpensAlone(gates[6]) == c.offsets && OpensAlone(gates[7]) == c.payload;
      assert OpensAlone(gates[8]) == c.buffers && OpensAlone(gates[9]) == c.datatypeFits;
    }
  }

  /** Earlier stages make the descriptors ready and their lengths fit. */
  predicate Prepares(c: ArrayCall, t: nat)
    requires c.Valid()
  {
    (t == 1 ==> Fine(c, 0)) && (t == 11 ==> Fine(c, 9))
  }

  lemma GateAlike(a: ArrayCall, b: ArrayCall, t: nat)
    requires a.Valid() && b.Valid() && SameHeading(a, b) && t < StageCount(a) && Prepares(a, t) && Prepares(b, t)
    ensures |BodyGates(a)| == |BodyGates(b)| == StageCount(a)
    ensures SameWords(BodyGates(a)[t], BodyGates(b)[t]) <==> Alike(a, b, t)
  {
    SameCount(a, b);
    GateFine(a, t);
    GateFine(b, t);
    hide PlanInfo.Words;
    hide ExecuteInfo.Words;
    hide RemapInfo.Words;
    hide RemapInfo.Length;
    hide RemapInfo.Valid;
    hide GeometryGates;
    hide PlanGates;
    hide RouteGates;
    match a {
      case PrepareRemap(_, _, _, _, _, _, _, _, _, _, _, _, _, _) =>
        if t < 9 {
          GeometryAlike(a, b, t);
          assert BodyGates(a)[t] == GeometryGates(a)[t] && BodyGates(b)[t] == GeometryGates(b)[t];
        } else if t < 15 {
          PlanAlike(a, b, t);
          assert BodyGates(a)[t] == PlanGates(a)[t - 9] && BodyGates(b)[t] == PlanGates(b)[t - 9];
        } else {
          RouteAlike(a, b, t);
          assert BodyGates(a)[t] == RouteGates(a)[t - 15] && BodyGates(b)[t] == RouteGates(b)[t - 15];
        }
      case NewPlan(p, _, _, _, _) =>
        if p.Words() == b.plan.Words() {
          PlanDescriptorInjective(p, b.plan);
        }
      case Execute(x, _, _, _, _, _) =>
        if x.Words() == b.execution.Words() {
          ExecuteDescriptorInjective(x, b.execution);
        }
      case ApplyRemap(_, _, _, _) =>
    }
  }

  lemma GeometryAlike(a: ArrayCall, b: ArrayCall, t: nat)
    requires a.PrepareRemap? && b.PrepareRemap? && t < 9
    ensures SameWords(GeometryGates(a)[t], GeometryGates(b)[t]) <==> Alike(a, b, t)
  {
    hide ArrayCall.Valid;
    hide RemapInfo.Length;
    if t == 1 || t == 2 || t == 3 || t == 4 || t == 7 {
      assert GeometryGates(a)[t].Flag?;
    } else if t == 6 {
      assert [a.remap.ranks][0] == a.remap.ranks && [b.remap.ranks][0] == b.remap.ranks;
    }
  }

  lemma PlanAlike(a: ArrayCall, b: ArrayCall, t: nat)
    requires a.Valid() && b.Valid() && a.PrepareRemap? && b.PrepareRemap? && 9 <= t < 15
    requires Prepares(a, t) && Prepares(b, t)
    ensures SameWords(PlanGates(a)[t - 9], PlanGates(b)[t - 9]) <==> Alike(a, b, t)
  {
    hide RemapInfo.Words;
    hide RemapInfo.Length;
    hide RemapInfo.Valid;
    if t == 11 {
      assert [a.remap.Length()][0] == a.remap.Length() && [b.remap.Length()][0] == b.remap.Length();
    } else if t == 13 && a.remap.Words() == b.remap.Words() {
      RemapDescriptorInjective(a.remap, b.remap);
    }
  }

  lemma RouteAlike(a: ArrayCall, b: ArrayCall, t: nat)
    requires a.Valid() && b.Valid() && a.PrepareRemap? && b.PrepareRemap? && 15 <= t < 25
    ensures SameWords(RouteGates(a)[t - 15], RouteGates(b)[t - 15]) <==> Alike(a, b, t)
  {
    RouteError(a, t);
    hide RouteGates;
    hide ArrayCall.Valid;
  }

  /** The gate at stage `t` is a data exchange. */
  predicate IsExchange(c: ArrayCall, t: nat) {
    match c
    case NewPlan(_, _, _, _, _) => false
    case Execute(x, _, _, _, _, _) => t == 3 && IsAllToAllV(x.operation)
    case PrepareRemap(_, _, _, _, _, _, _, _, _, _, _, _, _, _) => t == 17 || t == 20
    case ApplyRemap(_, _, _, _) => t == 2
  }

  predicate FailsWith(gate: Gate<ProtocolError>, e: ProtocolError) {
    match gate
    case Pair(_, f) => e == f
    case Chunks(_, _, f) => e == f
    case Flag(_, f) => e == f
    case Check(_, f) => e == f
    case TwoFlags(_, _, _, _) => false
    case Status(_, _, _) => false
    case Transfer(_) => false
  }

  lemma RouteError(c: ArrayCall, t: nat)
    requires c.PrepareRemap? && 15 <= t < 25
    ensures if IsExchange(c, t) then RouteGates(c)[t - 15].Transfer?
            else RouteGates(c)[t - 15].Flag? && FailsWith(RouteGates(c)[t - 15], LocalOrPeer)
  {
    if t == 17 || t == 20 {
      assert RouteGates(c)[t - 15].Transfer?;
    } else {
      assert RouteGates(c)[t - 15].Flag?;
    }
  }

  /** What one gate refuses with, except for a reservation and a callback. */
  lemma GateError(calls: seq<ArrayCall>, c: ArrayCall, t: nat)
    requires calls != [] && calls[0].Valid() && c.Valid() && SameHeading(calls[0], c) && t < StageCount(c)
    requires !(c.Execute? && !IsAllToAllV(c.execution.operation) && t >= 2)
    ensures |BodyGates(c)| == StageCount(c)
    ensures if IsExchange(c, t) then BodyGates(c)[t].Transfer? else FailsWith(BodyGates(c)[t], ErrorAt(calls, t))
  {
    GateFine(c, t);
    hide PlanInfo.Words;
    hide ExecuteInfo.Words;
    hide RemapInfo.Words;
    hide RemapInfo.Length;
    hide RemapInfo.Valid;
    hide GeometryGates;
    hide PlanGates;
    hide RouteGates;
    if c.PrepareRemap? && t >= 15 {
      RouteError(c, t);
      assert BodyGates(c)[t] == RouteGates(c)[t - 15];
    } else if c.PrepareRemap? && t >= 9 {
      PlanError(calls, c, t);
      assert BodyGates(c)[t] == PlanGates(c)[t - 9];
    } else if c.PrepareRemap? {
      GeometryError(calls, c, t);
      assert BodyGates(c)[t] == GeometryGates(c)[t];
    }
  }

  lemma GeometryError(calls: seq<ArrayCall>, c: ArrayCall, t: nat)
    requires calls != [] && calls[0].PrepareRemap? && c.PrepareRemap? && t < 9
    ensures FailsWith(GeometryGates(c)[t], ErrorAt(calls, t))
  {
  }

  lemma PlanError(calls: seq<ArrayCall>, c: ArrayCall, t: nat)
    requires calls != [] && calls[0].PrepareRemap? && c.PrepareRemap? && c.remap.Valid() && 9 <= t < 15
    ensures FailsWith(PlanGates(c)[t - 9], ErrorAt(calls, t))
  {
    hide RemapInfo.Words;
    hide RemapInfo.Length;
    hide RemapInfo.Valid;
  }

  lemma PairError(calls: seq<ArrayCall>, column: seq<Gate<ProtocolError>>, t: nat, i: nat)
    requires calls != [] && |column| == |calls| && i < |calls| && 2 <= t < StageCount(calls[i]) && calls[0].Execute?
    requires forall i :: 0 <= i < |calls| ==>
      calls[i].Valid() && calls[i].Execute? && calls[i].execution.operation == calls[0].execution.operation
    requires !IsAllToAllV(calls[0].execution.operation)
    requires forall i :: 0 <= i < |calls| ==> |BodyGates(calls[i])| > t && column[i] == BodyGates(calls[i])[t]
    ensures Refusal(column, column[i]) == Err(ErrorAt(calls, t))
  {
    hide ExecuteInfo.Words;
    forall j | 0 <= j < |calls|
      ensures column[j] ==
        if t == 2 then TwoFlags(calls[j].prepared, calls[j].reserved, LocalOrPeer, Reservation)
        else Status(calls[j].status, CallbackFailed, CallbackPanicked)
    {
    }
    hide BodyGates;
    hide ArrayCall.Valid;
    if t == 2 {
      assert SomeUnprepared(column) <==> SomeUnpreparedCall(calls);
    } else {
      assert SomePanicked(column) <==> SomePanickedCall(calls);
    }
  }

  /** Gate `t` of every rank, after the heading. */
  ghost function BodyColumn(calls: seq<ArrayCall>, t: nat): (column: seq<Gate<ProtocolError>>)
    requires forall i :: 0 <= i < |calls| ==> calls[i].Valid() && t < |BodyGates(calls[i])|
    ensures |column| == |calls| && forall i :: 0 <= i < |calls| ==> column[i] == BodyGates(calls[i])[t]
  {
    seq(|calls|, i requires 0 <= i < |calls| => BodyGates(calls[i])[t])
  }

  lemma BodyError(calls: seq<ArrayCall>, t: nat)
    requires calls != [] && (forall i :: 0 <= i < |calls| ==> calls[i].Valid()) && OneHeading(calls)
    requires t < StageCount(calls[0]) && forall i :: 0 <= i < |calls| ==> |BodyGates(calls[i])| > t
    ensures var column := BodyColumn(calls, t);
            (forall i :: 0 <= i < |calls| ==> column[i].Transfer?)
            || forall i :: 0 <= i < |calls| ==> Refusal(column, column[i]) == Err(ErrorAt(calls, t))
  {
    var column := BodyColumn(calls, t);
    forall i | 0 <= i < |calls| ensures SameKind(calls[0], calls[i], t) {
      KindOf(calls[0], calls[i], t);
    }
    hide BodyGates;
    hide ArrayCall.Valid;
    hide SameHeading;
    hide OneHeading;
    hide ErrorAt;
    hide StageCount;
    hide IsExchange;
    hide Refusal;
    hide FailsWith;
    if calls[0].Execute? && !IsAllToAllV(calls[0].execution.operation) && t >= 2 {
      hide IsAllToAllV;
      forall i | 0 <= i < |calls| ensures Refusal(column, column[i]) == Err(ErrorAt(calls, t)) {
        PairError(calls, column, t, i);
      }
    } else {
      hide IsAllToAllV;
      forall i | 0 <= i < |calls|
        ensures if IsExchange(calls[0], t) then column[i].Transfer?
                else Refusal(column, column[i]) == Err(ErrorAt(calls, t))
      {
        GateError(calls, calls[i], t);
        if !IsExchange(calls[0], t) {
          RefusesWith(column, column[i], ErrorAt(calls, t));
        }
      }
    }
  }

  lemma RefusesWith(column: seq<Gate<ProtocolError>>, gate: Gate<ProtocolError>, e: ProtocolError)
    requires FailsWith(gate, e)
    ensures Refusal(column, gate) == Err(e)
  {
  }

  ghost predicate SameKind(a: ArrayCall, b: ArrayCall, t: nat)
    requires a.Valid() && b.Valid()
  {
    && SameHeading(a, b) && StageCount(a) == StageCount(b) && (IsExchange(a, t) <==> IsExchange(b, t))
    && (a.Execute? <==> b.Execute?) && (a.Execute? ==> a.execution.operation == b.execution.operation)
  }

  lemma KindOf(a: ArrayCall, b: ArrayCall, t: nat)
    requires a.Valid() && b.Valid() && SameHeading(a, b)
    ensures SameKind(a, b, t)
  {
    SameCount(a, b);
    hide ArrayCall.Valid;
  }

  /** Once the earlier stages went well, the gate of a stage opens exactly if the stage goes well. */
  lemma BodyTells(calls: seq<ArrayCall>, t: nat)
    requires calls != [] && (forall i :: 0 <= i < |calls| ==> calls[i].Valid()) && OneHeading(calls)
    requires t < StageCount(calls[0]) && forall u :: 0 <= u < t ==> StageAt(calls, u).fine
    ensures forall i :: 0 <= i < |calls| ==> |BodyGates(calls[i])| == StageCount(calls[0])
    ensures Tells(BodyColumn(calls, t), StageAt(calls, t))
  {
    hide ArrayCall.Valid;
    hide BodyGates;
    hide StageCount;
    hide SameHeading;
    hide Fine;
    hide Alike;
    forall i | 0 <= i < |calls|
      ensures |BodyGates(calls[i])| == StageCount(calls[0])
        && (OpensAlone(BodyGates(calls[i])[t]) <==> Fine(calls[i], t)) && Prepares(calls[i], t)
    {
      SameCount(calls[i], calls[0]);
      GateFine(calls[i], t);
      assert t == 1 ==> StageAt(calls, 0).fine;
      assert t == 11 ==> StageAt(calls, 9).fine;
    }
    forall i, j | 0 <= i < |calls| && 0 <= j < |calls|
      ensures SameWords(BodyGates(calls[i])[t], BodyGates(calls[j])[t]) <==> Alike(calls[i], calls[j], t)
    {
      SameCount(calls[i], calls[0]);
      GateAlike(calls[i], calls[j], t);
    }
    BodyError(calls, t);
    StageTells(calls, BodyColumn(calls, t), t);
  }

  /** The heading is agreed first. */
  lemma HeadTells(calls: seq<ArrayCall>)
    requires calls != [] && forall i :: 0 <= i < |calls| ==> calls[i].Valid()
    ensures Tells(FirstGates(AllGates(calls)), Stage(OneHeading(calls), DescriptorMismatch))
  {
    var column := FirstGates(AllGates(calls));
    hide BodyGates;
    hide HeaderOf;
    hide ArrayCall.Valid;
    forall i | 0 <= i < |calls| ensures column[i] == Pair(HeaderOf(calls[i]), DescriptorMismatch) {
    }
    forall i, j | 0 <= i < |calls| && 0 <= j < |calls|
      ensures SameWords(column[i], column[j]) <==> SameHeading(calls[i], calls[j])
    {
      HeadingMeans(calls[i], calls[j]);
    }
    hide SameHeading;
    if Opens(column) {
      forall i, j | 0 <= i < |calls| && 0 <= j < |calls| ensures SameHeading(calls[i], calls[j]) {
        assert SameWords(column[i], column[j]);
      }
    }
  }

  /** The gates of the ranks are those of the stages. */
  lemma CallsAreStaged(calls: seq<ArrayCall>)
    requires calls != [] && (forall i :: 0 <= i < |calls| ==> calls[i].Valid()) && OneHeading(calls)
    ensures Staged(AllGates(calls), StagesOf(calls))
  {
    var world, stages := AllGates(calls), StagesOf(calls);
    HeadTells(calls);
    hide ArrayCall.Valid;
    hide BodyGates;
    hide HeaderOf;
    hide StageCount;
    hide StageAt;
    hide SameHeading;
    hide Tells;
    forall i | 0 <= i < |calls| ensures |world[i]| == |stages| {
      SameCount(calls[i], calls[0]);
      GateCount(calls[i]);
    }
    assert Column(world, 0) == FirstGates(world);
    hide OneHeading;
    forall t | 0 < t < |stages| && AllFine(stages, t) ensures Tells(Column(world, t), stages[t]) {
      CallIsStaged(calls, t);
    }
  }

  lemma CallIsStaged(calls: seq<ArrayCall>, t: nat)
    requires calls != [] && (forall i :: 0 <= i < |calls| ==> calls[i].Valid()) && OneHeading(calls)
    requires 0 < t < |StagesOf(calls)| && AllFine(StagesOf(calls), t)
    requires forall i :: 0 <= i < |calls| ==> t < |AllGates(calls)[i]|
    ensures Tells(Column(AllGates(calls), t), StagesOf(calls)[t])
  {
    hide ArrayCall.Valid;
    hide BodyGates;
    hide HeaderOf;
    hide StageCount;
    hide StageAt;
    hide OneHeading;
    hide Tells;
    forall u | 0 <= u < t - 1 ensures StageAt(calls, u).fine {
      assert StagesOf(calls)[u + 1].fine;
    }
    BodyTells(calls, t - 1);
    assert Column(AllGates(calls), t) == BodyColumn(calls, t - 1);
  }

  lemma GateCount(c: ArrayCall)
    requires c.Valid()
    ensures |BodyGates(c)| == StageCount(c) > 0
  {
    GateFine(c, 0);
  }

  /** Any mix of calls on any inputs, with any pattern of local failures: all ranks issue the identical sequence
      of collectives with identical lengths, and all return the same: success exactly if the ranks ask for the
      same and are all locally fine, or else the error of the first stage that did not go well. */
  lemma RanksAgree(calls: seq<ArrayCall>) returns (trace: seq<Call>, results: seq<Outcome<ProtocolError>>)
    requires calls != [] && forall i :: 0 <= i < |calls| ==> calls[i].Valid()
    ensures Runs(Programs(AllGates(calls)), trace, results) && |results| == |calls|
    ensures forall r :: 0 <= r < |calls| ==> results[r] == EndOf(StagesOf(calls))
    ensures EndOf(StagesOf(calls)).Ok? <==> Successful(calls)
  {
    var world := AllGates(calls);
    forall i, j | 0 <= i < |calls| && 0 <= j < |calls| ensures InStep(world[i], world[j]) {
      CallsInStep(calls[i], calls[j]);
    }
    PairwiseLockstep(world);
    trace := GatesAgree(world);
    results := Ends(world);
    AllFineMeans(calls);
    hide ArrayCall.Valid;
    hide GatesOf;
    hide OneHeading;
    hide Successful;
    if OneHeading(calls) {
      CallsAreStaged(calls);
      EndsByStage(world, StagesOf(calls));
    } else {
      HeadTells(calls);
      hide Tells;
      EndsAtFirst(world, Stage(false, DescriptorMismatch));
    }
  }
}
