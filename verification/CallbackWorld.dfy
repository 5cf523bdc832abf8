/** In-place transposes with a callback. */
module CallbackWorlds {
  // The agreement of the ranks and the state of their arrays.

  import opened MachineInts
  import opened MixedRadix
  import opened Registries
  import opened ArrayRuns
  import opened ArrayWorlds
  import opened TransposeWorlds
  import opened Gates
  import opened Agreement
  import opened Outcomes
  import Preflight

  /** Every rank calls the in-place transpose with a callback; what it was given may differ. */
  ghost predicate CallbackCalls(calls: seq<ArrayCall>) {
    && calls != []
    && forall r :: 0 <= r < |calls| ==>
         calls[r].Execute? && calls[r].Valid() && calls[r].execution.operation == POINT_TO_POINT_CALLBACK_IN_PLACE
  }

  /** The transpose goes ahead: one execution on all ranks, its descriptor agreed on, and every rank prepared. */
  ghost predicate Admitted(calls: seq<ArrayCall>)
    requires CallbackCalls(calls)
  {
    && (forall i, j :: 0 <= i < |calls| && 0 <= j < |calls| ==> calls[i].execution == calls[j].execution)
    && forall r :: 0 <= r < |calls| ==> Prepared(calls[r])
  }

  predicate Prepared(c: ArrayCall)
    requires c.Execute? && c.execution.Valid()
  {
    c.built && c.buffers && 2 * |c.execution.Words()| <= COUNT_MAX && c.prepared && c.reserved
  }

  /** The gates before the callback. */
  ghost function EarlyGates(calls: seq<ArrayCall>): (world: seq<seq<Gate<ProtocolError>>>)
    requires CallbackCalls(calls)
    ensures |world| == |calls|
    ensures forall r :: 0 <= r < |calls| ==>
      |world[r]| == 4 && world[r] + [Status(calls[r].status, CallbackFailed, CallbackPanicked)] == GatesOf(calls[r])
  {
    hide HeaderOf;
    hide ArrayCall.Valid;
    seq(|calls|, r requires 0 <= r < |calls| => GatesOf(calls[r])[..4])
  }

  /** All gates before the callback open exactly if the call is admitted. */
  lemma AdmittedMeans(calls: seq<ArrayCall>)
    requires CallbackCalls(calls)
    ensures forall r :: 0 <= r < |calls| ==> (Ends(EarlyGates(calls))[r].Ok? <==> Admitted(calls))
  {
    AdmittedStages(calls);
    hide ArrayCall.Valid;
    hide Admitted;
    hide OneHeading;
    hide Ends;
    if OneHeading(calls) {
      EarlyEnds(calls);
    } else {
      HeadTells(calls);
      EarlyHead(calls);
      hide Tells;
      EndsAtFirst(EarlyGates(calls), Stage(false, DescriptorMismatch));
    }
  }

  lemma EarlyEnds(calls: seq<ArrayCall>)
    requires CallbackCalls(calls) && OneHeading(calls)
    ensures |StagesOf(calls)| == 5
    ensures forall r :: 0 <= r < |calls| ==> (Ends(EarlyGates(calls))[r].Ok? <==> AllFine(StagesOf(calls), 4))
  {
    var stages := StagesOf(calls)[..4];
    EarlyStaged(calls);
    EndsByStage(EarlyGates(calls), stages);
    hide CallbackCalls;
    hide Staged;
    assert forall u :: 0 <= u < 4 ==> stages[u] == StagesOf(calls)[u];
    assert AllFine(stages, 4) <==> AllFine(StagesOf(calls), 4);
  }

  lemma EarlyHead(calls: seq<ArrayCall>)
    requires CallbackCalls(calls)
    ensures FirstGates(EarlyGates(calls)) == FirstGates(AllGates(calls))
  {
    hide GatesOf;
    hide ArrayCall.Valid;
    forall r | 0 <= r < |calls| ensures EarlyGates(calls)[r][0] == AllGates(calls)[r][0] {
      EarlyGate(calls, r, 0);
    }
  }

  lemma EarlyGate(calls: seq<ArrayCall>, r: nat, t: nat)
    requires CallbackCalls(calls) && r < |calls| && t < 4
    ensures |AllGates(calls)[r]| == 5 && EarlyGates(calls)[r][t] == AllGates(calls)[r][t]
  {
    hide GatesOf;
    hide ArrayCall.Valid;
    var last := Status(calls[r].status, CallbackFailed, CallbackPanicked);
    assert (EarlyGates(calls)[r] + [last])[t] == GatesOf(calls[r])[t];
  }

  lemma EarlyStaged(calls: seq<ArrayCall>)
    requires CallbackCalls(calls) && OneHeading(calls)
    ensures |StagesOf(calls)| == 5 && Staged(EarlyGates(calls), StagesOf(calls)[..4])
  {
    var early, stages := EarlyGates(calls), StagesOf(calls)[..4];
    CallsAreStaged(calls);
    hide GatesOf;
    hide ArrayCall.Valid;
    hide OneHeading;
    hide Tells;
    forall t | 0 <= t < 4 && AllFine(stages, t) ensures Tells(Column(early, t), stages[t]) {
      forall u | 0 <= u < t ensures StagesOf(calls)[u].fine {
        assert stages[u].fine;
      }
      forall r | 0 <= r < |calls| ensures early[r][t] == AllGates(calls)[r][t] {
        EarlyGate(calls, r, t);
      }
      assert Column(early, t) == Column(AllGates(calls), t);
    }
  }

  lemma AdmittedStages(calls: seq<ArrayCall>)
    requires CallbackCalls(calls)
    ensures Admitted(calls) <==> OneHeading(calls) && AllFine(StagesOf(calls), 4)
  {
    var stages := StagesOf(calls);
    hide ArrayCall.Valid;
    hide SameHeading;
    if Admitted(calls) {
      forall i, j | 0 <= i < |calls| && 0 <= j < |calls| ensures SameHeading(calls[i], calls[j]) {
        RequestHeading(calls[i], calls[j]);
      }
      assert StageAt(calls, 0).fine && StageAt(calls, 1).fine && StageAt(calls, 2).fine;
    }
    if AllFine(stages, 4) {
      assert StageAt(calls, 0).fine && StageAt(calls, 1).fine && StageAt(calls, 2).fine;
      forall r | 0 <= r < |calls| ensures Prepared(calls[r]) {
        assert Fine(calls[r], 0) && Fine(calls[r], 2);
      }
      forall i, j | 0 <= i < |calls| && 0 <= j < |calls| ensures calls[i].execution == calls[j].execution {
        assert Alike(calls[i], calls[j], 1);
      }
    }
  }

  /** The arrays go through one call each that matches the protocol: accepted exactly if the call is admitted,
      with the callback's outcome as the status. */
  ghost predicate Match<T>(calls: seq<ArrayCall>, ops: seq<ArrayOp<T>>)
    requires CallbackCalls(calls)
  {
    && |calls| == |ops|
    && (forall r :: 0 <= r < |ops| ==> ops[r].DistributedInPlace? && ops[r].callback.Called?)
    && (forall r :: 0 <= r < |ops| ==> (ops[r].accepted <==> Admitted(calls)))
    && (Admitted(calls) ==> forall r :: 0 <= r < |ops| ==> calls[r].status == StatusOf(ops[r].callback.outcome))
  }

  /** The call succeeds on all ranks exactly if it is admitted and every callback completed. */
  lemma SuccessMeans<T>(calls: seq<ArrayCall>, ops: seq<ArrayOp<T>>)
    requires CallbackCalls(calls) && Match(calls, ops)
    ensures Successful(calls) <==> Admitted(calls) && AllCalled(ops) && AllCompleted(ops)
  {
    forall i, j | 0 <= i < |calls| && 0 <= j < |calls|
      ensures SameRequest(calls[i], calls[j]) <==> calls[i].execution == calls[j].execution
    {
    }
    forall r | 0 <= r < |calls| ensures LocallyFine(calls[r]) <==> Prepared(calls[r]) && calls[r].status == 0 {
    }
    hide ArrayCall.Valid;
    hide SameRequest;
    hide LocallyFine;
    hide Prepared;
  }

  /** How the call ends on one rank: refused, the array is as it was; else it is valid in the destination
      layout exactly if the protocol and the call succeed, and poisoned otherwise. */
  ghost predicate OneEnd<T>(calls: seq<ArrayCall>, result: Outcome<ProtocolError>, b: Contents<T>, op: ArrayOp<T>,
                            d: Contents<T>)
    requires CallbackCalls(calls)
  {
    && op.DistributedInPlace? && (result.Ok? <==> Successful(calls))
    && if !Admitted(calls) then result.Err? && d == b
       else
         && (EndOfCall(op.callback) == Succeeded <==> result.Ok?)
         && d.state == if result.Ok? then LayoutState.Valid(op.destination) else Poisoned
  }

  /** For any mix of inputs, local failures and callback outcomes, the ranks make the same collective calls
      and the transpose ends in one of three ways on all of them: refused and nothing changed, valid in the
      destination layout, or poisoned with an error or a panic on every rank. */
  lemma CallEndsAlike<T(!new)>(w: Shared, before: seq<Contents<T>>, calls: seq<ArrayCall>, ops: seq<ArrayOp<T>>,
                               after: seq<Contents<T>>)
    returns (trace: seq<Preflight.Call>, results: seq<Outcome<ProtocolError>>)
    requires w.Valid() && WorldStep(w, before, ops, after) && CallbackCalls(calls) && Match(calls, ops)
    ensures Preflight.Runs(Programs(AllGates(calls)), trace, results)
    ensures |results| == |ops| && forall c :: w.Rank(c) ==>
      OneEnd(calls, Of(w, results, c), Of(w, before, c), Of(w, ops, c), Of(w, after, c))
  {
    trace, results := RanksAgree(calls);
    hide ArrayCall.Valid;
    hide CallbackCalls;
    hide Admitted;
    hide Successful;
    SuccessMeans(calls, ops);
    forall c | w.Rank(c) ensures OneEnd(calls, Of(w, results, c), Of(w, before, c), Of(w, ops, c), Of(w, after, c)) {
      LinearBound(w.Grid(), c);
      EndOfRank(w, before, calls, ops, after, c);
    }
  }

  lemma EndOfRank<T(!new)>(w: Shared, before: seq<Contents<T>>, calls: seq<ArrayCall>, ops: seq<ArrayOp<T>>,
                           after: seq<Contents<T>>, c: seq<nat>)
    requires w.Valid() && WorldStep(w, before, ops, after) && CallbackCalls(calls) && Match(calls, ops) && w.Rank(c)
    ensures Of(w, ops, c).DistributedInPlace?
    ensures if !Admitted(calls) then Of(w, after, c) == Of(w, before, c)
            else AllCalled(ops) && EndsWithAll(ops, Of(w, ops, c), Of(w, after, c))
  {
    hide ArrayCall.Valid;
    hide CallbackCalls;
    hide Admitted;
    hide Together;
    LinearBound(w.Grid(), c);
    if Admitted(calls) {
      CallbacksEndTogether(w, before, ops, after, c);
    } else {
      assert RankStep(w, before, ops, after, c);
    }
  }
}
