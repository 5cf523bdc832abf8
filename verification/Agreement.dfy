/** The collective protocols, gate by gate. */
module Agreement {
  // Ranks may even be inside different operations: the fixed header is what stops them together.

  import opened MachineInts
  import opened Preflight
  import opened Gates
  import opened Descriptors

  datatype ProtocolError =
    | DescriptorMismatch | PreparationFailed | LocalOrPeer | DifferentTopology | DifferentShape | Reservation
    | UnsupportedDatatype | CallbackFailed | CallbackPanicked

  const ALLTOALLV_NEW: word := 1
  const ALLTOALLV_VIEWS: word := 2
  const ALLTOALLV_IN_PLACE: word := 3
  const POINT_TO_POINT_NEW: word := 4
  const POINT_TO_POINT_VIEWS: word := 5
  const POINT_TO_POINT_IN_PLACE: word := 6
  const POINT_TO_POINT_CALLBACK: word := 0x10001
  const POINT_TO_POINT_TIMED_VIEWS: word := 0x10002
  const POINT_TO_POINT_TIMED_IN_PLACE: word := 0x10003
  const ALLTOALLV_TIMED_VIEWS: word := 0x10004
  const ALLTOALLV_TIMED_IN_PLACE: word := 0x10005
  const POINT_TO_POINT_CALLBACK_IN_PLACE: word := 0x10006

  predicate IsNew(op: word) { op == ALLTOALLV_NEW || op == POINT_TO_POINT_NEW }

  predicate IsAllToAllV(op: word) {
    op == ALLTOALLV_VIEWS || op == ALLTOALLV_IN_PLACE || op == ALLTOALLV_TIMED_VIEWS || op == ALLTOALLV_TIMED_IN_PLACE
  }

  predicate IsPointToPoint(op: word) {
    op == POINT_TO_POINT_VIEWS || op == POINT_TO_POINT_IN_PLACE || op == POINT_TO_POINT_TIMED_VIEWS
      || op == POINT_TO_POINT_TIMED_IN_PLACE
  }

  predicate IsCallback(op: word) { op == POINT_TO_POINT_CALLBACK || op == POINT_TO_POINT_CALLBACK_IN_PLACE }

  /** One rank's call: what it was given, and how its local steps turn out. `built`, `buffers` and
      the like are the outcomes of local work and allocation, in any combination. */
  datatype ArrayCall =
    | NewPlan(plan: PlanInfo, built: bool, buffers: bool, layout: bool, peers: bool)
    | Execute(execution: ExecuteInfo, built: bool, buffers: bool, prepared: bool, reserved: bool, status: nat)
    | PrepareRemap(remap: RemapInfo, signWords: seq<word>, signsValid: bool, sameTopology: bool, sameShape: bool,
                   built: bool, routes: bool, counts: bool, received: bool, requests: bool, offsets: bool,
                   payload: bool, buffers: bool, datatypeFits: bool)
    | ApplyRemap(n: word, m: word, descriptor: seq<word>, views: bool)
  {
    predicate Valid() {
      match this
      case NewPlan(plan, _, _, _, _) => plan.Valid() && IsNew(plan.operation)
      case Execute(x, _, _, _, _, _) =>
        x.Valid() && (IsAllToAllV(x.operation) || IsPointToPoint(x.operation) || IsCallback(x.operation))
      case PrepareRemap(remap, signWords, signsValid, _, _, _, _, _, _, _, _, _, _, _) =>
        remap.Valid() && |signWords| == remap.n && (signsValid ==> signWords == SignsWords(remap.signs))
      case ApplyRemap(_, _, descriptor, _) => |descriptor| <= USIZE_MAX
    }

    function Operation(): word {
      match this
      case NewPlan(plan, _, _, _, _) => plan.operation
      case Execute(x, _, _, _, _, _) => x.operation
      case PrepareRemap(_, _, _, _, _, _, _, _, _, _, _, _, _, _) => OP_PREPARE
      case ApplyRemap(_, _, _, _) => OP_APPLY
    }
  }

  /** The descriptor length as a header word; a length that does not fit is the invalid word. */
  function LengthWord(len: nat): word { if len <= USIZE_MAX then len else INVALID_AXIS }

  /** The descriptor and both reduction buffers exist, and the doubled length fits MPI's `Count`. */
  predicate Ready(len: nat, built: bool, buffers: bool) {
    len <= USIZE_MAX && built && 2 * len <= COUNT_MAX && buffers
  }

  /** The agreement on a descriptor: a readiness flag, then one reduction over the doubled words. */
  function DescriptorGates(words: seq<word>, built: bool, buffers: bool): seq<Gate<ProtocolError>> {
    var ready := Ready(|words|, built, buffers);
    [Flag(ready, PreparationFailed), Pair(if ready then words else [], DescriptorMismatch)]
  }

  /** The fixed header every operation starts with. */
  function HeaderOf(c: ArrayCall): (header: seq<word>)
    requires c.Valid()
    ensures |header| == HEADER_WORDS
  {
    match c
    case NewPlan(plan, _, _, _, _) => [DESCRIPTOR_SCHEMA, plan.operation, plan.n, plan.m, LengthWord(|plan.Words()|)]
    case Execute(x, _, _, _, _, _) => [DESCRIPTOR_SCHEMA, x.operation, x.n, x.m, LengthWord(|x.Words()|)]
    case PrepareRemap(remap, _, _, _, _, _, _, _, _, _, _, _, _, _) =>
      [DESCRIPTOR_SCHEMA, OP_PREPARE, remap.n, remap.m, 0]
    case ApplyRemap(n, m, descriptor, _) => [DESCRIPTOR_SCHEMA, OP_APPLY, n, m, |descriptor|]
  }

  function GatesOf(c: ArrayCall): seq<Gate<ProtocolError>>
    requires c.Valid()
  {
    [Pair(HeaderOf(c), DescriptorMismatch)] + BodyGates(c)
  }

  function BodyGates(c: ArrayCall): seq<Gate<ProtocolError>>
    requires c.Valid()
  {
    match c
    case NewPlan(plan, built, buffers, layout, peers) =>
      DescriptorGates(plan.Words(), built, buffers) + [Flag(layout, LocalOrPeer), Flag(peers, LocalOrPeer)]
    case Execute(x, built, buffers, prepared, reserved, status) =>
      DescriptorGates(x.Words(), built, buffers) + ExchangeGates(x.operation, prepared, reserved, status)
    case PrepareRemap(_, _, _, _, _, _, _, _, _, _, _, _, _, _) => GeometryGates(c) + PlanGates(c) + RouteGates(c)
    case ApplyRemap(n, m, descriptor, views) =>
      [Chunks(descriptor, WORD_CHUNK, DescriptorMismatch), Flag(views, LocalOrPeer), Transfer(ALL_TO_ALL_V)]
  }

  /** Preflight and, for Alltoallv, the exchange; point-to-point agrees its reservations in the same
      reduction, and a callback reports how it ended. */
  function ExchangeGates(operation: word, prepared: bool, reserved: bool, status: nat): seq<Gate<ProtocolError>> {
    if IsAllToAllV(operation) then [Flag(prepared, LocalOrPeer), Transfer(ALL_TO_ALL_V)]
    else if IsPointToPoint(operation) then [TwoFlags(prepared, reserved, LocalOrPeer, Reservation)]
    else [TwoFlags(prepared, reserved, LocalOrPeer, Reservation), Status(status, CallbackFailed, CallbackPanicked)]
  }

  /** Signs, topology and shape of a remap. */
  function GeometryGates(c: ArrayCall): (gates: seq<Gate<ProtocolError>>)
    requires c.PrepareRemap?
    ensures |gates| == 9
  {
    [Chunks(c.signWords, WORD_CHUNK, DescriptorMismatch), Flag(c.signsValid, LocalOrPeer),
     Flag(c.sameTopology, LocalOrPeer), Flag(c.sameShape, LocalOrPeer),
     Flag(c.remap.m <= COUNT_MAX, LocalOrPeer), Chunks(c.remap.grid, c.remap.m, DifferentTopology),
     Chunks([c.remap.ranks], 1, DifferentTopology),
     Flag(c.remap.n <= COUNT_MAX, LocalOrPeer), Chunks(c.remap.source.shape, c.remap.n, DifferentShape)]
  }

  /** Length and words of the descriptor of a remap, and the payload width it fixes. */
  function PlanGates(c: ArrayCall): (gates: seq<Gate<ProtocolError>>)
    requires c.PrepareRemap? && c.remap.Valid()
    ensures |gates| == 6
  {
    [Flag(c.remap.Length() <= USIZE_MAX, LocalOrPeer), Flag(true, LocalOrPeer),
     Chunks([LengthWord(c.remap.Length())], 1, DescriptorMismatch),
     Flag(c.built, LocalOrPeer), Chunks(c.remap.Words(), WORD_CHUNK, DescriptorMismatch),
     Check(c.remap.width != 0, UnsupportedDatatype)]
  }

  /** Routes, requests and payload of a remap. */
  function RouteGates(c: ArrayCall): (gates: seq<Gate<ProtocolError>>)
    requires c.PrepareRemap?
    ensures |gates| == 10
  {
    [Flag(c.routes, LocalOrPeer), Flag(c.counts, LocalOrPeer), Transfer(ALL_TO_ALL), Flag(c.received, LocalOrPeer),
     Flag(c.requests, LocalOrPeer), Transfer(ALL_TO_ALL_V), Flag(c.offsets, LocalOrPeer), Flag(c.payload, LocalOrPeer),
     Flag(c.buffers, LocalOrPeer), Flag(c.datatypeFits, LocalOrPeer)]
  }

  ghost function AllGates(calls: seq<ArrayCall>): (world: seq<seq<Gate<ProtocolError>>>)
    requires forall i :: 0 <= i < |calls| ==> calls[i].Valid()
    ensures |world| == |calls| && forall i :: 0 <= i < |calls| ==> world[i] == GatesOf(calls[i])
  {
    seq(|calls|, i requires 0 <= i < |calls| => GatesOf(calls[i]))
  }

  /** Equal headers: the same operation on arrays of the same ranks. */
  lemma HeadersAgree(a: ArrayCall, b: ArrayCall)
    requires a.Valid() && b.Valid() && HeaderOf(a) == HeaderOf(b)
    ensures a.Operation() == b.Operation()
    ensures match a
      case NewPlan(p, _, _, _, _) => b.NewPlan? && LengthWord(|p.Words()|) == LengthWord(|b.plan.Words()|)
      case Execute(x, _, _, _, _, _) => b.Execute? && LengthWord(|x.Words()|) == LengthWord(|b.execution.Words()|)
      case PrepareRemap(r, _, _, _, _, _, _, _, _, _, _, _, _, _) =>
        b.PrepareRemap? && r.n == b.remap.n && r.m == b.remap.m
      case ApplyRemap(_, _, descriptor, _) => b.ApplyRemap? && |descriptor| == |b.descriptor|
  {
    hide PlanInfo.Words;
    hide ExecuteInfo.Words;
    var x, y := HeaderOf(a), HeaderOf(b);
    assert x[1] == y[1] && x[2] == y[2] && x[3] == y[3] && x[4] == y[4];
  }

  /** Any two calls, whatever their inputs and local outcomes, stay in step. */
  lemma CallsInStep(a: ArrayCall, b: ArrayCall)
    requires a.Valid() && b.Valid()
    ensures InStep(GatesOf(a), GatesOf(b))
  {
    var f, g := BodyGates(a), BodyGates(b);
    assert GatesOf(a)[1..] == f && GatesOf(b)[1..] == g;
    hide BodyGates;
    if HeaderOf(a) == HeaderOf(b) {
      BodyLength(a, b);
      forall t | 0 <= t < |f| && OpenBefore(f, g, t) ensures Matches(f[t], g[t]) {
        BodyGateMatches(a, b, t);
      }
      InStepByIndex(f, g);
    }
  }

  lemma BodyLength(a: ArrayCall, b: ArrayCall)
    requires a.Valid() && b.Valid() && HeaderOf(a) == HeaderOf(b)
    ensures |BodyGates(a)| == |BodyGates(b)|
  {
    HeadersAgree(a, b);
    hide PlanInfo.Words;
    hide ExecuteInfo.Words;
    hide GeometryGates;
    hide PlanGates;
    hide RouteGates;
  }

  lemma BodyGateMatches(a: ArrayCall, b: ArrayCall, t: nat)
    requires a.Valid() && b.Valid() && HeaderOf(a) == HeaderOf(b)
    requires t < |BodyGates(a)| == |BodyGates(b)| && OpenBefore(BodyGates(a), BodyGates(b), t)
    ensures Matches(BodyGates(a)[t], BodyGates(b)[t])
  {
    HeadersAgree(a, b);
    hide PlanInfo.Words;
    hide ExecuteInfo.Words;
    hide GeometryGates;
    hide PlanGates;
    hide RouteGates;
    if a.PrepareRemap? {
      RemapGateMatches(a, b, t);
    } else if (a.NewPlan? || a.Execute?) && t == 1 {
      assert OpensForBoth(BodyGates(a)[0], BodyGates(b)[0]);
    }
  }

  lemma RemapGateMatches(a: ArrayCall, b: ArrayCall, t: nat)
    requires a.Valid() && b.Valid() && a.PrepareRemap? && b.PrepareRemap? && a.remap.n == b.remap.n
      && a.remap.m == b.remap.m
    requires t < |BodyGates(a)| == |BodyGates(b)| && OpenBefore(BodyGates(a), BodyGates(b), t)
    ensures Matches(BodyGates(a)[t], BodyGates(b)[t])
  {
    hide RemapInfo.Valid;
    hide GeometryGates;
    hide PlanGates;
    hide RouteGates;
    if t < 9 {
      GeometryGateMatches(a, b, t);
    } else if t < 15 {
      forall u | 0 <= u < t - 9 ensures OpensForBoth(PlanGates(a)[u], PlanGates(b)[u]) {
        assert OpensForBoth(BodyGates(a)[u + 9], BodyGates(b)[u + 9]);
      }
      PlanGateMatches(a, b, t - 9);
    } else {
      RouteGateMatches(a, b, t - 15);
    }
  }

  lemma GeometryGateMatches(a: ArrayCall, b: ArrayCall, t: nat)
    requires a.PrepareRemap? && b.PrepareRemap? && a.Valid() && b.Valid()
    requires a.remap.n == b.remap.n && a.remap.m == b.remap.m && t < 9
    ensures Matches(GeometryGates(a)[t], GeometryGates(b)[t])
  {
  }

  lemma RouteGateMatches(a: ArrayCall, b: ArrayCall, t: nat)
    requires a.PrepareRemap? && b.PrepareRemap? && t < 10
    ensures Matches(RouteGates(a)[t], RouteGates(b)[t])
  {
    if t == 2 || t == 5 {
      assert RouteGates(a)[t] == RouteGates(b)[t];
    } else {
      assert RouteGates(a)[t].Flag? && RouteGates(b)[t].Flag?;
    }
  }

  /** The descriptors have one length because their lengths were agreed, and the payload width is
      the same because the descriptors were. */
  lemma PlanGateMatches(a: ArrayCall, b: ArrayCall, t: nat)
    requires a.PrepareRemap? && b.PrepareRemap? && a.remap.Valid() && b.remap.Valid() && t < 6
    requires forall u :: 0 <= u < t ==> OpensForBoth(PlanGates(a)[u], PlanGates(b)[u])
    ensures Matches(PlanGates(a)[t], PlanGates(b)[t])
  {
    hide RemapInfo.Words;
    hide RemapInfo.Length;
    hide RemapInfo.Valid;
    if t == 4 {
      assert OpensForBoth(PlanGates(a)[0], PlanGates(b)[0]) && OpensForBoth(PlanGates(a)[2], PlanGates(b)[2]);
      SameDescriptorLength(a.remap, b.remap);
    } else if t == 5 {
      assert OpensForBoth(PlanGates(a)[4], PlanGates(b)[4]);
      RemapDescriptorInjective(a.remap, b.remap);
    }
  }

  lemma SameDescriptorLength(a: RemapInfo, b: RemapInfo)
    requires a.Valid() && b.Valid() && a.Length() <= USIZE_MAX && b.Length() <= USIZE_MAX
    requires [LengthWord(a.Length())] == [LengthWord(b.Length())]
    ensures |a.Words()| == |b.Words()|
  {
    RemapDescriptorLength(a);
    RemapDescriptorLength(b);
    assert [LengthWord(a.Length())][0] == [LengthWord(b.Length())][0];
  }
}
