/** The point-to-point exchange as steps of a line of ranks. */
module PointToPoint {
  // Post receives, post sends, wait for the receives, wait for the sends. Messages match by source and tag
  // (section 3.5 of MPI-3.1), and a matched pair completes on its own (section 3.7.4).

  import opened MachineInts
  import opened Nonlinear
  import opened MixedRadix
  import opened Pencil
  import opened Segments
  import opened Plans
  import opened Transposes
  import opened TransposeWorlds

  /** One line of ranks: `counts[i][j]` elements go from member `i` to member `j`. */
  datatype Line<T> = Line(counts: seq<seq<nat>>, skipSelf: bool, sent: seq<seq<T>>) {
    function Size(): nat { |counts| }

    /** What member `j` receives from each member. */
    function Column(j: nat): (column: seq<nat>)
      requires j < Size() && forall i :: 0 <= i < Size() ==> |counts[i]| == Size()
      ensures |column| == Size() && forall i :: 0 <= i < Size() ==> column[i] == counts[i][j]
    {
      seq(Size(), i requires 0 <= i < Size() => counts[i][j])
    }

    /** Segments lie one after the other and fit the buffers. */
    ghost predicate Valid(before: seq<seq<T>>) {
      && |sent| == |before| == Size() && (forall i :: 0 <= i < Size() ==> |counts[i]| == Size())
      && (forall i :: 0 <= i < Size() ==> PrefixSum(counts[i], Size()) <= |sent[i]|)
      && (forall j :: 0 <= j < Size() ==> PrefixSum(Column(j), Size()) <= |before[j]|)
    }

    /** A message is sent exactly for nonempty segments, and to oneself only if that is not skipped. */
    predicate Link(i: nat, j: nat)
      requires i < Size() && j < |counts[i]|
    {
      0 < counts[i][j] && !(skipSelf && i == j)
    }
  }

  /** A posted request: the peer, and the segment of the buffer. */
  datatype Posted = Posted(peer: nat, start: nat, count: nat)

  /** The requests of one side, for the first `n` peers: one for every nonempty segment that is not
      skipped, at the place all segments before it leave. */
  ghost function Requests(lens: seq<nat>, skip: Option<nat>, n: nat): (requests: seq<Posted>)
    requires n <= |lens|
  {
    if n == 0 then []
    else
      Requests(lens, skip, n - 1)
      + if 0 < lens[n - 1] && skip != Some(n - 1) then [Posted(n - 1, PrefixSum(lens, n - 1), lens[n - 1])] else []
  }

  lemma {:induction false} RequestsAre(lens: seq<nat>, skip: Option<nat>, n: nat)
    requires n <= |lens|
    ensures forall k :: 0 <= k < |Requests(lens, skip, n)| ==> IsRequest(lens, skip, n, Requests(lens, skip, n)[k])
  {
    if n != 0 {
      RequestsAre(lens, skip, n - 1);
      var before := Requests(lens, skip, n - 1);
      forall k | 0 <= k < |before| ensures IsRequest(lens, skip, n, before[k]) {
        assert IsRequest(lens, skip, n - 1, before[k]);
      }
    }
  }

  ghost predicate IsRequest(lens: seq<nat>, skip: Option<nat>, n: nat, r: Posted)
    requires n <= |lens|
  {
    r.peer < n && skip != Some(r.peer) && 0 < lens[r.peer] && r.count == lens[r.peer]
      && r.start == PrefixSum(lens, r.peer)
  }

  lemma {:induction false} RequestExists(lens: seq<nat>, skip: Option<nat>, n: nat, q: nat) returns (k: nat)
    requires q < n <= |lens| && 0 < lens[q] && skip != Some(q)
    ensures k < |Requests(lens, skip, n)| && Requests(lens, skip, n)[k].peer == q
    decreases n
  {
    if q == n - 1 {
      k := |Requests(lens, skip, n - 1)|;
    } else {
      k := RequestExists(lens, skip, n - 1, q);
    }
  }

  /** The posting loop of one side. Empty segments are passed over; the segment of a skipped peer is
      split off without a request, so the segments after it keep their places. */
  method PostSegments(lens: seq<nat>, skip: Option<nat>, bufferLen: nat) returns (requests: seq<Posted>)
    requires PrefixSum(lens, |lens|) <= bufferLen
    ensures requests == Requests(lens, skip, |lens|)
  {
    requests := [];
    var taken, tail := 0, bufferLen;
    for q := 0 to |lens|
      invariant taken == PrefixSum(lens, q) && taken + tail == bufferLen
      invariant requests == Requests(lens, skip, q)
    {
      var count := lens[q];
      if count == 0 {
        continue;
      }
      PrefixSumMonotone(lens, q, |lens|);
      assert count <= tail;
      var start := taken;
      taken, tail := taken + count, tail - count;
      if skip == Some(q) {
        continue;
      }
      requests := requests + [Posted(q, start, count)];
    }
  }

  // ----- Steps

  /** `pc[i]` counts the tasks member `i` has finished: its receives and sends in posting order, then
      a wait for each receive and for each send. `done` holds the completed messages. */
  datatype State<T> = State(pc: seq<nat>, done: set<(nat, nat)>, received: seq<seq<T>>)

  datatype Action = Advance(rank: nat) | Deliver(from: nat, to: nat)

  function SkipOf<T>(line: Line<T>, i: nat): Option<nat> { if line.skipSelf then Some(i) else None }

  ghost predicate Square<T>(line: Line<T>) {
    forall i :: 0 <= i < line.Size() ==> |line.counts[i]| == line.Size()
  }

  ghost function ReceivesOf<T>(line: Line<T>, j: nat): seq<Posted>
    requires Square(line) && j < line.Size()
  {
    Requests(line.Column(j), SkipOf(line, j), line.Size())
  }

  ghost function SendsOf<T>(line: Line<T>, i: nat): seq<Posted>
    requires Square(line) && i < line.Size()
  {
    Requests(line.counts[i], SkipOf(line, i), line.Size())
  }

  ghost function TaskCount<T>(line: Line<T>, i: nat): nat
    requires Square(line) && i < line.Size()
  {
    2 * |ReceivesOf(line, i)| + 2 * |SendsOf(line, i)|
  }

  ghost predicate ReceivePosted<T>(line: Line<T>, s: State<T>, i: nat, j: nat)
    requires Square(line) && j < line.Size() && |s.pc| == line.Size()
  {
    exists k :: 0 <= k < |ReceivesOf(line, j)| && ReceivesOf(line, j)[k].peer == i && k < s.pc[j]
  }

  ghost predicate SendPosted<T>(line: Line<T>, s: State<T>, i: nat, j: nat)
    requires Square(line) && i < line.Size() && |s.pc| == line.Size()
  {
    exists k :: 0 <= k < |SendsOf(line, i)| && SendsOf(line, i)[k].peer == j && |ReceivesOf(line, i)| + k < s.pc[i]
  }

  /** The message the next task of member `i` waits for; nothing if it posts a request instead. */
  ghost function Awaited<T>(line: Line<T>, i: nat, pc: nat): Option<(nat, nat)>
    requires Square(line) && i < line.Size() && pc < TaskCount(line, i)
  {
    var r, s := ReceivesOf(line, i), SendsOf(line, i);
    if pc < |r| + |s| then None
    else if pc < 2 * |r| + |s| then Some((r[pc - |r| - |s|].peer, i))
    else Some((i, s[pc - 2 * |r| - |s|].peer))
  }

  ghost predicate Enabled<T>(line: Line<T>, s: State<T>, a: Action)
    requires Square(line) && |s.pc| == line.Size()
  {
    match a
    case Advance(i) =>
      i < line.Size() && s.pc[i] < TaskCount(line, i)
      && (Awaited(line, i, s.pc[i]).Some? ==> Awaited(line, i, s.pc[i]).value in s.done)
    case Deliver(i, j) =>
      i < line.Size() && j < line.Size() && (i, j) !in s.done && SendPosted(line, s, i, j)
        && ReceivePosted(line, s, i, j)
  }

  ghost function Apply<T>(line: Line<T>, before: seq<seq<T>>, s: State<T>, a: Action): State<T>
    requires line.Valid(before) && |s.pc| == |s.received| == line.Size() && Square(line) && Enabled(line, s, a)
    requires forall j :: 0 <= j < line.Size() ==> |s.received[j]| == |before[j]|
  {
    match a
    case Advance(i) => s.(pc := s.pc[i := s.pc[i] + 1])
    case Deliver(i, j) =>
      s.(done := s.done + {(i, j)}, received := s.received[j := Overwritten(line, before, s.received[j], i, j)])
  }

  /** Where the message from `i` to `j` starts at each end. */
  function SendStart<T>(line: Line<T>, i: nat, j: nat): nat
    requires i < line.Size() && j <= |line.counts[i]|
  {
    PrefixSum(line.counts[i], j)
  }

  ghost function ReceiveStart<T>(line: Line<T>, i: nat, j: nat): nat
    requires Square(line) && i < line.Size() && j < line.Size()
  {
    PrefixSum(line.Column(j), i)
  }

  lemma MessageFits<T>(line: Line<T>, before: seq<seq<T>>, i: nat, j: nat)
    requires line.Valid(before) && i < line.Size() && j < line.Size()
    ensures SendStart(line, i, j) + line.counts[i][j] <= |line.sent[i]|
    ensures ReceiveStart(line, i, j) + line.counts[i][j] <= |before[j]|
  {
    PrefixSumMonotone(line.counts[i], j, line.Size());
    PrefixSumMonotone(line.Column(j), i, line.Size());
  }

  ghost function Overwritten<T>(line: Line<T>, before: seq<seq<T>>, buffer: seq<T>, i: nat, j: nat): (after: seq<T>)
    requires line.Valid(before) && i < line.Size() && j < line.Size() && |buffer| == |before[j]|
    ensures |after| == |buffer|
  {
    MessageFits(line, before, i, j);
    var at, from, n := ReceiveStart(line, i, j), SendStart(line, i, j), line.counts[i][j];
    seq(|buffer|, x requires 0 <= x < |buffer| => if at <= x < at + n then line.sent[i][from + (x - at)] else buffer[x])
  }

  // ----- What every step keeps

  ghost predicate Inv<T>(line: Line<T>, before: seq<seq<T>>, s: State<T>)
    requires line.Valid(before) && Square(line)
  {
    && |s.pc| == |s.received| == line.Size()
    && (forall i :: 0 <= i < line.Size() ==> s.pc[i] <= TaskCount(line, i))
    && (forall m :: m in s.done ==> IsPosted(line, s, m))
    && (forall i, t :: 0 <= i < line.Size() && 0 <= t < s.pc[i] ==> WaitedFor(line, s, i, t))
    && (forall j :: 0 <= j < line.Size() ==> BufferRight(line, before, s.done, j, s.received[j]))
  }

  ghost predicate IsPosted<T>(line: Line<T>, s: State<T>, m: (nat, nat))
    requires Square(line) && |s.pc| == line.Size()
  {
    && m.0 < line.Size() && m.1 < line.Size() && line.Link(m.0, m.1)
    && SendPosted(line, s, m.0, m.1) && ReceivePosted(line, s, m.0, m.1)
  }

  /** A wait that is over was for a completed message. */
  ghost predicate WaitedFor<T>(line: Line<T>, s: State<T>, i: nat, t: nat)
    requires Square(line) && i < line.Size()
  {
    t < TaskCount(line, i) && (Awaited(line, i, t).Some? ==> Awaited(line, i, t).value in s.done)
  }

  /** The segments of completed messages hold what was sent; all other cells hold what they did. */
  ghost predicate BufferRight<T>(line: Line<T>, before: seq<seq<T>>, done: set<(nat, nat)>, j: nat, buffer: seq<T>)
    requires line.Valid(before) && Square(line) && j < line.Size()
  {
    && |buffer| == |before[j]|
    && (forall i :: 0 <= i < line.Size() && (i, j) in done ==> Arrived(line, before, i, j, buffer))
    && forall x :: 0 <= x < |buffer| && !InDone(line, done, j, x) ==> buffer[x] == before[j][x]
  }

  ghost predicate Arrived<T>(line: Line<T>, before: seq<seq<T>>, i: nat, j: nat, buffer: seq<T>)
    requires line.Valid(before) && Square(line) && i < line.Size() && j < line.Size() && |buffer| == |before[j]|
  {
    MessageFits(line, before, i, j);
    var at, from, n := ReceiveStart(line, i, j), SendStart(line, i, j), line.counts[i][j];
    buffer[at..at + n] == line.sent[i][from..from + n]
  }

  ghost predicate InDone<T>(line: Line<T>, done: set<(nat, nat)>, j: nat, x: nat)
    requires Square(line) && j < line.Size()
  {
    exists i :: 0 <= i < line.Size() && (i, j) in done && InSegment(line, i, j, x)
  }

  ghost predicate InSegment<T>(line: Line<T>, i: nat, j: nat, x: nat)
    requires Square(line) && i < line.Size() && j < line.Size()
  {
    ReceiveStart(line, i, j) <= x < ReceiveStart(line, i, j) + line.counts[i][j]
  }

  function Initial<T>(line: Line<T>, before: seq<seq<T>>): State<T> {
    State(seq(line.Size(), i => 0), {}, before)
  }

  lemma InitialInv<T>(line: Line<T>, before: seq<seq<T>>)
    requires line.Valid(before)
    ensures Square(line) && Inv(line, before, Initial(line, before))
  {
  }

  /** Requests exist exactly for links, at both ends. */
  lemma RequestsMatchLinks<T>(line: Line<T>, i: nat, j: nat)
    requires Square(line) && i < line.Size() && j < line.Size()
    ensures line.Link(i, j) <==> exists k :: 0 <= k < |ReceivesOf(line, j)| && ReceivesOf(line, j)[k].peer == i
    ensures line.Link(i, j) <==> exists k :: 0 <= k < |SendsOf(line, i)| && SendsOf(line, i)[k].peer == j
  {
    var r, s := ReceivesOf(line, j), SendsOf(line, i);
    RequestsAre(line.Column(j), SkipOf(line, j), line.Size());
    RequestsAre(line.counts[i], SkipOf(line, i), line.Size());
    if line.Link(i, j) {
      var k := RequestExists(line.Column(j), SkipOf(line, j), line.Size(), i);
      var l := RequestExists(line.counts[i], SkipOf(line, i), line.Size(), j);
      assert r[k].peer == i && s[l].peer == j;
    }
    if k :| 0 <= k < |r| && r[k].peer == i {
      assert IsRequest(line.Column(j), SkipOf(line, j), line.Size(), r[k]);
    }
    if k :| 0 <= k < |s| && s[k].peer == j {
      assert IsRequest(line.counts[i], SkipOf(line, i), line.Size(), s[k]);
    }
  }

  /** Different messages to one member use separate segments. */
  lemma SegmentsSeparate<T>(line: Line<T>, i: nat, k: nat, j: nat, x: nat)
    requires Square(line) && i < line.Size() && k < line.Size() && j < line.Size() && i != k
    ensures !(InSegment(line, i, j, x) && InSegment(line, k, j, x))
  {
    if i < k {
      PrefixSumMonotone(line.Column(j), i, k);
    } else {
      PrefixSumMonotone(line.Column(j), k, i);
    }
  }

  /** Delivering a message changes its own segment only. */
  lemma DeliverKeepsBuffer<T>(line: Line<T>, before: seq<seq<T>>, done: set<(nat, nat)>, buffer: seq<T>, i: nat, j: nat)
    requires line.Valid(before) && Square(line) && i < line.Size() && j < line.Size()
      && BufferRight(line, before, done, j, buffer)
    ensures BufferRight(line, before, done + {(i, j)}, j, Overwritten(line, before, buffer, i, j))
  {
    var after := Overwritten(line, before, buffer, i, j);
    MessageFits(line, before, i, j);
    forall k | 0 <= k < line.Size() && (k, j) in done + {(i, j)} ensures Arrived(line, before, k, j, after) {
      MessageFits(line, before, k, j);
      var at, n := ReceiveStart(line, k, j), line.counts[k][j];
      if k != i {
        assert Arrived(line, before, k, j, buffer);
        forall x | at <= x < at + n ensures after[x] == buffer[x] {
          SegmentsSeparate(line, i, k, j, x);
        }
        assert after[at..at + n] == buffer[at..at + n];
      }
    }
    forall x | 0 <= x < |after| && !InDone(line, done + {(i, j)}, j, x) ensures after[x] == before[j][x] {
      assert (i, j) in done + {(i, j)};
      assert !InSegment(line, i, j, x);
      assert !InDone(line, done, j, x);
    }
  }

  /** Every step of every rank and every delivery keeps the invariant. */
  lemma InvStep<T>(line: Line<T>, before: seq<seq<T>>, s: State<T>, a: Action)
    requires line.Valid(before) && Square(line) && Inv(line, before, s) && Enabled(line, s, a)
    ensures forall j :: 0 <= j < line.Size() ==> |s.received[j]| == |before[j]|
    ensures Inv(line, before, Apply(line, before, s, a))
  {
    forall j | 0 <= j < line.Size() ensures |s.received[j]| == |before[j]| {
      assert BufferRight(line, before, s.done, j, s.received[j]);
    }
    var t := Apply(line, before, s, a);
    hide BufferRight;
    forall m | m in t.done ensures IsPosted(line, t, m) {
      PostedStays(line, before, s, a, m);
    }
    forall i, u | 0 <= i < line.Size() && 0 <= u < t.pc[i] ensures WaitedFor(line, t, i, u) {
      if u < s.pc[i] {
        assert WaitedFor(line, s, i, u);
      }
    }
    forall j | 0 <= j < line.Size() ensures BufferRight(line, before, t.done, j, t.received[j]) {
      assert BufferRight(line, before, s.done, j, s.received[j]);
      if a.Deliver? {
        if a.to == j {
          DeliverKeepsBuffer(line, before, s.done, s.received[j], a.from, j);
        } else {
          OtherBuffer(line, before, s.done, (a.from, a.to), j, s.received[j]);
        }
      }
    }
  }

  lemma OtherBuffer<T>(line: Line<T>, before: seq<seq<T>>, done: set<(nat, nat)>, m: (nat, nat), j: nat, buffer: seq<T>)
    requires line.Valid(before) && Square(line) && j < line.Size() && m.1 != j
      && BufferRight(line, before, done, j, buffer)
    ensures BufferRight(line, before, done + {m}, j, buffer)
  {
    forall x | 0 <= x < |buffer| && InDone(line, done, j, x) ensures InDone(line, done + {m}, j, x) {
      var i :| 0 <= i < line.Size() && (i, j) in done && InSegment(line, i, j, x);
      assert (i, j) in done + {m};
    }
  }

  lemma PostedStays<T>(line: Line<T>, before: seq<seq<T>>, s: State<T>, a: Action, m: (nat, nat))
    requires line.Valid(before) && Square(line) && Inv(line, before, s) && Enabled(line, s, a)
    requires forall j :: 0 <= j < line.Size() ==> |s.received[j]| == |before[j]|
    requires m in Apply(line, before, s, a).done
    ensures IsPosted(line, Apply(line, before, s, a), m)
  {
    var t := Apply(line, before, s, a);
    if m in s.done {
      assert IsPosted(line, s, m);
    } else {
      RequestsMatchLinks(line, m.0, m.1);
    }
    var k :| 0 <= k < |ReceivesOf(line, m.1)| && ReceivesOf(line, m.1)[k].peer == m.0 && k < s.pc[m.1];
    var l :| 0 <= l < |SendsOf(line, m.0)| && SendsOf(line, m.0)[l].peer == m.1
      && |ReceivesOf(line, m.0)| + l < s.pc[m.0];
    assert k < t.pc[m.1] && |ReceivesOf(line, m.0)| + l < t.pc[m.0];
  }

  ghost predicate Finished<T>(line: Line<T>, s: State<T>)
    requires Square(line)
  {
    |s.pc| == line.Size() && forall i :: 0 <= i < line.Size() ==> s.pc[i] == TaskCount(line, i)
  }

  /** The state after a step. */
  ghost function After<T>(line: Line<T>, before: seq<seq<T>>, s: State<T>, a: Action): (t: State<T>)
    requires line.Valid(before) && Square(line) && Inv(line, before, s) && Enabled(line, s, a)
    ensures Inv(line, before, t)
  {
    InvStep(line, before, s, a);
    Apply(line, before, s, a)
  }

  /** Every interleaving can go on until all ranks have finished. */
  lemma Progress<T>(line: Line<T>, before: seq<seq<T>>, s: State<T>) returns (a: Action)
    requires line.Valid(before) && Square(line) && Inv(line, before, s) && !Finished(line, s)
    ensures Enabled(line, s, a)
  {
    if i :| 0 <= i < line.Size() && s.pc[i] < |ReceivesOf(line, i)| + |SendsOf(line, i)| {
      return Advance(i);
    }
    var i :| 0 <= i < line.Size() && s.pc[i] != TaskCount(line, i);
    var m := Awaited(line, i, s.pc[i]).value;
    if m in s.done {
      return Advance(i);
    }
    AwaitedIsLink(line, i, s.pc[i]);
    RequestsMatchLinks(line, m.0, m.1);
    var k :| 0 <= k < |ReceivesOf(line, m.1)| && ReceivesOf(line, m.1)[k].peer == m.0;
    var l :| 0 <= l < |SendsOf(line, m.0)| && SendsOf(line, m.0)[l].peer == m.1;
    assert ReceivePosted(line, s, m.0, m.1) && SendPosted(line, s, m.0, m.1);
    return Deliver(m.0, m.1);
  }

  lemma AwaitedIsLink<T>(line: Line<T>, i: nat, pc: nat)
    requires Square(line) && i < line.Size() && pc < TaskCount(line, i) && Awaited(line, i, pc).Some?
    ensures var m := Awaited(line, i, pc).value; m.0 < line.Size() && m.1 < line.Size() && line.Link(m.0, m.1)
  {
    var r, s := ReceivesOf(line, i), SendsOf(line, i);
    RequestsAre(line.Column(i), SkipOf(line, i), line.Size());
    RequestsAre(line.counts[i], SkipOf(line, i), line.Size());
    if pc < 2 * |r| + |s| {
      assert IsRequest(line.Column(i), SkipOf(line, i), line.Size(), r[pc - |r| - |s|]);
    } else {
      assert IsRequest(line.counts[i], SkipOf(line, i), line.Size(), s[pc - 2 * |r| - |s|]);
    }
  }

  // ----- Runs

  ghost function Links<T>(line: Line<T>): (links: set<(nat, nat)>)
    requires Square(line)
  {
    set i: nat, j: nat | i < line.Size() && j < line.Size() && line.Link(i, j) :: (i, j)
  }

  ghost function TasksLeft<T>(line: Line<T>, pc: seq<nat>, n: nat): int
    requires Square(line) && n <= |pc| == line.Size()
  {
    if n == 0 then 0 else TasksLeft(line, pc, n - 1) + TaskCount(line, n - 1) - pc[n - 1]
  }

  /** Tasks not finished plus messages not delivered. */
  ghost function Measure<T>(line: Line<T>, s: State<T>): int
    requires Square(line) && |s.pc| == line.Size()
  {
    TasksLeft(line, s.pc, line.Size()) + |Links(line) - s.done|
  }

  lemma {:induction false} TasksLeftStep<T>(line: Line<T>, pc: seq<nat>, i: nat, n: nat)
    requires Square(line) && n <= |pc| == line.Size() && i < |pc|
    ensures TasksLeft(line, pc[i := pc[i] + 1], n) == TasksLeft(line, pc, n) - if i < n then 1 else 0
  {
    if n != 0 {
      TasksLeftStep(line, pc, i, n - 1);
    }
  }

  lemma {:induction false} TasksLeftBound<T>(line: Line<T>, pc: seq<nat>, n: nat)
    requires Square(line) && n <= |pc| == line.Size() && forall i :: 0 <= i < n ==> pc[i] <= TaskCount(line, i)
    ensures 0 <= TasksLeft(line, pc, n)
  {
    if n != 0 {
      TasksLeftBound(line, pc, n - 1);
    }
  }

  /** Every step uses up one task or one message, so no run goes on forever. */
  lemma MeasureDecreases<T>(line: Line<T>, before: seq<seq<T>>, s: State<T>, a: Action)
    requires line.Valid(before) && Square(line) && Inv(line, before, s) && Enabled(line, s, a)
    ensures Measure(line, After(line, before, s, a)) == Measure(line, s) - 1
  {
    hide Inv;
    hide After;
    hide Enabled;
    hide TasksLeft;
    hide Links;
    StepShape(line, before, s, a);
    match a {
      case Advance(i) => TasksLeftStep(line, s.pc, i, line.Size());
      case Deliver(i, j) => DeliverMeasure(line, s, i, j);
    }
  }

  lemma StepShape<T>(line: Line<T>, before: seq<seq<T>>, s: State<T>, a: Action)
    requires line.Valid(before) && Square(line) && Inv(line, before, s) && Enabled(line, s, a)
    ensures |s.pc| == line.Size()
    ensures var t := After(line, before, s, a);
      match a
      case Advance(i) => i < line.Size() && t.pc == s.pc[i := s.pc[i] + 1] && t.done == s.done
      case Deliver(i, j) => i < line.Size() && j < line.Size() && t.pc == s.pc && t.done == s.done + {(i, j)}
  {
    hide BufferRight;
    hide WaitedFor;
    hide IsPosted;
  }

  lemma DeliverMeasure<T>(line: Line<T>, s: State<T>, i: nat, j: nat)
    requires Square(line) && |s.pc| == line.Size() && Enabled(line, s, Deliver(i, j))
    ensures |Links(line) - (s.done + {(i, j)})| == |Links(line) - s.done| - 1
  {
    RequestsMatchLinks(line, i, j);
    assert (i, j) in Links(line) - s.done;
    assert Links(line) - (s.done + {(i, j)}) == Links(line) - s.done - {(i, j)};
  }

  /** `actions` leads from `s` to `t`. */
  ghost predicate Run<T>(line: Line<T>, before: seq<seq<T>>, s: State<T>, actions: seq<Action>, t: State<T>)
    requires line.Valid(before) && Square(line)
    decreases |actions|
  {
    if actions == [] then s == t
    else
      && Inv(line, before, s) && Enabled(line, s, actions[0])
      && Run(line, before, After(line, before, s, actions[0]), actions[1..], t)
  }

  /** Every run keeps the invariant and has as many steps as the measure has lost. */
  lemma {:induction false} RunKeepsInv<T>(line: Line<T>, before: seq<seq<T>>, s: State<T>, actions: seq<Action>,
                                          t: State<T>)
    requires line.Valid(before) && Square(line) && Inv(line, before, s) && Run(line, before, s, actions, t)
    ensures Inv(line, before, t) && Measure(line, t) + |actions| == Measure(line, s)
    decreases |actions|
  {
    if actions != [] {
      MeasureDecreases(line, before, s, actions[0]);
      RunKeepsInv(line, before, After(line, before, s, actions[0]), actions[1..], t);
    }
  }

  /** From every reachable state the exchange can be finished, whatever was done so far. */
  lemma {:induction false} CanFinish<T>(line: Line<T>, before: seq<seq<T>>, s: State<T>)
    returns (actions: seq<Action>, t: State<T>)
    requires line.Valid(before) && Square(line) && Inv(line, before, s)
    ensures Run(line, before, s, actions, t) && Finished(line, t)
    decreases Measure(line, s)
  {
    hide Inv;
    hide Enabled;
    hide Finished;
    hide Measure;
    hide After;
    hide Line.Valid;
    hide Run;
    MeasureIsNatural(line, before, s);
    if Finished(line, s) {
      EmptyRun(line, before, s);
      return [], s;
    }
    var a := Progress(line, before, s);
    MeasureDecreases(line, before, s, a);
    actions, t := CanFinish(line, before, After(line, before, s, a));
    LongerRun(line, before, s, a, actions, t);
    actions := [a] + actions;
  }

  lemma EmptyRun<T>(line: Line<T>, before: seq<seq<T>>, s: State<T>)
    requires line.Valid(before) && Square(line)
    ensures Run(line, before, s, [], s)
  {
  }

  lemma LongerRun<T>(line: Line<T>, before: seq<seq<T>>, s: State<T>, a: Action, actions: seq<Action>, t: State<T>)
    requires line.Valid(before) && Square(line) && Inv(line, before, s) && Enabled(line, s, a)
    requires Run(line, before, After(line, before, s, a), actions, t)
    ensures Run(line, before, s, [a] + actions, t)
  {
    hide Inv;
    hide Enabled;
    hide After;
    assert ([a] + actions)[1..] == actions;
  }

  lemma MeasureIsNatural<T>(line: Line<T>, before: seq<seq<T>>, s: State<T>)
    requires line.Valid(before) && Square(line) && Inv(line, before, s)
    ensures |s.pc| == line.Size() && 0 <= Measure(line, s)
  {
    hide BufferRight;
    hide IsPosted;
    hide WaitedFor;
    TasksLeftBound(line, s.pc, line.Size());
  }

  /** Member `j` has waited for all its receives; its sends, and other ranks, may still be at work. */
  ghost predicate ReceivesDone<T>(line: Line<T>, s: State<T>, j: nat)
    requires Square(line) && j < line.Size()
  {
    |s.pc| == line.Size() && 2 * |ReceivesOf(line, j)| + |SendsOf(line, j)| <= s.pc[j]
  }

  /** Then every message to `j` has arrived. */
  lemma AllArrived<T>(line: Line<T>, before: seq<seq<T>>, s: State<T>, i: nat, j: nat)
    requires line.Valid(before) && Square(line) && Inv(line, before, s) && i < line.Size() && j < line.Size()
    requires ReceivesDone(line, s, j)
    ensures (i, j) in s.done <==> line.Link(i, j)
  {
    if (i, j) in s.done {
      assert IsPosted(line, s, (i, j));
    }
    if line.Link(i, j) {
      RequestsMatchLinks(line, i, j);
      var k :| 0 <= k < |ReceivesOf(line, j)| && ReceivesOf(line, j)[k].peer == i;
      assert WaitedFor(line, s, j, |ReceivesOf(line, j)| + |SendsOf(line, j)| + k);
    }
  }

  /** A rank may use its receive buffer as soon as its receive waits are over: nothing that happens later
      changes it. */
  lemma ReceivedIsFinal<T>(line: Line<T>, before: seq<seq<T>>, s: State<T>, j: nat, actions: seq<Action>, t: State<T>)
    requires line.Valid(before) && Square(line) && Inv(line, before, s) && j < line.Size() && ReceivesDone(line, s, j)
    requires Run(line, before, s, actions, t)
    ensures |s.received| == |t.received| == line.Size() && s.received[j] == t.received[j]
  {
    hide BufferRight;
    RunKeepsInv(line, before, s, actions, t);
    RunAdvances(line, before, s, actions, t, j);
    BufferOfLinks(line, before, s, j);
    BufferOfLinks(line, before, t, j);
    SameBuffer(line, before, j, s.received[j], t.received[j]);
  }

  lemma {:induction false} RunAdvances<T>(line: Line<T>, before: seq<seq<T>>, s: State<T>, actions: seq<Action>,
                                          t: State<T>, j: nat)
    requires line.Valid(before) && Square(line) && Inv(line, before, s) && Run(line, before, s, actions, t)
      && j < line.Size()
    ensures |s.pc| == |t.pc| == line.Size() && s.pc[j] <= t.pc[j]
    decreases |actions|
  {
    if actions != [] {
      StepShape(line, before, s, actions[0]);
      hide After;
      hide Enabled;
      RunAdvances(line, before, After(line, before, s, actions[0]), actions[1..], t, j);
    }
  }

  lemma BufferOfLinks<T>(line: Line<T>, before: seq<seq<T>>, s: State<T>, j: nat)
    requires line.Valid(before) && Square(line) && Inv(line, before, s) && j < line.Size() && ReceivesDone(line, s, j)
    ensures BufferRight(line, before, Links(line), j, s.received[j])
  {
    assert BufferRight(line, before, s.done, j, s.received[j]);
    forall i | 0 <= i < line.Size() ensures (i, j) in s.done <==> (i, j) in Links(line) {
      AllArrived(line, before, s, i, j);
    }
    SameArrivals(line, before, s.done, Links(line), j, s.received[j]);
  }

  lemma SameArrivals<T>(line: Line<T>, before: seq<seq<T>>, a: set<(nat, nat)>, b: set<(nat, nat)>, j: nat,
                        buffer: seq<T>)
    requires line.Valid(before) && Square(line) && j < line.Size() && BufferRight(line, before, a, j, buffer)
    requires forall i :: 0 <= i < line.Size() ==> ((i, j) in a <==> (i, j) in b)
    ensures BufferRight(line, before, b, j, buffer)
  {
    hide Arrived;
    hide InSegment;
    forall x | 0 <= x < |buffer| && !InDone(line, b, j, x) ensures buffer[x] == before[j][x] {
      assert !InDone(line, a, j, x);
    }
  }

  /** When all ranks have finished, every message has arrived exactly once. */
  lemma FinishedIsDone<T>(line: Line<T>, before: seq<seq<T>>, s: State<T>)
    requires line.Valid(before) && Square(line) && Inv(line, before, s) && Finished(line, s)
    ensures s.done == Links(line)
  {
    forall m | m in s.done ensures m in Links(line) {
      assert IsPosted(line, s, m);
    }
    forall m | m in Links(line) ensures m in s.done {
      var i, j := m.0, m.1;
      RequestsMatchLinks(line, i, j);
      var k :| 0 <= k < |ReceivesOf(line, j)| && ReceivesOf(line, j)[k].peer == i;
      var t := |ReceivesOf(line, j)| + |SendsOf(line, j)| + k;
      assert WaitedFor(line, s, j, t);
    }
  }

  /** The final receive buffers do not depend on the interleaving, nor does the number of steps. */
  lemma OutcomeIsUnique<T>(line: Line<T>, before: seq<seq<T>>, a: seq<Action>, s: State<T>, b: seq<Action>, t: State<T>)
    requires line.Valid(before) && Square(line)
    requires Run(line, before, Initial(line, before), a, s) && Finished(line, s)
    requires Run(line, before, Initial(line, before), b, t) && Finished(line, t)
    ensures s == t && |a| == |b|
  {
    InitialInv(line, before);
    RunKeepsInv(line, before, Initial(line, before), a, s);
    RunKeepsInv(line, before, Initial(line, before), b, t);
    FinishedStatesEqual(line, before, s, t);
  }

  lemma FinishedStatesEqual<T>(line: Line<T>, before: seq<seq<T>>, s: State<T>, t: State<T>)
    requires line.Valid(before) && Square(line) && Inv(line, before, s) && Finished(line, s) && Inv(line, before, t)
      && Finished(line, t)
    ensures s == t
  {
    FinishedIsDone(line, before, s);
    FinishedIsDone(line, before, t);
    hide BufferRight;
    forall j | 0 <= j < line.Size() ensures s.received[j] == t.received[j] {
      SameBuffer(line, before, j, s.received[j], t.received[j]);
    }
    assert s.received == t.received;
    SamePc(line, s, t);
  }

  lemma SamePc<T>(line: Line<T>, s: State<T>, t: State<T>)
    requires Square(line) && |s.pc| == |t.pc| == line.Size() && Finished(line, s) && Finished(line, t)
    ensures s.pc == t.pc
  {
  }

  lemma SameBuffer<T>(line: Line<T>, before: seq<seq<T>>, j: nat, a: seq<T>, b: seq<T>)
    requires line.Valid(before) && Square(line) && j < line.Size()
    requires BufferRight(line, before, Links(line), j, a) && BufferRight(line, before, Links(line), j, b)
    ensures a == b
  {
    hide Arrived;
    hide InSegment;
    hide Links;
    forall x | 0 <= x < |a| ensures a[x] == b[x] {
      if InDone(line, Links(line), j, x) {
        var i :| 0 <= i < line.Size() && (i, j) in Links(line) && InSegment(line, i, j, x);
        assert Arrived(line, before, i, j, a) && Arrived(line, before, i, j, b);
        SameCell(line, before, i, j, a, b, x);
      }
    }
  }

  lemma SameCell<T>(line: Line<T>, before: seq<seq<T>>, i: nat, j: nat, a: seq<T>, b: seq<T>, x: nat)
    requires line.Valid(before) && Square(line) && i < line.Size() && j < line.Size() && |a| == |b| == |before[j]|
    requires Arrived(line, before, i, j, a) && Arrived(line, before, i, j, b) && InSegment(line, i, j, x)
    ensures x < |a| && a[x] == b[x]
  {
    MessageFits(line, before, i, j);
    var at, n := ReceiveStart(line, i, j), line.counts[i][j];
    assert a[at..at + n][x - at] == b[at..at + n][x - at];
  }

  // ----- The exchange of a transpose plan

  /** The line of ranks through `c` with the message sizes of the plan. */
  ghost function LineFor<T>(p: Plan, c: seq<nat>, extraCount: nat, skipSelf: bool, sent: seq<seq<T>>): (line: Line<T>)
    requires p.Valid() && p.Rank(c) && |sent| == Product(p.source.grid)
    ensures line.Size() == p.Peers() && line.skipSelf == skipSelf && line.sent == LineOf(p, c, sent)
    ensures forall i :: 0 <= i < p.Peers() ==> line.counts[i] == Scaled(p.SendLens(p.PeerOf(c, i)), extraCount)
  {
    Line(seq(p.Peers(), i requires 0 <= i < p.Peers() => Scaled(p.SendLens(p.PeerOf(c, i)), extraCount)), skipSelf,
         LineOf(p, c, sent))
  }

  /** What a member receives are its receive lengths: each nonzero send meets one receive of equal
      count. */
  lemma ColumnIsReceive<T>(p: Plan, c: seq<nat>, extraCount: nat, skipSelf: bool, sent: seq<seq<T>>, j: nat)
    requires p.Valid() && p.Rank(c) && |sent| == Product(p.source.grid) && j < p.Peers()
    ensures var line := LineFor(p, c, extraCount, skipSelf, sent);
      Square(line) && line.Column(j) == Scaled(p.ReceiveLens(p.PeerOf(c, j)), extraCount)
  {
    var line := LineFor(p, c, extraCount, skipSelf, sent);
    forall i | 0 <= i < p.Peers() ensures line.Column(j)[i] == Scaled(p.ReceiveLens(p.PeerOf(c, j)), extraCount)[i] {
      RegionsAgree(p, p.PeerOf(c, i), j);
      assert p.PeerOf(p.PeerOf(c, i), j) == p.PeerOf(c, j);
    }
  }

  lemma ScaledStart(lens: seq<nat>, extraCount: nat, q: nat)
    requires q <= |lens|
    ensures PrefixSum(Scaled(lens, extraCount), q) == Times(PrefixSum(lens, q), extraCount)
  {
    ScaledPrefix(lens, Scaled(lens, extraCount), extraCount, q);
  }

  lemma LineIsValid<T>(p: Plan, c: seq<nat>, extraCount: nat, skipSelf: bool, sent: seq<seq<T>>, before: seq<seq<T>>)
    requires p.Valid() && p.Rank(c) && WorldOf(p.source, extraCount, sent) && WorldOf(p.destination, extraCount, before)
    ensures LineFor(p, c, extraCount, skipSelf, sent).Valid(LineOf(p, c, before))
  {
    var line := LineFor(p, c, extraCount, skipSelf, sent);
    forall i | 0 <= i < p.Peers()
      ensures PrefixSum(line.counts[i], p.Peers()) <= |line.sent[i]|
    {
      SendFits(p, p.PeerOf(c, i), extraCount, line.sent[i]);
    }
    forall j | 0 <= j < p.Peers()
      ensures Square(line) && PrefixSum(line.Column(j), p.Peers()) <= |LineOf(p, c, before)[j]|
    {
      ColumnIsReceive(p, c, extraCount, skipSelf, sent, j);
      ReceiveFits(p, p.PeerOf(c, j), extraCount, LineOf(p, c, before)[j]);
    }
  }

  lemma SendFits<T>(p: Plan, c: seq<nat>, extraCount: nat, buffer: seq<T>)
    requires p.Valid() && p.Rank(c) && RankHolds(p.source, extraCount, c, buffer)
    ensures PrefixSum(Scaled(p.SendLens(c), extraCount), p.Peers()) <= |buffer|
  {
    ScaledStart(p.SendLens(c), extraCount, p.Peers());
    SendTotal(p, c);
    TimesComm(extraCount, Volume(p.source.RangesAt(c)));
  }

  lemma ReceiveFits<T>(p: Plan, c: seq<nat>, extraCount: nat, buffer: seq<T>)
    requires p.Valid() && p.Rank(c) && RankHolds(p.destination, extraCount, c, buffer)
    ensures PrefixSum(Scaled(p.ReceiveLens(c), extraCount), p.Peers()) <= |buffer|
  {
    ScaledStart(p.ReceiveLens(c), extraCount, p.Peers());
    ReceiveTotal(p, c);
    TimesComm(extraCount, Volume(p.destination.RangesAt(c)));
  }

  /** The run on the line through `c` reached a state in which member `j` has waited for its receives. */
  ghost predicate LineReceived<T>(p: Plan, c: seq<nat>, extraCount: nat, skipSelf: bool, sent: seq<seq<T>>,
                                  before: seq<seq<T>>, actions: seq<Action>, s: State<T>, j: nat)
    requires p.Valid() && p.Rank(c) && WorldOf(p.source, extraCount, sent) && WorldOf(p.destination, extraCount, before)
  {
    LineIsValid(p, c, extraCount, skipSelf, sent, before);
    var line, was := LineFor(p, c, extraCount, skipSelf, sent), LineOf(p, c, before);
    Square(line) && Run(line, was, Initial(line, was), actions, s) && j < line.Size() && ReceivesDone(line, s, j)
  }

  /** Whatever the interleaving, once the receive waits of member `j` are over, every message to it stands
      where it reads it: this is the delivery that the transpose theorem asks for. */
  lemma ReceivesDoneDelivers<T>(p: Plan, c: seq<nat>, extraCount: nat, skipSelf: bool, sent: seq<seq<T>>,
                                before: seq<seq<T>>, actions: seq<Action>, s: State<T>, i: nat, j: nat)
    requires p.Valid() && p.Rank(c) && WorldOf(p.source, extraCount, sent) && WorldOf(p.destination, extraCount, before)
    requires i < p.Peers() && j < p.Peers() && !(skipSelf && i == j) && p.Rank(p.PeerOf(c, i))
    requires LineReceived(p, c, extraCount, skipSelf, sent, before, actions, s, j)
    ensures |s.received| == p.Peers() && |LineOf(p, c, sent)| == p.Peers()
    ensures SegmentDelivered(p, extraCount, p.PeerOf(c, i), j, LineOf(p, c, sent)[i], s.received[j])
  {
    LineIsValid(p, c, extraCount, skipSelf, sent, before);
    var line, was := LineFor(p, c, extraCount, skipSelf, sent), LineOf(p, c, before);
    InitialInv(line, was);
    RunKeepsInv(line, was, Initial(line, was), actions, s);
    AllArrived(line, was, s, i, j);
    assert BufferRight(line, was, s.done, j, s.received[j]);
    MessageFits(line, was, i, j);
    if line.Link(i, j) {
      assert Arrived(line, was, i, j, s.received[j]);
    }
    ArrivedIsDelivered(p, c, extraCount, skipSelf, sent, was, i, j, s.received[j]);
  }

  lemma ArrivedIsDelivered<T>(p: Plan, c: seq<nat>, extraCount: nat, skipSelf: bool, sent: seq<seq<T>>,
                              was: seq<seq<T>>, i: nat, j: nat, buffer: seq<T>)
    requires p.Valid() && p.Rank(c) && |sent| == Product(p.source.grid) && i < p.Peers() && j < p.Peers()
    requires LineFor(p, c, extraCount, skipSelf, sent).Valid(was) && |buffer| == |was[j]|
    requires var line := LineFor(p, c, extraCount, skipSelf, sent);
      Square(line) && (line.counts[i][j] == 0 || Arrived(line, was, i, j, buffer))
    ensures SegmentDelivered(p, extraCount, p.PeerOf(c, i), j, LineOf(p, c, sent)[i], buffer)
  {
    hide LineFor;
    hide LineOf;
    hide SendStart;
    hide ReceiveStart;
    hide Arrived;
    hide InBounds;
    hide SameSegment;
    hide Line.Valid;
    hide Plan.Valid;
    hide Plan.Peers;
    hide Plan.SendSegment;
    hide Plan.ReceiveSegment;
    var line := LineFor(p, c, extraCount, skipSelf, sent);
    MessageShape(p, c, extraCount, skipSelf, sent, i, j);
    ArrivedText(line, was, i, j, buffer);
    CopiedSegment(p.SendSegment(p.PeerOf(c, i), j), p.ReceiveSegment(p.PeerOf(c, j), i), extraCount, line.sent[i],
                  buffer);
  }

  lemma ArrivedText<T>(line: Line<T>, was: seq<seq<T>>, i: nat, j: nat, buffer: seq<T>)
    requires line.Valid(was) && Square(line) && i < line.Size() && j < line.Size() && |buffer| == |was[j]|
    requires line.counts[i][j] == 0 || Arrived(line, was, i, j, buffer)
    ensures var at, from, n := ReceiveStart(line, i, j), SendStart(line, i, j), line.counts[i][j];
      && at + n <= |buffer| && from + n <= |line.sent[i]| && buffer[at..at + n] == line.sent[i][from..from + n]
  {
    MessageFits(line, was, i, j);
  }

  lemma CopiedSegment<T>(s: Segment, r: Segment, extraCount: nat, sent: seq<T>, buffer: seq<T>)
    requires var n, from, at := Times(s.len, extraCount), Times(s.displacement, extraCount),
        Times(r.displacement, extraCount);
      at + n <= |buffer| && from + n <= |sent| && buffer[at..at + n] == sent[from..from + n]
    ensures SameSegment(s, r, extraCount, sent, buffer)
  {
  }

  lemma MessageShape<T>(p: Plan, c: seq<nat>, extraCount: nat, skipSelf: bool, sent: seq<seq<T>>, i: nat, j: nat)
    requires p.Valid() && p.Rank(c) && |sent| == Product(p.source.grid) && i < p.Peers() && j < p.Peers()
    ensures p.axis < |c| && p.Fits(p.PeerOf(c, i)) && p.Fits(p.PeerOf(c, j)) && p.Rank(p.PeerOf(c, i))
    ensures p.PeerOf(p.PeerOf(c, i), j) == p.PeerOf(c, j) && p.PeerOf(c, i)[p.axis] == i
    ensures var line := LineFor(p, c, extraCount, skipSelf, sent);
      var s, r := p.SendSegment(p.PeerOf(c, i), j), p.ReceiveSegment(p.PeerOf(c, j), i);
      && Square(line) && line.counts[i][j] == Times(s.len, extraCount)
      && SendStart(line, i, j) == Times(s.displacement, extraCount)
      && ReceiveStart(line, i, j) == Times(r.displacement, extraCount)
  {
    var a, b := p.PeerOf(c, i), p.PeerOf(c, j);
    assert p.PeerOf(a, j) == b && a[p.axis] == i;
    ColumnIsReceive(p, c, extraCount, skipSelf, sent, j);
    ScaledStart(p.SendLens(a), extraCount, j);
    ScaledStart(p.ReceiveLens(b), extraCount, i);
  }
}
