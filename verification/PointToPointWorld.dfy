/** The point-to-point transpose on all ranks. */
module PointToPointWorlds {
  import opened MachineInts
  import opened MixedRadix
  import opened Pencil
  import opened Segments
  import opened Plans
  import opened TransposeWorlds
  import opened PointToPoint

  /** Some run of the protocol on the line of rank `c`, in whatever interleaving, reached the end of its
      receive waits with this buffer. Sends and other ranks may not be done yet. */
  ghost predicate RankExchanged<T(!new)>(p: Plan, extraCount: nat, skipSelf: bool, c: seq<nat>, sent: seq<seq<T>>,
                                         before: seq<seq<T>>, received: seq<T>)
    requires p.Valid() && p.Rank(c) && WorldOf(p.source, extraCount, sent) && WorldOf(p.destination, extraCount, before)
  {
    exists actions, s :: RankReceived(p, extraCount, skipSelf, c, sent, before, actions, s, received)
  }

  ghost predicate RankReceived<T(!new)>(p: Plan, extraCount: nat, skipSelf: bool, c: seq<nat>, sent: seq<seq<T>>,
                                        before: seq<seq<T>>, actions: seq<Action>, s: State<T>, received: seq<T>)
    requires p.Valid() && p.Rank(c) && WorldOf(p.source, extraCount, sent) && WorldOf(p.destination, extraCount, before)
  {
    && LineReceived(p, c, extraCount, skipSelf, sent, before, actions, s, c[p.axis])
    && c[p.axis] < |s.received| && received == s.received[c[p.axis]]
  }

  ghost predicate ExchangedByMessages<T(!new)>(p: Plan, extraCount: nat, skipSelf: bool, sent: seq<seq<T>>,
                                               before: seq<seq<T>>, received: seq<seq<T>>)
    requires p.Valid() && WorldOf(p.source, extraCount, sent) && WorldOf(p.destination, extraCount, before)
      && |received| == |before|
  {
    forall c :: p.Rank(c) ==>
      RankExchanged(p, extraCount, skipSelf, c, sent, before, received[RankOf(p.source.grid, c)])
  }

  /** Once every rank has waited for its receives, every message of every rank is delivered. */
  lemma MessagesDeliver<T(!new)>(p: Plan, extraCount: nat, skipSelf: bool, sent: seq<seq<T>>, before: seq<seq<T>>,
                                 received: seq<seq<T>>)
    requires p.Valid() && WorldOf(p.source, extraCount, sent) && WorldOf(p.destination, extraCount, before)
      && |received| == |before|
    requires ExchangedByMessages(p, extraCount, skipSelf, sent, before, received)
    ensures WorldOf(p.destination, extraCount, received) && Delivered(p, extraCount, skipSelf, sent, received)
  {
    hide RankExchanged;
    forall c | p.Rank(c)
      ensures RankOf(p.source.grid, c) < |received|
        && RankHolds(p.destination, extraCount, c, received[RankOf(p.source.grid, c)])
    {
      BufferKeepsSize(p, extraCount, skipSelf, c, sent, before, received[RankOf(p.source.grid, c)]);
    }
    forall c, q | p.Rank(c) && 0 <= q < p.Peers() && !(skipSelf && q == c[p.axis])
      ensures MessageDelivered(p, extraCount, c, q, sent, received)
    {
      OneMessage(p, extraCount, skipSelf, c, q, sent, before, received);
    }
  }

  lemma BufferKeepsSize<T(!new)>(p: Plan, extraCount: nat, skipSelf: bool, c: seq<nat>, sent: seq<seq<T>>,
                                 before: seq<seq<T>>, received: seq<T>)
    requires p.Valid() && p.Rank(c) && WorldOf(p.source, extraCount, sent) && WorldOf(p.destination, extraCount, before)
    requires RankExchanged(p, extraCount, skipSelf, c, sent, before, received)
    ensures RankHolds(p.destination, extraCount, c, received)
  {
    hide RankReceived;
    hide LineOf;
    hide Plan.Valid;
    hide InBounds;
    hide WorldOf;
    var actions, s :| RankReceived(p, extraCount, skipSelf, c, sent, before, actions, s, received);
    OwnBuffer(p, extraCount, c, before);
    FinishedSize(p, extraCount, skipSelf, c, sent, before, actions, s, received);
  }

  lemma OwnBuffer<T(!new)>(p: Plan, extraCount: nat, c: seq<nat>, before: seq<seq<T>>)
    requires p.Valid() && p.Rank(c) && WorldOf(p.destination, extraCount, before)
    ensures p.axis < |c| && c[p.axis] < p.Peers() && |before| == Product(p.source.grid)
    ensures RankHolds(p.destination, extraCount, c, LineOf(p, c, before)[c[p.axis]])
  {
    assert p.PeerOf(c, c[p.axis]) == c;
    assert RankHolds(p.destination, extraCount, c, before[RankOf(p.source.grid, c)]);
  }

  lemma FinishedSize<T(!new)>(p: Plan, extraCount: nat, skipSelf: bool, c: seq<nat>, sent: seq<seq<T>>,
                              before: seq<seq<T>>, actions: seq<Action>, s: State<T>, received: seq<T>)
    requires p.Valid() && p.Rank(c) && WorldOf(p.source, extraCount, sent) && WorldOf(p.destination, extraCount, before)
    requires RankReceived(p, extraCount, skipSelf, c, sent, before, actions, s, received)
    ensures c[p.axis] < p.Peers() && |received| == |LineOf(p, c, before)[c[p.axis]]|
  {
    hide Run;
    hide ReceivesDone;
    hide LineOf;
    hide WorldOf;
    SameGrids(p, extraCount, sent, before);
    LineIsValid(p, c, extraCount, skipSelf, sent, before);
    SameSizes(LineFor(p, c, extraCount, skipSelf, sent), LineOf(p, c, before), actions, s, c[p.axis]);
  }

  /** A run leaves every receive buffer as long as it was. */
  lemma SameSizes<T>(line: Line<T>, was: seq<seq<T>>, actions: seq<Action>, s: State<T>, j: nat)
    requires line.Valid(was) && Square(line) && Run(line, was, Initial(line, was), actions, s) && j < line.Size()
    ensures |s.received| == line.Size() && |s.received[j]| == |was[j]|
  {
    InitialInv(line, was);
    RunKeepsInv(line, was, Initial(line, was), actions, s);
    assert BufferRight(line, was, s.done, j, s.received[j]);
  }

  lemma OneMessage<T(!new)>(p: Plan, extraCount: nat, skipSelf: bool, c: seq<nat>, q: nat, sent: seq<seq<T>>,
                            before: seq<seq<T>>, received: seq<seq<T>>)
    requires p.Valid() && WorldOf(p.source, extraCount, sent) && WorldOf(p.destination, extraCount, before)
      && |received| == |before|
    requires ExchangedByMessages(p, extraCount, skipSelf, sent, before, received)
    requires p.Rank(c) && q < p.Peers() && !(skipSelf && q == c[p.axis])
    ensures MessageDelivered(p, extraCount, c, q, sent, received)
  {
    hide RankExchanged;
    hide RankReceived;
    var d := p.PeerOf(c, q);
    assert p.Rank(d) && d[p.axis] == q && p.PeerOf(d, c[p.axis]) == c;
    var there := received[RankOf(p.source.grid, d)];
    assert RankExchanged(p, extraCount, skipSelf, d, sent, before, there);
    ReceivedMessage(p, extraCount, skipSelf, d, c[p.axis], sent, before, there);
    assert LineOf(p, d, sent)[c[p.axis]] == sent[RankOf(p.source.grid, c)];
  }

  /** Rank `d` has received the message of member `i` of its line. */
  lemma ReceivedMessage<T(!new)>(p: Plan, extraCount: nat, skipSelf: bool, d: seq<nat>, i: nat, sent: seq<seq<T>>,
                                 before: seq<seq<T>>, received: seq<T>)
    requires p.Valid() && p.Rank(d) && WorldOf(p.source, extraCount, sent) && WorldOf(p.destination, extraCount, before)
    requires |sent| == Product(p.source.grid) && i < p.Peers() && d[p.axis] < p.Peers() && p.PeerOf(d, d[p.axis]) == d
    requires !(skipSelf && i == d[p.axis]) && p.Rank(p.PeerOf(d, i))
      && RankExchanged(p, extraCount, skipSelf, d, sent, before, received)
    ensures SegmentDelivered(p, extraCount, p.PeerOf(d, i), d[p.axis], LineOf(p, d, sent)[i], received)
  {
    hide WorldOf;
    hide LineOf;
    hide Run;
    hide ReceivesDone;
    hide SegmentDelivered;
    LineIsValid(p, d, extraCount, skipSelf, sent, before);
    var actions, s :| RankReceived(p, extraCount, skipSelf, d, sent, before, actions, s, received);
    ReceivesDoneDelivers(p, d, extraCount, skipSelf, sent, before, actions, s, i, d[p.axis]);
  }

  /** Point-to-point execution on all ranks: pack, any run of the message protocol to the end of each
      rank's receive waits, the copy of the own region if its message is skipped,
      and unpacking keep the global array. */
  lemma PointToPointTransposeKeepsGlobalArray<T(!new)>(p: Plan, extraCount: nat, skipSelf: bool, source: seq<seq<T>>,
                                                       sent: seq<seq<T>>, before: seq<seq<T>>, received: seq<seq<T>>,
                                                       copied: seq<seq<T>>, destination: seq<seq<T>>)
    requires p.Valid() && WorldOf(p.source, extraCount, source) && WorldOf(p.source, extraCount, sent)
    requires WorldOf(p.destination, extraCount, before) && |received| == |before|
      && WorldOf(p.destination, extraCount, received)
    requires WorldOf(p.destination, extraCount, copied) && WorldOf(p.destination, extraCount, destination)
    requires Packed(p, extraCount, skipSelf, source, sent)
      && ExchangedByMessages(p, extraCount, skipSelf, sent, before, received)
    requires Assembled(p, extraCount, skipSelf, source, received, copied, destination)
    ensures SameGlobalArray(p.source, source, p.destination, destination, extraCount)
  {
    hide WorldOf;
    hide Packed;
    hide Delivered;
    hide Unpacked;
    hide SelfCopied;
    hide Assembled;
    hide ExchangedByMessages;
    MessagesDeliver(p, extraCount, skipSelf, sent, before, received);
    AssembledInPlace(p, extraCount, skipSelf, source, received, copied, destination);
    TransposeKeepsGlobalArray(p, extraCount, skipSelf, source, sent, received, destination);
  }

  /** Both ways to communicate, with or without a message to oneself, fill every rank's destination
      storage with the same values. */
  lemma PointToPointMatchesAllToAllV<T(!new)>(p: Plan, extraCount: nat, skipSelf: bool, source: seq<seq<T>>,
                                              sent: seq<seq<T>>, before: seq<seq<T>>, received: seq<seq<T>>,
                                              copied: seq<seq<T>>, destination: seq<seq<T>>, allSent: seq<seq<T>>,
                                              allBefore: seq<seq<T>>, allReceived: seq<seq<T>>, all: seq<seq<T>>,
                                              c: seq<nat>, cell: nat)
    requires p.Valid() && WorldOf(p.source, extraCount, source) && WorldOf(p.source, extraCount, sent)
      && WorldOf(p.source, extraCount, allSent)
    requires WorldOf(p.destination, extraCount, before) && |received| == |before|
      && WorldOf(p.destination, extraCount, received)
    requires WorldOf(p.destination, extraCount, copied) && WorldOf(p.destination, extraCount, destination)
    requires Packed(p, extraCount, skipSelf, source, sent)
      && ExchangedByMessages(p, extraCount, skipSelf, sent, before, received)
    requires Assembled(p, extraCount, skipSelf, source, received, copied, destination)
    requires WorldOf(p.destination, extraCount, allBefore) && |allReceived| == |allBefore|
      && WorldOf(p.destination, extraCount, allReceived)
    requires WorldOf(p.destination, extraCount, all) && Packed(p, extraCount, false, source, allSent)
    requires Exchanged(p, extraCount, allSent, allBefore, allReceived)
      && Unpacked(p, extraCount, false, allReceived, all)
    requires p.Rank(c) && cell < Times(extraCount, p.destination.LayoutAt(c).Len())
    ensures var r := RankOf(p.source.grid, c);
      r < |destination| == |all| && cell < |destination[r]| && cell < |all[r]| && destination[r][cell] == all[r][cell]
  {
    hide WorldOf;
    hide Packed;
    hide Unpacked;
    hide Assembled;
    hide Exchanged;
    hide ExchangedByMessages;
    hide GlobalAt;
    PointToPointTransposeKeepsGlobalArray(p, extraCount, skipSelf, source, sent, before, received, copied, destination);
    AllToAllVTransposeKeepsGlobalArray(p, extraCount, source, allSent, allBefore, allReceived, all);
    SameArrays(p, extraCount, source, destination, all);
    GlobalArrayFixesStorage(p.destination, extraCount, destination, all, c, cell);
  }
}
