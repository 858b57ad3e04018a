/** The channel state cache of pkg/commons/managedChannelState.go and the forward events of
    pkg/lnd/channelBalanceCache.go that drive it: balances, pending HTLCs, readiness. */
module ChannelStates {
  import opened Options
  import opened Statuses
  import opened Collections

  datatype Policy = Policy(
    disabled: bool, timeLockDelta: nat, minHtlcMsat: nat, maxHtlcMsat: nat, feeBaseMsat: nat, feeRateMilliMsat: nat)

  datatype Htlc = Htlc(incoming: bool, amount: int, htlcIndex: nat, forwardingChannel: nat, forwardingHtlcIndex: nat)

  /** The maintained part of a channel's settings; balances in satoshi. */
  datatype ChannelState = ChannelState(
    channelId: int, remoteNodeId: int, localBalance: int, remoteBalance: int, unsettledBalance: int,
    pendingHtlcs: seq<Htlc>, numUpdates: nat, localPolicy: Policy, remotePolicy: Policy)

  datatype HtlcEvent = HtlcEvent(
    nodeId: int, incomingChannelId: Option<int>, outgoingChannelId: Option<int>,
    incomingHtlcId: Option<nat>, outgoingHtlcId: Option<nat>,
    incomingAmtMsat: Option<nat>, outgoingAmtMsat: Option<nat>)

  datatype ForwardEvent = ForwardEvent(
    nodeId: int, incomingChannelId: Option<int>, outgoingChannelId: Option<int>,
    amountInMsat: nat, amountOutMsat: nat, feeMsat: nat)

  const TOLERATED_SUBSCRIPTION_DOWNTIME_SECONDS := 15

  type Channels = map<int, ChannelState>
  type States = map<int, Channels>

  /** One cached channel rewritten; nothing happens to an uncached one. */
  function UpdateAt(states: States, nodeId: int, channelId: int, f: ChannelState -> ChannelState): States {
    if nodeId in states && channelId in states[nodeId] then
      states[nodeId := states[nodeId][channelId := f(states[nodeId][channelId])]]
    else states
  }

  // ------------------------------------------------------------------ balance updates

  /** The code derives the remote balance from the local balance it has just changed. */
  function Credit(c: ChannelState, amount: int): ChannelState {
    var localBalance := c.localBalance + amount;
    c.(numUpdates := c.numUpdates + 1, localBalance := localBalance, remoteBalance := localBalance - amount)
  }

  /** So the new remote balance is the old local balance, and the channel's total is kept exactly when the
      remote balance was already the new local one. */
  lemma TotalKeptIff(c: ChannelState, amount: int)
    ensures Credit(c, amount).remoteBalance == c.localBalance
    ensures Credit(c, amount).localBalance + Credit(c, amount).remoteBalance == c.localBalance + c.remoteBalance
            <==> c.remoteBalance == c.localBalance + amount
  {
  }

  ghost function TotalLocal(channels: Channels): int {
    if channels.Keys == {} then 0
    else
      var id := Pick(channels.Keys);
      channels[id].localBalance + TotalLocal(channels - {id})
  }

  lemma {:induction false} TotalLocalWithout(channels: Channels, id: int)
    requires id in channels
    ensures TotalLocal(channels) == channels[id].localBalance + TotalLocal(channels - {id})
  {
    var picked := Pick(channels.Keys);
    if picked != id {
      TotalLocalWithout(channels - {picked}, id);
      TotalLocalWithout(channels - {id}, picked);
      assert channels - {picked} - {id} == channels - {id} - {picked};
    }
  }

  lemma TotalLocalAfter(channels: Channels, id: int, c: ChannelState)
    requires id in channels
    ensures TotalLocal(channels[id := c]) == TotalLocal(channels) + c.localBalance - channels[id].localBalance
  {
    TotalLocalWithout(channels, id);
    TotalLocalWithout(channels[id := c], id);
    assert channels[id := c] - {id} == channels - {id};
  }

  // ------------------------------------------------------------------ forwards

  /** A leg's amount is truncated to whole satoshi on its own. */
  function ForwardLegs(states: States, f: ForwardEvent): States {
    var afterIn :=
      if f.incomingChannelId.None? then states
      else BalanceUpdated(states, f.nodeId, f.incomingChannelId.value, f.amountInMsat / 1000);
    if f.outgoingChannelId.None? then afterIn
    else BalanceUpdated(afterIn, f.nodeId, f.outgoingChannelId.value, -(f.amountOutMsat / 1000))
  }

  function BalanceUpdated(states: States, nodeId: int, channelId: int, amount: int): States {
    if channelId == 0 || nodeId == 0 then states
    else UpdateAt(states, nodeId, channelId, (c: ChannelState) => Credit(c, amount))
  }

  /** The event reaches two cached channels of the node, and what comes in is what goes out plus the fee. */
  ghost predicate BothLegsCached(states: States, nodeId: int, f: ForwardEvent) {
    && nodeId != 0 && f.nodeId == nodeId && nodeId in states
    && f.incomingChannelId.Some? && f.incomingChannelId.value != 0 && f.incomingChannelId.value in states[nodeId]
    && f.outgoingChannelId.Some? && f.outgoingChannelId.value != 0 && f.outgoingChannelId.value in states[nodeId]
    && f.amountInMsat == f.amountOutMsat + f.feeMsat
  }

  function ForwardsApplied(states: States, forwards: seq<ForwardEvent>): States {
    if forwards == [] then states
    else ForwardLegs(ForwardsApplied(states, forwards[..|forwards| - 1]), forwards[|forwards| - 1])
  }

  function TotalFees(forwards: seq<ForwardEvent>): nat {
    if forwards == [] then 0 else TotalFees(forwards[..|forwards| - 1]) + forwards[|forwards| - 1].feeMsat
  }

  /** The millisatoshi lost on the way in and gained on the way out. */
  function Drift(forwards: seq<ForwardEvent>): int {
    if forwards == [] then 0
    else
      var f := forwards[|forwards| - 1];
      Drift(forwards[..|forwards| - 1]) + f.amountOutMsat % 1000 - f.amountInMsat % 1000
  }

  lemma CreditedTotal(states: States, nodeId: int, channelId: int, amount: int)
    requires nodeId != 0 && channelId != 0 && nodeId in states && channelId in states[nodeId]
    ensures var after := BalanceUpdated(states, nodeId, channelId, amount);
            && nodeId in after && after[nodeId].Keys == states[nodeId].Keys
            && TotalLocal(after[nodeId]) == TotalLocal(states[nodeId]) + amount
  {
    TotalLocalAfter(states[nodeId], channelId, Credit(states[nodeId][channelId], amount));
  }

  lemma ForwardChangesTotal(states: States, nodeId: int, f: ForwardEvent)
    requires BothLegsCached(states, nodeId, f)
    ensures var after := ForwardLegs(states, f);
            && nodeId in after && after[nodeId].Keys == states[nodeId].Keys
            && 1000 * (TotalLocal(after[nodeId]) - TotalLocal(states[nodeId]))
               == f.feeMsat + f.amountOutMsat % 1000 - f.amountInMsat % 1000
  {
    CreditedTotal(states, nodeId, f.incomingChannelId.value, f.amountInMsat / 1000);
    var afterIn := BalanceUpdated(states, nodeId, f.incomingChannelId.value, f.amountInMsat / 1000);
    CreditedTotal(afterIn, nodeId, f.outgoingChannelId.value, -(f.amountOutMsat / 1000));
  }

  /** After any n forwards the node's total local balance, in millisatoshi, is off the fees earned by exactly
      the drift, and by at most 999 n. */
  lemma {:induction false} RoundingDrift(states: States, nodeId: int, forwards: seq<ForwardEvent>)
    requires nodeId in states && forall i | 0 <= i < |forwards| :: BothLegsCached(states, nodeId, forwards[i])
    ensures var after := ForwardsApplied(states, forwards);
            && nodeId in after && after[nodeId].Keys == states[nodeId].Keys
            && 1000 * (TotalLocal(after[nodeId]) - TotalLocal(states[nodeId])) == TotalFees(forwards) + Drift(forwards)
            && -999 * |forwards| <= Drift(forwards) <= 999 * |forwards|
  {
    if forwards != [] {
      var n := |forwards| - 1;
      RoundingDrift(states, nodeId, forwards[..n]);
      ForwardChangesTotal(ForwardsApplied(states, forwards[..n]), nodeId, forwards[n]);
    }
  }

  /** The whole satoshi that forwards bring in on a node's channel. */
  function BroughtIn(forwards: seq<ForwardEvent>, nodeId: int, channelId: int): int {
    if forwards == [] then 0
    else
      var f := forwards[|forwards| - 1];
      BroughtIn(forwards[..|forwards| - 1], nodeId, channelId)
      + if f.nodeId == nodeId && f.incomingChannelId == Some(channelId) then f.amountInMsat / 1000 else 0
  }

  /** The whole satoshi that forwards send out on a node's channel. */
  function SentOut(forwards: seq<ForwardEvent>, nodeId: int, channelId: int): int {
    if forwards == [] then 0
    else
      var f := forwards[|forwards| - 1];
      SentOut(forwards[..|forwards| - 1], nodeId, channelId)
      + if f.nodeId == nodeId && f.outgoingChannelId == Some(channelId) then f.amountOutMsat / 1000 else 0
  }

  /** How often forwards name a node's channel, as the incoming one or the outgoing one. */
  function TimesNamed(forwards: seq<ForwardEvent>, nodeId: int, channelId: int): nat {
    if forwards == [] then 0
    else
      var f := forwards[|forwards| - 1];
      TimesNamed(forwards[..|forwards| - 1], nodeId, channelId)
      + (if f.nodeId == nodeId && f.incomingChannelId == Some(channelId) then 1 else 0)
      + (if f.nodeId == nodeId && f.outgoingChannelId == Some(channelId) then 1 else 0)
  }

  /** The channel has gained so much in so many updates, and is as before but for its balances. */
  ghost predicate Moved(c: ChannelState, d: ChannelState, gain: int, updates: nat) {
    && d.localBalance == c.localBalance + gain && d.numUpdates == c.numUpdates + updates
    && d.(localBalance := c.localBalance, remoteBalance := c.remoteBalance, numUpdates := c.numUpdates) == c
  }

  /** One side of a forward, if it names a channel. */
  lemma SideMoves(states: States, nodeId: int, channelId: Option<int>, amount: int, n: int, id: int)
    requires n != 0 && id != 0 && n in states && id in states[n]
    ensures var after := if channelId.None? then states else BalanceUpdated(states, nodeId, channelId.value, amount);
            var mine := nodeId == n && channelId == Some(id);
            && SameChannels(states, after)
            && Moved(states[n][id], after[n][id], if mine then amount else 0, if mine then 1 else 0)
  {
  }

  lemma MovedTwice(before: States, mid: States, after: States, n: int, id: int, gain: int, updates: nat, more: int, others: nat)
    requires n in before && id in before[n] && SameChannels(before, mid) && SameChannels(mid, after)
    requires Moved(before[n][id], mid[n][id], gain, updates) && Moved(mid[n][id], after[n][id], more, others)
    ensures SameChannels(before, after) && Moved(before[n][id], after[n][id], gain + more, updates + others)
  {
  }

  lemma ForwardMovesChannel(states: States, f: ForwardEvent, n: int, id: int)
    requires n != 0 && id != 0 && n in states && id in states[n]
    ensures var after := ForwardLegs(states, f);
            var isIn, isOut := f.nodeId == n && f.incomingChannelId == Some(id), f.nodeId == n && f.outgoingChannelId == Some(id);
            && SameChannels(states, after)
            && Moved(states[n][id], after[n][id],
                     (if isIn then f.amountInMsat / 1000 else 0) - (if isOut then f.amountOutMsat / 1000 else 0),
                     (if isIn then 1 else 0) + (if isOut then 1 else 0))
  {
    var afterIn := if f.incomingChannelId.None? then states
                   else BalanceUpdated(states, f.nodeId, f.incomingChannelId.value, f.amountInMsat / 1000);
    var isIn, isOut := f.nodeId == n && f.incomingChannelId == Some(id), f.nodeId == n && f.outgoingChannelId == Some(id);
    var amountIn, amountOut := f.amountInMsat / 1000, -(f.amountOutMsat / 1000);
    SideMoves(states, f.nodeId, f.incomingChannelId, amountIn, n, id);
    SideMoves(afterIn, f.nodeId, f.outgoingChannelId, amountOut, n, id);
    var after := if f.outgoingChannelId.None? then afterIn
                 else BalanceUpdated(afterIn, f.nodeId, f.outgoingChannelId.value, amountOut);
    assert after == ForwardLegs(states, f);
    MovedTwice(states, afterIn, after, n, id, if isIn then amountIn else 0, if isIn then 1 else 0,
               if isOut then amountOut else 0, if isOut then 1 else 0);
  }

  /** Over every run of forwards each cached channel gains what they bring in on it less what they send out on it, in
      whole satoshi a forward, and counts one update each time it is named; no other channel is touched. */
  lemma {:induction false} ForwardsMoveChannels(states: States, forwards: seq<ForwardEvent>, n: int, id: int)
    requires n != 0 && id != 0 && n in states && id in states[n]
    ensures var after := ForwardsApplied(states, forwards);
            && SameChannels(states, after)
            && Moved(states[n][id], after[n][id], BroughtIn(forwards, n, id) - SentOut(forwards, n, id),
                     TimesNamed(forwards, n, id))
  {
    if forwards != [] {
      var k := |forwards| - 1;
      ForwardsMoveChannels(states, forwards[..k], n, id);
      ForwardMovesChannel(ForwardsApplied(states, forwards[..k]), forwards[k], n, id);
    }
  }

  /** Every cached channel has gained what the forwards bring in on it less what they send out on it. */
  ghost predicate ChannelsMoved(before: States, after: States, forwards: seq<ForwardEvent>) {
    && SameChannels(before, after)
    && (forall n, id | n in before && id in before[n] && (n == 0 || id == 0) :: after[n][id] == before[n][id])
    && forall n, id | n != 0 && id != 0 && n in before && id in before[n] ::
         Moved(before[n][id], after[n][id], BroughtIn(forwards, n, id) - SentOut(forwards, n, id), TimesNamed(forwards, n, id))
  }

  lemma ForwardsMoveAll(states: States, forwards: seq<ForwardEvent>)
    ensures ChannelsMoved(states, ForwardsApplied(states, forwards), forwards)
  {
    ForwardsKeepChannels(states, forwards);
    forall n, id | n != 0 && id != 0 && n in states && id in states[n]
      ensures Moved(states[n][id], ForwardsApplied(states, forwards)[n][id],
                    BroughtIn(forwards, n, id) - SentOut(forwards, n, id), TimesNamed(forwards, n, id))
    {
      ForwardsMoveChannels(states, forwards, n, id);
    }
  }

  lemma {:induction false} ForwardsKeepChannels(states: States, forwards: seq<ForwardEvent>)
    ensures var after := ForwardsApplied(states, forwards);
            && SameChannels(states, after)
            && forall n, id | n in states && id in states[n] && (n == 0 || id == 0) :: after[n][id] == states[n][id]
  {
    if forwards != [] { ForwardsKeepChannels(states, forwards[..|forwards| - 1]); }
  }

  /** When all the forwards are between two cached channels of the node, its total follows the fees within 999 a forward. */
  ghost predicate TotalFollowsFees(before: States, after: States, nodeId: int, forwards: seq<ForwardEvent>) {
    nodeId in before && nodeId in after && (forall i | 0 <= i < |forwards| :: BothLegsCached(before, nodeId, forwards[i])) ==>
      var change := 1000 * (TotalLocal(after[nodeId]) - TotalLocal(before[nodeId]));
      TotalFees(forwards) - 999 * |forwards| <= change <= TotalFees(forwards) + 999 * |forwards|
  }

  lemma ForwardsFollowFees(states: States, nodeId: int, forwards: seq<ForwardEvent>)
    ensures TotalFollowsFees(states, ForwardsApplied(states, forwards), nodeId, forwards)
  {
    if nodeId in states && forall i | 0 <= i < |forwards| :: BothLegsCached(states, nodeId, forwards[i]) {
      RoundingDrift(states, nodeId, forwards);
    }
  }

  function Repeated(f: ForwardEvent, n: nat): (forwards: seq<ForwardEvent>)
    ensures |forwards| == n && forall i | 0 <= i < n :: forwards[i] == f
  {
    if n == 0 then [] else Repeated(f, n - 1) + [f]
  }

  /** The bound is reached: n forwards that bring in 1999 msat and send out 1000 drift by -999 n. */
  lemma {:induction false} DriftBoundIsTight(f: ForwardEvent, n: nat)
    requires f.amountInMsat == 1999 && f.amountOutMsat == 1000
    ensures Drift(Repeated(f, n)) == -999 * n
  {
    if n > 0 {
      DriftBoundIsTight(f, n - 1);
      DriftOfOneMore(Repeated(f, n - 1), f);
    }
  }

  lemma DriftOfOneMore(forwards: seq<ForwardEvent>, f: ForwardEvent)
    ensures Drift(forwards + [f]) == Drift(forwards) + f.amountOutMsat % 1000 - f.amountInMsat % 1000
  {
    assert (forwards + [f])[..|forwards|] == forwards;
  }

  // ------------------------------------------------------------------ pending HTLCs

  function WithoutIndex(pending: seq<Htlc>, index: nat): seq<Htlc> {
    if pending == [] then []
    else
      var last := pending[|pending| - 1];
      WithoutIndex(pending[..|pending| - 1], index) + if last.htlcIndex == index then [] else [last]
  }

  predicate HasIndex(pending: seq<Htlc>, index: nat) {
    exists i :: 0 <= i < |pending| && pending[i].htlcIndex == index
  }

  /** One leg of an HTLC event for a channel. On either leg the unsettled balance moves by the incoming amount. */
  datatype Leg = Leg(incoming: bool, index: nat, amountMsat: nat, incomingAmtMsat: nat)
  {
    function Entry(): Htlc {
      Htlc(incoming, amountMsat / 1000, index, 0, 0)
    }

    /** What an added entry adds to the unsettled balance. */
    function Unsettled(): int {
      if incoming then incomingAmtMsat / 1000 else -(incomingAmtMsat / 1000)
    }
  }

  /** Removes the entries of the leg's index where there are any, and otherwise appends one. */
  function Toggle(c: ChannelState, leg: Leg): ChannelState {
    if HasIndex(c.pendingHtlcs, leg.index) then
      c.(pendingHtlcs := WithoutIndex(c.pendingHtlcs, leg.index), unsettledBalance := c.unsettledBalance - leg.Unsettled())
    else
      c.(pendingHtlcs := c.pendingHtlcs + [leg.Entry()], unsettledBalance := c.unsettledBalance + leg.Unsettled())
  }

  ghost predicate DistinctIndexes(pending: seq<Htlc>) {
    forall i, j | 0 <= i < j < |pending| :: pending[i].htlcIndex != pending[j].htlcIndex
  }

  lemma {:induction false} WithoutIndexDrops(pending: seq<Htlc>, index: nat)
    ensures forall h :: h in WithoutIndex(pending, index) <==> h in pending && h.htlcIndex != index
    ensures !HasIndex(pending, index) ==> WithoutIndex(pending, index) == pending
  {
    if pending != [] {
      var n := |pending| - 1;
      var init := pending[..n];
      WithoutIndexDrops(init, index);
      assert pending == init + [pending[n]];
      if !HasIndex(pending, index) {
        forall i | 0 <= i < n
          ensures init[i].htlcIndex != index
        {
          assert init[i] == pending[i];
        }
        assert !HasIndex(init, index);
      }
    }
  }

  lemma {:induction false} WithoutIndexDistinct(pending: seq<Htlc>, index: nat)
    requires DistinctIndexes(pending)
    ensures DistinctIndexes(WithoutIndex(pending, index))
  {
    if pending != [] {
      var n := |pending| - 1;
      WithoutIndexDistinct(pending[..n], index);
      WithoutIndexDrops(pending[..n], index);
      forall h | h in WithoutIndex(pending[..n], index)
        ensures h.htlcIndex != pending[n].htlcIndex
      {
        var i :| 0 <= i < n && pending[..n][i] == h;
        assert pending[i] == h;
      }
    }
  }

  /** Distinct indexes stay distinct under every leg. */
  lemma ToggleKeepsDistinct(c: ChannelState, leg: Leg)
    requires DistinctIndexes(c.pendingHtlcs)
    ensures DistinctIndexes(Toggle(c, leg).pendingHtlcs)
  {
    WithoutIndexDistinct(c.pendingHtlcs, leg.index);
  }

  lemma AppendedIndexIsDropped(pending: seq<Htlc>, h: Htlc)
    ensures WithoutIndex(pending + [h], h.htlcIndex) == WithoutIndex(pending, h.htlcIndex)
    ensures HasIndex(pending + [h], h.htlcIndex)
  {
    assert (pending + [h])[..|pending|] == pending;
    assert (pending + [h])[|pending|] == h;
  }

  lemma RemovedIndexIsAbsent(pending: seq<Htlc>, index: nat)
    ensures !HasIndex(WithoutIndex(pending, index), index)
  {
    WithoutIndexDrops(pending, index);
    var rest := WithoutIndex(pending, index);
    forall i | 0 <= i < |rest|
      ensures rest[i].htlcIndex != index
    {
      assert rest[i] in rest;
    }
  }

  lemma AbsentIndexTwice(c: ChannelState, leg: Leg)
    requires !HasIndex(c.pendingHtlcs, leg.index)
    ensures Toggle(Toggle(c, leg), leg) == c
  {
    var unsettled := leg.Unsettled();
    var once := c.(pendingHtlcs := c.pendingHtlcs + [leg.Entry()], unsettledBalance := c.unsettledBalance + unsettled);
    assert Toggle(c, leg) == once;
    assert HasIndex(once.pendingHtlcs, leg.index) && WithoutIndex(once.pendingHtlcs, leg.index) == c.pendingHtlcs by {
      WithoutIndexDrops(c.pendingHtlcs, leg.index);
      AppendedIndexIsDropped(c.pendingHtlcs, leg.Entry());
    }
    assert Toggle(once, leg) == once.(pendingHtlcs := c.pendingHtlcs, unsettledBalance := once.unsettledBalance - unsettled);
  }

  lemma PresentIndexTwice(c: ChannelState, leg: Leg)
    requires HasIndex(c.pendingHtlcs, leg.index)
    ensures Toggle(Toggle(c, leg), leg) == c.(pendingHtlcs := WithoutIndex(c.pendingHtlcs, leg.index) + [leg.Entry()])
  {
    RemovedIndexIsAbsent(c.pendingHtlcs, leg.index);
  }

  /** The same leg twice restores the channel exactly when its index was absent, or when its entry was the last
      one and the only one of its index. */
  lemma TwiceRestoresIff(c: ChannelState, leg: Leg)
    ensures var pending, n := c.pendingHtlcs, |c.pendingHtlcs| - 1;
            Toggle(Toggle(c, leg), leg) == c
            <==> !HasIndex(pending, leg.index) || (pending[n] == leg.Entry() && !HasIndex(pending[..n], leg.index))
  {
    var pending, n := c.pendingHtlcs, |c.pendingHtlcs| - 1;
    if !HasIndex(pending, leg.index) {
      AbsentIndexTwice(c, leg);
    } else {
      PresentIndexTwice(c, leg);
      var rest := WithoutIndex(pending, leg.index);
      assert (rest + [leg.Entry()])[|rest|] == leg.Entry();
      assert pending == pending[..n] + [pending[n]];
      WithoutIndexDrops(pending[..n], leg.index);
      RemovedIndexIsAbsent(pending, leg.index);
      if rest + [leg.Entry()] == pending {
        assert rest == (rest + [leg.Entry()])[..|rest|] == pending[..n];
      }
    }
  }

  // ------------------------------------------------------------------ what the unsettled balance means

  /** For each pending index, what the unsettled balance holds for it. */
  type Book = map<nat, int>

  ghost predicate Covers(book: Book, pending: seq<Htlc>) {
    forall index: nat :: index in book <==> HasIndex(pending, index)
  }

  ghost function Sum(book: Book): int {
    if book.Keys == {} then 0
    else
      var index := Pick(book.Keys);
      book[index] + Sum(book - {index})
  }

  lemma {:induction false} SumWithout(book: Book, index: nat)
    requires index in book
    ensures Sum(book) == book[index] + Sum(book - {index})
  {
    var picked := Pick(book.Keys);
    if picked != index {
      SumWithout(book - {picked}, index);
      SumWithout(book - {index}, picked);
      assert book - {picked} - {index} == book - {index} - {picked};
    }
  }

  ghost function Difference(c: ChannelState, book: Book): int {
    c.unsettledBalance - Sum(book)
  }

  ghost function BookAfter(book: Book, c: ChannelState, leg: Leg): Book {
    if HasIndex(c.pendingHtlcs, leg.index) then book - {leg.index} else book[leg.index := leg.Unsettled()]
  }

  /** The leg's index is not pending, or the leg moves the balance back by what is booked for it. */
  ghost predicate Agrees(book: Book, leg: Leg) {
    leg.index in book ==> book[leg.index] == leg.Unsettled()
  }

  /** Two legs move the balance alike exactly when their amounts agree, and their directions unless nothing moves. */
  lemma UnsettledAlikeIff(a: Leg, b: Leg)
    ensures a.Unsettled() == b.Unsettled()
            <==> a.incomingAmtMsat / 1000 == b.incomingAmtMsat / 1000 && (a.incoming == b.incoming || a.incomingAmtMsat < 1000)
  {
  }

  lemma ToggledIndexes(c: ChannelState, leg: Leg)
    ensures forall index: nat :: HasIndex(Toggle(c, leg).pendingHtlcs, index)
                                 <==> HasIndex(c.pendingHtlcs, index) != (index == leg.index)
  {
    var before, after := c.pendingHtlcs, Toggle(c, leg).pendingHtlcs;
    WithoutIndexDrops(before, leg.index);
    forall index: nat
      ensures HasIndex(after, index) <==> HasIndex(before, index) != (index == leg.index)
    {
      HasIndexOf(before, index);
      HasIndexOf(after, index);
    }
  }

  lemma HasIndexOf(pending: seq<Htlc>, index: nat)
    ensures HasIndex(pending, index) <==> exists h :: h in pending && h.htlcIndex == index
  {
    if h :| h in pending && h.htlcIndex == index {
      var i :| 0 <= i < |pending| && pending[i] == h;
    }
  }

  /** One leg keeps the difference between the unsettled balance and the bookings of the pending indexes exactly
      when it agrees with the book. */
  lemma LegKeepsDifferenceIff(c: ChannelState, book: Book, leg: Leg)
    requires Covers(book, c.pendingHtlcs)
    ensures Covers(BookAfter(book, c, leg), Toggle(c, leg).pendingHtlcs)
    ensures Difference(Toggle(c, leg), BookAfter(book, c, leg)) == Difference(c, book) <==> Agrees(book, leg)
  {
    ToggledIndexes(c, leg);
    if HasIndex(c.pendingHtlcs, leg.index) {
      SumWithout(book, leg.index);
    } else {
      SumWithout(book[leg.index := leg.Unsettled()], leg.index);
      assert book[leg.index := leg.Unsettled()] - {leg.index} == book;
    }
  }

  function Toggles(c: ChannelState, legs: seq<Leg>): ChannelState {
    if legs == [] then c else Toggle(Toggles(c, legs[..|legs| - 1]), legs[|legs| - 1])
  }

  ghost function BookOf(book: Book, c: ChannelState, legs: seq<Leg>): Book {
    if legs == [] then book
    else
      var init := legs[..|legs| - 1];
      BookAfter(BookOf(book, c, init), Toggles(c, init), legs[|legs| - 1])
  }

  /** Every leg agrees with the book as the legs before it left it. */
  ghost predicate AllAgree(book: Book, c: ChannelState, legs: seq<Leg>) {
    if legs == [] then true
    else AllAgree(book, c, legs[..|legs| - 1]) && Agrees(BookOf(book, c, legs[..|legs| - 1]), legs[|legs| - 1])
  }

  /** The difference is what it was at the start after every leg. */
  ghost predicate AlwaysKept(book: Book, c: ChannelState, legs: seq<Leg>) {
    && Difference(Toggles(c, legs), BookOf(book, c, legs)) == Difference(c, book)
    && (legs != [] ==> AlwaysKept(book, c, legs[..|legs| - 1]))
  }

  /** Over every run of legs, on any channel, the unsettled balance moves with the pending HTLCs all along
      exactly when every leg agrees with what is booked for its index. */
  lemma {:induction false} UnsettledTracksPending(c: ChannelState, book: Book, legs: seq<Leg>)
    requires Covers(book, c.pendingHtlcs)
    ensures Covers(BookOf(book, c, legs), Toggles(c, legs).pendingHtlcs)
    ensures AlwaysKept(book, c, legs) <==> AllAgree(book, c, legs)
  {
    if legs != [] {
      var init, leg := legs[..|legs| - 1], legs[|legs| - 1];
      UnsettledTracksPending(c, book, init);
      LegKeepsDifferenceIff(Toggles(c, init), BookOf(book, c, init), leg);
      if AlwaysKept(book, c, init) { KeptAtEnd(book, c, init); }
    }
  }

  lemma KeptAtEnd(book: Book, c: ChannelState, legs: seq<Leg>)
    requires AlwaysKept(book, c, legs)
    ensures Difference(Toggles(c, legs), BookOf(book, c, legs)) == Difference(c, book)
  {
  }

  lemma AgreedRunKeeps(c: ChannelState, book: Book, legs: seq<Leg>)
    requires Covers(book, c.pendingHtlcs)
    ensures AllAgree(book, c, legs) ==> Difference(Toggles(c, legs), BookOf(book, c, legs)) == Difference(c, book)
  {
    UnsettledTracksPending(c, book, legs);
    if AllAgree(book, c, legs) { KeptAtEnd(book, c, legs); }
  }

  lemma TwoLegs(c: ChannelState, book: Book, a: Leg, b: Leg)
    ensures Toggles(c, [a, b]) == Toggle(Toggle(c, a), b)
    ensures AllAgree(book, c, [a, b]) ==> Agrees(BookAfter(book, c, a), b)
  {
    TogglesOne(c, a);
    assert [a, b][..1] == [a] && [a][..0] == [];
    assert BookOf(book, c, [a]) == BookAfter(book, c, a);
  }

  /** Each side of a channel counts its HTLCs on its own (BOLT #2), so an incoming and an outgoing HTLC can share
      an index. Then the second one takes the first one's entry away and both amounts stay in the balance. */
  lemma SharedIndexLosesTrack(c: ChannelState, book: Book, incoming: Leg, outgoing: Leg)
    requires incoming.incoming && !outgoing.incoming && incoming.index == outgoing.index
    requires incoming.incomingAmtMsat >= 1000 || outgoing.incomingAmtMsat >= 1000
    requires Covers(book, c.pendingHtlcs) && !HasIndex(c.pendingHtlcs, incoming.index)
    ensures var d := Toggles(c, [incoming, outgoing]);
            && d.pendingHtlcs == c.pendingHtlcs
            && d.unsettledBalance == c.unsettledBalance + incoming.incomingAmtMsat / 1000 + outgoing.incomingAmtMsat / 1000
    ensures !AlwaysKept(book, c, [incoming, outgoing])
  {
    TwoLegs(c, book, incoming, outgoing);
    AddThenTake(c, incoming, outgoing);
    SecondLegDisagrees(c, book, incoming, outgoing);
    UnsettledTracksPending(c, book, [incoming, outgoing]);
  }

  lemma SecondLegDisagrees(c: ChannelState, book: Book, first: Leg, second: Leg)
    requires first.index == second.index && first.Unsettled() != second.Unsettled()
    requires !HasIndex(c.pendingHtlcs, first.index)
    ensures !Agrees(BookAfter(book, c, first), second)
  {
  }

  lemma AddThenTake(c: ChannelState, first: Leg, second: Leg)
    requires first.index == second.index && !HasIndex(c.pendingHtlcs, first.index)
    ensures var d := Toggle(Toggle(c, first), second);
            && d.pendingHtlcs == c.pendingHtlcs
            && d.unsettledBalance == c.unsettledBalance + first.Unsettled() - second.Unsettled()
  {
    AppendedIndexIsDropped(c.pendingHtlcs, first.Entry());
    WithoutIndexDrops(c.pendingHtlcs, first.index);
  }

  // ------------------------------------------------------------------ the amounts the entries carry

  function Signed(h: Htlc): int {
    if h.incoming then h.amount else -h.amount
  }

  function StoredTally(pending: seq<Htlc>): int {
    if pending == [] then 0 else StoredTally(pending[..|pending| - 1]) + Signed(pending[|pending| - 1])
  }

  function StoredAt(pending: seq<Htlc>, index: nat): int {
    if pending == [] then 0
    else
      var last := pending[|pending| - 1];
      StoredAt(pending[..|pending| - 1], index) + if last.htlcIndex == index then Signed(last) else 0
  }

  lemma {:induction false} TallyWithout(pending: seq<Htlc>, index: nat)
    ensures StoredTally(WithoutIndex(pending, index)) == StoredTally(pending) - StoredAt(pending, index)
  {
    if pending != [] {
      var n := |pending| - 1;
      TallyWithout(pending[..n], index);
      var rest := WithoutIndex(pending[..n], index);
      assert rest + [] == rest && (rest + [pending[n]])[..|rest|] == rest;
    }
  }

  /** One leg keeps the difference between the unsettled balance and the signed amounts of the entries exactly
      when it moves the balance by the amount of the entry it adds, or back by those of the entries it takes. An
      outgoing leg moves it by the incoming amount, so a fee of a satoshi is enough to lose track. */
  lemma StoredDifferenceKeptIff(c: ChannelState, leg: Leg)
    ensures var d := Toggle(c, leg);
            d.unsettledBalance - StoredTally(d.pendingHtlcs) == c.unsettledBalance - StoredTally(c.pendingHtlcs)
            <==> leg.Unsettled()
                 == if HasIndex(c.pendingHtlcs, leg.index) then StoredAt(c.pendingHtlcs, leg.index) else Signed(leg.Entry())
  {
    TallyWithout(c.pendingHtlcs, leg.index);
    assert (c.pendingHtlcs + [leg.Entry()])[..|c.pendingHtlcs|] == c.pendingHtlcs;
  }

  /** All entries are incoming, and carry the amount fixed for their index. */
  ghost predicate IncomingFixed(pending: seq<Htlc>, amountMsat: nat -> nat) {
    forall i | 0 <= i < |pending| :: pending[i].incoming && pending[i].amount == amountMsat(pending[i].htlcIndex) / 1000
  }

  lemma {:induction false} StoredAtOne(pending: seq<Htlc>, index: nat, amountMsat: nat -> nat)
    requires DistinctIndexes(pending) && IncomingFixed(pending, amountMsat)
    ensures StoredAt(pending, index) == if HasIndex(pending, index) then amountMsat(index) / 1000 else 0
  {
    if pending != [] {
      var n := |pending| - 1;
      StoredAtOne(pending[..n], index, amountMsat);
      assert pending[..n + 1] == pending;
      PrefixGrows(pending, n, index);
      if pending[n].htlcIndex == index {
        assert !HasIndex(pending[..n], index);
      }
    }
  }

  lemma IncomingStaysFixed(c: ChannelState, leg: Leg, amountMsat: nat -> nat)
    requires IncomingFixed(c.pendingHtlcs, amountMsat) && leg.incoming && leg.amountMsat == amountMsat(leg.index)
    ensures IncomingFixed(Toggle(c, leg).pendingHtlcs, amountMsat)
  {
    var before, after := c.pendingHtlcs, Toggle(c, leg).pendingHtlcs;
    WithoutIndexDrops(before, leg.index);
    forall i | 0 <= i < |after|
      ensures after[i].incoming && after[i].amount == amountMsat(after[i].htlcIndex) / 1000
    {
      assert after[i] in after;
      if after[i] in before {
        var j :| 0 <= j < |before| && before[j] == after[i];
      }
    }
  }

  /** On a channel with incoming HTLCs only, one fixed amount per index: the unsettled balance less the sum of
      the pending amounts is constant over every run. */
  lemma {:induction false} IncomingOnlyUnsettled(c: ChannelState, legs: seq<Leg>, amountMsat: nat -> nat)
    requires DistinctIndexes(c.pendingHtlcs) && IncomingFixed(c.pendingHtlcs, amountMsat)
    requires forall i | 0 <= i < |legs| ::
               legs[i].incoming && legs[i].amountMsat == legs[i].incomingAmtMsat == amountMsat(legs[i].index)
    ensures var d := Toggles(c, legs);
            && DistinctIndexes(d.pendingHtlcs) && IncomingFixed(d.pendingHtlcs, amountMsat)
            && d.unsettledBalance - StoredTally(d.pendingHtlcs) == c.unsettledBalance - StoredTally(c.pendingHtlcs)
  {
    if legs != [] {
      var n := |legs| - 1;
      IncomingOnlyUnsettled(c, legs[..n], amountMsat);
      var before := Toggles(c, legs[..n]);
      ToggleKeepsDistinct(before, legs[n]);
      IncomingStaysFixed(before, legs[n], amountMsat);
      StoredAtOne(before.pendingHtlcs, legs[n].index, amountMsat);
      StoredDifferenceKeptIff(before, legs[n]);
    }
  }

  lemma TogglesOne(c: ChannelState, leg: Leg)
    ensures Toggles(c, [leg]) == Toggle(c, leg)
  {
    assert [leg][..0] == [];
  }

  lemma {:induction false} TogglesOfConcat(c: ChannelState, a: seq<Leg>, b: seq<Leg>)
    ensures Toggles(c, a + b) == Toggles(Toggles(c, a), b)
  {
    if b == [] {
      assert a + b == a;
    } else {
      assert (a + b)[..|a + b| - 1] == a + b[..|b| - 1];
      TogglesOfConcat(c, a, b[..|b| - 1]);
    }
  }

  // ------------------------------------------------------------------ HTLC events

  function IncomingLeg(e: HtlcEvent): Option<Leg> {
    if e.incomingAmtMsat.Some? && e.incomingHtlcId.Some? then
      Some(Leg(true, e.incomingHtlcId.value, e.incomingAmtMsat.value, e.incomingAmtMsat.value))
    else None
  }

  function IncomingWritten(states: States, e: HtlcEvent): States {
    if e.incomingChannelId.GetOr(0) != 0 && IncomingLeg(e).Some? then
      UpdateAt(states, e.nodeId, e.incomingChannelId.value, (c: ChannelState) => Toggle(c, IncomingLeg(e).value))
    else states
  }

  /** The outgoing leg dereferences the incoming amount, present or not. */
  predicate OutgoingLegPanics(states: States, e: HtlcEvent) {
    && e.nodeId in states && e.outgoingChannelId.GetOr(0) != 0 && e.outgoingChannelId.value in states[e.nodeId]
    && e.outgoingAmtMsat.Some? && e.outgoingHtlcId.Some? && e.incomingAmtMsat.None?
  }

  function OutgoingLeg(e: HtlcEvent): Option<Leg> {
    if e.outgoingAmtMsat.Some? && e.outgoingHtlcId.Some? && e.incomingAmtMsat.Some? then
      Some(Leg(false, e.outgoingHtlcId.value, e.outgoingAmtMsat.value, e.incomingAmtMsat.value))
    else None
  }

  function OutgoingWritten(states: States, e: HtlcEvent): States {
    if e.outgoingChannelId.GetOr(0) != 0 && OutgoingLeg(e).Some? then
      UpdateAt(states, e.nodeId, e.outgoingChannelId.value, (c: ChannelState) => Toggle(c, OutgoingLeg(e).value))
    else states
  }

  predicate Acceptable(e: HtlcEvent) {
    e.nodeId != 0 && (e.outgoingChannelId.GetOr(0) != 0 || e.incomingChannelId.GetOr(0) != 0)
  }

  // ------------------------------------------------------------------ what the producer sends

  datatype HtlcKind = Forward | LinkFail | Settle | ForwardFail | Unhandled

  /** An event that the node streams, and whether the database accepts it. */
  datatype LndEvent = LndEvent(kind: HtlcKind, incomingChannelId: Option<int>, outgoingChannelId: Option<int>,
                               incomingHtlcId: nat, outgoingHtlcId: nat, incomingAmtMsat: nat, outgoingAmtMsat: nat,
                               stored: bool)
  {
    /** A forward and a failure on the link come with amounts; a settle and a failed forward do not. */
    predicate Carries() {
      stored && (kind == Forward || kind == LinkFail)
    }
  }

  /** What is sent for an event: nothing but the node when storing it failed. */
  function StoredEvent(nodeId: int, e: LndEvent): HtlcEvent {
    if !e.stored then HtlcEvent(nodeId, None, None, None, None, None, None)
    else HtlcEvent(nodeId, e.incomingChannelId, e.outgoingChannelId, Some(e.incomingHtlcId), Some(e.outgoingHtlcId),
                   if e.Carries() then Some(e.incomingAmtMsat) else None,
                   if e.Carries() then Some(e.outgoingAmtMsat) else None)
  }

  /** The producer's variable after the events: an unhandled kind leaves it as it was, and so sends it once more. */
  function LastSent(nodeId: int, stream: seq<LndEvent>): HtlcEvent {
    if stream == [] then HtlcEvent(nodeId, None, None, None, None, None, None)
    else
      var e := stream[|stream| - 1];
      if e.kind == Unhandled then LastSent(nodeId, stream[..|stream| - 1]) else StoredEvent(nodeId, e)
  }

  function AllSent(nodeId: int, stream: seq<LndEvent>): (sent: seq<HtlcEvent>)
    ensures |sent| == |stream|
  {
    if stream == [] then [] else AllSent(nodeId, stream[..|stream| - 1]) + [LastSent(nodeId, stream)]
  }

  /** The event sent for event i of the stream: with its own channels and indexes, and with its amounts for a forward
      and a link failure alone; empty where storing failed; and the one before it again for an unhandled kind. */
  ghost predicate SentFor(nodeId: int, stream: seq<LndEvent>, sent: seq<HtlcEvent>, i: int)
    requires |sent| == |stream| && 0 <= i < |sent|
  {
    var e, x := stream[i], sent[i];
    && x.nodeId == nodeId
    && if e.kind == Unhandled && i > 0 then x == sent[i - 1]
       else if e.kind == Unhandled || !e.stored then
         && x.incomingChannelId == None && x.outgoingChannelId == None && x.incomingHtlcId == None && x.outgoingHtlcId == None
         && x.incomingAmtMsat == None && x.outgoingAmtMsat == None
       else
         && x.incomingChannelId == e.incomingChannelId && x.outgoingChannelId == e.outgoingChannelId
         && x.incomingHtlcId == Some(e.incomingHtlcId) && x.outgoingHtlcId == Some(e.outgoingHtlcId)
         && (if e.kind == Forward || e.kind == LinkFail then
               x.incomingAmtMsat == Some(e.incomingAmtMsat) && x.outgoingAmtMsat == Some(e.outgoingAmtMsat)
             else x.incomingAmtMsat == None && x.outgoingAmtMsat == None)
  }

  lemma {:induction false} SentIsTold(nodeId: int, stream: seq<LndEvent>)
    ensures LastSent(nodeId, stream).nodeId == nodeId
    ensures forall i | 0 <= i < |stream| :: SentFor(nodeId, stream, AllSent(nodeId, stream), i)
  {
    if stream != [] {
      var n := |stream| - 1;
      var init := stream[..n];
      SentIsTold(nodeId, init);
      forall i | 0 <= i < n
        ensures SentFor(nodeId, stream, AllSent(nodeId, stream), i)
      {
        assert SentFor(nodeId, init, AllSent(nodeId, init), i);
      }
      if n > 0 { assert AllSent(nodeId, stream)[n - 1] == AllSent(nodeId, init)[n - 1] == LastSent(nodeId, init); }
    }
  }

  /** The producer's loop. */
  method SendHtlcEvents(nodeId: int, stream: seq<LndEvent>) returns (sent: seq<HtlcEvent>)
    ensures sent == AllSent(nodeId, stream)
    ensures |sent| == |stream| && forall i | 0 <= i < |sent| :: SentFor(nodeId, stream, sent, i)
  {
    SentIsTold(nodeId, stream);
    sent := [];
    var storedHtlcEvent := HtlcEvent(nodeId, None, None, None, None, None, None);
    for i := 0 to |stream|
      invariant sent == AllSent(nodeId, stream[..i]) && storedHtlcEvent == LastSent(nodeId, stream[..i])
    {
      assert stream[..i + 1][..i] == stream[..i];
      if stream[i].kind != Unhandled {
        storedHtlcEvent := StoredEvent(nodeId, stream[i]);
      }
      sent := sent + [storedHtlcEvent];
    }
    assert stream[..|stream|] == stream;
  }

  /** The streamed event whose amounts the last one sent carries, if it carries any. */
  function Carrier(stream: seq<LndEvent>): Option<LndEvent> {
    if stream == [] then None
    else
      var e := stream[|stream| - 1];
      if e.kind == Unhandled then Carrier(stream[..|stream| - 1]) else if e.Carries() then Some(e) else None
  }

  /** How many of its two legs are for this index of the channel. */
  function TurnsOf(carrier: Option<LndEvent>, channelId: int, index: nat): (turns: nat)
    ensures turns <= 2
  {
    match carrier
    case None => 0
    case Some(e) =>
      (if e.incomingChannelId == Some(channelId) && e.incomingHtlcId == index then 1 else 0)
      + (if e.outgoingChannelId == Some(channelId) && e.outgoingHtlcId == index then 1 else 0)
  }

  function Turns(stream: seq<LndEvent>, channelId: int, index: nat): nat {
    if stream == [] then 0
    else Turns(stream[..|stream| - 1], channelId, index) + TurnsOf(Carrier(stream), channelId, index)
  }

  function CountIndex(legs: seq<Leg>, index: nat): nat {
    if legs == [] then 0
    else CountIndex(legs[..|legs| - 1], index) + if legs[|legs| - 1].index == index then 1 else 0
  }

  lemma {:induction false} CountOfConcat(a: seq<Leg>, b: seq<Leg>, index: nat)
    ensures CountIndex(a + b, index) == CountIndex(a, index) + CountIndex(b, index)
  {
    if b == [] {
      assert a + b == a;
    } else {
      assert (a + b)[..|a + b| - 1] == a + b[..|b| - 1];
      CountOfConcat(a, b[..|b| - 1], index);
    }
  }

  lemma CountOne(leg: Leg, index: nat)
    ensures CountIndex([leg], index) == if leg.index == index then 1 else 0
  {
    assert [leg][..0] == [];
  }

  /** An index is pending after a run of legs exactly when an odd number of them flips what it was before. */
  lemma {:induction false} PendingIsParity(c: ChannelState, legs: seq<Leg>, index: nat)
    ensures HasIndex(Toggles(c, legs).pendingHtlcs, index)
            <==> HasIndex(c.pendingHtlcs, index) != (CountIndex(legs, index) % 2 == 1)
  {
    if legs != [] {
      var init := legs[..|legs| - 1];
      PendingIsParity(c, init, index);
      ToggledIndexes(Toggles(c, init), legs[|legs| - 1]);
      OddNext(CountIndex(init, index));
    }
  }

  lemma OddNext(n: nat)
    ensures (n + 1) % 2 == 1 <==> n % 2 != 1
  {
  }

  lemma {:induction false} LegsOfLastSent(nodeId: int, stream: seq<LndEvent>, channelId: int, index: nat)
    requires nodeId != 0 && channelId != 0
    ensures CountIndex(LegsOf(LastSent(nodeId, stream), nodeId, channelId), index)
            == TurnsOf(Carrier(stream), channelId, index)
  {
    if stream != [] {
      var e := stream[|stream| - 1];
      if e.kind == Unhandled {
        LegsOfLastSent(nodeId, stream[..|stream| - 1], channelId, index);
      } else {
        LegsOfStored(nodeId, e, channelId, index);
      }
    }
  }

  lemma LegsOfStored(nodeId: int, e: LndEvent, channelId: int, index: nat)
    requires nodeId != 0 && channelId != 0
    ensures CountIndex(LegsOf(StoredEvent(nodeId, e), nodeId, channelId), index)
            == TurnsOf(if e.Carries() then Some(e) else None, channelId, index)
  {
    if e.Carries() {
      var a := Leg(true, e.incomingHtlcId, e.incomingAmtMsat, e.incomingAmtMsat);
      var b := Leg(false, e.outgoingHtlcId, e.outgoingAmtMsat, e.incomingAmtMsat);
      var incoming := if e.incomingChannelId == Some(channelId) then [a] else [];
      var outgoing := if e.outgoingChannelId == Some(channelId) then [b] else [];
      assert LegsOf(StoredEvent(nodeId, e), nodeId, channelId) == incoming + outgoing;
      CountOfConcat(incoming, outgoing, index);
      CountOne(a, index);
      CountOne(b, index);
    }
  }

  /** The legs of a channel in everything the producer sent for a stream. */
  function SentLegs(nodeId: int, stream: seq<LndEvent>, channelId: int): seq<Leg> {
    if stream == [] then []
    else SentLegs(nodeId, stream[..|stream| - 1], channelId) + LegsOf(LastSent(nodeId, stream), nodeId, channelId)
  }

  lemma {:induction false} SentLegsAreAllLegs(nodeId: int, stream: seq<LndEvent>, channelId: int)
    ensures SentLegs(nodeId, stream, channelId) == AllLegsOf(AllSent(nodeId, stream), nodeId, channelId)
  {
    if stream != [] {
      var init := stream[..|stream| - 1];
      SentLegsAreAllLegs(nodeId, init, channelId);
      assert AllSent(nodeId, stream)[..|init|] == AllSent(nodeId, init);
    }
  }

  lemma {:induction false} LegsOfSent(nodeId: int, stream: seq<LndEvent>, channelId: int, index: nat)
    requires nodeId != 0 && channelId != 0
    ensures CountIndex(SentLegs(nodeId, stream, channelId), index) == Turns(stream, channelId, index)
  {
    if stream != [] {
      var init := stream[..|stream| - 1];
      LegsOfSent(nodeId, init, channelId, index);
      LegsOfLastSent(nodeId, stream, channelId, index);
      CountOfConcat(SentLegs(nodeId, init, channelId), LegsOf(LastSent(nodeId, stream), nodeId, channelId), index);
    }
  }

  /** The index is pending in the channel after everything the producer sent for a stream. */
  predicate PendingAfter(c: ChannelState, nodeId: int, channelId: int, stream: seq<LndEvent>, index: nat) {
    HasIndex(Toggles(c, SentLegs(nodeId, stream, channelId)).pendingHtlcs, index)
  }

  /** Over every stream an index is pending exactly when an odd number of turns flips what it was at the start: one
      for each forward or link failure that names it, and one more each time an unhandled event repeats that one. */
  lemma PendingAfterStreamIff(c: ChannelState, nodeId: int, channelId: int, stream: seq<LndEvent>, index: nat)
    requires nodeId != 0 && channelId != 0
    ensures PendingAfter(c, nodeId, channelId, stream, index)
            <==> HasIndex(c.pendingHtlcs, index) != (Turns(stream, channelId, index) % 2 == 1)
  {
    PendingIsParity(c, SentLegs(nodeId, stream, channelId), index);
    LegsOfSent(nodeId, stream, channelId, index);
  }

  lemma LegsTakeAwayIff(c: ChannelState, legs: seq<Leg>, turns: nat, index: nat)
    requires HasIndex(c.pendingHtlcs, index) && CountIndex(legs, index) == turns <= 2
    ensures !HasIndex(Toggles(c, legs).pendingHtlcs, index) <==> turns == 1
  {
    PendingIsParity(c, legs, index);
  }

  /** So an event takes an entry away exactly when one leg of what is sent for it has the index. */
  lemma EntryLeavesIff(c: ChannelState, nodeId: int, channelId: int, stream: seq<LndEvent>, index: nat)
    requires nodeId != 0 && channelId != 0 && stream != []
    requires PendingAfter(c, nodeId, channelId, stream[..|stream| - 1], index)
    ensures !PendingAfter(c, nodeId, channelId, stream, index) <==> TurnsOf(Carrier(stream), channelId, index) == 1
  {
    LegsOfLastSent(nodeId, stream, channelId, index);
    var before := SentLegs(nodeId, stream[..|stream| - 1], channelId);
    var legs := LegsOf(LastSent(nodeId, stream), nodeId, channelId);
    TogglesOfConcat(c, before, legs);
    LegsTakeAwayIff(Toggles(c, before), legs, TurnsOf(Carrier(stream), channelId, index), index);
  }

  lemma SettleHasNoLegs(nodeId: int, stream: seq<LndEvent>, channelId: int)
    requires stream != [] && stream[|stream| - 1].kind in {Settle, ForwardFail}
    ensures SentLegs(nodeId, stream, channelId) == SentLegs(nodeId, stream[..|stream| - 1], channelId)
  {
  }

  /** Settles and failed forwards have no amounts, so no number of them has a leg: what was forwarded and has been
      settled is pending still. */
  lemma {:induction false} SettledStaysPending(nodeId: int, stream: seq<LndEvent>, k: nat, channelId: int)
    requires k <= |stream| && forall i | k <= i < |stream| :: stream[i].kind in {Settle, ForwardFail}
    ensures SentLegs(nodeId, stream, channelId) == SentLegs(nodeId, stream[..k], channelId)
  {
    if k == |stream| {
      assert stream[..k] == stream;
    } else {
      var init := stream[..|stream| - 1];
      SettleHasNoLegs(nodeId, stream, channelId);
      SettledStaysPending(nodeId, init, k, channelId);
      assert init[..k] == stream[..k];
    }
  }

  lemma SameLegTwice(c: ChannelState, legs: seq<Leg>, leg: Leg)
    requires !HasIndex(Toggles(c, legs).pendingHtlcs, leg.index)
    ensures HasIndex(Toggles(c, legs + [leg]).pendingHtlcs, leg.index)
    ensures Toggles(c, legs + [leg] + [leg]) == Toggles(c, legs)
  {
    TogglesOfConcat(c, legs, [leg]);
    TogglesOfConcat(c, legs + [leg], [leg]);
    TogglesOne(Toggles(c, legs), leg);
    TogglesOne(Toggles(c, legs + [leg]), leg);
    AbsentIndexTwice(Toggles(c, legs), leg);
    ToggledIndexes(Toggles(c, legs), leg);
  }

  /** An event of an unhandled kind right after a forward takes the forward's entry away again. */
  lemma UnhandledTakesBack(c: ChannelState, nodeId: int, channelId: int, stream: seq<LndEvent>)
    requires nodeId != 0 && channelId != 0 && |stream| >= 2 && stream[|stream| - 1].kind == Unhandled
    requires var forward := stream[|stream| - 2];
             && forward.Carries() && forward.incomingChannelId == Some(channelId)
             && forward.outgoingChannelId != Some(channelId)
             && !PendingAfter(c, nodeId, channelId, stream[..|stream| - 2], forward.incomingHtlcId)
    ensures PendingAfter(c, nodeId, channelId, stream[..|stream| - 1], stream[|stream| - 2].incomingHtlcId)
    ensures Toggles(c, SentLegs(nodeId, stream, channelId))
            == Toggles(c, SentLegs(nodeId, stream[..|stream| - 2], channelId))
  {
    var forward := stream[|stream| - 2];
    var leg := Leg(true, forward.incomingHtlcId, forward.incomingAmtMsat, forward.incomingAmtMsat);
    assert LegsOf(StoredEvent(nodeId, forward), nodeId, channelId) == [leg];
    RepeatedLegs(nodeId, stream, channelId);
    SameLegTwice(c, SentLegs(nodeId, stream[..|stream| - 2], channelId), leg);
  }

  lemma RepeatedLegs(nodeId: int, stream: seq<LndEvent>, channelId: int)
    requires |stream| >= 2 && stream[|stream| - 1].kind == Unhandled && stream[|stream| - 2].kind != Unhandled
    ensures var before := SentLegs(nodeId, stream[..|stream| - 2], channelId);
            var legs := LegsOf(StoredEvent(nodeId, stream[|stream| - 2]), nodeId, channelId);
            && SentLegs(nodeId, stream[..|stream| - 1], channelId) == before + legs
            && SentLegs(nodeId, stream, channelId) == before + legs + legs
  {
    assert stream[..|stream| - 1][..|stream| - 2] == stream[..|stream| - 2];
  }

  /** Both amounts or neither. */
  predicate Produced(e: HtlcEvent) {
    e.incomingAmtMsat.Some? <==> e.outgoingAmtMsat.Some?
  }

  lemma {:induction false} SentIsProduced(nodeId: int, stream: seq<LndEvent>)
    ensures Produced(LastSent(nodeId, stream)) && forall e | e in AllSent(nodeId, stream) :: Produced(e)
  {
    if stream != [] { SentIsProduced(nodeId, stream[..|stream| - 1]); }
  }

  lemma SentTurns(c: ChannelState, nodeId: int, channelId: int, stream: seq<LndEvent>)
    ensures var legs := AllLegsOf(AllSent(nodeId, stream), nodeId, channelId);
            nodeId != 0 && channelId != 0 ==>
              forall index: nat :: HasIndex(Toggles(c, legs).pendingHtlcs, index) <==>
                HasIndex(c.pendingHtlcs, index) != (Turns(stream, channelId, index) % 2 == 1)
  {
    SentLegsAreAllLegs(nodeId, stream, channelId);
    forall index: nat | nodeId != 0 && channelId != 0
      ensures PendingAfter(c, nodeId, channelId, stream, index)
              <==> HasIndex(c.pendingHtlcs, index) != (Turns(stream, channelId, index) % 2 == 1)
    {
      PendingAfterStreamIff(c, nodeId, channelId, stream, index);
    }
  }

  /** So no event that is produced makes the cache panic. */
  lemma ProducedNeverPanics(states: States, events: seq<HtlcEvent>, i: nat)
    requires i < |events|
    ensures (forall e | e in events :: Produced(e)) ==> !OutgoingLegPanics(states, events[i])
  {
    if forall e | e in events :: Produced(e) {
      assert Produced(events[i]);
    }
  }

  /** The legs of an event for one channel of one node, in order. */
  function LegsOf(e: HtlcEvent, nodeId: int, channelId: int): seq<Leg> {
    if !Acceptable(e) || e.nodeId != nodeId || channelId == 0 then []
    else
      (if e.incomingChannelId == Some(channelId) && IncomingLeg(e).Some? then [IncomingLeg(e).value] else [])
      + (if e.outgoingChannelId == Some(channelId) && OutgoingLeg(e).Some? then [OutgoingLeg(e).value] else [])
  }

  function AllLegsOf(events: seq<HtlcEvent>, nodeId: int, channelId: int): seq<Leg> {
    if events == [] then []
    else AllLegsOf(events[..|events| - 1], nodeId, channelId) + LegsOf(events[|events| - 1], nodeId, channelId)
  }

  ghost predicate SameChannels(before: States, after: States) {
    after.Keys == before.Keys && forall n | n in before :: after[n].Keys == before[n].Keys
  }

  lemma LegWritten(states: States, nodeId: int, channelId: int, leg: Leg, n: int, id: int)
    requires n in states && id in states[n]
    ensures var after := UpdateAt(states, nodeId, channelId, (c: ChannelState) => Toggle(c, leg));
            && SameChannels(states, after)
            && after[n][id] == Toggles(states[n][id], if n == nodeId && id == channelId then [leg] else [])
  {
    TogglesOne(states[n][id], leg);
  }

  /** An event that does not panic toggles exactly its legs in every cached channel. */
  lemma EventTogglesLegs(states: States, e: HtlcEvent, n: int, id: int)
    requires Acceptable(e) && n in states && id in states[n]
    ensures var after := OutgoingWritten(IncomingWritten(states, e), e);
            SameChannels(states, after) && after[n][id] == Toggles(states[n][id], LegsOf(e, n, id))
  {
    var first := IncomingWritten(states, e);
    if e.incomingChannelId.GetOr(0) != 0 && IncomingLeg(e).Some? {
      LegWritten(states, e.nodeId, e.incomingChannelId.value, IncomingLeg(e).value, n, id);
    }
    if e.outgoingChannelId.GetOr(0) != 0 && OutgoingLeg(e).Some? {
      LegWritten(first, e.nodeId, e.outgoingChannelId.value, OutgoingLeg(e).value, n, id);
    }
    var mine := e.nodeId == n && id != 0;
    var incoming :=
      if mine && e.incomingChannelId == Some(id) && IncomingLeg(e).Some? then [IncomingLeg(e).value] else [];
    var outgoing :=
      if mine && e.outgoingChannelId == Some(id) && OutgoingLeg(e).Some? then [OutgoingLeg(e).value] else [];
    TogglesOfConcat(states[n][id], incoming, outgoing);
    assert incoming + outgoing == LegsOf(e, n, id);
  }

  // ------------------------------------------------------------------ what an event moves, by its own fields

  function Occurrences(pending: seq<Htlc>, h: Htlc): nat {
    if pending == [] then 0
    else Occurrences(pending[..|pending| - 1], h) + if pending[|pending| - 1] == h then 1 else 0
  }

  /** The channel after one leg of an HTLC: where the index is pending its entries are gone and the incoming amount is
      taken back out of the unsettled balance, and where it is not an entry with the leg's own amount is appended and
      the incoming amount put in, in whole satoshi and negative on the outgoing side. */
  ghost predicate LegMoves(c: ChannelState, d: ChannelState, incoming: bool, index: nat, amountMsat: nat, incomingAmtMsat: nat) {
    var unsettled := if incoming then incomingAmtMsat / 1000 else -(incomingAmtMsat / 1000);
    && d.(pendingHtlcs := c.pendingHtlcs, unsettledBalance := c.unsettledBalance) == c
    && if exists i :: 0 <= i < |c.pendingHtlcs| && c.pendingHtlcs[i].htlcIndex == index then
         && d.unsettledBalance == c.unsettledBalance - unsettled
         && forall h :: Occurrences(d.pendingHtlcs, h) == if h.htlcIndex == index then 0 else Occurrences(c.pendingHtlcs, h)
       else
         && d.unsettledBalance == c.unsettledBalance + unsettled
         && d.pendingHtlcs == c.pendingHtlcs + [Htlc(
              incoming := incoming, amount := amountMsat / 1000, htlcIndex := index, forwardingChannel := 0,
              forwardingHtlcIndex := 0)]
  }

  /** A node's channel after the incoming side of an event that names it so, with index and amount. */
  ghost predicate IncomingStep(e: HtlcEvent, nodeId: int, channelId: int, c: ChannelState, d: ChannelState) {
    if nodeId != 0 && channelId != 0 && e.nodeId == nodeId && e.incomingChannelId == Some(channelId)
       && e.incomingHtlcId.Some? && e.incomingAmtMsat.Some?
    then LegMoves(c, d, true, e.incomingHtlcId.value, e.incomingAmtMsat.value, e.incomingAmtMsat.value)
    else d == c
  }

  ghost predicate OutgoingStep(e: HtlcEvent, nodeId: int, channelId: int, c: ChannelState, d: ChannelState) {
    if nodeId != 0 && channelId != 0 && e.nodeId == nodeId && e.outgoingChannelId == Some(channelId)
       && e.outgoingHtlcId.Some? && e.outgoingAmtMsat.Some? && e.incomingAmtMsat.Some?
    then LegMoves(c, d, false, e.outgoingHtlcId.value, e.outgoingAmtMsat.value, e.incomingAmtMsat.value)
    else d == c
  }

  /** A node's channel after an event: the incoming side first, then the outgoing one. */
  ghost predicate EventMoves(e: HtlcEvent, nodeId: int, channelId: int, c: ChannelState, d: ChannelState) {
    exists mid :: IncomingStep(e, nodeId, channelId, c, mid) && OutgoingStep(e, nodeId, channelId, mid, d)
  }

  lemma OccurrencesNext(pending: seq<Htlc>, last: Htlc, h: Htlc)
    ensures Occurrences(pending + [last], h) == Occurrences(pending, h) + if last == h then 1 else 0
  {
    assert (pending + [last])[..|pending|] == pending;
  }

  lemma {:induction false} WithoutIndexCounts(pending: seq<Htlc>, index: nat, h: Htlc)
    ensures Occurrences(WithoutIndex(pending, index), h) == if h.htlcIndex == index then 0 else Occurrences(pending, h)
  {
    if pending != [] {
      var init, last := pending[..|pending| - 1], pending[|pending| - 1];
      var rest := WithoutIndex(init, index);
      WithoutIndexCounts(init, index, h);
      OccurrencesNext(rest, last, h);
      assert WithoutIndex(pending, index) == if last.htlcIndex == index then rest else rest + [last];
    }
  }

  lemma ToggleMoves(c: ChannelState, leg: Leg)
    ensures LegMoves(c, Toggle(c, leg), leg.incoming, leg.index, leg.amountMsat, leg.incomingAmtMsat)
  {
    forall h
      ensures Occurrences(WithoutIndex(c.pendingHtlcs, leg.index), h)
              == if h.htlcIndex == leg.index then 0 else Occurrences(c.pendingHtlcs, h)
    {
      WithoutIndexCounts(c.pendingHtlcs, leg.index, h);
    }
  }

  lemma ToggledAt(states: States, nodeId: int, channelId: int, leg: Leg, n: int, id: int)
    requires n in states && id in states[n]
    ensures var after := UpdateAt(states, nodeId, channelId, (c: ChannelState) => Toggle(c, leg));
            && SameChannels(states, after)
            && after[n][id] == if n == nodeId && id == channelId then Toggle(states[n][id], leg) else states[n][id]
  {
  }

  lemma IncomingMoves(states: States, e: HtlcEvent, n: int, id: int)
    requires Acceptable(e) && n in states && id in states[n]
    ensures var after := IncomingWritten(states, e);
            SameChannels(states, after) && IncomingStep(e, n, id, states[n][id], after[n][id])
  {
    if IncomingLeg(e).Some? {
      ToggleMoves(states[n][id], IncomingLeg(e).value);
      if e.incomingChannelId.GetOr(0) != 0 {
        ToggledAt(states, e.nodeId, e.incomingChannelId.value, IncomingLeg(e).value, n, id);
      }
    }
  }

  lemma OutgoingMoves(states: States, e: HtlcEvent, n: int, id: int)
    requires Acceptable(e) && n in states && id in states[n]
    ensures var after := OutgoingWritten(states, e);
            SameChannels(states, after) && OutgoingStep(e, n, id, states[n][id], after[n][id])
  {
    if OutgoingLeg(e).Some? {
      ToggleMoves(states[n][id], OutgoingLeg(e).value);
      if e.outgoingChannelId.GetOr(0) != 0 {
        ToggledAt(states, e.nodeId, e.outgoingChannelId.value, OutgoingLeg(e).value, n, id);
      }
    }
  }

  lemma RejectedMovesNothing(e: HtlcEvent, n: int, id: int, c: ChannelState)
    requires !Acceptable(e)
    ensures EventMoves(e, n, id, c, c)
  {
    assert IncomingStep(e, n, id, c, c) && OutgoingStep(e, n, id, c, c);
  }

  /** What is written for an event moves every channel as the event's fields say. */
  lemma WrittenMoves(states: States, e: HtlcEvent, n: int, id: int)
    requires Acceptable(e) && n in states && id in states[n]
    ensures var after := OutgoingWritten(IncomingWritten(states, e), e);
            SameChannels(states, after) && EventMoves(e, n, id, states[n][id], after[n][id])
  {
    IncomingMoves(states, e, n, id);
    OutgoingMoves(IncomingWritten(states, e), e, n, id);
  }

  ghost predicate AllMoved(before: States, after: States, e: HtlcEvent) {
    && SameChannels(before, after)
    && forall n, id | n in before && id in before[n] :: EventMoves(e, n, id, before[n][id], after[n][id])
  }

  lemma AllWrittenMoves(states: States, e: HtlcEvent)
    ensures AllMoved(states, if Acceptable(e) then OutgoingWritten(IncomingWritten(states, e), e) else states, e)
  {
    if Acceptable(e) {
      WrittenKeepsChannels(states, e);
    }
    forall n, id | n in states && id in states[n]
      ensures if Acceptable(e) then EventMoves(e, n, id, states[n][id], OutgoingWritten(IncomingWritten(states, e), e)[n][id])
              else EventMoves(e, n, id, states[n][id], states[n][id])
    {
      if Acceptable(e) {
        WrittenMoves(states, e, n, id);
      } else {
        RejectedMovesNothing(e, n, id, states[n][id]);
      }
    }
  }

  lemma WrittenKeepsChannels(states: States, e: HtlcEvent)
    ensures SameChannels(states, OutgoingWritten(IncomingWritten(states, e), e))
  {
  }

  lemma LegsOfNext(states: States, events: seq<HtlcEvent>, i: nat, n: int, id: int, before: ChannelState)
    requires i < |events| && n in states && id in states[n]
    requires states[n][id] == Toggles(before, AllLegsOf(events[..i], n, id))
    ensures var after := if Acceptable(events[i]) then OutgoingWritten(IncomingWritten(states, events[i]), events[i]) else states;
            SameChannels(states, after) && after[n][id] == Toggles(before, AllLegsOf(events[..i + 1], n, id))
  {
    var legs := AllLegsOf(events[..i], n, id);
    assert events[..i + 1][..i] == events[..i];
    TogglesOfConcat(before, legs, LegsOf(events[i], n, id));
    if Acceptable(events[i]) {
      EventTogglesLegs(states, events[i], n, id);
    } else {
      assert legs + [] == legs;
    }
  }

  ghost predicate AllDistinct(states: States) {
    forall n, id | n in states && id in states[n] :: DistinctIndexes(states[n][id].pendingHtlcs)
  }

  lemma ToggledStatesDistinct(states: States, nodeId: int, channelId: int, leg: Leg)
    requires AllDistinct(states)
    ensures AllDistinct(UpdateAt(states, nodeId, channelId, (c: ChannelState) => Toggle(c, leg)))
  {
    if nodeId in states && channelId in states[nodeId] {
      ToggleKeepsDistinct(states[nodeId][channelId], leg);
    }
  }

  // ------------------------------------------------------------------ the cache

  class ChannelStateCache {
    var states: States
    var statuses: map<int, Status>
    /** When each node was last seen to stop being active, in seconds. */
    var deactivationTimes: map<int, int>

    constructor ()
      ensures states == map[] && statuses == map[] && deactivationTimes == map[]
    {
      states, statuses, deactivationTimes := map[], map[], map[];
    }

    /** Active, or inactive for less than the tolerated downtime. */
    predicate IsNodeReady(nodeId: int, now: int)
      reads this
    {
      || (nodeId in statuses && statuses[nodeId] == Active)
      || (nodeId in deactivationTimes && now - deactivationTimes[nodeId] < TOLERATED_SUBSCRIPTION_DOWNTIME_SECONDS)
    }

    /** Replaces all the node's channels; of two entries for one channel the later stays. */
    method WriteInitialChannelStates(nodeId: int, settings: seq<ChannelState>)
      modifies `states
      ensures nodeId == 0 ==> states == old(states)
      ensures nodeId != 0 ==> states == old(states)[nodeId := ByChannel(settings)]
      ensures nodeId != 0 ==> HoldsLast(states[nodeId], settings)
    {
      if nodeId == 0 {
        return;
      }
      var settingsByChannel: Channels := map[];
      for i := 0 to |settings|
        invariant settingsByChannel == ByChannel(settings[..i])
      {
        assert settings[..i + 1][..i] == settings[..i];
        settingsByChannel := settingsByChannel[settings[i].channelId := settings[i]];
      }
      assert settings[..|settings|] == settings;
      ByChannelHoldsLast(settings);
      states := states[nodeId := settingsByChannel];
    }

    method WriteNodeStatus(nodeId: int, status: Status, now: int)
      modifies `statuses, `deactivationTimes
      ensures nodeId == 0 ==> statuses == old(statuses) && deactivationTimes == old(deactivationTimes)
      ensures nodeId != 0 ==>
                && statuses == old(statuses)[nodeId := status]
                && deactivationTimes ==
                   if nodeId !in old(statuses) || (old(statuses)[nodeId] == Active && status != Active)
                   then old(deactivationTimes)[nodeId := now] else old(deactivationTimes)
      // Once active the node is ready; when it stops being active it stays ready for the tolerated time only.
      ensures nodeId != 0 && status == Active ==> forall t :: IsNodeReady(nodeId, t)
      ensures nodeId != 0 && status != Active && nodeId in old(statuses) && old(statuses)[nodeId] == Active ==>
                forall t :: IsNodeReady(nodeId, t) <==> t < now + 15
    {
      if nodeId == 0 {
        return;
      }
      if nodeId in statuses {
        var currentStatus := statuses[nodeId];
        if status != currentStatus {
          statuses := statuses[nodeId := status];
        }
        if status != Active && currentStatus == Active {
          deactivationTimes := deactivationTimes[nodeId := now];
        }
      } else {
        statuses := statuses[nodeId := status];
        deactivationTimes := deactivationTimes[nodeId := now];
      }
    }

    /** Whether a write to the channel is let through: a ready node and a cached channel. */
    ghost predicate Reaches(nodeId: int, channelId: int, now: int)
      reads this
    {
      channelId != 0 && nodeId != 0 && IsNodeReady(nodeId, now) && nodeId in states && channelId in states[nodeId]
    }

    method WriteChannelStatus(nodeId: int, channelId: int, status: Status, now: int)
      modifies `states
      ensures OthersKept(old(states), states, nodeId, channelId)
      ensures !old(Reaches(nodeId, channelId, now)) ==> states == old(states)
      ensures old(Reaches(nodeId, channelId, now)) ==>
                var before := old(states)[nodeId][channelId];
                && (channelId in states[nodeId] <==> status != Deleted)
                && (status != Deleted ==>
                      var after := states[nodeId][channelId];
                      && after.localPolicy.disabled == (status == Inactive || (status != Active && before.localPolicy.disabled))
                      && after.(localPolicy := after.localPolicy.(disabled := before.localPolicy.disabled)) == before)
    {
      if channelId == 0 || nodeId == 0 {
        return;
      }
      if !IsNodeReady(nodeId, now) {
        return;
      }
      if nodeId in states {
        if channelId in states[nodeId] {
          var setting := states[nodeId][channelId];
          match status
          case Active =>
            setting := setting.(localPolicy := setting.localPolicy.(disabled := false));
            states := states[nodeId := states[nodeId][channelId := setting]];
          case Inactive =>
            setting := setting.(localPolicy := setting.localPolicy.(disabled := true));
            states := states[nodeId := states[nodeId][channelId := setting]];
          case Deleted =>
            states := states[nodeId := states[nodeId] - {channelId}];
          case _ =>
        }
      }
    }

    method WriteRoutingPolicy(nodeId: int, channelId: int, local: bool, policy: Policy, now: int)
      modifies `states
      ensures OthersKept(old(states), states, nodeId, channelId) && SameChannels(old(states), states)
      ensures !old(Reaches(nodeId, channelId, now)) ==> states == old(states)
      ensures old(Reaches(nodeId, channelId, now)) ==>
                var before, after := old(states)[nodeId][channelId], states[nodeId][channelId];
                && after.localPolicy == (if local then policy else before.localPolicy)
                && after.remotePolicy == (if local then before.remotePolicy else policy)
                && after.(localPolicy := before.localPolicy, remotePolicy := before.remotePolicy) == before
    {
      if channelId == 0 || nodeId == 0 {
        return;
      }
      if !IsNodeReady(nodeId, now) {
        return;
      }
      if nodeId in states {
        if channelId in states[nodeId] {
          var setting := states[nodeId][channelId];
          if local {
            setting := setting.(localPolicy := policy);
          } else {
            setting := setting.(remotePolicy := policy);
          }
          states := states[nodeId := states[nodeId][channelId := setting]];
        }
      }
    }

    method UpdateBalance(nodeId: int, channelId: int, amount: int)
      modifies `states
      ensures states == BalanceUpdated(old(states), nodeId, channelId, amount)
      ensures OthersKept(old(states), states, nodeId, channelId) && SameChannels(old(states), states)
      ensures channelId != 0 && nodeId != 0 && nodeId in states && channelId in states[nodeId] ==>
                var before, after := old(states)[nodeId][channelId], states[nodeId][channelId];
                Moved(before, after, amount, 1) && after.remoteBalance == before.localBalance
    {
      if channelId == 0 || nodeId == 0 {
        return;
      }
      if nodeId in states {
        if channelId in states[nodeId] {
          var setting := states[nodeId][channelId];
          setting := setting.(numUpdates := setting.numUpdates + 1);
          setting := setting.(localBalance := setting.localBalance + amount);
          setting := setting.(remoteBalance := setting.localBalance - amount);
          states := states[nodeId := states[nodeId][channelId := setting]];
        }
      }
    }

    method SetChannelStateBalanceUpdateMsat(nodeId: int, channelId: int, increaseBalance: bool, amount: nat)
      modifies `states
      ensures states == BalanceUpdated(old(states), nodeId, channelId,
                                       if increaseBalance then amount / 1000 else -(amount / 1000))
    {
      if increaseBalance {
        UpdateBalance(nodeId, channelId, amount / 1000);
      } else {
        UpdateBalance(nodeId, channelId, -(amount / 1000));
      }
    }

    method ProcessForwardEvent(f: ForwardEvent)
      modifies `states
      ensures states == ForwardLegs(old(states), f)
    {
      if f.nodeId == 0 {
        return;
      }
      if f.incomingChannelId.Some? {
        SetChannelStateBalanceUpdateMsat(f.nodeId, f.incomingChannelId.value, true, f.amountInMsat);
      }
      if f.outgoingChannelId.Some? {
        SetChannelStateBalanceUpdateMsat(f.nodeId, f.outgoingChannelId.value, false, f.amountOutMsat);
      }
    }

    /** A run of forwards: what every channel has gained, and the bound on the rounding drift of a node all of whose
        forwards are between two of its cached channels. */
    method ProcessForwardEvents(forwards: seq<ForwardEvent>, ghost nodeId: int)
      modifies `states
      ensures ChannelsMoved(old(states), states, forwards)
      ensures TotalFollowsFees(old(states), states, nodeId, forwards)
    {
      for i := 0 to |forwards|
        invariant states == ForwardsApplied(old(states), forwards[..i])
      {
        assert forwards[..i + 1][..i] == forwards[..i];
        ProcessForwardEvent(forwards[i]);
      }
      assert forwards[..|forwards|] == forwards;
      ForwardsMoveAll(old(states), forwards);
      ForwardsFollowFees(old(states), nodeId, forwards);
    }

    /** True when the event made the cache's goroutine panic; nothing has been written then. */
    method UpdateHtlcEvent(e: HtlcEvent) returns (panicked: bool)
      modifies `states
      ensures panicked <==> Acceptable(e) && OutgoingLegPanics(old(states), e)
      ensures states == if Acceptable(e) && !panicked then OutgoingWritten(IncomingWritten(old(states), e), e) else old(states)
      ensures AllDistinct(old(states)) ==> AllDistinct(states)
      ensures panicked <==>
                && e.nodeId != 0 && e.nodeId in old(states) && e.outgoingChannelId.Some? && e.outgoingChannelId.value != 0
                && e.outgoingChannelId.value in old(states)[e.nodeId]
                && e.outgoingAmtMsat.Some? && e.outgoingHtlcId.Some? && e.incomingAmtMsat == None
      ensures panicked ==> states == old(states)
      ensures !panicked ==> AllMoved(old(states), states, e)
    {
      AllWrittenMoves(states, e);
      if (e.outgoingChannelId.GetOr(0) == 0 && e.incomingChannelId.GetOr(0) == 0) || e.nodeId == 0 {
        return false;
      }
      if e.nodeId in states {
        if e.incomingChannelId.GetOr(0) != 0 {
          var channelId := e.incomingChannelId.value;
          if channelId in states[e.nodeId] && e.incomingAmtMsat.Some? && e.incomingHtlcId.Some? {
            if AllDistinct(states) { ToggledStatesDistinct(states, e.nodeId, channelId, IncomingLeg(e).value); }
            ToggleHtlc(e.nodeId, channelId, Leg(true, e.incomingHtlcId.value, e.incomingAmtMsat.value, e.incomingAmtMsat.value));
          }
        }
        if e.outgoingChannelId.GetOr(0) != 0 {
          var channelId := e.outgoingChannelId.value;
          if channelId in states[e.nodeId] && e.outgoingAmtMsat.Some? && e.outgoingHtlcId.Some? {
            if e.incomingAmtMsat.None? {
              return true;
            }
            var leg := Leg(false, e.outgoingHtlcId.value, e.outgoingAmtMsat.value, e.incomingAmtMsat.value);
            if AllDistinct(states) { ToggledStatesDistinct(states, e.nodeId, channelId, leg); }
            ToggleHtlc(e.nodeId, channelId, leg);
          }
        }
      }
      return false;
    }

    /** A run of HTLC events, up to one that panics: every cached channel has had exactly its legs toggled, so its
        unsettled balance still tracks its pending HTLCs when all of them agree with the book. */
    method ProcessHtlcEvents(events: seq<HtlcEvent>, ghost nodeId: int, ghost channelId: int, ghost book: Book,
                             ghost stream: seq<LndEvent>)
      returns (handled: nat)
      requires nodeId in states && channelId in states[nodeId] && Covers(book, states[nodeId][channelId].pendingHtlcs)
      modifies `states
      ensures handled <= |events| && ((forall e | e in events :: Produced(e)) ==> handled == |events|)
      ensures SameChannels(old(states), states)
      ensures AllDistinct(old(states)) ==> AllDistinct(states)
      ensures var before, legs := old(states)[nodeId][channelId], AllLegsOf(events[..handled], nodeId, channelId);
              && states[nodeId][channelId] == Toggles(before, legs)
              && (AllAgree(book, before, legs) ==>
                    Difference(states[nodeId][channelId], BookOf(book, before, legs)) == Difference(before, book))
      ensures events == AllSent(nodeId, stream) ==> handled == |events|
      ensures events == AllSent(nodeId, stream) && nodeId != 0 && channelId != 0 ==>
                forall index: nat :: HasIndex(states[nodeId][channelId].pendingHtlcs, index) <==>
                  HasIndex(old(states)[nodeId][channelId].pendingHtlcs, index) != (Turns(stream, channelId, index) % 2 == 1)
    {
      handled := 0;
      ghost var before := states[nodeId][channelId];
      while handled < |events|
        invariant handled <= |events|
        invariant SameChannels(old(states), states)
        invariant AllDistinct(old(states)) ==> AllDistinct(states)
        invariant states[nodeId][channelId] == Toggles(before, AllLegsOf(events[..handled], nodeId, channelId))
      {
        LegsOfNext(states, events, handled, nodeId, channelId, before);
        ProducedNeverPanics(states, events, handled);
        var panicked := UpdateHtlcEvent(events[handled]);
        if panicked {
          break;
        }
        handled := handled + 1;
      }
      AgreedRunKeeps(before, book, AllLegsOf(events[..handled], nodeId, channelId));
      if events == AllSent(nodeId, stream) {
        SentIsProduced(nodeId, stream);
        assert events[..handled] == events;
        SentTurns(before, nodeId, channelId, stream);
      }
    }

    /** Rebuilds the pending list of a cached channel without the leg's index, or with its entry added. */
    method ToggleHtlc(nodeId: int, channelId: int, leg: Leg)
      requires nodeId in states && channelId in states[nodeId]
      modifies `states
      ensures states == UpdateAt(old(states), nodeId, channelId, (c: ChannelState) => Toggle(c, leg))
    {
      var setting := states[nodeId][channelId];
      var foundIt, pendingHtlc := RebuildPending(setting.pendingHtlcs, leg.index);
      ToggleRebuilds(setting, leg, foundIt, pendingHtlc);
      if foundIt {
        setting := setting.(unsettledBalance := setting.unsettledBalance - leg.Unsettled());
      } else {
        pendingHtlc := pendingHtlc + [leg.Entry()];
        setting := setting.(unsettledBalance := setting.unsettledBalance + leg.Unsettled());
      }
      setting := setting.(pendingHtlcs := pendingHtlc);
      states := states[nodeId := states[nodeId][channelId := setting]];
    }
  }

  lemma ToggleRebuilds(c: ChannelState, leg: Leg, foundIt: bool, rest: seq<Htlc>)
    requires (foundIt <==> HasIndex(c.pendingHtlcs, leg.index)) && rest == WithoutIndex(c.pendingHtlcs, leg.index)
    ensures Toggle(c, leg) ==
            if foundIt then c.(pendingHtlcs := rest, unsettledBalance := c.unsettledBalance - leg.Unsettled())
            else c.(pendingHtlcs := rest + [leg.Entry()], unsettledBalance := c.unsettledBalance + leg.Unsettled())
  {
    WithoutIndexDrops(c.pendingHtlcs, leg.index);
  }

  method RebuildPending(pending: seq<Htlc>, index: nat) returns (foundIt: bool, rest: seq<Htlc>)
    ensures foundIt <==> HasIndex(pending, index)
    ensures rest == WithoutIndex(pending, index)
  {
    foundIt, rest := false, [];
    for i := 0 to |pending|
      invariant rest == WithoutIndex(pending[..i], index)
      invariant foundIt <==> HasIndex(pending[..i], index)
    {
      PrefixGrows(pending, i, index);
      if pending[i].htlcIndex == index {
        foundIt := true;
      } else {
        rest := rest + [pending[i]];
      }
    }
    assert pending[..|pending|] == pending;
  }

  function ByChannel(settings: seq<ChannelState>): Channels {
    if settings == [] then map[]
    else ByChannel(settings[..|settings| - 1])[settings[|settings| - 1].channelId := settings[|settings| - 1]]
  }

  ghost predicate Named(settings: seq<ChannelState>, id: int) {
    exists i :: 0 <= i < |settings| && settings[i].channelId == id
  }

  /** The channels are those of the entries, each as in its last entry. */
  ghost predicate HoldsLast(channels: Channels, settings: seq<ChannelState>) {
    && (forall id | id in channels :: Named(settings, id))
    && forall i | LastEntry(settings, i) ::
         settings[i].channelId in channels && channels[settings[i].channelId] == settings[i]
  }

  /** No later entry is for the same channel. */
  ghost predicate LastEntry(settings: seq<ChannelState>, i: int) {
    0 <= i < |settings| && forall j | i < j < |settings| :: settings[j].channelId != settings[i].channelId
  }

  lemma NamedNext(settings: seq<ChannelState>, id: int)
    requires settings != []
    requires Named(settings[..|settings| - 1], id) || settings[|settings| - 1].channelId == id
    ensures Named(settings, id)
  {
    var init := settings[..|settings| - 1];
    if i :| 0 <= i < |init| && init[i].channelId == id {
      assert settings[i].channelId == id;
    }
  }

  lemma LastEntryOfPrefix(settings: seq<ChannelState>, i: int)
    requires LastEntry(settings, i) && i < |settings| - 1
    ensures LastEntry(settings[..|settings| - 1], i) && settings[i].channelId != settings[|settings| - 1].channelId
  {
    var init := settings[..|settings| - 1];
    forall j | i < j < |init|
      ensures init[j].channelId != init[i].channelId
    {
      assert init[j] == settings[j];
    }
  }

  lemma HoldsLastNext(channels: Channels, settings: seq<ChannelState>)
    requires settings != [] && HoldsLast(channels, settings[..|settings| - 1])
    ensures HoldsLast(channels[settings[|settings| - 1].channelId := settings[|settings| - 1]], settings)
  {
    var n := |settings| - 1;
    var after := channels[settings[n].channelId := settings[n]];
    forall id | id in after
      ensures Named(settings, id)
    {
      NamedNext(settings, id);
    }
    forall i | LastEntry(settings, i)
      ensures settings[i].channelId in after && after[settings[i].channelId] == settings[i]
    {
      if i < n { LastEntryOfPrefix(settings, i); }
    }
  }

  lemma {:induction false} ByChannelHoldsLast(settings: seq<ChannelState>)
    ensures HoldsLast(ByChannel(settings), settings)
  {
    if settings != [] {
      ByChannelHoldsLast(settings[..|settings| - 1]);
      HoldsLastNext(ByChannel(settings[..|settings| - 1]), settings);
    }
  }

  /** Every other channel, of this node and of the others, is as it was. */
  ghost predicate OthersKept(before: States, after: States, nodeId: int, channelId: int) {
    && after.Keys == before.Keys
    && (forall n | n in before && n != nodeId :: after[n] == before[n])
    && (nodeId in before ==> after[nodeId] - {channelId} == before[nodeId] - {channelId})
  }

  lemma PrefixGrows(pending: seq<Htlc>, i: nat, index: nat)
    requires i < |pending|
    ensures WithoutIndex(pending[..i + 1], index)
            == WithoutIndex(pending[..i], index) + if pending[i].htlcIndex == index then [] else [pending[i]]
    ensures HasIndex(pending[..i + 1], index) <==> HasIndex(pending[..i], index) || pending[i].htlcIndex == index
  {
    var longer, shorter := pending[..i + 1], pending[..i];
    assert longer[..i] == shorter && longer[i] == pending[i];
    if HasIndex(shorter, index) {
      var j :| 0 <= j < i && shorter[j].htlcIndex == index;
      assert longer[j].htlcIndex == index;
    }
    if HasIndex(longer, index) && pending[i].htlcIndex != index {
      var j :| 0 <= j < |longer| && longer[j].htlcIndex == index;
      assert shorter[j].htlcIndex == index;
    }
  }
}
