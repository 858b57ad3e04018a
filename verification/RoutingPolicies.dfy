/** The change log of routing policies of pkg/lnd/channelgraph.go: a row is stored only when a channel update
    differs from the newest row of its channel and direction. */
module RoutingPolicies {
  import opened Options

  type int64 = x: int | -0x8000_0000_0000_0000 <= x < 0x8000_0000_0000_0000 witness 0

  datatype Policy = Policy(disabled: bool, timeLockDelta: nat, minHtlc: int64, maxHtlcMsat: nat, feeBaseMsat: int64,
                           feeRateMilliMsat: int64)

  /** What the comparison starts from when a direction has no row. */
  const NO_POLICY := Policy(false, 0, 0, 0, 0, 0)

  /** A direction of a channel. */
  datatype Key = Key(channelId: int, announcingNodeId: int, connectingNodeId: int)

  datatype Row = Row(ts: int, key: Key, policy: Policy, nodeId: int)

  /** The policy as events carry it, with three of its fields unsigned. */
  datatype EventData = EventData(disabled: bool, timeLockDelta: nat, minHtlcMsat: nat, maxHtlcMsat: nat,
                                 feeBaseMsat: nat, feeRateMilliMsat: nat)

  datatype Previous = Previous(ts: int, data: EventData)

  datatype Event = Event(ts: int, nodeId: int, key: Key, data: EventData, previous: Option<Previous>)

  function AsUint64(x: int64): nat {
    if x < 0 then x + 0x1_0000_0000_0000_0000 else x
  }

  function DataOf(p: Policy): EventData {
    EventData(p.disabled, p.timeLockDelta, AsUint64(p.minHtlc), p.maxHtlcMsat,
              AsUint64(p.feeBaseMsat), AsUint64(p.feeRateMilliMsat))
  }

  // ------------------------------------------------------------------ the log

  /** An update offered to the log; emits when there is a channel for events. */
  datatype Received = Received(ts: int, key: Key, policy: Policy, nodeId: int, emits: bool)

  datatype Log = Log(rows: seq<Row>, events: seq<Event>)

  /** The newest row of the direction; of several with the same timestamp, any. */
  ghost predicate IsNewest(rows: seq<Row>, key: Key, newest: Option<Row>) {
    match newest
    case None => forall row | row in rows :: row.key != key
    case Some(x) => x in rows && x.key == key && forall row | row in rows && row.key == key :: row.ts <= x.ts
  }

  function PolicyOf(newest: Option<Row>): Policy {
    match newest
    case None => NO_POLICY
    case Some(x) => x.policy
  }

  function EventFor(r: Received, newest: Option<Row>): Event {
    Event(r.ts, r.nodeId, r.key, DataOf(r.policy),
          if newest.Some? && r.key.channelId != 0 then Some(Previous(newest.value.ts, DataOf(newest.value.policy))) else None)
  }

  /** A stored minimum below zero cannot be read back as unsigned. */
  predicate Readable(newest: Option<Row>) {
    newest.Some? ==> newest.value.policy.minHtlc >= 0
  }

  ghost predicate Recorded(before: Log, r: Received, newest: Option<Row>, after: Log) {
    && IsNewest(before.rows, r.key, newest) && Readable(newest)
    && after == if r.policy == PolicyOf(newest) then before
                else Log(before.rows + [Row(r.ts, r.key, r.policy, r.nodeId)],
                         if r.emits then before.events + [EventFor(r, newest)] else before.events)
  }

  /** What becomes of an update when no statement fails by itself: it is compared and recorded, or lost when the
      newest row of its direction cannot be read. */
  ghost predicate Taken(before: Log, r: Received, newest: Option<Row>, after: Log) {
    && IsNewest(before.rows, r.key, newest)
    && if Readable(newest) then Recorded(before, r, newest, after) else after == before
  }

  /** The log is what these updates, offered one after the other, leave of an empty one. */
  ghost predicate Reached(offered: seq<Received>, log: Log) {
    if offered == [] then log == Log([], [])
    else
      var earlier, r := offered[..|offered| - 1], offered[|offered| - 1];
      exists before: Log, newest: Option<Row> :: Reached(earlier, before) && Taken(before, r, newest, log)
  }

  // ------------------------------------------------------------------ what is recorded, by the names of the fields

  ghost predicate DataIs(data: EventData, p: Policy) {
    && data.disabled == p.disabled && data.timeLockDelta == p.timeLockDelta && data.maxHtlcMsat == p.maxHtlcMsat
    && data.minHtlcMsat == (if p.minHtlc < 0 then p.minHtlc + 0x1_0000_0000_0000_0000 else p.minHtlc)
    && data.feeBaseMsat == (if p.feeBaseMsat < 0 then p.feeBaseMsat + 0x1_0000_0000_0000_0000 else p.feeBaseMsat)
    && data.feeRateMilliMsat
       == (if p.feeRateMilliMsat < 0 then p.feeRateMilliMsat + 0x1_0000_0000_0000_0000 else p.feeRateMilliMsat)
  }

  /** The event tells of the row, and of the newest one before it when that has a channel. */
  ghost predicate Tells(e: Event, row: Row, newest: Option<Row>) {
    && e.ts == row.ts && e.nodeId == row.nodeId && e.key == row.key && DataIs(e.data, row.policy)
    && (e.previous.Some? <==> newest.Some? && row.key.channelId != 0)
    && (e.previous.Some? ==> e.previous.value.ts == newest.value.ts && DataIs(e.previous.value.data, newest.value.policy))
  }

  /** A policy that is that of the newest row, or without a row one of zeros that is enabled, leaves the log as it is;
      any other one is the log's next row, told by its next event when events are sent. */
  ghost predicate Appended(before: Log, after: Log, newest: Option<Row>, row: Row, emits: bool) {
    if row.policy == (if newest.Some? then newest.value.policy else Policy(
         disabled := false, timeLockDelta := 0, minHtlc := 0, maxHtlcMsat := 0, feeBaseMsat := 0, feeRateMilliMsat := 0))
    then after == before
    else
      && after.rows == before.rows + [row]
      && if emits then
           |after.events| == |before.events| + 1 && before.events <= after.events
           && Tells(after.events[|before.events|], row, newest)
         else after.events == before.events
  }

  lemma RecordedIsAppended(before: Log, r: Received, newest: Option<Row>, after: Log)
    requires Recorded(before, r, newest, after)
    ensures Appended(before, after, newest, Row(ts := r.ts, key := r.key, policy := r.policy, nodeId := r.nodeId), r.emits)
  {
  }

  // ------------------------------------------------------------------ what the log should hold

  function RowsOf(rows: seq<Row>, key: Key): seq<Row> {
    if rows == [] then []
    else
      var before, row := RowsOf(rows[..|rows| - 1], key), rows[|rows| - 1];
      if row.key == key then before + [row] else before
  }

  function EventsOf(events: seq<Event>, key: Key): seq<Event> {
    if events == [] then []
    else
      var before, e := EventsOf(events[..|events| - 1], key), events[|events| - 1];
      if e.key == key then before + [e] else before
  }

  function ReceivedOf(received: seq<Received>, key: Key): seq<Received> {
    if received == [] then []
    else
      var before, r := ReceivedOf(received[..|received| - 1], key), received[|received| - 1];
      if r.key == key then before + [r] else before
  }

  /** The policy in force after these updates. */
  function InForce(received: seq<Received>): Policy {
    if received == [] then NO_POLICY else received[|received| - 1].policy
  }

  /** One row for every update that differs from the update before it; the first one is compared with no policy. */
  function Changes(received: seq<Received>): seq<Row> {
    if received == [] then []
    else
      var before, r := received[..|received| - 1], received[|received| - 1];
      if r.policy == InForce(before) then Changes(before)
      else Changes(before) + [Row(r.ts, r.key, r.policy, r.nodeId)]
  }

  /** The updates that are not lost: those offered while the policy in force can be read, and repeats of it. */
  function Effective(received: seq<Received>): seq<Received> {
    if received == [] then []
    else
      var before, r := Effective(received[..|received| - 1]), received[|received| - 1];
      if InForce(before).minHtlc < 0 && r.policy != InForce(before) then before else before + [r]
  }

  /** A negative minimum is followed by a different policy. */
  predicate Blocks(received: seq<Received>, i: nat) {
    i + 1 < |received| && received[i].policy.minHtlc < 0 && received[i + 1].policy != received[i].policy
  }

  function LastOf(rows: seq<Row>): Option<Row> {
    if rows == [] then None else Some(rows[|rows| - 1])
  }

  /** One event for every row, with the row before it as the previous data. */
  function Chain(rows: seq<Row>): seq<Event> {
    if rows == [] then []
    else
      var before, row := rows[..|rows| - 1], rows[|rows| - 1];
      Chain(before) + [EventFor(Received(row.ts, row.key, row.policy, row.nodeId, true), LastOf(before))]
  }

  predicate Increasing(received: seq<Received>) {
    forall i, j | 0 <= i < j < |received| :: received[i].ts < received[j].ts
  }

  // ------------------------------------------------------------------ the log holds it

  lemma {:induction false} RowsOfHolds(rows: seq<Row>, key: Key, row: Row)
    ensures row in RowsOf(rows, key) <==> row in rows && row.key == key
  {
    if rows != [] {
      RowsOfHolds(rows[..|rows| - 1], key, row);
      assert rows == rows[..|rows| - 1] + [rows[|rows| - 1]];
    }
  }

  /** With increasing timestamps the newest row of a direction is its last one. */
  lemma NewestIsLast(rows: seq<Row>, key: Key, newest: Option<Row>)
    requires IsNewest(rows, key, newest)
    requires var mine := RowsOf(rows, key); forall i, j | 0 <= i < j < |mine| :: mine[i].ts < mine[j].ts
    ensures newest == LastOf(RowsOf(rows, key))
  {
    var mine := RowsOf(rows, key);
    if mine == [] {
      if newest.Some? { RowsOfHolds(rows, key, newest.value); }
    } else {
      var last := mine[|mine| - 1];
      RowsOfHolds(rows, key, last);
      RowsOfHolds(rows, key, newest.value);
      var i :| 0 <= i < |mine| && mine[i] == newest.value;
      assert i == |mine| - 1;
    }
  }

  lemma {:induction false} ChangesAreIncreasing(received: seq<Received>)
    requires Increasing(received)
    ensures var rows := Changes(received);
            && (forall i, j | 0 <= i < j < |rows| :: rows[i].ts < rows[j].ts)
            && (forall i | 0 <= i < |rows| :: received != [] && rows[i].ts <= received[|received| - 1].ts)
            && InForce(received) == (if rows == [] then NO_POLICY else rows[|rows| - 1].policy)
  {
    if received != [] {
      ChangesAreIncreasing(received[..|received| - 1]);
    }
  }

  /** The rows and events of one direction after one more update. */
  lemma RecordedKeeps(before: Log, r: Received, newest: Option<Row>, after: Log, key: Key)
    requires Recorded(before, r, newest, after)
    ensures var row, changed := Row(r.ts, r.key, r.policy, r.nodeId), r.key == key && r.policy != PolicyOf(newest);
            && RowsOf(after.rows, key) == RowsOf(before.rows, key) + (if changed then [row] else [])
            && EventsOf(after.events, key)
               == EventsOf(before.events, key) + (if changed && r.emits then [EventFor(r, newest)] else [])
  {
    if r.policy != PolicyOf(newest) {
      assert after.rows[..|before.rows|] == before.rows;
      if r.emits {
        assert after.events[..|before.events|] == before.events;
      }
    }
  }

  /** Rows are the changes among the updates; events are links of the chain of rows, all of them when `all`. */
  ghost predicate Kept(mine: seq<Received>, rows: seq<Row>, events: seq<Event>, all: bool) {
    && rows == Changes(mine)
    && (forall e | e in events :: e in Chain(rows))
    && (all ==> events == Chain(rows))
  }

  lemma KeptByUpdate(mine: seq<Received>, rows: seq<Row>, events: seq<Event>, all: bool, r: Received)
    requires Kept(mine, rows, events, all) && (all ==> r.emits)
    ensures var newest, changed := LastOf(rows), r.policy != InForce(mine);
            var rows' := if changed then rows + [Row(r.ts, r.key, r.policy, r.nodeId)] else rows;
            Kept(mine + [r], rows', if changed && r.emits then events + [EventFor(r, newest)] else events, all)
  {
    assert (mine + [r])[..|mine|] == mine;
    var row := Row(r.ts, r.key, r.policy, r.nodeId);
    assert (rows + [row])[..|rows|] == rows;
  }

  lemma {:induction false} EffectiveIsIncreasing(received: seq<Received>)
    requires Increasing(received)
    ensures var effective := Effective(received);
            && Increasing(effective)
            && forall i | 0 <= i < |effective| :: received != [] && effective[i].ts <= received[|received| - 1].ts
  {
    if received != [] {
      var init, r := received[..|received| - 1], received[|received| - 1];
      EffectiveIsIncreasing(init);
      var before := Effective(init);
      forall i | 0 <= i < |before|
        ensures before[i].ts < r.ts
      {
        assert before[i].ts <= init[|init| - 1].ts < r.ts;
      }
      IncreasingWith(before, r);
    }
  }

  lemma IncreasingWith(received: seq<Received>, r: Received)
    requires Increasing(received) && forall i | 0 <= i < |received| :: received[i].ts < r.ts
    ensures Increasing(received + [r])
  {
  }

  lemma {:induction false} NothingBlocksNothingLost(received: seq<Received>)
    requires forall i: nat :: !Blocks(received, i)
    ensures Effective(received) == received
  {
    if received != [] {
      var init := received[..|received| - 1];
      forall i: nat
        ensures !Blocks(init, i)
      {
        assert !Blocks(received, i);
      }
      NothingBlocksNothingLost(init);
      assert |init| > 0 ==> !Blocks(received, |init| - 1);
      NextIsEffective(received);
    }
  }

  lemma NextIsEffective(received: seq<Received>)
    requires received != [] && (|received| > 1 ==> !Blocks(received, |received| - 2))
    requires Effective(received[..|received| - 1]) == received[..|received| - 1]
    ensures Effective(received) == received
  {
  }

  /** From the first update that is lost on, nothing changes any more. */
  lemma {:induction false} BlockedIsStuck(received: seq<Received>, i: nat)
    requires Blocks(received, i)
    ensures |Changes(Effective(received))| < |Changes(received)| && InForce(Effective(received)).minHtlc < 0
  {
    var init := received[..|received| - 1];
    if j: nat :| Blocks(init, j) {
      BlockedIsStuck(init, j);
      StuckStays(received);
    } else {
      assert !Blocks(init, i);
      NothingBlocksNothingLost(init);
      FirstBlock(received);
    }
  }

  lemma FirstBlock(received: seq<Received>)
    requires |received| > 1 && Blocks(received, |received| - 2)
    requires Effective(received[..|received| - 1]) == received[..|received| - 1]
    ensures |Changes(Effective(received))| < |Changes(received)| && InForce(Effective(received)).minHtlc < 0
  {
  }

  lemma StuckStays(received: seq<Received>)
    requires received != []
    requires var init := received[..|received| - 1];
             |Changes(Effective(init))| < |Changes(init)| && InForce(Effective(init)).minHtlc < 0
    ensures |Changes(Effective(received))| < |Changes(received)| && InForce(Effective(received)).minHtlc < 0
  {
    var effective, r := Effective(received[..|received| - 1]), received[|received| - 1];
    assert (effective + [r])[..|effective|] == effective;
  }

  /** Nothing is lost, and the changes of the effective updates are those of all, exactly when no negative minimum
      is followed by a different policy. */
  lemma AllChangesIff(received: seq<Received>)
    ensures Changes(Effective(received)) == Changes(received) <==> forall i: nat :: !Blocks(received, i)
    ensures Effective(received) == received <==> forall i: nat :: !Blocks(received, i)
  {
    if i: nat :| Blocks(received, i) {
      BlockedIsStuck(received, i);
    } else {
      NothingBlocksNothingLost(received);
    }
  }

  /** For each direction offered updates with increasing timestamps: the stored rows are its effective updates with
      the repeats dropped, and so those of all its updates if and only if no negative minimum is followed by a
      different policy. The events are exactly the changes announced, each with the row before it as previous data. */
  lemma LogIsChanges(offered: seq<Received>, log: Log, key: Key)
    requires Reached(offered, log) && Increasing(ReceivedOf(offered, key))
    ensures var mine, rows := ReceivedOf(offered, key), RowsOf(log.rows, key);
            && rows == Changes(Effective(mine))
            && (rows == Changes(mine) <==> forall i: nat :: !Blocks(mine, i))
            && (forall e | e in EventsOf(log.events, key) :: e in Chain(rows))
            && ((forall r | r in offered :: r.emits) ==> EventsOf(log.events, key) == Chain(rows))
  {
    LogIsKept(offered, log, key, forall r | r in offered :: r.emits);
    AllChangesIff(ReceivedOf(offered, key));
  }

  lemma {:induction false} LogIsKept(offered: seq<Received>, log: Log, key: Key, all: bool)
    requires Reached(offered, log) && Increasing(ReceivedOf(offered, key))
    requires all ==> forall r | r in offered :: r.emits
    ensures Kept(Effective(ReceivedOf(offered, key)), RowsOf(log.rows, key), EventsOf(log.events, key), all)
  {
    if offered != [] {
      var earlier, r := offered[..|offered| - 1], offered[|offered| - 1];
      var before: Log, newest: Option<Row> :| Reached(earlier, before) && Taken(before, r, newest, log);
      var mine := ReceivedOf(earlier, key);
      assert mine == ReceivedOf(offered, key)[..|mine|];
      LogIsKept(earlier, before, key, all);
      if r.key == key {
        EffectiveNext(mine, r);
        KeptByTaken(mine, before, r, newest, log, key, all);
      } else {
        KeptByOther(Effective(mine), before, r, newest, log, key, all);
      }
    }
  }

  lemma EffectiveNext(mine: seq<Received>, r: Received)
    ensures var effective := Effective(mine);
            Effective(mine + [r])
            == if InForce(effective).minHtlc < 0 && r.policy != InForce(effective) then effective else effective + [r]
  {
    assert (mine + [r])[..|mine|] == mine;
  }

  /** An update of another direction. */
  lemma KeptByOther(mine: seq<Received>, before: Log, r: Received, newest: Option<Row>, after: Log, key: Key, all: bool)
    requires Kept(mine, RowsOf(before.rows, key), EventsOf(before.events, key), all)
    requires r.key != key && Taken(before, r, newest, after)
    ensures Kept(mine, RowsOf(after.rows, key), EventsOf(after.events, key), all)
  {
    if Readable(newest) { RecordedKeeps(before, r, newest, after, key); }
  }

  lemma KeptByTaken(mine: seq<Received>, before: Log, r: Received, newest: Option<Row>, after: Log, key: Key, all: bool)
    requires Kept(Effective(mine), RowsOf(before.rows, key), EventsOf(before.events, key), all)
    requires Increasing(mine) && r.key == key && (all ==> r.emits)
    requires Taken(before, r, newest, after)
    ensures var effective := Effective(mine);
            var next := if InForce(effective).minHtlc < 0 && r.policy != InForce(effective) then effective else effective + [r];
            Kept(next, RowsOf(after.rows, key), EventsOf(after.events, key), all)
  {
    NewestIsEffective(mine, before.rows, key, newest);
    if Readable(newest) {
      KeptByRecorded(Effective(mine), before, r, newest, after, key, all);
    }
  }

  /** The newest row is the last of the changes, and its policy the one in force. */
  lemma NewestIsEffective(mine: seq<Received>, rows: seq<Row>, key: Key, newest: Option<Row>)
    requires Increasing(mine) && RowsOf(rows, key) == Changes(Effective(mine)) && IsNewest(rows, key, newest)
    ensures newest == LastOf(RowsOf(rows, key)) && PolicyOf(newest) == InForce(Effective(mine))
  {
    EffectiveIsIncreasing(mine);
    NewestOfChanges(Effective(mine), rows, key, newest);
  }

  lemma NewestOfChanges(received: seq<Received>, rows: seq<Row>, key: Key, newest: Option<Row>)
    requires Increasing(received) && RowsOf(rows, key) == Changes(received) && IsNewest(rows, key, newest)
    ensures newest == LastOf(RowsOf(rows, key)) && PolicyOf(newest) == InForce(received)
  {
    ChangesAreIncreasing(received);
    NewestIsLast(rows, key, newest);
  }

  lemma KeptByRecorded(mine: seq<Received>, before: Log, r: Received, newest: Option<Row>, after: Log, key: Key, all: bool)
    requires Kept(mine, RowsOf(before.rows, key), EventsOf(before.events, key), all)
    requires r.key == key && (all ==> r.emits) && Recorded(before, r, newest, after)
    requires newest == LastOf(RowsOf(before.rows, key)) && PolicyOf(newest) == InForce(mine)
    ensures Kept(mine + [r], RowsOf(after.rows, key), EventsOf(after.events, key), all)
  {
    RecordedKeeps(before, r, newest, after, key);
    KeptByUpdate(mine, RowsOf(before.rows, key), EventsOf(before.events, key), all, r);
  }

  /** The newest row, or no policy when there is none, is the last effective update's policy, and so the one
      offered last when nothing was lost. */
  lemma NewestIsInForce(offered: seq<Received>, log: Log, key: Key, newest: Option<Row>)
    requires Reached(offered, log) && Increasing(ReceivedOf(offered, key))
    requires IsNewest(log.rows, key, newest)
    ensures var mine := ReceivedOf(offered, key);
            && PolicyOf(newest) == InForce(Effective(mine))
            && ((forall i: nat :: !Blocks(mine, i)) ==> PolicyOf(newest) == InForce(mine))
  {
    var mine := ReceivedOf(offered, key);
    LogIsChanges(offered, log, key);
    NewestIsEffective(mine, log.rows, key, newest);
    AllChangesIff(mine);
  }

  /** With an arbitrary timestamp an update is sure to become the newest row exactly when it repeats it,
      is the first of its direction, or is later than the newest. */
  lemma UpdateTakesEffectIff(before: Log, r: Received, newest: Option<Row>, after: Log)
    requires Recorded(before, r, newest, after)
    requires forall other | IsNewest(before.rows, r.key, other) :: other == newest
    ensures (forall next | IsNewest(after.rows, r.key, next) :: PolicyOf(next) == r.policy)
            <==> r.policy == PolicyOf(newest) || newest.None? || r.ts > newest.value.ts
  {
    if r.policy != PolicyOf(newest) {
      var row := Row(r.ts, r.key, r.policy, r.nodeId);
      assert after.rows == before.rows + [row];
      if newest.Some? && r.ts <= newest.value.ts {
        assert IsNewest(after.rows, r.key, newest);
      } else {
        forall next | IsNewest(after.rows, r.key, next)
          ensures PolicyOf(next) == r.policy
        {
          assert row in after.rows;
        }
      }
    }
  }

  // ------------------------------------------------------------------ the two ends

  /** A missing end is taken from the channel. */
  function Ends(announcing: int, connecting: int, first: int, second: int): (int, int)
    requires announcing != 0 || connecting != 0
  {
    if connecting == 0 then (announcing, if announcing == first then second else first)
    else if announcing == 0 then (if connecting == first then second else first, connecting)
    else (announcing, connecting)
  }

  /** One known end is completed to the two ends of the channel exactly when it is one of them. */
  lemma EndsAreTheChannelsIff(known: int, first: int, second: int)
    requires known != 0
    ensures {Ends(known, 0, first, second).0, Ends(known, 0, first, second).1} == {first, second} <==> known in {first, second}
    ensures {Ends(0, known, first, second).0, Ends(0, known, first, second).1} == {first, second} <==> known in {first, second}
  {
    var a, c := Ends(known, 0, first, second), Ends(0, known, first, second);
    assert known in {a.0, a.1} && known in {c.0, c.1};
  }

  // ------------------------------------------------------------------ storing an update

  /** A channel update; a public key that is missing is the empty string. */
  datatype ChannelUpdate = ChannelUpdate(advertisingNode: string, connectingNode: string, policy: Option<Policy>)

  /** A named node is the end that names it, and a missing end is the channel's other node. */
  ghost predicate NamedEnds(cu: ChannelUpdate, nodes: map<string, int>, first: int, second: int, announcing: int,
                            connecting: int) {
    && (cu.advertisingNode != "" ==> cu.advertisingNode in nodes && announcing == nodes[cu.advertisingNode])
    && (cu.connectingNode != "" ==> cu.connectingNode in nodes && connecting == nodes[cu.connectingNode])
    && (cu.advertisingNode == "" ==> cu.connectingNode != "" && announcing == if connecting == first then second else first)
    && (cu.connectingNode == "" ==> cu.advertisingNode != "" && connecting == if announcing == first then second else first)
  }

  datatype Statement = AddAnnouncing | AddConnecting | SelectNewest | InsertRow

  datatype Outcome = Done | Skipped | Failed(statement: Statement) | NoNode

  class PolicyStore {
    var rows: seq<Row>
    var events: seq<Event>
    /** Node ids by public key: as cached, and as stored; new ones come from a counter. */
    var nodeCache: map<string, int>
    var nodes: map<string, int>
    var nextNodeId: nat
    ghost var offered: seq<Received>

    ghost predicate Valid()
      reads this
    {
      Reached(offered, Log(rows, events)) && NodesValid()
    }

    ghost predicate NodesValid()
      reads `nodeCache, `nodes, `nextNodeId
    {
      && nextNodeId > 0
      && (forall k | k in nodes :: 0 < nodes[k] < nextNodeId)
      && (forall k, l | k in nodes && l in nodes && nodes[k] == nodes[l] :: k == l)
      && (forall k | k in nodeCache :: k in nodes && nodes[k] == nodeCache[k])
    }

    /** An empty log beside the nodes known so far, some of them cached. */
    constructor (nodes: map<string, int>, nodeCache: map<string, int>, nextNodeId: nat)
      requires nextNodeId > 0 && forall k | k in nodes :: 0 < nodes[k] < nextNodeId
      requires forall k, l | k in nodes && l in nodes && nodes[k] == nodes[l] :: k == l
      requires forall k | k in nodeCache :: k in nodes && nodes[k] == nodeCache[k]
      ensures Valid() && offered == [] && this.nodes == nodes && this.nodeCache == nodeCache
    {
      rows, events, offered := [], [], [];
      this.nodes, this.nodeCache, this.nextNodeId := nodes, nodeCache, nextNodeId;
    }

    /** A public key keeps its id for good, and different keys have different ids. */
    method NodeIdOf(publicKey: string, failing: bool) returns (nodeId: int, failed: bool)
      requires NodesValid()
      modifies `nodes, `nextNodeId
      ensures NodesValid()
      ensures forall k | k in old(nodes) :: k in nodes && nodes[k] == old(nodes)[k]
      ensures nodes.Keys == old(nodes).Keys + (if publicKey == "" || failed then {} else {publicKey})
      ensures failed <==> failing && publicKey != "" && publicKey !in nodeCache
      ensures !failed ==> nodeId == if publicKey == "" then 0 else nodes[publicKey]
    {
      if publicKey == "" {
        return 0, false;
      }
      if publicKey in nodeCache {
        return nodeCache[publicKey], false;
      }
      if failing {
        return 0, true;
      }
      if publicKey !in nodes {
        nodes := nodes[publicKey := nextNodeId];
        nextNodeId := nextNodeId + 1;
      }
      return nodes[publicKey], false;
    }

    method SelectNewest(key: Key) returns (newest: Option<Row>)
      ensures IsNewest(rows, key, newest)
    {
      newest := None;
      for i := 0 to |rows|
        invariant IsNewest(rows[..i], key, newest)
      {
        assert rows[..i + 1] == rows[..i] + [rows[i]];
        if rows[i].key == key && (newest.None? || rows[i].ts > newest.value.ts) {
          newest := Some(rows[i]);
        }
      }
      assert rows[..|rows|] == rows;
    }

    /** Store an update when it differs from the newest row of its direction. */
    method RecordPolicy(eventTime: int, key: Key, policy: Policy, nodeId: int, emits: bool, failing: set<Statement>)
      returns (r: Outcome, ghost newest: Option<Row>)
      modifies `rows, `events
      ensures IsNewest(old(rows), key, newest)
      ensures r.Done? || r.Failed?
      ensures r.Failed? ==>
                && rows == old(rows) && events == old(events)
                && (r.statement in failing || (r.statement == Statement.SelectNewest && !Readable(newest)))
      ensures r.Done? ==> Statement.SelectNewest !in failing && (rows != old(rows) ==> InsertRow !in failing)
      ensures r.Done? ==>
                Recorded(old(Log(rows, events)), Received(eventTime, key, policy, nodeId, emits), newest, Log(rows, events))
      ensures r.Done? ==>
                Appended(old(Log(rows, events)), Log(rows, events), newest, Row(eventTime, key, policy, nodeId), emits)
    {
      var channelEvent := SelectNewest(key);
      newest := channelEvent;
      if Statement.SelectNewest in failing || (channelEvent.Some? && channelEvent.value.policy.minHtlc < 0) {
        return Failed(Statement.SelectNewest), newest;
      }
      var previous := if channelEvent.Some? then channelEvent.value.policy else NO_POLICY;
      if policy.disabled != previous.disabled || policy.feeBaseMsat != previous.feeBaseMsat
         || policy.feeRateMilliMsat != previous.feeRateMilliMsat || policy.maxHtlcMsat != previous.maxHtlcMsat
         || AsUint64(policy.minHtlc) != previous.minHtlc || policy.timeLockDelta != previous.timeLockDelta {
        if InsertRow in failing {
          return Failed(InsertRow), newest;
        }
        rows := rows + [Row(eventTime, key, policy, nodeId)];
        if emits {
          var event := Event(eventTime, nodeId, key, DataOf(policy), None);
          if channelEvent.Some? && channelEvent.value.key.channelId != 0 {
            event := event.(previous := Some(Previous(channelEvent.value.ts, DataOf(channelEvent.value.policy))));
          }
          events := events + [event];
        }
      }
      r := Done;
      RecordedIsAppended(old(Log(rows, events)), Received(eventTime, key, policy, nodeId, emits), newest, Log(rows, events));
    }

    /** The two ends of the update: both named ones have an id from now on, a missing one comes from the channel. */
    method FindEnds(cu: ChannelUpdate, first: int, second: int, failing: set<Statement>)
      returns (r: Outcome, announcingNodeId: int, connectingNodeId: int)
      requires NodesValid()
      modifies `nodes, `nextNodeId
      ensures NodesValid()
      ensures forall k | k in old(nodes) :: k in nodes && nodes[k] == old(nodes)[k]
      ensures r.NoNode? <==> cu.advertisingNode == "" && cu.connectingNode == ""
      ensures r.Done? || r.NoNode? || (r.Failed? && r.statement in failing * {AddAnnouncing, AddConnecting})
      ensures r.Done? ==>
                var a, c := cu.advertisingNode, cu.connectingNode;
                && (a == "" || a in nodes) && (c == "" || c in nodes)
                && (announcingNodeId, connectingNodeId)
                   == Ends(if a == "" then 0 else nodes[a], if c == "" then 0 else nodes[c], first, second)
      ensures r.Done? ==> NamedEnds(cu, nodes, first, second, announcingNodeId, connectingNodeId)
    {
      var failed;
      connectingNodeId := 0;
      announcingNodeId, failed := NodeIdOf(cu.advertisingNode, AddAnnouncing in failing);
      if failed {
        return Failed(AddAnnouncing), announcingNodeId, connectingNodeId;
      }
      connectingNodeId, failed := NodeIdOf(cu.connectingNode, AddConnecting in failing);
      if failed {
        return Failed(AddConnecting), announcingNodeId, connectingNodeId;
      }
      if connectingNodeId == 0 && announcingNodeId == 0 {
        return NoNode, announcingNodeId, connectingNodeId;
      }
      if connectingNodeId == 0 {
        connectingNodeId := if announcingNodeId == first then second else first;
      }
      if announcingNodeId == 0 {
        announcingNodeId := if connectingNodeId == first then second else first;
      }
      r := Done;
    }

    /** One channel update of a channel with these two nodes; a statement in `failing` fails when it is reached. */
    method InsertRoutingPolicy(eventTime: int, channelId: int, first: int, second: int, nodeId: int,
                               cu: Option<ChannelUpdate>,
                               emits: bool, failing: set<Statement>)
      returns (r: Outcome, ghost newest: Option<Row>)
      requires Valid()
      modifies this
      ensures Valid() && nodeCache == old(nodeCache)
      ensures r.Skipped? <==> cu.None? || cu.value.policy.None?
      ensures r.NoNode? <==> !r.Skipped? && cu.value.advertisingNode == "" && cu.value.connectingNode == ""
      ensures !r.Done? ==> rows == old(rows) && events == old(events)
      ensures r.Failed? ==> r.statement in failing || (r.statement == Statement.SelectNewest && !Readable(newest))
      ensures !WasOffered(r, failing) ==> offered == old(offered)
      ensures WasOffered(r, failing) ==>
                var a, c := cu.value.advertisingNode, cu.value.connectingNode;
                && (a == "" || a in nodes) && (c == "" || c in nodes) && (a != "" || c != "")
                && var ends := Ends(if a == "" then 0 else nodes[a], if c == "" then 0 else nodes[c], first, second);
                var update := Received(eventTime, Key(channelId, ends.0, ends.1), cu.value.policy.value, nodeId, emits);
                && offered == old(offered) + [update]
                && Taken(old(Log(rows, events)), update, newest, Log(rows, events))
                && (r.Done? <==> Readable(newest))
      ensures r.Done? ==>
                IsStored(cu.value, eventTime, channelId, first, second, nodeId, emits, nodes, newest, old(Log(rows, events)),
                         Log(rows, events))
    {
      newest := None;
      if cu.None? || cu.value.policy.None? {
        return Skipped, newest;
      }
      var announcingNodeId, connectingNodeId;
      r, announcingNodeId, connectingNodeId := FindEnds(cu.value, first, second, failing);
      if r.Done? {
        var key := Key(channelId, announcingNodeId, connectingNodeId);
        r, newest := Offer(eventTime, key, cu.value.policy.value, nodeId, emits, failing);
        assert r.Done? ==> NamedEnds(cu.value, nodes, first, second, key.announcingNodeId, key.connectingNodeId);
      }
    }

    method Offer(eventTime: int, key: Key, policy: Policy, nodeId: int, emits: bool, failing: set<Statement>)
      returns (r: Outcome, ghost newest: Option<Row>)
      requires Reached(offered, Log(rows, events))
      modifies `rows, `events, `offered
      ensures Reached(offered, Log(rows, events))
      ensures r.Done? || r.Failed?
      ensures !r.Done? ==> rows == old(rows) && events == old(events)
      ensures r.Failed? ==> r.statement in failing || (r.statement == Statement.SelectNewest && !Readable(newest))
      ensures !WasOffered(r, failing) ==> offered == old(offered)
      ensures WasOffered(r, failing) ==>
                var update := Received(eventTime, key, policy, nodeId, emits);
                && offered == old(offered) + [update]
                && Taken(old(Log(rows, events)), update, newest, Log(rows, events))
                && (r.Done? <==> Readable(newest))
      ensures r.Done? ==> Appended(old(Log(rows, events)), Log(rows, events), newest, Row(eventTime, key, policy, nodeId), emits)
    {
      ghost var before := Log(rows, events);
      r, newest := RecordPolicy(eventTime, key, policy, nodeId, emits, failing);
      if WasOffered(r, failing) {
        ghost var update := Received(eventTime, key, policy, nodeId, emits);
        ExtendReached(offered, before, update, newest, Log(rows, events));
        offered := offered + [update];
      }
    }
  }

  /** The update's policy is compared with the newest row between the ends that it names, and stored between them. */
  ghost predicate IsStored(cu: ChannelUpdate, eventTime: int, channelId: int, first: int, second: int, nodeId: int,
                           emits: bool, nodes: map<string, int>, newest: Option<Row>, before: Log, after: Log) {
    && cu.policy.Some?
    && exists key: Key ::
         && key.channelId == channelId && NamedEnds(cu, nodes, first, second, key.announcingNodeId, key.connectingNodeId)
         && IsNewest(before.rows, key, newest)
         && Appended(before, after, newest, Row(ts := eventTime, key := key, policy := cu.policy.value, nodeId := nodeId), emits)
  }

  /** The update got as far as the newest row, and no statement failed by itself. */
  predicate WasOffered(r: Outcome, failing: set<Statement>) {
    r.Done? || (r == Failed(Statement.SelectNewest) && Statement.SelectNewest !in failing)
  }

  lemma ExtendReached(offered: seq<Received>, before: Log, r: Received, newest: Option<Row>, after: Log)
    requires Reached(offered, before) && Taken(before, r, newest, after)
    ensures Reached(offered + [r], after)
  {
    var all := offered + [r];
    assert all[..|all| - 1] == offered && all[|all| - 1] == r;
  }
}
