/** The service state machine of pkg/commons/services.go.

    Services keeps several maps keyed by node. Every method runs under one mutex, so a history is a sequence
    of calls; the maps are tied to a per-node state folded over that sequence. Times are left out. */
module Services {
  import opened Options
  import opened Statuses
  import opened Collections

  datatype ServiceType = LndService | VectorService | AmbossService | TorqService

  datatype Stream =
    | TransactionStream | HtlcEventStream | ChannelEventStream | GraphEventStream | ForwardStream
    | InvoiceStream | PaymentStream | InFlightPaymentStream | PeerEventStream | ChannelBalanceCacheStream
  {
    predicate IsChannelBalanceCache() {
      || ForwardStream? || InvoiceStream? || PaymentStream? || PeerEventStream?
      || ChannelEventStream? || GraphEventStream? || HtlcEventStream?
    }
  }

  const SUBSCRIPTION_STREAMS: seq<Stream> := [
    TransactionStream, HtlcEventStream, ChannelEventStream, GraphEventStream, ForwardStream,
    InvoiceStream, PaymentStream, InFlightPaymentStream, PeerEventStream, ChannelBalanceCacheStream]

  datatype ServiceEvent = ServiceEvent(
    nodeId: int, serviceType: ServiceType, stream: Option<Stream>, status: Status, previousStatus: Status)

  // ------------------------------------------------------------------ one node

  /** Everything the maps say about one node; None where a map has no entry. */
  datatype NodeState = NodeState(
    status: Option<Status>, running: Option<int>, bootLock: Option<bool>,
    enforced: Option<Option<Status>>, noDelay: Option<bool>, streams: map<Stream, Status>)
  {
    function Status(): Status {
      status.GetOr(Inactive)
    }

    function StreamStatus(stream: Stream): Status {
      if stream in streams then streams[stream] else Inactive
    }
  }

  const UNKNOWN_NODE := NodeState(None, None, None, None, None, map[])

  function AllStreams(status: Status): map<Stream, Status> {
    map stream: Stream | stream in SUBSCRIPTION_STREAMS :: status
  }

  datatype Operation =
    | AddSubscription(cancelFunc: int)
    | RemoveSubscription
    | Cancel(enforcedStatus: Option<Status>, withoutDelay: bool)
    | GetEnforcedServiceStatusCheck
    | IsNoDelay
    | Initialising
    | Booted(unlock: bool)
    | SetStreamStatus(stream: Stream, newStatus: Status)
    | GetBootLock
    | TryBootLock
    | UnlockBootLock

  /** Whether a Cancel goes through: something runs and it is not booting. */
  predicate CanCancel(s: NodeState) {
    s.running.Some? && s.bootLock != Some(true)
  }

  /** What a call does to its node. */
  function NodeStep(t: ServiceType, s: NodeState, op: Operation): NodeState {
    match op
    case AddSubscription(cancelFunc) =>
      s.(running := Some(cancelFunc), status := Some(Pending),
         streams := if t.LndService? then AllStreams(Inactive) else s.streams)
    case RemoveSubscription =>
      s.(running := None, status := if s.running.Some? then Some(Inactive) else s.status,
         streams := if t.LndService? then AllStreams(Inactive) else s.streams)
    case Cancel(enforced, withoutDelay) =>
      if CanCancel(s) then
        s.(running := None, status := Some(Inactive), enforced := Some(enforced), noDelay := Some(withoutDelay),
           streams := AllStreams(Inactive))
      else s
    case GetEnforcedServiceStatusCheck => s.(enforced := None)
    case IsNoDelay => s.(noDelay := None)
    case Initialising => s.(status := Some(Initializing))
    case Booted(unlock) =>
      s.(bootLock := if unlock then Some(false) else s.bootLock, status := Some(Active),
         streams := if t.LndService? then AllStreams(Pending) else s.streams)
    case SetStreamStatus(stream, status) =>
      if s.StreamStatus(stream) == status then s else s.(streams := s.streams[stream := status])
    case GetBootLock => s.(bootLock := if s.bootLock.None? then Some(false) else s.bootLock)
    case TryBootLock => s.(bootLock := Some(true))
    case UnlockBootLock => s.(bootLock := if s.bootLock == Some(true) then Some(false) else s.bootLock)
  }

  /** The call's one event: a change of a stream's status, or of the service's. */
  function EventsOf(t: ServiceType, nodeId: int, s: NodeState, op: Operation): seq<ServiceEvent> {
    var next := NodeStep(t, s, op);
    if op.SetStreamStatus? then
      if s.StreamStatus(op.stream) == op.newStatus then []
      else [ServiceEvent(nodeId, t, Some(op.stream), op.newStatus, s.StreamStatus(op.stream))]
    else if s.Status() == next.Status() then []
    else [ServiceEvent(nodeId, t, None, next.Status(), s.Status())]
  }

  // ------------------------------------------------------------------ runs

  /** A call for a node, with or without an event channel. */
  datatype Call = Call(nodeId: int, op: Operation, notify: bool)

  function StateAfter(t: ServiceType, run: seq<Call>, nodeId: int): NodeState {
    if run == [] then UNKNOWN_NODE
    else
      var s, call := StateAfter(t, run[..|run| - 1], nodeId), run[|run| - 1];
      if call.nodeId == nodeId then NodeStep(t, s, call.op) else s
  }

  function LogAfter(t: ServiceType, run: seq<Call>): seq<ServiceEvent> {
    if run == [] then []
    else
      var before, call := run[..|run| - 1], run[|run| - 1];
      LogAfter(t, before) + if call.notify then EventsOf(t, call.nodeId, StateAfter(t, before, call.nodeId), call.op) else []
  }

  /** The cancel functions called, in order. */
  function CancelledAfter(t: ServiceType, run: seq<Call>): seq<int> {
    if run == [] then []
    else
      var before, call := run[..|run| - 1], run[|run| - 1];
      var s := StateAfter(t, before, call.nodeId);
      CancelledAfter(t, before) + if call.op.Cancel? && CanCancel(s) then [s.running.value] else []
  }

  lemma RunExtended(t: ServiceType, run: seq<Call>, call: Call)
    ensures forall n :: StateAfter(t, run + [call], n)
                        == if call.nodeId == n then NodeStep(t, StateAfter(t, run, n), call.op) else StateAfter(t, run, n)
    ensures LogAfter(t, run + [call])
            == LogAfter(t, run) + if call.notify then EventsOf(t, call.nodeId, StateAfter(t, run, call.nodeId), call.op) else []
    ensures CancelledAfter(t, run + [call])
            == CancelledAfter(t, run) + if call.op.Cancel? && CanCancel(StateAfter(t, run, call.nodeId))
                                        then [StateAfter(t, run, call.nodeId).running.value] else []
  {
    assert (run + [call])[..|run|] == run;
  }

  lemma RunNext(t: ServiceType, run: seq<Call>, i: nat)
    requires i < |run|
    ensures var before, call, s := run[..i], run[i], StateAfter(t, run[..i], run[i].nodeId);
            && (forall n :: StateAfter(t, run[..i + 1], n)
                            == if call.nodeId == n then NodeStep(t, s, call.op) else StateAfter(t, before, n))
            && LogAfter(t, run[..i + 1])
               == LogAfter(t, before) + (if call.notify then EventsOf(t, call.nodeId, s, call.op) else [])
            && CancelledAfter(t, run[..i + 1])
               == CancelledAfter(t, before) + (if call.op.Cancel? && CanCancel(s) then [s.running.value] else [])
  {
    assert run[..i + 1] == run[..i] + [run[i]];
    RunExtended(t, run[..i], run[i]);
  }

  // ------------------------------------------------------------------ the event log

  /** A node's events about the service itself, oldest first. */
  function ServiceEvents(log: seq<ServiceEvent>, nodeId: int): seq<ServiceEvent> {
    if log == [] then []
    else
      var e := log[|log| - 1];
      ServiceEvents(log[..|log| - 1], nodeId) + if e.nodeId == nodeId && e.stream.None? then [e] else []
  }

  /** Each event starts where the previous one ended and changes something; the last one ends at `end`. */
  ghost predicate Chain(events: seq<ServiceEvent>, start: Status, end: Status) {
    if events == [] then start == end
    else
      var e := events[|events| - 1];
      e.status == end && e.previousStatus != e.status && Chain(events[..|events| - 1], start, e.previousStatus)
  }

  lemma ChainGrows(events: seq<ServiceEvent>, start: Status, end: Status, e: ServiceEvent)
    requires Chain(events, start, end) && e.previousStatus == end && e.status != end
    ensures Chain(events + [e], start, e.status)
  {
    assert (events + [e])[..|events|] == events;
  }

  lemma ServiceEventsGrow(log: seq<ServiceEvent>, e: ServiceEvent, nodeId: int)
    ensures ServiceEvents(log + [e], nodeId)
            == ServiceEvents(log, nodeId) + if e.nodeId == nodeId && e.stream.None? then [e] else []
  {
    assert (log + [e])[..|log|] == log;
  }

  /** A call's event, if it has one, is about a stream or tells the change of the status. */
  lemma EventsTellStatus(t: ServiceType, nodeId: int, s: NodeState, op: Operation)
    ensures var events, status, next := EventsOf(t, nodeId, s, op), s.Status(), NodeStep(t, s, op).Status();
            || (events == [] && next == status)
            || (exists e :: events == [e] && e.nodeId == nodeId
                            && if e.stream.Some? then next == status
                               else e.status == next && e.previousStatus == status && next != status)
  {
    var events := EventsOf(t, nodeId, s, op);
    if events != [] { assert events == [events[0]]; }
  }

  /** One call extends a node's chain by the change it makes to the node's status, if any. */
  lemma CallKeepsChain(t: ServiceType, log: seq<ServiceEvent>, s: NodeState, call: Call, nodeId: int, start: Status,
                       status: Status)
    requires Chain(ServiceEvents(log, nodeId), start, status)
    requires call.nodeId == nodeId ==> s.Status() == status
    ensures var events := EventsOf(t, call.nodeId, s, call.op);
            Chain(ServiceEvents(log + events, nodeId), start,
                  if call.nodeId == nodeId then NodeStep(t, s, call.op).Status() else status)
  {
    var events := EventsOf(t, call.nodeId, s, call.op);
    EventsTellStatus(t, call.nodeId, s, call.op);
    if events == [] {
      assert log + events == log;
    } else {
      var e := events[0];
      ServiceEventsGrow(log, e, nodeId);
      assert events == [e];
      if e.nodeId == nodeId && e.stream.None? {
        ChainGrows(ServiceEvents(log, nodeId), start, status, e);
      } else {
        assert ServiceEvents(log, nodeId) + [] == ServiceEvents(log, nodeId);
      }
    }
  }

  /** Over every run with an event channel, a node's events form a chain from Inactive to its stored status. */
  lemma {:induction false} LogReconstructsStatus(t: ServiceType, run: seq<Call>, nodeId: int)
    requires forall i | 0 <= i < |run| && run[i].nodeId == nodeId :: run[i].notify
    ensures Chain(ServiceEvents(LogAfter(t, run), nodeId), Inactive, StateAfter(t, run, nodeId).Status())
  {
    if run != [] {
      var n := |run| - 1;
      var before, call := run[..n], run[n];
      LogReconstructsStatus(t, before, nodeId);
      if call.notify {
        CallKeepsChain(t, LogAfter(t, before), StateAfter(t, before, call.nodeId), call, nodeId, Inactive,
                       StateAfter(t, before, nodeId).Status());
      } else {
        assert LogAfter(t, run) == LogAfter(t, before);
      }
    }
  }

  // ------------------------------------------------------------------ invariants of every run

  /** A node with a running subscription is never inactive. */
  lemma {:induction false} RunningIsNotInactive(t: ServiceType, run: seq<Call>, nodeId: int)
    ensures var s := StateAfter(t, run, nodeId); s.running.Some? ==> s.Status() != Inactive
  {
    if run != [] { RunningIsNotInactive(t, run[..|run| - 1], nodeId); }
  }

  /** An active LND node has an entry for every stream. */
  lemma {:induction false} ActiveNodeHasEveryStream(run: seq<Call>, nodeId: int)
    ensures var s := StateAfter(LndService, run, nodeId);
            s.Status() == Active ==> forall stream :: stream in s.streams
  {
    EveryStreamListed();
    if run != [] { ActiveNodeHasEveryStream(run[..|run| - 1], nodeId); }
  }

  lemma PlaceOf(stream: Stream) returns (i: nat)
    ensures i < |SUBSCRIPTION_STREAMS| && SUBSCRIPTION_STREAMS[i] == stream
  {
    i := match stream
         case TransactionStream => 0
         case HtlcEventStream => 1
         case ChannelEventStream => 2
         case GraphEventStream => 3
         case ForwardStream => 4
         case InvoiceStream => 5
         case PaymentStream => 6
         case InFlightPaymentStream => 7
         case PeerEventStream => 8
         case ChannelBalanceCacheStream => 9;
  }

  lemma EveryStreamListed()
    ensures forall stream: Stream :: stream in SUBSCRIPTION_STREAMS
  {
    forall stream: Stream
      ensures stream in SUBSCRIPTION_STREAMS
    {
      var i := PlaceOf(stream);
    }
  }

  /** How often an enforced status was handed out to a node, and how often one was left by a Cancel. */
  function EnforcedHandedOut(t: ServiceType, run: seq<Call>, nodeId: int): nat {
    if run == [] then 0
    else
      var before, call := run[..|run| - 1], run[|run| - 1];
      EnforcedHandedOut(t, before, nodeId)
      + if call.nodeId == nodeId && call.op.GetEnforcedServiceStatusCheck?
           && StateAfter(t, before, nodeId).enforced.Some? then 1 else 0
  }

  function NoDelayHandedOut(t: ServiceType, run: seq<Call>, nodeId: int): nat {
    if run == [] then 0
    else
      var before, call := run[..|run| - 1], run[|run| - 1];
      NoDelayHandedOut(t, before, nodeId)
      + if call.nodeId == nodeId && call.op.IsNoDelay? && StateAfter(t, before, nodeId).noDelay.Some? then 1 else 0
  }

  function Cancels(t: ServiceType, run: seq<Call>, nodeId: int): nat {
    if run == [] then 0
    else
      var before, call := run[..|run| - 1], run[|run| - 1];
      Cancels(t, before, nodeId)
      + if call.nodeId == nodeId && call.op.Cancel? && CanCancel(StateAfter(t, before, nodeId)) then 1 else 0
  }

  /** The arguments of the node's last Cancel that went through. */
  function LastCancel(t: ServiceType, run: seq<Call>, nodeId: int): Option<Operation> {
    if run == [] then None
    else
      var before, call := run[..|run| - 1], run[|run| - 1];
      if call.nodeId == nodeId && call.op.Cancel? && CanCancel(StateAfter(t, before, nodeId)) then Some(call.op)
      else LastCancel(t, before, nodeId)
  }

  /** A Cancel's enforced status is handed out at most once, and the one waiting is the last Cancel's. */
  lemma {:induction false} EnforcedStatusOnce(t: ServiceType, run: seq<Call>, nodeId: int)
    ensures var s, last := StateAfter(t, run, nodeId), LastCancel(t, run, nodeId);
            && EnforcedHandedOut(t, run, nodeId) + (if s.enforced.Some? then 1 else 0) <= Cancels(t, run, nodeId)
            && (s.enforced.Some? ==> last.Some? && last.value.Cancel? && s.enforced.value == last.value.enforcedStatus)
  {
    if run != [] { EnforcedStatusOnce(t, run[..|run| - 1], nodeId); }
  }

  /** The same for the no-delay flag. */
  lemma {:induction false} NoDelayOnce(t: ServiceType, run: seq<Call>, nodeId: int)
    ensures var s, last := StateAfter(t, run, nodeId), LastCancel(t, run, nodeId);
            && NoDelayHandedOut(t, run, nodeId) + (if s.noDelay.Some? then 1 else 0) <= Cancels(t, run, nodeId)
            && (s.noDelay.Some? ==> last.Some? && last.value.Cancel? && s.noDelay.value == last.value.withoutDelay)
  {
    if run != [] { NoDelayOnce(t, run[..|run| - 1], nodeId); }
  }

  /** An earlier boot's unlock during a later boot: a Cancel goes through although the node is still booting, and
      the later boot's own unlock is then a fatal error. */
  lemma StaleUnlockOpensTheBoot(t: ServiceType, run: seq<Call>, nodeId: int, notify: bool)
    requires StateAfter(t, run, nodeId).bootLock == Some(true)
    ensures var s := StateAfter(t, run + [Call(nodeId, UnlockBootLock, notify)], nodeId);
            && !CanCancel(StateAfter(t, run, nodeId))
            && (CanCancel(s) <==> StateAfter(t, run, nodeId).running.Some?)
            && !Allowed(s, Call(nodeId, Booted(true), notify))
  {
    RunExtended(t, run, Call(nodeId, UnlockBootLock, notify));
  }

  lemma AllowedLonger(t: ServiceType, run: seq<Call>, call: Call)
    requires AllAllowed(t, run) && Allowed(StateAfter(t, run, call.nodeId), call)
    ensures AllAllowed(t, run + [call])
    ensures StateAfter(t, run + [call], call.nodeId) == NodeStep(t, StateAfter(t, run, call.nodeId), call.op)
  {
    var longer := run + [call];
    RunExtended(t, run, call);
    forall i | 0 <= i < |longer|
      ensures Allowed(StateAfter(t, longer[..i], longer[i].nodeId), longer[i])
    {
      assert longer[..i] == run[..i];
      assert i < |run| ==> longer[i] == run[i];
      assert run[..|run|] == run;
    }
  }

  /** An allowed run leaves the node in this state. */
  ghost predicate Leaves(t: ServiceType, run: seq<Call>, nodeId: int, s: NodeState) {
    AllAllowed(t, run) && StateAfter(t, run, nodeId) == s
  }

  lemma LeavesNext(t: ServiceType, run: seq<Call>, nodeId: int, s: NodeState, op: Operation, notify: bool)
      returns (longer: seq<Call>, next: NodeState)
    requires Leaves(t, run, nodeId, s) && Allowed(s, Call(nodeId, op, notify))
    ensures Leaves(t, longer, nodeId, next)
    ensures next.bootLock == NodeStep(t, s, op).bootLock && next.running == NodeStep(t, s, op).running
    ensures next.status == NodeStep(t, s, op).status
  {
    longer, next := run + [Call(nodeId, op, notify)], NodeStep(t, s, op);
    AllowedLonger(t, run, Call(nodeId, op, notify));
  }

  /** A boot that ends by itself, up to the request for the next one. */
  lemma BootThatEnds(t: ServiceType, nodeId: int, cancelFunc: int, notify: bool) returns (run: seq<Call>, s: NodeState)
    ensures Leaves(t, run, nodeId, s) && s.bootLock == Some(false)
  {
    run, s := [], UNKNOWN_NODE;
    run, s := LeavesNext(t, run, nodeId, s, GetBootLock, notify);
    run, s := LeavesNext(t, run, nodeId, s, TryBootLock, notify);
    run, s := LeavesNext(t, run, nodeId, s, AddSubscription(cancelFunc), notify);
    run, s := LeavesNext(t, run, nodeId, s, Booted(true), notify);
    run, s := LeavesNext(t, run, nodeId, s, RemoveSubscription, notify);
    run, s := LeavesNext(t, run, nodeId, s, IsNoDelay, notify);
  }

  /** The next boot, up to its subscription. */
  lemma BootUnderWay(t: ServiceType, before: seq<Call>, nodeId: int, start: NodeState, cancelFunc: int, notify: bool)
      returns (run: seq<Call>, s: NodeState)
    requires Leaves(t, before, nodeId, start) && start.bootLock == Some(false)
    ensures Leaves(t, run, nodeId, s) && s.bootLock == Some(true) && s.running == Some(cancelFunc)
  {
    run, s := LeavesNext(t, before, nodeId, start, GetEnforcedServiceStatusCheck, notify);
    run, s := LeavesNext(t, run, nodeId, s, GetBootLock, notify);
    run, s := LeavesNext(t, run, nodeId, s, TryBootLock, notify);
    run, s := LeavesNext(t, run, nodeId, s, AddSubscription(cancelFunc), notify);
  }

  /** A run that gets there: a boot ends by itself and asks for the next one before it runs its deferred unlock, and
      by then the next one has the lock and its subscription. */
  lemma StaleUnlockIsReached(t: ServiceType, nodeId: int, first: int, second: int, notify: bool) returns (run: seq<Call>)
    ensures AllAllowed(t, run) && StateAfter(t, run, nodeId).bootLock == Some(true)
    ensures var stale := run + [Call(nodeId, UnlockBootLock, notify)];
            && AllAllowed(t, stale) && CanCancel(StateAfter(t, stale, nodeId))
            && !Allowed(StateAfter(t, stale, nodeId), Call(nodeId, Booted(true), notify))
  {
    var s: NodeState;
    run, s := BootThatEnds(t, nodeId, first, notify);
    run, s := BootUnderWay(t, run, nodeId, s, second, notify);
    AllowedLonger(t, run, Call(nodeId, UnlockBootLock, notify));
  }

  // ------------------------------------------------------------------ what the last call left

  /** What there is to know of a node. */
  datatype Aspect = TheStatus | TheSubscription | TheLock | TheEnforcedStatus | TheDelay | TheStream(stream: Stream)

  /** A call sets this of its node. A removal sets the status where something runs; a Cancel goes through where
      something runs that is not booting. */
  predicate Sets(t: ServiceType, before: NodeState, op: Operation, aspect: Aspect) {
    var cancels := op.Cancel? && before.running.Some? && before.bootLock != Some(true);
    match aspect
    case TheStatus =>
      cancels || op.AddSubscription? || op.Initialising? || op.Booted? || (op.RemoveSubscription? && before.running.Some?)
    case TheSubscription => cancels || op.AddSubscription? || op.RemoveSubscription?
    case TheLock =>
      || op.TryBootLock? || (op.Booted? && op.unlock)
      || (op.UnlockBootLock? && before.bootLock.Some?) || (op.GetBootLock? && before.bootLock.None?)
    case TheEnforcedStatus => cancels || op.GetEnforcedServiceStatusCheck?
    case TheDelay => cancels || op.IsNoDelay?
    case TheStream(stream) =>
      || cancels || (op.SetStreamStatus? && op.stream == stream)
      || (t == LndService && (op.AddSubscription? || op.RemoveSubscription? || op.Booted?))
  }

  /** Call i of the run is for the node and sets this of it. */
  ghost predicate Touches(t: ServiceType, run: seq<Call>, i: int, nodeId: int, aspect: Aspect) {
    0 <= i < |run| && run[i].nodeId == nodeId && Sets(t, StateAfter(t, run[..i], nodeId), run[i].op, aspect)
  }

  /** What a call that sets it leaves. */
  ghost predicate Left(op: Operation, s: NodeState, aspect: Aspect) {
    match aspect
    case TheStatus =>
      s.status == Some(if op.AddSubscription? then Pending else if op.Initialising? then Initializing
                       else if op.Booted? then Active else Inactive)
    case TheSubscription => s.running == if op.AddSubscription? then Some(op.cancelFunc) else None
    case TheLock => s.bootLock == if op.TryBootLock? then Some(true) else Some(false)
    case TheEnforcedStatus => s.enforced == if op.Cancel? then Some(op.enforcedStatus) else None
    case TheDelay => s.noDelay == if op.Cancel? then Some(op.withoutDelay) else None
    case TheStream(stream) =>
      s.StreamStatus(stream) == if op.SetStreamStatus? then op.newStatus else if op.Booted? then Pending else Inactive
  }

  /** What there is of a node before any call. */
  ghost predicate Unset(s: NodeState, aspect: Aspect) {
    match aspect
    case TheStatus => s.status == None && s.Status() == Inactive
    case TheSubscription => s.running == None
    case TheLock => s.bootLock == None
    case TheEnforcedStatus => s.enforced == None
    case TheDelay => s.noDelay == None
    case TheStream(stream) => s.StreamStatus(stream) == Inactive
  }

  /** Call i is the node's last that sets this, or i is -1 and there is none. */
  ghost predicate LastTouch(t: ServiceType, run: seq<Call>, i: int, nodeId: int, aspect: Aspect) {
    && -1 <= i && (i >= 0 ==> Touches(t, run, i, nodeId, aspect))
    && forall j | i < j < |run| :: !Touches(t, run, j, nodeId, aspect)
  }

  /** One call sets what it touches and leaves the rest. */
  lemma StepSets(t: ServiceType, s: NodeState, op: Operation, aspect: Aspect)
    ensures var after := NodeStep(t, s, op);
            if Sets(t, s, op, aspect) then Left(op, after, aspect) else Shows(s, after, aspect)
  {
    EveryStreamListed();
    match aspect
    case TheStatus =>
    case TheSubscription =>
    case TheLock =>
      if s.bootLock.Some? { assert s.bootLock == if s.bootLock.value then Some(true) else Some(false); }
    case TheEnforcedStatus =>
    case TheDelay =>
    case TheStream(stream) =>
  }

  lemma ShownAsBefore(before: NodeState, after: NodeState, aspect: Aspect)
    requires Shows(before, after, aspect)
    ensures Unset(before, aspect) ==> Unset(after, aspect)
    ensures forall op :: Left(op, before, aspect) ==> Left(op, after, aspect)
  {
  }

  /** Both states show the same. */
  ghost predicate Shows(before: NodeState, after: NodeState, aspect: Aspect) {
    match aspect
    case TheStatus => after.status == before.status
    case TheSubscription => after.running == before.running
    case TheLock => after.bootLock == before.bootLock
    case TheEnforcedStatus => after.enforced == before.enforced
    case TheDelay => after.noDelay == before.noDelay
    case TheStream(stream) => after.StreamStatus(stream) == before.StreamStatus(stream)
  }

  /** Over every run, what a node shows is what the last call that sets it left, and nothing when no call has: the
      status is Pending after a subscription, Initializing or Active after those calls, and Inactive after a removal
      or a Cancel; the lock is held after it was tried; and so on for the subscription, the one-time settings and
      every stream. */
  lemma {:induction false} LastTouchDecides(t: ServiceType, run: seq<Call>, nodeId: int, i: int, aspect: Aspect)
    requires LastTouch(t, run, i, nodeId, aspect)
    ensures if i < 0 then Unset(StateAfter(t, run, nodeId), aspect)
            else Left(run[i].op, StateAfter(t, run, nodeId), aspect)
  {
    if run != [] {
      var n := |run| - 1;
      var before := StateAfter(t, run[..n], nodeId);
      StepSets(t, before, run[n].op, aspect);
      if i < n {
        TouchesOfPrefix(t, run, i, nodeId, aspect);
        LastTouchDecides(t, run[..n], nodeId, i, aspect);
        assert !Touches(t, run, n, nodeId, aspect);
        ShownAsBefore(before, StateAfter(t, run, nodeId), aspect);
      }
    }
  }

  lemma TouchesOfPrefix(t: ServiceType, run: seq<Call>, i: int, nodeId: int, aspect: Aspect)
    requires run != [] && i < |run| - 1 && LastTouch(t, run, i, nodeId, aspect)
    ensures LastTouch(t, run[..|run| - 1], i, nodeId, aspect)
  {
    var init := run[..|run| - 1];
    forall j | 0 <= j < |init|
      ensures Touches(t, init, j, nodeId, aspect) <==> Touches(t, run, j, nodeId, aspect)
    {
      assert init[..j] == run[..j];
    }
  }

  /** The log and the cancel calls grow by what the call changed: a stream's status set anew, or the service's
      status, and the function of the subscription that a Cancel ends. */
  lemma CallIsLogged(t: ServiceType, run: seq<Call>, call: Call)
    ensures var before, after := StateAfter(t, run, call.nodeId), StateAfter(t, run + [call], call.nodeId);
            && LogAfter(t, run + [call]) == LogAfter(t, run) +
                 (if !call.notify then []
                  else if call.op.SetStreamStatus? then
                    var x := call.op.stream;
                    if before.StreamStatus(x) == after.StreamStatus(x) then []
                    else [ServiceEvent(call.nodeId, t, Some(x), after.StreamStatus(x), before.StreamStatus(x))]
                  else if before.Status() == after.Status() then []
                  else [ServiceEvent(call.nodeId, t, None, after.Status(), before.Status())])
            && CancelledAfter(t, run + [call]) == CancelledAfter(t, run) +
                 (if call.op.Cancel? && before.running.Some? && before.bootLock != Some(true) then [before.running.value]
                  else [])
  {
    RunExtended(t, run, call);
  }

  // ------------------------------------------------------------------ aggregated status

  /** Active when all are, the common status when the others agree, Pending when they do not. */
  function Aggregate(statuses: set<Status>): Status {
    var others := statuses - {Active};
    if others == {} then Active
    else if others == {Inactive} then Inactive
    else if others == {Deleted} then Deleted
    else if others == {Initializing} then Initializing
    else Pending
  }

  function ServiceAndStreams(t: ServiceType, s: NodeState): Status {
    if s.Status() != Active || !t.LndService? then s.Status() else Aggregate(s.streams.Values)
  }

  ghost function CacheStatuses(s: NodeState): set<Status> {
    set stream: Stream | stream.IsChannelBalanceCache() :: s.StreamStatus(stream)
  }

  ghost function BalanceCacheStatus(s: NodeState): Status {
    if s.Status() != Active then s.Status() else Aggregate(CacheStatuses(s))
  }

  lemma AggregateIsActiveIff(statuses: set<Status>)
    ensures Aggregate(statuses) == Active <==> statuses <= {Active}
  {
  }

  /** Active when all are; another status when it is the only one beside Active; Pending when two others differ. */
  lemma AggregateIsCommon(statuses: set<Status>, status: Status)
    ensures (forall x | x in statuses :: x == Active) ==> Aggregate(statuses) == Active
    ensures status != Active && status in statuses && (forall x | x in statuses :: x == Active || x == status) ==>
              Aggregate(statuses) == status
    ensures status != Active && status in statuses && (exists x :: x in statuses && x != Active && x != status) ==>
              Aggregate(statuses) == Pending
  {
    var others := statuses - {Active};
    assert status != Active && status in statuses ==> status in others;
    if status != Active && status in statuses && forall x | x in statuses :: x == Active || x == status {
      assert others == {status};
    }
    if x :| status != Active && status in statuses && x in statuses && x != Active && x != status {
      assert status in others && x in others;
    }
  }

  /** The streams that the channel balance cache depends on. */
  lemma CacheStatusesAre(s: NodeState)
    ensures CacheStatuses(s) ==
            {s.StreamStatus(ForwardStream), s.StreamStatus(InvoiceStream), s.StreamStatus(PaymentStream),
             s.StreamStatus(PeerEventStream), s.StreamStatus(ChannelEventStream), s.StreamStatus(GraphEventStream),
             s.StreamStatus(HtlcEventStream)}
  {
  }

  /** Whether a node counts as active is one question for the status and the list of active nodes, and for an
      LND node that was reached by calls it implies that its balance cache is up to date. */
  lemma ActiveImpliesCacheActive(run: seq<Call>, nodeId: int)
    ensures var s := StateAfter(LndService, run, nodeId);
            ServiceAndStreams(LndService, s) == Active ==> BalanceCacheStatus(s) == Active
  {
    var s := StateAfter(LndService, run, nodeId);
    if ServiceAndStreams(LndService, s) == Active {
      ActiveNodeHasEveryStream(run, nodeId);
      AggregateIsActiveIff(s.streams.Values);
      AggregateIsActiveIff(CacheStatuses(s));
      forall stream: Stream
        ensures s.StreamStatus(stream) == Active
      {
        assert s.streams[stream] in s.streams.Values;
      }
    }
  }

  /** The running fold over statuses in any order: the first status that is not Active, or Pending at the first
      disagreement. */
  datatype Seen = Seen(first: Option<Status>, mixed: bool)
  {
    function Add(status: Status): Seen {
      if status == Active || mixed then this
      else if first.None? then Seen(Some(status), false)
      else Seen(first, first.value != status)
    }

    function Result(): Status {
      if mixed then Pending else first.GetOr(Active)
    }

    /** What has been seen, as a set. */
    ghost predicate Of(statuses: set<Status>) {
      var others := statuses - {Active};
      && (first.None? <==> others == {})
      && (first.Some? ==> first.value in others)
      && (mixed ==> first.Some? && exists other :: other in others && other != first.value)
      && (first.Some? && !mixed ==> others == {first.value})
    }
  }

  lemma SeenNext(seen: Seen, statuses: set<Status>, status: Status)
    requires seen.Of(statuses)
    ensures seen.Add(status).Of(statuses + {status})
  {
    var others := statuses - {Active};
    assert statuses + {status} - {Active} == if status == Active then others else others + {status};
  }

  /** The fold's result depends on the set of statuses alone, so not on the order they come in. */
  lemma SeenIsAggregate(seen: Seen, statuses: set<Status>)
    requires seen.Of(statuses)
    ensures seen.Result() == Aggregate(statuses)
  {
    if seen.mixed { MixedIsPending(seen, statuses, statuses); }
  }

  /** A disagreement among some statuses is one among all of them. */
  lemma MixedIsPending(seen: Seen, some: set<Status>, all: set<Status>)
    requires seen.mixed && seen.Of(some) && some <= all
    ensures Aggregate(all) == Pending
  {
    var y :| y in some - {Active} && y != seen.first.value;
    assert seen.first.value in all - {Active} && y in all - {Active};
  }

  // ------------------------------------------------------------------ a node that becomes active

  lemma SetsOneStream(t: ServiceType, run: seq<Call>, nodeId: int, s: NodeState, stream: Stream, notify: bool)
      returns (longer: seq<Call>, next: NodeState)
    requires Leaves(t, run, nodeId, s)
    ensures Leaves(t, longer, nodeId, next) && next.status == s.status && next.StreamStatus(stream) == Active
    ensures forall x :: x == stream || next.StreamStatus(x) == s.StreamStatus(x)
  {
    var op := SetStreamStatus(stream, Active);
    longer, next := run + [Call(nodeId, op, notify)], NodeStep(t, s, op);
    AllowedLonger(t, run, Call(nodeId, op, notify));
  }

  lemma {:induction false} SetsStreams(t: ServiceType, run: seq<Call>, nodeId: int, s: NodeState, k: nat, notify: bool)
      returns (longer: seq<Call>, next: NodeState)
    requires Leaves(t, run, nodeId, s) && k <= |SUBSCRIPTION_STREAMS|
    ensures Leaves(t, longer, nodeId, next) && next.status == s.status
    ensures forall i | 0 <= i < k :: next.StreamStatus(SUBSCRIPTION_STREAMS[i]) == Active
  {
    longer, next := run, s;
    if k > 0 {
      longer, next := SetsStreams(t, run, nodeId, s, k - 1, notify);
      longer, next := SetsOneStream(t, longer, nodeId, next, SUBSCRIPTION_STREAMS[k - 1], notify);
    }
  }

  /** There is an allowed run that makes the node active: a boot, and for an LND node all its streams. */
  lemma BootMakesActive(t: ServiceType, nodeId: int, cancelFunc: int, notify: bool) returns (run: seq<Call>)
    ensures AllAllowed(t, run)
    ensures StateAfter(t, run, nodeId).Status() == Active && ServiceAndStreams(t, StateAfter(t, run, nodeId)) == Active
  {
    var s: NodeState;
    run, s := BootUpTo(t, nodeId, cancelFunc, notify);
    run, s := SetsStreams(t, run, nodeId, s, |SUBSCRIPTION_STREAMS|, notify);
    EveryStreamListed();
    forall x | x in s.streams
      ensures s.streams[x] == Active
    {
      var i := PlaceOf(x);
      assert s.StreamStatus(x) == Active;
    }
    AggregateIsActiveIff(s.streams.Values);
  }

  lemma BootUpTo(t: ServiceType, nodeId: int, cancelFunc: int, notify: bool) returns (run: seq<Call>, s: NodeState)
    ensures Leaves(t, run, nodeId, s) && s.status == Some(Active)
  {
    run, s := [], UNKNOWN_NODE;
    run, s := LeavesNext(t, run, nodeId, s, GetBootLock, notify);
    run, s := LeavesNext(t, run, nodeId, s, TryBootLock, notify);
    run, s := LeavesNext(t, run, nodeId, s, AddSubscription(cancelFunc), notify);
    run, s := LeavesNext(t, run, nodeId, s, Booted(true), notify);
  }

  // ------------------------------------------------------------------ the class

  function Lookup<T>(m: map<int, T>, key: int): Option<T> {
    if key in m then Some(m[key]) else None
  }

  class Services {
    const serviceType: ServiceType
    var serviceStatus: map<int, Status>
    /** The cancel function registered for each running node, by identity. */
    var runningList: map<int, int>
    /** The boot locks handed out, and whether each is held. */
    var bootLock: map<int, bool>
    var enforcedServiceStatus: map<int, Option<Status>>
    var noDelay: map<int, bool>
    var streamStatus: map<int, map<Stream, Status>>
    /** The events sent and the cancel functions called. */
    var events: seq<ServiceEvent>
    var cancelled: seq<int>

    function View(nodeId: int): NodeState
      reads `serviceStatus, `runningList, `bootLock, `enforcedServiceStatus, `noDelay, `streamStatus
    {
      NodeState(Lookup(serviceStatus, nodeId), Lookup(runningList, nodeId), Lookup(bootLock, nodeId),
                Lookup(enforcedServiceStatus, nodeId), Lookup(noDelay, nodeId),
                Lookup(streamStatus, nodeId).GetOr(map[]))
    }

    /** The node's entries are now s, and no other node's have changed. */
    twostate predicate Became(nodeId: int, s: NodeState)
      reads this
    {
      View(nodeId) == s && forall n | n != nodeId :: View(n) == old(View(n))
    }

    /** The call did to its node what NodeStep says, sent its event and touched no other node. */
    twostate predicate Performed(call: Call)
      reads this
    {
      var s := old(View(call.nodeId));
      && Became(call.nodeId, NodeStep(serviceType, s, call.op))
      && events == old(events) + (if call.notify then EventsOf(serviceType, call.nodeId, s, call.op) else [])
      && cancelled == old(cancelled) + (if call.op.Cancel? && CanCancel(s) then [s.running.value] else [])
    }

    constructor (serviceType: ServiceType)
      ensures this.serviceType == serviceType && events == [] && cancelled == []
      ensures forall n :: View(n) == UNKNOWN_NODE
    {
      this.serviceType := serviceType;
      serviceStatus, runningList, bootLock, enforcedServiceStatus, noDelay := map[], map[], map[], map[], map[];
      streamStatus, events, cancelled := map[], [], [];
    }

    method InitServiceMaps(nodeId: int)
      modifies `streamStatus
      ensures nodeId in streamStatus && Became(nodeId, old(View(nodeId)))
    {
      if nodeId !in streamStatus {
        streamStatus := streamStatus[nodeId := map[]];
      }
    }

    method SetStreamStatuses(nodeId: int, status: Status)
      modifies `streamStatus
      ensures Became(nodeId, old(View(nodeId)).(streams := AllStreams(status)))
    {
      var nodeStreamStatus: map<Stream, Status> := map[];
      for i := 0 to |SUBSCRIPTION_STREAMS|
        invariant nodeStreamStatus == map stream: Stream | stream in SUBSCRIPTION_STREAMS[..i] :: status
      {
        assert SUBSCRIPTION_STREAMS[..i + 1] == SUBSCRIPTION_STREAMS[..i] + [SUBSCRIPTION_STREAMS[i]];
        nodeStreamStatus := nodeStreamStatus[SUBSCRIPTION_STREAMS[i] := status];
      }
      assert SUBSCRIPTION_STREAMS[..|SUBSCRIPTION_STREAMS|] == SUBSCRIPTION_STREAMS;
      streamStatus := streamStatus[nodeId := nodeStreamStatus];
    }

    method SetServiceStatus(nodeId: int, status: Status)
      modifies `serviceStatus
      ensures Became(nodeId, old(View(nodeId)).(status := Some(status)))
    {
      serviceStatus := serviceStatus[nodeId := status];
    }

    method SetRunning(nodeId: int, cancelFunc: int)
      modifies `runningList
      ensures Became(nodeId, old(View(nodeId)).(running := Some(cancelFunc)))
    {
      runningList := runningList[nodeId := cancelFunc];
    }

    /** Forgets the cancel function and marks the service inactive. */
    method StopService(nodeId: int)
      modifies `runningList, `serviceStatus
      ensures Became(nodeId, old(View(nodeId)).(running := None, status := Some(Inactive)))
    {
      runningList := runningList - {nodeId};
      serviceStatus := serviceStatus[nodeId := Inactive];
    }

    /** Leaves the one-time settings for the next boot. */
    method LeaveOverrides(nodeId: int, enforced: Option<Status>, withoutDelay: bool)
      modifies `noDelay, `enforcedServiceStatus
      ensures Became(nodeId, old(View(nodeId)).(enforced := Some(enforced), noDelay := Some(withoutDelay)))
    {
      noDelay := noDelay[nodeId := withoutDelay];
      enforcedServiceStatus := enforcedServiceStatus[nodeId := enforced];
    }

    method SetBootLock(nodeId: int, held: bool)
      modifies `bootLock
      ensures Became(nodeId, old(View(nodeId)).(bootLock := Some(held)))
    {
      bootLock := bootLock[nodeId := held];
    }

    method SetStream(nodeId: int, stream: Stream, status: Status)
      requires nodeId in streamStatus
      modifies `streamStatus
      ensures Became(nodeId, old(View(nodeId)).(streams := old(View(nodeId)).streams[stream := status]))
    {
      streamStatus := streamStatus[nodeId := streamStatus[nodeId][stream := status]];
    }

    method SendServiceEvent(nodeId: int, notify: bool, previousStatus: Status, status: Status, stream: Option<Stream>)
      modifies `events
      ensures events == old(events) + if notify && previousStatus != status
                                      then [ServiceEvent(nodeId, serviceType, stream, status, previousStatus)] else []
    {
      if previousStatus != status {
        if notify {
          events := events + [ServiceEvent(nodeId, serviceType, stream, status, previousStatus)];
        }
      }
    }

    function StoredStatus(nodeId: int): Status
      reads `serviceStatus
    {
      Lookup(serviceStatus, nodeId).GetOr(Inactive)
    }

    method AddSubscription(nodeId: int, cancelFunc: int, notify: bool)
      modifies this
      ensures Performed(Call(nodeId, Operation.AddSubscription(cancelFunc), notify))
    {
      InitServiceMaps(nodeId);
      var previousStatus := StoredStatus(nodeId);
      SetRunning(nodeId, cancelFunc);
      SetServiceStatus(nodeId, Pending);
      if serviceType == LndService {
        SetStreamStatuses(nodeId, Inactive);
      }
      SendServiceEvent(nodeId, notify, previousStatus, StoredStatus(nodeId), None);
    }

    method RemoveSubscription(nodeId: int, notify: bool)
      modifies this
      ensures Performed(Call(nodeId, Operation.RemoveSubscription, notify))
    {
      InitServiceMaps(nodeId);
      var previousStatus := StoredStatus(nodeId);
      if nodeId in runningList {
        StopService(nodeId);
      }
      if serviceType == LndService {
        SetStreamStatuses(nodeId, Inactive);
      }
      SendServiceEvent(nodeId, notify, previousStatus, StoredStatus(nodeId), None);
    }

    /** Active when the kill was initiated, Pending while booting, Inactive when nothing was running. */
    method Cancel(nodeId: int, enforced: Option<Status>, withoutDelay: bool, notify: bool) returns (result: Status)
      modifies this
      ensures Performed(Call(nodeId, Operation.Cancel(enforced, withoutDelay), notify))
      ensures result == if old(View(nodeId)).running.None? then Inactive
                        else if old(View(nodeId)).bootLock == Some(true) then Pending else Active
    {
      InitServiceMaps(nodeId);
      if nodeId in runningList {
        if nodeId in bootLock && bootLock[nodeId] {
          return Pending;
        }
        CancelRunning(nodeId, enforced, withoutDelay, notify);
        return Active;
      }
      return Inactive;
    }

    method CancelRunning(nodeId: int, enforced: Option<Status>, withoutDelay: bool, notify: bool)
      requires CanCancel(View(nodeId))
      modifies this
      ensures Performed(Call(nodeId, Operation.Cancel(enforced, withoutDelay), notify))
    {
      var previousStatus := StoredStatus(nodeId);
      LeaveOverrides(nodeId, enforced, withoutDelay);
      cancelled := cancelled + [runningList[nodeId]];
      StopService(nodeId);
      SetStreamStatuses(nodeId, Inactive);
      SendServiceEvent(nodeId, notify, previousStatus, StoredStatus(nodeId), None);
    }

    method GetEnforcedServiceStatusCheck(nodeId: int) returns (enforced: Option<Status>)
      modifies this
      ensures Performed(Call(nodeId, Operation.GetEnforcedServiceStatusCheck, false))
      ensures enforced == old(View(nodeId)).enforced.GetOr(None)
    {
      InitServiceMaps(nodeId);
      enforced := None;
      if nodeId in enforcedServiceStatus {
        enforced := enforcedServiceStatus[nodeId];
        enforcedServiceStatus := enforcedServiceStatus - {nodeId};
      }
    }

    method IsNoDelay(nodeId: int) returns (withoutDelay: bool)
      modifies this
      ensures Performed(Call(nodeId, Operation.IsNoDelay, false))
      ensures withoutDelay == old(View(nodeId)).noDelay.GetOr(false)
    {
      InitServiceMaps(nodeId);
      withoutDelay := false;
      if nodeId in noDelay {
        withoutDelay := noDelay[nodeId];
        noDelay := noDelay - {nodeId};
      }
    }

    method Initialising(nodeId: int, notify: bool)
      modifies this
      ensures Performed(Call(nodeId, Operation.Initialising, notify))
    {
      InitServiceMaps(nodeId);
      var previousStatus := StoredStatus(nodeId);
      SetServiceStatus(nodeId, Initializing);
      SendServiceEvent(nodeId, notify, previousStatus, StoredStatus(nodeId), None);
    }

    /** Unlocking a lock that is not held is a fatal error, so the caller that passes its lock holds it. */
    method Booted(nodeId: int, unlock: bool, notify: bool)
      requires unlock ==> View(nodeId).bootLock == Some(true)
      modifies this
      ensures Performed(Call(nodeId, Operation.Booted(unlock), notify))
    {
      if unlock {
        SetBootLock(nodeId, false);
      }
      Activate(nodeId, notify);
    }

    /** What Booted does once the lock is dealt with. */
    method Activate(nodeId: int, notify: bool)
      modifies this
      ensures Performed(Call(nodeId, Operation.Booted(false), notify))
    {
      InitServiceMaps(nodeId);
      var previousStatus := StoredStatus(nodeId);
      SetServiceStatus(nodeId, Active);
      if serviceType == LndService {
        SetStreamStatuses(nodeId, Pending);
      }
      SendServiceEvent(nodeId, notify, previousStatus, StoredStatus(nodeId), None);
    }

    method SetStreamStatus(nodeId: int, stream: Stream, status: Status, notify: bool)
      modifies this
      ensures Performed(Call(nodeId, Operation.SetStreamStatus(stream, status), notify))
    {
      InitServiceMaps(nodeId);
      var previousStatus := View(nodeId).StreamStatus(stream);
      if previousStatus != status {
        ChangeStream(nodeId, stream, previousStatus, status, notify);
      }
    }

    method ChangeStream(nodeId: int, stream: Stream, previousStatus: Status, status: Status, notify: bool)
      requires nodeId in streamStatus && View(nodeId).StreamStatus(stream) == previousStatus != status
      modifies this
      ensures Performed(Call(nodeId, Operation.SetStreamStatus(stream, status), notify))
    {
      SetStream(nodeId, stream, status);
      SendServiceEvent(nodeId, notify, previousStatus, status, Some(stream));
    }

    /** Creates the node's boot lock where there is none; the boot code then tries it. */
    method GetBootLock(nodeId: int)
      modifies this
      ensures Performed(Call(nodeId, Operation.GetBootLock, false))
    {
      InitServiceMaps(nodeId);
      if nodeId !in bootLock {
        SetBootLock(nodeId, false);
      }
    }

    method TryBootLock(nodeId: int) returns (successful: bool)
      requires View(nodeId).bootLock.Some?
      modifies this
      ensures Performed(Call(nodeId, Operation.TryBootLock, false))
      ensures successful <==> old(View(nodeId)).bootLock == Some(false)
    {
      successful := !bootLock[nodeId];
      SetBootLock(nodeId, true);
    }

    /** The unlock that every boot defers to its end: it frees a lock that is held, whoever holds it by then. */
    method UnlockBootLock(nodeId: int)
      modifies this
      ensures Performed(Call(nodeId, Operation.UnlockBootLock, false))
    {
      if nodeId in bootLock && bootLock[nodeId] {
        SetBootLock(nodeId, false);
      }
    }

    method Perform(call: Call)
      requires Allowed(View(call.nodeId), call)
      modifies this
      ensures Performed(call)
    {
      match call.op
      case AddSubscription(cancelFunc) => AddSubscription(call.nodeId, cancelFunc, call.notify);
      case RemoveSubscription => RemoveSubscription(call.nodeId, call.notify);
      case Cancel(enforced, withoutDelay) => var _ := Cancel(call.nodeId, enforced, withoutDelay, call.notify);
      case GetEnforcedServiceStatusCheck => var _ := GetEnforcedServiceStatusCheck(call.nodeId);
      case IsNoDelay => var _ := IsNoDelay(call.nodeId);
      case Initialising => Initialising(call.nodeId, call.notify);
      case Booted(unlock) => Booted(call.nodeId, unlock, call.notify);
      case SetStreamStatus(stream, status) => SetStreamStatus(call.nodeId, stream, status, call.notify);
      case GetBootLock => GetBootLock(call.nodeId);
      case TryBootLock => var _ := TryBootLock(call.nodeId);
      case UnlockBootLock => UnlockBootLock(call.nodeId);
    }

    /** Any run of calls on a new object: the maps, the event log and the cancel calls are what the run makes them. */
    method Run(run: seq<Call>)
      requires events == [] && cancelled == [] && forall n :: View(n) == UNKNOWN_NODE
      requires AllAllowed(serviceType, run)
      modifies this
      ensures forall n :: View(n) == StateAfter(serviceType, run, n)
      ensures events == LogAfter(serviceType, run) && cancelled == CancelledAfter(serviceType, run)
    {
      for i := 0 to |run|
        invariant forall n :: View(n) == StateAfter(serviceType, run[..i], n)
        invariant events == LogAfter(serviceType, run[..i]) && cancelled == CancelledAfter(serviceType, run[..i])
      {
        RunNext(serviceType, run, i);
        Perform(run[i]);
      }
      assert run[..|run|] == run;
    }

    method GetStatus(nodeId: int) returns (status: Status)
      modifies `streamStatus
      ensures forall n :: View(n) == old(View(n))
      ensures status == ServiceAndStreams(serviceType, View(nodeId))
      ensures View(nodeId).status != Some(Active) ==>
                status == if View(nodeId).status.Some? then View(nodeId).status.value else Inactive
      ensures View(nodeId).status == Some(Active) ==>
                status == if serviceType == LndService then Aggregate(View(nodeId).streams.Values) else Active
    {
      InitServiceMaps(nodeId);
      if nodeId !in serviceStatus {
        return Inactive;
      }
      if serviceStatus[nodeId] != Active {
        return serviceStatus[nodeId];
      }
      if serviceType == LndService {
        status := StreamsStatus(streamStatus[nodeId]);
        return;
      }
      return Active;
    }

    method GetActiveNodeIds() returns (nodeIds: seq<int>)
      ensures forall n :: n in nodeIds <==> ServiceAndStreams(serviceType, View(n)) == Active
      ensures forall i, j | 0 <= i < j < |nodeIds| :: nodeIds[i] != nodeIds[j]
    {
      nodeIds := [];
      var remaining := serviceStatus.Keys;
      while remaining != {}
        invariant remaining <= serviceStatus.Keys
        invariant forall n | n in nodeIds :: n in serviceStatus && n !in remaining
        invariant forall n | n in serviceStatus && n !in remaining ::
                    n in nodeIds <==> ServiceAndStreams(serviceType, View(n)) == Active
        invariant forall i, j | 0 <= i < j < |nodeIds| :: nodeIds[i] != nodeIds[j]
      {
        var nodeId := AnyOf(remaining);
        var active := IsActive(nodeId);
        if active {
          nodeIds := nodeIds + [nodeId];
        }
        remaining := remaining - {nodeId};
      }
    }

    method IsActive(nodeId: int) returns (active: bool)
      requires nodeId in serviceStatus
      ensures active <==> ServiceAndStreams(serviceType, View(nodeId)) == Active
    {
      if serviceStatus[nodeId] != Active {
        return false;
      }
      if serviceType == LndService {
        var streams := if nodeId in streamStatus then streamStatus[nodeId] else map[];
        AggregateIsActiveIff(streams.Values);
        active := AllActive(streams);
        return;
      }
      return true;
    }

    method GetChannelBalanceCacheStreamStatus(nodeId: int) returns (status: Status)
      modifies `streamStatus
      ensures forall n :: View(n) == old(View(n))
      ensures status == BalanceCacheStatus(View(nodeId))
      ensures status == if View(nodeId).status == Some(Active) then Aggregate(CacheStatuses(View(nodeId)))
                        else if View(nodeId).status.Some? then View(nodeId).status.value else Inactive
    {
      InitServiceMaps(nodeId);
      if nodeId !in serviceStatus {
        return Inactive;
      }
      if serviceStatus[nodeId] != Active {
        return serviceStatus[nodeId];
      }
      status := CacheStreamsStatus(streamStatus[nodeId], View(nodeId));
    }
  }

  /** What a caller has to make sure of: it unlocks only a lock that is held, and tries only a lock it was given. */
  predicate Allowed(s: NodeState, call: Call) {
    && (call.op == Booted(true) ==> s.bootLock == Some(true))
    && (call.op.TryBootLock? ==> s.bootLock.Some?)
  }

  ghost predicate AllAllowed(t: ServiceType, run: seq<Call>) {
    forall i | 0 <= i < |run| :: Allowed(StateAfter(t, run[..i], run[i].nodeId), run[i])
  }

  /** Reads the streams in an unspecified order. */
  method StreamsStatus(streams: map<Stream, Status>) returns (status: Status)
    ensures status == Aggregate(streams.Values)
  {
    var seen := Seen(None, false);
    var remaining := streams.Keys;
    ghost var values: set<Status> := {};
    while remaining != {}
      invariant remaining <= streams.Keys
      invariant values <= streams.Values && seen.Of(values) && !seen.mixed
      invariant forall stream | stream in streams && stream !in remaining :: streams[stream] in values
    {
      var stream :| stream in remaining;
      SeenNext(seen, values, streams[stream]);
      seen, values := seen.Add(streams[stream]), values + {streams[stream]};
      if seen.mixed {
        MixedIsPending(seen, values, streams.Values);
        return Pending;
      }
      remaining := remaining - {stream};
    }
    assert values == streams.Values;
    SeenIsAggregate(seen, values);
    return seen.Result();
  }

  /** A missing stream entry reads as Inactive here. */
  method CacheStreamsStatus(streams: map<Stream, Status>, ghost s: NodeState) returns (status: Status)
    requires streams == s.streams
    ensures status == Aggregate(CacheStatuses(s))
  {
    var seen := Seen(None, false);
    ghost var values: set<Status> := {};
    for i := 0 to |SUBSCRIPTION_STREAMS|
      invariant values <= CacheStatuses(s) && seen.Of(values) && !seen.mixed
      invariant forall stream | stream in SUBSCRIPTION_STREAMS[..i] && stream.IsChannelBalanceCache() ::
                  s.StreamStatus(stream) in values
    {
      var stream := SUBSCRIPTION_STREAMS[i];
      assert SUBSCRIPTION_STREAMS[..i + 1] == SUBSCRIPTION_STREAMS[..i] + [stream];
      if stream.IsChannelBalanceCache() {
        var value := if stream in streams then streams[stream] else Inactive;
        SeenNext(seen, values, value);
        seen, values := seen.Add(value), values + {value};
        if seen.mixed {
          MixedIsPending(seen, values, CacheStatuses(s));
          return Pending;
        }
      }
    }
    assert SUBSCRIPTION_STREAMS[..|SUBSCRIPTION_STREAMS|] == SUBSCRIPTION_STREAMS;
    EveryStreamListed();
    assert values == CacheStatuses(s);
    SeenIsAggregate(seen, values);
    return seen.Result();
  }

  method AllActive(streams: map<Stream, Status>) returns (allActive: bool)
    ensures allActive <==> streams.Values <= {Active}
  {
    var remaining := streams.Keys;
    while remaining != {}
      invariant remaining <= streams.Keys
      invariant forall stream | stream in streams && stream !in remaining :: streams[stream] == Active
    {
      var stream :| stream in remaining;
      if streams[stream] != Active {
        assert streams[stream] in streams.Values;
        return false;
      }
      remaining := remaining - {stream};
    }
    return true;
  }
}
