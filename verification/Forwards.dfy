/** The forwarding-history importer of pkg/lnd/forwards.go.

    Each page is requested from the whole second of the newest stored forward, so a page always overlaps
    what is stored. The node's forwarding log is a sequence ordered by nanosecond timestamp, fixed during one
    tick; the forward table is a map keyed by timestamp, shared by all nodes, into which a taken key is never
    written again. */
module Forwards {
  import opened Options
  import opened Statuses

  const NANOSECONDS := 1_000_000_000
  const STREAM_LND_MAX_FORWARDS := 50000

  datatype Forward = Forward(
    timestampNs: nat, feeMsat: nat, amountInMsat: nat, amountOutMsat: nat,
    incomingChannelId: Option<int>, outgoingChannelId: Option<int>)

  datatype Row = Row(nodeId: int, forward: Forward)

  type Table = map<nat, Row>

  function Second(f: Forward): nat {
    f.timestampNs / NANOSECONDS
  }

  ghost predicate Ordered(source: seq<Forward>) {
    forall i, j | 0 <= i < j < |source| :: source[i].timestampNs < source[j].timestampNs
  }

  /** The page size in use: the option is taken only when it is out of the bounds its comment gives. */
  function EffectiveMaxEvents(option: Option<int>): int {
    if option.Some? && (option.value > STREAM_LND_MAX_FORWARDS || option.value <= 0) then option.value
    else STREAM_LND_MAX_FORWARDS
  }

  /** The page size stays within the documented bounds exactly when the option is absent or was already
      within them, and then it is the default. */
  lemma OptionIsIgnoredWithinBounds(option: Option<int>)
    ensures 0 < EffectiveMaxEvents(option) <= 50000 <==> option.None? || 0 < option.value <= 50000
    ensures 0 < EffectiveMaxEvents(option) <= 50000 ==> EffectiveMaxEvents(option) == 50000
    ensures !(0 < EffectiveMaxEvents(option) <= 50000) ==> option == Some(EffectiveMaxEvents(option))
  {
  }

  // ------------------------------------------------------------------ the node's answer

  /** The number of forwards before the given second. */
  function FirstFrom(source: seq<Forward>, start: nat): (j: nat)
    ensures j <= |source|
  {
    if source == [] || Second(source[0]) >= start then 0
    else 1 + FirstFrom(source[1..], start)
  }

  lemma {:induction false} FirstFromSplits(source: seq<Forward>, start: nat)
    ensures forall i | 0 <= i < FirstFrom(source, start) :: Second(source[i]) < start
    ensures FirstFrom(source, start) < |source| ==> Second(source[FirstFrom(source, start)]) >= start
  {
    if source != [] && Second(source[0]) < start {
      FirstFromSplits(source[1..], start);
      forall i | 0 <= i < FirstFrom(source, start)
        ensures Second(source[i]) < start
      {
        if i > 0 { assert source[i] == source[1..][i - 1]; }
      }
    }
  }

  function Min(a: nat, b: nat): nat {
    if a < b then a else b
  }

  function Max(a: nat, b: nat): nat {
    if a < b then b else a
  }

  /** The first maxEvents forwards from the given second on. */
  function ForwardingHistory(source: seq<Forward>, start: nat, maxEvents: nat): seq<Forward> {
    var j := FirstFrom(source, start);
    source[j..Min(j + maxEvents, |source|)]
  }

  lemma SecondsOrdered(source: seq<Forward>, i: nat, j: nat)
    requires Ordered(source) && i <= j < |source|
    ensures Second(source[i]) <= Second(source[j])
  {
  }

  // ------------------------------------------------------------------ the table

  predicate Owns(table: Table, nodeId: int, ns: nat) {
    ns in table && table[ns].nodeId == nodeId
  }

  /** The newest timestamp of the node's rows, or 0 without rows. */
  ghost predicate IsLastTime(table: Table, nodeId: int, last: nat) {
    && (Owns(table, nodeId, last) || (last == 0 && forall ns: nat :: !Owns(table, nodeId, ns)))
    && forall ns: nat | Owns(table, nodeId, ns) :: ns <= last
  }

  function Insert(table: Table, nodeId: int, f: Forward): Table {
    if f.timestampNs in table then table else table[f.timestampNs := Row(nodeId, f)]
  }

  function InsertAll(table: Table, nodeId: int, page: seq<Forward>): Table {
    if page == [] then table
    else Insert(InsertAll(table, nodeId, page[..|page| - 1]), nodeId, page[|page| - 1])
  }

  /** The first k forwards have a row, and the node's own rows are exactly copies of some of them. */
  ghost predicate Covered(table: Table, nodeId: int, source: seq<Forward>, k: nat) {
    && k <= |source|
    && (forall i | 0 <= i < k :: source[i].timestampNs in table)
    && (forall ns: nat {:trigger Owns(table, nodeId, ns)} | Owns(table, nodeId, ns) ::
          exists i :: 0 <= i < k && source[i] == table[ns].forward && source[i].timestampNs == ns)
  }

  /** No other node has a row with the timestamp of one of this node's forwards. */
  ghost predicate NoClash(table: Table, nodeId: int, source: seq<Forward>) {
    forall i | 0 <= i < |source| && source[i].timestampNs in table :: table[source[i].timestampNs].nodeId == nodeId
  }

  /** The table holds the node's whole log, each forward once, and nothing else for the node. */
  ghost predicate Complete(table: Table, nodeId: int, source: seq<Forward>) {
    && (forall i | 0 <= i < |source| :: source[i].timestampNs in table && table[source[i].timestampNs] == Row(nodeId, source[i]))
    && (forall ns: nat | Owns(table, nodeId, ns) :: exists i :: 0 <= i < |source| && source[i].timestampNs == ns)
  }

  /** A fully covered log is complete exactly when no other node took one of its timestamps. */
  lemma CoveredIsCompleteIff(table: Table, nodeId: int, source: seq<Forward>)
    requires Ordered(source) && Covered(table, nodeId, source, |source|)
    ensures Complete(table, nodeId, source) <==> NoClash(table, nodeId, source)
  {
    if NoClash(table, nodeId, source) {
      forall i | 0 <= i < |source|
        ensures table[source[i].timestampNs] == Row(nodeId, source[i])
      {
        var ns := source[i].timestampNs;
        assert Owns(table, nodeId, ns);
        var j :| 0 <= j < |source| && source[j] == table[ns].forward && source[j].timestampNs == ns;
        assert i == j;
      }
      forall ns: nat | Owns(table, nodeId, ns)
        ensures exists i :: 0 <= i < |source| && source[i].timestampNs == ns
      {
        var j :| 0 <= j < |source| && source[j] == table[ns].forward && source[j].timestampNs == ns;
      }
    }
  }

  /** A table without rows of the node is where an import starts. */
  lemma NothingCovered(table: Table, nodeId: int, source: seq<Forward>)
    requires forall ns: nat :: !Owns(table, nodeId, ns)
    ensures Covered(table, nodeId, source, 0)
  {
  }

  /** Forwards appended to the log later leave the covered prefix as it is. */
  lemma CoveredUnderGrowth(table: Table, nodeId: int, source: seq<Forward>, more: seq<Forward>, k: nat)
    requires Covered(table, nodeId, source, k)
    ensures Covered(table, nodeId, source + more, k)
  {
    forall ns: nat | Owns(table, nodeId, ns)
      ensures exists i :: 0 <= i < k && (source + more)[i] == table[ns].forward && (source + more)[i].timestampNs == ns
    {
      var i :| 0 <= i < k && source[i] == table[ns].forward && source[i].timestampNs == ns;
      assert (source + more)[i] == source[i];
    }
  }

  lemma {:induction false} InsertCovers(table: Table, nodeId: int, source: seq<Forward>, k: nat, j: nat)
    requires Covered(table, nodeId, source, k) && j <= k && j < |source|
    ensures Covered(Insert(table, nodeId, source[j]), nodeId, source, Max(k, j + 1))
  {
    var after := Insert(table, nodeId, source[j]);
    forall ns: nat | Owns(after, nodeId, ns)
      ensures exists i :: 0 <= i < Max(k, j + 1) && source[i] == after[ns].forward && source[i].timestampNs == ns
    {
      if ns in table {
        assert Owns(table, nodeId, ns);
        var i :| 0 <= i < k && source[i] == table[ns].forward && source[i].timestampNs == ns;
      } else {
        assert source[j].timestampNs == ns;
      }
    }
  }

  /** Forwards j to j + n - 1 of the log inserted one after the other. */
  function InsertRange(table: Table, nodeId: int, source: seq<Forward>, j: nat, n: nat): Table
    requires j + n <= |source|
  {
    if n == 0 then table else Insert(InsertRange(table, nodeId, source, j, n - 1), nodeId, source[j + n - 1])
  }

  lemma {:induction false} RangeIsPage(table: Table, nodeId: int, source: seq<Forward>, j: nat, n: nat)
    requires j + n <= |source|
    ensures InsertAll(table, nodeId, source[j..j + n]) == InsertRange(table, nodeId, source, j, n)
  {
    if n > 0 {
      var page := source[j..j + n];
      RangeIsPage(table, nodeId, source, j, n - 1);
      assert page[..n - 1] == source[j..j + n - 1];
      assert page[n - 1] == source[j + n - 1];
    }
  }

  lemma {:induction false} RangeCovers(table: Table, nodeId: int, source: seq<Forward>, k: nat, j: nat, n: nat)
    requires Covered(table, nodeId, source, k) && j <= k && j + n <= |source|
    ensures Covered(InsertRange(table, nodeId, source, j, n), nodeId, source, Max(k, j + n))
  {
    if n > 0 {
      var m := j + n - 1;
      RangeCovers(table, nodeId, source, k, j, n - 1);
      InsertCovers(InsertRange(table, nodeId, source, j, n - 1), nodeId, source, Max(k, m), m);
    }
  }

  /** Restarting at or before the covered prefix leaves no gap, whatever of the page was already stored. */
  lemma PageCovers(table: Table, nodeId: int, source: seq<Forward>, k: nat, j: nat, n: nat)
    requires Covered(table, nodeId, source, k) && j <= k && j + n <= |source|
    ensures Covered(InsertAll(table, nodeId, source[j..j + n]), nodeId, source, Max(k, j + n))
  {
    RangeIsPage(table, nodeId, source, j, n);
    RangeCovers(table, nodeId, source, k, j, n);
  }

  lemma {:induction false} InsertAllEffect(table: Table, nodeId: int, page: seq<Forward>)
    ensures forall ns | ns in table :: ns in InsertAll(table, nodeId, page) && InsertAll(table, nodeId, page)[ns] == table[ns]
    ensures forall ns | ns in InsertAll(table, nodeId, page) && ns !in table ::
              InsertAll(table, nodeId, page)[ns].nodeId == nodeId && exists i :: 0 <= i < |page| && page[i].timestampNs == ns
  {
    if page != [] {
      var n := |page| - 1;
      InsertAllEffect(table, nodeId, page[..n]);
      forall ns | ns in InsertAll(table, nodeId, page) && ns !in table
        ensures exists i :: 0 <= i < |page| && page[i].timestampNs == ns
      {
        if ns in InsertAll(table, nodeId, page[..n]) {
          var i :| 0 <= i < n && page[..n][i].timestampNs == ns;
          assert page[i].timestampNs == ns;
        } else {
          assert page[n].timestampNs == ns;
        }
      }
    }
  }

  // ------------------------------------------------------------------ how far a run gets

  /** Where the next page starts when the first k forwards are stored. */
  ghost function Restart(source: seq<Forward>, k: nat): nat
    requires k <= |source|
  {
    if k == 0 then 0 else FirstFrom(source, Second(source[k - 1]))
  }

  ghost predicate IsShort(source: seq<Forward>, k: nat, maxEvents: nat)
    requires k <= |source|
  {
    |source| - Restart(source, k) < maxEvents
  }

  /** How many forwards are stored after one page. */
  ghost function AfterPage(source: seq<Forward>, k: nat, maxEvents: nat): (next: nat)
    requires k <= |source|
    ensures k <= next <= |source|
  {
    Max(k, Min(Restart(source, k) + maxEvents, |source|))
  }

  /** How many are stored after n pages. */
  ghost function AfterPages(source: seq<Forward>, k: nat, maxEvents: nat, n: nat): (next: nat)
    requires k <= |source|
    ensures k <= next <= |source|
  {
    if n == 0 then k else AfterPage(source, AfterPages(source, k, maxEvents, n - 1), maxEvents)
  }

  /** The page after n full ones is short. */
  ghost predicate ShortAfter(source: seq<Forward>, k: nat, maxEvents: nat, n: nat)
    requires k <= |source|
  {
    IsShort(source, AfterPages(source, k, maxEvents, n), maxEvents)
  }

  /** None of the first n pages is short. */
  ghost predicate AllFull(source: seq<Forward>, k: nat, maxEvents: nat, n: nat)
    requires k <= |source|
  {
    forall m: nat | m < n :: !ShortAfter(source, k, maxEvents, m)
  }

  /** Some second that reaches past what is stored holds a whole page of forwards, or the second of the
      newest stored forward does. A property of the log and the page size alone. */
  ghost predicate Crowded(source: seq<Forward>, k: nat, maxEvents: nat) {
    exists a: nat :: CrowdedAt(source, k, maxEvents, a)
  }

  ghost predicate CrowdedAt(source: seq<Forward>, k: nat, maxEvents: nat, a: nat) {
    && k <= a + maxEvents <= |source|
    && maxEvents > 0
    && source[a].timestampNs / 1_000_000_000 == source[a + maxEvents - 1].timestampNs / 1_000_000_000
  }

  lemma RestartIsFirstOfItsSecond(source: seq<Forward>, k: nat)
    requires Ordered(source) && 0 < k <= |source|
    ensures var j := Restart(source, k);
            j < k && forall i | j <= i < k :: Second(source[i]) == Second(source[k - 1])
  {
    var j := Restart(source, k);
    FirstFromSplits(source, Second(source[k - 1]));
    forall i | j <= i < k
      ensures Second(source[i]) == Second(source[k - 1])
    {
      SecondsOrdered(source, j, i);
      SecondsOrdered(source, i, k - 1);
    }
  }

  lemma CrowdStartsAfterRestart(source: seq<Forward>, k: nat, maxEvents: nat, a: nat)
    requires Ordered(source) && k <= |source| && CrowdedAt(source, k, maxEvents, a)
    ensures a >= Restart(source, k)
  {
    if k > 0 {
      var last := a + maxEvents - 1;
      FirstFromSplits(source, Second(source[k - 1]));
      SecondsOrdered(source, k - 1, last);
    }
  }

  /** From a crowded position no page is short and the next position is crowded too. */
  lemma CrowdedStays(source: seq<Forward>, k: nat, maxEvents: nat)
    requires Ordered(source) && k <= |source| && Crowded(source, k, maxEvents)
    ensures !IsShort(source, k, maxEvents) && Crowded(source, AfterPage(source, k, maxEvents), maxEvents)
  {
    var a: nat :| CrowdedAt(source, k, maxEvents, a);
    var j := Restart(source, k);
    CrowdStartsAfterRestart(source, k, maxEvents, a);
    assert CrowdedAt(source, AfterPage(source, k, maxEvents), maxEvents, a);
  }

  /** Elsewhere a full page always stores something new. */
  lemma FullPageProgresses(source: seq<Forward>, k: nat, maxEvents: nat)
    requires Ordered(source) && k <= |source| && maxEvents > 0
    requires !Crowded(source, k, maxEvents) && !IsShort(source, k, maxEvents)
    ensures AfterPage(source, k, maxEvents) > k
  {
    var j := Restart(source, k);
    if j + maxEvents <= k {
      RestartIsFirstOfItsSecond(source, k);
      assert CrowdedAt(source, k, maxEvents, k - maxEvents);
    }
  }

  lemma UncrowdedStays(source: seq<Forward>, k: nat, covered: nat, maxEvents: nat)
    requires k <= covered && !Crowded(source, k, maxEvents)
    ensures !Crowded(source, covered, maxEvents)
  {
    forall a: nat
      ensures !CrowdedAt(source, covered, maxEvents, a)
    {
      assert !CrowdedAt(source, k, maxEvents, a);
    }
  }

  lemma {:induction false} CrowdedAfterPages(source: seq<Forward>, k: nat, maxEvents: nat, n: nat)
    requires Ordered(source) && k <= |source| && Crowded(source, k, maxEvents)
    ensures Crowded(source, AfterPages(source, k, maxEvents, n), maxEvents)
  {
    if n > 0 {
      CrowdedAfterPages(source, k, maxEvents, n - 1);
      CrowdedStays(source, AfterPages(source, k, maxEvents, n - 1), maxEvents);
    }
  }

  /** While no page is short, n pages store at least n forwards. */
  lemma {:induction false} EveryPageCounts(source: seq<Forward>, k: nat, maxEvents: nat, n: nat)
    requires Ordered(source) && k <= |source| && maxEvents > 0 && !Crowded(source, k, maxEvents)
    requires AllFull(source, k, maxEvents, n)
    ensures AfterPages(source, k, maxEvents, n) >= k + n
  {
    if n > 0 {
      var m := n - 1;
      EveryPageCounts(source, k, maxEvents, m);
      assert !ShortAfter(source, k, maxEvents, m);
      UncrowdedStays(source, k, AfterPages(source, k, maxEvents, m), maxEvents);
      FullPageProgresses(source, AfterPages(source, k, maxEvents, m), maxEvents);
    }
  }

  /** The import reaches a short page exactly when the log is not crowded ahead of what is stored, and then
      within as many pages as forwards are missing, plus one. */
  lemma ImportEndsIff(source: seq<Forward>, k: nat, maxEvents: nat)
    requires Ordered(source) && k <= |source| && maxEvents > 0
    ensures !Crowded(source, k, maxEvents) <==> exists n: nat :: ShortAfter(source, k, maxEvents, n)
    ensures !Crowded(source, k, maxEvents) ==> exists n: nat :: n <= |source| - k && ShortAfter(source, k, maxEvents, n)
  {
    if Crowded(source, k, maxEvents) {
      forall n: nat
        ensures !ShortAfter(source, k, maxEvents, n)
      {
        CrowdedAfterPages(source, k, maxEvents, n);
        CrowdedStays(source, AfterPages(source, k, maxEvents, n), maxEvents);
      }
    } else if AllFull(source, k, maxEvents, |source| - k + 1) {
      EveryPageCounts(source, k, maxEvents, |source| - k + 1);
    }
  }

  // ------------------------------------------------------------------ the importer

  /** What the database and the node do for one page. */
  datatype PageOutcome = LastTimeFailed | RequestFailed | Cancelled | Served(stored: bool)

  /** How the page loop ends; Interrupted when the process stops between two pages. */
  datatype Exit = CaughtUp | Retry | Stopped | Interrupted

  /** How a turn of the page loop ends it, unless it goes on. */
  predicate EndsWith(outcome: PageOutcome, exit: Exit) {
    match outcome
    case LastTimeFailed => exit.Retry?
    case RequestFailed => exit.Retry?
    case Cancelled => exit.Stopped?
    case Served(_) => exit.CaughtUp? || exit.Interrupted?
  }

  /** The turns made are all served but for the last one if it ends the loop, which it then does so. */
  ghost predicate Attempted(outcomes: seq<PageOutcome>, used: nat, exit: Exit) {
    && used <= |outcomes| && (exit.Interrupted? || (used > 0 && EndsWith(outcomes[used - 1], exit)))
    && forall i | 0 <= i < if exit.Interrupted? then used else used - 1 :: outcomes[i].Served?
  }

  lemma AttemptedNext(outcomes: seq<PageOutcome>, used: nat, exit: Exit)
    requires used < |outcomes| && Attempted(outcomes, used, Interrupted) && EndsWith(outcomes[used], exit)
    ensures Attempted(outcomes, used + 1, exit) && (exit.CaughtUp? ==> outcomes[used].Served?)
  {
  }

  class ForwardImporter {
    const nodeId: int
    const maxEvents: nat
    var table: Table
    var bootStrapping: bool
    var serviceStatus: Status
    /** The forward events sent, oldest first. */
    var events: seq<Forward>

    constructor (nodeId: int, maxEvents: nat, table: Table)
      ensures this.nodeId == nodeId && this.maxEvents == maxEvents && this.table == table
      ensures bootStrapping && serviceStatus == Inactive && events == []
    {
      this.nodeId, this.maxEvents, this.table := nodeId, maxEvents, table;
      bootStrapping, serviceStatus, events := true, Inactive, [];
    }

    method FetchLastForwardTime() returns (lastNs: nat)
      ensures IsLastTime(table, nodeId, lastNs)
    {
      lastNs := 0;
      ghost var found := false;
      var remaining := table.Keys;
      while remaining != {}
        invariant remaining <= table.Keys
        invariant if found then Owns(table, nodeId, lastNs) else lastNs == 0
        invariant forall ns: nat | Owns(table, nodeId, ns) && ns !in remaining :: found && ns <= lastNs
      {
        var ns :| ns in remaining;
        if table[ns].nodeId == nodeId {
          lastNs := Max(lastNs, ns);
          found := true;
        }
        remaining := remaining - {ns};
      }
    }

    /** Inserts a page in one transaction, skipping taken timestamps; events are sent for the whole page. */
    method StoreForwardingHistory(page: seq<Forward>, stored: bool)
      modifies `table, `events
      ensures table == if stored then InsertAll(old(table), nodeId, page) else old(table)
      ensures events == if stored && !bootStrapping then old(events) + page else old(events)
    {
      var pending := table;
      for i := 0 to |page|
        invariant pending == InsertAll(old(table), nodeId, page[..i])
      {
        assert page[..i + 1][..i] == page[..i];
        pending := if page[i].timestampNs in pending then pending else pending[page[i].timestampNs := Row(nodeId, page[i])];
      }
      assert page[..|page|] == page;
      if stored {
        table := pending;
        if !bootStrapping {
          events := events + page;
        }
      }
    }

    /** The page from the second of the newest stored forward on: inserted and, after the bootstrap, announced as a whole
        when storing it succeeds, and short whether or not it does when the node had no more than that. */
    ghost predicate PageTaken(source: seq<Forward>, before: Table, after: Table, sentBefore: seq<Forward>,
                              sent: seq<Forward>, stored: bool, short: bool)
      reads this
    {
      forall lastNs: nat | IsLastTime(before, nodeId, lastNs) ::
        var page := ForwardingHistory(source, lastNs / 1_000_000_000, maxEvents);
        && after == (if stored then InsertAll(before, nodeId, page) else before)
        && sent == (if stored && !bootStrapping then sentBefore + page else sentBefore)
        && (short <==> |page| < maxEvents)
    }

    /** Requests and stores one page; true when the page was short. */
    method ImportPage(source: seq<Forward>, stored: bool, ghost covered: nat) returns (short: bool, ghost next: nat)
      requires Ordered(source) && maxEvents > 0
      requires Covered(table, nodeId, source, covered)
      modifies `table, `events, `serviceStatus
      ensures covered <= next && Covered(table, nodeId, source, next)
      ensures short && stored ==> next == |source|
      ensures Extends(old(table), table, nodeId)
      ensures stored && NoClash(old(table), nodeId, source) ==>
                && NoClash(table, nodeId, source)
                && next == AfterPage(source, covered, maxEvents)
                && (short <==> IsShort(source, covered, maxEvents))
      ensures serviceStatus == if bootStrapping then Initializing else Active
      ensures Told(bootStrapping, old(table), table, old(events), events)
      ensures PageTaken(source, old(table), table, old(events), events, stored, short)
      ensures !stored ==> table == old(table) && events == old(events)
    {
      var lastNs := FetchLastForwardTime();
      var lastTimestamp := lastNs / NANOSECONDS;
      var page := ForwardingHistory(source, lastTimestamp, maxEvents);
      serviceStatus := if bootStrapping then Initializing else Active;
      StoreForwardingHistory(page, stored);
      short := |page| < maxEvents;
      PageLength(source, lastTimestamp, maxEvents);
      next := ServedPage(old(table), table, nodeId, source, covered, lastNs,
                         FirstFrom(source, lastTimestamp), page, maxEvents, stored);
      PageAnnounced(old(table), nodeId, old(events), page);
      OneLastTime(old(table), nodeId, lastNs);
    }

    /** The page loop of one tick. k is the covered prefix before, next the one after; used counts the
        pages attempted. */
    method ImportPages(source: seq<Forward>, outcomes: seq<PageOutcome>, ghost k: nat)
      returns (exit: Exit, used: nat, ghost next: nat)
      requires Ordered(source) && maxEvents > 0
      requires Covered(table, nodeId, source, k)
      modifies this
      ensures Standing(old(table), table, nodeId, source, outcomes, maxEvents, exit, used, k, next)
      ensures exit.Interrupted? ==> used == |outcomes|
      ensures bootStrapping == (old(bootStrapping) && !exit.CaughtUp?)
      ensures exit.Retry? ==> serviceStatus == Pending
      ensures exit.CaughtUp? ==> serviceStatus == if old(bootStrapping) then Initializing else Active
      ensures Told(old(bootStrapping), old(table), table, old(events), events)
    {
      next, used, exit := k, 0, Interrupted;
      while used < |outcomes| && exit.Interrupted?
        invariant Standing(old(table), table, nodeId, source, outcomes, maxEvents, exit, used, k, next)
        invariant Told(old(bootStrapping), old(table), table, old(events), events)
        invariant bootStrapping == (old(bootStrapping) && !exit.CaughtUp?)
        invariant exit.Retry? ==> serviceStatus == Pending
        invariant exit.CaughtUp? ==> serviceStatus == if old(bootStrapping) then Initializing else Active
      {
        ghost var covered, earlier, sent := next, table, events;
        exit, next := TakeOutcome(source, outcomes[used], covered);
        ToldFurther(old(bootStrapping), old(table), earlier, table, old(events), sent, events);
        StandingNext(old(table), earlier, table, nodeId, source, outcomes, maxEvents, exit, used, k, covered, next);
        used := used + 1;
      }
    }

    /** One turn of the page loop, and how it ends the loop unless it goes on. */
    method TakeOutcome(source: seq<Forward>, outcome: PageOutcome, ghost covered: nat) returns (exit: Exit, ghost next: nat)
      requires Ordered(source) && maxEvents > 0
      requires Covered(table, nodeId, source, covered)
      modifies this
      ensures covered <= next && Covered(table, nodeId, source, next)
      ensures Extends(old(table), table, nodeId) && Told(old(bootStrapping), old(table), table, old(events), events)
      ensures exit.CaughtUp? ==> outcome.Served? && (outcome.stored ==> next == |source|)
      ensures outcome == Served(true) && NoClash(old(table), nodeId, source) ==>
                && NoClash(table, nodeId, source)
                && next == AfterPage(source, covered, maxEvents)
                && exit == if IsShort(source, covered, maxEvents) then CaughtUp else Interrupted
      ensures bootStrapping == (old(bootStrapping) && !exit.CaughtUp?)
      ensures EndsWith(outcome, exit)
      ensures if outcome.Served? then serviceStatus == if old(bootStrapping) then Initializing else Active
              else
                && table == old(table) && events == old(events)
                && serviceStatus == if exit.Retry? then Pending else old(serviceStatus)
      ensures outcome.Served? ==> outcome.stored || (table == old(table) && events == old(events))
    {
      exit, next := Interrupted, covered;
      if outcome.LastTimeFailed? || outcome.RequestFailed? {
        serviceStatus := Pending;
        exit := Retry;
        return;
      }
      if outcome.Cancelled? {
        exit := Stopped;
        return;
      }
      var short;
      short, next := ImportPage(source, outcome.stored, covered);
      if short {
        bootStrapping := false;
        exit := CaughtUp;
      }
    }

    /** One tick. Whatever fails, the stored forwards stay a gapless prefix of the log. Without failures and
        clashes the tick ends with the whole log stored exactly once when the log is not crowded, given time
        for as many pages as forwards are missing plus one, and it never ends when the log is crowded. */
    method Tick(source: seq<Forward>, outcomes: seq<PageOutcome>, ghost k: nat)
      returns (exit: Exit, ghost next: nat)
      requires Ordered(source) && maxEvents > 0
      requires Covered(table, nodeId, source, k)
      modifies this
      ensures k <= next && Covered(table, nodeId, source, next)
      ensures Extends(old(table), table, nodeId)
      ensures Smooth(old(table), nodeId, source, outcomes) ==>
                && (exit.CaughtUp? ==> Complete(table, nodeId, source))
                && (Crowded(source, k, maxEvents) ==> exit.Interrupted?)
                && (!Crowded(source, k, maxEvents) && |outcomes| > |source| - k ==> exit.CaughtUp?)
      ensures exit.CaughtUp? && AllStored(outcomes) ==> next == |source|
    {
      var used;
      exit, used, next := ImportPages(source, outcomes, k);
      if Smooth(old(table), nodeId, source, outcomes) {
        RunEndsInTime(exit, source, k, maxEvents, used, next);
        if exit.CaughtUp? { CoveredIsCompleteIff(table, nodeId, source); }
      }
    }

    /** Any run of ticks over a growing log, whatever fails: the stored forwards stay a gapless prefix of it, and
        a last tick that ends caught up, having stored its pages, leaves the whole log stored exactly once
        when no other node has taken a timestamp of it, and only then. */
    method Run(source: seq<Forward>, turns: seq<Turn>, ghost k: nat) returns (caughtUp: bool, ghost next: nat)
      requires Ordered(Grown(source, turns)) && maxEvents > 0
      requires Covered(table, nodeId, source, k)
      modifies this
      ensures k <= next && Covered(table, nodeId, Grown(source, turns), next)
      ensures Extends(old(table), table, nodeId)
      ensures caughtUp ==> turns != []
      ensures caughtUp && AllStored(turns[|turns| - 1].outcomes) ==>
                (Complete(table, nodeId, Grown(source, turns)) <==> NoClash(table, nodeId, Grown(source, turns)))
    {
      caughtUp, next := false, k;
      var now := source;
      for i := 0 to |turns|
        invariant now == Grown(source, turns[..i])
        invariant k <= next && Covered(table, nodeId, now, next)
        invariant Extends(old(table), table, nodeId)
        invariant caughtUp ==> i > 0 && (AllStored(turns[i - 1].outcomes) ==> next == |now|)
      {
        CoveredUnderGrowth(table, nodeId, now, turns[i].more, next);
        assert turns[..i + 1][..i] == turns[..i];
        now := now + turns[i].more;
        GrownIsLonger(source, turns, i + 1);
        OrderedPrefix(now, Grown(source, turns));
        ghost var before := table;
        var exit;
        exit, next := Tick(now, turns[i].outcomes, next);
        ExtendsFurther(old(table), before, table, nodeId);
        caughtUp := exit.CaughtUp?;
      }
      assert turns[..|turns|] == turns;
      if caughtUp && next == |now| {
        CoveredIsCompleteIff(table, nodeId, now);
      }
    }
  }

  /** What the node adds to its log before a tick, and what happens in the tick. */
  datatype Turn = Turn(more: seq<Forward>, outcomes: seq<PageOutcome>)

  /** The log after the additions of these turns. */
  function Grown(source: seq<Forward>, turns: seq<Turn>): seq<Forward> {
    if turns == [] then source else Grown(source, turns[..|turns| - 1]) + turns[|turns| - 1].more
  }

  ghost predicate AllStored(outcomes: seq<PageOutcome>) {
    forall i | 0 <= i < |outcomes| && outcomes[i].Served? :: outcomes[i].stored
  }

  lemma {:induction false} GrownIsLonger(source: seq<Forward>, turns: seq<Turn>, i: nat)
    requires i <= |turns|
    ensures Grown(source, turns[..i]) <= Grown(source, turns)
    decreases |turns|
  {
    var n := |turns| - 1;
    if i <= n {
      GrownIsLonger(source, turns[..n], i);
      assert turns[..n][..i] == turns[..i];
    } else {
      assert turns[..i] == turns;
    }
  }

  lemma OrderedPrefix(source: seq<Forward>, longer: seq<Forward>)
    requires Ordered(longer) && source <= longer
    ensures Ordered(source)
  {
  }

  /** No rows are lost or changed, and the rows added are the node's. */
  ghost predicate Extends(before: Table, after: Table, nodeId: int) {
    && (forall ns | ns in before :: ns in after && after[ns] == before[ns])
    && (forall ns | ns in after && ns !in before :: after[ns].nodeId == nodeId)
  }

  lemma ExtendsFurther(a: Table, b: Table, c: Table, nodeId: int)
    requires Extends(a, b, nodeId) && Extends(b, c, nodeId)
    ensures Extends(a, c, nodeId)
  {
  }

  /** Nothing fails, and no other node has taken a timestamp of the log. */
  ghost predicate Smooth(table: Table, nodeId: int, source: seq<Forward>, outcomes: seq<PageOutcome>) {
    && NoClash(table, nodeId, source)
    && forall i | 0 <= i < |outcomes| :: outcomes[i] == Served(true)
  }

  /** A failure-free run stands after `used` pages, all of them full, or all but the last when it has caught up. */
  ghost predicate RunEnds(exit: Exit, source: seq<Forward>, k: nat, maxEvents: nat, used: nat, next: nat)
    requires k <= |source|
  {
    && next == AfterPages(source, k, maxEvents, used)
    && (exit.Interrupted? || (exit.CaughtUp? && used > 0 && ShortAfter(source, k, maxEvents, used - 1)))
    && AllFull(source, k, maxEvents, if exit.Interrupted? then used else used - 1)
  }

  /** Where the page loop stands: the rows are a gapless prefix, all of the log when a stored page was short, and without
      failures and clashes as many as the log and the page size say. */
  ghost predicate Standing(start: Table, now: Table, nodeId: int, source: seq<Forward>, outcomes: seq<PageOutcome>,
                           maxEvents: nat, exit: Exit, used: nat, k: nat, next: nat) {
    && Attempted(outcomes, used, exit) && k <= next && Covered(now, nodeId, source, next) && Extends(start, now, nodeId)
    && (exit.CaughtUp? ==> outcomes[used - 1].Served? && (outcomes[used - 1].stored ==> next == |source|))
    && (Smooth(start, nodeId, source, outcomes) ==>
          NoClash(now, nodeId, source) && RunEnds(exit, source, k, maxEvents, used, next))
  }

  lemma StandingNext(start: Table, now: Table, later: Table, nodeId: int, source: seq<Forward>,
                     outcomes: seq<PageOutcome>, maxEvents: nat, exit: Exit, used: nat, k: nat, covered: nat, next: nat)
    requires used < |outcomes|
    requires Standing(start, now, nodeId, source, outcomes, maxEvents, Interrupted, used, k, covered)
    requires covered <= next && Covered(later, nodeId, source, next) && Extends(now, later, nodeId)
    requires EndsWith(outcomes[used], exit)
    requires exit.CaughtUp? ==> outcomes[used].Served? && (outcomes[used].stored ==> next == |source|)
    requires outcomes[used] == Served(true) && NoClash(now, nodeId, source) ==>
               && NoClash(later, nodeId, source)
               && next == AfterPage(source, covered, maxEvents)
               && exit == if IsShort(source, covered, maxEvents) then CaughtUp else Interrupted
    ensures Standing(start, later, nodeId, source, outcomes, maxEvents, exit, used + 1, k, next)
  {
    AttemptedNext(outcomes, used, exit);
    ExtendsFurther(start, now, later, nodeId);
    if Smooth(start, nodeId, source, outcomes) {
      PageOfRun(source, k, covered, maxEvents, used + 1, next);
    }
  }

  lemma PageOfRun(source: seq<Forward>, k: nat, covered: nat, maxEvents: nat, used: nat, next: nat)
    requires k <= |source| && used > 0 && RunEnds(Interrupted, source, k, maxEvents, used - 1, covered)
    requires next == AfterPage(source, covered, maxEvents)
    ensures RunEnds(if IsShort(source, covered, maxEvents) then CaughtUp else Interrupted, source, k, maxEvents, used, next)
  {
  }

  /** Such a run goes on for ever over a crowded log, and catches up in time over another one. */
  lemma RunEndsInTime(exit: Exit, source: seq<Forward>, k: nat, maxEvents: nat, used: nat, next: nat)
    requires Ordered(source) && maxEvents > 0 && k <= |source| && RunEnds(exit, source, k, maxEvents, used, next)
    ensures Crowded(source, k, maxEvents) ==> exit.Interrupted?
    ensures !Crowded(source, k, maxEvents) && used > |source| - k ==> exit.CaughtUp?
  {
    if exit.CaughtUp? {
      ImportEndsIff(source, k, maxEvents);
    } else if !Crowded(source, k, maxEvents) {
      EveryPageCounts(source, k, maxEvents, used);
    }
  }

  /** Every row added since the start has an event sent since the start. */
  ghost predicate Announced(start: Table, now: Table, sentBefore: seq<Forward>, sent: seq<Forward>) {
    && sentBefore <= sent
    && forall ns | ns in now && ns !in start :: exists i :: |sentBefore| <= i < |sent| && sent[i].timestampNs == ns
  }

  /** Nothing is sent while bootstrapping. */
  ghost predicate Told(bootStrapping: bool, start: Table, now: Table, sentBefore: seq<Forward>, sent: seq<Forward>) {
    if bootStrapping then sent == sentBefore else Announced(start, now, sentBefore, sent)
  }

  lemma ToldFurther(bootStrapping: bool, a: Table, b: Table, c: Table, s: seq<Forward>, t: seq<Forward>, u: seq<Forward>)
    requires Told(bootStrapping, a, b, s, t) && Told(bootStrapping, b, c, t, u)
    ensures Told(bootStrapping, a, c, s, u)
  {
    forall ns | ns in c && ns !in a && !bootStrapping
      ensures exists i :: |s| <= i < |u| && u[i].timestampNs == ns
    {
      if ns in b {
        var i :| |s| <= i < |t| && t[i].timestampNs == ns;
        assert u[i] == t[i];
      }
    }
  }

  lemma PageAnnounced(before: Table, nodeId: int, sent: seq<Forward>, page: seq<Forward>)
    ensures Announced(before, InsertAll(before, nodeId, page), sent, sent + page)
  {
    InsertAllEffect(before, nodeId, page);
    forall ns | ns in InsertAll(before, nodeId, page) && ns !in before
      ensures exists i :: |sent| <= i < |sent + page| && (sent + page)[i].timestampNs == ns
    {
      var i :| 0 <= i < |page| && page[i].timestampNs == ns;
      assert (sent + page)[|sent| + i].timestampNs == ns;
    }
  }

  lemma OneLastTime(table: Table, nodeId: int, lastNs: nat)
    requires IsLastTime(table, nodeId, lastNs)
    ensures forall other: nat | IsLastTime(table, nodeId, other) :: other == lastNs
  {
  }

  lemma RestartIsCovered(table: Table, nodeId: int, source: seq<Forward>, k: nat, lastNs: nat)
    requires Covered(table, nodeId, source, k) && IsLastTime(table, nodeId, lastNs)
    ensures FirstFrom(source, lastNs / NANOSECONDS) <= k
  {
    FirstFromSplits(source, lastNs / NANOSECONDS);
    if Owns(table, nodeId, lastNs) {
      var i :| 0 <= i < k && source[i] == table[lastNs].forward && source[i].timestampNs == lastNs;
    }
  }

  lemma PageLength(source: seq<Forward>, start: nat, maxEvents: nat)
    ensures var j, n := FirstFrom(source, start), |ForwardingHistory(source, start, maxEvents)|;
            && j + n == Min(j + maxEvents, |source|)
            && ForwardingHistory(source, start, maxEvents) == source[j..j + n]
            && (n < maxEvents <==> |source| - j < maxEvents)
            && (n < maxEvents ==> j + n == |source|)
  {
  }

  lemma PageStored(before: Table, nodeId: int, source: seq<Forward>, covered: nat, j: nat, page: seq<Forward>)
    requires Covered(before, nodeId, source, covered) && j <= covered
    requires j + |page| <= |source| && page == source[j..j + |page|]
    ensures Covered(InsertAll(before, nodeId, page), nodeId, source, Max(covered, j + |page|))
  {
    PageCovers(before, nodeId, source, covered, j, |page|);
  }

  /** The page that restarts from the table, and where it ends when no other node has taken a timestamp of the log. */
  lemma PageAsPlanned(table: Table, nodeId: int, source: seq<Forward>, covered: nat, lastNs: nat, j: nat, n: nat,
                      maxEvents: nat)
    requires Ordered(source) && NoClash(table, nodeId, source)
    requires Covered(table, nodeId, source, covered) && IsLastTime(table, nodeId, lastNs)
    requires j == FirstFrom(source, lastNs / NANOSECONDS) && j + n == Min(j + maxEvents, |source|)
    ensures Max(covered, j + n) == AfterPage(source, covered, maxEvents)
    ensures n < maxEvents <==> IsShort(source, covered, maxEvents)
  {
    RestartFromTable(table, nodeId, source, covered, lastNs);
  }

  lemma PageExtends(before: Table, nodeId: int, page: seq<Forward>)
    ensures Extends(before, InsertAll(before, nodeId, page), nodeId)
  {
    InsertAllEffect(before, nodeId, page);
  }

  lemma PageKeepsNoClash(before: Table, after: Table, nodeId: int, source: seq<Forward>)
    requires NoClash(before, nodeId, source) && Extends(before, after, nodeId)
    ensures NoClash(after, nodeId, source)
  {
  }

  /** What one served page does to the table and the covered prefix. */
  lemma ServedPage(before: Table, after: Table, nodeId: int, source: seq<Forward>, covered: nat, lastNs: nat,
                   j: nat, page: seq<Forward>, maxEvents: nat, stored: bool)
    returns (next: nat)
    requires Ordered(source)
    requires Covered(before, nodeId, source, covered) && IsLastTime(before, nodeId, lastNs)
    requires j == FirstFrom(source, lastNs / NANOSECONDS)
    requires j + |page| == Min(j + maxEvents, |source|) && page == source[j..j + |page|]
    requires after == if stored then InsertAll(before, nodeId, page) else before
    ensures covered <= next && Covered(after, nodeId, source, next)
    ensures |page| < maxEvents && stored ==> next == |source|
    ensures Extends(before, after, nodeId)
    ensures stored && NoClash(before, nodeId, source) ==>
              && NoClash(after, nodeId, source)
              && next == AfterPage(source, covered, maxEvents)
              && (|page| < maxEvents <==> IsShort(source, covered, maxEvents))
  {
    next := covered;
    if stored {
      RestartIsCovered(before, nodeId, source, covered, lastNs);
      PageStored(before, nodeId, source, covered, j, page);
      PageExtends(before, nodeId, page);
      next := Max(covered, j + |page|);
      if NoClash(before, nodeId, source) {
        PageAsPlanned(before, nodeId, source, covered, lastNs, j, |page|, maxEvents);
        PageKeepsNoClash(before, after, nodeId, source);
      }
    }
  }

  lemma RestartFromTable(table: Table, nodeId: int, source: seq<Forward>, k: nat, lastNs: nat)
    requires Ordered(source) && NoClash(table, nodeId, source)
    requires Covered(table, nodeId, source, k) && IsLastTime(table, nodeId, lastNs)
    ensures FirstFrom(source, lastNs / NANOSECONDS) == Restart(source, k)
  {
    if k > 0 {
      assert Owns(table, nodeId, source[k - 1].timestampNs);
      assert Owns(table, nodeId, lastNs);
      var i :| 0 <= i < k && source[i] == table[lastNs].forward && source[i].timestampNs == lastNs;
      assert i == k - 1;
    } else {
      assert !Owns(table, nodeId, lastNs);
    }
  }
}
