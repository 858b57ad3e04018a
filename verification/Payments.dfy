/** The payment importer of pkg/lnd/payments.go: one payment per request, restarting each tick from the
    largest stored index, and the pass that refreshes in-flight payments. The payment table is shared by
    all nodes and keyed by creation time, rounded to the microsecond, and payment index. */
module Payments {
  import opened Options
  import opened Statuses
  import opened Collections

  datatype PaymentStatus = Unknown | InFlight | Succeeded | Failed

  const DETAILS_UNAVAILABLE := "DETAILS_UNAVAILABLE"
  const FAILURE_REASON_NONE := "FAILURE_REASON_NONE"
  const FAILURE_REASON_TIMEOUT := "FAILURE_REASON_TIMEOUT"

  datatype Payment = Payment(
    index: nat, creationTimeNs: nat, hash: string, preimage: string, request: string,
    valueMsat: int, feeMsat: int, status: PaymentStatus, failureReason: string)

  datatype Row = Row(nodeId: int, payment: Payment)

  datatype Key = Key(createdMicros: nat, index: nat)
  type Table = map<Key, Row>

  function KeyOf(p: Payment): Key {
    Key((p.creationTimeNs + 500) / 1000, p.index)
  }

  /** The node numbers its payments in increasing order. */
  ghost predicate Ordered(source: seq<Payment>) {
    forall i, j | 0 <= i < j < |source| :: source[i].index < source[j].index
  }

  /** Without the incomplete payments the node lists the succeeded ones only. */
  predicate Listed(p: Payment, includeIncomplete: bool) {
    includeIncomplete || p.status.Succeeded?
  }

  /** The node's answer to a request for one payment after an index. */
  function ListPayments(source: seq<Payment>, last: nat, includeIncomplete: bool): (answer: Option<Payment>)
    ensures answer.Some? ==> answer.value in source && answer.value.index > last && Listed(answer.value, includeIncomplete)
  {
    if source == [] then None
    else if source[0].index > last && Listed(source[0], includeIncomplete) then Some(source[0])
    else ListPayments(source[1..], last, includeIncomplete)
  }

  lemma {:induction false} NothingSkipped(source: seq<Payment>, last: nat, includeIncomplete: bool)
    requires Ordered(source)
    ensures var answer := ListPayments(source, last, includeIncomplete);
            forall p | p in source && Listed(p, includeIncomplete) && p.index > last ::
              answer.Some? && answer.value.index <= p.index
  {
    if source != [] { NothingSkipped(source[1..], last, includeIncomplete); }
  }

  function Remaining(source: seq<Payment>, last: nat): nat {
    if source == [] then 0
    else (if source[0].index > last then 1 else 0) + Remaining(source[1..], last)
  }

  lemma {:induction false} RemainingShrinks(source: seq<Payment>, last: nat, next: nat)
    requires last <= next
    ensures Remaining(source, next) <= Remaining(source, last)
    ensures (exists p :: p in source && last < p.index <= next) ==> Remaining(source, next) < Remaining(source, last)
  {
    if source != [] { RemainingShrinks(source[1..], last, next); }
  }

  // ------------------------------------------------------------------ what is stored

  predicate Owns(table: Table, nodeId: int, key: Key) {
    key in table && table[key].nodeId == nodeId
  }

  /** The largest index of the node's rows, or 0 without rows. */
  ghost predicate IsLastIndex(table: Table, nodeId: int, last: nat) {
    && (forall key | Owns(table, nodeId, key) :: key.index <= last)
    && (last != 0 ==> exists key :: Owns(table, nodeId, key) && key.index == last)
  }

  /** No listed payment up to index m is missing, and the node's rows are listed payments up to m. */
  ghost predicate StoredUpTo(table: Table, nodeId: int, source: seq<Payment>, includeIncomplete: bool, m: nat) {
    && (forall p | p in source && Listed(p, includeIncomplete) && p.index <= m :: KeyOf(p) in table)
    && (forall key | Owns(table, nodeId, key) ::
          key.index <= m && exists p :: p in source && Listed(p, includeIncomplete) && KeyOf(p) == key)
  }

  /** A tick starts again from the largest stored index, wherever the previous one stopped. */
  lemma RestartKeepsStored(table: Table, nodeId: int, source: seq<Payment>, includeIncomplete: bool, m: nat, last: nat)
    requires StoredUpTo(table, nodeId, source, includeIncomplete, m) && IsLastIndex(table, nodeId, last)
    ensures StoredUpTo(table, nodeId, source, includeIncomplete, last)
  {
  }

  lemma RestartIfStored(table: Table, nodeId: int, source: seq<Payment>, includeIncomplete: bool, m: nat, last: nat)
    requires IsLastIndex(table, nodeId, last)
    ensures StoredUpTo(table, nodeId, source, includeIncomplete, m) ==>
              StoredUpTo(table, nodeId, source, includeIncomplete, last)
  {
    if StoredUpTo(table, nodeId, source, includeIncomplete, m) {
      RestartKeepsStored(table, nodeId, source, includeIncomplete, m, last);
    }
  }

  lemma NothingMoreToStore(table: Table, nodeId: int, source: seq<Payment>, includeIncomplete: bool, last: nat)
    requires Ordered(source) && ListPayments(source, last, includeIncomplete).None?
    ensures StoredUpTo(table, nodeId, source, includeIncomplete, last) ==>
              forall p | p in source && Listed(p, includeIncomplete) :: KeyOf(p) in table
  {
    NothingSkipped(source, last, includeIncomplete);
  }

  /** No other node has a row under the key of one of this node's payments. */
  ghost predicate NoClash(table: Table, nodeId: int, source: seq<Payment>) {
    forall p | p in source && KeyOf(p) in table :: table[KeyOf(p)].nodeId == nodeId
  }

  /** Without clashes the node's rows are exactly the listed payments up to the largest stored index. */
  lemma StoredIsGapFree(table: Table, nodeId: int, source: seq<Payment>, includeIncomplete: bool, m: nat, last: nat,
                        p: Payment)
    requires StoredUpTo(table, nodeId, source, includeIncomplete, m) && IsLastIndex(table, nodeId, last)
    requires NoClash(table, nodeId, source) && p in source && Listed(p, includeIncomplete)
    ensures Owns(table, nodeId, KeyOf(p)) <==> p.index <= last
  {
    RestartKeepsStored(table, nodeId, source, includeIncomplete, m, last);
  }

  /** The node's payments later on: more of them, and earlier ones with another outcome. */
  ghost predicate Evolves(source: seq<Payment>, later: seq<Payment>) {
    && |source| <= |later|
    && forall i | 0 <= i < |source| :: later[i].index == source[i].index && KeyOf(later[i]) == KeyOf(source[i])
  }

  ghost predicate NewerThan(source: seq<Payment>, later: seq<Payment>, m: nat) {
    forall i | |source| <= i < |later| :: later[i].index > m
  }

  /** When incomplete payments are imported, what happens to payments afterwards opens no gap. */
  lemma GapFreeUnderChange(table: Table, nodeId: int, source: seq<Payment>, later: seq<Payment>, m: nat)
    requires StoredUpTo(table, nodeId, source, true, m) && Evolves(source, later) && NewerThan(source, later, m)
    ensures StoredUpTo(table, nodeId, later, true, m)
  {
    forall p | p in later && p.index <= m
      ensures KeyOf(p) in table
    {
      var i :| 0 <= i < |later| && later[i] == p;
      assert i < |source| && source[i] in source;
    }
    forall key | Owns(table, nodeId, key)
      ensures exists p :: p in later && KeyOf(p) == key
    {
      var p :| p in source && KeyOf(p) == key;
      var i :| 0 <= i < |source| && source[i] == p;
      assert later[i] in later && KeyOf(later[i]) == key;
    }
  }

  /** An imported range that passed the payment by, and its success afterwards. */
  predicate CompletesLate(source: seq<Payment>, later: seq<Payment>, m: nat, i: nat)
    requires |source| <= |later|
  {
    i < |source| && source[i].index <= m && !source[i].status.Succeeded? && later[i].status.Succeeded?
  }

  /** Otherwise there is a gap exactly when some payment succeeds after a later one was stored. */
  lemma LateCompletionIsTheGap(table: Table, nodeId: int, source: seq<Payment>, later: seq<Payment>, m: nat)
    requires Ordered(source) && NoClash(table, nodeId, source)
    requires StoredUpTo(table, nodeId, source, false, m) && Evolves(source, later) && NewerThan(source, later, m)
    requires forall i | 0 <= i < |source| && source[i].status.Succeeded? :: later[i].status.Succeeded?
    ensures StoredUpTo(table, nodeId, later, false, m) <==> forall i: nat :: !CompletesLate(source, later, m, i)
  {
    forall key | Owns(table, nodeId, key)
      ensures exists p :: p in later && Listed(p, false) && KeyOf(p) == key
    {
      var p :| p in source && Listed(p, false) && KeyOf(p) == key;
      var i :| 0 <= i < |source| && source[i] == p;
      assert later[i] in later && Listed(later[i], false) && KeyOf(later[i]) == key;
    }
    if i: nat :| CompletesLate(source, later, m, i) {
      NotStoredBeforeSuccess(table, nodeId, source, m, i);
      assert later[i] in later && KeyOf(later[i]) !in table;
    } else {
      forall p | p in later && Listed(p, false) && p.index <= m
        ensures KeyOf(p) in table
      {
        var i :| 0 <= i < |later| && later[i] == p;
        assert !CompletesLate(source, later, m, i);
        assert source[i] in source;
      }
    }
  }

  lemma NotStoredBeforeSuccess(table: Table, nodeId: int, source: seq<Payment>, m: nat, i: nat)
    requires Ordered(source) && NoClash(table, nodeId, source) && StoredUpTo(table, nodeId, source, false, m)
    requires i < |source| && !source[i].status.Succeeded?
    ensures KeyOf(source[i]) !in table
  {
    if KeyOf(source[i]) in table {
      assert source[i] in source && Owns(table, nodeId, KeyOf(source[i]));
      var p :| p in source && Listed(p, false) && KeyOf(p) == KeyOf(source[i]);
      SameIndex(source, p, source[i]);
    }
  }

  function Insert(table: Table, nodeId: int, p: Payment): Table {
    if KeyOf(p) in table then table else table[KeyOf(p) := Row(nodeId, p)]
  }

  lemma InsertStores(table: Table, nodeId: int, source: seq<Payment>, includeIncomplete: bool, last: nat)
    requires Ordered(source) && StoredUpTo(table, nodeId, source, includeIncomplete, last)
    requires ListPayments(source, last, includeIncomplete).Some?
    ensures var p := ListPayments(source, last, includeIncomplete).value;
            StoredUpTo(Insert(table, nodeId, p), nodeId, source, includeIncomplete, p.index)
  {
    var p := ListPayments(source, last, includeIncomplete).value;
    NothingSkipped(source, last, includeIncomplete);
    forall q | q in source && Listed(q, includeIncomplete) && q.index <= p.index
      ensures KeyOf(q) in Insert(table, nodeId, p)
    {
      if q.index > last { SameIndex(source, p, q); }
    }
  }

  lemma SameIndex(source: seq<Payment>, p: Payment, q: Payment)
    requires Ordered(source) && p in source && q in source && p.index == q.index
    ensures p == q
  {
    var i :| 0 <= i < |source| && source[i] == p;
    var j :| 0 <= j < |source| && source[j] == q;
    assert i == j;
  }

  /** No rows are lost or changed, and the added ones are the node's, with an index above the given one. */
  ghost predicate Extends(before: Table, after: Table, nodeId: int, above: nat) {
    && (forall key | key in before :: key in after && after[key] == before[key])
    && (forall key | key in after && key !in before ::
          after[key].nodeId == nodeId && key.index > above && KeyOf(after[key].payment) == key)
  }

  /** Every row added is the node's copy of a listed payment. */
  ghost predicate Copies(before: Table, after: Table, nodeId: int, source: seq<Payment>, includeIncomplete: bool) {
    forall key | key in after && key !in before ::
      && after[key].nodeId == nodeId
      && after[key].payment in source && (includeIncomplete || after[key].payment.status == Succeeded)
      && key.index == after[key].payment.index && key.createdMicros == (after[key].payment.creationTimeNs + 500) / 1000
  }

  lemma InsertExtends(start: Table, before: Table, nodeId: int, above: nat, p: Payment)
    requires Extends(start, before, nodeId, above) && p.index > above
    ensures Extends(start, Insert(before, nodeId, p), nodeId, above)
  {
  }

  /** The events sent since announce each added row, in increasing index order. */
  ghost predicate Announced(before: Table, after: Table, sentBefore: seq<Payment>, sent: seq<Payment>) {
    && sentBefore <= sent
    && (forall key | key in after && key !in before :: exists i :: |sentBefore| <= i < |sent| && KeyOf(sent[i]) == key)
    && (forall i, j | |sentBefore| <= i < j < |sent| :: sent[i].index < sent[j].index)
  }

  /** Nothing is sent while bootstrapping; afterwards every added row up to m is announced. */
  ghost predicate Told(bootStrapping: bool, before: Table, after: Table, sentBefore: seq<Payment>, sent: seq<Payment>,
                       m: nat) {
    if bootStrapping then sent == sentBefore
    else Announced(before, after, sentBefore, sent) && forall i | |sentBefore| <= i < |sent| :: sent[i].index <= m
  }

  lemma AnnounceNext(start: Table, before: Table, nodeId: int, sentBefore: seq<Payment>, sent: seq<Payment>, p: Payment)
    requires Announced(start, before, sentBefore, sent)
    requires forall i | |sentBefore| <= i < |sent| :: sent[i].index < p.index
    ensures Announced(start, Insert(before, nodeId, p), sentBefore, sent + [p])
  {
    var after := Insert(before, nodeId, p);
    forall key | key in after && key !in start
      ensures exists i :: |sentBefore| <= i < |sent + [p]| && KeyOf((sent + [p])[i]) == key
    {
      if key in before {
        var i :| |sentBefore| <= i < |sent| && KeyOf(sent[i]) == key;
        assert KeyOf((sent + [p])[i]) == key;
      } else {
        assert KeyOf((sent + [p])[|sent|]) == key;
      }
    }
  }

  lemma ToldNext(bootStrapping: bool, start: Table, before: Table, nodeId: int, sentBefore: seq<Payment>,
                 sent: seq<Payment>, last: nat, p: Payment)
    requires Told(bootStrapping, start, before, sentBefore, sent, last) && p.index > last
    ensures Told(bootStrapping, start, Insert(before, nodeId, p), sentBefore,
                 if bootStrapping then sent else sent + [p], p.index)
  {
    if !bootStrapping { AnnounceNext(start, before, nodeId, sentBefore, sent, p); }
  }

  /** The payment listed next, inserted. */
  lemma NextIsStored(start: Table, table: Table, nodeId: int, source: seq<Payment>, includeIncomplete: bool, last: nat,
                     p: Payment, above: nat)
    requires Ordered(source) && ListPayments(source, last, includeIncomplete) == Some(p) && above <= last
    requires Extends(start, table, nodeId, above) && Copies(start, table, nodeId, source, includeIncomplete)
    ensures var after := Insert(table, nodeId, p);
            && (StoredUpTo(table, nodeId, source, includeIncomplete, last) ==>
                  StoredUpTo(after, nodeId, source, includeIncomplete, p.index))
            && Extends(start, after, nodeId, above) && Copies(start, after, nodeId, source, includeIncomplete)
    ensures p.index > last && Remaining(source, p.index) < Remaining(source, last)
  {
    if StoredUpTo(table, nodeId, source, includeIncomplete, last) {
      InsertStores(table, nodeId, source, includeIncomplete, last);
    }
    RemainingShrinks(source, last, p.index);
    InsertExtends(start, table, nodeId, above, p);
    InsertCopies(start, table, nodeId, source, includeIncomplete, p);
  }

  lemma InsertCopies(start: Table, table: Table, nodeId: int, source: seq<Payment>, includeIncomplete: bool, p: Payment)
    requires Copies(start, table, nodeId, source, includeIncomplete) && p in source && Listed(p, includeIncomplete)
    ensures Copies(start, Insert(table, nodeId, p), nodeId, source, includeIncomplete)
  {
  }

  // ------------------------------------------------------------------ one turn after the other

  /** A table without rows of the node is where an import starts. */
  lemma NothingStored(table: Table, nodeId: int, source: seq<Payment>, includeIncomplete: bool)
    requires Numbered(source) && forall key :: !Owns(table, nodeId, key)
    ensures StoredUpTo(table, nodeId, source, includeIncomplete, 0)
  {
  }

  /** The node numbers its payments from 1. */
  ghost predicate Numbered(source: seq<Payment>) {
    Ordered(source) && forall p | p in source :: p.index > 0
  }

  lemma {:induction false} Greatest(s: set<nat>) returns (m: nat)
    requires s != {}
    ensures m in s && forall x | x in s :: x <= m
  {
    var x := Pick(s);
    if s == {x} {
      m := x;
    } else {
      assert s - {x} != {} by { assert s != {x}; }
      var rest := Greatest(s - {x});
      m := if rest > x then rest else x;
      forall y | y in s
        ensures y <= m
      {
        if y != x { assert y in s - {x}; }
      }
    }
  }

  lemma LastIndexExists(table: Table, nodeId: int) returns (last: nat)
    ensures IsLastIndex(table, nodeId, last)
  {
    var indexes := set key | key in table && Owns(table, nodeId, key) :: key.index;
    last := 0;
    if indexes != {} { last := Greatest(indexes); }
    forall key | Owns(table, nodeId, key)
      ensures key.index <= last
    {
      assert key.index in indexes;
    }
  }

  lemma StoredIsGapFreeTable(table: Table, nodeId: int, source: seq<Payment>, m: nat)
    requires StoredUpTo(table, nodeId, source, true, m)
    ensures GapFree(table, nodeId, source)
  {
    forall last | IsLastIndex(table, nodeId, last)
      ensures StoredUpTo(table, nodeId, source, true, last)
    {
      RestartKeepsStored(table, nodeId, source, true, m, last);
    }
  }

  /** The node's payments between two turns: the bound of the one is a bound of the other. */
  lemma PaymentsMoveOn(table: Table, nodeId: int, source: seq<Payment>, later: seq<Payment>, last: nat)
    requires StoredUpTo(table, nodeId, source, true, last) && IsLastIndex(table, nodeId, last)
    requires Numbered(later) && Evolves(source, later)
    ensures StoredUpTo(table, nodeId, later, true, last)
  {
    forall i | |source| <= i < |later|
      ensures later[i].index > last
    {
      assert later[i] in later;
      if last != 0 {
        var key :| Owns(table, nodeId, key) && key.index == last;
        var p :| p in source && KeyOf(p) == key;
        var j :| 0 <= j < |source| && source[j] == p;
        assert later[j].index == last;
      }
    }
    GapFreeUnderChange(table, nodeId, source, later, last);
  }

  // ------------------------------------------------------------------ the importer

  /** How a request ends the tick, if it does; one that is answered and stored ends it when nothing was listed. */
  predicate EndsWith(outcome: PageOutcome, exit: Exit) {
    match outcome
    case Fetched => exit.CaughtUp? || exit.GoingOn?
    case FetchFailed => exit.FetchRetry?
    case Cancelled => exit.Stopped?
    case StoreFailed => exit.StoreRetry? || exit.CaughtUp?
  }

  /** What the node and the database do for one request; everything past the listed outcomes succeeds. */
  datatype PageOutcome = Fetched | FetchFailed | Cancelled | StoreFailed

  /** How a tick ends: with nothing more listed, after a request or a statement that failed, or cancelled. */
  datatype Exit = CaughtUp | FetchRetry | StoreRetry | Stopped | GoingOn

  function StatusAt(exit: Exit, bootStrapping: bool): Status {
    if exit.FetchRetry? then Pending else if bootStrapping then Initializing else Active
  }

  /** The last of so many requests ended the tick so, unless it goes on, and the others were answered and stored. */
  ghost predicate Requested(outcomes: seq<PageOutcome>, requests: nat, exit: Exit) {
    && (exit.GoingOn? || (requests > 0 && EndsWith(OutcomeAt(outcomes, requests - 1), exit)))
    && forall i: nat | i < if exit.GoingOn? then requests else requests - 1 :: OutcomeAt(outcomes, i).Fetched?
  }

  lemma RequestedNext(outcomes: seq<PageOutcome>, requests: nat, exit: Exit)
    requires Requested(outcomes, requests, GoingOn) && EndsWith(OutcomeAt(outcomes, requests), exit)
    ensures Requested(outcomes, requests + 1, exit)
  {
  }

  function OutcomeAt(outcomes: seq<PageOutcome>, i: nat): PageOutcome {
    if i < |outcomes| then outcomes[i] else Fetched
  }

  class PaymentImporter {
    const nodeId: int
    const includeIncomplete: bool
    var table: Table
    var bootStrapping: bool
    var serviceStatus: Status
    /** The payment events sent, oldest first. */
    var events: seq<Payment>

    constructor (nodeId: int, includeIncomplete: bool, table: Table)
      ensures this.nodeId == nodeId && this.includeIncomplete == includeIncomplete && this.table == table
      ensures bootStrapping && serviceStatus == Inactive && events == []
    {
      this.nodeId, this.includeIncomplete, this.table := nodeId, includeIncomplete, table;
      bootStrapping, serviceStatus, events := true, Inactive, [];
    }

    method FetchLastPaymentIndex() returns (last: nat)
      ensures IsLastIndex(table, nodeId, last)
    {
      last := 0;
      var remaining := table.Keys;
      while remaining != {}
        invariant remaining <= table.Keys
        invariant forall key | Owns(table, nodeId, key) && key !in remaining :: key.index <= last
        invariant last != 0 ==> exists key :: Owns(table, nodeId, key) && key.index == last
      {
        var key :| key in remaining;
        if table[key].nodeId == nodeId && key.index > last {
          assert Owns(table, nodeId, key);
          last := key.index;
        }
        remaining := remaining - {key};
      }
    }

    /** One tick over the node's payments. m is an index up to which everything listed may be stored. */
    method Tick(source: seq<Payment>, lastIndexFailed: bool, outcomes: seq<PageOutcome>, ghost m: nat)
      returns (exit: Exit, requests: nat, ghost reached: nat)
      requires Ordered(source)
      modifies this
      // Gap-free whatever fails; and nothing at or below the largest stored index is looked at again.
      ensures StoredUpTo(old(table), nodeId, source, includeIncomplete, m) ==>
                StoredUpTo(table, nodeId, source, includeIncomplete, reached)
      ensures forall last: nat | IsLastIndex(old(table), nodeId, last) :: Extends(old(table), table, nodeId, last)
      // The loop ends; it ends caught up with everything stored, and does so when nothing fails.
      ensures StoredUpTo(old(table), nodeId, source, includeIncomplete, m) && exit.CaughtUp? ==>
                forall p | p in source && Listed(p, includeIncomplete) :: KeyOf(p) in table
      ensures !lastIndexFailed && (forall i | 0 <= i < |outcomes| :: outcomes[i].Fetched?) ==> exit.CaughtUp?
      // It ends with the first request that fails, and its status is Pending only when something could not be read.
      ensures if lastIndexFailed then exit.FetchRetry? && requests == 0
              else Requested(outcomes, requests, exit) && !exit.GoingOn?
      ensures bootStrapping == (old(bootStrapping) && !exit.CaughtUp?)
      ensures serviceStatus == if exit.FetchRetry? then Pending else if old(bootStrapping) then Initializing else Active
      ensures if old(bootStrapping) then events == old(events) else Announced(old(table), table, old(events), events)
      ensures Copies(old(table), table, nodeId, source, includeIncomplete)
    {
      reached, requests := m, 0;
      if lastIndexFailed {
        serviceStatus := Pending;
        exit := FetchRetry;
        return;
      }
      var last := FetchLastPaymentIndex();
      RestartIfStored(table, nodeId, source, includeIncomplete, m, last);
      OneLastIndex(table, nodeId, last);
      exit, requests, reached := ImportAfter(source, last, outcomes);
    }

    /** The requests of one tick, from the largest stored index on. */
    method ImportAfter(source: seq<Payment>, start: nat, outcomes: seq<PageOutcome>)
      returns (exit: Exit, requests: nat, ghost reached: nat)
      requires Ordered(source)
      modifies this
      ensures StoredUpTo(old(table), nodeId, source, includeIncomplete, start) ==>
                StoredUpTo(table, nodeId, source, includeIncomplete, reached)
      ensures Extends(old(table), table, nodeId, start)
      ensures StoredUpTo(old(table), nodeId, source, includeIncomplete, start) && exit.CaughtUp? ==>
                forall p | p in source && Listed(p, includeIncomplete) :: KeyOf(p) in table
      ensures (forall i | 0 <= i < |outcomes| :: outcomes[i].Fetched?) ==> exit.CaughtUp?
      ensures Requested(outcomes, requests, exit) && !exit.GoingOn?
      ensures bootStrapping == (old(bootStrapping) && !exit.CaughtUp?)
      ensures serviceStatus == StatusAt(exit, old(bootStrapping))
      ensures if old(bootStrapping) then events == old(events) else Announced(old(table), table, old(events), events)
      ensures Copies(old(table), table, nodeId, source, includeIncomplete)
    {
      ghost var gapFree := StoredUpTo(table, nodeId, source, includeIncomplete, start);
      var last := start;
      requests, exit, reached := 0, GoingOn, last;
      while exit.GoingOn?
        invariant start <= last == reached
        invariant gapFree ==> StoredUpTo(table, nodeId, source, includeIncomplete, last)
        invariant gapFree && exit.CaughtUp? ==> forall p | p in source && Listed(p, includeIncomplete) :: KeyOf(p) in table
        invariant Extends(old(table), table, nodeId, start)
        invariant Copies(old(table), table, nodeId, source, includeIncomplete)
        invariant Told(old(bootStrapping), old(table), table, old(events), events, last)
        invariant bootStrapping == (old(bootStrapping) && !exit.CaughtUp?)
        invariant requests > 0 ==> serviceStatus == StatusAt(exit, old(bootStrapping))
        invariant Requested(outcomes, requests, exit)
        decreases Remaining(source, last), exit.GoingOn?
      {
        exit, last := TakeRequest(source, last, OutcomeAt(outcomes, requests), old(table), start, old(events));
        RequestedNext(outcomes, requests, exit);
        requests, reached := requests + 1, last;
      }
    }

    /** One request after `last` in a tick that began with the given table and events. */
    method TakeRequest(source: seq<Payment>, last: nat, outcome: PageOutcome, ghost start: Table, ghost above: nat,
                       ghost sentBefore: seq<Payment>)
      returns (exit: Exit, next: nat)
      requires Ordered(source) && above <= last && Extends(start, table, nodeId, above)
      requires Copies(start, table, nodeId, source, includeIncomplete)
      requires Told(bootStrapping, start, table, sentBefore, events, last)
      modifies this
      ensures if exit.GoingOn? then next > last && Remaining(source, next) < Remaining(source, last) else next == last
      ensures StoredUpTo(old(table), nodeId, source, includeIncomplete, last) ==>
                StoredUpTo(table, nodeId, source, includeIncomplete, next)
      ensures StoredUpTo(old(table), nodeId, source, includeIncomplete, last) && exit.CaughtUp? ==>
                forall p | p in source && Listed(p, includeIncomplete) :: KeyOf(p) in table
      ensures Extends(start, table, nodeId, above) && Copies(start, table, nodeId, source, includeIncomplete)
      ensures Told(old(bootStrapping), start, table, sentBefore, events, next)
      ensures EndsWith(outcome, exit)
      ensures bootStrapping == (old(bootStrapping) && !exit.CaughtUp?)
      ensures serviceStatus == StatusAt(exit, old(bootStrapping))
    {
      exit, next := GoingOn, last;
      serviceStatus := if bootStrapping then Initializing else Active;
      if outcome.Cancelled? {
        exit := Stopped;
        return;
      }
      if outcome.FetchFailed? {
        serviceStatus := Pending;
        exit := FetchRetry;
        return;
      }
      var payment := ListPayments(source, last, includeIncomplete);
      if payment.None? {
        NothingMoreToStore(table, nodeId, source, includeIncomplete, last);
        bootStrapping := false;
        exit := CaughtUp;
        return;
      }
      if outcome.StoreFailed? {
        exit := StoreRetry;
        return;
      }
      StoreListed(source, last, payment.value, start, above, sentBefore);
      next := payment.value.index;
    }

    /** Stores the payment listed after `last` in a tick that began with the given table and events. */
    method StoreListed(source: seq<Payment>, last: nat, p: Payment, ghost start: Table, ghost above: nat,
                       ghost sentBefore: seq<Payment>)
      requires Ordered(source) && ListPayments(source, last, includeIncomplete) == Some(p) && above <= last
      requires Extends(start, table, nodeId, above) && Copies(start, table, nodeId, source, includeIncomplete)
      requires Told(bootStrapping, start, table, sentBefore, events, last)
      modifies `table, `events
      ensures StoredUpTo(old(table), nodeId, source, includeIncomplete, last) ==>
                StoredUpTo(table, nodeId, source, includeIncomplete, p.index)
      ensures Extends(start, table, nodeId, above)
      ensures Told(bootStrapping, start, table, sentBefore, events, p.index)
      ensures Remaining(source, p.index) < Remaining(source, last)
      ensures Copies(start, table, nodeId, source, includeIncomplete)
    {
      NextIsStored(start, table, nodeId, source, includeIncomplete, last, p, above);
      ToldNext(bootStrapping, start, table, nodeId, sentBefore, events, last, p);
      StorePayment(p);
    }

    method StorePayment(p: Payment)
      modifies `table, `events
      ensures table == Insert(old(table), nodeId, p)
      ensures table == var key := Key((p.creationTimeNs + 500) / 1000, p.index);
                       if key in old(table) then old(table) else old(table)[key := Row(nodeId, p)]
      ensures events == if bootStrapping then old(events) else old(events) + [p]
    {
      if KeyOf(p) !in table {
        table := table[KeyOf(p) := Row(nodeId, p)];
      }
      if !bootStrapping {
        events := events + [p];
      }
    }

    // ---------------------------------------------------------------- the in-flight pass

    method FetchInFlightPaymentIndexes() returns (indexes: set<nat>)
      ensures indexes == InFlightIndexes(table, nodeId)
    {
      indexes := {};
      var remaining := table.Keys;
      while remaining != {}
        invariant remaining <= table.Keys
        invariant indexes == set key | key in table && key !in remaining && OwnInFlight(table, nodeId, key) :: key.index
      {
        var key :| key in remaining;
        if table[key].payment.status.InFlight? && table[key].nodeId == nodeId {
          indexes := indexes + {key.index};
        }
        remaining := remaining - {key};
      }
    }

    /** One pass over the in-flight payments: the rows of each in-flight index are overwritten with what the
        node now says, or failed when it no longer knows the payment. `failing` are the indexes for which
        the request or the update fails, `expired` those whose invoice has expired. */
    method UpdateInFlightPayments(source: seq<Payment>, failing: set<nat>, expired: set<nat>)
      modifies `table
      ensures table == PassedTable(old(table), nodeId, source, InFlightIndexes(old(table), nodeId) - failing, expired)
      ensures table.Keys == old(table).Keys
      ensures Ordered(source) ==>
                forall key | key in table :: PassWrites(old(table), table, nodeId, source, failing, expired, key)
    {
      var indexes := FetchInFlightPaymentIndexes();
      var remaining := indexes;
      assert PassedTable(table, nodeId, source, {}, expired) == table;
      while remaining != {}
        invariant remaining <= indexes
        invariant table == PassedTable(old(table), nodeId, source, indexes - remaining - failing, expired)
      {
        var i :| i in remaining;
        ghost var done := indexes - remaining - failing;
        remaining := remaining - {i};
        if i !in failing {
          var answer := AnswerFor(source, i);
          table := WriteIndex(table, nodeId, answer, i, expired);
          PassStep(old(table), nodeId, source, done, expired, i);
          assert indexes - remaining - failing == done + {i};
        } else {
          assert indexes - remaining - failing == done;
        }
      }
      assert indexes - {} - failing == indexes - failing;
      forall key | key in old(table) && Ordered(source)
        ensures PassWrites(old(table), table, nodeId, source, failing, expired, key)
      {
        PassByPayments(old(table), nodeId, source, failing, expired, key);
      }
    }

    /** Any run of ticks, passes and writes of other nodes over payments that the node adds and completes meanwhile,
        whatever fails: the node's rows stay gap-free all along exactly when no pass refreshes an index under which
        another node has a row, and then a tick that ends caught up has stored everything. */
    method Run(turns: seq<Turn>) returns (caughtUp: bool, ghost tables: seq<Table>)
      requires includeIncomplete && turns != [] && Timeline(turns)
      requires GapFree(table, nodeId, turns[0].source)
      modifies this
      ensures Trace(nodeId, turns, tables, |turns|) && tables[0] == old(table) && tables[|turns|] == table
      ensures AllGapFree(nodeId, turns, tables, |turns|) <==> NoneTakesOver(nodeId, turns, tables, |turns|)
      ensures NoneTakesOver(nodeId, turns, tables, |turns|) ==> Ended(turns[|turns| - 1], caughtUp, table)
    {
      caughtUp, tables := TakeTurns(turns);
      GapFreeAllAlongIff(nodeId, turns, tables, |turns|);
      GapFreeBefore(nodeId, turns, tables, |turns| - 1);
    }

    method TakeTurns(turns: seq<Turn>) returns (caughtUp: bool, ghost tables: seq<Table>)
      requires includeIncomplete && turns != [] && forall i | 0 <= i < |turns| :: Numbered(turns[i].source)
      modifies this
      ensures Trace(nodeId, turns, tables, |turns|) && tables[0] == old(table) && tables[|turns|] == table
      ensures GapFree(tables[|turns| - 1], nodeId, turns[|turns| - 1].source) ==> Ended(turns[|turns| - 1], caughtUp, table)
    {
      caughtUp, tables := false, [table];
      for i := 0 to |turns|
        invariant Trace(nodeId, turns, tables, i) && tables[0] == old(table) && tables[i] == table
        invariant i > 0 && GapFree(tables[i - 1], nodeId, turns[i - 1].source) ==> Ended(turns[i - 1], caughtUp, table)
      {
        caughtUp := TakeTurn(turns[i]);
        TraceGrows(nodeId, turns, tables, i, table);
        tables := tables + [table];
      }
    }

    method TakeTurn(turn: Turn) returns (caughtUp: bool)
      requires includeIncomplete && Numbered(turn.source)
      modifies this
      ensures Follows(turn, nodeId, old(table), table)
      ensures GapFree(old(table), nodeId, turn.source) ==> Ended(turn, caughtUp, table)
    {
      caughtUp := false;
      match turn
      case TickTurn(source, lastIndexFailed, outcomes) =>
        var exit, requests;
        ghost var reached;
        ghost var last := LastIndexExists(table, nodeId);
        exit, requests, reached := Tick(source, lastIndexFailed, outcomes, last);
        caughtUp := exit.CaughtUp?;
      case PassTurn(source, failing, expired) =>
        UpdateInFlightPayments(source, failing, expired);
      case OthersTurn(source, writes) =>
        table := OthersWrite(table, nodeId, writes);
    }
  }

  /** A turn of the node's importers, or of those of other nodes, with the payments the node has by then. */
  datatype Turn =
    | TickTurn(source: seq<Payment>, lastIndexFailed: bool, outcomes: seq<PageOutcome>)
    | PassTurn(source: seq<Payment>, failing: set<nat>, expired: set<nat>)
    | OthersTurn(source: seq<Payment>, writes: Table)

  /** What other nodes' importers write: rows of their own, under a new key or in place of any row, and new details of
      a row of this node that stays this node's. */
  function OthersWrite(table: Table, nodeId: int, writes: Table): Table {
    table + map key | key in writes && (writes[key].nodeId != nodeId || Owns(table, nodeId, key)) :: writes[key]
  }

  /** Every pass and every insert of another node is such a write. */
  lemma OthersImportSo(table: Table, nodeId: int, other: int, source: seq<Payment>, refreshed: set<nat>,
                       expired: set<nat>, p: Payment)
    requires other != nodeId
    ensures var passed := PassedTable(table, other, source, refreshed, expired);
            OthersWrite(table, nodeId, passed) == passed
    ensures OthersWrite(table, nodeId, Insert(table, other, p)) == Insert(table, other, p)
  {
  }

  /** A tick in which no request and no statement fails. */
  ghost predicate NothingFails(turn: Turn) {
    turn.TickTurn? && !turn.lastIndexFailed && forall i | 0 <= i < |turn.outcomes| :: turn.outcomes[i].Fetched?
  }

  ghost predicate Timeline(turns: seq<Turn>) {
    && (forall i | 0 <= i < |turns| :: Numbered(turns[i].source))
    && (forall i | 1 <= i < |turns| :: Evolves(turns[i - 1].source, turns[i].source))
  }

  /** Every payment up to the node's largest stored index has a row, and the node's rows are its payments. */
  ghost predicate GapFree(table: Table, nodeId: int, source: seq<Payment>) {
    forall last | IsLastIndex(table, nodeId, last) :: StoredUpTo(table, nodeId, source, true, last)
  }

  /** What a turn may make of the table. */
  ghost predicate Follows(turn: Turn, nodeId: int, before: Table, after: Table) {
    match turn
    case TickTurn(source, _, _) =>
      && (forall last | IsLastIndex(before, nodeId, last) :: Extends(before, after, nodeId, last))
      && (GapFree(before, nodeId, source) ==> GapFree(after, nodeId, source))
      && Copies(before, after, nodeId, source, true)
    case PassTurn(source, failing, expired) =>
      after == PassedTable(before, nodeId, source, InFlightIndexes(before, nodeId) - failing, expired)
    case OthersTurn(_, writes) => after == OthersWrite(before, nodeId, writes)
  }

  /** The tables before, between and after the first n turns. */
  ghost predicate Trace(nodeId: int, turns: seq<Turn>, tables: seq<Table>, n: nat) {
    && n <= |turns| && |tables| == n + 1
    && forall i | 0 <= i < n :: Follows(turns[i], nodeId, tables[i], tables[i + 1])
  }

  lemma TraceGrows(nodeId: int, turns: seq<Turn>, tables: seq<Table>, n: nat, next: Table)
    requires n < |turns| && Trace(nodeId, turns, tables, n) && Follows(turns[n], nodeId, tables[n], next)
    ensures Trace(nodeId, turns, tables + [next], n + 1)
  {
  }

  /** The turn is a pass that refreshes an index under which another node has a row. */
  ghost predicate TakesOver(turn: Turn, table: Table, nodeId: int) {
    turn.PassTurn? && SharesIndex(table, nodeId, InFlightIndexes(table, nodeId) - turn.failing)
  }

  /** The rows are gap-free after each of the first n turns. */
  ghost predicate AllGapFree(nodeId: int, turns: seq<Turn>, tables: seq<Table>, n: nat)
    requires n <= |turns| < |tables|
  {
    forall i | 0 <= i < n :: GapFree(tables[i + 1], nodeId, turns[i].source)
  }

  ghost predicate NoneTakesOver(nodeId: int, turns: seq<Turn>, tables: seq<Table>, n: nat)
    requires n <= |turns| < |tables|
  {
    forall i | 0 <= i < n :: !TakesOver(turns[i], tables[i], nodeId)
  }

  /** A turn that ends caught up leaves everything stored, and one in which nothing fails ends so. */
  ghost predicate Ended(turn: Turn, caughtUp: bool, table: Table) {
    && (caughtUp ==> turn.TickTurn? && forall p | p in turn.source :: KeyOf(p) in table)
    && (NothingFails(turn) ==> caughtUp)
  }

  lemma OneLastIndex(table: Table, nodeId: int, last: nat)
    requires IsLastIndex(table, nodeId, last)
    ensures forall other: nat | IsLastIndex(table, nodeId, other) :: other == last
  {
  }

  ghost predicate OwnInFlight(table: Table, nodeId: int, key: Key) {
    Owns(table, nodeId, key) && table[key].payment.status.InFlight?
  }

  ghost function InFlightIndexes(table: Table, nodeId: int): set<nat> {
    set key | key in table && OwnInFlight(table, nodeId, key) :: key.index
  }

  /** The request asks for the payment after i - 1, in 64-bit arithmetic. */
  function AnswerFor(source: seq<Payment>, i: nat): Option<Payment> {
    ListPayments(source, if i == 0 then 0xffff_ffff_ffff_ffff else i - 1, true)
  }

  /** The status and reason written for an answer: an expired payment in flight is failed. */
  function Outcome(p: Payment, expired: set<nat>): (PaymentStatus, string) {
    if p.status.InFlight? && p.index in expired then
      (Failed, if p.failureReason == FAILURE_REASON_NONE then FAILURE_REASON_TIMEOUT else p.failureReason)
    else (p.status, p.failureReason)
  }

  /** What an answer writes into a row of index i; the creation time and the index are never written. */
  function WriteRow(row: Row, nodeId: int, answer: Option<Payment>, i: nat, expired: set<nat>): Row {
    if answer.None? || answer.value.index != i then
      row.(payment := row.payment.(status := Failed, failureReason := DETAILS_UNAVAILABLE))
    else
      var p := answer.value;
      var (status, reason) := Outcome(p, expired);
      Row(nodeId, row.payment.(hash := p.hash, preimage := p.preimage, request := p.request,
                               valueMsat := p.valueMsat, feeMsat := p.feeMsat, status := status, failureReason := reason))
  }

  /** The update statement names the index alone, so it reaches the rows of every node. */
  function WriteIndex(table: Table, nodeId: int, answer: Option<Payment>, i: nat, expired: set<nat>): Table {
    map key | key in table :: if key.index == i then WriteRow(table[key], nodeId, answer, i, expired) else table[key]
  }

  /** Every row of a refreshed index overwritten once, every other row as it was. */
  function PassedTable(table: Table, nodeId: int, source: seq<Payment>, indexes: set<nat>, expired: set<nat>): Table {
    map key | key in table ::
      if key.index in indexes then WriteRow(table[key], nodeId, AnswerFor(source, key.index), key.index, expired) else table[key]
  }

  lemma PassStep(table: Table, nodeId: int, source: seq<Payment>, done: set<nat>, expired: set<nat>, i: nat)
    ensures WriteIndex(PassedTable(table, nodeId, source, done, expired), nodeId, AnswerFor(source, i), i, expired)
            == PassedTable(table, nodeId, source, done + {i}, expired)
  {
  }

  ghost predicate FinalRowsKept(before: Table, after: Table) {
    forall key | key in before && !before[key].payment.status.InFlight? :: key in after && after[key] == before[key]
  }

  /** No finished row, of any node, has the index of an in-flight row of this node. */
  ghost predicate NoSharedIndex(table: Table, nodeId: int) {
    forall key | key in table && !table[key].payment.status.InFlight? :: key.index !in InFlightIndexes(table, nodeId)
  }

  /** The pass leaves every finished row alone, whatever the node answers, exactly when no finished row shares
      an index with an in-flight row of the node: with several nodes in one table it may not. */
  lemma FinalRowsKeptIff(table: Table, nodeId: int)
    requires forall key | key in table :: key.index > 0 // the node numbers payments from 1
    ensures NoSharedIndex(table, nodeId)
            <==> forall source, failing, expired ::
                   FinalRowsKept(table, PassedTable(table, nodeId, source, InFlightIndexes(table, nodeId) - failing, expired))
  {
    if !NoSharedIndex(table, nodeId) {
      var key :| key in table && !table[key].payment.status.InFlight? && key.index in InFlightIndexes(table, nodeId);
      var answer := table[key].payment.(index := key.index, hash := table[key].payment.hash + "0");
      var source := [answer];
      assert AnswerFor(source, key.index) == Some(answer);
      var none: set<nat> := {};
      var after := PassedTable(table, nodeId, source, InFlightIndexes(table, nodeId) - none, none);
      assert after[key].payment.hash != table[key].payment.hash;
      assert !FinalRowsKept(table, after);
    }
  }

  /** One node alone in the table, with one row an index: no finished row changes. */
  lemma OwnFinalRowsKept(table: Table, nodeId: int, source: seq<Payment>, failing: set<nat>, expired: set<nat>)
    requires forall key | key in table :: key.index > 0
    requires forall k, l | k in table && l in table && k.index == l.index :: k == l
    ensures FinalRowsKept(table, PassedTable(table, nodeId, source, InFlightIndexes(table, nodeId) - failing, expired))
  {
    assert NoSharedIndex(table, nodeId);
    FinalRowsKeptIff(table, nodeId);
  }

  /** After a pass without failures, a row of the node that was in flight still is exactly when the node still
      lists the payment as in flight and its invoice has not expired. */
  lemma PassSettles(table: Table, nodeId: int, source: seq<Payment>, expired: set<nat>, key: Key)
    requires Ordered(source) && OwnInFlight(table, nodeId, key) && key.index > 0
    ensures var after := PassedTable(table, nodeId, source, InFlightIndexes(table, nodeId), expired);
            key in after
            && (after[key].payment.status.InFlight?
                <==> exists p :: p in source && p.index == key.index && p.status.InFlight? && key.index !in expired)
  {
    NothingSkipped(source, key.index - 1, true);
    var answer := AnswerFor(source, key.index);
    forall p | p in source && p.index == key.index
      ensures answer == Some(p)
    {
      SameIndex(source, answer.value, p);
    }
  }

  // ------------------------------------------------------------------ what the pass writes, by the payments of the node

  /** The node has a row in flight with the index, and its request and update do not fail. */
  ghost predicate IsRefreshed(table: Table, nodeId: int, failing: set<nat>, index: nat) {
    && index !in failing
    && exists key :: key in table && key.index == index && table[key].nodeId == nodeId && table[key].payment.status == InFlight
  }

  /** The row has become the node's, with all of the payment but its index and creation time: its status and reason
      too, unless it is in flight and expired, when it has failed with a timeout for want of a reason. */
  ghost predicate Settled(before: Row, after: Row, nodeId: int, p: Payment, expired: bool) {
    && after.nodeId == nodeId
    && after.payment.index == before.payment.index && after.payment.creationTimeNs == before.payment.creationTimeNs
    && after.payment.hash == p.hash && after.payment.preimage == p.preimage && after.payment.request == p.request
    && after.payment.valueMsat == p.valueMsat && after.payment.feeMsat == p.feeMsat
    && (if p.status == InFlight && expired then
          && after.payment.status == Failed
          && after.payment.failureReason == (if p.failureReason == "FAILURE_REASON_NONE" then "FAILURE_REASON_TIMEOUT"
                                             else p.failureReason)
        else after.payment.status == p.status && after.payment.failureReason == p.failureReason)
  }

  /** The row has failed for want of details, and is otherwise as before. */
  ghost predicate Unavailable(before: Row, after: Row) {
    && after.payment.status == Failed && after.payment.failureReason == "DETAILS_UNAVAILABLE"
    && after.nodeId == before.nodeId
    && after.payment.(status := before.payment.status, failureReason := before.payment.failureReason) == before.payment
  }

  /** What a pass makes of the row under a key: with a refreshed index it is settled by the payment of that index if the
      node has one, and unavailable if it has none; the other rows stay. No payment is found for the index 0. */
  ghost predicate PassWrites(before: Table, after: Table, nodeId: int, source: seq<Payment>, failing: set<nat>,
                             expired: set<nat>, key: Key)
    requires key in before && key in after
  {
    if !IsRefreshed(before, nodeId, failing, key.index) then after[key] == before[key]
    else
      && (forall p | p in source && p.index == key.index && p.index > 0 ::
            Settled(before[key], after[key], nodeId, p, key.index in expired))
      && ((key.index == 0 || forall p | p in source :: p.index != key.index) ==> Unavailable(before[key], after[key]))
  }

  lemma PassByPayments(table: Table, nodeId: int, source: seq<Payment>, failing: set<nat>, expired: set<nat>, key: Key)
    requires Ordered(source) && key in table
    ensures var after := PassedTable(table, nodeId, source, InFlightIndexes(table, nodeId) - failing, expired);
            key in after && PassWrites(table, after, nodeId, source, failing, expired, key)
  {
    assert key.index in InFlightIndexes(table, nodeId) - failing <==> IsRefreshed(table, nodeId, failing, key.index) by {
      RefreshedAreInFlight(table, nodeId, failing, key.index);
    }
    forall p | p in source && p.index == key.index && p.index > 0
      ensures AnswerFor(source, key.index) == Some(p)
    {
      OwnPaymentAnswers(source, p);
    }
  }

  lemma RefreshedAreInFlight(table: Table, nodeId: int, failing: set<nat>, index: nat)
    ensures index in InFlightIndexes(table, nodeId) - failing <==> IsRefreshed(table, nodeId, failing, index)
  {
    if IsRefreshed(table, nodeId, failing, index) {
      var key :| key in table && key.index == index && table[key].nodeId == nodeId && table[key].payment.status == InFlight;
      assert OwnInFlight(table, nodeId, key);
    }
  }

  lemma OwnPaymentAnswers(source: seq<Payment>, p: Payment)
    requires Ordered(source) && p in source && p.index > 0
    ensures AnswerFor(source, p.index) == Some(p)
  {
    NothingSkipped(source, p.index - 1, true);
    SameIndex(source, AnswerFor(source, p.index).value, p);
  }

  // ------------------------------------------------------------------ the pass and the stored payments

  predicate Answered(source: seq<Payment>, i: nat) {
    AnswerFor(source, i).Some? && AnswerFor(source, i).value.index == i
  }

  /** A row of another node has a refreshed index. */
  ghost predicate SharesIndex(table: Table, nodeId: int, refreshed: set<nat>) {
    exists key :: SharesIndexAt(table, nodeId, refreshed, key)
  }

  ghost predicate SharesIndexAt(table: Table, nodeId: int, refreshed: set<nat>, key: Key) {
    key in table && table[key].nodeId != nodeId && key.index in refreshed
  }

  /** The node still has the payment of each of its rows in flight. */
  lemma InFlightIsAnswered(table: Table, nodeId: int, source: seq<Payment>, includeIncomplete: bool, m: nat, i: nat)
    requires Numbered(source) && StoredUpTo(table, nodeId, source, includeIncomplete, m)
    requires i in InFlightIndexes(table, nodeId)
    ensures Answered(source, i)
  {
    var own :| own in table && OwnInFlight(table, nodeId, own) && own.index == i;
    var p :| p in source && KeyOf(p) == own;
    assert p.index == KeyOf(p).index == i;
    OwnPaymentAnswers(source, p);
  }


  /** The pass takes such a row over, and the row is then no payment of the node's. */
  lemma TakenOverIsNotListed(table: Table, nodeId: int, source: seq<Payment>, includeIncomplete: bool, m: nat,
                             key: Key, p: Payment)
    requires Numbered(source) && StoredUpTo(table, nodeId, source, includeIncomplete, m)
    requires key in table && table[key].nodeId != nodeId && key.index in InFlightIndexes(table, nodeId) && p in source
    ensures KeyOf(p) != key
  {
    var own :| own in table && OwnInFlight(table, nodeId, own) && own.index == key.index;
    var q :| q in source && KeyOf(q) == own;
    if KeyOf(p) == key {
      SameIndex(source, p, q);
    }
  }

  /** The pass keeps the node's rows gap-free exactly when no row of another node has a refreshed index; otherwise no
      bound makes them so. */
  lemma PassKeepsStoredIff(table: Table, nodeId: int, source: seq<Payment>, includeIncomplete: bool, m: nat,
                           failing: set<nat>, expired: set<nat>)
    requires Numbered(source) && StoredUpTo(table, nodeId, source, includeIncomplete, m)
    ensures var refreshed := InFlightIndexes(table, nodeId) - failing;
            var after := PassedTable(table, nodeId, source, refreshed, expired);
            && (!SharesIndex(table, nodeId, refreshed) ==> StoredUpTo(after, nodeId, source, includeIncomplete, m))
            && (SharesIndex(table, nodeId, refreshed) ==>
                  forall k: nat :: !StoredUpTo(after, nodeId, source, includeIncomplete, k))
  {
    var refreshed := InFlightIndexes(table, nodeId) - failing;
    var after := PassedTable(table, nodeId, source, refreshed, expired);
    forall key | key in table
      ensures Owns(after, nodeId, key) <==> Owns(table, nodeId, key) || SharesIndexAt(table, nodeId, refreshed, key)
    {
      if SharesIndexAt(table, nodeId, refreshed, key) {
        InFlightIsAnswered(table, nodeId, source, includeIncomplete, m, key.index);
      }
    }
    if key :| SharesIndexAt(table, nodeId, refreshed, key) {
      forall p | p in source
        ensures KeyOf(p) != key
      {
        TakenOverIsNotListed(table, nodeId, source, includeIncomplete, m, key, p);
      }
      assert Owns(after, nodeId, key);
    }
  }

  /** With the table to itself a node keeps its rows gap-free through every pass. */
  lemma PassKeepsStoredAlone(table: Table, nodeId: int, source: seq<Payment>, includeIncomplete: bool, m: nat,
                             failing: set<nat>, expired: set<nat>)
    requires Numbered(source) && StoredUpTo(table, nodeId, source, includeIncomplete, m)
    requires forall key | key in table :: table[key].nodeId == nodeId
    ensures StoredUpTo(PassedTable(table, nodeId, source, InFlightIndexes(table, nodeId) - failing, expired),
                       nodeId, source, includeIncomplete, m)
  {
    PassKeepsStoredIff(table, nodeId, source, includeIncomplete, m, failing, expired);
  }

  // ------------------------------------------------------------------ gap-free over a run

  lemma OthersKeepGapFree(table: Table, nodeId: int, source: seq<Payment>, writes: Table)
    requires GapFree(table, nodeId, source)
    ensures GapFree(OthersWrite(table, nodeId, writes), nodeId, source)
  {
    var after := OthersWrite(table, nodeId, writes);
    var last := LastIndexExists(table, nodeId);
    assert forall key | Owns(after, nodeId, key) :: Owns(table, nodeId, key);
    assert StoredUpTo(after, nodeId, source, true, last);
    StoredIsGapFreeTable(after, nodeId, source, last);
  }

  /** One turn keeps gap-free rows so exactly when it takes over no row of another node. */
  lemma TurnKeepsGapFreeIff(turn: Turn, nodeId: int, before: Table, after: Table)
    requires Numbered(turn.source) && Follows(turn, nodeId, before, after) && GapFree(before, nodeId, turn.source)
    ensures GapFree(after, nodeId, turn.source) <==> !TakesOver(turn, before, nodeId)
  {
    match turn
    case TickTurn(_, _, _) =>
    case PassTurn(source, failing, expired) =>
      var last := LastIndexExists(before, nodeId);
      var next := LastIndexExists(after, nodeId);
      PassKeepsStoredIff(before, nodeId, source, true, last, failing, expired);
      if !TakesOver(turn, before, nodeId) { StoredIsGapFreeTable(after, nodeId, source, last); }
    case OthersTurn(source, writes) => OthersKeepGapFree(before, nodeId, source, writes);
  }

  lemma GapFreeBefore(nodeId: int, turns: seq<Turn>, tables: seq<Table>, n: nat)
    requires n < |turns| && Timeline(turns) && Trace(nodeId, turns, tables, |turns|)
    requires GapFree(tables[0], nodeId, turns[0].source)
    ensures AllGapFree(nodeId, turns, tables, n) ==> GapFree(tables[n], nodeId, turns[n].source)
  {
    if n > 0 && GapFree(tables[n], nodeId, turns[n - 1].source) {
      var last := LastIndexExists(tables[n], nodeId);
      PaymentsMoveOn(tables[n], nodeId, turns[n - 1].source, turns[n].source, last);
      StoredIsGapFreeTable(tables[n], nodeId, turns[n].source, last);
    }
  }

  /** Over every run the rows stay gap-free after each of the first n turns exactly when none of them takes over a
      row of another node. */
  lemma {:induction false} GapFreeAllAlongIff(nodeId: int, turns: seq<Turn>, tables: seq<Table>, n: nat)
    requires n <= |turns| && turns != [] && Timeline(turns) && Trace(nodeId, turns, tables, |turns|)
    requires GapFree(tables[0], nodeId, turns[0].source)
    ensures AllGapFree(nodeId, turns, tables, n) <==> NoneTakesOver(nodeId, turns, tables, n)
  {
    if n > 0 {
      var m := n - 1;
      GapFreeAllAlongIff(nodeId, turns, tables, m);
      GapFreeBefore(nodeId, turns, tables, m);
      if GapFree(tables[m], nodeId, turns[m].source) {
        TurnKeepsGapFreeIff(turns[m], nodeId, tables[m], tables[m + 1]);
      }
    }
  }
}
