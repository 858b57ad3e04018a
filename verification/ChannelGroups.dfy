/** The materialised view of internal/channel_groups/database.go: for each origin, the rows of the
    channel_group table that the corridor lookup switches on. */
module ChannelGroups {
  import opened Options
  import Corridors

  const CATEGORY_CORRIDOR := 0
  const TAG_CORRIDOR := 1

  datatype Channel = Channel(channelId: int, firstNodeId: int, secondNodeId: int)

  /** What a corridor is looked up for: a category, or a tag with its optional category. */
  datatype Subject = CategorySubject(id: int) | TagSubject(id: int, tagCategoryId: Option<int>)
  {
    function Origin(): int {
      if CategorySubject? then CATEGORY_CORRIDOR else TAG_CORRIDOR
    }

    function Key(fromNodeId: int, toNodeId: int, channelId: int): Corridors.CorridorKey {
      match this
      case CategorySubject(id) =>
        Corridors.CorridorKey(Corridors.CATEGORY, false, id, 0, 0, fromNodeId, channelId, 0, 0, toNodeId)
      case TagSubject(id, categoryId) =>
        Corridors.CorridorKey(Corridors.TAG, false, id, categoryId.GetOr(0), 0, fromNodeId, channelId, 0, 0, toNodeId)
    }

    function Row(nodeId: int, channelId: int): Row {
      match this
      case CategorySubject(id) => ChannelGroupRow(nodeId, channelId, CATEGORY_CORRIDOR, None, Some(id))
      case TagSubject(id, categoryId) => ChannelGroupRow(nodeId, channelId, TAG_CORRIDOR, Some(id), categoryId)
    }
  }

  predicate OfKind(subjects: seq<Subject>, origin: int) {
    forall j | 0 <= j < |subjects| :: subjects[j].Origin() == origin
  }

  datatype Row = ChannelGroupRow(nodeId: int, channelId: int, originId: int, tagId: Option<int>,
                                 categoryId: Option<int>)

  // ------------------------------------------------------------------ what the view should hold

  /** Whether a subject is on for a channel, seen from one endpoint towards the other:
      subject, from node, to node, channel. */
  type Switch = (Subject, int, int, int) -> bool

  ghost function SwitchedOn(rules: seq<Corridors.Corridor>): Switch {
    (s: Subject, from: int, to: int, channelId: int) => Corridors.BestCorridor(rules, s.Key(from, to, channelId)).flag == 1
  }

  /** The row is the one of an endpoint of a channel whose best corridor, seen from that endpoint, has flag 1. */
  ghost predicate WantedFor(row: Row, ch: Channel, s: Subject, on: Switch) {
    || (row == s.Row(ch.firstNodeId, ch.channelId) && on(s, ch.firstNodeId, ch.secondNodeId, ch.channelId))
    || (row == s.Row(ch.secondNodeId, ch.channelId) && on(s, ch.secondNodeId, ch.firstNodeId, ch.channelId))
  }

  ghost predicate WantedForChannel(row: Row, ch: Channel, subjects: seq<Subject>, on: Switch) {
    exists j :: 0 <= j < |subjects| && WantedFor(row, ch, subjects[j], on)
  }

  ghost predicate Wanted(row: Row, chans: seq<Channel>, subjects: seq<Subject>, on: Switch) {
    exists i :: 0 <= i < |chans| && WantedForChannel(row, chans[i], subjects, on)
  }

  // ------------------------------------------------------------------ what one run inserts, in order

  ghost function EndpointRows(on: Switch, s: Subject, from: int, to: int, channelId: int): seq<Row> {
    if on(s, from, to, channelId) then [s.Row(from, channelId)] else []
  }

  ghost function SubjectRows(on: Switch, s: Subject, ch: Channel): seq<Row> {
    EndpointRows(on, s, ch.firstNodeId, ch.secondNodeId, ch.channelId)
    + EndpointRows(on, s, ch.secondNodeId, ch.firstNodeId, ch.channelId)
  }

  /** f(0), ..., f(n - 1) one after the other. */
  ghost function Flatten<T>(f: nat -> seq<T>, n: nat): seq<T> {
    if n == 0 then [] else Flatten(f, n - 1) + f(n - 1)
  }

  /** The rows of a subject for a channel. */
  type PairRows = (Subject, Channel) -> seq<Row>

  ghost function RowsBy(on: Switch): PairRows {
    (s: Subject, ch: Channel) => SubjectRows(on, s, ch)
  }

  ghost function SubjectRowsAt(per: PairRows, subjects: seq<Subject>, ch: Channel): nat -> seq<Row> {
    (j: nat) => if j < |subjects| then per(subjects[j], ch) else []
  }

  ghost function ChannelRowsAt(per: PairRows, subjects: seq<Subject>, chans: seq<Channel>): nat -> seq<Row> {
    (i: nat) => if i < |chans| then Flatten(SubjectRowsAt(per, subjects, chans[i]), |subjects|) else []
  }

  ghost function AllRows(on: Switch, subjects: seq<Subject>, chans: seq<Channel>): seq<Row> {
    Flatten(ChannelRowsAt(RowsBy(on), subjects, chans), |chans|)
  }

  /** For every pair, the cache can be asked and answers as the rows say. */
  ghost predicate Answers(cache: Corridors.CorridorCacheByType, per: PairRows)
    reads cache
  {
    forall s, ch {:trigger SubjectRows(SwitchedOn(cache.rules), s, ch)} ::
      cache.Valid() && per(s, ch) == SubjectRows(SwitchedOn(cache.rules), s, ch)
  }

  lemma {:induction false} InFlatten<T>(f: nat -> seq<T>, n: nat, x: T)
    ensures x in Flatten(f, n) <==> exists i: nat :: i < n && x in f(i)
  {
    if n > 0 { InFlatten(f, n - 1, x); }
  }

  function OtherOrigins(rows: seq<Row>, origin: int): seq<Row> {
    if rows == [] then []
    else if rows[0].originId == origin then OtherOrigins(rows[1..], origin)
    else [rows[0]] + OtherOrigins(rows[1..], origin)
  }

  // ------------------------------------------------------------------ the unique key

  /** The unique constraint on channel, category and tag: a missing value differs from every other. The node is
      not part of it. */
  predicate SameKey(a: Row, b: Row) {
    && a.tagId.Some? && a.categoryId.Some?
    && a.channelId == b.channelId && a.tagId == b.tagId && a.categoryId == b.categoryId
  }

  ghost predicate KeysDistinct(rows: seq<Row>) {
    forall i, j | 0 <= i < j < |rows| :: !SameKey(rows[i], rows[j])
  }

  predicate KeyTaken(rows: seq<Row>, row: Row) {
    exists i :: 0 <= i < |rows| && SameKey(rows[i], row)
  }

  /** An open transaction: whether it goes on, the rows it sees, and the ordinal of its next statement. */
  datatype Progress = Progress(ok: bool, rows: seq<Row>, statement: nat)

  /** One insert a row, in order, each with the next ordinal: all of them go through, or the first one that fails
      by itself or finds its key taken is the last. */
  ghost predicate Inserted(start: Progress, rows: seq<Row>, failing: Option<nat>, p: Progress) {
    var n := p.statement - start.statement;
    && 0 <= n <= |rows| && p.rows == start.rows + rows[..n]
    && (KeysDistinct(start.rows) ==> KeysDistinct(p.rows))
    && (failing.Some? ==> !(start.statement <= failing.value < p.statement))
    && if p.ok then n == |rows| else n < |rows| && (failing == Some(p.statement) || KeyTaken(p.rows, rows[n]))
  }

  lemma InsertedMore(start: Progress, a: seq<Row>, middle: Progress, b: seq<Row>, failing: Option<nat>, p: Progress)
    requires Inserted(start, a, failing, middle)
    requires if middle.ok then Inserted(middle, b, failing, p) else p == middle
    ensures Inserted(start, a + b, failing, p)
  {
    var n := p.statement - start.statement;
    if middle.ok {
      assert (a + b)[..n] == a + b[..n - |a|];
    } else {
      assert (a + b)[..n] == a[..n];
    }
  }

  lemma {:induction false} StoppedInFlatten(start: Progress, f: nat -> seq<Row>, m: nat, n: nat, failing: Option<nat>,
                                            p: Progress)
    requires m <= n && !p.ok && Inserted(start, Flatten(f, m), failing, p)
    ensures Inserted(start, Flatten(f, n), failing, p)
  {
    if m < n {
      StoppedInFlatten(start, f, m, n - 1, failing, p);
      InsertedMore(start, Flatten(f, n - 1), p, f(n - 1), failing, p);
    }
  }

  /** One part more; when it stops the inserts, that is the outcome of all n parts. */
  lemma InsertedPart(start: Progress, f: nat -> seq<Row>, i: nat, n: nat, before: Progress, failing: Option<nat>,
                     p: Progress)
    requires i < n && before.ok && Inserted(start, Flatten(f, i), failing, before) && Inserted(before, f(i), failing, p)
    ensures Inserted(start, Flatten(f, i + 1), failing, p)
    ensures !p.ok ==> Inserted(start, Flatten(f, n), failing, p)
  {
    InsertedMore(start, Flatten(f, i), before, f(i), failing, p);
    if !p.ok { StoppedInFlatten(start, f, i + 1, n, failing, p); }
  }

  /** Neither the statements of the rows nor their keys stop the inserts. */
  ghost predicate GoThrough(start: seq<Row>, rows: seq<Row>, failing: Option<nat>, first: nat) {
    KeysDistinct(start + rows) && (failing.Some? ==> !(first <= failing.value < first + |rows|))
  }

  /** All rows are inserted exactly when no statement among theirs fails and the keys stay distinct. */
  lemma InsertedIff(start: Progress, rows: seq<Row>, failing: Option<nat>, p: Progress)
    requires KeysDistinct(start.rows) && Inserted(start, rows, failing, p)
    ensures p.ok <==> GoThrough(start.rows, rows, failing, start.statement)
    ensures p.ok ==> p.rows == start.rows + rows
  {
    var n := p.statement - start.statement;
    if p.ok {
      assert rows[..n] == rows;
    } else if failing != Some(p.statement) {
      var all := start.rows + rows;
      KeysOfExtended(p.rows, rows[n]);
      assert all == p.rows + [rows[n]] + rows[n + 1..];
      KeysOfConcat(p.rows + [rows[n]], rows[n + 1..]);
    }
  }

  lemma KeysOfExtended(rows: seq<Row>, row: Row)
    ensures KeysDistinct(rows + [row]) <==> KeysDistinct(rows) && !KeyTaken(rows, row)
  {
    var all := rows + [row];
    if KeysDistinct(all) {
      forall i | 0 <= i < |rows|
        ensures !SameKey(rows[i], row)
      {
        assert !SameKey(all[i], all[|rows|]);
      }
      assert forall i, j | 0 <= i < j < |rows| :: rows[i] == all[i] && rows[j] == all[j];
    }
  }

  // ------------------------------------------------------------------ the run

  ghost function OwnRows(origin: int, chans: seq<Channel>, categories: seq<Subject>, tags: seq<Subject>,
                         categoryOn: Switch, tagOn: Switch): seq<Row> {
    if origin == CATEGORY_CORRIDOR then AllRows(categoryOn, categories, chans)
    else if origin == TAG_CORRIDOR then AllRows(tagOn, tags, chans)
    else []
  }

  /** The table after a run in which no statement fails but for a taken key. */
  ghost function TableAfter(before: seq<Row>, origin: int, own: seq<Row>): seq<Row> {
    var attempted := OtherOrigins(before, origin) + own;
    if KeysDistinct(attempted) then attempted else before
  }

  /** The ordinal of the commit: listing the channels, beginning the transaction and deleting the origin's rows
      come first, then, for a known origin, listing its subjects and one insert a row. */
  function CommitOrdinal(origin: int, inserts: nat): nat {
    if origin == CATEGORY_CORRIDOR || origin == TAG_CORRIDOR then 4 + inserts else 3
  }

  ghost predicate OnlyTagOriginHasTags(rows: seq<Row>) {
    forall i | 0 <= i < |rows| && rows[i].tagId.Some? :: rows[i].originId == TAG_CORRIDOR
  }

  /** A run commits exactly when the unique key allows all rows and no statement up to the commit fails; then the
      origin's rows are replaced by these, and otherwise the table is as before. */
  ghost predicate RunLeaves(before: seq<Row>, origin: int, own: seq<Row>, failing: Option<nat>, ok: bool, after: seq<Row>) {
    var attempted := OtherOrigins(before, origin) + own;
    && after == (if ok then attempted else before)
    && (ok <==> KeysDistinct(attempted) && (failing.Some? ==> failing.value > CommitOrdinal(origin, |own|)))
    && (failing.None? ==> after == TableAfter(before, origin, own))
  }

  class ChannelGroupTable {
    var rows: seq<Row>

    /** The table keeps its unique key, and only the tag origin ever inserts a tag. */
    ghost predicate Valid()
      reads this
    {
      KeysDistinct(rows) && OnlyTagOriginHasTags(rows)
    }

    constructor ()
      ensures Valid() && rows == []
    {
      rows := [];
    }

    /** One generation run for an origin, as one transaction. `failing` is the ordinal of a database statement
        that fails whatever the rows are, if there is one; after any failure the rows are as before the run. */
    method GenerateChannelGroupsByOrigin(
      origin: int, chans: seq<Channel>, categories: seq<Subject>, tags: seq<Subject>,
      categoryCache: Corridors.CorridorCacheByType, tagCache: Corridors.CorridorCacheByType, failing: Option<nat>)
      returns (ok: bool)
      requires Valid() && categoryCache.Valid() && tagCache.Valid()
      requires OfKind(categories, CATEGORY_CORRIDOR) && OfKind(tags, TAG_CORRIDOR)
      modifies this
      ensures Valid()
      ensures var categoryOn, tagOn := SwitchedOn(categoryCache.rules), SwitchedOn(tagCache.rules);
              var own := OwnRows(origin, chans, categories, tags, categoryOn, tagOn);
              && RunLeaves(old(rows), origin, own, failing, ok, rows)
              && (failing.None? && DistinctIds(chans, tags) ==>
                    (ok <==> origin == TAG_CORRIDOR ==> !SomeTagOnFromBothEnds(chans, tags, tagOn)))
      ensures ok ==> ViewByFields(old(rows), rows, origin, chans, categories, tags, categoryCache.rules, tagCache.rules)
    {
      CommittedByFields(rows, origin, chans, categories, tags, categoryCache.rules, tagCache.rules);
      ghost var own := OwnRows(origin, chans, categories, tags, SwitchedOn(categoryCache.rules), SwitchedOn(tagCache.rules));
      AttemptKeepsValid(rows, origin, chans, categories, tags, SwitchedOn(categoryCache.rules), SwitchedOn(tagCache.rules));
      if failing == Some(0) || failing == Some(1) || failing == Some(2) {
        FailsBeforeInserts(rows, origin, own, failing);
        return false; // listing the channels, beginning the transaction or deleting the origin's rows failed
      }
      var p := Attempt(rows, origin, chans, categories, tags, categoryCache, tagCache, failing, own);
      ok, rows := Commit(rows, origin, failing, p, own);
    }
  }

  /** The commit of what was attempted, unless the transaction was rolled back or the commit fails. */
  method Commit(before: seq<Row>, origin: int, failing: Option<nat>, p: Progress, ghost own: seq<Row>)
    returns (ok: bool, after: seq<Row>)
    requires failing.Some? ==> failing.value >= 3
    requires p.ok <==> KeysDistinct(OtherOrigins(before, origin) + own)
                       && (failing.Some? ==> !(3 <= failing.value < CommitOrdinal(origin, |own|)))
    requires p.ok ==> p.rows == OtherOrigins(before, origin) + own && p.statement == CommitOrdinal(origin, |own|)
    ensures RunLeaves(before, origin, own, failing, ok, after)
  {
    if !p.ok || failing == Some(p.statement) {
      return false, before;
    }
    return true, p.rows;
  }

  lemma FailsBeforeInserts(before: seq<Row>, origin: int, own: seq<Row>, failing: Option<nat>)
    requires failing.Some? && failing.value < 3
    ensures RunLeaves(before, origin, own, failing, false, before)
  {
  }

  /** The statements of the transaction after the delete and before the commit. */
  method Attempt(before: seq<Row>, origin: int, chans: seq<Channel>, categories: seq<Subject>, tags: seq<Subject>,
                 categoryCache: Corridors.CorridorCacheByType, tagCache: Corridors.CorridorCacheByType,
                 failing: Option<nat>, ghost own: seq<Row>)
    returns (p: Progress)
    requires KeysDistinct(before) && categoryCache.Valid() && tagCache.Valid()
    requires own == OwnRows(origin, chans, categories, tags, SwitchedOn(categoryCache.rules), SwitchedOn(tagCache.rules))
    ensures p.ok <==> KeysDistinct(OtherOrigins(before, origin) + own)
                      && (failing.Some? ==> !(3 <= failing.value < CommitOrdinal(origin, |own|)))
    ensures p.ok ==> p.rows == OtherOrigins(before, origin) + own && p.statement == CommitOrdinal(origin, |own|)
  {
    KeysOfOthers(before, origin);
    p := Progress(true, OtherOrigins(before, origin), 3);
    ghost var listed := Progress(true, OtherOrigins(before, origin), 4);
    if origin == CATEGORY_CORRIDOR {
      p := InsertRows(chans, categories, categoryCache, p, failing, RowsBy(SwitchedOn(categoryCache.rules)));
    } else if origin == TAG_CORRIDOR {
      p := InsertRows(chans, tags, tagCache, p, failing, RowsBy(SwitchedOn(tagCache.rules)));
    } else {
      assert OtherOrigins(before, origin) + own == OtherOrigins(before, origin);
    }
    if failing != Some(3) && (origin == CATEGORY_CORRIDOR || origin == TAG_CORRIDOR) {
      InsertedIff(listed, own, failing, p);
    }
  }

  /** Lists the subjects and inserts the rows of every channel and subject into the open transaction. */
  method InsertRows(chans: seq<Channel>, subjects: seq<Subject>, cache: Corridors.CorridorCacheByType, start: Progress,
                    failing: Option<nat>, ghost per: PairRows)
    returns (p: Progress)
    requires Answers(cache, per) && start.ok
    ensures if failing == Some(start.statement) then p == start.(ok := false)
            else Inserted(start.(statement := start.statement + 1),
                          Flatten(ChannelRowsAt(per, subjects, chans), |chans|), failing, p)
  {
    if failing == Some(start.statement) {
      return start.(ok := false);
    }
    ghost var f := ChannelRowsAt(per, subjects, chans);
    forall i: nat | i < |chans|
      ensures RowsOfChannel(f(i), per, subjects, chans[i])
    {
      ChannelPart(per, subjects, chans, i);
    }
    p := InsertListed(chans, subjects, cache, start.(statement := start.statement + 1), failing, per, f);
  }

  method InsertListed(chans: seq<Channel>, subjects: seq<Subject>, cache: Corridors.CorridorCacheByType,
                      start: Progress,
                      failing: Option<nat>, ghost per: PairRows, ghost f: nat -> seq<Row>)
    returns (p: Progress)
    requires Answers(cache, per) && start.ok
    requires forall i: nat {:trigger RowsOfChannel(f(i), per, subjects, chans[i])} | i < |chans| ::
               RowsOfChannel(f(i), per, subjects, chans[i])
    ensures Inserted(start, Flatten(f, |chans|), failing, p)
  {
    p := start;
    for i := 0 to |chans|
      invariant p.ok && Inserted(start, Flatten(f, i), failing, p)
    {
      p := InsertNextChannel(chans[i], subjects, cache, p, failing, per, start, f, i, |chans|);
      if !p.ok {
        return;
      }
    }
  }

  /** The rows of channel i of n, after those of the channels before it. */
  method InsertNextChannel(ch: Channel, subjects: seq<Subject>, cache: Corridors.CorridorCacheByType, before: Progress,
                           failing: Option<nat>, ghost per: PairRows, ghost start: Progress, ghost f: nat -> seq<Row>,
                           ghost i: nat, ghost n: nat)
    returns (p: Progress)
    requires Answers(cache, per) && i < n && RowsOfChannel(f(i), per, subjects, ch)
    requires before.ok && Inserted(start, Flatten(f, i), failing, before)
    ensures Inserted(start, Flatten(f, i + 1), failing, p)
    ensures !p.ok ==> Inserted(start, Flatten(f, n), failing, p)
  {
    p := InsertChannelRows(ch, subjects, cache, before, failing, per, f(i));
    InsertedPart(start, f, i, n, before, failing, p);
  }

  ghost predicate RowsOfChannel(own: seq<Row>, per: PairRows, subjects: seq<Subject>, ch: Channel) {
    own == Flatten(SubjectRowsAt(per, subjects, ch), |subjects|)
  }

  lemma ChannelPart(per: PairRows, subjects: seq<Subject>, chans: seq<Channel>, i: nat)
    requires i < |chans|
    ensures RowsOfChannel(ChannelRowsAt(per, subjects, chans)(i), per, subjects, chans[i])
  {
  }

  method InsertChannelRows(ch: Channel, subjects: seq<Subject>, cache: Corridors.CorridorCacheByType, start: Progress,
                           failing: Option<nat>, ghost per: PairRows, ghost own: seq<Row>)
    returns (p: Progress)
    requires Answers(cache, per) && start.ok && RowsOfChannel(own, per, subjects, ch)
    ensures Inserted(start, own, failing, p)
  {
    ghost var f := SubjectRowsAt(per, subjects, ch);
    p := start;
    for j := 0 to |subjects|
      invariant p.ok && Inserted(start, Flatten(f, j), failing, p)
    {
      ghost var before := p;
      p := InsertSubjectRows(cache, subjects[j], ch, p, failing, per);
      InsertedPart(start, f, j, |subjects|, before, failing, p);
      if !p.ok {
        return;
      }
    }
  }

  /** The channel is looked up from its first node towards its second, and then the other way round. */
  method InsertSubjectRows(cache: Corridors.CorridorCacheByType, s: Subject, ch: Channel, start: Progress,
                           failing: Option<nat>,
                           ghost per: PairRows)
    returns (p: Progress)
    requires Answers(cache, per) && start.ok
    ensures Inserted(start, per(s, ch), failing, p)
  {
    ghost var on := SwitchedOn(cache.rules);
    assert per(s, ch) == SubjectRows(on, s, ch);
    ghost var first := EndpointRows(on, s, ch.firstNodeId, ch.secondNodeId, ch.channelId);
    ghost var second := EndpointRows(on, s, ch.secondNodeId, ch.firstNodeId, ch.channelId);
    p := InsertEndpoint(cache, s, ch.firstNodeId, ch.secondNodeId, ch.channelId, start, failing);
    ghost var middle := p;
    if p.ok {
      p := InsertEndpoint(cache, s, ch.secondNodeId, ch.firstNodeId, ch.channelId, p, failing);
    }
    InsertedMore(start, first, middle, second, failing, p);
  }

  method InsertEndpoint(cache: Corridors.CorridorCacheByType, s: Subject, from: int, to: int, channelId: int,
                        start: Progress,
                        failing: Option<nat>)
    returns (p: Progress)
    requires cache.Valid() && start.ok
    ensures Inserted(start, EndpointRows(SwitchedOn(cache.rules), s, from, to, channelId), failing, p)
  {
    var active := cache.GetBestCorridorStatus(s.Key(from, to, channelId));
    p := InsertRow(s.Row(from, channelId), active, start, failing);
  }

  method InsertRow(row: Row, active: bool, start: Progress, failing: Option<nat>) returns (p: Progress)
    requires start.ok
    ensures Inserted(start, if active then [row] else [], failing, p)
  {
    p := start;
    if active {
      if failing == Some(start.statement) || KeyTaken(start.rows, row) {
        return start.(ok := false);
      }
      KeysOfExtended(start.rows, row);
      p := Progress(true, start.rows + [row], start.statement + 1);
    }
  }

  // ------------------------------------------------------------------ the view is exact

  lemma ChannelRowsAreWanted(on: Switch, subjects: seq<Subject>, ch: Channel, row: Row)
    ensures row in Flatten(SubjectRowsAt(RowsBy(on), subjects, ch), |subjects|) <==> WantedForChannel(row, ch, subjects, on)
  {
    var f := SubjectRowsAt(RowsBy(on), subjects, ch);
    InFlatten(f, |subjects|, row);
    forall j: nat | j < |subjects|
      ensures row in f(j) <==> WantedFor(row, ch, subjects[j], on)
    {
      SubjectRowsAreWanted(on, subjects[j], ch, row);
    }
  }

  lemma SubjectRowsAreWanted(on: Switch, s: Subject, ch: Channel, row: Row)
    ensures row in SubjectRows(on, s, ch) <==> WantedFor(row, ch, s, on)
  {
  }

  /** The rows inserted are exactly the wanted ones. */
  lemma InsertedRowsAreWanted(on: Switch, subjects: seq<Subject>, chans: seq<Channel>, row: Row)
    ensures row in AllRows(on, subjects, chans) <==> Wanted(row, chans, subjects, on)
  {
    var f := ChannelRowsAt(RowsBy(on), subjects, chans);
    InFlatten(f, |chans|, row);
    forall i: nat | i < |chans|
      ensures row in f(i) <==> WantedForChannel(row, chans[i], subjects, on)
    {
      ChannelRowsAreWanted(on, subjects, chans[i], row);
    }
  }

  /** Every row of other origins stays, in order and multiplicity, and none of this origin. */
  lemma {:induction false} OtherOriginsKept(rows: seq<Row>, origin: int, row: Row)
    ensures multiset(OtherOrigins(rows, origin))[row] == if row.originId == origin then 0 else multiset(rows)[row]
  {
    if rows != [] {
      OtherOriginsKept(rows[1..], origin, row);
      assert rows == [rows[0]] + rows[1..];
    }
  }

  lemma {:induction false} OtherOriginsOfConcat(a: seq<Row>, b: seq<Row>, origin: int)
    ensures OtherOrigins(a + b, origin) == OtherOrigins(a, origin) + OtherOrigins(b, origin)
  {
    if a == [] {
      assert a + b == b;
    } else {
      assert (a + b)[1..] == a[1..] + b;
      OtherOriginsOfConcat(a[1..], b, origin);
    }
  }

  lemma {:induction false} OtherOriginsOfOwn(rows: seq<Row>, origin: int, keep: bool)
    requires forall row | row in rows :: (row.originId == origin) != keep
    ensures OtherOrigins(rows, origin) == if keep then rows else []
  {
    if rows != [] {
      assert rows[0] in rows;
      OtherOriginsOfOwn(rows[1..], origin, keep);
    }
  }

  lemma OthersAreForeign(rows: seq<Row>, origin: int)
    ensures forall row | row in OtherOrigins(rows, origin) :: row in rows && row.originId != origin
  {
    forall row | row in OtherOrigins(rows, origin)
      ensures row in rows && row.originId != origin
    {
      OtherOriginsKept(rows, origin, row);
      assert multiset(OtherOrigins(rows, origin))[row] > 0;
    }
  }

  lemma InsertedRowsAreOwn(on: Switch, subjects: seq<Subject>, chans: seq<Channel>, origin: int)
    requires OfKind(subjects, origin)
    ensures forall row | row in AllRows(on, subjects, chans) ::
              row.originId == origin && (row.tagId.Some? ==> origin == TAG_CORRIDOR)
  {
    forall row | row in AllRows(on, subjects, chans)
      ensures row.originId == origin && (row.tagId.Some? ==> origin == TAG_CORRIDOR)
    {
      InsertedRowsAreWanted(on, subjects, chans, row);
    }
  }

  /** The table after a run, as a set: the wanted rows of this origin and every row of the others when the keys
      allow it, and what it was before when they do not. */
  lemma ViewIsExact(before: seq<Row>, on: Switch, subjects: seq<Subject>, chans: seq<Channel>, origin: int, row: Row)
    requires OfKind(subjects, origin)
    ensures var own := AllRows(on, subjects, chans);
            row in TableAfter(before, origin, own)
            <==> if row.originId == origin && KeysDistinct(OtherOrigins(before, origin) + own)
                 then Wanted(row, chans, subjects, on)
                 else row in before
  {
    InsertedRowsAreWanted(on, subjects, chans, row);
    OtherOriginsKept(before, origin, row);
    assert row in OtherOrigins(before, origin) <==> multiset(OtherOrigins(before, origin))[row] > 0;
    assert row in before <==> multiset(before)[row] > 0;
  }

  /** A second run on the same rules leaves the table exactly as the first one left it, whether that one
      committed or not. */
  lemma SecondRunChangesNothing(before: seq<Row>, on: Switch, subjects: seq<Subject>, chans: seq<Channel>, origin: int)
    requires OfKind(subjects, origin)
    ensures var own := AllRows(on, subjects, chans);
            var once := TableAfter(before, origin, own);
            TableAfter(once, origin, own) == once
  {
    var others, own := OtherOrigins(before, origin), AllRows(on, subjects, chans);
    OthersAreForeign(before, origin);
    InsertedRowsAreOwn(on, subjects, chans, origin);
    OthersAfterRun(others, own, origin);
  }

  lemma OthersAfterRun(others: seq<Row>, own: seq<Row>, origin: int)
    requires forall row | row in others :: row.originId != origin
    requires forall row | row in own :: row.originId == origin
    ensures OtherOrigins(others + own, origin) == others
  {
    OtherOriginsOfConcat(others, own, origin);
    OtherOriginsOfOwn(others, origin, true);
    OtherOriginsOfOwn(own, origin, false);
    assert others + [] == others;
  }

  // ------------------------------------------------------------------ the view by the names of its columns

  /** Of the rules for a reference, the heaviest that fits this end of the channel has flag 1. The end is given by
      its node, the node at the other end and the channel; a tag's category counts as the end's from-category. */
  ghost predicate EndIsOn(rules: seq<Corridors.Corridor>, corridorType: Corridors.CorridorType, referenceId: int,
                          categoryId: int, nodeId: int, otherNodeId: int, channelId: int) {
    exists i ::
      && Corridors.Decides(rules, Corridors.CorridorKey(
           corridorType := corridorType, inverse := false, referenceId := referenceId, fromCategoryId := categoryId,
           fromTagId := 0, fromNodeId := nodeId, channelId := channelId, toCategoryId := 0, toTagId := 0,
           toNodeId := otherNodeId), i)
      && rules[i].flag == 1
  }

  /** The row is one end of the channel with the category, and that end is on. */
  ghost predicate CategoryRow(row: Row, ch: Channel, categoryId: int, rules: seq<Corridors.Corridor>) {
    && row.channelId == ch.channelId && row.originId == 0 && row.categoryId == Some(categoryId) && row.tagId == None
    && (|| (row.nodeId == ch.firstNodeId
            && EndIsOn(rules, Corridors.CATEGORY, categoryId, 0, ch.firstNodeId, ch.secondNodeId, ch.channelId))
        || (row.nodeId == ch.secondNodeId
            && EndIsOn(rules, Corridors.CATEGORY, categoryId, 0, ch.secondNodeId, ch.firstNodeId, ch.channelId)))
  }

  /** The row is one end of the channel with the tag and the tag's category, if it has one, and that end is on. */
  ghost predicate TagRow(row: Row, ch: Channel, tagId: int, tagCategoryId: Option<int>, rules: seq<Corridors.Corridor>) {
    var categoryId := if tagCategoryId.Some? then tagCategoryId.value else 0;
    && row.channelId == ch.channelId && row.originId == 1 && row.categoryId == tagCategoryId && row.tagId == Some(tagId)
    && (|| (row.nodeId == ch.firstNodeId
            && EndIsOn(rules, Corridors.TAG, tagId, categoryId, ch.firstNodeId, ch.secondNodeId, ch.channelId))
        || (row.nodeId == ch.secondNodeId
            && EndIsOn(rules, Corridors.TAG, tagId, categoryId, ch.secondNodeId, ch.firstNodeId, ch.channelId)))
  }

  ghost predicate SomeCategoryRow(row: Row, chans: seq<Channel>, categories: seq<Subject>, rules: seq<Corridors.Corridor>) {
    exists i, j :: 0 <= i < |chans| && 0 <= j < |categories| && categories[j].CategorySubject?
                   && CategoryRow(row, chans[i], categories[j].id, rules)
  }

  ghost predicate SomeTagRow(row: Row, chans: seq<Channel>, tags: seq<Subject>, rules: seq<Corridors.Corridor>) {
    exists i, j :: 0 <= i < |chans| && 0 <= j < |tags| && tags[j].TagSubject?
                   && TagRow(row, chans[i], tags[j].id, tags[j].tagCategoryId, rules)
  }

  lemma SwitchByFields(rules: seq<Corridors.Corridor>, s: Subject, from: int, to: int, channelId: int)
    requires Corridors.OneType(rules)
    ensures s.CategorySubject? ==>
              (SwitchedOn(rules)(s, from, to, channelId) <==> EndIsOn(rules, Corridors.CATEGORY, s.id, 0, from, to, channelId))
    ensures s.TagSubject? ==>
              (SwitchedOn(rules)(s, from, to, channelId)
               <==> EndIsOn(rules, Corridors.TAG, s.id, s.tagCategoryId.GetOr(0), from, to, channelId))
  {
    Corridors.AnswerByFields(rules, s.Key(from, to, channelId));
  }

  lemma WantedByFields(rules: seq<Corridors.Corridor>, row: Row, ch: Channel, s: Subject)
    requires Corridors.OneType(rules)
    ensures s.CategorySubject? ==> (WantedFor(row, ch, s, SwitchedOn(rules)) <==> CategoryRow(row, ch, s.id, rules))
    ensures s.TagSubject? ==> (WantedFor(row, ch, s, SwitchedOn(rules)) <==> TagRow(row, ch, s.id, s.tagCategoryId, rules))
  {
    SwitchByFields(rules, s, ch.firstNodeId, ch.secondNodeId, ch.channelId);
    SwitchByFields(rules, s, ch.secondNodeId, ch.firstNodeId, ch.channelId);
  }

  lemma SomeWantedByFields(rules: seq<Corridors.Corridor>, row: Row, chans: seq<Channel>, subjects: seq<Subject>)
    requires Corridors.OneType(rules)
    ensures OfKind(subjects, CATEGORY_CORRIDOR) ==>
              (Wanted(row, chans, subjects, SwitchedOn(rules)) <==> SomeCategoryRow(row, chans, subjects, rules))
    ensures OfKind(subjects, TAG_CORRIDOR) ==>
              (Wanted(row, chans, subjects, SwitchedOn(rules)) <==> SomeTagRow(row, chans, subjects, rules))
  {
    forall i, j | 0 <= i < |chans| && 0 <= j < |subjects|
      ensures subjects[j].CategorySubject? ==>
                (WantedFor(row, chans[i], subjects[j], SwitchedOn(rules)) <==> CategoryRow(row, chans[i], subjects[j].id, rules))
      ensures subjects[j].TagSubject? ==>
                (WantedFor(row, chans[i], subjects[j], SwitchedOn(rules))
                 <==> TagRow(row, chans[i], subjects[j].id, subjects[j].tagCategoryId, rules))
    {
      WantedByFields(rules, row, chans[i], subjects[j]);
    }
    forall i | 0 <= i < |chans|
      ensures WantedForChannel(row, chans[i], subjects, SwitchedOn(rules))
              <==> exists j :: 0 <= j < |subjects| && WantedFor(row, chans[i], subjects[j], SwitchedOn(rules))
    {
    }
  }

  /** What a run for an origin leaves, column by column: its own rows are the ends that are on, and the rows of the
      other origins are those from before. */
  ghost predicate ViewByFields(before: seq<Row>, after: seq<Row>, origin: int, chans: seq<Channel>,
                               categories: seq<Subject>, tags: seq<Subject>,
                               categoryRules: seq<Corridors.Corridor>, tagRules: seq<Corridors.Corridor>) {
    forall row :: row in after <==>
      if row.originId != origin then row in before
      else || (origin == 0 && SomeCategoryRow(row, chans, categories, categoryRules))
           || (origin == 1 && SomeTagRow(row, chans, tags, tagRules))
  }

  lemma CommittedByFields(before: seq<Row>, origin: int, chans: seq<Channel>, categories: seq<Subject>,
                          tags: seq<Subject>, categoryRules: seq<Corridors.Corridor>, tagRules: seq<Corridors.Corridor>)
    requires OfKind(categories, CATEGORY_CORRIDOR) && OfKind(tags, TAG_CORRIDOR)
    requires Corridors.OneType(categoryRules) && Corridors.OneType(tagRules)
    ensures var own := OwnRows(origin, chans, categories, tags, SwitchedOn(categoryRules), SwitchedOn(tagRules));
            ViewByFields(before, OtherOrigins(before, origin) + own, origin, chans, categories, tags, categoryRules, tagRules)
  {
    var own := OwnRows(origin, chans, categories, tags, SwitchedOn(categoryRules), SwitchedOn(tagRules));
    forall row
      ensures row in OtherOrigins(before, origin) <==> row in before && row.originId != origin
    {
      OtherOriginsKept(before, origin, row);
      assert row in before <==> multiset(before)[row] > 0;
      assert row in OtherOrigins(before, origin) <==> multiset(OtherOrigins(before, origin))[row] > 0;
    }
    forall row
      ensures row in own <==> || (origin == 0 && SomeCategoryRow(row, chans, categories, categoryRules))
                              || (origin == 1 && SomeTagRow(row, chans, tags, tagRules))
    {
      InsertedRowsAreWanted(SwitchedOn(categoryRules), categories, chans, row);
      InsertedRowsAreWanted(SwitchedOn(tagRules), tags, chans, row);
      SomeWantedByFields(categoryRules, row, chans, categories);
      SomeWantedByFields(tagRules, row, chans, tags);
    }
  }

  // ------------------------------------------------------------------ when a run commits

  ghost predicate DistinctIds(chans: seq<Channel>, subjects: seq<Subject>) {
    && (forall i, j | 0 <= i < j < |chans| :: chans[i].channelId != chans[j].channelId)
    && (forall i, j | 0 <= i < j < |subjects| :: subjects[i].id != subjects[j].id)
  }

  /** A tag with a category is on for the channel from its first node and from its second. */
  ghost predicate OnFromBothEnds(ch: Channel, s: Subject, on: Switch) {
    && s.TagSubject? && s.tagCategoryId.Some?
    && on(s, ch.firstNodeId, ch.secondNodeId, ch.channelId)
    && on(s, ch.secondNodeId, ch.firstNodeId, ch.channelId)
  }

  ghost predicate ClashOn(ch: Channel, subjects: seq<Subject>, on: Switch) {
    exists j :: 0 <= j < |subjects| && OnFromBothEnds(ch, subjects[j], on)
  }

  ghost predicate SomeTagOnFromBothEnds(chans: seq<Channel>, subjects: seq<Subject>, on: Switch) {
    exists i :: 0 <= i < |chans| && ClashOn(chans[i], subjects, on)
  }

  lemma KeysOfConcat(a: seq<Row>, b: seq<Row>)
    ensures KeysDistinct(a + b) ==> KeysDistinct(a) && KeysDistinct(b)
    ensures KeysDistinct(a) && KeysDistinct(b) && (forall x, y | x in a && y in b :: !SameKey(x, y)) ==> KeysDistinct(a + b)
  {
    var all := a + b;
    if KeysDistinct(all) {
      assert forall i | 0 <= i < |a| :: a[i] == all[i];
      forall i, j | 0 <= i < j < |b|
        ensures !SameKey(b[i], b[j])
      {
        assert !SameKey(all[|a| + i], all[|a| + j]);
      }
    }
    if KeysDistinct(a) && KeysDistinct(b) && forall x, y | x in a && y in b :: !SameKey(x, y) {
      forall i, j | 0 <= i < j < |all|
        ensures !SameKey(all[i], all[j])
      {
        if i < |a| <= j { assert a[i] in a && b[j - |a|] in b; }
      }
    }
  }

  /** Parts whose rows never share a key across parts: distinct keys in the whole are distinct keys in each part. */
  lemma {:induction false} KeysOfFlatten(f: nat -> seq<Row>, n: nat)
    requires forall i: nat, j: nat, x, y | i < j < n && x in f(i) && y in f(j) :: !SameKey(x, y)
    ensures KeysDistinct(Flatten(f, n)) <==> forall i: nat | i < n :: KeysDistinct(f(i))
  {
    if n > 0 {
      KeysOfFlatten(f, n - 1);
      var earlier, last := Flatten(f, n - 1), f(n - 1);
      forall x, y | x in earlier && y in last
        ensures !SameKey(x, y)
      {
        InFlatten(f, n - 1, x);
      }
      KeysOfConcat(earlier, last);
    }
  }

  lemma KeysOfSubject(on: Switch, s: Subject, ch: Channel)
    ensures KeysDistinct(SubjectRows(on, s, ch)) <==> !OnFromBothEnds(ch, s, on)
  {
    var rows := SubjectRows(on, s, ch);
    if OnFromBothEnds(ch, s, on) {
      assert SameKey(rows[0], rows[1]);
    }
  }

  lemma KeysOfChannel(on: Switch, subjects: seq<Subject>, ch: Channel)
    requires forall i, j | 0 <= i < j < |subjects| :: subjects[i].id != subjects[j].id
    ensures KeysDistinct(Flatten(SubjectRowsAt(RowsBy(on), subjects, ch), |subjects|)) <==> !ClashOn(ch, subjects, on)
  {
    var f := SubjectRowsAt(RowsBy(on), subjects, ch);
    forall i: nat, j: nat, x, y | i < j < |subjects| && x in f(i) && y in f(j)
      ensures !SameKey(x, y)
    {
      SubjectRowsAreWanted(on, subjects[i], ch, x);
      SubjectRowsAreWanted(on, subjects[j], ch, y);
    }
    KeysOfFlatten(f, |subjects|);
    forall j: nat | j < |subjects|
      ensures KeysDistinct(f(j)) <==> !OnFromBothEnds(ch, subjects[j], on)
    {
      KeysOfSubject(on, subjects[j], ch);
    }
  }

  /** With distinct channels and subjects the rows to insert have distinct keys exactly when no tag with a
      category is on for a channel from both its ends. */
  lemma RowsInsertedOnce(on: Switch, subjects: seq<Subject>, chans: seq<Channel>)
    requires DistinctIds(chans, subjects)
    ensures KeysDistinct(AllRows(on, subjects, chans)) <==> !SomeTagOnFromBothEnds(chans, subjects, on)
  {
    var f := ChannelRowsAt(RowsBy(on), subjects, chans);
    forall i: nat, j: nat, x, y | i < j < |chans| && x in f(i) && y in f(j)
      ensures !SameKey(x, y)
    {
      ChannelRowsAreWanted(on, subjects, chans[i], x);
      ChannelRowsAreWanted(on, subjects, chans[j], y);
    }
    KeysOfFlatten(f, |chans|);
    forall i: nat | i < |chans|
      ensures KeysDistinct(f(i)) <==> !ClashOn(chans[i], subjects, on)
    {
      KeysOfChannel(on, subjects, chans[i]);
    }
  }

  lemma {:induction false} KeysOfOthers(rows: seq<Row>, origin: int)
    requires KeysDistinct(rows)
    ensures KeysDistinct(OtherOrigins(rows, origin))
  {
    if rows != [] {
      assert rows == [rows[0]] + rows[1..];
      KeysOfConcat([rows[0]], rows[1..]);
      KeysOfOthers(rows[1..], origin);
      OthersAreForeign(rows[1..], origin);
      forall y | y in OtherOrigins(rows[1..], origin)
        ensures !SameKey(rows[0], y)
      {
        var j :| 0 <= j < |rows[1..]| && rows[1..][j] == y;
        assert !SameKey(rows[0], rows[j + 1]);
      }
      KeysOfConcat([rows[0]], OtherOrigins(rows[1..], origin));
    }
  }

  /** On a table whose tags all belong to the tag origin, a run without other failures commits exactly when no
      tag with a category is on from both ends of a channel; a run for the categories always does. */
  lemma CommitsIff(before: seq<Row>, on: Switch, subjects: seq<Subject>, chans: seq<Channel>, origin: int)
    requires origin == CATEGORY_CORRIDOR || origin == TAG_CORRIDOR
    requires OfKind(subjects, origin) && KeysDistinct(before)
    requires OnlyTagOriginHasTags(before)
    ensures KeysDistinct(OtherOrigins(before, origin) + AllRows(on, subjects, chans))
            <==> KeysDistinct(AllRows(on, subjects, chans))
    ensures origin == CATEGORY_CORRIDOR ==> KeysDistinct(AllRows(on, subjects, chans))
    ensures DistinctIds(chans, subjects) ==>
              (KeysDistinct(AllRows(on, subjects, chans)) <==> !SomeTagOnFromBothEnds(chans, subjects, on))
  {
    var others, own := OtherOrigins(before, origin), AllRows(on, subjects, chans);
    KeysOfOthers(before, origin);
    OthersAreForeign(before, origin);
    InsertedRowsAreOwn(on, subjects, chans, origin);
    forall x, y | x in others && y in own
      ensures !SameKey(x, y)
    {
      var i :| 0 <= i < |before| && before[i] == x;
    }
    KeysOfConcat(others, own);
    if DistinctIds(chans, subjects) { RowsInsertedOnce(on, subjects, chans); }
  }

  /** What a run attempts, for any origin. */
  lemma AttemptKeepsValid(before: seq<Row>, origin: int, chans: seq<Channel>, categories: seq<Subject>,
                          tags: seq<Subject>,
                          categoryOn: Switch, tagOn: Switch)
    requires KeysDistinct(before)
    requires OnlyTagOriginHasTags(before)
    requires OfKind(categories, CATEGORY_CORRIDOR) && OfKind(tags, TAG_CORRIDOR)
    ensures var attempted := OtherOrigins(before, origin) + OwnRows(origin, chans, categories, tags, categoryOn, tagOn);
            && OnlyTagOriginHasTags(attempted)
            && (DistinctIds(chans, tags) ==>
                  (KeysDistinct(attempted) <==> origin == TAG_CORRIDOR ==> !SomeTagOnFromBothEnds(chans, tags, tagOn)))
  {
    var own, others := OwnRows(origin, chans, categories, tags, categoryOn, tagOn), OtherOrigins(before, origin);
    OthersAreForeign(before, origin);
    if origin == CATEGORY_CORRIDOR {
      InsertedRowsAreOwn(categoryOn, categories, chans, origin);
      CommitsIff(before, categoryOn, categories, chans, origin);
    } else if origin == TAG_CORRIDOR {
      InsertedRowsAreOwn(tagOn, tags, chans, origin);
      CommitsIff(before, tagOn, tags, chans, origin);
    } else {
      KeysOfOthers(before, origin);
      assert others + own == others;
    }
    var attempted := others + own;
    forall i | 0 <= i < |attempted| && attempted[i].tagId.Some?
      ensures attempted[i].originId == TAG_CORRIDOR
    {
      assert attempted[i] in attempted;
      assert attempted[i] in others || attempted[i] in own;
    }
  }

  ghost predicate UnrestrictedTagRule(rule: Corridors.Corridor, tagId: int) {
    && rule.corridorTypeId == Corridors.TAG.corridorTypeId && rule.referenceId == Some(tagId)
    && rule.flag == 1 && !rule.inverse && forall f :: !rule.Populated(f)
  }

  /** One unrestricted rule for a tag with a category makes every run for the tags fail as soon as there is
      a channel: both its ends are switched on. */
  lemma UnrestrictedTagRuleNeverCommits(before: seq<Row>, rule: Corridors.Corridor, tags: seq<Subject>,
                                        chans: seq<Channel>,
                                        i: nat, j: nat)
    requires i < |chans| && j < |tags| && tags[j].TagSubject? && tags[j].tagCategoryId.Some?
    requires UnrestrictedTagRule(rule, tags[j].id)
    requires DistinctIds(chans, tags) && OfKind(tags, TAG_CORRIDOR) && KeysDistinct(before)
    requires OnlyTagOriginHasTags(before)
    ensures TableAfter(before, TAG_CORRIDOR, AllRows(SwitchedOn([rule]), tags, chans)) == before
    ensures SomeTagOnFromBothEnds(chans, tags, SwitchedOn([rule]))
  {
    var ch := chans[i];
    UnrestrictedRuleIsBest(rule, tags[j].Key(ch.firstNodeId, ch.secondNodeId, ch.channelId));
    UnrestrictedRuleIsBest(rule, tags[j].Key(ch.secondNodeId, ch.firstNodeId, ch.channelId));
    assert OnFromBothEnds(ch, tags[j], SwitchedOn([rule]));
    assert ClashOn(chans[i], tags, SwitchedOn([rule]));
    CommitsIff(before, SwitchedOn([rule]), tags, chans, TAG_CORRIDOR);
  }

  lemma UnrestrictedRuleIsBest(rule: Corridors.Corridor, key: Corridors.CorridorKey)
    requires UnrestrictedTagRule(rule, key.referenceId)
    ensures Corridors.BestCorridor([rule], key) == rule
  {
    assert Corridors.IsBest([rule], key, 0);
    Corridors.BestIsAnswer([rule], key, 0);
  }

  // ------------------------------------------------------------------ rules that requests add

  /** A request to add a channel group for a tag: a node, and a channel or 0 for all of the node's channels. */
  datatype Request = Request(tagId: int, tagCategoryId: Option<int>, nodeId: int, channelId: int)

  /** The rule that the request adds is this one, whatever its id. */
  ghost predicate AddedBy(rule: Corridors.Corridor, r: Request) {
    && r.tagId != 0 && r.nodeId != 0
    && rule == Corridors.Corridor(rule.corridorId, Corridors.TAG.corridorTypeId, Some(r.tagId), 1, false,
                                  r.tagCategoryId, None, Some(r.nodeId),
                                  if r.channelId == 0 then None else Some(r.channelId), None, None, None)
  }

  ghost predicate AllAddedBy(rules: seq<Corridors.Corridor>, requests: seq<Request>) {
    |rules| == |requests| && forall i | 0 <= i < |rules| :: AddedBy(rules[i], requests[i])
  }

  /** The request is for this end of the channel and this tag, with the category that the tag has now if it had one. */
  predicate IsFor(r: Request, s: Subject, nodeId: int, channelId: int) {
    && s.TagSubject? && r.tagId == s.id && r.nodeId == nodeId
    && (r.tagCategoryId.GetOr(0) != 0 ==> r.tagCategoryId.GetOr(0) == s.tagCategoryId.GetOr(0))
    && (r.channelId != 0 ==> r.channelId == channelId)
  }

  ghost predicate EndRequested(requests: seq<Request>, s: Subject, nodeId: int, channelId: int) {
    exists i :: 0 <= i < |requests| && IsFor(requests[i], s, nodeId, channelId)
  }

  /** A tag with a category was requested for both ends of the channel. */
  ghost predicate BothEndsRequested(requests: seq<Request>, ch: Channel, s: Subject) {
    && s.TagSubject? && s.tagCategoryId.Some?
    && EndRequested(requests, s, ch.firstNodeId, ch.channelId) && EndRequested(requests, s, ch.secondNodeId, ch.channelId)
  }

  lemma RequestMatchesIff(rule: Corridors.Corridor, r: Request, s: Subject, from: int, to: int, channelId: int)
    requires AddedBy(rule, r) && s.TagSubject?
    ensures Corridors.Matches(rule, s.Key(from, to, channelId)) <==> IsFor(r, s, from, channelId)
  {
    var key := s.Key(from, to, channelId);
    assert rule.Field(Corridors.FromCategory) == r.tagCategoryId && key.Field(Corridors.FromCategory) == s.tagCategoryId.GetOr(0);
    assert rule.Populated(Corridors.FromNode) && rule.Field(Corridors.FromNode) == Some(r.nodeId);
    assert rule.Populated(Corridors.Channel) <==> r.channelId != 0;
    assert key.Field(Corridors.FromNode) == from && key.Field(Corridors.Channel) == channelId;
  }

  /** A tag is on for an end of a channel exactly when that end was requested. */
  lemma OnIffRequested(rules: seq<Corridors.Corridor>, requests: seq<Request>, s: Subject, from: int, to: int, channelId: int)
    requires AllAddedBy(rules, requests) && s.TagSubject?
    ensures SwitchedOn(rules)(s, from, to, channelId) <==> EndRequested(requests, s, from, channelId)
  {
    var key := s.Key(from, to, channelId);
    Corridors.AllReferencesPresent(rules, key);
    Corridors.ScanKeepsLastMostSpecific(rules, key, |rules|);
    forall i | 0 <= i < |rules|
      ensures Corridors.Matches(rules[i], key) <==> IsFor(requests[i], s, from, channelId)
    {
      RequestMatchesIff(rules[i], requests[i], s, from, to, channelId);
    }
  }

  lemma BothEndsOnIff(rules: seq<Corridors.Corridor>, requests: seq<Request>, ch: Channel, s: Subject)
    requires AllAddedBy(rules, requests)
    ensures OnFromBothEnds(ch, s, SwitchedOn(rules)) <==> BothEndsRequested(requests, ch, s)
  {
    if s.TagSubject? {
      OnIffRequested(rules, requests, s, ch.firstNodeId, ch.secondNodeId, ch.channelId);
      OnIffRequested(rules, requests, s, ch.secondNodeId, ch.firstNodeId, ch.channelId);
    }
  }

  ghost predicate SomeBothEndsRequested(requests: seq<Request>, chans: seq<Channel>, tags: seq<Subject>) {
    exists i, j :: 0 <= i < |chans| && 0 <= j < |tags| && BothEndsRequested(requests, chans[i], tags[j])
  }

  /** With the rules that requests add, whatever their number and order, a run for the tags commits exactly when no
      tag with a category was requested for both ends of a channel; otherwise the table stays as it was. */
  lemma RequestsCommitIff(before: seq<Row>, rules: seq<Corridors.Corridor>, requests: seq<Request>, tags: seq<Subject>,
                          chans: seq<Channel>)
    requires AllAddedBy(rules, requests)
    requires DistinctIds(chans, tags) && OfKind(tags, TAG_CORRIDOR) && KeysDistinct(before)
    requires OnlyTagOriginHasTags(before)
    ensures var own := AllRows(SwitchedOn(rules), tags, chans);
            && (KeysDistinct(OtherOrigins(before, TAG_CORRIDOR) + own) <==> !SomeBothEndsRequested(requests, chans, tags))
            && TableAfter(before, TAG_CORRIDOR, own)
               == if SomeBothEndsRequested(requests, chans, tags) then before else OtherOrigins(before, TAG_CORRIDOR) + own
  {
    var on := SwitchedOn(rules);
    forall i, j | 0 <= i < |chans| && 0 <= j < |tags|
      ensures OnFromBothEnds(chans[i], tags[j], on) <==> BothEndsRequested(requests, chans[i], tags[j])
    {
      BothEndsOnIff(rules, requests, chans[i], tags[j]);
    }
    assert SomeTagOnFromBothEnds(chans, tags, on) <==> SomeBothEndsRequested(requests, chans, tags) by {
      if i, j :| 0 <= i < |chans| && 0 <= j < |tags| && BothEndsRequested(requests, chans[i], tags[j]) {
        assert ClashOn(chans[i], tags, on);
      }
    }
    CommitsIff(before, on, tags, chans, TAG_CORRIDOR);
  }

  /** So one request for each end of a channel, with a tag that has a category, ends it: every run for the tags
      leaves the table as it was, whatever else is requested. */
  lemma TwoRequestsNeverCommit(before: seq<Row>, rules: seq<Corridors.Corridor>, requests: seq<Request>, a: nat, b: nat,
                               tags: seq<Subject>, chans: seq<Channel>, i: nat, j: nat)
    requires AllAddedBy(rules, requests) && a < |requests| && b < |requests| && i < |chans| && j < |tags|
    requires tags[j].TagSubject? && tags[j].tagCategoryId.Some?
    requires requests[a] == Request(tags[j].id, tags[j].tagCategoryId, chans[i].firstNodeId, chans[i].channelId)
    requires requests[b] == Request(tags[j].id, tags[j].tagCategoryId, chans[i].secondNodeId, chans[i].channelId)
    requires DistinctIds(chans, tags) && OfKind(tags, TAG_CORRIDOR) && KeysDistinct(before)
    requires OnlyTagOriginHasTags(before)
    ensures TableAfter(before, TAG_CORRIDOR, AllRows(SwitchedOn(rules), tags, chans)) == before
  {
    assert IsFor(requests[a], tags[j], chans[i].firstNodeId, chans[i].channelId);
    assert IsFor(requests[b], tags[j], chans[i].secondNodeId, chans[i].channelId);
    assert BothEndsRequested(requests, chans[i], tags[j]);
    RequestsCommitIff(before, rules, requests, tags, chans);
  }
}
