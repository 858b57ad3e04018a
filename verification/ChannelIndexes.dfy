/** The channel cache of pkg/commons/managedChannel.go: six maps that index the channels by short channel id,
    by channel point and by id, for all channels and for the active ones. */
module ChannelIndexes {
  import opened Options
  import ShortChannelIds

  /** Channel statuses are numbers; from here on they mean closed. */
  const COOPERATIVE_CLOSED := 100

  datatype ChannelSettings = ChannelSettings(
    channelId: int, shortChannelId: string, fundingTransactionHash: string, fundingOutputIndex: int, capacity: int,
    firstNodeId: int, secondNodeId: int, initiatingNodeId: Option<int>, acceptingNodeId: Option<int>,
    isPrivate: bool, status: int)

  const NO_SETTINGS := ChannelSettings(0, "", "", 0, 0, 0, 0, None, None, false, 0)

  datatype Write = WriteChannel(settings: ChannelSettings) | WriteStatus(channelId: int, status: int)

  function PointOf(s: ChannelSettings): string {
    ShortChannelIds.CreateChannelPoint(s.fundingTransactionHash, s.fundingOutputIndex)
  }

  predicate Accepted(s: ChannelSettings) {
    s.channelId != 0 && s.fundingTransactionHash != ""
  }

  predicate Closed(status: int) {
    status >= COOPERATIVE_CLOSED
  }

  type Index = map<string, int>

  /** One of the keys of the channel is gone, if there was one. */
  ghost predicate EvictedOne(before: Index, after: Index, channelId: int) {
    if exists k :: k in before && before[k] == channelId then
      exists k :: k in before && before[k] == channelId && after == before - {k}
    else after == before
  }

  /** A close leaves no active entry for the channel exactly when it had at most one key in the index. */
  lemma EvictionIsCompleteIff(before: Index, after: Index, channelId: int)
    requires EvictedOne(before, after, channelId)
    ensures (forall k | k in after :: after[k] != channelId)
            <==> forall k, l | k in before && l in before && before[k] == channelId && before[l] == channelId :: k == l
  {
    if k :| k in before && before[k] == channelId && after == before - {k} {
      if forall l | l in after :: after[l] != channelId {
        forall l | l in before && before[l] == channelId
          ensures l == k
        {
          assert l !in after;
        }
      } else {
        var l :| l in after && after[l] == channelId;
        assert l in before && l != k;
      }
    }
  }

  // ------------------------------------------------------------------ channels with fixed identifiers

  /** Each channel's funding transaction and, once confirmed, its short channel id. */
  datatype Registry = Registry(hash: int -> string, outputIndex: int -> int, shortId: int -> string)
  {
    function Point(channelId: int): string {
      ShortChannelIds.CreateChannelPoint(hash(channelId), outputIndex(channelId))
    }

    function Points(): int -> string {
      (channelId: int) => Point(channelId)
    }

    /** Different channels have different funding outputs and different short channel ids. */
    ghost predicate OneToOne() {
      && (forall a, b | hash(a) == hash(b) && outputIndex(a) == outputIndex(b) :: a == b)
      && (forall a, b | shortId(a) == shortId(b) && shortId(a) != "" :: a == b)
    }

    /** A write names its channel as registered; the short channel id may still be missing. */
    predicate Names(w: Write) {
      w.WriteChannel? && w.settings.channelId != 0 ==>
        && w.settings.fundingTransactionHash == hash(w.settings.channelId)
        && w.settings.fundingOutputIndex == outputIndex(w.settings.channelId)
        && (w.settings.shortChannelId == "" || w.settings.shortChannelId == shortId(w.settings.channelId))
    }
  }

  lemma PointsAreOneToOne(reg: Registry, a: int, b: int)
    requires reg.OneToOne() && reg.Point(a) == reg.Point(b)
    ensures a == b
  {
    ShortChannelIds.ChannelPointIsInjective(reg.hash(a), reg.outputIndex(a), reg.hash(b), reg.outputIndex(b));
  }

  /** The channels the active indexes should hold: written with an open status and not closed by status since.
      A channel written again with a closed status stays where it is. */
  function ActiveAfter(writes: seq<Write>, confirmed: bool): set<int> {
    if writes == [] then {}
    else
      var before, w := ActiveAfter(writes[..|writes| - 1], confirmed), writes[|writes| - 1];
      match w
      case WriteChannel(s) => if Filed(s, confirmed) && !Closed(s.status) then before + {s.channelId} else before
      case WriteStatus(id, status) => if id != 0 && Closed(status) then before - {id} else before
  }

  /** The channels the indexes of all channels should hold: those ever written. */
  function KnownAfter(writes: seq<Write>, confirmed: bool): set<int> {
    if writes == [] then {}
    else
      var before, w := KnownAfter(writes[..|writes| - 1], confirmed), writes[|writes| - 1];
      if w.WriteChannel? && Filed(w.settings, confirmed) then before + {w.settings.channelId} else before
  }

  /** Indexes by short channel id take no channel without one. */
  predicate Filed(s: ChannelSettings, confirmed: bool) {
    Accepted(s) && (confirmed ==> s.shortChannelId != "")
  }

  /** The index holds exactly these channels, each under its own key alone. */
  ghost predicate Indexes(index: Index, key: int -> string, channels: set<int>) {
    && (forall k | k in index :: index[k] in channels && k == key(index[k]))
    && (forall id | id in channels :: key(id) in index && index[key(id)] == id)
  }

  lemma IndexAdded(index: Index, key: int -> string, channels: set<int>, channelId: int)
    requires Indexes(index, key, channels)
    requires forall id | key(id) == key(channelId) :: id == channelId
    ensures Indexes(index[key(channelId) := channelId], key, channels + {channelId})
  {
  }

  lemma IndexEvicted(before: Index, after: Index, key: int -> string, channels: set<int>, channelId: int)
    requires Indexes(before, key, channels) && EvictedOne(before, after, channelId)
    ensures Indexes(after, key, channels - {channelId})
  {
    if channelId in channels {
      assert before[key(channelId)] == channelId;
    }
  }

  /** The four indexes by channel point and by short channel id. */
  datatype Indices = Indices(points: Index, allPoints: Index, shortIds: Index, allShortIds: Index)

  /** Every index holds exactly the channels it should. */
  ghost predicate Exact(reg: Registry, writes: seq<Write>, x: Indices) {
    && Indexes(x.points, reg.Points(), ActiveAfter(writes, false))
    && Indexes(x.allPoints, reg.Points(), KnownAfter(writes, false))
    && Indexes(x.shortIds, reg.shortId, ActiveAfter(writes, true))
    && Indexes(x.allShortIds, reg.shortId, KnownAfter(writes, true))
  }

  /** What one write does to the indexes. */
  ghost predicate Wrote(w: Write, x: Indices, y: Indices) {
    match w
    case WriteChannel(s) =>
      var open := !Closed(s.status);
      && y.points == FiledIn(x.points, PointOf(s), s, open, false)
      && y.allPoints == FiledIn(x.allPoints, PointOf(s), s, true, false)
      && y.shortIds == FiledIn(x.shortIds, s.shortChannelId, s, open, true)
      && y.allShortIds == FiledIn(x.allShortIds, s.shortChannelId, s, true, true)
    case WriteStatus(id, status) =>
      && y.allPoints == x.allPoints && y.allShortIds == x.allShortIds
      && if id != 0 && Closed(status) then EvictedOne(x.points, y.points, id) && EvictedOne(x.shortIds, y.shortIds, id)
         else y.points == x.points && y.shortIds == x.shortIds
  }

  /** The same by the fields of the write: a channel with an id and a funding transaction is filed under its channel
      point and, if it has one, its short channel id, and it is active when its status is below 100; a close by a status
      of at least 100 evicts from the active indexes. */
  ghost predicate WroteByFields(w: Write, x: Indices, y: Indices) {
    match w
    case WriteChannel(s) =>
      if s.channelId == 0 || s.fundingTransactionHash == "" then y == x
      else
        var point := ShortChannelIds.CreateChannelPoint(s.fundingTransactionHash, s.fundingOutputIndex);
        && y.allPoints == x.allPoints[point := s.channelId]
        && y.points == (if s.status < 100 then x.points[point := s.channelId] else x.points)
        && y.allShortIds == (if s.shortChannelId != "" then x.allShortIds[s.shortChannelId := s.channelId] else x.allShortIds)
        && y.shortIds == (if s.shortChannelId != "" && s.status < 100 then x.shortIds[s.shortChannelId := s.channelId]
                          else x.shortIds)
    case WriteStatus(id, status) =>
      if id == 0 || status < 100 then y == x
      else y.allPoints == x.allPoints && y.allShortIds == x.allShortIds
           && EvictedOne(x.points, y.points, id) && EvictedOne(x.shortIds, y.shortIds, id)
  }

  lemma WriteIsByFields(w: Write, x: Indices, y: Indices)
    ensures Wrote(w, x, y) <==> WroteByFields(w, x, y)
  {
  }

  function FiledIn(index: Index, key: string, s: ChannelSettings, wanted: bool, confirmed: bool): Index {
    if Filed(s, confirmed) && wanted then index[key := s.channelId] else index
  }

  lemma ExactAfterWrite(reg: Registry, writes: seq<Write>, w: Write, x: Indices, y: Indices)
    requires reg.OneToOne() && reg.Names(w)
    requires Exact(reg, writes, x) && Wrote(w, x, y)
    ensures Exact(reg, writes + [w], y)
  {
    assert (writes + [w])[..|writes|] == writes;
    match w
    case WriteChannel(s) =>
      if Accepted(s) {
        forall id | reg.Points()(id) == reg.Points()(s.channelId)
          ensures id == s.channelId
        {
          PointsAreOneToOne(reg, id, s.channelId);
        }
        IndexAdded(x.points, reg.Points(), ActiveAfter(writes, false), s.channelId);
        IndexAdded(x.allPoints, reg.Points(), KnownAfter(writes, false), s.channelId);
        if s.shortChannelId != "" {
          IndexAdded(x.shortIds, reg.shortId, ActiveAfter(writes, true), s.channelId);
          IndexAdded(x.allShortIds, reg.shortId, KnownAfter(writes, true), s.channelId);
        }
      }
    case WriteStatus(id, status) =>
      if id != 0 && Closed(status) {
        IndexEvicted(x.points, y.points, reg.Points(), ActiveAfter(writes, false), id);
        IndexEvicted(x.shortIds, y.shortIds, reg.shortId, ActiveAfter(writes, true), id);
      }
  }

  /** The next write of a run keeps the indexes exact; the cached statuses follow it. */
  lemma ExactAfterNext(reg: Registry, writes: seq<Write>, i: nat, x: Indices, y: Indices)
    requires i < |writes| && reg.OneToOne() && reg.Names(writes[i])
    requires Exact(reg, writes[..i], x) && Wrote(writes[i], x, y)
    ensures Exact(reg, writes[..i + 1], y)
    ensures StatusesAfter(writes[..i + 1]) == StatusAfter(StatusesAfter(writes[..i]), writes[i])
  {
    ExactAfterWrite(reg, writes[..i], writes[i], x, y);
    assert writes[..i + 1] == writes[..i] + [writes[i]];
    assert writes[..i + 1][..i] == writes[..i];
  }

  /** A close by status leaves no active entry for the channel; a closed status that arrives with the whole
      channel leaves every active entry in place. */
  lemma OnlyStatusWritesEvict(reg: Registry, writes: seq<Write>, w: Write, x: Indices)
    requires Exact(reg, writes + [w], x)
    ensures w.WriteStatus? && w.channelId != 0 && Closed(w.status) ==>
              w.channelId !in x.points.Values && w.channelId !in x.shortIds.Values
    ensures w.WriteChannel? && Closed(w.settings.status) ==>
              x.points.Values == ActiveAfter(writes, false) && x.shortIds.Values == ActiveAfter(writes, true)
  {
    assert (writes + [w])[..|writes|] == writes;
    ValuesAreChannels(x.points, reg.Points(), ActiveAfter(writes + [w], false));
    ValuesAreChannels(x.shortIds, reg.shortId, ActiveAfter(writes + [w], true));
  }

  // ------------------------------------------------------------------ the active indexes and the cached statuses

  /** The cached status of every channel after these writes. */
  function StatusesAfter(writes: seq<Write>): map<int, int> {
    if writes == [] then map[]
    else StatusAfter(StatusesAfter(writes[..|writes| - 1]), writes[|writes| - 1])
  }

  function StatusAfter(before: map<int, int>, w: Write): map<int, int> {
    match w
    case WriteChannel(s) => if Accepted(s) then before[s.channelId := s.status] else before
    case WriteStatus(id, status) => if id != 0 then before[id := status] else before
  }

  function OpenOf(statuses: map<int, int>): set<int> {
    set id | id in statuses && !Closed(statuses[id])
  }

  /** The write sets the channel's status. */
  predicate Sets(w: Write, channelId: int) {
    match w
    case WriteChannel(s) => Accepted(s) && s.channelId == channelId
    case WriteStatus(id, _) => id != 0 && id == channelId
  }

  predicate StatusOpen(w: Write) {
    match w
    case WriteChannel(s) => !Closed(s.status)
    case WriteStatus(_, status) => !Closed(status)
  }

  /** The whole channel with an open status and a key to file it under, or a closed status alone: the writes that an
      active index follows. */
  predicate Opens(w: Write, channelId: int, confirmed: bool) {
    w.WriteChannel? && Sets(w, channelId) && Filed(w.settings, confirmed) && StatusOpen(w)
  }

  predicate Closes(w: Write, channelId: int) {
    w.WriteStatus? && Sets(w, channelId) && !StatusOpen(w)
  }

  /** Among the first n writes one opens the channel, and none after it closes it. */
  ghost predicate Opened(writes: seq<Write>, channelId: int, confirmed: bool, n: nat)
    requires n <= |writes|
  {
    exists i :: 0 <= i < n && Opens(writes[i], channelId, confirmed) && forall j | i < j < n :: !Closes(writes[j], channelId)
  }

  /** Write i is the last to set the status of its channel, and it is one that the active index does not follow:
      a closed status with the whole channel while it is active, or, while it is not, an open status alone or with a
      channel that has no key in the index yet. */
  ghost predicate Stray(writes: seq<Write>, i: int, channelId: int, confirmed: bool) {
    && 0 <= i < |writes| && Sets(writes[i], channelId)
    && (forall j | i < j < |writes| :: !Sets(writes[j], channelId))
    && !Opens(writes[i], channelId, confirmed) && !Closes(writes[i], channelId)
    && Opened(writes, channelId, confirmed, i) != StatusOpen(writes[i])
  }

  lemma {:induction false} ActiveIsOpened(writes: seq<Write>, n: nat, channelId: int, confirmed: bool)
    requires n <= |writes|
    ensures channelId in ActiveAfter(writes[..n], confirmed) <==> Opened(writes, channelId, confirmed, n)
  {
    if n > 0 {
      var m := n - 1;
      ActiveIsOpened(writes, m, channelId, confirmed);
      assert writes[..n][..m] == writes[..m] && writes[..n][m] == writes[m];
      if Opened(writes, channelId, confirmed, m) && !Closes(writes[m], channelId) {
        var i :| 0 <= i < m && Opens(writes[i], channelId, confirmed) && forall j | i < j < m :: !Closes(writes[j], channelId);
        assert forall j | i < j < n :: !Closes(writes[j], channelId);
      }
    }
  }

  lemma {:induction false} StatusIsLastSet(writes: seq<Write>, channelId: int) returns (last: int)
    ensures channelId in StatusesAfter(writes) <==> last >= 0
    ensures -1 <= last < |writes| && forall j | last < j < |writes| :: !Sets(writes[j], channelId)
    ensures last >= 0 ==>
              Sets(writes[last], channelId) && (channelId in OpenOf(StatusesAfter(writes)) <==> StatusOpen(writes[last]))
  {
    if writes == [] {
      last := -1;
    } else {
      var n := |writes| - 1;
      if Sets(writes[n], channelId) {
        last := n;
      } else {
        last := StatusIsLastSet(writes[..n], channelId);
      }
    }
  }

  lemma ActiveIsOpenFor(writes: seq<Write>, channelId: int, confirmed: bool)
    ensures (channelId in ActiveAfter(writes, confirmed) <==> channelId in OpenOf(StatusesAfter(writes)))
            <==> forall i :: !Stray(writes, i, channelId, confirmed)
  {
    var last := StatusIsLastSet(writes, channelId);
    assert writes[..|writes|] == writes;
    ActiveIsOpened(writes, |writes|, channelId, confirmed);
    forall i | Stray(writes, i, channelId, confirmed)
      ensures i == last
    {
    }
    if last >= 0 {
      OpenedAtLastSet(writes, channelId, confirmed, last);
      assert (forall i :: !Stray(writes, i, channelId, confirmed)) <==> !Stray(writes, last, channelId, confirmed);
    } else {
      assert forall i | 0 <= i < |writes| :: !Sets(writes[i], channelId);
    }
  }

  /** The active state at the end is what the last write that sets the status makes of the one before it. */
  lemma OpenedAtLastSet(writes: seq<Write>, channelId: int, confirmed: bool, last: nat)
    requires last < |writes| && Sets(writes[last], channelId)
    requires forall j | last < j < |writes| :: !Sets(writes[j], channelId)
    ensures Opened(writes, channelId, confirmed, |writes|)
            <==> || Opens(writes[last], channelId, confirmed)
                 || (Opened(writes, channelId, confirmed, last) && !Closes(writes[last], channelId))
  {
    if Opens(writes[last], channelId, confirmed) {
      assert forall j | last < j < |writes| :: !Closes(writes[j], channelId);
    } else if Opened(writes, channelId, confirmed, last) && !Closes(writes[last], channelId) {
      var i :| 0 <= i < last && Opens(writes[i], channelId, confirmed)
               && forall j | i < j < last :: !Closes(writes[j], channelId);
      assert forall j | i < j < |writes| :: !Closes(writes[j], channelId);
    }
  }

  lemma ActiveAreOpenIff(writes: seq<Write>, confirmed: bool)
    ensures ActiveAfter(writes, confirmed) == OpenOf(StatusesAfter(writes)) <==> forall i, id :: !Stray(writes, i, id, confirmed)
  {
    var active, open := ActiveAfter(writes, confirmed), OpenOf(StatusesAfter(writes));
    forall id
      ensures (id in active <==> id in open) <==> forall i :: !Stray(writes, i, id, confirmed)
    {
      ActiveIsOpenFor(writes, id, confirmed);
    }
    if forall i, id :: !Stray(writes, i, id, confirmed) {
      assert forall id :: id in active <==> id in open;
    } else {
      var i, id :| Stray(writes, i, id, confirmed);
      assert !(id in active <==> id in open);
    }
  }

  /** The channels that an active index holds, the one by channel point or the one by short channel id, are those
      whose cached status is open exactly when no write is a stray one for it. */
  lemma ActiveIsOpenIff(reg: Registry, writes: seq<Write>, x: Indices)
    requires Exact(reg, writes, x)
    ensures x.points.Values == OpenOf(StatusesAfter(writes)) <==> forall i, id :: !Stray(writes, i, id, false)
    ensures x.shortIds.Values == OpenOf(StatusesAfter(writes)) <==> forall i, id :: !Stray(writes, i, id, true)
  {
    ValuesAreChannels(x.points, reg.Points(), ActiveAfter(writes, false));
    ValuesAreChannels(x.shortIds, reg.shortId, ActiveAfter(writes, true));
    ActiveAreOpenIff(writes, false);
    ActiveAreOpenIff(writes, true);
  }

  lemma ValuesAreChannels(index: Index, key: int -> string, channels: set<int>)
    requires Indexes(index, key, channels)
    ensures index.Values == channels
  {
    forall id | id in channels
      ensures id in index.Values
    {
      assert index[key(id)] == id;
    }
  }

  // ------------------------------------------------------------------ the cache

  class ChannelCache {
    var shortChannelIds: Index
    var allShortChannelIds: Index
    var channelPoints: Index
    var allChannelPoints: Index
    var allStatuses: map<int, int>
    var allSettings: map<int, ChannelSettings>

    /** The status cache and the settings agree, and every active key is a key of the same channel index. */
    ghost predicate Valid()
      reads this
    {
      && allStatuses.Keys == allSettings.Keys
      && (forall id | id in allSettings :: allStatuses[id] == allSettings[id].status)
      && shortChannelIds.Keys <= allShortChannelIds.Keys && "" !in shortChannelIds
      && channelPoints.Keys <= allChannelPoints.Keys && "" !in channelPoints
    }

    ghost function View(): Indices
      reads this
    {
      Indices(channelPoints, allChannelPoints, shortChannelIds, allShortChannelIds)
    }

    constructor ()
      ensures Valid()
      ensures View() == Indices(map[], map[], map[], map[])
      ensures allStatuses == map[] && allSettings == map[]
    {
      shortChannelIds, allShortChannelIds, channelPoints, allChannelPoints := map[], map[], map[], map[];
      allStatuses, allSettings := map[], map[];
    }

    /** The conversion of a missing short channel id works on a copy of the message, so it has no effect here;
        a closed status does not evict what is active. */
    method WriteChannel(s: ChannelSettings)
      requires Valid()
      modifies this
      ensures Valid()
      ensures Wrote(Write.WriteChannel(s), old(View()), View())
      ensures WroteByFields(Write.WriteChannel(s), old(View()), View())
      ensures if s.channelId != 0 && s.fundingTransactionHash != ""
              then allSettings == old(allSettings)[s.channelId := s] && allStatuses == old(allStatuses)[s.channelId := s.status]
              else allSettings == old(allSettings) && allStatuses == old(allStatuses)
    {
      if s.channelId == 0 || s.fundingTransactionHash == "" {
        return;
      }
      var channelPoint := PointOf(s);
      if s.status < COOPERATIVE_CLOSED {
        if s.shortChannelId != "" {
          shortChannelIds := shortChannelIds[s.shortChannelId := s.channelId];
        }
        channelPoints := channelPoints[channelPoint := s.channelId];
      }
      assert shortChannelIds == FiledIn(old(shortChannelIds), s.shortChannelId, s, !Closed(s.status), true);
      assert channelPoints == FiledIn(old(channelPoints), channelPoint, s, !Closed(s.status), false);
      if s.shortChannelId != "" {
        allShortChannelIds := allShortChannelIds[s.shortChannelId := s.channelId];
      }
      allChannelPoints := allChannelPoints[channelPoint := s.channelId];
      allStatuses := allStatuses[s.channelId := s.status];
      allSettings := allSettings[s.channelId := s];
    }

    /** An unknown channel gets empty settings that hold the status alone. */
    method WriteStatus(channelId: int, status: int)
      requires Valid()
      modifies this
      ensures Valid()
      ensures Wrote(Write.WriteStatus(channelId, status), old(View()), View())
      ensures WroteByFields(Write.WriteStatus(channelId, status), old(View()), View())
      ensures allSettings == if channelId == 0 then old(allSettings) else old(allSettings)[channelId :=
                (if channelId in old(allSettings) then old(allSettings)[channelId].(status := status)
                 else ChannelSettings(0, "", "", 0, 0, 0, 0, None, None, false, status))]
      ensures allStatuses == if channelId == 0 then old(allStatuses) else old(allStatuses)[channelId := status]
    {
      if channelId == 0 {
        return;
      }
      if status >= COOPERATIVE_CLOSED {
        shortChannelIds := EvictOne(shortChannelIds, channelId);
        channelPoints := EvictOne(channelPoints, channelId);
      }
      allStatuses := allStatuses[channelId := status];
      var settings := if channelId in allSettings then allSettings[channelId] else NO_SETTINGS;
      allSettings := allSettings[channelId := settings.(status := status)];
    }

    /** Any run of writes on a new cache that name channels with one-to-one identifiers: every index holds
        exactly the channels it should, so a channel closed by status is in no active index. */
    method Run(writes: seq<Write>, ghost reg: Registry)
      requires View() == Indices(map[], map[], map[], map[]) && allStatuses == map[]
      requires Valid() && reg.OneToOne() && forall w | w in writes :: reg.Names(w)
      modifies this
      ensures Valid()
      ensures Exact(reg, writes, View()) && allStatuses == StatusesAfter(writes)
    {
      for i := 0 to |writes|
        invariant Valid()
        invariant Exact(reg, writes[..i], View()) && allStatuses == StatusesAfter(writes[..i])
      {
        ghost var before := View();
        match writes[i] {
          case WriteChannel(settings) => WriteChannel(settings);
          case WriteStatus(id, status) => WriteStatus(id, status);
        }
        ExactAfterNext(reg, writes, i, before, View());
      }
      assert writes[..|writes|] == writes;
    }
  }

  /** A key of the channel, met first in an unspecified order, or the empty string. */
  method FindKey(index: Index, channelId: int) returns (key: string)
    requires "" !in index
    ensures if exists k :: k in index && index[k] == channelId then key in index && index[key] == channelId else key == ""
  {
    var remaining := index.Keys;
    while remaining != {}
      invariant remaining <= index.Keys
      invariant forall k | k in index && k !in remaining :: index[k] != channelId
    {
      var k :| k in remaining;
      if index[k] == channelId {
        return k;
      }
      remaining := remaining - {k};
    }
    return "";
  }

  method EvictOne(index: Index, channelId: int) returns (r: Index)
    requires "" !in index
    ensures EvictedOne(index, r, channelId) && r.Keys <= index.Keys
  {
    var key := FindKey(index, channelId);
    r := if key != "" then index - {key} else index;
  }
}
