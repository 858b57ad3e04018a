/** The fan-out server of pkg/broadcast/broadcast.go.

    The server is one loop over the events it receives: a new listener, a cancelled one, a value from the
    source, the end of the source or of the context. All interleavings of subscribers, cancellers and the
    source are sequences of these events. Channels are identities; a channel's inbox is what was sent on it. */
module Broadcast {
  import opened Options

  /** What the select statement takes next. During a value's delivery the context may end before the
      listener in position `cut` has taken it. */
  datatype Event<V> =
    | ContextDone
    | AddListener(ch: int)
    | RemoveListener(ch: int)
    | Value(v: V, cut: Option<nat>)
    | SourceClosed

  // ------------------------------------------------------------------ what a history promises

  /** What a history of events says, with no mention of slices: the values taken from the source, the channels
      listening, what each channel is due, and how many values had been taken when a channel was added and
      when it was removed. `cutShort` says the last value was in delivery when the context ended. */
  datatype Account<V> = Account(
    live: bool, published: seq<V>, listening: set<int>, due: map<int, seq<V>>,
    joined: map<int, nat>, left: map<int, nat>, cutShort: bool)

  ghost function Opening<V>(): Account<V> {
    Account(true, [], {}, map[], map[], map[], false)
  }

  ghost function Step<V>(a: Account<V>, e: Event<V>): Account<V> {
    if !a.live then a
    else
      match e
      case ContextDone => a.(live := false)
      case SourceClosed => a.(live := false)
      case AddListener(ch) =>
        a.(listening := a.listening + {ch}, due := a.due[ch := []], joined := a.joined[ch := |a.published|])
      case RemoveListener(ch) =>
        if ch in a.listening then a.(listening := a.listening - {ch}, left := a.left[ch := |a.published|]) else a
      case Value(v, cut) =>
        var stopped := cut.Some? && cut.value < |a.listening|;
        a.(published := a.published + [v], live := !stopped, cutShort := stopped,
           due := map ch | ch in a.due :: if ch in a.listening then a.due[ch] + [v] else a.due[ch])
  }

  ghost function After<V>(history: seq<Event<V>>): Account<V> {
    if history == [] then Opening()
    else Step(After(history[..|history| - 1]), history[|history| - 1])
  }

  /** Every subscription makes a new channel. */
  ghost predicate FreshListeners<V>(history: seq<Event<V>>) {
    forall i, j | 0 <= i < j < |history| && history[i].AddListener? && history[j].AddListener? :: history[i].ch != history[j].ch
  }

  /** A channel's due is the run of published values from its registration to its removal, or until now. */
  ghost predicate DueIsSegment<V>(a: Account<V>, ch: int) {
    && ch in a.joined && ch in a.due
    && (ch in a.left <==> ch !in a.listening)
    && var end := if ch in a.left then a.left[ch] else |a.published|;
       && a.joined[ch] <= end <= |a.published|
       && a.due[ch] == a.published[a.joined[ch]..end]
  }

  ghost predicate WellKept<V>(a: Account<V>) {
    && a.listening <= a.due.Keys == a.joined.Keys
    && a.left.Keys <= a.due.Keys
    && forall ch | ch in a.due :: DueIsSegment(a, ch)
  }

  lemma SegmentAfterValue<V>(a: Account<V>, v: V, cut: Option<nat>, ch: int)
    requires a.live && DueIsSegment(a, ch)
    ensures DueIsSegment(Step(a, Value(v, cut)), ch)
  {
    var b := Step(a, Value(v, cut));
    if ch in a.left {
      assert b.due[ch] == a.due[ch];
      SegmentOfLonger(a.published, v, a.joined[ch], a.left[ch]);
    } else {
      assert b.due[ch] == a.due[ch] + [v];
      SegmentOfLonger(a.published, v, a.joined[ch], |a.published|);
    }
  }

  lemma SegmentOfLonger<V>(published: seq<V>, v: V, i: nat, j: nat)
    requires i <= j <= |published|
    ensures (published + [v])[i..j] == published[i..j]
    ensures j == |published| ==> (published + [v])[i..j + 1] == published[i..j] + [v]
  {
  }

  lemma StepIsWellKept<V>(a: Account<V>, e: Event<V>)
    requires WellKept(a) && (e.AddListener? ==> e.ch !in a.due)
    ensures WellKept(Step(a, e))
  {
    var b := Step(a, e);
    if a.live && e.Value? {
      forall ch | ch in b.due
        ensures DueIsSegment(b, ch)
      {
        assert DueIsSegment(a, ch);
        SegmentAfterValue(a, e.v, e.cut, ch);
      }
    } else {
      forall ch | ch in b.due
        ensures DueIsSegment(b, ch)
      {
        assert ch in a.due ==> DueIsSegment(a, ch);
      }
    }
  }

  lemma {:induction false} OnlyAddedAreDue<V>(history: seq<Event<V>>, ch: int)
    requires ch in After(history).due
    ensures exists i :: 0 <= i < |history| && history[i] == AddListener(ch)
  {
    if history != [] {
      var n := |history| - 1;
      if ch in After(history[..n]).due {
        OnlyAddedAreDue(history[..n], ch);
        var i :| 0 <= i < n && history[..n][i] == AddListener(ch);
        assert history[i] == AddListener(ch);
      } else {
        assert history[n] == AddListener(ch);
      }
    }
  }

  lemma NewListenerIsUnknown<V>(history: seq<Event<V>>, ch: int)
    requires FreshListeners(history + [AddListener(ch)])
    ensures ch !in After(history).due
  {
    var all := history + [AddListener(ch)];
    assert all[|history|] == AddListener(ch);
    forall i | 0 <= i < |history|
      ensures history[i] != AddListener(ch)
    {
      assert all[i] == history[i];
    }
    if ch in After(history).due { OnlyAddedAreDue(history, ch); }
  }

  /** Over every history, whatever the interleaving, each channel's due is one contiguous run of the source. */
  lemma {:induction false} DueIsContiguous<V>(history: seq<Event<V>>)
    requires FreshListeners(history)
    ensures WellKept(After(history))
  {
    if history != [] {
      var n := |history| - 1;
      var e := history[n];
      DueIsContiguous(history[..n]);
      assert history[..n] + [e] == history;
      if e.AddListener? { NewListenerIsUnknown(history[..n], e.ch); }
      StepIsWellKept(After(history[..n]), e);
    }
  }

  /** The values among events i to n - 1, in order. */
  function ValuesBetween<V>(history: seq<Event<V>>, i: nat, n: nat): seq<V>
    requires i <= n <= |history|
    decreases n
  {
    if i == n then []
    else ValuesBetween(history, i, n - 1) + if history[n - 1].Value? then [history[n - 1].v] else []
  }

  /** The account after the first n events. */
  ghost function AfterFirst<V>(history: seq<Event<V>>, n: nat): Account<V>
    requires n <= |history|
  {
    if n == 0 then Opening() else Step(AfterFirst(history, n - 1), history[n - 1])
  }

  lemma {:induction false} AfterFirstIsAfter<V>(history: seq<Event<V>>, n: nat)
    requires n <= |history|
    ensures AfterFirst(history, n) == After(history[..n])
  {
    if n > 0 {
      AfterFirstIsAfter(history, n - 1);
      assert history[..n][..n - 1] == history[..n - 1];
    }
  }

  /** The channel is listening, and these values are due to it. */
  ghost predicate IsDue<V>(a: Account<V>, ch: int, values: seq<V>) {
    ch in a.listening && ch in a.due && a.due[ch] == values
  }

  lemma {:induction false} DueAfterFirst<V>(history: seq<Event<V>>, i: nat, n: nat)
    requires i < n <= |history| && FreshListeners(history) && history[i].AddListener?
    requires AfterFirst(history, n - 1).live && forall j | i < j < n :: history[j] != RemoveListener(history[i].ch)
    ensures IsDue(AfterFirst(history, n), history[i].ch, ValuesBetween(history, i + 1, n))
    decreases n
  {
    if i < n - 1 {
      DueAfterFirst(history, i, n - 1);
      AddedOnce(history, i, n - 1);
      StepAddsValue(AfterFirst(history, n - 1), history[n - 1], history[i].ch, ValuesBetween(history, i + 1, n - 1));
    }
  }

  lemma AddedOnce<V>(history: seq<Event<V>>, i: nat, m: nat)
    requires FreshListeners(history) && i < m < |history| && history[i].AddListener?
    ensures history[m].AddListener? ==> history[m].ch != history[i].ch
  {
  }

  /** A channel that has not been removed is due exactly the values taken since it was added; nothing is taken once the
      server has stopped. */
  lemma DueIsValuesSince<V>(history: seq<Event<V>>, i: nat)
    requires i < |history| && FreshListeners(history) && history[i].AddListener?
    requires After(history[..|history| - 1]).live
    requires forall j | i < j < |history| :: history[j] != RemoveListener(history[i].ch)
    ensures IsDue(After(history), history[i].ch, ValuesBetween(history, i + 1, |history|))
  {
    AfterFirstIsAfter(history, |history| - 1);
    AfterFirstIsAfter(history, |history|);
    assert history[..|history|] == history;
    DueAfterFirst(history, i, |history|);
  }

  lemma StepAddsValue<V>(a: Account<V>, e: Event<V>, ch: int, values: seq<V>)
    requires a.live && IsDue(a, ch, values)
    requires e != RemoveListener(ch) && (e.AddListener? ==> e.ch != ch)
    ensures IsDue(Step(a, e), ch, values + if e.Value? then [e.v] else [])
  {
    assert values + [] == values;
  }

  /** So what a channel received is the source segment between its registration and its removal, in order;
      only the value in flight when the context ended can be missing, and only to a channel still listening. */
  lemma ReceivedIsContiguous<V>(history: seq<Event<V>>, ch: int, got: seq<V>)
    requires FreshListeners(history) && ch in After(history).due && Received(After(history), ch, got)
    ensures var a := After(history);
            && ch in a.joined
            && var end := if ch in a.left then a.left[ch] else |a.published|;
               && a.joined[ch] <= end <= |a.published|
               && (|| got == a.published[a.joined[ch]..end]
                   || (a.cutShort && ch !in a.left && a.joined[ch] < end && got == a.published[a.joined[ch]..end - 1]))
  {
    DueIsContiguous(history);
    var a := After(history);
    assert DueIsSegment(a, ch);
    if got != a.due[ch] {
      assert got == (got + [a.published[|a.published| - 1]])[..|got|];
    }
  }

  /** Once a channel has left or the server has stopped, nothing that happens later is due to it. */
  lemma DueIsSettled<V>(a: Account<V>, e: Event<V>, ch: int)
    requires ch in a.due && (ch !in a.listening || !a.live) && (e.AddListener? ==> e.ch !in a.due)
    ensures ch in Step(a, e).due && Step(a, e).due[ch] == a.due[ch]
  {
  }

  // ------------------------------------------------------------------ the slice

  ghost predicate NoRepeats(s: seq<int>) {
    forall i, j | 0 <= i < j < |s| :: s[i] != s[j]
  }

  ghost predicate Lists(s: seq<int>, elements: set<int>) {
    NoRepeats(s) && forall ch :: ch in s <==> ch in elements
  }

  /** The slice without position i: the last element takes its place. */
  function SwapRemove(s: seq<int>, i: nat): seq<int>
    requires i < |s|
  {
    s[i := s[|s| - 1]][..|s| - 1]
  }

  /** Swap-removal drops that one element of a duplicate-free slice and nothing else. */
  lemma SwapRemoveDropsOne(s: seq<int>, i: nat, elements: set<int>)
    requires i < |s| && Lists(s, elements)
    ensures Lists(SwapRemove(s, i), elements - {s[i]})
  {
    var n := |s| - 1;
    var r := SwapRemove(s, i);
    forall ch | ch in s && ch != s[i]
      ensures ch in r
    {
      var j :| 0 <= j < |s| && s[j] == ch;
      if j == n { assert r[i] == ch; } else { assert r[j] == ch; }
    }
  }

  lemma ListedWith(s: seq<int>, elements: set<int>, ch: int)
    requires Lists(s, elements) && ch !in elements
    ensures Lists(s + [ch], elements + {ch})
  {
  }

  lemma ListedTogether(s: seq<int>, elements: set<int>, t: seq<int>, others: set<int>)
    requires Lists(s, elements) && Lists(t, others) && elements !! others
    ensures Lists(s + t, elements + others)
  {
    forall i, j | 0 <= i < j < |s + t|
      ensures (s + t)[i] != (s + t)[j]
    {
      if i < |s| <= j {
        assert s[i] in s && t[j - |s|] in t;
      }
    }
  }

  lemma {:induction false} ListedSize(s: seq<int>, elements: set<int>)
    requires Lists(s, elements)
    ensures |s| == |elements|
  {
    if s == [] {
      assert forall ch :: ch !in elements;
      assert elements == {};
    } else {
      var n := |s| - 1;
      forall ch
        ensures ch in s[..n] <==> ch in elements - {s[n]}
      {
        if ch in elements && ch != s[n] {
          var j :| 0 <= j < |s| && s[j] == ch;
          assert s[..n][j] == ch;
        }
      }
      ListedSize(s[..n], elements - {s[n]});
    }
  }

  // ------------------------------------------------------------------ the server

  /** What a channel received: all it is due, or all but the value in flight when the context ended. */
  ghost predicate Received<V>(a: Account<V>, ch: int, got: seq<V>)
    requires ch in a.due
  {
    || got == a.due[ch]
    || (a.cutShort && ch in a.listening && |a.published| > 0 && got + [a.published[|a.published| - 1]] == a.due[ch])
  }

  ghost predicate Delivered<V>(a: Account<V>, inbox: map<int, seq<V>>) {
    && inbox.Keys == a.due.Keys
    && forall ch | ch in a.due :: Received(a, ch, inbox[ch])
  }

  /** The channels that have left, and once the server has stopped all channels ever added, are the closed ones. */
  ghost predicate ClosedOnce<V>(a: Account<V>, closed: seq<int>) {
    Lists(closed, if a.live then a.due.Keys - a.listening else a.due.Keys)
  }

  class BroadcastServer<V> {
    var listeners: seq<int>
    var running: bool
    /** What was sent on each channel. */
    var inbox: map<int, seq<V>>
    /** The channels closed, in order. */
    var closed: seq<int>
    ghost var history: seq<Event<V>>
    ghost var account: Account<V>

    ghost predicate Valid()
      reads this
    {
      && FreshListeners(history) && account == After(history)
      && account.listening <= account.due.Keys
      && (account.live ==> !account.cutShort)
      && running == account.live
      && Lists(listeners, account.listening)
      && Delivered(account, inbox)
      && ClosedOnce(account, closed)
    }

    constructor ()
      ensures Valid() && running && history == []
    {
      listeners, running, inbox, closed, history, account := [], true, map[], [], [], Opening();
    }

    /** A send on a closed channel panics, so every caller has to show it is open. */
    method Send(ch: int, v: V)
      requires ch in inbox && ch !in closed
      modifies `inbox
      ensures inbox == old(inbox)[ch := old(inbox)[ch] + [v]]
    {
      inbox := inbox[ch := inbox[ch] + [v]];
    }

    /** Closing a closed channel panics. */
    method Close(ch: int)
      requires ch !in closed
      modifies `closed
      ensures closed == old(closed) + [ch]
    {
      closed := closed + [ch];
    }

    method Add(ch: int)
      requires Valid() && running && FreshListeners(history + [AddListener(ch)])
      modifies this
      ensures Valid() && history == old(history) + [AddListener(ch)]
    {
      NewListenerIsUnknown(history, ch);
      ghost var e: Event<V> := AddListener(ch);
      AfterExtended(history, e);
      ListenerAdded(account, ch, listeners, inbox, closed);
      listeners := listeners + [ch];
      inbox := inbox[ch := []];
      history, account := history + [e], Step(account, e);
    }

    method Remove(ch: int)
      requires Valid() && running
      modifies this
      ensures Valid() && history == old(history) + [RemoveListener(ch)]
    {
      ghost var e: Event<V> := RemoveListener(ch);
      AfterExtended(history, e);
      if ch in account.listening { ListenerRemoved(account, ch, inbox, closed); }
      SwapRemoveAndClose(ch, account.listening);
      history, account := history + [e], Step(account, e);
    }

    /** Looks the channel up in the slice and, where it is found, overwrites it with the last one and closes it. */
    method SwapRemoveAndClose(ch: int, ghost listening: set<int>)
      requires Lists(listeners, listening) && (ch in listening ==> ch !in closed)
      modifies `listeners, `closed
      ensures Lists(listeners, listening - {ch})
      ensures closed == if ch in listening then old(closed) + [ch] else old(closed)
    {
      for i := 0 to |listeners|
        invariant ch !in listeners[..i]
        invariant unchanged(this)
      {
        if listeners[i] == ch {
          SwapRemoveDropsOne(listeners, i, listening);
          listeners := listeners[i := listeners[|listeners| - 1]];
          listeners := listeners[..|listeners| - 1];
          Close(ch);
          return;
        }
        assert listeners[..i + 1] == listeners[..i] + [listeners[i]];
      }
      assert listeners[..|listeners|] == listeners;
    }

    method Publish(v: V, cut: Option<nat>)
      requires Valid() && running
      modifies this
      ensures Valid() && history == old(history) + [Value(v, cut)]
    {
      var reached;
      ghost var next;
      reached, next := DeliverOpen(v, cut);
      Conclude(history + [Value(v, cut)], next, reached == |listeners|);
    }

    /** After a delivery the server goes on, or leaves the loop when the context ended meanwhile. */
    method Conclude(ghost longer: seq<Event<V>>, ghost next: Account<V>, goesOn: bool)
      requires running && Lists(listeners, account.listening)
      requires Taken(longer, account.listening, next, goesOn, inbox, closed)
      modifies this
      ensures Valid() && history == longer
    {
      history, account := longer, next;
      if !goesOn {
        Exit();
      }
    }

    /** The delivery of a value while the server runs, and what the account will say of it. */
    method DeliverOpen(v: V, cut: Option<nat>) returns (reached: nat, ghost next: Account<V>)
      requires Valid() && running
      modifies `inbox
      ensures Taken(history + [Value(v, cut)], account.listening, next, reached == |listeners|, inbox, closed)
      ensures reached <= |listeners|
    {
      ListedSize(listeners, account.listening);
      OpenToDelivery(account, listeners, inbox, closed);
      reached := Deliver(v, cut);
      ValueTaken(history, account, v, cut, listeners, reached, old(inbox), inbox, closed);
      next := Step(account, Value(v, cut));
    }

    /** Sends a value to the listeners in slice order, up to the one at which the context ends. */
    method Deliver(v: V, cut: Option<nat>) returns (reached: nat)
      requires NoRepeats(listeners) && forall i | 0 <= i < |listeners| :: listeners[i] in inbox && listeners[i] !in closed
      modifies `inbox
      ensures reached == if cut.Some? && cut.value < |listeners| then cut.value else |listeners|
      ensures DeliveredTo(old(inbox), inbox, listeners[..reached], v)
    {
      reached := 0;
      while reached < |listeners|
        invariant reached <= |listeners| && (cut.Some? ==> cut.value >= reached)
        invariant DeliveredTo(old(inbox), inbox, listeners[..reached], v)
      {
        if cut == Some(reached) {
          return;
        }
        DeliveredToNext(old(inbox), inbox, listeners, reached, v);
        Send(listeners[reached], v);
        reached := reached + 1;
      }
    }

    /** The deferred function: closes what is still listening. */
    method Exit()
      requires FreshListeners(history) && account == After(history)
      requires account.listening <= account.due.Keys && !account.live
      requires Lists(listeners, account.listening) && Delivered(account, inbox)
      requires Lists(closed, account.due.Keys - account.listening)
      modifies `running, `closed
      ensures Valid() && !running
    {
      running := false;
      for i := 0 to |listeners|
        invariant closed == old(closed) + listeners[..i]
        invariant !running
      {
        assert listeners[..i + 1] == listeners[..i] + [listeners[i]];
        assert listeners[i] in listeners && listeners[i] !in listeners[..i];
        Close(listeners[i]);
      }
      assert listeners[..|listeners|] == listeners;
      AllClosed(account, old(closed), listeners);
    }

    method Stop(e: Event<V>)
      requires Valid() && running && (e.ContextDone? || e.SourceClosed?)
      modifies this
      ensures Valid() && !running && history == old(history) + [e]
    {
      StopEndsDelivery(history, account, e, inbox, closed);
      history, account := history + [e], account.(live := false);
      Exit();
    }

    /** One turn of the loop. */
    method Handle(e: Event<V>)
      requires Valid() && running && FreshListeners(history + [e])
      modifies this
      ensures Valid() && history == old(history) + [e]
    {
      match e {
        case ContextDone => Stop(e);
        case SourceClosed => Stop(e);
        case AddListener(ch) => Add(ch);
        case RemoveListener(ch) => Remove(ch);
        case Value(v, cut) => Publish(v, cut);
      }
    }

    /** The loop, over any sequence of events; what arrives after it has returned is never taken. */
    method Serve(events: seq<Event<V>>) returns (taken: nat)
      requires Valid() && running && FreshListeners(history + events)
      modifies this
      ensures Valid()
      ensures taken <= |events| && history == old(history) + events[..taken]
      ensures running ==> taken == |events|
    {
      taken := 0;
      while taken < |events| && running
        invariant taken <= |events|
        invariant Valid() && history == old(history) + events[..taken]
      {
        var e := events[taken];
        FreshPrefix(old(history), events, taken);
        Handle(e);
        assert events[..taken + 1] == events[..taken] + [e];
        taken := taken + 1;
      }
    }
  }

  lemma FreshPrefix<V>(history: seq<Event<V>>, events: seq<Event<V>>, n: nat)
    requires FreshListeners(history + events) && n < |events|
    ensures FreshListeners(history + events[..n] + [events[n]])
  {
    var all, part := history + events, history + events[..n] + [events[n]];
    forall i | 0 <= i < |part|
      ensures part[i] == all[i]
    {
    }
  }

  lemma AfterExtended<V>(history: seq<Event<V>>, e: Event<V>)
    ensures After(history + [e]) == Step(After(history), e)
    ensures !e.AddListener? && FreshListeners(history) ==> FreshListeners(history + [e])
  {
    assert (history + [e])[..|history|] == history;
  }

  /** Appending a new listener with an empty inbox is what the account says. */
  lemma ListenerAdded<V>(a: Account<V>, ch: int, listeners: seq<int>, inbox: map<int, seq<V>>, closed: seq<int>)
    requires a.live && !a.cutShort && ch !in a.due && a.listening <= a.due.Keys
    requires Lists(listeners, a.listening) && Delivered(a, inbox) && ClosedOnce(a, closed)
    ensures var b := Step(a, AddListener(ch));
            && b.live && !b.cutShort && b.listening <= b.due.Keys
            && Lists(listeners + [ch], b.listening) && Delivered(b, inbox[ch := []]) && ClosedOnce(b, closed)
  {
    var b := Step(a, AddListener(ch));
    ListedWith(listeners, a.listening, ch);
    assert b.due.Keys - b.listening == a.due.Keys - a.listening;
    forall other | other in b.due
      ensures Received(b, other, inbox[ch := []][other])
    {
      assert other != ch ==> Received(a, other, inbox[other]);
    }
  }

  /** Closing a listener that is taken out of the slice is what the account says. */
  lemma ListenerRemoved<V>(a: Account<V>, ch: int, inbox: map<int, seq<V>>, closed: seq<int>)
    requires a.live && !a.cutShort && ch in a.listening && a.listening <= a.due.Keys
    requires Delivered(a, inbox) && ClosedOnce(a, closed)
    ensures var b := Step(a, RemoveListener(ch));
            ch !in closed && Delivered(b, inbox) && ClosedOnce(b, closed + [ch])
  {
    ListedWith(closed, a.due.Keys - a.listening, ch);
    assert a.due.Keys - a.listening + {ch} == a.due.Keys - (a.listening - {ch});
  }

  /** The end of the context or of the source changes nothing but that the server no longer runs. */
  lemma StopEndsDelivery<V>(history: seq<Event<V>>, a: Account<V>, e: Event<V>, inbox: map<int, seq<V>>,
                            closed: seq<int>)
    requires FreshListeners(history) && a == After(history)
    requires a.live && !a.cutShort && (e.ContextDone? || e.SourceClosed?)
    requires Delivered(a, inbox) && ClosedOnce(a, closed)
    ensures FreshListeners(history + [e]) && After(history + [e]) == a.(live := false)
    ensures Delivered(a.(live := false), inbox) && Lists(closed, a.due.Keys - a.listening)
  {
    AfterExtended(history, e);
    forall ch | ch in a.due
      ensures Received(a.(live := false), ch, inbox[ch])
    {
      assert Received(a, ch, inbox[ch]);
    }
  }

  lemma AllClosed<V>(a: Account<V>, closed: seq<int>, listeners: seq<int>)
    requires !a.live && a.listening <= a.due.Keys
    requires Lists(listeners, a.listening) && Lists(closed, a.due.Keys - a.listening)
    ensures ClosedOnce(a, closed + listeners)
  {
    ListedTogether(closed, a.due.Keys - a.listening, listeners, a.listening);
    assert a.due.Keys - a.listening + a.listening == a.due.Keys;
  }

  /** The account of the history agrees with these inboxes and closed channels, and the server goes on or stops. */
  ghost predicate Taken<V>(history: seq<Event<V>>, listening: set<int>, a: Account<V>, goesOn: bool,
                           inbox: map<int, seq<V>>, closed: seq<int>) {
    && FreshListeners(history) && a == After(history)
    && a.listening == listening <= a.due.Keys && Delivered(a, inbox)
    && a.live == goesOn && (a.live ==> !a.cutShort && ClosedOnce(a, closed))
    && Lists(closed, a.due.Keys - a.listening)
  }

  /** A value delivered to the first i listeners is what the account says; short of all of them the server stops. */
  lemma ValueTaken<V>(history: seq<Event<V>>, a: Account<V>, v: V, cut: Option<nat>, listeners: seq<int>, i: nat,
                      before: map<int, seq<V>>, after: map<int, seq<V>>, closed: seq<int>)
    requires FreshListeners(history) && a == After(history)
    requires a.live && !a.cutShort && a.listening <= a.due.Keys && i <= |listeners| == |a.listening|
    requires Lists(listeners, a.listening) && Delivered(a, before) && ClosedOnce(a, closed)
    requires DeliveredTo(before, after, listeners[..i], v)
    requires i < |listeners| ==> cut == Some(i)
    requires i == |listeners| && cut.Some? ==> cut.value >= i
    ensures Taken(history + [Value(v, cut)], a.listening, Step(a, Value(v, cut)), i == |listeners|, after, closed)
  {
    AfterExtended(history, Value(v, cut));
    DeliveredInPart(a, v, cut, listeners, i, before, after);
  }

  /** While the server runs its listeners have inboxes and are open. */
  lemma OpenToDelivery<V>(a: Account<V>, listeners: seq<int>, inbox: map<int, seq<V>>, closed: seq<int>)
    requires a.live && a.listening <= a.due.Keys
    requires Lists(listeners, a.listening) && Delivered(a, inbox) && ClosedOnce(a, closed)
    ensures forall i | 0 <= i < |listeners| :: listeners[i] in inbox && listeners[i] !in closed
  {
    forall i | 0 <= i < |listeners|
      ensures listeners[i] in inbox && listeners[i] !in closed
    {
      assert listeners[i] in listeners;
    }
  }

  /** Exactly the given channels received one more value. */
  ghost predicate DeliveredTo<V>(before: map<int, seq<V>>, after: map<int, seq<V>>, chs: seq<int>, v: V) {
    && after.Keys == before.Keys
    && forall ch | ch in before :: after[ch] == if ch in chs then before[ch] + [v] else before[ch]
  }

  lemma DeliveredToNext<V>(before: map<int, seq<V>>, now: map<int, seq<V>>, listeners: seq<int>, i: nat, v: V)
    requires i < |listeners| && NoRepeats(listeners) && listeners[i] in before
    requires DeliveredTo(before, now, listeners[..i], v)
    ensures DeliveredTo(before, now[listeners[i] := now[listeners[i]] + [v]], listeners[..i + 1], v)
  {
    assert listeners[..i + 1] == listeners[..i] + [listeners[i]];
    assert listeners[i] !in listeners[..i];
  }

  /** Delivery to the first i listeners, all of them unless the context ended there. */
  lemma DeliveredInPart<V>(a: Account<V>, v: V, cut: Option<nat>, listeners: seq<int>, i: nat,
                           before: map<int, seq<V>>, after: map<int, seq<V>>)
    requires a.live && !a.cutShort && i <= |listeners| == |a.listening|
    requires Lists(listeners, a.listening) && Delivered(a, before)
    requires DeliveredTo(before, after, listeners[..i], v)
    requires i < |listeners| ==> cut == Some(i)
    requires i == |listeners| && cut.Some? ==> cut.value >= i
    ensures var b := Step(a, Value(v, cut));
            && Delivered(b, after)
            && b.listening == a.listening && b.due.Keys == a.due.Keys
            && b.live == (i == |listeners|) && (b.live ==> !b.cutShort)
  {
    var b := Step(a, Value(v, cut));
    assert b.published[|b.published| - 1] == v;
    forall ch | ch in b.due
      ensures Received(b, ch, after[ch])
    {
      if ch in a.listening {
        var j :| 0 <= j < |listeners| && listeners[j] == ch;
        assert j < i ==> listeners[..i][j] == ch;
      }
    }
  }
}
