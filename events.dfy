/** The event store `userEvents`, the two producers that append to it, and its read view. */
module Events {
  import opened Wrappers
  import opened Domain

  /** The tick evicts once the store holds more than this many events. */
  const Capacity: nat := 100
  /** The detector looks at this many trailing events (`slice(-10)`). */
  const WindowSize: nat := 10

  /** The last n elements of s (all of s when it is shorter). */
  function Last(s: seq<Event>, n: nat): seq<Event> {
    if |s| <= n then s else s[|s| - n..]
  }

  /** The last min(10, |events|) events, oldest first. */
  function Window(events: seq<Event>): (w: seq<Event>)
    ensures |w| == if |events| < WindowSize then |events| else WindowSize
    ensures w == events[|events| - |w|..]
  {
    if |events| <= WindowSize then events else events[|events| - WindowSize..]
  }

  /** The detector's window is the store's last WindowSize events. */
  lemma WindowIsLast(events: seq<Event>)
    ensures Window(events) == Last(events, WindowSize)
  {
  }

  /**
   * The window after one more append is the old window, possibly without its
   * oldest event, followed by the new event.
   */
  lemma WindowSnoc(events: seq<Event>, e: Event)
    ensures var w, w' := Window(events), Window(events + [e]);
            |w| + 1 - |w'| <= 1 && w' == (w + [e])[|w| + 1 - |w'|..]
  {
    var s := events + [e];
    var w, w' := Window(events), Window(s);
    assert w' == s[|s| - |w'|..];
    assert w + [e] == s[|events| - |w|..];
  }

  /** The same holds for the tick's append, whether or not it evicts. */
  lemma WindowPush(events: seq<Event>, e: Event)
    ensures var w, w' := Window(events), Window(PushBounded(events, e));
            |w| + 1 - |w'| <= 1 && w' == (w + [e])[|w| + 1 - |w'|..]
  {
    var s := events + [e];
    var w, w' := Window(events), Window(PushBounded(events, e));
    if |s| > Capacity {
      var t := s[1..];
      assert PushBounded(events, e) == t;
      assert w' == t[|t| - |w'|..] == s[|s| - |w'|..];
    } else {
      assert w' == s[|s| - |w'|..];
    }
    assert w + [e] == s[|events| - |w|..];
  }

  /**
   * The tick's append: `push` then at most one `shift` when the store
   * exceeds Capacity.
   */
  function PushBounded(events: seq<Event>, e: Event): (r: seq<Event>)
    ensures |events| <= Capacity ==> |r| <= Capacity
    ensures r == events + [e] || (|events| >= Capacity && r == events[1..] + [e])
    ensures |events| >= Capacity ==> r == events[1..] + [e] && |r| == |events|
    ensures |events| <= Capacity ==> r == Last(events + [e], Capacity)
  {
    var s := events + [e];
    if |s| > Capacity then s[1..] else s
  }

  /** Starting within capacity, any run of ticks stays within capacity and keeps the newest events. */
  lemma {:induction false} PushAllBounded(events: seq<Event>, news: seq<Event>)
    requires |events| <= Capacity
    ensures |PushAll(events, news)| <= Capacity
    ensures PushAll(events, news) == Last(events + news, Capacity)
    decreases |news|
  {
    if news != [] {
      var n := |news| - 1;
      var prefix := news[..n];
      PushAllBounded(events, prefix);
      var p := PushAll(events, prefix);
      assert news == prefix + [news[n]];
      var all := events + news;
      assert all == (events + prefix) + [news[n]];
      assert p + [news[n]] == Last(all, |p| + 1);
    }
  }

  /** A sequence of tick appends, oldest first. */
  function PushAll(events: seq<Event>, news: seq<Event>): seq<Event>
    decreases |news|
  {
    if news == [] then events else PushBounded(PushAll(events, news[..|news| - 1]), news[|news| - 1])
  }

  /** The tick's synthetic event for the chosen user. */
  function TickEvent(user: string, ts: string): Event {
    Event(ts, user, FileAccess,
          Details(None, Some("Bhopal, India"), Some("Microsoft 365"), Some("document.xlsx")))
  }

  /** The fixed login that `simulate-anomaly` appends. */
  function SimulatedLogin(ts: string): Event {
    Event(ts, "alice.jones@example.com", Login,
          Details(Some("95.12.110.8"), Some("Frankfurt, Germany"), None, None))
  }

  /**
   * On a full store the tick's append evicts, so it differs from the plain
   * append that `simulate-anomaly` performs.
   */
  lemma SimulateOverflows(events: seq<Event>, ts: string)
    requires |events| == Capacity
    ensures PushBounded(events, SimulatedLogin(ts)) != events + [SimulatedLogin(ts)]
  {
  }

  /** The copy that `/api/events` returns: newest first. */
  function Reverse(s: seq<Event>): (r: seq<Event>)
    ensures |r| == |s|
    ensures forall k :: 0 <= k < |s| ==> r[k] == s[|s| - 1 - k]
  {
    if s == [] then [] else Reverse(s[1..]) + [s[0]]
  }

  /** Reversing the newest-first view gives back the store. */
  lemma ReverseReverse(s: seq<Event>)
    ensures Reverse(Reverse(s)) == s
  {
  }
}
