/**
 * The behaviour model (`userBehaviorModel`) and one pass of
 * `runAnomalyDetection`, as functions of the state before the pass.
 */
module Detection {
  import opened Wrappers
  import opened Text
  import opened Domain
  import opened Events

  /** The behaviour model: user email to usual country. */
  type Baseline = map<string, string>

  /** The model as the seeding `forEach` builds it: later users overwrite earlier ones. */
  function BaselineOf(users: seq<User>): Baseline
    decreases |users|
  {
    if users == [] then map[]
    else BaselineOf(users[..|users| - 1])[users[|users| - 1].email := users[|users| - 1].usualCountry]
  }

  /** Every user's email is a key, nothing else is, and the last user with an email decides its country. */
  lemma {:induction false} BaselineOfFacts(users: seq<User>)
    ensures forall e :: e in BaselineOf(users) <==> exists i :: 0 <= i < |users| && users[i].email == e
    ensures forall i :: 0 <= i < |users| && (forall j :: i < j < |users| ==> users[j].email != users[i].email) ==>
              BaselineOf(users)[users[i].email] == users[i].usualCountry
    decreases |users|
  {
    if users != [] {
      var n := |users| - 1;
      BaselineOfFacts(users[..n]);
      forall e | e in BaselineOf(users) ensures exists i :: 0 <= i < |users| && users[i].email == e {
        if e != users[n].email {
          var i :| 0 <= i < n && users[..n][i].email == e;
          assert users[i].email == e;
        }
      }
    }
  }

  /** The seeding loop over the users (`forEach` writing one model entry per user). */
  method SeedBaseline(users: seq<User>) returns (m: Baseline)
    ensures m == BaselineOf(users)
  {
    m := map[];
    var i := 0;
    while i < |users|
      invariant i <= |users|
      invariant m == BaselineOf(users[..i])
    {
      assert users[..i + 1][..i] == users[..i];
      m := m[users[i].email := users[i].usualCountry];
      i := i + 1;
    }
    assert users[..|users|] == users;
  }

  /** The JavaScript text of an optional field inside a template literal. */
  function Show(o: Option<string>): string {
    match o
    case Some(s) => s
    case None => "undefined"
  }

  /** Whether the detector regards e as an unusual login (before the dedup guard). */
  predicate Suspicious(model: Baseline, e: Event) {
    && e.action == Login
    && e.details.location.Some? && e.details.location.value != ""
    && e.user in model
    && SecondField(e.details.location.value) != Some(model[e.user])
  }

  /** The dedup guard: some stored threat's details mention ts. */
  predicate AlreadyReported(threats: seq<Threat>, ts: string) {
    exists i :: 0 <= i < |threats| && Contains(threats[i].details, ts)
  }

  /** The details text of the threat raised for e. */
  function AlertDetails(e: Event): string {
    "ML Model: Login from " + Show(e.details.location) + " deviates from normal behavior. (Event TS: " + e.ts + ")"
  }

  /** The threat raised for e at detection time now. */
  function Alert(e: Event, now: string): (t: Threat)
    ensures t.kind == UnusualLoginLocation && t.status == Alerted && t.ts == now
    ensures t.user == e.user && t.ip == e.details.ip
    ensures Contains(t.details, e.ts)
  {
    ContainsMiddle("ML Model: Login from " + Show(e.details.location) + " deviates from normal behavior. (Event TS: ", e.ts, ")");
    Threat(now, UnusualLoginLocation, e.user, e.details.ip, AlertDetails(e), Alerted)
  }

  /** Whether the pass raises a threat for e given the threats stored when e is reached. */
  predicate Fires(model: Baseline, threats: seq<Threat>, e: Event) {
    Suspicious(model, e) && !AlreadyReported(threats, e.ts)
  }

  /** One iteration of the `forEach`: prepend a threat for e or leave the store alone. */
  function Step(model: Baseline, now: string, threats: seq<Threat>, e: Event): seq<Threat> {
    if Fires(model, threats, e) then [Alert(e, now)] + threats else threats
  }

  /** The threat store after the pass has visited every event of w in order. */
  function Scan(model: Baseline, now: string, threats: seq<Threat>, w: seq<Event>): seq<Threat>
    decreases |w|
  {
    if w == [] then threats
    else Step(model, now, Scan(model, now, threats, w[..|w| - 1]), w[|w| - 1])
  }

  /** Visiting one more event is one more loop iteration. */
  lemma ScanSnoc(model: Baseline, now: string, threats: seq<Threat>, w: seq<Event>, e: Event)
    ensures Scan(model, now, threats, w + [e]) == Step(model, now, Scan(model, now, threats, w), e)
  {
    assert (w + [e])[..|w|] == w;
  }

  /** The events of w that the pass reports, in the order it reaches them. */
  function Reported(model: Baseline, now: string, threats: seq<Threat>, w: seq<Event>): seq<Event>
    decreases |w|
  {
    if w == [] then []
    else
      var prev := w[..|w| - 1];
      Reported(model, now, threats, prev)
        + (if Fires(model, Scan(model, now, threats, prev), w[|w| - 1]) then [w[|w| - 1]] else [])
  }

  /** The threats raised for es, newest (last reported) first. */
  function Alerts(es: seq<Event>, now: string): (r: seq<Threat>)
    ensures |r| == |es|
    ensures forall k :: 0 <= k < |es| ==> r[|es| - 1 - k] == Alert(es[k], now)
  {
    if es == [] then [] else [Alert(es[|es| - 1], now)] + Alerts(es[..|es| - 1], now)
  }

  /** Every suspicious event of w is already mentioned by some stored threat. */
  predicate Covered(model: Baseline, threats: seq<Threat>, w: seq<Event>) {
    forall i :: 0 <= i < |w| && Suspicious(model, w[i]) ==> AlreadyReported(threats, w[i].ts)
  }

  /** Prepending threats never un-reports a timestamp. */
  lemma ReportedPrefix(a: seq<Threat>, threats: seq<Threat>, ts: string)
    ensures AlreadyReported(a + threats, ts) <==> AlreadyReported(a, ts) || AlreadyReported(threats, ts)
  {
    var s := a + threats;
    if AlreadyReported(threats, ts) {
      var i :| 0 <= i < |threats| && Contains(threats[i].details, ts);
      assert s[|a| + i] == threats[i];
    }
    if AlreadyReported(a, ts) {
      var i :| 0 <= i < |a| && Contains(a[i].details, ts);
      assert s[i] == a[i];
    }
    if AlreadyReported(s, ts) {
      var i :| 0 <= i < |s| && Contains(s[i].details, ts);
      if i < |a| { assert s[i] == a[i]; } else { assert s[i] == threats[i - |a|]; }
    }
  }

  /**
   * Nothing else changes: the pass prepends one threat per reported event,
   * newest first, and keeps every previously stored threat in order after them.
   */
  lemma {:induction false} ScanShape(model: Baseline, now: string, threats: seq<Threat>, w: seq<Event>)
    ensures Scan(model, now, threats, w) == Alerts(Reported(model, now, threats, w), now) + threats
    decreases |w|
  {
    if w != [] {
      var prev := w[..|w| - 1];
      var e := w[|w| - 1];
      ScanShape(model, now, threats, prev);
      var r := Reported(model, now, threats, prev);
      if Fires(model, Scan(model, now, threats, prev), e) {
        assert (r + [e])[..|r|] == r;
      } else {
        assert r + [] == r;
      }
    }
  }

  /**
   * What the pass reports: only events of the window, only suspicious ones,
   * and only timestamps no stored threat mentioned before the pass.
   */
  lemma {:induction false} ReportedFacts(model: Baseline, now: string, threats: seq<Threat>, w: seq<Event>)
    ensures var r := Reported(model, now, threats, w);
            && |r| <= |w|
            && forall k :: 0 <= k < |r| ==> r[k] in w && Suspicious(model, r[k]) && !AlreadyReported(threats, r[k].ts)
    decreases |w|
  {
    if w != [] {
      var prev := w[..|w| - 1];
      var e := w[|w| - 1];
      ReportedFacts(model, now, threats, prev);
      var r0 := Reported(model, now, threats, prev);
      var before := Scan(model, now, threats, prev);
      assert forall k :: 0 <= k < |r0| ==> r0[k] in w by {
        forall k | 0 <= k < |r0| ensures r0[k] in w {
          assert r0[k] in prev;
        }
      }
      if Fires(model, before, e) {
        ScanShape(model, now, threats, prev);
        ReportedPrefix(Alerts(r0, now), threats, e.ts);
      }
    }
  }

  /** No report's timestamp is mentioned by the alert of an earlier report. */
  predicate DistinctReports(r: seq<Event>) {
    forall j, k :: 0 <= j < k < |r| ==> !Contains(AlertDetails(r[j]), r[k].ts)
  }

  /**
   * Across passes: no event reported by any later pass shares a timestamp
   * with an event reported by an earlier one. The later pass starts from the
   * earlier pass's result with whatever the passes in between prepended
   * (`pre`), and the earlier pass's alert still mentions that timestamp.
   */
  lemma AcrossPasses(m1: Baseline, n1: string, m2: Baseline, n2: string, threats: seq<Threat>,
                     pre: seq<Threat>, w1: seq<Event>, w2: seq<Event>)
    ensures var r1 := Reported(m1, n1, threats, w1);
            var r2 := Reported(m2, n2, pre + Scan(m1, n1, threats, w1), w2);
            forall j, k :: 0 <= j < |r1| && 0 <= k < |r2| ==> r1[j].ts != r2[k].ts
  {
    var r1 := Reported(m1, n1, threats, w1);
    var mid := Scan(m1, n1, threats, w1);
    var r2 := Reported(m2, n2, pre + mid, w2);
    ScanShape(m1, n1, threats, w1);
    ReportedFacts(m2, n2, pre + mid, w2);
    forall j, k | 0 <= j < |r1| && 0 <= k < |r2| ensures r1[j].ts != r2[k].ts {
      AlertsMention(r1, n1, threats, j);
      ReportedPrefix(pre, mid, r1[j].ts);
    }
  }

  /**
   * When every listed user is registered in the model, a located login by a
   * listed user is checked: it is suspicious exactly when its parsed country
   * differs from the registered one.
   */
  lemma ListedUserChecked(model: Baseline, users: seq<User>, e: Event, j: nat)
    requires forall i :: 0 <= i < |users| ==> users[i].email in model
    requires j < |users| && e.user == users[j].email
    requires e.action == Login && e.details.location.Some? && e.details.location.value != ""
    ensures Suspicious(model, e) <==> SecondField(e.details.location.value) != Some(model[e.user])
  {
  }

  /** The alert of every reported event mentions that event's timestamp. */
  lemma AlertsMention(r: seq<Event>, now: string, threats: seq<Threat>, j: nat)
    requires j < |r|
    ensures AlreadyReported(Alerts(r, now) + threats, r[j].ts)
  {
    var s := Alerts(r, now) + threats;
    var at := |r| - 1 - j;
    assert s[at] == Alert(r[j], now);
    assert Contains(s[at].details, r[j].ts);
  }

  /** Distinct reports have distinct timestamps. */
  lemma DistinctTimestamps(r: seq<Event>)
    requires DistinctReports(r)
    ensures forall j, k :: 0 <= j < k < |r| ==> r[j].ts != r[k].ts
  {
    forall j, k | 0 <= j < k < |r| ensures r[j].ts != r[k].ts {
      var t := Alert(r[j], "");
    }
  }

  lemma DistinctSnoc(r: seq<Event>, e: Event)
    requires DistinctReports(r)
    requires forall j :: 0 <= j < |r| ==> !Contains(AlertDetails(r[j]), e.ts)
    ensures DistinctReports(r + [e])
  {
    var r' := r + [e];
    forall j, k | 0 <= j < k < |r'| ensures !Contains(AlertDetails(r'[j]), r'[k].ts) {
      assert r'[j] == r[j];
      if k < |r| { assert r'[k] == r[k]; }
    }
  }

  /** A timestamp no stored threat mentions is not mentioned by any of the alerts in front. */
  lemma NotMentionedByAlerts(r: seq<Event>, now: string, threats: seq<Threat>, ts: string)
    requires !AlreadyReported(Alerts(r, now) + threats, ts)
    ensures forall j :: 0 <= j < |r| ==> !Contains(AlertDetails(r[j]), ts)
  {
    var a := Alerts(r, now);
    forall j | 0 <= j < |r| ensures !Contains(AlertDetails(r[j]), ts) {
      assert (a + threats)[|r| - 1 - j] == Alert(r[j], now);
    }
  }

  /**
   * No timestamp is reported twice in one pass: the alert for an earlier
   * report does not mention a later report's timestamp.
   */
  lemma {:induction false} ReportedDistinct(model: Baseline, now: string, threats: seq<Threat>, w: seq<Event>)
    ensures DistinctReports(Reported(model, now, threats, w))
    decreases |w|
  {
    if w != [] {
      var prev := w[..|w| - 1];
      var e := w[|w| - 1];
      ReportedDistinct(model, now, threats, prev);
      var r0 := Reported(model, now, threats, prev);
      if Fires(model, Scan(model, now, threats, prev), e) {
        ScanShape(model, now, threats, prev);
        NotMentionedByAlerts(r0, now, threats, e.ts);
        DistinctSnoc(r0, e);
      } else {
        assert Reported(model, now, threats, w) == r0 + [] == r0;
      }
    }
  }

  /** Each pass adds at most one threat per event of the window. */
  lemma ScanGrowth(model: Baseline, now: string, threats: seq<Threat>, w: seq<Event>)
    ensures |threats| <= |Scan(model, now, threats, w)| <= |threats| + |w|
  {
    ScanShape(model, now, threats, w);
    ReportedFacts(model, now, threats, w);
  }

  /**
   * A window with no event that the detector can regard as unusual leaves the
   * store unchanged: non-logins, logins without a location, logins by users
   * the model does not know, and logins from the user's usual country.
   */
  lemma QuietWindow(model: Baseline, now: string, threats: seq<Threat>, w: seq<Event>)
    requires forall i :: 0 <= i < |w| ==>
               || w[i].action != Login
               || w[i].details.location.None? || w[i].details.location == Some("")
               || w[i].user !in model
               || SecondField(w[i].details.location.value) == Some(model[w[i].user])
    ensures Scan(model, now, threats, w) == threats
  {
    ScanShape(model, now, threats, w);
    ReportedFacts(model, now, threats, w);
  }

  /** After a pass, every suspicious event of its window is mentioned by a stored threat. */
  lemma {:induction false} ScanCovers(model: Baseline, now: string, threats: seq<Threat>, w: seq<Event>)
    ensures Covered(model, Scan(model, now, threats, w), w)
    decreases |w|
  {
    if w != [] {
      var prev := w[..|w| - 1];
      var e := w[|w| - 1];
      ScanCovers(model, now, threats, prev);
      var before := Scan(model, now, threats, prev);
      var after := Step(model, now, before, e);
      var a := if Fires(model, before, e) then [Alert(e, now)] else [];
      assert after == a + before;
      forall i | 0 <= i < |w| && Suspicious(model, w[i]) ensures AlreadyReported(after, w[i].ts) {
        ReportedPrefix(a, before, w[i].ts);
        if i < |w| - 1 {
          assert w[i] == prev[i];
        } else if a != [] {
          assert Contains(a[0].details, e.ts);
        }
      }
    }
  }

  /** A pass over a window that is already covered changes nothing. */
  lemma {:induction false} CoveredFixed(model: Baseline, now: string, threats: seq<Threat>, w: seq<Event>)
    requires Covered(model, threats, w)
    ensures Scan(model, now, threats, w) == threats
    decreases |w|
  {
    if w != [] {
      var prev := w[..|w| - 1];
      assert Covered(model, threats, prev) by {
        forall i | 0 <= i < |prev| && Suspicious(model, prev[i]) ensures AlreadyReported(threats, prev[i].ts) {
          assert prev[i] == w[i];
        }
      }
      CoveredFixed(model, now, threats, prev);
      assert !Fires(model, threats, w[|w| - 1]);
    }
  }

  /** Idempotence: a second pass over the same window adds nothing, whatever the clock says. */
  lemma Idempotent(model: Baseline, now: string, later: string, threats: seq<Threat>, w: seq<Event>)
    ensures var once := Scan(model, now, threats, w);
            Scan(model, later, once, w) == once
  {
    ScanCovers(model, now, threats, w);
    CoveredFixed(model, later, Scan(model, now, threats, w), w);
  }

  /** Covered survives dropping old events from the front of the window. */
  lemma CoveredSuffix(model: Baseline, threats: seq<Threat>, w: seq<Event>, k: nat)
    requires k <= |w| && Covered(model, threats, w)
    ensures Covered(model, threats, w[k..])
  {
    forall i | 0 <= i < |w| - k && Suspicious(model, w[k..][i]) ensures AlreadyReported(threats, w[k..][i].ts) {
      assert w[k..][i] == w[k + i];
    }
  }

  /**
   * Appending one event to a covered window: the pass raises exactly the
   * threat for that event when it fires, and nothing otherwise.
   */
  lemma ScanAppended(model: Baseline, now: string, threats: seq<Threat>, w: seq<Event>, e: Event)
    requires Covered(model, threats, w)
    ensures Scan(model, now, threats, w + [e]) == Step(model, now, threats, e)
  {
    assert (w + [e])[..|w|] == w;
    CoveredFixed(model, now, threats, w);
  }

  /**
   * A known user's login with a location and no earlier report: silence when
   * the second location field is the usual country, exactly one alert when it
   * differs or is missing.
   */
  lemma LoginOutcome(model: Baseline, now: string, threats: seq<Threat>, w: seq<Event>, e: Event)
    requires Covered(model, threats, w)
    requires e.action == Login && e.details.location.Some? && e.details.location.value != ""
    requires e.user in model && !AlreadyReported(threats, e.ts)
    ensures Scan(model, now, threats, w + [e]) ==
              if SecondField(e.details.location.value) == Some(model[e.user]) then threats
              else [Alert(e, now)] + threats
  {
    ScanAppended(model, now, threats, w, e);
  }

  /** The scenario: baseline {alice: India}, one login from Frankfurt, then a second pass. */
  lemma AliceScenario(ts: string, now: string, later: string)
    ensures var alice := "alice.jones@example.com";
            var model := map[alice := "India"];
            var e := Event(ts, alice, Login, Details(Some("95.12.110.8"), Some("Frankfurt, Germany"), None, None));
            var once := Scan(model, now, [], [e]);
            && once == [Threat(now, UnusualLoginLocation, alice, Some("95.12.110.8"), AlertDetails(e), Alerted)]
            && Scan(model, later, once, [e]) == once
  {
    var alice := "alice.jones@example.com";
    var model := map[alice := "India"];
    var e := Event(ts, alice, Login, Details(Some("95.12.110.8"), Some("Frankfurt, Germany"), None, None));
    FrankfurtIsGermany();
    assert [] + [e] == [e];
    LoginOutcome(model, now, [], [], e);
    Idempotent(model, now, later, [], [e]);
  }

  /** Appending an event that is not suspicious keeps a window covered. */
  lemma CoveredSnoc(model: Baseline, threats: seq<Threat>, w: seq<Event>, e: Event)
    requires Covered(model, threats, w) && !Suspicious(model, e)
    ensures Covered(model, threats, w + [e])
  {
    forall i | 0 <= i < |w| + 1 && Suspicious(model, (w + [e])[i]) ensures AlreadyReported(threats, (w + [e])[i].ts) {
      assert (w + [e])[i] == w[i];
    }
  }

  /**
   * A tick keeps a covered window covered: its File Access event is never
   * suspicious, and eviction only drops events from the front.
   */
  lemma TickKeepsCovered(model: Baseline, threats: seq<Threat>, events: seq<Event>, e: Event)
    requires e.action != Login && Covered(model, threats, Window(events))
    ensures Covered(model, threats, Window(PushBounded(events, e)))
  {
    var w := Window(events);
    WindowPush(events, e);
    CoveredSnoc(model, threats, w, e);
    CoveredSuffix(model, threats, w + [e], |w| + 1 - |Window(PushBounded(events, e))|);
  }

  /**
   * From a store that covers the current window, the pass after a tick's
   * append adds no threat.
   */
  lemma TickQuiet(model: Baseline, now: string, threats: seq<Threat>, events: seq<Event>, e: Event)
    requires e.action != Login && Covered(model, threats, Window(events))
    ensures Scan(model, now, threats, Window(PushBounded(events, e))) == threats
  {
    TickKeepsCovered(model, threats, events, e);
    CoveredFixed(model, now, threats, Window(PushBounded(events, e)));
  }

  /**
   * From a store that covers the current window, the pass after a plain
   * append is one loop iteration on the appended event.
   */
  lemma AppendThenScan(model: Baseline, now: string, threats: seq<Threat>, events: seq<Event>, e: Event)
    requires Covered(model, threats, Window(events))
    ensures Scan(model, now, threats, Window(events + [e])) == Step(model, now, threats, e)
  {
    WindowSnoc(events, e);
    var w := Window(events);
    var k := |w| + 1 - |Window(events + [e])|;
    assert (w + [e])[k..] == w[k..] + [e];
    CoveredSuffix(model, threats, w, k);
    ScanAppended(model, now, threats, w[k..], e);
  }

  /**
   * The simulated Frankfurt login for alice raises one alert exactly when
   * alice is in the model with a usual country other than Germany and no
   * stored threat mentions its timestamp.
   */
  lemma SimulatedLoginStep(model: Baseline, now: string, threats: seq<Threat>, ts: string)
    ensures var alice := "alice.jones@example.com";
            Step(model, now, threats, SimulatedLogin(ts)) ==
              if alice in model && model[alice] != "Germany" && !AlreadyReported(threats, ts)
              then [Alert(SimulatedLogin(ts), now)] + threats
              else threats
  {
    FrankfurtIsGermany();
  }

  /** The simulated login's location parses to Germany. */
  lemma FrankfurtIsGermany()
    ensures SecondField("Frankfurt, Germany") == Some("Germany")
  {
    SecondFieldOfPair("Frankfurt", "Germany", None);
    assert "Frankfurt" + ", " + "Germany" + "" == "Frankfurt, Germany";
  }
}
