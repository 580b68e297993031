/**
 * The server's mutable state (`mockData` and `userBehaviorModel`) and the
 * handlers and timer callback that change it.
 */
module Server {
  import opened Wrappers
  import opened Domain
  import opened Events
  import opened Detection
  import opened Records

  class Casb {
    var shadowIT: seq<App>
    var dlpIncidents: seq<DlpIncident>
    var threats: seq<Threat>
    var policies: seq<Policy>
    var users: seq<User>
    var services: seq<Service>
    var events: seq<Event>
    /** `userBehaviorModel`: email to usual country. */
    var model: Baseline

    /**
     * Every current user has an entry in the behaviour model, so every
     * located login of a current user is checked (`Detection.ListedUserChecked`).
     */
    ghost predicate Registered()
      reads this
    {
      forall i :: 0 <= i < |users| ==> users[i].email in model
    }

    /** The seeded database, with the behaviour model built from its users. */
    constructor (shadowIT0: seq<App>, dlp0: seq<DlpIncident>, threats0: seq<Threat>, policies0: seq<Policy>,
                 users0: seq<User>, services0: seq<Service>, events0: seq<Event>)
      ensures shadowIT == shadowIT0 && dlpIncidents == dlp0 && threats == threats0 && policies == policies0
      ensures users == users0 && services == services0 && events == events0
      ensures model == BaselineOf(users0)
      ensures Registered()
    {
      shadowIT, dlpIncidents, threats, policies := shadowIT0, dlp0, threats0, policies0;
      users, services, events := users0, services0, events0;
      var seeded := SeedBaseline(users0);
      model := seeded;
      new;
      BaselineOfFacts(users0);
    }

    /** `runAnomalyDetection`, with the detection time supplied by the caller. */
    method RunAnomalyDetection(now: string)
      modifies this`threats
      ensures threats == Scan(model, now, old(threats), Window(events))
      ensures Covered(model, threats, Window(events))
    {
      var recent := Window(events);
      var i := 0;
      ghost var visited: seq<Event> := [];
      while i < |recent|
        invariant i <= |recent| && visited == recent[..i]
        invariant threats == Scan(model, now, old(threats), visited)
      {
        var event := recent[i];
        ghost var before := threats;
        ScanSnoc(model, now, old(threats), visited, event);
        if event.action == Login && event.details.location.Some? && event.details.location.value != "" {
          var country := Text.SecondField(event.details.location.value);
          if event.user in model && country != Some(model[event.user]) {
            var threatExists := AlreadyReported(threats, event.ts);
            if !threatExists {
              threats := [Alert(event, now)] + threats;
            }
          }
        }
        assert threats == Step(model, now, before, event);
        visited := visited + [event];
        i := i + 1;
      }
      assert visited == recent;
      ScanCovers(model, now, old(threats), recent);
    }

    /**
     * The timer callback, with the random pick, the event time and the
     * detection time supplied by the caller. A pick past the end of `users`
     * is JavaScript's `undefined`: no event is appended.
     */
    method Tick(pick: nat, ts: string, now: string)
      modifies this`events, this`threats
      ensures events == if pick < |users| then PushBounded(old(events), TickEvent(users[pick].email, ts)) else old(events)
      ensures threats == Scan(model, now, old(threats), Window(events))
      ensures Covered(model, old(threats), Window(old(events))) ==> threats == old(threats)
    {
      if pick < |users| {
        var newEvent := TickEvent(users[pick].email, ts);
        ghost var before := events;
        events := PushBounded(events, newEvent);
        RunAnomalyDetection(now);
        if Covered(model, old(threats), Window(before)) {
          TickQuiet(model, now, old(threats), before, newEvent);
        }
      } else {
        RunAnomalyDetection(now);
        if Covered(model, old(threats), Window(events)) {
          CoveredFixed(model, now, old(threats), Window(events));
        }
      }
    }

    /** `POST /api/simulate-anomaly`: append the fixed Frankfurt login for alice and run detection. */
    method SimulateAnomaly(ts: string, now: string) returns (e: Event)
      modifies this`events, this`threats
      ensures e == SimulatedLogin(ts)
      ensures events == old(events) + [e]
      ensures threats == Scan(model, now, old(threats), Window(events))
      ensures Covered(model, old(threats), Window(old(events))) ==> threats == Step(model, now, old(threats), e)
    {
      e := SimulatedLogin(ts);
      events := events + [e];
      RunAnomalyDetection(now);
      if Covered(model, old(threats), Window(old(events))) {
        AppendThenScan(model, now, old(threats), old(events), e);
      }
    }

    /** `GET /api/events`: a newest-first copy; the store itself is not touched. */
    function EventsNewestFirst(): (r: seq<Event>)
      reads this
      ensures |r| == |events|
      ensures forall k :: 0 <= k < |r| ==> r[k] == events[|events| - 1 - k]
    {
      Reverse(events)
    }

    /** `GET /api/stats`. */
    function Statistics(): (r: Stats)
      reads this
      ensures r.activePolicies <= |policies| && r.connectedServices <= |services|
      ensures r.activePolicies == 0 <==> forall j :: 0 <= j < |policies| ==> !policies[j].enabled
      ensures r.connectedServices == 0 <==> forall j :: 0 <= j < |services| ==> services[j].status != Connected
    {
      Stats(|shadowIT|, |dlpIncidents|, |threats|, Count(policies, IsEnabled), |users|, Count(services, IsConnected))
    }

    /** `POST /api/shadow-it/:id/toggle-status`, the id already parsed; None is the 404 answer. */
    method ToggleShadowIT(id: int) returns (r: Option<App>)
      modifies this`shadowIT
      ensures shadowIT == ToggleApps(old(shadowIT), id)
      ensures match FirstIndex(old(shadowIT), AppIs(id))
              case None => r == None
              case Some(i) => r == Some(shadowIT[i])
    {
      var found := FirstIndex(shadowIT, AppIs(id));
      match found
      case None => r := None;
      case Some(i) =>
        shadowIT := shadowIT[i := FlipApp(shadowIT[i])];
        r := Some(shadowIT[i]);
    }

    /** `POST /api/policies/:id/toggle-status`. */
    method TogglePolicy(id: string) returns (r: Option<Policy>)
      modifies this`policies
      ensures policies == TogglePolicies(old(policies), id)
      ensures match FirstIndex(old(policies), PolicyIs(id))
              case None => r == None
              case Some(i) => r == Some(policies[i])
    {
      var found := FirstIndex(policies, PolicyIs(id));
      match found
      case None => r := None;
      case Some(i) =>
        policies := policies[i := FlipPolicy(policies[i])];
        r := Some(policies[i]);
    }

    /** `POST /api/users/:id/toggle-status`, the id already parsed. */
    method ToggleUser(id: int) returns (r: Option<User>)
      modifies this`users
      ensures users == ToggleUsers(old(users), id)
      ensures match FirstIndex(old(users), UserIs(id))
              case None => r == None
              case Some(i) => r == Some(users[i])
      ensures old(Registered()) ==> Registered()
    {
      var found := FirstIndex(users, UserIs(id));
      match found
      case None => r := None;
      case Some(i) =>
        users := users[i := FlipUser(users[i])];
        r := Some(users[i]);
    }

    /** `POST /api/services/:id/toggle-status`. */
    method ToggleService(id: string) returns (r: Option<Service>)
      modifies this`services
      ensures services == ToggleServices(old(services), id)
      ensures match FirstIndex(old(services), ServiceIs(id))
              case None => r == None
              case Some(i) => r == Some(services[i])
    {
      var found := FirstIndex(services, ServiceIs(id));
      match found
      case None => r := None;
      case Some(i) =>
        services := services[i := FlipService(services[i])];
        r := Some(services[i]);
    }

    /**
     * `POST /api/users`: the new user is Active with usual country India and
     * is registered in the behaviour model, overwriting any earlier entry for
     * the same email.
     */
    method AddUser(id: int, name: string, email: string, role: string) returns (u: User)
      modifies this`users, this`model
      ensures u == User(id, name, email, role, Active, "India")
      ensures users == old(users) + [u]
      ensures model == old(model)[email := "India"]
      ensures old(Registered()) ==> Registered()
      ensures old(model == BaselineOf(users)) ==> model == BaselineOf(users)
    {
      u := User(id, name, email, role, Active, "India");
      users := users + [u];
      model := model[u.email := u.usualCountry];
      assert users[..|users| - 1] == old(users);
    }

    /**
     * `DELETE /api/users/:id`, the id already parsed: the user is spliced
     * out; the behaviour model keeps the entry.
     */
    method DeleteUser(id: int) returns (deleted: bool)
      modifies this`users
      ensures deleted == FirstIndex(old(users), UserIs(id)).Some?
      ensures users == RemoveFirst(old(users), UserIs(id))
      ensures old(Registered()) ==> Registered()
    {
      var index := FirstIndex(users, UserIs(id));
      match index
      case None => deleted := false;
      case Some(i) =>
        RemoveFirstEffect(users, UserIs(id), i);
        users := users[..i] + users[i + 1..];
        deleted := true;
    }
  }
}
