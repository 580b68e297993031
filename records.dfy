/**
 * The array updates behind the CRUD handlers: `find` / `findIndex` by id,
 * flipping one two-valued field of the found record, `splice`, and the
 * `filter(...).length` counters of `/api/stats`.
 */
module Records {
  import opened Wrappers
  import opened Domain

  /** The index `findIndex` returns (None for -1): the first element satisfying p. */
  function FirstIndex<T>(s: seq<T>, p: T -> bool): (r: Option<nat>)
    ensures r.Some? ==> r.value < |s| && p(s[r.value])
    ensures r.Some? ==> forall j :: 0 <= j < r.value ==> !p(s[j])
    ensures r.None? ==> forall j :: 0 <= j < |s| ==> !p(s[j])
  {
    if s == [] then None
    else if p(s[0]) then Some(0)
    else match FirstIndex(s[1..], p)
      case None => None
      case Some(k) => Some(k + 1)
  }

  /** FirstIndex depends only on which positions satisfy p. */
  lemma FirstIndexSame<T>(s: seq<T>, t: seq<T>, p: T -> bool)
    requires |s| == |t| && forall j :: 0 <= j < |s| ==> p(s[j]) == p(t[j])
    ensures FirstIndex(s, p) == FirstIndex(t, p)
  {
  }

  /** The record `find` returns, changed in place by f; without a match nothing changes. */
  function UpdateFirst<T>(s: seq<T>, p: T -> bool, f: T -> T): seq<T> {
    match FirstIndex(s, p)
    case None => s
    case Some(i) => s[i := f(s[i])]
  }

  /**
   * When f keeps the lookup key and undoes itself, updating twice restores
   * the sequence.
   */
  lemma UpdateFirstTwice<T>(s: seq<T>, p: T -> bool, f: T -> T)
    requires forall j :: 0 <= j < |s| ==> p(f(s[j])) == p(s[j]) && f(f(s[j])) == s[j]
    ensures UpdateFirst(UpdateFirst(s, p, f), p, f) == s
  {
    var once := UpdateFirst(s, p, f);
    FirstIndexSame(s, once, p);
  }

  /** `splice(index, 1)` at the `findIndex` position; without a match nothing changes. */
  function RemoveFirst<T>(s: seq<T>, p: T -> bool): seq<T> {
    match FirstIndex(s, p)
    case None => s
    case Some(i) => s[..i] + s[i + 1..]
  }

  /**
   * Removal at the found position takes out exactly that element and keeps
   * the others in order.
   */
  lemma RemoveFirstEffect<T>(s: seq<T>, p: T -> bool, i: nat)
    requires FirstIndex(s, p) == Some(i)
    ensures var r := RemoveFirst(s, p);
            && |r| == |s| - 1
            && multiset(r) + multiset{s[i]} == multiset(s)
            && (forall j :: 0 <= j < i ==> r[j] == s[j])
            && (forall j :: i <= j < |r| ==> r[j] == s[j + 1])
  {
    assert RemoveFirst(s, p) == s[..i] + s[i + 1..];
    RemoveAtMultiset(s, i);
  }

  lemma RemoveAtMultiset<T>(s: seq<T>, i: nat)
    requires i < |s|
    ensures multiset(s[..i] + s[i + 1..]) + multiset{s[i]} == multiset(s)
  {
    assert s == s[..i] + ([s[i]] + s[i + 1..]);
    calc {
      multiset(s);
      multiset(s[..i]) + multiset([s[i]] + s[i + 1..]);
      multiset(s[..i]) + multiset{s[i]} + multiset(s[i + 1..]);
    }
  }

  /** `filter(p).length`. */
  function Count<T>(s: seq<T>, p: T -> bool): (n: nat)
    ensures n <= |s|
    ensures n == 0 <==> forall j :: 0 <= j < |s| ==> !p(s[j])
  {
    if s == [] then 0 else (if p(s[0]) then 1 else 0) + Count(s[1..], p)
  }

  /** Replacing one element moves the count by that element's change alone. */
  lemma {:induction false} CountUpdate<T>(s: seq<T>, p: T -> bool, i: nat, x: T)
    requires i < |s|
    ensures Count(s[i := x], p) as int == Count(s, p) as int - (if p(s[i]) then 1 else 0) + (if p(x) then 1 else 0)
  {
    if i == 0 {
      assert s[i := x][1..] == s[1..];
    } else {
      assert s[i := x][1..] == s[1..][i - 1 := x];
      CountUpdate(s[1..], p, i - 1, x);
    }
  }

  // Shadow-IT applications: `status` flips between Sanctioned and Unsanctioned.

  function AppIs(id: int): App -> bool { (a: App) => a.id == id }

  function FlipApp(a: App): App {
    a.(status := if a.status == Sanctioned then Unsanctioned else Sanctioned)
  }

  function ToggleApps(apps: seq<App>, id: int): seq<App> { UpdateFirst(apps, AppIs(id), FlipApp) }

  /** Toggling the first app with this id changes its status and nothing else; an unknown id changes nothing. */
  lemma ToggleAppsEffect(apps: seq<App>, id: int)
    ensures var r := ToggleApps(apps, id);
            match FirstIndex(apps, AppIs(id))
            case None => r == apps
            case Some(i) =>
              && |r| == |apps| && r[i].status != apps[i].status && r[i] == apps[i].(status := r[i].status)
              && forall j :: 0 <= j < |apps| && j != i ==> r[j] == apps[j]
  {
  }

  lemma ToggleAppsTwice(apps: seq<App>, id: int)
    ensures ToggleApps(ToggleApps(apps, id), id) == apps
  {
    UpdateFirstTwice(apps, AppIs(id), FlipApp);
  }

  // Policies: `enabled` is negated.

  function PolicyIs(id: string): Policy -> bool { (p: Policy) => p.id == id }

  function FlipPolicy(p: Policy): Policy { p.(enabled := !p.enabled) }

  function TogglePolicies(policies: seq<Policy>, id: string): seq<Policy> {
    UpdateFirst(policies, PolicyIs(id), FlipPolicy)
  }

  lemma TogglePoliciesEffect(policies: seq<Policy>, id: string)
    ensures var r := TogglePolicies(policies, id);
            match FirstIndex(policies, PolicyIs(id))
            case None => r == policies
            case Some(i) =>
              && |r| == |policies| && r[i].enabled == !policies[i].enabled && r[i] == policies[i].(enabled := r[i].enabled)
              && forall j :: 0 <= j < |policies| && j != i ==> r[j] == policies[j]
  {
  }

  lemma TogglePoliciesTwice(policies: seq<Policy>, id: string)
    ensures TogglePolicies(TogglePolicies(policies, id), id) == policies
  {
    UpdateFirstTwice(policies, PolicyIs(id), FlipPolicy);
  }

  // Users: `status` flips between Active and Inactive.

  function UserIs(id: int): User -> bool { (u: User) => u.id == id }

  function FlipUser(u: User): User {
    u.(status := if u.status == Active then Inactive else Active)
  }

  function ToggleUsers(users: seq<User>, id: int): seq<User> { UpdateFirst(users, UserIs(id), FlipUser) }

  lemma ToggleUsersEffect(users: seq<User>, id: int)
    ensures var r := ToggleUsers(users, id);
            match FirstIndex(users, UserIs(id))
            case None => r == users
            case Some(i) =>
              && |r| == |users| && r[i].status != users[i].status && r[i] == users[i].(status := r[i].status)
              && forall j :: 0 <= j < |users| && j != i ==> r[j] == users[j]
  {
  }

  lemma ToggleUsersTwice(users: seq<User>, id: int)
    ensures ToggleUsers(ToggleUsers(users, id), id) == users
  {
    UpdateFirstTwice(users, UserIs(id), FlipUser);
  }

  // Services: `status` flips between Connected and Disconnected.

  function ServiceIs(id: string): Service -> bool { (s: Service) => s.id == id }

  function FlipService(s: Service): Service {
    s.(status := if s.status == Connected then Disconnected else Connected)
  }

  function ToggleServices(services: seq<Service>, id: string): seq<Service> {
    UpdateFirst(services, ServiceIs(id), FlipService)
  }

  lemma ToggleServicesEffect(services: seq<Service>, id: string)
    ensures var r := ToggleServices(services, id);
            match FirstIndex(services, ServiceIs(id))
            case None => r == services
            case Some(i) =>
              && |r| == |services| && r[i].status != services[i].status && r[i] == services[i].(status := r[i].status)
              && forall j :: 0 <= j < |services| && j != i ==> r[j] == services[j]
  {
  }

  lemma ToggleServicesTwice(services: seq<Service>, id: string)
    ensures ToggleServices(ToggleServices(services, id), id) == services
  {
    UpdateFirstTwice(services, ServiceIs(id), FlipService);
  }

  // The `/api/stats` counters that filter.

  predicate IsEnabled(p: Policy) { p.enabled }
  predicate IsConnected(s: Service) { s.status == Connected }

  /** A policy toggle moves the active-policy count by exactly one, in the direction of the flip. */
  lemma ToggleMovesActiveCount(policies: seq<Policy>, id: string, i: nat)
    requires FirstIndex(policies, PolicyIs(id)) == Some(i)
    ensures Count(TogglePolicies(policies, id), IsEnabled) as int ==
              Count(policies, IsEnabled) as int + (if policies[i].enabled then -1 else 1)
  {
    CountUpdate(policies, IsEnabled, i, FlipPolicy(policies[i]));
  }

  /** A service toggle moves the connected-service count by exactly one, in the direction of the flip. */
  lemma ToggleMovesConnectedCount(services: seq<Service>, id: string, i: nat)
    requires FirstIndex(services, ServiceIs(id)) == Some(i)
    ensures Count(ToggleServices(services, id), IsConnected) as int ==
              Count(services, IsConnected) as int + (if services[i].status == Connected then -1 else 1)
  {
    CountUpdate(services, IsConnected, i, FlipService(services[i]));
  }
}
