# CASB dashboard backend: behavioural-anomaly pipeline

A Dafny model of the one piece of logic in the CASB demo server (`server.js`):
the in-memory anomaly pipeline. The server keeps a rolling store of user
activity events (`userEvents`). It also keeps a behaviour model mapping each
user's email to a usual country (`userBehaviorModel`). A detector scans the
last ten events. For each login from a known user, it compares the login's
country with the usual one. On a mismatch it prepends an
"Unusual Login Location" threat to `threats`, unless an existing threat's
details already mention the event's timestamp.

The model also covers the array updates next to the pipeline:
- the four toggle handlers (shadow-IT apps, policies, users, services);
- adding and deleting users, which maintains the behaviour model;
- the `/api/stats` counters;
- the newest-first `/api/events` view.

Layout, one module per concern:

- `wrappers.dfy`, module `Wrappers`: `Option`. `None` stands for JavaScript's `undefined`.
- `text.dfy`, module `Text`: `split(', ')[1]` (`SecondField`) and `includes` (`Contains`), with JavaScript's meaning.
- `domain.dfy`, module `Domain`: the records of the in-memory database.
- `events.dfy`, module `Events`: things about the event store alone.
  - the trailing window (`slice(-10)`);
  - the tick's bounded append (`push` and then one `shift`);
  - the two synthetic events;
  - the reversed read view.
- `detection.dfy`, module `Detection`: the behaviour model and its seeding loop.
  - One detection pass as a specification. `Step` is one loop iteration; `Scan` is the whole pass.
  - The lemmas about the pass.
- `records.dfy`, module `Records`: the array updates.
  - `find`/`findIndex` (`FirstIndex`), the in-place flip of the found record, `splice`, and `filter(...).length`;
  - one toggle per record type.
- `server.dfy`, module `Server`: class `Casb` holds `mockData` and `userBehaviorModel` as fields. Its methods are the handlers and the timer callback. Each method's `ensures` ties the new state to the old one through the functions above.

The clock, the random pick and the request parameters are method parameters:
- `now`: the formatted detection time given to new threats;
- `ts`: an event timestamp, an opaque string;
- `pick`: the index `Math.floor(Math.random() * users.length)`;
- the already-parsed path id.

### Behaviour worth knowing (the model follows the code)

- **Country.** The country is the second `", "`-separated field of the location, not the text after the last separator. With no separator it is `undefined`, and `undefined !== usualCountry`. So a known user's login with a location like `"Berlin"` raises a threat. See `Text.SecondFieldOfPair`, `Text.SecondFieldMissing` and `Detection.LoginOutcome`.
- **A location must be present and non-empty.** This is JavaScript truthiness.
- **Eviction.** The tick evicts at most one event, and only after its own append. `simulate-anomaly` never evicts. So the store can grow past 100, and from then on each tick appends one event and evicts one, keeping the store at that size rather than shrinking it back to 100. See `Events.PushBounded`, `Events.SimulateOverflows` and `Server.Casb.SimulateAnomaly`.
- **Deleting a user keeps the user's behaviour-model entry.** Later logins under that email are still checked (`Server.Casb.DeleteUser` does not modify `model`).
- **Dedup is the substring test the code performs.** It asks whether any threat's `details` contain the event's `ts`. It runs over the whole threat store, including threats raised earlier in the same pass. A separate correlation key is not modelled because the code has none. As a consequence, one timestamp never yields two alerts, within a pass or across passes (`Detection.DistinctTimestamps`, `Detection.AcrossPasses`).
- **Tick events never raise a threat.** The tick synthesises `File Access` events, and the detector looks only at `Login` events. So a tick never produces an anomaly of its own: from a covered store a tick changes no threat (`Detection.TickKeepsCovered`, `Detection.TickQuiet`, `Server.Casb.Tick`).

The detector's guarantees are stated in terms of `Covered(model, threats, w)`. It holds when every suspicious event of window `w` is already mentioned by a stored threat. Every detection pass leaves its window covered (`Detection.ScanCovers`).

## Model

| member | source | states |
|---|---|---|
| `Text.SecondField` | server.js:81 | `split(', ')[1]`: the text between the first `", "` and the next one, or up to the end; None (`undefined`) when there is no separator. Its ensures: a present field holds no separator itself and is shorter than the location by at least the separator |
| `Text.Contains` | server.js:84 | `includes`: the needle is a prefix of the text or occurs in its tail |
| `Text.ContainsOccurs` | server.js:84 | `Contains` holds exactly when the needle occurs as a contiguous block at some position, in both directions |
| `Text.FindSep` | server.js:81 | the first `", "` at or after a position, scanning left to right as `split` does: no separator lies between the start and the result, and None means there is none at all |
| `Text.SecondFieldMissing` | server.js:81 | `split(', ')[1]` is undefined exactly when the location has no `", "` separator |
| `Text.SecondFieldOfPair` | server.js:81 | for "City, Country" the parsed country is Country, and it stays Country when more fields follow (the second field, not the last) |
| `Text.ContainsMiddle` | server.js:84 | `includes` finds a timestamp in any text built around it, which is how an alert's details mention its event |
| `Detection.BaselineOf` | server.js:72-75 | the behaviour model the seeding `forEach` builds: the model of all but the last user, updated with the last user's email and usual country; its properties are `Detection.BaselineOfFacts` |
| `Detection.SeedBaseline` | server.js:72-75 | the seeding loop builds exactly `BaselineOf(users)`, one entry per user, later users overwriting earlier ones |
| `Detection.BaselineOfFacts` | server.js:72-75 | the model's keys are exactly the users' emails, and an email maps to the usual country of the last user with that email |
| `Detection.Suspicious` | server.js:80-83 | the detector's test before the dedup guard: a login, with a non-empty location, by a user in the model, whose parsed country differs from the usual one (an undefined country differs) |
| `Detection.AlreadyReported` | server.js:84 | the dedup guard: some stored threat's details contain the event's timestamp |
| `Detection.AlertDetails` | server.js:91 | the details text of a raised threat: the location as the template literal renders it (`undefined` when absent) and the event's timestamp |
| `Detection.Alert` | server.js:86-93 | an emitted threat has type Unusual Login Location, the event's user and ip, status Alerted, the detection time, and details that contain the event's timestamp |
| `Detection.Step` | server.js:80-97 | one `forEach` iteration: prepend the event's alert when it is suspicious and no stored threat mentions its timestamp, otherwise leave the store alone |
| `Detection.Scan` | server.js:78-99 | one whole pass: `Step` over the window's events in stored order, each seeing the threats added by the earlier ones; the loop in `Server.Casb.RunAnomalyDetection` is proved equal to it |
| `Detection.ScanShape` | server.js:78-94 | a pass prepends exactly one alert per reported event, newest first, and keeps all previously stored threats in order after them |
| `Detection.ReportedFacts` | server.js:78-94 | a pass reports at most one event per window entry, only events of its window, only suspicious ones, and only timestamps no previously stored threat mentions |
| `Detection.ReportedDistinct` | server.js:84-94 | no event reported in a pass has its timestamp mentioned by the alert of any event reported before it in that pass, because the guard checks the threats added earlier in the same pass |
| `Detection.AcrossPasses` | server.js:84-94 | an event reported by a pass never shares its timestamp with an event reported by any earlier pass: the later pass may start from the earlier result with any threats prepended in between, whatever the passes' models, clocks and windows |
| `Detection.ListedUserChecked` | server.js:80-83 | when every listed user is registered (the invariant `Server.Casb.Registered` that seeding, toggling, adding and deleting users keep), a located login by a listed user is flagged exactly when its parsed country differs from the registered one |
| `Detection.DistinctTimestamps` | server.js:84-94 | hence the events reported in one pass have pairwise different timestamps: one timestamp yields at most one alert |
| `Detection.ReportedPrefix` | server.js:84 | the dedup test over a store with alerts prepended holds exactly when it holds for the new alerts or for the old store |
| `Detection.ScanSnoc` | server.js:79-95 | a pass over a window extended by one event is the pass over the shorter window followed by one loop iteration, which is the loop invariant of `RunAnomalyDetection` |
| `Detection.ScanGrowth` | server.js:78 | a pass never removes threats and adds at most one per window event |
| `Detection.QuietWindow` | server.js:80-83 | non-logins, logins without a location, logins of users absent from the model, and logins from the usual country never produce a threat |
| `Detection.ScanCovers` | server.js:84-94 | after a pass, every suspicious event of its window is mentioned by some stored threat |
| `Detection.CoveredFixed` | server.js:84-85 | a pass over a window whose suspicious events are all mentioned already adds nothing |
| `Detection.Idempotent` | server.js:77-100 | running detection again with the same behaviour model and no new events adds no threats, whatever the clock reads |
| `Detection.ScanAppended` | server.js:78-94 | after one append to a covered window, the pass is exactly one loop iteration on the new event |
| `Detection.LoginOutcome` | server.js:80-85 | for a known user's login with a location and no earlier report: silence when the second field equals the usual country, exactly one alert when it differs or is missing |
| `Detection.AliceScenario` | server.js:210-217 | baseline {alice: India} plus the Frankfurt login yields exactly one Alerted threat for alice with the event's ip, and a second pass leaves it unchanged |
| `Detection.TickKeepsCovered` | server.js:105-112 | a tick's append, with or without eviction, keeps a covered window covered |
| `Detection.TickQuiet` | server.js:102-115 | from a covered store, the pass after a tick's append returns the store unchanged |
| `Detection.CoveredSnoc` | server.js:80-94 | appending an event the detector would not flag keeps a window covered |
| `Detection.CoveredSuffix` | server.js:78 | dropping the oldest events of a covered window keeps it covered, as eviction and the ten-event slice do |
| `Detection.AppendThenScan` | server.js:209-219 | from a covered store, the pass after one append is exactly one loop iteration on the appended event, whether or not the window drops its oldest entry |
| `Detection.FrankfurtIsGermany` | server.js:214 | the simulated location `"Frankfurt, Germany"` parses to the country Germany |
| `Detection.SimulatedLoginStep` | server.js:210-217 | the simulated login raises one alert exactly when alice is in the model with a usual country other than Germany and no threat mentions its timestamp |
| `Events.WindowIsLast` | server.js:78 | the window is the store's last ten events, the same `Last` that bounds the store at 100 |
| `Events.Window` | server.js:78 | the detector's window is the last min(10, n) events in their stored order |
| `Events.WindowSnoc` | server.js:78 | after one append, the window is the old window, possibly without its oldest event, followed by the new event |
| `Events.WindowPush` | server.js:111-112 | after a tick's bounded append, the window is likewise the old window, possibly without its oldest event, followed by the new event |
| `Events.PushBounded` | server.js:111-112 | the tick appends its event at the tail and drops at most the oldest one; from 100 events or more it drops exactly the oldest, so the size stays put; starting within 100 it stays within 100 and holds the last 100 events |
| `Events.PushAll` | server.js:102-115 | a run of ticks' appends, oldest first, each through `PushBounded`; its properties are `Events.PushAllBounded` |
| `Events.PushAllBounded` | server.js:102-115 | starting within 100, any run of ticks keeps the store within 100, holding the most recent 100 events in their original order |
| `Events.SimulateOverflows` | server.js:216 | on a full store the tick's append differs from the plain `push` of simulate-anomaly, which evicts nothing (that append is `Server.Casb.SimulateAnomaly`'s `events == old(events) + [e]`) |
| `Events.TickEvent` | server.js:105-110 | the tick's synthetic event: the chosen user's `File Access` of `document.xlsx` in Microsoft 365 from `"Bhopal, India"`, with no ip |
| `Events.SimulatedLogin` | server.js:210-215 | the fixed `Login` of `alice.jones@example.com` from ip `95.12.110.8` at `"Frankfurt, Germany"` |
| `Events.Reverse` | server.js:206 | the events view lists the store newest first: element k is the store's element n-1-k |
| `Events.ReverseReverse` | server.js:206 | the newest-first view loses and reorders nothing: reversing it gives back the store |
| `Records.FirstIndex` | server.js:185 | `findIndex` returns the first position whose record matches, and -1 (None) only when no record matches |
| `Records.UpdateFirst` | server.js:131-139 | `find` followed by the in-place change of the found record: the first matching element is replaced by its flipped version, and without a match nothing changes |
| `Records.RemoveFirst` | server.js:185-187 | `findIndex` followed by `splice(index, 1)`: the first matching element is cut out, and without a match nothing changes |
| `Records.UpdateFirstTwice` | server.js:133-135 | flipping the found record twice, when the flip keeps the id and undoes itself, restores the array |
| `Records.RemoveFirstEffect` | server.js:185-187 | when `findIndex` finds position i, `splice(i, 1)` shortens the array by one, removes exactly that record (as a multiset), and keeps the records before it and after it in order |
| `Records.Count` | server.js:123-125 | a filter count never exceeds the array length and is zero exactly when no record passes |
| `Records.CountUpdate` | server.js:123-125 | replacing one record moves a filter count only by that record's own change |
| `Records.ToggleApps` | server.js:131-139 | the app list after the toggle: `UpdateFirst` with the id test and the Sanctioned/Unsanctioned flip |
| `Records.ToggleAppsEffect` | server.js:131-139 | toggling an app flips the status of the first app with that id and changes nothing else; an unknown id changes nothing |
| `Records.ToggleAppsTwice` | server.js:131-139 | toggling an app twice restores the list |
| `Records.TogglePolicies` | server.js:145-152 | the policy list after the toggle: `UpdateFirst` with the id test and the negation of `enabled` |
| `Records.TogglePoliciesEffect` | server.js:145-152 | toggling a policy negates `enabled` of the first policy with that id and changes nothing else; an unknown id changes nothing |
| `Records.TogglePoliciesTwice` | server.js:145-152 | toggling a policy twice restores the list |
| `Records.ToggleUsers` | server.js:174-182 | the user list after the toggle: `UpdateFirst` with the id test and the Active/Inactive flip |
| `Records.ToggleUsersEffect` | server.js:174-182 | toggling a user flips Active/Inactive of the first user with that id and changes nothing else; an unknown id changes nothing |
| `Records.ToggleUsersTwice` | server.js:174-182 | toggling a user twice restores the list |
| `Records.ToggleServices` | server.js:195-202 | the service list after the toggle: `UpdateFirst` with the id test and the Connected/Disconnected flip |
| `Records.ToggleServicesEffect` | server.js:195-202 | toggling a service flips Connected/Disconnected of the first service with that id and changes nothing else; an unknown id changes nothing |
| `Records.ToggleServicesTwice` | server.js:195-202 | toggling a service twice restores the list |
| `Records.ToggleMovesActiveCount` | server.js:145-152 | a policy toggle moves the active-policy count by exactly one, down if the policy was enabled and up otherwise |
| `Records.ToggleMovesConnectedCount` | server.js:195-202 | a service toggle moves the connected-service count by exactly one, in the direction of the flip |
| `Server.Casb.constructor` | server.js:72-75 | the database holds the seed arrays, and the behaviour model is the one built from the seed users, with every user registered |
| `Server.Casb.RunAnomalyDetection` | server.js:77-100 | the loop leaves the threat store equal to the specification pass over the current window, and leaves that window covered |
| `Server.Casb.Tick` | server.js:102-115 | the tick appends the chosen user's File Access event with bounded eviction, or nothing when the pick is undefined, and then runs detection; from a covered store it adds no threat |
| `Server.Casb.SimulateAnomaly` | server.js:209-219 | appends the fixed Frankfurt login without eviction and runs detection; from a covered store the only possible change is that login's own alert |
| `Server.Casb.EventsNewestFirst` | server.js:205-207 | returns the store newest first, without changing it |
| `Server.Casb.Statistics` | server.js:118-127 | the active-policy and connected-service counters are bounded by their arrays and are zero exactly when no record is enabled or connected |
| `Server.Casb.ToggleShadowIT` | server.js:131-139 | the app array becomes the toggled array; the result is the updated record, or not-found when no app has that id |
| `Server.Casb.TogglePolicy` | server.js:145-152 | the policy array becomes the toggled array; the result is the updated record, or not-found |
| `Server.Casb.ToggleUser` | server.js:174-182 | the user array becomes the toggled array; the result is the updated record, or not-found; every user stays registered |
| `Server.Casb.ToggleService` | server.js:195-202 | the service array becomes the toggled array; the result is the updated record, or not-found |
| `Server.Casb.AddUser` | server.js:163-173 | appends an Active user with usual country India, registers the email with India and overwrites any earlier entry, and keeps the model equal to the one seeded from the users |
| `Server.Casb.DeleteUser` | server.js:183-191 | splices out the first user with that id, or reports not-found and leaves the array alone; the behaviour model is untouched, so the entry remains and every remaining user stays registered |

## Left out

- HTTP plumbing: Express, CORS, static files, `res.json`/`res.status` and `app.listen` (server.js:1-12, 221-224). Each handler instead returns its result, with `None` for the 404 answers.
- Timer and randomness: the `setInterval` schedule and `Math.random()`. The tick takes the chosen index `pick`; an index past the end is JavaScript's `undefined` user, for whom no event is appended.
- `Server.Casb.RunAnomalyDetection`: all threats raised in one pass carry the same detection time `now`. The source reads the clock once per threat, but since it truncates to whole seconds the values nearly always agree.
- Timestamps are opaque strings supplied by the caller. `toISOString()` and the `replace('T', ' ').slice(0, 19)` formatting are not modelled.
- `console.log` of each new threat.
- The `/api/threats` display sort. It sorts `mockData.threats` in place by `new Date(ts)`, which relies on Date parsing and the engine's sort. After such a request the store is no longer newest-inserted-first. The dedup test does not depend on order.
- The settings endpoints and the read-only `GET` handlers that return an array unchanged.
- `POST /api/users`: the `...req.body` spread is reduced to the parameters `id`, `name`, `email` and `role`. Extra body fields are not modelled. A body `id` replacing `Date.now()` is covered, because `id` is a parameter.
- `parseInt` of path ids. Ids arrive already parsed; a non-numeric id (`NaN`) matches nothing, which is the unknown-id case.
- Status fields are two-valued enumerations. The source stores free strings, and its toggles turn any value other than the first into the first; the seed data holds only the two values.
- `userBehaviorModel` is a map. Lookups of inherited object keys (a user literally named `constructor`, say) are not modelled.
- An event without a `details` object, or a threat without `details` text, would throw in the source. No producer creates one, and the model's records always carry them.
- Strings are sequences of Unicode scalar values, where JavaScript strings are UTF-16 code units. `split(', ')` and `includes` agree on both readings for well-formed text; text with lone surrogates, where they could differ, is not modelled.
- The seed data values, beyond the fixed strings the two producers use.
