/** The records held in the server's in-memory database. */
module Domain {
  import opened Wrappers

  /** The `action` of a user activity event. */
  datatype Action = Login | FileUpload | FileAccess

  /** The `details` object of an event; each field may be absent. */
  datatype Details = Details(ip: Option<string>, location: Option<string>, app: Option<string>, file: Option<string>)

  /** One entry of `userEvents`; `ts` is an opaque timestamp string. */
  datatype Event = Event(ts: string, user: string, action: Action, details: Details)

  datatype ThreatKind = ImpossibleTravel | MalwareDetected | UnusualLoginLocation
  datatype ThreatStatus = Blocked | Remediated | Alerted

  /** One entry of `threats`; `ip` is absent when the triggering event carried none. */
  datatype Threat = Threat(ts: string, kind: ThreatKind, user: string, ip: Option<string>, details: string, status: ThreatStatus)

  datatype AppStatus = Sanctioned | Unsanctioned
  /** A discovered shadow-IT application. */
  datatype App = App(id: int, name: string, category: string, risk: string, users: nat, status: AppStatus)

  datatype DlpIncident = DlpIncident(ts: string, user: string, policy: string, app: string, severity: string, action: string)

  datatype Policy = Policy(id: string, name: string, category: string, enabled: bool)

  datatype UserStatus = Active | Inactive
  datatype User = User(id: int, name: string, email: string, role: string, status: UserStatus, usualCountry: string)

  datatype ServiceStatus = Connected | Disconnected
  datatype Service = Service(id: string, name: string, kind: string, status: ServiceStatus)

  /** The counters served by `/api/stats`. */
  datatype Stats = Stats(
    discoveredApps: nat, dlpIncidents: nat, threatsDetected: nat,
    activePolicies: nat, managedUsers: nat, connectedServices: nat)
}
