/** The rows the controller reads from its database context, the business
    errors it reports in a response's `Error` field, and the API-key check. */
module Api {
  import opened Wrappers
  import opened Clock

  /** The `Ressources.ApiResource` error messages, one constructor each. */
  datatype ApiError =
    | UnauthorizedAccess
    | InvalidPageParameter
    | PageParameterOutOfBounds
    | DataNotYetPopulated
    | FactionNotFound

  /** What an action answers: a payload, a model carrying only an `Error`,
      or an exception that escapes the action. */
  datatype Reply<T> = Ok(value: T) | Fail(error: ApiError) | Fault

  /** A `ServerSessionsDataConn` row: time spent in one location during a session. */
  datatype Visit = Visit(location: string, stamp: DateTime, duration: nat, ping: int)

  /** A `ServerSessions` row with its visits; `end` is `None` while the session is active. */
  datatype Session = Session(playerId: int, playerName: string, start: DateTime,
                             end: Option<DateTime>, lastShip: int, ip: string,
                             visits: seq<Visit>)

  /** A `Systems` row. */
  datatype SystemInfo = SystemInfo(nickname: string, name: string, regionId: int)

  /** A `Regions` row. */
  datatype RegionInfo = RegionInfo(id: int, name: string)

  /** A `ServerFactions` row. */
  datatype Faction = Faction(id: int, tag: string, name: string)

  /** A `ServerFactionsActivity` row: a faction's memoised total for the month starting at `stamp`. */
  datatype FactionActivity = FactionActivity(factionId: int, stamp: DateTime, duration: nat)

  /** An `ApiKeys` row. */
  datatype ApiKey = ApiKey(key: string, admin: bool)

  /** The tables of the database context. */
  datatype Database = Database(sessions: seq<Session>, systems: seq<SystemInfo>,
                               regions: seq<RegionInfo>, factions: seq<Faction>,
                               factionActivity: seq<FactionActivity>, apiKeys: seq<ApiKey>)

  /** `isValidKey`: some stored key equals `key` and, when `requireAdmin`, is an admin key. */
  function IsValidKey(keys: seq<ApiKey>, key: string, requireAdmin: bool): (ok: bool)
    ensures ok <==> exists i :: 0 <= i < |keys| && keys[i].key == key && (!requireAdmin || keys[i].admin)
  {
    if keys == [] then false
    else (keys[0].key == key && (!requireAdmin || keys[0].admin)) || IsValidKey(keys[1..], key, requireAdmin)
  }

  /** An admin key is in particular a valid key. */
  lemma AdminKeyIsValid(keys: seq<ApiKey>, key: string)
    requires IsValidKey(keys, key, true)
    ensures IsValidKey(keys, key, false)
  {
  }

  /** A session is active when it has no end stamp. */
  predicate IsActive(s: Session) {
    s.end.None?
  }
}
