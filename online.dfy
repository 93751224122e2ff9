/** The actions of `OnlineController` and the process-wide `CacheManager`
    they share: the public online snapshot (cached), the admin snapshot
    (always recomputed), the paginated global activity list (read from the
    cache only), the per-faction detail report (cached per tag) and the
    global faction summary (cached). The clock, the database tables and the
    key table are parameters. */
module Online {
  import opened Wrappers
  import opened Text
  import opened Clock
  import opened Api
  import opened Duration
  import opened Paging
  import opened Location
  import opened Activity

  /** An entry of the global individual activity list; that list is computed
      and stored by a component outside the controller, which only slices it. */
  type IndividualEntry(==)

  /** A `PlayerOnlineSingle` row of the public snapshot. */
  datatype PlayerOnlineSingle = PlayerOnlineSingle(name: string, time: string, system: string,
                                                   region: string, ping: int)

  /** A `PlayerOnlineAdmin` row of the admin snapshot. */
  datatype PlayerOnlineAdmin = PlayerOnlineAdmin(id: int, name: string, ship: int, ip: string,
                                                 system: string, region: string)

  /** `PlayersOnline<T>`: the timestamp of the snapshot and its rows. */
  datatype PlayersOnline<T> = PlayersOnline(timestamp: string, players: seq<T>)

  /** `GlobalDetailsModel`: a page of the global list and the page count. */
  datatype GlobalDetails = GlobalDetails(timestamp: string, characters: seq<IndividualEntry>, maxPage: int)

  /** `FactionDetailsModel`: the report time and each player's formatted totals. */
  datatype FactionDetails = FactionDetails(timestamp: string, characters: map<string, CharacterActivity>)

  /** `FactionSummaryModel`: the report time and one row per faction. */
  datatype FactionSummary = FactionSummary(timestamp: string, factions: seq<FactionSummarySingle>)

  /** `FactionCache`: a stored per-faction report and when it was stored. */
  datatype FactionCache = FactionCache(cache: FactionDetails, lastCache: DateTime)

  /** The sessions without an end stamp, in stored order. */
  function ActiveSessions(sessions: seq<Session>): (r: seq<Session>)
    ensures |r| <= |sessions|
    ensures forall s :: s in r <==> s in sessions && IsActive(s)
  {
    if sessions == [] then []
    else (if IsActive(sessions[0]) then [sessions[0]] else []) + ActiveSessions(sessions[1..])
  }

  /** The filter keeps stored order and multiplicity: a single session is
      kept exactly when it is active, and the filter of a concatenation is the
      concatenation of the filters. */
  lemma {:induction false} ActiveSessionsOrder(a: seq<Session>, b: seq<Session>, s: Session)
    ensures ActiveSessions([s]) == if IsActive(s) then [s] else []
    ensures ActiveSessions(a + b) == ActiveSessions(a) + ActiveSessions(b)
    decreases |a|
  {
    assert [s][1..] == [];
    if a == [] {
      assert a + b == b;
    } else {
      assert (a + b)[1..] == a[1..] + b;
      ActiveSessionsOrder(a[1..], b, s);
    }
  }

  /** The public row of an active session at `now`. */
  function PublicRow(s: Session, now: DateTime, systems: seq<SystemInfo>, regions: seq<RegionInfo>)
    : PlayerOnlineSingle
  {
    var p := PublicLastPlace(s.visits, systems, regions);
    PlayerOnlineSingle(s.playerName, OnlineTime(Ticks(now) - Ticks(s.start)), p.system, p.region, p.ping)
  }

  /** The admin row of an active session. */
  function AdminRow(s: Session, systems: seq<SystemInfo>, regions: seq<RegionInfo>): PlayerOnlineAdmin {
    var p := AdminLastPlace(s.visits, systems, regions);
    PlayerOnlineAdmin(s.playerId, s.playerName, s.lastShip, s.ip, p.system, p.region)
  }

  /** A public row names its player and shows the hours-and-minutes text of
      the time since the session started: "<h>h<mm>" when at least an hour
      (days dropped), "<m>m" otherwise. */
  lemma PublicRowTime(s: Session, now: DateTime, systems: seq<SystemInfo>, regions: seq<RegionInfo>)
    requires Ticks(s.start) <= Ticks(now)
    ensures var row := PublicRow(s, now, systems, regions);
      var span := Ticks(now) - Ticks(s.start);
      var h, m := span / TicksPerHour % 24, span / TicksPerMinute % 60;
      && row.name == s.playerName
      && (h > 0 ==> row.time == NatToString(h) + "h" + TimeIntToStr(m))
      && (h == 0 ==> row.time == NatToString(m) + "m")
  {
    var span := Ticks(now) - Ticks(s.start);
    OnlineTimeShape(span);
    assert PublicRow(s, now, systems, regions).time == OnlineTime(span);
  }

  /** A session without visits shows "ERROR" and ping 0; when no system is
      called "ERROR", a session with visits shows a resolved system. */
  lemma PublicRowPlace(s: Session, now: DateTime, systems: seq<SystemInfo>, regions: seq<RegionInfo>)
    requires forall y :: y in systems ==> y.name != Error
    ensures var row := PublicRow(s, now, systems, regions);
      && (s.visits == [] <==> row.system == Error)
      && (s.visits == [] ==> row.region == Error && row.ping == 0)
  {
    ErrorOnlyWithoutVisits(s.visits, systems, regions);
    var p := PublicLastPlace(s.visits, systems, regions);
    assert PublicRow(s, now, systems, regions).system == p.system;
  }

  /** When a session's visits are stored in stamp order, its public and admin
      rows show the same system and region. */
  lemma RowsAgreeWhenOrdered(s: Session, now: DateTime, systems: seq<SystemInfo>, regions: seq<RegionInfo>)
    requires forall i, j :: 0 <= i < j < |s.visits| ==> Ticks(s.visits[i].stamp) < Ticks(s.visits[j].stamp)
    ensures PublicRow(s, now, systems, regions).system == AdminRow(s, systems, regions).system
    ensures PublicRow(s, now, systems, regions).region == AdminRow(s, systems, regions).region
  {
    VariantsAgreeWhenOrdered(s.visits, systems, regions);
  }

  /** The row loop of `GetPlayers`: one public row per active session, in order. */
  method PublicPlayers(active: seq<Session>, now: DateTime, systems: seq<SystemInfo>, regions: seq<RegionInfo>)
    returns (players: seq<PlayerOnlineSingle>)
    ensures |players| == |active|
    ensures forall i :: 0 <= i < |active| ==> players[i] == PublicRow(active[i], now, systems, regions)
  {
    players := [];
    for i := 0 to |active|
      invariant |players| == i
      invariant forall k :: 0 <= k < i ==> players[k] == PublicRow(active[k], now, systems, regions)
    {
      var item := active[i];
      var place := PublicLastPlace(item.visits, systems, regions);
      var time := OnlineTime(Ticks(now) - Ticks(item.start));
      var row := PlayerOnlineSingle(item.playerName, time, place.system, place.region, place.ping);
      assert row == PublicRow(item, now, systems, regions);
      players := players + [row];
    }
  }

  /** The row loop of `AdminGetPlayers`: one admin row per active session, in order. */
  method AdminPlayers(active: seq<Session>, systems: seq<SystemInfo>, regions: seq<RegionInfo>)
    returns (players: seq<PlayerOnlineAdmin>)
    ensures |players| == |active|
    ensures forall i :: 0 <= i < |active| ==> players[i] == AdminRow(active[i], systems, regions)
  {
    players := [];
    for i := 0 to |active|
      invariant |players| == i
      invariant forall k :: 0 <= k < i ==> players[k] == AdminRow(active[k], systems, regions)
    {
      var item := active[i];
      var place := AdminLastPlace(item.visits, systems, regions);
      players := players + [PlayerOnlineAdmin(item.playerId, item.playerName, item.lastShip, item.ip,
                                              place.system, place.region)];
    }
  }

  /** The report of `GetFactionDetails` for `tag` at `now`: the players of
      the faction's completed sessions in either month window. */
  function DetailReport(db: Database, tag: string, now: DateTime, w: MonthWindows, wasted: set<string>): FactionDetails
    requires ValidDateTime(now)
  {
    FactionDetails(FormatStamp(now),
                   DetailCharacters(WindowSessions(db.sessions, tag, w.startNow, now),
                                    WindowSessions(db.sessions, tag, w.startLast, w.endLast), wasted))
  }

  /** The shared cache: each cached payload with the instant it was stored
      and the seconds it stays fresh, the global activity list with its
      timestamp, the wasted locations and the danger threshold. */
  class CacheManager {
    var lastUpdate: DateTime
    var playerOnlineCache: Option<PlayersOnline<PlayerOnlineSingle>>
    var lastPlayerOnlineCache: DateTime
    var lastPlayerOnlineCacheDuration: int
    var globalIndividualActivityCache: Option<seq<IndividualEntry>>
    var lastGlobalIndividualActivityCache: DateTime
    var factionIndividualActivityCache: map<string, FactionCache>
    var factionIndividualCacheDuration: int
    var factionGlobalActivityCache: Option<FactionSummary>
    var lastFactionGlobalActivityCache: DateTime
    var factionGlobalActivityDuration: int
    var wastedActivitySystems: set<string>
    var factionDangerThreshold: nat

    /** The instants the actions render are calendar instants. */
    predicate Valid()
      reads this
    {
      ValidDateTime(lastUpdate) && ValidDateTime(lastGlobalIndividualActivityCache)
    }

    /** The configuration the actions read and never write: the three
        lifetimes, the wasted locations and the danger threshold. */
    function Settings(): (int, int, int, set<string>, nat)
      reads this
    {
      (lastPlayerOnlineCacheDuration, factionIndividualCacheDuration, factionGlobalActivityDuration,
       wastedActivitySystems, factionDangerThreshold)
    }

    /** A cache with no payload computed yet; every stamp starts at `epoch`. */
    constructor(epoch: DateTime, playerTtl: int, factionTtl: int, summaryTtl: int,
                wasted: set<string>, threshold: nat, global: Option<seq<IndividualEntry>>, lastUpdate: DateTime)
      requires ValidDateTime(epoch) && ValidDateTime(lastUpdate)
      ensures Valid()
      ensures this.lastUpdate == lastUpdate && playerOnlineCache.None? && lastPlayerOnlineCache == epoch
      ensures lastPlayerOnlineCacheDuration == playerTtl
      ensures globalIndividualActivityCache == global && lastGlobalIndividualActivityCache == epoch
      ensures factionIndividualActivityCache == map[] && factionIndividualCacheDuration == factionTtl
      ensures factionGlobalActivityCache.None? && lastFactionGlobalActivityCache == epoch
      ensures factionGlobalActivityDuration == summaryTtl
      ensures wastedActivitySystems == wasted && factionDangerThreshold == threshold
    {
      this.lastUpdate := lastUpdate;
      playerOnlineCache := None;
      lastPlayerOnlineCache := epoch;
      lastPlayerOnlineCacheDuration := playerTtl;
      globalIndividualActivityCache := global;
      lastGlobalIndividualActivityCache := epoch;
      factionIndividualActivityCache := map[];
      factionIndividualCacheDuration := factionTtl;
      factionGlobalActivityCache := None;
      lastFactionGlobalActivityCache := epoch;
      factionGlobalActivityDuration := summaryTtl;
      wastedActivitySystems := wasted;
      factionDangerThreshold := threshold;
    }

    /** The public snapshot is recomputed when its stamp plus its duration lies before `now`. */
    predicate PlayerOnlineStale(now: DateTime)
      reads this
    {
      IsStale(lastPlayerOnlineCache, lastPlayerOnlineCacheDuration, now)
    }

    /** A tag's report is recomputed when it was never stored or has expired. */
    predicate FactionDetailsStale(tag: string, now: DateTime)
      reads this
    {
      tag !in factionIndividualActivityCache
      || IsStale(factionIndividualActivityCache[tag].lastCache, factionIndividualCacheDuration, now)
    }

    predicate FactionSummaryStale(now: DateTime)
      reads this
    {
      IsStale(lastFactionGlobalActivityCache, factionGlobalActivityDuration, now)
    }

    /** Stores a public snapshot computed at `at`; nothing else changes. */
    method StorePlayerOnline(payload: PlayersOnline<PlayerOnlineSingle>, at: DateTime)
      modifies this
      ensures playerOnlineCache == Some(payload) && lastPlayerOnlineCache == at
      ensures lastUpdate == old(lastUpdate) && lastPlayerOnlineCacheDuration == old(lastPlayerOnlineCacheDuration)
      ensures globalIndividualActivityCache == old(globalIndividualActivityCache)
      ensures lastGlobalIndividualActivityCache == old(lastGlobalIndividualActivityCache)
      ensures factionIndividualActivityCache == old(factionIndividualActivityCache)
      ensures factionIndividualCacheDuration == old(factionIndividualCacheDuration)
      ensures factionGlobalActivityCache == old(factionGlobalActivityCache)
      ensures lastFactionGlobalActivityCache == old(lastFactionGlobalActivityCache)
      ensures factionGlobalActivityDuration == old(factionGlobalActivityDuration)
      ensures wastedActivitySystems == old(wastedActivitySystems)
      ensures factionDangerThreshold == old(factionDangerThreshold)
    {
      playerOnlineCache := Some(payload);
      lastPlayerOnlineCache := at;
    }

    /** Stores one tag's report; every other tag's entry and every other field stay as they were. */
    method StoreFactionDetails(tag: string, entry: FactionCache)
      modifies this
      ensures factionIndividualActivityCache == old(factionIndividualActivityCache)[tag := entry]
      ensures forall t :: t != tag && t in old(factionIndividualActivityCache) ==>
        t in factionIndividualActivityCache && factionIndividualActivityCache[t] == old(factionIndividualActivityCache)[t]
      ensures lastUpdate == old(lastUpdate) && playerOnlineCache == old(playerOnlineCache)
      ensures lastPlayerOnlineCache == old(lastPlayerOnlineCache)
      ensures lastPlayerOnlineCacheDuration == old(lastPlayerOnlineCacheDuration)
      ensures globalIndividualActivityCache == old(globalIndividualActivityCache)
      ensures lastGlobalIndividualActivityCache == old(lastGlobalIndividualActivityCache)
      ensures factionIndividualCacheDuration == old(factionIndividualCacheDuration)
      ensures factionGlobalActivityCache == old(factionGlobalActivityCache)
      ensures lastFactionGlobalActivityCache == old(lastFactionGlobalActivityCache)
      ensures factionGlobalActivityDuration == old(factionGlobalActivityDuration)
      ensures wastedActivitySystems == old(wastedActivitySystems)
      ensures factionDangerThreshold == old(factionDangerThreshold)
    {
      factionIndividualActivityCache := factionIndividualActivityCache[tag := entry];
    }

    /** Stores a faction summary computed at `at`; nothing else changes. */
    method StoreFactionSummary(payload: FactionSummary, at: DateTime)
      modifies this
      ensures factionGlobalActivityCache == Some(payload) && lastFactionGlobalActivityCache == at
      ensures lastUpdate == old(lastUpdate) && playerOnlineCache == old(playerOnlineCache)
      ensures lastPlayerOnlineCache == old(lastPlayerOnlineCache)
      ensures lastPlayerOnlineCacheDuration == old(lastPlayerOnlineCacheDuration)
      ensures globalIndividualActivityCache == old(globalIndividualActivityCache)
      ensures lastGlobalIndividualActivityCache == old(lastGlobalIndividualActivityCache)
      ensures factionIndividualActivityCache == old(factionIndividualActivityCache)
      ensures factionIndividualCacheDuration == old(factionIndividualCacheDuration)
      ensures factionGlobalActivityDuration == old(factionGlobalActivityDuration)
      ensures wastedActivitySystems == old(wastedActivitySystems)
      ensures factionDangerThreshold == old(factionDangerThreshold)
    {
      factionGlobalActivityCache := Some(payload);
      lastFactionGlobalActivityCache := at;
    }
  }

  /** The controller over one database context. */
  class OnlineController {
    const context: Database

    constructor(context: Database)
      ensures this.context == context
    {
      this.context := context;
    }

    /** `GetPlayers`: refuses an invalid key; otherwise, when the cached
        snapshot has expired, rebuilds it from the active sessions, stamped
        with the cache's `LastUpdate`, and stores it at `storedAt`; answers
        the cached snapshot. */
    method GetPlayers(cm: CacheManager, key: string, now: DateTime, storedAt: DateTime)
      returns (r: Reply<Option<PlayersOnline<PlayerOnlineSingle>>>)
      requires cm.Valid()
      modifies cm
      ensures cm.Valid()
      ensures !IsValidKey(context.apiKeys, key, false) ==> r == Fail(UnauthorizedAccess) && unchanged(cm)
      ensures IsValidKey(context.apiKeys, key, false) && !old(cm.PlayerOnlineStale(now)) ==>
        r == Ok(old(cm.playerOnlineCache)) && unchanged(cm)
      ensures IsValidKey(context.apiKeys, key, false) && old(cm.PlayerOnlineStale(now)) ==>
        var active := ActiveSessions(context.sessions);
        && r.Ok? && r.value.Some? && r == Ok(cm.playerOnlineCache)
        && cm.lastPlayerOnlineCache == storedAt
        && r.value.value.timestamp == FormatStamp(old(cm.lastUpdate))
        && |r.value.value.players| == |active|
        && (forall i :: 0 <= i < |active| ==>
              r.value.value.players[i] == PublicRow(active[i], now, context.systems, context.regions))
        && cm.factionIndividualActivityCache == old(cm.factionIndividualActivityCache)
        && cm.factionGlobalActivityCache == old(cm.factionGlobalActivityCache)
        && cm.globalIndividualActivityCache == old(cm.globalIndividualActivityCache)
        && cm.lastUpdate == old(cm.lastUpdate)
        && cm.lastGlobalIndividualActivityCache == old(cm.lastGlobalIndividualActivityCache)
        && cm.lastFactionGlobalActivityCache == old(cm.lastFactionGlobalActivityCache)
        && cm.Settings() == old(cm.Settings())
    {
      if !IsValidKey(context.apiKeys, key, false) {
        return Fail(UnauthorizedAccess);
      }
      if cm.PlayerOnlineStale(now) {
        var timestamp := FormatStamp(cm.lastUpdate);
        var active := ActiveSessions(context.sessions);
        var players := PublicPlayers(active, now, context.systems, context.regions);
        cm.StorePlayerOnline(PlayersOnline(timestamp, players), storedAt);
      }
      return Ok(cm.playerOnlineCache);
    }

    /** `GetAllPlayers`: the page parameter must parse as an `int`, then the
        key must be valid; a list never computed and a page outside it are
        refused; otherwise the page, the list's timestamp and the page count. */
    method GetAllPlayers(cm: CacheManager, key: string, page: string) returns (r: Reply<GlobalDetails>)
      requires cm.Valid()
      ensures TryParseInt32(page).None? ==> r == Fail(InvalidPageParameter)
      ensures TryParseInt32(page).Some? && !IsValidKey(context.apiKeys, key, false) ==>
        r == Fail(UnauthorizedAccess)
      ensures TryParseInt32(page).Some? && IsValidKey(context.apiKeys, key, false) ==>
        var p := Paginate(cm.globalIndividualActivityCache, TryParseInt32(page).value);
        && (p.Fail? ==> r == Fail(p.error))
        && (p.Ok? ==> r == Ok(GlobalDetails(FormatStamp(cm.lastGlobalIndividualActivityCache),
                                            p.value.characters, p.value.maxPage)))
      ensures r != Fault
      ensures TryParseInt32(page).Some? && IsValidKey(context.apiKeys, key, false) ==>
        var pageInt, cache := TryParseInt32(page).value, cm.globalIndividualActivityCache;
        (cache.Some? ==> |cache.value| <= Int32Max) && (pageInt < 1 || (pageInt - 1) * CharactersPerPage <= Int32Max) ==>
        var q := PageAsWritten(cache, pageInt);
        && (q.Fail? ==> r == Fail(q.error))
        && (q.Ok? ==> r == Ok(GlobalDetails(FormatStamp(cm.lastGlobalIndividualActivityCache),
                                            q.value.characters, q.value.maxPage)))
    {
      var pageInt := TryParseInt32(page);
      if pageInt.None? {
        return Fail(InvalidPageParameter);
      }
      if !IsValidKey(context.apiKeys, key, false) {
        return Fail(UnauthorizedAccess);
      }
      var view := Paginate(cm.globalIndividualActivityCache, pageInt.value);
      if && (cm.globalIndividualActivityCache.Some? ==> |cm.globalIndividualActivityCache.value| <= Int32Max)
         && (pageInt.value < 1 || (pageInt.value - 1) * CharactersPerPage <= Int32Max) {
        AsWrittenAgreesWithoutWrap(cm.globalIndividualActivityCache, pageInt.value);
      }
      if view.Fail? {
        return Fail(view.error);
      }
      var timestamp := FormatStamp(cm.lastGlobalIndividualActivityCache);
      return Ok(GlobalDetails(timestamp, view.value.characters, view.value.maxPage));
    }

    /** `AdminGetPlayers`: refuses a key that is not an admin key; otherwise
        a fresh snapshot of every active session, never cached. */
    method AdminGetPlayers(cm: CacheManager, key: string) returns (r: Reply<PlayersOnline<PlayerOnlineAdmin>>)
      requires cm.Valid()
      ensures !IsValidKey(context.apiKeys, key, true) ==> r == Fail(UnauthorizedAccess)
      ensures IsValidKey(context.apiKeys, key, true) ==>
        var active := ActiveSessions(context.sessions);
        && r.Ok? && r.value.timestamp == FormatStamp(cm.lastUpdate)
        && |r.value.players| == |active|
        && forall i :: 0 <= i < |active| ==> r.value.players[i] == AdminRow(active[i], context.systems, context.regions)
    {
      if !IsValidKey(context.apiKeys, key, true) {
        return Fail(UnauthorizedAccess);
      }
      var timestamp := FormatStamp(cm.lastUpdate);
      var active := ActiveSessions(context.sessions);
      var players := AdminPlayers(active, context.systems, context.regions);
      return Ok(PlayersOnline(timestamp, players));
    }

    /** Whether some faction of the table carries `tag`. */
    predicate HasFaction(tag: string)
      reads this
    {
      exists i :: 0 <= i < |context.factions| && context.factions[i].tag == tag
    }

    /** `GetFactionDetails`: refuses an invalid key; unescapes "%2F" in the
        tag and refuses a tag no faction carries; when the tag's report is
        missing or expired, rebuilds it for `now` and stores it under the tag
        alone, stamped `storedAt`; answers the tag's report. In January of
        year 1 the previous month does not exist and the rebuild throws. */
    method GetFactionDetails(cm: CacheManager, rawTag: string, key: string, now: DateTime, storedAt: DateTime)
      returns (r: Reply<FactionDetails>)
      requires cm.Valid() && ValidDateTime(now)
      modifies cm
      ensures cm.Valid()
      ensures !IsValidKey(context.apiKeys, key, false) ==> r == Fail(UnauthorizedAccess) && unchanged(cm)
      ensures var tag := UnescapeSlash(rawTag);
        IsValidKey(context.apiKeys, key, false) && !HasFaction(tag) ==> r == Fail(FactionNotFound) && unchanged(cm)
      ensures var tag := UnescapeSlash(rawTag);
        IsValidKey(context.apiKeys, key, false) && HasFaction(tag) && !old(cm.FactionDetailsStale(tag, now)) ==>
          r == Ok(old(cm.factionIndividualActivityCache)[tag].cache) && unchanged(cm)
      ensures var tag := UnescapeSlash(rawTag);
        IsValidKey(context.apiKeys, key, false) && HasFaction(tag) && old(cm.FactionDetailsStale(tag, now)) ==>
          match Windows(now)
          case None => r == Fault && unchanged(cm)
          case Some(w) =>
            var report := DetailReport(context, tag, now, w, old(cm.wastedActivitySystems));
            && r == Ok(report)
            && cm.factionIndividualActivityCache == old(cm.factionIndividualActivityCache)[tag := FactionCache(report, storedAt)]
            && cm.playerOnlineCache == old(cm.playerOnlineCache)
            && cm.factionGlobalActivityCache == old(cm.factionGlobalActivityCache)
            && cm.globalIndividualActivityCache == old(cm.globalIndividualActivityCache)
            && cm.lastUpdate == old(cm.lastUpdate)
            && cm.lastPlayerOnlineCache == old(cm.lastPlayerOnlineCache)
            && cm.lastGlobalIndividualActivityCache == old(cm.lastGlobalIndividualActivityCache)
            && cm.lastFactionGlobalActivityCache == old(cm.lastFactionGlobalActivityCache)
            && cm.Settings() == old(cm.Settings())
    {
      if !IsValidKey(context.apiKeys, key, false) {
        return Fail(UnauthorizedAccess);
      }
      var tag := UnescapeSlash(rawTag);
      if !HasFaction(tag) {
        return Fail(FactionNotFound);
      }
      if cm.FactionDetailsStale(tag, now) {
        var windows := Windows(now);
        if windows.None? {
          return Fault;
        }
        var w := windows.value;
        var timestamp := FormatStamp(now);
        var curr := WindowSessions(context.sessions, tag, w.startNow, now);
        var last := WindowSessions(context.sessions, tag, w.startLast, w.endLast);
        var characters := CompileCharacters(curr, last, cm.wastedActivitySystems);
        cm.StoreFactionDetails(tag, FactionCache(FactionDetails(timestamp, characters), storedAt));
      }
      return Ok(cm.factionIndividualActivityCache[tag].cache);
    }

    /** `GetFactionSummary`: refuses an invalid key; when the cached summary
        has expired, rebuilds one row per faction for `now`, stamped
        `stampedAt`, and stores it at `storedAt`; answers the cached summary.
        In January of year 1 the rebuild throws. */
    method GetFactionSummary(cm: CacheManager, key: string, now: DateTime, stampedAt: DateTime, storedAt: DateTime)
      returns (r: Reply<Option<FactionSummary>>)
      requires cm.Valid() && ValidDateTime(now) && ValidDateTime(stampedAt)
      modifies cm
      ensures cm.Valid()
      ensures !IsValidKey(context.apiKeys, key, false) ==> r == Fail(UnauthorizedAccess) && unchanged(cm)
      ensures IsValidKey(context.apiKeys, key, false) && !old(cm.FactionSummaryStale(now)) ==>
        r == Ok(old(cm.factionGlobalActivityCache)) && unchanged(cm)
      ensures IsValidKey(context.apiKeys, key, false) && old(cm.FactionSummaryStale(now)) ==>
        match Windows(now)
        case None => r == Fault && unchanged(cm)
        case Some(w) =>
          if exists i :: 0 <= i < |context.factions| &&
               SummaryRow(context.factions[i], context.sessions, context.factionActivity, w, now,
                          old(cm.wastedActivitySystems), old(cm.factionDangerThreshold)).None?
          then r == Fault && unchanged(cm)
          else
          && r.Ok? && r.value.Some? && r == Ok(cm.factionGlobalActivityCache)
          && cm.lastFactionGlobalActivityCache == storedAt
          && r.value.value.timestamp == FormatStamp(stampedAt)
          && |r.value.value.factions| == |context.factions|
          && (forall i :: 0 <= i < |context.factions| ==>
                SummaryRow(context.factions[i], context.sessions, context.factionActivity, w, now,
                           old(cm.wastedActivitySystems), old(cm.factionDangerThreshold))
                == Some(r.value.value.factions[i]))
          && cm.playerOnlineCache == old(cm.playerOnlineCache)
          && cm.factionIndividualActivityCache == old(cm.factionIndividualActivityCache)
          && cm.globalIndividualActivityCache == old(cm.globalIndividualActivityCache)
          && cm.lastUpdate == old(cm.lastUpdate)
          && cm.lastPlayerOnlineCache == old(cm.lastPlayerOnlineCache)
          && cm.lastGlobalIndividualActivityCache == old(cm.lastGlobalIndividualActivityCache)
          && cm.Settings() == old(cm.Settings())
    {
      if !IsValidKey(context.apiKeys, key, false) {
        return Fail(UnauthorizedAccess);
      }
      if cm.FactionSummaryStale(now) {
        var timestamp := FormatStamp(stampedAt);
        var windows := Windows(now);
        if windows.None? {
          return Fault;
        }
        var rows := BuildSummary(context.factions, context.sessions, context.factionActivity, windows.value,
                                 now, cm.wastedActivitySystems, cm.factionDangerThreshold);
        if rows.None? {
          return Fault;
        }
        cm.StoreFactionSummary(FactionSummary(timestamp, rows.value), storedAt);
      }
      return Ok(cm.factionGlobalActivityCache);
    }
  }
}
