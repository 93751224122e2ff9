# OnlineController of DiscoveryApi, modelled in Dafny

DiscoveryApi serves read-mostly statistics about an online game's population
and its factions. All of its logic sits in `OnlineController`, which has five
actions:

- `GetPlayers` returns the public snapshot of the players online. It is cached.
- `AdminGetPlayers` returns the admin snapshot. It is always recomputed.
- `GetAllPlayers` returns a page of 1000 entries from the global activity list. It only reads the cache.
- `GetFactionDetails` returns one faction's per-player report. It is cached per faction tag.
- `GetFactionSummary` returns one row per faction. It is cached.

All actions share one process-wide `CacheManager`.

The project models those five actions as methods of `Online.OnlineController`,
and the cache as the class `Online.CacheManager`. Its methods refresh one
payload at a time and leave everything else as it was. The pure parts the
actions use are modelled in these modules:

- `Text`: the decimal text of integers, `ToUpper`, the ordinal `StartsWith` and
  `Contains`, and the `%2F` unescape of a faction tag.
- `Clock`: calendar instants and their ticks, and the two month windows of the
  reports. It also gives the truncating `TimeSpan.Hours` and `TimeSpan.Minutes`,
  the strict staleness test and the `yyyy-MM-ddTHH:mm:ss` stamp.
- `Api`: the rows of the database, the error codes and the key check.
- `Paging`: `Int32.TryParse` and the page slicing of `GetAllPlayers`. The slicing
  is given both as written (in unchecked 32-bit arithmetic) and as intended.
- `Location`: resolving a visit's location to a system and region name. The
  public snapshot uses the visit with the largest stamp; the admin snapshot uses
  the last visit stored.
- `Duration`: `FormatTime`, `TimeIntToStr` and the hours-and-minutes text of the
  public snapshot.
- `Activity`: the faction-tag match, the per-window sums with wasted locations
  skipped, the per-player report and one summary row per faction.

The action loops are methods with loop invariants, each proved against a
function that specifies it; the properties are proved as lemmas about those
functions. The cache updates (`CacheManager.Store*`) have no loop: each states
its new state field by field.

Four details of the code decide what the model does:

- **Hour field.** `FormatTime` pads the hour with `TimeIntToStr` like the other
  fields, so 3661 seconds is `01:01:01`.
- **Staleness.** The test is the strict `last.AddSeconds(ttl) < now`. An entry
  is still fresh at exactly `last + ttl`, and stale at every later instant.
- **System lookup.** The stored nickname is compared, unchanged, with
  `ToUpper(location)`. A nickname holding a lower-case ASCII letter never matches.
- **Online time.** The public snapshot shows `{h}h{mm}`, with no trailing `m`,
  when the span has hours left after whole days, and `{m}m` otherwise.

## Model

| member | source | states |
|---|---|---|
| `Text.NatToStringRoundTrip` | DiscoveryApi/Areas/api/Controllers/OnlineController.cs:397 | the decimal text of a count (the unpadded day field) consists of digits and reads back as that count |
| `Text.IntToString` | DiscoveryApi/Areas/api/Controllers/OnlineController.cs:60-62 | `Int32.ToString`: non-empty, starting with `-` exactly for a negative value and with `0` exactly for zero, and digits after the sign |
| `Text.ToUpper` | DiscoveryApi/Areas/api/Controllers/OnlineController.cs:69 | the result has the same length, no lower-case ASCII letter, every other character kept, and each lower-case letter replaced by its capital |
| `Text.ContainsIff` | DiscoveryApi/Areas/api/Controllers/OnlineController.cs:223 | `Contains(name, tag)` holds exactly when the tag occurs at some index of the name |
| `Text.StartsWithContains` | DiscoveryApi/Areas/api/Controllers/OnlineController.cs:223 | a name that starts with the tag also contains it |
| `Text.UnescapeSlash` | DiscoveryApi/Areas/api/Controllers/OnlineController.cs:195 | the tag after `Replace("%2F", "/")` is no longer than before, and a tag without `%2F` is unchanged |
| `Text.UnescapeSlashExamples` | DiscoveryApi/Areas/api/Controllers/OnlineController.cs:195 | `A%2F)-` becomes `A/)-`; the replacement is one left-to-right pass, so `%%2F2F` becomes `%/2F` |
| `Clock.TruncDiv` | DiscoveryApi/Areas/api/Controllers/OnlineController.cs:59-63 | the whole hours and minutes of a `TimeSpan` truncate toward zero: `q*b` lies between 0 and the dividend and within one divisor of it, for either sign |
| `Clock.DaysInMonth` | DiscoveryApi/Areas/api/Controllers/OnlineController.cs:214 | a month has 28 to 31 days, and 29 exactly for February of a Gregorian leap year |
| `Clock.Windows` | DiscoveryApi/Areas/api/Controllers/OnlineController.cs:211-214 | the current window starts at midnight on the 1st of this month; the previous one runs from the 1st of the previous calendar month to 23:59:59.999 on its last day; in January of year 1 `AddMonths(-1)` throws |
| `Clock.WindowsAdjacent` | DiscoveryApi/Areas/api/Controllers/OnlineController.cs:300-303 | the previous window ends one millisecond before the current one starts, and the current one starts no later than now and less than a month before |
| `Clock.StaleMonotone` | DiscoveryApi/Areas/api/Controllers/OnlineController.cs:45 | stale at one instant means stale at every later instant; fresh at one instant means fresh at every earlier one |
| `Clock.FreshAtExpiry` | DiscoveryApi/Areas/api/Controllers/OnlineController.cs:45 | an entry is still fresh at exactly `ttl` seconds after it was stored, and stale at every instant after that |
| `Clock.FormatStampLayout` | DiscoveryApi/Areas/api/Controllers/OnlineController.cs:47 | the `yyyy-MM-ddTHH:mm:ss` stamp is 19 characters long, with separators in place and each field reading back as the instant's year, month, day, hour, minute and second |
| `Api.IsValidKey` | DiscoveryApi/Areas/api/Controllers/OnlineController.cs:376-382 | a key is accepted exactly when some stored key equals it and, when admin is required, is an admin key |
| `Api.AdminKeyIsValid` | DiscoveryApi/Areas/api/Controllers/OnlineController.cs:376-382 | a key accepted as admin is accepted for the public actions too |
| `Paging.Wrap32` | DiscoveryApi/Areas/api/Controllers/OnlineController.cs:121 | unchecked `int` arithmetic: the result is an `int` congruent to the value modulo 2^32, and equal to it when the value fits |
| `Paging.TryParseInt32` | DiscoveryApi/Areas/api/Controllers/OnlineController.cs:100 | a parsed page is always an `int` |
| `Paging.ParseSigned` | DiscoveryApi/Areas/api/Controllers/OnlineController.cs:100 | a value read from the trimmed sign and digits is always an `int` |
| `Paging.ParseSignedOf` | DiscoveryApi/Areas/api/Controllers/OnlineController.cs:100 | an optional `-` and one or more digits read as their signed value when it is an `int`, and are refused otherwise |
| `Paging.TryParseRoundTrip` | DiscoveryApi/Areas/api/Controllers/OnlineController.cs:100-104 | every `int` parses back from its own decimal text, and the text of every integer outside the `int` range is refused |
| `Paging.TryParseNeedsDigit` | DiscoveryApi/Areas/api/Controllers/OnlineController.cs:100-104 | a parameter without a decimal digit is refused |
| `Paging.TryParseAcceptsWhiteAndSign` | DiscoveryApi/Areas/api/Controllers/OnlineController.cs:100 | any number in range, written with a leading space and `+` and a trailing tab, with or without a final `'\0'`, is accepted as its value |
| `Paging.TryParseTrailingNul` | DiscoveryApi/Areas/api/Controllers/OnlineController.cs:100 | appending a `'\0'` never changes what the page parameter parses to (so `5\0` reads as 5) |
| `Paging.TryParseNulBeforeWhite` | DiscoveryApi/Areas/api/Controllers/OnlineController.cs:100-104 | a `'\0'` followed by a space at the end is refused (so `5\0 ` is an invalid page) |
| `Paging.MaxPage` | DiscoveryApi/Areas/api/Controllers/OnlineController.cs:130 | the page count is the ceiling of count/1000: no pages for an empty list, else the least number of 1000-pages holding the list |
| `Paging.Paginate` | DiscoveryApi/Areas/api/Controllers/OnlineController.cs:114-130 | a missing list is `DataNotYetPopulated` before any bounds test; a page is served exactly when `page >= 1` and `(page-1)*1000 < n`, or else it is `PageParameterOutOfBounds`; a served page is the list slice from its offset, 1 to 1000 long and short only at the end; `MaxPage` is the ceiling, and `page <= MaxPage` |
| `Paging.AsWrittenAgreesWithoutWrap` | DiscoveryApi/Areas/api/Controllers/OnlineController.cs:121-129 | where the 32-bit offset does not wrap, the action as written and the corrected slicing give the same answer |
| `Paging.WrappedPageServesFirstPage` | DiscoveryApi/Areas/api/Controllers/OnlineController.cs:121-129 | page 536870913 wraps to offset 0, and the action as written serves page 1 for it |
| `Paging.WrappedPageFaults` | DiscoveryApi/Areas/api/Controllers/OnlineController.cs:121-129 | page 4294968 wraps to offset -296, passes the bounds test and makes `GetRange` throw |
| `Paging.PagesFromSuffix` | DiscoveryApi/Areas/api/Controllers/OnlineController.cs:120-130 | the pages from page `p` on, concatenated, are the list from offset `(p-1)*1000` |
| `Paging.PagesCoverList` | DiscoveryApi/Areas/api/Controllers/OnlineController.cs:120-130 | pages 1 to `MaxPage` are all served and together are the whole list in order; page `MaxPage+1` is out of bounds |
| `Paging.PagingExample` | DiscoveryApi/Areas/api/Controllers/OnlineController.cs:120-130 | 2500 entries make pages of 1000, 1000 and 500, with `MaxPage` 3; pages 0 and 4 are refused |
| `Location.FindSystem` | DiscoveryApi/Areas/api/Controllers/OnlineController.cs:69 | the system found has the nickname looked for, and none is found exactly when no system has it |
| `Location.FindRegion` | DiscoveryApi/Areas/api/Controllers/OnlineController.cs:73 | the region found has the id looked for, and none is found exactly when no region has it |
| `Location.FindSystemUnique` | DiscoveryApi/Areas/api/Controllers/OnlineController.cs:69 | with unique nicknames, the lookup finds the one system carrying the nickname, as `SingleOrDefault` does |
| `Location.FindRegionUnique` | DiscoveryApi/Areas/api/Controllers/OnlineController.cs:73 | with unique ids, the lookup finds the one region carrying the id |
| `Location.ResolveUnknownSystem` | DiscoveryApi/Areas/api/Controllers/OnlineController.cs:69-73 | a location that no system's nickname equals once upper-cased resolves to `Unknown`/`Unknown` |
| `Location.ResolveKnownSystem` | DiscoveryApi/Areas/api/Controllers/OnlineController.cs:69-73 | a known system shows its name; its region shows the region's name when the region exists and `Unknown` when it does not |
| `Location.LatestIndex` | DiscoveryApi/Areas/api/Controllers/OnlineController.cs:66 | `OrderByDescending(Stamp).FirstOrDefault()`: the visit picked has the largest stamp, and is the first stored of those that have it |
| `Location.PublicLastPlace` | DiscoveryApi/Areas/api/Controllers/OnlineController.cs:66-82 | without visits the place is `ERROR`/`ERROR` with ping 0; otherwise it is the resolved place and ping of a visit whose stamp no visit exceeds |
| `Location.AdminLastPlace` | DiscoveryApi/Areas/api/Controllers/OnlineController.cs:158-165 | `LastOrDefault()`: without visits the place is `ERROR`/`ERROR`; otherwise it is the resolved place of one of the session's visits |
| `Location.AdminPlaceFollowsAppend` | DiscoveryApi/Areas/api/Controllers/OnlineController.cs:158-165 | the visit stored last decides the admin place whatever its stamp: appending a visit moves the place to that visit's resolved place |
| `Location.ErrorOnlyWithoutVisits` | DiscoveryApi/Areas/api/Controllers/OnlineController.cs:66-82 | for both the public and the admin variant, the system shows `ERROR` exactly when the session has no visits (no system is named `ERROR`) |
| `Location.VariantsAgreeWhenOrdered` | DiscoveryApi/Areas/api/Controllers/OnlineController.cs:158-165 | when stamps increase in stored order, the admin place (last stored) is the public place (latest stamp) |
| `Location.VariantsCanDiverge` | DiscoveryApi/Areas/api/Controllers/OnlineController.cs:66-74 | when visits are stored out of stamp order, the public and admin snapshots can show different systems |
| `Duration.TimeIntToStr` | DiscoveryApi/Areas/api/Controllers/OnlineController.cs:384-390 | each field below 100 is exactly two characters |
| `Duration.TimeIntToStrCases` | DiscoveryApi/Areas/api/Controllers/OnlineController.cs:384-390 | a value below 10 gets a leading `0`; any other value is its plain decimal text |
| `Duration.TimeIntToStrDigits` | DiscoveryApi/Areas/api/Controllers/OnlineController.cs:384-390 | the field is all digits and reads back as its value |
| `Duration.SpanOf` | DiscoveryApi/Areas/api/Controllers/OnlineController.cs:393 | `TimeSpan.FromSeconds`: whole days, then hours < 24, minutes < 60 and seconds < 60, summing back to the total |
| `Duration.SpanUnique` | DiscoveryApi/Areas/api/Controllers/OnlineController.cs:393 | any decomposition with those bounds that sums to the total is this one |
| `Duration.SpanAgreesWithTicks` | DiscoveryApi/Areas/api/Controllers/OnlineController.cs:393-395 | the hours and minutes of the decomposition are `TimeSpan.Hours` and `TimeSpan.Minutes` computed from ticks |
| `Duration.Clock8` | DiscoveryApi/Areas/api/Controllers/OnlineController.cs:395 | the `H:M:S` body with two-digit fields is eight characters |
| `Duration.WithDaysReadsBack` | DiscoveryApi/Areas/api/Controllers/OnlineController.cs:397 | prefixing `<days>d ` to a clock adds exactly `days * 86400` seconds to what the text reads as |
| `Duration.FormatTimeReadsBack` | DiscoveryApi/Areas/api/Controllers/OnlineController.cs:392-399 | reading the fields of `FormatTime(s)` back gives `s` |
| `Duration.FormatTimeInjective` | DiscoveryApi/Areas/api/Controllers/OnlineController.cs:392-399 | different durations are formatted differently |
| `Duration.FormatTimeLayout` | DiscoveryApi/Areas/api/Controllers/OnlineController.cs:392-399 | the text ends in the two-digit `HH:MM:SS` of the decomposition; below a day it is exactly that, and from a day on it starts with the unpadded day count and `d ` |
| `Duration.FormatTimeExamples` | DiscoveryApi/Areas/api/Controllers/OnlineController.cs:394-395 | 0 is `00:00:00`, 59 is `00:00:59` and 3661 is `01:01:01` |
| `Duration.FormatTimeDayExample` | DiscoveryApi/Areas/api/Controllers/OnlineController.cs:396-397 | 90000 is `1d 01:00:00` |
| `Duration.OnlineTimeShape` | DiscoveryApi/Areas/api/Controllers/OnlineController.cs:59-63 | for a non-negative span, with `h` the hours left after whole days: when `h > 0` the text is `<h>h` and the two-digit minutes, with no trailing `m`; otherwise it is `<m>m` |
| `Duration.OnlineTimeDropsDays` | DiscoveryApi/Areas/api/Controllers/OnlineController.cs:59-61 | a span one day longer shows the same text |
| `Duration.OnlineTimeHoursExample` | DiscoveryApi/Areas/api/Controllers/OnlineController.cs:60-61 | 90 minutes show as `1h30` |
| `Duration.OnlineTimeDayDroppedExample` | DiscoveryApi/Areas/api/Controllers/OnlineController.cs:59-61 | 25 h 05 min shows as `1h05` |
| `Duration.OnlineTimeMinutesExample` | DiscoveryApi/Areas/api/Controllers/OnlineController.cs:62-63 | 5 minutes show as `5m` |
| `Duration.OnlineTimeNegativeExample` | DiscoveryApi/Areas/api/Controllers/OnlineController.cs:59-63 | a session that started 5 minutes in the future shows `-5m`, since `TimeSpan` components truncate toward zero |
| `Activity.MatchesFactionIff` | DiscoveryApi/Areas/api/Controllers/OnlineController.cs:223 | a name matches a tag exactly when it starts with the tag, or the tag is one of the two legacy tags (`[TBH]` and the one spelt with a leading bar, `Aoi`) and occurs somewhere in the name |
| `Activity.MatchesFactionExamples` | DiscoveryApi/Areas/api/Controllers/OnlineController.cs:223 | `[TBH]` matches inside a name, an ordinary tag inside a name does not, and an ordinary tag as a prefix does |
| `Activity.WindowSessions` | DiscoveryApi/Areas/api/Controllers/OnlineController.cs:223 | the sessions kept are exactly the completed sessions of matching players that started within the window |
| `Activity.WindowSessionsOrder` | DiscoveryApi/Areas/api/Controllers/OnlineController.cs:223 | the query keeps stored order and multiplicity: it keeps a single session exactly when it is in the window, and distributes over concatenation |
| `Activity.VisitsTotalAppend` | DiscoveryApi/Areas/api/Controllers/OnlineController.cs:231-237 | the total of concatenated visit lists is the sum of their totals |
| `Activity.SessionsTotalAppend` | DiscoveryApi/Areas/api/Controllers/OnlineController.cs:322-332 | the total of concatenated session lists is the sum of their totals |
| `Activity.WastedVisitIgnored` | DiscoveryApi/Areas/api/Controllers/OnlineController.cs:233 | inserting a visit to a wasted location leaves the total unchanged |
| `Activity.WastedExample` | DiscoveryApi/Areas/api/Controllers/OnlineController.cs:233-235 | 100 s in the wasted `LOBBY` and 50 s elsewhere total 50 |
| `Activity.SumActivity` | DiscoveryApi/Areas/api/Controllers/OnlineController.cs:322-332 | the summed `curr_time` is the total of the sessions' non-wasted visit durations |
| `Activity.SessionsOf` | DiscoveryApi/Areas/api/Controllers/OnlineController.cs:235 | a player's sessions are exactly the sessions carrying that name |
| `Activity.PlayerTotalIsOwnSessions` | DiscoveryApi/Areas/api/Controllers/OnlineController.cs:229-238 | a player's accumulated total is the total of that player's own sessions |
| `Activity.PlayerTotalAbsent` | DiscoveryApi/Areas/api/Controllers/OnlineController.cs:261-266 | a player with no session in a window has total 0 there |
| `Activity.PlayerTotals` | DiscoveryApi/Areas/api/Controllers/OnlineController.cs:224-238 | the dictionary holds exactly the window's player names, each mapped to that player's total |
| `Activity.AddVisits` | DiscoveryApi/Areas/api/Controllers/OnlineController.cs:231-237 | one session's non-wasted durations are added to its player's entry, and nothing else changes |
| `Activity.DetailCharactersMeaning` | DiscoveryApi/Areas/api/Controllers/OnlineController.cs:256-268 | the report's players are exactly those with a session in either window; both times read back as the player's totals; a side without sessions shows `00:00:00` |
| `Activity.NameListNames` | DiscoveryApi/Areas/api/Controllers/OnlineController.cs:224-227 | the names met while iterating the sessions are the window's players |
| `Activity.FormatCharacters` | DiscoveryApi/Areas/api/Controllers/OnlineController.cs:256-269 | for each player, the report entry formats the current and previous totals, where a missing side is 0 |
| `Activity.FormatEntry` | DiscoveryApi/Areas/api/Controllers/OnlineController.cs:259-268 | one entry formats the totals found for its key, and 0 where a dictionary lacks the key |
| `Activity.CompileCharacters` | DiscoveryApi/Areas/api/Controllers/OnlineController.cs:224-269 | the report the action builds equals the per-player report specification |
| `Activity.Memos` | DiscoveryApi/Areas/api/Controllers/OnlineController.cs:318-338 | the records kept are exactly the stored records of the faction stamped at the start of last month |
| `Activity.PairMakesDuplicate` | DiscoveryApi/Areas/api/Controllers/OnlineController.cs:335-338 | two records of the faction and month at different positions give at least two memos |
| `Activity.DuplicateHasPair` | DiscoveryApi/Areas/api/Controllers/OnlineController.cs:335-338 | at least two memos come from two records at different positions |
| `Activity.MemosDuplicate` | DiscoveryApi/Areas/api/Controllers/OnlineController.cs:335-338 | at least two memos are found exactly when two stored records at different positions memoise the same faction and month |
| `Activity.LookupMemoMeaning` | DiscoveryApi/Areas/api/Controllers/OnlineController.cs:335-338 | `Any` then `SingleOrDefault`: no memo exactly when no record of the faction carries the stamp; a single memo holds the duration of every such record; the lookup throws exactly when two records carry it |
| `Activity.SummaryRowMeaning` | DiscoveryApi/Areas/api/Controllers/OnlineController.cs:335-363 | there is no row (the lookup throws) exactly when two records memoise the faction's previous month; otherwise a row names its faction, its current time reads back as the current-month total, `Danger` holds exactly when that total is below the threshold, and the previous time is the memo's duration when a memo exists and the live previous-month total otherwise |
| `Activity.BuildSummaryRow` | DiscoveryApi/Areas/api/Controllers/OnlineController.cs:308-365 | one iteration of the faction loop computes that faction's summary row, and stops where `SingleOrDefault` throws |
| `Activity.BuildSummary` | DiscoveryApi/Areas/api/Controllers/OnlineController.cs:305-367 | one summary row per faction, in table order; no rows exactly when the lookup of some faction throws |
| `Online.ActiveSessions` | DiscoveryApi/Areas/api/Controllers/OnlineController.cs:49 | the sessions kept are exactly the stored sessions without an end stamp |
| `Online.ActiveSessionsOrder` | DiscoveryApi/Areas/api/Controllers/OnlineController.cs:49 | the filter keeps stored order and multiplicity: it keeps a single session exactly when it is active, and distributes over concatenation |
| `Online.PublicRowTime` | DiscoveryApi/Areas/api/Controllers/OnlineController.cs:57-63 | a public row names its player and shows `<h>h<mm>` or `<m>m` for the time since the session started |
| `Online.PublicRowPlace` | DiscoveryApi/Areas/api/Controllers/OnlineController.cs:66-82 | given that no system is named `ERROR`, a row shows `ERROR` as system exactly for a session without visits, and that session also shows region `ERROR` and ping 0 |
| `Online.RowsAgreeWhenOrdered` | DiscoveryApi/Areas/api/Controllers/OnlineController.cs:158-165 | with visits stored in stamp order, the public and admin rows show the same system and region |
| `Online.PublicPlayers` | DiscoveryApi/Areas/api/Controllers/OnlineController.cs:54-85 | one public row per active session, in order |
| `Online.AdminPlayers` | DiscoveryApi/Areas/api/Controllers/OnlineController.cs:152-179 | one admin row per active session, in order, with id, ship and IP |
| `Online.CacheManager.StorePlayerOnline` | DiscoveryApi/Areas/api/Controllers/OnlineController.cs:87-88 | the public snapshot and its stamp are replaced, and every other field is unchanged |
| `Online.CacheManager.StoreFactionDetails` | DiscoveryApi/Areas/api/Controllers/OnlineController.cs:271-274 | only this tag's entry is written; every other tag's entry and every other field is unchanged |
| `Online.CacheManager.StoreFactionSummary` | DiscoveryApi/Areas/api/Controllers/OnlineController.cs:369-370 | the summary and its stamp are replaced, and every other field is unchanged |
| `Online.OnlineController.GetPlayers` | DiscoveryApi/Areas/api/Controllers/OnlineController.cs:30-92 | an invalid key is refused and the cache is untouched; a fresh snapshot is returned unchanged; an expired one is rebuilt from the active sessions, stamped with `LastUpdate`, stored at the refresh instant and returned; every other field of the cache, stamps and settings included, is unchanged |
| `Online.OnlineController.GetAllPlayers` | DiscoveryApi/Areas/api/Controllers/OnlineController.cs:95-132 | an unparsable page is refused before the key is checked; then an invalid key is refused; then the list is paged as `Paging.Paginate` states, stamped with the list's timestamp; wherever the 32-bit offset does not wrap, the reply is also the one of the slicing as written, `Paging.PageAsWritten` |
| `Online.OnlineController.AdminGetPlayers` | DiscoveryApi/Areas/api/Controllers/OnlineController.cs:136-182 | a key that is not an admin key is refused; otherwise there is one admin row per active session, stamped with `LastUpdate`, and nothing is cached |
| `Online.OnlineController.GetFactionDetails` | DiscoveryApi/Areas/api/Controllers/OnlineController.cs:184-278 | an invalid key, then a tag no faction carries once `%2F` is unescaped, are refused without touching the cache; a fresh report is returned unchanged; a missing or expired one is rebuilt for the two month windows, written under that tag alone and returned, with every other field of the cache unchanged; in January of year 1 the rebuild throws |
| `Online.OnlineController.GetFactionSummary` | DiscoveryApi/Areas/api/Controllers/OnlineController.cs:281-374 | an invalid key is refused; a fresh summary is returned unchanged; an expired one is rebuilt with one row per faction, stamped and stored, with every other field of the cache unchanged; the rebuild throws, leaving the cache untouched, when two records memoise some faction's previous month, and in January of year 1 |

## Left out

- **HTTP, JSON and logging.** Routing, `Json(...)`, Newtonsoft serialisation and logging are not modelled. A cached payload is the value that would be serialised. An error reply is `Fail` with an error code instead of a model whose `Error` holds a localised message. An exception is `Fault`.
- **Entity Framework.** The tables are sequences in stored order, and each `Where` is a filter over them.
- **The clock.** Every `DateTime.UtcNow` is a parameter. These are `now` for the instant read at the start of an action, `storedAt` for the one stored with a refreshed payload, and `stampedAt` for the `Timestamp` of the faction summary.
- **Concurrency.** Concurrent requests that race on the shared cache are not modelled; one sequential caller is.
- **CacheManager's own source.** `CacheManager` is not part of this model. Its fields are the ones the controller reads and writes. Its initial state is whatever the constructor is given, with every payload but the global individual list absent; that list is passed to the constructor.
- **The global list's element type.** The entries of the global activity list are an opaque type (`Online.IndividualEntry`). The list is computed outside the controller, which only slices it.
- **`Math.Ceiling` on a `double`.** The page count is integer ceiling division; this is exact for every list shorter than 2^53.
- **`ulong` accumulators.** The duration sums are unbounded naturals. The source's unchecked `ulong` wrap is not modelled.
- **`DateTime.AddSeconds`.** The staleness test compares ticks without bound. The source throws when `AddSeconds` passes year 9999, and that is not modelled.
- **`SingleOrDefault` with duplicates.** The system and region lookups return the first match. The source throws on a duplicate nickname or region id; `Location.FindSystemUnique` and `Location.FindRegionUnique` show the two agree when keys are unique. The memo lookup of the faction summary does model the throw (`Activity.LookupMemoMeaning`).
- **`TimeSpan.FromSeconds` and the `(ulong)` casts.** `FormatTime` decomposes any natural number. The source's `TimeSpan.FromSeconds` throws beyond `TimeSpan.MaxValue` (about 9.2 * 10^11 seconds), and that is not modelled. Visit durations are natural numbers, so the `(ulong)` cast at :235, :251, :329 and :352, which wraps a negative stored duration to a huge value, is not modelled either.
- **Database collation.** The `Where` and `Any` at :201, :223, :239, :321, :344 and :378 run as SQL, where the database's collation decides string equality, `StartsWith` and `Contains`, possibly ignoring case. The model compares ordinally, as the same queries over lists in memory do.
- **Culture of the stamp.** In the format `yyyy-MM-ddTHH:mm:ss`, `:` is the current culture's time separator. The model always writes `:`, as the invariant culture does.
- **Null names.** Names are non-null strings. The fallback `?.Name ?? "Unknown"` at :73 and :165 is taken in the model only when the region is missing, not when a stored region name is null. A system whose name is null would show null, which is not modelled.
- **`ToUpper`.** Upper-casing covers ASCII letters only; culture-sensitive upper-casing of other letters is not modelled.
- **Dictionary order.** The per-player report is a map, so the order of its JSON keys is not captured. The loop that fills it follows the players in session order, as .NET's dictionary enumeration does.
- `Duration.TimeIntToStr`: defined on non-negative values only, because its only callers pass the components of a non-negative `TimeSpan`. `Duration.TimeIntToStrCases` proves it equal to the source's conditional.
- `Online.PublicRowTime`: states the text only for sessions that started no later than `now`. `Duration.OnlineTimeNegativeExample` shows one session that starts later.
- `Online.OnlineController.GetAllPlayers`: pages through the corrected `Paging.Paginate` and never faults. As written, a page whose 32-bit offset wraps is served wrongly or throws (see Findings). The contract ties the reply to `Paging.PageAsWritten` only where the offset does not wrap.

## Findings

| source | as written | input that shows it | evidently intended | confidence | as-written member | corrected member |
|---|---|---|---|---|---|---|
| DiscoveryApi/Areas/api/Controllers/OnlineController.cs:121-129 | the offset `(pageInt - 1) * CHARACTERS_PER_PAGE` is computed in unchecked 32-bit `int` arithmetic and wraps for large pages | page `536870913` wraps to offset 0 and serves page 1 again; page `4294968` wraps to offset -296, passes the bounds test and makes `GetRange` throw | a page beyond the list is refused with `PageParameterOutOfBounds` | not executed | `Paging.PageAsWritten` (shown by `Paging.WrappedPageServesFirstPage`, `Paging.WrappedPageFaults`) | `Paging.Paginate` (properties in `Paging.PagesCoverList`; used by `Online.OnlineController.GetAllPlayers`) |
