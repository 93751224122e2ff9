/** Faction activity: which sessions belong to a faction and a month window,
    the sums of visit durations outside the wasted locations (per faction and
    per player), and the rows of the per-faction detail report and of the
    global faction summary. */
module Activity {
  import opened Wrappers
  import opened Text
  import opened Clock
  import opened Api
  import opened Duration

  /** The two legacy tags matched anywhere in a name rather than as a prefix. */
  predicate IsLegacyTag(tag: string) {
    tag == "[TBH]" || tag == "|Aoi"
  }

  /** The name test of the session queries: the name starts with the tag,
      or, for a legacy tag, contains it. */
  predicate MatchesFaction(name: string, tag: string) {
    (IsLegacyTag(tag) && Contains(name, tag)) || StartsWith(name, tag)
  }

  /** A name matches exactly when the tag occurs at its start, or occurs
      anywhere and the tag is a legacy one. */
  lemma MatchesFactionIff(name: string, tag: string)
    ensures MatchesFaction(name, tag) <==>
      OccursAt(name, tag, 0) || (IsLegacyTag(tag) && exists i :: OccursAt(name, tag, i))
  {
    ContainsIff(name, tag);
  }

  /** A legacy tag inside a name matches; an ordinary tag inside a name does not. */
  lemma MatchesFactionExamples()
    ensures MatchesFaction("xx[TBH]yy", "[TBH]")
    ensures !MatchesFaction("xxABCyy", "ABC")
    ensures MatchesFaction("ABCyy", "ABC")
  {
    assert "xx[TBH]yy"[2..7] == "[TBH]";
    assert OccursAt("xx[TBH]yy", "[TBH]", 2);
    MatchesFactionIff("xx[TBH]yy", "[TBH]");
    assert "xxABCyy"[..3] == "xxA";
    assert "ABCyy"[..3] == "ABC";
  }

  /** A completed session of a faction member that started inside `[from, to]`. */
  predicate InWindow(s: Session, tag: string, from: DateTime, to: DateTime) {
    MatchesFaction(s.playerName, tag) && Ticks(from) <= Ticks(s.start) <= Ticks(to) && s.end.Some?
  }

  /** The session query of a window, in stored order. */
  function WindowSessions(sessions: seq<Session>, tag: string, from: DateTime, to: DateTime): (r: seq<Session>)
    ensures |r| <= |sessions|
    ensures forall s :: s in r <==> s in sessions && InWindow(s, tag, from, to)
  {
    if sessions == [] then []
    else (if InWindow(sessions[0], tag, from, to) then [sessions[0]] else [])
         + WindowSessions(sessions[1..], tag, from, to)
  }

  /** The query keeps stored order and multiplicity: a single session is kept
      exactly when it lies in the window, and the query of a concatenation is
      the concatenation of the queries. */
  lemma {:induction false} WindowSessionsOrder(a: seq<Session>, b: seq<Session>, s: Session,
                                               tag: string, from: DateTime, to: DateTime)
    ensures WindowSessions([s], tag, from, to) == if InWindow(s, tag, from, to) then [s] else []
    ensures WindowSessions(a + b, tag, from, to) == WindowSessions(a, tag, from, to) + WindowSessions(b, tag, from, to)
    decreases |a|
  {
    assert [s][1..] == [];
    if a == [] {
      assert a + b == b;
    } else {
      assert (a + b)[1..] == a[1..] + b;
      WindowSessionsOrder(a[1..], b, s, tag, from, to);
    }
  }

  /** A visit counts toward activity unless its upper-cased location is wasted. */
  predicate Counts(v: Visit, wasted: set<string>) {
    ToUpper(v.location) !in wasted
  }

  /** Seconds spent in the counted visits. */
  function VisitsTotal(visits: seq<Visit>, wasted: set<string>): nat {
    if visits == [] then 0
    else
      var v := visits[|visits| - 1];
      VisitsTotal(visits[..|visits| - 1], wasted) + (if Counts(v, wasted) then v.duration else 0)
  }

  /** Seconds spent in the counted visits of all the sessions. */
  function SessionsTotal(sessions: seq<Session>, wasted: set<string>): nat {
    if sessions == [] then 0
    else SessionsTotal(sessions[..|sessions| - 1], wasted) + VisitsTotal(sessions[|sessions| - 1].visits, wasted)
  }

  lemma {:induction false} VisitsTotalAppend(a: seq<Visit>, b: seq<Visit>, wasted: set<string>)
    ensures VisitsTotal(a + b, wasted) == VisitsTotal(a, wasted) + VisitsTotal(b, wasted)
    decreases |b|
  {
    if b == [] {
      assert a + b == a;
    } else {
      assert (a + b)[..|a + b| - 1] == a + b[..|b| - 1];
      VisitsTotalAppend(a, b[..|b| - 1], wasted);
    }
  }

  lemma {:induction false} SessionsTotalAppend(a: seq<Session>, b: seq<Session>, wasted: set<string>)
    ensures SessionsTotal(a + b, wasted) == SessionsTotal(a, wasted) + SessionsTotal(b, wasted)
    decreases |b|
  {
    if b == [] {
      assert a + b == a;
    } else {
      assert (a + b)[..|a + b| - 1] == a + b[..|b| - 1];
      SessionsTotalAppend(a, b[..|b| - 1], wasted);
    }
  }

  /** A visit to a wasted location, wherever it stands, leaves the total unchanged. */
  lemma WastedVisitIgnored(a: seq<Visit>, w: Visit, b: seq<Visit>, wasted: set<string>)
    requires !Counts(w, wasted)
    ensures VisitsTotal(a + [w] + b, wasted) == VisitsTotal(a + b, wasted)
  {
    VisitsTotalAppend(a + [w], b, wasted);
    VisitsTotalAppend(a, b, wasted);
    assert (a + [w])[..|a|] == a;
  }

  /** A wasted visit of 100 seconds and a counted one of 50 make 50. */
  lemma WastedExample(lobby: Visit, base: Visit)
    requires lobby.duration == 100 && base.duration == 50
    requires ToUpper(lobby.location) == "LOBBY" && ToUpper(base.location) == "LI01_01"
    ensures VisitsTotal([lobby, base], {"LOBBY"}) == 50
  {
    assert [lobby, base][..1] == [lobby];
    assert [lobby][..0] == [];
    assert VisitsTotal([lobby], {"LOBBY"}) == 0;
    assert "LI01_01" != "LOBBY" by {
      assert "LI01_01"[1] != "LOBBY"[1];
    }
  }

  /** The summing loops of `GetFactionSummary`: every counted visit of every
      session added to one counter. */
  method SumActivity(sessions: seq<Session>, wasted: set<string>) returns (total: nat)
    ensures total == SessionsTotal(sessions, wasted)
  {
    total := 0;
    for i := 0 to |sessions|
      invariant total == SessionsTotal(sessions[..i], wasted)
    {
      var visits := sessions[i].visits;
      for j := 0 to |visits|
        invariant total == SessionsTotal(sessions[..i], wasted) + VisitsTotal(visits[..j], wasted)
      {
        assert visits[..j + 1][..j] == visits[..j];
        if ToUpper(visits[j].location) !in wasted {
          total := total + visits[j].duration;
        }
      }
      assert visits[..|visits|] == visits;
      assert sessions[..i + 1][..i] == sessions[..i];
    }
    assert sessions[..|sessions|] == sessions;
  }

  /** The player names of the sessions. */
  function Names(sessions: seq<Session>): set<string> {
    set s | s in sessions :: s.playerName
  }

  /** Seconds in the counted visits of one player's sessions. */
  function PlayerTotal(sessions: seq<Session>, name: string, wasted: set<string>): nat {
    if sessions == [] then 0
    else
      var s := sessions[|sessions| - 1];
      PlayerTotal(sessions[..|sessions| - 1], name, wasted)
      + (if s.playerName == name then VisitsTotal(s.visits, wasted) else 0)
  }

  /** One player's sessions, in stored order. */
  function SessionsOf(sessions: seq<Session>, name: string): (r: seq<Session>)
    ensures forall s :: s in r <==> s in sessions && s.playerName == name
  {
    if sessions == [] then []
    else
      var s := sessions[|sessions| - 1];
      SessionsOf(sessions[..|sessions| - 1], name) + (if s.playerName == name then [s] else [])
  }

  /** A player's total is the window total of that player's own sessions. */
  lemma {:induction false} PlayerTotalIsOwnSessions(sessions: seq<Session>, name: string, wasted: set<string>)
    ensures PlayerTotal(sessions, name, wasted) == SessionsTotal(SessionsOf(sessions, name), wasted)
    decreases |sessions|
  {
    if sessions != [] {
      var s := sessions[|sessions| - 1];
      var prefix := sessions[..|sessions| - 1];
      PlayerTotalIsOwnSessions(prefix, name, wasted);
      SessionsTotalAppend(SessionsOf(prefix, name), if s.playerName == name then [s] else [], wasted);
      if s.playerName == name {
        assert [s][..0] == [];
      }
    }
  }

  /** A player without sessions in the window totals 0. */
  lemma {:induction false} PlayerTotalAbsent(sessions: seq<Session>, name: string, wasted: set<string>)
    requires name !in Names(sessions)
    ensures PlayerTotal(sessions, name, wasted) == 0
    decreases |sessions|
  {
    if sessions != [] {
      var prefix := sessions[..|sessions| - 1];
      assert sessions[|sessions| - 1] in sessions;
      assert Names(prefix) <= Names(sessions) by {
        forall n | n in Names(prefix) ensures n in Names(sessions) {
          var s :| s in prefix && s.playerName == n;
          assert s in sessions;
        }
      }
      PlayerTotalAbsent(prefix, name, wasted);
    }
  }

  lemma NamesOfPrefix(sessions: seq<Session>, i: nat)
    requires i < |sessions|
    ensures Names(sessions[..i + 1]) == Names(sessions[..i]) + {sessions[i].playerName}
  {
    assert sessions[..i + 1] == sessions[..i] + [sessions[i]];
  }

  /** The per-player dictionaries of `GetFactionDetails` (`curr_time`,
      `last_time`): every player of the sessions starts at 0, then each
      counted visit is added to its player's entry. */
  method PlayerTotals(sessions: seq<Session>, wasted: set<string>) returns (times: map<string, nat>)
    ensures times.Keys == Names(sessions)
    ensures forall n :: n in times ==> times[n] == PlayerTotal(sessions, n, wasted)
  {
    times := map[];
    for i := 0 to |sessions|
      invariant times.Keys == Names(sessions[..i])
      invariant forall n :: n in times ==> times[n] == 0
    {
      NamesOfPrefix(sessions, i);
      times := times[sessions[i].playerName := 0];
    }
    assert sessions[..|sessions|] == sessions;
    forall n | n in times ensures times[n] == PlayerTotal(sessions[..0], n, wasted) {
    }
    for i := 0 to |sessions|
      invariant times.Keys == Names(sessions)
      invariant forall n :: n in times ==> times[n] == PlayerTotal(sessions[..i], n, wasted)
    {
      assert sessions[i] in sessions;
      assert sessions[..i + 1][..i] == sessions[..i];
      times := AddVisits(times, sessions[i].playerName, sessions[i].visits, wasted);
    }
    assert sessions[..|sessions|] == sessions;
  }

  /** The inner loop of the per-player accumulation: each counted visit's
      duration added to the player's entry, no other entry touched. */
  method AddVisits(times: map<string, nat>, name: string, visits: seq<Visit>, wasted: set<string>)
    returns (r: map<string, nat>)
    requires name in times
    ensures r == times[name := times[name] + VisitsTotal(visits, wasted)]
  {
    r := times;
    for j := 0 to |visits|
      invariant r == times[name := times[name] + VisitsTotal(visits[..j], wasted)]
    {
      assert visits[..j + 1][..j] == visits[..j];
      if ToUpper(visits[j].location) !in wasted {
        r := r[name := r[name] + visits[j].duration];
      }
    }
    assert visits[..|visits|] == visits;
  }

  /** A `CharacterActivity`: the formatted totals of the current and the previous month. */
  datatype CharacterActivity = CharacterActivity(currentTime: string, lastTime: string)

  /** The `Characters` of the per-faction detail report: every player with a
      session in either window, with both months' totals formatted. */
  function DetailCharacters(curr: seq<Session>, last: seq<Session>, wasted: set<string>): map<string, CharacterActivity> {
    Formatted(Names(curr) + Names(last), Totals(curr, wasted), Totals(last, wasted))
  }

  /** Each player's total of the sessions. */
  function Totals(sessions: seq<Session>, wasted: set<string>): map<string, nat> {
    map n | n in Names(sessions) :: PlayerTotal(sessions, n, wasted)
  }

  /** The entries of `keys`, each from both dictionaries' totals, 0 where one lacks the key. */
  function Formatted(keys: set<string>, currTime: map<string, nat>, lastTime: map<string, nat>)
    : map<string, CharacterActivity>
  {
    map n | n in keys :: Character(TotalOf(currTime, n), TotalOf(lastTime, n))
  }

  /** One player's entry, from both months' totals in seconds. */
  function Character(currSeconds: nat, lastSeconds: nat): CharacterActivity {
    CharacterActivity(FormatTime(currSeconds), FormatTime(lastSeconds))
  }

  /** The report lists exactly the players of either window; each side reads
      back as that player's total, and a player absent from a window shows
      "00:00:00" for it. */
  lemma DetailCharactersMeaning(curr: seq<Session>, last: seq<Session>, wasted: set<string>, n: string)
    ensures n in DetailCharacters(curr, last, wasted) <==> n in Names(curr) || n in Names(last)
    ensures n in DetailCharacters(curr, last, wasted) ==>
      && ReadDuration(DetailCharacters(curr, last, wasted)[n].currentTime) == PlayerTotal(curr, n, wasted)
      && ReadDuration(DetailCharacters(curr, last, wasted)[n].lastTime) == PlayerTotal(last, n, wasted)
    ensures n in Names(curr) && n !in Names(last) ==>
      DetailCharacters(curr, last, wasted)[n].lastTime == "00:00:00"
    ensures n in Names(last) && n !in Names(curr) ==>
      DetailCharacters(curr, last, wasted)[n].currentTime == "00:00:00"
  {
    FormatTimeExamples();
    var c, l := PlayerTotal(curr, n, wasted), PlayerTotal(last, n, wasted);
    FormatTimeReadsBack(c);
    FormatTimeReadsBack(l);
    if n !in Names(last) {
      PlayerTotalAbsent(last, n, wasted);
    }
    if n !in Names(curr) {
      PlayerTotalAbsent(curr, n, wasted);
    }
    assert TotalOf(Totals(curr, wasted), n) == c && TotalOf(Totals(last, wasted), n) == l;
  }

  /** A player's entry of a per-player dictionary, 0 when the player is missing. */
  function TotalOf(times: map<string, nat>, n: string): nat {
    if n in times then times[n] else 0
  }

  /** The players of the sessions in stored order, as the first loops enter
      them into `Characters` (a .NET dictionary enumerates its keys in the
      order they were first added). */
  function NameList(sessions: seq<Session>): seq<string>
  {
    seq(|sessions|, i requires 0 <= i < |sessions| => sessions[i].playerName)
  }

  /** The distinct names of a list. */
  function KeySet(keys: seq<string>): set<string> {
    set n | n in keys
  }

  lemma NameListNames(sessions: seq<Session>)
    ensures KeySet(NameList(sessions)) == Names(sessions)
  {
    var l := NameList(sessions);
    forall n | n in Names(sessions) ensures n in l {
      var s :| s in sessions && s.playerName == n;
      var i :| 0 <= i < |sessions| && sessions[i] == s;
      assert l[i] == n;
    }
  }

  /** The second loop of the `Characters` compilation: every key, in the
      order the dictionary holds them, with a missing side read as 0,
      formatted. */
  method FormatCharacters(keys: seq<string>, currTime: map<string, nat>, lastTime: map<string, nat>)
    returns (chars: map<string, CharacterActivity>)
    ensures chars == Formatted(KeySet(keys), currTime, lastTime)
  {
    chars := map[];
    for i := 0 to |keys|
      invariant chars == Formatted(KeySet(keys[..i]), currTime, lastTime)
    {
      assert KeySet(keys[..i + 1]) == KeySet(keys[..i]) + {keys[i]} by {
        assert keys[..i + 1] == keys[..i] + [keys[i]];
      }
      FormattedAdd(KeySet(keys[..i]), currTime, lastTime, keys[i]);
      var entry := FormatEntry(currTime, lastTime, keys[i]);
      chars := chars[keys[i] := entry];
    }
    assert keys[..|keys|] == keys;
  }

  /** Formatting one key more adds its entry. */
  lemma FormattedAdd(done: set<string>, currTime: map<string, nat>, lastTime: map<string, nat>, k: string)
    ensures Formatted(done + {k}, currTime, lastTime)
      == Formatted(done, currTime, lastTime)[k := Character(TotalOf(currTime, k), TotalOf(lastTime, k))]
  {
    var a := Formatted(done + {k}, currTime, lastTime);
    var b := Formatted(done, currTime, lastTime)[k := Character(TotalOf(currTime, k), TotalOf(lastTime, k))];
    assert a.Keys == b.Keys;
    forall n | n in a ensures a[n] == b[n] {
    }
  }

  /** One entry of the `Characters` compilation: a side missing from its
      dictionary counts 0 seconds. */
  method FormatEntry(currTime: map<string, nat>, lastTime: map<string, nat>, k: string)
    returns (entry: CharacterActivity)
    ensures entry == Character(TotalOf(currTime, k), TotalOf(lastTime, k))
  {
    var currSeconds := 0;
    var lastSeconds := 0;
    if k in currTime {
      currSeconds := currTime[k];
    }
    if k in lastTime {
      lastSeconds := lastTime[k];
    }
    entry := Character(currSeconds, lastSeconds);
  }

  /** The body of `GetFactionDetails` that compiles `Characters`: both
      windows' per-player totals, then their entries formatted. */
  method CompileCharacters(curr: seq<Session>, last: seq<Session>, wasted: set<string>)
    returns (chars: map<string, CharacterActivity>)
    ensures chars == DetailCharacters(curr, last, wasted)
  {
    var currTime := PlayerTotals(curr, wasted);
    var lastTime := PlayerTotals(last, wasted);
    assert currTime == Totals(curr, wasted) && lastTime == Totals(last, wasted);
    var keys := NameList(curr) + NameList(last);
    chars := FormatCharacters(keys, currTime, lastTime);
    assert KeySet(keys) == Names(curr) + Names(last) by {
      NameListNames(curr);
      NameListNames(last);
      assert forall n :: n in keys <==> n in NameList(curr) || n in NameList(last);
    }
  }

  /** A `FactionSummarySingle` row. */
  datatype FactionSummarySingle = FactionSummarySingle(id: int, name: string, tag: string, danger: bool,
                                                       currentTime: string, lastTime: string)

  /** A record memoises faction `factionId`'s total for the month starting at `stamp`. */
  predicate IsMemo(m: FactionActivity, factionId: int, stamp: DateTime) {
    m.factionId == factionId && Ticks(m.stamp) == Ticks(stamp)
  }

  /** The faction's activity records stamped at `stamp`, in stored order:
      `Where(c => c.FactionId == id)` followed by the test `c.Stamp == stamp`. */
  function Memos(records: seq<FactionActivity>, factionId: int, stamp: DateTime): (r: seq<FactionActivity>)
    ensures |r| <= |records|
    ensures forall m :: m in r <==> m in records && IsMemo(m, factionId, stamp)
  {
    if records == [] then []
    else (if IsMemo(records[0], factionId, stamp) then [records[0]] else []) + Memos(records[1..], factionId, stamp)
  }

  /** Two stored records memoising the same faction and month, at different
      positions, make at least two memos. */
  lemma {:induction false} PairMakesDuplicate(records: seq<FactionActivity>, factionId: int, stamp: DateTime, i: nat, j: nat)
    requires i < j < |records|
    requires IsMemo(records[i], factionId, stamp) && IsMemo(records[j], factionId, stamp)
    ensures |Memos(records, factionId, stamp)| >= 2
    decreases i
  {
    var rest := records[1..];
    if i == 0 {
      assert rest[j - 1] in Memos(rest, factionId, stamp);
    } else {
      PairMakesDuplicate(rest, factionId, stamp, i - 1, j - 1);
    }
  }

  /** At least two memos come from two stored records at different positions. */
  lemma {:induction false} DuplicateHasPair(records: seq<FactionActivity>, factionId: int, stamp: DateTime)
    requires |Memos(records, factionId, stamp)| >= 2
    ensures exists i, j :: 0 <= i < j < |records| && IsMemo(records[i], factionId, stamp) && IsMemo(records[j], factionId, stamp)
    decreases |records|
  {
    var rest := records[1..];
    var ms := Memos(rest, factionId, stamp);
    if IsMemo(records[0], factionId, stamp) {
      assert Memos(records, factionId, stamp) == [records[0]] + ms;
      assert ms[0] in rest;
      var j :| 0 <= j < |rest| && rest[j] == ms[0];
      assert rest[j] == records[j + 1];
      assert 0 <= 0 < j + 1 < |records| && IsMemo(records[0], factionId, stamp) && IsMemo(records[j + 1], factionId, stamp);
    } else {
      assert Memos(records, factionId, stamp) == ms;
      DuplicateHasPair(rest, factionId, stamp);
      var i, j :| 0 <= i < j < |rest| && IsMemo(rest[i], factionId, stamp) && IsMemo(rest[j], factionId, stamp);
      assert rest[i] == records[i + 1] && rest[j] == records[j + 1];
      assert 0 <= i + 1 < j + 1 < |records| && IsMemo(records[i + 1], factionId, stamp) && IsMemo(records[j + 1], factionId, stamp);
    }
  }

  /** At least two memos are found exactly when two stored records, at
      different positions, memoise the same faction and month. */
  lemma MemosDuplicate(records: seq<FactionActivity>, factionId: int, stamp: DateTime)
    ensures |Memos(records, factionId, stamp)| >= 2 <==>
      exists i, j :: 0 <= i < j < |records| && IsMemo(records[i], factionId, stamp) && IsMemo(records[j], factionId, stamp)
  {
    if |Memos(records, factionId, stamp)| >= 2 {
      DuplicateHasPair(records, factionId, stamp);
    }
    if exists i, j :: 0 <= i < j < |records| && IsMemo(records[i], factionId, stamp) && IsMemo(records[j], factionId, stamp) {
      var i, j :| 0 <= i < j < |records| && IsMemo(records[i], factionId, stamp) && IsMemo(records[j], factionId, stamp);
      PairMakesDuplicate(records, factionId, stamp, i, j);
    }
  }

  /** The outcome of `Any` followed by `SingleOrDefault` on a faction's
      records: no memo, exactly one, or several, where `SingleOrDefault` throws. */
  datatype MemoLookup = NoMemo | OneMemo(duration: nat) | ManyMemos

  /** The memo lookup of one faction and month. */
  function LookupMemo(records: seq<FactionActivity>, factionId: int, stamp: DateTime): MemoLookup {
    var ms := Memos(records, factionId, stamp);
    if |ms| == 0 then NoMemo
    else if |ms| == 1 then OneMemo(ms[0].duration)
    else ManyMemos
  }

  /** No memo is found exactly when no record memoises the month; a single
      memo carries the duration every memoising record holds; the lookup
      throws exactly when two records at different positions memoise it. */
  lemma LookupMemoMeaning(records: seq<FactionActivity>, factionId: int, stamp: DateTime)
    ensures var r := LookupMemo(records, factionId, stamp);
      r.NoMemo? <==> forall m :: m in records ==> !IsMemo(m, factionId, stamp)
    ensures var r := LookupMemo(records, factionId, stamp);
      r.OneMemo? ==>
      && (exists m :: m in records && IsMemo(m, factionId, stamp))
      && (forall m :: m in records && IsMemo(m, factionId, stamp) ==> m.duration == r.duration)
    ensures LookupMemo(records, factionId, stamp).ManyMemos? <==>
      exists i, j :: 0 <= i < j < |records| && IsMemo(records[i], factionId, stamp) && IsMemo(records[j], factionId, stamp)
  {
    MemosDuplicate(records, factionId, stamp);
    var ms := Memos(records, factionId, stamp);
    if |ms| > 0 {
      assert ms[0] in ms;
    }
  }

  /** A faction's total for the current month, live from the sessions. */
  function CurrentMonthTotal(sessions: seq<Session>, f: Faction, w: MonthWindows, now: DateTime, wasted: set<string>): nat {
    SessionsTotal(WindowSessions(sessions, f.tag, w.startNow, now), wasted)
  }

  /** A faction's live total for the previous month. */
  function PreviousMonthLive(sessions: seq<Session>, f: Faction, w: MonthWindows, wasted: set<string>): nat {
    SessionsTotal(WindowSessions(sessions, f.tag, w.startLast, w.endLast), wasted)
  }

  /** The total shown for the previous month: the memo when exactly one
      exists, the live sum when none does, and no total at all when several
      do (`SingleOrDefault` throws). */
  function PreviousMonthTotal(sessions: seq<Session>, records: seq<FactionActivity>, f: Faction,
                              w: MonthWindows, wasted: set<string>): Option<nat> {
    match LookupMemo(records, f.id, w.startLast)
    case OneMemo(d) => Some(d)
    case NoMemo => Some(PreviousMonthLive(sessions, f, w, wasted))
    case ManyMemos => None
  }

  /** One row of the global faction summary; none when the memo lookup throws. */
  function SummaryRow(f: Faction, sessions: seq<Session>, records: seq<FactionActivity>, w: MonthWindows,
                      now: DateTime, wasted: set<string>, threshold: nat): Option<FactionSummarySingle> {
    match PreviousMonthTotal(sessions, records, f, w, wasted)
    case None => None
    case Some(last) => Some(Row(f, CurrentMonthTotal(sessions, f, w, now, wasted), last, threshold))
  }

  /** A row from both months' totals in seconds: in danger below the threshold. */
  function Row(f: Faction, curr: nat, last: nat, threshold: nat): FactionSummarySingle {
    FactionSummarySingle(f.id, f.name, f.tag, curr < threshold, FormatTime(curr), FormatTime(last))
  }

  /** A summary row exists unless two records memoise the faction's previous
      month. A row shows the faction's current-month total, is in danger
      exactly when that total is below the threshold, and shows the memoised
      previous-month total when a memo for that month exists, the live one
      otherwise. */
  lemma SummaryRowMeaning(f: Faction, sessions: seq<Session>, records: seq<FactionActivity>, w: MonthWindows,
                          now: DateTime, wasted: set<string>, threshold: nat)
    ensures var row := SummaryRow(f, sessions, records, w, now, wasted, threshold);
      row.None? <==>
        exists i, j :: 0 <= i < j < |records| && IsMemo(records[i], f.id, w.startLast) && IsMemo(records[j], f.id, w.startLast)
    ensures var row := SummaryRow(f, sessions, records, w, now, wasted, threshold);
      row.Some? ==>
      && row.value.id == f.id && row.value.name == f.name && row.value.tag == f.tag
      && ReadDuration(row.value.currentTime) == CurrentMonthTotal(sessions, f, w, now, wasted)
      && (row.value.danger <==> CurrentMonthTotal(sessions, f, w, now, wasted) < threshold)
      && (forall m :: m in records && IsMemo(m, f.id, w.startLast) ==> ReadDuration(row.value.lastTime) == m.duration)
      && ((forall m :: m in records ==> !IsMemo(m, f.id, w.startLast)) ==>
            ReadDuration(row.value.lastTime) == PreviousMonthLive(sessions, f, w, wasted))
  {
    LookupMemoMeaning(records, f.id, w.startLast);
    FormatTimeReadsBack(CurrentMonthTotal(sessions, f, w, now, wasted));
    var last := PreviousMonthTotal(sessions, records, f, w, wasted);
    if last.Some? {
      FormatTimeReadsBack(last.value);
    }
  }

  /** One iteration of the faction loop of `GetFactionSummary`; none when
      `SingleOrDefault` throws. */
  method BuildSummaryRow(f: Faction, sessions: seq<Session>, records: seq<FactionActivity>, w: MonthWindows,
                         now: DateTime, wasted: set<string>, threshold: nat) returns (row: Option<FactionSummarySingle>)
    ensures row == SummaryRow(f, sessions, records, w, now, wasted, threshold)
  {
    var danger := false;
    var currTime := SumActivity(WindowSessions(sessions, f.tag, w.startNow, now), wasted);
    var memos := Memos(records, f.id, w.startLast);
    var lastTime: nat;
    if |memos| > 0 {
      if |memos| > 1 {
        assert LookupMemo(records, f.id, w.startLast) == ManyMemos;
        return None;
      }
      lastTime := memos[0].duration;
      assert LookupMemo(records, f.id, w.startLast) == OneMemo(lastTime);
    } else {
      lastTime := SumActivity(WindowSessions(sessions, f.tag, w.startLast, w.endLast), wasted);
      assert LookupMemo(records, f.id, w.startLast) == NoMemo;
    }
    assert PreviousMonthTotal(sessions, records, f, w, wasted) == Some(lastTime);
    if currTime < threshold {
      danger := true;
    }
    row := Some(FactionSummarySingle(f.id, f.name, f.tag, danger, FormatTime(currTime), FormatTime(lastTime)));
  }

  /** The faction loop of `GetFactionSummary`: one row per faction, in table
      order, or none when the memo lookup of some faction throws. */
  method BuildSummary(factions: seq<Faction>, sessions: seq<Session>, records: seq<FactionActivity>,
                      w: MonthWindows, now: DateTime, wasted: set<string>, threshold: nat)
    returns (rows: Option<seq<FactionSummarySingle>>)
    ensures rows.None? <==>
      exists i :: 0 <= i < |factions| && SummaryRow(factions[i], sessions, records, w, now, wasted, threshold).None?
    ensures rows.Some? ==>
      && |rows.value| == |factions|
      && forall i :: 0 <= i < |factions| ==>
           SummaryRow(factions[i], sessions, records, w, now, wasted, threshold) == Some(rows.value[i])
  {
    var acc: seq<FactionSummarySingle> := [];
    for i := 0 to |factions|
      invariant |acc| == i
      invariant forall k :: 0 <= k < i ==> SummaryRow(factions[k], sessions, records, w, now, wasted, threshold) == Some(acc[k])
    {
      var row := BuildSummaryRow(factions[i], sessions, records, w, now, wasted, threshold);
      if row.None? {
        assert SummaryRow(factions[i], sessions, records, w, now, wasted, threshold).None?;
        return None;
      }
      acc := acc + [row.value];
    }
    rows := Some(acc);
  }
}
