/** Resolution of a session's last location to a system and region name, in
    the two variants of the online snapshots: the public one takes the visit
    with the greatest `Stamp`, the admin one the last visit in stored order. */
module Location {
  import opened Wrappers
  import opened Text
  import opened Clock
  import opened Api

  /** `systems.SingleOrDefault(c => c.Nickname == code)`, taking the first
      match (nicknames are unique in the table). */
  function FindSystem(systems: seq<SystemInfo>, code: string): (r: Option<SystemInfo>)
    ensures r.Some? ==> r.value in systems && r.value.nickname == code
    ensures r.None? <==> forall i :: 0 <= i < |systems| ==> systems[i].nickname != code
  {
    if systems == [] then None
    else if systems[0].nickname == code then Some(systems[0])
    else FindSystem(systems[1..], code)
  }

  /** `regions.SingleOrDefault(c => c.Id == id)`, taking the first match
      (ids are unique in the table). */
  function FindRegion(regions: seq<RegionInfo>, id: int): (r: Option<RegionInfo>)
    ensures r.Some? ==> r.value in regions && r.value.id == id
    ensures r.None? <==> forall i :: 0 <= i < |regions| ==> regions[i].id != id
  {
    if regions == [] then None
    else if regions[0].id == id then Some(regions[0])
    else FindRegion(regions[1..], id)
  }

  predicate UniqueNicknames(systems: seq<SystemInfo>) {
    forall i, j :: 0 <= i < j < |systems| ==> systems[i].nickname != systems[j].nickname
  }

  predicate UniqueRegionIds(regions: seq<RegionInfo>) {
    forall i, j :: 0 <= i < j < |regions| ==> regions[i].id != regions[j].id
  }

  /** With unique nicknames the lookup finds the one system carrying the code. */
  lemma {:induction false} FindSystemUnique(systems: seq<SystemInfo>, code: string, s: SystemInfo)
    requires UniqueNicknames(systems) && s in systems && s.nickname == code
    ensures FindSystem(systems, code) == Some(s)
  {
    if systems[0] != s {
      assert systems[0].nickname != code by {
        var j :| 0 <= j < |systems| && systems[j] == s;
        assert j > 0;
      }
      assert UniqueNicknames(systems[1..]) by {
        forall i, j | 0 <= i < j < |systems| - 1
          ensures systems[1..][i].nickname != systems[1..][j].nickname
        {
          assert systems[1..][i] == systems[i + 1] && systems[1..][j] == systems[j + 1];
        }
      }
      FindSystemUnique(systems[1..], code, s);
    }
  }

  /** With unique ids the lookup finds the one region carrying the id. */
  lemma {:induction false} FindRegionUnique(regions: seq<RegionInfo>, id: int, g: RegionInfo)
    requires UniqueRegionIds(regions) && g in regions && g.id == id
    ensures FindRegion(regions, id) == Some(g)
  {
    if regions[0] != g {
      assert regions[0].id != id by {
        var j :| 0 <= j < |regions| && regions[j] == g;
        assert j > 0;
      }
      assert UniqueRegionIds(regions[1..]) by {
        forall i, j | 0 <= i < j < |regions| - 1
          ensures regions[1..][i].id != regions[1..][j].id
        {
          assert regions[1..][i] == regions[i + 1] && regions[1..][j] == regions[j + 1];
        }
      }
      FindRegionUnique(regions[1..], id, g);
    }
  }

  /** A system and a region name as shown in a snapshot row. */
  datatype Place = Place(system: string, region: string)

  const Unknown := "Unknown"
  const Error := "ERROR"

  /** The place of a visit's location: the system whose nickname equals the
      upper-cased location, and its region; "Unknown" for what is not found. */
  function Resolve(location: string, systems: seq<SystemInfo>, regions: seq<RegionInfo>): Place {
    match FindSystem(systems, ToUpper(location))
    case None => Place(Unknown, Unknown)
    case Some(s) =>
      Place(s.name, match FindRegion(regions, s.regionId) case None => Unknown case Some(g) => g.name)
  }

  /** A location no system carries resolves to "Unknown" for both names. */
  lemma ResolveUnknownSystem(location: string, systems: seq<SystemInfo>, regions: seq<RegionInfo>)
    requires forall s :: s in systems ==> s.nickname != ToUpper(location)
    ensures Resolve(location, systems, regions) == Place(Unknown, Unknown)
  {
    if FindSystem(systems, ToUpper(location)).Some? {
      assert false;
    }
  }

  /** A known system shows its own name, and its region's name, or "Unknown"
      when no region has its region id. */
  lemma ResolveKnownSystem(location: string, systems: seq<SystemInfo>, regions: seq<RegionInfo>, s: SystemInfo)
    requires UniqueNicknames(systems) && UniqueRegionIds(regions)
    requires s in systems && s.nickname == ToUpper(location)
    ensures Resolve(location, systems, regions).system == s.name
    ensures (forall g :: g in regions ==> g.id != s.regionId) ==>
      Resolve(location, systems, regions).region == Unknown
    ensures forall g :: g in regions && g.id == s.regionId ==>
      Resolve(location, systems, regions).region == g.name
  {
    FindSystemUnique(systems, ToUpper(location), s);
    forall g | g in regions && g.id == s.regionId
      ensures Resolve(location, systems, regions).region == g.name
    {
      FindRegionUnique(regions, s.regionId, g);
    }
  }

  /** The visit `OrderByDescending(c => c.Stamp).FirstOrDefault()` picks: one
      with the greatest stamp, the first of them in stored order (the sort is
      stable). */
  function LatestIndex(visits: seq<Visit>): (k: nat)
    requires visits != []
    ensures k < |visits|
    ensures forall j :: 0 <= j < |visits| ==> Ticks(visits[j].stamp) <= Ticks(visits[k].stamp)
    ensures forall j :: 0 <= j < k ==> Ticks(visits[j].stamp) < Ticks(visits[k].stamp)
  {
    LatestAmong(visits, |visits|)
  }

  /** `LatestIndex` among the first `n` visits. */
  function LatestAmong(visits: seq<Visit>, n: nat): (k: nat)
    requires 1 <= n <= |visits|
    ensures k < n
    ensures forall j :: 0 <= j < n ==> Ticks(visits[j].stamp) <= Ticks(visits[k].stamp)
    ensures forall j :: 0 <= j < k ==> Ticks(visits[j].stamp) < Ticks(visits[k].stamp)
  {
    if n == 1 then 0
    else
      var k := LatestAmong(visits, n - 1);
      if Ticks(visits[n - 1].stamp) > Ticks(visits[k].stamp) then n - 1 else k
  }

  /** The last-location columns of a public snapshot row. */
  datatype PublicPlace = PublicPlace(system: string, region: string, ping: int)

  /** Last location of the public snapshot: "ERROR" and ping 0 without visits. */
  function PublicLastPlace(visits: seq<Visit>, systems: seq<SystemInfo>, regions: seq<RegionInfo>): (p: PublicPlace)
    ensures visits == [] ==> p == PublicPlace(Error, Error, 0)
    ensures visits != [] ==>
      exists v ::
        && v in visits && p.ping == v.ping
        && (forall w :: w in visits ==> Ticks(w.stamp) <= Ticks(v.stamp))
        && Place(p.system, p.region) == Resolve(v.location, systems, regions)
  {
    if visits == [] then PublicPlace(Error, Error, 0)
    else
      var v := visits[LatestIndex(visits)];
      var place := Resolve(v.location, systems, regions);
      PublicPlace(place.system, place.region, v.ping)
  }

  /** Last location of the admin snapshot: the last visit in stored order,
      "ERROR" without visits. */
  function AdminLastPlace(visits: seq<Visit>, systems: seq<SystemInfo>, regions: seq<RegionInfo>): (p: Place)
    ensures visits == [] ==> p == Place(Error, Error)
    ensures visits != [] ==> exists v :: v in visits && p == Resolve(v.location, systems, regions)
  {
    if visits == [] then Place(Error, Error)
    else Resolve(visits[|visits| - 1].location, systems, regions)
  }

  /** The visit stored last decides the admin place whatever its stamp: a
      visit appended to a session moves the admin place to it. */
  lemma AdminPlaceFollowsAppend(visits: seq<Visit>, v: Visit, systems: seq<SystemInfo>, regions: seq<RegionInfo>)
    ensures AdminLastPlace(visits + [v], systems, regions) == Resolve(v.location, systems, regions)
  {
  }

  /** "ERROR" marks a session without visits and nothing else: a resolved
      visit shows a system's name or "Unknown". */
  lemma ErrorOnlyWithoutVisits(visits: seq<Visit>, systems: seq<SystemInfo>, regions: seq<RegionInfo>)
    requires forall s :: s in systems ==> s.name != Error
    ensures PublicLastPlace(visits, systems, regions).system == Error <==> visits == []
    ensures AdminLastPlace(visits, systems, regions).system == Error <==> visits == []
  {
    if visits != [] {
      var v := visits[LatestIndex(visits)];
      var s := FindSystem(systems, ToUpper(v.location));
      assert s.Some? ==> s.value.name != Error;
      var u := FindSystem(systems, ToUpper(visits[|visits| - 1].location));
      assert u.Some? ==> u.value.name != Error;
    }
  }

  /** When stamps strictly increase in stored order, both variants pick the same visit. */
  lemma VariantsAgreeWhenOrdered(visits: seq<Visit>, systems: seq<SystemInfo>, regions: seq<RegionInfo>)
    requires forall i, j :: 0 <= i < j < |visits| ==> Ticks(visits[i].stamp) < Ticks(visits[j].stamp)
    ensures var p := PublicLastPlace(visits, systems, regions);
      Place(p.system, p.region) == AdminLastPlace(visits, systems, regions)
  {
    if visits != [] {
      var k := LatestIndex(visits);
      if k < |visits| - 1 {
        assert false;
      }
    }
  }

  /** Stored out of stamp order, the variants can disagree: the public one
      shows the later visit, the admin one the one stored last. */
  lemma VariantsCanDiverge(a: SystemInfo, b: SystemInfo, t0: DateTime, t1: DateTime)
    requires a.nickname == "A" && b.nickname == "B" && a.name != b.name
    requires Ticks(t0) < Ticks(t1)
    ensures var visits := [Visit("a", t1, 10, 50), Visit("b", t0, 10, 60)];
      && PublicLastPlace(visits, [a, b], []).system == a.name
      && AdminLastPlace(visits, [a, b], []).system == b.name
  {
    var visits := [Visit("a", t1, 10, 50), Visit("b", t0, 10, 60)];
    assert ToUpper("a") == "A" && ToUpper("b") == "B";
    assert LatestIndex(visits) == 0;
    assert FindSystem([a, b], "A") == Some(a);
    assert FindSystem([a, b], "B") == Some(b) by {
      assert [a, b][1..] == [b];
    }
  }
}
