/** The reads the engine makes through the mission-viewing and brawler
    repositories, as abstract selections over the store. */
module Viewing {
  import opened Wrappers
  import opened Domain

  /** Number of crew rows of mission `m`. */
  function CountOf(crew: seq<Membership>, m: int): (n: nat)
    ensures n <= |crew|
  {
    if crew == [] then 0 else (if crew[0].missionId == m then 1 else 0) + CountOf(crew[1..], m)
  }

  /** Brawler ids of the crew rows of `m` that join a brawler row, in table order. */
  function CrewIds(crew: seq<Membership>, brawlers: map<int, Brawler>, m: int): (ids: seq<int>)
    ensures forall b :: b in ids <==> Membership(m, b) in crew && b in brawlers
  {
    if crew == [] then []
    else
      (if crew[0].missionId == m && crew[0].brawlerId in brawlers then [crew[0].brawlerId] else [])
      + CrewIds(crew[1..], brawlers, m)
  }

  /** `get_one`: the mission row, deleted or not; an absent id is an error. */
  function GetOne(s: Store, m: int, f: Faults): (r: Result<Mission, Error>)
    ensures r.Ok? <==> !Fails(f, Call.GetOne) && m in s.missions
    ensures r.Ok? ==> r.value == s.missions[m]
  {
    if Fails(f, Call.GetOne) then Err(StoreFailure(f.detail))
    else if m !in s.missions then Err(NotFound)
    else Ok(s.missions[m])
  }

  /** `crew_counting`. */
  function CrewCount(s: Store, m: int, f: Faults): (r: Result<int, Error>)
    ensures r.Ok? <==> !Fails(f, Call.CrewCount)
  {
    if Fails(f, Call.CrewCount) then Err(StoreFailure(f.detail)) else Ok(CountOf(s.crew, m))
  }

  /** `get_crew`: the crew joined with `brawlers`, so a row without a brawler
      is not returned. */
  function GetCrew(s: Store, m: int, f: Faults, c: Call := Call.GetCrew): (r: Result<seq<int>, Error>)
    ensures r.Ok? <==> !Fails(f, c)
  {
    if Fails(f, c) then Err(StoreFailure(f.detail)) else Ok(CrewIds(s.crew, s.brawlers, m))
  }

  /** `find_by_id` on brawlers. */
  function FindBrawler(s: Store, b: int, f: Faults, c: Call := Call.FindBrawler): (r: Result<Brawler, Error>)
    ensures r.Ok? <==> !Fails(f, c) && b in s.brawlers
    ensures r.Ok? ==> r.value == s.brawlers[b]
  {
    if Fails(f, c) then Err(StoreFailure(f.detail))
    else if b !in s.brawlers then Err(NotFound)
    else Ok(s.brawlers[b])
  }

  /** Under the primary key a brawler appears at most once in a mission's crew. */
  lemma {:induction false} CrewIdsNoDup(crew: seq<Membership>, brawlers: map<int, Brawler>, m: int)
    requires NoDup(crew)
    ensures NoDup(CrewIds(crew, brawlers, m))
  {
    if crew != [] {
      NoDupTail(crew);
      CrewIdsNoDup(crew[1..], brawlers, m);
      var b := crew[0].brawlerId;
      if crew[0].missionId == m && b in brawlers {
        assert crew[0] == Membership(m, b);
        NoDupCons(b, CrewIds(crew[1..], brawlers, m));
      }
    }
  }
}
