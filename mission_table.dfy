/** The `missions` table as `MissionManagementPostgres` changes it. */
module MissionTable {
  import opened Wrappers
  import opened Domain
  import opened CrewTable

  /** The columns `EditMissionEntity` sets; `None` leaves a column as it is. */
  datatype Changes = Changes(name: Option<string>, description: Option<string>, maxCrew: Option<int>)

  /** `add`: one new row, status Open, under the next serial id, which is returned. */
  function AddMission(s: Store, name: string, description: Option<string>, chief: int, maxCrew: int, f: Faults): (o: Outcome<int>)
    ensures o.r.Ok? <==> !Fails(f, MissionWrite)
    ensures o.r.Ok? ==> o.r.value == s.nextMissionId && o.r.value in o.s.missions
    ensures o.r.Ok? ==> o.s == s.(missions := s.missions[o.r.value := Mission(name, description, Open, chief, maxCrew, false)],
                                  nextMissionId := s.nextMissionId + 1)
    ensures o.r.Ok? && Wf(s) ==> o.r.value !in s.missions
    ensures o.r.Err? ==> o.s == s
    ensures Wf(s) ==> Wf(o.s)
  {
    if Fails(f, MissionWrite) then Outcome(s, Err(StoreFailure(f.detail)))
    else
      var id := s.nextMissionId;
      Outcome(s.(missions := s.missions[id := Mission(name, description, Open, chief, maxCrew, false)],
                 nextMissionId := id + 1), Ok(id))
  }

  /** The filter of `edit` and `remove`: that id, that chief, not deleted, Open. */
  predicate Editable(s: Store, id: int, chief: int) {
    id in s.missions && s.missions[id].chiefId == chief && !s.missions[id].deleted && s.missions[id].status == Open
  }

  function Apply(ms: Mission, ch: Changes): Mission {
    ms.(name := ch.name.GetOr(ms.name),
        description := if ch.description.Some? then ch.description else ms.description,
        maxCrew := ch.maxCrew.GetOr(ms.maxCrew))
  }

  /** `edit`: updates only a matching row and returns its id; no match is an
      error (`get_result` finds no row). */
  function EditMission(s: Store, id: int, chief: int, ch: Changes, f: Faults): (o: Outcome<int>)
    ensures o.r.Ok? <==> !Fails(f, MissionWrite) && Editable(s, id, chief)
    ensures o.r.Ok? ==> o.r.value == id && o.s == s.(missions := s.missions[id := Apply(s.missions[id], ch)])
    ensures !Fails(f, MissionWrite) && !Editable(s, id, chief) ==> o.r == Err(NotFound)
    ensures o.r.Err? ==> o.s == s
    ensures Wf(s) ==> Wf(o.s)
  {
    if Fails(f, MissionWrite) then Outcome(s, Err(StoreFailure(f.detail)))
    else if !Editable(s, id, chief) then Outcome(s, Err(NotFound))
    else Outcome(s.(missions := s.missions[id := Apply(s.missions[id], ch)]), Ok(id))
  }

  /** `remove`: sets `deleted_at` on a matching row; no match is `Ok` and changes nothing. */
  function RemoveMission(s: Store, id: int, chief: int, f: Faults): (o: Outcome<()>)
    ensures o.r.Ok? <==> !Fails(f, MissionWrite)
    ensures o.r.Ok? && Editable(s, id, chief) ==> o.s == s.(missions := s.missions[id := s.missions[id].(deleted := true)])
    ensures o.r.Err? || !Editable(s, id, chief) ==> o.s == s
    ensures o.s.missions.Keys == s.missions.Keys
    ensures Wf(s) ==> Wf(o.s)
  {
    if Fails(f, MissionWrite) then Outcome(s, Err(StoreFailure(f.detail)))
    else if !Editable(s, id, chief) then Outcome(s, Ok(()))
    else Outcome(s.(missions := s.missions[id := s.missions[id].(deleted := true)]), Ok(()))
  }

  /** The status write of a transition (`to_progress`, `to_completed`,
      `to_failed` of the mission operation repository): the row with that id
      and chief gets the new status, and its id is returned. */
  function WriteStatus(s: Store, m: int, chief: int, st: Status, f: Faults): (o: Outcome<int>)
    ensures o.r.Ok? <==> !Fails(f, StatusWrite) && m in s.missions && s.missions[m].chiefId == chief
    ensures o.r.Ok? ==> o.r.value == m && o.s == s.(missions := s.missions[m := s.missions[m].(status := st)])
    ensures o.r.Err? ==> o.s == s
    ensures Wf(s) ==> Wf(o.s)
  {
    if Fails(f, StatusWrite) then Outcome(s, Err(StoreFailure(f.detail)))
    else if m !in s.missions || s.missions[m].chiefId != chief then Outcome(s, Err(NotFound))
    else Outcome(s.(missions := s.missions[m := s.missions[m].(status := st)]), Ok(m))
  }

  /** The missions table after step 3 of the transfer: the chief changes only
      where the current chief matches, and zero matched rows is not an error. */
  function SetChief(missions: map<int, Mission>, m: int, cur: int, nw: int): map<int, Mission> {
    if m in missions && missions[m].chiefId == cur then missions[m := missions[m].(chiefId := nw)] else missions
  }

  /** `transfer_ownership`: in one transaction, delete (m, new chief) from the
      crew, insert (m, current chief), and point the mission's chief at the new
      one. A failed step, including the duplicate key of step 2, rolls back
      everything. */
  function TransferOwnership(s: Store, m: int, cur: int, nw: int, f: Faults): (o: Outcome<()>)
    ensures o.r.Ok? <==> (!Fails(f, CrewDelete) && !Fails(f, CrewInsert) && !Fails(f, MissionWrite)
                          && Membership(m, cur) !in Without(s.crew, Membership(m, nw)))
    ensures o.r.Ok? ==> o.s == s.(crew := Without(s.crew, Membership(m, nw)) + [Membership(m, cur)],
                                  missions := SetChief(s.missions, m, cur, nw))
    ensures o.r.Err? ==> o.s == s
    ensures Wf(s) ==> Wf(o.s)
  {
    if Fails(f, CrewDelete) then Outcome(s, Err(StoreFailure(f.detail)))
    else
      var crew1 := Without(s.crew, Membership(m, nw));
      if Fails(f, CrewInsert) then Outcome(s, Err(StoreFailure(f.detail)))
      else if Membership(m, cur) in crew1 then Outcome(s, Err(StoreFailure(DuplicateCrewKeyText)))
      else if Fails(f, MissionWrite) then Outcome(s, Err(StoreFailure(f.detail)))
      else
        WithoutNoDup(s.crew, Membership(m, nw));
        NoDupSnoc(crew1, Membership(m, cur));
        Outcome(s.(crew := crew1 + [Membership(m, cur)], missions := SetChief(s.missions, m, cur, nw)), Ok(()))
  }

  lemma NoDupSnoc<T>(xs: seq<T>, x: T)
    ensures NoDup(xs) && x !in xs ==> NoDup(xs + [x])
  {
    if NoDup(xs) && x !in xs {
      forall i, j | 0 <= i < j < |xs + [x]| ensures (xs + [x])[i] != (xs + [x])[j] {
        assert (xs + [x])[i] == xs[i];
        if j < |xs| {
          assert (xs + [x])[j] == xs[j];
        }
      }
    }
  }

  /** A transfer by the true chief to another brawler, when the chief is not
      already crew, succeeds: the new chief leaves the crew, the old one joins
      it, and the mission's chief becomes the new one. */
  lemma TransferFromChief(s: Store, m: int, cur: int, nw: int)
    requires m in s.missions && s.missions[m].chiefId == cur && cur != nw
    requires Membership(m, cur) !in s.crew
    ensures var o := TransferOwnership(s, m, cur, nw, NoFaults);
      o.r.Ok? && Membership(m, nw) !in o.s.crew && Membership(m, cur) in o.s.crew
      && m in o.s.missions && o.s.missions[m].chiefId == nw
  {
  }

  /** When the current chief is already crew, the insert of step 2 violates
      the key and nothing changes. */
  lemma TransferDuplicateRollsBack(s: Store, m: int, cur: int, nw: int, f: Faults)
    requires Membership(m, cur) in s.crew && cur != nw
    requires !Fails(f, CrewDelete) && !Fails(f, CrewInsert)
    ensures TransferOwnership(s, m, cur, nw, f) == Outcome(s, Err(StoreFailure(DuplicateCrewKeyText)))
  {
    assert Membership(m, cur) in Without(s.crew, Membership(m, nw));
  }

  /** When `cur` is not the chief, the chief update matches no row, yet the
      transfer reports success with its crew changes committed. */
  lemma TransferPartialCommit(s: Store, m: int, cur: int, nw: int)
    requires m in s.missions && s.missions[m].chiefId != cur
    requires Membership(m, cur) !in s.crew
    ensures var o := TransferOwnership(s, m, cur, nw, NoFaults);
      o.r.Ok? && o.s.missions == s.missions && Membership(m, cur) in o.s.crew && o.s.crew != s.crew
  {
    var o := TransferOwnership(s, m, cur, nw, NoFaults);
    assert Membership(m, cur) in o.s.crew;
  }

  /** Removing twice is removing once: the second call finds no matching row. */
  lemma RemoveIdempotent(s: Store, id: int, chief: int, f: Faults)
    ensures var s1 := RemoveMission(s, id, chief, f).s;
      RemoveMission(s1, id, chief, f).s == s1
  {
  }

  /** An edit leaves every other mission, and the mission's status, chief and
      deletion mark, as they were. */
  lemma EditFrame(s: Store, id: int, chief: int, ch: Changes, f: Faults)
    ensures var o := EditMission(s, id, chief, ch, f);
      o.s.missions.Keys == s.missions.Keys
      && (forall k :: k in s.missions && k != id ==> o.s.missions[k] == s.missions[k])
      && (id in s.missions ==>
            (o.s.missions[id].status == s.missions[id].status
             && o.s.missions[id].chiefId == s.missions[id].chiefId
             && o.s.missions[id].deleted == s.missions[id].deleted))
  {
  }
}
