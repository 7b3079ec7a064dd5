/** The shared database as a mutable object: one field per table, and the
    repository writes as methods that change those fields the way the
    backend's statements change the tables. Each method is proved to leave
    the database in the state the store-level function of the same name
    describes, so every property proved about those functions holds of it. */
module Db {
  import opened Wrappers
  import opened Domain
  import CrewTable
  import AchievementTable
  import MessageLog
  import InviteTable
  import MissionTable

  class Database {
    var missions: map<int, Mission>
    var nextMissionId: int
    var brawlers: map<int, Brawler>
    var crew: seq<Membership>
    var achievements: seq<Achievement>
    var earned: map<Award, int>
    var messages: seq<Message>
    var invites: seq<Invite>
    var nextInviteId: int

    /** The tables as a value. */
    function Snapshot(): Store
      reads this
    {
      Store(missions, nextMissionId, brawlers, crew, achievements, earned, messages, invites, nextInviteId)
    }

    constructor (s: Store)
      ensures Snapshot() == s
    {
      missions := s.missions;
      nextMissionId := s.nextMissionId;
      brawlers := s.brawlers;
      crew := s.crew;
      achievements := s.achievements;
      earned := s.earned;
      messages := s.messages;
      invites := s.invites;
      nextInviteId := s.nextInviteId;
    }

    // -------------------------------------------------------------------
    // crew_memberships
    // -------------------------------------------------------------------

    /** `join` of the non-atomic repository (insert, then a separate counter
        update) or of the transactional one (both, or neither). */
    method CrewJoin(repo: CrewRepo, row: Membership, f: Faults) returns (r: Result<(), Error>)
      modifies this
      ensures Outcome(Snapshot(), r) == CrewTable.Join(old(Snapshot()), repo, row, f)
    {
      var crewBefore := crew;
      if Fails(f, CrewInsert) {
        r := Err(if repo == NonAtomic && CrewTable.LooksLikeDuplicate(f.detail) then AlreadyJoined else StoreFailure(f.detail));
        return;
      }
      if row in crew {
        // the primary key rejects the insert
        r := Err(if repo == NonAtomic then AlreadyJoined else StoreFailure(DuplicateCrewKeyText));
        return;
      }
      crew := crew + [row];
      if Fails(f, CounterUpdate) {
        if repo == Transactional {
          crew := crewBefore; // rollback
        }
        r := Err(StoreFailure(f.detail));
        return;
      }
      brawlers := CrewTable.IncrementJoinCount(brawlers, row.brawlerId);
      r := Ok(());
    }

    /** `leave`: delete the matching row. */
    method CrewLeave(row: Membership, f: Faults) returns (r: Result<(), Error>)
      modifies this
      ensures Outcome(Snapshot(), r) == CrewTable.Leave(old(Snapshot()), row, f)
    {
      if Fails(f, CrewDelete) {
        r := Err(StoreFailure(f.detail));
        return;
      }
      crew := CrewTable.Without(crew, row);
      r := Ok(());
    }

    // -------------------------------------------------------------------
    // brawler_achievements
    // -------------------------------------------------------------------

    /** `check_and_award`: the `for` loop over the candidates, inserting each
        with on-conflict-do-nothing and collecting the names of the rows
        actually inserted. */
    method CheckAndAward(b: int, kind: string, value: int, now: int, f: Faults) returns (r: Result<seq<string>, Error>)
      modifies this
      ensures Outcome(Snapshot(), r) == AchievementTable.CheckAndAward(old(Snapshot()), b, kind, value, now, f)
    {
      if Fails(f, AchievementRead) {
        r := Err(StoreFailure(f.detail));
        return;
      }
      var cands := AchievementTable.Candidates(achievements, kind, value);
      var names: seq<string> := [];
      var i := 0;
      while i < |cands|
        invariant 0 <= i <= |cands|
        invariant (earned, names) == AchievementTable.AwardAll(old(earned), b, cands[..i], now)
        invariant forall j :: 0 <= j < i ==> !AwardFails(f, (b, cands[j].id))
        invariant Snapshot() == old(Snapshot()).(earned := earned)
      {
        var a := cands[i];
        if AwardFails(f, (b, a.id)) {
          assert AchievementTable.FirstFailing(b, cands, f) == i;
          r := Err(StoreFailure(f.detail));
          return;
        }
        assert cands[..i + 1][..i] == cands[..i];
        if (b, a.id) !in earned {
          earned := earned[(b, a.id) := now];
          names := names + [a.name];
        }
        i := i + 1;
      }
      assert cands[..i] == cands;
      assert AchievementTable.FirstFailing(b, cands, f) == i;
      r := Ok(names);
    }

    /** `award_achievement`: one insert with on-conflict-do-nothing. */
    method AwardAchievement(b: int, aid: int, now: int, f: Faults) returns (r: Result<(), Error>)
      modifies this
      ensures Outcome(Snapshot(), r) == AchievementTable.AwardAchievement(old(Snapshot()), b, aid, now, f)
    {
      if AwardFails(f, (b, aid)) {
        r := Err(StoreFailure(f.detail));
        return;
      }
      if (b, aid) !in earned {
        earned := earned[(b, aid) := now];
      }
      r := Ok(());
    }

    // -------------------------------------------------------------------
    // mission_messages
    // -------------------------------------------------------------------

    /** `create`: append one row. */
    method CreateMessage(msg: Message, f: Faults) returns (r: Result<(), Error>)
      modifies this
      ensures Outcome(Snapshot(), r) == MessageLog.Create(old(Snapshot()), msg, f)
    {
      if InsertFails(f, msg) {
        r := Err(StoreFailure(f.detail));
        return;
      }
      messages := messages + [msg];
      r := Ok(());
    }

    // -------------------------------------------------------------------
    // mission_invites
    // -------------------------------------------------------------------

    /** `create`: insert one row under the next serial id and return it. */
    method CreateInvite(m: int, u: int, status: InviteStatus, f: Faults) returns (r: Result<Invite, Error>)
      modifies this
      ensures Outcome(Snapshot(), r) == InviteTable.Create(old(Snapshot()), m, u, status, f)
    {
      if Fails(f, InviteWrite) {
        r := Err(StoreFailure(f.detail));
        return;
      }
      var inv := Invite(nextInviteId, m, u, status);
      invites := invites + [inv];
      nextInviteId := nextInviteId + 1;
      r := Ok(inv);
    }

    /** `update_status`: set the status of the row with that id. */
    method UpdateInviteStatus(id: int, status: InviteStatus, f: Faults) returns (r: Result<Invite, Error>)
      modifies this
      ensures Outcome(Snapshot(), r) == InviteTable.UpdateStatus(old(Snapshot()), id, status, f)
    {
      if Fails(f, InviteWrite) {
        r := Err(StoreFailure(f.detail));
        return;
      }
      var found := InviteTable.Lookup(invites, id);
      if found.None? {
        r := Err(NotFound);
        return;
      }
      invites := InviteTable.SetStatus(invites, id, status);
      r := Ok(found.value.(status := status));
    }

    // -------------------------------------------------------------------
    // missions
    // -------------------------------------------------------------------

    /** `add`: insert one row and return its id. */
    method AddMission(name: string, description: Option<string>, chief: int, maxCrew: int, f: Faults) returns (r: Result<int, Error>)
      modifies this
      ensures Outcome(Snapshot(), r) == MissionTable.AddMission(old(Snapshot()), name, description, chief, maxCrew, f)
    {
      if Fails(f, MissionWrite) {
        r := Err(StoreFailure(f.detail));
        return;
      }
      var id := nextMissionId;
      missions := missions[id := Mission(name, description, Open, chief, maxCrew, false)];
      nextMissionId := id + 1;
      r := Ok(id);
    }

    /** `edit`: the conditional update. */
    method EditMission(id: int, chief: int, ch: MissionTable.Changes, f: Faults) returns (r: Result<int, Error>)
      modifies this
      ensures Outcome(Snapshot(), r) == MissionTable.EditMission(old(Snapshot()), id, chief, ch, f)
    {
      if Fails(f, MissionWrite) {
        r := Err(StoreFailure(f.detail));
        return;
      }
      if !MissionTable.Editable(Snapshot(), id, chief) {
        r := Err(NotFound);
        return;
      }
      missions := missions[id := MissionTable.Apply(missions[id], ch)];
      r := Ok(id);
    }

    /** `remove`: the conditional soft delete. */
    method RemoveMission(id: int, chief: int, f: Faults) returns (r: Result<(), Error>)
      modifies this
      ensures Outcome(Snapshot(), r) == MissionTable.RemoveMission(old(Snapshot()), id, chief, f)
    {
      if Fails(f, MissionWrite) {
        r := Err(StoreFailure(f.detail));
        return;
      }
      if MissionTable.Editable(Snapshot(), id, chief) {
        missions := missions[id := missions[id].(deleted := true)];
      }
      r := Ok(());
    }

    /** The status write of a mission transition. */
    method WriteStatus(m: int, chief: int, st: Status, f: Faults) returns (r: Result<int, Error>)
      modifies this
      ensures Outcome(Snapshot(), r) == MissionTable.WriteStatus(old(Snapshot()), m, chief, st, f)
    {
      if Fails(f, StatusWrite) {
        r := Err(StoreFailure(f.detail));
        return;
      }
      if m !in missions || missions[m].chiefId != chief {
        r := Err(NotFound);
        return;
      }
      missions := missions[m := missions[m].(status := st)];
      r := Ok(m);
    }

    /** `transfer_ownership`: three statements in one transaction; any
        failure restores the tables as they were. */
    method TransferOwnership(m: int, cur: int, nw: int, f: Faults) returns (r: Result<(), Error>)
      modifies this
      ensures Outcome(Snapshot(), r) == MissionTable.TransferOwnership(old(Snapshot()), m, cur, nw, f)
    {
      var crewBefore := crew;
      // 1. remove the new chief from the crew
      if Fails(f, CrewDelete) {
        r := Err(StoreFailure(f.detail));
        return;
      }
      crew := CrewTable.Without(crew, Membership(m, nw));
      // 2. add the current chief to the crew
      if Fails(f, CrewInsert) || Membership(m, cur) in crew {
        r := Err(StoreFailure(if Fails(f, CrewInsert) then f.detail else DuplicateCrewKeyText));
        crew := crewBefore;
        return;
      }
      crew := crew + [Membership(m, cur)];
      // 3. update the chief where it is still the current one
      if Fails(f, MissionWrite) {
        r := Err(StoreFailure(f.detail));
        crew := crewBefore;
        return;
      }
      if m in missions && missions[m].chiefId == cur {
        missions := missions[m := missions[m].(chiefId := nw)];
      }
      r := Ok(());
    }
  }
}
