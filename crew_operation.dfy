/** `CrewOperationUseCase`: join, leave and kick, in the later revision
    (InProgress joinable, the mission's own `max_crew`, system messages) and
    the earlier one (Open/Failed only, the `MAX_CREW_PER_MISSION` cap, no
    system messages). */
module CrewOperation {
  import opened Wrappers
  import opened Domain
  import Viewing
  import CrewTable
  import AchievementTable
  import SystemLog
  import opened Db

  /** The statuses a mission can be joined in. */
  predicate Joinable(rev: Revision, st: Status) {
    st == Open || st == Failed || (rev == Later && st == InProgress)
  }

  /** The crew bound: the mission's `max_crew` in the later revision, the
      environment value in the earlier one. */
  function JoinCap(cfg: Config, ms: Mission): int
    requires cfg.revision == Later || EnvMaxCrew(cfg).Ok?
  {
    if cfg.revision == Later then ms.maxCrew else EnvMaxCrew(cfg).value
  }

  /** The notification the chief receives when someone joins. */
  function JoinNotice(ms: Mission, m: int, b: int): Notification {
    Notification(Some(ms.chiefId), "New Crew Member", "Someone joined your mission: " + ms.name, JoinMission, JoinMeta(m, b))
  }

  /** The notification a kicked member receives. */
  function KickNotice(ms: Mission, m: int, member: int): Notification {
    Notification(Some(member), "You have been kicked", "You were kicked from mission: " + ms.name, MissionStatusUpdate, MissionMeta(m))
  }

  /** Everything after the membership is committed: the brawler lookup, the
      "mission_join" achievement pass on the raised join count and, in the
      later revision, the system messages. None of it can fail the join. */
  function AfterJoin(rev: Revision, t: Trail, m: int, b: int, now: int, f: Faults): Trail {
    match Viewing.FindBrawler(t.s, b, f)
    case Err(_) =>
      if rev == Later then SystemLog.Log(t, m, "A new member joined the mission", now, f) else t
    case Ok(br) =>
      var a := AchievementTable.CheckAndAward(t.s, b, "mission_join", br.joinCount, now, f);
      if rev == Earlier then Trail(a.s, t.fx)
      else
        var names := if a.r.Ok? then a.r.value else [];
        var t1 := SystemLog.LogAll(Trail(a.s, t.fx), m, SystemLog.EarnedLines(br.displayName, names), now, f);
        SystemLog.Log(t1, m, br.displayName + " joined the mission", now, f)
  }

  /** `join(mission_id, brawler_id)`. */
  function JoinSpec(cfg: Config, s: Store, m: int, b: int, now: int, f: Faults): Run<()> {
    var env := EnvMaxCrew(cfg);
    if cfg.revision == Earlier && env.Err? then Run(s, Err(env.error), [])
    else
      match Viewing.GetOne(s, m, f)
      case Err(e) => Run(s, Err(e), [])
      case Ok(ms) =>
        if ms.chiefId == b then Run(s, Err(ChiefCannotJoin), [])
        else
          match CrewTable.IsMember(s, cfg.crewRepo, m, b, f)
          case Err(e) => Run(s, Err(e), [])
          case Ok(joined) =>
            if joined then Run(s, Err(AlreadyJoined), [])
            else
              match Viewing.CrewCount(s, m, f)
              case Err(e) => Run(s, Err(e), [])
              case Ok(count) =>
                if !Joinable(cfg.revision, ms.status) then Run(s, Err(NotJoinable), [])
                else if !(count < JoinCap(cfg, ms)) then Run(s, Err(MissionFull), [])
                else
                  var j := CrewTable.Join(s, cfg.crewRepo, Membership(m, b), f);
                  if j.r.Err? then Run(j.s, j.r, [])
                  else
                    var t := AfterJoin(cfg.revision, Trail(j.s, [Notify(JoinNotice(ms, m, b))]), m, b, now, f);
                    Run(t.s, Ok(()), t.fx)
  }

  /** `leave(mission_id, brawler_id)`: the repository result, unchanged; the
      later revision announces a successful leave. */
  function LeaveSpec(cfg: Config, s: Store, m: int, b: int, now: int, f: Faults): Run<()> {
    var l := CrewTable.Leave(s, Membership(m, b), f);
    if cfg.revision == Earlier || l.r.Err? then Run(l.s, l.r, [])
    else
      var line := match Viewing.FindBrawler(l.s, b, f)
        case Ok(br) => br.displayName + " left the mission"
        case Err(_) => "A member left the mission";
      var t := SystemLog.Log(Trail(l.s, []), m, line, now, f);
      Run(t.s, l.r, t.fx)
  }

  /** `kick_crew(mission_id, chief_id, member_id)`. */
  function KickSpec(cfg: Config, s: Store, m: int, chief: int, member: int, now: int, f: Faults): Run<()> {
    match Viewing.GetOne(s, m, f)
    case Err(e) => Run(s, Err(e), [])
    case Ok(ms) =>
      if ms.chiefId != chief then Run(s, Err(OnlyChiefCanKick), [])
      else
        var l := CrewTable.Leave(s, Membership(m, member), f);
        if l.r.Err? then Run(l.s, l.r, [])
        else
          var fx0 := [Notify(KickNotice(ms, m, member))];
          if cfg.revision == Earlier then Run(l.s, Ok(()), fx0)
          else
            var line := match Viewing.FindBrawler(l.s, member, f)
              case Ok(br) => br.displayName + " was kicked from the mission"
              case Err(_) => "A member was kicked from the mission";
            var t := SystemLog.Log(Trail(l.s, fx0), m, line, now, f);
            Run(t.s, Ok(()), t.fx)
  }

  // ---------------------------------------------------------------------
  // Properties
  // ---------------------------------------------------------------------

  /** The steps after the commit touch neither the crew nor the missions, and
      only append broadcasts to the effects. */
  lemma AfterJoinFrame(rev: Revision, t: Trail, m: int, b: int, now: int, f: Faults)
    ensures var t' := AfterJoin(rev, t, m, b, now, f);
      t'.s.crew == t.s.crew && t'.s.missions == t.s.missions && t'.s.brawlers == t.s.brawlers
      && |t'.fx| >= |t.fx| && t'.fx[..|t.fx|] == t.fx
      && (forall i :: |t.fx| <= i < |t'.fx| ==> t'.fx[i].Publish?)
      && (rev == Earlier ==> t'.fx == t.fx && t'.s.messages == t.s.messages)
  {
    match Viewing.FindBrawler(t.s, b, f)
    case Err(_) =>
      if rev == Later {
        AppendedPublishes(t.fx, [Publish(m, SystemEvent(m, "A new member joined the mission"))]);
      }
    case Ok(br) =>
      if rev == Later {
        var a := AchievementTable.CheckAndAward(t.s, b, "mission_join", br.joinCount, now, f);
        var names := if a.r.Ok? then a.r.value else [];
        var lines := SystemLog.EarnedLines(br.displayName, names);
        SystemLog.LogAllSpec(Trail(a.s, t.fx), m, lines, now, f);
        var extra := SystemLog.Publishes(m, lines) + [Publish(m, SystemEvent(m, br.displayName + " joined the mission"))];
        assert forall i :: 0 <= i < |extra| ==> extra[i].Publish? by {
          forall i | 0 <= i < |extra| ensures extra[i].Publish? {
            if i < |lines| {
              assert extra[i] == SystemLog.Publishes(m, lines)[i];
            }
          }
        }
        assert AfterJoin(rev, t, m, b, now, f).fx == t.fx + extra;
        AppendedPublishes(t.fx, extra);
      }
  }

  lemma AppendedPublishes(fx: seq<Effect>, extra: seq<Effect>)
    requires forall i :: 0 <= i < |extra| ==> extra[i].Publish?
    ensures (fx + extra)[..|fx|] == fx
    ensures forall i :: |fx| <= i < |fx + extra| ==> (fx + extra)[i].Publish?
  {
    assert forall i :: |fx| <= i < |fx + extra| ==> (fx + extra)[i] == extra[i - |fx|];
  }

  /** When `join` succeeds: every guard passed, in the order the source
      checks them, and the crew insert and counter update succeeded. No
      failure of the notification, lookup, achievement or message steps
      appears here, so none of them can turn a join into an error. */
  lemma JoinOkIff(cfg: Config, s: Store, m: int, b: int, now: int, f: Faults)
    ensures JoinSpec(cfg, s, m, b, now, f).r.Ok? <==>
      (cfg.revision == Later || EnvMaxCrew(cfg).Ok?)
      && !Fails(f, Call.GetOne) && m in s.missions
      && s.missions[m].chiefId != b
      && !Fails(f, Call.IsMember) && Membership(m, b) !in s.crew
      && !Fails(f, Call.CrewCount)
      && Joinable(cfg.revision, s.missions[m].status)
      && Viewing.CountOf(s.crew, m) < JoinCap(cfg, s.missions[m])
      && !Fails(f, CrewInsert) && !Fails(f, CounterUpdate)
  {
    var r := JoinSpec(cfg, s, m, b, now, f);
    if r.r.Ok? {
      var j := CrewTable.Join(s, cfg.crewRepo, Membership(m, b), f);
      assert j.r.Ok?;
    }
  }

  /** The chief is refused first, whatever the mission's status or fullness,
      and nothing happens. */
  lemma JoinByChief(cfg: Config, s: Store, m: int, now: int, f: Faults)
    requires cfg.revision == Later || EnvMaxCrew(cfg).Ok?
    requires !Fails(f, Call.GetOne) && m in s.missions
    ensures JoinSpec(cfg, s, m, s.missions[m].chiefId, now, f) == Run(s, Err(ChiefCannotJoin), [])
  {
  }

  /** An existing member gets "Already joined" before any status or capacity
      check, and nothing is inserted. */
  lemma JoinByMember(cfg: Config, s: Store, m: int, b: int, now: int, f: Faults)
    requires cfg.revision == Later || EnvMaxCrew(cfg).Ok?
    requires !Fails(f, Call.GetOne) && m in s.missions && s.missions[m].chiefId != b
    requires !Fails(f, Call.IsMember) && Membership(m, b) in s.crew
    ensures JoinSpec(cfg, s, m, b, now, f) == Run(s, Err(AlreadyJoined), [])
  {
  }

  /** Status and capacity refusals, which happen only after the chief and
      membership checks pass: "Mission is not joinable" outside the
      revision's joinable statuses (InProgress only in the later one), then
      "Mission is full" at or above the cap. Neither changes anything. */
  lemma JoinRefusals(cfg: Config, s: Store, m: int, b: int, now: int, f: Faults)
    requires cfg.revision == Later || EnvMaxCrew(cfg).Ok?
    requires !Fails(f, Call.GetOne) && m in s.missions && s.missions[m].chiefId != b
    requires !Fails(f, Call.IsMember) && Membership(m, b) !in s.crew && !Fails(f, Call.CrewCount)
    ensures !Joinable(cfg.revision, s.missions[m].status) ==>
      JoinSpec(cfg, s, m, b, now, f) == Run(s, Err(NotJoinable), [])
    ensures Joinable(cfg.revision, s.missions[m].status) && Viewing.CountOf(s.crew, m) >= JoinCap(cfg, s.missions[m]) ==>
      JoinSpec(cfg, s, m, b, now, f) == Run(s, Err(MissionFull), [])
  {
  }

  /** A successful join adds exactly the one membership and raises the
      joiner's join count, keeps the crew within the cap, leaves the missions
      as they were, and sends exactly one notification, the first effect,
      addressed to the chief. */
  lemma JoinOk(cfg: Config, s: Store, m: int, b: int, now: int, f: Faults)
    requires Wf(s)
    requires JoinSpec(cfg, s, m, b, now, f).r.Ok?
    ensures var o := JoinSpec(cfg, s, m, b, now, f);
      o.s.crew == s.crew + [Membership(m, b)]
      && o.s.missions == s.missions
      && o.s.brawlers == CrewTable.IncrementJoinCount(s.brawlers, b)
      && Viewing.CountOf(o.s.crew, m) <= JoinCap(cfg, s.missions[m])
    ensures var o := JoinSpec(cfg, s, m, b, now, f);
      |o.fx| >= 1 && o.fx[0] == Notify(JoinNotice(s.missions[m], m, b))
      && o.fx[0].n.recipient == Some(s.missions[m].chiefId)
      && (forall i :: 1 <= i < |o.fx| ==> o.fx[i].Publish?)
    ensures Wf(JoinSpec(cfg, s, m, b, now, f).s)
  {
    JoinOkIff(cfg, s, m, b, now, f);
    var t0 := JoinOkShape(cfg, s, m, b, now, f);
    AfterJoinFrame(cfg.revision, t0, m, b, now, f);
    var t := AfterJoin(cfg.revision, t0, m, b, now, f);
    assert t.fx[..1] == t0.fx;
    CountOfSnoc(s.crew, Membership(m, b), m);
    AchievementFrameWf(cfg.revision, t0, m, b, now, f);
  }

  /** A successful join is the committed membership followed by the steps
      after the commit. */
  lemma JoinOkShape(cfg: Config, s: Store, m: int, b: int, now: int, f: Faults) returns (t0: Trail)
    requires JoinSpec(cfg, s, m, b, now, f).r.Ok?
    ensures m in s.missions
    ensures t0 == Trail(CrewTable.Join(s, cfg.crewRepo, Membership(m, b), f).s, [Notify(JoinNotice(s.missions[m], m, b))])
    ensures CrewTable.Join(s, cfg.crewRepo, Membership(m, b), f).r.Ok?
    ensures var t := AfterJoin(cfg.revision, t0, m, b, now, f);
      JoinSpec(cfg, s, m, b, now, f) == Run(t.s, Ok(()), t.fx)
  {
    JoinOkIff(cfg, s, m, b, now, f);
    t0 := Trail(CrewTable.Join(s, cfg.crewRepo, Membership(m, b), f).s, [Notify(JoinNotice(s.missions[m], m, b))]);
  }

  /** The steps after the commit keep the store well formed. */
  lemma AchievementFrameWf(rev: Revision, t: Trail, m: int, b: int, now: int, f: Faults)
    requires Wf(t.s)
    ensures Wf(AfterJoin(rev, t, m, b, now, f).s)
  {
    AfterJoinFrame(rev, t, m, b, now, f);
    match Viewing.FindBrawler(t.s, b, f)
    case Err(_) =>
    case Ok(br) =>
      var a := AchievementTable.CheckAndAward(t.s, b, "mission_join", br.joinCount, now, f);
      if rev == Later {
        var names := if a.r.Ok? then a.r.value else [];
        SystemLog.LogAllSpec(Trail(a.s, t.fx), m, SystemLog.EarnedLines(br.displayName, names), now, f);
      }
  }

  lemma {:induction false} CountOfSnoc(crew: seq<Membership>, row: Membership, m: int)
    ensures Viewing.CountOf(crew + [row], m) == Viewing.CountOf(crew, m) + (if row.missionId == m then 1 else 0)
  {
    if crew == [] {
      assert crew + [row] == [row];
    } else {
      assert (crew + [row])[1..] == crew[1..] + [row];
      CountOfSnoc(crew[1..], row, m);
    }
  }

  /** The lines the later revision logs after a committed join, given the
      store after the commit. */
  function JoinLines(s: Store, b: int, f: Faults): seq<string> {
    if Fails(f, Call.FindBrawler) || b !in s.brawlers then ["A new member joined the mission"]
    else
      var br := s.brawlers[b];
      var cands := AchievementTable.Candidates(s.achievements, "mission_join", br.joinCount);
      var awarded := !Fails(f, AchievementRead) && forall a :: a in cands ==> !AwardFails(f, (b, a.id));
      SystemLog.EarnedLines(br.displayName, if awarded then AchievementTable.Names(AchievementTable.Unearned(s.earned, b, cands)) else [])
        + [br.displayName + " joined the mission"]
  }

  /** After the commit, the later revision broadcasts `JoinLines` in order
      and the message log gains, in order, those whose insert succeeds. */
  lemma AfterJoinLater(t: Trail, m: int, b: int, now: int, f: Faults)
    requires Wf(t.s)
    ensures var t' := AfterJoin(Later, t, m, b, now, f);
      t'.fx == t.fx + SystemLog.Publishes(m, JoinLines(t.s, b, f))
      && t'.s.messages == t.s.messages + SystemLog.Persisted(m, JoinLines(t.s, b, f), now, f)
  {
    if !(Fails(f, Call.FindBrawler) || b !in t.s.brawlers) {
      var br := t.s.brawlers[b];
      var a := AchievementTable.CheckAndAward(t.s, b, "mission_join", br.joinCount, now, f);
      if a.r.Ok? {
        AchievementTable.CheckAndAwardSpec(t.s, b, "mission_join", br.joinCount, now, f);
      }
      var names := if a.r.Ok? then a.r.value else [];
      var earnedLines := SystemLog.EarnedLines(br.displayName, names);
      var tail := br.displayName + " joined the mission";
      assert (earnedLines + [tail])[..|earnedLines|] == earnedLines;
      SystemLog.LogAllSpec(Trail(a.s, t.fx), m, earnedLines + [tail], now, f);
    } else {
      SystemLog.LogAllSpec(t, m, ["A new member joined the mission"], now, f);
      assert SystemLog.LogAll(t, m, ["A new member joined the mission"], now, f)
        == SystemLog.Log(t, m, "A new member joined the mission", now, f);
    }
  }

  /** The system messages of a successful join in the later revision, in
      order: one "X earned achievement: N" per achievement newly awarded for
      the raised join count (none when the award pass failed), then "X
      joined the mission"; when the lookup of the joiner fails, only "A new
      member joined the mission". Each is broadcast; the message log gains,
      in order, those whose insert succeeds. */
  lemma JoinLaterMessages(cfg: Config, s: Store, m: int, b: int, now: int, f: Faults)
    requires Wf(s) && cfg.revision == Later
    requires JoinSpec(cfg, s, m, b, now, f).r.Ok?
    ensures var o := JoinSpec(cfg, s, m, b, now, f);
      var s1 := CrewTable.Join(s, cfg.crewRepo, Membership(m, b), f).s;
      var lines :=
        if Fails(f, Call.FindBrawler) || b !in s.brawlers then ["A new member joined the mission"]
        else
          var br := s1.brawlers[b];
          var cands := AchievementTable.Candidates(s.achievements, "mission_join", s.brawlers[b].joinCount + 1);
          var awarded := !Fails(f, AchievementRead) && forall a :: a in cands ==> !AwardFails(f, (b, a.id));
          SystemLog.EarnedLines(br.displayName, if awarded then AchievementTable.Names(AchievementTable.Unearned(s.earned, b, cands)) else [])
            + [br.displayName + " joined the mission"];
      o.fx == [Notify(JoinNotice(s.missions[m], m, b))] + SystemLog.Publishes(m, lines)
      && o.s.messages == s.messages + SystemLog.Persisted(m, lines, now, f)
  {
    JoinOkIff(cfg, s, m, b, now, f);
    var j := CrewTable.Join(s, cfg.crewRepo, Membership(m, b), f);
    var s1 := j.s;
    assert Wf(s1);
    assert s1.messages == s.messages && s1.earned == s.earned && s1.achievements == s.achievements;
    assert b in s1.brawlers <==> b in s.brawlers;
    assert b in s.brawlers ==> s1.brawlers[b].joinCount == s.brawlers[b].joinCount + 1;
    AfterJoinLater(Trail(s1, [Notify(JoinNotice(s.missions[m], m, b))]), m, b, now, f);
  }

  /** In the earlier revision a successful join notifies the chief and does
      nothing else visible: no system message is broadcast or persisted. */
  lemma JoinEarlierQuiet(cfg: Config, s: Store, m: int, b: int, now: int, f: Faults)
    requires cfg.revision == Earlier
    requires JoinSpec(cfg, s, m, b, now, f).r.Ok?
    ensures var o := JoinSpec(cfg, s, m, b, now, f);
      o.fx == [Notify(JoinNotice(s.missions[m], m, b))] && o.s.messages == s.messages
  {
    JoinOkIff(cfg, s, m, b, now, f);
    var j := CrewTable.Join(s, cfg.crewRepo, Membership(m, b), f);
    AfterJoinFrame(cfg.revision, Trail(j.s, [Notify(JoinNotice(s.missions[m], m, b))]), m, b, now, f);
  }

  /** A failed join has no effects; it changes nothing, except that the
      non-atomic repository keeps the inserted row when the counter update
      fails. */
  lemma JoinErr(cfg: Config, s: Store, m: int, b: int, now: int, f: Faults)
    requires JoinSpec(cfg, s, m, b, now, f).r.Err?
    ensures var o := JoinSpec(cfg, s, m, b, now, f);
      o.fx == []
      && (o.s == s || (cfg.crewRepo == NonAtomic && Fails(f, CounterUpdate) && o.s == s.(crew := s.crew + [Membership(m, b)])))
  {
  }

  /** `leave` returns exactly the repository's result and crew table, has no
      status guard, and announces only a successful delete, only in the
      later revision; the earlier revision is a pure delegation. */
  lemma LeaveDelegates(cfg: Config, s: Store, m: int, b: int, now: int, f: Faults)
    ensures var o := LeaveSpec(cfg, s, m, b, now, f);
      var l := CrewTable.Leave(s, Membership(m, b), f);
      o.r == l.r && o.s.crew == l.s.crew && o.s.missions == s.missions
      && (o.fx != [] <==> cfg.revision == Later && l.r.Ok?)
      && (cfg.revision == Earlier ==> o == Run(l.s, l.r, []))
      && (o.fx != [] ==> |o.fx| == 1 && o.fx[0].Publish? && o.fx[0].missionId == m)
  {
  }

  /** A kick by anyone but the chief is refused and removes nothing. */
  lemma KickByNonChief(cfg: Config, s: Store, m: int, chief: int, member: int, now: int, f: Faults)
    requires !Fails(f, Call.GetOne) && m in s.missions && s.missions[m].chiefId != chief
    ensures KickSpec(cfg, s, m, chief, member, now, f) == Run(s, Err(OnlyChiefCanKick), [])
  {
  }

  /** A successful kick removes only the target's row, and its first effect
      is the one notification, addressed to the kicked member. */
  lemma KickOk(cfg: Config, s: Store, m: int, chief: int, member: int, now: int, f: Faults)
    requires KickSpec(cfg, s, m, chief, member, now, f).r.Ok?
    ensures var o := KickSpec(cfg, s, m, chief, member, now, f);
      m in s.missions && s.missions[m].chiefId == chief
      && Membership(m, member) !in o.s.crew
      && (forall x :: x in s.crew && x != Membership(m, member) ==> x in o.s.crew)
      && (forall x :: x in o.s.crew ==> x in s.crew)
      && |o.fx| >= 1 && o.fx[0] == Notify(KickNotice(s.missions[m], m, member))
      && o.fx[0].n.recipient == Some(member)
      && (forall i :: 1 <= i < |o.fx| ==> o.fx[i].Publish?)
      && (cfg.revision == Earlier ==> |o.fx| == 1)
  {
  }

  // ---------------------------------------------------------------------
  // The use case against the database
  // ---------------------------------------------------------------------

  method AfterJoinTo(db: Database, rev: Revision, m: int, b: int, now: int, f: Faults, fx0: seq<Effect>) returns (fx: seq<Effect>)
    modifies db
    ensures Trail(db.Snapshot(), fx) == AfterJoin(rev, Trail(old(db.Snapshot()), fx0), m, b, now, f)
  {
    var found := Viewing.FindBrawler(db.Snapshot(), b, f);
    if found.Err? {
      if rev == Later {
        fx := SystemLog.LogTo(db, m, "A new member joined the mission", now, f, fx0);
      } else {
        fx := fx0;
      }
      return;
    }
    var br := found.value;
    var awarded := db.CheckAndAward(b, "mission_join", br.joinCount, now, f);
    fx := fx0;
    if rev == Later {
      var names := if awarded.Ok? then awarded.value else [];
      fx := SystemLog.LogAllTo(db, m, SystemLog.EarnedLines(br.displayName, names), now, f, fx);
      fx := SystemLog.LogTo(db, m, br.displayName + " joined the mission", now, f, fx);
    }
  }

  /** `join`, step by step. */
  method Join(db: Database, cfg: Config, m: int, b: int, now: int, f: Faults) returns (r: Result<(), Error>, fx: seq<Effect>)
    modifies db
    ensures Run(db.Snapshot(), r, fx) == JoinSpec(cfg, old(db.Snapshot()), m, b, now, f)
  {
    fx := [];
    var env := EnvMaxCrew(cfg);
    if cfg.revision == Earlier && env.Err? {
      r := Err(env.error);
      return;
    }
    var mission := Viewing.GetOne(db.Snapshot(), m, f);
    if mission.Err? {
      r := Err(mission.error);
      return;
    }
    var ms := mission.value;
    if ms.chiefId == b {
      r := Err(ChiefCannotJoin);
      return;
    }
    var joined := CrewTable.IsMember(db.Snapshot(), cfg.crewRepo, m, b, f);
    if joined.Err? {
      r := Err(joined.error);
      return;
    }
    if joined.value {
      r := Err(AlreadyJoined);
      return;
    }
    var count := Viewing.CrewCount(db.Snapshot(), m, f);
    if count.Err? {
      r := Err(count.error);
      return;
    }
    if !Joinable(cfg.revision, ms.status) {
      r := Err(NotJoinable);
      return;
    }
    if !(count.value < JoinCap(cfg, ms)) {
      r := Err(MissionFull);
      return;
    }
    r := db.CrewJoin(cfg.crewRepo, Membership(m, b), f);
    if r.Err? {
      return;
    }
    fx := AfterJoinTo(db, cfg.revision, m, b, now, f, [Notify(JoinNotice(ms, m, b))]);
  }

  /** `leave`, step by step. */
  method Leave(db: Database, cfg: Config, m: int, b: int, now: int, f: Faults) returns (r: Result<(), Error>, fx: seq<Effect>)
    modifies db
    ensures Run(db.Snapshot(), r, fx) == LeaveSpec(cfg, old(db.Snapshot()), m, b, now, f)
  {
    fx := [];
    r := db.CrewLeave(Membership(m, b), f);
    if cfg.revision == Earlier || r.Err? {
      return;
    }
    var found := Viewing.FindBrawler(db.Snapshot(), b, f);
    var line := if found.Ok? then found.value.displayName + " left the mission" else "A member left the mission";
    fx := SystemLog.LogTo(db, m, line, now, f, fx);
  }

  /** `kick_crew`, step by step. */
  method Kick(db: Database, cfg: Config, m: int, chief: int, member: int, now: int, f: Faults) returns (r: Result<(), Error>, fx: seq<Effect>)
    modifies db
    ensures Run(db.Snapshot(), r, fx) == KickSpec(cfg, old(db.Snapshot()), m, chief, member, now, f)
  {
    fx := [];
    var mission := Viewing.GetOne(db.Snapshot(), m, f);
    if mission.Err? {
      r := Err(mission.error);
      return;
    }
    var ms := mission.value;
    if ms.chiefId != chief {
      r := Err(OnlyChiefCanKick);
      return;
    }
    r := db.CrewLeave(Membership(m, member), f);
    if r.Err? {
      return;
    }
    fx := [Notify(KickNotice(ms, m, member))];
    if cfg.revision == Later {
      var found := Viewing.FindBrawler(db.Snapshot(), member, f);
      var line := if found.Ok? then found.value.displayName + " was kicked from the mission" else "A member was kicked from the mission";
      fx := SystemLog.LogTo(db, m, line, now, f, fx);
    }
  }
}
