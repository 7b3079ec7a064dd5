/** `MissionOperationUseCase`: the status transitions Open/Failed ->
    InProgress -> Completed or Failed, with the crew notifications, the
    later revision's system messages and the completion achievement pass. */
module MissionOperation {
  import opened Wrappers
  import opened Domain
  import Viewing
  import AchievementTable
  import MissionTable
  import SystemLog
  import opened Db

  /** The notification each crew member receives about a transition. */
  function StatusNotice(id: int, m: int, title: string, message: string): Notification {
    Notification(Some(id), title, message, MissionStatusUpdate, MissionMeta(m))
  }

  /** One notification per crew member, addressed to that member, in order. */
  function Notices(ids: seq<int>, m: int, title: string, message: string): (fx: seq<Effect>)
    ensures |fx| == |ids|
    ensures forall i :: 0 <= i < |ids| ==> fx[i] == Notify(StatusNotice(ids[i], m, title, message))
  {
    if ids == [] then [] else Notices(ids[..|ids| - 1], m, title, message) + [Notify(StatusNotice(ids[|ids| - 1], m, title, message))]
  }

  /** `notify_crew`: a `get_crew` failure is the only way it fails; send
      results are ignored. */
  function NotifyCrew(s: Store, m: int, title: string, message: string, f: Faults): (r: Result<seq<Effect>, Error>)
    ensures r.Ok? <==> !Fails(f, GetCrew)
  {
    match Viewing.GetCrew(s, m, f)
    case Err(e) => Err(e)
    case Ok(ids) => Ok(Notices(ids, m, title, message))
  }

  /** The texts of one transition. */
  datatype Texts = Texts(title: string, message: string, line: string)

  function StartTexts(name: string): Texts {
    Texts("Mission Started", "Mission '" + name + "' is now In Progress!", "Mission started: " + name)
  }

  function CompleteTexts(name: string): Texts {
    Texts("Mission Completed", "Mission '" + name + "' has been completed!", "Mission completed: " + name)
  }

  function FailTexts(name: string): Texts {
    Texts("Mission Failed", "Mission '" + name + "' has failed.", "Mission failed: " + name)
  }

  /** After the status write: notify the crew (an error here is returned
      although the write is committed), then, in the later revision, log and
      broadcast the status line. */
  function Announce(rev: Revision, s: Store, m: int, tx: Texts, now: int, f: Faults): Result<Trail, Error> {
    match NotifyCrew(s, m, tx.title, tx.message, f)
    case Err(e) => Err(e)
    case Ok(fx) =>
      if rev == Later then Ok(SystemLog.Log(Trail(s, fx), m, tx.line, now, f)) else Ok(Trail(s, fx))
  }

  /** The completion award for one brawler: a failed lookup or award skips
      the brawler; the later revision announces each new achievement. */
  function AwardOne(rev: Revision, t: Trail, m: int, id: int, now: int, f: Faults): Trail {
    match Viewing.FindBrawler(t.s, id, f)
    case Err(_) => t
    case Ok(br) =>
      var a := AchievementTable.CheckAndAward(t.s, id, "mission_complete", br.successCount, now, f);
      if rev == Earlier then Trail(a.s, t.fx)
      else
        var names := if a.r.Ok? then a.r.value else [];
        SystemLog.LogAll(Trail(a.s, t.fx), m, SystemLog.EarnedLines(br.displayName, names), now, f)
  }

  /** The award pass over `ids`, in order. */
  function AwardPass(rev: Revision, t: Trail, m: int, ids: seq<int>, now: int, f: Faults): Trail {
    if ids == [] then t else AwardOne(rev, AwardPass(rev, t, m, ids[..|ids| - 1], now, f), m, ids[|ids| - 1], now, f)
  }

  /** The guard of `in_progress`; the strict `<` makes a crew at the cap
      unstartable. */
  predicate CanStart(ms: Mission, count: int, cap: int, chief: int) {
    (ms.status == Open || ms.status == Failed) && count > 0 && count < cap && ms.chiefId == chief
  }

  /** `in_progress(mission_id, chief_id)`. */
  function InProgressSpec(cfg: Config, s: Store, m: int, chief: int, now: int, f: Faults): Run<int> {
    match Viewing.GetOne(s, m, f)
    case Err(e) => Run(s, Err(e), [])
    case Ok(ms) =>
      match Viewing.CrewCount(s, m, f)
      case Err(e) => Run(s, Err(e), [])
      case Ok(count) =>
        match EnvMaxCrew(cfg)
        case Err(e) => Run(s, Err(e), [])
        case Ok(cap) =>
          if !CanStart(ms, count, cap, chief) then Run(s, Err(InvalidStageChange), [])
          else
            var w := MissionTable.WriteStatus(s, m, chief, InProgress, f);
            if w.r.Err? then Run(w.s, Err(w.r.error), [])
            else
              match Announce(cfg.revision, w.s, m, StartTexts(ms.name), now, f)
              case Err(e) => Run(w.s, Err(e), [])
              case Ok(t) => Run(t.s, Ok(w.r.value), t.fx)
  }

  /** The guard of `to_completed` and `to_failed`. */
  predicate CanFinish(ms: Mission, chief: int) {
    ms.status == InProgress && ms.chiefId == chief
  }

  /** `to_completed(mission_id, chief_id)`: the crew is read before the write,
      and that snapshot, after the chief, is who the award pass evaluates. */
  function ToCompletedSpec(cfg: Config, s: Store, m: int, chief: int, now: int, f: Faults): Run<int> {
    match Viewing.GetOne(s, m, f)
    case Err(e) => Run(s, Err(e), [])
    case Ok(ms) =>
      if !CanFinish(ms, chief) then Run(s, Err(InvalidStageChange), [])
      else
        match Viewing.GetCrew(s, m, f, CrewSnapshot)
        case Err(e) => Run(s, Err(e), [])
        case Ok(snapshot) =>
          var w := MissionTable.WriteStatus(s, m, chief, Completed, f);
          if w.r.Err? then Run(w.s, Err(w.r.error), [])
          else
            match Announce(cfg.revision, w.s, m, CompleteTexts(ms.name), now, f)
            case Err(e) => Run(w.s, Err(e), [])
            case Ok(t) =>
              var t' := AwardPass(cfg.revision, t, m, [chief] + snapshot, now, f);
              Run(t'.s, Ok(w.r.value), t'.fx)
  }

  /** `to_failed(mission_id, chief_id)`: no award pass. */
  function ToFailedSpec(cfg: Config, s: Store, m: int, chief: int, now: int, f: Faults): Run<int> {
    match Viewing.GetOne(s, m, f)
    case Err(e) => Run(s, Err(e), [])
    case Ok(ms) =>
      if !CanFinish(ms, chief) then Run(s, Err(InvalidStageChange), [])
      else
        var w := MissionTable.WriteStatus(s, m, chief, Failed, f);
        if w.r.Err? then Run(w.s, Err(w.r.error), [])
        else
          match Announce(cfg.revision, w.s, m, FailTexts(ms.name), now, f)
          case Err(e) => Run(w.s, Err(e), [])
          case Ok(t) => Run(t.s, Ok(w.r.value), t.fx)
  }

  // ---------------------------------------------------------------------
  // Properties
  // ---------------------------------------------------------------------

  /** `in_progress` writes nothing and reports "Invalid condition to change
      stages!" unless the mission is Open or Failed, has a crew strictly
      between 0 and the environment cap, and the requester is the chief; in
      particular a crew at the cap can never be started. */
  lemma InProgressGuard(cfg: Config, s: Store, m: int, chief: int, now: int, f: Faults)
    requires !Fails(f, Call.GetOne) && m in s.missions && !Fails(f, Call.CrewCount) && EnvMaxCrew(cfg).Ok?
    ensures !CanStart(s.missions[m], Viewing.CountOf(s.crew, m), EnvMaxCrew(cfg).value, chief) ==>
      InProgressSpec(cfg, s, m, chief, now, f) == Run(s, Err(InvalidStageChange), [])
    ensures Viewing.CountOf(s.crew, m) == EnvMaxCrew(cfg).value ==>
      InProgressSpec(cfg, s, m, chief, now, f) == Run(s, Err(InvalidStageChange), [])
  {
  }

  /** The crew notifications carry the mission id and go to each crew member
      the crew read returns, in order, and to no one else. */
  lemma NoticesRecipients(ids: seq<int>, m: int, title: string, message: string)
    ensures forall e :: e in Notices(ids, m, title, message) ==>
      e.Notify? && e.n.recipient.Some? && e.n.recipient.value in ids
      && e.n.kind == MissionStatusUpdate && e.n.metadata == MissionMeta(m)
    ensures forall i :: 0 <= i < |ids| ==> Notify(StatusNotice(ids[i], m, title, message)) in Notices(ids, m, title, message)
  {
    var fx := Notices(ids, m, title, message);
    forall e | e in fx
      ensures e.Notify? && e.n.recipient.Some? && e.n.recipient.value in ids
    {
      var i :| 0 <= i < |fx| && fx[i] == e;
    }
  }

  /** A successful start: the status is InProgress, the id is returned, and
      the effects are one notice per crew member then, in the later revision
      only, the broadcast of "Mission started: {name}" — even when its persist
      fails. */
  lemma InProgressOk(cfg: Config, s: Store, m: int, chief: int, now: int, f: Faults)
    requires InProgressSpec(cfg, s, m, chief, now, f).r.Ok?
    ensures var o := InProgressSpec(cfg, s, m, chief, now, f);
      m in s.missions && o.r.value == m
      && m in o.s.missions && o.s.missions[m] == s.missions[m].(status := InProgress)
      && o.s.crew == s.crew && o.s.earned == s.earned
      && var notices := Notices(Viewing.CrewIds(s.crew, s.brawlers, m), m, "Mission Started", StartTexts(s.missions[m].name).message);
         o.fx == notices + (if cfg.revision == Later then [Publish(m, SystemEvent(m, "Mission started: " + s.missions[m].name))] else [])
  {
  }

  /** The error after a committed write: when the crew read of `notify_crew`
      fails after the status write, `in_progress`, `to_completed` (whose own
      crew read before the write succeeded) and `to_failed` return the error
      although the new status is already stored. */
  lemma ErrorAfterWrite(cfg: Config, s: Store, m: int, chief: int, now: int, f: Faults)
    requires m in s.missions && s.missions[m].chiefId == chief
    requires !Fails(f, Call.GetOne) && !Fails(f, StatusWrite) && Fails(f, GetCrew)
    ensures s.missions[m].status == InProgress ==>
      var o := ToFailedSpec(cfg, s, m, chief, now, f);
      o.r == Err(StoreFailure(f.detail)) && o.s.missions[m].status == Failed
    ensures s.missions[m].status == InProgress && !Fails(f, CrewSnapshot) ==>
      var o := ToCompletedSpec(cfg, s, m, chief, now, f);
      o.r == Err(StoreFailure(f.detail)) && o.s.missions[m].status == Completed && o.s.earned == s.earned
    ensures (!Fails(f, Call.CrewCount) && EnvMaxCrew(cfg).Ok?
             && CanStart(s.missions[m], Viewing.CountOf(s.crew, m), EnvMaxCrew(cfg).value, chief)) ==>
      var o := InProgressSpec(cfg, s, m, chief, now, f);
      o.r == Err(StoreFailure(f.detail)) && o.s.missions[m].status == InProgress
  {
  }

  /** `to_completed` and `to_failed` write nothing unless the mission is
      InProgress and the requester is the chief. */
  lemma FinishGuard(cfg: Config, s: Store, m: int, chief: int, now: int, f: Faults)
    requires !Fails(f, Call.GetOne) && m in s.missions && !CanFinish(s.missions[m], chief)
    ensures ToCompletedSpec(cfg, s, m, chief, now, f) == Run(s, Err(InvalidStageChange), [])
    ensures ToFailedSpec(cfg, s, m, chief, now, f) == Run(s, Err(InvalidStageChange), [])
  {
  }

  /** Rows already earned stay, with their timestamps; new rows belong to
      brawlers in `who`. */
  predicate KeepsEarned(e: map<Award, int>, e': map<Award, int>, who: seq<int>) {
    (forall k :: k in e ==> k in e' && e'[k] == e[k])
    && (forall k :: k in e' && k !in e ==> k.0 in who)
  }

  /** `fx'` is `fx` followed by broadcasts only. */
  predicate AppendsBroadcasts(fx: seq<Effect>, fx': seq<Effect>) {
    |fx'| >= |fx| && fx'[..|fx|] == fx && forall i :: |fx| <= i < |fx'| ==> fx'[i].Publish?
  }

  /** What an award pass over `who` may do between two trails. */
  predicate AwardsOnly(rev: Revision, t: Trail, t': Trail, who: seq<int>) {
    t'.s == t.s.(earned := t'.s.earned, messages := t'.s.messages)
    && KeepsEarned(t.s.earned, t'.s.earned, who)
    && AppendsBroadcasts(t.fx, t'.fx)
    && (rev == Earlier ==> t'.fx == t.fx && t'.s.messages == t.s.messages)
  }

  lemma AwardsOnlyTrans(rev: Revision, t1: Trail, t2: Trail, t3: Trail, w1: seq<int>, w2: seq<int>, w: seq<int>)
    requires AwardsOnly(rev, t1, t2, w1) && AwardsOnly(rev, t2, t3, w2)
    requires forall x :: x in w1 ==> x in w
    requires forall x :: x in w2 ==> x in w
    ensures AwardsOnly(rev, t1, t3, w)
  {
    assert KeepsEarned(t1.s.earned, t2.s.earned, w1) && KeepsEarned(t2.s.earned, t3.s.earned, w2);
    forall k | k in t3.s.earned && k !in t1.s.earned ensures k.0 in w {
      if k in t2.s.earned {
        var x := k.0;
        assert x in w1;
      } else {
        var x := k.0;
        assert x in w2;
      }
    }
    BroadcastsTrans(t1.fx, t2.fx, t3.fx);
  }

  lemma BroadcastsTrans(a: seq<Effect>, b: seq<Effect>, c: seq<Effect>)
    requires AppendsBroadcasts(a, b) && AppendsBroadcasts(b, c)
    ensures AppendsBroadcasts(a, c)
  {
    assert c[..|b|][..|a|] == c[..|a|];
    forall i | |a| <= i < |c| ensures c[i].Publish? {
      if i < |b| {
        assert c[i] == c[..|b|][i];
      }
    }
  }

  /** One award step changes only the achievements of that brawler and the
      message log, and only appends broadcasts; the earlier revision
      broadcasts and logs nothing. */
  lemma AwardOneFrame(rev: Revision, t: Trail, m: int, id: int, now: int, f: Faults)
    ensures AwardsOnly(rev, t, AwardOne(rev, t, m, id, now, f), [id])
  {
    match Viewing.FindBrawler(t.s, id, f)
    case Err(_) =>
    case Ok(br) =>
      var a := AchievementTable.CheckAndAward(t.s, id, "mission_complete", br.successCount, now, f);
      AchievementTable.CheckAndAwardFrame(t.s, id, "mission_complete", br.successCount, now, f);
      if rev == Later {
        var names := if a.r.Ok? then a.r.value else [];
        SystemLog.LogAllSpec(Trail(a.s, t.fx), m, SystemLog.EarnedLines(br.displayName, names), now, f);
        var t' := AwardOne(rev, t, m, id, now, f);
        assert t'.fx[..|t.fx|] == t.fx;
      }
  }

  /** The award pass only ever adds achievement rows, and only for the
      brawlers it evaluates. */
  lemma {:induction false} AwardPassFrame(rev: Revision, t: Trail, m: int, ids: seq<int>, now: int, f: Faults)
    ensures AwardsOnly(rev, t, AwardPass(rev, t, m, ids, now, f), ids)
  {
    if ids == [] {
      assert t.fx[..|t.fx|] == t.fx;
    } else {
      var init := ids[..|ids| - 1];
      AwardPassFrame(rev, t, m, init, now, f);
      var t1 := AwardPass(rev, t, m, init, now, f);
      AwardOneFrame(rev, t1, m, ids[|ids| - 1], now, f);
      AwardsOnlyTrans(rev, t, t1, AwardOne(rev, t1, m, ids[|ids| - 1], now, f), init, [ids[|ids| - 1]], ids);
    }
  }

  /** After a successful status write, the announcement: the notices, then,
      in the later revision, the status line. */
  lemma AnnounceShape(rev: Revision, s: Store, m: int, tx: Texts, now: int, f: Faults)
    requires Announce(rev, s, m, tx, now, f).Ok?
    ensures var t := Announce(rev, s, m, tx, now, f).value;
      t.s == s.(messages := t.s.messages)
      && t.fx == Notices(Viewing.CrewIds(s.crew, s.brawlers, m), m, tx.title, tx.message)
                 + (if rev == Later then [Publish(m, SystemEvent(m, tx.line))] else [])
      && (rev == Earlier ==> t.s == s)
  {
  }

  /** A successful completion stores Completed and leaves the crew as it
      was; only the chief and the brawlers of the crew read made before the
      write gain achievements; nothing earned is lost; the notices come
      first, and the rest of the effects are broadcasts, none of them in the
      earlier revision. */
  lemma ToCompletedOk(cfg: Config, s: Store, m: int, chief: int, now: int, f: Faults)
    requires ToCompletedSpec(cfg, s, m, chief, now, f).r.Ok?
    ensures m in s.missions && ToCompletedSpec(cfg, s, m, chief, now, f).r.value == m
    ensures var o := ToCompletedSpec(cfg, s, m, chief, now, f);
      o.s.missions == s.missions[m := s.missions[m].(status := Completed)] && o.s.crew == s.crew
    ensures var o := ToCompletedSpec(cfg, s, m, chief, now, f);
      KeepsEarned(s.earned, o.s.earned, [chief] + Viewing.CrewIds(s.crew, s.brawlers, m))
    ensures var o := ToCompletedSpec(cfg, s, m, chief, now, f);
      var notices := Notices(Viewing.CrewIds(s.crew, s.brawlers, m), m, "Mission Completed", CompleteTexts(s.missions[m].name).message);
      AppendsBroadcasts(notices, o.fx) && (cfg.revision == Earlier ==> o.fx == notices && o.s.messages == s.messages)
  {
    ToCompletedUnfold(cfg, s, m, chief, now, f);
    var ms := s.missions[m];
    var snapshot := Viewing.CrewIds(s.crew, s.brawlers, m);
    var w := MissionTable.WriteStatus(s, m, chief, Completed, f);
    AnnounceShape(cfg.revision, w.s, m, CompleteTexts(ms.name), now, f);
    var t := Announce(cfg.revision, w.s, m, CompleteTexts(ms.name), now, f).value;
    AwardPassFrame(cfg.revision, t, m, [chief] + snapshot, now, f);
    var t' := AwardPass(cfg.revision, t, m, [chief] + snapshot, now, f);
    var notices := Notices(snapshot, m, "Mission Completed", CompleteTexts(ms.name).message);
    assert AppendsBroadcasts(notices, t.fx) by {
      assert t.fx[..|notices|] == notices;
    }
    BroadcastsTrans(notices, t.fx, t'.fx);
  }

  /** The steps a successful completion went through. */
  lemma ToCompletedUnfold(cfg: Config, s: Store, m: int, chief: int, now: int, f: Faults)
    requires ToCompletedSpec(cfg, s, m, chief, now, f).r.Ok?
    ensures m in s.missions && s.missions[m].chiefId == chief && !Fails(f, StatusWrite)
      && !Fails(f, CrewSnapshot) && !Fails(f, Call.GetCrew)
    ensures var w := MissionTable.WriteStatus(s, m, chief, Completed, f);
      var a := Announce(cfg.revision, w.s, m, CompleteTexts(s.missions[m].name), now, f);
      a.Ok?
      && var t' := AwardPass(cfg.revision, a.value, m, [chief] + Viewing.CrewIds(s.crew, s.brawlers, m), now, f);
         ToCompletedSpec(cfg, s, m, chief, now, f) == Run(t'.s, Ok(m), t'.fx)
  {
  }

  /** A successful failure transition stores Failed, runs no award pass and
      changes nothing else but the log line of the later revision. */
  lemma ToFailedOk(cfg: Config, s: Store, m: int, chief: int, now: int, f: Faults)
    requires ToFailedSpec(cfg, s, m, chief, now, f).r.Ok?
    ensures var o := ToFailedSpec(cfg, s, m, chief, now, f);
      m in s.missions && o.r.value == m
      && o.s == s.(missions := s.missions[m := s.missions[m].(status := Failed)], messages := o.s.messages)
      && var notices := Notices(Viewing.CrewIds(s.crew, s.brawlers, m), m, "Mission Failed", FailTexts(s.missions[m].name).message);
         o.fx == notices + (if cfg.revision == Later then [Publish(m, SystemEvent(m, "Mission failed: " + s.missions[m].name))] else [])
  {
  }

  // ---------------------------------------------------------------------
  // The use case against the database
  // ---------------------------------------------------------------------

  /** `notify_crew`: the `for member in crew` loop. */
  method NotifyCrewTo(db: Database, m: int, title: string, message: string, f: Faults) returns (r: Result<seq<Effect>, Error>)
    ensures r == NotifyCrew(db.Snapshot(), m, title, message, f)
  {
    var crew := Viewing.GetCrew(db.Snapshot(), m, f);
    if crew.Err? {
      r := Err(crew.error);
      return;
    }
    var ids := crew.value;
    var fx: seq<Effect> := [];
    var i := 0;
    while i < |ids|
      invariant 0 <= i <= |ids|
      invariant fx == Notices(ids[..i], m, title, message)
    {
      assert ids[..i + 1][..i] == ids[..i];
      fx := fx + [Notify(StatusNotice(ids[i], m, title, message))];
      i := i + 1;
    }
    assert ids[..i] == ids;
    r := Ok(fx);
  }

  method AnnounceTo(db: Database, rev: Revision, m: int, tx: Texts, now: int, f: Faults) returns (r: Result<seq<Effect>, Error>)
    modifies db
    ensures r.Ok? <==> Announce(rev, old(db.Snapshot()), m, tx, now, f).Ok?
    ensures r.Ok? ==> Trail(db.Snapshot(), r.value) == Announce(rev, old(db.Snapshot()), m, tx, now, f).value
    ensures r.Err? ==> r.error == Announce(rev, old(db.Snapshot()), m, tx, now, f).error && db.Snapshot() == old(db.Snapshot())
  {
    r := NotifyCrewTo(db, m, tx.title, tx.message, f);
    if r.Err? {
      return;
    }
    if rev == Later {
      var fx := SystemLog.LogTo(db, m, tx.line, now, f, r.value);
      r := Ok(fx);
    }
  }

  method AwardOneTo(db: Database, rev: Revision, m: int, id: int, now: int, f: Faults, fx0: seq<Effect>) returns (fx: seq<Effect>)
    modifies db
    ensures Trail(db.Snapshot(), fx) == AwardOne(rev, Trail(old(db.Snapshot()), fx0), m, id, now, f)
  {
    fx := fx0;
    var found := Viewing.FindBrawler(db.Snapshot(), id, f);
    if found.Err? {
      return;
    }
    var br := found.value;
    var awarded := db.CheckAndAward(id, "mission_complete", br.successCount, now, f);
    if rev == Later {
      var names := if awarded.Ok? then awarded.value else [];
      fx := SystemLog.LogAllTo(db, m, SystemLog.EarnedLines(br.displayName, names), now, f, fx);
    }
  }

  /** `in_progress`, step by step. */
  method ToInProgress(db: Database, cfg: Config, m: int, chief: int, now: int, f: Faults) returns (r: Result<int, Error>, fx: seq<Effect>)
    modifies db
    ensures Run(db.Snapshot(), r, fx) == InProgressSpec(cfg, old(db.Snapshot()), m, chief, now, f)
  {
    fx := [];
    var mission := Viewing.GetOne(db.Snapshot(), m, f);
    if mission.Err? {
      r := Err(mission.error);
      return;
    }
    var ms := mission.value;
    var count := Viewing.CrewCount(db.Snapshot(), m, f);
    if count.Err? {
      r := Err(count.error);
      return;
    }
    var cap := EnvMaxCrew(cfg);
    if cap.Err? {
      r := Err(cap.error);
      return;
    }
    if !CanStart(ms, count.value, cap.value, chief) {
      r := Err(InvalidStageChange);
      return;
    }
    r := db.WriteStatus(m, chief, InProgress, f);
    if r.Err? {
      return;
    }
    var announced := AnnounceTo(db, cfg.revision, m, StartTexts(ms.name), now, f);
    if announced.Err? {
      r := Err(announced.error);
      return;
    }
    fx := announced.value;
  }

  /** `to_completed`, step by step: the award pass is the chief, then the
      `for member in crew_members` loop. */
  method ToCompleted(db: Database, cfg: Config, m: int, chief: int, now: int, f: Faults) returns (r: Result<int, Error>, fx: seq<Effect>)
    modifies db
    ensures Run(db.Snapshot(), r, fx) == ToCompletedSpec(cfg, old(db.Snapshot()), m, chief, now, f)
  {
    fx := [];
    var mission := Viewing.GetOne(db.Snapshot(), m, f);
    if mission.Err? {
      r := Err(mission.error);
      return;
    }
    var ms := mission.value;
    if !CanFinish(ms, chief) {
      r := Err(InvalidStageChange);
      return;
    }
    var crew := Viewing.GetCrew(db.Snapshot(), m, f, CrewSnapshot);
    if crew.Err? {
      r := Err(crew.error);
      return;
    }
    var snapshot := crew.value;
    r := db.WriteStatus(m, chief, Completed, f);
    if r.Err? {
      return;
    }
    var announced := AnnounceTo(db, cfg.revision, m, CompleteTexts(ms.name), now, f);
    if announced.Err? {
      r := Err(announced.error);
      return;
    }
    ghost var t0 := Trail(db.Snapshot(), announced.value);
    fx := AwardOneTo(db, cfg.revision, m, chief, now, f, announced.value);
    assert ([chief] + snapshot)[..1] == [chief];
    var i := 0;
    while i < |snapshot|
      invariant 0 <= i <= |snapshot|
      invariant Trail(db.Snapshot(), fx) == AwardPass(cfg.revision, t0, m, ([chief] + snapshot)[..i + 1], now, f)
    {
      assert ([chief] + snapshot)[..i + 2][..i + 1] == ([chief] + snapshot)[..i + 1];
      fx := AwardOneTo(db, cfg.revision, m, snapshot[i], now, f, fx);
      i := i + 1;
    }
    assert ([chief] + snapshot)[..i + 1] == [chief] + snapshot;
  }

  /** `to_failed`, step by step. */
  method ToFailed(db: Database, cfg: Config, m: int, chief: int, now: int, f: Faults) returns (r: Result<int, Error>, fx: seq<Effect>)
    modifies db
    ensures Run(db.Snapshot(), r, fx) == ToFailedSpec(cfg, old(db.Snapshot()), m, chief, now, f)
  {
    fx := [];
    var mission := Viewing.GetOne(db.Snapshot(), m, f);
    if mission.Err? {
      r := Err(mission.error);
      return;
    }
    var ms := mission.value;
    if !CanFinish(ms, chief) {
      r := Err(InvalidStageChange);
      return;
    }
    r := db.WriteStatus(m, chief, Failed, f);
    if r.Err? {
      return;
    }
    var announced := AnnounceTo(db, cfg.revision, m, FailTexts(ms.name), now, f);
    if announced.Err? {
      r := Err(announced.error);
      return;
    }
    fx := announced.value;
  }
}
