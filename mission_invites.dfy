/** `MissionInviteUseCase` of the later revision: invite a brawler, accept
    or decline an invite, list one's pending invites. */
module MissionInvites {
  import opened Wrappers
  import opened Domain
  import Viewing
  import CrewTable
  import AchievementTable
  import MessageLog
  import InviteTable
  import SystemLog
  import opened Db

  /** `broadcast_system_message`: a system chat event, not persisted. */
  function Broadcast(m: int, content: string): Effect {
    Publish(m, SystemEvent(m, content))
  }

  /** The part of `invite` after the membership check: refuse a second
      pending invite, create the row, and announce it when the invitee's
      brawler row can be read. */
  function Issue(s: Store, m: int, u: int, f: Faults): Run<Invite> {
    match InviteTable.CheckExists(s, m, u, f)
    case Err(e) => Run(s, Err(e), [])
    case Ok(exists_) =>
      if exists_ then Run(s, Err(AlreadyInvited), [])
      else
        var c := InviteTable.Create(s, m, u, Pending, f);
        if c.r.Err? then Run(c.s, Err(c.r.error), [])
        else
          match Viewing.FindBrawler(c.s, u, f)
          case Err(_) => Run(c.s, c.r, [])
          case Ok(br) => Run(c.s, c.r, [Broadcast(m, br.username + " was invited to the mission")])
  }

  /** `invite(mission_id, inviter_id, user_id)` as written: the crew count is
      read and unused, and `is_member(user_id, mission_id)` passes the two ids
      in the wrong order, so the membership it asks about is (user_id,
      mission_id). The inviter is not checked at all. */
  function InviteSpec(cfg: Config, s: Store, m: int, inviter: int, u: int, f: Faults): Run<Invite> {
    match Viewing.CrewCount(s, m, f)
    case Err(e) => Run(s, Err(e), [])
    case Ok(_) =>
      match CrewTable.IsMember(s, cfg.crewRepo, u, m, f)
      case Err(e) => Run(s, Err(e), [])
      case Ok(member) =>
        if member then Run(s, Err(AlreadyMember), []) else Issue(s, m, u, f)
  }

  /** `invite` with the arguments of `is_member` in the declared order
      (mission, brawler). */
  function InviteIntendedSpec(cfg: Config, s: Store, m: int, inviter: int, u: int, f: Faults): Run<Invite> {
    match Viewing.CrewCount(s, m, f)
    case Err(e) => Run(s, Err(e), [])
    case Ok(_) =>
      match CrewTable.IsMember(s, cfg.crewRepo, m, u, f)
      case Err(e) => Run(s, Err(e), [])
      case Ok(member) =>
        if member then Run(s, Err(AlreadyMember), []) else Issue(s, m, u, f)
  }

  /** `accept(invite_id, user_id)`. */
  function AcceptSpec(cfg: Config, s: Store, id: int, u: int, now: int, f: Faults): Run<()> {
    match InviteTable.FindById(s, id, f)
    case Err(e) => Run(s, Err(e), [])
    case Ok(found) =>
      if found.None? then Run(s, Err(InviteNotFound), [])
      else if found.value.userId != u then Run(s, Err(NotAuthorizedToAccept), [])
      else if found.value.status != Pending then Run(s, Err(InviteNotPending), [])
      else
        var m := found.value.missionId;
        match Viewing.GetOne(s, m, f)
        case Err(e) => Run(s, Err(e), [])
        case Ok(ms) =>
          if Viewing.CountOf(s.crew, m) >= ms.maxCrew then Run(s, Err(MissionFull), [])
          else
            var j := CrewTable.Join(s, cfg.crewRepo, Membership(m, u), f);
            if j.r.Err? then Run(j.s, Err(j.r.error), [])
            else
              var up := InviteTable.UpdateStatus(j.s, id, Accepted, f);
              if up.r.Err? then Run(up.s, Err(up.r.error), [])
              else AcceptFinish(up.s, m, u, now, f)
  }

  /** The steps of `accept` after the status update: the award pass, whose
      result is discarded, a second lookup of the invitee, then the system
      line. Only achievements and the message log can change. */
  function AcceptFinish(s: Store, m: int, u: int, now: int, f: Faults): (o: Run<()>)
    ensures o.s == s.(earned := o.s.earned, messages := o.s.messages)
  {
    var s2 := match Viewing.FindBrawler(s, u, f)
              case Err(_) => s
              case Ok(br) => AchievementTable.CheckAndAward(s, u, "mission_join", br.joinCount, now, f).s;
    match Viewing.FindBrawler(s2, u, f, BrawlerReread)
    case Err(e) => Run(s2, Err(e), [])
    case Ok(br) =>
      var content := br.username + " joined the mission via invite";
      var c := MessageLog.Create(s2, SystemLog.Line(m, content, now), f);
      if c.r.Err? then Run(c.s, Err(c.r.error), [])
      else Run(c.s, Ok(()), [Broadcast(m, content)])
  }

  /** `decline(invite_id, user_id)`: whatever the invite's status. */
  function DeclineSpec(s: Store, id: int, u: int, f: Faults): Outcome<()> {
    match InviteTable.FindById(s, id, f)
    case Err(e) => Outcome(s, Err(e))
    case Ok(found) =>
      if found.None? then Outcome(s, Err(InviteNotFound))
      else if found.value.userId != u then Outcome(s, Err(NotAuthorizedToDecline))
      else
        var up := InviteTable.UpdateStatus(s, id, Rejected, f);
        if up.r.Err? then Outcome(up.s, Err(up.r.error)) else Outcome(up.s, Ok(()))
  }

  /** `get_my_pending_invites`: the user's pending invites with their
      mission's name and chief. */
  function GetMyPendingInvites(s: Store, u: int, f: Faults): (r: Result<seq<InviteTable.InviteDetails>, Error>)
    ensures r.Ok? <==> !Fails(f, InviteRead)
    ensures r.Ok? ==> forall d :: d in r.value ==>
      d.status == Pending && Invite(d.id, d.missionId, u, Pending) in s.invites && d.missionId in s.missions
      && d.missionName == s.missions[d.missionId].name
    ensures r.Ok? ==> forall x :: x in s.invites && InviteTable.Joined(x, s.missions, s.brawlers, u) ==>
      InviteTable.Detail(x, s.missions, s.brawlers) in r.value
  {
    InviteTable.FindInviteDetailsByUser(s, u, f)
  }

  // ---------------------------------------------------------------------
  // Properties of invite
  // ---------------------------------------------------------------------

  /** An invite succeeds exactly when no read or write fails, (u, m) is not
      a crew row, and u has no pending invite to m; it then stores a new
      pending row under the next id, which `check_exists` now finds, and
      tells the mission only when the invitee's row can be read. */
  lemma InviteOkIff(cfg: Config, s: Store, m: int, inviter: int, u: int, f: Faults)
    ensures InviteSpec(cfg, s, m, inviter, u, f).r.Ok? <==>
      (!Fails(f, Call.CrewCount) && !Fails(f, Call.IsMember) && !Fails(f, InviteRead) && !Fails(f, InviteWrite)
       && Membership(u, m) !in s.crew && !InviteTable.HasPending(s.invites, m, u))
    ensures var o := InviteSpec(cfg, s, m, inviter, u, f);
      o.r.Ok? ==>
        (o.r.value == Invite(s.nextInviteId, m, u, Pending)
         && o.s == s.(invites := s.invites + [o.r.value], nextInviteId := s.nextInviteId + 1)
         && InviteTable.HasPending(o.s.invites, m, u)
         && o.fx == if !Fails(f, Call.FindBrawler) && u in s.brawlers
                    then [Broadcast(m, s.brawlers[u].username + " was invited to the mission")] else [])
    ensures InviteSpec(cfg, s, m, inviter, u, f).r.Err? ==> InviteSpec(cfg, s, m, inviter, u, f).s == s
  {
    var o := InviteSpec(cfg, s, m, inviter, u, f);
    if o.r.Ok? {
      assert o.r.value in o.s.invites;
    }
  }

  /** The swapped arguments: a brawler who is in the crew of `m` is invited
      to `m` again, as long as no crew row (u, m) exists with the roles
      reversed. */
  lemma InviteLetsMemberIn(cfg: Config, s: Store, m: int, inviter: int, u: int)
    requires Membership(m, u) in s.crew && Membership(u, m) !in s.crew
    requires !InviteTable.HasPending(s.invites, m, u)
    ensures InviteSpec(cfg, s, m, inviter, u, NoFaults).r.Ok?
  {
  }

  /** The intended check refuses a crew member of `m`, and writes nothing;
      otherwise it behaves like the code as written. */
  lemma InviteIntendedRefusesMember(cfg: Config, s: Store, m: int, inviter: int, u: int, f: Faults)
    requires !Fails(f, Call.CrewCount) && !Fails(f, Call.IsMember)
    ensures Membership(m, u) in s.crew ==>
      InviteIntendedSpec(cfg, s, m, inviter, u, f) == Run(s, Err(AlreadyMember), [])
    ensures Membership(m, u) !in s.crew && Membership(u, m) !in s.crew ==>
      InviteIntendedSpec(cfg, s, m, inviter, u, f) == InviteSpec(cfg, s, m, inviter, u, f)
  {
  }

  /** With the intended check, every successful invite is for a brawler who
      is neither crew of `m` nor already invited to it. */
  lemma InviteIntendedOk(cfg: Config, s: Store, m: int, inviter: int, u: int, f: Faults)
    requires InviteIntendedSpec(cfg, s, m, inviter, u, f).r.Ok?
    ensures Membership(m, u) !in s.crew && !InviteTable.HasPending(s.invites, m, u)
    ensures InviteIntendedSpec(cfg, s, m, inviter, u, f).r.value == Invite(s.nextInviteId, m, u, Pending)
  {
  }

  // ---------------------------------------------------------------------
  // Properties of accept and decline
  // ---------------------------------------------------------------------

  /** `accept` refuses, writing nothing, an unknown invite, another user's
      invite, an invite no longer pending, and a full mission (crew count at
      or above `max_crew`); the mission's status is never looked at. */
  lemma AcceptRefusals(cfg: Config, s: Store, id: int, u: int, now: int, f: Faults)
    requires !Fails(f, InviteRead)
    ensures InviteTable.Lookup(s.invites, id).None? ==>
      AcceptSpec(cfg, s, id, u, now, f) == Run(s, Err(InviteNotFound), [])
    ensures var inv := InviteTable.Lookup(s.invites, id);
      inv.Some? && inv.value.userId != u ==> AcceptSpec(cfg, s, id, u, now, f) == Run(s, Err(NotAuthorizedToAccept), [])
    ensures var inv := InviteTable.Lookup(s.invites, id);
      inv.Some? && inv.value.userId == u && inv.value.status != Pending ==>
        AcceptSpec(cfg, s, id, u, now, f) == Run(s, Err(InviteNotPending), [])
    ensures var inv := InviteTable.Lookup(s.invites, id);
      (inv.Some? && inv.value.userId == u && inv.value.status == Pending && !Fails(f, Call.GetOne)
       && inv.value.missionId in s.missions
       && Viewing.CountOf(s.crew, inv.value.missionId) >= s.missions[inv.value.missionId].maxCrew) ==>
        AcceptSpec(cfg, s, id, u, now, f) == Run(s, Err(MissionFull), [])
  {
  }

  /** The state shape of `accept` once the crew join and the status update
      have succeeded, whatever happens afterwards. */
  lemma AcceptCommitted(cfg: Config, s: Store, id: int, u: int, now: int, f: Faults)
    requires Wf(s)
    requires !Fails(f, InviteRead) && !Fails(f, Call.GetOne) && !Fails(f, InviteWrite)
    requires InviteTable.Lookup(s.invites, id).Some?
    requires var inv := InviteTable.Lookup(s.invites, id).value;
      inv.userId == u && inv.status == Pending && inv.missionId in s.missions
      && Viewing.CountOf(s.crew, inv.missionId) < s.missions[inv.missionId].maxCrew
      && CrewTable.Join(s, cfg.crewRepo, Membership(inv.missionId, u), f).r.Ok?
    ensures var inv := InviteTable.Lookup(s.invites, id).value;
      var o := AcceptSpec(cfg, s, id, u, now, f);
      o.s.crew == s.crew + [Membership(inv.missionId, u)]
      && o.s.invites == InviteTable.SetStatus(s.invites, id, Accepted)
      && InviteTable.Lookup(o.s.invites, id) == Some(inv.(status := Accepted))
      && o.s.missions == s.missions
  {
    var inv := InviteTable.Lookup(s.invites, id).value;
    var j := CrewTable.Join(s, cfg.crewRepo, Membership(inv.missionId, u), f);
    InviteTable.UpdateThenFind(j.s, id, Accepted);
    var up := InviteTable.UpdateStatus(j.s, id, Accepted, f);
    assert up.s == InviteTable.UpdateStatus(j.s, id, Accepted, NoFaults).s;
  }

  /** A successful accept: the invitee is a crew member, the invite reads as
      accepted, one system line "{username} joined the mission via invite" is
      persisted and then broadcast, and nothing else is said. */
  lemma AcceptOk(cfg: Config, s: Store, id: int, u: int, now: int, f: Faults)
    requires Wf(s)
    requires AcceptSpec(cfg, s, id, u, now, f).r.Ok?
    ensures InviteTable.Lookup(s.invites, id).Some?
    ensures var inv := InviteTable.Lookup(s.invites, id).value;
      var o := AcceptSpec(cfg, s, id, u, now, f);
      inv.userId == u && inv.status == Pending
      && Membership(inv.missionId, u) !in s.crew && Membership(inv.missionId, u) in o.s.crew
      && InviteTable.Lookup(o.s.invites, id) == Some(inv.(status := Accepted))
      && u in o.s.brawlers
      && o.s.messages == s.messages + [SystemLog.Line(inv.missionId, o.s.brawlers[u].username + " joined the mission via invite", now)]
      && o.fx == [Broadcast(inv.missionId, o.s.brawlers[u].username + " joined the mission via invite")]
  {
    AcceptCommitted(cfg, s, id, u, now, f);
  }

  /** The error after the commit: when only the persist of the system line
      fails, `accept` returns the error, yet the invitee has already joined
      and the invite already reads as accepted. */
  lemma AcceptErrorAfterCommit(cfg: Config, s: Store, id: int, u: int, now: int, f: Faults)
    requires Wf(s)
    requires f.failing == {} && f.failingAwards == {}
    requires InviteTable.Lookup(s.invites, id).Some?
    requires var inv := InviteTable.Lookup(s.invites, id).value;
      inv.userId == u && inv.status == Pending && inv.missionId in s.missions && u in s.brawlers
      && Viewing.CountOf(s.crew, inv.missionId) < s.missions[inv.missionId].maxCrew
      && Membership(inv.missionId, u) !in s.crew
      && InsertFails(f, SystemLog.Line(inv.missionId, s.brawlers[u].username + " joined the mission via invite", now))
    ensures var inv := InviteTable.Lookup(s.invites, id).value;
      var o := AcceptSpec(cfg, s, id, u, now, f);
      o.r == Err(StoreFailure(f.detail)) && o.fx == []
      && Membership(inv.missionId, u) in o.s.crew
      && InviteTable.Lookup(o.s.invites, id) == Some(inv.(status := Accepted))
      && o.s.messages == s.messages
  {
    var inv := InviteTable.Lookup(s.invites, id).value;
    var m := inv.missionId;
    var j := CrewTable.Join(s, cfg.crewRepo, Membership(m, u), f);
    assert j.r.Ok?;
    AcceptCommitted(cfg, s, id, u, now, f);
    var up := InviteTable.UpdateStatus(j.s, id, Accepted, f);
    assert up.r.Ok? && u in up.s.brawlers;
    var s2 := match Viewing.FindBrawler(up.s, u, f)
              case Err(_) => up.s
              case Ok(br) => AchievementTable.CheckAndAward(up.s, u, "mission_join", br.joinCount, now, f).s;
    assert s2 == up.s.(earned := s2.earned);
    var br := Viewing.FindBrawler(s2, u, f, BrawlerReread).value;
    assert br.username == s.brawlers[u].username;
    var c := MessageLog.Create(s2, SystemLog.Line(m, br.username + " joined the mission via invite", now), f);
    assert c.s == s2 && c.r == Err(StoreFailure(f.detail));
  }

  /** An error after the award pass: when only the second lookup of the
      invitee fails, `accept` returns the error, yet the invitee has joined,
      the invite reads as accepted and every "mission_join" achievement for
      the raised join count is earned; no line is persisted or broadcast. */
  lemma AcceptErrorAfterAward(cfg: Config, s: Store, id: int, u: int, now: int, f: Faults)
    requires Wf(s)
    requires f.failing == {BrawlerReread} && f.failingAwards == {}
    requires InviteTable.Lookup(s.invites, id).Some?
    requires var inv := InviteTable.Lookup(s.invites, id).value;
      inv.userId == u && inv.status == Pending && inv.missionId in s.missions && u in s.brawlers
      && Viewing.CountOf(s.crew, inv.missionId) < s.missions[inv.missionId].maxCrew
      && Membership(inv.missionId, u) !in s.crew
    ensures var inv := InviteTable.Lookup(s.invites, id).value;
      var o := AcceptSpec(cfg, s, id, u, now, f);
      o.r == Err(StoreFailure(f.detail)) && o.fx == []
      && Membership(inv.missionId, u) in o.s.crew
      && InviteTable.Lookup(o.s.invites, id) == Some(inv.(status := Accepted))
      && o.s.messages == s.messages
      && forall a :: a in AchievementTable.Candidates(s.achievements, "mission_join", s.brawlers[u].joinCount + 1) ==>
           (u, a.id) in o.s.earned
  {
    var inv := InviteTable.Lookup(s.invites, id).value;
    var m := inv.missionId;
    var j := CrewTable.Join(s, cfg.crewRepo, Membership(m, u), f);
    assert j.r.Ok?;
    AcceptCommitted(cfg, s, id, u, now, f);
    var up := InviteTable.UpdateStatus(j.s, id, Accepted, f);
    assert up.r.Ok? && u in up.s.brawlers;
    var br := Viewing.FindBrawler(up.s, u, f).value;
    assert br.joinCount == s.brawlers[u].joinCount + 1;
    assert Wf(up.s);
    AchievementTable.CheckAndAwardSpec(up.s, u, "mission_join", br.joinCount, now, f);
  }

  /** `decline` succeeds exactly when the reads and the write work and the
      invite exists and belongs to the user, whatever its status: an accepted
      invite can be declined afterwards, and its row then reads as rejected
      while the crew row stays. */
  lemma DeclineOkIff(s: Store, id: int, u: int, f: Faults)
    requires Wf(s)
    ensures DeclineSpec(s, id, u, f).r.Ok? <==>
      (!Fails(f, InviteRead) && !Fails(f, InviteWrite)
       && InviteTable.Lookup(s.invites, id).Some? && InviteTable.Lookup(s.invites, id).value.userId == u)
    ensures var o := DeclineSpec(s, id, u, f);
      o.r.Ok? ==>
        (o.s == s.(invites := InviteTable.SetStatus(s.invites, id, Rejected))
         && InviteTable.Lookup(o.s.invites, id) == Some(InviteTable.Lookup(s.invites, id).value.(status := Rejected)))
    ensures DeclineSpec(s, id, u, f).r.Err? ==> DeclineSpec(s, id, u, f).s == s
  {
    if DeclineSpec(s, id, u, f).r.Ok? {
      InviteTable.UpdateThenFind(s, id, Rejected);
      assert InviteTable.UpdateStatus(s, id, Rejected, f) == InviteTable.UpdateStatus(s, id, Rejected, NoFaults);
    }
  }

  // ---------------------------------------------------------------------
  // The use case against the database
  // ---------------------------------------------------------------------

  method IssueTo(db: Database, m: int, u: int, f: Faults) returns (r: Result<Invite, Error>, fx: seq<Effect>)
    modifies db
    ensures Run(db.Snapshot(), r, fx) == Issue(old(db.Snapshot()), m, u, f)
  {
    fx := [];
    var exists_ := InviteTable.CheckExists(db.Snapshot(), m, u, f);
    if exists_.Err? {
      r := Err(exists_.error);
      return;
    }
    if exists_.value {
      r := Err(AlreadyInvited);
      return;
    }
    r := db.CreateInvite(m, u, Pending, f);
    if r.Err? {
      return;
    }
    var found := Viewing.FindBrawler(db.Snapshot(), u, f);
    if found.Ok? {
      fx := [Broadcast(m, found.value.username + " was invited to the mission")];
    }
  }

  /** `invite`, step by step, as written. */
  method SendInvite(db: Database, cfg: Config, m: int, inviter: int, u: int, f: Faults) returns (r: Result<Invite, Error>, fx: seq<Effect>)
    modifies db
    ensures Run(db.Snapshot(), r, fx) == InviteSpec(cfg, old(db.Snapshot()), m, inviter, u, f)
  {
    fx := [];
    var count := Viewing.CrewCount(db.Snapshot(), m, f);
    if count.Err? {
      r := Err(count.error);
      return;
    }
    var member := CrewTable.IsMember(db.Snapshot(), cfg.crewRepo, u, m, f);
    if member.Err? {
      r := Err(member.error);
      return;
    }
    if member.value {
      r := Err(AlreadyMember);
      return;
    }
    r, fx := IssueTo(db, m, u, f);
  }

  /** `accept`, step by step. */
  method Accept(db: Database, cfg: Config, id: int, u: int, now: int, f: Faults) returns (r: Result<(), Error>, fx: seq<Effect>)
    modifies db
    ensures Run(db.Snapshot(), r, fx) == AcceptSpec(cfg, old(db.Snapshot()), id, u, now, f)
  {
    fx := [];
    var found := InviteTable.FindById(db.Snapshot(), id, f);
    if found.Err? {
      r := Err(found.error);
      return;
    }
    if found.value.None? {
      r := Err(InviteNotFound);
      return;
    }
    var inv := found.value.value;
    if inv.userId != u {
      r := Err(NotAuthorizedToAccept);
      return;
    }
    if inv.status != Pending {
      r := Err(InviteNotPending);
      return;
    }
    var m := inv.missionId;
    var mission := Viewing.GetOne(db.Snapshot(), m, f);
    if mission.Err? {
      r := Err(mission.error);
      return;
    }
    if Viewing.CountOf(db.crew, m) >= mission.value.maxCrew {
      r := Err(MissionFull);
      return;
    }
    r := db.CrewJoin(cfg.crewRepo, Membership(m, u), f);
    if r.Err? {
      return;
    }
    var updated := db.UpdateInviteStatus(id, Accepted, f);
    if updated.Err? {
      r := Err(updated.error);
      return;
    }
    var first := Viewing.FindBrawler(db.Snapshot(), u, f);
    if first.Ok? {
      var _ := db.CheckAndAward(u, "mission_join", first.value.joinCount, now, f);
    }
    var second := Viewing.FindBrawler(db.Snapshot(), u, f, BrawlerReread);
    if second.Err? {
      r := Err(second.error);
      return;
    }
    var content := second.value.username + " joined the mission via invite";
    r := db.CreateMessage(SystemLog.Line(m, content, now), f);
    if r.Err? {
      return;
    }
    fx := [Broadcast(m, content)];
  }

  /** `decline`, step by step. */
  method Decline(db: Database, id: int, u: int, f: Faults) returns (r: Result<(), Error>)
    modifies db
    ensures Outcome(db.Snapshot(), r) == DeclineSpec(old(db.Snapshot()), id, u, f)
  {
    var found := InviteTable.FindById(db.Snapshot(), id, f);
    if found.Err? {
      r := Err(found.error);
      return;
    }
    if found.value.None? {
      r := Err(InviteNotFound);
      return;
    }
    if found.value.value.userId != u {
      r := Err(NotAuthorizedToDecline);
      return;
    }
    var updated := db.UpdateInviteStatus(id, Rejected, f);
    if updated.Err? {
      r := Err(updated.error);
      return;
    }
    r := Ok(());
  }
}
