/** The `mission_invites` table as `MissionInvitePostgres` writes and reads it. */
module InviteTable {
  import opened Wrappers
  import opened Domain

  /** `create`: inserts one row with the next serial id and returns it. */
  function Create(s: Store, m: int, u: int, status: InviteStatus, f: Faults): (o: Outcome<Invite>)
    ensures o.r.Ok? <==> !Fails(f, InviteWrite)
    ensures o.r.Ok? ==> o.r.value == Invite(s.nextInviteId, m, u, status)
    ensures o.r.Ok? ==> o.s == s.(invites := s.invites + [o.r.value], nextInviteId := s.nextInviteId + 1)
    ensures o.r.Err? ==> o.s == s
    ensures Wf(s) ==> Wf(o.s)
  {
    if Fails(f, InviteWrite) then Outcome(s, Err(StoreFailure(f.detail)))
    else
      var inv := Invite(s.nextInviteId, m, u, status);
      Outcome(s.(invites := s.invites + [inv], nextInviteId := s.nextInviteId + 1), Ok(inv))
  }

  /** The first row with the given id. */
  function Lookup(invs: seq<Invite>, id: int): (r: Option<Invite>)
    ensures r.Some? ==> r.value in invs && r.value.id == id
    ensures r.None? <==> forall i :: 0 <= i < |invs| ==> invs[i].id != id
  {
    if invs == [] then None else if invs[0].id == id then Some(invs[0]) else Lookup(invs[1..], id)
  }

  /** `find_by_id`: an absent id is `Ok(None)`, not an error. */
  function FindById(s: Store, id: int, f: Faults): (r: Result<Option<Invite>, Error>)
    ensures r.Ok? <==> !Fails(f, InviteRead)
    ensures r.Ok? ==> r.value == Lookup(s.invites, id)
  {
    if Fails(f, InviteRead) then Err(StoreFailure(f.detail)) else Ok(Lookup(s.invites, id))
  }

  /** Rows of user `u` that are still pending, in table order. */
  function PendingOf(invs: seq<Invite>, u: int): (r: seq<Invite>)
    ensures forall x :: x in r <==> x in invs && x.userId == u && x.status == Pending
  {
    if invs == [] then []
    else (if invs[0].userId == u && invs[0].status == Pending then [invs[0]] else []) + PendingOf(invs[1..], u)
  }

  /** `find_invites_by_user`: only the user's pending rows. */
  function FindInvitesByUser(s: Store, u: int, f: Faults): (r: Result<seq<Invite>, Error>)
    ensures r.Ok? <==> !Fails(f, InviteRead)
    ensures r.Ok? ==> forall x :: x in r.value <==> x in s.invites && x.userId == u && x.status == Pending
  {
    if Fails(f, InviteRead) then Err(StoreFailure(f.detail)) else Ok(PendingOf(s.invites, u))
  }

  /** Rows of mission `m`, whatever their status. */
  function OfMission(invs: seq<Invite>, m: int): (r: seq<Invite>)
    ensures forall x :: x in r <==> x in invs && x.missionId == m
  {
    if invs == [] then [] else (if invs[0].missionId == m then [invs[0]] else []) + OfMission(invs[1..], m)
  }

  /** `find_invites_by_mission`: every row of the mission, regardless of status. */
  function FindInvitesByMission(s: Store, m: int, f: Faults): (r: Result<seq<Invite>, Error>)
    ensures r.Ok? <==> !Fails(f, InviteRead)
    ensures r.Ok? ==> forall x :: x in r.value <==> x in s.invites && x.missionId == m
  {
    if Fails(f, InviteRead) then Err(StoreFailure(f.detail)) else Ok(OfMission(s.invites, m))
  }

  /** The table with the status of the rows whose id is `id` set to `status`. */
  function SetStatus(invs: seq<Invite>, id: int, status: InviteStatus): (r: seq<Invite>)
    ensures |r| == |invs|
    ensures forall i :: 0 <= i < |invs| ==>
      r[i] == if invs[i].id == id then invs[i].(status := status) else invs[i]
  {
    seq(|invs|, i requires 0 <= i < |invs| => if invs[i].id == id then invs[i].(status := status) else invs[i])
  }

  /** `update_status`: changes only the status of the row with that id and
      returns the updated row; no such row is an error. */
  function UpdateStatus(s: Store, id: int, status: InviteStatus, f: Faults): (o: Outcome<Invite>)
    ensures o.r.Ok? <==> !Fails(f, InviteWrite) && Lookup(s.invites, id).Some?
    ensures o.r.Ok? ==> o.r.value == Lookup(s.invites, id).value.(status := status)
    ensures o.r.Ok? ==> o.s == s.(invites := SetStatus(s.invites, id, status))
    ensures o.r.Err? ==> o.s == s
    ensures Wf(s) ==> Wf(o.s)
  {
    if Fails(f, InviteWrite) then Outcome(s, Err(StoreFailure(f.detail)))
    else
      match Lookup(s.invites, id)
      case None => Outcome(s, Err(NotFound))
      case Some(inv) =>
        var invs := SetStatus(s.invites, id, status);
        assert Wf(s) ==> Wf(s.(invites := invs)) by {
          assert forall i :: 0 <= i < |invs| ==> invs[i].id == s.invites[i].id;
        }
        Outcome(s.(invites := invs), Ok(inv.(status := status)))
  }

  /** Whether some row for (mission, user) is pending. */
  function HasPending(invs: seq<Invite>, m: int, u: int): (b: bool)
    ensures b <==> exists x :: x in invs && x.missionId == m && x.userId == u && x.status == Pending
  {
    if invs == [] then false
    else
      (invs[0].missionId == m && invs[0].userId == u && invs[0].status == Pending)
      || HasPending(invs[1..], m, u)
  }

  /** `check_exists`: true iff a pending invite for (mission, user) exists;
      accepted or rejected rows do not count. */
  function CheckExists(s: Store, m: int, u: int, f: Faults): (r: Result<bool, Error>)
    ensures r.Ok? <==> !Fails(f, InviteRead)
    ensures r.Ok? ==> (r.value <==> exists x :: x in s.invites && x.missionId == m && x.userId == u && x.status == Pending)
  {
    if Fails(f, InviteRead) then Err(StoreFailure(f.detail)) else Ok(HasPending(s.invites, m, u))
  }

  /** `MissionInviteDetails`: the invite with its mission's name and the
      chief's display name. */
  datatype InviteDetails = InviteDetails(
    id: int, missionId: int, missionName: string, chiefDisplayName: string, status: InviteStatus)

  /** Row `x` survives the filter on `u` and pending, and both inner joins. */
  predicate Joined(x: Invite, missions: map<int, Mission>, brawlers: map<int, Brawler>, u: int) {
    x.userId == u && x.status == Pending && x.missionId in missions && missions[x.missionId].chiefId in brawlers
  }

  /** The selected columns of a joined row. */
  function Detail(x: Invite, missions: map<int, Mission>, brawlers: map<int, Brawler>): InviteDetails
    requires x.missionId in missions && missions[x.missionId].chiefId in brawlers
  {
    InviteDetails(x.id, x.missionId, missions[x.missionId].name, brawlers[missions[x.missionId].chiefId].displayName, x.status)
  }

  /** The pending rows of `u` joined with `missions` and the chief's
      `brawlers` row; rows without either are dropped by the inner joins. */
  function DetailsOf(invs: seq<Invite>, missions: map<int, Mission>, brawlers: map<int, Brawler>, u: int): (r: seq<InviteDetails>)
    ensures |r| <= |invs|
    ensures forall d :: d in r ==> d.status == Pending && Invite(d.id, d.missionId, u, Pending) in invs
    ensures forall d :: d in r ==>
      d.missionId in missions && missions[d.missionId].chiefId in brawlers
      && d.missionName == missions[d.missionId].name
      && d.chiefDisplayName == brawlers[missions[d.missionId].chiefId].displayName
    ensures forall x :: x in invs && Joined(x, missions, brawlers, u) ==> Detail(x, missions, brawlers) in r
  {
    if invs == [] then []
    else
      var x := invs[0];
      assert forall y :: y in invs ==> y == x || y in invs[1..];
      (if Joined(x, missions, brawlers, u) then [Detail(x, missions, brawlers)] else [])
      + DetailsOf(invs[1..], missions, brawlers, u)
  }

  /** `find_invites_details_by_user`: exactly the joined pending rows of `u`,
      with their mission's name and chief's display name. */
  function FindInviteDetailsByUser(s: Store, u: int, f: Faults): (r: Result<seq<InviteDetails>, Error>)
    ensures r.Ok? <==> !Fails(f, InviteRead)
    ensures r.Ok? ==> forall d :: d in r.value ==>
      Invite(d.id, d.missionId, u, Pending) in s.invites
      && d.missionId in s.missions && s.missions[d.missionId].chiefId in s.brawlers
      && d.missionName == s.missions[d.missionId].name
      && d.chiefDisplayName == s.brawlers[s.missions[d.missionId].chiefId].displayName
    ensures r.Ok? ==> forall x :: x in s.invites && Joined(x, s.missions, s.brawlers, u) ==>
      Detail(x, s.missions, s.brawlers) in r.value
  {
    if Fails(f, InviteRead) then Err(StoreFailure(f.detail)) else Ok(DetailsOf(s.invites, s.missions, s.brawlers, u))
  }

  /** A created pending invite is found by `check_exists` and by its id. */
  lemma CreateThenCheck(s: Store, m: int, u: int)
    requires Wf(s)
    ensures var o := Create(s, m, u, Pending, NoFaults);
      CheckExists(o.s, m, u, NoFaults) == Ok(true)
      && FindById(o.s, o.r.value.id, NoFaults) == Ok(Some(o.r.value))
  {
    var o := Create(s, m, u, Pending, NoFaults);
    var inv := o.r.value;
    assert inv in o.s.invites;
    LookupUnique(o.s.invites, |o.s.invites| - 1);
  }

  /** Under unique ids, looking up the id of a row finds that row. */
  lemma {:induction false} LookupUnique(invs: seq<Invite>, k: nat)
    requires k < |invs|
    requires forall i, j :: 0 <= i < j < |invs| ==> invs[i].id != invs[j].id
    ensures Lookup(invs, invs[k].id) == Some(invs[k])
  {
    if k > 0 && invs[0].id != invs[k].id {
      LookupUnique(invs[1..], k - 1);
    }
  }

  /** Updating a row's status and reading it back by id gives the updated row. */
  lemma UpdateThenFind(s: Store, id: int, status: InviteStatus)
    requires Wf(s)
    requires Lookup(s.invites, id).Some?
    ensures var o := UpdateStatus(s, id, status, NoFaults);
      FindById(o.s, id, NoFaults) == Ok(Some(o.r.value))
  {
    var o := UpdateStatus(s, id, status, NoFaults);
    var old_ := Lookup(s.invites, id).value;
    var k :| 0 <= k < |s.invites| && s.invites[k] == old_;
    var invs := o.s.invites;
    assert forall i :: 0 <= i < |invs| ==> invs[i].id == s.invites[i].id;
    LookupUnique(invs, k);
  }
}
