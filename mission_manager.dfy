/** The client's mission manager page: join alerts raised by notifications,
    and the local list of the chief's missions kept in step with add, edit
    and delete calls. */
module MissionManagerPage {
  import opened Wrappers
  import ClientLists
  import NewMissionDialog

  /** The `Mission` fields the page shows. `maxCrew` is `None` when an edit
      spread an `undefined` capacity over it. */
  datatype ClientMission = ClientMission(
    id: int,
    name: string,
    description: Option<string>,
    category: Option<string>,
    status: string,
    chiefId: int,
    chiefDisplayName: string,
    crewCount: int,
    maxCrew: Option<int>)

  /** A notification on the global stream: its type and the `mission_id` of
      its metadata, if any. */
  datatype ClientNotification = ClientNotification(kind: string, missionId: Option<int>)

  /** Whether a notification raises a join alert: type 'JoinMission' and a
      truthy (non-zero) `metadata.mission_id`. */
  predicate RaisesAlert(n: ClientNotification) {
    n.kind == "JoinMission" && n.missionId.Some? && n.missionId.value != 0
  }

  /** `findIndex(m => m.id === id)`: the first position holding the id, or
      -1 when there is none. */
  function FindIndex(ms: seq<ClientMission>, id: int): (k: int)
    ensures -1 <= k < |ms|
    ensures k == -1 <==> forall i :: 0 <= i < |ms| ==> ms[i].id != id
    ensures k >= 0 ==> ms[k].id == id && forall i :: 0 <= i < k ==> ms[i].id != id
  {
    if ms == [] then -1
    else if ms[0].id == id then 0
    else
      var k := FindIndex(ms[1..], id);
      if k == -1 then -1 else k + 1
  }

  /** `{ ...m, ...updated }`: the four dialog fields overwrite the entry's. */
  function Merge(m: ClientMission, u: NewMissionDialog.AddMission): ClientMission {
    m.(name := u.name, description := u.description, category := u.category, maxCrew := u.maxCrew)
  }

  /** The list after a successful edit: the first entry with the id merged,
      every other entry unchanged, and no change at all for a missing id. */
  function AfterEdit(ms: seq<ClientMission>, id: int, u: NewMissionDialog.AddMission): (r: seq<ClientMission>)
    ensures |r| == |ms|
    ensures (forall i :: 0 <= i < |ms| ==> ms[i].id != id) ==> r == ms
    ensures forall i :: 0 <= i < |ms| && i != FindIndex(ms, id) ==> r[i] == ms[i]
    ensures FindIndex(ms, id) >= 0 ==> r[FindIndex(ms, id)] == Merge(ms[FindIndex(ms, id)], u)
    ensures forall i :: 0 <= i < |ms| ==> r[i].id == ms[i].id
  {
    var k := FindIndex(ms, id);
    if k == -1 then ms else ms[k := Merge(ms[k], u)]
  }

  /** `filter(m => m.id !== id)` after a successful delete. */
  function WithoutMission(ms: seq<ClientMission>, id: int): (r: seq<ClientMission>)
    ensures forall i :: 0 <= i < |r| ==> r[i].id != id
    ensures forall x :: multiset(r)[x] == if x.id != id then multiset(ms)[x] else 0
    ensures ClientLists.Subsequence(r, ms)
  {
    var keep := (m: ClientMission) => m.id != id;
    ClientLists.FilterCounts(ms, keep);
    ClientLists.FilterSubsequence(ms, keep);
    ClientLists.Filter(ms, keep)
  }

  /** The entry `openDialog` appends for a newly created mission. */
  function Created(id: int, m: NewMissionDialog.AddMission, chiefName: string): (r: ClientMission)
    ensures r.status == "Open" && r.crewCount == 0 && r.chiefId == 0
    ensures r.maxCrew == Some(NewMissionDialog.CrewOr5(m.maxCrew))
    ensures r.id == id && r.name == m.name
  {
    ClientMission(id, m.name, m.description, m.category, "Open", 0, chiefName, 0, Some(NewMissionDialog.CrewOr5(m.maxCrew)))
  }

  /** A mission created through the dialog shows a capacity in [2, 10]. */
  lemma CreatedFromDialogInRange(id: int, form: NewMissionDialog.AddMission, chiefName: string)
    ensures var r := Created(id, NewMissionDialog.Clean(form), chiefName);
      r.maxCrew.Some? && 2 <= r.maxCrew.value <= 10
  {
  }

  /** `MissionManager`. */
  class Manager {
    var missions: seq<ClientMission>
    var joinAlerts: set<int>

    constructor (loaded: seq<ClientMission>)
      ensures missions == loaded && joinAlerts == {}
    {
      missions := loaded;
      joinAlerts := {};
    }

    /** The notification subscription. */
    method OnNotification(n: ClientNotification)
      modifies this
      ensures joinAlerts == if RaisesAlert(n) then old(joinAlerts) + {n.missionId.value} else old(joinAlerts)
      ensures missions == old(missions)
    {
      if n.kind == "JoinMission" && n.missionId.Some? && n.missionId.value != 0 {
        joinAlerts := joinAlerts + {n.missionId.value};
      }
    }

    /** `navigateToMission(id)`: clears the alert before navigating. */
    method NavigateToMission(id: int)
      modifies this
      ensures joinAlerts == old(joinAlerts) - {id} && missions == old(missions)
    {
      joinAlerts := joinAlerts - {id};
    }

    /** `clearJoinAlert(id)`. */
    method ClearJoinAlert(id: int)
      modifies this
      ensures joinAlerts == old(joinAlerts) - {id} && missions == old(missions)
    {
      joinAlerts := joinAlerts - {id};
    }

    predicate HasJoinAlert(id: int)
      reads this
    {
      id in joinAlerts
    }

    /** `openDialog()` once the dialog closed with `closed` (`None` when
        cancelled) and the add request answered `added`; `displayName` is the
        passport's display name. */
    method OpenDialog(closed: Option<NewMissionDialog.AddMission>, added: Result<int, string>, displayName: Option<string>)
      modifies this
      ensures closed.Some? && added.Ok? ==>
        var name := if displayName.Some? && displayName.value != [] then displayName.value else "unnamed";
        missions == old(missions) + [Created(added.value, closed.value, name)]
      ensures closed.None? || added.Err? ==> missions == old(missions)
      ensures joinAlerts == old(joinAlerts)
    {
      var chiefName := if displayName.Some? && displayName.value != [] then displayName.value else "unnamed";
      if closed.Some? && added.Ok? {
        missions := missions + [Created(added.value, closed.value, chiefName)];
      }
    }

    /** `openEditDialog(mission)` once the dialog closed with `closed` and the
        edit request answered `edited`. */
    method OpenEditDialog(id: int, closed: Option<NewMissionDialog.AddMission>, edited: Result<(), string>)
      modifies this
      ensures missions == if closed.Some? && edited.Ok? then AfterEdit(old(missions), id, closed.value) else old(missions)
      ensures joinAlerts == old(joinAlerts)
    {
      if closed.Some? && edited.Ok? {
        var index := FindIndex(missions, id);
        if index != -1 {
          missions := missions[index := Merge(missions[index], closed.value)];
        }
      }
    }

    /** `deleteMission(id)`: after confirmation and a successful request the
        mission leaves the list. */
    method DeleteMission(id: int, confirmed: bool, deleted: Result<(), string>)
      modifies this
      ensures missions == if confirmed && deleted.Ok? then WithoutMission(old(missions), id) else old(missions)
      ensures joinAlerts == old(joinAlerts)
    {
      if !confirmed {
        return;
      }
      if deleted.Ok? {
        missions := WithoutMission(missions, id);
      }
    }
  }
}
