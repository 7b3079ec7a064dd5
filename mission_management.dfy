/** `MissionManagementUseCase` of the later revision: validation and
    normalisation of a new or edited mission before the repository write,
    and the delegation of `remove`. */
module MissionManagement {
  import opened Wrappers
  import opened Text
  import opened Domain
  import Viewing
  import MissionTable
  import opened Db

  /** `AddMissionModel`. */
  datatype AddModel = AddModel(name: string, description: Option<string>, maxCrew: int)

  /** `EditMissionModel`: every field optional. */
  datatype EditModel = EditModel(name: Option<string>, description: Option<string>, maxCrew: Option<int>)

  /** The name rule of both `add` and `edit`: the trimmed name must be at
      least 3 bytes long, although the message speaks of 4 characters. */
  predicate NameTooShort(name: string) {
    var t := Trim(name, RustWhitespace);
    t == [] || Utf8Len(t) < 3
  }

  predicate CapacityInRange(maxCrew: int) {
    2 <= maxCrew <= 10
  }

  /** `add(chief_id, model)`: both checks run before any write, and the name
      is stored as given, untrimmed. */
  function AddSpec(s: Store, chief: int, model: AddModel, f: Faults): Outcome<int> {
    if NameTooShort(model.name) then Outcome(s, Err(Error.NameTooShort))
    else if !CapacityInRange(model.maxCrew) then Outcome(s, Err(CapacityOutOfRange))
    else MissionTable.AddMission(s, model.name, model.description, chief, model.maxCrew, f)
  }

  /** The name `edit` passes on: a whitespace-only name counts as absent, a
      short one is refused, any other is trimmed. */
  function EditName(name: Option<string>): (r: Result<Option<string>, Error>)
    ensures name.None? ==> r == Ok(None)
    ensures name.Some? && Trim(name.value, RustWhitespace) == [] ==> r == Ok(None)
    ensures name.Some? && Trim(name.value, RustWhitespace) != [] ==>
      r == if Utf8Len(Trim(name.value, RustWhitespace)) < 3 then Err(Error.NameTooShort)
           else Ok(Some(Trim(name.value, RustWhitespace)))
    ensures r.Ok? && r.value.Some? ==> !NameTooShort(r.value.value)
  {
    match name
    case None => Ok(None)
    case Some(n) =>
      var t := Trim(n, RustWhitespace);
      if t == [] then Ok(None)
      else if Utf8Len(t) < 3 then Err(Error.NameTooShort)
      else
        TrimIdempotent(n, RustWhitespace);
        Ok(Some(t))
  }

  /** The capacity check of `edit`: in range, and not below the current crew
      count, where a failed count read counts as 0. */
  function EditCapacity(s: Store, id: int, maxCrew: Option<int>, f: Faults): Result<(), Error> {
    match maxCrew
    case None => Ok(())
    case Some(mc) =>
      if !CapacityInRange(mc) then Err(CapacityOutOfRange)
      else
        var count := match Viewing.CrewCount(s, id, f) case Ok(n) => n case Err(_) => 0;
        if mc < count then Err(BelowCrewCount(count)) else Ok(())
  }

  /** `edit(mission_id, chief_id, model)`. */
  function EditSpec(s: Store, id: int, chief: int, model: EditModel, f: Faults): Outcome<int> {
    match EditName(model.name)
    case Err(e) => Outcome(s, Err(e))
    case Ok(name) =>
      match EditCapacity(s, id, model.maxCrew, f)
      case Err(e) => Outcome(s, Err(e))
      case Ok(_) => MissionTable.EditMission(s, id, chief, MissionTable.Changes(name, model.description, model.maxCrew), f)
  }

  /** `remove`: the repository's result, unchanged. */
  function RemoveSpec(s: Store, id: int, chief: int, f: Faults): (o: Outcome<()>)
    ensures o.r.Ok? <==> !Fails(f, MissionWrite)
    ensures o.r.Ok? && MissionTable.Editable(s, id, chief) ==> id in o.s.missions && o.s.missions[id] == s.missions[id].(deleted := true)
    ensures o.s.missions.Keys == s.missions.Keys
  {
    MissionTable.RemoveMission(s, id, chief, f)
  }

  // ---------------------------------------------------------------------
  // Properties
  // ---------------------------------------------------------------------

  /** A mission is added only with a trimmed name of at least 3 bytes and a
      capacity in [2, 10]; it is stored Open, under the name exactly as
      given, and a refused one leaves the store as it was. */
  lemma AddValidation(s: Store, chief: int, model: AddModel, f: Faults)
    ensures AddSpec(s, chief, model, f).r.Ok? <==>
      !NameTooShort(model.name) && CapacityInRange(model.maxCrew) && !Fails(f, MissionWrite)
    ensures var o := AddSpec(s, chief, model, f);
      o.r.Ok? ==> o.r.value == s.nextMissionId
                  && o.s.missions[o.r.value] == Mission(model.name, model.description, Open, chief, model.maxCrew, false)
    ensures NameTooShort(model.name) ==> AddSpec(s, chief, model, f) == Outcome(s, Err(Error.NameTooShort))
    ensures !NameTooShort(model.name) && !CapacityInRange(model.maxCrew) ==>
      AddSpec(s, chief, model, f) == Outcome(s, Err(CapacityOutOfRange))
  {
  }

  /** The message says "least 4 characters", yet a three-letter name passes,
      and a name padded with spaces is measured after trimming. */
  lemma ThreeLetterNameAccepted(s: Store, chief: int)
    ensures AddSpec(s, chief, AddModel("abc", None, 5), NoFaults).r.Ok?
    ensures AddSpec(s, chief, AddModel("  ab  ", None, 5), NoFaults).r == Err(Error.NameTooShort)
    ensures ErrorText(Error.NameTooShort) == "Mission name must be least 4 characters long"
  {
    ShortNameCases();
    ShortNameText();
  }

  lemma ShortNameCases()
    ensures !NameTooShort("abc") && NameTooShort("  ab  ")
  {
    TrimAbc();
    TrimPaddedAb();
    assert Utf8Len("ab") == 2 by {
      assert "ab"[1..] == "b" && "b"[1..] == [];
    }
  }

  lemma ShortNameText()
    ensures ErrorText(Error.NameTooShort) == "Mission name must be least 4 characters long"
  {
  }

  lemma TrimAbc()
    ensures Trim("abc", RustWhitespace) == "abc"
  {
    var s := "abc";
    assert !RustWhitespace(s[0]);
    assert LeadingCount(s, RustWhitespace) == 0;
    assert !RustWhitespace(s[2]);
    assert TrailingCount(s, RustWhitespace) == 0;
  }

  lemma TrimPaddedAb()
    ensures Trim("  ab  ", RustWhitespace) == "ab"
  {
    var s := "  ab  ";
    assert RustWhitespace(s[0]) && RustWhitespace(s[1]) && !RustWhitespace(s[2]);
    assert LeadingCount(s[2..], RustWhitespace) == 0;
    assert LeadingCount(s[1..], RustWhitespace) == 1 by { assert s[1..][1..] == s[2..]; }
    assert LeadingCount(s, RustWhitespace) == 2;
    var t := s[2..];
    assert t == "ab  ";
    assert RustWhitespace(t[3]) && RustWhitespace(t[2]) && !RustWhitespace(t[1]);
    assert TrailingCount(t[..2], RustWhitespace) == 0;
    assert TrailingCount(t[..3], RustWhitespace) == 1 by { assert t[..3][..2] == t[..2]; }
    assert TrailingCount(t, RustWhitespace) == 2;
    assert t[..2] == "ab";
  }

  /** `edit` writes nothing when a check fails; when it writes, the name
      column gets the trimmed name or is left as it was for a blank or
      absent one, and the capacity is in range and not below the crew count
      the store reports (0 when that read fails). */
  lemma EditValidation(s: Store, id: int, chief: int, model: EditModel, f: Faults)
    ensures var o := EditSpec(s, id, chief, model, f);
      o.r.Err? ==> o.s == s
    ensures var o := EditSpec(s, id, chief, model, f);
      o.r.Ok? ==>
        (id in s.missions
         && o.s.missions[id].name ==
              (if model.name.Some? && Trim(model.name.value, RustWhitespace) != []
               then Trim(model.name.value, RustWhitespace) else s.missions[id].name)
         && (model.maxCrew.Some? ==>
               (CapacityInRange(model.maxCrew.value) && o.s.missions[id].maxCrew == model.maxCrew.value
                && (!Fails(f, Call.CrewCount) ==> model.maxCrew.value >= Viewing.CountOf(s.crew, id)))))
    ensures (model.name.Some? && Trim(model.name.value, RustWhitespace) != []
             && Utf8Len(Trim(model.name.value, RustWhitespace)) < 3) ==>
      EditSpec(s, id, chief, model, f) == Outcome(s, Err(Error.NameTooShort))
  {
  }

  /** Lowering the capacity below the crew count is refused with that count
      in the message; when the count cannot be read, any capacity in range
      passes this check. */
  lemma EditBelowCrewCount(s: Store, id: int, chief: int, model: EditModel, f: Faults)
    requires EditName(model.name).Ok? && model.maxCrew.Some? && CapacityInRange(model.maxCrew.value)
    ensures !Fails(f, Call.CrewCount) && model.maxCrew.value < Viewing.CountOf(s.crew, id) ==>
      EditSpec(s, id, chief, model, f) == Outcome(s, Err(BelowCrewCount(Viewing.CountOf(s.crew, id))))
    ensures Fails(f, Call.CrewCount) ==>
      EditSpec(s, id, chief, model, f) ==
      MissionTable.EditMission(s, id, chief, MissionTable.Changes(EditName(model.name).value, model.description, model.maxCrew), f)
  {
  }

  /** Editing with the name an edit produced is the same as editing with it:
      a normalised name is a fixed point of the normalisation. */
  lemma EditNameIdempotent(name: Option<string>)
    requires EditName(name).Ok?
    ensures EditName(EditName(name).value) == EditName(name)
  {
    if name.Some? {
      TrimIdempotent(name.value, RustWhitespace);
    }
  }

  // ---------------------------------------------------------------------
  // The use case against the database
  // ---------------------------------------------------------------------

  method Add(db: Database, chief: int, model: AddModel, f: Faults) returns (r: Result<int, Error>)
    modifies db
    ensures Outcome(db.Snapshot(), r) == AddSpec(old(db.Snapshot()), chief, model, f)
  {
    if NameTooShort(model.name) {
      r := Err(Error.NameTooShort);
      return;
    }
    if !CapacityInRange(model.maxCrew) {
      r := Err(CapacityOutOfRange);
      return;
    }
    r := db.AddMission(model.name, model.description, chief, model.maxCrew, f);
  }

  /** `edit`: the model's name is rewritten in place before the write. */
  method Edit(db: Database, id: int, chief: int, model: EditModel, f: Faults) returns (r: Result<int, Error>)
    modifies db
    ensures Outcome(db.Snapshot(), r) == EditSpec(old(db.Snapshot()), id, chief, model, f)
  {
    var m := model;
    if m.name.Some? {
      var t := Trim(m.name.value, RustWhitespace);
      if t == [] {
        m := m.(name := None);
      } else if Utf8Len(t) < 3 {
        r := Err(Error.NameTooShort);
        return;
      } else {
        m := m.(name := Some(t));
      }
    }
    if m.maxCrew.Some? {
      var mc := m.maxCrew.value;
      if !CapacityInRange(mc) {
        r := Err(CapacityOutOfRange);
        return;
      }
      var read := Viewing.CrewCount(db.Snapshot(), id, f);
      var count := if read.Ok? then read.value else 0;
      if mc < count {
        r := Err(BelowCrewCount(count));
        return;
      }
    }
    r := db.EditMission(id, chief, MissionTable.Changes(m.name, m.description, m.maxCrew), f);
  }

  method Remove(db: Database, id: int, chief: int, f: Faults) returns (r: Result<(), Error>)
    modifies db
    ensures Outcome(db.Snapshot(), r) == RemoveSpec(old(db.Snapshot()), id, chief, f)
  {
    r := db.RemoveMission(id, chief, f);
  }
}
