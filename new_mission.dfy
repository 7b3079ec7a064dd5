/** The new-mission dialog of the client: the form's initial values taken
    from the dialog data, and the cleaning applied to the form on submit. */
module NewMissionDialog {
  import opened Wrappers
  import opened Text

  /** `AddMission` as the dialog holds it; `None` is `undefined`/`null`. */
  datatype AddMission = AddMission(
    name: string,
    description: Option<string>,
    category: Option<string>,
    maxCrew: Option<int>)

  const DefaultCrew: int := 5
  const Untitled: string := "untitled"

  /** JavaScript truthiness of an optional number: absent and 0 are falsy. */
  function CrewOr5(maxCrew: Option<int>): int {
    if maxCrew.Some? && maxCrew.value != 0 then maxCrew.value else DefaultCrew
  }

  /** `s?.trim() || undefined`: absent, or trimming to the empty string,
      gives `undefined`. */
  function TrimmedOrAbsent(s: Option<string>): (r: Option<string>)
    ensures r.Some? ==> s.Some? && r.value == Trim(s.value, JsWhitespace) && r.value != []
    ensures r.None? <==> s.None? || Trim(s.value, JsWhitespace) == []
  {
    if s.None? then None
    else
      var t := Trim(s.value, JsWhitespace);
      if t == [] then None else Some(t)
  }

  /** `clean(addMission)`: capacity defaulted to 5 when falsy and clamped to
      [2, 10]; name trimmed with "untitled" for an empty result; description
      and category trimmed, with `undefined` for empty results. */
  function Clean(m: AddMission): (r: AddMission)
    ensures r.maxCrew.Some? && 2 <= r.maxCrew.value <= 10
    ensures r.name != []
    ensures var c := CrewOr5(m.maxCrew);
      r.maxCrew.value == (if c < 2 then 2 else if c > 10 then 10 else c)
    ensures var t := Trim(m.name, JsWhitespace); r.name == if t == [] then Untitled else t
    ensures r.description == TrimmedOrAbsent(m.description)
    ensures r.category == TrimmedOrAbsent(m.category)
  {
    var c := CrewOr5(m.maxCrew);
    var clamped := if c < 2 then 2 else if c > 10 then 10 else c;
    var t := Trim(m.name, JsWhitespace);
    AddMission(if t == [] then Untitled else t, TrimmedOrAbsent(m.description), TrimmedOrAbsent(m.category), Some(clamped))
  }

  /** Trimming "untitled" changes nothing. */
  lemma UntitledTrimmed()
    ensures Trim(Untitled, JsWhitespace) == Untitled
  {
    assert !JsWhitespace(Untitled[0]);
    assert LeadingCount(Untitled, JsWhitespace) == 0;
    assert !JsWhitespace(Untitled[|Untitled| - 1]);
    assert TrailingCount(Untitled, JsWhitespace) == 0;
  }

  lemma TrimmedOrAbsentIdempotent(s: Option<string>)
    ensures TrimmedOrAbsent(TrimmedOrAbsent(s)) == TrimmedOrAbsent(s)
  {
    if s.Some? {
      TrimIdempotent(s.value, JsWhitespace);
    }
  }

  /** Cleaning a cleaned value changes nothing. */
  lemma CleanIdempotent(m: AddMission)
    ensures Clean(Clean(m)) == Clean(m)
  {
    var t := Trim(m.name, JsWhitespace);
    TrimIdempotent(m.name, JsWhitespace);
    UntitledTrimmed();
    TrimmedOrAbsentIdempotent(m.description);
    TrimmedOrAbsentIdempotent(m.category);
  }

  /** The form's initial value: the dialog data's fields when truthy,
      otherwise '' for the texts and 5 for the capacity. */
  function Initial(data: Option<AddMission>): (r: AddMission)
    ensures data.None? ==> r == AddMission("", Some(""), Some(""), Some(DefaultCrew))
    ensures data.Some? ==> r.name == data.value.name
    ensures r.maxCrew == Some(CrewOr5(if data.Some? then data.value.maxCrew else None))
    ensures r.description.Some? && r.category.Some?
  {
    var text := (o: Option<string>) => if o.Some? && o.value != [] then o else Some("");
    match data
    case None => AddMission("", Some(""), Some(""), Some(DefaultCrew))
    case Some(d) => AddMission(d.name, text(d.description), text(d.category), Some(CrewOr5(d.maxCrew)))
  }

  /** Submitting the untouched form of a dialog opened without data yields an
      untitled mission of capacity 5 with no description or category. */
  lemma EmptyFormSubmitted()
    ensures Clean(Initial(None)) == AddMission(Untitled, None, None, Some(DefaultCrew))
  {
    assert Trim("", JsWhitespace) == "";
  }
}
