/** The `crew_memberships` table as the two crew repositories change it:
    `CrewOperationPostgres` (insert, then a separate counter update) and
    `CrewPostgres` (insert and counter update in one transaction). */
module CrewTable {
  import opened Wrappers
  import opened Text
  import opened Domain

  /** The rows of `crew` other than `row`, in table order. */
  function Without(crew: seq<Membership>, row: Membership): (r: seq<Membership>)
    ensures forall x :: x in r <==> x in crew && x != row
    ensures |r| <= |crew|
  {
    if crew == [] then [] else (if crew[0] == row then [] else [crew[0]]) + Without(crew[1..], row)
  }

  /** Deleting a row that is not there leaves the table as it was. */
  lemma {:induction false} WithoutAbsent(crew: seq<Membership>, row: Membership)
    requires row !in crew
    ensures Without(crew, row) == crew
  {
    if crew != [] {
      WithoutAbsent(crew[1..], row);
      assert crew == [crew[0]] + crew[1..];
    }
  }

  lemma {:induction false} WithoutNoDup(crew: seq<Membership>, row: Membership)
    ensures NoDup(crew) ==> NoDup(Without(crew, row))
  {
    if crew != [] && NoDup(crew) {
      NoDupTail(crew);
      WithoutNoDup(crew[1..], row);
      if crew[0] != row {
        NoDupCons(crew[0], Without(crew[1..], row));
      }
    }
  }

  /** Number of rows equal to `row` (what `CrewPostgres::is_member` counts). */
  function MatchCount(crew: seq<Membership>, row: Membership): nat {
    if crew == [] then 0 else (if crew[0] == row then 1 else 0) + MatchCount(crew[1..], row)
  }

  /** The count is positive exactly when the row exists, and the key keeps it at most 1. */
  lemma {:induction false} MatchCountMembership(crew: seq<Membership>, row: Membership)
    ensures MatchCount(crew, row) > 0 <==> row in crew
    ensures NoDup(crew) ==> MatchCount(crew, row) <= 1
  {
    if crew != [] {
      MatchCountMembership(crew[1..], row);
      assert row in crew <==> crew[0] == row || row in crew[1..];
      if NoDup(crew) {
        NoDupTail(crew);
      }
    }
  }

  /** `is_member`: an `exists` query in one repository, `count() > 0` in the other. */
  function IsMember(s: Store, repo: CrewRepo, m: int, b: int, f: Faults): (r: Result<bool, Error>)
    ensures r.Ok? <==> !Fails(f, Call.IsMember)
    ensures r.Ok? ==> (r.value <==> Membership(m, b) in s.crew)
  {
    if Fails(f, Call.IsMember) then Err(StoreFailure(f.detail))
    else
      match repo
      case NonAtomic => Ok(Membership(m, b) in s.crew)
      case Transactional =>
        MatchCountMembership(s.crew, Membership(m, b));
        Ok(MatchCount(s.crew, Membership(m, b)) > 0)
  }

  /** `mission_join_count + 1` on the brawler's row; no matching row is not an error. */
  function IncrementJoinCount(brawlers: map<int, Brawler>, b: int): map<int, Brawler> {
    if b in brawlers then brawlers[b := brawlers[b].(joinCount := brawlers[b].joinCount + 1)] else brawlers
  }

  /** Whether an error's text is taken for a uniqueness violation. */
  predicate LooksLikeDuplicate(detail: string) {
    Contains(detail, "duplicate key") || Contains(detail, "UniqueViolation")
  }

  /** `join` of either repository. The non-atomic one maps a uniqueness
      violation to "Already joined", and keeps the inserted row when the
      counter update fails; the transactional one surfaces the raw database
      error and rolls back on any failure. */
  function Join(s: Store, repo: CrewRepo, row: Membership, f: Faults): (o: Outcome<()>)
    // success: exactly one row added and the joiner's counter raised by one
    ensures o.r.Ok? <==> !Fails(f, CrewInsert) && row !in s.crew && !Fails(f, CounterUpdate)
    ensures o.r.Ok? ==> o.s == s.(crew := s.crew + [row], brawlers := IncrementJoinCount(s.brawlers, row.brawlerId))
    // a duplicate changes nothing
    ensures row in s.crew ==> o.s == s
    ensures row in s.crew && !Fails(f, CrewInsert) ==>
      o.r == Err(if repo == NonAtomic then AlreadyJoined else StoreFailure(DuplicateCrewKeyText))
    // the transaction: all or nothing
    ensures repo == Transactional && o.r.Err? ==> o.s == s
    // the separate statements: a failed counter update keeps the row
    ensures repo == NonAtomic && o.r.Err? ==>
      o.s == s || (o.s == s.(crew := s.crew + [row]) && Fails(f, CounterUpdate))
    ensures Wf(s) ==> Wf(o.s)
  {
    match repo
    case NonAtomic =>
      if Fails(f, CrewInsert) then
        Outcome(s, Err(if LooksLikeDuplicate(f.detail) then AlreadyJoined else StoreFailure(f.detail)))
      else if row in s.crew then Outcome(s, Err(AlreadyJoined))
      else
        var inserted := s.(crew := s.crew + [row]);
        if Fails(f, CounterUpdate) then Outcome(inserted, Err(StoreFailure(f.detail)))
        else Outcome(inserted.(brawlers := IncrementJoinCount(s.brawlers, row.brawlerId)), Ok(()))
    case Transactional =>
      if Fails(f, CrewInsert) then Outcome(s, Err(StoreFailure(f.detail)))
      else if row in s.crew then Outcome(s, Err(StoreFailure(DuplicateCrewKeyText)))
      else if Fails(f, CounterUpdate) then Outcome(s, Err(StoreFailure(f.detail)))
      else Outcome(s.(crew := s.crew + [row], brawlers := IncrementJoinCount(s.brawlers, row.brawlerId)), Ok(()))
  }

  /** `leave`: deletes the matching row only; deleting a non-member is `Ok`. */
  function Leave(s: Store, row: Membership, f: Faults): (o: Outcome<()>)
    ensures o.r.Ok? <==> !Fails(f, CrewDelete)
    ensures o.r.Ok? ==> o.s == s.(crew := Without(s.crew, row))
    ensures o.r.Err? ==> o.s == s
    ensures Wf(s) ==> Wf(o.s)
  {
    if Fails(f, CrewDelete) then Outcome(s, Err(StoreFailure(f.detail)))
    else
      WithoutNoDup(s.crew, row);
      Outcome(s.(crew := Without(s.crew, row)), Ok(()))
  }

  /** After a successful join the joiner is a member, and a join followed by
      a leave of the same row restores the crew table. */
  lemma JoinThenLeave(s: Store, repo: CrewRepo, row: Membership)
    requires Join(s, repo, row, NoFaults).r.Ok?
    ensures Membership(row.missionId, row.brawlerId) in Join(s, repo, row, NoFaults).s.crew
    ensures Leave(Join(s, repo, row, NoFaults).s, row, NoFaults).s.crew == s.crew
  {
    var crew := s.crew + [row];
    assert Without(crew, row) == Without(s.crew, row) + Without([row], row) by {
      WithoutConcat(s.crew, [row], row);
    }
    WithoutAbsent(s.crew, row);
  }

  lemma {:induction false} WithoutConcat(a: seq<Membership>, b: seq<Membership>, row: Membership)
    ensures Without(a + b, row) == Without(a, row) + Without(b, row)
  {
    if a != [] {
      WithoutConcat(a[1..], b, row);
      assert (a + b)[1..] == a[1..] + b;
    } else {
      assert a + b == b;
    }
  }
}
