/** The `achievements` and `brawler_achievements` tables as
    `AchievementPostgres` reads and writes them. */
module AchievementTable {
  import opened Wrappers
  import opened Domain

  /** The filter `condition_type = kind AND condition_value <= value`;
      a NULL in either column never matches. */
  predicate Qualifies(a: Achievement, kind: string, value: int) {
    a.conditionType == Some(kind) && a.conditionValue.Some? && a.conditionValue.value <= value
  }

  /** The candidate achievements, in table order. */
  function Candidates(achs: seq<Achievement>, kind: string, value: int): (r: seq<Achievement>)
    ensures forall a :: a in r <==> a in achs && Qualifies(a, kind, value)
  {
    if achs == [] then []
    else
      var last := achs[|achs| - 1];
      Candidates(achs[..|achs| - 1], kind, value) + (if Qualifies(last, kind, value) then [last] else [])
  }

  /** A larger current value never yields fewer candidates. */
  lemma {:induction false} CandidatesMonotone(achs: seq<Achievement>, kind: string, v1: int, v2: int)
    requires v1 <= v2
    ensures forall a :: a in Candidates(achs, kind, v1) ==> a in Candidates(achs, kind, v2)
    ensures |Candidates(achs, kind, v1)| <= |Candidates(achs, kind, v2)|
  {
    if achs != [] {
      CandidatesMonotone(achs[..|achs| - 1], kind, v1, v2);
    }
  }

  predicate UniqueIds(achs: seq<Achievement>) {
    forall i, j :: 0 <= i < j < |achs| ==> achs[i].id != achs[j].id
  }

  lemma {:induction false} CandidatesUniqueIds(achs: seq<Achievement>, kind: string, value: int)
    requires UniqueIds(achs)
    ensures UniqueIds(Candidates(achs, kind, value))
  {
    if achs != [] {
      var init := achs[..|achs| - 1];
      var last := achs[|achs| - 1];
      assert UniqueIds(init) by {
        forall i, j | 0 <= i < j < |init| ensures init[i].id != init[j].id {
          assert init[i] == achs[i] && init[j] == achs[j];
        }
      }
      CandidatesUniqueIds(init, kind, value);
      var c := Candidates(init, kind, value);
      if Qualifies(last, kind, value) {
        forall i | 0 <= i < |c| ensures c[i].id != last.id {
          assert c[i] in init;
          var k :| 0 <= k < |init| && init[k] == c[i];
          assert achs[k] == c[i];
        }
        var r := c + [last];
        forall i, j | 0 <= i < j < |r| ensures r[i].id != r[j].id {
          if j < |c| {
            assert r[i] == c[i] && r[j] == c[j];
          } else {
            assert r[i] == c[i] && r[j] == last;
          }
        }
      } else {
        assert Candidates(achs, kind, value) == c;
      }
    }
  }

  /** The candidates the brawler has not earned yet. */
  function Unearned(earned: map<Award, int>, b: int, cands: seq<Achievement>): (r: seq<Achievement>)
    ensures forall a :: a in r <==> a in cands && (b, a.id) !in earned
  {
    if cands == [] then []
    else
      var last := cands[|cands| - 1];
      Unearned(earned, b, cands[..|cands| - 1]) + (if (b, last.id) !in earned then [last] else [])
  }

  function Names(achs: seq<Achievement>): (r: seq<string>)
    ensures |r| == |achs|
    ensures forall i :: 0 <= i < |achs| ==> r[i] == achs[i].name
  {
    if achs == [] then [] else Names(achs[..|achs| - 1]) + [achs[|achs| - 1].name]
  }

  /** The insert loop of `check_and_award`: insert-if-absent for each
      candidate in order, collecting the names of rows actually inserted. */
  function AwardAll(earned: map<Award, int>, b: int, cands: seq<Achievement>, now: int): (map<Award, int>, seq<string>)
  {
    if cands == [] then (earned, [])
    else
      var prev := AwardAll(earned, b, cands[..|cands| - 1], now);
      var a := cands[|cands| - 1];
      if (b, a.id) in prev.0 then prev else (prev.0[(b, a.id) := now], prev.1 + [a.name])
  }

  /** After the loop every candidate is earned. */
  lemma {:induction false} AwardAllCovers(earned: map<Award, int>, b: int, cands: seq<Achievement>, now: int)
    ensures forall a :: a in cands ==> (b, a.id) in AwardAll(earned, b, cands, now).0
  {
    if cands != [] {
      AwardAllCovers(earned, b, cands[..|cands| - 1], now);
      assert forall a :: a in cands ==> a in cands[..|cands| - 1] || a == cands[|cands| - 1];
    }
  }

  /** The loop removes and changes no row and adds only rows of brawler `b`
      for candidate achievements. */
  lemma {:induction false} AwardAllFrame(earned: map<Award, int>, b: int, cands: seq<Achievement>, now: int)
    ensures forall k :: k in earned ==>
      k in AwardAll(earned, b, cands, now).0 && AwardAll(earned, b, cands, now).0[k] == earned[k]
    ensures forall k :: k in AwardAll(earned, b, cands, now).0 && k !in earned ==>
      k.0 == b && exists a :: a in cands && a.id == k.1
  {
    if cands != [] {
      AwardAllFrame(earned, b, cands[..|cands| - 1], now);
      assert forall a :: a in cands[..|cands| - 1] ==> a in cands;
    }
  }

  /** The names returned are exactly those of the candidates not earned before. */
  lemma {:induction false} AwardAllNames(earned: map<Award, int>, b: int, cands: seq<Achievement>, now: int)
    requires UniqueIds(cands)
    ensures AwardAll(earned, b, cands, now).1 == Names(Unearned(earned, b, cands))
  {
    if cands != [] {
      var init := cands[..|cands| - 1];
      var a := cands[|cands| - 1];
      assert UniqueIds(init) by {
        forall i, j | 0 <= i < j < |init| ensures init[i].id != init[j].id {
          assert init[i] == cands[i] && init[j] == cands[j];
        }
      }
      AwardAllNames(earned, b, init, now);
      AwardAllFrame(earned, b, init, now);
      var e0 := AwardAll(earned, b, init, now).0;
      forall x | x in init ensures x.id != a.id {
        var k :| 0 <= k < |init| && init[k] == x;
        assert cands[k] == x;
      }
      assert ((b, a.id) in e0) == ((b, a.id) in earned);
      var u := Unearned(earned, b, init);
      if (b, a.id) !in earned {
        assert (u + [a])[..|u + [a]| - 1] == u;
      }
    }
  }

  /** A second pass over candidates that are all earned inserts nothing and
      returns no names. */
  lemma {:induction false} AwardAllNoop(earned: map<Award, int>, b: int, cands: seq<Achievement>, now: int)
    requires forall a :: a in cands ==> (b, a.id) in earned
    ensures AwardAll(earned, b, cands, now) == (earned, [])
  {
    if cands != [] {
      assert forall a :: a in cands[..|cands| - 1] ==> a in cands;
      AwardAllNoop(earned, b, cands[..|cands| - 1], now);
    }
  }

  /** The position of the first candidate whose insert fails under `f`,
      or the number of candidates when none does. */
  function FirstFailing(b: int, cands: seq<Achievement>, f: Faults): (k: nat)
    ensures k <= |cands|
    ensures forall j :: 0 <= j < k ==> !AwardFails(f, (b, cands[j].id))
    ensures k < |cands| ==> AwardFails(f, (b, cands[k].id))
  {
    if cands == [] then 0
    else if AwardFails(f, (b, cands[0].id)) then 0
    else 1 + FirstFailing(b, cands[1..], f)
  }

  /** `check_and_award`: load the candidates, then insert each one with
      on-conflict-do-nothing, outside any transaction. A failed load writes
      nothing; a failed insert aborts with `Err`, keeping the rows the
      earlier inserts of the loop wrote. */
  function CheckAndAward(s: Store, b: int, kind: string, value: int, now: int, f: Faults): (o: Outcome<seq<string>>)
    ensures Fails(f, AchievementRead) ==> o.s == s && o.r.Err?
    ensures o.s == s.(earned := o.s.earned)
    ensures o.r.Ok? <==> !Fails(f, AchievementRead) && forall a :: a in Candidates(s.achievements, kind, value) ==> !AwardFails(f, (b, a.id))
  {
    if Fails(f, AchievementRead) then Outcome(s, Err(StoreFailure(f.detail)))
    else
      var cands := Candidates(s.achievements, kind, value);
      var k := FirstFailing(b, cands, f);
      var (e, names) := AwardAll(s.earned, b, cands[..k], now);
      if k < |cands| then Outcome(s.(earned := e), Err(StoreFailure(f.detail)))
      else
        assert cands[..k] == cands;
        Outcome(s.(earned := e), Ok(names))
  }

  /** Whatever the outcome, no row is deleted or changed and every row added
      belongs to brawler `b` and a candidate achievement. */
  lemma CheckAndAwardFrame(s: Store, b: int, kind: string, value: int, now: int, f: Faults)
    ensures var o := CheckAndAward(s, b, kind, value, now, f);
      (forall k :: k in s.earned ==> k in o.s.earned && o.s.earned[k] == s.earned[k])
      && (forall k :: k in o.s.earned && k !in s.earned ==>
            k.0 == b && exists a :: a in Candidates(s.achievements, kind, value) && a.id == k.1)
  {
    if !Fails(f, AchievementRead) {
      var cands := Candidates(s.achievements, kind, value);
      var k := FirstFailing(b, cands, f);
      AwardAllFrame(s.earned, b, cands[..k], now);
      assert forall a :: a in cands[..k] ==> a in cands;
    }
  }

  /** The loop run over the first `k` candidates: those are all earned,
      the others gain no row, and no row is lost or changed. */
  lemma AwardPrefix(earned: map<Award, int>, b: int, cands: seq<Achievement>, k: nat, now: int)
    requires UniqueIds(cands) && k <= |cands|
    ensures var e := AwardAll(earned, b, cands[..k], now).0;
      (forall j :: 0 <= j < k ==> (b, cands[j].id) in e)
      && (forall j :: k <= j < |cands| ==> ((b, cands[j].id) in e <==> (b, cands[j].id) in earned))
      && (forall key :: key in earned ==> key in e && e[key] == earned[key])
  {
    var e := AwardAll(earned, b, cands[..k], now).0;
    AwardAllCovers(earned, b, cands[..k], now);
    AwardAllFrame(earned, b, cands[..k], now);
    forall j | 0 <= j < k ensures (b, cands[j].id) in e {
      assert cands[..k][j] == cands[j];
    }
    forall j | k <= j < |cands| ensures (b, cands[j].id) in e ==> (b, cands[j].id) in earned {
      forall a | a in cands[..k] ensures a.id != cands[j].id {
        var i :| 0 <= i < k && cands[..k][i] == a;
        assert cands[i] == a;
      }
    }
  }

  /** A failed insert after a successful load: the candidates before the
      failing one are all earned, the failing one and those after it gain no
      row, and nothing else changes. */
  lemma CheckAndAwardPartial(s: Store, b: int, kind: string, value: int, now: int, f: Faults)
    requires Wf(s)
    requires !Fails(f, AchievementRead)
    requires CheckAndAward(s, b, kind, value, now, f).r.Err?
    ensures var o := CheckAndAward(s, b, kind, value, now, f);
      var cands := Candidates(s.achievements, kind, value);
      var k := FirstFailing(b, cands, f);
      k < |cands| && AwardFails(f, (b, cands[k].id))
        && (forall j :: 0 <= j < k ==> !AwardFails(f, (b, cands[j].id)) && (b, cands[j].id) in o.s.earned)
        && (forall j :: k <= j < |cands| ==> ((b, cands[j].id) in o.s.earned <==> (b, cands[j].id) in s.earned))
        && (forall key :: key in s.earned ==> key in o.s.earned && o.s.earned[key] == s.earned[key])
  {
    var o := CheckAndAward(s, b, kind, value, now, f);
    var cands := Candidates(s.achievements, kind, value);
    var k := FirstFailing(b, cands, f);
    assert k < |cands|;
    assert o.s.earned == AwardAll(s.earned, b, cands[..k], now).0;
    CandidatesUniqueIds(s.achievements, kind, value);
    AwardPrefix(s.earned, b, cands, k, now);
  }

  /** The properties of a successful `check_and_award`. */
  lemma CheckAndAwardSpec(s: Store, b: int, kind: string, value: int, now: int, f: Faults)
    requires Wf(s)
    requires CheckAndAward(s, b, kind, value, now, f).r.Ok?
    ensures var o := CheckAndAward(s, b, kind, value, now, f);
      var cands := Candidates(s.achievements, kind, value);
      // every candidate is earned afterwards
      (forall a :: a in cands ==> (b, a.id) in o.s.earned)
      // nothing deleted or changed, other brawlers untouched
      && (forall k :: k in s.earned ==> k in o.s.earned && o.s.earned[k] == s.earned[k])
      && (forall k :: k in o.s.earned && k.0 != b ==> k in s.earned)
      // a name is returned iff its row was newly inserted
      && o.r.value == Names(Unearned(s.earned, b, cands))
  {
    var cands := Candidates(s.achievements, kind, value);
    assert cands[..FirstFailing(b, cands, f)] == cands;
    CandidatesUniqueIds(s.achievements, kind, value);
    AwardAllCovers(s.earned, b, cands, now);
    AwardAllFrame(s.earned, b, cands, now);
    AwardAllNames(s.earned, b, cands, now);
  }

  /** Without failures `check_and_award` runs the whole loop. */
  lemma CheckAndAwardNoFaults(s: Store, b: int, kind: string, value: int, now: int)
    ensures var cands := Candidates(s.achievements, kind, value);
      var run := AwardAll(s.earned, b, cands, now);
      CheckAndAward(s, b, kind, value, now, NoFaults) == Outcome(s.(earned := run.0), Ok(run.1))
  {
    var cands := Candidates(s.achievements, kind, value);
    assert FirstFailing(b, cands, NoFaults) == |cands|;
    assert cands[..|cands|] == cands;
  }

  /** Repeating `check_and_award` with the same arguments returns no names
      and leaves the table unchanged. */
  lemma CheckAndAwardIdempotent(s: Store, b: int, kind: string, value: int, now: int, later: int)
    requires Wf(s)
    requires CheckAndAward(s, b, kind, value, now, NoFaults).r.Ok?
    ensures var s1 := CheckAndAward(s, b, kind, value, now, NoFaults).s;
      CheckAndAward(s1, b, kind, value, later, NoFaults) == Outcome(s1, Ok([]))
  {
    CheckAndAwardSpec(s, b, kind, value, now, NoFaults);
    var s1 := CheckAndAward(s, b, kind, value, now, NoFaults).s;
    CheckAndAwardNoFaults(s1, b, kind, value, later);
    AwardAllNoop(s1.earned, b, Candidates(s1.achievements, kind, value), later);
  }

  /** `award_achievement`: one insert with on-conflict-do-nothing. */
  function AwardAchievement(s: Store, b: int, aid: int, now: int, f: Faults): (o: Outcome<()>)
    ensures o.r.Ok? <==> !AwardFails(f, (b, aid))
    ensures o.r.Ok? ==> (b, aid) in o.s.earned
    ensures forall k :: k in s.earned ==> k in o.s.earned && o.s.earned[k] == s.earned[k]
    ensures forall k :: k in o.s.earned && k != (b, aid) ==> k in s.earned
  {
    if AwardFails(f, (b, aid)) then Outcome(s, Err(StoreFailure(f.detail)))
    else if (b, aid) in s.earned then Outcome(s, Ok(()))
    else Outcome(s.(earned := s.earned[(b, aid) := now]), Ok(()))
  }

  /** Awarding the same achievement twice is awarding it once. */
  lemma AwardAchievementIdempotent(s: Store, b: int, aid: int, now: int, later: int)
    ensures var s1 := AwardAchievement(s, b, aid, now, NoFaults).s;
      AwardAchievement(s1, b, aid, later, NoFaults).s == s1
  {
  }

  /** A `brawler_achievements` row as the left join returns it. */
  datatype EarnedRow = EarnedRow(brawlerId: int, achievementId: int, earnedAt: int)

  /** `get_by_brawler_id`: every achievement, paired with the brawler's
      earned row when there is one (a left join). */
  function GetByBrawlerId(s: Store, b: int, f: Faults): (r: Result<seq<(Achievement, Option<EarnedRow>)>, Error>)
    ensures r.Ok? <==> !Fails(f, AchievementRead)
    ensures r.Ok? ==> |r.value| == |s.achievements|
    ensures r.Ok? ==> forall i :: 0 <= i < |r.value| ==>
      r.value[i].0 == s.achievements[i]
      && (r.value[i].1.Some? <==> (b, s.achievements[i].id) in s.earned)
    ensures r.Ok? ==> forall i :: 0 <= i < |r.value| && r.value[i].1.Some? ==>
      r.value[i].1.value == EarnedRow(b, s.achievements[i].id, s.earned[(b, s.achievements[i].id)])
  {
    if Fails(f, AchievementRead) then Err(StoreFailure(f.detail))
    else
      Ok(seq(|s.achievements|, i requires 0 <= i < |s.achievements| =>
        var a := s.achievements[i];
        (a, if (b, a.id) in s.earned then Some(EarnedRow(b, a.id, s.earned[(b, a.id)])) else None)))
  }
}
