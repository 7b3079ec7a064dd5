/** `AchievementUseCase::get_my_achievements`: every achievement with
    whether the brawler has earned it. */
module AchievementsView {
  import opened Wrappers
  import opened Domain
  import AchievementTable

  /** `AchievementViewModel`. */
  datatype AchievementView = AchievementView(
    id: int,
    name: string,
    description: Option<string>,
    iconUrl: Option<string>,
    isEarned: bool,
    earnedAt: Option<int>)

  /** The `map` closure: copy the achievement's columns, and derive
      `is_earned` and `earned_at` from the optional earned row. */
  function ToView(a: Achievement, row: Option<AchievementTable.EarnedRow>): (v: AchievementView)
    ensures v.id == a.id && v.name == a.name && v.description == a.description && v.iconUrl == a.iconUrl
    ensures v.isEarned <==> row.Some?
    ensures v.earnedAt == if row.Some? then Some(row.value.earnedAt) else None
  {
    AchievementView(a.id, a.name, a.description, a.iconUrl, row.Some?,
                    match row case Some(r) => Some(r.earnedAt) case None => None)
  }

  /** One view per pair, in order. */
  function Views(data: seq<(Achievement, Option<AchievementTable.EarnedRow>)>): (r: seq<AchievementView>)
    ensures |r| == |data|
    ensures forall i :: 0 <= i < |data| ==> r[i] == ToView(data[i].0, data[i].1)
  {
    seq(|data|, i requires 0 <= i < |data| => ToView(data[i].0, data[i].1))
  }

  /** `get_my_achievements(brawler_id)`; a repository error propagates. */
  function GetMyAchievements(s: Store, b: int, f: Faults): Result<seq<AchievementView>, Error> {
    match AchievementTable.GetByBrawlerId(s, b, f)
    case Err(e) => Err(e)
    case Ok(data) => Ok(Views(data))
  }

  /** The view lists every achievement in table order, with its own
      columns, marked earned exactly when the brawler has its row, and
      carrying that row's `earned_at`. */
  lemma MyAchievementsSpec(s: Store, b: int, f: Faults)
    ensures GetMyAchievements(s, b, f).Ok? <==> !Fails(f, AchievementRead)
    ensures var r := GetMyAchievements(s, b, f);
      r.Ok? ==> |r.value| == |s.achievements|
    ensures var r := GetMyAchievements(s, b, f);
      r.Ok? ==> forall i :: 0 <= i < |r.value| ==>
        r.value[i].id == s.achievements[i].id && r.value[i].name == s.achievements[i].name
        && (r.value[i].isEarned <==> (b, s.achievements[i].id) in s.earned)
        && r.value[i].earnedAt == if (b, s.achievements[i].id) in s.earned then Some(s.earned[(b, s.achievements[i].id)]) else None
  {
  }
}
