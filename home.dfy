/** The home page's card images and rank title. */
module Home {
  import opened Wrappers
  import opened Text
  import Leaderboard

  /** The four stacked card images, in order. */
  const CardImages: seq<string> := [
    "/assets/card/card-img-01.jpg",
    "/assets/card/card-img-02.jpg",
    "/assets/card/card-img-03.jpg",
    "/assets/card/card-img-04.jpg"]

  /** JavaScript's `%`: the remainder takes the sign of the dividend. */
  function JsRem(a: int, b: int): (r: int)
    requires b > 0
    ensures a >= 0 ==> r == a % b
    ensures -b < r < b
  {
    if a >= 0 then a % b else -((-a) % b)
  }

  /** `getStackedCardImage(index)`: `images[index % 4]`, which is
      `undefined` when a negative index leaves a negative remainder. */
  function StackedCardImage(index: int): (r: Option<string>)
    ensures index >= 0 ==> r == Some(CardImages[index % 4])
    ensures index < 0 ==> (r.None? <==> index % 4 != 0)
  {
    var k := JsRem(index, |CardImages|);
    if 0 <= k then Some(CardImages[k]) else None
  }

  /** The images repeat with period 4 over non-negative indices. */
  lemma StackedCardPeriodic(index: int)
    requires index >= 0
    ensures StackedCardImage(index) == StackedCardImage(index + 4)
  {
  }

  /** `getMissionImage(mission)`: the mission's `image_url` when truthy,
      otherwise the first stacked image; never empty. */
  function MissionImage(imageUrl: Option<string>): (r: string)
    ensures imageUrl.Some? && imageUrl.value != [] ==> r == imageUrl.value
    ensures imageUrl.None? || imageUrl.value == [] ==> r == CardImages[0]
    ensures r != []
  {
    if imageUrl.Some? && imageUrl.value != [] then imageUrl.value
    else StackedCardImage(0).value
  }

  /** `getRankTitle` of the home page: the leaderboard's five thresholds,
      written out again in the source. */
  function RankTitle(missions: int): (r: string)
    ensures r == Leaderboard.RankTitle(missions)
  {
    if missions >= 50 then "Challenger"
    else if missions >= 20 then "Grandmaster"
    else if missions >= 10 then "Master"
    else if missions >= 5 then "Diamond"
    else "Platinum"
  }
}
