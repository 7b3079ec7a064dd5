/** The leaderboard's rank titles and success rate. */
module Leaderboard {
  import opened Text

  /** The five titles, lowest first. */
  const Titles: seq<string> := ["Platinum", "Diamond", "Master", "Grandmaster", "Challenger"]

  /** The tier a mission count reaches: thresholds 5, 10, 20 and 50. */
  function Tier(missions: int): (t: nat)
    ensures t < |Titles|
    ensures t == 4 <==> missions >= 50
    ensures t == 3 <==> 20 <= missions < 50
    ensures t == 2 <==> 10 <= missions < 20
    ensures t == 1 <==> 5 <= missions < 10
    ensures t == 0 <==> missions < 5
  {
    if missions >= 50 then 4
    else if missions >= 20 then 3
    else if missions >= 10 then 2
    else if missions >= 5 then 1
    else 0
  }

  /** `getRankTitle(missions)`: the title of the tier the count reaches. */
  function RankTitle(missions: int): (r: string)
    ensures r in Titles
    ensures r == "Challenger" <==> missions >= 50
    ensures r == "Grandmaster" <==> 20 <= missions < 50
    ensures r == "Master" <==> 10 <= missions < 20
    ensures r == "Diamond" <==> 5 <= missions < 10
    ensures r == "Platinum" <==> missions < 5
  {
    if missions >= 50 then "Challenger"
    else if missions >= 20 then "Grandmaster"
    else if missions >= 10 then "Master"
    else if missions >= 5 then "Diamond"
    else "Platinum"
  }

  /** The title is the tier's entry in `Titles`. */
  lemma RankTitleIsTier(missions: int)
    ensures RankTitle(missions) == Titles[Tier(missions)]
  {
  }

  /** More missions never give a lower title. */
  lemma RankMonotone(a: int, b: int)
    requires a <= b
    ensures Tier(a) <= Tier(b)
  {
  }

  /** `Math.round(num / den)` on exact rationals: the nearest integer, halves
      rounded up. */
  function RoundDiv(num: int, den: int): (q: int)
    requires den != 0
    ensures den > 0 ==> q * 2 * den <= 2 * num + den < (q + 1) * 2 * den
  {
    if den > 0 then (2 * num + den) / (2 * den) else (-2 * num - den) / (-2 * den)
  }

  /** `getSuccessRate(success, join)`: "0%" when no mission was joined,
      otherwise the rounded percentage followed by '%'. */
  function SuccessRate(success: int, join: int): (r: string)
    ensures join == 0 ==> r == "0%"
    ensures |r| >= 2 && r[|r| - 1] == '%'
    ensures join != 0 ==> r == IntToString(RoundDiv(100 * success, join)) + "%"
  {
    if join == 0 then "0%"
    else
      var digits := IntToString(RoundDiv(100 * success, join));
      assert |digits| >= 1;
      digits + "%"
  }

  /** With no more successes than joins the rate lies in [0, 100]. */
  lemma RateInRange(success: int, join: int)
    requires 0 <= success <= join && join > 0
    ensures 0 <= RoundDiv(100 * success, join) <= 100
  {
    var q := RoundDiv(100 * success, join);
    var d := 2 * join;
    var n := 200 * success + join;
    assert q * d <= n < (q + 1) * d;
    assert 0 < n < 101 * d;
    if q >= 101 {
      MulMonotone(101, q, d);
    } else if q < 0 {
      MulMonotone(q + 1, 0, d);
    }
  }

  /** Multiplying by a positive number keeps order. */
  lemma MulMonotone(a: int, b: int, d: int)
    requires a <= b && d > 0
    ensures a * d <= b * d
  {
    assert b * d - a * d == (b - a) * d;
  }

  /** One success out of three joins reads "33%", two of three "67%". */
  lemma RateSamples()
    ensures RoundDiv(100, 3) == 33 && RoundDiv(200, 3) == 67 && RoundDiv(100, 2) == 50
  {
  }
}
