/** The experience points and level the client derives from the signed-in
    member's passport counters. */
module PassportStats {
  import opened Wrappers

  /** The counters of the stored `Passport`; both fields are optional. */
  datatype Passport = Passport(successCount: Option<int>, joinCount: Option<int>)

  /** `n || 0` for an optional count. */
  function CountOr0(n: Option<int>): int {
    if n.Some? then n.value else 0
  }

  /** The `xp` signal: 500 per completed mission and 100 per joined one, with
      missing counts read as 0 and no passport giving 0. */
  function Xp(p: Option<Passport>): (xp: int)
    ensures p.None? ==> xp == 0
    ensures p.Some? ==> xp == 500 * CountOr0(p.value.successCount) + 100 * CountOr0(p.value.joinCount)
    ensures p.Some? && CountOr0(p.value.successCount) >= 0 && CountOr0(p.value.joinCount) >= 0 ==> xp >= 0
  {
    match p
    case None => 0
    case Some(q) => CountOr0(q.successCount) * 500 + CountOr0(q.joinCount) * 100
  }

  /** The `level` signal: `Math.floor(xp / 1000) + 1`. Dafny's `/` on a
      positive divisor rounds down, as `Math.floor` does. */
  function Level(p: Option<Passport>): (level: int)
    ensures Xp(p) >= 0 ==> level >= 1
    ensures (level - 1) * 1000 <= Xp(p) < level * 1000
  {
    Xp(p) / 1000 + 1
  }

  /** Non-negative counters give a level of at least 1. */
  lemma LevelAtLeastOne(p: Passport)
    requires CountOr0(p.successCount) >= 0 && CountOr0(p.joinCount) >= 0
    ensures Level(Some(p)) >= 1
  {
  }

  /** Raising either counter never lowers the experience or the level. */
  lemma Monotone(p: Passport, q: Passport)
    requires CountOr0(p.successCount) <= CountOr0(q.successCount)
    requires CountOr0(p.joinCount) <= CountOr0(q.joinCount)
    ensures Xp(Some(p)) <= Xp(Some(q))
    ensures Level(Some(p)) <= Level(Some(q))
  {
    var a, b := Xp(Some(p)), Xp(Some(q));
    assert 500 * CountOr0(p.successCount) <= 500 * CountOr0(q.successCount);
    assert 100 * CountOr0(p.joinCount) <= 100 * CountOr0(q.joinCount);
    assert a / 1000 <= b / 1000;
  }

  /** Two completions and three joins: 1300 points, level 2. */
  lemma Sample()
    ensures Xp(Some(Passport(Some(2), Some(3)))) == 1300
    ensures Level(Some(Passport(Some(2), Some(3)))) == 2
    ensures Level(Some(Passport(None, None))) == 1
  {
  }
}
