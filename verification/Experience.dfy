/** Experience and levels of players and their skills (common/living.cpp). */
module Experience {
  import opened Common

  /** The experience table, the part of all gains that is permanent, and what a death costs. */
  datatype Settings = Settings(levels: seq<int>, permanentRatio: int, deathRatio: int, deathLevels: int) {
    function MaxLevel(): int {
      |levels| - 1
    }

    /** What init_experience and the settings file check. */
    ghost predicate Valid() {
      && |levels| >= 2 && levels[0] == 0 && levels[1] >= 0
      && (forall i, j :: 1 <= i < j < |levels| ==> levels[i] < levels[j])
      && 0 <= permanentRatio <= 100 && 0 <= deathRatio <= 100 && deathLevels >= 0
    }

    function MaxExperience(): int
      requires |levels| >= 2
    {
      levels[MaxLevel()]
    }

    function MaxTotal(): int
      requires |levels| >= 2
    {
      if permanentRatio == 0 then 0 else MaxExperience() * 100 / permanentRatio
    }

    /** PERM_EXP: the experience that cannot be lost. */
    function Permanent(total: int): int {
      total * permanentRatio / 100
    }

    /** level_exp. */
    function LevelExp(level: int, expmul: real): int
      requires |levels| >= 2 && 0 <= level
    {
      (expmul * levels[if level > MaxLevel() then MaxLevel() else level] as real).Floor
    }

    /** The level that belongs to an amount of experience. */
    ghost predicate Matches(exp: int, level: int, expmul: real)
      requires |levels| >= 2
    {
      && 1 <= level <= MaxLevel()
      && (level == 1 || exp >= LevelExp(level, expmul))
      && (level == MaxLevel() || exp < LevelExp(level + 1, expmul))
    }
  }

  // ---------------------------------------------------------------------------------------
  // Levels
  // ---------------------------------------------------------------------------------------

  lemma Scale(m: real, a: int, b: int)
    requires m >= 0.0 && a <= b
    ensures (m * a as real).Floor <= (m * b as real).Floor
  {
    assert m * (b - a) as real >= 0.0;
    assert m * b as real == m * a as real + m * (b - a) as real;
  }

  lemma LevelExpGrows(s: Settings, i: int, j: int, m: real)
    requires s.Valid() && m >= 0.0 && 1 <= i <= j <= s.MaxLevel()
    ensures s.LevelExp(i, m) <= s.LevelExp(j, m)
  {
    var a, b := s.levels[i], s.levels[j];
    assert i == j || s.levels[i] < s.levels[j];
    assert s.LevelExp(i, m) == (m * a as real).Floor && s.LevelExp(j, m) == (m * b as real).Floor;
    Scale(m, a, b);
  }

  /** The level that an amount of experience is enough for, in the numbers of the table. */
  lemma MatchesIff(s: Settings, exp: int, level: int, m: real)
    requires s.Valid() && m >= 0.0
    ensures s.Matches(exp, level, m) <==>
      && 1 <= level < |s.levels|
      && (level == 1 || m * s.levels[level] as real < (exp + 1) as real)
      && (level == |s.levels| - 1 || (exp + 1) as real <= m * s.levels[level + 1] as real)
  {}

  /** There is only one level for an amount of experience. */
  lemma LevelIsUnique(s: Settings, exp: int, a: int, b: int, m: real)
    requires s.Valid() && m >= 0.0 && s.Matches(exp, a, m) && s.Matches(exp, b, m)
    ensures a == b
  {
    if a < b {
      LevelExpGrows(s, a + 1, b, m);
    } else if b < a {
      LevelExpGrows(s, b + 1, a, m);
    }
  }

  /** exp_level: the level from the table alone. */
  method ExpLevel(s: Settings, exp: int) returns (level: int)
    requires s.Valid()
    ensures s.Matches(exp, level, 1.0)
  {
    level := 1;
    while level < s.MaxLevel() && s.levels[level + 1] <= exp
      invariant 1 <= level <= s.MaxLevel() && (level == 1 || exp >= s.levels[level])
    {
      level := level + 1;
    }
  }

  lemma MaxIsNotNegative(s: Settings)
    requires s.Valid()
    ensures s.MaxExperience() >= 0
  {
    assert s.MaxLevel() == 1 || s.levels[1] < s.levels[s.MaxLevel()];
  }

  // ---------------------------------------------------------------------------------------
  // Gains and losses
  // ---------------------------------------------------------------------------------------

  /** With the most experience there can be, the last level is reached, and no entry of the table is beyond
      it; and totals may grow as long as their permanent part is no more than that. */
  lemma LimitsAre(s: Settings, level: int, total: int)
    requires s.Valid()
    ensures s.Matches(s.MaxExperience(), |s.levels| - 1, 1.0)
    ensures 1 <= level < |s.levels| ==> s.levels[level] <= s.MaxExperience()
    ensures exists k :: 0 <= k < |s.levels| && s.levels[k] == s.MaxExperience()
    ensures s.permanentRatio > 0 ==> (total <= s.MaxTotal() <==> total * s.permanentRatio <= 100 * s.MaxExperience())
  {
    var last := |s.levels| - 1;
    assert s.levels[last] == s.MaxExperience();
    if 1 <= level < last {
      assert s.levels[level] < s.levels[last];
    }
    MaxIsNotNegative(s);
    if s.permanentRatio > 0 {
      QuotientIff(s.MaxExperience() * 100, s.permanentRatio, total);
    }
  }

  lemma QuotientIff(m: int, r: int, x: int)
    requires r > 0
    ensures x <= m / r <==> x * r <= m
  {
    var q := m / r;
    assert q * r <= m < (q + 1) * r;
    TimesUp(x, q, r);
    TimesUp(q + 1, x, r);
  }

  lemma TimesUp(a: int, b: int, r: int)
    requires r > 0
    ensures a <= b ==> a * r <= b * r
  {}

  /** What every skill keeps. */
  ghost predicate Bounded(s: Settings, exp: int, total: int)
    requires |s.levels| >= 2
  {
    && 0 <= total && (s.permanentRatio > 0 ==> total <= s.MaxTotal())
    && 0 <= exp && s.Permanent(total) <= exp <= s.MaxExperience()
  }

  /** calc_perm_exp on the total. */
  function Capped(s: Settings, exp: int, total: int): int
    requires |s.levels| >= 2 && s.permanentRatio > 0
  {
    var t := if total < exp then exp else total;
    if t < 0 then 0 else if t > s.MaxTotal() then s.MaxTotal() else t
  }

  /** At most 100 of 100 parts of what is added become permanent. */
  lemma PermanentOfSum(s: Settings, total: int, d: int)
    requires s.Valid() && 0 <= d
    ensures s.Permanent(total + d) <= s.Permanent(total) + d
  {
    var r := s.permanentRatio;
    assert d * r <= d * 100;
    assert (total + d) * r == total * r + d * r;
    assert (total + d) * r <= total * r + d * 100;
  }

  lemma PermanentGrows(s: Settings, a: int, b: int)
    requires s.Valid() && a <= b
    ensures s.Permanent(a) <= s.Permanent(b)
  {
    assert a * s.permanentRatio <= b * s.permanentRatio;
  }

  lemma PermanentIsPart(s: Settings, exp: int)
    requires s.Valid() && 0 <= exp
    ensures 0 <= s.Permanent(exp) <= exp
  {
    assert 0 <= exp * s.permanentRatio <= exp * 100;
  }

  lemma PermanentOfMax(s: Settings, total: int)
    requires s.Valid() && s.permanentRatio > 0 && total <= s.MaxTotal()
    ensures s.Permanent(total) <= s.MaxExperience()
  {
    var m := s.MaxExperience() * 100;
    var q := m / s.permanentRatio;
    assert q * s.permanentRatio <= m;
    PermanentGrows(s, total, q);
  }

  lemma TimesGrows(a: int, b: int, r: int)
    requires 0 < r
    ensures a <= b ==> a * r <= b * r
  {}

  /** There is room for all experience there can be. */
  lemma QuotientGrows(m: int, r: int)
    requires 0 <= m && 0 < r <= 100
    ensures m <= m * 100 / r
  {
    var n := m * 100;
    var q := n / r;
    assert m * r <= n by { assert m * (100 - r) >= 0; }
    assert n < (q + 1) * r by { assert n == q * r + n % r; }
    TimesGrows(q + 1, m, r);
  }

  lemma CappedIsWithin(s: Settings, exp: int, total: int)
    requires s.Valid() && s.permanentRatio > 0
    ensures var t := Capped(s, exp, total);
      && 0 <= t <= s.MaxTotal() && (exp <= s.MaxExperience() ==> exp <= t)
      && (0 <= total <= s.MaxTotal() && exp <= total ==> t == total)
      && (0 <= exp ==> t <= Max(exp, total))
  {
    MaxIsNotNegative(s);
    QuotientGrows(s.MaxExperience(), s.permanentRatio);
  }

  lemma CappedKeepsBound(s: Settings, exp: int, total: int)
    requires s.Valid() && s.permanentRatio > 0 && 0 <= exp <= s.MaxExperience()
    requires exp == s.MaxExperience() || s.Permanent(total) <= exp
    ensures Bounded(s, exp, Capped(s, exp, total))
  {
    var t := Capped(s, exp, total);
    CappedIsWithin(s, exp, total);
    CappedPermanent(s, exp, total, t);
  }

  lemma NothingIsBounded(s: Settings)
    requires s.Valid()
    ensures Bounded(s, 0, 0)
  {
    MaxIsNotNegative(s);
    PermanentIsPart(s, 0);
    if s.permanentRatio > 0 {
      QuotientGrows(s.MaxExperience(), s.permanentRatio);
    }
  }

  lemma CappedPermanent(s: Settings, exp: int, total: int, t: int)
    requires s.Valid() && s.permanentRatio > 0 && 0 <= exp <= s.MaxExperience()
    requires exp == s.MaxExperience() || s.Permanent(total) <= exp
    requires t <= s.MaxTotal() && t <= Max(exp, total)
    ensures s.Permanent(t) <= exp
  {
    if exp == s.MaxExperience() {
      PermanentOfMax(s, t);
    } else {
      PermanentIsPart(s, exp);
      PermanentGrows(s, t, Max(exp, total));
    }
  }

  lemma SumIsPermanentlyBounded(s: Settings, exp: int, total: int, d: int, total': int)
    requires s.Valid() && Bounded(s, exp, total) && 0 <= d && total' <= total + d
    ensures s.Permanent(total') <= exp + d
  {
    PermanentOfSum(s, total, d);
    PermanentGrows(s, total', total + d);
  }

  /** Gains keep the permanent part within the experience. */
  lemma GainKeepsBound(s: Settings, exp: int, total: int, d: int)
    requires s.Valid() && s.permanentRatio > 0 && Bounded(s, exp, total) && 0 <= d
    ensures var exp' := Min(exp + d, s.MaxExperience());
      Bounded(s, exp', Capped(s, exp', Min(total + d, s.MaxTotal())))
  {
    SumIsPermanentlyBounded(s, exp, total, d, Min(total + d, s.MaxTotal()));
    CappedKeepsBound(s, Min(exp + d, s.MaxExperience()), Min(total + d, s.MaxTotal()));
  }

  /** check_exp_loss: never more than there is, nor than half of what is not permanent. */
  function CheckExpLoss(s: Settings, exp: int, total: int, wanted: int): (loss: int)
    ensures loss <= wanted && loss <= exp
    ensures s.permanentRatio > 0 ==> loss <= 0 || 2 * loss <= exp - s.Permanent(total)
    ensures 0 <= wanted && 0 <= exp ==> 0 <= loss
  {
    var w := if wanted > exp then exp else wanted;
    if s.permanentRatio > 0 then Min(w, Max(0, (exp - s.Permanent(total)) / 2)) else w
  }

  /** What is left after a loss. */
  function Left(s: Settings, exp: int, total: int, wanted: int): int {
    exp - CheckExpLoss(s, exp, total, wanted)
  }

  lemma LossKeepsBound(s: Settings, exp: int, total: int, wanted: int)
    requires s.Valid() && Bounded(s, exp, total) && 0 <= wanted
    ensures Bounded(s, Left(s, exp, total, wanted), total)
  {
    PermanentIsPart(s, total);
  }

  /** What a death takes from a skill or a player. */
  function DeathLoss(s: Settings, exp: int, level: int): int
    requires |s.levels| >= 2 && 1 <= level <= s.MaxLevel() && s.deathLevels >= 0
  {
    Min(Max(0, exp - s.levels[Max(0, level - s.deathLevels)]), exp * s.deathRatio / 100)
  }

  lemma PartOf(exp: int, ratio: int)
    requires 0 <= exp && 0 <= ratio <= 100
    ensures 0 <= exp * ratio <= exp * 100
  {}

  lemma DeathLossIsNotNegative(s: Settings, exp: int, level: int)
    requires s.Valid() && 1 <= level <= s.MaxLevel() && 0 <= exp
    ensures 0 <= DeathLoss(s, exp, level) <= exp
  {
    PartOf(exp, s.deathRatio);
  }

  /** The most that can be gained at once. */
  function GainLimit(s: Settings, level: int): (limit: int)
    requires s.Valid() && 1 <= level <= s.MaxLevel()
    ensures 0 <= limit
  {
    if level == s.MaxLevel() then s.levels[level] / 2
    else
      assert s.levels[level] < s.levels[level + 1];
      (s.levels[level + 1] - s.levels[level]) / 2
  }

  /** What is lost is the largest amount that is wanted, that there is to lose, and that leaves half of what
      is not permanent. */
  lemma LossIsLargest(s: Settings, exp: int, total: int, wanted: int, x: int)
    ensures x <= exp - Left(s, exp, total, wanted) <==>
      && x <= wanted && x <= exp
      && (s.permanentRatio > 0 && x > 0 ==> 2 * x <= exp - total * s.permanentRatio / 100)
  {}

  /** A death takes the most that is no more than the given part of the experience, and that leaves what
      the level needs that is so many levels lower. */
  lemma DeathLossIsLargest(s: Settings, exp: int, level: int, x: int)
    requires s.Valid() && 1 <= level <= s.MaxLevel() && 0 <= exp
    ensures var lower := if level >= s.deathLevels then level - s.deathLevels else 0;
      x <= DeathLoss(s, exp, level) <==> 100 * x <= exp * s.deathRatio && (x > 0 ==> s.levels[lower] <= exp - x)
  {
    DeathLossIsNotNegative(s, exp, level);
    var part := exp * s.deathRatio;
    assert 100 * x <= part <==> x <= part / 100;
  }

  /** A gain is limited to half of what the next level needs more than this one, or of all at the last. */
  lemma GainLimitIsHalf(s: Settings, level: int)
    requires s.Valid() && 1 <= level <= s.MaxLevel()
    ensures var step := if level == s.MaxLevel() then s.levels[level] else s.levels[level + 1] - s.levels[level];
      step - 1 <= 2 * GainLimit(s, level) <= step
  {}

  // ---------------------------------------------------------------------------------------
  // Players and skills
  // ---------------------------------------------------------------------------------------

  datatype Flag = AddSkill | TotalOnly | Nothing | SubtractSkill

  /** The experience of a player or of one skill. */
  class Learner {
    const name: string
    const expmul: real
    var exp: int
    var total: int
    var level: int

    constructor (name: string, expmul: real)
      ensures this.name == name && this.expmul == expmul && exp == total == 0 && level == 1
    {
      this.name, this.expmul, exp, total, level := name, expmul, 0, 0, 1;
    }

    /** player_lvl_adj: up or down to the level that belongs to the experience. */
    method AdjustLevel(s: Settings, expmul: real)
      requires s.Valid() && 1 <= level <= s.MaxLevel() && expmul >= 0.0
      modifies `level
      ensures s.Matches(exp, level, expmul)
    {
      if level < s.MaxLevel() && exp >= s.LevelExp(level + 1, expmul) {
        level := level + 1;
        while level < s.MaxLevel() && exp >= s.LevelExp(level + 1, expmul)
          invariant 1 <= level <= s.MaxLevel() && exp >= s.LevelExp(level, expmul)
          decreases s.MaxLevel() - level
        {
          level := level + 1;
        }
      } else if level > 1 && exp < s.LevelExp(level, expmul) {
        level := level - 1;
        while level > 1 && exp < s.LevelExp(level, expmul)
          invariant 1 <= level < s.MaxLevel() && exp < s.LevelExp(level + 1, expmul)
          decreases level
        {
          level := level - 1;
        }
      }
    }

    /** calc_perm_exp. */
    method CalcPermExp(s: Settings)
      requires s.Valid() && s.permanentRatio > 0
      modifies `total
      ensures total == Capped(s, exp, old(total))
      ensures 0 <= total <= s.MaxTotal() && (exp <= s.MaxExperience() ==> exp <= total)
      ensures 0 <= old(total) <= s.MaxTotal() && exp <= old(total) ==> total == old(total)
    {
      CappedIsWithin(s, exp, total);
      if total < exp {
        total := exp;
      }
      if total < 0 {
        total := 0;
      } else if total > s.MaxExperience() * 100 / s.permanentRatio {
        total := s.MaxExperience() * 100 / s.permanentRatio;
      }
    }

    /** ADD_EXP and, where experience is permanent, ADD_TOTALEXP; how much of each there was room for. */
    method Add(s: Settings, d: int, dTotal: int) returns (got: int, gotTotal: int)
      requires s.Valid()
      modifies `exp, `total
      ensures exp == Min(old(exp) + d, s.MaxExperience())
      ensures total == if s.permanentRatio > 0 then Capped(s, exp, Min(old(total) + dTotal, s.MaxTotal()))
                       else old(total)
      ensures got == exp - old(exp)
      ensures gotTotal == if s.permanentRatio > 0 then Min(old(total) + dTotal, s.MaxTotal()) - old(total) else 0
    {
      got, gotTotal := exp, total;
      exp := exp + d;
      if exp > s.MaxExperience() {
        exp := s.MaxExperience();
      }
      got, gotTotal := exp - got, 0;
      if s.permanentRatio > 0 {
        gotTotal := total;
        total := total + dTotal;
        if total > s.MaxTotal() {
          total := s.MaxTotal();
        }
        gotTotal := total - gotTotal;
        CalcPermExp(s);
      }
    }

    /** A loss as far as it is allowed. */
    method Lose(s: Settings, wanted: int, expmul: real)
      requires s.Valid() && 1 <= level <= s.MaxLevel() && expmul >= 0.0
      modifies `exp, `level
      ensures exp == old(exp) - CheckExpLoss(s, old(exp), total, wanted) && s.Matches(exp, level, expmul)
    {
      exp := exp - CheckExpLoss(s, exp, total, wanted);
      AdjustLevel(s, expmul);
    }
  }

  function Scaled(d: int, mul: real): int {
    (d as real * mul).Floor
  }

  lemma ScaledIsNotNegative(d: int, mul: real)
    requires 0 <= d && mul >= 0.0
    ensures 0 <= Scaled(d, mul)
  {
    assert d as real * mul >= 0.0;
  }

  /** The part of a skill's experience that a loss takes, when the whole loses so much. */
  function Share(exp: int, loss: int, whole: int): int {
    if whole == 0 then 0 else (exp as real * (loss as real / whole as real)).Floor
  }

  lemma ShareIsNotNegative(exp: int, loss: int, whole: int)
    requires 0 <= exp && 0 <= loss && 0 <= whole
    ensures 0 <= Share(exp, loss, whole)
  {
    if whole > 0 {
      var f := loss as real / whole as real;
      assert f >= 0.0;
      assert exp as real * f >= 0.0;
    }
  }

  /** A skill's gain counts for the player in proportion, rounded down. */
  lemma ScaledIsProportional(d: int, mul: real)
    ensures Scaled(d, mul) as real <= d as real * mul < Scaled(d, mul) as real + 1.0
  {}

  /** A skill's share of a loss is to the loss as the skill is to the whole, rounded down. */
  lemma ShareIsProportional(exp: int, loss: int, whole: int)
    requires whole > 0
    ensures Share(exp, loss, whole) * whole <= exp * loss < (Share(exp, loss, whole) + 1) * whole
  {
    var n := Share(exp, loss, whole);
    FloorOfQuotient(exp as real, loss as real, whole as real, n as real, (n + 1) as real);
    Product(n, whole);
    Product(n + 1, whole);
    Product(exp, loss);
    assert (n * whole) as real <= (exp * loss) as real < ((n + 1) * whole) as real;
  }

  lemma FloorOfQuotient(a: real, b: real, c: real, n: real, next: real)
    requires c > 0.0 && n <= a * (b / c) < next
    ensures n * c <= a * b < next * c
  {
    Quotient(a, b, c);
    Scaling(n, a * (b / c), c);
    Scaling(a * (b / c), next, c);
  }

  lemma Product(a: int, b: int)
    ensures (a * b) as real == a as real * b as real
  {}

  lemma Quotient(a: real, b: real, c: real)
    requires c > 0.0
    ensures a * (b / c) * c == a * b
  {
    assert b / c * c == b;
    assert a * (b / c) * c == a * (b / c * c);
  }

  lemma Scaling(a: real, b: real, c: real)
    requires c > 0.0
    ensures (a <= b ==> a * c <= b * c) && (a < b ==> a * c < b * c)
  {}

  /** What a skill is to lose of a loss: all of it if it is the one, its share if all skills lose. */
  function Wanted(name: string, exp: int, loss: int, whole: int, skill: Option<string>, flag: Flag): int {
    if exp == 0 then 0
    else if flag.SubtractSkill? then (if skill == Some(name) then loss else 0)
    else Share(exp, loss, whole)
  }

  /** A player with the skills in the inventory. */
  class Player {
    const me: Learner
    var skills: seq<Learner>
    var chosen: Learner?

    ghost predicate SkillOk(s: Settings, sk: Learner)
      requires |s.levels| >= 2
      reads sk
    {
      Bounded(s, sk.exp, sk.total) && s.Matches(sk.exp, sk.level, me.expmul) && sk.expmul >= 0.0
    }

    ghost predicate MeOk(s: Settings)
      requires |s.levels| >= 2
      reads me
    {
      && 0 <= me.exp <= s.MaxExperience() && 0 <= me.total
      && s.Matches(me.exp, me.level, me.expmul) && me.expmul >= 0.0
    }

    /** Each skill keeps its bounds and has the level for its experience, and so has the player. */
    ghost predicate Valid(s: Settings)
      reads this, me, skills
    {
      && s.Valid() && me !in skills && (chosen != null ==> chosen in skills)
      && (forall i, j :: 0 <= i < j < |skills| ==> Apart(skills, i, j))
      && (forall i :: 0 <= i < |skills| ==> SkillOk(s, skills[i]))
      && MeOk(s)
    }

    constructor (s: Settings, me: Learner)
      requires s.Valid() && me.exp == me.total == 0 && me.level == 1 && me.expmul >= 0.0
      requires s.Matches(0, 1, me.expmul)
      ensures Valid(s) && this.me == me && skills == []
    {
      MaxIsNotNegative(s);
      this.me, skills, chosen := me, [], null;
    }

    /** A skill that may have to change its level. */
    ghost predicate SkillBounded(s: Settings, sk: Learner)
      requires |s.levels| >= 2
      reads sk
    {
      Bounded(s, sk.exp, sk.total) && 1 <= sk.level <= s.MaxLevel() && sk.expmul >= 0.0
    }

    /** The gain of one skill, and how much came of it. */
    method GainSkill(s: Settings, sk: Learner, exp: int) returns (got: int, gotTotal: int)
      requires s.Valid() && 0 <= exp && SkillBounded(s, sk) && me.expmul >= 0.0
      modifies sk
      ensures SkillOk(s, sk) && 0 <= got == sk.exp - old(sk.exp)
      ensures sk.exp == Min(old(sk.exp) + Min(exp, GainLimit(s, old(sk.level))), s.MaxExperience())
      ensures gotTotal == if s.permanentRatio == 0 then 0
                          else Min(Min(exp, GainLimit(s, old(sk.level))), s.MaxTotal() - old(sk.total))
      ensures 0 <= gotTotal
    {
      var d := Min(exp, GainLimit(s, sk.level));
      if s.permanentRatio > 0 {
        GainKeepsBound(s, sk.exp, sk.total, d);
      }
      got, gotTotal := sk.Add(s, d, d);
      sk.AdjustLevel(s, me.expmul);
    }

    /** The gain of the player. */
    method GainSelf(s: Settings, d: int, dTotal: int)
      requires s.Valid() && MeOk(s) && 0 <= d && 0 <= dTotal
      modifies me
      ensures MeOk(s) && me.exp == Min(old(me.exp) + d, s.MaxExperience())
    {
      if s.permanentRatio > 0 {
        CappedIsWithin(s, Min(me.exp + d, s.MaxExperience()), Min(me.total + dTotal, s.MaxTotal()));
      }
      MaxIsNotNegative(s);
      var got, gotTotal := me.Add(s, d, dTotal);
      assert me.total >= 0 && 0 <= me.exp <= s.MaxExperience();
      me.AdjustLevel(s, me.expmul);
    }

    /** The chosen skill if it is the one, else the first with the name. */
    function Known(skill: string): (sk: Learner?)
      reads this
      ensures sk != null ==> sk.name == skill && (sk == chosen || sk in skills)
      ensures sk == null ==> forall i :: 0 <= i < |skills| ==> skills[i].name != skill
      ensures chosen != null && chosen.name == skill ==> sk == chosen
    {
      if chosen != null && chosen.name == skill then chosen else FirstNamed(skills, skill)
    }

    static function FirstNamed(all: seq<Learner>, skill: string): (sk: Learner?)
      ensures sk != null ==> sk.name == skill && sk in all
      ensures sk == null ==> forall i :: 0 <= i < |all| ==> all[i].name != skill
    {
      if all == [] then null else if all[0].name == skill then all[0] else FirstNamed(all[1..], skill)
    }

    /** A skill the player did not have. */
    method GiveSkill(s: Settings, skill: string, expmul: real) returns (sk: Learner)
      requires Valid(s) && expmul >= 0.0
      modifies `skills
      ensures fresh(sk) && skills == old(skills) + [sk] && sk.name == skill && sk.expmul == expmul
      ensures sk.exp == sk.total == 0 && sk.level == 1
      ensures forall i, j :: 0 <= i < j < |skills| ==> Apart(skills, i, j)
    {
      ghost var was := skills;
      sk := new Learner(skill, expmul);
      skills := skills + [sk];
      forall i, j | 0 <= i < j < |skills| ensures Apart(skills, i, j) {
        assert j < |was| ==> Apart(was, i, j);
      }
    }

    /** add_player_exp: the skill gains, and the player what came of it times the skill's factor; without
        a skill, the player gains alone. */
    method AddExp(s: Settings, exp: int, skill: Option<string>, flag: Flag, braced: bool, newMul: real)
      requires Valid(s) && 0 <= exp && newMul >= 0.0
      modifies `skills, me, skills
      ensures Valid(s)
      ensures var e := if braced then exp / 5 else exp;
        var sk := if skill.Some? then old(Known(skill.value)) else null;
        && (sk != null ==>
              && sk.exp == Min(old(sk.exp) + Min(e, GainLimit(s, old(sk.level))), s.MaxExperience())
              && me.exp == Min(old(me.exp) + Scaled(sk.exp - old(sk.exp), sk.expmul), s.MaxExperience()))
        && (skill.Some? && sk == null && flag.AddSkill? ==>
              GivenSkill(s, old(skills), old(me.exp), skill.value, newMul, e))
        && (skill.Some? && sk == null && flag.Nothing? ==> me.exp == old(me.exp) && skills == old(skills))
        && (sk == null && (skill == None || (!flag.Nothing? && !flag.AddSkill?)) ==>
              me.exp == Min(old(me.exp) + Min(e, GainLimit(s, old(me.level))), s.MaxExperience()))
        && (forall k :: 0 <= k < |old(skills)| && old(skills[k]) != sk ==> old(skills)[k].exp == old(skills[k].exp))
    {
      var e := if braced then exp / 5 else exp;
      var sk: Learner? := if skill.Some? then Known(skill.value) else null;
      if sk != null {
        GainOfSkill(s, sk, e);
      } else if skill.Some? && flag.Nothing? {
        return;
      } else if skill.Some? && flag.AddSkill? {
        GainNewSkill(s, skill.value, newMul, e);
      } else {
        var d := Min(e, GainLimit(s, me.level));
        GainSelf(s, d, d);
      }
    }

    /** There is one skill more than there was: it has gained from nothing, and the player from it. */
    ghost predicate GivenSkill(s: Settings, was: seq<Learner>, exp: int, skill: string, newMul: real, e: int)
      requires s.Valid()
      reads this, me, skills
    {
      && |skills| == |was| + 1 && skills[..|was|] == was
      && var sk := skills[|was|];
         && sk.name == skill && sk.expmul == newMul
         && sk.exp == Min(Min(e, GainLimit(s, 1)), s.MaxExperience())
         && me.exp == Min(exp + Scaled(sk.exp, newMul), s.MaxExperience())
    }

    /** A skill is given to the player and gains at once. */
    method GainNewSkill(s: Settings, skill: string, newMul: real, e: int)
      requires Valid(s) && 0 <= e && newMul >= 0.0
      modifies `skills, me
      ensures Valid(s) && GivenSkill(s, old(skills), old(me.exp), skill, newMul, e)
    {
      var sk := GiveSkill(s, skill, newMul);
      NothingIsBounded(s);
      GainOfSkill(s, sk, e);
    }

    /** Everything but this skill is in order. */
    ghost predicate ValidBut(s: Settings, sk: Learner)
      reads this, me, skills
    {
      && s.Valid() && me !in skills && (chosen != null ==> chosen in skills)
      && (forall i, j :: 0 <= i < j < |skills| ==> Apart(skills, i, j))
      && (forall i :: 0 <= i < |skills| && skills[i] != sk ==> SkillOk(s, skills[i]))
      && MeOk(s)
    }

    /** The gain of a skill, and of the player from it. */
    method GainOfSkill(s: Settings, sk: Learner, e: int)
      requires ValidBut(s, sk) && sk in skills && SkillBounded(s, sk) && 0 <= e
      modifies me, sk
      ensures Valid(s)
      ensures sk.exp == Min(old(sk.exp) + Min(e, GainLimit(s, old(sk.level))), s.MaxExperience())
      ensures me.exp == Min(old(me.exp) + Scaled(sk.exp - old(sk.exp), sk.expmul), s.MaxExperience())
    {
      var got, gotTotal := GainSkill(s, sk, e);
      ScaledIsNotNegative(got, sk.expmul);
      ScaledIsNotNegative(gotTotal, sk.expmul);
      GainSelf(s, Scaled(got, sk.expmul), Scaled(gotTotal, sk.expmul));
    }

    /** The loss of one skill; the others stay as they are. */
    method LoseSkill(s: Settings, i: nat, wanted: int)
      requires Valid(s) && i < |skills| && 0 <= wanted
      modifies skills[i]
      ensures Valid(s) && skills[i].exp == Left(s, old(skills[i].exp), old(skills[i].total), wanted)
      ensures forall k :: 0 <= k < |skills| && k != i ==> unchanged(skills[k])
    {
      var sk := skills[i];
      LossKeepsBound(s, sk.exp, sk.total, wanted);
      forall k | 0 <= k < |skills| && k != i ensures skills[k] != sk {
        assert Apart(skills, if k < i then k else i, if k < i then i else k);
      }
      sk.Lose(s, wanted, me.expmul);
    }

    /** The loss of the player. */
    method LoseSelf(s: Settings, wanted: int)
      requires Valid(s) && 0 <= wanted
      modifies me
      ensures Valid(s) && me.exp == Left(s, old(me.exp), old(me.total), wanted)
    {
      me.Lose(s, wanted, me.expmul);
    }

    /** subtract_player_exp on one skill. */
    method SubtractSkillExp(s: Settings, i: nat, loss: int, whole: int, skill: Option<string>, flag: Flag)
      requires Valid(s) && i < |skills| && 0 <= loss && 0 <= whole
      modifies skills[i]
      ensures Valid(s)
      ensures skills[i].exp == Left(s, old(skills[i].exp), old(skills[i].total),
                                    Wanted(skills[i].name, old(skills[i].exp), loss, whole, skill, flag))
      ensures forall k :: 0 <= k < |skills| && k != i ==> unchanged(skills[k])
    {
      var tmp := skills[i];
      LossKeepsBound(s, tmp.exp, tmp.total, 0);
      if tmp.exp != 0 {
        if flag.SubtractSkill? && skill == Some(tmp.name) {
          LoseSkill(s, i, loss);
        } else if !flag.SubtractSkill? {
          ShareIsNotNegative(tmp.exp, loss, whole);
          LoseSkill(s, i, Share(tmp.exp, loss, whole));
        }
      }
    }

    /** Of one skill, the one named gives the whole loss and no other any; of all skills, each gives its
        share. */
    static function AfterLoss(s: Settings, name: string, exp: int, total: int, loss: int, whole: int,
                              skill: Option<string>, one: bool): int
    {
      if one then (if skill == Some(name) then Left(s, exp, total, loss) else exp)
      else Left(s, exp, total, Share(exp, loss, whole))
    }

    lemma LossesAre(s: Settings, loss: int, whole: int, skill: Option<string>, flag: Flag)
      requires Valid(s) && 0 <= loss && 0 <= whole
      ensures forall k :: 0 <= k < |skills| ==>
                Left(s, skills[k].exp, skills[k].total, Wanted(skills[k].name, skills[k].exp, loss, whole, skill, flag))
                == AfterLoss(s, skills[k].name, skills[k].exp, skills[k].total, loss, whole, skill, flag.SubtractSkill?)
    {
      forall k | 0 <= k < |skills|
        ensures Left(s, skills[k].exp, skills[k].total, 0) == skills[k].exp
        ensures skills[k].exp == 0 ==> Left(s, 0, skills[k].total, loss) == 0
        ensures skills[k].exp == 0 ==> Left(s, 0, skills[k].total, Share(0, loss, whole)) == 0
      {
        LossIsLargest(s, skills[k].exp, skills[k].total, 0, 0);
        LossIsLargest(s, 0, skills[k].total, loss, 0);
        ShareIsNotNegative(0, loss, whole);
        LossIsLargest(s, 0, skills[k].total, Share(0, loss, whole), 0);
      }
    }

    /** subtract_player_exp: one skill loses, or all of them and the player. A player without experience
        whose skills have some would make the code divide by zero. */
    method SubtractExp(s: Settings, loss: int, skill: Option<string>, flag: Flag)
      requires Valid(s) && 0 <= loss
      requires me.exp > 0 || flag.SubtractSkill? || forall k :: 0 <= k < |skills| ==> skills[k].exp == 0
      modifies me, skills
      ensures Valid(s)
      ensures forall k :: 0 <= k < |skills| ==>
                skills[k].exp == Left(s, old(skills[k].exp), old(skills[k].total),
                                      Wanted(skills[k].name, old(skills[k].exp), loss, old(me.exp), skill, flag))
      ensures me.exp == if flag.SubtractSkill? then old(me.exp) else Left(s, old(me.exp), old(me.total), loss)
      ensures forall k :: 0 <= k < |skills| ==>
                skills[k].exp == AfterLoss(s, skills[k].name, old(skills[k].exp), old(skills[k].total),
                                           loss, old(me.exp), skill, flag.SubtractSkill?)
    {
      LossesAre(s, loss, old(me.exp), skill, flag);
      var i := 0;
      var whole := me.exp;
      while i < |skills|
        invariant 0 <= i <= |skills| && Valid(s) && unchanged(me) && unchanged(this)
        invariant forall k :: i <= k < |skills| ==> unchanged(skills[k])
        invariant forall k :: 0 <= k < i ==>
                    skills[k].exp == Left(s, old(skills[k].exp), old(skills[k].total),
                                          Wanted(skills[k].name, old(skills[k].exp), loss, whole, skill, flag))
      {
        SubtractSkillExp(s, i, loss, whole, skill, flag);
        i := i + 1;
      }
      if !flag.SubtractSkill? {
        LoseSelf(s, loss);
      }
    }

    /** apply_death_exp_penalty on one skill. */
    method PenalizeSkill(s: Settings, i: nat)
      requires Valid(s) && i < |skills|
      modifies skills[i]
      ensures Valid(s)
      ensures skills[i].exp == Left(s, old(skills[i].exp), old(skills[i].total),
                                    DeathLoss(s, old(skills[i].exp), old(skills[i].level)))
      ensures forall k :: 0 <= k < |skills| && k != i ==> unchanged(skills[k])
    {
      var tmp := skills[i];
      DeathLossIsNotNegative(s, tmp.exp, tmp.level);
      if tmp.exp != 0 {
        var percentageLoss := tmp.exp * s.deathRatio / 100;
        var levelLoss := tmp.exp - s.levels[Max(0, tmp.level - s.deathLevels)];
        if levelLoss < 0 {
          levelLoss := 0;
        }
        LoseSkill(s, i, Min(levelLoss, percentageLoss));
      }
    }

    /** apply_death_exp_penalty: every skill loses, and the player. */
    method ApplyDeathPenalty(s: Settings)
      requires Valid(s)
      modifies me, skills
      ensures Valid(s)
      ensures forall k :: 0 <= k < |skills| ==>
                skills[k].exp == Left(s, old(skills[k].exp), old(skills[k].total),
                                      DeathLoss(s, old(skills[k].exp), old(skills[k].level)))
      ensures me.exp == Left(s, old(me.exp), old(me.total), DeathLoss(s, old(me.exp), old(me.level)))
    {
      var i := 0;
      while i < |skills|
        invariant 0 <= i <= |skills| && Valid(s) && unchanged(me) && unchanged(this)
        invariant forall k :: i <= k < |skills| ==> unchanged(skills[k])
        invariant forall k :: 0 <= k < i ==>
                    skills[k].exp == Left(s, old(skills[k].exp), old(skills[k].total),
                                          DeathLoss(s, old(skills[k].exp), old(skills[k].level)))
      {
        PenalizeSkill(s, i);
        i := i + 1;
      }
      DeathLossIsNotNegative(s, me.exp, me.level);
      var percentageLoss := me.exp * s.deathRatio / 100;
      var levelLoss := me.exp - s.levels[Max(0, me.level - s.deathLevels)];
      if levelLoss < 0 {
        levelLoss := 0;
      }
      LoseSelf(s, Min(levelLoss, percentageLoss));
    }
  }
}
