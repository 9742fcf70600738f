/** Turning items into artifacts: the rolling loop, and the closed form of its chances
    (common/artifact.cpp). */
module Artifacts {
  import opened Common

  const ARTIFACT_TRIES := 2
  const MAX_BUF := 256

  /** Chances and their total are 16 bits wide. */
  const CHANCES := 0x1_0000

  type Chance = c: int | 0 <= c < CHANCES

  datatype Artifact = Artifact(name: string, magic: int, chance: Chance, difficulty: nat, allowed: seq<string>)

  /** What an item brings to the choice of an artifact. */
  datatype Base = Base(name: Option<string>, archName: Option<string>, magic: int)

  // ---------------------------------------------------------------------------------------
  // Which artifacts an item may become
  // ---------------------------------------------------------------------------------------

  predicate Negated(rule: string) {
    rule != "" && rule[0] == '!'
  }

  predicate Matches(op: Base, rule: string) {
    var name := if Negated(rule) then rule[1..] else rule;
    op.name.Some? && (op.name.value == name || op.archName == Some(name))
  }

  /** The first rule that matches decides; without one, it is enough that some rule excludes others. */
  ghost predicate Legal(op: Base, allowed: seq<string>) {
    || allowed == []
    || (exists i :: 0 <= i < |allowed| && FirstMatch(op, allowed, i) && !Negated(allowed[i]))
    || ((forall i :: 0 <= i < |allowed| ==> !Matches(op, allowed[i]))
        && exists i :: 0 <= i < |allowed| && Negated(allowed[i]))
  }

  ghost predicate FirstMatch(op: Base, allowed: seq<string>, i: nat)
    requires i < |allowed|
  {
    Matches(op, allowed[i]) && forall j :: 0 <= j < i ==> !Matches(op, allowed[j])
  }

  /** By its name or its archetype's. */
  predicate IsCalled(op: Base, name: string) {
    op.name.Some? && (op.name.value == name || op.archName == Some(name))
  }

  /** An artifact made for things of one name is legal for just those, and one made for all others just
      for the others. */
  lemma OneRuleIff(op: Base, name: string)
    requires name == "" || name[0] != '!'
    ensures Legal(op, [name]) <==> IsCalled(op, name)
    ensures Legal(op, ["!" + name]) <==> !IsCalled(op, name)
  {
    assert ("!" + name)[1..] == name;
    assert Matches(op, name) <==> IsCalled(op, name);
    assert Matches(op, "!" + name) <==> IsCalled(op, name);
    assert [name][0] == name && ["!" + name][0] == "!" + name;
    if IsCalled(op, name) {
      assert FirstMatch(op, [name], 0);
      assert FirstMatch(op, ["!" + name], 0);
    } else {
      assert Negated(["!" + name][0]);
    }
  }

  /** Of several rules, the first that is about the item decides alone; rules that are not about it come to
      nothing unless one of them excludes something. */
  lemma MoreRulesIff(op: Base, name: string, rest: seq<string>)
    requires (name == "" || name[0] != '!') && rest != []
    ensures Legal(op, [name] + rest) <==> IsCalled(op, name) || Legal(op, rest)
    ensures Legal(op, ["!" + name] + rest) <==> !IsCalled(op, name) && (Legal(op, rest) || NoneMatches(op, rest))
  {
    RuleFirst(op, name, rest);
    RuleFirst(op, "!" + name, rest);
    assert ("!" + name)[1..] == name;
  }

  ghost predicate NoneMatches(op: Base, rules: seq<string>) {
    forall i :: 0 <= i < |rules| ==> !Matches(op, rules[i])
  }

  ghost predicate SomeNegated(rules: seq<string>) {
    exists i :: 0 <= i < |rules| && Negated(rules[i])
  }

  ghost predicate Decided(op: Base, rules: seq<string>) {
    exists i :: 0 <= i < |rules| && FirstMatch(op, rules, i) && !Negated(rules[i])
  }

  lemma {:induction false} RuleFirst(op: Base, rule: string, rest: seq<string>)
    requires rest != []
    ensures Legal(op, [rule] + rest) <==>
      if Matches(op, rule) then !Negated(rule) else Legal(op, rest) || (Negated(rule) && NoneMatches(op, rest))
  {
    var all := [rule] + rest;
    assert all[0] == rule && forall i :: 0 <= i < |rest| ==> all[i + 1] == rest[i];
    if Matches(op, rule) {
      assert FirstMatch(op, all, 0);
      forall i | 0 < i < |all| ensures !FirstMatch(op, all, i) {
        assert Matches(op, all[0]);
      }
    } else {
      forall i | 0 <= i < |rest| ensures FirstMatch(op, all, i + 1) <==> FirstMatch(op, rest, i) {
        if FirstMatch(op, rest, i) {
          forall j | 0 <= j < i + 1 ensures !Matches(op, all[j]) {
            assert j > 0 ==> all[j] == rest[j - 1];
          }
        }
        if FirstMatch(op, all, i + 1) {
          forall j | 0 <= j < i ensures !Matches(op, rest[j]) {
            assert rest[j] == all[j + 1];
          }
        }
      }
      ShiftedRules(op, rule, rest, all);
    }
  }

  lemma {:induction false} ShiftedRules(op: Base, rule: string, rest: seq<string>, all: seq<string>)
    requires |all| == |rest| + 1 && all[0] == rule && !Matches(op, rule) && rest != []
    requires forall i :: 0 <= i < |rest| ==> all[i + 1] == rest[i]
    requires forall i :: 0 <= i < |rest| ==> (FirstMatch(op, all, i + 1) <==> FirstMatch(op, rest, i))
    ensures Legal(op, all) <==> Legal(op, rest) || (Negated(rule) && NoneMatches(op, rest))
  {
    assert Decided(op, all) <==> Decided(op, rest) by {
      if Decided(op, all) {
        var i :| 0 <= i < |all| && FirstMatch(op, all, i) && !Negated(all[i]);
        assert i > 0 && FirstMatch(op, all, i - 1 + 1);
        assert FirstMatch(op, rest, i - 1) && !Negated(rest[i - 1]);
      }
      if Decided(op, rest) {
        var i :| 0 <= i < |rest| && FirstMatch(op, rest, i) && !Negated(rest[i]);
        assert FirstMatch(op, all, i + 1) && !Negated(all[i + 1]);
      }
    }
    assert NoneMatches(op, all) <==> NoneMatches(op, rest) by {
      if NoneMatches(op, all) {
        forall i | 0 <= i < |rest| ensures !Matches(op, rest[i]) {
          assert rest[i] == all[i + 1];
        }
      }
      if NoneMatches(op, rest) {
        forall i | 0 <= i < |all| ensures !Matches(op, all[i]) {
          assert i > 0 ==> all[i] == rest[i - 1];
        }
      }
    }
    assert SomeNegated(all) <==> Negated(rule) || SomeNegated(rest) by {
      if SomeNegated(rest) {
        var i :| 0 <= i < |rest| && Negated(rest[i]);
        assert Negated(all[i + 1]);
      }
      if SomeNegated(all) && !Negated(rule) {
        var i :| 0 <= i < |all| && Negated(all[i]);
        assert Negated(rest[i - 1]);
      }
    }
    if Decided(op, rest) {
      var i :| 0 <= i < |rest| && FirstMatch(op, rest, i) && !Negated(rest[i]);
      assert Matches(op, rest[i]);
    }
  }

  /** legal_artifact_combination. */
  method LegalArtifactCombination(op: Base, allowed: seq<string>) returns (legal: bool)
    ensures legal == Legal(op, allowed)
  {
    if allowed == [] {
      return true;
    }
    var success, i := false, 0;
    while i < |allowed|
      invariant 0 <= i <= |allowed|
      invariant forall j :: 0 <= j < i ==> !Matches(op, allowed[j])
      invariant success <==> exists j :: 0 <= j < i && Negated(allowed[j])
    {
      var rule := allowed[i];
      var neg := rule != "" && rule[0] == '!';
      var name := if neg then rule[1..] else rule;
      if op.name.Some? && (name == op.name.value || op.archName == Some(name)) {
        assert FirstMatch(op, allowed, i);
        return !neg;
      } else if neg {
        success := true;
      }
      i := i + 1;
    }
    return success;
  }

  // ---------------------------------------------------------------------------------------
  // Rolls
  // ---------------------------------------------------------------------------------------

  /** The entry that a roll lands on. */
  function Pick(items: seq<Artifact>, roll: nat): Option<nat> {
    if items == [] then None
    else if roll < items[0].chance then Some(0)
    else
      match Pick(items[1..], roll - items[0].chance)
      case None => None
      case Some(k) => Some(k + 1)
  }

  function Sum(items: seq<Artifact>): nat {
    if items == [] then 0 else items[0].chance + Sum(items[1..])
  }

  /** The total as it is kept. */
  function TotalChance(items: seq<Artifact>): nat {
    Sum(items) % CHANCES
  }

  /** The sum of the chances of some of the entries. */
  function SumOf(items: seq<Artifact>, marks: seq<bool>): nat
    requires |marks| == |items|
  {
    if items == [] then 0 else (if marks[0] then items[0].chance else 0) + SumOf(items[1..], marks[1..])
  }

  predicate Lands(items: seq<Artifact>, marks: seq<bool>, roll: nat)
    requires |marks| == |items|
  {
    var k := Pick(items, roll);
    PickIsEntry(items, roll);
    k.Some? && marks[k.value]
  }

  /** How many rolls below n land on one of these entries. */
  function Hits(items: seq<Artifact>, marks: seq<bool>, n: nat): nat
    requires |marks| == |items|
  {
    if n == 0 then 0 else Hits(items, marks, n - 1) + if Lands(items, marks, n - 1) then 1 else 0
  }

  lemma {:induction false} PickIsEntry(items: seq<Artifact>, roll: nat)
    ensures Pick(items, roll).Some? ==> Pick(items, roll).value < |items|
    ensures Pick(items, roll).Some? <==> roll < Sum(items)
  {
    if items != [] && roll >= items[0].chance {
      PickIsEntry(items[1..], roll - items[0].chance);
    }
  }

  /** Rolls below the first entry's chance land there, the others further on. */
  lemma {:induction false} HitsSplit(items: seq<Artifact>, marks: seq<bool>, n: nat)
    requires |marks| == |items| > 0
    ensures n <= items[0].chance ==> Hits(items, marks, n) == if marks[0] then n else 0
    ensures n >= items[0].chance ==>
              (Hits(items, marks, n)
                == (if marks[0] then items[0].chance else 0) + Hits(items[1..], marks[1..], n - items[0].chance))
  {
    if n > 0 {
      HitsSplit(items, marks, n - 1);
      var r := n - 1;
      PickIsEntry(items, r);
      if r >= items[0].chance {
        PickIsEntry(items[1..], r - items[0].chance);
        assert Lands(items, marks, r) == Lands(items[1..], marks[1..], r - items[0].chance);
      }
    }
  }

  /** A set of entries is hit by exactly as many of the rolls below the sum as their chances add up to. */
  lemma {:induction false} HitsAreChances(items: seq<Artifact>, marks: seq<bool>)
    requires |marks| == |items|
    ensures Hits(items, marks, Sum(items)) == SumOf(items, marks)
  {
    if items != [] {
      HitsSplit(items, marks, Sum(items));
      HitsAreChances(items[1..], marks[1..]);
    }
  }

  function Only(k: nat, n: nat): (marks: seq<bool>)
    ensures |marks| == n
  {
    seq(n, i => i == k)
  }

  lemma {:induction false} SumOfOnly(items: seq<Artifact>, k: nat)
    ensures SumOf(items, Only(k, |items|)) == if k < |items| then items[k].chance else 0
  {
    if items != [] {
      if k > 0 {
        assert Only(k, |items|)[1..] == Only(k - 1, |items| - 1);
        SumOfOnly(items[1..], k - 1);
      } else {
        assert Only(0, |items|)[1..] == Only(|items|, |items| - 1);
        SumOfOnly(items[1..], |items|);
      }
    }
  }

  /** Every roll below the sum lands on exactly one entry, and each entry gets exactly its chance. */
  lemma EntryIsHitByItsChance(items: seq<Artifact>, k: nat)
    requires k < |items|
    ensures Hits(items, Only(k, |items|), Sum(items)) == items[k].chance
  {
    HitsAreChances(items, Only(k, |items|));
    SumOfOnly(items, k);
  }

  lemma {:induction false} HitsGrow(items: seq<Artifact>, marks: seq<bool>, n: nat, m: nat)
    requires |marks| == |items| && n <= m
    ensures Hits(items, marks, n) <= Hits(items, marks, m) <= Hits(items, marks, n) + (m - n)
  {
    if n < m {
      HitsGrow(items, marks, n, m - 1);
    }
  }

  /** With fewer rolls than the sum, the entry of the first roll left out gets less than its chance. */
  lemma FewerRolls(items: seq<Artifact>, t: nat) returns (k: nat)
    requires t < Sum(items)
    ensures k < |items| && Hits(items, Only(k, |items|), t) < items[k].chance
  {
    PickIsEntry(items, t);
    k := Pick(items, t).value;
    var marks := Only(k, |items|);
    assert Lands(items, marks, t);
    assert Hits(items, marks, t + 1) == Hits(items, marks, t) + 1;
    HitsGrow(items, marks, t + 1, Sum(items));
    EntryIsHitByItsChance(items, k);
  }

  ghost predicate EntriesGetTheirChances(items: seq<Artifact>, t: nat) {
    forall k :: 0 <= k < |items| ==> Hits(items, Only(k, |items|), t) == items[k].chance
  }

  /** The total is kept in 16 bits: all entries get their chances exactly when the sum fits. */
  lemma EntriesGetTheirChancesIff(items: seq<Artifact>)
    ensures EntriesGetTheirChances(items, TotalChance(items)) <==> Sum(items) < CHANCES
  {
    var t, sum := TotalChance(items), Sum(items);
    if sum < CHANCES {
      assert t == sum;
      forall k | 0 <= k < |items| ensures Hits(items, Only(k, |items|), t) == items[k].chance {
        EntryIsHitByItsChance(items, k);
      }
    } else {
      assert t < sum;
      var k := FewerRolls(items, t);
    }
  }

  /** Two entries of 40000 each: their sum of 80000 is kept as 14464, and no roll below that ever gets to
      the second. */
  lemma SumPastSixteenBits()
    ensures var items := [Artifact("Fire", 0, 40000, 0, []), Artifact("Ice", 0, 40000, 0, [])];
      TotalChance(items) == 14464 && Hits(items, Only(1, 2), 14464) == 0 && !EntriesGetTheirChances(items, 14464)
  {
    var items := [Artifact("Fire", 0, 40000, 0, []), Artifact("Ice", 0, 40000, 0, [])];
    assert items[1..] == [items[1]] && items[1..][1..] == [];
    assert Sum(items) == 80000;
    HitsSplit(items, Only(1, 2), 14464);
    EntriesGetTheirChancesIff(items);
  }

  // ---------------------------------------------------------------------------------------
  // The rolling loop
  // ---------------------------------------------------------------------------------------

  predicate IsNone(a: Artifact) {
    a.name == "NONE"
  }

  ghost predicate Suits(op: Base, a: Artifact, difficulty: int) {
    Abs(op.magic) >= a.magic && difficulty >= a.difficulty && Legal(op, a.allowed)
  }

  /** The entry that a series of rolls ends with: one that does not suit is rolled for again, and the
      entry for no artifact ends it. */
  ghost function Outcome(op: Base, items: seq<Artifact>, difficulty: int, rolls: seq<nat>): (k: Option<nat>)
    ensures k.Some? ==> k.value < |items|
  {
    if rolls == [] then None
    else
      PickIsEntry(items, rolls[0]);
      match Pick(items, rolls[0])
      case None => None
      case Some(k) =>
        if IsNone(items[k]) then None
        else if Suits(op, items[k], difficulty) then Some(k)
        else Outcome(op, items, difficulty, rolls[1..])
  }

  /** The chances of the entries before the k-th. */
  function Before(items: seq<Artifact>, k: nat): nat
    requires k <= |items|
  {
    if k == 0 then 0 else items[0].chance + Before(items[1..], k - 1)
  }

  predicate LandsOn(items: seq<Artifact>, roll: nat, k: nat) {
    k < |items| && Before(items, k) <= roll < Before(items, k) + items[k].chance
  }

  /** Entries take up the numbers from 0 in order, each as many as its chance. */
  lemma {:induction false} PickIff(items: seq<Artifact>, roll: nat, k: nat)
    ensures Pick(items, roll) == Some(k) <==> LandsOn(items, roll, k)
  {
    if items != [] && roll >= items[0].chance && k > 0 {
      PickIff(items[1..], roll - items[0].chance, k - 1);
    }
  }

  /** Magic enough, in either direction, a chest difficult enough, and made for such an item. */
  ghost predicate Possible(op: Base, a: Artifact, difficulty: int) {
    && a.name != "NONE" && (op.magic >= a.magic || -op.magic >= a.magic)
    && difficulty >= a.difficulty && Legal(op, a.allowed)
  }

  /** Two rolls give an entry exactly if it is possible and the first lands on it, or the first lands on one
      that is not possible, nor the one for no artifact, and the second lands on it. */
  lemma TwoRollsIff(op: Base, items: seq<Artifact>, difficulty: int, first: nat, second: nat, k: nat)
    ensures Outcome(op, items, difficulty, [first, second]) == Some(k) <==>
      && k < |items| && Possible(op, items[k], difficulty)
      && (LandsOn(items, first, k)
          || (Wasted(op, items, difficulty, first) && LandsOn(items, second, k)))
  {
    PickIsEntry(items, first);
    PickIsEntry(items, second);
    PickIff(items, first, k);
    PickIff(items, second, k);
    OneRoll(op, items, difficulty, second, k);
    assert [first, second][1..] == [second];
    forall j: nat ensures LandsOn(items, first, j) <==> Pick(items, first) == Some(j) {
      PickIff(items, first, j);
    }
    WastedIff(op, items, difficulty, first);
  }

  lemma OneRoll(op: Base, items: seq<Artifact>, difficulty: int, roll: nat, k: nat)
    ensures Outcome(op, items, difficulty, [roll]) == Some(k) <==>
      Pick(items, roll) == Some(k) && k < |items| && Possible(op, items[k], difficulty)
  {
    PickIsEntry(items, roll);
    assert [roll][1..] == [] && Outcome(op, items, difficulty, []) == None;
  }

  lemma WastedIff(op: Base, items: seq<Artifact>, difficulty: int, roll: nat)
    requires forall j: nat :: LandsOn(items, roll, j) <==> Pick(items, roll) == Some(j)
    ensures Pick(items, roll).Some? ==> Pick(items, roll).value < |items|
    ensures Wasted(op, items, difficulty, roll) <==>
      Pick(items, roll).Some? && Retries(op, items[Pick(items, roll).value], difficulty)
  {
    if Pick(items, roll).Some? {
      assert LandsOn(items, roll, Pick(items, roll).value);
    }
  }

  /** The roll lands on an entry that is neither possible nor the one for no artifact. */
  ghost predicate Wasted(op: Base, items: seq<Artifact>, difficulty: int, roll: nat) {
    exists j: nat :: LandsOn(items, roll, j) && items[j].name != "NONE" && !Possible(op, items[j], difficulty)
  }

  function Title(name: string): string {
    var s := "of " + name;
    if |s| < MAX_BUF then s else s[..MAX_BUF - 1]
  }

  /** What the title says, cut to fit. */
  lemma TitleIs(name: string)
    ensures |Title(name)| <= 255 && Title(name) <= "of " + name
    ensures |name| <= 252 ==> Title(name) == "of " + name
    ensures |name| > 252 ==> |Title(name)| == 255
  {}

  /** The walk along the entries, taking each chance off the roll. */
  method RollEntry(items: seq<Artifact>, roll: nat) returns (k: Option<nat>)
    ensures k == Pick(items, roll)
  {
    var left: int, i := roll, 0;
    assert items[0..] == items;
    while i < |items|
      invariant 0 <= i <= |items| && left >= 0
      invariant Pick(items, roll) ==
        match Pick(items[i..], left) { case None => None case Some(j) => Some(i + j) }
    {
      assert items[i..][1..] == items[i + 1..];
      left := left - items[i].chance;
      if left < 0 {
        return Some(i);
      }
      i := i + 1;
    }
    return None;
  }

  class Item {
    const base: Base
    var title: Option<string>
    var artifact: Option<string>

    constructor (base: Base)
      ensures this.base == base && title == None && artifact == None
    {
      this.base, title, artifact := base, None, None;
    }

    /** generate_artifact, on a list for the item's type if there is one. */
    method GenerateArtifact(list: Option<seq<Artifact>>, difficulty: int, random: seq<nat>)
      requires |random| == ARTIFACT_TRIES && (list.Some? ==> TotalChance(list.value) > 0)
      modifies this
      ensures list == None ==> title == old(title) && artifact == old(artifact)
      ensures list.Some? ==>
        var t := TotalChance(list.value);
        match Outcome(base, list.value, difficulty, [random[0] % t, random[1] % t])
        case None => title == old(title) && artifact == old(artifact)
        case Some(k) => artifact == Some(list.value[k].name) && title == Some(Title(list.value[k].name))
    {
      if list == None {
        return;
      }
      var items, t := list.value, TotalChance(list.value);
      ghost var rolls := [random[0] % t, random[1] % t];
      var i := 0;
      while i < ARTIFACT_TRIES
        invariant 0 <= i <= 2
        invariant title == old(title) && artifact == old(artifact)
        invariant Outcome(base, items, difficulty, rolls) == Outcome(base, items, difficulty, rolls[i..])
      {
        PickIsEntry(items, random[i] % t);
        assert rolls[i..][0] == random[i] % t && rolls[i..][1..] == rolls[i + 1..];
        var picked := RollEntry(items, random[i] % t);
        if picked == None {
          return;
        }
        var art := items[picked.value];
        if art.name == "NONE" {
          return;
        }
        var legal := LegalArtifactCombination(base, art.allowed);
        if Abs(base.magic) >= art.magic && difficulty >= art.difficulty && legal {
          GiveArtifactAbilities(art);
          return;
        }
        i := i + 1;
      }
    }

    method GiveArtifactAbilities(art: Artifact)
      modifies this
      ensures artifact == Some(art.name) && title == Some(Title(art.name))
    {
      title, artifact := Some(Title(art.name)), Some(art.name);
    }
  }

  // ---------------------------------------------------------------------------------------
  // The closed form
  // ---------------------------------------------------------------------------------------

  ghost function IllegalMarks(op: Base, items: seq<Artifact>): (marks: seq<bool>)
    ensures |marks| == |items| && forall k :: 0 <= k < |items| ==> marks[k] == !Legal(op, items[k].allowed)
    decreases items
  {
    if items == [] then [] else [!Legal(op, items[0].allowed)] + IllegalMarks(op, items[1..])
  }

  method ChanceOfInvalidItem(op: Base, items: seq<Artifact>) returns (invalid: nat)
    ensures invalid == SumOf(items, IllegalMarks(op, items))
  {
    var i := 0;
    invalid := 0;
    assert items[0..] == items;
    while i < |items|
      invariant 0 <= i <= |items|
      invariant invalid + SumOf(items[i..], IllegalMarks(op, items[i..])) == SumOf(items, IllegalMarks(op, items))
    {
      assert items[i..][1..] == items[i + 1..];
      var legal := LegalArtifactCombination(op, items[i].allowed);
      if !legal {
        invalid := invalid + items[i].chance;
      }
      i := i + 1;
    }
  }

  /** artifact_compute_chance_for_item. */
  method ComputeChance(op: Base, list: Option<seq<Artifact>>, art: Artifact) returns (numerator: nat, denominator: nat)
    ensures list == None || TotalChance(list.value) == 0 ==> numerator == 0 && denominator == 1
    ensures list.Some? && TotalChance(list.value) > 0 ==>
      var t := TotalChance(list.value);
      && numerator == art.chance * (t + SumOf(list.value, IllegalMarks(op, list.value)))
      && denominator == t * t
    ensures denominator > 0
  {
    numerator, denominator := 0, 1;
    if list == None || TotalChance(list.value) == 0 {
      return;
    }
    var t := TotalChance(list.value);
    var invalid := ChanceOfInvalidItem(op, list.value);
    numerator, denominator := art.chance * (t + invalid), t * t;
  }

  // ---------------------------------------------------------------------------------------
  // Counting pairs of rolls
  // ---------------------------------------------------------------------------------------

  /** Entries that a roll may be wasted on. */
  ghost predicate Retries(op: Base, a: Artifact, difficulty: int) {
    !IsNone(a) && !Suits(op, a, difficulty)
  }

  ghost function RetryMarks(op: Base, items: seq<Artifact>, difficulty: int): (marks: seq<bool>)
    ensures |marks| == |items| && forall k :: 0 <= k < |items| ==> marks[k] == Retries(op, items[k], difficulty)
    decreases items
  {
    if items == [] then [] else [Retries(op, items[0], difficulty)] + RetryMarks(op, items[1..], difficulty)
  }

  ghost predicate Wins(op: Base, items: seq<Artifact>, difficulty: int, k: nat) {
    k < |items| && !IsNone(items[k]) && Suits(op, items[k], difficulty)
  }

  function Bit(b: bool): (n: nat)
    ensures n <= 1
  {
    if b then 1 else 0
  }

  /** How many second rolls below n end with entry k after this first one. */
  ghost function Seconds(op: Base, items: seq<Artifact>, difficulty: int, k: nat, first: nat, n: nat): nat {
    if n == 0 then 0
    else
      Seconds(op, items, difficulty, k, first, n - 1)
      + Bit(Outcome(op, items, difficulty, [first, n - 1]) == Some(k))
  }

  /** How many pairs end with entry k, of a first roll below n and a second below t. */
  ghost function Pairs(op: Base, items: seq<Artifact>, difficulty: int, k: nat, n: nat, t: nat): nat {
    if n == 0 then 0
    else Pairs(op, items, difficulty, k, n - 1, t) + Seconds(op, items, difficulty, k, n - 1, t)
  }

  lemma OutcomeOfOne(op: Base, items: seq<Artifact>, difficulty: int, roll: nat, k: nat)
    requires k < |items|
    ensures Outcome(op, items, difficulty, [roll]) == Some(k)
      <==> Lands(items, Only(k, |items|), roll) && Wins(op, items, difficulty, k)
  {
    PickIsEntry(items, roll);
  }

  lemma OutcomeOfTwo(op: Base, items: seq<Artifact>, difficulty: int, first: nat, second: nat, k: nat)
    requires k < |items|
    ensures Outcome(op, items, difficulty, [first, second]) == Some(k)
      <==> Wins(op, items, difficulty, k)
           && (Lands(items, Only(k, |items|), first)
               || (Lands(items, RetryMarks(op, items, difficulty), first) && Lands(items, Only(k, |items|), second)))
  {
    PickIsEntry(items, first);
    OutcomeOfOne(op, items, difficulty, second, k);
    assert [first, second][1..] == [second];
  }

  lemma {:induction false} SecondsAre(op: Base, items: seq<Artifact>, difficulty: int, k: nat, first: nat, n: nat)
    requires k < |items|
    ensures Seconds(op, items, difficulty, k, first, n) ==
            if !Wins(op, items, difficulty, k) then 0
            else if Lands(items, Only(k, |items|), first) then n
            else if Lands(items, RetryMarks(op, items, difficulty), first) then Hits(items, Only(k, |items|), n)
            else 0
  {
    if n > 0 {
      SecondsAre(op, items, difficulty, k, first, n - 1);
      OutcomeOfTwo(op, items, difficulty, first, n - 1, k);
    }
  }

  lemma NotBoth(op: Base, items: seq<Artifact>, difficulty: int, k: nat, roll: nat)
    requires Wins(op, items, difficulty, k)
    ensures !(Lands(items, Only(k, |items|), roll) && Lands(items, RetryMarks(op, items, difficulty), roll))
  {
    PickIsEntry(items, roll);
  }

  /** The pairs that an entry gets at once, and those it gets after a wasted roll. */
  ghost function PairsOf(op: Base, items: seq<Artifact>, difficulty: int, k: nat, n: nat, t: nat): int
    requires k < |items|
  {
    if !Wins(op, items, difficulty, k) then 0
    else
      var only, retry := Only(k, |items|), RetryMarks(op, items, difficulty);
      Hits(items, only, n) * t + Hits(items, retry, n) * Hits(items, only, t)
  }

  lemma {:induction false} PairsAre(op: Base, items: seq<Artifact>, difficulty: int, k: nat, n: nat, t: nat)
    requires k < |items|
    ensures Pairs(op, items, difficulty, k, n, t) == PairsOf(op, items, difficulty, k, n, t)
  {
    if n > 0 {
      PairsAre(op, items, difficulty, k, n - 1, t);
      SecondsAre(op, items, difficulty, k, n - 1, t);
      if Wins(op, items, difficulty, k) {
        NotBoth(op, items, difficulty, k, n - 1);
        var only, retry := Only(k, |items|), RetryMarks(op, items, difficulty);
        PairsStep(items, only, retry, n - 1, t, Hits(items, only, t));
      }
    }
  }

  lemma PairsStep(items: seq<Artifact>, only: seq<bool>, retry: seq<bool>, n: nat, t: nat, h: nat)
    requires |only| == |retry| == |items| && !(Lands(items, only, n) && Lands(items, retry, n))
    ensures Hits(items, only, n + 1) * t + Hits(items, retry, n + 1) * h
         == Hits(items, only, n) * t + Hits(items, retry, n) * h
          + (if Lands(items, only, n) then t else if Lands(items, retry, n) then h else 0)
  {
    Distribute(Hits(items, only, n), Bit(Lands(items, only, n)), t);
    Distribute(Hits(items, retry, n), Bit(Lands(items, retry, n)), h);
  }

  lemma Distribute(a: nat, b: nat, c: nat)
    ensures (a + b) * c == a * c + b * c
  {}

  /** While the total is right, the numerator counts the pairs of rolls for an entry exactly when the
      entry has no chance at all, or suits and is not the one for no artifact, and the entries that are
      rolled for again weigh as much as the illegal ones: the closed form does not look at magic and
      difficulty, and takes an illegal entry for no artifact as one to roll again for. */
  lemma NumeratorCountsPairsIff(op: Base, items: seq<Artifact>, difficulty: int, k: nat)
    requires k < |items| && 0 < Sum(items) < CHANCES
    ensures var t := TotalChance(items);
      items[k].chance * (t + SumOf(items, IllegalMarks(op, items))) == Pairs(op, items, difficulty, k, t, t)
      <==>
      items[k].chance == 0
      || (Wins(op, items, difficulty, k)
          && SumOf(items, RetryMarks(op, items, difficulty)) == SumOf(items, IllegalMarks(op, items)))
  {
    var t, c := TotalChance(items), items[k].chance;
    assert t == Sum(items);
    PairsAre(op, items, difficulty, k, t, t);
    EntryIsHitByItsChance(items, k);
    HitsAreChances(items, RetryMarks(op, items, difficulty));
    var i, f := SumOf(items, IllegalMarks(op, items)), SumOf(items, RetryMarks(op, items, difficulty));
    CancelFactor(c, t, i, f);
  }

  /** The numerator for the second of two entries of equal chance, against the pairs it gets. */
  lemma SecondOfTwo(op: Base, a: Artifact, b: Artifact, difficulty: int)
    requires a.chance == b.chance == 1 && Wins(op, [a, b], difficulty, 1)
    ensures var items := [a, b];
      && items[1].chance * (TotalChance(items) + SumOf(items, IllegalMarks(op, items)))
           == 2 + Bit(!Legal(op, a.allowed))
      && Pairs(op, items, difficulty, 1, 2, 2) == 2 + Bit(Retries(op, a, difficulty))
  {
    var items, rest := [a, b], [b];
    assert items[1..] == rest && rest[1..] == [] && items[0] == a && items[1] == b;
    assert SumOf(rest, IllegalMarks(op, items)[1..]) == 0 && SumOf(rest, RetryMarks(op, items, difficulty)[1..]) == 0;
    assert Sum(rest) == 1 + Sum(rest[1..]) && Sum(items) == 1 + Sum(items[1..]);
    PairsAre(op, items, difficulty, 1, 2, 2);
    EntryIsHitByItsChance(items, 1);
    HitsAreChances(items, RetryMarks(op, items, difficulty));
  }

  /** For an item with no magic: an entry that wants some, or one that is too difficult, makes it three
      pairs of four, where the closed form says two. */
  lemma MagicIsNotCounted()
    ensures var op, ice := Base(Some("sword"), None, 0), Artifact("Ice", 0, 1, 0, []);
      && Miscounted(op, Artifact("Fire", 1, 1, 0, []), ice, 2, 3)
      && Miscounted(op, Artifact("Fire", 0, 1, 9, []), ice, 2, 3)
  {
    var op, ice := Base(Some("sword"), None, 0), Artifact("Ice", 0, 1, 0, []);
    assert Legal(op, []);
    SecondOfTwo(op, Artifact("Fire", 1, 1, 0, []), ice, 0);
    SecondOfTwo(op, Artifact("Fire", 0, 1, 9, []), ice, 0);
  }

  /** An illegal entry for no artifact makes it two, where the closed form says three. */
  lemma IllegalNoneIsCounted()
    ensures var op, ice := Base(Some("sword"), None, 0), Artifact("Ice", 0, 1, 0, []);
      Miscounted(op, Artifact("NONE", 0, 1, 0, ["shield"]), ice, 3, 2)
  {
    var op, ice := Base(Some("sword"), None, 0), Artifact("Ice", 0, 1, 0, []);
    assert Legal(op, []);
    assert !Matches(op, "shield") && !Negated("shield");
    SecondOfTwo(op, Artifact("NONE", 0, 1, 0, ["shield"]), ice, 0);
  }

  /** The numerator for the second entry, and the pairs it gets at difficulty 0. */
  ghost predicate Miscounted(op: Base, a: Artifact, b: Artifact, numerator: nat, pairs: nat) {
    var items := [a, b];
    && items[1].chance * (TotalChance(items) + SumOf(items, IllegalMarks(op, items))) == numerator
    && Pairs(op, items, 0, 1, 2, 2) == pairs
  }

  lemma CancelFactor(c: nat, t: nat, i: nat, f: nat)
    requires t > 0
    ensures c * (t + i) == c * t + f * c <==> c == 0 || i == f
    ensures c * (t + i) == 0 <==> c == 0
  {
    assert c * (t + i) == c * t + c * i;
    if c > 0 && i != f {
      assert c * i != c * f by {
        if i < f { Less(c, i, f); } else { Less(c, f, i); }
      }
    }
  }

  lemma Less(c: nat, a: nat, b: nat)
    requires c > 0 && a < b
    ensures c * a < c * b
  {}

  /** In particular where everything but legality holds for every entry. */
  lemma NumeratorIsRightWhen(op: Base, items: seq<Artifact>, difficulty: int, k: nat)
    requires k < |items| && 0 < Sum(items) < CHANCES && Wins(op, items, difficulty, k)
    requires forall j :: 0 <= j < |items| ==>
      && Abs(op.magic) >= items[j].magic && difficulty >= items[j].difficulty
      && (IsNone(items[j]) ==> Legal(op, items[j].allowed))
    ensures var t := TotalChance(items);
      items[k].chance * (t + SumOf(items, IllegalMarks(op, items))) == Pairs(op, items, difficulty, k, t, t)
  {
    assert RetryMarks(op, items, difficulty) == IllegalMarks(op, items);
    NumeratorCountsPairsIff(op, items, difficulty, k);
  }

  lemma {:induction false} SumOfIsAtMostSum(items: seq<Artifact>, marks: seq<bool>)
    requires |marks| == |items|
    ensures SumOf(items, marks) <= Sum(items)
  {
    if items != [] {
      SumOfIsAtMostSum(items[1..], marks[1..]);
    }
  }

  /** The denominator stays within 32 bits exactly up to a total of 46340, for any list. */
  lemma DenominatorFitsIff(items: seq<Artifact>)
    ensures var t := TotalChance(items); t * t < 0x8000_0000 <==> t <= 46340
  {
    var t := TotalChance(items);
    if t <= 46340 {
      Bounded(t, t, 46340, 46340);
    } else {
      Bounded(46341, 46341, t, t);
    }
  }

  /** The numerator does for every entry of every list of a total, and for every item, exactly if the
      total is below 0x8000. */
  lemma NumeratorsFitIff(t: nat)
    requires 0 < t < CHANCES
    ensures (forall op, items, k: nat :: Sum(items) == t && k < |items| ==> NumeratorFits(op, items, k)) <==> t < 0x8000
  {
    if t < 0x8000 {
      forall op, items, k: nat | Sum(items) == t && k < |items| ensures NumeratorFits(op, items, k) {
        NumeratorFitsBelow(op, items, k);
      }
    } else {
      var op := Base(Some("sword"), None, 0);
      var items := OneIllegal(op, t);
      assert Sum(items) == t && 0 < |items| && !NumeratorFits(op, items, 0);
    }
  }

  ghost predicate NumeratorFits(op: Base, items: seq<Artifact>, k: nat)
    requires k < |items|
  {
    FitsInt32(items[k].chance, TotalChance(items), SumOf(items, IllegalMarks(op, items)))
  }

  predicate FitsInt32(chance: nat, total: nat, invalid: nat) {
    chance * (total + invalid) < 0x8000_0000
  }

  lemma NumeratorFitsBelow(op: Base, items: seq<Artifact>, k: nat)
    requires k < |items| && Sum(items) < 0x8000
    ensures NumeratorFits(op, items, k)
  {
    var marks := IllegalMarks(op, items);
    SumOfIsAtMostSum(items, marks);
    SumOfOnly(items, k);
    SumOfIsAtMostSum(items, Only(k, |items|));
    SmallFits(items, items[k].chance, SumOf(items, marks));
  }

  lemma SmallFits(items: seq<Artifact>, c: nat, i: nat)
    requires c <= Sum(items) && i <= Sum(items) && Sum(items) < 0x8000
    ensures FitsInt32(c, TotalChance(items), i)
  {
    Bounded(c, TotalChance(items) + i, 0x7fff, 0xfffe);
  }

  /** The list that comes out worst: nothing but one illegal entry. */
  lemma OneIllegal(op: Base, t: Chance) returns (items: seq<Artifact>)
    requires op == Base(Some("sword"), None, 0) && t >= 0x8000
    ensures |items| == 1 && Sum(items) == t && !NumeratorFits(op, items, 0)
  {
    items := [Artifact("Fire", 0, t, 0, ["shield"])];
    assert !Matches(op, "shield") && !Negated("shield");
    assert items[0].allowed == ["shield"] && !Legal(op, items[0].allowed);
    assert items[1..] == [] && Sum(items) == t + Sum(items[1..]);
    assert SumOf(items, IllegalMarks(op, items)) == t + SumOf(items[1..], IllegalMarks(op, items)[1..]);
    Bounded(0x8000, 0x1_0000, t, t + t);
  }

  lemma Bounded(a: nat, b: nat, x: nat, y: nat)
    requires a <= x && b <= y
    ensures a * b <= x * y
  {
    assert a * b <= x * b <= x * y;
  }
}
