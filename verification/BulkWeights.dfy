/** When moving a filled object keeps `carrying` right in common/object.cpp: its load is truncated as a
    whole by every reducing container on the way, while what it holds should be truncated one by one. */
module BulkWeights {
  import opened Common
  import opened Sums
  import opened Weights
  import opened Inventories
  import WeightDrift

  // ---------------------------------------------------------------------------------------
  // Piles
  // ---------------------------------------------------------------------------------------

  /** A pile is booked by its own weight only, so the books miss all that gets out of it. */
  lemma PileExcess(s: Store, op: nat, q: seq<nat>, h: nat)
    requires Sound(s) && op < |s.items| && IsPath(s.items, q) && s.items[op].nrof > 0
    ensures Excess(s, op, q, h) == 0 - Sum(Pushed(s.items, op, q, h)[op := 0]) <= 0
  {
    var r := Pushed(s.items, op, q, h);
    SumUpdate(r, op, 0);
    SumNonNegative(r[op := 0]);
  }

  /** A pile may be moved exactly when nothing inside it gets past the first holder. */
  lemma PileIsMovableIff(s: Store, op: nat, q: seq<nat>)
    requires Sound(s) && op < |s.items| && IsPath(s.items, q) && s.items[op].nrof > 0 && q != []
    ensures Movable(s, op, q) <==>
      forall i :: 0 <= i < |s.items| && i != op ==> Reduce(Shares(s.items, op)[i], s.items[q[0]].keep) == 0
  {
    var t, first := s.items, Pushed(s.items, op, q, q[0])[op := 0];
    if Movable(s, op, q) {
      PileExcess(s, op, q, q[0]);
      forall i | 0 <= i < |t| && i != op ensures Reduce(Shares(t, op)[i], t[q[0]].keep) == 0 {
        TermOfZero(first, i);
        assert first[i] == Through(t, q, Shares(t, op)[i], q[0]);
      }
    }
    if forall i :: 0 <= i < |t| && i != op ==> Reduce(Shares(t, op)[i], t[q[0]].keep) == 0 {
      forall h | 0 <= h < |t| ensures Excess(s, op, q, h) == 0 {
        PileExcess(s, op, q, h);
        forall i | 0 <= i < |t| && i != op ensures Pushed(t, op, q, h)[i] == 0 {
          LightWeight(t, q, Shares(t, op)[i], h);
        }
        SumZero(Pushed(t, op, q, h)[op := 0]);
      }
    }
  }

  lemma TermOfZero(r: seq<int>, i: nat)
    requires i < |r| && Sum(r) == 0 && forall k :: 0 <= k < |r| ==> r[k] >= 0
    ensures r[i] == 0
  {
    SumUpdate(r, i, 0);
    SumNonNegative(r[i := 0]);
  }

  /** Among holders that reduce nothing, only a pile with something in it may not be moved. */
  lemma UnreducedIsMovableIff(s: Store, op: nat, q: seq<nat>)
    requires IsExact(s) && op < |s.items| && IsPath(s.items, q) && NoReduction(s.items, q) && q != []
    ensures Movable(s, op, q) <==> s.items[op].nrof == 0 || s.carrying[op] == 0
  {
    forall h | 0 <= h < |s.items|
      ensures Excess(s, op, q, h) == if h in q && s.items[op].nrof > 0 then 0 - s.carrying[op] else 0
    {
      PushedUnreduced(s.items, op, q, h);
      ThroughUnreduced(s.items, q, Load(s, op), h);
    }
    assert q[0] in q;
  }

  // ---------------------------------------------------------------------------------------
  // Single objects: the exact condition
  // ---------------------------------------------------------------------------------------

  function ReducedAll(parts: seq<int>, keep: nat): (r: seq<int>)
    requires NonNegative(parts)
    ensures |r| == |parts| && NonNegative(r)
  {
    seq(|parts|, i requires 0 <= i < |parts| => Reduce(parts[i], keep))
  }

  /** What the reduction of each part cuts off, in hundredths. */
  function CutOff(parts: seq<int>, keep: nat): (r: seq<int>)
    requires NonNegative(parts)
    ensures |r| == |parts| && NonNegative(r)
  {
    seq(|parts|, i requires 0 <= i < |parts| => parts[i] * keep % 100)
  }

  /** At no holder on the way do the fractions cut off add up to a whole. */
  ghost predicate FractionsFit(t: seq<Item>, q: seq<nat>, parts: seq<int>)
    requires IsPath(t, q) && NonNegative(parts)
    decreases |q|
  {
    q == [] ||
    (Sum(CutOff(parts, t[q[0]].keep)) < 100 && FractionsFit(t, q[1..], ReducedAll(parts, t[q[0]].keep)))
  }

  function Arriving(t: seq<Item>, q: seq<nat>, parts: seq<int>, h: nat): (r: seq<int>)
    requires IsPath(t, q) && NonNegative(parts)
    ensures |r| == |parts| && NonNegative(r)
  {
    seq(|parts|, i requires 0 <= i < |parts| => Through(t, q, parts[i], h))
  }

  lemma {:induction false} SumSplit(parts: seq<int>, keep: nat)
    requires NonNegative(parts)
    ensures Sum(parts) * keep == 100 * Sum(ReducedAll(parts, keep)) + Sum(CutOff(parts, keep))
  {
    if parts != [] {
      SumSplit(parts[1..], keep);
      assert ReducedAll(parts, keep)[1..] == ReducedAll(parts[1..], keep);
      assert CutOff(parts, keep)[1..] == CutOff(parts[1..], keep);
      var first, rest := parts[0], Sum(parts[1..]);
      assert (first + rest) * keep == first * keep + rest * keep;
    }
  }

  /** The whole is reduced as its parts are exactly when what they lose is less than one. */
  lemma ReducedAsWholeIff(parts: seq<int>, keep: nat)
    requires NonNegative(parts)
    ensures Sum(parts) >= 0
    ensures Reduce(Sum(parts), keep) == Sum(ReducedAll(parts, keep)) <==> Sum(CutOff(parts, keep)) < 100
  {
    SumNonNegative(parts);
    SumNonNegative(CutOff(parts, keep));
    SumSplit(parts, keep);
    var w := Sum(parts) * keep;
    assert w == 100 * Sum(ReducedAll(parts, keep)) + Sum(CutOff(parts, keep));
  }

  lemma ArrivingStep(t: seq<Item>, q: seq<nat>, parts: seq<int>, h: nat)
    requires IsPath(t, q) && NonNegative(parts) && q != []
    ensures Arriving(t, q, parts, h) ==
      if q[0] == h then ReducedAll(parts, t[q[0]].keep)
      else Arriving(t, q[1..], ReducedAll(parts, t[q[0]].keep), h)
  {}

  lemma {:induction false} ArrivesAsWholeIff(t: seq<Item>, q: seq<nat>, parts: seq<int>)
    requires IsPath(t, q) && NonNegative(parts)
    ensures Sum(parts) >= 0
    ensures (forall h :: h in q ==> Through(t, q, Sum(parts), h) == Sum(Arriving(t, q, parts, h)))
      <==> FractionsFit(t, q, parts)
    decreases |q|
  {
    SumNonNegative(parts);
    if q != [] {
      var keep := t[q[0]].keep;
      var parts' := ReducedAll(parts, keep);
      ReducedAsWholeIff(parts, keep);
      ArrivesAsWholeIff(t, q[1..], parts');
      ArrivingStep(t, q, parts, q[0]);
      forall h | h in q[1..] ensures h in q && h != q[0] && Arriving(t, q, parts, h) == Arriving(t, q[1..], parts', h) {
        ArrivingStep(t, q, parts, h);
      }
      assert q[0] in q;
      if Sum(CutOff(parts, keep)) < 100 {
        assert forall h :: h in q[1..] ==> Through(t, q, Sum(parts), h) == Through(t, q[1..], Sum(parts'), h);
        assert forall h :: h in q ==> h == q[0] || h in q[1..];
      }
    }
  }

  lemma ArrivesOnTheWay(t: seq<Item>, q: seq<nat>, parts: seq<int>, h: nat)
    requires IsPath(t, q) && NonNegative(parts) && h !in q
    ensures Sum(parts) >= 0 && Through(t, q, Sum(parts), h) == Sum(Arriving(t, q, parts, h)) == 0
  {
    SumNonNegative(parts);
    ThroughOutside(t, q, Sum(parts), h);
    forall i | 0 <= i < |parts| ensures Arriving(t, q, parts, h)[i] == 0 {
      ThroughOutside(t, q, parts[i], h);
    }
    SumZero(Arriving(t, q, parts, h));
  }

  /** The load of a single object is all that comes out of it. */
  lemma SingleExcess(s: Store, op: nat, q: seq<nat>, h: nat)
    requires Sound(s) && op < |s.items| && IsPath(s.items, q) && s.items[op].nrof == 0 && Off(s, op) == 0
    ensures Sum(Outgoing(s.items, op)) == Load(s, op) >= 0
    ensures Excess(s, op, q, h) ==
      Through(s.items, q, Load(s, op), h) - Sum(Arriving(s.items, q, Outgoing(s.items, op), h))
  {
    SumOutgoing(s.items, op);
    assert Pushed(s.items, op, q, h) == Arriving(s.items, q, Outgoing(s.items, op), h);
  }

  /** A single object may be moved exactly when at no holder the fractions add up to a whole. */
  lemma SingleIsMovableIff(s: Store, op: nat, q: seq<nat>)
    requires Sound(s) && op < |s.items| && IsPath(s.items, q) && s.items[op].nrof == 0 && Off(s, op) == 0
    ensures Movable(s, op, q) <==> FractionsFit(s.items, q, Outgoing(s.items, op))
  {
    var t, parts := s.items, Outgoing(s.items, op);
    SumNonNegative(parts);
    forall h | 0 <= h < |t|
      ensures Excess(s, op, q, h) == Through(t, q, Sum(parts), h) - Sum(Arriving(t, q, parts, h))
      ensures h !in q ==> Excess(s, op, q, h) == 0
    {
      SingleExcess(s, op, q, h);
      if h !in q {
        ArrivesOnTheWay(t, q, parts, h);
      }
    }
    ArrivesAsWholeIff(t, q, parts);
  }

  // ---------------------------------------------------------------------------------------
  // Single objects: the bound
  // ---------------------------------------------------------------------------------------

  /** The reducing containers on the way to h, h included. */
  function Reducers(t: seq<Item>, q: seq<nat>, h: nat): nat
    requires IsPath(t, q)
  {
    if q == [] then 0
    else (if t[q[0]].keep < 100 then 1 else 0) + (if q[0] == h then 0 else Reducers(t, q[1..], h))
  }

  /** 1 for everything that lets some weight out. */
  function Marks(parts: seq<int>): (r: seq<int>)
    ensures |r| == |parts| && NonNegative(r)
  {
    seq(|parts|, i requires 0 <= i < |parts| => if parts[i] == 0 then 0 else 1)
  }

  /** How far a whole that is `more` too high is from its parts once both are reduced. */
  lemma ReducedWithin(parts: seq<int>, marks: seq<int>, keep: nat, more: nat, n: nat)
    requires NonNegative(parts) && |marks| == |parts| && keep <= 100
    requires forall i :: 0 <= i < |marks| ==> marks[i] == 1 || (marks[i] == 0 && parts[i] == 0)
    requires n == (if Sum(marks) <= 0 then 0 else Sum(marks) - 1)
    ensures Sum(parts) >= 0
    ensures 0 <= Reduce(Sum(parts) + more, keep) - Sum(ReducedAll(parts, keep)) <= more + (if keep < 100 then n else 0)
  {
    SumNonNegative(parts);
    WeightDrift.ReduceMany(parts, marks, ReducedAll(parts, keep), keep);
    WeightDrift.ReduceTwo(Sum(parts), more, keep);
  }

  lemma OneReducerMore(n: nat, r: nat, one: nat)
    requires one <= 1
    ensures n * (one + r) == (if one == 1 then n else 0) + n * r
  {}

  /** Each reducing container on the way can cost one per part but one. */
  lemma {:induction false} ArrivesWithin(t: seq<Item>, q: seq<nat>, parts: seq<int>, marks: seq<int>,
                                         more: nat, n: nat, h: nat)
    requires WellFormed(t) && IsPath(t, q) && NonNegative(parts) && h in q
    requires |marks| == |parts|
    requires forall i :: 0 <= i < |marks| ==> marks[i] == 1 || (marks[i] == 0 && parts[i] == 0)
    requires n == (if Sum(marks) <= 0 then 0 else Sum(marks) - 1)
    ensures Sum(parts) >= 0
    ensures 0 <= Through(t, q, Sum(parts) + more, h) - Sum(Arriving(t, q, parts, h)) <= more + n * Reducers(t, q, h)
    decreases |q|
  {
    var keep := t[q[0]].keep;
    var parts' := ReducedAll(parts, keep);
    ReducedWithin(parts, marks, keep, more, n);
    SumNonNegative(parts');
    ArrivingStep(t, q, parts, h);
    var r := if q[0] == h then 0 else Reducers(t, q[1..], h);
    OneReducerMore(n, r, if keep < 100 then 1 else 0);
    if q[0] != h {
      ArrivesWithin(t, q[1..], parts', marks, Reduce(Sum(parts) + more, keep) - Sum(parts'), n, h);
    }
  }

  /** How many of op and the things inside it let some weight out of op. */
  function Bearers(t: seq<Item>, op: nat): nat
    requires WellFormed(t) && op < |t|
  {
    SumNonNegative(Marks(Outgoing(t, op)));
    Sum(Marks(Outgoing(t, op)))
  }

  /** The most that a single object's load can come out too high at h. */
  function Slack(t: seq<Item>, op: nat, q: seq<nat>, h: nat): nat
    requires WellFormed(t) && op < |t| && IsPath(t, q)
  {
    (if Bearers(t, op) == 0 then 0 else Bearers(t, op) - 1) * Reducers(t, q, h)
  }

  lemma SingleExcessIsBounded(s: Store, op: nat, q: seq<nat>, h: nat)
    requires Sound(s) && op < |s.items| && IsPath(s.items, q) && s.items[op].nrof == 0 && Off(s, op) == 0
    ensures 0 <= Excess(s, op, q, h) <= Slack(s.items, op, q, h)
  {
    var t, parts, n := s.items, Outgoing(s.items, op), Bearers(s.items, op);
    SingleExcess(s, op, q, h);
    if h in q {
      ArrivesWithin(t, q, parts, Marks(parts), 0, if n == 0 then 0 else n - 1, h);
    } else {
      ArrivesOnTheWay(t, q, parts, h);
    }
  }

  /** From right books, a single object put in is never booked too low, and too high by at most one
      per thing in it that weighs something but one, for every reducing container on the way. */
  lemma PutInIsWithinSlack(s: Store, op: nat, where: nat, h: nat)
    requires IsExact(s) && CanInsert(s.items, op, where) && s.items[op].nrof == 0 && h < |s.items|
    ensures IsPath(s.items, Via(s.items, where))
    ensures 0 <= Off(PutIn(s, op, where), h) <= Slack(s.items, op, Via(s.items, where), h)
  {
    PutInIsOff(s, op, where, h);
    assert s.carrying[h] == Carried(s.items, h) && s.carrying[op] == Carried(s.items, op);
    SingleExcessIsBounded(s, op, Via(s.items, where), h);
  }

  /** Taken out, it leaves its holders booked too low by no more than that. */
  lemma TakeOutIsWithinSlack(s: Store, op: nat, h: nat)
    requires IsExact(s) && op < |s.items| && s.items[op].nrof == 0 && h < |s.items|
    ensures IsPath(s.items, s.items[op].path)
    ensures 0 <= 0 - Off(TakeOut(s, op), h) <= Slack(s.items, op, s.items[op].path, h)
  {
    TakeOutIsOff(s, op, h);
    assert s.carrying[h] == Carried(s.items, h) && s.carrying[op] == Carried(s.items, op);
    SingleExcessIsBounded(s, op, s.items[op].path, h);
  }

  // ---------------------------------------------------------------------------------------
  // Examples
  // ---------------------------------------------------------------------------------------

  /** A bag (0) holding two coins of weight w, and a chest (3), apart. */
  function BagAndChest(n: nat, w: nat, keep: nat): Store {
    var coin := Item([0], w, 1, 100, 0, true);
    Store([Item([], 0, n, 100, 0, true), coin, coin, Item([], 0, 0, keep, 0, true)], [2 * w, 0, 0, 0])
  }

  lemma BagIsExact(n: nat, w: nat, keep: nat)
    requires keep <= 100
    ensures IsExact(BagAndChest(n, w, keep)) && CanInsert(BagAndChest(n, w, keep).items, 0, 3)
    ensures Via(BagAndChest(n, w, keep).items, 3) == [3] && IsPath(BagAndChest(n, w, keep).items, [3])
    ensures Outgoing(BagAndChest(0, w, keep).items, 0) == [0, w, w, 0]
  {
    var t := BagAndChest(n, w, keep).items;
    assert WellFormed(t) by {
      forall i, j | 0 <= i < |t| && 0 <= j < |t[i].path| ensures Nested(t, i, j) {}
    }
    assert Reduce(w, 100) == w;
    assert Shares(t, 0) == [0, w, w, 0];
    assert Sum([0, w, w, 0]) == 2 * w by { SumOfFour(0, w, w, 0); }
    forall h | 1 <= h < 4 ensures Carried(t, h) == 0 {
      ThroughOutside(t, [0], w, h);
      assert Shares(t, h) == [0, 0, 0, 0];
      SumZero(Shares(t, h));
    }
    var t0 := BagAndChest(0, w, keep).items;
    assert WellFormed(t0) by {
      forall i, j | 0 <= i < |t0| && 0 <= j < |t0[i].path| ensures Nested(t0, i, j) {}
    }
    assert Outgoing(t0, 0) == [0, w, w, 0];
  }

  lemma SumOfFour(a: int, b: int, c: int, d: int)
    ensures Sum([a, b, c, d]) == a + b + c + d
  {
    assert [a, b, c, d] == [a] + [b] + [c] + [d];
    SumAppend([a], b);
    SumAppend([a] + [b], c);
    SumAppend([a] + [b] + [c], d);
  }

  lemma BagIntoChest(w: nat, keep: nat, cut: nat)
    requires keep <= 100 && cut == w * keep % 100
    ensures var s := BagAndChest(0, w, keep);
      IsExact(s) && CanInsert(s.items, 0, 3) && (IsExact(PutIn(s, 0, 3)) <==> 2 * cut < 100)
  {
    var s, parts := BagAndChest(0, w, keep), [0, w, w, 0];
    BagIsExact(0, w, keep);
    assert CutOff(parts, keep) == [0, cut, cut, 0];
    SumOfFour(0, cut, cut, 0);
    SingleIsMovableIff(s, 0, [3]);
    PutInIsExactIff(s, 0, 3);
  }

  /** A bag of two coins of weight 1, put into a chest that keeps half, is booked as 1, while each
      coin on its own rounds to nothing; with coins of weight 100 the books are right. */
  lemma BagIntoHalvingChest(w: nat, keep: nat)
    requires keep == 50 && (w == 1 || w == 100)
    ensures var s := BagAndChest(0, w, keep);
      IsExact(s) && CanInsert(s.items, 0, 3) && (IsExact(PutIn(s, 0, 3)) <==> w == 100)
  {
    BagIntoChest(w, keep, if w == 1 then 50 else 0);
  }

  /** A bag with a count of its own is booked without the coins, even by a plain chest. */
  lemma FilledPileIsForgotten()
    ensures var s := BagAndChest(1, 1, 100);
      IsExact(s) && CanInsert(s.items, 0, 3) && s.items[0].nrof == 1 && !IsExact(PutIn(s, 0, 3))
  {
    var s := BagAndChest(1, 1, 100);
    BagIsExact(1, 1, 100);
    PutInIsExactIff(s, 0, 3);
    UnreducedIsMovableIff(s, 0, [3]);
  }

  /** A bag (0) with a lone coin (1) in it, three coins (2) elsewhere, and a free cell (3). */
  function LoneCoin(): Store {
    Store([Item([], 0, 0, 100, 0, true), Item([0], 5, 0, 100, 1, true),
           Item([], 5, 3, 100, 1, true), Item([], 0, 0, 100, 0, false)], [5, 0, 0, 0])
  }

  lemma LoneCoinIsExact()
    ensures IsExact(LoneCoin())
  {
    var t := LoneCoin().items;
    assert WellFormed(t) by {
      forall i, j | 0 <= i < |t| && 0 <= j < |t[i].path| ensures Nested(t, i, j) {}
    }
    assert Reduce(5, 100) == 5;
    assert Shares(t, 0) == [0, 5, 0, 0];
    SumOfFour(0, 5, 0, 0);
    forall h | 1 <= h < 4 ensures Carried(t, h) == 0 {
      ThroughOutside(t, [0], 5, h);
      assert Shares(t, h) == [0, 0, 0, 0];
      SumZero(Shares(t, h));
    }
  }

  /** Raising the count of the lone coin spoils the books. */
  lemma LoneCoinCounted()
    ensures IsExact(LoneCoin()) && !IsExact(Count(LoneCoin(), 1, 1))
  {
    LoneCoinIsExact();
    CountIsExactIff(LoneCoin(), 1, 1);
    assert Reduce(5, 100) == 5;
  }

  lemma FourCoins()
    ensures Population(LoneCoin().items, 1) == 4
  {
    assert UnitRow(LoneCoin().items, 1) == [0, 1, 3, 0];
    SumOfFour(0, 1, 3, 0);
  }

  /** So does putting the three coins in with it, which leaves three of four. */
  lemma LoneCoinJoined()
    ensures var s, m := LoneCoin(), InsertInOb(2, 0, Some(1));
      && IsExact(s) && Possible(s, m) && !IsExact(Step(s, m))
      && Population(Step(s, m).items, 1) == Population(s.items, 1) - 1 == 3
  {
    var s, m := LoneCoin(), InsertInOb(2, 0, Some(1));
    LoneCoinIsExact();
    FourCoins();
    assert Reduce(5, 100) == 5;
    var t := s.items;
    assert Via(t, 0) == [0] && CanInsert(t, 2, 0) && Empty(t, 2) && IsTarget(t, 2, 1);
    assert !Weightless(t, 1);
    StepIsExactIff(s, m);
    StepConserves(s, m, 1);
  }

  /** Splitting no coins off the three makes a fifth. */
  lemma NoCoinsSplit()
    ensures var s, m := LoneCoin(), ObjectSplit(2, 0, 3);
      IsExact(s) && Possible(s, m) && Population(Step(s, m).items, 1) == Population(s.items, 1) + 1 == 5
  {
    var s, m := LoneCoin(), ObjectSplit(2, 0, 3);
    LoneCoinIsExact();
    FourCoins();
    var t := s.items;
    forall i | 0 <= i < |t| ensures !Inside(t, i, 2) && !Inside(t, i, 3) {
      assert t[i].path == [] || t[i].path == [0];
    }
    assert Blank(t, 3);
    StepConserves(s, m, 1);
  }
}
