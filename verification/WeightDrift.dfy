/** object_sum_weight of common/object.cpp against the incremental `carrying`: recomputing adds up
    first and truncates once per container, so it may come out higher, by a bounded amount. */
module WeightDrift {
  import opened Common
  import opened Sums
  import opened Weights

  // ---------------------------------------------------------------------------------------
  // The recomputation
  // ---------------------------------------------------------------------------------------

  /** i is directly in h. */
  predicate Child(t: seq<Item>, i: nat, h: nat)
    requires i < |t|
  {
    t[i].path != [] && t[i].path[0] == h
  }

  predicate HasInventory(t: seq<Item>, h: nat) {
    exists i :: 0 <= i < |t| && Child(t, i, h)
  }

  /** The longest path: how deep inventories are nested. */
  function Depth(t: seq<Item>): (d: nat)
    ensures forall i :: 0 <= i < |t| ==> |t[i].path| <= d
  {
    if t == [] then 0
    else
      var d := Depth(t[1..]);
      assert forall i :: 1 <= i < |t| ==> t[i] == t[1..][i - 1];
      if |t[0].path| > d then |t[0].path| else d
  }

  lemma ChildIsDeeper(t: seq<Item>, i: nat, h: nat)
    requires WellFormed(t) && i < |t| && Child(t, i, h)
    ensures h < |t| && t[i].path == Via(t, h) && |t[h].path| < |t[i].path|
  {
    assert Nested(t, i, 0);
  }

  /** What object_sum_weight stores for h: the weight of everything directly inside, with what
      that carries, reduced once. Objects that hold nothing keep the `carrying` they had. */
  function Recomputed(t: seq<Item>, c: seq<int>, h: nat): nat
    requires WellFormed(t) && |c| == |t| && NonNegative(c) && h < |t|
    decreases Depth(t) - |t[h].path|, 2
  {
    Reduce(Gross(t, c, h), t[h].keep)
  }

  function Gross(t: seq<Item>, c: seq<int>, h: nat): nat
    requires WellFormed(t) && |c| == |t| && NonNegative(c) && h < |t|
    decreases Depth(t) - |t[h].path|, 1
  {
    SumNonNegative(GrossRow(t, c, h));
    Sum(GrossRow(t, c, h))
  }

  /** What each object puts into h when h is recomputed. */
  function GrossRow(t: seq<Item>, c: seq<int>, h: nat): (r: seq<int>)
    requires WellFormed(t) && |c| == |t| && NonNegative(c) && h < |t|
    ensures |r| == |t| && NonNegative(r)
    decreases Depth(t) - |t[h].path|, 0
  {
    seq(|t|, i requires 0 <= i < |t| =>
      if Child(t, i, h) then
        ChildIsDeeper(t, i, h);
        t[i].Own() + (if HasInventory(t, i) then Recomputed(t, c, i) else c[i])
      else 0)
  }

  /** All `carrying` fields after object_sum_weight on h: h and every object inside it that holds
      something are recomputed. */
  function SumWeight(t: seq<Item>, c: seq<int>, h: nat): (c': seq<int>)
    requires WellFormed(t) && |c| == |t| && NonNegative(c) && h < |t|
    ensures |c'| == |c| && NonNegative(c')
  {
    seq(|c|, i requires 0 <= i < |c| =>
      if i == h || (Inside(t, i, h) && HasInventory(t, i)) then Recomputed(t, c, i) else c[i])
  }

  /** A recomputation reads `carrying` only of objects inside that hold nothing. */
  lemma {:induction false} RecomputedSame(t: seq<Item>, c: seq<int>, c': seq<int>, h: nat)
    requires WellFormed(t) && |c| == |c'| == |t| && NonNegative(c) && NonNegative(c') && h < |t|
    requires forall i :: 0 <= i < |t| && Inside(t, i, h) && !HasInventory(t, i) ==> c[i] == c'[i]
    ensures Recomputed(t, c, h) == Recomputed(t, c', h)
    decreases Depth(t) - |t[h].path|
  {
    forall i | 0 <= i < |t| ensures GrossRow(t, c, h)[i] == GrossRow(t, c', h)[i] {
      GrossOf(t, c, h, i);
      GrossOf(t, c', h, i);
      if Child(t, i, h) {
        ChildIsDeeper(t, i, h);
        assert Inside(t, i, h);
        forall x | 0 <= x < |t| && Inside(t, x, i) ensures Inside(t, x, h) {
          NotInsideGrandparent(t, x, i, h);
        }
        RecomputedSame(t, c, c', i);
      }
    }
    assert GrossRow(t, c, h) == GrossRow(t, c', h);
  }

  lemma GrossOf(t: seq<Item>, c: seq<int>, h: nat, i: nat)
    requires WellFormed(t) && |c| == |t| && NonNegative(c) && h < |t| && i < |t|
    ensures GrossRow(t, c, h)[i] ==
      if Child(t, i, h) then t[i].Own() + (if HasInventory(t, i) then Recomputed(t, c, i) else c[i]) else 0
  {}

  /** The loop of object_sum_weight: the objects of ks that hold something are recomputed in turn. */
  function SumEach(t: seq<Item>, c: seq<int>, ks: seq<nat>): (c': seq<int>)
    requires WellFormed(t) && |c| == |t| && NonNegative(c) && forall k :: 0 <= k < |ks| ==> ks[k] < |t|
    ensures |c'| == |c| && NonNegative(c')
    decreases |ks|
  {
    if ks == [] then c
    else
      var n := |ks| - 1;
      var c1 := SumEach(t, c, ks[..n]);
      if HasInventory(t, ks[n]) then SumWeight(t, c1, ks[n]) else c1
  }

  ghost predicate Covers(t: seq<Item>, ks: seq<nat>, i: nat)
    requires i < |t|
  {
    exists k :: 0 <= k < |ks| && Within(t, i, ks[k])
  }

  predicate Within(t: seq<Item>, i: nat, h: nat)
    requires i < |t|
  {
    i == h || Inside(t, i, h)
  }

  lemma SomethingInside(t: seq<Item>, i: nat, h: nat)
    requires WellFormed(t) && i < |t| && Inside(t, i, h)
    ensures HasInventory(t, h)
  {
    var k :| 0 <= k < |t[i].path| && t[i].path[k] == h;
    if k > 0 {
      assert Nested(t, i, k - 1);
      assert Child(t, t[i].path[k - 1], h);
    } else {
      assert Child(t, i, h);
    }
  }

  /** Whatever the order, everything at or below ks that holds something is recomputed once. */
  lemma {:induction false} SumEachIs(t: seq<Item>, c: seq<int>, ks: seq<nat>, i: nat)
    requires WellFormed(t) && |c| == |t| && NonNegative(c) && i < |t|
    requires forall k :: 0 <= k < |ks| ==> ks[k] < |t|
    ensures SumEach(t, c, ks)[i] ==
      if Covers(t, ks, i) && HasInventory(t, i) then Recomputed(t, c, i) else c[i]
    decreases |ks|
  {
    if ks != [] {
      var n := |ks| - 1;
      var x, c1 := ks[n], SumEach(t, c, ks[..n]);
      SumEachIs(t, c, ks[..n], i);
      assert Covers(t, ks, i) <==> Covers(t, ks[..n], i) || Within(t, i, x) by {
        if Covers(t, ks[..n], i) {
          var k :| 0 <= k < n && Within(t, i, ks[..n][k]);
          assert Within(t, i, ks[k]);
        }
        if Covers(t, ks, i) && !Within(t, i, x) {
          var k :| 0 <= k < |ks| && Within(t, i, ks[k]);
          assert Within(t, i, ks[..n][k]);
        }
      }
      if HasInventory(t, x) && Within(t, i, x) && HasInventory(t, i) {
        forall y | 0 <= y < |t| && Inside(t, y, i) && !HasInventory(t, y) ensures c1[y] == c[y] {
          SumEachIs(t, c, ks[..n], y);
        }
        RecomputedSame(t, c, c1, i);
      }
      if Inside(t, i, x) {
        SomethingInside(t, i, x);
      }
    }
  }

  /** The loop over h's inventory ks, followed by the assignment to h's own `carrying`. */
  lemma {:induction false} SumWeightIsLoop(t: seq<Item>, c: seq<int>, h: nat, ks: seq<nat>, terms: seq<int>)
    requires WellFormed(t) && |c| == |t| && NonNegative(c) && h < |t|
    requires forall k :: 0 <= k < |ks| ==> ks[k] < |t| && Child(t, ks[k], h)
    requires forall i :: 0 <= i < |t| && Child(t, i, h) ==> i in ks
    requires forall j, k :: 0 <= j < k < |ks| ==> ks[j] != ks[k]
    requires |terms| == |ks| && forall k :: 0 <= k < |ks| ==> terms[k] == GrossRow(t, c, h)[ks[k]]
    ensures Sum(terms) == Gross(t, c, h)
    ensures SumWeight(t, c, h) == SumEach(t, c, ks)[h := Reduce(Gross(t, c, h), t[h].keep)]
  {
    forall i | 0 <= i < |t| && i !in ks ensures GrossRow(t, c, h)[i] == 0 {
      GrossOf(t, c, h, i);
    }
    SumByList(GrossRow(t, c, h), ks, terms);
    forall i | 0 <= i < |t| && i != h ensures SumWeight(t, c, h)[i] == SumEach(t, c, ks)[i] {
      SumEachIs(t, c, ks, i);
      InsideByChild(t, h, ks, i);
    }
  }

  lemma InsideByChild(t: seq<Item>, h: nat, ks: seq<nat>, i: nat)
    requires WellFormed(t) && h < |t| && i < |t|
    requires forall k :: 0 <= k < |ks| ==> ks[k] < |t| && Child(t, ks[k], h)
    requires forall i :: 0 <= i < |t| && Child(t, i, h) ==> i in ks
    ensures Inside(t, i, h) <==> Covers(t, ks, i)
  {
    if Inside(t, i, h) {
      var j :| 0 <= j < |t[i].path| && t[i].path[j] == h;
      var c := if j == 0 then i else t[i].path[j - 1];
      if j > 0 {
        assert Nested(t, i, j - 1);
      }
      assert Child(t, c, h) && Within(t, i, c);
      var k :| 0 <= k < |ks| && ks[k] == c;
      assert Within(t, i, ks[k]);
    }
    if Covers(t, ks, i) {
      var k :| 0 <= k < |ks| && Within(t, i, ks[k]);
      if Inside(t, i, ks[k]) {
        NotInsideGrandparent(t, i, ks[k], h);
      }
    }
  }

  // ---------------------------------------------------------------------------------------
  // The exact sum, split by children
  // ---------------------------------------------------------------------------------------

  /** The weight of i as it arrives at h, before h reduces it. */
  function Before(t: seq<Item>, i: nat, h: nat): nat
    requires WellFormed(t) && i < |t| && Inside(t, i, h)
  {
    PathOf(t, i);
    Past(t, t[i].path[..Find(t[i].path, h)], t[i].Own())
  }

  lemma {:induction false} ThroughIsReducedPast(t: seq<Item>, p: seq<nat>, w: nat, h: nat)
    requires IsPath(t, p) && h in p
    ensures Through(t, p, w, h) == Reduce(Past(t, p[..Find(p, h)], w), t[h].keep)
  {
    if p[0] != h {
      ThroughIsReducedPast(t, p[1..], Reduce(w, t[p[0]].keep), h);
      assert p[..Find(p, h)][1..] == p[1..][..Find(p[1..], h)];
    }
  }

  lemma ShareIsReducedBefore(t: seq<Item>, i: nat, h: nat)
    requires WellFormed(t) && i < |t| && h < |t|
    ensures Shares(t, h)[i] == if Inside(t, i, h) then Reduce(Before(t, i, h), t[h].keep) else 0
  {
    PathOf(t, i);
    if Inside(t, i, h) {
      ThroughIsReducedPast(t, t[i].path, t[i].Own(), h);
    } else {
      ThroughOutside(t, t[i].path, t[i].Own(), h);
    }
  }

  function BeforeRow(t: seq<Item>, h: nat): (r: seq<int>)
    requires WellFormed(t)
    ensures |r| == |t| && NonNegative(r)
  {
    seq(|t|, i requires 0 <= i < |t| => if Inside(t, i, h) then Before(t, i, h) else 0)
  }

  /** What child c of h brings to h on behalf of object i. */
  function Brings(t: seq<Item>, h: nat, c: nat, i: nat): int
    requires WellFormed(t) && c < |t| && i < |t|
  {
    if !Child(t, c, h) then 0 else if i == c then t[c].Own() else Shares(t, c)[i]
  }

  /** Weight arrives at h by exactly one child. */
  lemma ArrivesByOneChild(t: seq<Item>, h: nat, i: nat) returns (c: nat)
    requires WellFormed(t) && i < |t| && h < |t|
    ensures c < |t| && forall c' :: 0 <= c' < |t| && c' != c ==> Brings(t, h, c', i) == 0
    ensures Brings(t, h, c, i) == BeforeRow(t, h)[i]
  {
    PathOf(t, i);
    var p := t[i].path;
    var k := if Inside(t, i, h) then Find(p, h) else 0;
    c := if k == 0 then i else p[k - 1];
    forall c' | 0 <= c' < |t| && c' != c ensures Brings(t, h, c', i) == 0 {
      BringsNothing(t, h, c', i, c);
    }
    if !Inside(t, i, h) {
      assert !Child(t, i, h);
    } else if k > 0 {
      BringsAll(t, h, c, i, k);
    }
  }

  lemma BringsNothing(t: seq<Item>, h: nat, c: nat, i: nat, only: nat)
    requires WellFormed(t) && c < |t| && i < |t| && h < |t| && c != only
    requires only == if Inside(t, i, h) && Find(t[i].path, h) > 0 then t[i].path[Find(t[i].path, h) - 1] else i
    ensures Brings(t, h, c, i) == 0
  {
    if Child(t, c, h) {
      if Inside(t, i, c) {
        NotInsideGrandparent(t, i, c, h);
      }
      if Inside(t, i, h) && i != c {
        OnlyOneChildBetween(t, i, h, c);
      }
      ShareIsReducedBefore(t, i, c);
    }
  }

  lemma BringsAll(t: seq<Item>, h: nat, c: nat, i: nat, k: nat)
    requires WellFormed(t) && i < |t| && h < |t| && Inside(t, i, h)
    requires k == Find(t[i].path, h) && k > 0 && c == t[i].path[k - 1]
    ensures c < |t| && Brings(t, h, c, i) == Before(t, i, h)
  {
    PathOf(t, i);
    assert Nested(t, i, k - 1);
    assert Child(t, c, h) && c != i;
    ThroughFront(t, t[i].path, k, t[i].Own());
  }

  /** The k-th holder gets what comes past the first k. */
  lemma ThroughFront(t: seq<Item>, p: seq<nat>, k: nat, w: nat)
    requires IsPath(t, p) && 0 < k <= |p|
    ensures IsPath(t, p[..k]) && Through(t, p, w, p[k - 1]) == Past(t, p[..k], w)
  {
    var a, b := p[..k], p[k..];
    assert a + b == p && a[k - 1] == p[k - 1];
    ThroughConcat(t, a, b, w, p[k - 1]);
    ThroughLast(t, a, w);
  }

  lemma NotInsideGrandparent(t: seq<Item>, i: nat, c: nat, h: nat)
    requires WellFormed(t) && i < |t| && c < |t| && Inside(t, i, c) && Child(t, c, h)
    ensures Inside(t, i, h)
  {
    var j :| 0 <= j < |t[i].path| && t[i].path[j] == c;
    assert Nested(t, i, j);
    assert t[i].path[j + 1..][0] == h;
  }

  /** The child of h on i's path is the holder just before h. */
  lemma OnlyOneChildBetween(t: seq<Item>, i: nat, h: nat, c: nat)
    requires WellFormed(t) && i < |t| && h < |t| && c < |t| && Inside(t, i, h) && Child(t, c, h)
    requires i != c
    ensures var k := Find(t[i].path, h);
            Inside(t, i, c) ==> k > 0 && t[i].path[k - 1] == c
  {
    if Inside(t, i, c) {
      PathOf(t, i);
      var j :| 0 <= j < |t[i].path| && t[i].path[j] == c;
      assert Nested(t, i, j);
      assert t[i].path[j + 1] == t[i].path[j + 1..][0] == h;
    }
  }

  /** What arrives at h, before h's own reduction, is each child's own weight and load. */
  lemma {:induction false} ArrivalsByChild(t: seq<Item>, h: nat)
    requires WellFormed(t) && h < |t|
    ensures Sum(BeforeRow(t, h)) == Sum(LoadRow(t, h))
  {
    var m := seq(|t|, c requires 0 <= c < |t| => seq(|t|, i requires 0 <= i < |t| => Brings(t, h, c, i)));
    forall c | 0 <= c < |t| ensures LoadRow(t, h)[c] == Sum(m[c]) {
      if Child(t, c, h) {
        PathOf(t, c);
        assert Shares(t, c)[c] == 0 by { ShareIsReducedBefore(t, c, c); }
        assert m[c] == Shares(t, c)[c := t[c].Own()];
        SumUpdate(Shares(t, c), c, t[c].Own());
      } else {
        SumZero(m[c]);
      }
    }
    forall i | 0 <= i < |t| ensures BeforeRow(t, h)[i] == Sum(Column(m, i, |t|)) {
      var c := ArrivesByOneChild(t, h, i);
      SumSingle(Column(m, i, |t|), c);
    }
    SumSwap(m, LoadRow(t, h), BeforeRow(t, h));
  }

  /** Own weight and load of each child of h. */
  function LoadRow(t: seq<Item>, h: nat): (r: seq<int>)
    requires WellFormed(t)
    ensures |r| == |t|
  {
    seq(|t|, c requires 0 <= c < |t| => if Child(t, c, h) then t[c].Own() + Carried(t, c) else 0)
  }

  // ---------------------------------------------------------------------------------------
  // Rounding
  // ---------------------------------------------------------------------------------------

  /** How many objects are inside h. */
  function HowManyInside(t: seq<Item>, h: nat): nat {
    SumNonNegative(InsideRow(t, h));
    Sum(InsideRow(t, h))
  }

  function InsideRow(t: seq<Item>, h: nat): (r: seq<int>)
    ensures |r| == |t| && NonNegative(r)
  {
    seq(|t|, i requires 0 <= i < |t| => if Inside(t, i, h) then 1 else 0)
  }

  lemma ReduceTwo(a: nat, b: nat, keep: nat)
    requires keep <= 100
    ensures Reduce(a, keep) + Reduce(b, keep) <= Reduce(a + b, keep) <= Reduce(a, keep) + Reduce(b, keep) + 1
    ensures Reduce(a + b, keep) <= Reduce(a, keep) + b
    ensures keep == 100 ==> Reduce(a, keep) == a
  {
    var x, y := a * keep, b * keep;
    assert (a + b) * keep == x + y;
    assert y <= b * 100 by { assert b * (100 - keep) >= 0; }
  }

  /** Truncating every part against truncating the whole: at most one lost per part but one. */
  lemma {:induction false} ReduceMany(parts: seq<int>, marks: seq<int>, reduced: seq<int>, keep: nat)
    requires |parts| == |marks| == |reduced| && keep <= 100
    requires forall i :: 0 <= i < |parts| ==> parts[i] >= 0 && reduced[i] == Reduce(parts[i], keep)
    requires forall i :: 0 <= i < |parts| ==> marks[i] == 1 || (marks[i] == 0 && parts[i] == 0)
    ensures Sum(parts) >= 0
    ensures Sum(marks) >= 0 && (Sum(marks) == 0 ==> Sum(parts) == 0)
    ensures Sum(reduced) <= Reduce(Sum(parts), keep)
    ensures Reduce(Sum(parts), keep) <= Sum(reduced) + (if Sum(marks) == 0 then 0 else Sum(marks) - 1)
    ensures keep == 100 ==> Reduce(Sum(parts), keep) == Sum(reduced)
  {
    if parts != [] {
      ReduceMany(parts[1..], marks[1..], reduced[1..], keep);
      ReduceTwo(parts[0], Sum(parts[1..]), keep);
      ReduceTwo(Sum(parts[1..]), parts[0], keep);
    }
  }

  // ---------------------------------------------------------------------------------------
  // The bound
  // ---------------------------------------------------------------------------------------

  /** At most this much more than `carrying` is recomputed: for every weight-reducing object in
      the tree, the number of objects inside it less one. */
  function Slack(t: seq<Item>, h: nat): nat
    requires WellFormed(t) && h < |t|
    decreases Depth(t) - |t[h].path|, 1
  {
    SumNonNegative(SlackRow(t, h));
    (if t[h].keep == 100 || HowManyInside(t, h) == 0 then 0 else HowManyInside(t, h) - 1) + Sum(SlackRow(t, h))
  }

  function SlackRow(t: seq<Item>, h: nat): (r: seq<int>)
    requires WellFormed(t) && h < |t|
    ensures |r| == |t| && NonNegative(r)
    decreases Depth(t) - |t[h].path|, 0
  {
    seq(|t|, i requires 0 <= i < |t| =>
      if Child(t, i, h) then
        ChildIsDeeper(t, i, h);
        Slack(t, i)
      else 0)
  }

  lemma SlackOf(t: seq<Item>, h: nat, i: nat)
    requires WellFormed(t) && h < |t| && i < |t|
    ensures SlackRow(t, h)[i] == if Child(t, i, h) then Slack(t, i) else 0
  {}

  lemma DriftOfChild(t: seq<Item>, c: seq<int>, h: nat, i: nat)
    requires Exact(t, c) && NonNegative(c) && h < |t| && i < |t|
    requires Child(t, i, h) && HasInventory(t, i) ==> 0 <= Recomputed(t, c, i) - c[i] <= Slack(t, i)
    ensures 0 <= GrossRow(t, c, h)[i] - LoadRow(t, h)[i] <= SlackRow(t, h)[i]
  {
    GrossOf(t, c, h, i);
    SlackOf(t, h, i);
    assert c[i] == Carried(t, i);
    assert LoadRow(t, h)[i] == if Child(t, i, h) then t[i].Own() + Carried(t, i) else 0;
  }

  /** On books that are right, recomputing an object's load never comes out lower than the
      incremental one, and higher by no more than the slack of the tree below it. */
  lemma {:induction false} RecomputedIsWithinSlack(t: seq<Item>, c: seq<int>, h: nat)
    requires Exact(t, c) && NonNegative(c) && h < |t|
    ensures 0 <= Recomputed(t, c, h) - c[h] <= Slack(t, h)
    decreases Depth(t) - |t[h].path|
  {
    var drift := seq(|t|, i requires 0 <= i < |t| => GrossRow(t, c, h)[i] - LoadRow(t, h)[i]);
    forall i | 0 <= i < |t| ensures 0 <= drift[i] <= SlackRow(t, h)[i] {
      if Child(t, i, h) && HasInventory(t, i) {
        ChildIsDeeper(t, i, h);
        RecomputedIsWithinSlack(t, c, i);
      }
      DriftOfChild(t, c, h, i);
    }
    SumAdd(LoadRow(t, h), drift, GrossRow(t, c, h));
    SumNonNegative(drift);
    SumAtLeast(drift, SlackRow(t, h));
    ArrivalsByChild(t, h);
    forall i | 0 <= i < |t| ensures Shares(t, h)[i] == Reduce(BeforeRow(t, h)[i], t[h].keep) {
      ShareIsReducedBefore(t, i, h);
    }
    ReduceMany(BeforeRow(t, h), InsideRow(t, h), Shares(t, h), t[h].keep);
    ReduceTwo(Sum(BeforeRow(t, h)), Sum(drift), t[h].keep);
  }

  ghost predicate NothingReduces(t: seq<Item>, h: nat)
    requires h < |t|
  {
    t[h].keep == 100 && forall i :: 0 <= i < |t| && Inside(t, i, h) ==> t[i].keep == 100
  }

  /** Without weight-reducing containers, recomputing changes nothing in the whole tree. */
  lemma RecomputedAgrees(t: seq<Item>, c: seq<int>, h: nat)
    requires Exact(t, c) && NonNegative(c) && h < |t| && NothingReduces(t, h)
    ensures SumWeight(t, c, h) == c
  {
    forall i | 0 <= i < |t| && (i == h || Inside(t, i, h)) ensures Recomputed(t, c, i) == c[i] {
      if i != h {
        NothingReducesInside(t, i, h);
      }
      NoSlack(t, i);
      RecomputedIsWithinSlack(t, c, i);
    }
  }

  lemma NothingReducesInside(t: seq<Item>, i: nat, h: nat)
    requires WellFormed(t) && i < |t| && h < |t| && Inside(t, i, h) && NothingReduces(t, h)
    ensures NothingReduces(t, i)
  {
    forall x | 0 <= x < |t| && Inside(t, x, i) ensures Inside(t, x, h) {
      var j :| 0 <= j < |t[x].path| && t[x].path[j] == i;
      assert Nested(t, x, j);
      var k :| 0 <= k < |t[i].path| && t[i].path[k] == h;
      assert t[x].path[j + 1..][k] == t[x].path[j + 1 + k];
    }
  }

  lemma {:induction false} NoSlack(t: seq<Item>, h: nat)
    requires WellFormed(t) && h < |t| && NothingReduces(t, h)
    ensures Slack(t, h) == 0
    decreases Depth(t) - |t[h].path|
  {
    forall i | 0 <= i < |t| ensures SlackRow(t, h)[i] == 0 {
      if Child(t, i, h) {
        ChildIsDeeper(t, i, h);
        NothingReducesInside(t, i, h);
        NoSlack(t, i);
      }
    }
    SumZero(SlackRow(t, h));
  }

  /** In a container of n piles, n at least 1, the drift is at most n - 1. */
  lemma {:induction false} LeafPilesDrift(t: seq<Item>, c: seq<int>, h: nat)
    requires Exact(t, c) && NonNegative(c) && h < |t|
    requires HowManyInside(t, h) >= 1
    requires forall i :: 0 <= i < |t| && Inside(t, i, h) ==> Empty(t, i)
    ensures 0 <= Recomputed(t, c, h) - c[h] <= HowManyInside(t, h) - 1
  {
    forall i | 0 <= i < |t| ensures SlackRow(t, h)[i] == 0 {
      if Child(t, i, h) {
        assert Inside(t, i, h);
        ChildIsDeeper(t, i, h);
        EmptyHasNoSlack(t, i);
      }
    }
    SumZero(SlackRow(t, h));
    RecomputedIsWithinSlack(t, c, h);
  }

  lemma {:induction false} EmptyHasNoSlack(t: seq<Item>, h: nat)
    requires WellFormed(t) && h < |t| && Empty(t, h)
    ensures Slack(t, h) == 0
  {
    forall i | 0 <= i < |t| ensures !Inside(t, i, h) && !Child(t, i, h) {
      assert !Inside(t, i, h);
    }
    SumZero(InsideRow(t, h));
    SumZero(SlackRow(t, h));
  }
}
