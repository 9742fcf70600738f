/** What objects carry: the arithmetic behind `carrying` in common/object.cpp, on plain values.

    Objects are numbered. An object's `path` lists its holders from the inside out, so the
    holder of an object is path[0] and path[1..] is that holder's own path. */
module Weights {
  import opened Sums

  /** weight, nrof: the source's fields. keep: the percentage of weight that gets out of the
      object, 100 for anything but a weight-reducing container. kind: whatever else two objects
      must have in common to merge. live: not on the free list. */
  datatype Item = Item(path: seq<nat>, weight: nat, nrof: nat, keep: nat, kind: nat, live: bool) {
    /** NROF */
    function Units(): nat {
      if nrof == 0 then 1 else nrof
    }

    function Own(): nat {
      weight * Units()
    }
  }

  /** Paths agree with each other and containers keep between none and all of the weight. */
  ghost predicate WellFormed(t: seq<Item>) {
    && (forall i :: 0 <= i < |t| ==> t[i].keep <= 100)
    && (forall i, j :: 0 <= i < |t| && 0 <= j < |t[i].path| ==> Nested(t, i, j))
  }

  /** The j-th holder of i exists and its own path is the rest of i's. */
  ghost predicate Nested(t: seq<Item>, i: nat, j: nat)
    requires i < |t| && j < |t[i].path|
  {
    t[i].path[j] < |t| && t[t[i].path[j]].path == t[i].path[j + 1..]
  }

  /** o lies somewhere inside h. */
  predicate Inside(t: seq<Item>, o: nat, h: nat)
    requires o < |t|
  {
    h in t[o].path
  }

  predicate IsPath(t: seq<Item>, p: seq<nat>) {
    && (forall j :: 0 <= j < |p| ==> p[j] < |t|)
    && (forall j, k :: 0 <= j < k < |p| ==> p[j] != p[k])
  }

  /** Weight after one container's reduction, rounded towards zero. */
  function Reduce(w: nat, keep: nat): nat {
    w * keep / 100
  }

  /** The weight that reaches h when w is pushed outwards along p. */
  function Through(t: seq<Item>, p: seq<nat>, w: nat, h: nat): nat
    requires IsPath(t, p)
  {
    if p == [] then 0
    else
      var w' := Reduce(w, t[p[0]].keep);
      if p[0] == h then w' else Through(t, p[1..], w', h)
  }

  /** The weight left over when w has been pushed along the whole of p. */
  function Past(t: seq<Item>, p: seq<nat>, w: nat): nat
    requires IsPath(t, p)
  {
    if p == [] then w else Past(t, p[1..], Reduce(w, t[p[0]].keep))
  }

  lemma PathOf(t: seq<Item>, i: nat)
    requires WellFormed(t) && i < |t|
    ensures IsPath(t, t[i].path) && i !in t[i].path
    ensures IsPath(t, [i] + t[i].path)
  {
    var p := t[i].path;
    forall j, k | 0 <= j < k < |p| ensures p[j] != p[k] {
      assert Nested(t, i, j) && Nested(t, i, k);
    }
    forall j | 0 <= j < |p| ensures p[j] < |t| && p[j] != i {
      assert Nested(t, i, j);
    }
  }

  /** What each object contributes to h. */
  function Shares(t: seq<Item>, h: nat): (s: seq<int>)
    requires WellFormed(t)
    ensures |s| == |t| && forall i :: 0 <= i < |t| ==> s[i] >= 0
  {
    seq(|t|, i requires 0 <= i < |t| => PathOf(t, i); Through(t, t[i].path, t[i].Own(), h))
  }

  /** The sum, over all objects inside h, of weight times count pushed outwards with the
      truncation of every container on the way. */
  function Carried(t: seq<Item>, h: nat): nat
    requires WellFormed(t)
  {
    SumNonNegative(Shares(t, h));
    Sum(Shares(t, h))
  }

  /** Every object's `carrying` is what it should be. */
  ghost predicate Exact(t: seq<Item>, carrying: seq<int>) {
    && WellFormed(t) && |carrying| == |t|
    && forall h :: 0 <= h < |t| ==> carrying[h] == Carried(t, h)
  }

  // ---------------------------------------------------------------------------------------
  // Pushing weight along a path
  // ---------------------------------------------------------------------------------------

  lemma {:induction false} ThroughOutside(t: seq<Item>, p: seq<nat>, w: nat, h: nat)
    requires IsPath(t, p) && h !in p
    ensures Through(t, p, w, h) == 0
  {
    if p != [] {
      ThroughOutside(t, p[1..], Reduce(w, t[p[0]].keep), h);
    }
  }

  lemma {:induction false} ThroughConcat(t: seq<Item>, p: seq<nat>, q: seq<nat>, w: nat, h: nat)
    requires IsPath(t, p + q) && IsPath(t, p) && IsPath(t, q)
    ensures Through(t, p + q, w, h) == if h in p then Through(t, p, w, h) else Through(t, q, Past(t, p, w), h)
  {
    if p == [] {
      assert p + q == q;
    } else {
      assert (p + q)[1..] == p[1..] + q;
      ThroughConcat(t, p[1..], q, Reduce(w, t[p[0]].keep), h);
    }
  }

  lemma HalvesDisjoint(t: seq<Item>, p: seq<nat>, q: seq<nat>)
    requires IsPath(t, p + q)
    ensures forall h :: h in p ==> h !in q
  {
    forall j, k | 0 <= j < |p| && 0 <= k < |q| ensures p[j] != q[k] {
      assert (p + q)[j] == p[j] && (p + q)[|p| + k] == q[k];
    }
  }

  /** The last holder on a path receives all that gets past it. */
  lemma {:induction false} ThroughLast(t: seq<Item>, p: seq<nat>, w: nat)
    requires IsPath(t, p) && p != []
    ensures Through(t, p, w, p[|p| - 1]) == Past(t, p, w)
  {
    if |p| > 1 {
      ThroughLast(t, p[1..], Reduce(w, t[p[0]].keep));
    }
  }

  ghost predicate NoReduction(t: seq<Item>, p: seq<nat>)
    requires IsPath(t, p)
  {
    forall j :: 0 <= j < |p| ==> t[p[j]].keep == 100
  }

  lemma {:induction false} ThroughUnreduced(t: seq<Item>, p: seq<nat>, w: nat, h: nat)
    requires IsPath(t, p) && NoReduction(t, p)
    ensures Through(t, p, w, h) == if h in p then w else 0
  {
    if p != [] {
      assert Reduce(w, 100) == w;
      ThroughUnreduced(t, p[1..], w, h);
    }
  }

  /** Weight that does not get past the first holder reaches nobody. */
  lemma {:induction false} LightWeight(t: seq<Item>, p: seq<nat>, w: nat, h: nat)
    requires IsPath(t, p) && p != [] && Reduce(w, t[p[0]].keep) == 0
    ensures Through(t, p, w, h) == 0
  {
    if |p| > 1 {
      LightWeight(t, p[1..], 0, h);
    }
  }

  lemma ThroughZero(t: seq<Item>, p: seq<nat>, h: nat)
    requires IsPath(t, p)
    ensures Through(t, p, 0, h) == 0
  {
    if p != [] {
      LightWeight(t, p, 0, h);
    }
  }

  /** Only the keeps along the path matter. */
  lemma {:induction false} ThroughSame(t: seq<Item>, t': seq<Item>, p: seq<nat>, w: nat, h: nat)
    requires IsPath(t, p) && IsPath(t', p)
    requires forall j :: 0 <= j < |p| ==> t[p[j]].keep == t'[p[j]].keep
    ensures Through(t, p, w, h) == Through(t', p, w, h)
  {
    if p != [] {
      ThroughSame(t, t', p[1..], Reduce(w, t[p[0]].keep), h);
    }
  }

  /** `carrying` after w was added at p[0] and, reduced, at every holder further out. */
  function AddAlong(t: seq<Item>, c: seq<int>, p: seq<nat>, w: nat): (c': seq<int>)
    requires IsPath(t, p)
    ensures |c'| == |c|
  {
    seq(|c|, h requires 0 <= h < |c| => c[h] + Through(t, p, w, h))
  }

  function SubAlong(t: seq<Item>, c: seq<int>, p: seq<nat>, w: nat): (c': seq<int>)
    requires IsPath(t, p)
    ensures |c'| == |c|
  {
    seq(|c|, h requires 0 <= h < |c| => c[h] - Through(t, p, w, h))
  }

  lemma AddAlongSame(t: seq<Item>, t': seq<Item>, c: seq<int>, p: seq<nat>, w: nat)
    requires IsPath(t, p) && IsPath(t', p)
    requires forall j :: 0 <= j < |p| ==> t[p[j]].keep == t'[p[j]].keep
    ensures AddAlong(t, c, p, w) == AddAlong(t', c, p, w)
  {
    forall h | 0 <= h < |c| ensures AddAlong(t, c, p, w)[h] == AddAlong(t', c, p, w)[h] {
      ThroughSame(t, t', p, w, h);
    }
  }

  /** One round of the loops in object_add_weight and object_sub_weight. */
  lemma AlongStep(t: seq<Item>, c: seq<int>, p: seq<nat>, w: nat)
    requires IsPath(t, p) && p != [] && |c| == |t|
    ensures var w' := Reduce(w, t[p[0]].keep);
            && AddAlong(t, c[p[0] := c[p[0]] + w'], p[1..], w') == AddAlong(t, c, p, w)
            && SubAlong(t, c[p[0] := c[p[0]] - w'], p[1..], w') == SubAlong(t, c, p, w)
  {
    ThroughOutside(t, p[1..], Reduce(w, t[p[0]].keep), p[0]);
  }

  // ---------------------------------------------------------------------------------------
  // Moving objects
  // ---------------------------------------------------------------------------------------

  /** The path through `where` and everything that holds it. */
  function Via(t: seq<Item>, where: nat): seq<nat>
    requires where < |t|
  {
    [where] + t[where].path
  }

  /** op, with all it contains, put into `where`. */
  function Insert(t: seq<Item>, op: nat, where: nat): (t': seq<Item>)
    requires op < |t| && where < |t|
    ensures |t'| == |t|
  {
    seq(|t|, i requires 0 <= i < |t| =>
      if i == op || Inside(t, i, op) then t[i].(path := t[i].path + Via(t, where)) else t[i])
  }

  /** op, with all it contains, taken out of whatever holds it. */
  function Remove(t: seq<Item>, op: nat): (t': seq<Item>)
    requires op < |t|
    ensures |t'| == |t|
  {
    seq(|t|, i requires 0 <= i < |t| =>
      if (i == op || Inside(t, i, op)) && |t[op].path| <= |t[i].path|
      then t[i].(path := t[i].path[..|t[i].path| - |t[op].path|]) else t[i])
  }

  /** op is in nothing, and `where` is not part of op. */
  ghost predicate CanInsert(t: seq<Item>, op: nat, where: nat) {
    && WellFormed(t) && op < |t| && where < |t|
    && t[op].path == [] && where != op && !Inside(t, where, op)
  }

  /** Inside an object that is in nothing, paths end with that object. */
  lemma PathEndsAt(t: seq<Item>, i: nat, op: nat)
    requires WellFormed(t) && op < |t| && i < |t| && Inside(t, i, op)
    ensures |t[i].path| > |t[op].path|
    ensures t[i].path[|t[i].path| - |t[op].path| - 1] == op
    ensures t[i].path[|t[i].path| - |t[op].path|..] == t[op].path
  {
    var j :| 0 <= j < |t[i].path| && t[i].path[j] == op;
    assert Nested(t, i, j);
  }

  /** op itself or something inside it. */
  predicate Moves(t: seq<Item>, op: nat, i: nat)
    requires i < |t|
  {
    i == op || Inside(t, i, op)
  }

  /** The holders of something inside op, as far as op, move with it; further ones do not. */
  lemma HolderMoves(t: seq<Item>, op: nat, i: nat, j: nat)
    requires WellFormed(t) && op < |t| && i < |t| && j < |t[i].path|
    ensures t[i].path[j] < |t| && Nested(t, i, j)
    ensures Moves(t, op, t[i].path[j]) <==> Moves(t, op, i) && j < |t[i].path| - |t[op].path|
  {
    assert Nested(t, i, j);
    var h := t[i].path[j];
    if Moves(t, op, i) && j < |t[i].path| - |t[op].path| {
      if i == op {
        assert false;
      } else {
        PathEndsAt(t, i, op);
        var last := |t[i].path| - |t[op].path| - 1;
        if j < last {
          assert t[h].path[last - j - 1] == op;
        }
      }
    }
    if Moves(t, op, h) && h != op {
      PathEndsAt(t, h, op);
      assert op in t[i].path;
    }
  }

  lemma InsertWellFormed(t: seq<Item>, op: nat, where: nat)
    requires CanInsert(t, op, where)
    ensures WellFormed(Insert(t, op, where))
  {
    var t' := Insert(t, op, where);
    forall i, j | 0 <= i < |t'| && 0 <= j < |t'[i].path|
      ensures Nested(t', i, j)
    {
      InsertNested(t, op, where, i, j);
    }
  }

  lemma InsertNested(t: seq<Item>, op: nat, where: nat, i: nat, j: nat)
    requires CanInsert(t, op, where) && i < |t| && j < |Insert(t, op, where)[i].path|
    ensures Nested(Insert(t, op, where), i, j)
  {
    var t' := Insert(t, op, where);
    var q := Via(t, where);
    var n := |t[i].path|;
    if j < n {
      HolderMoves(t, op, i, j);
      if Moves(t, op, i) {
        assert (t[i].path + q)[j + 1..] == t[i].path[j + 1..] + q;
      }
    } else {
      var h := q[j - n];
      assert t'[i].path[j + 1..] == q[j - n + 1..];
      if j == n {
        assert q[1..] == t[where].path;
      } else {
        HolderMoves(t, op, where, j - n - 1);
        assert q[j - n + 1..] == t[where].path[j - n..];
      }
      assert !Moves(t, op, h);
    }
  }

  /** Taking out undoes putting in. */
  lemma RemoveUndoesInsert(t: seq<Item>, op: nat, where: nat)
    requires CanInsert(t, op, where)
    ensures Remove(Insert(t, op, where), op) == t
  {
    var t' := Insert(t, op, where);
    var q := Via(t, where);
    assert t'[op].path == q;
    forall i | 0 <= i < |t| ensures Remove(t', op)[i] == t[i] {
      if i == op || Inside(t, i, op) {
        assert t'[i].path == t[i].path + q;
        assert op in t[i].path + q <==> op in t[i].path || op in q;
        assert t'[i].path[..|t'[i].path| - |q|] == t[i].path;
      }
    }
  }

  /** Putting back undoes taking out. */
  lemma InsertUndoesRemove(t: seq<Item>, op: nat)
    requires WellFormed(t) && op < |t| && t[op].path != []
    ensures var where := t[op].path[0];
            where < |t| && CanInsert(Remove(t, op), op, where) && Insert(Remove(t, op), op, where) == t
  {
    var t0 := Remove(t, op);
    var where := t[op].path[0];
    PathOf(t, op);
    assert Nested(t, op, 0);
    RemoveWellFormed(t, op);
    assert !Moves(t, op, where);
    assert Via(t0, where) == t[op].path;
    forall i | 0 <= i < |t| ensures Insert(t0, op, where)[i] == t[i] {
      if Moves(t, op, i) {
        RemovedPath(t, i, op);
      }
    }
  }

  lemma RemovedPath(t: seq<Item>, i: nat, op: nat)
    requires WellFormed(t) && op < |t| && i < |t| && Moves(t, op, i)
    ensures Remove(t, op)[i].path + t[op].path == t[i].path
    ensures i != op ==> op in Remove(t, op)[i].path
  {
    if i != op {
      PathEndsAt(t, i, op);
      var n := |t[i].path| - |t[op].path|;
      assert Remove(t, op)[i].path == t[i].path[..n];
      assert t[i].path[..n][n - 1] == op;
    }
  }

  lemma RemoveWellFormed(t: seq<Item>, op: nat)
    requires WellFormed(t) && op < |t|
    ensures WellFormed(Remove(t, op))
    ensures Remove(t, op)[op].path == []
  {
    var t' := Remove(t, op);
    forall i, j | 0 <= i < |t'| && 0 <= j < |t'[i].path|
      ensures Nested(t', i, j)
    {
      HolderMoves(t, op, i, j);
      var h := t[i].path[j];
      if Moves(t, op, i) {
        RemovedPath(t, i, op);
        RemovedPath(t, h, op);
        assert t'[i].path[j + 1..] + t[op].path == t[i].path[j + 1..];
        SameSuffix(t'[i].path[j + 1..], t'[h].path, t[op].path);
      }
    }
  }

  lemma SameSuffix(a: seq<nat>, b: seq<nat>, s: seq<nat>)
    requires a + s == b + s
    ensures a == b
  {
    assert |a| == |b|;
    assert a == (a + s)[..|a|];
    assert b == (b + s)[..|b|];
  }

  // ---------------------------------------------------------------------------------------
  // What moving does to the sums
  // ---------------------------------------------------------------------------------------

  /** Nothing is inside op. */
  predicate Empty(t: seq<Item>, op: nat) {
    forall i :: 0 <= i < |t| ==> !Inside(t, i, op)
  }

  lemma {:induction false} NothingInsideCarriesNothing(t: seq<Item>, op: nat)
    requires WellFormed(t) && op < |t| && Empty(t, op)
    ensures Carried(t, op) == 0
  {
    forall i | 0 <= i < |t| ensures Shares(t, op)[i] == 0 {
      PathOf(t, i);
      assert !Inside(t, i, op);
      ThroughOutside(t, t[i].path, t[i].Own(), op);
    }
    SumZero(Shares(t, op));
  }

  /** The share of something that stays where it is does not change. */
  lemma StayingShare(t: seq<Item>, op: nat, where: nat, i: nat, h: nat)
    requires CanInsert(t, op, where) && WellFormed(Insert(t, op, where))
    requires i < |t| && h < |t| && !Moves(t, op, i)
    ensures Shares(Insert(t, op, where), h)[i] == Shares(t, h)[i]
  {
    PathOf(t, i);
    ThroughSame(t, Insert(t, op, where), t[i].path, t[i].Own(), h);
  }

  /** The share of something inside op: unchanged up to op, and from there what got past op. */
  lemma MovingShare(t: seq<Item>, op: nat, where: nat, i: nat, h: nat)
    requires CanInsert(t, op, where) && WellFormed(Insert(t, op, where))
    requires i < |t| && h < |t| && Moves(t, op, i)
    ensures IsPath(t, t[i].path) && IsPath(t, Via(t, where))
    ensures Shares(Insert(t, op, where), h)[i] ==
      Shares(t, h)[i] + Through(t, Via(t, where), Past(t, t[i].path, t[i].Own()), h)
    ensures Past(t, t[i].path, t[i].Own()) == if i == op then t[op].Own() else Shares(t, op)[i]
  {
    var t', p, q := Insert(t, op, where), t[i].path, Via(t, where);
    PathOf(t, i);
    PathOf(t, where);
    PathOf(t', i);
    assert t'[i].path == p + q;
    ThroughSame(t, t', p + q, t[i].Own(), h);
    ThroughConcat(t, p, q, t[i].Own(), h);
    if h in p {
      HalvesDisjoint(t, p, q);
      ThroughOutside(t, q, Past(t, p, t[i].Own()), h);
    } else {
      ThroughOutside(t, p, t[i].Own(), h);
    }
    if i != op {
      PathEndsAt(t, i, op);
      assert p != [] && p[|p| - 1] == op;
      ThroughLast(t, p, t[i].Own());
    }
  }

  /** What op itself, and everything inside it, lets out of op. */
  function Outgoing(t: seq<Item>, op: nat): (r: seq<int>)
    requires WellFormed(t) && op < |t|
    ensures |r| == |t| && forall i :: 0 <= i < |t| ==> r[i] >= 0
  {
    Shares(t, op)[op := t[op].Own()]
  }

  /** What of that reaches h when it is pushed along q object by object. */
  function Pushed(t: seq<Item>, op: nat, q: seq<nat>, h: nat): (r: seq<int>)
    requires WellFormed(t) && op < |t| && IsPath(t, q)
    ensures |r| == |t| && forall i :: 0 <= i < |t| ==> r[i] >= 0
  {
    seq(|t|, i requires 0 <= i < |t| => Through(t, q, Outgoing(t, op)[i], h))
  }

  lemma NoShareOutside(t: seq<Item>, op: nat, i: nat)
    requires WellFormed(t) && op < |t| && i < |t| && !Inside(t, i, op)
    ensures Shares(t, op)[i] == 0
  {
    PathOf(t, i);
    ThroughOutside(t, t[i].path, t[i].Own(), op);
  }

  /** Putting an object somewhere adds, to every holder, what it and all it holds let through one
      by one. */
  lemma InsertAdds(t: seq<Item>, op: nat, where: nat, h: nat)
    requires CanInsert(t, op, where) && h < |t|
    ensures WellFormed(Insert(t, op, where)) && IsPath(t, Via(t, where))
    ensures Carried(Insert(t, op, where), h) == Carried(t, h) + Sum(Pushed(t, op, Via(t, where), h))
  {
    InsertWellFormed(t, op, where);
    PathOf(t, where);
    var t', q := Insert(t, op, where), Via(t, where);
    forall i | 0 <= i < |t| ensures Shares(t', h)[i] == Shares(t, h)[i] + Pushed(t, op, q, h)[i] {
      if Moves(t, op, i) {
        MovingShare(t, op, where, i, h);
      } else {
        StayingShare(t, op, where, i, h);
        NoShareOutside(t, op, i);
        ThroughZero(t, q, h);
      }
    }
    SumAdd(Shares(t, h), Pushed(t, op, q, h), Shares(t', h));
  }

  /** Taking it out takes as much off. */
  lemma RemoveTakes(t: seq<Item>, op: nat, h: nat)
    requires WellFormed(t) && op < |t| && h < |t|
    ensures WellFormed(Remove(t, op)) && IsPath(t, t[op].path)
    ensures Carried(Remove(t, op), h) == Carried(t, h) - Sum(Pushed(t, op, t[op].path, h))
  {
    RemoveWellFormed(t, op);
    PathOf(t, op);
    if t[op].path == [] {
      RemoveFromNothing(t, op);
      SumZero(Pushed(t, op, [], h));
    } else {
      var t0, where := Remove(t, op), t[op].path[0];
      InsertUndoesRemove(t, op);
      InsertAdds(t0, op, where, h);
      ViaBefore(t, op);
      PushedBefore(t, op, where, h);
    }
  }

  lemma RemoveFromNothing(t: seq<Item>, op: nat)
    requires op < |t| && t[op].path == []
    ensures Remove(t, op) == t
  {
    forall i | 0 <= i < |t| ensures Remove(t, op)[i] == t[i] {
      assert t[i].path[..|t[i].path|] == t[i].path;
    }
  }

  /** Holders stay where they are when op leaves. */
  lemma ViaBefore(t: seq<Item>, op: nat)
    requires WellFormed(t) && op < |t| && t[op].path != []
    ensures t[op].path[0] < |t| && Via(Remove(t, op), t[op].path[0]) == t[op].path
  {
    PathOf(t, op);
    assert Nested(t, op, 0) && !Moves(t, op, t[op].path[0]);
  }

  /** What is inside op weighs the same before and after op is put somewhere. */
  lemma OutgoingStays(t: seq<Item>, op: nat, where: nat, i: nat)
    requires CanInsert(t, op, where) && WellFormed(Insert(t, op, where)) && i < |t|
    ensures Outgoing(Insert(t, op, where), op)[i] == Outgoing(t, op)[i]
  {
    if Moves(t, op, i) {
      MovingShare(t, op, where, i, op);
      ThroughOutside(t, Via(t, where), Past(t, t[i].path, t[i].Own()), op);
    } else {
      StayingShare(t, op, where, i, op);
    }
  }

  lemma PushedBefore(t: seq<Item>, op: nat, where: nat, h: nat)
    requires WellFormed(t) && op < |t| && h < |t|
    requires CanInsert(Remove(t, op), op, where) && Insert(Remove(t, op), op, where) == t
    requires Via(Remove(t, op), where) == t[op].path
    ensures IsPath(Remove(t, op), t[op].path) && IsPath(t, t[op].path)
    ensures Pushed(Remove(t, op), op, t[op].path, h) == Pushed(t, op, t[op].path, h)
  {
    var t0, q := Remove(t, op), t[op].path;
    PathOf(t, op);
    PathOf(t0, where);
    forall i | 0 <= i < |t| ensures Pushed(t0, op, q, h)[i] == Pushed(t, op, q, h)[i] {
      OutgoingStays(t0, op, where, i);
      ThroughSame(t0, t, q, Outgoing(t0, op)[i], h);
    }
  }

  /** An object that holds nothing brings its own weight only. */
  lemma PushedEmpty(t: seq<Item>, op: nat, q: seq<nat>, h: nat)
    requires WellFormed(t) && op < |t| && Empty(t, op) && IsPath(t, q)
    ensures Sum(Pushed(t, op, q, h)) == Through(t, q, t[op].Own(), h)
  {
    forall i | 0 <= i < |t| && i != op ensures Pushed(t, op, q, h)[i] == 0 {
      NoShareOutside(t, op, i);
      ThroughZero(t, q, h);
    }
    SumSingle(Pushed(t, op, q, h), op);
  }

  lemma SumOutgoing(t: seq<Item>, op: nat)
    requires WellFormed(t) && op < |t|
    ensures Sum(Outgoing(t, op)) == t[op].Own() + Carried(t, op)
  {
    PathOf(t, op);
    NoShareOutside(t, op, op);
    SumUpdate(Shares(t, op), op, t[op].Own());
  }

  /** Among holders that reduce nothing, every one of them gets all of it. */
  lemma PushedUnreduced(t: seq<Item>, op: nat, q: seq<nat>, h: nat)
    requires WellFormed(t) && op < |t| && IsPath(t, q) && NoReduction(t, q)
    ensures Sum(Pushed(t, op, q, h)) == if h in q then t[op].Own() + Carried(t, op) else 0
  {
    forall i | 0 <= i < |t| ensures Pushed(t, op, q, h)[i] == if h in q then Outgoing(t, op)[i] else 0 {
      ThroughUnreduced(t, q, Outgoing(t, op)[i], h);
    }
    if h in q {
      assert Pushed(t, op, q, h) == Outgoing(t, op);
      SumOutgoing(t, op);
    } else {
      SumZero(Pushed(t, op, q, h));
    }
  }

  /** Changing the count of one pile. */
  function SetNrof(t: seq<Item>, op: nat, n: nat): (t': seq<Item>)
    requires op < |t|
    ensures |t'| == |t|
  {
    t[op := t[op].(nrof := n)]
  }

  lemma {:induction false} Recount(t: seq<Item>, op: nat, n: nat, h: nat)
    requires WellFormed(t) && op < |t| && h < |t|
    ensures WellFormed(SetNrof(t, op, n)) && IsPath(t, t[op].path)
    ensures Carried(SetNrof(t, op, n), h) ==
      Carried(t, h) - Through(t, t[op].path, t[op].Own(), h)
                    + Through(t, t[op].path, SetNrof(t, op, n)[op].Own(), h)
  {
    var t' := SetNrof(t, op, n);
    assert WellFormed(t') by {
      forall i, j | 0 <= i < |t'| && 0 <= j < |t'[i].path| ensures Nested(t', i, j) {
        assert Nested(t, i, j);
      }
    }
    forall i | 0 <= i < |t| ensures i != op ==> Shares(t', h)[i] == Shares(t, h)[i] {
      PathOf(t, i);
      PathOf(t', i);
      ThroughSame(t, t', t[i].path, t'[i].Own(), h);
    }
    PathOf(t, op);
    assert Shares(t', h)[op] == Through(t, t[op].path, t'[op].Own(), h) by {
      ThroughSame(t, t', t[op].path, t'[op].Own(), h);
    }
    SumUpdate(Shares(t, h), op, Shares(t', h)[op]);
    assert Shares(t', h) == Shares(t, h)[op := Shares(t', h)[op]];
  }
}
