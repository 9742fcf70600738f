/** Objects moving between inventories: the steps of common/object.cpp that adjust `carrying`, by how
    much each of them gets it wrong, and what holds after any run of them. */
module Inventories {
  import opened Common
  import opened Sums
  import opened Weights

  /** All objects, and the `carrying` field of each. */
  datatype Store = Store(items: seq<Item>, carrying: seq<int>)

  ghost predicate Sound(s: Store) {
    WellFormed(s.items) && |s.carrying| == |s.items|
  }

  ghost predicate IsExact(s: Store) {
    Exact(s.items, s.carrying)
  }

  /** By how much an object's `carrying` is too high. */
  function Off(s: Store, h: nat): int
    requires Sound(s) && h < |s.items|
  {
    s.carrying[h] - Carried(s.items, h)
  }

  lemma ExactIsNothingOff(s: Store)
    requires Sound(s)
    ensures IsExact(s) <==> forall h :: 0 <= h < |s.items| ==> Off(s, h) == 0
  {
    if forall h :: 0 <= h < |s.items| ==> Off(s, h) == 0 {
      forall h | 0 <= h < |s.items| ensures s.carrying[h] == Carried(s.items, h) {
        assert Off(s, h) == 0;
      }
    }
  }

  /** What object_insert_in_ob adds to the holders and object_remove takes off them. */
  function Load(s: Store, op: nat): (w: int)
    requires op < |s.items| && op < |s.carrying|
    ensures s.items[op].nrof > 0 ==> w >= 0
  {
    var it := s.items[op];
    if it.nrof > 0 then
      var w: nat := it.weight * it.nrof;
      w
    else it.weight + s.carrying[op]
  }

  /** object_insert_in_ob, when no merge happens. */
  function PutIn(s: Store, op: nat, where: nat): (s': Store)
    requires Sound(s) && CanInsert(s.items, op, where) && Load(s, op) >= 0
    ensures Sound(s')
  {
    PathOf(s.items, where);
    InsertWellFormed(s.items, op, where);
    Store(Insert(s.items, op, where), AddAlong(s.items, s.carrying, Via(s.items, where), Load(s, op)))
  }

  /** object_remove, for an object that is in another. */
  function TakeOut(s: Store, op: nat): (s': Store)
    requires Sound(s) && op < |s.items| && Load(s, op) >= 0
    ensures Sound(s')
  {
    PathOf(s.items, op);
    RemoveWellFormed(s.items, op);
    Store(Remove(s.items, op), SubAlong(s.items, s.carrying, s.items[op].path, Load(s, op)))
  }

  /** Take the old weight off, change the count, put the new weight on: the common part of
      object_increase_nrof and object_decrease_nrof. */
  function Count(s: Store, op: nat, n: nat): (s': Store)
    requires Sound(s) && op < |s.items|
    ensures Sound(s')
  {
    PathOf(s.items, op);
    Recount(s.items, op, n, op);
    var it := s.items[op];
    Store(SetNrof(s.items, op, n),
          AddAlong(s.items, SubAlong(s.items, s.carrying, it.path, it.weight * it.nrof), it.path, it.weight * n))
  }

  // ---------------------------------------------------------------------------------------
  // By how much a call is wrong
  // ---------------------------------------------------------------------------------------

  /** How much more h gets when op's load is pushed along q as a whole than when op and everything
      inside it is pushed one by one. */
  function Excess(s: Store, op: nat, q: seq<nat>, h: nat): int
    requires Sound(s) && op < |s.items| && IsPath(s.items, q) && Load(s, op) >= 0
  {
    Through(s.items, q, Load(s, op), h) - Sum(Pushed(s.items, op, q, h))
  }

  /** op may go into, or come out of, a place among the holders q. */
  ghost predicate Movable(s: Store, op: nat, q: seq<nat>)
    requires Sound(s) && op < |s.items| && Load(s, op) >= 0
  {
    IsPath(s.items, q) && forall h :: 0 <= h < |s.items| ==> Excess(s, op, q, h) == 0
  }

  lemma PutInIsOff(s: Store, op: nat, where: nat, h: nat)
    requires Sound(s) && CanInsert(s.items, op, where) && Load(s, op) >= 0 && h < |s.items|
    ensures IsPath(s.items, Via(s.items, where))
    ensures Off(PutIn(s, op, where), h) == Off(s, h) + Excess(s, op, Via(s.items, where), h)
  {
    InsertAdds(s.items, op, where, h);
  }

  lemma TakeOutIsOff(s: Store, op: nat, h: nat)
    requires Sound(s) && op < |s.items| && Load(s, op) >= 0 && h < |s.items|
    ensures IsPath(s.items, s.items[op].path)
    ensures Off(TakeOut(s, op), h) == Off(s, h) - Excess(s, op, s.items[op].path, h)
  {
    RemoveTakes(s.items, op, h);
  }

  /** Putting an object in keeps the books exactly when its load, pushed outwards as a whole, reaches
      every holder as it does one by one. */
  lemma PutInIsExactIff(s: Store, op: nat, where: nat)
    requires IsExact(s) && CanInsert(s.items, op, where)
    ensures IsExact(PutIn(s, op, where)) <==> Movable(s, op, Via(s.items, where))
  {
    var s' := PutIn(s, op, where);
    PathOf(s.items, where);
    forall h | 0 <= h < |s.items| ensures Off(s', h) == Excess(s, op, Via(s.items, where), h) {
      PutInIsOff(s, op, where, h);
    }
    ExactIsNothingOff(s');
  }

  /** And the same for taking it out. */
  lemma TakeOutIsExactIff(s: Store, op: nat)
    requires IsExact(s) && op < |s.items|
    ensures IsExact(TakeOut(s, op)) <==> Movable(s, op, s.items[op].path)
  {
    var s' := TakeOut(s, op);
    PathOf(s.items, op);
    forall h | 0 <= h < |s.items| ensures Off(s', h) == 0 - Excess(s, op, s.items[op].path, h) {
      TakeOutIsOff(s, op, h);
    }
    ExactIsNothingOff(s');
  }

  /** Whatever was wrong with putting an object in is undone by taking it out. */
  lemma TakeOutUndoesPutIn(s: Store, op: nat, where: nat)
    requires Sound(s) && CanInsert(s.items, op, where) && Load(s, op) >= 0
    ensures Load(PutIn(s, op, where), op) == Load(s, op)
    ensures TakeOut(PutIn(s, op, where), op) == s
  {
    var s', q := PutIn(s, op, where), Via(s.items, where);
    PathOf(s.items, where);
    PathOf(s'.items, op);
    ThroughOutside(s.items, q, Load(s, op), op);
    RemoveUndoesInsert(s.items, op, where);
    assert s'.items[op].path == q;
    var c' := TakeOut(s', op).carrying;
    forall h | 0 <= h < |s.items| ensures c'[h] == s.carrying[h] {
      ThroughSame(s.items, s'.items, q, Load(s, op), h);
    }
    assert c' == s.carrying;
  }

  /** An object that holds nothing is wrong only by what it carries all the same. */
  lemma EmptyExcess(s: Store, op: nat, q: seq<nat>, h: nat)
    requires Sound(s) && op < |s.items| && IsPath(s.items, q) && Load(s, op) >= 0 && Empty(s.items, op)
    requires s.items[op].nrof > 0 || s.carrying[op] == 0
    ensures Excess(s, op, q, h) == 0
  {
    PushedEmpty(s.items, op, q, h);
  }

  lemma EmptyIsMovable(s: Store, op: nat, q: seq<nat>)
    requires IsExact(s) && op < |s.items| && IsPath(s.items, q) && Empty(s.items, op)
    ensures Movable(s, op, q)
  {
    NothingInsideCarriesNothing(s.items, op);
    forall h | 0 <= h < |s.items| ensures Excess(s, op, q, h) == 0 {
      EmptyExcess(s, op, q, h);
    }
  }

  lemma TakeOutOfNothing(s: Store, op: nat)
    requires Sound(s) && op < |s.items| && s.items[op].path == [] && Load(s, op) >= 0
    ensures TakeOut(s, op) == s
  {
    RemoveFromNothing(s.items, op);
    assert TakeOut(s, op).carrying == s.carrying;
  }

  /** Nothing of the object's weight gets out of its holder. */
  ghost predicate Weightless(t: seq<Item>, op: nat)
    requires WellFormed(t) && op < |t|
  {
    PathOf(t, op);
    t[op].path == [] || Reduce(t[op].weight, t[t[op].path[0]].keep) == 0
  }

  /** What a single one of op weighs for h. */
  function Single(t: seq<Item>, op: nat, h: nat): nat
    requires WellFormed(t) && op < |t|
  {
    PathOf(t, op);
    Through(t, t[op].path, t[op].weight, h)
  }

  /** A lone object weighs as one, but its weight is taken off and put on by its nrof of zero. */
  lemma CountIsOff(s: Store, op: nat, n: nat, h: nat)
    requires Sound(s) && op < |s.items| && h < |s.items|
    ensures Off(Count(s, op, n), h) == Off(s, h)
      + (if s.items[op].nrof == 0 then Single(s.items, op, h) else 0)
      - (if n == 0 then Single(s.items, op, h) else 0)
  {
    Recount(s.items, op, n, h);
    ThroughZero(s.items, s.items[op].path, h);
  }

  lemma WeightlessIff(t: seq<Item>, op: nat)
    requires WellFormed(t) && op < |t|
    ensures Weightless(t, op) <==> forall h :: 0 <= h < |t| ==> Single(t, op, h) == 0
  {
    PathOf(t, op);
    var p := t[op].path;
    if p != [] {
      assert Single(t, op, p[0]) == Reduce(t[op].weight, t[p[0]].keep);
      if Weightless(t, op) {
        forall h | 0 <= h < |t| ensures Single(t, op, h) == 0 {
          LightWeight(t, p, t[op].weight, h);
        }
      }
    }
  }

  /** Changing a count keeps the books exactly when the object was a pile before and is one after, or
      its weight does not get out of its holder. */
  lemma CountIsExactIff(s: Store, op: nat, n: nat)
    requires IsExact(s) && op < |s.items|
    ensures IsExact(Count(s, op, n)) <==>
      (s.items[op].nrof > 0 <==> n > 0) || Weightless(s.items, op)
  {
    var s' := Count(s, op, n);
    forall h | 0 <= h < |s.items|
      ensures Off(s', h) == (if s.items[op].nrof == 0 then Single(s.items, op, h) else 0)
        - (if n == 0 then Single(s.items, op, h) else 0)
    {
      CountIsOff(s, op, n, h);
    }
    ExactIsNothingOff(s');
    WeightlessIff(s.items, op);
  }

  // ---------------------------------------------------------------------------------------
  // Steps
  // ---------------------------------------------------------------------------------------

  /** What one call does. `target` is the object found to merge with, if any; `blank` is the cell
      a new object is made in. */
  datatype Move =
    | InsertInOb(op: nat, where: nat, target: Option<nat>)
    | ObjectRemove(op: nat)
    | ObjectMerge(op: nat, into: nat)
    | DecreaseNrof(op: nat, i: nat)
    | ObjectSplit(op: nat, nr: nat, blank: nat)

  /** The count two piles may have together. */
  const NROF_LIMIT: nat := 0x8000_0000

  /** object_can_merge, for objects that hold nothing. */
  predicate CanMerge(a: Item, b: Item) {
    && a.kind == b.kind && a.weight == b.weight && a.keep == b.keep
    && a.nrof + b.nrof < NROF_LIMIT
  }

  /** The object is put on the free list. */
  function Free(s: Store, op: nat): (s': Store)
    requires Sound(s) && op < |s.items|
    ensures Sound(s')
  {
    SameShape(s.items, s.items[op := s.items[op].(live := false)]);
    s.(items := s.items[op := s.items[op].(live := false)])
  }

  lemma FreeIsOff(s: Store, op: nat, h: nat)
    requires Sound(s) && op < |s.items| && h < |s.items|
    ensures Off(Free(s, op), h) == Off(s, h)
  {
    SameShape(s.items, Free(s, op).items);
  }

  /** Objects that agree on where they are, what they weigh and what they let through carry the same. */
  lemma {:induction false} SameShape(t: seq<Item>, t': seq<Item>)
    requires WellFormed(t) && |t| == |t'|
    requires forall i :: 0 <= i < |t| ==>
      t[i].path == t'[i].path && t[i].keep == t'[i].keep && (t[i].path == [] || t[i].Own() == t'[i].Own())
    ensures WellFormed(t') && forall h :: 0 <= h < |t| ==> Carried(t', h) == Carried(t, h)
  {
    assert WellFormed(t') by {
      forall i, j | 0 <= i < |t'| && 0 <= j < |t'[i].path| ensures Nested(t', i, j) {
        assert Nested(t, i, j);
      }
    }
    forall h | 0 <= h < |t| ensures Carried(t', h) == Carried(t, h) {
      forall i | 0 <= i < |t| ensures Shares(t', h)[i] == Shares(t, h)[i] {
        PathOf(t, i);
        PathOf(t', i);
        ThroughSame(t, t', t[i].path, t[i].Own(), h);
      }
      assert Shares(t', h) == Shares(t, h);
    }
  }

  /** A blank cell becomes a copy of op, in nothing and carrying nothing, with its own count. */
  function Clone(s: Store, op: nat, nr: nat, blank: nat): (s': Store)
    requires Sound(s) && op < |s.items| && Blank(s.items, blank)
    ensures Sound(s')
  {
    CloneShape(s.items, op, nr, blank);
    Store(s.items[blank := s.items[op].(path := [], nrof := nr, live := true)], s.carrying[blank := 0])
  }

  ghost predicate Blank(t: seq<Item>, i: nat) {
    i < |t| && !t[i].live && t[i].path == [] && Empty(t, i)
  }

  lemma {:induction false} CloneShape(t: seq<Item>, op: nat, nr: nat, blank: nat)
    requires WellFormed(t) && op < |t| && Blank(t, blank)
    ensures var t' := t[blank := t[op].(path := [], nrof := nr, live := true)];
            WellFormed(t') && forall h :: 0 <= h < |t| ==> Carried(t', h) == Carried(t, h)
  {
    var t' := t[blank := t[op].(path := [], nrof := nr, live := true)];
    assert WellFormed(t') by {
      forall i, j | 0 <= i < |t'| && 0 <= j < |t'[i].path| ensures Nested(t', i, j) {
        assert Nested(t, i, j) && !Inside(t, i, blank);
      }
    }
    forall h | 0 <= h < |t| ensures Carried(t', h) == Carried(t, h) {
      forall i | 0 <= i < |t| ensures Shares(t', h)[i] == Shares(t, h)[i] {
        if i != blank {
          PathOf(t, i);
          PathOf(t', i);
          assert !Inside(t, i, blank);
          ThroughSame(t, t', t[i].path, t[i].Own(), h);
        }
      }
      assert Shares(t', h) == Shares(t, h);
    }
  }

  lemma CloneIsOff(s: Store, op: nat, nr: nat, blank: nat, h: nat)
    requires Sound(s) && op < |s.items| && Blank(s.items, blank) && h < |s.items|
    ensures Off(Clone(s, op, nr, blank), h) == if h == blank then 0 else Off(s, h)
  {
    CloneShape(s.items, op, nr, blank);
    NothingInsideCarriesNothing(s.items, blank);
  }

  /** An object that op can be merged into. Whether it has a count is not looked at. */
  ghost predicate IsTarget(t: seq<Item>, op: nat, into: nat)
    requires op < |t|
  {
    into < |t| && into != op && t[into].live && Empty(t, into) && CanMerge(t[op], t[into])
  }

  /** The calls there are. */
  ghost predicate Possible(s: Store, m: Move)
    requires Sound(s)
  {
    var t := s.items;
    match m
    case InsertInOb(op, where, target) =>
      && CanInsert(t, op, where) && t[op].live && Load(s, op) >= 0
      && (target.Some? ==>
            t[op].nrof > 0 && Empty(t, op) && IsTarget(t, op, target.value) && t[target.value].path == Via(t, where))
    case ObjectRemove(op) => op < |t| && t[op].live && Load(s, op) >= 0
    case ObjectMerge(op, into) => op < |t| && t[op].live && t[op].nrof > 0 && Empty(t, op) && IsTarget(t, op, into)
    case DecreaseNrof(op, i) => op < |t| && t[op].live && (i < t[op].nrof || (Empty(t, op) && Load(s, op) >= 0))
    case ObjectSplit(op, nr, blank) => op < |t| && t[op].live && Empty(t, op) && Load(s, op) >= 0 && Blank(t, blank)
  }

  /** Those that keep the books right: moves of what may be moved, and merges into a pile or into
      something that weighs nothing where it is. */
  ghost predicate Legal(s: Store, m: Move)
    requires Sound(s)
  {
    Possible(s, m) && (
      match m
      case InsertInOb(op, where, None) => Movable(s, op, Via(s.items, where))
      case InsertInOb(_, _, Some(into)) => Counted(s.items, into)
      case ObjectRemove(op) => Movable(s, op, s.items[op].path)
      case ObjectMerge(_, into) => Counted(s.items, into)
      case DecreaseNrof(_, _) => true
      case ObjectSplit(_, _, _) => true)
  }

  ghost predicate Counted(t: seq<Item>, op: nat)
    requires WellFormed(t) && op < |t|
  {
    t[op].nrof > 0 || Weightless(t, op)
  }

  /** object_decrease_nrof */
  function Decrease(s: Store, op: nat, i: nat): (s': Store)
    requires Sound(s) && op < |s.items| && (i < s.items[op].nrof || Load(s, op) >= 0)
    ensures Sound(s')
  {
    var n := s.items[op].nrof - Min(i, s.items[op].nrof);
    if i == 0 then s
    else if n > 0 then Count(s, op, n)
    else Free(Count(TakeOut(s, op), op, 0), op)
  }

  /** For an object that is in nothing, a new count is all that changes. */
  lemma CountOutside(s: Store, op: nat, n: nat)
    requires Sound(s) && op < |s.items| && s.items[op].path == []
    ensures Count(s, op, n) == s.(items := SetNrof(s.items, op, n))
  {
    assert Count(s, op, n).carrying == s.carrying;
  }

  /** How many there are of an object. */
  function Available(t: seq<Item>, op: nat): nat
    requires op < |t|
  {
    if t[op].nrof >= 1 then t[op].nrof else 1
  }

  /** object_merge, once it has found what to merge into. */
  function Merge(s: Store, op: nat, into: nat): (s': Store)
    requires Sound(s) && op < |s.items| && into < |s.items| && op != into && s.items[op].nrof > 0
    ensures Sound(s')
  {
    Free(TakeOut(Count(s, into, s.items[into].nrof + s.items[op].nrof), op), op)
  }

  function Step(s: Store, m: Move): (s': Store)
    requires Sound(s) && Possible(s, m)
    ensures Sound(s')
  {
    var t := s.items;
    match m
    case InsertInOb(op, where, None) => PutIn(s, op, where)
    case InsertInOb(op, where, Some(into)) => Free(Count(s, into, t[into].nrof + t[op].nrof), op)
    case ObjectRemove(op) => TakeOut(s, op)
    case ObjectMerge(op, into) => Merge(s, op, into)
    case DecreaseNrof(op, i) => Decrease(s, op, i)
    case ObjectSplit(op, nr, blank) =>
      if Available(t, op) < nr then s
      else if t[op].nrof == 0 then Free(TakeOut(Clone(s, op, 0, blank), op), op)
      else Decrease(Clone(s, op, nr, blank), op, nr)
  }

  // ---------------------------------------------------------------------------------------
  // By how much a step is wrong
  // ---------------------------------------------------------------------------------------

  /** What an empty object takes along that is not its own weight. */
  function Surplus(s: Store, op: nat, h: nat): int
    requires Sound(s) && op < |s.items| && Load(s, op) >= 0
  {
    PathOf(s.items, op);
    Through(s.items, s.items[op].path, Load(s, op), h) - Through(s.items, s.items[op].path, s.items[op].Own(), h)
  }

  /** The weight of a lone object that is merged into. */
  function Uncounted(t: seq<Item>, op: nat, h: nat): nat
    requires WellFormed(t) && op < |t|
  {
    if t[op].nrof == 0 then Single(t, op, h) else 0
  }

  /** By how much one call raises the error in h's `carrying`. */
  function Error(s: Store, m: Move, h: nat): int
    requires Sound(s) && Possible(s, m) && h < |s.items|
  {
    var t := s.items;
    match m
    case InsertInOb(op, where, None) =>
      PathOf(t, where);
      Excess(s, op, Via(t, where), h)
    case InsertInOb(_, _, Some(into)) => Uncounted(t, into, h)
    case ObjectRemove(op) =>
      PathOf(t, op);
      0 - Excess(s, op, t[op].path, h)
    case ObjectMerge(_, into) => Uncounted(t, into, h)
    case DecreaseNrof(op, i) => if i == 0 || i < t[op].nrof then 0 else 0 - Surplus(s, op, h)
    case ObjectSplit(op, nr, blank) =>
      if Available(t, op) < nr then 0
      else (if t[op].nrof == 0 then 0 - Surplus(s, op, h) else 0) - (if h == blank then Off(s, h) else 0)
  }

  lemma TakeOutOfEmpty(s: Store, op: nat, h: nat)
    requires Sound(s) && op < |s.items| && Load(s, op) >= 0 && h < |s.items| && Empty(s.items, op)
    ensures Off(TakeOut(s, op), h) == Off(s, h) - Surplus(s, op, h)
  {
    PathOf(s.items, op);
    TakeOutIsOff(s, op, h);
    PushedEmpty(s.items, op, s.items[op].path, h);
  }

  /** A pile that holds nothing is booked by its own weight. */
  lemma NoSurplus(s: Store, op: nat, h: nat)
    requires Sound(s) && op < |s.items| && Load(s, op) >= 0
    requires s.items[op].nrof > 0 || s.carrying[op] == 0
    ensures Surplus(s, op, h) == 0
  {}

  lemma MergeIsOff(s: Store, op: nat, into: nat, h: nat)
    requires Sound(s) && Possible(s, ObjectMerge(op, into)) && h < |s.items|
    ensures Off(Step(s, ObjectMerge(op, into)), h) == Off(s, h) + Uncounted(s.items, into, h)
  {
    var n := s.items[into].nrof + s.items[op].nrof;
    var s1 := Count(s, into, n);
    CountIsOff(s, into, n, h);
    EmptyAfterCount(s.items, into, n, op);
    TakeOutOfEmpty(s1, op, h);
    NoSurplus(s1, op, h);
    FreeIsOff(TakeOut(s1, op), op, h);
  }

  lemma DecreaseIsOff(s: Store, op: nat, i: nat, h: nat)
    requires Sound(s) && op < |s.items| && h < |s.items|
    requires i < s.items[op].nrof || (Empty(s.items, op) && Load(s, op) >= 0)
    ensures Off(Decrease(s, op, i), h) ==
      Off(s, h) - (if i == 0 || i < s.items[op].nrof then 0 else Surplus(s, op, h))
  {
    if 0 < i < s.items[op].nrof {
      CountIsOff(s, op, s.items[op].nrof - i, h);
    } else if i > 0 {
      var s1 := TakeOut(s, op);
      RemoveWellFormed(s.items, op);
      TakeOutOfEmpty(s, op, h);
      CountIsOff(s1, op, 0, h);
      assert Single(s1.items, op, h) == 0;
      FreeIsOff(Count(s1, op, 0), op, h);
    }
  }

  lemma SurplusOfClone(s: Store, op: nat, n: nat, blank: nat, h: nat)
    requires Sound(s) && op < |s.items| && Blank(s.items, blank) && op != blank && Load(s, op) >= 0
    ensures Load(Clone(s, op, n, blank), op) >= 0
    ensures Surplus(Clone(s, op, n, blank), op, h) == Surplus(s, op, h)
  {
    var s1, p := Clone(s, op, n, blank), s.items[op].path;
    PathOf(s.items, op);
    PathOf(s1.items, op);
    assert !Inside(s.items, op, blank);
    ThroughSame(s.items, s1.items, p, Load(s, op), h);
    ThroughSame(s.items, s1.items, p, s.items[op].Own(), h);
  }

  lemma SplitIsOff(s: Store, op: nat, nr: nat, blank: nat, h: nat)
    requires Sound(s) && Possible(s, ObjectSplit(op, nr, blank)) && h < |s.items|
    ensures Off(Step(s, ObjectSplit(op, nr, blank)), h) == Off(s, h) + Error(s, ObjectSplit(op, nr, blank), h)
  {
    if nr <= Available(s.items, op) {
      var n := if s.items[op].nrof == 0 then 0 else nr;
      var s1 := Clone(s, op, n, blank);
      CloneIsOff(s, op, n, blank, h);
      EmptyAfterClone(s, op, n, blank);
      SurplusOfClone(s, op, n, blank, h);
      if n == s.items[op].nrof == 0 {
        TakeOutOfEmpty(s1, op, h);
        FreeIsOff(TakeOut(s1, op), op, h);
      } else {
        NoSurplus(s1, op, h);
        DecreaseIsOff(s1, op, nr, h);
      }
    }
  }

  /** On any books, right or wrong, a call shifts every holder's error by this much. */
  lemma StepIsOff(s: Store, m: Move, h: nat)
    requires Sound(s) && Possible(s, m) && h < |s.items|
    ensures |Step(s, m).items| == |s.items|
    ensures Off(Step(s, m), h) == Off(s, h) + Error(s, m, h)
  {
    match m {
      case InsertInOb(op, where, None) => PutInIsOff(s, op, where, h);
      case InsertInOb(op, where, Some(into)) =>
        var n := s.items[into].nrof + s.items[op].nrof;
        CountIsOff(s, into, n, h);
        FreeIsOff(Count(s, into, n), op, h);
      case ObjectRemove(op) => TakeOutIsOff(s, op, h);
      case ObjectMerge(op, into) => MergeIsOff(s, op, into, h);
      case DecreaseNrof(op, i) => DecreaseIsOff(s, op, i, h);
      case ObjectSplit(op, nr, blank) => SplitIsOff(s, op, nr, blank, h);
    }
  }

  /** On right books, a call makes no error exactly when it is one of the legal ones. */
  lemma NoErrorIff(s: Store, m: Move)
    requires IsExact(s) && Possible(s, m)
    ensures Legal(s, m) <==> forall h :: 0 <= h < |s.items| ==> Error(s, m, h) == 0
  {
    var t := s.items;
    match m {
      case InsertInOb(op, where, None) => PathOf(t, where); ExcessIff(s, op, Via(t, where), m, 1);
      case InsertInOb(op, where, Some(into)) => UncountedIff(s, m, into);
      case ObjectRemove(op) => PathOf(t, op); ExcessIff(s, op, t[op].path, m, -1);
      case ObjectMerge(op, into) => UncountedIff(s, m, into);
      case DecreaseNrof(op, i) =>
        if i > 0 && i >= t[op].nrof {
          NothingInsideCarriesNothing(t, op);
          forall h | 0 <= h < |t| ensures Error(s, m, h) == 0 {
            NoSurplus(s, op, h);
          }
        }
      case ObjectSplit(op, nr, blank) =>
        NothingInsideCarriesNothing(t, op);
        forall h | 0 <= h < |t| ensures Error(s, m, h) == 0 {
          NoSurplus(s, op, h);
        }
    }
  }

  lemma ExcessIff(s: Store, op: nat, q: seq<nat>, m: Move, sign: int)
    requires IsExact(s) && Possible(s, m) && op < |s.items| && IsPath(s.items, q) && Load(s, op) >= 0
    requires sign != 0 && forall h :: 0 <= h < |s.items| ==> Error(s, m, h) == sign * Excess(s, op, q, h)
    ensures Movable(s, op, q) <==> forall h :: 0 <= h < |s.items| ==> Error(s, m, h) == 0
  {
    forall h | 0 <= h < |s.items| ensures Error(s, m, h) == 0 <==> Excess(s, op, q, h) == 0 {}
  }

  lemma UncountedIff(s: Store, m: Move, into: nat)
    requires IsExact(s) && Possible(s, m) && into < |s.items|
    requires forall h :: 0 <= h < |s.items| ==> Error(s, m, h) == Uncounted(s.items, into, h)
    ensures Counted(s.items, into) <==> forall h :: 0 <= h < |s.items| ==> Error(s, m, h) == 0
  {
    WeightlessIff(s.items, into);
    if s.items[into].nrof == 0 {
      forall h | 0 <= h < |s.items| ensures Error(s, m, h) == Single(s.items, into, h) {}
    } else {
      forall h | 0 <= h < |s.items| ensures Error(s, m, h) == 0 {}
    }
  }

  /** So the books stay right exactly at the legal calls. */
  lemma StepIsExactIff(s: Store, m: Move)
    requires IsExact(s) && Possible(s, m)
    ensures IsExact(Step(s, m)) <==> Legal(s, m)
  {
    NoErrorIff(s, m);
    forall h | 0 <= h < |s.items|
      ensures |Step(s, m).items| == |s.items| && Off(Step(s, m), h) == Error(s, m, h)
    {
      StepIsOff(s, m, h);
      ExactIsNothingOff(s);
    }
    ExactIsNothingOff(Step(s, m));
    StepKeepsSize(s, m);
  }

  lemma StepKeepsSize(s: Store, m: Move)
    requires Sound(s) && Possible(s, m)
    ensures |Step(s, m).items| == |s.items|
  {}

  lemma EmptyAfterCount(t: seq<Item>, op: nat, n: nat, x: nat)
    requires op < |t| && Empty(t, x)
    ensures Empty(SetNrof(t, op, n), x)
  {
    forall i | 0 <= i < |t| ensures !Inside(SetNrof(t, op, n), i, x) {
      assert !Inside(t, i, x);
    }
  }

  lemma EmptyAfterClone(s: Store, op: nat, n: nat, blank: nat)
    requires Sound(s) && op < |s.items| && Blank(s.items, blank) && Empty(s.items, op)
    ensures Empty(Clone(s, op, n, blank).items, op)
  {
    forall i | 0 <= i < |s.items| ensures !Inside(Clone(s, op, n, blank).items, i, op) {
      assert !Inside(s.items, i, op);
    }
  }

  // ---------------------------------------------------------------------------------------
  // Runs
  // ---------------------------------------------------------------------------------------

  ghost predicate PossibleRun(s: Store, run: seq<Move>)
    requires Sound(s)
    decreases |run|
  {
    run == [] || (Possible(s, run[0]) && PossibleRun(Step(s, run[0]), run[1..]))
  }

  function Run(s: Store, run: seq<Move>): (s': Store)
    requires Sound(s) && PossibleRun(s, run)
    ensures Sound(s') && |s'.items| == |s.items|
    decreases |run|
  {
    if run == [] then s
    else
      StepKeepsSize(s, run[0]);
      Run(Step(s, run[0]), run[1..])
  }

  /** The errors of a run's calls, added up. */
  function RunError(s: Store, run: seq<Move>, h: nat): int
    requires Sound(s) && PossibleRun(s, run) && h < |s.items|
    decreases |run|
  {
    if run == [] then 0
    else
      StepKeepsSize(s, run[0]);
      Error(s, run[0], h) + RunError(Step(s, run[0]), run[1..], h)
  }

  lemma {:induction false} RunIsOff(s: Store, run: seq<Move>, h: nat)
    requires Sound(s) && PossibleRun(s, run) && h < |s.items|
    ensures Off(Run(s, run), h) == Off(s, h) + RunError(s, run, h)
    decreases |run|
  {
    if run != [] {
      StepIsOff(s, run[0], h);
      RunIsOff(Step(s, run[0]), run[1..], h);
    }
  }

  function RunErrors(s: Store, run: seq<Move>): (e: seq<int>)
    requires Sound(s) && PossibleRun(s, run)
    ensures |e| == |s.items|
  {
    seq(|s.items|, h requires 0 <= h < |s.items| => RunError(s, run, h))
  }

  lemma ShiftedBy(s: Store, s': Store, e: seq<int>)
    requires IsExact(s) && Sound(s') && |s.items| == |s'.items| == |e|
    requires forall h :: 0 <= h < |e| ==> Off(s', h) == Off(s, h) + e[h]
    ensures IsExact(s') <==> forall h :: 0 <= h < |e| ==> e[h] == 0
  {
    ExactIsNothingOff(s);
    ExactIsNothingOff(s');
    forall h | 0 <= h < |e| ensures Off(s', h) == e[h] {
      assert Off(s, h) == 0;
    }
  }

  /** After any run, the books are right exactly when the errors made on the way cancel out. */
  lemma RunIsExactIff(s: Store, run: seq<Move>)
    requires IsExact(s) && PossibleRun(s, run)
    ensures IsExact(Run(s, run)) <==> forall h :: 0 <= h < |s.items| ==> RunErrors(s, run)[h] == 0
  {
    forall h | 0 <= h < |s.items| ensures Off(Run(s, run), h) == Off(s, h) + RunErrors(s, run)[h] {
      RunIsOff(s, run, h);
    }
    ShiftedBy(s, Run(s, run), RunErrors(s, run));
  }

  ghost predicate LegalRun(s: Store, run: seq<Move>)
    requires Sound(s)
    decreases |run|
  {
    run == [] || (Legal(s, run[0]) && LegalRun(Step(s, run[0]), run[1..]))
  }

  /** After any run of legal calls, every holder's `carrying` is the sum over everything inside it. */
  lemma {:induction false} RunIsExact(s: Store, run: seq<Move>)
    requires IsExact(s) && LegalRun(s, run)
    ensures PossibleRun(s, run) && IsExact(Run(s, run))
    decreases |run|
  {
    if run != [] {
      StepIsExactIff(s, run[0]);
      RunIsExact(Step(s, run[0]), run[1..]);
    }
  }

  /** `carrying` depends on where things are, not on how they got there. */
  lemma HistoryDoesNotMatter(s: Store, run: seq<Move>, s': Store, run': seq<Move>)
    requires IsExact(s) && LegalRun(s, run) && IsExact(s') && LegalRun(s', run')
    ensures PossibleRun(s, run) && PossibleRun(s', run')
    ensures Run(s, run).items == Run(s', run').items ==> Run(s, run).carrying == Run(s', run').carrying
  {
    RunIsExact(s, run);
    RunIsExact(s', run');
    var a, b := Run(s, run), Run(s', run');
    if a.items == b.items {
      assert forall h :: 0 <= h < |a.items| ==> a.carrying[h] == Carried(a.items, h) == b.carrying[h];
    }
  }

  // ---------------------------------------------------------------------------------------
  // Conservation
  // ---------------------------------------------------------------------------------------

  function UnitsIn(it: Item, kind: nat): nat {
    if it.live && it.kind == kind then it.Units() else 0
  }

  function UnitRow(t: seq<Item>, kind: nat): (r: seq<int>)
    ensures |r| == |t|
  {
    seq(|t|, i requires 0 <= i < |t| => UnitsIn(t[i], kind))
  }

  /** How many single things of one kind there are, a lone object counting as one. */
  function Population(t: seq<Item>, kind: nat): int {
    Sum(UnitRow(t, kind))
  }

  /** How a call changes the population of the kind of the object it works on. */
  function Balance(s: Store, m: Move): int
    requires Sound(s) && Possible(s, m)
  {
    match m
    case DecreaseNrof(op, i) =>
      if i == 0 then 0 else if s.items[op].nrof == 0 then -1 else 0 - Min(i, s.items[op].nrof)
    case ObjectSplit(op, nr, _) =>
      // splitting off nothing from a pile makes a lone object all the same
      if nr == 0 && s.items[op].nrof > 0 then 1 else 0
    case InsertInOb(_, _, Some(into)) =>
      // a lone object's count of zero grows by what joins it, and the object itself is lost
      if s.items[into].nrof == 0 then -1 else 0
    case ObjectMerge(_, into) => if s.items[into].nrof == 0 then -1 else 0
    case _ => 0
  }

  function Subject(m: Move): nat {
    match m
    case InsertInOb(op, _, _) => op
    case ObjectRemove(op) => op
    case ObjectMerge(op, _) => op
    case DecreaseNrof(op, _) => op
    case ObjectSplit(op, _, _) => op
  }

  /** Moving conserves everything, and so does merging into a pile; splitting does, except for a split
      of nothing; decreasing takes away what was asked for, or what there was. */
  lemma StepConserves(s: Store, m: Move, kind: nat)
    requires Sound(s) && Possible(s, m)
    ensures Population(Step(s, m).items, kind) ==
      Population(s.items, kind) + (if s.items[Subject(m)].kind == kind then Balance(s, m) else 0)
  {
    var t := s.items;
    match m {
      case InsertInOb(op, where, None) =>
        SamePopulation(t, Insert(t, op, where), kind);
      case InsertInOb(op, where, Some(into)) =>
        var t1 := SetNrof(t, into, t[into].nrof + t[op].nrof);
        MergeConserves(t, t1, op, into, kind);
      case ObjectRemove(op) =>
        SamePopulation(t, Remove(t, op), kind);
      case ObjectMerge(op, into) =>
        var t1 := SetNrof(t, into, t[into].nrof + t[op].nrof);
        SamePopulation(t1, Remove(t1, op), kind);
        MergeConserves(t, Remove(t1, op), op, into, kind);
      case DecreaseNrof(op, i) => DecreaseConserves(s, op, i, kind);
      case ObjectSplit(op, nr, blank) => SplitConserves(s, op, nr, blank, kind);
    }
  }

  /** op goes, and its count is added to that of `into`. */
  lemma MergeConserves(t: seq<Item>, t1: seq<Item>, op: nat, into: nat, kind: nat)
    requires op < |t| == |t1| && IsTarget(t, op, into) && t[op].live && t[op].nrof > 0
    requires Population(t1, kind) == Population(SetNrof(t, into, t[into].nrof + t[op].nrof), kind)
    requires t1[op].live && t1[op].nrof == t[op].nrof && t1[op].kind == t[op].kind
    ensures Population(t1[op := t1[op].(live := false)], kind) == Population(t, kind)
      - (if t[op].kind == kind && t[into].nrof == 0 then 1 else 0)
  {
    ChangeOne(t, into, t[into].(nrof := t[into].nrof + t[op].nrof), kind);
    ChangeOne(t1, op, t1[op].(live := false), kind);
  }

  /** No call of the run creates or uses up anything. */
  ghost predicate Conservative(s: Store, run: seq<Move>)
    requires Sound(s) && PossibleRun(s, run)
    decreases |run|
  {
    run == [] || (Balance(s, run[0]) == 0 && Conservative(Step(s, run[0]), run[1..]))
  }

  lemma {:induction false} RunConserves(s: Store, run: seq<Move>, kind: nat)
    requires Sound(s) && PossibleRun(s, run) && Conservative(s, run)
    ensures Population(Run(s, run).items, kind) == Population(s.items, kind)
    decreases |run|
  {
    if run != [] {
      StepConserves(s, run[0], kind);
      RunConserves(Step(s, run[0]), run[1..], kind);
    }
  }

  lemma DecreaseConserves(s: Store, op: nat, i: nat, kind: nat)
    requires Sound(s) && op < |s.items| && s.items[op].live && (i < s.items[op].nrof || Load(s, op) >= 0)
    ensures Population(Decrease(s, op, i).items, kind) == Population(s.items, kind)
      - (if s.items[op].kind != kind || i == 0 then 0
         else if s.items[op].nrof == 0 then 1 else Min(i, s.items[op].nrof))
  {
    var t := s.items;
    var n := t[op].nrof - Min(i, t[op].nrof);
    if i > 0 {
      if n > 0 {
        ChangeOne(t, op, t[op].(nrof := n), kind);
      } else {
        var t1 := Remove(t, op);
        SamePopulation(t, t1, kind);
        assert Decrease(s, op, i).items == t1[op := t1[op].(nrof := 0, live := false)];
        ChangeOne(t1, op, t1[op].(nrof := 0, live := false), kind);
      }
    }
  }

  lemma SplitConserves(s: Store, op: nat, nr: nat, blank: nat, kind: nat)
    requires Sound(s) && Possible(s, ObjectSplit(op, nr, blank))
    ensures Population(Step(s, ObjectSplit(op, nr, blank)).items, kind) ==
      Population(s.items, kind) + (if s.items[op].kind == kind then Balance(s, ObjectSplit(op, nr, blank)) else 0)
  {
    var t := s.items;
    if nr <= Available(t, op) {
      var n := if t[op].nrof == 0 then 0 else nr;
      var s1 := Clone(s, op, n, blank);
      ChangeOne(t, blank, s1.items[blank], kind);
      if t[op].nrof == 0 {
        var t2 := Remove(s1.items, op);
        SamePopulation(s1.items, t2, kind);
        ChangeOne(t2, op, t2[op].(live := false), kind);
      } else {
        DecreaseConserves(s1, op, nr, kind);
      }
    }
  }

  lemma ChangeOne(t: seq<Item>, i: nat, it: Item, kind: nat)
    requires i < |t|
    ensures Population(t[i := it], kind) == Population(t, kind) - UnitsIn(t[i], kind) + UnitsIn(it, kind)
  {
    SumUpdate(UnitRow(t, kind), i, UnitsIn(it, kind));
    assert UnitRow(t[i := it], kind) == UnitRow(t, kind)[i := UnitsIn(it, kind)];
  }

  lemma SamePopulation(t: seq<Item>, t': seq<Item>, kind: nat)
    requires |t| == |t'|
    requires forall i :: 0 <= i < |t| ==> UnitsIn(t[i], kind) == UnitsIn(t'[i], kind)
    ensures Population(t', kind) == Population(t, kind)
  {
    assert UnitRow(t', kind) == UnitRow(t, kind);
  }

  // ---------------------------------------------------------------------------------------
  // Conservation of weight
  // ---------------------------------------------------------------------------------------

  function HeftIn(it: Item, kind: nat): nat {
    if it.live && it.kind == kind then it.Own() else 0
  }

  function HeftRow(t: seq<Item>, kind: nat): (r: seq<int>)
    ensures |r| == |t|
  {
    seq(|t|, i requires 0 <= i < |t| => HeftIn(t[i], kind))
  }

  /** What all things of one kind weigh together. */
  function Heft(t: seq<Item>, kind: nat): int {
    Sum(HeftRow(t, kind))
  }

  lemma HeftOfChange(t: seq<Item>, i: nat, it: Item, kind: nat)
    requires i < |t|
    ensures Heft(t[i := it], kind) == Heft(t, kind) - HeftIn(t[i], kind) + HeftIn(it, kind)
  {
    SumUpdate(HeftRow(t, kind), i, HeftIn(it, kind));
    assert HeftRow(t[i := it], kind) == HeftRow(t, kind)[i := HeftIn(it, kind)];
  }

  lemma SameHeft(t: seq<Item>, t': seq<Item>, kind: nat)
    requires |t| == |t'|
    requires forall i :: 0 <= i < |t| ==> HeftIn(t[i], kind) == HeftIn(t'[i], kind)
    ensures Heft(t', kind) == Heft(t, kind)
  {
    assert HeftRow(t', kind) == HeftRow(t, kind);
  }

  /** So many things of the weight of one. */
  function Times(n: int, weight: nat): int {
    n * weight
  }

  lemma UnitsWeigh(it: Item, kind: nat)
    ensures HeftIn(it, kind) == Times(UnitsIn(it, kind), it.weight)
  {}

  lemma TimesAdd(a: int, b: int, weight: nat)
    ensures Times(a + b, weight) == Times(a, weight) + Times(b, weight)
    ensures Times(a - b, weight) == Times(a, weight) - Times(b, weight)
    ensures Times(0, weight) == 0 && Times(1, weight) == weight && Times(-1, weight) == 0 - weight
  {}

  /** op goes, and its count is added to that of `into`, which weighs as much. */
  lemma MergeHeft(t: seq<Item>, t1: seq<Item>, op: nat, into: nat, kind: nat)
    requires op < |t| == |t1| && IsTarget(t, op, into) && t[op].live && t[op].nrof > 0
    requires Heft(t1, kind) == Heft(SetNrof(t, into, t[into].nrof + t[op].nrof), kind)
    requires t1[op] == t[op].(path := t1[op].path)
    ensures Heft(t1[op := t1[op].(live := false)], kind) == Heft(t, kind)
      - (if t[op].kind == kind && t[into].nrof == 0 then t[op].weight else 0)
  {
    var n := t[into].nrof + t[op].nrof;
    HeftOfChange(t, into, t[into].(nrof := n), kind);
    HeftOfChange(t1, op, t1[op].(live := false), kind);
    UnitsWeigh(t[into], kind);
    UnitsWeigh(t[op], kind);
    UnitsWeigh(t[into].(nrof := n), kind);
    TimesAdd(t[into].nrof, t[op].nrof, t[op].weight);
    TimesAdd(1, 0, t[op].weight);
  }

  lemma DecreaseHeft(s: Store, op: nat, i: nat, kind: nat)
    requires Sound(s) && op < |s.items| && s.items[op].live && (i < s.items[op].nrof || Load(s, op) >= 0)
    ensures Heft(Decrease(s, op, i).items, kind) == Heft(s.items, kind)
      - (if s.items[op].kind != kind || i == 0 then 0
         else Times(if s.items[op].nrof == 0 then 1 else Min(i, s.items[op].nrof), s.items[op].weight))
  {
    var t := s.items;
    var n := t[op].nrof - Min(i, t[op].nrof);
    if i > 0 {
      UnitsWeigh(t[op], kind);
      if n > 0 {
        HeftOfChange(t, op, t[op].(nrof := n), kind);
        UnitsWeigh(t[op].(nrof := n), kind);
        TimesAdd(t[op].nrof, i, t[op].weight);
      } else {
        var t1 := Remove(t, op);
        SameHeft(t, t1, kind);
        assert Decrease(s, op, i).items == t1[op := t1[op].(nrof := 0, live := false)];
        HeftOfChange(t1, op, t1[op].(nrof := 0, live := false), kind);
      }
    }
  }

  lemma SplitHeft(s: Store, op: nat, nr: nat, blank: nat, kind: nat)
    requires Sound(s) && Possible(s, ObjectSplit(op, nr, blank))
    ensures Heft(Step(s, ObjectSplit(op, nr, blank)).items, kind) == Heft(s.items, kind)
      + (if s.items[op].kind == kind then Times(Balance(s, ObjectSplit(op, nr, blank)), s.items[op].weight) else 0)
  {
    var t := s.items;
    TimesAdd(1, nr, t[op].weight);
    if nr <= Available(t, op) {
      var n := if t[op].nrof == 0 then 0 else nr;
      var s1 := Clone(s, op, n, blank);
      HeftOfChange(t, blank, s1.items[blank], kind);
      UnitsWeigh(s1.items[blank], kind);
      if t[op].nrof == 0 {
        var t2 := Remove(s1.items, op);
        SameHeft(s1.items, t2, kind);
        UnitsWeigh(t2[op], kind);
        HeftOfChange(t2, op, t2[op].(live := false), kind);
      } else {
        DecreaseHeft(s1, op, nr, kind);
      }
    }
  }

  /** Weight is conserved as numbers are: what is gained or lost weighs as much as the object that the
      call works on. */
  lemma StepConservesWeight(s: Store, m: Move, kind: nat)
    requires Sound(s) && Possible(s, m)
    ensures Heft(Step(s, m).items, kind) == Heft(s.items, kind)
      + (if s.items[Subject(m)].kind == kind then Times(Balance(s, m), s.items[Subject(m)].weight) else 0)
  {
    var t := s.items;
    TimesAdd(0, 0, t[Subject(m)].weight);
    match m {
      case InsertInOb(op, where, None) => SameHeft(t, Insert(t, op, where), kind);
      case InsertInOb(op, where, Some(into)) =>
        MergeHeft(t, SetNrof(t, into, t[into].nrof + t[op].nrof), op, into, kind);
      case ObjectRemove(op) => SameHeft(t, Remove(t, op), kind);
      case ObjectMerge(op, into) =>
        var t1 := SetNrof(t, into, t[into].nrof + t[op].nrof);
        SameHeft(t1, Remove(t1, op), kind);
        MergeHeft(t, Remove(t1, op), op, into, kind);
      case DecreaseNrof(op, i) =>
        DecreaseHeft(s, op, i, kind);
        TimesAdd(0, Min(i, t[op].nrof), t[op].weight);
      case ObjectSplit(op, nr, blank) => SplitHeft(s, op, nr, blank, kind);
    }
  }

  lemma {:induction false} RunConservesWeight(s: Store, run: seq<Move>, kind: nat)
    requires Sound(s) && PossibleRun(s, run) && Conservative(s, run)
    ensures Heft(Run(s, run).items, kind) == Heft(s.items, kind)
    decreases |run|
  {
    if run != [] {
      StepConservesWeight(s, run[0], kind);
      TimesAdd(0, 0, s.items[Subject(run[0])].weight);
      RunConservesWeight(Step(s, run[0]), run[1..], kind);
    }
  }

  // ---------------------------------------------------------------------------------------
  // What else a call leaves alone
  // ---------------------------------------------------------------------------------------

  /** Same weight, reduction and kind. */
  predicate Alike(a: Item, b: Item) {
    a.weight == b.weight && a.keep == b.keep && a.kind == b.kind
  }

  /** The object that a call makes, if it makes one. */
  function Made(s: Store, m: Move): Option<nat>
    requires Sound(s) && Possible(s, m)
  {
    match m
    case ObjectSplit(op, nr, blank) => if nr <= Available(s.items, op) then Some(blank) else None
    case _ => None
  }

  /** The object that a call merges into, if any. */
  function Target(m: Move): Option<nat> {
    match m
    case InsertInOb(_, _, target) => target
    case ObjectMerge(_, into) => Some(into)
    case _ => None
  }

  /** No call changes what an object weighs, lets through or is; counts and life only of the object it
      works on and the one merged into; and places only of the object and what it holds. */
  lemma StepLeavesAlone(s: Store, m: Move, i: nat)
    requires Sound(s) && Possible(s, m) && i < |s.items| && Made(s, m) != Some(i)
    ensures i < |Step(s, m).items| && Alike(Step(s, m).items[i], s.items[i])
    ensures i != Subject(m) && Target(m) != Some(i) ==>
      Step(s, m).items[i] == s.items[i].(path := Step(s, m).items[i].path)
    ensures !Moves(s.items, Subject(m), i) ==> Step(s, m).items[i].path == s.items[i].path
  {}

  /** A split makes an object of the same sort, which lies nowhere and carries nothing, with as many as
      were asked for, and takes as many off the first. */
  lemma SplitMakes(s: Store, op: nat, nr: nat, blank: nat)
    requires Sound(s) && Possible(s, ObjectSplit(op, nr, blank)) && nr <= Available(s.items, op)
    ensures var (s', n) := (Step(s, ObjectSplit(op, nr, blank)), s.items[op].nrof);
      && |s'.items| == |s.items|
      && Alike(s'.items[blank], s.items[op]) && s'.items[blank].live && s'.items[blank].path == []
      && s'.carrying[blank] == 0
      && s'.items[blank].nrof == (if n == 0 then 0 else nr)
      && s'.items[op].live == (nr < n || (nr == 0 && n > 0)) && (n > 0 ==> s'.items[op].nrof == n - nr)
  {
    var n := if s.items[op].nrof == 0 then 0 else nr;
    var s1 := Clone(s, op, n, blank);
    assert !Inside(s.items, op, blank);
    OffThePath(s1, op, s1.items[op].nrof - Min(nr, s1.items[op].nrof), blank);
    OffThePath(TakeOut(s1, op), op, 0, blank);
  }

  /** Only holders of an object are booked when it leaves or its count changes. */
  lemma OffThePath(s: Store, op: nat, n: nat, h: nat)
    requires Sound(s) && op < |s.items| && h < |s.items| && !Inside(s.items, op, h)
    ensures Count(s, op, n).carrying[h] == s.carrying[h]
    ensures Load(s, op) >= 0 ==> TakeOut(s, op).carrying[h] == s.carrying[h]
  {
    PathOf(s.items, op);
    ThroughOutside(s.items, s.items[op].path, s.items[op].weight * s.items[op].nrof, h);
    ThroughOutside(s.items, s.items[op].path, s.items[op].weight * n, h);
    if Load(s, op) >= 0 {
      ThroughOutside(s.items, s.items[op].path, Load(s, op), h);
    }
  }

  /** What is merged is alike, and all that is alike is merged, up to the limit on counts. */
  lemma CanMergeIff(a: Item, b: Item)
    ensures CanMerge(a, b) <==>
      b == a.(path := b.path, nrof := b.nrof, live := b.live) && a.nrof + b.nrof <= 0x7fff_ffff
  {}
}
