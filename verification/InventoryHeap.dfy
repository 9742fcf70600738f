/** The inventory code of common/object.cpp on linked objects: each holder's inventory is a list
    threaded through `inv`, `above` and `below`, and `carrying` is adjusted holder by holder along
    the chain of `env` pointers. Every method is tied to a step on plain values. */
module InventoryHeap {
  import opened Common
  import opened Sums
  import opened Weights
  import opened Inventories
  import WeightDrift

  class Obj {
    const id: nat
    var isContainer: bool
    var str: int
    var weight: nat
    var nrof: nat
    var carrying: int
    var kind: nat
    var env: Obj?
    var inv: Obj?
    var above: Obj?
    var below: Obj?
    var removed: bool
    var freed: bool

    constructor (id: nat)
      ensures this.id == id
    {
      this.id := id;
    }

    /** The percentage of weight that gets out of the object. */
    function Keep(): int
      reads this`isContainer, this`str
    {
      if isContainer then 100 - str else 100
    }
  }

  /** Inventories and paths tell the same story. */
  ghost predicate Grouped(t: seq<Item>, kids: seq<seq<nat>>) {
    && |kids| == |t|
    && (forall h, j :: 0 <= h < |t| && 0 <= j < |kids[h]| ==> Holds(t, kids, h, j))
    && (forall i :: 0 <= i < |t| && t[i].path != [] ==> Held(t, kids, i))
    && (forall h :: 0 <= h < |t| ==> NoTwice(kids[h]))
  }

  ghost predicate Holds(t: seq<Item>, kids: seq<seq<nat>>, h: nat, j: nat)
    requires h < |kids| && j < |kids[h]|
  {
    kids[h][j] < |t| && WeightDrift.Child(t, kids[h][j], h)
  }

  ghost predicate Held(t: seq<Item>, kids: seq<seq<nat>>, i: nat)
    requires i < |t| && t[i].path != []
  {
    t[i].path[0] < |kids| && i in kids[t[i].path[0]]
  }

  lemma SameGroups(t: seq<Item>, t': seq<Item>, kids: seq<seq<nat>>)
    requires Grouped(t, kids) && |t| == |t'|
    requires forall i :: 0 <= i < |t| ==> t[i].path == t'[i].path
    ensures Grouped(t', kids)
  {
    forall h, j | 0 <= h < |t| && 0 <= j < |kids[h]| ensures Holds(t', kids, h, j) {
      assert Holds(t, kids, h, j);
    }
    forall i | 0 <= i < |t| && t'[i].path != [] ensures Held(t', kids, i) {
      assert Held(t, kids, i);
    }
  }

  /** A new object goes to the front of its holder's inventory. */
  lemma GroupInsert(t: seq<Item>, kids: seq<seq<nat>>, op: nat, where: nat)
    requires Grouped(t, kids) && CanInsert(t, op, where)
    ensures Grouped(Insert(t, op, where), kids[where := [op] + kids[where]])
  {
    var t', kids' := Insert(t, op, where), kids[where := [op] + kids[where]];
    forall h, j | 0 <= h < |t| && 0 <= j < |kids'[h]| ensures Holds(t', kids', h, j) {
      if h != where {
        assert Holds(t, kids, h, j);
      } else if j > 0 {
        assert Holds(t, kids, h, j - 1);
      }
    }
    forall i | 0 <= i < |t| && t'[i].path != [] ensures Held(t', kids', i) {
      if i != op {
        assert t[i].path != [];
        assert Held(t, kids, i);
        assert t'[i].path[0] == t[i].path[0];
      }
    }
    forall h | 0 <= h < |t| ensures NoTwice(kids'[h]) {
      assert NoTwice(kids[h]);
      forall j | 0 <= j < |kids[where]| ensures kids[where][j] != op {
        assert Holds(t, kids, where, j);
      }
    }
  }

  /** An inventory without object x. */
  function Drop(s: seq<nat>, x: nat): seq<nat>
    requires x in s
  {
    Without(s, Find(s, x))
  }

  /** The inventories once op is out of whatever holds it. */
  function LeftBehind(t: seq<Item>, kids: seq<seq<nat>>, op: nat): seq<seq<nat>>
    requires op < |t|
  {
    if t[op].path == [] || t[op].path[0] >= |kids| || op !in kids[t[op].path[0]] then kids
    else kids[t[op].path[0] := Drop(kids[t[op].path[0]], op)]
  }

  lemma GroupRemove(t: seq<Item>, kids: seq<seq<nat>>, op: nat, j: nat)
    requires Grouped(t, kids) && WellFormed(t) && op < |t| && t[op].path != []
    requires t[op].path[0] < |t| && j < |kids[t[op].path[0]]| && kids[t[op].path[0]][j] == op
    ensures Grouped(Remove(t, op), kids[t[op].path[0] := Without(kids[t[op].path[0]], j)])
  {
    var where := t[op].path[0];
    var t', kids' := Remove(t, op), kids[where := Without(kids[where], j)];
    RemoveWellFormed(t, op);
    assert NoTwice(kids[where]);
    forall h, k | 0 <= h < |t| && 0 <= k < |kids'[h]| ensures Holds(t', kids', h, k) {
      var k' := if h == where && k >= j then k + 1 else k;
      assert Holds(t, kids, h, k');
      assert kids'[h][k] == kids[h][k'];
      FirstHolderStays(t, op, kids[h][k']);
    }
    forall i | 0 <= i < |t| && t'[i].path != [] ensures Held(t', kids', i) {
      assert i != op;
      FirstHolderStays(t, op, i);
      assert Held(t, kids, i);
      var h := t[i].path[0];
      var k :| 0 <= k < |kids[h]| && kids[h][k] == i;
      if h == where {
        assert kids'[h][if k < j then k else k - 1] == i;
      }
    }
    forall h | 0 <= h < |t| ensures NoTwice(kids'[h]) {
      assert NoTwice(kids[h]);
    }
  }

  /** Only op itself leaves its holder. */
  lemma FirstHolderStays(t: seq<Item>, op: nat, i: nat)
    requires WellFormed(t) && op < |t| && i < |t| && i != op
    ensures Remove(t, op)[i].path == [] <==> t[i].path == []
    ensures t[i].path != [] ==> Remove(t, op)[i].path[0] == t[i].path[0]
  {
    if Inside(t, i, op) {
      RemovedPath(t, i, op);
      PathEndsAt(t, i, op);
    }
  }

  /** The stages of object_merge. */
  lemma MergeStages(s: Store, kids: seq<seq<nat>>, op: nat, into: nat, s1: Store)
    requires Sound(s) && op < |s.items| && into < |s.items| && op != into && s.items[op].nrof > 0
    requires s1 == Count(s, into, s.items[into].nrof + s.items[op].nrof)
    ensures
      && |s1.items| == |s.items| && Load(s1, op) >= 0
      && LeftBehind(s1.items, kids, op) == LeftBehind(s.items, kids, op)
      && Merge(s, op, into) == Free(TakeOut(s1, op), op)
  {}

  predicate Suits(t: seq<Item>, op: nat, i: nat)
    requires op < |t| && i < |t|
  {
    i != op && Empty(t, op) && Empty(t, i) && CanMerge(t[op], t[i])
  }

  /** The first object of ks from the i-th on, other than op, that op can merge with. */
  function FirstTarget(t: seq<Item>, ks: seq<nat>, i: nat, op: nat): (r: Option<nat>)
    requires op < |t| && i <= |ks| && forall k :: 0 <= k < |ks| ==> ks[k] < |t|
    ensures r.Some? ==> r.value in ks && r.value < |t| && Suits(t, op, r.value)
    ensures r.None? ==> forall k :: i <= k < |ks| ==> !Suits(t, op, ks[k])
    decreases |ks| - i
  {
    if i == |ks| then None
    else if Suits(t, op, ks[i]) then Some(ks[i])
    else FirstTarget(t, ks, i + 1, op)
  }

  /** The first place from the i-th on with another object that, like op, holds nothing and is of the same
      weight, reduction and kind, if the counts together stay below the limit. */
  lemma {:induction false} FirstTargetIff(t: seq<Item>, ks: seq<nat>, i: nat, op: nat, x: nat)
    requires op < |t| && i <= |ks| && forall k :: 0 <= k < |ks| ==> ks[k] < |t|
    ensures FirstTarget(t, ks, i, op) == Some(x) <==>
      exists j :: (i <= j < |ks| && ks[j] == x && Joinable(t, op, x)
                   && forall k :: i <= k < j ==> !Joinable(t, op, ks[k]))
    decreases |ks| - i
  {
    if i < |ks| {
      FirstTargetIff(t, ks, i + 1, op, x);
      JoinableIff(t, op, ks[i]);
      if FirstTarget(t, ks, i, op) == Some(x) && !Suits(t, op, ks[i]) {
        var j :| i + 1 <= j < |ks| && ks[j] == x && Joinable(t, op, x)
          && forall k :: i + 1 <= k < j ==> !Joinable(t, op, ks[k]);
        assert forall k :: i <= k < j ==> !Joinable(t, op, ks[k]);
      }
    }
  }

  predicate Joinable(t: seq<Item>, op: nat, x: nat)
    requires op < |t|
  {
    && x < |t| && x != op && (forall i :: 0 <= i < |t| ==> op !in t[i].path && x !in t[i].path)
    && t[x].weight == t[op].weight && t[x].keep == t[op].keep && t[x].kind == t[op].kind
    && t[x].nrof + t[op].nrof < 0x8000_0000
  }

  lemma JoinableIff(t: seq<Item>, op: nat, x: nat)
    requires op < |t| && x < |t|
    ensures Suits(t, op, x) <==> Joinable(t, op, x)
  {
    CanMergeIff(t[op], t[x]);
    if Suits(t, op, x) {
      forall i | 0 <= i < |t| ensures op !in t[i].path && x !in t[i].path {
        assert !Inside(t, i, op) && !Inside(t, i, x);
      }
    }
    if Joinable(t, op, x) {
      forall i | 0 <= i < |t| ensures !Inside(t, i, op) && !Inside(t, i, x) {
        assert op !in t[i].path;
      }
    }
  }

  /** An object that is nowhere and holds nothing. */
  ghost predicate Detached(o: Obj, i: nat)
    reads o
  {
    && o.id == i && o.env == null && o.inv == null && o.above == null && o.below == null
    && o.carrying == 0 && 0 <= o.Keep() <= 100
  }

  ghost function ItemsOf(cells: seq<Obj>): (t: seq<Item>)
    requires forall i :: 0 <= i < |cells| ==> cells[i].Keep() >= 0
    reads cells
    ensures |t| == |cells|
    ensures forall i :: 0 <= i < |cells| ==>
      t[i] == Item([], cells[i].weight, cells[i].nrof, cells[i].Keep(), cells[i].kind, !cells[i].freed)
  {
    if cells == [] then []
    else
      var o := cells[|cells| - 1];
      ItemsOf(cells[..|cells| - 1]) + [Item([], o.weight, o.nrof, o.Keep(), o.kind, !o.freed)]
  }

  lemma NothingHeld(t: seq<Item>)
    requires forall i :: 0 <= i < |t| ==> t[i].path == [] && t[i].keep <= 100
    ensures Exact(t, seq(|t|, i => 0)) && Grouped(t, seq(|t|, i => []))
  {
    assert WellFormed(t);
    forall h | 0 <= h < |t| ensures Carried(t, h) == 0 {
      SumZero(Shares(t, h));
    }
  }

  datatype ListLinks = ListLinks(inv: seq<Obj?>, above: seq<Obj?>, below: seq<Obj?>)

  ghost predicate NodeIn(cells: seq<Obj>, l: ListLinks, ks: seq<nat>, j: nat)
    requires |l.inv| == |l.above| == |l.below| == |cells|
    requires j < |ks| && forall k :: 0 <= k < |ks| ==> ks[k] < |cells|
  {
    && l.above[ks[j]] == (if j == 0 then null else cells[ks[j - 1]])
    && l.below[ks[j]] == (if j + 1 == |ks| then null else cells[ks[j + 1]])
  }

  ghost predicate ListIn(cells: seq<Obj>, l: ListLinks, h: nat, ks: seq<nat>)
    requires |l.inv| == |l.above| == |l.below| == |cells| && h < |cells|
  {
    && (forall k :: 0 <= k < |ks| ==> ks[k] < |cells|)
    && (forall j :: 0 <= j < |ks| ==> NodeIn(cells, l, ks, j))
    && l.inv[h] == (if ks == [] then null else cells[ks[0]])
  }

  /** The neighbours of the j-th of ks now point to each other. */
  ghost predicate Joined(cells: seq<Obj>, l: ListLinks, l': ListLinks, ks: seq<nat>, h: nat, j: nat)
    requires |l.inv| == |l.above| == |l.below| == |cells|
    requires |l'.inv| == |l'.above| == |l'.below| == |cells|
    requires j < |ks| && ks[j] < |cells|
  {
    var op := ks[j];
    && (forall i :: 0 <= i < |cells| ==>
          l'.inv[i] == (if i == h && j == 0 then l.below[op] else l.inv[i]))
    && (forall i :: 0 <= i < |cells| && i != op ==>
          l'.below[i] == (if j > 0 && i == ks[j - 1] then l.below[op] else l.below[i]))
    && (forall i :: 0 <= i < |cells| && i != op ==>
          l'.above[i] == (if j + 1 < |ks| && i == ks[j + 1] then l.above[op] else l.above[i]))
  }

  /** Then op's list is as it was without it, */
  lemma JoinedOwnList(cells: seq<Obj>, l: ListLinks, l': ListLinks, ks: seq<nat>, h: nat, j: nat)
    requires |l.inv| == |l.above| == |l.below| == |cells|
    requires |l'.inv| == |l'.above| == |l'.below| == |cells|
    requires h < |cells| && ListIn(cells, l, h, ks) && NoTwice(ks)
    requires j < |ks| && Joined(cells, l, l', ks, h, j)
    ensures ListIn(cells, l', h, Without(ks, j))
  {
    var ks' := Without(ks, j);
    assert NodeIn(cells, l, ks, j);
    forall k | 0 <= k < |ks'| ensures ks'[k] < |cells| && NodeIn(cells, l', ks', k) {
      var k' := if k >= j then k + 1 else k;
      assert ks'[k] == ks[k'];
      assert NodeIn(cells, l, ks, k');
    }
  }

  /** and a list sharing nothing with it is unchanged. */
  lemma JoinedOtherList(cells: seq<Obj>, l: ListLinks, l': ListLinks, ks: seq<nat>, h: nat, j: nat,
                        g: nat, gs: seq<nat>)
    requires |l.inv| == |l.above| == |l.below| == |cells|
    requires |l'.inv| == |l'.above| == |l'.below| == |cells|
    requires h < |cells| && ListIn(cells, l, h, ks)
    requires g < |cells| && g != h && ListIn(cells, l, g, gs)
    requires forall k, k' :: 0 <= k < |ks| && 0 <= k' < |gs| ==> ks[k] != gs[k']
    requires j < |ks| && Joined(cells, l, l', ks, h, j)
    ensures ListIn(cells, l', g, gs)
  {
    forall k | 0 <= k < |gs| ensures NodeIn(cells, l', gs, k) {
      assert NodeIn(cells, l, gs, k);
    }
  }

  /** op now stands before the first of h's list. */
  ghost predicate First(cells: seq<Obj>, l: ListLinks, l': ListLinks, h: nat, op: nat)
    requires |l.inv| == |l.above| == |l.below| == |cells|
    requires |l'.inv| == |l'.above| == |l'.below| == |cells|
    requires h < |cells| && op < |cells|
  {
    && (forall i :: 0 <= i < |cells| ==> l'.inv[i] == (if i == h then cells[op] else l.inv[i]))
    && (forall i :: 0 <= i < |cells| ==> l'.below[i] == (if i == op then l.inv[h] else l.below[i]))
    && (forall i :: 0 <= i < |cells| && cells[i] != l.inv[h] ==> l'.above[i] == (if i == op then null else l.above[i]))
    && (forall i :: 0 <= i < |cells| && cells[i] == l.inv[h] ==> l'.above[i] == cells[op])
  }

  lemma FirstOfOwnList(cells: seq<Obj>, l: ListLinks, l': ListLinks, ks: seq<nat>, h: nat, op: nat)
    requires |l.inv| == |l.above| == |l.below| == |cells|
    requires |l'.inv| == |l'.above| == |l'.below| == |cells|
    requires h < |cells| && op < |cells| && ListIn(cells, l, h, ks) && op !in ks && NoTwice(ks)
    requires forall i, j :: 0 <= i < j < |cells| ==> cells[i] != cells[j]
    requires First(cells, l, l', h, op)
    ensures ListIn(cells, l', h, [op] + ks)
  {
    var ks' := [op] + ks;
    forall k | 0 <= k < |ks'| ensures ks'[k] < |cells| && NodeIn(cells, l', ks', k) {
      if k > 0 {
        assert ks'[k] == ks[k - 1] && NodeIn(cells, l, ks, k - 1);
      }
    }
  }

  lemma FirstOfOtherList(cells: seq<Obj>, l: ListLinks, l': ListLinks, gs: seq<nat>, h: nat, op: nat, g: nat)
    requires |l.inv| == |l.above| == |l.below| == |cells|
    requires |l'.inv| == |l'.above| == |l'.below| == |cells|
    requires h < |cells| && op < |cells| && g < |cells| && g != h && ListIn(cells, l, g, gs) && op !in gs
    requires forall k :: 0 <= k < |gs| ==> cells[gs[k]] != l.inv[h]
    requires First(cells, l, l', h, op)
    ensures ListIn(cells, l', g, gs)
  {
    forall k | 0 <= k < |gs| ensures NodeIn(cells, l', gs, k) {
      assert NodeIn(cells, l, gs, k);
    }
  }

  class World {
    const cells: seq<Obj>
    ghost var items: seq<Item>
    /** Each object's `carrying`. */
    ghost var books: seq<int>
    /** Each object's inventory, newest first. */
    ghost var kids: seq<seq<nat>>

    /** Objects on their own: nowhere, with nothing in them. */
    constructor (cells: seq<Obj>)
      requires forall i :: 0 <= i < |cells| ==> Detached(cells[i], i)
      ensures Valid() && this.cells == cells
      ensures |items| == |kids| == |cells| && forall i :: 0 <= i < |cells| ==> items[i].path == [] && kids[i] == []
    {
      this.cells := cells;
      items := ItemsOf(cells);
      books := seq(|cells|, i => 0);
      kids := seq(|cells|, i => []);
      new;
      NothingHeld(items);
      forall h | 0 <= h < |cells| ensures Mirrors(h) && ListIs(h, kids[h]) {
        assert Detached(cells[h], h);
      }
    }

    ghost predicate Known(o: Obj?)
    {
      o != null && o.id < |cells| && cells[o.id] == o
    }

    ghost function At(i: nat): Obj
      requires i < |cells|
    {
      cells[i]
    }

    ghost function Snapshot(): Store
      reads this`items, this`books
    {
      Store(items, books)
    }

    /** The fields of each object are the ones in `items`. */
    ghost predicate Mirrors(i: nat)
      requires i < |cells| == |items| == |books|
      reads this`items, this`books, cells`env, cells`removed, cells`freed, cells`weight, cells`nrof
      reads cells`isContainer, cells`str, cells`kind, cells`carrying
    {
      var o, it := cells[i], items[i];
      && o.id == i
      && it.weight == o.weight && it.nrof == o.nrof && it.keep == o.Keep() && it.kind == o.kind
      && it.live == !o.freed && books[i] == o.carrying
      && (it.path == [] ==> o.env == null)
      && (it.path != [] ==> it.path[0] < |cells| && o.env == cells[it.path[0]] && !o.removed)
    }

    ghost predicate InRange(ks: seq<nat>) {
      forall j :: 0 <= j < |ks| ==> ks[j] < |cells|
    }

    /** The j-th object of an inventory is linked to its neighbours. */
    ghost predicate LinkedAt(ks: seq<nat>, j: nat)
      requires j < |ks| && InRange(ks)
      reads cells`above, cells`below
    {
      && cells[ks[j]].above == (if j == 0 then null else cells[ks[j - 1]])
      && cells[ks[j]].below == (if j + 1 == |ks| then null else cells[ks[j + 1]])
    }

    /** The inventory list of cell h is ks. */
    ghost predicate ListIs(h: nat, ks: seq<nat>)
      requires h < |cells|
      reads cells`inv, cells`above, cells`below
    {
      && InRange(ks)
      && (forall j :: 0 <= j < |ks| ==> LinkedAt(ks, j))
      && cells[h].inv == (if ks == [] then null else cells[ks[0]])
    }

    ghost predicate MirrorsAll()
      requires |cells| == |items| == |books|
      reads this`items, this`books, cells`env, cells`removed, cells`freed, cells`weight, cells`nrof
      reads cells`isContainer, cells`str, cells`kind, cells`carrying
    {
      forall i :: 0 <= i < |cells| ==> Mirrors(i)
    }

    ghost predicate ListsAll()
      requires |cells| == |kids|
      reads this`kids, cells`inv, cells`above, cells`below
    {
      forall h :: 0 <= h < |cells| ==> ListIs(h, kids[h])
    }

    /** Everything but the books. */
    ghost predicate Shape()
      reads this, cells
    {
      && |items| == |books| == |kids| == |cells| && WellFormed(items) && Grouped(items, kids)
      && MirrorsAll() && ListsAll()
    }

    ghost predicate Valid()
      reads this, cells
    {
      var ok := Shape() && IsExact(Snapshot());
      ok
    }

    /** The holders from o outwards. */
    ghost function Chain(o: Obj?): seq<nat>
      reads this`items
    {
      if o == null || o.id >= |items| then [] else Via(items, o.id)
    }

    lemma ChainIsPath(o: Obj?)
      requires Shape() && (o != null ==> Known(o))
      ensures IsPath(items, Chain(o))
    {
      if o != null {
        PathOf(items, o.id);
      }
    }

    lemma EnvIsNext(o: Obj)
      requires Shape() && Known(o)
      ensures (o.env != null ==> Known(o.env)) && Chain(o.env) == Chain(o)[1..]
      ensures o.carrying == books[o.id]
    {
      assert Mirrors(o.id);
      if o.env != null {
        assert Nested(items, o.id, 0);
        assert Mirrors(items[o.id].path[0]);
      }
    }

    /** The weight that gets out of a holder. */
    method Reduced(o: Obj, weight: nat) returns (w: nat)
      requires Shape() && Known(o)
      ensures w == Reduce(weight, items[o.id].keep) && o.carrying == books[o.id]
      ensures w as int == if o.isContainer then weight * (100 - o.str) / 100 else weight
    {
      assert Mirrors(o.id);
      w := weight;
      if o.isContainer {
        w := weight * (100 - o.str) / 100;
      }
    }

    /** One round of object_add_weight. */
    method AddOnce(cur: Obj, w: nat) returns (next: Obj?, w': nat)
      requires Shape() && Known(cur) && IsPath(items, Chain(cur))
      modifies cells`carrying, this`books
      ensures Shape() && (next != null ==> Known(next)) && Chain(next) == Chain(cur)[1..] && IsPath(items, Chain(next))
      ensures items == old(items)
      ensures AddAlong(items, books, Chain(next), w') == AddAlong(items, old(books), Chain(cur), w)
    {
      ghost var c, q := books, Chain(cur);
      AlongStep(items, c, q, w);
      w' := Reduced(cur, w);
      Book(cur, cur.carrying + w');
      assert books == c[q[0] := c[q[0]] + w'];
      EnvIsNext(cur);
      next := cur.env;
      assert Chain(next) == q[1..];
      ChainIsPath(next);
    }

    /** object_add_weight */
    method AddWeight(op: Obj?, weight: nat)
      requires Shape() && (op != null ==> Known(op))
      modifies cells`carrying, this`books
      ensures Shape() && IsPath(items, Chain(op))
      ensures books == AddAlong(items, old(books), Chain(op), weight)
    {
      var cur := op;
      var w: nat := weight;
      ChainIsPath(op);
      ghost var t, done := items, AddAlong(items, books, Chain(op), weight);
      while cur != null
        invariant Shape() && items == t && (cur != null ==> Known(cur)) && IsPath(t, Chain(cur))
        invariant AddAlong(t, books, Chain(cur), w) == done
        decreases |Chain(cur)|
      {
        cur, w := AddOnce(cur, w);
      }
    }

    /** One round of object_sub_weight. */
    method SubOnce(cur: Obj, w: nat) returns (next: Obj?, w': nat)
      requires Shape() && Known(cur) && IsPath(items, Chain(cur))
      modifies cells`carrying, this`books
      ensures Shape() && (next != null ==> Known(next)) && Chain(next) == Chain(cur)[1..] && IsPath(items, Chain(next))
      ensures items == old(items)
      ensures SubAlong(items, books, Chain(next), w') == SubAlong(items, old(books), Chain(cur), w)
    {
      ghost var c, q := books, Chain(cur);
      AlongStep(items, c, q, w);
      w' := Reduced(cur, w);
      Book(cur, cur.carrying - w');
      assert books == c[q[0] := c[q[0]] - w'];
      EnvIsNext(cur);
      next := cur.env;
      assert Chain(next) == q[1..];
      ChainIsPath(next);
    }

    /** object_sub_weight */
    method SubWeight(op: Obj?, weight: nat)
      requires Shape() && (op != null ==> Known(op))
      modifies cells`carrying, this`books
      ensures Shape() && IsPath(items, Chain(op))
      ensures books == SubAlong(items, old(books), Chain(op), weight)
    {
      var cur := op;
      var w: nat := weight;
      ChainIsPath(op);
      ghost var t, done := items, SubAlong(items, books, Chain(op), weight);
      while cur != null
        invariant Shape() && items == t && (cur != null ==> Known(cur)) && IsPath(t, Chain(cur))
        invariant SubAlong(t, books, Chain(cur), w) == done
        decreases |Chain(cur)|
      {
        cur, w := SubOnce(cur, w);
      }
    }

    /** An assignment to one object's `carrying`. */
    method Book(o: Obj, c: int)
      requires Shape() && Known(o)
      modifies o`carrying, this`books
      ensures Shape() && books == old(books)[o.id := c]
    {
      o.carrying := c;
      books := books[o.id := c];
      forall i | 0 <= i < |cells| ensures Mirrors(i) {
        assert old(Mirrors(i));
      }
      forall h | 0 <= h < |cells| ensures ListIs(h, kids[h]) {
        assert old(ListIs(h, kids[h]));
        forall j | 0 <= j < |kids[h]| ensures LinkedAt(kids[h], j) {
          assert old(LinkedAt(kids[h], j));
        }
      }
    }
  
    /** An object is in the inventory of its holder only. */
    lemma OnlyListed(h: nat, j: nat)
      requires Shape() && h < |kids| && j < |kids[h]|
      ensures kids[h][j] < |cells| && items[kids[h][j]].path != [] && items[kids[h][j]].path[0] == h
      ensures cells[kids[h][j]].id == kids[h][j]
    {
      assert Holds(items, kids, h, j);
      assert Mirrors(kids[h][j]);
    }

    lemma ListsAreKnown()
      requires Shape()
      ensures ListsKnown()
    {
      forall i | 0 <= i < |cells| ensures cells[i].id == i {
        assert Mirrors(i);
      }
    }

    /** The pointer part of object_insert_in_ob. */
    method Link(op: Obj, where: Obj)
      requires Shape() && Known(op) && Known(where) && CanInsert(items, op.id, where.id)
      modifies cells`env, cells`inv, cells`above, cells`below, op`removed, this`items, this`kids
      ensures Shape() && !op.removed
      ensures items == Insert(old(items), op.id, where.id)
      ensures kids == old(kids)[where.id := [op.id] + old(kids)[where.id]]
    {
      GroupInsert(items, kids, op.id, where.id);
      InsertWellFormed(items, op.id, where.id);
      ListsAreKnown();
      PushFront(op, where);
      assert MirrorsAll();
      kids := kids[where.id := [op.id] + kids[where.id]];
      assert ListsAll();
      SetEnv(op, where);
    }

    /** The environment of a removed object is set. */
    method SetEnv(op: Obj, where: Obj)
      requires |cells| == |items| == |books| && MirrorsAll() && Known(op) && Known(where)
      requires CanInsert(items, op.id, where.id)
      modifies op`env, op`removed, this`items
      ensures |cells| == |items| && MirrorsAll() && !op.removed
      ensures items == Insert(old(items), op.id, where.id)
    {
      op.removed := false;
      op.env := where;
      items := Insert(items, op.id, where.id);
      forall i | 0 <= i < |cells| ensures Mirrors(i) {
        assert old(Mirrors(i));
      }
    }

    /** op, which is in no list, becomes the first of where's. */
    method PushFront(op: Obj, where: Obj)
      requires |kids| == |cells| && Known(op) && Known(where) && ListsKnown()
      requires op.id < |items| && items[op.id].path == []
      modifies cells`inv, cells`above, cells`below
      ensures forall h :: 0 <= h < |cells| ==>
        ListIs(h, if h == where.id then [op.id] + kids[h] else kids[h])
    {
      assert ListIs(where.id, kids[where.id]);
      forall h, j | 0 <= h < |kids| && 0 <= j < |kids[h]|
        ensures kids[h][j] < |items| && items[kids[h][j]].path != [] && items[kids[h][j]].path[0] == h
      {
        assert Holds(items, kids, h, j);
      }
      ghost var before := Links();
      LinksAreLists(kids);
      LinkFirst(op, where);
      FirstOfOwnList(cells, before, Links(), kids[where.id], where.id, op.id);
      forall g | 0 <= g < |cells| && g != where.id ensures ListIn(cells, Links(), g, kids[g]) {
        FirstOfOtherList(cells, before, Links(), kids[g], where.id, op.id, g);
      }
      ghost var kids' := kids[where.id := [op.id] + kids[where.id]];
      LinksAreLists(kids');
      forall h | 0 <= h < |cells| ensures ListIs(h, if h == where.id then [op.id] + kids[h] else kids[h]) {
        assert ListIs(h, kids'[h]);
      }
    }

    method LinkFirst(op: Obj, where: Obj)
      requires |kids| == |cells| && Known(op) && Known(where) && ListsKnown()
      modifies cells`inv, cells`above, cells`below
      ensures First(cells, old(Links()), Links(), where.id, op.id)
    {
      assert ListIs(where.id, kids[where.id]);
      op.above := null;
      op.below := null;
      if where.inv == null {
        where.inv := op;
      } else {
        op.below := where.inv;
        op.below.above := op;
        where.inv := op;
      }
    }

    /** The pointer part of object_remove. */
    method Unlink(op: Obj)
      requires Shape() && Known(op) && op.env != null
      modifies cells`env, cells`inv, cells`above, cells`below, op`removed, this`items, this`kids
      ensures Shape() && op.removed
      ensures items == Remove(old(items), op.id)
      ensures old(items)[op.id].path != [] && var h := old(items)[op.id].path[0];
        h < |kids| && old(Lists(h, op.id)) && kids == old(kids)[h := Drop(old(kids)[h], op.id)]
    {
      assert Mirrors(op.id);
      ghost var h := items[op.id].path[0];
      assert Held(items, kids, op.id);
      ghost var j := Find(kids[h], op.id);
      GroupRemove(items, kids, op.id, j);
      RemoveWellFormed(items, op.id);
      ListsAreKnown();
      TakeFromList(op, h, j);
      assert MirrorsAll();
      kids := kids[h := Without(kids[h], j)];
      assert ListsAll();
      ClearEnv(op);
    }

    ghost predicate Lists(h: nat, i: nat)
      requires h < |kids|
      reads this`kids
    {
      i in kids[h]
    }

    method ClearEnv(op: Obj)
      requires |cells| == |items| == |books| && MirrorsAll() && Known(op) && WellFormed(items)
      modifies op`env, op`removed, this`items
      ensures |cells| == |items| && MirrorsAll() && op.removed
      ensures items == Remove(old(items), op.id)
    {
      op.removed := true;
      op.env := null;
      items := Remove(items, op.id);
      RemoveWellFormed(old(items), op.id);
      forall i | 0 <= i < |cells| ensures Mirrors(i) {
        assert old(Mirrors(i));
        if i != op.id {
          FirstHolderStays(old(items), op.id, i);
        }
      }
    }

    /** op, the j-th of h's inventory, is unlinked from its neighbours. */
    method TakeFromList(op: Obj, ghost h: nat, ghost j: nat)
      requires |kids| == |cells| && Known(op) && h < |cells| && op.env == cells[h] && ListsKnown()
      requires j < |kids[h]| && kids[h][j] == op.id
      modifies cells`inv, cells`above, cells`below
      ensures forall g :: 0 <= g < |cells| ==>
        ListIs(g, if g == h then Without(kids[g], j) else kids[g])
    {
      ghost var before := Links();
      LinksAreLists(kids);
      JoinNeighbours(op, h, j);
      assert NoTwice(kids[h]);
      JoinedOwnList(cells, before, Links(), kids[h], h, j);
      forall g | 0 <= g < |cells| && g != h ensures ListIn(cells, Links(), g, kids[g]) {
        ListsAreDisjoint(g, h);
        JoinedOtherList(cells, before, Links(), kids[h], h, j, g, kids[g]);
      }
      ghost var kids' := kids[h := Without(kids[h], j)];
      LinksAreLists(kids');
      forall g | 0 <= g < |cells| ensures ListIs(g, if g == h then Without(kids[g], j) else kids[g]) {
        assert ListIs(g, kids'[g]);
      }
    }

    lemma ListsAreDisjoint(g: nat, h: nat)
      requires g < |kids| && h < |kids| && g != h
      requires forall h, j :: 0 <= h < |kids| && 0 <= j < |kids[h]| ==> Holds(items, kids, h, j)
      ensures forall k, k' :: 0 <= k < |kids[h]| && 0 <= k' < |kids[g]| ==> kids[h][k] != kids[g][k']
    {
      forall k, k' | 0 <= k < |kids[h]| && 0 <= k' < |kids[g]| ensures kids[h][k] != kids[g][k'] {
        assert Holds(items, kids, h, k) && Holds(items, kids, g, k');
      }
    }

    method JoinNeighbours(op: Obj, ghost h: nat, ghost j: nat)
      requires |kids| == |cells| && Known(op) && h < |cells| && op.env == cells[h] && ListsKnown()
      requires j < |kids[h]| && kids[h][j] == op.id
      modifies cells`inv, cells`above, cells`below
      ensures Joined(cells, old(Links()), Links(), kids[h], h, j)
    {
      assert ListIs(h, kids[h]) && NoTwice(kids[h]) && LinkedAt(kids[h], j);
      if op.above != null {
        op.above.below := op.below;
      } else {
        op.env.inv := op.below;
      }
      if op.below != null {
        op.below.above := op.above;
      }
      op.above := null;
      op.below := null;
    }

    /** All list pointers, as a value. */
    ghost function Links(): (l: ListLinks)
      reads cells
      ensures |l.inv| == |l.above| == |l.below| == |cells|
    {
      ListLinks(
        seq(|cells|, i requires 0 <= i < |cells| reads cells => cells[i].inv),
        seq(|cells|, i requires 0 <= i < |cells| reads cells => cells[i].above),
        seq(|cells|, i requires 0 <= i < |cells| reads cells => cells[i].below))
    }

    lemma LinksAreLists(ks: seq<seq<nat>>)
      requires |ks| == |cells|
      ensures (forall g :: 0 <= g < |cells| ==> ListIs(g, ks[g])) <==>
        (forall g :: 0 <= g < |cells| ==> ListIn(cells, Links(), g, ks[g]))
    {
      forall g | 0 <= g < |cells| ensures ListIs(g, ks[g]) <==> ListIn(cells, Links(), g, ks[g]) {
        if ListIs(g, ks[g]) {
          forall j | 0 <= j < |ks[g]| ensures NodeIn(cells, Links(), ks[g], j) {
            assert LinkedAt(ks[g], j);
          }
        }
        if ListIn(cells, Links(), g, ks[g]) {
          forall j | 0 <= j < |ks[g]| ensures LinkedAt(ks[g], j) {
            assert NodeIn(cells, Links(), ks[g], j);
          }
        }
      }
    }

    /** All lists are as recorded, and no object is listed twice. */
    ghost predicate ListsKnown()
      requires |kids| == |cells|
      reads this`kids, this`items, cells`inv, cells`above, cells`below
    {
      && (forall i :: 0 <= i < |cells| ==> cells[i].id == i)
      && (forall h :: 0 <= h < |cells| ==> ListIs(h, kids[h]))
      && (forall h :: 0 <= h < |cells| ==> NoTwice(kids[h]))
      && (forall h, j :: 0 <= h < |kids| && 0 <= j < |kids[h]| ==> Holds(items, kids, h, j))
    }

    // -------------------------------------------------------------------------------------
    // The calls
    // -------------------------------------------------------------------------------------

    lemma EnvChain(o: Obj)
      requires Shape() && Known(o)
      ensures (o.env != null ==> Known(o.env)) && Chain(o.env) == items[o.id].path
      ensures o.env == null <==> items[o.id].path == []
      ensures o.weight == items[o.id].weight && o.nrof == items[o.id].nrof && o.carrying == books[o.id]
    {
      EnvIsNext(o);
      assert Mirrors(o.id);
    }

    method SetCount(op: Obj, n: nat)
      requires Shape() && Known(op)
      modifies op`nrof, this`items
      ensures Shape() && items == SetNrof(old(items), op.id, n)
    {
      op.nrof := n;
      items := SetNrof(items, op.id, n);
      Recount(old(items), op.id, n, op.id);
      SameGroups(old(items), items, kids);
      forall i | 0 <= i < |cells| ensures Mirrors(i) {
        assert old(Mirrors(i));
      }
    }

    method SetFreed(op: Obj)
      requires Shape() && Known(op)
      modifies op`freed, this`items
      ensures Shape() && Snapshot() == Free(old(Snapshot()), op.id)
    {
      op.freed := true;
      items := items[op.id := items[op.id].(live := false)];
      SameShape(old(items), items);
      SameGroups(old(items), items, kids);
      forall i | 0 <= i < |cells| ensures Mirrors(i) {
        assert old(Mirrors(i));
      }
    }

    /** object_increase_nrof */
    method IncreaseNrof(op: Obj, i: nat)
      requires Shape() && Known(op)
      modifies op`nrof, cells`carrying, this`items, this`books
      ensures Shape()
      ensures Snapshot() == if i == 0 then old(Snapshot()) else Count(old(Snapshot()), op.id, old(op.nrof) + i)
      ensures old(Valid()) ==> (Valid() <==> i == 0 || Counted(old(items), op.id))
    {
      if i == 0 {
        return;
      }
      EnvChain(op);
      if IsExact(Snapshot()) {
        CountIsExactIff(Snapshot(), op.id, op.nrof + i);
      }
      RaiseCount(op, i);
    }

    method RaiseCount(op: Obj, i: nat)
      requires Shape() && Known(op)
      modifies op`nrof, cells`carrying, this`items, this`books
      ensures Shape()
      ensures Snapshot() == Count(old(Snapshot()), op.id, old(op.nrof) + i)
    {
      EnvChain(op);
      if op.removed || op.env == null {
        CountAlone(op, op.nrof + i);
      } else {
        ChangeCount(op, op.nrof + i);
      }
    }

    /** Nothing holds the object, so its weight is on no books. */
    method CountAlone(op: Obj, n: nat)
      requires Shape() && Known(op) && (op.removed || op.env == null)
      modifies op`nrof, this`items
      ensures Shape() && Snapshot() == Count(old(Snapshot()), op.id, n)
    {
      assert Mirrors(op.id);
      CountOutside(Snapshot(), op.id, n);
      SetCount(op, n);
    }

    /** Weight off, new count, weight on. */
    method ChangeCount(op: Obj, n: nat)
      requires Shape() && Known(op)
      modifies op`nrof, cells`carrying, this`items, this`books
      ensures Shape() && Snapshot() == Count(old(Snapshot()), op.id, n)
    {
      EnvChain(op);
      ghost var path := items[op.id].path;
      SubWeight(op.env, op.weight * op.nrof);
      SetCount(op, n);
      EnvChain(op);
      PathOf(old(items), op.id);
      PathOf(items, op.id);
      AddAlongSame(old(items), items, books, path, op.weight * n);
      AddWeight(op.env, op.weight * n);
    }

    /** object_remove, for an object that is on no map. */
    method ObjectRemove(op: Obj)
      requires Shape() && Known(op) && !op.removed && op.id < |items| && Load(Snapshot(), op.id) >= 0
      modifies this`items, this`kids, this`books
      modifies cells`carrying, cells`env, cells`inv, cells`above, cells`below, op`removed
      ensures Shape() && op.removed
      ensures Snapshot() == TakeOut(old(Snapshot()), op.id)
      ensures kids == LeftBehind(old(items), old(kids), op.id)
      ensures old(Valid()) ==> (Valid() <==> Movable(old(Snapshot()), op.id, old(Snapshot()).items[op.id].path))
    {
      if IsExact(Snapshot()) {
        TakeOutIsExactIff(Snapshot(), op.id);
      }
      Detach(op);
    }

    method Detach(op: Obj)
      requires Shape() && Known(op) && !op.removed && op.id < |items| && Load(Snapshot(), op.id) >= 0
      modifies this`items, this`kids, this`books
      modifies cells`carrying, cells`env, cells`inv, cells`above, cells`below, op`removed
      ensures Shape() && op.removed
      ensures Snapshot() == TakeOut(old(Snapshot()), op.id)
      ensures kids == LeftBehind(old(items), old(kids), op.id)
    {
      EnvChain(op);
      if op.env != null {
        SubLoad(op);
        EnvChain(op);
        Unlink(op);
      } else {
        TakeOutOfNothing(Snapshot(), op.id);
        op.removed := true;
        forall i | 0 <= i < |cells| ensures Mirrors(i) {
          assert old(Mirrors(i));
        }
      }
    }

    /** What the object brings is taken off its holders. */
    method SubLoad(op: Obj)
      requires Shape() && Known(op) && op.id < |items| && Load(Snapshot(), op.id) >= 0
      modifies cells`carrying, this`books
      ensures Shape() && IsPath(items, items[op.id].path)
      ensures books == SubAlong(items, old(books), items[op.id].path, Load(old(Snapshot()), op.id))
    {
      EnvChain(op);
      if op.nrof > 0 {
        SubWeight(op.env, op.weight * op.nrof);
      } else {
        SubWeight(op.env, op.weight + op.carrying);
      }
    }

    /** No inventory list, nothing inside. */
    lemma EmptyIsNoList(h: nat)
      requires Shape() && h < |cells|
      ensures Empty(items, h) <==> cells[h].inv == null
    {
      assert ListIs(h, kids[h]);
      if kids[h] != [] {
        OnlyListed(h, 0);
        assert Inside(items, kids[h][0], h);
      } else {
        forall i | 0 <= i < |items| ensures !Inside(items, i, h) {
          forall j | 0 <= j < |items[i].path| ensures items[i].path[j] != h {
            var x := if j == 0 then i else items[i].path[j - 1];
            if j > 0 {
              assert Nested(items, i, j - 1);
            }
            assert items[x].path != [] && items[x].path[0] == items[i].path[j];
            assert Held(items, kids, x);
          }
        }
      }
    }

    /** object_can_merge, for objects that hold nothing. */
    method CanBeMerged(op: Obj, other: Obj) returns (b: bool)
      requires Shape() && Known(op) && Known(other)
      ensures b == (other != op && Empty(items, op.id) && Empty(items, other.id)
                    && CanMerge(items[op.id], items[other.id]))
    {
      assert Mirrors(op.id) && Mirrors(other.id);
      EmptyIsNoList(op.id);
      EmptyIsNoList(other.id);
      b := op != other && op.kind == other.kind && op.nrof + other.nrof < NROF_LIMIT
        && op.inv == null && other.inv == null && op.weight == other.weight && op.Keep() == other.Keep();
    }

    /** The object a search has found, or null. */
    ghost function Found(target: Option<nat>): Obj? {
      if target.Some? && target.value < |cells| then cells[target.value] else null
    }

    /** The search for a pile to merge with, from the j-th object of h's inventory on. */
    method FindTarget(op: Obj, first: Obj?, ghost h: nat, ghost j: nat) returns (r: Obj?)
      requires Shape() && Known(op) && h < |cells| && j <= |kids[h]| && InRange(kids[h])
      requires first == if j == |kids[h]| then null else cells[kids[h][j]]
      ensures r == Found(FirstTarget(items, kids[h], j, op.id))
    {
      var tmp := first;
      ghost var i := j;
      ghost var target := FirstTarget(items, kids[h], j, op.id);
      while tmp != null
        invariant j <= i <= |kids[h]|
        invariant tmp == if i == |kids[h]| then null else cells[kids[h][i]]
        invariant FirstTarget(items, kids[h], i, op.id) == target
        decreases |kids[h]| - i
      {
        SearchStep(op, h, i);
        var found := CanBeMerged(op, tmp);
        if found {
          return tmp;
        }
        tmp := tmp.below;
        i := i + 1;
      }
      r := null;
    }

    lemma SearchStep(op: Obj, h: nat, i: nat)
      requires Shape() && Known(op) && h < |cells| && i < |kids[h]| && InRange(kids[h])
      ensures Known(cells[kids[h][i]]) && cells[kids[h][i]].id == kids[h][i]
      ensures cells[kids[h][i]].below == if i + 1 == |kids[h]| then null else cells[kids[h][i + 1]]
      ensures FirstTarget(items, kids[h], i, op.id) ==
        if cells[kids[h][i]] != op && Empty(items, op.id) && Empty(items, kids[h][i])
           && CanMerge(items[op.id], items[kids[h][i]])
        then Some(kids[h][i]) else FirstTarget(items, kids[h], i + 1, op.id)
    {
      OnlyListed(h, i);
      NextBelow(h, i);
    }

    lemma NextBelow(h: nat, j: nat)
      requires Shape() && h < |kids| && j < |kids[h]| && InRange(kids[h])
      ensures cells[kids[h][j]].below == if j + 1 == |kids[h]| then null else cells[kids[h][j + 1]]
      ensures cells[kids[h][j]].above == if j == 0 then null else cells[kids[h][j - 1]]
    {
      assert ListIs(h, kids[h]) && LinkedAt(kids[h], j);
    }

    /** The step an insertion takes: a pile looks for one it can join. */
    ghost function InsertMove(op: Obj, where: Obj): Move
      requires |items| == |kids| && Known(op) && Known(where) && where.id < |kids| && op.id < |items|
      requires forall k :: 0 <= k < |kids[where.id]| ==> kids[where.id][k] < |items|
      reads this, op`nrof
    {
      Move.InsertInOb(op.id, where.id,
        if op.nrof > 0 then FirstTarget(items, kids[where.id], 0, op.id) else None)
    }

    /** object_insert_in_ob */
    method InsertInOb(op: Obj, where: Obj?) returns (r: Obj)
      requires Shape() && Known(op) && (where != null ==> Known(where) && InRange(kids[where.id]))
      requires op.removed && where != null ==> Possible(Snapshot(), InsertMove(op, where))
      modifies this`items, this`kids, this`books, cells`nrof, op`freed
      modifies cells`carrying, cells`env, cells`inv, cells`above, cells`below, op`removed
      ensures Shape()
      ensures !old(op.removed) || where == null ==>
        r == op && Snapshot() == old(Snapshot()) && kids == old(kids)
      ensures old(op.removed) && where != null ==>
        var target := if old(op.nrof) > 0 then FirstTarget(old(items), old(kids)[where.id], 0, op.id) else None;
        var m := Move.InsertInOb(op.id, where.id, target);
        && Snapshot() == Step(old(Snapshot()), m)
        && op.removed == target.Some?
        && (target.Some? ==> target.value < |cells| && r == cells[target.value] && kids == old(kids))
        && (target.None? ==> r == op && kids == old(kids)[where.id := [op.id] + old(kids)[where.id]])
        && (old(Valid()) ==> (Valid() <==> Legal(old(Snapshot()), m)))
    {
      if !op.removed || where == null {
        return op;
      }
      assert Mirrors(op.id);
      if IsExact(Snapshot()) {
        StepIsExactIff(Snapshot(), InsertMove(op, where));
      }
      r := InsertRemoved(op, where);
    }

    method InsertRemoved(op: Obj, where: Obj) returns (r: Obj)
      requires Shape() && Known(op) && Known(where) && InRange(kids[where.id]) && op.removed
      requires Possible(Snapshot(), InsertMove(op, where))
      modifies this`items, this`kids, this`books, cells`nrof, op`freed
      modifies cells`carrying, cells`env, cells`inv, cells`above, cells`below, op`removed
      ensures Shape()
      ensures var m := old(InsertMove(op, where));
        && Snapshot() == Step(old(Snapshot()), m)
        && op.removed == m.target.Some?
        && (m.target.Some? ==> m.target.value < |cells| && r == cells[m.target.value] && kids == old(kids))
        && (m.target.None? ==> r == op && kids == old(kids)[where.id := [op.id] + old(kids)[where.id]])
    {
      assert Mirrors(op.id);
      if op.nrof > 0 {
        var tmp := SearchInventory(op, where);
        if tmp != null {
          assert Mirrors(FirstTarget(items, kids[where.id], 0, op.id).value);
          JoinPile(op, tmp, where);
          return tmp;
        }
        InsertAlone(op, where);
      } else {
        InsertAlone(op, where);
      }
      return op;
    }

    method SearchInventory(op: Obj, where: Obj) returns (r: Obj?)
      requires Shape() && Known(op) && Known(where) && InRange(kids[where.id])
      ensures r == Found(FirstTarget(items, kids[where.id], 0, op.id))
    {
      assert ListIs(where.id, kids[where.id]);
      assert kids[where.id][0..] == kids[where.id];
      r := FindTarget(op, where.inv, where.id, 0);
    }

    /** The object found takes over op's count, and op is freed. */
    method JoinPile(op: Obj, into: Obj, where: Obj)
      requires Shape() && Known(op) && Known(into) && Known(where) && op.removed
      requires Possible(Snapshot(), Move.InsertInOb(op.id, where.id, Some(into.id)))
      modifies this`items, this`books, cells`nrof, op`freed, cells`carrying
      ensures Shape() && Snapshot() == Step(old(Snapshot()), Move.InsertInOb(op.id, where.id, Some(into.id)))
    {
      assert Mirrors(op.id) && Mirrors(into.id);
      RaiseCount(into, op.nrof);
      SetFreed(op);
    }

    /** Nothing to join. */
    method InsertAlone(op: Obj, where: Obj)
      requires Shape() && Known(op) && Known(where)
      requires Possible(Snapshot(), Move.InsertInOb(op.id, where.id, None))
      modifies this`items, this`kids, this`books
      modifies cells`carrying, cells`env, cells`inv, cells`above, cells`below, op`removed
      ensures Shape() && !op.removed
      ensures Snapshot() == Step(old(Snapshot()), Move.InsertInOb(op.id, where.id, None))
      ensures kids == old(kids)[where.id := [op.id] + old(kids)[where.id]]
    {
      EnvChain(op);
      if op.nrof > 0 {
        AddWeight(where, op.weight * op.nrof);
      } else {
        AddWeight(where, op.weight + op.carrying);
      }
      Link(op, where);
    }

    /** Where an object stands in its holder's inventory. */
    ghost function Place(o: Obj): (p: (nat, nat))
      requires Shape() && Known(o) && items[o.id].path != []
      reads this, cells
      ensures p.0 == items[o.id].path[0] < |cells| && InRange(kids[p.0])
      ensures p.1 < |kids[p.0]| && kids[p.0][p.1] == o.id
    {
      assert Held(items, kids, o.id) && Nested(items, o.id, 0);
      assert ListIs(items[o.id].path[0], kids[items[o.id].path[0]]);
      (items[o.id].path[0], Find(kids[items[o.id].path[0]], o.id))
    }

    /** object_merge, for a pile in an inventory: the first object from `top` downwards, or from the
        top of the inventory when none is given, that op can be merged with takes it over. */
    method ObjectMerge(op: Obj, top: Obj?) returns (r: Obj?)
      requires Shape() && Known(op) && !op.removed && op.env != null && items[op.id].path != []
      requires top != null ==> Known(top) && items[top.id].path != [] && Place(top).0 == Place(op).0
      requires op.nrof > 0 && MergeTarget(op, top).Some? ==>
        Possible(Snapshot(), Move.ObjectMerge(op.id, MergeTarget(op, top).value))
      modifies this`items, this`kids, this`books, cells`nrof, op`freed
      modifies cells`carrying, cells`env, cells`inv, cells`above, cells`below, op`removed
      ensures Shape()
      ensures
        match if old(op.nrof) == 0 then None
              else old(FirstTarget(items, kids[Place(op).0], if top == null then 0 else Place(top).1, op.id))
        case None => r == null && Snapshot() == old(Snapshot()) && kids == old(kids)
        case Some(into) =>
          && into < |cells| && r == cells[into]
          && Snapshot() == Step(old(Snapshot()), Move.ObjectMerge(op.id, into))
          && kids == LeftBehind(old(items), old(kids), op.id)
          && (old(Valid()) ==> (Valid() <==> Legal(old(Snapshot()), Move.ObjectMerge(op.id, into))))
    {
      if op.nrof == 0 {
        return null;
      }
      var first := top;
      ghost var h := Place(op).0;
      ghost var start := if top == null then 0 else Place(top).1;
      assert Mirrors(op.id);
      if first == null {
        first := TopOf(op);
      } else {
        assert Mirrors(top.id);
      }
      r := FindTarget(op, first, h, start);
      if r != null {
        assert Mirrors(FirstTarget(items, kids[h], start, op.id).value);
        MergeInto(op, r);
      }
    }

    /** What a merge finds from `top` downwards. */
    ghost function MergeTarget(op: Obj, top: Obj?): (r: Option<nat>)
      requires Shape() && Known(op) && items[op.id].path != []
      requires top != null ==> Known(top) && items[top.id].path != [] && Place(top).0 == Place(op).0
      reads this, cells
    {
      FirstTarget(items, kids[Place(op).0], if top == null then 0 else Place(top).1, op.id)
    }

    /** The climb to the top of an inventory. */
    method TopOf(op: Obj) returns (top: Obj)
      requires Shape() && Known(op) && items[op.id].path != []
      ensures var h := Place(op).0; top == cells[kids[h][0]]
    {
      ghost var h: nat := Place(op).0;
      ghost var j: nat := Place(op).1;
      top := op;
      assert Mirrors(op.id);
      NextBelow(h, j);
      while top.above != null
        invariant InRange(kids[h]) && j < |kids[h]| && top == cells[kids[h][j]]
        invariant top.above == if j == 0 then null else cells[kids[h][j - 1]]
        decreases j
      {
        top := top.above;
        j := j - 1;
        NextBelow(h, j);
      }
    }

    method MergeInto(op: Obj, into: Obj)
      requires Shape() && Known(op) && Known(into) && !op.removed
      requires Possible(Snapshot(), Move.ObjectMerge(op.id, into.id))
      modifies this`items, this`kids, this`books, cells`nrof, op`freed
      modifies cells`carrying, cells`env, cells`inv, cells`above, cells`below, op`removed
      ensures Shape() && Snapshot() == Step(old(Snapshot()), Move.ObjectMerge(op.id, into.id))
      ensures kids == LeftBehind(old(items), old(kids), op.id)
      ensures old(Valid()) ==> (Valid() <==> Legal(old(Snapshot()), Move.ObjectMerge(op.id, into.id)))
    {
      if IsExact(Snapshot()) {
        StepIsExactIff(Snapshot(), Move.ObjectMerge(op.id, into.id));
      }
      MergeSteps(op, into);
    }

    method MergeSteps(op: Obj, into: Obj)
      requires Shape() && Known(op) && Known(into) && !op.removed
      requires op.id < |items| && into.id < |items| && op.id != into.id && items[op.id].nrof > 0
      modifies this`items, this`kids, this`books, cells`nrof, op`freed
      modifies cells`carrying, cells`env, cells`inv, cells`above, cells`below, op`removed
      ensures Shape() && op.id < |old(items)| && Snapshot() == Merge(old(Snapshot()), op.id, into.id)
      ensures kids == LeftBehind(old(items), old(kids), op.id)
    {
      assert Mirrors(op.id) && Mirrors(into.id);
      ghost var s0, lists := Snapshot(), kids;
      ghost var s1 := Count(s0, into.id, into.nrof + op.nrof);
      MergeStages(s0, lists, op.id, into.id, s1);
      TakeOver(op, into, s1);
    }

    method TakeOver(op: Obj, into: Obj, ghost s1: Store)
      requires Shape() && Known(op) && Known(into) && op != into && !op.removed && into.id < |items|
      requires s1 == Count(Snapshot(), into.id, into.nrof + op.nrof) && op.id < |s1.items| && Load(s1, op.id) >= 0
      modifies this`items, this`kids, this`books, cells`nrof, op`freed
      modifies cells`carrying, cells`env, cells`inv, cells`above, cells`below, op`removed
      ensures Shape() && Snapshot() == Free(TakeOut(s1, op.id), op.id)
      ensures kids == LeftBehind(s1.items, old(kids), op.id)
    {
      RaiseCount(into, op.nrof);
      Discard(op);
    }

    /** Out of its holder and onto the free list. */
    method Discard(op: Obj)
      requires Shape() && Known(op) && !op.removed && op.id < |items| && Load(Snapshot(), op.id) >= 0
      modifies this`items, this`kids, this`books, op`freed
      modifies cells`carrying, cells`env, cells`inv, cells`above, cells`below, op`removed
      ensures Shape() && op.id < |old(items)|
      ensures Snapshot() == Free(TakeOut(old(Snapshot()), op.id), op.id)
      ensures kids == LeftBehind(old(items), old(kids), op.id)
    {
      Detach(op);
      SetFreed(op);
    }

    /** object_decrease_nrof: gives null when nothing is left. */
    method DecreaseNrof(op: Obj, i: nat) returns (r: Obj?)
      requires Shape() && Known(op) && Possible(Snapshot(), Move.DecreaseNrof(op.id, i))
      modifies this`items, this`kids, this`books, cells`nrof, op`freed
      modifies cells`carrying, cells`env, cells`inv, cells`above, cells`below, op`removed
      ensures Shape()
      ensures Snapshot() == Step(old(Snapshot()), Move.DecreaseNrof(op.id, i))
      ensures r == if i == 0 || i < old(op.nrof) then op else null
      ensures kids == if r == null then LeftBehind(old(items), old(kids), op.id) else old(kids)
      ensures old(Valid()) ==> Valid()
    {
      if IsExact(Snapshot()) {
        StepIsExactIff(Snapshot(), Move.DecreaseNrof(op.id, i));
      }
      if i == 0 {
        return op;
      }
      assert Mirrors(op.id);
      EnvChain(op);
      var n := if i > op.nrof then op.nrof else i;
      if n < op.nrof {
        LowerCount(op, n);
        return op;
      } else {
        UseUp(op, i);
        return null;
      }
    }

    /** Some are left. */
    method LowerCount(op: Obj, n: nat)
      requires Shape() && Known(op) && n < op.nrof
      modifies op`nrof, cells`carrying, this`items, this`books
      ensures Shape() && Snapshot() == Count(old(Snapshot()), op.id, old(op.nrof) - n)
    {
      assert Mirrors(op.id);
      EnvChain(op);
      if op.removed || op.env == null {
        CountAlone(op, op.nrof - n);
      } else {
        ChangeCount(op, op.nrof - n);
      }
    }

    /** Nothing left: the object goes. */
    method UseUp(op: Obj, ghost i: nat)
      requires Shape() && Known(op) && i > 0 && i >= op.nrof && op.id < |items| && Load(Snapshot(), op.id) >= 0
      modifies this`items, this`kids, this`books, cells`nrof, op`freed
      modifies cells`carrying, cells`env, cells`inv, cells`above, cells`below, op`removed
      ensures Shape() && op.id < |old(items)| && Snapshot() == Decrease(old(Snapshot()), op.id, i)
      ensures kids == LeftBehind(old(items), old(kids), op.id)
    {
      assert Mirrors(op.id);
      if op.removed {
        TakeOutOfNothing(Snapshot(), op.id);
      } else {
        Detach(op);
      }
      CountOutside(TakeOut(old(Snapshot()), op.id), op.id, 0);
      SetCount(op, 0);
      SetFreed(op);
    }

    /** object_split, with a cell from the free list: gives null when there are not enough. */
    method ObjectSplit(orig: Obj, nr: nat, newob: Obj) returns (r: Obj?)
      requires Shape() && Known(orig) && Known(newob)
      requires Possible(Snapshot(), Move.ObjectSplit(orig.id, nr, newob.id))
      modifies this`items, this`kids, this`books, cells`nrof, orig`freed, newob
      modifies cells`carrying, cells`env, cells`inv, cells`above, cells`below, orig`removed
      ensures Shape()
      ensures Snapshot() == Step(old(Snapshot()), Move.ObjectSplit(orig.id, nr, newob.id))
      ensures r == if nr <= (if old(orig.nrof) == 0 then 1 else old(orig.nrof)) then newob else null
      ensures r != null ==>
        && newob.weight == old(orig.weight) && newob.Keep() == old(orig.Keep()) && newob.kind == old(orig.kind)
        && newob.nrof == (if old(orig.nrof) == 0 then 0 else nr) && newob.carrying == 0 && newob.env == null
      ensures kids == if r == null || nr < old(orig.nrof) || (nr == 0 < old(orig.nrof)) then old(kids)
                      else LeftBehind(old(items), old(kids), orig.id)
      ensures old(Valid()) ==> Valid()
    {
      assert Mirrors(orig.id);
      if IsExact(Snapshot()) {
        StepIsExactIff(Snapshot(), Move.ObjectSplit(orig.id, nr, newob.id));
      }
      r := SplitOff(orig, nr, newob);
      if r != null {
        SplitMakes(old(Snapshot()), orig.id, nr, newob.id);
        assert Mirrors(newob.id);
      }
    }

    method SplitOff(orig: Obj, nr: nat, newob: Obj) returns (r: Obj?)
      requires Shape() && Known(orig) && Known(newob)
      requires Possible(Snapshot(), Move.ObjectSplit(orig.id, nr, newob.id))
      modifies this`items, this`kids, this`books, cells`nrof, orig`freed, newob
      modifies cells`carrying, cells`env, cells`inv, cells`above, cells`below, orig`removed
      ensures Shape() && Known(newob)
      ensures Snapshot() == Step(old(Snapshot()), Move.ObjectSplit(orig.id, nr, newob.id))
      ensures r == if nr <= (if old(orig.nrof) == 0 then 1 else old(orig.nrof)) then newob else null
      ensures kids == if r == null || nr < old(orig.nrof) || (nr == 0 < old(orig.nrof)) then old(kids)
                      else LeftBehind(old(items), old(kids), orig.id)
    {
      assert Mirrors(orig.id);
      if (if orig.nrof >= 1 then orig.nrof else 1) < nr {
        return null;
      }
      if orig.nrof == 0 {
        MoveLone(orig, newob);
      } else {
        TakeSome(orig, nr, newob);
      }
      return newob;
    }

    /** A lone object is replaced by its copy. */
    method MoveLone(orig: Obj, newob: Obj)
      requires Shape() && Known(orig) && Known(newob) && orig != newob && orig.id < |items|
      requires Blank(items, newob.id) && Load(Snapshot(), orig.id) >= 0
      modifies this`items, this`kids, this`books, orig`freed, newob
      modifies cells`carrying, cells`env, cells`inv, cells`above, cells`below, orig`removed
      ensures Shape() && Known(orig) && orig.id < |old(items)|
      ensures Snapshot() == Free(TakeOut(Clone(old(Snapshot()), orig.id, 0, newob.id), orig.id), orig.id)
      ensures kids == LeftBehind(old(items), old(kids), orig.id)
    {
      CloneInto(orig, newob, 0);
      assert Mirrors(orig.id);
      if !orig.removed {
        Discard(orig);
      } else {
        TakeOutOfNothing(Snapshot(), orig.id);
        SetFreed(orig);
      }
    }

    /** Some of a pile go to the copy. */
    method TakeSome(orig: Obj, nr: nat, newob: Obj)
      requires Shape() && Known(orig) && Known(newob) && orig != newob && orig.id < |items|
      requires Blank(items, newob.id) && Empty(items, orig.id) && items[orig.id].live
      requires 0 < orig.nrof == items[orig.id].nrof
      modifies this`items, this`kids, this`books, cells`nrof, orig`freed, newob
      modifies cells`carrying, cells`env, cells`inv, cells`above, cells`below, orig`removed
      ensures Shape() && Known(orig) && orig.id < |old(items)|
      ensures Snapshot() == Decrease(Clone(old(Snapshot()), orig.id, nr, newob.id), orig.id, nr)
      ensures kids == if nr == 0 || nr < old(orig.nrof) then old(kids) else LeftBehind(old(items), old(kids), orig.id)
    {
      EmptyAfterClone(Snapshot(), orig.id, nr, newob.id);
      CloneInto(orig, newob, nr);
      assert Mirrors(orig.id);
      var left := DecreaseNrof(orig, nr);
    }

    /** object_create_clone, for an object that holds nothing, and the count of the copy. */
    method CloneInto(orig: Obj, newob: Obj, n: nat)
      requires Shape() && Known(orig) && Known(newob) && orig != newob && Blank(items, newob.id) && orig.id < |items|
      modifies newob`isContainer, newob`str, newob`weight, newob`nrof, newob`carrying, newob`kind
      modifies newob`freed, newob`removed
      modifies this`items, this`books
      ensures Shape() && Snapshot() == Clone(old(Snapshot()), orig.id, n, newob.id)
      ensures newob.removed
    {
      assert Mirrors(orig.id) && Mirrors(newob.id);
      CloneShape(items, orig.id, n, newob.id);
      SameGroups(items, Clone(Snapshot(), orig.id, n, newob.id).items, kids);
      CopyFields(orig, newob);
      Revive(newob, n);
      assert items == Clone(old(Snapshot()), orig.id, n, newob.id).items;
    }

    method CopyFields(orig: Obj, newob: Obj)
      requires |cells| == |items| == |books| && MirrorsAll() && Known(orig) && Known(newob)
      modifies newob`isContainer, newob`str, newob`weight, newob`carrying, newob`kind, this`items, this`books
      ensures |cells| == |items| == |books| && MirrorsAll()
      ensures var o := old(items)[orig.id];
        items == old(items)[newob.id := old(items)[newob.id].(weight := o.weight, keep := o.keep, kind := o.kind)]
      ensures books == old(books)[newob.id := 0]
    {
      assert Mirrors(orig.id) && Mirrors(newob.id);
      newob.isContainer, newob.str := orig.isContainer, orig.str;
      newob.weight, newob.carrying, newob.kind := orig.weight, 0, orig.kind;
      ghost var o := items[orig.id];
      items := items[newob.id := items[newob.id].(weight := o.weight, keep := o.keep, kind := o.kind)];
      books := books[newob.id := 0];
      forall i | 0 <= i < |cells| ensures Mirrors(i) {
        assert old(Mirrors(i));
      }
    }

    method Revive(newob: Obj, n: nat)
      requires |cells| == |items| == |books| && MirrorsAll() && Known(newob) && items[newob.id].path == []
      modifies newob`nrof, newob`freed, newob`removed, this`items
      ensures |cells| == |items| && MirrorsAll() && newob.removed
      ensures items == old(items)[newob.id := old(items)[newob.id].(nrof := n, live := true)]
    {
      newob.nrof, newob.freed, newob.removed := n, false, true;
      items := items[newob.id := items[newob.id].(nrof := n, live := true)];
      forall i | 0 <= i < |cells| ensures Mirrors(i) {
        assert old(Mirrors(i));
      }
    }

    // -------------------------------------------------------------------------------------
    // Recomputing
    // -------------------------------------------------------------------------------------

    /** object_sum_weight */
    method SumWeight(op: Obj)
      requires Shape() && Known(op) && NonNegative(books)
      modifies cells`carrying, this`books
      ensures Shape() && books == WeightDrift.SumWeight(items, old(books), op.id)
      decreases WeightDrift.Depth(items) - |items[op.id].path|, 0
    {
      var sum := 0;
      var tmp := op.inv;
      ghost var h, c, t, ks := op.id, books, items, kids[op.id];
      ghost var j := 0;
      ghost var terms: seq<int> := [];
      Inventory(h);
      while tmp != null
        invariant Shape() && h < |cells| && items == t && kids[h] == ks && j <= |ks| && InRange(ks)
        invariant tmp == if j == |ks| then null else cells[ks[j]]
        invariant AllIn(t, ks, h) && books == WeightDrift.SumEach(t, c, ks[..j])
        invariant sum == Sum(terms) && TermsAre(terms, t, c, h, ks, j)
        decreases |ks| - j
      {
        WeightDrift.ChildIsDeeper(t, ks[j], h);
        var term := AddChild(tmp, c, h, j);
        OneMoreTerm(terms, term, t, c, h, ks, j);
        terms := terms + [term];
        sum := sum + term;
        tmp := tmp.below;
        j := j + 1;
      }
      FinishSum(op, sum, c, terms, j);
    }

    static ghost predicate AllIn(t: seq<Item>, ks: seq<nat>, h: nat) {
      var ok := forall k :: 0 <= k < |ks| ==> ks[k] < |t| && WeightDrift.Child(t, ks[k], h);
      ok
    }

    /** The terms added so far are what the first j objects put in. */
    static ghost predicate TermsAre(terms: seq<int>, t: seq<Item>, c: seq<int>, h: nat, ks: seq<nat>, j: nat) {
      var ok :=
        && |terms| == j <= |ks| && WellFormed(t) && |c| == |t| && h < |t| && (forall k :: 0 <= k < |ks| ==> ks[k] < |t|)
        && NonNegative(c)
        && forall k :: 0 <= k < j ==> terms[k] == WeightDrift.GrossRow(t, c, h)[ks[k]];
      ok
    }

    static lemma OneMoreTerm(terms: seq<int>, term: int, t: seq<Item>, c: seq<int>, h: nat, ks: seq<nat>, j: nat)
      requires TermsAre(terms, t, c, h, ks, j) && j < |ks| && term == WeightDrift.GrossRow(t, c, h)[ks[j]]
      ensures TermsAre(terms + [term], t, c, h, ks, j + 1) && Sum(terms + [term]) == Sum(terms) + term
    {
      SumAppend(terms, term);
    }

    method FinishSum(op: Obj, sum: int, ghost c: seq<int>, ghost terms: seq<int>, ghost j: nat)
      requires Shape() && Known(op) && |c| == |items| && NonNegative(c) && InRange(kids[op.id])
      requires j == |kids[op.id]| && books == WeightDrift.SumEach(items, c, kids[op.id][..j])
      requires sum == Sum(terms) && |terms| == |kids[op.id]|
      requires forall k :: 0 <= k < |terms| ==> terms[k] == WeightDrift.GrossRow(items, c, op.id)[kids[op.id][k]]
      modifies cells`carrying, this`books
      ensures Shape() && books == WeightDrift.SumWeight(items, c, op.id)
    {
      assert kids[op.id][..j] == kids[op.id];
      Inventory(op.id);
      WeightDrift.SumWeightIsLoop(items, c, op.id, kids[op.id], terms);
      StoreSum(op, sum);
    }

    /** The assignment to op's own `carrying`. */
    method StoreSum(op: Obj, total: nat)
      requires Shape() && Known(op)
      modifies cells`carrying, this`books
      ensures Shape() && books == old(books)[op.id := Reduce(total, items[op.id].keep)]
    {
      assert Mirrors(op.id);
      var sum := total;
      if op.isContainer && op.str != 0 {
        sum := sum * (100 - op.str) / 100;
      }
      Book(op, sum);
    }

    /** One round of the loop: the object is recomputed if it holds something, and its part of
        the sum is returned. */
    method AddChild(tmp: Obj, ghost c: seq<int>, ghost h: nat, ghost j: nat) returns (term: int)
      requires Shape() && h < |cells| && j < |kids[h]| && InRange(kids[h]) && tmp == cells[kids[h][j]]
      requires |c| == |items| && NonNegative(c)
      requires books == WeightDrift.SumEach(items, c, kids[h][..j])
      modifies cells`carrying, this`books
      ensures Shape() && books == WeightDrift.SumEach(items, c, kids[h][..j + 1])
      ensures term == WeightDrift.GrossRow(items, c, h)[kids[h][j]]
      ensures tmp.below == if j + 1 == |kids[h]| then null else cells[kids[h][j + 1]]
      decreases WeightDrift.Depth(items) - |items[kids[h][j]].path|, 1
    {
      ghost var ks := kids[h];
      OnlyListed(h, j);
      Inventory(h);
      ListIffInventory(ks[j]);
      assert ks[..j + 1][..j] == ks[..j];
      if tmp.inv != null {
        SumWeight(tmp);
      }
      NextBelow(h, j);
      NextTerm(c, h, ks, j);
      assert Mirrors(ks[j]);
      term := tmp.carrying + tmp.weight * (if tmp.nrof == 0 then 1 else tmp.nrof);
    }

    /** h's inventory is exactly the objects directly in it. */
    lemma Inventory(h: nat)
      requires Shape() && h < |cells|
      ensures InRange(kids[h]) && NoTwice(kids[h])
      ensures forall k :: 0 <= k < |kids[h]| ==> kids[h][k] < |items| && WeightDrift.Child(items, kids[h][k], h)
      ensures forall i :: 0 <= i < |items| && WeightDrift.Child(items, i, h) ==> i in kids[h]
      ensures cells[h].inv == if kids[h] == [] then null else cells[kids[h][0]]
    {
      assert ListIs(h, kids[h]);
      forall k | 0 <= k < |kids[h]| ensures kids[h][k] < |items| && WeightDrift.Child(items, kids[h][k], h) {
        assert Holds(items, kids, h, k);
      }
      forall i | 0 <= i < |items| && WeightDrift.Child(items, i, h) ensures i in kids[h] {
        assert Held(items, kids, i);
      }
    }

    lemma ListIffInventory(h: nat)
      requires Shape() && h < |cells|
      ensures cells[h].inv != null <==> WeightDrift.HasInventory(items, h)
    {
      Inventory(h);
      if kids[h] != [] {
        assert WeightDrift.Child(items, kids[h][0], h);
      }
    }

    /** What the j-th object puts in, once it has been recomputed if it holds something. */
    lemma NextTerm(c: seq<int>, h: nat, ks: seq<nat>, j: nat)
      requires Shape() && |c| == |items| && NonNegative(c) && h < |items|
      requires j < |ks| && InRange(ks) && NoTwice(ks)
      requires forall k :: 0 <= k < |ks| ==> WeightDrift.Child(items, ks[k], h)
      requires books == WeightDrift.SumEach(items, c, ks[..j + 1])
      ensures books[ks[j]] + items[ks[j]].Own() == WeightDrift.GrossRow(items, c, h)[ks[j]]
    {
      WeightDrift.SumEachIs(items, c, ks[..j + 1], ks[j]);
      assert WeightDrift.Within(items, ks[j], ks[..j + 1][j]);
      WeightDrift.GrossOf(items, c, h, ks[j]);
    }
  }
}
