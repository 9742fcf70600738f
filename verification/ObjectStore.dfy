/** The object store of common/object.cpp: recycled cells threaded through a free list and a used
    list (sharing `next` and `prev`), an active list, a map from tags to objects, and owner
    pointers guarded by tags. */
module ObjectStore {
  import opened Common

  /** How many cells there are at first, and how many are added at a time. */
  const STARTMAX: nat := 500
  const OBJ_EXPAND: nat := 100

  const MIN_ACTIVE_SPEED: real := 0.00001

  class Cell {
    var next: Cell?
    var prev: Cell?
    var activeNext: Cell?
    var activePrev: Cell?
    var freed: bool
    var removed: bool
    var count: nat
    var speed: real
    var owner: Cell?
    var ownerCount: nat
    /** Decreases along owner links. */
    ghost var rank: nat

    /** Zeroed memory. */
    constructor ()
      ensures next == null && prev == null && activeNext == null && activePrev == null
      ensures !freed && !removed && count == 0 && speed == 0.0 && owner == null && ownerCount == 0
    {
      next, prev, activeNext, activePrev := null, null, null, null;
      freed, removed, count, speed, owner, ownerCount := false, false, 0, 0.0, null, 0;
    }
  }

  lemma ApartFrom<T>(s: seq<T>, k: nat)
    requires NoTwice(s) && k < |s|
    ensures forall j :: 0 <= j < |s| && j != k ==> s[j] != s[k]
  {
    forall j | 0 <= j < |s| && j != k ensures s[j] != s[k] {
      assert if j < k then Apart(s, j, k) else Apart(s, k, j);
    }
  }

  lemma NoTwiceCons<T>(x: T, s: seq<T>)
    requires NoTwice(s) && x !in s
    ensures NoTwice([x] + s)
  {
    forall j, k | 0 <= j < k < |s| + 1 ensures Apart([x] + s, j, k) {
      assert j > 0 ==> Apart(s, j - 1, k - 1);
    }
  }

  lemma NoTwiceTail<T>(s: seq<T>)
    requires NoTwice(s) && s != []
    ensures NoTwice(s[1..]) && s[0] !in s[1..]
  {
    ApartFrom(s, 0);
    forall j, k | 0 <= j < k < |s| - 1 ensures Apart(s[1..], j, k) {
      assert Apart(s, j + 1, k + 1);
    }
  }

  lemma NoTwiceWithout<T>(s: seq<T>, x: nat)
    requires NoTwice(s) && x < |s|
    ensures NoTwice(Without(s, x)) && s[x] !in Without(s, x)
  {
    ApartFrom(s, x);
    forall j, k | 0 <= j < k < |s| - 1 ensures Apart(Without(s, x), j, k) {
      assert Apart(s, if j < x then j else j + 1, if k < x then k else k + 1);
    }
  }

  /** The j-th cell is linked to its neighbours by next and prev. */
  ghost predicate LinkedAt(ks: seq<Cell>, j: nat)
    requires j < |ks|
    reads ks`next, ks`prev
  {
    && ks[j].next == (if j + 1 == |ks| then null else ks[j + 1])
    && ks[j].prev == (if j == 0 then null else ks[j - 1])
  }

  ghost predicate ListIs(ks: seq<Cell>, head: Cell?)
    reads ks`next, ks`prev
  {
    && head == (if ks == [] then null else ks[0])
    && NoTwice(ks)
    && (forall j :: 0 <= j < |ks| ==> LinkedAt(ks, j))
  }

  /** The same through activeNext and activePrev. */
  ghost predicate ActiveAt(ks: seq<Cell>, j: nat)
    requires j < |ks|
    reads ks`activeNext, ks`activePrev
  {
    && ks[j].activeNext == (if j + 1 == |ks| then null else ks[j + 1])
    && ks[j].activePrev == (if j == 0 then null else ks[j - 1])
  }

  ghost predicate ActiveIs(ks: seq<Cell>, head: Cell?)
    reads ks`activeNext, ks`activePrev
  {
    && head == (if ks == [] then null else ks[0])
    && NoTwice(ks)
    && (forall j :: 0 <= j < |ks| ==> ActiveAt(ks, j))
  }

  predicate Fast(speed: real) {
    speed > MIN_ACTIVE_SPEED || speed < -MIN_ACTIVE_SPEED
  }

  /** The active list once op's speed has been looked at. */
  ghost function SpeedList(active: seq<Cell>, op: Cell, fast: bool): seq<Cell> {
    if fast then (if op in active then active else [op] + active)
    else if op in active then Without(active, Find(active, op)) else active
  }

  class Store {
    var objects: Cell?
    var freeObjects: Cell?
    var activeObjects: Cell?
    var nrofAlloc: nat
    var nrofFree: nat
    var obCount: nat
    var objectMap: map<nat, Cell>

    ghost var used: seq<Cell>
    ghost var free: seq<Cell>
    ghost var active: seq<Cell>
    /** All memory ever allocated. */
    ghost var cells: set<Cell>
    /** Every tag ever given out, and the cell it was given to. */
    ghost var born: map<nat, Cell>

    /** The two lists share the memory out between them. */
    ghost predicate Lists()
      reads this`free, this`used, this`cells, this`freeObjects, this`objects, this`nrofFree, this`nrofAlloc
      reads cells`next, cells`prev
    {
      var ok :=
      && (forall c :: c in free ==> c in cells) && (forall c :: c in used ==> c in cells)
      && ListIs(free, freeObjects) && ListIs(used, objects)
      && (forall c :: c in cells ==> (c in free <==> c !in used))
      && nrofFree == |free| && nrofAlloc == |free| + |used|;
      ok
    }

    /** The flag says which list a cell is on. */
    ghost predicate Flags()
      reads this`free, this`cells, cells`freed
    {
      forall c :: c in cells ==> (c.freed <==> c in free)
    }

    ghost predicate Active()
      reads this`active, this`cells, this`activeObjects, cells`activeNext, cells`activePrev
    {
      var ok :=
      && (forall c :: c in active ==> c in cells)
      && ActiveIs(active, activeObjects)
      && (forall c :: c in cells && c !in active ==> c.activeNext == null && c.activePrev == null);
      ok
    }

    /** Only used objects are active. */
    ghost predicate ActiveUsed()
      reads this`active, this`cells, cells`freed
    {
      forall c :: c in active && c in cells ==> !c.freed
    }

    /** The tag map is exactly the used objects by their counts; every tag it holds was given out. */
    ghost predicate Tags()
      reads this`cells, this`objectMap, this`obCount, this`born, cells`freed, cells`count
    {
      var ok :=
      && (forall t :: t in born <==> 0 < t <= obCount)
      && (forall t :: t in objectMap ==>
            && t in born && born[t] == objectMap[t]
            && objectMap[t] in cells && objectMap[t].count == t && !objectMap[t].freed)
      && (forall c :: c in cells ==>
            if c.freed then c.count == 0 else c.count in objectMap && objectMap[c.count] == c);
      ok
    }

    /** c's owner pointer still refers to the incarnation it was set to. */
    ghost predicate Linked(c: Cell)
      requires c in cells && (c.owner != null ==> c.owner in cells)
      reads this`cells, cells`owner, cells`ownerCount, cells`count
    {
      c.owner != null && c.ownerCount > 0 && c.owner.count == c.ownerCount
    }

    ghost predicate OwnerOk(c: Cell)
      requires c in cells
      reads this`cells, this`born, cells`rank, cells`owner, cells`ownerCount, cells`count
    {
      && (c.owner != null ==> c.owner in cells)
      && (c.owner != null && c.ownerCount > 0 ==> c.ownerCount in born && born[c.ownerCount] == c.owner)
      && (Linked(c) ==> c.rank > c.owner.rank)
    }

    /** The owner relation has no cycles, links to removed objects included. */
    ghost predicate Owners()
      reads this`cells, this`born, cells`rank, cells`owner, cells`ownerCount, cells`count
    {
      var ok :=
      forall c :: c in cells ==> OwnerOk(c);
      ok
    }

    ghost predicate Valid()
      reads this, cells
    {
      var ok := Lists() && Flags() && Active() && ActiveUsed() && Tags() && Owners();
      ok
    }

    /** The tags as a value. */
    ghost function TagView(): TagState<Cell>
      reads this`obCount, this`objectMap
    {
      TagState(obCount, objectMap)
    }

    // -------------------------------------------------------------------------------------
    // The active list
    // -------------------------------------------------------------------------------------

    lemma OnActiveList(op: Cell)
      requires op in cells && Active()
      ensures op in active <==> op.activeNext != null || op.activePrev != null || op == activeObjects
    {
      if op in active {
        var j := Find(active, op);
        assert ActiveAt(active, j);
      }
    }

    /** object_update_speed: afterwards the object is on the active list exactly when it is fast
        enough and not freed. */
    method UpdateSpeed(op: Cell)
      requires Active() && ActiveUsed() && op in cells
      modifies cells`activeNext, cells`activePrev, op`speed, this`activeObjects, this`active
      ensures Active() && ActiveUsed()
      ensures op.speed == if op.freed then 0.0 else old(op.speed)
      ensures op in active <==> op.speed > MIN_ACTIVE_SPEED || op.speed < -MIN_ACTIVE_SPEED
      ensures op in active ==> active == if op in old(active) then old(active) else [op] + old(active)
      ensures op !in active && op !in old(active) ==> active == old(active)
      ensures active == SpeedList(old(active), op, Fast(op.speed))
    {
      if op.freed && op.speed != 0.0 {
        op.speed := 0.0;
      }
      if (if op.speed < 0.0 then -op.speed else op.speed) > MIN_ACTIVE_SPEED {
        OnActiveList(op);
        if op.activeNext != null || op.activePrev != null || op == activeObjects {
          return;
        }
        PushActive(op);
      } else {
        RemoveFromActiveList(op);
      }
    }

    method PushActive(op: Cell)
      requires Active() && op in cells && op !in active
      modifies cells`activeNext, cells`activePrev, this`activeObjects, this`active
      ensures Active() && active == [op] + old(active)
    {
      NoTwiceCons(op, active);
      if active != [] {
        ApartFrom(active, 0);
      }
      op.activeNext := activeObjects;
      if op.activeNext != null {
        op.activeNext.activePrev := op;
      }
      activeObjects := op;
      active := [op] + active;
      forall j | 0 <= j < |active| ensures ActiveAt(active, j) {
        if j > 0 {
          assert old(ActiveAt(active, j - 1));
        }
      }
    }

    /** object_remove_from_active_list */
    method RemoveFromActiveList(op: Cell)
      requires Active() && op in cells
      modifies cells`activeNext, cells`activePrev, this`activeObjects, this`active
      ensures Active() && op !in active
      ensures active == if op in old(active) then Without(old(active), Find(old(active), op)) else old(active)
    {
      OnActiveList(op);
      if op.activeNext == null && op.activePrev == null && op != activeObjects {
        return;
      }
      ghost var k := Find(active, op);
      UnlinkActive(op, k);
    }

    method UnlinkActive(op: Cell, ghost k: nat)
      requires Active() && op in cells && k < |active| && active[k] == op
      modifies cells`activeNext, cells`activePrev, this`activeObjects, this`active
      ensures Active() && op !in active && active == Without(old(active), k)
    {
      NoTwiceWithout(active, k);
      ApartFrom(active, k);
      if k > 0 {
        ApartFrom(active, k - 1);
      }
      if k + 1 < |active| {
        ApartFrom(active, k + 1);
      }
      assert ActiveAt(active, k);
      assert k > 0 ==> active[k - 1] in active;
      assert k + 1 < |active| ==> active[k + 1] in active;
      if op.activePrev == null {
        activeObjects := op.activeNext;
        if op.activeNext != null {
          op.activeNext.activePrev := null;
        }
      } else {
        op.activePrev.activeNext := op.activeNext;
        if op.activeNext != null {
          op.activeNext.activePrev := op.activePrev;
        }
      }
      op.activeNext := null;
      op.activePrev := null;
      active := Without(active, k);
      forall j | 0 <= j < |active| ensures ActiveAt(active, j) {
        assert old(ActiveAt(active, if j < k then j else j + 1));
      }
    }

    // -------------------------------------------------------------------------------------
    // Allocation
    // -------------------------------------------------------------------------------------

    /** The first free cell moves to the front of the used list. */
    method TakeCell() returns (op: Cell)
      requires Lists() && free != []
      modifies cells`next, cells`prev
      modifies this`freeObjects, this`objects, this`nrofFree, this`free, this`used
      ensures Lists() && op == old(free)[0]
      ensures free == old(free)[1..] && used == [op] + old(used)
      ensures nrofAlloc == old(nrofAlloc)
    {
      op := PopFree();
      PushUsed(op);
      assert forall c :: c in old(free) <==> c == op || c in free;
    }

    method PopFree() returns (op: Cell)
      requires Lists() && free != []
      modifies cells`prev, this`freeObjects, this`nrofFree, this`free
      ensures ListIs(free, freeObjects) && ListIs(used, objects)
      ensures op == old(free)[0] && free == old(free)[1..] && nrofFree == old(nrofFree) - 1
      ensures op !in free && op !in used
    {
      assert free[0] in free;
      op := freeObjects;
      NoTwiceTail(free);
      assert LinkedAt(free, 0);
      if |free| > 1 {
        ApartFrom(free, 1);
        assert free[1] in free;
      }
      freeObjects := op.next;
      if freeObjects != null {
        freeObjects.prev := null;
      }
      nrofFree := nrofFree - 1;
      free := free[1..];
      forall j | 0 <= j < |free| ensures LinkedAt(free, j) {
        assert old(LinkedAt(free, j + 1));
      }
      forall j | 0 <= j < |used| ensures LinkedAt(used, j) {
        assert old(LinkedAt(used, j)) && used[j] in used;
      }
    }

    method PushUsed(op: Cell)
      requires (forall c :: c in free ==> c in cells) && (forall c :: c in used ==> c in cells)
      requires ListIs(free, freeObjects) && ListIs(used, objects)
      requires op in cells && op !in free && op !in used
      requires forall c :: c in free ==> c !in used
      modifies cells`next, cells`prev, this`objects, this`used
      ensures ListIs(free, freeObjects) && ListIs(used, objects)
      ensures used == [op] + old(used)
    {
      NoTwiceCons(op, used);
      if used != [] {
        ApartFrom(used, 0);
        assert used[0] in used;
      }
      op.next := objects;
      op.prev := null;
      if objects != null {
        objects.prev := op;
      }
      objects := op;
      used := [op] + used;
      forall j | 0 <= j < |used| ensures LinkedAt(used, j) {
        if j > 0 {
          assert old(LinkedAt(used, j - 1));
        }
      }
      forall j | 0 <= j < |free| ensures LinkedAt(free, j) {
        assert old(LinkedAt(free, j)) && free[j] in free;
      }
    }

    /** A used cell goes to the front of the free list. */
    method ReturnCell(op: Cell)
      requires Lists() && op in used
      modifies cells`next, cells`prev
      modifies this`freeObjects, this`objects, this`nrofFree, this`free, this`used
      ensures Lists() && op in old(used)
      ensures used == Without(old(used), Find(old(used), op)) && free == [op] + old(free)
      ensures nrofAlloc == old(nrofAlloc)
    {
      ghost var k := Find(used, op);
      UnlinkUsed(op, k);
      PushFree(op);
      forall c | c in cells ensures c in free <==> c !in used {
        if c in old(used) {
          var j := Find(old(used), c);
          assert c != op ==> used[if j < k then j else j - 1] == c;
        }
      }
    }

    method UnlinkUsed(op: Cell, ghost k: nat)
      requires Lists() && k < |used| && used[k] == op
      modifies cells`next, cells`prev, this`objects, this`used
      ensures ListIs(free, freeObjects) && ListIs(used, objects)
      ensures used == Without(old(used), k) && op !in used
    {
      NoTwiceWithout(used, k);
      ApartFrom(used, k);
      if k > 0 {
        ApartFrom(used, k - 1);
      }
      if k + 1 < |used| {
        ApartFrom(used, k + 1);
      }
      assert LinkedAt(used, k);
      assert k > 0 ==> used[k - 1] in used;
      assert k + 1 < |used| ==> used[k + 1] in used;
      if op.prev == null {
        objects := op.next;
        if objects != null {
          objects.prev := null;
        }
      } else {
        op.prev.next := op.next;
        if op.next != null {
          op.next.prev := op.prev;
        }
      }
      used := Without(used, k);
      forall j | 0 <= j < |used| ensures LinkedAt(used, j) {
        assert old(LinkedAt(used, if j < k then j else j + 1));
      }
      forall j | 0 <= j < |free| ensures LinkedAt(free, j) {
        assert old(LinkedAt(free, j));
        assert free[j] in free;
      }
    }

    method PushFree(op: Cell)
      requires (forall c :: c in free ==> c in cells) && (forall c :: c in used ==> c in cells)
      requires ListIs(free, freeObjects) && ListIs(used, objects)
      requires op in cells && op !in free && op !in used
      requires forall c :: c in free ==> c !in used
      modifies cells`next, cells`prev, this`freeObjects, this`nrofFree, this`free
      ensures ListIs(free, freeObjects) && ListIs(used, objects)
      ensures free == [op] + old(free) && nrofFree == old(nrofFree) + 1
    {
      NoTwiceCons(op, free);
      if free != [] {
        ApartFrom(free, 0);
      }
      op.prev := null;
      op.next := freeObjects;
      if freeObjects != null {
        assert freeObjects in free;
        freeObjects.prev := op;
      }
      freeObjects := op;
      nrofFree := nrofFree + 1;
      free := [op] + free;
      forall j | 0 <= j < |free| ensures LinkedAt(free, j) {
        if j > 0 {
          assert old(LinkedAt(free, j - 1));
        }
      }
      forall j | 0 <= j < |used| ensures LinkedAt(used, j) {
        assert old(LinkedAt(used, j));
        assert used[j] in used;
      }
    }

    /** expand_objects */
    method Expand()
      requires Valid() && free == []
      modifies this`freeObjects, this`nrofAlloc, this`nrofFree, this`free, this`cells
      ensures Valid() && |free| == OBJ_EXPAND && nrofAlloc == old(nrofAlloc) + OBJ_EXPAND
      ensures (forall c :: c in free ==> fresh(c)) && fresh(cells - old(cells))
    {
      var add := MakeChain(OBJ_EXPAND);
      assert AllUsed();
      Enlarge(add);
      ChainBecomesFree(add);
    }

    /** Every cell is in use. */
    ghost predicate AllUsed()
      reads this`used, this`cells, cells`freed
    {
      (forall c :: c in used ==> c in cells) && (forall c :: c in cells ==> c in used && !c.freed)
    }

    /** Every cell but those of a new block is in use. */
    ghost predicate AllUsedBut(add: seq<Cell>)
      reads this`used, this`cells, cells`freed
    {
      && (forall c :: c in cells ==> (c in used <==> c !in add) && (c.freed <==> c in add))
      && (forall c :: c in used ==> c in cells) && (forall c :: c in add ==> c in cells)
    }

    method ChainBecomesFree(add: seq<Cell>)
      requires |add| == OBJ_EXPAND && ListIs(add, add[0]) && ListIs(used, objects)
      requires nrofFree == 0 && nrofAlloc == |used|
      requires AllUsedBut(add)
      modifies this`freeObjects, this`nrofAlloc, this`nrofFree, this`free
      ensures Lists() && Flags() && free == add && nrofAlloc == old(nrofAlloc) + OBJ_EXPAND
    {
      freeObjects := add[0];
      nrofAlloc := nrofAlloc + OBJ_EXPAND;
      nrofFree := nrofFree + OBJ_EXPAND;
      free := add;
    }

    /** Blank memory changes nothing about the objects there are. */
    ghost method Enlarge(add: seq<Cell>)
      requires Active() && ActiveUsed() && Tags() && Owners() && AllUsed()
      requires forall c :: c in add ==> c !in cells && Blank(c) && c.freed
      modifies this`cells
      ensures Active() && ActiveUsed() && Tags() && Owners() && AllUsedBut(add)
      ensures forall c :: c in cells && c !in old(cells) ==> c in add
    {
      cells := cells + set c | c in add;
      assert forall c :: c in add ==> c in cells && c !in active;
      forall c | c in cells ensures OwnerOk(c) {
        if c !in add {
          assert old(OwnerOk(c));
        }
      }
    }

    /** A block of zeroed cells, linked and flagged as free: what init_objects and expand_objects
        do with fresh memory. */
    static method MakeChain(n: nat) returns (add: seq<Cell>)
      requires n >= 2
      ensures |add| == n && ListIs(add, add[0])
      ensures forall c :: c in add ==> fresh(c) && c.freed && c.removed && Blank(c)
    {
      add := Zeroed(n);
      LinkChain(add);
    }

    static method LinkChain(add: seq<Cell>)
      requires |add| >= 2 && NoTwice(add)
      modifies add`next, add`prev, add`freed, add`removed
      ensures ListIs(add, add[0])
      ensures forall j :: 0 <= j < |add| ==> add[j].freed && add[j].removed
    {
      var n := |add|;
      forall i, j | 0 <= i < j < n ensures add[i] != add[j] {
        assert Apart(add, i, j);
      }
      add[0].prev := null;
      add[0].next := add[1];
      add[0].freed, add[0].removed := true, true;
      var i := 1;
      while i < n - 1
        invariant 1 <= i <= n - 1
        invariant add[0].prev == null
        invariant forall j :: 0 <= j < i ==> add[j].freed && add[j].removed
        invariant forall j {:trigger add[j].next} :: 0 <= j < i ==> add[j].next == add[j + 1]
        invariant forall j {:trigger add[j].prev} :: 0 < j < i ==> add[j].prev == add[j - 1]
      {
        add[i].next := add[i + 1];
        add[i].prev := add[i - 1];
        add[i].freed, add[i].removed := true, true;
        i := i + 1;
      }
      add[n - 1].next := null;
      add[n - 1].prev := add[n - 2];
      add[n - 1].freed, add[n - 1].removed := true, true;
    }

    static ghost predicate Blank(c: Cell)
      reads c`count, c`activeNext, c`activePrev, c`speed, c`owner, c`ownerCount
    {
      c.count == 0 && c.activeNext == null && c.activePrev == null && c.speed == 0.0
      && c.owner == null && c.ownerCount == 0
    }

    static method Zeroed(n: nat) returns (add: seq<Cell>)
      ensures |add| == n && NoTwice(add)
      ensures forall j :: 0 <= j < n ==> fresh(add[j]) && Blank(add[j])
    {
      add := [];
      for i := 0 to n
        invariant |add| == i && NoTwice(add)
        invariant forall j :: 0 <= j < i ==> fresh(add[j]) && Blank(add[j])
      {
        var c := new Cell();
        forall j, k | 0 <= j < k < i + 1 ensures Apart(add + [c], j, k) {
          assert k < i ==> Apart(add, j, k);
        }
        add := add + [c];
      }
    }

    /** object_new */
    method ObjectNew() returns (op: Cell)
      requires Valid()
      modifies this, cells`next, cells`prev, free
      ensures Valid() && op in used && op.removed && !op.freed && op.owner == null && op.speed == 0.0
      ensures obCount == old(obCount) + 1 && op.count == obCount
      ensures objectMap == old(objectMap)[obCount := op] && born == old(born)[obCount := op]
      ensures TagView() == TagStep(old(TagView()), Give(op))
      ensures used == [op] + old(used) && active == old(active)
      ensures old(free) == [] ==> |free| == OBJ_EXPAND - 1 && nrofAlloc == old(nrofAlloc) + OBJ_EXPAND && fresh(op)
      ensures old(free) != [] ==> free == old(free)[1..] && nrofAlloc == old(nrofAlloc) && op == old(free)[0]
    {
      if freeObjects == null {
        Expand();
      }
      assert free[0] in free;
      op := Issue();
    }

    /** The first free cell becomes an object. */
    method Issue() returns (op: Cell)
      requires Valid() && free != []
      modifies cells`next, cells`prev, free
      modifies this`freeObjects, this`objects, this`nrofFree, this`free, this`used
      modifies this`obCount, this`objectMap, this`born
      ensures Valid() && op == old(free)[0]
      ensures op.removed && !op.freed && op.owner == null && op.speed == 0.0
      ensures obCount == old(obCount) + 1 && op.count == obCount
      ensures objectMap == old(objectMap)[obCount := op] && born == old(born)[obCount := op]
      ensures used == [op] + old(used) && active == old(active)
      ensures free == old(free)[1..] && nrofAlloc == old(nrofAlloc)
    {
      op := RecycleInactive();
      ClearRecycled(op);
    }

    method ClearRecycled(op: Cell)
      requires Valid() && op in cells && op !in active && !op.freed
      modifies op`owner, op`ownerCount, op`speed, op`removed, op`activeNext, op`activePrev
      ensures Valid() && op.owner == null && op.speed == 0.0 && op.removed
    {
      ClearObject(op);
    }

    method RecycleInactive() returns (op: Cell)
      requires Valid() && free != []
      modifies cells`next, cells`prev, free`count, free`freed
      modifies this`freeObjects, this`objects, this`nrofFree, this`free, this`used
      modifies this`obCount, this`objectMap, this`born
      ensures Valid() && op == old(free)[0] && op in cells && op !in active && !op.freed
      ensures obCount == old(obCount) + 1 && op.count == obCount
      ensures objectMap == old(objectMap)[obCount := op] && born == old(born)[obCount := op]
      ensures used == [op] + old(used) && free == old(free)[1..] && nrofAlloc == old(nrofAlloc)
    {
      InactiveFirst();
      op := Recycle();
    }

    lemma InactiveFirst()
      requires Valid() && free != []
      ensures free[0] in free && free[0] in cells && free[0] !in active
    {}

    method Recycle() returns (op: Cell)
      requires Lists() && Flags() && Tags() && Owners() && free != [] && free[0] in free
      modifies cells`next, cells`prev, free`count, free`freed
      modifies this`freeObjects, this`objects, this`nrofFree, this`free, this`used
      modifies this`obCount, this`objectMap, this`born
      ensures Lists() && Flags() && Tags() && Owners() && op == old(free)[0] && !op.freed
      ensures obCount == old(obCount) + 1 && op.count == obCount
      ensures objectMap == old(objectMap)[obCount := op] && born == old(born)[obCount := op]
      ensures used == [op] + old(used) && free == old(free)[1..] && nrofAlloc == old(nrofAlloc)
    {
      op := TakeCell();
      Stamp(op);
    }

    /** The tag of a new object. */
    method Stamp(op: Cell)
      requires op in cells && op.freed && Tags() && Owners()
      modifies op`count, op`freed, this`obCount, this`objectMap, this`born
      ensures Tags() && Owners()
      ensures obCount == old(obCount) + 1 && op.count == obCount && !op.freed
      ensures objectMap == old(objectMap)[obCount := op] && born == old(born)[obCount := op]
    {
      obCount := obCount + 1;
      op.count := obCount;
      objectMap := objectMap[obCount := op];
      born := born[obCount := op];
      op.freed := false;
      forall c | c in cells ensures OwnerOk(c) {
        assert old(OwnerOk(c));
      }
    }

    /** object_clear, as far as the store is concerned. */
    method ClearObject(op: Cell)
      requires op in cells && Owners() && Active() && op !in active && !op.freed
      modifies op`owner, op`ownerCount, op`speed, op`removed, op`activeNext, op`activePrev
      ensures Owners() && Active()
      ensures op.owner == null && op.ownerCount == 0 && op.speed == 0.0 && op.removed
    {
      op.owner, op.ownerCount := null, 0;
      op.speed := 0.0;
      op.removed := true;
      op.activeNext, op.activePrev := null, null;
      forall c | c in cells ensures OwnerOk(c) {
        assert old(OwnerOk(c));
      }
      forall j | 0 <= j < |active| ensures ActiveAt(active, j) {
        assert old(ActiveAt(active, j)) && active[j] in active;
      }
    }

    method Deactivate(ob: Cell)
      requires Active() && ActiveUsed() && ob in cells
      modifies cells`activeNext, cells`activePrev, ob`speed, this`activeObjects, this`active
      ensures Active() && ActiveUsed() && ob !in active && ob.speed == 0.0
      ensures active == SpeedList(old(active), ob, false)
    {
      ob.speed := 0.0;
      UpdateSpeed(ob);
      if ob in old(active) {
        NoTwiceWithout(old(active), Find(old(active), ob));
      }
    }

    /** The tag of an object that is freed is withdrawn. */
    method Unstamp(ob: Cell)
      requires ob in cells && !ob.freed && Tags() && Owners()
      modifies ob`freed, ob`count, this`objectMap
      ensures Tags() && Owners() && ob.freed && ob.count == 0
      ensures objectMap == old(objectMap) - {old(ob.count)}
    {
      ob.freed := true;
      objectMap := objectMap - {ob.count};
      ob.count := 0;
      forall c | c in cells ensures OwnerOk(c) {
        assert old(OwnerOk(c));
      }
    }

    /** object_free, for an object with nothing in it and no further parts: a freed object is left
        alone, any other goes back to the free list. */
    method ObjectFree(ob: Cell)
      requires Valid() && ob in cells
      modifies this, cells`next, cells`prev, cells`activeNext, cells`activePrev, ob`speed, ob`freed, ob`count
      ensures Valid()
      ensures old(ob.freed) ==>
        used == old(used) && free == old(free) && active == old(active) && objectMap == old(objectMap)
      ensures !old(ob.freed) ==>
        && ob.freed && ob in old(used)
        && used == Without(old(used), Find(old(used), ob)) && free == [ob] + old(free)
        && active == SpeedList(old(active), ob, false)
        && objectMap == old(objectMap) - {old(ob.count)}
      ensures nrofAlloc == old(nrofAlloc) && cells == old(cells) && born == old(born)
      ensures !old(ob.freed) ==> TagView() == TagStep(old(TagView()), Withdraw(old(ob.count)))
    {
      if ob.freed {
        return;
      }
      FreeUsed(ob);
    }

    method FreeUsed(ob: Cell)
      requires Valid() && ob in cells && !ob.freed
      modifies cells`next, cells`prev, cells`activeNext, cells`activePrev, ob`speed, ob`freed, ob`count
      modifies this`freeObjects, this`objects, this`nrofFree, this`free, this`used, this`objectMap
      modifies this`activeObjects, this`active
      ensures Valid() && ob.freed && ob in old(used)
      ensures used == Without(old(used), Find(old(used), ob)) && free == [ob] + old(free)
      ensures active == SpeedList(old(active), ob, false)
      ensures objectMap == old(objectMap) - {old(ob.count)}
      ensures nrofAlloc == old(nrofAlloc)
    {
      Deactivate(ob);
      RetireInactive(ob);
    }

    method RetireInactive(ob: Cell)
      requires Valid() && ob in cells && !ob.freed && ob !in active
      modifies cells`next, cells`prev, ob`freed, ob`count
      modifies this`freeObjects, this`objects, this`nrofFree, this`free, this`used, this`objectMap
      ensures Valid() && ob.freed && ob in old(used)
      ensures used == Without(old(used), Find(old(used), ob)) && free == [ob] + old(free)
      ensures objectMap == old(objectMap) - {old(ob.count)}
      ensures nrofAlloc == old(nrofAlloc)
    {
      Retire(ob);
    }

    /** An inactive object is withdrawn from the tag map and its cell returned. */
    method Retire(ob: Cell)
      requires Lists() && Flags() && Tags() && Owners() && ob in cells && !ob.freed
      modifies cells`next, cells`prev, ob`freed, ob`count
      modifies this`freeObjects, this`objects, this`nrofFree, this`free, this`used, this`objectMap
      ensures Lists() && Flags() && Tags() && Owners() && ob.freed && ob in old(used)
      ensures used == Without(old(used), Find(old(used), ob)) && free == [ob] + old(free)
      ensures objectMap == old(objectMap) - {old(ob.count)}
      ensures nrofAlloc == old(nrofAlloc)
    {
      assert ob in used;
      Unstamp(ob);
      ReturnCell(ob);
    }

    /** init_objects */
    constructor ()
      ensures Valid() && used == [] && active == [] && |free| == nrofAlloc == STARTMAX
      ensures objectMap == map[] && born == map[] && obCount == 0 && fresh(cells)
    {
      var add := MakeChain(STARTMAX);
      objects, activeObjects, freeObjects := null, null, add[0];
      nrofAlloc, nrofFree, obCount, objectMap := STARTMAX, STARTMAX, 0, map[];
      used, free, active, born := [], add, [], map[];
      cells := set c | c in add;
    }

    /** The search for an object by its tag: a tag that is not current finds nothing. */
    method FindByTag(tag: nat) returns (r: Cell?)
      requires Valid()
      ensures r == if tag in objectMap then objectMap[tag] else null
      ensures r != null ==> r in cells && r.count == tag && !r.freed
    {
      if tag in objectMap {
        return objectMap[tag];
      }
      return null;
    }

    // -------------------------------------------------------------------------------------
    // Owners
    // -------------------------------------------------------------------------------------

    /** The owner object_get_owner reports: none, once the owner is gone or removed. */
    ghost function OwnerOf(op: Cell): Cell?
      requires Owners() && op in cells
      reads this`cells, this`born, cells`rank, cells`owner, cells`ownerCount, cells`count, cells`freed, cells`removed
    {
      assert OwnerOk(op);
      if op.owner != null && !op.owner.freed && !op.owner.removed && op.owner.count == op.ownerCount then op.owner
      else null
    }

    /** The owner's stored tag still stands for it, and it lies somewhere. */
    ghost predicate Current(op: Cell)
      reads this`objectMap, op`owner, op`ownerCount, if op.owner != null then {op.owner} else {}
    {
      && op.owner != null && !op.owner.removed
      && op.ownerCount in objectMap && objectMap[op.ownerCount] == op.owner
    }

    /** An owner is reported exactly while the tag map holds it under the tag stored with the link. */
    lemma OwnerOfIff(op: Cell)
      requires Tags() && Owners() && op in cells
      ensures OwnerOf(op) == if Current(op) then op.owner else null
    {
      assert OwnerOk(op);
    }

    /** Once set, an owner is reported after any run of creations and frees exactly if it was not freed on
        the way and is not removed now. */
    lemma OwnerIsFoundIff(op: Cell, owner: Cell, tag: nat, s: TagState<Cell>, run: seq<TagEvent<Cell>>)
      requires Tags() && Owners() && op in cells && op.owner == owner && op.ownerCount == tag
      requires tag <= s.last && tag in s.live && s.live[tag] == owner && TagView() == TagRun(s, run)
      ensures OwnerOf(op) == owner <==> !owner.removed && Withdraw(tag) !in run
    {
      OwnerOfIff(op);
      TagStaysIff(s, run, tag);
    }

    /** object_get_owner: a result is the same incarnation that was set, still current; otherwise
        the pointer is dropped. */
    method GetOwner(op: Cell) returns (r: Cell?)
      requires Tags() && Owners() && op in cells
      modifies op`owner, op`ownerCount
      ensures Owners() && r == old(OwnerOf(op))
      ensures old(Current(op)) ==> r == old(op.owner)
      ensures r != null ==>
        && r == old(op.owner) == op.owner && op.ownerCount == old(op.ownerCount)
        && r in cells && !r.freed && !r.removed && r.count == op.ownerCount
        && op.ownerCount in objectMap && objectMap[op.ownerCount] == r && born[op.ownerCount] == r
      ensures r == null ==> op.owner == null && (old(op.owner) != null ==> op.ownerCount == 0)
    {
      assert OwnerOk(op);
      OwnerOfIff(op);
      if op.owner == null {
        return null;
      }
      if !op.owner.freed && !op.owner.removed && op.owner.count == op.ownerCount {
        return op.owner;
      }
      ClearOwner(op);
      return null;
    }

    /** object_clear_owner */
    method ClearOwner(op: Cell)
      requires Owners() && op in cells
      modifies op`owner, op`ownerCount
      ensures Owners() && op.owner == null && op.ownerCount == 0
    {
      op.owner := null;
      op.ownerCount := 0;
      forall c | c in cells ensures OwnerOk(c) {
        assert old(OwnerOk(c));
      }
    }

    /** Where the climb over owners of owners ends. */
    ghost function Root(op: Cell): (r: Cell)
      requires Tags() && Owners() && op in cells
      reads this`cells, this`born, this`objectMap, this`obCount
      reads cells`rank, cells`owner, cells`ownerCount, cells`count, cells`freed, cells`removed
      ensures r in cells && OwnerOf(r) == null
      decreases op.rank
    {
      assert OwnerOk(op);
      if OwnerOf(op) == null then op
      else
        LiveOwnerIsLinked(op);
        Root(OwnerOf(op))
    }

    /** The climb goes on exactly while there is a current owner. */
    lemma RootStep(op: Cell)
      requires Tags() && Owners() && op in cells
      ensures Current(op) ==> op.owner in cells && Root(op) == Root(op.owner)
      ensures !Current(op) ==> Root(op) == op
    {
      OwnerOfIff(op);
      if Current(op) {
        LiveOwnerIsLinked(op);
      }
    }

    lemma LiveOwnerIsLinked(op: Cell)
      requires Tags() && Owners() && op in cells && OwnerOf(op) != null
      ensures OwnerOf(op) in cells && OwnerOf(op).rank < op.rank
    {
      assert OwnerOk(op);
      assert Linked(op);
    }

    /** object_set_owner: without an owner the pointer is dropped; otherwise the object is given to
        whoever ends the chain of owners above the one named, who has no owner. Only an object at
        the end of that very chain is refused, which is where the code asserts. */
    method SetOwner(op: Cell, owner: Cell?) returns (ok: bool)
      requires Tags() && Owners() && op in cells && (owner != null ==> owner in cells)
      modifies cells`owner, cells`ownerCount, cells`rank
      ensures Owners()
      ensures owner == null ==> ok && op.owner == null
      ensures owner != null ==> (ok <==> op != old(Root(owner)))
      ensures owner != null && ok ==>
        op.owner == old(Root(owner)) && op.ownerCount == op.owner.count && op.owner.owner == null
      ensures owner != null && ok && !old(Root(owner)).freed && !old(Root(owner)).removed ==> Current(op)
      ensures forall c :: c in cells && c != op && (owner == null || c != old(Root(owner))) ==>
        c.owner == old(c.owner) && c.ownerCount == old(c.ownerCount)
    {
      if owner == null {
        ClearOwner(op);
        return true;
      }
      var top := owner;
      var tmp: Cell? := owner;
      while tmp != null
        invariant Tags() && Owners() && top in cells && Root(top) == old(Root(owner))
        invariant tmp == null ==> top == old(Root(owner)) && top.owner == null
        invariant forall c :: c in cells && c != old(Root(owner)) ==>
                    c.owner == old(c.owner) && c.ownerCount == old(c.ownerCount)
        decreases tmp != null, top.rank
      {
        tmp := GetOwner(top);
        if tmp != null {
          top := tmp;
        }
      }
      if op == top {
        return false;
      }
      Attach(op, top);
      return true;
    }

    /** op gets an owner that has none itself. */
    method Attach(op: Cell, top: Cell)
      requires Tags() && Owners() && op in cells && top in cells && op != top && top.owner == null
      modifies op`owner, op`ownerCount, cells`rank
      ensures Owners() && op.owner == top && op.ownerCount == top.count
    {
      op.owner := top;
      op.ownerCount := top.count;
      forall c | c in cells {
        c.rank := if c == top then 0 else c.rank + 1;
      }
      forall c | c in cells ensures OwnerOk(c) {
        assert old(OwnerOk(c));
      }
    }
  }

  // ---------------------------------------------------------------------------------------
  // Tags over whole runs
  // ---------------------------------------------------------------------------------------

  /** The last tag given out, and the objects by their current tags. */
  datatype TagState<T> = TagState(last: nat, live: map<nat, T>)

  /** What object_new and object_free do to the tags. */
  datatype TagEvent<T> = Give(cell: T) | Withdraw(tag: nat)

  ghost function TagStep<T>(s: TagState<T>, e: TagEvent<T>): TagState<T> {
    match e
    case Give(c) => TagState(s.last + 1, s.live[s.last + 1 := c])
    case Withdraw(t) => TagState(s.last, s.live - {t})
  }

  ghost function TagRun<T>(s: TagState<T>, run: seq<TagEvent<T>>): TagState<T>
    decreases |run|
  {
    if run == [] then s else TagRun(TagStep(s, run[0]), run[1..])
  }

  /** A tag that was given out and withdrawn never comes back, and one that is still current
      still belongs to the same cell. */
  lemma {:induction false} TagsAreNotReused<T>(s: TagState<T>, run: seq<TagEvent<T>>, t: nat)
    requires t <= s.last
    ensures t in TagRun(s, run).live ==> t in s.live && TagRun(s, run).live[t] == s.live[t]
    decreases |run|
  {
    if run != [] {
      TagsAreNotReused(TagStep(s, run[0]), run[1..], t);
    }
  }

  /** A current tag stays current exactly until it is withdrawn. */
  lemma {:induction false} TagStaysIff<T>(s: TagState<T>, run: seq<TagEvent<T>>, t: nat)
    requires t <= s.last && t in s.live
    ensures t in TagRun(s, run).live <==> Withdraw(t) !in run
    ensures t in TagRun(s, run).live ==> TagRun(s, run).live[t] == s.live[t]
    decreases |run|
  {
    if run != [] {
      if run[0] == Withdraw(t) {
        TagsAreNotReused(TagStep(s, run[0]), run[1..], t);
      } else {
        TagStaysIff(TagStep(s, run[0]), run[1..], t);
        assert Withdraw(t) in run <==> Withdraw(t) in run[1..];
      }
    }
  }

  lemma {:induction false} TagRunConcat<T>(s: TagState<T>, a: seq<TagEvent<T>>, b: seq<TagEvent<T>>)
    ensures TagRun(s, a + b) == TagRun(TagRun(s, a), b)
    ensures s.last <= TagRun(s, a).last
    decreases |a|
  {
    if a == [] {
      assert a + b == b;
    } else {
      assert (a + b)[0] == a[0] && (a + b)[1..] == a[1..] + b;
      TagRunConcat(TagStep(s, a[0]), a[1..], b);
    }
  }

  /** When object_get_owner finds the tag it stored still current, the owner was never freed in
      between: at every moment of the run the tag stood for the same cell. */
  lemma OwnerIsSameIncarnation<T>(s: TagState<T>, run: seq<TagEvent<T>>, owner: T, tag: nat, k: nat)
    requires tag <= s.last && k <= |run|
    requires tag in TagRun(s, run).live && TagRun(s, run).live[tag] == owner
    ensures tag in TagRun(s, run[..k]).live && TagRun(s, run[..k]).live[tag] == owner
  {
    assert run[..k] + run[k..] == run;
    TagRunConcat(s, run[..k], run[k..]);
    TagsAreNotReused(TagRun(s, run[..k]), run[k..], tag);
  }
}
