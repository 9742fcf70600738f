/** What a map space's caches stand for: the stack, summed up (common/map.cpp). */
module SpaceSums {
  import opened Common
  import opened Things
  import opened FaceLayers

  /** The bits of all the movement masks and flags on a stack, and its strongest light. */
  datatype Sum = Sum(block: MoveType, allow: MoveType, on: MoveType, off: MoveType, slow: MoveType,
                     view: bool, magic: bool, cleric: bool, alive: bool, light: nat)

  const ZERO := Sum(NO_MOVE, NO_MOVE, NO_MOVE, NO_MOVE, NO_MOVE, false, false, false, false, 0)

  function Join(a: Sum, b: Sum): Sum {
    Sum(a.block.Or(b.block), a.allow.Or(b.allow), a.on.Or(b.on), a.off.Or(b.off), a.slow.Or(b.slow),
        a.view || b.view, a.magic || b.magic, a.cleric || b.cleric, a.alive || b.alive,
        if b.light > a.light then b.light else a.light)
  }

  /** Hidden dungeon masters do not count at all. */
  function Of(t: Thing): Sum {
    if t.hiddenDm then ZERO
    else Sum(t.moveBlock, t.moveAllow, t.moveOn, t.moveOff, t.moveSlow,
             t.blocksView, t.noMagic, t.damned || t.blocksPrayer, t.alive, t.glow)
  }

  function Total(stack: seq<Thing>): Sum {
    if stack == [] then ZERO else Join(Total(stack[..|stack| - 1]), Of(stack[|stack| - 1]))
  }

  lemma JoinIsCommutative(a: Sum, b: Sum)
    ensures Join(a, b) == Join(b, a)
  {}

  lemma JoinIsAssociative(a: Sum, b: Sum, c: Sum)
    ensures Join(Join(a, b), c) == Join(a, Join(b, c))
  {}

  lemma JoinZero(a: Sum)
    ensures Join(a, ZERO) == a && Join(ZERO, a) == a
  {}

  lemma JoinRotates(a: Sum, b: Sum, c: Sum)
    ensures Join(Join(a, b), c) == Join(Join(a, c), b)
  {
    JoinIsAssociative(a, b, c);
    JoinIsCommutative(b, c);
    JoinIsAssociative(a, c, b);
  }

  lemma {:induction false} TotalConcat(a: seq<Thing>, b: seq<Thing>)
    ensures Total(a + b) == Join(Total(a), Total(b))
  {
    if b == [] {
      assert a + b == a;
      JoinZero(Total(a));
    } else {
      var n := |b| - 1;
      assert (a + b)[..|a + b| - 1] == a + b[..n];
      TotalConcat(a, b[..n]);
      JoinIsAssociative(Total(a), Total(b[..n]), Of(b[n]));
    }
  }

  lemma TotalAppend(a: seq<Thing>, t: Thing)
    ensures Total(a + [t]) == Join(Total(a), Of(t))
  {
    assert (a + [t])[..|a|] == a;
  }

  lemma TotalSplice(a: seq<Thing>, t: Thing, b: seq<Thing>, x: Sum, y: Sum, z: Sum)
    requires x == Total(a) && y == Of(t) && z == Total(b)
    ensures Total(a + [t] + b) == Join(Join(x, y), z) && Total(a + b) == Join(x, z)
  {
    TotalConcat(a + [t], b);
    TotalAppend(a, t);
    TotalConcat(a, b);
  }

  /** Where in the stack a thing is makes no difference. */
  lemma {:induction false} TotalOfInsert(stack: seq<Thing>, i: nat, t: Thing)
    requires i <= |stack|
    ensures Total(stack[..i] + [t] + stack[i..]) == Join(Total(stack), Of(t))
  {
    var a, b := stack[..i], stack[i..];
    assert a + b == stack;
    TotalWith(a, t, b, Of(t));
  }

  lemma TotalWith(a: seq<Thing>, t: Thing, b: seq<Thing>, y: Sum)
    requires y == Of(t)
    ensures Total(a + [t] + b) == Join(Total(a + b), y)
  {
    var x, z := Total(a), Total(b);
    TotalSplice(a, t, b, x, y, z);
    JoinRotates(x, y, z);
  }

  /** The player shown as being there: the highest one not hidden. */
  function TopPlayer(stack: seq<Thing>): Option<nat> {
    if stack == [] then None
    else
      var t := stack[|stack| - 1];
      if t.player && !t.hiddenDm then Some(t.id) else TopPlayer(stack[..|stack| - 1])
  }

  lemma {:induction false} TopPlayerConcat(a: seq<Thing>, b: seq<Thing>)
    ensures TopPlayer(a + b) == if TopPlayer(b) == None then TopPlayer(a) else TopPlayer(b)
  {
    if b == [] {
      assert a + b == a;
    } else {
      assert (a + b)[..|a + b| - 1] == a + b[..|b| - 1];
      TopPlayerConcat(a, b[..|b| - 1]);
    }
  }

  lemma {:induction false} TopPlayerOfInsert(stack: seq<Thing>, i: nat, t: Thing)
    requires i <= |stack| && !t.player
    ensures TopPlayer(stack[..i] + [t] + stack[i..]) == TopPlayer(stack)
  {
    var a, b := stack[..i], stack[i..];
    TopPlayerConcat(a + [t], b);
    assert (a + [t])[..|a|] == a;
    TopPlayerConcat(a, b);
    assert a + b == stack;
  }

  // ---------------------------------------------------------------------------------------
  // Faces
  // ---------------------------------------------------------------------------------------

  const NO_LAYERS: seq<Option<Thing>> := [None, None, None, None, None, None, None, None, None, None]

  function High(l: Layer): (h: Layer)
    ensures l <= h
  {
    if l == 0 then 0 else if l <= 2 then 2 else if l <= 5 then 5 else if l <= 7 then 7 else 9
  }

  function Low(l: Layer): Layer {
    if l == 0 then 0 else if l <= 2 then 1 else if l <= 5 then 3 else if l <= 7 then 6 else 8
  }

  /** Only the ground objects that cannot be picked up are shown in stack order. */
  function Honours(l: Layer): bool {
    l != 1 && l != 2
  }

  predicate Drawn(t: Thing) {
    !t.hiddenDm && !t.invisible && !t.blankFace
  }

  /** The first layer a drawn thing may take. */
  function LayerOf(t: Thing): Layer {
    if t.mapLayer != 0 then t.mapLayer
    else if t.moveType.Flies() then 8
    else if t.player || t.monster || t.canRoll then 6
    else if t.floor then 0
    else if t.noPick then 1
    else 3
  }

  /** The faces after one more thing: floors hide everything. */
  function Draw(layers: seq<Option<Thing>>, t: Thing): (r: seq<Option<Thing>>)
    requires |layers| == MAP_LAYERS
    ensures |r| == MAP_LAYERS
  {
    if !Drawn(t) then layers
    else if LayerOf(t) == 0 then NO_LAYERS[0 := Some(t)]
    else AddLayer(layers, LayerOf(t), High(LayerOf(t)), t, Honours(LayerOf(t)))
  }

  function Faces(stack: seq<Thing>): (r: seq<Option<Thing>>)
    ensures |r| == MAP_LAYERS
  {
    if stack == [] then NO_LAYERS else Draw(Faces(stack[..|stack| - 1]), stack[|stack| - 1])
  }

  /** No thing of the group is set to a layer in the middle of it, which would mix two orders. */
  predicate StartGroup(stack: seq<Thing>, low: Layer) {
    forall i :: 0 <= i < |stack| ==> StartsGroup(stack[i], low)
  }

  predicate StartsGroup(t: Thing, low: Layer) {
    Drawn(t) && Low(LayerOf(t)) == low ==> LayerOf(t) == low
  }

  /** The drawn things of one group above the highest floor. */
  function Shown(stack: seq<Thing>, low: Layer): seq<Thing> {
    if stack == [] then []
    else
      var t := stack[|stack| - 1];
      if !Drawn(t) then Shown(stack[..|stack| - 1], low)
      else if LayerOf(t) == 0 then []
      else if LayerOf(t) == low then Shown(stack[..|stack| - 1], low) + [t]
      else Shown(stack[..|stack| - 1], low)
  }

  function TopFloor(stack: seq<Thing>): Option<Thing> {
    if stack == [] then None
    else
      var t := stack[|stack| - 1];
      if Drawn(t) && LayerOf(t) == 0 then Some(t) else TopFloor(stack[..|stack| - 1])
  }

  /** What a group of slots holds in the end. */
  function Visible(stack: seq<Thing>, low: Layer): (r: seq<Thing>)
    ensures |r| <= High(low) + 1 - low
  {
    if Honours(low) then Last(Sort(Shown(stack, low)), High(low) + 1 - low)
    else Last(Shown(stack, low), High(low) + 1 - low)
  }

  lemma {:induction false} FacesAreFed(stack: seq<Thing>, low: Layer)
    requires low in {1, 3, 6, 8} && StartGroup(stack, low)
    ensures Packed(Faces(stack), low, High(low), Feed(Shown(stack, low), High(low) + 1 - low, Honours(low)))
  {
    if stack != [] {
      var s, t := stack[..|stack| - 1], stack[|stack| - 1];
      FacesAreFed(s, low);
      assert StartsGroup(t, low);
      FedStep(Faces(s), Feed(Shown(s, low), High(low) + 1 - low, Honours(low)), t, low);
      if Drawn(t) && LayerOf(t) == low {
        assert (Shown(s, low) + [t])[..|Shown(s, low)|] == Shown(s, low);
      }
    }
  }

  lemma FedStep(layers: seq<Option<Thing>>, pile: seq<Thing>, t: Thing, low: Layer)
    requires |layers| == MAP_LAYERS && low in {1, 3, 6, 8} && Packed(layers, low, High(low), pile)
    requires StartsGroup(t, low)
    ensures Drawn(t) && LayerOf(t) == 0 ==> Packed(Draw(layers, t), low, High(low), [])
    ensures Drawn(t) && LayerOf(t) == low ==>
              Packed(Draw(layers, t), low, High(low), Add(pile, t, High(low) + 1 - low, Honours(low)))
    ensures !Drawn(t) || (LayerOf(t) != 0 && LayerOf(t) != low) ==> Packed(Draw(layers, t), low, High(low), pile)
  {
    if Drawn(t) && LayerOf(t) == low {
      AddToPacked(layers, low, High(low), pile, t, Honours(low));
    } else if Drawn(t) && LayerOf(t) != 0 {
      Elsewhere(layers, LayerOf(t), t);
    }
  }

  lemma Elsewhere(layers: seq<Option<Thing>>, l: Layer, t: Thing)
    requires |layers| == MAP_LAYERS
    ensures forall k :: 0 <= k < MAP_LAYERS && !(l <= k <= High(l)) ==>
              AddLayer(layers, l, High(l), t, Honours(l))[k] == layers[k]
  {}

  /** The faces of a group in which no layer is set to the middle: the most visible things above the
      highest floor with ties to the higher ones, or the top of the stack, whatever the other groups hold. */
  lemma FacesAreVisible(stack: seq<Thing>, low: Layer)
    requires low in {1, 3, 6, 8} && StartGroup(stack, low)
    ensures Packed(Faces(stack), low, High(low), Visible(stack, low))
  {
    FacesAreFed(stack, low);
    if Honours(low) {
      FeedIsTopOfSort(Shown(stack, low), High(low) + 1 - low);
    } else {
      FeedIsTopOfStack(Shown(stack, low), High(low) + 1 - low);
    }
  }

  lemma {:induction false} FloorIsTopFloor(stack: seq<Thing>)
    ensures Faces(stack)[0] == TopFloor(stack)
  {
    if stack != [] {
      var s, t := stack[..|stack| - 1], stack[|stack| - 1];
      FloorIsTopFloor(s);
      if Drawn(t) && LayerOf(t) != 0 {
        Elsewhere(Faces(s), LayerOf(t), t);
      }
    }
  }

  /** The things above the highest floor. */
  function AboveFloor(stack: seq<Thing>): seq<Thing> {
    if stack == [] then []
    else
      var t := stack[|stack| - 1];
      if Drawn(t) && LayerOf(t) == 0 then [] else AboveFloor(stack[..|stack| - 1]) + [t]
  }

  predicate OfGroup(t: Thing, k: Layer) {
    Drawn(t) && Low(LayerOf(t)) == Low(k)
  }

  /** Every slot above the floor shows something of its own group from above the highest floor, and no
      slot shows what is hidden, whatever layers things are set to. */
  lemma {:induction false} FacesAreOfTheirGroup(stack: seq<Thing>, k: Layer)
    requires k > 0 && Faces(stack)[k].Some?
    ensures Faces(stack)[k].value in AboveFloor(stack) && OfGroup(Faces(stack)[k].value, k)
  {
    var s, t := stack[..|stack| - 1], stack[|stack| - 1];
    var layers, l := Faces(s), LayerOf(t);
    if !Drawn(t) {
      FacesAreOfTheirGroup(s, k);
    } else if l > 0 {
      if l <= k <= High(l) {
        var j := AddedFrom(layers, l, High(l), t, Honours(l), k);
        if j < MAP_LAYERS {
          FacesAreOfTheirGroup(s, j);
        }
      } else {
        Elsewhere(layers, l, t);
        FacesAreOfTheirGroup(s, k);
      }
    }
  }

  /** A slot of the group shows the new thing, or what some slot of the group showed before. */
  lemma AddedFrom(slots: seq<Option<Thing>>, low: nat, high: nat, x: Thing, honour: bool, k: nat) returns (j: nat)
    requires low <= high < |slots| && low <= k <= high && AddLayer(slots, low, high, x, honour)[k].Some?
    ensures j == |slots| ==> AddLayer(slots, low, high, x, honour)[k] == Some(x)
    ensures j != |slots| ==> low <= j <= high && slots[j] == AddLayer(slots, low, high, x, honour)[k]
  {
    var pile := Taken(slots, low, high);
    var r := Add(pile, x, high + 1 - low, honour);
    if k - low < |r| {
      AddMembers(pile, x, high + 1 - low, honour, k - low);
      if r[k - low] == x {
        j := |slots|;
      } else {
        var i :| 0 <= i < |pile| && pile[i] == r[k - low];
        j := low + i;
      }
    } else {
      j := k;
    }
  }

  lemma AddMembers(pile: seq<Thing>, x: Thing, k: nat, honour: bool, i: nat)
    requires |pile| <= k && k > 0 && i < |Add(pile, x, k, honour)|
    ensures Add(pile, x, k, honour)[i] == x || Add(pile, x, k, honour)[i] in pile
  {
    if |pile| < k && honour {
      BubbleMembers(pile, x, i);
    }
  }

  lemma {:induction false} BubbleMembers(pile: seq<Thing>, x: Thing, i: nat)
    requires i < |Bubble(pile, x)|
    ensures Bubble(pile, x)[i] == x || Bubble(pile, x)[i] in pile
  {
    if pile != [] {
      var n := |pile| - 1;
      assert forall y :: y in pile[..n] ==> y in pile;
      if i <= n {
        BubbleMembers(pile[..n], if pile[n].visibility > x.visibility then x else pile[n], Least(i, n));
      }
    }
  }

  function Least(a: nat, b: nat): nat {
    if a <= b then a else b
  }
}
