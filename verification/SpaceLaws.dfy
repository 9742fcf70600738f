/** What is cached about a map space and what it shows, said of the things on it: their own flags, and
    the numbers of the layers (update_position in common/map.cpp, include/map.h). */
module SpaceLaws {
  import opened Common
  import opened Things
  import opened FaceLayers
  import opened SpaceSums
  import opened MapSpaces

  // ---------------------------------------------------------------------------------------
  // Masks and flags
  // ---------------------------------------------------------------------------------------

  /** The ways of moving: walking, flying low and high, swimming, by boat. */
  type Mode = k: int | 0 <= k < 5

  predicate Covers(m: MoveType, k: Mode) {
    match k
    case 0 => m.walk
    case 1 => m.flyLow
    case 2 => m.flyHigh
    case 3 => m.swim
    case 4 => m.boat
  }

  datatype Property =
    | BlocksView | NoMagic | NoPrayer | Living
    | Blocks(k: Mode) | Allows(k: Mode) | OnMove(k: Mode) | OffMove(k: Mode) | Slows(k: Mode)

  predicate Has(t: Thing, p: Property) {
    match p
    case BlocksView => t.blocksView
    case NoMagic => t.noMagic
    case NoPrayer => t.damned || t.blocksPrayer
    case Living => t.alive
    case Blocks(k) => Covers(t.moveBlock, k)
    case Allows(k) => Covers(t.moveAllow, k)
    case OnMove(k) => Covers(t.moveOn, k)
    case OffMove(k) => Covers(t.moveOff, k)
    case Slows(k) => Covers(t.moveSlow, k)
  }

  predicate InSum(s: Sum, p: Property) {
    match p
    case BlocksView => s.view
    case NoMagic => s.magic
    case NoPrayer => s.cleric
    case Living => s.alive
    case Blocks(k) => Covers(s.block, k)
    case Allows(k) => Covers(s.allow, k)
    case OnMove(k) => Covers(s.on, k)
    case OffMove(k) => Covers(s.off, k)
    case Slows(k) => Covers(s.slow, k)
  }

  /** Something on the stack, other than a hidden dungeon master, has the property. */
  predicate Somewhere(stack: seq<Thing>, p: Property) {
    exists i :: 0 <= i < |stack| && HasAt(stack, i, p)
  }

  predicate HasAt(stack: seq<Thing>, i: nat, p: Property)
    requires i < |stack|
  {
    !stack[i].hiddenDm && Has(stack[i], p)
  }

  lemma {:induction false} SomewhereStep(stack: seq<Thing>, p: Property)
    requires stack != []
    ensures var n := |stack| - 1;
      Somewhere(stack, p) <==> Somewhere(stack[..n], p) || HasAt(stack, n, p)
  {
    var n := |stack| - 1;
    if Somewhere(stack[..n], p) {
      var i :| 0 <= i < n && HasAt(stack[..n], i, p);
      assert HasAt(stack, i, p);
    }
    if Somewhere(stack, p) && !HasAt(stack, n, p) {
      var i :| 0 <= i < |stack| && HasAt(stack, i, p);
      assert HasAt(stack[..n], i, p);
    }
  }

  lemma OrCovers(a: MoveType, b: MoveType, k: Mode)
    ensures Covers(a.Or(b), k) <==> Covers(a, k) || Covers(b, k)
    ensures Covers(a.Without(b), k) <==> Covers(a, k) && !Covers(b, k)
  {}

  lemma JoinHas(a: Sum, b: Sum, p: Property)
    ensures InSum(Join(a, b), p) <==> InSum(a, p) || InSum(b, p)
  {
    match p {
      case Blocks(k) => OrCovers(a.block, b.block, k);
      case Allows(k) => OrCovers(a.allow, b.allow, k);
      case OnMove(k) => OrCovers(a.on, b.on, k);
      case OffMove(k) => OrCovers(a.off, b.off, k);
      case Slows(k) => OrCovers(a.slow, b.slow, k);
      case _ =>
    }
  }

  lemma OfHas(t: Thing, p: Property)
    ensures InSum(Of(t), p) <==> !t.hiddenDm && Has(t, p)
  {}

  lemma {:induction false} TotalIff(stack: seq<Thing>, p: Property)
    ensures InSum(Total(stack), p) <==> Somewhere(stack, p)
  {
    if stack != [] {
      var n := |stack| - 1;
      TotalIff(stack[..n], p);
      SomewhereStep(stack, p);
      OfHas(stack[n], p);
      JoinHas(Total(stack[..n]), Of(stack[n]), p);
    }
  }

  /** As bright as the brightest thing. */
  predicate Lights(stack: seq<Thing>, light: nat) {
    && (forall i :: 0 <= i < |stack| && !stack[i].hiddenDm ==> stack[i].glow <= light)
    && (light == 0 || exists i :: 0 <= i < |stack| && !stack[i].hiddenDm && stack[i].glow == light)
  }

  lemma {:induction false} TotalLights(stack: seq<Thing>)
    ensures Lights(stack, Total(stack).light)
  {
    if stack != [] {
      var n := |stack| - 1;
      var s, light := stack[..n], Total(stack[..n]).light;
      TotalLights(s);
      if light > 0 && (stack[n].hiddenDm || stack[n].glow <= light) {
        var i :| 0 <= i < n && !s[i].hiddenDm && s[i].glow == light;
        assert stack[i] == s[i];
      }
      forall i | 0 <= i < n ensures stack[i] == s[i] {}
    }
  }

  predicate Plays(stack: seq<Thing>, i: nat)
    requires i < |stack|
  {
    stack[i].player && !stack[i].hiddenDm
  }

  /** The highest player that is not hidden. */
  predicate IsTopPlayer(stack: seq<Thing>, i: nat)
    requires i < |stack|
  {
    Plays(stack, i) && forall j :: i < j < |stack| ==> !Plays(stack, j)
  }

  lemma {:induction false} TopPlayerIs(stack: seq<Thing>)
    ensures forall i :: 0 <= i < |stack| && IsTopPlayer(stack, i) ==> TopPlayer(stack) == Some(stack[i].id)
    ensures TopPlayer(stack).None? <==> forall i :: 0 <= i < |stack| ==> !Plays(stack, i)
  {
    if stack != [] {
      var n := |stack| - 1;
      var s := stack[..n];
      TopPlayerIs(s);
      forall i | 0 <= i < n ensures Plays(stack, i) == Plays(s, i) {}
      if !Plays(stack, n) {
        forall i | 0 <= i < |stack| && IsTopPlayer(stack, i) ensures TopPlayer(stack) == Some(stack[i].id) {
          assert IsTopPlayer(s, i);
        }
      }
    }
  }

  /** At all times the cache says of each way of moving whether anything on the space is the cause; a way is
      blocked if something blocks it and nothing allows it. */
  lemma {:induction false} MasksIff(c: Cache, stack: seq<Thing>, k: Mode)
    requires Sound(c, stack)
    ensures Covers(c.block, k) <==> Somewhere(stack, Blocks(k)) && !Somewhere(stack, Allows(k))
    ensures Covers(c.on, k) <==> Somewhere(stack, OnMove(k))
    ensures Covers(c.off, k) <==> Somewhere(stack, OffMove(k))
    ensures Covers(c.slow, k) <==> Somewhere(stack, Slows(k))
  {
    var s := Total(stack);
    OrCovers(s.block, s.allow, k);
    TotalIff(stack, Blocks(k));
    TotalIff(stack, Allows(k));
    TotalIff(stack, OnMove(k));
    TotalIff(stack, OffMove(k));
    TotalIff(stack, Slows(k));
  }

  /** And so of the view, of magic, of living things and of players. */
  lemma {:induction false} FlagsIff(c: Cache, stack: seq<Thing>)
    requires Sound(c, stack)
    ensures c.flags.blocksView <==> Somewhere(stack, BlocksView)
    ensures c.flags.noMagic <==> Somewhere(stack, NoMagic)
    ensures c.flags.alive <==> Somewhere(stack, Living)
    ensures c.flags.player <==> exists i :: 0 <= i < |stack| && Plays(stack, i)
    ensures forall i :: 0 <= i < |stack| && IsTopPlayer(stack, i) ==> c.pl == Some(stack[i].id)
    ensures !c.flags.player ==> c.pl == None
  {
    TotalIff(stack, BlocksView);
    TotalIff(stack, NoMagic);
    TotalIff(stack, Living);
    TopPlayerIs(stack);
  }

  /** Unless an update is called for, of prayer and of light as well. */
  lemma {:induction false} PrayerAndLightIff(c: Cache, stack: seq<Thing>)
    requires Sound(c, stack) && !c.flags.needUpdate
    ensures c.flags.noCleric <==> Somewhere(stack, NoPrayer)
    ensures Lights(stack, c.light)
  {
    TotalIff(stack, NoPrayer);
    TotalLights(stack);
  }

  /** Something about t is new to the space for one way of moving. */
  ghost predicate NewForMode(stack: seq<Thing>, t: Thing, k: Mode) {
    var blocked := Somewhere(stack, Blocks(k)) && !Somewhere(stack, Allows(k));
    || (Has(t, OnMove(k)) && !Somewhere(stack, OnMove(k)))
    || (Has(t, OffMove(k)) && !Somewhere(stack, OffMove(k)))
    || (Has(t, Slows(k)) && !Somewhere(stack, Slows(k)))
    || (blocked && Has(t, Allows(k)))
    || (!blocked && Has(t, Blocks(k)) && !Has(t, Allows(k)))
  }

  /** While the cache is right, a new object has the space recomputed exactly if it is a player, is the first
      to block the view, forbid magic, be damned where prayer works, or be alive, or changes something for
      some way of moving. */
  lemma {:induction false} NeedsUpdateIff(c: Cache, stack: seq<Thing>, t: Thing)
    requires Sound(c, stack) && !c.flags.needUpdate
    ensures NeedsUpdate(c, t) <==>
      || t.player
      || (t.blocksView && !Somewhere(stack, BlocksView)) || (t.noMagic && !Somewhere(stack, NoMagic))
      || (t.damned && !Somewhere(stack, NoPrayer)) || (t.alive && !Somewhere(stack, Living))
      || NewForSomeMode(stack, t)
  {
    FlagsIff(c, stack);
    PrayerAndLightIff(c, stack);
    NewIff(c, stack, t);
    UpdateMeans(c, t);
  }

  ghost predicate NewForSomeMode(stack: seq<Thing>, t: Thing) {
    exists k: Mode :: NewForMode(stack, t, k)
  }

  lemma {:induction false} NewForModeIff(c: Cache, stack: seq<Thing>, t: Thing, k: Mode)
    requires Covers(c.block, k) <==> Somewhere(stack, Blocks(k)) && !Somewhere(stack, Allows(k))
    requires Covers(c.on, k) <==> Somewhere(stack, OnMove(k))
    requires Covers(c.off, k) <==> Somewhere(stack, OffMove(k))
    requires Covers(c.slow, k) <==> Somewhere(stack, Slows(k))
    ensures NewForMode(stack, t, k) <==> ModeChanges(c, t, k)
  {}

  lemma {:induction false} NewIff(c: Cache, stack: seq<Thing>, t: Thing)
    requires Sound(c, stack)
    ensures NewForSomeMode(stack, t) <==> MasksChange(c, t)
  {
    forall k: Mode ensures NewForMode(stack, t, k) <==> ModeChanges(c, t, k) {
      MasksIff(c, stack, k);
      NewForModeIff(c, stack, t, k);
    }
    SomeModeIff(c, t);
  }

  lemma UpdateMeans(c: Cache, t: Thing)
    ensures NeedsUpdate(c, t) <==>
      || t.player
      || (t.blocksView && !c.flags.blocksView) || (t.noMagic && !c.flags.noMagic)
      || (t.damned && !c.flags.noCleric) || (t.alive && !c.flags.alive)
      || MasksChange(c, t)
  {}

  predicate MasksChange(c: Cache, t: Thing) {
    || c.on.Or(t.moveOn) != c.on || c.off.Or(t.moveOff) != c.off
    || c.block.Or(t.moveBlock).Without(t.moveAllow) != c.block || c.slow.Or(t.moveSlow) != c.slow
  }

  predicate ModeChanges(c: Cache, t: Thing, k: Mode) {
    || (Covers(t.moveOn, k) && !Covers(c.on, k)) || (Covers(t.moveOff, k) && !Covers(c.off, k))
    || (Covers(t.moveSlow, k) && !Covers(c.slow, k)) || (Covers(c.block, k) && Covers(t.moveAllow, k))
    || (!Covers(c.block, k) && Covers(t.moveBlock, k) && !Covers(t.moveAllow, k))
  }

  lemma SameMasks(a: MoveType, b: MoveType)
    ensures a == b <==> forall k: Mode :: Covers(a, k) <==> Covers(b, k)
  {
    if forall k: Mode :: Covers(a, k) <==> Covers(b, k) {
      assert (Covers(a, 0) <==> Covers(b, 0)) && (Covers(a, 1) <==> Covers(b, 1)) && (Covers(a, 2) <==> Covers(b, 2));
      assert (Covers(a, 3) <==> Covers(b, 3)) && (Covers(a, 4) <==> Covers(b, 4));
    }
  }

  lemma SomeModeIff(c: Cache, t: Thing)
    ensures (exists k: Mode :: ModeChanges(c, t, k)) <==> MasksChange(c, t)
  {
    forall k: Mode ensures ModeChanges(c, t, k) <==> MaskChangesAt(c, t, k) {
      ModeIff(c, t, k);
    }
    SameMasks(c.on.Or(t.moveOn), c.on);
    SameMasks(c.off.Or(t.moveOff), c.off);
    SameMasks(c.slow.Or(t.moveSlow), c.slow);
    SameMasks(c.block.Or(t.moveBlock).Without(t.moveAllow), c.block);
    if forall k: Mode :: !ModeChanges(c, t, k) {
      forall k: Mode
        ensures Covers(c.on.Or(t.moveOn), k) == Covers(c.on, k) && Covers(c.off.Or(t.moveOff), k) == Covers(c.off, k)
        ensures Covers(c.slow.Or(t.moveSlow), k) == Covers(c.slow, k)
        ensures Covers(c.block.Or(t.moveBlock).Without(t.moveAllow), k) == Covers(c.block, k)
      {
        assert !ModeChanges(c, t, k);
      }
    }
  }

  predicate MaskChangesAt(c: Cache, t: Thing, k: Mode) {
    || Covers(c.on.Or(t.moveOn), k) != Covers(c.on, k) || Covers(c.off.Or(t.moveOff), k) != Covers(c.off, k)
    || Covers(c.slow.Or(t.moveSlow), k) != Covers(c.slow, k)
    || Covers(c.block.Or(t.moveBlock).Without(t.moveAllow), k) != Covers(c.block, k)
  }

  lemma ModeIff(c: Cache, t: Thing, k: Mode)
    ensures ModeChanges(c, t, k) <==> MaskChangesAt(c, t, k)
  {
    OrCovers(c.on, t.moveOn, k);
    OrCovers(c.off, t.moveOff, k);
    OrCovers(c.slow, t.moveSlow, k);
    OrCovers(c.block, t.moveBlock, k);
    OrCovers(c.block.Or(t.moveBlock), t.moveAllow, k);
  }

  // ---------------------------------------------------------------------------------------
  // Where things are shown
  // ---------------------------------------------------------------------------------------

  /** Slot k is one of those for the thing: by the layer it is set to, or else by what it is. */
  predicate Belongs(t: Thing, k: Layer) {
    if t.mapLayer != 0 then
      || (1 <= t.mapLayer <= 2 && 1 <= k <= 2) || (3 <= t.mapLayer <= 5 && 3 <= k <= 5)
      || (6 <= t.mapLayer <= 7 && 6 <= k <= 7) || (8 <= t.mapLayer <= 9 && 8 <= k <= 9)
    else if t.moveType.flyLow || t.moveType.flyHigh then 8 <= k <= 9
    else if t.player || t.monster || t.canRoll then 6 <= k <= 7
    else if t.floor then k == 0
    else if t.noPick then 1 <= k <= 2
    else 3 <= k <= 5
  }

  predicate CanBeSeen(t: Thing) {
    !t.hiddenDm && !t.invisible && !t.blankFace
  }

  predicate SeenIn(t: Thing, k: Layer) {
    CanBeSeen(t) && Belongs(t, k)
  }

  /** It lies above every floor that can be seen. */
  predicate AboveFloors(stack: seq<Thing>, i: nat)
    requires i < |stack|
  {
    forall j :: i < j < |stack| ==> !SeenIn(stack[j], 0)
  }

  lemma BelongsIff(t: Thing, k: Layer)
    ensures Belongs(t, k) <==> Low(LayerOf(t)) == Low(k)
    ensures CanBeSeen(t) <==> Drawn(t)
  {}

  lemma {:induction false} AboveFloorIff(stack: seq<Thing>, t: Thing)
    ensures t in AboveFloor(stack) <==>
      exists i :: 0 <= i < |stack| && stack[i] == t && !SeenIn(t, 0) && AboveFloors(stack, i)
  {
    if stack != [] {
      var n := |stack| - 1;
      var s := stack[..n];
      AboveFloorIff(s, t);
      BelongsIff(stack[n], 0);
      forall i | 0 <= i < n
        ensures AboveFloors(stack, i) <==> AboveFloors(s, i) && !SeenIn(stack[n], 0)
      {
        assert forall j :: i < j < n ==> stack[j] == s[j];
        if AboveFloors(stack, i) {
          assert !SeenIn(stack[n], 0);
        }
      }
      if t in AboveFloor(s) && !SeenIn(stack[n], 0) {
        var i :| 0 <= i < n && s[i] == t && !SeenIn(t, 0) && AboveFloors(s, i);
        assert stack[i] == t && AboveFloors(stack, i);
      }
      if stack[n] == t && !SeenIn(t, 0) {
        assert AboveFloors(stack, n);
      }
      if i :| 0 <= i < |stack| && stack[i] == t && !SeenIn(t, 0) && AboveFloors(stack, i) {
        if i < n {
          assert s[i] == t && AboveFloors(s, i);
        }
      }
    }
  }

  /** Whatever is on the space, a slot above the floor shows only what belongs there and can be seen, and
      lies above every floor. */
  lemma {:induction false} FaceBelongs(stack: seq<Thing>, k: Layer, t: Thing)
    requires k > 0 && Faces(stack)[k] == Some(t)
    ensures SeenIn(t, k)
    ensures exists i :: 0 <= i < |stack| && stack[i] == t && AboveFloors(stack, i)
  {
    FacesAreOfTheirGroup(stack, k);
    BelongsIff(t, k);
    AboveFloorIff(stack, t);
  }

  /** The highest floor that can be seen. */
  lemma {:induction false} TopFloorIs(stack: seq<Thing>)
    ensures TopFloor(stack).Some? ==> SeenIn(TopFloor(stack).value, 0)
    ensures TopFloor(stack).Some? ==>
      exists i :: 0 <= i < |stack| && stack[i] == TopFloor(stack).value && AboveFloors(stack, i)
    ensures TopFloor(stack).None? ==> forall i :: 0 <= i < |stack| ==> !SeenIn(stack[i], 0)
  {
    if stack != [] {
      var n := |stack| - 1;
      var s := stack[..n];
      TopFloorIs(s);
      BelongsIff(stack[n], 0);
      if SeenIn(stack[n], 0) {
        assert AboveFloors(stack, n);
      } else if TopFloor(s).Some? {
        var i :| 0 <= i < n && s[i] == TopFloor(s).value && AboveFloors(s, i);
        forall j | i < j < |stack| ensures !SeenIn(stack[j], 0) {
          assert j < n ==> stack[j] == s[j];
        }
        assert stack[i] == s[i] && AboveFloors(stack, i);
      } else {
        forall j | 0 <= j < |stack| ensures !SeenIn(stack[j], 0) {
          assert j < n ==> stack[j] == s[j];
        }
      }
    }
  }

  /** The lowest slot shows the highest floor that can be seen. */
  lemma {:induction false} FloorIsShownIff(stack: seq<Thing>, t: Option<Thing>)
    requires t == Faces(stack)[0]
    ensures t.None? <==> forall i :: 0 <= i < |stack| ==> !SeenIn(stack[i], 0)
    ensures forall i :: 0 <= i < |stack| && SeenIn(stack[i], 0) && AboveFloors(stack, i) ==> t == Some(stack[i])
  {
    FloorIsTopFloor(stack);
    TopFloorIs(stack);
    if t.Some? {
      var j :| 0 <= j < |stack| && stack[j] == t.value && AboveFloors(stack, j);
      forall i | 0 <= i < |stack| && SeenIn(stack[i], 0) && AboveFloors(stack, i) ensures t == Some(stack[i]) {
        assert SeenIn(stack[j], 0);
      }
    }
  }

  // ---------------------------------------------------------------------------------------
  // What is shown of a group
  // ---------------------------------------------------------------------------------------

  /** No layer is set to the middle of the group that begins at low. */
  predicate NoneInMiddle(stack: seq<Thing>, low: Layer) {
    forall i :: 0 <= i < |stack| ==> stack[i].mapLayer != low + 1 && (low == 3 ==> stack[i].mapLayer != 5)
  }

  lemma NoneInMiddleStarts(stack: seq<Thing>, low: Layer)
    requires low in {1, 3, 6, 8} && NoneInMiddle(stack, low)
    ensures StartGroup(stack, low)
  {
    forall i | 0 <= i < |stack| ensures StartsGroup(stack[i], low) {}
  }

  /** x, higher on the stack, is not shown before t. */
  predicate YieldsTo(x: Thing, t: Thing, low: Layer) {
    low != 1 && x.visibility < t.visibility
  }

  /** The thing at i is the first choice of its group: above every floor, and nothing else of the group
      that lies there is more visible, or as visible and higher; on the ground only height counts. */
  predicate FirstChoice(stack: seq<Thing>, i: nat, low: Layer)
    requires i < |stack|
  {
    && SeenIn(stack[i], low) && AboveFloors(stack, i)
    && (forall j :: i < j < |stack| && SeenIn(stack[j], low) ==> YieldsTo(stack[j], stack[i], low))
    && (low != 1 ==> forall j :: 0 <= j < i && SeenIn(stack[j], low) && AboveFloors(stack, j) ==>
          stack[j].visibility <= stack[i].visibility)
  }

  lemma {:induction false} SortLast(p: seq<Thing>, x: Thing)
    ensures var s, r := Sort(p), Sort(p + [x]);
      && r != [] && (p != [] ==> s != [])
      && r[|r| - 1] == if p == [] || s[|s| - 1].visibility <= x.visibility then x else s[|s| - 1]
  {
    assert (p + [x])[..|p|] == p;
    if p != [] {
      assert Sort(p) == Insert(Sort(p[..|p| - 1]), p[|p| - 1]);
    }
  }

  /** The one that a group shows first: the last of its stable order, or of the stack. */
  function Chosen(stack: seq<Thing>, low: Layer): Option<Thing> {
    ChosenOf(Shown(stack, low), low)
  }

  function ChosenOf(things: seq<Thing>, low: Layer): Option<Thing> {
    var p := if low == 1 then things else Sort(things);
    if p == [] then None else Some(p[|p| - 1])
  }

  lemma {:induction false} ChosenOfAppend(p: seq<Thing>, x: Thing, low: Layer)
    ensures ChosenOf([], low) == None
    ensures ChosenOf(p + [x], low) ==
      if low == 1 || ChosenOf(p, low).None? || ChosenOf(p, low).value.visibility <= x.visibility then Some(x)
      else ChosenOf(p, low)
  {
    SortLast(p, x);
    SortKeepsLength(p);
  }

  lemma {:induction false} ShownStep(stack: seq<Thing>, low: Layer)
    requires low in {1, 3, 6, 8} && stack != [] && StartGroup(stack, low)
    ensures var s, t := stack[..|stack| - 1], stack[|stack| - 1];
      Shown(stack, low) ==
        if SeenIn(t, 0) then [] else if SeenIn(t, low) then Shown(s, low) + [t] else Shown(s, low)
  {
    var t := stack[|stack| - 1];
    BelongsIff(t, 0);
    BelongsIff(t, low);
    assert StartsGroup(t, low);
  }

  /** What is chosen once x lies on top as well. */
  function ChosenWith(before: Option<Thing>, x: Thing, low: Layer): Option<Thing> {
    if SeenIn(x, 0) then None
    else if SeenIn(x, low) && (low == 1 || before.None? || before.value.visibility <= x.visibility) then Some(x)
    else before
  }

  lemma {:induction false} ChosenStep(stack: seq<Thing>, low: Layer)
    requires low in {1, 3, 6, 8} && stack != [] && StartGroup(stack, low)
    ensures Chosen(stack, low) == ChosenWith(Chosen(stack[..|stack| - 1], low), stack[|stack| - 1], low)
  {
    ShownStep(stack, low);
    ChosenOfAppend(Shown(stack[..|stack| - 1], low), stack[|stack| - 1], low);
  }

  lemma {:induction false} ChosenIsSeen(stack: seq<Thing>, low: Layer)
    requires low in {1, 3, 6, 8} && StartGroup(stack, low) && Chosen(stack, low).Some?
    ensures exists j ::
      0 <= j < |stack| && stack[j] == Chosen(stack, low).value && SeenIn(stack[j], low) && AboveFloors(stack, j)
  {
    var n := |stack| - 1;
    var s := stack[..n];
    StartOfFront(stack, low);
    ChosenStep(stack, low);
    if Chosen(stack, low) == Some(stack[n]) && SeenIn(stack[n], low) {
      assert AboveFloors(stack, n);
    } else {
      ChosenIsSeen(s, low);
      var j :| 0 <= j < n && s[j] == Chosen(s, low).value && SeenIn(s[j], low) && AboveFloors(s, j);
      AboveFront(stack, j);
      assert stack[j] == s[j];
    }
  }

  lemma {:induction false} AboveFront(stack: seq<Thing>, j: nat)
    requires stack != [] && j < |stack| - 1
    ensures AboveFloors(stack, j) <==> AboveFloors(stack[..|stack| - 1], j) && !SeenIn(stack[|stack| - 1], 0)
  {
    var n := |stack| - 1;
    var s := stack[..n];
    assert forall k :: j < k < n ==> stack[k] == s[k];
    if AboveFloors(stack, j) {
      forall k | j < k < n ensures !SeenIn(s[k], 0) {
        assert s[k] == stack[k];
      }
    }
  }

  lemma {:induction false} StartOfFront(stack: seq<Thing>, low: Layer)
    requires stack != [] && StartGroup(stack, low)
    ensures StartGroup(stack[..|stack| - 1], low)
  {
    var s := stack[..|stack| - 1];
    forall i | 0 <= i < |s| ensures StartsGroup(s[i], low) {
      assert StartsGroup(stack[i], low);
    }
  }

  lemma {:induction false} FirstChoiceIsChosen(stack: seq<Thing>, i: nat, low: Layer)
    requires low in {1, 3, 6, 8} && StartGroup(stack, low) && i < |stack| && FirstChoice(stack, i, low)
    ensures Chosen(stack, low) == Some(stack[i])
  {
    var n := |stack| - 1;
    var s, t := stack[..n], stack[n];
    StartOfFront(stack, low);
    ChosenStep(stack, low);
    BelongsIff(stack[i], 0);
    BelongsIff(stack[i], low);
    if i < n {
      AboveFront(stack, i);
      forall j | 0 <= j < n && AboveFloors(s, j) ensures AboveFloors(stack, j) {
        AboveFront(stack, j);
      }
      assert forall j :: 0 <= j < n ==> s[j] == stack[j];
      FirstChoiceIsChosen(s, i, low);
    } else if Chosen(s, low).Some? {
      ChosenIsSeen(s, low);
      var j :| 0 <= j < n && s[j] == Chosen(s, low).value && SeenIn(s[j], low) && AboveFloors(s, j);
      AboveFront(stack, j);
    }
  }

  /** The first choice of a group is shown in one of its slots. */
  lemma {:induction false} FirstChoiceIsShown(stack: seq<Thing>, i: nat, low: Layer) returns (k: Layer)
    requires low in {1, 3, 6, 8} && NoneInMiddle(stack, low) && i < |stack| && FirstChoice(stack, i, low)
    ensures low <= k <= (if low == 3 then 5 else low + 1) && Faces(stack)[k] == Some(stack[i])
  {
    NoneInMiddleStarts(stack, low);
    FirstChoiceIsChosen(stack, i, low);
    FacesAreVisible(stack, low);
    var pile := Visible(stack, low);
    k := low + |pile| - 1;
    assert pile[|pile| - 1] == stack[i];
  }

  /** A thing set to a layer takes just that one, while it and those above it in the group are free; nothing
      else changes. */
  lemma {:induction false} SetLayerIsTaken(stack: seq<Thing>, t: Thing, before: seq<Option<Thing>>,
                                           after: seq<Option<Thing>>)
    requires CanBeSeen(t) && t.mapLayer != 0 && before == Faces(stack) && after == Faces(stack + [t])
    requires forall k: Layer :: t.mapLayer <= k && Belongs(t, k) ==> before[k] == None
    ensures after == before[t.mapLayer := Some(t)]
  {
    var l := t.mapLayer;
    assert (stack + [t])[..|stack|] == stack;
    assert after == AddLayer(before, l, High(l), t, Honours(l));
    assert before[l] == None && Taken(before, l, High(l)) == [];
  }

  /** How many things of a group lie above every floor. */
  function Waiting(stack: seq<Thing>, low: Layer): nat {
    if stack == [] || SeenIn(stack[|stack| - 1], 0) then 0
    else Waiting(stack[..|stack| - 1], low) + if SeenIn(stack[|stack| - 1], low) then 1 else 0
  }

  lemma {:induction false} WaitingIs(stack: seq<Thing>, low: Layer)
    requires low in {1, 3, 6, 8} && StartGroup(stack, low)
    ensures Waiting(stack, low) == |Shown(stack, low)|
  {
    if stack != [] {
      var n := |stack| - 1;
      BelongsIff(stack[n], 0);
      BelongsIff(stack[n], low);
      assert StartsGroup(stack[n], low);
      StartOfFront(stack, low);
      WaitingIs(stack[..n], low);
    }
  }

  lemma {:induction false} SortKeepsLength(p: seq<Thing>)
    ensures |Sort(p)| == |p|
  {
    if p != [] {
      SortKeepsLength(p[..|p| - 1]);
      InsertOneMore(Sort(p[..|p| - 1]), p[|p| - 1]);
    }
  }

  lemma {:induction false} InsertOneMore(p: seq<Thing>, x: Thing)
    ensures |Insert(p, x)| == |p| + 1
  {
    if p != [] {
      InsertOneMore(p[..|p| - 1], x);
    }
  }

  lemma {:induction false} VisibleLength(stack: seq<Thing>, low: Layer)
    requires low in {1, 3, 6, 8} && StartGroup(stack, low)
    ensures |Visible(stack, low)| == Min(Waiting(stack, low), if low == 3 then 3 else 2)
  {
    WaitingIs(stack, low);
    SortKeepsLength(Shown(stack, low));
  }

  /** The slots of a group are filled from below: as many as there are things for it, up to two, or three
      for things that can be picked up. */
  lemma {:induction false} SlotsAreFilled(stack: seq<Thing>, low: Layer, k: Layer, face: Option<Thing>)
    requires low in {1, 3, 6, 8} && NoneInMiddle(stack, low) && low <= k <= (if low == 3 then 5 else low + 1)
    requires face == Faces(stack)[k]
    ensures face.Some? <==> k - low < Waiting(stack, low)
  {
    NoneInMiddleStarts(stack, low);
    FacesAreVisible(stack, low);
    VisibleLength(stack, low);
    var n := |Visible(stack, low)|;
    if k - low < n {
      assert Faces(stack)[low + (k - low)] == Some(Visible(stack, low)[k - low]);
    }
  }
}
