/** A map space: its stack of objects and what is cached about it (common/object.cpp,
    common/map.cpp). */
module MapSpaces {
  import opened Common
  import opened Things
  import opened FaceLayers
  import opened SpaceSums

  datatype Flags = Flags(blocksView: bool, noMagic: bool, noCleric: bool, alive: bool, player: bool, needUpdate: bool)

  datatype Cache = Cache(block: MoveType, on: MoveType, off: MoveType, slow: MoveType,
                         flags: Flags, light: nat, pl: Option<nat>, faces: seq<Option<Thing>>)

  // ---------------------------------------------------------------------------------------
  // What the cache promises
  // ---------------------------------------------------------------------------------------

  /** The parts of the cache that movement, magic, sight and players rely on. */
  predicate Right(c: Cache, s: Sum, pl: Option<nat>) {
    var ok :=
      && c.block == s.block.Without(s.allow) && c.on == s.on && c.off == s.off && c.slow == s.slow
      && c.flags.blocksView == s.view && c.flags.noMagic == s.magic && c.flags.alive == s.alive
      && c.flags.player == pl.Some? && c.pl == pl;
    ok
  }

  /** Everything is as a walk over the stack would find it. */
  predicate Exact(c: Cache, stack: seq<Thing>) {
    var ok :=
      && Right(c, Total(stack), TopPlayer(stack))
      && c.flags.noCleric == Total(stack).cleric && c.light == Total(stack).light && c.faces == Faces(stack);
    ok
  }

  /** What holds at all times: the parts above are always right, prayer is never blocked and light
      never shown where there is no cause, and all the rest is right unless the space says that it
      needs an update. */
  predicate Sound(c: Cache, stack: seq<Thing>) {
    var ok :=
      && Right(c, Total(stack), TopPlayer(stack))
      && (c.flags.noCleric ==> Total(stack).cleric) && c.light <= Total(stack).light
      && (!c.flags.needUpdate ==> Exact(c, stack));
    ok
  }

  /** The test of object_update for an inserted object. */
  predicate NeedsUpdate(c: Cache, t: Thing) {
    || (t.blocksView && !c.flags.blocksView) || (t.noMagic && !c.flags.noMagic)
    || (t.damned && !c.flags.noCleric) || (t.alive && !c.flags.alive)
    || c.on.Or(t.moveOn) != c.on || c.off.Or(t.moveOff) != c.off
    || c.block.Or(t.moveBlock).Without(t.moveAllow) != c.block
    || c.slow.Or(t.moveSlow) != c.slow || t.player
  }

  /** Blocking is not a sum, as what one object blocks another may allow; but where the test finds no
      change, there is none. */
  lemma BlockingSkips(block: MoveType, allow: MoveType, b: MoveType, a: MoveType)
    requires block.Without(allow).Or(b).Without(a) == block.Without(allow)
    ensures block.Or(b).Without(allow.Or(a)) == block.Without(allow)
  {}

  lemma JoinSkips(c: Cache, s: Sum, pl: Option<nat>, t: Thing)
    requires Right(c, s, pl) && !NeedsUpdate(c, t)
    ensures Right(c, Join(s, Of(t)), pl)
  {
    if t.hiddenDm {
      JoinZero(s);
    } else {
      BlockingSkips(s.block, s.allow, t.moveBlock, t.moveAllow);
    }
  }

  function CacheOf(sum: Sum, player: Option<nat>, faces: seq<Option<Thing>>): Cache {
    Cache(sum.block.Without(sum.allow), sum.on, sum.off, sum.slow,
          Flags(sum.view, sum.magic, sum.cleric, sum.alive, player.Some?, false), sum.light, player, faces)
  }

  lemma Recomputed(stack: seq<Thing>, sum: Sum, player: Option<nat>, faces: seq<Option<Thing>>)
    requires sum == Total(stack) && player == TopPlayer(stack) && faces == Faces(stack)
    ensures Exact(CacheOf(sum, player, faces), stack)
  {}

  function Marked(c: Cache): Cache {
    c.(flags := c.flags.(needUpdate := true))
  }

  /** Leaving the cache alone when the test says so is right, wherever the object is put. */
  lemma SkipIsSound(c: Cache, stack: seq<Thing>, i: nat, t: Thing)
    requires i <= |stack| && Sound(c, stack) && !NeedsUpdate(c, t)
    ensures Sound(Marked(c), stack[..i] + [t] + stack[i..])
  {
    TotalOfInsert(stack, i, t);
    TopPlayerOfInsert(stack, i, t);
    JoinSkips(c, Total(stack), TopPlayer(stack), t);
  }

  /** What the test leaves out: after it skips, the no-cleric flag is right exactly when the object
      blocks no prayer or something else did, and the light exactly when the object is not brighter. */
  lemma SkipIsExactIff(c: Cache, stack: seq<Thing>, i: nat, t: Thing)
    requires i <= |stack| && Exact(c, stack) && !NeedsUpdate(c, t)
    ensures var after := Total(stack[..i] + [t] + stack[i..]);
      && (c.flags.noCleric == after.cleric <==> t.hiddenDm || !t.blocksPrayer || c.flags.noCleric)
      && (c.light == after.light <==> t.hiddenDm || t.glow <= c.light)
  {
    TotalOfInsert(stack, i, t);
  }

  /** A cache for a space without objects. */
  const EMPTY_CACHE := Cache(NO_MOVE, NO_MOVE, NO_MOVE, NO_MOVE, Flags(false, false, false, false, false, false),
                             0, None, NO_LAYERS)

  /** On an empty space, something that glows and blocks prayer is not noticed. */
  lemma PrayerAndLightAreSkipped()
    ensures var t := Plain(1, 1).(blocksPrayer := true, glow := 3);
      var c, after := EMPTY_CACHE, Total([] + [t] + []);
      && Exact(c, []) && !NeedsUpdate(c, t)
      && !c.flags.noCleric && after.cleric && c.light == 0 && after.light == 3
  {
    var t := Plain(1, 1).(blocksPrayer := true, glow := 3);
    SkipIsExactIff(EMPTY_CACHE, [], 0, t);
    TotalOfInsert([], 0, t);
  }

  // ---------------------------------------------------------------------------------------
  // Where objects are put
  // ---------------------------------------------------------------------------------------

  /** Objects that fly, cannot be picked up and are no floor are taken for spells. */
  predicate Spell(t: Thing) {
    t.noPick && t.moveType.Flies() && !t.floor
  }

  /** The number of objects below the lowest spell. */
  function BelowSpells(stack: seq<Thing>): (n: nat)
    ensures n <= |stack| && (n < |stack| ==> Spell(stack[n])) && forall k :: 0 <= k < n ==> !Spell(stack[k])
  {
    if stack == [] || Spell(stack[0]) then 0 else 1 + BelowSpells(stack[1..])
  }

  /** The number of objects up to the highest floor among the first n. */
  function UpToFloor(stack: seq<Thing>, n: nat): (m: nat)
    requires n <= |stack|
    ensures m <= n && forall k :: m <= k < n ==> !(stack[k].floor || stack[k].overlayFloor)
    ensures m > 0 ==> stack[m - 1].floor || stack[m - 1].overlayFloor
  {
    if n == 0 || stack[n - 1].floor || stack[n - 1].overlayFloor then n else UpToFloor(stack, n - 1)
  }

  /** The INS_ flags, and the originator if the object is to go below it. */
  datatype How = How(noMerge: bool, aboveFloorOnly: bool, onTop: bool, below: Option<nat>)

  /** How many objects find_insert_pos leaves below a new one. */
  function InsertPos(stack: seq<Thing>, how: How): (n: nat)
    ensures n <= |stack|
  {
    if how.onTop then |stack|
    else
      var n := BelowSpells(stack);
      if how.aboveFloorOnly then UpToFloor(stack, if n < |stack| then n + 1 else n) else n
  }

  predicate OnStack(stack: seq<Thing>, id: nat) {
    exists k :: 0 <= k < |stack| && stack[k].id == id
  }

  function IndexOf(stack: seq<Thing>, id: nat): (k: nat)
    requires OnStack(stack, id)
    ensures k < |stack| && stack[k].id == id
  {
    if stack[0].id == id then 0
    else
      assert OnStack(stack[1..], id) by {
        var k :| 0 <= k < |stack| && stack[k].id == id;
        assert stack[1..][k - 1].id == id;
      }
      1 + IndexOf(stack[1..], id)
  }

  function Place(stack: seq<Thing>, how: How): (n: nat)
    requires how.below.Some? ==> OnStack(stack, how.below.value)
    ensures n <= |stack|
  {
    if how.below.Some? then IndexOf(stack, how.below.value) else InsertPos(stack, how)
  }

  function PutAt(stack: seq<Thing>, how: How, t: Thing): seq<Thing>
    requires how.below.Some? ==> OnStack(stack, how.below.value)
  {
    var n := Place(stack, how);
    stack[..n] + [t] + stack[n..]
  }

  /** A new object lies directly below the one it is to go below, and all others stay in order. */
  lemma {:induction false} PutBelow(stack: seq<Thing>, how: How, t: Thing)
    requires how.below.Some? ==> OnStack(stack, how.below.value)
    ensures var (n, r) := (Place(stack, how), PutAt(stack, how, t));
      && |r| == |stack| + 1 && r[n] == t && r[..n] == stack[..n] && r[n + 1..] == stack[n..]
      && (how.below.Some? ==> n + 1 < |r| && r[n + 1].id == how.below.value)
  {}

  /** Above the floor only, it lies directly on the highest floor or overlay of what lies below the spells or
      is the lowest of them; at the bottom, if there is none. */
  lemma {:induction false} PutAboveFloor(stack: seq<Thing>, how: How, t: Thing)
    requires how.below == None && !how.onTop && how.aboveFloorOnly
    ensures var n := Place(stack, how);
      && n <= |stack| && (n > 0 ==> stack[n - 1].floor || stack[n - 1].overlayFloor)
      && forall k :: n <= k < |stack| && (stack[k].floor || stack[k].overlayFloor) ==>
           exists j :: 0 <= j < k && Spell(stack[j])
  {
    var b := BelowSpells(stack);
    forall k | Place(stack, how) <= k < |stack| && (stack[k].floor || stack[k].overlayFloor)
      ensures exists j :: 0 <= j < k && Spell(stack[j])
    {
      assert k > b && Spell(stack[b]);
    }
  }

  predicate SpellsOnTop(stack: seq<Thing>) {
    forall i, j :: 0 <= i < j < |stack| && Spell(stack[i]) ==> Spell(stack[j])
  }

  /** Something goes in among the spells, or leaves one below it that is none, unless it is put where
      the spells begin, below them if it is no spell itself, and above the rest if it is. */
  lemma {:induction false} InsertAtKeepsSpellsOnTopIff(stack: seq<Thing>, n: nat, t: Thing)
    requires SpellsOnTop(stack) && n <= |stack|
    ensures SpellsOnTop(stack[..n] + [t] + stack[n..])
      <==> if Spell(t) then n >= BelowSpells(stack) else n <= BelowSpells(stack)
  {
    var b, r := BelowSpells(stack), stack[..n] + [t] + stack[n..];
    SpellsFromIff(stack);
    Inserted(stack, n, t);
    InsertedAt(stack, n, t, r, b);
  }

  /** The spells are the things from the b-th on. */
  predicate SpellsFrom(stack: seq<Thing>, b: nat) {
    forall i :: 0 <= i < |stack| ==> (Spell(stack[i]) <==> i >= b)
  }

  lemma SpellsFromIff(stack: seq<Thing>)
    ensures SpellsOnTop(stack) <==> SpellsFrom(stack, BelowSpells(stack))
  {
    if SpellsOnTop(stack) {
      var b := BelowSpells(stack);
      forall i | 0 <= i < |stack| ensures Spell(stack[i]) <==> i >= b {
        assert i > b ==> Spell(stack[b]);
      }
    }
  }

  lemma Inserted<T>(s: seq<T>, n: nat, t: T)
    requires n <= |s|
    ensures var r := s[..n] + [t] + s[n..];
      && |r| == |s| + 1 && r[n] == t
      && (forall i :: 0 <= i < n ==> r[i] == s[i]) && (forall i :: n < i < |r| ==> r[i] == s[i - 1])
  {}

  lemma InsertedAt(stack: seq<Thing>, n: nat, t: Thing, r: seq<Thing>, b: nat)
    requires SpellsFrom(stack, b) && n <= |stack| && b <= |stack| && |r| == |stack| + 1 && r[n] == t
    requires forall i :: 0 <= i < n ==> r[i] == stack[i]
    requires forall i :: n < i < |r| ==> r[i] == stack[i - 1]
    ensures SpellsOnTop(r) <==> if Spell(t) then n >= b else n <= b
  {
    if Spell(t) && n < b {
      assert r[b] == stack[b - 1];
    } else if !Spell(t) && n > b {
      assert r[b] == stack[b];
    } else {
      var from := if Spell(t) then b else b + 1;
      forall i | 0 <= i < |r| ensures Spell(r[i]) <==> i >= from {
        if i < n {
          assert r[i] == stack[i];
        } else if i > n {
          assert r[i] == stack[i - 1];
        }
      }
    }
  }

  predicate Flooring(t: Thing) {
    t.floor || t.overlayFloor
  }

  /** Plain insertion always keeps the spells above everything else. Insertion on top does exactly for a
      spell or where there are none; insertion above the floor exactly if the lowest spell is no floor
      overlay or, for a spell, if there is none or either it or what is below it is the floor. */
  lemma {:induction false} InsertKeepsSpellsOnTopIff(stack: seq<Thing>, how: How, t: Thing)
    requires SpellsOnTop(stack) && how.below == None
    ensures SpellsOnTop(PutAt(stack, how, t)) <==> SpellsStay(stack, how, Spell(t), BelowSpells(stack))
    ensures !how.onTop && !how.aboveFloorOnly ==> Place(stack, how) == BelowSpells(stack)
  {
    InsertAtKeepsSpellsOnTopIff(stack, Place(stack, how), t);
    PlaceIs(stack, how, Spell(t), BelowSpells(stack));
  }

  /** Of a stack where the spells begin at b. */
  predicate SpellsStay(stack: seq<Thing>, how: How, spell: bool, b: nat)
    requires b <= |stack|
  {
    if how.onTop then spell || b == |stack|
    else if !how.aboveFloorOnly then true
    else if spell then b == 0 || Flooring(stack[b - 1]) || (b < |stack| && stack[b].overlayFloor)
    else b == |stack| || !stack[b].overlayFloor
  }

  /** The place found against where the spells begin. */
  lemma PlaceIs(stack: seq<Thing>, how: How, spell: bool, b: nat)
    requires how.below == None && b == BelowSpells(stack)
    ensures SpellsStay(stack, how, spell, b)
      <==> if spell then Place(stack, how) >= b else Place(stack, how) <= b
    ensures !how.onTop && !how.aboveFloorOnly ==> Place(stack, how) == b
  {}

  // ---------------------------------------------------------------------------------------
  // Merging
  // ---------------------------------------------------------------------------------------

  /** b with the number, the light and the looks of a. */
  function Like(b: Thing, a: Thing): Thing {
    b.(id := a.id, nrof := a.nrof, glow := a.glow, hiddenDm := a.hiddenDm, invisible := a.invisible,
       blankFace := a.blankFace, visibility := a.visibility)
  }

  /** object_can_merge: all the rest is compared. */
  predicate CanMerge(a: Thing, b: Thing) {
    && a.id != b.id && a.nrof + b.nrof < 0x8000_0000 && !a.applied && !b.applied
    && Like(b, a) == a
  }

  /** Only things that agree in all that the code compares are merged: in what they are and do, in how they
      move and are moved over, and in where they are shown. */
  lemma CanMergeIff(a: Thing, b: Thing)
    ensures CanMerge(a, b) <==>
      && a.id != b.id && a.nrof + b.nrof <= 0x7fff_ffff && !a.applied && !b.applied
      && a.kind == b.kind && a.player == b.player && a.lamp == b.lamp && a.spellEffect == b.spellEffect
      && a.alive == b.alive && a.noMagic == b.noMagic && a.damned == b.damned && a.blocksPrayer == b.blocksPrayer
      && a.blocksView == b.blocksView && a.moveType == b.moveType && a.moveBlock == b.moveBlock
      && a.moveAllow == b.moveAllow && a.moveOn == b.moveOn && a.moveOff == b.moveOff && a.moveSlow == b.moveSlow
      && a.mapLayer == b.mapLayer && a.monster == b.monster && a.canRoll == b.canRoll
      && a.floor == b.floor && a.overlayFloor == b.overlayFloor && a.noPick == b.noPick
  {}

  function Grown(t: Thing, spot: Thing): Thing
    requires CanMerge(t, spot)
  {
    t.(nrof := t.nrof + spot.nrof)
  }

  /** The new object takes up everything on the stack it can merge with, from the bottom. */
  function Absorb(t: Thing, stack: seq<Thing>): (r: (Thing, seq<Thing>))
    ensures r.0 == t.(nrof := r.0.nrof) && t.nrof <= r.0.nrof
    ensures |r.1| <= |stack|
    decreases |stack|
  {
    if stack == [] then (t, [])
    else if CanMerge(t, stack[0]) then Absorb(Grown(t, stack[0]), stack[1..])
    else
      var (t', rest) := Absorb(t, stack[1..]);
      (t', [stack[0]] + rest)
  }

  function CountAll(stack: seq<Thing>): nat {
    if stack == [] then 0 else stack[0].nrof + CountAll(stack[1..])
  }

  /** Objects without a count stand for one each. */
  function Lone(stack: seq<Thing>): nat {
    if stack == [] then 0 else (if stack[0].nrof == 0 then 1 else 0) + Lone(stack[1..])
  }

  /** Merging loses nothing that is counted; an object without a count disappears. */
  lemma {:induction false} AbsorbKeepsCount(t: Thing, stack: seq<Thing>)
    ensures var (t', rest) := Absorb(t, stack);
      && t'.nrof + CountAll(rest) == t.nrof + CountAll(stack)
      && |stack| - |rest| >= Lone(stack) - Lone(rest) >= 0
    decreases |stack|
  {
    if stack != [] {
      var rest := Absorb(t, stack[1..]).1;
      if CanMerge(t, stack[0]) {
        AbsorbKeepsCount(Grown(t, stack[0]), stack[1..]);
      } else {
        AbsorbKeepsCount(t, stack[1..]);
        assert ([stack[0]] + rest)[1..] == rest;
      }
    }
  }

  lemma LikeStays(b: Thing, t: Thing, n: Count)
    requires Like(b, t) == t
    ensures Like(b, t.(nrof := n)) == t.(nrof := n)
  {
    var m := t.(nrof := n);
    assert Like(b, m) == Like(b, t).(nrof := n);
  }

  /** How many t stands for does not matter for a lone object. */
  lemma LoneToMore(t: Thing, n: Count, b: Thing)
    requires CanMerge(t, b) && b.nrof == 0
    ensures CanMerge(t.(nrof := n), b)
  {
    LikeStays(b, t, n);
  }

  /** How many lone objects there are that t can be merged with. */
  function LoneMatches(t: Thing, stack: seq<Thing>): nat {
    if stack == [] then 0
    else (if stack[0].nrof == 0 && CanMerge(t, stack[0]) then 1 else 0) + LoneMatches(t, stack[1..])
  }

  lemma {:induction false} MoreMatchesTheSame(t: Thing, n: Count, stack: seq<Thing>)
    ensures LoneMatches(t.(nrof := n), stack) == LoneMatches(t, stack)
  {
    if stack != [] {
      MoreMatchesTheSame(t, n, stack[1..]);
      if stack[0].nrof == 0 {
        LoneToMoreIff(t, n, stack[0]);
      }
    }
  }

  lemma LoneToMoreIff(t: Thing, n: Count, b: Thing)
    requires b.nrof == 0
    ensures CanMerge(t.(nrof := n), b) <==> CanMerge(t, b)
  {
    var t' := t.(nrof := n);
    assert t == t'.(nrof := t.nrof);
    if CanMerge(t, b) {
      LoneToMore(t, n, b);
    }
    if CanMerge(t', b) {
      LoneToMore(t', t.nrof, b);
    }
  }

  /** Counting a lone object as one, what is lost is exactly the lone objects that there were to merge with. */
  lemma {:induction false} AbsorbLoses(t: Thing, stack: seq<Thing>)
    ensures var (t', rest) := Absorb(t, stack);
      t'.nrof + CountAll(rest) + Lone(rest) + LoneMatches(t, stack) == t.nrof + CountAll(stack) + Lone(stack)
    decreases |stack|
  {
    if stack != [] {
      if CanMerge(t, stack[0]) {
        AbsorbLoses(Grown(t, stack[0]), stack[1..]);
        MoreMatchesTheSame(t, t.nrof + stack[0].nrof, stack[1..]);
      } else {
        AbsorbLoses(t, stack[1..]);
        ConsCounts(stack[0], Absorb(t, stack[1..]).1);
      }
    }
  }

  lemma ConsCounts(x: Thing, rest: seq<Thing>)
    ensures CountAll([x] + rest) == x.nrof + CountAll(rest)
    ensures Lone([x] + rest) == (if x.nrof == 0 then 1 else 0) + Lone(rest)
  {
    assert ([x] + rest)[1..] == rest;
  }

  /** There is something without a count that t can be merged with. */
  predicate TakesLone(t: Thing, stack: seq<Thing>) {
    exists k :: 0 <= k < |stack| && stack[k].nrof == 0 && CanMerge(t, stack[k])
  }

  lemma {:induction false} MatchesIff(t: Thing, stack: seq<Thing>)
    ensures LoneMatches(t, stack) == 0 <==> !TakesLone(t, stack)
  {
    if stack != [] {
      MatchesIff(t, stack[1..]);
      if TakesLone(t, stack[1..]) {
        var k :| 0 <= k < |stack[1..]| && stack[1..][k].nrof == 0 && CanMerge(t, stack[1..][k]);
        assert stack[k + 1] == stack[1..][k];
      }
    }
  }

  /** So nothing is lost exactly when there was none. */
  lemma {:induction false} AbsorbKeepsAllIff(t: Thing, stack: seq<Thing>)
    ensures var (t', rest) := Absorb(t, stack);
      t'.nrof + CountAll(rest) + Lone(rest) == t.nrof + CountAll(stack) + Lone(stack) <==> !TakesLone(t, stack)
  {
    AbsorbLoses(t, stack);
    MatchesIff(t, stack);
  }

  /** Something plain. */
  function Plain(id: nat, nrof: Count): Thing {
    Thing(id, 0, nrof, false, false, false, false, false, false, false, false, false, false,
      NO_MOVE, NO_MOVE, NO_MOVE, NO_MOVE, NO_MOVE, NO_MOVE, 0, false, false, 0, 0, false, false, false, false, false)
  }

  /** Five put where a lone one of the kind lies: five are left of six. */
  lemma LoneOneDisappears()
    ensures Absorb(Plain(1, 5), [Plain(2, 0)]) == (Plain(1, 5), []) && Lone([Plain(2, 0)]) == 1
  {
    assert CanMerge(Plain(1, 5), Plain(2, 0));
    assert [Plain(2, 0)][1..] == [];
  }

  lemma StillApart(t: Thing, t': Thing, spot: Thing)
    requires t' == t.(nrof := t'.nrof) && t.nrof <= t'.nrof && !CanMerge(t, spot)
    ensures !CanMerge(t', spot)
  {}

  predicate NothingToMerge(t: Thing, stack: seq<Thing>) {
    forall k :: 0 <= k < |stack| ==> !CanMerge(t, stack[k])
  }

  /** Nothing is left that the object could still merge with. */
  lemma {:induction false} AbsorbIsComplete(t: Thing, stack: seq<Thing>)
    ensures NothingToMerge(Absorb(t, stack).0, Absorb(t, stack).1)
    decreases |stack|
  {
    if stack != [] {
      if CanMerge(t, stack[0]) {
        AbsorbIsComplete(Grown(t, stack[0]), stack[1..]);
      } else {
        AbsorbIsComplete(t, stack[1..]);
        StillApart(t, Absorb(t, stack[1..]).0, stack[0]);
      }
    }
  }

  predicate Distinct(stack: seq<Thing>) {
    forall i, j :: 0 <= i < j < |stack| ==> stack[i].id != stack[j].id
  }

  predicate Absent(stack: seq<Thing>, id: nat) {
    forall k :: 0 <= k < |stack| ==> stack[k].id != id
  }

  /** Part of the way through the stack: what is done stays, the rest is still to be looked at. */
  ghost predicate Absorbing(op: Thing, all: seq<Thing>, op': Thing, done: seq<Thing>, rest: seq<Thing>) {
    && Absorb(op, all).0 == Absorb(op', rest).0
    && Absorb(op, all).1 == done + Absorb(op', rest).1
  }

  lemma AbsorbTakes(op: Thing, all: seq<Thing>, op': Thing, done: seq<Thing>, rest: seq<Thing>)
    requires Absorbing(op, all, op', done, rest) && rest != [] && CanMerge(op', rest[0])
    ensures Absorbing(op, all, Grown(op', rest[0]), done, rest[1..])
  {}

  lemma AbsorbLeaves(op: Thing, all: seq<Thing>, op': Thing, done: seq<Thing>, rest: seq<Thing>)
    requires Absorbing(op, all, op', done, rest) && rest != [] && !CanMerge(op', rest[0])
    ensures Absorbing(op, all, op', done + [rest[0]], rest[1..])
  {
    var b := Absorb(op', rest[1..]).1;
    assert done + ([rest[0]] + b) == done + [rest[0]] + b;
  }

  lemma Around<T>(s: seq<T>, j: nat)
    requires j < |s|
    ensures var r := s[..j] + s[j + 1..]; r[..j] == s[..j] && r[j..] == s[j..][1..]
    ensures s[j..][0] == s[j] && s[j..][1..] == s[j + 1..] && s[..j] + [s[j]] == s[..j + 1]
  {}

  /** The object and the rest of the stack after the merging, if there is any. */
  function AfterMerge(op: Thing, stack: seq<Thing>, how: How): (Thing, seq<Thing>) {
    if op.nrof != 0 && !how.noMerge && !op.spellEffect then Absorb(op, stack) else (op, stack)
  }

  /** Only lamps stay lit when they come to lie on the ground. */
  function Dropped(op: Thing): Thing {
    op.(applied := op.lamp && op.applied)
  }

  lemma DroppedIs(op: Thing, n: Count)
    ensures Dropped(op.(nrof := n)) == op.(nrof := n, applied := op.lamp && op.applied)
  {}

  lemma {:induction false} MergedIs(op: Thing, stack: seq<Thing>, how: How) returns (n: Count)
    ensures op.nrof <= n && AfterMerge(op, stack, how).0 == op.(nrof := n)
  {
    n := op.nrof;
    SameNumber(op);
    if op.nrof != 0 && !how.noMerge && !op.spellEffect {
      n := AbsorbedIs(op, stack);
    }
  }

  lemma SameNumber(op: Thing)
    ensures op == op.(nrof := op.nrof)
  {}

  lemma {:induction false} AbsorbedIs(t: Thing, stack: seq<Thing>) returns (n: Count)
    ensures t.nrof <= n && Absorb(t, stack).0 == t.(nrof := n)
  {
    var r := Absorb(t, stack);
    n := r.0.nrof;
  }

  /** What comes to lie on the map is the object itself, with the number it has grown to; only a lamp is
      still applied. */
  lemma {:induction false} WhatIsPut(op: Thing, stack: seq<Thing>, how: How) returns (n: Count)
    ensures op.nrof <= n
    ensures Dropped(AfterMerge(op, stack, how).0) == op.(nrof := n, applied := op.lamp && op.applied)
  {
    n := MergedIs(op, stack, how);
    DroppedIs(op, n);
  }

  lemma {:induction false} BelowSpellsIs(stack: seq<Thing>, n: nat)
    requires n <= |stack| && (n < |stack| ==> Spell(stack[n])) && forall k :: 0 <= k < n ==> !Spell(stack[k])
    ensures BelowSpells(stack) == n
  {
    if n > 0 {
      BelowSpellsIs(stack[1..], n - 1);
    }
  }

  datatype Action = Inserted | Removed | Changed | FaceOnly

  /** A space of a map. */
  class MapSpace {
    var stack: seq<Thing>
    var moveBlock: MoveType
    var moveOn: MoveType
    var moveOff: MoveType
    var moveSlow: MoveType
    var flags: Flags
    var light: nat
    var pl: Option<nat>
    const faces: array<Option<Thing>>
    /** The map is being saved and will be freed. */
    const saving: bool

    ghost function Cached(): Cache
      reads this, faces
    {
      Cache(moveBlock, moveOn, moveOff, moveSlow, flags, light, pl, faces[..])
    }

    ghost predicate Valid()
      reads this, faces
    {
      faces.Length == MAP_LAYERS && Distinct(stack) && (saving || Sound(Cached(), stack))
    }

    constructor (saving: bool)
      ensures Valid() && fresh(faces) && stack == [] && Exact(Cached(), []) && this.saving == saving
    {
      stack, this.saving := [], saving;
      moveBlock, moveOn, moveOff, moveSlow := NO_MOVE, NO_MOVE, NO_MOVE, NO_MOVE;
      flags, light, pl := Flags(false, false, false, false, false, false), 0, None;
      faces := new Option<Thing>[MAP_LAYERS](_ => None);
    }

    /** A space in use that does not ask for an update has everything right. */
    lemma ReadyIsExact()
      requires Valid() && !saving && !flags.needUpdate
      ensures Exact(Cached(), stack)
    {}

    /** One object's face. */
    static method DrawThing(t: Thing, layers: array<Option<Thing>>)
      requires layers.Length == MAP_LAYERS && !t.hiddenDm
      modifies layers
      ensures layers[..] == Draw(old(layers[..]), t)
    {
      if !t.invisible && !t.blankFace {
        if t.mapLayer != 0 {
          AddFaceLayer(t.mapLayer, High(t.mapLayer), t, layers, Honours(t.mapLayer));
        } else if t.moveType.Flies() {
          AddFaceLayer(8, 9, t, layers, true);
        } else if t.player || t.monster || t.canRoll {
          AddFaceLayer(6, 7, t, layers, true);
        } else if t.floor {
          layers[0] := Some(t);
          forall k | 1 <= k < MAP_LAYERS {
            layers[k] := None;
          }
        } else if t.noPick {
          AddFaceLayer(1, 2, t, layers, false);
        } else {
          AddFaceLayer(3, 5, t, layers, true);
        }
      }
    }

    /** The masks, the flags and the light with one more object. */
    static method Tally(tmp: Thing, sum: Sum) returns (sum': Sum)
      requires !tmp.hiddenDm
      ensures sum' == Join(sum, Of(tmp))
    {
      var light := if tmp.glow > sum.light then tmp.glow else sum.light;
      sum' := Sum(sum.block.Or(tmp.moveBlock), sum.allow.Or(tmp.moveAllow), sum.on.Or(tmp.moveOn),
                  sum.off.Or(tmp.moveOff), sum.slow.Or(tmp.moveSlow),
                  sum.view || tmp.blocksView, sum.magic || tmp.noMagic,
                  sum.cleric || tmp.damned || tmp.blocksPrayer, sum.alive || tmp.alive, light);
    }

    /** What update_position does with one object. */
    static method Visit(tmp: Thing, layers: array<Option<Thing>>, sum: Sum, player: Option<nat>)
      returns (sum': Sum, player': Option<nat>)
      requires layers.Length == MAP_LAYERS
      modifies layers
      ensures sum' == Join(sum, Of(tmp)) && layers[..] == Draw(old(layers[..]), tmp)
      ensures player' == if tmp.player && !tmp.hiddenDm then Some(tmp.id) else player
    {
      player' := player;
      if tmp.hiddenDm {
        JoinZero(sum);
        return sum, player;
      }
      if tmp.player {
        player' := Some(tmp.id);
      }
      DrawThing(tmp, layers);
      sum' := Tally(tmp, sum);
    }

    /** The walk over the stack that everything cached comes from. */
    method Walk(layers: array<Option<Thing>>) returns (sum: Sum, player: Option<nat>)
      requires layers.Length == MAP_LAYERS && layers[..] == NO_LAYERS
      modifies layers
      ensures sum == Total(stack) && player == TopPlayer(stack) && layers[..] == Faces(stack)
    {
      sum, player := ZERO, None;
      var i := 0;
      while i < |stack|
        invariant 0 <= i <= |stack|
        invariant sum == Total(stack[..i]) && player == TopPlayer(stack[..i])
        invariant layers[..] == Faces(stack[..i])
      {
        assert stack[..i + 1][..i] == stack[..i];
        sum, player := Visit(stack[i], layers, sum, player);
        i := i + 1;
      }
      assert stack[..i] == stack;
    }

    /** update_position. */
    method UpdatePosition()
      requires faces.Length == MAP_LAYERS
      modifies `moveBlock, `moveOn, `moveOff, `moveSlow, `flags, `light, `pl, faces
      ensures !old(flags.needUpdate) ==> Cached() == old(Cached())
      ensures old(flags.needUpdate) ==> Exact(Cached(), stack) && !flags.needUpdate
    {
      if !flags.needUpdate {
        return;
      }
      var layers := new Option<Thing>[MAP_LAYERS](_ => None);
      assert layers[..] == NO_LAYERS;
      var sum, player := Walk(layers);
      Recomputed(stack, sum, player, layers[..]);
      Store(sum, player, layers);
    }

    /** The end of update_position: all is copied, faces with nothing to show as well. */
    method Store(sum: Sum, player: Option<nat>, layers: array<Option<Thing>>)
      requires faces.Length == layers.Length == MAP_LAYERS && layers != faces
      modifies `moveBlock, `moveOn, `moveOff, `moveSlow, `flags, `light, `pl, faces
      ensures Cached() == CacheOf(sum, player, layers[..]) && layers[..] == old(layers[..])
    {
      flags := Flags(sum.view, sum.magic, sum.cleric, sum.alive, player.Some?, false);
      moveBlock, moveOn, moveOff, moveSlow := sum.block.Without(sum.allow), sum.on, sum.off, sum.slow;
      light, pl := sum.light, player;
      forall k | 0 <= k < MAP_LAYERS {
        faces[k] := layers[k];
      }
      assert faces[..] == layers[..];
    }

    /** object_update for an object of this space. */
    method Update(op: Thing, action: Action)
      requires faces.Length == MAP_LAYERS
      modifies `moveBlock, `moveOn, `moveOff, `moveSlow, `flags, `light, `pl, faces
      ensures saving ==> Cached() == old(Cached())
      ensures !saving
                && (action.Removed? || action.Changed? || (action.Inserted? && NeedsUpdate(old(Cached()), op))) ==>
                Exact(Cached(), stack) && !flags.needUpdate
      ensures !saving && (action.FaceOnly? || (action.Inserted? && !NeedsUpdate(old(Cached()), op))) ==>
                Cached() == Marked(old(Cached()))
    {
      if saving {
        return;
      }
      var updateNow := false;
      var was := flags;
      flags := was.(needUpdate := true);
      match action {
        case Inserted =>
          if op.blocksView && !was.blocksView {
            updateNow := true;
          }
          if op.noMagic && !was.noMagic {
            updateNow := true;
          }
          if op.damned && !was.noCleric {
            updateNow := true;
          }
          if op.alive && !was.alive {
            updateNow := true;
          }
          if moveOn.Or(op.moveOn) != moveOn {
            updateNow := true;
          }
          if moveOff.Or(op.moveOff) != moveOff {
            updateNow := true;
          }
          if moveBlock.Or(op.moveBlock).Without(op.moveAllow) != moveBlock {
            updateNow := true;
          }
          if moveSlow.Or(op.moveSlow) != moveSlow {
            updateNow := true;
          }
          if op.player {
            updateNow := true;
          }
        case Removed => updateNow := true;
        case Changed => updateNow := true;
        case FaceOnly =>
      }
      if updateNow {
        UpdatePosition();
      }
    }

    /** object_remove for the object at place i of the stack. */
    method RemoveAt(i: nat)
      requires Valid() && i < |stack|
      modifies this, faces
      ensures Valid() && stack == old(stack[..i] + stack[i + 1..])
      ensures saving ==> Cached() == old(Cached())
      ensures !saving ==> Exact(Cached(), stack)
    {
      stack := stack[..i] + stack[i + 1..];
      if saving {
        return;
      }
      if stack == [] {
        flags := Flags(false, false, false, false, false, true);
        UpdatePosition();
      } else {
        Update(stack[|stack| - 1], Removed);
      }
    }

    /** One spot is taken up and removed, or stays. */
    method MergeSpot(ghost op: Thing, now: Thing, j: nat, ghost all: seq<Thing>) returns (op': Thing, j': nat)
      requires Valid() && j < |stack| && Absorbing(op, all, now, stack[..j], stack[j..])
      modifies this, faces
      ensures Valid() && j <= j' <= |stack| && Absorbing(op, all, op', stack[..j'], stack[j'..])
      ensures if j' == j then stack == old(stack[..j] + stack[j + 1..]) else stack == old(stack) && j' == j + 1
      ensures j' != j ==> Cached() == old(Cached())
    {
      ghost var done, rest := stack[..j], stack[j..];
      var spot := stack[j];
      if CanMerge(now, spot) {
        AbsorbTakes(op, all, now, done, rest);
        op', j' := Grown(now, spot), j;
        Around(stack, j);
        RemoveAt(j);
      } else {
        AbsorbLeaves(op, all, now, done, rest);
        Around(stack, j);
        op', j' := now, j + 1;
      }
    }

    /** The merging at the beginning of object_insert_in_map, from the bottom of the stack. */
    method MergeSpots(op: Thing) returns (op': Thing)
      requires Valid() && Absent(stack, op.id)
      modifies this, faces
      ensures Valid() && Absent(stack, op.id)
      ensures op' == Absorb(op, old(stack)).0 && stack == Absorb(op, old(stack)).1
      ensures stack == old(stack) ==> Cached() == old(Cached())
    {
      op' := op;
      var j: nat := 0;
      ghost var all := stack;
      while j < |stack|
        invariant j <= |stack| && Valid() && Absent(stack, op.id)
        invariant Absorbing(op, all, op', stack[..j], stack[j..])
        invariant stack == all || |stack| < |all|
        invariant stack == all ==> Cached() == old(Cached())
        decreases |stack| - j
      {
        op', j := MergeSpot(op, op', j, all);
      }
      assert stack[j..] == [] && stack[..j] == stack;
    }

    /** find_insert_pos: how many objects stay below a new one. */
    method FindInsertPos(how: How) returns (n: nat)
      ensures n == InsertPos(stack, how)
    {
      if how.onTop {
        return |stack|;
      }
      var floor, i := 0, 0;
      while i < |stack|
        invariant 0 <= i <= |stack| && floor == UpToFloor(stack, i)
        invariant forall k :: 0 <= k < i ==> !Spell(stack[k])
      {
        var tmp := stack[i];
        if tmp.floor || tmp.overlayFloor {
          floor := i + 1;
        }
        if tmp.noPick && tmp.moveType.Flies() && !tmp.floor {
          BelowSpellsIs(stack, i);
          return if how.aboveFloorOnly then floor else i;
        }
        i := i + 1;
      }
      BelowSpellsIs(stack, i);
      n := if how.aboveFloorOnly then floor else i;
    }

    method MergeIfPile(op: Thing, how: How) returns (op': Thing)
      requires Valid() && Absent(stack, op.id)
      modifies this, faces
      ensures Valid() && Absent(stack, op.id) && op'.id == op.id
      ensures op' == AfterMerge(op, old(stack), how).0 && stack == AfterMerge(op, old(stack), how).1
      ensures stack == old(stack) ==> Cached() == old(Cached())
    {
      op' := op;
      if op.nrof != 0 && !how.noMerge && !op.spellEffect {
        op' := MergeSpots(op);
      }
    }

    method FindPlace(how: How) returns (n: nat)
      requires how.below.Some? ==> OnStack(stack, how.below.value)
      ensures n == Place(stack, how)
    {
      if how.below.Some? {
        n := IndexOf(stack, how.below.value);
      } else {
        n := FindInsertPos(how);
      }
    }

    static method Drop(op: Thing) returns (op': Thing)
      ensures op' == Dropped(op) && op'.id == op.id
    {
      op' := if op.lamp then op else op.(applied := false);
    }

    /** object_insert_in_map, from the merging to the update of the space. */
    method Insert(op: Thing, how: How) returns (op': Thing)
      requires Valid() && Absent(stack, op.id)
      requires how.below.Some? ==> OnStack(AfterMerge(op, stack, how).1, how.below.value)
      modifies this, faces
      ensures Valid() && op' == Dropped(AfterMerge(op, old(stack), how).0)
      ensures stack == PutAt(AfterMerge(op, old(stack), how).1, how, op')
    {
      var merged := MergeIfPile(op, how);
      op' := Drop(merged);
      var n := FindPlace(how);
      PutIn(op', n);
    }

    /** The new object in its place, and the update of what is cached. */
    method PutIn(op: Thing, n: nat)
      requires Valid() && Absent(stack, op.id) && n <= |stack|
      modifies this, faces
      ensures Valid() && stack == old(stack[..n] + [op] + stack[n..])
      ensures !saving && NeedsUpdate(old(Cached()), op) ==> Exact(Cached(), stack)
      ensures !saving && !NeedsUpdate(old(Cached()), op) ==> Cached() == Marked(old(Cached()))
    {
      if !saving && !NeedsUpdate(Cached(), op) {
        SkipIsSound(Cached(), stack, n, op);
      }
      stack := stack[..n] + [op] + stack[n..];
      Update(op, Inserted);
    }

    /** An object of the space changes in some way, or only in its face. */
    method Change(i: nat, t: Thing, faceOnly: bool)
      requires Valid() && i < |stack| && t.id == stack[i].id
      requires faceOnly ==> t == stack[i].(blankFace := t.blankFace, visibility := t.visibility)
      modifies this, faces
      ensures Valid() && stack == old(stack[i := t])
      ensures !saving && !faceOnly ==> Exact(Cached(), stack)
    {
      if faceOnly {
        FaceDoesNotCount(stack, i, t);
      }
      stack := stack[i := t];
      Update(t, if faceOnly then FaceOnly else Changed);
    }
  }

  lemma FaceDoesNotCount(stack: seq<Thing>, i: nat, t: Thing)
    requires i < |stack| && t == stack[i].(blankFace := t.blankFace, visibility := t.visibility)
    ensures Total(stack[i := t]) == Total(stack) && TopPlayer(stack[i := t]) == TopPlayer(stack)
  {
    Replaced(stack, i, t);
    SameSums(stack[..i], stack[i], t, stack[i + 1..]);
  }

  lemma Replaced<T>(s: seq<T>, i: nat, t: T)
    requires i < |s|
    ensures s == s[..i] + [s[i]] + s[i + 1..] && s[i := t] == s[..i] + [t] + s[i + 1..]
  {}

  lemma SameSums(a: seq<Thing>, t: Thing, u: Thing, b: seq<Thing>)
    requires Of(t) == Of(u) && t.player == u.player && t.hiddenDm == u.hiddenDm && t.id == u.id
    ensures Total(a + [t] + b) == Total(a + [u] + b) && TopPlayer(a + [t] + b) == TopPlayer(a + [u] + b)
  {
    TotalSplice(a, t, b, Total(a), Of(t), Total(b));
    TotalSplice(a, u, b, Total(a), Of(u), Total(b));
    TopPlayerConcat(a + [t], b);
    TopPlayerConcat(a + [u], b);
    assert (a + [t])[..|a|] == a && (a + [u])[..|a|] == a;
  }
}
