/** The faces shown for a map space: a stream of objects kept in a few slots a group
    (common/map.cpp). */
module FaceLayers {
  import opened Common
  import opened Things

  // ---------------------------------------------------------------------------------------
  // Sorting by visibility, keeping the order of the stack
  // ---------------------------------------------------------------------------------------

  predicate Sorted(s: seq<Thing>) {
    forall i, j :: 0 <= i < j < |s| ==> s[i].visibility <= s[j].visibility
  }

  /** Above everything that is not more visible. */
  function Insert(s: seq<Thing>, x: Thing): seq<Thing> {
    if s == [] then [x]
    else if s[|s| - 1].visibility > x.visibility then Insert(s[..|s| - 1], x) + [s[|s| - 1]]
    else s + [x]
  }

  function Sort(s: seq<Thing>): seq<Thing> {
    if s == [] then [] else Insert(Sort(s[..|s| - 1]), s[|s| - 1])
  }

  /** The things of one visibility, in order. */
  function Among(s: seq<Thing>, v: nat): seq<Thing> {
    if s == [] then []
    else Among(s[..|s| - 1], v) + if s[|s| - 1].visibility == v then [s[|s| - 1]] else []
  }

  /** Where a thing goes in a sorted list. */
  lemma {:induction false} InsertPlace(s: seq<Thing>, x: Thing) returns (i: nat)
    requires Sorted(s)
    ensures i <= |s| && Insert(s, x) == s[..i] + [x] + s[i..]
    ensures forall k :: 0 <= k < i ==> s[k].visibility <= x.visibility
    ensures forall k :: i <= k < |s| ==> x.visibility < s[k].visibility
  {
    if s == [] || s[|s| - 1].visibility <= x.visibility {
      i := |s|;
      assert s[..i] == s && s[i..] == [];
    } else {
      var t := s[..|s| - 1];
      i := InsertPlace(t, x);
      assert s[..i] == t[..i] && s[i..] == t[i..] + [s[|s| - 1]];
    }
  }

  lemma InsertKeepsSorted(s: seq<Thing>, x: Thing)
    requires Sorted(s)
    ensures Sorted(Insert(s, x)) && |Insert(s, x)| == |s| + 1
  {
    var i := InsertPlace(s, x);
  }

  lemma {:induction false} AmongConcat(a: seq<Thing>, b: seq<Thing>, v: nat)
    ensures Among(a + b, v) == Among(a, v) + Among(b, v)
  {
    if b == [] {
      assert a + b == a;
    } else {
      assert (a + b)[..|a + b| - 1] == a + b[..|b| - 1];
      AmongConcat(a, b[..|b| - 1], v);
    }
  }

  lemma {:induction false} AmongNone(s: seq<Thing>, v: nat)
    requires forall k :: 0 <= k < |s| ==> s[k].visibility != v
    ensures Among(s, v) == []
  {
    if s != [] {
      AmongNone(s[..|s| - 1], v);
    }
  }

  lemma AmongOne(x: Thing, v: nat)
    ensures Among([x], v) == if x.visibility == v then [x] else []
  {
    assert [x][..0] == [];
  }

  lemma AmongParts(a: seq<Thing>, b: seq<Thing>, c: seq<Thing>, v: nat)
    ensures Among(a + b + c, v) == Among(a, v) + Among(b, v) + Among(c, v)
  {
    AmongConcat(a + b, c, v);
    AmongConcat(a, b, v);
  }

  lemma AmongSwap(a: seq<Thing>, x: Thing, b: seq<Thing>, v: nat)
    requires x.visibility == v ==> Among(b, v) == []
    ensures Among(a + [x] + b, v) == Among(a + b + [x], v)
  {
    AmongParts(a, [x], b, v);
    AmongParts(a, b, [x], v);
    AmongOne(x, v);
    assert Among([x], v) == [] || Among(b, v) == [];
  }

  lemma AmongInsert(s: seq<Thing>, x: Thing, v: nat)
    requires Sorted(s)
    ensures Among(Insert(s, x), v) == Among(s + [x], v)
  {
    var i := InsertPlace(s, x);
    if x.visibility == v {
      AmongNone(s[i..], v);
    }
    AmongSwap(s[..i], x, s[i..], v);
    assert s[..i] + s[i..] == s;
  }

  lemma AmongStep(sorted: seq<Thing>, t: seq<Thing>, x: Thing, v: nat)
    requires Sorted(sorted) && Among(sorted, v) == Among(t, v)
    ensures Among(Insert(sorted, x), v) == Among(t + [x], v)
  {
    AmongInsert(sorted, x, v);
    AmongConcat(sorted, [x], v);
    AmongConcat(t, [x], v);
  }

  /** Sorting keeps every class of equally visible things as it was on the stack. */
  lemma {:induction false} SortIsStable(s: seq<Thing>)
    ensures Sorted(Sort(s)) && |Sort(s)| == |s|
    ensures forall v: nat :: Among(Sort(s), v) == Among(s, v)
  {
    if s != [] {
      var t, x := s[..|s| - 1], s[|s| - 1];
      SortIsStable(t);
      InsertKeepsSorted(Sort(t), x);
      assert t + [x] == s;
      forall v: nat ensures Among(Sort(s), v) == Among(s, v) {
        AmongStep(Sort(t), t, x, v);
      }
    }
  }

  /** The least visible thing comes first in its class. */
  lemma {:induction false} FirstAmong(s: seq<Thing>)
    requires s != []
    ensures Among(s, s[0].visibility) != [] && Among(s, s[0].visibility)[0] == s[0]
  {
    AmongConcat([s[0]], s[1..], s[0].visibility);
    assert [s[0]] + s[1..] == s && [s[0]][..0] == [];
  }

  lemma {:induction false} AmongIsFrom(s: seq<Thing>, v: nat)
    requires Among(s, v) != []
    ensures exists k :: 0 <= k < |s| && s[k] == Among(s, v)[0] && s[k].visibility == v
  {
    var t, x := s[..|s| - 1], s[|s| - 1];
    if Among(t, v) != [] {
      AmongIsFrom(t, v);
      var k :| 0 <= k < |t| && t[k] == Among(t, v)[0] && t[k].visibility == v;
      assert s[k] == t[k];
    } else {
      assert s[|s| - 1] == Among(s, v)[0];
    }
  }

  lemma SameRest(a: seq<Thing>, b: seq<Thing>, v: nat)
    requires a != [] && b != [] && a[0] == b[0] && Among(a, v) == Among(b, v)
    ensures Among(a[1..], v) == Among(b[1..], v)
  {
    assert [a[0]] + a[1..] == a && [b[0]] + b[1..] == b;
    AmongConcat([a[0]], a[1..], v);
    AmongConcat([b[0]], b[1..], v);
    var front := Among([a[0]], v);
    assert Among(a, v)[|front|..] == Among(a[1..], v) && Among(b, v)[|front|..] == Among(b[1..], v);
  }

  /** There is no other sorted arrangement that keeps them so. */
  lemma {:induction false} StableSortIsUnique(a: seq<Thing>, b: seq<Thing>)
    requires Sorted(a) && Sorted(b) && forall v: nat :: Among(a, v) == Among(b, v)
    ensures a == b
    decreases |a|
  {
    if a == [] {
      if b != [] {
        FirstAmong(b);
      }
    } else {
      FirstAmong(a);
      AmongIsFrom(b, a[0].visibility);
      FirstAmong(b);
      AmongIsFrom(a, b[0].visibility);
      assert a[0].visibility == b[0].visibility && a[0] == b[0];
      forall v: nat ensures Among(a[1..], v) == Among(b[1..], v) {
        SameRest(a, b, v);
      }
      StableSortIsUnique(a[1..], b[1..]);
    }
  }

  // ---------------------------------------------------------------------------------------
  // A group of slots
  // ---------------------------------------------------------------------------------------

  /** The pass over the slots below a new top: one exchange at most at each place. */
  function Bubble(pile: seq<Thing>, x: Thing): (r: seq<Thing>)
    ensures |r| == |pile| + 1
  {
    if pile == [] then [x]
    else
      var n := |pile| - 1;
      if pile[n].visibility > x.visibility then Bubble(pile[..n], x) + [pile[n]]
      else Bubble(pile[..n], pile[n]) + [x]
  }

  /** The highest slot that the new thing may push down, if the pass finds one. */
  function Reach(pile: seq<Thing>, x: Thing): (l: int)
    ensures -1 <= l < |pile|
    ensures l >= 0 ==> pile[l].visibility <= x.visibility
    ensures forall k :: l < k < |pile| ==> pile[k].visibility > x.visibility
  {
    if pile == [] then -1
    else if x.visibility >= pile[|pile| - 1].visibility then |pile| - 1
    else Reach(pile[..|pile| - 1], x)
  }

  /** What add_face_layer makes of the things in a group of k slots. */
  function Add(pile: seq<Thing>, x: Thing, k: nat, honour: bool): (r: seq<Thing>)
    requires |pile| <= k && k > 0
    ensures |r| == if |pile| < k then |pile| + 1 else k
  {
    if |pile| < k then (if honour then Bubble(pile, x) else pile + [x])
    else if !honour then pile[1..] + [x]
    else if x.visibility < pile[0].visibility then pile
    else
      var l := Reach(pile, x);
      pile[1..l + 1] + [x] + pile[l + 1..]
  }

  function Feed(s: seq<Thing>, k: nat, honour: bool): (r: seq<Thing>)
    requires k > 0
    ensures |r| <= k
  {
    if s == [] then [] else Add(Feed(s[..|s| - 1], k, honour), s[|s| - 1], k, honour)
  }

  function Last<T>(s: seq<T>, k: nat): seq<T> {
    if |s| <= k then s else s[|s| - k..]
  }

  lemma {:induction false} BubbleIsInsert(pile: seq<Thing>, x: Thing)
    requires Sorted(pile)
    ensures Bubble(pile, x) == Insert(pile, x)
  {
    if pile != [] {
      var n := |pile| - 1;
      if pile[n].visibility > x.visibility {
        BubbleIsInsert(pile[..n], x);
      } else {
        BubbleIsInsert(pile[..n], pile[n]);
        assert Insert(pile[..n], pile[n]) == pile[..n] + [pile[n]];
      }
    }
  }

  lemma AddIsInsert(pile: seq<Thing>, x: Thing, k: nat)
    requires |pile| <= k && k > 0 && Sorted(pile)
    ensures Add(pile, x, k, true) == Last(Insert(pile, x), k)
  {
    var i := InsertPlace(pile, x);
    if |pile| < k {
      BubbleIsInsert(pile, x);
    } else if x.visibility >= pile[0].visibility {
      var l := Reach(pile, x);
      assert i == 0 || pile[i - 1].visibility <= x.visibility;
      assert i == l + 1;
      assert (pile[..i] + [x] + pile[i..])[1..] == pile[1..i] + [x] + pile[i..];
    } else {
      assert i == 0;
      assert pile[..0] + [x] + pile[0..] == [x] + pile;
    }
  }

  lemma PlaceInTail(t: seq<Thing>, x: Thing, d: nat, i: nat, j: nat)
    requires d <= |t| && i <= |t| && j <= |t| - d
    requires forall k :: 0 <= k < i ==> t[k].visibility <= x.visibility
    requires forall k :: i <= k < |t| ==> x.visibility < t[k].visibility
    requires forall k :: 0 <= k < j ==> t[d..][k].visibility <= x.visibility
    requires forall k :: j <= k < |t| - d ==> x.visibility < t[d..][k].visibility
    ensures j == if i >= d then i - d else 0
  {
    assert j == 0 || t[d..][j - 1] == t[d + j - 1];
    assert j == |t| - d || t[d..][j] == t[d + j];
  }

  lemma SpliceAbove(t: seq<Thing>, x: Thing, d: nat, i: nat)
    requires d <= i <= |t| && d < |t|
    ensures Last(t[d..][..i - d] + [x] + t[d..][i - d..], |t| - d) == Last(t[..i] + [x] + t[i..], |t| - d)
  {
    var a, b := t[d..][..i - d] + [x] + t[d..][i - d..], t[..i] + [x] + t[i..];
    assert t[..i] == t[..d] + t[d..][..i - d] && t[i..] == t[d..][i - d..];
    assert b == t[..d] + a;
  }

  lemma SpliceBelow(t: seq<Thing>, x: Thing, d: nat, i: nat)
    requires i < d < |t|
    ensures Last([x] + t[d..], |t| - d) == Last(t[..i] + [x] + t[i..], |t| - d)
  {
    var b := t[..i] + [x] + t[i..];
    assert t[i..] == t[i..d] + t[d..];
    assert b == t[..i] + [x] + t[i..d] + t[d..];
    assert b[d + 1..] == t[d..] && ([x] + t[d..])[1..] == t[d..];
  }

  lemma InsertInTail(t: seq<Thing>, x: Thing, d: nat, u: seq<Thing>)
    requires Sorted(t) && d < |t| && u == t[d..]
    ensures Last(Insert(u, x), |t| - d) == Last(Insert(t, x), |t| - d)
  {
    var i := InsertPlace(t, x);
    var j := InsertPlace(u, x);
    PlaceInTail(t, x, d, i, j);
    if i >= d {
      SpliceAbove(t, x, d, i);
    } else {
      SpliceBelow(t, x, d, i);
      assert u[..0] + [x] + u[0..] == [x] + u;
    }
  }

  /** Forgetting the lowest things early does not matter. */
  lemma InsertThenLast(t: seq<Thing>, x: Thing, k: nat)
    requires Sorted(t) && k > 0
    ensures Last(Insert(Last(t, k), x), k) == Last(Insert(t, x), k)
  {
    if |t| > k {
      InsertInTail(t, x, |t| - k, Last(t, k));
    }
  }

  /** With visibility honoured, the slots end up holding the most visible things of the stack,
      sorted, and higher things before lower ones where they are equally visible. */
  lemma {:induction false} FeedIsTopOfSort(s: seq<Thing>, k: nat)
    requires k > 0
    ensures Feed(s, k, true) == Last(Sort(s), k)
  {
    if s != [] {
      var t := s[..|s| - 1];
      FeedIsTopOfSort(t, k);
      SortIsStable(t);
      AddIsInsert(Last(Sort(t), k), s[|s| - 1], k);
      InsertThenLast(Sort(t), s[|s| - 1], k);
    }
  }

  lemma AppendThenLast(t: seq<Thing>, x: Thing, k: nat, u: seq<Thing>)
    requires k > 0 && u == Last(t, k)
    ensures Add(u, x, k, false) == Last(t + [x], k)
  {}

  /** Without, they hold the top of the stack. */
  lemma {:induction false} FeedIsTopOfStack(s: seq<Thing>, k: nat)
    requires k > 0
    ensures Feed(s, k, false) == Last(s, k)
  {
    if s != [] {
      var t, x := s[..|s| - 1], s[|s| - 1];
      FeedIsTopOfStack(t, k);
      AppendThenLast(t, x, k, Last(t, k));
      assert t + [x] == s;
    }
  }

  // ---------------------------------------------------------------------------------------
  // The slots of a space
  // ---------------------------------------------------------------------------------------

  /** The things in the slots of a group up to the first free one. */
  function Taken(slots: seq<Option<Thing>>, low: nat, high: nat): (pile: seq<Thing>)
    requires low <= high + 1 <= |slots|
    ensures low + |pile| <= high + 1 && (low + |pile| == high + 1 || slots[low + |pile|] == None)
    ensures forall k :: 0 <= k < |pile| ==> slots[low + k] == Some(pile[k])
    decreases high + 1 - low
  {
    if low > high || slots[low] == None then [] else [slots[low].value] + Taken(slots, low + 1, high)
  }

  /** All the slots after one more thing in the group from low to high. */
  function AddLayer(slots: seq<Option<Thing>>, low: nat, high: nat, x: Thing, honour: bool): (r: seq<Option<Thing>>)
    requires low <= high < |slots|
    ensures |r| == |slots|
  {
    var pile := Add(Taken(slots, low, high), x, high + 1 - low, honour);
    seq(|slots|, k requires 0 <= k < |slots| => if low <= k < low + |pile| then Some(pile[k - low]) else slots[k])
  }

  /** The group holds exactly this pile, in its lowest slots. */
  ghost predicate Packed(slots: seq<Option<Thing>>, low: nat, high: nat, pile: seq<Thing>)
    requires low <= high < |slots|
  {
    && |pile| <= high + 1 - low
    && (forall k :: 0 <= k < |pile| ==> slots[low + k] == Some(pile[k]))
    && (forall k :: low + |pile| <= k <= high ==> slots[k] == None)
  }

  lemma {:induction false} TakenIs(slots: seq<Option<Thing>>, low: nat, high: nat, pile: seq<Thing>)
    requires low + |pile| <= high + 1 <= |slots| && (low + |pile| == high + 1 || slots[low + |pile|] == None)
    requires forall k :: 0 <= k < |pile| ==> slots[low + k] == Some(pile[k])
    ensures Taken(slots, low, high) == pile
    decreases |pile|
  {
    if pile != [] {
      assert slots[low + 0] == Some(pile[0]);
      assert forall k :: 0 <= k < |pile| - 1 ==> slots[low + (k + 1)] == Some(pile[1..][k]);
      TakenIs(slots, low + 1, high, pile[1..]);
    }
  }

  lemma TakenUpTo(slots: seq<Option<Thing>>, low: nat, high: nat, l: nat)
    requires low <= high < |slots| && low <= l <= low + |Taken(slots, low, high)|
    ensures l < low + |Taken(slots, low, high)| <==> l <= high && slots[l].Some?
  {
    var pile := Taken(slots, low, high);
    if l < low + |pile| {
      assert slots[low + (l - low)] == Some(pile[l - low]);
    }
  }

  /** A packed group stays packed, and the other slots keep what they hold. */
  lemma AddToPacked(slots: seq<Option<Thing>>, low: nat, high: nat, pile: seq<Thing>, x: Thing, honour: bool)
    requires low <= high < |slots| && Packed(slots, low, high, pile)
    ensures var r := AddLayer(slots, low, high, x, honour);
      && Packed(r, low, high, Add(pile, x, high + 1 - low, honour))
      && forall k :: 0 <= k < |slots| && !(low <= k <= high) ==> r[k] == slots[k]
  {
    TakenIs(slots, low, high, pile);
  }

  // ---------------------------------------------------------------------------------------
  // add_face_layer on the array
  // ---------------------------------------------------------------------------------------

  lemma BubbleStep(pile: seq<Thing>, m: nat, c: Thing)
    requires 0 < m <= |pile|
    ensures Bubble(pile[..m], c) ==
            if pile[m - 1].visibility > c.visibility then Bubble(pile[..m - 1], c) + [pile[m - 1]]
            else Bubble(pile[..m - 1], pile[m - 1]) + [c]
  {
    assert pile[..m][..m - 1] == pile[..m - 1];
  }

  lemma Chop<T>(r: seq<T>, m: nat, front: seq<T>, x: T)
    requires m < |r| && r[..m + 1] == front + [x]
    ensures r[m] == x && r[..m] == front
  {
    assert r[..m + 1][m] == x && r[..m + 1][..m] == r[..m];
  }

  /** The pass has come down to place m of the group: above it the slots are final. */
  ghost predicate Passed(b: seq<Option<Thing>>, low: nat, m: nat, pile: seq<Thing>, r: seq<Thing>, carried: Thing) {
    var ok :=
      && m <= |pile| && |r| == |pile| + 1 && low + |r| <= |b|
      && Bubble(pile[..m], carried) == r[..m + 1]
      && b[low + m] == Some(carried)
      && (forall k :: 0 <= k < m ==> b[low + k] == Some(pile[k]))
      && (forall k :: m < k < |r| ==> b[low + k] == Some(r[k]));
    ok
  }

  lemma PassStays(b: seq<Option<Thing>>, low: nat, m: nat, pile: seq<Thing>, r: seq<Thing>, carried: Thing)
    requires 0 < m && Passed(b, low, m, pile, r, carried) && pile[m - 1].visibility <= carried.visibility
    ensures Passed(b, low, m - 1, pile, r, pile[m - 1])
  {
    BubbleStep(pile, m, carried);
    Chop(r, m, Bubble(pile[..m - 1], pile[m - 1]), carried);
  }

  lemma PassSwaps(b: seq<Option<Thing>>, low: nat, m: nat, pile: seq<Thing>, r: seq<Thing>, carried: Thing,
                  b': seq<Option<Thing>>)
    requires 0 < m && Passed(b, low, m, pile, r, carried) && pile[m - 1].visibility > carried.visibility
    requires b' == b[low + m - 1 := b[low + m]][low + m := b[low + m - 1]]
    ensures Passed(b', low, m - 1, pile, r, carried)
  {
    BubbleStep(pile, m, carried);
    Chop(r, m, Bubble(pile[..m - 1], carried), pile[m - 1]);
  }

  /** Two neighbours are exchanged if the lower is more visible. */
  method PassOne(layers: array<Option<Thing>>, low: nat, l1: nat,
                 ghost pile: seq<Thing>, ghost r: seq<Thing>, ghost carried: Thing)
    returns (ghost carried': Thing)
    requires low <= l1 < l1 + 1 < layers.Length && Passed(layers[..], low, l1 + 1 - low, pile, r, carried)
    modifies layers
    ensures Passed(layers[..], low, l1 - low, pile, r, carried')
    ensures forall k :: 0 <= k < layers.Length && k != l1 && k != l1 + 1 ==> layers[k] == old(layers[k])
  {
    ghost var m, b := l1 + 1 - low, layers[..];
    assert b[low + (m - 1)] == Some(pile[m - 1]);
    if layers[l1].value.visibility > layers[l1 + 1].value.visibility {
      layers[l1], layers[l1 + 1] := layers[l1 + 1], layers[l1];
      PassSwaps(b, low, m, pile, r, carried, layers[..]);
      carried' := carried;
    } else {
      PassStays(b, low, m, pile, r, carried);
      carried' := pile[m - 1];
    }
  }

  /** The pass below slot top, which holds the new thing. */
  method BubbleDown(layers: array<Option<Thing>>, low: nat, top: nat, ghost pile: seq<Thing>, ghost x: Thing)
    requires low <= top < layers.Length && |pile| == top - low
    requires forall k :: 0 <= k < |pile| ==> layers[low + k] == Some(pile[k])
    requires layers[top] == Some(x)
    modifies layers
    ensures forall k :: 0 <= k <= |pile| ==> layers[low + k] == Some(Bubble(pile, x)[k])
    ensures forall k :: 0 <= k < low || top < k < layers.Length ==> layers[k] == old(layers[k])
  {
    var l1: int := top - 1;
    ghost var r, carried := Bubble(pile, x), x;
    assert pile[..top - low] == pile && r[..top - low + 1] == r;
    while l1 >= low
      invariant low - 1 <= l1 < top
      invariant Passed(layers[..], low, l1 + 1 - low, pile, r, carried)
      invariant forall k :: 0 <= k < low || top < k < layers.Length ==> layers[k] == old(layers[k])
    {
      carried := PassOne(layers, low, l1, pile, r, carried);
      l1 := l1 - 1;
    }
    PassedAll(layers[..], low, pile, x, carried);
  }

  lemma PassedAll(b: seq<Option<Thing>>, low: nat, pile: seq<Thing>, x: Thing, carried: Thing)
    requires Passed(b, low, 0, pile, Bubble(pile, x), carried)
    ensures forall k :: 0 <= k <= |pile| ==> b[low + k] == Some(Bubble(pile, x)[k])
  {
    assert pile[..0] == [] && Bubble(pile, x)[..1] == [Bubble(pile, x)[0]];
  }

  /** The slots above low move down by one; the lowest is lost. */
  method ShiftDown(layers: array<Option<Thing>>, low: nat, high: nat)
    requires low <= high < layers.Length
    modifies layers
    ensures forall k :: low <= k < high ==> layers[k] == old(layers[k + 1])
    ensures forall k :: 0 <= k < low || high <= k < layers.Length ==> layers[k] == old(layers[k])
  {
    var l1 := low;
    while l1 < high
      invariant low <= l1 <= high
      invariant forall k :: low <= k < l1 ==> layers[k] == old(layers[k + 1])
      invariant forall k :: 0 <= k < low || l1 <= k < layers.Length ==> layers[k] == old(layers[k])
    {
      layers[l1] := layers[l1 + 1];
      l1 := l1 + 1;
    }
  }

  /** The first free slot of the group, or the one after the group. */
  method FirstFree(layers: array<Option<Thing>>, low: nat, high: nat) returns (l: nat)
    requires low <= high < layers.Length
    ensures low <= l <= high + 1 && l == low + |Taken(layers[..], low, high)|
  {
    l := low;
    ghost var b := layers[..];
    while l <= high && layers[l].Some?
      invariant low <= l <= low + |Taken(b, low, high)|
    {
      TakenUpTo(b, low, high, l);
      l := l + 1;
    }
    TakenUpTo(b, low, high, l);
  }

  /** A group with room: the new thing takes the first free slot and goes down from there. */
  method AddOnTop(layers: array<Option<Thing>>, low: nat, l: nat, ob: Thing, honour: bool,
                  ghost pile: seq<Thing>, ghost r: seq<Thing>)
    requires low <= l < layers.Length && |pile| == l - low && r == Add(pile, ob, |pile| + 1, honour)
    requires forall k :: 0 <= k < |pile| ==> layers[low + k] == Some(pile[k])
    modifies layers
    ensures forall k :: 0 <= k < |r| ==> layers[low + k] == Some(r[k])
    ensures forall k :: 0 <= k < low || l < k < layers.Length ==> layers[k] == old(layers[k])
  {
    layers[l] := Some(ob);
    if honour {
      BubbleDown(layers, low, l, pile, ob);
    } else {
      assert forall k :: 0 <= k < |r| ==> layers[low + k] == Some(r[k]);
    }
  }

  lemma RoomDoesNotMatter(pile: seq<Thing>, x: Thing, k: nat, honour: bool)
    requires |pile| < k
    ensures Add(pile, x, k, honour) == Add(pile, x, |pile| + 1, honour)
  {}

  /** A full group: the new thing takes the highest place it may, and the lowest thing is lost. */
  method PushDown(layers: array<Option<Thing>>, low: nat, high: nat, ob: Thing, ghost pile: seq<Thing>)
    requires low <= high < layers.Length && |pile| == high + 1 - low
    requires forall k :: 0 <= k < |pile| ==> layers[low + k] == Some(pile[k])
    requires ob.visibility >= pile[0].visibility
    modifies layers
    ensures forall k :: 0 <= k < |pile| ==> layers[low + k] == Some(Add(pile, ob, |pile|, true)[k])
    ensures forall k :: 0 <= k < low || high < k < layers.Length ==> layers[k] == old(layers[k])
  {
    var l: int := high;
    while ob.visibility < layers[l].value.visibility
      invariant low <= l <= high
      invariant 0 <= Reach(pile, ob) <= l - low
      invariant layers[l] == Some(pile[l - low])
      decreases l
    {
      l := l - 1;
      assert layers[low + (l - low)] == Some(pile[l - low]);
    }
    ShiftDown(layers, low, l);
    layers[l] := Some(ob);
  }

  lemma LayersAre(b: seq<Option<Thing>>, b': seq<Option<Thing>>, low: nat, high: nat, x: Thing, honour: bool,
                  r: seq<Thing>)
    requires low <= high < |b| == |b'| && r == Add(Taken(b, low, high), x, high + 1 - low, honour)
    requires forall k :: 0 <= k < low || low + |r| <= k < |b| ==> b'[k] == b[k]
    requires forall k :: 0 <= k < |r| ==> b'[low + k] == Some(r[k])
    ensures b' == AddLayer(b, low, high, x, honour)
  {
    forall k | 0 <= k < |b| ensures b'[k] == AddLayer(b, low, high, x, honour)[k] {
      assert low <= k < low + |r| ==> b'[low + (k - low)] == Some(r[k - low]);
    }
  }

  /** What is done to the slots of the group once the first free one is known. */
  method PutInGroup(layers: array<Option<Thing>>, low: nat, high: nat, l: nat, ob: Thing, honour: bool,
                    ghost pile: seq<Thing>, ghost r: seq<Thing>)
    requires low <= high < layers.Length && low <= l <= high + 1 && |pile| == l - low
    requires forall k :: 0 <= k < |pile| ==> layers[low + k] == Some(pile[k])
    requires r == Add(pile, ob, high + 1 - low, honour)
    modifies layers
    ensures forall k :: 0 <= k < |r| ==> layers[low + k] == Some(r[k])
    ensures forall k :: 0 <= k < low || low + |r| <= k < layers.Length ==> layers[k] == old(layers[k])
  {
    if l <= high {
      RoomDoesNotMatter(pile, ob, high + 1 - low, honour);
      AddOnTop(layers, low, l, ob, honour, pile, r);
    } else if !honour {
      ShiftDown(layers, low, high);
      layers[high] := Some(ob);
    } else if ob.visibility >= layers[low].value.visibility {
      PushDown(layers, low, high, ob, pile);
    }
  }

  /** add_face_layer. */
  method AddFaceLayer(low: nat, high: nat, ob: Thing, layers: array<Option<Thing>>, honour: bool)
    requires low <= high < layers.Length
    modifies layers
    ensures layers[..] == AddLayer(old(layers[..]), low, high, ob, honour)
  {
    ghost var b := layers[..];
    ghost var pile := Taken(b, low, high);
    ghost var r := Add(pile, ob, high + 1 - low, honour);
    assert forall k :: 0 <= k < |pile| ==> layers[low + k] == Some(pile[k]);
    var l := FirstFree(layers, low, high);
    PutInGroup(layers, low, high, l, ob, honour, pile, r);
    LayersAre(b, layers[..], low, high, ob, honour, r);
  }
}
