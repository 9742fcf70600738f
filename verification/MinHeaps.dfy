/** The array min-heap of common/minheap.cpp, which inserts at the top: every element on the way
    from the new slot to the root moves one place down, and the new element sifts down from the root. */
module MinHeaps {
  import opened Common

  function Left(i: nat): nat { 2 * i + 1 }

  function Right(i: nat): nat { 2 * i + 2 }

  function Parent(i: nat): nat
    requires i > 0
  {
    (i - 1) / 2
  }

  /** The element at i is not smaller than its parent. */
  ghost predicate InOrder<T>(s: seq<T>, measure: T -> int, i: nat)
    requires 0 < i < |s|
  {
    measure(s[Parent(i)]) <= measure(s[i])
  }

  ghost predicate IsHeap<T>(s: seq<T>, measure: T -> int) {
    forall i :: 0 < i < |s| ==> InOrder(s, measure, i)
  }

  /** Only the element at `at` may be larger than its children. */
  ghost predicate IsHeapExceptAt<T>(s: seq<T>, measure: T -> int, at: nat) {
    && (forall i :: 0 < i < |s| && Parent(i) != at ==> InOrder(s, measure, i))
    && (forall i :: 0 < at && 0 < i < |s| && Parent(i) == at ==> measure(s[Parent(at)]) <= measure(s[i]))
  }

  /** A heap but for a freshly appended last slot, as long as that is where the hole is. */
  ghost predicate IsHeapWithHole<T>(s: seq<T>, measure: T -> int, hole: nat) {
    forall i :: 0 < i < |s| && !(i == hole == |s| - 1) ==> InOrder(s, measure, i)
  }

  lemma OpenSlot<T>(s: seq<T>, measure: T -> int, x: T)
    requires IsHeap(s, measure)
    ensures IsHeapWithHole(s + [x], measure, |s|)
  {
    forall i | 0 < i < |s| ensures InOrder(s + [x], measure, i) {
      assert InOrder(s, measure, i);
    }
  }

  lemma FillRoot<T>(s: seq<T>, measure: T -> int, x: T)
    requires s != [] && IsHeapWithHole(s, measure, 0)
    ensures IsHeapExceptAt(s[0 := x], measure, 0)
  {
    forall i | 0 < i < |s| && Parent(i) != 0 ensures InOrder(s[0 := x], measure, i) {
      assert InOrder(s, measure, i);
    }
  }

  ghost predicate Sorted<T>(s: seq<T>, measure: T -> int) {
    forall i, j :: 0 <= i < j < |s| ==> measure(s[i]) <= measure(s[j])
  }

  lemma {:induction false} RootIsMinimal<T>(s: seq<T>, measure: T -> int, i: nat)
    requires IsHeap(s, measure) && i < |s|
    ensures measure(s[0]) <= measure(s[i])
  {
    if i > 0 {
      assert InOrder(s, measure, i);
      RootIsMinimal(s, measure, Parent(i));
    }
  }

  lemma SwapKeepsElements<T>(s: seq<T>, i: nat, j: nat)
    requires i < j < |s|
    ensures multiset(s[i := s[j]][j := s[i]]) == multiset(s)
  {
    var u := s[i := s[j]];
    assert multiset(u) == multiset(s) - multiset{s[i]} + multiset{s[j]};
    assert multiset(u[j := s[i]]) == multiset(u) - multiset{u[j]} + multiset{s[i]};
  }

  /** One sift-down step at `at`, towards its smaller child. */
  lemma SiftDownStep<T>(s: seq<T>, measure: T -> int, at: nat, child: nat)
    requires IsHeapExceptAt(s, measure, at)
    requires 0 < child < |s| && Parent(child) == at
    requires measure(s[child]) < measure(s[at])
    requires forall c :: 0 < c < |s| && Parent(c) == at ==> measure(s[child]) <= measure(s[c])
    ensures IsHeapExceptAt(s[at := s[child]][child := s[at]], measure, child)
  {
    var t := s[at := s[child]][child := s[at]];
    forall i | 0 < i < |t| && Parent(i) != child
      ensures InOrder(t, measure, i)
    {
      if i != at && Parent(i) != at {
        assert InOrder(s, measure, i);
      }
    }
    forall i | 0 < i < |t| && Parent(i) == child
      ensures measure(t[Parent(child)]) <= measure(t[i])
    {
      assert InOrder(s, measure, i);
    }
  }

  /** Nothing to sift any more. */
  lemma SiftDownDone<T>(s: seq<T>, measure: T -> int, at: nat)
    requires IsHeapExceptAt(s, measure, at)
    requires forall c :: 0 < c < |s| && Parent(c) == at ==> measure(s[at]) <= measure(s[c])
    ensures IsHeap(s, measure)
  {
    forall i | 0 < i < |s| ensures InOrder(s, measure, i) {
      if Parent(i) == at {
        assert measure(s[at]) <= measure(s[i]);
      }
    }
  }

  /** The least of what was left follows what was taken out before. */
  lemma OneMore<T>(s: seq<T>, x: T, before: seq<T>, after: seq<T>, m: T -> int)
    requires Sorted(s, m) && forall y, z :: y in s && z in before ==> m(y) <= m(z)
    requires x in before && multiset(after) == multiset(before) - multiset{x}
    requires forall y :: y in before ==> m(x) <= m(y)
    ensures Sorted(s + [x], m) && |after| < |before|
    ensures forall y, z :: y in s + [x] && z in after ==> m(y) <= m(z)
    ensures multiset(s + [x]) + multiset(after) == multiset(s) + multiset(before)
  {
    assert multiset(before) == multiset(after) + multiset{x};
    assert |before| == |multiset(before)| == |multiset(after)| + 1;
    forall z | z in after ensures z in before {
      assert z in multiset(after) && z in multiset(before);
    }
  }


  class MinHeap<T(0)> {
    const arr: array<T>
    var len: nat
    const capacity: nat
    const getMeasure: T -> int

    ghost predicate Allocated()
      reads this
    {
      len <= capacity <= arr.Length
    }

    /** The elements in array order. */
    ghost function Elements(): seq<T>
      requires Allocated()
      reads this, arr
    {
      arr[..len]
    }

    ghost predicate Valid()
      reads this, arr
    {
      Allocated() && IsHeap(Elements(), getMeasure)
    }

    /** minheap_init */
    constructor Init(amt: nat, measure: T -> int)
      ensures Valid() && Elements() == [] && capacity == amt && getMeasure == measure && fresh(arr)
    {
      arr := new T[amt];
      len, capacity, getMeasure := 0, amt, measure;
    }

    /** minheap_init_static: the caller provides the array. */
    constructor InitStatic(arr: array<T>, amt: nat, measure: T -> int)
      requires amt <= arr.Length
      ensures Valid() && Elements() == [] && capacity == amt && getMeasure == measure && this.arr == arr
    {
      this.arr := arr;
      len, capacity, getMeasure := 0, amt, measure;
    }

    method Swap(i: nat, j: nat)
      requires Allocated() && i < j < len
      modifies arr
      ensures Elements() == old(Elements())[i := old(arr[j])][j := old(arr[i])]
      ensures multiset(Elements()) == multiset(old(Elements()))
    {
      SwapKeepsElements(Elements(), i, j);
      arr[i], arr[j] := arr[j], arr[i];
    }

    /** minheap_normalize: only arr[0] may be out of place; it sinks to where it belongs. */
    method Normalize()
      requires Allocated() && IsHeapExceptAt(Elements(), getMeasure, 0)
      modifies arr
      ensures Valid()
      ensures multiset(Elements()) == multiset(old(Elements()))
    {
      if len == 1 {
        return;
      }
      var at: nat := 0;
      while at < len
        invariant Allocated() && len == old(len)
        invariant IsHeapExceptAt(Elements(), getMeasure, at)
        invariant multiset(Elements()) == multiset(old(Elements()))
        decreases len - at
      {
        var left, right := Left(at), Right(at);
        if left >= len {
          break;
        }
        var minChild := left;
        if right < len && !(getMeasure(arr[left]) < getMeasure(arr[right])) {
          minChild := right;
        }
        assert forall c :: 0 < c < len && Parent(c) == at ==> c == left || c == right;
        if getMeasure(arr[at]) <= getMeasure(arr[minChild]) {
          SiftDownDone(Elements(), getMeasure, at);
          return;
        }
        SiftDownStep(Elements(), getMeasure, at, minChild);
        Swap(at, minChild);
        at := minChild;
      }
      assert forall c :: 0 < c < len && Parent(c) == at ==> c >= Left(at);
      SiftDownDone(Elements(), getMeasure, at);
    }

    /** minheap_insert: fails, changing nothing, exactly when the heap is full. */
    method Insert(ob: T) returns (result: int)
      requires Valid()
      modifies this`len, arr
      ensures Valid()
      ensures result == if old(len) == capacity then -1 else 0
      ensures result == -1 ==> Elements() == old(Elements())
      ensures result == 0 ==> multiset(Elements()) == multiset(old(Elements())) + multiset{ob}
    {
      if len == capacity {
        return -1;
      }
      var at: nat := len;
      len := len + 1;
      assert Elements() == old(Elements()) + [arr[at]];
      OpenSlot(old(Elements()), getMeasure, arr[at]);
      assert Elements()[at := ob] == old(Elements()) + [ob];
      while at > 0
        invariant at < len == old(len) + 1 && Allocated()
        invariant IsHeapWithHole(Elements(), getMeasure, at)
        invariant multiset(Elements()[at := ob]) == multiset(old(Elements())) + multiset{ob}
      {
        var parent := Parent(at);
        PullDown(Elements(), getMeasure, parent, at, ob);
        ghost var pulled := Elements()[at := arr[parent]];
        arr[at] := arr[parent];
        assert Elements() == pulled;
        at := parent;
      }
      FillRoot(Elements(), getMeasure, ob);
      ghost var filled := Elements()[0 := ob];
      arr[0] := ob;
      assert Elements() == filled;
      Normalize();
      return 0;
    }

    /** minheap_remove: takes out a smallest element, or reports an empty heap. */
    method Remove() returns (removed: Option<T>)
      requires Valid()
      modifies this`len, arr
      ensures Valid()
      ensures removed.None? <==> old(len) == 0
      ensures removed.None? ==> Elements() == []
      ensures removed.Some? ==>
        && removed.value in old(Elements())
        && multiset(Elements()) == multiset(old(Elements())) - multiset{removed.value}
        && forall x :: x in old(Elements()) ==> getMeasure(removed.value) <= getMeasure(x)
    {
      if len == 0 {
        return None;
      }
      var top := arr[0];
      RootIsSmallest(Elements(), getMeasure);
      TakeRoot(Elements());
      MovedIsHeapBelow(Elements(), getMeasure);
      MoveLast();
      Normalize();
      return Some(top);
    }

    /** The last element takes the place of the root. */
    method MoveLast()
      requires Allocated() && len > 0
      modifies this`len, arr
      ensures Allocated() && Elements() == MoveLastToRoot(old(Elements()))
    {
      ghost var before := Elements();
      len := len - 1;
      arr[0] := arr[len];
      assert Elements() == MoveLastToRoot(before);
    }

    /** Emptying the heap, as the unit test does, sorts what was in it. */
    method Drain() returns (s: seq<T>)
      requires Valid()
      modifies this`len, arr
      ensures Valid() && Elements() == []
      ensures Sorted(s, getMeasure)
      ensures multiset(s) == multiset(old(Elements()))
    {
      s := [];
      while len > 0
        invariant Valid()
        invariant Sorted(s, getMeasure)
        invariant forall x, y :: x in s && y in Elements() ==> getMeasure(x) <= getMeasure(y)
        invariant multiset(s) + multiset(Elements()) == multiset(old(Elements()))
        decreases |Elements()|
      {
        ghost var before := Elements();
        var x := Remove();
        OneMore(s, x.value, before, Elements(), getMeasure);
        s := s + [x.value];
      }
    }
  }

  /** What is left when the last element replaces the root. */
  ghost function MoveLastToRoot<T>(s: seq<T>): seq<T>
    requires s != []
  {
    if |s| == 1 then [] else s[..|s| - 1][0 := s[|s| - 1]]
  }

  lemma MovedIsHeapBelow<T>(s: seq<T>, measure: T -> int)
    requires IsHeap(s, measure) && s != []
    ensures IsHeapExceptAt(MoveLastToRoot(s), measure, 0)
  {
    var t := MoveLastToRoot(s);
    forall i | 0 < i < |t| && Parent(i) != 0 ensures InOrder(t, measure, i) {
      assert InOrder(s, measure, i);
    }
  }

  lemma TakeRoot<T>(s: seq<T>)
    requires s != []
    ensures multiset(MoveLastToRoot(s)) == multiset(s) - multiset{s[0]}
  {
    if |s| == 1 {
      assert s == [s[0]];
    } else {
      var n := |s| - 1;
      assert s == [s[0]] + s[1..n] + [s[n]];
      assert MoveLastToRoot(s) == [s[n]] + s[1..n];
    }
  }

  lemma RootIsSmallest<T>(s: seq<T>, measure: T -> int)
    requires IsHeap(s, measure) && s != []
    ensures forall x :: x in s ==> measure(s[0]) <= measure(x)
  {
    forall x | x in s ensures measure(s[0]) <= measure(x) {
      var i :| 0 <= i < |s| && s[i] == x;
      RootIsMinimal(s, measure, i);
    }
  }

  /** Copying a parent down over its child keeps every other pair in order, and keeps the
      elements when the hole is counted as holding ob. */
  lemma PullDown<T>(s: seq<T>, measure: T -> int, parent: nat, at: nat, ob: T)
    requires 0 < at < |s| && parent == Parent(at)
    requires IsHeapWithHole(s, measure, at)
    ensures IsHeap(s[at := s[parent]], measure)
    ensures multiset(s[at := s[parent]][parent := ob]) == multiset(s[at := ob])
  {
    var t := s[at := s[parent]];
    forall i | 0 < i < |s| ensures InOrder(t, measure, i) {
      if i != at && Parent(i) == at {
        assert InOrder(s, measure, i) && InOrder(s, measure, at);
      } else if i != at {
        assert InOrder(s, measure, i);
      }
    }
    SwapKeepsElements(s[at := ob], parent, at);
    assert t[parent := ob] == s[at := ob][parent := s[at := ob][at]][at := s[at := ob][parent]];
  }
}
