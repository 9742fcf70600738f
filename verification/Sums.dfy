/** Finite sums over sequences. */
module Sums {
  function Sum(s: seq<int>): int {
    if s == [] then 0 else s[0] + Sum(s[1..])
  }

  lemma {:induction false} SumUpdate(s: seq<int>, i: nat, v: int)
    requires i < |s|
    ensures Sum(s[i := v]) == Sum(s) - s[i] + v
  {
    if i == 0 {
      assert s[i := v][1..] == s[1..];
    } else {
      SumUpdate(s[1..], i - 1, v);
      assert s[i := v][1..] == s[1..][i - 1 := v];
    }
  }

  lemma {:induction false} SumAdd(a: seq<int>, b: seq<int>, c: seq<int>)
    requires |a| == |b| == |c|
    requires forall i :: 0 <= i < |a| ==> c[i] == a[i] + b[i]
    ensures Sum(c) == Sum(a) + Sum(b)
  {
    if a != [] {
      SumAdd(a[1..], b[1..], c[1..]);
    }
  }

  lemma {:induction false} SumZero(s: seq<int>)
    requires forall i :: 0 <= i < |s| ==> s[i] == 0
    ensures Sum(s) == 0
  {
    if s != [] {
      SumZero(s[1..]);
    }
  }

  ghost predicate NonNegative(s: seq<int>) {
    forall i :: 0 <= i < |s| ==> s[i] >= 0
  }

  lemma {:induction false} SumNonNegative(s: seq<int>)
    requires NonNegative(s)
    ensures Sum(s) >= 0
  {
    if s != [] {
      SumNonNegative(s[1..]);
    }
  }

  /** At most one non-zero term. */
  lemma SumSingle(s: seq<int>, k: nat)
    requires k < |s|
    requires forall i :: 0 <= i < |s| && i != k ==> s[i] == 0
    ensures Sum(s) == s[k]
  {
    SumUpdate(s, k, 0);
    SumZero(s[k := 0]);
  }

  lemma {:induction false} SumAtLeast(a: seq<int>, b: seq<int>)
    requires |a| == |b|
    requires forall i :: 0 <= i < |a| ==> a[i] <= b[i]
    ensures Sum(a) <= Sum(b)
  {
    if a != [] {
      SumAtLeast(a[1..], b[1..]);
    }
  }

  /** Row sums and column sums of a matrix have the same total. */
  lemma {:induction false} SumSwap(m: seq<seq<int>>, rows: seq<int>, cols: seq<int>)
    requires |rows| == |m|
    requires forall r :: 0 <= r < |m| ==> |m[r]| == |cols| && rows[r] == Sum(m[r])
    requires forall c :: 0 <= c < |cols| ==> cols[c] == Sum(Column(m, c, |cols|))
    ensures Sum(rows) == Sum(cols)
  {
    if m == [] {
      SumZero(cols);
    } else {
      var rest := seq(|cols|, c requires 0 <= c < |cols| => Sum(Column(m[1..], c, |cols|)));
      SumSwap(m[1..], rows[1..], rest);
      forall c | 0 <= c < |cols| ensures cols[c] == m[0][c] + rest[c] {
        assert Column(m, c, |cols|)[1..] == Column(m[1..], c, |cols|);
      }
      SumAdd(m[0], rest, cols);
    }
  }

  function Column(m: seq<seq<int>>, c: nat, width: nat): seq<int>
    requires c < width && forall r :: 0 <= r < |m| ==> |m[r]| == width
  {
    seq(|m|, r requires 0 <= r < |m| => m[r][c])
  }

  /** Where everything off the list is zero, adding up the list is adding up everything. */
  lemma {:induction false} SumByList(row: seq<int>, list: seq<nat>, picked: seq<int>)
    requires |picked| == |list|
    requires forall k :: 0 <= k < |list| ==> list[k] < |row| && picked[k] == row[list[k]]
    requires forall j, k :: 0 <= j < k < |list| ==> list[j] != list[k]
    requires forall i :: 0 <= i < |row| && i !in list ==> row[i] == 0
    ensures Sum(row) == Sum(picked)
    decreases |list|
  {
    if list == [] {
      SumZero(row);
    } else {
      var rest := row[list[0] := 0];
      SumUpdate(row, list[0], 0);
      forall k | 0 <= k < |list[1..]| ensures picked[1..][k] == rest[list[1..][k]] {
        assert list[1..][k] == list[k + 1];
      }
      SumByList(rest, list[1..], picked[1..]);
    }
  }

  lemma {:induction false} SumAppend(s: seq<int>, x: int)
    ensures Sum(s + [x]) == Sum(s) + x
  {
    if s == [] {
      assert s + [x] == [x];
    } else {
      SumAppend(s[1..], x);
      assert (s + [x])[1..] == s[1..] + [x];
    }
  }
}
