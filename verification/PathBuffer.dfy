/** The path functions as they work, rewriting one buffer in place (common/path.cpp). */
module PathBuffer {
  import opened Paths

  const NUL := '\0'

  ghost predicate NoNul(s: string) {
    forall i :: 0 <= i < |s| ==> s[i] != NUL
  }

  /** The buffer's first terminator comes right after this text. */
  ghost predicate Reads(b: string, s: string) {
    |s| < |b| && b[..|s|] == s && b[|s|] == NUL && NoNul(s)
  }

  lemma NoNulAppend(s: string, t: string)
    requires NoNul(s) && NoNul(t)
    ensures NoNul(s + t)
  {}

  // ---------------------------------------------------------------------------------------
  // What the buffer holds under way
  // ---------------------------------------------------------------------------------------

  /** The written part is the path so far, either with the slash for what follows or, while the
      slash has not come by, without. */
  ghost predicate Stands(t: string, r: Resolved, slashed: bool) {
    t == r.Slashed() || (!slashed && r.Parts() != [] && t == r.Text())
  }

  /** What is written says what was read. */
  ghost predicate Tells(t: string, s: string, p: nat)
    requires p <= |s|
  {
    if p == 0 then t == "" else Stands(t, StateAt(s, p), StartsAt(s, p))
  }

  /** The written part is behind what is still to be read, and that is as it was. */
  ghost predicate Layout(b: string, s: string, p: nat, w: nat) {
    var ok :=
      && w <= p <= |s| < |b|
      && NoNul(s) && b[|s|] == NUL && (forall k :: p <= k < |s| ==> b[k] == s[k])
      && NoNul(b[..w])
      && (IsAbsolute(s) || b[0] != '/')
      && (StartsAt(s, p) || p == |s| || s[p] == '/');
    ok
  }

  /** After reading p characters of s and writing w. */
  ghost predicate Progress(b: string, s: string, p: nat, w: nat) {
    Layout(b, s, p, w) && Tells(b[..w], s, p)
  }

  lemma SlashedEnd(r: Resolved)
    ensures r.Slashed() == "" || r.Slashed()[|r.Slashed()| - 1] == '/'
    ensures r.Slashed() == "" ==> r.Parts() == [] && !r.absolute
    ensures r.Parts() == [] ==> |r.Slashed()| <= 1
    ensures r.absolute ==> r.Slashed() != ""
  {
    if r.Parts() != [] {
      SplitText(r);
    }
  }

  lemma TextEnd(r: Resolved)
    requires r.Normal() && r.Parts() != []
    ensures r.Text() != "" && r.Text()[|r.Text()| - 1] != '/' && r.Slashed() == r.Text() + "/"
  {
    SplitText(r);
    PartsHaveNoSlash(r);
  }

  /** What is written in the buffer says what the path so far is. */
  lemma SlashedIsInjective(r: Resolved, r': Resolved)
    requires r.Normal() && r'.Normal() && r.Slashed() == r'.Slashed() && r.absolute == r'.absolute
    ensures r == r'
  {
    PrefixIsEmpty(r);
    PartsHaveNoSlash(r);
    PartsHaveNoSlash(r');
    FrontOf(r.Prefix(), r.Parts());
    FrontOf(r'.Prefix(), r'.Parts());
    SameParts(r, r');
  }

  lemma UpsComeFirst(r: Resolved)
    requires r.Normal()
    ensures r.ups <= |r.Parts()|
    ensures forall k :: 0 <= k < |r.Parts()| ==> (r.Parts()[k] == ".." <==> k < r.ups)
  {}

  lemma SameParts(r: Resolved, r': Resolved)
    requires r.Normal() && r'.Normal() && r.Parts() == r'.Parts() && r.absolute == r'.absolute
    ensures r == r'
  {
    UpsComeFirst(r);
    UpsComeFirst(r');
    var n := |r.Parts()|;
    assert r.ups == n || r.Parts()[r.ups] != "..";
    assert r'.ups == n || r'.Parts()[r'.ups] != "..";
    assert r.names == r.Parts()[r.ups..] && r'.names == r'.Parts()[r'.ups..];
  }

  const NOTHING := Resolved(false, 0, [])
  const ONE_UP := Resolved(false, 1, [])
  const ROOT := Resolved(true, 0, [])

  lemma Written()
    ensures NOTHING.Slashed() == "" && ONE_UP.Slashed() == "../" && ROOT.Slashed() == "/"
  {
    assert NOTHING.Parts() == [] && ROOT.Parts() == [] && ONE_UP.Parts() == [".."];
    DirsAppend([], "..");
    assert [] + [".."] == [".."] && ".." + "/" == "../";
  }

  lemma WrittenAs(r: Resolved, r': Resolved)
    requires r.Normal() && r'.Normal()
    ensures r.Slashed() == r'.Slashed() <==> r == r'
  {
    AbsoluteStart(r);
    AbsoluteStart(r');
    if r.Slashed() == r'.Slashed() {
      SlashedIsInjective(r, r');
    }
  }

  /** The three tests of path_normalize on what is written so far. */
  lemma WhatIsWritten(r: Resolved)
    requires r.Normal()
    ensures r.Slashed() == "" <==> r == NOTHING
    ensures r.Slashed() == "../" <==> r == ONE_UP
    ensures r.Slashed() == "/" <==> r == ROOT
  {
    Written();
    WrittenAs(r, NOTHING);
    WrittenAs(r, ONE_UP);
    WrittenAs(r, ROOT);
  }

  lemma AbsoluteStart(r: Resolved)
    requires r.Normal()
    ensures IsAbsolute(r.Slashed()) == r.absolute
  {
    if r.Parts() != [] {
      TextReadsBack(r);
      TextEnd(r);
    }
  }

  // ---------------------------------------------------------------------------------------
  // The steps of path_normalize
  // ---------------------------------------------------------------------------------------

  lemma StateAfterSlash(s: string, p: nat)
    requires p < |s| && s[p] == '/'
    ensures StartsAt(s, p + 1) && StateAt(s, p + 1) == StateAt(s, p)
  {
    ScanUnfold(s, p + 1);
  }

  lemma StateAfterComponent(s: string, p: nat, q: nat, c: string)
    requires p < q <= |s| && StartsAt(s, p) && c == s[p..q] && NoSlash(c)
    ensures StateAt(s, q) == StateAt(s, p).Push(c) && !StartsAt(s, q)
  {
    ScanComponent(s, p, q, c);
    ResolveNext(IsAbsolute(s), Scan(s, p), c);
    assert s[q - 1] == c[q - p - 1];
  }

  predicate LacksSlash(t: string) {
    t != "" && t[|t| - 1] != '/'
  }

  /** A slash that is written completes the last component; one that is not written was there. */
  lemma SlashStep(t: string, r: Resolved)
    requires r.Normal() && Stands(t, r, false)
    ensures (if LacksSlash(t) then t + "/" else t) == r.Slashed()
  {
    SlashedEnd(r);
    if r.Parts() != [] {
      TextEnd(r);
    }
  }

  lemma FirstSlash(s: string)
    requires IsAbsolute(s)
    ensures "/" == StateAt(s, 1).Slashed()
  {
    StateAfterSlash(s, 0);
    assert Scan(s, 0) == [];
    assert Resolved(true, 0, []).Parts() == [];
  }

  ghost predicate WritesSlash(b: string, w: nat)
    requires w < |b|
  {
    (w == 0 && b[0] == '/') || (w > 0 && b[w - 1] != '/')
  }

  lemma StandsEnd(t: string, r: Resolved)
    requires r.Normal() && Stands(t, r, false)
    ensures t == "" ==> !r.absolute
  {
    SlashedEnd(r);
    if r.Parts() != [] {
      TextEnd(r);
    }
  }

  lemma AbsoluteIsWritten(t: string, s: string, p: nat)
    requires p <= |s| && Tells(t, s, p) && 0 < p
    ensures t == "" ==> !IsAbsolute(s)
  {
    StateIsNormal(s, p);
    StandsEnd(t, StateAt(s, p));
  }

  /** What is written after a slash. */
  lemma TellsAfterSlash(t: string, s: string, p: nat, add: bool)
    requires p < |s| && s[p] == '/' && Tells(t, s, p)
    requires add == if t == "" then p == 0 else LacksSlash(t)
    ensures Tells(if add then t + "/" else t, s, p + 1)
  {
    StateAfterSlash(s, p);
    StateIsNormal(s, p);
    if p == 0 {
      assert t + "/" == "/";
      FirstSlash(s);
    } else {
      AbsoluteIsWritten(t, s, p);
      SlashStep(t, StateAt(s, p));
    }
  }

  lemma LayoutSlash(b: string, s: string, p: nat, w: nat, b': string)
    requires Layout(b, s, p, w) && p < |s| && s[p] == '/' && (w == 0 ==> p == 0) && b' == b[w := '/']
    ensures Layout(b', s, p + 1, w + 1) && b'[..w + 1] == b[..w] + "/"
  {
    assert b'[..w + 1] == b[..w] + "/";
  }

  lemma LooksAt(b: string, w: nat, t: string)
    requires w < |b| && t == b[..w]
    ensures WritesSlash(b, w) == if t == "" then b[0] == '/' else LacksSlash(t)
  {}

  lemma AddsSlash(b: string, s: string, p: nat, w: nat, t: string)
    requires Layout(b, s, p, w) && t == b[..w] && Tells(t, s, p) && p < |s| && s[p] == '/'
    ensures WritesSlash(b, w) == if t == "" then p == 0 else LacksSlash(t)
  {
    LooksAt(b, w, t);
    if p > 0 {
      AbsoluteIsWritten(t, s, p);
    }
  }

  lemma SlashWritten(b: string, s: string, p: nat, w: nat, b': string)
    requires Progress(b, s, p, w) && p < |s| && s[p] == '/' && WritesSlash(b, w) && b' == b[w := '/']
    ensures Progress(b', s, p + 1, w + 1)
  {
    AddsSlash(b, s, p, w, b[..w]);
    TellsAfterSlash(b[..w], s, p, true);
    LayoutSlash(b, s, p, w, b');
  }

  lemma SlashSkipped(b: string, s: string, p: nat, w: nat)
    requires Progress(b, s, p, w) && p < |s| && s[p] == '/' && !WritesSlash(b, w)
    ensures Progress(b, s, p + 1, w)
  {
    AddsSlash(b, s, p, w, b[..w]);
    TellsAfterSlash(b[..w], s, p, false);
  }

  /** A component that is kept. */
  lemma KeptComponent(r: Resolved, c: string)
    requires r.Normal() && NoSlash(c) && Kept(r, c)
    ensures Stands(r.Slashed() + c, r.Push(c), false)
  {
    PushKept(r, c);
    var r' := r.Push(c);
    assert r'.Slashed() == (r.Slashed() + c) + "/";
    SplitText(r');
  }

  /** A ".." that is not kept takes the last component away or, at the root, nothing. */
  lemma DroppedComponent(r: Resolved) returns (last: string)
    requires r.Normal() && r != NOTHING && r != ONE_UP && r != ROOT
    ensures NoSlash(last) && r.Slashed() == r.Push("..").Slashed() + last + "/"
  {
    PushUp(r);
    PartsHaveNoSlash(r);
    last := r.Parts()[|r.Parts()| - 1];
    assert r.Push("..").Slashed() + (last + "/") == r.Push("..").Slashed() + last + "/";
  }

  lemma TellsBefore(t: string, s: string, p: nat)
    requires p < |s| && s[p] != '/' && StartsAt(s, p) && Tells(t, s, p)
    ensures t == StateAt(s, p).Slashed() && StateAt(s, p).Normal()
  {
    StateIsNormal(s, p);
    if p == 0 {
      Written();
      assert StateAt(s, p) == NOTHING;
    }
  }

  /** What is written after a component: it is appended, dropped, or it takes the last one away. */
  lemma TellsAfterComponent(t: string, s: string, p: nat, q: nat, c: string)
    requires p < q <= |s| && c == s[p..q] && NoSlash(c) && StartsAt(s, p) && Tells(t, s, p)
    ensures t == StateAt(s, p).Slashed() && StateAt(s, p).Normal()
    ensures Kept(StateAt(s, p), c) ==> Tells(t + c, s, q)
    ensures StateAt(s, p).Push(c) == StateAt(s, p) ==> Tells(t, s, q)
    ensures Tells(StateAt(s, p).Push(c).Slashed(), s, q)
  {
    assert s[p] == c[0];
    TellsBefore(t, s, p);
    StateAfterComponent(s, p, q, c);
    if Kept(StateAt(s, p), c) {
      KeptComponent(StateAt(s, p), c);
    }
  }

  /** A piece of the buffer copied further to the front. */
  function Moved(b: string, w: nat, p: nat, len: nat): string
    requires w <= p && p + len <= |b|
  {
    b[..w] + b[p..p + len] + b[w + len..]
  }

  lemma MovedIs(b: string, w: nat, p: nat, len: nat, b': string)
    requires w <= p && p + len <= |b| == |b'|
    requires forall k :: 0 <= k < w || w + len <= k < |b| ==> b'[k] == b[k]
    requires forall k :: w <= k < w + len ==> b'[k] == b[p + (k - w)]
    ensures b' == Moved(b, w, p, len)
  {
    var m := Moved(b, w, p, len);
    assert |m| == |b| && forall k :: 0 <= k < |b| ==> b'[k] == m[k];
  }

  lemma LayoutKept(b: string, s: string, p: nat, q: nat, w: nat, b': string)
    requires Layout(b, s, p, w) && p < q <= |s| && NoSlash(s[p..q]) && (q == |s| || s[q] == '/')
    requires b' == Moved(b, w, p, q - p)
    ensures Layout(b', s, q, w + q - p) && b'[..w + q - p] == b[..w] + s[p..q]
  {
    assert b[p..q] == s[p..q];
    NoNulAppend(b[..w], s[p..q]);
    assert b'[..w + q - p] == b[..w] + s[p..q];
    assert s[p..q][0] == s[p];
    assert w == 0 ==> b'[0] == s[p];
  }

  /** The written part only gets shorter. */
  lemma LayoutShorter(b: string, s: string, p: nat, q: nat, w: nat, w': nat)
    requires Layout(b, s, p, w) && p < q <= |s| && w' <= w && (q == |s| || s[q] == '/')
    ensures Layout(b, s, q, w')
  {
    assert forall k :: 0 <= k < w' ==> b[..w'][k] == b[..w][k];
  }

  /** strchr for a slash, or the end of the text. */
  method EndOfComponent(path: array<char>, p: nat, ghost s: string) returns (q: nat)
    requires |s| < path.Length && p < |s| && NoNul(s) && path[|s|] == NUL
    requires forall k :: p <= k < |s| ==> path[k] == s[k]
    requires s[p] != '/'
    ensures p < q <= |s| && (q == |s| || s[q] == '/') && forall k :: p <= k < q ==> s[k] != '/'
  {
    q := p;
    while path[q] != '/' && path[q] != NUL
      invariant p <= q <= |s|
      invariant forall k :: p <= k < q ==> s[k] != '/'
      decreases |s| - q
    {
      q := q + 1;
    }
  }

  /** memmove from p to w within the buffer, w not behind p. */
  method MoveDown(path: array<char>, w: nat, p: nat, len: nat)
    requires w <= p && p + len <= path.Length
    modifies path
    ensures path[..] == Moved(old(path[..]), w, p, len)
  {
    forall i | 0 <= i < len {
      path[w + i] := path[p + i];
    }
    MovedIs(old(path[..]), w, p, len, path[..]);
  }

  /** Back over a slash and the component before it. */
  method StepBack(path: array<char>, w: nat, ghost front: string, ghost last: string) returns (w': nat)
    requires w <= path.Length && path[..w] == front + last + "/" && NoSlash(last)
    requires front == "" || front[|front| - 1] == '/'
    ensures w' == |front|
  {
    w' := w;
    if w' > 0 && path[w' - 1] == '/' {
      w' := w' - 1;
    }
    ghost var text := front + last + "/";
    assert text[w - 1] == '/' && forall k :: 0 <= k < w ==> path[k] == text[k];
    assert forall k :: |front| <= k < |front| + |last| ==> text[k] == last[k - |front|];
    while w' > 0 && path[w' - 1] != '/'
      invariant |front| <= w' <= |front| + |last|
    {
      w' := w' - 1;
    }
  }

  /** A slash is written unless one is there or, in a relative path, nothing is. */
  method NormalizeSlash(path: array<char>, p: nat, w: nat, ghost s: string) returns (w': nat)
    requires Progress(path[..], s, p, w) && p < |s| && s[p] == '/'
    modifies path
    ensures Progress(path[..], s, p + 1, w')
    ensures forall k :: |s| < k < path.Length ==> path[k] == old(path[k])
  {
    w' := w;
    ghost var b := path[..];
    if (w == 0 && path[0] == '/') || (w > 0 && path[w - 1] != '/') {
      SlashWritten(b, s, p, w, b[w := '/']);
      path[w] := '/';
      w' := w + 1;
      assert path[..] == b[w := '/'];
    } else {
      SlashSkipped(b, s, p, w);
    }
  }

  lemma KeptStep(b: string, s: string, p: nat, q: nat, w: nat, b': string)
    requires Progress(b, s, p, w) && StartsAt(s, p)
    requires p < q <= |s| && NoSlash(s[p..q]) && (q == |s| || s[q] == '/')
    requires Kept(StateAt(s, p), s[p..q]) && b' == Moved(b, w, p, q - p)
    ensures Progress(b', s, q, w + q - p)
  {
    TellsAfterComponent(b[..w], s, p, q, s[p..q]);
    LayoutKept(b, s, p, q, w, b');
  }

  lemma DroppedStep(b: string, s: string, p: nat, q: nat, w: nat)
    requires Progress(b, s, p, w) && StartsAt(s, p)
    requires p < q <= |s| && NoSlash(s[p..q]) && (q == |s| || s[q] == '/')
    requires StateAt(s, p).Push(s[p..q]) == StateAt(s, p)
    ensures Progress(b, s, q, w)
  {
    TellsAfterComponent(b[..w], s, p, q, s[p..q]);
    LayoutShorter(b, s, p, q, w, w);
  }

  lemma PoppedTells(t: string, s: string, p: nat, q: nat, c: string, front: string, last: string)
    requires p < q <= |s| && c == s[p..q] && NoSlash(c) && StartsAt(s, p) && Tells(t, s, p)
    requires front == StateAt(s, p).Push(c).Slashed() && StateAt(s, p).Slashed() == front + last + "/"
    ensures t == front + last + "/" && Tells(front, s, q)
    ensures |front| <= |t| && t[..|front|] == front
  {
    TellsAfterComponent(t, s, p, q, c);
  }

  lemma PoppedStep(b: string, s: string, p: nat, q: nat, w: nat, c: string, front: string, last: string)
    requires Progress(b, s, p, w) && StartsAt(s, p)
    requires p < q <= |s| && c == s[p..q] && NoSlash(c) && (q == |s| || s[q] == '/')
    requires front == StateAt(s, p).Push(c).Slashed() && StateAt(s, p).Slashed() == front + last + "/"
    ensures b[..w] == front + last + "/" && Progress(b, s, q, |front|)
  {
    var t, n := b[..w], |front|;
    PoppedTells(t, s, p, q, c, front, last);
    assert t[..n] == b[..n];
    LayoutShorter(b, s, p, q, w, n);
  }

  lemma TestsAtComponent(b: string, s: string, p: nat, w: nat)
    requires Progress(b, s, p, w) && StartsAt(s, p) && p < |s| && s[p] != '/'
    ensures StateAt(s, p).Normal()
    ensures StateAt(s, p) == NOTHING || StateAt(s, p) == ONE_UP <==> w == 0 || (w == 3 && b[..3] == "../")
    ensures StateAt(s, p) == ROOT <==> w == 1 && b[0] == '/'
  {
    TellsBefore(b[..w], s, p);
    WhatIsWritten(StateAt(s, p));
    assert w == 1 ==> b[..w] == [b[0]];
  }

  /** A component that is not "." or ".." is added. */
  method AddComponent(path: array<char>, p: nat, q: nat, w: nat, ghost s: string) returns (w': nat)
    requires Progress(path[..], s, p, w) && StartsAt(s, p)
    requires p < q <= |s| && NoSlash(s[p..q]) && (q == |s| || s[q] == '/')
    requires Kept(StateAt(s, p), s[p..q])
    modifies path
    ensures Progress(path[..], s, q, w')
    ensures forall k :: |s| < k < path.Length ==> path[k] == old(path[k])
  {
    ghost var b := path[..];
    MoveDown(path, w, p, q - p);
    KeptStep(b, s, p, q, w, path[..]);
    w' := w + (q - p);
    assert forall k :: |s| < k < path.Length ==> path[..][k] == b[k];
  }

  /** A ".." is kept at the beginning of a relative path, has no effect at the root, and otherwise
      takes the component before it away. */
  method UpComponent(path: array<char>, p: nat, q: nat, w: nat, ghost s: string) returns (w': nat)
    requires Progress(path[..], s, p, w) && StartsAt(s, p)
    requires p < q <= |s| && s[p..q] == ".." && (q == |s| || s[q] == '/')
    modifies path
    ensures Progress(path[..], s, q, w')
    ensures forall k :: |s| < k < path.Length ==> path[k] == old(path[k])
  {
    assert NoSlash("..") && s[p..q][0] == s[p];
    TestsAtComponent(path[..], s, p, w);
    if w == 0 || (w == 3 && path[..3] == "../") {
      w' := AddComponent(path, p, q, w, s);
    } else if w == 1 && path[0] == '/' {
      w' := w;
      DroppedStep(path[..], s, p, q, w);
    } else {
      ghost var front := StateAt(s, p).Push("..").Slashed();
      ghost var last := DroppedComponent(StateAt(s, p));
      SlashedEnd(StateAt(s, p).Push(".."));
      PoppedStep(path[..], s, p, q, w, "..", front, last);
      w' := StepBack(path, w, front, last);
    }
  }

  lemma DotsAt(b: string, s: string, p: nat, q: nat)
    requires p < q <= |s| <= |b| && forall k :: p <= k < |s| ==> b[k] == s[k]
    ensures s[p..q] == "." <==> q - p == 1 && b[p] == '.'
    ensures s[p..q] == ".." <==> q - p == 2 && b[p] == '.' && b[p + 1] == '.'
  {
    assert s[p..q][0] == b[p];
    assert q - p == 1 ==> s[p..q] == [b[p]];
    assert q - p == 2 ==> s[p..q] == [b[p], b[p + 1]];
  }

  /** One component. */
  method NormalizeComponent(path: array<char>, p: nat, q: nat, w: nat, ghost s: string) returns (w': nat)
    requires Progress(path[..], s, p, w) && StartsAt(s, p)
    requires p < q <= |s| && NoSlash(s[p..q]) && (q == |s| || s[q] == '/')
    modifies path
    ensures Progress(path[..], s, q, w')
    ensures forall k :: |s| < k < path.Length ==> path[k] == old(path[k])
  {
    ghost var b := path[..];
    var len := q - p;
    DotsAt(b, s, p, q);
    if len == 1 && path[p] == '.' {
      w' := w;
      DroppedStep(b, s, p, q, w);
    } else if len == 2 && path[p] == '.' && path[p + 1] == '.' {
      w' := UpComponent(path, p, q, w, s);
    } else {
      w' := AddComponent(path, p, q, w, s);
    }
  }

  lemma TextWithoutSlash(r: Resolved, t: string)
    requires r.Normal() && Stands(t, r, false)
    ensures t == r.Text() || (|t| > 1 && t == r.Text() + "/")
    ensures r.Text() == "" || r.Text() == "/" || r.Text()[|r.Text()| - 1] != '/'
  {
    if r.Parts() != [] {
      TextEnd(r);
    }
  }

  /** Trailing slashes go, but not the one at the start. */
  method DropSlashes(path: array<char>, w: nat, ghost text: string) returns (w': nat)
    requires w <= path.Length && (path[..w] == text || (w > 1 && path[..w] == text + "/"))
    requires text == "" || text == "/" || text[|text| - 1] != '/'
    ensures w' == |text| <= w && path[..w'] == text
  {
    w' := w;
    assert forall k :: 0 <= k < w ==> path[k] == path[..w][k];
    assert |text| > 1 ==> path[|text| - 1] == text[|text| - 1];
    while w' > 1 && path[w' - 1] == '/'
      invariant |text| <= w' <= w
    {
      w' := w' - 1;
    }
  }

  lemma NormalizeOf(s: string, b: string, w: nat)
    requires Progress(b, s, |s|, w)
    ensures b[..w] == Normalize(s) || (w > 1 && b[..w] == Normalize(s) + "/")
    ensures Normalize(s) == "" || Normalize(s) == "/" || Normalize(s)[|Normalize(s)| - 1] != '/'
  {
    var r := StateAt(s, |s|);
    StateIsNormal(s, |s|);
    if s == "" {
      assert r == NOTHING && NOTHING.Text() == "";
    } else {
      TextWithoutSlash(r, b[..w]);
    }
  }

  /** The end of path_normalize: a terminator after the normal form. */
  method Terminate(path: array<char>, w: nat, ghost s: string)
    requires Progress(path[..], s, |s|, w)
    modifies path
    ensures Reads(path[..], Normalize(s))
    ensures forall k :: |s| < k < path.Length ==> path[k] == old(path[k])
  {
    ghost var b := path[..];
    NormalizeOf(s, b, w);
    var end := DropSlashes(path, w, Normalize(s));
    ReadsNormal(s, b, w);
    path[end] := NUL;
    assert path[..] == b[end := NUL];
  }

  lemma ReadsNormal(s: string, b: string, w: nat)
    requires Progress(b, s, |s|, w) && |Normalize(s)| <= w && b[..|Normalize(s)|] == Normalize(s)
    ensures Reads(b[|Normalize(s)| := NUL], Normalize(s))
  {
    assert forall k :: 0 <= k < |Normalize(s)| ==> Normalize(s)[k] == b[..w][k];
  }

  /** path_normalize: the buffer ends up holding the normal form, in the room the path had. */
  method NormalizeInPlace(path: array<char>, ghost s: string)
    requires Reads(path[..], s)
    modifies path
    ensures Reads(path[..], Normalize(s))
    ensures forall k :: |s| < k < path.Length ==> path[k] == old(path[k])
  {
    var p: nat, w: nat := 0, 0;
    assert path[..0] == "" && Progress(path[..], s, 0, 0);
    while path[p] != NUL
      invariant Progress(path[..], s, p, w)
      invariant forall k :: |s| < k < path.Length ==> path[k] == old(path[k])
      decreases |s| - p
    {
      if path[p] == '/' {
        w := NormalizeSlash(path, p, w, s);
        p := p + 1;
      } else {
        var q := EndOfComponent(path, p, s);
        w := NormalizeComponent(path, p, q, w, s);
        p := q;
      }
    }
    Terminate(path, w, s);
  }

  // ---------------------------------------------------------------------------------------
  // Combining
  // ---------------------------------------------------------------------------------------

  /** strlcpy to a place in the buffer with this much room. */
  method CopyText(path: array<char>, at: nat, text: string, size: nat)
    requires at + size <= path.Length && NoNul(text)
    modifies path
    ensures size == 0 ==> path[..] == old(path[..])
    ensures size > 0 ==> Reads(path[at..], Cut(text, size))
    ensures forall k :: 0 <= k < at || at + size <= k < path.Length ==> path[k] == old(path[k])
  {
    if size > 0 {
      var len := if |text| < size then |text| else size - 1;
      forall i | 0 <= i < len {
        path[at + i] := text[i];
      }
      path[at + len] := NUL;
      assert path[at..][..len] == text[..len] == Cut(text, size);
    }
  }

  /** strrchr for a slash. */
  method LastSlash(path: array<char>, ghost t: string) returns (found: bool, p: nat)
    requires Reads(path[..], t)
    ensures found ==> p < |t| && t[p] == '/' && LastStart(t, |t|) == p + 1
    ensures !found ==> LastStart(t, |t|) == 0 && !IsAbsolute(t)
  {
    var i: nat := 0;
    found, p := false, 0;
    assert forall k :: 0 <= k < |t| ==> path[k] == t[k];
    while path[i] != NUL
      invariant i <= |t|
      invariant LastStart(t, i) == if found then p + 1 else 0
      invariant found ==> p < i && t[p] == '/'
      invariant !found ==> i == 0 || t[0] != '/'
      decreases |t| - i
    {
      if path[i] == '/' {
        found, p := true, i;
      }
      i := i + 1;
    }
  }

  lemma JoinReads(b: string, dir: string, rest: string)
    requires |dir| <= |b| && b[..|dir|] == dir && NoNul(dir) && Reads(b[|dir|..], rest)
    ensures Reads(b, dir + rest)
  {
    assert b[..|dir| + |rest|] == dir + rest;
    NoNulAppend(dir, rest);
  }

  lemma CutJoin(dir: string, dst: string, size: nat)
    requires |dir| < size
    ensures dir + Cut(dst, size - |dir|) == Cut(dir + dst, size)
  {}

  lemma DirFits(t: string)
    requires NoNul(t)
    ensures |DirOf(t)| <= |t| && NoNul(DirOf(t))
  {}

  /** The place after the last slash. Only when the copy of a path from the root has no room for
      its first character is there none, and then the slash is written again. */
  method StartOfName(src: string, path: array<char>, ghost t: string) returns (p: nat)
    requires Reads(path[..], t) && (t == "" || IsAbsolute(t) == IsAbsolute(src))
    modifies path
    ensures t != "" || !IsAbsolute(src) ==> p == LastStart(t, |t|) && path[..] == old(path[..])
    ensures t == "" && IsAbsolute(src) ==> p == 1 && path[..] == old(path[..])[0 := '/']
  {
    var found, last := LastSlash(path, t);
    if found {
      p := last + 1;
    } else if src != "" && src[0] == '/' {
      path[0] := '/';
      p := 1;
    } else {
      p := 0;
    }
  }

  /** The destination copied after what is kept of the source. */
  method CopyAfter(path: array<char>, p: nat, dst: string, size: nat, ghost dir: string)
    requires NoNul(dst) && NoNul(dir) && p == |dir| < size <= path.Length && path[..p] == dir
    modifies path
    ensures Reads(path[..], Cut(dir + dst, size))
    ensures forall k :: size <= k < path.Length ==> path[k] == old(path[k])
  {
    CopyText(path, p, dst, size - p);
    assert path[..][p..] == path[p..] && path[..][..p] == dir;
    JoinReads(path[..], dir, Cut(dst, size - p));
    CutJoin(dir, dst, size);
  }

  lemma CutKeepsStart(src: string, size: nat)
    requires size > 0 && NoNul(src)
    ensures var t := Cut(src, size);
      && (t == "" || IsAbsolute(t) == IsAbsolute(src))
      && (t == "" ==> src == "" || size == 1)
      && |t| < size && NoNul(t)
  {}

  /** path_combine: the destination alone, or after the directory part of the source, cut to the
      buffer. Only a one-character buffer for a path from the root is left without terminator. */
  method CombineInto(src: string, dst: string, path: array<char>, size: nat)
    requires NoNul(src) && NoNul(dst) && 0 < size <= path.Length
    modifies path
    ensures size > 1 || !IsAbsolute(src) || IgnoresSource(dst) ==> Reads(path[..], CombineIn(src, dst, size))
    ensures size == 1 && IsAbsolute(src) && !IgnoresSource(dst) ==> path[0] == '/'
    ensures forall k :: size <= k < path.Length ==> path[k] == old(path[k])
  {
    if dst != "" && (dst[0] == '/' || dst[0] == '~') {
      CopyText(path, 0, dst, size);
      assert path[0..] == path[..];
    } else {
      CopyText(path, 0, src, size);
      assert path[0..] == path[..];
      ghost var t := Cut(src, size);
      CutKeepsStart(src, size);
      DirFits(t);
      var p := StartOfName(src, path, t);
      if p < size {
        assert path[..p] == path[..][..p] == DirOf(t);
        CopyAfter(path, p, dst, size, DirOf(t));
      } else {
        CopyText(path, p, dst, size - p);
      }
    }
  }

  /** path_combine_and_normalize: in a buffer with room, the normal form of the combined path. */
  method CombineAndNormalize(src: string, dst: string, path: array<char>, size: nat)
    requires NoNul(src) && NoNul(dst) && 0 < size <= path.Length
    requires size > 1 || !IsAbsolute(src) || IgnoresSource(dst)
    modifies path
    ensures Reads(path[..], Normalize(CombineIn(src, dst, size)))
    ensures |Combine(src, dst)| < size ==> Reads(path[..], Normalize(Combine(src, dst)))
  {
    CombineInto(src, dst, path, size);
    NormalizeInPlace(path, CombineIn(src, dst, size));
    CombineFitsIff(src, dst, size);
  }
}
