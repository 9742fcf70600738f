/** Map paths: what combining and normalising mean, on strings (common/path.cpp). */
module Paths {

  // ---------------------------------------------------------------------------------------
  // Components
  // ---------------------------------------------------------------------------------------

  predicate NoSlash(c: string) {
    c != "" && forall i :: 0 <= i < |c| ==> c[i] != '/'
  }

  /** A component may begin at position i. */
  predicate StartsAt(s: string, i: nat)
    requires i <= |s|
  {
    i == 0 || s[i - 1] == '/'
  }

  /** The components after one more character: a slash changes nothing, any other character begins
      a component or makes the last one longer. */
  function Extend(cs: seq<string>, c: char, start: bool): seq<string>
    requires !start ==> cs != []
  {
    if c == '/' then cs
    else if start then cs + [[c]]
    else cs[..|cs| - 1] + [cs[|cs| - 1] + [c]]
  }

  /** The non-empty pieces between slashes among the first i characters. */
  function Scan(s: string, i: nat): (cs: seq<string>)
    requires i <= |s|
    ensures !StartsAt(s, i) ==> cs != []
  {
    if i == 0 then [] else Extend(Scan(s, i - 1), s[i - 1], StartsAt(s, i - 1))
  }

  function Components(s: string): seq<string> {
    Scan(s, |s|)
  }

  lemma {:induction false} ScanHasNoSlash(s: string, i: nat)
    requires i <= |s|
    ensures forall k :: 0 <= k < |Scan(s, i)| ==> NoSlash(Scan(s, i)[k])
  {
    if i > 0 {
      ScanHasNoSlash(s, i - 1);
    }
  }

  /** Only the characters scanned matter. */
  lemma {:induction false} ScanPrefix(s: string, r: string, i: nat)
    requires i <= |s| && i <= |r| && forall k :: 0 <= k < i ==> s[k] == r[k]
    ensures Scan(s, i) == Scan(r, i)
  {
    if i > 0 {
      ScanPrefix(s, r, i - 1);
    }
  }

  lemma ScanUnfold(s: string, i: nat)
    requires 0 < i <= |s|
    ensures Scan(s, i) == Extend(Scan(s, i - 1), s[i - 1], StartsAt(s, i - 1))
  {}

  /** Scanning on from a place where a component may begin. */
  lemma {:induction false} ScanOn(s: string, j: nat, i: nat)
    requires j + i <= |s| && StartsAt(s, j)
    ensures Scan(s, j + i) == Scan(s, j) + Scan(s[j..], i)
    decreases i
  {
    if i == 0 {
      assert Scan(s, j) + [] == Scan(s, j);
    } else {
      ScanOn(s, j, i - 1);
      ScanOnStep(s, j, s[j..], i, Scan(s, j), Scan(s, j + i - 1), Scan(s[j..], i - 1));
    }
  }

  lemma ScanOnStep(s: string, j: nat, r: string, i: nat, a: seq<string>, ab: seq<string>, b: seq<string>)
    requires 0 < i && j + i <= |s| && StartsAt(s, j) && r == s[j..]
    requires ab == Scan(s, j + i - 1) && b == Scan(r, i - 1) && ab == a + b
    ensures Scan(s, j + i) == a + Scan(r, i)
  {
    ScanUnfold(s, j + i);
    ScanUnfold(r, i);
    var c, start := r[i - 1], StartsAt(r, i - 1);
    assert c == s[j + i - 1] && start == StartsAt(s, j + i - 1);
    ExtendConcat(a, b, c, start);
  }

  lemma ExtendConcat(a: seq<string>, b: seq<string>, c: char, start: bool)
    requires !start ==> b != []
    ensures Extend(a + b, c, start) == a + Extend(b, c, start)
  {}

  /** A piece without slashes is one component. */
  lemma {:induction false} ScanPiece(c: string, i: nat)
    requires NoSlash(c) && 0 < i <= |c|
    ensures Scan(c, i) == [c[..i]]
  {
    if i > 1 {
      ScanPiece(c, i - 1);
      assert c[..i - 1] + [c[i - 1]] == c[..i];
    } else {
      assert Scan(c, 0) == [] && c[..1] == [c[0]];
    }
  }

  lemma ComponentsConcat(s: string, r: string)
    requires StartsAt(s, |s|)
    ensures Components(s + r) == Components(s) + Components(r)
  {
    ScanPrefix(s + r, s, |s|);
    ScanOn(s + r, |s|, |r|);
    assert (s + r)[|s|..] == r;
  }

  lemma ComponentsAppend(s: string, c: string)
    requires StartsAt(s, |s|) && NoSlash(c)
    ensures Components(s + c) == Components(s) + [c]
  {
    ComponentsConcat(s, c);
    ScanPiece(c, |c|);
    assert c[..|c|] == c;
  }

  lemma ComponentsOfSlash(s: string)
    ensures Components(s + "/") == Components(s)
  {
    ScanPrefix(s + "/", s, |s|);
  }

  /** Each component followed by a slash. */
  function Dirs(cs: seq<string>): string {
    if cs == [] then "" else Dirs(cs[..|cs| - 1]) + (cs[|cs| - 1] + "/")
  }

  lemma {:induction false} ComponentsOfDirs(cs: seq<string>)
    requires forall i :: 0 <= i < |cs| ==> NoSlash(cs[i])
    ensures StartsAt(Dirs(cs), |Dirs(cs)|) && Components(Dirs(cs)) == cs
  {
    if cs != [] {
      var n := |cs| - 1;
      ComponentsOfDirs(cs[..n]);
      var front, last := Dirs(cs[..n]), cs[n];
      assert front + (last + "/") == (front + last) + "/";
      ComponentsAppend(front, last);
      ComponentsOfSlash(front + last);
      assert cs[..n] + [cs[n]] == cs;
    }
  }

  // ---------------------------------------------------------------------------------------
  // Normal forms
  // ---------------------------------------------------------------------------------------

  /** A path under way: for a relative one, how many leading ".." it has; then the names. */
  datatype Resolved = Resolved(absolute: bool, ups: nat, names: seq<string>) {
    function Parts(): seq<string> {
      seq(ups, i => "..") + names
    }

    /** Parent directories at the front, then names only. */
    predicate Normal() {
      && (absolute ==> ups == 0) && ups <= 2
      && forall i :: 0 <= i < |names| ==> NoSlash(names[i]) && names[i] != "." && names[i] != ".."
    }

    function Prefix(): string {
      if absolute then "/" else ""
    }

    /** How the path stands in the buffer when the next component comes. */
    function Slashed(): string {
      Prefix() + Dirs(Parts())
    }

    /** The path without the slash at the end, unless that is all there is. */
    function Text(): string {
      if Parts() == [] then Prefix() else Slashed()[..|Slashed()| - 1]
    }

    /** What path_normalize does with one component. */
    function Push(c: string): Resolved {
      if c == "." then this
      else if c == ".." then
        if !absolute && names == [] && ups <= 1 then this.(ups := ups + 1)
        else if names != [] then this.(names := names[..|names| - 1])
        else if absolute then this
        else this.(ups := ups - 1)
      else this.(names := names + [c])
    }
  }

  function Resolve(absolute: bool, cs: seq<string>): Resolved {
    if cs == [] then Resolved(absolute, 0, []) else Resolve(absolute, cs[..|cs| - 1]).Push(cs[|cs| - 1])
  }

  predicate IsAbsolute(s: string) {
    s != "" && s[0] == '/'
  }

  /** The result of path_normalize. */
  function Normalize(s: string): string {
    Resolve(IsAbsolute(s), Components(s)).Text()
  }

  lemma {:induction false} ResolveIsNormal(absolute: bool, cs: seq<string>)
    requires forall i :: 0 <= i < |cs| ==> NoSlash(cs[i])
    ensures Resolve(absolute, cs).Normal() && Resolve(absolute, cs).absolute == absolute
  {
    if cs != [] {
      ResolveIsNormal(absolute, cs[..|cs| - 1]);
    }
  }

  lemma PartsHaveNoSlash(r: Resolved)
    requires r.Normal()
    ensures forall i :: 0 <= i < |r.Parts()| ==> NoSlash(r.Parts()[i])
  {
    assert NoSlash("..");
  }

  lemma PrefixIsEmpty(r: Resolved)
    ensures StartsAt(r.Prefix(), |r.Prefix()|) && Components(r.Prefix()) == []
  {
    assert Scan("/", 0) == [];
  }

  /** The text of a normal form has that normal form. */
  lemma {:induction false} TextReadsBack(r: Resolved)
    requires r.Normal()
    ensures IsAbsolute(r.Text()) == r.absolute
    ensures Components(r.Text()) == r.Parts()
  {
    PrefixIsEmpty(r);
    if r.Parts() != [] {
      PartsHaveNoSlash(r);
      SplitText(r);
      var parts, n := r.Parts(), |r.Parts()| - 1;
      var front, last := parts[..n], parts[n];
      assert front + [last] == parts;
      TextOf(r.Prefix(), front, last);
    }
  }

  lemma TextOf(prefix: string, cs: seq<string>, c: string)
    requires StartsAt(prefix, |prefix|) && Components(prefix) == [] && (prefix == "" || prefix == "/")
    requires NoSlash(c) && forall i :: 0 <= i < |cs| ==> NoSlash(cs[i])
    ensures Components(prefix + Dirs(cs) + c) == cs + [c]
    ensures IsAbsolute(prefix + Dirs(cs) + c) == (prefix == "/")
  {
    FrontOf(prefix, cs);
    ComponentsAppend(prefix + Dirs(cs), c);
    FirstCharacter(cs, c);
    StartsIn(prefix, Dirs(cs), c);
  }

  lemma FrontOf(prefix: string, cs: seq<string>)
    requires StartsAt(prefix, |prefix|) && Components(prefix) == []
    requires forall i :: 0 <= i < |cs| ==> NoSlash(cs[i])
    ensures var front := prefix + Dirs(cs); StartsAt(front, |front|) && Components(front) == cs
  {
    ComponentsOfDirs(cs);
    ComponentsConcat(prefix, Dirs(cs));
    assert [] + cs == cs;
    assert cs == [] ==> prefix + Dirs(cs) == prefix;
  }

  lemma StartsIn(prefix: string, front: string, last: string)
    requires prefix == "" || prefix == "/"
    requires last != "" && !IsAbsolute(front + last)
    ensures IsAbsolute(prefix + front + last) == (prefix == "/")
  {
    assert prefix == "" ==> prefix + front + last == front + last;
  }

  /** The last part stands at the end of the text. */
  lemma SplitText(r: Resolved)
    requires r.Parts() != []
    ensures var n := |r.Parts()| - 1;
            r.Text() == r.Prefix() + Dirs(r.Parts()[..n]) + r.Parts()[n] && r.Slashed() == r.Text() + "/"
  {
    var n := |r.Parts()| - 1;
    var front := r.Prefix() + Dirs(r.Parts()[..n]) + r.Parts()[n];
    assert r.Slashed() == front + "/";
    assert (front + "/")[..|front|] == front;
  }

  lemma {:induction false} FirstCharacter(cs: seq<string>, c: string)
    requires NoSlash(c) && forall i :: 0 <= i < |cs| ==> NoSlash(cs[i])
    ensures !IsAbsolute(Dirs(cs) + c)
  {
    if cs == [] {
      assert Dirs(cs) + c == c;
    } else {
      var n := |cs| - 1;
      FirstCharacter(cs[..n], cs[n]);
      assert Dirs(cs) + c == (Dirs(cs[..n]) + cs[n]) + ("/" + c);
    }
  }

  /** What the first k parts of a normal form stand for. */
  function Partial(r: Resolved, k: nat): Resolved
    requires k <= |r.Parts()|
  {
    if k <= r.ups then Resolved(r.absolute, k, []) else Resolved(r.absolute, r.ups, r.names[..k - r.ups])
  }

  lemma {:induction false} ResolveParts(r: Resolved, k: nat)
    requires r.Normal() && k <= |r.Parts()|
    ensures Resolve(r.absolute, r.Parts()[..k]) == Partial(r, k)
  {
    if k > 0 {
      ResolveParts(r, k - 1);
      var ps := r.Parts()[..k];
      assert ps[..|ps| - 1] == r.Parts()[..k - 1] && ps[|ps| - 1] == r.Parts()[k - 1];
      PartialStep(r, k);
    }
  }

  lemma PartialStep(r: Resolved, k: nat)
    requires r.Normal() && 0 < k <= |r.Parts()|
    ensures Partial(r, k - 1).Push(r.Parts()[k - 1]) == Partial(r, k)
  {
    if k > r.ups {
      var i := k - 1 - r.ups;
      assert r.Parts()[k - 1] == r.names[i];
      assert r.names[..i] + [r.names[i]] == r.names[..i + 1];
    }
  }

  /** Normalising twice is normalising once. */
  lemma NormalizeIsIdempotent(s: string)
    ensures Normalize(Normalize(s)) == Normalize(s)
  {
    var r := Resolve(IsAbsolute(s), Components(s));
    ScanHasNoSlash(s, |s|);
    ResolveIsNormal(IsAbsolute(s), Components(s));
    TextReadsBack(r);
    ResolveParts(r, |r.Parts()|);
    assert r.Parts()[..|r.Parts()|] == r.Parts();
    assert r.names[..|r.names|] == r.names;
  }

  // ---------------------------------------------------------------------------------------
  // Length
  // ---------------------------------------------------------------------------------------

  lemma DirsAppend(cs: seq<string>, c: string)
    ensures Dirs(cs + [c]) == Dirs(cs) + (c + "/")
  {
    assert (cs + [c])[..|cs|] == cs;
  }

  /** The components that path_normalize appends, as against those it drops or pops. */
  predicate Kept(r: Resolved, c: string) {
    (c != "." && c != "..") || (c == ".." && !r.absolute && r.names == [] && r.ups <= 1)
  }

  lemma PushKept(r: Resolved, c: string)
    requires r.Normal() && NoSlash(c) && Kept(r, c)
    ensures r.Push(c).Parts() == r.Parts() + [c]
    ensures r.Push(c).Slashed() == r.Slashed() + (c + "/")
  {
    assert r.Push(c).Parts() == r.Parts() + [c];
    DirsAppend(r.Parts(), c);
  }

  lemma PushUp(r: Resolved)
    requires r.Normal() && !Kept(r, "..") && r.Parts() != []
    ensures r.Slashed() == r.Push("..").Slashed() + (r.Parts()[|r.Parts()| - 1] + "/")
  {
    assert r.Push("..").Parts() == r.Parts()[..|r.Parts()| - 1];
  }

  /** How one component changes what is in the buffer. */
  lemma PushFits(r: Resolved, c: string)
    requires r.Normal() && NoSlash(c)
    ensures |r.Push(c).Slashed()| <= |r.Slashed()| + |c| + 1
  {
    if Kept(r, c) {
      PushKept(r, c);
    } else if c == ".." && r.Parts() != [] {
      PushUp(r);
    }
  }

  /** The beginning of the component that character i belongs to or follows. */
  function LastStart(s: string, i: nat): (j: nat)
    requires i <= |s|
    ensures j <= i && StartsAt(s, j) && forall k :: j <= k < i ==> s[k] != '/'
  {
    if StartsAt(s, i) then i else LastStart(s, i - 1)
  }

  lemma ScanTail(s: string, j: nat, i: nat, c: string)
    requires j < i <= |s| && c == s[j..i] && NoSlash(c)
    ensures Scan(s[j..], i - j) == [c]
  {
    ScanPrefix(s[j..], c, i - j);
    ScanPiece(c, i - j);
    assert c[..i - j] == c;
  }

  /** A component ends at i. */
  lemma ScanComponent(s: string, j: nat, i: nat, c: string)
    requires j < i <= |s| && StartsAt(s, j) && c == s[j..i] && NoSlash(c)
    ensures Scan(s, i) == Scan(s, j) + [c]
  {
    ScanOn(s, j, i - j);
    ScanTail(s, j, i, c);
  }

  lemma ResolveNext(absolute: bool, cs: seq<string>, c: string)
    ensures Resolve(absolute, cs + [c]) == Resolve(absolute, cs).Push(c)
  {
    assert (cs + [c])[..|cs|] == cs;
  }

  /** The state after the first i characters. */
  function StateAt(s: string, i: nat): Resolved
    requires i <= |s|
  {
    Resolve(IsAbsolute(s), Scan(s, i))
  }

  lemma StateIsNormal(s: string, i: nat)
    requires i <= |s|
    ensures StateAt(s, i).Normal() && StateAt(s, i).absolute == IsAbsolute(s)
  {
    ScanHasNoSlash(s, i);
    ResolveIsNormal(IsAbsolute(s), Scan(s, i));
  }

  lemma {:induction false} SlashedFits(s: string, i: nat)
    requires i <= |s| && StartsAt(s, i) && (IsAbsolute(s) ==> i > 0)
    ensures |StateAt(s, i).Slashed()| <= i
  {
    if i > 0 {
      var j := LastStart(s, i - 1);
      if IsAbsolute(s) && i == 1 {
        assert Scan(s, 1) == [];
      } else if j == i - 1 {
        SlashedFits(s, j);
        ScanUnfold(s, i);
      } else {
        SlashedFits(s, j);
        ComponentFits(s, j, i, s[j..i - 1]);
      }
    }
  }

  lemma ComponentFits(s: string, j: nat, i: nat, c: string)
    requires j < i - 1 < |s| && StartsAt(s, j) && StartsAt(s, i) && c == s[j..i - 1] && NoSlash(c)
    ensures |StateAt(s, i).Slashed()| <= |StateAt(s, j).Slashed()| + |c| + 1
  {
    ScanComponent(s, j, i - 1, c);
    ScanUnfold(s, i);
    StateIsNormal(s, j);
    ResolveNext(IsAbsolute(s), Scan(s, j), c);
    PushFits(StateAt(s, j), c);
  }

  lemma TextFits(r: Resolved, n: nat)
    requires |r.Slashed()| <= n + 1 && (r.absolute ==> n > 0)
    ensures |r.Text()| <= n
  {
    if r.Parts() != [] {
      SplitText(r);
    }
  }

  /** Normalising never makes a path longer. */
  lemma NormalizeIsNotLonger(s: string)
    ensures |Normalize(s)| <= |s|
  {
    var n := |s|;
    StateIsNormal(s, n);
    if StartsAt(s, n) {
      if n > 0 {
        SlashedFits(s, n);
      } else {
        assert Resolved(false, 0, []).Slashed() == "";
      }
    } else {
      var t := s + "/";
      ComponentsOfSlash(s);
      assert StateAt(t, n + 1) == StateAt(s, n);
      SlashedFits(t, n + 1);
    }
    TextFits(StateAt(s, n), n);
  }

  // ---------------------------------------------------------------------------------------
  // Meaning
  // ---------------------------------------------------------------------------------------

  /** Where a walk along components ends, from a directory given by its path from the root. */
  function Walk(dir: seq<string>, cs: seq<string>): seq<string> {
    if cs == [] then dir else GoTo(Walk(dir, cs[..|cs| - 1]), cs[|cs| - 1])
  }

  function GoTo(dir: seq<string>, c: string): seq<string> {
    if c == "." then dir
    else if c == ".." then (if dir == [] then dir else dir[..|dir| - 1])
    else dir + [c]
  }

  lemma {:induction false} WalkConcat(dir: seq<string>, a: seq<string>, b: seq<string>)
    ensures Walk(dir, a + b) == Walk(Walk(dir, a), b)
  {
    if b == [] {
      assert a + b == a;
    } else {
      var n := |b| - 1;
      assert (a + b)[..|a + b| - 1] == a + b[..n];
      WalkConcat(dir, a, b[..n]);
    }
  }

  /** Names only are walked by appending them. */
  lemma {:induction false} WalkNames(dir: seq<string>, names: seq<string>)
    requires forall i :: 0 <= i < |names| ==> names[i] != "." && names[i] != ".."
    ensures Walk(dir, names) == dir + names
  {
    if names != [] {
      WalkNames(dir, names[..|names| - 1]);
    }
  }

  lemma {:induction false} WalkUps(dir: seq<string>, k: nat)
    ensures Walk(dir, seq(k, i => "..")) == dir[..if k <= |dir| then |dir| - k else 0]
  {
    if k > 0 {
      assert seq(k, i => "..")[..k - 1] == seq(k - 1, i => "..");
      WalkUps(dir, k - 1);
    }
  }

  lemma WalkParts(dir: seq<string>, r: Resolved)
    requires r.Normal()
    ensures Walk(dir, r.Parts()) == dir[..if r.ups <= |dir| then |dir| - r.ups else 0] + r.names
  {
    WalkConcat(dir, seq(r.ups, i => ".."), r.names);
    WalkUps(dir, r.ups);
    WalkNames(Walk(dir, seq(r.ups, i => "..")), r.names);
  }

  /** For an absolute path, normalising finds the directory that walking from the root finds. */
  lemma {:induction false} ResolveAbsoluteIsWalk(cs: seq<string>)
    requires forall i :: 0 <= i < |cs| ==> NoSlash(cs[i])
    ensures Resolve(true, cs) == Resolved(true, 0, Walk([], cs))
  {
    if cs != [] {
      ResolveAbsoluteIsWalk(cs[..|cs| - 1]);
    }
  }

  lemma NormalizeKeepsAbsolute(s: string)
    requires IsAbsolute(s)
    ensures IsAbsolute(Normalize(s))
    ensures Components(Normalize(s)) == Walk([], Components(s))
    ensures Walk([], Components(Normalize(s))) == Walk([], Components(s))
  {
    ScanHasNoSlash(s, |s|);
    ResolveAbsoluteIsWalk(Components(s));
    StateIsNormal(s, |s|);
    var r := StateAt(s, |s|);
    TextReadsBack(r);
    assert r.Parts() == r.names;
    WalkNames([], r.names);
    assert [] + r.names == r.names;
  }

  /** How far above where it starts a relative path climbs. */
  function Climb(cs: seq<string>): nat {
    Strict(cs).0
  }

  /** A relative path as a climb followed by names, without any limit on the climb. */
  function Strict(cs: seq<string>): (nat, seq<string>) {
    if cs == [] then (0, [])
    else
      var (ups, names) := Strict(cs[..|cs| - 1]);
      var c := cs[|cs| - 1];
      if c == "." then (ups, names)
      else if c != ".." then (ups, names + [c])
      else if names == [] then (ups + 1, names)
      else (ups, names[..|names| - 1])
  }

  /** The code gets the names right, and the climb as long as it is at most two: further up, it
      takes a ".." off instead of adding one. */
  lemma {:induction false} ResolveRelative(cs: seq<string>)
    ensures !Resolve(false, cs).absolute && Resolve(false, cs).names == Strict(cs).1
    ensures Strict(cs).0 <= 2 ==> Resolve(false, cs).ups == Strict(cs).0
    ensures Strict(cs).0 > 2 ==> Resolve(false, cs).ups <= 2
  {
    if cs != [] {
      ResolveRelative(cs[..|cs| - 1]);
    }
  }

  lemma {:induction false} WalkIsStrict(dir: seq<string>, cs: seq<string>)
    requires |dir| >= Strict(cs).0
    ensures Walk(dir, cs) == dir[..|dir| - Strict(cs).0] + Strict(cs).1
  {
    if cs != [] {
      var front := cs[..|cs| - 1];
      WalkIsStrict(dir, front);
      var (ups, names) := Strict(front);
      if cs[|cs| - 1] == ".." && names != [] {
        assert (dir[..|dir| - ups] + names)[..|dir| - ups + |names| - 1] == dir[..|dir| - ups] + names[..|names| - 1];
      }
    }
  }

  /** A relative path keeps its meaning from every directory deep enough to climb from exactly
      when it climbs at most two levels. */
  lemma NormalizeKeepsRelativeIff(s: string)
    requires !IsAbsolute(s)
    ensures (forall dir :: |dir| >= Climb(Components(s)) ==>
               Walk(dir, Components(Normalize(s))) == Walk(dir, Components(s)))
      <==> Climb(Components(s)) <= 2
  {
    var cs := Components(s);
    StateIsNormal(s, |s|);
    var r := StateAt(s, |s|);
    TextReadsBack(r);
    ResolveRelative(cs);
    forall dir | |dir| >= Climb(cs)
      ensures Climb(cs) <= 2 ==> Walk(dir, Components(Normalize(s))) == Walk(dir, cs)
    {
      WalkIsStrict(dir, cs);
      WalkParts(dir, r);
    }
    if Climb(cs) > 2 {
      var deep := seq(Climb(cs), i => "x");
      WalkIsStrict(deep, cs);
      WalkParts(deep, r);
      assert |Walk(deep, r.Parts())| != |Walk(deep, cs)|;
    }
  }

  lemma DirsOfTwoUps()
    ensures Dirs(["..", ".."]) == "../../"
  {
    DirsAppend([], "..");
    DirsAppend([".."], "..");
    assert [] + [".."] == [".."] && [".."] + [".."] == ["..", ".."];
  }

  lemma ComponentsOfThreeUps()
    ensures Components("../../..") == ["..", "..", ".."]
  {
    var two := ["..", ".."];
    DirsOfTwoUps();
    ComponentsOfDirs(two);
    ComponentsAppend(Dirs(two), "..");
    assert "../../" + ".." == "../../..";
    assert two + [".."] == ["..", "..", ".."];
  }

  lemma ResolveThreeUps()
    ensures Resolve(false, ["..", "..", ".."]) == Resolved(false, 1, [])
  {
    ResolveNext(false, [], "..");
    ResolveNext(false, [".."], "..");
    ResolveNext(false, ["..", ".."], "..");
    assert [] + [".."] == [".."] && [".."] + [".."] == ["..", ".."];
    assert ["..", ".."] + [".."] == ["..", "..", ".."];
  }

  /** Three levels up come out as one. */
  lemma ThreeUpsAreMiscounted()
    ensures Normalize("../../..") == ".."
  {
    ComponentsOfThreeUps();
    ResolveThreeUps();
    var one := Resolved(false, 1, []);
    assert one.Parts() == [".."];
    SplitText(one);
    assert one.Parts()[..0] == [];
  }

  // ---------------------------------------------------------------------------------------
  // Combining
  // ---------------------------------------------------------------------------------------

  predicate IgnoresSource(dst: string) {
    dst != "" && (dst[0] == '/' || dst[0] == '~')
  }

  /** The directory part of a path, with its slash. */
  function DirOf(src: string): string {
    src[..LastStart(src, |src|)]
  }

  /** The result of path_combine in a buffer that is large enough. */
  function Combine(src: string, dst: string): string {
    if IgnoresSource(dst) then dst else DirOf(src) + dst
  }

  lemma {:induction false} LastStartIsAfter(s: string, i: nat, k: nat)
    requires k < i <= |s| && s[k] == '/'
    ensures k < LastStart(s, i)
  {
    if !StartsAt(s, i) {
      LastStartIsAfter(s, i - 1, k);
    }
  }

  lemma DirOfAbsolute(src: string)
    requires IsAbsolute(src)
    ensures IsAbsolute(DirOf(src)) && StartsAt(DirOf(src), |DirOf(src)|)
  {
    LastStartIsAfter(src, |src|, 0);
  }

  /** Following the combined path is following the destination from the source's directory. */
  lemma CombineIsWalk(src: string, dst: string)
    requires IsAbsolute(src) && !IgnoresSource(dst)
    ensures IsAbsolute(Combine(src, dst))
    ensures Walk([], Components(Normalize(Combine(src, dst))))
         == Walk(Walk([], Components(DirOf(src))), Components(dst))
  {
    var d := DirOf(src);
    DirOfAbsolute(src);
    ComponentsConcat(d, dst);
    NormalizeKeepsAbsolute(d + dst);
    WalkConcat([], Components(d), Components(dst));
  }

  // ---------------------------------------------------------------------------------------
  // Normal forms in characters
  // ---------------------------------------------------------------------------------------

  /** Slashes at the end make no difference. */
  lemma SlashVanishes(p: string)
    requires p != ""
    ensures Normalize(p + "/") == Normalize(p)
  {
    ComponentsOfSlash(p);
    assert (p + "/")[0] == p[0];
  }

  lemma OneMoreComponent(p: string, c: string)
    requires p != "" && NoSlash(c)
    ensures Normalize(p + "/" + c) == Resolve(IsAbsolute(p), Components(p)).Push(c).Text()
  {
    ComponentsOfSlash(p);
    ComponentsAppend(p + "/", c);
    ResolveNext(IsAbsolute(p), Components(p), c);
    assert (p + "/" + c)[0] == p[0];
  }

  /** A single dot makes no difference either. */
  lemma DotVanishes(p: string)
    requires p != ""
    ensures Normalize(p + "/.") == Normalize(p)
  {
    OneMoreComponent(p, ".");
    assert p + "/" + "." == p + "/.";
  }

  predicate Plain(c: string) {
    c != "" && c != "." && c != ".." && forall i :: 0 <= i < |c| ==> c[i] != '/'
  }

  /** Two dots take back the name before them. */
  lemma UpCancels(p: string, c: string)
    requires p != "" && Plain(c)
    ensures Normalize(p + "/" + c + "/..") == Normalize(p)
  {
    var q := p + "/" + c;
    ComponentsOfSlash(p);
    ComponentsAppend(p + "/", c);
    ResolveNext(IsAbsolute(p), Components(p), c);
    assert q[0] == p[0];
    OneMoreComponent(q, "..");
    assert q + "/" + ".." == q + "/..";
    var r := Resolve(IsAbsolute(p), Components(p));
    assert r.Push(c).names[..|r.names|] == r.names;
  }

  /** At the root they do nothing. */
  lemma UpAtRoot(p: string)
    requires IsAbsolute(p) && Normalize(p) == "/"
    ensures Normalize(p + "/..") == "/"
  {
    OneMoreComponent(p, "..");
    assert p + "/" + ".." == p + "/..";
    var r := Resolve(true, Components(p));
    StateIsNormal(p, |p|);
    if r.Parts() != [] {
      SplitText(r);
    }
    assert r.names == [];
  }

  /** Any other name is added to a full path. */
  lemma NameIsAdded(p: string, c: string)
    requires IsAbsolute(p) && Plain(c)
    ensures Normalize(p + "/" + c) == (if Normalize(p) == "/" then "/" + c else Normalize(p) + "/" + c)
  {
    OneMoreComponent(p, c);
    var r := Resolve(true, Components(p));
    StateIsNormal(p, |p|);
    PushKept(r, c);
    var t := r.Slashed() + c;
    assert r.Push(c).Slashed() == t + "/" && (t + "/")[..|t|] == t;
    if r.Parts() != [] {
      SplitText(r);
      var n := |r.Parts()| - 1;
      assert NoSlash(r.Parts()[n]);
      assert |r.Text()| > 1;
    }
  }

  /** Said of the characters: a destination that begins with a slash or a tilde stands alone; any other, the
      empty one included, is walked from the directory that an absolute source is in. */
  lemma WhereItLeads(src: string, dst: string)
    requires src != "" && src[0] == '/'
    ensures dst != "" && (dst[0] == '/' || dst[0] == '~') ==> Combine(src, dst) == dst
    ensures dst == "" || (dst[0] != '/' && dst[0] != '~') ==>
      exists k :: 0 < k <= |src| && LastSlash(src, k) && Combine(src, dst) == src[..k] + dst
        && Walk([], Components(Normalize(Combine(src, dst)))) == Walk(Walk([], Components(src[..k])), Components(dst))
  {
    if dst == "" || (dst[0] != '/' && dst[0] != '~') {
      CombineIsWalk(src, dst);
      var k := LastStart(src, |src|);
      LastStartIsAfter(src, |src|, 0);
      LastStartIs(src, |src|);
      assert LastSlash(src, k) && Combine(src, dst) == src[..k] + dst;
    }
  }

  /** The k-th character is the last slash. */
  predicate LastSlash(s: string, k: nat) {
    0 < k <= |s| && s[k - 1] == '/' && forall j :: k <= j < |s| ==> s[j] != '/'
  }

  lemma {:induction false} LastStartIs(s: string, i: nat)
    requires i <= |s|
    ensures var k := LastStart(s, i);
      k <= i && (k > 0 ==> s[k - 1] == '/') && forall j :: k <= j < i ==> s[j] != '/'
  {
    if !StartsAt(s, i) {
      LastStartIs(s, i - 1);
    }
  }

  /** What strlcpy leaves of a text in a buffer of this size. */
  function Cut(s: string, size: nat): string
    requires size > 0
  {
    if |s| < size then s else s[..size - 1]
  }

  /** The result of path_combine in a buffer of this size. */
  function CombineIn(src: string, dst: string, size: nat): string
    requires size > 0
  {
    if IgnoresSource(dst) then Cut(dst, size) else Cut(DirOf(Cut(src, size)) + dst, size)
  }

  lemma {:induction false} LastStartOfCut(s: string, r: string, i: nat, k: nat)
    requires k <= i <= |s| && k == |r| && r == s[..k]
    ensures LastStart(s, i) <= k ==> LastStart(r, k) == LastStart(s, i)
    ensures LastStart(r, k) <= LastStart(s, i)
    decreases i
  {
    if i == k {
      LastStartOfPrefix(s, r, k);
    } else if !StartsAt(s, i) {
      LastStartOfCut(s, r, i - 1, k);
    }
  }

  lemma {:induction false} LastStartOfPrefix(s: string, r: string, i: nat)
    requires i <= |r| <= |s| && r == s[..|r|]
    ensures LastStart(r, i) == LastStart(s, i)
  {
    if !StartsAt(s, i) {
      LastStartOfPrefix(s, r, i - 1);
    }
  }

  /** Cutting to the buffer does no harm exactly when the whole combined path fits. */
  lemma CombineFitsIff(src: string, dst: string, size: nat)
    requires size > 0
    ensures CombineIn(src, dst, size) == Combine(src, dst) <==> |Combine(src, dst)| < size
  {
    if !IgnoresSource(dst) && |src| >= size {
      LastStartOfCut(src, src[..size - 1], |src|, size - 1);
      var j := LastStart(src, |src|);
      if j < size {
        assert src[..size - 1][..j] == src[..j];
      }
    }
  }
}
