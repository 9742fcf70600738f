/** Extra values of an object, patched against its archetype, and how they are saved and loaded
    (common/object.cpp, common/loader.l). */
module KeyValues {
  import opened Common

  datatype Field = Field(key: string, value: Option<string>)

  // ---------------------------------------------------------------------------------------
  // Lists of fields
  // ---------------------------------------------------------------------------------------

  predicate Unique(fs: seq<Field>) {
    forall i, j :: 0 <= i < j < |fs| ==> fs[i].key != fs[j].key
  }

  predicate Has(fs: seq<Field>, key: string) {
    exists i :: 0 <= i < |fs| && fs[i].key == key
  }

  /** The place of the first field with a key. */
  function FindKey(fs: seq<Field>, key: string): (i: nat)
    ensures i <= |fs| && (i < |fs| ==> fs[i].key == key) && forall k :: 0 <= k < i ==> fs[k].key != key
  {
    if fs == [] || fs[0].key == key then 0 else 1 + FindKey(fs[1..], key)
  }

  /** What is recorded for a key: nothing, a null, or a value. */
  function Get(fs: seq<Field>, key: string): Option<Option<string>> {
    var i := FindKey(fs, key);
    if i < |fs| then Some(fs[i].value) else None
  }

  lemma GetIs(fs: seq<Field>, i: nat)
    requires Unique(fs) && i < |fs|
    ensures FindKey(fs, fs[i].key) == i && Get(fs, fs[i].key) == Some(fs[i].value)
  {
    FindIs(fs, fs[i].key, i);
  }

  lemma GetIff(fs: seq<Field>, key: string)
    ensures Get(fs, key).Some? <==> Has(fs, key)
  {
    if Has(fs, key) {
      var i :| 0 <= i < |fs| && fs[i].key == key;
      assert FindKey(fs, key) <= i;
    }
  }

  /** object_set_value_s on the list: a null is kept only to hide a value of the archetype. */
  function Patch(fs: seq<Field>, arch: seq<Field>, key: string, value: Option<string>, addKey: bool): seq<Field> {
    var i := FindKey(fs, key);
    if i < |fs| then
      if value.Some? || Has(arch, key) then fs[i := Field(key, value)] else fs[..i] + fs[i + 1..]
    else if addKey && value.Some? then [Field(key, value)] + fs
    else fs
  }

  /** What holds of every object that started as a copy of its archetype. */
  predicate Patched(fs: seq<Field>, arch: seq<Field>) {
    && Unique(fs)
    && (forall i :: 0 <= i < |arch| ==> Has(fs, arch[i].key))
    && (forall i :: 0 <= i < |fs| ==> fs[i].value.Some? || Has(arch, fs[i].key))
  }

  lemma CopyIsPatched(arch: seq<Field>)
    requires Unique(arch)
    ensures Patched(arch, arch)
  {
    forall i | 0 <= i < |arch| ensures Has(arch, arch[i].key) {}
  }

  /** Setting a value reads back, and reads everything else as before. */
  lemma PatchReads(fs: seq<Field>, arch: seq<Field>, key: string, value: Option<string>, addKey: bool, k: string)
    requires Unique(fs)
    ensures Get(Patch(fs, arch, key, value, addKey), k) ==
            if k != key then Get(fs, k)
            else if Has(fs, key) then (if value.Some? || Has(arch, key) then Some(value) else None)
            else if addKey && value.Some? then Some(value)
            else None
  {
    GetIff(fs, key);
    var i := FindKey(fs, key);
    var r := Patch(fs, arch, key, value, addKey);
    if i < |fs| {
      if value.Some? || Has(arch, key) {
        FindUpdated(fs, i, Field(key, value), k);
      } else {
        FindRemoved(fs, i, k);
      }
    } else if addKey && value.Some? {
      assert r[1..] == fs;
    }
  }

  lemma FindUpdated(fs: seq<Field>, i: nat, f: Field, k: string)
    requires i < |fs| && fs[i].key == f.key && FindKey(fs, f.key) == i
    ensures Get(fs[i := f], k) == if k == f.key then Some(f.value) else Get(fs, k)
  {
    var r := fs[i := f];
    FindIs(r, k, FindKey(fs, k));
  }

  lemma FindRemoved(fs: seq<Field>, i: nat, k: string)
    requires Unique(fs) && i < |fs|
    ensures Get(fs[..i] + fs[i + 1..], k) == if k == fs[i].key then None else Get(fs, k)
  {
    var r := fs[..i] + fs[i + 1..];
    var j := FindKey(fs, k);
    if k == fs[i].key {
      FindIs(r, k, |r|);
    } else {
      FindIs(r, k, if j < i then j else j - 1);
    }
  }

  lemma {:induction false} FindIs(fs: seq<Field>, key: string, i: nat)
    requires i <= |fs| && (i < |fs| ==> fs[i].key == key) && forall k :: 0 <= k < i ==> fs[k].key != key
    ensures FindKey(fs, key) == i
  {
    if i > 0 {
      FindIs(fs[1..], key, i - 1);
    }
  }

  /** Every setting of a value keeps keys unique, the archetype's keys present, and nulls only over
      the archetype's keys. */
  lemma PatchKeepsPatched(fs: seq<Field>, arch: seq<Field>, key: string, value: Option<string>, addKey: bool)
    requires Patched(fs, arch)
    ensures Patched(Patch(fs, arch, key, value, addKey), arch)
  {
    var i := FindKey(fs, key);
    var r := Patch(fs, arch, key, value, addKey);
    GetIff(fs, key);
    forall k | 0 <= k < |arch| ensures Has(r, arch[k].key) {
      PatchReads(fs, arch, key, value, addKey, arch[k].key);
      GetIff(fs, arch[k].key);
      GetIff(r, arch[k].key);
      assert Has(arch, arch[k].key);
    }
  }

  // ---------------------------------------------------------------------------------------
  // Runs
  // ---------------------------------------------------------------------------------------

  datatype Setting = Setting(key: string, value: Option<string>, addKey: bool)

  function Run(fs: seq<Field>, arch: seq<Field>, run: seq<Setting>): seq<Field> {
    if run == [] then fs
    else
      var n := |run| - 1;
      Patch(Run(fs, arch, run[..n]), arch, run[n].key, run[n].value, run[n].addKey)
  }

  lemma {:induction false} RunKeepsPatched(fs: seq<Field>, arch: seq<Field>, run: seq<Setting>)
    requires Patched(fs, arch)
    ensures Patched(Run(fs, arch, run), arch)
  {
    if run != [] {
      var n := |run| - 1;
      RunKeepsPatched(fs, arch, run[..n]);
      PatchKeepsPatched(Run(fs, arch, run[..n]), arch, run[n].key, run[n].value, run[n].addKey);
    }
  }

  // ---------------------------------------------------------------------------------------
  // Lines
  // ---------------------------------------------------------------------------------------

  /** The first place from i on that is no space. */
  function SkipSpace(s: string, i: nat): (j: nat)
    requires i <= |s|
    ensures i <= j <= |s| && (j < |s| ==> !Space(s[j])) && forall k :: i <= k < j ==> Space(s[k])
    decreases |s| - i
  {
    if i < |s| && Space(s[i]) then SkipSpace(s, i + 1) else i
  }

  /** The first place from i on that is a space. */
  function WordEnd(s: string, i: nat): (j: nat)
    requires i <= |s|
    ensures i <= j <= |s| && (j < |s| ==> Space(s[j])) && forall k :: i <= k < j ==> !Space(s[k])
    decreases |s| - i
  {
    if i < |s| && !Space(s[i]) then WordEnd(s, i + 1) else i
  }

  /** The end of what is no space before place j. */
  function TrimEnd(s: string, i: nat, j: nat): (e: nat)
    requires i <= j <= |s|
    ensures i <= e <= j && (e > i ==> !Space(s[e - 1])) && forall k :: e <= k < j ==> Space(s[k])
  {
    if j > i && Space(s[j - 1]) then TrimEnd(s, i, j - 1) else j
  }

  /** add_key_value: nothing or one space after the key is a null; more spaces alone are an empty value. */
  function Parse(line: string): Field {
    var i := SkipSpace(line, 0);
    var j := WordEnd(line, i);
    if j == |line| || j + 1 == |line| then Field(line[i..j], None)
    else
      var v := SkipSpace(line, j + 1);
      Field(line[i..j], Some(line[v..TrimEnd(line, v, |line|)]))
  }

  /** The line that get_ob_diff writes for a field. */
  function Line(f: Field): string {
    f.key + " " + if f.value.Some? then f.value.value else ""
  }

  predicate PlainKey(key: string) {
    key != "" && forall i :: 0 <= i < |key| ==> !Space(key[i])
  }

  predicate Clean(v: string) {
    v != "" && !Space(v[0]) && !Space(v[|v| - 1])
  }

  predicate Readable(value: Option<string>) {
    value.Some? ==> Clean(value.value)
  }

  lemma ParseOfLine(key: string, v: string)
    requires PlainKey(key)
    ensures var f := Parse(key + " " + v);
      && f.key == key
      && (v == "" ==> f.value == None)
      && (v != "" ==> f.value.Some? && (f.value.value == v <==> Clean(v)))
  {
    var line := key + " " + v;
    var n := |key| + 1;
    assert line[0] == key[0] && SkipSpace(line, 0) == 0;
    WordEndIs(line, 0, |key|);
    assert line[0..|key|] == key;
    if v != "" {
      assert line[n..] == v;
      Trimmed(line, n, v);
    }
  }

  /** What is left of a value once spaces are cut off at its ends. */
  lemma Trimmed(line: string, n: nat, v: string)
    requires v != "" && n <= |line| && line[n..] == v
    ensures var b := SkipSpace(line, n); line[b..TrimEnd(line, b, |line|)] == v <==> Clean(v)
  {
    var b := SkipSpace(line, n);
    var e := TrimEnd(line, b, |line|);
    assert line[n] == v[0] && line[|line| - 1] == v[|v| - 1];
    if Clean(v) {
      assert b == n && e == |line|;
    } else {
      assert |line[b..e]| < |v| by {
        if Space(v[0]) { assert b > n; } else { assert e < |line|; }
      }
    }
  }

  lemma {:induction false} WordEndIs(s: string, i: nat, j: nat)
    requires i <= j < |s| && Space(s[j]) && forall k :: i <= k < j ==> !Space(s[k])
    ensures WordEnd(s, i) == j
    decreases j - i
  {
    if i < j {
      WordEndIs(s, i + 1, j);
    }
  }

  /** A field survives being written and read exactly when its value is null or clean: an empty value
      comes back as a null, and spaces at the ends are lost. */
  lemma LineRoundTripIff(f: Field)
    requires PlainKey(f.key)
    ensures Parse(Line(f)) == f <==> Readable(f.value)
    ensures Parse(Line(f)).key == f.key
  {
    ParseOfLine(f.key, if f.value.Some? then f.value.value else "");
  }

  // ---------------------------------------------------------------------------------------
  // Saving and loading
  // ---------------------------------------------------------------------------------------

  predicate Saved(f: Field, arch: seq<Field>) {
    Get(arch, f.key) != Some(f.value)
  }

  /** The lines of get_ob_diff. */
  function Diff(fs: seq<Field>, arch: seq<Field>): seq<string> {
    if fs == [] then []
    else
      var n := |fs| - 1;
      Diff(fs[..n], arch) + if Saved(fs[n], arch) then [Line(fs[n])] else []
  }

  lemma SavedIff(f: Field, arch: seq<Field>)
    requires Unique(arch)
    ensures Saved(f, arch) <==> f !in arch
  {
    if f in arch {
      var i :| 0 <= i < |arch| && arch[i] == f;
      GetIs(arch, i);
    }
    if Get(arch, f.key) == Some(f.value) {
      assert arch[FindKey(arch, f.key)] == f;
    }
  }

  /** The key, a space, and the value if there is one. */
  function Written(f: Field): string {
    match f.value
    case None => f.key + " "
    case Some(v) => f.key + " " + v
  }

  /** Each field that differs from the archetype's gets its line, and no other does. */
  lemma {:induction false} DiffIff(fs: seq<Field>, arch: seq<Field>, line: string)
    requires Unique(arch)
    ensures line in Diff(fs, arch) <==> exists i :: 0 <= i < |fs| && fs[i] !in arch && line == Written(fs[i])
  {
    if fs != [] {
      var n := |fs| - 1;
      DiffIff(fs[..n], arch, line);
      SavedIff(fs[n], arch);
      assert Line(fs[n]) == Written(fs[n]);
      if i :| 0 <= i < |fs| && fs[i] !in arch && line == Written(fs[i]) {
        assert i < n ==> fs[..n][i] == fs[i];
      }
    }
  }

  /** How many fields differ. */
  function Changes(fs: seq<Field>, arch: seq<Field>): nat {
    if fs == [] then 0 else Changes(fs[..|fs| - 1], arch) + if fs[|fs| - 1] in arch then 0 else 1
  }

  /** One line each. */
  lemma {:induction false} DiffLength(fs: seq<Field>, arch: seq<Field>)
    requires Unique(arch)
    ensures |Diff(fs, arch)| == Changes(fs, arch)
  {
    if fs != [] {
      DiffLength(fs[..|fs| - 1], arch);
      SavedIff(fs[|fs| - 1], arch);
    }
  }

  /** So nothing is saved of an object exactly if all its fields are its archetype's. */
  lemma NothingSavedIff(fs: seq<Field>, arch: seq<Field>)
    requires Unique(arch)
    ensures Diff(fs, arch) == [] <==> forall i :: 0 <= i < |fs| ==> fs[i] in arch
  {
    if Diff(fs, arch) == [] {
      forall i | 0 <= i < |fs| ensures fs[i] in arch {
        DiffIff(fs, arch, Written(fs[i]));
      }
    } else {
      DiffIff(fs, arch, Diff(fs, arch)[0]);
    }
  }

  /** The loader on a fresh copy of the archetype. */
  function Load(arch: seq<Field>, lines: seq<string>): seq<Field> {
    if lines == [] then arch
    else
      var n := |lines| - 1;
      var f := Parse(lines[n]);
      Patch(Load(arch, lines[..n]), arch, f.key, f.value, true)
  }

  /** What is recorded for a saved field after loading. */
  function Restored(f: Field, arch: seq<Field>): Option<Option<string>> {
    var v := Parse(Line(f)).value;
    if Has(arch, f.key) || v.Some? then Some(v) else None
  }

  predicate PlainKeys(fs: seq<Field>) {
    forall i :: 0 <= i < |fs| ==> PlainKey(fs[i].key)
  }

  lemma {:induction false} LoadKeepsPatched(arch: seq<Field>, lines: seq<string>)
    requires Unique(arch)
    ensures Patched(Load(arch, lines), arch)
  {
    CopyIsPatched(arch);
    if lines != [] {
      var n := |lines| - 1;
      var f := Parse(lines[n]);
      LoadKeepsPatched(arch, lines[..n]);
      PatchKeepsPatched(Load(arch, lines[..n]), arch, f.key, f.value, true);
    }
  }

  /** What loading records for a key: saved fields are restored, others are the archetype's. */
  function Expected(fs: seq<Field>, arch: seq<Field>, k: string): Option<Option<string>> {
    var i := FindKey(fs, k);
    if i < |fs| && Saved(fs[i], arch) then Restored(fs[i], arch) else Get(arch, k)
  }

  lemma FindInFront(fs: seq<Field>, k: string)
    requires fs != []
    ensures var n := |fs| - 1;
      FindKey(fs, k) == if FindKey(fs[..n], k) < n then FindKey(fs[..n], k) else if fs[n].key == k then n else n + 1
  {
    var n := |fs| - 1;
    var j := FindKey(fs[..n], k);
    assert fs[..n] + [fs[n]] == fs;
    FindIs(fs, k, if j < n then j else if fs[n].key == k then n else n + 1);
  }

  lemma LoadStep(fs: seq<Field>, arch: seq<Field>, k: string, loaded: seq<Field>)
    requires fs != [] && Unique(fs) && PlainKey(fs[|fs| - 1].key) && Unique(loaded)
    requires Get(loaded, k) == Expected(fs[..|fs| - 1], arch, k)
    requires Get(loaded, fs[|fs| - 1].key) == Expected(fs[..|fs| - 1], arch, fs[|fs| - 1].key)
    ensures var f := fs[|fs| - 1];
      var p := Parse(Line(f));
      Get(if Saved(f, arch) then Patch(loaded, arch, p.key, p.value, true) else loaded, k) == Expected(fs, arch, k)
  {
    var f := fs[|fs| - 1];
    FindInFront(fs, k);
    FindInFront(fs, f.key);
    GetIs(fs, |fs| - 1);
    LineRoundTripIff(f);
    PatchReads(loaded, arch, f.key, Parse(Line(f)).value, true, k);
    GetIff(loaded, f.key);
    GetIff(arch, f.key);
  }

  lemma {:induction false} LoadReads(fs: seq<Field>, arch: seq<Field>, k: string)
    requires Unique(fs) && Unique(arch) && PlainKeys(fs)
    ensures Get(Load(arch, Diff(fs, arch)), k) == Expected(fs, arch, k)
  {
    if fs != [] {
      var n := |fs| - 1;
      var f, lines := fs[n], Diff(fs[..n], arch);
      LoadReads(fs[..n], arch, k);
      LoadReads(fs[..n], arch, f.key);
      LoadKeepsPatched(arch, lines);
      LoadStep(fs, arch, k, Load(arch, lines));
      LoadOneMore(arch, lines, f);
    }
  }

  lemma LoadOneMore(arch: seq<Field>, lines: seq<string>, f: Field)
    ensures Load(arch, lines + [Line(f)])
         == Patch(Load(arch, lines), arch, Parse(Line(f)).key, Parse(Line(f)).value, true)
    ensures lines + [] == lines
  {
    assert (lines + [Line(f)])[..|lines|] == lines;
  }

  ghost predicate SameFields(a: seq<Field>, b: seq<Field>) {
    forall k :: Get(a, k) == Get(b, k)
  }

  /** Saving the differences from the archetype and loading them over a copy of it gives the object's
      values back exactly when all the values saved are null or clean. */
  lemma LoadOfDiffIff(fs: seq<Field>, arch: seq<Field>)
    requires Patched(fs, arch) && Unique(arch) && PlainKeys(fs)
    ensures SameFields(Load(arch, Diff(fs, arch)), fs)
      <==> forall i :: 0 <= i < |fs| && Saved(fs[i], arch) ==> Readable(fs[i].value)
  {
    var loaded := Load(arch, Diff(fs, arch));
    forall k ensures Get(loaded, k) == Expected(fs, arch, k) {
      LoadReads(fs, arch, k);
    }
    forall i | 0 <= i < |fs| ensures Get(fs, fs[i].key) == Some(fs[i].value) && FindKey(fs, fs[i].key) == i {
      GetIs(fs, i);
    }
    forall i | 0 <= i < |fs| && Saved(fs[i], arch)
      ensures Restored(fs[i], arch) == Some(fs[i].value) <==> Readable(fs[i].value)
    {
      RestoredIff(fs[i], arch);
    }
    if forall i :: 0 <= i < |fs| && Saved(fs[i], arch) ==> Readable(fs[i].value) {
      forall k ensures Get(loaded, k) == Get(fs, k) {
        AbsentEverywhere(fs, arch, k);
      }
    } else {
      var i :| 0 <= i < |fs| && Saved(fs[i], arch) && !Readable(fs[i].value);
      assert Get(loaded, fs[i].key) != Get(fs, fs[i].key);
    }
  }

  lemma RestoredIff(f: Field, arch: seq<Field>)
    requires PlainKey(f.key) && (f.value.Some? || Has(arch, f.key))
    ensures Restored(f, arch) == Some(f.value) <==> Readable(f.value)
  {
    LineRoundTripIff(f);
    assert Parse(Line(f)) == Field(f.key, Parse(Line(f)).value);
  }

  lemma AbsentEverywhere(fs: seq<Field>, arch: seq<Field>, k: string)
    requires Patched(fs, arch)
    ensures Get(fs, k) == None ==> Get(arch, k) == None
  {
    GetIff(fs, k);
    GetIff(arch, k);
  }

  /** Whatever has been set on the way. */
  lemma RunIsSavedWholeIff(arch: seq<Field>, run: seq<Setting>)
    requires Unique(arch) && PlainKeys(Run(arch, arch, run))
    ensures var fs := Run(arch, arch, run);
      SameFields(Load(arch, Diff(fs, arch)), fs)
      <==> forall i :: 0 <= i < |fs| && Saved(fs[i], arch) ==> Readable(fs[i].value)
  {
    CopyIsPatched(arch);
    RunKeepsPatched(arch, arch, run);
    LoadOfDiffIff(Run(arch, arch, run), arch);
  }

  /** An empty value set over one of the archetype comes back as no value. */
  lemma EmptyValueIsLost()
    ensures var arch := [Field("k", Some("v"))];
      var fs := Patch(arch, arch, "k", Some(""), true);
      Get(fs, "k") == Some(Some("")) && Get(Load(arch, Diff(fs, arch)), "k") == Some(None)
  {
    var arch := [Field("k", Some("v"))];
    CopyIsPatched(arch);
    PatchKeepsPatched(arch, arch, "k", Some(""), true);
    var fs := Patch(arch, arch, "k", Some(""), true);
    assert fs == [Field("k", Some(""))];
    LoadReads(fs, arch, "k");
    assert PlainKey("k");
    ParseOfLine("k", "");
    assert Has(arch, "k");
  }

  /** Spaces around a value do not come back. */
  lemma SpacesAreLost()
    ensures Parse(Line(Field("k", Some(" v ")))) == Field("k", Some("v"))
  {
    var line := Line(Field("k", Some(" v ")));
    assert line == "k  v ";
    assert SkipSpace(line, 0) == 0;
    WordEndIs(line, 0, 1);
    assert SkipSpace(line, 2) == 3;
    assert TrimEnd(line, 3, 5) == 4;
    assert line[0..1] == "k" && line[3..4] == "v";
  }

  // ---------------------------------------------------------------------------------------
  // The linked list
  // ---------------------------------------------------------------------------------------

  class Link {
    const key: string
    var value: Option<string>
    var next: Link?

    constructor (key: string, value: Option<string>, next: Link?)
      ensures this.key == key && this.value == value && this.next == next
    {
      this.key, this.value, this.next := key, value, next;
    }
  }

  ghost function LinkAt(s: seq<Link>, i: nat): Link? {
    if i < |s| then s[i] else null
  }

  /** The link at place i leads to the one after it. */
  ghost predicate Leads(s: seq<Link>, i: nat)
    requires i < |s|
    reads s[i]
  {
    s[i].next == LinkAt(s, i + 1)
  }

  /** An object with its extra values and those of its archetype. */
  class Bearer {
    const arch: seq<Field>
    var keyValues: Link?
    ghost var spine: seq<Link>

    ghost predicate Valid()
      reads this, spine
    {
      var ok :=
        && (forall i, j :: 0 <= i < j < |spine| ==> Apart(spine, i, j))
        && keyValues == LinkAt(spine, 0)
        && (forall i :: 0 <= i < |spine| ==> Leads(spine, i));
      ok
    }

    ghost function Fields(): (fs: seq<Field>)
      reads this, spine
      ensures |fs| == |spine|
    {
      seq(|spine|, i requires 0 <= i < |spine| reads this, spine => Field(spine[i].key, spine[i].value))
    }

    /** The copying part of object_copy_no_speed. */
    constructor (arch: seq<Field>)
      ensures Valid() && this.arch == arch && Fields() == arch && fresh(spine)
    {
      this.arch, keyValues, spine := arch, null, [];
      new;
      var i := |arch|;
      while i > 0
        invariant 0 <= i <= |arch| && Valid() && fresh(spine) && Fields() == arch[i..]
      {
        i := i - 1;
        ghost var rest := spine;
        Prepend(arch[i].key, arch[i].value);
        assert forall link :: link in spine ==> link == spine[0] || link in rest;
      }
    }

    /** The first link with a key, and the one before it. */
    method FindLink(key: string) returns (last: Link?, field: Link?)
      requires Valid()
      ensures var i := FindKey(Fields(), key);
        field == LinkAt(spine, i) && last == (if i == 0 then null else spine[i - 1])
    {
      last, field := null, keyValues;
      ghost var i := 0;
      while field != null && field.key != key
        invariant 0 <= i <= |spine| && field == LinkAt(spine, i) && last == (if i == 0 then null else spine[i - 1])
        invariant forall k :: 0 <= k < i ==> Fields()[k].key != key
        decreases |spine| - i
      {
        assert Leads(spine, i) && Fields()[i].key == field.key;
        last, field := field, field.next;
        i := i + 1;
      }
      assert i < |spine| ==> Fields()[i].key == key;
      FindIs(Fields(), key, i);
    }

    /** A link is taken out of the list. */
    method Unlink(last: Link?, field: Link, ghost i: nat)
      requires Valid() && i < |spine| && field == spine[i] && last == (if i == 0 then null else spine[i - 1])
      modifies this, spine
      ensures Valid() && Fields() == old(Fields()[..i] + Fields()[i + 1..])
      ensures spine == old(spine[..i] + spine[i + 1..])
    {
      ghost var before, was := Fields(), spine;
      assert Leads(was, i);
      forall j, k | 0 <= j < k < |was| ensures was[j] != was[k] {
        assert Apart(was, j, k);
      }
      if last != null {
        last.next := field.next;
      } else {
        keyValues := field.next;
      }
      spine := was[..i] + was[i + 1..];
      forall k | 0 <= k < |spine| ensures Leads(spine, k) {
        assert k + 1 != i ==> old(Leads(was, if k < i then k else k + 1));
      }
      forall j, k | 0 <= j < k < |spine| ensures Apart(spine, j, k) {
        assert Apart(was, if j < i then j else j + 1, if k < i then k else k + 1);
      }
      assert forall k :: 0 <= k < |spine| ==> Fields()[k] == before[if k < i then k else k + 1];
    }

    /** A new link at the front. */
    method Prepend(key: string, value: Option<string>)
      requires Valid()
      modifies this
      ensures Valid() && Fields() == [Field(key, value)] + old(Fields())
      ensures |spine| > 0 && fresh(spine[0]) && spine[1..] == old(spine)
    {
      ghost var was, before := spine, Fields();
      var link := new Link(key, value, keyValues);
      keyValues, spine := link, [link] + spine;
      forall k | 0 <= k < |spine| ensures Leads(spine, k) {
        assert k > 0 ==> Leads(was, k - 1);
      }
      forall j, k | 0 <= j < k < |spine| ensures Apart(spine, j, k) {
        assert j > 0 ==> Apart(was, j - 1, k - 1);
      }
      assert forall k :: 1 <= k < |spine| ==> Fields()[k] == before[k - 1];
    }

    /** The value of a link is replaced. */
    method Replace(field: Link, value: Option<string>, ghost i: nat)
      requires Valid() && i < |spine| && field == spine[i]
      modifies field`value
      ensures Valid() && Fields() == old(Fields())[i := Field(field.key, value)]
    {
      ghost var before := Fields();
      forall k | 0 <= k < |spine| && k != i ensures spine[k] != field {
        assert Apart(spine, if k < i then k else i, if k < i then i else k);
      }
      field.value := value;
      forall k | 0 <= k < |spine| ensures Leads(spine, k) {
        assert old(Leads(spine, k));
      }
      assert forall k :: 0 <= k < |spine| && k != i ==> Fields()[k] == before[k];
    }

    /** object_set_value_s. */
    method SetValue(key: string, value: Option<string>, addKey: bool) returns (found: bool)
      requires Valid()
      modifies this, spine
      ensures Valid() && (forall link :: link in spine ==> link in old(spine) || fresh(link))
      ensures Fields() == Patch(old(Fields()), arch, key, value, addKey)
      ensures found <==> addKey || Has(old(Fields()), key)
    {
      ghost var fs := Fields();
      GetIff(fs, key);
      GetIff(arch, key);
      var last, field := FindLink(key);
      ghost var i := FindKey(fs, key);
      if field != null {
        if value.Some? {
          Replace(field, value, i);
        } else if Get(arch, key).Some? {
          Replace(field, None, i);
        } else {
          Unlink(last, field, i);
        }
        return true;
      }
      if !addKey {
        return false;
      }
      if value == None {
        return true;
      }
      Prepend(key, value);
      return true;
    }

    /** object_get_value: a null reads as no value. */
    method GetValue(key: string) returns (value: Option<string>)
      requires Valid()
      ensures value == match Get(Fields(), key) { case None => None case Some(v) => v }
    {
      var last, field := FindLink(key);
      value := if field == null then None else field.value;
    }

    /** The part of get_ob_diff for the extra values. */
    method GetDiff() returns (lines: seq<string>)
      requires Valid()
      ensures lines == Diff(Fields(), arch)
    {
      lines := [];
      var field := keyValues;
      ghost var i := 0;
      while field != null
        invariant 0 <= i <= |spine| && field == LinkAt(spine, i) && lines == Diff(Fields()[..i], arch)
        decreases |spine| - i
      {
        assert Leads(spine, i) && Fields()[i] == Field(field.key, field.value);
        assert Fields()[..i + 1][..i] == Fields()[..i];
        if Get(arch, field.key) != Some(field.value) {
          lines := lines + [field.key + " " + if field.value.Some? then field.value.value else ""];
        }
        field := field.next;
        i := i + 1;
      }
      assert Fields()[..i] == Fields();
    }
  }
}
