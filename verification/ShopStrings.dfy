/** The list of what a shop trades in, as it is written to and read from map files (common/map.cpp). */
module ShopStrings {
  import opened Common

  datatype TypeData = TypeData(number: nat, name: string, namePl: string)

  /** Strengths are 8 bits wide. */
  type Strength = n: int | -128 <= n < 128

  datatype ShopItem = ShopItem(name: Option<string>, namePl: Option<string>, typenum: int, strength: Strength)

  // ---------------------------------------------------------------------------------------
  // Types
  // ---------------------------------------------------------------------------------------

  /** get_typedata. */
  function ByNumber(types: seq<TypeData>, number: int): Option<TypeData> {
    if types == [] then None else if types[0].number == number then Some(types[0]) else ByNumber(types[1..], number)
  }

  function BySingular(types: seq<TypeData>, name: string): (t: Option<TypeData>)
    ensures t.Some? ==> t.value in types && t.value.name == name
    ensures t == None ==> forall i :: 0 <= i < |types| ==> types[i].name != name
  {
    if types == [] then None else if types[0].name == name then Some(types[0]) else BySingular(types[1..], name)
  }

  function ByPlural(types: seq<TypeData>, name: string): Option<TypeData> {
    if types == [] then None else if types[0].namePl == name then Some(types[0]) else ByPlural(types[1..], name)
  }

  /** get_typedata_by_name. */
  function ByName(types: seq<TypeData>, name: string): Option<TypeData> {
    if BySingular(types, name).Some? then BySingular(types, name) else ByPlural(types, name)
  }

  // ---------------------------------------------------------------------------------------
  // Numbers
  // ---------------------------------------------------------------------------------------

  predicate Digit(c: char) {
    '0' <= c <= '9'
  }

  function Decimal(n: nat): (s: string)
    ensures s != "" && forall i :: 0 <= i < |s| ==> Digit(s[i])
  {
    if n < 10 then [('0' as int + n) as char] else Decimal(n / 10) + [('0' as int + n % 10) as char]
  }

  function Signed(n: int): string {
    if n < 0 then "-" + Decimal(-n) else Decimal(n)
  }

  function ValueOf(s: string): int {
    if s == "" then 0 else ValueOf(s[..|s| - 1]) * 10 + (s[|s| - 1] as int - '0' as int)
  }

  /** How many characters from the start are digits. */
  function DigitsIn(s: string): (n: nat)
    ensures n <= |s| && (forall i :: 0 <= i < n ==> Digit(s[i])) && (n < |s| ==> !Digit(s[n]))
  {
    if s == "" || !Digit(s[0]) then 0 else 1 + DigitsIn(s[1..])
  }

  /** atoi. */
  function Atoi(s: string): int {
    if s == "" then 0
    else if Space(s[0]) then Atoi(s[1..])
    else if s[0] == '-' then -ValueOf(s[1..][..DigitsIn(s[1..])])
    else if s[0] == '+' then ValueOf(s[1..][..DigitsIn(s[1..])])
    else ValueOf(s[..DigitsIn(s)])
  }

  /** What fits an 8-bit field of a number. */
  function Wrap(n: int): Strength {
    (n + 128) % 256 - 128
  }

  lemma {:induction false} ValueOfDecimal(n: nat)
    ensures ValueOf(Decimal(n)) == n
  {
    if n >= 10 {
      ValueOfDecimal(n / 10);
      var s := Decimal(n);
      assert s[..|s| - 1] == Decimal(n / 10);
    } else {
      assert Decimal(n)[..0] == "";
    }
  }

  lemma AllDigits(s: string)
    requires forall i :: 0 <= i < |s| ==> Digit(s[i])
    ensures DigitsIn(s) == |s| && s[..DigitsIn(s)] == s
  {}

  lemma AtoiOfSigned(n: int)
    ensures Atoi(Signed(n)) == n
  {
    var d := Decimal(if n < 0 then -n else n);
    ValueOfDecimal(if n < 0 then -n else n);
    AllDigits(d);
    if n < 0 {
      assert Signed(n)[1..] == d;
    }
  }

  // ---------------------------------------------------------------------------------------
  // Entries
  // ---------------------------------------------------------------------------------------

  /** The first place of a character, or the length. */
  function IndexOf(s: string, c: char): (i: nat)
    ensures i <= |s| && (i < |s| ==> s[i] == c) && forall k :: 0 <= k < i ==> s[k] != c
  {
    if s == "" || s[0] == c then 0 else 1 + IndexOf(s[1..], c)
  }

  /** The number after the colon, if there is one. */
  function StrengthIn(text: string): Strength {
    var colon := IndexOf(text, ':');
    if colon < |text| then Wrap(Atoi(text[colon + 1..])) else 0
  }

  function NameIn(text: string): string {
    text[..IndexOf(text, ':')]
  }

  /** One entry: a number, a star or a name, then perhaps a strength. */
  function ParseEntry(types: seq<TypeData>, text: string): ShopItem {
    var strength := StrengthIn(text);
    if text != "" && (Digit(text[0]) || text[0] == '*') then
      var typenum := if text[0] == '*' then -1 else Atoi(text);
      match ByNumber(types, typenum)
      case None => ShopItem(None, None, typenum, strength)
      case Some(t) => ShopItem(Some(t.name), Some(t.namePl), typenum, strength)
    else
      match ByName(types, NameIn(text))
      case None => ShopItem(None, None, 0, strength)
      case Some(t) => ShopItem(Some(t.name), Some(t.namePl), t.number, strength)
  }

  /** The entry for an item. */
  function Text(item: ShopItem): string {
    (if item.typenum == -1 then "*" else item.name.GetOr("(null)"))
    + if item.strength != 0 then ":" + Signed(item.strength) else ""
  }

  /** A name that cannot be taken for anything else. */
  predicate PlainName(name: string) {
    && name != "" && !Digit(name[0]) && name[0] != '*'
    && forall i :: 0 <= i < |name| ==> name[i] != ':' && name[i] != ';' && name[i] != '\n'
  }

  /** Types have plain names, different from each other, and are not numbered -1. */
  predicate GoodTypes(types: seq<TypeData>) {
    && (forall i :: 0 <= i < |types| ==> PlainName(types[i].name))
    && (forall i, j :: 0 <= i < j < |types| ==> types[i].name != types[j].name)
  }

  /** The entry for everything else, or one for a type. */
  predicate KnownItem(types: seq<TypeData>, item: ShopItem) {
    || (item.typenum == -1 && item.name == None && item.namePl == None)
    || exists i :: 0 <= i < |types| && IsOf(types[i], item)
  }

  predicate IsOf(t: TypeData, item: ShopItem) {
    item.typenum == t.number && item.name == Some(t.name) && item.namePl == Some(t.namePl)
  }

  lemma {:induction false} NoSuchNumber(types: seq<TypeData>)
    ensures ByNumber(types, -1) == None
  {
    if types != [] {
      NoSuchNumber(types[1..]);
    }
  }

  lemma FoundByName(types: seq<TypeData>, i: nat)
    requires GoodTypes(types) && i < |types|
    ensures ByName(types, types[i].name) == Some(types[i])
  {
    FirstSingular(types, i);
  }

  lemma {:induction false} FirstSingular(types: seq<TypeData>, i: nat)
    requires i < |types| && forall j :: 0 <= j < i ==> types[j].name != types[i].name
    ensures BySingular(types, types[i].name) == Some(types[i])
  {
    if i > 0 {
      FirstSingular(types[1..], i - 1);
    }
  }

  lemma {:induction false} IndexIs(s: string, c: char, i: nat)
    requires i <= |s| && (i < |s| ==> s[i] == c) && forall k :: 0 <= k < i ==> s[k] != c
    ensures IndexOf(s, c) == i
  {
    if i > 0 {
      IndexIs(s[1..], c, i - 1);
    }
  }

  lemma AroundColon(head: string, tail: string)
    requires forall i :: 0 <= i < |head| ==> head[i] != ':'
    ensures IndexOf(head + ":" + tail, ':') == |head| && NameIn(head + ":" + tail) == head
    ensures (head + ":" + tail)[|head| + 1..] == tail
    ensures IndexOf(head, ':') == |head| && NameIn(head) == head
  {
    IndexIs(head + ":" + tail, ':', |head|);
    IndexIs(head, ':', |head|);
    assert (head + ":" + tail)[..|head|] == head && head[..|head|] == head;
  }

  /** What stands before and after the colon. */
  lemma EntryParts(head: string, strength: Strength, text: string)
    requires head != "" && forall i :: 0 <= i < |head| ==> head[i] != ':'
    requires text == head + if strength != 0 then ":" + Signed(strength) else ""
    ensures StrengthIn(text) == strength && NameIn(text) == head && text != "" && text[0] == head[0]
  {
    AroundColon(head, Signed(strength));
    AtoiOfSigned(strength);
    if strength == 0 {
      assert text == head;
    } else {
      assert text == head + ":" + Signed(strength);
    }
  }

  /** An entry reads back. */
  lemma EntryRoundTrip(types: seq<TypeData>, item: ShopItem)
    requires GoodTypes(types) && KnownItem(types, item)
    ensures ParseEntry(types, Text(item)) == item
  {
    if item.typenum == -1 && item.name == None {
      EntryParts("*", item.strength, Text(item));
      NoSuchNumber(types);
    } else {
      var i :| 0 <= i < |types| && IsOf(types[i], item);
      EntryParts(types[i].name, item.strength, Text(item));
      FoundByName(types, i);
    }
  }

  /** A strength keeps the last eight bits of its number. */
  lemma StrengthWraps(head: string, n: int) returns (k: int)
    requires forall i :: 0 <= i < |head| ==> head[i] != ':'
    ensures StrengthIn(head + ":" + Signed(n)) == n + 256 * k
  {
    AroundColon(head, Signed(n));
    AtoiOfSigned(n);
    k := (n + 128) % 256 - 128 - n;
    assert (n + 128) % 256 == n + 128 - 256 * ((n + 128) / 256);
    k := 0 - (n + 128) / 256;
  }

  /** An entry of this head, with a strength unless it is none. */
  function Entry(head: string, strength: Strength): string {
    head + if strength != 0 then ":" + Signed(strength) else ""
  }

  lemma {:induction false} FoundByNumber(types: seq<TypeData>, i: nat)
    requires i < |types| && forall j :: 0 <= j < i ==> types[j].number != types[i].number
    ensures ByNumber(types, types[i].number) == Some(types[i])
  {
    if i > 0 {
      FoundByNumber(types[1..], i - 1);
    }
  }

  lemma {:induction false} NoNumber(types: seq<TypeData>, number: int)
    requires forall j :: 0 <= j < |types| ==> types[j].number != number
    ensures ByNumber(types, number) == None
  {
    if types != [] {
      NoNumber(types[1..], number);
    }
  }

  /** A number before a colon or the end reads as that number. */
  lemma NumberIn(n: nat, strength: Strength, text: string)
    requires text == Entry(Decimal(n), strength)
    ensures Atoi(text) == n && Digit(text[0]) && StrengthIn(text) == strength
  {
    var d := Decimal(n);
    ValueOfDecimal(n);
    EntryParts(d, strength, text);
    DigitsThenColon(d, text);
  }

  lemma {:induction false} DigitsThenColon(d: string, text: string)
    requires |d| <= |text| && text[..|d|] == d && (forall i :: 0 <= i < |d| ==> Digit(d[i]))
    requires |d| < |text| ==> text[|d|] == ':'
    ensures DigitsIn(text) == |d|
  {
    if d != "" {
      assert text[0] == d[0] && text[1..][..|d[1..]|] == d[1..];
      DigitsThenColon(d[1..], text[1..]);
    }
  }

  /** An entry given by the number of a type reads as that type, with its strength; a number that no type
      has is kept without a name. */
  lemma NumberReads(types: seq<TypeData>, n: nat, strength: Strength)
    ensures forall i :: 0 <= i < |types| && types[i].number == n
                        && (forall j :: 0 <= j < i ==> types[j].number != n) ==>
      ParseEntry(types, Entry(Decimal(n), strength))
        == ShopItem(Some(types[i].name), Some(types[i].namePl), n, strength)
    ensures (forall i :: 0 <= i < |types| ==> types[i].number != n) ==>
      ParseEntry(types, Entry(Decimal(n), strength)) == ShopItem(None, None, n, strength)
  {
    var text := Entry(Decimal(n), strength);
    NumberIn(n, strength, text);
    forall i | 0 <= i < |types| && types[i].number == n && forall j :: 0 <= j < i ==> types[j].number != n
      ensures ParseEntry(types, text) == ShopItem(Some(types[i].name), Some(types[i].namePl), n, strength)
    {
      FoundByNumber(types, i);
    }
    if forall i :: 0 <= i < |types| ==> types[i].number != n {
      NoNumber(types, n);
    }
  }

  lemma {:induction false} FirstPlural(types: seq<TypeData>, i: nat)
    requires i < |types| && forall j :: 0 <= j < i ==> types[j].namePl != types[i].namePl
    ensures ByPlural(types, types[i].namePl) == Some(types[i])
  {
    if i > 0 {
      FirstPlural(types[1..], i - 1);
    }
  }

  lemma {:induction false} NoName(types: seq<TypeData>, name: string)
    requires forall i :: 0 <= i < |types| ==> types[i].name != name && types[i].namePl != name
    ensures ByName(types, name) == None
  {
    if types != [] {
      NoName(types[1..], name);
    }
  }

  /** The plural of a type reads as that type too, unless it is the name of one; a name that no type has
      reads as no type. */
  lemma PluralReads(types: seq<TypeData>, name: string, strength: Strength)
    requires PlainName(name) && forall i :: 0 <= i < |types| ==> types[i].name != name
    ensures forall i :: 0 <= i < |types| && types[i].namePl == name
                        && (forall j :: 0 <= j < i ==> types[j].namePl != name) ==>
      ParseEntry(types, Entry(name, strength))
        == ShopItem(Some(types[i].name), Some(types[i].namePl), types[i].number, strength)
    ensures (forall i :: 0 <= i < |types| ==> types[i].namePl != name) ==>
      ParseEntry(types, Entry(name, strength)) == ShopItem(None, None, 0, strength)
  {
    var text := Entry(name, strength);
    EntryParts(name, strength, text);
    forall i | 0 <= i < |types| && types[i].namePl == name && forall j :: 0 <= j < i ==> types[j].namePl != name
      ensures ParseEntry(types, text) == ShopItem(Some(types[i].name), Some(types[i].namePl), types[i].number, strength)
    {
      FirstPlural(types, i);
    }
    if forall i :: 0 <= i < |types| ==> types[i].namePl != name {
      NoName(types, name);
    }
  }

  lemma EntryHasNoSemicolon(types: seq<TypeData>, item: ShopItem)
    requires GoodTypes(types) && KnownItem(types, item)
    ensures Text(item) != "" && forall k :: 0 <= k < |Text(item)| ==> Text(item)[k] != ';' && Text(item)[k] != '\n'
  {}

  // ---------------------------------------------------------------------------------------
  // Lists
  // ---------------------------------------------------------------------------------------

  /** All entries between semicolons. */
  function ParseAll(types: seq<TypeData>, s: string): (items: seq<ShopItem>)
    ensures items != []
    decreases |s|
  {
    var i := IndexOf(s, ';');
    [ParseEntry(types, s[..i])] + if i < |s| then ParseAll(types, s[i + 1..]) else []
  }

  /** The entries, each with a semicolon. */
  function Entries(items: seq<ShopItem>): string {
    if items == [] then "" else Text(items[0]) + ";" + Entries(items[1..])
  }

  function WithoutLast(s: string): string {
    if s == "" then "" else s[..|s| - 1]
  }

  /** The list as it is written in a buffer that is large enough. */
  function Printed(items: seq<ShopItem>): string {
    WithoutLast(Entries(items))
  }

  /** strip_endline. */
  function Stripped(s: string): string {
    if |s| >= 2 && s[|s| - 1] == '\n' then s[..|s| - 1] else s
  }

  /** One newline at the end goes, unless it is all there is. */
  lemma StrippedIs(s: string)
    ensures s != "" ==> Stripped(s + "\n") == s
    ensures s == "" || s == "\n" || s[|s| - 1] != '\n' ==> Stripped(s) == s
  {
    assert (s + "\n")[..|s|] == s;
  }

  lemma PrintedOne(item: ShopItem)
    ensures Printed([item]) == Text(item)
  {
    assert [item][1..] == [];
    assert Entries([item]) == Text(item) + ";";
  }

  lemma PrintedMore(item: ShopItem, rest: seq<ShopItem>)
    requires rest != []
    ensures Printed([item] + rest) == Text(item) + ";" + Printed(rest)
  {
    assert ([item] + rest)[1..] == rest;
    var e := Entries(rest);
    assert e == Text(rest[0]) + ";" + Entries(rest[1..]);
    assert WithoutLast(Text(item) + ";" + e) == Text(item) + ";" + WithoutLast(e);
  }

  /** One entry alone, and one followed by others. */
  lemma ParseOne(types: seq<TypeData>, t: string)
    requires forall k :: 0 <= k < |t| ==> t[k] != ';'
    ensures ParseAll(types, t) == [ParseEntry(types, t)]
  {
    IndexIs(t, ';', |t|);
    assert t[..|t|] == t;
  }

  lemma ParseMore(types: seq<TypeData>, t: string, more: string)
    requires forall k :: 0 <= k < |t| ==> t[k] != ';'
    ensures ParseAll(types, t + ";" + more) == [ParseEntry(types, t)] + ParseAll(types, more)
  {
    var s := t + ";" + more;
    IndexIs(s, ';', |t|);
    assert s[..|t|] == t && s[|t| + 1..] == more;
  }

  /** A list of known items reads back as it was written. */
  lemma {:induction false} ListRoundTrip(types: seq<TypeData>, items: seq<ShopItem>)
    requires GoodTypes(types) && items != [] && forall i :: 0 <= i < |items| ==> KnownItem(types, items[i])
    ensures ParseAll(types, Printed(items)) == items
  {
    var item, rest := items[0], items[1..];
    EntryHasNoSemicolon(types, item);
    EntryRoundTrip(types, item);
    assert [item] + rest == items;
    if rest == [] {
      PrintedOne(item);
      ParseOne(types, Text(item));
    } else {
      ListRoundTrip(types, rest);
      var more := Printed(rest);
      PrintedMore(item, rest);
      ParseMore(types, Text(item), more);
    }
  }

  lemma {:induction false} PrintedEnd(types: seq<TypeData>, items: seq<ShopItem>)
    requires GoodTypes(types) && items != [] && forall i :: 0 <= i < |items| ==> KnownItem(types, items[i])
    ensures Printed(items) != "" && Printed(items)[|Printed(items)| - 1] != '\n'
  {
    var item, rest := items[0], items[1..];
    EntryHasNoSemicolon(types, item);
    assert [item] + rest == items;
    var t := Text(item);
    assert t[|t| - 1] != '\n';
    if rest == [] {
      PrintedOne(item);
      assert items == [item];
    } else {
      PrintedEnd(types, rest);
      PrintedMore(item, rest);
      LastOf(Text(item) + ";", Printed(rest));
    }
  }

  lemma LastOf(s: string, t: string)
    requires t != ""
    ensures s + t != "" && (s + t)[|s + t| - 1] == t[|t| - 1]
  {}

  /** And so in a file, where a line ends in a newline. */
  lemma ShopRoundTrip(types: seq<TypeData>, items: seq<ShopItem>)
    requires GoodTypes(types) && items != [] && forall i :: 0 <= i < |items| ==> KnownItem(types, items[i])
    ensures ParseAll(types, Stripped(Printed(items))) == items
    ensures ParseAll(types, Stripped(Printed(items) + "\n")) == items
  {
    ListRoundTrip(types, items);
    PrintedEnd(types, items);
    assert (Printed(items) + "\n")[..|Printed(items)|] == Printed(items);
  }

  // ---------------------------------------------------------------------------------------
  // The functions
  // ---------------------------------------------------------------------------------------

  function CountEntries(s: string): (n: nat)
    ensures n > 0
    decreases |s|
  {
    var i := IndexOf(s, ';');
    if i < |s| then 1 + CountEntries(s[i + 1..]) else 1
  }

  lemma {:induction false} CountIsLength(types: seq<TypeData>, s: string)
    ensures |ParseAll(types, s)| == CountEntries(s)
    decreases |s|
  {
    var i := IndexOf(s, ';');
    if i < |s| {
      CountIsLength(types, s[i + 1..]);
    }
  }

  lemma {:induction false} CountOfStripped(s: string)
    ensures CountEntries(s + "\n") == CountEntries(s)
    decreases |s|
  {
    var i := IndexOf(s, ';');
    IndexIs(s + "\n", ';', if i < |s| then i else |s| + 1);
    if i < |s| {
      assert (s + "\n")[i + 1..] == s[i + 1..] + "\n";
      CountOfStripped(s[i + 1..]);
    }
  }

  method CountSemicolons(s: string) returns (n: nat)
    ensures n == CountEntries(s)
  {
    n := 1;
    var rest := s;
    while IndexOf(rest, ';') < |rest|
      invariant n > 0 && n - 1 + CountEntries(rest) == CountEntries(s)
      decreases |rest|
    {
      rest := rest[IndexOf(rest, ';') + 1..];
      n := n + 1;
    }
  }

  /** The entries one after the other. */
  method ParseEntries(types: seq<TypeData>, s: string, n: nat) returns (items: seq<ShopItem>)
    requires n == CountEntries(s)
    ensures items == ParseAll(types, s)
  {
    items := [];
    var rest := s;
    for i := 1 to n
      invariant items + ParseAll(types, rest) == ParseAll(types, s)
      invariant CountEntries(rest) == n - i + 1
    {
      var semicolon := IndexOf(rest, ';');
      var item := ParseEntry(types, rest[..semicolon]);
      assert ParseAll(types, rest) == [item] + ParseAll(types, rest[semicolon + 1..]);
      items := items + [item];
      rest := rest[semicolon + 1..];
    }
    assert ParseAll(types, rest) == [ParseEntry(types, rest[..IndexOf(rest, ';')])];
    items := items + [ParseEntry(types, rest[..IndexOf(rest, ';')])];
  }

  /** parse_shop_string; every item also records the number of entries. */
  method ParseShopString(types: seq<TypeData>, input: string) returns (items: seq<ShopItem>, numberOfEntries: nat)
    ensures items == ParseAll(types, Stripped(input)) && numberOfEntries == |items|
  {
    numberOfEntries := CountSemicolons(input);
    var s := Stripped(input);
    CountOfStripped(s);
    assert s == input || s + "\n" == input;
    CountIsLength(types, s);
    items := ParseEntries(types, s, numberOfEntries);
  }

  /** snprintf to the end of a buffer of this size. */
  function Append(s: string, t: string, size: nat): string
    requires |s| < size
  {
    if |s + t| < size then s + t else (s + t)[..size - 1]
  }

  /** What print_shop_string leaves in a buffer of this size. */
  function PrintedIn(items: seq<ShopItem>, size: nat): string
    requires size > 0
  {
    WithoutLast(Append("", Entries(items), size))
  }

  /** The whole list is there exactly when the buffer holds it with its last semicolon. */
  lemma PrintFitsIff(items: seq<ShopItem>, size: nat)
    requires size > 0 && items != [] && Text(items[0]) != ""
    ensures PrintedIn(items, size) == Printed(items) <==> |Entries(items)| < size
  {
    var e := Entries(items);
    assert e == Text(items[0]) + ";" + Entries(items[1..]);
    CutFitsIff(e, size);
  }

  lemma CutFitsIff(e: string, size: nat)
    requires size > 0 && |e| >= 2
    ensures WithoutLast(Append("", e, size)) == WithoutLast(e) <==> |e| < size
  {
    assert "" + e == e;
    if |e| >= size {
      assert |WithoutLast(e[..size - 1])| < |WithoutLast(e)|;
    }
  }

  const MAX_BUF := 256

  lemma {:induction false} EntriesConcat(a: seq<ShopItem>, b: seq<ShopItem>)
    ensures Entries(a + b) == Entries(a) + Entries(b)
  {
    if a == [] {
      assert a + b == b;
    } else {
      assert (a + b)[1..] == a[1..] + b;
      EntriesConcat(a[1..], b);
    }
  }

  lemma EntriesOneMore(items: seq<ShopItem>, i: nat)
    requires i < |items|
    ensures Entries(items[..i + 1]) == Entries(items[..i]) + (Text(items[i]) + ";")
  {
    assert items[..i] + [items[i]] == items[..i + 1];
    EntriesConcat(items[..i], [items[i]]);
    assert [items[i]][1..] == [];
  }

  lemma AppendTwice(a: string, b: string, size: nat)
    requires size > 0
    ensures Append(Append("", a, size), b, size) == Append("", a + b, size)
  {}

  /** print_shop_string, with entries that fit the buffer for one. */
  method PrintShopString(items: seq<ShopItem>, size: nat) returns (output: string)
    requires size > 0 && forall i :: 0 <= i < |items| ==> |Text(items[i])| + 1 < MAX_BUF
    ensures output == PrintedIn(items, size)
  {
    output := "";
    var i := 0;
    while i < |items|
      invariant 0 <= i <= |items| && output == Append("", Entries(items[..i]), size)
    {
      EntriesOneMore(items, i);
      AppendTwice(Entries(items[..i]), Text(items[i]) + ";", size);
      var tmp := PrintEntry(items[i]);
      output := Append(output, tmp, size);
      i := i + 1;
    }
    assert items[..i] == items;
    if |output| > 0 {
      output := output[..|output| - 1];
    }
  }

  method PrintEntry(item: ShopItem) returns (tmp: string)
    requires |Text(item)| + 1 < MAX_BUF
    ensures tmp == Text(item) + ";"
  {
    if item.typenum != -1 {
      if item.strength != 0 {
        tmp := item.name.GetOr("(null)") + ":" + Signed(item.strength) + ";";
      } else {
        tmp := item.name.GetOr("(null)") + ";";
      }
    } else {
      if item.strength != 0 {
        tmp := "*:" + Signed(item.strength) + ";";
      } else {
        tmp := "*;";
      }
    }
  }
}
