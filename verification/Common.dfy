/** Small things that several modules need. */
module Common {

  datatype Option<T> = None | Some(value: T) {
    function GetOr(other: T): T {
      if Some? then value else other
    }
  }

  /** isspace. */
  predicate Space(c: char) {
    c == ' ' || '\t' <= c <= '\r'
  }

  /** Where an element stands. */
  function Find<T(==)>(s: seq<T>, x: T): (j: nat)
    requires x in s
    ensures j < |s| && s[j] == x
  {
    if s[0] == x then 0 else 1 + Find(s[1..], x)
  }

  /** No element stands in two places. */
  ghost predicate NoTwice<T>(s: seq<T>) {
    forall j, k :: 0 <= j < k < |s| ==> s[j] != s[k]
  }

  ghost predicate Apart<T>(s: seq<T>, j: nat, k: nat)
    requires j < |s| && k < |s|
  {
    s[j] != s[k]
  }

  function Abs(i: int): nat {
    if i < 0 then -i else i
  }

  function Min(a: int, b: int): int {
    if a < b then a else b
  }

  function Max(a: int, b: int): int {
    if a > b then a else b
  }

  /** A list without its j-th element. */
  function Without<T>(s: seq<T>, j: nat): seq<T>
    requires j < |s|
  {
    s[..j] + s[j + 1..]
  }
}
