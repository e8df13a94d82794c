/** JavaScript values and the few string operations of the JavaScript runtime
    that the stream views rely on: truthiness, prefix tests, `indexOf`,
    `String.prototype.replace` with a string pattern, and string conversion. */
module Js {

  datatype Option<+T> = None | Some(value: T)

  /** A value written to, or read from, the graph store: a string, a number,
      a boolean, or an object with one field, such as the soul reference
      `{ "#": id }` or the record `{ text: s }`. */
  datatype Value =
    | Str(s: string)
    | Num(n: int)
    | Bool(b: bool)
    | Obj(key: string, field: Value)

  /** JavaScript truthiness of a value that is either a string or absent
      (`undefined` or `null`): absent and `""` are falsy. */
  predicate Truthy(s: Option<string>) {
    s.Some? && s.value != ""
  }

  /** JavaScript truthiness of a field read from a record, absent when the
      record has no such field: `undefined`, `""`, `0` and `false` are falsy,
      every object is truthy. */
  predicate ValueTruthy(v: Option<Value>) {
    match v
    case None => false
    case Some(Str(s)) => s != ""
    case Some(Num(n)) => n != 0
    case Some(Bool(b)) => b
    case Some(Obj(_, _)) => true
  }

  predicate StartsWith(s: string, prefix: string) {
    |prefix| <= |s| && s[..|prefix|] == prefix
  }

  /** `pat` occurs in `s` at index `i`. */
  predicate OccursAt(s: string, pat: string, i: nat) {
    i + |pat| <= |s| && s[i..i + |pat|] == pat
  }

  /** `s.indexOf(pat)`: the first index at which `pat` occurs, or None for -1. */
  function IndexOf(s: string, pat: string): (r: Option<nat>)
    ensures r.Some? ==> OccursAt(s, pat, r.value)
    ensures r.Some? ==> forall j: nat :: j < r.value ==> !OccursAt(s, pat, j)
    ensures r.None? ==> forall j: nat :: !OccursAt(s, pat, j)
  {
    IndexFrom(s, pat, 0)
  }

  function IndexFrom(s: string, pat: string, from: nat): (r: Option<nat>)
    requires from <= |s|
    ensures r.Some? ==> from <= r.value && OccursAt(s, pat, r.value)
    ensures r.Some? ==> forall j: nat :: from <= j < r.value ==> !OccursAt(s, pat, j)
    ensures r.None? ==> forall j: nat :: from <= j ==> !OccursAt(s, pat, j)
    decreases |s| - from
  {
    if OccursAt(s, pat, from) then Some(from)
    else if from == |s| then None
    else IndexFrom(s, pat, from + 1)
  }

  /** `s.replace(pat, "")` with a string pattern: removes the first
      occurrence of `pat` only, and leaves `s` alone when there is none.
      Stated as its inverse: putting `pat` back where it was gives `s`. */
  function RemoveFirst(s: string, pat: string): (r: string)
    ensures IndexOf(s, pat).None? ==> r == s
    ensures IndexOf(s, pat).Some? ==>
              var i := IndexOf(s, pat).value;
              i <= |r| && s == r[..i] + pat + r[i..]
  {
    match IndexOf(s, pat)
    case None => s
    case Some(i) =>
      var r := s[..i] + s[i + |pat|..];
      assert s == r[..i] + pat + r[i..] by {
        assert r[..i] == s[..i];
        assert r[i..] == s[i + |pat|..];
        assert s[i..i + |pat|] == pat;
        assert s == s[..i] + s[i..i + |pat|] + s[i + |pat|..];
      }
      r
  }

  /** Where the first occurrence is known, `RemoveFirst` cuts it out. */
  lemma RemoveFirstAt(s: string, pat: string, i: nat)
    requires IndexOf(s, pat) == Some(i)
    ensures RemoveFirst(s, pat) == s[..i] + s[i + |pat|..]
  {
  }

  /** An occurrence of `p + q` is an occurrence of `p`. */
  lemma {:induction false} OccursAtExtended(s: string, p: string, q: string, i: nat)
    requires OccursAt(s, p + q, i)
    ensures OccursAt(s, p, i)
  {
    assert s[i..i + |p|] == s[i..i + |p + q|][..|p|];
    assert (p + q)[..|p|] == p;
  }

  /** `String(n)` for an integer number. */
  function Decimal(n: int): string
    decreases if n < 0 then 1 - n else n
  {
    if n < 0 then "-" + Decimal(-n)
    else if n < 10 then [DigitChar(n)]
    else Decimal(n / 10) + [DigitChar(n % 10)]
  }

  function DigitChar(d: int): char
    requires 0 <= d < 10
  {
    "0123456789"[d]
  }

  /** `String(v)`, the conversion `RegExp.prototype.exec` applies to its
      argument: every plain object converts to `"[object Object]"`. */
  function ToString(v: Value): string
  {
    match v
    case Str(s) => s
    case Num(n) => Decimal(n)
    case Bool(b) => if b then "true" else "false"
    case Obj(_, _) => "[object Object]"
  }
}
