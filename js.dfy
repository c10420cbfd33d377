/**
 * The JavaScript values and built-ins that the time-tracking script relies on:
 * undefined/null as `None`, thrown exceptions as `Err`, numbers with NaN, and
 * the string operations `trim`, `split`, `startsWith` and `Number(...)`.
 */
module Js {

  datatype Option<+T> = None | Some(value: T)

  datatype Result<+T, +E> = Ok(value: T) | Err(error: E)

  /** What a `throw` carries in this model. */
  datatype Error =
    | TypeError                       // a property was read on undefined or null
    | MissingDatabaseId(db: string)   // verifyDatabaseIds
    | UnexpectedResponse              // the classifier's response has no content
    | UpdateFailed(code: int)         // a page update answered with status >= 400
    | CreateFailed(code: int)         // a page creation answered with status >= 400
    | Remote(message: string)         // a failure reported by an external call

  /** A JavaScript number; finite values are exact reals (no IEEE-754 rounding). */
  datatype JsNumber = Finite(value: real) | NaN

  /** JavaScript truthiness of a value that is a string, undefined or null. */
  predicate Truthy(s: Option<string>)
  {
    s.Some? && s.value != ""
  }

  /** The line terminators of ECMAScript (what `.` in a regular expression does not match). */
  predicate IsLineTerminator(c: char)
  {
    c == '\n' || c == '\r' || c == '\U{2028}' || c == '\U{2029}'
  }

  /** White space and line terminators: what `\s` matches and what `trim` removes. */
  predicate IsSpace(c: char)
  {
    || IsLineTerminator(c)
    || c == ' ' || c == '\t' || c == '\U{000B}' || c == '\U{000C}'
    || c == '\U{00A0}' || c == '\U{1680}' || ('\U{2000}' <= c <= '\U{200A}')
    || c == '\U{202F}' || c == '\U{205F}' || c == '\U{3000}' || c == '\U{FEFF}'
  }

  predicate NoSpace(s: string)
  {
    forall k :: 0 <= k < |s| ==> !IsSpace(s[k])
  }

  function TrimStart(s: string): (r: string)
    ensures |r| <= |s| && r == s[|s| - |r|..]
    ensures r == [] || !IsSpace(r[0])
    ensures forall k :: 0 <= k < |s| - |r| ==> IsSpace(s[k])
  {
    if s != [] && IsSpace(s[0]) then TrimStart(s[1..]) else s
  }

  function TrimEnd(s: string): (r: string)
    ensures |r| <= |s| && r == s[..|r|]
    ensures r == [] || !IsSpace(r[|r| - 1])
    ensures forall k :: |r| <= k < |s| ==> IsSpace(s[k])
  {
    if s != [] && IsSpace(s[|s| - 1]) then TrimEnd(s[..|s| - 1]) else s
  }

  /** The number of white-space characters `trim` removes from the front of `s`. */
  function Leading(s: string): nat
  {
    |s| - |TrimStart(s)|
  }

  /** `String.prototype.trim`: the result neither starts nor ends with white space. */
  function Trim(s: string): (r: string)
    ensures |r| <= |s|
    ensures r == [] || (!IsSpace(r[0]) && !IsSpace(r[|r| - 1]))
  {
    var t := TrimStart(s);
    var r := TrimEnd(t);
    assert r != [] ==> r[0] == t[0];
    r
  }

  /** `trim` removes white space only: the result is a slice of `s` with only white space around it. */
  lemma TrimRemovesOnlySpace(s: string)
    ensures var r := Trim(s); var l := Leading(s);
      && l + |r| <= |s| && r == s[l..l + |r|]
      && (forall k :: 0 <= k < l ==> IsSpace(s[k]))
      && (forall k :: l + |r| <= k < |s| ==> IsSpace(s[k]))
  {
    var t := TrimStart(s);
    var r := TrimEnd(t);
    var l := |s| - |t|;
    assert Trim(s) == r && Leading(s) == l;
    assert t == s[l..] && r == t[..|r|];
    forall k | l + |r| <= k < |s| ensures IsSpace(s[k]) {
      assert |r| <= k - l < |t|;
      assert s[k] == t[k - l];
    }
  }

  lemma TrimOfNoSpace(s: string)
    requires NoSpace(s)
    ensures Trim(s) == s
  {
  }

  lemma {:induction false} TrimIdempotent(s: string)
    ensures Trim(Trim(s)) == Trim(s)
  {
    var r := Trim(s);
    if r != [] {
      assert !IsSpace(r[0]) && !IsSpace(r[|r| - 1]);
      assert TrimStart(r) == r;
      assert TrimEnd(r) == r;
    }
  }

  predicate StartsWith(s: string, prefix: string)
  {
    |prefix| <= |s| && s[..|prefix|] == prefix
  }

  /** The first index of `c` in `s`. */
  function IndexOf(s: string, c: char): (i: nat)
    requires c in s
    ensures i < |s| && s[i] == c && c !in s[..i]
  {
    if s[0] == c then 0 else IndexOf(s[1..], c) + 1
  }

  /** `String.prototype.split` with a one-character separator. */
  function Split(s: string, sep: char): (parts: seq<string>)
    ensures |parts| >= 1
    ensures forall i :: 0 <= i < |parts| ==> sep !in parts[i]
    decreases |s|
  {
    if sep in s then
      var i := IndexOf(s, sep);
      [s[..i]] + Split(s[i + 1..], sep)
    else
      [s]
  }

  /** `Array.prototype.join`, the inverse of `Split`. */
  function Join(parts: seq<string>, sep: char): string
  {
    if |parts| <= 1 then (if parts == [] then "" else parts[0])
    else parts[0] + [sep] + Join(parts[1..], sep)
  }

  lemma {:induction false} IndexOfAfter(a: string, c: char, rest: string)
    requires c !in a
    ensures IndexOf(a + [c] + rest, c) == |a|
  {
    if a != [] {
      assert (a + [c] + rest)[1..] == a[1..] + [c] + rest;
      IndexOfAfter(a[1..], c, rest);
    }
  }

  lemma SplitCons(a: string, sep: char, rest: string)
    requires sep !in a
    ensures Split(a + [sep] + rest, sep) == [a] + Split(rest, sep)
  {
    var s := a + [sep] + rest;
    assert s[|a|] == sep;
    IndexOfAfter(a, sep, rest);
    assert s[..|a|] == a;
    assert s[|a| + 1..] == rest;
  }

  lemma {:induction false} SplitJoin(s: string, sep: char)
    ensures Join(Split(s, sep), sep) == s
    decreases |s|
  {
    if sep in s {
      var i := IndexOf(s, sep);
      var tail := s[i + 1..];
      SplitJoin(tail, sep);
      assert Split(s, sep) == [s[..i]] + Split(tail, sep);
      assert s == s[..i] + [sep] + tail;
    }
  }

  lemma {:induction false} JoinSplit(parts: seq<string>, sep: char)
    requires |parts| >= 1
    requires forall i :: 0 <= i < |parts| ==> sep !in parts[i]
    ensures Split(Join(parts, sep), sep) == parts
  {
    if |parts| > 1 {
      JoinSplit(parts[1..], sep);
      SplitCons(parts[0], sep, Join(parts[1..], sep));
      assert parts == [parts[0]] + parts[1..];
    }
  }

  predicate IsDigit(c: char)
  {
    '0' <= c <= '9'
  }

  predicate AllDigits(s: string)
  {
    forall k :: 0 <= k < |s| ==> IsDigit(s[k])
  }

  /** The value of a string of decimal digits. */
  function DigitsValue(s: string): nat
    requires AllDigits(s)
  {
    if s == [] then 0 else DigitsValue(s[..|s| - 1]) * 10 + (s[|s| - 1] as int - '0' as int)
  }

  /**
   * `Number(s)` for the strings a duration cell holds: surrounding white space
   * is ignored, an empty string is 0, a string of decimal digits is its value,
   * and anything else is NaN.
   */
  function ToNumber(s: string): (n: JsNumber)
    ensures n.Finite? ==> n.value >= 0.0 && n.value == n.value.Floor as real
    ensures n.Finite? <==> (Trim(s) == [] || AllDigits(Trim(s)))
  {
    var t := Trim(s);
    if t == [] then Finite(0.0)
    else if AllDigits(t) then Finite(DigitsValue(t) as real)
    else NaN
  }

  lemma DigitIsNotSpace(c: char)
    requires IsDigit(c)
    ensures !IsSpace(c)
  {
  }

  lemma DigitsHaveNoSpace(s: string)
    requires AllDigits(s)
    ensures NoSpace(s)
  {
    forall k | 0 <= k < |s| ensures !IsSpace(s[k]) {
      DigitIsNotSpace(s[k]);
    }
  }

  lemma ToNumberOfDigits(s: string)
    requires AllDigits(s)
    ensures ToNumber(s) == Finite(DigitsValue(s) as real)
  {
    DigitsHaveNoSpace(s);
    TrimOfNoSpace(s);
  }
}
