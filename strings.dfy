/**
 * The few pieces of Rust's standard library the client relies on, stated
 * over `string` (a sequence of Unicode scalar values):
 * - `char::is_whitespace` and `str::trim`,
 * - `str::to_lowercase`, restricted to ASCII letters,
 * - `u32`/`u8` `Display` (decimal rendering) and `FromStr` (decimal parsing).
 */
module Strings {
  import opened Wrappers

  /** Unicode White_Space, the set `char::is_whitespace` and `str::trim` use. */
  predicate IsWhitespace(c: char) {
    ('\t' <= c <= '\r') || c == ' ' || c == '\U{0085}' || c == '\U{00A0}' || c == '\U{1680}'
    || ('\U{2000}' <= c <= '\U{200A}') || c == '\U{2028}' || c == '\U{2029}'
    || c == '\U{202F}' || c == '\U{205F}' || c == '\U{3000}'
  }

  predicate AllWhitespace(s: string) {
    forall i :: 0 <= i < |s| ==> IsWhitespace(s[i])
  }

  /** `str::trim_start`: the suffix left after dropping leading whitespace. */
  function TrimStart(s: string): (r: string)
    ensures |r| <= |s| && r == s[|s| - |r|..]
    ensures AllWhitespace(s[..|s| - |r|])
    ensures r == [] || !IsWhitespace(r[0])
  {
    if |s| > 0 && IsWhitespace(s[0]) then
      var r := TrimStart(s[1..]);
      assert s[..|s| - |r|] == [s[0]] + s[1..][..|s| - 1 - |r|];
      r
    else s
  }

  /** `str::trim_end`: the prefix left after dropping trailing whitespace. */
  function TrimEnd(s: string): (r: string)
    ensures |r| <= |s| && r == s[..|r|]
    ensures AllWhitespace(s[|r|..])
    ensures r == [] || !IsWhitespace(r[|r| - 1])
  {
    if |s| > 0 && IsWhitespace(s[|s| - 1]) then
      var r := TrimEnd(s[..|s| - 1]);
      assert s[|r|..] == s[..|s| - 1][|r|..] + [s[|s| - 1]];
      r
    else s
  }

  /** `str::trim`: drops leading and trailing whitespace. */
  function Trim(s: string): (r: string)
  {
    TrimEnd(TrimStart(s))
  }

  /** What `trim` keeps is a contiguous piece of `s` with only whitespace around it
      and no whitespace at either end. */
  lemma TrimIsCore(s: string)
    ensures exists i, j :: 0 <= i <= j <= |s| && Trim(s) == s[i..j]
                           && AllWhitespace(s[..i]) && AllWhitespace(s[j..])
    ensures Trim(s) == [] || (!IsWhitespace(Trim(s)[0]) && !IsWhitespace(Trim(s)[|Trim(s)| - 1]))
  {
    var i, j := TrimBounds(s);
    TrimEnds(s);
  }

  /** Where the piece `trim` keeps starts and ends. */
  lemma TrimBounds(s: string) returns (i: nat, j: nat)
    ensures i <= j <= |s| && Trim(s) == s[i..j]
    ensures AllWhitespace(s[..i]) && AllWhitespace(s[j..])
  {
    var t := TrimStart(s);
    var r := TrimEnd(t);
    i := |s| - |t|;
    j := i + |r|;
    assert t == s[i..];
    assert r == s[i..j];
    assert s[j..] == t[|r|..];
  }

  lemma TrimEnds(s: string)
    ensures Trim(s) == [] || (!IsWhitespace(Trim(s)[0]) && !IsWhitespace(Trim(s)[|Trim(s)| - 1]))
  {
    var t := TrimStart(s);
    var r := TrimEnd(t);
    if r != [] {
      assert r[0] == t[0];
    }
  }

  /** `s.trim().is_empty()` holds exactly when every character of `s` is whitespace. */
  lemma TrimEmptyIff(s: string)
    ensures Trim(s) == [] <==> AllWhitespace(s)
  {
    var t := TrimStart(s);
    if Trim(s) == [] {
      assert t == [];
      assert s[..|s|] == s;
    }
  }

  /** A string with no whitespace at either end is left as it is. */
  lemma TrimKeepsUnpadded(s: string)
    requires s == [] || (!IsWhitespace(s[0]) && !IsWhitespace(s[|s| - 1]))
    ensures Trim(s) == s
  {
    assert TrimStart(s) == s;
    assert TrimEnd(s) == s;
  }

  /** Trimming twice is trimming once. */
  lemma TrimIdempotent(s: string)
    ensures Trim(Trim(s)) == Trim(s)
  {
    TrimIsCore(s);
    TrimKeepsUnpadded(Trim(s));
  }

  /** ASCII case folding of one character. */
  function LowerChar(c: char): char {
    if 'A' <= c <= 'Z' then (c as int + 32) as char else c
  }

  /** `str::to_lowercase`, modelled for ASCII letters only. */
  function ToLower(s: string): (r: string)
    ensures |r| == |s|
  {
    if s == [] then [] else [LowerChar(s[0])] + ToLower(s[1..])
  }

  /** Lower-casing works character by character. */
  lemma {:induction false} ToLowerAt(s: string, i: nat)
    requires i < |s|
    ensures ToLower(s)[i] == LowerChar(s[i])
    decreases i
  {
    if i > 0 {
      ToLowerAt(s[1..], i - 1);
    }
  }

  /** Case-insensitive equality of one character with a lower-case ASCII letter. */
  lemma LowerCharIs(c: char, lower: char)
    requires 'a' <= lower <= 'z'
    ensures LowerChar(c) == lower <==> (c == lower || c as int == lower as int - 32)
  {
  }

  /** `t.to_lowercase() == "true"` accepts exactly the sixteen capitalisations of "true". */
  lemma LowerIsTrueIff(t: string)
    ensures ToLower(t) == "true" <==>
      (|t| == 4 && (t[0] == 't' || t[0] == 'T') && (t[1] == 'r' || t[1] == 'R')
                && (t[2] == 'u' || t[2] == 'U') && (t[3] == 'e' || t[3] == 'E'))
  {
    if |t| == 4 {
      var l := ToLower(t);
      ToLowerAt(t, 0);
      ToLowerAt(t, 1);
      ToLowerAt(t, 2);
      ToLowerAt(t, 3);
      LowerCharIs(t[0], 't');
      LowerCharIs(t[1], 'r');
      LowerCharIs(t[2], 'u');
      LowerCharIs(t[3], 'e');
      assert l == "true" <==> (l[0] == 't' && l[1] == 'r' && l[2] == 'u' && l[3] == 'e');
    }
  }

  predicate IsDigit(c: char) { '0' <= c <= '9' }

  function DigitValue(c: char): nat
    requires IsDigit(c)
  {
    c as int - '0' as int
  }

  function DigitChar(d: nat): (c: char)
    requires d < 10
    ensures IsDigit(c) && DigitValue(c) == d
  {
    ('0' as int + d) as char
  }

  predicate AllDigits(s: string) {
    forall i :: 0 <= i < |s| ==> IsDigit(s[i])
  }

  /** The number a string of decimal digits denotes (most significant first). */
  function DigitsValue(s: string): nat
    requires AllDigits(s)
  {
    if s == [] then 0 else DigitsValue(s[..|s| - 1]) * 10 + DigitValue(s[|s| - 1])
  }

  /** Rust's `Display` for unsigned integers: shortest decimal rendering. */
  function Decimal(n: nat): (r: string)
    ensures r != [] && AllDigits(r)
    ensures |r| > 1 ==> r[0] != '0'
  {
    if n < 10 then [DigitChar(n)] else Decimal(n / 10) + [DigitChar(n % 10)]
  }

  lemma {:induction false} DecimalValue(n: nat)
    ensures DigitsValue(Decimal(n)) == n
  {
    if n >= 10 {
      var r := Decimal(n);
      assert r[..|r| - 1] == Decimal(n / 10);
      DecimalValue(n / 10);
    }
  }

  /** `str::parse::<uN>()` where `limit` is 2^N: an optional leading '+', then at
      least one decimal digit, and a value below `limit`; anything else is an error. */
  function ParseUnsigned(s: string, limit: nat): (r: Option<nat>)
    ensures r.Some? ==> r.value < limit
  {
    if s == [] then None
    else
      var digits := if s[0] == '+' then s[1..] else s;
      if digits == [] || !AllDigits(digits) then None
      else if DigitsValue(digits) < limit then Some(DigitsValue(digits))
      else None
  }

  /** Decimal rendering and parsing are inverse on every value that fits. */
  lemma DecimalRoundTrip(n: nat, limit: nat)
    requires n < limit
    ensures ParseUnsigned(Decimal(n), limit) == Some(n)
  {
    DecimalValue(n);
  }

  /** A value that does not fit is rejected (an overflow, not a wrap-around). */
  lemma ParseRejectsOverflow(n: nat, limit: nat)
    requires limit <= n
    ensures ParseUnsigned(Decimal(n), limit) == None
  {
    DecimalValue(n);
  }
}
