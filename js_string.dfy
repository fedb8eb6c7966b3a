/**
 * The JavaScript string built-ins the dashboard's components call, on strings
 * as sequences of characters: `includes`, `indexOf`, `replace` with a string
 * pattern, `split(sep)[0]`, `trim`, `toLowerCase` (ASCII letters only),
 * `padStart`, `Array.prototype.join` on strings, `Number.prototype.toString`
 * and `parseInt` on decimal digit strings.
 */
module JsString {

  // ---------------------------------------------------------------------------
  // Occurrences: includes, indexOf, replace
  // ---------------------------------------------------------------------------

  /** `sub` occurs in `s` starting at index `i`. */
  predicate OccursAt(s: string, sub: string, i: int) {
    0 <= i && i + |sub| <= |s| && s[i..i + |sub|] == sub
  }

  /** `s.indexOf(sub, from)`: the least index at or after `from` where `sub` occurs, or -1. */
  function IndexOfFrom(s: string, sub: string, from: nat): (r: int)
    ensures r == -1 || (from <= r && OccursAt(s, sub, r))
    ensures forall i :: from <= i && (r == -1 || i < r) ==> !OccursAt(s, sub, i)
    decreases |s| - from
  {
    if from + |sub| > |s| then -1
    else if s[from..from + |sub|] == sub then from
    else IndexOfFrom(s, sub, from + 1)
  }

  /** `s.indexOf(sub)`: the first occurrence of `sub` in `s`, or -1 when there is none. */
  function IndexOf(s: string, sub: string): (r: int)
    ensures r == -1 || OccursAt(s, sub, r)
    ensures forall i :: 0 <= i && (r == -1 || i < r) ==> !OccursAt(s, sub, i)
  {
    IndexOfFrom(s, sub, 0)
  }

  /** `s.includes(sub)`. */
  predicate Includes(s: string, sub: string) {
    IndexOf(s, sub) >= 0
  }

  /** `includes` holds exactly when some occurrence exists. */
  lemma IncludesIff(s: string, sub: string, i: int)
    ensures OccursAt(s, sub, i) ==> Includes(s, sub)
    ensures Includes(s, sub) ==> OccursAt(s, sub, IndexOf(s, sub))
  {
  }

  /** An occurrence in `t` is an occurrence in `a + t + b`, shifted by `|a|`. */
  lemma OccursInContext(a: string, t: string, b: string, sub: string, p: int)
    requires OccursAt(t, sub, p)
    ensures OccursAt(a + t + b, sub, |a| + p)
  {
    assert (a + t + b)[|a| + p..|a| + p + |sub|] == t[p..p + |sub|];
  }

  /** Every string includes itself, and the empty string is included everywhere. */
  lemma IncludesSelf(s: string)
    ensures Includes(s, s)
    ensures Includes(s, "")
  {
    assert OccursAt(s, s, 0);
    assert OccursAt(s, "", 0);
  }

  /**
   * `s.replace(pat, rep)` with a string pattern: only the FIRST occurrence of
   * `pat` is replaced, and a string without `pat` is returned unchanged.
   */
  function ReplaceFirst(s: string, pat: string, rep: string): (r: string)
    ensures (forall i :: !OccursAt(s, pat, i)) ==> r == s
    ensures forall i :: OccursAt(s, pat, i) && (forall j :: 0 <= j < i ==> !OccursAt(s, pat, j)) ==>
              r == s[..i] + rep + s[i + |pat|..]
  {
    var i := IndexOf(s, pat);
    if i < 0 then s else s[..i] + rep + s[i + |pat|..]
  }

  // ---------------------------------------------------------------------------
  // split(sep)[0]
  // ---------------------------------------------------------------------------

  /**
   * `s.split(sep)[0]` for a one-character separator: the part of `s` before
   * its first `sep`, or all of `s` when it has none.
   */
  function SplitHead(s: string, sep: char): (r: string)
    ensures r <= s
    ensures sep !in r
    ensures |r| < |s| ==> s[|r|] == sep
  {
    if s == [] || s[0] == sep then [] else [s[0]] + SplitHead(s[1..], sep)
  }

  /** A string without the separator is its own head. */
  lemma {:induction false} SplitHeadWithoutSep(s: string, sep: char)
    requires sep !in s
    ensures SplitHead(s, sep) == s
  {
    if s != [] {
      assert s[0] != sep;
      assert sep !in s[1..];
      SplitHeadWithoutSep(s[1..], sep);
    }
  }

  /** Taking the head twice changes nothing. */
  lemma SplitHeadIdempotent(s: string, sep: char)
    ensures SplitHead(SplitHead(s, sep), sep) == SplitHead(s, sep)
  {
    SplitHeadWithoutSep(SplitHead(s, sep), sep);
  }

  // ---------------------------------------------------------------------------
  // trim
  // ---------------------------------------------------------------------------

  /** The WhiteSpace and LineTerminator code points of ECMAScript, which `trim` strips. */
  predicate IsWhiteSpace(c: char) {
    || c == '\t' || c == '\n' || c == '\U{000B}' || c == '\U{000C}' || c == '\r'
    || c == ' ' || c == '\U{00A0}' || c == '\U{1680}'
    || ('\U{2000}' <= c <= '\U{200A}')
    || c == '\U{2028}' || c == '\U{2029}' || c == '\U{202F}' || c == '\U{205F}'
    || c == '\U{3000}' || c == '\U{FEFF}'
  }

  /** Every character of `s` is white space (the empty string included). */
  predicate IsBlank(s: string) {
    forall i :: 0 <= i < |s| ==> IsWhiteSpace(s[i])
  }

  function TrimStart(s: string): string {
    if s != [] && IsWhiteSpace(s[0]) then TrimStart(s[1..]) else s
  }

  function TrimEnd(s: string): string {
    if s != [] && IsWhiteSpace(s[|s| - 1]) then TrimEnd(s[..|s| - 1]) else s
  }

  /** `s.trim()`. */
  function Trim(s: string): string {
    TrimEnd(TrimStart(s))
  }

  lemma {:induction false} TrimStartEmptyIffBlank(s: string)
    ensures TrimStart(s) == [] <==> IsBlank(s)
    ensures TrimStart(s) != [] ==> !IsWhiteSpace(TrimStart(s)[0])
  {
    if s != [] && IsWhiteSpace(s[0]) {
      TrimStartEmptyIffBlank(s[1..]);
      assert IsBlank(s[1..]) ==> IsBlank(s) by {
        if IsBlank(s[1..]) {
          forall i | 0 <= i < |s| ensures IsWhiteSpace(s[i]) {
            if i > 0 { assert s[i] == s[1..][i - 1]; }
          }
        }
      }
    }
  }

  lemma {:induction false} TrimEndKeepsNonBlankHead(s: string)
    requires s != [] && !IsWhiteSpace(s[0])
    ensures TrimEnd(s) != [] && TrimEnd(s)[0] == s[0]
  {
    if IsWhiteSpace(s[|s| - 1]) {
      assert |s| > 1;
      TrimEndKeepsNonBlankHead(s[..|s| - 1]);
    }
  }

  /** `!s.trim()` holds exactly for the strings made only of white space. */
  lemma TrimEmptyIffBlank(s: string)
    ensures Trim(s) == [] <==> IsBlank(s)
  {
    TrimStartEmptyIffBlank(s);
    if TrimStart(s) != [] {
      TrimEndKeepsNonBlankHead(TrimStart(s));
    }
  }

  // ---------------------------------------------------------------------------
  // toLowerCase
  // ---------------------------------------------------------------------------

  /** Lower-cases the ASCII capitals and leaves every other character alone. */
  function LowerChar(c: char): (d: char)
    ensures !('A' <= d <= 'Z')
    ensures !('A' <= c <= 'Z') ==> d == c
  {
    if 'A' <= c <= 'Z' then (c as int - 'A' as int + 'a' as int) as char else c
  }

  /** `s.toLowerCase()`, restricted to the ASCII letters. */
  function ToLower(s: string): (r: string)
    ensures |r| == |s|
    ensures forall i :: 0 <= i < |s| ==> r[i] == LowerChar(s[i])
  {
    if s == [] then [] else [LowerChar(s[0])] + ToLower(s[1..])
  }

  /** Lower-casing twice is lower-casing once. */
  lemma ToLowerIdempotent(s: string)
    ensures ToLower(ToLower(s)) == ToLower(s)
  {
  }

  // ---------------------------------------------------------------------------
  // padStart, join
  // ---------------------------------------------------------------------------

  function Repeat(c: char, n: nat): (r: string)
    ensures |r| == n && forall i :: 0 <= i < n ==> r[i] == c
  {
    if n == 0 then [] else [c] + Repeat(c, n - 1)
  }

  /**
   * `s.padStart(width, fill)` with a one-character fill: `s` keeps its place at
   * the end and the front is filled up to `width` characters.
   */
  function PadStart(s: string, width: nat, fill: char): (r: string)
    ensures |r| == if |s| < width then width else |s|
    ensures r[|r| - |s|..] == s
    ensures forall i :: 0 <= i < |r| - |s| ==> r[i] == fill
  {
    if |s| < width then Repeat(fill, width - |s|) + s else s
  }

  /** `parts.join(sep)`. */
  function Join(parts: seq<string>, sep: string): string
  {
    if |parts| == 0 then ""
    else if |parts| == 1 then parts[0]
    else parts[0] + sep + Join(parts[1..], sep)
  }

  /** Every part can be found in the joined string. */
  lemma {:induction false} JoinIncludesParts(parts: seq<string>, sep: string, k: int)
    requires 0 <= k < |parts|
    ensures Includes(Join(parts, sep), parts[k])
  {
    if |parts| == 1 {
      IncludesSelf(parts[0]);
    } else if k == 0 {
      assert OccursAt(parts[0], parts[0], 0);
      OccursInContext([], parts[0], sep + Join(parts[1..], sep), parts[0], 0);
      assert [] + parts[0] + (sep + Join(parts[1..], sep)) == Join(parts, sep);
      IncludesIff(Join(parts, sep), parts[0], 0);
    } else {
      JoinIncludesParts(parts[1..], sep, k - 1);
      var rest := Join(parts[1..], sep);
      var p := IndexOf(rest, parts[k]);
      OccursInContext(parts[0] + sep, rest, [], parts[k], p);
      assert parts[0] + sep + rest + [] == Join(parts, sep);
      IncludesIff(Join(parts, sep), parts[k], |parts[0] + sep| + p);
    }
  }

  // ---------------------------------------------------------------------------
  // Numbers as decimal text
  // ---------------------------------------------------------------------------

  predicate IsDigit(c: char) {
    '0' <= c <= '9'
  }

  /** A non-empty string of decimal digits, the kind `toString` of a natural number yields. */
  predicate IsDigits(s: string) {
    |s| > 0 && forall i :: 0 <= i < |s| ==> IsDigit(s[i])
  }

  function DigitChar(d: nat): (c: char)
    requires d < 10
    ensures IsDigit(c)
  {
    ('0' as int + d) as char
  }

  function DigitValue(c: char): (d: nat)
    requires IsDigit(c)
    ensures d < 10 && DigitChar(d) == c
  {
    c as int - '0' as int
  }

  /** `n.toString()` for a natural number: its decimal digits, without leading zeros. */
  function NatToString(n: nat): (r: string)
    ensures IsDigits(r)
    ensures |r| > 1 ==> r[0] != '0'
    ensures |r| == 1 <==> n < 10
  {
    if n < 10 then [DigitChar(n)] else NatToString(n / 10) + [DigitChar(n % 10)]
  }

  /** `n.toString()` (and `${n}`) for an integer: a minus sign before the digits of a negative one. */
  function IntToString(n: int): (r: string)
    ensures n >= 0 ==> IsDigits(r)
    ensures n < 0 ==> |r| >= 2 && r[0] == '-' && IsDigits(r[1..])
  {
    if n < 0 then "-" + NatToString(-n) else NatToString(n)
  }

  /** The value of a string of decimal digits: `parseInt(s)` when `s` is non-empty. */
  function DigitsValue(s: string): nat
    requires forall i :: 0 <= i < |s| ==> IsDigit(s[i])
  {
    if s == [] then 0 else DigitsValue(s[..|s| - 1]) * 10 + DigitValue(s[|s| - 1])
  }

  /** Parsing what `toString` printed gives the number back. */
  lemma {:induction false} DigitsValueOfNatToString(n: nat)
    ensures DigitsValue(NatToString(n)) == n
  {
    if n >= 10 {
      DigitsValueOfNatToString(n / 10);
      var s := NatToString(n);
      assert s[..|s| - 1] == NatToString(n / 10);
    }
  }

  /** Leading zeros do not change the value of a digit string. */
  lemma {:induction false} DigitsValueLeadingZero(s: string)
    requires forall i :: 0 <= i < |s| ==> IsDigit(s[i])
    ensures DigitsValue("0" + s) == DigitsValue(s)
  {
    if s != [] {
      var t := "0" + s;
      assert t[..|t| - 1] == "0" + s[..|s| - 1];
      DigitsValueLeadingZero(s[..|s| - 1]);
    }
  }

  /** The decimal text of different natural numbers differs. */
  lemma NatToStringInjective(m: nat, n: nat)
    requires NatToString(m) == NatToString(n)
    ensures m == n
  {
    DigitsValueOfNatToString(m);
    DigitsValueOfNatToString(n);
  }

  /** The decimal text of different integers differs: the sign is visible in the first character. */
  lemma IntToStringInjective(m: int, n: int)
    requires IntToString(m) == IntToString(n)
    ensures m == n
  {
    var s := IntToString(m);
    assert (m < 0 <==> s[0] == '-') && (n < 0 <==> s[0] == '-');
    if m < 0 && n < 0 {
      assert s[1..] == NatToString(-m) && s[1..] == NatToString(-n);
      NatToStringInjective(-m, -n);
    } else if m >= 0 && n >= 0 {
      NatToStringInjective(m, n);
    }
  }
}
