/** Small string and option helpers shared by the other modules: Kotlin's
    `isBlank`, `split` with a one-character delimiter, `startsWith`,
    ASCII case mapping and decimal rendering of numbers. */
module Util {

  datatype Option<T> = None | Some(value: T)

  /** Kotlin's `Char.isWhitespace()`: `Character.isWhitespace(c) || Character.isSpaceChar(c)`. */
  predicate IsWhitespace(c: char)
  {
    c == ' ' || c == '\t' || c == '\n' || c == '\U{000B}' || c == '\U{000C}' || c == '\r'
    || ('\U{001C}' <= c <= '\U{001F}')
    || c == '\U{00A0}' || c == '\U{1680}'
    || ('\U{2000}' <= c <= '\U{200A}')
    || c == '\U{2028}' || c == '\U{2029}' || c == '\U{202F}' || c == '\U{205F}' || c == '\U{3000}'
  }

  /** Kotlin's `CharSequence.isBlank()`: empty or whitespace only. */
  predicate IsBlank(s: string)
  {
    forall i :: 0 <= i < |s| ==> IsWhitespace(s[i])
  }

  lemma EmptyIsBlank()
    ensures IsBlank("")
  {
  }

  /** `s.startsWith(p)`. */
  predicate StartsWith(s: string, p: string)
  {
    |p| <= |s| && s[..|p|] == p
  }

  /** Kotlin's `split(d)` with one delimiter and no limit: every part, empty
      ones included, so a string with k delimiters gives k + 1 parts. */
  function Split(s: string, d: char): (parts: seq<string>)
    ensures |parts| >= 1
    ensures forall i :: 0 <= i < |parts| ==> d !in parts[i]
    ensures Join(parts, d) == s
  {
    if |s| == 0 then [""]
    else if s[0] == d then
      var rest := Split(s[1..], d);
      assert [d] + Join(rest, d) == s;
      [""] + rest
    else
      var rest := Split(s[1..], d);
      var r := [[s[0]] + rest[0]] + rest[1..];
      assert r[1..] == rest[1..];
      assert Join(r, d) == s by {
        if |rest| == 1 {
        } else {
          assert Join(rest, d) == rest[0] + [d] + Join(rest[1..], d);
        }
      }
      r
  }

  /** The inverse of `Split`: parts glued back with the delimiter between them. */
  function Join(parts: seq<string>, d: char): string
    requires |parts| >= 1
  {
    if |parts| == 1 then parts[0] else parts[0] + [d] + Join(parts[1..], d)
  }

  /** `Split` is the exact inverse of `Join` on parts free of the delimiter. */
  lemma {:induction false} SplitJoin(parts: seq<string>, d: char)
    requires |parts| >= 1
    requires forall i :: 0 <= i < |parts| ==> d !in parts[i]
    ensures Split(Join(parts, d), d) == parts
  {
    if |parts| == 1 {
      SplitNoDelimiter(parts[0], d);
    } else {
      SplitJoin(parts[1..], d);
      SplitPrefix(parts[0], Join(parts[1..], d), d);
    }
  }

  lemma {:induction false} SplitNoDelimiter(s: string, d: char)
    requires d !in s
    ensures Split(s, d) == [s]
  {
    if |s| > 0 {
      assert s[0] != d;
      SplitNoDelimiter(s[1..], d);
    }
  }

  lemma {:induction false} SplitPrefix(p: string, t: string, d: char)
    requires d !in p
    ensures Split(p + [d] + t, d) == [p] + Split(t, d)
  {
    if |p| == 0 {
      assert p + [d] + t == [d] + t;
      assert ([d] + t)[1..] == t;
    } else {
      assert (p + [d] + t)[1..] == p[1..] + [d] + t;
      assert p[0] != d;
      SplitPrefix(p[1..], t, d);
      assert [p[0]] + p[1..] == p;
    }
  }

  /** The last part of `split(d)`; never absent, because `Split` never
      returns an empty list. It is the text after the last delimiter, or
      the whole string when there is none. */
  function LastSegment(s: string, d: char): (r: string)
    ensures d !in r
    ensures |r| <= |s|
    ensures exists k :: 0 <= k <= |s| && r == s[k..] && (k == 0 || s[k - 1] == d)
  {
    var parts := Split(s, d);
    LastPartSuffix(parts, d);
    var k := LastPartStart(parts, d);
    assert s[k..] == parts[|parts| - 1];
    parts[|parts| - 1]
  }

  /** Where the last part starts in the joined string. */
  function LastPartStart(parts: seq<string>, d: char): nat
    requires |parts| >= 1
  {
    if |parts| == 1 then 0 else |parts[0]| + 1 + LastPartStart(parts[1..], d)
  }

  /** The last of the joined parts is the suffix of the join from
      `LastPartStart`, which is the start of the string or follows a
      delimiter. */
  lemma {:induction false} LastPartSuffix(parts: seq<string>, d: char)
    requires |parts| >= 1
    ensures LastPartStart(parts, d) <= |Join(parts, d)|
    ensures parts[|parts| - 1] == Join(parts, d)[LastPartStart(parts, d)..]
    ensures LastPartStart(parts, d) == 0 || Join(parts, d)[LastPartStart(parts, d) - 1] == d
  {
    if |parts| > 1 {
      var rest := Join(parts[1..], d);
      var k' := LastPartStart(parts[1..], d);
      LastPartSuffix(parts[1..], d);
      var j := Join(parts, d);
      assert j == parts[0] + [d] + rest;
      var k := |parts[0]| + 1 + k';
      assert j[k..] == rest[k'..];
      assert j[k - 1] == d;
    }
  }

  /** `s.take(n)`. */
  function Take(s: string, n: nat): (r: string)
    ensures |r| == if n < |s| then n else |s|
    ensures StartsWith(s, r)
  {
    if n < |s| then s[..n] else s
  }

  function UpperChar(c: char): char
  {
    if 'a' <= c <= 'z' then (c as int - 32) as char else c
  }

  function LowerChar(c: char): char
  {
    if 'A' <= c <= 'Z' then (c as int + 32) as char else c
  }

  /** `s.uppercase()` on ASCII letters. */
  function Upper(s: string): (r: string)
    ensures |r| == |s|
    ensures forall i :: 0 <= i < |s| ==> r[i] == UpperChar(s[i])
  {
    if |s| == 0 then "" else [UpperChar(s[0])] + Upper(s[1..])
  }

  /** `s.lowercase()` on ASCII letters. */
  function Lower(s: string): (r: string)
    ensures |r| == |s|
    ensures forall i :: 0 <= i < |s| ==> r[i] == LowerChar(s[i])
  {
    if |s| == 0 then "" else [LowerChar(s[0])] + Lower(s[1..])
  }

  /** `s.contains(sub)`. */
  predicate Contains(s: string, sub: string)
  {
    StartsWith(s, sub) || (|s| > 0 && Contains(s[1..], sub))
  }

  /** `s.contains(sub, ignoreCase = true)` for ASCII letters. */
  predicate ContainsIgnoreCase(s: string, sub: string)
  {
    Contains(Lower(s), Lower(sub))
  }

  function DigitChar(d: nat): (c: char)
    requires d < 10
    ensures '0' <= c <= '9'
  {
    ('0' as int + d) as char
  }

  /** The decimal rendering of `n` (`n.toString()`), no leading zeros. */
  function NatToString(n: nat): (r: string)
    ensures |r| >= 1
    ensures forall i :: 0 <= i < |r| ==> '0' <= r[i] <= '9'
    ensures |r| > 1 ==> r[0] != '0'
  {
    if n < 10 then [DigitChar(n)] else NatToString(n / 10) + [DigitChar(n % 10)]
  }

  /** `n.toString()` for any integer: a minus sign before the magnitude. */
  function IntToString(n: int): (r: string)
    ensures |r| >= 1
    ensures (n < 0) == (r[0] == '-')
    ensures n >= 0 ==> r == NatToString(n)
    ensures n < 0 ==> r[1..] == NatToString(-n)
  {
    if n < 0 then "-" + NatToString(-n) else NatToString(n)
  }
}
