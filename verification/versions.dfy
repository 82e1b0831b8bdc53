/** Dotted version strings and their comparison, the rule every status
    decision of the manager rests on (`compareVersions`, written out three
    times in the app with the same text). */
module Versions {
  import opened Util

  /** `Long.MAX_VALUE`: `toLongOrNull` fails above it. */
  const LONG_MAX: int := 0x7FFF_FFFF_FFFF_FFFF

  predicate IsDigit(c: char)
  {
    '0' <= c <= '9'
  }

  /** `part.takeWhile { it.isDigit() }`: the longest prefix made of digits. */
  function LeadingDigits(s: string): (r: string)
    ensures StartsWith(s, r)
    ensures forall i :: 0 <= i < |r| ==> IsDigit(r[i])
    ensures |r| == |s| || !IsDigit(s[|r|])
  {
    if |s| == 0 || !IsDigit(s[0]) then "" else [s[0]] + LeadingDigits(s[1..])
  }

  /** The number a run of decimal digits denotes. */
  function DigitsValue(ds: string): nat
    requires forall i :: 0 <= i < |ds| ==> IsDigit(ds[i])
  {
    if |ds| == 0 then 0
    else DigitsValue(ds[..|ds| - 1]) * 10 + DigitValue(ds[|ds| - 1])
  }

  function DigitValue(c: char): nat
    requires IsDigit(c)
  {
    c as int - '0' as int
  }

  /** `n.toString()` denotes `n`: read back as a digit run it gives `n`. */
  lemma {:induction false} NatToStringValue(n: nat)
    ensures DigitsValue(NatToString(n)) == n
  {
    if n >= 10 {
      NatToStringValue(n / 10);
      var r := NatToString(n);
      assert r[..|r| - 1] == NatToString(n / 10);
    }
  }

  /** Different numbers render differently, so a rendered count, code or
      time determines the number. */
  lemma NatToStringInjective(m: nat, n: nat)
    ensures NatToString(m) == NatToString(n) <==> m == n
  {
    NatToStringValue(m);
    NatToStringValue(n);
  }

  /** `n.toString()` for any integer: the digits after the optional minus
      sign denote the magnitude. */
  lemma IntToStringValue(n: int)
    ensures n >= 0 ==> DigitsValue(IntToString(n)) == n
    ensures n < 0 ==> DigitsValue(IntToString(n)[1..]) == -n
  {
    if n >= 0 {
      NatToStringValue(n);
    } else {
      NatToStringValue(-n);
    }
  }

  /** One part of the version after `takeWhile { isDigit }.ifEmpty { "0" }`. */
  function DigitPart(part: string): (r: string)
    ensures |r| >= 1
    ensures forall i :: 0 <= i < |r| ==> IsDigit(r[i])
  {
    var d := LeadingDigits(part);
    if d == "" then "0" else d
  }

  /** `digits.toLongOrNull() ?: 0L`: a run whose value does not fit a signed
      64-bit integer parses to null and so counts as zero. */
  function LongOrZero(digits: string): (v: int)
    requires forall i :: 0 <= i < |digits| ==> IsDigit(digits[i])
    ensures 0 <= v <= LONG_MAX
    ensures DigitsValue(digits) <= LONG_MAX ==> v == DigitsValue(digits)
    ensures DigitsValue(digits) > LONG_MAX ==> v == 0
  {
    var n := DigitsValue(digits);
    if n <= LONG_MAX then n else 0
  }

  /** `version.split(".").map { … }`: the digit part of every dot-separated part. */
  function DigitParts(version: string): (ps: seq<string>)
    ensures |ps| == |Split(version, '.')| >= 1
    ensures forall i :: 0 <= i < |ps| ==> ps[i] == DigitPart(Split(version, '.')[i])
  {
    var parts := Split(version, '.');
    seq(|parts|, i requires 0 <= i < |parts| => DigitPart(parts[i]))
  }

  /** The numbers the comparison loop reads off a version, one per part. */
  function Segments(version: string): (xs: seq<int>)
    ensures |xs| == |DigitParts(version)|
    ensures forall i :: 0 <= i < |xs| ==> 0 <= xs[i] <= LONG_MAX
  {
    var ps := DigitParts(version);
    seq(|ps|, i requires 0 <= i < |ps| => LongOrZero(ps[i]))
  }

  /** `Int.compareTo`: -1, 0 or 1. */
  function CompareInt(a: int, b: int): int
  {
    if a < b then -1 else if a > b then 1 else 0
  }

  /** Part-by-part comparison; when one list runs out, the longer list is greater. */
  function CompareSegments(xs: seq<int>, ys: seq<int>): (r: int)
    ensures -1 <= r <= 1
    ensures r == 0 ==> |xs| == |ys|
  {
    if |xs| == 0 || |ys| == 0 then CompareInt(|xs|, |ys|)
    else if xs[0] > ys[0] then 1
    else if xs[0] < ys[0] then -1
    else CompareSegments(xs[1..], ys[1..])
  }

  /** `compareVersions(installedVersion, latestVersion)`: positive when the
      installed version is newer, negative when older, 0 when equal or when
      either string is empty. */
  function Compare(installedVersion: string, latestVersion: string): (r: int)
    ensures -1 <= r <= 1
    ensures installedVersion == "" || latestVersion == "" ==> r == 0
  {
    if installedVersion == "" || latestVersion == "" then 0
    else CompareSegments(Segments(installedVersion), Segments(latestVersion))
  }

  /** Every part is a non-empty run of digits, as `DigitPart` makes it. */
  predicate DigitRuns(parts: seq<string>)
  {
    forall i :: 0 <= i < |parts| ==> |parts[i]| >= 1 && forall j :: 0 <= j < |parts[i]| ==> IsDigit(parts[i][j])
  }

  /** The numbers of a list of digit runs. */
  function Numbers(parts: seq<string>): (xs: seq<int>)
    requires DigitRuns(parts)
    ensures |xs| == |parts|
  {
    seq(|parts|, i requires 0 <= i < |parts| => LongOrZero(parts[i]))
  }

  /** `compareVersions` as written in each copy: the empty check, the split
      into digit parts, then the loop over the parts. */
  method CompareLoop(installedVersion: string, latestVersion: string) returns (r: int)
    ensures r == Compare(installedVersion, latestVersion)
  {
    if |installedVersion| == 0 || |latestVersion| == 0 {
      return 0;
    }
    var installedParts := DigitParts(installedVersion);
    var latestParts := DigitParts(latestVersion);
    assert Numbers(installedParts) == Segments(installedVersion);
    assert Numbers(latestParts) == Segments(latestVersion);
    r := ComparePartsLoop(installedParts, latestParts);
  }

  /** The `for (i in 0 until length)` loop with its early returns. */
  method ComparePartsLoop(installedParts: seq<string>, latestParts: seq<string>) returns (r: int)
    requires DigitRuns(installedParts) && DigitRuns(latestParts)
    ensures r == CompareSegments(Numbers(installedParts), Numbers(latestParts))
  {
    ghost var xs, ys := Numbers(installedParts), Numbers(latestParts);
    var length := if |installedParts| < |latestParts| then |installedParts| else |latestParts|;
    assert xs[0..] == xs && ys[0..] == ys;
    var i := 0;
    while i < length
      invariant 0 <= i <= length
      invariant CompareSegments(xs, ys) == CompareSegments(xs[i..], ys[i..])
    {
      var installedNum := LongOrZero(installedParts[i]);
      var latestNum := LongOrZero(latestParts[i]);
      CompareSegmentsAt(xs, ys, i);
      if installedNum > latestNum {
        return 1;
      } else if installedNum < latestNum {
        return -1;
      }
      i := i + 1;
    }
    CompareSegmentsEnd(xs, ys, i);
    r := CompareInt(|installedParts|, |latestParts|);
  }

  /** One round of the loop: the comparison from part i on is decided by
      the i-th numbers, or passes to the next part. */
  lemma CompareSegmentsAt(xs: seq<int>, ys: seq<int>, i: int)
    requires 0 <= i < |xs| && i < |ys|
    ensures CompareSegments(xs[i..], ys[i..]) ==
      if xs[i] > ys[i] then 1 else if xs[i] < ys[i] then -1 else CompareSegments(xs[i + 1..], ys[i + 1..])
  {
    assert xs[i..][0] == xs[i] && ys[i..][0] == ys[i];
    assert xs[i..][1..] == xs[i + 1..] && ys[i..][1..] == ys[i + 1..];
  }

  /** Once the shorter list is used up, the longer one is newer. */
  lemma CompareSegmentsEnd(xs: seq<int>, ys: seq<int>, i: int)
    requires 0 <= i <= |xs| && i <= |ys| && (i == |xs| || i == |ys|)
    ensures CompareSegments(xs[i..], ys[i..]) == CompareInt(|xs|, |ys|)
  {
  }

  lemma {:induction false} CompareSegmentsReflexive(xs: seq<int>)
    ensures CompareSegments(xs, xs) == 0
  {
    if |xs| > 0 {
      CompareSegmentsReflexive(xs[1..]);
    }
  }

  /** Every version equals itself. */
  lemma CompareReflexive(v: string)
    ensures Compare(v, v) == 0
  {
    if v != "" {
      CompareSegmentsReflexive(Segments(v));
    }
  }

  lemma {:induction false} CompareSegmentsAntisymmetric(xs: seq<int>, ys: seq<int>)
    ensures CompareSegments(xs, ys) == -CompareSegments(ys, xs)
  {
    if |xs| > 0 && |ys| > 0 && xs[0] == ys[0] {
      CompareSegmentsAntisymmetric(xs[1..], ys[1..]);
    }
  }

  /** Swapping the arguments flips the sign. */
  lemma CompareAntisymmetric(a: string, b: string)
    ensures Compare(a, b) == -Compare(b, a)
  {
    if a != "" && b != "" {
      CompareSegmentsAntisymmetric(Segments(a), Segments(b));
    }
  }

  lemma {:induction false} CompareSegmentsZero(xs: seq<int>, ys: seq<int>)
    ensures CompareSegments(xs, ys) == 0 <==> xs == ys
  {
    if |xs| > 0 && |ys| > 0 && xs[0] == ys[0] {
      CompareSegmentsZero(xs[1..], ys[1..]);
      assert xs == [xs[0]] + xs[1..] && ys == [ys[0]] + ys[1..];
    } else if xs == ys {
      CompareSegmentsReflexive(xs);
    }
  }

  /** Two non-empty versions compare equal exactly when they read off the same
      numbers: "1.2-beta" equals "1.2", but "1.0" is newer than "1". */
  lemma CompareZeroIff(a: string, b: string)
    requires a != "" && b != ""
    ensures Compare(a, b) == 0 <==> Segments(a) == Segments(b)
  {
    CompareSegmentsZero(Segments(a), Segments(b));
  }

  lemma {:induction false} CompareSegmentsTransitive(xs: seq<int>, ys: seq<int>, zs: seq<int>)
    requires CompareSegments(xs, ys) >= 0 && CompareSegments(ys, zs) >= 0
    ensures CompareSegments(xs, zs) >= 0
  {
    if |xs| > 0 && |ys| > 0 && |zs| > 0 && xs[0] == ys[0] == zs[0] {
      CompareSegmentsTransitive(xs[1..], ys[1..], zs[1..]);
    }
  }

  /** Among non-empty versions "not older than" is transitive. */
  lemma CompareTransitive(a: string, b: string, c: string)
    requires a != "" && b != "" && c != ""
    requires Compare(a, b) >= 0 && Compare(b, c) >= 0
    ensures Compare(a, c) >= 0
  {
    CompareSegmentsTransitive(Segments(a), Segments(b), Segments(c));
  }

  /** With the empty string in the middle transitivity fails: the empty
      version ties with everything, so the comparison is no total order. */
  lemma CompareNotTransitiveThroughEmpty()
    ensures Compare("1", "") == 0 && Compare("", "2") == 0 && Compare("1", "2") == -1
  {
    SplitNoDelimiter("1", '.');
    SplitNoDelimiter("2", '.');
    assert DigitsValue("1") == 1 && DigitsValue("2") == 2;
  }

  /** A version whose parts are a proper prefix of another's is older:
      "2" is older than "2.0". */
  lemma {:induction false} CompareSegmentsPrefix(xs: seq<int>, ys: seq<int>)
    requires |xs| < |ys| && xs == ys[..|xs|]
    ensures CompareSegments(xs, ys) == -1
  {
    if |xs| > 0 {
      assert ys[1..][..|xs| - 1] == xs[1..];
      CompareSegmentsPrefix(xs[1..], ys[1..]);
    }
  }

  /** The first differing part decides, whatever follows it. */
  lemma {:induction false} CompareSegmentsFirstDifference(xs: seq<int>, ys: seq<int>, k: nat)
    requires k < |xs| && k < |ys| && xs[..k] == ys[..k] && xs[k] != ys[k]
    ensures CompareSegments(xs, ys) == (if xs[k] > ys[k] then 1 else -1)
  {
    if k > 0 {
      assert xs[0] == xs[..k][0] && ys[0] == ys[..k][0];
      assert xs[1..][..k - 1] == xs[..k][1..] && ys[1..][..k - 1] == ys[..k][1..];
      CompareSegmentsFirstDifference(xs[1..], ys[1..], k - 1);
    }
  }

  /** A part made only of digits reads as its own value when that fits a Long. */
  lemma DigitRunPart(p: string)
    requires |p| >= 1 && forall i :: 0 <= i < |p| ==> IsDigit(p[i])
    requires DigitsValue(p) <= LONG_MAX
    ensures DigitPart(p) == p && LongOrZero(DigitPart(p)) == DigitsValue(p)
  {
    var d := LeadingDigits(p);
    assert |d| == |p|;
  }

  /** The numbers read off a version built from plain digit runs. */
  lemma SegmentsOfDigitRuns(parts: seq<string>, vals: seq<int>)
    requires |parts| >= 1 && |vals| == |parts|
    requires forall i :: 0 <= i < |parts| ==> |parts[i]| >= 1 && forall j :: 0 <= j < |parts[i]| ==> IsDigit(parts[i][j])
    requires forall i :: 0 <= i < |parts| ==> DigitsValue(parts[i]) == vals[i] <= LONG_MAX
    ensures Segments(Join(parts, '.')) == vals
  {
    forall i | 0 <= i < |parts| ensures '.' !in parts[i] {
      assert forall j :: 0 <= j < |parts[i]| ==> parts[i][j] != '.';
    }
    SplitJoin(parts, '.');
    forall i | 0 <= i < |parts| ensures Segments(Join(parts, '.'))[i] == vals[i] {
      DigitRunPart(parts[i]);
    }
  }

  lemma SmallValues()
    ensures DigitsValue("0") == 0 && DigitsValue("1") == 1 && DigitsValue("2") == 2
    ensures DigitsValue("9") == 9 && DigitsValue("10") == 10
  {
    assert "10"[..1] == "1";
  }

  lemma SegmentsOf1210()
    ensures Segments("1.2.10") == [1, 2, 10]
  {
    SmallValues();
    assert "1.2.10" == Join(["1", "2", "10"], '.');
    SegmentsOfDigitRuns(["1", "2", "10"], [1, 2, 10]);
  }

  lemma SegmentsOf129()
    ensures Segments("1.2.9") == [1, 2, 9]
  {
    SmallValues();
    assert "1.2.9" == Join(["1", "2", "9"], '.');
    SegmentsOfDigitRuns(["1", "2", "9"], [1, 2, 9]);
  }

  /** "1.2.10" is newer than "1.2.9": parts compare as numbers, not as text. */
  lemma CompareNumericParts()
    ensures Compare("1.2.10", "1.2.9") == 1
  {
    SegmentsOf1210();
    SegmentsOf129();
    ThirdPartDecides();
    CompareBySegments("1.2.10", "1.2.9", [1, 2, 10], [1, 2, 9]);
  }

  lemma ThirdPartDecides()
    ensures CompareSegments([1, 2, 10], [1, 2, 9]) == 1
  {
    assert [1, 2, 10][..2] == [1, 2, 9][..2];
    CompareSegmentsFirstDifference([1, 2, 10], [1, 2, 9], 2);
  }

  lemma CompareBySegments(a: string, b: string, xs: seq<int>, ys: seq<int>)
    requires |a| > 0 && |b| > 0 && Segments(a) == xs && Segments(b) == ys
    ensures Compare(a, b) == CompareSegments(xs, ys)
  {
  }

  /** "2.0" is newer than "2": with equal leading parts, more parts win. */
  lemma CompareMorePartsNewer()
    ensures Compare("2.0", "2") == 1
  {
    SmallValues();
    assert "2.0" == Join(["2", "0"], '.');
    SegmentsOfDigitRuns(["2", "0"], [2, 0]);
    assert "2" == Join(["2"], '.');
    SegmentsOfDigitRuns(["2"], [2]);
    CompareSegmentsPrefix([2], [2, 0]);
    CompareSegmentsAntisymmetric([2, 0], [2]);
  }

  /** A part without leading digits reads as 0: "v1.2" is older than "1.2". */
  lemma CompareLeadingLetter()
    ensures Compare("v1.2", "1.2") == -1
  {
    SmallValues();
    assert "v1.2" == Join(["v1", "2"], '.');
    SplitJoin(["v1", "2"], '.');
    assert LeadingDigits("v1") == "";
    DigitRunPart("2");
    assert Segments("v1.2") == [0, 2];
    assert "1.2" == Join(["1", "2"], '.');
    SegmentsOfDigitRuns(["1", "2"], [1, 2]);
  }

  /** A version that is one digit run has that run as its only part. */
  lemma SingleRun(p: string)
    requires |p| >= 1 && forall i :: 0 <= i < |p| ==> IsDigit(p[i])
    ensures DigitParts(p) == [p]
  {
    assert forall j :: 0 <= j < |p| ==> p[j] != '.';
    SplitNoDelimiter(p, '.');
    assert |LeadingDigits(p)| == |p|;
    assert LeadingDigits(p) == p;
    assert DigitPart(p) == p;
    assert |DigitParts(p)| == 1 && DigitParts(p)[0] == p;
  }

  /** A part too large for a 64-bit integer counts as 0: a version such as
      "9223372036854775808" (Long.MAX_VALUE + 1) is older than "1". */
  lemma CompareOverflowingPart(p: string)
    requires |p| >= 1 && forall i :: 0 <= i < |p| ==> IsDigit(p[i])
    requires DigitsValue(p) > LONG_MAX
    ensures Segments(p) == [0]
    ensures Compare(p, "1") == -1
  {
    OverflowingRun(p);
    SegmentsOfOne();
    assert p != "";
    assert Compare(p, "1") == CompareSegments([0], [1]);
  }

  lemma OverflowingRun(p: string)
    requires |p| >= 1 && forall i :: 0 <= i < |p| ==> IsDigit(p[i])
    requires DigitsValue(p) > LONG_MAX
    ensures Segments(p) == [0]
  {
    SingleRunSegments(p);
  }

  lemma SingleRunSegments(p: string)
    requires |p| >= 1 && forall i :: 0 <= i < |p| ==> IsDigit(p[i])
    ensures Segments(p) == [LongOrZero(p)]
  {
    SingleRun(p);
  }

  lemma SegmentsOfOne()
    ensures Segments("1") == [1]
  {
    SmallValues();
    assert "1" == Join(["1"], '.');
    SegmentsOfDigitRuns(["1"], [1]);
  }
}
