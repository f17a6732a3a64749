/**
 * The part of semantic versioning the registry client relies on: reading a
 * `MAJOR.MINOR.PATCH` string and comparing the triples (semver.satisfies with a
 * `>base` range, and semver.gt).
 */
module Semver {
  import opened Common

  datatype Version = Version(major: nat, minor: nat, patch: nat)

  /** Precedence of release versions: lexicographic on the three numbers. */
  predicate Greater(a: Version, b: Version) {
    || a.major > b.major
    || (a.major == b.major && a.minor > b.minor)
    || (a.major == b.major && a.minor == b.minor && a.patch > b.patch)
  }

  predicate AtLeast(a: Version, b: Version) {
    !Greater(b, a)
  }

  lemma GreaterIsStrictTotalOrder(a: Version, b: Version, c: Version)
    ensures !Greater(a, a)
    ensures Greater(a, b) ==> !Greater(b, a)
    ensures Greater(a, b) && Greater(b, c) ==> Greater(a, c)
    ensures a != b ==> Greater(a, b) || Greater(b, a)
  {
  }

  // ----- Reading decimal numbers -----

  predicate IsDigit(c: char) {
    '0' <= c <= '9'
  }

  predicate AllDigits(s: string) {
    forall i :: 0 <= i < |s| ==> IsDigit(s[i])
  }

  /** A numeric identifier: decimal digits with no leading zero (except "0" itself). */
  predicate IsNumericIdentifier(s: string) {
    |s| > 0 && AllDigits(s) && (s[0] == '0' ==> |s| == 1)
  }

  function DigitValue(c: char): (d: nat)
    requires IsDigit(c)
    ensures d < 10
  {
    (c as int - '0' as int) as nat
  }

  function DigitChar(d: nat): (c: char)
    requires d < 10
    ensures IsDigit(c) && DigitValue(c) == d
  {
    ('0' as int + d) as char
  }

  /** The value of a string of decimal digits. */
  function NatOf(s: string): nat
    requires AllDigits(s)
  {
    if s == [] then 0 else NatOf(s[..|s| - 1]) * 10 + DigitValue(s[|s| - 1])
  }

  /** The decimal spelling of a number. */
  function Decimal(n: nat): (s: string)
    ensures IsNumericIdentifier(s)
  {
    if n < 10 then [DigitChar(n)]
    else
      var s := Decimal(n / 10) + [DigitChar(n % 10)];
      assert s[0] == Decimal(n / 10)[0];
      assert forall i :: 0 <= i < |Decimal(n / 10)| ==> s[i] == Decimal(n / 10)[i];
      s
  }

  /** A digit string that does not start with '0' has a positive value. */
  lemma {:induction false} NatOfPositive(s: string)
    requires |s| > 0 && AllDigits(s) && s[0] != '0'
    ensures NatOf(s) >= 1
  {
    if |s| > 1 {
      NatOfPositive(s[..|s| - 1]);
    }
  }

  /** Printing the value of a numeric identifier gives back the identifier. */
  lemma {:induction false} DecimalNatOf(s: string)
    requires IsNumericIdentifier(s)
    ensures Decimal(NatOf(s)) == s
  {
    var q := s[..|s| - 1];
    if |s| == 1 {
      assert s == [s[0]];
    } else {
      NatOfPositive(q);
      DecimalNatOf(q);
      assert s == q + [s[|s| - 1]];
    }
  }

  lemma {:induction false} NatOfDecimal(n: nat)
    ensures NatOf(Decimal(n)) == n
  {
    if n >= 10 {
      var s := Decimal(n);
      assert s[..|s| - 1] == Decimal(n / 10);
      NatOfDecimal(n / 10);
    }
  }

  // ----- Splitting on a delimiter -----

  /** The pieces of `s` between occurrences of `d` (as String.prototype.split does). */
  function Split(s: string, d: char): (r: seq<string>)
    ensures |r| >= 1
  {
    if s == [] then [""]
    else
      var rest := Split(s[1..], d);
      if s[0] == d then [""] + rest else [[s[0]] + rest[0]] + rest[1..]
  }

  lemma {:induction false} SplitNoDelimiter(s: string, d: char)
    requires d !in s
    ensures Split(s, d) == [s]
  {
    if s != [] {
      assert d !in s[1..] by {
        forall i | 0 <= i < |s[1..]| ensures s[1..][i] != d {
          assert s[1..][i] == s[i + 1];
        }
      }
      SplitNoDelimiter(s[1..], d);
      assert [s[0]] + s[1..] == s;
    }
  }

  lemma {:induction false} SplitAtDelimiter(a: string, b: string, d: char)
    requires d !in a
    ensures Split(a + [d] + b, d) == [a] + Split(b, d)
  {
    if a == [] {
      assert a + [d] + b == [d] + b;
      assert ([d] + b)[1..] == b;
    } else {
      var s := a + [d] + b;
      assert s[0] == a[0];
      assert s[1..] == a[1..] + [d] + b;
      assert d !in a[1..] by {
        forall i | 0 <= i < |a[1..]| ensures a[1..][i] != d {
          assert a[1..][i] == a[i + 1];
        }
      }
      SplitAtDelimiter(a[1..], b, d);
      assert [a[0]] + a[1..] == a;
    }
  }

  /** The pieces joined back together, with `d` between consecutive ones. */
  function JoinWith(ps: seq<string>, d: char): string
    requires |ps| >= 1
  {
    if |ps| == 1 then ps[0] else ps[0] + [d] + JoinWith(ps[1..], d)
  }

  /** Splitting and joining on the same delimiter are inverse. */
  lemma {:induction false} JoinSplit(s: string, d: char)
    ensures JoinWith(Split(s, d), d) == s
  {
    if s != [] {
      var rest := Split(s[1..], d);
      JoinSplit(s[1..], d);
      if s[0] == d {
        assert Split(s, d)[1..] == rest;
      } else {
        var ps := [[s[0]] + rest[0]] + rest[1..];
        if |rest| > 1 {
          assert ps[1..] == rest[1..];
        }
      }
    }
  }

  // ----- Parsing and printing versions -----

  /**
   * The three numbers of `MAJOR.MINOR.PATCH`, or None when `s` is not of that form. Only
   * the canonical spelling is accepted.
   */
  function ParseCore(s: string): (r: Option<Version>)
    ensures r.Some? ==> Show(r.value) == s
  {
    var parts := Split(s, '.');
    if |parts| == 3 && IsNumericIdentifier(parts[0]) && IsNumericIdentifier(parts[1])
       && IsNumericIdentifier(parts[2])
    then
      JoinSplit(s, '.');
      DecimalNatOf(parts[0]);
      DecimalNatOf(parts[1]);
      DecimalNatOf(parts[2]);
      assert parts[1..][1..] == [parts[2]];
      assert JoinWith(parts[1..], '.') == parts[1] + ['.'] + parts[2];
      assert s == parts[0] + ['.'] + (parts[1] + ['.'] + parts[2]);
      Some(Version(NatOf(parts[0]), NatOf(parts[1]), NatOf(parts[2])))
    else None
  }

  /**
   * A release version string as node-semver reads it: an optional leading 'v' and
   * MAJOR.MINOR.PATCH. Anything else (prerelease tags included) is not a version here.
   */
  function Parse(s: string): (r: Option<Version>)
    ensures r.Some? ==> Show(r.value) == (if |s| > 0 && s[0] == 'v' then s[1..] else s)
  {
    if |s| > 0 && s[0] == 'v' then ParseCore(s[1..]) else ParseCore(s)
  }

  /** The canonical spelling of a version. */
  function Show(v: Version): string {
    Decimal(v.major) + "." + Decimal(v.minor) + "." + Decimal(v.patch)
  }

  lemma NoDotInNumeric(s: string)
    requires IsNumericIdentifier(s)
    ensures '.' !in s
  {
  }

  /** Reading back a printed version gives the version. */
  lemma ParseShow(v: Version)
    ensures Parse(Show(v)) == Some(v)
  {
    var a, b, c := Decimal(v.major), Decimal(v.minor), Decimal(v.patch);
    NoDotInNumeric(a);
    NoDotInNumeric(b);
    NoDotInNumeric(c);
    assert Show(v) == a + ['.'] + (b + ['.'] + c);
    SplitAtDelimiter(a, b + ['.'] + c, '.');
    SplitAtDelimiter(b, c, '.');
    SplitNoDelimiter(c, '.');
    assert Split(Show(v), '.') == [a, b, c];
    NatOfDecimal(v.major);
    NatOfDecimal(v.minor);
    NatOfDecimal(v.patch);
    assert Show(v)[0] == a[0];
  }

  /** No string that parses contains an '@' (it is made of 'v', digits and dots). */
  lemma ParsedHasNoAt(s: string)
    requires Parse(s).Some?
    ensures '@' !in s
  {
    var v := Parse(s).value;
    var a, b, c := Decimal(v.major), Decimal(v.minor), Decimal(v.patch);
    assert '@' !in a && '@' !in b && '@' !in c by {
      assert !IsDigit('@');
    }
    assert '@' !in Show(v);
    if |s| > 0 && s[0] == 'v' {
      assert s == [s[0]] + s[1..];
    }
  }

  /** semver.satisfies(v, ">" + base): both must be versions and v must be the greater. */
  predicate Newer(v: string, base: string)
    ensures Newer(v, base) ==> Parse(v).Some? && Parse(base).Some?
    ensures Parse(v).Some? && Parse(base).Some? ==> (Newer(v, base) <==> !RanksAtLeast(base, v))
  {
    Parse(v).Some? && Parse(base).Some? && Greater(Parse(v).value, Parse(base).value)
  }

  /**
   * Ordering of version strings used by the newest-first sort: a string that is not a
   * version ranks below every version (only versions ever reach the sort).
   */
  predicate RanksAtLeast(a: string, b: string)
    ensures Parse(a).Some? && Parse(b).Some? ==>
              (RanksAtLeast(a, b) <==> !Greater(Parse(b).value, Parse(a).value))
    ensures Parse(a).Some? && Parse(b).None? ==> RanksAtLeast(a, b)
    ensures Parse(a).None? && Parse(b).Some? ==> !RanksAtLeast(a, b)
  {
    Parse(b).None? || (Parse(a).Some? && AtLeast(Parse(a).value, Parse(b).value))
  }

  lemma RanksAtLeastIsTotalPreorder(a: string, b: string, c: string)
    ensures RanksAtLeast(a, a)
    ensures RanksAtLeast(a, b) || RanksAtLeast(b, a)
    ensures RanksAtLeast(a, b) && RanksAtLeast(b, c) ==> RanksAtLeast(a, c)
  {
  }
}
