/**
  Semantic versions of connector releases: `major.minor.patch`, ordered lexicographically.

  This stands in for the platform's `Version` class, whose source is not part of this model:
  a tag parses when it is exactly three decimal numerals separated by dots; any other tag is
  rejected, as the constructor rejects an invalid version string.
 */
module Versions {
  import opened Wrappers

  datatype Version = Version(major: nat, minor: nat, patch: nat)

  /** `a.lessThan(b)`: lexicographic order on (major, minor, patch). */
  predicate LessThan(a: Version, b: Version)
  {
    || a.major < b.major
    || (a.major == b.major && a.minor < b.minor)
    || (a.major == b.major && a.minor == b.minor && a.patch < b.patch)
  }

  /** `a.lessThanOrEqualTo(b)`; the order is total, so this is "b is not below a". */
  function LessThanOrEqualTo(a: Version, b: Version): (r: bool)
    ensures r <==> !LessThan(b, a)
  {
    a == b || LessThan(a, b)
  }

  /** `a.greaterThanOrEqualTo(b)`. */
  function GreaterThanOrEqualTo(a: Version, b: Version): (r: bool)
    ensures r <==> !LessThan(a, b)
  {
    LessThanOrEqualTo(b, a)
  }

  /** LessThan is a strict total order, which is what the upgrade decision relies on. */
  lemma LessThanIsStrictTotalOrder(a: Version, b: Version, c: Version)
    ensures !LessThan(a, a)
    ensures LessThan(a, b) && LessThan(b, c) ==> LessThan(a, c)
    ensures a == b || LessThan(a, b) || LessThan(b, a)
  {
  }

  // ---------------------------------------------------------------- decimal numerals

  predicate IsDigit(c: char)
  {
    '0' <= c <= '9'
  }

  predicate IsNumeral(s: string)
  {
    |s| > 0 && forall i | 0 <= i < |s| :: IsDigit(s[i])
  }

  function DigitChar(d: nat): (c: char)
    requires d < 10
    ensures IsDigit(c) && DigitValue(c) == d
  {
    ('0' as int + d) as char
  }

  function DigitValue(c: char): (d: nat)
    requires IsDigit(c)
    ensures d < 10
  {
    c as int - '0' as int
  }

  /** The value of a string of decimal digits, most significant first. */
  function NumeralValue(s: string): nat
    requires forall i | 0 <= i < |s| :: IsDigit(s[i])
    decreases |s|
  {
    if |s| == 0 then 0
    else 10 * NumeralValue(s[..|s| - 1]) + DigitValue(s[|s| - 1])
  }

  /** The shortest decimal numeral of n. */
  function Format(n: nat): (s: string)
    ensures IsNumeral(s)
    decreases n
  {
    if n < 10 then [DigitChar(n)] else Format(n / 10) + [DigitChar(n % 10)]
  }

  lemma {:induction false} FormatRoundTrip(n: nat)
    ensures NumeralValue(Format(n)) == n
    decreases n
  {
    if n >= 10 {
      var s := Format(n);
      assert s[..|s| - 1] == Format(n / 10);
      FormatRoundTrip(n / 10);
    }
  }

  // ---------------------------------------------------------------- parse and serialize

  /** The first position of c in s, if any. */
  function IndexOf(s: string, c: char): (r: Option<nat>)
    ensures r.Some? ==> r.value < |s| && s[r.value] == c && forall k | 0 <= k < r.value :: s[k] != c
    ensures r.None? ==> forall k | 0 <= k < |s| :: s[k] != c
  {
    if |s| == 0 then None
    else if s[0] == c then Some(0)
    else match IndexOf(s[1..], c)
      case None => None
      case Some(k) => Some(k + 1)
  }

  /** `new Version(tag)`: None where the constructor would reject the tag. */
  function Parse(tag: string): Option<Version>
  {
    match IndexOf(tag, '.')
    case None => None
    case Some(i) =>
      var rest := tag[i + 1..];
      match IndexOf(rest, '.')
      case None => None
      case Some(j) =>
        var major, minor, patch := tag[..i], rest[..j], rest[j + 1..];
        if IsNumeral(major) && IsNumeral(minor) && IsNumeral(patch)
        then Some(Version(NumeralValue(major), NumeralValue(minor), NumeralValue(patch)))
        else None
  }

  /** `version.serialize()`: the canonical tag of a version. */
  function Serialize(v: Version): string
  {
    Format(v.major) + "." + Format(v.minor) + "." + Format(v.patch)
  }

  lemma FirstDotAfterNumeral(a: string, x: string)
    requires IsNumeral(a)
    ensures IndexOf(a + "." + x, '.') == Some(|a|)
  {
    var s := a + "." + x;
    assert s[|a|] == '.';
    assert forall k | 0 <= k < |a| :: s[k] == a[k];
  }

  /** A tag without a dot is never a version. */
  lemma DotlessTagIsInvalid(tag: string)
    requires forall k | 0 <= k < |tag| :: tag[k] != '.'
    ensures Parse(tag).None?
  {
  }

  /** Parsing a serialized version gives the version back. */
  lemma {:induction false} ParseSerialize(v: Version)
    ensures Parse(Serialize(v)) == Some(v)
  {
    var a, b, c := Format(v.major), Format(v.minor), Format(v.patch);
    var s := Serialize(v);
    var bc := b + "." + c;
    assert s == a + "." + bc;
    FirstDotAfterNumeral(a, bc);
    assert s[..|a|] == a;
    assert s[|a| + 1..] == bc;
    FirstDotAfterNumeral(b, c);
    assert bc[..|b|] == b;
    assert bc[|b| + 1..] == c;
    FormatRoundTrip(v.major);
    FormatRoundTrip(v.minor);
    FormatRoundTrip(v.patch);
  }

  /** Distinct versions serialize to distinct tags. */
  lemma {:induction false} SerializeInjective(v: Version, w: Version)
    ensures Serialize(v) == Serialize(w) <==> v == w
  {
    ParseSerialize(v);
    ParseSerialize(w);
  }
}
