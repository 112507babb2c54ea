/** Semantic versions as the evaluator compares them: a (major, minor, patch) triple read from
    "MAJOR.MINOR.PATCH", ordered by precedence as in Semantic Versioning 2.0.0, section 11
    (without pre-release or build identifiers). */
module Versions {
  import opened Wrappers
  import opened Numerals
  import opened Text

  datatype Version = Version(major: nat, minor: nat, patch: nat)

  /** The sentinel that stands in for a version string that does not parse. */
  const Null := Version(0, 0, 0)

  /** Precedence: major, then minor, then patch, each compared numerically. */
  predicate Le(a: Version, b: Version) {
    || a.major < b.major
    || (a.major == b.major && a.minor < b.minor)
    || (a.major == b.major && a.minor == b.minor && a.patch <= b.patch)
  }

  /** The canonical text of a version, "MAJOR.MINOR.PATCH". */
  function Format(v: Version): string {
    Join([ShowNat(v.major), ShowNat(v.minor), ShowNat(v.patch)], '.')
  }

  /** Reads "MAJOR.MINOR.PATCH" with three canonical numerals; anything else is `None`.
      A version that is read is the one whose canonical text is the input. */
  function Parse(s: string): (r: Option<Version>)
    ensures r.Some? ==> Format(r.value) == s
  {
    var f := Split(s, '.');
    if |f| == 3 && ParseNat(f[0]).Some? && ParseNat(f[1]).Some? && ParseNat(f[2]).Some? then
      var v := Version(ParseNat(f[0]).value, ParseNat(f[1]).value, ParseNat(f[2]).value);
      assert [ShowNat(v.major), ShowNat(v.minor), ShowNat(v.patch)] == f;
      Some(v)
    else
      None
  }

  /** Parsing undoes formatting. */
  lemma ParseFormat(v: Version)
    ensures Parse(Format(v)) == Some(v)
  {
    var parts := [ShowNat(v.major), ShowNat(v.minor), ShowNat(v.patch)];
    forall i | 0 <= i < 3
      ensures '.' !in parts[i]
    {
      assert IsCanonical(parts[i]);
    }
    SplitJoin(parts, '.');
    ParseShowNat(v.major);
    ParseShowNat(v.minor);
    ParseShowNat(v.patch);
  }

  /** A string parses to `v` exactly when it is the canonical text of `v`. */
  lemma ParseIffFormat(s: string, v: Version)
    ensures Parse(s) == Some(v) <==> s == Format(v)
  {
    if s == Format(v) {
      ParseFormat(v);
    }
  }

  /** The version a string denotes: the parsed version, or `Null` when the string does not
      parse. Both the app's bundle version and every version gate are read this way. */
  function ParseOrNull(s: string): (v: Version)
    ensures Parse(s).None? ==> v == Null
    ensures Parse(s).Some? ==> Format(v) == s
  {
    Parse(s).GetOr(Null)
  }

  /** `Le` is a total order on versions. */
  lemma LeIsTotalOrder(a: Version, b: Version, c: Version)
    ensures Le(a, a)
    ensures Le(a, b) && Le(b, a) ==> a == b
    ensures Le(a, b) && Le(b, c) ==> Le(a, c)
    ensures Le(a, b) || Le(b, a)
  {
  }

  /** `Null` precedes every version, and only `Null` precedes `Null`. */
  lemma NullIsLeast(v: Version)
    ensures Le(Null, v)
    ensures Le(v, Null) <==> v == Null
  {
  }
}
