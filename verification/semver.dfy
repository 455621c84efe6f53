/** Semantic versions as the doctor check reads them: the leading "v" that
    Go's tooling writes, then a major, minor and patch number, where a
    missing minor or patch counts as 0 ("v1.19" is "v1.19.0", "v16" is
    "v16.0.0"). Precedence follows section 11 of Semantic Versioning 2.0.0 on
    the numeric triple. Strings that are not of this form are invalid; as in
    Go's golang.org/x/mod/semver, an invalid version sorts below every valid
    one, two invalid versions compare equal, and `Major`/`MajorMinor` of an
    invalid version is the empty string. Pre-release and build suffixes
    (sections 9 and 10) are not accepted. */
module Semver {
  import opened Wrappers
  import opened Text
  import opened Numerals

  datatype Version = Version(major: nat, minor: nat, patch: nat)

  /** The three ways of writing a version: "vM", "vM.m" and "vM.m.p". */
  function MajorText(major: nat): string
  {
    "v" + Render(major)
  }

  function MajorMinorText(x: Version): string
  {
    MajorText(x.major) + "." + Render(x.minor)
  }

  function FullText(x: Version): string
  {
    MajorMinorText(x) + "." + Render(x.patch)
  }

  /** `v` spells the version `x`, possibly leaving out a zero patch, or a zero
      minor and patch. */
  predicate Spells(v: string, x: Version)
  {
    || v == FullText(x)
    || (x.patch == 0 && v == MajorMinorText(x))
    || (x.minor == 0 && x.patch == 0 && v == MajorText(x.major))
  }

  predicate AllNumerals(parts: seq<string>)
  {
    forall k :: 0 <= k < |parts| ==> IsNumeral(parts[k])
  }

  /** Reads "v" followed by one to three dot-separated canonical numerals. */
  function ParseSemver(v: string): (r: Option<Version>)
    ensures r.Some? ==> |v| >= 2 && v[0] == 'v' && IsDigit(v[1])
  {
    if |v| == 0 || v[0] != 'v' then None
    else
      var parts := Split(v[1..], '.');
      if |parts| > 3 || !AllNumerals(parts) then None
      else
        assert v[1..] == Join(parts, '.') by {
          JoinSplit(v[1..], '.');
        }
        assert v[1] == parts[0][0];
        Some(VersionOf(parts))
  }

  /** The version one to three numerals denote, missing ones being 0. */
  function VersionOf(parts: seq<string>): Version
    requires 1 <= |parts| <= 3 && AllNumerals(parts)
  {
    Version(Value(parts[0]),
            if |parts| > 1 then Value(parts[1]) else 0,
            if |parts| > 2 then Value(parts[2]) else 0)
  }

  lemma NumeralHasNoDot(n: nat)
    ensures '.' !in Render(n)
  {
  }

  /** Version texts contain neither spaces nor anything else but "v", digits
      and dots, and they neither start nor end with white space. */
  lemma FullTextShape(x: Version)
    ensures ' ' !in FullText(x)[1..] && IsTrimmed(FullText(x)) && FullText(x)[0] == 'v'
  {
    var t := FullText(x);
    var a, b, c := Render(x.major), Render(x.minor), Render(x.patch);
    assert t[1..] == a + "." + b + "." + c;
    assert t[|t| - 1] == c[|c| - 1];
  }

  lemma MajorTextShape(n: nat)
    ensures IsTrimmed(MajorText(n)) && MajorText(n)[0] == 'v'
  {
    var r := Render(n);
    assert MajorText(n)[|MajorText(n)| - 1] == r[|r| - 1];
  }

  /** Every spelling of a version parses back to that version. */
  lemma ParseSemverComplete(v: string, x: Version)
    requires Spells(v, x)
    ensures ParseSemver(v) == Some(x)
  {
    var a, b, c := Render(x.major), Render(x.minor), Render(x.patch);
    if v == FullText(x) {
      assert v == "v" + Join([a, b, c], '.') by {
        JoinThree(a, b, c, '.');
      }
      assert VersionOf([a, b, c]) == x by {
        ValueRender(x.major);
        ValueRender(x.minor);
        ValueRender(x.patch);
      }
      ParseJoined([a, b, c]);
    } else if x.patch == 0 && v == MajorMinorText(x) {
      assert v == "v" + Join([a, b], '.') by {
        JoinTwo(a, b, '.');
      }
      assert VersionOf([a, b]) == x by {
        ValueRender(x.major);
        ValueRender(x.minor);
      }
      ParseJoined([a, b]);
    } else {
      assert v == "v" + Join([a], '.');
      assert VersionOf([a]) == x by {
        ValueRender(x.major);
      }
      ParseJoined([a]);
    }
  }

  /** "v" and one to three numerals joined by dots parse to the version
      they denote. */
  lemma ParseJoined(parts: seq<string>)
    requires 1 <= |parts| <= 3 && AllNumerals(parts)
    ensures ParseSemver("v" + Join(parts, '.')) == Some(VersionOf(parts))
  {
    var v := "v" + Join(parts, '.');
    forall k | 0 <= k < |parts|
      ensures '.' !in parts[k]
    {
      NumeralHasNoDot(Value(parts[k]));
      RenderValue(parts[k]);
    }
    SplitJoin(parts, '.');
    assert v[1..] == Join(parts, '.');
  }

  /** Only spellings of a version parse: whatever `ParseSemver` accepts is
      "v" and one to three canonical numerals, and nothing else. */
  lemma ParseSemverSound(v: string)
    requires ParseSemver(v).Some?
    ensures Spells(v, ParseSemver(v).value)
  {
    var parts := Split(v[1..], '.');
    JoinSplit(v[1..], '.');
    assert v == "v" + Join(parts, '.') by {
      assert v == [v[0]] + v[1..];
    }
    JoinSpellsVersionOf(parts);
  }

  /** "v" and the numerals joined with dots spell the version they denote. */
  lemma JoinSpellsVersionOf(parts: seq<string>)
    requires 1 <= |parts| <= 3 && AllNumerals(parts)
    ensures Spells("v" + Join(parts, '.'), VersionOf(parts))
  {
    if |parts| == 1 {
      SpellsMajor(parts);
    } else if |parts| == 2 {
      SpellsMajorMinor(parts);
    } else {
      SpellsFull(parts);
    }
  }

  lemma SpellsMajor(parts: seq<string>)
    requires |parts| == 1 && AllNumerals(parts)
    ensures "v" + Join(parts, '.') == MajorText(VersionOf(parts).major)
  {
    RenderValue(parts[0]);
  }

  lemma SpellsMajorMinor(parts: seq<string>)
    requires |parts| == 2 && AllNumerals(parts)
    ensures "v" + Join(parts, '.') == MajorMinorText(VersionOf(parts))
  {
    var x := VersionOf(parts);
    var a, b := parts[0], parts[1];
    assert Join(parts, '.') == a + "." + b by {
      assert parts == [a, b];
      JoinTwo(a, b, '.');
    }
    assert Render(x.major) == a by {
      RenderValue(a);
    }
    assert Render(x.minor) == b by {
      RenderValue(b);
    }
  }

  lemma SpellsFull(parts: seq<string>)
    requires |parts| == 3 && AllNumerals(parts)
    ensures "v" + Join(parts, '.') == FullText(VersionOf(parts))
  {
    var x := VersionOf(parts);
    var a, b, c := parts[0], parts[1], parts[2];
    var ab := parts[..2];
    assert Join(parts, '.') == Join(ab, '.') + "." + c by {
      assert parts == [a, b, c] && ab == [a, b];
      JoinThree(a, b, c, '.');
      JoinTwo(a, b, '.');
    }
    assert "v" + Join(ab, '.') == MajorMinorText(x) by {
      SpellsMajorMinor(ab);
      assert VersionOf(ab).major == x.major && VersionOf(ab).minor == x.minor;
    }
    assert Render(x.patch) == c by {
      RenderValue(c);
    }
  }

  lemma ParseSemverIff(v: string, x: Version)
    ensures ParseSemver(v) == Some(x) <==> Spells(v, x)
  {
    if ParseSemver(v) == Some(x) {
      ParseSemverSound(v);
    }
    if Spells(v, x) {
      ParseSemverComplete(v, x);
    }
  }

  /** Lexicographic order on (major, minor, patch): section 11 of Semantic
      Versioning 2.0.0 for versions without pre-release. */
  predicate Less(x: Version, y: Version)
  {
    || x.major < y.major
    || (x.major == y.major && x.minor < y.minor)
    || (x.major == y.major && x.minor == y.minor && x.patch < y.patch)
  }

  /** The order `Compare` realises on parse results: invalid before valid. */
  predicate Precedes(a: Option<Version>, b: Option<Version>)
  {
    || (a.None? && b.Some?)
    || (a.Some? && b.Some? && Less(a.value, b.value))
  }

  function CompareNat(a: nat, b: nat): int
  {
    if a < b then -1 else if a > b then 1 else 0
  }

  /** `semver.Compare`: -1, 0 or +1 as `a` is below, equal to or above `b`.
      Equal means equal after parsing, so "v1.19" and "v1.19.0" tie, and so
      do any two invalid strings. */
  function Compare(a: string, b: string): (r: int)
    ensures -1 <= r <= 1
    ensures r == 0 <==> ParseSemver(a) == ParseSemver(b)
    ensures r < 0 <==> Precedes(ParseSemver(a), ParseSemver(b))
    ensures r > 0 <==> Precedes(ParseSemver(b), ParseSemver(a))
  {
    match (ParseSemver(a), ParseSemver(b))
    case (None, None) => 0
    case (None, Some(_)) => -1
    case (Some(_), None) => 1
    case (Some(x), Some(y)) =>
      var c := CompareNat(x.major, y.major);
      if c != 0 then c
      else
        var c' := CompareNat(x.minor, y.minor);
        if c' != 0 then c' else CompareNat(x.patch, y.patch)
  }

  /** `Compare` is a total preorder: reflexive, antisymmetric in sign and
      transitive. */
  lemma CompareReflexive(a: string)
    ensures Compare(a, a) == 0
  {
  }

  lemma CompareAntisymmetric(a: string, b: string)
    ensures Compare(a, b) == -Compare(b, a)
  {
  }

  lemma CompareTransitive(a: string, b: string, c: string)
    requires Compare(a, b) <= 0 && Compare(b, c) <= 0
    ensures Compare(a, c) <= 0
  {
  }

  /** Numbers are compared as numbers, not as text: "v1.10.0" is above
      "v1.9.0" although "1" sorts before "9". */
  lemma CompareIsNumeric()
    ensures Compare("v1.10.0", "v1.9.0") == 1
  {
    ParseSemverComplete("v1.10.0", Version(1, 10, 0));
    ParseSemverComplete("v1.9.0", Version(1, 9, 0));
  }

  /** Between versions with the same major and minor, `Compare` is the
      comparison of the patch numbers. */
  lemma CompareSameMajorMinor(a: string, b: string)
    requires ParseSemver(a).Some? && ParseSemver(b).Some?
    requires ParseSemver(a).value.major == ParseSemver(b).value.major
    requires ParseSemver(a).value.minor == ParseSemver(b).value.minor
    ensures Compare(a, b) == CompareNat(ParseSemver(a).value.patch, ParseSemver(b).value.patch)
  {
  }

  /** `semver.Major`: the leading "vM" of a valid version, "" for an invalid one. */
  function Major(v: string): (r: string)
    ensures r == "" <==> ParseSemver(v).None?
    ensures r != "" ==> HasPrefix(v, r)
  {
    match ParseSemver(v)
    case None => ""
    case Some(x) =>
      ParseSemverSound(v);
      MajorText(x.major)
  }

  /** `semver.MajorMinor`: the leading "vM.m" of a valid version, with ".0"
      added when the minor number is left out; "" for an invalid one. */
  function MajorMinor(v: string): (r: string)
    ensures r == "" <==> ParseSemver(v).None?
    ensures r != "" ==> HasPrefix(v, r) || r == v + ".0"
  {
    match ParseSemver(v)
    case None => ""
    case Some(x) =>
      ParseSemverSound(v);
      MajorMinorText(x)
  }

  /** Same major number, where two invalid versions count as the same (their
      `Major` is "" on both sides). */
  predicate SameMajor(a: Option<Version>, b: Option<Version>)
  {
    || (a.None? && b.None?)
    || (a.Some? && b.Some? && a.value.major == b.value.major)
  }

  /** Same major and minor number, two invalid versions counting as the same. */
  predicate SameMajorMinor(a: Option<Version>, b: Option<Version>)
  {
    || (a.None? && b.None?)
    || (a.Some? && b.Some? && a.value.major == b.value.major && a.value.minor == b.value.minor)
  }

  /** Comparing `Major` strings is comparing major numbers: the numeral is
      canonical, so equal text means an equal number and the other way round. */
  lemma MajorEqualIff(a: string, b: string)
    ensures Major(a) == Major(b) <==> SameMajor(ParseSemver(a), ParseSemver(b))
  {
    if ParseSemver(a).Some? && ParseSemver(b).Some? && Major(a) == Major(b) {
      var x, y := ParseSemver(a).value, ParseSemver(b).value;
      assert MajorText(x.major)[1..] == Render(x.major);
      assert MajorText(y.major)[1..] == Render(y.major);
      RenderInjective(x.major, y.major);
    }
  }

  /** Comparing `MajorMinor` strings is comparing the (major, minor) pairs. */
  lemma MajorMinorEqualIff(a: string, b: string)
    ensures MajorMinor(a) == MajorMinor(b) <==> SameMajorMinor(ParseSemver(a), ParseSemver(b))
  {
    if ParseSemver(a).Some? && ParseSemver(b).Some? && MajorMinor(a) == MajorMinor(b) {
      var x, y := ParseSemver(a).value, ParseSemver(b).value;
      MajorMinorTextInjective(x, y);
    }
  }

  lemma MajorMinorTextInjective(x: Version, y: Version)
    requires MajorMinorText(x) == MajorMinorText(y)
    ensures x.major == y.major && x.minor == y.minor
  {
    SplitMajorMinor(x);
    SplitMajorMinor(y);
    assert [Render(x.major), Render(x.minor)] == [Render(y.major), Render(y.minor)];
    RenderInjective(x.major, y.major);
    RenderInjective(x.minor, y.minor);
  }

  /** After the "v", the text "vM.m" splits at its dot into the two numerals. */
  lemma SplitMajorMinor(x: Version)
    ensures Split(MajorMinorText(x)[1..], '.') == [Render(x.major), Render(x.minor)]
  {
    var a, b := Render(x.major), Render(x.minor);
    NumeralHasNoDot(x.major);
    NumeralHasNoDot(x.minor);
    assert MajorMinorText(x)[1..] == a + "." + b;
    JoinTwo(a, b, '.');
    SplitJoin([a, b], '.');
  }

  /** Equal major and minor implies equal major. */
  lemma SameMajorMinorImpliesSameMajor(a: Option<Version>, b: Option<Version>)
    requires SameMajorMinor(a, b)
    ensures SameMajor(a, b)
  {
  }
}
