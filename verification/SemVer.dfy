/** Versions and their precedence, item 11 of Semantic Versioning 2.0.0. */
module SemVer {
  import opened Ordering

  /** A dot-separated pre-release identifier. */
  datatype Identifier = Numeric(n: nat) | Alphanumeric(s: string)

  datatype Version = Version(major: nat, minor: nat, patch: nat, pre: seq<Identifier>, build: string)

  /** What `semver.NewVersion` makes of a string; None is its error. */
  datatype Parsed = None | Some(version: Version)

  /** Numeric identifiers compare numerically and always precede alphanumeric ones. */
  function CompareIdentifiers(a: Identifier, b: Identifier): int {
    match (a, b)
    case (Numeric(m), Numeric(n)) => m - n
    case (Numeric(_), Alphanumeric(_)) => -1
    case (Alphanumeric(_), Numeric(_)) => 1
    case (Alphanumeric(s), Alphanumeric(t)) => CompareStrings(s, t)
  }

  /** A pre-release precedes its release; two pre-releases compare field by field. */
  function ComparePrereleases(a: seq<Identifier>, b: seq<Identifier>): int {
    if a == [] || b == [] then |b| - |a|
    else Lexicographic(CompareIdentifiers, a, b)
  }

  function Core(v: Version): seq<int> {
    [v.major, v.minor, v.patch]
  }

  /** Precedence; build metadata plays no part. */
  function Compare(v: Version, w: Version): int {
    var core := Lexicographic(CompareInts, Core(v), Core(w));
    if core != 0 then core else ComparePrereleases(v.pre, w.pre)
  }

  predicate GreaterThan(v: Version, w: Version) {
    Compare(v, w) > 0
  }

  lemma CompareIdentifiersIsExactComparison()
    ensures IsComparison(CompareIdentifiers) && IsExact(CompareIdentifiers)
  {
    CompareStringsIsExactComparison();
  }

  lemma ComparePrereleasesTransitive(a: seq<Identifier>, b: seq<Identifier>, c: seq<Identifier>)
    requires ComparePrereleases(a, b) <= 0 && ComparePrereleases(b, c) <= 0
    ensures ComparePrereleases(a, c) <= 0
  {
    CompareIdentifiersIsExactComparison();
    if a != [] && b != [] && c != [] {
      LexicographicTransitive(CompareIdentifiers, a, b, c);
    }
  }

  lemma ComparePrereleasesAntisymmetric(a: seq<Identifier>, b: seq<Identifier>)
    ensures ComparePrereleases(a, b) == -ComparePrereleases(b, a)
  {
    CompareIdentifiersIsExactComparison();
    if a != [] && b != [] {
      LexicographicAntisymmetric(CompareIdentifiers, a, b);
    }
  }

  /** Precedence is a total preorder on versions, pre-release lists of any length included. */
  lemma PrecedenceIsComparison()
    ensures IsComparison(Compare)
  {
    forall v: Version, w: Version ensures Compare(v, w) == -Compare(w, v) {
      LexicographicAntisymmetric(CompareInts, Core(v), Core(w));
      ComparePrereleasesAntisymmetric(v.pre, w.pre);
    }
    forall u: Version, v: Version, w: Version | Compare(u, v) <= 0 && Compare(v, w) <= 0
      ensures Compare(u, w) <= 0
    {
      var a, b, c := Core(u), Core(v), Core(w);
      LexicographicTransitive(CompareInts, a, b, c);
      if Lexicographic(CompareInts, a, c) == 0 {
        LexicographicAntisymmetric(CompareInts, a, c);
        LexicographicTransitive(CompareInts, c, a, b);
        LexicographicAntisymmetric(CompareInts, b, c);
        LexicographicTransitive(CompareInts, b, c, a);
        LexicographicAntisymmetric(CompareInts, a, b);
        ComparePrereleasesTransitive(u.pre, v.pre, w.pre);
      }
    }
  }

  /** Versions of equal precedence differ at most in build metadata. */
  lemma EqualPrecedenceIffEqualButBuild(v: Version, w: Version)
    ensures Compare(v, w) == 0 <==> v == w.(build := v.build)
  {
    var a, b := Core(v), Core(w);
    CompareIdentifiersIsExactComparison();
    if Compare(v, w) == 0 {
      LexicographicExact(CompareInts, a, b);
      assert v.major == a[0] && w.major == b[0] && v.minor == a[1]
        && w.minor == b[1] && v.patch == a[2] && w.patch == b[2];
      if v.pre != [] && w.pre != [] {
        LexicographicExact(CompareIdentifiers, v.pre, w.pre);
      }
    }
    if v == w.(build := v.build) {
      LexicographicAntisymmetric(CompareInts, a, a);
      LexicographicAntisymmetric(CompareIdentifiers, v.pre, v.pre);
    }
  }

  /** Major, minor and patch are compared in this order and numerically. */
  lemma PrecedenceByField(v: Version, w: Version)
    ensures v.major > w.major ==> Compare(v, w) > 0
    ensures v.major == w.major && v.minor > w.minor ==> Compare(v, w) > 0
    ensures v.major == w.major && v.minor == w.minor && v.patch > w.patch ==> Compare(v, w) > 0
  {
    var a, b := Core(v), Core(w);
    var cmp := CompareInts;
    assert forall x, y :: cmp(x, y) == CompareInts(x, y);
    if v.major != w.major {
      FirstDifferenceDecides(cmp, a, b, 0);
    } else if v.minor != w.minor {
      assert a[..1] == b[..1];
      FirstDifferenceDecides(cmp, a, b, 1);
    } else if v.patch != w.patch {
      assert a[..2] == b[..2];
      FirstDifferenceDecides(cmp, a, b, 2);
    }
  }

  predicate SameCore(v: Version, w: Version) {
    v.major == w.major && v.minor == w.minor && v.patch == w.patch
  }

  /**
   * With equal major, minor and patch: a release is above its pre-releases, of two pre-releases the first
   * differing identifier decides, and one that the other merely extends is below it.
   */
  lemma PrecedenceOfPrereleases(v: Version, w: Version, i: nat)
    requires SameCore(v, w)
    ensures v.pre == [] && w.pre != [] ==> Compare(v, w) > 0
    ensures v.pre != [] && v.pre < w.pre ==> Compare(v, w) < 0
    ensures i < |v.pre| && i < |w.pre| && v.pre[..i] == w.pre[..i] && v.pre[i] != w.pre[i] ==>
      Compare(v, w) == CompareIdentifiers(v.pre[i], w.pre[i]) != 0
  {
    LexicographicAntisymmetric(CompareInts, Core(v), Core(w));
    assert Core(v) == Core(w);
    CompareIdentifiersIsExactComparison();
    var cmp := CompareIdentifiers;
    assert forall x, y :: cmp(x, y) == CompareIdentifiers(x, y);
    if v.pre != [] && v.pre < w.pre { PrefixComesFirst(cmp, v.pre, w.pre); }
    if i < |v.pre| && i < |w.pre| && v.pre[..i] == w.pre[..i] && v.pre[i] != w.pre[i] {
      FirstDifferenceDecides(cmp, v.pre, w.pre, i);
    }
  }

  /**
   * Numeric identifiers order by value and precede alphanumeric ones, which order by their first
   * differing byte, an identifier coming before its extensions.
   */
  lemma IdentifiersInOrder(m: nat, n: nat, s: string, t: string, i: nat)
    ensures m < n ==> CompareIdentifiers(Numeric(m), Numeric(n)) < 0 < CompareIdentifiers(Numeric(n), Numeric(m))
    ensures CompareIdentifiers(Numeric(m), Alphanumeric(s)) < 0 < CompareIdentifiers(Alphanumeric(s), Numeric(m))
    ensures s < t ==> CompareIdentifiers(Alphanumeric(s), Alphanumeric(t)) < 0
    ensures i < |s| && i < |t| && s[..i] == t[..i] && s[i] < t[i] ==>
      CompareIdentifiers(Alphanumeric(s), Alphanumeric(t)) < 0
  {
    StringsCompareByBytes(s, t, i);
  }
}
