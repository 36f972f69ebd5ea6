/** Three-way comparisons and their lexicographic lifting to sequences. */
module Ordering {

  /** cmp is a total preorder given as a three-way comparison: negative, zero, positive. */
  ghost predicate IsComparison<T(!new)>(cmp: (T, T) -> int) {
    && (forall x, y :: cmp(x, y) == -cmp(y, x))
    && (forall x, y, z :: cmp(x, y) <= 0 && cmp(y, z) <= 0 ==> cmp(x, z) <= 0)
  }

  /** Only equal values compare as equal. */
  ghost predicate IsExact<T(!new)>(cmp: (T, T) -> int) {
    forall x, y :: cmp(x, y) == 0 ==> x == y
  }

  /** The first differing position decides; a proper prefix comes first. */
  function Lexicographic<T>(cmp: (T, T) -> int, a: seq<T>, b: seq<T>): int {
    if a == [] || b == [] then |a| - |b|
    else if cmp(a[0], b[0]) != 0 then cmp(a[0], b[0])
    else Lexicographic(cmp, a[1..], b[1..])
  }

  lemma {:induction false} LexicographicAntisymmetric<T(!new)>(cmp: (T, T) -> int, a: seq<T>, b: seq<T>)
    requires IsComparison(cmp)
    ensures Lexicographic(cmp, a, b) == -Lexicographic(cmp, b, a)
  {
    if a != [] && b != [] {
      LexicographicAntisymmetric(cmp, a[1..], b[1..]);
    }
  }

  lemma {:induction false} LexicographicTransitive<T(!new)>(cmp: (T, T) -> int, a: seq<T>, b: seq<T>, c: seq<T>)
    requires IsComparison(cmp)
    requires Lexicographic(cmp, a, b) <= 0 && Lexicographic(cmp, b, c) <= 0
    ensures Lexicographic(cmp, a, c) <= 0
  {
    if a != [] && b != [] && c != [] {
      assert cmp(a[0], c[0]) <= 0;
      if cmp(a[0], c[0]) == 0 {
        assert cmp(c[0], a[0]) <= 0 && cmp(c[0], b[0]) <= 0 && cmp(b[0], a[0]) <= 0;
        LexicographicTransitive(cmp, a[1..], b[1..], c[1..]);
      }
    }
  }

  lemma {:induction false} LexicographicExact<T(!new)>(cmp: (T, T) -> int, a: seq<T>, b: seq<T>)
    requires IsExact(cmp)
    requires Lexicographic(cmp, a, b) == 0
    ensures a == b
  {
    if a != [] && b != [] {
      LexicographicExact(cmp, a[1..], b[1..]);
      assert a == [a[0]] + a[1..] && b == [b[0]] + b[1..];
    }
  }

  /** The first position at which two sequences differ decides, whatever follows. */
  lemma {:induction false} FirstDifferenceDecides<T(!new)>(cmp: (T, T) -> int, a: seq<T>, b: seq<T>, i: nat)
    requires IsComparison(cmp) && i < |a| && i < |b| && a[..i] == b[..i] && cmp(a[i], b[i]) != 0
    ensures Lexicographic(cmp, a, b) == cmp(a[i], b[i])
  {
    if i > 0 {
      assert a[0] == a[..i][0] == b[..i][0] == b[0];
      assert cmp(a[0], b[0]) == -cmp(b[0], a[0]);
      assert a[1..][..i - 1] == a[..i][1..] && b[1..][..i - 1] == b[..i][1..];
      FirstDifferenceDecides(cmp, a[1..], b[1..], i - 1);
    }
  }

  /** A proper prefix comes first. */
  lemma {:induction false} PrefixComesFirst<T(!new)>(cmp: (T, T) -> int, a: seq<T>, b: seq<T>)
    requires IsComparison(cmp) && a < b
    ensures Lexicographic(cmp, a, b) < 0
  {
    if a != [] {
      assert a[0] == b[0] && cmp(a[0], b[0]) == -cmp(b[0], a[0]);
      assert a[1..] < b[1..] by { assert b[..|a|] == a; assert b[1..][..|a| - 1] == a[1..]; }
      PrefixComesFirst(cmp, a[1..], b[1..]);
    }
  }

  /** Lifting a comparison to sequences gives a comparison, and exactness is kept. */
  lemma LexicographicIsComparison<T(!new)>(cmp: (T, T) -> int)
    requires IsComparison(cmp)
    ensures IsComparison((a, b) => Lexicographic(cmp, a, b))
    ensures IsExact(cmp) ==> IsExact((a, b) => Lexicographic(cmp, a, b))
  {
    forall a, b ensures Lexicographic(cmp, a, b) == -Lexicographic(cmp, b, a) {
      LexicographicAntisymmetric(cmp, a, b);
    }
    forall a, b, c | Lexicographic(cmp, a, b) <= 0 && Lexicographic(cmp, b, c) <= 0
      ensures Lexicographic(cmp, a, c) <= 0 {
      LexicographicTransitive(cmp, a, b, c);
    }
    if IsExact(cmp) {
      forall a, b | Lexicographic(cmp, a, b) == 0 ensures a == b {
        LexicographicExact(cmp, a, b);
      }
    }
  }

  function CompareInts(x: int, y: int): int { x - y }

  function CompareChars(x: char, y: char): int { x as int - y as int }

  /** Byte order on file names, the order in which a directory is listed. */
  function CompareStrings(a: string, b: string): int {
    Lexicographic(CompareChars, a, b)
  }

  /** Names are in byte order: the first differing byte decides, and a name comes before its extensions. */
  lemma StringsCompareByBytes(a: string, b: string, i: nat)
    ensures a < b ==> CompareStrings(a, b) < 0
    ensures i < |a| && i < |b| && a[..i] == b[..i] && a[i] < b[i] ==> CompareStrings(a, b) < 0 < CompareStrings(b, a)
  {
    var cmp := CompareChars;
    assert forall x, y :: cmp(x, y) == CompareChars(x, y);
    if a < b { PrefixComesFirst(cmp, a, b); }
    if i < |a| && i < |b| && a[..i] == b[..i] && a[i] < b[i] {
      FirstDifferenceDecides(cmp, a, b, i);
      FirstDifferenceDecides(cmp, b, a, i);
    }
  }

  lemma CompareStringsIsExactComparison()
    ensures IsComparison(CompareStrings) && IsExact(CompareStrings)
  {
    LexicographicIsComparison(CompareChars);
    var lifted := (a, b) => Lexicographic(CompareChars, a, b);
    assert forall a, b :: CompareStrings(a, b) == lifted(a, b);
  }
}
