/** The highest tag of an OCI repository. */
module HighestTag {
  import opened SemVer
  import opened StableSort
  import opened Retention

  predicate NewerTag(parse: Parser, a: string, b: string) {
    NewerFirst(parse(a), parse(b))
  }

  lemma NewerTagIsStrictWeakOrder(parse: Parser)
    ensures StrictWeakOrder((a, b) => NewerTag(parse, a, b))
  {
    NewerFirstIsStrictWeakOrder();
    var f := NewerFirst;
    assert forall a, b :: NewerTag(parse, a, b) == f(parse(a), parse(b));
  }

  /** The head of the stable newest-first sort of the tags. */
  function SortedHead(parse: Parser, tags: seq<string>): string
    requires tags != []
  {
    Sort((a, b) => NewerTag(parse, a, b), tags)[0]
  }

  lemma SortedHeadOfOne(parse: Parser, t: string)
    ensures SortedHead(parse, [t]) == t
  {
    assert Sort((a, b) => NewerTag(parse, a, b), [t][1..]) == [];
  }

  lemma SortedHeadOfAppend(parse: Parser, tags: seq<string>, t: string)
    requires tags != []
    ensures SortedHead(parse, tags + [t])
      == if NewerTag(parse, t, SortedHead(parse, tags)) then t else SortedHead(parse, tags)
  {
    NewerTagIsStrictWeakOrder(parse);
    HeadOfAppend((a, b) => NewerTag(parse, a, b), tags, t);
  }

  /** No tag is newer than the i-th, and if that one parses it is strictly newer than all before it. */
  ghost predicate FirstGreatest(parse: Parser, tags: seq<string>, i: nat)
    requires i < |tags|
  {
    && (forall j :: 0 <= j < |tags| ==> !NewerTag(parse, tags[j], tags[i]))
    && (forall j :: 0 <= j < i ==> NewerTag(parse, tags[i], tags[j]))
  }

  lemma FirstGreatestOfAppend(parse: Parser, tags: seq<string>, t: string, i: nat)
    requires i < |tags| && FirstGreatest(parse, tags, i)
    ensures FirstGreatest(parse, tags + [t], if NewerTag(parse, t, tags[i]) then |tags| else i)
  {
    NewerTagIsStrictWeakOrder(parse);
    var newer := (a, b) => NewerTag(parse, a, b);
    assert forall a, b :: newer(a, b) == NewerTag(parse, a, b);
    if newer(t, tags[i]) {
      forall j | 0 <= j < |tags| ensures newer(t, tags[j]) && !newer(tags[j], t) {
        assert !newer(tags[j], tags[i]);
      }
    }
  }

  /** The sorted head is the first of the greatest tags; among tags that all fail to parse, the first. */
  lemma {:induction false} SortedHeadIsFirstGreatest(parse: Parser, tags: seq<string>) returns (i: nat)
    requires tags != []
    ensures i < |tags| && tags[i] == SortedHead(parse, tags) && FirstGreatest(parse, tags, i)
  {
    var n := |tags| - 1;
    if n == 0 {
      assert tags == [tags[0]];
      SortedHeadOfOne(parse, tags[0]);
      assert !NewerTag(parse, tags[0], tags[0]) by {
        NewerFirstIsStrictWeakOrder();
        var f := NewerFirst;
        assert !f(parse(tags[0]), parse(tags[0]));
      }
      i := 0;
    } else {
      assert tags == tags[..n] + [tags[n]];
      var k := SortedHeadIsFirstGreatest(parse, tags[..n]);
      SortedHeadOfAppend(parse, tags[..n], tags[n]);
      FirstGreatestOfAppend(parse, tags[..n], tags[n], k);
      i := if NewerTag(parse, tags[n], tags[k]) then n else k;
    }
  }

  /** h is among the tags, parses if any does, and is the first of the greatest versions; else it is the first tag. */
  ghost predicate IsHighest(parse: Parser, tags: seq<string>, h: string) {
    exists i :: 0 <= i < |tags| && tags[i] == h
      && (forall t :: t in tags && parse(t).Some? ==>
            parse(h).Some? && Compare(parse(h).version, parse(t).version) >= 0)
      && (forall j :: 0 <= j < i ==>
            parse(h).Some? && (parse(tags[j]).Some? ==> Compare(parse(h).version, parse(tags[j]).version) > 0))
  }

  lemma SortedHeadIsHighest(parse: Parser, tags: seq<string>)
    requires tags != []
    ensures IsHighest(parse, tags, SortedHead(parse, tags))
  {
    var i := SortedHeadIsFirstGreatest(parse, tags);
    PrecedenceIsComparison();
    var cmp := Compare;
    assert forall v, w :: cmp(v, w) == Compare(v, w);
    var h := tags[i];
    forall t | t in tags && parse(t).Some?
      ensures parse(h).Some? && Compare(parse(h).version, parse(t).version) >= 0
    {
      var j :| 0 <= j < |tags| && tags[j] == t;
      assert !NewerTag(parse, tags[j], tags[i]);
      if parse(h).Some? {
        assert cmp(parse(h).version, parse(t).version) == -cmp(parse(t).version, parse(h).version);
      }
    }
  }

  /**
   * The one-pass scan returns the head of the stable newest-first sort: the first of the greatest
   * tags, or the first tag when none parses. The empty string is no version.
   */
  method HighestSemver(parse: Parser, tags: seq<string>) returns (highest: string)
    requires tags != [] && parse("").None?
    ensures highest == SortedHead(parse, tags) && IsHighest(parse, tags, highest)
  {
    var best: Parsed := None;
    var bestRaw := "";
    for i := 0 to |tags|
      invariant best == parse(bestRaw) && (best.None? ==> bestRaw == "")
      invariant i == 0 ==> best.None?
      invariant i > 0 ==> SortedHead(parse, tags[..i]) == if best.None? then tags[0] else bestRaw
      invariant i > 0 && best.None? ==> parse(tags[0]).None?
    {
      var v := parse(tags[i]);
      assert tags[..i + 1] == tags[..i] + [tags[i]];
      if i > 0 { SortedHeadOfAppend(parse, tags[..i], tags[i]); } else { SortedHeadOfOne(parse, tags[0]); }
      if v.None? { continue; }
      if best.None? || GreaterThan(v.version, best.version) {
        best, bestRaw := v, tags[i];
      }
    }
    assert tags[..|tags|] == tags;
    highest := if bestRaw == "" then tags[0] else bestRaw;
    SortedHeadIsHighest(parse, tags);
  }
}
