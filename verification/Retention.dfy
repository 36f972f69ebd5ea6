/** Which versioned binaries `prune` keeps. */
module Retention {
  import opened Ordering
  import opened SemVer
  import opened StableSort
  import opened FileSystem

  const PREFIX := "kubectl_add_"

  /** How many versioned binaries are kept for rollback. */
  const RETAIN: nat := 3

  type Parser = string -> Parsed

  predicate IsVersioned(name: string) {
    PREFIX <= name
  }

  function VersionedNames(names: set<string>): set<string> {
    set n | n in names && IsVersioned(n)
  }

  function TrimPrefix(name: string): string {
    if IsVersioned(name) then name[|PREFIX|..] else name
  }

  /** The comparator of prune: newest first, unparseable names last. */
  predicate NewerFirst(x: Parsed, y: Parsed) {
    if x.None? || y.None? then x.Some? else GreaterThan(x.version, y.version)
  }

  predicate NewerName(parse: Parser, a: string, b: string) {
    NewerFirst(parse(TrimPrefix(a)), parse(TrimPrefix(b)))
  }

  /** a stands ahead of b once the listing has been stably sorted. */
  predicate Outranks(parse: Parser, a: string, b: string) {
    NewerName(parse, a, b) || (!NewerName(parse, b, a) && NameBefore(a, b))
  }

  ghost function Ahead(parse: Parser, names: set<string>, t: string): set<string> {
    set u | u in names && Outranks(parse, u, t)
  }

  /** The names prune sets out to remove: those with at least `keep` names ahead of them, never `current`. */
  ghost function Doomed(parse: Parser, names: set<string>, current: string, keep: nat): set<string> {
    set t | t in names && t != current && |Ahead(parse, names, t)| >= keep
  }

  /** The comparator is a strict weak order over all names, parseable or not. */
  lemma NewerFirstIsStrictWeakOrder()
    ensures StrictWeakOrder(NewerFirst)
  {
    PrecedenceIsComparison();
    var cmp := Compare;
    assert forall v, w :: cmp(v, w) == Compare(v, w);
    forall x: Parsed, y: Parsed, z: Parsed | NewerFirst(x, y) && NewerFirst(y, z) ensures NewerFirst(x, z) {
      if x.Some? && y.Some? && z.Some? {
        var a, b, c := x.version, y.version, z.version;
        assert cmp(b, a) <= 0 && cmp(c, b) <= 0;
        assert cmp(c, a) <= 0;
        assert cmp(c, a) == 0 ==> cmp(a, b) <= 0;
      }
    }
    forall x: Parsed, y: Parsed, z: Parsed | !NewerFirst(x, y) && !NewerFirst(y, z) ensures !NewerFirst(x, z) {
      if x.Some? && y.Some? && z.Some? {
        assert cmp(x.version, y.version) <= 0 && cmp(y.version, z.version) <= 0;
      }
    }
  }

  lemma NewerNameIsStrictWeakOrder(parse: Parser)
    ensures StrictWeakOrder((a, b) => NewerName(parse, a, b))
  {
    NewerFirstIsStrictWeakOrder();
    var f := NewerFirst;
    assert forall a, b :: NewerName(parse, a, b) == f(parse(TrimPrefix(a)), parse(TrimPrefix(b)));
  }

  /** Ranking is a strict total order on names. */
  lemma OutranksIsTotal(parse: Parser)
    ensures forall a, b :: a != b ==> Outranks(parse, a, b) || Outranks(parse, b, a)
    ensures forall a :: !Outranks(parse, a, a)
    ensures forall a, b, c :: Outranks(parse, a, b) && Outranks(parse, b, c) ==> Outranks(parse, a, c)
  {
    NewerNameIsStrictWeakOrder(parse);
    NameBeforeIsTotal();
    var newer := (a, b) => NewerName(parse, a, b);
    var before := NameBefore;
    assert forall a, b :: newer(a, b) == NewerName(parse, a, b);
    assert forall a, b :: before(a, b) == NameBefore(a, b);
  }

  ghost predicate Ranked(parse: Parser, s: seq<string>) {
    forall i, j :: 0 <= i < j < |s| ==> Outranks(parse, s[i], s[j])
  }

  function SortNewestFirst(parse: Parser, names: seq<string>): seq<string> {
    Sort((a, b) => NewerName(parse, a, b), names)
  }

  lemma SortRanks(parse: Parser, names: seq<string>, all: set<string>)
    requires IsListingOf(names, all)
    ensures Ranked(parse, SortNewestFirst(parse, names))
    ensures forall n :: n in SortNewestFirst(parse, names) <==> n in all
  {
    NewerNameIsStrictWeakOrder(parse);
    var newer := (a, b) => NewerName(parse, a, b);
    SortIsStable(newer, NameBefore, names);
    var s := SortNewestFirst(parse, names);
    var precedes := (a, b) => Precedes(newer, NameBefore, a, b);
    assert Ascending(precedes, s);
    forall i, j | 0 <= i < j < |s| ensures Outranks(parse, s[i], s[j]) {
      assert precedes(s[i], s[j]);
    }
    forall n ensures n in s <==> n in all {
      assert n in s <==> n in multiset(s);
      assert n in names <==> n in multiset(names);
    }
  }

  lemma {:induction false} CardinalityOfDistinct(s: seq<string>)
    requires forall i, j :: 0 <= i < j < |s| ==> s[i] != s[j]
    ensures |(set x | x in s)| == |s|
  {
    if s != [] {
      var n := |s| - 1;
      CardinalityOfDistinct(s[..n]);
      assert (set x | x in s) == (set x | x in s[..n]) + {s[n]};
    }
  }

  /** In a ranked sequence the names ahead of the i-th are exactly the first i. */
  lemma AheadIsIndex(parse: Parser, s: seq<string>, all: set<string>, i: nat)
    requires Ranked(parse, s) && (forall n :: n in s <==> n in all) && i < |s|
    ensures Ahead(parse, all, s[i]) == (set x | x in s[..i]) && |Ahead(parse, all, s[i])| == i
  {
    OutranksIsTotal(parse);
    forall u ensures u in Ahead(parse, all, s[i]) <==> u in s[..i] {
      if u in Ahead(parse, all, s[i]) {
        var k :| 0 <= k < |s| && s[k] == u;
        assert k < i;
      }
    }
    assert Ahead(parse, all, s[i]) == (set x | x in s[..i]);
    CardinalityOfDistinct(s[..i]);
  }

  lemma {:induction false} ListingExists(all: set<string>) returns (names: seq<string>)
    ensures IsListingOf(names, all)
  {
    if all == {} {
      names := [];
    } else {
      var n :| n in all;
      var rest := ListingExists(all - {n});
      InsertName(n, rest);
      names := Insert(NameBefore, n, rest);
      assert forall m :: m in names <==> m in multiset(names);
      assert forall m :: m in names <==> m == n || m in rest;
    }
  }

  /** The tail past the first `keep` of the sorted listing is exactly what has `keep` names ahead of it. */
  lemma TailIsOutranked(parse: Parser, names: seq<string>, all: set<string>, keep: nat)
    requires IsListingOf(names, all)
    ensures var s := SortNewestFirst(parse, names);
      forall t :: t in all ==> (|Ahead(parse, all, t)| >= keep <==> |s| > keep && t in s[keep..])
  {
    SortRanks(parse, names, all);
    OutranksIsTotal(parse);
    var s := SortNewestFirst(parse, names);
    forall t | t in all ensures |Ahead(parse, all, t)| >= keep <==> |s| > keep && t in s[keep..] {
      var i :| 0 <= i < |s| && s[i] == t;
      AheadIsIndex(parse, s, all, i);
      if i >= keep { assert s[keep..][i - keep] == t; }
      if |s| > keep && t in s[keep..] {
        var k :| 0 <= k < |s| - keep && s[keep..][k] == t;
        assert s[keep + k] == t && keep + k == i;
      }
    }
  }

  ghost function Newest(parse: Parser, names: set<string>, keep: nat): set<string> {
    set t | t in names && |Ahead(parse, names, t)| < keep
  }

  /** There are `keep` newest names, or all of them when there are fewer. */
  lemma NewestCount(parse: Parser, names: set<string>, keep: nat)
    ensures |Newest(parse, names, keep)| == if |names| < keep then |names| else keep
  {
    var listing := ListingExists(names);
    SortRanks(parse, listing, names);
    OutranksIsTotal(parse);
    var s := SortNewestFirst(parse, listing);
    var m := if |s| < keep then |s| else keep;
    CardinalityOfDistinct(s);
    assert names == (set x | x in s);
    CardinalityOfDistinct(s[..m]);
    forall t ensures t in Newest(parse, names, keep) <==> t in s[..m] {
      if t in names {
        var i :| 0 <= i < |s| && s[i] == t;
        AheadIsIndex(parse, s, names, i);
        if i < m { assert s[..m][i] == t; }
      }
    }
    assert Newest(parse, names, keep) == (set x | x in s[..m]);
  }

  /** A newer name has fewer names ahead of it. */
  lemma NewerHasFewerAhead(parse: Parser, names: set<string>, a: string, b: string)
    requires a in names && b in names && NewerName(parse, a, b)
    ensures |Ahead(parse, names, a)| < |Ahead(parse, names, b)|
  {
    OutrankingHasFewerAhead(parse, names, a, b);
  }

  /**
   * What survives a prune: exactly the `keep` newest names (all of them when there are fewer) plus
   * `current`, so at most keep + 1; nothing removed is newer than anything kept other than `current`.
   */
  lemma SurvivorsAreNewest(parse: Parser, names: set<string>, current: string, keep: nat)
    ensures var doomed := Doomed(parse, names, current, keep);
      && names - doomed == Newest(parse, names, keep) + (names * {current})
      && |Newest(parse, names, keep)| == (if |names| < keep then |names| else keep)
      && |names - doomed| <= keep + 1
      && forall gone, left :: gone in doomed && left in names - doomed && left != current
           ==> !NewerName(parse, gone, left)
  {
    var doomed, newest := Doomed(parse, names, current, keep), Newest(parse, names, keep);
    NewestCount(parse, names, keep);
    assert names - doomed == newest + (names * {current});
    if current in names { assert names * {current} == {current}; } else { assert names * {current} == {}; }
    forall gone, left | gone in doomed && left in names - doomed && left != current
      ensures !NewerName(parse, gone, left)
    {
      if NewerName(parse, gone, left) { NewerHasFewerAhead(parse, names, gone, left); }
    }
  }

  lemma OutrankingHasFewerAhead(parse: Parser, names: set<string>, a: string, b: string)
    requires a in names && b in names && Outranks(parse, a, b)
    ensures |Ahead(parse, names, a)| < |Ahead(parse, names, b)|
  {
    OutranksIsTotal(parse);
    var small, large := Ahead(parse, names, a), Ahead(parse, names, b);
    assert a !in small && small + {a} <= large;
    var rest := large - (small + {a});
    assert |large| == |small + {a}| + |rest| by { assert large == (small + {a}) + rest; }
  }

  /**
   * By version: nothing is removed while something else is kept that does not parse though it does, or
   * that is older; and of two that the versions do not tell apart the one listed first is kept.
   */
  lemma SurvivorsByVersion(parse: Parser, names: set<string>, current: string, keep: nat, gone: string, left: string)
    requires PREFIX + gone in Doomed(parse, names, current, keep)
    requires PREFIX + left in names - Doomed(parse, names, current, keep) && PREFIX + left != current
    ensures parse(gone).Some? ==> parse(left).Some? && Compare(parse(left).version, parse(gone).version) >= 0
    ensures (parse(gone).None? && parse(left).None?)
      || (parse(gone).Some? && parse(left).Some? && Compare(parse(left).version, parse(gone).version) == 0)
      ==> CompareStrings(PREFIX + left, PREFIX + gone) < 0
  {
    var a, b := PREFIX + left, PREFIX + gone;
    OutranksIsTotal(parse);
    if Outranks(parse, b, a) { OutrankingHasFewerAhead(parse, names, b, a); }
    assert Outranks(parse, a, b);
    assert TrimPrefix(a) == left && TrimPrefix(b) == gone;
    PrecedenceIsComparison();
    var cmp := Compare;
    assert forall v, w :: cmp(v, w) == Compare(v, w);
    if parse(gone).Some? && parse(left).Some? {
      assert cmp(parse(left).version, parse(gone).version) == -cmp(parse(gone).version, parse(left).version);
    }
  }

  /** A larger directory only ever adds names ahead of a given one. */
  lemma AheadIsMonotone(parse: Parser, small: set<string>, large: set<string>, t: string)
    requires small <= large
    ensures Ahead(parse, small, t) <= Ahead(parse, large, t)
    ensures |Ahead(parse, small, t)| <= |Ahead(parse, large, t)|
  {
    var a, b := Ahead(parse, small, t), Ahead(parse, large, t);
    assert |b| == |a| + |b - a| by { assert b == a + (b - a); }
  }

  /** The versioned names of a listing, in listing order. */
  method SelectVersioned(entries: seq<string>, ghost all: set<string>) returns (versioned: seq<string>)
    requires IsListingOf(entries, all)
    ensures IsListingOf(versioned, VersionedNames(all))
  {
    versioned := [];
    for i := 0 to |entries|
      invariant Ascending(NameBefore, versioned)
      invariant forall n :: n in versioned <==> n in entries[..i] && IsVersioned(n)
    {
      forall n | n in versioned ensures NameBefore(n, entries[i]) {
        var k :| 0 <= k < i && entries[k] == n;
      }
      if IsVersioned(entries[i]) {
        versioned := versioned + [entries[i]];
      }
    }
  }

  /** The removal loop of prune; `stuck` names fail to be removed, which is ignored. */
  method RemoveExcept(d: Directory, names: seq<string>, current: string, stuck: set<string>)
    modifies d
    ensures d.entries == old(d.entries) - ((set n | n in names && n != current) - stuck)
  {
    for i := 0 to |names|
      invariant d.entries == old(d.entries) - ((set n | n in names[..i] && n != current) - stuck)
    {
      var name := names[i];
      assert names[..i + 1] == names[..i] + [name];
      if name == current { continue; }
      if name !in stuck {
        d.Remove(name);
      }
    }
    assert names[..|names|] == names;
  }

  /**
   * prune: list the directory, keep the versioned names, sort them newest first and remove the tail.
   * `readable` is the outcome of os.ReadDir; removals of the names in `stuck` fail and are ignored.
   */
  method Prune(d: Directory, parse: Parser, current: string, keep: nat, readable: bool, stuck: set<string>)
    modifies d
    ensures d.entries == if !readable then old(d.entries) else
      old(d.entries) - (Doomed(parse, VersionedNames(old(d.entries).Keys), current, keep) - stuck)
  {
    if !readable { return; }
    var entries := d.ReadDir();
    ghost var all := VersionedNames(d.entries.Keys);
    ghost var doomed := Doomed(parse, all, current, keep);
    var versioned := SelectVersioned(entries, d.entries.Keys);
    TailIsOutranked(parse, versioned, all, keep);
    SortRanks(parse, versioned, all);
    if |versioned| <= keep {
      assert doomed - stuck == {};
      return;
    }
    versioned := SortNewestFirst(parse, versioned);
    assert doomed == (set n | n in versioned[keep..] && n != current);
    RemoveExcept(d, versioned[keep..], current, stuck);
  }
}
