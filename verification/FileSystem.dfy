/** File names, directory entries and the directory operations the updater relies on. */
module FileSystem {
  import opened Ordering
  import opened StableSort

  type Blob = seq<bv8>

  datatype Entry = File(data: Blob, exec: bool) | Symlink(target: string)

  type Listing = map<string, Entry>

  /** Byte order of names, strictly: the order `os.ReadDir` lists a directory in. */
  predicate NameBefore(a: string, b: string) {
    CompareStrings(a, b) < 0
  }

  lemma NameBeforeIsTotal()
    ensures StrictWeakOrder(NameBefore)
    ensures forall a, b :: a != b ==> NameBefore(a, b) || NameBefore(b, a)
  {
    CompareStringsIsExactComparison();
    var before, cmp := NameBefore, CompareStrings;
    assert forall a, b :: before(a, b) == NameBefore(a, b) && cmp(a, b) == CompareStrings(a, b);
    assert forall a, b, c :: cmp(a, b) <= 0 && cmp(b, c) <= 0 ==> cmp(a, c) <= 0;
    forall a, b, c | before(a, b) && before(b, c) ensures before(a, c) {
      assert cmp(a, c) <= 0;
      assert cmp(a, c) == 0 ==> a == c;
    }
    forall a, b, c | !before(a, b) && !before(b, c) ensures !before(a, c) {
      assert cmp(c, b) <= 0 && cmp(b, a) <= 0;
      assert cmp(c, a) <= 0;
    }
  }

  ghost predicate IsListingOf(names: seq<string>, all: set<string>) {
    && Ascending(NameBefore, names)
    && forall n :: n in names <==> n in all
  }

  lemma {:induction false} InsertName(x: string, s: seq<string>)
    requires Ascending(NameBefore, s) && x !in s
    ensures Ascending(NameBefore, Insert(NameBefore, x, s))
  {
    NameBeforeIsTotal();
    if s != [] && NameBefore(s[0], x) {
      InsertName(x, s[1..]);
      var tail := Insert(NameBefore, x, s[1..]);
      forall j | 0 <= j < |tail| ensures NameBefore(s[0], tail[j]) {
        assert tail[j] in multiset{x} + multiset(s[1..]);
        if tail[j] != x { assert tail[j] in s[1..]; }
      }
    } else if s != [] {
      var before := NameBefore;
      forall j | 0 <= j < |s| ensures NameBefore(x, s[j]) {
        assert s[0] != x && before(x, s[0]);
        if j > 0 { assert before(s[0], s[j]); }
      }
    }
  }

  class Directory {
    var entries: Listing

    constructor (initial: Listing)
      ensures entries == initial
    {
      entries := initial;
    }

    /** `os.ReadDir`: every name once, in byte order. */
    method ReadDir() returns (names: seq<string>)
      ensures IsListingOf(names, entries.Keys)
    {
      names := [];
      var rest := entries.Keys;
      while rest != {}
        invariant Ascending(NameBefore, names)
        invariant forall n :: n in entries.Keys <==> n in names || n in rest
        invariant forall n :: n in names ==> n !in rest
        decreases rest
      {
        var n :| n in rest;
        InsertName(n, names);
        ghost var was := names;
        names := Insert(NameBefore, n, names);
        assert forall m :: m in names <==> m in multiset(names);
        assert forall m :: m in names <==> m == n || m in was;
        rest := rest - {n};
      }
    }

    /** `os.Remove`; a failing removal changes nothing. */
    method Remove(name: string)
      modifies this
      ensures entries == old(entries) - {name}
    {
      entries := entries - {name};
    }
  }
}
