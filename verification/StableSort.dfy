/** A stable sort, as `sort.SliceStable` promises it, for any strict weak order. */
module StableSort {

  ghost predicate StrictWeakOrder<T(!new)>(before: (T, T) -> bool) {
    && (forall x :: !before(x, x))
    && (forall x, y, z :: before(x, y) && before(y, z) ==> before(x, z))
    && (forall x, y, z :: !before(x, y) && !before(y, z) ==> !before(x, z))
  }

  ghost predicate Ascending<T>(before: (T, T) -> bool, s: seq<T>) {
    forall i, j :: 0 <= i < j < |s| ==> before(s[i], s[j])
  }

  /** x goes in front of the first element that `before` does not put ahead of it. */
  function Insert<T>(before: (T, T) -> bool, x: T, s: seq<T>): (r: seq<T>)
    ensures multiset(r) == multiset{x} + multiset(s) && |r| == |s| + 1
  {
    if s == [] || !before(s[0], x) then
      assert multiset([x] + s) == multiset([x]) + multiset(s);
      [x] + s
    else
      assert s == [s[0]] + s[1..];
      [s[0]] + Insert(before, x, s[1..])
  }

  function Sort<T>(before: (T, T) -> bool, s: seq<T>): (r: seq<T>)
    ensures multiset(r) == multiset(s) && |r| == |s|
  {
    if s == [] then [] else
      assert s == [s[0]] + s[1..];
      Insert(before, s[0], Sort(before, s[1..]))
  }

  /** The order a stable sort produces: `before`, and among equals the order they came in. */
  predicate Precedes<T>(before: (T, T) -> bool, tie: (T, T) -> bool, x: T, y: T) {
    before(x, y) || (!before(y, x) && tie(x, y))
  }

  lemma {:induction false} InsertKeepsPrecedence<T(!new)>(before: (T, T) -> bool, tie: (T, T) -> bool, x: T, s: seq<T>)
    requires StrictWeakOrder(before)
    requires Ascending((a, b) => Precedes(before, tie, a, b), s)
    requires forall y :: y in s ==> tie(x, y)
    ensures Ascending((a, b) => Precedes(before, tie, a, b), Insert(before, x, s))
  {
    if s != [] && before(s[0], x) {
      InsertKeepsPrecedence(before, tie, x, s[1..]);
      var tail := Insert(before, x, s[1..]);
      forall j | 0 <= j < |tail| ensures Precedes(before, tie, s[0], tail[j]) {
        assert tail[j] in multiset(tail);
        assert tail[j] in multiset{x} + multiset(s[1..]);
        if tail[j] != x {
          assert tail[j] in s[1..];
        }
      }
    } else if s != [] {
      forall j | 0 <= j < |s| ensures Precedes(before, tie, x, s[j]) {
        if j > 0 { assert Precedes(before, tie, s[0], s[j]); }
        assert s[j] in s;
      }
    }
  }

  /** Stability: a sequence that ascends by `tie` is sorted by `before` with `tie` breaking the ties. */
  lemma {:induction false} SortIsStable<T(!new)>(before: (T, T) -> bool, tie: (T, T) -> bool, s: seq<T>)
    requires StrictWeakOrder(before)
    requires Ascending(tie, s)
    ensures Ascending((a, b) => Precedes(before, tie, a, b), Sort(before, s))
  {
    if s != [] {
      SortIsStable(before, tie, s[1..]);
      forall y | y in Sort(before, s[1..]) ensures tie(s[0], y) {
        assert y in multiset(Sort(before, s[1..]));
        assert y in s[1..];
      }
      InsertKeepsPrecedence(before, tie, s[0], Sort(before, s[1..]));
    }
  }

  /** Appending one element changes the head of the sorted sequence only if it beats that head. */
  lemma {:induction false} HeadOfAppend<T(!new)>(before: (T, T) -> bool, s: seq<T>, t: T)
    requires StrictWeakOrder(before) && s != []
    ensures Sort(before, s + [t])[0] == if before(t, Sort(before, s)[0]) then t else Sort(before, s)[0]
  {
    var x := s[0];
    assert (s + [t])[1..] == s[1..] + [t];
    if |s| == 1 {
      assert s[1..] + [t] == [t];
      assert Sort(before, s) == [x] by { assert Sort(before, s[1..]) == []; }
      assert Sort(before, [t]) == [t] by { assert Sort(before, [t][1..]) == []; }
    } else {
      HeadOfAppend(before, s[1..], t);
    }
  }
}
