/** Finding a marker such as /tree/ in a path, character by character and element by element. */
module Markers {
  import opened Paths

  /** strings.Index: the first occurrence, or -1. */
  function IndexOf(s: string, sub: string): int
    requires sub != ""
  {
    if |s| < |sub| then -1
    else if sub <= s then 0
    else var i := IndexOf(s[1..], sub); if i < 0 then -1 else i + 1
  }

  /** The marker made of ms, between slashes. */
  function Marker(ms: seq<string>): string {
    "/" + (Join(ms) + "/")
  }

  /** rest starts with ms and goes on after it. */
  predicate StartsWith(rest: seq<string>, ms: seq<string>) {
    |rest| > |ms| && rest[..|ms|] == ms
  }

  /** The first place past the start where ms stands with something after it, or -1. */
  function FirstAt(elems: seq<string>, ms: seq<string>): (i: int)
    ensures i == -1 || 0 < i < |elems|
  {
    if |elems| <= 1 then -1
    else if StartsWith(elems[1..], ms) then 1
    else var i := FirstAt(elems[1..], ms); if i < 0 then -1 else i + 1
  }

  lemma {:induction false} FirstAtIsFirst(elems: seq<string>, ms: seq<string>)
    ensures var i := FirstAt(elems, ms);
      && (forall j :: 0 < j < |elems| && (i < 0 || j < i) ==> !StartsWith(elems[j..], ms))
      && (i >= 0 ==> 0 < i < |elems| && StartsWith(elems[i..], ms))
  {
    if |elems| > 1 {
      FirstAtIsFirst(elems[1..], ms);
      forall j | 1 < j < |elems| ensures elems[1..][j - 1..] == elems[j..] {
      }
      var i := FirstAt(elems, ms);
      forall j | 0 < j < |elems| && (i < 0 || j < i) ensures !StartsWith(elems[j..], ms) {
        if j > 1 { assert elems[1..][j - 1..] == elems[j..]; }
      }
    }
  }

  /** A slash-free element cannot hold the start of a marker. */
  lemma {:induction false} IndexSkips(e: string, t: string, sub: string)
    requires SlashFree(e) && sub != "" && sub[0] == '/'
    ensures IndexOf(e + t, sub) == if IndexOf(t, sub) < 0 then -1 else |e| + IndexOf(t, sub)
  {
    if e == "" {
      assert e + t == t;
    } else {
      assert (e + t)[1..] == e[1..] + t;
      assert (e + t)[0] == e[0] && e[0] in e;
      IndexSkips(e[1..], t, sub);
      if |e + t| < |sub| { IndexBound(t, sub); }
    }
  }

  lemma IndexBound(t: string, sub: string)
    requires sub != "" && |t| < |sub|
    ensures IndexOf(t, sub) == -1
  {
  }

  lemma PrefixStep(a: string, b: string)
    requires a != "" && b != ""
    ensures a <= b <==> a[0] == b[0] && a[1..] <= b[1..]
  {
    if a[0] == b[0] && a[1..] <= b[1..] {
      assert a == [a[0]] + a[1..] && b[..|a|] == [b[0]] + b[1..][..|a| - 1];
    }
    if a <= b {
      assert b[1..][..|a| - 1] == b[..|a|][1..];
    }
  }

  /** Two slash-free elements, each followed by a slash, agree only if they are equal. */
  lemma {:induction false} SameElement(a: string, b: string, t: string)
    requires SlashFree(a) && SlashFree(b)
    ensures a + "/" <= b + "/" + t <==> a == b
  {
    var x, y := a + "/", b + "/" + t;
    PrefixStep(x, y);
    assert a != "" ==> x[0] == a[0] && a[0] in a && x[1..] == a[1..] + "/" && a == [a[0]] + a[1..];
    assert b != "" ==> y[0] == b[0] && b[0] in b && y[1..] == b[1..] + "/" + t && b == [b[0]] + b[1..];
    if a != "" && b != "" {
      SameElement(a[1..], b[1..], t);
    }
  }

  lemma SamePath(m: string, r: string, text: string, more: string)
    requires SlashFree(m) && SlashFree(r)
    ensures m + "/" + text <= r + "/" + more <==> m == r && text <= more
  {
    var a, b := m + "/" + text, r + "/" + more;
    SameElement(m, r, more);
    assert b[|r| + 1..] == more && a[|m| + 1..] == text && a[..|m| + 1] == m + "/";
    if m == r && text <= more {
      assert b == a + more[|text|..];
    }
    if a <= b {
      assert b[..|m| + 1] == a[..|m| + 1];
      assert b[|m| + 1..][..|text|] == a[|m| + 1..];
    }
  }

  lemma NoSlashInside(head: string, r: string)
    requires SlashFree(r)
    ensures !(head + "/" <= r)
  {
    var k := |head|;
    assert (head + "/")[k] == '/';
    assert k < |r| ==> r[k] in r;
  }

  /** The marker's text is a prefix exactly when its elements are. */
  lemma {:induction false} PrefixIsStart(ms: seq<string>, rest: seq<string>)
    requires AllSlashFree(ms) && AllSlashFree(rest) && ms != [] && rest != []
    ensures Join(ms) + "/" <= Join(rest) <==> StartsWith(rest, ms)
  {
    var m, r := ms[0], rest[0];
    assert m in ms && r in rest;
    if |rest| == 1 {
      NoSlashInside(Join(ms), r);
    } else if |ms| == 1 {
      SameElement(m, r, Join(rest[1..]));
      assert rest[..1] == [r];
    } else {
      var text, more := Join(ms[1..]) + "/", Join(rest[1..]);
      PrefixIsStart(ms[1..], rest[1..]);
      SamePath(m, r, text, more);
      assert Join(ms) + "/" == m + "/" + text;
      StartsStep(ms, rest);
    }
  }

  lemma StartsStep(ms: seq<string>, rest: seq<string>)
    requires ms != [] && rest != []
    ensures StartsWith(rest, ms) <==> ms[0] == rest[0] && StartsWith(rest[1..], ms[1..])
  {
    if |rest| > |ms| {
      assert rest[..|ms|] == [rest[0]] + rest[1..][..|ms| - 1];
      assert ms == [ms[0]] + ms[1..];
    }
  }

  lemma MarkerIsNext(ms: seq<string>, rest: seq<string>)
    requires AllSlashFree(ms) && AllSlashFree(rest) && ms != [] && rest != []
    ensures Marker(ms) <= "/" + Join(rest) <==> StartsWith(rest, ms)
  {
    PrefixIsStart(ms, rest);
    var text := "/" + Join(rest);
    assert Marker(ms)[1..] == Join(ms) + "/" && text[1..] == Join(rest);
    PrefixStep(Marker(ms), text);
  }

  /** Searching the text is searching the elements. */
  lemma {:induction false} IndexIsFirst(elems: seq<string>, ms: seq<string>)
    requires AllSlashFree(elems) && AllSlashFree(ms) && elems != [] && ms != []
    ensures var i := FirstAt(elems, ms);
      IndexOf(Join(elems), Marker(ms)) == if i < 0 then -1 else |Join(elems[..i])|
  {
    var e := elems[0];
    if |elems| == 1 {
      assert e + "" == e;
      IndexSkips(e, "", Marker(ms));
    } else {
      var rest := elems[1..];
      var text := "/" + Join(rest);
      assert Join(elems) == e + text;
      IndexSkips(e, text, Marker(ms));
      MarkerIsNext(ms, rest);
      if StartsWith(rest, ms) {
        assert elems[..1] == [e];
      } else {
        IndexIsFirst(rest, ms);
        IndexOfTail(Join(rest), Marker(ms));
        FirstAtIsFirst(rest, ms);
        var i := FirstAt(rest, ms);
        if i >= 0 {
          assert elems[..i + 1] == [e] + rest[..i];
          JoinConcat([e], rest[..i]);
        }
      }
    }
  }

  lemma IndexOfTail(t: string, sub: string)
    requires sub != "" && !(sub <= "/" + t)
    ensures IndexOf("/" + t, sub) == if IndexOf(t, sub) < 0 then -1 else 1 + IndexOf(t, sub)
  {
    assert ("/" + t)[1..] == t;
    if |"/" + t| < |sub| { IndexBound(t, sub); }
  }

  /** What stands before and after a marker found at element i. */
  lemma CutAt(elems: seq<string>, ms: seq<string>, i: nat)
    requires 0 < i < |elems| && ms != [] && StartsWith(elems[i..], ms)
    ensures var s, n := Join(elems), |Join(elems[..i])|;
      && n + |Marker(ms)| <= |s| && s[..n] == Join(elems[..i])
      && s[n + |Marker(ms)|..] == Join(elems[i + |ms|..])
  {
    var rest := elems[i..];
    assert elems == elems[..i] + rest && rest == ms + rest[|ms|..] && rest[|ms|..] == elems[i + |ms|..];
    JoinConcat(elems[..i], rest);
    JoinConcat(ms, rest[|ms|..]);
    Regrouped(Join(elems[..i]), Join(ms), Join(elems[i + |ms|..]));
  }

  lemma Regrouped(a: string, m: string, b: string)
    ensures var s := a + "/" + (m + "/" + b);
      |a| + |"/" + (m + "/")| <= |s| && s[..|a|] == a && s[|a| + |"/" + (m + "/")|..] == b
  {
    assert a + "/" + (m + "/" + b) == a + ("/" + (m + "/")) + b;
  }
}
