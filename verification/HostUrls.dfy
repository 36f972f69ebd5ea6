/** How each git host's URLs are taken apart, and when that undoes putting them together. */
module HostUrls {
  import opened Paths
  import opened Markers
  import opened ChartFiles

  function Host(p: Provider): string {
    match p
    case GitHub => "github.com"
    case GitLab => "gitlab.com"
    case Bitbucket => "bitbucket.org"
  }

  /** What marks a single file; Bitbucket does not tell files from directories. */
  function BlobMarker(p: Provider): seq<string>
    requires !p.Bitbucket?
  {
    if p.GitHub? then ["blob"] else ["-", "blob"]
  }

  function TreeMarker(p: Provider): seq<string> {
    match p
    case GitHub => ["tree"]
    case GitLab => ["-", "tree"]
    case Bitbucket => ["src"]
  }

  function MarkerOf(p: Provider, blob: bool): seq<string>
    requires blob ==> !p.Bitbucket?
  {
    if blob then BlobMarker(p) else TreeMarker(p)
  }

  /** strings.Trim of slashes. */
  function TrimSlashes(s: string): string {
    if s != "" && s[0] == '/' then TrimSlashes(s[1..])
    else if s != "" && s[|s| - 1] == '/' then TrimSlashes(s[..|s| - 1])
    else s
  }

  /** The ref is the first element, the subpath the rest. */
  function SplitRef(rest: string): (string, string) {
    var trimmed := TrimSlashes(rest);
    if trimmed == "" then ("", "") else
      var i := IndexOf(trimmed, "/");
      if i < 0 || i >= |trimmed| then (trimmed, "") else (trimmed[..i], trimmed[i + 1..])
  }

  datatype Location = Location(ref: string, subpath: string, isBlob: bool)

  function From(s: string, i: int): string {
    if 0 <= i <= |s| then s[i..] else ""
  }

  /** The ref and subpath after the first marker. */
  function ReadFrom(s: string, ms: seq<string>): (string, string) {
    SplitRef(From(s, IndexOf(s, Marker(ms)) + |Marker(ms)|))
  }

  /** The blob marker is looked for first, anywhere in the URL, then the tree marker. */
  function ParseRef(p: Provider, resource: string): Location {
    var blob := if p.Bitbucket? then -1 else IndexOf(resource, Marker(BlobMarker(p)));
    if blob >= 0 then
      var (ref, sub) := ReadFrom(resource, BlobMarker(p));
      Location(ref, sub, true)
    else
      var tree := IndexOf(resource, Marker(TreeMarker(p)));
      if tree >= 0 then
        var (ref, sub) := ReadFrom(resource, TreeMarker(p));
        Location(ref, sub, false)
      else Location("", "", false)
  }

  // ---- canonical URLs ----

  function PathOf(repo: seq<string>, marker: seq<string>, ref: string, sub: seq<string>): seq<string> {
    repo + marker + [ref] + sub
  }

  function Elements(host: string, path: seq<string>): seq<string> {
    ["https:", "", host] + path
  }

  /** https://host/repo/marker/ref/sub */
  function Url(p: Provider, blob: bool, repo: seq<string>, ref: string, sub: seq<string>): string
    requires blob ==> !p.Bitbucket?
  {
    Join(Elements(Host(p), PathOf(repo, MarkerOf(p, blob), ref, sub)))
  }

  /** The elements of each kind of URL, written out. */
  lemma UrlsWrittenOut(p: Provider, blob: bool, repo: seq<string>, ref: string, sub: seq<string>)
    requires blob ==> !p.Bitbucket?
    ensures Url(p, blob, repo, ref, sub) == Join(match p
      case GitHub => ["https:", "", "github.com"] + repo + [if blob then "blob" else "tree", ref] + sub
      case GitLab => ["https:", "", "gitlab.com"] + repo + ["-", if blob then "blob" else "tree", ref] + sub
      case Bitbucket => ["https:", "", "bitbucket.org"] + repo + ["src", ref] + sub)
  {
    var host, ms := Host(p), MarkerOf(p, blob);
    assert Elements(host, PathOf(repo, ms, ref, sub)) == ["https:", "", host] + repo + (ms + [ref]) + sub;
    assert ms + [ref] == match p
      case GitHub => [if blob then "blob" else "tree", ref]
      case GitLab => ["-", if blob then "blob" else "tree", ref]
      case Bitbucket => ["src", ref];
  }

  ghost predicate Canonical(repo: seq<string>, ref: string, sub: seq<string>) {
    repo != [] && AllSegments(repo) && IsSegment(ref) && AllSegments(sub)
  }

  predicate Contains(segs: seq<string>, ms: seq<string>) {
    exists j :: 0 <= j <= |segs| && ms <= segs[j..]
  }

  /** A tree URL's path in which something before the last segment looks like a blob marker. */
  predicate BlobLike(p: Provider, repo: seq<string>, ref: string, sub: seq<string>)
    requires !p.Bitbucket?
  {
    var path := PathOf(repo, TreeMarker(p), ref, sub);
    Contains(path[..|path| - 1], BlobMarker(p))
  }

  /** Nothing before the marker looks like it, and in a tree URL nothing looks like a blob marker. */
  predicate Unambiguous(p: Provider, blob: bool, repo: seq<string>, ref: string, sub: seq<string>)
    requires blob ==> !p.Bitbucket?
  {
    && !Contains(repo, MarkerOf(p, blob))
    && (!blob && !p.Bitbucket? ==> !BlobLike(p, repo, ref, sub))
  }

  lemma SliceSegments(elems: seq<string>, i: nat)
    requires AllSegments(elems) && i <= |elems|
    ensures AllSegments(elems[i..]) && AllSlashFree(elems[i..])
  {
    forall e | e in elems[i..] ensures IsSegment(e) {
      assert e in elems;
    }
  }

  lemma SliceOfPrefix(a: seq<string>, b: seq<string>, j: nat, k: nat)
    requires a <= b && j + k <= |a|
    ensures b[j..][..k] == a[j..][..k]
  {
    assert b[..|a|] == a;
  }

  /** One or two different segments, not starting like the host. */
  ghost predicate MarkerLike(host: string, ms: seq<string>) {
    && AllSegments(ms) && 1 <= |ms| <= 2 && ms[0] != host && SlashFree(host)
    && (|ms| == 2 ==> ms[0] != ms[1])
  }

  lemma MarkersAreMarkerLike(p: Provider, blob: bool)
    requires blob ==> !p.Bitbucket?
    ensures MarkerLike(Host(p), MarkerOf(p, blob))
  {
  }

  lemma PathSegments(repo: seq<string>, ms: seq<string>, ref: string, sub: seq<string>)
    requires Canonical(repo, ref, sub) && AllSegments(ms)
    ensures AllSegments(PathOf(repo, ms, ref, sub))
  {
  }

  lemma ElementsSlashFree(host: string, path: seq<string>)
    requires AllSegments(path) && SlashFree(host)
    ensures AllSlashFree(Elements(host, path))
  {
    assert SlashFree("https:") && SlashFree("");
  }

  lemma StartsHead(rest: seq<string>, ms: seq<string>)
    requires ms != []
    ensures StartsWith(rest, ms) ==> rest[0] == ms[0]
  {
    if StartsWith(rest, ms) { assert rest[..|ms|][0] == rest[0]; }
  }

  /** Markers are only ever found in the path, never in the scheme or the host. */
  lemma FoundInPath(host: string, path: seq<string>, ms: seq<string>, j: nat)
    requires MarkerLike(host, ms) && 0 < j < 3 + |path|
    ensures StartsWith(Elements(host, path)[j..], ms) <==> j >= 3 && StartsWith(path[j - 3..], ms)
  {
    var elems := Elements(host, path);
    assert ms[0] in ms;
    if j >= 3 {
      assert elems[j..] == path[j - 3..];
    } else {
      StartsHead(elems[j..], ms);
      assert elems[j..][0] == elems[j] && (elems[j] == "" || elems[j] == host);
    }
  }

  lemma IndexOfSlash(e: string, t: string)
    requires SlashFree(e)
    ensures IndexOf(e, "/") == -1 && IndexOf(e + ("/" + t), "/") == |e|
  {
    IndexSkips(e, "", "/");
    assert e + "" == e;
    IndexSkips(e, "/" + t, "/");
    assert "/" <= "/" + t;
  }

  lemma SplitRefAt(s: string, e: string, more: string)
    requires s != "" && s[0] != '/' && s[|s| - 1] != '/' && SlashFree(e)
    ensures s == e ==> SplitRef(s) == (e, "")
    ensures s == e + ("/" + more) ==> SplitRef(s) == (e, more)
  {
    assert TrimSlashes(s) == s;
    IndexOfSlash(e, more);
    if s == e + ("/" + more) {
      assert s[..|e|] == e && s[|e| + 1..] == more;
    }
  }

  lemma JoinOfMore(tail: seq<string>)
    requires |tail| > 1
    ensures Join(tail) == tail[0] + ("/" + Join(tail[1..]))
  {
    Regroup(tail[0], "/", Join(tail[1..]));
  }

  lemma Regroup(a: string, b: string, c: string)
    ensures a + b + c == a + (b + c)
  {
  }

  /** A path of segments after the marker splits into ref and subpath. */
  lemma SplitRefOfTail(tail: seq<string>)
    requires tail != [] && AllSegments(tail)
    ensures SplitRef(Join(tail)) == (tail[0], Join(tail[1..]))
  {
    assert tail[0] in tail;
    JoinEnds(tail);
    if |tail| > 1 { JoinOfMore(tail); }
    SplitRefAt(Join(tail), tail[0], Join(tail[1..]));
  }

  lemma JoinEnds(elems: seq<string>)
    requires elems != [] && AllSegments(elems)
    ensures var s := Join(elems); s != "" && s[0] != '/' && s[|s| - 1] != '/'
  {
    var n := |elems| - 1;
    assert elems[0] in elems && elems[n] in elems;
    assert elems[0][0] in elems[0] && elems[n][|elems[n]| - 1] in elems[n];
    if n > 0 {
      JoinConcat(elems[..n], [elems[n]]);
      assert elems == elems[..n] + [elems[n]];
    }
  }

  lemma ReadAt(elems: seq<string>, ms: seq<string>, i: nat)
    requires AllSlashFree(elems) && AllSlashFree(ms) && ms != [] && 0 < i < |elems|
    requires FirstAt(elems, ms) == i && StartsWith(elems[i..], ms)
    ensures IndexOf(Join(elems), Marker(ms)) >= 0
    ensures From(Join(elems), IndexOf(Join(elems), Marker(ms)) + |Marker(ms)|) == Join(elems[i + |ms|..])
  {
    IndexIsFirst(elems, ms);
    CutAt(elems, ms, i);
    assert IndexOf(Join(elems), Marker(ms)) == |Join(elems[..i])|;
  }

  /** What is read off a URL once a marker has been found. */
  lemma ReadAfter(elems: seq<string>, ms: seq<string>, i: nat, tail: seq<string>)
    requires AllSlashFree(elems) && AllSlashFree(ms) && ms != [] && 0 < i < |elems|
    requires FirstAt(elems, ms) == i && StartsWith(elems[i..], ms)
    requires elems[i + |ms|..] == tail && tail != [] && AllSegments(tail)
    ensures IndexOf(Join(elems), Marker(ms)) >= 0
    ensures ReadFrom(Join(elems), ms) == (tail[0], Join(tail[1..]))
  {
    ReadAt(elems, ms, i);
    SplitRefOfTail(tail);
  }

  lemma ReadPath(host: string, path: seq<string>, ms: seq<string>, i: nat)
    requires AllSegments(path) && MarkerLike(host, ms) && i + |ms| < |path| && StartsWith(path[i..], ms)
    requires FirstAt(Elements(host, path), ms) == 3 + i
    ensures IndexOf(Join(Elements(host, path)), Marker(ms)) >= 0
    ensures ReadFrom(Join(Elements(host, path)), ms) == (path[i + |ms|], Join(path[i + |ms| + 1..]))
  {
    var elems, tail := Elements(host, path), path[i + |ms|..];
    assert elems[3 + i..] == path[i..] && elems[3 + i + |ms|..] == tail && tail[1..] == path[i + |ms| + 1..];
    ElementsSlashFree(host, path);
    SliceSegments(path, i + |ms|);
    ReadAfter(elems, ms, 3 + i, tail);
  }

  /** A marker occurs in the URL exactly if it occurs in the path with something after it. */
  lemma OccursIff(host: string, path: seq<string>, ms: seq<string>)
    requires path != [] && MarkerLike(host, ms)
    ensures FirstAt(Elements(host, path), ms) == -1 <==> !Contains(path[..|path| - 1], ms)
  {
    var elems, front := Elements(host, path), path[..|path| - 1];
    var i := FirstAt(elems, ms);
    FirstAtIsFirst(elems, ms);
    if i != -1 {
      FoundInPath(host, path, ms, i);
      var j := i - 3;
      assert front[j..] == path[j..][..|path| - 1 - j];
      assert ms <= front[j..];
    } else if Contains(front, ms) {
      var j :| 0 <= j <= |front| && ms <= front[j..];
      SliceOfPrefix(front, path, j, |ms|);
      FoundInPath(host, path, ms, 3 + j);
    }
  }

  /** The URL's own marker is found in its place exactly if the repository does not contain it. */
  lemma OwnMarkerIff(host: string, ms: seq<string>, repo: seq<string>, ref: string, sub: seq<string>)
    requires Canonical(repo, ref, sub) && MarkerLike(host, ms)
    ensures var i := FirstAt(Elements(host, PathOf(repo, ms, ref, sub)), ms);
      && 3 <= i <= 3 + |repo| && StartsWith(PathOf(repo, ms, ref, sub)[i - 3..], ms)
      && (i == 3 + |repo| <==> !Contains(repo, ms))
  {
    var path := PathOf(repo, ms, ref, sub);
    OwnMarkerStands(repo, ms, ref, sub);
    FirstInPath(host, repo, ms, path);
    var i := FirstAt(Elements(host, path), ms);
    if i < 3 + |repo| { InsideRepo(repo, ms, path, i - 3); }
  }

  lemma OwnMarkerStands(repo: seq<string>, ms: seq<string>, ref: string, sub: seq<string>)
    ensures var path := PathOf(repo, ms, ref, sub);
      |path| > |repo| + |ms| && repo + ms <= path && StartsWith(path[|repo|..], ms)
  {
    assert PathOf(repo, ms, ref, sub)[|repo|..] == ms + [ref] + sub;
  }

  lemma FoundNoLater(host: string, path: seq<string>, ms: seq<string>, j: nat)
    requires MarkerLike(host, ms) && j < |path| && StartsWith(path[j..], ms)
    ensures var i := FirstAt(Elements(host, path), ms); 3 <= i <= 3 + j && StartsWith(path[i - 3..], ms)
  {
    FirstAtIsFirst(Elements(host, path), ms);
    FoundInPath(host, path, ms, 3 + j);
    FoundInPath(host, path, ms, FirstAt(Elements(host, path), ms));
  }

  /** The first occurrence is at the marker's own place or before, and before it if the repository contains it. */
  lemma FirstInPath(host: string, repo: seq<string>, ms: seq<string>, path: seq<string>)
    requires MarkerLike(host, ms) && repo + ms <= path && |path| > |repo| + |ms| && StartsWith(path[|repo|..], ms)
    ensures var i := FirstAt(Elements(host, path), ms);
      && 3 <= i <= 3 + |repo| && StartsWith(path[i - 3..], ms) && (Contains(repo, ms) ==> i < 3 + |repo|)
  {
    FoundNoLater(host, path, ms, |repo|);
    if Contains(repo, ms) {
      var j :| 0 <= j <= |repo| && ms <= repo[j..];
      SliceOfPrefix(repo, path, j, |ms|);
      FoundNoLater(host, path, ms, j);
    }
  }

  lemma InsideRepo(repo: seq<string>, ms: seq<string>, path: seq<string>, j: nat)
    requires 1 <= |ms| <= 2 && (|ms| == 2 ==> ms[0] != ms[1])
    requires repo + ms <= path && j < |repo| && StartsWith(path[j..], ms)
    ensures Contains(repo, ms)
  {
    assert path[j..][..|ms|] == ms;
    assert path[j] == ms[0];
    assert path[|repo|] == (repo + ms)[|repo|] == ms[0];
    if |ms| == 2 {
      assert path[j + 1] == path[j..][..2][1] == ms[1];
    }
    forall k | 0 <= k < |ms| ensures repo[j..][k] == ms[k] {
      assert repo[j + k] == (repo + ms)[j + k] == path[j + k];
    }
    assert ms <= repo[j..];
  }

  /** An earlier marker is always noticed: it leaves a longer subpath. */
  lemma EarlierMisreads(repo: seq<string>, ms: seq<string>, ref: string, sub: seq<string>, i: nat)
    requires AllSegments(PathOf(repo, ms, ref, sub)) && i < |repo|
    ensures Join(PathOf(repo, ms, ref, sub)[i + |ms| + 1..]) != Join(sub)
  {
    var longer := PathOf(repo, ms, ref, sub)[i + |ms| + 1..];
    assert |longer| > |sub|;
    SliceSegments(PathOf(repo, ms, ref, sub), i + |ms| + 1);
    SplitOfJoin(longer);
    if sub != [] {
      assert PathOf(repo, ms, ref, sub)[|repo| + |ms| + 1..] == sub;
      SliceSegments(PathOf(repo, ms, ref, sub), |repo| + |ms| + 1);
      SplitOfJoin(sub);
    } else {
      JoinEnds(longer);
    }
  }

  /** Reading from the first occurrence of the URL's own marker. */
  lemma OwnReadingIff(host: string, ms: seq<string>, repo: seq<string>, ref: string, sub: seq<string>)
    requires Canonical(repo, ref, sub) && MarkerLike(host, ms)
    ensures var s := Join(Elements(host, PathOf(repo, ms, ref, sub)));
      IndexOf(s, Marker(ms)) >= 0 && (ReadFrom(s, ms) == (ref, Join(sub)) <==> !Contains(repo, ms))
  {
    var path := PathOf(repo, ms, ref, sub);
    PathSegments(repo, ms, ref, sub);
    OwnMarkerIff(host, ms, repo, ref, sub);
    var i := FirstAt(Elements(host, path), ms) - 3;
    ReadPath(host, path, ms, i);
    if i < |repo| {
      EarlierMisreads(repo, ms, ref, sub, i);
    } else {
      assert path[i + |ms|] == ref && path[i + |ms| + 1..] == sub;
    }
  }

  /** Whether a URL is read as a blob URL. */
  lemma BlobIsFirst(host: string, path: seq<string>, ms: seq<string>)
    requires path != [] && AllSegments(path) && MarkerLike(host, ms)
    ensures IndexOf(Join(Elements(host, path)), Marker(ms)) >= 0 <==> Contains(path[..|path| - 1], ms)
  {
    OccursIff(host, path, ms);
    ElementsSlashFree(host, path);
    IndexIsFirst(Elements(host, path), ms);
  }

  /**
   * Parsing a canonical URL gives back ref, subpath and kind if and only if nothing in it is
   * mistaken for a marker: its own marker does not occur in the repository and, for a tree URL where
   * the blob marker is looked for first, that one occurs nowhere before the last segment.
   */
  lemma ParseRefRoundTripsIff(p: Provider, blob: bool, repo: seq<string>, ref: string, sub: seq<string>)
    requires (blob ==> !p.Bitbucket?) && Canonical(repo, ref, sub)
    ensures ParseRef(p, Url(p, blob, repo, ref, sub)) == Location(ref, Join(sub), blob)
      <==> Unambiguous(p, blob, repo, ref, sub)
  {
    OwnUrlReadingIff(p, blob, repo, ref, sub);
    ParsesIff(p, blob, Url(p, blob, repo, ref, sub), ref, Join(sub));
    if !blob && !p.Bitbucket? { NoBlobIff(p, repo, ref, sub); }
  }

  lemma OwnUrlReadingIff(p: Provider, blob: bool, repo: seq<string>, ref: string, sub: seq<string>)
    requires (blob ==> !p.Bitbucket?) && Canonical(repo, ref, sub)
    ensures IndexOf(Url(p, blob, repo, ref, sub), Marker(MarkerOf(p, blob))) >= 0
    ensures ReadFrom(Url(p, blob, repo, ref, sub), MarkerOf(p, blob)) == (ref, Join(sub))
      <==> !Contains(repo, MarkerOf(p, blob))
  {
    MarkersAreMarkerLike(p, blob);
    OwnReadingIff(Host(p), MarkerOf(p, blob), repo, ref, sub);
  }

  /** When a tree URL is not mistaken for a blob URL. */
  lemma NoBlobIff(p: Provider, repo: seq<string>, ref: string, sub: seq<string>)
    requires !p.Bitbucket? && Canonical(repo, ref, sub)
    ensures IndexOf(Url(p, false, repo, ref, sub), Marker(BlobMarker(p))) < 0 <==> !BlobLike(p, repo, ref, sub)
  {
    MarkersAreMarkerLike(p, true);
    MarkersAreMarkerLike(p, false);
    PathSegments(repo, TreeMarker(p), ref, sub);
    BlobIsFirst(Host(p), PathOf(repo, TreeMarker(p), ref, sub), BlobMarker(p));
  }

  /** Which reading the parse returns. */
  lemma ParsesIff(p: Provider, blob: bool, s: string, ref: string, sub: string)
    requires (blob ==> !p.Bitbucket?) && IndexOf(s, Marker(MarkerOf(p, blob))) >= 0
    ensures ParseRef(p, s) == Location(ref, sub, blob) <==>
      && ReadFrom(s, MarkerOf(p, blob)) == (ref, sub)
      && (!blob && !p.Bitbucket? ==> IndexOf(s, Marker(BlobMarker(p))) < 0)
  {
  }

  lemma {:induction false} BeforeFirstSlash(s: string)
    ensures var i := IndexOf(s, "/");
      -1 <= i < |s| && SlashFree(if i < 0 then s else s[..i])
  {
    if s != "" && s[0] != '/' {
      BeforeFirstSlash(s[1..]);
      var i := IndexOf(s[1..], "/");
      assert !("/" <= s) && s == [s[0]] + s[1..];
      assert i >= 0 ==> s[..i + 1] == [s[0]] + s[1..][..i];
    } else if s != "" {
      assert "/" <= s;
    }
  }

  /** Whatever the URL, the ref read off it has no slash: a branch such as feature/x is never given back. */
  lemma ParsedRefHasNoSlash(p: Provider, resource: string)
    ensures SlashFree(ParseRef(p, resource).ref)
  {
    forall rest ensures SlashFree(SplitRef(rest).0) {
      BeforeFirstSlash(TrimSlashes(rest));
    }
  }

  // ---- the repository ----

  datatype RepoResult = NoRepo | Repo(name: string)

  function TrimGit(s: string): string {
    if HasSuffix(s, ".git") then s[..|s| - 4] else s
  }

  /** The resource without the host, in any of the three spellings. */
  function TrimHost(p: Provider, resource: string): string {
    var a := TrimPrefix(resource, "git@" + Host(p) + ":");
    var b := TrimPrefix(a, "https:" + "/" + ("/" + Host(p) + "/"));
    TrimPrefix(b, "http:" + "/" + ("/" + Host(p) + "/"))
  }

  /** What ends the repository's part, on the hosts that look for it. */
  function TailMarker(p: Provider): seq<string> {
    match p
    case GitHub => []
    case GitLab => ["-"]
    case Bitbucket => ["src"]
  }

  function CutTail(s: string, ms: seq<string>): string {
    if ms == [] then s else
      var i := IndexOf(s, Marker(ms));
      if 0 <= i <= |s| then s[..i] else s
  }

  function RepoOf(p: Provider, resource: string): RepoResult {
    var slug := CutTail(TrimSlashes(TrimGit(TrimHost(p, resource))), TailMarker(p));
    var parts := Split(slug);
    if p.GitLab? then
      if |parts| < 2 || parts[0] == "" || Last(parts) == "" then NoRepo else Repo(slug)
    else
      if |parts| < 2 || parts[0] == "" || parts[1] == "" then NoRepo else Repo(parts[0] + "/" + parts[1])
  }

  lemma TrimHostOf(p: Provider, path: seq<string>)
    requires AllSegments(path) && |path| >= 2
    ensures TrimHost(p, Join(Elements(Host(p), path))) == Join(path)
  {
    var host, s := Host(p), Join(path);
    UrlReads(host, path);
    assert path[0] in path;
    SliceSegments(path, 1);
    JoinEnds(path[1..]);
    assert s == path[0] + "/" + Join(path[1..]);
    TrimHostReads(p, path[0], Join(path[1..]));
  }

  lemma TrimHostReads(p: Provider, first: string, rest: string)
    requires SlashFree(first) && rest != "" && rest[0] != '/'
    ensures var s := first + "/" + rest;
      TrimHost(p, "https:" + "/" + ("/" + Host(p) + "/") + s) == s
  {
    var host, s := Host(p), first + "/" + rest;
    var prefix := "https:" + "/" + ("/" + host + "/");
    var url := prefix + s;
    assert url[0] == 'h' && ("git@" + host + ":")[0] == 'g';
    assert url[|prefix|..] == s;
    SamePath("http:", first, "/" + host + "/", rest);
    assert ("/" + host + "/")[0] == '/';
  }

  lemma UrlReads(host: string, path: seq<string>)
    requires path != []
    ensures Join(Elements(host, path)) == "https:" + "/" + ("/" + host + "/") + Join(path)
  {
    var head := ["https:", "", host];
    JoinConcat(head, path);
    assert head[1..] == ["", host] && ["", host][1..] == [host];
    assert Join(["", host]) == "/" + host;
    assert Join(head) == "https:" + "/" + ("/" + host);
  }

  /** The path's elements once a final ".git" is gone, and the slash before it if nothing is left. */
  function WithoutGit(path: seq<string>): seq<string>
    requires path != []
  {
    var n := |path| - 1;
    path[..n] + (if TrimGit(path[n]) == "" then [] else [TrimGit(path[n])])
  }

  /** Trimming slashes from segments with a shorter last one, which may be empty. */
  lemma TrimShortened(front: seq<string>, t: string)
    requires AllSegments(front) && front != [] && SlashFree(t)
    ensures var elems := front + (if t == "" then [] else [t]);
      TrimSlashes(Join(front) + "/" + t) == Join(elems) && AllSegments(elems)
  {
    JoinEnds(front);
    if t == "" {
      var j := Join(front);
      assert j + "/" + t == j + "/" && (j + "/")[..|j|] == j;
      assert TrimSlashes(j + "/") == TrimSlashes(j) == j;
      assert front + [] == front;
    } else {
      JoinConcat(front, [t]);
      JoinEnds(front + [t]);
    }
  }

  lemma WithoutGitOf(path: seq<string>, front: seq<string>, last: string)
    requires path == front + [last]
    ensures WithoutGit(path) == front + (if TrimGit(last) == "" then [] else [TrimGit(last)])
  {
    assert path[..|path| - 1] == front;
  }

  lemma TrimGitOfLast(path: seq<string>, front: seq<string>, last: string)
    requires path == front + [last] && AllSegments(front) && front != [] && SlashFree(last)
    ensures TrimSlashes(TrimGit(Join(path))) == Join(WithoutGit(path)) && AllSegments(WithoutGit(path))
  {
    JoinConcat(front, [last]);
    GitSuffix(Join(front), last);
    TrimShortened(front, TrimGit(last));
    WithoutGitOf(path, front, last);
  }

  lemma TrimGitOf(path: seq<string>)
    requires AllSegments(path) && |path| >= 2
    ensures TrimSlashes(TrimGit(Join(path))) == Join(WithoutGit(path)) && AllSegments(WithoutGit(path))
  {
    var n := |path| - 1;
    FrontSegments(path, n);
    TrimGitOfLast(path, path[..n], path[n]);
  }

  lemma FrontSegments(path: seq<string>, n: nat)
    requires AllSegments(path) && n < |path|
    ensures AllSegments(path[..n]) && IsSegment(path[n]) && path[..n + 1] == path[..n] + [path[n]]
    ensures n == |path| - 1 ==> path == path[..n] + [path[n]]
  {
    assert path[n] in path && forall e :: e in path[..n] ==> e in path;
  }

  /** The suffix is the last element's or nobody's. */
  lemma GitSuffix(front: string, last: string)
    requires SlashFree(last)
    ensures TrimGit(front + "/" + last) == front + "/" + TrimGit(last)
    ensures SlashFree(TrimGit(last))
  {
    var s := front + "/" + last;
    if |last| >= 4 {
      assert s[|s| - 4..] == last[|last| - 4..];
      if HasSuffix(last, ".git") { assert s[..|s| - 4] == front + "/" + last[..|last| - 4]; }
    } else if |s| >= 4 {
      var k := 3 - |last|;
      assert s[|s| - 4..][k] == s[|front|] == '/';
      assert ".git"[k] != '/';
    }
  }

  lemma CutTailAt(elems: seq<string>, ms: seq<string>)
    requires AllSlashFree(elems) && AllSlashFree(ms) && elems != [] && ms != []
    ensures CutTail(Join(elems), ms) == Join(if FirstAt(elems, ms) < 0 then elems else elems[..FirstAt(elems, ms)])
  {
    IndexIsFirst(elems, ms);
    FirstAtIsFirst(elems, ms);
    if FirstAt(elems, ms) >= 0 { CutAt(elems, ms, FirstAt(elems, ms)); }
  }

  /** The elements before the tail marker. */
  function BeforeTail(p: Provider, elems: seq<string>): seq<string> {
    var ms := TailMarker(p);
    if ms == [] || FirstAt(elems, ms) < 0 then elems else elems[..FirstAt(elems, ms)]
  }

  /** The elements left for the repository. */
  function RepoElements(p: Provider, path: seq<string>): seq<string>
    requires path != []
  {
    BeforeTail(p, WithoutGit(path))
  }

  lemma SlugParts(p: Provider, elems: seq<string>)
    requires AllSegments(elems) && elems != []
    ensures var parts := BeforeTail(p, elems);
      && AllSegments(parts) && parts != []
      && CutTail(Join(elems), TailMarker(p)) == Join(parts) && Split(Join(parts)) == parts
  {
    var ms, parts := TailMarker(p), BeforeTail(p, elems);
    assert AllSegments(ms);
    if ms != [] { CutTailAt(elems, ms); }
    assert forall e :: e in parts ==> e in elems;
    SplitOfJoin(parts);
  }

  /** What is read off a resource once host, suffix and outer slashes are gone. */
  lemma RepoFromSlug(p: Provider, resource: string, elems: seq<string>)
    requires TrimSlashes(TrimGit(TrimHost(p, resource))) == Join(elems) && AllSegments(elems) && elems != []
    ensures var parts := BeforeTail(p, elems);
      RepoOf(p, resource) ==
        if |parts| < 2 then NoRepo else Repo(if p.GitLab? then Join(parts) else parts[0] + "/" + parts[1])
  {
    SlugParts(p, elems);
    var parts := BeforeTail(p, elems);
    assert |parts| >= 2 ==> parts[0] in parts && parts[1] in parts && Last(parts) in parts;
  }

  lemma RepoReads(p: Provider, path: seq<string>)
    requires AllSegments(path) && |path| >= 2
    ensures var parts := RepoElements(p, path);
      RepoOf(p, Join(Elements(Host(p), path))) ==
        if |parts| < 2 then NoRepo else Repo(if p.GitLab? then Join(parts) else parts[0] + "/" + parts[1])
  {
    TrimHostOf(p, path);
    TrimGitOf(path);
    RepoFromSlug(p, Join(Elements(Host(p), path)), WithoutGit(path));
  }

  /**
   * Which repositories survive: any on GitHub, and elsewhere those in which no later segment looks like
   * the tail marker.
   */
  predicate RepoUnambiguous(p: Provider, repo: seq<string>)
    requires |repo| >= 2
  {
    match p
    case GitHub => true
    case GitLab => "-" !in repo[1..]
    case Bitbucket => repo[1] != "src"
  }

  lemma FirstOf(elems: seq<string>, m: string, k: nat)
    requires 1 <= k && k + 1 < |elems| && elems[k] == m
    ensures 1 <= FirstAt(elems, [m]) <= k && elems[FirstAt(elems, [m])] == m
    ensures FirstAt(elems, [m]) == k <==> m !in elems[1..k]
  {
    FirstAtIsFirst(elems, [m]);
    var i := FirstAt(elems, [m]);
    assert StartsWith(elems[k..], [m]);
    assert elems[i..][0] == m;
    if i < k { assert elems[1..k][i - 1] == m; }
    if m in elems[1..k] {
      var j :| 0 <= j < k - 1 && elems[1..k][j] == m;
      assert elems[j + 1] == m && StartsWith(elems[j + 1..], [m]);
    }
  }

  lemma WithoutGitKeeps(path: seq<string>, k: nat)
    requires k < |path|
    ensures |WithoutGit(path)| >= k && WithoutGit(path)[..k] == path[..k]
  {
    var front := path[..|path| - 1];
    assert WithoutGit(path)[..|front|] == front;
    assert WithoutGit(path)[..k] == front[..k];
  }

  /** Whatever the marker, the elements start with the repository, and on GitLab go on with a dash. */
  lemma ElementsOf(p: Provider, blob: bool, repo: seq<string>, ref: string, sub: seq<string>)
    requires (blob ==> !p.Bitbucket?) && Canonical(repo, ref, sub)
    ensures var path := PathOf(repo, MarkerOf(p, blob), ref, sub);
      && AllSegments(path) && |path| >= |repo| + 2
      && |WithoutGit(path)| >= |repo| + 1 && WithoutGit(path)[..|repo|] == repo
      && (p.GitLab? ==> |WithoutGit(path)| >= |repo| + 2 && WithoutGit(path)[|repo|] == "-")
  {
    var ms := MarkerOf(p, blob);
    MarkersAreMarkerLike(p, blob);
    PathSegments(repo, ms, ref, sub);
    PathKeeps(repo, ms, ref, sub);
    assert p.GitLab? ==> |ms| == 2 && ms[0] == "-";
  }

  lemma PathKeeps(repo: seq<string>, ms: seq<string>, ref: string, sub: seq<string>)
    requires ms != []
    ensures var path := PathOf(repo, ms, ref, sub);
      && |path| >= |repo| + |ms| + 1
      && |WithoutGit(path)| >= |repo| + |ms| && WithoutGit(path)[..|repo|] == repo && WithoutGit(path)[|repo|] == ms[0]
  {
    var path := PathOf(repo, ms, ref, sub);
    WithoutGitKeeps(path, |repo| + |ms|);
    assert path[..|repo| + |ms|] == repo + ms;
    assert WithoutGit(path)[..|repo| + |ms|][|repo|] == ms[0];
    assert WithoutGit(path)[..|repo| + |ms|][..|repo|] == repo;
  }

  lemma DashIff(elems: seq<string>, repo: seq<string>)
    requires AllSegments(repo) && |repo| >= 2 && |elems| >= |repo| + 2
      && elems[..|repo|] == repo && elems[|repo|] == "-"
    ensures var i := FirstAt(elems, ["-"]);
      && 1 <= i <= |repo|
      && (i >= 2 && Join(elems[..i]) == Join(repo) <==> "-" !in repo[1..])
  {
    FirstOf(elems, "-", |repo|);
    assert elems[1..|repo|] == repo[1..];
    var parts := elems[..FirstAt(elems, ["-"])];
    assert parts <= repo;
    if |parts| < |repo| { ShorterJoin(repo, parts); }
  }

  lemma PairIff(p: Provider, repo: seq<string>, elems: seq<string>)
    requires !p.GitLab? && AllSegments(repo) && |repo| == 2 && |elems| >= 3 && elems[..2] == repo
    ensures var ms := TailMarker(p);
      var parts := if ms == [] || FirstAt(elems, ms) < 0 then elems else elems[..FirstAt(elems, ms)];
      |parts| >= 2 && parts[0] + "/" + parts[1] == Join(repo) <==> RepoUnambiguous(p, repo)
  {
    assert Join(repo) == repo[0] + "/" + repo[1];
    assert elems[0] == elems[..2][0] && elems[1] == elems[..2][1];
    BitbucketElements(elems, repo);
  }

  lemma RepoIff(p: Provider, repo: seq<string>, path: seq<string>)
    requires AllSegments(path) && AllSegments(repo) && |repo| >= 2
      && (!p.GitLab? ==> |repo| == 2) && |path| >= |repo| + 2
    requires |WithoutGit(path)| >= |repo| + 1 && WithoutGit(path)[..|repo|] == repo
    requires p.GitLab? ==> |WithoutGit(path)| >= |repo| + 2 && WithoutGit(path)[|repo|] == "-"
    ensures RepoOf(p, Join(Elements(Host(p), path))) == Repo(Join(repo)) <==> RepoUnambiguous(p, repo)
  {
    RepoReads(p, path);
    if p.GitLab? {
      DashIff(WithoutGit(path), repo);
    } else {
      PairIff(p, repo, WithoutGit(path));
    }
  }

  /** Parsing a canonical URL gives back the repository if and only if it is unambiguous. */
  lemma RepoRoundTripsIff(p: Provider, blob: bool, repo: seq<string>, ref: string, sub: seq<string>)
    requires (blob ==> !p.Bitbucket?) && Canonical(repo, ref, sub) && |repo| >= 2 && (!p.GitLab? ==> |repo| == 2)
    ensures RepoOf(p, Url(p, blob, repo, ref, sub)) == Repo(Join(repo)) <==> RepoUnambiguous(p, repo)
  {
    ElementsOf(p, blob, repo, ref, sub);
    RepoIff(p, repo, PathOf(repo, MarkerOf(p, blob), ref, sub));
  }

  lemma BitbucketElements(elems: seq<string>, repo: seq<string>)
    requires |elems| >= 3 && |repo| == 2 && elems[..2] == repo
    ensures FirstAt(elems, ["src"]) == 1 <==> repo[1] == "src"
    ensures FirstAt(elems, ["src"]) != 1 ==> FirstAt(elems, ["src"]) < 0 || FirstAt(elems, ["src"]) >= 2
  {
    assert elems[1..][..1] == [elems[1]];
  }

  lemma ShorterJoin(repo: seq<string>, parts: seq<string>)
    requires AllSegments(repo) && parts != [] && parts <= repo && |parts| < |repo|
    ensures Join(parts) != Join(repo)
  {
    SliceSegments(repo, 0);
    assert repo[0..] == repo;
    SplitOfJoin(repo);
    forall e | e in parts ensures SlashFree(e) { assert e in repo; }
    SplitOfJoin(parts);
  }

  // ---- URLs that are misread ----

  /** A GitHub directory called blob is taken for the marker of a file URL. */
  lemma BlobDirectoryIsMisread(repo: seq<string>, ref: string, sub: seq<string>)
    requires repo == ["org", "app"] && ref == "main" && sub == ["blob", "x"]
    ensures ParseRef(GitHub, Url(GitHub, false, repo, ref, sub)) != Location(ref, Join(sub), false)
  {
    var path := PathOf(repo, TreeMarker(GitHub), ref, sub);
    assert path == ["org", "app", "tree", "main", "blob", "x"];
    var front := path[..|path| - 1];
    assert BlobMarker(GitHub) <= front[4..];
    assert BlobLike(GitHub, repo, ref, sub);
    ParseRefRoundTripsIff(GitHub, false, repo, ref, sub);
  }

  /** A Bitbucket repository called src is taken for the marker of the tail. */
  lemma SrcRepositoryIsMisread(repo: seq<string>, ref: string)
    requires repo == ["org", "src"] && ref == "main"
    ensures RepoOf(Bitbucket, Url(Bitbucket, false, repo, ref, [])) != Repo(Join(repo))
  {
    RepoRoundTripsIff(Bitbucket, false, repo, ref, []);
  }
}
