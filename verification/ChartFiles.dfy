/** A git-hosted chart: its member list, made relative in one package and re-resolved in another. */
module ChartFiles {
  import opened Paths

  datatype Provider = GitHub | GitLab | Bitbucket

  /** The URL path a provider serves a file's raw content under. */
  function RawPath(provider: Provider, repo: string, ref: string, path: string): string {
    match provider
    case GitHub => "/" + repo + "/" + ref + "/" + path
    case GitLab => "/" + repo + "/-/raw/" + ref + "/" + path
    case Bitbucket => "/" + repo + "/raw/" + ref + "/" + path
  }

  const CHART_YAML := "Chart.yaml"

  predicate HasSuffix(s: string, suffix: string) {
    |suffix| <= |s| && s[|s| - |suffix|..] == suffix
  }

  /** The files of a chart that helm renders, by chart-relative path. */
  predicate IsChartFile(rel: string) {
    || rel == "values.yaml" || rel == "values.schema.json" || rel == "Chart.lock" || rel == ".helmignore"
    || HasSuffix(rel, ".tpl")
    || "templates/" <= rel || "charts/" <= rel || "crds/" <= rel
  }

  function TrimPrefix(s: string, prefix: string): string {
    if prefix <= s then s[|prefix|..] else s
  }

  /** path belongs to the chart at dir and is fetched with it. */
  predicate IsMember(dir: string, path: string) {
    && dir + "/" <= path
    && path != dir + "/" + CHART_YAML
    && IsChartFile(path[|dir| + 1..])
  }

  /** The chart's member paths in tree order. */
  function MemberPaths(dir: string, paths: seq<string>): seq<string> {
    if paths == [] then []
    else (if IsMember(dir, paths[0]) then [paths[0]] else []) + MemberPaths(dir, paths[1..])
  }

  /** The paths with the chart directory stripped. */
  function Relative(dir: string, members: seq<string>): seq<string> {
    seq(|members|, i requires 0 <= i < |members| => TrimPrefix(members[i], dir + "/"))
  }

  lemma {:induction false} MembersAreBelow(dir: string, paths: seq<string>)
    ensures forall m :: m in MemberPaths(dir, paths) ==> IsMember(dir, m) && m in paths
  {
    if paths != [] {
      MembersAreBelow(dir, paths[1..]);
    }
  }

  lemma {:induction false} OneMorePath(dir: string, paths: seq<string>, i: nat)
    requires i < |paths|
    ensures MemberPaths(dir, paths[..i + 1])
      == MemberPaths(dir, paths[..i]) + (if IsMember(dir, paths[i]) then [paths[i]] else [])
  {
    if i == 0 {
      assert paths[..1] == [paths[0]] && paths[..1][1..] == [] && paths[..0] == [];
    } else {
      assert paths[..i + 1][1..] == paths[1..][..i] && paths[..i][1..] == paths[1..][..i - 1];
      OneMorePath(dir, paths[1..], i - 1);
    }
  }

  /** chartResolution's loop: the members with the chart directory stripped. */
  method ChartMembers(dir: string, paths: seq<string>) returns (files: seq<string>)
    ensures files == Relative(dir, MemberPaths(dir, paths))
  {
    files := [];
    var prefix := dir + "/";
    for i := 0 to |paths|
      invariant files == Relative(dir, MemberPaths(dir, paths[..i]))
    {
      OneMorePath(dir, paths, i);
      var path := paths[i];
      var rel := TrimPrefix(path, prefix);
      if prefix <= path { assert path == prefix + path[|prefix|..]; }
      if rel != path && rel != CHART_YAML && IsChartFile(rel) {
        files := files + [rel];
      }
    }
    assert paths[..|paths|] == paths;
  }

  // ---- discovery ----

  datatype Fetched = Missing | Found(content: string) | FetchError

  datatype ChartFile = ChartFile(name: string, content: string)

  datatype Discovery = Discovery(requests: seq<string>, files: seq<ChartFile>) | Failed

  /** The names resolved against the chart's path, in order. */
  function Resolved(chart: string, names: seq<string>): seq<string> {
    if names == [] then [] else
      Resolved(chart, names[..|names| - 1]) + [ResolvePath(chart, names[|names| - 1])]
  }

  /** The paths fetched: Chart.yaml, then every name. */
  function Requests(chart: string, names: seq<string>): seq<string> {
    [chart] + Resolved(chart, names)
  }

  lemma {:induction false} ResolvedAt(chart: string, names: seq<string>, i: nat)
    requires i < |names|
    ensures |Resolved(chart, names)| == |names| && Resolved(chart, names)[i] == ResolvePath(chart, names[i])
  {
    if |names| > 1 {
      ResolvedAt(chart, names[..|names| - 1], if i < |names| - 1 then i else 0);
    }
  }

  lemma ResolvedAre(chart: string, names: seq<string>, urls: seq<string>)
    requires |names| == |urls| && forall i :: 0 <= i < |names| ==> ResolvePath(chart, names[i]) == urls[i]
    ensures Resolved(chart, names) == urls
  {
    forall i | 0 <= i < |names|
      ensures |Resolved(chart, names)| == |urls| && Resolved(chart, names)[i] == urls[i]
    {
      ResolvedAt(chart, names, i);
    }
  }

  function FilesFound(fetch: string -> Fetched, chart: string, names: seq<string>): seq<ChartFile> {
    if names == [] then [] else
      var n := |names| - 1;
      var content := fetch(ResolvePath(chart, names[n]));
      FilesFound(fetch, chart, names[..n]) + (if content.Found? then [ChartFile(names[n], content.content)] else [])
  }

  /** Discover's member loop; conventional names are probed when no member list is known. */
  method Discover(fetch: string -> Fetched, chart: string, members: seq<string>, conventional: seq<string>)
      returns (r: Discovery)
    ensures var names := if members == [] then conventional else members;
      var fails := exists u :: u in Requests(chart, names) && fetch(u).FetchError?;
      r == if !fetch(chart).Found? || fails then Failed
           else Discovery(Requests(chart, names),
                          [ChartFile(CHART_YAML, fetch(chart).content)] + FilesFound(fetch, chart, names))
  {
    var chartYaml := fetch(chart);
    if !chartYaml.Found? { return Failed; }
    var probe := members;
    if |probe| == 0 { probe := conventional; }
    var files: seq<ChartFile>, requests: seq<string> := [], [];
    for i := 0 to |probe|
      invariant requests == Resolved(chart, probe[..i])
      invariant forall u :: u in requests ==> !fetch(u).FetchError?
      invariant files == FilesFound(fetch, chart, probe[..i])
    {
      var u := ResolvePath(chart, probe[i]);
      assert probe[..i + 1][..i] == probe[..i];
      var content := fetch(u);
      if content.FetchError? {
        ResolvedAt(chart, probe, i);
        assert u in Requests(chart, probe);
        return Failed;
      }
      requests := requests + [u];
      if content.Found? {
        files := files + [ChartFile(probe[i], content.content)];
      }
    }
    assert probe[..|probe|] == probe;
    return Discovery([chart] + requests, [ChartFile(CHART_YAML, chartYaml.content)] + files);
  }

  // ---- stripping, then resolving, is the identity ----

  /** What stands between the repository and the ref. */
  function RawMiddle(provider: Provider): seq<string> {
    match provider
    case GitHub => []
    case GitLab => ["-", "raw"]
    case Bitbucket => ["raw"]
  }

  function RawPrefix(provider: Provider, repo: string, ref: string): seq<string> {
    Split(repo) + RawMiddle(provider) + Split(ref)
  }

  lemma JoinOfParts(front: seq<string>, rest: string)
    requires front != []
    ensures Join(front + Split(rest)) == Join(front) + "/" + rest
  {
    JoinConcat(front, Split(rest));
    JoinOfSplit(rest);
  }

  /** The repository and what follows it, up to the ref. */
  lemma RawFront(provider: Provider, repo: string)
    ensures Join(Split(repo) + RawMiddle(provider)) ==
      match provider case GitHub => repo case GitLab => repo + "/-/raw" case Bitbucket => repo + "/raw"
  {
    JoinOfSplit(repo);
    match provider
    case GitHub =>
      assert Split(repo) + [] == Split(repo);
    case GitLab =>
      JoinConcat(Split(repo), ["-", "raw"]);
      assert ["-", "raw"][1..] == ["raw"];
      assert Join(["-", "raw"]) == "-/raw";
      assert repo + "/" + "-/raw" == repo + "/-/raw";
    case Bitbucket =>
      JoinConcat(Split(repo), ["raw"]);
      assert repo + "/" + "raw" == repo + "/raw";
  }

  /** The raw path is the prefix's segments followed by the file's. */
  lemma RawPathSegments(provider: Provider, repo: string, ref: string, path: string)
    ensures RawPath(provider, repo, ref, path) == Absolute(RawPrefix(provider, repo, ref) + Split(path), false)
  {
    var front := Split(repo) + RawMiddle(provider);
    RawFront(provider, repo);
    JoinOfParts(front, ref);
    JoinOfParts(front + Split(ref), path);
    RawPathReads(provider, repo, ref, path);
    Regroup(Join(front), ref, path);
  }

  lemma Regroup(a: string, b: string, c: string)
    ensures "/" + (a + "/" + b + "/" + c) + "" == "/" + a + "/" + b + "/" + c
  {
  }

  lemma SlashGroups(a: string, m: string)
    ensures "/" + a + (m + "/") == "/" + (a + m) + "/"
  {
  }

  lemma RawPathReads(provider: Provider, repo: string, ref: string, path: string)
    ensures RawPath(provider, repo, ref, path) == "/" + Join(Split(repo) + RawMiddle(provider)) + "/" + ref + "/" + path
  {
    RawFront(provider, repo);
    match provider
    case GitHub =>
    case GitLab =>
      SlashGroups(repo, "/-/raw");
      assert "/-/raw" + "/" == "/-/raw/";
    case Bitbucket =>
      SlashGroups(repo, "/raw");
      assert "/raw" + "/" == "/raw/";
  }

  /** What each host puts in front of a file in a repository o and a ref r. */
  lemma RawPathsWrittenOut(path: string)
    ensures RawPath(GitHub, "o", "r", path) == "/o/r/" + path
    ensures RawPath(GitLab, "o", "r", path) == "/o/-/raw/r/" + path
    ensures RawPath(Bitbucket, "o", "r", path) == "/o/raw/r/" + path
  {
    assert "/" + "o" + "/" + "r" + "/" == "/o/r/";
    assert "/" + "o" + "/-/raw/" + "r" + "/" == "/o/-/raw/r/";
    assert "/" + "o" + "/raw/" + "r" + "/" == "/o/raw/r/";
  }

  lemma PlainPrefix(provider: Provider, repo: string, ref: string)
    requires AllPlain(Split(repo)) && AllPlain(Split(ref))
    ensures AllPlain(RawPrefix(provider, repo, ref))
  {
    assert IsPlain("-") && IsPlain("raw");
  }

  lemma BelowSplits(dir: string, rel: string)
    requires AllPlain(Split(dir + "/" + rel))
    ensures Split(dir + "/" + rel) == Split(dir) + Split(rel) && AllPlain(Split(dir)) && AllPlain(Split(rel))
  {
    SplitAtSlash(dir, rel);
    forall e | e in Split(dir) || e in Split(rel) ensures IsPlain(e) {
      assert e in Split(dir) + Split(rel);
    }
  }

  lemma BesideSteps(dir: seq<string>, file: string, rel: string)
    requires AllPlain(dir) && SlashFree(file) && AllPlain(Split(rel))
    ensures Steps(Absolute(dir + [file], false), rel) == dir + Split(rel)
  {
    var elems := dir + [file];
    var name := Join(elems);
    assert Absolute(elems, false) == "/" + name;
    SplitOfJoin(elems);
    RelStarts(rel);
    RelativeSteps(name, rel);
    assert elems[..|elems| - 1] == dir;
  }

  /** Resolving a plain name against a plain file's path replaces the file. */
  lemma ResolveBeside(dir: seq<string>, file: string, rel: string)
    requires AllPlain(dir) && SlashFree(file) && AllPlain(Split(rel))
    ensures ResolvePath(Absolute(dir + [file], false), rel) == Absolute(dir + Split(rel), false)
  {
    BesideSteps(dir, file, rel);
    PlainStepsResolve(Absolute(dir + [file], false), rel);
  }

  lemma RelStarts(rel: string)
    requires AllPlain(Split(rel))
    ensures rel != "" && !Rooted(rel)
  {
    assert Split(rel)[0] in Split(rel);
  }

  /** A file's sibling-relative name, resolved against that file's path below any prefix. */
  lemma SiblingResolves(prefix: seq<string>, dir: string, file: string, rel: string)
    requires AllPlain(prefix) && AllPlain(Split(dir + "/" + rel)) && SlashFree(file)
    ensures ResolvePath(Absolute(prefix + Split(dir + "/" + file), false), rel)
      == Absolute(prefix + Split(dir + "/" + rel), false)
  {
    BelowSplits(dir, rel);
    SplitAtSlash(dir, file);
    SplitOfSlashFree(file);
    assert prefix + (Split(dir) + [file]) == prefix + Split(dir) + [file];
    assert prefix + (Split(dir) + Split(rel)) == prefix + Split(dir) + Split(rel);
    ResolveBeside(prefix + Split(dir), file, rel);
  }

  /** One member: resolving its relative name against the chart's URL gives its own raw URL. */
  lemma MemberResolves(provider: Provider, repo: string, ref: string, dir: string, file: string, rel: string)
    requires AllPlain(Split(repo)) && AllPlain(Split(ref)) && AllPlain(Split(dir + "/" + rel)) && SlashFree(file)
    ensures ResolvePath(RawPath(provider, repo, ref, dir + "/" + file), rel)
      == RawPath(provider, repo, ref, dir + "/" + rel)
  {
    PlainPrefix(provider, repo, ref);
    RawPathSegments(provider, repo, ref, dir + "/" + file);
    RawPathSegments(provider, repo, ref, dir + "/" + rel);
    SiblingResolves(RawPrefix(provider, repo, ref), dir, file, rel);
  }

  /** Repository, ref and paths have no dot or empty segments. */
  ghost predicate PlainTree(repo: string, ref: string, paths: seq<string>) {
    AllPlain(Split(repo)) && AllPlain(Split(ref)) && forall p :: p in paths ==> AllPlain(Split(p))
  }

  lemma MemberIsFetched(provider: Provider, repo: string, ref: string, dir: string, paths: seq<string>, i: nat)
    requires PlainTree(repo, ref, paths) && i < |MemberPaths(dir, paths)|
    ensures var members := MemberPaths(dir, paths);
      ResolvePath(RawPath(provider, repo, ref, dir + "/" + CHART_YAML), Relative(dir, members)[i])
        == RawPath(provider, repo, ref, members[i])
  {
    var member := MemberPaths(dir, paths)[i];
    MembersAreBelow(dir, paths);
    assert member in MemberPaths(dir, paths);
    PrefixAndRest(member, dir + "/");
    MemberResolves(provider, repo, ref, dir, CHART_YAML, TrimPrefix(member, dir + "/"));
  }

  lemma PrefixAndRest(s: string, prefix: string)
    requires prefix <= s
    ensures s == prefix + TrimPrefix(s, prefix)
  {
  }

  /**
   * In such a tree the requests for the stripped members are the raw URL of Chart.yaml and then the raw
   * URLs of exactly the chart's accepted member paths, in tree order.
   */
  lemma DiscoveryFetchesMembers(provider: Provider, repo: string, ref: string, dir: string, paths: seq<string>)
    requires PlainTree(repo, ref, paths)
    ensures var members := MemberPaths(dir, paths);
      Requests(RawPath(provider, repo, ref, dir + "/" + CHART_YAML), Relative(dir, members))
        == [RawPath(provider, repo, ref, dir + "/" + CHART_YAML)]
           + seq(|members|, i requires 0 <= i < |members| => RawPath(provider, repo, ref, members[i]))
  {
    var members, chart := MemberPaths(dir, paths), RawPath(provider, repo, ref, dir + "/" + CHART_YAML);
    var urls := seq(|members|, i requires 0 <= i < |members| => RawPath(provider, repo, ref, members[i]));
    forall i | 0 <= i < |members| ensures ResolvePath(chart, Relative(dir, members)[i]) == urls[i] {
      MemberIsFetched(provider, repo, ref, dir, paths, i);
    }
    ResolvedAre(chart, Relative(dir, members), urls);
  }

  /** The names found, in list order and as often as they are listed. */
  function FoundNames(fetch: string -> Fetched, chart: string, names: seq<string>): seq<string> {
    if names == [] then [] else
      var n := |names| - 1;
      FoundNames(fetch, chart, names[..n]) + (if fetch(ResolvePath(chart, names[n])).Found? then [names[n]] else [])
  }

  function NamesOf(files: seq<ChartFile>): seq<string> {
    seq(|files|, i requires 0 <= i < |files| => files[i].name)
  }

  lemma NamesOfOneMore(files: seq<ChartFile>, f: ChartFile)
    ensures NamesOf(files + [f]) == NamesOf(files) + [f.name]
  {
  }

  /** The loaded files go by the listed names: those that are found, in list order. */
  lemma {:induction false} FilesGoByTheirNames(fetch: string -> Fetched, chart: string, names: seq<string>)
    ensures NamesOf(FilesFound(fetch, chart, names)) == FoundNames(fetch, chart, names)
  {
    if names != [] {
      var n := |names| - 1;
      FilesGoByTheirNames(fetch, chart, names[..n]);
      var content, front := fetch(ResolvePath(chart, names[n])), FilesFound(fetch, chart, names[..n]);
      if content.Found? {
        NamesOfOneMore(front, ChartFile(names[n], content.content));
      } else {
        assert front + [] == front;
      }
    }
  }

  /** A file is loaded exactly if its name is listed and its URL serves its content. */
  lemma {:induction false} LoadedIff(fetch: string -> Fetched, chart: string, names: seq<string>, f: ChartFile)
    ensures f in FilesFound(fetch, chart, names)
      <==> f.name in names && fetch(ResolvePath(chart, f.name)) == Found(f.content)
  {
    if names != [] {
      var n := |names| - 1;
      LoadedIff(fetch, chart, names[..n], f);
      assert names == names[..n] + [names[n]];
    }
  }

  /** A path is a member exactly if it is listed and lies below the chart directory as something the chart needs. */
  lemma {:induction false} MembersIff(dir: string, paths: seq<string>, path: string)
    ensures path in MemberPaths(dir, paths) <==>
      path in paths && exists rel :: path == dir + "/" + rel && rel != "Chart.yaml" && IsChartFile(rel)
  {
    MembersAreBelow(dir, paths);
    if path in MemberPaths(dir, paths) {
      PrefixAndRest(path, dir + "/");
      var rel := path[|dir| + 1..];
      assert path == dir + "/" + rel;
    }
    if path in paths && exists rel :: path == dir + "/" + rel && rel != "Chart.yaml" && IsChartFile(rel) {
      var rel :| path == dir + "/" + rel && rel != "Chart.yaml" && IsChartFile(rel);
      assert path[|dir| + 1..] == rel && dir + "/" <= path;
      MemberIsListed(dir, paths, path);
    }
  }

  lemma {:induction false} MemberIsListed(dir: string, paths: seq<string>, path: string)
    requires path in paths && IsMember(dir, path)
    ensures path in MemberPaths(dir, paths)
  {
    if path != paths[0] { MemberIsListed(dir, paths[1..], path); }
  }

  /** Listing order and multiplicity are kept. */
  lemma {:induction false} MembersOfSum(dir: string, a: seq<string>, b: seq<string>)
    ensures MemberPaths(dir, a + b) == MemberPaths(dir, a) + MemberPaths(dir, b)
  {
    if a == [] {
      assert a + b == b;
    } else {
      var s := a + b;
      assert s[0] == a[0] && s[1..] == a[1..] + b;
      MembersOfSum(dir, a[1..], b);
      var head := if IsMember(dir, a[0]) then [a[0]] else [];
      var rest := MemberPaths(dir, a[1..]);
      assert head + (rest + MemberPaths(dir, b)) == head + rest + MemberPaths(dir, b);
    }
  }

  lemma MembersOfOne(dir: string, path: string)
    ensures MemberPaths(dir, [path]) == if IsMember(dir, path) then [path] else []
  {
    assert [path][1..] == [];
  }

  lemma SuffixIff(s: string, suffix: string)
    ensures HasSuffix(s, suffix) <==> exists front :: front + suffix == s
  {
    if HasSuffix(s, suffix) {
      assert s[..|s| - |suffix|] + suffix == s;
    }
  }

  lemma PrefixIff(s: string, prefix: string)
    ensures prefix <= s <==> exists rest :: prefix + rest == s
  {
    if prefix <= s {
      assert prefix + s[|prefix|..] == s;
    }
  }

  /** What is fetched besides Chart.yaml: four files, templates by extension, and three directories. */
  lemma IsChartFileIff(rel: string)
    ensures IsChartFile(rel) <==>
      || rel in ["values.yaml", "values.schema.json", "Chart.lock", ".helmignore"]
      || (exists front :: front + ".tpl" == rel)
      || (exists rest :: "templates/" + rest == rel)
      || (exists rest :: "charts/" + rest == rel)
      || (exists rest :: "crds/" + rest == rel)
  {
    SuffixIff(rel, ".tpl");
    PrefixIff(rel, "templates/");
    PrefixIff(rel, "charts/");
    PrefixIff(rel, "crds/");
  }

  /** Chart.yaml and the listed names that are found, in list order, each with what its own URL serves. */
  ghost predicate AreLoaded(fetch: string -> Fetched, chart: string, names: seq<string>, files: seq<ChartFile>) {
    && NamesOf(files) == ["Chart.yaml"] + FoundNames(fetch, chart, names)
    && forall f :: f in files <==>
         || (f.name == "Chart.yaml" && fetch(chart) == Found(f.content))
         || (f.name in names && fetch(ResolvePath(chart, f.name)) == Found(f.content))
  }

  lemma NamesWithFirst(first: ChartFile, rest: seq<ChartFile>)
    ensures NamesOf([first] + rest) == [first.name] + NamesOf(rest)
  {
  }

  lemma LoadedFiles(fetch: string -> Fetched, chart: string, names: seq<string>)
    ensures fetch(chart).Found? ==>
      AreLoaded(fetch, chart, names, [ChartFile(CHART_YAML, fetch(chart).content)] + FilesFound(fetch, chart, names))
  {
    if fetch(chart).Found? {
      var first, rest := ChartFile(CHART_YAML, fetch(chart).content), FilesFound(fetch, chart, names);
      FilesGoByTheirNames(fetch, chart, names);
      NamesWithFirst(first, rest);
      forall f ensures f in [first] + rest <==>
        || (f.name == "Chart.yaml" && fetch(chart) == Found(f.content))
        || (f.name in names && fetch(ResolvePath(chart, f.name)) == Found(f.content))
      {
        LoadedIff(fetch, chart, names, f);
        assert f in [first] + rest <==> f == first || f in rest;
      }
    }
  }

  /**
   * The chart of a git tree, from listing its members to fetching them. When discovery succeeds on a
   * tree of plain paths with members, it has fetched the raw URL of Chart.yaml and then the raw URLs of
   * exactly the members, in tree order; without members it has probed the conventional names.
   */
  method DiscoverInTree(fetch: string -> Fetched, provider: Provider, repo: string, ref: string, dir: string,
                        paths: seq<string>, conventional: seq<string>) returns (r: Discovery)
    ensures var members, chart := MemberPaths(dir, paths), RawPath(provider, repo, ref, dir + "/" + CHART_YAML);
      r.Discovery? ==>
        if members == [] then r.requests == Requests(chart, conventional)
        else PlainTree(repo, ref, paths) ==>
          r.requests == [chart]
            + seq(|members|, i requires 0 <= i < |members| => RawPath(provider, repo, ref, members[i]))
    ensures var members, chart := MemberPaths(dir, paths), RawPath(provider, repo, ref, dir + "/" + CHART_YAML);
      var names := if members == [] then conventional else Relative(dir, members);
      r.Failed? <==> !fetch(chart).Found? || exists u :: u in Requests(chart, names) && fetch(u).FetchError?
    ensures var members, chart := MemberPaths(dir, paths), RawPath(provider, repo, ref, dir + "/" + CHART_YAML);
      var names := if members == [] then conventional else Relative(dir, members);
      r.Discovery? ==> fetch(chart).Found? && AreLoaded(fetch, chart, names, r.files)
  {
    var members := ChartMembers(dir, paths);
    if PlainTree(repo, ref, paths) { DiscoveryFetchesMembers(provider, repo, ref, dir, paths); }
    var chart := RawPath(provider, repo, ref, dir + "/" + CHART_YAML);
    LoadedFiles(fetch, chart, if members == [] then conventional else members);
    r := Discover(fetch, chart, members, conventional);
  }
}
