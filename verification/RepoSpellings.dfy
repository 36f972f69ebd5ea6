/** The bare names of a repository: over SSH, HTTPS and HTTP, with or without the suffix git likes. */
module RepoSpellings {
  import opened ChartFiles
  import opened HostUrls
  import opened Markers
  import opened Paths

  datatype Spelling = Ssh | Https | Http

  function Spelled(p: Provider, spelling: Spelling): string {
    match spelling
    case Ssh => "git@" + Host(p) + ":"
    case Https => "https:" + "/" + ("/" + Host(p) + "/")
    case Http => "http:" + "/" + ("/" + Host(p) + "/")
  }

  lemma PrefixGoes(prefix: string, s: string)
    ensures TrimPrefix(prefix + s, prefix) == s
  {
  }

  /** A path of two names or more does not start like a URL. */
  lemma NoUrl(scheme: string, host: string, first: string, rest: string)
    requires SlashFree(scheme) && SlashFree(first) && rest != "" && rest[0] != '/'
    ensures !(scheme + "/" + ("/" + host + "/") <= first + "/" + rest)
  {
    SamePath(scheme, first, "/" + host + "/", rest);
    assert ("/" + host + "/")[0] == '/';
  }

  lemma OtherScheme(host: string, s: string)
    ensures !("https:" + "/" + ("/" + host + "/") <= "http:" + "/" + ("/" + host + "/") + s)
  {
    var a, b := "https:" + "/" + ("/" + host + "/"), "http:" + "/" + ("/" + host + "/") + s;
    assert a[4] == 's' && b[4] == ':';
  }

  lemma NotSsh(host: string, url: string)
    requires url != "" && url[0] == 'h'
    ensures !("git@" + host + ":" <= url)
  {
    assert ("git@" + host + ":")[0] == 'g';
  }

  /** Whichever spelling, the host is trimmed off. */
  lemma TrimHostSpelled(p: Provider, spelling: Spelling, first: string, rest: string)
    requires SlashFree(first) && rest != "" && rest[0] != '/'
    ensures var s := first + "/" + rest; TrimHost(p, Spelled(p, spelling) + s) == s
  {
    var s := first + "/" + rest;
    var prefix := Spelled(p, spelling);
    PrefixGoes(prefix, s);
    NoUrl("https:", Host(p), first, rest);
    NoUrl("http:", Host(p), first, rest);
    if spelling.Http? { OtherScheme(Host(p), s); }
    if !spelling.Ssh? {
      assert prefix[0] == 'h' && (prefix + s)[0] == prefix[0];
      NotSsh(Host(p), prefix + s);
    }
  }

  lemma SuffixGoes(s: string)
    ensures TrimGit(s + ".git") == s
  {
    var t := s + ".git";
    assert t[|t| - 4..] == ".git" && t[..|t| - 4] == s;
  }

  lemma TrimmedIsSame(s: string)
    requires s != "" && s[0] != '/' && s[|s| - 1] != '/'
    ensures TrimSlashes(s) == s
  {
  }

  /** The elements that are read, with the suffix written out or not. */
  function ReadElements(git: bool, repo: seq<string>): seq<string>
    requires repo != []
  {
    if git then repo else WithoutGit(repo)
  }

  lemma HostGoes(p: Provider, spelling: Spelling, repo: seq<string>, end: string)
    requires AllSegments(repo) && |repo| >= 2
    ensures TrimHost(p, Spelled(p, spelling) + (Join(repo) + end)) == Join(repo) + end
  {
    var rest := Join(repo[1..]);
    assert repo[0] in repo;
    SliceSegments(repo, 1);
    JoinEnds(repo[1..]);
    assert Join(repo) + end == repo[0] + "/" + (rest + end);
    TrimHostSpelled(p, spelling, repo[0], rest + end);
  }

  lemma SlugOf(p: Provider, spelling: Spelling, git: bool, repo: seq<string>)
    requires AllSegments(repo) && |repo| >= 2
    ensures TrimSlashes(TrimGit(TrimHost(p, Spelled(p, spelling) + (Join(repo) + (if git then ".git" else "")))))
      == Join(ReadElements(git, repo))
    ensures AllSegments(ReadElements(git, repo)) && ReadElements(git, repo) != []
  {
    HostGoes(p, spelling, repo, if git then ".git" else "");
    if git {
      SuffixGoes(Join(repo));
      JoinEnds(repo);
      TrimmedIsSame(Join(repo));
    } else {
      assert Join(repo) + "" == Join(repo);
      TrimGitOf(repo);
    }
  }

  lemma WithoutGitIff(repo: seq<string>)
    requires repo != [] && IsSegment(Last(repo))
    ensures WithoutGit(repo) == repo <==> !HasSuffix(Last(repo), ".git")
  {
    var n := |repo| - 1;
    assert repo == repo[..n] + [repo[n]];
    if HasSuffix(repo[n], ".git") {
      assert |TrimGit(repo[n])| < |repo[n]|;
      assert |WithoutGit(repo)| == |repo| ==> WithoutGit(repo)[n] == TrimGit(repo[n]);
    }
  }

  /** The name does not look like one with a suffix, unless that is written out, nor, on GitLab, like a URL's tail. */
  predicate Unmistakable(p: Provider, git: bool, repo: seq<string>)
    requires |repo| >= 2
  {
    && (git || !HasSuffix(Last(repo), ".git"))
    && (p.GitLab? ==> "-" !in repo[1..|repo| - 1])
  }

  lemma NoTailInPair(p: Provider, elems: seq<string>)
    requires !p.GitLab? && |elems| <= 2
    ensures BeforeTail(p, elems) == elems
  {
    if p.Bitbucket? { FirstAtIsFirst(elems, ["src"]); }
  }

  lemma TailIff(elems: seq<string>)
    requires elems != []
    ensures BeforeTail(GitLab, elems) == elems <==> |elems| < 2 || "-" !in elems[1..|elems| - 1]
    ensures BeforeTail(GitLab, elems) <= elems
  {
    FirstAtIsFirst(elems, ["-"]);
    var i := FirstAt(elems, ["-"]);
    if i >= 0 {
      assert elems[i..][..1] == ["-"] && elems[i] == elems[i..][0];
      assert elems[1..|elems| - 1][i - 1] == "-";
    } else if |elems| >= 2 && "-" in elems[1..|elems| - 1] {
      var j :| 0 <= j < |elems| - 2 && elems[1..|elems| - 1][j] == "-";
      assert elems[j + 1..][..1] == ["-"];
    }
  }

  /** The elements read are the repository's exactly if its name is plain. */
  lemma ReadsRepoIff(p: Provider, git: bool, repo: seq<string>)
    requires AllSegments(repo) && |repo| >= 2 && (!p.GitLab? ==> |repo| == 2)
    ensures BeforeTail(p, ReadElements(git, repo)) == repo <==> Unmistakable(p, git, repo)
    ensures BeforeTail(p, ReadElements(git, repo)) <= ReadElements(git, repo)
  {
    var elems := ReadElements(git, repo);
    assert Last(repo) in repo;
    WithoutGitIff(repo);
    if p.GitLab? {
      TailIff(elems);
    } else {
      NoTailInPair(p, elems);
    }
  }

  lemma JoinTellsApart(a: seq<string>, b: seq<string>)
    requires AllSegments(a) && AllSegments(b) && a != [] && b != []
    ensures Join(a) == Join(b) <==> a == b
  {
    SplitOfJoin(a);
    SplitOfJoin(b);
  }

  /** A bare name, in any spelling, gives back the repository if and only if it is plain. */
  lemma BareNameRoundTripsIff(p: Provider, spelling: Spelling, git: bool, repo: seq<string>)
    requires AllSegments(repo) && |repo| >= 2 && (!p.GitLab? ==> |repo| == 2)
    ensures RepoOf(p, Spelled(p, spelling) + (Join(repo) + (if git then ".git" else ""))) == Repo(Join(repo))
      <==> Unmistakable(p, git, repo)
  {
    var elems := ReadElements(git, repo);
    var resource, parts := Spelled(p, spelling) + (Join(repo) + (if git then ".git" else "")), BeforeTail(p, elems);
    SlugOf(p, spelling, git, repo);
    RepoFromSlug(p, resource, elems);
    ReadsRepoIff(p, git, repo);
    assert forall e :: e in parts ==> e in elems;
    if |parts| >= 2 {
      JoinTellsApart(parts, repo);
      if !p.GitLab? {
        assert parts[1..] == [parts[1]] && Join(parts) == parts[0] + "/" + parts[1];
      }
    }
  }

  // ---- the ref ----

  lemma MarkedIff(p: Provider, repo: seq<string>, ms: seq<string>)
    requires AllSegments(repo) && repo != [] && MarkerLike(Host(p), ms)
    ensures var s := Join(Elements(Host(p), repo));
      && (IndexOf(s, Marker(ms)) >= 0 <==> Contains(repo[..|repo| - 1], ms))
      && (IndexOf(s, Marker(ms)) >= 0 ==> ReadFrom(s, ms).0 != "")
  {
    var elems := Elements(Host(p), repo);
    BlobIsFirst(Host(p), repo, ms);
    OccursIff(Host(p), repo, ms);
    if Contains(repo[..|repo| - 1], ms) {
      FirstAtIsFirst(elems, ms);
      var i := FirstAt(elems, ms);
      FoundInPath(Host(p), repo, ms, i);
      ReadPath(Host(p), repo, ms, i - 3);
      assert repo[i - 3 + |ms|] in repo;
    }
  }

  /** A bare URL has neither ref nor subpath exactly if nothing in it before its last name looks like a marker. */
  lemma BareUrlHasNoRefIff(p: Provider, repo: seq<string>)
    requires AllSegments(repo) && repo != []
    ensures ParseRef(p, Join(Elements(Host(p), repo))) == Location("", "", false) <==>
      && !Contains(repo[..|repo| - 1], TreeMarker(p))
      && (!p.Bitbucket? ==> !Contains(repo[..|repo| - 1], BlobMarker(p)))
  {
    MarkersAreMarkerLike(p, false);
    MarkedIff(p, repo, TreeMarker(p));
    if !p.Bitbucket? {
      MarkersAreMarkerLike(p, true);
      MarkedIff(p, repo, BlobMarker(p));
    }
  }
}
