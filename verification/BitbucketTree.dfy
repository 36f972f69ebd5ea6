/** Listing a Bitbucket repository: a queue walk over directories and their result pages. */
module BitbucketTree {

  /** One entry of a page; entries of other types are skipped. */
  datatype Entry = CommitFile(path: string) | CommitDirectory(path: string) | OtherEntry(path: string)

  /** A page of results; an empty next link ends the directory. */
  datatype Page = Page(values: seq<Entry>, next: string)

  /** Responses by URL; a missing URL is a failed request. */
  type Api = map<string, Page>

  /** The repository itself: a directory is a listing spread over pages. */
  datatype Node = File(path: string) | Directory(path: string, listing: Listing) | Other(path: string)
  datatype Listing = LastPage(items: seq<Node>) | MorePages(items: seq<Node>, next: string, rest: Listing)

  function DirectoryUrl(repo: string, ref: string, path: string): string {
    "https://api.bitbucket.org/2.0/repositories/" + repo + "/src/" + ref + "/" + path + "?pagelen=100"
  }

  lemma DirectoryUrlWrittenOut(path: string)
    ensures DirectoryUrl("o", "r", path)
      == "https://api.bitbucket.org/2.0/repositories/o/src/r/" + path + "?pagelen=100"
  {
    var front := "https://api.bitbucket.org/2.0/repositories/";
    assert front + "o" + "/src/" + "r" + "/" == "https://api.bitbucket.org/2.0/repositories/o/src/r/";
  }

  /** Different directories are listed at different URLs. */
  lemma DirectoryUrlsDiffer(repo: string, ref: string, a: string, b: string)
    ensures DirectoryUrl(repo, ref, a) == DirectoryUrl(repo, ref, b) <==> a == b
  {
    var front := "https://api.bitbucket.org/2.0/repositories/" + repo + "/src/" + ref + "/";
    var end := "?pagelen=100";
    assert (front + a + end)[|front|..|front| + |a|] == a;
    assert |a| == |b| ==> (front + b + end)[|front|..|front| + |a|] == b;
  }

  function EntryOf(n: Node): Entry {
    match n
    case File(p) => CommitFile(p)
    case Directory(p, _) => CommitDirectory(p)
    case Other(p) => OtherEntry(p)
  }

  function PageOf(l: Listing): Page {
    Page(seq(|l.items|, i requires 0 <= i < |l.items| => EntryOf(l.items[i])), if l.MorePages? then l.next else "")
  }

  /** Every response the API does give for a page of the listing is that page. */
  ghost predicate Describes(api: Api, repo: string, ref: string, url: string, l: Listing)
    decreases l, 1
  {
    && (url in api ==> api[url] == PageOf(l))
    && DescribesItems(api, repo, ref, l.items)
    && (l.MorePages? ==> l.next != "" && Describes(api, repo, ref, l.next, l.rest))
  }

  ghost predicate DescribesItems(api: Api, repo: string, ref: string, items: seq<Node>)
    decreases items, 0
  {
    items == [] ||
    (&& (items[0].Directory? ==> Describes(api, repo, ref, DirectoryUrl(repo, ref, items[0].path), items[0].listing))
     && DescribesItems(api, repo, ref, items[1..]))
  }

  /** Every page of the listing is served. */
  ghost predicate Served(api: Api, repo: string, ref: string, url: string, l: Listing)
    decreases l, 1
  {
    url in api && ServedItems(api, repo, ref, l.items) && (l.MorePages? ==> Served(api, repo, ref, l.next, l.rest))
  }

  ghost predicate ServedItems(api: Api, repo: string, ref: string, items: seq<Node>)
    decreases items, 0
  {
    items == [] ||
    (&& (items[0].Directory? ==> Served(api, repo, ref, DirectoryUrl(repo, ref, items[0].path), items[0].listing))
     && ServedItems(api, repo, ref, items[1..]))
  }

  /** The recursive listing: every file below, directory by directory. */
  function Listed(l: Listing): seq<string>
    decreases l, 1
  {
    ListedItems(l.items) + (if l.MorePages? then Listed(l.rest) else [])
  }

  function ListedItems(items: seq<Node>): seq<string>
    decreases items, 0
  {
    if items == [] then [] else
      (match items[0]
       case File(p) => [p]
       case Directory(_, sub) => Listed(sub)
       case Other(_) => []) + ListedItems(items[1..])
  }

  function PageCount(l: Listing): nat
    decreases l, 1
  {
    1 + PageCountItems(l.items) + (if l.MorePages? then PageCount(l.rest) else 0)
  }

  function PageCountItems(items: seq<Node>): nat
    decreases items, 0
  {
    if items == [] then 0
    else (if items[0].Directory? then PageCount(items[0].listing) else 0) + PageCountItems(items[1..])
  }

  /** A directory's entries, page after page. */
  function AllItems(l: Listing): seq<Node> {
    l.items + (if l.MorePages? then AllItems(l.rest) else [])
  }

  lemma Regroup(a: seq<string>, b: seq<string>, c: seq<string>)
    ensures a + (b + c) == a + b + c
  {
  }

  lemma ListedFirst(items: seq<Node>)
    requires items != []
    ensures ListedItems(items) == ListedItems([items[0]]) + ListedItems(items[1..])
  {
    assert [items[0]][1..] == [] && ListedItems([]) == [];
  }

  lemma {:induction false} ListedItemsOfSum(a: seq<Node>, b: seq<Node>)
    ensures ListedItems(a + b) == ListedItems(a) + ListedItems(b)
  {
    if a == [] {
      assert a + b == b;
    } else {
      var s := a + b;
      assert s[0] == a[0] && s[1..] == a[1..] + b;
      ListedItemsOfSum(a[1..], b);
      ListedFirst(s);
      ListedFirst(a);
      Regroup(ListedItems([a[0]]), ListedItems(a[1..]), ListedItems(b));
    }
  }

  /** How a directory is split into pages makes no difference to what it lists. */
  lemma {:induction false} PagesMakeNoDifference(l: Listing)
    ensures Listed(l) == ListedItems(AllItems(l))
  {
    if l.MorePages? {
      PagesMakeNoDifference(l.rest);
      ListedItemsOfSum(l.items, AllItems(l.rest));
    } else {
      assert l.items + [] == l.items;
    }
  }

  /** path is that of a file in the directory or in one somewhere below it. */
  ghost predicate Below(l: Listing, path: string)
    decreases l
  {
    || File(path) in l.items
    || (exists i :: 0 <= i < |l.items| && l.items[i].Directory? && Below(l.items[i].listing, path))
    || (l.MorePages? && Below(l.rest, path))
  }

  /** What is listed is every file below, and nothing else. */
  lemma {:induction false} ListedIff(l: Listing, path: string)
    ensures path in Listed(l) <==> Below(l, path)
    decreases l, 1
  {
    ListedItemsIff(l, l.items, path);
    if l.MorePages? { ListedIff(l.rest, path); }
  }

  lemma {:induction false} ListedItemsIff(l: Listing, items: seq<Node>, path: string)
    requires |items| <= |l.items| && items == l.items[|l.items| - |items|..]
    ensures path in ListedItems(items) <==>
      File(path) in items || exists i :: 0 <= i < |items| && items[i].Directory? && Below(items[i].listing, path)
    decreases l, 0, |items|
  {
    if items != [] {
      var rest := items[1..];
      assert items[0] in l.items;
      ListedItemsIff(l, rest, path);
      assert items == [items[0]] + rest;
      if items[0].Directory? { ListedIff(items[0].listing, path); }
      assert forall i :: 0 <= i < |rest| ==> rest[i] == items[i + 1];
    }
  }

  // ---- what one page adds to the result and to the queue ----

  function FilesOf(items: seq<Node>): seq<string> {
    if items == [] then [] else (if items[0].File? then [items[0].path] else []) + FilesOf(items[1..])
  }

  function SubsOf(items: seq<Node>): seq<Listing> {
    if items == [] then [] else (if items[0].Directory? then [items[0].listing] else []) + SubsOf(items[1..])
  }

  function UrlsOf(repo: string, ref: string, items: seq<Node>): seq<string> {
    if items == [] then []
    else (if items[0].Directory? then [DirectoryUrl(repo, ref, items[0].path)] else []) + UrlsOf(repo, ref, items[1..])
  }

  function RestOf(l: Listing): seq<Listing> {
    if l.MorePages? then [l.rest] else []
  }

  function AllFiles(queue: seq<Listing>): multiset<string> {
    if queue == [] then multiset{} else multiset(Listed(queue[0])) + AllFiles(queue[1..])
  }

  function AllPages(queue: seq<Listing>): nat {
    if queue == [] then 0 else PageCount(queue[0]) + AllPages(queue[1..])
  }

  lemma {:induction false} QueueSplits(a: seq<Listing>, b: seq<Listing>)
    ensures AllFiles(a + b) == AllFiles(a) + AllFiles(b)
    ensures AllPages(a + b) == AllPages(a) + AllPages(b)
  {
    if a == [] {
      assert a + b == b;
    } else {
      assert (a + b)[1..] == a[1..] + b;
      QueueSplits(a[1..], b);
    }
  }

  lemma {:induction false} ItemsSplit(items: seq<Node>)
    ensures multiset(ListedItems(items)) == multiset(FilesOf(items)) + AllFiles(SubsOf(items))
    ensures PageCountItems(items) == AllPages(SubsOf(items))
  {
    if items != [] {
      ItemsSplit(items[1..]);
      if items[0].Directory? {
        assert ([items[0].listing] + SubsOf(items[1..]))[1..] == SubsOf(items[1..]);
      } else {
        assert [] + SubsOf(items[1..]) == SubsOf(items[1..]);
      }
    }
  }

  /** A page's files and what it queues are all of its listing, and queueing it uses up one page. */
  lemma PageSplits(l: Listing)
    ensures multiset(Listed(l)) == multiset(FilesOf(l.items)) + AllFiles(SubsOf(l.items) + RestOf(l))
    ensures PageCount(l) == 1 + AllPages(SubsOf(l.items) + RestOf(l))
  {
    ItemsSplit(l.items);
    QueueSplits(SubsOf(l.items), RestOf(l));
    if l.MorePages? {
      assert RestOf(l)[1..] == [];
      assert AllFiles(RestOf(l)) == multiset(Listed(l.rest)) + AllFiles([]);
    }
  }

  function ListingsAfter(l: Listing): seq<Listing> {
    SubsOf(l.items) + RestOf(l)
  }

  function RestPages(queue: seq<Listing>): seq<Listing>
    requires queue != []
  {
    queue[1..] + ListingsAfter(queue[0])
  }

  lemma RestPagesShrink(queue: seq<Listing>)
    requires queue != []
    ensures AllFiles(queue) == multiset(FilesOf(queue[0].items)) + AllFiles(RestPages(queue))
    ensures AllPages(queue) == 1 + AllPages(RestPages(queue))
  {
    PageSplits(queue[0]);
    QueueSplits(queue[1..], ListingsAfter(queue[0]));
  }

  /** The files below the queued listings, page by page in the order the queue serves them. */
  function BreadthFirst(queue: seq<Listing>): seq<string>
    decreases AllPages(queue)
  {
    if queue == [] then [] else
      RestPagesShrink(queue);
      FilesOf(queue[0].items) + BreadthFirst(RestPages(queue))
  }

  /** Breadth first is a permutation of depth first. */
  lemma {:induction false} BreadthFirstPermutes(queue: seq<Listing>)
    ensures multiset(BreadthFirst(queue)) == AllFiles(queue)
    decreases AllPages(queue)
  {
    if queue != [] {
      RestPagesShrink(queue);
      BreadthFirstPermutes(RestPages(queue));
    }
  }

  lemma {:induction false} OneMoreItem(repo: string, ref: string, items: seq<Node>, i: nat)
    requires i < |items|
    ensures FilesOf(items[..i + 1]) == FilesOf(items[..i]) + (if items[i].File? then [items[i].path] else [])
    ensures UrlsOf(repo, ref, items[..i + 1])
      == UrlsOf(repo, ref, items[..i]) + (if items[i].Directory? then [DirectoryUrl(repo, ref, items[i].path)] else [])
  {
    if i == 0 {
      assert items[..1] == [items[0]] && items[..1][1..] == [] && items[..0] == [];
    } else {
      assert items[..i + 1][1..] == items[1..][..i] && items[..i][1..] == items[1..][..i - 1];
      OneMoreItem(repo, ref, items[1..], i - 1);
    }
  }

  /** The queued URLs are described by the listings they stand for. */
  ghost predicate Stands(api: Api, repo: string, ref: string, queue: seq<string>, standing: seq<Listing>) {
    && |queue| == |standing|
    && (queue == [] ||
        (Describes(api, repo, ref, queue[0], standing[0]) && Stands(api, repo, ref, queue[1..], standing[1..])))
  }

  ghost predicate AllServed(api: Api, repo: string, ref: string, queue: seq<string>, standing: seq<Listing>)
    requires |queue| == |standing|
  {
    queue == [] ||
    (Served(api, repo, ref, queue[0], standing[0]) && AllServed(api, repo, ref, queue[1..], standing[1..]))
  }

  lemma {:induction false} StandsConcat(api: Api, repo: string, ref: string, q: seq<string>, s: seq<Listing>,
                                        q': seq<string>, s': seq<Listing>)
    requires |q| == |s| && |q'| == |s'|
    ensures Stands(api, repo, ref, q + q', s + s') <==> Stands(api, repo, ref, q, s) && Stands(api, repo, ref, q', s')
    ensures AllServed(api, repo, ref, q + q', s + s')
      <==> AllServed(api, repo, ref, q, s) && AllServed(api, repo, ref, q', s')
  {
    if q == [] {
      assert q + q' == q' && s + s' == s';
    } else {
      assert (q + q')[1..] == q[1..] + q' && (s + s')[1..] == s[1..] + s';
      StandsConcat(api, repo, ref, q[1..], s[1..], q', s');
    }
  }

  lemma {:induction false} SubsStand(api: Api, repo: string, ref: string, items: seq<Node>)
    ensures |UrlsOf(repo, ref, items)| == |SubsOf(items)|
    ensures DescribesItems(api, repo, ref, items) <==> Stands(api, repo, ref, UrlsOf(repo, ref, items), SubsOf(items))
    ensures ServedItems(api, repo, ref, items) <==> AllServed(api, repo, ref, UrlsOf(repo, ref, items), SubsOf(items))
  {
    if items != [] {
      SubsStand(api, repo, ref, items[1..]);
      var q, s := UrlsOf(repo, ref, items), SubsOf(items);
      if items[0].Directory? {
        assert q[1..] == UrlsOf(repo, ref, items[1..]) && s[1..] == SubsOf(items[1..]);
      } else {
        assert q == UrlsOf(repo, ref, items[1..]) && s == SubsOf(items[1..]);
      }
    }
  }

  function NextUrl(l: Listing): seq<string> {
    if l.MorePages? then [l.next] else []
  }

  /** What a page queues: its directories, then the next page. */
  function UrlsAfter(repo: string, ref: string, l: Listing): seq<string> {
    UrlsOf(repo, ref, l.items) + NextUrl(l)
  }

  lemma AfterStands(api: Api, repo: string, ref: string, url: string, l: Listing)
    ensures |UrlsAfter(repo, ref, l)| == |ListingsAfter(l)|
    ensures Describes(api, repo, ref, url, l) ==> Stands(api, repo, ref, UrlsAfter(repo, ref, l), ListingsAfter(l))
    ensures Describes(api, repo, ref, url, l) ==>
      var queue', standing' := UrlsAfter(repo, ref, l), ListingsAfter(l);
      (Served(api, repo, ref, url, l) <==> url in api && AllServed(api, repo, ref, queue', standing'))
  {
    SubsStand(api, repo, ref, l.items);
    StandsConcat(api, repo, ref, UrlsOf(repo, ref, l.items), SubsOf(l.items), NextUrl(l), RestOf(l));
    if l.MorePages? {
      assert NextUrl(l)[1..] == [] && RestOf(l)[1..] == [];
    }
  }

  /** Replacing the head of the queue by what its page queues keeps the queue described, and every page asked for. */
  lemma QueueStep(api: Api, repo: string, ref: string, queue: seq<string>, standing: seq<Listing>)
    requires queue != [] && Stands(api, repo, ref, queue, standing)
    ensures var l := standing[0];
      var queue', standing' := queue[1..] + UrlsAfter(repo, ref, l), RestPages(standing);
      && Stands(api, repo, ref, queue', standing')
      && (AllServed(api, repo, ref, queue, standing)
          <==> queue[0] in api && AllServed(api, repo, ref, queue', standing'))
  {
    var l := standing[0];
    AfterStands(api, repo, ref, queue[0], l);
    StandsConcat(api, repo, ref, queue[1..], standing[1..], UrlsAfter(repo, ref, l), ListingsAfter(l));
  }

  datatype Result = Ok(paths: seq<string>) | Failed(url: string)

  lemma HeadPage(api: Api, repo: string, ref: string, queue: seq<string>, standing: seq<Listing>)
    requires queue != [] && Stands(api, repo, ref, queue, standing) && queue[0] in api
    ensures api[queue[0]] == PageOf(standing[0]) && LinksOn(standing[0])
  {
  }

  predicate LinksOn(l: Listing) {
    l.MorePages? ==> l.next != ""
  }

  /** One page: its files go to the result, its directories and its next page to the queue. */
  method Enlist(repo: string, ref: string, page: Page, paths0: seq<string>, queue0: seq<string>, ghost l: Listing)
      returns (paths: seq<string>, queue: seq<string>)
    requires page == PageOf(l) && LinksOn(l)
    ensures paths == paths0 + FilesOf(l.items)
    ensures queue == queue0 + UrlsAfter(repo, ref, l)
  {
    paths, queue := paths0, queue0;
    for i := 0 to |page.values|
      invariant paths == paths0 + FilesOf(l.items[..i])
      invariant queue == queue0 + UrlsOf(repo, ref, l.items[..i])
    {
      OneMoreItem(repo, ref, l.items, i);
      match page.values[i]
      case CommitFile(path) => paths := paths + [path];
      case CommitDirectory(path) => queue := queue + [DirectoryUrl(repo, ref, path)];
      case OtherEntry(_) =>
    }
    assert l.items[..|page.values|] == l.items;
    if page.next != "" {
      queue := queue + [page.next];
    }
  }

  /**
   * The queue walk terminates on any finite repository, in time bounded by its pages; it succeeds
   * exactly when every page is served, and then returns the files breadth first, a permutation of
   * the recursive listing.
   */
  method Tree(api: Api, repo: string, ref: string, ghost l: Listing) returns (r: Result)
    requires Describes(api, repo, ref, DirectoryUrl(repo, ref, ""), l)
    ensures r.Ok? <==> Served(api, repo, ref, DirectoryUrl(repo, ref, ""), l)
    ensures r.Ok? ==> r.paths == BreadthFirst([l]) && multiset(r.paths) == multiset(Listed(l))
    ensures r.Failed? ==> r.url !in api
  {
    var paths: seq<string> := [];
    var queue := [DirectoryUrl(repo, ref, "")];
    ghost var standing := [l];
    StartsWith(api, repo, ref, l);
    while |queue| > 0
      invariant Stands(api, repo, ref, queue, standing)
      invariant paths + BreadthFirst(standing) == BreadthFirst([l])
      invariant Served(api, repo, ref, DirectoryUrl(repo, ref, ""), l) <==> AllServed(api, repo, ref, queue, standing)
      decreases AllPages(standing)
    {
      if queue[0] !in api { return Failed(queue[0]); }
      paths, queue, standing := Step(api, repo, ref, paths, queue, standing);
    }
    BreadthFirstPermutes([l]);
    return Ok(paths);
  }

  lemma StartsWith(api: Api, repo: string, ref: string, l: Listing)
    requires Describes(api, repo, ref, DirectoryUrl(repo, ref, ""), l)
    ensures Stands(api, repo, ref, [DirectoryUrl(repo, ref, "")], [l])
    ensures AllServed(api, repo, ref, [DirectoryUrl(repo, ref, "")], [l])
      <==> Served(api, repo, ref, DirectoryUrl(repo, ref, ""), l)
    ensures AllFiles([l]) == multiset(Listed(l))
  {
    assert [DirectoryUrl(repo, ref, "")][1..] == [] && [l][1..] == [];
  }

  /** One iteration: pop a page, enlist its entries, follow its next link. */
  method Step(api: Api, repo: string, ref: string, paths0: seq<string>, queue0: seq<string>,
              ghost standing0: seq<Listing>)
      returns (paths: seq<string>, queue: seq<string>, ghost standing: seq<Listing>)
    requires queue0 != [] && Stands(api, repo, ref, queue0, standing0) && queue0[0] in api
    ensures paths == paths0 + FilesOf(standing0[0].items)
    ensures queue == queue0[1..] + UrlsAfter(repo, ref, standing0[0])
    ensures standing == RestPages(standing0) && Stands(api, repo, ref, queue, standing)
    ensures AllServed(api, repo, ref, queue, standing) <==> AllServed(api, repo, ref, queue0, standing0)
    ensures paths + BreadthFirst(standing) == paths0 + BreadthFirst(standing0)
    ensures AllPages(standing) < AllPages(standing0)
  {
    HeadPage(api, repo, ref, queue0, standing0);
    paths, queue := Enlist(repo, ref, api[queue0[0]], paths0, queue0[1..], standing0[0]);
    standing := RestPages(standing0);
    QueueStep(api, repo, ref, queue0, standing0);
    RestPagesShrink(standing0);
    assert paths0 + FilesOf(standing0[0].items) + BreadthFirst(standing)
      == paths0 + (FilesOf(standing0[0].items) + BreadthFirst(standing));
  }
}
