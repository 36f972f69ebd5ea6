/** The materializer: a depth-first walk of a site's kustomizations that packs an archive. */
module Kustomize {
  import opened CleanPath
  import opened Paths

  type Content = string

  /** What unmarshalling a kustomization yields: its two resource lists, or an error. */
  datatype Document = Malformed | Document(resources: seq<string>, bases: seq<string>)

  /** An archive member. */
  datatype Member = Member(name: string, content: Content)

  /**
   * A host's files by host-relative name, and the foreign parsers: YAML, and whether a reference
   * parses as a URL with a scheme.
   */
  datatype Site = Site(files: map<string, Content>, parse: Content -> Document, absolute: string -> bool)

  datatype Url = Url(host: string, path: string)

  function ResolveReference(base: Url, ref: string): Url {
    Url(base.host, ResolvePath(base.path, ref))
  }

  const KUSTOMIZATION := "kustomization.yaml"

  function TrimSlash(path: string): string {
    if Rooted(path) then path[1..] else path
  }

  /** path.Ext is non-empty: the last element has a dot. */
  predicate HasExt(path: string) {
    '.' in Last(Split(path))
  }

  predicate EndsInSlash(s: string) {
    s != "" && s[|s| - 1] == '/'
  }

  /** path.Join with the file name. */
  function JoinKustomization(path: string): string {
    JoinFile(path, KUSTOMIZATION)
  }

  /** A directory-like reference is a kustomization of its own. */
  predicate DirectoryLike(resource: string, resolved: string) {
    EndsInSlash(resource) || !HasExt(resolved)
  }

  /** What a relative reference stands for, by host-relative name. */
  datatype Ref = Nested(name: string) | Plain(name: string)

  function Classify(path: string, resource: string): Ref {
    var resolved := ResolvePath(path, resource);
    if DirectoryLike(resource, resolved) then Nested(TrimSlash(JoinKustomization(resolved)))
    else Plain(TrimSlash(resolved))
  }

  /** The relative references of a list, in order; absolute ones are left to the builder. */
  function RefsOf(site: Site, path: string, resources: seq<string>): seq<Ref> {
    if resources == [] then []
    else
      (if site.absolute(resources[0]) then [] else [Classify(path, resources[0])])
      + RefsOf(site, path, resources[1..])
  }

  /** The references of the kustomization called name. */
  function Refs(site: Site, name: string, content: Content): seq<Ref> {
    match site.parse(content)
    case Malformed => []
    case Document(resources, bases) => RefsOf(site, "/" + name, resources + bases)
  }

  /** Package tar makes a name that ends in a slash a directory entry, which takes no content. */
  predicate Writable(name: string, content: Content) {
    !EndsInSlash(name) || content == ""
  }

  datatype Error =
    | ParseFailed(name: string)
    | WriteFailed(name: string)
    | EscapesSite(resource: string)
    | FetchFailed(name: string)

  /** The kustomizations expanded so far, in order, and the archive so far. */
  datatype Trail = Trail(order: seq<string>, tar: seq<Member>)

  datatype Outcome = Ok(trail: Trail) | Err(error: Error)

  ghost function Unseen(site: Site, root: string, order: seq<string>): nat {
    |site.files.Keys + {root} - (set n | n in order)|
  }

  lemma UnseenShrinks(site: Site, root: string, before: seq<string>, after: seq<string>)
    requires forall n :: n in before ==> n in after
    ensures Unseen(site, root, after) <= Unseen(site, root, before)
    ensures (exists n :: n in site.files.Keys + {root} && n in after && n !in before)
      ==> Unseen(site, root, after) < Unseen(site, root, before)
  {
    var a := site.files.Keys + {root} - (set n | n in before);
    var b := site.files.Keys + {root} - (set n | n in after);
    assert a == b + (a - b);
    assert |a| == |b| + |a - b|;
    if n :| n in site.files.Keys + {root} && n in after && n !in before {
      assert n in a - b;
    }
  }

  /** The walk: expand an unseen kustomization, then its references in turn. */
  ghost function Walk(site: Site, root: string, name: string, content: Content, t: Trail): (r: Outcome)
    requires name in site.files || name == root
    ensures r.Ok? ==> forall n :: n in t.order ==> n in r.trail.order
    ensures r.Err? ==> !r.error.EscapesSite?
    decreases Unseen(site, root, t.order), 0, 0
  {
    if name in t.order then Ok(t) else
      var t' := Trail(t.order + [name], t.tar + [Member(name, content)]);
      UnseenShrinks(site, root, t.order, t'.order);
      if !Writable(name, content) then Err(WriteFailed(name))
      else if site.parse(content).Malformed? then Err(ParseFailed(name))
      else WalkRefs(site, root, Refs(site, name, content), t')
  }

  ghost function WalkRefs(site: Site, root: string, refs: seq<Ref>, t: Trail): (r: Outcome)
    ensures r.Ok? ==> forall n :: n in t.order ==> n in r.trail.order
    ensures r.Err? ==> !r.error.EscapesSite?
    decreases Unseen(site, root, t.order), 1, |refs|
  {
    if refs == [] then Ok(t)
    else
      var name := refs[0].name;
      if name !in site.files then Err(FetchFailed(name))
      else if refs[0].Plain? && !Writable(name, site.files[name]) then Err(WriteFailed(name))
      else if refs[0].Plain? then
        WalkRefs(site, root, refs[1..], t.(tar := t.tar + [Member(name, site.files[name])]))
      else
        var r := Walk(site, root, name, site.files[name], t);
        if r.Err? then r else
          UnseenShrinks(site, root, t.order, r.trail.order);
          WalkRefs(site, root, refs[1..], r.trail)
  }

  /** Materialize: the archive and the directory in it that holds the kustomization. */
  ghost function Materialized(site: Site, root: string, content: Content): Outcome {
    Walk(site, root, root, content, Trail([], []))
  }

  // ---- the code ----

  datatype Materialization = Archive(tar: seq<Member>, buildDir: string) | Failed(error: Error)

  datatype Fetched = Missing | Found(content: Content)

  /** Fetch on a deterministic site: by host and path. */
  function Fetch(site: Site, host: string, u: Url): Fetched {
    if u.host == host && TrimSlash(u.path) in site.files then Found(site.files[TrimSlash(u.path)]) else Missing
  }

  class Materializer {
    const site: Site
    const host: string
    var seen: set<string>
    var tar: seq<Member>
    ghost const root: string
    ghost var order: seq<string>

    constructor (site: Site, host: string, ghost root: string)
      ensures this.site == site && this.host == host && this.root == root
      ensures seen == {} && tar == [] && order == []
    {
      this.site, this.host, this.root := site, host, root;
      seen, tar, order := {}, [], [];
    }

    ghost function Current(): Trail
      reads this
    {
      Trail(order, tar)
    }

    ghost predicate Valid()
      reads this
    {
      seen == set n | n in order
    }

    /** A member that takes no content fails; what was written of it goes with the archive. */
    method WriteFile(name: string, content: Content) returns (ok: bool)
      modifies this`tar
      ensures ok == Writable(name, content)
      ensures tar == if ok then old(tar) + [Member(name, content)] else old(tar)
    {
      if EndsInSlash(name) && |content| > 0 { return false; }
      tar := tar + [Member(name, content)];
      return true;
    }

    /** Mark a kustomization as seen and pack it. */
    method Enter(name: string, content: Content) returns (ok: bool)
      requires Valid() && name !in seen && (name in site.files || name == root)
      modifies this`seen, this`tar, this`order
      ensures Valid() && ok == Writable(name, content) && order == old(order) + [name]
      ensures tar == if ok then old(tar) + [Member(name, content)] else old(tar)
      ensures Unseen(site, root, order) < Unseen(site, root, old(order))
    {
      seen := seen + {name};
      order := order + [name];
      ok := WriteFile(name, content);
      UnseenShrinks(site, root, old(order), order);
    }

    /** The recursive walk over the shared seen set and archive. */
    method Materialize(content: Content, base: Url) returns (err: seq<Error>)
      requires Valid() && base.host == host && Rooted(base.path)
      requires base.path[1..] in site.files || base.path[1..] == root
      modifies this`seen, this`tar, this`order
      ensures Valid()
      ensures match Walk(site, root, base.path[1..], content, old(Current()))
        case Ok(t) => err == [] && Current() == t
        case Err(e) => err == [e]
      decreases Unseen(site, root, order), 0, 0
    {
      var name := TrimSlash(base.path);
      assert base.path == "/" + name;
      if name in seen { return []; }
      var ok := Enter(name, content);
      if !ok { return [WriteFailed(name)]; }
      var doc := site.parse(content);
      if doc.Malformed? { return [ParseFailed(name)]; }
      err := VisitAll(doc.resources + doc.bases, base);
    }

    /** The loop over the resources and bases of one kustomization. */
    method VisitAll(resources: seq<string>, base: Url) returns (err: seq<Error>)
      requires Valid() && base.host == host && Rooted(base.path)
      modifies this`seen, this`tar, this`order
      ensures Valid()
      ensures match WalkRefs(site, root, RefsOf(site, base.path, resources), old(Current()))
        case Ok(t) => err == [] && Current() == t
        case Err(e) => err == [e]
      decreases Unseen(site, root, order), 2, 0
    {
      ghost var start, all := Current(), WalkRefs(site, root, RefsOf(site, base.path, resources), Current());
      for i := 0 to |resources|
        invariant Valid() && forall n :: n in start.order ==> n in order
        invariant all == WalkRefs(site, root, RefsOf(site, base.path, resources[i..]), Current())
      {
        RefsOfNext(site, base.path, resources, i);
        if site.absolute(resources[i]) { continue; }
        UnseenShrinks(site, root, start.order, order);
        ghost var rest := RefsOf(site, base.path, resources[i + 1..]);
        WalkRefsNext(site, root, Classify(base.path, resources[i]), rest, Current());
        err := Visit(resources[i], base);
        if err != [] { return; }
      }
      return [];
    }

    /** One relative reference: a nested kustomization to walk, or a file to pack. */
    method Visit(resource: string, base: Url) returns (err: seq<Error>)
      requires Valid() && base.host == host && Rooted(base.path)
      modifies this`seen, this`tar, this`order
      ensures Valid()
      ensures match WalkRefs(site, root, [Classify(base.path, resource)], old(Current()))
        case Ok(t) => err == [] && Current() == t
        case Err(e) => err == [e]
      decreases Unseen(site, root, order), 1, 0
    {
      var resolved := ResolveReference(base, resource);
      ResolvedIsRooted(base.path, resource);
      if resolved.host != base.host { return [EscapesSite(resource)]; }
      if DirectoryLike(resource, resolved.path) {
        var nested := resolved.(path := JoinKustomization(resolved.path));
        var fetched := Fetch(site, host, nested);
        if fetched.Missing? { return [FetchFailed(TrimSlash(nested.path))]; }
        err := Materialize(fetched.content, nested);
        return;
      }
      var fetched := Fetch(site, host, resolved);
      if fetched.Missing? { return [FetchFailed(TrimSlash(resolved.path))]; }
      var ok := WriteFile(TrimSlash(resolved.path), fetched.content);
      if !ok { return [WriteFailed(TrimSlash(resolved.path))]; }
      return [];
    }
  }

  lemma RefsOfNext(site: Site, path: string, resources: seq<string>, i: nat)
    requires i < |resources|
    ensures var rest := RefsOf(site, path, resources[i + 1..]);
      RefsOf(site, path, resources[i..])
        == if site.absolute(resources[i]) then rest else [Classify(path, resources[i])] + rest
  {
    assert resources[i..][1..] == resources[i + 1..];
    assert [] + RefsOf(site, path, resources[i + 1..]) == RefsOf(site, path, resources[i + 1..]);
  }

  lemma WalkRefsNext(site: Site, root: string, ref: Ref, rest: seq<Ref>, t: Trail)
    ensures var r := WalkRefs(site, root, [ref], t);
      WalkRefs(site, root, [ref] + rest, t) == if r.Err? then r else WalkRefs(site, root, rest, r.trail)
  {
    assert ([ref] + rest)[1..] == rest && [ref][1..] == [];
  }

  lemma ResolvedIsRooted(path: string, resource: string)
    requires Rooted(path)
    ensures Rooted(ResolvePath(path, resource)) && Rooted(JoinKustomization(ResolvePath(path, resource)))
  {
    MergedIsRooted(path, resource);
    ResolvedHasNoDots(path, resource);
    var resolved := ResolvePath(path, resource);
    CleanRooted(resolved + "/" + KUSTOMIZATION);
  }

  /** Materialize: a fresh walk from the root; its whole effect is what `Materialized` says. */
  method Materialize(site: Site, content: Content, base: Url) returns (r: Materialization)
    requires Rooted(base.path)
    ensures match Materialized(site, base.path[1..], content)
      case Ok(t) => r == Archive(t.tar, DirOf(base.path[1..]))
      case Err(e) => r == Failed(e)
  {
    var m := new Materializer(site, base.host, base.path[1..]);
    var err := m.Materialize(content, base);
    if err != [] { return Failed(err[0]); }
    return Archive(m.tar, DirOf(TrimSlash(base.path)));
  }

  // ---- what the walk computes ----

  /** The content the walk expands under a name: the given one for the root, else the site's. */
  function ContentOf(site: Site, root: string, doc: Content, name: string): Content {
    if name == root || name !in site.files then doc else site.files[name]
  }

  function RefsIn(site: Site, root: string, doc: Content, name: string): seq<Ref> {
    Refs(site, name, ContentOf(site, root, doc, name))
  }

  /** a refers to b as a kustomization, and b can be fetched. */
  ghost predicate Edge(site: Site, root: string, doc: Content, a: string, b: string) {
    b in site.files && Nested(b) in RefsIn(site, root, doc, a)
  }

  ghost predicate IsPath(site: Site, root: string, doc: Content, path: seq<string>) {
    && path != [] && path[0] == root
    && forall i :: 0 < i < |path| ==> Edge(site, root, doc, path[i - 1], path[i])
  }

  /** name is a kustomization reachable from the root, on a graph that may share and cycle. */
  ghost predicate Reachable(site: Site, root: string, doc: Content, name: string) {
    exists path :: IsPath(site, root, doc, path) && Last(path) == name
  }

  lemma ReachableStep(site: Site, root: string, doc: Content, name: string, next: string)
    requires Reachable(site, root, doc, name) && Edge(site, root, doc, name, next)
    ensures Reachable(site, root, doc, next)
  {
    var path :| IsPath(site, root, doc, path) && Last(path) == name;
    var longer := path + [next];
    forall i | 0 < i < |longer| ensures Edge(site, root, doc, longer[i - 1], longer[i]) {
      if i < |path| { assert longer[i - 1] == path[i - 1] && longer[i] == path[i]; }
    }
    assert IsPath(site, root, doc, longer) && Last(longer) == next;
  }

  lemma RootReachable(site: Site, root: string, doc: Content)
    ensures Reachable(site, root, doc, root)
  {
    assert IsPath(site, root, doc, [root]) && Last([root]) == root;
  }

  /** The reference can be fetched, and packed if it is a file. */
  predicate Available(site: Site, r: Ref) {
    r.name in site.files && (r.Plain? ==> Writable(r.name, site.files[r.name]))
  }

  /** The kustomization can be packed and parses, and every relative reference of it is available. */
  ghost predicate Sound(site: Site, root: string, doc: Content, name: string) {
    && Writable(name, ContentOf(site, root, doc, name))
    && site.parse(ContentOf(site, root, doc, name)).Document?
    && forall r :: r in RefsIn(site, root, doc, name) ==> Available(site, r)
  }

  /** The members packed for the plain files of a reference list. */
  function PlainMembers(site: Site, refs: seq<Ref>): multiset<Member> {
    if refs == [] then multiset{}
    else (if refs[0].Plain? && refs[0].name in site.files then multiset{Member(refs[0].name, site.files[refs[0].name])}
          else multiset{}) + PlainMembers(site, refs[1..])
  }

  /** The members one expansion packs: the kustomization once, and a file once per reference. */
  function Own(site: Site, root: string, doc: Content, name: string): multiset<Member> {
    multiset{Member(name, ContentOf(site, root, doc, name))} + PlainMembers(site, RefsIn(site, root, doc, name))
  }

  function OwnAll(site: Site, root: string, doc: Content, names: seq<string>): multiset<Member> {
    if names == [] then multiset{} else Own(site, root, doc, names[0]) + OwnAll(site, root, doc, names[1..])
  }

  lemma {:induction false} OwnAllConcat(site: Site, root: string, doc: Content, a: seq<string>, b: seq<string>)
    ensures OwnAll(site, root, doc, a + b) == OwnAll(site, root, doc, a) + OwnAll(site, root, doc, b)
  {
    if a == [] {
      assert a + b == b;
    } else {
      assert (a + b)[1..] == a[1..] + b;
      OwnAllConcat(site, root, doc, a[1..], b);
    }
  }

  ghost predicate Distinct(names: seq<string>) {
    forall i, j :: 0 <= i < j < |names| ==> names[i] != names[j]
  }

  ghost predicate Expanded(site: Site, root: string, doc: Content, order: seq<string>, n: string) {
    && Reachable(site, root, doc, n) && Sound(site, root, doc, n)
    && forall r :: r in RefsIn(site, root, doc, n) && r.Nested? ==> r.name in order
  }

  /** What a finished part of the walk adds: each new kustomization sound, reachable, closed and packed once. */
  ghost predicate Extends(site: Site, root: string, doc: Content, t: Trail, t': Trail, files: multiset<Member>) {
    && t.order <= t'.order && Distinct(t'.order)
    && multiset(t'.tar) == multiset(t.tar) + files + OwnAll(site, root, doc, t'.order[|t.order|..])
    && forall n :: n in t'.order[|t.order|..] ==> Expanded(site, root, doc, t'.order, n)
  }

  lemma ExpandedMonotone(site: Site, root: string, doc: Content, small: seq<string>, large: seq<string>, n: string)
    requires Expanded(site, root, doc, small, n) && small <= large
    ensures Expanded(site, root, doc, large, n)
  {
    assert forall k :: k in small ==> k in large;
  }

  lemma NewAreExpanded(site: Site, root: string, doc: Content, a: seq<string>, b: seq<string>, c: seq<string>)
    requires a <= b <= c
    requires forall n :: n in b[|a|..] ==> Expanded(site, root, doc, b, n)
    requires forall n :: n in c[|b|..] ==> Expanded(site, root, doc, c, n)
    ensures c[|a|..] == b[|a|..] + c[|b|..]
    ensures forall n :: n in c[|a|..] ==> Expanded(site, root, doc, c, n)
  {
    var first, second := b[|a|..], c[|b|..];
    assert c[|a|..] == first + second;
    forall n | n in first + second ensures Expanded(site, root, doc, c, n) {
      if n in first {
        ExpandedMonotone(site, root, doc, b, c, n);
      } else {
        assert n in second;
      }
    }
  }

  lemma ExtendsTransitive(site: Site, root: string, doc: Content, t: Trail, m: Trail, t': Trail,
                          a: multiset<Member>, b: multiset<Member>)
    requires Extends(site, root, doc, t, m, a) && Extends(site, root, doc, m, t', b)
    ensures Extends(site, root, doc, t, t', a + b)
  {
    var first, second := m.order[|t.order|..], t'.order[|m.order|..];
    NewAreExpanded(site, root, doc, t.order, m.order, t'.order);
    OwnAllConcat(site, root, doc, first, second);
    TarAdds(multiset(t.tar), a, OwnAll(site, root, doc, first), b, OwnAll(site, root, doc, second));
  }

  lemma TarAdds(tar: multiset<Member>, a: multiset<Member>, x: multiset<Member>, b: multiset<Member>,
                y: multiset<Member>)
    ensures tar + a + x + b + y == tar + (a + b) + (x + y)
  {
  }

  /** Some reachable kustomization has the reference. */
  ghost predicate Referred(site: Site, root: string, doc: Content, r: Ref) {
    exists n :: Reachable(site, root, doc, n) && r in RefsIn(site, root, doc, n)
  }

  /** The error names what is wrong, and it is wrong. */
  ghost predicate Blames(site: Site, root: string, doc: Content, e: Error) {
    match e
    case ParseFailed(n) => Reachable(site, root, doc, n) && site.parse(ContentOf(site, root, doc, n)).Malformed?
    case FetchFailed(n) =>
      n !in site.files && (Referred(site, root, doc, Nested(n)) || Referred(site, root, doc, Plain(n)))
    case WriteFailed(n) =>
      && EndsInSlash(n)
      && ((Reachable(site, root, doc, n) && ContentOf(site, root, doc, n) != "")
          || (n in site.files && site.files[n] != "" && Referred(site, root, doc, Plain(n))))
    case EscapesSite(_) => false
  }

  /** Whatever is blamed makes some reachable kustomization unsound. */
  lemma BlamedIsUnsound(site: Site, root: string, doc: Content, e: Error) returns (n: string)
    requires Blames(site, root, doc, e)
    ensures Reachable(site, root, doc, n) && !Sound(site, root, doc, n)
  {
    n := e.name;
    if e.ParseFailed? || (e.WriteFailed? && Reachable(site, root, doc, n) && ContentOf(site, root, doc, n) != "") {
      return;
    }
    var r := if e.FetchFailed? && Referred(site, root, doc, Nested(e.name)) then Nested(e.name) else Plain(e.name);
    assert !Available(site, r);
    n :| Reachable(site, root, doc, n) && r in RefsIn(site, root, doc, n);
  }

  ghost predicate Started(root: string, order: seq<string>) {
    Distinct(order) && order != [] && order[0] == root
  }

  lemma {:induction false} WalkFacts(site: Site, root: string, doc: Content, name: string, content: Content, t: Trail)
    requires name in site.files || name == root
    requires Reachable(site, root, doc, name) && (Started(root, t.order) || (t.order == [] && name == root))
    requires name !in t.order ==> content == ContentOf(site, root, doc, name)
    ensures var r := Walk(site, root, name, content, t);
      (r.Err? ==> Blames(site, root, doc, r.error))
      && (r.Ok? ==> Extends(site, root, doc, t, r.trail, multiset{}) && name in r.trail.order)
    decreases Unseen(site, root, t.order), 0, 0
  {
    if name in t.order {
      assert t.order[|t.order|..] == [];
    } else {
      var t' := Trail(t.order + [name], t.tar + [Member(name, content)]);
      UnseenShrinks(site, root, t.order, t'.order);
      if Writable(name, content) && site.parse(content).Document? {
        var refs := RefsIn(site, root, doc, name);
        WalkRefsFacts(site, root, doc, name, refs, t');
        var r := WalkRefs(site, root, refs, t');
        if r.Ok? { EntryExtends(site, root, doc, name, t, t', r.trail); }
      }
    }
  }

  /** Entering a kustomization and walking its references is one extension. */
  lemma EntryExtends(site: Site, root: string, doc: Content, name: string, t: Trail, m: Trail, t': Trail)
    requires m == Trail(t.order + [name], t.tar + [Member(name, ContentOf(site, root, doc, name))])
    requires Extends(site, root, doc, m, t', PlainMembers(site, RefsIn(site, root, doc, name)))
    requires Expanded(site, root, doc, t'.order, name)
    ensures Extends(site, root, doc, t, t', multiset{}) && name in t'.order
  {
    var rest, all := t'.order[|m.order|..], t'.order[|t.order|..];
    assert t'.order[|t.order|] == m.order[|t.order|] == name;
    assert all == [name] + rest && all[1..] == rest;
    forall n | n in all ensures Expanded(site, root, doc, t'.order, n) {
      if n != name { assert n in rest; }
    }
    EntryAdds(site, root, doc, name, multiset(t.tar), rest, all);
  }

  lemma EntryAdds(site: Site, root: string, doc: Content, name: string, tar: multiset<Member>,
                  rest: seq<string>, all: seq<string>)
    requires all == [name] + rest
    ensures tar + multiset{Member(name, ContentOf(site, root, doc, name))}
      + PlainMembers(site, RefsIn(site, root, doc, name))
        + OwnAll(site, root, doc, rest)
      == tar + multiset{} + OwnAll(site, root, doc, all)
  {
    assert all[1..] == rest;
    var own := multiset{Member(name, ContentOf(site, root, doc, name))};
    TarAdds(tar, own, PlainMembers(site, RefsIn(site, root, doc, name)), multiset{}, OwnAll(site, root, doc, rest));
  }

  lemma FileExtends(site: Site, root: string, doc: Content, t: Trail, m: Trail, member: Member)
    requires Distinct(t.order) && m == t.(tar := t.tar + [member])
    ensures Extends(site, root, doc, t, m, multiset{member})
  {
    assert t.order[|t.order|..] == [];
  }

  lemma {:induction false} WalkRefsFacts(site: Site, root: string, doc: Content, owner: string,
                                         refs: seq<Ref>, t: Trail)
    requires Started(root, t.order) && Reachable(site, root, doc, owner)
    requires forall r :: r in refs ==> r in RefsIn(site, root, doc, owner)
    ensures var r := WalkRefs(site, root, refs, t);
      (r.Err? ==> Blames(site, root, doc, r.error))
      && (r.Ok? ==> Extends(site, root, doc, t, r.trail, PlainMembers(site, refs))
                    && forall f :: f in refs ==> Available(site, f) && (f.Nested? ==> f.name in r.trail.order))
    decreases Unseen(site, root, t.order), 1, |refs|
  {
    if refs == [] {
      assert t.order[|t.order|..] == [];
    } else {
      var name := refs[0].name;
      assert refs[0] in refs;
      if !Available(site, refs[0]) {
        assert Referred(site, root, doc, refs[0]);
      } else {
        var m, mine := t, multiset{};
        if refs[0].Plain? {
          m := t.(tar := t.tar + [Member(name, site.files[name])]);
          mine := multiset{Member(name, site.files[name])};
          FileExtends(site, root, doc, t, m, Member(name, site.files[name]));
        } else {
          assert Edge(site, root, doc, owner, name);
          ReachableStep(site, root, doc, owner, name);
          WalkFacts(site, root, doc, name, site.files[name], t);
          var r := Walk(site, root, name, site.files[name], t);
          if r.Err? { return; }
          m := r.trail;
          UnseenShrinks(site, root, t.order, m.order);
        }
        assert forall f :: f in refs[1..] ==> f in refs;
        WalkRefsFacts(site, root, doc, owner, refs[1..], m);
        var r := WalkRefs(site, root, refs[1..], m);
        if r.Ok? {
          ExtendsTransitive(site, root, doc, t, m, r.trail, mine, PlainMembers(site, refs[1..]));
          assert forall k :: k in m.order ==> k in r.trail.order;
        }
      }
    }
  }

  /** Along any path from the root everything has been expanded. */
  lemma {:induction false} PathExpanded(site: Site, root: string, doc: Content, t: Trail, path: seq<string>)
    requires IsPath(site, root, doc, path) && root in t.order
    requires forall n :: n in t.order ==> Expanded(site, root, doc, t.order, n)
    ensures Last(path) in t.order
  {
    if |path| > 1 {
      var front := path[..|path| - 1];
      forall i | 0 < i < |front| ensures Edge(site, root, doc, front[i - 1], front[i]) {
        assert Edge(site, root, doc, path[i - 1], path[i]);
      }
      PathExpanded(site, root, doc, t, front);
      assert Edge(site, root, doc, path[|path| - 2], path[|path| - 1]);
      assert Expanded(site, root, doc, t.order, Last(front));
    }
  }

  /**
   * The walk succeeds exactly when every reachable kustomization can be packed and parses and every
   * reference of one is available. Then it expands exactly the reachable kustomizations, each once, and the archive
   * holds, counted with multiplicity, each of them once and every file once per reference to it.
   */
  lemma WalkIsClosure(site: Site, root: string, doc: Content)
    ensures var r := Materialized(site, root, doc);
      && (r.Ok? <==> forall n :: Reachable(site, root, doc, n) ==> Sound(site, root, doc, n))
      && (r.Ok? ==>
            && Distinct(r.trail.order)
            && (forall n :: n in r.trail.order <==> Reachable(site, root, doc, n))
            && multiset(r.trail.tar) == OwnAll(site, root, doc, r.trail.order))
  {
    RootReachable(site, root, doc);
    WalkFacts(site, root, doc, root, doc, Trail([], []));
    var r := Materialized(site, root, doc);
    if r.Err? {
      var n := BlamedIsUnsound(site, root, doc, r.error);
    } else {
      var t := r.trail;
      assert t.order[0..] == t.order;
      forall n | Reachable(site, root, doc, n) ensures n in t.order {
        var path :| IsPath(site, root, doc, path) && Last(path) == n;
        PathExpanded(site, root, doc, t, path);
      }
      forall n ensures n in t.order <==> Reachable(site, root, doc, n) {
        if n in t.order { assert Expanded(site, root, doc, t.order, n); }
      }
      forall n | Reachable(site, root, doc, n) ensures Sound(site, root, doc, n) {
        assert Expanded(site, root, doc, t.order, n);
      }
      assert multiset(t.tar) == multiset([]) + multiset{} + OwnAll(site, root, doc, t.order);
    }
  }

  /** An error of the walk is about something reachable, and true of it. */
  lemma ErrorsAreTrue(site: Site, root: string, doc: Content)
    ensures var r := Materialized(site, root, doc); r.Err? ==> Blames(site, root, doc, r.error)
  {
    RootReachable(site, root, doc);
    WalkFacts(site, root, doc, root, doc, Trail([], []));
  }

  /** What a kustomization refers to: its resources and then its bases, all but the absolute ones, in order. */
  lemma {:induction false} RefsAre(site: Site, path: string, resources: seq<string>, r: Ref)
    ensures r in RefsOf(site, path, resources)
      <==> exists x :: x in resources && !site.absolute(x) && r == Classify(path, x)
  {
    if resources != [] {
      var rest := resources[1..];
      RefsAre(site, path, rest, r);
      assert resources == [resources[0]] + rest;
    }
  }

  lemma Regroup(a: seq<Ref>, b: seq<Ref>, c: seq<Ref>)
    ensures a + (b + c) == a + b + c
  {
  }

  lemma RefsOfFirst(site: Site, path: string, resources: seq<string>)
    requires resources != []
    ensures RefsOf(site, path, resources) == RefsOf(site, path, [resources[0]]) + RefsOf(site, path, resources[1..])
  {
    assert [resources[0]][1..] == [];
    var head := if site.absolute(resources[0]) then [] else [Classify(path, resources[0])];
    assert head + [] == head;
  }

  /** References are read off in the order they are listed. */
  lemma {:induction false} RefsOfSum(site: Site, path: string, a: seq<string>, b: seq<string>)
    ensures RefsOf(site, path, a + b) == RefsOf(site, path, a) + RefsOf(site, path, b)
  {
    if a == [] {
      assert a + b == b;
    } else {
      var s := a + b;
      assert s[0] == a[0] && s[1..] == a[1..] + b;
      RefsOfSum(site, path, a[1..], b);
      RefsOfFirst(site, path, s);
      RefsOfFirst(site, path, a);
      Regroup(RefsOf(site, path, [a[0]]), RefsOf(site, path, a[1..]), RefsOf(site, path, b));
    }
  }

  /** A file is packed once per reference to it. */
  lemma {:induction false} FilesOncePerReference(site: Site, refs: seq<Ref>, m: Member)
    requires m.name in site.files && m.content == site.files[m.name]
    ensures PlainMembers(site, refs)[m] == multiset(refs)[Plain(m.name)]
  {
    if refs != [] {
      assert refs == [refs[0]] + refs[1..];
      FilesOncePerReference(site, refs[1..], m);
    }
  }

  lemma RefsOfDocument(site: Site, name: string, content: Content, r: Ref)
    ensures r in Refs(site, name, content) <==>
      && site.parse(content).Document?
      && var d := site.parse(content);
        exists x :: x in d.resources + d.bases && !site.absolute(x) && r == Classify("/" + name, x)
  {
    if site.parse(content).Document? {
      var d := site.parse(content);
      RefsAre(site, "/" + name, d.resources + d.bases, r);
    }
  }

  /** The references of the resources come before those of the bases. */
  lemma ResourcesBeforeBases(site: Site, name: string, content: Content)
    requires site.parse(content).Document?
    ensures var d, path := site.parse(content), "/" + name;
      Refs(site, name, content) == RefsOf(site, path, d.resources) + RefsOf(site, path, d.bases)
  {
    var d := site.parse(content);
    RefsOfSum(site, "/" + name, d.resources, d.bases);
  }

  /** A root with content whose name ends in a slash is never packed. */
  lemma SlashedRootFails(site: Site, root: string, doc: Content)
    requires EndsInSlash(root) && doc != ""
    ensures Materialized(site, root, doc) == Err(WriteFailed(root))
  {
    assert root !in Trail([], []).order;
  }

  // ---- the archive by name ----

  lemma {:induction false} InPlainMembers(site: Site, refs: seq<Ref>, m: Member)
    ensures m in PlainMembers(site, refs)
      <==> Plain(m.name) in refs && m.name in site.files && m.content == site.files[m.name]
  {
    if refs != [] {
      InPlainMembers(site, refs[1..], m);
      assert refs == [refs[0]] + refs[1..];
    }
  }

  lemma {:induction false} InOwnAll(site: Site, root: string, doc: Content, names: seq<string>, m: Member)
    ensures m in OwnAll(site, root, doc, names) <==> exists n :: n in names && m in Own(site, root, doc, n)
  {
    if names != [] {
      InOwnAll(site, root, doc, names[1..], m);
      assert names == [names[0]] + names[1..];
      if m in Own(site, root, doc, names[0]) { assert names[0] in names; }
    }
  }

  /** m is what the expansion of n packs: n itself, or a file it refers to. */
  predicate PackedBy(site: Site, root: string, doc: Content, n: string, m: Member) {
    || m == Member(n, ContentOf(site, root, doc, n))
    || (Plain(m.name) in RefsIn(site, root, doc, n) && m.name in site.files && m.content == site.files[m.name])
  }

  /** m is a kustomization reachable from the root, or a file one of them refers to. */
  ghost predicate Packed(site: Site, root: string, doc: Content, m: Member) {
    || (Reachable(site, root, doc, m.name) && m.content == ContentOf(site, root, doc, m.name))
    || (&& m.name in site.files && m.content == site.files[m.name]
        && exists n :: Reachable(site, root, doc, n) && Plain(m.name) in RefsIn(site, root, doc, n))
  }

  /** The archive's members are exactly the root, everything reachable, and the files referred to. */
  lemma ArchiveMembers(site: Site, root: string, doc: Content, m: Member)
    requires Materialized(site, root, doc).Ok?
    ensures m in Materialized(site, root, doc).trail.tar <==> Packed(site, root, doc, m)
  {
    WalkIsClosure(site, root, doc);
    var t := Materialized(site, root, doc).trail;
    assert m in t.tar <==> m in multiset(t.tar);
    InOwnAll(site, root, doc, t.order, m);
    forall n ensures m in Own(site, root, doc, n) <==> PackedBy(site, root, doc, n, m) {
      InPlainMembers(site, RefsIn(site, root, doc, n), m);
    }
    if Reachable(site, root, doc, m.name) && m.content == ContentOf(site, root, doc, m.name) {
      assert m.name in t.order && m in Own(site, root, doc, m.name);
    }
  }
}
