/** The archive as the builder pod sees it: unpacked below a mount directory and resolved locally. */
module Unpack {
  import opened CleanPath
  import opened Kustomize
  import opened Paths

  /** Where a name lies below the directory it is unpacked in. */
  function Place(name: string): seq<string> {
    Climb([], Segments(name))
  }

  /** What unpacking leaves: nothing to build once a member is refused. */
  datatype Disk = Stopped | Disk(files: map<seq<string>, Content>)

  /**
   * tar refuses a member whose name has a `..`, the directory it unpacks in, a member that passes
   * through a file, and one that lies where there is a directory.
   */
  ghost predicate Refused(files: map<seq<string>, Content>, name: string) {
    || ".." in Segments(name) || Place(name) == []
    || exists f :: f in files && (f < Place(name) || Place(name) < f)
  }

  /** Unpacking in order: a later member replaces an earlier one in the same place. */
  ghost function Extract(tar: seq<Member>): Disk {
    if tar == [] then Disk(map[])
    else
      var before, last := Extract(tar[..|tar| - 1]), tar[|tar| - 1];
      if before.Stopped? || Refused(before.files, last.name) then Stopped
      else Disk(before.files[Place(last.name) := last.content])
  }

  lemma {:induction false} ExtractedComesFromMember(tar: seq<Member>, entry: seq<string>)
    requires Extract(tar).Disk?
    ensures entry in Extract(tar).files <==> exists m :: m in tar && Place(m.name) == entry
    ensures entry in Extract(tar).files ==>
      exists m :: m in tar && Place(m.name) == entry && m.content == Extract(tar).files[entry]
  {
    if tar != [] {
      var n := |tar| - 1;
      ExtractedComesFromMember(tar[..n], entry);
      assert tar == tar[..n] + [tar[n]];
      assert tar[n] in tar;
    }
  }

  predicate Placeable(name: string) {
    ".." !in Segments(name) && Place(name) != []
  }

  /** Every member has a place, and none lies below another: no name is a file and a directory. */
  ghost predicate Extractable(tar: seq<Member>) {
    && (forall m :: m in tar ==> Placeable(m.name))
    && forall m, n :: m in tar && n in tar ==> !(Place(m.name) < Place(n.name))
  }

  /** Unpacking goes through exactly if no member lies below another and each has a place. */
  lemma {:induction false} ExtractsIff(tar: seq<Member>)
    ensures Extract(tar).Disk? <==> Extractable(tar)
  {
    if tar != [] {
      var front, last := tar[..|tar| - 1], tar[|tar| - 1];
      assert tar == front + [last];
      ExtractsIff(front);
      if Extract(front).Disk? {
        OneMoreMember(front, last);
      } else {
        StaysUnextractable(front, last);
      }
    }
  }

  lemma StaysUnextractable(front: seq<Member>, last: Member)
    requires !Extractable(front)
    ensures !Extractable(front + [last])
  {
    assert forall m :: m in front ==> m in front + [last];
  }

  lemma OneMoreMember(front: seq<Member>, last: Member)
    requires Extractable(front) && Extract(front).Disk?
    ensures Extractable(front + [last]) <==> !Refused(Extract(front).files, last.name)
  {
    var tar, files, p := front + [last], Extract(front).files, Place(last.name);
    assert last in tar && forall m :: m in tar <==> m in front || m == last;
    if Extractable(tar) {
      forall f | f in files ensures !(f < p) && !(p < f) {
        ExtractedComesFromMember(front, f);
      }
    } else if Placeable(last.name) {
      var m, n :| m in tar && n in tar && Place(m.name) < Place(n.name);
      assert m != last || n != last;
      var other := if m == last then n else m;
      ExtractedComesFromMember(front, Place(other.name));
      assert Place(other.name) in files;
    }
  }

  /** No two members of different content lie in the same place. */
  ghost predicate NoClash(tar: seq<Member>) {
    forall m, n :: m in tar && n in tar && Place(m.name) == Place(n.name) ==> m.content == n.content
  }

  ghost predicate HasMember(disk: Disk, m: Member) {
    disk.Disk? && Place(m.name) in disk.files && disk.files[Place(m.name)] == m.content
  }

  /** Every member is found with its own content exactly if unpacking goes through and none replaces another. */
  lemma UnpackedFaithfulIff(tar: seq<Member>)
    requires tar != []
    ensures (forall m :: m in tar ==> HasMember(Extract(tar), m)) <==> Extractable(tar) && NoClash(tar)
  {
    ExtractsIff(tar);
    if Extract(tar).Disk? {
      forall m | m in tar
        ensures Place(m.name) in Extract(tar).files
        ensures NoClash(tar) ==> HasMember(Extract(tar), m)
      {
        ExtractedComesFromMember(tar, Place(m.name));
      }
    } else {
      assert tar[0] in tar && !HasMember(Extract(tar), tar[0]);
    }
  }

  // ---- following a reference on the site and below a mount ----

  /** A `..` at the site's root or after an empty element. */
  predicate TakesBack(dir: seq<string>, e: string) {
    e == ".." && (dir == [] || Last(dir) == "")
  }

  /** At some point the steps take back the site's root or an empty element, where the file system has none to give. */
  predicate Departs(dir: seq<string>, steps: seq<string>)
    decreases steps
  {
    if steps == [] then false
    else TakesBack(dir, steps[0]) || Departs(Onward(dir, steps[0]), steps[1..])
  }

  lemma NonEmptyOnward(dir: seq<string>, e: string)
    ensures var n, n' := NonEmpty(dir), NonEmpty(Onward(dir, e));
      && (e == "" ==> n' == n)
      && (e != "" && !TakesBack(dir, e) ==> n' == Onward(n, e))
      && (TakesBack(dir, e) ==> n' == n)
      && |n| - 1 <= |n'| && (dir != [] && Last(dir) != "" ==> n != [])
  {
    NonEmptyConcat(dir, [e]);
    assert NonEmpty([e]) == (if e == "" then [] else [e]) + NonEmpty([e][1..]);
    if dir != [] {
      var front := dir[..|dir| - 1];
      assert dir == front + [Last(dir)];
      NonEmptyConcat(front, [Last(dir)]);
      assert NonEmpty([Last(dir)]) == (if Last(dir) == "" then [] else [Last(dir)]) + NonEmpty([Last(dir)][1..]);
    }
  }

  lemma NonEmptyNext(steps: seq<string>)
    requires steps != []
    ensures NonEmpty(steps) == (if steps[0] == "" then [] else [steps[0]]) + NonEmpty(steps[1..])
    ensures steps[0] != ""
      ==> NonEmpty(steps) != [] && NonEmpty(steps)[0] == steps[0] && NonEmpty(steps)[1..] == NonEmpty(steps[1..])
    ensures steps[0] == "" ==> NonEmpty(steps) == NonEmpty(steps[1..])
  {
  }

  /** What is shallower by k than a site directory below a mount at least k deep stays so. */
  lemma {:induction false} StaysShallower(local: seq<string>, dir: seq<string>, steps: seq<string>, depth: nat, k: nat)
    requires k <= depth && |local| + k <= depth + |NonEmpty(dir)|
    ensures |Climb(local, NonEmpty(steps))| + k <= depth + |NonEmpty(Climb(dir, steps))|
    decreases steps
  {
    if steps != [] {
      var e := steps[0];
      NonEmptyOnward(dir, e);
      NonEmptyNext(steps);
      StaysShallower(if e == "" then local else Onward(local, e), Onward(dir, e), steps[1..], depth, k);
    }
  }

  /** Once the steps depart, the file system stays shallower than the site below the mount. */
  lemma DepartedStaysApart(mount: seq<string>, dir: seq<string>, rest: seq<string>)
    requires mount != [] && TakesBack(dir, "..")
    ensures Climb(Onward(mount + NonEmpty(dir), ".."), NonEmpty(rest))
      != mount + NonEmpty(Climb(Onward(dir, ".."), rest))
  {
    NonEmptyOnward(dir, "..");
    StaysShallower(Onward(mount + NonEmpty(dir), ".."), Onward(dir, ".."), rest, |mount|, 1);
  }

  lemma OnwardBelow(mount: seq<string>, dir: seq<string>, e: string)
    requires !TakesBack(dir, e)
    ensures mount + NonEmpty(Onward(dir, e))
      == if e == "" then mount + NonEmpty(dir) else Onward(mount + NonEmpty(dir), e)
  {
    NonEmptyOnward(dir, e);
    if e == ".." {
      var n := NonEmpty(dir);
      assert (mount + n)[..|mount + n| - 1] == mount + n[..|n| - 1];
    } else if e != "" && e != "." {
      assert mount + (NonEmpty(dir) + [e]) == mount + NonEmpty(dir) + [e];
    }
  }

  /** Below a mount the file system ends where the site does exactly if the steps never depart. */
  lemma {:induction false} BelowMount(mount: seq<string>, dir: seq<string>, steps: seq<string>)
    requires mount != []
    ensures Climb(mount + NonEmpty(dir), NonEmpty(steps)) == mount + NonEmpty(Climb(dir, steps))
      <==> !Departs(dir, steps)
    decreases steps
  {
    if steps != [] {
      var e, rest := steps[0], steps[1..];
      NonEmptyNext(steps);
      if TakesBack(dir, e) {
        DepartedStaysApart(mount, dir, rest);
      } else {
        OnwardBelow(mount, dir, e);
        BelowMount(mount, Onward(dir, e), rest);
      }
    }
  }

  /** Local resolution: from the root of the file system, or from the directory a name lies in below the mount. */
  function Locally(mount: seq<string>, name: string, resource: string): seq<string> {
    if Rooted(resource) then Climb([], Segments(resource))
    else Climb(Climb(mount, Segments(UpToSlash(name))), Segments(resource))
  }

  lemma SegmentsOfFront(name: string)
    ensures Segments(UpToSlash(name)) == NonEmpty(Split(name)[..|Split(name)| - 1])
  {
    UpToSlashEnds(name);
    var front := Split(name)[..|Split(name)| - 1];
    NonEmptyConcat(front, [""]);
    NonEmptyNext([""]);
    assert [""][1..] == [];
  }

  lemma SegmentsOfSplit(name: string)
    ensures Segments(UpToSlash(name)) == NonEmpty(Split(name)[..|Split(name)| - 1])
    ensures Segments(name) == Segments(UpToSlash(name)) + NonEmpty([Last(Split(name))])
  {
    SegmentsOfFront(name);
    var elems := Split(name);
    var front := elems[..|elems| - 1];
    assert elems == front + [Last(elems)];
    NonEmptyConcat(front, [Last(elems)]);
  }

  /** Local resolution of a relative reference is following the same steps from the mount. */
  lemma LocallyRelative(mount: seq<string>, name: string, resource: string)
    requires resource != "" && !Rooted(resource)
    ensures Locally(mount, name, resource) == Climb(mount, NonEmpty(Steps("/" + name, resource)))
  {
    SegmentsOfSplit(name);
    RelativeSteps(name, resource);
    NonEmptyConcat(Split(name)[..|Split(name)| - 1], Split(resource));
    ClimbComposes(mount, Segments(UpToSlash(name)), Segments(resource));
  }

  /** A reference that names something leads to an entry below the mount, or fails to, as follows. */
  predicate LandsLocally(name: string, resource: string) {
    resource != "" && !Rooted(resource) && !Departs([], Steps("/" + name, resource))
  }

  lemma RootedLandsOutside(mount: seq<string>, name: string, resource: string)
    requires mount != [] && Rooted(resource)
    ensures |Locally(mount, name, resource)| < |mount| + |NonEmpty(Reached("/" + name, resource))|
  {
    var steps := Split(resource[1..]);
    assert resource == "/" + resource[1..];
    SplitOfRooted(resource[1..]);
    NonEmptyConcat([""], steps);
    assert NonEmpty([""]) == [] && [] + NonEmpty(steps) == NonEmpty(steps);
    StaysShallower([], [], steps, 0, 0);
  }

  /**
   * Local resolution lands where URL resolution did exactly when the reference is not rooted and its
   * steps never take back the site's root or an empty element: the builder's file system neither
   * clamps at the site's root nor counts empty elements. An empty reference stands for the
   * kustomization itself on the site and for its directory locally.
   */
  lemma LandsIff(mount: seq<string>, name: string, resource: string)
    requires mount != [] && (resource == "" ==> IsPlain(Last(Split(name))))
    ensures Locally(mount, name, resource) == mount + NonEmpty(Reached("/" + name, resource))
      <==> LandsLocally(name, resource)
  {
    if Rooted(resource) {
      RootedLandsOutside(mount, name, resource);
    } else if resource != "" {
      LocallyRelative(mount, name, resource);
      BelowMount(mount, [], Steps("/" + name, resource));
      assert mount + NonEmpty([]) == mount;
    } else {
      EmptyLandsNowhere(mount, name);
    }
  }

  /** An empty reference leads to the kustomization itself. */
  lemma EmptyReaches(name: string, front: seq<string>, file: string)
    requires Split(name) == front + [file] && IsPlain(file)
    ensures NonEmpty(Reached("/" + name, "")) == NonEmpty(Climb([], front)) + [file]
  {
    assert ("/" + name)[1..] == name;
    ClimbComposes([], front, [file]);
    var dir := Climb([], front);
    ClimbPlain(dir, [file]);
    NonEmptyOnward(dir, file);
  }

  lemma LocallyEmpty(mount: seq<string>, name: string)
    ensures Locally(mount, name, "") == Climb(mount, NonEmpty(Split(name)[..|Split(name)| - 1]))
  {
    SegmentsOfSplit(name);
    NonEmptyNext([""]);
    assert [""][1..] == [] && Segments("") == [];
  }

  lemma EmptyLandsNowhere(mount: seq<string>, name: string)
    requires IsPlain(Last(Split(name)))
    ensures |Locally(mount, name, "")| < |mount| + |NonEmpty(Reached("/" + name, ""))|
  {
    var elems := Split(name);
    var front, file := elems[..|elems| - 1], Last(elems);
    assert elems == front + [file];
    EmptyReaches(name, front, file);
    LocallyEmpty(mount, name);
    StaysShallower(mount, [], front, |mount|, 0);
  }

  // ---- what a reference is packed under ----

  lemma SegmentsOfRooted(path: string)
    requires Rooted(path)
    ensures Segments(path) == Segments(TrimSlash(path))
  {
    assert path == "/" + path[1..];
    SplitOfRooted(path[1..]);
    NonEmptyNext([""] + Split(path[1..]));
    assert ([""] + Split(path[1..]))[1..] == Split(path[1..]);
  }

  lemma AbsoluteElements(segs: seq<string>, isDir: bool)
    requires AllSlashFree(segs)
    ensures Split(Absolute(segs, isDir))
      == [""] + (if segs == [] then [""] else segs) + (if isDir && segs != [] then [""] else [])
  {
    var slash := isDir && segs != [];
    var body := Join(segs) + (if slash then "/" else "");
    assert Absolute(segs, isDir) == "/" + body;
    SplitOfRooted(body);
    SplitOfSlashed(segs, slash);
    var middle, end := if segs == [] then [""] else segs, if slash then [""] else [];
    assert [""] + (middle + end) == [""] + middle + end;
  }

  lemma SegmentsOfAbsolute(segs: seq<string>, isDir: bool)
    requires AllSlashFree(segs)
    ensures Segments(Absolute(segs, isDir)) == NonEmpty(segs)
  {
    AbsoluteElements(segs, isDir);
    var middle, end := if segs == [] then [""] else segs, if isDir && segs != [] then [""] else [];
    NonEmptyConcat([""] + middle, end);
    NonEmptyConcat([""], middle);
    NonEmptyNext([""]);
    assert [""][1..] == [] && NonEmpty(end) == [] && NonEmpty(middle) == NonEmpty(segs);
  }

  /** A resolved path goes through the names the reference's steps lead to. */
  lemma SegmentsOfResolved(path: string, resource: string)
    requires Rooted(path)
    ensures Segments(ResolvePath(path, resource)) == NonEmpty(Reached(path, resource))
    ensures AllPlain(NonEmpty(Reached(path, resource)))
  {
    ResolveClimbs(path, resource);
    var dir, slipped := Reached(path, resource), SlipsOn(path, resource);
    if dir != [] { NonEmptyNext(dir); }
    assert forall e :: e in Kept(dir, slipped) ==> e in dir;
    SegmentsOfAbsolute(Kept(dir, slipped), IsDot(Last(Steps(path, resource))));
    NonEmptyAreSegments(dir);
  }

  /** The last step is a dot segment or has no extension. */
  predicate NamesDirectory(steps: seq<string>)
    requires steps != []
  {
    IsDot(Last(steps)) || '.' !in Last(steps)
  }

  lemma SlashLeavesEmptyStep(path: string, resource: string)
    requires Rooted(path) && EndsInSlash(resource)
    ensures Last(Steps(path, resource)) == ""
  {
    MergedIsRooted(path, resource);
    var full := Merge(path, resource);
    assert full[|full| - 1] == '/';
    SplitOfDirectory(full[1..], "");
  }

  lemma LastOfAbsolute(segs: seq<string>, isDir: bool)
    requires AllSlashFree(segs)
    ensures Last(Split(Absolute(segs, isDir))) == if segs == [] || isDir then "" else Last(segs)
  {
    AbsoluteElements(segs, isDir);
  }

  lemma LastStep(steps: seq<string>, slipped: bool)
    requires steps != [] && !IsDot(Last(steps))
    ensures var kept := Kept(Climb([], steps), slipped); (if kept == [] then "" else Last(kept)) == Last(steps)
  {
    var front := steps[..|steps| - 1];
    assert steps == front + [Last(steps)];
    ClimbOne([], front, Last(steps));
  }

  lemma ExtensionIff(path: string, resource: string)
    requires Rooted(path)
    ensures HasExt(ResolvePath(path, resource)) <==> !NamesDirectory(Steps(path, resource))
  {
    ResolveClimbs(path, resource);
    var steps, dir, slipped := Steps(path, resource), Reached(path, resource), SlipsOn(path, resource);
    assert forall e :: e in Kept(dir, slipped) ==> e in dir;
    LastOfAbsolute(Kept(dir, slipped), IsDot(Last(steps)));
    if !IsDot(Last(steps)) { LastStep(steps, slipped); }
  }

  lemma DirectoryLikeIff(path: string, resource: string)
    requires Rooted(path)
    ensures DirectoryLike(resource, ResolvePath(path, resource)) <==> NamesDirectory(Steps(path, resource))
  {
    ExtensionIff(path, resource);
    if EndsInSlash(resource) { SlashLeavesEmptyStep(path, resource); }
  }

  lemma SegmentsInside(path: string, file: string)
    requires IsSegment(file)
    ensures Segments(path + "/" + file) == Segments(path) + [file]
  {
    SplitAtSlash(path, file);
    SplitOfSlashFree(file);
    NonEmptyConcat(Split(path), [file]);
    NonEmptyOfSegments([file]);
  }

  lemma CleanPlain(path: string)
    requires Rooted(path) && AllPlain(Segments(path))
    ensures Clean(path) == "/" + Join(Segments(path))
  {
    CleanRooted(path);
    ClimbPlain([], Segments(path));
    assert [] + Segments(path) == Segments(path);
  }

  lemma KustomizationIn(resolved: string)
    requires Rooted(resolved) && AllPlain(Segments(resolved))
    ensures TrimSlash(JoinKustomization(resolved)) == Join(Segments(resolved) + [KUSTOMIZATION])
  {
    KustomizationIsPlain();
    SegmentsInside(resolved, KUSTOMIZATION);
    CleanPlain(resolved + "/" + KUSTOMIZATION);
    var names := Join(Segments(resolved) + [KUSTOMIZATION]);
    assert TrimSlash("/" + names) == names;
  }

  /** The entry a reference stands for: the kustomization in the directory its steps lead to, or the file. */
  function EntryOf(path: string, resource: string): seq<string> {
    NonEmpty(Reached(path, resource)) + (if NamesDirectory(Steps(path, resource)) then [KUSTOMIZATION] else [])
  }

  lemma SegmentsOfNames(segs: seq<string>)
    requires AllSegments(segs)
    ensures Segments(Join(segs)) == segs
  {
    SegmentsOfJoin(segs, false);
    assert "" + Join(segs) == Join(segs);
  }

  lemma ClassifyNested(path: string, resource: string)
    requires Rooted(path) && NamesDirectory(Steps(path, resource))
    ensures Classify(path, resource) == Nested(Join(EntryOf(path, resource)))
    ensures Segments(Join(EntryOf(path, resource))) == EntryOf(path, resource)
  {
    ResolvedIsRooted(path, resource);
    DirectoryLikeIff(path, resource);
    SegmentsOfResolved(path, resource);
    KustomizationIn(ResolvePath(path, resource));
    KustomizationIsPlain();
    SegmentsOfNames(EntryOf(path, resource));
  }

  lemma ClassifyPlain(path: string, resource: string)
    requires Rooted(path) && !NamesDirectory(Steps(path, resource))
    ensures Classify(path, resource) == Plain(TrimSlash(ResolvePath(path, resource)))
    ensures Segments(TrimSlash(ResolvePath(path, resource))) == EntryOf(path, resource)
  {
    ResolvedIsRooted(path, resource);
    DirectoryLikeIff(path, resource);
    SegmentsOfResolved(path, resource);
    SegmentsOfRooted(ResolvePath(path, resource));
  }

  /** What any reference is fetched and packed under, from its steps alone. */
  lemma ClassifyClimbs(path: string, resource: string)
    requires Rooted(path)
    ensures Classify(path, resource).Nested? <==> NamesDirectory(Steps(path, resource))
    ensures Segments(Classify(path, resource).name) == EntryOf(path, resource)
    ensures Classify(path, resource).Nested? ==> Classify(path, resource).name == Join(EntryOf(path, resource))
  {
    if NamesDirectory(Steps(path, resource)) {
      ClassifyNested(path, resource);
    } else {
      ClassifyPlain(path, resource);
    }
  }

  lemma SlashEndsEmpty(path: string)
    ensures EndsInSlash(path) ==> Last(Split(path)) == ""
  {
    if EndsInSlash(path) { SplitOfDirectory(path, ""); }
  }

  lemma NestedIsWritable(path: string, resource: string)
    requires Rooted(path) && NamesDirectory(Steps(path, resource))
    ensures !EndsInSlash(Classify(path, resource).name)
  {
    ClassifyNested(path, resource);
    JoinEndsAlike(NonEmpty(Reached(path, resource)), KUSTOMIZATION);
    assert KUSTOMIZATION[|KUSTOMIZATION| - 1] == 'l';
  }

  lemma TrimmedEndsAlike(path: string)
    ensures EndsInSlash(TrimSlash(path)) ==> EndsInSlash(path)
  {
  }

  lemma ExtensionMeansNoSlash(path: string)
    requires HasExt(path)
    ensures !EndsInSlash(TrimSlash(path))
  {
    TrimmedEndsAlike(path);
    SlashEndsEmpty(path);
  }

  /** A reference is never packed under a name that ends in a slash: only the root can fail to be packed. */
  lemma ReferencesAreWritable(path: string, resource: string)
    requires Rooted(path)
    ensures !EndsInSlash(Classify(path, resource).name)
  {
    if NamesDirectory(Steps(path, resource)) {
      NestedIsWritable(path, resource);
    } else {
      ClassifyPlain(path, resource);
      ExtensionIff(path, resource);
      ExtensionMeansNoSlash(ResolvePath(path, resource));
    }
  }

  lemma JoinEndsAlike(segs: seq<string>, last: string)
    requires last != ""
    ensures var s := Join(segs + [last]); s != "" && s[|s| - 1] == last[|last| - 1]
  {
    if segs == [] {
      assert segs + [last] == [last];
    } else {
      JoinConcat(segs, [last]);
    }
  }

  // ---- closure ----

  lemma {:induction false} RefsOfHas(site: Site, path: string, resources: seq<string>, resource: string)
    requires resource in resources && !site.absolute(resource)
    ensures Classify(path, resource) in RefsOf(site, path, resources)
  {
    if resource != resources[0] {
      RefsOfHas(site, path, resources[1..], resource);
    }
  }

  lemma ReferredIsPacked(site: Site, root: string, doc: Content, name: string, r: Ref)
    requires Materialized(site, root, doc).Ok? && Reachable(site, root, doc, name) && r in RefsIn(site, root, doc, name)
    ensures r.name in site.files
    ensures Member(r.name, if r.Nested? then ContentOf(site, root, doc, r.name) else site.files[r.name])
      in Materialized(site, root, doc).trail.tar
  {
    WalkIsClosure(site, root, doc);
    assert Sound(site, root, doc, name);
    var m := Member(r.name, if r.Nested? then ContentOf(site, root, doc, r.name) else site.files[r.name]);
    if r.Nested? { ReachableStep(site, root, doc, name, r.name); }
    assert Packed(site, root, doc, m);
    ArchiveMembers(site, root, doc, m);
  }

  /** The builder finds content under a reference of the kustomization called name. */
  ghost predicate FindsLocally(disk: Disk, mount: seq<string>, name: string, resource: string, content: Content) {
    && disk.Disk?
    && Locally(mount, name, resource) == mount + NonEmpty(Reached("/" + name, resource))
    && EntryOf("/" + name, resource) in disk.files && disk.files[EntryOf("/" + name, resource)] == content
  }

  lemma KustomizationIsPlain()
    ensures IsPlain(KUSTOMIZATION)
  {
  }

  lemma PlainAndOne(segs: seq<string>, e: string)
    requires AllPlain(segs) && IsPlain(e)
    ensures AllPlain(segs + [e])
  {
  }

  lemma EntryIsPlain(path: string, resource: string)
    requires Rooted(path)
    ensures AllPlain(EntryOf(path, resource))
  {
    var segs := NonEmpty(Reached(path, resource));
    SegmentsOfResolved(path, resource);
    KustomizationIsPlain();
    PlainAndOne(segs, KUSTOMIZATION);
    assert segs + [] == segs;
  }

  lemma PlaceOfPlain(name: string)
    requires AllPlain(Segments(name))
    ensures Place(name) == Segments(name)
  {
    ClimbPlain([], Segments(name));
    assert [] + Segments(name) == Segments(name);
  }

  lemma PlaceOfReference(path: string, resource: string)
    requires Rooted(path)
    ensures Place(Classify(path, resource).name) == EntryOf(path, resource)
  {
    ClassifyClimbs(path, resource);
    EntryIsPlain(path, resource);
    PlaceOfPlain(Classify(path, resource).name);
  }

  /**
   * The unpacked archive is closed under local resolution. Every relative reference of an expanded
   * kustomization, however it is written, has its entry among what is packed. Where no member replaces
   * another of different content, the builder finds under it what the site serves if and only if the
   * archive can be unpacked at all and the reference lands locally.
   */
  lemma ArchiveIsClosedLocally(site: Site, root: string, doc: Content, name: string, resource: string,
                               mount: seq<string>)
    requires Materialized(site, root, doc).Ok? && mount != []
    requires Reachable(site, root, doc, name)
    requires var d := site.parse(ContentOf(site, root, doc, name)); d.Document? && resource in d.resources + d.bases
    requires !site.absolute(resource) && (resource == "" ==> IsPlain(Last(Split(name))))
    ensures var tar, r := Materialized(site, root, doc).trail.tar, Classify("/" + name, resource);
      && r.name in site.files
      && (exists m :: m in tar && m.name == r.name && Place(m.name) == EntryOf("/" + name, resource))
      && (NoClash(tar) && (r.name == root ==> site.files[root] == doc)
          ==> (FindsLocally(Extract(tar), mount, name, resource, site.files[r.name])
               <==> Extractable(tar) && LandsLocally(name, resource)))
  {
    var d := site.parse(ContentOf(site, root, doc, name));
    var tar, r := Materialized(site, root, doc).trail.tar, Classify("/" + name, resource);
    RefsOfHas(site, "/" + name, d.resources + d.bases, resource);
    PlaceOfReference("/" + name, resource);
    ReferredIsPacked(site, root, doc, name, r);
    var m := Member(r.name, if r.Nested? then ContentOf(site, root, doc, r.name) else site.files[r.name]);
    assert m in tar;
    ExtractsIff(tar);
    if Extractable(tar) && NoClash(tar) { UnpackedFaithfulIff(tar); }
    LandsIff(mount, name, resource);
  }

  lemma {:induction false} NoUpsNeverDepart(dir: seq<string>, steps: seq<string>)
    requires ".." !in steps
    ensures !Departs(dir, steps)
    decreases steps
  {
    if steps != [] {
      assert steps[0] in steps && forall e :: e in steps[1..] ==> e in steps;
      NoUpsNeverDepart(Onward(dir, steps[0]), steps[1..]);
    }
  }

  /** Names that are followed from a mount end below it where they lead on their own, unless they climb out. */
  lemma NamesBelowMount(mount: seq<string>, path: string)
    requires mount != []
    ensures Climb(mount, Segments(path)) == mount + Place(path) <==> !Departs([], Segments(path))
  {
    var segs := Segments(path);
    SplitIsSlashFree(path);
    NonEmptyAreSegments(Split(path));
    NonEmptyOfSegments(segs);
    ClimbKeepsFull([], segs);
    NonEmptyOfSegments(Place(path));
    BelowMount(mount, [], segs);
    assert mount + NonEmpty([]) == mount;
  }

  lemma {:induction false} ClimbKeepsFull(dir: seq<string>, steps: seq<string>)
    requires (forall e :: e in dir ==> e != "") && forall e :: e in steps ==> e != ""
    ensures forall e :: e in Climb(dir, steps) ==> e != ""
    decreases steps
  {
    if steps != [] {
      var next := Onward(dir, steps[0]);
      assert steps[0] in steps && forall e :: e in steps[1..] ==> e in steps;
      assert forall e :: e in next ==> e in dir || e == steps[0];
      ClimbKeepsFull(next, steps[1..]);
    }
  }

  /** The cleaned directory of a path is the directory, followed from a mount, unless the path is rooted and climbs. */
  lemma DirLeadsIff(mount: seq<string>, path: string)
    requires mount != []
    ensures Climb(mount, Segments(DirOf(path))) == Climb(mount, Segments(UpToSlash(path)))
      <==> !Rooted(path) || !Departs([], Segments(UpToSlash(path)))
  {
    var dir := UpToSlash(path);
    if Rooted(path) {
      UpToSlashOfRooted(path);
      CleanRooted(dir);
      ClimbPlain(mount, Place(dir));
      NamesBelowMount(mount, dir);
    } else {
      RelativeDirectory(path);
      CleanRelative(mount, dir);
    }
  }

  /**
   * The build directory, followed from the mount, is the directory part of the root's name, except
   * exactly if that name is rooted and climbs above its root. In an archive that can be unpacked it
   * never does, and the build directory is the one the root kustomization lies in.
   */
  lemma BuildDirHoldsRoot(site: Site, root: string, doc: Content, mount: seq<string>)
    requires Materialized(site, root, doc).Ok? && mount != []
    ensures Climb(mount, Segments(DirOf(root))) == Climb(mount, Segments(UpToSlash(root)))
      <==> !Rooted(root) || !Departs([], Segments(UpToSlash(root)))
    ensures var disk := Extract(Materialized(site, root, doc).trail.tar);
      disk.Disk? ==>
        && Place(root) in disk.files
        && Climb(mount, Segments(DirOf(root))) == mount + Place(UpToSlash(root))
        && (IsPlain(Last(Split(root))) ==> Place(root) == Place(UpToSlash(root)) + [Last(Split(root))])
  {
    var tar := Materialized(site, root, doc).trail.tar;
    RootReachable(site, root, doc);
    ArchiveMembers(site, root, doc, Member(root, doc));
    DirLeadsIff(mount, root);
    ExtractsIff(tar);
    if Extract(tar).Disk? {
      ExtractedComesFromMember(tar, Place(root));
      SegmentsOfSplit(root);
      NoUpsNeverDepart([], Segments(UpToSlash(root)));
      NamesBelowMount(mount, UpToSlash(root));
      if IsPlain(Last(Split(root))) { PlaceInDirectory(root); }
    }
  }

  lemma PlaceInDirectory(name: string)
    requires IsPlain(Last(Split(name)))
    ensures Place(name) == Place(UpToSlash(name)) + [Last(Split(name))]
  {
    var file := Last(Split(name));
    SegmentsOfSplit(name);
    NonEmptyOfSegments([file]);
    ClimbOne([], Segments(UpToSlash(name)), file);
  }

  lemma RelativeDirectory(path: string)
    requires !Rooted(path)
    ensures !Rooted(UpToSlash(path))
  {
    assert UpToSlash(path) + FileOf(path) == path;
  }

  // ---- references by plain names ----

  lemma NamedSteps(dir: seq<string>, file: string, names: seq<string>, slash: bool)
    requires AllPlain(dir) && SlashFree(file) && AllPlain(names) && names != []
    ensures Steps("/" + Join(dir + [file]), Join(names) + (if slash then "/" else ""))
      == dir + names + (if slash then [""] else [])
  {
    var elems, ref := dir + [file], Join(names) + (if slash then "/" else "");
    SplitOfJoin(elems);
    SplitOfSlashed(names, slash);
    SegmentsStart(names);
    assert ref[0] == Join(names)[0];
    RelativeSteps(Join(elems), ref);
    assert elems[..|elems| - 1] == dir;
    var end := if slash then [""] else [];
    assert dir + (names + end) == dir + names + end;
  }

  lemma NamedReach(dir: seq<string>, names: seq<string>, slash: bool)
    requires AllPlain(dir) && AllPlain(names)
    ensures var end := if slash then [""] else [];
      NonEmpty(Climb([], dir + names + end)) == dir + names
  {
    var end := if slash then [""] else [];
    var steps := dir + names + end;
    ClimbPlain([], steps);
    assert [] + steps == steps;
    NonEmptyConcat(dir + names, end);
    NonEmptyOfSegments(dir + names);
    NonEmptyNext([""]);
    assert [""][1..] == [];
  }

  /**
   * A reference by plain names from a kustomization in dir: with a final slash, or without a dot in its
   * last name, it is the kustomization.yaml in the directory it names, else the file it names.
   */
  lemma ReferenceByName(dir: seq<string>, file: string, names: seq<string>, slash: bool)
    requires AllPlain(dir) && SlashFree(file) && AllPlain(names) && names != []
    ensures Classify("/" + Join(dir + [file]), Join(names) + (if slash then "/" else ""))
      == if slash || '.' !in Last(names) then Nested(Join(dir + names + ["kustomization.yaml"]))
         else Plain(Join(dir + names))
  {
    var path, ref := "/" + Join(dir + [file]), Join(names) + (if slash then "/" else "");
    NamedSteps(dir, file, names, slash);
    NamedReach(dir, names, slash);
    assert Last(names) in names;
    if slash || '.' !in Last(names) {
      ClassifyNested(path, ref);
    } else {
      ClassifyPlain(path, ref);
      assert dir + names + [] == dir + names;
      PlainStepsResolve(path, ref);
      assert Absolute(dir + names, false) == "/" + Join(dir + names);
    }
  }

  // ---- inputs on which the conditions fail ----

  /** A file reference from a kustomization at the site's root, by its plain names. */
  lemma FileReference(segs: seq<string>)
    requires AllPlain(segs) && segs != [] && '.' in Last(segs)
    ensures Classify("/" + KUSTOMIZATION, Join(segs)) == Plain(Join(segs))
    ensures Place(Join(segs)) == segs && LandsLocally(KUSTOMIZATION, Join(segs)) && !EndsInSlash(Join(segs))
  {
    var path, resource := "/" + KUSTOMIZATION, Join(segs);
    SplitOfJoin(segs);
    StepsFromRoot(resource);
    PlainStepsResolve(path, resource);
    assert Last(segs) in segs;
    ClassifyPlain(path, resource);
    assert Absolute(segs, false) == "/" + resource;
    SegmentsOfNames(segs);
    PlaceOfPlain(resource);
    assert ".." !in segs;
    NoUpsNeverDepart([], segs);
    ReferencesAreWritable(path, resource);
  }

  lemma StepsFromRoot(resource: string)
    requires AllPlain(Split(resource)) || (resource != "" && !Rooted(resource))
    ensures resource != "" && !Rooted(resource) && Steps("/" + KUSTOMIZATION, resource) == Split(resource)
  {
    assert Split(resource)[0] in Split(resource);
    KustomizationIsPlain();
    SplitOfSlashFree(KUSTOMIZATION);
    RelativeSteps(KUSTOMIZATION, resource);
    assert [KUSTOMIZATION][..0] + Split(resource) == Split(resource);
  }

  /** A site that serves f and f/x, both listed by the root: neither f nor x looks like a directory. */
  ghost predicate FileBelowFile(site: Site, doc: Content, f: string, x: string) {
    && IsPlain(f) && IsPlain(x) && '.' in f && '.' in x && f != KUSTOMIZATION
    && var below := f + "/" + x;
      && f in site.files && below in site.files
      && site.parse(doc) == Document([f, below], []) && !site.absolute(f) && !site.absolute(below)
  }

  lemma TwoReferences(site: Site, path: string, a: string, b: string)
    requires !site.absolute(a) && !site.absolute(b)
    ensures RefsOf(site, path, [a, b]) == [Classify(path, a), Classify(path, b)]
  {
    assert [a, b][1..] == [b] && [b][1..] == [];
    assert RefsOf(site, path, [b]) == [Classify(path, b)];
  }

  lemma TwoFilesAreWalked(site: Site, root: string, doc: Content, a: string, b: string)
    requires !EndsInSlash(root) && site.parse(doc).Document? && Refs(site, root, doc) == [Plain(a), Plain(b)]
    requires a in site.files && b in site.files && !EndsInSlash(a) && !EndsInSlash(b)
    ensures Materialized(site, root, doc)
      == Ok(Trail([root], [Member(root, doc), Member(a, site.files[a]), Member(b, site.files[b])]))
  {
    var refs := [Plain(a), Plain(b)];
    var t := Trail([root], [Member(root, doc)]);
    assert [] + [root] == [root] && [] + [Member(root, doc)] == [Member(root, doc)];
    assert refs[1..] == [Plain(b)] && refs[1..][1..] == [];
    var t' := t.(tar := t.tar + [Member(a, site.files[a])]);
    var t'' := t'.(tar := t'.tar + [Member(b, site.files[b])]);
    assert WalkRefs(site, root, [], t'') == Ok(t'');
    assert WalkRefs(site, root, refs[1..], t') == Ok(t'');
    assert WalkRefs(site, root, refs, t) == WalkRefs(site, root, refs[1..], t');
    assert Walk(site, root, root, doc, Trail([], [])) == WalkRefs(site, root, refs, t);
  }

  lemma JoinOfPair(f: string, x: string)
    ensures Join([f]) == f && Join([f, x]) == f + "/" + x
  {
    assert [f, x][1..] == [x] && Join([x]) == x;
  }

  lemma FileBelowFileRefs(site: Site, doc: Content, f: string, x: string)
    requires FileBelowFile(site, doc, f, x)
    ensures var below := f + "/" + x;
      && Refs(site, KUSTOMIZATION, doc) == [Plain(f), Plain(below)]
      && LandsLocally(KUSTOMIZATION, f) && LandsLocally(KUSTOMIZATION, below)
      && Place(f) == [f] && Place(below) == [f, x] && !EndsInSlash(f) && !EndsInSlash(below)
  {
    var below, segs := f + "/" + x, [f, x];
    JoinOfPair(f, x);
    FileReference([f]);
    FileReference(segs);
    assert [f, below] + [] == [f, below];
    TwoReferences(site, "/" + KUSTOMIZATION, f, below);
  }

  lemma FileBelowFileIsWalked(site: Site, doc: Content, f: string, x: string)
    requires FileBelowFile(site, doc, f, x)
    ensures var below := f + "/" + x;
      Materialized(site, KUSTOMIZATION, doc) == Ok(Trail([KUSTOMIZATION],
        [Member(KUSTOMIZATION, doc), Member(f, site.files[f]), Member(below, site.files[below])]))
  {
    FileBelowFileRefs(site, doc, f, x);
    assert !EndsInSlash(KUSTOMIZATION);
    TwoFilesAreWalked(site, KUSTOMIZATION, doc, f, f + "/" + x);
  }

  lemma PrefixStops(tar: seq<Member>, i: nat, j: nat)
    requires i < |tar| && j < |tar| && Place(tar[i].name) < Place(tar[j].name)
    ensures Extract(tar) == Stopped
  {
    ExtractsIff(tar);
    assert tar[i] in tar && tar[j] in tar;
  }

  lemma DistinctPlacesNeverClash(tar: seq<Member>)
    requires forall i, j :: 0 <= i < j < |tar| ==> Place(tar[i].name) != Place(tar[j].name)
    ensures NoClash(tar)
  {
  }

  /**
   * As with v1.2 and v1.2/x.yaml: the walk packs both, no two members share a place and both references
   * land locally, yet the archive cannot be unpacked, as f is a file there and a directory.
   */
  lemma FileBelowFileStops(site: Site, doc: Content, f: string, x: string)
    requires FileBelowFile(site, doc, f, x)
    ensures var r := Materialized(site, KUSTOMIZATION, doc);
      r.Ok? && NoClash(r.trail.tar) && Extract(r.trail.tar) == Stopped
    ensures LandsLocally(KUSTOMIZATION, f) && LandsLocally(KUSTOMIZATION, f + "/" + x)
  {
    FileBelowFileRefs(site, doc, f, x);
    FileBelowFileIsWalked(site, doc, f, x);
    var tar := Materialized(site, KUSTOMIZATION, doc).trail.tar;
    RootPlace();
    ThirdBelowSecond(tar, KUSTOMIZATION, f, x);
  }

  lemma DistinctThree(places: seq<seq<string>>, k: string, f: string, x: string)
    requires places == [[k], [f], [f, x]] && k != f
    ensures forall i, j :: 0 <= i < j < |places| ==> places[i] != places[j]
    ensures places[1] < places[2]
  {
    assert places[0][0] == k && places[1][0] == f && |places[2]| == 2;
  }

  lemma ThirdBelowSecond(tar: seq<Member>, k: string, f: string, x: string)
    requires |tar| == 3 && k != f
    requires Place(tar[0].name) == [k] && Place(tar[1].name) == [f] && Place(tar[2].name) == [f, x]
    ensures NoClash(tar) && Extract(tar) == Stopped
  {
    var places := [Place(tar[0].name), Place(tar[1].name), Place(tar[2].name)];
    DistinctThree(places, k, f, x);
    forall i, j | 0 <= i < j < |tar| ensures Place(tar[i].name) != Place(tar[j].name) {
      assert Place(tar[i].name) == places[i] && Place(tar[j].name) == places[j];
    }
    DistinctPlacesNeverClash(tar);
    PrefixStops(tar, 1, 2);
  }

  lemma RootPlace()
    ensures Place(KUSTOMIZATION) == [KUSTOMIZATION]
  {
    KustomizationIsPlain();
    SplitOfSlashFree(KUSTOMIZATION);
    NonEmptyOfSegments([KUSTOMIZATION]);
    PlaceOfPlain(KUSTOMIZATION);
  }

  /** A reference above the site's root, and one that takes back an empty element, land elsewhere. */
  lemma DepartingReferencesMiss(mount: seq<string>, up: string, empty: string)
    requires mount != [] && up == "../x.yaml" && empty == "a//../x.yaml"
    ensures Locally(mount, KUSTOMIZATION, up) != mount + NonEmpty(Reached("/" + KUSTOMIZATION, up))
    ensures Locally(mount, KUSTOMIZATION, empty) != mount + NonEmpty(Reached("/" + KUSTOMIZATION, empty))
  {
    var s, t := ["..", "x.yaml"], ["a", "", "..", "x.yaml"];
    assert s[1..] == ["x.yaml"] && Join(s) == up;
    assert t[1..] == ["", "..", "x.yaml"] && t[2..] == s && Join(t[1..]) == "/" + up && Join(t) == empty;
    SplitOfJoin(s);
    SplitOfJoin(t);
    StepsFromRoot(up);
    StepsFromRoot(empty);
    assert TakesBack([], s[0]);
    assert t[1..][1..] == s && Onward(["a"], "") == ["a", ""] && TakesBack(["a", ""], "..");
    assert Departs(["a"], t[1..]);
    LandsIff(mount, KUSTOMIZATION, up);
    LandsIff(mount, KUSTOMIZATION, empty);
  }

  /** For a root called /../x.yaml the build directory is not its own. */
  lemma RootedClimberMisses(mount: seq<string>, root: string)
    requires mount != [] && root == "/../x.yaml"
    ensures Climb(mount, Segments(DirOf(root))) != Climb(mount, Segments(UpToSlash(root)))
  {
    var dir := "/../";
    assert root == dir + "x.yaml";
    UpToSlashOfDirectory(dir, "x.yaml");
    var elems := ["", "..", ""];
    assert elems[1..] == ["..", ""] && elems[2..] == [""] && Join(elems[1..]) == "../" && Join(elems) == dir;
    SplitOfJoin(elems);
    NonEmptyNext(elems);
    NonEmptyNext(elems[1..]);
    assert elems[1..][1..] == [""];
    NonEmptyNext([""]);
    assert [""][1..] == [] && Segments(dir) == [".."];
    assert Departs([], [".."]);
    DirLeadsIff(mount, root);
  }
}
