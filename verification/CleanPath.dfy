/** Slash-separated paths as the file system and Go's `path` package read them: empty elements do not count. */
module CleanPath {
  import opened Paths

  function NonEmpty(elems: seq<string>): seq<string> {
    if elems == [] then [] else (if elems[0] == "" then [] else [elems[0]]) + NonEmpty(elems[1..])
  }

  /** The names a path goes through. */
  function Segments(path: string): seq<string> {
    NonEmpty(Split(path))
  }

  lemma {:induction false} NonEmptyConcat(a: seq<string>, b: seq<string>)
    ensures NonEmpty(a + b) == NonEmpty(a) + NonEmpty(b)
  {
    if a == [] {
      assert a + b == b;
    } else {
      assert (a + b)[1..] == a[1..] + b;
      NonEmptyConcat(a[1..], b);
    }
  }

  lemma {:induction false} NonEmptyOfSegments(elems: seq<string>)
    requires forall e :: e in elems ==> e != ""
    ensures NonEmpty(elems) == elems
  {
    if elems != [] {
      assert elems[0] in elems && forall e :: e in elems[1..] ==> e in elems;
      NonEmptyOfSegments(elems[1..]);
    }
  }

  lemma {:induction false} NonEmptyAreSegments(elems: seq<string>)
    requires AllSlashFree(elems)
    ensures AllSegments(NonEmpty(elems)) && forall e :: e in NonEmpty(elems) ==> e in elems
  {
    if elems != [] {
      assert elems[0] in elems && forall e :: e in elems[1..] ==> e in elems;
      NonEmptyAreSegments(elems[1..]);
    }
  }

  lemma SegmentsOfJoin(segs: seq<string>, rooted: bool)
    requires AllSegments(segs)
    ensures Segments((if rooted then "/" else "") + Join(segs)) == segs
  {
    SplitOfSlashed(segs, false);
    NonEmptyOfSegments(segs);
    var text, elems := Join(segs), if segs == [] then [""] else segs;
    assert text + "" == text && elems + [] == elems;
    assert Split(text) == elems && NonEmpty(elems) == segs;
    if rooted {
      SplitOfRooted(text);
      NonEmptyConcat([""], elems);
      assert NonEmpty([""]) == [] && [] + segs == segs;
    } else {
      assert "" + text == text;
    }
  }

  // ---- path.Clean ----

  /** One element: `..` takes back a name, is dropped at the root, and is kept where there is nothing to take back. */
  function Tidy(rooted: bool, stack: seq<string>, e: string): seq<string> {
    if e == "" || e == "." then stack
    else if e == ".." && stack != [] && Last(stack) != ".." then stack[..|stack| - 1]
    else if e == ".." && rooted then stack
    else stack + [e]
  }

  function TidyAll(rooted: bool, stack: seq<string>, elems: seq<string>): seq<string>
    decreases elems
  {
    if elems == [] then stack else TidyAll(rooted, Tidy(rooted, stack, elems[0]), elems[1..])
  }

  function Clean(path: string): string {
    var r := (if Rooted(path) then "/" else "") + Join(TidyAll(Rooted(path), [], Split(path)));
    if r == "" then "." else r
  }

  /** path.Dir. */
  function DirOf(path: string): string {
    Clean(UpToSlash(path))
  }

  /** path.Join with a file name. */
  function JoinFile(dir: string, file: string): string {
    Clean(if dir == "" then file else dir + "/" + file)
  }

  lemma {:induction false} TidyRootedClimbs(stack: seq<string>, elems: seq<string>)
    requires AllPlain(stack) && AllSlashFree(elems)
    ensures TidyAll(true, stack, elems) == Climb(stack, NonEmpty(elems)) && AllPlain(TidyAll(true, stack, elems))
    decreases elems
  {
    if elems != [] {
      var e := elems[0];
      assert e in elems && forall x :: x in elems[1..] ==> x in elems;
      assert stack != [] ==> Last(stack) in stack;
      TidyRootedClimbs(Tidy(true, stack, e), elems[1..]);
      if e != "" {
        assert NonEmpty(elems)[1..] == NonEmpty(elems[1..]);
      } else {
        assert NonEmpty(elems) == NonEmpty(elems[1..]);
      }
    }
  }

  lemma ClimbOne(mount: seq<string>, stack: seq<string>, e: string)
    ensures Climb(mount, stack + [e]) == Onward(Climb(mount, stack), e)
  {
    ClimbComposes(mount, stack, [e]);
    assert [e][1..] == [];
  }

  /** Tidying one element does not change where the names lead, from anywhere. */
  lemma TidyLeadsAlike(mount: seq<string>, stack: seq<string>, e: string)
    requires e != "" && forall x :: x in stack ==> x != "."
    ensures Climb(mount, Tidy(false, stack, e)) == Onward(Climb(mount, stack), e)
  {
    if e == ".." && stack != [] && Last(stack) != ".." {
      var front := stack[..|stack| - 1];
      assert stack == front + [Last(stack)] && Last(stack) in stack;
      ClimbOne(mount, front, Last(stack));
    } else if e != "." {
      ClimbOne(mount, stack, e);
    }
  }

  lemma {:induction false} TidyRelativeClimbs(mount: seq<string>, stack: seq<string>, elems: seq<string>)
    requires AllSegments(stack) && (forall x :: x in stack ==> x != ".") && AllSlashFree(elems)
    ensures Climb(mount, TidyAll(false, stack, elems)) == Climb(Climb(mount, stack), NonEmpty(elems))
    ensures AllSegments(TidyAll(false, stack, elems))
    decreases elems
  {
    if elems != [] {
      var e := elems[0];
      assert e in elems && forall x :: x in elems[1..] ==> x in elems;
      TidyRelativeClimbs(mount, Tidy(false, stack, e), elems[1..]);
      if e != "" {
        TidyLeadsAlike(mount, stack, e);
        assert NonEmpty(elems)[1..] == NonEmpty(elems[1..]);
      } else {
        assert NonEmpty(elems) == NonEmpty(elems[1..]);
      }
    }
  }

  /** A rooted path is cleaned to where its names lead from the root. */
  lemma CleanRooted(path: string)
    requires Rooted(path)
    ensures Segments(Clean(path)) == Climb([], Segments(path)) && AllPlain(Climb([], Segments(path)))
    ensures Clean(path) == "/" + Join(Climb([], Segments(path)))
  {
    SplitIsSlashFree(path);
    TidyRootedClimbs([], Split(path));
    SegmentsOfJoin(Climb([], Segments(path)), true);
  }

  /** A relative path is cleaned without changing where it leads, from any directory. */
  lemma CleanRelative(mount: seq<string>, path: string)
    requires !Rooted(path)
    ensures Climb(mount, Segments(Clean(path))) == Climb(mount, Segments(path))
  {
    SplitIsSlashFree(path);
    var stack := TidyAll(false, [], Split(path));
    TidyRelativeClimbs(mount, [], Split(path));
    SegmentsOfJoin(stack, false);
    assert "" + Join(stack) == Join(stack);
    if Join(stack) == "" {
      assert Segments("") == [] && Climb(mount, stack) == mount;
      SplitOfSlashFree(".");
      assert Segments(".") == ["."];
      ClimbOne(mount, [], ".");
      assert [] + ["."] == ["."];
    }
  }

  /** `..` only at the front, and no other empty or dot element. */
  ghost predicate IsTidy(elems: seq<string>) {
    && AllSegments(elems)
    && forall i :: 0 <= i < |elems| ==> elems[i] != "." && (elems[i] == ".." ==> i == 0 || elems[i - 1] == "..")
  }

  lemma {:induction false} TidyAllIsTidy(rooted: bool, stack: seq<string>, elems: seq<string>)
    requires IsTidy(stack) && AllSlashFree(elems)
    ensures IsTidy(TidyAll(rooted, stack, elems))
    decreases elems
  {
    if elems != [] {
      assert elems[0] in elems && forall x :: x in elems[1..] ==> x in elems;
      TidyAllIsTidy(rooted, Tidy(rooted, stack, elems[0]), elems[1..]);
    }
  }

  /** A cleaned path is the shortest way to write it: nothing to take back, no empty element, no dot but alone. */
  lemma CleanIsTidy(path: string)
    ensures Clean(path) == "." || exists names ::
      IsTidy(names) && Clean(path) == (if Rooted(path) then "/" else "") + Join(names)
  {
    SplitIsSlashFree(path);
    TidyAllIsTidy(Rooted(path), [], Split(path));
    var names := TidyAll(Rooted(path), [], Split(path));
    assert IsTidy(names);
  }
}
