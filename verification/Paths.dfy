/**
 * URL paths: splitting at slashes, and relative resolution as `url.ResolveReference` does it
 * (section 5.2.4 of RFC 3986, `..` clamped at the root).
 */
module Paths {

  // ---- splitting and joining ----

  /** The elements between slashes; always at least one. */
  function Split(s: string): (r: seq<string>)
    ensures r != []
  {
    if s == "" then [""]
    else if s[0] == '/' then [""] + Split(s[1..])
    else
      var rest := Split(s[1..]);
      [[s[0]] + rest[0]] + rest[1..]
  }

  function Join(elems: seq<string>): string {
    if elems == [] then ""
    else if |elems| == 1 then elems[0]
    else elems[0] + "/" + Join(elems[1..])
  }

  predicate SlashFree(e: string) {
    '/' !in e
  }

  ghost predicate AllSlashFree(elems: seq<string>) {
    forall e :: e in elems ==> SlashFree(e)
  }

  lemma {:induction false} SplitIsSlashFree(s: string)
    ensures AllSlashFree(Split(s))
  {
    if s != "" {
      SplitIsSlashFree(s[1..]);
      if s[0] != '/' {
        var rest := Split(s[1..]);
        assert rest[0] in rest;
        assert forall e :: e in rest[1..] ==> e in rest;
      }
    }
  }

  lemma JoinOfLonger(c: char, elems: seq<string>)
    requires elems != []
    ensures Join([[c] + elems[0]] + elems[1..]) == [c] + Join(elems)
  {
    var longer := [[c] + elems[0]] + elems[1..];
    assert longer[1..] == elems[1..];
    if |elems| > 1 {
      var rest := "/" + Join(elems[1..]);
      assert ([c] + elems[0]) + rest == [c] + (elems[0] + rest);
    }
  }

  lemma {:induction false} JoinOfSplit(s: string)
    ensures Join(Split(s)) == s
  {
    if s != "" {
      JoinOfSplit(s[1..]);
      var rest := Split(s[1..]);
      assert s == [s[0]] + s[1..];
      if s[0] == '/' {
        assert ([""] + rest)[1..] == rest;
      } else {
        JoinOfLonger(s[0], rest);
      }
    }
  }

  lemma FirstLonger(c: char, a: seq<string>, b: seq<string>)
    requires a != []
    ensures [[c] + (a + b)[0]] + (a + b)[1..] == ([[c] + a[0]] + a[1..]) + b
  {
    assert (a + b)[1..] == a[1..] + b;
  }

  /** A slash splits exactly where it stands. */
  lemma {:induction false} SplitAtSlash(a: string, b: string)
    ensures Split(a + "/" + b) == Split(a) + Split(b)
  {
    var s := a + "/" + b;
    if a == "" {
      assert s[0] == '/' && s[1..] == b;
    } else {
      assert s[0] == a[0] && s[1..] == a[1..] + "/" + b;
      SplitAtSlash(a[1..], b);
      var ra, rb := Split(a[1..]), Split(b);
      if a[0] == '/' {
        assert [""] + (ra + rb) == [""] + ra + rb;
      } else {
        FirstLonger(a[0], ra, rb);
      }
    }
  }

  lemma {:induction false} SplitOfSlashFree(e: string)
    requires SlashFree(e)
    ensures Split(e) == [e]
  {
    if e != "" {
      SplitOfSlashFree(e[1..]);
      assert e == [e[0]] + e[1..];
    }
  }

  lemma {:induction false} SplitOfJoin(elems: seq<string>)
    requires elems != [] && AllSlashFree(elems)
    ensures Split(Join(elems)) == elems
  {
    SplitOfSlashFree(elems[0]);
    if |elems| > 1 {
      SplitOfJoin(elems[1..]);
      SplitAtSlash(elems[0], Join(elems[1..]));
      assert elems == [elems[0]] + elems[1..];
    }
  }

  /** Joins concatenate with a slash between them. */
  lemma {:induction false} JoinConcat(a: seq<string>, b: seq<string>)
    requires a != [] && b != []
    ensures Join(a + b) == Join(a) + "/" + Join(b)
  {
    if |a| == 1 {
      assert (a + b)[1..] == b;
    } else {
      assert (a + b)[1..] == a[1..] + b;
      JoinConcat(a[1..], b);
    }
  }

  // ---- resolution ----

  function Last(elems: seq<string>): string
    requires elems != []
  {
    elems[|elems| - 1]
  }

  predicate IsDot(e: string) {
    e == "." || e == ".."
  }

  /** base up to and including its last slash. */
  function UpToSlash(base: string): string {
    if base == "" then "" else if base[|base| - 1] == '/' then base else UpToSlash(base[..|base| - 1])
  }

  /** The unresolved path: the reference alone if it is rooted, else appended to base's directory. */
  function Merge(base: string, ref: string): string {
    if ref == "" then base else if ref[0] == '/' then ref else UpToSlash(base) + ref
  }

  /** One element of the loop; the stack holds the elements written so far. */
  function Push(stack: seq<string>, e: string): seq<string> {
    if e == "." then (if stack == [] then [""] else stack)
    else if e == ".." then (if |stack| <= 1 then [] else stack[..|stack| - 1])
    else stack + [e]
  }

  function PushAll(stack: seq<string>, elems: seq<string>): seq<string>
    decreases elems
  {
    if elems == [] then stack else PushAll(Push(stack, elems[0]), elems[1..])
  }

  /** A leading slash, the elements, a trailing slash after a final dot element; two leading slashes become one. */
  function Render(stack: seq<string>, trailing: bool): string {
    var d := "/" + Join(stack) + (if trailing then "/" else "");
    if |d| > 1 && d[1] == '/' then d[1..] else d
  }

  function ResolvePath(base: string, ref: string): string {
    var full := Merge(base, ref);
    if full == "" then ""
    else Render(PushAll([], Split(full)), IsDot(Last(Split(full))))
  }

  predicate Rooted(path: string) {
    path != "" && path[0] == '/'
  }

  ghost predicate DotFree(elems: seq<string>) {
    forall e :: e in elems ==> !IsDot(e)
  }

  lemma {:induction false} PushAllKeeps(stack: seq<string>, elems: seq<string>)
    requires DotFree(stack) && AllSlashFree(stack) && AllSlashFree(elems)
    ensures DotFree(PushAll(stack, elems)) && AllSlashFree(PushAll(stack, elems))
    decreases elems
  {
    if elems != [] {
      assert elems[0] in elems;
      PushAllKeeps(Push(stack, elems[0]), elems[1..]);
    }
  }

  lemma {:induction false} PushAllDotFree(stack: seq<string>, elems: seq<string>)
    requires DotFree(elems)
    ensures PushAll(stack, elems) == stack + elems
    decreases elems
  {
    if elems != [] {
      assert elems[0] in elems;
      PushAllDotFree(Push(stack, elems[0]), elems[1..]);
      assert stack + elems == stack + [elems[0]] + elems[1..];
    }
  }

  lemma {:induction false} PushAllConcat(stack: seq<string>, a: seq<string>, b: seq<string>)
    ensures PushAll(stack, a + b) == PushAll(PushAll(stack, a), b)
    decreases a
  {
    if a == [] {
      assert a + b == b;
    } else {
      assert (a + b)[1..] == a[1..] + b;
      PushAllConcat(Push(stack, a[0]), a[1..], b);
    }
  }

  /** Joining and, perhaps, adding a final slash gives back the elements, perhaps with an empty one more. */
  lemma SplitOfSlashed(elems: seq<string>, slash: bool)
    requires AllSlashFree(elems)
    ensures Split(Join(elems) + (if slash then "/" else ""))
      == (if elems == [] then [""] else elems) + (if slash then [""] else [])
  {
    if elems != [] { SplitOfJoin(elems); }
    if slash {
      assert Join(elems) + "/" == Join(elems) + "/" + "";
      SplitAtSlash(Join(elems), "");
    } else {
      assert Join(elems) + "" == Join(elems);
    }
  }

  lemma SplitOfRooted(body: string)
    ensures Split("/" + body) == [""] + Split(body)
  {
    assert "/" + body == "" + "/" + body;
    SplitAtSlash("", body);
  }

  lemma RenderedSplit(stack: seq<string>, trailing: bool)
    requires AllSlashFree(stack) && DotFree(stack)
    ensures Rooted(Render(stack, trailing)) && DotFree(Split(Render(stack, trailing)))
  {
    var body := Join(stack) + (if trailing then "/" else "");
    var d := "/" + Join(stack) + (if trailing then "/" else "");
    assert d == "/" + body && d[1..] == body;
    SplitOfRooted(body);
    SplitOfSlashed(stack, trailing);
  }

  /** Resolution never leaves a dot segment, on any base and any reference. */
  lemma ResolvedHasNoDots(base: string, ref: string)
    ensures ResolvePath(base, ref) == "" <==> Merge(base, ref) == ""
    ensures ResolvePath(base, ref) != "" ==> Rooted(ResolvePath(base, ref)) && DotFree(Split(ResolvePath(base, ref)))
  {
    var full := Merge(base, ref);
    if full != "" {
      SplitIsSlashFree(full);
      PushAllKeeps([], Split(full));
      RenderedSplit(PushAll([], Split(full)), IsDot(Last(Split(full))));
    }
  }

  /** A rooted path without dot segments resolves to itself, whatever the base. */
  lemma ResolveDotFree(base: string, path: string)
    requires Rooted(path) && DotFree(Split(path))
    ensures ResolvePath(base, path) == path
  {
    var elems := Split(path);
    PushAllDotFree([], elems);
    assert [] + elems == elems;
    JoinOfSplit(path);
    assert Last(elems) in elems;
    RenderRooted(elems, path);
  }

  lemma RenderRooted(stack: seq<string>, path: string)
    requires Rooted(path) && Join(stack) == path
    ensures Render(stack, false) == path
  {
    assert "/" + path + "" == "/" + path;
    assert ("/" + path)[1..] == path;
  }

  /** Resolving the result of a resolution again changes nothing. */
  lemma ResolveIsIdempotent(base: string, ref: string, other: string)
    requires Merge(base, ref) != ""
    ensures ResolvePath(other, ResolvePath(base, ref)) == ResolvePath(base, ref)
  {
    ResolvedHasNoDots(base, ref);
    ResolveDotFree(other, ResolvePath(base, ref));
  }

  // ---- segment by segment ----

  /** A name between slashes. */
  predicate IsSegment(e: string) {
    e != "" && SlashFree(e)
  }

  /** A segment that names something rather than moving about. */
  predicate IsPlain(e: string) {
    IsSegment(e) && !IsDot(e)
  }

  ghost predicate AllSegments(elems: seq<string>) {
    forall e :: e in elems ==> IsSegment(e)
  }

  ghost predicate AllPlain(elems: seq<string>) {
    forall e :: e in elems ==> IsPlain(e)
  }

  /** One step of a reference; the root is its own parent, and an empty element is a step like any other. */
  function Onward(dir: seq<string>, e: string): seq<string> {
    if e == "." then dir
    else if e == ".." then (if dir == [] then [] else dir[..|dir| - 1])
    else dir + [e]
  }

  /** Following steps one by one, never above the root. */
  function Climb(dir: seq<string>, steps: seq<string>): seq<string>
    decreases steps
  {
    if steps == [] then dir else Climb(Onward(dir, steps[0]), steps[1..])
  }

  /** An absolute path; a directory other than the root ends in a slash. */
  function Absolute(segs: seq<string>, isDir: bool): string {
    "/" + Join(segs) + (if isDir && segs != [] then "/" else "")
  }

  lemma {:induction false} ClimbIsClean(dir: seq<string>, steps: seq<string>)
    requires DotFree(dir) && AllSlashFree(dir) && AllSlashFree(steps)
    ensures DotFree(Climb(dir, steps)) && AllSlashFree(Climb(dir, steps))
    decreases steps
  {
    if steps != [] {
      assert steps[0] in steps;
      ClimbIsClean(Onward(dir, steps[0]), steps[1..]);
    }
  }

  /** Without dot segments, following steps appends them. */
  lemma {:induction false} ClimbPlain(dir: seq<string>, steps: seq<string>)
    requires DotFree(steps)
    ensures Climb(dir, steps) == dir + steps
    decreases steps
  {
    if steps != [] {
      assert steps[0] in steps;
      ClimbPlain(dir + [steps[0]], steps[1..]);
      assert dir + steps == dir + [steps[0]] + steps[1..];
    }
  }

  /** Following a then b is following a/b, clamped or not. */
  lemma {:induction false} ClimbComposes(dir: seq<string>, a: seq<string>, b: seq<string>)
    ensures Climb(Climb(dir, a), b) == Climb(dir, a + b)
    decreases a
  {
    if a == [] {
      assert a + b == b;
    } else {
      assert (a + b)[1..] == a[1..] + b;
      ClimbComposes(Onward(dir, a[0]), a[1..], b);
    }
  }

  function Ups(k: nat): seq<string> {
    if k == 0 then [] else [".."] + Ups(k - 1)
  }

  /** k times `..` takes back k elements, as many as there are. */
  lemma {:induction false} UpsTakeBack(dir: seq<string>, k: nat)
    ensures Climb(dir, Ups(k)) == if k < |dir| then dir[..|dir| - k] else []
  {
    if k > 0 {
      assert Ups(k)[1..] == Ups(k - 1);
      UpsTakeBack(Onward(dir, ".."), k - 1);
    }
  }

  /**
   * Clamping at the root loses the empty element of the leading slash; a `.` at the root, where
   * nothing has been written, brings it back.
   */
  function Slips(dir: seq<string>, slipped: bool, steps: seq<string>): bool
    decreases steps
  {
    if steps == [] then slipped
    else Slips(Onward(dir, steps[0]),
               if dir == [] && IsDot(steps[0]) then steps[0] == ".." else slipped,
               steps[1..])
  }

  lemma {:induction false} SlipsComposes(dir: seq<string>, slipped: bool, a: seq<string>, b: seq<string>)
    ensures Slips(Climb(dir, a), Slips(dir, slipped, a), b) == Slips(dir, slipped, a + b)
    decreases a
  {
    if a == [] {
      assert a + b == b;
    } else {
      assert (a + b)[1..] == a[1..] + b;
      SlipsComposes(Onward(dir, a[0]), if dir == [] && IsDot(a[0]) then a[0] == ".." else slipped, a[1..], b);
    }
  }

  lemma {:induction false} PlainNeverSlips(dir: seq<string>, slipped: bool, steps: seq<string>)
    requires DotFree(steps)
    ensures Slips(dir, slipped, steps) == slipped
    decreases steps
  {
    if steps != [] {
      assert steps[0] in steps;
      PlainNeverSlips(Onward(dir, steps[0]), slipped, steps[1..]);
    }
  }

  /** The resolution stack in a directory, with the leading empty element unless it slipped away. */
  function StackOf(dir: seq<string>, slipped: bool): seq<string> {
    if slipped then dir else [""] + dir
  }

  lemma {:induction false} PushAllClimbs(dir: seq<string>, slipped: bool, steps: seq<string>)
    ensures PushAll(StackOf(dir, slipped), steps) == StackOf(Climb(dir, steps), Slips(dir, slipped, steps))
    decreases steps
  {
    if steps != [] {
      var next := if dir == [] && IsDot(steps[0]) then steps[0] == ".." else slipped;
      assert Push(StackOf(dir, slipped), steps[0]) == StackOf(Onward(dir, steps[0]), next);
      PushAllClimbs(Onward(dir, steps[0]), next, steps[1..]);
    }
  }

  /** What a path keeps of a directory: all of it, but for a first empty element where the leading one slipped away. */
  function Kept(dir: seq<string>, slipped: bool): seq<string> {
    if slipped && dir != [] && dir[0] == "" then dir[1..] else dir
  }

  lemma RenderWithLead(dir: seq<string>, trailing: bool)
    ensures Render([""] + dir, trailing) == Absolute(dir, trailing)
  {
    var stack := [""] + dir;
    assert stack[1..] == dir;
    var tail := if trailing then "/" else "";
    if dir == [] {
      assert Join(stack) == "";
    } else {
      assert Join(stack) == "/" + Join(dir);
      assert ("/" + Join(stack) + tail)[1..] == "/" + Join(dir) + tail;
    }
  }

  lemma RenderWithoutLead(dir: seq<string>, trailing: bool)
    requires AllSlashFree(dir)
    ensures Render(dir, trailing) == Absolute(Kept(dir, true), trailing)
  {
    var tail := if trailing then "/" else "";
    var d := "/" + Join(dir) + tail;
    if dir != [] && dir[0] == "" {
      assert dir == [""] + dir[1..];
      RenderWithLead(dir[1..], trailing);
    } else if dir != [] {
      assert dir[0] in dir && dir[0][0] in dir[0];
      assert Join(dir)[0] == dir[0][0];
      assert d[1] == Join(dir)[0];
    }
  }

  lemma RenderStack(dir: seq<string>, slipped: bool, trailing: bool)
    requires AllSlashFree(dir)
    ensures Render(StackOf(dir, slipped), trailing) == Absolute(Kept(dir, slipped), trailing)
  {
    RenderWithLead(dir, trailing);
    RenderWithoutLead(dir, trailing);
  }

  /** The steps resolution takes from the root: those of base's directory, then the reference's. */
  function Steps(base: string, ref: string): (r: seq<string>)
    ensures r != []
  {
    var full := Merge(base, ref);
    if full == "" then [""] else Split(full[1..])
  }

  lemma MergedIsRooted(base: string, ref: string)
    requires Rooted(base)
    ensures Rooted(Merge(base, ref))
  {
    UpToSlashOfRooted(base);
  }

  lemma {:induction false} UpToSlashOfRooted(path: string)
    requires Rooted(path)
    ensures Rooted(UpToSlash(path)) && UpToSlash(path) == "/" + UpToSlash(path[1..])
  {
    var n := |path| - 1;
    if path[n] != '/' {
      UpToSlashOfRooted(path[..n]);
      assert path[1..][..n - 1] == path[..n][1..];
    }
  }

  /** Where a reference leads, and whether the leading slash slipped on the way. */
  function Reached(base: string, ref: string): seq<string> {
    Climb([], Steps(base, ref))
  }

  predicate SlipsOn(base: string, ref: string) {
    Slips([], false, Steps(base, ref))
  }

  /** Resolution of any reference against any rooted base is following its steps from the root. */
  lemma ResolveClimbs(base: string, ref: string)
    requires Rooted(base)
    ensures ResolvePath(base, ref)
      == Absolute(Kept(Reached(base, ref), SlipsOn(base, ref)), IsDot(Last(Steps(base, ref))))
    ensures DotFree(Reached(base, ref)) && AllSlashFree(Reached(base, ref))
  {
    MergedIsRooted(base, ref);
    var full, steps := Merge(base, ref), Steps(base, ref);
    assert full == "/" + full[1..];
    SplitOfRooted(full[1..]);
    assert ([""] + steps)[1..] == steps && Push([], "") == [""];
    PushAllClimbs([], false, steps);
    assert StackOf([], false) == [""];
    SplitIsSlashFree(full[1..]);
    ClimbIsClean([], steps);
    RenderStack(Reached(base, ref), SlipsOn(base, ref), IsDot(Last(steps)));
  }

  /** Plain steps lead where they say. */
  lemma PlainStepsResolve(base: string, ref: string)
    requires Rooted(base) && AllPlain(Steps(base, ref))
    ensures ResolvePath(base, ref) == Absolute(Steps(base, ref), false)
  {
    var steps := Steps(base, ref);
    ResolveClimbs(base, ref);
    ClimbPlain([], steps);
    PlainNeverSlips([], false, steps);
    assert [] + steps == steps && Last(steps) in steps;
  }

  /** A directory's elements, and those of what is written after it. */
  lemma SplitOfDirectory(dir: string, rest: string)
    requires dir == "" || dir[|dir| - 1] == '/'
    ensures Split(dir + rest) == Split(dir)[..|Split(dir)| - 1] + Split(rest)
    ensures Last(Split(dir)) == ""
  {
    if dir == "" {
      assert dir + rest == rest;
    } else {
      var front := dir[..|dir| - 1];
      assert dir == front + "/" + "" && dir + rest == front + "/" + rest;
      SplitAtSlash(front, "");
      SplitAtSlash(front, rest);
      assert (Split(front) + [""])[..|Split(front)|] == Split(front);
    }
  }

  lemma UpToSlashEnds(path: string)
    ensures var dir := UpToSlash(path);
      && (dir == "" || dir[|dir| - 1] == '/')
      && Split(path)[..|Split(path)| - 1] == Split(dir)[..|Split(dir)| - 1]
      && Split(dir)[..|Split(dir)| - 1] + [""] == Split(dir)
  {
    var file := FileOf(path);
    var dir := UpToSlash(path);
    FileIsSlashFree(path);
    SplitOfDirectory(dir, file);
    SplitOfSlashFree(file);
    SplitOfDirectory(dir, "");
    assert dir + "" == dir;
  }

  /** What follows the last slash. */
  function FileOf(path: string): (r: string)
    ensures UpToSlash(path) + r == path
  {
    if path == "" || path[|path| - 1] == '/' then "" else
      var n := |path| - 1;
      assert path == path[..n] + [path[n]];
      FileOf(path[..n]) + [path[n]]
  }

  lemma {:induction false} FileIsSlashFree(path: string)
    ensures SlashFree(FileOf(path))
    ensures UpToSlash(path) == "" || UpToSlash(path)[|UpToSlash(path)| - 1] == '/'
  {
    if path != "" && path[|path| - 1] != '/' {
      FileIsSlashFree(path[..|path| - 1]);
    }
  }

  /** A relative reference's steps are those of the base's directory followed by its own. */
  lemma RelativeSteps(name: string, ref: string)
    requires ref != "" && !Rooted(ref)
    ensures Steps("/" + name, ref) == Split(name)[..|Split(name)| - 1] + Split(ref)
  {
    UpToSlashOfRooted("/" + name);
    assert ("/" + name)[1..] == name;
    var dir := UpToSlash(name);
    assert Merge("/" + name, ref) == "/" + dir + ref;
    assert ("/" + dir + ref)[1..] == dir + ref;
    UpToSlashEnds(name);
    SplitOfDirectory(dir, ref);
  }

  // ---- composition ----

  /** The steps of a reference to a directory, without the empty one after its final slash. */
  function DirectorySteps(base: string, a: string): seq<string> {
    var steps := Steps(base, a + "/");
    steps[..|steps| - 1]
  }

  lemma {:induction false} SlipsIsMonotone(dir: seq<string>, steps: seq<string>)
    ensures Slips(dir, false, steps) ==> Slips(dir, true, steps)
    decreases steps
  {
    if steps != [] && !(dir == [] && IsDot(steps[0])) {
      SlipsIsMonotone(Onward(dir, steps[0]), steps[1..]);
    }
  }

  /** An empty first element stands in for the slipped one until a clamp takes it too. */
  lemma {:induction false} EmptyFirstStandsIn(dir: seq<string>, steps: seq<string>)
    ensures Kept(Climb([""] + dir, steps), Slips([""] + dir, true, steps))
      == Kept(Climb(dir, steps), Slips(dir, false, steps))
    decreases steps
  {
    if steps == [] {
      assert ([""] + dir)[1..] == dir;
    } else if dir == [] && steps[0] == ".." {
      assert Onward([""] + dir, "..") == [] == Onward(dir, "..");
    } else {
      assert Onward([""] + dir, steps[0]) == [""] + Onward(dir, steps[0]);
      EmptyFirstStandsIn(Onward(dir, steps[0]), steps[1..]);
    }
  }

  /**
   * Where composition fails: a was clamped and left something without an empty first element, after
   * which b, never clamped where nothing was left of a, puts an empty element first.
   */
  predicate Skids(a: seq<string>, b: seq<string>)
    requires b != []
  {
    var dir := Climb([], a);
    var end := Climb(dir, b);
    && Slips([], false, a) && Slips(dir, true, b) && !Slips(dir, false, b)
    && (dir == [] || dir[0] != "")
    && end != [] && end[0] == "" && (|end| > 1 || IsDot(Last(b)))
  }

  lemma KeptDiffers(dir: seq<string>, isDir: bool)
    requires dir != [] && dir[0] == ""
    ensures Absolute(dir, isDir) == Absolute(dir[1..], isDir) <==> |dir| == 1 && !isDir
  {
    if |dir| > 1 {
      assert Join(dir) == "/" + Join(dir[1..]);
      assert |Absolute(dir, isDir)| == 1 + |Absolute(dir[1..], isDir)|;
    }
  }

  /** The same b, followed from what a path keeps of a and from where a really led. */
  lemma KeptComposesIff(a: seq<string>, b: seq<string>)
    requires b != []
    ensures var dir, slipped, isDir := Climb([], a), Slips([], false, a), IsDot(Last(b));
      var kept := Kept(dir, slipped);
      (Absolute(Kept(Climb(kept, b), Slips(kept, false, b)), isDir)
        == Absolute(Kept(Climb(dir, b), Slips(dir, slipped, b)), isDir))
      <==> !Skids(a, b)
  {
    var dir, slipped := Climb([], a), Slips([], false, a);
    SlipsIsMonotone(dir, b);
    if slipped && dir != [] && dir[0] == "" {
      assert dir == [""] + dir[1..];
      EmptyFirstStandsIn(dir[1..], b);
    } else {
      var end := Climb(dir, b);
      if end != [] && end[0] == "" { KeptDiffers(end, IsDot(Last(b))); }
    }
  }

  lemma MergeExtends(base: string, a: string, b: string)
    requires Rooted(base)
    ensures var full := Merge(base, a + "/");
      Rooted(full) && full[|full| - 1] == '/' && Merge(base, a + "/" + b) == full + b
  {
    MergedIsRooted(base, a + "/");
    var d := UpToSlash(base);
    assert d + (a + "/" + b) == d + (a + "/") + b;
  }

  /** Both sides of composition by their steps. */
  lemma DirectoryStepsExtend(base: string, a: string, b: string)
    requires Rooted(base)
    ensures Steps(base, a + "/" + b) == DirectorySteps(base, a) + Split(b)
    ensures Steps(base, a + "/") == DirectorySteps(base, a) + [""]
  {
    MergeExtends(base, a, b);
    var full := Merge(base, a + "/");
    var dir := full[1..];
    assert (full + b)[1..] == dir + b;
    SplitOfDirectory(dir, b);
    assert Split(dir) == Split(dir)[..|Split(dir)| - 1] + [""];
  }

  lemma UpToSlashOfDirectory(dir: string, file: string)
    requires dir != "" && dir[|dir| - 1] == '/' && SlashFree(file)
    ensures UpToSlash(dir + file) == dir
    decreases |file|
  {
    if file == "" {
      assert dir + file == dir;
    } else {
      var n := |file| - 1;
      assert (dir + file)[..|dir + file| - 1] == dir + file[..n];
      assert file[n] in file;
      UpToSlashOfDirectory(dir, file[..n]);
    }
  }

  /** A directory's path: a slash at both ends and its elements between. */
  lemma DirectoryPath(dir: seq<string>)
    requires AllSlashFree(dir)
    ensures var path := Absolute(if dir == [] then [] else dir + [""], false);
      Rooted(path) && path[|path| - 1] == '/' && Split(path[1..]) == dir + [""]
  {
    var path := Absolute(if dir == [] then [] else dir + [""], false);
    if dir == [] {
      assert path == "/" && path[1..] == "";
    } else {
      JoinConcat(dir, [""]);
      var body := Join(dir) + "/";
      assert path == "/" + body && path[1..] == body;
      SplitOfSlashed(dir, true);
    }
  }

  /** The steps of a relative reference from a file in a directory. */
  lemma StepsInside(path: string, inner: string, b: string)
    requires Rooted(path) && path[|path| - 1] == '/' && SlashFree(inner) && b != "" && !Rooted(b)
    ensures Steps(path + inner, b) == Split(path[1..])[..|Split(path[1..])| - 1] + Split(b)
  {
    var dir := path[1..];
    UpToSlashOfDirectory(path, inner);
    assert (path + b)[1..] == dir + b;
    SplitOfDirectory(dir, b);
  }

  lemma KeptWithSlash(dir: seq<string>, slipped: bool)
    ensures var kept := Kept(dir, slipped);
      Absolute(Kept(dir + [""], slipped), false) == Absolute(if kept == [] then [] else kept + [""], false)
  {
    if dir == [] {
      assert dir + [""] == [""];
      assert Absolute([""], false) == Absolute([], false);
    } else {
      assert (dir + [""])[1..] == dir[1..] + [""];
      assert Absolute([""], false) == Absolute([], false);
    }
  }

  /** The path of a directory reached, which ends in a slash. */
  lemma ResolvedDirectory(base: string, a: string)
    requires Rooted(base)
    ensures var steps := DirectorySteps(base, a);
      var kept := Kept(Climb([], steps), Slips([], false, steps));
      && ResolvePath(base, a + "/") == Absolute(if kept == [] then [] else kept + [""], false)
      && DotFree(kept) && AllSlashFree(kept)
  {
    var steps := DirectorySteps(base, a);
    DirectoryStepsExtend(base, a, "");
    ResolveClimbs(base, a + "/");
    ClimbComposes([], steps, [""]);
    SlipsComposes([], false, steps, [""]);
    var dir := Climb([], steps);
    KeptWithSlash(dir, Slips([], false, steps));
    assert Reached(base, a + "/") == dir + [""];
    assert forall e :: e in dir ==> e in dir + [""];
  }

  /** Where following steps from the root leads, as a path. */
  function FollowedPath(steps: seq<string>, isDir: bool): string {
    Absolute(Kept(Climb([], steps), Slips([], false, steps)), isDir)
  }

  lemma ResolvesTo(base: string, ref: string, steps: seq<string>)
    requires Rooted(base) && steps != [] && Steps(base, ref) == steps
    ensures ResolvePath(base, ref) == FollowedPath(steps, IsDot(Last(steps)))
  {
    ResolveClimbs(base, ref);
  }

  /** The directory a leads to, as far as its path keeps it. */
  function KeptDirectory(base: string, a: string): seq<string> {
    Kept(Climb([], DirectorySteps(base, a)), Slips([], false, DirectorySteps(base, a)))
  }

  lemma InsideSteps(base: string, a: string, b: string, inner: string)
    requires Rooted(base) && b != "" && !Rooted(b) && SlashFree(inner)
    ensures Rooted(ResolvePath(base, a + "/")) && DotFree(KeptDirectory(base, a))
    ensures Steps(ResolvePath(base, a + "/") + inner, b) == KeptDirectory(base, a) + Split(b)
  {
    var kept := KeptDirectory(base, a);
    ResolvedDirectory(base, a);
    DirectoryPath(kept);
    assert (kept + [""])[..|kept|] == kept;
    StepsInside(ResolvePath(base, a + "/"), inner, b);
  }

  lemma PathFromKept(kept: seq<string>, b: seq<string>, isDir: bool)
    requires DotFree(kept)
    ensures FollowedPath(kept + b, isDir) == Absolute(Kept(Climb(kept, b), Slips(kept, false, b)), isDir)
  {
    ClimbPlain([], kept);
    PlainNeverSlips([], false, kept);
    assert [] + kept == kept;
    ClimbComposes([], kept, b);
    SlipsComposes([], false, kept, b);
  }

  lemma PathFromSteps(a: seq<string>, b: seq<string>, isDir: bool)
    ensures FollowedPath(a + b, isDir)
      == Absolute(Kept(Climb(Climb([], a), b), Slips(Climb([], a), Slips([], false, a), b)), isDir)
  {
    ClimbComposes([], a, b);
    SlipsComposes([], false, a, b);
  }

  lemma LastOfSum(a: seq<string>, b: seq<string>)
    requires b != []
    ensures Last(a + b) == Last(b)
  {
  }

  /** Both sides of composition as paths. */
  lemma CompositionSides(base: string, a: string, b: string, inner: string)
    requires Rooted(base) && b != "" && !Rooted(b) && SlashFree(inner)
    ensures DotFree(KeptDirectory(base, a))
    ensures ResolvePath(ResolvePath(base, a + "/") + inner, b)
      == FollowedPath(KeptDirectory(base, a) + Split(b), IsDot(Last(Split(b))))
    ensures ResolvePath(base, a + "/" + b) == FollowedPath(DirectorySteps(base, a) + Split(b), IsDot(Last(Split(b))))
  {
    InsideSteps(base, a, b, inner);
    DirectoryStepsExtend(base, a, b);
    LastOfSum(KeptDirectory(base, a), Split(b));
    LastOfSum(DirectorySteps(base, a), Split(b));
    ResolvesTo(ResolvePath(base, a + "/") + inner, b, KeptDirectory(base, a) + Split(b));
    ResolvesTo(base, a + "/" + b, DirectorySteps(base, a) + Split(b));
  }

  /** The same for steps alone: composition is keeping a's directory before following b. */
  lemma PathsAgreeIff(a: seq<string>, b: seq<string>)
    requires b != [] && DotFree(Kept(Climb([], a), Slips([], false, a)))
    ensures (FollowedPath(Kept(Climb([], a), Slips([], false, a)) + b, IsDot(Last(b)))
      == FollowedPath(a + b, IsDot(Last(b))))
      <==> !Skids(a, b)
  {
    PathFromKept(Kept(Climb([], a), Slips([], false, a)), b, IsDot(Last(b)));
    PathFromSteps(a, b, IsDot(Last(b)));
    KeptComposesIff(a, b);
  }

  /**
   * Composition, on all strings: resolving b from inside the directory a resolves to, whatever the
   * file there is called, is resolving a/b, clamped or not, except exactly where the two skid apart.
   */
  lemma ResolveComposesIff(base: string, a: string, b: string, inner: string)
    requires Rooted(base) && b != "" && !Rooted(b) && SlashFree(inner)
    ensures ResolvePath(ResolvePath(base, a + "/") + inner, b) == ResolvePath(base, a + "/" + b)
      <==> !Skids(DirectorySteps(base, a), Split(b))
  {
    CompositionSides(base, a, b, inner);
    PathsAgreeIff(DirectorySteps(base, a), Split(b));
  }

  ghost predicate NoEmptyBeforeLast(elems: seq<string>) {
    forall i :: 0 <= i < |elems| - 1 ==> elems[i] != ""
  }

  lemma {:induction false} FirstStaysFull(dir: seq<string>, steps: seq<string>)
    requires (dir == [] || dir[0] != "") && forall e :: e in steps ==> e != ""
    ensures var end := Climb(dir, steps); end == [] || end[0] != ""
    decreases steps
  {
    if steps != [] {
      assert steps[0] in steps && forall e :: e in steps[1..] ==> e in steps;
      FirstStaysFull(Onward(dir, steps[0]), steps[1..]);
    }
  }

  lemma FullStepsNeverSkid(a: seq<string>, b: seq<string>)
    requires b != [] && NoEmptyBeforeLast(b)
    ensures !Skids(a, b)
  {
    var dir, front, last := Climb([], a), b[..|b| - 1], Last(b);
    if dir == [] || dir[0] != "" {
      forall e | e in front ensures e != "" {
        var i :| 0 <= i < |front| && front[i] == e;
        assert b[i] == e;
      }
      FirstStaysFull(dir, front);
      assert b == front + [last];
      ClimbComposes(dir, front, [last]);
      assert Climb(dir, b) == Onward(Climb(dir, front), last);
    }
  }

  /** Composition holds wherever b has no empty element but a final one, or a never climbs above the root. */
  lemma ResolveComposes(base: string, a: string, b: string, inner: string)
    requires Rooted(base) && b != "" && !Rooted(b) && SlashFree(inner)
    requires NoEmptyBeforeLast(Split(b)) || !Slips([], false, DirectorySteps(base, a))
    ensures ResolvePath(ResolvePath(base, a + "/") + inner, b) == ResolvePath(base, a + "/" + b)
  {
    ResolveComposesIff(base, a, b, inner);
    if NoEmptyBeforeLast(Split(b)) { FullStepsNeverSkid(DirectorySteps(base, a), Split(b)); }
  }

  /** It does fail: after a clamp, b = x/..//c leads to //c in two steps and to /c in one. */
  lemma CompositionCanFail(base: string, a: string, b: string)
    requires base == "/k" && a == ".." && b == "x/..//c"
    ensures ResolvePath(ResolvePath(base, a + "/"), b) != ResolvePath(base, a + "/" + b)
  {
    var elems := ["x", "..", "", "c"];
    assert elems[1..] == ["..", "", "c"] && elems[2..] == ["", "c"] && elems[3..] == ["c"];
    assert Join(elems[2..]) == "/c" && Join(elems[1..]) == "..//c" && Join(elems) == b;
    SplitOfJoin(elems);
    var ups := ["..", ""];
    assert ups[1..] == [""] && Join(ups) == "../";
    SplitOfJoin(ups);
    assert Merge(base, a + "/") == "/" + "../" by { assert UpToSlash("/") == "/"; assert base[..1] == "/"; }
    assert DirectorySteps(base, a) == [".."];
    CompositionSkids();
    ResolveComposesIff(base, a, b, "");
    assert ResolvePath(base, a + "/") + "" == ResolvePath(base, a + "/");
  }

  lemma CompositionSkids()
    ensures Skids([".."], ["x", "..", "", "c"])
  {
    var b := ["x", "..", "", "c"];
    assert b[1..] == ["..", "", "c"] && b[1..][1..] == ["", "c"]
      && b[1..][1..][1..] == ["c"] && b[1..][1..][1..][1..] == [];
    assert [".."][1..] == [];
    assert Climb([], [".."]) == [] && Slips([], false, [".."]);
    assert Climb([""], ["c"]) == ["", "c"];
    assert Climb([], b) == ["", "c"];
  }

  // ---- from a plain directory ----

  lemma UpsAreElements(k: nat)
    ensures |Ups(k)| == k && forall e :: e in Ups(k) ==> e == ".."
    decreases k
  {
    if k > 0 { UpsAreElements(k - 1); }
  }

  lemma {:induction false} PlainSteps(dir: seq<string>, slipped: bool, names: seq<string>)
    requires AllPlain(names) && names != [] && (dir == [] || dir[0] != "")
    ensures Kept(Climb(dir, names), Slips(dir, slipped, names)) == dir + names
  {
    ClimbPlain(dir, names);
    PlainNeverSlips(dir, slipped, names);
    assert names[0] in names;
  }

  /** The steps of a reference without empty elements from a file in a directory. */
  lemma StepsFrom(dir: seq<string>, file: string, ref: seq<string>)
    requires AllSlashFree(dir) && SlashFree(file) && AllSegments(ref) && ref != []
    ensures Steps("/" + Join(dir + [file]), Join(ref)) == dir + ref
  {
    var elems := dir + [file];
    SplitOfJoin(elems);
    SplitOfJoin(ref);
    SegmentsStart(ref);
    RelativeSteps(Join(elems), Join(ref));
    assert elems[..|elems| - 1] == dir;
  }

  lemma UpAndDownSteps(dir: seq<string>, file: string, k: nat, names: seq<string>)
    requires AllPlain(dir) && SlashFree(file) && AllPlain(names) && names != []
    ensures Steps("/" + Join(dir + [file]), Join(Ups(k) + names)) == dir + Ups(k) + names
  {
    UpsAreElements(k);
    StepsFrom(dir, file, Ups(k) + names);
    assert dir + (Ups(k) + names) == dir + Ups(k) + names;
  }

  /** A reference up k directories and down again leads where it says, and no further up than the root. */
  lemma UpAndDown(dir: seq<string>, file: string, k: nat, names: seq<string>)
    requires AllPlain(dir) && SlashFree(file) && AllPlain(names) && names != []
    ensures ResolvePath("/" + Join(dir + [file]), Join(Ups(k) + names))
      == Absolute((if k < |dir| then dir[..|dir| - k] else []) + names, false)
  {
    UpAndDownSteps(dir, file, k, names);
    FollowUpAndDown(dir, k, names);
    LastOfSum(dir + Ups(k), names);
    assert Last(names) in names;
    ResolvesTo("/" + Join(dir + [file]), Join(Ups(k) + names), dir + Ups(k) + names);
  }

  lemma SegmentsStart(elems: seq<string>)
    requires AllSegments(elems) && elems != []
    ensures Join(elems) != "" && !Rooted(Join(elems))
  {
    assert elems[0] in elems && elems[0][0] in elems[0];
    assert Join(elems)[0] == elems[0][0];
  }

  lemma FollowUpAndDown(dir: seq<string>, k: nat, names: seq<string>)
    requires AllPlain(dir) && AllPlain(names) && names != []
    ensures var steps := dir + Ups(k) + names;
      Kept(Climb([], steps), Slips([], false, steps)) == (if k < |dir| then dir[..|dir| - k] else []) + names
  {
    var up, above := dir + Ups(k), if k < |dir| then dir[..|dir| - k] else [];
    ClimbComposes([], up, names);
    SlipsComposes([], false, up, names);
    ClimbComposes([], dir, Ups(k));
    ClimbPlain([], dir);
    assert [] + dir == dir;
    UpsTakeBack(dir, k);
    assert above != [] ==> above[0] in dir;
    PlainSteps(above, Slips([], false, up), names);
  }
}
