/** When `update` checks and what it installs, over whole sequences of runs. */
module UpdatePolicy {
  import opened SemVer
  import opened Retention

  /** The throttle on the network check, in nanoseconds. */
  const CHECK_EVERY: int := 24 * 60 * 60 * 1_000_000_000

  datatype Stamp = NoStamp | At(time: int)

  datatype Tag = NoTag | Latest(tag: string)

  /** One invocation and everything its environment decides. */
  datatype Run = Run(
    force: bool,      // Update rather than AutoUpdate
    optedOut: bool,   // the opt-out variable is set
    now: int,
    resolved: bool,   // the executable path resolves
    managed: bool,    // a package manager owns the install
    located: bool,    // a swap strategy exists for it
    stampPath: bool,  // the cache directory is known
    stampWrites: bool,
    latest: Tag,      // what the release endpoint answers
    applied: bool)    // whether apply succeeds

  function TrimV(tag: string): string {
    if tag != "" && tag[0] == 'v' then tag[1..] else tag
  }

  datatype State = State(version: Parsed, stamp: Stamp)

  predicate IsRelease(version: Parsed) {
    version.Some? && version.version.pre == []
  }

  predicate RecentlyChecked(stamp: Stamp, r: Run) {
    r.stampPath && stamp.At? && r.now - stamp.time < CHECK_EVERY
  }

  /** The run gets as far as asking the release endpoint. */
  predicate Checks(s: State, r: Run) {
    && (r.force || !r.optedOut)
    && IsRelease(s.version) && r.resolved && (r.managed || r.located)
    && (r.force || !RecentlyChecked(s.stamp, r))
  }

  /** The version an unmanaged check installs: the latest tag's, when newer and applied. */
  function Installs(parse: Parser, s: State, r: Run): Parsed
    requires s.version.Some?
  {
    if r.latest.NoTag? then s.version else
      var latest := parse(TrimV(r.latest.tag));
      if latest.Some? && GreaterThan(latest.version, s.version.version) && !r.managed && r.applied
      then latest else s.version
  }

  function Next(parse: Parser, s: State, r: Run): State {
    if !Checks(s, r) then s else
      State(Installs(parse, s, r), if !r.force && r.stampPath && r.stampWrites then At(r.now) else s.stamp)
  }

  /** The install on disk: the version of its binary and the time stamp file. */
  class Installation {
    var version: Parsed
    var stamp: Stamp

    function Current(): State
      reads this
    {
      State(version, stamp)
    }

    method MarkChecked(r: Run)
      modifies this`stamp
      ensures stamp == if r.stampPath && r.stampWrites then At(r.now) else old(stamp)
    {
      if !r.stampPath { return; }
      if r.stampWrites { stamp := At(r.now); }
    }

    /** AutoUpdate and Update. */
    method Update(parse: Parser, r: Run) returns (checked: bool)
      modifies this
      ensures Current() == Next(parse, old(Current()), r)
      ensures checked == Checks(old(Current()), r)
    {
      if !r.force && r.optedOut { return false; }
      if version.None? { return false; }
      var cur := version.version;
      if cur.pre != [] { return false; }
      if !r.resolved { return false; }
      if !r.managed {
        if !r.located { return false; }
      }
      if !r.force {
        if RecentlyChecked(stamp, r) { return false; }
        MarkChecked(r);
      }
      checked := true;
      if r.latest.NoTag? { return; }
      var latest := parse(TrimV(r.latest.tag));
      if latest.None? { return; }
      var upToDate := !GreaterThan(latest.version, cur);
      if r.managed { return; }
      if upToDate { return; }
      if !r.applied { return; }
      version := latest;
    }
  }

  /** The state after a sequence of runs. */
  function After(parse: Parser, s: State, rs: seq<Run>): State
    decreases rs
  {
    if rs == [] then s else After(parse, Next(parse, s, rs[0]), rs[1..])
  }

  /** The times of the unforced checks in a sequence of runs. */
  function CheckTimes(parse: Parser, s: State, rs: seq<Run>): seq<int>
    decreases rs
  {
    if rs == [] then [] else
      (if Checks(s, rs[0]) && !rs[0].force then [rs[0].now] else []) + CheckTimes(parse, Next(parse, s, rs[0]), rs[1..])
  }

  predicate AtLeast(v: Parsed, w: Parsed) {
    v == w || (v.Some? && w.Some? && Compare(v.version, w.version) > 0)
  }

  /** Over any runs and any tags the installed version never decreases, and never leaves a non-release. */
  lemma {:induction false} VersionNeverDecreases(parse: Parser, s: State, rs: seq<Run>)
    ensures AtLeast(After(parse, s, rs).version, s.version)
    ensures !IsRelease(s.version) ==> After(parse, s, rs) == s
    decreases rs
  {
    if rs != [] {
      var m := Next(parse, s, rs[0]);
      VersionNeverDecreases(parse, m, rs[1..]);
      PrecedenceIsComparison();
      var cmp, z := Compare, After(parse, s, rs).version;
      assert forall v, w :: cmp(v, w) == Compare(v, w);
      if z.Some? && m.version.Some? && s.version.Some? {
        var a, b, c := z.version, m.version.version, s.version.version;
        if cmp(a, b) > 0 && cmp(b, c) > 0 {
          assert cmp(c, b) <= 0 && cmp(b, a) <= 0 && cmp(c, a) <= 0;
          assert cmp(a, c) <= 0 ==> cmp(a, b) <= 0;
        }
      }
    }
  }

  /** A managed install keeps its version whatever is run. */
  lemma {:induction false} ManagedNeverChanges(parse: Parser, s: State, rs: seq<Run>)
    requires forall i :: 0 <= i < |rs| ==> rs[i].managed
    ensures After(parse, s, rs).version == s.version
    decreases rs
  {
    if rs != [] {
      ManagedNeverChanges(parse, Next(parse, s, rs[0]), rs[1..]);
    }
  }

  /** Forced runs that succeed on released tags leave a version at least as new as every tag offered. */
  lemma {:induction false} ForcedRunsReachTheNewest(parse: Parser, s: State, rs: seq<Run>, k: nat)
    requires IsRelease(s.version) && k < |rs|
    requires forall i :: 0 <= i < |rs| ==>
      && rs[i].force && rs[i].resolved && rs[i].located && !rs[i].managed && rs[i].applied
      && rs[i].latest.Latest? && IsRelease(parse(TrimV(rs[i].latest.tag)))
    ensures var final, offered := After(parse, s, rs).version, parse(TrimV(rs[k].latest.tag));
      final.Some? && offered.Some? && Compare(final.version, offered.version) >= 0
    decreases rs
  {
    var m := Next(parse, s, rs[0]);
    if k > 0 {
      ForcedRunsReachTheNewest(parse, m, rs[1..], k - 1);
    } else {
      VersionNeverDecreases(parse, m, rs[1..]);
      PrecedenceIsComparison();
      var cmp, offered := Compare, parse(TrimV(rs[0].latest.tag)).version;
      assert forall v, w :: cmp(v, w) == Compare(v, w);
      var final := After(parse, s, rs).version.version;
      assert cmp(offered, m.version.version) <= 0 && cmp(m.version.version, final) <= 0;
    }
  }

  /**
   * With a working stamp, k unforced checks span at least (k - 1) * 24h, whatever the clock does
   * and whatever forced runs come in between; the first one also keeps its distance from the stamp.
   */
  lemma {:induction false} ChecksAreThrottled(parse: Parser, s: State, rs: seq<Run>)
    requires forall i :: 0 <= i < |rs| ==> rs[i].stampPath && rs[i].stampWrites
    ensures var times := CheckTimes(parse, s, rs);
      && (times != [] ==> times[|times| - 1] - times[0] >= (|times| - 1) * (86_400 * 1_000_000_000))
      && (times != [] && s.stamp.At? ==> times[0] - s.stamp.time >= 86_400 * 1_000_000_000)
    decreases rs
  {
    if rs != [] {
      ChecksAreThrottled(parse, Next(parse, s, rs[0]), rs[1..]);
    }
  }

  /** Forced runs neither read nor write the stamp: what they install does not depend on it. */
  lemma {:induction false} ForcedRunsIgnoreStamp(parse: Parser, s: State, rs: seq<Run>, other: Stamp)
    requires forall i :: 0 <= i < |rs| ==> rs[i].force
    ensures After(parse, s, rs).stamp == s.stamp
    ensures After(parse, s.(stamp := other), rs) == After(parse, s, rs).(stamp := other)
    decreases rs
  {
    if rs != [] {
      assert Next(parse, s.(stamp := other), rs[0]) == Next(parse, s, rs[0]).(stamp := other);
      ForcedRunsIgnoreStamp(parse, Next(parse, s, rs[0]), rs[1..], other);
    }
  }

  // ---- one run ----

  /** What a release tag names: the version after one leading v, or the tag itself. */
  predicate Names(tag: string, version: string) {
    tag == "v" + version || (tag == version && !("v" <= tag))
  }

  /** When the release endpoint is asked: a forced run always, another unless opted out or checked within 24 hours. */
  lemma ChecksIff(s: State, r: Run)
    ensures Checks(s, r) <==>
      && s.version.Some? && s.version.version.pre == []
      && r.resolved && (r.managed || r.located)
      && (r.force || !r.optedOut)
      && (r.force || !r.stampPath || s.stamp.NoStamp? || r.now - s.stamp.time >= 86_400 * 1_000_000_000)
  {
  }

  /** An opted-out run changes nothing unless it is forced. */
  lemma OptedOutChangesNothing(parse: Parser, s: State, r: Run)
    requires r.optedOut && !r.force
    ensures Next(parse, s, r) == s
  {
  }

  /**
   * A run that checks, forced or not, installs what the latest tag names if and only if the install is not
   * managed, the version is newer and applying it succeeds; anything else leaves the version.
   */
  lemma InstallsIff(parse: Parser, s: State, r: Run, latest: string)
    requires r.latest.Latest? && Names(r.latest.tag, latest)
    ensures var installs :=
        && Checks(s, r) && !r.managed && r.applied
        && parse(latest).Some? && Compare(parse(latest).version, s.version.version) > 0;
      Next(parse, s, r).version == if installs then parse(latest) else s.version
  {
    assert ("v" + latest)[1..] == latest;
    assert TrimV(r.latest.tag) == latest;
  }

  /** Without an answer from the release endpoint nothing is installed. */
  lemma NoTagNoUpdate(parse: Parser, s: State, r: Run)
    requires r.latest.NoTag?
    ensures Next(parse, s, r).version == s.version
  {
  }

  /** AutoUpdate does update: an unforced run on a release, due and with a newer latest that applies, installs it. */
  lemma UnforcedRunUpdates(parse: Parser, s: State, r: Run, latest: string)
    requires IsRelease(s.version) && !r.force && !r.optedOut && r.resolved && r.located && !r.managed && r.applied
    requires !(r.stampPath && s.stamp.At? && r.now - s.stamp.time < 86_400 * 1_000_000_000)
    requires r.latest.Latest? && Names(r.latest.tag, latest)
    requires parse(latest).Some? && Compare(parse(latest).version, s.version.version) > 0
    ensures Next(parse, s, r).version == parse(latest)
  {
    ChecksIff(s, r);
    InstallsIff(parse, s, r, latest);
  }

  /** The stamp is set to the time of an unforced check that can write it, and by nothing else. */
  lemma StampedIff(parse: Parser, s: State, r: Run)
    ensures Next(parse, s, r).stamp
      == if Checks(s, r) && !r.force && r.stampPath && r.stampWrites then At(r.now) else s.stamp
  {
  }
}
