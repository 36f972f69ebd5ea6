/** One updater's own code, `writeExecutable` and `apply`, and its place in the swap protocol. */
module Updater {
  import opened FileSystem
  import opened Retention
  import opened SwapProtocol

  /** What the network delivers; Missing is a failed download. */
  datatype Download = Missing | Got(data: Blob)

  /** The three downloads of a release. */
  datatype Downloads = Downloads(archive: Download, sum: Download, sig: Download) {
    predicate Verified(trust: Trust) {
      archive.Got? && sum.Got? && sig.Got? && Verifies(trust, archive.data, sum.data, sig.data)
    }
  }

  /** The outcome of each file system call: false is an error, `wrote` the bytes written before one. */
  datatype Outcomes = Outcomes(
    create: bool, write: bool, wrote: nat, close: bool, chmod: bool, rename: bool, removeTemp: bool,
    clear: bool, symlink: bool, renameLink: bool, readDir: bool, stuck: set<string>)
  {
    predicate Writes() { create && write && close && chmod && rename }

    /** symlink() fails when a stale link could not be cleared. */
    predicate Links(dir: Listing) { symlink && renameLink && (clear || NEWLINK !in dir) }
  }

  function Prefix(bin: Blob, k: nat): Blob {
    if k <= |bin| then bin[..k] else bin
  }

  /** What a failed write leaves of the temp file when its removal fails too. */
  function Leftover(bin: Blob, io: Outcomes): Entry {
    if !io.write || !io.close then File(Prefix(bin, io.wrote), false) else File(bin, io.chmod)
  }

  /** A write is all or nothing at its path; at worst a temp file is left behind. */
  function WriteResult(dir: Listing, path: string, bin: Blob, tmp: string, io: Outcomes): Listing {
    if io.Writes() then dir[path := File(bin, true)]
    else if !io.create || io.removeTemp then dir
    else dir[tmp := Leftover(bin, io)]
  }

  function RepointResult(dir: Listing, name: string, io: Outcomes): Listing {
    var cleared := if io.clear then dir - {NEWLINK} else dir;
    if io.Links(dir) then (dir - {NEWLINK})[LINK := Symlink(name)]
    else if io.symlink && NEWLINK !in cleared then cleared[NEWLINK := Symlink(name)]
    else cleared
  }

  ghost function PruneResult(parse: Parser, dir: Listing, name: string, io: Outcomes): Listing {
    if !io.readDir then dir
    else dir - (Doomed(parse, VersionedNames(dir.Keys), name, RETAIN) - io.stuck)
  }

  /** The directory after `apply`, for every outcome of every call. */
  ghost function ApplyResult(c: Config, p: Pid, dir: Listing, got: Downloads, tmp: string, io: Outcomes): Listing
    requires p in c.target
  {
    if !got.Verified(c.trust) then dir else
      var bin := c.trust.extract(got.archive.data).data;
      var written := WriteResult(dir, Destination(c, p), bin, tmp, io);
      if c.strategy.InPlace? || !io.Writes() then written
      else
        var repointed := RepointResult(written, c.target[p], io);
        if io.Links(written) then PruneResult(c.parse, repointed, c.target[p], io) else repointed
  }

  ghost predicate Applies(c: Config, p: Pid, dir: Listing, got: Downloads, io: Outcomes)
    requires p in c.target
  {
    && got.Verified(c.trust) && io.Writes()
    && (c.strategy.SwapLink? ==>
          io.Links(dir[c.target[p] := File(c.trust.extract(got.archive.data).data, true)]))
  }

  /** Temp file, write, close, chmod, rename; the deferred removal of the temp file runs on every path. */
  method WriteExecutable(d: Directory, path: string, bin: Blob, tmp: string, io: Outcomes) returns (ok: bool)
    requires tmp !in d.entries && path != tmp
    modifies d
    ensures ok == io.Writes()
    ensures d.entries == WriteResult(old(d.entries), path, bin, tmp, io)
  {
    if !io.create { return false; }
    d.entries := d.entries[tmp := File([], false)];
    ok := FillTemp(d, bin, tmp, io);
    ghost var filled := d.entries;
    assert filled == old(d.entries)[tmp := filled[tmp]];
    if ok && io.rename {
      d.entries := d.entries[path := d.entries[tmp]] - {tmp};
      assert d.entries == old(d.entries)[path := File(bin, true)];
    } else {
      ok := false;
    }
    if io.removeTemp {
      d.Remove(tmp);
    }
    assert ok ==> d.entries == old(d.entries)[path := File(bin, true)];
    assert !ok && io.removeTemp ==> d.entries == old(d.entries);
  }

  /** Write, close and chmod the temp file. */
  method FillTemp(d: Directory, bin: Blob, tmp: string, io: Outcomes) returns (ok: bool)
    modifies d
    ensures ok == (io.write && io.close && io.chmod)
    ensures d.entries == old(d.entries)[tmp := Leftover(bin, io)]
  {
    if !io.write || !io.close {
      d.entries := d.entries[tmp := File(Prefix(bin, io.wrote), false)];
      return false;
    }
    d.entries := d.entries[tmp := File(bin, false)];
    if !io.chmod { return false; }
    d.entries := d.entries[tmp := File(bin, true)];
    return true;
  }

  /** Clear a stale temp link, create the new one exclusively, rename it onto the link. */
  method Repoint(d: Directory, name: string, io: Outcomes) returns (ok: bool)
    modifies d
    ensures ok == io.Links(old(d.entries))
    ensures d.entries == RepointResult(old(d.entries), name, io)
  {
    if io.clear { d.Remove(NEWLINK); }
    if !io.symlink || NEWLINK in d.entries { return false; }
    d.entries := d.entries[NEWLINK := Symlink(name)];
    if !io.renameLink { return false; }
    d.entries := d.entries[LINK := d.entries[NEWLINK]] - {NEWLINK};
    assert d.entries == (old(d.entries) - {NEWLINK})[LINK := Symlink(name)];
    return true;
  }

  /** apply: download, verify, install, repoint, prune. */
  method Apply(d: Directory, c: Config, p: Pid, got: Downloads, tmp: string, io: Outcomes) returns (ok: bool)
    requires p in c.target && tmp !in d.entries && Destination(c, p) != tmp
    modifies d
    ensures ok == Applies(c, p, old(d.entries), got, io)
    ensures d.entries == ApplyResult(c, p, old(d.entries), got, tmp, io)
  {
    if !got.Verified(c.trust) { return false; }
    var bin := c.trust.extract(got.archive.data).data;
    ok := WriteExecutable(d, Destination(c, p), bin, tmp, io);
    if c.strategy.InPlace? || !ok { return; }
    ok := Repoint(d, c.target[p], io);
    if !ok { return; }
    Prune(d, c.parse, c.target[p], RETAIN, io.readDir, io.stuck);
  }

  // ---- every outcome is a run of the protocol ----

  lemma FillRun(c: Config, s: State, p: Pid, bin: Blob, tmp: string, io: Outcomes)
      returns (tr: Trace, s': State, ph: Phase)
    requires p in s.phase && p in c.target && s.phase[p] == Verified(bin)
    requires IsTempName(tmp) && tmp !in s.dir && tmp !in s.used
    ensures Leads(c, s, tr, s') && s'.dir == s.dir[tmp := Leftover(bin, io)]
    ensures s'.phase == s.phase[p := ph]
    ensures ph == Executable(bin, tmp)
      || (!(io.write && io.close && io.chmod) && (ph == Writing(bin, tmp) || ph == Written(bin, tmp)))
  {
    tr, s' := RunExtends(c, s, Begin, s, p, CreateTemp(tmp));
    ph := Writing(bin, tmp);
    if !io.write || !io.close {
      var k := |Prefix(bin, io.wrote)|;
      assert bin[..k] == Prefix(bin, io.wrote);
      tr, s' := RunExtends(c, s, tr, s', p, WritePart(k));
    } else {
      tr, s' := RunExtends(c, s, tr, s', p, FinishWrite);
      ph := Written(bin, tmp);
      if io.chmod {
        tr, s' := RunExtends(c, s, tr, s', p, Chmod);
        ph := Executable(bin, tmp);
      }
    }
  }

  lemma WriteRun(c: Config, s: State, p: Pid, bin: Blob, tmp: string, io: Outcomes) returns (tr: Trace, s': State)
    requires p in s.phase && p in c.target && s.phase[p] == Verified(bin)
    requires IsTempName(tmp) && tmp !in s.dir && tmp !in s.used && tmp != Destination(c, p)
    ensures Leads(c, s, tr, s') && s'.dir == WriteResult(s.dir, Destination(c, p), bin, tmp, io)
    ensures io.Writes() ==> s'.phase == s.phase[p := if c.strategy.InPlace? then Done else Installed]
  {
    tr, s' := Begin, s;
    if !io.create { return; }
    var m, ph;
    tr, m, ph := FillRun(c, s, p, bin, tmp, io);
    var rest;
    if io.Writes() {
      rest, s' := RenameRun(c, m, p, bin, tmp);
      assert s'.dir == s.dir[Destination(c, p) := File(bin, true)];
    } else {
      rest, s' := AbandonRun(c, m, p, tmp, io.removeTemp);
      assert s.dir[tmp := Leftover(bin, io)] - {tmp} == s.dir;
    }
    RunsConcatenate(c, s, tr, m, rest);
    tr := Concat(tr, rest);
  }

  lemma RenameRun(c: Config, s: State, p: Pid, bin: Blob, tmp: string) returns (tr: Trace, s': State)
    requires p in s.phase && p in c.target && s.phase[p] == Executable(bin, tmp) && tmp in s.dir
    ensures Leads(c, s, tr, s') && s'.dir == s.dir[Destination(c, p) := s.dir[tmp]] - {tmp}
    ensures s'.phase == s.phase[p := if c.strategy.InPlace? then Done else Installed]
  {
    tr, s' := RunExtends(c, s, Begin, s, p, RenameOver);
    tr, s' := RunExtends(c, s, tr, s', p, SwapProtocol.RemoveTemp(false));
  }

  lemma AbandonRun(c: Config, s: State, p: Pid, tmp: string, removed: bool) returns (tr: Trace, s': State)
    requires p in s.phase && p in c.target
    requires var ph := s.phase[p]; (ph.Writing? || ph.Written? || ph.Executable?) && ph.tmp == tmp
    ensures Leads(c, s, tr, s') && s'.dir == if removed then s.dir - {tmp} else s.dir
  {
    tr, s' := RunExtends(c, s, Begin, s, p, Fail);
    tr, s' := RunExtends(c, s, tr, s', p, SwapProtocol.RemoveTemp(removed));
  }

  lemma RepointRun(c: Config, s: State, p: Pid, io: Outcomes) returns (tr: Trace, s': State)
    requires p in s.phase && p in c.target && s.phase[p] == Installed
    ensures Leads(c, s, tr, s') && s'.dir == RepointResult(s.dir, c.target[p], io)
    ensures io.Links(s.dir) ==> s'.phase == s.phase[p := Swapped]
  {
    tr, s' := RunExtends(c, s, Begin, s, p, ClearStale(io.clear));
    if io.symlink && NEWLINK !in s'.dir {
      tr, s' := RunExtends(c, s, tr, s', p, MakeLink);
      if io.renameLink {
        tr, s' := RunExtends(c, s, tr, s', p, RenameLink);
        assert s'.dir == (s.dir - {NEWLINK})[LINK := Symlink(c.target[p])];
      }
    }
  }

  lemma PruneRun(c: Config, s: State, p: Pid, io: Outcomes) returns (tr: Trace, s': State)
    requires p in s.phase && p in c.target && s.phase[p] == Swapped
    ensures Leads(c, s, tr, s') && s'.dir == PruneResult(c.parse, s.dir, c.target[p], io)
  {
    if io.readDir {
      tr, s' := PruneOne(c, s, p, io.stuck);
    } else {
      tr, s' := Begin, s;
    }
  }

  /** Whatever the calls return, what `apply` does to the directory is a run of the protocol. */
  lemma ApplyRun(c: Config, s: State, p: Pid, got: Downloads, tmp: string, io: Outcomes) returns (tr: Trace, s': State)
    requires p in s.phase && p in c.target && s.phase[p] == Ready
    requires IsTempName(tmp) && tmp !in s.dir && tmp !in s.used && tmp != Destination(c, p)
    ensures Leads(c, s, tr, s') && s'.dir == ApplyResult(c, p, s.dir, got, tmp, io)
  {
    tr, s' := Begin, s;
    if !got.Verified(c.trust) { return; }
    var bin := c.trust.extract(got.archive.data).data;
    tr, s' := RunExtends(c, s, tr, s', p, SwapProtocol.Download(got.archive.data, got.sum.data, got.sig.data));
    var m := s';
    var next;
    next, s' := WriteRun(c, m, p, bin, tmp, io);
    RunsConcatenate(c, s, tr, m, next);
    tr := Concat(tr, next);
    if c.strategy.InPlace? || !io.Writes() { return; }
    m := s';
    next, s' := RepointRun(c, m, p, io);
    RunsConcatenate(c, s, tr, m, next);
    tr := Concat(tr, next);
    if !io.Links(m.dir) { return; }
    m := s';
    next, s' := PruneRun(c, m, p, io);
    RunsConcatenate(c, s, tr, m, next);
    tr := Concat(tr, next);
  }

  lemma LinkOkIsLayout(c: Config, dir0: Listing, s: State)
    requires LinkLayout(c, dir0) && LinkOk(c, dir0, s)
    ensures LinkLayout(c, s.dir) && LinkGood(c, dir0, s.dir)
  {
    var x := s.dir[LINK].target;
    if GoodTarget(c, s.dir, x) { VersionedIsNotTemp(x); }
  }

  /**
   * So one `apply`, successful or not, from a working layout leaves a working layout whose link resolves
   * to a good binary, the new version's if it succeeds.
   */
  lemma ApplyKeepsLinkGood(c: Config, p: Pid, dir: Listing, got: Downloads, tmp: string, io: Outcomes)
    requires LinkLayout(c, dir) && OneTarget(c) && p in c.target && IsTempName(tmp) && tmp !in dir
    ensures LinkLayout(c, ApplyResult(c, p, dir, got, tmp, io))
    ensures LinkGood(c, dir, ApplyResult(c, p, dir, got, tmp, io))
    ensures Applies(c, p, dir, got, io) ==> ApplyResult(c, p, dir, got, tmp, io)[LINK] == Symlink(c.target[p])
  {
    VersionedIsNotTemp(c.target[p]);
    var tr, s := ApplyRun(c, Start(c, dir), p, got, tmp, io);
    RunKeepsInv(c, dir, tr);
    LinkOkIsLayout(c, dir, s);
    LinksAreNotVersioned();
  }

  // ---- what one update does ----

  /** A release is trusted exactly if all three downloads are there, both checks pass and a binary is found. */
  lemma VerifiedIff(trust: Trust, got: Downloads)
    ensures got.Verified(trust) <==>
      && got.archive.Got? && got.sum.Got? && got.sig.Got?
      && trust.checksumOk(got.archive.data, got.sum.data)
      && trust.signatureOk(got.archive.data, got.sig.data)
      && trust.extract(got.archive.data).Binary?
  {
  }

  /** A binary is genuine exactly if it comes out of some archive with a good checksum and a good signature. */
  lemma GenuineIff(trust: Trust, data: Blob)
    ensures Genuine(trust, data) <==> exists archive, sum, sig ::
      trust.checksumOk(archive, sum) && trust.signatureOk(archive, sig) && trust.extract(archive) == Binary(data)
  {
    if Genuine(trust, data) {
      var archive, sum, sig :| Verifies(trust, archive, sum, sig) && trust.extract(archive).data == data;
      assert trust.checksumOk(archive, sum) && trust.signatureOk(archive, sig);
      assert trust.extract(archive) == Binary(data);
    }
    if archive, sum, sig :|
      trust.checksumOk(archive, sum) && trust.signatureOk(archive, sig) && trust.extract(archive) == Binary(data)
    {
      assert Verifies(trust, archive, sum, sig) && trust.extract(archive).data == data;
    }
  }

  /** An untrusted release neither succeeds nor changes anything. */
  lemma UntrustedChangesNothing(c: Config, p: Pid, dir: Listing, got: Downloads, tmp: string, io: Outcomes)
    requires p in c.target
    ensures Applies(c, p, dir, got, io) || ApplyResult(c, p, dir, got, tmp, io) != dir ==>
      && got.archive.Got? && got.sum.Got? && got.sig.Got?
      && c.trust.checksumOk(got.archive.data, got.sum.data)
      && c.trust.signatureOk(got.archive.data, got.sig.data)
      && c.trust.extract(got.archive.data).Binary?
  {
    VerifiedIff(c.trust, got);
  }

  /** An update succeeds exactly if the release is trusted and every call succeeds that is not ignored. */
  lemma AppliesIff(c: Config, p: Pid, dir: Listing, got: Downloads, io: Outcomes)
    requires p in c.target && c.target[p] != NEWLINK
    ensures Applies(c, p, dir, got, io) <==>
      && got.Verified(c.trust)
      && io.create && io.write && io.close && io.chmod && io.rename
      && (c.strategy.InPlace? || (io.symlink && io.renameLink && (io.clear || NEWLINK !in dir)))
  {
  }

  /** A successful update: the binary of the archive, executable, at its path, and the link on it. */
  lemma ApplyInstalls(c: Config, p: Pid, dir: Listing, got: Downloads, tmp: string, io: Outcomes)
    requires p in c.target && IsVersioned(c.target[p]) && Applies(c, p, dir, got, io)
    ensures var dir', bin := ApplyResult(c, p, dir, got, tmp, io), c.trust.extract(got.archive.data).data;
      match c.strategy
      case InPlace(exe) => dir' == dir[exe := File(bin, true)]
      case SwapLink =>
        && LINK in dir' && dir'[LINK] == Symlink(c.target[p]) && NEWLINK !in dir'
        && c.target[p] in dir' && dir'[c.target[p]] == File(bin, true)
  {
    LinksAreNotVersioned();
  }

  /**
   * What a successful update leaves installed: the newest versions, the new one among them or besides
   * them, and what could not be removed; everything, if the directory could not be listed.
   */
  lemma ApplyPrunes(c: Config, p: Pid, dir: Listing, got: Downloads, tmp: string, io: Outcomes)
    requires p in c.target && IsVersioned(c.target[p]) && c.strategy.SwapLink? && Applies(c, p, dir, got, io)
    ensures var all := VersionedNames(dir.Keys) + {c.target[p]};
      var left := VersionedNames(ApplyResult(c, p, dir, got, tmp, io).Keys);
      && left == (if io.readDir then Newest(c.parse, all, RETAIN) + {c.target[p]} + all * io.stuck else all)
      && (io.readDir && io.stuck == {} ==> |left| <= 4)
  {
    LinksAreNotVersioned();
    var bin := c.trust.extract(got.archive.data).data;
    var written := dir[c.target[p] := File(bin, true)];
    var repointed := RepointResult(written, c.target[p], io);
    assert VersionedNames(repointed.Keys) == VersionedNames(dir.Keys) + {c.target[p]};
    PruneLeaves(c.parse, repointed, c.target[p], io);
  }

  lemma PruneLeaves(parse: Parser, dir: Listing, name: string, io: Outcomes)
    requires name in VersionedNames(dir.Keys)
    ensures var all, left := VersionedNames(dir.Keys), VersionedNames(PruneResult(parse, dir, name, io).Keys);
      && left == (if io.readDir then Newest(parse, all, RETAIN) + {name} + all * io.stuck else all)
      && (io.readDir && io.stuck == {} ==> |left| <= 4)
  {
    var all, left := VersionedNames(dir.Keys), VersionedNames(PruneResult(parse, dir, name, io).Keys);
    var doomed := Doomed(parse, all, name, RETAIN);
    SurvivorsAreNewest(parse, all, name, RETAIN);
    assert all * {name} == {name};
    if io.readDir {
      assert left == all - (doomed - io.stuck);
      assert all - (doomed - io.stuck) == (all - doomed) + all * io.stuck;
      assert io.stuck == {} ==> left == all - doomed;
    }
  }

  /** An update touches nothing but its target, its temp file, the two links and outranked versions. */
  lemma ApplySparesTheRest(c: Config, p: Pid, dir: Listing, got: Downloads, tmp: string, io: Outcomes, n: string)
    requires p in c.target && n != Destination(c, p) && n != tmp && n != LINK && n != NEWLINK
    ensures var dir' := ApplyResult(c, p, dir, got, tmp, io);
      && (n in dir' ==> n in dir && dir'[n] == dir[n])
      && (n in dir && n !in dir' ==> IsVersioned(n) && Applies(c, p, dir, got, io))
  {
  }

  /** An update that fails leaves the link as it was, and the single file. */
  lemma FailedApplyKeeps(c: Config, p: Pid, dir: Listing, got: Downloads, tmp: string, io: Outcomes)
    requires p in c.target && IsVersioned(c.target[p]) && IsTempName(tmp) && !Applies(c, p, dir, got, io)
    requires Destination(c, p) != tmp
    ensures var dir' := ApplyResult(c, p, dir, got, tmp, io);
      var kept := if c.strategy.InPlace? then Destination(c, p) else LINK;
      (kept in dir' <==> kept in dir) && (kept in dir ==> dir'[kept] == dir[kept])
  {
    LinksAreNotVersioned();
    LinksAreNotTemps();
  }

  // ---- one update after another ----

  /** One apply: the version it is for and everything its environment decides. */
  datatype Attempt = Attempt(target: string, got: Downloads, tmp: string, io: Outcomes)

  /** The updater of one attempt on its own. */
  function Alone(trust: Trust, parse: Parser, target: string): Config {
    Config(trust, parse, SwapLink, map[0 := target])
  }

  ghost function AttemptResult(trust: Trust, parse: Parser, dir: Listing, a: Attempt): Listing {
    ApplyResult(Alone(trust, parse, a.target), 0, dir, a.got, a.tmp, a.io)
  }

  ghost function AfterAll(trust: Trust, parse: Parser, dir: Listing, attempts: seq<Attempt>): Listing
    decreases attempts
  {
    if attempts == [] then dir
    else AfterAll(trust, parse, AttemptResult(trust, parse, dir, attempts[0]), attempts[1..])
  }

  /** Each attempt is for a versioned name, with a temp name that is new when it starts. */
  ghost predicate InTurn(trust: Trust, parse: Parser, dir: Listing, attempts: seq<Attempt>)
    decreases attempts
  {
    attempts == [] ||
    var a := attempts[0];
    && IsVersioned(a.target) && IsTempName(a.tmp) && a.tmp !in dir
    && InTurn(trust, parse, AttemptResult(trust, parse, dir, a), attempts[1..])
  }

  /** A layout whose link names a complete executable, whoever updates it. */
  ghost predicate Works(dir: Listing) {
    && LINK in dir && dir[LINK].Symlink?
    && var x := dir[LINK].target;
      x in dir && dir[x].File? && dir[x].exec && x != NEWLINK && !IsTempName(x)
  }

  /** What the link resolves to. */
  function LinkedFile(dir: Listing): Entry
    requires LINK in dir && dir[LINK].Symlink? && dir[LINK].target in dir
  {
    dir[dir[LINK].target]
  }

  lemma AttemptWorks(trust: Trust, parse: Parser, dir: Listing, a: Attempt)
    requires Works(dir) && IsVersioned(a.target) && IsTempName(a.tmp) && a.tmp !in dir
    ensures var dir' := AttemptResult(trust, parse, dir, a);
      Works(dir') && (LinkedFile(dir') == LinkedFile(dir) || Genuine(trust, LinkedFile(dir').data))
    ensures Applies(Alone(trust, parse, a.target), 0, dir, a.got, a.io)
      ==> AttemptResult(trust, parse, dir, a)[LINK] == Symlink(a.target)
  {
    var c := Alone(trust, parse, a.target);
    assert LinkLayout(c, dir);
    ApplyKeepsLinkGood(c, 0, dir, a.got, a.tmp, a.io);
  }

  /**
   * Updates that run one after another never break the link, whatever their versions, upgrades and
   * downgrades alike, and however each of them fails: no condition on the targets is needed.
   */
  lemma {:induction false} UpdatesInTurnKeepTheLink(trust: Trust, parse: Parser, dir: Listing, attempts: seq<Attempt>)
    requires Works(dir) && InTurn(trust, parse, dir, attempts)
    ensures var dir' := AfterAll(trust, parse, dir, attempts);
      Works(dir') && (LinkedFile(dir') == LinkedFile(dir) || Genuine(trust, LinkedFile(dir').data))
    decreases attempts
  {
    if attempts != [] {
      AttemptWorks(trust, parse, dir, attempts[0]);
      UpdatesInTurnKeepTheLink(trust, parse, AttemptResult(trust, parse, dir, attempts[0]), attempts[1..]);
    }
  }

  /** Updaters that run together for a while, crashes included. */
  datatype Epoch = Epoch(config: Config, trace: Trace)

  ghost predicate EpochRuns(trust: Trust, dir: Listing, e: Epoch) {
    && e.config.trust == trust && LinkLayout(e.config, dir) && Protected(e.config, dir)
    && After(e.config, Start(e.config, dir), e.trace).At?
  }

  ghost function EpochResult(dir: Listing, e: Epoch): Listing
    requires After(e.config, Start(e.config, dir), e.trace).At?
  {
    After(e.config, Start(e.config, dir), e.trace).state.dir
  }

  /** One epoch after another, each protected in the directory it finds. */
  ghost predicate EpochsRun(trust: Trust, dir: Listing, epochs: seq<Epoch>, end: Listing)
    decreases epochs
  {
    if epochs == [] then end == dir
    else EpochRuns(trust, dir, epochs[0]) && EpochsRun(trust, EpochResult(dir, epochs[0]), epochs[1..], end)
  }

  /**
   * Protection need only hold among the updaters of one epoch and what that epoch finds installed: over
   * any number of epochs, each stopped anywhere, the link stays good.
   */
  lemma {:induction false} EpochsKeepTheLink(trust: Trust, dir: Listing, epochs: seq<Epoch>, end: Listing)
    requires Works(dir) && EpochsRun(trust, dir, epochs, end)
    ensures Works(end) && (LinkedFile(end) == LinkedFile(dir) || Genuine(trust, LinkedFile(end).data))
    decreases epochs
  {
    if epochs != [] {
      var e := epochs[0];
      RunKeepsInv(e.config, dir, e.trace);
      LinkOkIsLayout(e.config, dir, After(e.config, Start(e.config, dir), e.trace).state);
      EpochsKeepTheLink(trust, EpochResult(dir, e), epochs[1..], end);
    }
  }
}
