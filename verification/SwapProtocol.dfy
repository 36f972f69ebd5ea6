/**
 * The self-update swap as a protocol: any number of updater processes, one directory, each file
 * system call one atomic step that may fail, and any process free to stop for good between two steps.
 */
module SwapProtocol {
  import opened FileSystem
  import opened Retention

  const LINK := "kubectl-add"
  const NEWLINK := "kubectl-add.new"
  const TEMP_PREFIX := ".kubectl_add_"

  type Pid = nat

  predicate IsTempName(name: string) {
    TEMP_PREFIX <= name
  }

  datatype Extracted = NoBinary | Binary(data: Blob)

  /** Checksum, signature and archive format, all foreign to the updater. */
  datatype Trust = Trust(
    checksumOk: (Blob, Blob) -> bool,
    signatureOk: (Blob, Blob) -> bool,
    extract: Blob -> Extracted)

  predicate Verifies(trust: Trust, archive: Blob, sum: Blob, sig: Blob) {
    trust.checksumOk(archive, sum) && trust.signatureOk(archive, sig) && trust.extract(archive).Binary?
  }

  /** data was extracted from an archive that passed checksum and signature. */
  ghost predicate Genuine(trust: Trust, data: Blob) {
    exists archive, sum, sig :: Verifies(trust, archive, sum, sig) && trust.extract(archive).data == data
  }

  /** Repoint the symlink of the versioned layout, or replace the single file. */
  datatype Strategy = SwapLink | InPlace(exe: string)

  /** Who updates, and to which versioned name. */
  datatype Config = Config(trust: Trust, parse: Parser, strategy: Strategy, target: map<Pid, string>)

  function Destination(c: Config, p: Pid): string
    requires p in c.target
  {
    match c.strategy
    case SwapLink => c.target[p]
    case InPlace(exe) => exe
  }

  datatype Phase =
    | Ready
    | Verified(bin: Blob)
    | Writing(bin: Blob, tmp: string)
    | Written(bin: Blob, tmp: string)
    | Executable(bin: Blob, tmp: string)
    | Renamed(tmp: string)
    | Abandoned(tmp: string)
    | Installed
    | Cleared
    | Linked
    | Swapped
    | Pruning(doomed: seq<string>)
    | Done
    | Failed

  datatype State = State(dir: Listing, phase: map<Pid, Phase>, used: set<string>)

  datatype Event =
    | Download(archive: Blob, sum: Blob, sig: Blob)
    | CreateTemp(name: string)
    | WritePart(k: nat)
    | FinishWrite
    | Chmod
    | RenameOver
    | RemoveTemp(ok: bool)
    | ClearStale(ok: bool)
    | MakeLink
    | RenameLink
    | List(names: seq<string>)
    | RemoveNext(ok: bool)
    | Fail

  predicate HasTemp(ph: Phase) {
    ph.Writing? || ph.Written? || ph.Executable? || ph.Renamed? || ph.Abandoned?
  }

  ghost predicate Enabled(c: Config, s: State, p: Pid, e: Event) {
    && p in s.phase && p in c.target
    && var ph := s.phase[p];
      match e
      case Download(a, sum, sig) => ph.Ready? && Verifies(c.trust, a, sum, sig)
      // A temp name is new: neither present nor ever used before.
      case CreateTemp(name) => ph.Verified? && IsTempName(name) && name !in s.dir && name !in s.used
      case WritePart(k) => ph.Writing? && k <= |ph.bin|
      case FinishWrite => ph.Writing?
      case Chmod => ph.Written?
      case RenameOver => ph.Executable? && ph.tmp in s.dir
      case RemoveTemp(_) => ph.Renamed? || ph.Abandoned?
      case ClearStale(_) => ph.Installed?
      // symlink() is exclusive, rename() needs its source.
      case MakeLink => ph.Cleared? && NEWLINK !in s.dir
      case RenameLink => ph.Linked? && NEWLINK in s.dir
      case List(names) => ph.Swapped? && IsListingOf(names, VersionedNames(s.dir.Keys))
      case RemoveNext(_) => ph.Pruning?
      case Fail => !ph.Renamed? && !ph.Abandoned? && !ph.Pruning? && !ph.Done? && !ph.Failed?
  }

  /** The removal list prune computes from a listing. */
  function PruneList(parse: Parser, names: seq<string>): seq<string> {
    if |names| <= RETAIN then [] else SortNewestFirst(parse, names)[RETAIN..]
  }

  function NextPhase(c: Config, p: Pid, ph: Phase, e: Event): Phase
    requires p in c.target
  {
    match e
    case Download(a, _, _) => if c.trust.extract(a).Binary? then Verified(c.trust.extract(a).data) else Failed
    case CreateTemp(name) => if ph.Verified? then Writing(ph.bin, name) else ph
    case WritePart(_) => ph
    case FinishWrite => if ph.Writing? then Written(ph.bin, ph.tmp) else ph
    case Chmod => if ph.Written? then Executable(ph.bin, ph.tmp) else ph
    case RenameOver => if ph.Executable? then Renamed(ph.tmp) else ph
    case RemoveTemp(_) => if ph.Abandoned? then Failed else if c.strategy.InPlace? then Done else Installed
    case ClearStale(_) => Cleared
    case MakeLink => Linked
    case RenameLink => Swapped
    case List(names) => Pruning(PruneList(c.parse, names))
    case RemoveNext(_) =>
      if ph.Pruning? && ph.doomed != [] then Pruning(ph.doomed[1..]) else Done
    case Fail =>
      // The deferred removal of the temp file still runs; an unreadable directory is not pruned.
      if ph.Writing? || ph.Written? || ph.Executable? then Abandoned(ph.tmp)
      else if ph.Swapped? then Done
      else Failed
  }

  function NextDir(c: Config, p: Pid, dir: Listing, ph: Phase, e: Event): Listing
    requires p in c.target
  {
    match e
    case CreateTemp(name) => dir[name := File([], false)]
    case WritePart(k) => if ph.Writing? && k <= |ph.bin| then dir[ph.tmp := File(ph.bin[..k], false)] else dir
    case FinishWrite => if ph.Writing? then dir[ph.tmp := File(ph.bin, false)] else dir
    case Chmod => if ph.Written? then dir[ph.tmp := File(ph.bin, true)] else dir
    case RenameOver =>
      if ph.Executable? && ph.tmp in dir then dir[Destination(c, p) := dir[ph.tmp]] - {ph.tmp} else dir
    case RemoveTemp(ok) => if ok && HasTemp(ph) then dir - {ph.tmp} else dir
    case ClearStale(ok) => if ok then dir - {NEWLINK} else dir
    case MakeLink => dir[NEWLINK := Symlink(c.target[p])]
    case RenameLink => if NEWLINK in dir then dir[LINK := dir[NEWLINK]] - {NEWLINK} else dir
    case RemoveNext(ok) =>
      if ok && ph.Pruning? && ph.doomed != [] && ph.doomed[0] != c.target[p] then dir - {ph.doomed[0]} else dir
    case _ => dir
  }

  function Effect(c: Config, s: State, p: Pid, e: Event): State
    requires p in c.target && p in s.phase
  {
    State(
      NextDir(c, p, s.dir, s.phase[p], e),
      s.phase[p := NextPhase(c, p, s.phase[p], e)],
      if e.CreateTemp? then s.used + {e.name} else s.used)
  }

  /** A run so far: nothing yet, or one more event of some process. */
  datatype Trace = Begin | Then(before: Trace, p: Pid, e: Event)

  datatype Reached = Stuck | At(state: State)

  /** The state a trace leads to, Stuck when some event of it is not enabled in its turn. */
  ghost function After(c: Config, s: State, tr: Trace): Reached {
    match tr
    case Begin => At(s)
    case Then(before, p, e) =>
      var r := After(c, s, before);
      if r.At? && Enabled(c, r.state, p, e) then At(Effect(c, r.state, p, e)) else Stuck
  }

  /** First a, then b. */
  function Concat(a: Trace, b: Trace): Trace {
    match b
    case Begin => a
    case Then(before, p, e) => Then(Concat(a, before), p, e)
  }

  function Start(c: Config, dir: Listing): State {
    State(dir, map p | p in c.target :: Ready, {})
  }

  // ---- what must hold ----

  ghost function Targets(c: Config): set<string> {
    c.target.Values
  }

  ghost predicate GoodTarget(c: Config, dir: Listing, t: string) {
    && t in Targets(c) && t in dir
    && dir[t].File? && dir[t].exec && Genuine(c.trust, dir[t].data)
  }

  /** The versioned layout as an updater finds it: the link names a runnable file. */
  ghost predicate LinkLayout(c: Config, dir: Listing) {
    && c.strategy.SwapLink?
    && (forall p :: p in c.target ==> IsVersioned(c.target[p]))
    && LINK in dir && dir[LINK].Symlink?
    && var x := dir[LINK].target;
      x in dir && dir[x].File? && dir[x].exec && x != NEWLINK && !IsTempName(x)
  }

  /** The link resolves to a complete executable: the one first linked, or a genuine one. */
  ghost predicate LinkGood(c: Config, dir0: Listing, dir: Listing)
    requires LinkLayout(c, dir0)
  {
    && LINK in dir && dir[LINK].Symlink?
    && var x := dir[LINK].target;
      && x in dir && dir[x].File? && dir[x].exec
      && (dir[x] == dir0[dir0[LINK].target] || Genuine(c.trust, dir[x].data))
  }

  /** Every versioned name that can ever be in the directory. */
  ghost function Universe(c: Config, dir0: Listing): set<string> {
    VersionedNames(dir0.Keys) + Targets(c)
  }

  ghost predicate OneTarget(c: Config) {
    forall p, q :: p in c.target && q in c.target ==> c.target[p] == c.target[q]
  }

  /** No updater can prune another's target: there is one target, or all rank among the retained. */
  ghost predicate Protected(c: Config, dir0: Listing) {
    || OneTarget(c)
    || forall t :: t in Targets(c) ==> |Ahead(c.parse, Universe(c, dir0), t)| < RETAIN
  }

  /** At most `retain` targets, each newer than everything else installed, are protected. */
  lemma FewNewestTargetsAreProtected(c: Config, dir0: Listing)
    requires |Targets(c)| <= RETAIN
    requires forall t, u :: t in Targets(c) && u in VersionedNames(dir0.Keys) - Targets(c) ==> NewerName(c.parse, t, u)
    ensures Protected(c, dir0)
  {
    OutranksIsTotal(c.parse);
    forall t | t in Targets(c) ensures |Ahead(c.parse, Universe(c, dir0), t)| < RETAIN {
      var ahead := Ahead(c.parse, Universe(c, dir0), t);
      forall u | u in ahead ensures u in Targets(c) - {t} {
        assert NewerName(c.parse, t, u) ==> Outranks(c.parse, t, u);
      }
      assert |Targets(c) - {t}| == |Targets(c)| - 1;
      assert |Targets(c) - {t}| == |ahead| + |Targets(c) - {t} - ahead| by {
        assert Targets(c) - {t} == ahead + (Targets(c) - {t} - ahead);
      }
    }
  }

  // ---- temp files: owned by one process, complete before they are renamed ----

  ghost predicate TempsOwned(c: Config, s: State) {
    && s.phase.Keys == c.target.Keys
    && (forall p :: p in s.phase && HasTemp(s.phase[p]) ==> IsTempName(s.phase[p].tmp) && s.phase[p].tmp in s.used)
    && (forall p, q :: (p in s.phase && q in s.phase && p != q && HasTemp(s.phase[p]) && HasTemp(s.phase[q])
                        ==> s.phase[p].tmp != s.phase[q].tmp))
  }

  ghost predicate TempsOk(c: Config, s: State) {
    TempsOwned(c, s) && forall p :: p in s.phase ==> ContentOk(c, s.dir, s.phase[p])
  }

  ghost predicate ContentOk(c: Config, dir: Listing, ph: Phase) {
    match ph
    case Verified(bin) => Genuine(c.trust, bin)
    case Writing(bin, tmp) => Genuine(c.trust, bin) && tmp in dir
    case Written(bin, tmp) => Genuine(c.trust, bin) && tmp in dir && dir[tmp] == File(bin, false)
    case Executable(bin, tmp) => Genuine(c.trust, bin) && tmp in dir && dir[tmp] == File(bin, true)
    case _ => true
  }

  /** Only the owner of a temp file and a rename onto a final name touch what a process reads back. */
  lemma OthersKeepTemp(c: Config, s: State, p: Pid, e: Event, tmp: string)
    requires Enabled(c, s, p, e) && IsTempName(tmp)
    requires !IsTempName(Destination(c, p))
    requires HasTemp(s.phase[p]) ==> s.phase[p].tmp != tmp
    requires s.phase[p].Pruning? ==> forall n :: n in s.phase[p].doomed ==> IsVersioned(n)
    requires tmp in s.dir
    ensures tmp in Effect(c, s, p, e).dir && Effect(c, s, p, e).dir[tmp] == s.dir[tmp]
  {
    LinksAreNotTemps();
    if s.phase[p].Pruning? && s.phase[p].doomed != [] {
      assert s.phase[p].doomed[0] in s.phase[p].doomed;
      VersionedIsNotTemp(s.phase[p].doomed[0]);
    }
  }

  lemma LinksAreNotTemps()
    ensures !IsTempName(LINK) && !IsTempName(NEWLINK)
  {
    assert LINK[0] == 'k' && NEWLINK[0] == 'k' && TEMP_PREFIX[0] == '.';
  }

  lemma VersionedIsNotTemp(name: string)
    requires IsVersioned(name)
    ensures !IsTempName(name) && name != LINK && name != NEWLINK
  {
    assert name[7] == '_';
    assert LINK[7] == '-' && NEWLINK[7] == '-' && name[0] == 'k';
  }

  ghost predicate DestinationsOk(c: Config) {
    forall p :: p in c.target ==> !IsTempName(Destination(c, p))
  }

  ghost predicate DoomedVersioned(s: State) {
    forall p, n :: p in s.phase && s.phase[p].Pruning? && n in s.phase[p].doomed ==> IsVersioned(n)
  }

  lemma OwnContentOk(c: Config, s: State, p: Pid, e: Event)
    requires TempsOk(c, s) && Enabled(c, s, p, e)
    ensures ContentOk(c, Effect(c, s, p, e).dir, Effect(c, s, p, e).phase[p])
  {
  }

  lemma StepKeepsOwners(c: Config, s: State, p: Pid, e: Event)
    requires TempsOwned(c, s) && Enabled(c, s, p, e)
    ensures TempsOwned(c, Effect(c, s, p, e))
  {
    var ph, ph' := s.phase[p], NextPhase(c, p, s.phase[p], e);
    assert HasTemp(ph') ==> e.CreateTemp? || (HasTemp(ph) && ph'.tmp == ph.tmp);
  }

  lemma StepKeepsTemps(c: Config, s: State, p: Pid, e: Event)
    requires TempsOk(c, s) && DestinationsOk(c) && DoomedVersioned(s) && Enabled(c, s, p, e)
    ensures TempsOk(c, Effect(c, s, p, e))
  {
    var s' := Effect(c, s, p, e);
    StepKeepsOwners(c, s, p, e);
    OwnContentOk(c, s, p, e);
    forall q | q in s.phase && q != p ensures ContentOk(c, s'.dir, s'.phase[q]) {
      if (s.phase[q].Writing? || s.phase[q].Written? || s.phase[q].Executable?) {
        OthersKeepTemp(c, s, p, e, s.phase[q].tmp);
      }
    }
  }

  lemma StepKeepsDoomedVersioned(c: Config, s: State, p: Pid, e: Event)
    requires DoomedVersioned(s) && Enabled(c, s, p, e)
    ensures DoomedVersioned(Effect(c, s, p, e))
  {
    if e.List? {
      forall n | n in PruneList(c.parse, e.names) ensures IsVersioned(n) {
        SortRanks(c.parse, e.names, VersionedNames(s.dir.Keys));
        assert n in SortNewestFirst(c.parse, e.names);
      }
    }
  }

  // ---- the link invariant ----

  predicate IsInstalled(ph: Phase) {
    ph.Renamed? || ph.Installed? || ph.Cleared? || ph.Linked? || ph.Swapped? || ph.Pruning? || ph.Done?
  }

  predicate HasSwapped(ph: Phase) {
    ph.Swapped? || ph.Pruning? || ph.Done?
  }

  /** No removal list names a target, except the lister's own, which it skips. */
  ghost predicate DoomedSpareTargets(c: Config, s: State) {
    forall p, n :: p in s.phase && p in c.target && s.phase[p].Pruning? && n in s.phase[p].doomed
      ==> n == c.target[p] || n !in Targets(c)
  }

  ghost predicate LinkOk(c: Config, dir0: Listing, s: State)
    requires LinkLayout(c, dir0)
  {
    && LINK in s.dir && s.dir[LINK].Symlink?
    && (GoodTarget(c, s.dir, s.dir[LINK].target)
        || (&& s.dir[LINK] == dir0[LINK]
            && var x := dir0[LINK].target;
              && x in s.dir && s.dir[x] == dir0[x]
              && forall p :: p in s.phase ==> !HasSwapped(s.phase[p])))
  }

  ghost predicate NewLinkOk(c: Config, s: State) {
    forall p :: p in s.phase && s.phase[p].Linked? && NEWLINK in s.dir
      ==> s.dir[NEWLINK].Symlink? && GoodTarget(c, s.dir, s.dir[NEWLINK].target)
  }

  ghost predicate InstalledOk(c: Config, s: State) {
    forall p :: p in s.phase && p in c.target && IsInstalled(s.phase[p]) ==> GoodTarget(c, s.dir, c.target[p])
  }

  ghost predicate Inv(c: Config, dir0: Listing, s: State)
    requires LinkLayout(c, dir0)
  {
    && TempsOk(c, s) && DoomedVersioned(s) && DoomedSpareTargets(c, s)
    && VersionedNames(s.dir.Keys) <= Universe(c, dir0)
    && InstalledOk(c, s) && NewLinkOk(c, s) && LinkOk(c, dir0, s)
  }

  lemma LayoutDestinations(c: Config, dir0: Listing)
    requires LinkLayout(c, dir0)
    ensures DestinationsOk(c)
  {
    forall p | p in c.target ensures !IsTempName(Destination(c, p)) {
      VersionedIsNotTemp(c.target[p]);
    }
  }

  /** Once a target's file is good it stays good. */
  lemma GoodTargetsStay(c: Config, dir0: Listing, s: State, p: Pid, e: Event, t: string)
    requires LinkLayout(c, dir0) && Inv(c, dir0, s) && Enabled(c, s, p, e) && GoodTarget(c, s.dir, t)
    ensures GoodTarget(c, Effect(c, s, p, e).dir, t)
  {
    var r :| r in c.target && c.target[r] == t;
    VersionedIsNotTemp(t);
    if e.RemoveNext? && s.phase[p].doomed != [] { assert s.phase[p].doomed[0] in s.phase[p].doomed; }
  }

  /** The rename of a complete temp file makes its target good. */
  lemma RenameInstalls(c: Config, dir0: Listing, s: State, p: Pid)
    requires LinkLayout(c, dir0) && TempsOk(c, s) && Enabled(c, s, p, RenameOver)
    ensures GoodTarget(c, Effect(c, s, p, RenameOver).dir, c.target[p])
  {
    VersionedIsNotTemp(c.target[p]);
    assert ContentOk(c, s.dir, s.phase[p]);
  }

  lemma NewlyInstalled(c: Config, s: State, p: Pid, e: Event)
    requires Enabled(c, s, p, e)
    ensures IsInstalled(NextPhase(c, p, s.phase[p], e)) ==> IsInstalled(s.phase[p]) || e.RenameOver?
  {
  }

  lemma StepKeepsInstalled(c: Config, dir0: Listing, s: State, p: Pid, e: Event)
    requires LinkLayout(c, dir0) && Inv(c, dir0, s) && Enabled(c, s, p, e)
    ensures InstalledOk(c, Effect(c, s, p, e))
  {
    NewlyInstalled(c, s, p, e);
    var dir' := Effect(c, s, p, e).dir;
    forall q | q in s.phase && q in c.target && (IsInstalled(s.phase[q]) || (q == p && e.RenameOver?))
      ensures GoodTarget(c, dir', c.target[q])
    {
      if IsInstalled(s.phase[q]) {
        GoodTargetsStay(c, dir0, s, p, e, c.target[q]);
      } else {
        RenameInstalls(c, dir0, s, p);
      }
    }
  }

  lemma StepKeepsNewLink(c: Config, dir0: Listing, s: State, p: Pid, e: Event)
    requires LinkLayout(c, dir0) && Inv(c, dir0, s) && Enabled(c, s, p, e)
    ensures NewLinkOk(c, Effect(c, s, p, e))
  {
    var s' := Effect(c, s, p, e);
    forall q | q in s'.phase && s'.phase[q].Linked? && NEWLINK in s'.dir
      ensures s'.dir[NEWLINK].Symlink? && GoodTarget(c, s'.dir, s'.dir[NEWLINK].target)
    {
      LinksAreNotTemps();
      VersionedIsNotTemp(c.target[p]);
      if e.MakeLink? {
        GoodTargetsStay(c, dir0, s, p, e, c.target[p]);
      } else {
        assert s.phase[q].Linked?;
        assert NEWLINK in s.dir && s'.dir[NEWLINK] == s.dir[NEWLINK];
        GoodTargetsStay(c, dir0, s, p, e, s.dir[NEWLINK].target);
      }
    }
  }

  lemma RenameKeepsLink(c: Config, dir0: Listing, s: State, p: Pid)
    requires LinkLayout(c, dir0) && Inv(c, dir0, s) && Enabled(c, s, p, RenameLink)
    ensures LinkOk(c, dir0, Effect(c, s, p, RenameLink))
  {
    GoodTargetsStay(c, dir0, s, p, RenameLink, s.dir[NEWLINK].target);
  }

  /** Only a rename of the temp link changes the link, and only an installation or a prune a versioned name. */
  lemma OthersKeepNames(c: Config, dir0: Listing, s: State, p: Pid, e: Event)
    requires LinkLayout(c, dir0) && Inv(c, dir0, s) && Enabled(c, s, p, e) && !e.RenameLink?
    ensures LINK in Effect(c, s, p, e).dir && Effect(c, s, p, e).dir[LINK] == s.dir[LINK]
    ensures var x := dir0[LINK].target;
      (x in s.dir && !s.phase[p].Pruning? && !(e.RenameOver? && c.target[p] == x)
       ==> x in Effect(c, s, p, e).dir && Effect(c, s, p, e).dir[x] == s.dir[x])
  {
    LinksAreNotTemps();
    VersionedIsNotTemp(c.target[p]);
    if s.phase[p].Pruning? && s.phase[p].doomed != [] {
      assert s.phase[p].doomed[0] in s.phase[p].doomed;
      VersionedIsNotTemp(s.phase[p].doomed[0]);
    }
  }

  lemma StepKeepsLink(c: Config, dir0: Listing, s: State, p: Pid, e: Event)
    requires LinkLayout(c, dir0) && Inv(c, dir0, s) && Enabled(c, s, p, e)
    ensures LinkOk(c, dir0, Effect(c, s, p, e))
  {
    if e.RenameLink? {
      RenameKeepsLink(c, dir0, s, p);
    } else {
      OthersKeepNames(c, dir0, s, p, e);
      if GoodTarget(c, s.dir, s.dir[LINK].target) {
        GoodTargetsStay(c, dir0, s, p, e, s.dir[LINK].target);
      } else if e.RenameOver? && c.target[p] == dir0[LINK].target {
        StepKeepsInstalled(c, dir0, s, p, e);
      }
    }
  }

  lemma StepKeepsUniverse(c: Config, dir0: Listing, s: State, p: Pid, e: Event)
    requires LinkLayout(c, dir0) && TempsOk(c, s) && Enabled(c, s, p, e)
    requires VersionedNames(s.dir.Keys) <= Universe(c, dir0)
    ensures VersionedNames(Effect(c, s, p, e).dir.Keys) <= Universe(c, dir0)
  {
    var s' := Effect(c, s, p, e);
    forall n | n in s'.dir && IsVersioned(n) ensures n in Universe(c, dir0) {
      VersionedIsNotTemp(n);
      if n !in s.dir { assert n == c.target[p]; }
    }
  }

  lemma StepKeepsSpared(c: Config, dir0: Listing, s: State, p: Pid, e: Event)
    requires LinkLayout(c, dir0) && Inv(c, dir0, s) && Enabled(c, s, p, e) && Protected(c, dir0)
    ensures DoomedSpareTargets(c, Effect(c, s, p, e))
  {
    if e.List? {
      var all := VersionedNames(s.dir.Keys);
      TailIsOutranked(c.parse, e.names, all, RETAIN);
      SortRanks(c.parse, e.names, all);
      forall n | n in PruneList(c.parse, e.names) && n in Targets(c) ensures n == c.target[p] {
        if !OneTarget(c) {
          assert n in SortNewestFirst(c.parse, e.names);
          AheadIsMonotone(c.parse, all, Universe(c, dir0), n);
        }
      }
    }
  }

  lemma StepKeepsInv(c: Config, dir0: Listing, s: State, p: Pid, e: Event)
    requires LinkLayout(c, dir0) && Inv(c, dir0, s) && Enabled(c, s, p, e) && Protected(c, dir0)
    ensures Inv(c, dir0, Effect(c, s, p, e))
  {
    LayoutDestinations(c, dir0);
    StepKeepsTemps(c, s, p, e);
    StepKeepsDoomedVersioned(c, s, p, e);
    StepKeepsUniverse(c, dir0, s, p, e);
    StepKeepsSpared(c, dir0, s, p, e);
    StepKeepsInstalled(c, dir0, s, p, e);
    StepKeepsNewLink(c, dir0, s, p, e);
    StepKeepsLink(c, dir0, s, p, e);
  }

  lemma {:induction false} RunKeepsInv(c: Config, dir0: Listing, tr: Trace)
    requires LinkLayout(c, dir0) && Protected(c, dir0) && After(c, Start(c, dir0), tr).At?
    ensures Inv(c, dir0, After(c, Start(c, dir0), tr).state)
  {
    if tr.Then? {
      RunKeepsInv(c, dir0, tr.before);
      StepKeepsInv(c, dir0, After(c, Start(c, dir0), tr.before).state, tr.p, tr.e);
    }
  }

  /** In every state of every run the link resolves to a good binary. */
  ghost predicate AlwaysResolves(c: Config, dir0: Listing)
    requires LinkLayout(c, dir0)
  {
    forall tr :: After(c, Start(c, dir0), tr).At? ==> LinkGood(c, dir0, After(c, Start(c, dir0), tr).state.dir)
  }

  lemma ProtectedAlwaysResolves(c: Config, dir0: Listing)
    requires LinkLayout(c, dir0) && Protected(c, dir0)
    ensures AlwaysResolves(c, dir0)
  {
    forall tr | After(c, Start(c, dir0), tr).At? ensures LinkGood(c, dir0, After(c, Start(c, dir0), tr).state.dir) {
      RunKeepsInv(c, dir0, tr);
    }
  }

  // ---- the in-place strategy ----

  /** A single binary that is not itself a leftover temp file. */
  ghost predicate FileLayout(c: Config, dir: Listing) {
    && c.strategy.InPlace?
    && var exe := c.strategy.exe;
      exe in dir && dir[exe].File? && dir[exe].exec && !IsTempName(exe)
  }

  ghost predicate FileGood(c: Config, dir0: Listing, dir: Listing)
    requires FileLayout(c, dir0)
  {
    var exe := c.strategy.exe;
    && exe in dir && dir[exe].File? && dir[exe].exec
    && (dir[exe] == dir0[exe] || Genuine(c.trust, dir[exe].data))
  }

  /** In place, no process ever gets as far as the link or a prune. */
  ghost predicate NeverLinks(s: State) {
    forall p :: p in s.phase ==>
      var ph := s.phase[p];
      !ph.Installed? && !ph.Cleared? && !ph.Linked? && !ph.Swapped? && !ph.Pruning?
  }

  lemma {:induction false} RunKeepsFile(c: Config, dir0: Listing, tr: Trace)
    requires FileLayout(c, dir0) && After(c, Start(c, dir0), tr).At?
    ensures var s := After(c, Start(c, dir0), tr).state;
      TempsOk(c, s) && NeverLinks(s) && FileGood(c, dir0, s.dir)
  {
    if tr.Then? {
      RunKeepsFile(c, dir0, tr.before);
      StepKeepsTemps(c, After(c, Start(c, dir0), tr.before).state, tr.p, tr.e);
    }
  }

  /** Replacing the single file needs no hypothesis: it is good in every state of every run. */
  lemma InPlaceAlwaysGood(c: Config, dir0: Listing, tr: Trace)
    requires FileLayout(c, dir0) && After(c, Start(c, dir0), tr).At?
    ensures FileGood(c, dir0, After(c, Start(c, dir0), tr).state.dir)
  {
    RunKeepsFile(c, dir0, tr);
  }

  // ---- the hypothesis is necessary ----

  ghost predicate Leads(c: Config, s: State, tr: Trace, s': State) {
    After(c, s, tr) == At(s')
  }

  lemma {:induction false} RunsConcatenate(c: Config, s: State, a: Trace, m: State, b: Trace)
    requires Leads(c, s, a, m)
    ensures After(c, s, Concat(a, b)) == After(c, m, b)
  {
    if b.Then? {
      RunsConcatenate(c, s, a, m, b.before);
    }
  }

  /** One more enabled event extends a run. */
  lemma RunExtends(c: Config, s: State, tr: Trace, m: State, p: Pid, e: Event) returns (tr': Trace, m': State)
    requires Leads(c, s, tr, m) && Enabled(c, m, p, e)
    ensures tr' == Then(tr, p, e) && m' == Effect(c, m, p, e) && Leads(c, s, tr', m')
  {
    tr', m' := Then(tr, p, e), Effect(c, m, p, e);
  }

  lemma {:induction false} LongestName(names: set<string>) returns (n: nat)
    ensures forall s :: s in names ==> |s| <= n
  {
    if names == {} {
      n := 0;
    } else {
      var x :| x in names;
      var m := LongestName(names - {x});
      n := if |x| > m then |x| else m;
    }
  }

  lemma FreshTempName(names: set<string>) returns (tmp: string)
    ensures IsTempName(tmp) && tmp !in names
  {
    var n := LongestName(names);
    tmp := TEMP_PREFIX + seq(n, _ => 'x');
  }

  /** One updater downloads, writes and installs its versioned binary undisturbed. */
  lemma InstallOne(c: Config, s: State, p: Pid, archive: Blob, sum: Blob, sig: Blob)
      returns (tr: Trace, s': State)
    requires c.strategy.SwapLink? && p in s.phase && p in c.target && s.phase[p].Ready?
    requires IsVersioned(c.target[p]) && Verifies(c.trust, archive, sum, sig)
    ensures Leads(c, s, tr, s')
    ensures s'.phase == s.phase[p := Installed]
    ensures s'.dir.Keys == s.dir.Keys + {c.target[p]}
    ensures forall n :: n in s.dir && n != c.target[p] ==> s'.dir[n] == s.dir[n]
  {
    var tmp := FreshTempName(s.dir.Keys + s.used);
    VersionedIsNotTemp(c.target[p]);
    var bin := c.trust.extract(archive).data;
    tr, s' := Begin, s;
    tr, s' := RunExtends(c, s, tr, s', p, Download(archive, sum, sig));
    tr, s' := RunExtends(c, s, tr, s', p, CreateTemp(tmp));
    tr, s' := RunExtends(c, s, tr, s', p, FinishWrite);
    tr, s' := RunExtends(c, s, tr, s', p, Chmod);
    assert s'.phase == s.phase[p := Executable(bin, tmp)] && s'.dir == s.dir[tmp := File(bin, true)];
    tr, s' := RunExtends(c, s, tr, s', p, RenameOver);
    assert s'.dir == s.dir[c.target[p] := File(bin, true)];
    tr, s' := RunExtends(c, s, tr, s', p, RemoveTemp(false));
  }

  lemma {:induction false} InstallAll(c: Config, s: State, ps: set<Pid>, archive: Blob, sum: Blob, sig: Blob)
      returns (tr: Trace, s': State)
    requires c.strategy.SwapLink? && s.phase.Keys == c.target.Keys
    requires forall p :: p in ps ==> p in c.target && s.phase[p].Ready?
    requires forall p :: p in c.target ==> IsVersioned(c.target[p])
    requires Verifies(c.trust, archive, sum, sig)
    ensures Leads(c, s, tr, s') && s'.phase.Keys == s.phase.Keys
    ensures forall p :: p in ps ==> s'.phase[p].Installed?
    ensures forall p :: p in s.phase && p !in ps ==> s'.phase[p] == s.phase[p]
    ensures forall n :: n in s'.dir <==> n in s.dir || exists p :: p in ps && c.target[p] == n
    decreases ps
  {
    if ps == {} {
      tr, s' := Begin, s;
    } else {
      var p :| p in ps;
      var first, m := InstallOne(c, s, p, archive, sum, sig);
      var rest;
      rest, s' := InstallAll(c, m, ps - {p}, archive, sum, sig);
      tr := Concat(first, rest);
      RunsConcatenate(c, s, first, m, rest);
    }
  }

  /** An updater with its binary installed repoints the link undisturbed. */
  lemma LinkOne(c: Config, s: State, p: Pid) returns (tr: Trace, s': State)
    requires p in s.phase && p in c.target && s.phase[p].Installed?
    ensures Leads(c, s, tr, s')
    ensures s' == State((s.dir - {NEWLINK})[LINK := Symlink(c.target[p])], s.phase[p := Swapped], s.used)
  {
    tr, s' := Begin, s;
    tr, s' := RunExtends(c, s, tr, s', p, ClearStale(true));
    tr, s' := RunExtends(c, s, tr, s', p, MakeLink);
    tr, s' := RunExtends(c, s, tr, s', p, RenameLink);
  }

  /** Running a removal list down, the removals of the names in `stuck` failing. */
  lemma {:induction false} RemoveAll(c: Config, s: State, p: Pid, doomed: seq<string>, stuck: set<string>)
      returns (tr: Trace, s': State)
    requires p in s.phase && p in c.target && s.phase[p] == Pruning(doomed)
    ensures Leads(c, s, tr, s')
    ensures s'.dir == s.dir - ((set n | n in doomed && n != c.target[p]) - stuck)
    ensures s'.phase == s.phase[p := Done]
    decreases |doomed|
  {
    if doomed == [] {
      tr := Then(Begin, p, RemoveNext(true));
      s' := Effect(c, s, p, RemoveNext(true));
      assert s.dir - {} == s.dir;
    } else {
      var m, first := RemoveFirst(c, s, p, doomed, stuck);
      var rest;
      rest, s' := RemoveAll(c, m, p, doomed[1..], stuck);
      tr := Concat(first, rest);
      RunsConcatenate(c, s, first, m, rest);
      ghost var head := if doomed[0] == c.target[p] then {} else {doomed[0]};
      assert (set n | n in doomed && n != c.target[p]) == head + (set n | n in doomed[1..] && n != c.target[p]);
    }
  }

  lemma RemoveFirst(c: Config, s: State, p: Pid, doomed: seq<string>, stuck: set<string>) returns (m: State, tr: Trace)
    requires p in s.phase && p in c.target && s.phase[p] == Pruning(doomed) && doomed != []
    ensures Leads(c, s, tr, m) && m.phase == s.phase[p := Pruning(doomed[1..])]
    ensures m.dir == s.dir - ((if doomed[0] == c.target[p] then {} else {doomed[0]}) - stuck)
  {
    var e := RemoveNext(doomed[0] !in stuck);
    m := Effect(c, s, p, e);
    tr := Then(Begin, p, e);
  }

  /** The prune of one undisturbed process, as a run: every outranked name but its own target goes. */
  lemma PruneOne(c: Config, s: State, p: Pid, stuck: set<string>) returns (tr: Trace, s': State)
    requires p in s.phase && p in c.target && s.phase[p].Swapped?
    ensures Leads(c, s, tr, s')
    ensures s'.dir == s.dir - (Doomed(c.parse, VersionedNames(s.dir.Keys), c.target[p], RETAIN) - stuck)
    ensures s'.phase == s.phase[p := Done]
  {
    var all := VersionedNames(s.dir.Keys);
    var names := ListingExists(all);
    var m := Effect(c, s, p, List(names));
    var first := Then(Begin, p, List(names));
    var rest;
    rest, s' := RemoveAll(c, m, p, PruneList(c.parse, names), stuck);
    tr := Concat(first, rest);
    RunsConcatenate(c, s, first, m, rest);
    TailIsOutranked(c.parse, names, all, RETAIN);
    SortRanks(c.parse, names, all);
    assert (set n | n in PruneList(c.parse, names) && n != c.target[p]) == Doomed(c.parse, all, c.target[p], RETAIN);
  }

  lemma LinksAreNotVersioned()
    ensures !IsVersioned(LINK) && !IsVersioned(NEWLINK)
  {
    assert LINK[7] == '-' && NEWLINK[7] == '-' && PREFIX[7] == '_';
  }

  /** Everyone installs, then q links and prunes: an outranked target t of another updater is gone. */
  lemma PruneAnother(c: Config, dir0: Listing, archive: Blob, sum: Blob, sig: Blob, t: string, p: Pid, q: Pid)
      returns (tr: Trace, s: State)
    requires LinkLayout(c, dir0) && Verifies(c.trust, archive, sum, sig)
    requires |Ahead(c.parse, Universe(c, dir0), t)| >= RETAIN
    requires p in c.target && c.target[p] == t && q in c.target && c.target[q] != t
    ensures Leads(c, Start(c, dir0), tr, s)
    ensures p in s.phase && s.phase[p].Installed? && t !in s.dir
  {
    var s0 := Start(c, dir0);
    LinksAreNotVersioned();
    var tr1, s1 := InstallAll(c, s0, c.target.Keys, archive, sum, sig);
    assert VersionedNames(s1.dir.Keys) == Universe(c, dir0);
    var tr2, s2 := LinkOne(c, s1, q);
    assert VersionedNames(s2.dir.Keys) == Universe(c, dir0);
    var tr3;
    tr3, s := PruneOne(c, s2, q, {});
    assert t in Doomed(c.parse, VersionedNames(s2.dir.Keys), c.target[q], RETAIN);
    RunsConcatenate(c, s0, tr1, s1, tr2);
    RunsConcatenate(c, s0, Concat(tr1, tr2), s2, tr3);
    tr := Concat(Concat(tr1, tr2), tr3);
  }

  /** Without protection some run breaks the link: the updater of the pruned file links to nothing. */
  lemma UnprotectedBreaks(c: Config, dir0: Listing, archive: Blob, sum: Blob, sig: Blob)
    requires LinkLayout(c, dir0) && !Protected(c, dir0) && Verifies(c.trust, archive, sum, sig)
    ensures !AlwaysResolves(c, dir0)
  {
    var t :| t in Targets(c) && |Ahead(c.parse, Universe(c, dir0), t)| >= RETAIN;
    var p :| p in c.target && c.target[p] == t;
    var q :| q in c.target && c.target[q] != t;
    var tr, m := PruneAnother(c, dir0, archive, sum, sig, t, p, q);
    var last, s := LinkOne(c, m, p);
    RunsConcatenate(c, Start(c, dir0), tr, m, last);
    VersionedIsNotTemp(t);
    assert After(c, Start(c, dir0), Concat(tr, last)) == At(s);
    assert s.dir[LINK] == Symlink(t) && t !in s.dir;
  }

  /**
   * The link resolves in every state of every run, under any interleaving, failure and crash, exactly
   * when no updater can prune another's target (given that some release verifies at all).
   */
  lemma AlwaysResolvesIffProtected(c: Config, dir0: Listing, archive: Blob, sum: Blob, sig: Blob)
    requires LinkLayout(c, dir0) && Verifies(c.trust, archive, sum, sig)
    ensures AlwaysResolves(c, dir0) <==> Protected(c, dir0)
  {
    if Protected(c, dir0) {
      ProtectedAlwaysResolves(c, dir0);
    } else {
      UnprotectedBreaks(c, dir0, archive, sum, sig);
    }
  }
}
