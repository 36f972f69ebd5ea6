# Verified model of kubectl-add

`kubectl-add` installs a Helm chart, a kustomization or a plain manifest from a URL into a cluster,
exposes a cluster through a tunnel, and updates its own binary. This project models the six parts of
it that are more than plumbing and proves what they keep.

| part | files | main results |
|---|---|---|
| self-update | `SwapProtocol`, `Updater`, `Retention`, `UpdatePolicy`, over `SemVer`, `Ordering`, `StableSort`, `FileSystem` | the link resolves in every state of every run of any number of updaters exactly when no updater can prune another's target; `apply` is such a run for every outcome of every call; what a prune leaves; version and throttle over any sequence of runs |
| kustomization | `Kustomize`, `Unpack`, over `Paths`, `CleanPath` | the walk ends, succeeds exactly on sound graphs, packs exactly the closure; resolution of any reference is a climb from the root and composes except in one exact case; the builder finds what a reference stands for exactly where the archive can be unpacked and the reference takes back neither the site root nor an empty element |
| git | `BitbucketTree`, `ChartFiles`, `HostUrls`, `RepoSpellings`, over `Markers`, `Paths` | the queue walk lists a permutation of the tree; stripping then resolving member paths is the identity; exactly which URLs round-trip |
| OCI tags | `HighestTag` | the one-pass scan is the head of the stable sort |
| runner | `Runner`, `KustomizePipe` | every created object is deleted once, in reverse order; the pipe is safe in every interleaving, and the call can return exactly if it is not blocked |
| tunnel | `WatchPadding` over `JsonLexer`, `Kubeconfig` | padding keeps the JSON tokens exactly when no pad falls into a string; tunnels leave no trace in the kubeconfig |

Code that changes things step by step is modelled by classes and methods with loops, each proved
against a specification function; the theorems are about those functions. Concurrent parts (the
updaters, the pipe) are state machines over atomic steps, and the imperative `Updater.Apply` is
proved to be one run of its state machine. Foreign calls appear as parameters that give their outcome,
so a contract holds for every combination of failures.

## Findings

Properties that the code keeps only under a condition; each condition is proved exact.

* **Self-update.** `prune` of one updater can remove the file another one has installed but not yet
  linked, after which that one links to nothing. The link always resolves if and only if all updaters
  install the same version, or every target ranks among the `retain` newest of what is installed and
  targeted together (`AlwaysResolvesIffProtected`). The condition is only about updaters that overlap:
  updates that run one after another need none (`UpdatesInTurnKeepTheLink`, `EpochsKeepTheLink`), and
  neither does in-place replacement.
* **Kustomization.** The branch that rejects a reference for leaving the host (kustomize.go:76-78) is
  never taken: a reference is made into a URL that is only a path, so it resolves to the base's host. A
  reference like `//evil.com/evil.yaml` (kustomize_test.go:126-136) becomes the path
  `//evil.com/evil.yaml` on that same host, and fails only if the host does not serve it. The model keeps
  the branch and proves it dead (`Walk`). A base path that ends in a slash cannot be packed unless the
  kustomization is empty, as package tar makes it a directory entry; no reference is ever packed under
  such a name (`ReferencesAreWritable`).
* **URL resolution.** Resolving a and then b is resolving a/b on all strings except one exact case: a
  was clamped at the root, and b puts an empty element first (`ResolveComposesIff`, with the instance
  `CompositionCanFail`).
* **Unpacked archive.** The builder's file system neither clamps `..` at the site root nor counts empty
  elements, and a rooted reference leaves the mount there. Local resolution finds the packed entry if
  and only if the reference is neither empty nor rooted and no `..` of it takes back the site root or
  an empty element (`LandsIff`, with the instances `DepartingReferencesMiss`). The build directory is
  the root kustomization's own unless the root's name is rooted and climbs above its root
  (`BuildDirHoldsRoot`, `RootedClimberMisses`).
* **Unpacking.** A reference with a dot in its last name and no final slash counts as a file, so a site
  that serves both `v1.2` and `v1.2/x.yaml` is packed without complaint into an archive that cannot be
  unpacked (`FileBelowFileStops`). Unpacking goes through if and only if no member lies below another
  and no name has a `..` or stands for the mount itself (`ExtractsIff`).
* **Host URLs.** A repository or subpath that contains what is searched for first is misread
  (`ParseRefRoundTripsIff`, `RepoRoundTripsIff` give the exact conditions), and a ref with a slash in it
  is always cut at the slash (`ParsedRefHasNoSlash`). A directory called `blob` on GitHub and a
  repository called `src` on Bitbucket are misread (`BlobDirectoryIsMisread`, `SrcRepositoryIsMisread`).
* **Pipe.** The call can return without the build failing if and only if it is not blocked: the applier
  has returned while the builder is in the middle of a write (`CanReturnIff`; `MovesIff` is the same for
  one step). From a blocked state, which is reachable (`BlockedIsReachable`), every way on ends in the
  build error or does not end.
* **Watch padding.** A chunk that breaks off after `}` inside a string is padded inside that string
  (`PadFallsIntoString`). The tokens are kept if and only if that does not happen (`SameTokensIff`,
  `FinishedTokensIff`).
* **Kubeconfig.** The cleanup deletes a user named like the tunnel also when it belongs to the user and
  nothing was minted (`LikeNamedUserIsLost`; `OpenCloseRestoresIff` is the exact condition on the config
  before). Closing two tunnels in the order they were opened leaves an existing context selected if and
  only if both had one name and the user had selected another context that exists
  (`CrossedClosesDangleIff`).
* **Throttle.** The 24-hour spacing of unforced checks needs a working stamp file but no monotone clock.

## Assumptions

`rename` and exclusive `symlink` are atomic (IEEE Std 1003.1, `rename()`), and temp names are never
reused. A write to a temp file may stop after any prefix; a process may stop between any two steps. One
directory listing is one atomic snapshot, which may be out of date when it is used. A build that succeeds
leaves no bytes pending in the pipe. Nothing reads the pipe once the applier's stream call has returned,
on which `CanReturnIff` and `BlockedRuns` rest; that the client library's copier of standard input may
still take one more chunk is not modelled. tar refuses a member whose name has a `..`, that passes
through a file or that lies where there is a directory, and the build does not start when it has;
kustomize joins a reference to its directory by names alone. Where tunnels are shown to leave no trace,
every cleanup can read and write the kubeconfig. A fetch is a deterministic function of the path. Parsing
a version string is a parameter; the order on parsed versions is item 11 of Semantic Versioning 2.0.0.

## Model

| member | source | states |
|---|---|---|
| SwapProtocol.AlwaysResolvesIffProtected | v1alpha1/selfupdate/selfupdate.go:238-299 | Over any number of updaters, any interleaving, any failure and any crash, the link resolves in every reachable state to a complete executable (the one first linked or a genuine one) if and only if all targets are one or every target ranks among the retained |
| SwapProtocol.StepKeepsInv | v1alpha1/selfupdate/selfupdate.go:286-297 | One step of one process keeps the invariant: temp files have one owner and the content it wrote, installed targets stay good, a contended or stale temp link never points a linker at a bad file, no pending removal list names another's target |
| SwapProtocol.RunKeepsInv | v1alpha1/selfupdate/selfupdate.go:238-299 | The invariant holds after every trace from a working layout |
| SwapProtocol.GoodTargetsStay | v1alpha1/selfupdate/selfupdate.go:384-389 | No step, stale removal lists included, takes away or damages an installed target |
| SwapProtocol.FewNewestTargetsAreProtected | v1alpha1/selfupdate/selfupdate.go:35-37 | At most `retain` distinct targets, each newer than everything else installed, meet the condition |
| SwapProtocol.UnprotectedBreaks | v1alpha1/selfupdate/selfupdate.go:282-297 | Whenever the condition fails, some run ends with the link naming a file that was pruned |
| SwapProtocol.PruneAnother | v1alpha1/selfupdate/selfupdate.go:361-390 | The run behind it: everyone installs, one links and prunes, and an outranked target of another is gone |
| SwapProtocol.InPlaceAlwaysGood | v1alpha1/selfupdate/selfupdate.go:272-275 | Replacing the single file in place leaves a complete executable, original or genuine, in every state of every run, without any condition |
| Updater.WriteExecutable | v1alpha1/selfupdate/selfupdate.go:336-357 | For every outcome of create, write, close, chmod, rename and the deferred removal: the path holds the whole executable or what it held before; at worst one temp file remains |
| Updater.Repoint | v1alpha1/selfupdate/selfupdate.go:286-295 | Succeeds exactly if the calls do and no stale temp link stays in the way; then the link is the new one, else it is unchanged |
| Updater.Apply | v1alpha1/selfupdate/selfupdate.go:238-299 | The directory afterwards and the result, for every outcome of downloads, checks and calls; nothing is touched unless checksum, signature and archive are all good |
| Updater.WriteRun | v1alpha1/selfupdate/selfupdate.go:336-357 | Every outcome of writing the executable is a sequence of protocol steps |
| Updater.ApplyRun | v1alpha1/selfupdate/selfupdate.go:238-299 | Whatever the calls return, what apply does to the directory is a run of the protocol: the imperative form refines the state machine |
| Updater.VerifiedIff | v1alpha1/selfupdate/selfupdate.go:242-270 | A release is trusted if and only if archive, checksum and signature arrive, both checks of the archive pass and it holds a binary |
| Updater.UntrustedChangesNothing | v1alpha1/selfupdate/selfupdate.go:247-270 | Whenever an apply succeeds or changes anything, checksum and signature of its archive were good |
| Updater.GenuineIff | v1alpha1/selfupdate/selfupdate.go:254-261 | A binary counts as genuine if and only if it comes out of an archive with a good checksum and a good signature |
| Updater.AppliesIff | v1alpha1/selfupdate/selfupdate.go:238-299 | An apply succeeds if and only if the release is trusted and every call that is not ignored succeeds, a stale temp link not in the way |
| Updater.ApplyInstalls | v1alpha1/selfupdate/selfupdate.go:272-295 | A successful apply leaves exactly the archive's binary, executable, at its path, and the link on it; in place it changes nothing else |
| Updater.ApplyPrunes | v1alpha1/selfupdate/selfupdate.go:297 | After a successful apply the versions left are the newest ones of those there and the new one, the new one itself, and what could not be removed: at most four if every removal succeeds |
| Updater.ApplySparesTheRest | v1alpha1/selfupdate/selfupdate.go:238-299 | Nothing but the target, the temp file, the two links and, on success, old versions is touched |
| Updater.FailedApplyKeeps | v1alpha1/selfupdate/selfupdate.go:282-295 | An apply that fails leaves the link, or the single file, as it was |
| Updater.ApplyKeepsLinkGood | v1alpha1/selfupdate/selfupdate.go:238-299 | One apply, successful or not, leaves a working layout whose link resolves to a good binary, and a successful one names the new version |
| Updater.UpdatesInTurnKeepTheLink | v1alpha1/selfupdate/selfupdate.go:238-299 | Any number of applies one after another, of any versions and with any outcomes, leave a working layout whose link resolves to the first binary or a genuine one, without any condition on the versions |
| Updater.EpochsKeepTheLink | v1alpha1/selfupdate/selfupdate.go:238-299 | The same for any number of epochs of interleaved updaters, crashes included, each epoch protected only among its own targets and what it finds installed |
| SemVer.PrecedenceIsComparison | v1alpha1/selfupdate/selfupdate.go:376-383 | Version precedence is antisymmetric and transitive, through pre-release identifier lists of any length |
| SemVer.EqualPrecedenceIffEqualButBuild | v1alpha1/selfupdate/selfupdate.go:382 | Two versions have equal precedence exactly if they differ at most in build metadata |
| SemVer.PrecedenceByField | v1alpha1/selfupdate/selfupdate.go:382 | A greater major wins, with equal major a greater minor, with both equal a greater patch |
| SemVer.PrecedenceOfPrereleases | v1alpha1/selfupdate/selfupdate.go:382 | With those three equal a release beats its pre-releases, the first differing identifier decides between two pre-releases, and a proper prefix is below |
| SemVer.IdentifiersInOrder | v1alpha1/selfupdate/selfupdate.go:382 | Numeric identifiers order by value and precede alphanumeric ones, which order by bytes |
| Ordering.StringsCompareByBytes | v1alpha1/selfupdate/selfupdate.go:362 | Names are listed in byte order: the first differing byte decides, a proper prefix comes first |
| Retention.NewerFirstIsStrictWeakOrder | v1alpha1/selfupdate/selfupdate.go:376-383 | The prune comparator is a strict weak order on all names, parseable or not |
| Retention.OutranksIsTotal | v1alpha1/selfupdate/selfupdate.go:376-383 | With ties broken by listing order, ranking is a strict total order on names |
| StableSort.SortIsStable | v1alpha1/selfupdate/selfupdate.go:376 | The sort orders by the comparator and keeps the incoming order among equals |
| Retention.TailIsOutranked | v1alpha1/selfupdate/selfupdate.go:384 | The sorted listing past the first `keep` holds exactly the names with at least `keep` names ranked above them |
| Retention.SurvivorsAreNewest | v1alpha1/selfupdate/selfupdate.go:359-390 | What survives is exactly the newest `keep` names plus `current`, so at most keep + 1; nothing removed is newer than anything kept other than `current` |
| Retention.SurvivorsByVersion | v1alpha1/selfupdate/selfupdate.go:375-383 | By versions after the prefix: nothing that parses is removed while something unparseable or older is kept, and of two that versions do not tell apart the one listed first is kept |
| Retention.NewestCount | v1alpha1/selfupdate/selfupdate.go:372-374 | There are exactly `keep` newest names, or all of them if fewer |
| Retention.Prune | v1alpha1/selfupdate/selfupdate.go:361-390 | Exactly the outranked versioned names other than `current` go, less those whose removal fails; every other entry is untouched; an unreadable directory is left alone |
| HighestTag.HighestSemver | v1alpha1/helm/oci.go:71-87 | The one-pass scan returns the head of the stable newest-first sort, and that is a tag whose version no tag exceeds and every earlier tag falls short of, or the first tag if none parses |
| HighestTag.SortedHeadIsFirstGreatest | v1alpha1/helm/oci.go:69-70 | That head is the first of the greatest tags: none is newer, and it is newer than all before it |
| UpdatePolicy.Installation.Update | v1alpha1/selfupdate/selfupdate.go:66-147 | Version, stamp and whether the release endpoint was asked, for every combination of guards and outcomes, as the rows below say of one run |
| UpdatePolicy.ChecksIff | v1alpha1/selfupdate/selfupdate.go:67-114 | The endpoint is asked if and only if the build is a release, its path resolves, it is managed or can be swapped, and the run is forced or neither opted out nor within 24 hours of the stamp |
| UpdatePolicy.InstallsIff | v1alpha1/selfupdate/selfupdate.go:112-145 | A run that asks, forced or not, installs what the tag names after one leading v if and only if the install is not managed, that version is newer and applying it succeeds; otherwise the version stays |
| UpdatePolicy.UnforcedRunUpdates | v1alpha1/selfupdate/selfupdate.go:48-56 | An automatic run that is due installs a newer release |
| UpdatePolicy.OptedOutChangesNothing | v1alpha1/selfupdate/selfupdate.go:49-52 | An opted-out automatic run changes neither version nor stamp |
| UpdatePolicy.NoTagNoUpdate | v1alpha1/selfupdate/selfupdate.go:112-115 | Without an answer from the endpoint the version stays |
| UpdatePolicy.StampedIff | v1alpha1/selfupdate/selfupdate.go:103-110 | The stamp becomes the time of an unforced check that can write it and changes in no other way |
| UpdatePolicy.VersionNeverDecreases | v1alpha1/selfupdate/selfupdate.go:71-82 | Over any runs and tags the installed version never decreases, and nothing ever changes for a pre-release or unparseable one |
| UpdatePolicy.ManagedNeverChanges | v1alpha1/selfupdate/selfupdate.go:89-92 | An install owned by a package manager keeps its version over any runs |
| UpdatePolicy.ForcedRunsReachTheNewest | v1alpha1/selfupdate/selfupdate.go:58-64 | Successful forced runs leave a version at least as new as every release offered in any of them |
| UpdatePolicy.ChecksAreThrottled | v1alpha1/selfupdate/selfupdate.go:457-480 | With a working stamp, k unforced checks span at least (k - 1) * 24h, with forced runs in between and whatever the clock does |
| UpdatePolicy.ForcedRunsIgnoreStamp | v1alpha1/selfupdate/selfupdate.go:103-110 | Forced runs neither read nor write the stamp |
| Paths.ResolvedHasNoDots | v1alpha1/kustomize/kustomize.go:75 | Resolution of any reference against any base leaves no dot segment and a rooted path |
| Paths.ResolveIsIdempotent | v1alpha1/kustomize/kustomize.go:75 | A resolved path resolves to itself, against any base |
| Paths.ResolveClimbs | v1alpha1/kustomize/kustomize.go:75 | For any reference and any rooted base the string algorithm is following the steps one by one from the root, which is its own parent; one empty first element is lost exactly where a clamp took the leading slash's |
| Paths.UpsTakeBack | v1alpha1/kustomize/kustomize.go:75 | k times `..` takes back the last k names, or all there are |
| Paths.UpAndDown | v1alpha1/kustomize/kustomize.go:75 | From a file in a plain directory, k times `..` followed by plain names resolves to those names below the directory k levels up, or below the root |
| Paths.PathsAgreeIff | v1alpha1/kustomize/kustomize.go:75-83 | For steps alone: keeping the directory one part leads to and then following the rest is following both, if and only if they do not skid apart |
| Paths.ResolveComposesIff | v1alpha1/kustomize/kustomize.go:75-83 | On all strings, resolving a relative b from inside the directory a resolves to is resolving a/b if and only if the two do not skid apart: a clamped, b not, and an empty element put first |
| Paths.ResolveComposes | v1alpha1/kustomize/kustomize.go:75-83 | So it composes, clamped or not, whenever b has no empty element but a final one, and for any b when a is not clamped |
| Paths.CompositionCanFail | v1alpha1/kustomize/kustomize.go:75-83 | From /k, `..` and then `x/..//c` lead elsewhere than `../x/..//c` |
| CleanPath.CleanRooted | v1alpha1/kustomize/kustomize.go:83 | Joining and cleaning a rooted path gives the names it leads through from the root, clamped there |
| CleanPath.CleanRelative | v1alpha1/kustomize/kustomize.go:43 | Cleaning a relative path does not change where it leads, from any directory |
| CleanPath.CleanIsTidy | v1alpha1/kustomize/kustomize.go:43 | A cleaned path has no empty element, no dot but alone, and `..` only at its front |
| Kustomize.Walk | v1alpha1/kustomize/kustomize.go:49-105 | The walk ends on every finite site (the kustomizations not yet seen decrease), never forgets an expanded one, and never reports a reference that escapes the site; a member that cannot be written ends it |
| Kustomize.Materializer.Materialize | v1alpha1/kustomize/kustomize.go:49-105 | The recursive method over the shared seen set and archive computes the walk, error for error |
| Kustomize.Materializer.VisitAll | v1alpha1/kustomize/kustomize.go:69-103 | The loop visits the relative references of resources, then bases, in order, and stops at the first error |
| Kustomize.Materializer.Visit | v1alpha1/kustomize/kustomize.go:75-102 | One reference: a nested kustomization is fetched and walked, a file is fetched and packed, a missing one fails |
| Kustomize.Materializer.WriteFile | v1alpha1/kustomize/kustomize.go:107-120 | Packs a member, except that a name ending in a slash takes no content |
| Kustomize.Materialize | v1alpha1/kustomize/kustomize.go:32-44 | The archive of a fresh walk and the root's directory, or the walk's error |
| Kustomize.WalkIsClosure | v1alpha1/kustomize/kustomize.go:49-105 | Succeeds if and only if every reachable kustomization can be packed and parses and every relative reference of one can be fetched and packed; then exactly the reachable ones are expanded, each once, and the archive as a multiset is each of them once and every file once per reference |
| Kustomize.ErrorsAreTrue | v1alpha1/kustomize/kustomize.go:55-102 | The error of a failed walk names a reachable kustomization that does not parse, a reference of one that is not served, or a name that takes no content, and that is the case |
| Kustomize.RefsOfDocument | v1alpha1/kustomize/kustomize.go:59-75 | The references of a kustomization are exactly its resources and bases that are not absolute URLs, resolved against its own path |
| Kustomize.ResourcesBeforeBases | v1alpha1/kustomize/kustomize.go:69 | Those of the resources come first, each list in its order |
| Kustomize.FilesOncePerReference | v1alpha1/kustomize/kustomize.go:95-102 | A file is packed as often as it is referred to |
| Kustomize.SlashedRootFails | v1alpha1/kustomize/kustomize.go:55-57 | A root with content whose name ends in a slash is never packed |
| Kustomize.ArchiveMembers | v1alpha1/kustomize/kustomize.go:49-105 | A member is in the archive exactly if it is a reachable kustomization with its content or a file one of them refers to |
| Unpack.ClassifyClimbs | v1alpha1/kustomize/kustomize.go:75-102 | What any reference is fetched and packed under, from its steps alone: as the kustomization in the directory it leads to if the last step is a dot segment or has no extension, else as the file it leads to |
| Unpack.ReferenceByName | v1alpha1/kustomize/kustomize.go:75-102 | A reference by plain names is the kustomization.yaml in the directory it names if it ends in a slash or its last name has no dot, else the file it names |
| Unpack.ReferencesAreWritable | v1alpha1/kustomize/kustomize.go:81-100 | No reference is packed under a name that ends in a slash, so only the root can fail to be packed |
| Unpack.ExtractsIff | v1alpha1/remote/remote.go:224 | Unpacking goes through if and only if every name has a place below the mount, none has a `..`, and no member lies below another |
| Unpack.UnpackedFaithfulIff | v1alpha1/remote/remote.go:224-225 | Every member is found unpacked with its own content if and only if unpacking goes through and no two members of different content lie in one place |
| Unpack.FileBelowFileStops | v1alpha1/kustomize/kustomize.go:81-100 | A root that lists f and f/x, both with a dot, is walked and packed with no two members in one place and both references landing locally, and its archive cannot be unpacked |
| Unpack.LandsIff | v1alpha1/remote/remote.go:224-225 | Below any mount, file-system resolution of any reference lands where URL resolution did if and only if it is neither empty nor rooted and no `..` takes back the site root or an empty element |
| Unpack.DepartingReferencesMiss | v1alpha1/kustomize/kustomize.go:75 | From the site root `../x.yaml` and `a//../x.yaml` land elsewhere locally than on the site |
| Unpack.ArchiveIsClosedLocally | v1alpha1/kustomize/kustomize.go:75-100 | Every relative reference of an expanded kustomization, written in any way, has its entry among the members; where no member replaces another of different content, the builder finds there what the site serves if and only if the archive can be unpacked and the reference lands locally |
| Unpack.BuildDirHoldsRoot | v1alpha1/kustomize/kustomize.go:43 | The build directory followed from the mount is the directory part of the root's name if and only if that name is relative or does not climb above its root; in an archive that can be unpacked it always is, and the root kustomization lies in it |
| Unpack.RootedClimberMisses | v1alpha1/kustomize/kustomize.go:43 | For a root called /../x.yaml it is not |
| BitbucketTree.Tree | v1alpha1/resolve/git/bitbucket.go:88-120 | On any finite tree the queue walk ends, succeeds if and only if every page is served, and returns the files breadth first, a permutation of the recursive listing |
| BitbucketTree.BreadthFirstPermutes | v1alpha1/resolve/git/bitbucket.go:90-118 | The breadth-first order over queued pages holds every file below them as often as the depth-first listing does |
| BitbucketTree.ListedIff | v1alpha1/resolve/git/bitbucket.go:88-120 | A path is in the recursive listing exactly if a file of it is in the directory or in one somewhere below |
| BitbucketTree.PagesMakeNoDifference | v1alpha1/resolve/git/bitbucket.go:114-116 | How a directory is split into pages makes no difference to the listing |
| BitbucketTree.DirectoryUrlsDiffer | v1alpha1/resolve/git/bitbucket.go:111 | Different directories are asked for at different URLs |
| BitbucketTree.RestPagesShrink | v1alpha1/resolve/git/bitbucket.go:92-117 | A page's files plus the files under what it queues are the files under the queue, and one page fewer is left |
| BitbucketTree.Step | v1alpha1/resolve/git/bitbucket.go:92-117 | One iteration takes exactly the head page's files and queues exactly its directories and next page; files found plus files to come stay the same, and a page is used up |
| BitbucketTree.Enlist | v1alpha1/resolve/git/bitbucket.go:106-116 | A page's files go to the result in order, its directories and then its next page to the queue; other entries are skipped |
| BitbucketTree.QueueStep | v1alpha1/resolve/git/bitbucket.go:92-117 | Replacing the head of the queue by what its page queues keeps every queued URL standing for a listing, and every page of it asked for |
| ChartFiles.ChartMembers | v1alpha1/resolve/git/git.go:169-181 | The member list is the accepted paths below the chart directory, stripped of it, in tree order |
| ChartFiles.MembersIff | v1alpha1/resolve/git/git.go:173-179 | A path is a member exactly if it is listed, lies below the chart directory, is not its Chart.yaml and is needed |
| ChartFiles.IsChartFileIff | v1alpha1/resolve/git/git.go:185-196 | Needed are four files by name, whatever ends in .tpl, and whatever lies in three directories |
| ChartFiles.MembersOfSum | v1alpha1/resolve/git/git.go:173-179 | Members keep the order and number in which they are listed |
| ChartFiles.Discover | v1alpha1/helm/helm.go:63-94 | Which URLs are fetched and which files result, in order; fails exactly if Chart.yaml is missing or a fetch fails; an empty member list probes the conventional paths |
| ChartFiles.LoadedIff | v1alpha1/helm/helm.go:72-91 | A file is loaded exactly if its name is listed and its own URL serves its content |
| ChartFiles.FilesGoByTheirNames | v1alpha1/helm/helm.go:72-91 | The loaded files go by the listed names, those that are found and in list order |
| ChartFiles.RawPathsWrittenOut | v1alpha1/resolve/git/github.go:97-99 | Each host's raw path, written out |
| ChartFiles.MemberResolves | v1alpha1/helm/helm.go:75 | A member's relative name resolved against the chart's raw URL is the member's own raw URL |
| ChartFiles.DiscoveryFetchesMembers | v1alpha1/helm/helm.go:72-94 | The requests for the stripped members are the raw URL of Chart.yaml and then the raw URLs of exactly the chart's member paths, in tree order, on every host |
| ChartFiles.DiscoverInTree | v1alpha1/cmd/add/add.go:650-653 | From listing the members to loading them: a successful discovery in a plain tree with members has made exactly those requests, without members it has probed the conventional paths; what it loads, by name and content; and exactly when it fails |
| Markers.IndexIsFirst | v1alpha1/resolve/git/gitlab.go:47-57 | Searching the text of a path for a marker is searching its segments |
| HostUrls.ParseRefRoundTripsIff | v1alpha1/resolve/git/github.go:48-58 | Parsing a canonical tree, blob or src URL gives back ref, subpath and kind if and only if the repository does not contain the URL's own marker and, in a tree URL, nothing before the last segment looks like a blob marker |
| HostUrls.UrlsWrittenOut | v1alpha1/resolve/git/gitlab.go:47-57 | The host and marker names of each kind of URL |
| HostUrls.BlobDirectoryIsMisread | v1alpha1/resolve/git/github.go:48-58 | A tree URL of a directory called blob does not give back its ref, subpath and kind |
| HostUrls.SrcRepositoryIsMisread | v1alpha1/resolve/git/bitbucket.go:37-45 | A URL of a Bitbucket repository called src does not give back the repository |
| HostUrls.ParsedRefHasNoSlash | v1alpha1/resolve/git/git.go:139-149 | The ref read off any URL has no slash, so a ref that has one is never given back |
| HostUrls.RepoRoundTripsIff | v1alpha1/resolve/git/gitlab.go:27-45 | It gives back the repository if and only if no later segment of it is the host's tail marker |
| RepoSpellings.BareNameRoundTripsIff | v1alpha1/resolve/git/gitlab.go:27-45 | A bare repository over SSH, HTTPS or HTTP, with .git or without, gives back the repository if and only if its last name does not end in .git unwritten and, on GitLab, no middle name is a dash |
| RepoSpellings.BareUrlHasNoRefIff | v1alpha1/resolve/git/github.go:48-58 | A bare URL gives neither ref nor subpath if and only if nothing before its last name looks like a marker |
| HostUrls.SplitRefOfTail | v1alpha1/resolve/git/git.go:139-149 | The tail after the marker splits into its first segment and the rest |
| Runner.Applier.Run | v1alpha1/remote/remote.go:145-211 | For every combination of outcomes the creations that succeed are as given, and the deletions attempted are exactly those, once each, after all of them and in reverse order, so the Secret goes last; returns nil exactly if everything went well |
| Runner.CreatesIff | v1alpha1/remote/remote.go:173-202 | The Secret, the applier and the builder are each created if and only if all before them succeed, the builder for a kustomization only |
| Runner.AllWellIff | v1alpha1/remote/remote.go:145-211 | A run succeeds if and only if what its format needs is created, gets ready and is applied |
| Runner.Applier.Body | v1alpha1/remote/remote.go:175-210 | At every return what was created is what is deferred for deletion |
| Runner.Applier.RunDefers | v1alpha1/remote/remote.go:178-203 | Runs the deferred deletions last first and creates nothing |
| Runner.OnlyApplierReadsTheSecret | v1alpha1/remote/remote.go:258-332 | The pods have different names, the builder refers to no Secret, and the applier needs exactly the keys the created Secret holds: the CA with a token, or with a client certificate and key |
| Runner.AllReady | v1alpha1/remote/remote.go:364-371 | Ready exactly if there is at least one container and all are ready |
| Runner.WaitReady | v1alpha1/remote/remote.go:342-362 | The verdict is that of the first poll that decides, or a timeout at the first poll past the deadline; at one second a poll, within 122 polls |
| KustomizePipe.PipeIsSafe | v1alpha1/remote/remote.go:215-236 | In every interleaving the bytes read are a prefix of those written, a clean end is seen only after a successful build and its whole output, the call returns nil exactly if both sides succeeded, and a build error has precedence |
| KustomizePipe.RunKeepsInv | v1alpha1/remote/remote.go:218-231 | Until the pipe closes, what was written is what was read plus the one pending chunk |
| KustomizePipe.CanReturnIff | v1alpha1/remote/remote.go:231-235 | The call can return without the build failing if and only if it is not blocked; from a blocked state every continuation has returned nothing yet or the build error |
| KustomizePipe.MovesIff | v1alpha1/remote/remote.go:218-231 | Before the call returns, something other than a failing build can happen next if and only if it is not blocked |
| KustomizePipe.BlockedRuns | v1alpha1/remote/remote.go:225-234 | Whatever follows a blocked state, nothing more is read or written and the first thing to happen is that the build fails |
| KustomizePipe.BlockedIsReachable | v1alpha1/remote/remote.go:231-234 | An applier that returns early can leave the builder in the middle of its write |
| WatchPadding.EndsAtJSONBoundary | v1alpha1/tunnel/apiserver/watch.go:77-89 | The backward scan is true exactly if the last byte that is not whitespace is a closing brace |
| WatchPadding.PadFlushWriter.Write | v1alpha1/tunnel/apiserver/watch.go:55-64 | What is emitted for every outcome of the underlying writes, one flush each time, and a count that is the chunk's alone |
| WatchPadding.EmittedLength | v1alpha1/tunnel/apiserver/watch.go:20-22 | A boundary write of n bytes emits max(n, 128 KiB) bytes, any other exactly itself |
| WatchPadding.SameTokensIff | v1alpha1/tunnel/apiserver/watch.go:55-64 | Over any sequence of writes the output drives the lexer to the input's state, tokens and all, if and only if every padded write leaves the lexer outside a string |
| WatchPadding.FinishedTokensIff | v1alpha1/tunnel/apiserver/watch.go:55-64 | Where the input ends between tokens, its tokens and no others come out if and only if every padded write leaves the lexer outside a string |
| WatchPadding.PaddingWeighs | v1alpha1/tunnel/apiserver/watch.go:55-64 | Output and input drive the lexer alike, and the output's tokens are longer exactly when a pad fell into a string |
| WatchPadding.BoundaryModes | v1alpha1/tunnel/apiserver/watch.go:74-76 | After a chunk that ends at a boundary the lexer is between tokens or inside a string, never inside an escape or a word |
| WatchPadding.PadFallsIntoString | v1alpha1/tunnel/apiserver/watch.go:74-76 | One object, {"a}":1}, written in two parts of which the first ends after the brace in its key, comes out with other tokens |
| JsonLexer.LexSpaces | v1alpha1/tunnel/apiserver/watch.go:45-49 | Whitespace is inert between tokens and is content inside a string |
| JsonLexer.TokensRoundTrip | v1alpha1/tunnel/apiserver/watch.go:45-49 | Any JSON tokens, escaped quotes in strings included, written with a space after each are read back as those tokens |
| Kubeconfig.KubeconfigFile.WriteTunnelContext | v1alpha1/cmd/add/add.go:264-320 | The file afterwards and the cleanup, with and without a minted user; a refused tunnel leaves the file alone |
| Kubeconfig.OpensIff | v1alpha1/cmd/add/add.go:264-317 | A tunnel context is written if and only if the base context exists, a token is minted where the user has only a client certificate, and the file can be written |
| Kubeconfig.OpenTunnelWorks | v1alpha1/cmd/add/add.go:276-312 | The selected context leads to the public URL under the tunnel's name, in the base context's namespace, as the minted user or else the base's own; everything else is as before |
| Kubeconfig.KubeconfigFile.RunCleanup | v1alpha1/cmd/add/add.go:323-345 | The undo on a fresh read, nothing if the file cannot be read or written |
| Kubeconfig.OpenCloseRestoresIff | v1alpha1/cmd/add/add.go:299-345 | Opening and closing restores the config exactly if and only if the base context's name with -tunnel was free: no cluster, no context, and no user either if one is minted or the context's user is called that |
| Kubeconfig.TunnelsLeaveNoTrace | v1alpha1/cmd/add/add.go:264-347 | After any well-nested session of tunnels and unrelated edits, refused tunnels and context switches included, the config is what the edits alone would have made it |
| Kubeconfig.EditKeepsOverlay | v1alpha1/cmd/add/add.go:322-337 | An edit of other keys, or a switch of context, made while a tunnel is open survives its close |
| Kubeconfig.LikeNamedUserIsLost | v1alpha1/cmd/add/add.go:331-333 | A user named like the tunnel is deleted by the close though nothing was minted |
| Kubeconfig.CrossedClosesDangleIff | v1alpha1/cmd/add/add.go:327-337 | Closing two nested tunnels in opening order leaves an existing context selected if and only if both had one name and the user had selected another context that exists |

## Left out

- HTTP, the Kubernetes API, SPDY streaming, OCI pulls and the tunnel library are foreign; their calls are parameters that give an outcome.
- Signatures, hashes, zip and tar bytes: `Trust` holds them as functions, and an archive is a sequence of members.
- YAML and JSON parsing, chart loading and rendering: a parser is a parameter of the site; `Discover`'s default values and loaded chart are not modelled.
- Version strings: parsing is a parameter, and numeric identifiers are unbounded where the library uses 64 bits; the library's own files are not part of this model.
- Percent-encoding, raw paths and queries of URLs.
- Materialize: takes a base URL with a path; every URL that reaches it names a kustomization file on a host (v1alpha1/resolve/http/http.go:53-56).
- A root kustomization that is empty and whose name ends in a slash, which is packed as a directory entry; member names with a NUL, which package tar rejects; a temp directory reached through a symlink.
- An infinite site, on which the walk would not end.
- ReadDir: lists names only, in byte order; the entry kinds are not looked at by `prune`.
- Directory permission probes of `writable`, and Windows.
- A creation that fails for the caller but took effect on the server, and what a deletion achieves: the runner only attempts it.
- Liveness of the pipe beyond when the call can return: a scheduler that never runs a side, and a remote command that never ends.
- WaitReady: assumes each poll takes at least the second slept; a cancelled context shows as a failed get.
- Credential selection, impersonation rules and their revocation on close: short branch tables.
- The recursive listings of GitHub and GitLab, `findChart`, `kustomizationIn` and the routing of `Resolve`: single filters and branches that would add easy members.
- The bare `org/repo` shorthand, and names with slashes around them.
- Command line, logging, editor, upgrade hints.
