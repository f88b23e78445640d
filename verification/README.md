# zed-cli in Dafny

This project models the parts of zed-cli, a package manager, where a mistake would cost users their
files or their packages, and proves what those parts promise.

- **Global executables** (`GlobalFiles`, `GlobalBins`, `GlobalProfiles`, `GlobalRuns`, `GlobalMeaning`). `zed global
  install` and `zed global uninstall` stage profile trees, copy executables into a shared bin directory,
  keep an ownership index, and undo everything by hand when a step fails. The file system is a map from
  names to files and trees; any operation may fail, and `Machine.failures` counts the ones that did. Proved:
  both commands are all or nothing up to a set of lost paths, each of which costs one more failed operation
  beside the cause of the error; they succeed exactly when the state, the requests and the installers'
  outcomes fit together and nothing fails; the index always agrees with the installed profiles; and over any
  history of commands and user edits only bytes that Zed itself wrote are ever overwritten or deleted.
- **Install resolution** (`InstallSolver`, `InstallMeaning`). The backtracking search for one version of every package that is
  needed: constraints with provenance paths, propagation over cycles, prefetching, yanked versions. Proved: it
  ends on every dependency graph, a selection meets every requirement and holds only what is needed, "no
  version satisfies" means that there is no selection at all, and no other selection has a higher version at
  the first decision where the two differ.
- **Download pool** (`InstallGraph`). A mutex and condition variable queue with its workers, as a state
  machine over lock holds, with spurious wake-ups, task stealing, panics and failed spawns. Proved: no lost
  wake-up, first in first out, conservation of tasks, and termination of a shutdown by a decreasing measure.
- **Host download views** (`HostNames`, `HostViews`, `HostRuns`, `HostMeaning`). Verified archives become immutable
  directories under canonical and index paths. Proved: paths and addresses identify downloads and never
  nest, a published view never changes over any run, an interrupted call can be repeated to completion, and
  the lock of the canonical path is enough for any interleaving of processes.
- **Dart wiring** (`DartWiring`, `DartIdempotence`, `DartOrder`, `DartFragments`). A line-based parser and a printer for
  dependency overrides. Proved: the printed document parses back to the same paths, the output is canonical,
  rewriting is idempotent exactly when no package is named `path` or `dependencies`, and the order of the
  entries does not show exactly when every path has one spelling.
- **Codecs** (`Base64`, `PercentEncoding` in `ForgeCodecs.dfy`). The hand-written base64 loop is proved
  against section 4 of RFC 4648 stated bit by bit, percent-encoding against sections 2.1 and 2.3 of RFC 3986.
- **Smaller protocols**: resumable uploads (`Publication`), extension command lines (`ExternalRoutes`),
  session renewal over two authorities (`Auth`), frozen bundle export (`Fetch`) and recursive lifecycle
  hooks (`Lifecycle`).

Each component also says what its results come to in plain terms: in files and stored bytes, registry records,
path segments, lines of text, objects of a bucket or arguments of a call, without the definitions that the proofs
go through. `GlobalMeaning`, `InstallMeaning`, `HostMeaning` and `DartFragments` hold nothing else.

`Wrappers.dfy` holds the shared `Option`, `Result`, the enumeration of map keys and the `Machine` whose
operations may fail; `Strings.dfy` holds the string operations several components use. Run `dafny verify dfyconfig.toml`.

Outcomes of code outside the model (hashing, JSON, ZIP inspection, slug rules, version matching, servers, the
package installer) are parameters: function fields of `Env`, `Library`, `Plan`, `Client`, `Problem` and
`Services`, whose `Valid` predicates state the few facts used, such as that decoding inverts encoding, how long
an encoded record can be, and that a slug contains no slash and does not start with a dot. `HostLibrary` builds a
`Library` that meets them.

Some statements came out differently from what a reader of the code might expect:

- The comment in `src/dart_wiring.rs` calls the rewriting idempotent. It is not for packages named `path`
  or `dependencies`: the second rewriting fails. `DartIdempotence.IdempotentExactly` is the exact condition and
  `IdempotenceFails` a witness for each such name. Two spellings of one path are not
  interchangeable either, because the first one wins: `DartOrder.OrderShowsExactly` is the exact condition and
  `SpellingOrderShows` gives two documents that differ only in their order and have different outputs.
- A usable session can be lost: an answer that is already expired replaces a pair that still works
  (`ExpiredAnswerEndsSession`). `Auth.AuthSession.RefreshSession` states exactly when a session survives.
- A dependency cycle that leads back to the project itself ends there, so that a published version of the
  project can be selected without its own dependencies: `InstallSolver.BackEdgeStaysOpen` is an input on which the
  resolver always answers so. For a project and a version of it this cannot happen, whatever the registry holds,
  exactly if every requirement of the version follows from one of the project's, or no cycle can lead to that
  version (`OwnCycleIsClosedExactly`). What a resolution is says so (`Resolution`, `Brings`), and within its limits
  the resolver decides whether there is one.

## Model

| member | source | states |
|---|---|---|
| GlobalBins.SyncBins | src/global.rs:889-1015 | Whatever fails, entries of the bin directory change only where Zed's record matches their hash; an error leaves everything but fresh names and the lost paths as it was, and each lost path is one more failed operation beside the cause; success leaves exactly the wanted executables and records and removes the stale owned ones; it succeeds exactly when nothing is refused and no operation fails |
| GlobalBins.CollectDesiredBins | src/global.rs:841-865 | The union of the profiles' executables, refused exactly when a name is unsafe or two collide |
| GlobalBins.Preflight | src/global.rs:893-972 | Accepts exactly when every wanted name is free or still as recorded; the stale list is exactly the recorded, unwanted and unchanged names |
| GlobalBins.StageExecutable | src/global.rs:1017-1042 | Only fresh names change, and a success is a full copy under a fresh name |
| GlobalBins.Transact | src/global.rs:982-1000 | Wherever it stops, the state is the start with a known set promoted and a known set moved aside under kept backups |
| GlobalBins.Rollback | src/global.rs:1044-1079 | Nothing stays promoted and nothing moved aside but a known remainder, no larger than the number of undo operations that failed |
| GlobalBins.CommitReached | src/global.rs:949-1000 | A completed plan leaves the wanted executables, no stale ones, and exactly the wanted records |
| GlobalBins.StandsSafely | src/global.rs:949-1015 | In every intermediate state only owned entries differ from the start |
| GlobalFiles.World.AtomicWrite | src/global.rs:1081-1118 | On an error that could be undone the file is as before; otherwise it is gone, never half written |
| GlobalFiles.World.UniqueSibling | src/global.rs:1120-1127 | A name that no file has |
| GlobalProfiles.BackupsAreInvisible | src/global.rs:657-703 | A directory scan sees exactly the installed profiles, never a staged backup |
| GlobalProfiles.DiscoverProfiles | src/global.rs:657-703 | Lists each installed profile once, sorted by package, or refuses because some metadata names another package |
| GlobalProfiles.StageProfileReplacement | src/global.rs:705-729 | The old profile is kept under a fresh name and an empty one stands in its place; an error changes nothing unless its undo failed as well, and then at most this profile is lost |
| GlobalProfiles.StageProfileRemoval | src/global.rs:731-750 | The profile is kept under a fresh name and gone from its place; an error changes nothing |
| GlobalProfiles.RollbackStagedProfiles | src/global.rs:752-775 | Every staged profile is as before, except for a set no larger than the number of operations that failed; a failure does not stop the others |
| GlobalProfiles.CommitIsConsistent | src/global.rs:530-533 | After a commit the index records exactly the executables of the installed profiles, and each is in place |
| GlobalProfiles.CollectableExactly | src/global.rs:841-865 | The profiles fit together exactly when all executables have safe, different names |
| GlobalProfiles.AdoptableExactly | src/global.rs:893-947 | Nothing is in the way exactly when every exposed name is free or owned, and no record names a directory |
| GlobalProfiles.Install | src/global.rs:454-554 | All or nothing over profiles, executables and index. Success: the profiles are exactly the start with the installers' outcomes filled in, and the index and executables agree with all of them. Error: only the lost paths and fresh names differ, each lost path being one more failed operation beside the cause. It succeeds exactly when the requests are valid, every installer succeeded, the profiles with their outcomes fit together, and nothing fails |
| GlobalProfiles.Uninstall | src/global.rs:556-601 | The same for removals: success leaves the start without exactly the chosen profiles, and it succeeds exactly when the selection is valid, confirmed or empty, what remains fits together, and nothing fails |
| GlobalProfiles.ParseInstallSpecs | src/global.rs:431-442 | Accepts exactly valid identities without repetition |
| GlobalProfiles.SelectedProfiles | src/global.rs:628-655 | Accepts exactly installed profiles named once, and selects all when none is named |
| GlobalRuns.RecordsHaveProvenance | src/global.rs:889-1015 | Over any history every record goes back to a successful command that found the name free or its own and put an installed profile's executable there under a record with this hash |
| GlobalRuns.OnlyOwnBytesAreDestroyed | src/global.rs:893-972 | Over any history, an overwritten or deleted executable has the hash of one that such a command had put under that name |
| GlobalRuns.ForeignFilesSurvive | src/global.rs:924-932 | A file without a record is never touched nor taken over |
| GlobalRuns.FailuresLeaveNoTrace | src/global.rs:1044-1079 | Any number of failed commands leaves all but fresh names and what they lost altogether unchanged |
| GlobalMeaning.SyncFirst | src/global.rs:880-1015 | Without an index file, with safe and different names and nothing standing at them, synchronizing succeeds unless an operation fails |
| GlobalMeaning.SyncGarbled | src/global.rs:880-887 | Over an index that does not decode it is refused and nothing that can be named changes |
| GlobalMeaning.InstallFirst | src/global.rs:454-554 | The same for a first install beside sane profiles; and after every successful install each executable that an installer left stands in the bin directory with its bytes and in the index with its package and hash |
| GlobalMeaning.InstallOverGarbled | src/global.rs:880-887 | Over an index that does not decode nothing is installed; without a failure nothing that can be named changes |
| GlobalMeaning.InstallableNeeds | src/global.rs:826-947 | Every successful install found valid requests, safe and different names, and at each of them nothing or a file that the index records with its hash |
| GlobalMeaning.InstallableDescribes | src/global.rs:657-703 | A profile whose metadata names another package stops every install |
| GlobalMeaning.CommitLinks | src/global.rs:949-1015 | After a successful command the executables of all profiles are stored and recorded |
| GlobalMeaning.CommitRecords | src/global.rs:949-1015 | And nothing else is recorded |
| GlobalMeaning.CommitRetires | src/global.rs:893-916 | A recorded executable that is unchanged and that no profile has any more is gone |
| GlobalMeaning.CommandsSpare | src/global.rs:893-972 | Whatever a command's outcome, an entry that the index does not record with its hash is left alone |
| GlobalMeaning.RemovingUndoesInstalling | src/global.rs:454-601 | From a home without an index through any success to one without profiles, the bin directory ends as it was |
| GlobalMeaning.ChosenExactly | src/global.rs:628-655 | An uninstall is about the profiles it names, or about every directory with metadata under valid names |
| GlobalMeaning.RemovableNeeds | src/global.rs:556-655 | Every successful uninstall found profiles that are there, each named once and all describing themselves, and a confirmation |
| GlobalMeaning.InstalledCanBeRemoved | src/global.rs:454-601 | After a successful install any part of the installed profiles can be removed |
| InstallSolver.SolveInstall | src/install_graph/solver.rs:773-862 | A selection is a resolution with only what is needed, decided shallowest first, and with no better one; `None` means there is none; it is one or the other whenever what the project can reach is known, at most as many packages as the coordinate limit, and no chain of different packages longer than the depth limit |
| InstallSolver.Solve | src/install_graph/solver.rs:537-613 | From any state of the search: ends, and either finishes with every package decided in order of depth and name, each with the highest version that works, or shows that no resolution has these picks |
| InstallSolver.Propagate | src/install_graph/solver.rs:664-746 | Ends on cycles too; passes on everything that selected packages need, or stops because no resolution has these picks |
| InstallSolver.PrefetchFrontier | src/install_graph/solver.rs:615-662 | Succeeds exactly when each shallowest undecided registry package is there with the version that would be tried first |
| InstallSolver.UnresolvedKey | src/install_graph/solver.rs:198-212 | The undecided package with the shortest provenance path, and the smallest name among those |
| InstallSolver.AddedKeepsInv | src/install_graph/solver.rs:165-186 | Adding a derived constraint keeps what every state of the search keeps: where constraints come from, and how their paths run |
| InstallSolver.PickKeepsInv | src/install_graph/solver.rs:548-591 | So does selecting a pick for an undecided package |
| InstallSolver.AdditionFits | src/install_graph/solver.rs:748-771 | What a selected package passes on is derived, and its path goes through selected packages without repetition up to a cycle |
| InstallSolver.AllIsBounded | src/install_graph/solver.rs:748-771 | While the selection stays the same only finitely many constraints can arise, cycles or not |
| InstallSolver.ConstraintHolds | src/install_graph/solver.rs:664-746 | Every constraint of a state holds in every resolution with its picks |
| InstallSolver.AnswerIsResolution | src/install_graph/solver.rs:537-546 | A finished state selects an available version of every package, meets the project's requirements and those of every selected package |
| InstallSolver.AnswerIsNeeded | src/install_graph/solver.rs:664-746 | Every selected package is reached from the project over selected dependencies |
| InstallSolver.HighestFirst | src/install_graph/solver.rs:575-602 | A resolution that does not contain the selected versions has, at the first decision where it differs, a version that comes later |
| InstallSolver.BackEdgeStaysOpen | src/install_graph/solver.rs:748-771 | An input within the limits for which every answer of the resolver selects the published project without what it needs, though that could be selected as well |
| InstallSolver.OwnCycleIsClosedExactly | src/install_graph/solver.rs:748-771 | For a project and a version of it: in every registry and workspace, whatever selects that version and only what is needed has all that the version needs, exactly if each of its requirements follows from one of the project's or no cycle can lead to it; otherwise there is a workspace with an answer and all answers lack something |
| InstallMeaning.ResolutionExactly | src/install_graph/solver.rs:537-613 | A resolution is exactly a selection of workspace versions, or else of published versions that were not yanked, in which every requirement of the project and of each selected package is answered by a selected version that matches it |
| InstallMeaning.AnswersArePublished | src/install_graph/solver.rs:578-591 | So is every answer; a project that depends on itself gets a published version of itself |
| InstallMeaning.AnyVersionCanBeSelected | src/install_graph/solver.rs:578-591 | A version that is published, released, allowed and not yanked can be selected |
| InstallMeaning.HighestIsChosen | src/install_graph/solver.rs:575-602 | Of one dependency the first listed version that is allowed and not yanked is selected |
| InstallMeaning.AllWithdrawnIsUnsatisfiable | src/install_graph/solver.rs:588-613 | If all allowed versions of a direct dependency are yanked there is no selection |
| InstallMeaning.NearestFirst | src/install_graph/solver.rs:198-212 | A shorter provenance path comes first, then the smaller name |
| InstallMeaning.FirstIsFetched | src/install_graph/solver.rs:615-662 | Fetched ahead is the first listed version that all constraints allow |
| InstallMeaning.Limits | src/install_graph/solver.rs:165-178 | A path of 257 segments is admitted and one of 258 is not; the ten thousandth package is admitted and the next is not |
| InstallGraph.TaskQueue.Push | src/install_graph.rs:83-91 | Refused exactly when closed; otherwise appends the task and wakes one waiting worker if there is one, as one step of the pool |
| InstallGraph.TaskQueue.Poll | src/install_graph.rs:93-107 | One lock hold of `pop`: the oldest task if there is one, the end if closed, otherwise waiting, as one step of the pool |
| InstallGraph.TaskQueue.Close | src/install_graph.rs:109-113 | Afterwards closed with nobody waiting and the tasks as they were, as one step of the pool |
| InstallGraph.TaskQueue.Cancel | src/install_graph.rs:115-120 | Afterwards closed with nobody waiting and no tasks, as one step of the pool |
| InstallGraph.InvStep | src/install_graph.rs:83-192 | Every step of the pool keeps the wake-up, conservation and answering invariants |
| InstallGraph.NoLostWakeUp | src/install_graph.rs:83-107 | While a worker waits the queue is open and holds at most as many tasks as workers are waking up |
| InstallGraph.FirstInFirstOut | src/install_graph.rs:83-120 | What was accepted is what was handed out, then what is queued, then what was discarded, in order, and every task is answered for |
| InstallGraph.HandedOutOnce | src/install_graph.rs:93-107 | A task goes to at most one worker |
| InstallGraph.NoneMeansDone | src/install_graph.rs:93-113 | `pop` ends a worker only when the queue is closed and, unless cancelled, every accepted task was handed out |
| InstallGraph.ClosedForGood | src/install_graph.rs:109-120 | After a `Close` or `Cancel` the pool stays closed, nobody waits, and nothing more is accepted |
| InstallGraph.AcceptedExactly | src/install_graph.rs:83-120 | Accepted are exactly the tasks pushed before the first `Close` or `Cancel`, in order, and the pool is closed exactly after one |
| InstallGraph.ResultsExactly | src/install_graph.rs:165-192 | As many tasks are answered and lost as were finished so, and a worker has panicked exactly if a task did |
| InstallGraph.ShutdownIsBounded | src/install_graph.rs:130-192 | After a `Close` or `Cancel` the workers take at most twice as many steps as there were tasks and workers then, also after a failed spawn |
| InstallGraph.ClosedPoolAdvances | src/install_graph.rs:178-192 | After a `Close` or `Cancel` every worker that has not ended can take a step |
| InstallGraph.ShutdownAccountsForAll | src/install_graph.rs:165-192 | Once all workers ended, the accepted tasks are exactly those answered, lost with a worker that panicked or found nobody listening, discarded by cancelling, or left in the queue; none is left if a worker ended normally, and none discarded without cancelling |
| InstallGraph.Join | src/install_graph.rs:178-192 | Fails exactly when some worker panicked |
| HostNames.DestinationsIdentify | src/host_downloads.rs:246-291 | If one destination is a prefix of another they belong to the same coordinate, source and target and are the same view |
| HostNames.TextsIdentify | src/host_downloads.rs:215-221 | The same for destinations as text, from which the lock key is taken |
| HostNames.UriIdentifies | src/host_downloads.rs:294-323 | Equal logical addresses mean equal organization, optional project, package, version, source and target |
| HostNames.UriIsText | src/host_downloads.rs:310-323 | An address is its segments joined by slashes |
| HostViews.CopyBound | src/host_downloads.rs:592-634 | Copies exactly the streams of the bound size and digest, whatever the pieces read |
| HostViews.ExtractVerifiedPackage | src/host_downloads.rs:636-691 | The package holds exactly the descriptor and its files; refused exactly when a payload differs or two files clash |
| HostViews.VerifyMaterializedPackage | src/host_downloads.rs:751-815 | True exactly when inventory, contents and executable bits match the descriptor |
| HostViews.ExistingViewMatches | src/host_downloads.rs:703-749 | Tells an absent view from one of the same origin and refuses everything else |
| HostViews.Downloads.Publish | src/host_downloads.rs:507-534 | Never replaces a view, and forgives a lost race only if the same view is there |
| HostViews.Downloads.MaterializeCanonicalView | src/host_downloads.rs:461-535 | Only the canonical path may become new; with no failure it succeeds exactly when the same view is there, or nothing is and the archive is still the verified one |
| HostViews.Downloads.ReplicateTree | src/host_downloads.rs:875-901 | A successful copy is complete |
| HostViews.Downloads.MaterializeIndexView | src/host_downloads.rs:537-590 | Only the index path may become new; with no failure it succeeds exactly when that path is free or holds the same view |
| HostViews.Downloads.MaterializeBinary | src/host_downloads.rs:173-244 | Existing views stay, new ones lie only at the targets and are whole; success leaves every enabled view with the one origin; with no failure it succeeds exactly when the request is admissible |
| HostViews.OriginIsReadable | src/host_downloads.rs:722-749 | The binding record of every request whose names fit a file system is small enough to be read back |
| HostMeaning.SuccessServesAllViews | src/host_downloads.rs:173-291 | A successful call answers with the address, the path by organization, and exactly the enabled ones by project and by package, each spelled out segment by segment; at each of them is the verified archive, its listed files with sizes, digests and modes, and the record of the download |
| HostMeaning.FirstCallSucceeds | src/host_downloads.rs:173-302 | With invalid names nothing is done; with valid ones, nothing published and no failure it succeeds exactly when the archive is the verified one and can be unpacked |
| HostMeaning.OthersStopTheCall | src/host_downloads.rs:703-749 | Anything else at one of the places stops the call and stays |
| HostMeaning.SegmentsAreSafe | src/host_downloads.rs:384-416 | No accepted segment is empty, a dot name, ends in a dot, or holds a separator, blank or control character |
| HostMeaning.DevicesAreRefused | src/host_downloads.rs:400-414 | Device names are refused in any case and with any ending |
| HostMeaning.ReadsAreJoined | src/host_downloads.rs:592-634 | An archive is what its reads deliver up to the first empty one |
| HostRuns.ViewsNeverChange | src/host_downloads.rs:172-244 | Over any run a view that is there stays there unchanged |
| HostRuns.OneOriginForever | src/host_downloads.rs:722-732 | Two successes for one coordinate, source and target have the same origin and the same answer |
| HostRuns.StaysOurs | src/host_downloads.rs:172-244 | No earlier call for another download, and no interrupted call for this one, gets in its way |
| HostRuns.RepeatingCompletes | src/host_downloads.rs:214-244 | Repeating a call after any such history succeeds if nothing fails, and every view is there |
| HostRuns.ViewsAgree | src/host_downloads.rs:751-815 | Over any run, two views of a download, from whichever successful calls and at whatever times, hold the same archive and files unless the digest collides on the very bytes that are there |
| HostRuns.NoRace | src/host_downloads.rs:214-243 | In every interleaving of processes under their locks, a target seen absent is still absent when it is published |
| HostRuns.AloneUnderLock | src/host_downloads.rs:214-243 | Between two steps of a process under its lock none of its targets appears or changes, whatever others do; this is what the single call takes for granted |
| DartWiring.DeclaredPubName | src/dart_wiring.rs:222-267 | The one valid name declared at top level |
| DartWiring.ParseWiredPaths | src/dart_wiring.rs:93-197 | The line automaton, as a function of the document |
| DartWiring.Rewrite | src/dart_wiring.rs:56-82 | Produces a rewriting of the document, and fails only if there is none |
| Strings.JsonRoundTrip | src/dart_wiring.rs:275-298 | A string escaped as in section 7 of RFC 8259 reads back as itself |
| Strings.LinesOfUnlines | src/dart_wiring.rs:75-101 | Splitting a rendered document gives its lines |
| Strings.BelowExactly | src/dart_wiring.rs:58 | The order of ordered maps: a proper prefix first, otherwise the first differing character decides |
| Strings.TrimExactly | src/dart_wiring.rs:101 | Trimming drops blanks from both ends and nothing else |
| Strings.Escapes | src/dart_wiring.rs:78 | The short and long escapes of section 7 of RFC 8259 |
| Strings.SurrogatesByExample | src/dart_wiring.rs:279-281 | Two escapes make one character beyond the basic plane; half of one and unknown escapes are refused |
| DartIdempotence.ParseRendered | src/dart_wiring.rs:56-82 | How the parser runs through a rendered document |
| DartIdempotence.RoundTrip | src/dart_wiring.rs:56-197 | Parsing the output gives back exactly the paths, or fails exactly when a name is `path` or `dependencies` |
| DartIdempotence.IdempotentExactly | src/dart_wiring.rs:84-92 | A second rewriting is the identity exactly when no declared name is `path` or `dependencies`; otherwise it fails |
| DartIdempotence.SyntaxNamesBreakIdempotence | src/dart_wiring.rs:84-92 | For each of these names and each path a project and a document whose output cannot be rewritten |
| DartIdempotence.IdempotenceFails | src/dart_wiring.rs:84-92 | So for either name some document is rewritten once, but not twice |
| DartIdempotence.OutputIsUnique | src/dart_wiring.rs:56-82 | A project and a set of paths have one output |
| DartIdempotence.CanonicalExactly | src/dart_wiring.rs:56-82 | Two documents have the same output exactly when they name the same paths |
| DartOrder.OrderAndKeysDoNotMatter | src/dart_wiring.rs:93-197 | Keys, repetition and form of the entries do not show in the paths, nor does order when each path has one spelling |
| DartOrder.FirstSpellingWins | src/dart_wiring.rs:149-151 | Of several spellings of a path the first is kept |
| DartOrder.TextOrderMattersExactly | src/dart_wiring.rs:149-151 | All orders of some path texts insert the same paths exactly when no path has two spellings |
| DartOrder.OrderMattersExactly | src/dart_wiring.rs:93-197 | All documents with the same entries in any order parse to the same paths exactly when no path has two spellings |
| DartOrder.OrderShowsExactly | src/dart_wiring.rs:56-82 | All of them have the same output exactly when no path has two spellings |
| DartOrder.SpellingOrderShows | src/dart_wiring.rs:56-82 | Two accepted documents with the same entries in another order, and their different outputs |
| DartIdempotence.SyntaxNamesStopTheParser | src/dart_wiring.rs:117-153 | A rendered entry named `path` or `dependencies` is not parsed as an entry |
| DartFragments.FragmentsParse | src/dart_wiring.rs:84-197 | A list of entries with different keys that are not syntax, at the margin or in a document, parses to exactly its paths, written bare, with a comment, or in single or double quotes |
| DartFragments.FragmentsAreRewritten | src/dart_wiring.rs:56-82 | Such a list can be rewritten exactly if its packages declare different names |
| DartFragments.OneItemRewritten | src/dart_wiring.rs:75-81 | The text that an entry about one package becomes, character by character |
| DartFragments.BackslashesBecomeSlashes | src/dart_wiring.rs:77-79 | Backslashes in a path are written as slashes |
| DartFragments.JoinedPieces | src/dart_wiring.rs:199-220 | Ordinary pieces joined by slashes are a valid path with these components; with `..`, at the root or from `.` they are not |
| DartFragments.SlashesSeparate | src/dart_wiring.rs:149-151 | Paths are compared by the pieces between slashes; empty ones and single dots do not count |
| DartFragments.OutputLines | src/dart_wiring.rs:75-81 | An output is a header and two lines for each declared name, its path in JSON |
| DartFragments.OutputsAscend | src/dart_wiring.rs:60-81 | The names of an output ascend, a prefix first |
| DartFragments.ScalarsAreRefused | src/dart_wiring.rs:275-298 | Empty scalars and quotes that do not end are refused |
| DartFragments.KeysAreRefused | src/dart_wiring.rs:154-182 | A key at another margin, a second time, or before the last one has its path is refused |
| DartFragments.CommentsAreSkipped | src/dart_wiring.rs:97-100 | Blank lines and comments at any margin say nothing |
| DartFragments.TabsAreRefused | src/dart_wiring.rs:105-110 | A line with a tab in front of anything but a comment is refused |
| DartFragments.TextsAreRefused | src/dart_wiring.rs:129-152 | A path without a key, not two spaces below it, or that leaves the project is refused |
| DartFragments.HeadersAreRefused | src/dart_wiring.rs:117-127 | So is the header anywhere but once at the top |
| DartFragments.OthersAreRefused | src/dart_wiring.rs:184-188 | And any other content |
| DartFragments.UnfinishedIsRefused | src/dart_wiring.rs:190-196 | A list without paths, or whose last key has none, is refused |
| DartFragments.PubspecNames | src/dart_wiring.rs:222-267 | The name is the one on the top-level line that says `name:`, whatever the other lines say |
| DartFragments.PubspecNamesTwice | src/dart_wiring.rs:252-258 | With two such lines there is none |
| DartFragments.PubspecWithoutName | src/dart_wiring.rs:261-266 | Nor without one |
| DartFragments.MarkIsSkipped | src/dart_wiring.rs:228 | A byte order mark in front of the line does not matter |
| DartFragments.PubNames | src/dart_wiring.rs:269-273 | What is and is not the name of a pub package |
| Base64.Base64Standard | src/forge_publish.rs:613-635 | The chunk loop with shifts and masks computes the bit-by-bit encoding of section 4 of RFC 4648 |
| Base64.RoundTrip | src/forge_publish.rs:613-635 | Decoding the encoding gives back every byte sequence |
| Base64.Shape | src/forge_publish.rs:613-635 | The length is four times the ceiling of n/3, with padding exactly in the right number of last places |
| Base64.EncodeAppend | src/forge_publish.rs:616-633 | Whole chunks can be encoded one after another |
| Base64.TableIsAlphabet | src/forge_publish.rs:614 | The 64 letters are those of table 1 |
| Base64.Vectors | src/forge_publish.rs:613-635 | The first test vectors of section 10 of RFC 4648 |
| PercentEncoding.Urlencode | src/forge_publish.rs:637-648 | The output is in normal form, with upper-case triplets exactly for octets that are not unreserved, and decodes to the input |
| PercentEncoding.NormalFormIsUnique | src/forge_publish.rs:637-648 | No other normal text decodes to the same octets, so the encoding is injective |
| PercentEncoding.SpellingsByExample | src/forge_publish.rs:637-648 | Which characters stay, and the triplets of some that do not |
| Publication.CollectFiles | scripts/publish_r2_release.py:77-91 | The regular files in order; refused exactly on links, special files or none |
| Publication.ObjectStore.PublishFile | scripts/publish_r2_release.py:285-320 | Leaves an identical object, refuses a different one unless overwriting, and otherwise uploads and verifies |
| Publication.ObjectStore.PublishDirectory | scripts/publish_r2_release.py:258-330 | From any store and any failure point, also of the bucket queries, a first part of the files is published and every object is as before or holds a regular file's bytes, digest, content type and labels under its key; success has one true row per file in order, uploaded exactly if nothing alike was there; with no failure it succeeds exactly when nothing conflicts |
| Publication.PublishableExactly | scripts/publish_r2_release.py:77-91 | What stops a publication without a failure: no regular file, links, special files, a missing bucket, or an object of another digest or size without permission to overwrite |
| Publication.AfterKeeps | scripts/publish_r2_release.py:291-300 | Without overwriting no existing object changes |
| Publication.Resumed | scripts/publish_r2_release.py:258-330 | Publishing again after a partial run reaches the store one run would have reached |
| Publication.ResumedRun | scripts/publish_r2_release.py:290-296 | The completing run reports everything already uploaded as unchanged |
| ExternalRoutes.ExtractRootOptions | src/external_subcommands.rs:232-283 | The loop computes the recursive extraction |
| ExternalRoutes.ExternalRoute | src/external_subcommands.rs:147-216 | The loop computes the recursive routing |
| ExternalRoutes.ExtractKeepsOrder | src/external_subcommands.rs:232-283 | The arguments handed on are a subsequence of the input |
| ExternalRoutes.VerbatimTail | src/external_subcommands.rs:243-246 | From the surviving `--` on they are the end of the input, unchanged |
| ExternalRoutes.OnlyForeignBefore | src/external_subcommands.rs:232-283 | Before it no root option is left in any spelling |
| ExternalRoutes.ExtractIsIdempotent | src/external_subcommands.rs:232-283 | A second extraction changes nothing and finds no settings |
| ExternalRoutes.RouteBlock | src/external_subcommands.rs:147-188 | A well-formed block of root options in front contributes exactly its settings |
| ExternalRoutes.BlockMayFollowName | src/external_subcommands.rs:147-216 | Moving such a block from before the extension's name to just after it gives the same route |
| ExternalRoutes.EnsureHelp | src/external_subcommands.rs:218-230 | Help is asked for afterwards, by at most one insertion before `--` |
| ExternalRoutes.ValueOptionsByName | src/external_subcommands.rs:24-30 | Which variable each option with a value sets |
| ExternalRoutes.CredentialsAreRefused | src/external_subcommands.rs:22 | `--token` and `--supabase-key` are refused in either form |
| ExternalRoutes.FirstSwitch | src/external_subcommands.rs:317-340 | `--interactive` sets `true`, `--no-interactive` `false`, and a value what it means; a value that means nothing is refused |
| ExternalRoutes.SecondSwitch | src/external_subcommands.rs:317-340 | The same for `--git-submodules` |
| ExternalRoutes.WordsForTrue | src/external_subcommands.rs:334-340 | The words for yes, in any case and with blanks |
| ExternalRoutes.WordsForFalse | src/external_subcommands.rs:334-340 | The words for no, and one that means nothing |
| ExternalRoutes.SettingInNext | src/external_subcommands.rs:160-173 | An option takes the next argument as its value; without one or with an empty one there is no route |
| ExternalRoutes.NothingRefusedPasses | src/external_subcommands.rs:156-158 | Nothing that is refused is handed on or routed |
| ExternalRoutes.PlainCalls | src/external_subcommands.rs:187-216 | An extension gets arguments that are no options as they are, and through `help` with `--help` appended |
| ExternalRoutes.SeparatorIsKept | src/external_subcommands.rs:243-246 | From `--` on nothing is read, the separator included |
| ExternalRoutes.HelpIsAskedOnce | src/external_subcommands.rs:218-230 | Help asked for in either spelling is not asked for again; otherwise it is inserted before `--` |
| ExternalRoutes.NoCalls | src/external_subcommands.rs:151-188 | No extension after `--`, a question for help or the version, or an unknown option |
| ExternalRoutes.NamesByExample | src/external_subcommands.rs:342-356 | What is and is not a name of an extension |
| ExternalRoutes.NamesAreShort | src/external_subcommands.rs:350-351 | A name has at most 64 characters |
| Auth.SupabasePair | src/auth.rs:739-760 | No pair exactly without a token, an error exactly on an unusable token or a missing expiry, and otherwise the answered token, refresh token and expiry, or one that makes the pair usable exactly for a positive span |
| Auth.AuthSession.Bearer | src/auth.rs:70-78 | The shared token if it is not empty and expires later than now, else the other one if it is, else none |
| Auth.AuthSession.RefreshShared | src/auth.rs:562-600 | An answer replaces the pair; without one only a due pair that is not usable goes |
| Auth.AuthSession.RefreshSupabase | src/auth.rs:602-640 | The same, except that an answer without a session leaves even an unusable pair |
| Auth.AuthSession.RefreshSession | src/auth.rs:558-676 | Succeeds exactly when an authority vouches for the session; a usable pair is lost only to an answer; forcing renews a pair that is not due; an expired pair is never kept; the read delegation is never touched; a missing shared pair means the exchange failed |
| Auth.RenewalAsks | src/auth.rs:562-640 | A pair is renewed when forced or with at most sixty seconds left, if it has a refresh token; and what the answers give |
| Auth.AvailableExactly | src/auth.rs:558-676 | The session survives exactly if an authority's answer, or what it leaves alone, has a token that expires later than now |
| Auth.StaysAvailable | src/auth.rs:558-676 | With servers that hand out usable pairs, the session survives exactly when one pair was usable or renewed |
| Auth.ExpiredAnswerEndsSession | src/auth.rs:573-579 | Without that, an expired answer can end a good session |
| Fetch.ValidateLockedPackages | src/fetch.rs:375-414 | Accepts exactly unambiguous locks and gives the same entries, strictly increasing by organization and name |
| Fetch.SamePackages | src/fetch.rs:375-414 | Whether a lock is accepted does not depend on its order |
| Fetch.OneOrder | src/fetch.rs:375-414 | There is only one strictly increasing list of the same entries |
| Fetch.SortPackages | src/fetch.rs:379-387 | Sorted by organization, name, version and digest, with the same entries |
| Fetch.FetchOne | src/fetch.rs:254-329 | One payload and one row carrying exactly the pinned record, also from mirrors |
| Fetch.Disk.Run | src/fetch.rs:207-366 | On every failure the output path is as before; on success every lock entry has one row with exactly its record and its payload, the rows are ordered by organization and name, and there is nothing else; with no failure it succeeds exactly when every entry can be exported |
| Fetch.SourceIs | src/fetch.rs:234-253 | An entry is read from the registry it is locked to, or from the configured one if it names none or names a local one that is missing |
| Fetch.ExportableExactly | src/fetch.rs:254-300 | An entry can be exported exactly if its registry opens, answers with a record that agrees in every field or leaves it to permitted mirrors, and the artifact is there |
| Fetch.UnambiguousExactly | src/fetch.rs:375-414 | A lock is accepted exactly with valid names, digests, versions and sources and no package twice |
| Fetch.TiesAreOrdered | src/fetch.rs:379-387 | Entries of one package are sorted by version and then by digest |
| Lifecycle.ExtendedItems | src/lifecycle.rs:123-157 | Splitting the joined stack text gives the old items and the new phase, and the depth counts it |
| Lifecycle.StackGrows | src/lifecycle.rs:123-157 | A phase that is not skipped extends a duplicate-free stack to a duplicate-free stack |
| Lifecycle.StackIsShort | src/lifecycle.rs:31-44 | Such a stack has at most twelve phases |
| Lifecycle.PhaseNames | src/lifecycle.rs:46-62 | The names of the twelve phases |
| Lifecycle.RunPhase | src/lifecycle.rs:118-189 | Passes exactly when idle or every hook succeeds, and runs exactly the events of the phase's trace; the recursion ends |
| Lifecycle.HooksRunInOrder | src/lifecycle.rs:118-189 | At the depth of the phase exactly its hooks start, each once and in order, up to the first failure |
| Lifecycle.NestedInBetween | src/lifecycle.rs:159-189 | What a hook causes comes between its own start and the next one |
| Lifecycle.EveryStackIsSound | src/lifecycle.rs:123-157 | Every hook that ever starts is handed a duplicate-free stack that extends the one it came from, as long as its depth and no longer than twelve |
| Lifecycle.IdleExactly | src/lifecycle.rs:119-145 | Hooks are passed over exactly when switched off or when the phase is an item of the inherited text |
| Lifecycle.IdleStartsNothing | src/lifecycle.rs:119-145 | Then no hook starts, and the operation goes on |
| Lifecycle.FirstStarts | src/lifecycle.rs:146-180 | Otherwise the first hook starts first, with the phase appended to the inherited text |
| Lifecycle.RunExactly | src/lifecycle.rs:159-182 | All hooks run, or those up to and with the first that fails, and then the phase fails |
| Lifecycle.Around | src/lifecycle.rs:191-201 | On any inherited stack the operation runs exactly if all pre hooks pass, post hooks only after it succeeded, each with its own trace |

## Left out

- `GlobalFiles`: file modes, symbolic links, fsync, crash atomicity, Windows specifics, and the directories created on the way; behaviour is that of returned errors.
- `GlobalProfiles`: `--frozen` reinstalls and a bin directory that changes between runs, for which the code has no rollback; the organization directories that staging leaves behind; the text syntax of package specifications; the process lock.
- InstallSolver.SolveInstall: without registrations of local projects. The code prefers one that meets the constraints known so far and does not try the registry instead when a later constraint refuses it, so that with them `None` does not mean that there is no resolution.
- `InstallSolver`: the texts of failures; the caches of the registry source, and a registry that changes during the search. How versions match and are sorted is a parameter, the list of versions being given highest first.
- `GlobalRuns`: user edits during a command; an edit happens between commands and leaves the ownership index alone.
- `GlobalBins`: the bin directory lies apart from the profiles and the index, and the executable bits of the copies are not modelled.
- `InstallGraph`: `worker_loop` is taken to pop, work, send one message with the same number and end on `None`; the artifact lock, the mutex itself and message delivery are not modelled. `pop` appears as the steps of one lock hold each, since its loop ends only with other threads' help.
- `HostViews`: permissions beyond the executable bit, inode checks, hard links shared between views, files beside the archive, record and package of a view, foreign files among the parent directories, and empty directories at a destination; the reading of the layout configuration. A name of more than 255 bytes is refused by the file system.
- HostNames.DestinationsIdentify: one layout, and file systems that distinguish case.
- DartIdempotence.IdempotentExactly: paths with a backslash, which the rewriting turns into slashes; the removal of the provisional file on errors and the atomic write are not modelled, and paths are those of Unix.
- Auth.AuthSession.RefreshSession: the clock stands still during a call, while the code reads it up to four times; login, signup, signout and the stored file.
- `Publication`: files that change while they are uploaded, the bucket and prefix syntax, request signing and retries, and other writers of the bucket.
- `Fetch`: the parsing of lock files and source addresses, the choice of the output path, the temporary directories and their removal, and the report of degraded sources.
- `Lifecycle`: the discovery of hooks and their environment other than the stack; a hook is the phases it enters and how it ends, and it is taken to pass the stack on and to end by itself.
- `ExternalRoutes`: finding and starting the executable, and the list of built-in commands.
- `src/cli.rs`, `src/config.rs`, `src/flags.rs`, `src/interactive.rs` and similar files: they declare the command line, look settings up and print.
- `src/binary_archive.rs`: its function bodies are not part of this model; archive inspection is a parameter.
