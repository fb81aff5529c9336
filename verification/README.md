# Connective backend: models and proofs

This project models the parts of the Connective desktop VPN client's backend whose behaviour is
hardest to see from one function, and proves what they keep. `dafny verify dfyconfig.toml` checks
all of it. One module follows one component:

| file | component |
|---|---|
| `quote.dfy` | quoting of the updater's command line for `CommandLineToArgvW` and PowerShell, and both readers |
| `delta.dfy` | packing a delta between two trees, and applying it |
| `installer.dfy` | assembling, promoting, activating and rolling back versions: every filesystem call, with a crash after any of them |
| `manager*.dfy` | the update manager as an interleaved state machine: how each section ends, provenance, cancellation, coherence, reachable races, and the manager as an object whose methods are its sections |
| `download.dfy` | the resuming downloader against any server and against an honest one |
| `version.dfy`, `backoff.dfy` | version order, print and parse, accepted chains; the wrapping 64-bit cooldown |
| `redaction.dfy` | log redaction as one sweep |
| `shadowsocks.dfy`, `base64.dfy`, `percent.dfy` | the shadowsocks link, exported and parsed back |
| `ipc.dfy` | read loops, handlers, broadcasts and teardown of the IPC server |
| `killswitch.dfy` | the crash marker of the kill switch through connects and disconnects, with crashes and torn writes |
| `routing.dfy` | longest-prefix match on 32-bit masks |
| `config.dfy` | split-tunnel rules against the policy they stand for; group outbounds and their tags |
| `watcher.dfy` | the debounced network watcher |
| `selector.dfy` | server selection with hysteresis, over the reals |
| `text.dfy` | Go's string functions on byte strings |

Three shapes recur. An algorithm that is a loop in Go is a method proved equal to a function, and
the lemmas are about that function. A protocol that may be interrupted is a function giving the
*trail* of all durable states (or events) it passes through, so that a crash is a prefix of a trail;
class methods that make the same changes in place end where the trail does. A protocol that
interleaves is a transition function on a state, with invariants over all runs; where its sections are
methods too, the object remembers its run, so the invariants hold of it in whatever order they are called.

Assumptions: SHA-256 is an injective function; verification of a manifest's signature is an
arbitrary predicate on releases (`trusted`); filesystem, network and helper calls succeed or fail
freely, with the effect the code relies on when they succeed. A byte string is a `string` whose
characters are below 256 where that matters.

## Where the code and its documentation part

Each point names the lemma with the failing input or run, and the one with the exact condition.

* `parseShadowsocks` trims the scheme once per entry. A server whose method is `shadowsocks` and whose
  password starts with `//` exports to a link that loses both on the way back (`SecondSchemeIsLost`);
  `RoundTripExactly` says which links come back. An IPv6 address is exported without brackets and its link
  refused (`ColonAddressIsRefused`).
* On an empty body the parser re-enters for ever (`EmptyBodyNeverFinishes`), and it returns on exactly
  the links that never run into one (`ParserReturnsExactly`). Exported links can: that of a server whose
  method starts with a `#` does (`HashMethodNeverFinishes`, `ExportReturnsExactly`).
* `Assemble` reuses an existing `versions/<v>` as finished work. A removal of a cancelled tree that is
  cut short by a crash leaves a partial tree there; it is reused, promoted, activated and reported as a
  success if it has the three files that are looked for (`InterruptedDiscardIsInstalled`). Both roots stay
  sound in exactly the runs without such a removal (`RunsStaySound`).
* `PromoteStaged` accepts a staged directory that is already the installed version, and the updater then
  removes it after activating it: `current` dangles behind a reported success (`InPlaceApplyDangles`).
* `Activate` anchors the running version only if it could read the link, so a rollback returns to it
  exactly then, or when the stale anchor names it anyway (`RollbackRestores`).
* The delta-to-full fallback writes the staged file and the artifact without looking at the state. A
  check that completes in between is mislabelled, and the updater can be started to install the newer
  version from the older release's bytes (`MislabelledUpdateIsReachable`). It goes well in exactly the runs
  in which each such write finds its artifact in the pending release (`RunsAreCoherentExactly`).
  Provenance is unaffected.
* A cancelled download is meant to leave nothing staged. What an earlier download staged stays
  (`EarlierStagedSurvivesCancel`): nothing is left exactly when nothing was staged while it went on
  (`CancelledDownloadIsCleanExactly`).
* `genDelta` refuses a target that only deletes files (`DeltaNeedsAChange`).
* `routeConfig` says loopback and link-local traffic never leaves the host. In "only" mode a listed
  app's does, and in global mode everyone's IPv4 link-local traffic does (`WhenHostTrafficStays`).
* `groupTagFor` names a tag that a configuration with a single target does not define
  (`PositionalTagsNeedAGroup`).
* The downloader's hash is taken for that of the whole staged file. When the file's size cannot be read
  before an attempt that is not the first, a stale tail may stay behind what was hashed
  (`FailedStatKeepsAStaleTail`); it is the hash of the whole file, whatever the server sends, exactly when
  this cannot happen, the source is not a web server, or the cap is no larger than the expected size
  (`FetchIsSoundExactly`).
* The kill-switch marker is written in place. A write torn by a crash while the firewall rule is in
  force, as every reconnect can tear it, makes the next boot drop the marker while the rule stays
  (`TornMarkerForgetsTheRule`, `ForgottenRuleIsReachable`). In exactly the runs without such a write a rule
  in force is always marked (`RuleIsMarkedExactly`).
* A failed teardown is said to be retried by the next disconnect. But a disconnect ends disconnected even
  when its helper failed, as a boot does, and the next one is then refused before any helper is run
  (`FailedTeardownIsNotRetried`). It is retried by a disconnect exactly when a connection has begun in between
  (`DisconnectCleansUpExactly`, `RetriedExactly`), and by the next boot (`BootCleansUp`).
* The longest match counts the leading ones of a mask. Where a mask has holes the winner's block may lie
  outside another that covers the address (`HolesBreakNesting`); `NestsExactly` says when.
* `redactMarker` cuts the message at offsets found in its lower-case form. Four letters U+023A before
  `password=x` put the offset behind the end (`GrownTextLeavesTheRange`, `FourGrownLetters`); a pass stays in
  range exactly when each text it starts on holds its first marker whole (`PassStaysInRangeExactly`). Two of them
  before `password=xyz` leave `xy` in the log (`GrownTextShowsTheSecret`, `TwoGrownLetters`); the secret is hidden
  exactly when the text before the marker has not grown (`SecretIsHiddenExactly`).

## Model

| member | source | states |
|---|---|---|
| Quote.WinQuote | backend/internal/update/spawn_quote.go:22-47 | the byte loop with its backslash counter computes `Quoted` |
| Quote.ParseWinArgs | backend/internal/update/spawn_quote_test.go:8-62 | the reader's loop over arguments, quotes and backslash runs computes the specification reader |
| Quote.ReadQuotedBody | backend/internal/update/spawn_quote.go:26-46 | inside quotes, a quoted body restores any text: embedded quotes, backslash runs before them and at the end |
| Quote.CommandLineRoundTrip | backend/internal/update/spawn_quote.go:22-47 | for every list of byte strings, quoting each, joining with spaces and reading back gives exactly that list |
| Quote.PsQuoteRoundTrip | backend/internal/update/spawn_quote.go:7-9 | a PowerShell literal reads back as the text, with what follows left over, exactly when what follows does not start with a quote |
| Quote.LaunchRoundTrip | backend/internal/update/spawn_windows.go:35-43 | the launch command names the binary and carries exactly the arguments through both layers of quoting |
| Quote.PlainStaysBare | backend/internal/update/spawn_quote.go:22-25 | an argument without white space or quotes stays bare; the empty one and any other stand in quotes |
| Delta.DiffTrees | backend/cmd/update-tool/main.go:393-420 | the walk collects the target's new and changed files in order |
| Delta.ChangedIsTarget | backend/cmd/update-tool/main.go:393-420 | a file is collected exactly when it is in the target and absent or different in the base |
| Delta.GenDelta | backend/cmd/update-tool/main.go:303-372 | the archive is the target listing followed by every changed file; none when nothing changed |
| Delta.DeltaNeedsAChange | backend/cmd/update-tool/main.go:311-317 | packing is refused exactly when every target file is already there: deletions alone make no delta |
| Delta.CleanPathKeepsClean | backend/internal/update/delta.go:119-122 | a clean relative path is left alone and is never taken for an escaping one |
| Delta.EscapesExactly | backend/internal/update/delta.go:188-195 | a relative name leaves its directory if and only if walking it leads above the root at some point; any other cleans to proper components or to "." |
| Delta.UnsafeNamesAreRefused | backend/internal/update/delta.go:188-195 | a member with an absolute name, or one that climbs out of the tree, is refused |
| Delta.MemberIsTakenExactly | backend/internal/update/delta.go:188-239 | a member with a safe name is taken if and only if no file or directory is in its way and it fits the file and byte budgets, header and content |
| Delta.MemberLandsWhereItSays | backend/internal/update/delta.go:188-239 | then it is a file with its content, or a directory, at the cleaned name, below all the directories it needs, and nothing else changes among the files |
| Delta.ListingRoundTrip | backend/internal/update/delta.go:97-129 | a listing of good names reads back as those names exactly when it is within the limits |
| Delta.ListingIsSafe | backend/internal/update/delta.go:114-129 | a listing is refused if and only if some line names something outside the tree; otherwise it names the cleaned paths of its other lines |
| Delta.ReadListingExactly | backend/internal/update/delta.go:97-129 | it is read exactly when it is safe and within the limits on header, bytes and paths |
| Delta.ReadListingLines | backend/internal/update/delta.go:114-129 | the line loop: trimmed, cleaned, unsafe paths and an overlong listing refused |
| Delta.OutTree.UnzipOne | backend/internal/update/delta.go:188-239 | one member updates the tree and both budgets, or is refused for each reason the code has |
| Delta.OutTree.Extract | backend/internal/update/delta.go:75-87 | the overlay loop skips the listing and stops at the first refusal |
| Delta.OutTree.DropFiles | backend/internal/update/delta.go:134-160 | exactly the files the listing names stay |
| Delta.OutTree.DropEmptyDirs | backend/internal/update/delta.go:164-167 | directories are removed last first, those not empty being kept |
| Delta.OutTree.ApplyDelta | backend/internal/update/delta.go:53-93 | the whole apply in place: listing, overlay, prune, or refusal |
| Delta.OverlayPacked | backend/internal/update/delta.go:75-87 | a successful overlay of packed files is the base updated with them, directories in order |
| Delta.RemoveEmptyKeepsAncestors | backend/internal/update/delta.go:164-167 | the reverse pass leaves exactly the directories above a kept file |
| Delta.DeltaRoundTrip | backend/internal/update/delta.go:53-93 | whenever the packed delta applies to the base, the files are exactly the target's, with its contents |
| Delta.DeltaLeavesNoEmptyDirs | backend/internal/update/delta.go:134-168 | and a directory is left exactly when a target file lies below it |
| Delta.DeltaApplies | backend/internal/update/delta.go:53-239 | a packed delta applies to its base if and only if listing and changed files fit the limits and no changed path meets a base directory or lies below a base file |
| Installer.PromoteNameNeverParses | backend/internal/update/install.go:175-186 | a promotion's temporary name is never a version |
| Installer.AssembleSound | backend/internal/update/install.go:78-143 | at every point of an assembly every visible version is complete and the links are untouched |
| Installer.AssembleExactly | backend/internal/update/install.go:78-143 | an assembly succeeds if and only if the name is acceptable and the tree is there already, or is built and renamed; what it leaves is then exactly the versions with the built tree among them |
| Installer.PromoteSound | backend/internal/update/install.go:150-188 | so at every point of a promotion, which ends with the version present |
| Installer.PromoteExactly | backend/internal/update/install.go:150-188 | a promotion succeeds if and only if a tree was staged and is there already, or is copied and renamed; beside its temporary name it adds just that tree |
| Installer.UnsafeVersionIsRefused | backend/internal/update/install.go:64-72 | a name that is no version, or holds a slash of either kind, is refused before any call |
| Installer.ActivateSwitches | backend/internal/update/install.go:198-225 | at every point `current` is the old value or the target, the old one throughout on failure; what the anchor is afterwards |
| Installer.ActivateExactly | backend/internal/update/install.go:198-225 | an activation succeeds if and only if the version is there, the running one can be anchored and the switch goes through |
| Installer.RollbackSwitches | backend/internal/update/install.go:228-243 | the same for a rollback, whose target is the anchored version |
| Installer.RollbackExactly | backend/internal/update/install.go:228-243 | a rollback succeeds if and only if there is an anchor it can read and the switch goes through |
| Installer.RollbackRestores | backend/internal/update/install.go:198-243 | a rollback right after an activation restores the previous version exactly when the activation read the link or the stale anchor named it |
| Installer.RollbackIsPossible | backend/internal/update/install.go:228-243 | and without faults it goes through |
| Installer.ActivateSound | backend/internal/update/install.go:198-225 | no link dangles at any point of an activation |
| Installer.RollbackSound | backend/internal/update/install.go:228-243 | nor of a rollback |
| Installer.ApplyIsSafe | backend/cmd/connective-updater/apply.go:44-95 | at every point of an apply from a stage root, its last removal cut anywhere included: the install root is sound, `current` moves only to the checked target, and success is reported only once it has |
| Installer.ApplyExactly | backend/cmd/connective-updater/apply.go:33-104 | an apply not in place activates the version if and only if everything it has to meet is met, leaves `current` alone otherwise, and reports which of the two it was |
| Installer.PartialTreeIsRefused | backend/cmd/connective-updater/apply.go:108-124 | a tree without one of the three programs, or with one that is not executable, is never activated |
| Installer.FreshVersionIsInstalled | backend/cmd/connective-updater/apply.go:33-104 | from an artifact to the running version: assembled into an empty place and applied without a fault, exactly the built tree is `current`, if and only if it has the programs |
| Installer.StepSound | backend/internal/update/install.go:78-243 | one operation cut after any call leaves both roots sound if and only if no removal in it leaves a partial tree or takes a linked version; installed trees stay unless it applies in place |
| Installer.RunsStaySound | backend/internal/update/install.go:78-243 | in every run of assemblies, promotions, activations, rollbacks, applies and discards with faults and crashes, every version is complete and no link dangles after each step, if and only if no removal on the way leaves a partial tree or takes a linked version |
| Installer.RemovalSound | backend/internal/update/manager.go:666-668 | a removal cut after any of its calls leaves a sound root exactly when the tree it leaves is complete, or it took away a version that no link names |
| Installer.InstalledTreesStay | backend/internal/update/install.go:78-243 | in a sound run without in-place applies no installed tree changes or vanishes and `current` stays set |
| Installer.InterruptedDiscardIsInstalled | backend/internal/update/install.go:83-88 | the partial tree a removal cut short leaves is reported as assembled, and an apply without a fault promotes it, activates it and reports success, given only the three files checkTree asks for |
| Installer.InPlaceApplyDangles | backend/cmd/connective-updater/apply.go:64-74 | an apply whose staged directory is the installed version removes it again after activating it: success is reported and `current` dangles |
| Installer.Root.Assemble | backend/internal/update/install.go:78-143 | the calls in order end in the disk the trail ends in, with its outcome, which AssembleExactly states |
| Installer.Root.PromoteStaged | backend/internal/update/install.go:150-188 | likewise: copy beside, then one rename |
| Installer.Root.SwitchTo | backend/internal/update/link_unix.go:8-10 | a temporary link, then the atomic rename |
| Installer.Root.Activate | backend/internal/update/install.go:198-225 | anchor the running version, then switch |
| Installer.Root.Rollback | backend/internal/update/install.go:228-243 | switch to the anchored version |
| Installer.RunApply | backend/cmd/connective-updater/apply.go:33-104 | wait, promote unless there is nothing staged, check, activate, report, with the early exits, and the deferred removal of the staged tree |
| UpdateManager.FirstFull | backend/internal/update/artifacts.go:6-17 | the fallback's artifact is a full one of the release |
| UpdateManager.StepKeepsProvenance | backend/internal/update/manager.go:310-708 | each critical section and each unlocked step keeps everything the manager builds on genuine |
| UpdateManager.StepVerifies | backend/internal/update/manager.go:339-347 | only releases that passed verification are remembered as verified |
| UpdateManager.EveryRunHasProvenance | backend/internal/update/manager.go:310-760 | in every interleaving every staged tree, reused or from the fallback, and every tree handed to the updater comes from bytes whose hash an artifact of a verified manifest names |
| ManagerOutcomes.CheckEndsExactly | backend/internal/update/manager.go:310-376 | a check still wanted ends in NoUpdate for nothing new or a dismissed version, in UpdateAvailable for a usable offer, and in Failed for an error, an untrusted manifest or no artifact; a usable offer is selected in place of what was staged |
| ManagerOutcomes.LateCheckIsIgnored | backend/internal/update/manager.go:310-320 | the answer of a check that is no longer wanted changes nothing |
| ManagerOutcomes.CheckBeginsExactly | backend/internal/update/manager.go:287-292 | a check begins in exactly the phases in which nothing is under way |
| ManagerOutcomes.DownloadBeginsExactly | backend/internal/update/manager.go:408-419 | a download begins exactly when an update is available and selected |
| ManagerOutcomes.FetchEndsExactly | backend/internal/update/manager.go:420-442 | a failed fetch ends in Failed, or in Cancelled when its context is done; bytes go on to be verified |
| ManagerOutcomes.HashEndsExactly | backend/internal/update/manager.go:507-517 | a file is kept if and only if it hashes to the digest of its artifact |
| ManagerOutcomes.VerifyEndsExactly | backend/internal/update/manager.go:443-464 | verified bytes are staged and the update is available again; others end in Failed |
| ManagerOutcomes.InstallBeginsExactly | backend/internal/update/manager.go:596-602 | an install begins exactly when verified bytes are staged for the selected update |
| ManagerOutcomes.UnpackEndsExactly | backend/internal/update/install.go:83-137 | a tree that is there is reused, otherwise the artifact is unpacked |
| ManagerOutcomes.FallbackExactly | backend/internal/update/manager.go:640-648 | a delta that cannot be unpacked is replaced by the full artifact if and only if the release has one and nobody cancelled |
| ManagerOutcomes.PlaceEndsExactly | backend/internal/update/install.go:138-143 | the same for a tree that cannot be put in place |
| ManagerOutcomes.RefetchEndsExactly | backend/internal/update/manager.go:521-525 | the full artifact arrives as a new file, or the install has no tree |
| ManagerOutcomes.RehashEndsExactly | backend/internal/update/manager.go:526-529 | and is used if and only if it hashes to its digest |
| ManagerOutcomes.InstallEndsExactly | backend/internal/update/manager.go:681-709 | with a tree and an updater that starts an install ends in Restarting with the contract; without a tree in Failed, and so when the updater does not start, with the contract withdrawn |
| ManagerOutcomes.CancelEndsExactly | backend/internal/update/manager.go:791-806 | a Cancel moves the phases before the hand-off and Restarting to Cancelled, withdraws the contract from the latter, and ends the context of the worker that has one |
| ManagerOutcomes.DismissedStaysQuiet | backend/internal/update/manager.go:809-819 | a dismissed version is remembered, and the next check that finds it again does not announce it |
| ManagerOutcomes.UpdaterExitExactly | backend/internal/update/manager.go:768-784 | an updater that dies fails the update exactly while restarting with the contract in place |
| ManagerOutcomes.RestartAnnounces | backend/internal/update/manager.go:161-185 | after a restart the report is announced as Updated or Failed; without one the manager is idle |
| SoloManager.StepStaysSolo | backend/internal/update/manager.go:408-464 | with at most one transfer in flight the worker's place fits the state or the worker is cancelled |
| SoloManager.RunStaysSolo | backend/internal/update/manager.go:408-708 | so does every such run, and a tree under an install's version is always one its unpacking will find or the one it is about to hand off |
| SoloManager.CancelAborts | backend/internal/update/manager.go:791-806 | a Cancel in a transfer's own phases marks it and leaves those phases; nothing is spawned or staged and pending.json stays |
| SoloManager.AbortedWorkerBacksOut | backend/internal/update/manager.go:661-680 | the marked worker's last section removes its tree, the staged file and its place, or its download, from the disk, and hands nothing off |
| SoloManager.StepBesideAborted | backend/internal/update/manager.go:408-708 | beside a marked worker nothing is handed off and no download becomes staged |
| SoloManager.CancelledInstallNeverHandsOff | backend/internal/update/manager.go:661-680 | in every run from the start, from a Cancel during staging to the install's end: nothing is spawned, pending.json is not written, and the install leaves its version's tree removed and nothing staged |
| SoloManager.CancelledDownloadStagesNothing | backend/internal/update/manager.go:434-451 | in every run from the start, a download cancelled while fetching or verifying stages nothing, and when it is gone its file and every file new since the Cancel are off the disk |
| SoloManager.CancelledDownloadIsCleanExactly | backend/internal/update/manager.go:434-451 | after a cancelled download nothing is staged if and only if nothing was staged while it went on, or a check that found an update or a restart came on the way |
| CoherentManager.StepStaysOrderly | backend/internal/update/manager.go:310-708 | each step that is not an unfitting write of the fallback keeps the staged file matched to the artifact and the artifact to the pending release |
| CoherentManager.RewriteIsCoherentExactly | backend/internal/update/manager.go:649-652 | the fallback's writes leave the staged file matched to the pending release if and only if the full artifact is one of that release's |
| CoherentManager.RunsAreCoherentExactly | backend/internal/update/manager.go:310-708 | in every run from the start with one transfer at a time, a staged file is the selected artifact of the pending release throughout, if and only if every write of the fallback finds its artifact in the pending release |
| CoherentManager.CalmRunsStayCoherent | backend/internal/update/manager.go:310-708 | in particular in every run from the start with one transfer at a time and no check completing during the fallback |
| FallbackRace.CheckDuringFallbackMislabels | backend/internal/update/manager.go:649-652 | a check completing during the fallback does break that, from the initial state |
| FallbackRace.MislabelledUpdateIsReachable | backend/internal/update/manager.go:649-652 | and the updater can be started on the second version with bytes no artifact of its release names |
| FallbackRace.EarlierStagedSurvivesCancel | backend/internal/update/manager.go:421-433 | a cancelled download can end with the file of an earlier one still staged, from the initial state |
| ManagerSections.Manager.constructor | backend/internal/update/manager.go:140-154 | a first start, with neither cache nor report left: the initial state, nothing done |
| ManagerSections.Manager.IsGenuine | backend/internal/update/manager.go:310-760 | whatever order the methods were called in, every staged tree and every tree handed off comes from a verified manifest |
| ManagerSections.Manager.SetState | backend/internal/update/manager.go:201-218 | the state moves when the table allows it and stays otherwise |
| ManagerSections.Manager.StartCheck | backend/internal/update/manager.go:273-294 | an automatic check asks spacing, interval and cooldown of the clock, a manual one does not; then only the listed idle states let it begin, and the clock is noted either way |
| ManagerSections.ClockOpenExactly | backend/internal/update/manager.go:276-288 | a manual check is never held back; an automatic one waits a minute from the last poll and six hours from the last check, which the cooldown lengthens only from the eighth failure in a row, to a day from the tenth |
| ManagerSections.Manager.RunCheck | backend/internal/update/manager.go:310-376 | the locked part of a check, all outcomes, ends in the state CheckEndsExactly describes, and counts failures for the cooldown |
| ManagerSections.Manager.StartDownload | backend/internal/update/manager.go:408-419 | the guard and the first section of a download |
| ManagerSections.Manager.FetchBytes | backend/internal/update/manager.go:420-421 | the fetch leaves one new file, or none |
| ManagerSections.Manager.DownloadLanded | backend/internal/update/manager.go:421-442 | cancelled, failed, superseded or on to verifying |
| ManagerSections.Manager.HashFile | backend/internal/update/manager.go:507-517 | verification keeps the file only if it hashes to the digest of the artifact |
| ManagerSections.Manager.DownloadHashed | backend/internal/update/manager.go:444-464 | superseded, rejected or staged |
| ManagerSections.Manager.DownloadUndisturbed | backend/internal/update/manager.go:408-464 | the sections in order, nothing in between: the staged file holds exactly the bytes that came if they hash to the selected artifact, otherwise the download failed and its file is gone |
| ManagerSections.Manager.StartInstall | backend/internal/update/manager.go:596-639 | the guard and the first section of an install |
| ManagerSections.Manager.UnpackTree | backend/internal/update/install.go:78-137 | the first half of the unlocked assembly: a present tree is reused, a failure of a delta leads to the fallback |
| ManagerSections.Manager.PlaceTree | backend/internal/update/install.go:138-143 | and its rename |
| ManagerSections.Manager.RefetchBytes | backend/internal/update/manager.go:521-525 | the fallback fetches the full artifact of the release the install started from |
| ManagerSections.Manager.RehashFile | backend/internal/update/manager.go:526-529 | and verifies it |
| ManagerSections.Manager.FallBack | backend/internal/update/manager.go:649-652 | the fallback's unguarded writes |
| ManagerSections.Manager.HandOff | backend/internal/update/manager.go:746-761 | the events are the contract written and then the updater started, or withdrawn; over its whole life an object never starts an updater without having written that contract right before, and contract and started updaters are what its events leave |
| ManagerSections.Manager.InstallAssembled | backend/internal/update/manager.go:660-709 | back out, fail, or hand off and wait for the restart |
| ManagerSections.Manager.InstallUndisturbed | backend/internal/update/manager.go:596-709 | the sections in order, nothing in between: the updater is started on exactly the staged bytes under the pending version, with the contract in place |
| ManagerSections.Manager.InstallFallsBack | backend/internal/update/manager.go:640-709 | the sections in order with a delta that cannot be applied: the updater is started on the full artifact of the same release |
| ManagerSections.Manager.Abort | backend/internal/update/manager.go:791-806 | Cancel ends one context and moves the state |
| ManagerSections.Manager.DismissUpdate | backend/internal/update/manager.go:809-819 | Dismiss remembers the version and returns to idle |
| ManagerSections.Manager.UpdaterFailed | backend/internal/update/manager.go:768-784 | an early exit counts only while restarting with the contract intact |
| Download.Part.Copy | backend/internal/update/download.go:225-254 | the copying loop: cancel, cap, partial write, progress stop, end of input, broken connection |
| Download.Part.TryOnce | backend/internal/update/download.go:128-255 | one attempt: truncation on 200, appending on 206, local files from the start, totals; which replies pass is in AttemptPassesExactly |
| Download.Part.Fetch | backend/internal/update/download.go:69-125 | the retry loop; a failure removes the file |
| Download.LoopHashesTheFile | backend/internal/update/download.go:212-255 | a loop starting at the end of the file hashes exactly the file and stays within the cap |
| Download.AttemptHashesTheFile | backend/internal/update/download.go:128-255 | so does every attempt, whatever the server sends |
| Download.LoopEndsExactly | backend/internal/update/download.go:225-254 | a read loop leaves everything up to the turn it stops in and what got through of that one, and passes if and only if that is an undisturbed end of input |
| Download.AttemptPassesExactly | backend/internal/update/download.go:128-255 | an attempt passes if and only if the source opens (200, 206 or local), the temp file can be put in place, and the body completes within the cap |
| Download.AttemptLeaves | backend/internal/update/download.go:128-255 | what it leaves: a 206 continues the file, anything else starts it over, and whatever arrived is in it, passed or not |
| Download.ResumeCompletes | backend/internal/update/download.go:196-254 | a 206 that completes leaves the file and the rest, hashed as a whole |
| Download.RestartCompletes | backend/internal/update/download.go:147-195 | a 200 or a local file that completes leaves exactly what came |
| Download.FetchIsSound | backend/internal/update/download.go:69-125 | a successful fetch reports the hash of the whole file, of the known size, within the cap, when the source is not a web server, or nothing above the expected size is allowed, or the size is read before every attempt but the first |
| Download.FetchIsSoundExactly | backend/internal/update/download.go:69-125 | for each pattern of readable sizes, expected size and cap: every reply sequence gives a sound result if and only if that condition holds |
| Download.FailedStatKeepsAStaleTail | backend/internal/update/download.go:103-107 | an unreadable size before any attempt but the first lets that attempt succeed over the tail of the one before, for every such pattern, expected size and cap above it |
| Download.FileStaysAPrefix | backend/internal/update/download.go:128-255 | against an honest range server the file is a prefix of the content after every attempt (section 14.2 of RFC 9110) |
| Download.HonestFetchIsExact | backend/internal/update/download.go:69-125 | and told the right size a successful fetch ends with exactly the content, wherever connections dropped |
| Download.FetchStagesExactly | backend/internal/update/download.go:69-125 | a fetch stages a file if and only if some attempt delivers: the earlier ones fail without a cancel, and its reply is accepted, completes where the file stands and has the size it goes by |
| Download.HonestFetchDelivers | backend/internal/update/download.go:69-125 | against an honest server and told the right size, that is exactly when the content is staged |
| Redaction.RedactMarker | backend/internal/logging/logging.go:61-81 | the scanning loop computes one pass |
| Redaction.Redact | backend/internal/logging/logging.go:54-59 | the five passes leave, in each delimiter-free chunk, the text through the first marker and a mask |
| Redaction.PassIsSweep | backend/internal/logging/logging.go:61-81 | one scanning pass is the sweep for its marker |
| Redaction.SweepSweep | backend/internal/logging/logging.go:54-59 | sweeping for one set of markers and then another is sweeping for both: no pass undoes an earlier one |
| Redaction.PassesAreOneSweep | backend/internal/logging/logging.go:54-59 | any list of passes equals one sweep for all their markers |
| Redaction.PassOrderIsIrrelevant | backend/internal/logging/logging.go:50-59 | the order of the markers does not matter |
| Redaction.RedactIsIdempotent | backend/internal/logging/logging.go:54-59 | redacting again changes nothing, by any pass |
| Redaction.SecretIsHidden | backend/internal/logging/logging.go:61-81 | the text behind a marker never influences the result |
| Redaction.SecretsAreInterchangeable | backend/internal/logging/logging.go:61-81 | messages differing only in a secret redact to the same text |
| Redaction.InnocentTextIsKept | backend/internal/logging/logging.go:61-81 | text without a marker is unchanged |
| Redaction.OnlyTheSecretGoes | backend/internal/logging/logging.go:50-81 | in a message with one marker the secret behind it becomes three stars, and nothing else changes |
| Redaction.CapitalsCount | backend/internal/logging/logging.go:62 | a marker counts however its letters are capitalised |
| Redaction.DelimitersExactly | backend/internal/logging/logging.go:72 | what ends a secret: white space, quotes, comma and semicolon |
| Redaction.PassStaysInRangeExactly | backend/internal/logging/logging.go:61-81 | with any lower-casing, a pass over a message never slices out of range if and only if, in each text it starts on, the first marker of the lowered text ends within that text |
| Redaction.SuffixesStayInRange | backend/internal/logging/logging.go:61-81 | it is enough that this holds of every suffix of the message |
| Redaction.SameLengthStaysInRange | backend/internal/logging/logging.go:61-81 | so none does when lower-casing keeps lengths |
| Redaction.PassInIsPass | backend/internal/logging/logging.go:61-81 | and with ASCII lower-casing such a pass is the one the other results are about |
| Redaction.GrownTextLeavesTheRange | backend/internal/logging/logging.go:61-81 | a message does whose text before a marker grows, in lower case, by more than stands behind the marker |
| Redaction.SecretIsHiddenExactly | backend/internal/logging/logging.go:61-81 | where a marker stands at one offset of the message and is found at another of the lowered text, the cut falls that much further or earlier: everything behind the marker is hidden if and only if the text before it has not grown |
| Redaction.GrownTextShowsTheSecret | backend/internal/logging/logging.go:61-81 | and as many bytes of the secret are kept as the text before the marker has grown by |
| Base64.DecodeLenientEncode | backend/internal/servers/parse.go:312-325 | padding and trimming included, the URL decoder reads back what the URL encoder wrote (section 5 of RFC 4648) |
| Base64.AllEncodersDecode | backend/internal/servers/parse.go:312-325 | it reads back either alphabet, padded or not |
| Base64.AlphabetIsStandard | backend/internal/servers/export.go:113 | the alphabets of sections 4 and 5 of RFC 4648 |
| Base64.ForeignFails | backend/internal/servers/parse.go:312-318 | text with a character from outside the alphabet, a colon for one, never decodes, which is what ends the re-entry |
| Base64.DecodedIsShorter | backend/internal/servers/parse.go:312-318 | decoding takes at least a quarter off, which bounds the re-entries |
| Percent.UnescapeEscape | backend/internal/servers/export.go:115 | the display name survives escaping and unescaping (section 2.1 of RFC 3986) |
| Percent.KeptExactly | backend/internal/servers/export.go:115 | which characters of a display name are escaped |
| Shadowsocks.CleanRoundTrips | backend/internal/servers/parse.go:187-257 | a clean server's link parses back to the same method, password, address, port and name |
| Shadowsocks.OnlyCleanRoundTrips | backend/internal/servers/parse.go:187-257 | and only a clean server's does, whatever number of re-entries is allowed |
| Shadowsocks.ParsedFits | backend/internal/servers/parse.go:187-257 | the shape of everything the parser can return |
| Shadowsocks.RoundTripExactly | backend/internal/servers/export.go:109-120 | an exported link comes back unchanged if and only if the server is clean, after one re-entry |
| Shadowsocks.SecondSchemeIsLost | backend/internal/servers/parse.go:188 | a user part that reads like a second scheme is lost |
| Shadowsocks.ExportedExactly | backend/internal/servers/export.go:109-120 | a server has a link if and only if it has an address, a port from 1 to 65535, a method and a password |
| Shadowsocks.WholeLinkParses | backend/internal/servers/parse.go:218-224 | the older shape, all of it in base64, brings a clean server back too |
| Shadowsocks.BracketedParses | backend/internal/servers/parse.go:261-273 | a bracketed IPv6 address is accepted and comes back without brackets |
| Shadowsocks.ColonAddressIsRefused | backend/internal/servers/export.go:118-120 | but the export writes it without brackets, and such a link is refused |
| Shadowsocks.NameIsShown | backend/internal/servers/parse.go:248-252 | a link without a name shows the host, one whose name does not unescape shows it as it stands |
| Shadowsocks.OptionsAreCut | backend/internal/servers/parse.go:228-234 | plugin options behind a slash or question mark are left out |
| Shadowsocks.EmptyBodyNeverFinishes | backend/internal/servers/parse.go:217-224 | a link with nothing between scheme and fragment re-enters without end |
| Shadowsocks.ParserReturnsExactly | backend/internal/servers/parse.go:187-257 | the parser returns on a link if and only if no re-entry meets an empty body, and then within one entry more than its user part has characters |
| Shadowsocks.ExportReturnsExactly | backend/internal/servers/export.go:109-120 | it returns on an exported link if and only if the host part, as the parser cuts it, holds an `@` or the link in clear never runs empty |
| Shadowsocks.PlainExportsEnd | backend/internal/servers/export.go:109-120 | two entries end it when method and password hold no `#` or `?` and do not read like a second scheme, whatever address and name |
| Shadowsocks.HashMethodNeverFinishes | backend/internal/servers/export.go:109-120 | none ends it when the method starts with a `#` and the host part holds no `@` |
| Ipc.ConnKept | backend/internal/ipc/ipc.go:203-281 | no step of a connection's goroutines faults, and each keeps the phases of teardown and the bookkeeping of answers |
| Ipc.StepKept | backend/internal/ipc/ipc.go:175-281 | nor does any step of the server, broadcasts included |
| Ipc.SubscriberIsOpen | backend/internal/ipc/ipc.go:206-217 | a subscriber's channels are open: deregistering comes before closing |
| Ipc.NothingPanics | backend/internal/ipc/ipc.go:175-281 | in no interleaving is a closed channel sent on or closed again |
| Ipc.TeardownIsComplete | backend/internal/ipc/ipc.go:209-217 | a finished teardown has closed both channels, with no handler left and no subscription |
| Ipc.EachRequestIsAnsweredOnce | backend/internal/ipc/ipc.go:237-281 | the frames written answer each request at most once, with its own id |
| Ipc.NoRequestIsForgotten | backend/internal/ipc/ipc.go:237-281 | in every run, once a connection that is not being torn down has no handler at work and is between two requests, each request it has read has exactly one response, with its id |
| Ipc.BroadcastDelivers | backend/internal/ipc/ipc.go:175-190 | a broadcast queues one event for a subscriber with room and drops one whose queue is full; nobody else is touched |
| Ipc.BroadcastReachesAll | backend/internal/ipc/ipc.go:175-190 | a broadcast that ends has come to exactly those subscribed when it began, to each once |
| Ipc.SubscribedUnlessDropped | backend/internal/ipc/ipc.go:200-217 | a client that is being read is subscribed unless a broadcast found its queue full |
| Ipc.ClosedStaysClosed | backend/internal/ipc/ipc.go:209-217 | nothing is queued on a channel once it is closed |
| KillSwitch.Daemon.BringItUp | backend/cmd/connectived/main.go:751-797 | stage, marker and rule through a connect or reconnect, with every early return; one that succeeds with the kill switch on ends with the rule in force and marked, TUN or not |
| KillSwitch.Daemon.Transition | backend/internal/connection/machine.go:91-107 | the stage moves when the table has the edge and stays otherwise |
| KillSwitch.Daemon.Connect | backend/cmd/connectived/main.go:288-378 | refused while connected or busy; a connect that fails before selecting leaves the stage as it was; from there on the daemon is active, with the events of bringUp |
| KillSwitch.Daemon.Reconnect | backend/cmd/connectived/main.go:1284-1336 | the same for a reconnect, which may find the daemon disconnected meanwhile |
| KillSwitch.Daemon.Disconnect | backend/cmd/connectived/main.go:691-714 | refused while disconnected; from any other stage the cleanup and the disconnected stage |
| KillSwitch.Daemon.CleanupApplied | backend/cmd/connectived/main.go:725-744 | each flag is cleared only after its helper run succeeded |
| KillSwitch.Daemon.ReconcileApplied | backend/cmd/connectived/main.go:654-689 | the boot takes the flags over from the marker and cleans up |
| KillSwitch.Daemon.Apply | backend/cmd/connectived/main.go:602-621 | setApplied: flags merged, then persisted |
| KillSwitch.Daemon.Clear | backend/cmd/connectived/main.go:625-644 | clearApplied: the remainder persisted, no marker when none is left |
| KillSwitch.BringUpIsSafe | backend/cmd/connectived/main.go:751-797 | after every event of a connect or reconnect the rule is marked and memory mirrors the marker at the end |
| KillSwitch.BringUpLeaves | backend/cmd/connectived/main.go:751-797 | what a connect leaves on disk, exactly: the rule as its helper run left it and both flags if it gets that far, the TUN flag once the core has started, nothing otherwise |
| KillSwitch.ConnectLocksTheNetwork | backend/cmd/connectived/main.go:782-790 | a connect that succeeds with the kill switch on ends with the rule in force and marked |
| KillSwitch.ConnectLocksExactly | backend/cmd/connectived/main.go:751-797 | and so in every run, where the daemon is then active and remembers it |
| KillSwitch.CleanupIsSafe | backend/cmd/connectived/main.go:725-744 | the same for a cleanup, which leaves neither rule nor flag when its helper succeeds |
| KillSwitch.CleanupLeaves | backend/cmd/connectived/main.go:725-744 | what a cleanup leaves, exactly: each flag goes if and only if its own helper run succeeds |
| KillSwitch.StepIsSafe | backend/cmd/connectived/main.go:602-797 | one operation, whole, cut short or torn in a marker write, keeps a rule in force marked after each event if and only if it does not tear a marker write under the rule |
| KillSwitch.RuleIsMarkedExactly | backend/cmd/connectived/main.go:602-797 | in every run of boots, connects, reconnects, disconnects, crashes, torn marker writes and restarts a rule in force is marked after every event, if and only if no marker write is torn while the rule is in force |
| KillSwitch.EveryRunIsSafe | backend/cmd/connectived/main.go:602-797 | in every such run, after every event: a rule in force is marked, and but for torn writes the flag is cleared only right after a helper run that removed the rule |
| KillSwitch.BootCleansUp | backend/cmd/connectived/main.go:654-689 | in a run without a harmful torn write before it, a boot whose cleanup succeeds ends with neither rule nor flag |
| KillSwitch.DisconnectCleansUpExactly | backend/cmd/connectived/main.go:691-744 | in a run without a harmful torn write before it, a disconnect whose helper would succeed ends without rule and flag exactly when the daemon is not disconnected already, or both were gone; a failing helper keeps the flag |
| KillSwitch.ActiveExactly | backend/cmd/connectived/main.go:288-400 | in every run the daemon is not disconnected exactly when a connection has begun since the last boot, crash or disconnect |
| KillSwitch.RetriedExactly | backend/cmd/connectived/main.go:716-744 | so a rule that outlived a failed teardown is lifted by a later disconnect exactly when a connection has begun in between |
| KillSwitch.FailedTeardownIsNotRetried | backend/cmd/connectived/main.go:691-714 | boot, connect, a disconnect whose helper fails, and any number of further disconnects: the rule is still in force, since none of them runs a helper |
| KillSwitch.TornMarkerForgetsTheRule | backend/cmd/connectived/main.go:659-663 | after any torn marker write the next boot removes the marker, runs no helper and leaves the rule as it was: marked exactly when no rule was in force at the torn write |
| KillSwitch.ReconnectCanTear | backend/cmd/connectived/main.go:762-785 | every reconnect under the rule that writes the marker at all can be torn in that first write with the rule in force |
| KillSwitch.ForgottenRuleIsReachable | backend/cmd/connectived/main.go:602-797 | boot, connect, torn reconnect and boot, from a clean machine, end with the rule in force and no marker |
| KillSwitch.ForgottenRuleStays | backend/cmd/connectived/main.go:654-744 | and no boot or disconnect from there touches the rule |
| Routing.MaskBits | backend/internal/routing/routetable.go:111-120 | the loop counts the leading ones |
| Routing.OnesOfTop | backend/internal/routing/routetable.go:111-120 | a contiguous mask of n bits counts n |
| Routing.LongestMatch | backend/internal/routing/routetable.go:72-93 | the best covering entry by leading ones, metric and position; none exactly when nothing covers |
| Routing.BestIsUnique | backend/internal/routing/routetable.go:72-93 | which is a single entry |
| Routing.WinnerIsMostSpecific | backend/internal/routing/routetable.go:72-93 | with contiguous masks its block lies in every other covering block (section 5.1 of RFC 4632) |
| Routing.HolesBreakNesting | backend/internal/routing/routetable.go:111-120 | with other masks it may not |
| Routing.NestsExactly | backend/internal/routing/routetable.go:72-93 | of two entries covering an address, one's block lies inside the other's if and only if the other's mask is a submask of its own |
| Routing.OctetsOf | backend/internal/routing/routetable.go:103-109 | the word of an address holds its octets from the highest byte down |
| Routing.MappedIsTheSame | backend/internal/routing/routetable.go:103-109 | an address mapped into IPv6 is the same word |
| Routing.SlashEightExactly | backend/internal/routing/routetable.go:72-93 | a block of length 8 covers exactly the addresses with its first octet |
| Config.CleanSplitApps | backend/internal/configgen/configgen.go:420-432 | the first 200 non-empty trimmed names |
| Config.CleanExactly | backend/internal/configgen/configgen.go:420-432 | the first two hundred of the names as trimmed, none of them empty or with space around it |
| Config.TrimmedExactly | backend/internal/configgen/configgen.go:420-432 | the trimmed names are those of the list that are not blank |
| Config.TrimmedJoins | backend/internal/configgen/configgen.go:420-432 | in the order of the list |
| Config.RouteConfig | backend/internal/configgen/configgen.go:338-416 | the list built by append is the rules of the split mode, the hijack and the address rule |
| Config.RulesDecideThePolicy | backend/internal/configgen/configgen.go:338-416 | evaluated first match, the rules decide every app, DNS flag and destination as the policy does |
| Config.BypassedAppsGoDirect | backend/internal/configgen/configgen.go:347-357 | a bypassed app goes direct, DNS included; the others as with split off |
| Config.OnlyListedAppsAreProxied | backend/internal/configgen/configgen.go:358-384 | an unlisted app goes direct with all its traffic; a listed one is proxied and its DNS hijacked |
| Config.NoAppsMeansOff | backend/internal/configgen/configgen.go:349-384 | an empty cleaned list is the same as off |
| Config.WhenHostTrafficStays | backend/internal/configgen/configgen.go:391-404 | exactly when loopback and link-local traffic stays on the host |
| Config.GenerateGroup | backend/internal/configgen/configgen.go:95-143 | the loop yields one outbound a server, the automatic group, the selector and the system outbounds, or fails on the first that does not render |
| Config.GroupTagsAreDistinct | backend/internal/configgen/configgen.go:102-138 | no two outbounds of a group share a tag, for any number of servers |
| Config.RenderedIsClosed | backend/cmd/connectived/main.go:434-440 | whatever is rendered refers only to tags it defines, each once |
| Config.RenderedExactly | backend/cmd/connectived/main.go:434-440 | something is rendered if and only if there is a target and all of them render; with two or more each is an outbound and a choice of both groups |
| Config.DnsGoesByTheProxy | backend/internal/configgen/configgen.go:316-336 | names are looked up through the proxy unless the system resolver is asked for, and the default resolver is always direct |
| Config.GroupTagFor | backend/cmd/connectived/main.go:1275-1282 | the tag of the first target with that id, else the automatic group |
| Config.GroupTagNamesTheServer | backend/cmd/connectived/main.go:1275-1282 | with two or more targets of distinct ids that tag is the outbound of the very server asked for |
| Config.DefaultIsTheActiveServer | backend/internal/configgen/configgen.go:132-136 | the selector's default is the active server's outbound, or the automatic group when it is no target |
| Config.PositionalTagsNeedAGroup | backend/cmd/connectived/main.go:434-440 | a positional tag is defined exactly when two or more targets were rendered |
| NetWatcher.Watcher.constructor | backend/internal/monitor/monitor.go:165-174 | the first snapshot is the baseline; a count of 0 or less is 1 |
| NetWatcher.Watcher.Poll | backend/internal/monitor/monitor.go:182-201 | the loop's base, pending and counter make exactly the reports the readings call for |
| NetWatcher.ReportedExactlyWhenSettled | backend/internal/monitor/monitor.go:186-201 | a report comes exactly when the last Confirm successful polls since the last report agree on a value other than the base |
| NetWatcher.ReportsChain | backend/internal/monitor/monitor.go:195-200 | each report starts where the one before ended, the first at the baseline |
| NetWatcher.ReportsAreGrounded | backend/internal/monitor/monitor.go:186-201 | each report rests on its own Confirm equal readings |
| NetWatcher.ShortChangesAreSilent | backend/internal/monitor/monitor.go:186-201 | a value that never fills Confirm successful polls is never reported |
| NetWatcher.SettledValueIsTheBase | backend/internal/monitor/monitor.go:186-201 | and one that does is never missed |
| Versions.ParseVersion | backend/internal/update/version.go:45-76 | the loop filling three numbers computes the parse |
| Versions.PrintParseIdentity | backend/internal/update/version.go:113-119 | printing then parsing is the identity on exactly the versions parsing returns |
| Versions.WellFormedExactly | backend/internal/update/version.go:45-76 | which texts are versions: trimmed, one to three 64-bit numbers with dots, and behind a dash, if there is one, something |
| Versions.ShortVersions | backend/internal/update/version.go:45-76 | missing numbers are zero |
| Versions.CompareIsTotalOrder | backend/internal/update/version.go:79-99 | Compare is a total order |
| Versions.OlderExactly | backend/internal/update/version.go:79-99 | which of two versions is older: number by number, then a prerelease before the final release, then the tags bytewise |
| Versions.ChainsOnlyClimb | backend/internal/update/version.go:137-161 | accepted updates strictly increase, never revisit a version and never start below the minimum |
| Versions.AcceptedExactly | backend/internal/update/version.go:137-161 | an update is accepted if and only if it is newer and the current version is not below the minimum; each refusal has its own condition |
| Selector.Rank | backend/internal/selector/selector.go:135-154 | score, sort best first, keep the usable; what the scores prefer is in AutoPicksTheBest |
| Selector.SelectPicks | backend/internal/selector/selector.go:135-163 | Select returns a candidate nobody outscores, and something for every non-empty list |
| Selector.AutoPicksTheBest | backend/internal/selector/selector.go:53-163 | with the default parameters, at most one sample and no incumbent listed, nothing better than the pick is left: no usable server beside an unhealthy one, no healthy tested beside an untested one, no lower latency of the same health, no better health at no higher latency |
| Selector.MeritDecides | backend/internal/selector/selector.go:53-77 | default scores in whole numbers, with and without the incumbent bonus |
| Selector.AutoKeepsTheIncumbent | backend/internal/selector/selector.go:53-163 | an incumbent stays if nobody has 15 per cent more merit and goes if somebody has more than that |
| Selector.SelectIsStable | backend/internal/selector/selector.go:53-163 | with its own pick as incumbent Select returns that pick, for every list, incumbent and order of equal scores |
| Selector.DisplacingTakesTheMargin | backend/internal/selector/selector.go:73-76 | a challenger displaces the incumbent only with at least its raised, capped score |
| Selector.SteadierIsBetter | backend/internal/selector/selector.go:106-130 | of two latency histories the one with less spread is worth more |
| Selector.NoBoundMeansDefaults | backend/internal/selector/selector.go:54-56 | parameters without a latency bound stand for the defaults |
| Selector.HistoriesOf | backend/cmd/connectived/main.go:393-401 | at most one sample a server, for the tested ones |
| Selector.DefaultScoresAreInside | backend/internal/selector/selector.go:38-77 | default scores with at most one sample lie between 15 and 94 |
| Selector.AutoIsStable | backend/cmd/connectived/main.go:350 | so the daemon's selection never ping-pongs |
| Backoff.Window | backend/internal/update/manager.go:255-264 | for every failure count the guarded wrapping shift gives the base doubled each time, up to a day |
| Backoff.Cooling | backend/internal/update/manager.go:251-266 | silence lasts exactly that many seconds since the last check |
| Backoff.ShiftIsHarmless | backend/internal/update/manager.go:260-262 | no wrapped 64-bit shift lands strictly between zero and a day |
| Backoff.WindowIsMonotone | backend/internal/update/manager.go:251-266 | more failures never shorten the window |

## Left out

- HTTP, sockets, subprocesses, elevation, firewall and DNS tools, JSON and the zip format: calls whose outcomes are parameters here.
- Redact: stated for ASCII lower case; for other lower-casings, parameters of PassIn, a single pass is stated: its range and what it hides, not how five of them compose.
- PsQuoteRoundTrip: typographic quotes, which PowerShell also takes as delimiters, are not modelled.
- The order of `filepath.Walk` is a parameter of the delta model; file modes and empty directories of the target are not compared by the tool either.
- Versions of the Windows activation path (`replaceLink` removes before renaming, `current.txt`, shortcuts): it has a documented window without `current`.
- AwaitHealthy, `zipTopPrefix`, the updater's optional launch and the in-process apply used for development: no further protocol in them.
- ApplyIsSafe: an apply in place is kept out, for the reason InPlaceApplyDangles shows.
- Goroutines, channels and mutexes have no Dafny counterpart: the IPC server is a state machine on values, and the manager's sections and unlocked work are methods called one at a time, in any order.
- A restart of the daemon and a contract cleaned up by the updater are actions of the manager's state machine without a method; the cache a start may load is taken as empty.
- HandOff: a contract that cannot be written is not told from an updater that cannot be started; both end without a contract.
- RunCheck's selection of an artifact: any artifact of the verified release may be selected.
- Progress events of the manager, emitted outside its lock.
- Whether a Cancel while restarting stops the updater: only the contract is withdrawn.
- EveryRunIsSafe: a marker write either succeeds, is cut off before it or is torn by a crash, never refused; a helper run is over when it returns; a helper that outlives its timeout is not modelled. The TUN device itself is not modelled, only its flag. In-place failover, health probes and the degraded stage touch neither rule nor marker and are no steps.
- NoRequestIsForgotten: that a request is answered in the end is not claimed, as the read loop can block on a full channel; a client dropped by a broadcast is not modelled as disconnected at once.
- Fetch: a removal of the file after a failure is taken to succeed.
- AutoPicksTheBest: states the preferences for at most one sample a server, which is what the daemon keeps.
- SelectIsStable: over the reals, and for scores strictly inside the range, which the default parameters guarantee; the square root in the spread of two or more samples is an arbitrary function.
- LongestMatch: parsing the text of `route print` is left out.
- DnsGoesByTheProxy: the rule for the clash mode, which asks the local resolver in direct mode, is not modelled.
- RulesDecideThePolicy: destinations are classes of addresses; process names match exactly.
- VLESS, VMess and Trojan links, and the dispatch on the scheme: built on URL parsing.
- The logger's ring buffer, the watcher's start and stop, stats, settings, sysproxy, app inventory and the user interface: easy members.
