# Release engineering, modelled and proved

The repository builds, verifies and deploys one desktop product. This project models the parts of that work whose
correctness rests on ordering, framing, closure or invariants, and proves what they promise.

| file | models |
|---|---|
| `BuildCache.dfy` | the per-machine build cache as a step system with any number of calls, and one whole call |
| `CacheKey.dfy` | the cache key's length-framed stream |
| `WebSocket.dfy` | the WebSocket client of the packaging gate, against RFC 6455 |
| `ProcessTree.dfy` | the closures over process tables |
| `Signing.dfy`, `Assembly.dfy` | code signing, digest manifests, installation and the outer seal |
| `PosixPaths.dfy`, `Distribution.dfy` | link confinement; generating and verifying the browser's manifest |
| `FileTree.dfy` | trees of files with links: finding a name, removing and writing one |
| `SourceIdentity.dfy`, `WorkingTree.dfy`, `SnapshotMirror.dfy` | the source identity and the snapshot that must reproduce it |
| `LinkedRepositories.dfy` | three repositories with links: two that are accepted and cannot be mirrored, one that can |
| `Trademark.dfy`, `CatalogComposition.dfy` | the trademark passes and the composition of catalog items |
| `ConfigurationMerge.dfy` | the configuration overlay, against RFC 7396 |
| `Deployment.dfy` | the serial deployment as a step system, and one whole call |
| `ShotStructure.dfy` | the shot table of a film |
| `Foundations.dfy`, `Sorting.dfy`, `Runs.dfy` | big-endian framing, text search, sorting and listing, interleavings |

Concurrent code is a step system: a state, one predicate for a step, and theorems about every state of every finite
interleaving. The sequential code beside it is a class whose methods also build the run they take, so the theorems
apply to it. Code that changes things step by step is a method proved against a specification function or predicate;
the theorems are about those.

## Assumptions

- SHA-256: no collision among the inputs a theorem speaks of. It is never assumed injective as a whole.
- Files are copied faithfully; `codesign`, when it is reached, succeeds and writes what the signature slot stands for.
- A digest manifest is identified with the bytes it records: the model keeps the described tree in place of digests.
  Writing one works: what `refresh_staging_inventory`, `build_distribution_manifest` and the Executor's manifest writer
  demand besides holds.
- What `verify_distribution` demands of a browser besides its inventory, and where links inside a resource lead, are
  predicates on the installed tree.
- The stamp's `is_file` and `read_text` count as one read; the inputs do not change during a call; removing a tree
  works. Between runs somebody may remove an artifact directory altogether, but not parts of it.
- The operating system's answers (`lstat`, `stat`, process tables, socket chunks, container states) are parameters.
- git keeps index names free of prefixes of each other, and its status is right about a clean submodule, a copied one
  included. The snapshot has the reviewed ignore rules, as if every ignore file were reviewed.
- A way over an absolute link, above the repository, into `.git` or into a submodule is refused: the model does not say
  where it leads.
- Where a composed item goes there are neither files nor links before it is written.
- Lower-casing, case-insensitive comparison and the class of alphanumeric characters are parameters.

## Where the code does less than it seems to promise

Each of these comes with the inputs that fail and the exact condition under which the promise holds.

- A distribution manifest may name a file by more than one spelling (`r/x` and `r//x`): such a manifest is accepted
  and the counts are too high (`DoubledSlashIsAccepted`). The counts are right if and only if every file entry is
  spelled plainly and no file is listed twice (`ReportCountsTheTree`).
- Reviewed sources are not always reproduced: a ledger file of the commit stands where a reviewed name needs a
  directory; a submodule has submodules (`_copy_snapshot_entry` takes files and links only) or no `origin`; a link leads
  through something that the snapshot does not get (`LinkThroughUnreviewedFails`, `AcceptedYetCopyIsRejected`). Those
  are all the cases where what a name below a link needs is copied before it (`SuccessMeans`), so always when no name
  lies below a link. Otherwise the order of the names matters (`AcceptedYetNotMaterialised`, and `MirroredThroughALink`
  beside it), and success is what the replay of the names says (`MaterializeRepositorySnapshot`).
- The write-once rule of the composition loses a file if an asset identifier spells `source:` and the file's name, or
  if two contract paths are spellings of one place (`ForgedItemIsComposed`, `RespelledPathLosesAFile`). The ownership
  check catches everything else: the rule is sound if and only if the contents agree wherever those two happen
  (`WriteOnceIsSound`), and always for plainly spelled items (`PlainItemsAreSound`).
- A deployer that crashes inside, creates but cannot write its lock file, or cannot remove it locks everybody out for
  good, and nothing else does (`LockIsAbandonedExactly`). A Control Plane whose start command fails is not stopped; an
  interrupt releases the lock without stopping (`ReleaseComesAfterStop`).
- `merge_configuration` keeps null members that the merge patch of RFC 7396 would remove, and agrees with it if and only
  if there are none (`MergeIsMergePatchExactly`).
- The bounded ancestor walk is complete if and only if there are no more ancestors than its limit.
- The executable flag in the manifest is not verified; only the one declared executable is checked for its mode.
- The start check in `require_declared_shot_boundaries` can never be the one that rejects: it repeats the end check of
  the shot before (`StartCheckRepeatsEndCheck`).

## Model

| member | source | states |
|---|---|---|
| `BuildCacheProtocol.ReadableStampMeansFinishedTree` | scripts/video_runtime_cache.py:190-252 | In every interleaving of any number of calls, with failing builds and crashes at any step: a readable stamp carrying `f` means the tree is complete and built for `f`, or that the tree was already gone when the run started and nobody has written since; at most one live call holds the lock |
| `BuildCacheProtocol.ReturnsOnlyFinishedArtifact` | scripts/video_runtime_cache.py:216-252 | At the stamp read or write that decides its return, no call hands out a missing, partial or foreign tree, on the lock-free path or under the lock, also when a stamp was left behind without its directory |
| `BuildCacheProtocol.OnlyHolderWrites` | scripts/video_runtime_cache.py:220-252 | Only the call holding the lock ever changes stamp or tree |
| `BuildCacheProtocol.OnlyDifferentInputsInvalidate` | scripts/video_runtime_cache.py:229-230 | A finished artifact is disturbed only by the lock holder with other inputs, and its stamp goes before its tree |
| `BuildCacheProtocol.SharedStampIsFinal` | scripts/video_runtime_cache.py:216-252 | If all calls carry the same fingerprint, then once its artifact is there nothing on disk changes any more |
| `BuildCacheProtocol.SharedInputsBuildOnce` | scripts/video_runtime_cache.py:216-252 | If all calls carry the same fingerprint, a whole run writes the stamp at most once, and only if the artifact was not there |
| `BuildCacheProtocol.NoSecondStamp` | scripts/video_runtime_cache.py:216-252 | In such a run no two different steps finish a stamp |
| `BuildCacheProtocol.FailedBuildLeavesNoReadableStamp` | scripts/video_runtime_cache.py:229-240 | No stamp is readable in any state in which a rebuild is under way, nor right after a build that raised or a call that died in the middle of one |
| `BuildCacheProtocol.HolderWithoutArtifactRebuilds` | scripts/video_runtime_cache.py:225-249 | A call that finds no stamp of its own, or no directory, when it gets the lock decides to return only by finishing a new stamp, whatever the others do meanwhile |
| `BuildCacheProtocol.NextHolderRebuilds` | scripts/video_runtime_cache.py:225-249 | After a build that raised or a call that died in one, the next call that takes the lock always rebuilds: its deciding step finishes a new stamp, whatever its inputs and whatever the others do meanwhile |
| `BuildCacheProtocol.AnyCallCanCrash` | scripts/video_runtime_cache.py:221-252 | The runs include every crash: any call that is not over can die in any state, which frees its lock and changes nothing on disk |
| `BuildCacheCall.CacheDirectory.EnsureCached` | scripts/video_runtime_cache.py:190-252 | One whole call: it returns exactly when stamp and directory were there or the build produced a tree, leaves nothing behind when it raises, does not touch a current artifact, and each of its paths is a run of the step system |
| `BuildCacheCall.CacheDirectory.UnderLock` | scripts/video_runtime_cache.py:221-252 | The re-check under the lock and the rebuild, with the stamp and tree they leave |
| `BuildCacheCall.CacheDirectory.Rebuild` | scripts/video_runtime_cache.py:229-249 | Unstamp, clear, build, stamp: the artifact is stamped exactly when the build produced a tree |
| `CacheKey.SourcePackageEntries` | scripts/video_runtime_cache.py:73-106 | One entry for each accepted file of a source package, in path order whatever the listing's order; a link, or a package without files, is a rejection |
| `CacheKey.InOrderIsSorted` | scripts/video_runtime_cache.py:82 | That order is sorted by path, component by component |
| `CacheKey.PackageFilesAreExactly` | scripts/video_runtime_cache.py:82-100 | Which files take part: every regular file outside byte-code caches and without a byte-code suffix, no other |
| `CacheKey.PackageEntriesMean` | scripts/video_runtime_cache.py:73-106 | The entries of a package, in plain terms: one for each regular file outside `__pycache__` and not named `.pyc` or `.pyo`, whose name cut at the slashes is the package's name and then the file's whole path; no other |
| `CacheKey.PackageIsAccepted` | scripts/video_runtime_cache.py:73-139 | A package by itself is accepted exactly if every link in it lies in a `__pycache__` and some file pins it: its files never collide, however often a file name occurs in it |
| `CacheKey.PackageStreamIdentifiesFiles` | scripts/video_runtime_cache.py:73-149 | Two packages of one name have equal streams exactly when the files that pin them have the same paths and contents |
| `CacheKey.CollectEntries` | scripts/video_runtime_cache.py:118-129 | The entries of all inputs, one input after the other, rejected exactly when some input is not acceptable |
| `CacheKey.AllAcceptedMeans` | scripts/video_runtime_cache.py:118-129 | Not acceptable is an input that is missing, or a package with a link or without files |
| `CacheKey.ContractFingerprintStream` | scripts/video_runtime_cache.py:109-149 | The bytes fed to the digest, for any order of arguments; rejected exactly on missing, empty or colliding inputs |
| `CacheKey.EncodeInjective` | scripts/video_runtime_cache.py:144-148 | The framed encoding of entry lists is injective |
| `CacheKey.PieceParts` | scripts/video_runtime_cache.py:144-148 | Where the length, the name and the digest of one entry stand in the stream |
| `CacheKey.StreamNamesAscend` | scripts/video_runtime_cache.py:144 | The names in the stream ascend strictly in dictionary order |
| `Sorting.LexLeMeans` | scripts/video_runtime_cache.py:144 | Dictionary order: the first difference decides, a prefix comes first |
| `Bytes.HighBytesFirst` | scripts/video_runtime_cache.py:146 | Numbers are written with the highest byte first |
| `CacheKey.StreamIdentifiesFiles` | scripts/video_runtime_cache.py:109-149 | Two accepted input sets have equal streams exactly when they have the same set of files, so every change, addition or removal changes the stream (digests of the files involved not colliding) |
| `CacheKey.ArgumentOrderIsIrrelevant` | scripts/video_runtime_cache.py:141-148 | Reordering the arguments changes neither acceptance nor the stream |
| `WebSocketFrames.SentFrameReadsBack` | scripts/check_packaged_javascript_runtimes.py:279-290 | The frame built for a payload is read by an independent section 5.2 reader of RFC 6455, with its own digit-wise unmasking after section 5.3, as one final, masked text frame in the minimal length form with that payload, and leaves nothing over: exactly for payloads below 2^63 bytes |
| `WebSocketFrames.SentOctet` | scripts/check_packaged_javascript_runtimes.py:288-290 | Each octet on the wire is, binary place by binary place, the exclusive or of the payload's octet `i` and octet `i % 4` of the key before it |
| `WebSocketFrames.ClientReadsRfcFrames` | scripts/check_packaged_javascript_runtimes.py:303-317 | On every valid unmasked frame the receive loop cuts exactly as the section 5.2 reader does |
| `WebSocketFrames.NextFrameReadsWire` | scripts/check_packaged_javascript_runtimes.py:303-317 | A frame in any of the three length forms, minimal or not, is cut out exactly and the rest is what follows it |
| `WebSocketFrames.NextFrameConservesBytes` | scripts/check_packaged_javascript_runtimes.py:303-317 | Whatever is cut out is a frame some server wrote: header, payload and rest together are the stream, up to the ignored mask bit |
| `WebSocketFrames.NextFrameIgnoresLaterBytes` | scripts/check_packaged_javascript_runtimes.py:303-317 | The cut does not depend on bytes after the frame |
| `WebSocketFrames.OtherFramesAreSkipped` | scripts/check_packaged_javascript_runtimes.py:302-321 | Frames that are neither text nor close are skipped |
| `WebSocketFrames.FirstTextIsReturned` | scripts/check_packaged_javascript_runtimes.py:302-321 | After any such frames the first text payload is the result, and the stream after it is what is left |
| `WebSocketFrames.TornFrameDisconnects` | scripts/check_packaged_javascript_runtimes.py:294-300 | A stream that ends inside a frame is a disconnection, never a short payload |
| `WebSocketClient.Connection.Need` | scripts/check_packaged_javascript_runtimes.py:294-300 | Reading on until enough bytes are there: bytes are neither lost nor repeated, and it fails exactly when the stream has too few |
| `WebSocketClient.Connection.ReceiveFrame` | scripts/check_packaged_javascript_runtimes.py:303-317 | One turn of the loop depends only on the bytes to come, never on how they are cut into chunks |
| `WebSocketClient.Connection.ReceiveText` | scripts/check_packaged_javascript_runtimes.py:293-321 | For every chunking: exactly the first text frame of the stream, and leftover buffer plus unread bytes are exactly the stream after it |
| `ProcessTree.GrowOnce` | scripts/check_packaged_javascript_runtimes.py:347-351 | One pass over the process rows keeps everything found reachable and reports growth exactly when the family was not closed |
| `ProcessTree.DescendantExecutables` | scripts/check_packaged_javascript_runtimes.py:344-352 | The fixpoint loop ends on every table, cyclic or not, with exactly the processes reachable downward from the root and exactly their commands |
| `ProcessTree.AncestorProcessIds` | scripts/windows_processes.py:138-158 | The bounded walk returns exactly the nonzero ids reachable upward within `limit` steps; it is all of them exactly when there are at most `limit`, so always when the limit covers the table |
| `SigningTree.SignableNodes` | scripts/release_assembly.py:497-534 | For every tree, root and exclusion list: each signable node exactly once, contained nodes before containers |
| `SigningTree.ListedForSigning` | scripts/release_assembly.py:519-534 | Which nodes those are, in plain terms: the root if it is an `.app` or `.framework` directory, and below it every Mach-O file and such directory outside codesign's own files and the excluded payloads; no link and no other file |
| `SigningTree.ContainedBeforeContainer` | scripts/release_assembly.py:505-507 | In that list a contained node comes before every container of it |
| `SigningTree.SignAllLeavesEverySealValid` | scripts/release_assembly.py:551-581 | After signing in that order every signed node's seal is still valid |
| `SigningTree.LaterInnerSignatureBreaksSeal` | scripts/release_assembly.py:356-360 | Without the order it fails: signing an inner node later breaks the valid seal of its container |
| `SigningTree.SignAllLeavesOthers` | scripts/release_assembly.py:513-516 | Signing leaves every subtree alone in which no signed node lies |
| `ReleaseAssembly.SignatureInvalidatesManifest` | scripts/build_release_package.py:234-248 | A digest manifest that describes a payload still does after one more signature if and only if that signature is outside what the manifest covers |
| `ReleaseAssembly.SoundIsListed` | scripts/write_video_media_toolchain_manifest.py:31-42 | What the manifests of a finished package list, in plain terms: every binary, file and listed link in the manifest's place with the node it has, and else only bundle signatures |
| `ReleaseAssembly.LaterSignatureIsNotListed` | scripts/build_release_package.py:234-248 | Signing any binary in a manifest's place once more makes the manifest wrong |
| `ReleaseAssembly.SealedMeansShippedCode` | scripts/release_assembly.py:497-534 | The sealed package seals every Mach-O file and every `.app` and `.framework` directory outside the catalog and codesign's own files |
| `ReleaseAssembly.SignedPayloadIsSealed` | scripts/release_assembly.py:551-581 | Signing a payload by itself leaves every piece of code in it with a valid seal, and finds something to sign exactly when it holds code |
| `ReleaseAssembly.DeclaredLocationsAreSeparate` | scripts/release_assembly.py:480-494 | The declared locations lie apart from each other and are not named like code bundles |
| `ReleaseWorkspace.Workspace.SignTree` | scripts/release_assembly.py:551-581 | Signs exactly the signable nodes in order, leaves all their seals valid, and rejects exactly when there are none |
| `ReleaseWorkspace.Workspace.WriteManifest` | scripts/build_release_package.py:234-266 | A manifest taken now describes the payload's bytes as they are now, changes nothing else and breaks no seal inside it |
| `ReleaseWorkspace.Workspace.StageBrowser` | scripts/build_release_package.py:269-303 | Sign, re-take the inventory, promote it: both browser manifests describe the signed bytes, all other files are the staged ones; nothing outside the staging changes |
| `ReleaseWorkspace.Workspace.BuildExecutor` | scripts/build_release_package.py:306-332 | Sign, then inventory: the Executor manifest describes the signed bytes |
| `ReleaseWorkspace.Workspace.BuildApplication` | scripts/build_release_package.py:335-356 | The bundle as the bundler makes it, the signed Executor in its place and every other place as the bundler left it |
| `ReleaseWorkspace.Workspace.InstallResource` | scripts/release_assembly.py:303-343 | A resource is copied to its place byte for byte, rejected exactly when it is not staged or the place is taken; no other place changes |
| `ReleaseWorkspace.Workspace.RequireResources` | scripts/release_assembly.py:254-276 | Accepted exactly when each named resource is there and each of its required files is one with contents |
| `ReleaseWorkspace.PresentMeans` | scripts/release_assembly.py:266-273 | Which required files count: files with contents, found over links too; no directory and no empty file |
| `ReleaseWorkspace.Workspace.InstallVideo` | scripts/release_assembly.py:279-343 | The three video resources land in their places, exactly when all are staged with all required files and all places are free |
| `ReleaseWorkspace.Workspace.InstallCatalog` | scripts/release_assembly.py:291-343 | So does the catalog, exactly when it is staged with its required files and its place is free |
| `ReleaseWorkspace.Workspace.SignInOrder` | scripts/build_release_package.py:372-374 | Installed resources are signed one after another; only they change, in their signatures only, and the first one without code ends it |
| `ReleaseWorkspace.Workspace.SignVideo` | scripts/build_release_package.py:359-384 | The video resources are sealed in place and the media toolchain's re-taken manifest describes its signed bytes |
| `ReleaseWorkspace.Workspace.InstallBrowser` | scripts/release_assembly.py:80-117 | The staged browser is installed as it is, exactly when its place is free and it meets the demands of `verify_distribution` besides the inventory; the inventory itself never rejects it |
| `ReleaseWorkspace.OuterSealKeepsPayloads` | scripts/release_assembly.py:513-516 | The derived exclusions keep the outer signing out of every declared payload |
| `ReleaseWorkspace.Workspace.SealApplication` | scripts/build_release_package.py:426-444 | The outer seal changes no payload and leaves the bundle and all code outside the catalog validly sealed |
| `ReleaseWorkspace.Workspace.Assemble` | scripts/build_release_package.py:387-444 | The whole macOS sequence: it succeeds exactly when the payloads carry code, the resources are staged whole, the places are free and the signed browser meets the demands of `verify_distribution` besides the inventory; then every payload holds the files staged for it, the browser, Executor and media manifests list every binary and other file (and link, where links are listed) in their place as it is, and every binary and bundle outside the catalog is validly sealed |
| `EmbeddedDistribution.GenerateManifest` | scripts/build_embedded_chromium_staging.py:275-285 | The manifest of the tree below the root in path order, executable flags included; rejected exactly when the root is no directory |
| `EmbeddedDistribution.ManifestIsDeterministic` | scripts/build_embedded_chromium_staging.py:275-285 | The manifest depends on the tree below the root only, not on the order the walk yields it |
| `EmbeddedDistribution.ManifestHolds` | scripts/build_embedded_chromium_staging.py:256-272 | The entries are exactly those of the files and links |
| `EmbeddedDistribution.ManifestListsTheTree` | scripts/build_embedded_chromium_staging.py:256-285 | What the manifest lists, in plain terms: each file below the root with path, digest, size and executable flag, each link with path and target, nothing else |
| `PosixPaths.SymlinkTargetIsConfined` | scripts/build_embedded_chromium_staging.py:58-78 | The loop decides the lexical confinement rule |
| `PosixPaths.ConfinedExactly` | scripts/build_embedded_chromium_staging.py:67-78 | The rule for a link at `p` and a target that goes up `k` times and down over `q`: confined exactly if it stays below the link's own top entry and that is the root, or leaves it at the base and comes back into the root by name |
| `PosixPaths.ConfinedExactlyFromRoot` | scripts/build_embedded_chromium_staging.py:67-78 | The same for a link named by an absolute path, whose root is one more entry to leave |
| `PosixPaths.ConfinedExactlyAtTop` | scripts/build_embedded_chromium_staging.py:67-78 | And for one at the file system's root or without a name |
| `PosixPaths.TwoSlashesAlone` | scripts/build_embedded_chromium_staging.py:67-70 | Two slashes are a root of their own, as pathlib reads them |
| `PosixPaths.DotBetweenSlashes` | scripts/build_embedded_browser_distribution.py:378 | A dot between slashes spells the same place |
| `PosixPaths.DetoursDoNotMatter` | scripts/build_embedded_chromium_staging.py:70-77 | A name and the step back from it can be left out of a target, so that rule decides every target |
| `PosixPaths.NoAbsoluteTarget` | scripts/build_embedded_chromium_staging.py:67-69 | Empty and absolute targets are never confined |
| `PosixPaths.ConfinedMeans` | scripts/build_embedded_chromium_staging.py:67-78 | A confined target never climbs above the distribution base; a link from below the root that never leaves it is always confined |
| `PosixPaths.ConfinedFromBase` | scripts/build_embedded_chromium_staging.py:67-78 | A target that comes back to the base is judged by its rest alone |
| `PosixPaths.WalkFailsExactlyAboveBase` | scripts/build_embedded_chromium_staging.py:70-77 | The walk fails exactly when a prefix of the target climbs above the base |
| `EmbeddedDistribution.CheckEntry` | scripts/build_embedded_browser_distribution.py:370-400 | One manifest entry is accepted exactly when the named file or link is there with the recorded digest and size, or target and confinement |
| `EmbeddedDistribution.CheckEntries` | scripts/build_embedded_browser_distribution.py:366-400 | The loop over the entries: the set of paths and the counts it collects |
| `EmbeddedDistribution.CheckTree` | scripts/build_embedded_browser_distribution.py:406-414 | The walk accepts exactly when every non-directory is listed and none has a forbidden name |
| `EmbeddedDistribution.VerifyDistribution` | scripts/build_embedded_browser_distribution.py:351-421 | The inventory checks as a whole: accepted exactly when all of them hold, with the counts of the entries |
| `EmbeddedDistribution.AcceptedMeans` | scripts/build_embedded_browser_distribution.py:351-418 | When a tree is accepted, in plain terms: no excluded component, every entry right about the file or confined link that is there, nothing unknown beside the root, every file and link below it named by an entry and free of forbidden words, the executable there |
| `EmbeddedDistribution.AcceptedPathsAreTreePaths` | scripts/build_embedded_browser_distribution.py:363-414 | Every accepted manifest lists everything below the root; its paths are exactly the tree's if and only if each is spelled plainly |
| `EmbeddedDistribution.AcceptedMeansUnchanged` | scripts/build_embedded_browser_distribution.py:363-414 | If the manifest generated from one tree is accepted on another, they hold the same files, bytes and links below the root (digests of equally long files not colliding); directories cannot be replaced by links |
| `EmbeddedDistribution.UnchangedIsAccepted` | scripts/build_embedded_browser_distribution.py:351-418 | A tree unchanged below the root since `generate_manifest` is accepted if and only if the tree itself may ship: the inventory checks never reject it |
| `EmbeddedDistribution.ModesAreNotVerified` | scripts/build_embedded_browser_distribution.py:393-418 | Two trees that differ in executable flags only, the declared executable's apart, get the same verdict |
| `DistributionReport.ReportCountsTheTree` | scripts/build_embedded_browser_distribution.py:399-421 | The reported counts are the tree's own if and only if every file entry is spelled plainly and no file is listed twice |
| `DistributionReport.DoubledSlashIsAccepted` | scripts/build_embedded_browser_distribution.py:377-378 | The family of inputs that fails: an extra entry with a doubled slash in its path is accepted and counted again |
| `SourceIdentity.RecordIsPrefixFree` | scripts/release_identity.py:99-102 | The three framed fields of a record can be read back in only one way |
| `SourceIdentity.RecordParts` | scripts/release_identity.py:99-102 | Where the kind, the name and the value of a record stand, each after its length |
| `SourceIdentity.KindsAreSpelled` | scripts/release_identity.py:259-297 | What the five kinds are called in the stream |
| `SourceIdentity.SubmoduleValueParts` | scripts/release_identity.py:258-263 | A submodule is recorded as its commit, a zero byte and its own identity |
| `SourceIdentity.RecordsDetermineEntries` | scripts/release_identity.py:226-299 | Equal streams of records mean the same names in the same order with the same kinds and values |
| `SourceIdentity.IdentityDeterminesSource` | scripts/release_identity.py:200-300 | Equal identities mean the same files, executable flags, link targets, missing entries and submodule commits, at every depth of nested submodules (digests of the repositories involved not colliding) |
| `WorkingTree.SourceNames` | scripts/release_identity.py:114-126 | The names in sorted order, whatever order git lists them in |
| `WorkingTree.ReadEntry` | scripts/release_identity.py:161-299 | One name: what is recorded for a submodule, file, link or missing entry, and when it is rejected, by where a link leads too |
| `WorkingTree.RepositorySourceFacts` | scripts/release_identity.py:200-300 | The recursive loop computes exactly the facts of the repository, and rejects exactly those it must |
| `WorkingTree.EqualFactsEqualSources` | scripts/release_identity.py:200-300 | Two accepted repositories have equal facts if and only if commit and sources are equal |
| `WorkingTree.FactsMeanAgreement` | scripts/release_identity.py:200-300 | Two accepted repositories have equal facts if and only if they have the same commit, reviewed names and submodule commits, agree inside each submodule, and `lstat` finds the same node, executable flag, bytes and link target included, or none, at every other reviewed name |
| `WorkingTree.AcceptedExactly` | scripts/release_identity.py:200-299 | A repository is accepted if and only if its index hides nothing, something is reviewed and at each name there is a clean submodule at its commit, a file, a link into the inventory, or a deleted tracked name |
| `WorkingTree.WhatIsReviewed` | scripts/release_identity.py:114-126 | Which names are reviewed: everything tracked, and untracked files and links that are not ignored, ledgers aside |
| `FileTrees.LstatPlain` | scripts/release_identity.py:263-271 | Without links above a name, `lstat` simply looks it up; a file above it is an error |
| `FileTrees.EnterIsWalk` | scripts/release_identity.py:263-271 | Over links, `lstat` looks in the directory to which all components before the last lead from the root |
| `FileTrees.WalkThroughLink` | scripts/release_identity.py:161-197 | A link leads where its target leads from the directory it stands in; an absolute or too deeply nested one is refused |
| `FileTrees.PartsOfTarget` | scripts/release_identity.py:161-197 | A target is cut at its slashes, empty parts and dots dropped |
| `FileTrees.PartsOfLastName` | scripts/release_identity.py:161-197 | Its last part is kept likewise |
| `FileTrees.WalkThereAndBack` | scripts/release_identity.py:161-197 | Into a directory and back up is nowhere else |
| `WorkingTree.LinkAcceptedMeans` | scripts/release_identity.py:161-197 | Accepted links are relative and lead to a reviewed name, or to a directory with a reviewed name below it |
| `TreeEdits.Snapshot.RemoveEntry` | scripts/release_identity.py:303-311 | Removes what is found at the end of the way to the name, links on the way followed, and all below it; a way that leads nowhere is fine, one that cannot be followed is an error |
| `TreeEdits.RemovedPlain` | scripts/release_identity.py:303-311 | Without links on the way: removes the entry and all below it, and fails exactly when a file stands in the way |
| `TreeEdits.Snapshot.CopyEntry` | scripts/release_identity.py:314-325 | Removes what is there, makes the directories on the way and writes the file or link; fails on anything else |
| `TreeEdits.ReplacedPlain` | scripts/release_identity.py:314-325 | Without links on the way: exactly the entry and the directories above it are new, everything below it is gone, and it fails exactly when a file stands in the way |
| `TreeEdits.ReplacedThroughLinks` | scripts/release_identity.py:314-325 | Writing over a file that is found over links changes the file at the end of the way and nothing else |
| `SnapshotMirror.RemoveObsolete` | scripts/release_identity.py:390-403 | After the removal nothing of the checkout is left but ledgers and names still reviewed |
| `SnapshotMirror.MirrorSubmodule` | scripts/release_identity.py:328-356 | The copy of a clean submodule: it works exactly when the submodule has none of its own and a remote named `origin`, and has the same source exactly when its links carry |
| `SnapshotMirror.MirrorEntry` | scripts/release_identity.py:404-443 | One turn of the copying loop is one step of the replay |
| `SnapshotMirror.StepPlain` | scripts/release_identity.py:404-443 | The step of a name below no other works exactly when no ledger file blocks the name; then one more name is as reviewed and nothing else is disturbed |
| `SnapshotMirror.StepBelowLink` | scripts/release_identity.py:404-443 | The step of a name below a link that leads to the same file already changes nothing |
| `TreeEdits.RewriteIsIdle` | scripts/release_identity.py:314-325 | Copying a file to where it already is, over any links on the way, gives back the same tree |
| `SnapshotMirror.MirrorNames` | scripts/release_identity.py:404-443 | The whole loop: it works exactly when the replay of the names does and every submodule can be copied, and leaves what the replay leaves |
| `SnapshotMirror.ReplayPlain` | scripts/release_identity.py:404-443 | Where the links come first, the replay works exactly when no ledger file blocks a name below no other, and every name is then as reviewed |
| `SnapshotMirror.ReviewedNamesArePrefixFree` | scripts/release_identity.py:226-299 | In an accepted repository a reviewed name lies below another only if that other one is a link |
| `SnapshotMirror.MirroredHasSameSource` | scripts/release_identity.py:444-445 | Once every name is mirrored, the copy has the reviewed source if and only if every reviewed link, in submodules too, leads to something reviewed in the copy as well |
| `SnapshotMirror.SnapshotIsFaithfulExactly` | scripts/release_identity.py:390-445 | For any commit, index and working tree where the links come first: there is a snapshot exactly when no ledger file blocks a reviewed name; it then is the predicted one, and has the reviewed source exactly when every link carries |
| `SnapshotMirror.MaterializeRepositorySnapshot` | scripts/release_identity.py:359-450 | For every repository, links in the way included: it returns the replayed snapshot exactly when the sources are the expected ones, the submodules can be copied, the replay works and the replayed snapshot has the expected facts; otherwise nothing |
| `SnapshotMirror.SuccessMeans` | scripts/release_identity.py:359-450 | When that is, from the repository alone, where each reviewed name below a reviewed link leads to the same file in what is copied before it: exactly on expected sources, no blocking ledger file, submodules with an `origin` and none of their own, and links that all carry; the snapshot is then the predicted one, with a ledger as committed unless a reviewed name replaces it |
| `SnapshotMirror.SuccessWithoutLinksInTheWay` | scripts/release_identity.py:359-450 | The same exact condition for every repository with no reviewed name below a link |
| `SnapshotMirror.LinkThroughUnreviewedFails` | scripts/release_identity.py:161-197 | A family of inputs that fails: a reviewed link that leads through something the snapshot lacks, say an ignored link |
| `IgnoredLink.AcceptedYetCopyIsRejected` | scripts/release_identity.py:161-197 | One of them: the identity accepts it, every name is copied, the identity rejects the copy |
| `LinkedDirectory.AcceptedYetNotMaterialised` | scripts/release_identity.py:404-443 | An input with a link in the way that fails: the identity accepts it, the copying loop cannot finish |
| `DirectoryFirst.MirroredThroughALink` | scripts/release_identity.py:404-443 | With the link's directory earlier in the order the same input is mirrored |
| `Trademark.TrademarkRuleset` | scripts/build_motion_catalog_release.py:92-117 | The rules from the lock: tokens sorted, longer forms first; rejected exactly when a token to replace has no forms |
| `Trademark.RulesetMeans` | scripts/build_motion_catalog_release.py:92-117 | The ruleset in plain terms: replacements token by token in text order, longer forms first; every form of every token scanned for; items and keep list protected, longer names first |
| `Trademark.RulesetReplacesOnlyWhatItScans` | scripts/build_motion_catalog_release.py:100-112 | Every pattern that is replaced is also scanned for |
| `Trademark.FoundAreMatches` | scripts/build_motion_catalog_release.py:120-124 | Found places are matches, in order, without overlap |
| `Trademark.EveryMatchIsCovered` | scripts/build_motion_catalog_release.py:120-124 | No match is missed: each is found or starts inside a found one |
| `Trademark.MatchInContext` | scripts/build_motion_catalog_release.py:96-99 | What a match is: the literal's characters but for case, and for bounded patterns no alphanumeric character on either side |
| `Trademark.NoMatchBeyondTheEnd` | scripts/build_motion_catalog_release.py:96-99 | A match lies inside the text |
| `Trademark.ProtectedExactly` | scripts/build_motion_catalog_release.py:120-128 | A range is protected exactly when some found occurrence of a protected name goes at least as far both ways |
| `Trademark.UnguardedMeans` | scripts/build_motion_catalog_release.py:132-143 | A match is replaced exactly if its range is not protected |
| `Trademark.LeftoversExactly` | scripts/build_motion_catalog_release.py:146-155 | The leftovers are exactly the spellings of the unprotected found matches of the scanned patterns |
| `Trademark.ApplyRule` | scripts/build_motion_catalog_release.py:132-143 | The loop with its cursor computes one pass |
| `Trademark.PassIsExact` | scripts/build_motion_catalog_release.py:132-143 | A pass replaces the hits and keeps all other text in order, with exact length accounting |
| `Trademark.HitsAreExact` | scripts/build_motion_catalog_release.py:127-138 | The hits are exactly the unprotected found matches, and every match is a hit, protected, or overlapped by an earlier one |
| `Trademark.ApplyTrademark` | scripts/build_motion_catalog_release.py:131-144 | All passes, one after another |
| `Trademark.AcceptedTextIsFixed` | scripts/build_motion_catalog_release.py:131-155 | A text without leftovers is a fixed point of the whole rewriting |
| `CatalogComposition.ComposedPathFitsAsset` | scripts/build_motion_catalog_release.py:158-171 | A composed path stays in the source's directory, always carries the suffix of the asset it holds, and keeps the source's name if that is unreferenced and the suffixes agree |
| `PosixNames.SuffixOfMeans` | scripts/build_motion_catalog_release.py:163-167 | A suffix starts at the last dot of the last name if there is more than dots before it |
| `CatalogComposition.BuildMapping` | scripts/build_motion_catalog_release.py:355-368 | The overlay rules become a mapping exactly when each names a contract file and a registered asset and no file twice |
| `CatalogComposition.ReferenceIsSeen` | scripts/build_motion_catalog_release.py:347-365 | A source path named in one of the item's texts counts as referenced |
| `CatalogComposition.ReferenceRewritesMean` | scripts/build_motion_catalog_release.py:381-389 | The reference rewrites are those of the replaced files with another path, longer source paths first |
| `Texts.ContainsMeans` | scripts/build_motion_catalog_release.py:410-412 | What it is for a text to name a file: the name occurs somewhere in it |
| `Texts.ReplaceAllWithoutMatch` | scripts/build_motion_catalog_release.py:407-408 | Rewriting references leaves a text alone that does not name the replaced file |
| `Texts.ReplaceAllExchanges` | scripts/build_motion_catalog_release.py:407-408 | A reference rewrite keeps all other text and puts the composed path in place of each occurrence found from the left |
| `CatalogComposition.CheckOwners` | scripts/build_motion_catalog_release.py:373-379 | The check passes exactly when no two owners share a composed path |
| `CatalogComposition.ComposeText` | scripts/build_motion_catalog_release.py:406-418 | The rewritten text, exactly when it names no replaced file and keeps no trademark |
| `CatalogComposition.WriteFiles` | scripts/build_motion_catalog_release.py:391-421 | The first contract path of each destination is written, the others are skipped; fails exactly when one written text is not clean |
| `CatalogComposition.WriteOnceIsSound` | scripts/build_motion_catalog_release.py:373-404 | After the ownership check, every contract path's destination holds its intended content if and only if the contents agree wherever two paths meet unseen by it: two spellings of one place, or an asset that forges the `source:` owner of a file at its own place |
| `CatalogComposition.OwnershipCheckSuffices` | scripts/build_motion_catalog_release.py:369-404 | What the check is for: with it, no place spelled in two ways and no `source:` identifier, skipping repeated destinations loses nothing |
| `CatalogComposition.UncheckedMeetingLosesAFile` | scripts/build_motion_catalog_release.py:369-404 | Without it something is lost: two paths with one destination and different contents, which the check rejects where nothing is forged or respelled |
| `CatalogComposition.PlainItemsAreSound` | scripts/build_motion_catalog_release.py:334-436 | For every item with plainly spelled paths and without `source:` identifiers, where different names are different files: what passes the check holds its own content everywhere |
| `CatalogComposition.ComposedPathIsPlain` | scripts/build_motion_catalog_release.py:158-171 | A plain source path stays plain when an asset is put in its place |
| `CatalogComposition.StepsUp` | scripts/build_motion_catalog_release.py:399-400 | A step up in a destination leaves the directory before it |
| `CatalogComposition.ForgedOwnerLosesAFile` | scripts/build_motion_catalog_release.py:377-379 | One family of inputs that fails: an asset named `source:` and the file it lands on; nothing rejects it |
| `CatalogComposition.ForgedItemIsComposed` | scripts/build_motion_catalog_release.py:334-436 | One of them as an item: valid, composed without a rejection, and the staged file lost |
| `CatalogComposition.RespelledPathLosesAFile` | scripts/build_motion_catalog_release.py:373-404 | The other one: two spellings of one place, one with a doubled slash; nothing rejects it but an unclean text |
| `CatalogComposition.ComposedTextsAreClean` | scripts/build_motion_catalog_release.py:405-418 | Every composed text names no replaced file and no trademark, and rewriting it again changes nothing |
| `CatalogComposition.ComposeItem` | scripts/build_motion_catalog_release.py:334-436 | The whole composition: exactly when it fails, exactly what it writes, and exactly when every destination holds its own content |
| `ConfigurationMerge.MergeConfiguration` | scripts/release_configuration.py:209-216 | The loop over the overlay computes the merge |
| `ConfigurationMerge.MergeIsMergePatchExactly` | scripts/release_configuration.py:209-216 | For every base, the merge is MergePatch of section 2 of RFC 7396 if and only if the overlay has no null object member |
| `ConfigurationMerge.MergeAt` | scripts/release_configuration.py:209-216 | What the merge holds at every path: the overlay's value merged over the base's, nothing below an overlay leaf, the base elsewhere |
| `ConfigurationMerge.ShadowedMeans` | scripts/release_configuration.py:209-216 | Nothing of the base is left below a path exactly when the overlay holds something that is no object on the way to it |
| `ConfigurationMerge.MergeIsIdempotent` | scripts/release_configuration.py:209-216 | Merging the same overlay twice changes nothing more |
| `DeploymentProtocol.OneDeployerInside` | scripts/deploy_customer_demo.py:389-401 | With any number of deployers, failures, interrupts and crashes, at most one is past `acquire_lock` |
| `DeploymentProtocol.IngressComesLast` | scripts/deploy_customer_demo.py:464-488 | In every run a request to start ingress comes directly after the same deployer's lock, migration, Control Plane start, healthy poll and isolation check, with nobody else's logged action in between (others may be refused meanwhile) |
| `DeploymentProtocol.ReleaseComesAfterStop` | scripts/deploy_customer_demo.py:536-545 | A lock release ends one deployer's own trace: after an ordinary failure past the Control Plane start the stop request comes before it, a success is verified, and an interrupted deployment has requested no stop |
| `DeploymentProtocol.LockIsAbandonedExactly` | scripts/deploy_customer_demo.py:389-401 | From a start without a lock file, everybody is locked out if and only if some deployer crashed inside, could create but not write the lock file, or could not remove it |
| `DeploymentProtocol.AbandonedLockStaysForever` | scripts/deploy_customer_demo.py:396-401 | From then on nobody ever gets in again and nothing is done any more |
| `DeploymentProtocol.AnyDeployerCanCrash` | scripts/deploy_customer_demo.py:412-545 | The runs include every crash: any deployer that is not over can die in any state |
| `DeploymentProtocol.AnyDeployerCanBeInterrupted` | scripts/deploy_customer_demo.py:536-545 | And every interrupt: any deployer past `acquire_lock` can go straight to the release |
| `DeploymentCall.Host.WaitForControlPlane` | scripts/deploy_customer_demo.py:294-313 | Polling succeeds exactly when a healthy poll comes before the deadline with only waiting ones before it |
| `DeploymentCall.Host.StartControlPlane` | scripts/deploy_customer_demo.py:429-476 | Image checks, migration, start: `started` exactly when all three worked |
| `DeploymentCall.Host.ServeTraffic` | scripts/deploy_customer_demo.py:482-527 | Isolation check, ingress start and verification, with what each leaves in the log |
| `DeploymentCall.Host.Deploy` | scripts/deploy_customer_demo.py:412-545 | One whole call: what it does, how it ends and what becomes of the lock file for every way the outside world answers; each path is a run of the step system |
| `ShotStructure.PlanShots` | scripts/motion_shot_structure.py:80-97 | The shots lie end to end from zero; rejected exactly when there are none or one is too short |
| `ShotStructure.TilesCoverTheFilm` | scripts/motion_shot_structure.py:80-97 | The table covers the film without gap or overlap |
| `ShotStructure.MidpointsIncrease` | scripts/motion_shot_structure.py:75-77 | Midpoints are strictly increasing, each strictly inside its own shot |
| `ShotStructure.RequireDeclaredShotBoundaries` | scripts/motion_shot_structure.py:100-149 | Accepted exactly when the tables are well shaped, every prefix sum drifts by at most the tolerance and no shot is too short |
| `ShotStructure.StartCheckRepeatsEndCheck` | scripts/motion_shot_structure.py:129-146 | With the comparisons of the starts and without them, the comparisons accept the same tables: those within tolerance at every boundary |
| `ShotStructure.DriftBounds` | scripts/motion_shot_structure.py:109-112 | The whole film drifts by at most the tolerance, one shot by at most twice |
| `ShotStructure.DriftBoundsAreReached` | scripts/motion_shot_structure.py:109-112 | Both bounds are attained at every tolerance |
| `ShotStructure.LengthsAloneAreNotEnough` | scripts/motion_shot_structure.py:109-112 | Comparing lengths only would let the drift grow with the number of shots |
| `ShotStructure.RefuseDuplicateShots` | scripts/motion_shot_structure.py:152-176 | Accepted exactly when every shot is sampled and the digests are pairwise distinct |

## Left out

- Backend ledger, outbox, authorization and Executor protocols: their source is not part of this model.
- Downloads, archive extraction, notarisation, disk images, Windows packaging, registry and handle calls, the browser
  launch and Playwright: foreign calls; only their place in a sequence is kept.
- The document checks before the inventory loop (schema, target, runtime versions, licences): one-branch checks.
- `install_packaged_resources` and `install_and_seal`: what they remove again after a rejection.
- ReleaseWorkspace.Workspace.InstallBrowser: takes the other demands of `verify_distribution` as a predicate; they are
  modelled in `Distribution.dfy`, on trees without signatures.
- Entitlements, certificates and the hardened runtime flags of `sign_tree`: they do not influence order or coverage.
- Real resolution of symbolic links in a distribution: confinement is lexical in the code too.
- SnapshotMirror.SuccessMeans: does not cover a reviewed name below a ledger link, nor one below a reviewed link that is
  itself a link or that leads elsewhere in what is copied before it; MaterializeRepositorySnapshot gives the replay.
- The commit's ancestry. Index visibility flags and unmerged entries are one bit of a repository, `settled`.
- `_is_release_input`: the proofs hold for every rule of which names are release inputs.
- Untracked repositories inside the working tree, and files below a submodule's directory that belong to the outer
  repository.
- The decoding of staged texts.
- Regular expressions beyond literals: the only patterns used are escaped literals, with or without boundaries.
- Masked frames from a server, fragmentation and the UTF-8 decoding of a received text: the client ignores the first
  two and replaces what it cannot decode.
- Floating point: shot lengths are exact numbers, so rounding at the shortest permitted shot is not covered.
- Stability of a cache path after a call returned, while another caller has other inputs: the code does not promise it.
- Package size windows, resource name filters, contract field checks, asset generation and user interface code.
