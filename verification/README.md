# Verified models of dev-alchemy's kernels

dev-alchemy builds, pulls, deploys and provisions virtual machines. This project models the
parts of it whose correctness is not visible from reading one function, and proves what each
part is for. `dafny verify dfyconfig.toml` (Dafny 4.11) checks every module.

| file | what it models |
|---|---|
| `BuildScheduler.dfy` | parallel builds: semaphore channel, WaitGroup, mutex-guarded error list, cancellation |
| `CappedProgress.dfy` | the lock-free byte counter shared by concurrent readers |
| `FileSystem.dfy`, `Promotion.dfy` | replacing N cached artifacts with backups and reverse rollback |
| `ArtifactLayout.dfy`, `Manifest.dfy`, `Artifacts.dfy` | artifact naming, manifest checks, and `Pull` as their composition |
| `LibvirtLifecycle.dfy` | create, start, stop and destroy of a libvirt VM |
| `LineLogger.dfy` | incremental logging of a growing, possibly UTF-16, output file |
| `PasswordGenerator.dfy` | rejection sampling, Fisher-Yates shuffle, password generation |
| `SubnetProbe.dfy` | enumeration of the addresses of a host's network |
| `ShellQuoting.dfy` | shell quoting against a lexer for section 2.2 of the POSIX.1-2017 Shell Command Language |
| `SshWire.dfy` | the RSA key blob against a decoder for section 5 of RFC 4251 and section 6.6 of RFC 4253 |
| `Paths.dfy`, `RoleSources.dfy` | lexical path cleaning, relative names, Ansible source directories |
| `GoStrings.dfy`, `Sequences.dfy`, `Wrappers.dfy` | trimming, sums and counts, result types |

## How the outside world appears

* **Interleavings.** `CappedProgress` and `BuildScheduler` are step machines: one atomic action
  of one thread per step. A theorem over all schedules or runs covers every interleaving. Appending
  to the shared error list is four actions (lock, read, write, unlock), so lost updates are
  excluded by the mutex and not by the model.
* **Failing operations.** Every operation of `FileSystem` may fail without effect (a failing
  `Write` may leave any content); `faults` counts such failures, `failures` lists them, and `history` holds the contents
  after every change so that contracts can speak about each intermediate state. In
  `LibvirtLifecycle` each external call is a tick at which an oracle lets the call work, fail, or
  succeed without output, and another lets the guest switch itself off. The environment never
  starts a guest, a failed command leaves the domain as it was, and a failed disk conversion may
  leave a partial disk.
* **Inputs that come from elsewhere.** Clock readings, random bytes, the manifest a reference
  stands for, the result of asking the user, directory contents and command outcomes are
  parameters. A registry copy that succeeds writes each layer's blob under its title; both
  resolutions of the reference in `Pull` give the same manifest.
* **Strings.** In `LineLogger`, where bytes matter, a Go string is one character below 256 per byte.
  Elsewhere it is a sequence of characters.

## Results where the code and its promise differ

* The comment above `runParallelBuilds` says that no goroutine starts after cancellation. The
  `select` does not ensure this; `StartsAfterCancelExactly` states precisely in which cancelled
  states one still can, and `StartsAfterCancel` gives one. What holds is `CancelStopsBuilds`: only
  builds whose context check had already passed still begin.
* A destroy during which nothing fails can still return an error: `virsh shutdown` and `virsh
  destroy` are refused for a domain that is not running, so a guest that switches itself off right
  before the shutdown request, or right before the forced stop, makes the forced stop fail.
  `RunDestroy` states this as an if-and-only-if; the VM is then stopped, so the next undisturbed
  destroy succeeds. `RaceHappens` gives the instance.
* Empty output of `virsh domstate` is read as the state "unknown", which counts as running, so a
  start may report success without starting anything. `RunStart` states as an if-and-only-if when
  the VM does not run after a reported success: its inspection lost its answer while the VM was not
  running. `LostAnswerStartsNothing` gives the instance.
* A poll that catches only part of a byte order mark logs that part as text and shifts the rest. For
  both UTF-16 byte orders `Utf16FilesStreamExactly` says that the logged lines are those of the final
  text if and only if no poll caught half of the mark. A UTF-8 text may begin with the very bytes that
  were caught, and `Utf8FilesStreamExactly` says that this is the one exception.
  `PartOfMarkLogged` gives an instance for each of the three marks.
* `writeSSHMPI` writes zero as one zero byte, where RFC 4251 has an empty string; the encoding is
  canonical exactly for numbers other than zero. RSA keys contain no zero.
* `probeCandidatesForHostNetwork` never ends for 0.0.0.0/32, and for no other network
  (`LoopEndsExactly`). For 255.255.255.255/32 it ends but lists every address except the host
  (`LastHostListsEverything`). These are the two networks for which adding or subtracting one wraps
  around (`WrapsExactly`); private hosts exclude both.
* `randomInt` would never end for a maximum above 256; no caller passes one.
* Parallelism zero blocks the launching loop at the first VM until it is cancelled: `ProgressExactly`
  gives the condition for every state before the return, and `NoSlotsNeverSpawn` shows that nothing is
  ever started. A negative `--parallel` value, which the command does not refuse
  (`cmd/cmd/build.go:406`), makes the creation of the channel panic before the first step; the model
  starts after that point.
* Taking the directory of the first artifact path before resolving it, as `commonArtifactParent` does,
  differs from taking it afterwards for a relative path that consists of steps up only.
  `DirBeforeResolving` gives the exact condition.

## Model

| member | source | states |
|---|---|---|
| BuildScheduler.ReachableInv | cmd/cmd/build.go:152-191 | every state of every interleaving keeps the loop, counting, mutex, error-list and call-record invariants; a read of the error list inside the lock is never stale |
| BuildScheduler.ReturnedOutcomes | cmd/cmd/build.go:152-191 | on return every VM has exactly one outcome, matching what its runner returned; there is one error per failed and per cancelled VM and no other; no slot is held, no lock is held, no runner is active |
| BuildScheduler.UncancelledCallsAll | cmd/cmd/build.go:149-152 | without cancellation each VM's runner was called exactly once, whatever the other runners returned |
| BuildScheduler.ParallelismRespected | cmd/cmd/build.go:156-175 | the channel holds one token per held slot, and active runners never exceed the parallelism |
| BuildScheduler.SomeActionEnabled | cmd/cmd/build.go:158-190 | with a positive parallelism no state before the return is stuck, also with a full channel and a cancelled context, without relying on a further cancellation |
| BuildScheduler.MeasureDecreases | cmd/cmd/build.go:158-190 | every action lowers a measure over the stages left, the return and the cancellation |
| BuildScheduler.RunsEndReturned | cmd/cmd/build.go:158-191 | no run is longer than twelve actions per VM and two more, and a run that cannot go on has returned |
| BuildScheduler.NoSlotsBlocks | cmd/cmd/build.go:156-171 | with parallelism zero and at least one VM nothing but cancelling is possible at the start |
| BuildScheduler.ProgressExactly | cmd/cmd/build.go:156-191 | in every reachable state before the return something other than a cancellation can happen if and only if there is a slot, the context is cancelled, or there is no VM |
| BuildScheduler.NoSlotsNeverSpawn | cmd/cmd/build.go:156-171 | no run with parallelism zero starts a goroutine |
| BuildScheduler.SequentialWithOneSlot | cmd/cmd/build.go:156-187 | with parallelism one the runner intervals are disjoint and start in input order |
| BuildScheduler.CancelStopsBuilds | cmd/cmd/build.go:347-354 | with the context-checking runner, builds beginning after a cancellation had already passed the check |
| BuildScheduler.BuildsBegun | cmd/cmd/build.go:347-354 | with the context-checking runner a build that is going on, or whose runner returned success, has begun exactly once; only a cancellation lets a runner fail without beginning; no other build has begun |
| BuildScheduler.UncancelledBuildsAll | cmd/cmd/build.go:347-356 | at an uncancelled return the build of every VM has begun exactly once |
| BuildScheduler.EveryOutcomePossible | cmd/cmd/build.go:152-191 | every combination of successes, failures and, after a cancellation, skipped VMs is the result of some run, except that a runner checking its context cannot succeed after a cancellation |
| BuildScheduler.StartsAfterCancelExactly | cmd/cmd/build.go:149-171 | after a cancellation a goroutine can still be started if and only if some VM is undecided or already holds its slot |
| BuildScheduler.StartsAfterCancel | cmd/cmd/build.go:149-171 | whenever there is a slot and a VM, a run that begins with the cancellation can still start a goroutine |
| CappedProgress.CounterBounded | pkg/oci/progress.go:98-120 | at every moment of every interleaving the counter stays between zero and the total, and exceeds what was reported by exactly the bytes claimed and not yet reported |
| CappedProgress.QuiescentReport | pkg/oci/progress.go:98-120 | when all calls have returned exactly min(total, positive bytes) was reported, or all of them when there is no positive total |
| CappedProgress.RetryBound | pkg/oci/progress.go:107-119 | n concurrent calls lose at most n(n-1)/2 races altogether |
| CappedProgress.Termination | pkg/oci/progress.go:107-119 | no schedule keeps n calls busy for more than n(n+2) actions |
| CappedProgress.DescriptorTotal | pkg/oci/progress.go:71-79 | the ceiling is the sum of the positive descriptor sizes |
| CappedProgress.FullTransferReportsTotal | pkg/oci/progress.go:35-79 | a transfer of exactly the announced bytes reports exactly the announced total |
| CappedProgress.CappedTransferProgress.Add | pkg/oci/progress.go:98-120 | under any interference that only raises the counter the call returns, reports exactly what it added to the counter itself, and withholds bytes only at the ceiling |
| Promotion.PromotePulledArtifacts | pkg/oci/promote.go:17-73 | everything replaced, or everything replaced but exactly the backups whose removal failed, or undone up to the listed paths, no more of them than rollback operations failed; a failing step is the first operation that failed, and a missing file the first one missing; in every state passed through each original is at its final path or its backup until all files are promoted, and nothing outside the plan changes |
| Promotion.RollbackPulledArtifacts | pkg/oci/promote.go:75-90 | restores every item it does not report, keeps the original of every item it reports, touches no staged file, and loses nothing on the way whatever operations fail |
| Promotion.RemoveBackups | pkg/oci/promote.go:64-72 | removal of every backup is tried; the new artifacts stay, and exactly the backups whose removal failed remain, with the original contents |
| Promotion.CleanAbortRestores | pkg/oci/promote.go:17-62 | after an abort whose rollback reports nothing every path but already moved staged files holds what it held, and no backup remains |
| Artifacts.SameBackupName | pkg/oci/promote.go:40 | equal backup names come from equal paths, whatever the clock readings |
| Artifacts.DecimalDenotes | pkg/oci/promote.go:40 | the digits of a clock reading denote it, so different readings give different names |
| Artifacts.PlanReady | pkg/oci/promote.go:17-40 | separate artifacts, new backup names and a new staging directory give a plan in which no two places coincide or contain each other |
| Artifacts.Pull | pkg/oci/artifacts.go:118-179 | success leaves at each expected path the blob of the layer titled with its name and changes no other path; an early error changes nothing; a rollback restores every artifact it does not report, keeps every original and touches nothing else; leftover backups hold the originals; every state on the way keeps the originals until all is pulled; paths expected twice are refused; the staging directory is gone unless its removal was tried and failed; without faults the pull succeeds exactly when the layout resolves and the manifest is acceptable |
| Artifacts.StageAndPromote | pkg/oci/artifacts.go:160-176 | the effect of download, promotion and inspection for every result and for every state passed through, and success when nothing fails |
| Artifacts.ResolveAndCheck | pkg/oci/artifacts.go:118-158 | goes on to write exactly when the layout resolves, the reference stands for a manifest and the manifest is acceptable; the first of these that fails decides the error |
| Artifacts.AcceptedDistinct | pkg/oci/manifest.go:211-246 | an accepted manifest names no path twice |
| Artifacts.InspectPulled | pkg/oci/artifacts.go:169-176 | the listed files carry the sizes of the contents at their paths |
| Artifacts.PulledContentsUnique | pkg/oci/artifacts.go:118-179 | for one manifest two successful pulls leave the same contents |
| ArtifactLayout.CommonArtifactParent | pkg/oci/layout.go:110-133 | terminates with the deepest directory containing the first path's directory and all later paths; fails exactly without paths or across volumes |
| ArtifactLayout.Widen | pkg/oci/layout.go:124-130 | the inner loop ends at the deepest directory containing both, or nowhere exactly across volumes |
| ArtifactLayout.PathWithinContains | pkg/oci/layout.go:147-162 | the test on the relative path string decides containment |
| ArtifactLayout.ArtifactRoot | pkg/oci/layout.go:93-108 | the cache directory when it contains all paths, otherwise the deepest common directory |
| ArtifactLayout.RelativeNameFollows | pkg/oci/layout.go:135-145 | a path has a name exactly when it lies strictly below the root; the name is not empty, never rises, and leads from the root to the path |
| ArtifactLayout.ResolveArtifactLayout | pkg/oci/layout.go:37-65 | every expected path is listed in order under its name; it fails exactly without paths, across volumes, or when a path would itself be the root |
| ArtifactLayout.NamesIdentifyPaths | pkg/oci/layout.go:47-62 | two files share a name exactly when they share a path |
| ArtifactLayout.MediaTypesByName | pkg/oci/layout.go:26-35 | the media type follows from how the file name ends, in any case |
| Manifest.ValidateManifestLayers | pkg/oci/manifest.go:211-246 | accepts if and only if expected names are distinct, titles are not empty, and titles with media types are a permutation of the expected ones; an error names a defect the layers have |
| Manifest.ChecksMeanSameFiles | pkg/oci/manifest.go:217-244 | the checks as coded, against the last file of a name and by counting, decide exactly that |
| Manifest.RepeatedNamesRejected | pkg/oci/manifest.go:212-238 | repeated expected names fail the checks for every manifest |
| Manifest.ValidateManifestTarget | pkg/oci/manifest.go:110-123 | accepts exactly annotations that agree with the VM in all five respects |
| Manifest.CompatibleForeignArtifact | pkg/oci/manifest.go:140-186 | accepts exactly the same guest built on the other of the macOS and Linux hosts with a named engine; the mismatch flag adds nothing |
| Manifest.OtherHostSpelled | pkg/oci/manifest.go:140-209 | that is: an Ubuntu or Windows guest, equal OS, type and architecture annotations, a named engine, and a host annotation spelling the other of Linux and macOS, in any case |
| Manifest.KnownGuests | pkg/oci/manifest.go:183-186 | Ubuntu and Windows guests may come from another host, macOS guests may not |
| Manifest.ValidateManifestForPull | pkg/oci/manifest.go:87-108 | accepts exactly fitting layers for this target, or for the other host when the user agrees; every refusal gives the true reason |
| Manifest.ValidateRemoteManifest | pkg/oci/manifest.go:61-85 | in addition the artifact type must be this tool's |
| LibvirtLifecycle.RunsStayConsistent | pkg/deploy/linux-libvirt-deploy.go:59-299 | over every run with any failures a defined domain has its complete disk and a running one is defined |
| LibvirtLifecycle.DestroyForgets | pkg/deploy/linux-libvirt-deploy.go:251-299 | a successful destroy returns to the initial state, from which the rest is a run of its own |
| LibvirtLifecycle.DefinedSinceCreate | pkg/deploy/linux-libvirt-deploy.go:145-156 | a domain exists only after a successful create with no successful destroy since |
| LibvirtLifecycle.Host.RunDeploy | pkg/deploy/linux-libvirt-deploy.go:59-157 | succeeds exactly when there is no managed disk and all seven calls work, and gives a stopped domain with a complete disk; a failure defines nothing, and after the clone the very next call removes the disk again; one failure other than that of the conversion leaves the disk as it was |
| LibvirtLifecycle.Host.RunStart | pkg/deploy/linux-libvirt-deploy.go:159-197 | succeeds exactly for a defined domain that reads as running or whose network is ready and whose start command works; after a success the VM runs unless, and only unless, the inspection of a VM not running lost its answer; it never creates or removes anything |
| LibvirtLifecycle.LostAnswerStartsNothing | pkg/deploy/linux-libvirt-deploy.go:159-178 | one lost answer makes a start of a freshly created VM report success without running it |
| LibvirtLifecycle.Host.RunStop | pkg/deploy/linux-libvirt-deploy.go:199-249 | success means stopped; a failed shutdown request or wait leads to the forced stop and is no reason to fail; undisturbed it fails exactly when the guest wins the race against the forced stop, and is stopped even then |
| LibvirtLifecycle.Host.WaitForStop | pkg/deploy/linux-libvirt-deploy.go:341-359 | reports stopped only for a stopped guest; undisturbed it reports running only after the guest stayed up through every poll |
| LibvirtLifecycle.Host.Undefine | pkg/deploy/linux-libvirt-deploy.go:268-289 | fails exactly when undefining with all metadata and undefining without both fail |
| LibvirtLifecycle.Host.RunDestroy | pkg/deploy/linux-libvirt-deploy.go:251-299 | success leaves neither domain nor disk; undisturbed it succeeds from every state, half-finished creates included, except by losing that race; each failure is that of the inspection, the stop, both ways to undefine, or the removal |
| LibvirtLifecycle.Host.Inspect | pkg/deploy/linux-libvirt-deploy.go:301-339 | a missing domain reads as missing; an existing one reads as running exactly when it runs or the output is lost |
| LibvirtLifecycle.StatesClassified | pkg/deploy/linux-libvirt-deploy.go:723-734 | every active libvirt state and lost output read as running, "shut off" does not |
| LibvirtLifecycle.DownStates | pkg/deploy/linux-libvirt-deploy.go:723-734 | every way of saying that a domain is down reads as not running, with or without the line end virsh prints |
| LibvirtLifecycle.RaceHappens | pkg/deploy/linux-libvirt-deploy.go:215-238 | a guest going down right before the shutdown request defeats that destroy and not one three ticks later |
| LineLogger.LogChunk | pkg/provision/provision_windows_local_helpers.go:270-296 | logs exactly the lines completed by the pending text and the chunk together and keeps the rest; a flush logs the rest |
| LineLogger.CollapseKeepsLines | pkg/provision/provision_windows_local_helpers.go:271 | collapsing CR LF changes neither the lines nor the rest of any text |
| LineLogger.RestCarriesOn | pkg/provision/provision_windows_local_helpers.go:270-296 | the pending part is all that has to be remembered of the text so far |
| LineLogger.LogChunks | pkg/provision/provision_windows_local_helpers.go:258-296 | for every way of cutting a text, also between CR and LF, the logged lines are those of the whole text |
| LineLogger.StreamOutput | pkg/provision/provision_windows_local_helpers.go:231-268 | the polling loop logs the lines of the text its polls hand over |
| LineLogger.FedReaches | pkg/provision/provision_windows_local_helpers.go:249-260 | what has been handed over is as long as the longest text any poll decoded to, whatever the file does |
| LineLogger.SteadyPollingLogsFinalText | pkg/provision/provision_windows_local_helpers.go:237-268 | polls of a growing file with a steady detected encoding log exactly the lines of its final decoding |
| LineLogger.MarkedFilesStreamExactly | pkg/provision/provision_windows_local_helpers.go:237-310 | for a growing file with any of the three marks the logged lines are those of the final text if and only if the part of the mark that was read first, if any, begins that text |
| LineLogger.Utf16FilesStreamExactly | pkg/provision/provision_windows_local_helpers.go:237-310 | for both UTF-16 byte orders that means: if and only if no poll caught half of the mark |
| LineLogger.Utf8FilesStreamExactly | pkg/provision/provision_windows_local_helpers.go:237-316 | for UTF-8: if and only if no poll caught a part of the mark, or the text begins with the part caught last |
| LineLogger.PartOfMarkLogged | pkg/provision/provision_windows_local_helpers.go:249-316 | with each of the three marks, a poll that catches its first byte makes the logged lines wrong |
| LineLogger.LinesKeepSolids | pkg/provision/provision_windows_local_helpers.go:270-296 | cutting and trimming keep every byte that cannot belong to white space, in order |
| LineLogger.LinesSplit | pkg/provision/provision_windows_local_helpers.go:270-296 | the lines of a text with a CR or LF in it are those of its two sides |
| LineLogger.LinesOfOne | pkg/provision/provision_windows_local_helpers.go:279-292 | a text without one is a single line, trimmed, unless nothing is left of it |
| LineLogger.DecodeOutput | pkg/provision/provision_windows_local_helpers.go:298-323 | the decoding loop and its sampling agree with the specified encoding choice |
| LineLogger.PlainTextUnchanged | pkg/provision/provision_windows_local_helpers.go:298-323 | content without a mark and without a zero byte is taken as it is |
| LineLogger.LatinGuessed | pkg/provision/provision_windows_local_helpers.go:317-357 | unmarked UTF-16 of at least two Latin-1 characters is recognised in either byte order |
| LineLogger.SampleLooksLikeUTF16 | pkg/provision/provision_windows_local_helpers.go:325-357 | the sampling loop decides whether half of the first sixteen high bytes are zero |
| LineLogger.DecodeUTF16 | pkg/provision/provision_windows_local_helpers.go:359-379 | the index loop reads the whole units in either byte order and drops an odd last byte |
| LineLogger.StoredUnitsDecode | pkg/provision/provision_windows_local_helpers.go:359-379 | decoding gives back every stored unit sequence |
| LineLogger.MarkedTextRoundTrips | pkg/provision/provision_windows_local_helpers.go:303-310 | text of non-surrogate characters behind its mark comes back unchanged as UTF-8 |
| LineLogger.HalvesReplaced | pkg/provision/provision_windows_local_helpers.go:359-379 | half of a surrogate pair reads as the replacement character |
| PasswordGenerator.RandomSource.RandomInt | pkg/provision/provision_windows_local_helpers.go:416-432 | takes bytes up to the first one below the limit and reduces that one; fails exactly when the source has no such byte or the maximum is not positive |
| PasswordGenerator.DrawsUnbiased | pkg/provision/provision_windows_local_helpers.go:421-431 | for maxima from 1 to 256 every result has the same number of accepted bytes |
| PasswordGenerator.DrawsPossible | pkg/provision/provision_windows_local_helpers.go:422-429 | every byte is rejected exactly for maxima above 256 |
| PasswordGenerator.ShuffleInPlace | pkg/provision/provision_windows_local_helpers.go:405-411 | the loop performs, position by position, the exchanges of the choices drawn from the bytes of the source, and fails exactly when a draw does |
| PasswordGenerator.DrawnChoices | pkg/provision/provision_windows_local_helpers.go:405-431 | what is drawn are choices, and the shuffle is theirs |
| PasswordGenerator.ChoicesDraw | pkg/provision/provision_windows_local_helpers.go:405-431 | every choice sequence is drawn from some bytes |
| PasswordGenerator.ShuffledMultiset | pkg/provision/provision_windows_local_helpers.go:405-411 | the shuffle rearranges |
| PasswordGenerator.ShuffleInjective | pkg/provision/provision_windows_local_helpers.go:405-411 | different choices give different orders |
| PasswordGenerator.ShuffleReaches | pkg/provision/provision_windows_local_helpers.go:405-411 | every rearrangement is reached by some choices |
| PasswordGenerator.GeneratePassword | pkg/provision/provision_windows_local_helpers.go:381-414 | the bytes of the source determine the result; a generated password has 24 allowed characters and all four classes; only a failing source prevents one |
| PasswordGenerator.EveryStrongPasswordReachable | pkg/provision/provision_windows_local_helpers.go:391-413 | every such password is a shuffle of some draft |
| PasswordGenerator.EveryStrongPasswordComesOut | pkg/provision/provision_windows_local_helpers.go:381-432 | for every such password there are bytes from which it is generated |
| PasswordGenerator.RequiredSetsDisjoint | pkg/provision/provision_windows_local_helpers.go:382-388 | the four classes share no character |
| PasswordGenerator.AllowedCharacters | pkg/provision/provision_windows_local_helpers.go:382-388 | the classes are exactly the letters of each case, the digits and eighteen special characters, and their union is the alphabet |
| SubnetProbe.ProbeCandidatesForHostNetwork | pkg/provision/provision.go:1233-1272 | for every mask whose number is 2^32 - 2^(32-p) with p at least 1: the strictly ascending list of exactly the addresses strictly between network and broadcast of the prefix max(p, 24), without the host, at most 254; for 255.255.255.255/32 all addresses but the host; empty for all other masks and for addresses that are not IPv4 |
| SubnetProbe.BoundsPacked | pkg/provision/provision.go:1248-1256 | octet-wise masking and filling, packed, give the first and last address of the network |
| SubnetProbe.LongPrefix | pkg/provision/provision.go:1239-1246 | a mask of at least 24 leading ones has three full octets and the remaining ones in the last |
| SubnetProbe.MaskSizeExactly | pkg/provision/provision.go:1239-1242 | a four-octet mask has size (p, 32) when it is the number of p leading ones, and (0, 0) when it is no such number |
| SubnetProbe.To4Exactly | pkg/provision/provision.go:1234-1237 | an address is IPv4 exactly as four octets or as those behind ten zeros and two full octets |
| SubnetProbe.NetworkBounds | pkg/provision/provision.go:1255-1264 | adding and subtracting one stays in the 32-bit range and the range has at most 256 addresses |
| SubnetProbe.WrapsExactly | pkg/provision/provision.go:1255-1264 | adding or subtracting one leaves the 32-bit range exactly for 0.0.0.0/32 and 255.255.255.255/32 |
| SubnetProbe.LoopEndsExactly | pkg/provision/provision.go:1258-1270 | the loop variable passes the end at some round exactly when the network is not 0.0.0.0/32 |
| SubnetProbe.LastHostListsEverything | pkg/provision/provision.go:1255-1270 | for 255.255.255.255/32 the list is not the one promised but holds every address except the host |
| SubnetProbe.UnpackPack | pkg/provision/provision.go:1292-1308 | packing undoes unpacking for every 32-bit number |
| SubnetProbe.PackUnpack | pkg/provision/provision.go:1292-1308 | unpacking undoes packing for every address |
| SubnetProbe.PrivateMeansRfc1918 | pkg/provision/provision.go:1274-1290 | the octet tests are membership in the three blocks of section 3 of RFC 1918 |
| SubnetProbe.PrivateNeverWraps | pkg/provision/provision.go:1213-1218 | for the hosts the caller passes no arithmetic wraps, whatever the mask |
| SubnetProbe.ZeroHostNeverEnds | pkg/provision/provision.go:1255-1264 | for 0.0.0.0/32 no 32-bit number lies beyond the last candidate |
| ShellQuoting.BothSchemesStand | pkg/deploy/linux-libvirt-deploy.go:510-515 | both quoting schemes make one word of every NUL-free value, whatever follows, and it is the value |
| ShellQuoting.PassedThrough | pkg/deploy/linux-libvirt-deploy.go:510-515 | a value is left unquoted exactly when it is not empty and holds only letters, digits and _@%+=:,./- |
| ShellQuoting.AssembleAnsibleCommand | pkg/provision/provision.go:1876-1881 | the loop assembles the command, which the shell reads as cd, the directory, &&, ansible-playbook and the arguments |
| ShellQuoting.AnsibleCommandReads | pkg/provision/provision.go:1876-1881 | the same for all NUL-free strings, the empty argument list included |
| ShellQuoting.AnsibleCommandReadable | pkg/provision/provision.go:1881-2023 | NUL-freedom is exactly what is needed |
| SshWire.MarshalPublicKey | pkg/provision/provision_windows_local_ssh.go:387-400 | the decoder recovers the text ssh-rsa and both numbers; it fails exactly when a length exceeds 32 bits |
| SshWire.Buffer.WriteMPI | pkg/provision/provision_windows_local_ssh.go:406-416 | appends one field holding the number without extra zeros, and nothing on error |
| SshWire.Buffer.WriteBytes | pkg/provision/provision_windows_local_ssh.go:418-430 | appends the length and the bytes, and nothing on error |
| SshWire.FieldReads | pkg/provision/provision_windows_local_ssh.go:418-438 | a written field reads back, whatever follows it |
| SshWire.PayloadSigned | pkg/provision/provision_windows_local_ssh.go:406-416 | a number reads back, never as negative, and is minimal exactly when it is not zero |
| SshWire.PayloadCanonical | pkg/provision/provision_windows_local_ssh.go:406-416 | for positive numbers no other minimal string denotes the number |
| SshWire.BlobInjective | pkg/provision/provision_windows_local_ssh.go:387-400 | different keys have different blobs |
| RoleSources.AcceptedWhenInside | pkg/provision/role_sources.go:543-555 | a subdirectory is accepted exactly when it is relative and no step of its walk leaves the source |
| RoleSources.AcceptedLiesUnder | pkg/provision/role_sources.go:549-554 | an accepted path is the source followed by the plain segments of the walk |
| RoleSources.SubdirectoryTrimmed | pkg/provision/role_sources.go:544-547 | white space around a configured path does not matter, and a blank one means the source itself |
| RoleSources.SanitizeCacheName | pkg/provision/role_sources.go:638-657 | every run of other characters becomes one hyphen and separators at the edges go; the result is empty or one plain path segment, and clean names are kept |
| RoleSources.SanitizedUsable | pkg/provision/role_sources.go:638-657 | what the specified replacement gives is empty or one plain path segment without separators at its edges |
| RoleSources.SanitizedTwice | pkg/provision/role_sources.go:638-657 | sanitizing a sanitized name changes nothing |
| RoleSources.AsciiSanitized | pkg/provision/role_sources.go:638-657 | what becomes of each ASCII character between two letters |
| RoleSources.GitSourceCacheName | pkg/provision/role_sources.go:609-636 | the name is a usable segment, and there is none exactly for a configured name of which nothing is left; unnamed sources get the last URL segment and the digest |
| RoleSources.UrlNamedByLastSegment | pkg/provision/role_sources.go:618-627 | the name of an unnamed source is what stands between the last slash of its URL and ".git" or the end, slashes at the end aside |
| RoleSources.HashInputsDiffer | pkg/provision/role_sources.go:628-634 | the hashed text tells URL, ref and subdirectory apart |
| RoleSources.ResolveGitSource | pkg/provision/role_sources.go:309-342 | succeeds exactly for a URL, a usable new name, a prepared checkout and a subdirectory that is a directory inside it; the checkout is a new direct child of the cache root and the role path lies under it |
| RoleSources.ResolveGitSources | pkg/provision/role_sources.go:81-88 | in one run all checkouts are distinct direct children of the cache root, with every path under its own |
| Paths.CleanIdempotent | pkg/provision/role_sources.go:549 | a cleaned path is clean and denotes the same segments |
| Paths.RelRises | pkg/oci/layout.go:135-161 | a relative path rises exactly when the base does not contain the target |
| Paths.ResolveValid | pkg/oci/layout.go:49 | resolving any string gives an absolute clean path |
| Paths.DirBeforeResolving | pkg/oci/layout.go:115 | the directory of a path is the same before and after resolving it unless the path is relative with steps up only and the current directory is not that close to the root |
| GoStrings.TrimSpaceCuts | pkg/provision/provision_windows_local_helpers.go:280 | trimming removes white space on both sides only and leaves none at either edge |
| GoStrings.TrimCuts | pkg/provision/role_sources.go:656 | trimming a set of characters removes those on both sides only and leaves none at either edge |

## Left out

- MakeDirectories: parent directories created during a promotion are not recorded; the code does not remove them on rollback.
- FileSystem: entries are whole artifacts; a partly removed directory tree after a failed removal, symbolic links and permissions are not modelled.
- CopyArtifact: the registry client, its progress callbacks, digests and the second resolution of the reference are represented by their assumed effect.
- Push, manifest annotations for upload, reference parsing and TLS set-up: thin calls into libraries.
- int64 overflow of descriptor sizes: the counter itself never exceeds its total, so only the initial sum could overflow.
- Windows path syntax: volumes are modelled, backslashes and case-insensitive comparison are not; role sources use slashes.
- ToLower: exact for comparison with ASCII words only; case folding of other letters in cache names is not modelled, and beyond ASCII the letter table is a parameter.
- GitSourceCacheName: the hash is a given function.
- CommonArtifactParent: takes resolved paths, so it does not follow the code for a first path made of steps up only (see `DirBeforeResolving`).
- RunStart: the output of a command that works is taken to be what virsh documents; only its complete loss is modelled.
- Local role sources, playbook search, YAML loading and home-directory expansion: library calls around the modelled path check.
- LineLogger: log prefixes, timers and file errors other than an unreadable poll; halves of surrogate pairs become U+FFFD one by one, as in the code, so the round trip excludes them.
- The guess whether an unmarked file is UTF-16 is modelled as coded; it is shown right for text without zero bytes and for Latin-1 text, no claim is made beyond.
- SubnetProbe: printing addresses, deduplication over interfaces, and the choice of interfaces.
- RunDeploy: the arguments of virt-install and the text of errors and repair hints.
- polls: the number of polls that fit into the stop timeout is an arbitrary function of when the wait begins.
- AssembleAnsibleCommand: translating Windows paths to Cygwin form happens before and is not modelled; PowerShell quoting is left out.
- MarshalPublicKey: base64 and key generation.
- The Hyper-V, VirtualBox, Tart and UTM lifecycles: the libvirt machine has the same shape with richer state.
- Command-line flags, tables, prompts and build support tables: finite case splits.
