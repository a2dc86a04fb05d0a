# Silo in Dafny

Silo is a microVM runtime: a Rust host, a Go SDK over a native library, build tooling and smoke
tests. This project models the parts of it whose correctness no single function shows, and proves
what they promise: for every interleaving, every run, every policy and every byte string.

| file | what it models |
|---|---|
| `Session.dfy` | `ExecutionSession`, `ExecutionStdin` and `MachineLogStream`: any number of goroutines, Go's mutexes and read-write mutexes, and native handles that are freed |
| `Shell.dfy` | `suppliedShell`: five workers, a completion channel, two child contexts and a one-token write gate under one supervisor |
| `Download.dfy` | `FileDownload`: concurrent Read and Close over a native reader, and the bytes in between |
| `PolicyModel.dfy`, `PolicyTables.dfy`, `PolicyValidator.dfy` | what a well-formed network policy is, and the accumulating validator |
| `PolicyForwards.dfy`, `PolicyHosts.dfy`, `PolicyNormal.dfy`, `PolicySlots.dfy` | forward transports, host normalisation and registry hosts, the normal form of a policy, derived secret slots |
| `KernelArtifacts.dfy`, `KernelCache.dfy`, `KernelResolve.dfy`, `KernelRuns.dfy` | OCI descriptors, index, manifest and config; the content-addressed cache; resolving a kernel through it; runs of resolves |
| `ElfProbe.dfy` | admission of static AArch64 executables |
| `SecretFrames.dfy`, `SecretGrants.dfy` | Content-Length frames and grant authorisation of the secret provider |
| `RuntimeTree.dfy`, `RuntimeArchive.dfy`, `InstallProtocol.dfy` | validating an installed runtime, unpacking one, and publishing it among several installers |
| `Images.dfy`, `ImageBuild.dfy` | composing a guest image layer |
| `Environment.dfy` | env-file parsing and merging |
| `Common.dfy`, `Text.dfy`, `Json.dfy`, `Paths.dfy` | shared types, text, JSON values and path cleaning |

How the source's form is kept. Concurrent code is a transition system: each goroutine has a program
counter, every lock operation is a step of its own, and a run is any sequence of steps. Objects
whose methods update fields (`Validator`, `Cache`, `BoundedBody`) are classes. Loops are loops with
invariants, proved against a declarative predicate or a function over values. Expressions are
functions.

What is a parameter. SHA-256, the JSON reader and writer, the condition compilers, the URL origin
parser and the strict manifest decoder are functions carried in a datatype (`World`, `Release`,
`Compilers`), so every theorem holds for any of them. What the registry answers during a call, and
which names can be written, is a `Registry`. Text is `string`; source integers are unbounded here
except where their width matters, and there the bound is written out (`U64_MAX`, `SLICE_MAX`).

Hypotheses on those parameters, each about the answers of one call. "What is obtainable is obtained"
holds for a registry that is `Consistent` (one reference answered both as a manifest and as a blob,
with one digest, has one content) and whose names are `AllWritable`; it is the hypothesis of the
online halves of `ResolveReference`, `ResolveIndex`, `ResolveArtifacts`, `FetchLayers` and of the
stability lemmas below them. "A success is what an offline resolve then answers" needs
`RecordSurvives` when a record is written: that one record reads back from the JSON that was
written. No theorem assumes the hash to be injective.

Findings where the code and an expectation part.

- Host normalisation is not idempotent on `"a ."` (`PolicyHosts.HostNotIdempotent`);
  `PolicyHosts.HostIdempotentIff` says exactly when it is, and `PolicyNormal.PolicyIdempotentIff`
  carries that to whole policies.
- A kernel reference recorded on one architecture is an `OfflineCacheMiss` on the other even for an
  online resolve, unless a refresh is asked for: `KernelRuns.MissOnline` is such a resolve, and
  `KernelResolve.RecordIsPerHost` the exact statement.
- Text to append to a base file is dropped when a package carries the same path:
  `ImageBuild.AppendIsDropped` is such an image, and `ImageBuild.AppendOrPackage` the exact statement.
- A chunk that the native reader delivers to a `FileDownload.Read` whose context was cancelled is
  given up: `Download.CancelledReadLoses` is such a run, and `Download.LossIff` says exactly which
  runs lose bytes.

## Model

| member | source | states |
|---|---|---|
| Session.MoveMatchesLocks | sdk/go/exec.go:349-479 | every step's lock action turns the locks its old program point holds into those its new point holds |
| Session.StepKeepsLocks | sdk/go/exec.go:269-479 | mutual exclusion of the receiver, session and stdin locks is kept by every step of any goroutine |
| Session.HoldersAreApart | sdk/go/exec.go:395-479 | no two goroutines hold the same lock exclusively, nor one exclusively and one shared |
| Session.StepKeepsHandle | sdk/go/exec.go:349-439 | the session handle is live, loaded and freed consistently with where every goroutine is |
| Session.StepKeepsInput | sdk/go/exec.go:280-297 | the stdin handle is created once, freed at most once, and never used by anyone after that |
| Session.RunKeepsInv | sdk/go/exec.go:269-479 | the whole invariant holds in every state of every run |
| Session.NoUseAfterFree | sdk/go/exec.go:280-479 | in every interleaving no native call is made on a freed handle; session and stdin handle are each freed at most once |
| Session.StdinWithinSession | sdk/go/exec.go:412-479 | the stdin handle is used only while the session handle is alive and the session open |
| Session.RunKeepsClosed | sdk/go/exec.go:412-439 | a closed session stays closed |
| Session.CloseIsFinal | sdk/go/exec.go:412-439 | after a Close has freed, both handles are freed exactly once for the rest of the run |
| Session.WaitingClimbs | sdk/go/exec.go:354-479 | whoever waits for a lock is earlier in the order receiver, session, stdin than whoever has it |
| Session.NoDeadlock | sdk/go/exec.go:395-479 | no reachable state has a cycle of waiting goroutines, of any length |
| Session.BlockedWaits | sdk/go/exec.go:412-479 | a goroutine that cannot move waits for another one that is inside a call |
| Session.SomeoneMoves | sdk/go/logs.go:67-142 | following the waits up the lock order ends at a goroutine that can move |
| Session.Progress | sdk/go/logs.go:67-142 | while any call is unfinished some unfinished call can go on, for the log stream as for the session |
| Shell.WorkerKeepsAccounts | sdk/go/shell_attachment.go:114-126 | a worker reports once, and reports sent, queued and consumed stay in balance |
| Shell.SupervisorKeepsAccounts | sdk/go/shell_attachment.go:130-155 | the supervisor consumes each report once and counts it off |
| Shell.SendNeverBlocks | sdk/go/shell_attachment.go:114-126 | a worker ready to report finds room in the channel |
| Shell.NoneRemainingMeansAllDone | sdk/go/shell_attachment.go:130-155 | nothing remaining means all five workers have reported and been consumed |
| Shell.RunKeepsInv | sdk/go/shell_attachment.go:94-269 | the whole invariant holds in every state of every run |
| Shell.FreesAwaitWorkers | sdk/go/shell_attachment.go:94-163 | attachment and token are freed only after all five workers have reported; nobody uses them afterwards |
| Shell.SixTurns | sdk/go/shell_attachment.go:129-155 | remaining reports plus the armed cancellation drop by one each turn of the select, so it turns at most six times |
| Shell.RunKeepsInputStop | sdk/go/shell_attachment.go:140-155 | once the native worker's report is dealt with, input and controls have been told to stop |
| Shell.Progress | sdk/go/shell_attachment.go:119-269 | until the supervisor returns, it or a worker can take a step that does not wait for a control from the caller |
| Shell.OneWriter | sdk/go/shell_attachment.go:117-118 | gate tokens plus writers in flight is always one |
| Shell.FirstErrorStays | sdk/go/shell_attachment.go:128-155 | a recorded first error never changes |
| Shell.FirstErrorDecides | sdk/go/shell_attachment.go:128-163 | with a first error recorded, token, input and output are cancelled when the supervisor is back at its select, and that error is what is returned |
| Shell.SuccessMeansDrained | sdk/go/shell_attachment.go:156-269 | a successful return carries the native data, and both output workers wrote all they read and stopped at end of file or on a native wakeup |
| Download.StepKeepsLocks | sdk/go/files.go:273-324 | mutual exclusion of the reader lock and the mutex |
| Download.StepKeepsHandle | sdk/go/files.go:304-324 | the download handle is loaded, used and freed consistently with where every goroutine is |
| Download.StepKeepsFlow | sdk/go/files.go:170-189 | every step keeps delivered, retained, arriving and lost bytes in balance with what the native reader produced |
| Download.RunKeepsInv | sdk/go/files.go:273-324 | the whole invariant holds in every state of every run |
| Download.NoUseAfterFree | sdk/go/files.go:170-324 | no native read on a freed handle, and at most one free |
| Download.BytesAreConserved | sdk/go/files.go:273-324 | what was produced is what callers got, the retained chunk, a chunk just arriving and what was given up, in that order; nothing is given up before cancellation or Close |
| Download.LossIff | sdk/go/files.go:170-189 | bytes are missing exactly when a cancelled Read turned a chunk away, a chunk came for a cancelled Read, or Close cleared an unread chunk |
| Download.CancelledReadLoses | sdk/go/files.go:170-189 | a run that loses a byte on a download that is neither closed nor freed |
| Download.EofMeansAll | sdk/go/files.go:273-303 | end of file is returned only when everything produced was delivered and the native reader had reported the end |
| Download.WaitingClimbs | sdk/go/files.go:274-319 | whoever waits for a lock is earlier in the order reader, mutex than whoever has it |
| Download.NoDeadlock | sdk/go/files.go:273-324 | no reachable state has a cycle of waiting goroutines, of any length |
| Download.Progress | sdk/go/files.go:273-324 | while any call is unfinished some unfinished call can go on |
| PolicyModel.RegistryHosts | common/policy/src/registry.rs:33-47 | the hosts of the named repositories, all of them and no others |
| PolicyModel.RegistryHostsDistinct | common/policy/src/registry.rs:33-47 | no host comes twice |
| PolicyHosts.ComputeRegistryHosts | common/policy/src/registry.rs:33-47 | the nested loops compute that list, without repetitions |
| PolicyHosts.HostIdempotentIff | common/policy/src/canonical.rs:1572-1574 | normalising a host twice equals once exactly when no whitespace stands directly before its trailing dots |
| PolicyHosts.HostNotIdempotent | common/policy/src/canonical.rs:1572-1574 | a host on which it fails |
| PolicyForwards.Transport | common/policy/src/canonical.rs:511-549 | a listener exists only for a Tailscale forward to self, with a port from 1 to 65535 other than 22 |
| PolicyForwards.CleanForwards | common/policy/src/canonical.rs:1312-1399 | the forward pass reports no error exactly when names and listeners are unique and every forward is well formed |
| PolicyForwards.NormalizeKeepsTransport | common/policy/src/canonical.rs:495-509 | normalising a forward keeps its transport, errors and ports included |
| PolicyForwards.NormalizeIdempotent | common/policy/src/canonical.rs:495-509 | normalising a forward twice equals once |
| PolicyForwards.NormalizeKeepsDiagnostics | common/policy/src/canonical.rs:1312-1399 | normalising changes no forward diagnostic, text and order included |
| PolicyForwards.NormalizeInPlace | common/policy/src/canonical.rs:156-158 | the in-place loop normalises every forward |
| PolicyNormal.EndpointIdempotentIff | common/policy/src/canonical.rs:368-378 | normalising an endpoint twice equals once exactly when none of the hosts it normalises has whitespace before trailing dots |
| PolicyNormal.PolicyIdempotentIff | common/policy/src/canonical.rs:148-159 | normalising a whole policy twice equals once exactly under that condition on all its endpoints |
| PolicyNormal.NormalizePolicyInPlace | common/policy/src/canonical.rs:148-159 | the in-place loops normalise every endpoint and every forward |
| PolicySlots.HeadReadsBack | common/policy/src/canonical.rs:1459-1502 | a dotted name with a dotless head determines head and rest |
| PolicySlots.NoSlotMissing | common/policy/src/canonical.rs:1459-1502 | a well-formed credential gets a slot for each secret of its kind, in order |
| PolicySlots.NoTunnelSlotMissing | common/policy/src/canonical.rs:177-193 | a well-named tunnel gets its three slots, in order |
| PolicySlots.CredentialSlotThere | common/policy/src/canonical.rs:172-176 | every secret a credential needs has its slot in the policy |
| PolicySlots.TunnelSlotThere | common/policy/src/canonical.rs:177-193 | every field of a tunnel has its slot in the policy |
| PolicySlots.SlotsNeverCollide | common/policy/src/canonical.rs:172-195 | slot names are pairwise distinct and so are store key and field, across credentials and tunnels |
| PolicyTables.AllFitMeansOk | common/policy/src/canonical.rs:855-899 | the endpoint pass's checks against its tables say the same as distinct names and distinct exact hosts across all endpoints |
| PolicyTables.TableResolves | common/policy/src/canonical.rs:868-888 | a lookup finds the endpoint that declares the name, and only that |
| PolicyTables.CredentialsFitMeansOk | common/policy/src/canonical.rs:1124-1182 | the credential pass's checks say the same as every credential being resolved to an endpoint that takes credentials |
| PolicyTables.RuleFitsMeansOk | common/policy/src/canonical.rs:1210-1310 | the rule pass's checks say the same as one family, a compiled condition, a credential bound to one of the rule's endpoints, and tunnels only on allow rules |
| PolicyValidator.Validator.ValidateName | common/policy/src/canonical.rs:1415-1428 | no new error exactly when the name is an identifier and not reserved |
| PolicyValidator.Validator.ValidateVersion | common/policy/src/canonical.rs:837-844 | no new error exactly for the supported version |
| PolicyValidator.Validator.ValidateAudit | common/policy/src/canonical.rs:846-853 | a warning exactly when the buffer is smaller than the storage, and never an error |
| PolicyValidator.Validator.ValidateDescriptor | common/policy/src/canonical.rs:901-961 | no new error exactly when family, transport, TLS mode and capabilities are those of the kind |
| PolicyValidator.Validator.ValidateIp | common/policy/src/canonical.rs:963-981 | no new error exactly when there are no hosts and every port range is proper |
| PolicyValidator.Validator.ValidateHttp | common/policy/src/canonical.rs:983-1021 | no new error exactly when the fields fit and no exact host was bound before; the set grows by the exact hosts |
| PolicyValidator.Validator.ValidateRegistry | common/policy/src/canonical.rs:1023-1122 | no new error exactly when registries, hosts, feed, egress, age filter and config size fit together, early returns included |
| PolicyValidator.Validator.ValidateEndpoint | common/policy/src/canonical.rs:855-899 | no new error exactly when the endpoint is well formed and new against what came before |
| PolicyValidator.Validator.ValidateEndpoints | common/policy/src/canonical.rs:855-899 | no new error exactly when all endpoints are well formed and apart; returns the lookup table |
| PolicyValidator.Validator.ValidateCredentials | common/policy/src/canonical.rs:1124-1182 | no new error exactly when every credential fits the table; returns name to endpoint |
| PolicyValidator.Validator.ValidateTunnels | common/policy/src/canonical.rs:1184-1208 | no new error exactly when there is at most one tunnel, properly named |
| PolicyValidator.Validator.ResolveEndpoints | common/policy/src/canonical.rs:1228-1247 | no new error exactly when every name is known and all are of the first one's family |
| PolicyValidator.Validator.ValidateCondition | common/policy/src/canonical.rs:1248-1270 | no new error exactly when the condition compiles for the family, or the family is unknown |
| PolicyValidator.Validator.ValidateRule | common/policy/src/canonical.rs:1217-1308 | no new error exactly when the rule fits, skipped checks included |
| PolicyValidator.Validator.ValidateForwards | common/policy/src/canonical.rs:1312-1399 | appends exactly the forward diagnostics |
| PolicyValidator.Validator.ValidateSecretSlots | common/policy/src/canonical.rs:1401-1413 | no new error exactly when every derived slot is a valid slot path |
| PolicyValidator.Validator.Validate | common/policy/src/canonical.rs:826-835 | no error is reported exactly when the policy is well formed |
| PolicyValidator.ValidatePolicy | common/policy/src/canonical.rs:166-170 | the same for a fresh validator |
| PolicyValidator.RepositoryClaimedOnce | common/policy/src/canonical.rs:1023-1066 | in an accepted policy each package repository is claimed once, by one registries endpoint |
| PolicyValidator.AcceptedSlotsApart | common/policy/src/canonical.rs:1401-1413 | in an accepted policy all slots are valid and none collide |
| KernelArtifacts.DescribeIff | xtask/src/kernel.rs:840-855 | a value describes content exactly when it is the JSON form of a descriptor with a media type, a lower-case SHA-256 digest and a positive 64-bit size |
| KernelArtifacts.SelectsTheOne | xtask/src/kernel.rs:348-375 | a manifest is selected exactly when one index entry and no other is for the host, and it is that one |
| KernelArtifacts.ValidateLayers | xtask/src/kernel.rs:412-454 | the counting loop accepts exactly layers that are all known, with one image, one config, one system map and a debug layer on arm64 only |
| KernelArtifacts.ValidateManifest | xtask/src/kernel.rs:377-454 | accepts exactly the valid manifests and returns their config and layers in order |
| KernelArtifacts.OneImageLayer | xtask/src/kernel.rs:377-454 | an accepted manifest has exactly one image layer |
| KernelArtifacts.RepositoryIff | xtask/src/kernel.rs:939-954 | the repository is exactly what is left of a reference when its digest and then its tag are cut off, non-empty and without whitespace |
| KernelCache.ReadCached | xtask/src/kernel.rs:658-676 | what is read back is a regular file with the promised size and digest |
| KernelCache.Get | xtask/src/kernel.rs:586-635 | whatever source content comes from, it has the promised size and digest |
| KernelCache.GrowsTransitive | xtask/src/kernel.rs:678-715 | growth of the cache (nothing that exists changes, everything new is named by its hash) composes |
| KernelCache.FillsTransitive | xtask/src/kernel.rs:586-635 | growth by what the network answers for each new digest composes |
| KernelCache.GetStable | xtask/src/kernel.rs:586-635 | what can be had stays the same while the cache fills up with what the network answers |
| KernelCache.OfflineStable | xtask/src/kernel.rs:239-321 | growth that leaves a reference's record alone does not change its offline answer |
| KernelCache.OfflineSurvivesRun | xtask/src/kernel.rs:239-321 | the same over a run of any length |
| KernelCache.OfflineIsVerified | xtask/src/kernel.rs:239-321 | an offline answer is the one image layer of a valid manifest whose config and layers are all present and verified, and it is bootable on the host |
| KernelResolve.Cache.CacheBytes | xtask/src/kernel.rs:678-715 | content is stored only under its own hash; what is there is checked and never replaced; success exactly when that works |
| KernelResolve.Cache.FetchOrCachedManifest | xtask/src/kernel.rs:586-602 | what it returns is then in the cache, and is what the starting cache with the network behind it stands for |
| KernelResolve.Cache.FetchOrCachedBlob | xtask/src/kernel.rs:604-635 | the same for blobs, which are verified before they are stored |
| KernelResolve.Cache.FetchLayers | xtask/src/kernel.rs:294-301 | the layer loop leaves all layers readable offline and answers as the starting view does |
| KernelResolve.Cache.ResolveIndex | xtask/src/kernel.rs:278-321 | from the index on, a successful answer is the offline answer over the resulting cache |
| KernelResolve.Cache.LookUp | xtask/src/kernel.rs:257-268 | the index is cached before the record is written; a failure writes no record |
| KernelResolve.Cache.ResolveReference | xtask/src/kernel.rs:239-321 | existing content and other records stay; a success is what an offline resolve then answers; offline changes nothing; what is obtainable is obtained |
| KernelResolve.Cache.ResolveLocal | xtask/src/kernel.rs:203-237 | a local kernel is checked, cached under its hash and identified by it; a file of that name already there stays, with that hash and length |
| KernelResolve.RecordReadsBack | xtask/src/kernel.rs:737-804 | a record just written reads back as the descriptor it was written for |
| KernelResolve.RecordIsPerHost | xtask/src/kernel.rs:757-804 | a record is a hit for the host that wrote it and a miss for the other |
| KernelRuns.RunAll | xtask/src/kernel.rs:185-321 | any sequence of resolves with other record keys, failing or not, by reference or by path, leaves an offline answer as it is |
| KernelRuns.ResolveRunResolve | xtask/src/kernel.rs:185-321 | a successful resolve, any such sequence, and an offline resolve: first and last answer agree |
| KernelRuns.RecordedOnArmMissesOnAmd | xtask/src/kernel.rs:254-255 | a store whose record is found on arm64 and is a miss for an online resolve on amd64 |
| KernelRuns.MissOnline | xtask/src/kernel.rs:239-269 | that online resolve returns the offline cache miss, whatever the network answers |
| ElfProbe.Read | xtask/src/rprobe.rs:318-334 | a little-endian read succeeds exactly inside the file and fits its width |
| ElfProbe.RowInside | xtask/src/rprobe.rs:202-222 | every row of a table inside the file is inside the file |
| ElfProbe.CheckPlacement | xtask/src/rprobe.rs:199-210 | accepts exactly tables inside the file; only the addition can overflow |
| ElfProbe.CheckLoad | xtask/src/rprobe.rs:233-267 | accepts exactly segments inside the file and address space, and says whether one runs the entry point |
| ElfProbe.CheckTable | xtask/src/rprobe.rs:211-276 | accepts exactly tables of acceptable rows with an executable segment holding the entry; no offset overflows, no read is truncated |
| ElfProbe.ValidateElf | xtask/src/rprobe.rs:169-279 | accepts exactly the acceptable executables and never fails for a reason the earlier checks rule out |
| SecretFrames.HeaderEndsOnce | common/secrets/src/grant.rs:160-172 | a header ends at its blank line and nowhere before |
| SecretFrames.ReadHeader | common/secrets/src/grant.rs:160-168 | the byte loop returns the shortest prefix ending in a blank line, if it is within 128 bytes |
| SecretFrames.ReadFrame | common/secrets/src/grant.rs:156-190 | a body comes back exactly when the stream is one frame of 1 to 108 digits and a body of that length up to 1 MiB, and it is that body |
| SecretFrames.UniqueDecoding | common/secrets/src/grant.rs:156-188 | no stream is two frames |
| SecretFrames.BoundedBody.Write | common/secrets/src/grant.rs:204-212 | a chunk is appended whole or refused, and refused exactly when it would exceed 1 MiB |
| SecretFrames.WriteFrame | common/secrets/src/grant.rs:192-202 | every document up to 1 MiB, in whatever chunks, becomes a frame that the reader must give back; longer ones are refused |
| SecretFrames.WrittenIsAdmissible | common/secrets/src/grant.rs:198-199 | the printed length is admissible and reads as the body's length |
| SecretGrants.IdentityIsInjective | common/secrets/src/grant.rs:81-91 | one identity, one path |
| SecretGrants.CheckEntries | common/secrets/src/grant.rs:125-135 | accepts exactly grants whose entries are all well formed with unique slots |
| SecretGrants.Authorize | common/secrets/src/grant.rs:110-153 | succeeds exactly when header, entries and names all fit; the result follows the request and each element is the only entry for its name |
| RuntimeTree.VisitsDecide | sdk/go/installer.go:595-633 | when every visit is fine, equal counts mean exactly that the files are the manifest's |
| RuntimeTree.CountingDecides | sdk/go/installer.go:633 | distinct listed files are all listed files exactly when there are as many |
| RuntimeTree.ValidateManifest | sdk/go/installer.go:571-634 | walk and count accept exactly trees whose files are the manifest's keys and the manifest, every digest matching |
| RuntimeTree.ValidateInstallation | sdk/go/installer.go:506-563 | accepts exactly the valid installations |
| RuntimeTree.RuntimeComplete | sdk/go/installer.go:550-562 | a valid installation has every runtime file, with its mode and its listed digest |
| RuntimeTree.ManifestDetermines | sdk/go/installer.go:571-634 | two valid installations with one manifest have the same files with the same modes and digests |
| Paths.CleanFixed | sdk/go/installer.go:485-491 | a path that does not climb is its own clean form exactly when its components are plain |
| RuntimeArchive.SafePathIff | sdk/go/installer.go:481-504 | names are accepted exactly when they spell a plain path at or below the top-level directory, and the result is what lies below |
| RuntimeArchive.RelativeIsPlain | sdk/go/installer.go:499-503 | what lies below a plain path is plain, so the last check never fires |
| RuntimeArchive.CheckEntry | sdk/go/installer.go:386-448 | an entry passes exactly when it is whitelisted, new, complete and within what is left of 1 GiB |
| RuntimeArchive.Extract | sdk/go/installer.go:357-479 | unpacks exactly acceptable archives: no duplicates, all required files, at most 1 GiB, and then nothing but their files |
| RuntimeArchive.FilesOfHas | sdk/go/installer.go:417-448 | every file entry's bytes are found at its path |
| RuntimeArchive.ExtractedIsWellShaped | sdk/go/installer.go:375-479 | an unpacked archive has a runtime's shape, so only its manifest is left to check |
| InstallProtocol.StepKeepsLock | sdk/go/installer_lock.go:16-54 | the lock's owner is the one installer past it, through failures and kills |
| InstallProtocol.StepKeepsFinal | sdk/go/installer.go:129-194 | one step changes the final directory only from absent to a validated tree |
| InstallProtocol.RunKeepsInv | sdk/go/installer.go:111-194 | every reachable state keeps lock, stages and final directory consistent |
| InstallProtocol.FinalRootSafe | sdk/go/installer.go:111-194 | at any two times of a run the final directory is the same, or was absent and is a validated tree |
| InstallProtocol.PresentStays | sdk/go/installer.go:137-148 | a directory that exists, valid or not, is never replaced |
| InstallProtocol.InstalledStays | sdk/go/installer.go:174-194 | once any installer has reported success the directory is valid and stays as it is |
| InstallProtocol.OneHolder | sdk/go/installer_lock.go:16-54 | no two installers are past the lock at once |
| InstallProtocol.OneRename | sdk/go/installer.go:185-188 | at most one rename happens in a run |
| InstallProtocol.LockNeverStuck | sdk/go/installer_lock.go:22-54 | the lock is free for whoever waits, or its holder can go on and is then closer to giving it back |
| InstallProtocol.CanStillInstall | sdk/go/installer.go:129-194 | whatever failed or was killed before, an installer that finds the lock free and no directory can install |
| Images.GuestPathIff | smoke/silo_smoke/images.py:164-171 | names are accepted exactly when they strip to a plain path, and that path is the result |
| Images.EnumeratesConcat | smoke/silo_smoke/images.py:230-265 | sections with disjoint paths make a layer with every path once |
| ImageBuild.CheckNames | smoke/silo_smoke/images.py:183-188 | accepts exactly overlay names that are plain and distinct once normalised |
| ImageBuild.ReadPackage | smoke/silo_smoke/images.py:99-120 | accepts exactly packages whose payload is supported, plain, distinct and hard-linked to plain paths, and returns it |
| ImageBuild.CollectPayload | smoke/silo_smoke/images.py:199-205 | the package loops keep the last member at each path that is neither removed nor overlaid |
| ImageBuild.CollectKinds | smoke/silo_smoke/images.py:220-223 | recording base, packages, files and directories in turn gives the kinds of the composed layer |
| ImageBuild.CollectBase | smoke/silo_smoke/images.py:209-216 | accepts exactly base archives with plain, distinct paths and collects them in order |
| ImageBuild.CheckParents | smoke/silo_smoke/images.py:220-229 | accepts exactly paths with nothing but directories above them in the composed layer |
| ImageBuild.AddBase | smoke/silo_smoke/images.py:231-251 | base members that nothing hides are written, each once |
| ImageBuild.AddAll | smoke/silo_smoke/images.py:252-265 | a section's entries are written each once, sorted by path |
| ImageBuild.LayoutEnumerates | smoke/silo_smoke/images.py:230-265 | the four sections together hold the composed image, every path once |
| ImageBuild.Build | smoke/silo_smoke/images.py:178-265 | builds exactly when everything fits; the layer is base overridden by packages overridden by overlays, without what is removed, every path once |
| ImageBuild.RemovedNeverOccur | smoke/silo_smoke/images.py:193-233 | no entry is at a path that was asked to be removed |
| ImageBuild.OverlayWins | smoke/silo_smoke/images.py:261-265 | an overlaid file is in the layer as given |
| ImageBuild.AppendOrPackage | smoke/silo_smoke/images.py:231-251 | appended text ends up in the layer unless a package carries the path; then the package's file is used as it is |
| ImageBuild.AppendIsDropped | smoke/silo_smoke/images.py:199-251 | an image that can be built and does not hold its appended text |
| ImageBuild.BaseKept | smoke/silo_smoke/images.py:231-251 | a base member that nothing removes or overrides is kept as it is, with its appended text |
| Environment.ParseOverrideIff | app/cli/lib/environment.rs:32-51 | parsing succeeds exactly on the spellings of overrides with a valid key and value, and undoes the spelling |
| Environment.ParseFile | app/cli/lib/environment.rs:57-74 | the line loop accepts exactly files whose overrides all parse and apply, and yields a valid layer |
| Environment.ResolveOci | app/cli/lib/environment.rs:94-103 | the image-default loop builds the map of valid entries or fails at the first invalid one |
| Environment.Resolve | app/cli/lib/environment.rs:87-138 | the three loops merge defaults, files and overrides and add the default search path |
| Environment.LastWriterWins | app/cli/lib/environment.rs:87-138 | every variable comes from the last override, else the last file, else the last default that sets it, else the search path default |
| Environment.FileLayerEqualsLines | app/cli/lib/environment.rs:57-138 | a parsed file as the final layer equals its lines as the first overrides, errors included |

## Left out

- Condition compilation, the plugin registry beyond its built-in kinds, the URL origin parser, SHA-256, JSON, zstd and tar decoding: parameters or plain data.
- `UploadFile` and the option and request builders of the Go SDK: single-threaded copying over the native library.
- `attachmentCall` with process signals: one worker under one supervisor, a smaller case of `suppliedShell`.
- The native library behind the SDK: its calls are steps that return something.
- Wall-clock time, polling intervals, real signals: nondeterministic steps.
- Policy builders, HCL lowering and JSON loading of policies: they produce the policies modelled here.
- Diagnostics carry severity, summary and the values of their detail text, not the formatted sentence.
- KernelResolve.Cache.ResolveReference: "what is obtainable is obtained" is for a consistent registry and a writable disk; reading the cache is taken to succeed for files that are there, one process uses the cache at a time, and error messages are not told apart beyond their kind.
- KernelRuns.RunAll: is about resolves with other record keys; a refresh of the same reference may move its answer.
- The provenance file that a resolve writes, and the temporary files it leaves when a write fails.
- SecretFrames.ReadFrame: which of the two errors a bad stream gets is not characterised, only that it gets one; JSON decoding of the body follows it.
- InstallProtocol.FinalRootSafe: kills of installers, not power loss; only installers touch the version directory.
- RuntimeTree.ValidateManifest: the walk is a list that meets every path once, and reading a file is taken to succeed.
- Downloading and hashing the runtime archive: its result is the list of archive entries.
- ImageBuild.Build: fetching and decompressing archives, compressing the layer, and its config and manifest are not modelled.
- xtask command drivers, initramfs packing, `xtask/src/runtime.rs`, the CLI's planning, templates and terminal code, and the smoke-test drivers.
