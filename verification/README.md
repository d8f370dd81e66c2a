# Verification of the open-compute sidecar and artifact core

This project models six components of open-compute and proves what each is relied on for, over every input, every
interleaving and every chunking of a stream. `dafny verify dfyconfig.toml` checks all of it.

**Reverse-callback pool** (`CallbackPool`, `CallbackProtocol`, `CallbackProgress`). Registrars, idle readers, takers and closers share a
bounded queue and hand exclusive read ownership over through four channels. The protocol is a transition system with one
step for each lock section, channel close and select arm; `changed` is a generation number. Every reachable state
satisfies one invariant, from which exclusive handoff, pool safety, absence of lost wake-ups and first-in-first-out
order follow. Takers fail and registrars leave exactly for the causes the code names, no open connection is dropped, and
nothing is ever stuck.

**Exec supervisor and relay** (`ExecProtocol`, `ExecSupervisor`, `ExecReports`, `ExecResources`, `ExecFraming`,
`ExecRelay`, `ExecAgreement`). The
supervisor is a transition system over its goroutines; the relay is imperative code over connections that deliver bytes
in arbitrary chunks. Frames may be cut anywhere by failed writes, on both connections. The two are composed down to the
bytes on the peer's connection: whatever was cut, a reader of those bytes hears a prefix of the script, and the drain
receipt only after everything arrived and the owner closed. What the owner is told is tied to the one spawn, the one wait
and the output faults of the run.

**Container images** (`ArchiveReaders`, `ArchiveNames`, `NameFacts`, `Extraction`, `Tar`, `Json`, `ContainerImage`,
`OciArchive`, `OciMembers`, `ImageFacts`, `ImageAdmission`, `OciLayout`, `OciRoundTrip`, `Snapshot`, `SnapshotSound`,
`SnapshotBackup`, `DockerArchive`, `DockerFaithful`, `DirectoryBackup`). The streaming readers agree with a one-pass description of the content for every chunking. The tree
check makes extraction link-safe in every order, on a file system that follows symbolic links and creates missing parents,
and a list it rejects for a file or symbolic link has an order that walks into it. Admission with running budgets equals a
declarative description with sums. Writing and restoring are inverse. The snapshot builder's unverified result is what
verification would have returned, keeps the source's configuration but for history and layers, and hands the root
filesystem back byte for byte. The Docker conversion preserves every DiffID. What an admitted image, index and archive are
is also said of the documents' values and the stored bytes alone, with every media type written out.
SHA-256, gzip, JSON text and the tar library's header codec are parameters (`Formats`) constrained by inverse laws
(`ImageLaws.Lawful`). That a JSON document reads back as rendered, and that no two contents share a digest, are
hypotheses about the documents and byte strings that occur, never about all of them. Tar framing, member offsets, path normalisation, digest texts and the decoding of JSON objects into records
(repeated keys, unknown keys, records given as arrays) are modelled concretely.

**R2 facade** (`R2Condition`, `R2Store`, `R2Codec`). Conditions are compared with sections 8.8.3.2, 13.1 and 13.2.2 of
RFC 9110. The conditional write loop runs against a store that other writers change before every operation and whose
replies can be lost. The metadata codec survives whatever a provider adds.

**Object authority** (`Authority`). Any number of instances start, crash and lose replies while creating two markers.

**Directory quota and system-call filter** (`DirectoryQuota`, `QuotaFilter`). The budgeted worklist equals a recursive
specification of the tree; the seventeen-instruction filter is interpreted on a classic BPF machine.

Some results say where the code does less than one might expect, and exactly when it does not:

- `OciRoundTrip.RoundTrip`: an admitted image can always be written, but its archive is restored if and only if the layout
  and index documents fit the JSON limit and `archive_bytes` does not overflow. The writer does not check either.
  `EveryImageOutgrowsTheBudget` makes every admitted image fail by raising one limit, and `Example.WrittenButNotRestored`
  gives one concrete image that fails under one limit and is restored under the next higher one.
- `Authority.RestartCondition`: once no instance is at work, a new one can succeed if and only if the store holds no
  marker or both of its own. A crash between the two creations (`CrashLeavesHalf`) leaves one marker, and then no
  preflight or verification ever succeeds (`HalfInitialisedIsFinal`).
- `R2Condition.TagDecides`: the conditional write fences the entity tag only. What the observed object satisfies, every
  object with its tag satisfies if and only if no date clause is in force; then `R2Store.PutFile` replaces only a state that
  itself satisfies the condition. `R2Store.DateIsNotFenced` gives an instance with a date clause.
- `R2Condition.MissingIsStricter`: for a missing object a date clause that RFC 9110 ignores still makes the facade decline;
  the lemma states exactly when the two agree, and `MissingWithDateDiffers` gives an instance.
- `QuotaFilter.HostsRefuse`: the filter takes for an ioctl exactly the native number with or without the x32 bit and the
  compatibility number; `OwnX32NumberAllowed` shows that ioctl's own number in the x32 table is another one.

`Example` and `ExampleTar` give one concrete set of formats and one concrete image that meet all hypotheses of the theorems
on round trips, snapshots and conversion.

## Model

| member | source | states |
|---|---|---|
| `CallbackPool.DroppedAt` | apps/container-sidecar/callback.go:105-117 | Removing a queued lease keeps the order of all others and takes out exactly one position. |
| `CallbackPool.DroppedFindsFirst` | apps/container-sidecar/callback.go:105-117 | A queued lease is found at its first position, and removal is removal there. |
| `CallbackPool.Pool.Admit` | apps/container-sidecar/callback.go:89-103 | Admission appends exactly if the lease is open and there is room; the channel reported is the one current after the call, so a refused registrar waits on an open one. |
| `CallbackPool.Pool.Remove` | apps/container-sidecar/callback.go:105-117 | The shifting loop leaves the entries without the lease and notifies only if it was there. |
| `CallbackPool.Pool.Take` | apps/container-sidecar/callback.go:119-131 | The oldest entry leaves the queue and a notification is made; an empty queue changes nothing. |
| `CallbackPool.MutationsNotify` | apps/container-sidecar/callback.go:84-131 | The queue changes if and only if the generation advances. |
| `CallbackProtocol.StepKeeps` | apps/container-sidecar/callback.go:135-272 | Every enabled step of registrar, idle reader, closer or taker keeps the protocol invariant. |
| `CallbackProtocol.RunKeeps` | apps/container-sidecar/callback.go:135-272 | The invariant holds in every state of every run from the empty pool. |
| `CallbackProtocol.HolderStays` | apps/container-sidecar/callback.go:223-269 | A lease once taken belongs to the same taker for the rest of the run. |
| `CallbackProtocol.ExclusiveHandoff` | apps/container-sidecar/callback.go:135-272 | When a taker returns a lease the token is its own, the idle reader ended its only Read without a byte, the taker is the only reader, and no other taker ever holds that lease. |
| `CallbackProtocol.PoolSafety` | apps/container-sidecar/callback.go:43-51 | At most 16 entries, none twice; every lease admitted and taken at most once, every channel closed at most once; a closed lease is queued only until its own Close removed it. |
| `CallbackProtocol.NoLostWakeup` | apps/container-sidecar/callback.go:84-131 | As long as the pool is not empty every waiting taker can wake, look again and take the oldest lease; as long as it has room every blocked registrar with an open lease can wake, poll again and be admitted last in line. |
| `CallbackProtocol.FirstInFirstOut` | apps/container-sidecar/callback.go:89-131 | Leases are taken in the order in which they were admitted. |
| `CallbackProgress.HandoffHappens` | apps/container-sidecar/callback.go:135-272 | There is a run that ends with the taker owning the connection. |
| `CallbackProgress.WaitingTakerIsServed` | apps/container-sidecar/callback.go:209-272 | There is a run in which the taker finds the pool empty, waits, is woken by the admission and ends owning the connection. |
| `CallbackProgress.ConnectionEnds` | apps/container-sidecar/callback.go:135-207 | There is a run in which a served connection is closed and its registrar returns. |
| `CallbackProgress.FailureIsCut` | apps/container-sidecar/callback.go:209-272 | In every run a taker is on its way to an error exactly if its deadline or cancellation has struck; wake-ups, closed leases and foreign tokens lead back to looking. |
| `CallbackProgress.LeavingIsCut` | apps/container-sidecar/callback.go:135-207 | In every run a registrar gives its connection up exactly if a deadline, cancellation or close, a failed reply or deadline change, or an idle read that was no clean timeout has occurred. |
| `CallbackProgress.LooksBeforeTaking` | apps/container-sidecar/callback.go:215-223 | Every attempt to take comes right after a look at deadline and cancellation. |
| `CallbackProgress.PollsBeforeAdmission` | apps/container-sidecar/callback.go:142-152 | Every attempt to be admitted comes right after a poll that found the lease open. |
| `CallbackProgress.VetsBeforeMatching` | apps/container-sidecar/callback.go:223-229 | A token is compared only for a lease just seen open. |
| `CallbackProgress.SkippedLeaseMismatches` | apps/container-sidecar/callback.go:230-233 | A lease that a taker closes and passes over has another token than the taker's. |
| `CallbackProgress.NoLeaseDropped` | apps/container-sidecar/callback.go:223-269 | Every lease ever taken is the one its taker stands at, or closed. |
| `CallbackProgress.NothingIsStuck` | apps/container-sidecar/callback.go:135-272 | In every reachable state each taker that has not returned and each registrar that has not left can go on, or waits for a close or an idle reader that can. |
| `ExecSupervisor.RecordedCodeIsByte` | apps/container-sidecar/exec_supervisor_linux.go:315-331 | Every wait status of an ended child is recorded as a code from 0 to 255; exactly a stopped status would not be. |
| `ExecReports.ExitCodeIsRecorded` | apps/container-sidecar/exec_supervisor_linux.go:315-331 | A normal exit is recorded as its own code, 0 to 255. |
| `ExecReports.SignalIsRecorded` | apps/container-sidecar/exec_supervisor_linux.go:315-331 | Death by signal n is recorded as 128 + n, with or without a core dump. |
| `ExecSupervisor.StepKeeps` | apps/container-sidecar/exec_supervisor_linux.go:168-349 | Every step of input, run, spawn, wait, drain, output and shutdown keeps the supervisor invariant. |
| `ExecSupervisor.RunKeeps` | apps/container-sidecar/exec_supervisor_linux.go:168-495 | The invariant holds in every reachable state. |
| `ExecSupervisor.SupervisorSafety` | apps/container-sidecar/exec_supervisor_linux.go:168-349 | Claiming the run and closing the input exclude each other, at most one child is started, each completion channel is closed at most once, and while the child runs its descriptor is open and the supervisor is not finished. |
| `ExecSupervisor.PhasesAdvance` | apps/container-sidecar/exec_supervisor_linux.go:197-331 | The phase moves only from starting to running or failed, and from running to exited or unknown. |
| `ExecSupervisor.EndIsFinal` | apps/container-sidecar/exec_supervisor_linux.go:276-331 | An end phase never changes again. |
| `ExecSupervisor.FramesFollowScript` | apps/container-sidecar/exec_supervisor_linux.go:391-466 | A run connection is sent one refusal or a prefix of the script, the whole script once it ended, and at most one connection gets more than a refusal. |
| `ExecReports.EndIsTold` | apps/container-sidecar/exec_supervisor_linux.go:391-466 | In every run a connection told of the end was told the process of the one successful spawn, and then the recorded code of the status the one wait reported, or the unknown frame if it reported none. |
| `ExecReports.DrainIsTold` | apps/container-sidecar/exec_supervisor_linux.go:391-466 | The drained frame is ok exactly if neither the drain nor a write to a pipe not yet discarded had failed before it was sent. |
| `ExecReports.FateIsTold` | apps/container-sidecar/exec_supervisor_linux.go:391-466 | The first frame is a refusal exactly of an entry after a claim or after the input was given up, a spawn failure exactly of a failed spawn, and a start exactly of a successful one. |
| `ExecReports.GivenUpExactly` | apps/container-sidecar/exec_supervisor_linux.go:166-195 | An unclaimed supervisor gives up, and finishes, exactly if its input has brought a byte, an error or its end. |
| `ExecResources.InputFollows` | apps/container-sidecar/exec_supervisor_linux.go:166-195 | The input reader reads, judges and forwards in turn, and ends exactly if input arrives or ends unclaimed, a write fails or a read failed. |
| `ExecResources.DiscardedExactly` | apps/container-sidecar/exec_supervisor_linux.go:391-466 | An output pipe is discarded exactly from the first time its reader went away or a write to it failed. |
| `ExecResources.DescriptorIsReleased` | apps/container-sidecar/exec_supervisor_linux.go:197-349 | The child's descriptor is held exactly from the spawn that obtained it, and none is open when the supervisor is done. |
| `ExecSupervisor.ControlReachesOnlyTheChild` | apps/container-sidecar/exec_supervisor_linux.go:467-495 | Signal and resize reach the kernel only for the one running child through its open descriptor; an accepted request did. |
| `ExecSupervisor.ControlIsAnswered` | apps/container-sidecar/exec_supervisor_linux.go:467-495 | A control request is accepted exactly if it is well formed, the child runs, there is a terminal to resize and the kernel agrees; each code is answered exactly in its own case, and the kernel is asked for exactly what was requested. |
| `ExecSupervisor.CleanUpHoldsDescriptor` | apps/container-sidecar/exec_supervisor_linux.go:276-293 | A failed launch is cleaned up while its descriptor is still open and before the supervisor can finish. |
| `ExecFraming.EncodingShape` | apps/container-sidecar/exec_supervisor_protocol_linux.go:41-48 | Every response encodes to fewer than 256 bytes without NUL, empty fields left out. |
| `ExecFraming.BigEndianInverse` | apps/container-sidecar/exec_supervisor_protocol_linux.go:126-134 | The four-byte prefix reads back as the length. |
| `ExecFraming.ParseFramed` | apps/container-sidecar/exec_supervisor_protocol_linux.go:110-134 | A framed body followed by anything parses to that body and that rest. |
| `ExecFraming.CutFrameLost` | apps/container-sidecar/exec_supervisor_protocol_linux.go:110-124 | A frame cut inside prefix or body is never read back, whatever follows it. |
| `ExecFraming.FirstBody` | apps/container-sidecar/exec_supervisor_protocol_linux.go:110-145 | Reading a cut stream gives no usable body, or the first body not lost entirely, intact. |
| `ExecFraming.ReadFull` | apps/container-sidecar/exec_supervisor_protocol_linux.go:110-124 | Exactly the next bytes are read for every chunking; a shorter stream fails. |
| `ExecFraming.ReadBody` | apps/container-sidecar/exec_supervisor_protocol_linux.go:110-124 | Reading a frame from a chunked connection agrees with parsing the bytes as a whole. |
| `ExecFraming.WriteAll` | apps/container-sidecar/exec_supervisor_protocol_linux.go:136-145 | Everything is written, or a prefix and a failure is reported. |
| `ExecRelay.JsonTextsAreShort` | apps/container-sidecar/exec_supervisor_protocol_linux.go:126-134 | The JSON encoder meets the length and NUL laws asked of a codec. |
| `ExecRelay.ExactKeys` | apps/container-sidecar/exec_http_linux.go:174-183 | Counting and looking up decides equality of key sets. |
| `ExecRelay.AcceptsExactlyTheScript` | apps/container-sidecar/exec_http_linux.go:111-157 | Validation by exact keys accepts precisely the frames of the script, each in its place. |
| `ExecRelay.AcceptsExactly` | apps/container-sidecar/exec_http_linux.go:111-184 | A decoded message is accepted exactly if it is a frame of the script with exactly the keys that frame is written with. |
| `ExecRelay.FramesAreBounded` | apps/container-sidecar/exec_http_linux.go:159-172 | A frame that announces no bytes or more than 4096 ends the relay before anything of it is handed on. |
| `ExecRelay.ReadFrame` | apps/container-sidecar/exec_http_linux.go:159-172 | One frame is read and decoded as the delivered bytes say. |
| `ExecRelay.Forward` | apps/container-sidecar/exec_supervisor_protocol_linux.go:126-145 | A frame to be relayed is on the peer's wire whole, or a beginning of it is and failure is reported. |
| `ExecRelay.RunFrames` | apps/container-sidecar/exec_http_linux.go:111-157 | For every chunking on both sides the bytes appended to the peer's connection are the frames forwarded, whole, followed by at most a beginning of the next; they are a prefix of what the delivered bytes determine, all of it if the peer never fails. |
| `ExecRelay.RunEnd` | apps/container-sidecar/exec_http_linux.go:126-144 | The same from the end of the child on. |
| `ExecRelay.RunDrain` | apps/container-sidecar/exec_http_linux.go:145-157 | The same for the drain receipt, which is written only after end of file. |
| `ExecRelay.HeardIsRelayed` | apps/container-sidecar/exec_http_linux.go:111-157 | A reader of the peer's bytes hears everything forwarded, nothing but a prefix of what may be relayed, and at most one frame whose write was reported as failed. |
| `ExecAgreement.CutScriptForwardsPrefix` | apps/container-sidecar/exec_http_linux.go:111-157 | However the frames were cut, a prefix of the script is forwarded; the drain receipt only if all frames are whole and end of file followed. |
| `ExecAgreement.WholeScriptForwarded` | apps/container-sidecar/exec_http_linux.go:111-157 | An uncut script followed by end of file is forwarded completely. |
| `ExecAgreement.RefusalForwardsNothing` | apps/container-sidecar/exec_http_linux.go:111-157 | A refused run is not forwarded. |
| `ExecAgreement.SentEncodable` | apps/container-sidecar/exec_supervisor_linux.go:391-466 | Everything the supervisor sends in any run can be encoded. |
| `ExecAgreement.RelayedAgrees` | apps/container-sidecar/exec_http_linux.go:111-184 | In every reachable supervisor state, for every run connection and cut, the relay may hand on only a prefix of what was sent. |
| `ExecAgreement.RelayAgrees` | apps/container-sidecar/exec_http_linux.go:111-184 | In every reachable supervisor state, for every run connection and cut, a reader of whatever bytes the relay left for its peer hears a prefix of what was sent, the drain receipt only if nothing was cut and the owner closed, and the complete script if the run ended uncut, the owner closed and no write failed. |
| `ExecAgreement.RelayRun` | apps/container-sidecar/exec_http_linux.go:111-157 | The relay run on a supervised run's bytes leaves such bytes on the peer's connection. |
| `ArchiveReaders.CheckedReader.Read` | crates/artifacts/src/container_image.rs:533-549 | Bytes pass unchanged and are hashed and counted; up to and including the first error at most limit + 1 bytes are pulled. |
| `ArchiveReaders.ReadToEnd` | crates/artifacts/src/container_image.rs:136-144 | All of a stream is read if and only if it is within the limit. |
| `ArchiveReaders.ArchiveReader.NextHeader` | crates/artifacts/src/container_image.rs:465-503 | Loading a header block spends one unit exactly for a non-zero block and keeps the budget balanced with the headers still to come. |
| `ArchiveReaders.ArchiveReader.Read` | crates/artifacts/src/container_image.rs:452-509 | For every buffer size the bytes handed on continue the input, and an error on a stream without faults means the content must be refused. |
| `ArchiveReaders.InspectStream` | crates/artifacts/src/container_image.rs:322-331 | For every chunking, acceptance, the hashed bytes and the headers left are those of the whole content, and at most limit + 1 bytes are pulled. |
| `ArchiveReaders.PayloadExactly` | crates/artifacts/src/container_image.rs:480-501 | A header announces a payload exactly if its size is readable, does not overflow and is at most 16384 for an extension; the payload is the size rounded up to whole blocks. |
| `ArchiveNames.JoinInjective` | crates/artifacts/src/container_image.rs:337-341 | Distinct component paths have distinct normalised names. |
| `ArchiveNames.SplitJoin` | crates/artifacts/src/container_image.rs:337-341 | Splitting undoes joining. |
| `ArchiveNames.BelowDirectories` | crates/artifacts/src/container_image.rs:386-397 | The loop over last slashes decides the recursive property of all prefixes. |
| `ArchiveNames.WalkVisits` | crates/artifacts/src/container_image.rs:386-397 | Cutting bytes at slashes visits exactly the proper component prefixes. |
| `ArchiveNames.CheckNames` | crates/artifacts/src/container_image.rs:332-398 | The loops over entries, table and targets accept a member list if and only if every entry is allowed, names are distinct, and in tree mode every member above a name or hard-link target is a directory. |
| `ArchiveNames.OrderIrrelevant` | crates/artifacts/src/container_image.rs:332-398 | Acceptance does not depend on the order of entries. |
| `NameFacts.SplitExactly` | crates/artifacts/src/container_image.rs:422-428 | Splitting finds exactly the stretches of a name between slashes. |
| `NameFacts.ValidPathExactly` | crates/artifacts/src/container_image.rs:422-428 | A name is admitted exactly if it has 1 to 4096 bytes, is relative, holds no NUL and has no component of two dots. |
| `NameFacts.EntryExactly` | crates/artifacts/src/container_image.rs:342-381 | A member is admitted exactly by its name, kind, and link target. |
| `Extraction.ExtractSafe` | crates/artifacts/src/container_image.rs:309-320 | Extracting one more member of an accepted list meets only directories and lands at the member's lexical path. |
| `Extraction.RunKeeps` | crates/artifacts/src/container_image.rs:309-320 | Over a whole extraction every node stays explained by a member extracted before. |
| `Extraction.LinkSafe` | crates/artifacts/src/container_image.rs:384-398 | An accepted archive extracted in any order never traverses a link or file, and every member ends at its lexical path with its own content. |
| `Extraction.CheckIsNeeded` | crates/artifacts/src/container_image.rs:384-398 | A list with a file or symbolic link above another member's name or hard-link target has an order that walks into it. |
| `Extraction.LinkCheckIsNeeded` | crates/artifacts/src/container_image.rs:384-398 | The same with a hard link above another member, if its target is a listed file or symbolic link not below the link itself. |
| `Extraction.HardLinkShares` | crates/artifacts/src/container_image.rs:365-374 | A hard link is placed exactly if its target's lexical path already holds a file or link, and shares that node. |
| `Tar.ReadsBack` | crates/artifacts/src/container_image_archive.rs:58-66 | Packed files are read back in order, with their offsets and sizes. |
| `Tar.PackReadsBack` | crates/artifacts/src/container_image_archive.rs:31-55 | A packed archive has the framed length, one header for each file, and zeros after its end marker. |
| `Tar.PackContents` | crates/artifacts/src/container_image_archive.rs:31-55 | The content of each file lies where its member says. |
| `ContainerImage.DigestRoundTrip` | crates/artifacts/src/container_image.rs:266-279 | Exactly one text denotes a digest. |
| `ContainerImage.TailIsZero` | crates/artifacts/src/container_image.rs:399-410 | The reading loop accepts exactly an all-zero tail. |
| `ContainerImage.InspectArchive` | crates/artifacts/src/container_image.rs:322-420 | An archive is accepted exactly if it is sound, within the byte limit and the entry budget; digest, size and entries left are exact. |
| `ContainerImage.ReadBlob` | crates/artifacts/src/container_image.rs:526-531 | A blob is accepted exactly if its content has the declared size and digest. |
| `ContainerImage.VerifyLayer` | crates/artifacts/src/container_image.rs:163-191 | A layer passes exactly if it is in order by itself and fits what is left of all three budgets. |
| `ContainerImage.NextLayer` | crates/artifacts/src/container_image.rs:171-191 | The running budgets equal the sums over the layers done and never run over or under. |
| `ContainerImage.OneMoreLayer` | crates/artifacts/src/container_image.rs:163-191 | One turn of the loop succeeds exactly if the layers so far and this one are admitted, and keeps the totals. |
| `ContainerImage.VerifyLayers` | crates/artifacts/src/container_image.rs:159-191 | The loop accepts exactly if every layer is in order and the three sums are within the limits. |
| `ContainerImage.VerifyContainerImage` | crates/artifacts/src/container_image.rs:97-202 | The returned image is the one the declarative description of admission gives, or none; `ImageAdmission` says what that is of the documents and bytes. |
| `OciArchive.ArchiveBytesIs` | crates/artifacts/src/container_image.rs:26-37 | The checked arithmetic gives the plain sum exactly if that fits 64 bits. |
| `OciArchive.AppendBlobs` | crates/artifacts/src/container_image_archive.rs:39-54 | Each digest is written once, where it first occurs; it fails exactly if one of those blobs is not intact. |
| `OciArchive.WriteContainerImageArchive` | crates/artifacts/src/container_image_archive.rs:10-56 | An archive of exactly the layout's members is written if and only if the manifest is the admitted one and the blobs are intact. |
| `OciArchive.BuildIndex` | crates/artifacts/src/container_image_restore.rs:150-166 | The loop fills the member index, and fails on a foreign name, kind or repetition. |
| `OciArchive.VerifyArchive` | crates/artifacts/src/container_image_restore.rs:133-229 | Restoring gives the image and index that the stages determine, or nothing. |
| `OciLayout.LayoutLeadsTo` | crates/artifacts/src/container_image_restore.rs:167-206 | A layout leads to a manifest only with version 1.0.0 and an index of schema version 2 with one entry, for Linux on the architecture, with the manifest's digest, size and type, and no other keys. |
| `OciLayout.RestoredArchive` | crates/artifacts/src/container_image_restore.rs:133-229 | A restored archive has its artifact's size and digest, is within the budget and sound, and holds the members its image needs, each once as a plain file, and no others. |
| `OciMembers.BlobPathInjective` | crates/artifacts/src/container_image_archive.rs:114-116 | Different digests have different member names. |
| `OciMembers.BlobPathNeat` | crates/artifacts/src/container_image_restore.rs:235-240 | Blob names are valid, in normal form, accepted as members and short enough for a plain header. |
| `OciMembers.PackSound` | crates/artifacts/src/container_image_archive.rs:31-55 | A written archive passes the archive inspection with one header for each member. |
| `OciMembers.PackIndex` | crates/artifacts/src/container_image_restore.rs:150-166 | Indexing a written archive leads to the content of each member, and to no other name. |
| `ImageFacts.VerifiedFacts` | crates/artifacts/src/container_image.rs:97-202 | Every blob of an admitted image is intact and all sizes are within the limits. |
| `ImageAdmission.LayerExactly` | crates/artifacts/src/container_image.rs:163-191 | A layer is admitted exactly if its descriptor names a stored blob that carries, by the transport of its media type, a sound archive with the digest the configuration gives. |
| `ImageAdmission.TransportDecides` | crates/artifacts/src/container_image.rs:163-189 | A layer of either gzip type stored as the compression of an archive is admitted with that archive, a plain layer with its own bytes, any other type is refused. |
| `ImageAdmission.ManifestExactly` | crates/artifacts/src/container_image.rs:104-135 | A manifest is admitted exactly with schema version 2, one of two manifest and two configuration types, no artifact type or subject, and within the limits. |
| `ImageAdmission.ConfigurationExactly` | crates/artifacts/src/container_image.rs:145-158 | A configuration is admitted exactly for Linux on the architecture, with a root of type layers and one digest for each layer. |
| `ImageAdmission.AdmittedImage` | crates/artifacts/src/container_image.rs:97-202 | Of an admitted image: what its manifest and configuration documents show under each key, that each layer's stored bytes carry a sound archive with its DiffID, and that these archives are as long as the image says and within the limits. |
| `ImageFacts.VerifiedAgrees` | crates/artifacts/src/container_image.rs:97-202 | Admission depends on the store only through the image's own blobs. |
| `ImageFacts.RaisedLimits` | crates/artifacts/src/container_image.rs:97-202 | An image admitted under some limits is admitted as the same image under higher ones. |
| `ImageFacts.FreshCovers` | crates/artifacts/src/container_image_archive.rs:39-43 | Every digest is in the archive although repetitions are skipped. |
| `OciRoundTrip.WithinArchiveBytes` | crates/artifacts/src/container_image.rs:26-37 | The tar-framed length of an admitted image is at most `archive_bytes` if the two documents fit the JSON limit. |
| `OciRoundTrip.IndexReads` | crates/artifacts/src/container_image_archive.rs:21-30 | The written index decodes to one entry describing the manifest. |
| `OciRoundTrip.StoreAgrees` | crates/artifacts/src/container_image_restore.rs:208-216 | The archive gives every blob back as the store had it, though repeated digests are written once. |
| `OciRoundTrip.DocumentsTooLarge` | crates/artifacts/src/container_image_restore.rs:167-180 | An image whose layout or index document exceeds the JSON limit is written but never restored. |
| `OciRoundTrip.RoundTrip` | crates/artifacts/src/container_image_restore.rs:133-229 | An admitted image can be written, and its archive restores to the identical image if and only if the documents fit and the budget can be computed; then it is within the budget. |
| `OciRoundTrip.EveryImageOutgrowsTheBudget` | crates/artifacts/src/container_image_restore.rs:140-144 | Every admitted image is admitted and written but not restored under the same limits with the largest layer limit. |
| `ExampleTar.FormatIsLawful` | crates/artifacts/src/container_image_archive.rs:118-127 | A header codec with padded names and eight-byte sizes meets the laws asked of the tar library. |
| `Example.FormatsAreLawful` | crates/artifacts/src/container_image_archive.rs:21-56 | Concrete formats meet all laws. |
| `Example.ImageIsAdmitted` | crates/artifacts/src/container_image.rs:97-202 | A concrete one-layer image is admitted under all limits that are large enough. |
| `Example.RoundTripOfTheImage` | crates/artifacts/src/container_image_restore.rs:133-229 | That image is written, and restored exactly if the 30-byte layout document fits and the budget can be computed. |
| `Example.WrittenButNotRestored` | crates/artifacts/src/container_image_restore.rs:167-180 | With a JSON limit of 29 bytes the image is admitted and written and not restored; with 30 it is restored. |
| `Example.SnapshotOfItself` | crates/artifacts/src/container_image_snapshot.rs:43-160 | The image is a snapshot of itself, with every hypothesis of the soundness theorem met. |
| `Example.ConversionApplies` | crates/artifacts/src/container_image_archive.rs:68-112 | The hypotheses of the conversion theorem are met for that image. |
| `Example.SetupExists` | crates/artifacts/src/container_image.rs:97-202 | The digest the example assumes exists. |
| `Snapshot.StageLayer` | crates/artifacts/src/container_image_snapshot.rs:70-99 | Compressing piece by piece stages, counts and hashes the whole layer, and fails exactly over the limit. |
| `Snapshot.BuildSnapshot` | crates/artifacts/src/container_image_snapshot.rs:51-153 | A snapshot is built from two readings of the root filesystem exactly if the configuration is the source's, the first reading is sound and within the limits, the second is the same and everything generated fits. |
| `Snapshot.WriteContainerSnapshotImage` | crates/artifacts/src/container_image_snapshot.rs:43-160 | A snapshot is returned exactly if it could be built, the scratch file still holds the layer and the third reading is like the first; the archive is that of the returned image. |
| `SnapshotSound.EditedDiffIds` | crates/artifacts/src/container_image_snapshot.rs:100-111 | The edited configuration keeps the platform and declares exactly the new layer. |
| `SnapshotSound.EditKeepsTheRest` | crates/artifacts/src/container_image_snapshot.rs:100-111 | Read back, the edited configuration has every key of the source's with its value, but no history, and the one new layer as its root. |
| `SnapshotSound.SnapshotKeepsConfiguration` | crates/artifacts/src/container_image_snapshot.rs:51-153 | So it is in every snapshot built; its layer is the compression of what was read and its identity that of what was inspected. |
| `SnapshotSound.ShortcutIsSound` | crates/artifacts/src/container_image_snapshot.rs:143-153 | For a verified source the image built without verification equals what verification returns on the generated manifest and blobs under the same limits. |
| `SnapshotSound.SnapshotRestores` | crates/artifacts/src/container_image_snapshot.rs:131-159 | The published archive restores to the returned image exactly if its documents fit, even if the scratch file was read back changed. |
| `DockerArchive.AppendLayers` | crates/artifacts/src/container_image_archive.rs:95-110 | Each DiffID is written once with the blob it first occurs with. |
| `DockerArchive.WriteDockerArchive` | crates/artifacts/src/container_image_archive.rs:68-112 | The archive holds the manifest, the configuration and the layers, and is written exactly if the blobs needed are intact. |
| `DockerFaithful.ManifestLists` | crates/artifacts/src/container_image_archive.rs:73-82 | The emitted manifest decodes to the configuration's path and one path for each DiffID. |
| `DockerFaithful.ConversionPreservesMeaning` | crates/artifacts/src/container_image_archive.rs:68-112 | The archive of an admitted image is written; member names are unique, the i-th listed path names a member that carries, by its own transport, an archive with DiffID i even when layers share one, and the configuration member is byte-identical. |
| `DirectoryBackup.CopyChecked` | crates/artifacts/src/container_image_restore.rs:93-114 | The copy counts exactly if digest, size, tree check and stored layer pass, and is then the whole unpacked layer. |
| `DirectoryBackup.WriteContainerDirectoryArchive` | crates/artifacts/src/container_image_restore.rs:70-116 | Nothing is handed out unless the archive restores; otherwise what the checks allow. |
| `DirectoryBackup.BackupIsOriginal` | crates/artifacts/src/container_image_restore.rs:67-116 | Of a one-layer archive exactly the tar that the stored layer carries by its own transport, which has DiffID 0, is handed out, if and only if its tree is sound. |
| `SnapshotBackup.SnapshotHandsBack` | crates/artifacts/src/container_image_restore.rs:67-116 | Whatever archive restores to a snapshot's image, the directory handed out is the root filesystem the snapshot was taken of, byte for byte, exactly if its tree is sound. |
| `DirectoryBackup.OnlyOneLayer` | crates/artifacts/src/container_image_restore.rs:79-81 | Archives with another number of layers give nothing. |
| `DirectoryBackup.BackupIsLinkSafe` | crates/artifacts/src/container_image_restore.rs:104-111 | Whatever is handed out can be extracted in any order without meeting a link. |
| `R2Condition.HeadersFollowTheStandard` | crates/artifacts/src/r2_model.rs:142-222 | In header form an existing object satisfies the condition exactly if the precedence of section 13.2.2 of RFC 9110 performs the request. |
| `R2Condition.RoundedTimesCompare` | crates/artifacts/src/r2_model.rs:216-222 | Comparing times rounded down to seconds is comparing with the whole second of the date, before 1970 too. |
| `R2Condition.MissingIsStricter` | crates/artifacts/src/r2_model.rs:184-193 | A missing object is never treated more leniently than the standard, and alike exactly if no date clause is in force. |
| `R2Condition.MissingWithDateDiffers` | crates/artifacts/src/r2_model.rs:184-193 | A date clause for a missing object on which the facade and the standard differ. |
| `R2Condition.FieldFormImpliesHeaderForm` | crates/artifacts/src/r2_model.rs:194-215 | Satisfying every clause satisfies the header form. |
| `R2Condition.TagDecides` | crates/artifacts/src/r2_model.rs:194-215 | What one object satisfies, every object with its tag satisfies if and only if no date clause is in force. |
| `R2Store.JustifiedSatisfies` | crates/artifacts/src/r2_put.rs:85-103 | Where no date clause is in force, a state let through by the fence itself satisfies the condition. |
| `R2Store.DateIsNotFenced` | crates/artifacts/src/r2_put.rs:85-103 | With a date clause the fence lets through an object with the observed tag that fails the condition. |
| `R2Store.PutModeFor` | crates/artifacts/src/r2_put.rs:85-103 | The fence is create-only or the observed tag; declining means the observed state failed the condition, and the plan fails exactly if the look failed. |
| `R2Store.VerifyPut` | crates/artifacts/src/r2_put.rs:105-126 | A write is reported exactly if the look that follows succeeds and shows an object with this version and facts; a look that shows anything else is an integrity error, and a failed look is reported as unavailable. |
| `R2Store.FinalPrecondition` | crates/artifacts/src/r2_put.rs:128-145 | After the last attempt the call declines exactly if the state read then fails the condition. |
| `R2Store.Attempt` | crates/artifacts/src/r2_put.rs:29-83 | One look and one write: it commits at most once over a state it may replace, and is tried again only if nothing was written. |
| `R2Store.Settle` | crates/artifacts/src/r2_put.rs:72-81 | A done write is verified, a refused one tried again or judged at the last attempt, an unavailable one left in doubt, any other error reported. |
| `R2Store.PutFile` | crates/artifacts/src/r2_put.rs:20-83 | At most three writes are tried and at most one takes effect, over a state of the call that bears the tag of one observed to satisfy the condition, and itself satisfies it if no date clause is in force; success means it did, declining means nothing was written and the condition failed at some moment. Without faults the result is never in doubt, and unavailable only after three refused writes. Undisturbed, the write is done if the object satisfies the condition and declined if not. |
| `R2Store.GetObject` | crates/artifacts/src/r2.rs:184-243 | A body, a failed precondition and a missing object are each justified by a state of the call; without a date clause in force the body's object itself satisfies the condition. Without faults a read is unavailable only if other writers disturbed both attempts; undisturbed the result is what the object and condition determine. |
| `R2Store.ResolveRangeIsExact` | crates/artifacts/src/r2.rs:495-519 | A range resolves exactly if it is well formed and asks for a byte of the object, and then to the bytes it asks for. |
| `R2Codec.OwnNamesDistinct` | crates/artifacts/src/r2_codec.rs:12-22 | No two metadata names of the codec share a header. |
| `R2Codec.MaskTextCanonical` | crates/artifacts/src/r2_codec.rs:45-127 | A field mask is accepted exactly in the canonical numeral of a number up to 63. |
| `R2Codec.QuoteInverse` | crates/artifacts/src/r2_codec.rs:154-172 | Quoting and unquoting of entity tags are inverse. |
| `R2Codec.ExposedExactly` | crates/artifacts/src/r2_model.rs:285-308 | Of every algorithm the digest is exposed exactly if it is MD5 or was asked for, and its text decodes to the digest computed. |
| `R2Codec.DecodedFacts` | crates/artifacts/src/r2_codec.rs:45-172 | Whatever decodes has schema 1, a version 7 UUID, a usable tag, a known storage class or none, and checksums of the right length; size and time are the provider's. |
| `R2Codec.RoundTrip` | crates/artifacts/src/r2.rs:409-474 | Decoding what was written returns every original field whatever the provider adds to undeclared headers, and succeeds exactly if no declared header was dropped and the tag is usable. |
| `R2Codec.WritingFailsOnlyWhenOversized` | crates/artifacts/src/r2_codec.rs:25-36 | Writing fails exactly for custom metadata of more than 4096 bytes. |
| `R2Codec.ReadingIsInjective` | crates/artifacts/src/r2_codec.rs:45-152 | Objects that decode alike hold the same text under every name of the codec but the storage class. |
| `Authority.StepKeeps` | crates/artifacts/src/preflight.rs:96-191 | Every step of any instance, with lost replies and crashes, keeps the invariant. |
| `Authority.RunKeeps` | crates/artifacts/src/preflight.rs:96-191 | The invariant holds in every state of every run. |
| `Authority.MarkersNeverChange` | crates/artifacts/src/preflight.rs:152-191 | A marker, once stored, stays unchanged. |
| `Authority.R2FollowsSystem` | crates/artifacts/src/preflight.rs:101-117 | From a store where it holds, a marker under the R2 prefix is always the one under the system prefix. |
| `Authority.SingleAuthority` | crates/artifacts/src/preflight.rs:96-150 | Any two instances that succeed, at any two moments, expected the same marker. |
| `Authority.HalfInitialisedIsFinal` | crates/artifacts/src/preflight.rs:102-114 | With exactly one marker stored and every instance ended, no later instance succeeds. |
| `Authority.CrashLeavesHalf` | crates/artifacts/src/preflight.rs:115-117 | A crash between the two creations reaches such a state. |
| `Authority.LostReplyLeavesHalf` | crates/artifacts/src/preflight.rs:165-186 | So does a creation that takes effect while its reply is lost. |
| `Authority.VerifiesExactly` | crates/artifacts/src/preflight.rs:136-150 | Undisturbed, a verification succeeds exactly if both markers are its own, fails at a corrupt one, mismatches otherwise, and changes nothing. |
| `Authority.VerifierOnlyReads` | crates/artifacts/src/preflight.rs:136-150 | In every run an instance that verifies never creates a marker. |
| `Authority.FailureIsCut` | crates/artifacts/src/preflight.rs:96-191 | In every run an instance fails exactly if it met a fault, a corrupt marker or a lost reply. |
| `Authority.CreatesOnlyWhatWasMissing` | crates/artifacts/src/preflight.rs:152-191 | Whenever an instance creates a marker its last step was a read that found none there. |
| `Authority.AloneSucceeds` | crates/artifacts/src/preflight.rs:101-117 | From any state with an empty store an undisturbed new instance succeeds and leaves both markers. |
| `Authority.ReturnsToItsOwn` | crates/artifacts/src/preflight.rs:101-117 | From any state with both of its markers an undisturbed new instance succeeds and changes nothing. |
| `Authority.RestartCondition` | crates/artifacts/src/preflight.rs:96-191 | Once no instance is at work, a new one can succeed if and only if the store holds no marker or both of its own. |
| `DirectoryQuota.NodesUnique` | apps/container-sidecar/directory_quota_linux.go:78-124 | No directory of a well-named tree occurs twice among its nodes. |
| `DirectoryQuota.NodesCounted` | apps/container-sidecar/directory_quota_linux.go:78-124 | The number of nodes is the size of the tree. |
| `DirectoryQuota.QuotaChildren` | apps/container-sidecar/directory_quota_linux.go:126-142 | The children are listed exactly if they are within the budget and all directories. |
| `DirectoryQuota.Visit` | apps/container-sidecar/directory_quota_linux.go:88-122 | A visit succeeds exactly if its node passes all checks, and changes at most that node's attributes. |
| `DirectoryQuota.InheritDirectoryQuota` | apps/container-sidecar/directory_quota_linux.go:78-124 | The worklist ends, both exhaustion guards are unreachable, and it succeeds exactly if the tree has at most 100,000 directories, nothing else, and every node is accepted; then each node is assigned exactly once. An assigned node has the project, inherits it and keeps every other flag; no other node changes. |
| `QuotaFilter.LoadableHalts` | apps/container-sidecar/exec_supervisor_quota_linux.go:41-61 | A loadable program halts at one of its own return instructions. |
| `QuotaFilter.RulesLoadable` | apps/container-sidecar/exec_supervisor_quota_linux.go:41-61 | The rules have known opcodes, aligned loads and forward jumps inside the program. |
| `QuotaFilter.KernelNumbers` | apps/container-sidecar/exec_supervisor_quota_linux.go:41-61 | The three requests are the kernel's encodings of type, number and size, and refusals return errno 1 and 38. |
| `QuotaFilter.X32Alias` | apps/container-sidecar/exec_supervisor_quota_linux.go:41-61 | Clearing bit 30 identifies exactly a number and its x32 alias. |
| `QuotaFilter.FilterMeaning` | apps/container-sidecar/exec_supervisor_quota_linux.go:41-61 | For every call the rules return EPERM exactly for ioctl with one of the three requests, ENOSYS exactly for a third architecture, and ALLOW otherwise. |
| `QuotaFilter.HostsRefuse` | apps/container-sidecar/exec_supervisor_quota_linux.go:15-39 | On both supported hosts a call is refused exactly if it is numbered ioctl, natively with or without the x32 bit or in compatibility mode, and makes a project-changing request. |
| `QuotaFilter.OwnX32NumberAllowed` | apps/container-sidecar/exec_supervisor_quota_linux.go:41-61 | Number 514 with the x32 bit is not among them and is allowed. |

## Left out

- Sockets, deadlines, PTYs, credentials, capabilities and the authentication handshake: only their outcomes occur, as nondeterministic results.
- SHA-256, MD5, HMAC, gzip, base64 and JSON text: uninterpreted, with inverse laws as hypotheses.
- PAX and GNU extension headers: what the tar library reports for a whole archive is uninterpreted; only archives of plain headers are read block by block.
- CallbackProtocol.StepKeeps: the goroutines are steps of a transition system on values, so the pool's in-place update is modelled in `CallbackPool.Pool` only.
- ExecSupervisor.StepKeeps: the supervisor's fields are updated by building successor states, not in place.
- Authority.StepKeeps: instances and the object store are values of a transition system; each store operation is atomic.
- OciArchive.VerifyArchive: the artifact file is taken not to change while it is read; `Snapshot` does model changing files.
- ContainerImage.ReadBlob: a read that fails with an I/O error is a blob the store does not have, since every error is reported alike.
- ArchiveReaders.InspectStream: the 256 KiB buffer between the two readers is one more rechunking and has no state of its own.
- Extraction.LinkCheckIsNeeded: says nothing of a hard link whose target is no listed file or symbolic link or lies below the link itself, since such a link may never be put in place.
- DockerFaithful.ConversionPreservesMeaning: members must be small enough for a tar header; which transport an importer guesses from the bytes is not part of this model.
- DirectoryQuota.Visit: a host may ignore a write whole; one that applies the project and not the inheritance flag of the same write is not modelled.
- R2Store.PutFile: multipart uploads, encryption keys and checksums of the stored body are one abstract value of facts about the object.
- The preflight canary object: only the marker phase of a preflight is modelled, so an instance succeeds when its markers are in place.
- Caches, local and remote stores, Git repositories, snapshots of working trees, admission of configuration, health and capability reports: validators and adapters that would add easy members.
