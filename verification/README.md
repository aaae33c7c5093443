# Proofs about nelli's coverage transport, shard scheduler and table scripts

This project models, in Dafny, the parts of the repository whose correctness rests on an argument
rather than on a reading of one function, and proves those arguments. `dafny verify dfyconfig.toml`
checks it.

**The shared-memory transport** (`src/nelli/nelli_shm.c`). A writer process zeroes a staging
buffer, fills it, flips `published` and bumps `generation`; readers in other processes copy
without a lock and re-check `generation`. It is modelled twice and the two are tied together.

- `ShmProtocol` is a step machine: one load or store per step, `memcpy` byte by byte in any order,
  any number of readers, a signal or a kill at any step, a new writer process after a death. A
  schedule is any sequence of steps. `ShmSafety` holds the invariant, `ShmTheorems` the promises,
  `ShmTakeover` exactly when a new writer process may take a segment over, `ShmSolo` what an
  undisturbed reader gets, `ShmWitness` concrete schedules that break the two conditions of the
  safety theorem.
- `ShmChannel` is the code as classes over arrays and loops, each operation proved against an
  abstract channel (last snapshot, armed or not); `ShmSequences` describes any sequence of calls;
  `ShmAtomic` proves that the step machine's resets and publishes are those same abstract steps.
- `ShmAttach` and `ShmLayout` model attaching to named segments, `WinLatch` the Windows publish
  sites running on overlapping threads, and `WinReset` those sites beside a main thread that resets.

**The producers** (`src/nelli/nelli_cov.c`, with the readers in `src/nelli/fuzz.nim` and
`src/nelli/coverage.nim`): `PcovDump`, `CmpLog`, `CovRuntime`, `EdgeMap`, over the byte fields of
`LittleEndian`; `LogTransport` carries the comparison log through the step machine.

**The shard scheduler** (`scripts/derive-ci-suites.ps1`): `ShardPlan` runs the script's loops,
`Lpt`, `LptPlace` and `LptTight` hold the scheduling theory (with a proof that the bound is tight
for every number of shards), `ShardTheorems` what the derived shards promise, over `Sorting`.

**The scripts** `scripts/gen-pcre-ucd.py` (`UcdRuns`, `UcdCaseSets`) and
`scripts/rfc0005-flips.py` (`DiffHunks`).

## What the code does that its comments do not say

- The no-torn-read promise in the header comment of `nelli_shm.c` needs two conditions. First, a
  new writer process may take a segment over from a dead one exactly when no reader is exposed: none
  trusts the current generation while it still has a byte to copy out of the unpublished buffer
  (`ShmTakeover.TakeoverIff`). That can only be so when the dead writer stopped between its
  `published` and `generation` stores, after an earlier generation store
  (`ShmSafety.ExposedMeans`; `ShmWitness.StaleTakeoverTears` reaches such a state). What a new
  writer can check itself is enough: `published` equal to `generation` modulo 2, as long as no
  earlier takeover lost a commit, or that the generation was never stored
  (`ShmSafety.InStepIsSafe`). After one lost commit the parities mean the opposite
  (`ShmSafety.InStepMeans`). Second, exactly 2^32 publishes inside one attempt bring the generation
  word back (`ShmWitness.WrappedGenerationTears`).
- The Windows latch excludes publish from publish, not publish from a reset on another thread: a
  reset that is erasing the staging buffer while a publish of anything at all has not flipped can
  make a read return 1 with other bytes, and nothing else can (`WinReset.CollisionIff`).
- During the first reset of a process the gate is still clear, so a signal there does publish. The
  model keeps that case; the guarantees hold in it.
- `pt_shm_ch_init` answers 0 for a name it is already attached to whatever capacity is asked for
  (`ShmLayout.ShortcutIgnoresCapacity`). It compares a copy of the name cut at 255 characters, which
  can stand for another name only after an attach to a name of 256 or more characters, such as
  `shm_open` ordinarily refuses (`ShmLayout.AttachedToTheNameAsked`). When an object was sized by an
  attach whose `mmap` then failed, a later attach of a larger capacity claims it with its buffers
  outside the mapping (`ShmLayout.CutCreationOverflows`); buffers stay in bounds exactly on the runs
  in which no attach claims a sized but unclaimed object that is too small (`ShmLayout.BoundsIff`).
- A total of counters of 4 GiB or more wraps the 32-bit sum: the gather is then a publish only if
  the wrapped total still exceeds the capacity (`CovRuntime.GatherIsPublishIff`), and the dump is
  rejected (`PcovDump.WrappedDumpIsRejected`).
- Nothing checks the target id of a coverage dump (`PcovDump.OneByteCorruption`). Counter writes
  may come up short unnoticed by the writer; the reader rejects every such file
  (`PcovDump.AcceptedIffComplete`).
- The empty-shard check of `derive-ci-suites.ps1` can fire with as many suites as shards: an
  estimate of zero is placed on top of shard 0 until every other shard has some time
  (`ShardTheorems.EmptyShardIff`). The comment above line 214 still speaks of a round-robin; the
  placement below it is longest first.
- `hunks_of` loses a removed line whose content starts with `-- ` and takes an added line whose
  content starts with `++ ` for a path line (`DiffHunks.ReaderUndoesPrinterIff`).

## Model

| member | source | states |
|---|---|---|
| `ShmSafety.WriterStepKeeps` | src/nelli/nelli_shm.c:612-651 | every load or store of reset and publish keeps the writer invariant: the published buffer holds the newest snapshot, generation counts the bumps, the staging buffer fills towards the pending one, at most one commit per re-arm |
| `ShmSafety.WriterStepHarmless` | src/nelli/nelli_shm.c:612-651 | no writer step short of the next generation store touches a buffer some reader may still trust |
| `ShmSafety.ReaderStepKeeps` | src/nelli/nelli_shm.c:653-667 | every load of a read keeps what the reader has copied so far equal to one snapshot, for as long as its generation stands |
| `ShmSafety.ExecInv` | src/nelli/nelli_shm.c:612-667 | the invariant holds after every schedule; its part about what readers have copied after every schedule whose takeovers find no reader exposed |
| `ShmSafety.ExposedMeans` | src/nelli/nelli_shm.c:635-637 | a reader can be exposed only while a commit lacks its generation store and some generation store has landed before |
| `ShmSafety.InStepMeans` | src/nelli/nelli_shm.c:635-637 | published equals generation modulo 2 iff an even number of commits lack their generation store |
| `ShmSafety.InStepIsSafe` | src/nelli/nelli_shm.c:635-637 | a new writer that finds the segment in step, with nothing or an even number lost before, or the generation never stored, exposes no reader |
| `ShmSafety.OrderlyIsCareful` | src/nelli/nelli_shm.c:635-637 | when every takeover finds the segment in step, none exposes a reader and no commit is ever lost |
| `ShmTakeover.TakeoverIff` | src/nelli/nelli_shm.c:612-667 | after any run whose earlier takeovers were safe, a takeover is safe iff no reader is exposed: then and only then every continuation delivers the beginning of the snapshot a call names |
| `ShmTakeover.ExposedIsSpoilt` | src/nelli/nelli_shm.c:620-667 | for every capacity and any number of readers, one publish by the new process, without a further takeover, makes an exposed reader return 1 with other bytes than those of the commit it names |
| `ShmTheorems.NoTornRead` | src/nelli/nelli_shm.c:612-667 | over every interleaving whose takeovers find no reader exposed, a read that returns 1 after a nonzero generation delivers the first min(outCap, length) bytes of one committed snapshot, itself a whole publish request cut at the capacity |
| `ShmTheorems.CommitsAreOffered` | src/nelli/nelli_shm.c:629-651 | every committed snapshot is one publish request, from a call or a handler, cut at the capacity |
| `ShmTheorems.WhichSnapshot` | src/nelli/nelli_shm.c:629-667 | over every schedule, a read that trusted generation store g delivers commit g or g+1, plus the commits lost at takeovers, no older than what was visible at its start and no newer than at its end |
| `ShmTheorems.ReadsNeverGoBack` | src/nelli/nelli_shm.c:653-667 | over every schedule and across all readers, a call that begins after another returned never delivers an older commit; only the two calls' own generation words must not have wrapped |
| `ShmTheorems.OneReaderNeverGoesBack` | src/nelli/nelli_shm.c:653-667 | over every schedule, successive successful reads of one reader never return an older commit |
| `ShmTheorems.GivesUpOnlyAfterFourCommits` | src/nelli/nelli_shm.c:653-667 | over every schedule, an attached read returns 0 only if at least four generation stores landed during the call |
| `ShmWitness.FourStoresExhaust` | src/nelli/nelli_shm.c:657-666 | the bound is exact: in some run a read returns 0 after exactly four generation stores |
| `ShmTheorems.CommitsBoundedByResets` | src/nelli/nelli_shm.c:612-638 | over every schedule commits never exceed completed resets plus writer lifetimes, and apart from those lost at takeovers are at most one ahead of generation stores |
| `ShmTheorems.SignalIsSafe` | src/nelli/nelli_cov.c:586 | a signal at any writer step: with the gate set nothing a reader can see changes again in that lifetime; with it clear at most one more snapshot is committed, and exactly the handler's when the handler ends uninterrupted |
| `ShmSolo.OnlyCommitsAreVisible` | src/nelli/nelli_shm.c:46-56 | what a reader gets is the same at every step of a reset and of a publish before its flip: only commits change it |
| `ShmSolo.ReadableIsNewest` | src/nelli/nelli_shm.c:629-638 | what the segment offers is the newest committed snapshot |
| `ShmSolo.UndisturbedReadSucceeds` | src/nelli/nelli_shm.c:653-667 | a read during which no other process moves returns 1 with exactly what the segment offers |
| `ShmWitness.StaleTakeoverTears` | src/nelli/nelli_shm.c:612-638 | a state with an exposed reader is reachable: a concrete schedule in which a takeover between the two commit stores makes a read return 1 with bytes of no snapshot at all |
| `ShmWitness.WrappedGenerationTears` | src/nelli/nelli_shm.c:636-663 | with a single immortal writer, exactly 2^32 publishes inside one attempt make a read return 1 with bytes of no snapshot |
| `ShmAtomic.PublishIsAtomic` | src/nelli/nelli_shm.c:620-651 | a publish of the step machine that returns without a signal, whatever readers do and in whatever order its bytes move, equals the abstract publish |
| `ShmAtomic.ResetIsAtomic` | src/nelli/nelli_shm.c:612-618 | a reset of the step machine equals the abstract reset when it returns and changes nothing, the gate included, before; the staging buffer is then blank |
| `ShmAtomic.PublishCompletes` | src/nelli/nelli_shm.c:620-651 | from any idle state a publish left alone comes to its end, with the abstract publish's effect |
| `ShmAtomic.ResetCompletes` | src/nelli/nelli_shm.c:612-618 | so does a reset |
| `ShmAtomic.ReadsAgree` | src/nelli/nelli_shm.c:653-663 | the segment offers a reader of the step machine what the abstract channel delivers |
| `ShmChannel.Segment.constructor` | src/nelli/nelli_shm.c:552-565 | a new segment: empty snapshot, generation 0, not truncated |
| `ShmChannel.SlowZero` | src/nelli/nelli_shm.c:680-693 | zeroes the whole buffer |
| `ShmChannel.Channel.ResetBuffer` | src/nelli/nelli_shm.c:612-618 | re-arms, leaves the snapshot alone, and leaves the staging buffer zero with length 0 |
| `ShmChannel.Channel.Begin` | src/nelli/nelli_shm.c:620-627 | hands out the staging buffer exactly when attached and armed, and disarms |
| `ShmChannel.Channel.Commit` | src/nelli/nelli_shm.c:629-638 | the staged bytes, clamped, become the snapshot; generation goes up by one modulo 2^32; truncated is set exactly when the total exceeded the capacity, and stays |
| `ShmChannel.Channel.PublishBytes` | src/nelli/nelli_shm.c:640-651 | an armed publish makes the cut data the snapshot, any other changes nothing |
| `ShmChannel.Channel.Read` | src/nelli/nelli_shm.c:653-667 | returns 0 when detached, else 1 with the snapshot cut at the caller's buffer, writing nothing past it and changing nothing |
| `ShmSequences.AnySequence` | src/nelli/nelli_shm.c:612-667 | after any sequence of calls: armed iff every publish was followed by a reset, generation counts the publishes that took effect, truncated iff one of them was too long, snapshot is the last of them |
| `ShmSequences.ReadDeliversLastEffective` | src/nelli/nelli_shm.c:640-667 | a read after any sequence delivers the last publish that took effect, cut at both capacities |
| `ShmAttach.OperatingSystem.Open` | src/nelli/nelli_shm.c:480-547 | open, owner check, sizing and mapping with any one call failing: result code and namespace |
| `ShmAttach.Channel.AdoptHeader` | src/nelli/nelli_shm.c:550-598 | claims a blank header, agrees with an established one, or refuses it untouched |
| `ShmAttach.Channel.Init` | src/nelli/nelli_shm.c:400-599 | a whole attach or re-attach, every error path included |
| `ShmLayout.AttachLeavesSegmentsAlone` | src/nelli/nelli_shm.c:552-582 | no attach changes a segment in use: not its header, size, owner or bytes |
| `ShmLayout.SizeIsFixed` | src/nelli/nelli_shm.c:527-546 | a segment's size, once nonzero, its owner and its nonzero capacity never change |
| `ShmLayout.AttachSucceedsIff` | src/nelli/nelli_shm.c:480-599 | 0 iff the name is free, or its object is ours, empty or of at least 24 bytes, and unclaimed or of the capacity asked for, and no call that is needed fails |
| `ShmLayout.AttachedResult` | src/nelli/nelli_shm.c:527-598 | what success leaves: freshlyCreated iff the segment was unclaimed, which is then sized 24 + 2 * capacity if empty and its header blanked; otherwise nothing changes; the buffers are at 24 and 24 + capacity |
| `ShmLayout.FailedAttach` | src/nelli/nelli_shm.c:401-429 | no name or no capacity answers -1 and changes nothing; any failed try leaves the channel detached |
| `ShmLayout.JoiningSucceeds` | src/nelli/nelli_shm.c:583-598 | at any point of any run, the same user attaching to an established segment with its capacity gets it, not as creator, and changes nothing |
| `ShmLayout.RefusalIff` | src/nelli/nelli_shm.c:523-582 | with no call failing: -3 iff another user owns the object, -2 iff an established capacity differs; both leave every object as it was and the channel detached |
| `ShmLayout.ShortcutIgnoresCapacity` | src/nelli/nelli_shm.c:402-408 | attaching again to the attached name answers 0 and changes nothing, whatever the capacity |
| `ShmLayout.AttachedToTheNameAsked` | src/nelli/nelli_shm.c:402-408 | at any point of any run, success means being attached to the name asked for, except exactly when the kept 255-character copy of a longer attached name equals it |
| `ShmLayout.InBoundsIff` | src/nelli/nelli_shm.c:527-591 | a fresh attach has both buffers inside its mapping iff the object was empty or at least as large as the capacity calls for |
| `ShmLayout.BoundsIff` | src/nelli/nelli_shm.c:527-591 | along a run every attachment stays inside its mapping iff no attach claims an object that was sized, but never claimed, for a smaller capacity |
| `ShmLayout.LayoutAgrees` | src/nelli/nelli_shm.c:400-599 | over every run from no segments, failures included: each attached channel has its segment's capacity and size, keeps its segment's name, and its two buffers are disjoint |
| `ShmLayout.LayoutAgreesWithOneCapacity` | src/nelli/nelli_shm.c:400-599 | when a name is always attached with one capacity, every object stays sized for it and no buffer ever leaves its mapping, whatever calls fail |
| `ShmLayout.CutCreationOverflows` | src/nelli/nelli_shm.c:527-591 | an attach that fails after sizing, then a larger one: accepted, with a buffer outside the mapping |
| `ShmLayout.OneCreatorPerSegment` | src/nelli/nelli_shm.c:552-584 | over any run exactly one attach per claimed segment reports freshlyCreated |
| `WinLatch.EnteredAtMostOnce` | src/nelli/nelli_cov.c:529-583 | over every interleaving of the publish sites the publish body is entered at most once, by one thread at a time |
| `WinLatch.LatchDecides` | src/nelli/nelli_cov.c:539-542 | the first thread to compare goes in with its data, every later one leaves; nothing a reader can see changes |
| `WinLatch.DeadIsStill` | src/nelli/nelli_cov.c:544-584 | once the process is gone its threads and the segment stay as they are |
| `WinLatch.CommitsAreCalled` | src/nelli/nelli_cov.c:539-542 | over every interleaving each committed snapshot is what some publish site was called with, cut at the capacity |
| `WinLatch.FirstCallIsCommitted` | src/nelli/nelli_cov.c:539-542 | while the latch is free, a site whose thread compares first goes on to commit exactly its data, cut at the capacity, and to bump the generation |
| `WinLatch.ProcessIsSingleWriter` | src/nelli/nelli_cov.c:539-634 | every interleaving of the publish sites, in a process that does not reset, is a run of the single-writer machine without restarts |
| `WinLatch.NoTornReadAcrossThreads` | src/nelli/nelli_cov.c:539-634 | in such a process a reader that is delivered bytes gets the beginning of the one snapshot ever committed, which is what some site was called with, cut at the capacity |
| `WinReset.NoTornReadBesideResets` | src/nelli/nelli_cov.c:422-449 | beside any number of resets on the main thread, the same holds, snapshot and site included, as long as none erases under a publish that has not flipped |
| `WinReset.CollisionIff` | src/nelli/nelli_cov.c:529-583 | after any run without a collision, what is under way can spoil a read iff it collides now: the main thread is erasing and a publish of something has not flipped |
| `WinReset.SomeRunCollides` | src/nelli/nelli_cov.c:422-449 | for every capacity and any data such a collision is reachable |
| `WinReset.CommitsAreCalledBeside` | src/nelli/nelli_cov.c:539-542 | beside resets too, each committed snapshot is what some site was called with, cut at the capacity |
| `LittleEndian.GetPut` | src/nelli/nelli_cov.c:209-212 | reading a little-endian field back gives the number written, if it fits the field |
| `LittleEndian.PutGet` | src/nelli/nelli_cov.c:209-212 | writing back what was read gives the bytes |
| `LittleEndian.GetFour` | src/nelli/nelli_cov.c:209-209 | the least significant byte comes first |
| `PcovDump.DecodeMap` | src/nelli/fuzz.nim:2586-2606 | the reader's checks in order and its summing loop |
| `PcovDump.RoundTrip` | src/nelli/fuzz.nim:2586-2606 | decoding a complete dump returns its counters |
| `PcovDump.Layout` | src/nelli/nelli_cov.c:13-15 | a complete dump byte by byte: the letters PCOV, the words 1, target id and length, the counters, their plain sum modulo 2^32 |
| `PcovDump.DecodeOkIff` | src/nelli/fuzz.nim:2586-2606 | the reader accepts a file with these counters iff it is their complete dump, for some target id |
| `PcovDump.Rejections` | src/nelli/fuzz.nim:2591-2605 | which of the four checks a file fails, in order |
| `PcovDump.OneByteCorruption` | src/nelli/fuzz.nim:2586-2606 | any single changed byte is rejected, except in the target id, where the same counters come back |
| `PcovDump.StrictPrefixIsRejected` | src/nelli/fuzz.nim:2591-2598 | every strict prefix of a dump is rejected |
| `PcovDump.CutFileIsRejected` | src/nelli/fuzz.nim:2591-2598 | a whole header announcing more bytes than follow is rejected by length |
| `PcovDump.AcceptedIffComplete` | src/nelli/nelli_cov.c:373-389 | with writes taking any prefix of their bytes, the published file decodes iff every write was complete, and then to the concatenated regions |
| `PcovDump.PublishedIff` | src/nelli/nelli_cov.c:373-373 | a file is published iff its header write was complete |
| `PcovDump.WrappedDumpIsRejected` | src/nelli/nelli_cov.c:366-372 | a complete dump of 4 GiB of counters or more is rejected by its length |
| `PcovDump.AddUp` | src/nelli/nelli_cov.c:382 | the 32-bit sum over one region |
| `PcovDump.TotalLength` | src/nelli/nelli_cov.c:366 | the length of the concatenated regions modulo 2^32 |
| `PcovDump.WriteRegions` | src/nelli/nelli_cov.c:379-385 | the bytes that land and the sum over all regions |
| `PcovDump.WriteDump` | src/nelli/nelli_cov.c:350-390 | at most one dump per gate; what is published when writes come up short |
| `CmpLog.ParseLog` | src/nelli/coverage.nim:487-538 | the parsing loop, stopping at the first byte that begins no whole record |
| `CmpLog.RoundTrip` | src/nelli/coverage.nim:467-538 | parsing any encoded log of integer, byte and string pairs gives the pairs back |
| `CmpLog.ParseCutLog` | src/nelli/coverage.nim:487-538 | a log cut at any byte parses to exactly the records that are whole in it |
| `CmpLog.WholeRecordsFit` | src/nelli/coverage.nim:487-495 | those are the longest run of leading records that fits |
| `CmpLog.ParseIsMaximal` | src/nelli/coverage.nim:487-538 | of any bytes whatever: they start with the encoding of what is returned, and no further record follows it |
| `CmpLog.IntPairLayout` | src/nelli/coverage.nim:467-475 | an integer record byte by byte: kind 0, operator, width, two eight-byte little-endian words |
| `CmpLog.StringPairLayout` | src/nelli/coverage.nim:476-485 | a byte or text record byte by byte: kind 1 or 2, operator, two strings with four-byte lengths |
| `CovRuntime.LogIsFirstRecords` | src/nelli/nelli_cov.c:281-296 | after any number of log calls the buffer is the encoding of the first min(n, 3449) pairs, within 65536 bytes |
| `CovRuntime.LogEndToEnd` | src/nelli/nelli_cov.c:307-321 | logging, publishing and reading into any buffer parses to the leading pairs that are whole in it, to all of the first 3449 if it is as large as the log |
| `LogTransport.LogReadsAreOneRun` | src/nelli/nelli_cov.c:307-321 | over every interleaving on the log channel, what a reader is delivered parses to the first pairs of one run whose log was published, to all of its first 3449 if the buffer is as large as the log |
| `CovRuntime.Gather` | src/nelli/nelli_cov.c:406-417 | the staging buffer starts with the concatenated regions cut at its length; the total counts all of them modulo 2^32 |
| `CovRuntime.PublishRegions` | src/nelli/nelli_cov.c:397-420 | gathering and committing makes the concatenated regions, cut at the capacity and at their 32-bit total, the snapshot |
| `CovRuntime.GatherIsPublishIff` | src/nelli/nelli_cov.c:400-419 | that is a publish of the concatenated regions iff their total does not wrap, or wraps to more than the capacity, or to exactly the capacity with truncation already flagged |
| `CovRuntime.PutRecord` | src/nelli/nelli_cov.c:289-293 | appends one encoded record at the given offset |
| `CovRuntime.Target.RegisterRegion` | src/nelli/nelli_cov.c:200-206 | keeps the first 256 regions in order |
| `CovRuntime.Target.PublishCounters` | src/nelli/nelli_cov.c:397-420 | publishes the regions on the coverage channel; the log channel, the log and the counters stay |
| `CovRuntime.Target.LogInt` | src/nelli/nelli_cov.c:281-296 | logs the pair, or drops it whole past the cap or when disabled |
| `CovRuntime.Target.PublishCmp` | src/nelli/nelli_cov.c:307-321 | publishes the log on its own channel when enabled; the coverage channel stays |
| `CovRuntime.Target.PublishAll` | src/nelli/nelli_cov.c:490-501 | each channel gets its own snapshot, neither gate starves the other |
| `CovRuntime.Target.ResetAll` | src/nelli/nelli_cov.c:422-449 | counters zero, log empty, both channels re-armed with their snapshots kept |
| `EdgeMap.CellsCountEdges` | src/nelli/nelli_cov.c:187-193 | after any trace each cell holds min(255, number of its edges hashed to it) |
| `EdgeMap.EdgeBits` | src/nelli/nelli_cov.c:188-192 | each edge's cell is below 2^16, and its bit i is the exclusive or of bits i+4 and i+12 of the return address and bits i+5 and i+13 of the one before |
| `EdgeMap.XorBit` | src/nelli/nelli_cov.c:189-190 | a bit of the exclusive or is set iff exactly one of the two bits is |
| `EdgeMap.BitsDetermine` | src/nelli/nelli_cov.c:190-190 | a cell is determined by its bits |
| `EdgeMap.FoldBit` | src/nelli/nelli_cov.c:189-189 | bit i of a folded address is the exclusive or of its bits i+4 and i+12 |
| `EdgeMap.Map.Trace` | src/nelli/nelli_cov.c:187-193 | one edge, with the index in range and the cell saturating |
| `EdgeMap.Map.Reset` | src/nelli/nelli_cov.c:430-432 | after any earlier trace the map and the previous location are those of a fresh process |
| `EdgeMap.StalePreviousLeaks` | src/nelli/nelli_cov.c:432-441 | without resetting the previous location some run's map depends on the run before |
| `Lpt.LoadsAddUp` | scripts/derive-ci-suites.ps1:296-303 | the shards' loads add up to the total time |
| `Lpt.WithoutItsLast` | scripts/derive-ci-suites.ps1:296-303 | a shard without its last suite is no heavier than any other shard ends up |
| `Lpt.LoadBound` | scripts/derive-ci-suites.ps1:296-303 | m times any load is at most the total plus m-1 times the longest suite |
| `Lpt.AnyOrderBound` | scripts/derive-ci-suites.ps1:296-303 | in any order of the suites the heaviest shard is within 2 - 1/m of any plan's |
| `Lpt.LongestFirstBound` | scripts/derive-ci-suites.ps1:295-303 | longest first, 3m times the heaviest shard is at most 4m-1 times any plan's heaviest |
| `LptTight.BoundIsTight` | scripts/derive-ci-suites.ps1:295-303 | for every m some suites meet that bound with equality |
| `LptPlace.PlaceIsLeastLoaded` | scripts/derive-ci-suites.ps1:296-303 | the loop places every suite on a shard that is least loaded at that moment |
| `LptPlace.NoShardEmptyIff` | scripts/derive-ci-suites.ps1:296-303 | no shard stays empty iff there are at least m suites and at least m-1 of them take time |
| `ShardPlan.EstimateTimes` | scripts/derive-ci-suites.ps1:279-283 | every suite's estimate and their total |
| `ShardPlan.FindLightest` | scripts/derive-ci-suites.ps1:297-300 | the first of the least loaded shards |
| `ShardPlan.PlaceOne` | scripts/derive-ci-suites.ps1:297-302 | one turn of the placement loop extends the placement by one suite |
| `ShardPlan.PlaceSuites` | scripts/derive-ci-suites.ps1:289-303 | the loads and the shards' contents after all suites |
| `ShardPlan.SortShards` | scripts/derive-ci-suites.ps1:305-309 | each shard in name order |
| `ShardPlan.Derive` | scripts/derive-ci-suites.ps1:129-329 | the whole derivation with its seven failures, in order |
| `ShardTheorems.DeriveSucceedsIff` | scripts/derive-ci-suites.ps1:129-329 | succeeds iff the scan-tail list is nonempty with the matrix's suites, both lists name registered suites and none twice, at least 150 suites remain and they fill the shards; the result is then their shards |
| `ShardTheorems.DeriveFails` | scripts/derive-ci-suites.ps1:129-329 | otherwise which of the seven failures, by the first condition that breaks |
| `ShardTheorems.EmptyShardIsFirst` | scripts/derive-ci-suites.ps1:324-327 | the shard named as empty is the first empty one |
| `ShardTheorems.ShardCountIsLeast` | scripts/derive-ci-suites.ps1:266-284 | the number of shards is the least m >= 17 with total <= m * 23 minutes |
| `ShardTheorems.PlacementOrder` | scripts/derive-ci-suites.ps1:294-309 | suites are placed longest first, ties by name, and each shard lists its suites in name order |
| `ShardTheorems.AccountingIff` | scripts/derive-ci-suites.ps1:202-212 | the accounting check passes iff matrix and skip list name no suite twice, within or across |
| `ShardTheorems.EverySuiteRunsOnce` | scripts/derive-ci-suites.ps1:194-329 | every registered suite is in exactly one of matrix, skip list and one shard, nothing else is sharded, no shard is empty or repeats a suite |
| `ShardTheorems.CorpusIsPartitioned` | scripts/derive-ci-suites.ps1:289-309 | each suite of the corpus is on exactly one shard |
| `ShardTheorems.ListingOrderIsIrrelevant` | scripts/derive-ci-suites.ps1:194-329 | the outcome does not depend on the order in which suites, matrix or skip entries are listed |
| `ShardTheorems.OrderedTotal` | scripts/derive-ci-suites.ps1:283-295 | sorting keeps the total the shard count is derived from |
| `ShardTheorems.LoadIsShardTime` | scripts/derive-ci-suites.ps1:301-309 | the load kept for a shard is the estimated time of the suites it lists |
| `ShardTheorems.TargetKept` | scripts/derive-ci-suites.ps1:266-303 | with the derived count no shard exceeds the 23-minute target by more than the longest suite |
| `ShardTheorems.WithinFourThirds` | scripts/derive-ci-suites.ps1:284-303 | against any other assignment of the corpus to as many shards, 3m times any shard is at most 4m-1 times that assignment's heaviest |
| `ShardTheorems.EmptyShardIff` | scripts/derive-ci-suites.ps1:323-329 | the empty-shard check passes iff there are at least as many suites as shards and at least one fewer with a nonzero estimate |
| `ShardTheorems.DefaultIsMedian` | scripts/derive-ci-suites.ps1:277-278 | an unmeasured suite counts at the upper median of the measured ones, 45 s if there are none |
| `Sorting.SortedIsUnique` | scripts/derive-ci-suites.ps1:203-203 | a strictly ordered list is determined by its elements |
| `UcdRuns.Ranges` | scripts/gen-pcre-ucd.py:123-133 | sorted ranges with a gap of at least one, whose union is exactly the predicate on 0..last |
| `UcdRuns.RangesAreMinimal` | scripts/gen-pcre-ucd.py:123-133 | that list is the only gapped one, and no range list with the same union, sorted or not, is shorter |
| `UcdRuns.OtherCaseRuns` | scripts/gen-pcre-ucd.py:136-146 | runs sorted, disjoint, nonempty, maximal, listing exactly the nonzero offsets |
| `UcdRuns.OtherCaseDecodes` | scripts/gen-pcre-ucd.py:136-146 | looking up any code point gives c + other[c]; no run list that describes the table is shorter and no other canonical one exists |
| `UcdRuns.CanonicalIsMinimal` | scripts/gen-pcre-ucd.py:123-146 | no description of a table by runs is shorter than the canonical one |
| `UcdRuns.CanonicalIsUnique` | scripts/gen-pcre-ucd.py:123-146 | a table has one canonical description |
| `UcdCaseSets.ReadSet` | scripts/gen-pcre-ucd.py:152-156 | one set's members, up to the next terminator or the end |
| `UcdCaseSets.Split` | scripts/gen-pcre-ucd.py:149-158 | fails iff more than one element is given and the last is no terminator; otherwise rejoining the sets with terminators rebuilds the array and each offset is where its set starts |
| `UcdCaseSets.SplitIsUnique` | scripts/gen-pcre-ucd.py:149-158 | an array splits into one list of sets |
| `UcdCaseSets.SetIsAtItsOffset` | scripts/gen-pcre-ucd.py:152-157 | each set is what stands in the array from its offset to the next terminator |
| `UcdCaseSets.OffsetsAreSorted` | scripts/gen-pcre-ucd.py:159 | sorting the offsets changes nothing, so a set's index is its place in table order |
| `UcdCaseSets.CaseSetOfPoints` | scripts/gen-pcre-ucd.py:160 | fails iff some code point names an offset where no set starts; otherwise one pair for each code point with a set, in order |
| `UcdCaseSets.CaseTablesDecode` | scripts/gen-pcre-ucd.py:147-160 | the pair listed for a code point leads to exactly the set starting at that code point's offset |
| `DiffHunks.HunksOf` | scripts/rfc0005-flips.py:70-90 | the parser's loop over the lines, flushes included |
| `DiffHunks.PlusNumberFinds` | scripts/rfc0005-flips.py:83-84 | the start taken from a hunk header is the number printed after its first plus sign |
| `DiffHunks.PlusNumberAbsent` | scripts/rfc0005-flips.py:83-84 | without a plus sign before a digit the start is 0 |
| `DiffHunks.ReadByFile` | scripts/rfc0005-flips.py:74-77 | a new file's first line separates it from everything before: the hunks of a diff are those of its files in order |
| `DiffHunks.ReaderUndoesPrinter` | scripts/rfc0005-flips.py:70-90 | reading a printed diff gives back exactly the hunks with a changed line in files whose new side is a path, with path, start and both line lists intact; deleted files and quoted paths give none |
| `DiffHunks.ReaderUndoesPrinterIff` | scripts/rfc0005-flips.py:70-90 | it does so iff no removed content starts with "-- " and no added content with "++ " in such a file |

## Left out

- Weak memory: steps interleave sequentially; acquire, release and interlocked operations are single steps.
- The Win32 arm of attaching, racing first creators (an attach is one step) and handles and descriptors.
- `pt_shm_commit` without a successful begin is not a step of the machine.
- `ShmTheorems.NoTornRead`, as `ShmTheorems.WhichSnapshot` and the ordering lemmas: fewer than 2^32 generation stores inside a call's last attempt are assumed, and for an empty answer inside the whole run.
- `ShmTakeover.TakeoverIff`: a segment of capacity 0, which attaching refuses, is excluded.
- `CovRuntime.Gather`: a region that reaches 4 GiB together with the capacity is excluded, because the 32-bit `off + take` then wraps and the copy leaves the buffer; the publish methods exclude it too.
- `PcovDump.WriteDump`: a single region of 4 GiB or more is excluded.
- `PcovDump.AcceptedIffComplete`: totals below 4 GiB; above, a short write may by chance match the wrapped length.
- `CovRuntime.LogEndToEnd`: a signal between the bytes of one log record is not modelled; whole records are claimed between complete log calls.
- `CovRuntime.Target.PublishAll`: the choice between segment and file, the lazy attach and the gcc backend's single region are not modelled; that region is the case of one region.
- `WinReset.NoTornReadBesideResets`, as `WinLatch.NoTornReadAcrossThreads`: `pt_shm_publish_now` bypasses the latch and is excluded.
- `CmpLog.RoundTrip`: string operands are byte sequences; lengths stay below 2^32 as in the source's fields.
- `EdgeMap.Map.Trace`: a return address is a natural number of any size.
- `ShardPlan.Derive`: parsing the task file, workflow and times table is left out, times are whole tenths of a second as the table stores them rather than doubles, and names are ranks in the culture's sort order, so case-insensitive equality of names is not modelled.
- `UcdRuns.Ranges`: the last code point is a parameter (0x10FFFF in the script), and evaluating the property predicates from the tables, and reading the tables record by record, are not modelled.
- `DiffHunks.ReaderUndoesPrinter`: the diff is given as lines, so content with further line separators is not modelled; nor are files with a quoted path that add a line starting `++ b/`, non-ASCII digits, or git's tab after a path with blanks.
- `statuses` and the flip test of `rfc0005-flips.py`: set expressions over regular-expression matches.
- Environment variables, debug output, constructors, signal registration, clocks and the scripts' printing.
- The symbolic-execution engine, the fuzz loop, the frontier and the shrinker.
