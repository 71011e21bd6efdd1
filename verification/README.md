# Verified model of the crash-safe append-log queue

This project models the append-log store and the queue, envelope and outbox on top of it, and proves what they promise. The
files of a store are a map from names to bytes; every call that changes them, the truncation at mount included, may fail
without effect, and a crash may cut any write after any number of bytes. On that ground the model follows the code: an event log
of ENQUEUE, POP and REWRITE events in generation-numbered segments, a manifest in two slots, an index in RAM, and a compactor that
rewrites stretches of the log.

How the files are arranged:

- `bytes`, `crc32`, `codec`, `manifest_codec`, `scan`: bytes, checksums, the on-disk forms, and reading one segment back.
- `log_replay`, `log_compaction`, `dependencies`: replay as a fold, and what compaction does to the replay of the whole log.
- `layout`, `disk`, `slots`, `coherence`: ranges and their order, the file system object, slot election, what files mean.
- `session`, `session_compaction`, `compaction_output`, `compaction_step`, `packing`, `sorting`, `collecting`, `selection`,
  `mounting`: the state in RAM, what ties it to the files, and how every kind of write carries the tie over.
- `store`: the store as a class; its mutable fields are kept in one record, `ram`, that the methods update.
- `validator`, `queue`, `envelope`, `outbox`: the validator and the layers above the store.
- `damage`: what one changed byte does to an event, a segment header and a manifest.
- `runs`: whole runs, with failing calls, crashes and remounts.
- `witnesses`: stores on which a property fails, with the session that a mount of them starts.

Five ideas carry the proofs. A store is *sound* when its index, sizes, counters and slot cache fit the files; every method
keeps that, after failures too. While the ghost flag `durable` is up, a remount of the files would rebuild exactly this index
and tail, and every generation the tail's events touch is recorded. While `exact` is up, the byte counter equals the summed
sizes of all files. A session is *tidy* while nothing lies behind its tail's last event. Crash safety is stated over the trace
of writes: a stretch of the trace is *recoverable* when a crash at any byte of any of its writes leaves an initialised coherent
store with the queue before the operation or the one after it; where records give way to a new one on the way, with the queue
between two of its states. A store is *small* when no segment file, now or at any point of the writes so far, is larger than the
configured segment size, or than a header and one POP where that is more.

The specification functions say when the code rotates, compacts, chooses, admits and drains. What they must come to is stated
beside them in other terms: the sizes of the files (`TailTook`, `WellSized`, `GrowthTight`), the measure that a step lowers
(`WorthExact`), sums of dead bytes compared without dividing (`Choose`, `DeadIsWaste`), the encoded bytes (`Damage.NextExact`), and
what the sender answered (`Drains`, `Submitted`).

What the proofs show about the code, where a reader might expect otherwise:

- Compaction is invisible in the session for any input, but not always to a remount. The POPs and REWRITEs of the compacted
  stretch are dropped, and only the tail's dependencies are checked, not those of sealed segments. The exact condition is that the
  stretch leaves the records stored before it as a prefix of the replay. `Witnesses.DeadPopTaken` is a sound store in which the
  next compaction step chooses a stretch that does not, and brings a popped record back. Stretches at the front of the log always
  meet the condition.
- The check on the tail's dependencies is complete for records that are still stored elsewhere
  (`Dependencies.AffectedComplete`), but it does not see a REWRITE whose record has no other copy left
  (`Witnesses.OrphanTailReorders`). The exact condition can be read off the index: every record stored before the input must be
  older than every other live record (`Dependencies.SealableExact`).
- The comment at `src/pqueue/append_log_store/store.cpp` line 378 says that a failed truncation at mount leaves recovery
  deterministic. That holds for the mount itself, not for what the session then writes: an event written over the torn end may
  uncover bytes behind it that parse as events (`Witnesses.LeftoverReplayed`), and sealing the tail makes the next mount refuse
  the store (`Witnesses.LeftoverStrands`). The exact conditions are in `Session.AppendDurable` and `Session.UntidyRotation`.
- Crash safety begins with the first published manifest (`Mounting.FirstSegmentStrands`).
- A stretch whose first live record fits no segment, which a store mounted with a smaller segment size can hold, may be declined
  although rewriting it would gain something: the preflight counts one segment more than the packing opens
  (`CompactionStep.OversizedDeclined`). In every other case the check is exact (`CompactionStep.WorthExact`).
- Keeping segments within the configured size keeps them within the size that mount accepts. Nothing bounds the number of
  generations so, and `Runs.AnyRun` shows that this is the only limit of mount that a run of a well-sized store can break.
- The comment at `src/pqueue/append_log_store.h` line 208 says that mount clears `activeTailDependenciesTracked_`. The code sets it
  (`src/pqueue/append_log_store/store.cpp` line 410), and the model follows the code; since it is then always set, it is not a
  field of the model.

## Model

| member | source | states |
|---|---|---|
| Crc.TableCrc32 | src/pqueue/append_log_common.cpp:9-25 | the table-driven loop computes the CRC-32 of section 8 of RFC 1952 as defined bit by bit, on every input |
| Crc.BuildTable | src/pqueue/envelope.cpp:14-28 | each of the 256 entries is eight steps of the bitwise division of its index |
| Crc.DetectsOneByte | src/pqueue/append_log_common.cpp:9-25 | two messages of equal length that differ in exactly one byte never have the same checksum |
| Codec.RecordFields | src/pqueue/append_log_common.cpp:135-170 | every field of a serialised ENQUEUE or REWRITE reads back, at its offset, as the value written |
| Codec.PopFields | src/pqueue/append_log_common.cpp:172-185 | the same for a POP event |
| Codec.HeaderAccepted | src/pqueue/append_log_common.cpp:104-133 | a segment that begins with the header written for a generation is accepted under that generation and under no other |
| ManifestCodec.SerialiseManifest | src/pqueue/append_log_common.cpp:216-238 | the loop writes the serialised form |
| ManifestCodec.ParseManifest | src/pqueue/append_log_common.cpp:240-304 | the cursor loop accepts and returns exactly what the parse specification does, for every byte string |
| ManifestCodec.ParseExact | src/pqueue/append_log_common.cpp:216-304 | a byte string parses to a manifest if and only if the manifest is well formed and the string is its serialised form |
| ManifestCodec.TornManifestRejected | src/pqueue/append_log_common.cpp:240-276 | every strict prefix of a serialised manifest is rejected, by length alone |
| Scan.AppendScan | src/pqueue/append_log_store/store.cpp:262-353 | appending a whole event to a clean segment adds exactly that event, found at the exact old end |
| Scan.InterruptedAppend | src/pqueue/append_log_store/store.cpp:262-387 | after any strict prefix of an appended event the scan recovers exactly the old events and stops at the exact old end; no checksum is consulted |
| Scan.Truncated | src/pqueue/append_log_store/store.cpp:370-386 | cutting a segment where its scan stopped leaves the same events and a clean segment |
| Damage.NextExact | src/pqueue/append_log_store/store.cpp:262-353 | bytes are recognised as an event if and only if they begin with its encoded form: magic, version, header size, length, checksum and footer all have to be right |
| Damage.EventDamaged | src/pqueue/append_log_store/store.cpp:262-353 | changing any one byte of an encoded ENQUEUE, REWRITE or POP, outside the four bytes of a payload length, makes the event no longer recognised at its place, whatever follows it |
| Damage.HeaderDamaged | src/pqueue/append_log_common.cpp:104-133 | changing any one byte of a segment header makes the segment unacceptable under every generation |
| Damage.DamageDetected | src/pqueue/append_log_store/store.cpp:284-367 | a listed sealed segment with one such byte changed, in its header or in any of its events, is never replayed: the store does not mount, and the validator reports it |
| Damage.SealedShortened | src/pqueue/append_log_store/store.cpp:365-387 | a sealed segment cut off inside an event is refused, and one cut off between two events accepted |
| Damage.TailDamaged | src/pqueue/append_log_store/store.cpp:365-387 | in the tail the scan stops at the damaged event with exactly the events before it |
| Damage.ManifestDamaged | src/pqueue/append_log_common.cpp:240-304 | a manifest with any one byte changed does not parse |
| LogReplay.PutIsUpsert | src/pqueue/append_log_store/store.cpp:304-328 | on records in order, the find loop and the insert loop of a REWRITE amount to one ordered insert-or-replace |
| LogReplay.GoodSorted | src/pqueue/append_log_store/store.cpp:297-346 | replaying events the store writes keeps the records strictly increasing in sequence |
| LogReplay.UntouchedStays | src/pqueue/append_log_store/store.cpp:304-346 | a record stored in a generation that no event pops or rewrites is still live, unchanged, after the events |
| LogReplay.NothingNew | src/pqueue/append_log_store/store.cpp:297-346 | a live record stored in a generation that the events do not write was live before them |
| LogReplay.NextSequenceExact | src/pqueue/append_log_store/store.cpp:329-344 | the next sequence is beyond every sequence that any event names and one past the highest of them, so a record that is gone does not lend its sequence to another |
| LogReplay.TouchedExact | src/pqueue/append_log_store/store.cpp:297-346 | a generation counts as touched if and only if some event of the tail pops or replaces a record stored there at that moment |
| LogCompaction.CompactionKeepsReplay | src/pqueue/append_log_store/compaction.cpp:384-549 | compaction theorem: replacing a stretch of the log by ENQUEUEs of what is live in it leaves the replay of the whole log the same, payload for payload and in order, with whatever events behind it, if the stretch leaves the records stored before it as a prefix |
| LogCompaction.CompactionExact | src/pqueue/append_log_store/compaction.cpp:384-549 | without events behind the stretch the condition is exact: the queue is the same if and only if the stretch keeps that prefix |
| LogCompaction.NeverShowsExact | src/pqueue/append_log_store/compaction.cpp:384-549 | the exact condition over all later events: compacting the stretch never changes what a replay finds, whatever events follow it, if and only if the stretch leaves the records stored before it as a prefix |
| LogCompaction.CompactionTouched | src/pqueue/append_log_store/compaction.cpp:412-413 | after the compaction the tail's events touch no generation they did not touch before, and none of the compacted ones |
| LogCompaction.FrontKeepsPrefix | src/pqueue/append_log_store/compaction.cpp:604-618 | a stretch at the front of the log always meets the condition |
| LogCompaction.IndependentKeepsPrefix | src/pqueue/append_log_store/compaction.cpp:384-549 | so does a stretch that pops no record stored before it and writes only records newer than all of those |
| LogCompaction.DroppedPopResurrects | src/pqueue/append_log_store/compaction.cpp:384-418 | a concrete log on which compacting a dead middle segment brings a popped record back after a remount |
| Witnesses.OrphanTailReorders | src/pqueue/append_log_store/compaction.cpp:215-228 | a sound store whose tail passes the dependency check and is taken into the step, and whose queue has another order once the step's live records are rewritten |
| Witnesses.DeadPopTaken | src/pqueue/append_log_store/compaction.cpp:22-61 | a sound, durable store, for every configuration: the range chosen, narrowed and accepted is one whose POP names a record stored before it, and a remount after the publish finds that record again |
| Witnesses.LeftoverIsCrash | src/pqueue/append_log_store/store.cpp:499-507 | the torn tail of the next two rows is what a crash leaves after 40 bytes of an append |
| Witnesses.LeftoverReplayed | src/pqueue/append_log_store/store.cpp:377-381 | after a mount that could not cut that end off, a POP written over it makes the next scan find a second POP: the session still reads the second record, a remount has lost it |
| Witnesses.LeftoverStrands | src/pqueue/append_log_store/store.cpp:377-381 | if that session seals its tail instead, the next mount refuses the whole store |
| Dependencies.AffectedComplete | src/pqueue/append_log_store/store.cpp:557-559 | in a durable state every record stored in a generation that is not recorded as affected is still live after all of the tail's events |
| Dependencies.SealableMeans | src/pqueue/append_log_store/compaction.cpp:215-228 | the tail passes the check if and only if it holds an event, the input ends the last range, sealing adds no range, and every generation recorded as affected lies in the input or behind it |
| Dependencies.SealedTailExact | src/pqueue/append_log_store/compaction.cpp:222-228 | for a tail that touches no record stored before a safe stretch: the stretch with the tail is safe if and only if those records are older than everything else then live |
| Dependencies.SealableExact | src/pqueue/append_log_store/compaction.cpp:215-228 | the same for the store's own check on a durable state: with the tail found sealable, the safe input stays safe with the tail if and only if every indexed record stored before the input is older than every other |
| Layout.RotationShape | src/pqueue/append_log_store/store.cpp:428-457 | rotation keeps the manifest's shape and moves the tail, and nothing else, to the end of the sealed generations |
| Layout.InputSlice | src/pqueue/append_log_store/compaction.cpp:170-183 | the input is one contiguous slice of the replay order |
| Layout.SplicedFlatten | src/pqueue/append_log_store/compaction.cpp:482-493 | the splice replaces exactly the input's slice of the replay order by the output |
| Layout.MergedFlatten | src/pqueue/append_log_store/compaction.cpp:495-505 | the two-sided merge changes neither which generations are listed nor their order |
| Layout.CompactionShape | src/pqueue/append_log_store/compaction.cpp:482-510 | after splice and merge, ranges are disjoint, the tail lies outside them, next exceeds every generation, and the flattened list is the old one with the input replaced by the output |
| Slots.InactiveIsOther | src/pqueue/append_log_store/manifest.cpp:23-48 | the slot written is never the one that counts, and the cached path picks the slot the probing path would |
| Slots.PublishAtomic | src/pqueue/append_log_store/manifest.cpp:52-136 | until all bytes of a new manifest are written the old one counts, in its slot; then the new one does, with a higher epoch |
| Coherence.CoherentMounts | src/pqueue/append_log_store/store.cpp:204-387 | a coherent store mounts if and only if it is within the limits on generations and segment size |
| Coherence.RecordsLocated | src/pqueue/append_log_store/store.cpp:297-328 | every record a replay leaves can be read back byte for byte from the place it names |
| Coherence.RecordsDisjoint | src/pqueue/append_log_store/store.cpp:297-328 | the events of two live records never overlap |
| Coherence.AppendCoherent | src/pqueue/append_log_store/store.cpp:499-507 | after any number of bytes of an append the files are coherent and hold the queue without the event or, when whole, with it |
| Coherence.TruncateCoherent | src/pqueue/append_log_store/store.cpp:377-386 | cutting a torn end changes nothing that a replay sees |
| Coherence.RotateCoherent | src/pqueue/append_log_store/store.cpp:421-474 | once the manifest names a fresh tail behind the sealed one the log is the same |
| Coherence.CompactCoherent | src/pqueue/append_log_store/compaction.cpp:449-520 | publishing the compaction of a safe input leaves a coherent store whose records are the old ones, those of the input at their new places |
| Session.DurableView | src/pqueue/append_log_store/store.cpp:843-864 | what a durable session reads is exactly what a remount would find |
| Session.StrayWriteSafe | src/pqueue/append_log_store/store.cpp:416-419 | writing any part of a segment the manifest does not list is safe at every byte |
| Session.PublishSafe | src/pqueue/append_log_store/manifest.cpp:101-119 | a crash at any byte of a manifest write leaves a coherent store with the same queue, when the new manifest holds the same queue |
| Session.NewTailDurable | src/pqueue/append_log_store/store.cpp:421-497 | sealing a tidy tail and publishing a new one: same queue on disk afterwards and at every crash point of both writes |
| Session.UntidyRotation | src/pqueue/append_log_store/store.cpp:377-474 | the exact condition of rotation in a durable session: the store mounts afterwards if and only if nothing lay behind the tail's last event and the mount limits hold |
| Session.NewTailGrowth | src/pqueue/append_log_store/store.cpp:583-620 | the growth estimate is never below the real growth of rotating or of starting the first tail, with the slot cached or unknown |
| Session.GrowthTight | src/pqueue/append_log_store/store.cpp:583-620 | nor is it far above: exact where the tail takes the event; where a new tail is due it is the header alone, or the real growth plus one range entry where the old tail joins the last range and what the slot estimate misses, which is nothing once a manifest was written |
| Session.FullMeans | src/pqueue/append_log_store/store.cpp:681-700 | a store that counts as full would go over its cap with the event, the reserve and, where a new tail is due, its header or real growth and that slack |
| Session.EventReplayed | src/pqueue/append_log_store/store.cpp:297-346 | an event the store writes does to the replayed records what it does to the index, and is legal for them |
| Session.AppendSession | src/pqueue/append_log_store/store.cpp:499-564 | this session after an event written at the tail's end, over whatever was left there: index, tail size, byte counts and every other record's bytes |
| Session.AppendDurable | src/pqueue/append_log_store/store.cpp:499-564 | a remount after an appended event finds the new index if and only if the bytes left over behind the event do not begin with an event; with nothing left over it always does |
| Session.AppendCrash | src/pqueue/append_log_store/store.cpp:499-564 | with nothing left over behind the tail, a crash at any byte of the append finds the old queue or the new |
| SessionCompaction.ReplacedRecords | src/pqueue/append_log_store/compaction.cpp:530-538 | after the replacement pass every record has its old sequence and reads the same bytes, and no two overlap, whatever the input |
| SessionCompaction.RelocateStripped | src/pqueue/append_log_store/compaction.cpp:530-538 | the replacement pass on the index is the relocation that the compaction theorem speaks of |
| SessionCompaction.PlanSession | src/pqueue/append_log_store/compaction.cpp:482-538 | for any input at all, this session reads the same queue across the publish, and the counters stay right |
| SessionCompaction.PlanDurable | src/pqueue/append_log_store/compaction.cpp:482-538 | for a safe input a remount finds the session's index, and a crash at any byte of the publish finds the same queue |
| SessionCompaction.RemovedState | src/pqueue/append_log_store/compaction.cpp:677-713 | removing a retired segment changes no record, keeps the counters right, exact ones exact, and is safe at its crash points |
| Packing.CountOutputs | src/pqueue/append_log_store/compaction.cpp:276-288 | the preflight loop computes the number of segments |
| Packing.Pack | src/pqueue/append_log_store/compaction.cpp:420-441 | the bin-packing loop computes the packing |
| Packing.PackedInSequence | src/pqueue/append_log_store/compaction.cpp:420-441 | the packing holds every record once, in order, in consecutive generations, and no segment is empty |
| Packing.PackedCount | src/pqueue/append_log_store/compaction.cpp:276-288 | it has exactly as many segments as the preflight counted, or one fewer when the first record alone is too large |
| Packing.PackedFits | src/pqueue/append_log_store/compaction.cpp:420-441 | when each record fits a segment, no output exceeds one |
| Packing.PackedTight | src/pqueue/append_log_store/compaction.cpp:420-441 | a segment is opened only for a record that the one before has no room for |
| Packing.PackedTotal | src/pqueue/append_log_store/compaction.cpp:305-311 | all outputs together have exactly the bytes the preflight reckoned |
| CompactionOutput.WrittenScan | src/pqueue/append_log_store/compaction.cpp:457-479 | the bytes written for an output segment scan back to exactly its records, every byte accounted for |
| CompactionOutput.BuildSegment | src/pqueue/append_log_store/compaction.cpp:458-470 | the loop builds those bytes, and the new index entries point at the payloads in them |
| CompactionOutput.OutputsFit | src/pqueue/append_log_store/compaction.cpp:457-479 | when every record fits a segment of its own, every output file on disk is at most maxSegmentBytes; carried through `WriteOutputs`, `RewriteInput` and `CompactRange` |
| Collecting.GroupByGen | src/pqueue/append_log_store/compaction.cpp:67-72 | the records of the input are grouped by generation, each with its own |
| Sorting.SortBy | src/pqueue/append_log_store/compaction.cpp:88-93 | the result is in ascending order of the key and a permutation of the input; used for records by sequence and statistics by generation |
| Collecting.CollectedSorted | src/pqueue/append_log_store/compaction.cpp:63-96 | grouping by segment and sorting yields the input's items in queue order |
| CompactionStep.StepLowers | src/pqueue/append_log_store/compaction.cpp:312-327 | replacing the input by outputs lowers the measure (tail holds events, sealed segments, sealed bytes) if and only if they are fewer, or as many with fewer bytes |
| CompactionStep.WorthByPacking | src/pqueue/append_log_store/compaction.cpp:276-327 | the preflight finds a rewrite worth doing if and only if the packing has fewer segments than the input, or as many and fewer bytes, a first record too large for any segment counting once more |
| CompactionStep.WorthExact | src/pqueue/append_log_store/compaction.cpp:257-327 | a planned input with live records is worth doing if and only if writing them anew, packed, would lower the measure; the direction from lower to worth excepts a first record too large for any segment |
| CompactionStep.OversizedDeclined | src/pqueue/append_log_store/compaction.cpp:276-327 | that exception: one live record too large for a segment, whose segment has dead bytes, is declined although rewriting it would take one segment and fewer bytes |
| CompactionStep.RoomExact | src/pqueue/append_log_store/compaction.cpp:185-213 | the first limit check passes if and only if the spliced list of ranges keeps within the limit |
| CompactionStep.CrowdedExact | src/pqueue/append_log_store/compaction.cpp:230-256 | the second turns an input down if and only if something in it or in the tail is live and the spliced list, with the tail sealed into the parent and one output, would exceed the limit |
| CompactionStep.SealedParent | src/pqueue/append_log_store/compaction.cpp:346-359 | sealing the tail into the input extends the input's parent to the tail and leaves everything before it, within the range limit |
| CompactionStep.DeadFrontPlanned | src/pqueue/append_log_store/compaction.cpp:604-618 | a dead front segment is turned down only where the tail would be sealed along with it and that gains nothing |
| Selection.SegmentStats | src/pqueue/append_log_store/compaction.cpp:98-119 | one entry per sealed generation in replay order, each with header plus live bytes and file size |
| Selection.LiveFits | src/pqueue/append_log_store/compaction.cpp:98-119 | header and live events of a segment never exceed its noted size |
| Selection.Choose | src/pqueue/append_log_store/compaction.cpp:22-61 | the first range without live records; else the first of those with the largest share of dead bytes, Dead(k) * Total(c) <= Dead(c) * Total(k) for every range k; none if and only if every range has live records and no dead bytes |
| Selection.DeadIsWaste | src/pqueue/append_log_store/compaction.cpp:98-119 | the bytes compared: in total what the range's segments are noted with, and dead what neither a header for each segment nor its live events take |
| Selection.LongerCostsMore | src/pqueue/append_log_store/compaction.cpp:588-591 | once a window is over budget every longer one is: the early break misses nothing |
| Selection.SearchWindows | src/pqueue/append_log_store/compaction.cpp:584-600 | the window returned has live bytes within budget times segment size, and no window within that has a larger dead share, compared without dividing |
| Selection.Narrow | src/pqueue/append_log_store/compaction.cpp:556-601 | for any range: the range itself when within budget, its first segment when even that is not, else the best window of the range's segments in generation order |
| Selection.NothingLeftMeans | src/pqueue/append_log_store/compaction.cpp:620-629 | without a budget of outputs, nothing is left to compact if and only if every range holds live records and no dead bytes, or rewriting the chosen range, with the tail where it can be sealed into it, gains nothing |
| Store.AppendLogStore.Publish | src/pqueue/append_log_store/manifest.cpp:52-136 | on success exactly the inactive slot is rewritten and every field takes the manifest over; on failure nothing changes |
| Store.AppendLogStore.ChooseSlot | src/pqueue/append_log_store/manifest.cpp:64-95 | cached and probing path yield the same slot and epoch |
| Store.AppendLogStore.StartTail | src/pqueue/append_log_store/store.cpp:447-474 | writing an empty segment and publishing it as tail: queue unchanged, recoverable at every write; without faults it succeeds if and only if the 32-bit counters and a free slot allow it |
| Store.AppendLogStore.Rotate | src/pqueue/append_log_store/store.cpp:421-474 | rotation leaves the queue unchanged, keeps durability if the tail was tidy, and is recoverable; it reports the range limit if and only if sealing would exceed it, and without faults succeeds if and only if limit, counters and slot allow it |
| Store.AppendLogStore.PrepareTail | src/pqueue/append_log_store/store.cpp:719-739 | a tail with room is there, at no more than the estimated growth; it is a new one if and only if there was none, or the old one held events and the new one would have taken it over the segment size; without faults it succeeds if and only if none is due or one can be started, otherwise with the code that says why not |
| Store.AppendLogStore.AppendEvent | src/pqueue/append_log_store/store.cpp:499-564 | the queue changes by exactly the event, or not at all; durable afterwards if and only if it was and what is left over behind the event is quiet; in a tidy session every crash point is recoverable |
| Store.AppendLogStore.CollectLive | src/pqueue/append_log_store/compaction.cpp:63-96 | exactly the items of the input's live records, in queue order |
| Store.AppendLogStore.WriteOutputs | src/pqueue/append_log_store/compaction.cpp:455-480 | the output segments hold the live records; nothing refers to them yet, a crash anywhere finds the old queue, and no file is larger than the bound when no output is |
| Store.AppendLogStore.SpliceRanges | src/pqueue/append_log_store/compaction.cpp:482-493 | erase and insert amount to the splice |
| Store.AppendLogStore.MergeAround | src/pqueue/append_log_store/compaction.cpp:495-505 | the in-place joins amount to the two-sided merge |
| Store.AppendLogStore.Cleanup | src/pqueue/append_log_store/compaction.cpp:677-713 | removing the retired segments, any of which may fail, keeps the state to come sound and recoverable; without faults none of them is left |
| Store.AppendLogStore.Commit | src/pqueue/append_log_store/compaction.cpp:507-539 | publish, cleanup, dependencies and replacement together: queue unchanged, durable exactly if it was and the input is safe |
| Store.AppendLogStore.ChooseInput | src/pqueue/append_log_store/compaction.cpp:170-327 | it computes the planned input of the specification: which input, if any, passes both range-limit gates and is worth rewriting, and whether the tail is sealed into it |
| Store.AppendLogStore.CompactRange | src/pqueue/append_log_store/compaction.cpp:131-549 | queue unchanged for any input; nothing is done if and only if no input is planned, otherwise exactly that input is taken; durable afterwards if and only if it was, the input is safe, and a tail sealed into it was tidy; recoverable; the reported counts are exact: the sealed segments change by outputs minus inputs, a sealed tail counted in; a step taken lowers the measure; a small store with fitting records stays small; without faults it fails only when the 32-bit counters run out, and the input's files are gone |
| Store.AppendLogStore.NarrowRange | src/pqueue/append_log_store/compaction.cpp:556-601 | the selection above, for any range, on a sound store, where no dead share can be negative |
| Store.AppendLogStore.CompactOneSegment | src/pqueue/append_log_store/compaction.cpp:620-629 | queue unchanged; either nothing is left to compact, or exactly one stretch was taken, the one chosen and planned; in a tidy session, durable afterwards if and only if it was and that stretch is safe; a step taken lowers the measure |
| Store.AppendLogStore.ReclaimDeadFrontSegment | src/pqueue/append_log_store/compaction.cpp:604-618 | queue unchanged both in session and on disk, durability kept in a tidy session; nothing is done if and only if there is no front segment, it holds something live, or sealing the tail along with it gains nothing; measure lowered when a segment goes |
| Store.AppendLogStore.CompactIdle | src/pqueue/append_log_store/compaction.cpp:637-666 | queue unchanged; at most maxSteps steps; fewer only when nothing is left to compact or a step failed; more work is called likely if and only if every step allowed was taken; in a tidy session, durable afterwards if and only if it was and every stretch taken is safe |
| Store.AppendLogStore.CompactFull | src/pqueue/append_log_store/compaction.cpp:668-674 | terminates on every file system, with the queue unchanged; on success nothing is left to compact; in a tidy session, durable afterwards if and only if it was and every stretch taken is safe |
| Store.AppendLogStore.Admit | src/pqueue/append_log_store/store.cpp:681-700 | terminates; on success the event fits under the cap with the reserve; a full store is reported only when it does not fit and nothing is left to compact; no more is compacted than that takes: just before the last step the event did not fit; in a tidy session, durable afterwards if and only if it was and every stretch taken is safe |
| Store.AppendLogStore.PrepareAndAppend | src/pqueue/append_log_store/store.cpp:719-751 | preparing the tail and appending: durable afterwards if and only if it was and the old end was tidy (if sealed) or what it left over is quiet (if written over); the tail grows by the event, or holds only it behind a header, by the sizes alone; without faults it succeeds if and only if the tail is ready; the byte counter itself stays within the cap minus the reserve |
| Store.TooLargeExact | src/pqueue/append_log_store/store.cpp:662-671 | a record within the record limit is too large if and only if a segment with nothing but its encoded event would exceed the segment size |
| Store.AppendLogStore.CommitEnqueue | src/pqueue/append_log_store/store.cpp:646-773 | appended at the end or nothing changed; size and sequence errors; a full store only when nothing is left to compact; on success the tail is within the segment size, and byte counter and summed file sizes within the cap minus the reserve; when the event fits, the tail and layout move exactly as its size demands, and success without faults if and only if the tail is ready; the byte counter stays exact without faults, from the first tail on; a small store stays small; a crash finds the queue before or after |
| Store.AppendLogStore.CommitPop | src/pqueue/append_log_store/store.cpp:775-793 | removes exactly the expected front, any other sequence is refused; on success the tail is within the segment size, or holds this event alone; without faults it succeeds if and only if the tail is ready; a crash finds the queue before or after |
| Store.AppendLogStore.RewriteRecord | src/pqueue/append_log_store/store.cpp:795-841 | replaces exactly the named record's payload in place; same success, cap, size, accounting and crash guarantees |
| Store.AppendLogStore.ReadIndex | src/pqueue/append_log_store/store.cpp:139-150 | count and consecutive sequences of the queue |
| Store.AppendLogStore.ReadRecord | src/pqueue/append_log_store/store.cpp:843-864 | the payload of every live sequence, an error for every other |
| Store.AppendLogStore.ScanOne | src/pqueue/append_log_store/store.cpp:231-387 | accepts exactly the segments the mount demands, replays them into the index and cuts only the last one's torn end, unless that call fails |
| Store.AppendLogStore.Mount | src/pqueue/append_log_store/store.cpp:176-414 | succeeds if and only if the files are mountable; the fields are what the manifest and its log say; a coherent store mounts to a sound, durable state with exactly the queue on disk, whether or not the torn end could be cut off, and tidy when no call failed |
| Store.AppendLogStore.CleanupOneDangling | src/pqueue/append_log_store/compaction.cpp:715-789 | removes at most one segment, one that is not listed, without effect on the queue; without faults it leaves things as they are only when there is none |
| Mounting.ScanEvents | src/pqueue/append_log_store/store.cpp:258-353 | the scan loop computes records, next sequence and touched generations of the replay specification |
| Mounting.MountedSound | src/pqueue/append_log_store/store.cpp:389-414 | what the scan finds of a coherent store is a sound state over the files as they are or with the torn end cut, with exact dependencies and byte counts |
| Mounting.RemountAgrees | src/pqueue/append_log_store/store.cpp:176-414 | a remount of a durable session's files rebuilds the same records, places, order, layout and tail size, cuts nothing in a tidy one, and finds no dependency that was not recorded |
| Mounting.FirstSegmentStrands | src/pqueue/append_log_store/store.cpp:476-489 | before the first manifest there is no crash safety: any part of the first segment file makes the mount fail |
| Validation.ValidateUnlocked | src/pqueue/append_log_store/store.cpp:957-1226 | the report is clean if and only if structure, segments and events are sound |
| Validation.ReadEvent | src/pqueue/append_log_store/store.cpp:1155-1204 | the validator's own reader, which reads an event in pieces, recognises exactly the events that the scan of a mount does, with the same reason to stop |
| Validation.GuardPasses | src/pqueue/append_log_store/store.cpp:1084-1102 | the guard on the number of segments never turns down a store that would otherwise pass |
| Validation.StructureExact | src/pqueue/append_log_store/store.cpp:1036-1079 | the demands on the manifest are met if and only if it has no tail, or lists every generation once with the next one unused |
| Validation.ValidMounts | src/pqueue/append_log_store/store.cpp:957-1226 | a store that validates mounts if and only if it is within the mount limits |
| Validation.CoherentValidates | src/pqueue/append_log_store/store.cpp:1206-1213 | a coherent store validates if and only if its tail does not end in bytes that cannot begin an event |
| Validation.DurableValidates | src/pqueue/append_log_store/store.cpp:957-1226 | the files of a durable, tidy session always validate |
| Queues.Queue.Enqueue | src/pqueue/queue.cpp:240-287 | RejectNewest appends or changes nothing; DropOldest leaves the old contents minus a prefix plus the record, or minus a prefix; each record that gives way does so in a sound store that holds exactly the records from it on, is full for the new one, and has nothing left to compact; a full queue is reported only where the same holds and, under DropOldest, nothing is left to drop; a crash finds the queue between two of these states; a record that fits is taken without faults if and only if the tail is ready |
| Queues.Queue.EvictUntilTaken | src/pqueue/queue.cpp:270-283 | the eviction loop ends, drops records only from the front, each only while the store is full with nothing left to compact, at least one unless that fails, and stops at the first that suffices |
| Queues.Queue.RelievePressure | src/pqueue/queue.cpp:255-268 | under DropOldest a dead front segment goes before any live record, if and only if the record does not fit and the segment can be reclaimed |
| Queues.Queue.Pop | src/pqueue/queue.cpp:358-379 | removes exactly the front record, which a crash either keeps or drops; without faults a pop of a non-empty queue succeeds if and only if the tail is ready |
| Queues.Queue.Peek | src/pqueue/queue.cpp:343-356 | the front record, byte for byte |
| Queues.Queue.RewriteFront | src/pqueue/queue.cpp:381-401 | replaces the front record in its place, or changes nothing; a record that fits is written without faults if and only if the tail is ready |
| Queues.Queue.DropFrontIfCorrupt | src/pqueue/queue.cpp:417-448 | reading the front of a valid store never reports corruption, so the branch below is never taken: no file and no field changes |
| Queues.Queue.DropAfterRead | src/pqueue/queue.cpp:433-447 | what follows the read, for any status it could have: the front is popped if and only if the record reads as corrupt and the pop succeeds |
| Queues.Queue.VisitRecords | src/pqueue/queue.cpp:472-498 | visits a prefix of the contents in order, ending at the first record the visitor stops at |
| Envelope.Encode | src/pqueue/envelope.cpp:87-101 | the string built is the sealed envelope; too long a payload is refused |
| Envelope.Decode | src/pqueue/envelope.cpp:103-132 | the offset-driven reader accepts and returns exactly what the specification does |
| Envelope.OpenedExact | src/pqueue/envelope.cpp:87-132 | a byte string opens to attempts and payload if and only if it is the envelope sealed over them |
| Envelope.OneByteRejected | src/pqueue/envelope.cpp:70-132 | changing any one byte of any envelope makes it undecodable |
| Outboxes.ComputeBase | src/pqueue/outbox.cpp:154-164 | the capped doubling loop computes min(max, initial * 2^exponent), or the capped hint |
| Outboxes.DelaysDouble | src/pqueue/outbox.cpp:154-164 | the first delay is the initial one, each next one twice the one before, a hint takes their place, all up to the cap |
| Outboxes.ComputeRetryDelay | src/pqueue/outbox.cpp:154-185 | never above the cap; the base without jitter; with jitter within its percentage |
| Outboxes.AtMostTwice | src/pqueue/outbox.cpp:483-502 | paced windows put at most twice the allowed attempts into any 1000 ms |
| Outboxes.Outbox.RateBound | src/pqueue/outbox.cpp:483-502 | whatever second is looked at, it holds at most twice the configured number of drain attempts, where 0 stands for 1 |
| Outboxes.Outbox.AllowedWithin | src/pqueue/outbox.cpp:483-502 | an attempt is allowed whenever the last 1000 ms hold fewer than the configured number |
| Outboxes.Outbox.EnqueueRecord | src/pqueue/outbox.cpp:451-467 | the payload is queued last in an envelope with its attempts, or nothing changes; a full queue is reported only when the store is full for that envelope, and without faults an envelope that fits is queued |
| Outboxes.Outbox.Submit | src/pqueue/outbox.cpp:194-246 | the sender is asked if and only if nothing is queued, and its answer decides: sent and dropped are reported as such and queue nothing, retry later queues the payload with a cooldown from the first attempt or reports why not; behind other records the payload is queued last; nothing accepted is lost or reordered |
| Outboxes.Outbox.DrainOne | src/pqueue/outbox.cpp:287-410 | one attempt, on the front payload, made if and only if it decodes, its cooldown is over and the rate allows it; decided by the answer as in SendFront; the front leaves the queue exactly when sent or dropped, or, if it does not decode, while the limit on corrupt drops lasts |
| Outboxes.Outbox.DropCorruptFrontRecord | src/pqueue/outbox.cpp:512-548 | a record that does not decode is popped as long as the limit allows and never beyond it; otherwise an error and no change |
| Outboxes.Outbox.SendFront | src/pqueue/outbox.cpp:343-405 | the sender gets the front payload with its number of attempts, and its answer decides: retry later leaves it in front with a cooldown and one more attempt counted up to 255, sent and dropped take it off the queue under their own counts unless the pop fails, in which case the retry state stays |
| Outboxes.Outbox.DrainUpTo | src/pqueue/outbox.cpp:256-285 | the total is the sum of what its drains reported; it makes at least one attempt when the front decodes and is due; only the last drain may have taken nothing off the queue, and it ends before its limit only on an empty queue, at a payload cooling down, at the rate limit or at a failure; finished is a prefix of accepted, in order |
| Outboxes.Outbox.CoolDown | src/pqueue/outbox.cpp:395-403 | the next attempt is due after the computed delay, at most the cap |
| Runs.Execute | src/pqueue/queue.cpp:240-401 | one command changes the queue as it would a plain list, after records that gave way where that is warranted, or not at all; durability is lost if and only if it took a stretch that is not safe, which takes pressure from the cap or idle compaction; while durable, a crash at every point finds the queue between two of its states; a small store stays small |
| Runs.CompactFromFront | src/pqueue/append_log_store/compaction.cpp:131-549 | compacting from the oldest segment keeps the queue and, in a tidy session, durability |
| Runs.CrashHolds | src/pqueue/append_log_store/store.cpp:231-387 | wherever in a command's writes a crash falls, an initialised coherent store is left with the queue before or after |
| Runs.CrashStaged | src/pqueue/append_log_store/store.cpp:231-387 | the same for a command that records gave way to: what is left holds the queue between two of its states |
| Runs.CrashSmall | src/pqueue/append_log_store/store.cpp:499-507 | nor does a crash at any byte leave a segment larger than the bound |
| Runs.Reboot | src/pqueue/append_log_store/store.cpp:157-174 | a coherent store comes back with exactly its queue unless it is beyond the mount limits, tidy when no call failed |
| Runs.BootUp | src/pqueue/append_log_store/store.cpp:157-174 | the same after any number of mounts that were themselves cut off by crashes |
| Runs.FirstPush | src/pqueue/append_log_store/store.cpp:476-497 | a store on no files mounts empty, and one successful enqueue later is a durable, well-sized store that any run can go on from; without faults a record that is not too large and fits under the cap gets in |
| Runs.AnyRun | src/pqueue/append_log_store/store.cpp:176-864 | over any run, under any cap and either policy, of commands with failing calls and of crashes at any byte of commands and mounts, each boot with its own failing calls, the queue is what a plain list would be after the commands that took effect, up to the first compaction of a stretch that is not safe; reported successes took effect, reported failures did not, interrupted commands did wholly or not at all; records gave way only under DropOldest and only where the store was full with nothing left to compact; it ends early only beyond the mount limits, or where a session whose mount could not cut its tail is asked to write; from well-sized files the segments stay within the segment size, so that only the number of generations can be beyond the limits |
| Runs.PlainRun | src/pqueue/queue.cpp:240-401 | every fault-free run of pushes, pops and rewrites on a new store without a cap: each command succeeds unless its record is too large or there is nothing to pop or rewrite, the contents are the list they make, the byte counter is the size of the files, and no segment was ever above the bound |
| Runs.AnySession | src/pqueue/queue.cpp:240-456 | in any session, with any cap, policy, compaction and failing calls, the queue is a first-in first-out list: records leave it by a POP or, under DropOldest alone, from the front to make room for a new one, each in a state that was full with nothing left to compact; from a tidy state with a tail, durable at the end if and only if it was and every stretch taken was safe; without faults every status is explained by the list or a limit; a small store stays small |
| Runs.FreshSession | src/pqueue/append_log_store/store.cpp:566-581 | any fault-free session on a new store, with any cap, policy and compaction, ends with the byte counter equal to the summed sizes of all files, and no segment was ever above the bound |

## Left out

- Store.AppendLogStore.Publish: where the code would wrap a 32-bit epoch or generation the model returns an error instead, here and in `CreateSegment` and `RewriteInput`; headroom is assumed by the code.
- Store.AppendLogStore.Mount: of a store that is not coherent only the fields are stated, not that the session is sound.
- Store.AppendLogStore.CommitEnqueue: asks its caller for the sequence behind the last live one, as the queue passes it; the code does not check it.
- Store.AppendLogStore.NarrowRange: shares are exact quotients instead of floats.
- LogCompaction.CompactionKeepsReplay: for one given log with events behind the stretch only the sufficient direction is stated, since later events may hide the difference; `CompactionExact` has both directions for a stretch at the end, `NeverShowsExact` over all later events.
- Runs.AnyRun: what the files hold after an unsafe stretch, or once a session with a left-over tail has written, is described call by call.
- Damage.EventDamaged: one byte, and not of a payload length: a changed length moves the checksum itself, and several changed bytes can leave a checksum as it was.
- Session.FullMeans: speaks of a store that could start a tail; one that could not reports that instead once there is room.
- The `minFreeBytes` loops: free space belongs to the device; the model is the code with `minFreeBytes` 0.
- Reads that fail: a failed read returns an error without effect.
- `format()`, which the code does not make crash safe, and write failures that leave part of the bytes behind while the session goes on.
- The byte counters' 32-bit width: they are whole numbers here, and segment sizes are assumed below 4 GiB.
- Lazy mounting (`ensureMounted`), lock files, stale locks and real file systems; on LittleFS truncation rewrites the file, which the model's truncation does not describe.
- File names: segments and slots are named by a datatype, so formatting and recognising names is not modelled.
- Diagnostics, events, timing, statistics of free and dead bytes in results, and validation messages.
- Null checks on spans and callbacks, an unconfigured sender, and a failing statistics call in `submit`.
- DropOldest under the outbox: eviction changes the front without clearing its cooldown, so retry state belongs to the front only under RejectNewest.
- HTTP transports, response classification, the doctor session and tool, benchmarks and simulator: plumbing around the modelled core.
