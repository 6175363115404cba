# Ledge in Dafny

Ledge is a replicated git server: refs live in sharded Raft groups, objects in a
content-addressed store per node. This project models its hardest logic and proves
what that logic keeps.

| part | modules |
|---|---|
| Cross-shard atomic ref commit (two-phase commit with presumed abort) | `RefSlots`, `CrossShardCommit`, `CrossShardAtomicity`, `CrossShardReplies`, `CrossShardEffects`, `CrossShardLimits`, `CrossShardWrites`, `CrossShardDrivers` |
| Git delta codec and packfiles, one writer and two independent readers | `Varints`, `VarintsOnBytes`, `Delta`, `DeltaEncoder`, `PackFormat`, `PackStream`, `PackWriter`, `PackRoundTrip`, `PackIndex` |
| Clone, incremental fetch, shallow clone and deepening, garbage-collector mark | `GraphWalk`, `ObjectGraph`, `Fetch`, `Shallow`, `ShallowDepth`, `ShallowTags`, `ShallowExact`, `Snapshots` |
| Loose objects rewritten in place as deltas | `DeltaStore`, `DeltaChains`, `DeltaDepth`, `DeltaStranding`, `DeltaLimits` |
| Garbage-collector roots and sweep | `Gc`, `GcRaces`, `GcRewrites`, `GcRoots` |
| Push: unpacking, connectivity, compare-and-swap of refs | `Push`, `PushNames`, `PushClosure`, `PushHistory` |
| Spilling pack bodies to a cold store and recovering them | `PackTiering`, `PackRecovery` |

`Bytes` and `Options` hold shared types. `dafny verify dfyconfig.toml` checks everything.

## How things are modelled

* The commit protocol is a transition system in which every replicated operation is one
  step. Any number of coordinators, resolver passes and plain writers interleave; a
  coordinator that crashes is one that never steps again. `CrossShardDrivers` then has
  the coordinator's and the resolver's loops as methods on a cluster that others change
  between any two of their steps, each shown to be a run of that system.
* Loops and in-place updates of the source are methods with loops, classes and arrays.
  Each is proved equal to, or within, a specification function or predicate, and the
  laws are proved of those.
* Compression is any pair of functions where inflating undoes deflating and stops at the
  end of its stream. Hashes are injective functions. The block hash of the delta encoder
  is arbitrary. Clocks, timestamps and fault patterns are parameters.
* The sweep of the garbage collector looks at a file in one step and unlinks it in a
  later one; object writes and delta rewrites may land in between.
* A push sees loose files, packfiles and the cached index of git ids; collecting an
  object removes its file and leaves the cached index alone.
* The file system under tiering keeps, for each path, what it holds now and what is known
  to be on disk; whatever was not synced may be lost or torn when the node stops.

## Where the code falls short of what its comments promise

Each of these has a lemma with an input or a run that shows it, and a lemma that says
exactly when the promise does hold.

* A resolver ends the record of a committed transaction although locks of it remain on
  shards hosted elsewhere. A later pass there finds no record, presumes abort, and the
  transaction is split (`ResolversCanSplit`, `EndIsSafeIff`).
* The replicated single-ref update and delete neither refuse nor keep a prepared lock. A
  coordinator may reply "committed" for a ref that a plain write took over
  (`PlainWriteCanMislead`, `WriteIsSafeInRunsIff`).
* Copy instructions carry 32-bit offsets and the encoder does not check for larger ones.
  On a base of more than 4 GiB it makes deltas that apply without an error and give the
  wrong content (`FarCopyIsWrong`, `EncodedIsRightIff`).
* With annotated tags in play a depth-limited fetch is not monotone: asking for one more
  commit can lose another, and a commit within the depth can be left out
  (`TagsBreakDepth`, `TagsCutShort`). Nothing too deep is ever included
  (`NothingTooDeep`). The walk is exact if and only if no commit that would be cut off is
  first come to at the limit, in the order of the queue, while another way to it is
  shorter (`ExactIff`).
* When deepening, a commit that a boundary's tree names as a submodule counts as held,
  and its own tree may then never be sent (`BuriedCommitLosesItsTree`,
  `DeepenCompletesIff`).
* Rewriting an object as a delta measures only the chain below its new base. Objects that
  already rest on it can be pushed beyond the 50 hops a read allows
  (`RewritesCanStrand`, `ReadableIffRoom`). A delta of more than 2 GiB passes the
  self-check but can never be inflated again (`OversizeDeltaLoses`, `ContentKeptIffFits`).
* Between looking at a file's age and unlinking it the collector does not look again, so
  an object stored in between is lost whatever the grace (`UnlinkTakesNewFile`,
  `WriteSurvivesIff`).
* A delta rewrite does not ask the collector. A kept object that is rewritten, after the
  mark, as a delta on an object about to be swept is lost with it (`RewriteLosesKept`,
  `RewriteLastsIff`).
* The collector reads committed targets before prepared ones. A transaction that commits
  in between is in neither list, though its target was live all the while
  (`CommitHidesTarget`, `CollectedIff`).
* Collecting an object does not invalidate the cached index of git ids, so a ref may be
  set to an object that is gone (`StaleIndexNamesGone`, `CollectKeepsIndexIff`,
  `IndexIsSafeIff`).
* Objects of a rejected push stay, and a later push may point a ref at them: the
  connectivity check passes and the ref names an incomplete graph
  (`RejectedPushPoisons`, `ClosureKeptIffNoneMissing`).
* Storage ids cover content but not kind. The empty blob and the empty tree share a file,
  so storing one takes the other's git id out of the index
  (`EmptyBlobTakesEmptyTree`, `ClosureKeptIff`).
* Recovery from the cold store syncs the marker but not the index it downloads. A stop
  right afterwards can leave a torn index that the next recovery takes to be fine
  (`TornIndex`, `RecoveryLastsIff`).

## Model

| member | source | states |
|---|---|---|
| CrossShardAtomicity.NoRunSplits | crates/ledge-cluster/src/txn.rs:128-301 | In every run from the empty cluster, however coordinators stop and resolvers race, no transaction has one ref advanced and another released, as long as resolvers end only records whose transaction holds no lock |
| CrossShardAtomicity.StepKeepsInv | crates/ledge-cluster/src/txn.rs:377-466 | Every single step of a coordinator, a resolver or a plain writer keeps the protocol invariant: locks belong to known plans, decisions are monotone, nothing advances before the commit point and nothing is released after it |
| CrossShardAtomicity.RunKeepsInv | crates/ledge-raft/src/state_machine.rs:387-444 | The invariant holds in every state of every run over the replicated records and locks |
| CrossShardReplies.CommittedReplyAdvancedEveryRef | crates/ledge-cluster/src/txn.rs:226-287 | A reply of "committed" means every ref of the plan advanced exactly once, from its expected value to its staged target, provided no plain write was accepted on a locked ref |
| CrossShardReplies.AbortedReplyAdvancesNothing | crates/ledge-cluster/src/txn.rs:226-299 | After a reply of "aborted", now and in every later state, the log has no advance by the transaction; `CrossShardEffects.AbortedLeavesRefs` says what that means for the refs |
| CrossShardReplies.ReplyStays | crates/ledge-cluster/src/txn.rs:284-299 | A reply is final |
| CrossShardEffects.StepShows | crates/ledge-ref-store/src/store.rs:379-681 | A step that is no plain write on a ref changes what readers see of it only by advancing it: then the log says so, from the value shown before, and the ref shows the staged target and timestamp one version on. A prepare, a release, a decision or a step on another ref changes nothing readers see |
| CrossShardEffects.RunShows | crates/ledge-ref-store/src/store.rs:499-681 | In every run without plain writes on a ref, the ref shows what the last advance in the log says, its version has gone up by one for each, and each advance starts from the value the one before it left |
| CrossShardEffects.AbortedLeavesRefs | crates/ledge-cluster/src/txn.rs:226-299 | From any moment before a transaction to its "aborted" reply, each ref that nobody else advanced or wrote shows the very entry it showed before, target, timestamp and version |
| CrossShardEffects.CommittedMovesRefs | crates/ledge-cluster/src/txn.rs:226-287 | From any moment before a transaction to its "committed" reply, each planned ref that nobody else advanced or wrote showed its expected value before and shows its staged target now, one version on |
| CrossShardEffects.PrepareStages | crates/ledge-ref-store/src/store.rs:499-578 | A prepare votes yes if and only if no other transaction holds the lock and the ref shows what was expected; the lock then stages target and timestamp; readers see no difference and no other slot changes |
| CrossShardEffects.PrepareKeepsGrants | crates/ledge-ref-store/src/store.rs:499-578 | Preparing one ref changes nothing about which others the transaction can prepare |
| CrossShardEffects.DecisionKept | crates/ledge-raft/src/state_machine.rs:387-444 | The first terminal decision of a record is kept: to commit is recorded unless an abort is there, to abort unless a commit is |
| CrossShardEffects.CommitShows | crates/ledge-ref-store/src/store.rs:579-632 | Rolling a lock forward shows the staged target and timestamp one version on, unlocked; without the lock nothing changes |
| CrossShardEffects.ReleaseShows | crates/ledge-ref-store/src/store.rs:633-681 | Releasing a lock leaves target, timestamp and version of every ref as readers saw them |
| CrossShardEffects.UpdateShows | crates/ledge-ref-store/src/store.rs:381-454 | A plain update is accepted if and only if it names the committed target, and then shows its target and timestamp one version on, unlocked |
| CrossShardEffects.DeleteShows | crates/ledge-ref-store/src/store.rs:455-498 | A plain delete is accepted if and only if it names the committed target, and then leaves neither entry nor lock |
| CrossShardEffects.InstallShows | crates/ledge-ref-store/src/store.rs:710-820 | A batch leaves each ref it names with the entry of the last operation naming it, one version on from before the batch, unlocked, and every other slot as it was |
| CrossShardEffects.StaleIff | crates/ledge-cluster/src/txn.rs:493-516 | A lock stamped with some milliseconds may be presumed dead if and only if there is no time to live, or those milliseconds and the time to live add up to at most now |
| CrossShardLimits.EndIsSafeIff | crates/ledge-cluster/src/txn.rs:445-463 | Whenever a resolver can end a record, ending it keeps every orderly continuation from splitting the transaction if and only if it holds no lock, or holds one lock and has moved nothing |
| CrossShardLimits.EndingEarlySplits | crates/ledge-cluster/src/txn.rs:445-463 | Every other end of a committed record has an orderly continuation that splits the transaction |
| CrossShardLimits.ResolversCanSplit | crates/ledge-cluster/src/txn.rs:445-463 | A concrete reachable state in which a transaction is split by two resolver passes |
| CrossShardWrites.AcceptedIffNamed | crates/ledge-ref-store/src/store.rs:379-498 | On a locked ref a plain update or delete is accepted, and drops the lock, if and only if it names the committed target; otherwise nothing changes |
| CrossShardWrites.WriteIsSafeIff | crates/ledge-ref-store/src/store.rs:379-498 | In every phase of the coordinator and for every plan, a plain write on a locked ref leaves later committed replies truthful if and only if it does not name the committed target, or the transaction can no longer commit, or a later mapping of its plan takes the same ref at the same value again, or its mappings still to come contradict each other or its locks |
| CrossShardWrites.WriteIsSafeInRunsIff | crates/ledge-ref-store/src/store.rs:379-498 | The same at every point of every orderly run from the empty cluster |
| CrossShardWrites.AcceptedWriteMisleads | crates/ledge-ref-store/src/store.rs:379-498 | In every other case an accepted plain write has an orderly continuation whose committed reply is untrue |
| CrossShardWrites.PlainWriteCanMislead | crates/ledge-ref-store/src/store.rs:379-498 | A concrete reachable state with a committed reply and a ref that was never advanced |
| CrossShardLimits.OrphanIsReleased | crates/ledge-cluster/src/txn.rs:391-442 | A lock whose record is gone is released by the next pass, which ends no record with locks left; the ref is unlocked, every ref shows what it showed before and no other slot changes |
| CrossShardDrivers.Cluster.CommitAtomic | crates/ledge-cluster/src/txn.rs:128-301 | With no refs the reply is an empty commit; with one shard it is one batch; with more, the coordinator's loops, with others acting between any two steps, are a run of the protocol, and the reply is truthful: all moved once, or none and never split, and its record is ended. Undisturbed it commits if and only if every ref is free and shows what is expected; if none moved, the reply names a ref that refused, or an abort was on record before the decision. Refs that only this transaction touched show, after an aborted reply, the entries they had before the call, and, after a committed one, the targets asked for, one version on. A committed reply lists, in plan order, each ref with the entry it had right after its own step, leaving out only refs that did not exist then |
| CrossShardDrivers.Cluster.PreparePhase | crates/ledge-cluster/src/txn.rs:166-202 | Refs are prepared in plan order, the first NO ends the phase, and the coordinator ends with exactly the vote it reports; a YES reports no conflict, a NO names exactly the ref that was locked by another or did not show what was expected when it was asked |
| CrossShardDrivers.Cluster.VoteAndDecide | crates/ledge-cluster/src/txn.rs:160-225 | If the decision is not to commit, a ref of the plan refused or an abort was recorded before it; undisturbed, the decision is to commit if and only if every ref can be prepared |
| CrossShardDrivers.Cluster.FinishRef | crates/ledge-cluster/src/txn.rs:226-259 | One ref of the second phase: its lock, if still held, is promoted or released, and the answer is the entry the shard now holds, promoted by whom it may be |
| CrossShardDrivers.Cluster.FinishPhase | crates/ledge-cluster/src/txn.rs:226-259 | The second phase visits every ref of the plan in order, following the decision that was kept; on commit it lists, in plan order, each ref with the entry it had right after its own step, leaving out only refs that did not exist then |
| CrossShardDrivers.Cluster.CommitSingleShard | crates/ledge-cluster/src/txn.rs:84-119 | On one shard, if every precondition holds each named ref has the target and timestamp of the last mapping naming it, one version on, unlocked, and no other slot changes; otherwise no slot changes; the reply lists each ref with its new entry, or names every ref of the refused batch |
| CrossShardDrivers.Cluster.ResolveOnce | crates/ledge-cluster/src/txn.rs:377-466 | Every lock listed is released by a step of this pass, or rolled forward by one with its record ended later in the pass, or was too fresh by the clock reading taken when its decision was read in this pass, and the count says how many were settled; undisturbed and with no age limit, no hosted ref is locked afterwards; with others acting in between it is a run of the protocol, and orderly runs stay unsplit |
| CrossShardDrivers.Cluster.Judge | crates/ledge-cluster/src/txn.rs:391-429 | The decision a pass follows is the recorded one or the winner of a recorded abort, never its own guess; it is none only for a lock that is fresh by the clock reading taken with it |
| CrossShardDrivers.Cluster.Settle | crates/ledge-cluster/src/txn.rs:429-448 | After settling, the transaction holds no lock on that ref |
| Varints.SizeRoundTrip | crates/ledge-core/src/delta.rs:14-34 | Reading a written 64-bit size gives the size and the number of bytes used, whatever follows |
| VarintsOnBytes.SizeIs | crates/ledge-core/src/delta.rs:14-34 | On any bytes: a size reads if and only if one of its first ten bytes ends it, and is the number they spell modulo 2^64 |
| Varints.WriteSizeVarint | crates/ledge-core/src/delta.rs:254-266 | Appends exactly the size encoding |
| Varints.ReadSizeVarint | crates/ledge-core/src/delta.rs:14-34 | On any bytes, computes the size reader, its ten-byte limit and its errors included |
| Varints.OfsRoundTrip | crates/ledge-core/src/delta.rs:38-75 | Reading a written base offset gives it back, whatever follows |
| Varints.OfsRewrite | crates/ledge-core/src/delta.rs:38-75 | The offset encoding is canonical: re-encoding the value of any well-formed encoding reproduces its bytes |
| Varints.OfsReadsItsValue | crates/ledge-core/src/delta.rs:38-56 | On well-formed encodings of 64-bit values the wrapping reader is exact |
| VarintsOnBytes.OfsIs | crates/ledge-core/src/delta.rs:38-56 | On any bytes: an offset that ends reads as the number its bytes spell modulo 2^64, and fails if and only if the word is all ones when a further byte is added; one that does not end fails |
| Varints.OfsFitsScratch | crates/ledge-core/src/delta.rs:63-75 | A 64-bit offset needs at most ten bytes, so the fixed buffer suffices |
| Varints.FillScratch | crates/ledge-core/src/delta.rs:63-75 | Filling the buffer from the back leaves exactly the encoding in its tail |
| Varints.WriteOfsVarint | crates/ledge-core/src/delta.rs:63-75 | Appends exactly the offset encoding |
| Varints.ReadOfsVarint | crates/ledge-core/src/delta.rs:38-56 | On any bytes, computes the 64-bit offset reader |
| Delta.Apply | crates/ledge-core/src/delta.rs:78-158 | On any base and any bytes, computes the instruction semantics with both size checks and the 2 GiB cap; `HeaderDecides`, `OneCopyApplies` and `RefusedInstr` say what those are |
| Delta.HeaderDecides | crates/ledge-core/src/delta.rs:78-158 | A delta with any two sizes in front applies if and only if the first is the length of the base, the second is at most 2 GiB and the operations yield that many bytes |
| Delta.OneCopyApplies | crates/ledge-core/src/delta.rs:94-131 | A delta of one copy gives that stretch of the base, 64 KiB of it where no size byte is flagged, and is refused where it runs over the end |
| Delta.RefusedInstr | crates/ledge-core/src/delta.rs:94-145 | An instruction is refused if and only if its opcode is zero, its literal is cut short, or a byte its copy flags is missing; any other literal is taken as it stands |
| Delta.RunConcat | crates/ledge-core/src/delta.rs:97-158 | Instruction streams compose: running two in sequence concatenates their outputs |
| Delta.CopyReadsBack | crates/ledge-core/src/delta.rs:95-121 | For every offset below 2^32 and every size below 2^24, zero included, the opcode that flags exactly the nonzero bytes decodes to that offset and that length, a size of zero to 65536 |
| Delta.CopyIsExactIffOffsetFits | crates/ledge-core/src/delta.rs:279-305 | A copy decodes with its offset modulo 2^32, so exactly if the offset is below 2^32 |
| DeltaEncoder.FlushInsert | crates/ledge-core/src/delta.rs:268-277 | Appends instructions that insert exactly the pending bytes, at most 127 at a time |
| DeltaEncoder.EmitCopy | crates/ledge-core/src/delta.rs:279-305 | Appends copy instructions for the whole range, at most 2^24 - 1 bytes each |
| DeltaEncoder.BuildIndex | crates/ledge-core/src/delta.rs:176-188 | Each bucket lists, in order, exactly the 16-byte windows of the base with its hash; the index is a function of base and hash |
| DeltaEncoder.BestIsLongest | crates/ledge-core/src/delta.rs:203-222 | Of any candidates, the match chosen is a true one and no candidate has a longer one |
| DeltaEncoder.BestMatch | crates/ledge-core/src/delta.rs:203-222 | The loop over the first 64 candidates chooses that match |
| DeltaEncoder.PlanIsTarget | crates/ledge-core/src/delta.rs:199-234 | Whatever the block hash, the copies and inserts chosen spell the target |
| DeltaEncoder.EncodeOps | crates/ledge-core/src/delta.rs:199-234 | The loop emits exactly the instructions of that plan |
| DeltaEncoder.OpsRun | crates/ledge-core/src/delta.rs:78-158 | Running the instructions of a plan gives its pieces with each copy fetched from its offset modulo 2^32 |
| DeltaEncoder.EncodedIsRightIff | crates/ledge-core/src/delta.rs:193-235 | For every base and target: the delta applies, to a result of the right length; it gives the target if and only if no copy is changed by cutting its offset to 32 bits |
| DeltaEncoder.Encode | crates/ledge-core/src/delta.rs:193-235 | For bases up to 4 GiB, applying the delta gives the target, or the size error for targets over 2 GiB |
| DeltaEncoder.EncodeDelta | crates/ledge-core/src/delta.rs:241-243 | The same without a prepared index |
| DeltaLimits.FarCopyIsWrong | crates/ledge-core/src/delta.rs:279-305 | A base just over 4 GiB and a target of 16 bytes whose delta, under any block hash that tells that target from the other windows of the base, copies from offset 2^32, applies without an error and gives the wrong content |
| PackFormat.HeaderRoundTrip | crates/ledge-object-store/src/git_pack_file.rs:281-304 | A written object header parses to its type, size and length, whatever follows |
| VarintsOnBytes.HeaderIs | crates/ledge-object-store/src/git_pack_file.rs:281-304 | On any bytes: the type is that of the first byte, and the size reads if and only if one of the next nine bytes ends it, as the number spelt modulo 2^64 |
| PackFormat.ParseObjHeader | crates/ledge-object-store/src/git_pack_file.rs:281-304 | On any bytes, the loop computes the header reader, truncation and overflow errors included |
| PackFormat.WriteObjHeader | crates/ledge-object-store/src/git_pack.rs:48-57 | Appends exactly the header encoding |
| PackFormat.HeadReadsBack | crates/ledge-git/src/push.rs:490-533 | The streaming reader parses every written entry head, delta base offset included |
| PackFormat.RefHeadReadsBack | crates/ledge-git/src/push.rs:490-533 | The head of a delta that names its base by id parses to its size and that id |
| PackFormat.UnknownTypeRefused | crates/ledge-git/src/push.rs:490-533 | Any type but the four kinds and the two deltas is refused |
| PackFormat.ReadsRefDelta | crates/ledge-object-store/src/git_pack_file.rs:186-242 | At such an entry the seeking reader gives its delta applied to what the id table leads to, one hop deeper, and an error without the id |
| PackFormat.ReadsDelta | crates/ledge-object-store/src/git_pack_file.rs:186-242 | At a delta entry the seeking reader gives its delta applied to what the base reads as, one hop deeper |
| PackStream.DecodePackObjects | crates/ledge-git/src/push.rs:550-663 | On any bytes, the two-pass decoder with its tables computes the table-free specification, errors included |
| PackStream.DecodedIff | crates/ledge-git/src/push.rs:590-663 | On any bytes with the signature of a packfile, the decoder yields given objects if and only if the entries parse, one object each, and each is its payload, or its delta applied to a base of its type: the earlier entry that far back, or the latest earlier object with the id named, and only without one the stored object |
| PackStream.ParsedIff | crates/ledge-git/src/push.rs:558-610 | The first pass yields given entries if and only if they lie back to back, each with a head that reads, a size within 1 GiB and a stream that inflates to exactly that size |
| PackStream.ThinPackDecodes | crates/ledge-git/src/push.rs:617-645 | A pack of one delta by id decodes to the delta applied to the stored object of that id, with its type, and fails without one |
| PackStream.FindBase | crates/ledge-git/src/push.rs:617-645 | The offset and id tables find exactly the base the specification names, in-stream or from the store |
| PackWriter.SortOrder | crates/ledge-object-store/src/git_pack.rs:92-99 | The write order lists every object once, by ascending type, then ascending name hash, then descending size, and equal ones as they came |
| PackWriter.ShortestDelta | crates/ledge-object-store/src/git_pack.rs:113-135 | The choice is the first of the shortest of the encoder's deltas against the eligible bases of the window, if shorter than the object; none is made if and only if none is |
| PackWriter.ChooseBase | crates/ledge-object-store/src/git_pack.rs:113-158 | An object goes as that delta if it rebuilds the object and compresses better than it, one hop deeper than its base, and whole otherwise |
| PackWriter.SelectBases | crates/ledge-object-store/src/git_pack.rs:100-158 | Every object, in order, is decided by that search over the objects still in the window; every choice rebuilds its object from an earlier one of the same type and compresses better, and no chain exceeds 50 |
| PackRoundTrip.LayOut | crates/ledge-object-store/src/git_pack.rs:160-199 | Entries lie back to back from byte 12 at the returned offsets, each delta pointing at its base; it succeeds if and only if every entry starts below 2^31, and stops at the first that would not |
| PackRoundTrip.SeekReadsBack | crates/ledge-object-store/src/git_pack_file.rs:186-242 | Seeking to an object at depth d gives its content if its chain fits the remaining hops and an error otherwise |
| PackRoundTrip.StreamReadsBack | crates/ledge-git/src/push.rs:550-663 | Decoding the whole stream gives all objects in write order |
| PackRoundTrip.PackRecovers | crates/ledge-object-store/src/git_pack.rs:113-125 | Both readers recover everything if and only if every chain is within 50: the writer's cap is exactly what the reader accepts |
| PackRoundTrip.WriteGitPack | crates/ledge-object-store/src/git_pack.rs:76-206 | For every object list and window: the order and every choice of base are those above; a written pack holds every object at its offset between the version 2 header and the checksum of all before it, with chains of at most 50, and with objects up to 1 GiB both readers recover each one exactly; it fails only if the compressed sizes of all but the last object, 20 bytes each on top, come to 2^31 |
| PackIndex.SortRows | crates/ledge-object-store/src/git_pack.rs:208-209 | The rows come out sorted by id and are a permutation of what went in |
| PackIndex.LessIff | crates/ledge-object-store/src/git_pack.rs:208-209 | Ids are ordered by the first byte in which they differ |
| PackIndex.BuildFanout | crates/ledge-object-store/src/git_pack.rs:213-222 | Each of the 256 entries counts the rows whose first byte is at most its own |
| PackIndex.CountIsBoundary | crates/ledge-object-store/src/git_pack.rs:213-222 | In sorted rows the count for a byte is the boundary between rows up to and beyond it |
| PackIndex.ListRows | crates/ledge-object-store/src/git_pack.rs:160-199 | One row per entry of a written pack, in write order, with its offset and the checksum of its bytes |
| PackIndex.BuildIdx | crates/ledge-object-store/src/git_pack.rs:208-247 | For every written pack: one row per object, sorted, bracketed by its fanout, each row locating the entry of an object of that id with the checksum of its bytes, and each object having a row |
| PackIndex.RowsRead | crates/ledge-object-store/src/git_pack.rs:208-247 | Reading at the offset of any row gives the content of an object of that id |
| Fetch.ReachableClosure | crates/ledge-git/src/fetch.rs:326-367 | Exactly the ids reachable from the roots by the objects' own fields: a commit's tree and parents, a tree's entries, a tag's target |
| Fetch.CollectPackObjects | crates/ledge-git/src/fetch.rs:453-528 | Each held object reachable from the wants by such fields without passing an excluded one, once, less what the blob filter drops; what a packed object names is packed unless excluded, absent or filtered, and what is packed was wanted or is named by something packed |
| Fetch.WholeByField | crates/ledge-git/src/fetch.rs:496-517 | Field by field: with a packed commit its tree and each parent are packed, with a tree each entry, with a tag its target, unless excluded, absent or filtered |
| Fetch.PacksIff | crates/ledge-git/src/fetch.rs:480-500 | The filter leaves out exactly blobs not asked for by id: all of them without blobs, and those over the limit with one |
| ObjectGraph.ReachIsReaches | crates/ledge-git/src/fetch.rs:340-362 | The walks' edges are exactly the ids in the objects' fields |
| Fetch.FetchPack | crates/ledge-git/src/fetch.rs:1071-1105 | The final negotiation round sends exactly the closure of the wants minus the closure of the common haves |
| Fetch.ClientEndsComplete | crates/ledge-git/src/fetch.rs:1071-1105 | A client with the closure of its haves ends with every held object of the wants' closure, filtered blobs aside |
| Fetch.ReachableFrom | crates/ledge-object-store/src/graph.rs:220-274 | The mark visits exactly what is reachable from the roots by the objects' fields through the id index, the roots included, and nothing it visits names an indexed object it does not visit |
| Fetch.MarkIsClone | crates/ledge-object-store/src/graph.rs:220-274 | With a one-to-one index, the mark keeps exactly what a clone of the same refs packs |
| Shallow.CommitWalk | crates/ledge-git/src/fetch.rs:582-625 | The breadth-first loop with depths computes the walk's specification |
| Shallow.LiveParentsAre | crates/ledge-git/src/fetch.rs:582-625 | Sendable are exactly the parents a held commit names that are indexed and not excluded |
| Shallow.NothingCutSilently | crates/ledge-git/src/fetch.rs:742-786 | Every included commit is a reported boundary or has all its sendable parents included; an unshallowed one always has |
| ShallowDepth.DepthIsExact | crates/ledge-git/src/fetch.rs:582-625 | Without tags: included are exactly the held objects closer than the depth, boundaries exactly those at the limit with a sendable parent, unshallowed exactly the old boundaries inside |
| ShallowDepth.TagsBreakDepth | crates/ledge-git/src/fetch.rs:582-625 | With a tag, a request for more wants includes less |
| ShallowDepth.MoreWantsIncludeMore | crates/ledge-git/src/fetch.rs:582-625 | Without tags, adding wants never loses an included commit |
| ShallowTags.NothingTooDeep | crates/ledge-git/src/fetch.rs:582-625 | For every request, tags or not: nothing deeper than the depth is included or reported, a tag being as deep as what it names, and what is unshallowed is less deep |
| ShallowTags.DepthOneIsExact | crates/ledge-git/src/fetch.rs:582-625 | At depth one, tags or not: included, reported and unshallowed are exactly what the depth calls for |
| ShallowTags.TagFreeIsExact | crates/ledge-git/src/fetch.rs:582-625 | So they are at any depth for requests without tags |
| ShallowTags.TagsCutShort | crates/ledge-git/src/fetch.rs:582-625 | With a tag at depth two, a held commit that is two deep is left out |
| ShallowExact.ExactIff | crates/ledge-git/src/fetch.rs:582-625 | For every request, tags or not, at every depth: included, reported and unshallowed are exactly what the depth calls for if and only if no commit with a sendable parent or an old boundary is, by the first way in queue order, at the limit while another way to it is shorter |
| Snapshots.PackSnapshots | crates/ledge-git/src/fetch.rs:627-676 | Packs each fresh object of the included snapshots once |
| Snapshots.CollectShallow | crates/ledge-git/src/fetch.rs:572-677 | A shallow fetch packs exactly the snapshots of the walk and reports its boundary |
| Snapshots.CloneIsItsSnapshots | crates/ledge-git/src/fetch.rs:627-676 | A fresh shallow clone packs exactly the held objects of the included snapshots |
| Snapshots.SnapshotIs | crates/ledge-git/src/fetch.rs:627-676 | A snapshot is, by the fields, the object itself, a commit's tree, and whatever a tree of it lists |
| Snapshots.BoundaryHeldSet | crates/ledge-git/src/fetch.rs:683-718 | Exactly the boundary commit and what its tree contains |
| Snapshots.CollectDeepen | crates/ledge-git/src/fetch.rs:732-842 | Deepening packs the included snapshots less what the old boundaries' snapshots held |
| Snapshots.DeepenCompletesIff | crates/ledge-git/src/fetch.rs:788-841 | After deepening, a client that had the old boundary snapshots has every included snapshot in full if and only if each included commit that counted as held has its tree held or within the snapshot of an included object that did not |
| Snapshots.DeepenCompletesSnapshots | crates/ledge-git/src/fetch.rs:788-841 | In particular it has if no included commit is named inside an old boundary's tree |
| Snapshots.BuriedCommitLosesItsTree | crates/ledge-git/src/fetch.rs:683-718 | A repository and a deepening request whose walk includes a commit with a held tree that is neither with the client nor sent |
| DeltaStore.ObjectStore.MeasureChain | crates/ledge-object-store/src/disk.rs:913-923 | The hop count of a chain, loose and packed deltas, clamped at 50 |
| DeltaStore.ObjectStore.DeltaReaches | crates/ledge-object-store/src/disk.rs:928-938 | Whether a chain comes to the target within 50 hops |
| DeltaStore.ObjectStore.WriteObject | crates/ledge-object-store/src/disk.rs:572-634 | The object reads back as written if within the inflation cap, takes the shorter of its raw and its compressed form and the header, rests on no base, and no other file changes |
| DeltaStore.ObjectStore.Deltify | crates/ledge-object-store/src/disk.rs:956-1024 | Rewrites the target as the encoder's delta if and only if all guards are met, the self-check passes and room is saved; reports corruption if and only if the guards are met and the self-check fails; otherwise the store is unchanged; an error on readable operands only for oversized or misnamed content |
| DeltaStore.ShrinksIff | crates/ledge-object-store/src/disk.rs:1003-1010 | A rewrite saves room if and only if its compressed delta and 32 bytes are shorter than the body they replace, or the delta shorter than another's |
| DeltaChains.StepKeeps | crates/ledge-object-store/src/disk.rs:956-1024 | Each write or rewrite leaves no cycle and leaves every object's resolved content as it was |
| DeltaChains.RunKeeps | crates/ledge-object-store/src/disk.rs:956-1024 | So does every run of writes and rewrites |
| DeltaChains.ContentKeptIffFits | crates/ledge-object-store/src/disk.rs:983-1010 | A rewrite keeps all contents if and only if its delta is within the 2 GiB the reader inflates |
| DeltaLimits.OversizeDeltaLoses | crates/ledge-object-store/src/disk.rs:983-1010 | For any object close to 2 GiB that a packfile holds as a delta on one of at most 1 GiB: a sound store and a rewrite that passes every guard with the encoder's own delta, after which the object can no longer be read |
| DeltaLimits.Doubled | crates/ledge-object-store/src/git_pack_file.rs:186-242 | Such an object: one gibibyte twice over, with a pack entry the reader accepts |
| DeltaDepth.ReadableIffShort | crates/ledge-object-store/src/disk.rs:1029-1090 | An object that resolves is read if and only if its chain has at most 50 loose hops, and then with that content |
| DeltaDepth.ReadableIffRoom | crates/ledge-object-store/src/disk.rs:957-968 | A rewrite keeps every readable object readable if and only if each one that reads through the target has room for the target's new chain |
| DeltaDepth.LeafRunsStayReadable | crates/ledge-object-store/src/disk.rs:956-1024 | If rewritten objects are never bases of others, no run makes a chain longer than 49 or anything unreadable |
| DeltaStranding.RewritesCanStrand | crates/ledge-object-store/src/disk.rs:957-968 | A run of 61 allowed rewrites from an all-packed store after which a readable object no longer reads |
| Gc.CloseUnderBases | crates/ledge-object-store/src/graph.rs:288-304 | Exactly the marked objects and everything their delta chains rest on |
| Gc.Sweep | crates/ledge-cluster/src/gc.rs:155-198 | However far it gets, a loose file is gone if and only if it is among the candidates looked at, not kept, and there is no grace or its time is known and at least the grace before now; the counters say how many went, how many bytes, and how many candidates not kept were left |
| Gc.KeptReads | crates/ledge-object-store/src/graph.rs:276-304 | An object of a base-closed keep set reads the same after any deletions outside that set |
| Gc.Collect | crates/ledge-cluster/src/gc.rs:96-198 | At every point of a pass, all that is reachable from the collected roots reads as before, and a loose file is gone if and only if it is among the candidates looked at, neither reachable nor the base of something reachable, and there is no grace or its time is known and at least the grace before now |
| Gc.ViewIsWhatReads | crates/ledge-object-store/src/graph.rs:220-274 | The graph the mark walks has exactly the objects that read, loose or packed |
| GcRaces.SweepIsSafe | crates/ledge-cluster/src/gc.rs:155-198 | With object writes landing anywhere, also between the age test and the unlink, everything the mark kept reads its original content at every point |
| GcRaces.WriteSurvivesIff | crates/ledge-cluster/src/gc.rs:164-198 | An object written during the pass is readable at every later point of every continuation if and only if a packfile gives it back too, or no unlink of it is pending and it is kept, no candidate, or the grace is positive |
| GcRaces.UnlinkTakesNewFile | crates/ledge-cluster/src/gc.rs:164-198 | A run with a grace of ten seconds in which the sweep looks at an old file, the object is stored anew, and the unlink takes it |
| GcRewrites.LastsIff | crates/ledge-cluster/src/gc.rs:155-198 | Any readable object is readable at every later point of every continuation of the sweep if and only if no file its delta chain rests on is about to be unlinked or may still come to be |
| GcRewrites.RewriteLastsIff | crates/ledge-object-store/src/disk.rs:956-1024 | A kept object rewritten during a sweep outlives it if and only if its new base is in no such danger |
| GcRewrites.CarefulRunsKeep | crates/ledge-object-store/src/disk.rs:956-1024 | With sweep, writes and rewrites onto bases that are in no danger interleaved in any way, whatever read and was in no danger keeps its content |
| GcRewrites.RewriteLosesKept | crates/ledge-object-store/src/disk.rs:956-1024 | A kept object, a grace of ten seconds and a rewrite that passes every guard, after which the sweep makes the object unreadable |
| GcRoots.CommitHidesTarget | crates/ledge-cluster/src/gc.rs:116-129 | A run from a reachable state in which a target that is staged or visible at every moment is in neither list of roots |
| GcRoots.CollectedIff | crates/ledge-cluster/src/gc.rs:116-129 | Of what is live at the first read, a target is collected in every run that keeps it live if and only if it was committed at the first read; the same for orderly runs |
| GcRoots.StagedCanBeMissed | crates/ledge-cluster/src/gc.rs:116-129 | Every target that is only staged at the first read is missed by an orderly run in which it is live throughout |
| GcRoots.StaysStagedIff | crates/ledge-cluster/src/gc.rs:122-129 | In every run a lock is in place throughout if and only if no step settles it, stages its ref anew or is a plain write accepted on it; a target staged at the first read and not at the second lost each lock to such a step in between |
| GcRoots.CollectedIs | crates/ledge-cluster/src/gc.rs:116-129 | A target is collected if and only if a ref shows it at the first read or a lock stages it at the second |
| GcRoots.UntakenIsCollected | crates/ledge-cluster/src/gc.rs:122-129 | A target whose lock no step takes between the reads is collected |
| Push.Server.Unpack | crates/ledge-git/src/push.rs:241-276 | Stores every object by content, and collects the ids sent and the ids named |
| Push.Scan | crates/ledge-object-store/src/disk.rs:664-751 | Indexes exactly the git ids of the files, each leading to a file that holds it |
| Push.Server.Index | crates/ledge-object-store/src/disk.rs:653-757 | A cached index is returned as it is; else one of all loose and packed objects is made and cached, and a cache that was right stays right |
| Push.Server.Collect | crates/ledge-object-store/src/disk.rs:838-844 | What a packfile has of the object shows through and nothing else changes; a cached index that was right stays right if and only if there was no loose file or a packfile has the very object |
| Push.CollectKeepsIndexIff | crates/ledge-object-store/src/disk.rs:838-844 | The same of any index that is right for a store |
| Push.Server.FindMissing | crates/ledge-git/src/push.rs:299-305 | The first named id that is neither sent nor stored |
| Push.Server.ReceivePack | crates/ledge-git/src/push.rs:241-406 | The store, loose and packed, the refs and the per-ref outcomes are those of storing, checking against the index and executing the commands in order, names validated after prefixing; with objects in the push, or a right cache, the table resolves exactly what is held or sent |
| PushNames.ValidNameIff | crates/ledge-core/src/ref_name.rs:29-58 | A name is valid if and only if it starts with refs/, has no two dots and no two slashes in a row, and no control character |
| PushNames.PresentedIsClients | crates/ledge-git/src/fetch.rs:201-225 | For every name and workspace, the name presented for where a ref is kept is the name the client gave, and a ref is kept below its workspace |
| PushNames.StoredComesBackIff | crates/ledge-git/src/fetch.rs:201-225 | A stored name survives being presented and stored again if and only if it lies in the workspace, there is none, or it is no ref |
| PushNames.WorkspacesApart | crates/ledge-git/src/fetch.rs:217-225 | Refs of two workspaces are kept in the same place only if one workspace lies in the other, and within one only if they are the same ref |
| PushNames.RefusalSaysWhy | crates/ledge-git/src/push.rs:307-406 | Each refusal is reported if and only if its one cause is the first that applies, and a refused command moves nothing |
| PushClosure.HeldIffNotRetyped | crates/ledge-object-store/src/disk.rs:572-634 | After a push an object is held if and only if it was held or sent and no later object of the same content and another kind took its file |
| PushClosure.ClosureKeptIff | crates/ledge-git/src/push.rs:278-305 | A push that passes the connectivity check keeps the store closed if and only if no surviving object names one whose file was taken |
| PushClosure.ClosureKeptIffNoneMissing | crates/ledge-git/src/push.rs:278-305 | Where no kind changes, the store stays closed if and only if the connectivity check finds nothing missing |
| PushClosure.EmptyBlobTakesEmptyTree | crates/ledge-object-store/src/disk.rs:587-606 | From a closed store, sending the empty blob passes the connectivity check and leaves a commit without its empty tree |
| PushClosure.PassingRunsStaySound | crates/ledge-git/src/push.rs:278-305 | Any run of passing, kind-keeping pushes keeps the store closed and every ref on a stored object |
| PushClosure.RefsNameWholeGraphs | crates/ledge-git/src/push.rs:278-290 | After any such run, every object reachable from any ref is held |
| PushClosure.RejectedPushPoisons | crates/ledge-git/src/push.rs:297-298 | After a rejected push, a second push that passes leaves a ref on an incomplete graph |
| PushClosure.CollectKeepsClosureIff | crates/ledge-object-store/src/disk.rs:838-844 | Collecting a loose object keeps a closed store closed if and only if no other object names it |
| PushClosure.StaleIndexNamesGone | crates/ledge-object-store/src/disk.rs:838-844 | An index that was right, one collection, and a command that is accepted and sets a ref to the object that is gone |
| PushClosure.IndexIsSafeIff | crates/ledge-git/src/push.rs:307-406 | Commands with an index set refs to stored objects only, whatever they are, if and only if every id of the index leads to one |
| PushHistory.AcceptedIff | crates/ledge-git/src/push.rs:307-406 | A command is accepted if and only if its push was complete, its stored name is valid, its ids resolve, it does not delete nothing, and the ref stands at the client's old value; nothing else moves |
| PushHistory.HistoryIsAChain | crates/ledge-core/src/traits.rs:51-73 | With the commands of any pushes interleaved, each accepted update of a ref starts from the value the one before it left, from first to current: no update is lost |
| PackTiering.HealthySurvives | crates/ledge-object-store/src/disk.rs:376-388 | A pack in the kept condition is within reach after any stop, whatever unsynced files are lost or torn |
| PackTiering.PackDir.MarkAndUnlink | crates/ledge-object-store/src/disk.rs:376-388 | The marker is durable before the body goes, so every stop in between leaves the body within reach |
| PackTiering.PackDir.TierPacks | crates/ledge-object-store/src/disk.rs:331-397 | Stopped at any step, with uploads refused or dropped, every pack stays within reach; a finished pass has spilled every unmarked body; the count is that of the bodies gone; it fails only if the cold store refused or dropped a file of one of the packs |
| PackTiering.PackDir.EnsureLocal | crates/ledge-object-store/src/disk.rs:286-322 | A body is published only if it passes its checksum; a body that is there, or without a marker, is left alone; stopped at any step, every pack stays within reach; a finished restore holds the original body, and the file lasts through any stop |
| PackRecovery.RecoverFromCold | crates/ledge-object-store/src/disk.rs:420-483 | The pass fails if and only if a pack that is not ready lacks a body or an index in the cold store; otherwise it counts and makes ready exactly those that were not, and leaves other packs alone |
| PackRecovery.RecoverTwice | crates/ledge-object-store/src/disk.rs:405-419 | From any surviving subset of local files, every fully tiered pack is usable afterwards, and a second call recovers zero |
| PackRecovery.RecoveryLastsIff | crates/ledge-object-store/src/disk.rs:449-478 | A recovered pack survives a stop right afterwards if and only if its index had still been there |
| PackRecovery.TornIndex | crates/ledge-object-store/src/disk.rs:449-478 | A stop after recovery that leaves a torn index which the next recovery leaves alone |

## Left out

- Raft itself (elections, log replication, snapshots): an operation on a shard is one atomic, durable step. The state machine's snapshot drops prepared locks, which this model therefore does not show.
- Transport, forwarding and error returns of a shard operation: a failed call is a participant that takes no further step.
- Routing refs to shards and the choice of the coordinator shard: any grouping, any order and any coordinator shard is allowed, which covers the sorted order and the smallest shard.
- CrossShardDrivers.Cluster.ResolveOnce: with others acting, a lock taken after the list was made is not covered.
- ShallowDepth.DepthIsExact: needs requests without tags; `ShallowExact.ExactIff` covers all requests.
- GcRoots.CollectedIff: roots held by leases are not modelled, and workspace refs count as committed.
- PackWriter.SelectBases: does not say the chosen deltas are the best over the whole list, because the window search is greedy by design.
- PackRoundTrip.StreamReadsBack: deltas that name their base by id are covered by the readers only (`DecodedIff`, `ReadsRefDelta`), since the writer never emits them.
- The byte layout of index files and of loose-object headers; fields stand for them.
- Parsers of commit, tree and tag bytes: what an object names is a function of the object. Submodule entries are already left out of `names` in a push, as the source does.
- DeltaStore.ObjectStore.Deltify: concurrent changes between its reads and its rename are not modelled.
- GcRewrites.CarefulRunsKeep: leaves the limit of 50 hops aside, which `DeltaDepth.ReadableIffRoom` covers for each rewrite.
- Chains inside a packfile, in `DeltaStore`: a packed object stands for what its packfile makes of it, up to 1 GiB whole and 2 GiB as a delta; `PackRoundTrip` has the chains themselves.
- Push.Server.ReceivePack: one push at a time, and packfiles do not change during it; `PushHistory` interleaves commands of many pushes, not their unpacking or the publishing of a cached index.
- The response cache of the fetch path with its eviction order, routing by prefix beside listing, and hash functions: easy members.
- HTTP, SSH, metrics, tenancy, leases, authorization, workspaces and configuration.
