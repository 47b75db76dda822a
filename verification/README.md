# World Chain: a verified model of the flashblock pipeline

This project models the parts of World Chain where a node must keep a promise over many steps, and proves
those promises for every input, every run or every reachable state.

A World Chain builder pre-confirms a block while it is still being built. It publishes *flashblocks*, each an
increment over the payload committed so far, and later hands one payload to the consensus client. The model
follows that pipeline from the inside out:

- `BlockFilling.dfy`: one pass over the transaction pool, with every rejection branch, the running totals, the
  priority (PBH) gas budget, the nullifier set and the gas limit that shrinks as gas is reserved.
- `PayloadBuilder.dfy`: a build task, which continues the committed payload and returns a better payload, a
  freeze or an abort; and the contract (`Honest`) the job relies on.
- `Flashblocks.dfy`: increments, their reduction into one block, the coordinator that records them, and the
  state a new builder takes over.
- `PayloadJob.dfy`: the payload job as a state machine over timers, publish results, build results and resolves,
  the job as a class, and the job composed with the builder.
- `Reverts.dfy`, `Bundles.dfy`: executing a block in fragments. Flattened undo records, the cache prestate of a
  fragment, and the merge of bundles, compared with serial execution.
- `AccessLists.dfy`: the post-state rebuilt from an unsorted block access list (EIP-7928), compared with a replay
  in access-index order.
- `Hardforks.dfy`: the order of the fork list and the EIP-2124 fork identifier.
- `Sentries.dfy`: rendezvous ranking of sentries and the peer policy that enforces it.
- `AdminRevert.dfy`: ephemeral tracing overrides and their scheduled reverts.
- `WitnessCache.dfy`, `RootCache.dfy`, `ExternalNullifier.dfy`: the bounded witness cache, the window of accepted
  roots, and the nullifier codec.

Code that computes a value is a function. Code that works step by step is a method or a class whose `ensures`
equates its result or new state with such a function, and the theorems are about the functions. A run is a fold
of a step function over a sequence of events chosen by the environment. To check the project, run
`dafny verify dfyconfig.toml`.

## Main results

- Published slices make up the committed payload, and that payload is delivered: `PayloadPipeline.PublishedIsDelivered`,
  from `PayloadJob.PublishedSlicesAddUp`, `PayloadJob.EveryRunKeepsInv` and `PayloadBuilder.BuildIsHonest`.
- Nothing pre-confirmed is ever withdrawn, in any mode and across builders: `PayloadJob.EveryRunGrows`,
  `PayloadJob.DeliveredExtendsCommitted`, `PayloadJob.TakeoversReproduce`.
- Fragments and serial execution read the same, and the one undo record of the fragments undoes the serial
  execution: `Bundles.FragmentsMatchSerial`, `Bundles.ComposedRecordUndoesBlock`.
- Flattening undo records is compositional and keeps their meaning exactly when `FlattensSlot` holds:
  `Reverts.FlattenEachTimeEqualsOnce`, `Reverts.FlattenedUndoSlotIff`, `Reverts.FlattenedUndoRestores`.
- The access list's post-state is the replay, and two lists may be merged exactly when `Compatible` holds:
  `AccessLists.ExtendIsReplay`, `AccessLists.SequentialEqualsMergedIff`.
- The fork identifier depends only on the schedule, and the defaults give the schedule they promise:
  `Hardforks.OverridesDetermineForkId`, `Hardforks.DefaultsSchedule`.
- What happens to every entry of the pool, the totals, budgets and nullifiers of a pass, and when its gas reservation
  is exact: `BlockFilling.PassFollowsFates`, `BlockFilling.AppendedIff`, `BlockFilling.FilledIsAccounted`,
  `BlockFilling.ReservationExactIffNoFailure`.
- A better build is committed and delivered, and a resolve before any commit hands over the build in progress:
  `PayloadJob.BetterBuildIsDelivered`, `PayloadJob.UncommittedResolve`.

## What the code does that its documentation does not say

The model follows the code in each of these places.

- A job that takes over a pre-confirmed payload starts with a *frozen* best payload. Unless the first build result
  it receives is a better payload, it never builds again (`PayloadJob.TakeoverStallsUnlessFirstBuildImproves`).
- A commit whose flashblock the coordinator does not record still advances the flashblock index, so the coordinator
  refuses every later flashblock of the job. That happens when there is no signer, and when the coordinator still
  holds another payload whose base is not older than the block. The coordinator stays in step if and only if neither
  occurs at a commit (`PayloadJob.InSyncIffEveryCommitRecorded`, `PayloadJob.UnrecordedCommitFallsBehind`).
- The state machine lets the best payload's fees fall at exactly one kind of step: a freeze received while a more
  valuable candidate waits (`PayloadJob.BestFeesFallOnlyAtFreeze`). In pool mode the job never receives one. Only a
  cancelled build freezes, and its signal is raised by dropping the handle through which the job would receive the
  result (`PayloadPipeline.BuilderRunsKeepBestFees`). Committed fees never fall.
- Nullifier hashes enter the set before execution. A transaction that then fails leaves its hash behind, and the
  fixed part of the reservation may never be subtracted (`BlockFilling.StrayHashUnderReserves`). Without empty
  payload lists the reservation is exact if and only if no such transaction occurred
  (`BlockFilling.ReservationExactIffNoFailure`); the `u64` subtraction wraps when the reserve exceeds the limit.
- A flattened undo record loses a slot that one transition wipes without recording and a later one records
  (`Reverts.WipeThenRecordLosesSlot`).
- A slot listed twice in one access-list entry takes the value of its last listing, whatever the indices say
  (`AccessLists.OlderListingUnsettles`).
- `Flashblock::reduce` keeps the first flashblock's access list, not the last one's.
- `into_hashed_post_state` looks up the parent account for read-only entries too, so an unreadable parent account
  makes the call fail although nothing would change.
- The comment on `EncodedExternalNullifier` gives the year bits 40-47 and the month bits 24-39; the code uses 32-47
  and 24-31.
- `WitnessCache::range` over the whole `u64` range computes a length that wraps to zero.
- A block far in the future prunes roots for good, even if the next block is back inside the window
  (`RootCaching.TimestampJumpForgets`).

## What the model assumes

- The EVM is a function of the transactions already in the block; `is_tx_over_limits`, signing, sealing and the
  network are parameters. A block hash identifies its block, keccak is injective, and the builder's signature never
  reproduces a transaction of the block.
- Marking a pool transaction invalid drops the rest of its sender's transactions.
- `is_better_payload` compares fees strictly. The resolve future prefers a ready better build, then the committed
  payload, then a raced one.
- A build's cancel signal is raised only by dropping the handle through which the job receives its result.
- A transaction already in the block does not execute again, or the pool does not hold the sequencer transactions
  on a first build.
- The account life cycle, `BundleState::extend` and the reverts' meaning are those of revm; a contract is created
  only where there is no nonce, code or storage.
- `storage_post_states` yields one value per slot listing of an entry, that of the listing's change of maximal index,
  in listing order.
- `ChainHardforks::insert` replaces in place or appends, forks compare by name, and `fork_id` is reth's fold: block
  activations first, then timestamps after genesis, skipping an activation equal to the one applied last.
- The genesis header reads forks by name, so its hash does not depend on list order.
- A revert task asked to abort may still wake and fire; a task not asked to abort is never cancelled.
- Integers are unbounded except where the width matters: the gas limit and the verified budget, the generation
  counter, block numbers of witnesses and the nullifier word.

## Model

| member | source | states |
|---|---|---|
| BlockFilling.InsertAllMeans | crates/builder/src/execution_context.rs:340-349 | nullifier insertion succeeds exactly when the hashes are distinct and new, and then adds exactly them; otherwise only hashes of the list were added |
| BlockFilling.InsertNullifiers | crates/builder/src/execution_context.rs:340-349 | the insertion loop equals the specification function |
| BlockFilling.ReserveStep | crates/builder/src/execution_context.rs:360-369 | one reservation step keeps the limit at the start minus `DynGasLimit` of the set size |
| BlockFilling.ExecuteKeepsTotals | crates/builder/src/execution_context.rs:82-103 | executing a transaction keeps each of the four totals the start plus its own sum over the included transactions, and keeps the byte limit and the verified budget |
| BlockFilling.ExecuteKeepsNullifiers | crates/builder/src/execution_context.rs:331-369 | executing a transaction keeps included nullifiers distinct and tracked, and the reservation exact in clean runs |
| BlockFilling.FilledIsAccounted | crates/builder/src/execution_context.rs:263-410 | for every pool and execution outcome: each of gas, pre-refund gas, DA size and fees is the start plus its own sum over exactly the included transactions, fees being gas times the smaller of priority fee and headroom; bytes stay within the limit, PBH transactions within the verified budget, nullifiers distinct and tracked |
| BlockFilling.CommitAdds | crates/builder/src/execution_context.rs:82-103 | committing a transaction adds its gas, pre-refund gas and DA size each to its own total, and its gas times what it pays per gas to the fees |
| BlockFilling.ConsiderSuffers | crates/builder/src/execution_context.rs:280-410 | the fate a transaction meets, told from limits, kind, cancellation, budget, nullifiers and EVM outcome, decides the next state: marked, stopped, failed, passed over, rejected as a duplicate, or appended |
| BlockFilling.PassFollowsFates | crates/builder/src/execution_context.rs:263-410 | the whole pass, entry by entry from the start to its end: a halted pass stands still, a committed or marked entry is passed over, every other entry suffers the one fate it meets |
| BlockFilling.AppendedIff | crates/builder/src/execution_context.rs:280-410 | an entry is appended, with the gas the EVM reports, if and only if the pass is running and it is not committed, not from a marked sender, fits, is not cancelled, is in budget with distinct unspent nullifiers, and executes |
| BlockFilling.BudgetIsShare | crates/builder/src/execution_context.rs:263-264 | the verified budget is the configured percentage of the gas limit, rounded down, unless the product leaves 64 bits |
| BlockFilling.PassSkipsBlobsAndDeposits | crates/builder/src/execution_context.rs:319-324 | no blob or deposit transaction of the pool is ever included |
| BlockFilling.ReservationExact | crates/builder/src/execution_context.rs:360-369 | without empty payload lists the limit shrank by exactly `DynGasLimit` of the set size, wrapping where it does not fit, if and only if no stray hash was left |
| BlockFilling.ReservedAlong | crates/builder/src/execution_context.rs:360-369 | every run subtracts the storage part for each included nullifier and the fixed part as often as it was due |
| BlockFilling.ReservationExactIff | crates/builder/src/execution_context.rs:360-369 | for every run, empty lists included: the reservation is exact if and only if the strays weigh as much as the surplus fixed parts |
| BlockFilling.NoStraysIff | crates/builder/src/execution_context.rs:331-400 | a run ends without stray hashes if and only if no priority transaction inserts a hash and is then refused as a duplicate or fails to execute |
| BlockFilling.ReservationExactIffNoFailure | crates/builder/src/execution_context.rs:331-400 | the reservation of a pass is exact if and only if no such transaction occurred |
| BlockFilling.EmptyListReserves | crates/builder/src/execution_context.rs:360-369 | an empty payload list sets the fixed part aside although nothing is spent |
| BlockFilling.StrayHashUnderReserves | crates/builder/src/execution_context.rs:332-369 | a failed PBH transaction's stray hash makes the reservation fall short |
| BlockFilling.FilledIsFresh | crates/builder/src/payload_txns.rs:62-72 | a pass includes only distinct pool transactions absent from the committed prefix |
| BlockFilling.MarkedSenderStaysOut | crates/builder/src/execution_context.rs:312-316 | once a sender is marked invalid nothing of theirs is included any more |
| BlockFilling.NeverCancelled | crates/builder/src/execution_context.rs:326-329 | a pass whose cancel signal is never raised is not cancelled |
| BlockFilling.SpendCarriesNullifiers | crates/builder/src/execution_context.rs:412-449 | the spend transaction follows the included ones, carries every included nullifier, asks for `DynGasLimit` gas and adds no fees |
| BlockFilling.SpendHappensIff | crates/builder/src/execution_context.rs:412-449 | a pass stops, errors, or ends with the spend transaction exactly as its halt, its nullifier set, the signer and the EVM decide |
| BlockFilling.NextTransaction | crates/builder/src/payload_txns.rs:62-72 | the guard yields the first entry neither committed nor from a marked sender and notes it as observed |
| BlockFilling.ConsiderOne | crates/builder/src/execution_context.rs:280-410 | one loop iteration equals the specification, whose every branch `BlockFilling.ConsiderSuffers` pins |
| BlockFilling.ExecuteOne | crates/builder/src/execution_context.rs:351-410 | executing and committing one transaction equals the specification |
| BlockFilling.ExecuteBestTransactions | crates/builder/src/execution_context.rs:217-449 | the whole loop and the spend transaction equal the specification that `BlockFilling.PassFollowsFates` and `BlockFilling.SpendHappensIff` describe |
| BlockFilling.SpendNullifiers | crates/builder/src/execution_context.rs:412-449 | the end of the pass: stop, error, or the spend transaction if it executes |
| PayloadBuilder.PassContinues | crates/builder/src/payload_builder.rs:560-606 | a finished pass extends its base by distinct transactions, never lowers fees, and moves them only if it added something |
| PayloadBuilder.BuildIsHonest | crates/builder/src/payload_builder.rs:471-661 | every outcome of a build task honours the contract of the job: extension of the base, strictly better fees, freeze of the base, abort only when not better; a build without a pool still continues its base |
| PayloadBuilder.UncancelledNeverFreezes | crates/builder/src/payload_builder.rs:586-605 | in pool mode only a cancelled build freezes |
| PayloadBuilder.SeedContinues | crates/builder/src/payload_builder.rs:366-558 | a continuation starts from the committed transactions, hashes, fees, gas and DA size, with the gas limit less the committed pre-refund gas, at least zero |
| PayloadBuilder.SeedStarts | crates/builder/src/payload_builder.rs:508-531 | a first build starts from the sequencer transactions with the whole gas limit, or fails with them |
| PayloadBuilder.DaBytesStep | crates/builder/src/payload_builder.rs:546-550 | the DA size of a block counts every transaction but deposits |
| PayloadBuilder.DaCarriesOver | crates/builder/src/payload_builder.rs:546-550 | the DA total a pass ends with is the DA size of the block it built, so the next continuation carries on with it |
| PayloadBuilder.BlockFitsByteLimit | crates/builder/src/payload_builder.rs:390-394 | the block with everything the pass included respects the byte limit if its base did |
| PayloadBuilder.PassIsBuilt | crates/builder/src/payload_builder.rs:560-661 | in pool mode: a failed pass fails, a cancelled one freezes the committed payload or fails, one without more fees is aborted, any other becomes a better payload with its transactions, withdrawals and fees once sealed |
| PayloadBuilder.NoPoolBuildsSeed | crates/builder/src/payload_builder.rs:560-661 | in no-pool mode the result is a freeze of exactly what the build started from |
| PayloadBuilder.BuildInner | crates/builder/src/payload_builder.rs:471-661 | seeding, filling if a pool is given, abort and sealing equal the specification |
| Flashblocks.ReduceFlashblocks | crates/primitives/src/flashblocks.rs:161-197 | the reduction loop equals the fold of pairwise merges |
| Flashblocks.ReduceIsConcatenation | crates/primitives/src/flashblocks.rs:161-197 | a reduced flashblock concatenates all increments, keeps the last one's fields and the first one's base and access list |
| Flashblocks.CheckForPreStateLoop | crates/payload/src/generator.rs:339-387 | the search for the takeover state equals the specification, including its error |
| Flashblocks.TakeoverResumes | crates/payload/src/generator.rs:339-387 | a takeover resumes from exactly the predecessor's committed payload and next index |
| Flashblocks.AcceptIncrement | crates/validator/src/coordinator.rs:213-232 | recording the increment of an extending payload, later than any other base held, keeps the coordinator's flashblocks faithful to it: transactions, withdrawals, hash, gas and fees |
| PayloadJob.NewJobInv | crates/payload/src/generator.rs:255-303 | a new job, fresh or resumed, satisfies the invariant |
| PayloadJob.NewJobBuilds | crates/payload/src/generator.rs:255-303 | a new job builds at once, from nothing or from the pre-confirmed payload, which it holds committed and frozen at the next index |
| PayloadJob.NextInv | crates/payload/src/job.rs:477-620 | every step keeps the invariant |
| PayloadJob.EveryRunKeepsInv | crates/payload/src/job.rs:477-620 | in every interleaving the pending build's base is the committed payload, and the best payload is missing, committed or a strict extension |
| PayloadJob.EveryRunGrows | crates/payload/src/job.rs:516-600 | along every run the committed payload only grows and its fees never fall |
| PayloadJob.DeliveredExtendsCommitted | crates/payload/src/job.rs:656-738 | whatever is delivered extends the payload committed at any earlier moment |
| PayloadJob.PoolModeDeliversCommitted | crates/payload/src/job.rs:656-738 | in pool mode a resolve delivers exactly the committed payload and changes nothing |
| PayloadJob.UncommittedResolve | crates/payload/src/job.rs:656-738 | before anything is committed: awaiting hands over the pending build, or one spawned on the current payloads, leaves nothing pending and delivers its payload, whether or not the caller waits; racing delivers the raced payload exactly if the caller does not wait |
| PayloadJob.NoPoolResolve | crates/payload/src/job.rs:673-677 | in no-pool mode with a committed payload a resolve takes the pending build and delivers its payload if ready, the committed one otherwise |
| PayloadJob.DeadlineFreezesJob | crates/payload/src/job.rs:483-487 | after the deadline a poll changes nothing |
| PayloadJob.PendingBuildIsKept | crates/payload/src/job.rs:489-495 | a build in progress is left alone until its result is ready or a candidate is committed |
| PayloadJob.ClearanceCommits | crates/payload/src/job.rs:516-565 | at the interval a candidate is committed once, with its access list and the next index, recorded and sent with the right base, and a build on it always starts, also when it was committed already |
| PayloadJob.BetterIsTaken | crates/payload/src/job.rs:571-583 | a better payload becomes the best one unless it is already committed; nothing else changes |
| PayloadJob.FreezeIsTaken | crates/payload/src/job.rs:584-600 | a frozen payload becomes committed and best, with its access list |
| PayloadJob.FailedBuildIsRetried | crates/payload/src/job.rs:489-495 | a failed or aborted build leaves the payloads alone and the next recommit interval builds on the current ones, unless the best is frozen |
| PayloadJob.BetterBuildIsDelivered | crates/payload/src/job.rs:477-738 | from any pool-mode state with a build pending: once it has returned a new payload and the interval has passed, that payload is committed, later builds start from it and a resolve delivers it |
| PayloadJob.BestFeesFallOnlyAtFreeze | crates/payload/src/job.rs:568-617 | the best fees fall at a step if and only if it receives a freeze while a more valuable candidate waits |
| PayloadJob.BestFeesNeverFall | crates/payload/src/job.rs:568-617 | over every run in which no build freezes the best payload is never lost and its fees never fall |
| PayloadJob.FreezeSettles | crates/payload/src/job.rs:584-600 | after a freeze outcome no event changes the job again |
| PayloadJob.TakeoverStallsUnlessFirstBuildImproves | crates/payload/src/job.rs:489-495 | a takeover job is settled after its first build result if and only if that result is not better |
| PayloadJob.PublishedSlicesAddUp | crates/payload/src/job.rs:341-378 | in every pool-mode run whose commits are signed, accepted by the coordinator and sent, the slices follow the starting payload, carry consecutive indices and make up the committed payload |
| PayloadJob.BehindForever | crates/payload/src/job.rs:527-556 | after a missed flashblock the coordinator accepts nothing more from the job |
| PayloadJob.InSyncIffEveryCommitRecorded | crates/payload/src/job.rs:341-378 | the coordinator reproduces the committed payload at the end of a run if and only if every commit was signed and the first came later than any other base the coordinator held |
| PayloadJob.UnrecordedCommitFallsBehind | crates/primitives/src/flashblocks.rs:328-362 | a fresh job that commits its first payload without a signer, or while the coordinator holds a base that is not older, leaves the coordinator behind |
| PayloadJob.TakeoversReproduce | crates/payload/src/generator.rs:149-304 | across any number of takeovers all flashblocks reduce to the last builder's committed block, with its hash, gas and fees, which extends what earlier builders pre-confirmed |
| PayloadJob.FlashblocksPayloadJob.constructor | crates/payload/src/generator.rs:255-303 | the initial job state |
| PayloadJob.FlashblocksPayloadJob.SpawnBuildJob | crates/payload/src/job.rs:281-332 | a build is spawned on the current committed and best payloads |
| PayloadJob.FlashblocksPayloadJob.PublishPayload | crates/payload/src/job.rs:341-378 | the increment over the committed payload is signed, refused or recorded by the rules of `push`, and sent |
| PayloadJob.FlashblocksPayloadJob.CommitBest | crates/payload/src/job.rs:516-565 | the commit branch of a poll equals the specification |
| PayloadJob.FlashblocksPayloadJob.ReceiveResult | crates/payload/src/job.rs:568-617 | the build-result branch equals the specification and its unreachable case is unreachable |
| PayloadJob.FlashblocksPayloadJob.PollOnce | crates/payload/src/job.rs:477-620 | one poll equals the step of the state machine and keeps the invariant |
| PayloadJob.FlashblocksPayloadJob.ResolveKind | crates/payload/src/job.rs:656-738 | resolving equals the specification, state and future, that `PayloadJob.UncommittedResolve`, `PayloadJob.NoPoolResolve` and `PayloadJob.PoolModeDeliversCommitted` describe in every case |
| PayloadJob.NewPayloadJob | crates/payload/src/generator.rs:149-304 | a job starts from the coordinator's state, authorized by its peer or by itself, and fails exactly when the parent header is missing, the state is inconsistent, the authorization channel closes or publishing is refused |
| PayloadPipeline.BuilderResultsAreLegal | crates/builder/src/payload_builder.rs:319-460 | a result of the builder is one the job may receive |
| PayloadPipeline.BuilderRunsAreLegal | crates/payload/src/job.rs:281-332 | every run whose results come from the builder is a legal run |
| PayloadPipeline.PublishedIsDelivered | crates/payload/src/job.rs:656-738 | end to end: the slices published by a fresh job driven by the builder make up the payload that is delivered |
| PayloadPipeline.BuilderRunsKeepBestFees | crates/payload/src/job.rs:568-617 | with the builder behind the job a pool-mode run never loses its best payload or lowers its fees |
| Reverts.MergeAllAppend | crates/evm/src/utils.rs:20-55 | merging histories is associative over concatenation |
| Reverts.FoldIsMergedHistory | crates/evm/src/utils.rs:20-55 | the flattening map holds, per account, the merge of its history |
| Reverts.FlattenComposes | crates/evm/src/utils.rs:20-55 | flattening two parts separately and then together equals flattening once |
| Reverts.FlattenEachTimeEqualsOnce | crates/evm/src/utils.rs:83-91 | flattening after each of any number of flashblocks equals flattening once at the end |
| Reverts.FlattenAlikeIff | crates/evm/src/utils.rs:20-55 | two continuations of a history flatten to equal records if and only if for every account they add the same to what is recorded already |
| Reverts.FlattenedUndoInfo | crates/evm/src/utils.rs:13-55 | account info and status are undone as by all transitions from last to first; the wipe flag is set exactly when some transition set it |
| Reverts.FlattenedUndoSlotIff | crates/evm/src/utils.rs:13-55 | a slot is undone as by all transitions if and only if `FlattensSlot` holds |
| Reverts.WipeThenRecordLosesSlot | crates/evm/src/utils.rs:31-38 | a wipe without a record followed by a record loses the slot |
| Reverts.FlattenedUndoRestores | crates/evm/src/utils.rs:13-55 | when every transition's own undo is right, wipes and destroyed slots included, undoing the flattened one restores the pre-block info and status, and a slot if and only if `FlattensSlot` holds |
| Reverts.FullListingsFlatten | crates/evm/src/utils.rs:13-55 | transitions that list the prior value of all they change always flatten well |
| Reverts.MergeInto | crates/evm/src/utils.rs:28-48 | merging one revert into the entry, field by field |
| Reverts.FlattenReverts | crates/evm/src/utils.rs:20-55 | the loops produce one transition that lists the flattened record, each account once |
| Bundles.ApplySimulates | crates/evm/src/utils.rs:57-80 | an effect keeps the fragment's cached account indistinguishable from the serial one |
| Bundles.FragmentRecord | crates/evm/src/utils.rs:83-91 | an effect keeps the merged bundle entry describing the fragment's cache |
| Bundles.RecordKeepsStatus | crates/evm/src/utils.rs:83-91 | an effect keeps the status of the merged entry that of the serial one |
| Bundles.TransitionedKeepsKnowledge | crates/evm/src/utils.rs:83-91 | merging two entries never forgets a destruction or fully known storage |
| Bundles.NextFragmentAgrees | crates/evm/src/utils.rs:57-91 | the next fragment's prestate agrees with the serial execution so far, for every account |
| Bundles.FragmentsMatchSerial | crates/evm/src/utils.rs:57-91 | account info and every slot of the composed bundle read as after serial execution, for every bundle and sequence of fragments; both list the same accounts with the same status, save that one destroyed again may be listed as destroyed |
| Bundles.WithoutRewriteSlotsAreLost | crates/evm/src/utils.rs:57-80 | without the status rewrite a merge drops slots of a re-created account |
| Bundles.ExtendState | crates/evm/src/utils.rs:83-91 | merging bundles account by account equals the specification |
| Bundles.ExtendFlashblockBundle | crates/evm/src/utils.rs:83-91 | the merged state, all contracts and the one flattened revert transition |
| Bundles.FlashblocksMatchSerial | crates/evm/src/utils.rs:57-91 | after any number of flashblocks the composed bundle reads as the serial execution, lists the same accounts with the same destruction status, knows every contract, and carries one transition, the flattening of all undo records |
| Bundles.ComposedRecordUndoesSerial | crates/evm/src/utils.rs:132-219 | undoing the composed record on the state the serial execution ended in restores info and status before the block, and a slot if and only if its history flattens |
| Bundles.ComposedRecordUndoesBlock | crates/evm/src/utils.rs:83-91 | when each flashblock's own records undo what it did, the composed record undone on the serial end state gives back what the bundle before the block reads: info always, a slot if and only if its history flattens, nothing for an account without a record |
| Bundles.UndoRecordsEqualIff | crates/evm/src/utils.rs:132-219 | the composed and the serial undo record are equal, in any listing order, if and only if for every account the fragments' and the serial records add the same to the committed one |
| AccessLists.ReplayIsLatest | crates/primitives/src/access_list.rs:138-172 | replaying a field in index order ends with the change of maximal index |
| AccessLists.ReplayProjects | crates/primitives/src/access_list.rs:69-129 | the replay of the whole list projects to each account's own replay |
| AccessLists.ReplayEntryIsSelection | crates/primitives/src/access_list.rs:132-172 | selection by maximal index over an unsorted entry equals its replay if and only if every slot's last listing settles it |
| AccessLists.UniqueSlotsSettle | crates/primitives/src/access_list.rs:112-115 | listing every slot once settles all of them |
| AccessLists.OlderListingUnsettles | crates/primitives/src/access_list.rs:112-115 | a slot listed once more with an older change of another value makes selection and replay differ |
| AccessLists.ExtendAt | crates/primitives/src/access_list.rs:69-129 | every entry acts on the committed state alone; the call fails exactly when some entry needs an unreadable account |
| AccessLists.ExtendIsReplay | crates/primitives/src/access_list.rs:69-129 | every changed account is the one replayed in access-index order: no leaf exactly if it ends with zero balance and nonce and no or empty code, untouched committed slots kept and read zero exactly then; its written slots are the replayed ones if and only if they are settled; accounts not listed or listed without a change are untouched |
| AccessLists.MergeAccountIff | crates/primitives/src/access_list.rs:74-126 | one account: applying two entries equals applying them merged if and only if they are compatible |
| AccessLists.MergeWithReads | crates/primitives/src/access_list.rs:74-126 | merging with a read-only entry changes nothing |
| AccessLists.SequentialEqualsMergedIff | crates/primitives/src/access_list.rs:74-126 | list A then list B equals the merged list if and only if every account changed by both is compatible; the merged list fails only if the two do |
| AccessLists.NoEmptyEndingIsCompatible | crates/primitives/src/access_list.rs:97-111 | entries that do not end an account empty are compatible |
| AccessLists.NoEmptyEndingMerges | crates/primitives/src/access_list.rs:97-111 | lists merge when no account listed in both ends either list empty |
| AccessLists.EmptyEndingDiffers | crates/primitives/src/access_list.rs:104-125 | two lists, a slot written first and an account emptied second: in a row the slot ends at zero, merged it keeps its value |
| AccessLists.MaxByIndex | crates/primitives/src/access_list.rs:138-172 | the selection loop returns the last change of maximal index |
| AccessLists.AccountPostState | crates/primitives/src/access_list.rs:138-172 | the account after its changes, nothing for a read-only entry |
| AccessLists.OverlaySlots | crates/primitives/src/access_list.rs:104-125 | zeroing and overlaying an account's slots equals the specification |
| AccessLists.ApplyChanges | crates/primitives/src/access_list.rs:74-126 | one entry's effect on the account and storage maps equals the specification |
| AccessLists.IntoHashedPostState | crates/primitives/src/access_list.rs:69-129 | the loop over entries equals the specification of `AccessLists.ExtendIsReplay`, including its error |
| Hardforks.ConvertIsIdempotent | crates/chainspec/src/spec.rs:529-552 | converting a fork name twice changes nothing more |
| Hardforks.ConvertMeans | crates/chainspec/src/spec.rs:529-552 | only `Interop` is dropped, every spelling of Tropo and Strato gets its canonical name, every other name is kept |
| Hardforks.SortedMeans | crates/chainspec/src/spec.rs:600-613 | sorted means block activations by number, then a merge without a block, then timestamps by time, then forks that never activate |
| Hardforks.StableSortIsStable | crates/chainspec/src/spec.rs:593-595 | the sort is a permutation in activation order that keeps ties in place |
| Hardforks.SelectedSplits | crates/chainspec/src/spec.rs:581-591 | the select-and-remove loop leaves named forks in canonical order and the rest in configured order |
| Hardforks.OrderIsCanonical | crates/chainspec/src/spec.rs:563-613 | the ordered list is a sorted permutation with tied World Chain forks first, in canonical order |
| Hardforks.OrderBreaksTiesByRelease | crates/chainspec/src/spec.rs:563-596 | forks that activate together are listed in release order from Bedrock to Strato, all others after them |
| Hardforks.SetForkUpdates | crates/chainspec/src/spec.rs:81-101 | setting a fork updates the schedule there only and always leaves an ordered list |
| Hardforks.SetForksUpdate | crates/chainspec/src/spec.rs:81-101 | any sequence of overrides leaves the schedule it describes, in order if the list was ordered or some override took effect |
| Hardforks.FoldIgnoresRepeats | crates/chainspec/src/spec.rs:804-827 | skipping adjacent repeats equals folding distinct activations |
| Hardforks.ForkIdDependsOnSets | crates/chainspec/src/spec.rs:759-805 | on ordered activations the fork identifier depends only on the sets of activations |
| Hardforks.SameScheduleSameForkId | crates/chainspec/src/spec.rs:759-805 | ordered specs with the same schedule have the same fork identifier at every head |
| Hardforks.OverridesDetermineForkId | crates/chainspec/src/spec.rs:759-805 | any two specs and sequences of overrides that end in the same schedule give the same fork identifier, from ordered lists or through at least one effective override |
| Hardforks.GenesisAndOverrideAgree | crates/chainspec/src/spec.rs:759-805 | specs that differ only in forks both then override agree on the fork identifier, ordered or not before |
| Hardforks.NextForkIsEarliest | crates/chainspec/src/spec.rs:798-801 | the announced next fork is the earliest listed block activation not reached, else the earliest listed timestamp after genesis not reached, else zero |
| Hardforks.ForkHashFoldsReached | crates/chainspec/src/spec.rs:759-805 | the fork hash folds every distinct reached activation once, in ascending order, blocks before timestamps |
| Hardforks.AppendingChangesForkId | crates/chainspec/src/spec.rs:86-88 | without reordering one schedule gives two fork identifiers |
| Hardforks.DefaultsKeepExplicitForks | crates/chainspec/src/spec.rs:103-142 | the defaults keep explicit activations, fill the missing ones, keep the order and are idempotent |
| Hardforks.DefaultsSchedule | crates/chainspec/src/spec.rs:103-142 | with the four timestamps written out: on each chain a missing Jovian or Karst activates at that chain's time, a missing Osaka at Karst's if that is a time, every other fork as configured |
| Hardforks.TakeInOrder | crates/chainspec/src/spec.rs:581-589 | the select-and-remove loop equals the specification |
| Hardforks.OrderWorldHardforks | crates/chainspec/src/spec.rs:563-596 | ordering equals the specification |
| Hardforks.WorldChainSpec.FromConfigured | crates/chainspec/src/spec.rs:426-443 | the genesis path leaves an ordered, well-formed list with defaults applied and a current genesis header |
| Hardforks.WorldChainSpec.Set | crates/chainspec/src/spec.rs:81-101 | setting a fork updates list and genesis header |
| Hardforks.WorldChainSpec.SetMissingWorldFork | crates/chainspec/src/spec.rs:126-130 | a fork is set only if it had no activation |
| Hardforks.WorldChainSpec.SetMissingKarstForks | crates/chainspec/src/spec.rs:132-142 | Karst is filled in, and Osaka follows Karst's timestamp if missing |
| Hardforks.WorldChainSpec.ApplyWorldChainDefaults | crates/chainspec/src/spec.rs:103-124 | the defaults per chain, whose schedule `Hardforks.DefaultsSchedule` gives |
| Sentries.RankIsRanked | crates/node/src/context.rs:115-137 | the ranking lists every non-local candidate exactly once, best first |
| Sentries.RankDependsOnSet | crates/node/src/context.rs:111-137 | permuting or repeating the pool does not change the ranking |
| Sentries.SelectedIffFewBeatIt | crates/node/src/context.rs:158-163 | a candidate is selected exactly when fewer than the maximum have a higher score, or the same score and a lower identifier |
| Sentries.RemovalDisturbsOnlyItself | crates/node/src/context.rs:111-137 | removing a sentry changes the selection only if it was selected, and then only the next-ranked one enters |
| Sentries.PolicyEnforcesSelection | crates/node/src/context.rs:148-204 | a pool member ends up trusted exactly when selected, otherwise banned unless local, and absent from basic and persisted peers; others are unchanged |
| Sentries.PolicyKeepsOthers | crates/node/src/context.rs:170-184 | peers outside the pool keep their records and order |
| Sentries.PolicyTrustsAtMostMax | crates/node/src/context.rs:148-204 | at most the maximum number of pool members is trusted |
| Sentries.PolicyTrustsOnce | crates/node/src/context.rs:186-195 | no peer is trusted twice unless it was listed twice before |
| Sentries.MissingIsFirst | crates/node/src/context.rs:186-195 | what is added for a sentry is the first record the pool has of it |
| Sentries.PeersConfig.ApplySentryPolicy | crates/node/src/context.rs:152-204 | the policy's updates equal the specification and it returns the selection |
| Sentries.PeersConfig.EnforceSelection | crates/node/src/context.rs:164-201 | retaining, adding and banning equal the specification |
| Sentries.PeersConfig.AddMissing | crates/node/src/context.rs:186-195 | each selected sentry not yet trusted is added once |
| Sentries.PeersConfig.Ban | crates/node/src/context.rs:197-201 | exactly the excluded sentries other than the local peer are banned |
| AdminRevert.ValidateAccepts | crates/rpc/src/admin.rs:113-131 | a request is accepted exactly when its time to live is 1 to 3600 seconds and its trimmed directives are neither empty nor longer than 1024 bytes |
| AdminRevert.Utf8LengthCounts | crates/rpc/src/admin.rs:123-127 | the length bounded is in bytes: one to four per character, one exactly for ASCII |
| AdminRevert.OverrideTakesEffectIff | crates/rpc/src/admin.rs:133-194 | a valid request on a node that can reload, with directives that parse, sets the filter, asks the previous revert to abort and starts its own; any other changes nothing |
| AdminRevert.AbortedRevertCanBeCancelled | crates/rpc/src/admin.rs:160-164 | a revert asked to abort can be cancelled until it has fired, and then never fires |
| AdminRevert.NextInv | crates/rpc/src/admin.rs:150-194 | every step keeps generations numbered, only the newest task live, and the filter the one due |
| AdminRevert.SupersededRevertIsInert | crates/rpc/src/admin.rs:83-93 | in every interleaving the filter is the one due, and a superseded revert changes nothing however late it fires |
| AdminRevert.ActiveOverrideHasItsRevert | crates/rpc/src/admin.rs:160-193 | while an override is active exactly one unfinished revert carries the current generation; it cannot be cancelled and its firing restores the baseline |
| AdminRevert.RevertActsIff | crates/rpc/src/admin.rs:165-178 | a revert acts if and only if the number of overrides since its own is a multiple of 2^64 |
| AdminRevert.NumberedAlways | crates/rpc/src/admin.rs:165-166 | in every run generations count overrides modulo 2^64 |
| AdminRevert.AdminApiExt.constructor | crates/rpc/src/admin.rs:95-105 | the initial state |
| AdminRevert.AdminApiExt.TracingDirectives | crates/rpc/src/admin.rs:133-208 | a call is the override step and succeeds exactly when the directives are accepted |
| AdminRevert.AdminApiExt.RevertFires | crates/rpc/src/admin.rs:170-192 | a firing revert task is the fire step |
| WitnessCaching.HoldsHighest | crates/evm/src/cache.rs:36-51 | after any inserts the cache holds exactly the highest distinct numbers up to its depth, each with its latest witness |
| WitnessCaching.RangeServedIff | crates/evm/src/cache.rs:74-85 | a range is served exactly when every block is present, in ascending order; the full range wraps |
| WitnessCaching.WitnessCache.WithDepth | crates/evm/src/cache.rs:36-41 | an empty cache whose depth is at least one |
| WitnessCaching.WitnessCache.Insert | crates/evm/src/cache.rs:45-51 | the insert-and-evict loop extends the history |
| WitnessCaching.WitnessCache.Get | crates/evm/src/cache.rs:56-58 | returns the latest witness of a number among the highest, else nothing |
| WitnessCaching.WitnessCache.Bounds | crates/evm/src/cache.rs:62-65 | the lowest and highest number held, nothing exactly before the first insert |
| WitnessCaching.WitnessCache.Range | crates/evm/src/cache.rs:74-85 | collecting a range equals the specification |
| RootCaching.CachedIffSurvives | crates/pool/src/root.rs:74-105 | for any timestamps a root is cached exactly when its last showing is within the window of every later block |
| RootCaching.CachedIffShownRecently | crates/pool/src/root.rs:74-119 | with non-decreasing timestamps a root is cached exactly when some block showed it within 604800 seconds of the latest |
| RootCaching.TimestampJumpForgets | crates/pool/src/root.rs:98-105 | a block far ahead forgets a root even if time goes back |
| RootCaching.RootProvider.constructor | crates/pool/src/root.rs:46-67 | start-up takes the latest root, if every lookup succeeds |
| RootCaching.NewRootProvider | crates/pool/src/root.rs:46-67 | opening fails exactly when the last block cannot be read |
| RootCaching.RootProvider.NewBlock | crates/pool/src/root.rs:74-96 | a block extends the history; a failed lookup changes nothing |
| RootCaching.RootProvider.PruneInvalid | crates/pool/src/root.rs:98-105 | exactly the roots older than the window are dropped |
| RootCaching.RootProvider.Contains | crates/pool/src/root.rs:117-119 | present exactly when some showing survives |
| ExternalNullifiers.Encode | crates/pbh/src/external_nullifier.rs:58-67 | the word is below 2^48 with low byte 1, the nonce in bits 8-23, the month in 24-31 and the year in 32-47 |
| ExternalNullifiers.Decode | crates/pbh/src/external_nullifier.rs:69-96 | accepts exactly the words below 2^48 with low byte 1, and encoding the result gives the word back |
| ExternalNullifiers.DecodeEncode | crates/pbh/src/external_nullifier.rs:58-96 | decoding an encoded nullifier returns it |
| ExternalNullifiers.LimitFailsOnVersion | crates/pbh/src/external_nullifier.rs:73-86 | 2^48 itself passes the range check and fails on its version byte |

## Left out

- Real time, task scheduling and backpressure: timers, publish results and build results are chosen by the environment.
- Flashblocks of other builders that reach the coordinator in the middle of a job; a takeover is modelled between jobs.
- EVM execution, state roots, receipts and block assembly: functions of the environment.
- Semaphore proofs, signatures and fee accounting of the pool: not part of this model.
- The parent-state cache of `on_new_state`, metrics, tracing spans and payload events: they carry no state the theorems speak of.
- Conversions from `ChainSpec` and `OpChainSpec` and the spec builder: they do not reorder, so no ordering is claimed.
- `add_flashblock_sentry_bootnodes` and the transaction propagation policy: they would only add easy members.
- Reading genesis extra fields: the constructor takes the configured fork list.
- Hardforks.WorldChainSpec.FromConfigured: requires distinct canonical names, which the fixed table of the genesis conversion provides.
- AdminRevert.SupersededRevertIsInert: assumes at most 2^64 applied overrides; `AdminRevert.RevertActsIff` says what happens beyond.
- AdminRevert.ActiveOverrideHasItsRevert: assumes at most 2^64 applied overrides.
- Which undo records revm creates for a transition, and how its bundle merge adjusts those of wiped accounts: the
  records are a parameter, taken as they stand after the merge.
- BlockFilling.ReservationExact: assumes `DynGasLimit` of the set size is below 2^64.
- Bundles.UndoRecordsEqualIff: takes the serial records as a parameter; which records revm creates is not modelled.
