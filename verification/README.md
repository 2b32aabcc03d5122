# Drip: verified core

A Dafny model of the stateful core of the Drip streaming-payments protocol: the factory's stream
registry and its paged, incrementally migrated per-account index, the accrual arithmetic of one
stream, the price oracle, the governor's roles, proposals and vote checkpoints, and the off-chain
indexer's poll-and-fold protocol. `dafny verify dfyconfig.toml` checks everything.

Objects whose methods update storage are classes; loops are loops. Each such method is proved against
a specification over plain values (a list, a sum over seconds, a fold over events), and what the system
promises is then proved about those specifications and about the invariants (`Valid()`) every method
keeps. An entry point that fails leaves its state as it was, as the Soroban host guarantees: methods
that can fail after a write restore it, and say so.

| file | models |
|---|---|
| `Base.dfy`, `Tokens.dfy` | options, results, machine limits; balances of well-behaved tokens |
| `StreamIndex.dfy` | `index.rs`: pages of 100, a legacy vector migrated page by page, appends behind it |
| `Registry.dfy` | `lib.rs` of the factory: validation, single and batch creation, rollback |
| `Walker.dfy` | `ttl.rs`: the bounded round-robin walker |
| `StreamMath.dfy` | `math.rs` of the stream, with pause, resume and rate change |
| `Median.dfy`, `Twap.dfy`, `Oracle.dfy` | the oracle: medians, time-weighted average, feeder set, price views |
| `Rbac.dfy`, `Authority.dfy` | role storage, role administration, admin handover |
| `Proposals.dfy`, `Checkpoints.dfy` | proposal book with status index and escrow; checkpointed voting weight |
| `Handlers.dfy`, `Rows.dfy`, `Poller.dfy` | the indexer: fold handlers over tables, what each row holds after any events, and the transactional poll loop |

## What the proofs show

- **Index.** Whatever mix of appends and partial migrations has run, the five kinds of storage entry of
  an account stand for one list; reads return exactly its slices, and the early `break` of the read loop
  is unreachable. An append extends the list if and only if its offset fits in 32 bits; what readers see
  when it does not is stated too.
- **Registry.** Ids are handed out consecutively; the per-sender lists and the per-recipient lists each
  partition the ids, as far as a list can count; addresses, known contracts, salts and totals cover exactly
  the ids handed out; a salt is never found in use; deposit and surcharge move as requested, in a batch one
  request after the other, or nothing moves at all.
- **Accrual.** Over any lifecycle the streamed amount is the sum of three accounts: the rate in force over
  every second in which the stream ran, what resumptions pay for pauses over which a cliff stood, and by how
  much setting cliffs, or changing the rate ahead of one, moved value already earned. Without cliffs the
  last two are nothing. A bounded stream accepted at creation, paused and resumed at will, owes no more than
  its deposit as long as no rate change or cliff intervenes, and after one of these exactly when the new
  schedule is covered.
- **Oracle.** The loop over observations computes the average price per second, none of its overflow
  checks can fire, and the status view and the price read classify every state alike. When a submission is
  accepted, and what a read then answers, is stated in plain inequalities.
- **Governor.** Role index, role storage and admin count agree in every reachable state, there is always
  an admin, and the second step of a handover never fails on the last-admin rule. Every proposal is listed
  once, under its status; escrowed stakes are exactly the recorded ones.
- **Indexer.** In every state of every run the tables are the fold of exactly the events up to the cursor, and
  every column of every row is told from these events alone.
  Replaying any suffix of what was folded changes nothing. With pages of any kind, what the cursor passes
  over is lost for good.

## Where the code and its promises part

The model follows the code. Where the difference has a condition, the lemma named states it exactly.

- `migrate_sender_index` is documented to return the legacy ids migrated so far. Once the migration is
  finished it returns the length of the whole list (`StreamIndex.IndexStore.MigrateIndex`,
  `StreamIndex.FinishedMigrationReportsAll`).
- Paused time is documented never to count. A stream whose accrual waits at or runs from a cliff, and not from
  a later rate checkpoint, accrues the pause when it resumes, because the cliff stays in place
  (`StreamMath.ResumeIsTransparent`, `StreamMath.StreamedIsEarned`). The same documentation gives the later of
  pause and end as the effective time; the code takes the earlier (`StreamMath.PausedUsesTheEarlier`).
- Earned value is documented never to be repriced by a rate change. With a cliff ahead, a rate change loses all
  that a checkpoint had carried (`StreamMath.RateChangeLosesIff`, `StreamMath.SecondRateChangeLosesEarned`).
  Setting a cliff on a running stream reprices, too (`StreamMath.SetCliffIsHarmlessIff`,
  `StreamMath.CliffWipesEarned`).
- A fixed-duration stream must be funded for its whole length when it is created, but neither a rate change nor
  a cliff looks at the deposit (`StreamMath.RateChangeIsFundedIff`, `StreamMath.RateChangeOutgrowsDeposit`,
  `StreamMath.CliffIsFundedIff`).
- The 50 per cent price-change rule lets changes below 50.01 per cent through (`Oracle.DeviationRule`,
  `Oracle.JumpPasses`).
- The final admin is documented never to be revocable. The shared guard counts expired assignments too, so
  through the shared operations the only active admin can be revoked while an expired one is stored
  (`Rbac.RevocationStrandsIff`, `Rbac.StrandTable`). Governor and oracle both refuse to grant an expiring
  admin, so neither gets there (`Authority.Governor.AlwaysAnAdmin`).
- `execute_proposal` is documented as executing proposals that passed, and as counting votes for and
  against. It counts abstentions too (`Proposals.AbstentionsCarryIff`, `Proposals.AbstentionsAloneExecute`)
  and never compares the two sides (`Proposals.DivisionIsIgnored`, `Proposals.RejectedProposalExecutes`).
- Status lists are documented to be in creation order; they are in order of entering the status
  (`Proposals.ProposalBook.EntryKeepsOrderIff`, `Proposals.ProposalBook.NewerVotedFirst`).
- The proposal stake is documented as refundable (contracts/governor/src/lib.rs:763). That of a cancelled
  proposal stays in escrow, and no step ever pays it back (`Proposals.CancelledStakeIsStuck`,
  `Proposals.ProposalBook.ProposedThenCancelled`).
- `propose_admin` accepts the zero address, which `propose_authority` refuses (`Authority.Governor.ProposeAdmin`).
- The handlers are documented to be safe to re-fold. They are for suffixes of the history; refolding an
  older stretch can bring back a pause, or an overruled vote under the newer transaction
  (`Handlers.RefoldHarmlessIff`, `Handlers.StaleReplayPauses`, `Handlers.StaleReplayVotes`).
- The withdrawn column is not the sum of the withdrawal rows. It counts only withdrawals strictly newer than
  everything before them on the stream (`Handlers.CounterIsRowSumIff`, `Handlers.SameLedgerIsNotCounted`).
- `db/schema.sql` makes a withdrawal row refer to a stream row, the handler inserts the withdrawal first,
  and stream creation has no handler: a stream whose first handled event is a withdrawal stops the indexer
  for good (`Handlers.WithdrawalNeedsItsStream`, `Poller.OrphanWithdrawalBlocks`).
- A fetched page that ends inside a ledger loses the rest of that ledger for good (`Poller.CutPageLosesEvents`,
  `Poller.SkippedForGood`, `Poller.HalfALedgerIsLost`).

## Model

| member | source | states |
|---|---|---|
| `StreamIndex.LayoutIsInjective` | contracts/factory/src/index.rs:24-39 | the logical-to-physical mapping is strictly increasing, never saturates below the limit, and never puts a legacy id and an appended id on one page |
| `StreamIndex.MigrationProgresses` | contracts/factory/src/index.rs:79-99 | a step on an unfinished index moves the cursor forward by exactly the least of the requested pages, twenty, and the pages left, a page being a hundred ids |
| `StreamIndex.CopyPages` | contracts/factory/src/index.rs:84-99 | the copying loop leaves the pages holding exactly the longer prefix of the legacy block, and the cursor at its end |
| `StreamIndex.MigrateLegacyIndex` | contracts/factory/src/index.rs:41-118 | a migration step keeps the abstract list, never touches a finished index, and drops the legacy vector exactly when nothing is left to copy |
| `StreamIndex.RepresentsOne` | contracts/factory/src/index.rs:206-284 | stored entries stand for one list only, the one the read path yields |
| `StreamIndex.AppendExtends` | contracts/factory/src/index.rs:138-153 | writing one id extends the list by exactly that id if and only if its offset fits in 32 bits |
| `StreamIndex.AppendTo` | contracts/factory/src/index.rs:120-160 | migrating one page and appending leaves the old list followed by the new id, with exactly one page more migrated; it traps exactly when the legacy block alone rounds up beyond 32 bits; without room the list shown is still known |
| `StreamIndex.RoomBelowLimit` | contracts/factory/src/index.rs:24-39 | below the 32-bit limit less a page there is always room |
| `StreamIndex.LostAppend` | contracts/factory/src/index.rs:32-39 | an append without room that does not trap is lost: a full count shows the old list, and a count that can still grow shows its last id twice |
| `StreamIndex.FullAppendIsLost` | contracts/factory/src/index.rs:151-153 | once the count is full it stays full, and an append leaves everything readable as it was |
| `StreamIndex.ReadPaged` | contracts/factory/src/index.rs:229-272 | the read loop returns the requested slice; a page shorter than the count promises is never met |
| `StreamIndex.Paginate` | contracts/factory/src/query.rs:21-36 | pagination of a plain vector is the same slice |
| `StreamIndex.SliceIs` | contracts/factory/src/query.rs:21-36 | a page is at most a hundred consecutive ids from the offset on, as many as were asked for and are there |
| `StreamIndex.PagesTile` | contracts/factory/src/index.rs:206-284 | pages requested one behind the other show every id from the first offset on, once and in order, whatever the limit |
| `StreamIndex.IndexStore.AppendIndexEntry` | contracts/factory/src/index.rs:120-160 | an append changes one account's list as stated above, with or without room, and nobody else's entries; a trap changes nothing |
| `StreamIndex.IndexStore.MigrateIndex` | contracts/factory/src/index.rs:335-384 | migration changes no list; the value reported is the migrated prefix exactly if this step leaves the migration unfinished or nothing was appended behind the legacy block |
| `StreamIndex.FinishedMigrationReportsAll` | contracts/factory/src/index.rs:349-352 | one migrated id with one appended behind it is reported as two |
| `StreamIndex.IndexStore.ReadIndex` | contracts/factory/src/index.rs:206-284 | at every stage of migration a read returns list[offset .. min(offset + min(limit, 100), length)] |
| `StreamIndex.IndexStore.CountIndex` | contracts/factory/src/index.rs:286-301 | the count is the length of the list |
| `Registry.ValidateStreamRequest` | contracts/factory/src/lib.rs:163-222 | a request passes exactly when parties, token, amounts, start and funding of its whole duration are in order, whatever the order of checks; an error names a condition the request violates |
| `Registry.EnforceBounds` | contracts/factory/src/governance.rs:41-82 | a request passes exactly when rate, start and duration are within the governor's bounds; an error names the bound it is outside of |
| `Registry.Terms` | contracts/factory/src/lib.rs:239-256 | bounds and fee succeed exactly within bounds and 128 bits, and give the surcharge: fee * 10000 <= deposit * basis points < (fee + 1) * 10000 |
| `Registry.FeeRule` | contracts/factory/src/lib.rs:239-256 | the computed fee is the only one with fee * 10000 <= deposit * basis points < (fee + 1) * 10000 |
| `Registry.SettlePays` | contracts/factory/src/lib.rs:279-351 | the three transfers go through exactly when a sender other than the factory covers deposit and fee; sender, stream and fee recipient change by exactly their share and nobody else does |
| `Registry.IdsOfIsPositions` | contracts/factory/src/lib.rs:409-421 | the ids of a party are exactly the creations naming it, in strictly increasing order |
| `Registry.Factory.Initialize` | contracts/factory/src/lib.rs:60-90 | succeeds once, with a real hash and governor, and starts the registry at zero |
| `Registry.AppendKeepsIndexed` | contracts/factory/src/lib.rs:409-421 | a party's index keeps listing its ids in order through every append, up to the 2^32 - 1 a list can count |
| `Registry.Factory.UnknownAhead` | contracts/factory/src/deploy.rs:21-57 | ids not handed out yet have unused salts and addresses never known before, so deployment never fails |
| `Registry.Factory.MoveFunds` | contracts/factory/src/lib.rs:279-351 | the transfer steps with their balance checks go through exactly when the settlement does, and leave exactly its balances |
| `Registry.Factory.CreateFunded` | contracts/factory/src/lib.rs:258-425 | the stateful half succeeds exactly when the lock is free, the money moves and the stream agrees to initialize; then every record of the new id agrees and the lock is free again |
| `Registry.Factory.OutcomeIff` | contracts/factory/src/lib.rs:225-425 | a request succeeds if and only if it is acceptable and within bounds, there is a fee as above that fits, ids are left, the stream agrees to initialize, and a sender other than the factory holds deposit and fee; then sender, stream and fee recipient change by deposit and that fee, and nobody else does |
| `Registry.Factory.CreateStreamWithConfig` | contracts/factory/src/lib.rs:225-425 | succeeds exactly when bounds, fee and payment allow, with the balances of that outcome and the next id |
| `Registry.Factory.CreateStream` | contracts/factory/src/lib.rs:98-160 | one stream: succeeds exactly under the plain conditions of a creation, with deposit and a fee as above moved and nothing else; exact refusal error, complete rollback otherwise; the salt is never in use |
| `Registry.Factory.BatchFailsEarly` | contracts/factory/src/lib.rs:531-557 | a batch with a failing prefix fails as a whole |
| `Registry.Factory.BatchIff` | contracts/factory/src/lib.rs:505-559 | a batch succeeds if and only if each of its requests can be met, with its fee, out of what its sender holds after the ones before it; all balances then change by the sum of what each request moves |
| `Registry.Factory.CreateAll` | contracts/factory/src/lib.rs:505-559 | a batch creates all its streams under consecutive ids, each paid with its fee after the ones before it, exactly when each can be, or changes nothing |
| `Registry.Factory.CreateBatchStreams` | contracts/factory/src/lib.rs:505-559 | exact success condition and payments; the returned ids are appended to the sender's list, in order, up to what it can count |
| `Registry.Factory.BatchCreateStreams` | contracts/factory/src/lib.rs:440-495 | exact success condition and payments; on success the returned addresses are those registered for the new ids, none known before |
| `Registry.Factory.RegistryPartitions` | contracts/factory/src/lib.rs:367-425 | after any run of creations every id is in exactly its sender's and its recipient's list, strictly increasing, unless that list was full before it; addresses, known contracts and totals cover exactly the ids |
| `Walker.AddressBook.BumpPersistentBucket` | contracts/factory/src/ttl.rs:42-83 | one call visits exactly the next eight ids behind the cursor, wrapping, extends those with an entry, counts them, and keeps the cursor below the count |
| `Walker.WalkApproaches` | contracts/factory/src/ttl.rs:66-77 | the steps of a call either pass an id or come as much closer to it, even if the registry may still grow |
| `Walker.WalkerIsFair` | contracts/factory/src/ttl.rs:42-83 | while at most N ids ever exist, ceil(N/8) consecutive calls visit every id that existed at the first, creations in between included; within eight of 2^64 a few more steps are needed |
| `Walker.SaturatedCallRepeats` | contracts/factory/src/ttl.rs:66-70 | at the 64-bit limit saturation spends a whole call on one id |
| `StreamMath.AcceptedIsBounded` | contracts/factory/src/lib.rs:163-222 | every accepted request with an end gives a funded bounded stream |
| `StreamMath.PauseIff` | contracts/stream/src/lib.rs:565-596 | a pause succeeds if and only if the stream runs, has started, has not passed its end and its amount computes; the error of each other case; nothing but flag and time of pause changes, and the amount stays what it was at every later time |
| `StreamMath.BoundedPausesIff` | contracts/stream/src/lib.rs:565-596 | a bounded stream can be paused if and only if it runs, from its start to its end inclusive |
| `StreamMath.ResumeIff` | contracts/stream/src/lib.rs:603-671 | a resumption succeeds if and only if the stream is paused, at most 30 days have passed, and the shifted times fit 64 bits; the error of each other case; start, end and a checkpoint in effect move by the length of the pause |
| `StreamMath.OrderlyResumesIff` | contracts/stream/src/lib.rs:603-671 | paused within its time and resumed at a 64-bit time, a stream can only miss the grace window or overflow its end |
| `StreamMath.ChangeRateIff` | contracts/stream/src/lib.rs:689-760 | a rate change succeeds if and only if the rate is positive, the end is ahead, the amount computes and 128 bits cover the rest; the error of each other case; only the rate and the checkpoint change, and where the checkpoint is and what it carries |
| `StreamMath.SetCliffIff` | contracts/stream/src/lib.rs:1862-1887 | a cliff can be set if and only if its unlock is not negative and it lies within the stream's time; nothing else changes |
| `StreamMath.BoundedIsSolvent` | contracts/stream/src/math.rs:43-144 | a bounded stream computes exactly when it was not paused before its start, then owes between nothing and its deposit, and withdrawn plus withdrawable is what has streamed |
| `StreamMath.BoundedNeverShrinks` | contracts/stream/src/math.rs:43-66 | running streams never lose value; a pause freezes the amount of its instant |
| `StreamMath.RateChangeIsFundedIff` | contracts/stream/src/lib.rs:689-760 | after a rate change a running bounded stream stays within its deposit at all times if and only if what has streamed and the rest at the new rate are covered |
| `StreamMath.RateChangeOutgrowsDeposit` | contracts/stream/src/lib.rs:689-760 | a concrete stream funded with 1000 shows 5000 after a rate change |
| `StreamMath.CliffIsFundedIff` | contracts/stream/src/lib.rs:1862-1887 | with a cliff set, a running bounded stream stays within its deposit from then on if and only if the unlock and the rate from the cliff to the end are covered |
| `StreamMath.PausesKeepBounded` | contracts/stream/src/lib.rs:565-671 | pausing and resuming keep a bounded stream bounded by its deposit |
| `StreamMath.CheckpointIsProspective` | contracts/stream/src/math.rs:67-107 | a checkpoint at the amount streamed so far changes nothing later if the rate is kept, overflow included, and otherwise prices only later time at the new rate |
| `StreamMath.RateChangeLosesIff` | contracts/stream/src/lib.rs:708-728 | a rate change loses what has streamed, and then all of it, if and only if a cliff lies ahead and something has streamed |
| `StreamMath.SecondRateChangeLosesEarned` | contracts/stream/src/lib.rs:708-728 | a concrete stream carries 2000 past a cliff set ahead and shows nothing after its second rate change |
| `StreamMath.SetCliffIsHarmlessIff` | contracts/stream/src/lib.rs:1862-1887 | setting a cliff leaves the streamed amount alone if and only if the stream has not started, a checkpoint stands, or the cliff pays exactly what has streamed |
| `StreamMath.CliffWipesEarned` | contracts/stream/src/lib.rs:1862-1887 | a concrete running stream shows 30, and nothing once a cliff is set ahead |
| `StreamMath.StreamedIsEarned` | contracts/stream/src/lib.rs:565-760 | over every run of seconds, pauses, resumptions, rate changes and cliff settings, failing calls included, the streamed amount is what was earned second by second, plus what resumptions paid for pauses, plus what cliffs moved, or the overflow error; as long as no cliff is set the last two are nothing |
| `StreamMath.ResumeIsTransparent` | contracts/stream/src/lib.rs:603-675 | resuming leaves the streamed amount alone if and only if the origin of accrual moves with the pause or nothing can tell |
| `StreamMath.CliffedResumeAccruesThePause` | contracts/stream/src/lib.rs:603-675 | a concrete stream with a cliff gains three seconds of pay by resuming after a pause of three |
| `StreamMath.PausedUsesTheEarlier` | contracts/stream/src/math.rs:34-66 | a paused bounded stream accrues up to the earlier of pause and end, which is the documented later one if and only if they coincide |
| `StreamMath.PausedHalfwayShowsHalf` | contracts/stream/src/math.rs:34-66 | a concrete stream paused halfway shows half its worth |
| `Median.SortedOfSorts` | contracts/oracle/src/lib.rs:2133-2150 | insertion sort yields a sorted permutation |
| `Median.Sink` | contracts/oracle/src/lib.rs:2138-2150 | one pass of the inner loop keeps the values and extends the sorted prefix by one |
| `Median.InsertionSort` | contracts/oracle/src/lib.rs:2133-2150 | the shifting loops compute that arrangement, the only sorted one |
| `Median.SplitAverage` | contracts/oracle/src/lib.rs:1751-1782 | halving first and adding the halves of the remainders is the floor of the mean, and never saturates |
| `Median.MedianU64` | contracts/oracle/src/lib.rs:2133-2162 | the median of 64-bit prices, floor of the mean for even counts |
| `Median.MedianU128` | contracts/oracle/src/lib.rs:1751-1782 | the same median at full 128-bit width without forming an overflowing sum |
| `Median.MedianIgnoresOrder` | contracts/oracle/src/lib.rs:2133-2162 | the median does not depend on the order of arrival |
| `Median.MedianIsMiddle` | contracts/oracle/src/lib.rs:2133-2162 | of the values in order, the median is the middle one; of an even number, twice the median is the sum of the two middle ones or one less |
| `Median.MajorityConfines` | contracts/oracle/src/lib.rs:2133-2162 | a strict majority of values within bounds keeps the median within them |
| `Twap.RecordPriceObservation` | contracts/oracle/src/lib.rs:1962-1998 | older timestamps are refused, the same second is replaced, and only the 32 most recent observations are kept |
| `Twap.RecordedIsHistory` | contracts/oracle/src/lib.rs:1962-1998 | recording keeps timestamps strictly increasing and the history bounded, with the new observation last |
| `Twap.RecordedIsRecent` | contracts/oracle/src/lib.rs:1962-1998 | recording keeps, of the observations of earlier seconds, the most recent up to 31, in order, and then the new one |
| `Twap.IntervalCounts` | contracts/oracle/src/lib.rs:2030-2055 | between an observation and the next, exactly the clipped duration of seconds has its price in force |
| `Twap.SumFits` | contracts/oracle/src/lib.rs:2040-2062 | 64-bit prices over 64-bit time always fit the 128-bit accumulator |
| `Twap.AverageConfined` | contracts/oracle/src/lib.rs:2015-2067 | the average lies between the least and greatest price in force |
| `Twap.QuotientIsAverage` | contracts/oracle/src/lib.rs:2058-2066 | the final 64-bit check never fires: the checked quotient is the average |
| `Twap.AverageIsFloor` | contracts/oracle/src/lib.rs:2058-2066 | n seconds at the average cost no more than the sum of the prices over them, and at one more cost more; without such a second there is no average |
| `Twap.CalculateTwap` | contracts/oracle/src/lib.rs:2015-2067 | the loop computes the floor of the per-second average price over the window: r * n <= sum of prices < (r + 1) * n for its n priced seconds, an error without any; no checked operation can fail |
| `Oracle.ExtremesBound` | contracts/oracle/src/lib.rs:2178-2229 | least and greatest fresh age are attained and bound all others |
| `Oracle.FreshPricesAre` | contracts/oracle/src/lib.rs:818-832 | the collected prices are, each as often as it occurs, those of the accounts whose submission is positive and not older than the limit |
| `Oracle.FreshAgesAre` | contracts/oracle/src/lib.rs:2178-2229 | the collected ages are those of the same accounts |
| `Oracle.LatestIsNewest` | contracts/oracle/src/lib.rs:2104-2124 | the submission the scalar falls back to is one of those left, none is newer, and those before it in the roster are older |
| `Oracle.ViewsAgree` | contracts/oracle/src/lib.rs:787-873 | status view and price read agree on unconfigured, empty, stale, below quorum and priced, in every state |
| `Oracle.ReadConfined` | contracts/oracle/src/lib.rs:787-873 | a price read lies within any bounds that hold of the recorded and fresh prices |
| `Oracle.ReadIsPriced` | contracts/oracle/src/lib.rs:787-873 | over the n seconds of the window with a price in force, r * n <= sum of their prices < (r + 1) * n; without such a second, r is the middle of the fresh prices in order |
| `Oracle.ReadAverages` | contracts/oracle/src/lib.rs:787-873 | a concrete read of 100 for two seconds and 140 for one answers 113, not the 140 last submitted |
| `Oracle.RefusalIs` | contracts/oracle/src/lib.rs:643-727 | which error comes with the first check to fail, the checks as plain inequalities |
| `Oracle.AcceptedIff` | contracts/oracle/src/lib.rs:643-727 | the checks pass if and only if the contract runs, the caller is a feeder, the price is positive, within 50.01 per cent of a positive last one, and under a configuration within its ceiling, its deviation and its submit interval |
| `Oracle.SampleIs` | contracts/oracle/src/lib.rs:1930-1960 | the recorded sample is the submitted price without a configuration or a fresh feeder; otherwise the middle of the fresh prices in order, kept within any bounds by a majority within them |
| `Oracle.DeviationRule` | contracts/oracle/src/lib.rs:664-684 | a price is refused as a jump if and only if it moved by at least 50.01 per cent |
| `Oracle.JumpPasses` | contracts/oracle/src/lib.rs:664-684 | a concrete rise by more than half that is let through |
| `Oracle.RemovalKeepsFeeders` | contracts/oracle/src/lib.rs:2071-2126 | removing a feeder keeps roster, submissions and scalar in step |
| `Oracle.SubmissionKeepsFeeders` | contracts/oracle/src/lib.rs:700-753 | so does an accepted submission |
| `Oracle.TwapOracle.SubmitPrice` | contracts/oracle/src/lib.rs:643-753 | accepted if and only if the plain conditions above hold and the caller is known or the roster has room, otherwise the first failing check names the error and nothing changes; then scalar, submission, roster and history are all updated, the sample being the median of the fresh submissions |
| `Oracle.TwapOracle.AddSubmitter` | contracts/oracle/src/lib.rs:1904-1928 | a known feeder stays, a newcomer is added at the end, and only a full roster refuses it |
| `Oracle.TwapOracle.CurrentSubmissionMedian` | contracts/oracle/src/lib.rs:1930-1960 | the median of the fresh submissions, or the given price without configuration or fresh ones |
| `Oracle.TwapOracle.LatestSubmission` | contracts/oracle/src/lib.rs:2104-2124 | the scan finds the newest submission, the earliest in the roster among equals |
| `Oracle.TwapOracle.RemoveSubmitter` | contracts/oracle/src/lib.rs:2071-2126 | exactly this feeder goes; the scalar becomes a newest remaining submission, or none |
| `Oracle.TwapOracle.RevokeRole` | contracts/oracle/src/lib.rs:450-462 | exact errors; the assignment goes, and exactly if it was a stored feeder assignment the feeder's data goes too |
| `Oracle.TwapOracle.PurgeSubmitter` | contracts/oracle/src/lib.rs:468-473 | an admin drops one feeder's data, nobody else does |
| `Oracle.TwapOracle.StoreOracleConfig` | contracts/oracle/src/lib.rs:1520-1560 | exact refusal; a change of scale or peg empties scalar, submissions, roster and history, nothing else does |
| `Oracle.TwapOracle.ConfigureOracle` | contracts/oracle/src/lib.rs:544-547 | only admins replace the configuration, with the same refusals and purge |
| `Oracle.TwapOracle.UpdateOracleConfig` | contracts/oracle/src/lib.rs:560-610 | only admins; supplied fields replace one by one, the rest is kept, with the same refusals and the same purge |
| `Oracle.TwapOracle.SetMaxStaleness` | contracts/oracle/src/lib.rs:1084-1108 | exact errors; only the staleness limit changes, in its own entry and in a stored configuration |
| `Oracle.TwapOracle.LoadPriceStatus` | contracts/oracle/src/lib.rs:2178-2229 | number of fresh feeders, quorum, staleness flag and the least and greatest fresh age |
| `Oracle.TwapOracle.GetTwapPriceInner` | contracts/oracle/src/lib.rs:787-873 | the error of the first check to fail, among them fewer fresh feeders than the quorum; otherwise the floor of the average over the priced seconds of the window, or without any the median of the fresh prices as an order statistic |
| `Oracle.TwapOracle.GetTwapPrice` | contracts/oracle/src/lib.rs:771-778 | the guarded read answers the same over the last 32 observations, fails besides only under the lock, and always releases it |
| `Rbac.GrantKeeps` | contracts/common/src/rbac.rs:124-168 | after a grant, each role's index still lists exactly the stored assignments once, and the admin count is its length |
| `Rbac.RevokeKeeps` | contracts/common/src/rbac.rs:230-294 | likewise after a revocation |
| `Rbac.RevocationStrandsIff` | contracts/common/src/rbac.rs:230-294 | revoking an active admin succeeds and leaves no active one if and only if the others still stored, at least one, have all expired |
| `Rbac.OnlyActiveAdminIsRevoked` | contracts/common/src/rbac.rs:230-294 | one permanent and one expired admin: the permanent one is revoked and nobody is left |
| `Rbac.StrandTable` | contracts/common/src/rbac.rs:124-294 | two grants and a revocation of the shared operations lead there |
| `Rbac.RevocationLeavesAdmin` | contracts/common/src/rbac.rs:230-294 | where no admin assignment can expire, a revocation always leaves an active admin |
| `Rbac.RoleTable.GrantWithExpiration` | contracts/common/src/rbac.rs:124-168 | stores or renews one assignment, indexes a new one last, counts a new admin, and reports whether the role was lacking; the account then holds the role at exactly the times before the expiry |
| `Rbac.RoleTable.Grant` | contracts/common/src/rbac.rs:187-228 | the same for a permanent assignment, which also lifts an expiry |
| `Rbac.RoleTable.Revoke` | contracts/common/src/rbac.rs:230-294 | removes one stored assignment, active or expired, unless it is an active admin and the only admin stored; reports exactly which |
| `Authority.Governor.Initialize` | contracts/governor/src/lib.rs:100-127 | once only, gives the authority its four permanent roles |
| `Authority.Governor.GrantRoleWithExpiration` | contracts/governor/src/lib.rs:301-320 | only admins grant, never an expiring admin nor a past expiry; the account then holds the role |
| `Authority.Governor.GrantRoleBatch` | contracts/governor/src/lib.rs:358-372 | exactly the listed accounts hold the role for good, everything else is unchanged |
| `Authority.Governor.RevokeRole` | contracts/governor/src/lib.rs:342-353 | fails only for non-admins and for the last admin |
| `Authority.Governor.AlwaysAnAdmin` | contracts/governor/src/lib.rs:301-501 | in every reachable state after initialization some account is an active admin, at any time |
| `Authority.Governor.RevokeRoleBatch` | contracts/governor/src/lib.rs:378-392 | all or nothing; fails if and only if it names every admin |
| `Authority.Governor.TransferAuthority` | contracts/governor/src/lib.rs:405-421 | exact refusals; afterwards the new authority is an admin and the caller is not |
| `Authority.Governor.Handover` | contracts/governor/src/lib.rs:485-491 | granting first and revoking second never meets the last-admin rule |
| `Authority.Governor.ProposeAuthority` | contracts/governor/src/lib.rs:429-451 | exact refusals; at most one handover is pending |
| `Authority.Governor.ProposeAdmin` | contracts/governor/src/role.rs:174-190 | the same step with other checks first, zero address allowed |
| `Authority.Governor.RevokeProposal` | contracts/governor/src/role.rs:229-239 | an admin withdraws the pending handover |
| `Authority.Governor.AcceptAuthority` | contracts/governor/src/lib.rs:471-501 | succeeds exactly for the pending account whatever happened to the roles meanwhile; the claimer is an admin, the proposer is not |
| `Authority.Governor.RoleMembersPage` | contracts/governor/src/role.rs:127-145 | a page of at most 100 of the active members, with their total |
| `Authority.Governor.ListedAreHolders` | contracts/governor/src/role.rs:127-145 | enumeration shows exactly the current holders, each once |
| `Proposals.MoveKeepsIndex` | contracts/governor/src/storage.rs:235-250 | moving a proposal keeps every status list exactly the proposals of that status, each once |
| `Proposals.NewKeepsIndex` | contracts/governor/src/storage.rs:187-203 | so does listing a new one, which was listed nowhere |
| `Proposals.MoveKeepsOrderIff` | contracts/governor/src/storage.rs:224-230 | a list in creation order stays so if and only if the entering proposal is newer than its last |
| `Proposals.ProposalBook.EntryKeepsOrderIff` | contracts/governor/src/storage.rs:224-250 | on the book: entering a status keeps its list in creation order if and only if every proposal already there is older |
| `Proposals.ProposalBook.NewerVotedFirst` | contracts/governor/src/storage.rs:224-250 | in any book, two pending proposals voted on newest first are listed newest first |
| `Proposals.DepositKeepsEscrow` | contracts/governor/src/lib.rs:833-843 | after a stake is paid in, the governor's balance of every token is gifts plus recorded stakes |
| `Proposals.RefundKeepsEscrow` | contracts/governor/src/lib.rs:67-83 | a recorded stake can always be paid back, and doing so keeps that balance |
| `Proposals.RunsEvolve` | contracts/governor/src/lib.rs:827-1039 | over any run of steps terminal proposals stay frozen, authors are fixed, a stake once gone is never held again, and a cancelled proposal's stake is never paid out |
| `Proposals.CancelledStakeIsStuck` | contracts/governor/src/lib.rs:989-1039 | over any run, what is held for a cancelled proposal is exactly what was held |
| `Proposals.ProposalBook.ProposedThenCancelled` | contracts/governor/src/lib.rs:827-1012 | in any book, proposing and then cancelling leaves the stake recorded, the author short of it and the governor holding it |
| `Proposals.ChangeKeepsBook` | contracts/governor/src/lib.rs:931-1039 | changing an open proposal keeps the book if cancellation archives the votes and execution leaves no stake |
| `Proposals.ExecutableIff` | contracts/governor/src/lib.rs:931-976 | an executor succeeds if and only if the proposal is open, within its week-delayed window, and votes for, against and abstained together, with one more, exceed the exact quorum share |
| `Proposals.BlockedIs` | contracts/governor/src/lib.rs:931-976 | which error comes with the first condition to fail, the conditions as plain inequalities |
| `Proposals.QuorumRule` | contracts/governor/src/lib.rs:968-975 | the rounded-down quorum is met exactly when one more vote would exceed the exact share |
| `Proposals.DivisionIsIgnored` | contracts/governor/src/lib.rs:963-976 | how votes divide between the two sides never matters to execution |
| `Proposals.AbstentionsCarryIff` | contracts/governor/src/lib.rs:963-976 | a proposal executes that would miss the quorum without its abstentions if and only if everything else is in order and they make up the shortfall |
| `Proposals.AbstentionsAloneExecute` | contracts/governor/src/lib.rs:963-976 | with no vote on either side and everyone abstaining, a full quorum is met |
| `Proposals.RejectedProposalExecutes` | contracts/governor/src/lib.rs:925-982 | a concrete unanimous rejection that can be executed |
| `Proposals.ProposalBook.SetProposalStakeConfig` | contracts/governor/src/lib.rs:767-778 | exact errors; only token and amount for later proposals change |
| `Proposals.ProposalBook.SetMinQuorumBps` | contracts/governor/src/lib.rs:710-726 | exact errors; the quorum never exceeds the whole supply |
| `Proposals.ProposalBook.AddToStatusIndex` | contracts/governor/src/storage.rs:187-203 | adds at the end, and only if absent |
| `Proposals.ProposalBook.RemoveFromStatusIndex` | contracts/governor/src/storage.rs:206-222 | the rebuilt list is the old one without the proposal, order kept |
| `Proposals.ProposalBook.SetProposalStatus` | contracts/governor/src/storage.rs:235-250 | record and index move together, the proposal leaving one list in order and entering the other at its end; an unknown proposal changes nothing |
| `Proposals.ProposalBook.Propose` | contracts/governor/src/lib.rs:827-898 | exact success and errors; the next id opens as pending with its stake in escrow |
| `Proposals.ProposalBook.RefundProposalStake` | contracts/governor/src/lib.rs:67-83 | a held stake goes to the author and is no longer recorded; otherwise nothing moves |
| `Proposals.ProposalBook.RepaidPays` | contracts/governor/src/lib.rs:67-83 | when a held stake is repaid its author gains exactly the stake, the governor loses it and no other balance changes |
| `Proposals.ProposalBook.ExecuteProposal` | contracts/governor/src/lib.rs:931-982 | exact errors; the stake is repaid to the author and the proposal is executed |
| `Proposals.ProposalBook.CancelProposal` | contracts/governor/src/lib.rs:989-1012 | only the author, only while open; votes for, against and abstained are archived once and the stake is kept |
| `Proposals.ProposalBook.CancelProposalByAdmin` | contracts/governor/src/lib.rs:1015-1039 | the same for an admin |
| `Proposals.ProposalBook.BookIsClosed` | contracts/governor/src/storage.rs:186-250 | every id up to the counter is listed under its status and nowhere else; executed ones hold no stake; balance less gifts is the sum of recorded stakes |
| `Checkpoints.RecordedIncreases` | contracts/governor/src/storage.rs:307-332 | a recording keeps ledgers strictly increasing if and only if the entry before the last is older |
| `Checkpoints.RecordedValue` | contracts/governor/src/storage.rs:307-332 | a recording is seen from its ledger on and disturbs nothing older |
| `Checkpoints.ScanStops` | contracts/governor/src/storage.rs:345-354 | stopping at the first later entry finds the last entry at or before the ledger |
| `Checkpoints.RecordingCompacts` | contracts/governor/src/storage.rs:307-332 | the compacted list keeps standing for all recordings of its account |
| `Checkpoints.PastIsFixed` | contracts/governor/src/storage.rs:334-354 | whatever is recorded later, the weight at any earlier ledger never changes |
| `Checkpoints.WeightBook.RecordCheckpoint` | contracts/governor/src/storage.rs:301-332 | one more recording at the current ledger, and all earlier weights as before |
| `Checkpoints.WeightBook.CheckpointBalance` | contracts/governor/src/lib.rs:787-797 | only admins record |
| `Checkpoints.WeightBook.GetCheckpointWeight` | contracts/governor/src/storage.rs:341-367 | the weight last recorded at or before the ledger, zero without one, nothing only if nothing was ever recorded |
| `Checkpoints.WeightBook.GetPriorVotes` | contracts/governor/src/lib.rs:800-802 | the same with nothing read as zero |
| `Handlers.IngestAllSplits` | indexer/src/handlers.ts:325-332 | folding two stretches is folding their concatenation, failures included |
| `Handlers.IngestAllSettles` | indexer/src/handlers.ts:29-331 | what an event wrote is still there, up to last-writer fields, after anything folded later |
| `Handlers.LastWriterWins` | indexer/src/handlers.ts:108-156 | pause flag and vote rows are those the last pause or resume and the votes of the key alone determine |
| `Handlers.WrittenShowsLatest` | indexer/src/handlers.ts:250-309 | a vote row shows the last choice, the highest ledger, and the last transaction at that ledger |
| `Handlers.WrittenTwice` | indexer/src/handlers.ts:250-309 | writing the same votes again changes nothing, the transaction rule included |
| `Handlers.Refold` | indexer/src/handlers.ts:29-331 | refolding folded events never fails and rewrites last-writer fields only |
| `Handlers.RefoldHarmlessIff` | indexer/src/handlers.ts:29-331 | refolding any part of the history never fails, and changes nothing if and only if its last pause or resume of each stream sets the flag that stands, and its last vote under each key is the choice that stands and, at the row's ledger, the transaction that stands |
| `Handlers.ReplayIsIdempotent` | indexer/src/handlers.ts:1-15 | for all tables and all event sequences, replaying a suffix changes nothing |
| `Handlers.StaleReplayPauses` | indexer/src/handlers.ts:108-156 | refolding an old pause overrides the resume after it |
| `Handlers.StaleReplayVotes` | indexer/src/handlers.ts:250-309 | refolding an older vote puts its choice back under the ledger and transaction of the newer one |
| `Handlers.WithdrawnCountsNewest` | indexer/src/handlers.ts:58-81 | the withdrawn column sums exactly the withdrawals newer than everything before them on the stream |
| `Handlers.CountsAllIff` | indexer/src/handlers.ts:37-56 | it is the total of the withdrawal events if and only if each that pays was newer than everything before it on the stream |
| `Handlers.RowsAreInserted` | indexer/src/handlers.ts:42-48 | the withdrawal rows are one for each key, and their sum is what the first event of each key withdrew |
| `Handlers.CounterIsRowSumIff` | indexer/src/handlers.ts:37-56 | the withdrawn column never exceeds the sum of the stream's withdrawal rows, and equals it if and only if every paying row was inserted by an event newer than everything before it on the stream |
| `Handlers.SameLedgerIsNotCounted` | indexer/src/handlers.ts:42-81 | a withdrawal in the ledger of the pause before it has a row and is not counted |
| `Handlers.RowsAreOpened` | db/schema.sql:46-69 | withdrawals always refer to a stream row, and a stream has one exactly when an event other than a withdrawal named it |
| `Handlers.WithdrawalNeedsItsStream` | indexer/src/handlers.ts:42-81 | a withdrawal can be folded if and only if the events before it can, one of them other than a withdrawal named its stream, its values are in range, and so is the counter if it is to be counted |
| `Handlers.Client.HandleStreamWithdrawn` | indexer/src/handlers.ts:29-81 | both statements together do what the fold says or fail |
| `Handlers.Client.HandleStreamCancelled` | indexer/src/handlers.ts:83-106 | so does cancellation |
| `Handlers.Client.HandleStreamPaused` | indexer/src/handlers.ts:108-131 | so does a pause |
| `Handlers.Client.HandleStreamResumed` | indexer/src/handlers.ts:133-156 | so does a resume |
| `Handlers.Client.HandleStreamToppedUp` | indexer/src/handlers.ts:158-186 | so does a top-up |
| `Handlers.Client.HandleStreamClawback` | indexer/src/handlers.ts:188-212 | so does a clawback |
| `Handlers.Client.HandleXferRec` | indexer/src/handlers.ts:214-242 | so does a change of recipient |
| `Handlers.Client.UpsertVote` | indexer/src/handlers.ts:250-268 | the vote statement overwrites the choice and keeps the newer ledger and transaction |
| `Handlers.Client.HandleLoanVote` | indexer/src/handlers.ts:250-268 | a loan vote does what the fold says or fails |
| `Handlers.Client.HandleTreasuryVote` | indexer/src/handlers.ts:270-288 | so does a treasury vote |
| `Handlers.Client.HandleTreasuryReveal` | indexer/src/handlers.ts:290-309 | so does a treasury reveal |
| `Handlers.Client.Fold` | indexer/src/handlers.ts:312-332 | every event type reaches its handler; other types change no derived table |
| `Rows.NewestIff` | indexer/src/handlers.ts:60-66 | an event is newest exactly if every earlier event on its stream is of an earlier ledger |
| `Rows.FixedByFirst` | indexer/src/handlers.ts:29-242 | sender, token and rate of a stream row are those of the first event on the stream |
| `Rows.DepositIs` | indexer/src/handlers.ts:158-186 | the deposit is what the first event on the stream brought plus the sum of the later top-ups newer than everything before them |
| `Rows.RecipientIs` | indexer/src/handlers.ts:214-242 | the recipient is that of the last transfer newer than everything before it, or else that of the first event |
| `Rows.CancelledIff` | indexer/src/handlers.ts:83-106 | a row is cancelled exactly if some cancellation or clawback named its stream |
| `Rows.VoteRowIs` | indexer/src/handlers.ts:250-309 | there is a vote row exactly if a vote was cast under its table, subject and voter; it shows support and weight, or the hash, of the last one, the highest ledger, and the transaction of the last vote at that ledger |
| `Rows.RawRowIs` | indexer/src/poller.ts:86-112 | the raw table keeps, for each ledger, transaction, type and contract, the data of the first such event and nothing else |
| `Rows.WithdrawalRowIs` | indexer/src/handlers.ts:42-48 | there is one withdrawal row for each ledger, transaction and stream, with recipient and amount of the first such withdrawal |
| `Poller.UpToIsPrefix` | indexer/src/poller.ts:114-123 | in a chain the events up to a ledger are a prefix, cut at any point that separates ledgers |
| `Poller.UpToCounts` | indexer/src/poller.ts:114-123 | the position of an event is below the number of events up to a ledger exactly if the event's ledger is |
| `Poller.MaxLedgerIs` | indexer/src/poller.ts:148-156 | the page maximum is the ledger of an event of the page, and none is higher |
| `Poller.PageReachesCursorIff` | indexer/src/poller.ts:148-156 | what is read after a page is everything up to its highest ledger if and only if the page does not cut a ledger |
| `Poller.CommitKeepsExact` | indexer/src/poller.ts:151-163 | committing an ingested whole page keeps tables and cursor in step and moves the cursor forward |
| `Poller.StepKeepsInv` | indexer/src/poller.ts:130-174 | chain growth, cursor read, fetch, begin, ingest, cursor save, commit, rollback and crash all keep the invariant and never move the cursor back |
| `Poller.RunIsExact` | indexer/src/poller.ts:130-221 | in every state of every run the tables are the fold of exactly the events up to the cursor, and the cursor never decreases |
| `Poller.BadEventBlocks` | indexer/src/poller.ts:160-221 | an event that cannot be folded after those before it keeps the cursor below it in every run |
| `Poller.OrphanWithdrawalBlocks` | indexer/src/poller.ts:160-221 | in particular a withdrawal from a stream nothing before it has named |
| `Poller.CutPageLosesEvents` | indexer/src/poller.ts:148-163 | with pages of any kind a prefix of the log has been ingested, complete up to the new cursor if and only if the page is whole |
| `Poller.SkippedStays` | indexer/src/poller.ts:130-174 | an event passed over by the cursor is not read by any later step, whatever page is fetched |
| `Poller.SkippedForGood` | indexer/src/poller.ts:130-221 | over every run with pages of any kind: the tables are the fold of exactly the events read, these are all with a ledger up to the cursor if and only if every committed page was whole, and what was passed over once is never read |
| `Poller.HalfALedgerIsLost` | indexer/src/poller.ts:148-163 | a page with the first of two events of a ledger: the second is never fetched, and a stream the chain has running stays paused |
| `Poller.SaveCursor` | indexer/src/poller.ts:72-85 | the stored cursor is the greater of the old and the new, or the new one without an old |
| `Poller.IngestPage` | indexer/src/poller.ts:86-112 | the loop folds the whole page in order or fails at an event the fold fails on |
| `Poller.PollOnce` | indexer/src/poller.ts:130-174 | the fetch is asked for what lies behind the cursor; the folded page and the greater of old cursor and highest ledger are stored together, or neither is; the outcome tells which |
| `Poller.PollKeepsExact` | indexer/src/poller.ts:130-174 | a poll fed with a whole page keeps tables and cursor in step |

## Left out

- `require_auth` and signatures: callers are who they say; role checks of proposals and checkpoints arrive as booleans, and a contract cannot authorize a call to itself.
- Time to live and archival of storage entries, apart from which ids the walker touches; the page walk of the index, which derives its page count from the logical count, is not modelled.
- Events and their payloads, WASM upgrade, contract versions, plain setters and getters, fee quotes, the keeper reward pool.
- Token contracts are balances that move exactly as asked; a token that misbehaves is not modelled.
- Deployment addresses and salts are free of collisions.
- Cancelling streams in batches and `record_cancel`, so active streams always equal all streams here.
- A stream's deposit, top-ups, extensions, withdrawals, cancellation, clawback and operator rules; only accrual, pause, resume, rate change and cliff are modelled.
- Oracle.TwapOracle.GetTwapPriceInner: does not consult external feeds, which are calls into other contracts; it is the read with none configured.
- Oracle.TwapOracle.GetTwapPrice: likewise.
- Pair prices, fiat payouts, and role grants and admin transfer of the oracle, which go through the same role table.
- Legacy boolean encodings of roles and pause flags, and the expiry of an emergency pause.
- Overflow traps of the proposal and admin counters.
- Proposals.ProposalBook.BallotStep: stands in for voting, whose implementation `cast_ballot` is not part of the repository; any change of tallies on an open proposal and any early refund are allowed.
- Authority.Governor.GrantRoleBatch: also covers `grant_role`, a batch of one; `claim_admin` is `AcceptAuthority` under another name.
- `updated_at` columns, serial row ids, and the decoding of event payloads.
- Fetch retries, back-off timers, the advisory lock and more than one worker; the poll loop is a run of the step relation.
- Database failures other than value range, foreign key, and a refused commit.
