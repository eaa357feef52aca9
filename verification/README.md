# Stow backend: a verified model

Stow is a savings product on Stellar. Its backend mirrors the Soroban savings-vault
contract into a database and serves, notifies and signs users in from that mirror. This
project models the parts of the backend that have to be right over whole runs, and proves
what they promise.

| module | what it models |
|---|---|
| `EventPaging`, `PagingEnds`, `Listener`, `FetchGaps` | reading contract events page by page, the listener's checkpoint, and what it can miss |
| `Indexer`, `IndexerRuns` | storing events behind a checkpoint and applying them in batches |
| `Reconciliation`, `ReconciliationJobs`, `ReconciliationChain` | backfill windows, rollback after a chain reorganisation, runs of jobs over a chain that stands still or changes |
| `Balances`, `BalanceCache`, `Mirror`, `Goals`, `GoalWrites` | the projections of vault events, their cache, the way from chain to balance, goal notifications |
| `HarvestAttribution` | splitting a harvest's yield over share owners |
| `Filtering`, `FilterPlans`, `FilterQueries` | compiling list filters to parameterised SQL |
| `RefreshTokens`, `RefreshRaces`, `OAuthTransactions` | token families with rotation, one-time OAuth states and codes |
| `AuditLog`, `AuditOrder` | the checksum chain of the admin audit log |
| `EmailQueue`, `Retry`, `WeekKeys`, `Digests` | rate-limited email, bounded retries, once-a-period digests |
| `CsvExport`, `Decimal` | the activity export and the decimal text it is made of |
| `Prelude` | options, results and quotient arithmetic |

Services that update fields are classes whose methods are proved against a function of the
old state; a run is a sequence of such steps, and the run theorems are about every run.
Where a call awaits something in the middle and others can run in between (`BalanceCache`,
`OAuthTransactions`, `EmailQueue`, `AuditOrder`, `RefreshRaces`), the steps are the parts between the awaits. Clocks,
random values, query answers, failures and the replies of other systems are parameters.

## Where the code and its promise part

The member named states the exact condition, or gives a concrete case.

- A page that reaches the tip ends the fetch, so a tip ledger longer than the page is cut (`PagingEnds.TipLedgerCoveredIff`).
- A page of unreadable entries can keep the fetch going for ever (`PagingEnds.UnreadableGrowthNeverEnds`, `PagingEnds.UnreadablePageIsAskedAgain`).
- A fetch that fails or meets the cap before the tip still moves the checkpoint to the tip, and what was not read is skipped, by the listener and by the indexer (`FetchGaps.PollAfterCall`, `FetchGaps.FetchIsStoredIff`).
- A redelivered batch counts its deposits twice unless it also withdraws (`Balances.RedeliveryHarmlessIff`), so does a re-fetch after a rollback (`Mirror.ReindexedBalanceIff`), and overlapping credits overwrite each other (`BalanceCache.CreditsLessOverwritten`).
- Events of a stored batch fetched again from a later start are stored twice, position by position (`Indexer.ShiftedPositionKeyedIff`).
- An event whose status writes fail is applied again; any other failed event is never tried again, so `MAX_RETRIES` and the dead-letter state are out of reach (`IndexerRuns.AttemptedAgainIffLost`).
- A rollback for one contract takes other contracts' rows with it, which stay uncovered until those roll back themselves (`ReconciliationJobs.RemovedLedgerCoveredIff`), and can move the indexer's checkpoint forward (`Mirror.RollbackSkipsLedgersIff`). When the hash of a new checkpoint cannot be looked up, the old ledger's hash stays and the next job rolls back a chain that has not changed (`ReconciliationChain.StaleHashRollsBackIff`). Rows past the first 100 of a window, or all of them if the request fails, are not fetched again (`Reconciliation.WindowKeysStoredIff`), and rows whose key is taken, by another contract or for want of an index, are dropped (`Reconciliation.BackfillAddsExactly`).
- A cache fill that straddles a write, or a get before its invalidation, serves an old balance (`BalanceCache.OverlapCanServeStale`, `BalanceCache.SeparateRunsServeCurrent`).
- A digest whose state write fails is sent again (`Digests.UnrecordedDigestRepeats`).
- Under OR a range with both bounds selects every row with a comparable value (`FilterPlans.CompilationMeaning`); filters applied twice to one query clash (`FilterQueries.PlansClashIff`); a status without conditions prints an empty group (`FilterQueries.PlanWellFormedIff`).
- The audit checksum joins with a bar that can move between fields (`AuditLog.BarCanMove`) and does not see a cut-off end (`AuditLog.DeletionDetectedIff`); rows of one instant, rows written out of (time, id) order and calls that query before the call ahead has finished break the chain (`AuditOrder.EveryAnswerVerifiesIff`, `AuditOrder.SomeAnswerVerifiesIff`, `AuditOrder.OverlappingLogsVerifyIff`). The comment in `admin/audit-log.service.ts` leaves the row id out of the covered fields; the code includes it.
- A claimed goal can be reached, and notified, again (`Goals.ClaimedGoalIsReachedAgainIff`); a failed second write leaves a goal active above its target (`GoalWrites.RunStuckIff`).
- Two rotations of one refresh token that overlap both succeed (`RefreshRaces.RotatesOnceIffNoOverlap`).
- A save that writes a whole row, or one the clean-up removed, makes an OAuth state usable again (`OAuthTransactions.SaveReopensIff`).
- Shares are counted from deposits alone; once the recorded total is smaller than what was minted, owners can be attributed more than the yield (`HarvestAttribution.OwnerExceedsGainIff`).

## Model

| member | source | states |
|---|---|---|
| EventPaging.GetEvents | backend/src/soroban/soroban.service.ts:1129-1262 | For any node whose log only grows and whose pages move the position: the response is what the loop, stated turn by turn, has when it stops, and is exactly the readable entries of one contiguous stretch of the log from the requested start or cursor, in order, none twice; it stays below the event cap plus one page; after an empty page, a short page or the tip it covers every ledger below the reported tip, after the first two the whole log. The call ends if every page adds an event, or if the log stays bounded while it lasts. |
| EventPaging.ReadPage | backend/src/soroban/soroban.service.ts:1153-1259 | One request equals one turn of the specification: either the loop invariant holds again further on in the log, or the stretch read so far meets the final contract; at most one page is added. |
| EventPaging.PositionMovesIff | backend/src/soroban/soroban.service.ts:1228-1246 | A non-empty page moves the request position exactly when the node sends a cursor or the page holds a readable entry. |
| EventPaging.SegmentsJoin | backend/src/soroban/soroban.service.ts:1228-1246 | Reading on from a position neither skips nor repeats an entry. |
| EventPaging.ResumedFetchContinues | backend/src/soroban/soroban.service.ts:1129-1262 | A second call with the returned cursor, on a log that has grown, continues the same stretch: both answers joined are one stretch. |
| PagingEnds.TipLedgerCoveredIff | backend/src/soroban/soroban.service.ts:1129-1262 | On a log that stands still, with cursors, no failure and fewer readable entries than the cap, the call returns exactly the entries up to the end of the page, counted from the start, that holds the first readable entry at the tip; the tip ledger is covered if and only if that page is the last or is followed by a later ledger. |
| PagingEnds.ReadEndIsFetchEnd | backend/src/soroban/soroban.service.ts:1248-1258 | Reading page by page ends at min(start + ceil((q + 1 - start) / size) * size, length), q being that first entry. |
| PagingEnds.StopsAtTipIff | backend/src/soroban/soroban.service.ts:1248-1253 | A page ends the call at the tip exactly when one of its readable entries has reached it. |
| PagingEnds.TipLedgerCanBeCut | backend/src/soroban/soroban.service.ts:1248-1253 | A log of two events in the tip ledger of which the call, with pages of one, returns the first. |
| PagingEnds.UnreadableGrowthNeverEnds | backend/src/soroban/soroban.service.ts:1228-1258 | A node that sends cursors and adds a page of unreadable entries before every request keeps the call going for any number of requests. |
| PagingEnds.UnreadablePageIsAskedAgain | backend/src/soroban/soroban.service.ts:1228-1258 | Without cursors one full page of unreadable entries is asked for again without end. |
| Listener.SorobanListener.PollEvents | backend/src/soroban/soroban.listener.ts:34-74 | A poll does nothing while unconfigured or while another poll runs; otherwise the stored state moves by the specification of one poll, wherever it aborts. |
| Listener.SorobanListener.Run | backend/src/soroban/soroban.listener.ts:44-73 | The guarded body refines the same specification: empty batch, failed fetch, aborted batch, completed batch. |
| Listener.SorobanListener.ApplyBatch | backend/src/soroban/soroban.listener.ts:58-68 | The loop hands over exactly the ordered batch, or its prefix before the failing event, and returns the highest ledger. |
| Listener.SortIsOrderedPermutation | backend/src/soroban/soroban.listener.ts:59 | The sort by ledger gives an ordered permutation of the batch. |
| Listener.SortKeepsOrdered | backend/src/soroban/soroban.listener.ts:59 | A batch already ordered comes out as it was. |
| Listener.CheckpointNeverDecreases | backend/src/soroban/soroban.listener.ts:34-96 | Whatever the fetch returns and wherever a poll aborts, the checkpoint never goes back and no handled event is forgotten. |
| Listener.CheckpointIsComplete | backend/src/soroban/soroban.listener.ts:34-96 | In every run of polls over a growing chain, with any aborts, every event at or below the checkpoint has been handled. |
| Listener.HandledIsTheLogPrefix | backend/src/soroban/soroban.listener.ts:34-96 | In every run without aborts the handled sequence is exactly the log up to the checkpoint: each event once, in order. |
| Listener.FetchIsCompleteIff | backend/src/soroban/soroban.service.ts:1129-1262 | A response is the complete batch the run theorems assume if and only if it returns nothing above the tip it reports and leaves nothing readable at or below it. |
| FetchGaps.PollIsCompleteIff | backend/src/soroban/soroban.listener.ts:44-73 | For every response that is a stretch of the log: after the poll everything at or below the new checkpoint has been handled if and only if every readable entry past the stretch at or below that checkpoint was handled already. |
| FetchGaps.PollAfterCall | backend/src/soroban/soroban.listener.ts:44-73 | The same by the way the call ended: empty and short pages lose nothing, the tip can lose only entries between tip and checkpoint, a failed page or the cap loses what is unread up to the checkpoint, an unanswered call steps over one ledger. |
| FetchGaps.SecondPageFailureLoses | backend/src/soroban/soroban.listener.ts:44-73 | More than one page below the tip and a failing second request: the poll skips the next event for good. |
| FetchGaps.FetchIsStoredIff | backend/src/indexer/indexer.service.ts:98-157 | The indexer stores the same tip: after a completed fetch everything at or below its checkpoint is stored if and only if every readable entry left unread at or below it was stored already. |
| Mirror.MirrorTracksChain | backend/src/soroban/soroban.listener.ts:34-96 | In every run of unaborted complete polls over a chain whose withdrawals report truthfully, a projected balance is the chain's balance at the checkpoint. |
| Mirror.ReindexedBalanceIff | backend/src/indexer/reconciliation.service.ts:367-386 | A rollback deletes rows but not what they did to balances: after the re-fetch the projected balance is the chain's if and only if the part applied anew withdraws from the account or the part rolled back had left its balance as it was; without a withdrawal, if its deposits come to nothing. |
| Mirror.RollbackSkipsLedgersIff | backend/src/indexer/reconciliation.service.ts:379-386 | The rollback moves the indexer's checkpoint forward, past ledgers it has not fetched, exactly when the fork is ahead of it. |
| Indexer.IndexerService.FetchAndPersistEvents | backend/src/indexer/indexer.service.ts:98-157 | Rows, checkpoint and latest ledger move by the specification of one fetch, also when the database fails at some row or at the checkpoint; the count returned is the number of rows added. |
| Indexer.IndexerService.PersistEvents | backend/src/indexer/indexer.service.ts:111-145 | The loop stores exactly what the recursive specification stores, up to the failing position, and computes the highest ledger. |
| Indexer.IndexerService.ProcessPendingBatch | backend/src/indexer/indexer.service.ts:159-185 | For any lawful answer of the query and any outcome of effects and status writes: rows are attempted in order up to the first that loses its status write, each moves as its attempt was recorded, no other row changes. |
| Indexer.BatchLeavesPending | backend/src/indexer/indexer.service.ts:159-185 | Exactly the rows whose attempt was recorded leave the pending state; if none is lost, min(100, pending) of lowest ledger. |
| Indexer.DrainCount | backend/src/indexer/indexer.service.ts:159-185 | With nothing new arriving, each recorded attempt takes exactly one row out of the queue. |
| Indexer.DrainsInCeilBatches | backend/src/indexer/indexer.service.ts:159-185 | If no status write is lost, the queue is empty after k batches if and only if k >= ceil(pending / 100). |
| Indexer.PersistKeepsKeys | backend/src/indexer/indexer.service.ts:114-145 | Whatever is fetched, no two rows share (ledger, log index), no row is lost, and every fetched position is stored afterwards. |
| Indexer.RefetchIsIdempotent | backend/src/indexer/indexer.service.ts:114-145 | Fetching the same batch again stores nothing twice. |
| Indexer.PersistResumes | backend/src/indexer/indexer.service.ts:114-145 | After a fetch that stopped half-way, the repeated fetch skips the stored positions and stores the others, each once. |
| Indexer.PersistAdds | backend/src/indexer/indexer.service.ts:114-145 | What any fetch adds to any table: for each position whose (ledger, index) is not keyed, one row, in order. |
| Indexer.ShiftedPositionKeyedIff | backend/src/indexer/indexer.service.ts:114-140 | The log index is the batch position: of a stored batch fetched again from its k-th event, position j is keyed exactly when events j and k + j share a ledger. |
| Indexer.ShiftedRefetchAdds | backend/src/indexer/indexer.service.ts:114-145 | What such a later fetch stores a second time. |
| IndexerRuns.TableIsLogPrefix | backend/src/indexer/indexer.service.ts:80-157 | Through every run of interrupted, resumed and completed polls over a growing chain, the stored events are a prefix of the log that reaches at least to the checkpoint: each event once, in order. |
| IndexerRuns.TableIsLogPrefixFromEmpty | backend/src/indexer/indexer.service.ts:80-157 | The same from an empty table. |
| IndexerRuns.AttemptedAgainIffLost | backend/src/indexer/indexer.service.ts:80-185 | In every run, with any status writes failing: a row is pending exactly when it was never attempted or its newest attempt lost its status write, every earlier attempt of a row was lost, and otherwise the row stands as its newest attempt was recorded. Keys stay unique, and the dead-letter state is never reached. |
| IndexerRuns.AppliedOnceUnlessLost | backend/src/indexer/indexer.service.ts:159-185 | In every run a row's effects are applied at most once more than their status write is lost. |
| IndexerRuns.LostWriteAppliesTwice | backend/src/indexer/indexer.service.ts:170-185 | A run in which both status writes fail after the effects were applied: they are applied again. |
| IndexerRuns.AppliedRowFailsIff | backend/src/indexer/indexer.service.ts:170-185 | A row whose effects were applied is stored as failed exactly when the first status write failed and the second did not. |
| Filtering.NormalizedAreListed | backend/src/common/filtering.service.ts:297-309 | Every value kept from a list parameter is trimmed, non-empty and free of commas. |
| Filtering.SplitJoins | backend/src/common/filtering.service.ts:297-309 | The parts a list parameter is split into, joined by commas, are the parameter again, and no part holds a comma. |
| Filtering.TrimCutsBlanks | backend/src/common/filtering.service.ts:297-309 | Trimming removes only blanks, from both ends, and leaves none there. |
| Filtering.NormalizeKeepsInOrder | backend/src/common/filtering.service.ts:297-309 | The values kept are exactly the trimmed non-empty parts, in order. |
| Filtering.LowerForgetsCase | backend/src/common/filtering.service.ts:154-169 | Two texts are lower-cased to the same exactly when they have the same letters up to case. |
| Filtering.SortMeaning | backend/src/common/filtering.service.ts:255-279 | A valid sort orders by the column of the asked field, ascending exactly when asc is asked for in any case of letters, descending exactly when desc is or nothing. |
| Filtering.RangeRejectedIff | backend/src/common/filtering.service.ts:94-135 | A readable two-sided range over a field of its kind is rejected exactly when its lower bound is above its upper one. |
| Filtering.ParametersAreDistinct | backend/src/common/filtering.service.ts:79-253 | No two clauses of a plan bind the same parameter name. |
| Filtering.ClauseMeaning | backend/src/common/filtering.service.ts:89-253 | One compiled clause, under three-valued SQL logic and any parameters that carry its own, is TRUE exactly on the rows meeting its requirement. |
| Filtering.JoinedMeaning | backend/src/common/filtering.service.ts:79-221 | The clauses joined by AND or OR under merged parameters are TRUE exactly on the rows meeting all, or some, of the requirements. |
| FilterPlans.BuildFilterPlan | backend/src/common/filtering.service.ts:79-187 | Succeeds exactly on valid requests and then returns the plan of the specification; every other request is rejected. |
| FilterPlans.AddRangeClauses | backend/src/common/filtering.service.ts:89-152 | The date and number loops succeed exactly when every entry is valid and add one clause per given bound, numbered on. |
| FilterPlans.AddAddressClauses | backend/src/common/filtering.service.ts:154-169 | The address loop succeeds exactly when every entry names an address field and lists at least one address, and adds one clause each. |
| FilterPlans.AddFlagClauses | backend/src/common/filtering.service.ts:171-180 | The flag loop succeeds exactly when every entry is a known boolean field with a boolean value. |
| FilterPlans.BuildStatusClause | backend/src/common/filtering.service.ts:223-253 | Succeeds exactly when every status is configured, and compiles their disjunction of conjunctions. |
| FilterPlans.AddStatusClause | backend/src/common/filtering.service.ts:117-124 | The status clause, when asked for, advances the parameter numbering by exactly the parameters it binds. |
| FilterPlans.RequirementsMeaning | backend/src/common/filtering.service.ts:79-187 | The requirements drawn from a request hold of a row, all of them, exactly when the row meets all parts of the request; some of them exactly when it meets some part or a range with both bounds has a comparable value in it. |
| FilterPlans.CompilationMeaning | backend/src/common/filtering.service.ts:79-253 | For every valid request and every row, nulls included: the compiled plan selects the row if and only if it matches the request (some part if it asks for OR, every part if it asks for AND or for nothing) or, under OR, some range with both bounds has a comparable value in the row. |
| FilterPlans.NoCombinationMeansAll | backend/src/common/filtering.service.ts:84 | A request that names no combination selects a row exactly when the row meets every part of it. |
| FilterPlans.CompilationPreservesMeaning | backend/src/common/filtering.service.ts:79-253 | Under AND, or when no range carries both bounds, the plan selects exactly the matching rows. |
| FilterPlans.LoneRangeUnderOr | backend/src/common/filtering.service.ts:137-151 | One two-sided range under OR selects every row with a comparable value, in the range or not. |
| FilterPlans.RangeUnderOrSelectsOutside | backend/src/common/filtering.service.ts:137-151 | The range 1 to 2 under OR selects a row that holds 3. |
| FilterQueries.QueryBuilder.ApplyFilters | backend/src/common/filtering.service.ts:189-221 | A rejected request leaves the query builder untouched; a valid one adds one bracketed group and its parameters. |
| FilterQueries.FilteredQueryMeaning | backend/src/common/filtering.service.ts:189-221 | If the query bound none of the plan's names: after filtering a row passes exactly when it passed before and the plan admits it, which under AND or without two-sided ranges means that it matches the request. |
| FilterQueries.PlansClashIff | backend/src/common/filtering.service.ts:79-221 | Two plans bind disjoint names exactly when one of them binds nothing: filtering one query twice clashes otherwise. |
| FilterQueries.PlanWellFormedIff | backend/src/common/filtering.service.ts:223-253 | A plan prints as well-formed SQL exactly when every requested status has at least one condition. |
| Balances.DepositsAdd | backend/src/savings/balance.service.ts:57-80 | With no withdrawal, a log of events moves the balance by exactly the deposit sum. |
| Balances.LastWithdrawDecides | backend/src/savings-projection/savings-projection.service.ts:71-87 | With one, the balance is the last withdrawal's reported balance plus the deposits after it. |
| Balances.WithdrawForgetsStart | backend/src/savings-projection/savings-projection.service.ts:77-87 | After a log that withdraws, what was stored before does not matter. |
| Balances.ReplayWithWithdraw | backend/src/savings-projection/savings-projection.service.ts:77-87 | Replaying such a log any number of times settles after one pass. |
| Balances.ReplayWithoutWithdraw | backend/src/savings-projection/savings-projection.service.ts:71-75 | Replaying a log that never withdraws adds the deposit sum once per pass. |
| Balances.RedeliveryHarmlessIff | backend/src/savings-projection/savings-projection.service.ts:71-87 | A batch redelivered after an abort leaves an account as one clean delivery would exactly when it withdraws from it or the part applied twice deposits nothing net. |
| Balances.ProjectionTracksChain | backend/src/savings-projection/savings-projection.service.ts:71-87 | On every prefix of a truthful log the projection equals the chain's own balance. |
| BalanceCache.BalanceService.Credit | backend/src/savings/balance.service.ts:57-80 | The stored balance grows by the amount and the account's cache entry goes; nothing else changes. |
| BalanceCache.BalanceService.SetBalance | backend/src/savings/balance.service.ts:82-93 | The stored balance becomes the amount and the account's cache entry goes; nothing else changes. |
| BalanceCache.BalanceService.Get | backend/src/savings/balance.service.ts:95-106 | Hit or miss, with calls that do not overlap, the answer is the stored balance; a miss caches it for the lifetime. |
| BalanceCache.EveryServedAmountWasStored | backend/src/savings/balance.service.ts:57-106 | Over every interleaving of calls, each amount returned was the stored balance when its entry was read and is served within the lifetime. |
| BalanceCache.WholeSetOutcome | backend/src/savings/balance.service.ts:82-93 | A write that is not interrupted leaves the new balance stored and the entry gone. |
| BalanceCache.OverlapCanServeStale | backend/src/savings/balance.service.ts:82-106 | A read taken before a write and cached after its invalidation is served although the balance has moved on. |
| BalanceCache.GetBeforeInvalidationServesStale | backend/src/savings/balance.service.ts:82-106 | So is an entry asked for between a write and its invalidation. |
| BalanceCache.SeparateRunsServeCurrent | backend/src/savings/balance.service.ts:57-106 | In every run in which no save to an account falls between a get's read and its fill, nor a get between a save and its invalidation, each amount served is the balance stored at that moment. |
| BalanceCache.CreditAddsIff | backend/src/savings/balance.service.ts:57-80 | The save of a credit adds the credited amount exactly when the balance is still the one it read. |
| BalanceCache.ApartCreditsAddUp | backend/src/savings/balance.service.ts:57-80 | In every run in which no save falls between a credit's read and its save, the balance grows by exactly what was credited. |
| BalanceCache.CreditsLessOverwritten | backend/src/savings/balance.service.ts:57-80 | However credits overlap, the balance grows by what was credited less what each save overwrote. |
| BalanceCache.OverlappingCreditsLoseOne | backend/src/savings/balance.service.ts:57-80 | Two credits that both read before either saves: one is lost. |
| WeekKeys.DayNumberFollowsCalendar | backend/src/notifications/digest.service.ts:256-268 | Day numbers order dates as the Gregorian calendar does and tell all dates apart. |
| WeekKeys.SameWeekIff | backend/src/notifications/digest.service.ts:256-268 | Dates share a Monday-to-Sunday week exactly when their weeks have the same Thursday. |
| WeekKeys.WeekDateFacts | backend/src/notifications/digest.service.ts:256-268 | The week number is between 1 and 53 and locates the week's Thursday in the key's year. |
| WeekKeys.WeekDatesIncrease | backend/src/notifications/digest.service.ts:256-268 | Later weeks get strictly later (year, week) pairs, across year ends. |
| WeekKeys.WeeklyKeyInjective | backend/src/notifications/digest.service.ts:256-268 | The key text determines year and week number. |
| WeekKeys.SameWeeklyKeyIff | backend/src/notifications/digest.service.ts:256-268 | Two dates get the same weekly key exactly when they fall in the same Monday-to-Sunday week. |
| WeekKeys.SameDailyKeyIff | backend/src/notifications/digest.service.ts:251-254 | Two dates get the same daily key exactly when they are the same date. |
| WeekKeys.DailyKeyReadsBack | backend/src/notifications/digest.service.ts:251-254 | A daily key, read as year, month and day between dashes, is the date it was made from. |
| WeekKeys.WeeklyKeyReadsBack | backend/src/notifications/digest.service.ts:256-268 | A weekly key, read as a year and a week after the W, is the year and week of the date. |
| Digests.DigestService.ProcessUserDigest | backend/src/notifications/digest.service.ts:131-194 | Queue, state row and key move by the specification of one attempt: no email, no unread items, already sent, sent, or sent with a failing state write. |
| Digests.OneDigestPerPeriod | backend/src/notifications/digest.service.ts:104-194 | In every run whose state writes succeed no user is queued two digests of one frequency for the same period. |
| Digests.DueDigestIsQueued | backend/src/notifications/digest.service.ts:131-194 | In every such run an attempt queues a digest if and only if the user has an email, something unread and no digest queued for that frequency and period before; it is to that user, under the period's key, with at most 20 items. |
| Digests.UnrecordedDigestRepeats | backend/src/notifications/digest.service.ts:131-194 | A digest whose state write fails is queued again by the next attempt of the period, one whose write succeeds is not. |
| Reconciliation.KeepUpToIsExact | backend/src/indexer/reconciliation.service.ts:346-401 | A rollback keeps exactly the rows at or below the fork, each as often as before. |
| Reconciliation.KeptPlusRemoved | backend/src/indexer/reconciliation.service.ts:346-401 | Rows kept plus rows counted as rolled back are all rows. |
| Reconciliation.ReconciliationService.GetOrCreateCheckpoint | backend/src/indexer/reconciliation.service.ts:415-437 | Returns the stored checkpoint or stores the initial one; nothing else changes. |
| Reconciliation.ReconciliationService.DetectAndHandleReorg | backend/src/indexer/reconciliation.service.ts:346-401 | A reorganisation is recorded exactly when a stored hash differs from the reported one; rows, both checkpoints and the record then move by the rollback specification, and the recorded count is the number of rows removed. |
| Reconciliation.ReconciliationService.BackfillGap | backend/src/indexer/reconciliation.service.ts:149-234 | The table becomes what the recursive specification stores of the answer, up to the failing row; the count is the number of rows added. |
| Reconciliation.BackfillStores | backend/src/indexer/reconciliation.service.ts:149-234 | Every answered row of the window gone through has its key stored afterwards; nothing stored is lost, nothing else is added. |
| Reconciliation.BackfillKeepsKeys | backend/src/indexer/reconciliation.service.ts:196-226 | No two stored rows come to share a key. |
| Reconciliation.BackfillAddsExactly | backend/src/indexer/reconciliation.service.ts:191-226 | For any table and answer: exactly the rows gone through are added that lie in the window and whose key was free before and is not that of an earlier answered row. |
| Reconciliation.KeyStoredIff | backend/src/indexer/reconciliation.service.ts:191-226 | A key is stored afterwards exactly when it was before or a row gone through, of the window, has it. |
| Reconciliation.WindowKeysStoredIff | backend/src/indexer/reconciliation.service.ts:149-234 | The keys of all rows of a window are stored afterwards if and only if those of the rows not gone through were stored before or belong to rows gone through: past the first 100, from a failing row on, or all if the request failed. |
| Reconciliation.ReconciliationService.Advance | backend/src/indexer/reconciliation.service.ts:98-147 | The whole new state: rows, window, head, hash and backfill count of this contract; nothing else changes. |
| Reconciliation.ReconciliationService.RunReconciliation | backend/src/indexer/reconciliation.service.ts:86-147 | One job moves the whole state by the specification; its window starts after the checkpoint, or after the fork if the chain diverged. |
| Reconciliation.RunLeavesOthers | backend/src/indexer/reconciliation.service.ts:86-147 | One job leaves other contracts' checkpoints, records a reorganisation exactly on divergence, moves the indexer's checkpoint only then, and keeps every row, or every row up to the fork. |
| Reconciliation.WindowsTile | backend/src/indexer/reconciliation.service.ts:86-147 | Between reorganisations every ledger past the checkpoint up to its final value is covered by exactly one window, and no other ledger by any. |
| Reconciliation.HeadReachedIff | backend/src/indexer/reconciliation.service.ts:86-147 | A fixed head is reached after k jobs if and only if k >= ceil(lag / window). |
| ReconciliationJobs.CoveredIff | backend/src/indexer/reconciliation.service.ts:86-147 | A ledger is covered by a run of jobs, each with its own reorg test, if and only if some job starts below it and that job or a later one leaves the checkpoint at or past it. |
| ReconciliationJobs.RemovedLedgerCoveredIff | backend/src/indexer/reconciliation.service.ts:346-401 | A rollback removes every row above its fork and leaves other checkpoints; a removed ledger is covered again by another contract's jobs exactly under that condition, and not at all while that contract, whose checkpoint is past it, does not roll back itself. |
| ReconciliationJobs.OwnRollbackCoversIff | backend/src/indexer/reconciliation.service.ts:86-147 | A job that finds a reorganisation covers a ledger exactly when its fork lies below it and its window reaches it. |
| ReconciliationJobs.OwnRollbackRestores | backend/src/indexer/reconciliation.service.ts:86-147 | What a job gets from the node for its window it stores, also after such a rollback. |
| ReconciliationJobs.RollbackLosesRow | backend/src/indexer/reconciliation.service.ts:346-401 | A state in which a rollback removes a row of another contract that no job of that contract covers until it rolls back itself; the indexer's checkpoint is rewound to the fork. |
| ReconciliationChain.StillChainNeverRollsBack | backend/src/indexer/reconciliation.service.ts:86-147 | While the chain stands still and every job that moves the checkpoint can look up its new hash, no run of jobs removes a row or records a reorganisation. |
| ReconciliationChain.StaleHashRollsBackIff | backend/src/indexer/reconciliation.service.ts:98-147 | A job that moves the checkpoint without getting the new hash keeps the old one: on a chain that stands still the next job told a hash rolls back if and only if the two ledgers have different hashes. |
| ReconciliationChain.ChangedHashRollsBack | backend/src/indexer/reconciliation.service.ts:346-401 | A job told another hash than the stored one keeps exactly the rows up to max(last - depth, 0), each as often as before, and records both hashes, the ledgers and the number removed; told the same hash it does neither. |
| ReconciliationChain.JobKeepsWhatTheTestKept | backend/src/indexer/reconciliation.service.ts:86-147 | After the reorg test the job only adds rows and records no reorganisation. |
| CsvExport.NeutralizeIsStable | backend/src/activity/activity.service.ts:198-207 | Neutralising twice changes nothing more, and what it returns starts a formula only if it is a number. |
| CsvExport.FieldRoundTrip | backend/src/activity/activity.service.ts:198-207 | Any field, quoted as the export quotes it, is read back by a parser for section 2 of RFC 4180. |
| CsvExport.RowRoundTrip | backend/src/activity/activity.service.ts:145-149 | Any non-empty row parses back to its neutralised fields. |
| CsvExport.CsvRoundTrip | backend/src/activity/activity.service.ts:132-149 | Any table parses back to its neutralised fields, whatever commas, quotes and line ends they hold. |
| CsvExport.FormatParses | backend/src/activity/activity.service.ts:183-192 | Every integer is printed with seven decimals that read back as the same integer. |
| CsvExport.FormatIsNotEscaped | backend/src/activity/activity.service.ts:183-207 | Printed amounts, negative ones included, pass through escaping unchanged. |
| CsvExport.StroopsRoundTrip | backend/src/activity/activity.service.ts:183-207 | An integer in text form survives formatting, escaping and reading back. |
| CsvExport.ExportRoundTrip | backend/src/activity/activity.service.ts:132-149 | Every activity list exports to text that parses to the header and one neutralised row per item, in order. |
| CsvExport.CellsUnderTheirNames | backend/src/activity/activity.service.ts:132-149 | In the parsed export the cell under each of the nine column names is that field of the item; ledger and integer amounts read back as numbers, missing fields are empty. |
| CsvExport.FieldIsKeptOrMarked | backend/src/activity/activity.service.ts:198-207 | A field is exported as it is unless it starts like a formula and is no number; then exactly one quote mark precedes it. |
| CsvExport.ExportedAmountReadsBack | backend/src/activity/activity.service.ts:132-149 | In the exported table an integer amount can be read back from both amount columns. |
| RefreshTokens.AuthService.CreateSession | backend/src/auth/auth.service.ts:168-183 | Adds one unrevoked token that starts a family, and returns it. |
| RefreshTokens.IssueKeepsInv | backend/src/auth/auth.service.ts:195-217 | Issuing a token that starts a family, or continues one whose tokens are all revoked from its newest token, keeps every family a chain with one owner and at most one live token. |
| RefreshTokens.AuthService.RotateRefreshToken | backend/src/auth/auth.service.ts:224-291 | Outcome and tables move by the specification: unknown, expired, reused, user gone, rotated. |
| RefreshTokens.RunKeepsInv | backend/src/auth/auth.service.ts:168-291 | In every run each family is one chain through its predecessor ids, has one owner, and only its newest token can be unrevoked. |
| RefreshTokens.AcceptedIff | backend/src/auth/auth.service.ts:224-272 | A presented token is accepted exactly when it is the unrevoked newest token of its family, unexpired, and its user exists. |
| RefreshTokens.LoginTokenWorks | backend/src/auth/auth.service.ts:168-291 | The token a login hands out belongs to the user who logged in and is accepted exactly until its expiry, while the user exists. |
| RefreshTokens.RotatedTokenWorks | backend/src/auth/auth.service.ts:224-291 | A successful rotation returns a token of the same user and family, following the presented one, that is accepted exactly until the expiry it was issued with, while the user exists; the presented one is not accepted again and no other row changes. |
| RefreshTokens.RotatesAtMostOnce | backend/src/auth/auth.service.ts:224-291 | In every run a raw token rotates successfully at most once. |
| RefreshTokens.ReuseKillsFamily | backend/src/auth/auth.service.ts:241-264 | Presenting an unexpired revoked token revokes its whole family, records one audit event naming the reused token, its user and its family, and leaves every other family's rows as they were. |
| RefreshTokens.ReusedFamilyNeverReturns | backend/src/auth/auth.service.ts:224-291 | However the run goes on, no row of such a family changes and none is added. |
| RefreshTokens.DeadStaysDead | backend/src/auth/auth.service.ts:224-291 | One step of the same: and no token of the family is accepted. |
| RefreshRaces.RotatesOnceIffNoOverlap | backend/src/auth/auth.service.ts:224-291 | Split at the awaits: in every run of rotations that are carried through, a token is exchanged at most once if and only if no rotation passes its checks on it between another's checks and its write. |
| RefreshRaces.NoOverlapRotatesOnce | backend/src/auth/auth.service.ts:224-291 | Carried through or not, without such an overlap it is exchanged at most once. |
| RefreshRaces.BothPass | backend/src/auth/auth.service.ts:224-272 | Two rotations that read a live token before either writes both pass. |
| OAuthTransactions.OAuthService.ExchangeCode | backend/src/auth/oauth.service.ts:179-229 | The code is spent exactly if it is well-formed and its row is unexpired at both clock readings, has a user and matches the verifier; the call then succeeds exactly if the user still exists. |
| OAuthTransactions.OAuthService.ConsumeState | backend/src/auth/oauth.service.ts:287-315 | Succeeds exactly for an unconsumed row of that provider unexpired at both clock readings; then the state is spent. |
| OAuthTransactions.CleanupIsInvisible | backend/src/auth/oauth.service.ts:231-234 | No later conditional update can tell whether the clean-up ran: it removes only rows that no exchange or callback could mark any more. |
| OAuthTransactions.RunKeepsInv | backend/src/auth/oauth.service.ts:100-315 | Over every interleaving, stored rows, waiting requests and past wins agree with what was issued. |
| OAuthTransactions.CodeHasOneWinner | backend/src/auth/oauth.service.ts:179-234 | However requests, callbacks and clean-up interleave, at most one request gets a given exchange code accepted. |
| OAuthTransactions.CodeWinnerIsEntitled | backend/src/auth/oauth.service.ts:179-229 | That request presented the verifier the login began with, before the code expired, and is signed in as the user the code was issued for. |
| OAuthTransactions.RightfulExchangeWins | backend/src/auth/oauth.service.ts:179-229 | In any state of a run, an issued, unspent, unexpired code is won by the next exchange that presents it with the verifier its login began with, and signs in the user it was issued for. |
| OAuthTransactions.RightfulCallbackWins | backend/src/auth/oauth.service.ts:287-315 | In any state of a run, an unconsumed state presented in time to its provider is consumed. |
| OAuthTransactions.FreshLoginSignsIn | backend/src/auth/oauth.service.ts:100-229 | From any state of a run: a login that begins, whose callback presents its state in time and attaches a new code, and whose client presents that code in time with its verifier, ends with the exchange won for the user the callback found. |
| OAuthTransactions.StateHasOneWinner | backend/src/auth/oauth.service.ts:287-315 | At most one request consumes a given state, and it named the provider of the login. |
| OAuthTransactions.SaveReopensIff | backend/src/auth/oauth.service.ts:121-126 | The callback's save leaves the state spent exactly when the mapper writes only the assigned columns of a row that is still there. |
| OAuthTransactions.ReopenedStateIsWonAgain | backend/src/auth/oauth.service.ts:121-126 | After any save that does not, because the whole row was written or the clean-up had removed it, another request consumes the same state again. |
| AuditLog.VerifyIntegrity | backend/src/admin/audit-log.service.ts:90-104 | Reports ok exactly when every link holds, otherwise the first broken link, its position and its id. |
| AuditLog.AuditLogService.Log | backend/src/admin/audit-log.service.ts:44-60 | Without overlap: appends exactly the entry sealed over its predecessor in (time, id) order. |
| AuditOrder.OverlappingLogsVerifyIff | backend/src/admin/audit-log.service.ts:44-60 | However the two saves and the query of overlapping calls interleave, the sealed table verifies if and only if the query for each row came after the second save of the row before it. |
| AuditOrder.BothReadBeforeSaving | backend/src/admin/audit-log.service.ts:53-57 | Two calls that both query before either saves again: the chain is broken although their saves are in order. |
| AuditLog.HonestLogVerifies | backend/src/admin/audit-log.service.ts:44-128 | Every log written at strictly increasing times passes verification, whatever order the query may return. |
| AuditLog.WrittenInOrderIsLinked | backend/src/admin/audit-log.service.ts:44-122 | Every log written in (time, id) order is an unbroken chain. |
| AuditLog.EditDetectedIff | backend/src/admin/audit-log.service.ts:90-128 | Rewriting a row under its old checksum so that the times still increase is reported at that very row exactly when the text that actor, action and date join to changes; details are not covered. |
| AuditOrder.DateEditDetected | backend/src/admin/audit-log.service.ts:90-128 | A changed date breaks the chain wherever the row ends up in the query's order. |
| AuditLog.TextPinsFields | backend/src/admin/audit-log.service.ts:124-128 | Equal texts have equal dates; with no bar in the actor they are equal exactly when actor, action and date are. |
| AuditLog.BarCanMove | backend/src/admin/audit-log.service.ts:124-128 | With a bar in the actor it need not: the bar can move between actor and action. |
| AuditLog.DeletionDetectedIff | backend/src/admin/audit-log.service.ts:90-128 | In the query's answer, deleting any row but the last is reported at the row that followed it; deleting the last is not reported. |
| AuditOrder.EveryAnswerVerifiesIff | backend/src/admin/audit-log.service.ts:90-122 | For a log written at non-decreasing times every order the query may return verifies if and only if the times strictly increase. |
| AuditOrder.SomeAnswerVerifiesIff | backend/src/admin/audit-log.service.ts:90-122 | Some order the query may return verifies if and only if the log was written in (time, id) order. |
| AuditOrder.OnlyWritingOrderVerifies | backend/src/admin/audit-log.service.ts:90-122 | An order of the log's rows that verifies is the order they were written in. |
| Goals.GoalProjection.UpsertCreated | backend/src/goals/goals.service.ts:36-57 | A known goal is returned unchanged, a new one starts active and empty. |
| Goals.GoalProjection.ApplyContribution | backend/src/goals/goals.service.ts:59-65 | Adds the amount to a known goal; a missing goal is an error and nothing changes. |
| Goals.GoalProjection.MarkReached | backend/src/goals/goals.service.ts:67-79 | Changes a goal exactly when it was not reached. |
| Goals.GoalProjection.Apply | backend/src/savings-projection/savings-projection.service.ts:35-59 | The three goal topics move the read-model and the notifications by the specification. |
| Goals.GoalProjection.NotifyReached | backend/src/savings-projection/savings-projection.service.ts:159-168 | Notifies exactly when the goal was not reached before. |
| Goals.GoalProjection.ClaimGoal | backend/src/goals/goals.service.ts:97-113 | Succeeds exactly on a reached goal. |
| Goals.RunBalance | backend/src/savings-projection/savings-projection.service.ts:35-59 | From any state and over every run: notifications sent equal successful claims plus the change in waiting to be claimed, and what a goal holds grows by exactly the accepted contributions. |
| Goals.RunKeepsGoals | backend/src/goals/goals.service.ts:36-113 | In every run owner, name and target never change, a reached goal is never active again, and an active goal with a positive target is short of it. |
| Goals.GoalIsAsFirstCreated | backend/src/goals/goals.service.ts:36-65 | In every run from an empty model a goal exists exactly after its first goal_created event, carries owner, name and target of that event, and holds the sum of the contributions since. |
| Goals.NotifiedIffReason | backend/src/savings-projection/savings-projection.service.ts:35-59 | In every run from an empty model a goal's owner has been notified if and only if some goal_reached event came for the existing goal, or some contribution after which the sum since its creation was at least the target it was first created with. |
| Goals.NotifiedOnceUntilClaimed | backend/src/savings-projection/savings-projection.service.ts:159-168 | From an empty model, until a claim succeeds a goal is notified at most once, and exactly when it is reached. |
| Goals.ClaimedGoalIsReachedAgainIff | backend/src/goals/goals.service.ts:67-79 | Over every step: a claimed goal becomes reached and notifies again exactly on a goal_reached event for it, whatever it holds, or on a contribution with which it meets its target. |
| Goals.GoalCanBeNotifiedTwice | backend/src/goals/goals.service.ts:67-79 | A run that notifies one goal twice. |
| GoalWrites.NothingFails | backend/src/savings-projection/savings-projection.service.ts:35-59 | When no write fails, the projection with failures is the one without. |
| GoalWrites.StuckIff | backend/src/savings-projection/savings-projection.service.ts:45-54 | After any event with any failing writes a goal is active at or above its target exactly if the event met the target and lost the write that marks it reached, or it was so before and the event does not make up for it. |
| GoalWrites.RunStuckIff | backend/src/savings-projection/savings-projection.service.ts:45-59 | The same over every run. |
| GoalWrites.RunBalanceWithFailures | backend/src/savings-projection/savings-projection.service.ts:159-168 | In every run notifications sent and lost together are the claims plus the change in waiting to be claimed. |
| EmailQueue.EmailService.QueueEmail | backend/src/notifications/email.service.ts:203-235 | Queues at the end exactly the emails with a recipient whose user has not opted out. |
| EmailQueue.PrunedCountIsLastMinute | backend/src/notifications/email.service.ts:313-322 | The timestamps left after pruning are as many as the emails sent in the last minute, so more may be sent exactly if those are fewer than the limit. |
| EmailQueue.EmailService.StartProcessing | backend/src/notifications/email.service.ts:285-302 | Takes the first email exactly when none is in delivery and the limit allows. |
| EmailQueue.EmailService.FinishProcessing | backend/src/notifications/email.service.ts:302-311 | A success records its time, a failure does not, and the next email may be taken. |
| EmailQueue.NoWindowExceedsLimit | backend/src/notifications/email.service.ts:285-322 | In every run, no closed 60-second window holds more sent emails than the limit, and emails are delivered in the order they were accepted. |
| EmailQueue.NothingIsLost | backend/src/notifications/email.service.ts:203-322 | In every run each accepted email is queued, in delivery, sent or failed, and counted once. |
| EmailQueue.AcceptedAreWanted | backend/src/notifications/email.service.ts:203-235 | In every run exactly the emails with a recipient whose user has not refused them are accepted, in the order they came. |
| EmailQueue.AcceptedIff | backend/src/notifications/email.service.ts:203-235 | An email is accepted in a run if and only if it was asked for, has a recipient and its user has not opted out. |
| Retry.WithRetry | backend/src/soroban/soroban.service.ts:1296-1347 | Attempts stop at the first success or permanent error, or after the maximum; waits fall only between attempts, and their sum is the one specified. |
| Retry.DelayWithinJitter | backend/src/soroban/soroban.service.ts:148-156 | A delay is within 20% of base * 4^attempt, up to rounding. |
| Retry.ResultIsDetermined | backend/src/notifications/email.service.ts:333-383 | How the attempts would end determines outcome, number of attempts and waiting time. |
| Retry.CallIsBounded | backend/src/notifications/email.service.ts:143-150 | However a call ends, it waits at most 1.2 * base * (4^(max-1) - 1) / 3 plus half a millisecond per wait. |
| Retry.RpcClient.Call | backend/src/soroban/soroban.service.ts:1296-1347 | A success clears the failure counter, a permanent error leaves it, an exhausted call adds one. |
| Retry.RpcClient.IsRpcHealthy | backend/src/soroban/soroban.service.ts:224-226 | Healthy exactly if fewer than three calls were exhausted since the last that succeeded. |
| Retry.CounterCountsExhausted | backend/src/soroban/soroban.service.ts:1296-1347 | After any sequence of calls the counter behind the health signal is the number of exhausted calls since the last success. |
| Retry.NoAttemptsCountsAsOutage | backend/src/soroban/soroban.service.ts:1300-1347 | With a maximum of zero a call makes no attempt and still counts as a failure. |
| HarvestAttribution.GetHarvestAttributionHistory | backend/src/account/account.service.ts:203-276 | The nested loops produce exactly the specified entries; no position means an empty history. |
| HarvestAttribution.EntriesCarryHarvests | backend/src/account/account.service.ts:238-272 | There is one entry for each harvest at which the owner held something, in order, and it carries that harvest's ledger, delta, fee and total and the owner's shares. |
| HarvestAttribution.MissingFields | backend/src/account/account.service.ts:239-243 | An event without its fields counts as ledger 0, one share, nothing earned and no fee. |
| HarvestAttribution.SoleOwnerGetsAll | backend/src/account/account.service.ts:253-260 | An owner of all recorded shares is attributed exactly delta - fee. |
| HarvestAttribution.GainGoesToDepositors | backend/src/account/account.service.ts:203-276 | When the record holds the shares minted so far and delta >= fee: what the entries of all depositors attribute, plus the fee, never exceeds delta and falls short of it by less than one unit per owner. |
| HarvestAttribution.LossGoesToDepositors | backend/src/account/account.service.ts:203-276 | The same for delta < fee: never more loss than there was, and all but less than one unit per owner. |
| HarvestAttribution.SharesAtHarvest | backend/src/account/account.service.ts:245-251 | The inner loop sums the owner's shares minted up to the harvest's ledger. |
| HarvestAttribution.SplitIsFair | backend/src/account/account.service.ts:253-260 | If the holders' shares sum to at most the recorded total, what they are attributed has the sign of the net yield and does not exceed it; if they sum to the total, less than one unit per holder is left over. Gains and losses. |
| HarvestAttribution.SharesPartition | backend/src/account/account.service.ts:228-251 | Over all depositors the shares counted are exactly those minted. |
| HarvestAttribution.HarvestIsSplitOverDepositors | backend/src/account/account.service.ts:203-276 | A harvest that records the shares minted so far is given out up to less than one unit per depositor. |
| HarvestAttribution.OwnerExceedsGainIff | backend/src/account/account.service.ts:253-260 | One owner is attributed more than a gain exactly when net * (shares - total) >= total. |

## Left out

- EventPaging.GetEvents: covers nodes that send cursors or whose full pages each hold a readable entry, and whose log stays bounded during the call or adds an event with every page; `PagingEnds.UnreadableGrowthNeverEnds` and `PagingEnds.UnreadablePageIsAskedAgain` show that the call does not end otherwise. Replies are logs that only grow.
- IndexerRuns.TableIsLogPrefix: assumes complete fetches, which `Listener.FetchIsCompleteIff` characterises, and a reported tip that does not go back; `FetchGaps.FetchIsStoredIff` is about other fetches.
- PagingEnds.TipLedgerCoveredIff: for logs with fewer than 10,000 readable entries ahead; `FetchGaps.PollAfterCall` covers calls that meet the cap.
- RefreshTokens.RotatesAtMostOnce: rotations are atomic here, as in the other results of that module; `RefreshRaces.RotatesOnceIffNoOverlap` is about rotations split at their awaits.
- RefreshRaces.RotatesOnceIffNoOverlap: counts exchanges; what overlapping rotations do to the chain of a family is not stated.
- ReconciliationJobs.CoveredIff: for rollback depths that are not negative.
- Mirror.ReindexedBalanceIff: for a fork at or behind the indexer's checkpoint; `Mirror.RollbackSkipsLedgersIff` says when it is not.
- OAuthTransactions.CodeHasOneWinner: covers runs in which the object mapper's save writes only the assigned columns of an existing row; `OAuthTransactions.ReopenedStateIsWonAgain` shows that any other save lets the state be won twice. Which of the two the mapper does is not part of this model.
- WeekKeys.SameWeeklyKeyIff: for years from 101 on, because `Date.UTC` reads the years 0 to 99 as 1900 to 1999.
- Digests.OneDigestPerPeriod: attempts come in date order and their state writes succeed; `Digests.UnrecordedDigestRepeats` is about the others.
- BalanceCache.BalanceService.Get: the cache store drops an entry exactly when its lifetime has passed.
- EmailQueue.EmailService.QueueEmail: the recipient is taken as already trimmed.
- Retry.WithRetry: delays are real numbers, and which errors are transient is given with each attempt.
- AuditLog.EditDetectedIff: the position of the report is stated for edits that keep the rows in order of time; `AuditOrder.DateEditDetected` is about the others. One creation time serves for sorting, for the query and for the text, although the column is finer than the milliseconds of the text. The keyed hash is an uninterpreted function without collisions, and a rewritten row keeps its old checksum.
- HTTP controllers, guards, validation pipes, websocket and webhook transport, and dependency injection.
- Cryptography: SHA-256, HMAC, JWT signing and Stellar signature verification appear only as injective functions.
- The parts of the indexer that decode yield-adapter topics, its metrics, and manual reindexing and backfilling.
- The listener and the indexer writing to the same tables at once: each is proved alone.
- Groups, locked plans, markets, leaderboards and the other read-models, whose projections repeat the shape of goals and balances.
- Paging of filtered lists, date and number parsing, and lower-casing of addresses beyond ASCII: SQL is a syntax tree, not text, and parsed values are parameters.
- IANA time zones: digests take the local calendar date as given.
- Linking identities, provider token exchange and the redirect URLs of the OAuth flow.
- Floating-point rounding in APR and yield-rate views.
