# Verified models of XMem

Dafny models of the parts of XMem whose correctness is hard to see from the code, with proofs of
what they promise. `dafny verify dfyconfig.toml` checks everything.

**Credit ledger.** `CreditLots`, `LotDrawing`, `NullFirstDrawing` and `LotOrder` treat lots that
expire and how debits draw from them. `CreditLedger` specifies grant, reserve, commit and release
over wallets, lots, reservations and an append-only ledger; `BillingStore` is the store that updates
those tables in place, each method proved against the specification. `LedgerKeys`,
`LedgerInvariants` and `LedgerHistory` carry conservation and the history of every job through all
runs; `LedgerEffects` says what each call does in terms of what can be read afterwards;
`LedgerGuarantees` draws the consequences for callers; `LedgerInterleaving` covers concurrent
callers; `InMemoryCommit` says exactly when the branch without transactions is not atomic.
`Metering`, `GrantKeys` (which grants share an idempotency key), `BillingService` and
`ServiceEffects` (what its calls cost a customer) sit on top.

**Chunking.** `Chunking` is `chunk_text` with its loop; `ChunkProperties` proves what its chunks
hold, that nothing is lost, how long it runs and where it cuts.

**Code graph.** `Paths`, `CodeGraph` (the client), `GraphEffects` (what an upsert leaves, read off the
path), `GraphInvariants` (the forest of directories, exact deletion), `GraphRetry` and `RetriedCalls` (retries after partial failure, nested to any
depth), `GraphCrash` and `RaisedUpserts` (upserts that never finish).

**Icon files.** `Crc32` (a register written as its bits, lowest first), `CrcDivision` (the CRC as a
remainder over GF(2)), `CrcArithmetic` (the same register in 32-bit arithmetic, with its check value)
and `PngChunks`.

**API keys and limits.** `ApiKeyCache`, `ApiKeyAccess` (which requests a key is accepted for),
`ApiKeyRaces` (validations that overlap a revocation) and `RateLimiter`.

**Memory judge.** `ProfileKeys` (how facts are printed and keyed), `KeyedStore`, `ProfileJudge` and
`ProfileFacts` for profile facts; `EventDates`, `TemporalFields`, `TemporalJudge` (one event, with the
graph client that carries out the operations), `TemporalBatch` (many events against one snapshot),
`BatchJobs` and `BatchRecorded` (when all of them end up recorded) for events; `Dedupe` and `Normalised` for what both need.

**Transcripts.** `CursorTranscript`, `AntigravityTurns`, `AntigravityTranscript`, `AntigravityRoundTrip`.

`Text`, `Search`, `Messages` and `Wrappers` are shared. Clocks are parameters: a call takes one reading of
each clock. Lots and API keys are kept in sequences, a document's id being its position. Every lemma
switches automatic induction off, so each proof is the one written down.

Where code and documentation disagree the model follows the code, and a lemma says exactly when the
promise holds: the word-boundary fallback of `chunk_text` (`ChunkProperties.CutSplitsWordIff`),
the order of lots without an expiry (`NullFirstDrawing.NullsFirstOptimalIff`), all-or-nothing commits
in memory (`InMemoryCommit.AllOrNothingIff`), the common key format of judge and weaver
(`ProfileKeys.KeysAgreeIff`), recording an event that was judged (`TemporalJudge.RecordedIff`, and
`BatchRecorded.LastEventsWinIff` for a batch) and leaving the others alone (`TemporalJudge.OtherEventStaysIff`), deletion of all children after a crash
(`GraphCrash.DirectoryCrashIff`, `FileCrashIff` and `SymbolCrashIff`), and planner blocks belonging to
the question before them (`AntigravityTurns.NeverMixesIff`). Lemmas beside them name inputs that fail.

## Model

| member | source | states |
|---|---|---|
| CreditLots.First | src/billing/store.py:953-978 | the lot a debit draws from next is the first drawable lot in expiry order, and there is none exactly when nothing is drawable |
| CreditLots.DrainOnlyDraws | src/billing/store.py:913-951 | a debit only ever lowers the remaining credit of live lots of its own account |
| CreditLots.AliveFalls | src/billing/store.py:53-60 | credit only expires: unexpired credit never grows with time |
| LotDrawing.DrainTakes | src/billing/store.py:913-951 | a debit takes exactly min(amount, unexpired credit) from live and from total credit |
| LotDrawing.DrainKeepsOtherAccounts | src/billing/store.py:953-978 | a debit leaves the unexpired credit of every other account alone, at every time |
| LotDrawing.EarliestFirstLeaves | src/billing/store.py:913-978 | after an earliest-expiry-first debit the credit alive at any later time t is min(alive at t, alive now - amount) |
| LotDrawing.StepKeepsDominance | src/billing/store.py:913-978 | one grant or debit keeps the lead of earliest-expiry-first over any other way of paying, for all accounts and later times at once |
| LotDrawing.EarliestFirstIsOptimal | src/billing/store.py:913-978 | over any run of grants and debits in time order: if some policy pays every debit, so does earliest-expiry-first, with at least as much unexpired credit left at every later time |
| LotDrawing.EarliestFirstPays | src/billing/store.py:913-978 | earliest-expiry-first is itself such a policy, so the optimum is attained |
| NullFirstDrawing.PermanentSpentFirst | src/billing/store.py:970-978 | the MongoDB sort (no expiry first) spends never-expiring credit before anything else |
| NullFirstDrawing.NullsFirstOptimalIff | src/billing/store.py:970-978 | a payable debit in the MongoDB order leaves the optimum exactly when it is zero, takes everything alive, or the live credit is all permanent or all expiring |
| NullFirstDrawing.NullsFirstWastes | src/billing/store.py:970-978 | given a permanent lot and one about to expire, a debit either could pay alone is lost in full once the other expires, in the MongoDB order |
| NullFirstDrawing.OrdersAgree | src/billing/store.py:965-978 | without never-expiring lots the two sort orders draw alike |
| LotOrder.ActiveLots | src/billing/store.py:953-978 | the listing holds exactly the drawable lots, sorted stably by expiry |
| LotOrder.HeadIsFirst | src/billing/store.py:965-969 | the head of the sorted listing is the lot the specification draws from |
| LedgerKeys.VersionedInjective | src/billing/store.py:529-531 | reserve and release keys determine job and version, even for job ids that contain colons |
| LedgerKeys.JobKeyInjective | src/billing/store.py:667-688 | two ledger rows about jobs share a key only if they record the same thing |
| LedgerKeys.JobKeyIsNotForeign | src/billing/service.py:266-271 | no job key can equal a key of the grants |
| BillingStore.BillingStore.GrantCredits | src/billing/store.py:286-364 | the in-place grant ends in the books and reply that `LedgerEffects.GrantEffects` and `GrantRepeated` describe |
| BillingStore.BillingStore.ReserveCredits | src/billing/store.py:366-545 | the in-place reserve, with its aborts, ends in the books and reply that `LedgerEffects.ReserveEffects` and `ReserveRefused` describe |
| BillingStore.BillingStore.ConsumeLots | src/billing/store.py:913-951 | the nested loops terminate, drain earliest first, and report exactly the shortfall max(0, amount - unexpired credit) |
| BillingStore.BillingStore.DrawListed | src/billing/store.py:923-945 | one pass over a listing makes progress and stays on the way to the same final lots |
| BillingStore.BillingStore.CommitDebit | src/billing/store.py:561-565 | commit answers with the error, the existing debit row or the outcome of its transaction |
| BillingStore.BillingStore.CommitClaimed | src/billing/store.py:625-746 | the claimed commit, with its aborts, ends in the specified books and reply |
| BillingStore.BillingStore.Charge | src/billing/store.py:690-715 | wallet guard, then lots: which error, and what has already changed when it is raised |
| BillingStore.BillingStore.Settle | src/billing/store.py:716-744 | wallet, reservation and ledger after a commit that nothing stopped |
| BillingStore.BillingStore.ReleaseReservation | src/billing/store.py:848-898 | the in-place release ends in the books and reply that `LedgerEffects.ReleaseEffects` and `ReleaseOfNothing` describe |
| BillingStore.BillingStore.CommitDebitInMemory | src/billing/store.py:561-620 | the branch without transactions ends in the books of its own specification |
| LedgerInvariants.GrantKeepsBalance | src/billing/store.py:339-357 | a grant keeps: ledger replay = wallet and holds, wallet = lots = income, nothing negative |
| LedgerInvariants.ReserveKeepsBalance | src/billing/store.py:426-534 | a reserve keeps the balance of every account |
| LedgerInvariants.ReleaseKeepsBalance | src/billing/store.py:848-898 | a release keeps the balance of every account |
| LedgerInvariants.CommitKeepsBalance | src/billing/store.py:625-746 | a commit, with extra credit or a refund, keeps the balance of every account |
| LedgerHistory.TransactKeepsSound | src/billing/store.py:286-911 | every transaction keeps balance, key uniqueness and the documented life of every job |
| LedgerHistory.EveryRunIsSound | src/billing/store.py:286-911 | in every reachable state the ledger replays to the wallets and active holds, available + reserved = lots = grants + debits, and each job's rows spell (reserve v, release v)* [reserve n [debit [refund]]] |
| LedgerHistory.NothingIsNegative | src/billing/store.py:286-911 | available, reserved and their sum are never negative |
| LedgerHistory.UnwrittenIsFresh | src/billing/store.py:269-284 | a row that a job's history does not contain yet has an unused key |
| LedgerHistory.KeysAreFresh | src/billing/store.py:269-284 | no transaction ever inserts a row whose key is taken, so returning an existing row never hides a change |
| LedgerHistory.ForeignRun | src/billing/service.py:79-86 | runs whose grants bring keys as the service builds them keep the condition the previous row needs |
| LedgerGuarantees.SuccessSpends | src/billing/store.py:563-565 | a grant or commit that answered with a row has left that row in the ledger |
| LedgerGuarantees.RepeatsChangeNothing | src/billing/store.py:321-323 | grants and commits that repeat a row the ledger held before the run, or that an earlier attempt of the run was answered with, can be left out wherever they stand: the books after the run are the same |
| LedgerGuarantees.CommittedIsFinal | src/billing/store.py:376-382 | no call about a committed job, by any account, moves wallet, lots, reservation or ledger |
| LedgerGuarantees.CommittedForever | src/billing/store.py:627-661 | a committed job stays committed through every run |
| LedgerGuarantees.CommitShortIff | src/billing/store.py:690-715 | past the claim and the wallet guard a commit fails exactly when the debit exceeds unexpired credit, and then some credit has expired |
| LedgerGuarantees.CommitSucceedsUnexpired | src/billing/store.py:634-746 | while nothing of the account has expired, a covered commit succeeds |
| LedgerGuarantees.ExpiryStrandsReservation | src/billing/store.py:948-951 | an account whose credit has all expired still shows the reservation, and its commit fails |
| LedgerGuarantees.StrandedIsReachable | src/billing/store.py:948-951 | grant, reserve, expiry reaches that state |
| LedgerGuarantees.RunDrawsEarliestFirst | src/billing/store.py:913-969 | the lots of a run of store calls are those of earliest-expiry-first on its grants and committed debits |
| LedgerGuarantees.LedgerSpendsOptimally | src/billing/store.py:913-969 | whatever other way of drawing pays the debits of a run, the store's lots hold at least as much unexpired credit at every later time |
| LedgerGuarantees.ExpiringGrantsMakeOrdersAgree | src/billing/service.py:79-86 | when every grant carries an expiry, as the service's do, both sort orders give the same run |
| LedgerEffects.GrantEffects | src/billing/store.py:339-364 | a grant under an unused key raises what is available and the credit unexpired before its expiry by the amount, adds one lot and one row with that key, and touches nothing else |
| LedgerEffects.GrantRepeated | src/billing/store.py:321-323 | a grant under a key in use answers with the row that has it and changes nothing |
| LedgerEffects.ReserveEffects | src/billing/store.py:426-545 | on sound books a job never reserved, or released by its own account, is reserved whenever the credit suffices: the amount moves from available to reserved, the job is held under the next version, one row says so under its literal key, and nothing else moves |
| LedgerEffects.ReserveRefused | src/billing/store.py:376-512 | in every other case nothing moves, and the reply is the one the case calls for |
| LedgerEffects.ReleaseEffects | src/billing/store.py:848-898 | releasing a held job raises available and lowers reserved credit by what was held, takes the job out of the active holds, replies with status released and writes exactly one row with the version and the amount; lots, other jobs and other accounts stay |
| LedgerEffects.ReleaseOfNothing | src/billing/store.py:835-870 | releasing what is not held changes nothing, and a reservation of another account is refused |
| LedgerEffects.ReleaseUndoesReserve | src/billing/store.py:848-898 | a release after a reserve restores every wallet, every lot and the active holds |
| LedgerEffects.ReserveAfterRelease | src/billing/store.py:436-471 | a released job can be reserved again under the next version, with what the release gave back |
| LedgerEffects.CommitEffects | src/billing/store.py:625-746 | a covered commit of a held job takes the debit from the reservation first and from available credit for the rest, the lots lose exactly the debit, the job leaves the holds as committed, and exactly a debit row and, if something was left, a refund row are written |
| LedgerEffects.CommitUnclaimed | src/billing/store.py:634-661 | a commit of a job that is neither held by the account nor committed changes nothing |
| LedgerEffects.CommitUncovered | src/billing/store.py:690-706 | a commit whose extra cost the wallet does not cover fails with that cost and changes nothing |
| LedgerEffects.CommitRepeated | src/billing/store.py:563-565 | a commit of a job with a debit row answers with that row, whoever asks for what amount, and changes nothing |
| LedgerEffects.CommitCostsCharge | src/billing/store.py:690-744 | a job reserved and then charged costs exactly the charge, whatever was reserved |
| LedgerInterleaving.TransactionRechecks | src/billing/store.py:376-382 | a transaction repeats its call's early read, so a stale read does not matter |
| LedgerInterleaving.InterleavingIsSerial | src/billing/store.py:339-357 | every interleaving of early reads and transactions gives the books and all replies of the calls run one at a time, in the order they were answered, and answers each call once |
| LedgerInterleaving.AnswerOrderRespectsTime | src/billing/store.py:376-382 | a call answered before another begins also comes first in that order |
| LedgerInterleaving.InterleavingIsSound | src/billing/store.py:426-545 | between transactions the books are sound and no reservation is seen reserving or committing |
| InMemoryCommit.AgreesWithTransaction | src/billing/store.py:568-620 | away from short lots the branch without transactions does what the transaction does |
| InMemoryCommit.ShortCommitLeaves | src/billing/store.py:599-620 | what a failing commit without a transaction leaves behind |
| InMemoryCommit.AllOrNothingIff | src/billing/store.py:599-620 | a failing commit leaves the books as they were exactly when the lots did not run short, or neither the wallet nor any live lot had been touched before they did |
| InMemoryCommit.ShortCommitUnbalancesIff | src/billing/store.py:599-620 | after the lots ran short, wallet = lots still holds exactly when the wallet happened to lose what the lots lost |
| InMemoryCommit.EmptyWalletAppears | src/billing/store.py:239-249 | reading a missing wallet in memory creates it empty and changes no balance |
| InMemoryCommit.PartialFailureIsReachable | src/billing/store.py:599-620 | two grants and a reservation of both reach books in which, once the first grant has expired, the commit fails and the books are not as they were |
| Metering.BatchTokensAdd | src/billing/metering.py:18-29 | a batch counts the tokens of its items one by one |
| Metering.ChargeIsLeast | src/billing/metering.py:40 | a charge is the least whole number of credits, at least one, that covers the usage |
| Metering.WhatIsCounted | src/billing/metering.py:10-30 | an ingest counts both fields with a line break between them when both have text, a batch the sum over its items, a retrieval its query |
| Metering.EstimateIsLeast | src/billing/metering.py:38-42 | the bill is the least whole number, at least one, that covers tokens times multiplier, and the reservation the least, at least the bill, that covers the bill times the buffer |
| Metering.ReservationCoversCharge | src/billing/metering.py:40-42 | a reservation is never below the unbuffered charge of the same job |
| BillingService.BillingService.EnsureBillingAccount | src/billing/service.py:72-87 | the trial grant, expiring a trial period after the call, offered every time and granted once for an owner |
| BillingService.TrialIsGrantedOnce | src/billing/service.py:79-86 | a second offer of the trial, at any later time and with its later expiry, leaves the books as they are |
| BillingService.BillingService.ReserveJobCredits | src/billing/service.py:127-147 | the store run behind a reservation: the trial offered at the call's own clock, then the buffered estimate |
| BillingService.BillingService.CommitJobBilling | src/billing/service.py:177-226 | the store run behind a commit: reported credits, else the unbuffered estimate; nothing without an account |
| BillingService.BillingService.ReleaseJobBilling | src/billing/service.py:228-239 | the store run behind a release |
| BillingService.BillingService.GrantProSubscription | src/billing/service.py:241-279 | the monthly grant under its subscription and payment key |
| BillingService.BillingService.GrantTopupPack | src/billing/service.py:301-346 | the top-up grant under its order and payment key |
| GrantKeys.KeysShareIff | src/billing/service.py:79-86 | two grants share an idempotency key exactly when they are for the same reason or for the same sort of payment with the colon between the two ids in another place |
| GrantKeys.ColonFreeIdsAreApart | src/billing/service.py:266-271 | subscription and order ids without a colon keep different payments apart |
| GrantKeys.SharedKeyIsSwallowed | src/billing/store.py:321-323 | a second grant under a shared key changes nothing |
| GrantKeys.ColonsConfuse | src/billing/service.py:266-271 | subscription 'a:b' with payment 'c' and subscription 'a' with payment 'b:c' share a key |
| BillingService.ServiceRunIsSafe | src/billing/service.py:72-346 | after any sequence of service calls the books are sound, the next store call meets no used key, and both lot orders have given the same books |
| BillingService.EstimatedJobCommits | src/billing/service.py:189-203 | a job reserved and charged on the same estimate never needs more than its reservation: its commit succeeds and refunds the buffer, or fails on expired credit and changes nothing |
| ServiceEffects.TrialIsGranted | src/billing/service.py:72-87 | the first call of an owner raises what is available by the trial credits, in one lot that expires a trial period later |
| ServiceEffects.ProIsGranted | src/billing/service.py:241-279 | a subscription payment seen for the first time grants the monthly credits under its own key |
| ServiceEffects.TopupIsGranted | src/billing/service.py:301-346 | an order payment seen for the first time grants the credits of the pack under its own key |
| ServiceEffects.ReleasedJobCostsNothing | src/billing/service.py:127-239 | a job that is reserved and released leaves wallets and lots as they were when the trial had been offered |
| ServiceEffects.CommittedJobCosts | src/billing/service.py:127-226 | a job that is reserved and charged costs its charge in wallet and live lots |
| Chunking.LastStopIsLast | src/config/effort.py:173-176 | the search finds the last ". " at or after a third of the window |
| Chunking.ChunkText | src/config/effort.py:125-207 | the method with its short-text case returns the chunks that `ChunkProperties.ShortTextIsOneChunk` and `NothingIsLost` describe |
| Chunking.ChunkLongText | src/config/effort.py:165-207 | the cursor loop with its carried overlap ends and returns those chunks of a text longer than a window |
| ChunkProperties.PiecesPartition | src/config/effort.py:169-191 | the raw windows consumed concatenate to exactly the input |
| ChunkProperties.NothingIsLost | src/config/effort.py:159-207 | each chunk is its segment, and before it, unless it is the first or the overlap is not positive, the stripped last min(overlap, length) characters of the previous segment and a space; the segments keep every non-whitespace character in order; none is empty |
| ChunkProperties.SegmentsArePieces | src/config/effort.py:187-190 | the segments are the pieces that are not blank, in order, each without its blank ends |
| Text.SpaceIff | src/config/effort.py:187 | the characters a strip takes off, by code point |
| ChunkProperties.ShortTextIsOneChunk | src/config/effort.py:162-163 | a text of at most one window is one chunk, without its blank ends, or none if it is blank |
| ChunkProperties.DroppedIff | src/config/effort.py:162-163 | a text with any non-whitespace character gives no chunks exactly when the window has zero characters |
| ChunkProperties.ChunksFit | src/config/effort.py:192-203 | every chunk has at most c + 1 + 4 * overlap characters |
| ChunkProperties.CutFallsAtLastStop | src/config/effort.py:175-185 | a window is cut behind its last ". " when that lies in the latter two thirds, and otherwise taken whole |
| ChunkProperties.PiecesAreCut | src/config/effort.py:169-205 | every piece is the front of what is left of the text, cut there |
| ChunkProperties.CutSplitsWordIff | src/config/effort.py:182-185 | a cut splits a word exactly when the latter two thirds of the window hold no full stop and space and the window ends inside a word (the documentation promises a word boundary) |
| ChunkProperties.WordIsSplit | src/config/effort.py:135-137 | a text whose word is split |
| ChunkProperties.TailSteps | src/config/effort.py:169-190 | the last windows shrink by a third each |
| ChunkProperties.StepsBounded | src/config/effort.py:169-205 | the loop runs at most n / (c/3 + 1) times over full windows and log base 3/2 of c times after them |
| Paths.ParentIsShorter | src/graph/code_graph_client.py:816-831 | the parent path is strictly shorter, so directory linking ends |
| Paths.FileDirectoryIs | src/graph/code_graph_client.py:185-187 | a file's directory is its path through the last slash, and "/" when there is none |
| Paths.ParentPathIs | src/graph/code_graph_client.py:816-831 | a directory is at the top exactly when no name in its path follows a slash, and otherwise its parent is the path up to its last name |
| CodeGraph.CodeGraphClient.UpsertDirectory | src/graph/code_graph_client.py:139-170 | the mutually recursive upsert sends exactly the specified queries, which leave what `GraphEffects.DirectoryLeaves` says |
| CodeGraph.CodeGraphClient.LinkDirectoryToParent | src/graph/code_graph_client.py:811-847 | linking creates the parents first and then one edge |
| CodeGraph.CodeGraphClient.UpsertFile | src/graph/code_graph_client.py:173-213 | the queries of a file upsert, which leave what `GraphEffects.FileLeaves` says |
| CodeGraph.CodeGraphClient.UpsertSymbol | src/graph/code_graph_client.py:216-281 | the queries of a symbol upsert, which leave what `GraphEffects.SymbolLeaves` says |
| GraphEffects.DirectoryLeaves | src/graph/code_graph_client.py:139-170 | afterwards the graph has, beyond what it had, exactly the repository, the directory with its properties, one directory without for every shorter prefix of the path up to a name, and the edge to each from the next shorter one or the repository |
| GraphEffects.FileLeaves | src/graph/code_graph_client.py:173-213 | that chain down to the path through its last slash, and then exactly the file with its properties and its edge from there |
| GraphEffects.SymbolLeaves | src/graph/code_graph_client.py:216-281 | the same for the file with its language alone, and then exactly the symbol with its properties and its edge from the file |
| CodeGraph.CodeGraphClient.AddSymbolEdge | src/graph/code_graph_client.py:288-407 | no node changes; afterwards an edge exists exactly if it did before or joins a symbol of the first name and file to one of the second, whatever their signatures |
| CodeGraph.CodeGraphClient.AddImportsEdge | src/graph/code_graph_client.py:323-349 | no node changes; afterwards an edge exists exactly if it did before or is the one between the two files, both being there |
| CodeGraph.CodeGraphClient.CreateAnnotation | src/graph/code_graph_client.py:414-466 | one new node; afterwards an edge exists exactly if it did before or leads from it to a symbol of the name in the file or, without a name, to the file, and only if file and repository are given |
| CodeGraph.CodeGraphClient.DeleteRepository | src/graph/code_graph_client.py:940-953 | the repository node and all it reaches go, with their edges |
| GraphInvariants.DirStepsAttach | src/graph/code_graph_client.py:139-170 | a directory upsert attaches its directory and all parents and detaches nothing |
| GraphInvariants.PerformKeepsSound | src/graph/code_graph_client.py:126-466 | every operation keeps: edges join what their relation allows inside one repository, and each directory, file and symbol hangs on its parent |
| GraphInvariants.EveryGraphIsSound | src/graph/code_graph_client.py:126-466 | every graph any sequence of operations builds is sound |
| GraphInvariants.DescendantsArePathEnds | src/graph/code_graph_client.py:946-947 | the computed closure is exactly what some path of one or more edges leads to |
| GraphInvariants.RootedAtRepository | src/graph/code_graph_client.py:811-893 | each node is contained, edge by edge, in its repository |
| GraphInvariants.OneParent | src/graph/code_graph_client.py:826-847 | a directory, file or symbol has exactly one containing edge |
| GraphInvariants.NoContainmentCycle | src/graph/code_graph_client.py:811-847 | containment paths strictly grow in rank, so there are no cycles |
| GraphInvariants.DeleteIsExact | src/graph/code_graph_client.py:940-953 | deletion leaves exactly the nodes and edges that do not belong to the repository, annotations included |
| GraphInvariants.DeleteSparesOthers | src/graph/code_graph_client.py:940-953 | even on graphs with unlinked nodes nothing of another repository is touched |
| GraphCrash.DirectoryCrashIff | src/graph/code_graph_client.py:149-170 | a directory upsert cut short after k queries on any sound graph leaves something that deleting the repository misses exactly when the directory was new and its own link was not sent |
| GraphCrash.FileCrashIff | src/graph/code_graph_client.py:183-213 | the same for a file upsert: exactly when a new directory or a new file had been written and not yet linked |
| GraphCrash.SymbolCrashIff | src/graph/code_graph_client.py:226-281 | the same for a symbol upsert: a new directory, file or symbol written and not yet linked |
| GraphCrash.LeafCrashIff | src/graph/code_graph_client.py:193-213 | the step behind both: stopping between writing a leaf and linking it harms exactly when the leaf is new |
| GraphCrash.KnownDirectoryStaysSound | src/graph/code_graph_client.py:149-170 | no part of the upsert of a known directory makes a sound graph unsound |
| GraphCrash.CrashLeavesOrphan | src/graph/code_graph_client.py:149-170 | an example: a new directory whose link was never sent |
| GraphRetry.RetryIsHarmless | src/graph/code_graph_client.py:42-72 | a repeatable sequence of queries, cut short, repeated and resumed in any way, ends in the graph of one clean run |
| GraphRetry.CoversConcat | src/graph/code_graph_client.py:42-72 | retried parts make a retried whole |
| GraphRetry.CoversRetry | src/graph/code_graph_client.py:48-70 | a failed attempt before a successful one is still a retried whole |
| GraphRetry.UpsertSurvivesRetries | src/graph/code_graph_client.py:126-281 | a trace that covers the queries of an upsert, repeating and resuming them anyhow, ends in the graph of one clean call |
| GraphRetry.PartialThenWhole | src/graph/code_graph_client.py:126-281 | any prefix of an upsert followed by the whole upsert equals one clean call |
| RetriedCalls.ReturnsCovers | src/graph/code_graph_client.py:42-72 | whatever a tree of nested calls sends, each call repeated after the failures the decorator repeats it after, covers the queries of the tree sent once, if the outermost call returns |
| RetriedCalls.RetriedUpsertIsClean | src/graph/code_graph_client.py:42-72 | so an upsert that returns leaves the graph of one clean call, at whatever depth its nested upserts were repeated |
| RetriedCalls.ThreeTries | src/graph/code_graph_client.py:42-72 | a decorated query that returns has been sent once, twice or three times |
| RaisedUpserts.RaisedUpsertOrphansIff | src/graph/code_graph_client.py:42-72 | an upsert that raises after all its retries, at whatever depth, leaves something that deleting the repository misses exactly when it wrote a new node and never sent its link |
| RaisedUpserts.HalfDoneIff | src/graph/code_graph_client.py:126-281 | the same for every trace of upsert queries that links nodes only after they are written |
| Crc32.ComputeCrc | scripts/patch-extension-local.js:22-31 | the nested loops compute the specified register and complement it: the CRC that `CrcDivision.CrcIsRemainder` and `CrcArithmetic.CheckValue` pin down |
| CrcDivision.GeneratorIs | scripts/patch-extension-local.js:27 | the constant holds the coefficients of x^32 + x^26 + x^23 + x^22 + x^16 + x^12 + x^11 + x^10 + x^8 + x^7 + x^5 + x^4 + x^2 + x + 1 below x^32, the highest in the lowest bit |
| CrcDivision.RegisterDivides | scripts/patch-extension-local.js:22-29 | the register divides: from any start it ends with a remainder of the message times x^32, the start added to its first 32 coefficients |
| CrcDivision.CrcIsRemainder | scripts/patch-extension-local.js:22-31 | a register is the complement of the CRC exactly when it is the remainder of dividing, over GF(2), the message times x^32 with its first 32 coefficients inverted by that polynomial |
| CrcArithmetic.ArithmeticAgrees | scripts/patch-extension-local.js:22-31 | the bit sequences do what the source does in 32-bit arithmetic, for every message |
| CrcArithmetic.CheckValue | scripts/patch-extension-local.js:22-31 | the CRC of the digits 123456789 is 0xCBF43926 |
| Crc32.RegisterIsSteps | scripts/patch-extension-local.js:24-29 | feeding bytes is feeding their bits, lowest first |
| Crc32.RegisterIsLinear | scripts/patch-extension-local.js:27 | the register is linear over xor in both register and message |
| Crc32.RegisterIsInjective | scripts/patch-extension-local.js:25-28 | for a fixed message the register before and after determine each other |
| Crc32.StepIsReversible | scripts/patch-extension-local.js:27 | every register has a predecessor for each bit, so a step is a bijection |
| Crc32.BurstIsDetected | scripts/patch-extension-local.js:22-31 | different messages of equal length that differ only within 32 consecutive bits have different CRCs |
| Crc32.FourBytesAreDetected | scripts/patch-extension-local.js:22-31 | the same for messages that differ only within four consecutive bytes |
| PngChunks.WriteUInt32BE | scripts/patch-extension-local.js:36-38 | four big-endian bytes are written in place, the others stay |
| PngChunks.PngChunk | scripts/patch-extension-local.js:33-40 | length, type, data and CRC, or failure when the length does not fit |
| PngChunks.BigEndianReadsBack | scripts/patch-extension-local.js:36 | a length reads back from its four bytes |
| PngChunks.ChunkReadsBackIff | scripts/patch-extension-local.js:33-40 | a written chunk reads back exactly when its type has four bytes, which the writer does not check |
| PngChunks.FileReadsBack | scripts/patch-extension-local.js:90-95 | signature and chunks read back as the same types and data in order |
| PngChunks.DamageIsRefused | scripts/patch-extension-local.js:37-39 | a chunk whose type and data were damaged within 32 consecutive bits is refused |
| PngChunks.WriteIcon | scripts/patch-extension-local.js:81-95 | the icon file reads back as header, pixels and end; the header carries size, depth 8 and RGBA |
| ApiKeyCache.FindActiveIs | src/database/api_key_store.py:437-440 | the lookup finds an active key with the hash exactly when there is one |
| ApiKeyCache.APIKeyStore.GetCachedValidation | src/database/api_key_store.py:168-183 | a hit while the time to live runs; a stale entry is dropped |
| ApiKeyCache.APIKeyStore.CacheValidation | src/database/api_key_store.py:185-196 | the evict loop and the insertion end in the specified cache |
| ApiKeyCache.APIKeyStore.DeactivateExpiredKey | src/database/api_key_store.py:230-241 | the key is deactivated and the cache cleared |
| ApiKeyCache.APIKeyStore.CreateApiKey | src/database/api_key_store.py:243-344 | the key is added exactly when its hash is free; the cache stays |
| ApiKeyCache.APIKeyStore.ValidateApiKey | src/database/api_key_store.py:386-472 | the method ends in the result, documents and cache that `ApiKeyAccess.AcceptedIff` and `ValidationWrites` describe |
| ApiKeyCache.APIKeyStore.RevokeApiKey | src/database/api_key_store.py:474-507 | success exactly when the owner's key was active; the cache is cleared exactly then |
| ApiKeyCache.APIKeyStore.UpdateApiKeyName | src/database/api_key_store.py:509-547 | success exactly when the owner's key changed its name; the cache is cleared exactly then |
| ApiKeyCache.RememberKeeps | src/database/api_key_store.py:185-196 | caching keeps deadline order, distinct hashes, the maximum size and agreement with the database |
| ApiKeyCache.EvictsEarliest | src/database/api_key_store.py:190-191 | what the cache gives up has the earliest deadlines, and only when it is full |
| ApiKeyCache.PerformAgrees | src/database/api_key_store.py:386-544 | one call with and without the cache gives the same result and keeps the databases in agreement |
| ApiKeyCache.CacheIsTransparent | src/database/api_key_store.py:412-470 | in every run with clocks that never go back, a validation returns what a store without a cache would, and the cache stays ordered and within its maximum |
| ApiKeyAccess.AcceptedIff | src/database/api_key_store.py:205-228 | cached or not, an active key is accepted exactly when now is not after its expiry, no scope is asked for or none is listed or one listed is "*" or the one asked for, and each organisation or project it is bound to is the one given; what is returned is its document, used now |
| ApiKeyAccess.ValidationWrites | src/database/api_key_store.py:386-472 | a validation that reads the document writes a time of use when the request is in order and deactivates an expired key; a cached one writes nothing |
| ApiKeyAccess.UnknownIsRefused | src/database/api_key_store.py:437-442 | a hash without an active key is refused, whatever the cache holds |
| ApiKeyAccess.AcceptedInRunIff | src/database/api_key_store.py:386-472 | the same in every run with clocks that never go back |
| ApiKeyCache.RevokedIsRefused | src/database/api_key_store.py:495-504 | a revoked key is refused ever after, whatever the cache held |
| ApiKeyRaces.UninterruptedIsWhole | src/database/api_key_store.py:412-470 | a validation whose reading and caching are not interrupted is the whole validation |
| ApiKeyRaces.StaleOnlyWithinWindow | src/database/api_key_store.py:412-470 | with validations that overlap other calls, a revoked key is accepted only while the time to live runs of a caching, after the revocation, of what had been read before it |
| ApiKeyRaces.CachedWerePending | src/database/api_key_store.py:495-504 | without a validation of the key under way at the revocation there is no such caching, ever |
| ApiKeyRaces.StaleIsAcceptedIff | src/database/api_key_store.py:168-196 | the window is exact: cached at f, the revoked key is accepted at a clock reading exactly when that is before f plus the time to live |
| ApiKeyRaces.StaleIsReachable | src/database/api_key_store.py:412-507 | and it is reached from any active key: read, revoke, cache |
| RateLimiter.SlidingWindowRateLimiter.CheckKey | src/api/dependencies.py:303-317 | the method prunes and appends as specified |
| RateLimiter.Prune | src/api/dependencies.py:310 | the comprehension keeps exactly the later times, in order |
| RateLimiter.SinceTwice | src/api/dependencies.py:310 | pruning twice is pruning once at the later cutoff |
| RateLimiter.CheckTracks | src/api/dependencies.py:309-317 | one request keeps the pruned lists and the full log in agreement |
| RateLimiter.LimiterIsLog | src/api/dependencies.py:303-317 | in time order a request is allowed exactly when fewer than the maximum of its key's allowed requests lie in (now - window, now], and the remaining allowance is what that leaves |
| RateLimiter.NoWindowOverflows | src/api/dependencies.py:297-317 | no window of any position holds more than the maximum |
| RateLimiter.KeysAreIndependent | src/api/dependencies.py:309-310 | a key is let through as if no other key existed |
| ProfileKeys.KeysAgreeIff | src/agents/judge.py:602-617 | for every fact with topic and sub-topic the judge's key equals the weaver's exactly when the first ' = ' of the print is the printer's own, ' / ' occurs once in the stripped head, and no whitespace touches the separator (the docstring promises the same format always) |
| ProfileKeys.JudgeKeyIs | src/agents/judge.py:602-617 | letter by letter the key of a stripped fact: topic and sub-topic with an underscore between them and for every space, in lower case |
| ProfileKeys.StrippedKeysAgreeIff | src/utils/text.py:118-119 | for facts as extracted, topic and sub-topic stripped, whitespace plays no part: exactly when the print splits at its own ' = ' and ' / ' occurs once in the head |
| ProfileKeys.SeparableKeysAgreeIff | src/agents/judge.py:602-617 | for names without '/' and '=', exactly when no whitespace touches the separator |
| ProfileKeys.SlashedTopicDiffers | src/pipelines/weaver.py:869-877 | every stripped topic of the form 'a / b' is stored under another key than the judge looks for |
| ProfileKeys.SlashedTopic | src/agents/judge.py:602-617 | for instance 'food / drink' |
| ProfileKeys.SpacedTopic | src/agents/judge.py:602-617 | and a topic that ends in a space |
| ProfileKeys.OwnSplitStores | src/pipelines/weaver.py:869-877 | a print that splits at its own ' = ' is stored under its tidied head, and judge and weaver read the same memo from it |
| Dedupe.DedupeItems | src/agents/judge.py:624-633 | the loop keeps the last item of each key at the place of the first, then the items without a key |
| ProfileJudge.FetchSimilar | src/agents/judge.py:343-382 | matches by printed form, the later of two that print alike |
| ProfileJudge.LastMatchCounts | src/agents/judge.py:343-382 | an item that no later item prints like is matched by its own key |
| ProfileJudge.DeterministicProfile | src/agents/judge.py:443-480 | the method emits ADD, UPDATE or NOOP as specified |
| ProfileJudge.DecisionIs | src/agents/judge.py:453-478 | an item without a record is added; a found record is left alone exactly when its memo has the same words up to the case of letters, and updated otherwise |
| Dedupe.DedupeKeepsLast | src/agents/judge.py:624-633 | distinct keys, and the last item of every key |
| Dedupe.KeyedInOrder | src/agents/judge.py:624-633 | the kept items stand in the order in which their keys came up first, and no key is lost |
| Dedupe.UnkeyedInOrder | src/agents/judge.py:624-633 | the items without a key all stay, in order |
| KeyedStore.CarryAllSays | src/agents/judge.py:453-478 | items with distinct keys carried into a store leave, for every key, their own text or what was there before |
| ProfileJudge.LastItemWins | src/agents/judge.py:443-480 | for items judge and weaver agree on, applying the operations is overwriting by key |
| ProfileFacts.LastWriterWins | src/agents/judge.py:443-480 | for facts that keep their key, applying the operations stores the memo of the last fact given for each key, up to normalised text, and leaves every other key alone |
| ProfileFacts.RejudgingIsQuiet | src/agents/judge.py:464-471 | judging facts that keep their key a second time yields only NOOP |
| ProfileFacts.StoredFactIsRecognisedIff | src/agents/judge.py:602-617 | a new fact is recognised the next time exactly when judge and weaver agree on its key, by the condition of `ProfileKeys.KeysAgreeIff`; otherwise it is added again, every time |
| TemporalJudge.JudgeEvent | src/agents/judge.py:491-535 | ADD, NOOP, DELETE and ADD, or UPDATE, as specified |
| TemporalJudge.RecordedIff | src/graph/neo4j_client.py:172-240 | for every item with stripped fields: after it is judged and carried out the store says what it says exactly when no field contains '&#124;' and, if it is new or moved, its date has a date node (and no other event of its name is found first), or, if it is an update, the first event of its day has nothing in a field the item leaves empty |
| TemporalJudge.EveryRunIsStored | src/graph/neo4j_client.py:172-240 | what these rows ask of the store, dates with nodes and fields without '&#124;', holds of every store that judging items builds |
| TemporalJudge.BarredNameIsAddedAgain | src/agents/judge.py:49-62 | an item with '&#124;' in its name is added again on every ingest and never recorded |
| TemporalJudge.AcceptedItemIsNotRecorded | src/agents/temporal.py:93-111 | such items pass the extraction on a date with a node: every name 'a&#124;b' |
| TemporalJudge.EveryDateIsRecorded | src/graph/neo4j_client.py:130-150 | a new or moved event on one of the 366 dates is recorded exactly when no field contains '&#124;' |
| TemporalJudge.OtherEventStaysIff | src/graph/neo4j_client.py:195-213 | for every item whose date holds no '&#124;', as no accepted date does: an event of another name stays as it was exactly when the item, as it reads back, is not an update of its day; an update sets every event of the date |
| TemporalJudge.MovedToNowhereIsLost | src/graph/neo4j_client.py:183-187 | a known event whose item has a date without a node is deleted and not written again |
| TemporalJudge.AcceptedItemLosesEvent | src/agents/temporal.py:93-111 | such an item passes the validation of extracted dates, for every known event |
| EventDates.ValidateDateFormat | src/agents/temporal.py:93-111 | the method accepts the dates of the specification, which reads month and day as int() does |
| EventDates.NodesAreAccepted | src/graph/neo4j_client.py:130-150 | every date with a node is accepted |
| EventDates.AcceptedHasNoBar | src/agents/temporal.py:93-111 | no accepted date contains '&#124;' |
| EventDates.AcceptedIff | src/agents/temporal.py:93-111 | a date is accepted exactly when its five characters are a month and a day of the year with one '-' between them, each as int() reads it |
| EventDates.IntForms | src/agents/temporal.py:102 | a number reads alike after a plus sign, between blanks and with an underscore between its digits |
| EventDates.IntRefuses | src/agents/temporal.py:102-104 | a stripped text with any other character is no number |
| EventDates.DaysOfYear | src/graph/neo4j_client.py:130-150 | the days of the months, February having 29 |
| EventDates.AcceptedWithoutNode | src/agents/temporal.py:93-111 | an accepted date without a node: '1-005' |
| TemporalBatch.DeterministicTemporal | src/agents/judge.py:482-535 | a batch: the last item of each normalised name, all looked up in one snapshot, matches kept by printed form |
| TemporalBatch.LastMatchCounts | src/agents/judge.py:405-439 | an item that no later item prints like is matched by its own name |
| TemporalBatch.OtherNamesStayIff | src/agents/judge.py:482-535 | for every batch: an event of none of its names stays as it was exactly when no item left, with the match the judge gives it, is an update of its day |
| BatchJobs.EntrantRecordedIff | src/agents/judge.py:482-535 | in a batch a new or moved event is recorded exactly when its date has a node and no later event updates its day |
| BatchJobs.KeptRecordedIff | src/agents/judge.py:482-535 | an event judged NOOP is still recorded at the end exactly when no event of the batch updates its day |
| BatchJobs.UpdateRecordedIff | src/agents/judge.py:482-535 | the only update of a day is recorded exactly when the first event of the day that no earlier event moves away has nothing in a field the update leaves empty |
| BatchJobs.AllRecordedIff | src/agents/judge.py:482-535 | all events of a batch are recorded exactly when each fits: a date with a node, no update of its day by another event unless it enters later, and the condition of the previous row if it is an update |
| BatchRecorded.LastEventsWinIff | src/agents/judge.py:482-535 | for every batch of stripped, named items, with at most one stored event of each name: the store ends up saying, for every name, what the last item of the name says, exactly when no field of an item left contains '&#124;' and every item left fits |
| BatchRecorded.UpdateOverwritesAddition | src/agents/judge.py:482-535 | one such conflict: an event added to a day is overwritten by a later update of another event of the day |
| TemporalJudge.RecordedIsNoopIff | src/agents/judge.py:505-511 | an item gets NOOP alone exactly when the event found under its name agrees in all six fields with what the item reads back as; the store says what the item itself says exactly when, besides, no field contains '&#124;' |
| TemporalJudge.SameIff | src/agents/judge.py:651-691 | two events are the same exactly when each of their six fields has the same words up to the case of letters, and one is moved exactly when its date has others |
| Normalised.NormIff | src/agents/judge.py:651-652 | two texts are normalised alike exactly when their words are the same, in order, up to the case of the letters A to Z |
| Normalised.WordsOfText | src/agents/judge.py:652 | a word behind blanks and before another blank or the end is split off as it is |
| TemporalFields.ReadsBackIff | src/agents/judge.py:49-62 | the six-field line reads back exactly when every field is trimmed and free of '&#124;' |
| TemporalFields.PrintedIs | src/agents/judge.py:49-62 | the line: date, name, description, year, time and expression in this order |
| TemporalFields.JoinedField | src/agents/judge.py:669-672 | field by field, for any number of fields |
| CursorTranscript.ParseCursorTranscript | server.py:717-750 | the loop returns the specified pairs |
| CursorTranscript.RoundTripIff | server.py:717-750 | any printed pairs come back unchanged exactly when every text is trimmed and free of '---', every query is not empty, and no response contains '**Assistant**' |
| CursorTranscript.AssistantIsAbsorbed | server.py:736-747 | an answer under the assistant mark counts as well, unless it names the cursor mark |
| CursorTranscript.FirstQuestionIsKeptIff | server.py:721-727 | what stands before the first rule is a section like any other unless it says 'Exported on' |
| AntigravityTurns.NeverMixesIff | server.py:779-814 | the state machine reports the conversation exactly when no planner block that answers no question comes before a question |
| AntigravityTurns.MixedTurns | server.py:783-805 | every transcript that opens with the agent: its words join the answer to a later question |
| AntigravityTurns.ExchangesComeBack | server.py:783-814 | questions with their answers come back, answer blocks joined by a blank line |
| AntigravityTurns.JoinBlankAppend | server.py:783-814 | each answer block after the first stands behind a blank line |
| AntigravityTranscript.ParseAntigravityTranscript | server.py:753-816 | splitting, scanning and the final emission return the specified pairs |
| AntigravityTranscript.ScanBlocks | server.py:779-808 | the loop over blocks with its look back at the heading |
| AntigravityTranscript.PrintedBlocksIff | server.py:773-774 | for all turns: splitting the printed transcript gives its headings and contents, alternating, exactly when no heading starts in a text |
| AntigravityTranscript.PrintedParses | server.py:753-816 | the text parser sees the turns of a printed transcript in whose texts no heading and no carriage return before a line break hides, whatever stands before them |
| AntigravityTranscript.TranscriptNeverMixesIff | server.py:753-816 | for whole texts whose turns are legible (no heading starts in one, no carriage return before a line break): they parse to the conversation exactly when no planner block that answers no question comes before a question |
| AntigravityTranscript.PlainIsLegible | server.py:753-816 | texts without a line that starts with '###' and without carriage returns meet that condition |
| AntigravityTranscript.InnerHeadingCutsReply | server.py:797-805 | every answer with a heading of its own loses that heading and what follows it |
| AntigravityRoundTrip.RoundTripIff | server.py:753-816 | for all questions with their answers: printed and parsed they come back as the same pairs exactly when no heading starts in a text and no text holds a carriage return before a line break |
| AntigravityRoundTrip.UnfreeTurnsLose | server.py:773-814 | if a heading starts in a text, the pairs hold fewer '#' characters than the texts |
| AntigravityRoundTrip.QuietLeadsIn | server.py:773-774 | what stands before the first heading does not matter if no line of it starts with '###' |

## Left out

- MongoDB, Neo4j, Postgres and Pinecone drivers, indexes, sessions, back-off timing and connection fallback; a transaction is atomic and a graph query is one step.
- In-memory branches of grant, reserve and release: they make the same changes without a transaction, up to which of two errors comes first, and cannot fail half-way; only the in-memory commit can, and it is modelled.
- Recovery from a duplicate-key error inside a transaction: the model aborts with an error, and `LedgerHistory.KeysAreFresh` shows that no run gets there.
- Return values that are re-read after the fact: the wallet in `BillingService.reserve_credits` and the reservation after a release; row metadata and creation times.
- Ties among lots with equal expiry: the model keeps insertion order, which MongoDB does not promise; totals do not depend on it.
- Account creation and lookup (`ensure_account`): the account that belongs to an owner is a parameter.
- Plan tables, prices, currencies and payment calls: grants and final charges are arbitrary positive numbers; token counting, multiplier and buffer are parameters, over real numbers instead of floats.
- `chunk_text` with a negative chunk size; slices with negative ends.
- Edge properties, time stamps and node summaries as a guarantee: nested upserts overwrite summaries with defaults, and the model lets them.
- The number `delete_repository` returns, the read queries of the graph client, and retries of `create_annotation`, which makes a new annotation each time.
- Icon geometry and deflate: the pixel data of a PNG is arbitrary; `Buffer.from(type)` is taken as bytes.
- JavaScript's signed intermediate values in the CRC: `CrcArithmetic` uses unsigned words, which have the same bits.
- API key generation, hashing and scope normalisation; the in-memory and Postgres branches of the key store; database errors. Listing keys.
- ApiKeyCache.APIKeyStore.CreateApiKey: does not model what follows a rejected insertion, where the source falls back to keys kept in memory and still returns a key.
- Races around the limiter's lock: requests come in time order; times are real numbers.
- The language-model judge, image and summary domains, semantic search and result ranking: the profile store returns the first record of a key.
- The order in which the graph returns events of one name, which the queries leave open: `TemporalJudge` takes the first in the order they were created.
- BatchRecorded.LastEventsWinIff: about stores with at most one event of each name; with more, which one an item is matched with depends on the order just mentioned.
- Characters outside ASCII in `lower()`, case-insensitive matching and the digits of `int()`; other whitespace is Python's.
- AntigravityTranscript.TranscriptNeverMixesIff: about legible turns only; for questions with their answers `AntigravityRoundTrip.RoundTripIff` covers every text.
- CursorTranscript.RoundTripIff: about texts printed with Cursor's own layout under a header that names the export and holds no rule.
- Scraping, the language-model transcript parser, HTTP routes, middleware, metrics and the admin interface.
