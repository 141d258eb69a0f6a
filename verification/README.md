# Verified core of superform-go-utils

A Dafny model of the parts of the repository whose correctness does not show in any single function, with the
properties those parts are for proved over every input, every reachable state or every run.

* **Transaction manager** (`evm/txmngr`). `Protocol` states the nonce-lane protocol as legal events on the durable
  store and proves that each event keeps one invariant. `Runs` interleaves any number of managers, crashes, submitters
  and notification deliverers and derives the whole-run theorems; `Lifecycle` shows two complete lives as runs.
  `MemStore` is the in-memory provider as a class. `LaneView` proves what a lock holder can rely on while everybody
  else runs. `Backend` puts the node and the store behind methods whose answers are arbitrary, whose writes may be
  applied, lost, or applied and reported as failed, and after which all other managers run. `Manager` is the manager
  itself, from `processLaneBatch` down to fee collision recovery, and is proved to perform legal events only.
  `NonceCounter`, `Fees`, `LaneWork`, `RoundRobin`, `Messages` and `Outbox` hold the remaining pieces, and `Startup`
  puts a fresh service together.
* **Event indexer** (`evm/eventindexer`). `EventIndexer` is the registry as interleaved critical sections,
  `IndexerObject` the object whose methods are these sections.
* **Exchange-rate cache** (`providers/frankfurter`): `Frankfurter`.
* **Session single flight** (`providers/yahoo`): `ShareSessions` and `ShareClientObject`.
* **Exact decimals and orders** (`utils/units`, `utils/polymarket`): `Decimal`, `Units`, `Orders`.

## How the model reads

* A signed transaction is identified with its hash: signing is deterministic and Keccak is taken to be collision free.
* Nonces are below 2^64 - 1 (section "Specification" of EIP-2681), so the counter's `nonce + 1` does not wrap.
* Time is a non-decreasing natural number (seconds in the manager, nanoseconds in the rate cache).
* `SendTransaction` answers arrive already classified as a `Disposition`.
* Rows come from `SendTxAsync`: the sender is set and no raw transaction exists without attempts.
* What comes from outside is arbitrary. In the manager, node answers, the admission hook, cancellation and store
  failures are nondeterministic values inside methods. `Backend.told` keeps what the node and the hook said in the
  running step and `Backend.troubles` counts failed calls, cancellations and unresolvable collisions, so that a
  contract can say what a write is the answer to, and that a step or a batch stops short only in trouble. Elsewhere
  the answers are parameters.
* Methods named `Interfere` have an empty body and a wide contract: callers must live with anything the contract
  allows. `LaneView.OthersRely`, `Runs.StepKeepsWorld` and `ShareSessions.OthersKeepCall` show that the steps of
  other parties stay inside these contracts. The manager's own record and the runs are tied in both directions: what
  it records is legal in the state it happened in, which is what a run asks of a step, and `Backend.RunIsRecorded`
  shows that whatever a manager does in a run is such a record.

Where code and comments differ, the code is followed. Three places matter. `IsCanonicalUint256` accepts more than
canonical text: a plus sign before at most 77 digits, leading zeros included, and, where zero is allowed, a minus sign
before zeros. `Orders.CanonicalIff` states exactly what is accepted and that these signed texts are the only ones it
should not accept; `Orders.SignsAreAccepted` gives one text of each kind. The newest-candidate search of the rate cache
uses the zero date for "none", so an observation dated on the zero day is never served as a fallback
(`Frankfurter.Client.CachedStaleRate`, with the input in `Frankfurter.ZeroDayIsPassedOver`). A stale candidate is read
and written back in two critical sections, so it can replace a fresh rate that another caller stored in between:
`Frankfurter.FallbackLoses` gives the exact condition, `Frankfurter.FreshCanBeLost` an instance.

## Model

| member | source | states |
|---|---|---|
| Fees.MaxBigInt | evm/txmngr/txmngr.go:1191-1200 | the larger of two optional values; present when either is |
| Fees.BumpRaises | evm/txmngr/txmngr.go:1884-1896 | a bump never lowers a price and strictly raises a positive one |
| Fees.BumpMonotone | evm/txmngr/txmngr.go:1884-1896 | a higher price stays at least as high after the bump |
| Fees.BumpOutbidsByATenth | evm/txmngr/txmngr.go:1884-1896 | with the manager's coefficients a bump adds at least a tenth |
| Fees.BumpExact | evm/txmngr/txmngr.go:1884-1896 | how much a bump adds: r is the bump of p exactly when it is p and coef percent rounded down, or one wei more than a positive p where that adds nothing |
| Fees.FeeLadder | evm/txmngr/txmngr.go:1067-1106 | for any node suggestion the next attempt is at least eleven tenths of the previous one in every component |
| Fees.NextFeesFit | evm/txmngr/txmngr.go:1841-1880 | fees have the kind of the transaction, tip cap at most fee cap, and cover the floor |
| Fees.FeesAnswerTheNode | evm/txmngr/txmngr.go:1822-1896 | no price or tip is below the suggestion, price and tip are the exact bump of the highest of suggestion, previous attempt and floor, and the fee cap is twice the base fee plus the tip or, if that is more, the bump of the highest fee cap before |
| Fees.FloorSeparates | evm/txmngr/txmngr.go:774-832 | fees signed above a floor differ from every recorded positive fee below that floor |
| Fees.HighestAttemptFee | evm/txmngr/txmngr.go:1111-1169 | the floor is the least upper bound of the comparable attempts: it covers each, and each component is attained |
| Protocol.HashesDistinct | evm/txmngr/txmngr.go:1067-1106 | two attempts of one row never share a hash |
| Protocol.FeesClimb | evm/txmngr/txmngr.go:1067-1106 | along a row's attempts no fee component ever falls |
| Protocol.SaveAttemptKeepsInv | evm/txmngr/txmngr.go:774-832 | recording a legal attempt keeps the protocol invariant |
| Protocol.SaveRowKeepsInv | evm/txmngr/txmngr.go:1318-1387 | every legal row write, terminal or not, keeps the protocol invariant |
| Protocol.SendKeepsInv | evm/txmngr/txmngr.go:852-867 | handing the newest durable attempt to the node keeps the protocol invariant |
| Protocol.LegalKeepsInv | evm/txmngr/txmngr.go:542-712 | every legal event keeps the protocol invariant, so a crash between any two leaves it true |
| Runs.Always | evm/txmngr/txmngr.go:465-540 | in every state of every run of any number of managers the whole invariant holds |
| Runs.NoncesDistinctAndAcknowledged | evm/txmngr/txmngr.go:102-134 | no two rows of a lane hold one nonce, and of two the lower is below a pending nonce some node reported |
| Runs.NoCascade | evm/txmngr/txmngr.go:114-127 | at most one row of a lane sits beyond everything the node has acknowledged |
| Runs.AssignmentIsNewMaximum | evm/txmngr/txmngr.go:674-696 | a new assignment is above every nonce the lane holds and was reported by the node |
| Runs.RowsEvolve | evm/txmngr/txmngr_provider/mem/tx.go:109-136 | over any stretch a row keeps its identity, only gains attempts, and loses its nonce only by ending errored |
| Runs.NonceNeverChanges | evm/txmngr/txmngr.go:585-620 | an active row's nonce never changes once set |
| Runs.TerminalIsAbsorbing | evm/txmngr/txmngr_provider/mem/tx.go:109-136 | a terminal row never changes but for delivery fields, and not at all once acknowledged |
| Runs.ActiveRowShape | evm/txmngr/txmngr.go:585-642 | at most 5 attempts, all at the row's nonce, and a stored rejection names the newest one |
| Runs.AttemptsClimb | evm/txmngr/txmngr.go:1067-1106 | in every state each attempt outbids the one before by a tenth and keeps tip cap at most fee cap |
| Runs.OwnerForever | evm/txmngr/txmngr_provider/mem/tx.go:93-107 | a signed hash keeps its one owning row for ever |
| Runs.ReceiptCompletesOneRow | evm/txmngr/txmngr.go:1290-1305 | no receipt completes two rows, even at different times of a run |
| Runs.CompletedByOwnReceipt | evm/txmngr/txmngr.go:1236-1305 | a succeeded or failed row carries a receipt for one of its own attempts that the node really answered |
| Runs.CompletionNeedsReceipt | evm/txmngr/txmngr.go:1236-1305 | the step that completes a row is a write whose holder was shown exactly that receipt since its last durable write |
| Runs.SentIsDurable | evm/txmngr/txmngr.go:739-766 | whatever was sent was a durable attempt of its row then and in every later state |
| Runs.SettledMeansAnswered | evm/txmngr/txmngr.go:858-926 | a settled envelope got a definite answer after its latest send |
| Runs.OlderAttemptsAnswered | evm/txmngr/txmngr.go:643-672 | every attempt but the newest was definitely answered |
| Runs.ReplacementOverDefiniteAnswer | evm/txmngr/txmngr.go:698-711 | a replacement is recorded only over a definitely answered attempt |
| Runs.EvidenceIsTrue | evm/txmngr/txmngr.go:978-1042 | all evidence a lock holder acts on, receipts found and absences alike, is what the node answered it since its last durable write |
| Runs.ReleaseNeedsEvidence | evm/txmngr/txmngr.go:978-1042 | a nonce is given back only at the lane's maximum; by a signed row only after durable rejection, clean absent receipt and lookup for every attempt and a pending nonce equal to its own |
| Runs.EvidenceReadAfterRejection | evm/txmngr/txmngr.go:937-970 | that evidence was read while the row already carried the durable rejection |
| Runs.OutboxAtLeastOnce | evm/txmngr/txmngr_provider/mem/tx.go:331-336 | in every state a terminal row with an intent is selectable within a minute or a callback for it has succeeded |
| Runs.AckedMeansCalledBack | evm/txmngr/txmngr.go:1738-1759 | an acknowledgement exists only after a callback for that row succeeded |
| Runs.BackoffDoubles | evm/txmngr/txmngr.go:1770-1772 | the first pause is two seconds, and it doubles with every further failure until it is a minute |
| Runs.OneRowPerOperationKey | evm/txmngr/txmngr_provider/mem/tx.go:73-91 | over a whole run an operation key names one row |
| Lifecycle.SuccessIsReachable | evm/txmngr/txmngr.go:542-712 | the rules allow a whole life from submission to a mined success |
| Lifecycle.ReleaseIsReachable | evm/txmngr/txmngr.go:978-1042 | the rules allow a signed row to be rejected, proven absent and to give its nonce back |
| MemStore.SortIsPermutation | evm/txmngr/txmngr_provider/mem/tx.go:179-188 | sorting attempts by creation time loses and invents nothing |
| MemStore.SortIsOrdered | evm/txmngr/txmngr_provider/mem/tx.go:179-188 | the sorted attempts are in creation order |
| MemStore.SortKeepsOrdered | evm/txmngr/txmngr_provider/mem/tx.go:179-188 | attempts stored in creation order come back as stored, so "newest" means "stored last" |
| MemStore.WithNonce | evm/txmngr/txmngr_provider/mem/tx.go:190-216 | exactly the attempts at the nonce |
| MemStore.FilterCounts | evm/txmngr/txmngr_provider/mem/tx.go:203-207 | the filter keeps each attempt at the nonce as often as it was there |
| MemStore.TransactionsQ.InsertOrGet | evm/txmngr/txmngr_provider/mem/tx.go:73-91 | a used operation key yields its row or a conflict and stores nothing; otherwise the row is stored |
| MemStore.TransactionsQ.InsertAttempt | evm/txmngr/txmngr_provider/mem/tx.go:93-107 | a hash is recorded once; again for its row changes nothing, for another row is a conflict |
| MemStore.TransactionsQ.UpdateIfActive | evm/txmngr/txmngr_provider/mem/tx.go:109-119 | the write happens exactly when the stored row exists and is active |
| MemStore.TransactionsQ.UpdateNotification | evm/txmngr/txmngr_provider/mem/tx.go:121-136 | only the delivery fields of an unacknowledged terminal row change |
| MemStore.TransactionsQ.SelectAttempts | evm/txmngr/txmngr_provider/mem/tx.go:179-188 | a time-ordered permutation of the row's attempts |
| MemStore.TransactionsQ.SelectAttemptsByNonce | evm/txmngr/txmngr_provider/mem/tx.go:190-216 | exactly the attempts of the chain's rows at the nonce, whoever owns them, each as often as recorded, in creation order |
| MemStore.TransactionsQ.MaxAssignedNonce | evm/txmngr/txmngr_provider/mem/tx.go:238-258 | found exactly when the lane holds a nonce, and then the maximum, attained |
| MemStore.TransactionsQ.TryLockLane | evm/txmngr/txmngr_provider/mem/tx.go:275-291 | succeeds exactly when the lane was free, and only then takes it |
| MemStore.TransactionsQ.Unlock | evm/txmngr/txmngr_provider/mem/tx.go:266-273 | frees the lane and no other |
| LaneWork.LaneWorkReverses | evm/txmngr/txmngr_provider/mem/tx.go:361-393 | the lane-work comparison is antisymmetric and only equal ids tie |
| LaneWork.LaneWorkTransitive | evm/txmngr/txmngr_provider/mem/tx.go:361-393 | the lane-work comparison is transitive, hence a total order |
| LaneWork.CompareMeans | evm/txmngr/txmngr_provider/mem/tx.go:361-393 | the comparison is the order spelled out: lower nonce first, rows without one last, then earlier schedule, older row, smaller id |
| LaneWork.BatchAscends | evm/txmngr/txmngr_provider/mem/tx.go:138-164 | any selected batch ascends in that order, so its nonces never fall |
| LaneWork.LeftOutComesLater | evm/txmngr/txmngr_provider/mem/tx.go:138-164 | a ready row is left out only of a full batch and comes after every row taken |
| LaneWork.SelectLaneWork | evm/txmngr/txmngr_provider/mem/tx.go:138-164 | the ready rows of the lane, in order; with a full batch everything left out comes later; a zero limit is no limit |
| LaneWork.NonceOwnersFirst | evm/txmngr/txmngr_provider/mem/tx.go:368-393 | no limit lets an unassigned row into a batch before every ready nonce owner is in it |
| LaneView.RelyTransitive | evm/txmngr/txmngr.go:463-465 | what others may do while a lane is locked composes over any number of their steps |
| LaneView.OthersRely | evm/txmngr/txmngr.go:463-465 | every step of every other party stays within what the lock holder relies on |
| LaneView.RelyKeepsView | evm/txmngr/txmngr.go:484-494 | nothing a lock holder's decisions depend on is moved by others |
| LaneView.CanSaveIsLegal | evm/txmngr/txmngr.go:1318-1387 | a write justified by the holder's own view is a legal protocol event |
| LaneView.CanAttemptIsLegal | evm/txmngr/txmngr.go:774-832 | a signing justified by the holder's own view is a legal protocol event |
| LaneView.SaveChangesView | evm/txmngr/txmngr.go:102-134 | what a row write does to the row, its history and the lane's held nonces |
| LaneView.ViewFacts | evm/txmngr/txmngr.go:585-642 | the facts about an active row that the step's own checks turn on |
| NonceCounter.NonceLane.constructor | evm/txmngr/txmngr.go:484-494 | the counter starts as the exact image of the durable held nonces |
| NonceCounter.NonceLane.Observe | evm/txmngr/txmngr.go:108-112 | after an assignment the counter stands for the enlarged set |
| NonceCounter.NonceLane.Reserve | evm/txmngr/txmngr.go:122-127 | the node's nonce is usable exactly when it is above every held one |
| NonceCounter.NonceLane.IsTip | evm/txmngr/txmngr.go:132-134 | a held nonce is the tip exactly when it is the lane's maximum |
| Backend.RunIsRecorded | evm/txmngr/txmngr.go:463-540 | in any run, whatever a manager does while it holds a lane, with all others running in between, is such a record of legal events |
| Backend.Backend.SendTransaction | evm/txmngr/txmngr.go:852-867 | only the newest durable attempt goes out, and the row is settled exactly on a definite answer |
| Backend.Backend.UpdateIfActive | evm/txmngr/txmngr_provider/mem/tx.go:109-119 | applied, not applied, or applied and reported as failed; never stale under the lock |
| Backend.Backend.InsertAttempt | evm/txmngr/txmngr_provider/mem/tx.go:93-107 | the same three outcomes; a conflict means another row owns the hash and changes nothing |
| Backend.Backend.MaxAssignedNonce | evm/txmngr/txmngr.go:484-494 | the high-water mark read under the lock stays the maximum of what the lane holds |
| Backend.Backend.SelectLaneBatch | evm/txmngr/txmngr.go:496-507 | the batch is the lane's ready work in order and its rows stay current while the lock is held |
| Backend.Backend.AcquireLane | evm/txmngr/txmngr.go:469-482 | a lock is granted only on a free lane |
| Manager.TxManager.Scheduled | evm/txmngr/txmngr.go:1360-1387 | only status and times change; not before the given bound, not later than a block or the longer poll interval, never past the bump time of a row that can be bumped |
| Manager.TxManager.ScheduleNextCheckNotBefore | evm/txmngr/txmngr.go:1360-1387 | after success the stored row is the scheduled one; after a failed write it is that or the old one |
| Manager.TxManager.Terminal | evm/txmngr/txmngr.go:1318-1340 | a terminal row with an intent enters the outbox unacknowledged, one without is acknowledged |
| Manager.TxManager.PersistTerminal | evm/txmngr/txmngr.go:1318-1340 | the terminal row is stored and no other row of the batch is touched |
| Manager.TxManager.FinalizeTransaction | evm/txmngr/txmngr.go:1290-1305 | status follows the receipt of an own attempt and the nonce stays held |
| Manager.TxManager.AbandonTransaction | evm/txmngr/txmngr.go:1309-1316 | the row ends errored with exactly the nonce it was given |
| Manager.TxManager.FindKnownReceipt | evm/txmngr/txmngr.go:1236-1263 | a receipt found belongs to an own attempt; a clean miss means every attempt was answered absent |
| Manager.TxManager.FindKnownTransaction | evm/txmngr/txmngr.go:1265-1288 | the same for by-hash lookups |
| Manager.TxManager.PollConsumedNonce | evm/txmngr/txmngr.go:718-731 | abandoned exactly after the grace period, and the nonce stays held |
| Manager.TxManager.ReconcileRejectedSubmission | evm/txmngr/txmngr.go:978-1042 | decided by the answers: a known attempt is adopted; with all lookups absent, the nonce becomes consumed exactly when the pending nonce is above it, and equal to it at the tip it is given back; in every other case the row waits as it was |
| Manager.TxManager.GiveNonceBack | evm/txmngr/txmngr.go:1011-1023 | the lane's tip, still awaited by the node and known to it under no attempt, ends errored without its nonce |
| Manager.TxManager.Answered | evm/txmngr/txmngr.go:879-926 | rejection evidence is armed exactly by a permanent rejection that may be acted on |
| Manager.TxManager.HandleBroadcastFailure | evm/txmngr/txmngr.go:872-970 | a good receipt completes the row; otherwise the row left behind is exactly what the answer, the receipts, the lookups and the pending nonce call for, and only a permanent rejection of the tip can end in a release |
| Manager.TxManager.BroadcastAndSchedule | evm/txmngr/txmngr.go:852-867 | the newest durable attempt is sent from the state found, its answer follows, and the row left is exactly what that answer, and what was read after it, call for |
| Manager.SigningIsSound | evm/txmngr/txmngr.go:1044-1106 | what is signed is an envelope of this row at its nonce, on the fee ladder |
| Manager.SigningAnswersTheNode | evm/txmngr/txmngr.go:1067-1106 | the fees signed are bumped by fifteen percent per attempt, this one included, from the highest of suggestion, newest attempt and floor |
| Manager.ConflictNeedsZeroFees | evm/txmngr/txmngr.go:774-832 | a signing above the floor can conflict only if every fee recorded at the nonce is zero |
| Manager.TxManager.RaiseFloor | evm/txmngr/txmngr.go:817-828 | after a conflict a fee floor always exists unless the read fails, and it covers everything recorded for the lane at the nonce |
| Manager.TwinIsLatest | evm/txmngr/txmngr.go:774-832 | a hash the row itself already owns is its newest attempt's |
| Manager.TxManager.PersistUniqueAttempt | evm/txmngr/txmngr.go:774-832 | at most 8 signings and at most one new attempt, at the fees signing calls for; if some fee recorded at the nonce is positive, the second signing at the latest succeeds unless a node or store call fails |
| Manager.TxManager.CreateAndBroadcastAttempt | evm/txmngr/txmngr.go:733-766 | unless a call fails or a collision stays unresolved, one attempt is signed, recorded, opened and then sent exactly once, and the row left is what the answer calls for |
| Manager.TxManager.OpenAndBroadcast | evm/txmngr/txmngr.go:750-766 | the open broadcast is durable before the attempt is sent |
| Manager.TxManager.AssignNonce | evm/txmngr/txmngr.go:674-696 | the assigned nonce is the pending nonce just read, above everything held, and the counter follows; the row waits exactly when the node lags; a failed write left the old row or the assigned one |
| Manager.TxManager.Admitted | evm/txmngr/txmngr.go:650-667 | the step goes on exactly when there is no hook or it lets the row pass now; a deferred row waits until the time named; an expired unsigned row without a nonce or at the tip is released; an admitted row is untouched |
| Manager.TxManager.ExpireUnsigned | evm/txmngr/txmngr.go:650-661 | a row that was never signed ends errored and gives its nonce back, or the write failed |
| Manager.TxManager.Resend | evm/txmngr/txmngr.go:668-712 | an open broadcast or an exhausted row sends its newest attempt again, exactly once, and signs nothing |
| Manager.TxManager.FirstAttempt | evm/txmngr/txmngr.go:674-696 | a row without attempts gets a nonce if it has none, is signed and sent; it waits only if the node lags and fails only in trouble |
| Manager.TxManager.ReplaceAttempt | evm/txmngr/txmngr.go:698-711 | a settled attempt below the cap gains a replacement, which is recorded, opened and sent |
| Manager.TxManager.AttemptRow | evm/txmngr/txmngr.go:643-712 | behind an open gate exactly one send is made: of a new attempt for a fresh or settled row, of the newest one otherwise |
| Manager.TxManager.SettleRejection | evm/txmngr/txmngr.go:625-642 | a durable rejection waits while receipts are unclear and is reconciled otherwise |
| Manager.TxManager.AdvanceRow | evm/txmngr/txmngr.go:625-712 | the step does what the row calls for: settle a rejection, poll a consumed nonce, wait until the bump time, or attempt; a fresh row is assigned, signed and sent, and rows of this protocol never reach the "does not match" defect branches |
| Manager.TxManager.ValidatePersistedAttempts | evm/txmngr/txmngr.go:1202-1234 | accepts exactly the histories with one nonce, one signer and records matching their envelopes |
| Manager.TxManager.ProcessTransactionStep | evm/txmngr/txmngr.go:542-712 | a good receipt shown in the step completes the row; otherwise the step advances the row as its state and the answers call for, with at most one send, and a new attempt is durable before it is sent; it fails only in trouble, waits only for a lagging node, touches no other row of the batch and keeps the counter exact whenever the batch goes on |
| Manager.TxManager.RescheduleTransaction | evm/txmngr/txmngr.go:1669-1688 | an active row is put off by a block and keeps everything but status and times; a terminal one is left alone |
| Manager.TxManager.ProcessBatchRow | evm/txmngr/txmngr.go:509-540 | the batch goes on only if the counter is still the exact image of the durable lane, and stops only at a barrier or in trouble; a failed or unprocessable row is put off by a block |
| Manager.TxManager.WorkLane | evm/txmngr/txmngr.go:484-540 | the first 25 ready rows of the lane are stepped in order, on copies that are current, up to the first barrier or trouble |
| Manager.TxManager.ProcessLaneBatch | evm/txmngr/txmngr.go:465-540 | from any state with the invariant, a whole batch is a record of legal events that steps the selected rows in order and leaves the invariant and a free lane; a free lane is refused only in trouble |
| Outbox.NewRow | evm/txmngr/txmngr.go:293-349 | a new row has no nonce, no attempt and no status but pending, is due at once and carries the request |
| Outbox.Client.SendTxAsync | evm/txmngr/txmngr.go:293-349 | a key in use returns its row's id or a conflict and stores nothing; otherwise the row is stored for this sender and chain, due at once; the invariant stays |
| Outbox.Client.DeliverStatusNotification | evm/txmngr/txmngr.go:1738-1759 | a result is recorded exactly when nothing was cancelled and the write succeeds: an acknowledgement after a successful callback, a deferral by exactly the backoff after a failed one (that nothing undoes an acknowledgement is Runs.TerminalIsAbsorbing) |
| Startup.Start | evm/txmngr/txmngr.go:224-249 | a manager and its clients over an empty store start with the protocol invariant |
| Startup.SubmitAndProcess | evm/txmngr/txmngr.go:293-540 | from a fresh service, submitting and running a batch meets every precondition and keeps the invariant |
| RoundRobin.Scheduler.NextWorkChainIds | evm/txmngr/txmngr.go:445-461 | min(k, n) distinct chains, continuing the rotation where the last call stopped |
| RoundRobin.RotationDistinct | evm/txmngr/txmngr.go:445-461 | less than a full turn never repeats a chain |
| RoundRobin.CallsContinueOneRotation | evm/txmngr/txmngr.go:445-461 | calls with whatever limits serve one rotation without gap or overlap |
| RoundRobin.ServedFromPlace | evm/txmngr/txmngr.go:445-461 | what is served depends only on the reduced index the object stores |
| RoundRobin.Scheduler.Ticks | evm/txmngr/txmngr.go:424-461 | consecutive calls return what the fairness results are about |
| RoundRobin.EveryChainIsServed | evm/txmngr/txmngr.go:445-461 | any ceil(n / k) consecutive calls serve every chain |
| Messages.ToValidIsValid | evm/txmngr/txmngr.go:1389-1397 | sanitising yields valid UTF-8 and leaves valid text alone |
| Messages.Cut | evm/txmngr/txmngr.go:1432-1463 | a valid text may be cut before any byte that starts a character |
| Messages.MessageTail | evm/txmngr/txmngr.go:1453-1463 | the loop computes the specified tail |
| Messages.TailBounded | evm/txmngr/txmngr.go:1453-1463 | valid, within the limit, unchanged if it fits |
| Messages.TailIsLongest | evm/txmngr/txmngr.go:1453-1463 | every valid suffix that fits is kept |
| Messages.MessageHeadAndTail | evm/txmngr/txmngr.go:1432-1451 | the loop computes the specified head and tail |
| Messages.HeadAndTailBounded | evm/txmngr/txmngr.go:1432-1451 | valid, within the limit, unchanged if it fits |
| Messages.BothEndsSurvive | evm/txmngr/txmngr.go:1444-1450 | a valid beginning within the larger half of the budget and a valid end within the smaller half are both kept |
| Messages.AppendBounded | evm/txmngr/txmngr.go:1389-1414 | for any bytes the message is valid UTF-8 of at most 512 bytes |
| Messages.FirstSeparator | evm/txmngr/txmngr.go:1403-1406 | the separator can not overlap itself, so the first one found ends the reason |
| Messages.ReasonSurvives | evm/txmngr/txmngr.go:1389-1414 | over any sequence of appended errors a reason of at most 256 bytes without separator stays the verbatim prefix |
| Messages.LatestErrorSurvives | evm/txmngr/txmngr.go:1389-1414 | the newest error, if of at most 238 bytes, ends the message verbatim |
| Messages.NothingIsLost | evm/txmngr/txmngr.go:1389-1402 | what fits is kept as it is: the message, the separator and the whole error |
| Messages.RecentHistorySurvives | evm/txmngr/txmngr.go:1403-1414 | a message that does not fit keeps its reason and every valid end of its history that the rest of the budget holds |
| Messages.AttemptReasonIsKept | evm/txmngr/txmngr.go:1423-1430 | a broadcast reason names its attempt, fits in 256 bytes, and is kept whenever the provider's text has no separator |
| Messages.AttemptReasonQuotes | evm/txmngr/txmngr.go:1423-1430 | after its prefix the reason quotes the node: all of a text of at most 170 bytes, else a beginning and an end |
| EventIndexer.KeyIdentifies | evm/eventindexer/event_indexer.go:305-311 | keys agree exactly when chain, address and event list do |
| EventIndexer.StepKeepsInv | evm/eventindexer/event_indexer.go:120-260 | every critical section, cancellation and send keeps the registry invariant |
| EventIndexer.ExitKeepsInv | evm/eventindexer/event_indexer.go:244-260 | the cleanup of a registration keeps counts, closes and entries consistent |
| EventIndexer.Always | evm/eventindexer/event_indexer.go:120-294 | the registry invariant holds in every state of every interleaving |
| EventIndexer.CountIsLiveRegistrations | evm/eventindexer/event_indexer.go:180-187 | a channel's count is the number of its live registrations |
| EventIndexer.ClosedExactlyOnce | evm/eventindexer/event_indexer.go:255-259 | a channel is closed once if it was used and has no registration left, otherwise never |
| EventIndexer.NothingAfterClose | evm/eventindexer/event_indexer.go:284-291 | nothing is sent on a closed channel and it is not closed again |
| EventIndexer.ClosedByLastExit | evm/eventindexer/event_indexer.go:255-259 | only the exit of a channel's last registration closes it |
| EventIndexer.EntryOutlives | evm/eventindexer/event_indexer.go:251-254 | an old registration's exit never deletes a newer one under the same key |
| EventIndexer.StoppedAndDrained | evm/eventindexer/event_indexer.go:115-132 | with no live goroutine both maps are empty and every used channel is closed |
| EventIndexer.StopDrains | evm/eventindexer/event_indexer.go:115-132 | after a stop all registrations can leave, in any order, to empty maps |
| EventIndexer.StoppedStays | evm/eventindexer/event_indexer.go:136-141 | after a stop nothing joins |
| IndexerObject.Indexer.AddContract | evm/eventindexer/event_indexer.go:136-188 | all chains are registered exactly when the indexer runs, every chain has a reachable client and no key is taken; otherwise nothing changes, with the matching error |
| IndexerObject.Indexer.RemoveContract | evm/eventindexer/event_indexer.go:190-206 | exactly the contracts at the address, on the chains named if any are, leave the registry and are cancelled |
| IndexerObject.Indexer.Shutdown | evm/eventindexer/event_indexer.go:120-132 | stopped, with every registered contract cancelled |
| IndexerObject.Indexer.CleanUp | evm/eventindexer/event_indexer.go:244-260 | the channel is closed exactly when this was its last registration |
| Frankfurter.DecodeRates | providers/frankfurter/frankfurter.go:374-422 | a quote of a day is taken from the one usable row that states it; contradicted or non-positive ones are dropped |
| Frankfurter.OnceMeansUnique | providers/frankfurter/frankfurter.go:383-420 | "stated once" means that exactly one usable row is about that quote and day |
| Frankfurter.DecodedIsHonest | providers/frankfurter/frankfurter.go:374-422 | decoded rates are filed under their own day and not stale |
| Frankfurter.EffectiveDate | providers/frankfurter/frankfurter.go:297-307 | the requested day or today, never a day in the future |
| Frankfurter.EvictOne | providers/frankfurter/frankfurter.go:525-536 | evicting the day stored longest ago keeps maps aligned and the order of leaving |
| Frankfurter.OrderHolds | providers/frankfurter/frankfurter.go:510-537 | what was evicted had been stored before everything that stayed |
| Frankfurter.Client.CachedRate | providers/frankfurter/frankfurter.go:424-429 | a hit is an honest observation for that day |
| Frankfurter.Client.CachedStaleRate | providers/frankfurter/frankfurter.go:431-458 | the newest earlier observation still within the limit, judged by its own date; one is found exactly when some candidate is dated after the zero day |
| Frankfurter.ZeroDayIsPassedOver | providers/frankfurter/frankfurter.go:439-455 | with one observation, of the zero day, and a request for the next day, a candidate exists and none is found |
| Frankfurter.Client.CachedFailure | providers/frankfurter/frankfurter.go:460-477 | a failure suppresses exactly until its retry time and is then forgotten |
| Frankfurter.Client.StoreFailure | providers/frankfurter/frankfurter.go:479-495 | the failure is recorded, expired ones go, running ones stay |
| Frankfurter.Client.StoreRates | providers/frankfurter/frankfurter.go:510-537 | merged contents, equal key sets, at most maxCacheDays days, the most recently stored ones kept |
| Frankfurter.Client.Oldest | providers/frankfurter/frankfurter.go:526-533 | the unique day stored longest ago |
| Frankfurter.Client.Evict | providers/frankfurter/frankfurter.go:525-536 | the loop ends with exactly the limit, or with everything if it fitted |
| Frankfurter.Client.StoreFallback | providers/frankfurter/frankfurter.go:503-508 | the fallback is filed under the effective day and the cache stays honest; a fresh rate is lost exactly when the day already held one for the quote |
| Frankfurter.FallbackLoses | providers/frankfurter/frankfurter.go:503-537 | writing a fallback back replaces a fresh rate exactly when the day holds one for the quote at that moment |
| Frankfurter.FreshCanBeLost | providers/frankfurter/frankfurter.go:503-537 | a day whose fresh rate gives way to the observation of the day before |
| Frankfurter.FetchLosesNothing | providers/frankfurter/frankfurter.go:309-336 | storing what a response states never replaces a fresh rate by a stale one |
| Frankfurter.NewDaysFit | providers/frankfurter/frankfurter.go:510-537 | a response whose days fit the cache by themselves is in it as a whole afterwards |
| Frankfurter.Client.TakenRates | providers/frankfurter/frankfurter.go:309-336 | what a response states once, with a positive rate, is what a look for that day then finds |
| Frankfurter.Client.StaleRateOrError | providers/frankfurter/frankfurter.go:281-287 | a fallback served was written back under the effective day; none is served exactly when there was no candidate |
| Frankfurter.Client.FetchMonth | providers/frankfurter/frankfurter.go:309-336 | it succeeds exactly on a response with rows, then stored what the response states for the month up to today and cleared the month's failure; whatever the response, the cache stays honest |
| Frankfurter.Client.GetRate | providers/frankfurter/frankfurter.go:228-287 | a cached rate is returned as it is; beside any other traffic a returned rate is not from after the effective day, not older than the limit and stale exactly when earlier, and a fallback is served only after a suppressed or failed fetch or a look that missed since the last answer; a lone caller gets exactly the rate the response states |
| ShareSessions.EnterKeepsInv | providers/yahoo/share_statistics.go:96-114 | the first critical section keeps the invariant |
| ShareSessions.FinishKeepsInv | providers/yahoo/share_statistics.go:116-126 | the second critical section keeps the invariant |
| ShareSessions.SingleFlight | providers/yahoo/share_statistics.go:102-124 | at most one fetch runs, and one runs exactly while an attempt is pending |
| ShareSessions.GenerationCountsFetches | providers/yahoo/share_statistics.go:118-121 | the generation is the number of successful fetches |
| ShareSessions.RejectedNeverReturns | providers/yahoo/share_statistics.go:97-110 | a session handed out is newer than all that had been rejected when its caller came, and one generation has one crumb |
| ShareSessions.LaterCallsGetNewer | providers/yahoo/share_statistics.go:92-127 | whoever calls after a rejection was reported, and is answered at once, after a wait, by its own fetch or on a later call, never gets that generation |
| ShareSessions.OthersKeepCall | providers/yahoo/share_statistics.go:92-127 | a step of another caller leaves this caller's call alone |
| ShareClientObject.ShareClient.EnterSession | providers/yahoo/share_statistics.go:96-114 | use, wait or fetch, exactly as the shared state demands |
| ShareClientObject.ShareClient.FinishFetch | providers/yahoo/share_statistics.go:116-126 | the outcome is published and the flight ends |
| ShareClientObject.ShareClient.GetShareSession | providers/yahoo/share_statistics.go:92-127 | a usable session is returned at once; a caller that has to ask gets the crumb it was answered; any session obtained is newer than the rejected one, whatever others do |
| ShareClientObject.ShareClient.GetShareStatistics | providers/yahoo/share_statistics.go:32-62 | at most two requests, the second only after a refusal and with a strictly newer session; the outcome is that of the last one |
| Decimal.PowAdds | utils/units/units.go:17-19 | 10^(a+b) is 10^a times 10^b |
| Decimal.ReadPrinted | utils/units/units.go:51-53 | printing then reading a number gives it back, and the print is canonical |
| Decimal.PrintRead | utils/units/units.go:90-90 | reading then printing a canonical text gives it back |
| Decimal.ValueConcat | utils/units/units.go:84-90 | digits put together mean the shifted sum |
| Units.TrimRightZeros | utils/units/units.go:62-62 | exactly trailing zeros go |
| Units.ParseFormat | utils/units/units.go:47-95 | Parse(Format(a, d), d) = a for every integer and precision |
| Units.FormatInjective | utils/units/units.go:47-67 | two amounts never print alike |
| Units.ParseIsStable | utils/units/units.go:47-95 | parsing the print of a parsed text changes nothing |
| Units.ParseMeans | utils/units/units.go:71-95 | space around is dropped, a plus changes nothing, a minus negates, and digits before and after the dot are read at their places, exactly |
| Units.ParseOnly | utils/units/units.go:71-95 | nothing but such texts is accepted; too many fraction digits are refused, never rounded |
| Units.FormatMeans | utils/units/units.go:47-67 | a minus exactly below zero, a whole part without leading zeros, a fraction without trailing ones, and the amount at its places |
| Orders.AmountsRoundOneWay | utils/polymarket/order.go:244-266 | off the grid a BUY pays the ceiling and a SELL receives the floor |
| Orders.GridDivides | utils/polymarket/order.go:101-110 | on the supported grids price times size is a multiple of the scale |
| Orders.NormalizeSucceeds | utils/polymarket/order.go:244-266 | after the field checks normalisation can not fail and the collateral is exact and below the size |
| Orders.CanonicalIff | utils/polymarket/order.go:279-289 | exactly what is accepted: the canonical text of a uint256, or a plus before at most 77 digits, or a minus before zeros where zero is allowed; it does what its name says exactly off the signed texts |
| Orders.PrintedIsCanonical | utils/polymarket/order.go:279-289 | every canonical print is accepted |
| Orders.SignsAreAccepted | utils/polymarket/order.go:279-289 | "+007" and, where zero is allowed, "-0" are accepted though no number prints so |
| Orders.BuildOrderExact | utils/polymarket/order.go:88-166 | an order is built exactly when the field checks pass; amounts are exact and every number reads back |
| Orders.SidesSwap | utils/polymarket/order.go:242-266 | BUY and SELL of one price and size swap maker and taker amounts |
| Orders.FixedPointIff | utils/polymarket/order.go:292-325 | accepted are exactly the unsigned decimals without leading zeros, with one to decimals digits after a dot if there is one, whose value is a uint256 |
| Orders.FixedPointMeans | utils/polymarket/order.go:292-325 | and they are read at their places |
| Orders.FixedPointReadsFormat | utils/polymarket/order.go:292-325 | ParseFixedPoint(Format(a, d), d) = a for every uint256 and d up to 256 |
| Orders.ReadersAgree | utils/polymarket/order.go:292-325 | what ParseFixedPoint accepts, Parse reads as the same value |

## Left out

- The PostgreSQL provider: its SQL, JSON columns and advisory locks; the in-memory provider is the store.
- RPC clients, signing, Keccak, EIP-712 and msgpack encoding; error-string classification, redaction, logging, metrics.
- Legacy rows: an unset sender, or a raw transaction without attempts (evm/txmngr/txmngr.go:555-580).
- A lane lock that is lost while its holder still runs; the in-memory lock can not be lost.
- Message text inside manager steps: rows carry no `Msg`; the text functions are modelled on their own in `Messages`.
- MemStore.TransactionsQ.SelectAttemptsByNonce: does not order attempts of equal creation time by the text of their hash, because hashes are not texts here.
- Manager.TxManager.PollConsumedNonce: claims no clean receipt evidence, because the source abandons on this path even after a failed receipt read.
- Runs.ReleaseNeedsEvidence: says nothing about evidence for a row that never signed, because the source demands none.
- Messages.ReasonSurvives: leaves out reasons that contain the separator, which the source cuts at its first occurrence.
- Outbox.Client.SendTxAsync: takes the fresh id and the payload hash as inputs; the hash function itself is not modelled.
- EventIndexer.StepKeepsInv: assumes that a caller never registers a channel the indexer has already closed; the source would send on it and panic.
- IndexerObject.Indexer.RemoveContract: stops at the end of the critical section; the wait for the removed goroutines is their `Leave` steps.
- Reconnects and subscription errors of the indexer's goroutines, which do not touch the shared maps.
- Frankfurter.Client.GetRate: dates are whole days, cache keys are pairs and currency codes come normalized, so a base containing the key separator and the saturation of very long durations are not modelled.
- Frankfurter.Client.FetchMonth: the calendar is arbitrary, and the HTTP exchange is a parameter: rows, or nothing.
- Frankfurter.Client.TakenRates: asks that the days of the response fit the cache; which days of a larger one stay depends on the order of map iteration.
- Session cookies and the crumb request of the Yahoo client: a fetch yields any non-empty crumb or fails.
- Fees.NextFeesFit: fees are unbounded, so the panic on a fee above 2^256 - 1 is not modelled.
- Integer widths beyond nonces: sequence numbers, generations and attempt counters do not wrap.
- Float conversions, `Rescale` and percentage scaling in units; order hashing.
- Remaining providers, option builders, configuration, KMS signer, file loader, retry helper: plumbing or easy members.
