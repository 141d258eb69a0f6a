/** One manager instance of evm/txmngr/txmngr.go working on a lane whose lock it holds. */
module Manager {
  import opened TxTypes
  import opened Protocol
  import opened LaneView
  import opened MemStore
  import opened Backend
  import opened NonceCounter
  import opened LaneWork
  import F = Fees

  datatype StepResult = Done | StepStale | AwaitingNodeNonce | LaneStateChanged | Unprocessable | StepFailed
  {
    /** The batch goes on to its next row. */
    predicate Continues() {
      this == Done || this == StepStale || this == Unprocessable
    }
  }

  // durations in seconds
  const EXHAUSTED_POLL_INTERVAL: nat := 30
  const CONSUMED_NONCE_GRACE: nat := 120
  const REJECTION_GRACE: nat := 120
  const MAX_HASH_COLLISION_RESIGNS: nat := 8
  const MAX_TRANSACTIONS_PER_LANE: nat := 25

  function FromWrite(r: WriteResult): StepResult {
    match r
    case Saved => Done
    case SaveStale => StepStale
    case SaveFailed => StepFailed
  }

  /** The row as a step works on it: durable attempts dictate the transaction, and an attempt the row does
      not know yet counts as possibly broadcast. */
  function Adopted(row: Transaction, attempts: seq<Attempt>): Transaction {
    if attempts == [] then row
    else
      var latest := attempts[|attempts| - 1].tx;
      if row.tx == Some(latest) then row.(status := Confirming)
      else row.(status := Confirming, tx := Some(latest), broadcastPending := true)
  }

  lemma NothingToAdopt(row: Transaction)
    ensures Adopted(row, []) == row
  {
  }

  lemma LocalOkLast(attempts: seq<Attempt>, history: seq<Attempt>)
    requires LocalOk(attempts, history)
    ensures attempts != []
  {
  }

  lemma AdoptedCanAdvance(v: View)
    requires CanAdvance(v, v.row) && (forall i :: 0 <= i < |v.history| ==> OwnAttempt(v.row, v.history[i]))
    ensures CanAdvance(v, Adopted(v.row, v.history))
    ensures Adopted(v.row, v.history).assignedNonce == v.row.assignedNonce
  {
    if v.history != [] {
      assert OwnAttempt(v.row, v.history[|v.history| - 1]);
      assert Owns(v.history, Latest(v.history).hash);
    }
  }

  /** A good receipt of its own completed the row. */
  predicate CompletedBy(w: Transaction, t: Told) {
    && w.receipt.Some? && w.receipt.value in t.receipts && w.tx == Some(w.receipt.value.hash)
    && w.status == if w.receipt.value.ok then Succeed else Failed
  }

  /** The row gave its nonce back. */
  predicate Released(w: Transaction) {
    w.status == Errored && w.assignedNonce.None?
  }

  predicate AllIn(attempts: seq<Attempt>, hashes: set<Hash>) {
    forall i :: 0 <= i < |attempts| ==> attempts[i].hash in hashes
  }

  /** A send that was made: the attempts in hand, the newest of which went out, the answer, and when it was acted on. */
  datatype Sending = Sending(attempts: seq<Attempt>, answer: Disposition, now: nat)

  /** A send of the row's newest attempt at a moment when the row durably said that this very broadcast is open. */
  ghost predicate SentOpen(e: Entry, id: Id) {
    && e.event.Send? && e.event.id == id && id in e.before.rows
    && Att(e.before, id) != [] && Latest(Att(e.before, id)).hash == e.event.hash
    && e.before.rows[id].broadcastPending && e.before.rows[id].tx == Some(e.event.hash)
  }

  /** Such a send is on record after the first n actions. */
  ghost predicate WroteAhead(log: seq<Entry>, n: nat, id: Id) {
    exists i :: n <= i < |log| && SentOpen(log[i], id)
  }

  class TxManager {
    const b: Backend
    const sender: Address
    const clients: set<ChainId>
    const blockTimes: map<ChainId, nat>
    const bumpIntervals: map<ChainId, nat>
    const hasAdmission: bool

    constructor (backend: Backend, account: Address, chains: set<ChainId>, blocks: map<ChainId, nat>,
                 bumps: map<ChainId, nat>, admission: bool)
      ensures b == backend && sender == account && clients == chains
      ensures blockTimes == blocks && bumpIntervals == bumps && hasAdmission == admission
    {
      b, sender, clients := backend, account, chains;
      blockTimes, bumpIntervals, hasAdmission := blocks, bumps, admission;
    }

    function BlockTime(chain: ChainId): nat {
      if chain in blockTimes && blockTimes[chain] > 0 then blockTimes[chain] else 1
    }

    function BumpInterval(chain: ChainId): nat {
      if chain in bumpIntervals && bumpIntervals[chain] > 0 then bumpIntervals[chain] else 3 * BlockTime(chain)
    }

    function NextBumpAt(chain: ChainId, latest: Attempt): nat {
      latest.createdAt + BumpInterval(chain)
    }

    /** The row scheduleNextCheckNotBefore writes at time now. It is looked at again after a block, or after the longer
        poll interval once the budget or the nonce is gone; a row that can still be bumped is never looked at later than
        its bump time unless it was put off. */
    function Scheduled(tx: Transaction, attempts: seq<Attempt>, notBefore: nat, now: nat): (r: Transaction)
      ensures r == tx.(status := r.status, nextActionAt := r.nextActionAt, updatedAt := r.updatedAt)
      ensures r.updatedAt == now && r.nextActionAt >= notBefore
      ensures Bumpable(tx, attempts) ==> r.nextActionAt <= notBefore || r.nextActionAt <= now + BlockTime(tx.lane.chain)
      ensures attempts != [] && Bumpable(tx, attempts) && notBefore <= NextBumpAt(tx.lane.chain, Latest(attempts)) ==>
              r.nextActionAt <= NextBumpAt(tx.lane.chain, Latest(attempts))
      ensures Bumpable(tx, attempts) && notBefore != r.nextActionAt < now + BlockTime(tx.lane.chain) ==>
              attempts != [] && r.nextActionAt == NextBumpAt(tx.lane.chain, Latest(attempts))
      ensures !Bumpable(tx, attempts) ==>
              r.nextActionAt >= now + EXHAUSTED_POLL_INTERVAL &&
              (r.nextActionAt <= notBefore || r.nextActionAt == now + EXHAUSTED_POLL_INTERVAL)
      ensures r.status == if attempts == [] then tx.status else Confirming
      ensures !tx.IsCompleted() ==> !r.IsCompleted()
    {
      var afterBlock := now + BlockTime(tx.lane.chain);
      var next :=
        if tx.nonceConsumedAt.Some? || |attempts| >= MAX_FEE_REPLACEMENTS then now + EXHAUSTED_POLL_INTERVAL
        else if attempts != [] && NextBumpAt(tx.lane.chain, attempts[|attempts| - 1]) < afterBlock
        then NextBumpAt(tx.lane.chain, attempts[|attempts| - 1])
        else afterBlock;
      tx.(status := if attempts != [] then Confirming else tx.status,
          nextActionAt := if next < notBefore then notBefore else next,
          updatedAt := now)
    }

    static predicate Bumpable(tx: Transaction, attempts: seq<Attempt>) {
      tx.nonceConsumedAt.None? && |attempts| < MAX_FEE_REPLACEMENTS
    }

    /** w is tx, scheduled for its next check when it was written. */
    predicate Rescheduled(w: Transaction, tx: Transaction, attempts: seq<Attempt>, notBefore: nat) {
      w == Scheduled(tx, attempts, notBefore, w.updatedAt)
    }

    /** The row as it was, put off until a block after now or, at most, a block after the write. */
    predicate Waits(w: Transaction, tx: Transaction, attempts: seq<Attempt>, now: nat) {
      && w.nextActionAt >= now + BlockTime(tx.lane.chain) && Rescheduled(w, tx, attempts, w.nextActionAt)
      && (w.nextActionAt <= w.updatedAt + BlockTime(tx.lane.chain) || Rescheduled(w, tx, attempts, 0))
    }

    /** How an unfinished reconciliation leaves a rejected row, decided by what the node said in it: an attempt the
        node knows is adopted and the rejection forgotten; a node that knows none of them but is beyond the nonce marks
        it consumed; in every other case the row waits as it was, unless the nonce can be given back. */
    ghost predicate ReconciledBy(w: Transaction, tx: Transaction, attempts: seq<Attempt>, t: Told, now: nat,
                                 canReleaseNonce: bool)
      requires attempts != []
    {
      if t.known != {} then Adopts(w, tx, attempts, t.known)
      else if t.lookupUnclear then Waits(w, tx, attempts, now)
      else
        && AllIn(attempts, t.absent)
        && (if t.pending.Some? && t.pending.value > Latest(attempts).nonce
            then Rescheduled(w, tx.(nonceConsumedAt := Some(now), broadcastPending := false, rejectedAttempt := None),
                             attempts, 0)
            else Waits(w, tx, attempts, now) && !(canReleaseNonce && t.pending == Some(Latest(attempts).nonce)))
    }

    ghost predicate Adopts(w: Transaction, tx: Transaction, attempts: seq<Attempt>, known: set<Hash>) {
      && w.tx.Some? && w.tx.value in known
      && Rescheduled(w, tx.(tx := w.tx, broadcastPending := false, rejectedAttempt := None), attempts, 0)
    }

    /** The row that the answer to a send leaves behind when nothing completes it. Unless the node accepted, the
        receipts of all attempts were asked for after the answer. */
    ghost predicate AnsweredRow(w: Transaction, tx: Transaction, s: Sending, firstAttemptThisPass: bool,
                                nonceReleasable: bool, t: Told)
      requires s.attempts != []
    {
      var latest := Latest(s.attempts);
      if s.answer == Accepted then
        Rescheduled(w, tx.(broadcastPending := false, rejectedAttempt := None), s.attempts, 0)
      else
        var may := MayReconcile(latest, firstAttemptThisPass, nonceReleasable, s.now);
        var row := Answered(tx, latest.hash, s.answer, may, s.now);
        && AllIn(s.attempts, t.asked)
        && (if s.answer != RejectedPermanent then Rescheduled(w, row, s.attempts, 0)
            else if !may then Rescheduled(w, row, s.attempts, latest.createdAt + REJECTION_GRACE)
            else if t.receiptUnclear then Waits(w, row, s.attempts, s.now)
            else ReconciledBy(w, row, s.attempts, t, s.now, nonceReleasable))
    }

    method ScheduleNextCheckNotBefore(ghost lane: Lane, tx: Transaction, attempts: seq<Attempt>, notBefore: nat)
      returns (res: StepResult)
      requires b.On(lane, tx.id) && CanAdvance(b.V(lane, tx.id), tx) &&
        tx.assignedNonce == b.V(lane, tx.id).row.assignedNonce
      modifies b, b.q
      ensures b.Kept(lane, tx.id)
      ensures res == Done || res == LaneStateChanged ==> b.Wrote(tx.id, |old(b.log)|)
      ensures res == Done || res == StepFailed
      ensures
        var v, w := old(b.V(lane, tx.id)), b.V(lane, tx.id);
        && w.history == v.history && w.settled == v.settled && w.held == v.held && w.peers == v.peers
        && (w == v || w.row == Scheduled(tx, attempts, notBefore, old(b.clock)))
        && (res == Done ==> w.row == Scheduled(tx, attempts, notBefore, old(b.clock)))
        && (res == Done ==> Rescheduled(w.row, tx, attempts, notBefore))
      ensures res == Done ==> b.ev == NOTHING
      ensures b.told == old(b.told)
      ensures res == StepFailed ==> b.Troubled()
      ensures res == Done ==> b.V(lane, tx.id).row.receipt.None? && !b.V(lane, tx.id).row.IsCompleted()
      ensures res == Done ==> b.V(lane, tx.id).row.nextActionAt >= notBefore
    {
      hide Inv, LogOk, AllWorking, Held, Peers, b.Ready, b.On, b.V;
      var row := Scheduled(tx, attempts, notBefore, b.clock);
      var r := b.UpdateIfActive(lane, row);
      res := FromWrite(r);
    }

    method ScheduleNextCheck(ghost lane: Lane, tx: Transaction, attempts: seq<Attempt>) returns (res: StepResult)
      requires b.On(lane, tx.id) && CanAdvance(b.V(lane, tx.id), tx) &&
        tx.assignedNonce == b.V(lane, tx.id).row.assignedNonce
      modifies b, b.q
      ensures b.Kept(lane, tx.id)
      ensures res == Done || res == LaneStateChanged ==> b.Wrote(tx.id, |old(b.log)|)
      ensures res == Done || res == StepFailed
      ensures
        var v, w := old(b.V(lane, tx.id)), b.V(lane, tx.id);
        && w.history == v.history && w.settled == v.settled && w.held == v.held && w.peers == v.peers
        && (res == Done ==> w.row == Scheduled(tx, attempts, 0, old(b.clock)) && Rescheduled(w.row, tx, attempts, 0))
      ensures res == Done ==> b.ev == NOTHING
      ensures b.told == old(b.told)
      ensures res == StepFailed ==> b.Troubled()
      ensures res == Done ==> b.V(lane, tx.id).row.receipt.None? && !b.V(lane, tx.id).row.IsCompleted()
    {
      res := ScheduleNextCheckNotBefore(lane, tx, attempts, 0);
    }

    method ScheduleRetryAfterBlock(ghost lane: Lane, tx: Transaction, attempts: seq<Attempt>) returns (res: StepResult)
      requires b.On(lane, tx.id) && CanAdvance(b.V(lane, tx.id), tx) &&
        tx.assignedNonce == b.V(lane, tx.id).row.assignedNonce
      modifies b, b.q
      ensures b.Kept(lane, tx.id)
      ensures res == Done || res == LaneStateChanged ==> b.Wrote(tx.id, |old(b.log)|)
      ensures res == Done || res == StepFailed
      ensures
        var v, w := old(b.V(lane, tx.id)), b.V(lane, tx.id);
        && w.history == v.history && w.held == v.held && w.peers == v.peers
        && (res == Done ==> Waits(w.row, tx, attempts, old(b.clock))
                            && w.row == Scheduled(tx, attempts, old(b.clock) + BlockTime(tx.lane.chain), old(b.clock)))
      ensures b.told == old(b.told)
      ensures res == StepFailed ==> b.Troubled()
      ensures res == Done ==> b.V(lane, tx.id).row.receipt.None? && !b.V(lane, tx.id).row.IsCompleted()
    {
      hide Inv, LogOk, AllWorking, Held, Peers, b.Ready, b.On, b.V, CanAdvance;
      res := ScheduleNextCheckNotBefore(lane, tx, attempts, b.clock + BlockTime(tx.lane.chain));
    }

    /** The row persistTerminal writes: intent-backed rows enter the outbox, the others are done. */
    static function Terminal(tx: Transaction, now: nat): (r: Transaction)
      ensures EntersOutbox(r)
      ensures r == tx.(updatedAt := r.updatedAt, nextActionAt := r.nextActionAt, notifiedAt := r.notifiedAt,
                       notificationAttempts := r.notificationAttempts, nextNotificationAt := r.nextNotificationAt)
      ensures r.HasIntent() ==> r.notificationAttempts == 0 && r.nextNotificationAt == now
    {
      var done := tx.(updatedAt := now, nextActionAt := now);
      if tx.HasIntent() then done.(notifiedAt := None, notificationAttempts := 0, nextNotificationAt := now)
      else done.(notifiedAt := Some(now))
    }

    method PersistTerminal(ghost lane: Lane, tx: Transaction) returns (res: StepResult)
      requires b.On(lane, tx.id) && CanEnd(b.V(lane, tx.id), b.ev, tx)
      modifies b, b.q
      ensures b.Kept(lane, tx.id)
      ensures res == Done || res == LaneStateChanged ==> b.Wrote(tx.id, |old(b.log)|)
      ensures res == Done || res == StepFailed
      ensures
        var v, w := old(b.V(lane, tx.id)), b.V(lane, tx.id);
        && w.history == v.history && w.peers == v.peers
        && (tx.assignedNonce == v.row.assignedNonce ==> w.held == v.held)
        && (res == Done ==> w.row == Seen(Terminal(tx, old(b.clock))))
      ensures b.told == old(b.told)
      ensures res == StepFailed ==> b.Troubled()
    {
      hide Inv, LogOk, AllWorking, Held, Peers, b.Ready, b.On, b.V, CanFinalize, Top, ProvenUnadmitted, Owns;
      var row := Terminal(tx, b.clock);
      TerminalCanSave(b.V(lane, tx.id), b.ev, tx, row);
      var r := b.UpdateIfActive(lane, row);
      res := FromWrite(r);
    }

    method FinalizeTransaction(ghost lane: Lane, tx: Transaction, winner: Envelope, receipt: Receipt)
      returns (res: StepResult)
      requires b.On(lane, tx.id) && Carries(b.V(lane, tx.id), tx)
      requires tx.assignedNonce == b.V(lane, tx.id).row.assignedNonce && tx.assignedNonce.Some?
      requires receipt in b.ev.receipts && Owns(b.V(lane, tx.id).history, receipt.hash) && winner == receipt.hash
      modifies b, b.q
      ensures b.Kept(lane, tx.id)
      ensures res == Done || res == LaneStateChanged ==> b.Wrote(tx.id, |old(b.log)|)
      ensures res == Done || res == StepFailed
      ensures
        var v, w := old(b.V(lane, tx.id)), b.V(lane, tx.id);
        && w.history == v.history && w.peers == v.peers && w.held == v.held
        && (res == Done ==> w.row.receipt == Some(receipt) && w.row.status == (if receipt.ok then Succeed else Failed)
                            && w.row.tx == Some(winner) && w.row.assignedNonce == tx.assignedNonce)
      ensures b.told == old(b.told)
      ensures res == StepFailed ==> b.Troubled()
    {
      hide Inv, LogOk, AllWorking, Held, Peers, b.Ready, b.On, b.V, Owns, CanRelease;
      var row := tx.(tx := Some(winner), receipt := Some(receipt), rejectedAttempt := None,
                     status := if receipt.ok then Succeed else Failed);
      res := PersistTerminal(lane, row);
    }

    method AbandonTransaction(ghost lane: Lane, tx: Transaction) returns (res: StepResult)
      requires b.On(lane, tx.id) && CanEnd(b.V(lane, tx.id), b.ev, tx.(status := Errored, rejectedAttempt := None))
      modifies b, b.q
      ensures b.Kept(lane, tx.id)
      ensures res == Done || res == LaneStateChanged ==> b.Wrote(tx.id, |old(b.log)|)
      ensures res == Done || res == StepFailed
      ensures
        var v, w := old(b.V(lane, tx.id)), b.V(lane, tx.id);
        && w.history == v.history && w.peers == v.peers
        && (tx.assignedNonce == v.row.assignedNonce ==> w.held == v.held)
        && (res == Done ==> w.row.status == Errored && w.row.assignedNonce == tx.assignedNonce
                            && w.row.receipt == tx.receipt)
      ensures b.told == old(b.told)
      ensures res == StepFailed ==> b.Troubled()
    {
      hide Inv, LogOk, AllWorking, Held, Peers, b.Ready, b.On, b.V, CanEnd;
      var row := tx.(status := Errored, rejectedAttempt := None);
      res := PersistTerminal(lane, row);
    }

    /** Look for a mined attempt. A receipt for another hash or with an unknown status is a failed read, and one
        failed read makes the whole search inconclusive unless a later attempt is found mined. */
    method FindKnownReceipt(ghost lane: Lane, ghost id: Id, attempts: seq<Attempt>)
      returns (found: Option<Receipt>, failed: bool)
      requires b.On(lane, id)
      modifies b, b.q
      ensures b.Kept(lane, id) && b.V(lane, id) == old(b.V(lane, id))
      ensures found.Some? ==> found.value in b.ev.receipts && Owns(attempts, found.value.hash)
      ensures found.None? && !failed ==> forall i :: 0 <= i < |attempts| ==> attempts[i].hash in b.ev.noReceipt
      ensures b.ev == old(b.ev).(receipts := b.ev.receipts, noReceipt := b.ev.noReceipt)
      ensures b.told == old(b.told).(receipts := b.told.receipts, asked := b.told.asked,
                                     receiptUnclear := b.told.receiptUnclear)
      ensures found.Some? ==> found.value in b.told.receipts
      ensures found.None? ==> b.told.receipts == old(b.told.receipts) && AllIn(attempts, b.told.asked)
      ensures found.None? ==> (b.told.receiptUnclear <==> old(b.told.receiptUnclear) || failed)
    {
      hide Inv, LogOk, AllWorking, Held, Peers, b.Ready, b.On, b.V;
      found, failed := None, false;
      for k := 0 to |attempts|
        invariant b.Kept(lane, id) && b.V(lane, id) == old(b.V(lane, id))
        invariant found.None?
        invariant !failed ==> forall i :: 0 <= i < k ==> attempts[i].hash in b.ev.noReceipt
        invariant b.ev == old(b.ev).(receipts := b.ev.receipts, noReceipt := b.ev.noReceipt)
        invariant b.told == old(b.told).(receipts := b.told.receipts, asked := b.told.asked,
                                         receiptUnclear := b.told.receiptUnclear)
        invariant b.told.receipts == old(b.told.receipts) &&
          (b.told.receiptUnclear <==> old(b.told.receiptUnclear) || failed)
        invariant forall i :: 0 <= i < k ==> attempts[i].hash in b.told.asked
      {
        var a := b.TransactionReceipt(lane, id, attempts[k].hash);
        if GoodReceipt(attempts[k].hash, a) {
          found := Some(Receipt(attempts[k].hash, a.status == 1));
          return;
        }
        if !a.NoReceipt? {
          failed := true;
        }
      }
    }

    /** Look for an attempt the node knows, pending or mined. */
    method FindKnownTransaction(ghost lane: Lane, ghost id: Id, attempts: seq<Attempt>)
      returns (known: Option<Envelope>, failed: bool)
      requires b.On(lane, id) && (forall i :: 0 <= i < |attempts| ==> attempts[i].tx == attempts[i].hash)
      modifies b, b.q
      ensures b.Kept(lane, id) && b.V(lane, id) == old(b.V(lane, id))
      ensures known.Some? ==> Owns(attempts, known.value)
      ensures known.None? && !failed ==> forall i :: 0 <= i < |attempts| ==> attempts[i].hash in b.ev.noTransaction
      ensures b.ev == old(b.ev).(noTransaction := b.ev.noTransaction)
      ensures b.told == old(b.told).(known := b.told.known, absent := b.told.absent,
                                     lookupUnclear := b.told.lookupUnclear)
      ensures known.Some? ==> b.told.known == old(b.told.known) + {known.value}
      ensures known.None? ==> b.told.known == old(b.told.known)
      ensures known.None? ==> (b.told.lookupUnclear <==> old(b.told.lookupUnclear) || failed)
      ensures known.None? && !failed ==> AllIn(attempts, b.told.absent)
    {
      hide Inv, LogOk, AllWorking, Held, Peers, b.Ready, b.On, b.V;
      known, failed := None, false;
      for k := 0 to |attempts|
        invariant b.Kept(lane, id) && b.V(lane, id) == old(b.V(lane, id))
        invariant known.None?
        invariant !failed ==> forall i :: 0 <= i < k ==> attempts[i].hash in b.ev.noTransaction
        invariant b.ev == old(b.ev).(noTransaction := b.ev.noTransaction)
        invariant b.told == old(b.told).(known := b.told.known, absent := b.told.absent,
                                         lookupUnclear := b.told.lookupUnclear)
        invariant b.told.known == old(b.told.known) && (b.told.lookupUnclear <==> old(b.told.lookupUnclear) || failed)
        invariant !failed ==> forall i :: 0 <= i < k ==> attempts[i].hash in b.told.absent
      {
        var a := b.TransactionByHash(lane, id, attempts[k].hash);
        if a.FoundTransaction? && a.txHash == attempts[k].hash {
          known := Some(attempts[k].tx);
          return;
        }
        if !a.NoTransaction? {
          failed := true;
        }
      }
    }

    /** A nonce the node called used gets a grace period for a late receipt; then the row is abandoned and
        keeps its nonce. */
    method PollConsumedNonce(ghost lane: Lane, tx: Transaction, attempts: seq<Attempt>) returns (res: StepResult)
      requires b.On(lane, tx.id) && CanAdvance(b.V(lane, tx.id), tx)
      requires tx.assignedNonce == b.V(lane, tx.id).row.assignedNonce && tx.assignedNonce.Some?
      requires tx.nonceConsumedAt.Some? && tx.nonceConsumedAt == b.V(lane, tx.id).row.nonceConsumedAt
      modifies b, b.q
      ensures b.Kept(lane, tx.id)
      ensures res == Done || res == LaneStateChanged ==> b.Wrote(tx.id, |old(b.log)|)
      ensures res == Done || res == StepFailed
      ensures
        var v, w := old(b.V(lane, tx.id)), b.V(lane, tx.id);
        && w.history == v.history && w.peers == v.peers && w.held == v.held
        && (res == Done ==>
                (w.row.status == Errored <==> old(b.clock) > tx.nonceConsumedAt.value + CONSUMED_NONCE_GRACE))
        && (res == Done ==> w.row.assignedNonce == tx.assignedNonce)
        && (res == Done && w.row.status != Errored ==> Rescheduled(w.row, tx, attempts, 0))
        && (res == Done ==> w.row.receipt.None?)
      ensures b.told == old(b.told)
      ensures res == StepFailed ==> b.Troubled()
    {
      hide Inv, LogOk, AllWorking, Held, Peers, b.Ready, b.On, b.V, Owns, Top, ProvenUnadmitted;
      if b.clock > tx.nonceConsumedAt.value + CONSUMED_NONCE_GRACE {
        res := AbandonTransaction(lane, tx);
      } else {
        res := ScheduleNextCheck(lane, tx, attempts);
      }
    }

    /** Resolve a durable, explicit rejection of the newest attempt: positive evidence wins, a node still waiting at
        the nonce lets the lane's tip release it, a node beyond it marks the nonce consumed. */
    method ReconcileRejectedSubmission(ghost lane: Lane, tx: Transaction, attempts: seq<Attempt>, now: nat,
                                       canReleaseNonce: bool)
      returns (res: StepResult)
      requires b.On(lane, tx.id) && CanAdvance(b.V(lane, tx.id), tx)
      requires LocalOk(attempts, b.V(lane, tx.id).history)
      requires tx.assignedNonce == b.V(lane, tx.id).row.assignedNonce &&
        tx.assignedNonce == Some(Latest(attempts).nonce)
      requires tx.rejectedAttempt.Some? && b.V(lane, tx.id).row.rejectedAttempt == tx.rejectedAttempt
      requires forall i :: 0 <= i < |attempts| ==> attempts[i].hash in b.ev.noReceipt
      requires canReleaseNonce ==> Top(b.V(lane, tx.id).held, tx.assignedNonce.value)
      requires now <= b.clock
      modifies b, b.q
      ensures b.Kept(lane, tx.id)
      ensures res == Done || res == LaneStateChanged ==> b.Wrote(tx.id, |old(b.log)|)
      ensures res == Done || res == StepFailed || res == LaneStateChanged
      ensures
        var v, w := old(b.V(lane, tx.id)), b.V(lane, tx.id);
        && w.history == v.history && w.peers == v.peers
        && (res == Done ==> w.held == v.held && w.row.assignedNonce == tx.assignedNonce)
        && (res == Done ==> ReconciledBy(w.row, tx, attempts, b.told, now, canReleaseNonce) && w.row.receipt.None?)
        && (res == LaneStateChanged ==> canReleaseNonce && Released(w.row))
      ensures b.told == AskAgain(old(b.told)).(known := b.told.known, absent := b.told.absent,
                                               lookupUnclear := b.told.lookupUnclear, pending := b.told.pending)
      ensures res == LaneStateChanged ==>
        b.told.known == {} && AllIn(attempts, b.told.absent) && b.told.pending == Some(Latest(attempts).nonce)
      ensures res == StepFailed ==> b.Troubled()
    {
      hide Inv, LogOk, AllWorking, Held, Peers, b.Ready, b.On, b.V, Top, Scheduled;
      b.Hear(lane, tx.id, AskAgain(b.told), false);
      var known, failed := FindKnownTransaction(lane, tx.id, attempts);
      if known.Some? {
        LocalOwns(attempts, b.V(lane, tx.id).history, known.value);
        var row := tx.(tx := known, broadcastPending := false, rejectedAttempt := None);
        res := ScheduleNextCheck(lane, row, attempts);
        return;
      }
      if failed {
        ghost var later := b.clock;
        res := ScheduleRetryAfterBlock(lane, tx, attempts);
        if res == Done {
          WaitsSince(b.V(lane, tx.id).row, tx, attempts, later, now);
        }
        return;
      }
      res := ReconcileAbsent(lane, tx, attempts, now, canReleaseNonce);
    }

    /** The part of reconcileRejectedSubmission after clean "absent" lookups. */
    method ReconcileAbsent(ghost lane: Lane, tx: Transaction, attempts: seq<Attempt>, now: nat, canReleaseNonce: bool)
      returns (res: StepResult)
      requires b.On(lane, tx.id) && CanAdvance(b.V(lane, tx.id), tx)
      requires LocalOk(attempts, b.V(lane, tx.id).history)
      requires tx.assignedNonce == b.V(lane, tx.id).row.assignedNonce &&
        tx.assignedNonce == Some(Latest(attempts).nonce)
      requires tx.rejectedAttempt.Some? && b.V(lane, tx.id).row.rejectedAttempt == tx.rejectedAttempt
      requires forall i :: 0 <= i < |attempts| ==>
        attempts[i].hash in b.ev.noReceipt && attempts[i].hash in b.ev.noTransaction
      requires canReleaseNonce ==> Top(b.V(lane, tx.id).held, tx.assignedNonce.value)
      requires now <= b.clock && b.told.known == {} && !b.told.lookupUnclear && AllIn(attempts, b.told.absent)
      modifies b, b.q
      ensures b.Kept(lane, tx.id)
      ensures res == Done || res == LaneStateChanged ==> b.Wrote(tx.id, |old(b.log)|)
      ensures res == Done || res == StepFailed || res == LaneStateChanged
      ensures
        var v, w := old(b.V(lane, tx.id)), b.V(lane, tx.id);
        && w.history == v.history && w.peers == v.peers
        && (res == Done ==> w.held == v.held && w.row.assignedNonce == tx.assignedNonce)
        && (res == Done ==> ReconciledBy(w.row, tx, attempts, b.told, now, canReleaseNonce) && w.row.receipt.None?)
        && (res == LaneStateChanged ==> canReleaseNonce && Released(w.row))
      ensures b.told == old(b.told).(pending := b.told.pending)
      ensures res == LaneStateChanged ==> b.told.pending == Some(Latest(attempts).nonce)
      ensures res == StepFailed ==> b.Troubled()
    {
      hide Inv, LogOk, AllWorking, Held, Peers, b.Ready, b.On, b.V, Top, Owns, Scheduled, Rescheduled, Waits, AllIn;
      var latest := attempts[|attempts| - 1];
      var pendingNonce := b.PendingNonceAt(lane, tx.id);
      if pendingNonce.Some? && pendingNonce.value == latest.nonce && canReleaseNonce {
        res := GiveNonceBack(lane, tx, attempts);
      } else if pendingNonce.Some? && pendingNonce.value > latest.nonce {
        var row := tx.(nonceConsumedAt := Some(now), broadcastPending := false, rejectedAttempt := None);
        res := ScheduleNextCheck(lane, row, attempts);
      } else {
        ghost var later := b.clock;
        res := ScheduleRetryAfterBlock(lane, tx, attempts);
        if res == Done {
          WaitsSince(b.V(lane, tx.id).row, tx, attempts, later, now);
        }
      }
    }

    /** The release itself: the node still waits at the nonce of the lane's tip and knows none of its attempts. */
    method GiveNonceBack(ghost lane: Lane, tx: Transaction, ghost attempts: seq<Attempt>) returns (res: StepResult)
      requires b.On(lane, tx.id) && CanAdvance(b.V(lane, tx.id), tx) && LocalOk(attempts, b.V(lane, tx.id).history)
      requires tx.assignedNonce == b.V(lane, tx.id).row.assignedNonce && tx.assignedNonce.Some?
      requires tx.rejectedAttempt.Some? && b.V(lane, tx.id).row.rejectedAttempt == tx.rejectedAttempt
      requires forall i :: 0 <= i < |attempts| ==>
        attempts[i].hash in b.ev.noReceipt && attempts[i].hash in b.ev.noTransaction
      requires b.ev.pending == tx.assignedNonce && Top(b.V(lane, tx.id).held, tx.assignedNonce.value)
      modifies b, b.q
      ensures b.Kept(lane, tx.id)
      ensures res == LaneStateChanged ==> b.Wrote(tx.id, |old(b.log)|)
      ensures res == LaneStateChanged || res == StepFailed
      ensures
        var v, w := old(b.V(lane, tx.id)), b.V(lane, tx.id);
        && w.history == v.history && w.peers == v.peers
        && (res == LaneStateChanged ==> Released(w.row))
      ensures b.told == old(b.told)
      ensures res == StepFailed ==> b.Troubled()
    {
      hide Inv, LogOk, AllWorking, Held, Peers, b.Ready, b.On, b.V, Top, Owns;
      var row := tx.(assignedNonce := None, broadcastPending := false);
      res := AbandonTransaction(lane, row);
      if res == Done {
        res := LaneStateChanged;
      }
    }

    /** A rejection may be acted on at once if this pass signed the first attempt at the tip, else after the grace. */
    static predicate MayReconcile(latest: Attempt, firstAttemptThisPass: bool, nonceReleasable: bool, now: nat) {
      (firstAttemptThisPass && nonceReleasable) || now >= latest.createdAt + REJECTION_GRACE
    }

    /** What a row remembers about a send that was not accepted: rejection evidence is armed by a permanent
        rejection that may be acted on and by nothing else. */
    static function Answered(tx: Transaction, latest: Hash, d: Disposition, mayReconcile: bool, now: nat)
      : (r: Transaction)
      ensures r.rejectedAttempt.Some? <==> d == RejectedPermanent && mayReconcile
      ensures r.rejectedAttempt.Some? ==> r.rejectedAttempt.value == latest
      ensures r.broadcastPending <==> !d.Definite() || (d == RejectedPermanent && !mayReconcile)
      ensures r == tx.(rejectedAttempt := r.rejectedAttempt, broadcastPending := r.broadcastPending,
                       nonceConsumedAt := r.nonceConsumedAt)
      ensures r.nonceConsumedAt == if d == NonceConsumed then Some(now) else tx.nonceConsumedAt
    {
      var cleared := tx.(rejectedAttempt := None);
      match d
      case Accepted => cleared.(broadcastPending := false)
      case AlreadyKnown => cleared.(broadcastPending := false)
      case NonceConsumed => cleared.(nonceConsumedAt := Some(now), broadcastPending := false)
      case FeeRejected => cleared.(broadcastPending := false)
      case RejectedPermanent =>
        if mayReconcile then cleared.(broadcastPending := false, rejectedAttempt := Some(latest))
        else cleared.(broadcastPending := true)
      case RejectedRetryable => cleared.(broadcastPending := true)
      case Ambiguous => cleared.(broadcastPending := true)
    }

    lemma PutOffWaits(w: Transaction, tx: Transaction, attempts: seq<Attempt>, now: nat, later: nat)
      requires now <= later && w == Scheduled(tx, attempts, now + BlockTime(tx.lane.chain), later)
      ensures Waits(w, tx, attempts, now)
    {
    }

    lemma WaitsSince(w: Transaction, tx: Transaction, attempts: seq<Attempt>, later: nat, now: nat)
      requires Waits(w, tx, attempts, later) && now <= later
      ensures Waits(w, tx, attempts, now)
    {
    }

    lemma AnswerLeft(w: Transaction, tx: Transaction, s: Sending, firstAttemptThisPass: bool, nonceReleasable: bool,
                     t: Told)
      requires s.attempts != [] && s.answer != Accepted
      requires
        var latest := Latest(s.attempts);
        var may := MayReconcile(latest, firstAttemptThisPass, nonceReleasable, s.now);
        AfterAnswerRow(w, Answered(tx, latest.hash, s.answer, may, s.now), s.attempts, s.answer == RejectedPermanent,
                       may, latest.createdAt + REJECTION_GRACE, s.now, nonceReleasable, t)
      ensures AnsweredRow(w, tx, s, firstAttemptThisPass, nonceReleasable, t)
    {
      hide Answered, MayReconcile, Rescheduled, ReconciledBy, Waits, AllIn;
    }

    lemma AcceptedRow(w: Transaction, tx: Transaction, s: Sending, firstAttemptThisPass: bool, nonceReleasable: bool,
                      t: Told)
      requires s.attempts != [] && s.answer == Accepted
      requires Rescheduled(w, tx.(broadcastPending := false, rejectedAttempt := None), s.attempts, 0)
      ensures AnsweredRow(w, tx, s, firstAttemptThisPass, nonceReleasable, t)
    {
    }

    /** Make fresh rejection evidence durable before any further reads. */
    method ArmRejection(ghost lane: Lane, row: Transaction, attempts: seq<Attempt>) returns (res: StepResult)
      requires b.On(lane, row.id) && CanAdvance(b.V(lane, row.id), row) && !row.IsCompleted()
      requires row.assignedNonce == b.V(lane, row.id).row.assignedNonce
      modifies b, b.q
      ensures b.Kept(lane, row.id)
      ensures res == Done || res == StepFailed
      ensures
        var v, w := old(b.V(lane, row.id)), b.V(lane, row.id);
        && w.history == v.history && w.peers == v.peers && w.held == v.held
        && (res == Done ==> CanAdvance(w, row) && w.row.assignedNonce == row.assignedNonce)
        && (res == Done && row.rejectedAttempt.Some? ==> w.row.rejectedAttempt == row.rejectedAttempt)
      ensures b.told == old(b.told)
      ensures res == StepFailed ==> b.Troubled()
    {
      hide Inv, LogOk, AllWorking, Held, Peers, b.Ready, b.On, b.V, CanAdvance, Scheduled;
      res := Done;
      if row.rejectedAttempt.Some? {
        ghost var v := b.V(lane, row.id);
        res := ScheduleNextCheck(lane, row, attempts);
        if res == Done {
          StillCanAdvance(v, b.V(lane, row.id), row);
        }
      }
    }

    method HandleBroadcastFailure(ghost lane: Lane, tx: Transaction, attempts: seq<Attempt>, d: Disposition,
                                  firstAttemptThisPass: bool, nonceReleasable: bool) returns (res: StepResult)
      requires b.On(lane, tx.id) && Carries(b.V(lane, tx.id), tx) && d != Accepted
      requires LocalOk(attempts, b.V(lane, tx.id).history) && b.V(lane, tx.id).settled == d.Definite()
      requires tx.assignedNonce == b.V(lane, tx.id).row.assignedNonce &&
        tx.assignedNonce == Some(Latest(attempts).nonce)
      requires nonceReleasable ==> Top(b.V(lane, tx.id).held, tx.assignedNonce.value)
      requires !b.told.receiptUnclear
      modifies b, b.q
      ensures b.Kept(lane, tx.id) && NoNewTalk(old(b.told), b.told)
      ensures res == Done || res == LaneStateChanged ==> b.Wrote(tx.id, |old(b.log)|)
      ensures res == Done || res == StepFailed || res == LaneStateChanged
      ensures res == StepFailed ==> b.Troubled()
      ensures
        var v, w := old(b.V(lane, tx.id)), b.V(lane, tx.id);
        && w.history == v.history && w.peers == v.peers
        && (res == Done ==> w.held == v.held && w.row.assignedNonce == tx.assignedNonce)
        && (res == Done && w.row.receipt.Some? ==> CompletedBy(w.row, b.told))
        && (res == Done && w.row.receipt.None? ==>
              && b.told.receipts == old(b.told.receipts)
              && AnsweredRow(w.row, tx, Sending(attempts, d, old(b.clock)), firstAttemptThisPass, nonceReleasable,
                             b.told))
        && (res == LaneStateChanged ==>
                nonceReleasable && d == RejectedPermanent && Released(w.row))
    {
      hide Inv, LogOk, AllWorking, Held, Peers, b.Ready, b.On, b.V, Top, Owns, Answered, CanAdvance, Carries, Scheduled,
        AnsweredRow, MayReconcile, Rescheduled, ReconciledBy, Waits, AllIn, AfterAnswerRow;
      var latest := attempts[|attempts| - 1];
      var now := b.clock;
      var reconcileAfter := latest.createdAt + REJECTION_GRACE;
      var mayReconcile := MayReconcile(latest, firstAttemptThisPass, nonceReleasable, now);
      var row := Answered(tx, latest.hash, d, mayReconcile, now);
      ghost var v := b.V(lane, tx.id);
      AnsweredCanAdvance(v, tx, row, d);
      res := ArmRejection(lane, row, attempts);
      if res != Done {
        return;
      }
      res := AfterAnswer(lane, row, attempts, d == RejectedPermanent, mayReconcile, reconcileAfter, now,
                         nonceReleasable);
      if res == Done && b.V(lane, tx.id).row.receipt.None? {
        AnswerLeft(b.V(lane, tx.id).row, tx, Sending(attempts, d, now), firstAttemptThisPass, nonceReleasable, b.told);
      }
    }

    /** What the receipt search and the reconciliation after a failed send leave of the row, if it is not completed. */
    ghost predicate AfterAnswerRow(w: Transaction, row: Transaction, attempts: seq<Attempt>, rejected: bool,
                                   mayReconcile: bool, reconcileAfter: nat, now: nat, nonceReleasable: bool, t: Told)
      requires attempts != []
    {
      && AllIn(attempts, t.asked)
      && (if !rejected then Rescheduled(w, row, attempts, 0)
          else if !mayReconcile then Rescheduled(w, row, attempts, reconcileAfter)
          else if t.receiptUnclear then Waits(w, row, attempts, now)
          else ReconciledBy(w, row, attempts, t, now, nonceReleasable))
    }

    /** The part of handleBroadcastFailure after the rejection evidence is durable: a receipt wins over the answer. */
    method AfterAnswer(ghost lane: Lane, row: Transaction, attempts: seq<Attempt>, rejected: bool, mayReconcile: bool,
                       reconcileAfter: nat, now: nat, nonceReleasable: bool) returns (res: StepResult)
      requires b.On(lane, row.id) && CanAdvance(b.V(lane, row.id), row)
      requires LocalOk(attempts, b.V(lane, row.id).history)
      requires row.assignedNonce == b.V(lane, row.id).row.assignedNonce &&
        row.assignedNonce == Some(Latest(attempts).nonce)
      requires rejected && mayReconcile ==>
        row.rejectedAttempt.Some? && b.V(lane, row.id).row.rejectedAttempt == row.rejectedAttempt
      requires nonceReleasable ==> Top(b.V(lane, row.id).held, row.assignedNonce.value)
      requires !b.told.receiptUnclear && now <= b.clock
      modifies b, b.q
      ensures b.Kept(lane, row.id) && NoNewTalk(old(b.told), b.told)
      ensures res == Done || res == LaneStateChanged ==> b.Wrote(row.id, |old(b.log)|)
      ensures res == Done || res == StepFailed || res == LaneStateChanged
      ensures res == StepFailed ==> b.Troubled()
      ensures
        var v, w := old(b.V(lane, row.id)), b.V(lane, row.id);
        && w.history == v.history && w.peers == v.peers
        && (res == Done ==> w.held == v.held && w.row.assignedNonce == row.assignedNonce)
        && (res == Done && w.row.receipt.Some? ==> CompletedBy(w.row, b.told))
        && (res == Done && w.row.receipt.None? ==>
              && b.told.receipts == old(b.told.receipts)
              && AfterAnswerRow(w.row, row, attempts, rejected, mayReconcile, reconcileAfter, now, nonceReleasable,
                                b.told))
        && (res == LaneStateChanged ==>
                nonceReleasable && rejected && Released(w.row))
    {
      hide Inv, LogOk, AllWorking, Held, Peers, b.Ready, b.On, b.V, Top, Owns, AfterAnswerRow, AllIn;
      var found, failed := FindKnownReceipt(lane, row.id, attempts);
      if found.Some? {
        LocalOwns(attempts, b.V(lane, row.id).history, found.value.hash);
        res := FinalizeTransaction(lane, row, found.value.hash, found.value);
      } else {
        res := AfterReceipts(lane, row, attempts, failed, rejected, mayReconcile, reconcileAfter, now, nonceReleasable);
      }
    }

    /** The rest of it when no receipt was found. */
    method AfterReceipts(ghost lane: Lane, row: Transaction, attempts: seq<Attempt>, failed: bool, rejected: bool,
                         mayReconcile: bool, reconcileAfter: nat, now: nat, nonceReleasable: bool)
      returns (res: StepResult)
      requires b.On(lane, row.id) && CanAdvance(b.V(lane, row.id), row)
      requires LocalOk(attempts, b.V(lane, row.id).history)
      requires row.assignedNonce == b.V(lane, row.id).row.assignedNonce &&
        row.assignedNonce == Some(Latest(attempts).nonce)
      requires rejected && mayReconcile ==>
        row.rejectedAttempt.Some? && b.V(lane, row.id).row.rejectedAttempt == row.rejectedAttempt
      requires nonceReleasable ==> Top(b.V(lane, row.id).held, row.assignedNonce.value)
      requires b.told.receiptUnclear == failed && now <= b.clock && AllIn(attempts, b.told.asked)
      requires !failed ==> forall i :: 0 <= i < |attempts| ==> attempts[i].hash in b.ev.noReceipt
      modifies b, b.q
      ensures b.Kept(lane, row.id) && NoNewTalk(old(b.told), b.told) && b.told.receipts == old(b.told.receipts)
      ensures res == Done || res == LaneStateChanged ==> b.Wrote(row.id, |old(b.log)|)
      ensures res == Done || res == StepFailed || res == LaneStateChanged
      ensures res == StepFailed ==> b.Troubled()
      ensures
        var v, w := old(b.V(lane, row.id)), b.V(lane, row.id);
        && w.history == v.history && w.peers == v.peers
        && (res == Done ==> w.held == v.held && w.row.assignedNonce == row.assignedNonce && w.row.receipt.None?)
        && (res == Done ==> AfterAnswerRow(w.row, row, attempts, rejected, mayReconcile, reconcileAfter, now,
                                           nonceReleasable, b.told))
        && (res == LaneStateChanged ==>
                nonceReleasable && rejected && Released(w.row))
    {
      hide Inv, LogOk, AllWorking, Held, Peers, b.Ready, b.On, b.V, Top, Owns, Scheduled, Rescheduled, ReconciledBy,
        AllIn, LocalOk, CanAdvance, Waits;
      LocalOkLast(attempts, b.V(lane, row.id).history);
      if failed {
        var notBefore :=
          if !rejected then 0 else if mayReconcile then now + BlockTime(row.lane.chain) else reconcileAfter;
        ghost var later := b.clock;
        res := ScheduleNextCheckNotBefore(lane, row, attempts, notBefore);
        if res == Done && rejected && mayReconcile {
          PutOffWaits(b.V(lane, row.id).row, row, attempts, now, later);
        }
      } else if rejected && mayReconcile {
        res := ReconcileRejectedSubmission(lane, row, attempts, now, nonceReleasable);
      } else if rejected {
        res := ScheduleNextCheckNotBefore(lane, row, attempts, reconcileAfter);
      } else {
        res := ScheduleNextCheck(lane, row, attempts);
      }
    }

    /** Send the newest durable attempt and record what the node said. */
    method BroadcastAndSchedule(ghost lane: Lane, tx: Transaction, attempts: seq<Attempt>, firstAttemptThisPass: bool,
                                nonceReleasable: bool)
      returns (res: StepResult, ghost sending: Sending)
      requires b.On(lane, tx.id) && Carries(b.V(lane, tx.id), tx)
      requires LocalOk(attempts, b.V(lane, tx.id).history) && MaySend(b.V(lane, tx.id), Latest(attempts).hash)
      requires tx.assignedNonce == b.V(lane, tx.id).row.assignedNonce &&
        tx.assignedNonce == Some(Latest(attempts).nonce)
      requires nonceReleasable ==> Top(b.V(lane, tx.id).held, tx.assignedNonce.value)
      modifies b, b.q
      ensures b.Kept(lane, tx.id) && sending.attempts == attempts
      ensures res == Done || res == LaneStateChanged ==> b.Wrote(tx.id, |old(b.log)|)
      ensures res == Done || res == StepFailed || res == LaneStateChanged
      ensures res == StepFailed ==> b.Troubled()
      ensures SentIn(b.log, |old(b.log)|, old(b.S()), tx.id, Latest(attempts).hash, sending.answer)
      ensures NoNewTalk(HearAnswer(old(b.told), Latest(attempts).hash, sending.answer), b.told)
      ensures
        var v, w := old(b.V(lane, tx.id)), b.V(lane, tx.id);
        && w.history == v.history && w.peers == v.peers
        && (res == Done ==> w.held == v.held && w.row.assignedNonce == tx.assignedNonce)
        && (res == Done && w.row.receipt.Some? ==> CompletedBy(w.row, b.told))
        && (res == Done && w.row.receipt.None? ==>
              && b.told.receipts == old(b.told.receipts)
              && AnsweredRow(w.row, tx, sending, firstAttemptThisPass, nonceReleasable, b.told))
        && (res == LaneStateChanged ==> nonceReleasable && Released(w.row))
    {
      hide Inv, LogOk, AllWorking, Held, Peers, b.Ready, b.On, b.V, Top, Owns, SentIn, AnsweredRow, Scheduled,
        Rescheduled;
      ghost var before, n := b.S(), |b.log|;
      var d := b.SendTransaction(lane, tx.id, attempts[|attempts| - 1].tx);
      sending := Sending(attempts, d, b.clock);
      ghost var log := b.log;
      if d == Accepted {
        var row := tx.(broadcastPending := false, rejectedAttempt := None);
        res := ScheduleNextCheck(lane, row, attempts);
        if res == Done {
          AcceptedRow(b.V(lane, tx.id).row, tx, sending, firstAttemptThisPass, nonceReleasable, b.told);
        }
      } else {
        res := HandleBroadcastFailure(lane, tx, attempts, d, firstAttemptThisPass, nonceReleasable);
      }
      StillSentIn(log, b.log, n, before, tx.id, Latest(attempts).hash, d);
    }

    /** Sign at the row's nonce, above the previous attempt and above the floor, at what the node suggested. None is
        a failed call. */
    method SignAttempt(ghost lane: Lane, tx: Transaction, attempts: seq<Attempt>, floor: Option<F.GasFee>)
      returns (signed: Option<Envelope>)
      requires b.On(lane, tx.id) && tx.assignedNonce.Some?
      modifies b`told, b`troubles
      ensures b.On(lane, tx.id) && b.V(lane, tx.id) == old(b.V(lane, tx.id)) && b.S() == old(b.S())
      ensures b.told == old(b.told).(suggestion := b.told.suggestion) && old(b.troubles) <= b.troubles
      ensures signed.None? ==> b.Troubled()
      ensures signed.Some? ==> b.told.suggestion.Some?
      ensures signed.Some? ==>
        signed.value == Envelope(tx.lane, tx.assignedNonce.value, tx.payload,
                                 SigningFees(tx, attempts, floor, b.told.suggestion.value))
    {
      hide Inv, LogOk, AllWorking, Held, Peers, b.Ready, b.On, b.V;
      var answer := b.SuggestFees(lane, tx.id);
      if answer.None? {
        return None;
      }
      var signs := b.GoesThrough(lane, tx.id);
      if !signs {
        return None;
      }
      signed := Some(Envelope(tx.lane, tx.assignedNonce.value, tx.payload,
                              SigningFees(tx, attempts, floor, answer.value)));
    }

    static function SigningFees(tx: Transaction, attempts: seq<Attempt>, floor: Option<F.GasFee>, node: F.Suggestion)
      : TxTypes.Fees
    {
      F.NextFees(tx.payload.auths != [], node,
                 if attempts == [] then None else Some(attempts[|attempts| - 1].tx.fees), floor,
                 F.PRIORITY_COEFFICIENT * (|attempts| + 1))
    }

    /** One signing and its InsertAttempt. */
    method SignAndInsert(ghost lane: Lane, tx: Transaction, attempts: seq<Attempt>, floor: Option<F.GasFee>)
      returns (r: InsertOutcome, candidate: Option<Attempt>)
      requires b.On(lane, tx.id) && CanSign(b.V(lane, tx.id)) && Carries(b.V(lane, tx.id), tx)
      requires attempts == b.V(lane, tx.id).history && tx.assignedNonce == b.V(lane, tx.id).row.assignedNonce
      requires floor.Some? ==> FloorCovers(floor.value, b.S(), lane, tx.assignedNonce.value, tx.payload.auths != [])
      modifies b, b.q
      ensures b.Kept(lane, tx.id)
      ensures b.told == old(b.told).(suggestion := b.told.suggestion)
      ensures r == InsertFailed ==> b.Troubled()
      ensures AddsAtMostOne(old(b.V(lane, tx.id)), b.V(lane, tx.id), if r == Inserted then candidate else None)
      ensures r != InsertFailed ==> candidate.Some? && SignedFor(old(b.V(lane, tx.id)), candidate.value)
      ensures r != InsertFailed ==> b.told.suggestion.Some?
      ensures r != InsertFailed ==>
        candidate.value.tx.fees == SigningFees(tx, attempts, floor, b.told.suggestion.value)
      ensures r == Conflict ==> b.V(lane, tx.id) == old(b.V(lane, tx.id)) && Rely(lane, old(b.S()), b.S())
      ensures r == Conflict && floor.Some? ==>
        NoPositiveFee(old(b.S()), lane, tx.assignedNonce.value, tx.payload.auths != [])
      ensures r == Conflict ==> Recorded(b.S(), candidate.value.hash, lane, tx)
    {
      hide Inv, LogOk, AllWorking, Held, Peers, Rely, SigningFees, NoPositiveFee, FloorCovers, b.Ready, b.On, b.V;
      ghost var before := b.S();
      KeyedView(lane, tx.id);
      OwnKinds(lane, tx);
      var signed := SignAttempt(lane, tx, attempts, floor);
      if signed.None? {
        return InsertFailed, None;
      }
      ghost var node := b.told.suggestion.value;
      candidate := Some(Attempt(tx.id, signed.value, signed.value.nonce, signed.value, b.clock));
      SigningIsSound(b.V(lane, tx.id), tx, attempts, floor, node, candidate.value);
      r := b.InsertAttempt(lane, tx.id, candidate.value);
      if r == Conflict {
        StaysRecorded(before, b.S(), candidate.value.hash, lane);
      }
      if r == Conflict && floor.Some? {
        RelyReflexive(lane, before);
        ConflictNeedsZeroFees(before, before, lane, tx, attempts, floor.value, node, signed.value);
      }
    }

    /** The fee floor over everything recorded for the lane at the nonce. After a conflict there always is one: only a
        failed read leaves the manager without. */
    method RaiseFloor(ghost lane: Lane, tx: Transaction, ghost conflicting: Hash)
      returns (floor: Option<F.GasFee>, readFailed: bool)
      requires b.On(lane, tx.id) && tx.lane == lane && tx.assignedNonce.Some? && Recorded(b.S(), conflicting, lane, tx)
      modifies b, b.q
      ensures b.Kept(lane, tx.id) && b.V(lane, tx.id) == old(b.V(lane, tx.id))
      ensures Rely(lane, old(b.S()), b.S())
      ensures floor.Some? ==> FloorCovers(floor.value, b.S(), lane, tx.assignedNonce.value, tx.payload.auths != [])
      ensures floor.None? <==> readFailed
      ensures b.told == old(b.told) && (readFailed ==> b.Troubled())
    {
      hide Inv, LogOk, AllWorking, Held, Peers, Rely, FloorCovers, b.Ready, b.On, b.V, Lists, F.Attained;
      floor := None;
      ghost var before := b.S();
      var recorded := b.SelectAttemptsByNonce(lane, tx.id, tx.lane.chain, tx.assignedNonce.value);
      readFailed := recorded.None?;
      if recorded.Some? {
        StaysRecorded(before, b.S(), conflicting, lane);
        ConflictIsListed(recorded.value, b.S(), lane, tx, conflicting);
        var highest, ok := F.HighestAttemptFee(recorded.value, tx.lane, tx.payload.auths != []);
        if !ok || highest.None? {
          return;
        }
        floor := highest;
        FloorFromList(recorded.value, floor.value, b.S(), lane, tx.assignedNonce.value, tx.payload.auths != []);
      }
    }

    /** Sign and durably record one attempt whose hash no other row owns. A conflicting hash is answered by
        re-signing above the fees recorded at that nonce. At most one attempt is added. If any fee recorded for the
        lane at that nonce is positive, the second signing can not conflict: short of a failed call, it succeeds. */
    method PersistUniqueAttempt(ghost lane: Lane, tx: Transaction, attempts: seq<Attempt>)
      returns (attempt: Option<Attempt>, signings: nat, failedCall: bool, ghost floor: Option<F.GasFee>)
      requires b.On(lane, tx.id) && CanSign(b.V(lane, tx.id)) && Carries(b.V(lane, tx.id), tx)
      requires attempts == b.V(lane, tx.id).history && tx.assignedNonce == b.V(lane, tx.id).row.assignedNonce
      modifies b, b.q
      ensures b.Kept(lane, tx.id)
      ensures AddsAtMostOne(old(b.V(lane, tx.id)), b.V(lane, tx.id), attempt)
      ensures attempt.Some? ==> SignedFor(old(b.V(lane, tx.id)), attempt.value)
      ensures signings <= MAX_HASH_COLLISION_RESIGNS && (attempt.None? && !failedCall ==> signings > 1)
      ensures signings > 2 || (attempt.None? && !failedCall) ==>
        NoPositiveFee(old(b.S()), lane, tx.assignedNonce.value, tx.payload.auths != [])
      ensures b.told == old(b.told).(suggestion := b.told.suggestion) && (failedCall ==> b.Troubled())
      ensures attempt.Some? ==> b.told.suggestion.Some?
      ensures attempt.Some? ==>
        attempt.value.tx.fees == SigningFees(tx, attempts, floor, b.told.suggestion.value)
      ensures signings <= 1 ==> floor.None?
    {
      hide Inv, LogOk, AllWorking, Held, Peers, Rely, NoPositiveFee, FloorCovers, b.Ready, b.On, b.V, CanSign, Carries,
        SignedFor, Recorded, SigningFees, Seen;
      KeyedView(lane, tx.id);
      CarriesLane(b.V(lane, tx.id), tx);
      var raised: Option<F.GasFee> := None;
      floor := None;
      var previousHash: Option<Hash> := None;
      ghost var start, v := b.S(), b.V(lane, tx.id);
      RelyReflexive(lane, start);
      attempt, signings, failedCall := None, 0, false;
      for collision := 0 to MAX_HASH_COLLISION_RESIGNS
        invariant b.Kept(lane, tx.id) && b.V(lane, tx.id) == v
        invariant b.told == old(b.told).(suggestion := b.told.suggestion) && floor == raised
        invariant attempt.None? && !failedCall && signings == collision && (collision > 0 <==> raised.Some?)
        invariant Rely(lane, start, b.S())
        invariant raised.Some? ==>
          FloorCovers(raised.value, b.S(), lane, tx.assignedNonce.value, tx.payload.auths != [])
        invariant collision > 1 ==> NoPositiveFee(start, lane, tx.assignedNonce.value, tx.payload.auths != [])
      {
        ghost var before := b.S();
        var r, candidate := SignAndInsert(lane, tx, attempts, raised);
        signings := signings + 1;
        if r == Inserted {
          attempt := candidate;
          return;
        }
        if r == InsertFailed {
          failedCall := true;
          return;
        }
        if raised.Some? {
          ZeroFeesBefore(start, before, lane, tx.assignedNonce.value, tx.payload.auths != []);
        }
        if collision > 0 && Some(candidate.value.hash) == previousHash {
          return;
        }
        previousHash := Some(candidate.value.hash);
        RelyTransitive(lane, start, before, b.S());
        before := b.S();
        raised, failedCall := RaiseFloor(lane, tx, candidate.value.hash);
        floor := raised;
        if raised.None? {
          return;
        }
        RelyTransitive(lane, start, before, b.S());
      }
    }

    lemma OwnKinds(lane: Lane, tx: Transaction)
      requires b.On(lane, tx.id) && Carries(b.V(lane, tx.id), tx)
      ensures forall i :: 0 <= i < |b.V(lane, tx.id).history| ==>
        b.V(lane, tx.id).history[i].tx.fees.SetCode? == (tx.payload.auths != [])
    {
      hide LogOk, AllWorking, Held, Peers;
      ViewFacts(b.S(), lane, b.rest, tx.id);
      assert forall i :: 0 <= i < |b.V(lane, tx.id).history| ==>
        OwnAttempt(b.V(lane, tx.id).row, b.V(lane, tx.id).history[i]);
    }

    /** The row a send starts from, but for status and times. */
    static function AsSent(tx: Transaction, nonce: Option<Nonce>, h: Hash): Transaction {
      tx.(assignedNonce := nonce, tx := Some(h), broadcastPending := true, rejectedAttempt := None)
    }

    /** The history gained the attempt that was signed, except that signing again at zero fees only repeats it. */
    static ghost predicate Grew(v: View, w: View) {
      || (|w.history| == |v.history| + 1 && v.history <= w.history)
      || (w.history == v.history && v.history != [] && !F.PositiveFee(Latest(v.history).tx.fees))
    }

    /** One send of the newest attempt is all that was sent since t. */
    static ghost predicate SentOne(t: Told, u: Told, s: Sending)
      requires s.attempts != []
    {
      u.sent == t.sent + [(Latest(s.attempts).hash, s.answer)] && u.askedBefore == t.asked
    }

    /** Neither a send nor a receipt search since t. */
    static ghost predicate NothingSent(t: Told, u: Told) {
      u.sent == t.sent && u.asked == t.asked && u.receiptUnclear == t.receiptUnclear && u.receipts == t.receipts
    }

    lemma GrewAlike(v: View, w: View, x: View)
      requires Grew(v, w) && x.history == w.history
      ensures Grew(v, x)
    {
    }

    /** Write ahead, then send: the attempt and the row's open broadcast are durable before the network call. */
    method CreateAndBroadcastAttempt(ghost lane: Lane, tx: Transaction, attempts: seq<Attempt>, canReleaseNonce: bool)
      returns (res: StepResult, ghost sending: Option<Sending>)
      requires b.On(lane, tx.id) && CanSign(b.V(lane, tx.id)) && Carries(b.V(lane, tx.id), tx)
      requires attempts == b.V(lane, tx.id).history && tx.assignedNonce == b.V(lane, tx.id).row.assignedNonce
      requires canReleaseNonce ==> Top(b.V(lane, tx.id).held, tx.assignedNonce.value)
      modifies b, b.q
      ensures b.Kept(lane, tx.id) && b.told.hook == old(b.told.hook) && b.told.hookAt == old(b.told.hookAt)
      ensures res == Done || res == LaneStateChanged ==> b.Wrote(tx.id, |old(b.log)|)
      ensures res == Done || res == StepFailed || res == LaneStateChanged
      ensures res == StepFailed ==> b.Troubled()
      ensures sending.None? ==> NothingSent(old(b.told), b.told)
      ensures res != StepFailed ==> sending.Some? && WroteAhead(b.log, |old(b.log)|, tx.id)
      ensures
        var v, w := old(b.V(lane, tx.id)), b.V(lane, tx.id);
        && v.history <= w.history && |w.history| <= |v.history| + 1 && w.peers == v.peers
        && (sending.Some? ==>
              && LocalOk(sending.value.attempts, w.history) && Grew(v, w)
              && SentOne(old(b.told), b.told, sending.value))
        && (res == Done ==> w.held == v.held && w.row.assignedNonce == tx.assignedNonce)
        && (res == Done && w.row.receipt.Some? ==> CompletedBy(w.row, b.told))
        && (res == Done && w.row.receipt.None? ==>
              && b.told.receipts == old(b.told.receipts)
              && AnsweredRow(w.row, AsSent(tx, tx.assignedNonce, Latest(sending.value.attempts).hash), sending.value,
                             attempts == [], canReleaseNonce, b.told))
        && (res == LaneStateChanged ==> canReleaseNonce && Released(w.row))
    {
      hide Inv, LogOk, AllWorking, Held, Peers, b.Ready, b.On, b.V, Top, SignedFor, NoPositiveFee, Carries, CanSign,
        LocalOk, AnsweredRow, WroteAhead, SigningFees, Grew, CompletedBy, Released;
      var firstAttempt := attempts == [];
      sending := None;
      ghost var v, n := b.V(lane, tx.id), |b.log|;
      CarriesLane(v, tx);
      OwnTxs(lane, tx.id);
      var attempt, _, failedCall, _ := PersistUniqueAttempt(lane, tx, attempts);
      if attempt.None? {
        b.Hear(lane, tx.id, b.told, !failedCall);
        return StepFailed, None;
      }
      var row := tx.(tx := Some(attempt.value.tx), status := Confirming, broadcastPending := true,
                     rejectedAttempt := None, updatedAt := attempt.value.createdAt,
                     nextActionAt := attempt.value.createdAt + BlockTime(tx.lane.chain));
      var extended := attempts + [attempt.value];
      PersistedIsLocal(lane, v, tx, row, extended, attempt.value);
      PersistedGrew(lane, v, tx.id, attempt.value);
      ghost var w, m := b.V(lane, tx.id), |b.log|;
      res, sending := OpenAndBroadcast(lane, row, extended, firstAttempt, canReleaseNonce, v, tx);
      WroteAheadEarlier(b.log, n, m, tx.id);
      GrewAlike(v, w, b.V(lane, tx.id));
    }

    /** Make the open broadcast of a recorded attempt durable, then send it. */
    method OpenAndBroadcast(ghost lane: Lane, row: Transaction, extended: seq<Attempt>, firstAttempt: bool,
                            canReleaseNonce: bool, ghost v: View, ghost tx: Transaction)
      returns (res: StepResult, ghost sending: Option<Sending>)
      requires b.On(lane, row.id) && CanSave(b.V(lane, row.id), b.ev, row) && Carries(v, tx) && !row.IsCompleted()
      requires LocalOk(extended, b.V(lane, row.id).history)
      requires row.assignedNonce == b.V(lane, row.id).row.assignedNonce &&
        row.assignedNonce == Some(Latest(extended).nonce)
      requires row == tx.(tx := row.tx, status := Confirming, broadcastPending := true, rejectedAttempt := None,
                          nextActionAt := row.nextActionAt, updatedAt := row.updatedAt)
      requires row.tx == Some(Latest(extended).hash)
      requires canReleaseNonce ==> Top(b.V(lane, row.id).held, row.assignedNonce.value)
      modifies b, b.q
      ensures b.Kept(lane, row.id) && b.told.hook == old(b.told.hook) && b.told.hookAt == old(b.told.hookAt)
      ensures res == Done || res == LaneStateChanged ==> b.Wrote(row.id, |old(b.log)|)
      ensures res == Done || res == StepFailed || res == LaneStateChanged
      ensures res == StepFailed ==> b.Troubled()
      ensures res != StepFailed ==> sending.Some? && WroteAhead(b.log, |old(b.log)|, row.id)
      ensures sending.None? ==> b.told == old(b.told)
      ensures sending.Some? ==> sending.value.attempts == extended && SentOne(old(b.told), b.told, sending.value)
      ensures
        var v, w := old(b.V(lane, row.id)), b.V(lane, row.id);
        && w.history == v.history && w.peers == v.peers
        && (res == Done ==> w.held == v.held && w.row.assignedNonce == row.assignedNonce)
        && (res == Done && w.row.receipt.Some? ==> CompletedBy(w.row, b.told))
        && (res == Done && w.row.receipt.None? ==>
              && b.told.receipts == old(b.told.receipts)
              && AnsweredRow(w.row, AsSent(tx, tx.assignedNonce, Latest(extended).hash), sending.value, firstAttempt,
                             canReleaseNonce, b.told))
        && (res == LaneStateChanged ==> canReleaseNonce && Released(w.row))
    {
      hide Inv, LogOk, AllWorking, Held, Peers, b.Ready, b.On, b.V, Top, Carries, CanSave, LocalOk, MaySend, WroteAhead,
        SentIn, AnsweredRow;
      sending := None;
      var r := b.UpdateIfActive(lane, row);
      if r != Saved {
        return FromWrite(r), None;
      }
      StillCarries(v, b.V(lane, row.id), tx, row, extended);
      ghost var before, n := b.S(), |b.log|;
      OpenInStore(lane, row, extended);
      ghost var s;
      res, s := BroadcastAndSchedule(lane, row, extended, firstAttempt, canReleaseNonce);
      sending := Some(s);
      SentAhead(b.log, n, before, row.id, Latest(extended).hash, s.answer);
      if res == Done && b.V(lane, row.id).row.receipt.None? {
        AnsweredAlike(b.V(lane, row.id).row, row, AsSent(tx, tx.assignedNonce, Latest(extended).hash), s, firstAttempt,
                      canReleaseNonce, b.told);
      }
    }

    /** Scheduling does not depend on what it overwrites. */
    lemma ScheduledAlike(w: Transaction, tx: Transaction, other: Transaction, attempts: seq<Attempt>, notBefore: nat)
      requires attempts != []
      requires tx == other.(status := tx.status, nextActionAt := tx.nextActionAt, updatedAt := tx.updatedAt)
      ensures Rescheduled(w, tx, attempts, notBefore) <==> Rescheduled(w, other, attempts, notBefore)
    {
    }

    lemma WaitsAlike(w: Transaction, tx: Transaction, other: Transaction, attempts: seq<Attempt>, now: nat)
      requires attempts != []
      requires tx == other.(status := tx.status, nextActionAt := tx.nextActionAt, updatedAt := tx.updatedAt)
      ensures Waits(w, tx, attempts, now) <==> Waits(w, other, attempts, now)
    {
      hide Rescheduled;
      ScheduledAlike(w, tx, other, attempts, w.nextActionAt);
      ScheduledAlike(w, tx, other, attempts, 0);
    }

    lemma ReconciledAlike(w: Transaction, tx: Transaction, other: Transaction, attempts: seq<Attempt>, t: Told,
                          now: nat, canReleaseNonce: bool)
      requires attempts != [] && ReconciledBy(w, tx, attempts, t, now, canReleaseNonce)
      requires tx == other.(status := tx.status, nextActionAt := tx.nextActionAt, updatedAt := tx.updatedAt)
      ensures ReconciledBy(w, other, attempts, t, now, canReleaseNonce)
    {
      hide Rescheduled, Waits, AllIn;
      WaitsAlike(w, tx, other, attempts, now);
      var known, kept := tx.(tx := w.tx, broadcastPending := false, rejectedAttempt := None),
        other.(tx := w.tx, broadcastPending := false, rejectedAttempt := None);
      ScheduledAlike(w, known, kept, attempts, 0);
      ScheduledAlike(w, tx.(nonceConsumedAt := Some(now), broadcastPending := false, rejectedAttempt := None),
                     other.(nonceConsumedAt := Some(now), broadcastPending := false, rejectedAttempt := None),
                     attempts, 0);
    }

    /** What an answer leaves does not depend on what the answer overwrites. */
    lemma AnsweredAlike(w: Transaction, row: Transaction, other: Transaction, s: Sending, firstAttemptThisPass: bool,
                        nonceReleasable: bool, t: Told)
      requires s.attempts != [] && AnsweredRow(w, row, s, firstAttemptThisPass, nonceReleasable, t)
      requires row == other.(status := row.status, nextActionAt := row.nextActionAt, updatedAt := row.updatedAt,
                             broadcastPending := row.broadcastPending, rejectedAttempt := row.rejectedAttempt)
      ensures AnsweredRow(w, other, s, firstAttemptThisPass, nonceReleasable, t)
    {
      hide AllIn, Rescheduled, Waits, ReconciledBy, MayReconcile;
      var latest := Latest(s.attempts);
      var may := MayReconcile(latest, firstAttemptThisPass, nonceReleasable, s.now);
      var a, c := Answered(row, latest.hash, s.answer, may, s.now), Answered(other, latest.hash, s.answer, may, s.now);
      ScheduledAlike(w, a, c, s.attempts, 0);
      ScheduledAlike(w, a, c, s.attempts, latest.createdAt + REJECTION_GRACE);
      WaitsAlike(w, a, c, s.attempts, s.now);
      if ReconciledBy(w, a, s.attempts, t, s.now, nonceReleasable) {
        ReconciledAlike(w, a, c, s.attempts, t, s.now, nonceReleasable);
      }
    }

    /** Take the node's pending nonce for a row without one, provided it is above everything the lane holds. */
    method AssignNonce(ghost lane: Lane, tx: Transaction, nl: NonceLane) returns (res: StepResult, row: Transaction)
      requires b.On(lane, tx.id) && CanAdvance(b.V(lane, tx.id), tx)
      requires tx.assignedNonce.None? && b.V(lane, tx.id).row.assignedNonce.None? && nl.Tracks(b.V(lane, tx.id).held)
      modifies b, b.q, nl
      ensures b.Kept(lane, tx.id)
      ensures res == Done || res == StepFailed || res == AwaitingNodeNonce
      ensures
        var v, w := old(b.V(lane, tx.id)), b.V(lane, tx.id);
        && w.history == v.history && w.settled == v.settled && w.peers == v.peers
        && (res == Done ==>
              && row.assignedNonce.Some? && Above(v.held, row.assignedNonce.value)
              && row == tx.(assignedNonce := row.assignedNonce, status := Processing, updatedAt := row.updatedAt)
              && w.row == row && w.held == v.held + {row.assignedNonce.value} && nl.Tracks(w.held))
        && (res == AwaitingNodeNonce ==> w == v)
        && (res == StepFailed ==>
              || w == v
              || (&& row.assignedNonce.Some? && Above(v.held, row.assignedNonce.value)
                  && w.row == row && w.held == v.held + {row.assignedNonce.value}))
      ensures b.told == old(b.told).(pending := b.told.pending) && (res == StepFailed ==> b.Troubled())
      ensures res == Done ==> row.assignedNonce == b.told.pending
      ensures res == AwaitingNodeNonce ==>
        b.told.pending.Some? && !Above(old(b.V(lane, tx.id)).held, b.told.pending.value)
    {
      hide Inv, LogOk, AllWorking, Held, Peers, b.Ready, b.On, b.V, Owns, Above, nl.Tracks;
      row := tx;
      ghost var v := b.V(lane, tx.id);
      var rpcNonce := b.PendingNonceAt(lane, tx.id);
      if rpcNonce.None? {
        return StepFailed, row;
      }
      var nonce := nl.Reserve(rpcNonce.value);
      if nonce.None? {
        return AwaitingNodeNonce, row;
      }
      row := tx.(assignedNonce := nonce, status := Processing, updatedAt := b.clock);
      var r := b.UpdateIfActive(lane, row);
      if r != Saved {
        return FromWrite(r), row;
      }
      nl.Observe(nonce.value, v.held);
      res := Done;
    }

    predicate GateOpen(t: Told) {
      !hasAdmission || (t.hook.Some? && t.hook.value.Admit? && t.hook.value.retryAt <= t.hookAt)
    }

    /** The hook deferred the row. */
    predicate GateShut(t: Told) {
      hasAdmission && t.hook.Some? && t.hook.value.Admit? && t.hook.value.retryAt > t.hookAt
    }

    /** A row that was never signed and may no longer be is given up; its nonce, if it is the lane's tip, is free
        again. */
    method ExpireUnsigned(ghost lane: Lane, tx: Transaction) returns (res: StepResult)
      requires b.On(lane, tx.id) && CanAdvance(b.V(lane, tx.id), tx) && b.V(lane, tx.id).history == []
      requires tx.assignedNonce == b.V(lane, tx.id).row.assignedNonce && tx.rejectedAttempt.None?
      requires tx.assignedNonce.Some? ==> Top(b.V(lane, tx.id).held, tx.assignedNonce.value)
      modifies b, b.q
      ensures b.Kept(lane, tx.id) && b.told == old(b.told)
      ensures res == LaneStateChanged || (res == StepFailed && b.Troubled())
      ensures res == LaneStateChanged ==> b.Wrote(tx.id, |old(b.log)|) && Released(b.V(lane, tx.id).row)
      ensures b.V(lane, tx.id).history == old(b.V(lane, tx.id)).history
      ensures b.V(lane, tx.id).peers == old(b.V(lane, tx.id)).peers
    {
      hide Inv, LogOk, AllWorking, Held, Peers, b.Ready, b.On, b.V, Owns, Top;
      res := AbandonTransaction(lane, tx.(assignedNonce := None));
      if res == Done {
        res := LaneStateChanged;
      }
    }

    /** The application's admission hook: the step goes on exactly when there is none or it lets the row pass. */
    method Admitted(ghost lane: Lane, tx: Transaction, attempts: seq<Attempt>, nl: NonceLane)
      returns (res: StepResult, goOn: bool)
      requires b.On(lane, tx.id) && CanAdvance(b.V(lane, tx.id), tx) && attempts == b.V(lane, tx.id).history
      requires tx.assignedNonce == b.V(lane, tx.id).row.assignedNonce && tx.rejectedAttempt.None?
      requires nl.Tracks(b.V(lane, tx.id).held)
      modifies b, b.q
      ensures b.Kept(lane, tx.id)
      ensures b.told == old(b.told).(hook := b.told.hook, hookAt := b.told.hookAt)
      ensures goOn <==> GateOpen(b.told)
      ensures res == Done || res == StepFailed || res == LaneStateChanged
      ensures res == StepFailed ==> b.Troubled()
      ensures goOn ==> b.V(lane, tx.id) == old(b.V(lane, tx.id))
      ensures goOn ==> res == Done
      ensures !goOn && res != StepFailed ==> b.Wrote(tx.id, |old(b.log)|)
      ensures
        var v, w := old(b.V(lane, tx.id)), b.V(lane, tx.id);
        && w.history == v.history && w.peers == v.peers
        && (res == Done ==> w.held == v.held)
        && (!goOn && res == Done ==> w.row.receipt.None?)
        && (!goOn && res == Done ==>
              GateShut(b.told) && Rescheduled(w.row, tx, attempts, b.told.hook.value.retryAt))
        && (res == LaneStateChanged ==> v.history == [] && Released(w.row))
        && (res == LaneStateChanged && tx.assignedNonce.Some? ==> Top(v.held, tx.assignedNonce.value))
    {
      hide Inv, LogOk, AllWorking, Held, Peers, b.Ready, b.On, b.V, Owns, Top, nl.Tracks, Rescheduled, Scheduled,
        Released, CanAdvance;
      res, goOn := Done, true;
      if hasAdmission {
        AssignedHeld(lane, tx.id);
        ghost var mayEnd :=
          attempts == [] && (tx.assignedNonce.None? || Top(b.V(lane, tx.id).held, tx.assignedNonce.value));
        var answer := b.AskHook(lane, tx.id, mayEnd);
        if answer.UnsignedExpired? && attempts == [] && (tx.assignedNonce.None? || nl.IsTip(tx.assignedNonce.value)) {
          res := ExpireUnsigned(lane, tx);
          return res, false;
        }
        if !answer.Admit? {
          return StepFailed, false;
        }
        if answer.retryAt > b.clock {
          goOn := false;
          res := ScheduleNextCheckNotBefore(lane, tx, attempts, answer.retryAt);
        }
      }
    }

    /** A send as a step makes it. A row without attempts, or one whose newest attempt is settled and below the cap, is
        signed anew; an open broadcast and an exhausted row send what they have. What the answer leaves follows. */
    ghost predicate Sends(v: View, w: View, tx: Transaction, s: Sending, t: Told) {
      var signs := v.history == [] || (!tx.broadcastPending && |v.history| < MAX_FEE_REPLACEMENTS);
      && LocalOk(s.attempts, w.history) && w.row.assignedNonce.Some?
      && (if signs then Grew(v, w) else s.attempts == v.history && w.history == v.history)
      && AnsweredRow(w.row, AsSent(tx, w.row.assignedNonce, Latest(s.attempts).hash), s, v.history == [],
                     (v.history != [] ==> !signs) && Top(w.held, w.row.assignedNonce.value), t)
    }

    /** From the admission hook to the send: resume an open broadcast, or assign, sign and send. */
    method AttemptRow(ghost lane: Lane, tx: Transaction, attempts: seq<Attempt>, nl: NonceLane)
      returns (res: StepResult, ghost sending: Option<Sending>)
      requires b.On(lane, tx.id) && attempts == b.V(lane, tx.id).history
      requires CanAdvance(b.V(lane, tx.id), b.V(lane, tx.id).row) && tx == Adopted(b.V(lane, tx.id).row, attempts) &&
        tx.rejectedAttempt.None?
      requires |attempts| <= MAX_FEE_REPLACEMENTS && forall i :: 0 <= i < |attempts| ==>
        OwnAttempt(b.V(lane, tx.id).row, attempts[i])
      requires tx.nonceConsumedAt.Some? ==> attempts != [] && tx.broadcastPending
      requires nl.Tracks(b.V(lane, tx.id).held)
      modifies b, b.q, nl
      ensures b.Kept(lane, tx.id)
      ensures res == Done || res == LaneStateChanged ==> b.Wrote(tx.id, |old(b.log)|)
      ensures res != Unprocessable && res != StepStale && (res == StepFailed ==> b.Troubled())
      ensures sending.None? ==> NothingSent(old(b.told), b.told)
      ensures sending.Some? ==> sending.value.attempts != [] && SentOne(old(b.told), b.told, sending.value)
      ensures res == AwaitingNodeNonce ==> NodeLags(old(b.V(lane, tx.id)), b.told)
      ensures
        var v, w := old(b.V(lane, tx.id)), b.V(lane, tx.id);
        && v.history <= w.history && |w.history| <= |v.history| + 1 && w.peers == v.peers
        && (res == Done ==> nl.Tracks(w.held))
        && (res == LaneStateChanged ==> Released(w.row))
        && (res == Done && w.row.receipt.Some? ==> CompletedBy(w.row, b.told))
        && (res == Done && w.row.receipt.None? ==>
              && b.told.receipts == old(b.told.receipts)
              && Attempted(v, w, tx, sending, b.told))
        && (res == Done && sending.Some? && Signs(v, tx) ==> WroteAhead(b.log, |old(b.log)|, tx.id))
    {
      hide Inv, LogOk, AllWorking, Held, Peers, b.Ready, b.On, b.V, Owns, Top, nl.Tracks, CanAdvance, OwnAttempt, Sends,
        Rescheduled, AnsweredRow, WroteAhead, Above;
      sending := None;
      ghost var v, t, n := b.V(lane, tx.id), b.told, |b.log|;
      AdoptedCanAdvance(v);
      var goOn;
      res, goOn := Admitted(lane, tx, attempts, nl);
      if !goOn || res != Done {
        return;
      }
      SameAsked(t, b.told);
      if attempts != [] && tx.broadcastPending {
        res, sending := ResumeRow(lane, tx, attempts, nl);
        return;
      }
      ghost var m := |b.log|;
      res, sending := SignRow(lane, tx, attempts, nl);
      WroteAheadEarlier(b.log, n, m, tx.id);
    }

    static predicate Signs(v: View, tx: Transaction) {
      v.history == [] || (!tx.broadcastPending && |v.history| < MAX_FEE_REPLACEMENTS)
    }

    /** The node's pending nonce is not above everything the lane holds, so a row without one has to wait. */
    static ghost predicate NodeLags(v: View, t: Told) {
      v.row.assignedNonce.None? && t.pending.Some? && !Above(v.held, t.pending.value)
    }

    /** What comes out of the admission hook and the send: the hook deferred the row, or the send was made. */
    ghost predicate Attempted(v: View, w: View, tx: Transaction, sending: Option<Sending>, t: Told) {
      match sending
      case None =>
        && w.history == v.history && GateShut(t)
        && Rescheduled(w.row, tx, v.history, t.hook.value.retryAt)
      case Some(s) => GateOpen(t) && Sends(v, w, tx, s, t)
    }

    lemma DeferredOrSent(v: View, w: View, tx: Transaction, sending: Option<Sending>, t: Told)
      requires Attempted(v, w, tx, sending, t)
      ensures if sending.None? then GateShut(t) else GateOpen(t)
    {
      hide Rescheduled, Sends;
    }

    /** Send an open broadcast again. */
    method ResumeRow(ghost lane: Lane, tx: Transaction, attempts: seq<Attempt>, nl: NonceLane)
      returns (res: StepResult, ghost sending: Option<Sending>)
      requires b.On(lane, tx.id) && attempts == b.V(lane, tx.id).history && attempts != []
      requires CanAdvance(b.V(lane, tx.id), b.V(lane, tx.id).row) && tx == Adopted(b.V(lane, tx.id).row, attempts) &&
        tx.rejectedAttempt.None? && tx.broadcastPending
      requires forall i :: 0 <= i < |attempts| ==> OwnAttempt(b.V(lane, tx.id).row, attempts[i])
      requires nl.Tracks(b.V(lane, tx.id).held)
      modifies b, b.q
      ensures b.Kept(lane, tx.id) && b.told.hook == old(b.told.hook) && b.told.hookAt == old(b.told.hookAt)
      ensures res == Done || res == LaneStateChanged ==> b.Wrote(tx.id, |old(b.log)|)
      ensures res == Done || res == StepFailed || res == LaneStateChanged
      ensures res == StepFailed ==> b.Troubled()
      ensures sending.Some? && sending.value.attempts != [] && SentOne(old(b.told), b.told, sending.value)
      ensures
        var v, w := old(b.V(lane, tx.id)), b.V(lane, tx.id);
        && w.history == v.history && w.peers == v.peers
        && (res == Done ==> nl.Tracks(w.held))
        && (res == LaneStateChanged ==> Released(w.row))
        && (res == Done && w.row.receipt.Some? ==> CompletedBy(w.row, b.told))
        && (res == Done && w.row.receipt.None? ==>
              b.told.receipts == old(b.told.receipts) && Sends(v, w, tx, sending.value, b.told))
    {
      hide Inv, LogOk, AllWorking, Held, Peers, b.Ready, b.On, b.V, Owns, Top, nl.Tracks, CanAdvance, OwnAttempt,
        AnsweredRow;
      ghost var v := b.V(lane, tx.id);
      AssignedHeld(lane, tx.id);
      ResumeFacts(v, tx);
      res, sending := Resend(lane, tx, attempts, nl);
    }

    /** Send the newest attempt of the row as it is. */
    method Resend(ghost lane: Lane, tx: Transaction, attempts: seq<Attempt>, nl: NonceLane)
      returns (res: StepResult, ghost sending: Option<Sending>)
      requires b.On(lane, tx.id) && attempts == b.V(lane, tx.id).history && Carries(b.V(lane, tx.id), tx)
      requires LocalOk(attempts, attempts) && MaySend(b.V(lane, tx.id), Latest(attempts).hash)
      requires tx.assignedNonce == b.V(lane, tx.id).row.assignedNonce &&
        tx.assignedNonce == Some(Latest(attempts).nonce)
      requires tx.tx == Some(Latest(attempts).hash) && tx.assignedNonce.value in b.V(lane, tx.id).held
      requires nl.Tracks(b.V(lane, tx.id).held) && !Signs(b.V(lane, tx.id), tx)
      modifies b, b.q
      ensures b.Kept(lane, tx.id) && b.told.hook == old(b.told.hook) && b.told.hookAt == old(b.told.hookAt)
      ensures res == Done || res == LaneStateChanged ==> b.Wrote(tx.id, |old(b.log)|)
      ensures res == Done || res == StepFailed || res == LaneStateChanged
      ensures res == StepFailed ==> b.Troubled()
      ensures sending.Some? && sending.value.attempts != [] && SentOne(old(b.told), b.told, sending.value)
      ensures
        var v, w := old(b.V(lane, tx.id)), b.V(lane, tx.id);
        && w.history == v.history && w.peers == v.peers
        && (res == Done ==> nl.Tracks(w.held))
        && (res == LaneStateChanged ==> Released(w.row))
        && (res == Done && w.row.receipt.Some? ==> CompletedBy(w.row, b.told))
        && (res == Done && w.row.receipt.None? ==>
              b.told.receipts == old(b.told.receipts) && Sends(v, w, tx, sending.value, b.told))
    {
      hide Inv, LogOk, AllWorking, Held, Peers, b.Ready, b.On, b.V, Owns, Top, nl.Tracks, AnsweredRow, Carries, MaySend,
        SentIn;
      var tip := nl.IsTip(tx.assignedNonce.value);
      ghost var s;
      res, s := BroadcastAndSchedule(lane, tx, attempts, false, tip);
      sending := Some(s);
      ghost var w := b.V(lane, tx.id);
      if res == Done && w.row.receipt.None? {
        AnsweredAlike(w.row, tx, AsSent(tx, w.row.assignedNonce, Latest(attempts).hash), s, false, tip, b.told);
      }
    }

    /** A row with no open broadcast: first attempt, fee replacement, or a re-send once the budget is spent. */
    method SignRow(ghost lane: Lane, tx: Transaction, attempts: seq<Attempt>, nl: NonceLane)
      returns (res: StepResult, ghost sending: Option<Sending>)
      requires b.On(lane, tx.id) && attempts == b.V(lane, tx.id).history
      requires CanAdvance(b.V(lane, tx.id), b.V(lane, tx.id).row) && tx == Adopted(b.V(lane, tx.id).row, attempts) &&
        tx.rejectedAttempt.None?
      requires |attempts| <= MAX_FEE_REPLACEMENTS && forall i :: 0 <= i < |attempts| ==>
        OwnAttempt(b.V(lane, tx.id).row, attempts[i])
      requires tx.nonceConsumedAt.None? && (attempts != [] ==> !tx.broadcastPending)
      requires nl.Tracks(b.V(lane, tx.id).held)
      modifies b, b.q, nl
      ensures b.Kept(lane, tx.id) && b.told.hook == old(b.told.hook) && b.told.hookAt == old(b.told.hookAt)
      ensures res == Done || res == LaneStateChanged ==> b.Wrote(tx.id, |old(b.log)|)
      ensures res != Unprocessable && res != StepStale && (res == StepFailed ==> b.Troubled())
      ensures res == Done || res == LaneStateChanged ==> sending.Some?
      ensures sending.None? ==> NothingSent(old(b.told), b.told)
      ensures sending.Some? ==> sending.value.attempts != [] && SentOne(old(b.told), b.told, sending.value)
      ensures res == AwaitingNodeNonce ==> NodeLags(old(b.V(lane, tx.id)), b.told)
      ensures
        var v, w := old(b.V(lane, tx.id)), b.V(lane, tx.id);
        && v.history <= w.history && |w.history| <= |v.history| + 1 && w.peers == v.peers
        && (res == Done ==> nl.Tracks(w.held))
        && (res == LaneStateChanged ==> Released(w.row))
        && (res == Done && w.row.receipt.Some? ==> CompletedBy(w.row, b.told))
        && (res == Done && w.row.receipt.None? ==>
              b.told.receipts == old(b.told.receipts) && Sends(v, w, tx, sending.value, b.told))
        && (res == Done && Signs(v, tx) ==> WroteAhead(b.log, |old(b.log)|, tx.id))
    {
      hide Inv, LogOk, AllWorking, Held, Peers, b.Ready, b.On, b.V, Owns, Top, nl.Tracks, CanAdvance, Carries, CanSign,
        OwnAttempt, Adopted, Above, MaySend, Sends, WroteAhead, SentOne, AnsweredRow;
      sending := None;
      ghost var v := b.V(lane, tx.id);
      AdoptedCanAdvance(v);
      AdoptedFacts(v, tx);
      if attempts == [] {
        res, sending := FirstAttempt(lane, tx, nl);
      } else {
        AssignedHeld(lane, tx.id);
        if |attempts| < MAX_FEE_REPLACEMENTS {
          res, sending := ReplaceAttempt(lane, tx, attempts, nl);
        } else {
          res, sending := Resend(lane, tx, attempts, nl);
        }
      }
    }

    /** A row without attempts: take a nonce if it has none, then sign and send. */
    method FirstAttempt(ghost lane: Lane, tx: Transaction, nl: NonceLane)
      returns (res: StepResult, ghost sending: Option<Sending>)
      requires b.On(lane, tx.id) && b.V(lane, tx.id).history == [] && CanAdvance(b.V(lane, tx.id), tx)
      requires tx.rejectedAttempt.None? && tx.nonceConsumedAt.None? && tx.receipt.None? && tx.notifiedAt.None?
      requires tx.assignedNonce == b.V(lane, tx.id).row.assignedNonce
      requires tx.assignedNonce.Some? ==> CanSign(b.V(lane, tx.id)) && Carries(b.V(lane, tx.id), tx)
      requires nl.Tracks(b.V(lane, tx.id).held)
      modifies b, b.q, nl
      ensures b.Kept(lane, tx.id) && b.told.hook == old(b.told.hook) && b.told.hookAt == old(b.told.hookAt)
      ensures res == Done || res == LaneStateChanged ==> b.Wrote(tx.id, |old(b.log)|)
      ensures res != Unprocessable && res != StepStale && (res == StepFailed ==> b.Troubled())
      ensures res == Done || res == LaneStateChanged ==> sending.Some? && WroteAhead(b.log, |old(b.log)|, tx.id)
      ensures sending.None? ==> NothingSent(old(b.told), b.told)
      ensures sending.Some? ==> sending.value.attempts != [] && SentOne(old(b.told), b.told, sending.value)
      ensures res == AwaitingNodeNonce ==> NodeLags(old(b.V(lane, tx.id)), b.told)
      ensures
        var v, w := old(b.V(lane, tx.id)), b.V(lane, tx.id);
        && |w.history| <= 1 && w.peers == v.peers
        && (res == Done ==> nl.Tracks(w.held))
        && (res == LaneStateChanged ==> Released(w.row))
        && (res == Done && w.row.receipt.Some? ==> CompletedBy(w.row, b.told))
        && (res == Done && w.row.receipt.None? ==>
              b.told.receipts == old(b.told.receipts) && Sends(v, w, tx, sending.value, b.told))
    {
      hide Inv, LogOk, AllWorking, Held, Peers, b.Ready, b.On, b.V, Owns, Top, nl.Tracks, CanAdvance, Carries, CanSign,
        Above, Sends, Released, CompletedBy, WroteAhead;
      sending := None;
      ghost var v, n := b.V(lane, tx.id), |b.log|;
      var row := tx;
      if tx.assignedNonce.None? {
        res, row := AssignNonce(lane, tx, nl);
        if res != Done {
          return;
        }
        AssignedSignable(b.V(lane, tx.id), tx, row);
      }
      ghost var m, x := |b.log|, b.V(lane, tx.id);
      res, sending := SignFirst(lane, tx, row, nl);
      WroteAheadEarlier(b.log, n, m, tx.id);
      if res == Done && b.V(lane, tx.id).row.receipt.None? {
        SendsAlike(v, x, b.V(lane, tx.id), tx, sending.value, b.told);
      }
    }

    lemma SendsAlike(v: View, x: View, w: View, tx: Transaction, s: Sending, t: Told)
      requires x.history == v.history && Sends(x, w, tx, s, t)
      ensures Sends(v, w, tx, s, t)
    {
      hide AnsweredRow, LocalOk;
    }

    /** A row with its nonce: sign the first attempt and send it. */
    method SignFirst(ghost lane: Lane, ghost tx: Transaction, row: Transaction, nl: NonceLane)
      returns (res: StepResult, ghost sending: Option<Sending>)
      requires b.On(lane, row.id) && b.V(lane, row.id).history == [] && row.id == tx.id
      requires CanSign(b.V(lane, row.id)) && Carries(b.V(lane, row.id), row)
      requires row.assignedNonce == b.V(lane, row.id).row.assignedNonce && row.assignedNonce.Some?
      requires row == tx.(assignedNonce := row.assignedNonce, status := row.status, updatedAt := row.updatedAt)
      requires nl.Tracks(b.V(lane, row.id).held)
      modifies b, b.q
      ensures b.Kept(lane, tx.id) && b.told.hook == old(b.told.hook) && b.told.hookAt == old(b.told.hookAt)
      ensures res == Done || res == LaneStateChanged ==> b.Wrote(tx.id, |old(b.log)|)
      ensures res == Done || res == LaneStateChanged || (res == StepFailed && b.Troubled())
      ensures res != StepFailed ==> sending.Some? && WroteAhead(b.log, |old(b.log)|, tx.id)
      ensures sending.None? ==> NothingSent(old(b.told), b.told)
      ensures sending.Some? ==> sending.value.attempts != [] && SentOne(old(b.told), b.told, sending.value)
      ensures
        var v, w := old(b.V(lane, row.id)), b.V(lane, tx.id);
        && |w.history| <= 1 && w.peers == v.peers
        && (res == Done ==> nl.Tracks(w.held))
        && (res == LaneStateChanged ==> Released(w.row))
        && (res == Done && w.row.receipt.Some? ==> CompletedBy(w.row, b.told))
        && (res == Done && w.row.receipt.None? ==>
              b.told.receipts == old(b.told.receipts) && Sends(v, w, tx, sending.value, b.told))
    {
      hide Inv, LogOk, AllWorking, Held, Peers, b.Ready, b.On, b.V, Owns, Top, nl.Tracks, Carries, CanSign, AnsweredRow,
        Released, CompletedBy, Grew;
      AssignedHeld(lane, row.id);
      var tip := nl.IsTip(row.assignedNonce.value);
      res, sending := CreateAndBroadcastAttempt(lane, row, [], tip);
      ghost var w := b.V(lane, tx.id);
      if res == Done && w.row.receipt.None? {
        var h := Latest(sending.value.attempts).hash;
        AnsweredAlike(w.row, AsSent(row, row.assignedNonce, h), AsSent(tx, w.row.assignedNonce, h), sending.value,
                      true, tip, b.told);
      }
    }

    /** A fee replacement over a settled attempt. */
    method ReplaceAttempt(ghost lane: Lane, tx: Transaction, attempts: seq<Attempt>, nl: NonceLane)
      returns (res: StepResult, ghost sending: Option<Sending>)
      requires b.On(lane, tx.id) && attempts == b.V(lane, tx.id).history && attempts != []
      requires CanSign(b.V(lane, tx.id)) && Carries(b.V(lane, tx.id), tx) && Signs(b.V(lane, tx.id), tx)
      requires tx.assignedNonce == b.V(lane, tx.id).row.assignedNonce
      requires nl.Tracks(b.V(lane, tx.id).held)
      modifies b, b.q
      ensures b.Kept(lane, tx.id) && b.told.hook == old(b.told.hook) && b.told.hookAt == old(b.told.hookAt)
      ensures res == Done || res == LaneStateChanged ==> b.Wrote(tx.id, |old(b.log)|)
      ensures res == Done || res == StepFailed
      ensures res == StepFailed ==> b.Troubled()
      ensures res == Done ==> sending.Some? && WroteAhead(b.log, |old(b.log)|, tx.id)
      ensures sending.None? ==> NothingSent(old(b.told), b.told)
      ensures sending.Some? ==> sending.value.attempts != [] && SentOne(old(b.told), b.told, sending.value)
      ensures
        var v, w := old(b.V(lane, tx.id)), b.V(lane, tx.id);
        && v.history <= w.history && |w.history| <= |v.history| + 1 && w.peers == v.peers
        && (res == Done ==> nl.Tracks(w.held))
        && (res == Done && w.row.receipt.Some? ==> CompletedBy(w.row, b.told))
        && (res == Done && w.row.receipt.None? ==>
              b.told.receipts == old(b.told.receipts) && Sends(v, w, tx, sending.value, b.told))
    {
      hide Inv, LogOk, AllWorking, Held, Peers, b.Ready, b.On, b.V, Owns, Top, nl.Tracks, Carries, CanSign, AnsweredRow,
        WroteAhead;
      CarriesLane(b.V(lane, tx.id), tx);
      res, sending := CreateAndBroadcastAttempt(lane, tx, attempts, false);
    }

    lemma WroteAheadEarlier(log: seq<Entry>, n: nat, m: nat, id: Id)
      requires n <= m
      ensures WroteAhead(log, m, id) ==> WroteAhead(log, n, id)
    {
    }

    lemma SameAsked(t: Told, u: Told)
      requires u == t.(hook := u.hook, hookAt := u.hookAt)
      ensures u.asked == t.asked && u.sent == t.sent && u.receipts == t.receipts
    {
    }

    /** A nonce the node called used: the row is abandoned once the grace period is over, and waits as it is before. */
    predicate Polled(w: Transaction, tx: Transaction, attempts: seq<Attempt>, from: nat, to: nat)
      requires tx.nonceConsumedAt.Some?
    {
      var deadline := tx.nonceConsumedAt.value + CONSUMED_NONCE_GRACE;
      && (from > deadline ==> w.status == Errored)
      && (to <= deadline ==> w.status != Errored)
      && (w.status != Errored ==> Rescheduled(w, tx, attempts, 0))
    }

    ghost predicate ReconciledMeanwhile(w: Transaction, tx: Transaction, attempts: seq<Attempt>, t: Told, from: nat,
                                        to: nat, canReleaseNonce: bool)
      requires attempts != []
    {
      exists now :: from <= now <= to && ReconciledBy(w, tx, attempts, t, now, canReleaseNonce)
    }

    /** How a durable rejection is settled: it waits for a clear receipt answer, then it is reconciled. */
    ghost predicate Settled(v: View, w: View, tx: Transaction, receiptReadFailed: bool, t: Told, from: nat, to: nat) {
      && v.history != [] && tx.assignedNonce.Some?
      && (if receiptReadFailed then Waits(w.row, tx, v.history, from)
          else ReconciledMeanwhile(w.row, tx, v.history, t, from, to, Top(v.held, tx.assignedNonce.value)))
    }

    /** How a step that went well, between two moments, leaves a row that no receipt completed. */
    ghost predicate Advanced(v: View, w: View, tx: Transaction, receiptReadFailed: bool, sending: Option<Sending>,
                             t: Told, from: nat, to: nat)
    {
      if tx.rejectedAttempt.Some? then
        sending.None? && w.history == v.history && Settled(v, w, tx, receiptReadFailed, t, from, to)
      else if tx.nonceConsumedAt.Some? && !(v.history != [] && tx.broadcastPending) then
        sending.None? && w.history == v.history && Polled(w.row, tx, v.history, from, to)
      else if v.history != [] && !tx.broadcastPending && sending.None? && !GateShut(t) then
        && from < NextBumpAt(tx.lane.chain, Latest(v.history))
        && w.history == v.history && Rescheduled(w.row, tx, v.history, 0)
      else
        && (v.history != [] && !tx.broadcastPending ==> NextBumpAt(tx.lane.chain, Latest(v.history)) <= to)
        && Attempted(v, w, tx, sending, t)
    }

    /** A row with a durable rejection: reconcile it, unless the receipt search was inconclusive. */
    method SettleRejection(lane: Lane, tx: Transaction, attempts: seq<Attempt>, receiptReadFailed: bool, nl: NonceLane)
      returns (res: StepResult)
      requires b.On(lane, tx.id) && attempts == b.V(lane, tx.id).history && CanAdvance(b.V(lane, tx.id), tx)
      requires attempts != [] && LocalOk(attempts, attempts) && tx.assignedNonce == b.V(lane, tx.id).row.assignedNonce
      requires tx.assignedNonce == Some(Latest(attempts).nonce) && tx.rejectedAttempt == Some(Latest(attempts).hash)
      requires b.V(lane, tx.id).row.rejectedAttempt == tx.rejectedAttempt
      requires !receiptReadFailed ==> forall i :: 0 <= i < |attempts| ==> attempts[i].hash in b.ev.noReceipt
      requires nl.Tracks(b.V(lane, tx.id).held)
      modifies b, b.q
      ensures b.Kept(lane, tx.id) && NothingSent(old(b.told), b.told)
      ensures res == Done || res == LaneStateChanged ==> b.Wrote(tx.id, |old(b.log)|)
      ensures res == Done || res == StepFailed || res == LaneStateChanged
      ensures res == StepFailed ==> b.Troubled()
      ensures
        var v, w := old(b.V(lane, tx.id)), b.V(lane, tx.id);
        && w.history == v.history && w.peers == v.peers
        && (res == Done ==> nl.Tracks(w.held) && w.row.receipt.None?)
        && (res == LaneStateChanged ==> Released(w.row))
        && (res == Done ==> Settled(v, w, tx, receiptReadFailed, b.told, old(b.clock), b.clock))
    {
      hide Inv, LogOk, AllWorking, Held, Peers, b.Ready, b.On, b.V, Owns, Top, nl.Tracks, CanAdvance, Rescheduled,
        Waits, ReconciledBy, Scheduled, Released, LocalOk, AllIn;
      if receiptReadFailed {
        res := ScheduleRetryAfterBlock(lane, tx, attempts);
      } else {
        AssignedHeld(lane, tx.id);
        res := ReconcileRejectedSubmission(lane, tx, attempts, b.clock, nl.IsTip(tx.assignedNonce.value));
      }
    }

    /** A step after receipt reconciliation: settle a durable rejection, poll a consumed nonce, wait for the bump
        time, or attempt. */
    method AdvanceRow(lane: Lane, tx: Transaction, attempts: seq<Attempt>, receiptReadFailed: bool, nl: NonceLane)
      returns (res: StepResult, ghost sending: Option<Sending>)
      requires b.On(lane, tx.id) && lane.sender == sender && attempts == b.V(lane, tx.id).history
      requires CanAdvance(b.V(lane, tx.id), b.V(lane, tx.id).row) && tx == Adopted(b.V(lane, tx.id).row, attempts)
      requires |attempts| <= MAX_FEE_REPLACEMENTS && forall i :: 0 <= i < |attempts| ==>
        OwnAttempt(b.V(lane, tx.id).row, attempts[i])
      requires !receiptReadFailed ==> forall i :: 0 <= i < |attempts| ==> attempts[i].hash in b.ev.noReceipt
      requires nl.Tracks(b.V(lane, tx.id).held) && b.told.hook.None?
      modifies b, b.q, nl
      ensures b.Kept(lane, tx.id)
      ensures res == Done || res == LaneStateChanged ==> b.Wrote(tx.id, |old(b.log)|)
      ensures res != Unprocessable && res != StepStale && (res == StepFailed ==> b.Troubled())
      ensures sending.None? ==> NothingSent(old(b.told), b.told)
      ensures sending.Some? ==> sending.value.attempts != [] && SentOne(old(b.told), b.told, sending.value)
      ensures res == AwaitingNodeNonce ==> NodeLags(old(b.V(lane, tx.id)), b.told)
      ensures
        var v, w := old(b.V(lane, tx.id)), b.V(lane, tx.id);
        && v.history <= w.history && |w.history| <= |v.history| + 1 && w.peers == v.peers
        && (res == Done ==> nl.Tracks(w.held))
        && (res == LaneStateChanged ==> Released(w.row))
        && (res == Done && w.row.receipt.Some? ==> CompletedBy(w.row, b.told))
        && (res == Done && w.row.receipt.None? ==>
              && b.told.receipts == old(b.told.receipts)
              && Advanced(v, w, tx, receiptReadFailed, sending, b.told, old(b.clock), b.clock))
        && (res == Done && sending.Some? && Signs(v, tx) ==> WroteAhead(b.log, |old(b.log)|, tx.id))
    {
      hide Inv, LogOk, AllWorking, Held, Peers, b.Ready, b.On, b.V, Owns, Top, nl.Tracks, CanAdvance, OwnAttempt,
        Attempted, Rescheduled, WroteAhead, SentOne, NodeLags, Scheduled, CompletedBy, Released, Settled, Adopted,
        LocalOk, Carries, Advanced;
      sending := None;
      ghost var v := b.V(lane, tx.id);
      AdoptedShape(v, tx);
      AdoptedCanAdvance(v);
      KeyedView(lane, tx.id);
      if tx.lane.sender != sender {
        return Unprocessable, None;
      }
      if tx.rejectedAttempt.Some? {
        if attempts == [] || tx.assignedNonce.None? || tx.rejectedAttempt.value != attempts[|attempts| - 1].hash {
          return Unprocessable, None;
        }
        ghost var from := b.clock;
        res := SettleRejection(lane, tx, attempts, receiptReadFailed, nl);
        if res == Done {
          SettledAdvanced(v, b.V(lane, tx.id), tx, receiptReadFailed, b.told, from, b.clock);
        }
        return;
      }
      res, sending := PaceRow(lane, tx, attempts, receiptReadFailed, nl);
    }

    lemma SettledAdvanced(v: View, w: View, tx: Transaction, receiptReadFailed: bool, t: Told, from: nat, to: nat)
      requires tx.rejectedAttempt.Some? && w.history == v.history && Settled(v, w, tx, receiptReadFailed, t, from, to)
      ensures Advanced(v, w, tx, receiptReadFailed, None, t, from, to)
    {
      hide Settled;
    }

    /** A row without a rejection: poll a consumed nonce, wait for the bump time, or attempt. */
    method PaceRow(lane: Lane, tx: Transaction, attempts: seq<Attempt>, ghost receiptReadFailed: bool, nl: NonceLane)
      returns (res: StepResult, ghost sending: Option<Sending>)
      requires b.On(lane, tx.id) && attempts == b.V(lane, tx.id).history
      requires CanAdvance(b.V(lane, tx.id), b.V(lane, tx.id).row) && tx == Adopted(b.V(lane, tx.id).row, attempts)
      requires |attempts| <= MAX_FEE_REPLACEMENTS && forall i :: 0 <= i < |attempts| ==>
        OwnAttempt(b.V(lane, tx.id).row, attempts[i])
      requires nl.Tracks(b.V(lane, tx.id).held) && b.told.hook.None? && tx.rejectedAttempt.None?
      modifies b, b.q, nl
      ensures b.Kept(lane, tx.id)
      ensures res == Done || res == LaneStateChanged ==> b.Wrote(tx.id, |old(b.log)|)
      ensures res != Unprocessable && res != StepStale && (res == StepFailed ==> b.Troubled())
      ensures sending.None? ==> NothingSent(old(b.told), b.told)
      ensures sending.Some? ==> sending.value.attempts != [] && SentOne(old(b.told), b.told, sending.value)
      ensures res == AwaitingNodeNonce ==> NodeLags(old(b.V(lane, tx.id)), b.told)
      ensures
        var v, w := old(b.V(lane, tx.id)), b.V(lane, tx.id);
        && v.history <= w.history && |w.history| <= |v.history| + 1 && w.peers == v.peers
        && (res == Done ==> nl.Tracks(w.held))
        && (res == LaneStateChanged ==> Released(w.row))
        && (res == Done && w.row.receipt.Some? ==> CompletedBy(w.row, b.told))
        && (res == Done && w.row.receipt.None? ==>
              && b.told.receipts == old(b.told.receipts)
              && Advanced(v, w, tx, receiptReadFailed, sending, b.told, old(b.clock), b.clock))
        && (res == Done && sending.Some? && Signs(v, tx) ==> WroteAhead(b.log, |old(b.log)|, tx.id))
    {
      hide Inv, LogOk, AllWorking, Held, Peers, b.Ready, b.On, b.V, Owns, Top, nl.Tracks, CanAdvance, OwnAttempt,
        Attempted, Rescheduled, WroteAhead, SentOne, NodeLags, Scheduled, CompletedBy, Released, Settled, Adopted,
        LocalOk, Carries;
      sending := None;
      ghost var v := b.V(lane, tx.id);
      AdoptedShape(v, tx);
      AdoptedCanAdvance(v);
      var resumeBroadcast := attempts != [] && tx.broadcastPending;
      if tx.nonceConsumedAt.Some? && !resumeBroadcast {
        res := PollConsumedNonce(lane, tx, attempts);
        return;
      }
      if attempts != [] && !tx.broadcastPending && b.clock < NextBumpAt(tx.lane.chain, attempts[|attempts| - 1]) {
        res := ScheduleNextCheck(lane, tx, attempts);
        return;
      }
      res, sending := AttemptRow(lane, tx, attempts, nl);
      if res == Done && b.V(lane, tx.id).row.receipt.None? {
        DeferredOrSent(v, b.V(lane, tx.id), tx, sending, b.told);
      }
    }

    /** The attempts of a row agree with each other: one nonce, one signer, hashes and nonces of the envelopes. */
    static method ValidatePersistedAttempts(attempts: seq<Attempt>) returns (ok: bool)
      ensures ok <==> Consistent(attempts)
    {
      if attempts == [] {
        return false;
      }
      for k := 0 to |attempts|
        invariant forall i :: 0 <= i < k ==> AgreesWith(attempts[0], attempts[i])
      {
        if !AgreesWith(attempts[0], attempts[k]) {
          return false;
        }
      }
      return true;
    }

    /** Advanced, with what the receipt search of the step itself said. */
    ghost predicate AdvancedOn(v: View, w: View, tx: Transaction, sending: Option<Sending>, t: Told, from: nat, to: nat)
    {
      Advanced(v, w, tx, t.receiptUnclear, sending, t, from, to)
    }

    lemma AdvancedSince(v: View, w: View, tx: Transaction, receiptReadFailed: bool, sending: Option<Sending>, t: Told,
                        from: nat, later: nat, to: nat)
      requires Advanced(v, w, tx, receiptReadFailed, sending, t, later, to) && from <= later
      requires sending.None? ==> receiptReadFailed == t.receiptUnclear
      ensures Advanced(v, w, tx, t.receiptUnclear, sending, t, from, to)
    {
      hide Rescheduled, ReconciledBy, Attempted, Top;
      if tx.rejectedAttempt.Some? && !receiptReadFailed {
        var now :| later <= now <= to &&
            ReconciledBy(w.row, tx, v.history, t, now, Top(v.held, tx.assignedNonce.value));
        assert from <= now;
      }
    }

    /** How a step leaves a row that no receipt completed: no good receipt was shown, the receipts of all attempts it
        came with were asked for, and the rest follows from the row as adopted and from what was said. */
    ghost predicate Stepped(v: View, w: View, sending: Option<Sending>, t: Told, from: nat, to: nat) {
      && t.receipts == {}
      && AllIn(v.history, if sending.None? then t.asked else t.askedBefore)
      && |t.sent| == (if sending.None? then 0 else 1)
      && Advanced(v, w, Adopted(v.row, v.history), t.receiptUnclear, sending, t, from, to)
    }

    /** One processTransactionStep. It touches no other row of the lane, adds at most one attempt, keeps the
        lane counter exact whenever the batch goes on, and on rows of this protocol never meets a permanent defect. A
        good receipt shown in the step completes the row; otherwise the step does what the row and the answers call for;
        and it fails only when something outside went wrong. */
    method ProcessTransactionStep(lane: Lane, tx: Transaction, nl: NonceLane)
      returns (res: StepResult, ghost sending: Option<Sending>)
      requires b.On(lane, tx.id) && b.q.txs[tx.id] == tx && !tx.IsCompleted() && lane.sender == sender
      requires nl.Tracks(b.V(lane, tx.id).held)
      modifies b, b.q, nl
      ensures b.On(lane, tx.id) && b.rest == old(b.rest) && old(b.log) <= b.log
      ensures b.visited == old(b.visited) + [tx.id] && old(b.clock) <= b.clock && old(b.troubles) <= b.troubles
      ensures res == Done || res == LaneStateChanged ==> b.Wrote(tx.id, |old(b.log)|)
      ensures res == Unprocessable <==> lane.chain !in clients
      ensures res != StepStale && (res == StepFailed ==> b.Troubled())
      ensures res == AwaitingNodeNonce ==> NodeLags(old(b.V(lane, tx.id)), b.told)
      ensures
        var v, w := old(b.V(lane, tx.id)), b.V(lane, tx.id);
        && v.history <= w.history && |w.history| <= |v.history| + 1 && w.peers == v.peers
        && (res.Continues() ==> nl.Tracks(w.held))
        && (res == LaneStateChanged ==> Released(w.row))
        && (res == Done ==> w.row.receipt.Some? || Stepped(v, w, sending, b.told, old(b.clock), b.clock))
        && (res == Done && w.row.receipt.Some? ==> CompletedBy(w.row, b.told))
        && (res == Done && sending.Some? && Signs(v, Adopted(v.row, v.history)) ==>
                WroteAhead(b.log, |old(b.log)|, tx.id))
    {
      hide Inv, LogOk, AllWorking, Held, Peers, Owns, Top, nl.Tracks, CanAdvance, OwnAttempt, Consistent, b.Ready, b.On,
        b.V, Advanced, AdvancedOn, WroteAhead, SentOne, NodeLags, Stepped, Adopted, CompletedBy, Released, Signs, AllIn,
        NothingSent;
      sending := None;
      b.Visit(lane, tx.id);
      RowFacts(lane, tx.id);
      ghost var v, n, from := b.V(lane, tx.id), |b.log|, b.clock;
      if tx.lane.chain !in clients {
        return Unprocessable, None;
      }
      b.Begin(lane, tx.id);
      var loaded := b.SelectAttempts(lane, tx.id);
      if loaded.None? {
        return StepFailed, None;
      }
      var attempts := loaded.value;
      ghost var m, later := |b.log|, b.clock;
      if attempts == [] {
        NothingToAdopt(tx);
        res, sending := AdvanceRow(lane, tx, attempts, false, nl);
        if res == Done && b.V(lane, tx.id).row.receipt.None? {
          SteppedFirst(v, b.V(lane, tx.id), sending, b.told, from, later, b.clock);
        }
      } else {
        ConsistentHistory(v);
        var ok := ValidatePersistedAttempts(attempts);
        if !ok {
          return Unprocessable, None;
        }
        res, sending := ReconcileAttempts(lane, tx, attempts, nl);
        if res == Done && b.V(lane, tx.id).row.receipt.None? {
          SteppedLater(v, b.V(lane, tx.id), sending, b.told, from, later, b.clock);
        }
      }
      WroteAheadEarlier(b.log, n, m, tx.id);
    }

    lemma SteppedFirst(v: View, w: View, sending: Option<Sending>, t: Told, from: nat, later: nat, to: nat)
      requires v.history == [] && from <= later && t.receipts == {}
      requires Advanced(v, w, v.row, false, sending, t, later, to)
      requires sending.None? ==> NothingSent(SILENCE, t)
      requires sending.Some? ==> sending.value.attempts != [] && SentOne(SILENCE, t, sending.value)
      ensures Stepped(v, w, sending, t, from, to)
    {
      hide Advanced;
      AdvancedSince(v, w, v.row, false, sending, t, from, later, to);
    }

    lemma SteppedLater(v: View, w: View, sending: Option<Sending>, t: Told, from: nat, later: nat, to: nat)
      requires v.history != [] && from <= later && t.receipts == {}
      requires AdvancedOn(v, w, Adopted(v.row, v.history), sending, t, later, to)
      requires |t.sent| == (if sending.None? then 0 else 1)
      requires AllIn(v.history, if sending.None? then t.asked else t.askedBefore)
      ensures Stepped(v, w, sending, t, from, to)
    {
      hide Advanced, AllIn;
      AdvancedSince(v, w, Adopted(v.row, v.history), t.receiptUnclear, sending, t, from, later, to);
    }

    /** A step on a row with durable attempts: a receipt for any of them completes the row. */
    method ReconcileAttempts(lane: Lane, stored: Transaction, attempts: seq<Attempt>, nl: NonceLane)
      returns (res: StepResult, ghost sending: Option<Sending>)
      requires b.On(lane, stored.id) && b.V(lane, stored.id).row == stored && lane.sender == sender
      requires attempts == b.V(lane, stored.id).history && attempts != [] && CanAdvance(b.V(lane, stored.id), stored)
      requires |attempts| <= MAX_FEE_REPLACEMENTS && forall i :: 0 <= i < |attempts| ==> OwnAttempt(stored, attempts[i])
      requires nl.Tracks(b.V(lane, stored.id).held) && b.told == SILENCE
      modifies b, b.q, nl
      ensures b.Kept(lane, stored.id)
      ensures res == Done || res == LaneStateChanged ==> b.Wrote(stored.id, |old(b.log)|)
      ensures res != Unprocessable && res != StepStale && (res == StepFailed ==> b.Troubled())
      ensures sending.None? && res == Done ==> b.told.sent == []
      ensures sending.Some? ==> |b.told.sent| == 1
      ensures res == AwaitingNodeNonce ==> NodeLags(old(b.V(lane, stored.id)), b.told)
      ensures
        var v, w := old(b.V(lane, stored.id)), b.V(lane, stored.id);
        && v.history <= w.history && |w.history| <= |v.history| + 1 && w.peers == v.peers
        && (res == Done ==> nl.Tracks(w.held))
        && (res == LaneStateChanged ==> Released(w.row))
        && (res == Done && w.row.receipt.None? ==>
              && b.told.receipts == {}
              && AllIn(attempts, if sending.None? then b.told.asked else b.told.askedBefore)
              && AdvancedOn(v, w, Adopted(stored, attempts), sending, b.told, old(b.clock), b.clock))
        && (res == Done && w.row.receipt.Some? ==> CompletedBy(w.row, b.told))
        && (res == Done && sending.Some? && Signs(v, Adopted(stored, attempts)) ==>
              WroteAhead(b.log, |old(b.log)|, stored.id))
    {
      hide Inv, LogOk, AllWorking, Held, Peers, b.Ready, b.On, b.V, Owns, Top, nl.Tracks, CanAdvance, OwnAttempt,
        Advanced, WroteAhead, NodeLags, Carries;
      sending := None;
      ghost var v, n, from := b.V(lane, stored.id), |b.log|, b.clock;
      AssignedHeld(lane, stored.id);
      AdoptedCanAdvance(v);
      var nonce := attempts[0].nonce;
      var tx := Adopted(stored, attempts);
      AdoptedShape(v, tx);
      nl.Observe(nonce, v.held);
      assert v.held + {nonce} == v.held;
      var found, failed := FindKnownReceipt(lane, tx.id, attempts);
      if found.Some? {
        res := FinalizeTransaction(lane, tx, found.value.hash, found.value);
        return;
      }
      if stored.assignedNonce.Some? && stored.assignedNonce.value != nonce {
        return Unprocessable, None;
      }
      ghost var m, later := |b.log|, b.clock;
      res, sending := AdvanceRow(lane, tx, attempts, failed, nl);
      WroteAheadEarlier(b.log, n, m, tx.id);
      if res == Done && b.V(lane, tx.id).row.receipt.None? {
        AdvancedSince(v, b.V(lane, tx.id), tx, failed, sending, b.told, from, later, b.clock);
      }
    }

    /** Record a failed step: a fresh copy of the row, deferred by a block. */
    method RescheduleTransaction(ghost lane: Lane, id: Id)
      requires b.On(lane, id)
      modifies b, b.q
      ensures b.Kept(lane, id)
      ensures
        var v, w := old(b.V(lane, id)), b.V(lane, id);
        && w.history == v.history && w.peers == v.peers && w.held == v.held
        && w.row == v.row.(status := w.row.status, nextActionAt := w.row.nextActionAt, updatedAt := w.row.updatedAt)
        && (v.row.IsCompleted() <==> w.row.IsCompleted()) && (v.row.IsCompleted() ==> w == v)
        && (!v.row.IsCompleted() && !b.Troubled() ==>
              && w.row.nextActionAt == old(b.clock) + BlockTime(v.row.lane.chain) && w.row.updatedAt == old(b.clock)
              && (v.row.tx.Some? || v.row.assignedNonce.Some? ==> w.row.status == Confirming))
    {
      hide Inv, LogOk, AllWorking, Held, Peers, Owns, b.Ready, b.On, b.V, CanEnd, OwnAttempt;
      var reloaded := b.GoesThrough(lane, id);
      KeyedView(lane, id);
      if !reloaded || b.q.txs[id].IsCompleted() {
        return;
      }
      var current := b.q.txs[id];
      RowFacts(lane, id);
      var row := current.(nextActionAt := b.clock + BlockTime(current.lane.chain), updatedAt := b.clock,
                          status := if current.tx.Some? || current.assignedNonce.Some? then Confirming
                                    else current.status);
      var _ := b.UpdateIfActive(lane, row);
    }

    /** One row of a batch: its step and, after a failure, its deferral. The batch may go on only when the lane
        counter still stands for exactly what the lane durably holds, and it stops only at a barrier or in trouble. */
    method ProcessBatchRow(lane: Lane, tx: Transaction, nl: NonceLane, ghost later: seq<Transaction>)
      returns (goOn: bool, ghost res: StepResult, ghost stepTroubles: nat)
      requires b.Ready(lane) && b.Holds([tx] + later) && lane.sender == sender
      requires nl.Tracks(Held(b.q.txs, lane))
      modifies b, b.q, nl
      ensures b.Ready(lane) && old(b.log) <= b.log && b.Holds(later)
      ensures b.visited == old(b.visited) + [tx.id] && old(b.clock) <= b.clock && old(b.troubles) <= b.troubles
      ensures goOn ==> nl.Tracks(Held(b.q.txs, lane))
      ensures !goOn ==> b.Troubled() || res == AwaitingNodeNonce || res == LaneStateChanged
      ensures old(b.troubles) <= stepTroubles <= b.troubles && tx.id in b.q.txs
      ensures (res == StepFailed || res == Unprocessable) && b.troubles == stepTroubles ==>
        b.q.txs[tx.id].IsCompleted() || b.q.txs[tx.id].nextActionAt >= old(b.clock) + BlockTime(lane.chain)
    {
      hide Inv, LogOk, Held, Peers, nl.Tracks, AllWorking, Current, Stepped, WroteAhead, NodeLags, Released,
        CompletedBy, Signs, Adopted, b.Ready, b.On, b.V, b.Holds;
      TakeUp(lane, tx, later);
      var r, _ := ProcessTransactionStep(lane, tx, nl);
      res, stepTroubles := r, b.troubles;
      StillHolds(lane, tx.id, later);
      if r == Done || r == StepStale {
        return true, res, stepTroubles;
      }
      if r == AwaitingNodeNonce || r == LaneStateChanged {
        return false, res, stepTroubles;
      }
      var notCancelled := PutOff(lane, tx.id, later);
      goOn := notCancelled && r == Unprocessable;
    }

    /** The row leaves the rest of the batch and becomes the one at work. */
    ghost method TakeUp(lane: Lane, tx: Transaction, later: seq<Transaction>)
      requires b.Ready(lane) && b.Holds([tx] + later)
      modifies b`rest
      ensures b.On(lane, tx.id) && b.q.txs[tx.id] == tx && !tx.IsCompleted() && b.S() == old(b.S())
      ensures b.rest == (set t | t in later :: t.id) && Current(later, b.V(lane, tx.id).peers)
      ensures forall i, j :: 0 <= i < j < |later| ==> later[i].id != later[j].id
      ensures b.V(lane, tx.id).held == Held(b.q.txs, lane)
    {
      hide Inv, LogOk, Held, Peers, AllWorking, Current;
      TakeRow(lane, tx, later);
      b.rest := b.rest - {tx.id};
    }

    /** Between two rows again. */
    lemma StillHolds(lane: Lane, id: Id, later: seq<Transaction>)
      requires b.On(lane, id) && b.rest == (set t | t in later :: t.id) && Current(later, b.V(lane, id).peers)
      requires forall i, j :: 0 <= i < j < |later| ==> later[i].id != later[j].id
      ensures b.Ready(lane) && b.Holds(later) && b.V(lane, id).held == Held(b.q.txs, lane) && id in b.q.txs
      ensures b.q.txs[id].IsCompleted() == b.V(lane, id).row.IsCompleted()
      ensures b.q.txs[id].nextActionAt == b.V(lane, id).row.nextActionAt || b.V(lane, id).row.IsCompleted()
    {
      hide Inv, LogOk, Held, Peers, AllWorking, Current;
      CurrentRows(b.S(), b.rest, later);
    }

    /** After a failed step: unless the manager is shutting down, the row is deferred. */
    method PutOff(lane: Lane, id: Id, ghost later: seq<Transaction>) returns (notCancelled: bool)
      requires b.On(lane, id) && b.rest == (set t | t in later :: t.id) && Current(later, b.V(lane, id).peers)
      requires forall i, j :: 0 <= i < j < |later| ==> later[i].id != later[j].id
      modifies b, b.q
      ensures b.Ready(lane) && old(b.log) <= b.log && b.Holds(later) && id in b.q.txs
      ensures b.visited == old(b.visited) && old(b.clock) <= b.clock && old(b.troubles) <= b.troubles
      ensures Held(b.q.txs, lane) == old(b.V(lane, id)).held
      ensures !notCancelled ==> b.Troubled()
      ensures !b.Troubled() ==>
        b.q.txs[id].IsCompleted() || b.q.txs[id].nextActionAt >= old(b.clock) + BlockTime(lane.chain)
    {
      hide Inv, LogOk, Held, Peers, AllWorking, Current, b.Ready, b.On, b.V, b.Holds;
      StillHolds(lane, id, later);
      ghost var v := b.V(lane, id);
      var cancelled := b.Cancelled(lane, later);
      if cancelled {
        return false;
      }
      KeyedView(lane, id);
      RescheduleTransaction(lane, id);
      StillHolds(lane, id, later);
      notCancelled := true;
    }

    lemma TakeRow(lane: Lane, tx: Transaction, later: seq<Transaction>)
      requires b.Ready(lane) && b.Holds([tx] + later)
      ensures tx.id in b.q.txs && b.q.txs[tx.id] == tx && tx.lane == lane && !tx.IsCompleted()
      ensures b.rest - {tx.id} == set t | t in later :: t.id
      ensures AllWorking(b.S(), lane, b.rest - {tx.id})
      ensures Current(later, Peers(b.S(), b.rest - {tx.id}))
      ensures forall i, j :: 0 <= i < j < |later| ==> later[i].id != later[j].id
    {
      hide Inv, LogOk;
      var batch := [tx] + later;
      assert tx in batch && tx.id in b.rest && Working(b.S(), lane, tx.id);
      assert forall t :: t in later ==> t in batch;
      DropFirst(tx, later);
    }

    static function Ids(batch: seq<Transaction>): (r: seq<Id>)
      ensures |r| == |batch| && forall i :: 0 <= i < |batch| ==> r[i] == batch[i].id
    {
      seq(|batch|, i requires 0 <= i < |batch| => batch[i].id)
    }

    /** What a pass over a lane did: the rows chosen from the store as it then was, how many of them were stepped, and
        how the last step ended. */
    ghost predicate WorkedThrough(lane: Lane, chosenFrom: State, batch: seq<Transaction>, stepped: nat,
                                  last: StepResult, before: seq<Id>, visited: seq<Id>, troubled: bool)
    {
      && (!troubled ==> Selects(chosenFrom.rows, lane, chosenFrom.now, MAX_TRANSACTIONS_PER_LANE, batch))
      && stepped <= |batch| && visited == before + Ids(batch[..stepped])
      && (stepped < |batch| ==> troubled || last == AwaitingNodeNonce || last == LaneStateChanged)
    }

    /** One batch of a lane: lock, read the high-water nonce, select, step row by row, unlock. Everything done in
        between was a legal protocol event, and the store satisfies the protocol invariant afterwards. Unless something
        outside went wrong, a free lane is worked through up to the first barrier. */
    method ProcessLaneBatch(chain: ChainId)
      returns (locked: bool, ghost last: State, ghost chosenFrom: State, ghost batch: seq<Transaction>,
               ghost stepped: nat, ghost lastStep: StepResult)
      requires Inv(b.S())
      modifies b, b.q
      ensures Inv(b.S())
      ensures locked ==> LogOk(b.log, Lane(sender, chain), b.ev, last)
      ensures locked ==> b.S() == last.(locks := last.locks - {Lane(sender, chain)})
      ensures !locked && Lane(sender, chain) !in old(b.q.laneLocks) ==> b.Troubled()
      ensures locked ==>
        WorkedThrough(Lane(sender, chain), chosenFrom, batch, stepped, lastStep, old(b.visited), b.visited,
                                       b.Troubled())
    {
      hide Inv, LogOk, Held, Selects;
      last, chosenFrom, batch, stepped, lastStep := b.S(), b.S(), [], 0, Done;
      locked := false;
      var lane := Lane(sender, chain);
      var cancelled := b.Cancelled(lane, []);
      if cancelled {
        return;
      }
      locked := b.AcquireLane(lane);
      if locked {
        chosenFrom, batch, stepped, lastStep := WorkLane(lane);
        last := b.S();
        b.ReleaseLane(lane);
      }
    }

    /** The part of processLaneBatch under the lock. */
    method WorkLane(lane: Lane)
      returns (ghost chosenFrom: State, ghost batch: seq<Transaction>, ghost stepped: nat, ghost lastStep: StepResult)
      requires b.Ready(lane) && lane.sender == sender
      modifies b, b.q
      ensures b.Ready(lane) && old(b.log) <= b.log && old(b.clock) <= b.clock && old(b.troubles) <= b.troubles
      ensures WorkedThrough(lane, chosenFrom, batch, stepped, lastStep, old(b.visited), b.visited, b.Troubled())
    {
      hide Inv, LogOk, Held, Selects, AllWorking, b.Ready, b.Holds, Top;
      chosenFrom, batch, stepped, lastStep := b.S(), [], 0, Done;
      var high := b.MaxAssignedNonce(lane);
      if high.None? {
        return;
      }
      var nl := new NonceLane(high.value.0, high.value.1, Held(b.q.txs, lane));
      chosenFrom := b.S();
      var selected := b.SelectLaneBatch(lane, MAX_TRANSACTIONS_PER_LANE);
      if selected.None? {
        return;
      }
      var rows := selected.value;
      batch := rows;
      for k := 0 to |rows|
        invariant b.Ready(lane) && old(b.log) <= b.log && old(b.clock) <= b.clock && old(b.troubles) <= b.troubles
        invariant b.Holds(rows[k..]) && nl.Tracks(Held(b.q.txs, lane))
        invariant stepped == k && b.visited == old(b.visited) + Ids(rows[..k])
      {
        var cancelled := b.Cancelled(lane, rows[k..]);
        if cancelled {
          return;
        }
        assert rows[k..] == [rows[k]] + rows[k + 1..];
        var goOn, last, _ := ProcessBatchRow(lane, rows[k], nl, rows[k + 1..]);
        lastStep := last;
        assert Ids(rows[..k + 1]) == Ids(rows[..k]) + [rows[k].id];
        stepped := k + 1;
        if !goOn {
          return;
        }
      }
    }

    lemma RowFacts(lane: Lane, id: Id)
      requires b.On(lane, id) && !b.q.txs[id].IsCompleted()
      ensures
        var v := b.V(lane, id);
        && v.row == b.q.txs[id] && v.row.id == id && v.row.lane == lane
        && CanAdvance(v, v.row)
        && |v.history| <= MAX_FEE_REPLACEMENTS && (v.history == [] ==> v.row.tx.None?)
        && (forall i :: 0 <= i < |v.history| ==> OwnAttempt(v.row, v.history[i]))
    {
      hide LogOk, AllWorking, Held, Peers, OwnAttempt, CanAdvance;
      ViewFacts(b.S(), lane, b.rest, id);
    }

    lemma AssignedHeld(lane: Lane, id: Id)
      requires b.On(lane, id)
      ensures b.V(lane, id).row.assignedNonce.Some? ==> b.V(lane, id).row.assignedNonce.value in b.V(lane, id).held
    {
      hide LogOk, AllWorking, Held, Peers;
      HeldMember(b.S(), lane, id);
    }

    lemma OwnTxs(lane: Lane, id: Id)
      requires b.On(lane, id) && !b.V(lane, id).row.IsCompleted()
      ensures forall i :: 0 <= i < |b.V(lane, id).history| ==> OwnAttempt(b.V(lane, id).row, b.V(lane, id).history[i])
    {
      hide LogOk, AllWorking, Held, Peers, OwnAttempt;
      ViewFacts(b.S(), lane, b.rest, id);
    }

    lemma PersistedIsLocal(lane: Lane, v: View, tx: Transaction, row: Transaction, extended: seq<Attempt>, a: Attempt)
      requires b.On(lane, tx.id) && AddsAtMostOne(v, b.V(lane, tx.id), Some(a)) && SignedFor(v, a) && Carries(v, tx) &&
        CanSign(v)
      requires extended == v.history + [a] && tx.assignedNonce == v.row.assignedNonce
      requires forall i :: 0 <= i < |v.history| ==> OwnAttempt(v.row, v.history[i])
      requires row == tx.(tx := Some(a.tx), status := Confirming, broadcastPending := true, rejectedAttempt := None,
                          nextActionAt := row.nextActionAt, updatedAt := row.updatedAt)
      ensures LocalOk(extended, b.V(lane, tx.id).history) && tx.assignedNonce == Some(Latest(extended).nonce)
      ensures CanSave(b.V(lane, tx.id), b.ev, row) && row.tx == Some(Latest(extended).hash)
    {
      hide Inv, LogOk, AllWorking, Held, Peers, Top, ProvenUnadmitted, CanEnd;
      var w := b.V(lane, tx.id);
      if w.history == v.history + [a] {
        assert w.history[|v.history|] == a;
      } else {
        KeyedView(lane, tx.id);
        TwinIsLatest(b.S(), tx.id, v.row, a);
      }
      assert Owns(w.history, a.hash);
    }

    /** After the write, the store itself says that the broadcast of its newest attempt is open. */
    lemma OpenInStore(lane: Lane, row: Transaction, extended: seq<Attempt>)
      requires b.On(lane, row.id) && b.V(lane, row.id).row == row && !row.IsCompleted() && row.broadcastPending
      requires LocalOk(extended, b.V(lane, row.id).history) && row.tx == Some(Latest(extended).hash)
      ensures extended != [] && row.id in b.S().rows && b.S().rows[row.id] == row
      ensures Att(b.S(), row.id) != [] &&
        Latest(Att(b.S(), row.id)).hash == Latest(extended).hash
    {
      hide Inv, LogOk, AllWorking, Held, Peers;
    }

    lemma PersistedGrew(lane: Lane, v: View, id: Id, a: Attempt)
      requires b.On(lane, id) && AddsAtMostOne(v, b.V(lane, id), Some(a)) && SignedFor(v, a)
      requires forall i :: 0 <= i < |v.history| ==> OwnAttempt(v.row, v.history[i])
      ensures Grew(v, b.V(lane, id))
    {
      hide Inv, LogOk, AllWorking, Held, Peers;
      if b.V(lane, id).history == v.history {
        TwinIsLatest(b.S(), id, v.row, a);
        assert OwnAttempt(v.row, Latest(v.history));
      }
    }

    lemma KeyedView(lane: Lane, id: Id)
      requires b.On(lane, id)
      ensures b.V(lane, id).row.id == id && b.V(lane, id).row.lane == lane
      ensures id in b.q.txs && b.q.txs[id].IsCompleted() == b.V(lane, id).row.IsCompleted()
    {
      ViewId(b.S(), lane, b.rest, id);
    }
  }

  lemma DropFirst(tx: Transaction, later: seq<Transaction>)
    requires forall i, j :: 0 <= i < j < |later| + 1 ==> ([tx] + later)[i].id != ([tx] + later)[j].id
    ensures (set t | t in [tx] + later :: t.id) - {tx.id} == set t | t in later :: t.id
    ensures forall i, j :: 0 <= i < j < |later| ==> later[i].id != later[j].id
  {
    var batch := [tx] + later;
    assert forall i :: 0 <= i < |later| ==> later[i] == batch[i + 1];
    forall t | t in later ensures t.id != tx.id {
      var i :| 0 <= i < |later| && later[i] == t;
      assert batch[0].id != batch[i + 1].id;
    }
    assert forall t :: t in batch <==> t == tx || t in later;
  }

  ghost predicate Current(later: seq<Transaction>, peers: map<Id, (Transaction, seq<Attempt>)>) {
    forall t :: t in later ==> t.id in peers && peers[t.id].0 == t
  }

  lemma CurrentRows(s: State, rest: set<Id>, later: seq<Transaction>)
    requires Current(later, Peers(s, rest))
    ensures forall t :: t in later ==> t.id in s.rows && s.rows[t.id] == t
  {
  }

  /** Two attempts of one row carry one nonce and one signer, and each record matches its envelope. */
  predicate AgreesWith(first: Attempt, a: Attempt) {
    && a.tx == a.hash && a.tx.nonce == a.nonce && a.nonce == first.nonce && a.tx.lane.sender == first.tx.lane.sender
  }

  predicate Consistent(attempts: seq<Attempt>) {
    attempts != [] && forall i :: 0 <= i < |attempts| ==> AgreesWith(attempts[0], attempts[i])
  }

  lemma ConsistentHistory(v: View)
    requires forall i :: 0 <= i < |v.history| ==> OwnAttempt(v.row, v.history[i])
    ensures v.history != [] ==> Consistent(v.history)
  {
    forall i | 0 <= i < |v.history| ensures AgreesWith(v.history[0], v.history[i]) {
      assert OwnAttempt(v.row, v.history[0]) && OwnAttempt(v.row, v.history[i]);
    }
  }

  // ----- what an adopted row lets the step do -----

  lemma AdoptedShape(v: View, tx: Transaction)
    requires CanAdvance(v, v.row) && tx == Adopted(v.row, v.history)
    requires forall i :: 0 <= i < |v.history| ==> OwnAttempt(v.row, v.history[i])
    ensures Carries(v, tx) && tx.id == v.row.id && tx.lane == v.row.lane
    ensures tx.assignedNonce == v.row.assignedNonce && tx.rejectedAttempt == v.row.rejectedAttempt
    ensures tx.nonceConsumedAt == v.row.nonceConsumedAt && (tx.nonceConsumedAt.Some? ==> v.history != [])
    ensures tx.rejectedAttempt.Some? ==> v.history != [] && tx.rejectedAttempt.value == Latest(v.history).hash
    ensures v.history != [] ==> LocalOk(v.history, v.history) && tx.assignedNonce == Some(Latest(v.history).nonce)
                                && tx.assignedNonce == Some(v.history[0].nonce)
  {
    AdoptedCanAdvance(v);
    if v.history != [] {
      assert OwnAttempt(v.row, Latest(v.history)) && OwnAttempt(v.row, v.history[0]);
      forall i | 0 <= i < |v.history| ensures v.history[i].tx == v.history[i].hash {
        assert OwnAttempt(v.row, v.history[i]);
      }
    }
  }

  lemma ResumeFacts(v: View, tx: Transaction)
    requires CanAdvance(v, v.row) && tx == Adopted(v.row, v.history) && v.history != [] && tx.broadcastPending &&
      tx.rejectedAttempt.None?
    requires forall i :: 0 <= i < |v.history| ==> OwnAttempt(v.row, v.history[i])
    ensures Carries(v, tx) && LocalOk(v.history, v.history) && MaySend(v, Latest(v.history).hash)
    ensures tx.assignedNonce == v.row.assignedNonce && tx.assignedNonce == Some(Latest(v.history).nonce)
    ensures tx.tx == Some(Latest(v.history).hash)
  {
    AdoptedCanAdvance(v);
    assert OwnAttempt(v.row, Latest(v.history));
    forall i | 0 <= i < |v.history| ensures v.history[i].tx == v.history[i].hash {
      assert OwnAttempt(v.row, v.history[i]);
    }
  }

  lemma AdoptedFacts(v: View, tx: Transaction)
    requires CanAdvance(v, v.row) && tx == Adopted(v.row, v.history) && tx.rejectedAttempt.None? &&
      tx.nonceConsumedAt.None?
    requires |v.history| <= MAX_FEE_REPLACEMENTS && (v.history != [] ==> !tx.broadcastPending)
    requires forall i :: 0 <= i < |v.history| ==> OwnAttempt(v.row, v.history[i])
    ensures Carries(v, tx) && tx.id == v.row.id && tx.assignedNonce == v.row.assignedNonce
    ensures tx.assignedNonce.None? ==> v.history == []
    ensures tx.receipt.None? && tx.notifiedAt.None?
    ensures |v.history| < MAX_FEE_REPLACEMENTS && tx.assignedNonce.Some? ==> CanSign(v)
    ensures v.history != [] ==> LocalOk(v.history, v.history) && tx.assignedNonce == Some(Latest(v.history).nonce)
    ensures |v.history| == MAX_FEE_REPLACEMENTS ==> MaySend(v, Latest(v.history).hash)
    ensures v.history != [] ==> tx.tx == Some(Latest(v.history).hash)
  {
    AdoptedCanAdvance(v);
    if v.history != [] {
      assert OwnAttempt(v.row, Latest(v.history));
      forall i | 0 <= i < |v.history| ensures v.history[i].tx == v.history[i].hash {
        assert OwnAttempt(v.row, v.history[i]);
      }
    }
  }

  lemma AssignedSignable(w: View, tx: Transaction, row: Transaction)
    requires w.row == row && w.history == [] && row.assignedNonce.Some?
    requires row == tx.(assignedNonce := row.assignedNonce, status := Processing, updatedAt := row.updatedAt)
    requires tx.rejectedAttempt.None? && tx.nonceConsumedAt.None? && tx.receipt.None? && tx.notifiedAt.None?
    ensures Carries(w, row) && CanSign(w)
  {
  }

  // ----- collision recovery -----

  /** A signing adds at most its own attempt to the durable history. */
  ghost predicate AddsAtMostOne(v: View, w: View, attempt: Option<Attempt>) {
    && w.row == v.row && w.held == v.held && w.peers == v.peers
    && v.history <= w.history && |w.history| <= |v.history| + 1
    && (attempt.Some? ==> w.history == v.history + [attempt.value] || (w == v && Owns(v.history, attempt.value.hash)))
  }

  /** A row signed again at unchanged (zero) fees reproduces its newest attempt, never an older one. */
  lemma TwinIsLatest(s: State, id: Id, r: Transaction, a: Attempt)
    requires Inv(s) && id in s.rows && Owns(Att(s, id), a.hash)
    requires a.hash == a.tx && a.tx.nonce == a.nonce
    requires Att(s, id) != [] ==> F.OneTenthAbove(Latest(Att(s, id)).tx.fees, a.tx.fees)
    ensures a.hash == Latest(Att(s, id)).hash && a.nonce == Latest(Att(s, id)).nonce
  {
    hide OwnerOk, NoncesUnique, NoncesReported, SentDurable, KeysUnique;
    var history := Att(s, id);
    assert RowOk(s, id);
    var i :| 0 <= i < |history| && history[i].hash == a.hash;
    FeesClimb(history, i, |history| - 1);
    F.OneTenthAboveNoLower(Latest(history).tx.fees, a.tx.fees);
    assert AttemptOk(s, s.rows[id], history[i]) && AttemptOk(s, s.rows[id], Latest(history));
  }

  lemma SentAhead(log: seq<Entry>, n: nat, before: State, id: Id, h: Hash, d: Disposition)
    requires SentIn(log, n, before, id, h, d) && id in before.rows && Att(before, id) != [] &&
      Latest(Att(before, id)).hash == h
    requires before.rows[id].broadcastPending && before.rows[id].tx == Some(h)
    ensures forall m :: 0 <= m <= n ==> WroteAhead(log, m, id)
  {
    assert SentOpen(log[n], id);
  }

  lemma StillCarries(v: View, w: View, tx: Transaction, row: Transaction, extended: seq<Attempt>)
    requires Carries(v, tx) && w.row == Seen(row) && LocalOk(extended, w.history)
    requires row == tx.(tx := row.tx, status := Confirming, broadcastPending := true, rejectedAttempt := None,
                        nextActionAt := row.nextActionAt, updatedAt := row.updatedAt)
    ensures Carries(w, row) && MaySend(w, Latest(extended).hash)
  {
  }

  lemma CarriesLane(v: View, tx: Transaction)
    requires Carries(v, tx) && CanSign(v) && tx.assignedNonce == v.row.assignedNonce
    ensures tx.lane == v.row.lane && tx.id == v.row.id && tx.payload == v.row.payload && tx.assignedNonce.Some?
    ensures !v.row.IsCompleted()
  {
  }

  lemma ZeroFeesBefore(start: State, s: State, lane: Lane, nonce: Nonce, setCode: bool)
    requires Rely(lane, start, s) && NoPositiveFee(s, lane, nonce, setCode)
    ensures NoPositiveFee(start, lane, nonce, setCode)
  {
  }

  /** An envelope of the row's lane, nonce and kind is on record. */
  ghost predicate Recorded(s: State, h: Hash, lane: Lane, tx: Transaction) {
    h in s.owner && h.lane == lane && Some(h.nonce) == tx.assignedNonce && h.fees.SetCode? == (tx.payload.auths != [])
  }

  lemma StaysRecorded(s: State, t: State, h: Hash, lane: Lane)
    requires Rely(lane, s, t) && h in s.owner
    ensures h in t.owner
  {
  }

  /** The list read after a conflict holds the conflicting envelope and nothing that contradicts its record. */
  lemma ConflictIsListed(list: seq<Attempt>, s: State, lane: Lane, tx: Transaction, h: Hash)
    requires tx.assignedNonce.Some? && Lists(list, s, lane, tx.assignedNonce.value) && Recorded(s, h, lane, tx)
    ensures exists i :: 0 <= i < |list| && F.Comparable(list[i], lane, tx.payload.auths != [])
    ensures forall i :: 0 <= i < |list| ==> list[i].tx == list[i].hash && list[i].tx.nonce == list[i].nonce
  {
    var i :| 0 <= i < |list| && list[i].tx == h;
    assert F.Comparable(list[i], lane, tx.payload.auths != []);
  }

  /** No envelope recorded for the lane at this nonce, of this kind, carries a positive fee. */
  ghost predicate NoPositiveFee(s: State, lane: Lane, nonce: Nonce, setCode: bool) {
    forall h: Hash :: h in s.owner && h.lane == lane && h.nonce == nonce && h.fees.SetCode? == setCode ==>
        !F.PositiveFee(h.fees)
  }

  ghost predicate FloorCovers(floor: F.GasFee, s: State, lane: Lane, nonce: Nonce, setCode: bool) {
    forall h: Hash :: h in s.owner && h.lane == lane && h.nonce == nonce && h.fees.SetCode? == setCode ==>
        F.Covers(floor, F.FeeOf(h.fees))
  }

  lemma FloorFromList(list: seq<Attempt>, floor: F.GasFee, s: State, lane: Lane, nonce: Nonce, setCode: bool)
    requires Lists(list, s, lane, nonce)
    requires forall i :: 0 <= i < |list| && F.Comparable(list[i], lane, setCode) ==>
      F.Covers(floor, F.FeeOf(list[i].tx.fees))
    ensures FloorCovers(floor, s, lane, nonce, setCode)
  {
    forall h: Hash | h in s.owner && h.lane == lane && h.nonce == nonce && h.fees.SetCode? == setCode
      ensures F.Covers(floor, F.FeeOf(h.fees))
    {
      var i :| 0 <= i < |list| && list[i].tx == h;
      assert F.Comparable(list[i], lane, setCode);
    }
  }

  /** What signAttempt produces is an envelope of this row, on the fee ladder. */
  lemma SigningIsSound(v: View, tx: Transaction, attempts: seq<Attempt>, floor: Option<F.GasFee>, node: F.Suggestion,
                       a: Attempt)
    requires CanSign(v) && Carries(v, tx) && attempts == v.history && tx.assignedNonce == v.row.assignedNonce
    requires forall i :: 0 <= i < |attempts| ==> attempts[i].tx.fees.SetCode? == (tx.payload.auths != [])
    requires a == Attempt(tx.id, a.tx, a.tx.nonce, a.tx, a.createdAt)
    requires a.tx == Envelope(tx.lane, tx.assignedNonce.value, tx.payload,
                              TxManager.SigningFees(tx, attempts, floor, node))
    ensures SignedFor(v, a)
  {
    var setCode := tx.payload.auths != [];
    F.NextFeesFit(setCode, node, if attempts == [] then None else Some(attempts[|attempts| - 1].tx.fees), floor,
                  F.PRIORITY_COEFFICIENT * (|attempts| + 1));
    if attempts != [] {
      F.FeeLadder(setCode, node, attempts[|attempts| - 1].tx.fees, floor, |attempts| + 1);
    }
  }

  /** A signing answers the node: its fees are of the transaction's kind and are bumped by fifteen percent for every
      attempt so far and this one, from the highest of the suggestion, the newest attempt and the floor. */
  lemma SigningAnswersTheNode(tx: Transaction, attempts: seq<Attempt>, floor: Option<F.GasFee>, node: F.Suggestion)
    ensures
      var fees := TxManager.SigningFees(tx, attempts, floor, node);
      var previous := if attempts == [] then None else Some(attempts[|attempts| - 1].tx.fees);
      && F.FitsKind(fees, tx.payload.auths != [])
      && F.Answers(fees, node, previous, floor, 15 * (|attempts| + 1))
  {
    hide F.Answers, F.NextFees;
    var setCode, coef := tx.payload.auths != [], 15 * (|attempts| + 1);
    var previous := if attempts == [] then None else Some(attempts[|attempts| - 1].tx.fees);
    F.NextFeesFit(setCode, node, previous, floor, coef);
    F.FeesAnswerTheNode(setCode, node, previous, floor, coef);
  }

  /** A signing above the floor conflicts only when every fee recorded at the nonce is zero. */
  lemma ConflictNeedsZeroFees(start: State, s: State, lane: Lane, tx: Transaction, attempts: seq<Attempt>,
                              floor: F.GasFee, node: F.Suggestion, signed: Envelope)
    requires Rely(lane, start, s) && tx.lane == lane && tx.assignedNonce.Some?
    requires FloorCovers(floor, s, lane, tx.assignedNonce.value, tx.payload.auths != [])
    requires signed == Envelope(tx.lane, tx.assignedNonce.value, tx.payload,
                                TxManager.SigningFees(tx, attempts, Some(floor), node))
    requires signed in s.owner
    ensures NoPositiveFee(start, lane, tx.assignedNonce.value, tx.payload.auths != [])
  {
    var setCode := tx.payload.auths != [];
    var previous := if attempts == [] then None else Some(attempts[|attempts| - 1].tx.fees);
    F.NextFeesFit(setCode, node, previous, Some(floor), F.PRIORITY_COEFFICIENT * (|attempts| + 1));
    assert F.Covers(floor, F.FeeOf(signed.fees));
    forall h: Hash | h in start.owner && h.lane == lane && h.nonce == tx.assignedNonce.value &&
        h.fees.SetCode? == setCode
      ensures !F.PositiveFee(h.fees)
    {
      assert h in s.owner && F.Covers(floor, F.FeeOf(h.fees));
      if F.PositiveFee(h.fees) {
        F.FloorSeparates(setCode, node, previous, floor, F.PRIORITY_COEFFICIENT * (|attempts| + 1), signed.fees);
      }
    }
  }

  lemma AnsweredCanAdvance(v: View, tx: Transaction, row: Transaction, d: Disposition)
    requires Carries(v, tx) && v.history != [] && v.settled == d.Definite()
    requires row.rejectedAttempt.Some? ==> d.Definite() && row.rejectedAttempt.value == Latest(v.history).hash
    requires !d.Definite() ==> row.broadcastPending
    requires row == tx.(rejectedAttempt := row.rejectedAttempt, broadcastPending := row.broadcastPending,
                        nonceConsumedAt := row.nonceConsumedAt)
    ensures CanAdvance(v, row) && !row.IsCompleted()
  {
  }

  /** Once a legal row has been written, its in-memory original is still a legal write. */
  lemma StillCanAdvance(v: View, w: View, row: Transaction)
    requires CanAdvance(v, row) && w.history == v.history && w.settled == v.settled
    requires w.row == row.(status := w.row.status, nextActionAt := w.row.nextActionAt, updatedAt := w.row.updatedAt) &&
      !w.row.IsCompleted()
    ensures CanAdvance(w, row)
  {
  }

  lemma TerminalCanSave(v: View, ev: Evidence, tx: Transaction, row: Transaction)
    requires CanEnd(v, ev, tx) && EntersOutbox(row)
    requires row == tx.(updatedAt := row.updatedAt, nextActionAt := row.nextActionAt, notifiedAt := row.notifiedAt,
                        notificationAttempts := row.notificationAttempts, nextNotificationAt := row.nextNotificationAt)
    ensures CanSave(v, ev, row)
  {
    hide Top, ProvenUnadmitted, Owns;
  }
}
