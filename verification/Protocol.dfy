/**
 The nonce-lane protocol behind evm/txmngr/txmngr.go, stated on the durable store and on what the node
 has been told and has answered. An event is one atomic action of the manager that holds a lane's lock:
 a store write, a network call, or a node answer. `Legal` is the protocol's rule for each event and `Inv`
 is what every legal event keeps, so a crash between any two events leaves a state that satisfies `Inv`.
 */
module Protocol {
  import opened TxTypes
  import F = Fees

  /** The first four fields are durable; the rest is history that only statements refer to. */
  datatype State = State(
    rows: map<Id, Transaction>,
    attempts: map<Id, seq<Attempt>>,
    owner: map<Hash, Id>,
    locks: set<Lane>,
    sent: set<(Id, Hash)>,           // every envelope ever handed to a node, with its row
    settled: set<Hash>,              // envelopes whose latest send got a definite answer
    reported: set<(Lane, Nonce)>,    // every pending nonce a node ever reported
    acked: set<Id>,                  // rows whose status callback has succeeded
    now: nat)

  function Att(s: State, id: Id): seq<Attempt> {
    if id in s.attempts then s.attempts[id] else []
  }

  function Latest(history: seq<Attempt>): Attempt
    requires history != []
  {
    history[|history| - 1]
  }

  ghost predicate Owns(history: seq<Attempt>, h: Hash) {
    exists i :: 0 <= i < |history| && history[i].hash == h
  }

  // ----- what the holder of a lane lock has learned since its last durable write -----

  datatype Evidence = Evidence(
    inFlight: Option<Hash>,
    receipts: set<Receipt>,
    noReceipt: set<Hash>,
    noTransaction: set<Hash>,
    pending: Option<Nonce>)

  const NOTHING: Evidence := Evidence(None, {}, {}, {}, None)

  datatype Event =
    | Begin
    | SaveAttempt(attempt: Attempt)
    | SaveRow(row: Transaction)
    | Send(id: Id, hash: Hash)
    | Answer(id: Id, hash: Hash, disposition: Disposition)
    | ReadReceipt(hash: Hash, receipt: ReceiptAnswer)
    | ReadTransaction(hash: Hash, lookup: LookupAnswer)
    | ReadPendingNonce(nonce: Nonce)

  predicate GoodReceipt(h: Hash, a: ReceiptAnswer) {
    a.FoundReceipt? && a.txHash == h && (a.status == 0 || a.status == 1)
  }

  function Learn(ev: Evidence, e: Event): Evidence {
    match e
    case Begin => NOTHING
    case SaveRow(_) => NOTHING
    case SaveAttempt(_) => ev
    case Send(_, h) => ev.(inFlight := Some(h))
    case Answer(_, _, _) => ev.(inFlight := None)
    case ReadReceipt(h, a) =>
      if GoodReceipt(h, a)
      then ev.(receipts := ev.receipts + {Receipt(h, a.status == 1)}, noReceipt := ev.noReceipt - {h})
      else if a.NoReceipt? then ev.(noReceipt := ev.noReceipt + {h})
      else ev.(noReceipt := ev.noReceipt - {h})
    case ReadTransaction(h, a) =>
      if a.NoTransaction? then ev.(noTransaction := ev.noTransaction + {h})
      else ev.(noTransaction := ev.noTransaction - {h})
    case ReadPendingNonce(n) => ev.(pending := Some(n))
  }

  function Apply(s: State, lane: Lane, e: Event): State {
    match e
    case SaveAttempt(a) =>
      s.(attempts := s.attempts[a.txId := Att(s, a.txId) + [a]], owner := s.owner[a.hash := a.txId])
    case SaveRow(r) => s.(rows := s.rows[r.id := r])
    case Send(id, h) => s.(sent := s.sent + {(id, h)}, settled := s.settled - {h})
    case Answer(_, h, d) => if d.Definite() then s.(settled := s.settled + {h}) else s
    case ReadPendingNonce(n) => s.(reported := s.reported + {(lane, n)})
    case Begin => s
    case ReadReceipt(_, _) => s
    case ReadTransaction(_, _) => s
  }

  // ----- lane-wide facts -----

  ghost predicate HeldIn(rows: map<Id, Transaction>, lane: Lane, id: Id) {
    id in rows && rows[id].lane == lane && rows[id].assignedNonce.Some?
  }

  /** Every nonce the lane holds is below bound; terminal rows count while they keep their nonce. */
  ghost predicate HeldBelow(rows: map<Id, Transaction>, lane: Lane, bound: nat) {
    forall id :: HeldIn(rows, lane, id) ==> rows[id].assignedNonce.value < bound
  }

  // ----- the rule for each event -----

  /** A row's memory of its newest attempt is trustworthy: unless the attempt budget is spent, a row that
      is not marked pending has a definite answer to the newest attempt's latest send. */
  ghost predicate PendingHonest(s: State, r: Transaction, history: seq<Attempt>) {
    history != [] && |history| < MAX_FEE_REPLACEMENTS && r.tx == Some(Latest(history).hash) && !r.broadcastPending
    ==> Latest(history).hash in s.settled
  }

  ghost predicate TxOwned(s: State, r: Transaction) {
    r.tx.Some? ==> r.tx.value in s.owner && s.owner[r.tx.value] == r.id
  }

  ghost predicate RejectionNamesLatest(s: State, r: Transaction, history: seq<Attempt>) {
    r.rejectedAttempt.Some? ==>
      && history != []
      && r.rejectedAttempt.value == Latest(history).hash
      && Latest(history).hash in s.settled
  }

  ghost predicate AssignsNext(s: State, lane: Lane, old': Transaction, new': Transaction) {
    && old'.assignedNonce.None? && new'.assignedNonce.Some?
    && HeldBelow(s.rows, lane, new'.assignedNonce.value)
    && (lane, new'.assignedNonce.value) in s.reported
  }

  ghost predicate Advances(s: State, lane: Lane, old': Transaction, new': Transaction) {
    && !new'.IsCompleted()
    && new'.receipt.None? && new'.notifiedAt.None?
    && (new'.assignedNonce == old'.assignedNonce || AssignsNext(s, lane, old', new'))
    && TxOwned(s, new')
    && RejectionNamesLatest(s, new', Att(s, new'.id))
    && PendingHonest(s, new', Att(s, new'.id))
    && (new'.nonceConsumedAt.Some? ==> Att(s, new'.id) != [])
  }

  /** Terminal rows with an intent enter the notification outbox; the others are acknowledged at once. */
  ghost predicate EntersOutbox(new': Transaction) {
    if new'.HasIntent() then new'.notifiedAt.None? else new'.notifiedAt.Some?
  }

  /** A row that enters the outbox is due at once. */
  ghost predicate DueAtOnce(new': Transaction, now: nat) {
    new'.IsCompleted() && new'.HasIntent() ==> new'.nextNotificationAt <= now
  }

  /** The longest pause between two deliveries, in seconds. */
  const MAX_NOTIFICATION_BACKOFF: nat := 60

  ghost predicate Finalizes(s: State, ev: Evidence, old': Transaction, new': Transaction) {
    && new'.receipt.Some? && new'.receipt.value in ev.receipts
    && new'.status == (if new'.receipt.value.ok then Succeed else Failed)
    && new'.receipt.value.hash in s.owner && s.owner[new'.receipt.value.hash] == new'.id
    && new'.assignedNonce == old'.assignedNonce && old'.assignedNonce.Some?
  }

  /** Abandoned because another transaction took the nonce; the nonce stays held. */
  ghost predicate Abandons(old': Transaction, new': Transaction) {
    && new'.status == Errored && new'.receipt.None?
    && old'.nonceConsumedAt.Some?
    && new'.assignedNonce == old'.assignedNonce && old'.assignedNonce.Some?
  }

  /** A signed row may give its nonce back only on complete evidence, all of it read after the
      rejection had become durable. */
  ghost predicate ProvenUnadmitted(ev: Evidence, old': Transaction, history: seq<Attempt>)
    requires history != []
  {
    && old'.assignedNonce.Some?
    && old'.rejectedAttempt == Some(Latest(history).hash)
    && (forall i :: 0 <= i < |history| ==> history[i].hash in ev.noReceipt && history[i].hash in ev.noTransaction)
    && ev.pending == old'.assignedNonce
  }

  ghost predicate Releases(s: State, lane: Lane, ev: Evidence, old': Transaction, new': Transaction) {
    && new'.status == Errored && new'.receipt.None? && new'.assignedNonce.None?
    && (old'.assignedNonce.Some? ==> HeldBelow(s.rows, lane, old'.assignedNonce.value + 1))
    && (Att(s, new'.id) != [] ==> ProvenUnadmitted(ev, old', Att(s, new'.id)))
  }

  ghost predicate LegalRow(s: State, lane: Lane, ev: Evidence, old': Transaction, new': Transaction) {
    && SameIdentity(old', new')
    && (|| Advances(s, lane, old', new')
        || (&& TxOwned(s, new') && new'.rejectedAttempt.None? && EntersOutbox(new') && DueAtOnce(new', s.now)
            && (Finalizes(s, ev, old', new') || Abandons(old', new') || Releases(s, lane, ev, old', new'))))
  }

  /** An attempt may be added only at the row's own nonce, within budget, and only over an attempt
      whose latest send was definitely answered. */
  ghost predicate LegalAttempt(s: State, r: Transaction, a: Attempt) {
    && a.txId == r.id && r.assignedNonce == Some(a.nonce)
    && a.hash == a.tx && a.tx.nonce == a.nonce && a.tx.lane == r.lane && a.tx.payload == r.payload
    && F.FitsKind(a.tx.fees, r.payload.auths != [])
    && a.hash !in s.owner
    && a.createdAt <= s.now
    && r.rejectedAttempt.None? && r.nonceConsumedAt.None?
    && var history := Att(s, r.id);
    && |history| < MAX_FEE_REPLACEMENTS
    && (history != [] ==> Rung(Latest(history), a) && Latest(history).hash in s.settled)
  }

  ghost predicate Working(s: State, lane: Lane, id: Id) {
    id in s.rows && s.rows[id].lane == lane && !s.rows[id].IsCompleted()
  }

  ghost predicate Legal(s: State, lane: Lane, ev: Evidence, e: Event) {
    && lane in s.locks
    && match e
       case SaveAttempt(a) => Working(s, lane, a.txId) && LegalAttempt(s, s.rows[a.txId], a)
       case SaveRow(r) => Working(s, lane, r.id) && LegalRow(s, lane, ev, s.rows[r.id], r)
       case Send(id, h) =>
         && Working(s, lane, id) && Att(s, id) != [] && h == Latest(Att(s, id)).hash
         && s.rows[id].rejectedAttempt.None?
         && (|Att(s, id)| >= MAX_FEE_REPLACEMENTS || s.rows[id].broadcastPending || s.rows[id].tx != Some(h))
       case Answer(id, h, _) => Working(s, lane, id) && Att(s, id) != [] && h == Latest(Att(s, id)).hash &&
         ev.inFlight == Some(h)
       case Begin => true
       case ReadReceipt(_, _) => true
       case ReadTransaction(_, _) => true
       case ReadPendingNonce(_) => true
  }

  // ----- the invariant -----

  ghost predicate AttemptOk(s: State, r: Transaction, a: Attempt) {
    && a.txId == r.id && a.hash == a.tx && a.tx.nonce == a.nonce && a.tx.lane == r.lane && a.tx.payload == r.payload
    && F.FitsKind(a.tx.fees, r.payload.auths != [])
    && a.createdAt <= s.now
    && a.hash in s.owner && s.owner[a.hash] == r.id
  }

  /** From one attempt of a row to the next. */
  ghost predicate Rung(a: Attempt, b: Attempt) {
    && a.nonce == b.nonce && a.createdAt <= b.createdAt && a.hash != b.hash
    && F.OneTenthAbove(a.tx.fees, b.tx.fees)
  }

  ghost predicate LadderOk(history: seq<Attempt>) {
    forall i :: 0 < i < |history| ==> Rung(history[i - 1], history[i])
  }

  ghost predicate HistoryOk(s: State, r: Transaction, history: seq<Attempt>) {
    && |history| <= MAX_FEE_REPLACEMENTS
    && LadderOk(history)
    && (forall i :: 0 <= i < |history| ==> AttemptOk(s, r, history[i]) && history[i].nonce == history[0].nonce)
    && (forall i :: 0 <= i < |history| - 1 ==> history[i].hash in s.settled)
  }

  ghost predicate ActiveOk(s: State, r: Transaction, history: seq<Attempt>) {
    && r.receipt.None? && r.notifiedAt.None?
    && (history != [] ==> r.assignedNonce == Some(history[0].nonce))
    && RejectionNamesLatest(s, r, history)
    && PendingHonest(s, r, history)
    && (r.nonceConsumedAt.Some? ==> history != [])
  }

  ghost predicate TerminalOk(s: State, r: Transaction) {
    && r.rejectedAttempt.None?
    && (r.status == Errored <==> r.receipt.None?)
    && (r.receipt.Some? ==>
          && r.status == (if r.receipt.value.ok then Succeed else Failed)
          && r.receipt.value.hash in s.owner && s.owner[r.receipt.value.hash] == r.id
          && r.assignedNonce.Some?)
    && (r.HasIntent() && r.notifiedAt.Some? ==> r.id in s.acked)
    && (r.HasIntent() && r.notifiedAt.None? ==> r.nextNotificationAt <= s.now + MAX_NOTIFICATION_BACKOFF)
  }

  ghost predicate RowOk(s: State, id: Id)
    requires id in s.rows
  {
    var r := s.rows[id];
    && r.id == id
    && HistoryOk(s, r, Att(s, id))
    && TxOwned(s, r)
    && (if r.IsCompleted() then TerminalOk(s, r) else ActiveOk(s, r, Att(s, id)))
  }

  ghost predicate OwnerOk(s: State) {
    && s.attempts.Keys <= s.rows.Keys
    && forall h :: h in s.owner ==> s.owner[h] in s.rows && Owns(Att(s, s.owner[h]), h)
  }

  ghost predicate NoncesUnique(rows: map<Id, Transaction>) {
    forall i, j, lane :: HeldIn(rows, lane, i) && HeldIn(rows, lane, j) && i != j
      ==> rows[i].assignedNonce.value != rows[j].assignedNonce.value
  }

  ghost predicate NoncesReported(rows: map<Id, Transaction>, reported: set<(Lane, Nonce)>) {
    forall id, lane :: HeldIn(rows, lane, id) ==> (lane, rows[id].assignedNonce.value) in reported
  }

  ghost predicate SentDurable(sent: set<(Id, Hash)>, owner: map<Hash, Id>) {
    forall p :: p in sent ==> p.1 in owner && owner[p.1] == p.0
  }

  ghost predicate KeysUnique(rows: map<Id, Transaction>) {
    forall i, j :: i in rows && j in rows && i != j && rows[i].operationKey.Some?
      ==> rows[i].operationKey != rows[j].operationKey
  }

  ghost predicate RowsOk(s: State) {
    forall id :: id in s.rows ==> RowOk(s, id)
  }

  ghost predicate Inv(s: State) {
    && RowsOk(s)
    && OwnerOk(s)
    && NoncesUnique(s.rows)
    && NoncesReported(s.rows, s.reported)
    && SentDurable(s.sent, s.owner)
    && KeysUnique(s.rows)
  }

  // ----- every legal event keeps the invariant -----

  ghost predicate OwnerGrows(s: State, t: State) {
    forall h :: h in s.owner ==> h in t.owner && t.owner[h] == s.owner[h]
  }

  /** A row nobody touched stays well formed when ownership, time and acknowledgements only grow. */
  lemma RowOkFrame(s: State, t: State, id: Id)
    requires id in s.rows && RowOk(s, id)
    requires id in t.rows && t.rows[id] == s.rows[id] && Att(t, id) == Att(s, id)
    requires OwnerGrows(s, t) && s.now <= t.now && s.acked <= t.acked
    requires forall i :: 0 <= i < |Att(s, id)| && Att(s, id)[i].hash in s.settled ==> Att(s, id)[i].hash in t.settled
    ensures RowOk(t, id)
  {
    var history := Att(s, id);
    forall i | 0 <= i < |history| ensures AttemptOk(t, t.rows[id], history[i]) {
      assert AttemptOk(s, s.rows[id], history[i]);
    }
  }

  lemma OwnerOkFrame(s: State, t: State)
    requires OwnerOk(s) && t.attempts == s.attempts && t.owner == s.owner && s.rows.Keys <= t.rows.Keys
    ensures OwnerOk(t)
  {
    forall h | h in t.owner ensures t.owner[h] in t.rows && Owns(Att(t, t.owner[h]), h) {
      assert Att(t, t.owner[h]) == Att(s, s.owner[h]);
    }
  }

  lemma FeesClimb(history: seq<Attempt>, i: nat, j: nat)
    requires LadderOk(history) && i <= j < |history|
    ensures F.NoLower(history[i].tx.fees, history[j].tx.fees)
  {
    if i < j {
      FeesClimb(history, i, j - 1);
      assert Rung(history[j - 1], history[j]);
      F.OneTenthAboveNoLower(history[j - 1].tx.fees, history[j].tx.fees);
    }
  }

  /** Attempts of one row never repeat a hash. */
  lemma HashesDistinct(s: State, r: Transaction, history: seq<Attempt>, i: nat, j: nat)
    requires HistoryOk(s, r, history) && i < j < |history|
    ensures history[i].hash != history[j].hash
  {
    FeesClimb(history, i, i + 1);
    FeesClimb(history, i + 1, j);
    assert Rung(history[i + 1 - 1], history[i + 1]);
    assert AttemptOk(s, r, history[i]) && AttemptOk(s, r, history[i + 1]) && AttemptOk(s, r, history[j]);
  }

  lemma AppendedHistoryOk(s: State, t: State, r: Transaction, a: Attempt)
    requires HistoryOk(s, r, Att(s, r.id)) && LegalAttempt(s, r, a)
    requires Att(s, r.id) != [] ==> Att(s, r.id)[0].nonce == a.nonce
    requires t == s.(attempts := s.attempts[a.txId := Att(s, a.txId) + [a]], owner := s.owner[a.hash := a.txId])
    ensures HistoryOk(t, r, Att(t, r.id))
  {
    var history := Att(s, r.id);
    assert Att(t, r.id) == history + [a];
    forall i | 0 <= i < |history| + 1 ensures AttemptOk(t, r, (history + [a])[i]) {
      if i < |history| {
        assert AttemptOk(s, r, history[i]);
      }
    }
  }

  lemma SaveAttemptRowOk(s: State, t: State, a: Attempt, id: Id)
    requires id in s.rows && RowOk(s, id)
    requires id == a.txId ==> !s.rows[id].IsCompleted() && LegalAttempt(s, s.rows[id], a)
    requires a.hash !in s.owner
    requires t == s.(attempts := s.attempts[a.txId := Att(s, a.txId) + [a]], owner := s.owner[a.hash := a.txId])
    ensures RowOk(t, id)
  {
    if id != a.txId {
      RowOkFrame(s, t, id);
    } else {
      AppendedHistoryOk(s, t, s.rows[id], a);
      assert Latest(Att(t, id)) == a;
    }
  }

  lemma SaveAttemptKeepsInv(s: State, lane: Lane, ev: Evidence, a: Attempt)
    requires Inv(s) && Legal(s, lane, ev, SaveAttempt(a))
    ensures Inv(Apply(s, lane, SaveAttempt(a)))
  {
    hide RowOk;
    var t := Apply(s, lane, SaveAttempt(a));
    forall id | id in t.rows ensures RowOk(t, id) {
      SaveAttemptRowOk(s, t, a, id);
    }
    SaveAttemptKeepsOwners(s, t, a);
  }

  lemma SaveAttemptKeepsOwners(s: State, t: State, a: Attempt)
    requires OwnerOk(s) && a.txId in s.rows && a.hash !in s.owner
    requires t == s.(attempts := s.attempts[a.txId := Att(s, a.txId) + [a]], owner := s.owner[a.hash := a.txId])
    ensures OwnerOk(t)
  {
    forall h | h in t.owner ensures t.owner[h] in t.rows && Owns(Att(t, t.owner[h]), h) {
      if h == a.hash {
        assert Latest(Att(t, a.txId)).hash == h;
      } else {
        var id := s.owner[h];
        var i :| 0 <= i < |Att(s, id)| && Att(s, id)[i].hash == h;
        assert Att(t, id)[i].hash == h;
      }
    }
  }

  lemma SavedRowOk(s: State, lane: Lane, ev: Evidence, r: Transaction)
    requires r.id in s.rows && RowOk(s, r.id) && !s.rows[r.id].IsCompleted()
    requires LegalRow(s, lane, ev, s.rows[r.id], r)
    ensures RowOk(Apply(s, lane, SaveRow(r)), r.id)
  {
    var t := Apply(s, lane, SaveRow(r));
    var history := Att(s, r.id);
    assert Att(t, r.id) == history;
    forall i | 0 <= i < |history| ensures AttemptOk(t, r, history[i]) {
      assert AttemptOk(s, s.rows[r.id], history[i]);
    }
    assert HistoryOk(t, r, history);
  }

  lemma SaveRowKeepsInv(s: State, lane: Lane, ev: Evidence, r: Transaction)
    requires Inv(s) && Legal(s, lane, ev, SaveRow(r))
    ensures Inv(Apply(s, lane, SaveRow(r)))
  {
    hide RowOk, Advances, Finalizes, Abandons, Releases;
    var t := Apply(s, lane, SaveRow(r));
    forall id | id in t.rows ensures RowOk(t, id) {
      if id == r.id {
        SavedRowOk(s, lane, ev, r);
      } else {
        RowOkFrame(s, t, id);
      }
    }
    OwnerOkFrame(s, t);
    SaveRowKeepsNonces(s, lane, ev, r);
  }

  lemma SaveRowKeepsNonces(s: State, lane: Lane, ev: Evidence, r: Transaction)
    requires NoncesUnique(s.rows) && NoncesReported(s.rows, s.reported) && Working(s, lane, r.id)
    requires LegalRow(s, lane, ev, s.rows[r.id], r)
    ensures NoncesUnique(s.rows[r.id := r]) && NoncesReported(s.rows[r.id := r], s.reported)
  {
    var rows := s.rows[r.id := r];
    assert forall id, l :: id != r.id ==> (HeldIn(rows, l, id) <==> HeldIn(s.rows, l, id));
    if r.assignedNonce == s.rows[r.id].assignedNonce {
      assert forall l :: HeldIn(rows, l, r.id) <==> HeldIn(s.rows, l, r.id);
    }
  }

  lemma SendKeepsInv(s: State, lane: Lane, ev: Evidence, id: Id, h: Hash)
    requires Inv(s) && Legal(s, lane, ev, Send(id, h))
    ensures Inv(Apply(s, lane, Send(id, h)))
  {
    hide RowOk;
    var t := Apply(s, lane, Send(id, h));
    LatestOwned(s, id);
    forall other | other in t.rows ensures RowOk(t, other) {
      if other == id {
        SentRowOk(s, t, id);
      } else {
        SendFrame(s, t, other, h);
      }
    }
    OwnerOkFrame(s, t);
  }

  lemma LatestOwned(s: State, id: Id)
    requires id in s.rows && RowOk(s, id) && Att(s, id) != []
    ensures Latest(Att(s, id)).hash in s.owner && s.owner[Latest(Att(s, id)).hash] == id
  {
    assert AttemptOk(s, s.rows[id], Latest(Att(s, id)));
  }

  lemma SendFrame(s: State, t: State, other: Id, h: Hash)
    requires other in s.rows && RowOk(s, other) && h in s.owner && s.owner[h] != other
    requires t.rows == s.rows && t.attempts == s.attempts && t.owner == s.owner && t.now == s.now && t.acked == s.acked
    requires t.settled == s.settled - {h}
    ensures RowOk(t, other)
  {
    var history := Att(s, other);
    forall i | 0 <= i < |history| ensures history[i].hash != h {
      assert AttemptOk(s, s.rows[other], history[i]);
    }
    RowOkFrame(s, t, other);
  }

  lemma SentRowOk(s: State, t: State, id: Id)
    requires id in s.rows && RowOk(s, id) && !s.rows[id].IsCompleted() && Att(s, id) != []
    requires s.rows[id].rejectedAttempt.None?
    requires
      || |Att(s, id)| >= MAX_FEE_REPLACEMENTS || s.rows[id].broadcastPending
      || s.rows[id].tx != Some(Latest(Att(s, id)).hash)
    requires t == s.(sent := s.sent + {(id, Latest(Att(s, id)).hash)}, settled := s.settled - {Latest(Att(s, id)).hash})
    ensures RowOk(t, id)
  {
    var history := Att(s, id);
    assert Att(t, id) == history;
    forall i | 0 <= i < |history| ensures AttemptOk(t, t.rows[id], history[i]) {
      assert AttemptOk(s, s.rows[id], history[i]);
    }
    forall i | 0 <= i < |history| - 1 ensures history[i].hash in t.settled {
      HashesDistinct(s, s.rows[id], history, i, |history| - 1);
    }
  }

  /** Events that only add to the history of answers, reports, acknowledgements or time. */
  lemma GrowthKeepsInv(s: State, t: State)
    requires Inv(s)
    requires t.rows == s.rows && t.attempts == s.attempts && t.owner == s.owner && t.sent == s.sent
    requires s.settled <= t.settled && s.reported <= t.reported && s.acked <= t.acked && s.now <= t.now
    ensures Inv(t)
  {
    hide RowOk;
    forall id | id in t.rows ensures RowOk(t, id) {
      assert Att(t, id) == Att(s, id);
      RowOkFrame(s, t, id);
    }
    OwnerOkFrame(s, t);
  }

  lemma LegalKeepsInv(s: State, lane: Lane, ev: Evidence, e: Event)
    requires Inv(s) && Legal(s, lane, ev, e)
    ensures Inv(Apply(s, lane, e))
  {
    hide Inv, Legal;
    match e
    case SaveAttempt(a) => SaveAttemptKeepsInv(s, lane, ev, a);
    case SaveRow(r) => SaveRowKeepsInv(s, lane, ev, r);
    case Send(id, h) => SendKeepsInv(s, lane, ev, id, h);
    case Answer(_, h, d) => GrowthKeepsInv(s, Apply(s, lane, e));
    case ReadPendingNonce(n) => GrowthKeepsInv(s, Apply(s, lane, e));
    case Begin =>
    case ReadReceipt(_, _) =>
    case ReadTransaction(_, _) =>
  }
}
