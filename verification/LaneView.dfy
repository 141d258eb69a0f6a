/**
 What the holder of a lane lock can rely on while every other manager keeps running, and the part of the
 state its decisions depend on: its row, the row's attempts, the lane's held nonces and the rest of its batch.
 */
module LaneView {
  import opened TxTypes
  import opened Protocol
  import opened Runs
  import F = Fees

  ghost predicate Steady(s: State, t: State, id: Id)
    requires id in s.rows
  {
    && id in t.rows && Att(t, id) == Att(s, id)
    && t.rows[id].Core() == s.rows[id].Core()
    && (!s.rows[id].IsCompleted() ==> t.rows[id] == s.rows[id])
  }

  ghost predicate RowsSteady(lane: Lane, s: State, t: State) {
    && (forall id :: id in s.rows ==> id in t.rows && t.rows[id].lane == s.rows[id].lane)
    && (forall id :: id in s.rows && s.rows[id].lane == lane ==> Steady(s, t, id))
    && (forall id :: id in t.rows && id !in s.rows && t.rows[id].lane == lane ==> Fresh(t.rows[id]))
  }

  ghost predicate HashesSteady(lane: Lane, s: State, t: State) {
    && OwnerGrows(s, t)
    && (forall h: Hash :: h.lane == lane ==> (h in s.settled <==> h in t.settled) && (h in t.owner ==> h in s.owner))
  }

  /** Everything other managers, submitters and deliverers may do while this lane is locked. */
  ghost predicate Rely(lane: Lane, s: State, t: State) {
    && RowsSteady(lane, s, t)
    && HashesSteady(lane, s, t)
    && (lane in s.locks ==> lane in t.locks)
    && s.reported <= t.reported && s.sent <= t.sent && s.acked <= t.acked && s.now <= t.now
  }

  lemma RelyReflexive(lane: Lane, s: State)
    ensures Rely(lane, s, s)
  {
  }

  lemma RelyTransitive(lane: Lane, s: State, t: State, u: State)
    requires Rely(lane, s, t) && Rely(lane, t, u)
    ensures Rely(lane, s, u)
  {
    hide HashesSteady;
    forall id | id in s.rows && s.rows[id].lane == lane ensures Steady(s, u, id) {
      assert Steady(s, t, id) && Steady(t, u, id);
    }
    forall id | id in u.rows && id !in s.rows && u.rows[id].lane == lane ensures Fresh(u.rows[id]) {
      if id in t.rows {
        assert Steady(t, u, id);
      }
    }
    HashesTransitive(lane, s, t, u);
  }

  lemma HashesTransitive(lane: Lane, s: State, t: State, u: State)
    requires HashesSteady(lane, s, t) && HashesSteady(lane, t, u)
    ensures HashesSteady(lane, s, u)
  {
  }

  /** Any step that is not this holder's own satisfies the rely. */
  lemma OthersRely(w: World, step: Step, k: nat)
    requires WorldInv(w) && Enabled(w, step) && k in w.holders
    requires !(step.Act? && step.k == k) && !(step.Leave? && step.k == k)
    ensures Rely(w.holders[k].lane, w.s, Do(w, step).s)
  {
    hide WorldInv, Enabled, Do, RowsSteady, HashesSteady;
    OthersKeepRows(w, step, k);
    OthersKeepHashes(w, step, k);
    OthersOnlyGrow(w, step, k);
  }

  lemma OthersOnlyGrow(w: World, step: Step, k: nat)
    requires WorldInv(w) && Enabled(w, step) && k in w.holders
    requires !(step.Act? && step.k == k) && !(step.Leave? && step.k == k)
    ensures
      var s, t, lane := w.s, Do(w, step).s, w.holders[k].lane;
      && (lane in s.locks ==> lane in t.locks)
      && s.reported <= t.reported && s.sent <= t.sent && s.acked <= t.acked && s.now <= t.now
  {
    hide Inv, DeliveriesOk, Legal, Learn, UpdateNotification;
  }

  lemma OthersKeepRows(w: World, step: Step, k: nat)
    requires WorldInv(w) && Enabled(w, step) && k in w.holders
    requires !(step.Act? && step.k == k) && !(step.Leave? && step.k == k)
    ensures RowsSteady(w.holders[k].lane, w.s, Do(w, step).s)
  {
    hide WorldInv, Enabled, Do, Steady;
    var t, lane := Do(w, step), w.holders[k].lane;
    forall id | id in w.s.rows ensures id in t.s.rows && t.s.rows[id].lane == w.s.rows[id].lane {
      StepEvolvesRow(w, step, id);
    }
    forall id | id in w.s.rows && w.s.rows[id].lane == lane ensures Steady(w.s, t.s, id) {
      OthersKeepRow(w, step, k, id);
    }
    forall id | id in t.s.rows && id !in w.s.rows ensures Fresh(t.s.rows[id]) {
      NewRowsFresh(w, step, id);
    }
  }

  lemma NewRowsFresh(w: World, step: Step, id: Id)
    requires Enabled(w, step) && id in Do(w, step).s.rows && id !in w.s.rows
    ensures Fresh(Do(w, step).s.rows[id])
  {
    hide LegalRow, LegalAttempt, Learn;
  }

  lemma OthersKeepRow(w: World, step: Step, k: nat, id: Id)
    requires WorldInv(w) && Enabled(w, step) && k in w.holders
    requires !(step.Act? && step.k == k) && !(step.Leave? && step.k == k)
    requires id in w.s.rows && w.s.rows[id].lane == w.holders[k].lane
    ensures Steady(w.s, Do(w, step).s, id)
  {
    hide Inv, DeliveriesOk, LegalAttempt, LegalRow, Learn;
    RowKeyed(w.s, id);
    StepEvolvesRow(w, step, id);
    if step.Act? {
      assert w.holders[step.k].lane != w.holders[k].lane;
    }
  }

  lemma OthersKeepHashes(w: World, step: Step, k: nat)
    requires WorldInv(w) && Enabled(w, step) && k in w.holders
    requires !(step.Act? && step.k == k) && !(step.Leave? && step.k == k)
    ensures HashesSteady(w.holders[k].lane, w.s, Do(w, step).s)
  {
    hide Inv, DeliveriesOk, Legal, Learn, UpdateNotification, HashesSteady;
    if step.Act? {
      EventKeepsHashes(w.s, w.holders[step.k].lane, w.holders[step.k].ev, step.event, w.holders[k].lane);
    } else {
      SameHashes(w.holders[k].lane, w.s, Do(w, step).s);
    }
  }

  lemma SameHashes(lane: Lane, s: State, t: State)
    requires t.owner == s.owner && t.settled == s.settled
    ensures HashesSteady(lane, s, t)
  {
  }

  lemma EventKeepsHashes(s: State, lane: Lane, ev: Evidence, e: Event, mine: Lane)
    requires Inv(s) && Legal(s, lane, ev, e) && lane != mine
    ensures HashesSteady(mine, s, Apply(s, lane, e))
  {
    hide Inv, LegalRow;
    match e
    case Send(id, h) => LatestLane(s, id);
    case Answer(id, h, d) => LatestLane(s, id);
    case _ =>
  }

  lemma LatestLane(s: State, id: Id)
    requires Inv(s)
    ensures id in s.rows && Att(s, id) != [] ==> Latest(Att(s, id)).hash.lane == s.rows[id].lane
  {
    hide OwnerOk, NoncesUnique, NoncesReported, SentDurable, KeysUnique;
    if id in s.rows && Att(s, id) != [] {
      assert RowOk(s, id) && AttemptOk(s, s.rows[id], Latest(Att(s, id)));
    }
  }

  // ----- the holder's view -----

  datatype View = View(
    row: Transaction,
    history: seq<Attempt>,
    settled: bool,                                   // the newest attempt's latest send is definitely answered
    held: set<Nonce>,
    peers: map<Id, (Transaction, seq<Attempt>)>)

  ghost function Held(rows: map<Id, Transaction>, lane: Lane): set<Nonce> {
    set id | id in rows && HeldIn(rows, lane, id) :: rows[id].assignedNonce.value
  }

  ghost function Peers(s: State, rest: set<Id>): map<Id, (Transaction, seq<Attempt>)> {
    map id | id in rest && id in s.rows :: (s.rows[id], Att(s, id))
  }

  ghost function Seen(r: Transaction): Transaction {
    if r.IsCompleted() then r.Core() else r
  }

  ghost function ViewOf(s: State, lane: Lane, rest: set<Id>, id: Id): View
    requires id in s.rows
  {
    View(Seen(s.rows[id]), Att(s, id),
         Att(s, id) != [] && Latest(Att(s, id)).hash in s.settled,
         Held(s.rows, lane), Peers(s, rest))
  }

  ghost predicate AllWorking(s: State, lane: Lane, rest: set<Id>) {
    forall id :: id in rest ==> Working(s, lane, id)
  }

  lemma RelyKeepsHeld(lane: Lane, s: State, t: State)
    requires RowsSteady(lane, s, t)
    ensures Held(t.rows, lane) == Held(s.rows, lane)
  {
    forall id | HeldIn(s.rows, lane, id)
      ensures HeldIn(t.rows, lane, id) && t.rows[id].assignedNonce == s.rows[id].assignedNonce {
      assert Steady(s, t, id);
    }
    forall id | HeldIn(t.rows, lane, id) ensures HeldIn(s.rows, lane, id) {
      if id in s.rows {
        assert s.rows[id].lane == lane && Steady(s, t, id);
      }
    }
  }

  lemma RelyKeepsPeers(lane: Lane, s: State, t: State, rest: set<Id>)
    requires RowsSteady(lane, s, t) && AllWorking(s, lane, rest)
    ensures AllWorking(t, lane, rest) && Peers(t, rest) == Peers(s, rest)
  {
    forall id | id in rest ensures Working(t, lane, id) && t.rows[id] == s.rows[id] && Att(t, id) == Att(s, id) {
      assert Working(s, lane, id) && Steady(s, t, id);
    }
  }

  /** Nothing the holder's decisions depend on is moved by the others. */
  lemma RelyKeepsView(lane: Lane, s: State, t: State, rest: set<Id>, id: Id)
    requires Inv(s) && Rely(lane, s, t) && AllWorking(s, lane, rest) && id in s.rows && s.rows[id].lane == lane
    ensures AllWorking(t, lane, rest) && id in t.rows && t.rows[id].lane == lane
    ensures ViewOf(t, lane, rest, id) == ViewOf(s, lane, rest, id)
  {
    RelyKeepsHeld(lane, s, t);
    RelyKeepsPeers(lane, s, t, rest);
    LatestLane(s, id);
    hide Inv, AllWorking, Held, Peers, Fresh;
    assert Steady(s, t, id);
  }

  // ----- writes that are legal, judged by the view alone -----

  ghost predicate OwnsTx(v: View, row: Transaction) {
    row.tx.Some? ==> row.tx == v.row.tx || Owns(v.history, row.tx.value)
  }

  ghost predicate Above(held: set<Nonce>, n: Nonce) {
    forall m :: m in held ==> m < n
  }

  ghost predicate Top(held: set<Nonce>, n: Nonce) {
    forall m :: m in held ==> m <= n
  }

  /** The fields every write of an active row carries over. */
  ghost predicate Carries(v: View, row: Transaction) {
    && !v.row.IsCompleted() && !row.IsCompleted() && SameIdentity(v.row, row)
    && row.receipt.None? && row.notifiedAt.None?
    && OwnsTx(v, row)
    && (row.nonceConsumedAt.Some? ==> v.history != [])
  }

  /** A non-terminal write that keeps the row's memory of its newest attempt honest. */
  ghost predicate CanAdvance(v: View, row: Transaction) {
    && Carries(v, row)
    && (row.rejectedAttempt.Some? ==>
            v.history != [] && v.settled && row.rejectedAttempt.value == Latest(v.history).hash)
    && (v.history != [] && |v.history| < MAX_FEE_REPLACEMENTS && row.tx == Some(Latest(v.history).hash) &&
            !row.broadcastPending
        ==> v.settled)
  }

  ghost predicate CanAssign(v: View, ev: Evidence, row: Transaction) {
    v.row.assignedNonce.None? && row.assignedNonce.Some? && ev.pending == row.assignedNonce &&
        Above(v.held, row.assignedNonce.value)
  }

  ghost predicate CanFinalize(v: View, ev: Evidence, row: Transaction) {
    && row.receipt.Some? && row.receipt.value in ev.receipts && Owns(v.history, row.receipt.value.hash)
    && row.status == (if row.receipt.value.ok then Succeed else Failed)
    && row.assignedNonce == v.row.assignedNonce && row.assignedNonce.Some?
  }

  ghost predicate CanRelease(v: View, ev: Evidence, row: Transaction) {
    && row.status == Errored && row.receipt.None? && row.assignedNonce.None?
    && (v.row.assignedNonce.Some? ==> Top(v.held, v.row.assignedNonce.value))
    && (v.history != [] ==> ProvenUnadmitted(ev, v.row, v.history))
  }

  /** A terminal write, its outbox fields aside. */
  ghost predicate CanEnd(v: View, ev: Evidence, row: Transaction) {
    && !v.row.IsCompleted() && SameIdentity(v.row, row) && OwnsTx(v, row) && row.rejectedAttempt.None?
    && (CanFinalize(v, ev, row) || Abandons(v.row, row) || CanRelease(v, ev, row))
  }

  ghost predicate CanSave(v: View, ev: Evidence, row: Transaction) {
    || (CanAdvance(v, row) && (row.assignedNonce == v.row.assignedNonce || CanAssign(v, ev, row)))
    || (CanEnd(v, ev, row) && EntersOutbox(row))
  }

  lemma OwnedBy(s: State, id: Id, h: Hash)
    requires id in s.rows && RowOk(s, id) && Owns(Att(s, id), h)
    ensures h in s.owner && s.owner[h] == id
  {
    var i :| 0 <= i < |Att(s, id)| && Att(s, id)[i].hash == h;
    assert AttemptOk(s, s.rows[id], Att(s, id)[i]);
  }

  lemma HeldBounds(rows: map<Id, Transaction>, lane: Lane, n: Nonce)
    ensures Above(Held(rows, lane), n) <==> HeldBelow(rows, lane, n)
    ensures Top(Held(rows, lane), n) <==> HeldBelow(rows, lane, n + 1)
  {
    assert forall id :: HeldIn(rows, lane, id) ==> rows[id].assignedNonce.value in Held(rows, lane);
  }

  lemma CanAdvanceIsLegal(s: State, lane: Lane, rest: set<Id>, ev: Evidence, row: Transaction)
    requires row.id in s.rows && RowOk(s, row.id) && s.rows[row.id].lane == lane
    requires
      var v := ViewOf(s, lane, rest, row.id);
      CanAdvance(v, row) && (row.assignedNonce == v.row.assignedNonce || CanAssign(v, ev, row))
    requires ev.pending.Some? ==> (lane, ev.pending.value) in s.reported
    ensures Advances(s, lane, s.rows[row.id], row)
  {
    hide HistoryOk, Held, Peers, HeldBelow, Above, RowOk, Owns, Top;
    RowMemory(s, row.id);
    if row.tx.Some? && Owns(Att(s, row.id), row.tx.value) {
      OwnedBy(s, row.id, row.tx.value);
    }
    if row.assignedNonce.Some? {
      HeldBounds(s.rows, lane, row.assignedNonce.value);
    }
  }

  lemma RowMemory(s: State, id: Id)
    requires id in s.rows && RowOk(s, id)
    ensures TxOwned(s, s.rows[id]) && s.rows[id].id == id
  {
  }

  lemma CanEndIsLegal(s: State, lane: Lane, rest: set<Id>, ev: Evidence, row: Transaction)
    requires row.id in s.rows && RowOk(s, row.id) && s.rows[row.id].lane == lane
    requires CanEnd(ViewOf(s, lane, rest, row.id), ev, row) && EntersOutbox(row) && DueAtOnce(row, s.now)
    ensures LegalRow(s, lane, ev, s.rows[row.id], row)
  {
    hide HistoryOk, Held, Peers, HeldBelow, Above, RowOk, Owns, Top, Advances, ProvenUnadmitted;
    RowMemory(s, row.id);
    if row.tx.Some? && Owns(Att(s, row.id), row.tx.value) {
      OwnedBy(s, row.id, row.tx.value);
    }
    if row.receipt.Some? && Owns(Att(s, row.id), row.receipt.value.hash) {
      OwnedBy(s, row.id, row.receipt.value.hash);
    }
    if s.rows[row.id].assignedNonce.Some? {
      HeldBounds(s.rows, lane, s.rows[row.id].assignedNonce.value);
    }
  }

  /** A write the view allows is a legal protocol event. */
  lemma CanSaveIsLegal(s: State, lane: Lane, rest: set<Id>, ev: Evidence, row: Transaction)
    requires Inv(s) && lane in s.locks && row.id in s.rows && s.rows[row.id].lane == lane
    requires CanSave(ViewOf(s, lane, rest, row.id), ev, row) && DueAtOnce(row, s.now)
    requires ev.pending.Some? ==> (lane, ev.pending.value) in s.reported
    ensures Legal(s, lane, ev, SaveRow(row))
  {
    var v := ViewOf(s, lane, rest, row.id);
    hide RowOk, Advances, Finalizes, Releases, Abandons, CanRelease, CanFinalize, CanAssign, OwnsTx, EntersOutbox,
      DueAtOnce, Held, Peers;
    if CanAdvance(v, row) && (row.assignedNonce == v.row.assignedNonce || CanAssign(v, ev, row)) {
      CanAdvanceIsLegal(s, lane, rest, ev, row);
    } else {
      CanEndIsLegal(s, lane, rest, ev, row);
    }
  }

  /** What a write of its row does to the view. */
  lemma SaveChangesView(s: State, lane: Lane, rest: set<Id>, row: Transaction)
    requires row.id in s.rows && s.rows[row.id].lane == lane && row.lane == lane && row.id !in rest
    requires AllWorking(s, lane, rest)
    ensures
      var t := Apply(s, lane, SaveRow(row));
      var v, w := ViewOf(s, lane, rest, row.id), ViewOf(t, lane, rest, row.id);
      && AllWorking(t, lane, rest)
      && w.row == Seen(row) && w.history == v.history && w.settled == v.settled && w.peers == v.peers
      && (row.assignedNonce.Some? &&
              (s.rows[row.id].assignedNonce.Some? ==> s.rows[row.id].assignedNonce == row.assignedNonce)
          ==> w.held == v.held + {row.assignedNonce.value})
      && (row.assignedNonce.None? && s.rows[row.id].assignedNonce.None? ==> w.held == v.held)
  {
    var t := Apply(s, lane, SaveRow(row));
    forall id | id in rest ensures Working(t, lane, id) && t.rows[id] == s.rows[id] && Att(t, id) == Att(s, id) {
      assert Working(s, lane, id);
    }
    assert Peers(t, rest) == Peers(s, rest);
    assert forall id :: id != row.id ==> (HeldIn(t.rows, lane, id) <==> HeldIn(s.rows, lane, id));
    if row.assignedNonce.Some? {
      assert HeldIn(t.rows, lane, row.id);
    }
  }

  /** Signing conditions, judged by the view. */
  ghost predicate CanSign(v: View) {
    && !v.row.IsCompleted() && v.row.assignedNonce.Some?
    && v.row.rejectedAttempt.None? && v.row.nonceConsumedAt.None?
    && |v.history| < MAX_FEE_REPLACEMENTS
    && (v.history != [] ==> v.settled)
  }

  ghost predicate SignedFor(v: View, a: Attempt) {
    && a.txId == v.row.id && v.row.assignedNonce == Some(a.nonce)
    && a.hash == a.tx && a.tx.nonce == a.nonce && a.tx.lane == v.row.lane && a.tx.payload == v.row.payload
    && F.FitsKind(a.tx.fees, v.row.payload.auths != [])
    && (v.history != [] ==> F.OneTenthAbove(Latest(v.history).tx.fees, a.tx.fees))
  }

  lemma CanAttemptIsLegal(s: State, lane: Lane, rest: set<Id>, ev: Evidence, id: Id, a: Attempt)
    requires Inv(s) && lane in s.locks && id in s.rows && s.rows[id].lane == lane
    requires CanSign(ViewOf(s, lane, rest, id)) && SignedFor(ViewOf(s, lane, rest, id), a)
    requires a.hash !in s.owner && a.createdAt == s.now
    ensures Legal(s, lane, ev, SaveAttempt(a))
  {
    hide OwnerOk, NoncesUnique, NoncesReported, SentDurable, KeysUnique, Held, Peers;
    assert RowOk(s, id);
    var history := Att(s, id);
    if history != [] {
      assert AttemptOk(s, s.rows[id], Latest(history));
    }
  }

  lemma AttemptChangesView(s: State, lane: Lane, rest: set<Id>, id: Id, a: Attempt)
    requires id in s.rows && a.txId == id && id !in rest && AllWorking(s, lane, rest)
    ensures
      var t := Apply(s, lane, SaveAttempt(a));
      var v, w := ViewOf(s, lane, rest, id), ViewOf(t, lane, rest, id);
      && AllWorking(t, lane, rest)
      && w.row == v.row && w.history == v.history + [a] && w.held == v.held && w.peers == v.peers
  {
    var t := Apply(s, lane, SaveAttempt(a));
    forall o | o in rest ensures Working(t, lane, o) && Att(t, o) == Att(s, o) {
      assert Working(s, lane, o);
    }
    assert Peers(t, rest) == Peers(s, rest);
  }

  ghost predicate OwnAttempt(r: Transaction, a: Attempt) {
    && a.txId == r.id && a.hash == a.tx && a.tx.nonce == a.nonce && a.tx.lane == r.lane && a.tx.payload == r.payload
    && r.assignedNonce == Some(a.nonce)
    && a.tx.fees.SetCode? == (r.payload.auths != [])
  }

  lemma HistoryFacts(s: State, id: Id)
    requires id in s.rows && RowOk(s, id) && !s.rows[id].IsCompleted()
    ensures |Att(s, id)| <= MAX_FEE_REPLACEMENTS
    ensures forall i :: 0 <= i < |Att(s, id)| ==> OwnAttempt(s.rows[id], Att(s, id)[i])
    ensures forall i :: 0 < i < |Att(s, id)| ==> Att(s, id)[i - 1].createdAt <= Att(s, id)[i].createdAt
  {
    var history := Att(s, id);
    forall i | 0 <= i < |history| ensures OwnAttempt(s.rows[id], history[i]) {
      assert AttemptOk(s, s.rows[id], history[i]);
    }
    forall i | 0 < i < |history| ensures Rung(history[i - 1], history[i]) {
    }
  }

  /** Facts about an active row that the manager's checks turn on. */
  lemma ViewFacts(s: State, lane: Lane, rest: set<Id>, id: Id)
    requires Inv(s) && id in s.rows && !s.rows[id].IsCompleted()
    ensures
      var v := ViewOf(s, lane, rest, id);
      && v.row == s.rows[id] && v.row.id == id
      && CanAdvance(v, v.row)
      && |v.history| <= MAX_FEE_REPLACEMENTS
      && (v.history == [] ==> v.row.tx.None?)
      && (forall i :: 0 <= i < |v.history| ==> OwnAttempt(v.row, v.history[i]))
      && (forall i :: 0 < i < |v.history| ==> v.history[i - 1].createdAt <= v.history[i].createdAt)
  {
    hide NoncesUnique, NoncesReported, SentDurable, KeysUnique, Held, Peers, HistoryOk, OwnAttempt;
    assert RowOk(s, id);
    HistoryFacts(s, id);
    if s.rows[id].tx.Some? {
      assert Owns(Att(s, s.owner[s.rows[id].tx.value]), s.rows[id].tx.value);
    }
  }
}
