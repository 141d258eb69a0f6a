/**
 Whole runs of any number of managers over one store: submissions, lane locks, legal lane events,
 crashes, notification deliverers and the clock interleave freely.
 */
module Runs {
  import opened TxTypes
  import opened Protocol
  import F = Fees

  /** A manager instance that holds a lane lock. */
  datatype Holder = Holder(lane: Lane, ev: Evidence)

  /** A notification in progress: the row as it was loaded, then as the callback left it. */
  datatype Delivery = Loaded(tx: Transaction) | Called(tx: Transaction)

  datatype World = World(s: State, holders: map<nat, Holder>, deliveries: map<nat, Delivery>)

  datatype Step =
    | Submit(row: Transaction)
    | Acquire(k: nat, lane: Lane)
    | Act(k: nat, event: Event)
    | Leave(k: nat)                      // unlock, or a crash at any point
    | Load(d: nat, id: Id)
    | CallBack(d: nat, ok: bool)
    | Record(d: nat)
    | Forget(d: nat)                     // a deliverer that crashed or was cancelled
    | Tick(now: nat)

  /** A row as SendTxAsync builds it. */
  ghost predicate Fresh(r: Transaction) {
    && r.status == Pending && r.assignedNonce.None? && r.tx.None? && r.receipt.None?
    && !r.broadcastPending && r.rejectedAttempt.None? && r.nonceConsumedAt.None? && r.notifiedAt.None?
  }

  /** FilterNotificationReadyBefore. */
  predicate NotificationReady(r: Transaction, before: nat) {
    r.IsCompleted() && r.HasIntent() && r.notifiedAt.None? && r.nextNotificationAt <= before
  }

  /** What a deliverer writes back after its callback answered. */
  function AfterCallback(tx: Transaction, ok: bool, now: nat): Transaction {
    if ok then tx.(notifiedAt := Some(now), updatedAt := now)
    else tx.(notificationAttempts := tx.notificationAttempts + 1,
             nextNotificationAt := now + NotificationBackoff(tx.notificationAttempts + 1), updatedAt := now)
  }

  /** Seconds: one second, doubled for every failed attempt so far, at most a minute. */
  function NotificationBackoff(attempt: nat): (r: nat)
    ensures 1 <= r <= MAX_NOTIFICATION_BACKOFF
  {
    Smaller(Doubled(Smaller(attempt, 6)), MAX_NOTIFICATION_BACKOFF)
  }

  /** 1 << n. */
  function Doubled(n: nat): (r: nat)
    ensures r >= 1
  {
    if n == 0 then 1 else 2 * Doubled(n - 1)
  }

  function Smaller(a: nat, b: nat): nat {
    if a < b then a else b
  }

  /** The failure is counted first, so the first pause is two seconds; it doubles with every further failure until it
      reaches a minute. */
  lemma BackoffDoubles(attempt: nat)
    ensures NotificationBackoff(0) == 1 && NotificationBackoff(1) == 2
    ensures NotificationBackoff(attempt + 1) == Smaller(2 * NotificationBackoff(attempt), MAX_NOTIFICATION_BACKOFF)
  {
    assert Doubled(6) == 2 * Doubled(5) && Doubled(5) == 2 * Doubled(4) && Doubled(4) == 2 * Doubled(3);
    assert Doubled(3) == 2 * Doubled(2) && Doubled(2) == 2 * Doubled(1);
  }

  /** UpdateNotification: only an unacknowledged terminal row takes the four delivery fields. */
  function UpdateNotification(rows: map<Id, Transaction>, tx: Transaction): map<Id, Transaction> {
    if tx.id !in rows || !rows[tx.id].IsCompleted() || rows[tx.id].notifiedAt.Some? then rows
    else rows[tx.id := rows[tx.id].(
           notifiedAt := tx.notifiedAt, notificationAttempts := tx.notificationAttempts,
           nextNotificationAt := tx.nextNotificationAt, updatedAt := tx.updatedAt)]
  }

  ghost predicate Enabled(w: World, step: Step) {
    match step
    case Submit(r) =>
      && r.id !in w.s.rows && Fresh(r)
      && (r.operationKey.Some? ==> forall id :: id in w.s.rows ==> w.s.rows[id].operationKey != r.operationKey)
    case Acquire(k, lane) => k !in w.holders && lane !in w.s.locks
    case Act(k, e) => k in w.holders && Legal(w.s, w.holders[k].lane, w.holders[k].ev, e)
    case Leave(k) => k in w.holders
    case Load(d, id) => d !in w.deliveries && id in w.s.rows && NotificationReady(w.s.rows[id], w.s.now)
    case CallBack(d, _) => d in w.deliveries && w.deliveries[d].Loaded?
    case Record(d) => d in w.deliveries && w.deliveries[d].Called?
    case Forget(d) => d in w.deliveries
    case Tick(t) => w.s.now <= t
  }

  ghost function Do(w: World, step: Step): World
    requires Enabled(w, step)
  {
    match step
    case Submit(r) => w.(s := w.s.(rows := w.s.rows[r.id := r]))
    case Acquire(k, lane) =>
      w.(s := w.s.(locks := w.s.locks + {lane}), holders := w.holders[k := Holder(lane, NOTHING)])
    case Act(k, e) =>
      var h := w.holders[k];
      w.(s := Apply(w.s, h.lane, e), holders := w.holders[k := Holder(h.lane, Learn(h.ev, e))])
    case Leave(k) =>
      w.(s := w.s.(locks := w.s.locks - {w.holders[k].lane}), holders := w.holders - {k})
    case Load(d, id) => w.(deliveries := w.deliveries[d := Loaded(w.s.rows[id])])
    case CallBack(d, ok) =>
      var tx := w.deliveries[d].tx;
      w.(s := if ok then w.s.(acked := w.s.acked + {tx.id}) else w.s,
         deliveries := w.deliveries[d := Called(AfterCallback(tx, ok, w.s.now))])
    case Record(d) =>
      w.(s := w.s.(rows := UpdateNotification(w.s.rows, w.deliveries[d].tx)), deliveries := w.deliveries - {d})
    case Forget(d) => w.(deliveries := w.deliveries - {d})
    case Tick(t) => w.(s := w.s.(now := t))
  }

  ghost predicate Init(w: World) {
    w == World(State(map[], map[], map[], {}, {}, {}, {}, {}, w.s.now), map[], map[])
  }

  ghost predicate IsRun(run: seq<World>, steps: seq<Step>) {
    && |run| == |steps| + 1
    && Init(run[0])
    && (forall i :: 0 <= i < |steps| ==> Enabled(run[i], steps[i]) && run[i + 1] == Do(run[i], steps[i]))
  }

  lemma RunStep(run: seq<World>, steps: seq<Step>, i: nat)
    requires IsRun(run, steps) && i < |steps|
    ensures Enabled(run[i], steps[i]) && run[i + 1] == Do(run[i], steps[i])
  {
    hide Enabled, Do, Init;
  }

  // ----- the invariant of the whole system -----

  ghost predicate LocksExclusive(w: World) {
    && (forall k :: k in w.holders ==> w.holders[k].lane in w.s.locks)
    && (forall k, l :: k in w.holders && l in w.holders && k != l ==> w.holders[k].lane != w.holders[l].lane)
  }

  ghost predicate DeliveryOk(s: State, d: Delivery) {
    && d.tx.id in s.rows && s.rows[d.tx.id].IsCompleted() && s.rows[d.tx.id].HasIntent()
    && (d.tx.notifiedAt.Some? ==> d.tx.id in s.acked)
    && (d.tx.notifiedAt.None? ==> d.tx.nextNotificationAt <= s.now + MAX_NOTIFICATION_BACKOFF)
  }

  ghost predicate DeliveriesOk(w: World) {
    forall d :: d in w.deliveries ==> DeliveryOk(w.s, w.deliveries[d])
  }

  ghost predicate WorldInv(w: World) {
    Inv(w.s) && LocksExclusive(w) && DeliveriesOk(w)
  }

  lemma SubmitKeepsInv(s: State, r: Transaction)
    requires Inv(s) && r.id !in s.rows && Fresh(r)
    requires r.operationKey.Some? ==> forall id :: id in s.rows ==> s.rows[id].operationKey != r.operationKey
    ensures Inv(s.(rows := s.rows[r.id := r]))
  {
    hide RowOk;
    var t := s.(rows := s.rows[r.id := r]);
    forall id | id in t.rows ensures RowOk(t, id) {
      assert Att(t, id) == Att(s, id);
      if id != r.id {
        RowOkFrame(s, t, id);
      } else {
        FreshRowOk(t, id);
      }
    }
    OwnerOkFrame(s, t);
    SubmitKeepsNonces(s.rows, s.reported, r);
  }

  lemma FreshRowOk(s: State, id: Id)
    requires id in s.rows && s.rows[id].id == id && Fresh(s.rows[id]) && Att(s, id) == []
    ensures RowOk(s, id)
  {
  }

  lemma SubmitKeepsNonces(rows: map<Id, Transaction>, reported: set<(Lane, Nonce)>, r: Transaction)
    requires NoncesUnique(rows) && NoncesReported(rows, reported) && r.assignedNonce.None?
    ensures NoncesUnique(rows[r.id := r]) && NoncesReported(rows[r.id := r], reported)
  {
    var after := rows[r.id := r];
    forall id, l | HeldIn(after, l, id) ensures id != r.id && HeldIn(rows, l, id) {
    }
  }

  lemma RecordedRowOk(s: State, t: State, tx: Transaction)
    requires tx.id in s.rows && RowOk(s, tx.id)
    requires s.rows[tx.id].HasIntent() && (tx.notifiedAt.Some? ==> tx.id in s.acked)
    requires tx.notifiedAt.None? ==> tx.nextNotificationAt <= s.now + MAX_NOTIFICATION_BACKOFF
    requires t == s.(rows := UpdateNotification(s.rows, tx))
    ensures RowOk(t, tx.id)
  {
    assert Att(t, tx.id) == Att(s, tx.id);
    var history := Att(s, tx.id);
    forall i | 0 <= i < |history| ensures AttemptOk(t, t.rows[tx.id], history[i]) {
      assert AttemptOk(s, s.rows[tx.id], history[i]);
    }
  }

  lemma RecordKeepsInv(s: State, d: Delivery)
    requires Inv(s) && DeliveryOk(s, d)
    ensures Inv(s.(rows := UpdateNotification(s.rows, d.tx)))
  {
    hide RowOk;
    var t := s.(rows := UpdateNotification(s.rows, d.tx));
    forall id | id in t.rows ensures RowOk(t, id) {
      if id == d.tx.id {
        RecordedRowOk(s, t, d.tx);
      } else {
        RowOkFrame(s, t, id);
      }
    }
    OwnerOkFrame(s, t);
    RecordKeepsNonces(s.rows, s.reported, d.tx);
  }

  lemma RecordKeepsNonces(rows: map<Id, Transaction>, reported: set<(Lane, Nonce)>, tx: Transaction)
    requires NoncesUnique(rows) && NoncesReported(rows, reported)
    ensures NoncesUnique(UpdateNotification(rows, tx)) && NoncesReported(UpdateNotification(rows, tx), reported)
  {
    var after := UpdateNotification(rows, tx);
    forall id, l | HeldIn(after, l, id)
      ensures HeldIn(rows, l, id) && rows[id].assignedNonce == after[id].assignedNonce {
    }
  }

  lemma StepKeepsProtocol(w: World, step: Step)
    requires WorldInv(w) && Enabled(w, step)
    ensures Inv(Do(w, step).s)
  {
    hide Inv, Legal, RowOk, LocksExclusive;
    match step
    case Submit(r) => SubmitKeepsInv(w.s, r);
    case Act(k, e) => LegalKeepsInv(w.s, w.holders[k].lane, w.holders[k].ev, e);
    case Record(d) =>
      assert DeliveryOk(w.s, w.deliveries[d]);
      RecordKeepsInv(w.s, w.deliveries[d]);
    case Load(_, _) =>
    case Forget(_) =>
    case Acquire(_, _) => GrowthKeepsInv(w.s, Do(w, step).s);
    case Leave(_) => GrowthKeepsInv(w.s, Do(w, step).s);
    case CallBack(_, _) => GrowthKeepsInv(w.s, Do(w, step).s);
    case Tick(_) => GrowthKeepsInv(w.s, Do(w, step).s);
  }

  /** How a row may change over any stretch of a run. */
  ghost predicate Evolves(a: Transaction, b: Transaction) {
    && SameIdentity(a, b)
    && (a.IsCompleted() ==> b.Core() == a.Core() && (a.notifiedAt.Some? ==> b == a))
    && (a.assignedNonce.Some? ==> b.assignedNonce == a.assignedNonce || (b.assignedNonce.None? && b.status == Errored))
  }

  lemma LegalRowEvolves(s: State, lane: Lane, ev: Evidence, old': Transaction, new': Transaction)
    requires LegalRow(s, lane, ev, old', new') && !old'.IsCompleted()
    ensures Evolves(old', new')
  {
    hide HeldBelow, PendingHonest, RejectionNamesLatest, ProvenUnadmitted, TxOwned;
  }

  lemma EventEvolvesRow(s: State, lane: Lane, ev: Evidence, e: Event, id: Id)
    requires Legal(s, lane, ev, e) && id in s.rows
    ensures id in Apply(s, lane, e).rows && Evolves(s.rows[id], Apply(s, lane, e).rows[id])
    ensures Att(s, id) <= Att(Apply(s, lane, e), id)
  {
    hide LegalRow, LegalAttempt, Evolves;
    EvolvesReflexive(s.rows[id]);
    if e.SaveRow? {
      LegalRowEvolves(s, lane, ev, s.rows[e.row.id], e.row);
    }
  }

  lemma RecordEvolvesRow(rows: map<Id, Transaction>, tx: Transaction, id: Id)
    requires id in rows
    ensures id in UpdateNotification(rows, tx) && Evolves(rows[id], UpdateNotification(rows, tx)[id])
  {
  }

  /** What one step does to one row. */
  lemma StepEvolvesRow(w: World, step: Step, id: Id)
    requires WorldInv(w) && Enabled(w, step) && id in w.s.rows
    ensures id in Do(w, step).s.rows && Evolves(w.s.rows[id], Do(w, step).s.rows[id])
    ensures Att(w.s, id) <= Att(Do(w, step).s, id)
  {
    hide WorldInv, Legal, Evolves, UpdateNotification, Apply, Learn;
    EvolvesReflexive(w.s.rows[id]);
    match step
    case Act(k, e) => EventEvolvesRow(w.s, w.holders[k].lane, w.holders[k].ev, e, id);
    case Record(d) => RecordEvolvesRow(w.s.rows, w.deliveries[d].tx, id);
    case _ =>
  }

  lemma RowKeyed(s: State, id: Id)
    requires Inv(s) && id in s.rows
    ensures s.rows[id].id == id
  {
    assert RowOk(s, id);
  }

  lemma StepKeepsLocks(w: World, step: Step)
    requires LocksExclusive(w) && Enabled(w, step)
    ensures LocksExclusive(Do(w, step))
  {
    hide Legal, Learn, UpdateNotification;
    if step.Act? {
      assert Apply(w.s, w.holders[step.k].lane, step.event).locks == w.s.locks;
    }
  }

  lemma StepKeepsDeliveries(w: World, step: Step)
    requires WorldInv(w) && Enabled(w, step)
    ensures DeliveriesOk(Do(w, step))
  {
    hide Inv, Legal, LocksExclusive;
    var t := Do(w, step);
    forall d | d in t.deliveries ensures DeliveryOk(t.s, t.deliveries[d]) {
      if d in w.deliveries {
        assert DeliveryOk(w.s, w.deliveries[d]);
        StepEvolvesRow(w, step, w.deliveries[d].tx.id);
      } else {
        RowKeyed(w.s, step.id);
      }
      assert w.s.acked <= t.s.acked by { hide DeliveryOk; }
    }
  }

  lemma StepKeepsWorld(w: World, step: Step)
    requires WorldInv(w) && Enabled(w, step)
    ensures WorldInv(Do(w, step))
  {
    hide Inv, Legal, LocksExclusive, DeliveriesOk, Enabled, Do;
    StepKeepsProtocol(w, step);
    StepKeepsLocks(w, step);
    StepKeepsDeliveries(w, step);
  }

  lemma InitHolds(w: World)
    requires Init(w)
    ensures WorldInv(w)
  {
  }

  /** In every state of every run the whole invariant holds. */
  lemma {:induction false} Always(run: seq<World>, steps: seq<Step>, i: nat)
    requires IsRun(run, steps) && i < |run|
    ensures WorldInv(run[i])
  {
    hide WorldInv, Enabled, Do;
    if i == 0 {
      InitHolds(run[0]);
    } else {
      Always(run, steps, i - 1);
      RunStep(run, steps, i - 1);
      StepKeepsWorld(run[i - 1], steps[i - 1]);
    }
  }

  // ----- nonces -----

  /** No two rows of a lane ever hold one nonce, and each held nonce other than the lane's maximum is
      strictly below a pending nonce that a node has reported for the lane. */
  lemma NoncesDistinctAndAcknowledged(run: seq<World>, steps: seq<Step>, i: nat, lane: Lane, a: Id, b: Id)
    requires IsRun(run, steps) && i < |run|
    requires HeldIn(run[i].s.rows, lane, a) && HeldIn(run[i].s.rows, lane, b) && a != b
    ensures
      var m, n := run[i].s.rows[a].assignedNonce.value, run[i].s.rows[b].assignedNonce.value;
      m != n && (m < n ==> exists p :: m < p && (lane, p) in run[i].s.reported)
  {
    Always(run, steps, i);
    hide RowsOk, OwnerOk, IsRun;
    assert (lane, run[i].s.rows[b].assignedNonce.value) in run[i].s.reported;
  }

  /** At most one row of a lane sits at or beyond every pending nonce the node has reported. */
  lemma NoCascade(run: seq<World>, steps: seq<Step>, i: nat, lane: Lane, a: Id, b: Id)
    requires IsRun(run, steps) && i < |run|
    requires HeldIn(run[i].s.rows, lane, a) && HeldIn(run[i].s.rows, lane, b)
    requires forall p :: (lane, p) in run[i].s.reported ==> p <= run[i].s.rows[a].assignedNonce.value
    requires forall p :: (lane, p) in run[i].s.reported ==> p <= run[i].s.rows[b].assignedNonce.value
    ensures a == b
  {
    if a != b {
      NoncesDistinctAndAcknowledged(run, steps, i, lane, a, b);
      NoncesDistinctAndAcknowledged(run, steps, i, lane, b, a);
    }
  }

  lemma AssigningStep(w: World, step: Step, id: Id)
    requires Enabled(w, step) && id in w.s.rows && w.s.rows[id].assignedNonce.None?
    requires id in Do(w, step).s.rows && Do(w, step).s.rows[id].assignedNonce.Some?
    ensures step.Act? && step.event.SaveRow? && step.event.row.id == id
    ensures AssignsNext(w.s, w.s.rows[id].lane, w.s.rows[id], Do(w, step).s.rows[id])
  {
    hide HeldBelow, LegalAttempt, PendingHonest, RejectionNamesLatest, TxOwned, ProvenUnadmitted, Learn;
  }

  /** A row gets a nonce only above every nonce its lane holds, and only one the node has reported. */
  lemma AssignmentIsNewMaximum(run: seq<World>, steps: seq<Step>, i: nat, id: Id)
    requires IsRun(run, steps) && i < |steps|
    requires id in run[i].s.rows && run[i].s.rows[id].assignedNonce.None?
    requires id in run[i + 1].s.rows && run[i + 1].s.rows[id].assignedNonce.Some?
    ensures
      var n, lane := run[i + 1].s.rows[id].assignedNonce.value, run[i].s.rows[id].lane;
      HeldBelow(run[i].s.rows, lane, n) && (lane, n) in run[i].s.reported
  {
    RunStep(run, steps, i);
    hide IsRun, Enabled, Do, HeldBelow;
    AssigningStep(run[i], steps[i], id);
  }

  // ----- rows over time -----

  lemma EvolvesReflexive(a: Transaction)
    ensures Evolves(a, a)
  {
  }

  lemma EvolvesTransitive(a: Transaction, b: Transaction, c: Transaction)
    requires Evolves(a, b) && Evolves(b, c)
    ensures Evolves(a, c)
  {
  }

  /** Over any stretch of any run a row stays, keeps its identity, keeps its nonce unless it ends errored,
      only gains attempts, and never leaves a terminal status. */
  lemma {:induction false} RowsEvolve(run: seq<World>, steps: seq<Step>, i: nat, j: nat, id: Id)
    requires IsRun(run, steps) && i <= j < |run| && id in run[i].s.rows
    ensures id in run[j].s.rows && Evolves(run[i].s.rows[id], run[j].s.rows[id])
    ensures Att(run[i].s, id) <= Att(run[j].s, id)
    decreases j - i
  {
    hide IsRun, Evolves;
    if i < j {
      RowsEvolve(run, steps, i, j - 1, id);
      RowStep(run, steps, j - 1, id);
      EvolvesTransitive(run[i].s.rows[id], run[j - 1].s.rows[id], run[j].s.rows[id]);
    } else {
      EvolvesReflexive(run[i].s.rows[id]);
    }
  }

  lemma RowStep(run: seq<World>, steps: seq<Step>, i: nat, id: Id)
    requires IsRun(run, steps) && i + 1 < |run| && id in run[i].s.rows
    ensures id in run[i + 1].s.rows && Evolves(run[i].s.rows[id], run[i + 1].s.rows[id])
    ensures Att(run[i].s, id) <= Att(run[i + 1].s, id)
  {
    hide WorldInv, Enabled, Do, Evolves;
    Always(run, steps, i);
    RunStep(run, steps, i);
    StepEvolvesRow(run[i], steps[i], id);
  }

  /** While a row is active its assigned nonce never changes once set. */
  lemma NonceNeverChanges(run: seq<World>, steps: seq<Step>, i: nat, j: nat, id: Id)
    requires IsRun(run, steps) && i <= j < |run| && id in run[i].s.rows
    requires run[i].s.rows[id].assignedNonce.Some?
    ensures id in run[j].s.rows
    ensures !run[j].s.rows[id].IsCompleted() ==> run[j].s.rows[id].assignedNonce == run[i].s.rows[id].assignedNonce
  {
    RowsEvolve(run, steps, i, j, id);
  }

  /** A terminal status, with the nonce, transaction and receipt it was reached with, is absorbing. */
  lemma TerminalIsAbsorbing(run: seq<World>, steps: seq<Step>, i: nat, j: nat, id: Id)
    requires IsRun(run, steps) && i <= j < |run| && id in run[i].s.rows && run[i].s.rows[id].IsCompleted()
    ensures id in run[j].s.rows && run[j].s.rows[id].Core() == run[i].s.rows[id].Core()
    ensures run[i].s.rows[id].notifiedAt.Some? ==> run[j].s.rows[id] == run[i].s.rows[id]
  {
    RowsEvolve(run, steps, i, j, id);
  }

  /** Every active row's signed history in every state of every run. */
  lemma ActiveRowShape(run: seq<World>, steps: seq<Step>, i: nat, id: Id)
    requires IsRun(run, steps) && i < |run| && id in run[i].s.rows && !run[i].s.rows[id].IsCompleted()
    ensures
      var r, history := run[i].s.rows[id], Att(run[i].s, id);
      && |history| <= MAX_FEE_REPLACEMENTS
      && (forall k :: 0 <= k < |history| ==>
              Some(history[k].nonce) == r.assignedNonce && history[k].tx.nonce == history[k].nonce)
      && (r.rejectedAttempt.Some? ==> history != [] && r.rejectedAttempt.value == Latest(history).hash)
  {
    Always(run, steps, i);
    hide IsRun, OwnerOk, NoncesUnique, NoncesReported, SentDurable, KeysUnique, LocksExclusive, DeliveriesOk;
    assert RowOk(run[i].s, id);
    var history := Att(run[i].s, id);
    assert forall k :: 0 <= k < |history| ==> AttemptOk(run[i].s, run[i].s.rows[id], history[k]);
  }

  /** In every state of every run each attempt of a row raises every fee component of the one before by at
      least a tenth, and a set-code attempt keeps its tip cap at or below its fee cap. */
  lemma AttemptsClimb(run: seq<World>, steps: seq<Step>, i: nat, id: Id, x: nat)
    requires IsRun(run, steps) && i < |run| && id in run[i].s.rows && x < |Att(run[i].s, id)|
    ensures
      var history := Att(run[i].s, id);
      && (x > 0 ==> F.OneTenthAbove(history[x - 1].tx.fees, history[x].tx.fees))
      && (history[x].tx.fees.SetCode? ==> history[x].tx.fees.tipCap <= history[x].tx.fees.feeCap)
  {
    Always(run, steps, i);
    hide IsRun, OwnerOk, NoncesUnique, NoncesReported, SentDurable, KeysUnique, LocksExclusive, DeliveriesOk;
    assert RowOk(run[i].s, id);
    var history := Att(run[i].s, id);
    assert AttemptOk(run[i].s, run[i].s.rows[id], history[x]);
    assert x > 0 ==> Rung(history[x - 1], history[x]);
  }

  // ----- hash ownership and receipts -----

  lemma OwnersGrow(w: World, step: Step)
    requires Enabled(w, step)
    ensures OwnerGrows(w.s, Do(w, step).s)
  {
    hide UpdateNotification, LegalRow, Learn;
  }

  /** A signed hash has one owning row, for ever. */
  lemma {:induction false} OwnerForever(run: seq<World>, steps: seq<Step>, i: nat, j: nat, h: Hash)
    requires IsRun(run, steps) && i <= j < |run| && h in run[i].s.owner
    ensures h in run[j].s.owner && run[j].s.owner[h] == run[i].s.owner[h]
    decreases j - i
  {
    hide Enabled, Do, Init, OwnerOk;
    if i < j {
      OwnerForever(run, steps, i, j - 1, h);
      RunStep(run, steps, j - 1);
      OwnersGrow(run[j - 1], steps[j - 1]);
    }
  }

  /** A succeeded or failed row carries a receipt for one of its own attempts, and no receipt ever
      completes two logical transactions, even at different times of the run. */
  lemma ReceiptCompletesOneRow(run: seq<World>, steps: seq<Step>, i: nat, j: nat, a: Id, b: Id)
    requires IsRun(run, steps) && i <= j < |run|
    requires a in run[i].s.rows && (run[i].s.rows[a].status == Succeed || run[i].s.rows[a].status == Failed)
    requires b in run[j].s.rows && (run[j].s.rows[b].status == Succeed || run[j].s.rows[b].status == Failed)
    ensures run[i].s.rows[a].receipt.Some? && Owns(Att(run[i].s, a), run[i].s.rows[a].receipt.value.hash)
    ensures run[j].s.rows[b].receipt.Some? && Owns(Att(run[j].s, b), run[j].s.rows[b].receipt.value.hash)
    ensures run[i].s.rows[a].receipt.value.hash == run[j].s.rows[b].receipt.value.hash ==> a == b
  {
    CompletedByOwnReceipt(run, steps, i, a);
    CompletedByOwnReceipt(run, steps, j, b);
    OwnerForever(run, steps, i, j, run[i].s.rows[a].receipt.value.hash);
  }

  /** A succeeded or failed row carries a receipt for one of its own attempts that the node really answered. */
  lemma CompletedByOwnReceipt(run: seq<World>, steps: seq<Step>, i: nat, a: Id)
    requires IsRun(run, steps) && i < |run|
    requires a in run[i].s.rows && (run[i].s.rows[a].status == Succeed || run[i].s.rows[a].status == Failed)
    ensures run[i].s.rows[a].receipt.Some?
    ensures run[i].s.rows[a].receipt.value.hash in run[i].s.owner &&
      run[i].s.owner[run[i].s.rows[a].receipt.value.hash] == a
    ensures Owns(Att(run[i].s, a), run[i].s.rows[a].receipt.value.hash)
    ensures NodeShowed(steps, i, run[i].s.rows[a].receipt.value)
  {
    ReceiptWasShown(run, steps, i, a);
    Always(run, steps, i);
    hide IsRun, NodeShowed, NoncesUnique, NoncesReported, SentDurable, KeysUnique, HistoryOk;
    assert RowOk(run[i].s, a);
  }

  // ----- durable before sent, and definitely answered before replaced -----

  /** Every envelope ever handed to a node is, at that moment and in every later state, a durable attempt
      of the row it was sent for. */
  lemma SentIsDurable(run: seq<World>, steps: seq<Step>, i: nat, j: nat, k: nat, id: Id, h: Hash)
    requires IsRun(run, steps) && i <= j < |run| && i < |steps| && steps[i] == Act(k, Send(id, h))
    ensures id in run[j].s.rows && Owns(Att(run[j].s, id), h)
    ensures h in run[j].s.owner && run[j].s.owner[h] == id
  {
    RunStep(run, steps, i);
    Always(run, steps, i);
    SendingStep(run[i], k, id, h);
    hide IsRun, Enabled, Do, WorldInv;
    RowsEvolve(run, steps, i, j, id);
    OwnerForever(run, steps, i, j, h);
    var x :| 0 <= x < |Att(run[i].s, id)| && Att(run[i].s, id)[x].hash == h;
    assert Att(run[j].s, id)[x].hash == h;
  }

  lemma SendingStep(w: World, k: nat, id: Id, h: Hash)
    requires WorldInv(w) && Enabled(w, Act(k, Send(id, h)))
    ensures id in w.s.rows && Owns(Att(w.s, id), h) && h in w.s.owner && w.s.owner[h] == id
  {
    hide OwnerOk, NoncesUnique, NoncesReported, SentDurable, KeysUnique, DeliveriesOk, LocksExclusive, RowOk;
    LatestOwned(w.s, id);
    assert Att(w.s, id)[|Att(w.s, id)| - 1].hash == h;
  }

  /** Some definite answer to h came after its latest send. */
  ghost predicate DefinitelyAnswered(steps: seq<Step>, i: nat, h: Hash)
    requires i <= |steps|
  {
    exists m :: 0 <= m < i && AnswersDefinitely(steps[m], h) && forall x :: m < x < i ==> !Sends(steps[x], h)
  }

  ghost predicate AnswersDefinitely(step: Step, h: Hash) {
    step.Act? && step.event.Answer? && step.event.hash == h && step.event.disposition.Definite()
  }

  ghost predicate Sends(step: Step, h: Hash) {
    step.Act? && step.event.Send? && step.event.hash == h
  }

  lemma {:induction false} SettledMeansAnswered(run: seq<World>, steps: seq<Step>, i: nat, h: Hash)
    requires IsRun(run, steps) && i < |run| && h in run[i].s.settled
    ensures DefinitelyAnswered(steps, i, h)
  {
    hide Enabled, Do, AnswersDefinitely, Sends;
    if i > 0 {
      RunStep(run, steps, i - 1);
      SettlingStep(run[i - 1], steps[i - 1], h);
      if !AnswersDefinitely(steps[i - 1], h) {
        SettledMeansAnswered(run, steps, i - 1, h);
        var m :| 0 <= m < i - 1 && AnswersDefinitely(steps[m], h) && forall x :: m < x < i - 1 ==> !Sends(steps[x], h);
        assert forall x :: m < x < i ==> !Sends(steps[x], h);
      }
    }
  }

  lemma SettlingStep(w: World, step: Step, h: Hash)
    requires Enabled(w, step) && h in Do(w, step).s.settled
    ensures !Sends(step, h)
    ensures AnswersDefinitely(step, h) || h in w.s.settled
  {
    hide Legal, Learn, UpdateNotification;
  }

  /** In every state of every run, every attempt of every row except possibly the newest has a definite
      answer to its latest send; so no replacement is ever signed over an ambiguous broadcast. */
  lemma OlderAttemptsAnswered(run: seq<World>, steps: seq<Step>, i: nat, id: Id, x: nat)
    requires IsRun(run, steps) && i < |run| && id in run[i].s.rows && x < |Att(run[i].s, id)| - 1
    ensures DefinitelyAnswered(steps, i, Att(run[i].s, id)[x].hash)
  {
    Always(run, steps, i);
    hide IsRun, OwnerOk, NoncesUnique, NoncesReported, SentDurable, KeysUnique, DeliveriesOk, LocksExclusive,
      DefinitelyAnswered;
    assert RowOk(run[i].s, id);
    SettledMeansAnswered(run, steps, i, Att(run[i].s, id)[x].hash);
  }

  /** The replacement step itself: the attempt being replaced was definitely answered beforehand. */
  lemma ReplacementOverDefiniteAnswer(run: seq<World>, steps: seq<Step>, i: nat, k: nat, a: Attempt)
    requires IsRun(run, steps) && i < |steps| && steps[i] == Act(k, SaveAttempt(a)) && Att(run[i].s, a.txId) != []
    ensures DefinitelyAnswered(steps, i, Latest(Att(run[i].s, a.txId)).hash)
    ensures Rung(Latest(Att(run[i].s, a.txId)), a)
  {
    RunStep(run, steps, i);
    hide IsRun, DefinitelyAnswered;
    SettledMeansAnswered(run, steps, i, Latest(Att(run[i].s, a.txId)).hash);
  }

  // ----- release of a nonce -----

  /** Worker k performed e before step i, and has neither written, begun another row nor lost its lock since. */
  ghost predicate SinceLastWrite(steps: seq<Step>, i: nat, k: nat, m: nat) {
    m < i <= |steps| && forall x :: m < x < i ==> !EndsEvidence(steps[x], k)
  }

  ghost predicate EndsEvidence(step: Step, k: nat) {
    match step
    case Act(l, e) => l == k && (e.SaveRow? || e.Begin?)
    case Leave(l) => l == k
    case Acquire(l, _) => l == k
    case _ => false
  }

  ghost predicate ReadSince(steps: seq<Step>, i: nat, k: nat, e: Event) {
    exists m: nat :: SinceLastWrite(steps, i, k, m) && steps[m] == Act(k, e)
  }

  lemma ReadSinceNow(steps: seq<Step>, i: nat, k: nat, e: Event)
    requires i < |steps| && steps[i] == Act(k, e)
    ensures ReadSince(steps, i + 1, k, e)
  {
    assert SinceLastWrite(steps, i + 1, k, i);
  }

  lemma ReadSinceLater(steps: seq<Step>, i: nat, k: nat, e: Event)
    requires i < |steps| && ReadSince(steps, i, k, e) && !EndsEvidence(steps[i], k)
    ensures ReadSince(steps, i + 1, k, e)
  {
    var m: nat :| SinceLastWrite(steps, i, k, m) && steps[m] == Act(k, e);
    assert SinceLastWrite(steps, i + 1, k, m);
  }

  /** The answer that shows a receipt. */
  function ShowsReceipt(r: Receipt): Event {
    ReadReceipt(r.hash, FoundReceipt(r.hash, if r.ok then 1 else 0))
  }

  /** The evidence a holder carries is what the node really answered since its last durable write. */
  ghost predicate EvidenceTrue(steps: seq<Step>, i: nat, k: nat, ev: Evidence) {
    && (forall r :: r in ev.receipts ==> ReadSince(steps, i, k, ShowsReceipt(r)))
    && (forall h :: h in ev.noReceipt ==> ReadSince(steps, i, k, ReadReceipt(h, NoReceipt)))
    && (forall h :: h in ev.noTransaction ==> ReadSince(steps, i, k, ReadTransaction(h, NoTransaction)))
    && (ev.pending.Some? ==> ReadSince(steps, i, k, ReadPendingNonce(ev.pending.value)))
  }

  lemma EvidenceGrows(steps: seq<Step>, i: nat, k: nat, ev: Evidence, e: Event)
    requires i < |steps| && steps[i] == Act(k, e) && EvidenceTrue(steps, i, k, ev)
    ensures EvidenceTrue(steps, i + 1, k, Learn(ev, e))
  {
    hide ReadSince;
    ReadSinceNow(steps, i, k, e);
    if e.ReadReceipt? && GoodReceipt(e.hash, e.receipt) {
      assert e == ShowsReceipt(Receipt(e.hash, e.receipt.status == 1));
    }
    var after := Learn(ev, e);
    if !EndsEvidence(steps[i], k) {
      EvidenceStays(steps, i, k, ev);
    }
  }

  lemma EvidenceStays(steps: seq<Step>, i: nat, k: nat, ev: Evidence)
    requires i < |steps| && !EndsEvidence(steps[i], k) && EvidenceTrue(steps, i, k, ev)
    ensures EvidenceTrue(steps, i + 1, k, ev)
  {
    hide ReadSince, EndsEvidence;
    forall r | r in ev.receipts ensures ReadSince(steps, i + 1, k, ShowsReceipt(r)) {
      ReadSinceLater(steps, i, k, ShowsReceipt(r));
    }
    forall h | h in ev.noReceipt ensures ReadSince(steps, i + 1, k, ReadReceipt(h, NoReceipt)) {
      ReadSinceLater(steps, i, k, ReadReceipt(h, NoReceipt));
    }
    forall h | h in ev.noTransaction ensures ReadSince(steps, i + 1, k, ReadTransaction(h, NoTransaction)) {
      ReadSinceLater(steps, i, k, ReadTransaction(h, NoTransaction));
    }
    if ev.pending.Some? {
      ReadSinceLater(steps, i, k, ReadPendingNonce(ev.pending.value));
    }
  }

  lemma HoldersStep(w: World, step: Step, k: nat)
    requires Enabled(w, step) && k in Do(w, step).holders
    ensures step.Act? && step.k == k ==>
      k in w.holders && Do(w, step).holders[k].ev == Learn(w.holders[k].ev, step.event)
    ensures !(step.Act? && step.k == k) ==>
      Do(w, step).holders[k].ev == NOTHING ||
          (k in w.holders && Do(w, step).holders[k] == w.holders[k] && !EndsEvidence(step, k))
  {
    hide Legal, Apply, Learn, UpdateNotification;
  }

  lemma {:induction false} EvidenceIsTrue(run: seq<World>, steps: seq<Step>, i: nat, k: nat)
    requires IsRun(run, steps) && i < |run| && k in run[i].holders
    ensures EvidenceTrue(steps, i, k, run[i].holders[k].ev)
  {
    hide Enabled, Do, EvidenceTrue, EndsEvidence, Learn;
    if i == 0 {
      NothingIsTrue(steps, i, k);
    } else {
      RunStep(run, steps, i - 1);
      HoldersStep(run[i - 1], steps[i - 1], k);
      if k in run[i - 1].holders {
        EvidenceIsTrue(run, steps, i - 1, k);
      }
      hide IsRun;
      if steps[i - 1].Act? && steps[i - 1].k == k {
        EvidenceGrows(steps, i - 1, k, run[i - 1].holders[k].ev, steps[i - 1].event);
      } else if run[i].holders[k].ev == NOTHING {
        NothingIsTrue(steps, i, k);
      } else {
        EvidenceStays(steps, i - 1, k, run[i].holders[k].ev);
      }
    }
  }

  lemma NothingIsTrue(steps: seq<Step>, i: nat, k: nat)
    ensures EvidenceTrue(steps, i, k, NOTHING)
  {
  }

  lemma ReleasingStep(w: World, step: Step, id: Id)
    requires Enabled(w, step) && id in w.s.rows && w.s.rows[id].assignedNonce.Some?
    requires id in Do(w, step).s.rows && Do(w, step).s.rows[id].assignedNonce.None?
    requires w.s.rows[id].id == id && (forall x :: x in w.deliveries ==> w.deliveries[x].tx.id in w.s.rows)
    ensures step.Act? && step.k in w.holders && step.event.SaveRow? && step.event.row.id == id
    ensures HeldBelow(w.s.rows, w.s.rows[id].lane, w.s.rows[id].assignedNonce.value + 1)
    ensures Att(w.s, id) != [] ==> ProvenUnadmitted(w.holders[step.k].ev, w.s.rows[id], Att(w.s, id))
  {
    hide HeldBelow, LegalAttempt, PendingHonest, RejectionNamesLatest, TxOwned, ProvenUnadmitted, Learn;
  }

  /** A nonce is given back only at the lane's maximum; and by a signed row only in a step whose holder,
      since the rejection of the newest attempt became durable, read a clean "absent" receipt and by-hash
      answer for every attempt and a pending nonce equal to the row's own. */
  lemma ReleaseNeedsEvidence(run: seq<World>, steps: seq<Step>, i: nat, id: Id)
    requires IsRun(run, steps) && i < |steps|
    requires id in run[i].s.rows && run[i].s.rows[id].assignedNonce.Some?
    requires id in run[i + 1].s.rows && run[i + 1].s.rows[id].assignedNonce.None?
    ensures steps[i].Act? && steps[i].event.SaveRow?
    ensures HeldBelow(run[i].s.rows, run[i].s.rows[id].lane, run[i].s.rows[id].assignedNonce.value + 1)
    ensures
      var history, k := Att(run[i].s, id), steps[i].k;
      history != [] ==>
        && run[i].s.rows[id].rejectedAttempt == Some(Latest(history).hash)
        && (forall x :: 0 <= x < |history| ==>
              && ReadSince(steps, i, k, ReadReceipt(history[x].hash, NoReceipt))
              && ReadSince(steps, i, k, ReadTransaction(history[x].hash, NoTransaction)))
        && ReadSince(steps, i, k, ReadPendingNonce(run[i].s.rows[id].assignedNonce.value))
  {
    RunStep(run, steps, i);
    Always(run, steps, i);
    RowKeyed(run[i].s, id);
    assert forall x :: x in run[i].deliveries ==> DeliveryOk(run[i].s, run[i].deliveries[x]);
    hide IsRun, Enabled, Do, HeldBelow, ReadSince, Inv, LocksExclusive;
    ReleasingStep(run[i], steps[i], id);
    EvidenceIsTrue(run, steps, i, steps[i].k);
  }

  // ----- completion -----

  /** Some manager was shown this receipt before state i. */
  ghost predicate NodeShowed(steps: seq<Step>, i: nat, r: Receipt)
    requires i <= |steps|
  {
    exists m, k :: 0 <= m < i && steps[m] == Act(k, ShowsReceipt(r))
  }

  lemma CompletingStep(w: World, step: Step, id: Id)
    requires Enabled(w, step) && id in Do(w, step).s.rows && Do(w, step).s.rows[id].receipt.Some?
    requires id in w.s.rows ==> w.s.rows[id].receipt != Do(w, step).s.rows[id].receipt
    ensures step.Act? && step.k in w.holders && step.event.SaveRow? && step.event.row.id == id
    ensures Do(w, step).s.rows[id].receipt.value in w.holders[step.k].ev.receipts
  {
    hide WorldInv, Legal, Apply, Learn, UpdateNotification;
    if step.Act? {
      CompletingEvent(w.s, w.holders[step.k].lane, w.holders[step.k].ev, step.event, id);
    } else if step.Record? {
      RecordKeepsReceipt(w.s.rows, w.deliveries[step.d].tx, id);
    }
  }

  lemma CompletingEvent(s: State, lane: Lane, ev: Evidence, e: Event, id: Id)
    requires Legal(s, lane, ev, e) && id in Apply(s, lane, e).rows && Apply(s, lane, e).rows[id].receipt.Some?
    requires id in s.rows ==> s.rows[id].receipt != Apply(s, lane, e).rows[id].receipt
    ensures e.SaveRow? && e.row.id == id && Apply(s, lane, e).rows[id].receipt.value in ev.receipts
  {
    hide LegalAttempt, HeldBelow, PendingHonest, RejectionNamesLatest, ProvenUnadmitted, TxOwned;
  }

  lemma RecordKeepsReceipt(rows: map<Id, Transaction>, tx: Transaction, id: Id)
    requires id in UpdateNotification(rows, tx)
    ensures id in rows && UpdateNotification(rows, tx)[id].receipt == rows[id].receipt
  {
  }

  /** The step that completes a row with a receipt is a write whose holder read exactly that receipt since its
      last durable write. */
  lemma CompletionNeedsReceipt(run: seq<World>, steps: seq<Step>, i: nat, id: Id)
    requires IsRun(run, steps) && i < |steps| && id in run[i + 1].s.rows && run[i + 1].s.rows[id].receipt.Some?
    requires id in run[i].s.rows ==> run[i].s.rows[id].receipt != run[i + 1].s.rows[id].receipt
    ensures steps[i].Act? && steps[i].event.SaveRow? && steps[i].event.row.id == id
    ensures ReadSince(steps, i, steps[i].k, ShowsReceipt(run[i + 1].s.rows[id].receipt.value))
  {
    hide Enabled, Do, ReadSince;
    RunStep(run, steps, i);
    CompletingStep(run[i], steps[i], id);
    EvidenceIsTrue(run, steps, i, steps[i].k);
  }

  lemma {:induction false} ReceiptWasShown(run: seq<World>, steps: seq<Step>, i: nat, id: Id)
    requires IsRun(run, steps) && i < |run| && id in run[i].s.rows
    ensures run[i].s.rows[id].receipt.Some? ==> NodeShowed(steps, i, run[i].s.rows[id].receipt.value)
  {
    hide Enabled, Do, ShowsReceipt, EndsEvidence;
    if i > 0 && run[i].s.rows[id].receipt.Some? {
      var r := run[i].s.rows[id].receipt.value;
      if id in run[i - 1].s.rows && run[i - 1].s.rows[id].receipt == Some(r) {
        ReceiptWasShown(run, steps, i - 1, id);
        var m, k :| 0 <= m < i - 1 && steps[m] == Act(k, ShowsReceipt(r));
        assert steps[m] == Act(k, ShowsReceipt(r));
      } else {
        CompletionNeedsReceipt(run, steps, i - 1, id);
        var k := steps[i - 1].k;
        var m: nat :| SinceLastWrite(steps, i - 1, k, m) && steps[m] == Act(k, ShowsReceipt(r));
      }
    }
  }

  lemma SteadyStep(w: World, step: Step, k: nat, id: Id)
    requires WorldInv(w) && Enabled(w, step) && !EndsEvidence(step, k)
    requires k in Do(w, step).holders && id in Do(w, step).s.rows
    requires
      var r := Do(w, step).s.rows[id];
      r.lane == Do(w, step).holders[k].lane && !r.IsCompleted() && r.assignedNonce.Some?
    ensures k in w.holders && w.holders[k].lane == Do(w, step).holders[k].lane
    ensures id in w.s.rows && w.s.rows[id] == Do(w, step).s.rows[id]
  {
    hide Inv, DeliveriesOk, LegalAttempt, HeldBelow, PendingHonest, RejectionNamesLatest, ProvenUnadmitted, TxOwned,
      Learn;
    if step.Act? && step.event.SaveRow? {
      assert w.holders[step.k].lane == step.event.row.lane;
    }
  }

  /** Whatever a lock holder reads after its last write, it reads while the row already is what it is now:
      the evidence of a release is gathered after the rejection became durable. */
  lemma {:induction false} EvidenceReadAfterRejection(run: seq<World>, steps: seq<Step>, i: nat, m: nat, k: nat, id: Id)
    requires IsRun(run, steps) && i < |run| && SinceLastWrite(steps, i, k, m) && !EndsEvidence(steps[m], k)
    requires k in run[i].holders && id in run[i].s.rows && run[i].s.rows[id].lane == run[i].holders[k].lane
    requires !run[i].s.rows[id].IsCompleted() && run[i].s.rows[id].assignedNonce.Some?
    ensures id in run[m].s.rows && run[m].s.rows[id] == run[i].s.rows[id]
    decreases i
  {
    hide Enabled, Do, Init, WorldInv, EndsEvidence;
    RunStep(run, steps, i - 1);
    Always(run, steps, i - 1);
    SteadyStep(run[i - 1], steps[i - 1], k, id);
    if m < i - 1 {
      EvidenceReadAfterRejection(run, steps, i - 1, m, k, id);
    }
  }

  // ----- the outbox -----

  /** A terminal row with an intent is, in every state of every run, either selectable for notification
      within a minute, or acknowledged after a callback that really succeeded. */
  lemma OutboxAtLeastOnce(run: seq<World>, steps: seq<Step>, i: nat, id: Id)
    requires IsRun(run, steps) && i < |run| && id in run[i].s.rows
    requires run[i].s.rows[id].IsCompleted() && run[i].s.rows[id].HasIntent()
    ensures NotificationReady(run[i].s.rows[id], run[i].s.now + MAX_NOTIFICATION_BACKOFF) ||
      CalledBack(run, steps, i, id)
  {
    Always(run, steps, i);
    hide IsRun, OwnerOk, NoncesUnique, NoncesReported, SentDurable, KeysUnique, HistoryOk, LocksExclusive, CalledBack;
    assert RowOk(run[i].s, id);
    if id in run[i].s.acked {
      AckedMeansCalledBack(run, steps, i, id);
    }
  }

  ghost predicate CalledBack(run: seq<World>, steps: seq<Step>, i: nat, id: Id)
    requires |run| == |steps| + 1 && i < |run|
  {
    exists m :: 0 <= m < i && steps[m].CallBack? && steps[m].ok && steps[m].d in run[m].deliveries &&
        run[m].deliveries[steps[m].d].tx.id == id
  }

  lemma {:induction false} AckedMeansCalledBack(run: seq<World>, steps: seq<Step>, i: nat, id: Id)
    requires IsRun(run, steps) && i < |run| && id in run[i].s.acked
    ensures CalledBack(run, steps, i, id)
  {
    if i > 0 {
      RunStep(run, steps, i - 1);
      if id in run[i - 1].s.acked {
        AckedMeansCalledBack(run, steps, i - 1, id);
      } else {
        AckingStep(run[i - 1], steps[i - 1], id);
      }
    }
  }

  lemma AckingStep(w: World, step: Step, id: Id)
    requires Enabled(w, step) && id in Do(w, step).s.acked && id !in w.s.acked
    ensures step.CallBack? && step.ok && step.d in w.deliveries && w.deliveries[step.d].tx.id == id
  {
    hide Legal, Learn, UpdateNotification;
  }

  // ----- idempotent submission -----

  /** An operation key names one row over the whole run. */
  lemma OneRowPerOperationKey(run: seq<World>, steps: seq<Step>, i: nat, j: nat, a: Id, b: Id)
    requires IsRun(run, steps) && i <= j < |run| && a in run[i].s.rows && b in run[j].s.rows
    requires run[i].s.rows[a].operationKey.Some? && run[i].s.rows[a].operationKey == run[j].s.rows[b].operationKey
    ensures a == b
  {
    RowsEvolve(run, steps, i, j, a);
    Always(run, steps, j);
    hide IsRun, RowsOk, OwnerOk, NoncesUnique, NoncesReported, SentDurable;
  }
}
