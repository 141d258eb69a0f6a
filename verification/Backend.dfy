/**
 The manager's two boundaries while it holds a lane lock: the durable store and the node. Every node answer
 is arbitrary. A store write may be applied, not applied, or applied and reported as failed. After every
 action the other managers run for as long as they like (`Interfere`). Each action is recorded, and the record
 shows that it was legal in the state it happened in.
 */
module Backend {
  import opened TxTypes
  import opened Protocol
  import opened LaneView
  import opened Runs
  import opened MemStore
  import opened LaneWork
  import F = Fees

  datatype Entry = Entry(before: State, ev: Evidence, event: Event)

  /** The record of one lock holder: legal events of its own, moves of the others in between. */
  ghost predicate LogOk(log: seq<Entry>, lane: Lane, ev: Evidence, s: State) {
    log != [] ==>
      var e := log[|log| - 1];
      && Legal(e.before, lane, e.ev, e.event)
      && Learn(e.ev, e.event) == ev
      && Rely(lane, Apply(e.before, lane, e.event), s)
      && LogOk(log[..|log| - 1], lane, e.ev, e.before)
  }

  lemma LogStays(log: seq<Entry>, lane: Lane, ev: Evidence, s: State, t: State)
    requires LogOk(log, lane, ev, s) && Rely(lane, s, t)
    ensures LogOk(log, lane, ev, t)
  {
    if log != [] {
      var e := log[|log| - 1];
      RelyTransitive(lane, Apply(e.before, lane, e.event), s, t);
    }
  }

  lemma LogGrows(log: seq<Entry>, lane: Lane, ev: Evidence, s: State, e: Event)
    requires LogOk(log, lane, ev, s) && Legal(s, lane, ev, e)
    ensures LogOk(log + [Entry(s, ev, e)], lane, Learn(ev, e), Apply(s, lane, e))
  {
    var longer := log + [Entry(s, ev, e)];
    assert longer[..|longer| - 1] == log;
    RelyReflexive(lane, Apply(s, lane, e));
  }

  // ----- records and runs -----

  /** Manager k holds this lane in every state from a to b. */
  ghost predicate Holding(run: seq<World>, a: nat, b: nat, k: nat, lane: Lane) {
    a <= b < |run| && forall i :: a <= i <= b ==> k in run[i].holders && run[i].holders[k].lane == lane
  }

  /** What manager k did between states a and b. */
  ghost function OwnActs(run: seq<World>, steps: seq<Step>, a: nat, b: nat, k: nat, lane: Lane): seq<Entry>
    requires Holding(run, a, b, k, lane) && b <= |steps|
    decreases b
  {
    if a == b then []
    else
      var w, step, before := run[b - 1], steps[b - 1], OwnActs(run, steps, a, b - 1, k, lane);
      if step.Act? && step.k == k then before + [Entry(w.s, w.holders[k].ev, step.event)] else before
  }

  lemma OwnStep(w: World, k: nat, e: Event)
    requires Enabled(w, Act(k, e))
    ensures k in w.holders && Legal(w.s, w.holders[k].lane, w.holders[k].ev, e)
    ensures Do(w, Act(k, e)).s == Apply(w.s, w.holders[k].lane, e)
    ensures Do(w, Act(k, e)).holders[k].ev == Learn(w.holders[k].ev, e)
  {
    hide Legal, Apply, Learn;
  }

  lemma OtherStep(w: World, step: Step, k: nat)
    requires WorldInv(w) && Enabled(w, step) && k in w.holders && k in Do(w, step).holders &&
      !(step.Act? && step.k == k)
    ensures Do(w, step).holders[k] == w.holders[k] && Rely(w.holders[k].lane, w.s, Do(w, step).s)
  {
    hide WorldInv, Rely, Legal, Apply, Learn, UpdateNotification;
    OthersRely(w, step, k);
  }

  /** The record is adequate: in any run, from the moment a manager takes a lane and for as long as it holds it, its own
      acts, whatever the others do in between, form exactly such a record of legal events and moves of the others. */
  lemma {:induction false} RunIsRecorded(run: seq<World>, steps: seq<Step>, a: nat, b: nat, k: nat, lane: Lane)
    requires IsRun(run, steps) && Holding(run, a, b, k, lane) && b <= |steps|
    ensures LogOk(OwnActs(run, steps, a, b, k, lane), lane, run[b].holders[k].ev, run[b].s)
    decreases b
  {
    hide LogOk, WorldInv, Enabled, Do, Legal, Rely, IsRun;
    if a == b {
      NothingRecorded(lane, run[b].holders[k].ev, run[b].s);
    } else {
      RunIsRecorded(run, steps, a, b - 1, k, lane);
      RunStep(run, steps, b - 1);
      Always(run, steps, b - 1);
      var w, step, before := run[b - 1], steps[b - 1], OwnActs(run, steps, a, b - 1, k, lane);
      if step.Act? && step.k == k {
        OwnStep(w, k, step.event);
        LogGrows(before, lane, w.holders[k].ev, w.s, step.event);
      } else {
        OtherStep(w, step, k);
        LogStays(before, lane, w.holders[k].ev, w.s, run[b].s);
      }
    }
  }

  lemma NothingRecorded(lane: Lane, ev: Evidence, s: State)
    ensures LogOk([], lane, ev, s)
  {
  }

  // ----- what the outside said -----

  /** What the application's admission hook says about a row that is about to be attempted. */
  datatype Admission = Admit(retryAt: nat) | UnsignedExpired | AdmissionError

  /** Everything the node and the hook have said in the running step. Unlike evidence it outlives the step's writes,
      so that a contract can say what a write was the answer to. */
  datatype Told = Told(
    receipts: set<Receipt>,                  // good receipts shown
    asked: set<Hash>,                        // attempts whose receipt was asked for, since the last send
    askedBefore: set<Hash>,                  // the same before it
    receiptUnclear: bool,                    // an unclear receipt answer since the last send
    known: set<Hash>,                        // by-hash lookups: found,
    absent: set<Hash>,                       //   not found,
    lookupUnclear: bool,                     //   or unclear
    pending: Option<Nonce>,                  // the last answer about the pending nonce
    hook: Option<Admission>,
    hookAt: nat,                             // when the hook answered
    suggestion: Option<F.Suggestion>,        // the last fee suggestion
    sent: seq<(Hash, Disposition)>)          // what was sent, with the node's answers

  const SILENCE: Told := Told({}, {}, {}, false, {}, {}, false, None, None, 0, None, [])

  function HearReceipt(t: Told, h: Hash, a: ReceiptAnswer): Told {
    if GoodReceipt(h, a) then t.(asked := t.asked + {h}, receipts := t.receipts + {Receipt(h, a.status == 1)})
    else t.(asked := t.asked + {h}, receiptUnclear := t.receiptUnclear || !a.NoReceipt?)
  }

  function HearLookup(t: Told, h: Hash, a: LookupAnswer): Told {
    if a.FoundTransaction? && a.txHash == h then t.(known := t.known + {h})
    else if a.NoTransaction? then t.(absent := t.absent + {h})
    else t.(lookupUnclear := true)
  }

  function HearAnswer(t: Told, h: Hash, d: Disposition): Told {
    t.(sent := t.sent + [(h, d)], askedBefore := t.asked, asked := {}, receiptUnclear := false)
  }

  /** Nothing was sent, asked of the hook or suggested in between. */
  predicate NoNewTalk(t: Told, u: Told) {
    u == t.(receipts := u.receipts, asked := u.asked, receiptUnclear := u.receiptUnclear, known := u.known,
            absent := u.absent, lookupUnclear := u.lookupUnclear, pending := u.pending)
  }

  /** Lookups and pending nonces of an earlier question no longer count. */
  function AskAgain(t: Told): Told {
    t.(known := {}, absent := {}, lookupUnclear := false, pending := None)
  }

  datatype WriteResult = Saved | SaveStale | SaveFailed
  datatype InsertOutcome = Inserted | Conflict | InsertFailed

  /** The manager's copy of a row's attempts: the durable ones, possibly followed by a re-signed twin of the
      newest, which the store had already recorded. */
  ghost predicate LocalOk(attempts: seq<Attempt>, history: seq<Attempt>) {
    && history != [] && history <= attempts && |attempts| <= |history| + 1
    && Latest(attempts).hash == Latest(history).hash && Latest(attempts).nonce == Latest(history).nonce
    && (forall i :: 0 <= i < |attempts| ==> attempts[i].tx == attempts[i].hash)
  }

  lemma LocalOwns(attempts: seq<Attempt>, history: seq<Attempt>, h: Hash)
    requires LocalOk(attempts, history) && Owns(attempts, h)
    ensures Owns(history, h)
  {
    var i :| 0 <= i < |attempts| && attempts[i].hash == h;
    var j := if i < |history| then i else |history| - 1;
    assert history[j].hash == h;
  }

  /** When the newest attempt may go out: the row durably says that its broadcast is open, or the attempt
      budget is spent, and no rejection of it is on record. */
  ghost predicate MaySend(v: View, h: Hash) {
    && !v.row.IsCompleted() && v.history != [] && h == Latest(v.history).hash && v.row.rejectedAttempt.None?
    && (|v.history| >= MAX_FEE_REPLACEMENTS || v.row.broadcastPending || v.row.tx != Some(h))
  }

  /** Action n was the send of this envelope, made in this state, and action n + 1 the node's answer to it. */
  ghost predicate SentIn(log: seq<Entry>, n: nat, before: State, id: Id, h: Hash, d: Disposition) {
    && |log| >= n + 2 && log[n].before == before && log[n].event == Send(id, h)
    && log[n + 1].event == Answer(id, h, d)
  }

  /** A longer record tells the same about it. */
  lemma StillSentIn(log: seq<Entry>, longer: seq<Entry>, n: nat, before: State, id: Id, h: Hash, d: Disposition)
    requires SentIn(log, n, before, id, h, d) && log <= longer
    ensures SentIn(longer, n, before, id, h, d)
  {
  }

  /** The view after a write of row that may or may not have been applied. */
  ghost predicate AfterSave(v: View, w: View, row: Transaction) {
    && w.history == v.history && w.settled == v.settled && w.peers == v.peers
    && (row.assignedNonce == v.row.assignedNonce ==> w.held == v.held)
    && (row.assignedNonce.Some? && w.row == Seen(row) ==> w.held == v.held + {row.assignedNonce.value})
  }

  class Backend {
    const q: TransactionsQ
    var clock: nat
    ghost var sent: set<(Id, Hash)>
    ghost var settled: set<Hash>
    ghost var reported: set<(Lane, Nonce)>
    ghost var acked: set<Id>
    ghost var ev: Evidence
    ghost var rest: set<Id>          // rows of the running batch that are still to be processed
    ghost var log: seq<Entry>
    ghost var told: Told
    ghost var troubles: nat          // failed calls, cancellations and collisions that could not be resolved
    ghost var visited: seq<Id>       // rows whose step has begun

    constructor (store: TransactionsQ)
      ensures q == store && ev == NOTHING && rest == {} && log == []
      ensures sent == {} && settled == {} && reported == {} && acked == {}
      ensures told == SILENCE && troubles == 0 && visited == []
    {
      q, clock := store, 0;
      sent, settled, reported, acked := {}, {}, {}, {};
      ev, rest, log := NOTHING, {}, [];
      told, troubles, visited := SILENCE, 0, [];
    }

    ghost function S(): State
      reads this, q
    {
      State(q.txs, q.attempts, q.hashes, q.laneLocks, sent, settled, reported, acked, clock)
    }

    /** The lane is locked, the protocol invariant holds, and everything done so far was legal. */
    ghost predicate Ready(lane: Lane)
      reads this, q
    {
      && Inv(S()) && lane in q.laneLocks
      && LogOk(log, lane, ev, S())
      && (ev.pending.Some? ==> (lane, ev.pending.value) in reported)
      && AllWorking(S(), lane, rest)
    }

    /** The last own action was a durable write of this row, made after the first n recorded actions. */
    ghost predicate Wrote(id: Id, n: nat)
      reads this
    {
      |log| > n && log[|log| - 1].event.SaveRow? && log[|log| - 1].event.row.id == id
    }

    ghost predicate On(lane: Lane, id: Id)
      reads this, q
    {
      Ready(lane) && id in q.txs && q.txs[id].lane == lane && id !in rest
    }

    /** Still at work on the row, with the same batch to go and a record that only grew. */
    twostate predicate Kept(lane: Lane, id: Id)
      reads this, q
    {
      On(lane, id) && rest == old(rest) && OnlyGrew()
    }

    twostate predicate OnlyGrew()
      reads this
    {
      old(log) <= log && visited == old(visited) && old(clock) <= clock && old(troubles) <= troubles
    }

    /** Something outside the manager went wrong meanwhile. */
    twostate predicate Troubled()
      reads this
    {
      old(troubles) < troubles
    }

    ghost function V(lane: Lane, id: Id): View
      reads this, q
      requires On(lane, id)
    {
      ViewOf(S(), lane, rest, id)
    }

    /** Any number of steps of everybody else. The body does nothing; callers see only the contract. */
    method Interfere(ghost lane: Lane, ghost id: Id)
      requires On(lane, id)
      modifies this, q
      ensures On(lane, id) && V(lane, id) == old(V(lane, id))
      ensures Rely(lane, old(S()), S())
      ensures ev == old(ev) && rest == old(rest) && log == old(log)
      ensures told == old(told) && troubles == old(troubles) && visited == old(visited) && old(clock) <= clock
    {
      RelyReflexive(lane, S());
    }

    /** The same for a manager that holds the lane but is between two rows. */
    method InterfereLane(ghost lane: Lane)
      requires Ready(lane)
      modifies this, q
      ensures Ready(lane) && Rely(lane, old(S()), S())
      ensures Held(q.txs, lane) == old(Held(q.txs, lane)) && Peers(S(), rest) == old(Peers(S(), rest))
      ensures ev == old(ev) && rest == old(rest) && log == old(log)
      ensures told == old(told) && troubles == old(troubles) && visited == old(visited) && old(clock) <= clock
    {
      RelyReflexive(lane, S());
    }

    /** TryLockLane. A refused or failed acquisition leaves the lane to its holder. */
    method AcquireLane(lane: Lane) returns (locked: bool)
      requires Inv(S())
      modifies this, q
      ensures Inv(S())
      ensures locked ==> Ready(lane) && log == [] && ev == NOTHING && rest == {}
      ensures locked ==> lane !in old(q.laneLocks)
      ensures !locked && lane !in old(q.laneLocks) ==> Troubled()
      ensures visited == old(visited) && old(clock) <= clock && old(troubles) <= troubles
    {
      hide Inv;
      locked := false;
      var failed: bool := *;
      if failed {
        troubles := troubles + 1;
      } else {
        ghost var before := S();
        locked := q.TryLockLane(lane);
        GrowthKeepsInv(before, S());
        if locked {
          log, ev, rest := [], NOTHING, {};
        }
      }
    }

    method ReleaseLane(lane: Lane)
      requires Ready(lane)
      modifies q`laneLocks
      ensures Inv(S()) && S() == old(S()).(locks := old(S()).locks - {lane})
    {
      hide Inv, LogOk, AllWorking;
      ghost var before := S();
      q.Unlock(lane);
      GrowthKeepsInv(before, S());
    }

    /** The lane's durable high-water nonce; None is a failed read. */
    method MaxAssignedNonce(lane: Lane) returns (r: Option<(Nonce, bool)>)
      requires Ready(lane)
      modifies this, q
      ensures Ready(lane) && ev == old(ev) && rest == old(rest) && log == old(log) && OnlyGrew()
      ensures r.None? ==> Troubled()
      ensures r.Some? ==>
        var held := Held(q.txs, lane);
        if r.value.1 then r.value.0 in held && Top(held, r.value.0) else held == {}
    {
      hide Inv, LogOk, AllWorking, Peers;
      var ok: bool := *;
      r := None;
      if !ok {
        troubles := troubles + 1;
      } else {
        var max, found := q.MaxAssignedNonce(lane);
        HeldBounds(q.txs, lane, max);
        r := Some((max, found));
      }
      InterfereLane(lane);
    }

    /** The ready rows of the lane in lane-work order, which become the running batch; None is a failed read. */
    method SelectLaneBatch(lane: Lane, limit: nat) returns (r: Option<seq<Transaction>>)
      requires Ready(lane)
      modifies this, q
      ensures Ready(lane) && ev == old(ev) && log == old(log) && OnlyGrew()
      ensures r.None? ==> Troubled()
      ensures Held(q.txs, lane) == old(Held(q.txs, lane))
      ensures r.Some? ==> Selects(old(q.txs), lane, old(clock), limit, r.value) && Holds(r.value)
    {
      hide Inv, LogOk, Held, Rely, Selects;
      rest := {};
      r := None;
      var ok: bool := *;
      if !ok {
        troubles := troubles + 1;
      } else {
        RowsKeyed(S());
        var batch := SelectLaneWork(q.txs, lane, clock, limit);
        BatchFacts(S(), lane, clock, limit, batch);
        rest := set t | t in batch :: t.id;
        r := Some(batch);
      }
      InterfereLane(lane);
      if r.Some? {
        forall t | t in r.value ensures t.id in q.txs && q.txs[t.id] == t {
          assert t.id in rest && Peers(S(), rest)[t.id].0 == t;
        }
      }
    }

    /** The listed rows are the rest of the batch and the copies in hand are current. */
    ghost predicate Holds(batch: seq<Transaction>)
      reads this, q
    {
      && rest == (set t | t in batch :: t.id)
      && (forall t :: t in batch ==> t.id in q.txs && q.txs[t.id] == t)
      && (forall i, j :: 0 <= i < j < |batch| ==> batch[i].id != batch[j].id)
    }

    /** Record an event whose effect on the store, if any, has just been made. */
    ghost method Note(before: State, lane: Lane, e: Event)
      requires Inv(before) && LogOk(log, lane, ev, before) && Legal(before, lane, ev, e)
      requires S() == Apply(before, lane, e)
      modifies this`log, this`ev
      ensures S() == old(S()) && Inv(S()) && LogOk(log, lane, ev, S())
      ensures ev == Learn(old(ev), e) && log == old(log) + [Entry(before, old(ev), e)]
    {
      hide Inv, LogOk, Legal, Rely;
      LegalKeepsInv(before, lane, ev, e);
      LogGrows(log, lane, ev, before, e);
      log := log + [Entry(before, ev, e)];
      ev := Learn(ev, e);
    }

    /** Remember what was said, and whether something went wrong. */
    ghost method Hear(lane: Lane, id: Id, t: Told, trouble: bool)
      requires On(lane, id)
      modifies this`told, this`troubles
      ensures On(lane, id) && V(lane, id) == old(V(lane, id)) && S() == old(S())
      ensures told == t && troubles == old(troubles) + if trouble then 1 else 0
    {
      hide Inv, LogOk, AllWorking;
      told := t;
      if trouble {
        troubles := troubles + 1;
      }
    }

    ghost method Visit(lane: Lane, id: Id)
      requires On(lane, id)
      modifies this`visited
      ensures On(lane, id) && V(lane, id) == old(V(lane, id)) && S() == old(S()) && visited == old(visited) + [id]
    {
      hide Inv, LogOk, AllWorking;
      visited := visited + [id];
    }

    method Begin(ghost lane: Lane, ghost id: Id)
      requires On(lane, id)
      modifies this, q
      ensures Kept(lane, id) && V(lane, id) == old(V(lane, id))
      ensures ev == NOTHING && told == SILENCE
    {
      hide Inv, LogOk, Rely;
      Note(S(), lane, Event.Begin);
      Hear(lane, id, SILENCE, false);
      Interfere(lane, id);
    }

    method TransactionReceipt(ghost lane: Lane, ghost id: Id, h: Hash) returns (a: ReceiptAnswer)
      requires On(lane, id)
      modifies this, q
      ensures Kept(lane, id) && V(lane, id) == old(V(lane, id))
      ensures ev == Learn(old(ev), ReadReceipt(h, a)) && told == HearReceipt(old(told), h, a)
    {
      hide Inv, LogOk, Rely;
      a := *;
      Note(S(), lane, ReadReceipt(h, a));
      Hear(lane, id, HearReceipt(told, h, a), false);
      Interfere(lane, id);
    }

    method TransactionByHash(ghost lane: Lane, ghost id: Id, h: Hash) returns (a: LookupAnswer)
      requires On(lane, id)
      modifies this, q
      ensures Kept(lane, id) && V(lane, id) == old(V(lane, id))
      ensures ev == Learn(old(ev), ReadTransaction(h, a)) && told == HearLookup(old(told), h, a)
    {
      hide Inv, LogOk, Rely;
      a := *;
      Note(S(), lane, ReadTransaction(h, a));
      Hear(lane, id, HearLookup(told, h, a), false);
      Interfere(lane, id);
    }

    /** None is a failed call. */
    method PendingNonceAt(ghost lane: Lane, ghost id: Id) returns (n: Option<Nonce>)
      requires On(lane, id)
      modifies this, q
      ensures Kept(lane, id) && V(lane, id) == old(V(lane, id))
      ensures ev == if n.Some? then Learn(old(ev), ReadPendingNonce(n.value)) else old(ev)
      ensures told == old(told).(pending := n) && (n.None? ==> Troubled())
    {
      hide Inv, LogOk, AllWorking, Rely;
      var answered: bool := *;
      if answered {
        var nonce: Nonce := *;
        n := Some(nonce);
        ghost var before := S();
        reported := reported + {(lane, nonce)};
        Note(before, lane, ReadPendingNonce(nonce));
        StoreSame(before, S(), lane, rest, id);
      } else {
        n := None;
      }
      Hear(lane, id, told.(pending := n), n.None?);
      Interfere(lane, id);
    }

    /** The node's fee suggestion; None is a failed call. */
    method SuggestFees(ghost lane: Lane, ghost id: Id) returns (s: Option<F.Suggestion>)
      requires On(lane, id)
      modifies this`told, this`troubles
      ensures On(lane, id) && V(lane, id) == old(V(lane, id)) && S() == old(S())
      ensures told == old(told).(suggestion := s) && old(troubles) <= troubles && (s.None? ==> Troubled())
    {
      var ok: bool, answer: F.Suggestion := *, *;
      s := if ok then Some(answer) else None;
      Hear(lane, id, told.(suggestion := s), !ok);
    }

    /** The admission hook; anything but admission is trouble, except that expiry ends a row that may end. */
    method AskHook(ghost lane: Lane, ghost id: Id, ghost mayEnd: bool) returns (a: Admission)
      requires On(lane, id)
      modifies this`told, this`troubles
      ensures On(lane, id) && V(lane, id) == old(V(lane, id)) && S() == old(S())
      ensures told == old(told).(hook := Some(a), hookAt := clock)
      ensures Troubled() <==> !a.Admit? && !(a.UnsignedExpired? && mayEnd)
      ensures old(troubles) <= troubles
    {
      a := *;
      Hear(lane, id, told.(hook := Some(a), hookAt := clock), !a.Admit? && !(a.UnsignedExpired? && mayEnd));
    }

    /** A call whose answer does not matter here, such as signing or reloading, may fail. */
    method GoesThrough(ghost lane: Lane, ghost id: Id) returns (ok: bool)
      requires On(lane, id)
      modifies this`told, this`troubles
      ensures On(lane, id) && V(lane, id) == old(V(lane, id)) && S() == old(S())
      ensures told == old(told) && old(troubles) <= troubles && (!ok ==> Troubled())
    {
      ok := *;
      Hear(lane, id, told, !ok);
    }

    /** Shutdown may come at any moment. */
    method Cancelled(ghost lane: Lane, ghost batch: seq<Transaction>) returns (c: bool)
      modifies this`troubles
      ensures old(troubles) <= troubles && (c ==> Troubled())
      ensures S() == old(S()) && Ready(lane) == old(Ready(lane)) && Holds(batch) == old(Holds(batch))
      ensures forall id :: old(On(lane, id)) ==> On(lane, id) && V(lane, id) == old(V(lane, id))
      ensures rest == old(rest) && log == old(log) && visited == old(visited) && clock == old(clock)
    {
      hide Inv, LogOk, AllWorking;
      c := *;
      if c {
        troubles := troubles + 1;
      }
    }

    /** Hand the newest durable attempt to the node; the answer is already classified. */
    method SendTransaction(ghost lane: Lane, ghost id: Id, h: Hash) returns (d: Disposition)
      requires On(lane, id) && MaySend(V(lane, id), h)
      modifies this, q
      ensures Kept(lane, id)
      ensures V(lane, id) == old(V(lane, id)).(settled := d.Definite())
      ensures ev == old(ev).(inFlight := None)
      ensures SentIn(log, |old(log)|, old(S()), id, h, d) && told == HearAnswer(old(told), h, d)
    {
      hide Inv, LogOk, AllWorking, Held, Peers, Ready, Rely;
      IssueSend(lane, id, h);
      d := TakeAnswer(lane, id, h);
    }

    method IssueSend(ghost lane: Lane, ghost id: Id, ghost h: Hash)
      requires On(lane, id) && MaySend(V(lane, id), h)
      modifies this, q
      ensures Kept(lane, id)
      ensures V(lane, id) == old(V(lane, id)).(settled := false)
      ensures ev == old(ev).(inFlight := Some(h))
      ensures |log| == |old(log)| + 1 && log[|old(log)|].before == old(S()) && log[|old(log)|].event == Send(id, h)
      ensures told == old(told)
    {
      hide Inv, LogOk, AllWorking, Held, Peers, Rely;
      ghost var before := S();
      sent, settled := sent + {(id, h)}, settled - {h};
      Note(before, lane, Send(id, h));
      StoreSame(before, S(), lane, rest, id);
      Interfere(lane, id);
    }

    method TakeAnswer(ghost lane: Lane, ghost id: Id, ghost h: Hash) returns (d: Disposition)
      requires On(lane, id) && ev.inFlight == Some(h)
      requires V(lane, id).history != [] && h == Latest(V(lane, id).history).hash && !V(lane, id).settled &&
        !V(lane, id).row.IsCompleted()
      modifies this, q
      ensures Kept(lane, id)
      ensures V(lane, id) == old(V(lane, id)).(settled := d.Definite())
      ensures ev == old(ev).(inFlight := None)
      ensures |log| == |old(log)| + 1 && log[|old(log)|].event == Answer(id, h, d)
      ensures told == HearAnswer(old(told), h, d)
    {
      hide Inv, LogOk, AllWorking, Held, Peers, Rely;
      d := *;
      ghost var before := S();
      if d.Definite() {
        settled := settled + {h};
      }
      Note(before, lane, Answer(id, h, d));
      StoreSame(before, S(), lane, rest, id);
      Hear(lane, id, HearAnswer(told, h, d), false);
      Interfere(lane, id);
    }

    /** UpdateIfActive with its three outcomes. */
    method UpdateIfActive(ghost lane: Lane, row: Transaction) returns (r: WriteResult)
      requires On(lane, row.id) && CanSave(V(lane, row.id), ev, row) && DueAtOnce(row, clock)
      modifies this, q
      ensures Kept(lane, row.id)
      ensures r != SaveStale && AfterSave(old(V(lane, row.id)), V(lane, row.id), row)
      ensures r == Saved ==> V(lane, row.id).row == Seen(row) && ev == NOTHING && Wrote(row.id, |old(log)|)
      ensures r == SaveFailed ==> V(lane, row.id).row == Seen(row) || V(lane, row.id) == old(V(lane, row.id))
      ensures told == old(told) && (r == SaveFailed ==> Troubled())
    {
      hide Inv, LogOk, AllWorking, CanSave, Held, Peers, AfterSave, Ready, Rely;
      var applied: bool, reportedFailed: bool := *, *;
      if applied {
        var u := ApplyRow(lane, row);
        r := if reportedFailed then SaveFailed else if u.StaleTransaction? then SaveStale else Saved;
      } else {
        CanSaveShape(V(lane, row.id), ev, row);
        NotSaved(S(), lane, rest, row);
        r := SaveFailed;
      }
      Hear(lane, row.id, told, r == SaveFailed);
      Interfere(lane, row.id);
    }

    method ApplyRow(ghost lane: Lane, row: Transaction) returns (u: UpdateResult)
      requires On(lane, row.id) && CanSave(V(lane, row.id), ev, row) && DueAtOnce(row, clock)
      modifies this, q
      ensures Kept(lane, row.id)
      ensures u.Updated? && ev == NOTHING && Wrote(row.id, |old(log)|) && told == old(told)
      ensures AfterSave(old(V(lane, row.id)), V(lane, row.id), row) && V(lane, row.id).row == Seen(row)
    {
      hide Inv, LogOk, AllWorking, CanSave, Held, Peers;
      ghost var before := S();
      CanSaveIsLegal(before, lane, rest, ev, row);
      CanSaveShape(V(lane, row.id), ev, row);
      ViewRow(before, lane, rest, row.id);
      SaveChangesView(before, lane, rest, row);
      HeldMember(before, lane, row.id);
      u := q.UpdateIfActive(row);
      Note(before, lane, SaveRow(row));
    }

    /** InsertAttempt with its outcomes. A hash already recorded for this row changes nothing. */
    method InsertAttempt(ghost lane: Lane, ghost id: Id, a: Attempt) returns (r: InsertOutcome)
      requires On(lane, id) && CanSign(V(lane, id)) && SignedFor(V(lane, id), a) && a.createdAt == clock
      modifies this, q
      ensures Kept(lane, id)
      ensures
        var v, w := old(V(lane, id)), V(lane, id);
        && w.row == v.row && w.held == v.held && w.peers == v.peers
        && (w == v || w.history == v.history + [a])
        && (r == Inserted && w == v ==> Owns(v.history, a.hash))
        && (r == Conflict ==> w == v)
      ensures r == Conflict ==> a.hash in old(q.hashes) && old(q.hashes)[a.hash] != id
      ensures r == Conflict ==> ev == old(ev) && Rely(lane, old(S()), S())
      ensures told == old(told) && (r == InsertFailed ==> Troubled())
    {
      hide Inv, LogOk, AllWorking, CanSign, Held, Peers, Rely;
      var applied: bool, reportedFailed: bool := *, *;
      if !applied {
        r := InsertFailed;
      } else if a.hash in q.hashes {
        RecordedOwn(S(), lane, rest, id, a);
        var u := q.InsertAttempt(a);
        r := if u.HashConflict? then Conflict else if reportedFailed then InsertFailed else Inserted;
      } else {
        AddAttempt(lane, id, a);
        r := if reportedFailed then InsertFailed else Inserted;
      }
      Hear(lane, id, told, r == InsertFailed);
      Interfere(lane, id);
    }

    method AddAttempt(ghost lane: Lane, ghost id: Id, a: Attempt)
      requires On(lane, id) && CanSign(V(lane, id)) && SignedFor(V(lane, id), a) && a.createdAt == clock &&
        a.hash !in q.hashes
      modifies this, q
      ensures Kept(lane, id)
      ensures
        var v, w := old(V(lane, id)), V(lane, id);
        w.row == v.row && w.held == v.held && w.peers == v.peers && w.history == v.history + [a]
      ensures told == old(told)
    {
      hide Inv, LogOk, AllWorking, CanSign, Held, Peers;
      ghost var before := S();
      ViewId(before, lane, rest, id);
      CanAttemptIsLegal(before, lane, rest, ev, id, a);
      AttemptChangesView(before, lane, rest, id, a);
      var _ := q.InsertAttempt(a);
      Note(before, lane, SaveAttempt(a));
    }

    /** None is a failed read. */
    method SelectAttemptsByNonce(ghost lane: Lane, ghost id: Id, chain: ChainId, nonce: Nonce)
      returns (r: Option<seq<Attempt>>)
      requires On(lane, id) && lane.chain == chain
      modifies this, q
      ensures Kept(lane, id) && V(lane, id) == old(V(lane, id)) && ev == old(ev)
      ensures told == old(told) && (r.None? ==> Troubled())
      ensures Rely(lane, old(S()), S())
      ensures r.Some? ==> Lists(r.value, S(), lane, nonce)
    {
      hide Inv, LogOk, AllWorking, Held, Peers, Rely;
      var ok: bool := *;
      ghost var before := S();
      if ok {
        var attempts := q.SelectAttemptsByNonce(chain, nonce);
        assert forall o :: q.History(o) == Att(before, o);
        forall i | 0 <= i < |attempts|
          ensures attempts[i].hash == attempts[i].tx && attempts[i].tx.nonce == attempts[i].nonce {
          assert attempts[i] in attempts;
          var o :| o in q.txs && q.txs[o].lane.chain == chain && attempts[i] in q.History(o);
          StoredAttempts(before, o, attempts[i]);
        }
        forall h: Hash | h in before.owner && h.lane == lane && h.nonce == nonce
          ensures exists i :: 0 <= i < |attempts| && attempts[i].tx == h
        {
          var a := OwnerStores(before, h);
          assert a in attempts;
        }
        r := Some(attempts);
      } else {
        r := None;
      }
      Hear(lane, id, told, r.None?);
      Interfere(lane, id);
      if r.Some? {
        ListsStays(r.value, before, S(), lane, nonce);
      }
    }

    /** None is a failed read. */
    method SelectAttempts(ghost lane: Lane, id: Id) returns (r: Option<seq<Attempt>>)
      requires On(lane, id) && !V(lane, id).row.IsCompleted()
      modifies this, q
      ensures Kept(lane, id) && V(lane, id) == old(V(lane, id)) && ev == old(ev)
      ensures told == old(told) && (r.None? ==> Troubled())
      ensures r.Some? ==> r.value == V(lane, id).history
    {
      hide Inv, LogOk, AllWorking, Held, Peers, CanAdvance, OwnAttempt, Rely;
      var ok: bool := *;
      if ok {
        ViewFacts(S(), lane, rest, id);
        assert q.History(id) == Att(S(), id);
        var attempts := q.SelectAttempts(id);
        r := Some(attempts);
      } else {
        r := None;
      }
      Hear(lane, id, told, r.None?);
      Interfere(lane, id);
    }
  }

  lemma RowsKeyed(s: State)
    requires Inv(s)
    ensures forall id :: id in s.rows ==> s.rows[id].id == id
  {
    forall id | id in s.rows ensures s.rows[id].id == id {
      ViewId(s, s.rows[id].lane, {}, id);
    }
  }

  lemma BatchFacts(s: State, lane: Lane, now: nat, limit: nat, batch: seq<Transaction>)
    requires Selects(s.rows, lane, now, limit, batch)
    ensures forall t :: t in batch ==> t.id in s.rows && s.rows[t.id] == t && Working(s, lane, t.id)
    ensures forall i, j :: 0 <= i < j < |batch| ==> batch[i].id != batch[j].id
  {
    forall i, j | 0 <= i < j < |batch| ensures batch[i].id != batch[j].id {
      SelectedOnce(s.rows, lane, now, limit, batch, i, j);
    }
  }

  /** Every envelope recorded for the lane at a nonce is in the list. */
  ghost predicate Lists(attempts: seq<Attempt>, s: State, lane: Lane, nonce: Nonce) {
    && (forall i :: 0 <= i < |attempts| ==>
            attempts[i].hash == attempts[i].tx && attempts[i].tx.nonce == attempts[i].nonce)
    && forall h: Hash :: h in s.owner && h.lane == lane && h.nonce == nonce
         ==> exists i :: 0 <= i < |attempts| && attempts[i].tx == h
  }

  lemma ListsStays(attempts: seq<Attempt>, s: State, t: State, lane: Lane, nonce: Nonce)
    requires Lists(attempts, s, lane, nonce) && Rely(lane, s, t)
    ensures Lists(attempts, t, lane, nonce)
  {
  }

  lemma StoredAttempts(s: State, id: Id, a: Attempt)
    requires Inv(s) && id in s.rows && a in Att(s, id)
    ensures a.hash == a.tx && a.tx.nonce == a.nonce && a.tx.lane == s.rows[id].lane
  {
    hide OwnerOk, NoncesUnique, NoncesReported, SentDurable, KeysUnique;
    var i :| 0 <= i < |Att(s, id)| && Att(s, id)[i] == a;
    assert RowOk(s, id) && AttemptOk(s, s.rows[id], Att(s, id)[i]);
  }

  /** A recorded hash is an attempt stored under its owner, on the hash's own chain and nonce. */
  lemma OwnerStores(s: State, h: Hash) returns (a: Attempt)
    requires Inv(s) && h in s.owner
    ensures s.owner[h] in s.rows && a in Att(s, s.owner[h]) && a.hash == h && a.tx == h && a.nonce == h.nonce
    ensures s.rows[s.owner[h]].lane == h.lane
  {
    hide NoncesUnique, NoncesReported, SentDurable, KeysUnique, RowOk;
    var id := s.owner[h];
    var i :| 0 <= i < |Att(s, id)| && Att(s, id)[i].hash == h;
    a := Att(s, id)[i];
    StoredAttempts(s, id, a);
  }

  lemma StoreSame(s: State, t: State, lane: Lane, rest: set<Id>, id: Id)
    requires t.rows == s.rows && t.attempts == s.attempts && id in s.rows && AllWorking(s, lane, rest)
    ensures AllWorking(t, lane, rest)
    ensures ViewOf(t, lane, rest, id) == ViewOf(s, lane, rest, id).(settled := ViewOf(t, lane, rest, id).settled)
  {
    assert Peers(t, rest) == Peers(s, rest);
    forall o | o in rest ensures Working(t, lane, o) {
      assert Working(s, lane, o);
    }
  }

  lemma ViewRow(s: State, lane: Lane, rest: set<Id>, id: Id)
    requires id in s.rows
    ensures s.rows[id].lane == ViewOf(s, lane, rest, id).row.lane
    ensures s.rows[id].assignedNonce == ViewOf(s, lane, rest, id).row.assignedNonce
    ensures s.rows[id].IsCompleted() == ViewOf(s, lane, rest, id).row.IsCompleted()
  {
  }

  lemma ViewId(s: State, lane: Lane, rest: set<Id>, id: Id)
    requires Inv(s) && id in s.rows
    ensures ViewOf(s, lane, rest, id).row.id == id
  {
    assert RowOk(s, id);
  }

  lemma CanSaveShape(v: View, ev: Evidence, row: Transaction)
    requires CanSave(v, ev, row)
    ensures !v.row.IsCompleted() && SameIdentity(v.row, row)
    ensures row.assignedNonce.Some? && v.row.assignedNonce.Some? ==> row.assignedNonce == v.row.assignedNonce
  {
  }

  lemma NotSaved(s: State, lane: Lane, rest: set<Id>, row: Transaction)
    requires row.id in s.rows && s.rows[row.id].lane == lane
    ensures AfterSave(ViewOf(s, lane, rest, row.id), ViewOf(s, lane, rest, row.id), row)
  {
    HeldMember(s, lane, row.id);
  }

  lemma HeldMember(s: State, lane: Lane, id: Id)
    requires id in s.rows && s.rows[id].lane == lane
    ensures s.rows[id].assignedNonce.Some? ==> s.rows[id].assignedNonce.value in Held(s.rows, lane)
  {
    if s.rows[id].assignedNonce.Some? {
      assert HeldIn(s.rows, lane, id);
    }
  }

  lemma RecordedOwn(s: State, lane: Lane, rest: set<Id>, id: Id, a: Attempt)
    requires Inv(s) && id in s.rows && SignedFor(ViewOf(s, lane, rest, id), a) && a.hash in s.owner
    ensures a.txId == id
    ensures s.owner[a.hash] == id ==> Owns(ViewOf(s, lane, rest, id).history, a.hash)
  {
    ViewId(s, lane, rest, id);
  }
}
