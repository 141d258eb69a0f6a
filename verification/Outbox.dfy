/**
 The two ends of a transaction's life outside the lane lock: SendTxAsync, which stores a row, and the delivery of
 its terminal status. Both run beside every other manager instance.
 */
module Outbox {
  import opened TxTypes
  import opened Protocol
  import opened Runs
  import opened MemStore
  import opened Backend

  datatype SendResult = Sent(id: Id) | UnsupportedChain | KeyConflict

  /** The row SendTxAsync builds; a freshly made id and the payload's hash come from outside. */
  function NewRow(id: Id, lane: Lane, payload: Payload, payloadHash: string, key: Option<string>,
                  intent: Option<string>, now: nat): (r: Transaction)
    ensures Fresh(r) && r.id == id && r.lane == lane && r.payload == payload
    ensures r.operationKey == (if key == Some("") then None else key) && r.payloadHash == Some(payloadHash)
    ensures r.intent == intent && r.nextActionAt == r.nextNotificationAt == r.createdAt == now
    ensures r.notificationAttempts == 0
  {
    var operationKey := if key == Some("") then None else key;
    Transaction(id, intent, operationKey, Some(payloadHash), lane, payload, None, None, None, Pending,
                now, false, None, None, None, 0, now, now, now)
  }

  /** The row carries the operation key of a request; an empty key is no key. */
  predicate Names(key: Option<string>, row: Transaction) {
    key.Some? && key != Some("") && row.operationKey == key
  }

  /** What a request learns from the row that already carries its key. */
  function Replay(row: Transaction, payloadHash: string): SendResult {
    if row.payloadHash == Some(payloadHash) then Sent(row.id) else KeyConflict
  }

  class Client {
    const b: Backend
    const sender: Address
    const clients: set<ChainId>

    constructor (backend: Backend, account: Address, chains: set<ChainId>)
      ensures b == backend && sender == account && clients == chains
    {
      b, sender, clients := backend, account, chains;
    }

    /** Store the request, or find the row that already carries its operation key. A key names one row: a second
        request under it returns that row's id, or a conflict when it asks for something else, and stores nothing. */
    method SendTxAsync(id: Id, chain: ChainId, payload: Payload, payloadHash: string, key: Option<string>,
                       intent: Option<string>)
      returns (r: SendResult)
      requires Inv(b.S()) && id !in b.q.txs
      modifies b.q
      ensures Inv(b.S())
      ensures r == UnsupportedChain <==> chain !in clients
      ensures r == Sent(id) || b.S() == old(b.S())
      ensures r == Sent(id) ==>
        && b.q.txs.Keys == old(b.q.txs.Keys) + {id} && Fresh(b.q.txs[id]) && b.q.txs[id].payload == payload
        && b.q.txs[id].id == id && b.q.txs[id].lane == Lane(sender, chain) && b.q.txs[id].intent == intent
        && b.q.txs[id].nextActionAt == b.q.txs[id].createdAt == old(b.clock) && b.q.txs[id].notificationAttempts == 0
        && b.q.txs[id].payloadHash == Some(payloadHash) && (key.Some? && key != Some("") ==> Names(key, b.q.txs[id]))
      ensures r == Sent(id) ==> forall o :: o in old(b.q.txs) ==> b.q.txs[o] == old(b.q.txs)[o]
      ensures chain in clients && (forall o :: o in old(b.q.txs) ==> !Names(key, old(b.q.txs)[o])) ==> r == Sent(id)
      ensures chain in clients ==> forall o :: o in old(b.q.txs) && Names(key, old(b.q.txs)[o]) ==>
        r == Replay(old(b.q.txs)[o], payloadHash)
    {
      hide RowsOk, OwnerOk, NoncesUnique, NoncesReported, SentDurable;
      if chain !in clients {
        return UnsupportedChain;
      }
      ghost var before := b.S();
      var row := NewRow(id, Lane(sender, chain), payload, payloadHash, key, intent, b.clock);
      var stored := b.q.InsertOrGet(row);
      RowsKeyed(before);
      match stored
      case Stored(t) =>
        SubmitKeepsInv(before, row);
        r := Sent(t.id);
      case Existing(t) => r := Sent(t.id);
      case IdempotencyConflict => r := KeyConflict;
    }

    /** Any number of steps of everybody else while a callback runs. The body does nothing; callers see only the
        contract, which `Runs.StepKeepsWorld` and `Runs.StepEvolvesRow` give for every step. */
    method Interfere(ghost tx: Transaction)
      requires Inv(b.S()) && DeliveryOk(b.S(), Loaded(tx))
      modifies b, b.q
      ensures Inv(b.S()) && DeliveryOk(b.S(), Loaded(tx))
      ensures Evolves(old(b.q.txs)[tx.id], b.q.txs[tx.id]) && old(b.acked) <= b.acked && old(b.clock) <= b.clock
    {
    }

    /** One delivery, given whether the callback succeeds, the manager is shut down meanwhile, and the write fails. The
        acknowledgement is written exactly after a callback that succeeded, and a failed callback defers the row by its
        backoff. A cancelled delivery or a failed write records nothing. */
    method DeliverStatusNotification(tx: Transaction, ok: bool, cancelled: bool, writeFails: bool)
      returns (recorded: bool)
      requires Inv(b.S()) && tx.id in b.q.txs && b.q.txs[tx.id] == tx && NotificationReady(tx, b.clock)
      modifies b, b.q
      ensures Inv(b.S()) && tx.id in b.q.txs
      ensures b.q.txs[tx.id].Core() == tx.Core() && old(b.acked) <= b.acked
      ensures recorded <==> !cancelled && !writeFails
      ensures ok ==> tx.id in b.acked
      ensures recorded && ok ==> b.q.txs[tx.id].notifiedAt.Some?
      ensures b.q.txs[tx.id].notifiedAt.Some? ==> tx.id in b.acked
      ensures recorded && !ok && b.q.txs[tx.id].notifiedAt.None? ==>
        && b.q.txs[tx.id].notificationAttempts == tx.notificationAttempts + 1
        && b.q.txs[tx.id].nextNotificationAt == b.clock + NotificationBackoff(tx.notificationAttempts + 1)
    {
      hide Inv, SameIdentity;
      ghost var before := b.S();
      if ok {
        b.acked := b.acked + {tx.id};
      }
      GrowthKeepsInv(before, b.S());
      Interfere(tx);
      AcknowledgedTruly(b.S(), tx.id);
      recorded := !cancelled && !writeFails;
      if !recorded {
        return;
      }
      var row := AfterCallback(tx, ok, b.clock);
      before := b.S();
      RecordKeepsInv(before, Called(row));
      var _ := b.q.UpdateNotification(row);
      AcknowledgedTruly(b.S(), tx.id);
    }
  }

  lemma AcknowledgedTruly(s: State, id: Id)
    requires Inv(s) && id in s.rows && s.rows[id].IsCompleted() && s.rows[id].HasIntent()
    ensures s.rows[id].notifiedAt.Some? ==> id in s.acked
  {
    assert RowOk(s, id);
  }
}
