/** A fresh service: an empty store, its two ends and a manager over it. */
module Startup {
  import opened TxTypes
  import opened Protocol
  import opened MemStore
  import opened Backend
  import opened Manager
  import Outbox

  lemma NothingYet(s: State)
    requires s.rows == map[] && s.attempts == map[] && s.owner == map[] && s.sent == {}
    ensures Inv(s)
  {
  }

  /** New over an empty store: the protocol invariant holds from the start. */
  method Start(account: Address, chains: set<ChainId>, blocks: map<ChainId, nat>, bumps: map<ChainId, nat>,
               admission: bool)
    returns (m: TxManager, c: Outbox.Client)
    ensures fresh(m) && fresh(c) && fresh(m.b) && fresh(m.b.q) && c.b == m.b
    ensures Inv(m.b.S()) && m.b.q.txs == map[] && m.b.q.laneLocks == {}
    ensures m.sender == c.sender == account && m.clients == c.clients == chains && m.hasAdmission == admission
  {
    var q := new TransactionsQ();
    var b := new Backend(q);
    m := new TxManager(b, account, chains, blocks, bumps, admission);
    c := new Outbox.Client(b, account, chains);
    NothingYet(b.S());
  }

  /** Submit to a fresh service, then run one batch: every precondition on the way is met. */
  method SubmitAndProcess(account: Address, chain: ChainId, id: Id, payload: Payload, payloadHash: string,
                          intent: Option<string>)
    returns (m: TxManager, sent: Outbox.SendResult)
    ensures fresh(m) && fresh(m.b) && Inv(m.b.S()) && sent == Outbox.Sent(id)
  {
    var c;
    m, c := Start(account, {chain}, map[], map[], false);
    sent := c.SendTxAsync(id, chain, payload, payloadHash, None, intent);
    var _, _, _, _, _, _ := m.ProcessLaneBatch(chain);
  }
}
