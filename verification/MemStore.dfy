/** The in-memory provider, evm/txmngr/txmngr_provider/mem/tx.go. Each method is one critical section. */
module MemStore {
  import opened TxTypes
  import opened Protocol
  import Runs

  datatype InsertResult = Stored(tx: Transaction) | Existing(tx: Transaction) | IdempotencyConflict
  datatype AttemptResult = AttemptStored | HashConflict(owner: Id)
  datatype UpdateResult = Updated | StaleTransaction

  predicate SameKey(a: Transaction, b: Transaction) {
    a.operationKey.Some? && a.operationKey == b.operationKey
  }

  predicate SamePayload(a: Transaction, b: Transaction) {
    a.payloadHash.Some? && a.payloadHash == b.payloadHash
  }

  // ----- SelectAttempts sorts stably by creation time -----

  predicate TimeOrdered(s: seq<Attempt>) {
    forall i :: 0 < i < |s| ==> s[i - 1].createdAt <= s[i].createdAt
  }

  /** Place a after every element that is not later than it. */
  function Insert(s: seq<Attempt>, a: Attempt): seq<Attempt> {
    if s == [] || s[|s| - 1].createdAt <= a.createdAt then s + [a]
    else Insert(s[..|s| - 1], a) + [s[|s| - 1]]
  }

  function StableSort(s: seq<Attempt>): seq<Attempt> {
    if s == [] then [] else Insert(StableSort(s[..|s| - 1]), s[|s| - 1])
  }

  lemma {:induction false} InsertKeepsElements(s: seq<Attempt>, a: Attempt)
    ensures multiset(Insert(s, a)) == multiset(s + [a])
  {
    if s != [] && a.createdAt < s[|s| - 1].createdAt {
      var front, last := s[..|s| - 1], s[|s| - 1];
      InsertKeepsElements(front, a);
      assert s == front + [last];
    }
  }

  lemma {:induction false} InsertKeepsOrder(s: seq<Attempt>, a: Attempt)
    requires TimeOrdered(s)
    ensures |Insert(s, a)| == |s| + 1 && TimeOrdered(Insert(s, a))
    ensures Insert(s, a)[|s|] == a || (s != [] && Insert(s, a)[|s|] == s[|s| - 1])
  {
    if s != [] && a.createdAt < s[|s| - 1].createdAt {
      var front := s[..|s| - 1];
      InsertKeepsOrder(front, a);
      assert front != [] ==> front[|front| - 1].createdAt <= s[|s| - 1].createdAt;
    }
  }

  lemma {:induction false} SortIsPermutation(s: seq<Attempt>)
    ensures multiset(StableSort(s)) == multiset(s)
  {
    hide Insert;
    if s != [] {
      var front, last := s[..|s| - 1], s[|s| - 1];
      SortIsPermutation(front);
      InsertKeepsElements(StableSort(front), last);
      assert s == front + [last];
    }
  }

  lemma {:induction false} SortIsOrdered(s: seq<Attempt>)
    ensures TimeOrdered(StableSort(s))
  {
    hide TimeOrdered, Insert;
    EmptyIsOrdered();
    if s != [] {
      SortIsOrdered(s[..|s| - 1]);
      InsertKeepsOrder(StableSort(s[..|s| - 1]), s[|s| - 1]);
    }
  }

  lemma EmptyIsOrdered()
    ensures TimeOrdered([])
  {
  }

  /** Attempts are stored in creation order, so the newest attempt is the one stored last. */
  lemma {:induction false} SortKeepsOrdered(s: seq<Attempt>)
    requires TimeOrdered(s)
    ensures StableSort(s) == s
  {
    if s != [] {
      var front := s[..|s| - 1];
      SortKeepsOrdered(front);
      assert s == front + [s[|s| - 1]];
      assert front != [] ==> front[|front| - 1] == s[|s| - 2];
    }
  }

  function WithNonce(s: seq<Attempt>, nonce: Nonce): (r: seq<Attempt>)
    ensures forall a :: a in r <==> a in s && a.nonce == nonce
  {
    if s == [] then [] else (if s[0].nonce == nonce then [s[0]] else []) + WithNonce(s[1..], nonce)
  }

  /** The filter keeps each attempt at the nonce as often as it was there. */
  lemma {:induction false} FilterCounts(s: seq<Attempt>, nonce: Nonce)
    ensures forall a :: multiset(WithNonce(s, nonce))[a] == if a.nonce == nonce then multiset(s)[a] else 0
  {
    if s != [] {
      FilterCounts(s[1..], nonce);
      assert s == [s[0]] + s[1..];
    }
  }

  lemma SameMembers(s: seq<Attempt>, r: seq<Attempt>)
    requires multiset(r) == multiset(s)
    ensures forall a :: a in r <==> a in s
  {
    assert forall a :: (a in r <==> a in multiset(r)) && (a in s <==> a in multiset(s));
  }

  class TransactionsQ {
    var txs: map<Id, Transaction>
    var attempts: map<Id, seq<Attempt>>
    var hashes: map<Hash, Id>
    var laneLocks: set<Lane>

    constructor ()
      ensures txs == map[] && attempts == map[] && hashes == map[] && laneLocks == {}
    {
      txs, attempts, hashes, laneLocks := map[], map[], map[], {};
    }

    ghost function History(id: Id): seq<Attempt>
      reads this
    {
      if id in attempts then attempts[id] else []
    }

    /** An operation key in use yields the stored row, or a conflict for a different payload; any other
        row is stored. */
    method InsertOrGet(tx: Transaction) returns (r: InsertResult)
      modifies this`txs
      ensures r == Stored(tx) || txs == old(txs)
      ensures r == Stored(tx) ==>
        txs == old(txs)[tx.id := tx] && forall id :: id in old(txs) ==> !SameKey(old(txs)[id], tx)
      ensures r != Stored(tx) ==>
        exists id :: id in txs && SameKey(txs[id], tx) &&
          r == (if SamePayload(txs[id], tx) then Existing(txs[id]) else IdempotencyConflict)
      ensures tx.id !in old(txs) ==>
        (r == Stored(tx) <==> forall id :: id in old(txs) ==> !SameKey(old(txs)[id], tx))
    {
      if tx.operationKey.Some? {
        var remaining := txs.Keys;
        while remaining != {}
          invariant remaining <= txs.Keys
          invariant forall id :: id in txs.Keys - remaining ==> !SameKey(txs[id], tx)
          decreases |remaining|
        {
          var id :| id in remaining;
          if SameKey(txs[id], tx) {
            return if SamePayload(txs[id], tx) then Existing(txs[id]) else IdempotencyConflict;
          }
          remaining := remaining - {id};
        }
      }
      txs := txs[tx.id := tx];
      return Stored(tx);
    }

    /** A hash is recorded once, for one row; recording it again for that row changes nothing. */
    method InsertAttempt(attempt: Attempt) returns (r: AttemptResult)
      modifies this`attempts, this`hashes
      ensures attempt.hash in old(hashes) ==> attempts == old(attempts) && hashes == old(hashes)
      ensures attempt.hash in old(hashes) ==>
        r == (if old(hashes)[attempt.hash] == attempt.txId then AttemptStored
              else HashConflict(old(hashes)[attempt.hash]))
      ensures attempt.hash !in old(hashes) ==>
        && r == AttemptStored
        && attempts == old(attempts)[attempt.txId := old(History(attempt.txId)) + [attempt]]
        && hashes == old(hashes)[attempt.hash := attempt.txId]
    {
      if attempt.hash in hashes {
        if hashes[attempt.hash] != attempt.txId {
          return HashConflict(hashes[attempt.hash]);
        }
        return AttemptStored;
      }
      hashes := hashes[attempt.hash := attempt.txId];
      var before := if attempt.txId in attempts then attempts[attempt.txId] else [];
      attempts := attempts[attempt.txId := before + [attempt]];
      return AttemptStored;
    }

    method UpdateIfActive(tx: Transaction) returns (r: UpdateResult)
      modifies this`txs
      ensures r.Updated? <==> tx.id in old(txs) && !old(txs)[tx.id].IsCompleted()
      ensures txs == if r.Updated? then old(txs)[tx.id := tx] else old(txs)
    {
      if tx.id !in txs || txs[tx.id].IsCompleted() {
        return StaleTransaction;
      }
      txs := txs[tx.id := tx];
      return Updated;
    }

    /** Delivery bookkeeping reaches only an unacknowledged terminal row, and only its four delivery fields. */
    method UpdateNotification(tx: Transaction) returns (r: UpdateResult)
      modifies this`txs
      ensures txs == Runs.UpdateNotification(old(txs), tx)
      ensures r.Updated? <==> tx.id in old(txs) && old(txs)[tx.id].IsCompleted() && old(txs)[tx.id].notifiedAt.None?
    {
      if tx.id !in txs || !txs[tx.id].IsCompleted() || txs[tx.id].notifiedAt.Some? {
        return StaleTransaction;
      }
      var current := txs[tx.id].(
        notifiedAt := tx.notifiedAt, notificationAttempts := tx.notificationAttempts,
        nextNotificationAt := tx.nextNotificationAt, updatedAt := tx.updatedAt);
      txs := txs[tx.id := current];
      return Updated;
    }

    method SelectAttempts(id: Id) returns (r: seq<Attempt>)
      ensures multiset(r) == multiset(History(id)) && TimeOrdered(r)
      ensures TimeOrdered(History(id)) ==> r == History(id)
    {
      var stored := if id in attempts then attempts[id] else [];
      r := StableSort(stored);
      SortIsPermutation(stored);
      SortIsOrdered(stored);
      if TimeOrdered(stored) {
        SortKeepsOrdered(stored);
      }
    }

    /** Every attempt is stored under the row it names, as InsertAttempt does. */
    ghost predicate Filed()
      reads this
    {
      forall id, i :: id in attempts && 0 <= i < |attempts[id]| ==> attempts[id][i].txId == id
    }

    /** How often an attempt at the nonce is on record for the chain. */
    ghost function Recorded(a: Attempt, chain: ChainId, nonce: Nonce): nat
      reads this
    {
      if a.nonce == nonce && a.txId in txs && txs[a.txId].lane.chain == chain then multiset(History(a.txId))[a] else 0
    }

    ghost predicate OnChain(a: Attempt, chain: ChainId)
      reads this
    {
      exists id :: id in txs && txs[id].lane.chain == chain && a in History(id)
    }

    /** The attempts recorded at a nonce of a chain, whichever row owns them, each as often as it is on record, in
        creation order. */
    method SelectAttemptsByNonce(chain: ChainId, nonce: Nonce) returns (r: seq<Attempt>)
      ensures TimeOrdered(r)
      ensures Filed() ==> forall a :: multiset(r)[a] == Recorded(a, chain, nonce)
      ensures forall a :: a in r <==> OnChain(a, chain) && a.nonce == nonce
    {
      hide OnChain, Recorded, Filed, TimeOrdered, StableSort;
      var found := CollectByNonce(chain, nonce);
      r := StableSort(found);
      SortIsPermutation(found);
      SortIsOrdered(found);
      SameMembers(found, r);
    }

    /** The loop over the stored attempts. */
    method CollectByNonce(chain: ChainId, nonce: Nonce) returns (r: seq<Attempt>)
      ensures Filed() ==> forall a :: multiset(r)[a] == Recorded(a, chain, nonce)
      ensures forall a :: a in r <==> OnChain(a, chain) && a.nonce == nonce
    {
      r := [];
      var remaining := attempts.Keys;
      while remaining != {}
        invariant remaining <= attempts.Keys
        invariant Filed() ==> forall a :: multiset(r)[a] == if a.txId in remaining then 0 else Recorded(a, chain, nonce)
        invariant forall a :: a in r ==> a.nonce == nonce && OnChain(a, chain)
        invariant forall id, a ::
          id !in remaining && id in txs && txs[id].lane.chain == chain && a in History(id) && a.nonce == nonce ==>
              a in r
        decreases |remaining|
      {
        var id :| id in remaining;
        FilterCounts(attempts[id], nonce);
        FiledUnder(id);
        remaining := remaining - {id};
        if id in txs && txs[id].lane.chain == chain {
          assert attempts[id] == History(id);
          r := r + WithNonce(attempts[id], nonce);
        }
      }
    }

    lemma FiledUnder(id: Id)
      requires id in attempts
      ensures Filed() ==> forall a: Attempt :: a.txId != id ==> multiset(attempts[id])[a] == 0
    {
      if Filed() {
        forall a: Attempt | a.txId != id ensures a !in attempts[id] {
        }
      }
    }

    /** The highest nonce the lane holds, over active and terminal rows alike. */
    method MaxAssignedNonce(lane: Lane) returns (max: Nonce, found: bool)
      ensures found <==> exists id :: HeldIn(txs, lane, id)
      ensures found ==> exists id :: HeldIn(txs, lane, id) && txs[id].assignedNonce.value == max
      ensures found ==> HeldBelow(txs, lane, max + 1)
    {
      max, found := 0, false;
      var remaining := txs.Keys;
      while remaining != {}
        invariant remaining <= txs.Keys
        invariant found ==> exists id :: HeldIn(txs, lane, id) && txs[id].assignedNonce.value == max
        invariant forall id :: HeldIn(txs, lane, id) && id !in remaining ==> found && txs[id].assignedNonce.value <= max
        decreases |remaining|
      {
        var id :| id in remaining;
        remaining := remaining - {id};
        if txs[id].lane == lane && txs[id].assignedNonce.Some? {
          assert HeldIn(txs, lane, id);
          if !found || txs[id].assignedNonce.value > max {
            max, found := txs[id].assignedNonce.value, true;
          }
        }
      }
    }

    method TryLockLane(lane: Lane) returns (locked: bool)
      modifies this`laneLocks
      ensures locked <==> lane !in old(laneLocks)
      ensures laneLocks == old(laneLocks) + {lane}
    {
      if lane in laneLocks {
        return false;
      }
      laneLocks := laneLocks + {lane};
      return true;
    }

    method Unlock(lane: Lane)
      modifies this`laneLocks
      ensures laneLocks == old(laneLocks) - {lane}
    {
      laneLocks := laneLocks - {lane};
    }
  }
}
