/** The lane's in-memory nonce counter: evm/txmngr/txmngr.go, type nonceLane. */
module NonceCounter {
  import opened TxTypes
  import opened LaneView

  class NonceLane {
    var next: nat
    var known: bool

    /** The counter stands for the set of nonces the lane durably holds. */
    ghost predicate Tracks(held: set<Nonce>)
      reads this
    {
      if known then next > 0 && next - 1 in held && (forall n :: n in held ==> n < next) else held == {}
    }

    constructor (maxNonce: Nonce, found: bool, ghost held: set<Nonce>)
      requires if found then maxNonce in held && Top(held, maxNonce) else held == {}
      ensures Tracks(held)
    {
      known := found;
      next := if found then maxNonce + 1 else 0;
    }

    /** Record an assignment: the counter then stands for the enlarged set. */
    method Observe(nonce: Nonce, ghost held: set<Nonce>)
      requires Tracks(held)
      modifies this
      ensures Tracks(held + {nonce})
    {
      if !known || nonce + 1 > next {
        next, known := nonce + 1, true;
      }
    }

    /** The node's pending nonce is usable exactly when it is above every held nonce. */
    function Reserve(rpcNonce: Nonce): (r: Option<Nonce>)
      reads this
      ensures r.Some? ==> r.value == rpcNonce
      ensures forall held: set<Nonce> :: Tracks(held) ==> (r.Some? <==> Above(held, rpcNonce))
    {
      if known && rpcNonce < next then None else Some(rpcNonce)
    }

    /** A held nonce is the tip exactly when it is the maximum of the held nonces. */
    predicate IsTip(nonce: Nonce)
      reads this
      ensures forall held: set<Nonce> :: Tracks(held) && nonce in held ==> (IsTip(nonce) <==> Top(held, nonce))
    {
      known && next == nonce + 1
    }
  }
}
