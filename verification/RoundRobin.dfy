/** The rotation that shares the chain workers out: nextWorkChainIDs of evm/txmngr/txmngr.go. */
module RoundRobin {
  import opened TxTypes

  predicate Ascending(s: seq<ChainId>) {
    forall i, j :: 0 <= i < j < |s| ==> s[i] < s[j]
  }

  predicate Distinct(s: seq<ChainId>) {
    forall i, j :: 0 <= i < j < |s| ==> s[i] != s[j]
  }

  function Min(a: int, b: int): int {
    if a < b then a else b
  }

  /** The position an ever-growing index has come to on a wheel of n places. */
  function Slot(i: nat, n: nat): (r: nat)
    requires n > 0
    ensures r < n
  {
    i % n
  }

  /** `count` steps of one endless rotation over the chains. */
  function Rotation(chains: seq<ChainId>, start: nat, count: nat): (r: seq<ChainId>)
    requires chains != []
    ensures |r| == count && forall i :: 0 <= i < count ==> r[i] == chains[Slot(start + i, |chains|)]
  {
    seq(count, i requires 0 <= i => chains[Slot(start + i, |chains|)])
  }

  /** How many chains a call with this limit takes. */
  function Share(n: nat, limit: int): (r: nat)
    ensures r == n <==> n <= limit || n == 0
    ensures r <= n
  {
    if n == 0 || limit <= 0 then 0 else Min(limit, n)
  }

  class Scheduler {
    const chains: seq<ChainId>      // the keys of the client map, sorted
    var nextChainIndex: nat

    constructor (ids: seq<ChainId>)
      requires Ascending(ids)
      ensures chains == ids && nextChainIndex == 0
    {
      chains, nextChainIndex := ids, 0;
    }

    method NextWorkChainIds(limit: int) returns (selected: seq<ChainId>)
      requires Ascending(chains)
      modifies this
      ensures |selected| == Share(|chains|, limit) && Distinct(selected)
      ensures chains == [] ==> nextChainIndex == old(nextChainIndex)
      ensures chains != [] ==> selected == Rotation(chains, old(nextChainIndex), |selected|)
      ensures chains != [] ==> Slot(nextChainIndex, |chains|) == Slot(old(nextChainIndex) + |selected|, |chains|)
    {
      if |chains| == 0 || limit <= 0 {
        return [];
      }
      hide Slot;
      var n, count := |chains|, Min(limit, |chains|);
      var start := Slot(nextChainIndex, n);
      SlotOfSlot(nextChainIndex, n);
      selected := [];
      for offset := 0 to count
        invariant selected == Rotation(chains, start, offset)
      {
        selected := selected + [chains[Slot(start + offset, n)]];
      }
      SlotOfSlot(start + count, n);
      Congruent(nextChainIndex, start, count, n);
      SameRotation(chains, nextChainIndex, start, count);
      RotationDistinct(chains, start, count);
      nextChainIndex := Slot(start + count, n);
    }

    /** Consecutive ticks, each with its own limit: together they serve what `Served` says. */
    method Ticks(limits: seq<int>) returns (all: seq<ChainId>)
      requires Ascending(chains) && chains != []
      modifies this
      ensures all == Served(chains, old(nextChainIndex), limits)
      decreases |limits|
    {
      hide Slot, Share, Served, Distinct, Rotation;
      ghost var next := nextChainIndex;
      ServedStep(chains, next, limits);
      if limits == [] {
        return [];
      }
      var first := NextWorkChainIds(limits[0]);
      ServedFromPlace(chains, nextChainIndex, next + |first|, limits[1..]);
      var rest := Ticks(limits[1..]);
      all := first + rest;
    }
  }

  /** Quotient and remainder are unique. */
  lemma Unique(q1: int, r1: nat, q2: int, r2: nat, n: nat)
    requires n > 0 && r1 < n && r2 < n && q1 * n + r1 == q2 * n + r2
    ensures q1 == q2 && r1 == r2
  {
    assert (q1 - q2) * n == r2 - r1 && (q2 - q1) * n == r1 - r2;
    if q1 > q2 {
      AtLeastOneTurn(q1 - q2, n);
    } else if q1 < q2 {
      AtLeastOneTurn(q2 - q1, n);
    }
  }

  lemma {:induction false} AtLeastOneTurn(k: nat, n: nat)
    requires k > 0
    ensures k * n >= n
  {
    if k > 1 {
      AtLeastOneTurn(k - 1, n);
      assert k * n == (k - 1) * n + n;
    }
  }

  /** Indices come to the same place exactly when whole turns separate them. */
  lemma SlotIs(i: nat, q: int, r: nat, n: nat)
    requires n > 0 && i == q * n + r && r < n
    ensures Slot(i, n) == r
  {
    Unique(i / n, i % n, q, r, n);
  }

  lemma Turns(i: nat, n: nat) returns (q: nat)
    requires n > 0
    ensures i == q * n + Slot(i, n)
  {
    q := i / n;
  }

  lemma SlotOfSlot(i: nat, n: nat)
    requires n > 0
    ensures Slot(Slot(i, n), n) == Slot(i, n)
  {
    hide Slot;
    SlotIs(Slot(i, n), 0, Slot(i, n), n);
  }

  lemma Congruent(a: nat, b: nat, i: nat, n: nat)
    requires n > 0 && Slot(a, n) == Slot(b, n)
    ensures Slot(a + i, n) == Slot(b + i, n)
  {
    hide Slot;
    var qa := Turns(a, n);
    var qb := Turns(b, n);
    var q := Turns(b + i, n);
    assert a + i == (q + qa - qb) * n + Slot(b + i, n);
    SlotIs(a + i, q + qa - qb, Slot(b + i, n), n);
  }

  lemma SameRotation(chains: seq<ChainId>, a: nat, b: nat, count: nat)
    requires chains != [] && Slot(a, |chains|) == Slot(b, |chains|)
    ensures Rotation(chains, a, count) == Rotation(chains, b, count)
  {
    hide Slot;
    forall i | 0 <= i < count ensures Rotation(chains, a, count)[i] == Rotation(chains, b, count)[i] {
      Congruent(a, b, i, |chains|);
    }
  }

  lemma Apart(a: nat, b: nat, n: nat)
    requires n > 0 && a < b < a + n
    ensures Slot(a, n) != Slot(b, n)
  {
    hide Slot;
    var qa := Turns(a, n);
    var qb := Turns(b, n);
    if Slot(a, n) == Slot(b, n) {
      Unique(qb - qa, 0, 0, b - a, n);
    }
  }

  /** Two positions less than a full turn apart are different chains. */
  lemma RotationDistinct(chains: seq<ChainId>, start: nat, count: nat)
    requires Ascending(chains) && chains != [] && count <= |chains|
    ensures Distinct(Rotation(chains, start, count))
  {
    hide Slot;
    var r := Rotation(chains, start, count);
    forall i, j | 0 <= i < j < count ensures r[i] != r[j] {
      Apart(start + i, start + j, |chains|);
    }
  }

  // ----- several calls in a row -----

  /** All selections of consecutive calls, in order. */
  function Served(chains: seq<ChainId>, next: nat, limits: seq<int>): seq<ChainId>
    requires chains != []
    decreases |limits|
  {
    if limits == [] then []
    else
      var m := Share(|chains|, limits[0]);
      Rotation(chains, next, m) + Served(chains, next + m, limits[1..])
  }

  lemma ServedStep(chains: seq<ChainId>, next: nat, limits: seq<int>)
    requires chains != []
    ensures limits == [] ==> Served(chains, next, limits) == []
    ensures limits != [] ==>
      var m := Share(|chains|, limits[0]);
      Served(chains, next, limits) == Rotation(chains, next, m) + Served(chains, next + m, limits[1..])
  {
    hide Share, Rotation, Slot;
  }

  function Total(n: nat, limits: seq<int>): nat {
    if limits == [] then 0 else Share(n, limits[0]) + Total(n, limits[1..])
  }

  lemma NoRotation(chains: seq<ChainId>, next: nat)
    requires chains != []
    ensures Rotation(chains, next, 0) == []
  {
  }

  lemma Joined(chains: seq<ChainId>, next: nat, a: nat, b: nat)
    requires chains != []
    ensures Rotation(chains, next, a) + Rotation(chains, next + a, b) == Rotation(chains, next, a + b)
  {
    hide Slot;
    var first, second, whole := Rotation(chains, next, a), Rotation(chains, next + a, b), Rotation(chains, next, a + b);
    forall i | 0 <= i < a + b ensures (first + second)[i] == whole[i] {
      assert i >= a ==> second[i - a] == chains[Slot(next + a + (i - a), |chains|)];
    }
  }

  /** Whatever the limits, consecutive calls continue one rotation without a gap or an overlap. */
  lemma {:induction false} CallsContinueOneRotation(chains: seq<ChainId>, next: nat, limits: seq<int>)
    requires chains != []
    ensures Served(chains, next, limits) == Rotation(chains, next, Total(|chains|, limits))
    decreases |limits|
  {
    hide Slot, Share, Rotation, Served;
    ServedStep(chains, next, limits);
    if limits == [] {
      NoRotation(chains, next);
    } else {
      var m := Share(|chains|, limits[0]);
      CallsContinueOneRotation(chains, next + m, limits[1..]);
      Joined(chains, next, m, Total(|chains|, limits[1..]));
    }
  }

  /** What consecutive calls serve depends only on the place the wheel stands at. */
  lemma ServedFromPlace(chains: seq<ChainId>, a: nat, b: nat, limits: seq<int>)
    requires chains != [] && Slot(a, |chains|) == Slot(b, |chains|)
    ensures Served(chains, a, limits) == Served(chains, b, limits)
  {
    hide Slot;
    CallsContinueOneRotation(chains, a, limits);
    CallsContinueOneRotation(chains, b, limits);
    SameRotation(chains, a, b, Total(|chains|, limits));
  }

  /** A full turn reaches every chain. */
  lemma TurnCoversAll(chains: seq<ChainId>, next: nat, count: nat, c: ChainId)
    requires chains != [] && count >= |chains| && c in chains
    ensures c in Rotation(chains, next, count)
  {
    hide Slot;
    var n := |chains|;
    var p :| 0 <= p < n && chains[p] == c;
    var q := Turns(next, n);
    var at := Slot(next, n);
    var t := if p >= at then p - at else p + n - at;
    assert next + t == (if p >= at then q else q + 1) * n + p;
    SlotIs(next + t, if p >= at then q else q + 1, p, n);
    assert Rotation(chains, next, count)[t] == c;
  }

  lemma {:induction false} UniformTotal(n: nat, k: nat, limits: seq<int>)
    requires k > 0 && forall i :: 0 <= i < |limits| ==> limits[i] == k
    ensures Total(n, limits) == |limits| * Share(n, k)
  {
    if limits != [] {
      UniformTotal(n, k, limits[1..]);
      assert |limits| * Share(n, k) == Share(n, k) + (|limits| - 1) * Share(n, k);
    }
  }

  /** Fairness: for any limit k > 0 and any starting point, ceil(n / k) consecutive calls serve every chain. */
  lemma EveryChainIsServed(chains: seq<ChainId>, next: nat, k: nat, limits: seq<int>, c: ChainId)
    requires k > 0 && c in chains
    requires |limits| == (|chains| + k - 1) / k && forall i :: 0 <= i < |limits| ==> limits[i] == k
    ensures c in Served(chains, next, limits)
  {
    var n := |chains|;
    UniformTotal(n, k, limits);
    CallsContinueOneRotation(chains, next, limits);
    assert |limits| * k >= n;
    assert |limits| >= 1;
    assert Total(n, limits) >= n by {
      if k >= n { assert |limits| * n >= n; }
    }
    TurnCoversAll(chains, next, Total(n, limits), c);
  }
}
