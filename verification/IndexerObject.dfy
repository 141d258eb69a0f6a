/** The indexer object of evm/eventindexer/event_indexer.go; each method is what runs under its mutex. */
module IndexerObject {
  import opened TxTypes
  import opened EventIndexer

  datatype AddResult =
    | Added
    | IndexerStopped
    | NoClient(chain: ChainId)
    | AlreadyWatched(chain: ChainId)
    | SubscribeFailed

  /** One contract per chain of the request, in some order. */
  ghost predicate Covers(added: seq<Contract>, addresses: map<ChainId, string>, events: seq<string>, ch: Chan) {
    && (forall i :: 0 <= i < |added| ==> FromRequest(added[i], addresses, events, ch))
    && (forall chain :: chain in addresses ==> Has(added, chain))
    && (forall i, j :: 0 <= i < j < |added| ==> added[i].chain != added[j].chain)
  }

  ghost predicate Has(added: seq<Contract>, chain: ChainId) {
    exists i :: 0 <= i < |added| && added[i].chain == chain
  }

  lemma HasMore(added: seq<Contract>, c: Contract, chain: ChainId)
    ensures Has(added + [c], chain) <==> Has(added, chain) || c.chain == chain
  {
    var longer := added + [c];
    assert longer[|added|] == c;
    assert forall i :: 0 <= i < |added| ==> longer[i] == added[i];
  }

  predicate FromRequest(c: Contract, addresses: map<ChainId, string>, events: seq<string>, ch: Chan) {
    c.chain in addresses && c == Contract(c.chain, addresses[c.chain], events, ch)
  }

  /** Addresses and topics are hex texts. */
  predicate HexRequest(addresses: map<ChainId, string>, events: seq<string>) {
    && (forall chain :: chain in addresses ==> HexText(addresses[chain]))
    && (forall i :: 0 <= i < |events| ==> HexText(events[i]))
  }

  class Indexer {
    const clients: set<ChainId>
    var contracts: map<string, Ref>
    var outputs: map<Chan, nat>
    var stopped: bool
    var infos: seq<Contract>
    var cancelled: set<Ref>
    ghost var live: set<Ref>
    ghost var trace: seq<Action>

    constructor (chains: set<ChainId>)
      ensures clients == chains && S() == State(map[], map[], false, [], {}, {}, [])
    {
      clients := chains;
      contracts, outputs, stopped, infos, cancelled := map[], map[], false, [], {};
      live, trace := {}, [];
    }

    ghost function S(): State
      reads this
    {
      State(contracts, outputs, stopped, infos, live, cancelled, trace)
    }

    /** The request can be registered, given the chains whose node can be reached. */
    predicate Registrable(addresses: map<ChainId, string>, events: seq<string>, reachable: set<ChainId>)
      reads this
    {
      && !stopped && addresses.Keys <= clients && addresses.Keys <= reachable
      && forall chain :: chain in addresses ==> ContractKey(chain, addresses[chain], events) !in contracts
    }

    /** All chains are subscribed or none is registered. */
    method AddContract(addresses: map<ChainId, string>, events: seq<string>, ch: Chan, reachable: set<ChainId>)
      returns (r: AddResult, ghost added: seq<Contract>)
      requires Inv(S()) && HexRequest(addresses, events) && !IsClosed(S(), ch)
      modifies this
      ensures Inv(S())
      ensures r != Added ==> S() == old(S())
      ensures r == Added ==>
        Covers(added, addresses, events, ch) && Enabled(old(S()), Step.Add(added)) &&
            S() == Do(old(S()), Step.Add(added))
      ensures r == IndexerStopped <==> old(stopped)
      ensures r.NoClient? ==> r.chain in addresses && r.chain !in clients
      ensures r.AlreadyWatched? ==>
        r.chain in addresses && ContractKey(r.chain, addresses[r.chain], events) in old(contracts)
      ensures r == Added <==> old(Registrable(addresses, events, reachable))
      ensures r == SubscribeFailed ==> addresses.Keys <= clients && !(addresses.Keys <= reachable)
    {
      hide Inv, ContractKey;
      added := [];
      if stopped {
        return IndexerStopped, added;
      }
      var remaining := addresses.Keys;
      while remaining != {}
        invariant remaining <= addresses.Keys
        invariant forall chain :: chain in addresses.Keys - remaining ==>
          chain in clients && ContractKey(chain, addresses[chain], events) !in contracts
        decreases |remaining|
      {
        var chain :| chain in remaining;
        if chain !in clients {
          return NoClient(chain), added;
        }
        if ContractKey(chain, addresses[chain], events) in contracts {
          return AlreadyWatched(chain), added;
        }
        remaining := remaining - {chain};
      }
      var subscriptions := Subscribe(addresses, events, ch, reachable);
      if subscriptions.None? {
        return SubscribeFailed, added;
      }
      added := subscriptions.value;
      KeysOfRequest(S(), added, addresses, events, ch);
      RegisterAllKeepsInv(S(), added);
      RegisterSubscriptions(subscriptions.value);
      r := Added;
    }

    /** Dial every chain; None when one of them fails. */
    method Subscribe(addresses: map<ChainId, string>, events: seq<string>, ch: Chan, reachable: set<ChainId>)
      returns (r: Option<seq<Contract>>)
      ensures r.Some? ==> Covers(r.value, addresses, events, ch)
      ensures r.Some? <==> addresses.Keys <= reachable
    {
      hide Has;
      var subscriptions: seq<Contract> := [];
      var remaining := addresses.Keys;
      while remaining != {}
        invariant remaining <= addresses.Keys
        invariant forall i :: 0 <= i < |subscriptions| ==>
          FromRequest(subscriptions[i], addresses, events, ch) && subscriptions[i].chain !in remaining
        invariant forall chain :: chain in addresses.Keys - remaining ==> Has(subscriptions, chain)
        invariant forall i, j :: 0 <= i < j < |subscriptions| ==> subscriptions[i].chain != subscriptions[j].chain
        invariant addresses.Keys - remaining <= reachable
        decreases |remaining|
      {
        var chain :| chain in remaining;
        if chain !in reachable {
          return None;
        }
        var c := Contract(chain, addresses[chain], events, ch);
        forall other ensures Has(subscriptions + [c], other) <==> Has(subscriptions, other) || other == chain {
          HasMore(subscriptions, c, other);
        }
        subscriptions := subscriptions + [c];
        remaining := remaining - {chain};
      }
      r := Some(subscriptions);
    }

    method RegisterSubscriptions(subscriptions: seq<Contract>)
      modifies this
      ensures S() == RegisterAll(old(S()), subscriptions)
    {
      hide KeyOf;
      for j := 0 to |subscriptions|
        invariant S() == RegisterAll(old(S()), subscriptions[..j])
      {
        var c := subscriptions[j];
        assert subscriptions[..j + 1][..j] == subscriptions[..j];
        contracts := contracts[KeyOf(c) := |infos|];
        outputs := outputs[c.output := Count(outputs, c.output) + 1];
        live := live + {|infos|};
        infos := infos + [c];
      }
      assert subscriptions[..|subscriptions|] == subscriptions;
    }

    /** The registered contract is at the address, on one of the chains if any are named. */
    predicate Named(k: string, chains: seq<ChainId>, address: string)
      reads this
    {
      && k in contracts && contracts[k] < |infos|
      && infos[contracts[k]].address == address && (chains == [] || infos[contracts[k]].chain in chains)
    }

    lemma NamedAreTaken(chains: seq<ChainId>, address: string)
      ensures forall k :: Named(k, chains, address) <==> Taken(S(), k, chains, address)
      ensures forall k :: Named(k, chains, address) ==> contracts[k] in Removed(S(), chains, address)
    {
    }

    /** The critical section of RemoveContract; the caller then waits until every removed registration has left. */
    method RemoveContract(chains: seq<ChainId>, address: string) returns (removed: set<Ref>)
      requires Inv(S())
      modifies this
      ensures Inv(S()) && S() == Remove(old(S()), chains, address) && removed == Removed(old(S()), chains, address)
      ensures removed <= live && removed <= cancelled
      ensures forall k :: k in contracts ==> contracts[k] !in removed
      ensures forall k :: k in contracts <==> k in old(contracts) && !old(Named(k, chains, address))
      ensures forall k :: k in old(contracts) && old(Named(k, chains, address)) ==> old(contracts)[k] in removed
    {
      hide Inv, KeyOf, Matches, RefsOf, Taken, Remove, Removed, Named;
      ghost var s := S();
      RemovalFacts(s, chains, address);
      NamedAreTaken(chains, address);
      removed := CancelMatching(chains, address);
      RemoveIs(s, S(), chains, address);
      SameKeepsInv(s, S());
    }

    /** RemoveContract's loop over the registry. */
    method CancelMatching(chains: seq<ChainId>, address: string) returns (removed: set<Ref>)
      requires forall k :: k in contracts ==> contracts[k] < |infos|
      modifies this`contracts, this`cancelled
      ensures forall k :: k in contracts <==> k in old(contracts) && !Taken(old(S()), k, chains, address)
      ensures forall k :: k in contracts ==> contracts[k] == old(contracts)[k]
      ensures removed == RefsOf(old(S()), old(contracts).Keys, chains, address) && cancelled == old(cancelled) + removed
    {
      hide Swept, RefsOf, Taken, Matches;
      ghost var s := S();
      removed := {};
      var remaining := contracts.Keys;
      SweepStarts(s, chains, address);
      while remaining != {}
        invariant remaining <= s.contracts.Keys && Swept(s, remaining, contracts, removed, cancelled, chains, address)
        decreases |remaining|
      {
        var key :| key in remaining;
        SweepOne(s, remaining, contracts, removed, cancelled, chains, address, key);
        remaining := remaining - {key};
        var r := contracts[key];
        if Matches(infos[r], chains, address) {
          contracts := contracts - {key};
          cancelled := cancelled + {r};
          removed := removed + {r};
        }
      }
      SweepEnds(s, contracts, removed, cancelled, chains, address);
    }

    method Shutdown()
      requires Inv(S())
      modifies this
      ensures Inv(S()) && S() == EventIndexer.Shutdown(old(S()))
    {
      hide Inv;
      ghost var s := S();
      if !stopped {
        stopped := true;
        var remaining := contracts.Keys;
        while remaining != {}
          invariant remaining <= contracts.Keys && contracts == s.contracts
          invariant S() == s.(stopped := true, cancelled := cancelled)
          invariant cancelled == s.cancelled + set k | k in contracts && k !in remaining :: contracts[k]
          decreases |remaining|
        {
          var key :| key in remaining;
          remaining := remaining - {key};
          cancelled := cancelled + {contracts[key]};
        }
        assert (set k | k in contracts :: contracts[k]) == contracts.Values;
      }
      SameKeepsInv(s, S());
    }

    /** The deferred cleanup of a registration's goroutine. The count never goes below zero, and the channel is
        closed exactly when this was its last registration. */
    method CleanUp(r: Ref) returns (closed: bool)
      requires Inv(S()) && r in live
      modifies this
      ensures Inv(S()) && S() == Exit(old(S()), r)
      ensures closed <==> Users(old(S()), old(infos)[r].output) == {r}
    {
      hide Inv, KeyOf, Users, EverUsed;
      LiveKnown(S(), r);
      ExitKeepsInv(S(), r);
      var c := infos[r];
      LastUser(S(), r);
      cancelled := cancelled + {r};
      if KeyOf(c) in contracts && contracts[KeyOf(c)] == r {
        contracts := contracts - {KeyOf(c)};
      }
      var left := Count(outputs, c.output) - 1;
      live := live - {r};
      closed := left == 0;
      if closed {
        trace := trace + [Closed(c.output)];
        outputs := outputs - {c.output};
      } else {
        outputs := outputs[c.output := left];
      }
    }
  }

  ghost function RefsOf(s: State, keys: set<string>, chains: seq<ChainId>, address: string): set<Ref> {
    set k | k in s.contracts && k in keys && Taken(s, k, chains, address) :: s.contracts[k]
  }

  /** RemoveContract's loop when the keys in remaining are still to be looked at. */
  ghost predicate Swept(s: State, remaining: set<string>, contracts: map<string, Ref>, removed: set<Ref>,
                        cancelled: set<Ref>, chains: seq<ChainId>, address: string) {
    && (forall k :: k in contracts <==> k in s.contracts && (k in remaining || !Taken(s, k, chains, address)))
    && (forall k :: k in contracts ==> contracts[k] == s.contracts[k])
    && removed == RefsOf(s, s.contracts.Keys - remaining, chains, address)
    && cancelled == s.cancelled + removed
  }

  lemma SweepStarts(s: State, chains: seq<ChainId>, address: string)
    ensures Swept(s, s.contracts.Keys, s.contracts, {}, s.cancelled, chains, address)
  {
    hide Taken;
  }

  lemma SweepEnds(s: State, contracts: map<string, Ref>, removed: set<Ref>, cancelled: set<Ref>, chains: seq<ChainId>,
                  address: string)
    requires Swept(s, {}, contracts, removed, cancelled, chains, address)
    ensures forall k :: k in contracts <==> k in s.contracts && !Taken(s, k, chains, address)
    ensures forall k :: k in contracts ==> contracts[k] == s.contracts[k]
    ensures removed == RefsOf(s, s.contracts.Keys, chains, address) && cancelled == s.cancelled + removed
  {
    hide Taken, RefsOf;
    assert s.contracts.Keys - {} == s.contracts.Keys;
  }

  lemma SweepOne(s: State, remaining: set<string>, contracts: map<string, Ref>, removed: set<Ref>, cancelled: set<Ref>,
                 chains: seq<ChainId>, address: string, key: string)
    requires Swept(s, remaining, contracts, removed, cancelled, chains, address) && key in remaining &&
      remaining <= s.contracts.Keys
    requires s.contracts[key] < |s.info|
    ensures key in contracts && contracts[key] == s.contracts[key]
    ensures
      var r := s.contracts[key];
      if Matches(s.info[r], chains, address)
      then Swept(s, remaining - {key}, contracts - {key}, removed + {r}, cancelled + {r}, chains, address)
      else Swept(s, remaining - {key}, contracts, removed, cancelled, chains, address)
  {
    hide Matches, RefsOf, Taken;
    TakenIs(s, key, chains, address);
    var done := s.contracts.Keys - remaining;
    RefsStep(s, done, key, chains, address);
    assert s.contracts.Keys - (remaining - {key}) == done + {key};
  }

  lemma RefsStep(s: State, keys: set<string>, key: string, chains: seq<ChainId>, address: string)
    requires key in s.contracts
    ensures
      var before, after := RefsOf(s, keys, chains, address), RefsOf(s, keys + {key}, chains, address);
      after == if Taken(s, key, chains, address) then before + {s.contracts[key]} else before
  {
  }

  lemma TakenIs(s: State, key: string, chains: seq<ChainId>, address: string)
    requires key in s.contracts && s.contracts[key] < |s.info|
    ensures Taken(s, key, chains, address) <==> Matches(s.info[s.contracts[key]], chains, address)
  {
  }

  lemma RemoveIs(s: State, t: State, chains: seq<ChainId>, address: string)
    requires forall k :: k in t.contracts <==> k in s.contracts && !Taken(s, k, chains, address)
    requires forall k :: k in t.contracts ==> t.contracts[k] == s.contracts[k]
    requires t == s.(contracts := t.contracts, cancelled := s.cancelled + Removed(s, chains, address))
    ensures t == Remove(s, chains, address)
  {
    assert t.contracts == Remove(s, chains, address).contracts;
  }

  lemma RemovalFacts(s: State, chains: seq<ChainId>, address: string)
    requires Inv(s)
    ensures RefsOf(s, s.contracts.Keys, chains, address) == Removed(s, chains, address)
    ensures Removed(s, chains, address) <= s.live
    ensures forall k :: k in s.contracts ==> s.contracts[k] < |s.info|
    ensures forall k :: k in s.contracts && !Taken(s, k, chains, address) ==>
      s.contracts[k] !in Removed(s, chains, address)
  {
    hide KeyOf, Counts, ClosedWhenUnused, CloseIsLast;
  }

  lemma LastUser(s: State, r: Ref)
    requires Inv(s) && r in s.live
    ensures Count(s.outputs, s.info[r].output) > 0
    ensures Count(s.outputs, s.info[r].output) == 1 <==> Users(s, s.info[r].output) == {r}
  {
    hide KeyOf, ClosedWhenUnused, CloseIsLast;
    var users := Users(s, s.info[r].output);
    assert r in users && |users - {r}| == |users| - 1;
    assert |users| == 1 ==> users - {r} == {};
  }

  /** Distinct chains give distinct keys. */
  lemma KeysOfRequest(s: State, added: seq<Contract>, addresses: map<ChainId, string>, events: seq<string>, ch: Chan)
    requires Covers(added, addresses, events, ch) && HexRequest(addresses, events)
    requires forall chain :: chain in addresses ==> ContractKey(chain, addresses[chain], events) !in s.contracts
    ensures KeysFree(s, added) && forall i :: 0 <= i < |added| ==> added[i].output == ch
  {
    hide ContractKey, HexText;
    forall i, j | 0 <= i < j < |added| ensures KeyOf(added[i]) != KeyOf(added[j]) {
      KeyIdentifies(added[i].chain, added[i].address, events, added[j].chain, added[j].address, events);
    }
  }
}
