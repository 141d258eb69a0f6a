/**
 The shared event indexer, evm/eventindexer/event_indexer.go: registrations that share output channels. Each
 critical section of the indexer's mutex is one step; context cancellations and sends happen between them.
 */
module EventIndexer {
  import opened TxTypes
  import opened Decimal

  type Chan = nat
  /** A *contractInfo: pointers are compared by identity. */
  type Ref = nat

  datatype Contract = Contract(chain: ChainId, address: string, events: seq<string>, output: Chan)

  datatype Action = Sent(output: Chan, sender: Ref) | Closed(output: Chan)

  datatype State = State(
    contracts: map<string, Ref>,
    outputs: map<Chan, nat>,
    stopped: bool,
    info: seq<Contract>,          // every registration ever made; a Ref is an index
    live: set<Ref>,               // registrations whose goroutine has not yet left its cleanup section
    cancelled: set<Ref>,
    trace: seq<Action>)           // what happened to the output channels

  // ----- keys -----

  function Join(events: seq<string>): string {
    if events == [] then "" else if |events| == 1 then events[0] else events[0] + "," + Join(events[1..])
  }

  function ContractKey(chain: ChainId, address: string, events: seq<string>): string {
    Digits(chain) + "_" + address + "_" + Join(events)
  }

  function KeyOf(c: Contract): string {
    ContractKey(c.chain, c.address, c.events)
  }

  predicate Free(s: string, c: char) {
    forall i :: 0 <= i < |s| ==> s[i] != c
  }

  /** Hex text of an address or a topic. */
  predicate HexText(s: string) {
    s != "" && Free(s, '_') && Free(s, ',')
  }

  lemma FirstCut(a: string, x: string, b: string, y: string, c: char)
    requires Free(a, c) && Free(b, c) && a + [c] + x == b + [c] + y
    ensures a == b && x == y
  {
    var s := a + [c] + x;
    assert s[|a|] == c && s[|b|] == c;
    assert forall i :: 0 <= i < |a| ==> s[i] == a[i];
    assert forall i :: 0 <= i < |b| ==> s[i] == b[i];
    assert |a| == |b|;
    assert a == s[..|a|] && b == s[..|b|];
    assert x == s[|a| + 1..] && y == s[|b| + 1..];
  }

  /** Commas appear exactly between two events. */
  lemma JoinShape(a: seq<string>)
    requires forall i :: 0 <= i < |a| ==> HexText(a[i])
    ensures Join(a) == "" <==> a == []
    ensures Free(Join(a), ',') <==> |a| <= 1
  {
    if a != [] {
      assert HexText(a[0]);
    }
    if |a| > 1 {
      assert Join(a)[|a[0]|] == ',';
    }
  }

  lemma {:induction false} JoinInjective(a: seq<string>, b: seq<string>)
    requires (forall i :: 0 <= i < |a| ==> HexText(a[i])) && (forall i :: 0 <= i < |b| ==> HexText(b[i]))
    requires Join(a) == Join(b)
    ensures a == b
  {
    JoinShape(a);
    JoinShape(b);
    if |a| > 1 {
      assert HexText(a[0]) && HexText(b[0]);
      FirstCut(a[0], Join(a[1..]), b[0], Join(b[1..]), ',');
      JoinInjective(a[1..], b[1..]);
      assert a == [a[0]] + a[1..] && b == [b[0]] + b[1..];
    }
  }

  /** Two registrations share a key exactly when chain, address and event list agree. */
  lemma KeyIdentifies(c1: ChainId, a1: string, e1: seq<string>, c2: ChainId, a2: string, e2: seq<string>)
    requires HexText(a1) && HexText(a2)
    requires (forall i :: 0 <= i < |e1| ==> HexText(e1[i])) && (forall i :: 0 <= i < |e2| ==> HexText(e2[i]))
    ensures ContractKey(c1, a1, e1) == ContractKey(c2, a2, e2) <==> c1 == c2 && a1 == a2 && e1 == e2
  {
    hide Digits, Join, Value;
    if ContractKey(c1, a1, e1) == ContractKey(c2, a2, e2) {
      ReadPrinted(c1);
      ReadPrinted(c2);
      assert Digits(c1) + "_" + (a1 + "_" + Join(e1)) == ContractKey(c1, a1, e1);
      assert Digits(c2) + "_" + (a2 + "_" + Join(e2)) == ContractKey(c2, a2, e2);
      FirstCut(Digits(c1), a1 + "_" + Join(e1), Digits(c2), a2 + "_" + Join(e2), '_');
      FirstCut(a1, Join(e1), a2, Join(e2), '_');
      JoinInjective(e1, e2);
    }
  }

  // ----- the critical sections -----

  function Count(outputs: map<Chan, nat>, ch: Chan): nat {
    if ch in outputs then outputs[ch] else 0
  }

  /** One registration of AddContract's last loop. */
  function Register(s: State, c: Contract): State {
    s.(info := s.info + [c], contracts := s.contracts[KeyOf(c) := |s.info|],
       outputs := s.outputs[c.output := Count(s.outputs, c.output) + 1], live := s.live + {|s.info|})
  }

  function RegisterAll(s: State, added: seq<Contract>): State {
    if added == [] then s else Register(RegisterAll(s, added[..|added| - 1]), added[|added| - 1])
  }

  predicate Matches(c: Contract, chains: seq<ChainId>, address: string) {
    c.address == address && (chains == [] || c.chain in chains)
  }

  predicate Taken(s: State, k: string, chains: seq<ChainId>, address: string) {
    k in s.contracts && s.contracts[k] < |s.info| && Matches(s.info[s.contracts[k]], chains, address)
  }

  /** The registrations RemoveContract takes out; each is cancelled and then waited for. */
  function Removed(s: State, chains: seq<ChainId>, address: string): set<Ref> {
    set k | k in s.contracts && Taken(s, k, chains, address) :: s.contracts[k]
  }

  function Remove(s: State, chains: seq<ChainId>, address: string): State {
    s.(contracts := map k | k in s.contracts && !Taken(s, k, chains, address) :: s.contracts[k],
       cancelled := s.cancelled + Removed(s, chains, address))
  }

  function Shutdown(s: State): State {
    if s.stopped then s else s.(stopped := true, cancelled := s.cancelled + s.contracts.Values)
  }

  /** The deferred cleanup of processLogs. */
  function Exit(s: State, r: Ref): State
    requires r < |s.info|
  {
    var c := s.info[r];
    var contracts :=
      if KeyOf(c) in s.contracts && s.contracts[KeyOf(c)] == r then s.contracts - {KeyOf(c)} else s.contracts;
    var left := Count(s.outputs, c.output) - 1;
    var t := s.(contracts := contracts, live := s.live - {r}, cancelled := s.cancelled + {r});
    if left == 0 then t.(outputs := s.outputs - {c.output}, trace := s.trace + [Closed(c.output)])
    else t.(outputs := s.outputs[c.output := if left > 0 then left else 0])
  }

  datatype Step =
    | Add(added: seq<Contract>)
    | Take(chains: seq<ChainId>, address: string)
    | Cancel(r: Ref)                     // the caller's context, or the indexer's, ends
    | Stop
    | Deliver(r: Ref)                    // a log reaches the output channel
    | Leave(r: Ref)

  ghost predicate IsClosed(s: State, ch: Chan) {
    Closed(ch) in s.trace
  }

  ghost predicate KeysFree(s: State, added: seq<Contract>) {
    && (forall i :: 0 <= i < |added| ==> KeyOf(added[i]) !in s.contracts)
    && (forall i, j :: 0 <= i < j < |added| ==> KeyOf(added[i]) != KeyOf(added[j]))
  }

  /** The channel of a new registration is one the indexer has not closed: that is the caller's part. */
  ghost predicate Enabled(s: State, step: Step) {
    match step
    case Add(added) => !s.stopped && KeysFree(s, added) && forall i :: 0 <= i < |added| ==>
      !IsClosed(s, added[i].output)
    case Take(_, _) => true
    case Cancel(r) => r < |s.info|
    case Stop => true
    case Deliver(r) => r in s.live && r < |s.info|
    case Leave(r) => r in s.live && r < |s.info| && (r in s.cancelled || s.stopped)
  }

  ghost function Do(s: State, step: Step): State
    requires Enabled(s, step)
  {
    match step
    case Add(added) => RegisterAll(s, added)
    case Take(chains, address) => Remove(s, chains, address)
    case Cancel(r) => s.(cancelled := s.cancelled + {r})
    case Stop => Shutdown(s)
    case Deliver(r) => s.(trace := s.trace + [Sent(s.info[r].output, r)])
    case Leave(r) => Exit(s, r)
  }

  // ----- the invariant -----

  ghost function Users(s: State, ch: Chan): set<Ref> {
    set r | r in s.live && r < |s.info| && s.info[r].output == ch
  }

  ghost predicate EverUsed(s: State, ch: Chan) {
    exists r :: 0 <= r < |s.info| && s.info[r].output == ch
  }

  ghost predicate Entries(s: State) {
    && (forall r :: r in s.live ==> r < |s.info|)
    && (forall k :: k in s.contracts ==>
            s.contracts[k] in s.live && s.contracts[k] < |s.info| && KeyOf(s.info[s.contracts[k]]) == k)
  }

  /** Every channel's count is the number of its live registrations. */
  ghost predicate Counts(s: State) {
    forall ch :: Count(s.outputs, ch) == |Users(s, ch)| && (ch in s.outputs <==> Users(s, ch) != {})
  }

  /** A channel is closed exactly when it has been used and is no longer. */
  ghost predicate ClosedWhenUnused(s: State) {
    forall ch :: IsClosed(s, ch) <==> EverUsed(s, ch) && Users(s, ch) == {}
  }

  /** Nothing follows the close of a channel, not even a second close. */
  ghost predicate CloseIsLast(trace: seq<Action>) {
    forall i, j :: 0 <= i < j < |trace| && trace[i].Closed? ==> trace[j].output != trace[i].output
  }

  ghost predicate Inv(s: State) {
    Entries(s) && Counts(s) && ClosedWhenUnused(s) && CloseIsLast(s.trace)
  }

  lemma RegisterUsers(s: State, c: Contract, ch: Chan)
    requires Entries(s)
    ensures Users(Register(s, c), ch) == Users(s, ch) + (if c.output == ch then {|s.info|} else {})
    ensures EverUsed(Register(s, c), ch) <==> EverUsed(s, ch) || c.output == ch
  {
    hide KeyOf;
    var t := Register(s, c);
    assert forall r :: 0 <= r < |s.info| ==> t.info[r] == s.info[r];
    assert t.info[|s.info|] == c;
  }

  lemma RegisterKeepsInv(s: State, c: Contract)
    requires Inv(s) && !IsClosed(s, c.output)
    ensures Inv(Register(s, c))
  {
    hide KeyOf, Users, EverUsed, CloseIsLast;
    var t := Register(s, c);
    forall ch ensures Count(t.outputs, ch) == |Users(t, ch)| && (ch in t.outputs <==> Users(t, ch) != {}) {
      RegisterUsers(s, c, ch);
      UsersKnown(s, ch);
    }
    forall ch ensures IsClosed(t, ch) <==> EverUsed(t, ch) && Users(t, ch) == {} {
      RegisterUsers(s, c, ch);
    }
  }

  lemma UsersKnown(s: State, ch: Chan)
    ensures |s.info| !in Users(s, ch)
  {
  }

  lemma {:induction false} RegisterAllKeepsInv(s: State, added: seq<Contract>)
    requires Inv(s) && forall i :: 0 <= i < |added| ==> !IsClosed(s, added[i].output)
    ensures Inv(RegisterAll(s, added)) && RegisterAll(s, added).trace == s.trace
  {
    hide Inv, Register;
    if added != [] {
      var front := added[..|added| - 1];
      RegisterAllKeepsInv(s, front);
      RegisterKeepsInv(RegisterAll(s, front), added[|added| - 1]);
      RegisterTrace(RegisterAll(s, front), added[|added| - 1]);
    }
  }

  lemma RegisterTrace(s: State, c: Contract)
    ensures Register(s, c).trace == s.trace
  {
  }

  /** Steps that leave registrations, counts and the trace alone. */
  lemma SameKeepsInv(s: State, t: State)
    requires Inv(s) && t.info == s.info && t.live == s.live && t.outputs == s.outputs && t.trace == s.trace
    requires forall k :: k in t.contracts ==> k in s.contracts && t.contracts[k] == s.contracts[k]
    ensures Inv(t)
  {
    assert forall ch :: Users(t, ch) == Users(s, ch) && (EverUsed(t, ch) <==> EverUsed(s, ch));
    hide KeyOf, Users, EverUsed, CloseIsLast;
    assert forall ch :: Users(t, ch) == Users(s, ch);
  }

  lemma DeliverKeepsInv(s: State, r: Ref)
    requires Inv(s) && r in s.live
    ensures Inv(s.(trace := s.trace + [Sent(s.info[r].output, r)]))
  {
    var t := s.(trace := s.trace + [Sent(s.info[r].output, r)]);
    var ch := s.info[r].output;
    assert r in Users(s, ch);
    assert forall c :: Users(t, c) == Users(s, c) && (EverUsed(t, c) <==> EverUsed(s, c));
    assert forall c :: IsClosed(t, c) <==> IsClosed(s, c);
    assert !IsClosed(s, ch);
    assert forall i :: 0 <= i < |s.trace| && s.trace[i] == Closed(ch) ==> IsClosed(s, ch);
  }

  lemma ExitUsers(s: State, r: Ref, ch: Chan)
    requires Entries(s) && r in s.live
    ensures Users(Exit(s, r), ch) == Users(s, ch) - {r}
    ensures r in Users(s, ch) <==> s.info[r].output == ch
    ensures EverUsed(Exit(s, r), ch) <==> EverUsed(s, ch)
    ensures EverUsed(s, s.info[r].output)
  {
    hide KeyOf;
  }

  lemma ExitEntries(s: State, r: Ref)
    requires Entries(s) && r in s.live
    ensures Entries(Exit(s, r))
  {
    hide KeyOf;
    var t := Exit(s, r);
    forall k | k in t.contracts ensures t.contracts[k] in t.live && KeyOf(t.info[t.contracts[k]]) == k {
      assert k in s.contracts && s.contracts[k] == t.contracts[k] && KeyOf(s.info[s.contracts[k]]) == k;
    }
  }

  lemma ExitCounts(s: State, r: Ref, ch: Chan)
    requires Entries(s) && Counts(s) && r in s.live
    ensures var t := Exit(s, r); Count(t.outputs, ch) == |Users(t, ch)| && (ch in t.outputs <==> Users(t, ch) != {})
  {
    hide KeyOf, Users;
    ExitUsers(s, r, ch);
    if ch == s.info[r].output {
      assert |Users(s, ch) - {r}| == |Users(s, ch)| - 1;
    } else {
      assert Users(s, ch) - {r} == Users(s, ch);
    }
  }

  lemma ExitClosed(s: State, r: Ref, ch: Chan)
    requires Entries(s) && Counts(s) && ClosedWhenUnused(s) && r in s.live
    ensures var t := Exit(s, r); IsClosed(t, ch) <==> EverUsed(t, ch) && Users(t, ch) == {}
  {
    hide KeyOf, Users, EverUsed;
    ExitUsers(s, r, ch);
    if ch == s.info[r].output {
      assert |Users(s, ch) - {r}| == |Users(s, ch)| - 1;
    } else {
      assert Users(s, ch) - {r} == Users(s, ch);
    }
  }

  lemma ExitKeepsInv(s: State, r: Ref)
    requires Inv(s) && r in s.live
    ensures Inv(Exit(s, r))
  {
    hide KeyOf, Users, EverUsed, Exit, IsClosed;
    ExitEntries(s, r);
    ExitTrace(s, r);
    var t := Exit(s, r);
    forall ch ensures Count(t.outputs, ch) == |Users(t, ch)| && (ch in t.outputs <==> Users(t, ch) != {}) {
      ExitCounts(s, r, ch);
    }
    forall ch ensures IsClosed(t, ch) <==> EverUsed(t, ch) && Users(t, ch) == {} {
      ExitClosed(s, r, ch);
    }
  }

  lemma ExitTrace(s: State, r: Ref)
    requires Inv(s) && r in s.live
    ensures CloseIsLast(Exit(s, r).trace)
  {
    hide KeyOf, Counts;
    ExitUsers(s, r, s.info[r].output);
    var ch := s.info[r].output;
    assert !IsClosed(s, ch);
    assert forall i :: 0 <= i < |s.trace| && s.trace[i] == Closed(ch) ==> IsClosed(s, ch);
  }

  lemma StepKeepsInv(s: State, step: Step)
    requires Inv(s) && Enabled(s, step)
    ensures Inv(Do(s, step))
  {
    match step
    case Add(added) => RegisterAllKeepsInv(s, added);
    case Take(_, _) => SameKeepsInv(s, Do(s, step));
    case Cancel(_) => SameKeepsInv(s, Do(s, step));
    case Stop => SameKeepsInv(s, Do(s, step));
    case Deliver(r) => DeliverKeepsInv(s, r);
    case Leave(r) => ExitKeepsInv(s, r);
  }

  // ----- every interleaving -----

  ghost predicate IsRun(run: seq<State>, steps: seq<Step>) {
    && |run| == |steps| + 1
    && run[0] == State(map[], map[], false, [], {}, {}, [])
    && (forall i :: 0 <= i < |steps| ==> Enabled(run[i], steps[i]) && run[i + 1] == Do(run[i], steps[i]))
  }

  lemma RunStep(run: seq<State>, steps: seq<Step>, i: nat)
    requires IsRun(run, steps) && i < |steps|
    ensures Enabled(run[i], steps[i]) && run[i + 1] == Do(run[i], steps[i])
  {
    hide Enabled, Do;
  }

  lemma {:induction false} Always(run: seq<State>, steps: seq<Step>, i: nat)
    requires IsRun(run, steps) && i < |run|
    ensures Inv(run[i])
  {
    if i == 0 {
      assert forall ch :: Users(run[0], ch) == {};
    } else {
      hide Inv, Enabled, Do;
      Always(run, steps, i - 1);
      RunStep(run, steps, i - 1);
      StepKeepsInv(run[i - 1], steps[i - 1]);
    }
  }

  /** In every reachable state each channel's count is the number of its live registrations. */
  lemma CountIsLiveRegistrations(run: seq<State>, steps: seq<Step>, i: nat, ch: Chan)
    requires IsRun(run, steps) && i < |run|
    ensures Count(run[i].outputs, ch) == |Users(run[i], ch)|
    ensures ch in run[i].outputs <==> Users(run[i], ch) != {}
  {
    hide IsRun;
    Always(run, steps, i);
  }

  /** A channel has been closed once if it was used and has no live registration left, and otherwise never. */
  lemma ClosedExactlyOnce(run: seq<State>, steps: seq<Step>, i: nat, ch: Chan)
    requires IsRun(run, steps) && i < |run|
    ensures multiset(run[i].trace)[Closed(ch)] == if EverUsed(run[i], ch) && Users(run[i], ch) == {} then 1 else 0
  {
    hide IsRun, EverUsed, Users, Entries, Counts;
    Always(run, steps, i);
    OnlyOne(run[i].trace, ch);
  }

  lemma {:induction false} OnlyOne(trace: seq<Action>, ch: Chan)
    requires CloseIsLast(trace)
    ensures multiset(trace)[Closed(ch)] == if Closed(ch) in trace then 1 else 0
  {
    if trace != [] {
      var front := trace[..|trace| - 1];
      assert trace == front + [trace[|trace| - 1]];
      OnlyOne(front, ch);
    }
  }

  lemma {:induction false} TraceGrows(run: seq<State>, steps: seq<Step>, i: nat, j: nat)
    requires IsRun(run, steps) && i <= j < |run|
    ensures run[i].trace <= run[j].trace
  {
    if i < j {
      TraceGrows(run, steps, i, j - 1);
      RunStep(run, steps, j - 1);
      StepTrace(run[j - 1], steps[j - 1]);
    }
  }

  lemma StepTrace(s: State, step: Step)
    requires Enabled(s, step)
    ensures s.trace <= Do(s, step).trace
    ensures !step.Deliver? && !step.Leave? ==> Do(s, step).trace == s.trace
  {
    if step.Add? {
      AddTrace(s, step.added);
    }
  }

  lemma {:induction false} AddTrace(s: State, added: seq<Contract>)
    ensures RegisterAll(s, added).trace == s.trace && RegisterAll(s, added).stopped == s.stopped
  {
    if added != [] {
      AddTrace(s, added[..|added| - 1]);
    }
  }

  /** Once a channel is closed, nothing is ever sent on it and it is never closed again. */
  lemma NothingAfterClose(run: seq<State>, steps: seq<Step>, i: nat, j: nat, ch: Chan, x: nat)
    requires IsRun(run, steps) && i <= j < |run| && IsClosed(run[i], ch)
    requires |run[i].trace| <= x < |run[j].trace|
    ensures run[j].trace[x].output != ch
  {
    TraceGrows(run, steps, i, j);
    Always(run, steps, j);
    hide IsRun, Entries, Counts, ClosedWhenUnused;
    var c :| 0 <= c < |run[i].trace| && run[i].trace[c] == Closed(ch);
    assert run[j].trace[c] == Closed(ch);
  }

  /** Only the exit of a channel's last registration closes it. */
  lemma ClosedByLastExit(run: seq<State>, steps: seq<Step>, i: nat, ch: Chan)
    requires IsRun(run, steps) && i < |steps| && !IsClosed(run[i], ch) && IsClosed(run[i + 1], ch)
    ensures steps[i].Leave? && Users(run[i], ch) == {steps[i].r} && ch !in run[i + 1].outputs
  {
    RunStep(run, steps, i);
    Always(run, steps, i);
    Always(run, steps, i + 1);
    hide IsRun, EverUsed;
    StepTrace(run[i], steps[i]);
    if steps[i].Leave? {
      ExitUsers(run[i], steps[i].r, ch);
    }
  }

  /** An entry of the registry outlives every step except its own exit and a RemoveContract that names it: an old
      registration's exit never takes out a newer one under the same key. */
  lemma EntryOutlives(run: seq<State>, steps: seq<Step>, i: nat, k: string)
    requires IsRun(run, steps) && i < |steps| && k in run[i].contracts
    requires steps[i] != Leave(run[i].contracts[k])
    requires steps[i].Take? ==> !Taken(run[i], k, steps[i].chains, steps[i].address)
    ensures k in run[i + 1].contracts && run[i + 1].contracts[k] == run[i].contracts[k]
  {
    RunStep(run, steps, i);
    hide IsRun, KeyOf;
    if steps[i].Add? {
      AddKeepsEntries(run[i], steps[i].added, k);
    }
  }

  lemma {:induction false} AddKeepsEntries(s: State, added: seq<Contract>, k: string)
    requires k in s.contracts && forall i :: 0 <= i < |added| ==> KeyOf(added[i]) != k
    ensures k in RegisterAll(s, added).contracts && RegisterAll(s, added).contracts[k] == s.contracts[k]
  {
    if added != [] {
      AddKeepsEntries(s, added[..|added| - 1], k);
    }
  }

  /** Stopped and every goroutine gone: nothing is left in either map, and every channel ever used is closed. */
  lemma StoppedAndDrained(run: seq<State>, steps: seq<Step>, i: nat)
    requires IsRun(run, steps) && i < |run| && run[i].live == {}
    ensures run[i].contracts == map[] && run[i].outputs == map[]
    ensures forall ch :: EverUsed(run[i], ch) ==> IsClosed(run[i], ch)
  {
    Always(run, steps, i);
    hide IsRun, EverUsed;
    NobodyLeft(run[i]);
    assert forall ch :: Users(run[i], ch) == {};
  }

  /** The goroutines leave one after another; None when one of them can not. */
  ghost function LeaveAll(s: State, order: seq<Ref>): Option<State>
    decreases |order|
  {
    if order == [] then Some(s)
    else if Enabled(s, Leave(order[0])) then LeaveAll(Exit(s, order[0]), order[1..])
    else None
  }

  /** After Stop the live registrations can leave in whatever order, and then both maps are empty: Stop's wait ends. */
  lemma {:induction false} StopDrains(s: State, order: seq<Ref>)
    requires Inv(s) && s.stopped
    requires (forall r :: r in order <==> r in s.live) && forall i, j :: 0 <= i < j < |order| ==> order[i] != order[j]
    ensures
      var end := LeaveAll(s, order);
      end.Some? && end.value.live == {} && end.value.contracts == map[] && end.value.outputs == map[]
    decreases |order|
  {
    hide Inv, Exit;
    if order == [] {
      NobodyLeft(s);
    } else {
      var r := order[0];
      assert r in order && r in s.live;
      ExitKeepsInv(s, r);
      LiveKnown(s, r);
      ExitShape(s, r);
      var t, rest := Exit(s, r), order[1..];
      forall x ensures x in rest <==> x in t.live {
        assert x in order <==> x == r || x in rest;
      }
      StopDrains(t, rest);
    }
  }

  lemma NobodyLeft(s: State)
    requires Inv(s) && s.live == {}
    ensures s.contracts == map[] && s.outputs == map[]
  {
    assert forall ch :: Users(s, ch) == {};
  }

  lemma LiveKnown(s: State, r: Ref)
    requires Inv(s) && r in s.live
    ensures r < |s.info|
  {
  }

  lemma ExitShape(s: State, r: Ref)
    requires r < |s.info|
    ensures Exit(s, r).live == s.live - {r} && Exit(s, r).stopped == s.stopped
  {
  }

  lemma StoppedStays(run: seq<State>, steps: seq<Step>, i: nat)
    requires IsRun(run, steps) && i < |steps| && run[i].stopped
    ensures run[i + 1].stopped && run[i + 1].live <= run[i].live
  {
    RunStep(run, steps, i);
    hide IsRun;
  }
}
