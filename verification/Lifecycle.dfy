/** Two complete lives of a transaction as runs: the rules of the protocol allow a success and a nonce release. */
module Lifecycle {
  import opened TxTypes
  import opened Protocol
  import opened Runs

  const LANE: Lane := Lane(1, 1)
  const PAYLOAD: Payload := Payload(7, [], 0, 21000, [])
  const SIGNED: Envelope := Envelope(LANE, 0, PAYLOAD, Legacy(1))
  const ROW: Transaction :=
    Transaction("a", None, None, None, LANE, PAYLOAD, None, None, None, Pending, 0, false, None, None, None, 0, 0, 0, 0)
  const ASSIGNED: Transaction := ROW.(assignedNonce := Some(0), status := Processing)
  const OPEN: Transaction := ASSIGNED.(tx := Some(SIGNED), status := Confirming, broadcastPending := true)
  const ACCEPTED_ROW: Transaction := OPEN.(broadcastPending := false)
  const REJECTED_ROW: Transaction := OPEN.(broadcastPending := false, rejectedAttempt := Some(SIGNED))
  const SUCCEEDED: Transaction := ACCEPTED_ROW.(status := Succeed, receipt := Some(Receipt(SIGNED, true)),
                                                notifiedAt := Some(0))
  const RELEASED: Transaction := REJECTED_ROW.(status := Errored, assignedNonce := None, rejectedAttempt := None,
                                               notifiedAt := Some(0))
  const ATTEMPT: Attempt := Attempt("a", SIGNED, 0, SIGNED, 0)

  /** A world with this one row, worked on by manager 0. */
  ghost function Working1(row: Transaction, history: seq<Attempt>, sent: set<(Id, Hash)>, settled: set<Hash>,
                          ev: Evidence): World {
    var attempts: map<Id, seq<Attempt>> := if history == [] then map[] else map["a" := history];
    var owner: map<Hash, Id> := if history == [] then map[] else map[SIGNED := "a"];
    World(State(map["a" := row], attempts, owner, {LANE}, sent, settled, {(LANE, 0)}, {}, 0),
          map[0 := Holder(LANE, ev)], map[])
  }

  lemma Extend(run: seq<World>, steps: seq<Step>, step: Step)
    requires IsRun(run, steps) && Enabled(run[|steps|], step)
    ensures IsRun(run + [Do(run[|steps|], step)], steps + [step])
  {
    hide Enabled, Do, Init;
    var longer, more := run + [Do(run[|steps|], step)], steps + [step];
    forall i | 0 <= i < |more| ensures Enabled(longer[i], more[i]) && longer[i + 1] == Do(longer[i], more[i]) {
      if i < |steps| {
        assert longer[i] == run[i] && longer[i + 1] == run[i + 1] && more[i] == steps[i];
      }
    }
  }

  /** The step leads from one world to the other. */
  ghost predicate Leads(w: World, step: Step, next: World) {
    Enabled(w, step) && Do(w, step) == next
  }

  const START: World := World(State(map[], map[], map[], {}, {}, {}, {}, {}, 0), map[], map[])
  const SUBMITTED: World := START.(s := START.s.(rows := map["a" := ROW]))
  const LOCKED: World := World(SUBMITTED.s.(locks := {LANE}), map[0 := Holder(LANE, NOTHING)], map[])
  const SENT: set<(Id, Hash)> := {("a", SIGNED)}

  lemma Begins()
    ensures Leads(START, Submit(ROW), SUBMITTED) && Leads(SUBMITTED, Acquire(0, LANE), LOCKED)
    ensures Leads(LOCKED, Act(0, ReadPendingNonce(0)), Working1(ROW, [], {}, {}, NOTHING.(pending := Some(0))))
  {
  }

  lemma Assigns()
    ensures Leads(Working1(ROW, [], {}, {}, NOTHING.(pending := Some(0))), Act(0, SaveRow(ASSIGNED)),
                  Working1(ASSIGNED, [], {}, {}, NOTHING))
  {
  }

  lemma Signs()
    ensures Leads(Working1(ASSIGNED, [], {}, {}, NOTHING), Act(0, SaveAttempt(ATTEMPT)),
                  Working1(ASSIGNED, [ATTEMPT], {}, {}, NOTHING))
  {
    var w := Working1(ASSIGNED, [], {}, {}, NOTHING);
    assert Att(w.s, "a") + [ATTEMPT] == [ATTEMPT];
    assert w.holders[0 := Holder(LANE, NOTHING)] == w.holders;
  }

  lemma Opens()
    ensures Leads(Working1(ASSIGNED, [ATTEMPT], {}, {}, NOTHING), Act(0, SaveRow(OPEN)),
                  Working1(OPEN, [ATTEMPT], {}, {}, NOTHING))
  {
  }

  lemma Sends1()
    ensures Leads(Working1(OPEN, [ATTEMPT], {}, {}, NOTHING), Act(0, Send("a", SIGNED)),
                  Working1(OPEN, [ATTEMPT], SENT, {}, NOTHING.(inFlight := Some(SIGNED))))
  {
  }

  lemma Answers(d: Disposition)
    requires d.Definite()
    ensures Leads(Working1(OPEN, [ATTEMPT], SENT, {}, NOTHING.(inFlight := Some(SIGNED))),
                  Act(0, Answer("a", SIGNED, d)),
                  Working1(OPEN, [ATTEMPT], SENT, {SIGNED}, NOTHING))
  {
  }

  /** A legal write of the row, whatever has been read before. */
  lemma Saves(row: Transaction, next: Transaction, ev: Evidence)
    requires row.id == next.id == "a" && row.lane == LANE && !row.IsCompleted()
    requires LegalRow(Working1(row, [ATTEMPT], SENT, {SIGNED}, ev).s, LANE, ev, row, next)
    ensures Leads(Working1(row, [ATTEMPT], SENT, {SIGNED}, ev), Act(0, SaveRow(next)),
                  Working1(next, [ATTEMPT], SENT, {SIGNED}, NOTHING))
  {
    hide LegalRow;
  }

  /** A read, which only adds to the evidence. */
  lemma ReadsNode(row: Transaction, ev: Evidence, e: Event)
    requires e.ReadReceipt? || e.ReadTransaction? || (e.ReadPendingNonce? && e.nonce == 0)
    ensures Leads(Working1(row, [ATTEMPT], SENT, {SIGNED}, ev), Act(0, e),
                  Working1(row, [ATTEMPT], SENT, {SIGNED}, Learn(ev, e)))
  {
    hide Learn;
  }

  /** One more step of a run. */
  lemma Then(run: seq<World>, steps: seq<Step>, w: World, step: Step, next: World)
    returns (longer: seq<World>, more: seq<Step>)
    requires Ends(run, steps, w) && Leads(w, step, next)
    ensures Ends(longer, more, next) && |more| == |steps| + 1 && |longer| == |more| + 1 && longer[|steps|] == w
  {
    hide Enabled, Do;
    Extend(run, steps, step);
    longer, more := run + [next], steps + [step];
  }

  ghost predicate Ends(run: seq<World>, steps: seq<Step>, w: World) {
    IsRun(run, steps) && run[|steps|] == w
  }

  lemma Starts()
    ensures Ends([START], [], START)
  {
  }

  lemma Broadcast(d: Disposition) returns (run: seq<World>, steps: seq<Step>)
    requires d.Definite()
    ensures Ends(run, steps, Working1(OPEN, [ATTEMPT], SENT, {SIGNED}, NOTHING))
  {
    hide Ends, Leads, Working1;
    Starts();
    Begins();
    run, steps := Then([START], [], START, Submit(ROW), SUBMITTED);
    run, steps := Then(run, steps, SUBMITTED, Acquire(0, LANE), LOCKED);
    var w3 := Working1(ROW, [], {}, {}, NOTHING.(pending := Some(0)));
    run, steps := Then(run, steps, LOCKED, Act(0, ReadPendingNonce(0)), w3);
    Assigns();
    var w4 := Working1(ASSIGNED, [], {}, {}, NOTHING);
    run, steps := Then(run, steps, w3, Act(0, SaveRow(ASSIGNED)), w4);
    Signs();
    var w5 := Working1(ASSIGNED, [ATTEMPT], {}, {}, NOTHING);
    run, steps := Then(run, steps, w4, Act(0, SaveAttempt(ATTEMPT)), w5);
    Opens();
    var w6 := Working1(OPEN, [ATTEMPT], {}, {}, NOTHING);
    run, steps := Then(run, steps, w5, Act(0, SaveRow(OPEN)), w6);
    Sends1();
    var w7 := Working1(OPEN, [ATTEMPT], SENT, {}, NOTHING.(inFlight := Some(SIGNED)));
    run, steps := Then(run, steps, w6, Act(0, Send("a", SIGNED)), w7);
    Answers(d);
    run, steps := Then(run, steps, w7, Act(0, Answer("a", SIGNED, d)),
                       Working1(OPEN, [ATTEMPT], SENT, {SIGNED}, NOTHING));
  }

  lemma Accepts()
    ensures LegalRow(Working1(OPEN, [ATTEMPT], SENT, {SIGNED}, NOTHING).s, LANE, NOTHING, OPEN, ACCEPTED_ROW)
  {
  }

  lemma Completes(ev: Evidence)
    requires ev.receipts == {Receipt(SIGNED, true)}
    ensures LegalRow(Working1(ACCEPTED_ROW, [ATTEMPT], SENT, {SIGNED}, ev).s, LANE, ev, ACCEPTED_ROW, SUCCEEDED)
  {
  }

  lemma Rejects()
    ensures LegalRow(Working1(OPEN, [ATTEMPT], SENT, {SIGNED}, NOTHING).s, LANE, NOTHING, OPEN, REJECTED_ROW)
  {
  }

  lemma GivesBack(ev: Evidence)
    requires ev.noReceipt == {SIGNED} && ev.noTransaction == {SIGNED} && ev.pending == Some(0)
    ensures LegalRow(Working1(REJECTED_ROW, [ATTEMPT], SENT, {SIGNED}, ev).s, LANE, ev, REJECTED_ROW, RELEASED)
  {
  }

  /** A transaction that is accepted, mined and succeeds. */
  lemma SuccessIsReachable() returns (run: seq<World>, steps: seq<Step>)
    ensures Ends(run, steps, Working1(SUCCEEDED, [ATTEMPT], SENT, {SIGNED}, NOTHING))
  {
    hide Ends, Leads, Working1, LegalRow;
    run, steps := Broadcast(Accepted);
    var w8 := Working1(OPEN, [ATTEMPT], SENT, {SIGNED}, NOTHING);
    var w9 := Working1(ACCEPTED_ROW, [ATTEMPT], SENT, {SIGNED}, NOTHING);
    Accepts();
    Saves(OPEN, ACCEPTED_ROW, NOTHING);
    run, steps := Then(run, steps, w8, Act(0, SaveRow(ACCEPTED_ROW)), w9);
    var read := ReadReceipt(SIGNED, FoundReceipt(SIGNED, 1));
    var ev := Learn(NOTHING, read);
    ReadsNode(ACCEPTED_ROW, NOTHING, read);
    var w10 := Working1(ACCEPTED_ROW, [ATTEMPT], SENT, {SIGNED}, ev);
    run, steps := Then(run, steps, w9, Act(0, read), w10);
    assert ev.receipts == {Receipt(SIGNED, true)};
    Completes(ev);
    Saves(ACCEPTED_ROW, SUCCEEDED, ev);
    run, steps := Then(run, steps, w10, Act(0, SaveRow(SUCCEEDED)),
                       Working1(SUCCEEDED, [ATTEMPT], SENT, {SIGNED}, NOTHING));
  }

  /** A signed transaction that is rejected for good, proven absent, and gives its nonce back. */
  lemma ReleaseIsReachable() returns (run: seq<World>, steps: seq<Step>, ev: Evidence)
    ensures Ends(run, steps, Working1(RELEASED, [ATTEMPT], SENT, {SIGNED}, NOTHING))
    ensures |run| > |steps| > 0 && run[|steps| - 1] == Working1(REJECTED_ROW, [ATTEMPT], SENT, {SIGNED}, ev)
  {
    hide Ends, Leads, Working1, LegalRow;
    run, steps := Broadcast(RejectedPermanent);
    var w8 := Working1(OPEN, [ATTEMPT], SENT, {SIGNED}, NOTHING);
    var w9 := Working1(REJECTED_ROW, [ATTEMPT], SENT, {SIGNED}, NOTHING);
    Rejects();
    Saves(OPEN, REJECTED_ROW, NOTHING);
    run, steps := Then(run, steps, w8, Act(0, SaveRow(REJECTED_ROW)), w9);
    var ev1 := Learn(NOTHING, ReadReceipt(SIGNED, NoReceipt));
    ReadsNode(REJECTED_ROW, NOTHING, ReadReceipt(SIGNED, NoReceipt));
    var w10 := Working1(REJECTED_ROW, [ATTEMPT], SENT, {SIGNED}, ev1);
    run, steps := Then(run, steps, w9, Act(0, ReadReceipt(SIGNED, NoReceipt)), w10);
    var ev2 := Learn(ev1, ReadTransaction(SIGNED, NoTransaction));
    ReadsNode(REJECTED_ROW, ev1, ReadTransaction(SIGNED, NoTransaction));
    var w11 := Working1(REJECTED_ROW, [ATTEMPT], SENT, {SIGNED}, ev2);
    run, steps := Then(run, steps, w10, Act(0, ReadTransaction(SIGNED, NoTransaction)), w11);
    ev := Learn(ev2, ReadPendingNonce(0));
    ReadsNode(REJECTED_ROW, ev2, ReadPendingNonce(0));
    var w12 := Working1(REJECTED_ROW, [ATTEMPT], SENT, {SIGNED}, ev);
    run, steps := Then(run, steps, w11, Act(0, ReadPendingNonce(0)), w12);
    GivesBack(ev);
    Saves(REJECTED_ROW, RELEASED, ev);
    run, steps := Then(run, steps, w12, Act(0, SaveRow(RELEASED)),
                       Working1(RELEASED, [ATTEMPT], SENT, {SIGNED}, NOTHING));
  }
}
