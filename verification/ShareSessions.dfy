/**
 The single flight of anonymous sessions in providers/yahoo/share_statistics.go: any number of callers share one
 session, one of them fetches a new one while the others wait for its answer.
 */
module ShareSessions {
  import opened TxTypes

  datatype Session = Session(crumb: string, generation: nat)

  /** What an attempt left for its waiters. */
  datatype Outcome = Outcome(session: Session, ok: bool)

  /** A call under way. floor: the newest generation that had been reported as rejected when the call came in. */
  datatype Call = Fetching(floor: nat, attempt: nat) | Waiting(floor: nat, attempt: nat)

  datatype Return = Return(floor: nat, session: Session)

  datatype State = State(
    session: Session,
    pending: Option<nat>,                // sessionPending, an index into attempts
    attempts: seq<Option<Outcome>>,      // None until the attempt's done channel is closed
    startedAt: seq<nat>,                 // the generation an attempt set out to replace
    calls: map<nat, Call>,
    condemned: nat,                      // the newest generation reported as rejected
    crumbs: seq<string>,                 // what each successful fetch brought
    returned: seq<Return>)               // sessions handed out

  function Max(a: nat, b: nat): nat {
    if a < b then b else a
  }

  // ----- the critical sections -----

  predicate Usable(s: State, rejected: nat) {
    s.session.crumb != "" && s.session.generation != rejected
  }

  /** The first critical section of getShareSession. */
  function Enter(s: State, k: nat, rejected: nat): State {
    var floor := Max(s.condemned, rejected);
    var t := s.(condemned := floor);
    if Usable(s, rejected) then t.(returned := s.returned + [Return(floor, s.session)])
    else if s.pending.Some? then t.(calls := s.calls[k := Waiting(floor, s.pending.value)])
    else t.(calls := s.calls[k := Fetching(floor, |s.attempts|)], pending := Some(|s.attempts|),
            attempts := s.attempts + [None], startedAt := s.startedAt + [s.session.generation],
            session := s.session.(crumb := ""))
  }

  /** The second one, after the fetch: None is a failed fetch. */
  function Finish(s: State, k: nat, crumb: Option<string>): State
    requires k in s.calls && s.calls[k].attempt < |s.attempts|
  {
    var session := if crumb.Some? then Session(crumb.value, s.session.generation + 1) else s.session;
    s.(session := session, pending := None, calls := s.calls - {k},
       attempts := s.attempts[s.calls[k].attempt := Some(Outcome(session, crumb.Some?))],
       crumbs := if crumb.Some? then s.crumbs + [crumb.value] else s.crumbs,
       returned := if crumb.Some? then s.returned + [Return(s.calls[k].floor, session)] else s.returned)
  }

  /** A waiter whose attempt has ended takes its outcome. */
  function Wake(s: State, k: nat): State
    requires k in s.calls && s.calls[k].attempt < |s.attempts| && s.attempts[s.calls[k].attempt].Some?
  {
    var outcome := s.attempts[s.calls[k].attempt].value;
    var returned := if outcome.ok then s.returned + [Return(s.calls[k].floor, outcome.session)] else s.returned;
    s.(calls := s.calls - {k}, returned := returned)
  }

  datatype Step =
    | Come(k: nat, rejected: nat)
    | Fetched(k: nat, crumb: Option<string>)
    | Woken(k: nat)
    | GaveUp(k: nat)

  /** A caller reports a generation only after having been given it; a fetched crumb is not empty. */
  ghost predicate Enabled(s: State, step: Step) {
    match step
    case Come(k, rejected) => k !in s.calls && (rejected == 0 || Given(s, rejected))
    case Fetched(k, crumb) => k in s.calls && s.calls[k].Fetching? && s.calls[k].attempt < |s.attempts| &&
      crumb != Some("")
    case Woken(k) => k in s.calls && s.calls[k].Waiting? && s.calls[k].attempt < |s.attempts| &&
      s.attempts[s.calls[k].attempt].Some?
    case GaveUp(k) => k in s.calls && s.calls[k].Waiting?
  }

  ghost predicate Given(s: State, generation: nat) {
    exists i :: 0 <= i < |s.returned| && s.returned[i].session.generation == generation
  }

  ghost function Do(s: State, step: Step): State
    requires Enabled(s, step)
  {
    match step
    case Come(k, rejected) => Enter(s, k, rejected)
    case Fetched(k, crumb) => Finish(s, k, crumb)
    case Woken(k) => Wake(s, k)
    case GaveUp(k) => s.(calls := s.calls - {k})
  }

  // ----- the invariant -----

  /** A session is what the fetch of its generation brought. */
  ghost predicate Genuine(s: State, session: Session) {
    0 < session.generation <= |s.crumbs| && session.crumb == s.crumbs[session.generation - 1] && session.crumb != ""
  }

  ghost predicate SessionOk(s: State) {
    && |s.crumbs| == s.session.generation
    && (forall i :: 0 <= i < |s.crumbs| ==> s.crumbs[i] != "")
    && (s.session.crumb != "" ==> Genuine(s, s.session) && s.condemned < s.session.generation)
    && s.condemned <= s.session.generation
    && (s.pending.Some? ==> s.session.crumb == "")
  }

  ghost predicate AttemptOk(s: State, a: nat)
    requires a < |s.attempts| == |s.startedAt|
  {
    && s.startedAt[a] <= s.session.generation
    && (s.attempts[a].None? <==> s.pending == Some(a))
    && (s.pending == Some(a) ==> s.startedAt[a] == s.session.generation)
    && (s.attempts[a].Some? && s.attempts[a].value.ok ==>
          Genuine(s, s.attempts[a].value.session) && s.startedAt[a] < s.attempts[a].value.session.generation)
  }

  ghost predicate AttemptsOk(s: State) {
    && |s.attempts| == |s.startedAt|
    && (s.pending.Some? ==> s.pending.value < |s.attempts|)
    && (forall a :: 0 <= a < |s.attempts| ==> AttemptOk(s, a))
  }

  ghost predicate CallOk(s: State, c: Call) {
    && c.attempt < |s.attempts| == |s.startedAt|
    && c.floor <= s.startedAt[c.attempt]
    && (c.Fetching? ==> s.pending == Some(c.attempt))
  }

  ghost predicate CallsOk(s: State) {
    && (forall k :: k in s.calls ==> CallOk(s, s.calls[k]))
    && (forall k, l :: k in s.calls && l in s.calls && s.calls[k].Fetching? && s.calls[l].Fetching? ==> k == l)
    && (s.pending.Some? ==> exists k :: k in s.calls && s.calls[k].Fetching?)
  }

  ghost predicate ReturnsOk(s: State) {
    forall i :: 0 <= i < |s.returned| ==>
        Genuine(s, s.returned[i].session) && s.returned[i].floor < s.returned[i].session.generation
  }

  ghost predicate Inv(s: State) {
    SessionOk(s) && AttemptsOk(s) && CallsOk(s) && ReturnsOk(s)
  }

  lemma ReportedIsOld(s: State, rejected: nat)
    requires Inv(s) && (rejected == 0 || Given(s, rejected))
    ensures rejected <= s.session.generation && Max(s.condemned, rejected) <= s.session.generation
  {
  }

  lemma EnterCalls(s: State, k: nat, rejected: nat)
    requires Inv(s) && Enabled(s, Come(k, rejected))
    ensures CallsOk(Enter(s, k, rejected))
  {
    hide Max, Given, ReturnsOk, Genuine;
    var t := Enter(s, k, rejected);
    ReportedIsOld(s, rejected);
    if s.pending.Some? {
      assert AttemptOk(s, s.pending.value);
    }
    forall l | l in t.calls ensures CallOk(t, t.calls[l]) {
      if l != k {
        assert CallOk(s, s.calls[l]);
      }
    }
    if t.pending.Some? {
      var l := k;
      if s.pending.Some? {
        l :| l in s.calls && s.calls[l].Fetching?;
      }
      assert l in t.calls && t.calls[l].Fetching?;
    }
  }

  lemma EnterKeepsInv(s: State, k: nat, rejected: nat)
    requires Inv(s) && Enabled(s, Come(k, rejected))
    ensures Inv(Enter(s, k, rejected))
  {
    hide CallsOk, Given;
    EnterCalls(s, k, rejected);
    ReportedIsOld(s, rejected);
    var t := Enter(s, k, rejected);
    forall a | 0 <= a < |t.attempts| ensures AttemptOk(t, a) {
      if a < |s.attempts| {
        assert AttemptOk(s, a);
      }
    }
  }

  lemma FinishKeepsInv(s: State, k: nat, crumb: Option<string>)
    requires Inv(s) && Enabled(s, Fetched(k, crumb))
    ensures Inv(Finish(s, k, crumb))
  {
    var t := Finish(s, k, crumb);
    var mine := s.calls[k].attempt;
    assert CallOk(s, s.calls[k]) && AttemptOk(s, mine);
    forall a | 0 <= a < |t.attempts| ensures AttemptOk(t, a) {
      assert AttemptOk(s, a);
    }
    forall l | l in t.calls ensures CallOk(t, t.calls[l]) && !t.calls[l].Fetching? {
      assert CallOk(s, s.calls[l]);
    }
  }

  lemma LeaveKeepsInv(s: State, t: State, k: nat)
    requires Inv(s) && k in s.calls && s.calls[k].Waiting?
    requires t == s.(calls := s.calls - {k}, returned := t.returned) && ReturnsOk(t)
    ensures Inv(t)
  {
    forall a | 0 <= a < |t.attempts| ensures AttemptOk(t, a) {
      assert AttemptOk(s, a);
    }
    forall l | l in t.calls ensures CallOk(t, t.calls[l]) {
      assert CallOk(s, s.calls[l]);
    }
    if t.pending.Some? {
      var l :| l in s.calls && s.calls[l].Fetching?;
      assert l in t.calls;
    }
  }

  lemma WakeReturnsOk(s: State, k: nat)
    requires Inv(s) && Enabled(s, Woken(k))
    ensures ReturnsOk(Wake(s, k))
  {
    hide CallsOk, SessionOk, Given, Genuine;
    WaiterOk(s, k);
    assert AttemptOk(s, s.calls[k].attempt);
    SameGenuine(s, Wake(s, k));
  }

  lemma SameGenuine(s: State, t: State)
    requires t.crumbs == s.crumbs
    ensures forall session :: Genuine(t, session) <==> Genuine(s, session)
  {
  }

  lemma WaiterOk(s: State, k: nat)
    requires Inv(s) && k in s.calls
    ensures CallOk(s, s.calls[k])
  {
  }

  lemma StepKeepsInv(s: State, step: Step)
    requires Inv(s) && Enabled(s, step)
    ensures Inv(Do(s, step))
  {
    match step
    case Come(k, rejected) => EnterKeepsInv(s, k, rejected);
    case Fetched(k, crumb) => FinishKeepsInv(s, k, crumb);
    case Woken(k) =>
      WakeReturnsOk(s, k);
      LeaveKeepsInv(s, Wake(s, k), k);
    case GaveUp(k) => LeaveKeepsInv(s, Do(s, step), k);
  }

  // ----- every run -----

  ghost predicate IsRun(run: seq<State>, steps: seq<Step>) {
    && |run| == |steps| + 1
    && run[0] == State(Session("", 0), None, [], [], map[], 0, [], [])
    && (forall i :: 0 <= i < |steps| ==> Enabled(run[i], steps[i]) && run[i + 1] == Do(run[i], steps[i]))
  }

  lemma RunStep(run: seq<State>, steps: seq<Step>, i: nat)
    requires IsRun(run, steps) && i < |steps|
    ensures Enabled(run[i], steps[i]) && run[i + 1] == Do(run[i], steps[i])
  {
    hide Enabled, Do;
  }

  lemma {:induction false} Always(run: seq<State>, steps: seq<Step>, i: nat)
    requires IsRun(run, steps) && i < |run|
    ensures Inv(run[i])
  {
    if i > 0 {
      hide Inv, Enabled, Do;
      Always(run, steps, i - 1);
      RunStep(run, steps, i - 1);
      StepKeepsInv(run[i - 1], steps[i - 1]);
    }
  }

  /** At most one fetch at a time, and one is running exactly while sessionPending is set. */
  lemma SingleFlight(run: seq<State>, steps: seq<Step>, i: nat, k: nat, l: nat)
    requires IsRun(run, steps) && i < |run|
    ensures k in run[i].calls && run[i].calls[k].Fetching? && l in run[i].calls && run[i].calls[l].Fetching? ==> k == l
    ensures run[i].pending.Some? <==> exists c :: c in run[i].calls && run[i].calls[c].Fetching?
  {
    hide IsRun;
    Always(run, steps, i);
    if exists c :: c in run[i].calls && run[i].calls[c].Fetching? {
      var c :| c in run[i].calls && run[i].calls[c].Fetching?;
      assert CallOk(run[i], run[i].calls[c]);
    }
  }

  function Successes(steps: seq<Step>): nat {
    if steps == [] then 0
    else
      var last := steps[|steps| - 1];
      Successes(steps[..|steps| - 1]) + if last.Fetched? && last.crumb.Some? then 1 else 0
  }

  /** The generation is the number of successful fetches. */
  lemma {:induction false} GenerationCountsFetches(run: seq<State>, steps: seq<Step>, i: nat)
    requires IsRun(run, steps) && i < |run|
    ensures run[i].session.generation == Successes(steps[..i])
  {
    if i > 0 {
      GenerationCountsFetches(run, steps, i - 1);
      RunStep(run, steps, i - 1);
      hide IsRun, Given;
      assert steps[..i][..i - 1] == steps[..i - 1];
    }
  }

  /** Every session handed out is newer than every generation that had been reported as rejected, by anyone, when the
      call came in; and one generation has one crumb for all who receive it. */
  lemma RejectedNeverReturns(run: seq<State>, steps: seq<Step>, i: nat, x: nat)
    requires IsRun(run, steps) && i < |run| && x < |run[i].returned|
    ensures |run[i].crumbs| == run[i].session.generation
    ensures
      var r := run[i].returned[x];
      r.floor < r.session.generation <= run[i].session.generation &&
          r.session.crumb == run[i].crumbs[r.session.generation - 1] != ""
  {
    hide IsRun;
    Always(run, steps, i);
  }

  /** The floor of a call is at least what it and every earlier call reported. */
  lemma {:induction false} FloorCoversReports(run: seq<State>, steps: seq<Step>, i: nat, j: nat)
    requires IsRun(run, steps) && i <= j < |steps| && steps[i].Come? && steps[j].Come?
    ensures run[j + 1].condemned >= steps[i].rejected
    ensures
      var s, t, k := run[j], run[j + 1], steps[j].k;
      || (k in t.calls && t.calls[k].floor == t.condemned && t.returned == s.returned)
      || (t.returned == s.returned + [Return(t.condemned, s.session)])
  {
    CondemnedGrows(run, steps, i + 1, j);
    RunStep(run, steps, i);
    RunStep(run, steps, j);
    hide IsRun, Given;
  }

  lemma {:induction false} CondemnedGrows(run: seq<State>, steps: seq<Step>, i: nat, j: nat)
    requires IsRun(run, steps) && i <= j + 1 && j < |run|
    ensures i <= j ==> run[i].condemned <= run[j].condemned
  {
    if i < j {
      CondemnedGrows(run, steps, i, j - 1);
      RunStep(run, steps, j - 1);
      hide IsRun, Given;
    }
  }

  /** A step of another caller leaves this caller's call alone. */
  lemma OthersKeepCall(s: State, step: Step, k: nat)
    requires Enabled(s, step) && step.k != k
    ensures k in s.calls <==> k in Do(s, step).calls
    ensures k in s.calls ==> Do(s, step).calls[k] == s.calls[k]
    ensures s.condemned <= Do(s, step).condemned && s.returned <= Do(s, step).returned
  {
    hide Given;
  }

  lemma {:induction false} CallStays(run: seq<State>, steps: seq<Step>, i: nat, j: nat, k: nat)
    requires IsRun(run, steps) && i <= j < |run| && k in run[i].calls
    requires forall x :: i <= x < j ==> steps[x].k != k
    ensures k in run[j].calls && run[j].calls[k] == run[i].calls[k]
  {
    if i < j {
      CallStays(run, steps, i, j - 1, k);
      RunStep(run, steps, j - 1);
      OthersKeepCall(run[j - 1], steps[j - 1], k);
    }
  }

  lemma {:induction false} NoCallStays(run: seq<State>, steps: seq<Step>, i: nat, j: nat, k: nat)
    requires IsRun(run, steps) && i <= j < |run| && k !in run[i].calls
    requires forall x :: i <= x < j ==> steps[x].k != k
    ensures k !in run[j].calls
  {
    if i < j {
      NoCallStays(run, steps, i, j - 1, k);
      RunStep(run, steps, j - 1);
      OthersKeepCall(run[j - 1], steps[j - 1], k);
    }
  }

  /** Step m hands out nothing, or a session newer than the generation. */
  ghost predicate HandsOutNewer(run: seq<State>, m: nat, generation: nat)
    requires m + 1 < |run|
  {
    var s, t := run[m].returned, run[m + 1].returned;
    t == s || (|t| == |s| + 1 && t[|s|].session.generation > generation)
  }

  /** A call that is answered at once, or goes on to wait or fetch. */
  lemma AnsweredAtOnce(run: seq<State>, steps: seq<Step>, i: nat, j: nat)
    requires IsRun(run, steps) && i <= j < |steps| && steps[i].Come? && steps[j].Come?
    ensures HandsOutNewer(run, j, steps[i].rejected)
  {
    FloorCoversReports(run, steps, i, j);
    Always(run, steps, j + 1);
    hide IsRun, Given, SessionOk, AttemptsOk, CallsOk;
  }

  /** A call that came in at step j and leaves its wait or its fetch at step m. */
  lemma AnsweredLater(run: seq<State>, steps: seq<Step>, i: nat, j: nat, m: nat)
    requires IsRun(run, steps) && i <= j < m < |steps| && steps[i].Come? && steps[j].Come?
    requires steps[m].k == steps[j].k && forall x :: j < x < m ==> steps[x].k != steps[j].k
    requires steps[j].k in run[j + 1].calls
    ensures HandsOutNewer(run, m, steps[i].rejected)
  {
    var k := steps[j].k;
    CondemnedGrows(run, steps, i + 1, j);
    FloorCoversReports(run, steps, i, j);
    RunStep(run, steps, j);
    EnteredFresh(run[j], steps[j]);
    CallStays(run, steps, j + 1, m, k);
    RunStep(run, steps, m);
    Always(run, steps, m + 1);
    hide IsRun, Given, SessionOk, AttemptsOk, CallsOk;
    LeavesWithFloor(run[m], steps[m]);
  }

  /** A generation reported as rejected at step i is given to nobody who calls from then on: whoever came in at step
      j >= i, each of its next steps hands it nothing or a newer session, whether it is answered at once, after a
      wait, by its own fetch, or when it calls again. */
  lemma LaterCallsGetNewer(run: seq<State>, steps: seq<Step>, i: nat, j: nat, m: nat)
    requires IsRun(run, steps) && i <= j <= m < |steps| && steps[i].Come? && steps[j].Come?
    requires steps[m].k == steps[j].k && forall x :: j < x < m ==> steps[x].k != steps[j].k
    ensures HandsOutNewer(run, m, steps[i].rejected)
  {
    hide HandsOutNewer, Enabled, Do;
    if m == j {
      AnsweredAtOnce(run, steps, i, j);
    } else if steps[j].k in run[j + 1].calls {
      AnsweredLater(run, steps, i, j, m);
    } else {
      NoCallStays(run, steps, j + 1, m, steps[j].k);
      RunStep(run, steps, m);
      OnlyCallersCome(run[m], steps[m]);
      AnsweredAtOnce(run, steps, i, m);
    }
  }

  lemma OnlyCallersCome(s: State, step: Step)
    requires Enabled(s, step) && step.k !in s.calls
    ensures step.Come?
  {
    hide Given;
  }

  lemma EnteredFresh(s: State, step: Step)
    requires Enabled(s, step) && step.Come? && step.k in Do(s, step).calls
    ensures Do(s, step).calls[step.k].floor == Do(s, step).condemned
  {
    hide Given;
  }

  lemma LeavesWithFloor(s: State, step: Step)
    requires Enabled(s, step) && step.k in s.calls
    ensures
      var t := Do(s, step).returned;
      t == s.returned || (|t| == |s.returned| + 1 && t[|s.returned|].floor == s.calls[step.k].floor)
  {
    hide Given;
  }
}
