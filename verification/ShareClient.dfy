/** The client object of providers/yahoo/share_statistics.go. */
module ShareClientObject {
  import opened TxTypes
  import opened ShareSessions

  datatype Entry = Use(session: Session) | WaitFor(attempt: nat) | Fetch(attempt: nat)

  datatype Reply = Body | Unauthorized | OtherError

  class ShareClient {
    var session: Session
    var pending: Option<nat>
    var attempts: seq<Option<Outcome>>
    ghost var startedAt: seq<nat>
    ghost var calls: map<nat, Call>
    ghost var condemned: nat
    ghost var crumbs: seq<string>
    ghost var returned: seq<Return>

    constructor ()
      ensures S() == State(Session("", 0), None, [], [], map[], 0, [], [])
    {
      session, pending, attempts := Session("", 0), None, [];
      startedAt, calls, condemned, crumbs, returned := [], map[], 0, [], [];
    }

    ghost function S(): State
      reads this
    {
      State(session, pending, attempts, startedAt, calls, condemned, crumbs, returned)
    }

    /** Any number of steps of the other callers. The body does nothing; callers see only the contract, which
        `ShareSessions.StepKeepsInv` and `ShareSessions.OthersKeepCall` give for every step. */
    method Interfere(ghost k: nat)
      requires Inv(S())
      modifies this
      ensures Inv(S()) && (k in calls <==> k in old(calls)) && (k in calls ==> calls[k] == old(calls)[k])
      ensures old(condemned) <= condemned && old(returned) <= returned
    {
    }

    method EnterSession(ghost k: nat, rejected: nat) returns (e: Entry)
      requires Inv(S()) && Enabled(S(), Come(k, rejected))
      modifies this
      ensures Inv(S()) && S() == Enter(old(S()), k, rejected)
      ensures e.Use? <==> Usable(old(S()), rejected)
      ensures e.Use? ==> e.session == session && k !in calls
      ensures e.WaitFor? ==> k in calls && calls[k] == Waiting(condemned, e.attempt)
      ensures e.Fetch? ==> k in calls && calls[k] == Fetching(condemned, e.attempt)
    {
      EnterKeepsInv(S(), k, rejected);
      hide Inv, Given;
      condemned := Max(condemned, rejected);
      if session.crumb != "" && session.generation != rejected {
        returned := returned + [Return(condemned, session)];
        return Use(session);
      }
      if pending.Some? {
        calls := calls[k := Waiting(condemned, pending.value)];
        return WaitFor(pending.value);
      }
      e := Fetch(|attempts|);
      calls := calls[k := Fetching(condemned, |attempts|)];
      pending := Some(|attempts|);
      attempts, startedAt := attempts + [None], startedAt + [session.generation];
      session := session.(crumb := "");
    }

    method FinishFetch(ghost k: nat, attempt: nat, crumb: Option<string>) returns (o: Outcome)
      requires Inv(S()) && Enabled(S(), Fetched(k, crumb)) && calls[k].attempt == attempt
      modifies this
      ensures Inv(S()) && S() == Finish(old(S()), k, crumb) && o == Outcome(session, crumb.Some?)
    {
      FinishKeepsInv(S(), k, crumb);
      hide Inv, Given;
      if crumb.Some? {
        session := Session(crumb.value, session.generation + 1);
        crumbs := crumbs + [crumb.value];
        returned := returned + [Return(calls[k].floor, session)];
      }
      o := Outcome(session, crumb.Some?);
      attempts := attempts[attempt := Some(o)];
      pending := None;
      calls := calls - {k};
    }

    /** One call: whatever the others do meanwhile, a session it gets is newer than the one it rejected and than
        everything anybody had rejected before it came. A caller that has to ask gets the crumb it was answered, if any;
        an empty one counts as none. None is an error. */
    method GetShareSession(ghost k: nat, rejected: nat, cancelled: bool, crumb: Option<string>)
      returns (r: Option<Session>)
      requires Inv(S()) && Enabled(S(), Come(k, rejected))
      modifies this
      ensures Inv(S()) && k !in calls && old(returned) <= returned
      ensures r.Some? ==> r.value.generation > rejected && r.value.generation > old(condemned) && r.value.crumb != ""
      ensures r.Some? ==> Given(S(), r.value.generation)
      ensures cancelled ==> r.None? && S() == old(S())
      ensures !cancelled && Usable(old(S()), rejected) ==> r == Some(old(session)) && session == old(session)
      ensures !cancelled && !Usable(old(S()), rejected) && old(pending).None? ==>
        if crumb.None? || crumb == Some("") then r.None? else r.Some? && r.value.crumb == crumb.value
    {
      hide Inv, Given;
      if cancelled {
        return None;
      }
      var e := EnterSession(k, rejected);
      match e
      case Use(current) =>
        r := Some(current);
        LastReturn(S());
      case WaitFor(attempt) =>
        r := AwaitAttempt(k, attempt);
      case Fetch(attempt) =>
        Interfere(k);
        CallKnown(S(), k);
        var o := FinishFetch(k, attempt, if crumb == Some("") then None else crumb);
        r := if o.ok then Some(o.session) else None;
        if o.ok {
          LastReturn(S());
        }
    }

    /** The select on the attempt's done channel and the caller's context. */
    method AwaitAttempt(ghost k: nat, attempt: nat) returns (r: Option<Session>)
      requires Inv(S()) && k in calls && calls[k].Waiting? && calls[k].attempt == attempt
      modifies this
      ensures Inv(S()) && k !in calls && old(returned) <= returned
      ensures
        attempt < |attempts| &&
        r == if attempts[attempt].Some? && attempts[attempt].value.ok then Some(attempts[attempt].value.session)
            else None
      ensures r.Some? ==>
        r.value.generation > old(calls)[k].floor && r.value.crumb != "" && Given(S(), r.value.generation)
    {
      hide Inv, Given;
      Interfere(k);
      CallKnown(S(), k);
      ghost var s := S();
      if attempts[attempt].None? {
        LeaveKeepsInv(s, s.(calls := calls - {k}), k) by { SameReturns(s, s.(calls := calls - {k})); }
        calls := calls - {k};
        return None;
      }
      WakeReturnsOk(s, k);
      LeaveKeepsInv(s, Wake(s, k), k);
      var o := attempts[attempt].value;
      if o.ok {
        returned := returned + [Return(calls[k].floor, o.session)];
      }
      calls := calls - {k};
      r := if o.ok then Some(o.session) else None;
      if o.ok {
        LastReturn(S());
      }
    }

    /** The retry loop, given the replies to its requests: at most two requests, the second one only after a refusal and
        with a strictly newer session than the one refused. The outcome is that of the last request. */
    method GetShareStatistics(ghost k: nat, cancelled: seq<bool>, crumbs: seq<Option<string>>, replies: seq<Reply>)
      returns (ok: bool, used: seq<Session>)
      requires |cancelled| == |crumbs| == |replies| == 2
      requires Inv(S()) && k !in calls
      modifies this
      ensures Inv(S()) && k !in calls && |used| <= 2
      ensures ok <==> used != [] && replies[|used| - 1] == Body
      ensures |used| == 2 ==> replies[0] == Unauthorized
      ensures !cancelled[0] && Usable(old(S()), 0) ==> used != [] && used[0] == old(session)
      ensures |used| == 2 ==> used[0].generation < used[1].generation
      ensures forall i :: 0 <= i < |used| ==> used[i].crumb != "" && used[i].generation > old(condemned)
    {
      hide Inv, Given;
      used, ok := [], false;
      var current := GetShareSession(k, 0, cancelled[0], crumbs[0]);
      if current.None? {
        return;
      }
      for attempt := 0 to 2
        invariant Inv(S()) && k !in calls && |used| == attempt <= 1 && current.Some? && current.value.crumb != ""
        invariant current.value.generation > old(condemned) && Given(S(), current.value.generation)
        invariant forall i :: 0 <= i < |used| ==> used[i].crumb != "" && used[i].generation > old(condemned)
        invariant attempt == 1 ==> replies[0] == Unauthorized
        invariant attempt == 0 && !cancelled[0] && Usable(old(S()), 0) ==> current.value == old(session)
        invariant attempt == 1 && !cancelled[0] && Usable(old(S()), 0) ==> used[0] == old(session)
        invariant attempt == 1 ==> used[0].generation < current.value.generation
      {
        used := used + [current.value];
        var reply := replies[attempt];
        ghost var before := S();
        Interfere(k);
        StillGiven(before, S(), current.value.generation);
        if attempt == 0 && reply == Unauthorized {
          current := GetShareSession(k, current.value.generation, cancelled[1], crumbs[1]);
          if current.None? {
            return;
          }
        } else {
          ok := reply == Body;
          return;
        }
      }
    }
  }

  lemma LastReturn(s: State)
    requires Inv(s) && s.returned != []
    ensures
      var r := s.returned[|s.returned| - 1];
      r.floor < r.session.generation && r.session.crumb != "" && Given(s, r.session.generation)
  {
    hide CallsOk, AttemptsOk;
  }

  lemma CallKnown(s: State, k: nat)
    requires Inv(s) && k in s.calls
    ensures s.calls[k].attempt < |s.attempts|
  {
    WaiterOk(s, k);
  }

  lemma SameReturns(s: State, t: State)
    requires Inv(s) && t.returned == s.returned && t.crumbs == s.crumbs
    ensures ReturnsOk(t)
  {
    hide CallsOk, AttemptsOk, SessionOk;
  }

  lemma StillGiven(s: State, t: State, generation: nat)
    requires Given(s, generation) && s.returned <= t.returned
    ensures Given(t, generation)
  {
    var i :| 0 <= i < |s.returned| && s.returned[i].session.generation == generation;
    assert t.returned[i] == s.returned[i];
  }
}
