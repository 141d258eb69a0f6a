/** The order in which a lane batch takes its rows: compareLaneWork of evm/txmngr/txmngr_provider/mem/tx.go. */
module LaneWork {
  import opened TxTypes

  function Sign(x: int): int {
    if x < 0 then -1 else if x > 0 then 1 else 0
  }

  /** cmp.Or: the first comparison that decides. */
  function Or(first: int, second: int): int {
    if first != 0 then first else second
  }

  function CompareString(a: string, b: string): int {
    if a == [] && b == [] then 0
    else if a == [] then -1
    else if b == [] then 1
    else if a[0] != b[0] then (if a[0] < b[0] then -1 else 1)
    else CompareString(a[1..], b[1..])
  }

  /** Assigned nonces ascending, unassigned last. */
  function CompareAssignedNonce(a: Option<Nonce>, b: Option<Nonce>): int {
    if a.None? && b.None? then 0
    else if a.None? then 1
    else if b.None? then -1
    else Sign(a.value - b.value)
  }

  function CompareScheduleOrder(a: Transaction, b: Transaction): int {
    Or(Sign(a.nextActionAt - b.nextActionAt), Or(Sign(a.createdAt - b.createdAt), CompareString(a.id, b.id)))
  }

  function CompareLaneWork(a: Transaction, b: Transaction): int {
    Or(CompareAssignedNonce(a.assignedNonce, b.assignedNonce), CompareScheduleOrder(a, b))
  }

  lemma {:induction false} CompareStringReverses(a: string, b: string)
    ensures CompareString(b, a) == -CompareString(a, b)
    ensures CompareString(a, b) == 0 ==> a == b
  {
    if a != [] && b != [] && a[0] == b[0] {
      CompareStringReverses(a[1..], b[1..]);
      assert CompareString(a, b) == 0 ==> a == [a[0]] + a[1..] && b == [b[0]] + b[1..];
    }
  }

  lemma {:induction false} CompareStringTransitive(a: string, b: string, c: string)
    requires CompareString(a, b) <= 0 && CompareString(b, c) <= 0
    ensures CompareString(a, c) <= 0
  {
    if a != [] && b != [] && c != [] && a[0] == b[0] == c[0] {
      CompareStringTransitive(a[1..], b[1..], c[1..]);
    }
  }

  /** Swapping the operands reverses the comparison, and only equal ids compare equal: a total order on rows. */
  lemma LaneWorkReverses(a: Transaction, b: Transaction)
    ensures CompareLaneWork(b, a) == -CompareLaneWork(a, b)
    ensures CompareLaneWork(a, b) == 0 ==> a.id == b.id
  {
    CompareStringReverses(a.id, b.id);
  }

  lemma LaneWorkTransitive(a: Transaction, b: Transaction, c: Transaction)
    requires CompareLaneWork(a, b) <= 0 && CompareLaneWork(b, c) <= 0
    ensures CompareLaneWork(a, c) <= 0
    ensures CompareLaneWork(a, b) < 0 ==> CompareLaneWork(a, c) < 0
  {
    CompareStringReverses(a.id, b.id);
    CompareStringReverses(b.id, c.id);
    CompareStringReverses(a.id, c.id);
    if CompareString(a.id, b.id) <= 0 && CompareString(b.id, c.id) <= 0 {
      CompareStringTransitive(a.id, b.id, c.id);
    }
  }

  /** a comes before b in the dictionary: they agree up to some place, where a ends or has the smaller character. */
  ghost predicate Before(a: string, b: string) {
    exists k :: DifferAt(a, b, k)
  }

  ghost predicate DifferAt(a: string, b: string, k: int) {
    && 0 <= k <= |a| && k < |b| && (forall i :: 0 <= i < k ==> a[i] == b[i])
    && (k == |a| || a[k] < b[k])
  }

  /** "assigned_nonce ASC NULLS LAST, next_action_at, created_at, id", spelled out. */
  ghost predicate WorksBefore(a: Transaction, b: Transaction) {
    if a.assignedNonce.Some? && b.assignedNonce != a.assignedNonce then
      b.assignedNonce.None? || a.assignedNonce.value < b.assignedNonce.value
    else
      a.assignedNonce == b.assignedNonce && ScheduledBefore(a, b)
  }

  ghost predicate ScheduledBefore(a: Transaction, b: Transaction) {
    || a.nextActionAt < b.nextActionAt
    || (a.nextActionAt == b.nextActionAt && a.createdAt < b.createdAt)
    || (a.nextActionAt == b.nextActionAt && a.createdAt == b.createdAt && Before(a.id, b.id))
  }

  lemma {:induction false} CompareStringMeans(a: string, b: string)
    ensures CompareString(a, b) < 0 <==> Before(a, b)
  {
    if a == [] || b == [] || a[0] != b[0] {
      assert DifferAt(a, b, 0) <==> CompareString(a, b) < 0;
    } else {
      CompareStringMeans(a[1..], b[1..]);
      if Before(a[1..], b[1..]) {
        var k :| DifferAt(a[1..], b[1..], k);
        assert forall i :: 1 <= i < k + 1 ==> a[i] == a[1..][i - 1] && b[i] == b[1..][i - 1];
        assert DifferAt(a, b, k + 1);
      }
      if Before(a, b) {
        var k :| DifferAt(a, b, k);
        assert forall i :: 0 <= i < k - 1 ==> a[i + 1] == a[1..][i] && b[i + 1] == b[1..][i];
        assert DifferAt(a[1..], b[1..], k - 1);
      }
    }
  }

  /** The comparison is that order. */
  lemma CompareMeans(a: Transaction, b: Transaction)
    ensures CompareLaneWork(a, b) < 0 <==> WorksBefore(a, b)
  {
    CompareStringMeans(a.id, b.id);
  }

  predicate LaneReady(t: Transaction, lane: Lane, now: nat) {
    t.lane == lane && !t.IsCompleted() && t.nextActionAt <= now
  }

  ghost predicate InOrder(s: seq<Transaction>) {
    forall i, j :: 0 <= i < j < |s| ==> CompareLaneWork(s[i], s[j]) < 0
  }

  function Place(s: seq<Transaction>, t: Transaction): seq<Transaction> {
    if s == [] || CompareLaneWork(t, s[0]) < 0 then [t] + s
    else [s[0]] + Place(s[1..], t)
  }

  lemma PutFirst(t: Transaction, s: seq<Transaction>)
    requires InOrder(s) && forall x :: x in s ==> CompareLaneWork(t, x) < 0
    ensures InOrder([t] + s)
  {
    hide CompareLaneWork;
    var r := [t] + s;
    forall i, j | 0 <= i < j < |r| ensures CompareLaneWork(r[i], r[j]) < 0 {
      assert r[j] == s[j - 1] && s[j - 1] in s;
    }
  }

  lemma {:induction false} PlaceKeepsOrder(s: seq<Transaction>, t: Transaction)
    requires InOrder(s) && forall i :: 0 <= i < |s| ==> s[i].id != t.id
    ensures InOrder(Place(s, t))
    ensures forall x :: x in Place(s, t) <==> x in s || x == t
  {
    hide CompareLaneWork;
    if s == [] {
    } else if CompareLaneWork(t, s[0]) < 0 {
      forall x | x in s ensures CompareLaneWork(t, x) < 0 {
        var j :| 0 <= j < |s| && s[j] == x;
        HeadFirst(s, j);
        LaneWorkTransitive(t, s[0], x);
      }
      PutFirst(t, s);
    } else {
      LaneWorkReverses(t, s[0]);
      PlaceKeepsOrder(s[1..], t);
      PutFirst(s[0], Place(s[1..], t));
    }
  }

  lemma HeadFirst(s: seq<Transaction>, k: nat)
    requires InOrder(s) && k < |s|
    ensures CompareLaneWork(s[0], s[k]) <= 0
  {
    LaneWorkReverses(s[0], s[0]);
  }

  /** A ready row that did not make it into a full selection comes after everything selected. */
  ghost predicate Crowded(r: seq<Transaction>, limit: nat, t: Transaction) {
    limit > 0 && |r| == limit && forall i :: 0 <= i < |r| ==> CompareLaneWork(r[i], t) < 0
  }

  /** The first `limit` ready rows of the lane in lane-work order; a limit of zero is no limit. */
  ghost predicate Selects(rows: map<Id, Transaction>, lane: Lane, now: nat, limit: nat, r: seq<Transaction>) {
    && (limit > 0 ==> |r| <= limit) && InOrder(r)
    && (forall t :: t in r ==> t.id in rows && rows[t.id] == t && LaneReady(t, lane, now))
    && (forall id :: id in rows && LaneReady(rows[id], lane, now) && rows[id] !in r ==> Crowded(r, limit, rows[id]))
  }

  method SelectLaneWork(rows: map<Id, Transaction>, lane: Lane, now: nat, limit: nat) returns (r: seq<Transaction>)
    requires forall id :: id in rows ==> rows[id].id == id
    ensures Selects(rows, lane, now, limit, r)
  {
    hide InOrder, CompareLaneWork, Selects;
    var all: seq<Transaction> := [];
    var remaining := rows.Keys;
    NoneInOrder();
    while remaining != {}
      invariant remaining <= rows.Keys
      invariant InOrder(all)
      invariant forall t :: t in all <==>
        t.id in rows && t.id !in remaining && rows[t.id] == t && LaneReady(t, lane, now)
      decreases |remaining|
    {
      var id :| id in remaining;
      remaining := remaining - {id};
      if LaneReady(rows[id], lane, now) {
        PlaceKeepsOrder(all, rows[id]);
        all := Place(all, rows[id]);
      }
    }
    r := if limit > 0 && |all| > limit then all[..limit] else all;
    FirstOnes(rows, lane, now, limit, all);
  }

  lemma NoneInOrder()
    ensures InOrder([])
  {
  }

  lemma FirstOnes(rows: map<Id, Transaction>, lane: Lane, now: nat, limit: nat, all: seq<Transaction>)
    requires InOrder(all) && forall t :: t in all <==> t.id in rows && rows[t.id] == t && LaneReady(t, lane, now)
    requires forall id :: id in rows ==> rows[id].id == id
    ensures Selects(rows, lane, now, limit, if limit > 0 && |all| > limit then all[..limit] else all)
  {
    hide CompareLaneWork, LaneReady;
    var r := if limit > 0 && |all| > limit then all[..limit] else all;
    assert forall k :: 0 <= k < |r| ==> all[k] == r[k] && r[k] in r;
    forall id | id in rows && LaneReady(rows[id], lane, now) && rows[id] !in r ensures Crowded(r, limit, rows[id]) {
      var j :| 0 <= j < |all| && all[j] == rows[id];
      assert |r| <= j;
    }
  }

  /** A batch is worked through in ascending order of nonces, rows without one last; where the nonces do not decide, in
      the order of schedule, age and id. */
  lemma BatchAscends(rows: map<Id, Transaction>, lane: Lane, now: nat, limit: nat, r: seq<Transaction>, i: nat, j: nat)
    requires Selects(rows, lane, now, limit, r) && i < j < |r|
    ensures WorksBefore(r[i], r[j])
    ensures r[i].assignedNonce.Some? && r[j].assignedNonce.Some? ==>
      r[i].assignedNonce.value <= r[j].assignedNonce.value
    ensures r[i].assignedNonce.None? ==> r[j].assignedNonce.None?
    ensures r[i].assignedNonce == r[j].assignedNonce ==> r[i].nextActionAt <= r[j].nextActionAt
  {
    CompareMeans(r[i], r[j]);
  }

  /** A ready row that was left out comes after every row that was taken, and only a full batch leaves one out. */
  lemma LeftOutComesLater(rows: map<Id, Transaction>, lane: Lane, now: nat, limit: nat, r: seq<Transaction>, id: Id,
                          i: nat)
    requires Selects(rows, lane, now, limit, r) && i < |r|
    requires id in rows && LaneReady(rows[id], lane, now) && rows[id] !in r
    ensures limit > 0 && |r| == limit && WorksBefore(r[i], rows[id])
  {
    CompareMeans(r[i], rows[id]);
  }

  /** Durable nonce owners go first: a batch holds an unassigned row only when every ready nonce owner of the
      lane is in the batch too, so no limit lets new work starve an owned nonce. */
  lemma NonceOwnersFirst(rows: map<Id, Transaction>, lane: Lane, now: nat, limit: nat, r: seq<Transaction>, i: nat,
                         id: Id)
    requires Selects(rows, lane, now, limit, r)
    requires i < |r| && r[i].assignedNonce.None?
    requires id in rows && LaneReady(rows[id], lane, now) && rows[id].assignedNonce.Some?
    ensures rows[id] in r
  {
    assert CompareLaneWork(r[i], rows[id]) == 1;
  }

  /** No row is selected twice. */
  lemma SelectedOnce(rows: map<Id, Transaction>, lane: Lane, now: nat, limit: nat, r: seq<Transaction>, i: nat, j: nat)
    requires Selects(rows, lane, now, limit, r) && i < j < |r|
    ensures r[i].id != r[j].id
  {
    assert r[i] in r && r[j] in r;
    LaneWorkReverses(r[i], r[i]);
    assert CompareLaneWork(r[i], r[j]) < 0;
  }
}
