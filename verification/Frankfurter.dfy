/**
 The exchange-rate cache of providers/frankfurter/frankfurter.go. Dates are day numbers counted from the zero
 time, instants and durations are nanoseconds, cache keys are (base, date) pairs. Every critical section of the
 cache lock is one method, and other callers run between them.
 */
module Frankfurter {
  import opened TxTypes

  const DAY: nat := 86_400_000_000_000

  type Date = nat
  type Key = (string, Date)

  datatype Rate = Rate(date: Date, base: string, quote: string, value: real, stale: bool)

  /** A decoded row: the date may not parse, and None as rate is NaN or an infinity. Currencies are normalized. */
  datatype Row = Row(date: Option<Date>, base: string, quote: string, rate: Option<real>)

  type Table = map<Key, map<string, Rate>>

  /** What a cache entry says is true: an observation of that pair, not from after the day it is filed under, not too
      old for it, and marked stale exactly when it is from an earlier day. */
  predicate Honest(maxStaleness: nat, base: string, date: Date, quote: string, r: Rate) {
    && r.base == base && r.quote == quote && r.value > 0.0
    && r.date <= date && (date - r.date) * DAY <= maxStaleness
    && (r.stale <==> r.date < date)
  }

  ghost predicate HonestTable(maxStaleness: nat, t: Table) {
    forall k, q :: k in t && q in t[k] ==> Honest(maxStaleness, k.0, k.1, q, t[k][q])
  }

  // ----- decodeRates -----

  predicate PositiveFinite(rate: Option<real>) {
    rate.Some? && rate.value > 0.0
  }

  /** The row is about the expected base, names a quote, and is dated within the range. */
  predicate Usable(row: Option<Row>, base: string, from: int, to: Date) {
    && row.Some? && row.value.date.Some? && from <= row.value.date.value * DAY && row.value.date.value <= to
    && row.value.base == base && row.value.quote != ""
  }

  datatype Mention = Never | Once(row: Row) | Often

  /** How the rows speak of one quote on one day. */
  function Mentions(rows: seq<Option<Row>>, base: string, from: int, to: Date, date: Date, quote: string): Mention {
    if rows == [] then Never
    else
      var before := Mentions(rows[..|rows| - 1], base, from, to, date, quote);
      var last := rows[|rows| - 1];
      if Usable(last, base, from, to) && last.value.date.value == date && last.value.quote == quote
      then if before.Never? then Once(last.value) else Often
      else before
  }

  /** The rate of a day is taken from the one row that states it, if that is positive and finite. */
  ghost predicate Decoded(t: Table, rows: seq<Option<Row>>, base: string, from: int, to: Date) {
    && (forall k :: k in t ==> k.0 == base)
    && (forall date: Date, quote: string :: (base, date) in t && quote in t[(base, date)] <==>
         var m := Mentions(rows, base, from, to, date, quote);
         m.Once? && PositiveFinite(m.row.rate))
    && (forall date: Date, quote: string :: (base, date) in t && quote in t[(base, date)] ==>
         var m := Mentions(rows, base, from, to, date, quote);
         m.Once? && m.row.rate.Some? && t[(base, date)][quote] == Rate(date, base, quote, m.row.rate.value, false))
  }

  ghost predicate SeenOk(seen: set<(Date, string)>, rows: seq<Option<Row>>, base: string, from: int, to: Date) {
    forall date: Date, quote: string :: (date, quote) in seen <==> !Mentions(rows, base, from, to, date, quote).Never?
  }

  /** None is an empty response. */
  method DecodeRates(rows: seq<Option<Row>>, base: string, from: int, to: Date) returns (r: Option<Table>)
    ensures r.None? <==> rows == []
    ensures r.Some? ==> Decoded(r.value, rows, base, from, to) && r.value.Keys <= DaysStated(rows, base)
  {
    if |rows| == 0 {
      return None;
    }
    var t: Table := map[];
    var seen: set<(Date, string)> := {};
    for k := 0 to |rows|
      invariant t.Keys <= DaysStated(rows, base)
      invariant Decoded(t, rows[..k], base, from, to) && SeenOk(seen, rows[..k], base, from, to)
    {
      assert rows[..k + 1] == rows[..k] + [rows[k]];
      if Usable(rows[k], base, from, to) {
        var row := rows[k].value;
        var date, quote := row.date.value, row.quote;
        var daily := if (base, date) in t then t[(base, date)] else map[];
        if (date, quote) in seen {
          if (base, date) in t {
            t := t[(base, date) := daily - {quote}];
          }
        } else {
          seen := seen + {(date, quote)};
          if PositiveFinite(row.rate) {
            t := t[(base, date) := daily[quote := Rate(date, base, quote, row.rate.value, false)]];
          }
        }
      }
    }
    assert rows[..|rows|] == rows;
    r := Some(t);
  }

  /** Mentioned once: exactly one usable row is about that quote on that day. */
  lemma {:induction false} OnceMeansUnique(rows: seq<Option<Row>>, base: string, from: int, to: Date, date: Date,
                                           quote: string)
    ensures
      match Mentions(rows, base, from, to, date, quote)
      case Never => forall i :: 0 <= i < |rows| ==> !About(rows[i], base, from, to, date, quote)
      case Once(row) => OnlyRow(rows, row, base, from, to, date, quote)
      case Often => Twice(rows, base, from, to, date, quote)
  {
    if rows != [] {
      var front := rows[..|rows| - 1];
      OnceMeansUnique(front, base, from, to, date, quote);
      assert rows == front + [rows[|rows| - 1]];
      match Mentions(front, base, from, to, date, quote)
      case Never =>
        if About(rows[|rows| - 1], base, from, to, date, quote) {
          assert OnlyAt(rows, |rows| - 1, base, from, to, date, quote);
        }
      case Once(row) =>
        var i :| OnlyAt(front, i, base, from, to, date, quote) && front[i] == Some(row);
        if !About(rows[|rows| - 1], base, from, to, date, quote) {
          assert OnlyAt(rows, i, base, from, to, date, quote);
        } else {
          assert About(rows[i], base, from, to, date, quote);
        }
      case Often =>
        var i, j :| 0 <= i < j < |front| && About(front[i], base, from, to, date, quote) &&
            About(front[j], base, from, to, date, quote);
        assert About(rows[i], base, from, to, date, quote) && About(rows[j], base, from, to, date, quote);
    }
  }

  predicate About(row: Option<Row>, base: string, from: int, to: Date, date: Date, quote: string) {
    Usable(row, base, from, to) && row.value.date.value == date && row.value.quote == quote
  }

  ghost predicate OnlyAt(rows: seq<Option<Row>>, i: int, base: string, from: int, to: Date, date: Date, quote: string) {
    && 0 <= i < |rows| && About(rows[i], base, from, to, date, quote)
    && forall j :: 0 <= j < |rows| && j != i ==> !About(rows[j], base, from, to, date, quote)
  }

  ghost predicate OnlyRow(rows: seq<Option<Row>>, row: Row, base: string, from: int, to: Date, date: Date,
                          quote: string) {
    exists i :: OnlyAt(rows, i, base, from, to, date, quote) && rows[i] == Some(row)
  }

  ghost predicate Twice(rows: seq<Option<Row>>, base: string, from: int, to: Date, date: Date, quote: string) {
    exists i, j :: 0 <= i < j < |rows| && About(rows[i], base, from, to, date, quote) &&
        About(rows[j], base, from, to, date, quote)
  }

  lemma DecodedIsHonest(t: Table, rows: seq<Option<Row>>, base: string, from: int, to: Date, maxStaleness: nat)
    requires Decoded(t, rows, base, from, to)
    ensures HonestTable(maxStaleness, t)
  {
    hide Mentions;
    forall k, q | k in t && q in t[k] ensures Honest(maxStaleness, k.0, k.1, q, t[k][q]) {
      assert k == (base, k.1);
      var m := Mentions(rows, base, from, to, k.1, q);
      assert m.Once? && PositiveFinite(m.row.rate);
    }
  }

  // ----- the cache -----

  function Merged(old': Table, new': Table, k: Key): map<string, Rate>
    requires k in old' || k in new'
  {
    (if k in old' then old'[k] else map[]) + (if k in new' then new'[k] else map[])
  }

  /** Merge the rates of one day of t. */
  function Put(rates: Table, t: Table, key: Key): Table
    requires key in t
  {
    rates[key := (if key in rates then rates[key] else map[]) + t[key]]
  }

  /** Bookkeeping of the cache: every day has a place in storing order, no two the same. */
  ghost predicate Tracked(rates: Table, storedAt: map<Key, nat>, sequence: nat) {
    && rates.Keys == storedAt.Keys
    && (forall k :: k in storedAt ==> storedAt[k] <= sequence)
    && (forall k, l :: k in storedAt && l in storedAt && k != l ==> storedAt[k] != storedAt[l])
  }

  /** Whatever left the cache had been stored before everything that stayed. */
  ghost predicate OldestLeft(before: map<Key, nat>, after: map<Key, nat>) {
    && (forall k :: k in after ==> k in before && after[k] == before[k])
    && (forall k, l :: k in before && k !in after && l in after ==> before[k] < before[l])
  }

  /** What the rates, their storing order and the sequence number are after some days of t have been merged in. */
  ghost predicate MergedIn(old': Table, oldStored: map<Key, nat>, oldSequence: nat, t: Table, done: set<Key>,
                           rates: Table, stored: map<Key, nat>, sequence: nat) {
    && Tracked(rates, stored, sequence) && sequence >= oldSequence
    && rates.Keys == old'.Keys + done
    && (forall k :: k in old' && k !in done ==>
            rates[k] == old'[k] && k in stored && k in oldStored && stored[k] == oldStored[k])
    && (forall k :: k in done ==> k in t && rates[k] == Merged(old', t, k) && k in stored && stored[k] > oldSequence)
  }

  lemma MergeOne(old': Table, oldStored: map<Key, nat>, oldSequence: nat, t: Table, done: set<Key>, rates: Table,
                 stored: map<Key, nat>, sequence: nat, key: Key)
    requires MergedIn(old', oldStored, oldSequence, t, done, rates, stored, sequence) && key in t && key !in done
    ensures MergedIn(old', oldStored, oldSequence, t, done + {key}, Put(rates, t, key), stored[key := sequence + 1],
                     sequence + 1)
  {
    hide Tracked, Merged, Put;
    TrackOne(rates, stored, sequence, t, key);
    PutOne(rates, t, key);
    MergedNow(old', t, rates, key);
  }

  lemma MergedNow(old': Table, t: Table, rates: Table, key: Key)
    requires key in t && (key in rates <==> key in old') && (key in old' ==> rates[key] == old'[key])
    ensures Put(rates, t, key)[key] == Merged(old', t, key)
  {
  }

  lemma PutOne(rates: Table, t: Table, key: Key)
    requires key in t
    ensures Put(rates, t, key).Keys == rates.Keys + {key}
    ensures forall k :: k in rates && k != key ==> Put(rates, t, key)[k] == rates[k]
  {
  }

  lemma TrackOne(rates: Table, stored: map<Key, nat>, sequence: nat, t: Table, key: Key)
    requires Tracked(rates, stored, sequence) && key in t
    ensures Tracked(Put(rates, t, key), stored[key := sequence + 1], sequence + 1)
  {
  }

  /** Days left oldest first; the rest is untouched. */
  ghost predicate Evicted(old': Table, oldStored: map<Key, nat>, rates: Table, stored: map<Key, nat>, sequence: nat) {
    && Tracked(rates, stored, sequence) && OldestLeft(oldStored, stored)
    && (forall k :: k in rates ==> k in old' && rates[k] == old'[k])
  }

  lemma EvictOne(old': Table, oldStored: map<Key, nat>, rates: Table, stored: map<Key, nat>, sequence: nat, key: Key)
    requires Evicted(old', oldStored, rates, stored, sequence)
    requires key in stored && forall k :: k in stored && k != key ==> stored[key] < stored[k]
    ensures Evicted(old', oldStored, rates - {key}, stored - {key}, sequence) && |rates - {key}| == |rates| - 1
  {
    assert (rates - {key}).Keys == rates.Keys - {key};
    assert |rates.Keys - {key}| == |rates.Keys| - 1;
  }

  /** The day a request is about: today when it names none or one that has not come yet. */
  function EffectiveDate(effectiveAt: Option<nat>, now: nat): (d: Date)
    ensures d <= now / DAY && (effectiveAt.Some? ==> d <= effectiveAt.value / DAY)
    ensures d == now / DAY || (effectiveAt.Some? && d == effectiveAt.value / DAY)
  {
    var today := now / DAY;
    if effectiveAt.None? then today
    else if effectiveAt.value / DAY > today then today
    else effectiveAt.value / DAY
  }

  /** A rate filed under another day. */
  function Fallback(base: string, date: Date, rate: Rate): Table {
    map[(base, date) := map[rate.quote := rate]]
  }

  predicate HoldsFresh(rates: Table, k: Key, quote: string) {
    k in rates && quote in rates[k] && !rates[k][quote].stale
  }

  /** Somewhere an observation of the day itself has given way to an older one. */
  ghost predicate FreshLost(before: Table, after: Table) {
    exists k, q :: HoldsFresh(before, k, q) && k in after && q in after[k] && after[k][q].stale
  }

  datatype Failure = Failure(retryAfter: nat)

  // ----- what one call did -----

  /** The steps of a call, in order. */
  datatype Act =
    | Looked(base: string, date: Date, quote: string, found: Option<Rate>)
    | Suppressed(base: string, date: Date)           // a recent failure stands in for the request
    | Refused                                        // cancelled while waiting for its turn
    | Fetched(base: string, date: Date, ok: bool)
    | FellBack(base: string, date: Date, quote: string, served: Option<Rate>)

  /** Why a call may fall back on an older rate: it was not allowed to ask, asked in vain, or found that the answer does
      not state the rate. */
  predicate MayFallBack(why: Act, base: string, date: Date, quote: string) {
    why == Suppressed(base, date) || why == Fetched(base, date, false) || why == Looked(base, date, quote, None)
  }

  /** A call that has to look the pair up returns what its last step found: the cached rate of the very day, or, only
      where a fallback is due, the fallback. */
  ghost predicate EndsWith(before: seq<Act>, after: seq<Act>, base: string, date: Date, quote: string, admitted: bool,
                           r: Option<Rate>) {
    && before <= after && |before| < |after|
    && var last := after[|after| - 1];
      || (r.Some? && last == Looked(base, date, quote, r))
      || (r.None? && !admitted && last == Refused)
      || (&& last == FellBack(base, date, quote, r) && |before| + 1 < |after|
          && MayFallBack(after[|after| - 2], base, date, quote))
  }

  lemma EndsLater(before: seq<Act>, middle: seq<Act>, after: seq<Act>, base: string, date: Date, quote: string,
                  sure: bool, admitted: bool, r: Option<Rate>)
    requires before <= middle && (admitted ==> sure) && EndsWith(middle, after, base, date, quote, sure, r)
    ensures EndsWith(before, after, base, date, quote, admitted, r)
  {
  }

  lemma EndedByLook(before: seq<Act>, after: seq<Act>, base: string, date: Date, quote: string, admitted: bool,
                    r: Option<Rate>)
    requires before < after && r.Some? && after[|after| - 1] == Looked(base, date, quote, r)
    ensures EndsWith(before, after, base, date, quote, admitted, r)
  {
  }

  lemma EndedByRefusal(before: seq<Act>, after: seq<Act>, base: string, date: Date, quote: string, admitted: bool)
    requires before < after && !admitted && after[|after| - 1] == Refused
    ensures EndsWith(before, after, base, date, quote, admitted, None)
  {
  }

  lemma EndedByFallback(before: seq<Act>, after: seq<Act>, base: string, date: Date, quote: string, admitted: bool,
                        r: Option<Rate>)
    requires before <= after && |before| + 1 < |after| && after[|after| - 1] == FellBack(base, date, quote, r)
    requires MayFallBack(after[|after| - 2], base, date, quote)
    ensures EndsWith(before, after, base, date, quote, admitted, r)
  {
  }

  // ----- a response that states the rate -----

  /** The days the rows speak of. */
  function DaysStated(rows: seq<Option<Row>>, base: string): set<Key> {
    set i | 0 <= i < |rows| && rows[i].Some? && rows[i].value.date.Some? :: (base, rows[i].value.date.value)
  }

  /** Where the range ends does not matter to the days before its end. */
  lemma {:induction false} MentionsWithin(rows: seq<Option<Row>>, base: string, from: int, to: Date, date: Date,
                                          quote: string)
    requires date <= to
    ensures Mentions(rows, base, from, to, date, quote) == Mentions(rows, base, from, date, date, quote)
  {
    if rows != [] {
      MentionsWithin(rows[..|rows| - 1], base, from, to, date, quote);
    }
  }

  /** A new batch that fits the cache by itself is in it as a whole. */
  lemma NewDaysFit(old': Table, oldStored: map<Key, nat>, oldSequence: nat, t: Table, limit: nat, rates: Table,
                   stored: map<Key, nat>)
    requires |t| <= limit && StoredContents(old', t, limit, rates)
    requires StoredOrder(old', oldStored, oldSequence, t, rates, stored)
    ensures t.Keys <= rates.Keys
  {
    hide Merged, Outlived;
    assert rates.Keys <= old'.Keys + t.Keys && |rates| == |rates.Keys| && |t| == |t.Keys|;
    if |old'.Keys + t.Keys| <= limit {
      SubsetOfSameSize(rates.Keys, old'.Keys + t.Keys);
    } else {
      forall l | l in t ensures l in rates {
        if l !in rates {
          assert rates.Keys <= t.Keys - {l};
          SubsetIsSmaller(rates.Keys, t.Keys - {l});
        }
      }
    }
  }

  /** The rows have been taken into the cache and nothing else happened to it. */
  ghost predicate TookIn(rows: seq<Option<Row>>, base: string, from: int, to: Date, old': Table,
                         oldStored: map<Key, nat>, oldSequence: nat, limit: nat, rates: Table, stored: map<Key, nat>) {
    exists t: Table :: TookInTable(t, rows, base, from, to, old', oldStored, oldSequence, limit, rates, stored)
  }

  ghost predicate TookInTable(t: Table, rows: seq<Option<Row>>, base: string, from: int, to: Date, old': Table,
                              oldStored: map<Key, nat>, oldSequence: nat, limit: nat, rates: Table,
                              stored: map<Key, nat>) {
    && Decoded(t, rows, base, from, to) && t.Keys <= DaysStated(rows, base)
    && StoredContents(old', t, limit, rates) && StoredOrder(old', oldStored, oldSequence, t, rates, stored)
  }

  lemma {:induction false} SubsetIsSmaller(a: set<Key>, b: set<Key>)
    requires a <= b
    ensures |a| <= |b|
  {
    if a != {} {
      var x :| x in a;
      SubsetIsSmaller(a - {x}, b - {x});
    }
  }

  class Client {
    const quotes: set<string>
    const maxStaleness: nat
    const failureTTL: nat
    const maxCacheDays: nat
    const monthStart: Date -> Date        // the calendar
    const monthLast: Date -> Date
    var clock: nat
    var ratesByDate: Table
    var cacheStoredAt: map<Key, nat>
    var cacheSequence: nat
    var failuresByMonth: map<Key, Failure>
    ghost var stores: seq<Table>          // everything ever given to StoreRates, by anyone
    ghost var trail: seq<Act>             // everything done by this caller
    ghost const alone: bool               // there is no other caller

    constructor (batch: set<string>, staleness: nat, ttl: nat, days: nat,
                 first: Date -> Date, last: Date -> Date, ghost lone: bool)
      ensures Valid() && quotes == batch && maxStaleness == staleness && failureTTL == ttl && maxCacheDays == days
      ensures monthStart == first && monthLast == last && alone == lone
      ensures ratesByDate == map[] && failuresByMonth == map[] && stores == [] && trail == []
    {
      quotes, maxStaleness, failureTTL, maxCacheDays := batch, staleness, ttl, days;
      monthStart, monthLast, clock := first, last, 0;
      ratesByDate, cacheStoredAt, cacheSequence, failuresByMonth := map[], map[], 0, map[];
      stores, trail, alone := [], [], lone;
    }

    ghost predicate Valid()
      reads this
    {
      && Tracked(ratesByDate, cacheStoredAt, cacheSequence)
      && HonestTable(maxStaleness, ratesByDate)
      && |ratesByDate| <= maxCacheDays
    }

    /** Time passed, others may have been at work, and this caller did nothing. */
    twostate predicate Moved()
      reads this
    {
      && old(clock) <= clock && old(stores) <= stores
      && (alone ==> ratesByDate == old(ratesByDate) && cacheStoredAt == old(cacheStoredAt) &&
                    cacheSequence == old(cacheSequence) && failuresByMonth == old(failuresByMonth))
    }

    /** Other callers between two critical sections. The body does nothing; callers see only the contract, which
        every method of this class keeps. */
    method Interfere()
      requires Valid()
      modifies this
      ensures Valid() && Moved() && trail == old(trail)
    {
    }

    function CachedRate(base: string, date: Date, quote: string): (r: Option<Rate>)
      reads this
      requires Valid()
      ensures r.Some? ==> Honest(maxStaleness, base, date, quote, r.value)
    {
      var key := (base, date);
      if key in ratesByDate && quote in ratesByDate[key] then Some(ratesByDate[key][quote]) else None
    }

    /** An earlier observation of the pair that is still young enough for the date. */
    ghost predicate Candidate(rates: Table, base: string, date: Date, quote: string, k: Key) {
      && k in rates && k.0 == base && quote in rates[k]
      && rates[k][quote].date < date && (date - rates[k][quote].date) * DAY <= maxStaleness
    }

    /** Nothing to fall back on: the zero date stands for "none" in the source. */
    ghost predicate NoCandidate(rates: Table, base: string, date: Date, quote: string) {
      forall k :: Candidate(rates, base, date, quote, k) ==> rates[k][quote].date == 0
    }

    /** The newest candidate, by the date it was observed on and not by the day it is filed under. The zero date
        stands for "none" in the source, so an observation of that day is never chosen. */
    method CachedStaleRate(base: string, date: Date, quote: string) returns (r: Option<Rate>)
      requires Valid()
      ensures r.Some? ==> Honest(maxStaleness, base, date, quote, r.value) && r.value.stale
      ensures r.Some? ==>
        exists k :: Candidate(ratesByDate, base, date, quote, k) && r.value == ratesByDate[k][quote].(stale := true)
      ensures maxStaleness > 0 ==>
        forall k :: Candidate(ratesByDate, base, date, quote, k) && ratesByDate[k][quote].date > 0 ==>
        r.Some? && ratesByDate[k][quote].date <= r.value.date
      ensures r.Some? ==> r.value.date > 0
      ensures r.Some? <==> maxStaleness > 0 && !NoCandidate(ratesByDate, base, date, quote)
    {
      r := None;
      if maxStaleness <= 0 {
        return;
      }
      var selected: Option<Rate> := None;
      var remaining := ratesByDate.Keys;
      while remaining != {}
        invariant remaining <= ratesByDate.Keys
        invariant selected.Some? ==>
          exists k :: Candidate(ratesByDate, base, date, quote, k) && selected.value == ratesByDate[k][quote]
        invariant forall k ::
          k !in remaining && Candidate(ratesByDate, base, date, quote, k) && ratesByDate[k][quote].date > 0 ==>
          selected.Some? && ratesByDate[k][quote].date <= selected.value.date
        decreases |remaining|
      {
        var key :| key in remaining;
        remaining := remaining - {key};
        if key.0 == base && quote in ratesByDate[key] {
          var candidate := ratesByDate[key][quote];
          if candidate.date < date && (date - candidate.date) * DAY <= maxStaleness {
            assert Candidate(ratesByDate, base, date, quote, key);
            if selected.None? || selected.value.date == 0 || candidate.date > selected.value.date {
              selected := Some(candidate);
            }
          }
        }
      }
      if selected.Some? && selected.value.date > 0 {
        r := Some(selected.value.(stale := true));
      }
    }

    /** A failed fetch of the month is recent enough to stand for another one. */
    predicate Suppresses(base: string, date: Date)
      reads this
    {
      var key := (base, monthStart(date));
      failureTTL > 0 && key in failuresByMonth && clock < failuresByMonth[key].retryAfter
    }

    /** True while a failed fetch of the month suppresses another one; an expired failure is forgotten. */
    method CachedFailure(base: string, date: Date) returns (failed: bool)
      requires Valid()
      modifies this`failuresByMonth, this`trail
      ensures Valid() && failed == old(Suppresses(base, date))
      ensures trail == if failed then old(trail) + [Suppressed(base, date)] else old(trail)
      ensures
        var key := (base, monthStart(date));
        && failuresByMonth == (if failureTTL == 0 || failed then old(failuresByMonth) else old(failuresByMonth) - {key})
    {
      if failureTTL == 0 {
        return false;
      }
      var key := (base, monthStart(date));
      if key !in failuresByMonth {
        assert failuresByMonth - {key} == failuresByMonth;
        return false;
      }
      if clock >= failuresByMonth[key].retryAfter {
        failuresByMonth := failuresByMonth - {key};
        return false;
      }
      trail := trail + [Suppressed(base, date)];
      return true;
    }

    /** Record a failure; the expired ones are dropped, the running ones stay. */
    method StoreFailure(base: string, date: Date)
      requires Valid()
      modifies this`failuresByMonth
      ensures Valid()
      ensures failureTTL == 0 ==> failuresByMonth == old(failuresByMonth)
      ensures failureTTL > 0 ==> forall k :: k in failuresByMonth <==>
        k == (base, monthStart(date)) || (k in old(failuresByMonth) && clock < old(failuresByMonth)[k].retryAfter)
      ensures failureTTL > 0 ==> failuresByMonth[(base, monthStart(date))] == Failure(clock + failureTTL)
      ensures failureTTL > 0 ==> forall k :: k in failuresByMonth && k != (base, monthStart(date)) ==>
        k in old(failuresByMonth) && failuresByMonth[k] == old(failuresByMonth)[k]
    {
      hide Tracked, HonestTable;
      if failureTTL == 0 {
        return;
      }
      ghost var before := failuresByMonth;
      var remaining := failuresByMonth.Keys;
      while remaining != {}
        invariant remaining <= before.Keys
        invariant forall k :: k in failuresByMonth <==> k in before && (k in remaining || clock < before[k].retryAfter)
        invariant forall k :: k in failuresByMonth ==> failuresByMonth[k] == before[k]
        decreases |remaining|
      {
        var k :| k in remaining;
        remaining := remaining - {k};
        if clock >= failuresByMonth[k].retryAfter {
          failuresByMonth := failuresByMonth - {k};
        }
      }
      failuresByMonth := failuresByMonth[(base, monthStart(date)) := Failure(clock + failureTTL)];
    }

    /** Merge day by day, then evict the days stored longest ago until the limit holds. */
    method StoreRates(t: Table)
      requires Valid() && HonestTable(maxStaleness, t)
      modifies this`ratesByDate, this`cacheStoredAt, this`cacheSequence, this`stores
      ensures Valid() && stores == old(stores) + [t]
      ensures StoredContents(old(ratesByDate), t, maxCacheDays, ratesByDate)
      ensures StoredOrder(old(ratesByDate), old(cacheStoredAt), old(cacheSequence), t, ratesByDate, cacheStoredAt)
    {
      hide Tracked, HonestTable, MergedIn, Evicted, OldestLeft, StoredOrder, StoredContents;
      ghost var rates, stored, sequence := ratesByDate, cacheStoredAt, cacheSequence;
      Merge(t);
      ghost var merged, placed := ratesByDate, cacheStoredAt;
      MergedTracked(rates, stored, sequence, t, merged, placed, cacheSequence);
      Evict();
      EvictedTracked(merged, placed, ratesByDate, cacheStoredAt, cacheSequence);
      ContentsHold(rates, stored, sequence, t, merged, placed, cacheSequence, ratesByDate, cacheStoredAt, maxCacheDays);
      OrderHolds(rates, stored, sequence, t, merged, placed, cacheSequence, ratesByDate, cacheStoredAt);
      StoredHonest(maxStaleness, rates, t, maxCacheDays, ratesByDate);
      stores := stores + [t];
    }

    method Merge(t: Table)
      requires Tracked(ratesByDate, cacheStoredAt, cacheSequence)
      modifies this`ratesByDate, this`cacheStoredAt, this`cacheSequence
      ensures MergedIn(old(ratesByDate), old(cacheStoredAt), old(cacheSequence), t, t.Keys, ratesByDate, cacheStoredAt,
                       cacheSequence)
    {
      hide Tracked, MergedIn;
      var remaining := t.Keys;
      ghost var done: set<Key> := {};
      ghost var rates, stored, sequence := ratesByDate, cacheStoredAt, cacheSequence;
      NothingMerged(rates, stored, sequence, t);
      while remaining != {}
        invariant remaining <= t.Keys && done == t.Keys - remaining
        invariant MergedIn(rates, stored, sequence, t, done, ratesByDate, cacheStoredAt, cacheSequence)
        decreases |remaining|
      {
        var key :| key in remaining;
        MergeDay(t, key, rates, stored, sequence, done);
        remaining, done := remaining - {key}, done + {key};
      }
      assert done == t.Keys;
    }

    method MergeDay(t: Table, key: Key, ghost rates: Table, ghost stored: map<Key, nat>, ghost sequence: nat,
                    ghost done: set<Key>)
      requires MergedIn(rates, stored, sequence, t, done, ratesByDate, cacheStoredAt, cacheSequence) && key in t &&
        key !in done
      modifies this`ratesByDate, this`cacheStoredAt, this`cacheSequence
      ensures MergedIn(rates, stored, sequence, t, done + {key}, ratesByDate, cacheStoredAt, cacheSequence)
    {
      hide Tracked, MergedIn, Put;
      MergeOne(rates, stored, sequence, t, done, ratesByDate, cacheStoredAt, cacheSequence, key);
      ratesByDate := Put(ratesByDate, t, key);
      cacheSequence := cacheSequence + 1;
      cacheStoredAt := cacheStoredAt[key := cacheSequence];
    }

    /** The key stored longest ago. */
    method Oldest() returns (oldest: Key)
      requires Tracked(ratesByDate, cacheStoredAt, cacheSequence) && ratesByDate != map[]
      ensures oldest in cacheStoredAt && forall k :: k in cacheStoredAt && k != oldest ==>
        cacheStoredAt[oldest] < cacheStoredAt[k]
    {
      var remaining := cacheStoredAt.Keys;
      oldest :| oldest in remaining;
      while remaining != {}
        invariant remaining <= cacheStoredAt.Keys && oldest in cacheStoredAt
        invariant forall k :: k in cacheStoredAt && k !in remaining && k != oldest ==>
          cacheStoredAt[oldest] < cacheStoredAt[k]
        decreases |remaining|
      {
        var k :| k in remaining;
        remaining := remaining - {k};
        if cacheStoredAt[k] < cacheStoredAt[oldest] {
          oldest := k;
        }
      }
    }

    method Evict()
      requires Tracked(ratesByDate, cacheStoredAt, cacheSequence)
      modifies this`ratesByDate, this`cacheStoredAt
      ensures Evicted(old(ratesByDate), old(cacheStoredAt), ratesByDate, cacheStoredAt, cacheSequence)
      ensures |ratesByDate| == if |old(ratesByDate)| <= maxCacheDays then |old(ratesByDate)| else maxCacheDays
    {
      hide Tracked, Evicted;
      ghost var rates, stored := ratesByDate, cacheStoredAt;
      NothingEvicted(rates, stored, cacheSequence);
      while |ratesByDate| > maxCacheDays
        invariant Evicted(rates, stored, ratesByDate, cacheStoredAt, cacheSequence)
        invariant |ratesByDate| == |rates| || maxCacheDays <= |ratesByDate| <= |rates|
        decreases |ratesByDate|
      {
        EvictedTracked(rates, stored, ratesByDate, cacheStoredAt, cacheSequence);
        var oldest := Oldest();
        EvictOne(rates, stored, ratesByDate, cacheStoredAt, cacheSequence, oldest);
        ratesByDate := ratesByDate - {oldest};
        cacheStoredAt := cacheStoredAt - {oldest};
      }
    }

    method StoreFallback(base: string, date: Date, rate: Rate)
      requires Valid() && Honest(maxStaleness, base, date, rate.quote, rate) && rate.stale
      modifies this`ratesByDate, this`cacheStoredAt, this`cacheSequence, this`stores
      ensures Valid() && stores == old(stores) + [Fallback(base, date, rate)]
      ensures FreshLost(old(ratesByDate), ratesByDate) <==> HoldsFresh(old(ratesByDate), (base, date), rate.quote)
    {
      hide Tracked, HonestTable, StoredOrder, StoredContents, FreshLost, HoldsFresh;
      ghost var rates := ratesByDate;
      FallbackHonest(maxStaleness, base, date, rate);
      StoreRates(Fallback(base, date, rate.(stale := true)));
      FallbackLoses(rates, base, date, rate, maxCacheDays, ratesByDate);
    }

    /** A look into the cache. */
    method Look(base: string, date: Date, quote: string) returns (r: Option<Rate>)
      requires Valid()
      modifies this`trail
      ensures Valid() && r == CachedRate(base, date, quote) && trail == old(trail) + [Looked(base, date, quote, r)]
    {
      r := CachedRate(base, date, quote);
      trail := trail + [Looked(base, date, quote, r)];
    }

    /** The part of GetRate after a failed or suppressed fetch. */
    method StaleRateOrError(base: string, quote: string, date: Date) returns (r: Option<Rate>)
      requires Valid()
      modifies this
      ensures Valid() && old(clock) <= clock && old(stores) <= stores
      ensures trail == old(trail) + [FellBack(base, date, quote, r)]
      ensures r.Some? ==> Honest(maxStaleness, base, date, quote, r.value) && r.value.stale
      ensures r.Some? ==> |stores| > |old(stores)| && stores[|stores| - 1] == Fallback(base, date, r.value)
      ensures r.None? <==> maxStaleness == 0 || old(NoCandidate(ratesByDate, base, date, quote))
      ensures alone ==> failuresByMonth == old(failuresByMonth)
      ensures alone && r.None? ==> ratesByDate == old(ratesByDate)
    {
      hide Tracked, HonestTable, Honest, Fallback;
      r := CachedStaleRate(base, date, quote);
      Interfere();
      if r.Some? {
        HonestQuote(maxStaleness, base, date, quote, r.value);
        StoreFallback(base, date, r.value);
      }
      trail := trail + [FellBack(base, date, quote, r)];
    }

    /** Observations from before the month are kept as far back as they may still serve. */
    function From(date: Date): int {
      monthStart(date) * DAY - maxStaleness
    }

    /** Some table stored after the first n is what the rows state about the range. */
    ghost predicate StoredSince(n: nat, rows: seq<Option<Row>>, base: string, from: int, to: Date)
      reads this
    {
      exists i :: n <= i < |stores| && Decoded(stores[i], rows, base, from, to)
    }

    /** The last day a request made now asks for. */
    function To(date: Date): Date
      reads this
    {
      if monthLast(date) > clock / DAY then clock / DAY else monthLast(date)
    }

    /** One request for the month around the date, answered by these rows or not at all; whatever it answers, only
        honest entries are stored. */
    method FetchMonth(base: string, date: Date, response: Option<seq<Option<Row>>>) returns (ok: bool)
      requires Valid()
      modifies this
      ensures Valid() && old(clock) <= clock && old(stores) <= stores
      ensures trail == old(trail) + [Fetched(base, date, ok)]
      ensures ok <==> response.Some? && response.value != []
      ensures ok ==> StoredSince(|old(stores)|, response.value, base, From(date), old(To(date)))
      ensures ok ==> (base, monthStart(date)) !in failuresByMonth
      ensures alone && !ok ==> ratesByDate == old(ratesByDate) && failuresByMonth == old(failuresByMonth)
      ensures alone && ok ==>
        TookIn(response.value, base, From(date), old(To(date)), old(ratesByDate), old(cacheStoredAt),
               old(cacheSequence), maxCacheDays, ratesByDate, cacheStoredAt)
      ensures alone && ok ==> failuresByMonth == old(failuresByMonth) - {(base, monthStart(date))}
    {
      hide Tracked, HonestTable, Decoded, StoredOrder, StoredContents, From;
      var from, end := From(date), monthLast(date);
      if end > clock / DAY {
        end := clock / DAY;
      }
      ok := false;
      if response.Some? {
        var rates := DecodeRates(response.value, base, from, end);
        if rates.Some? {
          KeepMonth(base, date, rates.value, response.value, from, end);
          assert alone ==>
            TookInTable(rates.value, response.value, base, from, end, old(ratesByDate), old(cacheStoredAt),
                                       old(cacheSequence), maxCacheDays, ratesByDate, cacheStoredAt);
          ok := true;
        }
      }
      trail := trail + [Fetched(base, date, ok)];
    }

    /** Store what a response states and forget the month's failure. */
    method KeepMonth(base: string, date: Date, rates: Table, ghost rows: seq<Option<Row>>, ghost from: int,
                     ghost to: Date)
      requires Valid() && Decoded(rates, rows, base, from, to)
      modifies this
      ensures Valid() && old(clock) <= clock && old(stores) <= stores && trail == old(trail)
      ensures StoredSince(|old(stores)|, rows, base, from, to) && (base, monthStart(date)) !in failuresByMonth
      ensures alone ==> failuresByMonth == old(failuresByMonth) - {(base, monthStart(date))}
      ensures alone ==> StoredContents(old(ratesByDate), rates, maxCacheDays, ratesByDate)
      ensures alone ==>
        StoredOrder(old(ratesByDate), old(cacheStoredAt), old(cacheSequence), rates, ratesByDate, cacheStoredAt)
    {
      hide Tracked, HonestTable, Decoded, StoredOrder, StoredContents;
      Interfere();
      DecodedIsHonest(rates, rows, base, from, to, maxStaleness);
      ghost var at := |stores|;
      StoreRates(rates);
      Interfere();
      assert stores[at] == rates;
      failuresByMonth := failuresByMonth - {(base, monthStart(date))};
    }

    /** The response settles the pair: one row states it for the day, with a positive rate, the day lies in its month,
        and the days of the response fit the cache. */
    ghost predicate States(response: Option<seq<Option<Row>>>, base: string, quote: string, date: Date, value: real) {
      && response.Some? && response.value != [] && date <= monthLast(date)
      && |DaysStated(response.value, base)| <= maxCacheDays
      && value > 0.0
      && Mentions(response.value, base, From(date), date, date, quote)
         == Once(Row(Some(date), base, quote, Some(value)))
    }

    /** In the middle of any other traffic, a returned rate is an observation of the pair from the effective day or an
        earlier one, never older than the limit allows for that day, and says truly whether it is stale: a fallback
        served from a cached fallback does not add up. It is the cached rate of the day where there is one; an older one
        is served only when asking was suppressed or failed, or when a look after the last answer found nothing. A lone
        caller gets exactly what a response states. */
    method GetRate(base: string, quote: string, effectiveAt: Option<nat>, response: Option<seq<Option<Row>>>,
                   admitted: bool, cancelled: bool)
      returns (r: Option<Rate>, ghost effective: Date)
      requires Valid()
      modifies this
      ensures Valid() && old(clock) <= clock && old(stores) <= stores
      ensures effective == EffectiveDate(effectiveAt, old(clock))
      ensures r.Some? ==> base != "" && quote != "" && Honest(maxStaleness, base, effective, quote, r.value)
      ensures base != "" && base == quote ==> r == Some(Rate(effective, base, quote, 1.0, false))
      ensures base != quote && quotes != {} && quote !in quotes ==> r.None?
      ensures base != "" && quote != "" && base != quote && (quotes == {} || quote in quotes) ==>
        EndsWith(old(trail), trail, base, effective, quote, admitted, r)
      ensures base != "" && quote != "" && base != quote && (quotes == {} || quote in quotes) &&
        old(CachedRate(base, EffectiveDate(effectiveAt, clock), quote)).Some?
        ==> r == old(CachedRate(base, EffectiveDate(effectiveAt, clock), quote)) && unchanged(`ratesByDate, `stores)
      ensures base != "" && quote != "" && base != quote && (quotes == {} || quote in quotes) &&
        alone && admitted && old(CachedRate(base, EffectiveDate(effectiveAt, clock), quote)).None? &&
        !old(Suppresses(base, EffectiveDate(effectiveAt, clock)))
        ==> LoneAnswer(old(ratesByDate), old(clock), base, quote, effective, response, cancelled, r)
    {
      hide Tracked, HonestTable, EndsWith, LoneAnswer;
      var date := EffectiveDate(effectiveAt, clock);
      effective := date;
      if base == "" || quote == "" {
        return None, effective;
      }
      if base == quote {
        return Some(Rate(date, base, quote, 1.0, false)), effective;
      }
      if quotes != {} && quote !in quotes {
        return None, effective;
      }
      r := Lookup(base, quote, date, response, admitted, cancelled);
    }

    /** What a lone caller gets for a pair that has to be asked for: the rate the response states; without a response
        the newest observation that is young enough, if there is one, and the failure is remembered unless the caller
        gave up. */
    ghost predicate LoneAnswer(before: Table, since: nat, base: string, quote: string, date: Date,
                               response: Option<seq<Option<Row>>>, cancelled: bool, r: Option<Rate>)
      reads this
    {
      if response.None? || response.value == [] then
        && (r.None? <==> maxStaleness == 0 || NoCandidate(before, base, date, quote)) && (r.Some? ==> r.value.stale)
        && (failureTTL > 0 ==> Remembered(since, base, date, !cancelled))
      else
        && (base, monthStart(date)) !in failuresByMonth
        && forall value :: States(response, base, quote, date, value) ==>
             r == Some(Rate(date, base, quote, value, false))
    }

    /** The month counts as failed for the full time since then, or not at all. */
    predicate Remembered(since: nat, base: string, date: Date, failed: bool)
      reads this
    {
      var month := (base, monthStart(date));
      && (month in failuresByMonth <==> failed)
      && (failed ==> failuresByMonth[month].retryAfter >= since + failureTTL)
    }

    lemma AnswerSince(before: Table, since: nat, later: nat, base: string, quote: string, date: Date,
                      response: Option<seq<Option<Row>>>, cancelled: bool, r: Option<Rate>)
      requires since <= later && LoneAnswer(before, later, base, quote, date, response, cancelled, r)
      ensures LoneAnswer(before, since, base, quote, date, response, cancelled, r)
    {
      hide States, NoCandidate;
    }

    /** GetRate for a pair that has to be looked up. */
    method Lookup(base: string, quote: string, date: Date, response: Option<seq<Option<Row>>>, admitted: bool,
                  cancelled: bool) returns (r: Option<Rate>)
      requires Valid() && date <= clock / DAY
      modifies this
      ensures Valid() && old(clock) <= clock && old(stores) <= stores
      ensures r.Some? ==> Honest(maxStaleness, base, date, quote, r.value)
      ensures EndsWith(old(trail), trail, base, date, quote, admitted, r)
      ensures old(CachedRate(base, date, quote)).Some? ==>
        r == old(CachedRate(base, date, quote)) && unchanged(`ratesByDate, `stores)
      ensures alone && admitted && old(CachedRate(base, date, quote)).None? && !old(Suppresses(base, date)) ==>
        LoneAnswer(old(ratesByDate), old(clock), base, quote, date, response, cancelled, r)
    {
      hide Tracked, HonestTable, Honest, LoneAnswer, EndsWith;
      ghost var start, rates := clock, ratesByDate;
      r := Look(base, date, quote);
      if r.Some? {
        EndedByLook(old(trail), trail, base, date, quote, admitted, r);
        return;
      }
      Interfere();
      var failed := CachedFailure(base, date);
      Interfere();
      if failed {
        r := StaleRateOrError(base, quote, date);
        EndedByFallback(old(trail), trail, base, date, quote, admitted, r);
        return;
      }
      if !admitted {
        trail := trail + [Refused];
        EndedByRefusal(old(trail), trail, base, date, quote, admitted);
        return None;
      }
      ghost var middle, later := trail, clock;
      r := AskInTurn(base, quote, date, response, cancelled);
      EndsLater(old(trail), middle, trail, base, date, quote, true, admitted, r);
      if LoneAnswer(rates, later, base, quote, date, response, cancelled, r) {
        AnswerSince(rates, start, later, base, quote, date, response, cancelled, r);
      }
    }

    /** The part of GetRate under the gate that lets one request through at a time. */
    method AskInTurn(base: string, quote: string, date: Date, response: Option<seq<Option<Row>>>, cancelled: bool)
      returns (r: Option<Rate>)
      requires Valid() && date <= clock / DAY
      modifies this
      ensures Valid() && old(clock) <= clock && old(stores) <= stores
      ensures r.Some? ==> Honest(maxStaleness, base, date, quote, r.value)
      ensures EndsWith(old(trail), trail, base, date, quote, true, r)
      ensures alone && old(CachedRate(base, date, quote)).None? && !old(Suppresses(base, date)) ==>
        LoneAnswer(old(ratesByDate), old(clock), base, quote, date, response, cancelled, r)
    {
      hide Tracked, HonestTable, Honest, LoneAnswer, EndsWith;
      ghost var start, rates := clock, ratesByDate;
      r := Look(base, date, quote);
      if r.Some? {
        EndedByLook(old(trail), trail, base, date, quote, true, r);
        return;
      }
      Interfere();
      var failed := CachedFailure(base, date);
      Interfere();
      if failed {
        r := StaleRateOrError(base, quote, date);
        EndedByFallback(old(trail), trail, base, date, quote, true, r);
        return;
      }
      ghost var middle, later := trail, clock;
      r := FetchAndLookup(base, quote, date, response, cancelled);
      EndsLater(old(trail), middle, trail, base, date, quote, true, true, r);
      if LoneAnswer(rates, later, base, quote, date, response, cancelled, r) {
        AnswerSince(rates, start, later, base, quote, date, response, cancelled, r);
      }
    }

    method FetchAndLookup(base: string, quote: string, date: Date, response: Option<seq<Option<Row>>>, cancelled: bool)
      returns (r: Option<Rate>)
      requires Valid() && date <= clock / DAY
      modifies this
      ensures Valid() && old(clock) <= clock && old(stores) <= stores
      ensures r.Some? ==> Honest(maxStaleness, base, date, quote, r.value)
      ensures EndsWith(old(trail), trail, base, date, quote, true, r)
      ensures alone && (failureTTL > 0 ==> (base, monthStart(date)) !in old(failuresByMonth)) ==>
        LoneAnswer(old(ratesByDate), old(clock), base, quote, date, response, cancelled, r)
    {
      hide Tracked, HonestTable, Honest, TookIn, States, NoCandidate, EndsWith;
      ghost var rates, stored, sequence, to := ratesByDate, cacheStoredAt, cacheSequence, To(date);
      var ok := FetchMonth(base, date, response);
      if alone && ok {
        TakenRates(response, base, quote, date, to, rates, stored, sequence);
      }
      Interfere();
      if !ok {
        r := AfterFailure(base, quote, date, cancelled);
        EndedByFallback(old(trail), trail, base, date, quote, true, r);
        return;
      }
      ghost var middle := trail;
      r := LookAgain(base, quote, date);
      EndsLater(old(trail), middle, trail, base, date, quote, true, true, r);
    }

    /** The end of GetRate after an answer: the rate of the day, or else an older one. */
    method LookAgain(base: string, quote: string, date: Date) returns (r: Option<Rate>)
      requires Valid()
      modifies this
      ensures Valid() && old(clock) <= clock && old(stores) <= stores
      ensures r.Some? ==> Honest(maxStaleness, base, date, quote, r.value)
      ensures EndsWith(old(trail), trail, base, date, quote, true, r)
      ensures old(CachedRate(base, date, quote)).Some? ==> r == old(CachedRate(base, date, quote))
      ensures alone ==> failuresByMonth == old(failuresByMonth)
    {
      hide Tracked, HonestTable, Honest, NoCandidate, EndsWith;
      r := Look(base, date, quote);
      if r.Some? {
        EndedByLook(old(trail), trail, base, date, quote, true, r);
        return;
      }
      Interfere();
      r := StaleRateOrError(base, quote, date);
      EndedByFallback(old(trail), trail, base, date, quote, true, r);
    }

    /** Remember the failed month, unless the caller gave up, and fall back. */
    method AfterFailure(base: string, quote: string, date: Date, cancelled: bool) returns (r: Option<Rate>)
      requires Valid()
      modifies this
      ensures Valid() && old(clock) <= clock && old(stores) <= stores
      ensures trail == old(trail) + [FellBack(base, date, quote, r)]
      ensures r.Some? ==> Honest(maxStaleness, base, date, quote, r.value) && r.value.stale
      ensures alone ==> (r.None? <==> maxStaleness == 0 || NoCandidate(old(ratesByDate), base, date, quote))
      ensures alone && failureTTL > 0 && (base, monthStart(date)) !in old(failuresByMonth) ==>
        Remembered(old(clock), base, date, !cancelled)
    {
      hide Tracked, HonestTable, Honest, NoCandidate;
      if !cancelled {
        StoreFailure(base, date);
        Interfere();
      }
      r := StaleRateOrError(base, quote, date);
    }

    /** What a taken-in response states is in the cache. */
    lemma TakenRates(response: Option<seq<Option<Row>>>, base: string, quote: string, date: Date, to: Date, old': Table,
                     oldStored: map<Key, nat>, oldSequence: nat)
      requires response.Some? && (date <= monthLast(date) ==> date <= to)
      requires TookIn(response.value, base, From(date), to, old', oldStored, oldSequence, maxCacheDays, ratesByDate,
                      cacheStoredAt)
      ensures forall value :: States(response, base, quote, date, value) ==>
        HasRate(ratesByDate, base, date, quote, value)
    {
      hide Decoded, StoredOrder, StoredContents, Mentions, HasRate;
      var t :| TookInTable(t, response.value, base, From(date), to, old', oldStored, oldSequence, maxCacheDays,
                           ratesByDate, cacheStoredAt);
      forall value | States(response, base, quote, date, value) ensures HasRate(ratesByDate, base, date, quote, value) {
        SubsetIsSmaller(t.Keys, DaysStated(response.value, base));
        assert |t| == |t.Keys|;
        NewDaysFit(old', oldStored, oldSequence, t, maxCacheDays, ratesByDate, cacheStoredAt);
        StatedIsStored(old', t, response.value, base, From(date), to, quote, date, value, maxCacheDays, ratesByDate);
      }
    }
  }

  ghost predicate HasRate(rates: Table, base: string, date: Date, quote: string, value: real) {
    var key := (base, date);
    key in rates && quote in rates[key] && rates[key][quote] == Rate(date, base, quote, value, false)
  }

  lemma StatedIsStored(old': Table, t: Table, rows: seq<Option<Row>>, base: string, from: int, to: Date, quote: string,
                       date: Date, value: real, limit: nat, rates: Table)
    requires Decoded(t, rows, base, from, to) && date <= to && value > 0.0
    requires Mentions(rows, base, from, date, date, quote) == Once(Row(Some(date), base, quote, Some(value)))
    requires StoredContents(old', t, limit, rates) && t.Keys <= rates.Keys
    ensures HasRate(rates, base, date, quote, value)
  {
    hide Mentions;
    MentionsWithin(rows, base, from, to, date, quote);
    assert (base, date) in t && quote in t[(base, date)];
    assert (base, date) in rates && rates[(base, date)] == Merged(old', t, (base, date));
  }

  // ----- fallbacks over fresh rates -----

  lemma FallbackHonest(maxStaleness: nat, base: string, date: Date, rate: Rate)
    requires Honest(maxStaleness, base, date, rate.quote, rate)
    ensures HonestTable(maxStaleness, Fallback(base, date, rate))
  {
  }

  /** Reading the candidate and writing it back are two critical sections. If another caller stored a fresh rate for
      the day in between, the fallback replaces it; and this is the only case in which a fresh rate is lost. */
  lemma FallbackLoses(old': Table, base: string, date: Date, rate: Rate, limit: nat, rates: Table)
    requires rate.stale && |old'| <= limit && StoredContents(old', Fallback(base, date, rate), limit, rates)
    ensures FreshLost(old', rates) <==> HoldsFresh(old', (base, date), rate.quote)
  {
    var key, t := (base, date), Fallback(base, date, rate);
    if HoldsFresh(old', key, rate.quote) {
      AllDaysStay(old', t, limit, rates);
      assert rates[key][rate.quote] == rate;
    }
    if FreshLost(old', rates) {
      var k, q :| HoldsFresh(old', k, q) && k in rates && q in rates[k] && rates[k][q].stale;
      assert rates[k] == Merged(old', t, k);
    }
  }

  lemma AllDaysStay(old': Table, t: Table, limit: nat, rates: Table)
    requires |old'| <= limit && t.Keys <= old'.Keys && StoredContents(old', t, limit, rates)
    ensures rates.Keys == old'.Keys
  {
    assert old'.Keys + t.Keys == old'.Keys;
    assert |old'| == |old'.Keys| && |rates| == |rates.Keys|;
    SubsetOfSameSize(rates.Keys, old'.Keys);
  }

  lemma {:induction false} SubsetOfSameSize(a: set<Key>, b: set<Key>)
    requires a <= b && |a| == |b|
    ensures a == b
  {
    if a != {} {
      var x :| x in a;
      SubsetOfSameSize(a - {x}, b - {x});
    }
  }

  /** What a fetch stores loses nothing fresh. */
  lemma FetchLosesNothing(old': Table, t: Table, rows: seq<Option<Row>>, base: string, from: int, to: Date, limit: nat,
                          rates: Table)
    requires Decoded(t, rows, base, from, to) && StoredContents(old', t, limit, rates)
    ensures !FreshLost(old', rates)
  {
    hide Mentions;
    forall k, q | HoldsFresh(old', k, q) && k in rates && q in rates[k] ensures !rates[k][q].stale {
      assert rates[k] == Merged(old', t, k);
      if k in t && q in t[k] {
        assert k == (base, k.1);
      }
    }
  }

  /** A day whose fresh rate is replaced by the observation of the day before. */
  lemma FreshCanBeLost()
    ensures
      var current, older := Rate(5, "EUR", "USD", 1.1, false), Rate(4, "EUR", "USD", 1.2, true);
      var before: Table := Fallback("EUR", 5, current);
      && Honest(DAY, "EUR", 5, "USD", current) && Honest(DAY, "EUR", 5, "USD", older)
      && FreshLost(before, Put(before, Fallback("EUR", 5, older), ("EUR", 5)))
  {
    var current, older := Rate(5, "EUR", "USD", 1.1, false), Rate(4, "EUR", "USD", 1.2, true);
    var before: Table := Fallback("EUR", 5, current);
    assert HoldsFresh(before, ("EUR", 5), "USD");
    assert Put(before, Fallback("EUR", 5, older), ("EUR", 5))[("EUR", 5)]["USD"] == older;
  }

  // ----- the zero day -----

  /** A candidate exists and none is found: the one observation is from the zero day. */
  method ZeroDayIsPassedOver(month: Date -> Date) returns (r: Option<Rate>)
    ensures r.None?
  {
    var observed := Rate(0, "EUR", "USD", 1.1, false);
    var c := new Client({}, DAY, 0, 10, month, month, false);
    ghost var empty := c.ratesByDate;
    FallbackHonest(DAY, "EUR", 0, observed);
    c.StoreRates(Fallback("EUR", 0, observed));
    OnlyDay(empty, Fallback("EUR", 0, observed), 10, c.ratesByDate);
    assert c.Candidate(c.ratesByDate, "EUR", 1, "USD", ("EUR", 0)) && c.NoCandidate(c.ratesByDate, "EUR", 1, "USD");
    r := c.CachedStaleRate("EUR", 1, "USD");
  }

  lemma OnlyDay(old': Table, t: Table, limit: nat, rates: Table)
    requires old' == map[] && 0 < |t| <= limit && StoredContents(old', t, limit, rates)
    ensures rates == t
  {
    hide Merged;
    assert old'.Keys + t.Keys == t.Keys && |t| == |t.Keys| && |rates| == |rates.Keys|;
    SubsetOfSameSize(rates.Keys, t.Keys);
    forall k | k in t ensures rates[k] == t[k] {
      MergedNew(old', t, k);
    }
  }

  lemma MergedNew(old': Table, t: Table, k: Key)
    requires k in t && k !in old'
    ensures Merged(old', t, k) == t[k]
  {
  }

  lemma HonestQuote(maxStaleness: nat, base: string, date: Date, quote: string, r: Rate)
    requires Honest(maxStaleness, base, date, quote, r)
    ensures r.quote == quote
  {
  }

  /** What storeRates leaves: merged days, all of them if they fit and otherwise as many as the limit allows. */
  ghost predicate StoredContents(old': Table, t: Table, limit: nat, rates: Table) {
    && (forall k :: k in rates ==> (k in old' || k in t) && rates[k] == Merged(old', t, k))
    && |rates| == if |old'.Keys + t.Keys| <= limit then |old'.Keys + t.Keys| else limit
  }

  /** Which ones it leaves: the most recently stored. */
  ghost predicate StoredOrder(old': Table, oldStored: map<Key, nat>, oldSequence: nat, t: Table, rates: Table,
                              stored: map<Key, nat>) {
    && (forall k :: k in old' && k !in rates && k !in t ==> Outlived(oldStored, oldSequence, k, stored))
    && (forall k, l :: k in old' && k !in t && k in rates && l in t ==> l in rates)
  }

  /** Day k was stored before everything that is still there. */
  ghost predicate Outlived(oldStored: map<Key, nat>, oldSequence: nat, k: Key, stored: map<Key, nat>) {
    k in oldStored && oldStored[k] <= oldSequence && forall l :: l in stored ==> oldStored[k] < stored[l]
  }

  lemma StoredHonest(maxStaleness: nat, old': Table, t: Table, limit: nat, rates: Table)
    requires HonestTable(maxStaleness, old') && HonestTable(maxStaleness, t) && StoredContents(old', t, limit, rates)
    ensures HonestTable(maxStaleness, rates) && |rates| <= limit
  {
  }

  lemma OrderHolds(old': Table, oldStored: map<Key, nat>, oldSequence: nat, t: Table, merged: Table,
                   placed: map<Key, nat>, sequence: nat, rates: Table, stored: map<Key, nat>)
    requires Tracked(old', oldStored, oldSequence) &&
      MergedIn(old', oldStored, oldSequence, t, t.Keys, merged, placed, sequence)
    requires Evicted(merged, placed, rates, stored, sequence)
    ensures StoredOrder(old', oldStored, oldSequence, t, rates, stored)
  {
    hide MergedIn, Evicted, Tracked, Outlived;
    forall k | k in old' && k !in rates && k !in t ensures Outlived(oldStored, oldSequence, k, stored) {
      OldDayLeft(old', oldStored, oldSequence, t, merged, placed, sequence, rates, stored, k);
    }
    forall k, l | k in old' && k !in t && k in rates && l in t ensures l in rates {
      NewDayStays(old', oldStored, oldSequence, t, merged, placed, sequence, rates, stored, k, l);
    }
  }

  lemma CountMerged(old': Table, oldStored: map<Key, nat>, oldSequence: nat, t: Table, merged: Table,
                    placed: map<Key, nat>, sequence: nat)
    requires MergedIn(old', oldStored, oldSequence, t, t.Keys, merged, placed, sequence)
    ensures |merged| == |old'.Keys + t.Keys|
  {
    assert |merged| == |merged.Keys|;
  }

  lemma MergedAt(old': Table, oldStored: map<Key, nat>, oldSequence: nat, t: Table, merged: Table,
                 placed: map<Key, nat>, sequence: nat, k: Key)
    requires MergedIn(old', oldStored, oldSequence, t, t.Keys, merged, placed, sequence) && k in merged
    ensures (k in old' || k in t) && merged[k] == Merged(old', t, k)
  {
    hide Merged, Tracked;
    if k !in t {
      MergedAlone(old', t, k);
    }
  }

  lemma EvictedAt(old': Table, oldStored: map<Key, nat>, rates: Table, stored: map<Key, nat>, sequence: nat, k: Key)
    requires Evicted(old', oldStored, rates, stored, sequence) && k in rates
    ensures k in old' && rates[k] == old'[k]
  {
  }

  lemma ContentsHold(old': Table, oldStored: map<Key, nat>, oldSequence: nat, t: Table, merged: Table,
                     placed: map<Key, nat>, sequence: nat, rates: Table, stored: map<Key, nat>, limit: nat)
    requires MergedIn(old', oldStored, oldSequence, t, t.Keys, merged, placed, sequence) &&
      Evicted(merged, placed, rates, stored, sequence)
    requires |rates| == if |merged| <= limit then |merged| else limit
    ensures StoredContents(old', t, limit, rates)
  {
    hide Merged, MergedIn, Evicted;
    CountMerged(old', oldStored, oldSequence, t, merged, placed, sequence);
    forall k | k in rates ensures (k in old' || k in t) && rates[k] == Merged(old', t, k) {
      EvictedAt(merged, placed, rates, stored, sequence, k);
      MergedAt(old', oldStored, oldSequence, t, merged, placed, sequence, k);
    }
  }

  lemma OldDayLeft(old': Table, oldStored: map<Key, nat>, oldSequence: nat, t: Table, merged: Table,
                   placed: map<Key, nat>, sequence: nat, rates: Table, stored: map<Key, nat>, k: Key)
    requires Tracked(old', oldStored, oldSequence) &&
      MergedIn(old', oldStored, oldSequence, t, t.Keys, merged, placed, sequence)
    requires Evicted(merged, placed, rates, stored, sequence) && k in old' && k !in rates && k !in t
    ensures Outlived(oldStored, oldSequence, k, stored)
  {
    hide Merged, Tracked, OldestLeft;
    SameKeys(old', oldStored, oldSequence);
    SameKeys(rates, stored, sequence);
    LeftBefore(placed, stored, k);
  }

  /** While an older day stays, no day of the new batch leaves. */
  lemma NewDayStays(old': Table, oldStored: map<Key, nat>, oldSequence: nat, t: Table, merged: Table,
                    placed: map<Key, nat>, sequence: nat, rates: Table, stored: map<Key, nat>, k: Key, l: Key)
    requires Tracked(old', oldStored, oldSequence) &&
      MergedIn(old', oldStored, oldSequence, t, t.Keys, merged, placed, sequence)
    requires Evicted(merged, placed, rates, stored, sequence) && k in old' && k !in t && k in rates && l in t
    ensures l in rates
  {
    hide Merged, Tracked, OldestLeft;
    SameKeys(old', oldStored, oldSequence);
    SameKeys(rates, stored, sequence);
    StoredAs(placed, stored, k);
    if l !in rates {
      LeftBefore(placed, stored, l);
    }
  }

  lemma SameKeys(rates: Table, stored: map<Key, nat>, sequence: nat)
    requires Tracked(rates, stored, sequence)
    ensures rates.Keys == stored.Keys && forall k :: k in stored ==> stored[k] <= sequence
  {
  }

  lemma StoredAs(before: map<Key, nat>, after: map<Key, nat>, k: Key)
    requires OldestLeft(before, after) && k in after
    ensures k in before && after[k] == before[k]
  {
  }

  lemma LeftBefore(before: map<Key, nat>, after: map<Key, nat>, k: Key)
    requires OldestLeft(before, after) && k in before && k !in after
    ensures forall l :: l in after ==> before[k] < after[l]
  {
  }

  lemma MergedAlone(old': Table, t: Table, k: Key)
    requires k in old' && k !in t
    ensures Merged(old', t, k) == old'[k]
  {
  }

  lemma MergedTracked(old': Table, oldStored: map<Key, nat>, oldSequence: nat, t: Table, rates: Table,
                      stored: map<Key, nat>, sequence: nat)
    requires MergedIn(old', oldStored, oldSequence, t, t.Keys, rates, stored, sequence)
    ensures Tracked(rates, stored, sequence)
  {
  }

  lemma EvictedTracked(old': Table, oldStored: map<Key, nat>, rates: Table, stored: map<Key, nat>, sequence: nat)
    requires Evicted(old', oldStored, rates, stored, sequence)
    ensures Tracked(rates, stored, sequence)
  {
  }

  lemma NothingMerged(rates: Table, stored: map<Key, nat>, sequence: nat, t: Table)
    requires Tracked(rates, stored, sequence)
    ensures MergedIn(rates, stored, sequence, t, {}, rates, stored, sequence)
  {
  }

  lemma NothingEvicted(rates: Table, stored: map<Key, nat>, sequence: nat)
    requires Tracked(rates, stored, sequence)
    ensures Evicted(rates, stored, rates, stored, sequence)
  {
  }
}
