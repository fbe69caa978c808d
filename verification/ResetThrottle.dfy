/** The fixed-window limiter of password-reset requests.  The check reads the application clock
    in milliseconds; the record reads the database clock, which has whole seconds. */
module ResetThrottle {
  import opened Common

  datatype Key = EmailIp(email: string, ip: string) | Ip(address: string)

  /** `start` is the second in which the window was opened. */
  datatype Row = Row(count: nat, start: nat)

  datatype Decision = Allowed | Refused(retryAfterSeconds: nat)

  const HOUR_SECONDS := 3600

  const HOUR_MS := 3600000

  function Limit(key: Key): nat { if key.EmailIp? then 5 else 10 }

  function KeysOf(email: string, ip: string): seq<Key> { [EmailIp(email, ip), Ip(ip)] }

  /** How the check decides that a window is over. */
  predicate ExpiredForCheck(row: Row, now: nat) { row.start * 1000 < now - HOUR_MS }

  /** How the record decides that a window is over. */
  predicate ExpiredForRecord(row: Row, now: nat) { row.start < now / 1000 - HOUR_SECONDS }

  predicate Blocks(rows: map<Key, Row>, key: Key, now: nat) {
    key in rows && !ExpiredForCheck(rows[key], now) && rows[key].count >= Limit(key)
  }

  function RowAfter(row: Option<Row>, now: nat): Row {
    match row
    case None => Row(1, now / 1000)
    case Some(r) => if ExpiredForRecord(r, now) then Row(1, now / 1000) else Row(r.count + 1, r.start)
  }

  function Lookup(rows: map<Key, Row>, key: Key): Option<Row> {
    if key in rows then Some(rows[key]) else None
  }

  /** Rounded up, as the caller is told to wait whole seconds. */
  function RetryAfter(row: Row, now: nat): nat {
    var wait := row.start * 1000 + HOUR_MS - now;
    if wait <= 0 then 0 else (wait + 999) / 1000
  }

  ghost predicate Permits(rows: map<Key, Row>, keys: seq<Key>, now: nat) {
    forall key <- keys :: !Blocks(rows, key, now)
  }

  /** The rows after every key of a list has been counted, one after the other. */
  function Recorded(rows: map<Key, Row>, keys: seq<Key>, now: nat): map<Key, Row> {
    if keys == [] then rows
    else
      var before, key := Recorded(rows, keys[..|keys| - 1], now), keys[|keys| - 1];
      before[key := RowAfter(Lookup(before, key), now)]
  }

  /** Each key of the request is counted once; the rows of other keys stay. */
  ghost predicate RecordedIn(rows: map<Key, Row>, rows': map<Key, Row>, keys: seq<Key>, now: nat) {
    && (forall key :: key in rows' <==> key in rows || key in keys)
    && (forall key <- rows' :: rows'[key] == if key in keys then RowAfter(Lookup(rows, key), now) else rows[key])
  }

  ghost predicate Distinct(keys: seq<Key>) { forall i, j :: 0 <= i < j < |keys| ==> keys[i] != keys[j] }

  lemma NothingRecorded(rows: map<Key, Row>, now: nat)
    ensures RecordedIn(rows, rows, [], now)
  {
  }

  lemma OneMoreRecorded(rows: map<Key, Row>, before: map<Key, Row>, keys: seq<Key>, key: Key, now: nat)
    requires RecordedIn(rows, before, keys, now) && key !in keys
    ensures RecordedIn(rows, before[key := RowAfter(Lookup(before, key), now)], keys + [key], now)
  {
    hide RowAfter;
    assert forall k :: k in keys + [key] <==> k in keys || k == key;
  }

  lemma {:induction false} DistinctKeysCountOnce(rows: map<Key, Row>, keys: seq<Key>, now: nat)
    requires Distinct(keys)
    ensures RecordedIn(rows, Recorded(rows, keys, now), keys, now)
  {
    hide RowAfter, RecordedIn, Lookup;
    if keys == [] {
      NothingRecorded(rows, now);
    } else {
      var init, key := keys[..|keys| - 1], keys[|keys| - 1];
      DistinctKeysCountOnce(rows, init, now);
      assert keys == init + [key] && key !in init;
      OneMoreRecorded(rows, Recorded(rows, init, now), init, key, now);
    }
  }

  class ThrottleStore {
    var rows: map<Key, Row>

    constructor ()
      ensures rows == map[]
    {
      rows := map[];
    }

    method CheckPasswordResetAllowed(keys: seq<Key>, now: nat) returns (decision: Decision)
      ensures decision.Allowed? <==> Permits(rows, keys, now)
      // at most 5 attempts of an e-mail and address, or 10 of an address, in 3600 seconds
      ensures decision.Allowed? <==> forall key <- keys ::
        key in rows && rows[key].start * 1000 >= now - 3600000 ==> rows[key].count < (if key.EmailIp? then 5 else 10)
      // the wait until the first window that is used up ends, in seconds rounded up
      ensures decision.Refused? ==> exists i :: (
        && 0 <= i < |keys| && keys[i] in rows && (forall k :: 0 <= k < i ==> !Blocks(rows, keys[k], now))
        && rows[keys[i]].count >= (if keys[i].EmailIp? then 5 else 10)
        && var left := rows[keys[i]].start * 1000 + 3600000 - now;
           left >= 0 && decision.retryAfterSeconds * 1000 - 1000 < left <= decision.retryAfterSeconds * 1000)
    {
      var i := 0;
      while i < |keys|
        invariant 0 <= i <= |keys|
        invariant forall k :: 0 <= k < i ==> !Blocks(rows, keys[k], now)
      {
        if keys[i] in rows {
          var row := rows[keys[i]];
          if !ExpiredForCheck(row, now) && row.count >= Limit(keys[i]) {
            assert Blocks(rows, keys[i], now) && keys[i] in keys;
            return Refused(RetryAfter(row, now));
          }
        }
        i := i + 1;
      }
      decision := Allowed;
    }

    method RecordPasswordResetAttempt(keys: seq<Key>, now: nat)
      modifies this
      ensures rows == Recorded(old(rows), keys, now)
    {
      var i := 0;
      while i < |keys|
        invariant 0 <= i <= |keys|
        invariant rows == Recorded(old(rows), keys[..i], now)
      {
        var key := keys[i];
        assert keys[..i + 1] == keys[..i] + [key] && keys[..i + 1][..i] == keys[..i];
        rows := rows[key := RowAfter(Lookup(rows, key), now)];
        i := i + 1;
      }
      assert keys[..i] == keys;
    }

    /** A request that is recorded as soon as it has been allowed. */
    method Request(email: string, ip: string, now: nat) returns (decision: Decision)
      modifies this
      ensures Step(old(rows), rows, Attempt(email, ip, now), decision.Allowed?)
      ensures decision.Refused? ==> rows == old(rows)
      ensures decision.Allowed? ==>
        && rows.Keys == old(rows).Keys + {EmailIp(email, ip), Ip(ip)}
        && (forall key <- old(rows) :: key !in {EmailIp(email, ip), Ip(ip)} ==> rows[key] == old(rows)[key])
        && (forall key <- {EmailIp(email, ip), Ip(ip)} ::
              rows[key] == (
                if key in old(rows) && old(rows)[key].start >= now / 1000 - 3600
                then Row(old(rows)[key].count + 1, old(rows)[key].start) else Row(1, now / 1000)))
    {
      var keys := KeysOf(email, ip);
      decision := CheckPasswordResetAllowed(keys, now);
      if decision.Allowed? {
        RecordPasswordResetAttempt(keys, now);
        DistinctKeysCountOnce(old(rows), keys, now);
      }
    }
  }

  // ------------------------------------------------------------------- runs

  datatype Attempt = Attempt(email: string, ip: string, now: nat)

  ghost predicate Step(rows: map<Key, Row>, rows': map<Key, Row>, a: Attempt, allowed: bool) {
    var keys := KeysOf(a.email, a.ip);
    && (allowed <==> Permits(rows, keys, a.now))
    && if allowed then RecordedIn(rows, rows', keys, a.now) else rows' == rows
  }

  datatype Run = Run(states: seq<map<Key, Row>>, attempts: seq<Attempt>, allowed: seq<bool>)

  ghost predicate IsRun(r: Run) {
    && |r.states| == |r.attempts| + 1 && |r.allowed| == |r.attempts|
    && r.states[0] == map[]
    && (forall i, j :: 0 <= i < j < |r.attempts| ==> r.attempts[i].now <= r.attempts[j].now)
    && forall i :: 0 <= i < |r.attempts| ==> StepAt(r, i)
  }

  ghost predicate StepAt(r: Run, i: nat)
    requires |r.states| == |r.attempts| + 1 && |r.allowed| == |r.attempts| && i < |r.attempts|
  {
    Step(r.states[i], r.states[i + 1], r.attempts[i], r.allowed[i])
  }

  /** The i-th attempt was allowed and recorded under `key`. */
  ghost predicate Records(r: Run, key: Key, i: nat)
    requires IsRun(r) && i < |r.attempts|
  {
    r.allowed[i] && key in KeysOf(r.attempts[i].email, r.attempts[i].ip)
  }

  /** The window in which the i-th attempt was recorded. */
  ghost function Window(r: Run, key: Key, i: nat): nat
    requires IsRun(r) && i < |r.attempts| && Records(r, key, i)
  {
    assert StepAt(r, i);
    r.states[i + 1][key].start
  }

  /** The second in which the hour of a window ends, past its first instant.  The check already
      sees a new window, while the record still counts in the old one. */
  predicate InLastSecond(row: Row, now: nat) { now / 1000 == row.start + HOUR_SECONDS && now % 1000 != 0 }

  /** The i-th attempt was recorded under a key that had already used up its limit. */
  ghost predicate Overruns(r: Run, key: Key, i: nat)
    requires IsRun(r) && i < |r.attempts|
  {
    && Records(r, key, i) && key in r.states[i]
    && r.states[i][key].count >= Limit(key) && InLastSecond(r.states[i][key], r.attempts[i].now)
  }

  ghost predicate InHour(r: Run, key: Key, from: nat, i: nat)
    requires IsRun(r) && i < |r.attempts|
  {
    Records(r, key, i) && from <= r.attempts[i].now <= from + HOUR_MS
  }

  ghost function CountInHour(r: Run, key: Key, from: nat, n: nat): nat
    requires IsRun(r) && n <= |r.attempts|
  {
    if n == 0 then 0 else CountInHour(r, key, from, n - 1) + if InHour(r, key, from, n - 1) then 1 else 0
  }

  ghost function CountInWindow(r: Run, key: Key, w: nat, n: nat): nat
    requires IsRun(r) && n <= |r.attempts|
  {
    if n == 0 then 0
    else CountInWindow(r, key, w, n - 1) + if Records(r, key, n - 1) && Window(r, key, n - 1) == w then 1 else 0
  }

  ghost function OverrunsInWindow(r: Run, key: Key, w: nat, n: nat): nat
    requires IsRun(r) && n <= |r.attempts|
  {
    if n == 0 then 0
    else OverrunsInWindow(r, key, w, n - 1) + if Overruns(r, key, n - 1) && Window(r, key, n - 1) == w then 1 else 0
  }

  // ------------------------------------------------------------- single steps

  /** The two clocks disagree about a window in exactly one second, the one in which its hour
      ends, and there at every instant but the first. */
  lemma ChecksAgreeIff(row: Row, now: nat)
    ensures ExpiredForRecord(row, now) ==> ExpiredForCheck(row, now)
    ensures (ExpiredForCheck(row, now) <==> ExpiredForRecord(row, now)) <==> !InLastSecond(row, now)
  {
    assert now == 1000 * (now / 1000) + now % 1000;
  }

  /** An allowed attempt takes a key over its limit exactly when the key had used up its limit
      and the attempt falls into the last second of its window. */
  lemma RecordedBeyondLimitIff(rows: map<Key, Row>, rows': map<Key, Row>, a: Attempt, key: Key)
    requires Step(rows, rows', a, true) && key in KeysOf(a.email, a.ip)
    requires key in rows ==> rows[key].count <= Limit(key)
    ensures key in rows'
    ensures rows'[key].count > Limit(key) <==>
      key in rows && rows[key].count == Limit(key) && InLastSecond(rows[key], a.now)
  {
    assert !Blocks(rows, key, a.now);
    if key in rows {
      ChecksAgreeIff(rows[key], a.now);
    }
  }

  /** Waiting the announced number of seconds is enough unless the refusal fell on a whole
      second; then the window is still open at that instant. */
  lemma RetryAfterSufficesIff(row: Row, now: nat)
    requires !ExpiredForCheck(row, now)
    ensures ExpiredForCheck(row, now + 1000 * RetryAfter(row, now)) <==> now % 1000 != 0
    ensures forall earlier: nat :: earlier < RetryAfter(row, now) ==> !ExpiredForCheck(row, now + 1000 * earlier)
  {
    assert now == 1000 * (now / 1000) + now % 1000;
    var wait := row.start * 1000 + HOUR_MS - now;
    if wait > 0 {
      assert wait + 999 == 1000 * ((wait + 999) / 1000) + (wait + 999) % 1000;
    }
  }

  // --------------------------------------------------------------- whole runs

  /** After attempt i, the row's window is either the one in which i was recorded, or a later
      one that opened more than an hour after it and not before i. */
  lemma {:induction false} WindowsMoveOn(r: Run, key: Key, i: nat, n: nat)
    requires IsRun(r) && i < n <= |r.attempts| && Records(r, key, i)
    ensures key in r.states[n]
    ensures var w := r.states[n][key].start;
      || w == Window(r, key, i)
      || (w > Window(r, key, i) + HOUR_SECONDS && w >= r.attempts[i].now / 1000)
    decreases n
  {
    assert StepAt(r, n - 1);
    if n > i + 1 {
      WindowsMoveOn(r, key, i, n - 1);
      assert r.attempts[i].now <= r.attempts[n - 1].now;
    }
  }

  /** An attempt is recorded in a window that opened at most an hour before it. */
  lemma {:induction false} WindowHoldsAttempt(r: Run, key: Key, i: nat)
    requires IsRun(r) && i < |r.attempts| && Records(r, key, i)
    ensures Window(r, key, i) <= r.attempts[i].now / 1000 <= Window(r, key, i) + HOUR_SECONDS
  {
    assert StepAt(r, i);
    RowsStarted(r, key, i);
  }

  lemma {:induction false} RowsStarted(r: Run, key: Key, n: nat)
    requires IsRun(r) && n < |r.attempts|
    ensures key in r.states[n] ==> r.states[n][key].start <= r.attempts[n].now / 1000
  {
    if n > 0 {
      RowsStarted(r, key, n - 1);
      assert StepAt(r, n - 1);
      assert r.attempts[n - 1].now <= r.attempts[n].now;
    }
  }

  /** Two attempts in different windows. */
  lemma LaterWindow(r: Run, key: Key, i: nat, j: nat)
    requires IsRun(r) && i < j < |r.attempts| && Records(r, key, i) && Records(r, key, j)
    ensures Window(r, key, j) == Window(r, key, i)
      || (Window(r, key, j) > Window(r, key, i) + HOUR_SECONDS && Window(r, key, j) >= r.attempts[i].now / 1000)
  {
    WindowsMoveOn(r, key, i, j + 1);
  }

  lemma SecondsApart(early: nat, late: nat)
    requires late <= early + HOUR_MS
    ensures late / 1000 <= early / 1000 + HOUR_SECONDS
  {
    assert (early + HOUR_MS) / 1000 == early / 1000 + HOUR_SECONDS;
  }

  /** Three different windows do not fit into one hour. */
  lemma ThreeWindows(r: Run, key: Key, from: nat, i: nat, j: nat, k: nat)
    requires IsRun(r) && i < j < k < |r.attempts|
    requires InHour(r, key, from, i) && InHour(r, key, from, j) && InHour(r, key, from, k)
    ensures Window(r, key, i) == Window(r, key, j) || Window(r, key, j) == Window(r, key, k)
  {
    LaterWindow(r, key, i, j);
    LaterWindow(r, key, j, k);
    WindowHoldsAttempt(r, key, k);
    SecondsApart(r.attempts[i].now, r.attempts[k].now);
  }

  /** A window holds its limit plus its overruns, or at most its limit if it has none. */
  ghost predicate Exact(r: Run, key: Key, w: nat, n: nat)
    requires IsRun(r) && n <= |r.attempts|
  {
    var count, overruns := CountInWindow(r, key, w, n), OverrunsInWindow(r, key, w, n);
    if overruns > 0 then count == Limit(key) + overruns else count <= Limit(key)
  }

  /** No later window has been used, and the row counts the current one. */
  ghost predicate RowCounts(r: Run, key: Key, w: nat, n: nat)
    requires IsRun(r) && n <= |r.attempts|
  {
    && (key !in r.states[n] || w > r.states[n][key].start ==> CountInWindow(r, key, w, n) == 0)
    && (key in r.states[n] && w == r.states[n][key].start ==> CountInWindow(r, key, w, n) == r.states[n][key].count)
  }

  /** Recording one more attempt keeps the count of one window exact. */
  lemma WindowStaysExact(r: Run, key: Key, n: nat, w: nat)
    requires IsRun(r) && n < |r.attempts| && Records(r, key, n)
    requires forall v: nat :: Exact(r, key, v, n) && RowCounts(r, key, v, n)
    ensures Exact(r, key, w, n + 1) && RowCounts(r, key, w, n + 1)
  {
    assert StepAt(r, n);
    var now := r.attempts[n].now;
    assert !Blocks(r.states[n], key, now);
    assert Exact(r, key, w, n) && RowCounts(r, key, w, n);
    if key in r.states[n] {
      ChecksAgreeIff(r.states[n][key], now);
      assert RowCounts(r, key, r.states[n][key].start, n);
    }
  }

  lemma {:induction false} WindowsAreExact(r: Run, key: Key, n: nat)
    requires IsRun(r) && n <= |r.attempts|
    ensures forall w: nat :: Exact(r, key, w, n) && RowCounts(r, key, w, n)
    decreases n
  {
    if n > 0 {
      WindowsAreExact(r, key, n - 1);
      forall w: nat ensures Exact(r, key, w, n) && RowCounts(r, key, w, n) {
        if Records(r, key, n - 1) {
          WindowStaysExact(r, key, n - 1, w);
        } else {
          assert StepAt(r, n - 1);
          assert Lookup(r.states[n], key) == Lookup(r.states[n - 1], key);
          assert Exact(r, key, w, n - 1) && RowCounts(r, key, w, n - 1);
        }
      }
    }
  }

  lemma {:induction false} HourInTwoWindows(r: Run, key: Key, from: nat, w1: nat, w2: nat, n: nat)
    requires IsRun(r) && n <= |r.attempts|
    requires forall i: nat :: i < n && InHour(r, key, from, i) ==> Window(r, key, i) == w1 || Window(r, key, i) == w2
    ensures CountInHour(r, key, from, n) <=
      CountInWindow(r, key, w1, n) + if w1 == w2 then 0 else CountInWindow(r, key, w2, n)
    decreases n
  {
    if n > 0 {
      HourInTwoWindows(r, key, from, w1, w2, n - 1);
    }
  }

  lemma {:induction false} NoneInHour(r: Run, key: Key, from: nat, n: nat)
    requires IsRun(r) && n <= |r.attempts|
    requires forall i: nat :: i < n ==> !InHour(r, key, from, i)
    ensures CountInHour(r, key, from, n) == 0
  {
    if n > 0 {
      NoneInHour(r, key, from, n - 1);
    }
  }

  ghost predicate InDifferentWindows(r: Run, key: Key, from: nat, i: nat, j: nat)
    requires IsRun(r) && i < |r.attempts| && j < |r.attempts|
  {
    InHour(r, key, from, i) && InHour(r, key, from, j) && Window(r, key, i) != Window(r, key, j)
  }

  /** The windows that hold the recorded attempts of any hour are at most two. */
  lemma AtMostTwoWindows(r: Run, key: Key, from: nat, n: nat) returns (w1: nat, w2: nat)
    requires IsRun(r) && n <= |r.attempts|
    ensures forall i: nat :: i < n && InHour(r, key, from, i) ==> Window(r, key, i) == w1 || Window(r, key, i) == w2
  {
    if i: nat, j: nat :| i < j < n && InDifferentWindows(r, key, from, i, j) {
      w1, w2 := Window(r, key, i), Window(r, key, j);
      forall x: nat | x < n && InHour(r, key, from, x) ensures Window(r, key, x) == w1 || Window(r, key, x) == w2 {
        LaterWindow(r, key, i, j);
        if x < i {
          LaterWindow(r, key, x, i);
          ThreeWindows(r, key, from, x, i, j);
        } else if i < x < j {
          LaterWindow(r, key, i, x);
          ThreeWindows(r, key, from, i, x, j);
        } else if j < x {
          ThreeWindows(r, key, from, i, j, x);
        }
      }
    } else if i: nat :| i < n && InHour(r, key, from, i) {
      w1, w2 := Window(r, key, i), Window(r, key, i);
      forall x: nat | x < n && InHour(r, key, from, x) ensures Window(r, key, x) == w1 {
        assert !InDifferentWindows(r, key, from, i, x) || !(i < x);
        assert !InDifferentWindows(r, key, from, x, i) || !(x < i);
      }
    } else {
      w1, w2 := 0, 0;
    }
  }

  /** Over any run, a window holds more attempts than its limit by exactly the attempts that
      were recorded in its last second after the limit had been used up. */
  lemma WindowExcessIsExact(r: Run, key: Key, w: nat, n: nat)
    requires IsRun(r) && n <= |r.attempts|
    ensures var count, overruns := CountInWindow(r, key, w, n), OverrunsInWindow(r, key, w, n);
      if overruns > 0 then count == Limit(key) + overruns else count <= Limit(key)
  {
    WindowsAreExact(r, key, n);
    assert Exact(r, key, w, n);
  }

  lemma {:induction false} NoOverrunsCounted(r: Run, key: Key, w: nat, n: nat)
    requires IsRun(r) && n <= |r.attempts|
    requires forall i: nat :: i < n ==> !Overruns(r, key, i)
    ensures OverrunsInWindow(r, key, w, n) == 0
  {
    if n > 0 {
      NoOverrunsCounted(r, key, w, n - 1);
    }
  }

  lemma {:induction false} OverrunIsCounted(r: Run, key: Key, i: nat, n: nat)
    requires IsRun(r) && i < n <= |r.attempts| && Overruns(r, key, i)
    ensures OverrunsInWindow(r, key, Window(r, key, i), n) > 0
    decreases n
  {
    if i < n - 1 {
      OverrunIsCounted(r, key, i, n - 1);
    }
  }

  /** Main result: a key's limit holds in every window of a run if and only if no attempt is
      recorded in the last second of a window whose limit is used up. */
  lemma LimitHoldsIff(r: Run, key: Key, n: nat)
    requires IsRun(r) && n <= |r.attempts|
    ensures (forall w: nat :: CountInWindow(r, key, w, n) <= Limit(key))
      <==> (forall i: nat :: i < n ==> !Overruns(r, key, i))
  {
    if i: nat :| i < n && Overruns(r, key, i) {
      OverrunIsCounted(r, key, i, n);
      WindowExcessIsExact(r, key, Window(r, key, i), n);
    } else {
      forall w: nat ensures CountInWindow(r, key, w, n) <= Limit(key) {
        NoOverrunsCounted(r, key, w, n);
        WindowExcessIsExact(r, key, w, n);
      }
    }
  }

  /** Under the same condition no closed hour holds more than twice the limit. */
  lemma HourHoldsTwiceTheLimit(r: Run, key: Key, from: nat, n: nat)
    requires IsRun(r) && n <= |r.attempts|
    requires forall i: nat :: i < n ==> !Overruns(r, key, i)
    ensures CountInHour(r, key, from, n) <= 2 * Limit(key)
  {
    LimitHoldsIff(r, key, n);
    var w1, w2 := AtMostTwoWindows(r, key, from, n);
    HourInTwoWindows(r, key, from, w1, w2, n);
  }

  // ------------------------------------------------- the last second is unlimited

  /** The rows after k attempts of one address, all counted in the window opened at time 0. */
  function BurstRows(k: nat): map<Key, Row> {
    if k == 0 then map[] else map[EmailIp("a", "b") := Row(k, 0), Ip("b") := Row(k, 0)]
  }

  /** One attempt at time 0, and n in the last second of its window. */
  function Burst(n: nat): Run {
    Run(seq(n + 2, k requires 0 <= k => BurstRows(k)),
        seq(n + 1, k => Attempt("a", "b", if k == 0 then 0 else 3600500)),
        seq(n + 1, k => true))
  }

  lemma BurstStep(k: nat)
    ensures Step(BurstRows(k), BurstRows(k + 1), Attempt("a", "b", if k == 0 then 0 else 3600500), true)
  {
  }

  lemma BurstIsRun(n: nat)
    ensures IsRun(Burst(n))
  {
    hide BurstRows, Step;
    var r := Burst(n);
    assert r.states[0] == map[] by {
      NoBurstYet();
    }
    forall k: nat | k < n + 1 ensures StepAt(r, k) {
      BurstStep(k);
    }
  }

  lemma NoBurstYet()
    ensures BurstRows(0) == map[]
  {
  }

  lemma {:induction false} BurstCount(n: nat, key: Key, k: nat)
    requires IsRun(Burst(n)) && 0 < k <= n + 1 && (key == EmailIp("a", "b") || key == Ip("b"))
    ensures CountInHour(Burst(n), key, 3600500, k) >= k - 1
    decreases k
  {
    if k > 1 {
      BurstCount(n, key, k - 1);
    }
  }

  /** Nothing limits the attempts in the last second of a window: for every n there is a run
      with n recorded attempts of one address within a single instant. */
  lemma LastSecondIsUnlimited(n: nat)
    ensures IsRun(Burst(n))
    ensures CountInHour(Burst(n), EmailIp("a", "b"), 3600500, n + 1) >= n
    ensures CountInHour(Burst(n), Ip("b"), 3600500, n + 1) >= n
  {
    BurstIsRun(n);
    BurstCount(n, EmailIp("a", "b"), n + 1);
    BurstCount(n, Ip("b"), n + 1);
  }
}
