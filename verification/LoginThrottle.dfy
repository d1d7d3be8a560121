/** Account lockout: core/src/auth/login-throttle.ts, driven through the gate of
    core/src/auth/auth-service/password-ops.ts.

    The table is specified with its instants as milliseconds (`Row`), and the class keeps it as
    the store does, with instants as ISO text that the sweep compares as text. */
module LoginThrottle {
  import opened Collections
  import opened Optional
  import opened Text
  import opened IsoDate

  datatype Settings = Settings(maxAttempts: int, lockoutMs: int)

  datatype Row = Row(failedCount: nat, lastFailedAt: Option<int>, lockedUntil: Option<int>)

  type Table = map<string, Row>

  datatype Attempt = Attempt(key: string, at: int, passwordOk: bool)

  datatype Decision = Locked(retryAfterMs: int) | Accepted | Refused(nowLocked: bool)

  // ----- one operation

  /** How long the account stays locked; not positive when it is not locked. */
  function LockedFor(t: Table, key: string, now: int): int {
    if key in t && t[key].lockedUntil.Some? then t[key].lockedUntil.value - now else 0
  }

  function CountAfterFailure(t: Table, key: string, now: int): nat {
    if key !in t || (t[key].lockedUntil.Some? && t[key].lockedUntil.value <= now) then 1
    else t[key].failedCount + 1
  }

  function Failed(s: Settings, t: Table, key: string, now: int): Table {
    var count := CountAfterFailure(t, key, now);
    t[key := if count >= s.maxAttempts then Row(0, Some(now), Some(now + s.lockoutMs)) else Row(count, Some(now), None)]
  }

  predicate Stale(row: Row, now: int, retention: int) {
    && (row.lockedUntil.None? || row.lockedUntil.value <= now)
    && (row.lastFailedAt.None? || row.lastFailedAt.value <= now - retention)
  }

  function Swept(t: Table, now: int, retention: int): Table {
    map k | k in t && !Stale(t[k], now, retention) :: t[k]
  }

  /** One gated attempt. */
  function Decide(s: Settings, t: Table, a: Attempt): Decision {
    if LockedFor(t, a.key, a.at) > 0 then Locked(LockedFor(t, a.key, a.at))
    else if a.passwordOk then Accepted
    else Refused(CountAfterFailure(t, a.key, a.at) >= s.maxAttempts)
  }

  function Tried(s: Settings, t: Table, a: Attempt): Table {
    if LockedFor(t, a.key, a.at) > 0 then t
    else if a.passwordOk then t - {a.key}
    else Failed(s, t, a.key, a.at)
  }

  // ----- whole runs

  datatype Entry = Entry(attempt: Attempt, decision: Decision)

  function After(s: Settings, t: Table, h: seq<Attempt>): Table {
    if h == [] then t else Tried(s, After(s, t, h[..|h| - 1]), h[|h| - 1])
  }

  /** What the callers saw. */
  function Trace(s: Settings, t: Table, h: seq<Attempt>): (tr: seq<Entry>)
    ensures |tr| == |h| && forall i | 0 <= i < |h| :: tr[i].attempt == h[i]
  {
    if h == [] then []
    else
      var before := h[..|h| - 1];
      Trace(s, t, before) + [Entry(h[|h| - 1], Decide(s, After(s, t, before), h[|h| - 1]))]
  }

  /** When the account was last locked, told from the decisions alone. */
  function LastLock(tr: seq<Entry>, key: string): Option<int> {
    if tr == [] then None
    else
      var e := tr[|tr| - 1];
      if e.attempt.key == key && e.decision == Refused(true) then Some(e.attempt.at) else LastLock(tr[..|tr| - 1], key)
  }

  /** Refusals of the account since it was last accepted or locked. */
  function Streak(tr: seq<Entry>, key: string): nat {
    if tr == [] then 0
    else
      var e, before := tr[|tr| - 1], Streak(tr[..|tr| - 1], key);
      if e.attempt.key != key || e.decision.Locked? then before
      else if e.decision == Refused(false) then before + 1
      else 0
  }

  function LastRefusal(tr: seq<Entry>, key: string): Option<int> {
    if tr == [] then None
    else
      var e := tr[|tr| - 1];
      if e.attempt.key == key && e.decision.Refused? then Some(e.attempt.at) else LastRefusal(tr[..|tr| - 1], key)
  }

  predicate LockedByHistory(s: Settings, tr: seq<Entry>, key: string, now: int) {
    LastLock(tr, key).Some? && now - LastLock(tr, key).value < s.lockoutMs
  }

  predicate ClockRuns(h: seq<Attempt>) {
    forall i, j | 0 <= i < j < |h| :: h[i].at <= h[j].at
  }

  predicate NotBefore(h: seq<Attempt>, now: int) {
    forall i | 0 <= i < |h| :: h[i].at <= now
  }

  /** A count is below the limit, and a row with a lock counts from zero. */
  predicate RowOk(s: Settings, row: Row) {
    && (row.failedCount > 0 ==> row.failedCount < s.maxAttempts && row.lockedUntil.None?)
    && row.lastFailedAt.Some?
  }

  predicate TableOk(s: Settings, t: Table) {
    forall k | k in t :: RowOk(s, t[k])
  }

  /** What the row of an account knows about the account's history: the streak, the last refusal
      and the last lock. */
  predicate RowHas(s: Settings, t: Table, tr: seq<Entry>, streak: nat, key: string, now: int) {
    && streak == (if key in t then t[key].failedCount else 0)
    && (key in t ==> t[key].lastFailedAt == LastRefusal(tr, key))
    && if key in t && t[key].lockedUntil.Some? then
         LastLock(tr, key) == Some(t[key].lockedUntil.value - s.lockoutMs)
       else !LockedByHistory(s, tr, key, now)
  }

  predicate RowTells(s: Settings, t: Table, tr: seq<Entry>, key: string, now: int) {
    RowHas(s, t, tr, Streak(tr, key), key, now)
  }

  lemma TellsNext(s: Settings, t: Table, tr: seq<Entry>, key: string, a: Attempt, now: int)
    requires TableOk(s, t) && RowTells(s, t, tr, key, a.at) && a.at <= now
    ensures RowTells(s, Tried(s, t, a), tr + [Entry(a, Decide(s, t, a))], key, now)
  {
    var tr' := tr + [Entry(a, Decide(s, t, a))];
    assert tr'[..|tr'| - 1] == tr;
  }

  lemma {:induction false} RowsTellHistory(s: Settings, h: seq<Attempt>, key: string, now: int)
    requires ClockRuns(h) && NotBefore(h, now)
    ensures TableOk(s, After(s, map[], h))
    ensures RowTells(s, After(s, map[], h), Trace(s, map[], h), key, now)
  {
    if h != [] {
      var before, a := h[..|h| - 1], h[|h| - 1];
      RowsTellHistory(s, before, key, a.at);
      TellsNext(s, After(s, map[], before), Trace(s, map[], before), key, a, now);
    }
  }

  /** The decision that the history of the account calls for. */
  function Expected(s: Settings, past: seq<Entry>, a: Attempt): Decision {
    if LockedByHistory(s, past, a.key, a.at) then Locked(LastLock(past, a.key).value + s.lockoutMs - a.at)
    else if a.passwordOk then Accepted
    else Refused(Streak(past, a.key) + 1 >= s.maxAttempts)
  }

  lemma RowsDecide(s: Settings, t: Table, past: seq<Entry>, a: Attempt)
    requires TableOk(s, t) && RowTells(s, t, past, a.key, a.at)
    ensures Decide(s, t, a) == Expected(s, past, a)
  {
  }

  /** Every run of gated attempts from the empty table, with a clock that does not run back:
      the account is locked exactly while its last lock is less than `lockoutMs` old, and then
      the attempt is told the rest of that time; an attempt that is let through is accepted on
      its password, and a refusal locks exactly when it is the `maxAttempts`-th in a row since
      the last accepted login or lock. */
  lemma DecisionsFollowHistory(s: Settings, h: seq<Attempt>, i: nat)
    requires ClockRuns(h) && i < |h|
    ensures var tr := Trace(s, map[], h); tr[i].decision == Expected(s, tr[..i], h[i])
  {
    TraceOfPrefix(s, map[], h, i + 1);
    TraceOfPrefix(s, map[], h, i);
    assert h[..i + 1][..i] == h[..i];
    assert Trace(s, map[], h)[i] == Trace(s, map[], h[..i + 1])[i];
    RowsTellHistory(s, h[..i], h[i].key, h[i].at);
    RowsDecide(s, After(s, map[], h[..i]), Trace(s, map[], h[..i]), h[i]);
  }

  lemma {:induction false} TraceOfPrefix(s: Settings, t: Table, h: seq<Attempt>, n: nat)
    requires n <= |h|
    ensures Trace(s, t, h)[..n] == Trace(s, t, h[..n])
    decreases |h|
  {
    if n < |h| {
      TraceOfPrefix(s, t, h[..|h| - 1], n);
      assert h[..|h| - 1][..n] == h[..n];
      assert Trace(s, t, h)[..n] == Trace(s, t, h[..|h| - 1])[..n];
    } else {
      assert h[..n] == h;
    }
  }

  // ----- sweeping

  /** A sweep never changes what the gate answers for the table as it stands, now or later. */
  lemma SweepKeepsLocks(t: Table, now: int, retention: int, key: string, later: int)
    requires now <= later
    ensures LockedFor(Swept(t, now, retention), key, later) > 0 <==> LockedFor(t, key, later) > 0
    ensures LockedFor(t, key, later) > 0 ==> LockedFor(Swept(t, now, retention), key, later) == LockedFor(t, key, later)
  {
  }

  /** `small` lacks only rows of `full` that count nothing and lock nothing. */
  ghost predicate SameButIdle(small: Table, full: Table, now: int) {
    forall k | k in small || k in full ::
      k in full && if k in small then small[k] == full[k] else full[k].failedCount == 0 && LockedFor(full, k, now) <= 0
  }

  lemma IdleNext(s: Settings, small: Table, full: Table, now: int, a: Attempt)
    requires SameButIdle(small, full, now) && now <= a.at
    ensures Decide(s, small, a) == Decide(s, full, a)
    ensures SameButIdle(Tried(s, small, a), Tried(s, full, a), a.at)
  {
    assert a.key in small ==> a.key in full;
  }

  lemma {:induction false} IdleRowsDecideNothing(s: Settings, small: Table, full: Table, now: int, h: seq<Attempt>)
    requires SameButIdle(small, full, now)
    requires ClockRuns(h) && (h != [] ==> now <= h[0].at)
    ensures Trace(s, small, h) == Trace(s, full, h)
    ensures SameButIdle(After(s, small, h), After(s, full, h), if h == [] then now else h[|h| - 1].at)
  {
    if h != [] {
      var before := h[..|h| - 1];
      IdleRowsDecideNothing(s, small, full, now, before);
      IdleNext(s, After(s, small, before), After(s, full, before), if before == [] then now else before[|before| - 1].at, h[|h| - 1]);
    }
  }

  /** `n` wrong passwords at one instant. */
  function Failures(key: string, now: int, n: nat): seq<Attempt> {
    seq(n, _ => Attempt(key, now, false))
  }

  lemma {:induction false} FailuresCountUp(s: Settings, t: Table, key: string, now: int, n: nat)
    requires key in t ==> t[key].lockedUntil.None?
    requires (if key in t then t[key].failedCount else 0) + n < s.maxAttempts
    ensures var t' := After(s, t, Failures(key, now, n));
            && (key in t' ==> t'[key].lockedUntil.None?)
            && (if key in t' then t'[key].failedCount else 0) == (if key in t then t[key].failedCount else 0) + n
  {
    if n > 0 {
      FailuresCountUp(s, t, key, now, n - 1);
      assert Failures(key, now, n)[..n - 1] == Failures(key, now, n - 1);
    }
  }

  ghost predicate DecideAlike(s: Settings, t: Table, t': Table, now: int) {
    forall h: seq<Attempt> :: ClockRuns(h) && (h != [] ==> now <= h[0].at) ==> Trace(s, t, h) == Trace(s, t', h)
  }

  /** Sweeping at `now` leaves every later decision of every continuation as it was, if and only
      if no row that it deletes still counts failures. */
  lemma SweepHarmlessIff(s: Settings, t: Table, now: int, retention: int)
    requires TableOk(s, t)
    ensures DecideAlike(s, t, Swept(t, now, retention), now) <==>
            forall k | k in t && Stale(t[k], now, retention) :: t[k].failedCount == 0
  {
    var small := Swept(t, now, retention);
    if forall k | k in t && Stale(t[k], now, retention) :: t[k].failedCount == 0 {
      forall h: seq<Attempt> | ClockRuns(h) && (h != [] ==> now <= h[0].at) ensures Trace(s, t, h) == Trace(s, small, h) {
        IdleRowsDecideNothing(s, small, t, now, h);
      }
    } else {
      var k :| k in t && Stale(t[k], now, retention) && t[k].failedCount != 0;
      ForgottenCountShows(s, t, small, k, now);
    }
  }

  /** The failures that would have completed a forgotten streak lock the one table only. */
  lemma ForgottenCountShows(s: Settings, t: Table, small: Table, key: string, now: int)
    requires TableOk(s, t) && key in t && t[key].failedCount > 0 && key !in small
    ensures !DecideAlike(s, t, small, now)
  {
    var n := s.maxAttempts - t[key].failedCount - 1;
    var h := Failures(key, now, n + 1);
    assert h[..n] == Failures(key, now, n);
    FailuresCountUp(s, t, key, now, n);
    FailuresCountUp(s, small, key, now, n);
    assert Trace(s, t, h)[n].decision == Refused(true);
    assert Trace(s, small, h)[n].decision == Refused(false);
    assert ClockRuns(h);
  }

  /** A reachable table of which a sweep changes decisions: one failure, as old as the retention. */
  lemma SweepCanChangeDecisions(s: Settings, key: string, retention: nat)
    requires s.maxAttempts > 1
    ensures var t := After(s, map[], [Attempt(key, 0, false)]);
            !DecideAlike(s, t, Swept(t, retention, retention), retention)
  {
    var h := [Attempt(key, 0, false)];
    var t := After(s, map[], h);
    assert After(s, map[], h[..0]) == map[];
    assert t == map[][key := Row(1, Some(0), None)];
    SweepHarmlessIff(s, t, retention, retention);
    assert key in t && Stale(t[key], retention, retention);
  }

  // ----- runs with sweeps in them

  datatype Event = Try(attempt: Attempt) | Sweep(at: int, retention: int)

  function TimeOfEvent(e: Event): int {
    if e.Try? then e.attempt.at else e.at
  }

  ghost predicate EventClockRuns(events: seq<Event>) {
    forall i, j | 0 <= i < j < |events| :: TimeOfEvent(events[i]) <= TimeOfEvent(events[j])
  }

  function Attempts(events: seq<Event>): seq<Attempt> {
    if events == [] then []
    else
      var e := events[|events| - 1];
      Attempts(events[..|events| - 1]) + if e.Try? then [e.attempt] else []
  }

  function AfterEvents(s: Settings, events: seq<Event>): Table {
    if events == [] then map[]
    else
      var t, e := AfterEvents(s, events[..|events| - 1]), events[|events| - 1];
      if e.Try? then Tried(s, t, e.attempt) else Swept(t, e.at, e.retention)
  }

  function EventTrace(s: Settings, events: seq<Event>): seq<Entry> {
    if events == [] then []
    else
      var before, e := events[..|events| - 1], events[|events| - 1];
      EventTrace(s, before) + if e.Try? then [Entry(e.attempt, Decide(s, AfterEvents(s, before), e.attempt))] else []
  }

  /** Refusals that follow each other within one streak are less than `gap` apart. */
  predicate Spaced(tr: seq<Entry>, gap: int) {
    tr != [] ==>
      var earlier, e := tr[..|tr| - 1], tr[|tr| - 1];
      && Spaced(earlier, gap)
      && (e.decision.Refused? && Streak(earlier, e.attempt.key) > 0 ==>
            e.attempt.at - LastRefusal(earlier, e.attempt.key).GetOr(e.attempt.at) < gap)
  }

  /** The two tables agree on the account, or `small` lacks a row of `full` that locks nothing
      and whose last failure, if it counts one, is `gap` old. */
  predicate SameOrOld(small: Table, full: Table, key: string, now: int, gap: int) {
    if key in small then key in full && small[key] == full[key]
    else key in full ==>
      LockedFor(full, key, now) <= 0 && (full[key].failedCount == 0 || full[key].lastFailedAt.GetOr(now) + gap <= now)
  }

  ghost predicate SameButOld(small: Table, full: Table, now: int, gap: int) {
    forall k :: SameOrOld(small, full, k, now, gap)
  }

  lemma OldAttempt(s: Settings, small: Table, full: Table, tr: seq<Entry>, a: Attempt, gap: int)
    requires SameButOld(small, full, a.at, gap) && RowTells(s, full, tr, a.key, a.at) && TableOk(s, full)
    requires Decide(s, full, a).Refused? && Streak(tr, a.key) > 0 ==> a.at - LastRefusal(tr, a.key).GetOr(a.at) < gap
    ensures Decide(s, small, a) == Decide(s, full, a)
    ensures SameButOld(Tried(s, small, a), Tried(s, full, a), a.at, gap)
  {
    assert SameOrOld(small, full, a.key, a.at, gap);
    forall k ensures SameOrOld(Tried(s, small, a), Tried(s, full, a), k, a.at, gap) {
      assert SameOrOld(small, full, k, a.at, gap);
    }
  }

  lemma OldSweep(s: Settings, small: Table, full: Table, now: int, retention: int, gap: int)
    requires SameButOld(small, full, now, gap) && gap <= retention && TableOk(s, full)
    ensures SameButOld(Swept(small, now, retention), full, now, gap)
  {
    forall k ensures SameOrOld(Swept(small, now, retention), full, k, now, gap) {
      assert SameOrOld(small, full, k, now, gap);
    }
  }

  lemma OldStaysOld(s: Settings, small: Table, full: Table, now: int, later: int, gap: int)
    requires SameButOld(small, full, now, gap) && now <= later && TableOk(s, full)
    ensures SameButOld(small, full, later, gap)
  {
    forall k ensures SameOrOld(small, full, k, later, gap) {
      assert SameOrOld(small, full, k, now, gap);
    }
  }

  lemma AttemptsInOrder(events: seq<Event>, now: int)
    requires EventClockRuns(events) && (events != [] ==> TimeOfEvent(events[|events| - 1]) <= now)
    ensures ClockRuns(Attempts(events)) && NotBefore(Attempts(events), now)
  {
    if events != [] {
      AttemptsInOrder(events[..|events| - 1], TimeOfEvent(events[|events| - 1]));
    }
  }

  lemma SpacedPrefix(tr: seq<Entry>, e: Entry, gap: int)
    requires Spaced(tr + [e], gap)
    ensures Spaced(tr, gap)
    ensures e.decision.Refused? && Streak(tr, e.attempt.key) > 0 ==>
              e.attempt.at - LastRefusal(tr, e.attempt.key).GetOr(e.attempt.at) < gap
  {
    assert (tr + [e])[..|tr|] == tr;
  }

  lemma OneMore(s: Settings, t: Table, past: seq<Attempt>, a: Attempt)
    ensures After(s, t, past + [a]) == Tried(s, After(s, t, past), a)
    ensures Trace(s, t, past + [a]) == Trace(s, t, past) + [Entry(a, Decide(s, After(s, t, past), a))]
  {
    assert (past + [a])[..|past|] == past;
  }

  lemma {:induction false} SweptRunSimulates(s: Settings, events: seq<Event>, now: int, gap: int)
    requires EventClockRuns(events) && (events != [] ==> TimeOfEvent(events[|events| - 1]) <= now)
    requires forall i | 0 <= i < |events| && events[i].Sweep? :: gap <= events[i].retention
    requires Spaced(Trace(s, map[], Attempts(events)), gap)
    ensures EventTrace(s, events) == Trace(s, map[], Attempts(events))
    ensures SameButOld(AfterEvents(s, events), After(s, map[], Attempts(events)), now, gap)
  {
    if events != [] {
      var before, e := events[..|events| - 1], events[|events| - 1];
      AttemptsInOrder(before, TimeOfEvent(e));
      SpacedBefore(s, events, before, e, gap);
      SweptRunSimulates(s, before, TimeOfEvent(e), gap);
      NextSimulates(s, events, before, e, now, gap);
    }
  }

  lemma NextSimulates(s: Settings, events: seq<Event>, before: seq<Event>, e: Event, now: int, gap: int)
    requires events == before + [e] && TimeOfEvent(e) <= now && (e.Sweep? ==> gap <= e.retention)
    requires ClockRuns(Attempts(before)) && NotBefore(Attempts(before), TimeOfEvent(e))
    requires Spaced(Trace(s, map[], Attempts(events)), gap)
    requires EventTrace(s, before) == Trace(s, map[], Attempts(before))
    requires SameButOld(AfterEvents(s, before), After(s, map[], Attempts(before)), TimeOfEvent(e), gap)
    ensures EventTrace(s, events) == Trace(s, map[], Attempts(events))
    ensures SameButOld(AfterEvents(s, events), After(s, map[], Attempts(events)), now, gap)
  {
    EventNext(s, before, e);
    if e.Sweep? {
      SweepSimulates(s, Attempts(before), AfterEvents(s, before), e, now, gap);
    } else {
      TrySimulates(s, Attempts(before), AfterEvents(s, before), e.attempt, now, gap);
    }
  }

  lemma EventNext(s: Settings, before: seq<Event>, e: Event)
    ensures Attempts(before + [e]) == if e.Try? then Attempts(before) + [e.attempt] else Attempts(before)
    ensures AfterEvents(s, before + [e]) ==
            if e.Try? then Tried(s, AfterEvents(s, before), e.attempt) else Swept(AfterEvents(s, before), e.at, e.retention)
    ensures EventTrace(s, before + [e]) ==
            if e.Try? then EventTrace(s, before) + [Entry(e.attempt, Decide(s, AfterEvents(s, before), e.attempt))]
            else EventTrace(s, before)
  {
    assert (before + [e])[..|before|] == before;
  }

  lemma SpacedBefore(s: Settings, events: seq<Event>, before: seq<Event>, e: Event, gap: int)
    requires events == before + [e] && Spaced(Trace(s, map[], Attempts(events)), gap)
    ensures Spaced(Trace(s, map[], Attempts(before)), gap)
  {
    EventNext(s, before, e);
    if e.Try? {
      var past, a := Attempts(before), e.attempt;
      OneMore(s, map[], past, a);
      SpacedPrefix(Trace(s, map[], past), Entry(a, Decide(s, After(s, map[], past), a)), gap);
    }
  }

  lemma SweepSimulates(s: Settings, past: seq<Attempt>, small: Table, e: Event, now: int, gap: int)
    requires e.Sweep? && e.at <= now && gap <= e.retention && ClockRuns(past) && NotBefore(past, e.at)
    requires SameButOld(small, After(s, map[], past), e.at, gap)
    ensures SameButOld(Swept(small, e.at, e.retention), After(s, map[], past), now, gap)
  {
    var full := After(s, map[], past);
    RowsTellHistory(s, past, "", e.at);
    OldSweep(s, small, full, e.at, e.retention, gap);
    OldStaysOld(s, Swept(small, e.at, e.retention), full, e.at, now, gap);
  }

  lemma TriedStaysOk(s: Settings, t: Table, a: Attempt)
    requires TableOk(s, t)
    ensures TableOk(s, Tried(s, t, a))
  {
  }

  lemma TrySimulates(s: Settings, past: seq<Attempt>, small: Table, a: Attempt, now: int, gap: int)
    requires a.at <= now && ClockRuns(past) && NotBefore(past, a.at)
    requires SameButOld(small, After(s, map[], past), a.at, gap)
    requires Spaced(Trace(s, map[], past + [a]), gap)
    ensures Trace(s, map[], past + [a]) == Trace(s, map[], past) + [Entry(a, Decide(s, small, a))]
    ensures SameButOld(Tried(s, small, a), After(s, map[], past + [a]), now, gap)
  {
    var full := After(s, map[], past);
    OneMore(s, map[], past, a);
    SpacedPrefix(Trace(s, map[], past), Entry(a, Decide(s, full, a)), gap);
    RowsTellHistory(s, past, a.key, a.at);
    OldAttempt(s, small, full, Trace(s, map[], past), a, gap);
    TriedStaysOk(s, full, a);
    OldStaysOld(s, Tried(s, small, a), Tried(s, full, a), a.at, now, gap);
  }

  /** Sweeps at any moments decide nothing, as long as the refusals of a streak are less than
      the shortest retention apart: the run with the sweeps and the run without them make the
      same decisions throughout. */
  lemma SweptRunsAgree(s: Settings, events: seq<Event>, gap: int)
    requires EventClockRuns(events)
    requires forall i | 0 <= i < |events| && events[i].Sweep? :: gap <= events[i].retention
    requires Spaced(Trace(s, map[], Attempts(events)), gap)
    ensures EventTrace(s, events) == Trace(s, map[], Attempts(events))
  {
    SweptRunSimulates(s, events, if events == [] then 0 else TimeOfEvent(events[|events| - 1]), gap);
  }

  /** Rows keep their form through sweeps as well. */
  lemma {:induction false} EventRowsOk(s: Settings, events: seq<Event>)
    ensures TableOk(s, AfterEvents(s, events))
  {
    if events != [] {
      EventRowsOk(s, events[..|events| - 1]);
    }
  }

  /** Refusals of the account since it was last accepted, locked, or forgotten by a sweep that
      found the last of them as old as its retention; told from what the callers saw and when the
      sweeps ran. */
  function KeptStreak(s: Settings, events: seq<Event>, key: string): nat {
    if events == [] then 0
    else
      var before, e := events[..|events| - 1], events[|events| - 1];
      NextStreak(s, EventTrace(s, before), KeptStreak(s, before, key), e, key)
  }

  function NextStreak(s: Settings, tr: seq<Entry>, streak: nat, e: Event, key: string): nat {
    match e
    case Try(a) =>
      if a.key != key || LockedByHistory(s, tr, key, a.at) then streak
      else if a.passwordOk || streak + 1 >= s.maxAttempts then 0
      else streak + 1
    case Sweep(at, retention) =>
      if LastRefusal(tr, key).Some? && LastRefusal(tr, key).value <= at - retention then 0 else streak
  }

  /** What the row of an account knows in a run with sweeps. */
  predicate EventRowTells(s: Settings, t: Table, events: seq<Event>, key: string, now: int) {
    RowHas(s, t, EventTrace(s, events), KeptStreak(s, events, key), key, now)
  }

  lemma TryTells(s: Settings, t: Table, tr: seq<Entry>, streak: nat, a: Attempt, key: string, now: int)
    requires TableOk(s, t) && RowHas(s, t, tr, streak, key, a.at) && a.at <= now
    ensures RowHas(s, Tried(s, t, a), tr + [Entry(a, Decide(s, t, a))], NextStreak(s, tr, streak, Try(a), key), key, now)
  {
    assert (tr + [Entry(a, Decide(s, t, a))])[..|tr|] == tr;
  }

  lemma SweepTells(s: Settings, t: Table, tr: seq<Entry>, streak: nat, at: int, retention: int, key: string, now: int)
    requires TableOk(s, t) && RowHas(s, t, tr, streak, key, at) && at <= now
    ensures RowHas(s, Swept(t, at, retention), tr, NextStreak(s, tr, streak, Sweep(at, retention), key), key, now)
  {
  }

  lemma EventTellsNext(s: Settings, events: seq<Event>, before: seq<Event>, e: Event, key: string, now: int)
    requires events == before + [e]
    requires EventRowTells(s, AfterEvents(s, before), before, key, TimeOfEvent(e)) && TimeOfEvent(e) <= now
    ensures EventRowTells(s, AfterEvents(s, events), events, key, now)
  {
    var t, tr, streak := AfterEvents(s, before), EventTrace(s, before), KeptStreak(s, before, key);
    EventRowsOk(s, before);
    EventNext(s, before, e);
    KeptStreakNext(s, before, e, key);
    match e
    case Try(a) => TryTells(s, t, tr, streak, a, key, now);
    case Sweep(at, retention) => SweepTells(s, t, tr, streak, at, retention, key, now);
  }

  lemma KeptStreakNext(s: Settings, before: seq<Event>, e: Event, key: string)
    ensures KeptStreak(s, before + [e], key) == NextStreak(s, EventTrace(s, before), KeptStreak(s, before, key), e, key)
  {
    assert (before + [e])[..|before|] == before;
  }

  lemma {:induction false} EventRowsTellHistory(s: Settings, events: seq<Event>, key: string, now: int)
    requires EventClockRuns(events) && (events != [] ==> TimeOfEvent(events[|events| - 1]) <= now)
    ensures EventRowTells(s, AfterEvents(s, events), events, key, now)
  {
    if events != [] {
      var before, e := events[..|events| - 1], events[|events| - 1];
      EventRowsTellHistory(s, before, key, TimeOfEvent(e));
      EventTellsNext(s, events, before, e, key, now);
    }
  }

  /** The decision that the history of the account calls for in a run with sweeps. */
  function EventExpected(s: Settings, before: seq<Event>, a: Attempt): Decision {
    var past := EventTrace(s, before);
    if LockedByHistory(s, past, a.key, a.at) then Locked(LastLock(past, a.key).value + s.lockoutMs - a.at)
    else if a.passwordOk then Accepted
    else Refused(KeptStreak(s, before, a.key) + 1 >= s.maxAttempts)
  }

  lemma EventRowsDecide(s: Settings, t: Table, before: seq<Event>, a: Attempt)
    requires TableOk(s, t) && EventRowTells(s, t, before, a.key, a.at)
    ensures Decide(s, t, a) == EventExpected(s, before, a)
  {
  }

  /** Every run of gated attempts and sweeps, whatever their spacing, with a clock that does not
      run back: the account is locked exactly while its last lock is less than `lockoutMs` old,
      and a refusal locks exactly when it is the `maxAttempts`-th of those that no sweep has
      forgotten. */
  lemma SweptDecisionsFollowHistory(s: Settings, before: seq<Event>, a: Attempt)
    requires EventClockRuns(before) && (before != [] ==> TimeOfEvent(before[|before| - 1]) <= a.at)
    ensures EventTrace(s, before + [Try(a)]) == EventTrace(s, before) + [Entry(a, EventExpected(s, before, a))]
  {
    EventNext(s, before, Try(a));
    EventRowsOk(s, before);
    EventRowsTellHistory(s, before, a.key, a.at);
    EventRowsDecide(s, AfterEvents(s, before), before, a);
  }

  /** At the end of every run with sweeps, a sweep keeps exactly the rows of the accounts that are
      locked or whose last refusal is later than the retention allows; told from what the callers
      saw. */
  lemma SweepDeletesIff(s: Settings, before: seq<Event>, at: int, retention: int, key: string)
    requires EventClockRuns(before) && (before != [] ==> TimeOfEvent(before[|before| - 1]) <= at)
    ensures var tr, t := EventTrace(s, before), AfterEvents(s, before);
            var t' := AfterEvents(s, before + [Sweep(at, retention)]);
            && (key in t' <==>
                  key in t && (LockedByHistory(s, tr, key, at)
                               || (LastRefusal(tr, key).Some? && LastRefusal(tr, key).value > at - retention)))
            && (key in t' ==> t'[key] == t[key])
  {
    EventNext(s, before, Sweep(at, retention));
    EventRowsOk(s, before);
    EventRowsTellHistory(s, before, key, at);
  }

  /** Recording a failure without asking the gate unlocks a locked account, if and only if one
      failure is not enough to lock it again. */
  lemma UngatedFailureUnlocksIff(s: Settings, t: Table, key: string, now: int)
    requires TableOk(s, t) && LockedFor(t, key, now) > 0 && s.lockoutMs > 0
    ensures LockedFor(Failed(s, t, key, now), key, now) <= 0 <==> s.maxAttempts > 1
  {
    assert t[key].failedCount == 0;
  }

  // ----- the table as it is stored

  datatype TextRow = TextRow(failedCount: nat, lastFailedAt: Option<string>, lockedUntil: Option<string>)

  predicate IsInstant(t: int) {
    FIRST <= t < END
  }

  predicate Storable(row: Row) {
    && (row.lastFailedAt.Some? ==> IsInstant(row.lastFailedAt.value))
    && (row.lockedUntil.Some? ==> IsInstant(row.lockedUntil.value))
  }

  function Column(write: Instant -> string, t: Option<int>): Option<string>
    requires t.Some? ==> IsInstant(t.value)
  {
    if t.Some? then Some(write(t.value)) else None
  }

  function Stored(write: Instant -> string, row: Row): TextRow
    requires Storable(row)
  {
    TextRow(row.failedCount, Column(write, row.lastFailedAt), Column(write, row.lockedUntil))
  }

  /** The rows as they are stored. */
  predicate Mirrors(write: Instant -> string, rows: map<string, TextRow>, table: Table) {
    && rows.Keys == table.Keys
    && forall k | k in table :: Storable(table[k]) && rows[k] == Stored(write, table[k])
  }

  lemma MirrorsPut(write: Instant -> string, rows: map<string, TextRow>, table: Table, key: string, row: Row)
    requires Mirrors(write, rows, table) && Storable(row)
    ensures Mirrors(write, rows[key := Stored(write, row)], table[key := row])
  {
  }

  /** The condition of the sweep's SQL, which compares texts. */
  predicate StaleText(row: TextRow, nowIso: string, cutoffIso: string) {
    && (row.lockedUntil.None? || !LexLess(nowIso, row.lockedUntil.value))
    && (row.lastFailedAt.None? || !LexLess(cutoffIso, row.lastFailedAt.value))
  }

  lemma StaleTextIff(write: Instant -> string, read: string -> Parsed, row: Row, now: Instant, retention: int)
    requires Faithful(write, read) && Storable(row) && IsInstant(now - retention)
    ensures StaleText(Stored(write, row), write(now), write(now - retention)) <==> Stale(row, now, retention)
  {
  }

  lemma MirrorsSweep(write: Instant -> string, read: string -> Parsed, rows: map<string, TextRow>, table: Table, now: Instant, retention: int)
    requires Faithful(write, read) && Mirrors(write, rows, table) && IsInstant(now - retention)
    ensures Mirrors(write, map k | k in rows && !StaleText(rows[k], write(now), write(now - retention)) :: rows[k], Swept(table, now, retention))
  {
    forall k | k in table
      ensures StaleText(rows[k], write(now), write(now - retention)) <==> Stale(table[k], now, retention)
    {
      StaleTextIff(write, read, table[k], now, retention);
    }
  }

  class Throttle {
    const settings: Settings
    /** Trims and lower-cases a user name. */
    const normalize: string -> string
    /** `toISOString` and `Date.parse`. */
    const write: Instant -> string
    const read: string -> Parsed
    var rows: map<string, TextRow>
    ghost var table: Table

    ghost predicate Valid()
      reads this
    {
      && Faithful(write, read)
      && Mirrors(write, rows, table)
    }

    constructor (settings: Settings, normalize: string -> string)
      ensures Valid() && table == map[]
      ensures this.settings == settings && this.normalize == normalize && write == Iso && read == Parse
    {
      this.settings, this.normalize, write, read, rows, table := settings, normalize, Iso, Parse, map[], map[];
      IsoIsFaithful();
    }

    /** The time that the account stays locked, if it is locked. */
    method AssertNotLocked(username: string, now: int) returns (retryAfterMs: Option<int>)
      requires Valid()
      ensures var left := LockedFor(table, normalize(username), now);
              retryAfterMs == if left > 0 then Some(left) else None
    {
      var key := normalize(username);
      if key !in rows || rows[key].lockedUntil.None? {
        return None;
      }
      var lockedUntil := read(rows[key].lockedUntil.value);
      if lockedUntil.Time? && lockedUntil.ms > now {
        return Some(lockedUntil.ms - now);
      }
      return None;
    }

    method RecordFailure(username: string, now: int) returns (locked: bool)
      requires Valid() && IsInstant(now) && IsInstant(now + settings.lockoutMs)
      modifies this
      ensures Valid() && table == Failed(settings, old(table), normalize(username), now)
      ensures locked == (CountAfterFailure(old(table), normalize(username), now) >= settings.maxAttempts)
    {
      var key := normalize(username);
      var count := 1;
      if key in rows {
        var expired := false;
        if rows[key].lockedUntil.Some? {
          var lockedUntil := read(rows[key].lockedUntil.value);
          expired := lockedUntil.Time? && lockedUntil.ms <= now;
        }
        count := (if expired then 0 else rows[key].failedCount) + 1;
      }
      assert count == CountAfterFailure(table, key, now);
      locked := count >= settings.maxAttempts;
      var lockedUntil := if locked then Some(write(now + settings.lockoutMs)) else None;
      MirrorsPut(write, rows, table, key, Failed(settings, table, key, now)[key]);
      rows := rows[key := TextRow(if locked then 0 else count, Some(write(now)), lockedUntil)];
      table := Failed(settings, table, key, now);
    }

    method RecordSuccess(username: string)
      requires Valid()
      modifies this
      ensures Valid() && table == old(table) - {normalize(username)}
    {
      rows := rows - {normalize(username)};
      table := table - {normalize(username)};
    }

    /** One login: the gate, then the outcome of the password check. */
    method Authenticate(username: string, passwordOk: bool, now: int) returns (decision: Decision)
      requires Valid() && IsInstant(now) && IsInstant(now + settings.lockoutMs)
      modifies this
      ensures Valid()
      ensures var a := Attempt(normalize(username), now, passwordOk);
              decision == Decide(settings, old(table), a) && table == Tried(settings, old(table), a)
    {
      var retryAfterMs := AssertNotLocked(username, now);
      if retryAfterMs.Some? {
        return Locked(retryAfterMs.value);
      }
      if !passwordOk {
        var locked := RecordFailure(username, now);
        return Refused(locked);
      }
      RecordSuccess(username);
      return Accepted;
    }

    /** Deletes by comparing texts, and so deletes the rows that are stale in time. */
    method CleanupStaleAttempts(now: int, retention: int) returns (deleted: nat)
      requires Valid() && IsInstant(now) && IsInstant(now - retention)
      modifies this
      ensures Valid() && table == Swept(old(table), now, retention)
      ensures deleted == |set k | k in old(table) && k !in table|
    {
      var nowIso, cutoffIso := write(now), write(now - retention);
      var kept := map k | k in rows && !StaleText(rows[k], nowIso, cutoffIso) :: rows[k];
      MirrorsSweep(write, read, rows, table, now, retention);
      SubsetSize(kept.Keys, rows.Keys);
      deleted := |rows| - |kept|;
      assert |rows| == |rows.Keys| && |kept| == |kept.Keys|;
      rows := kept;
      table := Swept(table, now, retention);
      assert (set k | k in old(table) && k !in table) == old(rows).Keys - rows.Keys;
    }
  }
}
