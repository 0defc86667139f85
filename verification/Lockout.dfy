/**
  Failure budgets for one rate-limit key: the answers of `CheckLoginLockout` and
  `RecordLoginFailure`, what they allow over a whole run of failures, and why deleting
  stale budgets cannot be noticed.
 */
module Lockout {
  import opened Basics

  const LOGIN_FAILURE_LIMIT := 5
  const LOGIN_LOCKOUT_WINDOW: Time := HOUR
  const LOGIN_LOCKOUT_LENGTH: Time := 15 * MINUTE
  const LOGIN_ATTEMPT_RETENTION: Time := 24 * HOUR

  datatype Attempt = Attempt(failures: int, windowStartedAt: Time, lockedUntil: Option<Time>)

  datatype Answer = Answer(locked: bool, retryAfter: Time)

  const OPEN := Answer(false, 0)

  predicate LockedAt(row: Option<Attempt>, now: Time) {
    row.Some? && row.value.lockedUntil.Some? && now < row.value.lockedUntil.value
  }

  function Check(row: Option<Attempt>, now: Time): Answer {
    if LockedAt(row, now) then Answer(true, row.value.lockedUntil.value - now) else OPEN
  }

  predicate WindowOver(a: Attempt, now: Time) {
    a.windowStartedAt == ZERO_TIME || now - a.windowStartedAt > LOGIN_LOCKOUT_WINDOW
  }

  /** The row after one failed attempt at `now`; a locked row is left alone. */
  function Fail(row: Option<Attempt>, now: Time): Attempt {
    var a := if row.Some? then row.value else Attempt(0, now, None);
    if LockedAt(row, now) then a else
    var b := if WindowOver(a, now) then Attempt(0, now, None) else a;
    var c := b.(failures := b.failures + 1);
    if c.failures >= LOGIN_FAILURE_LIMIT then c.(lockedUntil := Some(now + LOGIN_LOCKOUT_LENGTH)) else c
  }

  function FailAnswer(row: Option<Attempt>, now: Time): Answer {
    if LockedAt(row, now) then Check(row, now)
    else if Fail(row, now).failures >= LOGIN_FAILURE_LIMIT then Answer(true, LOGIN_LOCKOUT_LENGTH)
    else OPEN
  }

  /** The answer to a failure is what a check right after it would say. */
  lemma FailureAnswersLikeNextCheck(row: Option<Attempt>, now: Time)
    ensures FailAnswer(row, now) == Check(Some(Fail(row, now)), now)
  {
  }

  // ---------- A run of failures on one key ----------

  predicate Ordered(times: seq<Time>) {
    forall i, j :: 0 <= i < j < |times| ==> times[i] <= times[j]
  }

  /** The row left by failures at these times, starting from a key with no row. */
  function After(times: seq<Time>): Option<Attempt> {
    if times == [] then None else
    var n := |times| - 1;
    Some(Fail(After(times[..n]), times[n]))
  }

  /** How many of the calls were counted, that is, did not meet an active lock. */
  function Counted(times: seq<Time>): nat {
    if times == [] then 0 else
    var n := |times| - 1;
    Counted(times[..n]) + (if LockedAt(After(times[..n]), times[n]) then 0 else 1)
  }

  /** How many windows the run opened. */
  function Windows(times: seq<Time>): nat {
    if times == [] then 0 else
    var n := |times| - 1;
    var row := After(times[..n]);
    Windows(times[..n])
    + (if row.None? || (!LockedAt(row, times[n]) && WindowOver(row.value, times[n])) then 1 else 0)
  }

  /**
    Of failures within an hour, the first four leave the key open and the fifth locks it for a quarter of an hour; the
    row counts them from the first.
   */
  lemma {:induction false} FifthFailureLocks(times: seq<Time>)
    requires Ordered(times) && ZERO_TIME !in times && 1 <= |times| <= 5
    requires times[|times| - 1] - times[0] <= 3_600_000_000_000
    ensures After(times) ==
              Some(Attempt(|times|, times[0], if |times| == 5 then Some(times[4] + 900_000_000_000) else None))
    ensures FailAnswer(After(times[..|times| - 1]), times[|times| - 1]) ==
              if |times| == 5 then Answer(true, 900_000_000_000) else Answer(false, 0)
  {
    var n := |times| - 1;
    if n > 0 {
      var before := times[..n];
      assert before[0] == times[0] && before[n - 1] == times[n - 1];
      assert forall t :: t in before ==> t in times;
      FifthFailureLocks(before);
    } else {
      assert times[..n] == [];
    }
  }

  /**
    A failure once the hour is over, and no lock is in force, opens a new window and is its first; a further one
    inside the hour, after the lock has run out, locks the key again at once.
   */
  lemma LaterFailures(a: Attempt, now: Time)
    requires a.windowStartedAt != ZERO_TIME && (a.lockedUntil == None || a.lockedUntil.value <= now)
    ensures now - a.windowStartedAt > 3_600_000_000_000 ==> Fail(Some(a), now) == Attempt(1, now, None)
    ensures now - a.windowStartedAt <= 3_600_000_000_000 && a.failures >= 4 ==>
              Fail(Some(a), now) == Attempt(a.failures + 1, a.windowStartedAt, Some(now + 900_000_000_000))
  {
  }

  /** What every row reached by an ordered run satisfies at the time of its latest call. */
  predicate Budgeted(a: Attempt, now: Time) {
    && 1 <= a.failures <= 9
    && ZERO_TIME != a.windowStartedAt <= now
    && (a.failures < LOGIN_FAILURE_LIMIT ==> a.lockedUntil == None)
    && (a.failures >= LOGIN_FAILURE_LIMIT ==>
          && a.lockedUntil.Some?
          && a.windowStartedAt + (a.failures - 4) * LOGIN_LOCKOUT_LENGTH <= a.lockedUntil.value
          && a.lockedUntil.value <= now + LOGIN_LOCKOUT_LENGTH)
  }

  lemma {:induction false} RunStaysBudgeted(times: seq<Time>)
    requires Ordered(times) && times != [] && ZERO_TIME !in times
    ensures Budgeted(After(times).value, times[|times| - 1])
  {
    var n := |times| - 1;
    if n > 0 {
      assert times[..n][0] == times[0] && times[..n][n - 1] == times[n - 1];
      RunStaysBudgeted(times[..n]);
    }
  }

  /**
    The k-th counted failure of a window, for k >= 5, comes at least (k - 5) * 15 minutes
    after the window opened; so no window counts more than nine failures.
   */
  lemma {:induction false} KthFailureIsLate(times: seq<Time>)
    requires Ordered(times) && times != [] && ZERO_TIME !in times
    ensures var n := |times| - 1; var row := After(times).value;
            && row.failures <= 9
            && (!LockedAt(After(times[..n]), times[n]) && row.failures >= LOGIN_FAILURE_LIMIT ==>
                  times[n] >= row.windowStartedAt + (row.failures - 5) * LOGIN_LOCKOUT_LENGTH)
  {
    var n := |times| - 1;
    RunStaysBudgeted(times);
    if n > 0 {
      assert times[..n][0] == times[0] && times[..n][n - 1] == times[n - 1];
      RunStaysBudgeted(times[..n]);
    }
  }

  lemma {:induction false} WindowsSpreadOut(times: seq<Time>)
    requires Ordered(times) && times != [] && ZERO_TIME !in times
    ensures Windows(times) >= 1
    ensures After(times).value.windowStartedAt >= times[0] + (Windows(times) - 1) * LOGIN_LOCKOUT_WINDOW
    ensures Counted(times) <= 9 * (Windows(times) - 1) + After(times).value.failures
  {
    var n := |times| - 1;
    if n > 0 {
      var before := times[..n];
      assert before[0] == times[0] && before[n - 1] == times[n - 1];
      WindowsSpreadOut(before);
      RunStaysBudgeted(before);
    } else {
      assert times[..n] == [];
    }
  }

  /** A run of failures lasting D counts at most 9 * (floor(D / 1h) + 1) of them. */
  lemma {:induction false} RunIsRateLimited(times: seq<Time>)
    requires Ordered(times) && times != [] && ZERO_TIME !in times
    ensures Counted(times) <= 9 * ((times[|times| - 1] - times[0]) / LOGIN_LOCKOUT_WINDOW + 1)
  {
    WindowsSpreadOut(times);
    RunStaysBudgeted(times);
    var d := times[|times| - 1] - times[0];
    var w := Windows(times) - 1;
    assert w * LOGIN_LOCKOUT_WINDOW <= d;
    assert w <= d / LOGIN_LOCKOUT_WINDOW;
  }

  /** The bound needs a real clock: at Go's zero time the window never closes and nothing ever locks. */
  lemma {:induction false} ZeroClockNeverLocks(times: seq<Time>)
    requires times != [] && forall i :: 0 <= i < |times| ==> times[i] == ZERO_TIME
    ensures After(times) == Some(Attempt(1, ZERO_TIME, None)) && Counted(times) == |times|
  {
    var n := |times| - 1;
    if n > 0 {
      ZeroClockNeverLocks(times[..n]);
    }
  }

  /** The row after further failures. */
  function FailAll(row: Option<Attempt>, times: seq<Time>): Option<Attempt> {
    if times == [] then row else
    var n := |times| - 1;
    Some(Fail(FailAll(row, times[..n]), times[n]))
  }

  /**
    Failures met by an active lock leave it alone, however many there are; and at no time
    does a run of failures leave more than 15 minutes to wait.
   */
  lemma {:induction false} ActiveLockIsNeverExtended(row: Attempt, until: Time, times: seq<Time>)
    requires row.lockedUntil == Some(until)
    requires forall i :: 0 <= i < |times| ==> times[i] < until
    ensures FailAll(Some(row), times) == Some(row)
    ensures forall i :: 0 <= i < |times| ==> FailAnswer(Some(row), times[i]) == Answer(true, until - times[i])
  {
    if times != [] {
      ActiveLockIsNeverExtended(row, until, times[..|times| - 1]);
    }
  }

  lemma {:induction false} LockIsAtMostFifteenMinutes(times: seq<Time>, now: Time)
    requires Ordered(times) && times != [] && ZERO_TIME !in times && times[|times| - 1] <= now
    ensures Check(After(times), now).retryAfter <= 15 * MINUTE
    ensures now >= times[|times| - 1] + 15 * MINUTE ==> !LockedAt(After(times), now)
  {
    RunStaysBudgeted(times);
  }

  // ---------- Deleting stale budgets ----------

  type Attempts = map<string, Attempt>

  predicate Stale(a: Attempt, now: Time) {
    a.windowStartedAt < now - LOGIN_ATTEMPT_RETENTION && (a.lockedUntil.None? || a.lockedUntil.value < now)
  }

  function Row(attempts: Attempts, key: string): Option<Attempt> {
    if key in attempts then Some(attempts[key]) else None
  }

  function PruneAttempts(attempts: Attempts, now: Time): Attempts {
    map key | key in attempts && !Stale(attempts[key], now) :: attempts[key]
  }

  datatype Call =
    | CheckCall(key: string, at: Time)
    | FailureCall(key: string, at: Time)
    | SuccessCall(key: string)
    | PruneCall(at: Time)

  function Effect(attempts: Attempts, c: Call): Attempts {
    match c
    case CheckCall(_, _) => attempts
    case FailureCall(key, now) => attempts[key := Fail(Row(attempts, key), now)]
    case SuccessCall(key) => attempts - {key}
    case PruneCall(now) => PruneAttempts(attempts, now)
  }

  function Reply(attempts: Attempts, c: Call): Option<Answer> {
    match c
    case CheckCall(key, now) => Some(Check(Row(attempts, key), now))
    case FailureCall(key, now) => Some(FailAnswer(Row(attempts, key), now))
    case SuccessCall(_) => None
    case PruneCall(_) => None
  }

  /** The answers of a run; `pruning` says whether prune calls delete anything. */
  function Replies(attempts: Attempts, calls: seq<Call>, pruning: bool): seq<Option<Answer>>
    decreases |calls|
  {
    if calls == [] then [] else
    var next := if calls[0].PruneCall? && !pruning then attempts else Effect(attempts, calls[0]);
    [Reply(attempts, calls[0])] + Replies(next, calls[1..], pruning)
  }

  predicate TimedFrom(calls: seq<Call>, start: Time) {
    if calls == [] then true
    else if calls[0].SuccessCall? then TimedFrom(calls[1..], start)
    else start <= calls[0].at && TimedFrom(calls[1..], calls[0].at)
  }

  /** `thin` lacks some rows of `full`, all of them stale at `now`. */
  predicate SameButStale(thin: Attempts, full: Attempts, now: Time) {
    && (forall key :: key in thin ==> key in full && thin[key] == full[key])
    && (forall key :: key in full && key !in thin ==> Stale(full[key], now))
  }

  lemma {:induction false} ThinStoreAnswersAlike(thin: Attempts, full: Attempts, calls: seq<Call>, start: Time)
    requires SameButStale(thin, full, start) && TimedFrom(calls, start)
    ensures Replies(thin, calls, true) == Replies(full, calls, false)
    decreases |calls|
  {
    if calls != [] {
      var c := calls[0];
      var thinNext := Effect(thin, c);
      var fullNext := if c.PruneCall? then full else Effect(full, c);
      var now := if c.SuccessCall? then start else c.at;
      assert SameButStale(thinNext, fullNext, now);
      ThinStoreAnswersAlike(thinNext, fullNext, calls[1..], now);
    }
  }

  /** Running any calls with pruning and with every prune skipped gives the same answers. */
  lemma {:induction false} PruningIsUnobservable(attempts: Attempts, calls: seq<Call>, start: Time)
    requires TimedFrom(calls, start)
    ensures Replies(attempts, calls, true) == Replies(attempts, calls, false)
  {
    ThinStoreAnswersAlike(attempts, attempts, calls, start);
  }
}
