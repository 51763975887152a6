/** auth/mfa_lockout.go: the failure window and backoff shared by all MFA methods. */
module MfaLockout {
  import opened Prelude

  const SOFT_THRESHOLD: int := 10
  const HARD_CAP: int := 30
  const WINDOW: int := DAY
  const BACKOFF_CAP_MINUTES: int := 60

  /** The lockout row of a user; a missing row reads as BLANK. */
  datatype Lock = Lock(failed: int, windowStarted: Option<int>, lastFailed: Option<int>)

  const BLANK: Lock := Lock(0, None, None)

  /** 1 << exponent, for the exponents that the backoff can reach: no shift ever leaves the machine word. */
  function ShiftOne(exponent: int): (r: int)
    requires 0 <= exponent <= 19
    ensures r >= 1
  {
    if exponent == 0 then 1 else 2 * ShiftOne(exponent - 1)
  }

  /** The wait that is due after this many failures. */
  function Backoff(failed: int): (wait: int)
    requires SOFT_THRESHOLD <= failed < HARD_CAP
    ensures MINUTE <= wait <= BACKOFF_CAP_MINUTES * MINUTE
  {
    var minutes := ShiftOne(failed - SOFT_THRESHOLD);
    (if minutes > BACKOFF_CAP_MINUTES then BACKOFF_CAP_MINUTES else minutes) * MINUTE
  }

  function ComputeLockoutState(s: Lock, now: int): (bool, int) {
    if s.windowStarted.None? || now - s.windowStarted.value >= WINDOW then (true, 0)
    else if s.failed >= HARD_CAP then
      var wait := s.windowStarted.value + WINDOW - now;
      (false, if wait < 0 then 0 else wait)
    else if s.failed >= SOFT_THRESHOLD && s.lastFailed.Some? then
      var retryAt := s.lastFailed.value + Backoff(s.failed);
      if now < retryAt then (false, retryAt - now) else (true, 0)
    else (true, 0)
  }

  function RecordFailure(s: Lock, now: int): Lock {
    if s.windowStarted.None? || now - s.windowStarted.value >= WINDOW then Lock(1, Some(now), Some(now))
    else Lock(s.failed + 1, s.windowStarted, Some(now))
  }

  // ================================================================ the table

  /** How an attempt turns out once it is let through: a wrong code, a right one, or an error that is neither. */
  datatype Verdict = Wrong | Right | Neither

  datatype Outcome = LockedOut(retryAfter: int) | Counted | Cleared | Untouched

  function Attempt(s: Lock, now: int, verdict: Verdict): (Lock, Outcome) {
    var (allowed, retryAfter) := ComputeLockoutState(s, now);
    if !allowed then (s, LockedOut(retryAfter))
    else
      match verdict
      case Wrong => (RecordFailure(s, now), Counted)
      case Right => (BLANK, Cleared)
      case Neither => (s, Untouched)
  }

  class LockoutTable {
    var rows: map<string, Lock>

    constructor ()
      ensures rows == map[]
    {
      rows := map[];
    }

    function State(user: string): Lock
      reads this
    {
      if user in rows then rows[user] else BLANK
    }

    /** dbFails says whether the row cannot be read, or not be written. */
    method RecordMFAFailure(user: string, now: int, dbFails: bool) returns (ok: bool)
      modifies this
      ensures ok == !dbFails
      ensures rows == if ok then old(rows)[user := RecordFailure(old(State(user)), now)] else old(rows)
    {
      if dbFails { return false; }
      var cur := State(user);
      var attempts := 1;
      var windowStart := now;
      if !(cur.windowStarted.None? || now - cur.windowStarted.value >= WINDOW) {
        attempts := cur.failed + 1;
        windowStart := cur.windowStarted.value;
      }
      rows := rows[user := Lock(attempts, Some(windowStart), Some(now))];
      return true;
    }

    method ClearMFAFailures(user: string, dbFails: bool) returns (ok: bool)
      modifies this
      ensures ok == !dbFails
      ensures rows == if ok then old(rows) - {user} else old(rows)
    {
      if dbFails { return false; }
      rows := rows - {user};
      return true;
    }

    /**
     The order every MFA method follows: check the lockout, look at the code, record or clear. An attempt
     whose lockout cannot be read is refused; a failure that cannot be recorded, or a success that cannot be
     cleared, leaves the row as one that is neither.
    */
    method Verify(user: string, now: int, verdict: Verdict, readFails: bool, writeFails: bool)
      returns (outcome: Outcome)
      modifies this
      ensures readFails ==> outcome == Untouched && rows == old(rows)
      ensures !readFails ==>
                (State(user), outcome) == Attempt(old(State(user)), now, if writeFails then Neither else verdict)
      ensures outcome.LockedOut? ==> outcome.retryAfter > 0 && rows == old(rows)
      ensures outcome.Cleared? ==> user !in rows
      ensures forall other | other != user :: State(other) == old(State(other))
    {
      if readFails { return Untouched; }
      var (allowed, retryAfter) := ComputeLockoutState(State(user), now);
      if !allowed { return LockedOut(retryAfter); }
      match verdict {
        case Wrong =>
          var recorded := RecordMFAFailure(user, now, writeFails);
          return if recorded then Counted else Untouched;
        case Right =>
          var cleared := ClearMFAFailures(user, writeFails);
          return if cleared then Cleared else Untouched;
        case Neither =>
          return Untouched;
      }
    }
  }

  // ================================================================ the total backoff

  /** The minutes that must pass between a window's first failure and its n-th. */
  function TotalMinutes(n: int): int {
    if n <= 10 then 0
    else if n == 11 then 1
    else if n == 12 then 3
    else if n == 13 then 7
    else if n == 14 then 15
    else if n == 15 then 31
    else 60 * n - 897
  }

  function TotalBackoff(n: int): int {
    TotalMinutes(n) * MINUTE
  }

  /** TotalBackoff really adds up the waits that are due after each failure. */
  lemma TotalBackoffAddsUp(n: int)
    requires SOFT_THRESHOLD <= n < HARD_CAP
    ensures TotalBackoff(n + 1) == TotalBackoff(n) + Backoff(n)
  {
    if n < 16 {
      assert ShiftOne(2) == 4 && ShiftOne(4) == 16;
    } else {
      ShiftAtLeast64(n - SOFT_THRESHOLD);
    }
  }

  lemma {:induction false} ShiftAtLeast64(exponent: int)
    requires 6 <= exponent <= 19
    ensures ShiftOne(exponent) >= 64
  {
    if exponent == 6 {
      assert ShiftOne(2) == 4 && ShiftOne(4) == 16;
    } else {
      ShiftAtLeast64(exponent - 1);
    }
  }

  // ================================================================ what an attempt is told

  /** The window of a row is over at a moment 24 hours after it began. */
  predicate WindowOver(s: Lock, now: int) {
    s.windowStarted.None? || now >= s.windowStarted.value + 24 * HOUR
  }

  /** The moment from which an attempt is let through again: the end of the window after 30 failures, or of the wait. */
  function OpensAt(s: Lock): int
    requires s.windowStarted.Some? && (s.failed >= 30 || s.lastFailed.Some?)
  {
    if s.failed >= 30 then s.windowStarted.value + 24 * HOUR
    else s.lastFailed.value + TotalBackoff(s.failed + 1) - TotalBackoff(s.failed)
  }

  /**
   An attempt is refused exactly inside a window with ten failures or more, before the moment from which it
   is let through; a refusal says how long that is, to the nanosecond.
  */
  lemma RefusedExactly(s: Lock, now: int)
    ensures var locked := !WindowOver(s, now)
                          && (s.failed >= 30 || (s.failed >= 10 && s.lastFailed.Some? && now < OpensAt(s)));
            && ComputeLockoutState(s, now).0 == !locked
            && ComputeLockoutState(s, now).1 == (if locked then OpensAt(s) - now else 0)
  {
    if 10 <= s.failed < 30 {
      TotalBackoffAddsUp(s.failed);
    }
  }

  /** After 30 failures every attempt is refused until the announced moment, and let through at it. */
  lemma HardCapUntilWindowEnds(s: Lock, now: int, later: int)
    requires s.failed >= 30 && s.windowStarted.Some? && now < s.windowStarted.value + 24 * HOUR && now <= later
    ensures var (allowed, retryAfter) := ComputeLockoutState(s, now);
            && !allowed && now + retryAfter == s.windowStarted.value + 24 * HOUR
            && (ComputeLockoutState(s, later).0 <==> later >= now + retryAfter)
  {
  }

  /** A refused attempt is let through at the announced moment, and not before unless the window ends first. */
  lemma RetryAfterExact(s: Lock, now: int, later: int)
    requires !ComputeLockoutState(s, now).0 && now <= later
    ensures ComputeLockoutState(s, now).1 > 0
    ensures ComputeLockoutState(s, later).0
       <==> later >= now + ComputeLockoutState(s, now).1 || WindowOver(s, later)
    ensures s.failed >= 30 && WindowOver(s, later) ==> later >= now + ComputeLockoutState(s, now).1
  {
  }

  /** A failure counts on inside the window and opens a new one after it; a success leaves no row. */
  lemma AttemptExact(s: Lock, now: int, verdict: Verdict)
    requires ComputeLockoutState(s, now).0
    ensures var (s', outcome) := Attempt(s, now, verdict);
            && (verdict.Wrong? ==> outcome == Counted && s'.lastFailed == Some(now))
            && (verdict.Wrong? && WindowOver(s, now) ==> s'.failed == 1 && s'.windowStarted == Some(now))
            && (verdict.Wrong? && !WindowOver(s, now) ==>
                  s'.failed == s.failed + 1 && s'.windowStarted == s.windowStarted)
            && (verdict.Right? ==> outcome == Cleared && s' == BLANK)
            && (verdict.Neither? ==> outcome == Untouched && s' == s)
  {
  }

  // ================================================================ what a row keeps

  /** A row that attempts produced up to now: its last failure is no earlier than the backoffs allow. */
  ghost predicate RowInv(s: Lock, now: int) {
    s == BLANK ||
    (&& 1 <= s.failed <= HARD_CAP && s.windowStarted.Some? && s.lastFailed.Some?
     && s.windowStarted.value + TotalBackoff(s.failed) <= s.lastFailed.value <= now
     && s.lastFailed.value < s.windowStarted.value + WINDOW)
  }

  lemma AttemptKeepsRow(s: Lock, since: int, now: int, verdict: Verdict)
    requires RowInv(s, since) && since <= now
    ensures RowInv(Attempt(s, now, verdict).0, now)
  {
    if SOFT_THRESHOLD <= s.failed < HARD_CAP {
      TotalBackoffAddsUp(s.failed);
    }
  }

  /** A time-ordered run of one user's attempts. */
  datatype Try = Try(at: int, verdict: Verdict)

  ghost predicate Ordered(tries: seq<Try>, from: int) {
    && (forall k | 0 <= k < |tries| :: from <= tries[k].at)
    && forall j, k | 0 <= j < k < |tries| :: tries[j].at <= tries[k].at
  }

  function After(s: Lock, tries: seq<Try>): Lock
    decreases |tries|
  {
    if tries == [] then s else After(Attempt(s, tries[0].at, tries[0].verdict).0, tries[1..])
  }

  /** How many failures the run counts. */
  function CountedIn(s: Lock, tries: seq<Try>): nat
    decreases |tries|
  {
    if tries == [] then 0
    else
      var (s', outcome) := Attempt(s, tries[0].at, tries[0].verdict);
      (if outcome.Counted? then 1 else 0) + CountedIn(s', tries[1..])
  }

  predicate NoSuccess(s: Lock, tries: seq<Try>)
    decreases |tries|
  {
    tries == [] ||
    (var (s', outcome) := Attempt(s, tries[0].at, tries[0].verdict); !outcome.Cleared? && NoSuccess(s', tries[1..]))
  }

  /** One lockout window never holds more than 30 failures, in any run. */
  lemma {:induction false} WindowCapped(s: Lock, tries: seq<Try>, from: int)
    requires RowInv(s, from) && Ordered(tries, from)
    ensures After(s, tries).failed <= HARD_CAP
    ensures RowInv(After(s, tries), if tries == [] then from else tries[|tries| - 1].at)
    decreases |tries|
  {
    if tries != [] {
      AttemptKeepsRow(s, from, tries[0].at, tries[0].verdict);
      WindowCapped(Attempt(s, tries[0].at, tries[0].verdict).0, tries[1..], tries[0].at);
    }
  }

  /** Within one window the failures from the n-th to the m-th take at least the backoffs between them. */
  lemma {:induction false} BackoffsAddUp(s: Lock, tries: seq<Try>, from: int)
    requires RowInv(s, from) && Ordered(tries, from) && s.failed >= SOFT_THRESHOLD
    requires NoSuccess(s, tries)
    requires forall k | 0 <= k < |tries| :: tries[k].at < s.windowStarted.value + WINDOW
    ensures var s' := After(s, tries);
            && s'.windowStarted == s.windowStarted && s.failed <= s'.failed <= HARD_CAP && s'.lastFailed.Some?
            && s'.lastFailed.value - s.lastFailed.value >= TotalBackoff(s'.failed) - TotalBackoff(s.failed)
    decreases |tries|
  {
    if tries != [] {
      AttemptKeepsRow(s, from, tries[0].at, tries[0].verdict);
      if s.failed < HARD_CAP {
        TotalBackoffAddsUp(s.failed);
      }
      BackoffsAddUp(Attempt(s, tries[0].at, tries[0].verdict).0, tries[1..], tries[0].at);
    }
  }

  /** At least 903 minutes lie between a window's 10th failure and its 30th. */
  lemma TenthToThirtieth(s: Lock, tries: seq<Try>, from: int)
    requires RowInv(s, from) && Ordered(tries, from) && s.failed == SOFT_THRESHOLD
    requires NoSuccess(s, tries)
    requires forall k | 0 <= k < |tries| :: tries[k].at < s.windowStarted.value + WINDOW
    requires After(s, tries).failed == HARD_CAP
    ensures After(s, tries).lastFailed.Some?
    ensures After(s, tries).lastFailed.value - s.lastFailed.value >= 903 * MINUTE
  {
    BackoffsAddUp(s, tries, from);
  }

  // ================================================================ failures in any 24 hours

  /**
   Where a run without success stands inside the stretch from a on. counted is the number of failures so
   far; before is how many the row held when the stretch began, reached how many the old window got to.
  */
  ghost predicate InStretch(s: Lock, a: int, before: int, reached: int, counted: int) {
    && 0 <= before <= reached <= HARD_CAP && (before == 0 ==> reached == 0)
    && if s == BLANK then before == counted == 0
       else if s.windowStarted.None? || s.lastFailed.None? then false
       else if s.windowStarted.value < a then
         && before >= 1 && s.failed == reached && counted == reached - before
         && (counted > 0 ==> s.lastFailed.value >= a + TotalBackoff(reached) - TotalBackoff(before + 1))
       else
         && counted == reached - before + s.failed
         && (reached > before ==> s.windowStarted.value > a + TotalBackoff(reached) - TotalBackoff(before + 1))
  }

  lemma StretchAttempt(s: Lock, since: int, now: int, verdict: Verdict, a: int, before: int, reached: int, counted: int)
    returns (reached': int)
    requires RowInv(s, since) && since <= now && a <= now < a + DAY
    requires InStretch(s, a, before, reached, counted)
    requires !Attempt(s, now, verdict).1.Cleared?
    ensures var (s', outcome) := Attempt(s, now, verdict);
            InStretch(s', a, before, reached', counted + if outcome.Counted? then 1 else 0)
  {
    var (s', outcome) := Attempt(s, now, verdict);
    if SOFT_THRESHOLD <= s.failed < HARD_CAP {
      TotalBackoffAddsUp(s.failed);
    }
    reached' := if outcome.Counted? && s'.windowStarted.value < a then s'.failed else reached;
  }

  /** No state inside the stretch has counted more than 52. */
  lemma StretchBound(s: Lock, now: int, a: int, before: int, reached: int, counted: int)
    requires RowInv(s, now) && a <= now < a + DAY
    requires InStretch(s, a, before, reached, counted)
    ensures counted <= 52
  {
    if s != BLANK && s.windowStarted.value >= a && reached > before && before < SOFT_THRESHOLD {
      // Both windows' backoffs fit into one day, and TotalMinutes(n) >= 60 * n - 897.
      assert (TotalMinutes(reached) + TotalMinutes(s.failed)) * MINUTE < 1440 * MINUTE;
      assert TotalMinutes(reached) + TotalMinutes(s.failed) < 1440;
    }
  }

  lemma {:induction false} StretchRun(s: Lock, tries: seq<Try>, since: int, a: int, before: int, reached: int,
      counted: int)
    requires RowInv(s, since) && Ordered(tries, since) && NoSuccess(s, tries)
    requires forall k | 0 <= k < |tries| :: a <= tries[k].at < a + DAY
    requires InStretch(s, a, before, reached, counted) && counted <= 52
    ensures counted + CountedIn(s, tries) <= 52
    decreases |tries|
  {
    if tries != [] {
      var at, verdict := tries[0].at, tries[0].verdict;
      var (s', outcome) := Attempt(s, at, verdict);
      AttemptKeepsRow(s, since, at, verdict);
      var reached' := StretchAttempt(s, since, at, verdict, a, before, reached, counted);
      var counted' := counted + if outcome.Counted? then 1 else 0;
      StretchBound(s', at, a, before, reached', counted');
      StretchRun(s', tries[1..], at, a, before, reached', counted');
    }
  }

  /**
   After any earlier attempts, a half-open stretch of 24 hours without a success counts at most 52
   failures: fewer than two full windows, because a second window can open only a day after the first.
  */
  lemma AtMost52InADay(earlier: seq<Try>, tries: seq<Try>, start: int, a: int)
    requires Ordered(earlier, start) && start < a && forall k | 0 <= k < |earlier| :: earlier[k].at < a
    requires Ordered(tries, a) && forall k | 0 <= k < |tries| :: tries[k].at < a + DAY
    requires NoSuccess(After(BLANK, earlier), tries)
    ensures CountedIn(After(BLANK, earlier), tries) <= 52
  {
    var s := After(BLANK, earlier);
    WindowCapped(BLANK, earlier, start);
    var since := if earlier == [] then start else earlier[|earlier| - 1].at;
    StretchRun(s, tries, since, a, if s == BLANK then 0 else s.failed, if s == BLANK then 0 else s.failed, 0);
  }

  // ---------------------------------------------------------------- 52 is reached

  /**
   n wrong codes at the earliest moments the backoff allows: the k-th of a window at base +
   TotalBackoff(k), from k = from + 1 on.
  */
  function Burst(base: int, from: int, n: nat): seq<Try>
    requires 0 <= from && from + n <= HARD_CAP
    decreases n
  {
    if n == 0 then [] else [Try(base + TotalBackoff(from + 1), Wrong)] + Burst(base, from + 1, n - 1)
  }

  lemma BackoffGrows(n: int, m: int)
    requires n <= m
    ensures 0 <= TotalBackoff(n) <= TotalBackoff(m)
  {
    assert 0 <= TotalMinutes(n) <= TotalMinutes(m);
  }

  /** A wrong code that waits out the backoff inside the window is counted. */
  lemma WaitedOut(s: Lock, base: int)
    requires 1 <= s.failed < HARD_CAP && s.windowStarted.Some? && s.lastFailed.Some?
    requires s.lastFailed.value <= base + TotalBackoff(s.failed)
    requires base + TotalBackoff(s.failed + 1) < s.windowStarted.value + WINDOW
    ensures var now := base + TotalBackoff(s.failed + 1);
            Attempt(s, now, Wrong) == (Lock(s.failed + 1, s.windowStarted, Some(now)), Counted)
  {
    if s.failed >= SOFT_THRESHOLD {
      TotalBackoffAddsUp(s.failed);
    }
  }

  lemma OneCounted(s: Lock, next: Lock, now: int, more: seq<Try>)
    requires Attempt(s, now, Wrong) == (next, Counted)
    ensures CountedIn(s, [Try(now, Wrong)] + more) == 1 + CountedIn(next, more)
    ensures NoSuccess(s, [Try(now, Wrong)] + more) <==> NoSuccess(next, more)
  {
    assert ([Try(now, Wrong)] + more)[1..] == more;
  }

  /** A burst that stays inside the window is counted in full. */
  lemma {:induction false} BurstCounted(s: Lock, base: int, n: nat, rest: seq<Try>) returns (s': Lock)
    requires 1 <= s.failed && s.failed + n <= HARD_CAP && s.windowStarted.Some? && s.lastFailed.Some?
    requires s.lastFailed.value <= base + TotalBackoff(s.failed)
    requires base + TotalBackoff(s.failed + n) < s.windowStarted.value + WINDOW
    ensures s'.windowStarted == s.windowStarted
    ensures CountedIn(s, Burst(base, s.failed, n) + rest) == n + CountedIn(s', rest)
    ensures NoSuccess(s, Burst(base, s.failed, n) + rest) <==> NoSuccess(s', rest)
    decreases n
  {
    if n == 0 {
      assert Burst(base, s.failed, n) + rest == rest;
      s' := s;
    } else {
      var next := FirstCounted(s, base, n, rest);
      s' := BurstCounted(next, base, n - 1, rest);
    }
  }

  lemma BurstSplit(base: int, from: int, n: nat, rest: seq<Try>)
    requires n > 0 && 0 <= from && from + n <= HARD_CAP
    ensures Burst(base, from, n) + rest
         == [Try(base + TotalBackoff(from + 1), Wrong)] + (Burst(base, from + 1, n - 1) + rest)
  {
  }

  lemma FirstCounted(s: Lock, base: int, n: nat, rest: seq<Try>) returns (next: Lock)
    requires n > 0
    requires 1 <= s.failed && s.failed + n <= HARD_CAP && s.windowStarted.Some? && s.lastFailed.Some?
    requires s.lastFailed.value <= base + TotalBackoff(s.failed)
    requires base + TotalBackoff(s.failed + n) < s.windowStarted.value + WINDOW
    ensures next == Lock(s.failed + 1, s.windowStarted, Some(base + TotalBackoff(s.failed + 1)))
    ensures var more := Burst(base, s.failed + 1, n - 1) + rest;
            && CountedIn(s, Burst(base, s.failed, n) + rest) == 1 + CountedIn(next, more)
            && (NoSuccess(s, Burst(base, s.failed, n) + rest) <==> NoSuccess(next, more))
  {
    var now := base + TotalBackoff(s.failed + 1);
    var more := Burst(base, s.failed + 1, n - 1) + rest;
    next := Lock(s.failed + 1, s.windowStarted, Some(now));
    BackoffGrows(s.failed + 1, s.failed + n);
    BurstSplit(base, s.failed, n, rest);
    WaitedOut(s, base);
    OneCounted(s, next, now, more);
  }

  lemma {:induction false} BurstTimes(base: int, from: int, n: nat, last: int)
    requires 0 <= from && from + n <= last <= HARD_CAP
    ensures |Burst(base, from, n)| == n
    ensures forall k | 0 <= k < n :: base <= Burst(base, from, n)[k].at <= base + TotalBackoff(last)
    decreases n
  {
    if n > 0 {
      var rest := Burst(base, from + 1, n - 1);
      BurstTimes(base, from + 1, n - 1, last);
      BackoffGrows(from + 1, last);
      var burst := Burst(base, from, n);
      forall k | 0 <= k < n ensures base <= burst[k].at <= base + TotalBackoff(last) {
        if k > 0 {
          assert burst[k] == rest[k - 1];
        }
      }
    }
  }

  /**
   The bound is sharp: one failure at minute 0, then 29 more in that window from minute 484 on, then 23 in
   the next window, which opens at minute 1440; the last 52 all fall in the day that begins at minute 484.
  */
  lemma FiftyTwoReached()
    ensures var a := 484 * MINUTE;
            var first := After(BLANK, [Try(0, Wrong)]);
            var tries := Burst(a, 1, 29) + ([Try(DAY, Wrong)] + Burst(DAY, 1, 22));
            && CountedIn(first, tries) == 52 && NoSuccess(first, tries)
            && forall k | 0 <= k < |tries| :: a <= tries[k].at < a + DAY
  {
    var a := 484 * MINUTE;
    var first := Lock(1, Some(0), Some(0));
    assert [Try(0, Wrong)][1..] == [];
    var second := Lock(1, Some(DAY), Some(DAY));
    var next := [Try(DAY, Wrong)] + Burst(DAY, 1, 22);
    assert next[1..] == Burst(DAY, 1, 22) + [];
    var full := BurstCounted(first, a, 29, next);
    SecondBurst(full, next, second);
    BurstTimes(a, 1, 29, 30);
    BurstTimes(DAY, 1, 22, 23);
  }

  lemma SecondBurst(full: Lock, next: seq<Try>, second: Lock)
    requires full.windowStarted == Some(0) && second == Lock(1, Some(DAY), Some(DAY))
    requires next != [] && next[0] == Try(DAY, Wrong) && next[1..] == Burst(DAY, 1, 22) + []
    ensures CountedIn(full, next) == 23 && NoSuccess(full, next)
  {
    var end := BurstCounted(second, DAY, 22, []);
  }
}
