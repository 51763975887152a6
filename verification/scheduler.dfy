/** billing/scheduler.go: aligned ticks and one sweep per UTC day. */
module Scheduler {
  import opened Prelude

  // ================================================================ boundaries

  /**
   The smallest multiple of the interval strictly after now; an interval that is not positive counts as
   one hour. Instants count from Go's zero time, to which Truncate is aligned.
  */
  function NextTickBoundary(now: nat, interval: int): int {
    var step := EffectiveInterval(interval);
    var next := now - now % step + step;
    if next <= now then next + step else next
  }

  function EffectiveInterval(interval: int): (step: int)
    ensures step > 0
  {
    if interval <= 0 then HOUR else interval
  }

  lemma BoundaryIsLeast(now: nat, interval: int, other: nat)
    ensures var step, next := if interval <= 0 then HOUR else interval, NextTickBoundary(now, interval);
            && next % step == 0 && now < next <= now + step
            && (other % step == 0 && other > now ==> next <= other)
  {
    var step := EffectiveInterval(interval);
    var next := NextTickBoundary(now, interval);
    var q := now / step;
    assert now == q * step + now % step;
    assert next == (q + 1) * step;
    MultipleMod(q + 1, step);
    if other % step == 0 && other > now {
      var p := other / step;
      assert other == p * step;
      if p <= q {
        MultipleMonotone(p, q, step);
      } else {
        MultipleMonotone(q + 1, p, step);
      }
    }
  }

  lemma {:induction false} MultipleMod(q: nat, step: int)
    requires step > 0
    ensures (q * step) % step == 0
  {
    if q > 0 {
      MultipleMod(q - 1, step);
      assert q * step == (q - 1) * step + step;
      AddStep((q - 1) * step, step);
    }
  }

  lemma AddStep(x: nat, step: int)
    requires step > 0
    ensures (x + step) % step == x % step
  {
    var q, r := x / step, x % step;
    assert x + step == (q + 1) * step + r;
    RemainderUnique(x + step, q + 1, r, step);
  }

  // ================================================================ the sweep time

  /** Two ASCII digits; a byte below '0' wraps to a large one in Go and is refused like a letter. */
  function AtoiTwoDigit(s: string): (n: Option<int>)
    ensures n.Some? ==> 0 <= n.value <= 99
  {
    if |s| != 2 || !('0' <= s[0] <= '9') || !('0' <= s[1] <= '9') then None
    else Some((s[0] - '0') as int * 10 + (s[1] - '0') as int)
  }

  /** "HH:MM" as minutes after midnight. */
  function ParseHHMM(s: string): (minute: Option<int>)
    ensures minute.Some? ==> 0 <= minute.value < 24 * 60
  {
    if |s| != 5 || s[2] != ':' then None
    else
      var h, m := AtoiTwoDigit(s[0..2]), AtoiTwoDigit(s[3..5]);
      if h.None? || m.None? || h.value > 23 || m.value > 59 then None
      else Some(h.value * 60 + m.value)
  }

  function Digit(d: int): char
    requires 0 <= d <= 9
  {
    '0' + d as char
  }

  /** The one way to write a time of day that the parser accepts. */
  function FormatHHMM(minute: int): string
    requires 0 <= minute < 24 * 60
  {
    var h, m := minute / 60, minute % 60;
    [Digit(h / 10), Digit(h % 10), ':', Digit(m / 10), Digit(m % 10)]
  }

  lemma TwoDigits(a: char, b: char, n: int)
    requires 0 <= n <= 99
    ensures AtoiTwoDigit([a, b]) == Some(n) <==> a == Digit(n / 10) && b == Digit(n % 10)
  {
  }

  /** The parser accepts exactly the formatted times of day, each as itself. */
  lemma ParseHHMMInverse(s: string, minute: int)
    requires 0 <= minute < 24 * 60
    ensures ParseHHMM(s) == Some(minute) <==> s == FormatHHMM(minute)
  {
    if |s| == 5 {
      assert s[0..2] == [s[0], s[1]] && s[3..5] == [s[3], s[4]];
      assert s == [s[0], s[1], s[2], s[3], s[4]];
      TwoDigits(s[0], s[1], minute / 60);
      TwoDigits(s[3], s[4], minute % 60);
    }
  }

  // Instants are aligned to UTC midnight, so a date is the number of whole days and DAY its length.

  function DateOf(now: int): int {
    now / DAY
  }

  /** The sweep boundary of today has passed and today has not been swept. */
  predicate ShouldRunSweep(now: int, sweepAt: string, lastSweep: Option<int>) {
    && lastSweep != Some(DateOf(now))
    && ReachedSweepTime(now, sweepAt)
  }

  predicate ReachedSweepTime(now: int, sweepAt: string) {
    ParseHHMM(sweepAt).Some? && now >= DateOf(now) * DAY + ParseHHMM(sweepAt).value * MINUTE
  }

  // ================================================================ sleeping

  /** How far the clock has moved after the first k naps. */
  function Slept(naps: seq<int>, k: nat): int
    requires k <= |naps|
  {
    if k == 0 then 0 else Slept(naps, k - 1) + naps[k - 1]
  }

  /**
   Waits for the target, asking for at most one second of sleep at a time. naps[k] is how far the clock
   really moves during the k-th sleep; cancelled[k] is whether the context is found cancelled before it.
   It returns true after the first sleep that ends at the target or later, false on the first
   cancellation before that; running out of naps stands for a clock observed no further.
  */
  method SleepUntil(start: int, target: int, naps: seq<int>, cancelled: seq<bool>)
    returns (reached: bool, asked: seq<int>)
    requires |cancelled| == |naps|
    ensures |asked| <= |naps|
    ensures forall k | 0 <= k < |asked| ::
              && !cancelled[k] && start + Slept(naps, k) < target
              && 0 < asked[k] <= SECOND && start + Slept(naps, k) + asked[k] <= target
              && (asked[k] == SECOND || start + Slept(naps, k) + asked[k] == target)
    ensures reached <==> start + Slept(naps, |asked|) >= target
    ensures !reached ==> |asked| == |naps| || cancelled[|asked|]
  {
    var now := start;
    asked := [];
    while now < target
      invariant |asked| <= |naps| && now == start + Slept(naps, |asked|)
      invariant forall k | 0 <= k < |asked| ::
                  && !cancelled[k] && start + Slept(naps, k) < target
                  && 0 < asked[k] <= SECOND && start + Slept(naps, k) + asked[k] <= target
                  && (asked[k] == SECOND || start + Slept(naps, k) + asked[k] == target)
      decreases |naps| - |asked|
    {
      var remaining := target - now;
      var chunk := if remaining < SECOND then remaining else SECOND;
      if |asked| == |naps| || cancelled[|asked|] { return false, asked; }
      now := now + naps[|asked|];
      asked := asked + [chunk];
    }
    return true, asked;
  }

  // ================================================================ the loop

  /**
   One round of the loop as the clock sees it: the reading that the target is computed from, whether a
   rate could be resolved after the sleep, and the reading that the tick and the sweep use.
  */
  datatype Round = Round(start: nat, rateResolved: bool, now: nat)

  /** The clock never goes back, and a sleep ends at its target or later. */
  ghost predicate ClockRuns(rounds: seq<Round>, interval: int) {
    && (forall k | 0 <= k < |rounds| :: NextTickBoundary(rounds[k].start, interval) <= rounds[k].now)
    && (forall j, k | 0 <= j < k < |rounds| :: rounds[j].now <= rounds[k].start)
  }

  /** The loop's lastSweepDate after n rounds. */
  function LastSweep(rounds: seq<Round>, sweepAt: string, n: nat): Option<int>
    requires n <= |rounds|
    decreases n, 0
  {
    if n == 0 then None
    else if Sweeps(rounds, sweepAt, n - 1) then Some(DateOf(rounds[n - 1].now))
    else LastSweep(rounds, sweepAt, n - 1)
  }

  /** Round k sweeps; a round without a rate goes straight to the next one. */
  predicate Sweeps(rounds: seq<Round>, sweepAt: string, k: nat)
    requires k < |rounds|
    decreases k, 1
  {
    rounds[k].rateResolved && ShouldRunSweep(rounds[k].now, sweepAt, LastSweep(rounds, sweepAt, k))
  }

  /** What the loop did: the targets it slept to, and by round whether it ticked and swept. */
  datatype Log = Log(targets: seq<int>, ticked: seq<bool>, swept: seq<bool>)

  method Run(rounds: seq<Round>, interval: int, sweepAt: string) returns (log: Log)
    ensures |log.targets| == |log.ticked| == |log.swept| == |rounds|
    ensures forall k | 0 <= k < |rounds| :: log.targets[k] == NextTickBoundary(rounds[k].start, interval)
    ensures forall k | 0 <= k < |rounds| :: log.ticked[k] == rounds[k].rateResolved
    ensures forall k | 0 <= k < |rounds| :: log.swept[k] == Sweeps(rounds, sweepAt, k)
    ensures ClockRuns(rounds, interval) ==>
              forall k, minute | 0 <= k < |rounds| && 0 <= minute < 24 * 60 && sweepAt == FormatHHMM(minute) ::
                log.swept[k] <==> FirstDue(rounds, minute, k)
    ensures (forall minute | 0 <= minute < 24 * 60 :: sweepAt != FormatHHMM(minute)) ==>
              forall k | 0 <= k < |rounds| :: !log.swept[k]
  {
    var targets, ticked, swept := [], [], [];
    var lastSweep: Option<int> := None;
    for k := 0 to |rounds|
      invariant |targets| == |ticked| == |swept| == k
      invariant lastSweep == LastSweep(rounds, sweepAt, k)
      invariant forall j | 0 <= j < k :: targets[j] == NextTickBoundary(rounds[j].start, interval)
      invariant forall j | 0 <= j < k :: ticked[j] == rounds[j].rateResolved
      invariant forall j | 0 <= j < k :: swept[j] == Sweeps(rounds, sweepAt, j)
    {
      targets := targets + [NextTickBoundary(rounds[k].start, interval)];
      if !rounds[k].rateResolved {
        ticked, swept := ticked + [false], swept + [false];
        continue;
      }
      ticked := ticked + [true];
      if ShouldRunSweep(rounds[k].now, sweepAt, lastSweep) {
        swept := swept + [true];
        lastSweep := Some(DateOf(rounds[k].now));
      } else {
        swept := swept + [false];
      }
    }
    log := Log(targets, ticked, swept);
    SweptWhenFirstDue(rounds, interval, sweepAt, swept);
  }

  // ================================================================ what the loop achieves

  /** Tick targets strictly increase, whatever the rate resolution does. */
  lemma TargetsIncrease(rounds: seq<Round>, interval: int, j: nat, k: nat)
    requires ClockRuns(rounds, interval) && j < k < |rounds|
    ensures NextTickBoundary(rounds[j].start, interval) < NextTickBoundary(rounds[k].start, interval)
  {
    BoundaryIsLeast(rounds[k].start, interval, 0);
  }

  /** The round could sweep: it has a rate and falls at or after the configured time of its day. */
  predicate Reaches(rounds: seq<Round>, sweepAt: string, k: nat)
    requires k < |rounds|
  {
    rounds[k].rateResolved && ReachedSweepTime(rounds[k].now, sweepAt)
  }

  /** lastSweepDate is the date of the latest round that could sweep, swept in it or before it. */
  lemma {:induction false} LastSweepIsLatest(rounds: seq<Round>, sweepAt: string, n: nat)
    requires n <= |rounds|
    ensures match LastSweep(rounds, sweepAt, n)
            case None => forall j | 0 <= j < n :: !Reaches(rounds, sweepAt, j)
            case Some(date) =>
              exists j | 0 <= j < n :: Reaches(rounds, sweepAt, j) && DateOf(rounds[j].now) == date
                && forall i | j < i < n :: !Reaches(rounds, sweepAt, i)
  {
    if n > 0 {
      LastSweepIsLatest(rounds, sweepAt, n - 1);
      if Reaches(rounds, sweepAt, n - 1) {
        assert LastSweep(rounds, sweepAt, n) == Some(DateOf(rounds[n - 1].now));
      } else {
        assert LastSweep(rounds, sweepAt, n) == LastSweep(rounds, sweepAt, n - 1);
        if LastSweep(rounds, sweepAt, n).Some? {
          var j :| 0 <= j < n - 1 && Reaches(rounds, sweepAt, j)
            && DateOf(rounds[j].now) == LastSweep(rounds, sweepAt, n).value
            && forall i | j < i < n - 1 :: !Reaches(rounds, sweepAt, i);
          assert forall i | j < i < n :: !Reaches(rounds, sweepAt, i);
        }
      }
    }
  }

  /**
   With a clock that never goes back, a round sweeps exactly when it is the first of its date that could:
   so a date is swept as soon as, and only if, one of its rounds reaches the configured time with a rate.
  */
  lemma SweepsIffFirst(rounds: seq<Round>, interval: int, sweepAt: string, k: nat)
    requires ClockRuns(rounds, interval) && k < |rounds|
    ensures Sweeps(rounds, sweepAt, k)
       <==> Reaches(rounds, sweepAt, k)
            && forall j | 0 <= j < k && DateOf(rounds[j].now) == DateOf(rounds[k].now) :: !Reaches(rounds, sweepAt, j)
  {
    LastSweepIsLatest(rounds, sweepAt, k);
    var last := LastSweep(rounds, sweepAt, k);
    if last.Some? {
      var j :| 0 <= j < k && Reaches(rounds, sweepAt, j) && DateOf(rounds[j].now) == last.value
        && forall i | j < i < k :: !Reaches(rounds, sweepAt, i);
      forall i | 0 <= i < k && Reaches(rounds, sweepAt, i) && DateOf(rounds[i].now) == DateOf(rounds[k].now)
        ensures last.value == DateOf(rounds[k].now)
      {
        ClockOrder(rounds, interval, i, j);
        ClockOrder(rounds, interval, j, k);
      }
    }
  }

  lemma ClockOrder(rounds: seq<Round>, interval: int, i: nat, j: nat)
    requires ClockRuns(rounds, interval) && i <= j < |rounds|
    ensures DateOf(rounds[i].now) <= DateOf(rounds[j].now)
  {
    BoundaryIsLeast(rounds[j].start, interval, 0);
  }

  /** The round could sweep at a time of day given in minutes: it has a rate, and that time has come on its date. */
  predicate Due(round: Round, minute: int) {
    round.rateResolved && round.now % DAY >= minute * MINUTE
  }

  /** The first round of its date that could. */
  ghost predicate FirstDue(rounds: seq<Round>, minute: int, k: nat)
    requires k < |rounds|
  {
    && Due(rounds[k], minute)
    && forall j | 0 <= j < k && rounds[j].now / DAY == rounds[k].now / DAY :: !Due(rounds[j], minute)
  }

  lemma ReachesWhenDue(rounds: seq<Round>, minute: int, j: nat)
    requires 0 <= minute < 24 * 60 && j < |rounds|
    ensures Reaches(rounds, FormatHHMM(minute), j) <==> Due(rounds[j], minute)
  {
    ParseHHMMInverse(FormatHHMM(minute), minute);
  }

  /**
   For a configured time HH:MM, a round sweeps exactly when it has a rate, that many hours and minutes of its
   date have passed, and no earlier round of the date had both.
  */
  lemma SweepsAtTimeOfDay(rounds: seq<Round>, interval: int, minute: int, k: nat)
    requires ClockRuns(rounds, interval) && k < |rounds| && 0 <= minute < 24 * 60
    ensures Sweeps(rounds, FormatHHMM(minute), k) <==> FirstDue(rounds, minute, k)
  {
    SweepsIffFirst(rounds, interval, FormatHHMM(minute), k);
    forall j | 0 <= j < |rounds| ensures Reaches(rounds, FormatHHMM(minute), j) <==> Due(rounds[j], minute) {
      ReachesWhenDue(rounds, minute, j);
    }
  }

  /** For a configured text that is no time of day, nothing is ever swept. */
  lemma NoTimeNoSweep(rounds: seq<Round>, sweepAt: string, k: nat)
    requires k < |rounds| && forall minute | 0 <= minute < 24 * 60 :: sweepAt != FormatHHMM(minute)
    ensures !Sweeps(rounds, sweepAt, k)
  {
    if ParseHHMM(sweepAt).Some? {
      ParseHHMMInverse(sweepAt, ParseHHMM(sweepAt).value);
    }
  }

  lemma SweptWhenFirstDue(rounds: seq<Round>, interval: int, sweepAt: string, swept: seq<bool>)
    requires |swept| == |rounds| && forall k | 0 <= k < |rounds| :: swept[k] == Sweeps(rounds, sweepAt, k)
    ensures ClockRuns(rounds, interval) ==>
              forall k, minute | 0 <= k < |rounds| && 0 <= minute < 24 * 60 && sweepAt == FormatHHMM(minute) ::
                swept[k] <==> FirstDue(rounds, minute, k)
    ensures (forall minute | 0 <= minute < 24 * 60 :: sweepAt != FormatHHMM(minute)) ==>
              forall k | 0 <= k < |rounds| :: !swept[k]
  {
    if ClockRuns(rounds, interval) {
      forall k, minute | 0 <= k < |rounds| && 0 <= minute < 24 * 60 && sweepAt == FormatHHMM(minute)
        ensures swept[k] <==> FirstDue(rounds, minute, k)
      {
        SweepsAtTimeOfDay(rounds, interval, minute, k);
      }
    }
    if forall minute | 0 <= minute < 24 * 60 :: sweepAt != FormatHHMM(minute) {
      forall k | 0 <= k < |rounds| ensures !swept[k] {
        NoTimeNoSweep(rounds, sweepAt, k);
      }
    }
  }

  /** The notation, at one time of day: five minutes past three in the afternoon. */
  lemma FormatAt1505()
    ensures FormatHHMM(15 * 60 + 5) == "15:05"
  {
  }

  /** No date is swept twice, and a date with a round that could sweep is swept once. */
  lemma OneSweepPerDate(rounds: seq<Round>, interval: int, sweepAt: string, k: nat)
    requires ClockRuns(rounds, interval) && k < |rounds|
    ensures Sweeps(rounds, sweepAt, k) ==>
              forall j | 0 <= j < |rounds| && j != k && DateOf(rounds[j].now) == DateOf(rounds[k].now) ::
                !Sweeps(rounds, sweepAt, j)
    ensures Reaches(rounds, sweepAt, k) ==>
              exists j | 0 <= j <= k :: DateOf(rounds[j].now) == DateOf(rounds[k].now) && Sweeps(rounds, sweepAt, j)
  {
    forall j | 0 <= j < |rounds| && j != k && DateOf(rounds[j].now) == DateOf(rounds[k].now)
               && Sweeps(rounds, sweepAt, k)
      ensures !Sweeps(rounds, sweepAt, j)
    {
      SweepsIffFirst(rounds, interval, sweepAt, j);
      SweepsIffFirst(rounds, interval, sweepAt, k);
    }
    if Reaches(rounds, sweepAt, k) {
      var first := k;
      while exists j | 0 <= j < first :: DateOf(rounds[j].now) == DateOf(rounds[k].now) && Reaches(rounds, sweepAt, j)
        invariant 0 <= first <= k && Reaches(rounds, sweepAt, first)
        invariant DateOf(rounds[first].now) == DateOf(rounds[k].now)
        decreases first
      {
        var j :| 0 <= j < first && DateOf(rounds[j].now) == DateOf(rounds[k].now) && Reaches(rounds, sweepAt, j);
        first := j;
      }
      SweepsIffFirst(rounds, interval, sweepAt, first);
    }
  }
}
