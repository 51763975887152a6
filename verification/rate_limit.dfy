/** handlers/middleware.go: the RateLimitManager and its progressive penalties. */
module RateLimit {
  import opened Prelude

  /** Windows are UTC days; their "2025-06-20" names order like day numbers. */
  datatype Key = Key(entity: string, window: int, endpoint: string)

  datatype Record = Record(requests: int, lastRequest: int, violations: int, penaltyUntil: Option<int>)

  datatype Config = Config(enabled: bool, multiplier: real, maxDelay: int, maxViolations: int, retentionDays: nat)

  const BASE_DELAY: int := 30 * SECOND

  // ================================================================ penalties

  /** One escalation: the delay times the multiplier, cut to whole nanoseconds. */
  function Scaled(delay: int, multiplier: real): int {
    (delay as real * multiplier).Floor
  }

  /** The escalation loop from round i on. */
  function Escalate(c: Config, delay: int, i: int, violations: int): int
    decreases violations - i
  {
    if i >= violations then delay
    else
      var next := Scaled(delay, c.multiplier);
      if next > c.maxDelay then c.maxDelay else Escalate(c, next, i + 1, violations)
  }

  function Penalty(c: Config, violations: int): int {
    if violations > c.maxViolations then c.maxDelay else Escalate(c, BASE_DELAY, 1, violations)
  }

  method CalculatePenalty(c: Config, violations: int) returns (penalty: int)
    ensures penalty == Penalty(c, violations)
  {
    if violations > c.maxViolations { return c.maxDelay; }
    var baseDelay := BASE_DELAY;
    var i := 1;
    while i < violations
      invariant Escalate(c, BASE_DELAY, 1, violations) == Escalate(c, baseDelay, i, violations)
    {
      baseDelay := Scaled(baseDelay, c.multiplier);
      if baseDelay > c.maxDelay { return c.maxDelay; }
      i := i + 1;
    }
    return baseDelay;
  }

  lemma ScaledGrows(delay: int, multiplier: real)
    requires multiplier >= 1.0 && delay >= 0
    ensures Scaled(delay, multiplier) >= delay
  {
    assert delay as real * multiplier >= delay as real;
  }

  lemma {:induction false} EscalateWithin(c: Config, delay: int, i: int, violations: int)
    requires c.multiplier >= 1.0 && 0 <= delay <= c.maxDelay
    ensures delay <= Escalate(c, delay, i, violations) <= c.maxDelay
    ensures Escalate(c, delay, i, violations) <= Escalate(c, delay, i, violations + 1)
    decreases violations - i
  {
    ScaledGrows(delay, c.multiplier);
    var next := Scaled(delay, c.multiplier);
    if i < violations {
      if next <= c.maxDelay {
        EscalateWithin(c, next, i + 1, violations);
      }
    } else if i == violations && next <= c.maxDelay {
      assert Escalate(c, next, i + 1, violations + 1) == next;
    }
  }

  function Power(m: nat, n: nat): nat {
    if n == 0 then 1 else m * Power(m, n - 1)
  }

  lemma {:induction false} PowerPositive(m: nat, n: nat)
    requires m >= 1
    ensures Power(m, n) >= 1
  {
    if n > 0 {
      PowerPositive(m, n - 1);
    }
  }

  lemma ScaledWhole(delay: nat, m: nat)
    ensures Scaled(delay, m as real) == delay * m
  {
    assert delay as real * m as real == (delay * m) as real;
  }

  lemma Regroup(a: nat, m: nat, p: nat)
    requires p >= 1
    ensures a * (m * p) == a * m * p && a * m * p >= a * m
  {
  }

  lemma {:induction false} EscalateIsPower(c: Config, m: nat, delay: nat, i: int, violations: int)
    requires c.multiplier == m as real && m >= 1 && delay <= c.maxDelay && i <= violations
    ensures Escalate(c, delay, i, violations) == Least(delay * Power(m, violations - i), c.maxDelay)
    decreases violations - i
  {
    if i < violations {
      var p := Power(m, violations - i - 1);
      ScaledWhole(delay, m);
      PowerPositive(m, violations - i - 1);
      Regroup(delay, m, p);
      if delay * m <= c.maxDelay {
        EscalateIsPower(c, m, delay * m, i + 1, violations);
      }
    }
  }

  /** With a whole multiplier m, the v-th penalty is 30 seconds times m^(v-1), capped at the maximum. */
  lemma PenaltyIsGeometric(c: Config, m: nat, violations: int)
    requires c.multiplier == m as real && m >= 1 && c.maxDelay >= BASE_DELAY
    requires 1 <= violations <= c.maxViolations
    ensures Penalty(c, violations) == Least(BASE_DELAY * Power(m, violations - 1), c.maxDelay)
  {
    EscalateIsPower(c, m, BASE_DELAY, 1, violations);
  }

  /** Past the configured number of violations the penalty is the maximum. */
  lemma PenaltyPastMaximum(c: Config, violations: int)
    requires violations > c.maxViolations
    ensures Penalty(c, violations) == c.maxDelay
  {
  }

  /**
   For any multiplier of at least 1 the first penalty is 30 seconds, and each further one is the one before
   times the multiplier, cut to whole nanoseconds and capped at the maximum.
  */
  lemma PenaltyStep(c: Config, violations: int)
    requires c.multiplier >= 1.0 && c.maxDelay >= 30 * SECOND && 1 <= violations <= c.maxViolations
    ensures violations == 1 ==> Penalty(c, violations) == 30 * SECOND
    ensures violations > 1 ==>
              Penalty(c, violations) == Least((Penalty(c, violations - 1) as real * c.multiplier).Floor, c.maxDelay)
  {
    if violations > 1 {
      EscalateStep(c, BASE_DELAY, 1, violations);
    }
  }

  lemma {:induction false} EscalateStep(c: Config, delay: int, i: int, violations: int)
    requires c.multiplier >= 1.0 && 0 <= delay <= c.maxDelay && i < violations
    ensures Escalate(c, delay, i, violations)
         == Least(Scaled(Escalate(c, delay, i, violations - 1), c.multiplier), c.maxDelay)
    decreases violations - i
  {
    var next := Scaled(delay, c.multiplier);
    ScaledGrows(delay, c.multiplier);
    if next > c.maxDelay {
      ScaledGrows(c.maxDelay, c.multiplier);
    } else if i + 1 < violations {
      EscalateStep(c, next, i + 1, violations);
    } else {
      assert Escalate(c, next, i + 1, violations) == next;
    }
  }

  /** Penalties that matter: those of a first or later violation. */
  ghost predicate NeverOverMax(c: Config) {
    forall v | v >= 1 :: Penalty(c, v) <= c.maxDelay
  }

  ghost predicate NeverShrinks(c: Config) {
    forall v, w | 1 <= v <= w :: Penalty(c, v) <= Penalty(c, w)
  }

  lemma {:induction false} PenaltyGrows(c: Config, v: int, w: int)
    requires c.multiplier >= 1.0 && c.maxDelay >= BASE_DELAY && 1 <= v <= w
    ensures Penalty(c, v) <= Penalty(c, w) <= c.maxDelay
    decreases w
  {
    EscalateWithin(c, BASE_DELAY, 1, w);
    if v < w {
      PenaltyGrows(c, v, w - 1);
      EscalateWithin(c, BASE_DELAY, 1, w - 1);
    }
  }

  /**
   For every multiplier of at least 1, penalties never exceed the configured maximum, and never shrink as
   violations add up, exactly when the maximum is at least the 30-second base delay (or no violation is
   escalated at all).
  */
  lemma PenaltySoundIff(c: Config)
    requires c.multiplier >= 1.0
    ensures NeverOverMax(c) <==> c.maxDelay >= BASE_DELAY || c.maxViolations < 1
    ensures NeverShrinks(c) <==> c.maxDelay >= BASE_DELAY || c.maxViolations < 1
  {
    if c.maxDelay >= BASE_DELAY {
      forall v, w | 1 <= v <= w ensures Penalty(c, v) <= Penalty(c, w) <= c.maxDelay {
        PenaltyGrows(c, v, w);
      }
      assert forall v | v >= 1 :: Penalty(c, v) <= Penalty(c, v);
    } else if c.maxViolations >= 1 {
      ScaledGrows(BASE_DELAY, c.multiplier);
      assert Penalty(c, 1) == BASE_DELAY && Penalty(c, 2) == c.maxDelay;
    }
  }

  // ================================================================ the manager

  datatype Manager = Manager(cache: map<Key, Record>, rows: map<Key, Record>)

  /** The state a check starts from: cached, else loaded, else new; a failed load counts as no row. */
  function Current(m: Manager, key: Key, now: int, loadFails: bool): Record {
    if key in m.cache then m.cache[key]
    else if key in m.rows && !loadFails then m.rows[key]
    else Record(0, now, 0, None)
  }

  predicate UnderPenalty(r: Record, now: int) {
    r.penaltyUntil.Some? && now < r.penaltyUntil.value
  }

  /** One request counted, with a penalty if it is over the limit. */
  function Count(c: Config, r: Record, limit: int, now: int): Record {
    var counted := r.(requests := r.requests + 1, lastRequest := now);
    if counted.requests > limit then
      counted.(violations := r.violations + 1, penaltyUntil := Some(now + Penalty(c, r.violations + 1)))
    else counted
  }

  function Check(c: Config, m: Manager, key: Key, limit: int, now: int, loadFails: bool,
      saveFails: bool): (Manager, bool) {
    var r := Current(m, key, now, loadFails);
    if !c.enabled then (m, false)
    else if UnderPenalty(r, now) then (m.(cache := m.cache[key := r]), true)
    else
      var counted := Count(c, r, limit, now);
      (Manager(m.cache[key := counted], if saveFails then m.rows else m.rows[key := counted]), counted.requests > limit)
  }

  function Cleaned(c: Config, m: Manager, now: int, dbFails: bool): Manager {
    if dbFails then m
    else
      var cutoff := now / DAY - c.retentionDays;
      Manager(map k | k in m.cache && k.window >= cutoff :: m.cache[k],
              map k | k in m.rows && k.window >= cutoff :: m.rows[k])
  }

  class RateLimitManager {
    const config: Config
    var cache: map<Key, Record>
    var rows: map<Key, Record>

    constructor (config: Config, rows: map<Key, Record>)
      ensures this.config == config && View() == Manager(map[], rows)
    {
      this.config, this.cache, this.rows := config, map[], rows;
    }

    function View(): Manager
      reads this
    {
      Manager(cache, rows)
    }

    method SaveStateToDB(key: Key, saveFails: bool)
      requires key in cache
      modifies this`rows
      ensures rows == if saveFails then old(rows) else old(rows)[key := cache[key]]
    {
      if !saveFails {
        rows := rows[key := cache[key]];
      }
    }

    method CheckRateLimit(entity: string, endpoint: string, limit: int, now: int, loadFails: bool, saveFails: bool)
      returns (limited: bool)
      modifies this
      ensures (View(), limited)
           == Check(config, old(View()), Key(entity, now / DAY, endpoint), limit, now, loadFails, saveFails)
    {
      if !config.enabled { return false; }
      var key := Key(entity, now / DAY, endpoint);
      if key !in cache {
        var state := Record(0, now, 0, None);
        if key in rows && !loadFails {
          state := rows[key];
        }
        cache := cache[key := state];
      }
      assert cache == old(cache)[key := Current(old(View()), key, now, loadFails)];
      if cache[key].penaltyUntil.Some? && now < cache[key].penaltyUntil.value { return true; }
      var counted := cache[key].(requests := cache[key].requests + 1, lastRequest := now);
      if counted.requests > limit {
        counted := counted.(violations := counted.violations + 1);
        var penalty := CalculatePenalty(config, counted.violations);
        counted := counted.(penaltyUntil := Some(now + penalty));
        cache := cache[key := counted];
        SaveStateToDB(key, saveFails);
        assert cache == old(cache)[key := counted];
        return true;
      }
      cache := cache[key := counted];
      assert cache == old(cache)[key := counted];
      SaveStateToDB(key, saveFails);
      return false;
    }

    method Cleanup(now: int, dbFails: bool)
      modifies this
      ensures View() == Cleaned(config, old(View()), now, dbFails)
      ensures dbFails ==> View() == old(View())
      ensures !dbFails ==> forall k ::
                && (k in cache <==> k in old(cache) && k.window >= now / (24 * HOUR) - config.retentionDays)
                && (k in rows <==> k in old(rows) && k.window >= now / (24 * HOUR) - config.retentionDays)
                && (k in cache ==> cache[k] == old(cache)[k]) && (k in rows ==> rows[k] == old(rows)[k])
    {
      var cutoff := now / DAY - config.retentionDays;
      if dbFails { return; }
      rows := map k | k in rows && k.window >= cutoff :: rows[k];
      ghost var keptRows := rows;
      var rest := cache.Keys;
      while rest != {}
        invariant rest <= old(cache).Keys && rows == keptRows
        invariant forall k :: k in cache <==> k in old(cache) && (k in rest || k.window >= cutoff)
        invariant forall k | k in cache :: cache[k] == old(cache)[k]
        decreases rest
      {
        var key :| key in rest;
        rest := rest - {key};
        if key.window < cutoff {
          cache := map k | k in cache && k != key :: cache[k];
        }
      }
      assert cache == map k | k in old(cache) && k.window >= cutoff :: old(cache)[k];
    }
  }

  // ================================================================ histories

  datatype Op =
    | CheckOp(entity: string, endpoint: string, limit: int, at: int, loadFails: bool, saveFails: bool)
    | Restart
    | CleanupOp(at: int, dbFails: bool)

  const EMPTY: Manager := Manager(map[], map[])

  function KeyOf(op: Op): Key
    requires op.CheckOp?
  {
    Key(op.entity, op.at / DAY, op.endpoint)
  }

  predicate Checks(op: Op, key: Key) {
    op.CheckOp? && KeyOf(op) == key
  }

  /** The manager after the op, and whether a check is refused. */
  function Perform(c: Config, m: Manager, op: Op): (Manager, bool) {
    match op
    case CheckOp(_, _, limit, at, loadFails, saveFails) => Check(c, m, KeyOf(op), limit, at, loadFails, saveFails)
    case Restart => (m.(cache := map[]), false)
    case CleanupOp(at, dbFails) => (Cleaned(c, m, at, dbFails), false)
  }

  /** The answers, in order, to the checks of this key. */
  function Answers(c: Config, m: Manager, ops: seq<Op>, key: Key): seq<bool>
    decreases |ops|
  {
    if ops == [] then []
    else
      var (m', refused) := Perform(c, m, ops[0]);
      (if Checks(ops[0], key) then [refused] else []) + Answers(c, m', ops[1..], key)
  }

  /** Counted after n earlier checks, exactly the checks beyond the limit are refused. */
  ghost predicate Exact(answers: seq<bool>, limit: int, n: nat) {
    forall k | 0 <= k < |answers| :: answers[k] <==> n + k >= limit
  }

  predicate Timed(op: Op) { !op.Restart? }

  /** A clock that does not go back, and one limit for the key. */
  ghost predicate Orderly(ops: seq<Op>, from: int, key: Key, limit: int) {
    && (forall k | 0 <= k < |ops| && Timed(ops[k]) :: from <= ops[k].at)
    && (forall j, k | 0 <= j < k < |ops| && Timed(ops[j]) && Timed(ops[k]) :: ops[j].at <= ops[k].at)
    && (forall k | 0 <= k < |ops| && Checks(ops[k], key) :: ops[k].limit == limit)
  }

  function Later(op: Op, now: int): int {
    if Timed(op) then op.at else now
  }

  lemma OrderlyRest(ops: seq<Op>, from: int, key: Key, limit: int)
    requires ops != [] && Orderly(ops, from, key, limit)
    ensures Orderly(ops[1..], Later(ops[0], from), key, limit)
  {
  }

  /** What one check does to the states: none but its own, which it counts on and saves unless it is under penalty. */
  lemma CheckExact(c: Config, m: Manager, key: Key, limit: int, now: int, loadFails: bool, saveFails: bool)
    requires c.enabled
    ensures var (m', refused) := Check(c, m, key, limit, now, loadFails, saveFails);
            var before := if key in m.cache then m.cache[key]
                          else if key in m.rows && !loadFails then m.rows[key]
                          else Record(0, now, 0, None);
            && key in m'.cache
            && m'.cache == m.cache[key := m'.cache[key]]
            && (refused <==> before.requests >= limit || (before.penaltyUntil.Some? && now < before.penaltyUntil.value))
            && (before.penaltyUntil.Some? && now < before.penaltyUntil.value ==>
                  m'.cache[key] == before && m'.rows == m.rows)
            && (before.penaltyUntil.None? || now >= before.penaltyUntil.value ==>
                  && m'.cache[key].requests == before.requests + 1 && m'.cache[key].lastRequest == now
                  && m'.rows == if saveFails then m.rows else m.rows[key := m'.cache[key]])
  {
  }

  /** Limiting that is switched off refuses nothing and counts nothing. */
  lemma DisabledRefusesNothing(c: Config, m: Manager, key: Key, limit: int, now: int, loadFails: bool, saveFails: bool)
    requires !c.enabled
    ensures Check(c, m, key, limit, now, loadFails, saveFails) == (m, false)
  {
  }

  // ================================================================ what the manager remembers

  function Requests(m: map<Key, Record>, key: Key): int {
    if key in m then m[key].requests else 0
  }

  /** The count that the next check of the key starts from, if its load succeeds. */
  function Memory(m: Manager, key: Key): int {
    if key in m.cache then m.cache[key].requests else Requests(m.rows, key)
  }

  /** A state is under penalty only if its count is over the limit. */
  ghost predicate SaneRecord(r: Record, limit: int) {
    r.requests >= 0 && (r.requests <= limit ==> r.penaltyUntil.None?)
  }

  ghost predicate Sane(m: Manager, key: Key, limit: int) {
    && (key in m.cache ==> SaneRecord(m.cache[key], limit))
    && (key in m.rows ==> SaneRecord(m.rows[key], limit))
  }

  /**
   The op loses requests, counted up to the limit: a restart drops a cached state that its row does not
   match, or a row is not loaded.
  */
  predicate Forgets(m: Manager, op: Op, key: Key, limit: int) {
    match op
    case CheckOp(_, _, _, _, loadFails, _) =>
      Checks(op, key) && key !in m.cache && loadFails && Least(Requests(m.rows, key), limit) != Least(0, limit)
    case Restart => Least(Memory(m, key), limit) != Least(Requests(m.rows, key), limit)
    case CleanupOp(_, _) => false
  }

  /** Some op forgets while the key's window lasts. */
  predicate Forgotten(c: Config, m: Manager, ops: seq<Op>, key: Key, limit: int, now: int)
    decreases |ops|
  {
    ops != [] &&
    (var later := Later(ops[0], now);
     || (later / DAY <= key.window && Forgets(m, ops[0], key, limit))
     || Forgotten(c, Perform(c, m, ops[0]).0, ops[1..], key, limit, later))
  }

  /** After n checks the manager remembers all of them, up to the limit. */
  ghost predicate Intact(m: Manager, key: Key, limit: int, n: nat) {
    && Sane(m, key, limit)
    && Least(Memory(m, key), limit) == Least(n, limit)
    && Least(Requests(m.rows, key), limit) <= Least(n, limit)
  }

  /** Neither the cache nor the row remembers enough. */
  ghost predicate Broken(m: Manager, key: Key, limit: int, n: nat) {
    && Sane(m, key, limit)
    && Least(Memory(m, key), limit) < Least(n, limit)
    && Least(Requests(m.rows, key), limit) < Least(n, limit)
  }

  function Made(op: Op, key: Key, n: nat): nat {
    if Checks(op, key) then n + 1 else n
  }

  /** The op answers as it should after n checks of the key. */
  predicate Right(c: Config, m: Manager, op: Op, key: Key, limit: int, n: nat) {
    Checks(op, key) ==> (Perform(c, m, op).1 <==> n >= limit)
  }

  /** While the window lasts, an intact manager answers right and stays intact, unless it forgets. */
  lemma IntactStep(c: Config, m: Manager, op: Op, key: Key, limit: int, n: nat)
    requires c.enabled && Intact(m, key, limit, n) && (Checks(op, key) ==> op.limit == limit)
    requires Timed(op) ==> op.at / DAY <= key.window
    ensures var m' := Perform(c, m, op).0;
            if Forgets(m, op, key, limit) then
              Broken(m', key, limit, Made(op, key, n)) || !Right(c, m, op, key, limit, n)
            else
              Intact(m', key, limit, Made(op, key, n)) && Right(c, m, op, key, limit, n)
  {
    if Checks(op, key) {
      IntactCheck(c, m, key, limit, op.at, op.loadFails, op.saveFails, n);
    }
  }

  lemma IntactCheck(c: Config, m: Manager, key: Key, limit: int, now: int, loadFails: bool, saveFails: bool, n: nat)
    requires c.enabled && Intact(m, key, limit, n)
    ensures var (m', refused) := Check(c, m, key, limit, now, loadFails, saveFails);
            if key !in m.cache && loadFails && Least(Requests(m.rows, key), limit) != Least(0, limit) then
              Broken(m', key, limit, n + 1) || (n >= limit && !refused)
            else
              Intact(m', key, limit, n + 1) && (refused <==> n >= limit)
  {
  }

  /** A broken manager stays broken until it answers wrong. */
  lemma BrokenStep(c: Config, m: Manager, op: Op, key: Key, limit: int, n: nat)
    requires c.enabled && Broken(m, key, limit, n) && (Checks(op, key) ==> op.limit == limit)
    requires Timed(op) ==> op.at / DAY <= key.window
    ensures Broken(Perform(c, m, op).0, key, limit, Made(op, key, n)) || !Right(c, m, op, key, limit, n)
    ensures Checks(op, key) && n >= limit ==> !Right(c, m, op, key, limit, n)
  {
  }

  lemma DaysGrow(a: int, b: int)
    requires a <= b
    ensures a / DAY <= b / DAY
  {
  }

  lemma ExactSplit(c: Config, m: Manager, ops: seq<Op>, key: Key, limit: int, n: nat)
    requires ops != []
    ensures Exact(Answers(c, m, ops, key), limit, n)
       <==> && Right(c, m, ops[0], key, limit, n)
            && Exact(Answers(c, Perform(c, m, ops[0]).0, ops[1..], key), limit, Made(ops[0], key, n))
  {
    var (m', refused) := Perform(c, m, ops[0]);
    var answers, rest := Answers(c, m, ops, key), Answers(c, m', ops[1..], key);
    if Checks(ops[0], key) {
      assert answers == [refused] + rest;
      if Exact(answers, limit, n) {
        assert answers[0] <==> n >= limit;
        forall k | 0 <= k < |rest| ensures rest[k] <==> n + 1 + k >= limit {
          assert answers[k + 1] == rest[k];
        }
      }
      if (refused <==> n >= limit) && Exact(rest, limit, n + 1) {
        forall k | 0 <= k < |answers| ensures answers[k] <==> n + k >= limit {
          assert k > 0 ==> answers[k] == rest[k - 1];
        }
      }
    } else {
      assert answers == rest;
    }
  }

  // ================================================================ what a window admits

  /**
   While limiting is enabled, with one limit, over any history of checks, restarts, cleanups, failing loads
   and failing saves in which nothing is forgotten, the manager admits exactly the first limit requests of
   an entity to an endpoint in a window, and refuses all others.
  */
  lemma {:induction false} AdmitsExactlyLimit(c: Config, m: Manager, ops: seq<Op>, key: Key, limit: int, n: nat,
      now: int)
    requires c.enabled && Orderly(ops, now, key, limit) && !Forgotten(c, m, ops, key, limit, now)
    requires now / DAY <= key.window ==> Intact(m, key, limit, n)
    ensures Exact(Answers(c, m, ops, key), limit, n)
    decreases |ops|
  {
    if ops == [] {
      return;
    }
    var later := Later(ops[0], now);
    DaysGrow(now, later);
    OrderlyRest(ops, now, key, limit);
    if later / DAY <= key.window {
      IntactStep(c, m, ops[0], key, limit, n);
    }
    AdmitsExactlyLimit(c, Perform(c, m, ops[0]).0, ops[1..], key, limit, Made(ops[0], key, n), later);
    ExactSplit(c, m, ops, key, limit, n);
  }

  /** How many of the ops are checks of the key. */
  function ChecksIn(ops: seq<Op>, key: Key): nat {
    if ops == [] then 0 else Made(ops[0], key, ChecksIn(ops[1..], key))
  }

  /** The window lasts through all of the ops. */
  ghost predicate WithinWindow(ops: seq<Op>, key: Key) {
    forall k | 0 <= k < |ops| && Timed(ops[k]) :: ops[k].at / DAY <= key.window
  }

  /** A broken manager is found out once the requests go past the limit. */
  lemma {:induction false} BrokenShows(c: Config, m: Manager, ops: seq<Op>, key: Key, limit: int, n: nat, now: int)
    requires c.enabled && Broken(m, key, limit, n) && Orderly(ops, now, key, limit) && WithinWindow(ops, key)
    requires ChecksIn(ops, key) >= 1 && n + ChecksIn(ops, key) > limit
    ensures !Exact(Answers(c, m, ops, key), limit, n)
    decreases |ops|
  {
    BrokenStep(c, m, ops[0], key, limit, n);
    ExactSplit(c, m, ops, key, limit, n);
    if Right(c, m, ops[0], key, limit, n) {
      OrderlyRest(ops, now, key, limit);
      BrokenShows(c, Perform(c, m, ops[0]).0, ops[1..], key, limit, Made(ops[0], key, n), Later(ops[0], now));
    }
  }

  lemma {:induction false} ChecksInBoth(ops: seq<Op>, more: seq<Op>, key: Key)
    ensures ChecksIn(ops + more, key) == ChecksIn(ops, key) + ChecksIn(more, key)
  {
    if ops == [] {
      assert ops + more == more;
    } else {
      assert (ops + more)[1..] == ops[1..] + more;
      ChecksInBoth(ops[1..], more, key);
    }
  }

  /** What was forgotten shows, at the latest when enough further requests have come in. */
  lemma {:induction false} ForgettingShows(c: Config, m: Manager, ops: seq<Op>, more: seq<Op>, key: Key, limit: int,
      n: nat, now: int)
    requires c.enabled && Intact(m, key, limit, n)
    requires Orderly(ops + more, now, key, limit) && WithinWindow(ops + more, key)
    requires Forgotten(c, m, ops, key, limit, now)
    requires ChecksIn(more, key) >= 1 && ChecksIn(more, key) > limit
    ensures !Exact(Answers(c, m, ops + more, key), limit, n)
    decreases |ops|
  {
    var all, rest := ops + more, ops[1..] + more;
    assert all[1..] == rest && all[0] == ops[0];
    IntactStep(c, m, ops[0], key, limit, n);
    ExactSplit(c, m, all, key, limit, n);
    if Right(c, m, ops[0], key, limit, n) {
      var m', n', later := Perform(c, m, ops[0]).0, Made(ops[0], key, n), Later(ops[0], now);
      OrderlyRest(all, now, key, limit);
      if Forgets(m, ops[0], key, limit) {
        ChecksInBoth(ops[1..], more, key);
        BrokenShows(c, m', rest, key, limit, n', later);
      } else {
        ForgettingShows(c, m', ops[1..], more, key, limit, n', later);
      }
    }
  }

  /** j further checks of the key at this moment, without faults. */
  function More(key: Key, limit: int, at: int, j: nat): seq<Op> {
    if j == 0 then [] else [CheckOp(key.entity, key.endpoint, limit, at, false, false)] + More(key, limit, at, j - 1)
  }

  lemma {:induction false} MoreChecks(key: Key, limit: int, at: int, j: nat)
    requires at / DAY == key.window
    ensures ChecksIn(More(key, limit, at, j), key) == j == |More(key, limit, at, j)|
    ensures forall k | 0 <= k < j ::
              More(key, limit, at, j)[k] == CheckOp(key.entity, key.endpoint, limit, at, false, false)
  {
    if j > 0 {
      MoreChecks(key, limit, at, j - 1);
      assert More(key, limit, at, j)[1..] == More(key, limit, at, j - 1);
    }
  }

  /** Checks without faults forget nothing. */
  lemma {:induction false} MoreForgetsNothing(c: Config, m: Manager, ops: seq<Op>, key: Key, limit: int, now: int,
      at: int, j: nat)
    ensures Forgotten(c, m, ops + More(key, limit, at, j), key, limit, now) <==> Forgotten(c, m, ops, key, limit, now)
    decreases |ops|, j
  {
    if ops != [] {
      var all := ops + More(key, limit, at, j);
      assert all[1..] == ops[1..] + More(key, limit, at, j) && all[0] == ops[0];
      MoreForgetsNothing(c, Perform(c, m, ops[0]).0, ops[1..], key, limit, Later(ops[0], now), at, j);
    } else if j > 0 {
      var more := More(key, limit, at, j);
      assert ops + more == more && more[1..] == [] + More(key, limit, at, j - 1);
      MoreForgetsNothing(c, Perform(c, m, more[0]).0, [], key, limit, at, at, j - 1);
    } else {
      assert ops + More(key, limit, at, j) == [];
    }
  }

  /**
   From an empty table, a history within the window is one after which every further request is still
   answered exactly if and only if it forgot nothing: every restart came with the counted requests saved,
   and every load that mattered succeeded.
  */
  lemma ExactIffNothingForgotten(c: Config, ops: seq<Op>, key: Key, limit: int, start: int, end: int)
    requires c.enabled && Orderly(ops, start, key, limit) && start <= end && end / DAY == key.window
    requires forall k | 0 <= k < |ops| && Timed(ops[k]) :: ops[k].at <= end
    ensures (forall j: nat :: Exact(Answers(c, EMPTY, ops + More(key, limit, end, j), key), limit, 0))
       <==> !Forgotten(c, EMPTY, ops, key, limit, start)
  {
    DaysGrow(start, end);
    if Forgotten(c, EMPTY, ops, key, limit, start) {
      var j: nat := if limit < 0 then 1 else limit + 1;
      MoreChecks(key, limit, end, j);
      WithinUntil(ops + More(key, limit, end, j), key, end);
      ForgettingShows(c, EMPTY, ops, More(key, limit, end, j), key, limit, 0, start);
    } else {
      forall j: nat ensures Exact(Answers(c, EMPTY, ops + More(key, limit, end, j), key), limit, 0) {
        MoreChecks(key, limit, end, j);
        MoreForgetsNothing(c, EMPTY, ops, key, limit, start, end, j);
        AdmitsExactlyLimit(c, EMPTY, ops + More(key, limit, end, j), key, limit, 0, start);
      }
    }
  }

  lemma WithinUntil(ops: seq<Op>, key: Key, end: int)
    requires end / DAY == key.window && forall k | 0 <= k < |ops| && Timed(ops[k]) :: ops[k].at <= end
    ensures WithinWindow(ops, key)
  {
    forall k | 0 <= k < |ops| && Timed(ops[k]) ensures ops[k].at / DAY <= key.window {
      DaysGrow(ops[k].at, end);
    }
  }

  /** While the process lives its cache forgets nothing, whatever loads and saves fail. */
  lemma {:induction false} CacheForgetsNothing(c: Config, m: Manager, ops: seq<Op>, key: Key, limit: int, now: int)
    requires c.enabled && Orderly(ops, now, key, limit)
    requires forall k | 0 <= k < |ops| :: !ops[k].Restart?
    requires now / DAY <= key.window ==> key in m.cache || key !in m.rows
    ensures !Forgotten(c, m, ops, key, limit, now)
    decreases |ops|
  {
    if ops != [] {
      var later := Later(ops[0], now);
      DaysGrow(now, later);
      OrderlyRest(ops, now, key, limit);
      CacheForgetsNothing(c, Perform(c, m, ops[0]).0, ops[1..], key, limit, later);
    }
  }

  /** So a process that is not restarted admits exactly the first limit requests under any faults. */
  lemma FirstLimitRequestsAdmitted(c: Config, ops: seq<Op>, key: Key, limit: int, start: int)
    requires c.enabled && Orderly(ops, start, key, limit)
    requires forall k | 0 <= k < |ops| :: !ops[k].Restart?
    ensures Exact(Answers(c, EMPTY, ops, key), limit, 0)
  {
    CacheForgetsNothing(c, EMPTY, ops, key, limit, start);
    AdmitsExactlyLimit(c, EMPTY, ops, key, limit, 0, start);
  }

  /** With saves and loads that succeed, restarts do no harm either. */
  lemma {:induction false} SavedForgetsNothing(c: Config, m: Manager, ops: seq<Op>, key: Key, limit: int, now: int)
    requires c.enabled && Orderly(ops, now, key, limit)
    requires forall k | 0 <= k < |ops| && ops[k].CheckOp? :: !ops[k].loadFails && !ops[k].saveFails
    requires now / DAY <= key.window ==> (key in m.cache ==> key in m.rows && m.cache[key] == m.rows[key])
    ensures !Forgotten(c, m, ops, key, limit, now)
    decreases |ops|
  {
    if ops != [] {
      var later := Later(ops[0], now);
      DaysGrow(now, later);
      OrderlyRest(ops, now, key, limit);
      SavedForgetsNothing(c, Perform(c, m, ops[0]).0, ops[1..], key, limit, later);
    }
  }

  /** A limit of one, a save that fails, a restart: the second request is admitted as well. */
  lemma UnsavedRequestForgotten(c: Config, entity: string, endpoint: string, at: int)
    requires c.enabled
    ensures var check := CheckOp(entity, endpoint, 1, at, false, true);
            Answers(c, EMPTY, [check] + ([Restart] + [check]), KeyOf(check)) == [false, false]
  {
    var check := CheckOp(entity, endpoint, 1, at, false, true);
    var ops := [check] + ([Restart] + [check]);
    assert ops[1..] == [Restart] + [check] && ops[1..][1..] == [check] && [check][1..] == [];
    var m1 := Perform(c, EMPTY, check).0;
    var m2 := Perform(c, m1, Restart).0;
    assert Answers(c, m2, [check], KeyOf(check)) == [false] + [];
    assert Answers(c, m1, ops[1..], KeyOf(check)) == [] + [false];
  }

  // ================================================================ what a refusal costs

  /**
   The state says what the requests counted so far deserve: one violation, and the penalty for it, per
   excess request.
  */
  ghost predicate Deserved(c: Config, r: Record, limit: nat) {
    && r.requests >= 0
    && (r.requests <= limit ==> r.violations == 0 && r.penaltyUntil.None?)
    && (r.requests > limit ==> r.violations == r.requests - limit
                               && r.penaltyUntil == Some(r.lastRequest + Penalty(c, r.requests - limit)))
  }

  ghost predicate KeyDeserved(c: Config, m: Manager, key: Key, limit: nat) {
    && (key in m.cache ==> Deserved(c, m.cache[key], limit))
    && (key in m.rows ==> Deserved(c, m.rows[key], limit))
  }

  function After(c: Config, m: Manager, ops: seq<Op>): Manager
    decreases |ops|
  {
    if ops == [] then m else After(c, Perform(c, m, ops[0]).0, ops[1..])
  }

  /** A check keeps every key's state deserved, even if its load or its save fails. */
  lemma CheckKeepsDeserved(c: Config, m: Manager, checked: Key, now: int, loadFails: bool, saveFails: bool,
      key: Key, limit: nat, other: int)
    requires KeyDeserved(c, m, key, limit) && (checked == key ==> other == limit)
    ensures KeyDeserved(c, Check(c, m, checked, other, now, loadFails, saveFails).0, key, limit)
  {
  }

  /**
   In every history with one limit for the key, whatever loads and saves fail, cache and row each say that
   the k-th counted request over the limit was the k-th violation, penalised from its own moment.
  */
  lemma {:induction false} PenaltiesAreDeserved(c: Config, m: Manager, ops: seq<Op>, key: Key, limit: nat, now: int)
    requires Orderly(ops, now, key, limit) && KeyDeserved(c, m, key, limit)
    ensures KeyDeserved(c, After(c, m, ops), key, limit)
    decreases |ops|
  {
    if ops != [] {
      var op := ops[0];
      if op.CheckOp? {
        CheckKeepsDeserved(c, m, KeyOf(op), op.at, op.loadFails, op.saveFails, key, limit, op.limit);
      }
      OrderlyRest(ops, now, key, limit);
      PenaltiesAreDeserved(c, Perform(c, m, op).0, ops[1..], key, limit, Later(op, now));
    }
  }
}
