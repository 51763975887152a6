/** handlers/flood_guard.go: progressive blocking of entities that collect 401 and 404 responses. */
module FloodGuard {
  import opened Prelude

  const WINDOW: int := 10 * MINUTE
  const TIER_DECAY: int := HOUR
  const FULL_RESET: int := 6 * HOUR

  /** A tracker that exists has been hit; penaltyUntil is unset until the first penalty. */
  datatype Tracker = Tracker(windowHits: nat, peakTier: int, firstHit: int, lastHit: int, penaltyUntil: Option<int>)

  function TierForHits(hits: int): (tier: int)
    ensures 0 <= tier <= 5
  {
    if hits >= 80 then 5 else if hits >= 60 then 4 else if hits >= 40 then 3
    else if hits >= 20 then 2 else if hits >= 10 then 1 else 0
  }

  function PenaltyForTier(tier: int): int {
    match tier
    case 1 => 5 * SECOND
    case 2 => 30 * SECOND
    case 3 => 2 * MINUTE
    case 4 => 10 * MINUTE
    case 5 => HOUR
    case _ => 0
  }

  /** The remembered tier after a silence. */
  function DecayTier(t: Tracker, now: int): int {
    if t.peakTier == 0 then 0
    else
      var silence := now - t.lastHit;
      if silence >= FULL_RESET then 0
      else
        var steps := silence / TIER_DECAY;
        if steps > 0 then (if t.peakTier - steps < 0 then 0 else t.peakTier - steps) else t.peakTier
  }

  function Max(a: int, b: int): int { if a > b then a else b }

  /** One hit on an entity's tracker, and the penalty it returns. */
  function Hit(t: Option<Tracker>, now: int): (Tracker, int) {
    var expired := t.Some? && now - t.value.firstHit > WINDOW;
    var remembered := if t.None? then 0 else if expired then DecayTier(t.value, now) else t.value.peakTier;
    var hits := if t.None? || expired then 1 else t.value.windowHits + 1;
    var firstHit := if t.None? || expired then now else t.value.firstHit;
    var tier := Max(TierForHits(hits), remembered);
    var oldPenalty := if t.None? then None else t.value.penaltyUntil;
    if tier == 0 then (Tracker(hits, tier, firstHit, now, oldPenalty), 0)
    else (Tracker(hits, tier, firstHit, now, Some(now + PenaltyForTier(tier))), PenaltyForTier(tier))
  }

  /** Blocked, and for how many whole seconds (at least one). */
  function Blocked(t: Option<Tracker>, now: int): (bool, int) {
    if t.None? || t.value.penaltyUntil.None? || now > t.value.penaltyUntil.value then (false, 0)
    else
      var seconds := (t.value.penaltyUntil.value - now) / SECOND;
      (true, if seconds < 1 then 1 else seconds)
  }

  predicate Stale(t: Tracker, now: int) {
    && (t.penaltyUntil.None? || now > t.penaltyUntil.value)
    && now - t.lastHit >= FULL_RESET
  }

  type Trackers = map<string, Tracker>

  function Lookup(m: Trackers, entity: string): Option<Tracker> {
    if entity in m then Some(m[entity]) else None
  }

  function Cleaned(m: Trackers, now: int): Trackers {
    map entity | entity in m && !Stale(m[entity], now) :: m[entity]
  }

  // ================================================================ the service

  class FloodGuardService {
    var trackers: Trackers

    constructor ()
      ensures trackers == map[]
    {
      trackers := map[];
    }

    method RecordUnauthorizedHit(entity: string, now: int) returns (penalty: int)
      modifies this
      ensures trackers == old(trackers)[entity := Hit(Lookup(old(trackers), entity), now).0]
      ensures penalty == Hit(Lookup(old(trackers), entity), now).1
    {
      var isNew := entity !in trackers;
      var t := if isNew then Tracker(0, 0, now, now, None) else trackers[entity];
      if !isNew && now - t.firstHit > WINDOW {
        t := t.(peakTier := DecayTier(t, now));
        t := t.(windowHits := 0, firstHit := now);
      }
      t := t.(windowHits := t.windowHits + 1, lastHit := now);
      var currentTier := TierForHits(t.windowHits);
      var effectiveTier := currentTier;
      if t.peakTier > effectiveTier {
        effectiveTier := t.peakTier;
      }
      if currentTier > t.peakTier {
        t := t.(peakTier := currentTier);
      }
      if effectiveTier > 0 && t.windowHits == 1 && t.peakTier > 0 {
        penalty := PenaltyForTier(effectiveTier);
        trackers := trackers[entity := t.(penaltyUntil := Some(now + penalty))];
        return;
      }
      if effectiveTier == 0 {
        trackers := trackers[entity := t];
        return 0;
      }
      penalty := PenaltyForTier(effectiveTier);
      trackers := trackers[entity := t.(penaltyUntil := Some(now + penalty))];
    }

    method IsBlocked(entity: string, now: int) returns (blocked: bool, retryAfter: int)
      ensures (blocked, retryAfter) == Blocked(Lookup(trackers, entity), now)
    {
      if entity !in trackers { return false, 0; }
      var t := trackers[entity];
      if t.penaltyUntil.None? { return false, 0; }
      if now > t.penaltyUntil.value { return false, 0; }
      retryAfter := (t.penaltyUntil.value - now) / SECOND;
      if retryAfter < 1 {
        retryAfter := 1;
      }
      return true, retryAfter;
    }

    method Cleanup(now: int)
      modifies this
      ensures trackers == Cleaned(old(trackers), now)
    {
      var rest := trackers.Keys;
      while rest != {}
        invariant rest <= old(trackers).Keys
        invariant forall entity | entity in rest :: entity in trackers
        invariant forall entity | entity in trackers ::
                    entity in old(trackers) && trackers[entity] == old(trackers)[entity]
        invariant forall entity | entity in old(trackers) && entity !in rest ::
                    entity in trackers <==> !Stale(old(trackers)[entity], now)
        decreases rest
      {
        var entity :| entity in rest;
        rest := rest - {entity};
        var t := trackers[entity];
        var penaltyExpired := t.penaltyUntil.None? || now > t.penaltyUntil.value;
        var fullyDecayed := now - t.lastHit >= FULL_RESET;
        if penaltyExpired && fullyDecayed {
          trackers := map other | other in trackers && other != entity :: trackers[other];
        }
      }
    }
  }

  // ================================================================ what a tracker keeps

  /** Holds of every tracker at any moment after its last hit. */
  ghost predicate TrackerInv(t: Tracker, now: int) {
    && t.windowHits >= 1 && 0 <= t.peakTier <= 5
    && TierForHits(t.windowHits) <= t.peakTier
    && t.firstHit <= t.lastHit <= now && t.lastHit - t.firstHit <= WINDOW
    && (t.penaltyUntil.Some? ==> t.penaltyUntil.value <= t.lastHit + PenaltyForTier(t.peakTier))
    && (t.penaltyUntil.None? ==> t.peakTier == 0)
  }

  /** A block in force ends where the current tier, counted from the last hit, says. */
  lemma HitKeepsInv(t: Option<Tracker>, since: int, now: int)
    requires since <= now && (t.Some? ==> TrackerInv(t.value, since))
    ensures TrackerInv(Hit(t, now).0, now)
  {
    if t.Some? {
      PenaltyMonotone(t.value.peakTier, 5);
      PenaltyMonotone(t.value.peakTier, Hit(t, now).0.peakTier);
    }
  }

  lemma PenaltyMonotone(a: int, b: int)
    ensures 0 <= a <= b <= 5 ==> 0 <= PenaltyForTier(a) <= PenaltyForTier(b) <= HOUR
  {
  }

  /** Recording a hit never shortens a block: what was blocked at any later moment still is. */
  lemma HitNeverShortens(t: Tracker, since: int, now: int)
    requires since <= now && TrackerInv(t, since) && t.penaltyUntil.Some?
    ensures Hit(Some(t), now).0.penaltyUntil.Some?
    ensures t.penaltyUntil.value <= Hit(Some(t), now).0.penaltyUntil.value
  {
    PenaltyMonotone(t.peakTier, 5);
    PenaltyMonotone(t.peakTier, Hit(Some(t), now).0.peakTier);
  }

  /** In trackers that hits produced, cleanup's penalty test adds nothing to its silence test. */
  lemma PenaltyTestRedundant(t: Tracker, since: int, now: int)
    requires TrackerInv(t, since)
    ensures Stale(t, now) <==> now - t.lastHit >= FULL_RESET
  {
    PenaltyMonotone(t.peakTier, 5);
  }

  // ================================================================ cleanup is invisible

  datatype Op = HitOp(entity: string, at: int) | CheckOp(entity: string, at: int) | CleanupOp(at: int)

  /** What a caller sees of one operation. */
  datatype Answer = Penalty(duration: int) | Block(blocked: bool, retryAfter: int) | Nothing

  function Perform(m: Trackers, op: Op): (Trackers, Answer) {
    match op
    case HitOp(entity, at) =>
      var (t, penalty) := Hit(Lookup(m, entity), at);
      (m[entity := t], Penalty(penalty))
    case CheckOp(entity, at) =>
      var (blocked, retryAfter) := Blocked(Lookup(m, entity), at);
      (m, Block(blocked, retryAfter))
    case CleanupOp(at) => (Cleaned(m, at), Nothing)
  }

  /** The answers to hits and checks in a run, in order. */
  function Answers(m: Trackers, ops: seq<Op>): seq<Answer>
    decreases |ops|
  {
    if ops == [] then []
    else
      var (m', answer) := Perform(m, ops[0]);
      (if ops[0].CleanupOp? then [] else [answer]) + Answers(m', ops[1..])
  }

  function WithoutCleanup(ops: seq<Op>): seq<Op> {
    if ops == [] then []
    else (if ops[0].CleanupOp? then [] else [ops[0]]) + WithoutCleanup(ops[1..])
  }

  ghost predicate Nondecreasing(ops: seq<Op>, from: int) {
    (forall k | 0 <= k < |ops| :: from <= ops[k].at) && forall j, k | 0 <= j < k < |ops| :: ops[j].at <= ops[k].at
  }

  /** A penalty that no longer blocks at now or later is as good as none. */
  predicate SamePenalty(a: Option<int>, b: Option<int>, now: int) {
    a == b || ((a.None? || a.value < now) && (b.None? || b.value < now))
  }

  /**
   The trackers of one entity with and without cleanups: alike up to a lapsed penalty, or long silent and
   forgotten.
  */
  ghost predicate Alike(clean: Option<Tracker>, kept: Option<Tracker>, now: int) {
    match (clean, kept)
    case (Some(c), Some(k)) =>
      c == k.(penaltyUntil := c.penaltyUntil) && SamePenalty(c.penaltyUntil, k.penaltyUntil, now)
    case (None, Some(k)) => now - k.lastHit >= FULL_RESET && (k.penaltyUntil.None? || k.penaltyUntil.value < now)
    case (None, None) => true
    case (Some(_), None) => false
  }

  ghost predicate Bisimilar(clean: Trackers, kept: Trackers, now: int) {
    forall entity ::
      && Alike(Lookup(clean, entity), Lookup(kept, entity), now)
      && (entity in clean ==> TrackerInv(clean[entity], now))
      && (entity in kept ==> TrackerInv(kept[entity], now))
  }

  /** Likeness survives the passing of time. */
  lemma AlikeLater(clean: Option<Tracker>, kept: Option<Tracker>, since: int, now: int)
    requires Alike(clean, kept, since) && since <= now
    ensures Alike(clean, kept, now)
  {
  }

  /** Alike trackers answer alike and stay alike under a hit. */
  lemma AlikeHit(clean: Option<Tracker>, kept: Option<Tracker>, now: int)
    requires Alike(clean, kept, now)
    requires kept.Some? ==> TrackerInv(kept.value, now)
    ensures Hit(clean, now).1 == Hit(kept, now).1
    ensures Alike(Some(Hit(clean, now).0), Some(Hit(kept, now).0), now)
    ensures Blocked(clean, now) == Blocked(kept, now)
  {
  }

  lemma HitBisimilar(clean: Trackers, kept: Trackers, entity: string, since: int, now: int)
    requires Bisimilar(clean, kept, since) && since <= now
    ensures Bisimilar(clean[entity := Hit(Lookup(clean, entity), now).0],
                      kept[entity := Hit(Lookup(kept, entity), now).0], now)
    ensures Hit(Lookup(clean, entity), now).1 == Hit(Lookup(kept, entity), now).1
  {
    AlikeLater(Lookup(clean, entity), Lookup(kept, entity), since, now);
    AlikeHit(Lookup(clean, entity), Lookup(kept, entity), now);
    HitKeepsInv(Lookup(clean, entity), since, now);
    HitKeepsInv(Lookup(kept, entity), since, now);
    var clean' := clean[entity := Hit(Lookup(clean, entity), now).0];
    var kept' := kept[entity := Hit(Lookup(kept, entity), now).0];
    forall e
      ensures Alike(Lookup(clean', e), Lookup(kept', e), now)
      ensures e in clean' ==> TrackerInv(clean'[e], now)
      ensures e in kept' ==> TrackerInv(kept'[e], now)
    {
      if e != entity {
        AlikeLater(Lookup(clean, e), Lookup(kept, e), since, now);
        assert Lookup(clean', e) == Lookup(clean, e) && Lookup(kept', e) == Lookup(kept, e);
      }
    }
  }

  lemma CleanupBisimilar(clean: Trackers, kept: Trackers, since: int, now: int)
    requires Bisimilar(clean, kept, since) && since <= now
    ensures Bisimilar(Cleaned(clean, now), kept, now)
  {
    forall e
      ensures Alike(Lookup(Cleaned(clean, now), e), Lookup(kept, e), now)
      ensures e in Cleaned(clean, now) ==> TrackerInv(Cleaned(clean, now)[e], now)
      ensures e in kept ==> TrackerInv(kept[e], now)
    {
      AlikeLater(Lookup(clean, e), Lookup(kept, e), since, now);
    }
  }

  /**
   Cleanup is invisible: in every run with a clock that does not go back, every penalty and every block
   answer is the one that the same run without its cleanups gives.
  */
  lemma {:induction false} CleanupInvisible(clean: Trackers, kept: Trackers, ops: seq<Op>, now: int)
    requires Bisimilar(clean, kept, now) && Nondecreasing(ops, now)
    ensures Answers(clean, ops) == Answers(kept, WithoutCleanup(ops))
    decreases |ops|
  {
    if ops == [] {
      return;
    }
    var at := ops[0].at;
    var clean' := Perform(clean, ops[0]).0;
    var kept' := if ops[0].CleanupOp? then kept else Perform(kept, ops[0]).0;
    match ops[0] {
      case HitOp(entity, _) => HitBisimilar(clean, kept, entity, now, at);
      case CheckOp(entity, _) =>
        HitBisimilar(clean, kept, entity, now, at);
        AlikeLater(Lookup(clean, entity), Lookup(kept, entity), now, at);
        AlikeHit(Lookup(clean, entity), Lookup(kept, entity), at);
        TimePasses(clean, kept, now, at);
      case CleanupOp(_) => CleanupBisimilar(clean, kept, now, at);
    }
    CleanupInvisible(clean', kept', ops[1..], at);
    if !ops[0].CleanupOp? {
      assert WithoutCleanup(ops)[1..] == WithoutCleanup(ops[1..]);
    } else {
      assert WithoutCleanup(ops) == WithoutCleanup(ops[1..]);
    }
  }

  lemma TimePasses(clean: Trackers, kept: Trackers, since: int, now: int)
    requires Bisimilar(clean, kept, since) && since <= now
    ensures Bisimilar(clean, kept, now)
  {
    forall e ensures Alike(Lookup(clean, e), Lookup(kept, e), now) {
      AlikeLater(Lookup(clean, e), Lookup(kept, e), since, now);
    }
  }

  /** From an empty service, in particular. */
  lemma CleanupInvisibleFromStart(ops: seq<Op>, start: int)
    requires Nondecreasing(ops, start)
    ensures Answers(map[], ops) == Answers(map[], WithoutCleanup(ops))
  {
    CleanupInvisible(map[], map[], ops, start);
  }

  // ================================================================ blocks over whole runs

  function After(m: Trackers, ops: seq<Op>): Trackers
    decreases |ops|
  {
    if ops == [] then m else After(Perform(m, ops[0]).0, ops[1..])
  }

  ghost predicate AllInv(m: Trackers, now: int) {
    forall entity | entity in m :: TrackerInv(m[entity], now)
  }

  /** A block announced at some moment holds until it ends, whatever hits, checks and cleanups come in between. */
  lemma {:induction false} BlockHolds(m: Trackers, ops: seq<Op>, entity: string, now: int, later: int)
    requires AllInv(m, now) && Nondecreasing(ops, now) && now <= later
    requires forall k | 0 <= k < |ops| :: ops[k].at <= later
    requires Blocked(Lookup(m, entity), later).0
    ensures Blocked(Lookup(After(m, ops), entity), later).0
    ensures Blocked(Lookup(After(m, ops), entity), later).1 >= Blocked(Lookup(m, entity), later).1
    decreases |ops|
  {
    if ops == [] {
      return;
    }
    var m' := Perform(m, ops[0]).0;
    var at := ops[0].at;
    match ops[0] {
      case HitOp(e, _) =>
        HitKeepsInv(Lookup(m, e), now, at);
        if e == entity {
          HitNeverShortens(m[entity], now, at);
        }
      case CheckOp(_, _) =>
      case CleanupOp(_) =>
    }
    assert AllInv(m', at);
    BlockHolds(m', ops[1..], entity, at, later);
  }

  /** n hits of a new entity within one window, at these times. */
  function Hits(times: seq<int>): Option<Tracker> {
    if times == [] then None else Some(Hit(Hits(times[..|times| - 1]), times[|times| - 1]).0)
  }

  /** Hits within one window add up in the tracker of a new entity. */
  lemma {:induction false} HitsAddUp(times: seq<int>)
    requires times != [] && forall j, k | 0 <= j < k < |times| :: times[j] <= times[k]
    requires times[|times| - 1] - times[0] <= WINDOW
    ensures var n, last := |times|, times[|times| - 1];
            Hits(times).value == Tracker(n, TierForHits(n), times[0], last, Hits(times).value.penaltyUntil)
  {
    var n := |times|;
    if n > 1 {
      HitsAddUp(times[..n - 1]);
    }
  }

  /** What the n-th hit of a window costs. */
  function PenaltyForHits(n: nat): int {
    PenaltyForTier(TierForHits(n))
  }

  lemma PenaltySchedule(n: nat)
    ensures n < 10 ==> PenaltyForHits(n) == 0
    ensures 10 <= n < 20 ==> PenaltyForHits(n) == 5 * SECOND
    ensures 20 <= n < 40 ==> PenaltyForHits(n) == 30 * SECOND
    ensures 40 <= n < 60 ==> PenaltyForHits(n) == 2 * MINUTE
    ensures 60 <= n < 80 ==> PenaltyForHits(n) == 10 * MINUTE
    ensures 80 <= n ==> PenaltyForHits(n) == HOUR
  {
  }

  /**
   For a new entity, hits within one window escalate by their number alone: the n-th costs the penalty for
   n, and the entity is then blocked for exactly that long, from ten hits on.
  */
  lemma Escalation(times: seq<int>)
    requires times != [] && forall j, k | 0 <= j < k < |times| :: times[j] <= times[k]
    requires times[|times| - 1] - times[0] <= WINDOW
    ensures var n, last := |times|, times[|times| - 1];
            && Hit(Hits(times[..n - 1]), last).1 == PenaltyForHits(n)
            && (n >= 10 ==> Blocked(Hits(times), last + PenaltyForHits(n)).0)
            && (n < 10 ==> !Blocked(Hits(times), last).0)
            && !Blocked(Hits(times), last + PenaltyForHits(n) + 1).0
  {
    LastCosts(times);
    LastHit(times);
  }

  lemma LastCosts(times: seq<int>)
    requires times != [] && forall j, k | 0 <= j < k < |times| :: times[j] <= times[k]
    requires times[|times| - 1] - times[0] <= WINDOW
    ensures Hit(Hits(times[..|times| - 1]), times[|times| - 1]).1 == PenaltyForHits(|times|)
  {
    var n := |times|;
    if n > 1 {
      HitsAddUp(times[..n - 1]);
    }
  }

  /** The penalty of the last hit is in force exactly from ten hits on. */
  lemma {:induction false} LastHit(times: seq<int>)
    requires times != [] && forall j, k | 0 <= j < k < |times| :: times[j] <= times[k]
    requires times[|times| - 1] - times[0] <= WINDOW
    ensures var n, last := |times|, times[|times| - 1];
            Hits(times).value.penaltyUntil == if n >= 10 then Some(last + PenaltyForHits(n)) else None
  {
    var n := |times|;
    if n > 1 {
      LastHit(times[..n - 1]);
      HitsAddUp(times[..n - 1]);
    }
  }

  /**
   A hit more than ten minutes after the window's first one opens a new window, however recent the last hit:
   the count starts again at 1, and the remembered tier is one lower for every whole hour since the last hit.
  */
  lemma NewWindow(t: Tracker, since: int, now: int, hours: nat)
    requires since <= now && TrackerInv(t, since) && now - t.firstHit > 10 * MINUTE
    requires hours * HOUR <= now - t.lastHit < (hours + 1) * HOUR
    ensures var (t', penalty) := Hit(Some(t), now);
            && t'.windowHits == 1 && t'.firstHit == t'.lastHit == now
            && t'.peakTier == (if hours >= t.peakTier then 0 else t.peakTier - hours)
            && penalty == PenaltyForTier(t'.peakTier)
            && t'.penaltyUntil == if t'.peakTier == 0 then t.penaltyUntil else Some(now + penalty)
  {
    RemainderUnique(now - t.lastHit, hours, now - t.lastHit - hours * HOUR, HOUR);
  }

  /** A hit inside the window counts on, at the higher of the remembered tier and the tier of the count. */
  lemma SameWindow(t: Tracker, now: int)
    requires now - t.firstHit <= 10 * MINUTE && t.peakTier >= 0
    ensures var (t', penalty) := Hit(Some(t), now);
            && t'.windowHits == t.windowHits + 1 && t'.firstHit == t.firstHit && t'.lastHit == now
            && t'.peakTier >= t.peakTier && t'.peakTier >= TierForHits(t'.windowHits)
            && (t'.peakTier == t.peakTier || t'.peakTier == TierForHits(t'.windowHits))
            && penalty == PenaltyForTier(t'.peakTier)
            && t'.penaltyUntil == if t'.peakTier == 0 then t.penaltyUntil else Some(now + penalty)
  {
  }

  // ================================================================ histories longer than a window

  ghost predicate InOrder(times: seq<int>) {
    forall j, k | 0 <= j < k < |times| :: times[j] <= times[k]
  }

  /** Which of the hits opened the window that the last one falls into. */
  function WindowStart(times: seq<int>): (s: nat)
    requires times != []
    ensures s < |times|
  {
    var n := |times|;
    if n == 1 then 0
    else
      var s := WindowStart(times[..n - 1]);
      if times[n - 1] - times[s] > 10 * MINUTE then n - 1 else s
  }

  /** The tier that is left of a tier after a silence. */
  function Decayed(tier: int, silence: int): int {
    if silence / HOUR >= tier then 0 else tier - silence / HOUR
  }

  /** The tier of a window with so many hits, after a silence that follows an earlier tier. */
  function WindowTier(count: int, earlier: int, silence: int): int {
    Max(TierForHits(count), Decayed(earlier, silence))
  }

  /** The tier of an entity with these hits, window by window: what is left of the earlier ones, or the last one's. */
  function Peak(times: seq<int>): int
    requires times != []
    decreases |times|
  {
    var s := WindowStart(times);
    if s == 0 then TierForHits(|times|) else WindowTier(|times| - s, Peak(times[..s]), times[s] - times[s - 1])
  }

  lemma {:induction false} HitsInOrder(times: seq<int>)
    requires times != [] && InOrder(times)
    ensures TrackerInv(Hits(times).value, times[|times| - 1])
  {
    var n := |times|;
    var before := times[..n - 1];
    if n > 1 {
      HitsInOrder(before);
      HitKeepsInv(Hits(before), times[n - 2], times[n - 1]);
    } else {
      HitKeepsInv(None, times[0], times[0]);
    }
  }

  /**
   For every time-ordered history of an entity's hits, over any number of windows: the tracker counts the
   hits since the current window opened, its tier is the one reckoned window by window, and the last hit
   costs that tier's penalty.
  */
  lemma {:induction false} LongHistory(times: seq<int>)
    requires times != [] && InOrder(times)
    ensures var n, s := |times|, WindowStart(times);
            var (t, penalty) := Hit(Hits(times[..n - 1]), times[n - 1]);
            && Hits(times) == Some(t)
            && t.windowHits == n - s && t.firstHit == times[s] && t.lastHit == times[n - 1]
            && t.peakTier == Peak(times) && penalty == PenaltyForTier(Peak(times))
  {
    var n := |times|;
    if n > 1 {
      LongHistory(times[..n - 1]);
      NextHit(times);
    }
  }

  lemma NextHit(times: seq<int>)
    requires |times| > 1 && InOrder(times)
    requires var before := times[..|times| - 1];
             var s := WindowStart(before);
             && Hits(before).value.windowHits == |before| - s && Hits(before).value.firstHit == times[s]
             && Hits(before).value.lastHit == times[|before| - 1] && Hits(before).value.peakTier == Peak(before)
    ensures var n, s := |times|, WindowStart(times);
            var (t, penalty) := Hit(Hits(times[..n - 1]), times[n - 1]);
            && t.windowHits == n - s && t.firstHit == times[s] && t.lastHit == times[n - 1]
            && t.peakTier == Peak(times) && penalty == PenaltyForTier(Peak(times))
  {
    var n := |times|;
    var before, now := times[..n - 1], times[n - 1];
    var t := Hits(before).value;
    HitsInOrder(before);
    PeakStep(times);
    if now - t.firstHit > 10 * MINUTE {
      NewWindowDecays(t, times[n - 2], now);
    } else {
      SameWindow(t, now);
    }
  }

  lemma NewWindowDecays(t: Tracker, since: int, now: int)
    requires since <= now && TrackerInv(t, since) && now - t.firstHit > 10 * MINUTE
    ensures var (t', penalty) := Hit(Some(t), now);
            && t'.windowHits == 1 && t'.firstHit == t'.lastHit == now
            && t'.peakTier == Decayed(t.peakTier, now - t.lastHit) && penalty == PenaltyForTier(t'.peakTier)
  {
    NewWindow(t, since, now, (now - t.lastHit) / HOUR);
  }

  /** How one more hit moves the tier. */
  lemma PeakStep(times: seq<int>)
    requires |times| > 1 && InOrder(times)
    ensures var n, before := |times|, times[..|times| - 1];
            var s := WindowStart(before);
            if times[n - 1] - times[s] > 10 * MINUTE then
              WindowStart(times) == n - 1 && Peak(times) == Decayed(Peak(before), times[n - 1] - times[n - 2])
            else
              WindowStart(times) == s && Peak(times) == Max(TierForHits(n - s), Peak(before))
  {
    var n, before := |times|, times[..|times| - 1];
    var s := WindowStart(before);
    if times[n - 1] - times[s] <= 10 * MINUTE {
      assert before[..s] == times[..s];
      TierGrows(n - 1 - s, n - s);
    }
  }

  lemma TierGrows(a: int, b: int)
    requires a <= b
    ensures TierForHits(a) <= TierForHits(b)
  {
  }

  lemma WindowSpan(times: seq<int>)
    requires times != []
    ensures times[|times| - 1] - times[WindowStart(times)] <= 10 * MINUTE
  {
  }

  /** No ten hits in a row fall within ten minutes. */
  ghost predicate Slow(times: seq<int>) {
    forall j, k | 0 <= j && j + 9 <= k < |times| :: times[k] - times[j] > 10 * MINUTE
  }

  lemma {:induction false} SlowPeak(times: seq<int>)
    requires times != [] && InOrder(times) && Slow(times)
    ensures Peak(times) == 0
    decreases |times|
  {
    var n, s := |times|, WindowStart(times);
    SlowWindow(times);
    if s > 0 {
      SlowPeak(times[..s]);
      FewHits(n - s, times[s] - times[s - 1]);
    } else {
      FewHits(n, 0);
    }
  }

  lemma FewHits(count: nat, silence: nat)
    requires count <= 9
    ensures TierForHits(count) == 0 && WindowTier(count, 0, silence) == 0
  {
  }

  lemma SlowWindow(times: seq<int>)
    requires times != [] && InOrder(times) && Slow(times)
    ensures |times| - WindowStart(times) <= 9
    ensures InOrder(times[..WindowStart(times)]) && Slow(times[..WindowStart(times)])
  {
    WindowSpan(times);
  }

  /** An entity of whose hits no ten in a row fall within ten minutes is never penalised. */
  lemma SlowHitsNeverPenalised(times: seq<int>)
    requires times != [] && InOrder(times) && Slow(times)
    ensures Hit(Hits(times[..|times| - 1]), times[|times| - 1]).1 == 0
  {
    LongHistory(times);
    SlowPeak(times);
  }

  // ================================================================ answers and cleanup, outright

  /** Blocked up to and including the end of the penalty, for the whole seconds left or one. */
  lemma BlockedExactly(t: Tracker, now: int, left: nat)
    requires t.penaltyUntil.Some? && now <= t.penaltyUntil.value ==>
               left * SECOND <= t.penaltyUntil.value - now < (left + 1) * SECOND
    ensures Blocked(None, now) == (false, 0)
    ensures Blocked(Some(t), now)
         == if t.penaltyUntil.None? || now > t.penaltyUntil.value then (false, 0)
            else (true, if left == 0 then 1 else left)
  {
    if t.penaltyUntil.Some? && now <= t.penaltyUntil.value {
      var rest := t.penaltyUntil.value - now;
      RemainderUnique(rest, left, rest - left * SECOND, SECOND);
    }
  }

  /** A cleanup keeps exactly the trackers of entities with a hit in the last six hours, as they are. */
  lemma CleanupKeepsRecent(m: Trackers, since: int, now: int, entity: string)
    requires since <= now && AllInv(m, since)
    ensures var cleaned := Cleaned(m, now);
            && (entity in cleaned <==> entity in m && now - m[entity].lastHit < 6 * HOUR)
            && (entity in cleaned ==> cleaned[entity] == m[entity])
  {
    if entity in m {
      PenaltyTestRedundant(m[entity], since, now);
    }
  }
}
