/** billing/sweep.go: the daily settlement of the accumulators into the ledger. */
module Sweeping {
  import opened Prelude
  import opened Ledger
  import opened Database
  import opened Payments
  import opened Metering

  // ================================================================ specification

  datatype Period = Period(start: int, end: int, ticks: int)

  /** The settled period runs from the previous settlement to now; without a readable one it is the last day. */
  function SettlementPeriod(lastBilled: Stamp, now: int): (p: Period)
    ensures p.end == now && p.ticks >= 1
    ensures lastBilled.At? ==> p.start == lastBilled.time && now - p.start < (p.ticks + 1) * HOUR
    ensures lastBilled.At? ==> p.ticks * HOUR <= now - p.start || (p.ticks == 1 && now - p.start < HOUR)
    ensures !lastBilled.At? ==> p.start == now - DAY && p.ticks * HOUR == now - p.start
  {
    match lastBilled
    case At(time) =>
      // Whole hours, truncated toward zero; anything below one counts as one.
      var elapsed := now - time;
      var hours := if elapsed < 0 then -(-elapsed / HOUR) else elapsed / HOUR;
      Period(time, now, if hours < 1 then 1 else hours)
    case _ => Period(now - DAY, now, 24)
  }

  /** A row of the query that lists what is due: the amount and the watermark as they were read. */
  datatype Due = Due(user: string, drained: int, lastBilled: Stamp)

  /** queue is a possible answer of the query: one row per user with a positive accumulator. */
  ghost predicate ListsDue(t: Tables, queue: seq<Due>) {
    && (forall k | 0 <= k < |queue| ::
          && queue[k].user in t.meters && queue[k].drained > 0
          && t.meters[queue[k].user].unbilled == queue[k].drained
          && t.meters[queue[k].user].lastBilled == queue[k].lastBilled)
    && (forall user | user in t.meters && t.meters[user].unbilled > 0 ::
          exists k | 0 <= k < |queue| :: queue[k].user == user)
    && DistinctUsers(queue)
  }

  ghost predicate DistinctUsers(queue: seq<Due>) {
    forall i, j | 0 <= i < j < |queue| :: queue[i].user != queue[j].user
  }

  function ResetMeterRow(t: Tables, user: string, now: int): Tables {
    if user in t.meters then t.(meters := t.meters[user := Meter(0, t.meters[user].lastTick, At(now))]) else t
  }

  /** One user's settlement, from the amount that was read earlier. */
  function SettleOne(t: Tables, due: Due, rate: int, now: int, faults: Faults): (Tables, Result<int, Error>) {
    var p := SettlementPeriod(due.lastBilled, now);
    var (t1, r) := Post(t, due.user, -due.drained, None, UsageOf(due.drained, rate, p.start, p.end, p.ticks), faults);
    if BeginTx in faults then (t, Err(Refused(BeginTx)))
    else if r.Err? then (t, Err(r.error))
    else if ResetMeter in faults then (t, Err(Refused(ResetMeter)))
    else if CommitTx in faults then (t, Err(Refused(CommitTx)))
    else (ResetMeterRow(t1, due.user, now), Ok(r.value.balanceAfter))
  }

  datatype Summary = Summary(settled: nat, totalDrained: int, negative: nat)

  function Add(s: Summary, due: Due, newBalance: int): Summary {
    Summary(s.settled + 1, s.totalDrained + due.drained, s.negative + if newBalance < 0 then 1 else 0)
  }

  /** The settlement loop over a queue that was read beforehand. */
  function Sweep(t: Tables, queue: seq<Due>, rate: int, now: int, faultsOf: map<string, Faults>, sum: Summary)
    : (Tables, Summary)
    decreases |queue|
  {
    if queue == [] then (t, sum)
    else
      var (t', r) := SettleOne(t, queue[0], rate, now, FaultsOf(faultsOf, queue[0].user));
      Sweep(t', queue[1..], rate, now, faultsOf, if r.Ok? then Add(sum, queue[0], r.value) else sum)
  }

  lemma SweepRound(t: Tables, queue: seq<Due>, k: nat, rate: int, now: int, faultsOf: map<string, Faults>, sum: Summary)
    requires k < |queue|
    ensures var (t', r) := SettleOne(t, queue[k], rate, now, FaultsOf(faultsOf, queue[k].user));
            Sweep(t, queue[k..], rate, now, faultsOf, sum)
            == Sweep(t', queue[k + 1..], rate, now, faultsOf, if r.Ok? then Add(sum, queue[k], r.value) else sum)
  {
    assert queue[k..][0] == queue[k] && queue[k..][1..] == queue[k + 1..];
  }

  const ZERO: Summary := Summary(0, 0, 0)

  // ================================================================ the calls themselves

  method ComputeSettlementPeriod(lastBilled: Stamp, now: int) returns (start: int, end: int, ticks: int)
    ensures Period(start, end, ticks) == SettlementPeriod(lastBilled, now)
  {
    end := now;
    if !lastBilled.At? {
      start, ticks := end - DAY, 24;
      return;
    }
    start := lastBilled.time;
    var elapsed := end - start;
    ticks := if elapsed < 0 then -(-elapsed / HOUR) else elapsed / HOUR;
    if ticks < 1 {
      ticks := 1;
    }
  }

  method SettleOneUser(db: Db, due: Due, rate: int, now: int, faults: Faults) returns (r: Result<int, Error>)
    modifies db
    ensures (db.View(), r) == SettleOne(old(db.View()), due, rate, now, faults)
  {
    if BeginTx in faults { return Err(Refused(BeginTx)); }
    var begun := db.View();
    var start, end, ticks := ComputeSettlementPeriod(due.lastBilled, now);
    var row := PostEntry(db, due.user, -due.drained, None, UsageOf(due.drained, rate, start, end, ticks), faults);
    if row.Err? {
      db.Rollback(begun);
      return Err(row.error);
    }
    if ResetMeter in faults {
      db.Rollback(begun);
      return Err(Refused(ResetMeter));
    }
    if due.user in db.meters {
      db.meters := db.meters[due.user := Meter(0, db.meters[due.user].lastTick, At(now))];
    }
    if CommitTx in faults {
      db.Rollback(begun);
      return Err(Refused(CommitTx));
    }
    return Ok(row.value.balanceAfter);
  }

  /** listFails says whether the query for what is due, or the reading of its answer, fails. */
  method SweepAllUsers(db: Db, queue: seq<Due>, rate: Option<int>, now: int, faultsOf: map<string, Faults>,
      listFails: bool)
    returns (r: Result<Summary, Error>)
    requires ListsDue(db.View(), queue)
    modifies db
    ensures rate.None? ==> r == Err(NilRate)
    ensures rate.Some? && listFails ==> r == Err(Refused(ListRows))
    ensures rate.None? || listFails ==> db.View() == old(db.View())
    ensures rate.Some? && !listFails ==>
              r.Ok? && (db.View(), r.value) == Sweep(old(db.View()), queue, rate.value, now, faultsOf, ZERO)
  {
    if rate.None? { return Err(NilRate); }
    if listFails { return Err(Refused(ListRows)); }
    var summary := SettleQueue(db, queue, rate.value, now, faultsOf);
    return Ok(summary);
  }

  /** The loop over the queue; a user whose settlement fails is left for the next sweep. */
  method SettleQueue(db: Db, queue: seq<Due>, rate: int, now: int, faultsOf: map<string, Faults>)
    returns (summary: Summary)
    modifies db
    ensures (db.View(), summary) == Sweep(old(db.View()), queue, rate, now, faultsOf, ZERO)
  {
    summary := ZERO;
    ghost var whole := Sweep(db.View(), queue, rate, now, faultsOf, summary);
    for k := 0 to |queue|
      invariant whole == Sweep(db.View(), queue[k..], rate, now, faultsOf, summary)
    {
      SweepRound(db.View(), queue, k, rate, now, faultsOf, summary);
      var newBalance := SettleOneUser(db, queue[k], rate, now, FaultsOf(faultsOf, queue[k].user));
      if newBalance.Err? { continue; }
      summary := Summary(summary.settled + 1, summary.totalDrained + queue[k].drained, summary.negative);
      if newBalance.value < 0 {
        summary := summary.(negative := summary.negative + 1);
      }
    }
  }

  // ================================================================ one settlement

  ghost predicate CanSettleOne(t: Tables, user: string, faults: Faults) {
    BeginTx !in faults && ResetMeter !in faults && CommitTx !in faults && Accepts(t, user, None, faults)
  }

  /** A settlement enters one usage row for the amount read, empties the accumulator, and is all or nothing. */
  lemma SettleOneExact(t: Tables, due: Due, rate: int, now: int, faults: Faults)
    ensures var (t', r) := SettleOne(t, due, rate, now, faults);
            var p := SettlementPeriod(due.lastBilled, now);
            var row := Row(None, due.user, -due.drained, Balance(t, due.user) - due.drained,
                           UsageOf(due.drained, rate, p.start, p.end, p.ticks));
            && (r.Ok? <==> CanSettleOne(t, due.user, faults))
            && (r.Err? ==> t' == t)
            && (r.Ok? ==> Entered(t, t'.(meters := t.meters), row) && r.value == row.balanceAfter
                          && t'.meters.Keys == t.meters.Keys && Unbilled(t', due.user) == 0
                          && (due.user in t.meters ==>
                                t'.meters[due.user] == Meter(0, t.meters[due.user].lastTick, At(now)))
                          && forall u | u in t.meters && u != due.user :: t'.meters[u] == t.meters[u])
  {
    var p := SettlementPeriod(due.lastBilled, now);
    PostExact(t, due.user, -due.drained, None, UsageOf(due.drained, rate, p.start, p.end, p.ticks), faults);
  }

  /** A settlement takes from the balance exactly what its usage row says, whatever the accumulator held. */
  lemma SettleOneMoves(t: Tables, due: Due, rate: int, now: int, faults: Faults, user: string)
    ensures var (t', r) := SettleOne(t, due, rate, now, faults);
            && Drift(t', user) == Drift(t, user)
            && Drained(t'.ledger, user)
               == Drained(t.ledger, user) + (if r.Ok? && user == due.user then due.drained else 0)
            && Balance(t', user) == Balance(t, user) - (if r.Ok? && user == due.user then due.drained else 0)
            && Unbilled(t', user) == (if r.Ok? && user == due.user then 0 else Unbilled(t, user))
  {
    var (t', r) := SettleOne(t, due, rate, now, faults);
    SettleOneExact(t, due, rate, now, faults);
    if r.Ok? {
      var p := SettlementPeriod(due.lastBilled, now);
      var row := Row(None, due.user, -due.drained, Balance(t, due.user) - due.drained,
                     UsageOf(due.drained, rate, p.start, p.end, p.ticks));
      EntryKeepsDrift(t, t'.(meters := t.meters), row, user);
    }
  }

  // ================================================================ sweeps with ticks in between

  datatype Charge = Charge(user: string, amount: int, now: int)

  function ApplyCharges(t: Tables, charges: seq<Charge>): Tables
    decreases |charges|
  {
    if charges == [] then t
    else ApplyCharges(AddCharge(t, charges[0].user, charges[0].amount, charges[0].now), charges[1..])
  }

  function ChargedTo(charges: seq<Charge>, user: string): int {
    if charges == [] then 0
    else (if charges[0].user == user then charges[0].amount else 0) + ChargedTo(charges[1..], user)
  }

  lemma {:induction false} ApplyChargesExact(t: Tables, charges: seq<Charge>, user: string)
    ensures var t' := ApplyCharges(t, charges);
            && Unbilled(t', user) == Unbilled(t, user) + ChargedTo(charges, user)
            && t' == t.(meters := t'.meters)
    decreases |charges|
  {
    if charges != [] {
      ApplyChargesExact(AddCharge(t, charges[0].user, charges[0].amount, charges[0].now), charges[1..], user);
    }
  }

  /** The state after a sweep, and which of its settlements were committed. */
  datatype Swept = Swept(tables: Tables, committed: seq<bool>)

  /** The settlement loop with the charges gaps[k] ticked just before settlement k. */
  function SweepWithTicks(t: Tables, queue: seq<Due>, gaps: seq<seq<Charge>>, rate: int, now: int,
      faultsOf: map<string, Faults>): (s: Swept)
    requires |gaps| == |queue|
    ensures |s.committed| == |queue|
    decreases |queue|
  {
    if queue == [] then Swept(t, [])
    else
      var (t', r) := SettleOne(ApplyCharges(t, gaps[0]), queue[0], rate, now, FaultsOf(faultsOf, queue[0].user));
      var rest := SweepWithTicks(t', queue[1..], gaps[1..], rate, now, faultsOf);
      Swept(rest.tables, [r.Ok?] + rest.committed)
  }

  /** Everything ticked to the user in these gaps. */
  function TickedIn(gaps: seq<seq<Charge>>, user: string): int {
    if gaps == [] then 0 else ChargedTo(gaps[0], user) + TickedIn(gaps[1..], user)
  }

  /**
   What the user's committed settlement wipes out unbilled: the charges ticked to the user between the
   reading of the queue (sinceRead of them before this point) and that settlement.
  */
  function Shortfall(queue: seq<Due>, gaps: seq<seq<Charge>>, committed: seq<bool>, user: string, sinceRead: int): int
    requires |gaps| == |queue| == |committed|
  {
    if queue == [] then 0
    else
      var ticked := sinceRead + ChargedTo(gaps[0], user);
      if queue[0].user == user then (if committed[0] then ticked else 0)
      else Shortfall(queue[1..], gaps[1..], committed[1..], user, ticked)
  }

  /** The user's own row of the queue, if there is one, was read when the accumulator held unbilled. */
  ghost predicate ReadAs(queue: seq<Due>, user: string, unbilled: int) {
    forall k | 0 <= k < |queue| :: queue[k].user == user ==> queue[k].drained == unbilled
  }

  lemma QueueTail(queue: seq<Due>, user: string, unbilled: int)
    requires queue != [] && DistinctUsers(queue) && ReadAs(queue, user, unbilled)
    ensures DistinctUsers(queue[1..]) && ReadAs(queue[1..], user, unbilled)
    ensures queue[0].user == user ==> queue[0].drained == unbilled && Absent(queue[1..], user)
  {
    assert forall k | 0 <= k < |queue[1..]| :: queue[1..][k] == queue[k + 1];
  }

  lemma {:induction false} SweepGaps(t: Tables, queue: seq<Due>, gaps: seq<seq<Charge>>, rate: int, now: int,
      faultsOf: map<string, Faults>, user: string, read: int, sinceRead: int)
    requires |gaps| == |queue| && DistinctUsers(queue) && ReadAs(queue, user, read)
    requires Unbilled(t, user) == read + sinceRead
    ensures var s := SweepWithTicks(t, queue, gaps, rate, now, faultsOf);
            Unbilled(s.tables, user) + Drained(s.tables.ledger, user)
              + Shortfall(queue, gaps, s.committed, user, sinceRead)
            == Unbilled(t, user) + Drained(t.ledger, user) + TickedIn(gaps, user)
    decreases |queue|
  {
    if queue != [] {
      QueueTail(queue, user, read);
      if queue[0].user == user {
        GapsSettled(t, queue, gaps, rate, now, faultsOf, user, sinceRead);
      } else {
        var t', ok, rest := FirstRound(t, queue, gaps, rate, now, faultsOf, user, sinceRead);
        SweepGaps(t', queue[1..], gaps[1..], rate, now, faultsOf, user, read, sinceRead + ChargedTo(gaps[0], user));
        GapSum(t, t', rest, queue, gaps, ok, user, sinceRead);
      }
    }
  }

  /** The round that settles the user; later ones do not touch him. */
  lemma GapsSettled(t: Tables, queue: seq<Due>, gaps: seq<seq<Charge>>, rate: int, now: int,
      faultsOf: map<string, Faults>, user: string, sinceRead: int)
    requires |gaps| == |queue| && queue != [] && queue[0].user == user && Absent(queue[1..], user)
    requires Unbilled(t, user) == queue[0].drained + sinceRead
    ensures var s := SweepWithTicks(t, queue, gaps, rate, now, faultsOf);
            Unbilled(s.tables, user) + Drained(s.tables.ledger, user)
              + Shortfall(queue, gaps, s.committed, user, sinceRead)
            == Unbilled(t, user) + Drained(t.ledger, user) + TickedIn(gaps, user)
  {
    var t', ok, rest := FirstRound(t, queue, gaps, rate, now, faultsOf, user, sinceRead);
    SweepWithoutUser(t', queue[1..], gaps[1..], rate, now, faultsOf, user, sinceRead + ChargedTo(gaps[0], user));
    GapSum(t, t', rest, queue, gaps, ok, user, sinceRead);
  }

  /** The sums over all rounds from those over the later ones. */
  lemma GapSum(t: Tables, t': Tables, rest: Swept, queue: seq<Due>, gaps: seq<seq<Charge>>, ok: bool, user: string,
      sinceRead: int)
    requires |gaps| == |queue| == |rest.committed| + 1
    requires queue[0].user == user ==> queue[0].drained == Unbilled(t, user) - sinceRead
    requires var mine := ok && user == queue[0].user;
             && Drained(t'.ledger, user) == Drained(t.ledger, user) + (if mine then queue[0].drained else 0)
             && Unbilled(t', user) == (if mine then 0 else Unbilled(t, user) + ChargedTo(gaps[0], user))
    requires Unbilled(rest.tables, user) + Drained(rest.tables.ledger, user)
               + (if queue[0].user == user then 0
                  else Shortfall(queue[1..], gaps[1..], rest.committed, user, sinceRead + ChargedTo(gaps[0], user)))
             == Unbilled(t', user) + Drained(t'.ledger, user) + TickedIn(gaps[1..], user)
    ensures Unbilled(rest.tables, user) + Drained(rest.tables.ledger, user)
              + Shortfall(queue, gaps, [ok] + rest.committed, user, sinceRead)
            == Unbilled(t, user) + Drained(t.ledger, user) + TickedIn(gaps, user)
  {
    ShortfallSplit(queue, gaps, ok, rest.committed, user, sinceRead);
  }

  /** The first settlement, and what it leaves of the shortfall. */
  lemma FirstRound(t: Tables, queue: seq<Due>, gaps: seq<seq<Charge>>, rate: int, now: int,
      faultsOf: map<string, Faults>, user: string, sinceRead: int)
    returns (t': Tables, ok: bool, rest: Swept)
    requires |gaps| == |queue| && queue != []
    ensures rest == SweepWithTicks(t', queue[1..], gaps[1..], rate, now, faultsOf)
    ensures SweepWithTicks(t, queue, gaps, rate, now, faultsOf) == Swept(rest.tables, [ok] + rest.committed)
    ensures var ticked := sinceRead + ChargedTo(gaps[0], user);
            Shortfall(queue, gaps, [ok] + rest.committed, user, sinceRead)
            == if queue[0].user == user then (if ok then ticked else 0)
               else Shortfall(queue[1..], gaps[1..], rest.committed, user, ticked)
    ensures var mine := ok && user == queue[0].user;
            && Drained(t'.ledger, user) == Drained(t.ledger, user) + (if mine then queue[0].drained else 0)
            && Unbilled(t', user) == (if mine then 0 else Unbilled(t, user) + ChargedTo(gaps[0], user))
  {
    var faults := FaultsOf(faultsOf, queue[0].user);
    t', ok := GapRound(t, gaps[0], queue[0], rate, now, faults, user);
    rest := SweepWithTicks(t', queue[1..], gaps[1..], rate, now, faultsOf);
    ShortfallSplit(queue, gaps, ok, rest.committed, user, sinceRead);
  }

  lemma ShortfallSplit(queue: seq<Due>, gaps: seq<seq<Charge>>, ok: bool, committed: seq<bool>, user: string,
      sinceRead: int)
    requires |gaps| == |queue| == |committed| + 1
    ensures var ticked := sinceRead + ChargedTo(gaps[0], user);
            Shortfall(queue, gaps, [ok] + committed, user, sinceRead)
            == if queue[0].user == user then (if ok then ticked else 0)
               else Shortfall(queue[1..], gaps[1..], committed, user, ticked)
  {
    assert ([ok] + committed)[1..] == committed;
  }

  ghost predicate Absent(queue: seq<Due>, user: string) {
    forall k | 0 <= k < |queue| :: queue[k].user != user
  }

  lemma AbsentTail(queue: seq<Due>, user: string)
    requires queue != [] && Absent(queue, user)
    ensures queue[0].user != user && Absent(queue[1..], user)
  {
    assert forall k | 0 <= k < |queue[1..]| :: queue[1..][k] == queue[k + 1];
  }

  /** Once a user is no longer in the queue, nothing of his is lost. */
  lemma {:induction false} SweepWithoutUser(t: Tables, queue: seq<Due>, gaps: seq<seq<Charge>>, rate: int, now: int,
      faultsOf: map<string, Faults>, user: string, sinceRead: int)
    requires |gaps| == |queue| && Absent(queue, user)
    ensures var s := SweepWithTicks(t, queue, gaps, rate, now, faultsOf);
            && Unbilled(s.tables, user) == Unbilled(t, user) + TickedIn(gaps, user)
            && Drained(s.tables.ledger, user) == Drained(t.ledger, user)
            && Shortfall(queue, gaps, s.committed, user, sinceRead) == 0
    decreases |queue|
  {
    if queue == [] {
      return;
    }
    var t', ok, rest := FirstRound(t, queue, gaps, rate, now, faultsOf, user, sinceRead);
    AbsentTail(queue, user);
    SweepWithoutUser(t', queue[1..], gaps[1..], rate, now, faultsOf, user, sinceRead + ChargedTo(gaps[0], user));
  }

  lemma GapRound(t: Tables, gap: seq<Charge>, due: Due, rate: int, now: int, faults: Faults, user: string)
    returns (t': Tables, ok: bool)
    ensures SettleOne(ApplyCharges(t, gap), due, rate, now, faults).0 == t'
    ensures SettleOne(ApplyCharges(t, gap), due, rate, now, faults).1.Ok? == ok
    ensures Drained(t'.ledger, user) == Drained(t.ledger, user) + (if ok && user == due.user then due.drained else 0)
    ensures Unbilled(t', user) == (if ok && user == due.user then 0 else Unbilled(t, user) + ChargedTo(gap, user))
  {
    var (t1, r) := SettleOne(ApplyCharges(t, gap), due, rate, now, faults);
    t', ok := t1, r.Ok?;
    ApplyChargesExact(t, gap, user);
    SettleOneMoves(ApplyCharges(t, gap), due, rate, now, faults, user);
  }

  /**
   Charges are conserved through a sweep up to an exact shortfall: what a user was ticked while the
   sweep ran is still unbilled or was drained, except the charges that fell between the reading of the
   queue and that user's committed settlement.
  */
  lemma SweepShortfall(t: Tables, queue: seq<Due>, gaps: seq<seq<Charge>>, rate: int, now: int,
      faultsOf: map<string, Faults>, user: string)
    requires |gaps| == |queue| && ListsDue(t, queue)
    ensures var s := SweepWithTicks(t, queue, gaps, rate, now, faultsOf);
            Unbilled(s.tables, user) + Drained(s.tables.ledger, user)
            == Unbilled(t, user) + Drained(t.ledger, user) + TickedIn(gaps, user)
               - Shortfall(queue, gaps, s.committed, user, 0)
  {
    SweepGaps(t, queue, gaps, rate, now, faultsOf, user, Unbilled(t, user), 0);
  }

  // ================================================================ sweeps that run alone

  lemma SweepFirst(t: Tables, queue: seq<Due>, rate: int, now: int, faultsOf: map<string, Faults>, sum: Summary,
      user: string)
    returns (t': Tables, sum': Summary, ok: bool)
    requires queue != []
    ensures Sweep(t, queue, rate, now, faultsOf, sum) == Sweep(t', queue[1..], rate, now, faultsOf, sum')
    ensures ok == SettleOne(t, queue[0], rate, now, FaultsOf(faultsOf, queue[0].user)).1.Ok?
    ensures var mine := if ok && user == queue[0].user then queue[0].drained else 0;
            && Drift(t', user) == Drift(t, user)
            && Drained(t'.ledger, user) == Drained(t.ledger, user) + mine
            && Balance(t', user) == Balance(t, user) - mine
            && Unbilled(t', user) == (if ok && user == queue[0].user then 0 else Unbilled(t, user))
  {
    var faults := FaultsOf(faultsOf, queue[0].user);
    SettleOneMoves(t, queue[0], rate, now, faults, user);
    var (t1, r) := SettleOne(t, queue[0], rate, now, faults);
    t', sum', ok := t1, if r.Ok? then Add(sum, queue[0], r.value) else sum, r.Ok?;
  }

  /**
   A sweep that runs alone conserves: what leaves a user's accumulator is what the usage row takes from
   the balance, so balance minus unbilled stays the same whichever settlements fail.
  */
  lemma {:induction false} SweepConserves(t: Tables, queue: seq<Due>, rate: int, now: int, faultsOf: map<string,
      Faults>,
      sum: Summary, user: string)
    requires DistinctUsers(queue) && ReadAs(queue, user, Unbilled(t, user))
    ensures var t' := Sweep(t, queue, rate, now, faultsOf, sum).0;
            && Unbilled(t', user) + Drained(t'.ledger, user) == Unbilled(t, user) + Drained(t.ledger, user)
            && Balance(t', user) - Unbilled(t', user) == Balance(t, user) - Unbilled(t, user)
            && Drift(t', user) == Drift(t, user)
            && (Unbilled(t', user) == 0 || Unbilled(t', user) == Unbilled(t, user))
    decreases |queue|
  {
    if queue == [] {
      return;
    }
    QueueTail(queue, user, Unbilled(t, user));
    var t', sum', ok := SweepFirst(t, queue, rate, now, faultsOf, sum, user);
    SweepConserves(t', queue[1..], rate, now, faultsOf, sum', user);
  }

  /** With no fault on the way, every listed user's accumulator is empty after the sweep. */
  lemma {:induction false} SweepEmpties(t: Tables, queue: seq<Due>, rate: int, now: int, faultsOf: map<string, Faults>,
      sum: Summary, k: nat)
    requires DistinctUsers(queue) && k < |queue| && FaultsOf(faultsOf, queue[k].user) == {}
    ensures Unbilled(Sweep(t, queue, rate, now, faultsOf, sum).0, queue[k].user) == 0
    decreases |queue|
  {
    var user := queue[k].user;
    var t', sum', ok := SweepFirst(t, queue, rate, now, faultsOf, sum, user);
    if k == 0 {
      SettleOneExact(t, queue[0], rate, now, FaultsOf(faultsOf, user));
      forall j | 0 <= j < |queue[1..]| ensures queue[1..][j].user != user {
        assert queue[1..][j] == queue[j + 1];
      }
      SweepConserves(t', queue[1..], rate, now, faultsOf, sum', user);
    } else {
      assert queue[1..][k - 1] == queue[k];
      SweepEmpties(t', queue[1..], rate, now, faultsOf, sum', k - 1);
    }
  }

  /** What a stretch of usage rows adds up to, counted from the rows alone. */
  function RowsSummary(rows: seq<Row>): Summary {
    if rows == [] then ZERO
    else
      var rest := RowsSummary(rows[1..]);
      Summary(rest.settled + 1, rest.totalDrained - rows[0].amount,
              rest.negative + if rows[0].balanceAfter < 0 then 1 else 0)
  }

  function Plus(a: Summary, b: Summary): Summary {
    Summary(a.settled + b.settled, a.totalDrained + b.totalDrained, a.negative + b.negative)
  }

  /** The sweep's summary is the summary of the rows it appended to the ledger; it removes none. */
  lemma {:induction false} SweepSummaryMatchesLedger(t: Tables, queue: seq<Due>, rate: int, now: int,
      faultsOf: map<string, Faults>, sum: Summary)
    ensures var (t', sum') := Sweep(t, queue, rate, now, faultsOf, sum);
            && t.ledger <= t'.ledger
            && sum' == Plus(sum, RowsSummary(t'.ledger[|t.ledger|..]))
            && forall k | |t.ledger| <= k < |t'.ledger| :: t'.ledger[k].detail.UsageOf?
    decreases |queue|
  {
    if queue == [] {
      return;
    }
    var faults := FaultsOf(faultsOf, queue[0].user);
    var (t1, r) := SettleOne(t, queue[0], rate, now, faults);
    var sum1 := if r.Ok? then Add(sum, queue[0], r.value) else sum;
    SettleOneAppends(t, queue[0], rate, now, faults);
    SweepSummaryMatchesLedger(t1, queue[1..], rate, now, faultsOf, sum1);
    var (t', sum') := Sweep(t1, queue[1..], rate, now, faultsOf, sum1);
    if r.Ok? {
      OneRowMore(t.ledger, t1.ledger, t'.ledger, sum, queue[0], r.value, sum');
    }
  }

  lemma OneRowMore(before: seq<Row>, next: seq<Row>, after: seq<Row>, sum: Summary, due: Due, newBalance: int,
      end: Summary)
    requires before <= next <= after && |next| == |before| + 1
    requires next[|before|].amount == -due.drained && next[|before|].balanceAfter == newBalance
    requires next[|before|].detail.UsageOf?
    requires forall k | |next| <= k < |after| :: after[k].detail.UsageOf?
    requires end == Plus(Add(sum, due, newBalance), RowsSummary(after[|next|..]))
    ensures before <= after && end == Plus(sum, RowsSummary(after[|before|..]))
    ensures forall k | |before| <= k < |after| :: after[k].detail.UsageOf?
  {
    assert after[|before|..] == [next[|before|]] + after[|next|..];
  }

  lemma SettleOneAppends(t: Tables, due: Due, rate: int, now: int, faults: Faults)
    ensures var (t', r) := SettleOne(t, due, rate, now, faults);
            && (r.Err? ==> t' == t)
            && (r.Ok? ==>
                  && |t'.ledger| == |t.ledger| + 1 && t.ledger <= t'.ledger
                  && t'.ledger[|t.ledger|].detail.UsageOf?
                  && t'.ledger[|t.ledger|].amount == -due.drained && t'.ledger[|t.ledger|].balanceAfter == r.value)
  {
    SettleOneExact(t, due, rate, now, faults);
  }
}
