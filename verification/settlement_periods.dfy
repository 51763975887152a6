/** The periods that a user's usage rows claim to cover, over whole serial runs. */
module SettlementPeriods {
  import opened Prelude
  import opened Ledger
  import opened Payments
  import opened Metering
  import opened Sweeping
  import opened BillingRuns

  /** The end of the user's latest usage row. */
  ghost function LastEnd(ledger: seq<Row>, user: string): Option<int> {
    if ledger == [] then None
    else
      var last := ledger[|ledger| - 1];
      if last.user == user && last.detail.UsageOf? then Some(last.detail.periodEnd)
      else LastEnd(ledger[..|ledger| - 1], user)
  }

  function StampOf(end: Option<int>): Stamp {
    if end.Some? then At(end.value) else NoStamp
  }

  /** A usage row covers what follows the same user's previous usage row. */
  ghost predicate Continues(earlier: seq<Row>, row: Row) {
    row.detail.UsageOf? ==>
      Period(row.detail.periodStart, row.detail.periodEnd, row.detail.ticks)
      == SettlementPeriod(StampOf(LastEnd(earlier, row.user)), row.detail.periodEnd)
  }

  ghost predicate PeriodsAbut(ledger: seq<Row>) {
    forall k | 0 <= k < |ledger| :: Continues(ledger[..k], ledger[k])
  }

  function LastBilled(t: Tables, user: string): Stamp {
    if user in t.meters then t.meters[user].lastBilled else NoStamp
  }

  /** The accumulator's watermark is where the user's usage rows end. */
  ghost predicate PeriodInv(t: Tables) {
    && PeriodsAbut(t.ledger)
    && forall user :: LastBilled(t, user) == StampOf(LastEnd(t.ledger, user))
  }

  lemma AbutAppend(ledger: seq<Row>, row: Row, user: string)
    requires PeriodsAbut(ledger) && Continues(ledger, row)
    ensures PeriodsAbut(ledger + [row])
    ensures LastEnd(ledger + [row], user)
         == if row.user == user && row.detail.UsageOf? then Some(row.detail.periodEnd) else LastEnd(ledger, user)
  {
    var next := ledger + [row];
    assert next[..|next| - 1] == ledger;
    forall k | 0 <= k < |next| ensures Continues(next[..k], next[k]) {
      if k < |ledger| {
        assert next[..k] == ledger[..k];
      }
    }
  }

  lemma OtherEntryKeeps(from: Tables, to: Tables, row: Row)
    requires PeriodInv(from) && Entered(from, to.(invoices := from.invoices), row) && !row.detail.UsageOf?
    ensures PeriodInv(to)
  {
    forall user ensures LastBilled(to, user) == StampOf(LastEnd(to.ledger, user)) {
      assert LastBilled(from, user) == StampOf(LastEnd(from.ledger, user));
      AbutAppend(from.ledger, row, user);
    }
    AbutAppend(from.ledger, row, "");
  }

  lemma SettleOneKeeps(t: Tables, due: Due, hourly: int, now: int, faults: Faults)
    requires PeriodInv(t) && due.user in t.meters && due.lastBilled == t.meters[due.user].lastBilled
    ensures PeriodInv(SettleOne(t, due, hourly, now, faults).0)
  {
    var (t', r) := SettleOne(t, due, hourly, now, faults);
    SettleOneExact(t, due, hourly, now, faults);
    if r.Ok? {
      var p := SettlementPeriod(due.lastBilled, now);
      var row := Row(None, due.user, -due.drained, Balance(t, due.user) - due.drained,
                     UsageOf(due.drained, hourly, p.start, p.end, p.ticks));
      assert LastBilled(t, due.user) == StampOf(LastEnd(t.ledger, due.user));
      forall user ensures LastBilled(t', user) == StampOf(LastEnd(t'.ledger, user)) {
        assert LastBilled(t, user) == StampOf(LastEnd(t.ledger, user));
        AbutAppend(t.ledger, row, user);
      }
      AbutAppend(t.ledger, row, "");
    }
  }

  lemma {:induction false} SweepKeeps(t: Tables, queue: seq<Due>, hourly: int, now: int, faultsOf: map<string,
      Faults>, sum: Summary)
    requires PeriodInv(t) && DistinctUsers(queue)
    requires forall k | 0 <= k < |queue| ::
               queue[k].user in t.meters && queue[k].lastBilled == t.meters[queue[k].user].lastBilled
    ensures PeriodInv(Sweep(t, queue, hourly, now, faultsOf, sum).0)
    decreases |queue|
  {
    if queue != [] {
      var faults := FaultsOf(faultsOf, queue[0].user);
      var (t', r) := SettleOne(t, queue[0], hourly, now, faults);
      SettleOneKeeps(t, queue[0], hourly, now, faults);
      SettleOneExact(t, queue[0], hourly, now, faults);
      forall k | 0 <= k < |queue[1..]|
        ensures queue[1..][k].user in t'.meters && queue[1..][k].lastBilled == t'.meters[queue[1..][k].user].lastBilled
      {
        assert queue[1..][k] == queue[k + 1];
      }
      QueueTail(queue, queue[0].user, queue[0].drained);
      SweepKeeps(t', queue[1..], hourly, now, faultsOf, if r.Ok? then Add(sum, queue[0], r.value) else sum);
    }
  }

  lemma {:induction false} ReconcileKeeps(t: Tables, ids: seq<string>, paymentType: string, faultsOf: map<string,
      Faults>)
    requires PeriodInv(t) && forall id | id in ids :: id in t.invoices
    ensures PeriodInv(Reconcile(t, ids, paymentType, faultsOf).tables)
    decreases |ids|
  {
    if ids != [] {
      var inv := t.invoices[ids[0]];
      var faults := FaultsOf(faultsOf, ids[0]);
      var (t', r) := Pay(t, inv.user, inv.amount, inv.providerId, paymentType, faults);
      PayExact(t, inv.user, inv.amount, inv.providerId, paymentType, faults);
      if r.Ok? {
        OtherEntryKeeps(t, t', r.value);
      }
      if r.Ok? || IsDuplicateTransactionIdError(r.error) {
        ReconcileKeeps(t', ids[1..], paymentType, faultsOf);
      }
    }
  }

  lemma StepKeeps(t: Tables, op: Op)
    requires PeriodInv(t) && Possible(t, op)
    ensures PeriodInv(Step(t, op))
  {
    match op
    case GiftOp(user, amount, reason, admin, faults) =>
      GiftExact(t, user, amount, reason, admin, faults);
      var (t', r) := Gift(t, user, amount, reason, admin, faults);
      if r.Ok? {
        OtherEntryKeeps(t, t', r.value);
      }
    case PayOp(user, amount, pid, paymentType, faults) =>
      PayExact(t, user, amount, pid, paymentType, faults);
      var (t', r) := Pay(t, user, amount, pid, paymentType, faults);
      if r.Ok? {
        OtherEntryKeeps(t, t', r.value);
      }
    case SettleOp(invoice, paymentType, faults) =>
      var (t', r) := Settle(t, invoice, paymentType, faults);
      if invoice.Some? {
        SettleExact(t, invoice.value, paymentType, faults);
        if r.Ok? && r.value.Some? {
          SettleCreditIsPayment(t, invoice.value, paymentType, faults);
          OtherEntryKeeps(t, t', r.value.value);
        } else {
          SameWatermarks(t, t');
        }
      }
    case ReconcileOp(ids, paymentType, faultsOf) => ReconcileKeeps(t, ids, paymentType, faultsOf);
    case TickOp(user, rate, now, baseline, faults) =>
      TickExact(t, user, rate, now, baseline, faults);
      SameWatermarks(t, Step(t, op));
    case TickAllOp(names, _, hourly, now, baseline, faultsOf) =>
      forall user ensures LastBilled(Step(t, op), user) == LastBilled(t, user) {
        TickAllExact(t, names, hourly, now, baseline, faultsOf, user);
      }
      TickAllExact(t, names, hourly, now, baseline, faultsOf, "");
      SameWatermarks(t, Step(t, op));
    case SweepOp(queue, hourly, now, faultsOf) => SweepKeeps(t, queue, hourly, now, faultsOf, ZERO);
    case _ => SameWatermarks(t, Step(t, op));
  }

  lemma SameWatermarks(from: Tables, to: Tables)
    requires PeriodInv(from) && to.ledger == from.ledger
    requires forall user :: LastBilled(to, user) == LastBilled(from, user)
    ensures PeriodInv(to)
  {
    forall user ensures LastBilled(to, user) == StampOf(LastEnd(to.ledger, user)) {
      assert LastBilled(from, user) == StampOf(LastEnd(from.ledger, user));
    }
  }

  lemma {:induction false} RunKeeps(t: Tables, ops: seq<Op>)
    requires PeriodInv(t) && Performs(t, ops)
    ensures PeriodInv(Run(t, ops))
    decreases |ops|
  {
    if ops != [] {
      StepKeeps(t, ops[0]);
      RunKeeps(Step(t, ops[0]), ops[1..]);
    }
  }

  /**
   In every serial run from empty tables, a user's usage rows cover consecutive periods: each starts where
   the same user's previous one ended, with no gap and no overlap; the first covers the day before it.
  */
  lemma UsagePeriodsAbut(ops: seq<Op>, k: nat)
    requires Performs(EMPTY, ops)
    requires k < |Run(EMPTY, ops).ledger| && Run(EMPTY, ops).ledger[k].detail.UsageOf?
    ensures var ledger := Run(EMPTY, ops).ledger;
            var usage := ledger[k].detail;
            match LastEnd(ledger[..k], ledger[k].user)
            case Some(previousEnd) => usage.periodStart == previousEnd
            case None => usage.periodStart == usage.periodEnd - DAY && usage.ticks == 24
  {
    RunKeeps(EMPTY, ops);
    var ledger := Run(EMPTY, ops).ledger;
    assert Continues(ledger[..k], ledger[k]);
  }
}
