/** Whole runs of the billing calls that run one at a time, with any database faults. */
module BillingRuns {
  import opened Prelude
  import opened Ledger
  import opened Payments
  import opened Metering
  import opened Sweeping

  /** One call, or one change of a table that the billing calls only read. */
  datatype Op =
    | GiftOp(user: string, amount: int, reason: string, admin: string, faults: Faults)
    | PayOp(user: string, amount: int, providerId: string, paymentType: string, faults: Faults)
    | SettleOp(invoice: Option<Snapshot>, paymentType: string, faults: Faults)
    | ReconcileOp(ids: seq<string>, paymentType: string, faultsOf: map<string, Faults>)
    | TickOp(user: string, rate: Option<int>, now: int, baseline: int, faults: Faults)
    | TickAllOp(names: seq<string>, includeAdmins: bool, hourly: int, now: int, baseline: int,
        faultsOf: map<string, Faults>)
    | SweepOp(queue: seq<Due>, hourly: int, now: int, faultsOf: map<string, Faults>)
    | NewInvoice(id: string, inv: Invoice)
    | SyncInvoice(id: string, status: Status)
    | OpenAccount(user: string)
    | SetUser(user: string, record: User)

  /**
   The listings an op carries are ones the database could have answered; a new invoice respects the unique
   columns.
  */
  ghost predicate Possible(t: Tables, op: Op) {
    match op
    case ReconcileOp(ids, _, _) => ListsOrphans(t, ids)
    case TickAllOp(names, includeAdmins, _, _, _, _) => AreActive(t, names, includeAdmins)
    case SweepOp(queue, _, _, _) => ListsDue(t, queue)
    case NewInvoice(id, inv) =>
      && id !in t.invoices
      && (inv.providerId == "" || forall other | other in t.invoices :: t.invoices[other].providerId != inv.providerId)
    case _ => true
  }

  ghost function Step(t: Tables, op: Op): Tables
    requires Possible(t, op)
  {
    match op
    case GiftOp(user, amount, reason, admin, faults) => Gift(t, user, amount, reason, admin, faults).0
    case PayOp(user, amount, pid, paymentType, faults) => Pay(t, user, amount, pid, paymentType, faults).0
    case SettleOp(invoice, paymentType, faults) => Settle(t, invoice, paymentType, faults).0
    case ReconcileOp(ids, paymentType, faultsOf) => Reconcile(t, ids, paymentType, faultsOf).tables
    case TickOp(user, rate, now, baseline, faults) => Tick(t, user, rate, now, baseline, faults).0
    case TickAllOp(names, _, hourly, now, baseline, faultsOf) =>
      TickAll(t, names, hourly, now, baseline, faultsOf).tables
    case SweepOp(queue, hourly, now, faultsOf) => Sweep(t, queue, hourly, now, faultsOf, ZERO).0
    case NewInvoice(id, inv) => t.(invoices := t.invoices[id := inv])
    case SyncInvoice(id, status) => SetStatus(t, id, status)
    case OpenAccount(user) => if user in t.accounts then t else t.(accounts := t.accounts[user := 0])
    case SetUser(user, record) => t.(users := t.users[user := record])
  }

  /** The run of ops is one the system can perform from t. */
  ghost predicate Performs(t: Tables, ops: seq<Op>)
    decreases |ops|
  {
    ops == [] || (Possible(t, ops[0]) && Performs(Step(t, ops[0]), ops[1..]))
  }

  ghost function Run(t: Tables, ops: seq<Op>): Tables
    requires Performs(t, ops)
    decreases |ops|
  {
    if ops == [] then t else Run(Step(t, ops[0]), ops[1..])
  }

  // ================================================================ the ledger in every serial run

  /** Everything that a call may do to the ledger: nothing, or entries one after another. */
  ghost predicate Grows(t: Tables, t': Tables) {
    && t.ledger <= t'.ledger
    && (LedgerInv(t) ==> LedgerInv(t'))
    && (forall user :: Drift(t', user) == Drift(t, user))
  }

  lemma EntryGrows(from: Tables, to: Tables, row: Row)
    requires Entered(from, to, row)
    ensures Grows(from, to)
  {
    if LedgerInv(from) {
      EntryKeepsInv(from, to, row);
    }
    forall user ensures Drift(to, user) == Drift(from, user) {
      EntryKeepsDrift(from, to, row, user);
    }
  }

  /** Whatever leaves accounts and ledger alone grows nothing. */
  lemma SameMoneyGrows(from: Tables, to: Tables)
    requires to.ledger == from.ledger && forall user :: Balance(to, user) == Balance(from, user)
    ensures Grows(from, to)
  {
    assert forall user :: Drift(to, user) == Drift(from, user);
  }

  lemma GrowsTransitive(a: Tables, b: Tables, c: Tables)
    requires Grows(a, b) && Grows(b, c)
    ensures Grows(a, c)
  {
    forall user ensures Drift(c, user) == Drift(a, user) {
      assert Drift(b, user) == Drift(a, user);
    }
  }

  lemma PayGrows(t: Tables, user: string, amount: int, pid: string, paymentType: string, faults: Faults)
    ensures Grows(t, Pay(t, user, amount, pid, paymentType, faults).0)
  {
    var (t', r) := Pay(t, user, amount, pid, paymentType, faults);
    PayExact(t, user, amount, pid, paymentType, faults);
    if r.Ok? {
      EntryGrows(t, t', r.value);
    } else {
      SameMoneyGrows(t, t');
    }
  }

  lemma SettleGrows(t: Tables, invoice: Option<Snapshot>, paymentType: string, faults: Faults)
    ensures Grows(t, Settle(t, invoice, paymentType, faults).0)
  {
    var (t', r) := Settle(t, invoice, paymentType, faults);
    if invoice.Some? {
      SettleExact(t, invoice.value, paymentType, faults);
    }
    if r.Ok? && r.value.Some? {
      var t1 := t'.(invoices := t.invoices);
      EntryGrows(t, t1, r.value.value);
      SameMoneyGrows(t1, t');
      GrowsTransitive(t, t1, t');
    } else {
      SameMoneyGrows(t, t');
    }
  }

  lemma {:induction false} ReconcileGrows(t: Tables, ids: seq<string>, paymentType: string, faultsOf: map<string,
      Faults>)
    requires forall id | id in ids :: id in t.invoices
    ensures Grows(t, Reconcile(t, ids, paymentType, faultsOf).tables)
    decreases |ids|
  {
    if ids == [] {
      SameMoneyGrows(t, t);
      return;
    }
    var inv := t.invoices[ids[0]];
    var faults := FaultsOf(faultsOf, ids[0]);
    var (t', r) := Pay(t, inv.user, inv.amount, inv.providerId, paymentType, faults);
    PayExact(t, inv.user, inv.amount, inv.providerId, paymentType, faults);
    PayGrows(t, inv.user, inv.amount, inv.providerId, paymentType, faults);
    if r.Ok? || IsDuplicateTransactionIdError(r.error) {
      ReconcileGrows(t', ids[1..], paymentType, faultsOf);
      GrowsTransitive(t, t', Reconcile(t', ids[1..], paymentType, faultsOf).tables);
    }
  }

  lemma SettleOneGrows(t: Tables, due: Due, hourly: int, now: int, faults: Faults)
    ensures Grows(t, SettleOne(t, due, hourly, now, faults).0)
  {
    var (t', r) := SettleOne(t, due, hourly, now, faults);
    SettleOneExact(t, due, hourly, now, faults);
    if r.Ok? {
      var t1 := t'.(meters := t.meters);
      var p := SettlementPeriod(due.lastBilled, now);
      EntryGrows(t, t1, Row(None, due.user, -due.drained, Balance(t, due.user) - due.drained,
                            UsageOf(due.drained, hourly, p.start, p.end, p.ticks)));
      SameMoneyGrows(t1, t');
      GrowsTransitive(t, t1, t');
    } else {
      SameMoneyGrows(t, t');
    }
  }

  lemma {:induction false} SweepGrows(t: Tables, queue: seq<Due>, hourly: int, now: int, faultsOf: map<string,
      Faults>, sum: Summary)
    ensures Grows(t, Sweep(t, queue, hourly, now, faultsOf, sum).0)
    decreases |queue|
  {
    if queue == [] {
      SameMoneyGrows(t, t);
      return;
    }
    var faults := FaultsOf(faultsOf, queue[0].user);
    var (t', r) := SettleOne(t, queue[0], hourly, now, faults);
    SettleOneGrows(t, queue[0], hourly, now, faults);
    var sum' := if r.Ok? then Add(sum, queue[0], r.value) else sum;
    SweepGrows(t', queue[1..], hourly, now, faultsOf, sum');
    GrowsTransitive(t, t', Sweep(t', queue[1..], hourly, now, faultsOf, sum').0);
  }

  /** No call, with whatever faults, moves a balance without its ledger row or a row without its balance. */
  lemma StepGrows(t: Tables, op: Op)
    requires Possible(t, op)
    ensures Grows(t, Step(t, op))
  {
    match op
    case GiftOp(user, amount, reason, admin, faults) =>
      GiftExact(t, user, amount, reason, admin, faults);
      var (t', r) := Gift(t, user, amount, reason, admin, faults);
      if r.Ok? {
        EntryGrows(t, t', r.value);
      } else {
        SameMoneyGrows(t, t');
      }
    case PayOp(user, amount, pid, paymentType, faults) => PayGrows(t, user, amount, pid, paymentType, faults);
    case SettleOp(invoice, paymentType, faults) => SettleGrows(t, invoice, paymentType, faults);
    case ReconcileOp(ids, paymentType, faultsOf) => ReconcileGrows(t, ids, paymentType, faultsOf);
    case TickOp(user, rate, now, baseline, faults) =>
      TickExact(t, user, rate, now, baseline, faults);
      SameMoneyGrows(t, Step(t, op));
    case TickAllOp(names, _, hourly, now, baseline, faultsOf) =>
      TickAllExact(t, names, hourly, now, baseline, faultsOf, "");
      SameMoneyGrows(t, Step(t, op));
    case SweepOp(queue, hourly, now, faultsOf) => SweepGrows(t, queue, hourly, now, faultsOf, ZERO);
    case _ => SameMoneyGrows(t, Step(t, op));
  }

  lemma {:induction false} RunGrows(t: Tables, ops: seq<Op>)
    requires Performs(t, ops)
    ensures Grows(t, Run(t, ops))
    decreases |ops|
  {
    if ops == [] {
      SameMoneyGrows(t, t);
    } else {
      StepGrows(t, ops[0]);
      RunGrows(Step(t, ops[0]), ops[1..]);
      GrowsTransitive(t, Step(t, ops[0]), Run(t, ops));
    }
  }

  /**
   In every serial run from empty tables, with whatever calls and faults, each user's balance is the sum
   of that user's ledger amounts, each row's balance_after is the sum up to that row, and no provider id
   is credited twice.
  */
  lemma LedgerAlwaysBalances(ops: seq<Op>, user: string, providerId: string)
    requires Performs(EMPTY, ops)
    ensures var t := Run(EMPTY, ops);
            && Balance(t, user) == UserSum(t.ledger, user)
            && (forall i | 0 <= i < |t.ledger| ::
                  t.ledger[i].balanceAfter == UserSum(t.ledger[..i + 1], t.ledger[i].user))
            && CreditCount(t.ledger, providerId) <= 1
  {
    RunGrows(EMPTY, ops);
    var t := Run(EMPTY, ops);
    assert LedgerInv(EMPTY) by {
      assert forall u :: Drift(EMPTY, u) == 0;
    }
    assert Drift(t, user) == 0;
    UniqueMeansAtMostOne(t.ledger, providerId);
  }

  /** Rows are never changed or removed, so a credit once given stays, and stays the only one. */
  lemma LedgerAppendOnly(ops: seq<Op>, more: seq<Op>)
    requires Performs(EMPTY, ops) && Performs(Run(EMPTY, ops), more)
    ensures Run(EMPTY, ops).ledger <= Run(Run(EMPTY, ops), more).ledger
  {
    RunGrows(Run(EMPTY, ops), more);
  }

  // ================================================================ invoices in every serial run

  /** Invoices keep everything but their status. */
  ghost predicate SameInvoices(t: Tables, t': Tables) {
    && t'.invoices.Keys == t.invoices.Keys
    && forall id | id in t.invoices :: t'.invoices[id].(status := Paid) == t.invoices[id].(status := Paid)
  }

  lemma {:induction false} ReconcileKeepsInvoices(t: Tables, ids: seq<string>, paymentType: string,
      faultsOf: map<string, Faults>)
    requires forall id | id in ids :: id in t.invoices
    ensures Reconcile(t, ids, paymentType, faultsOf).tables.invoices == t.invoices
    decreases |ids|
  {
    if ids != [] {
      var inv := t.invoices[ids[0]];
      var faults := FaultsOf(faultsOf, ids[0]);
      var (t', r) := Pay(t, inv.user, inv.amount, inv.providerId, paymentType, faults);
      PayExact(t, inv.user, inv.amount, inv.providerId, paymentType, faults);
      if r.Ok? || IsDuplicateTransactionIdError(r.error) {
        ReconcileKeepsInvoices(t', ids[1..], paymentType, faultsOf);
      }
    }
  }

  lemma {:induction false} SweepKeepsInvoices(t: Tables, queue: seq<Due>, hourly: int, now: int,
      faultsOf: map<string, Faults>, sum: Summary)
    ensures Sweep(t, queue, hourly, now, faultsOf, sum).0.invoices == t.invoices
    decreases |queue|
  {
    if queue != [] {
      var (t', r) := SettleOne(t, queue[0], hourly, now, FaultsOf(faultsOf, queue[0].user));
      SweepKeepsInvoices(t', queue[1..], hourly, now, faultsOf, if r.Ok? then Add(sum, queue[0], r.value) else sum);
    }
  }

  lemma StepKeepsInvoices(t: Tables, op: Op)
    requires Possible(t, op)
    ensures op.NewInvoice? || SameInvoices(t, Step(t, op))
    ensures UniqueProviderIds(t) ==> UniqueProviderIds(Step(t, op))
  {
    match op
    case GiftOp(user, amount, reason, admin, faults) => GiftExact(t, user, amount, reason, admin, faults);
    case PayOp(user, amount, pid, paymentType, faults) => PayExact(t, user, amount, pid, paymentType, faults);
    case SettleOp(invoice, paymentType, faults) =>
      if invoice.Some? {
        SettleExact(t, invoice.value, paymentType, faults);
      }
    case ReconcileOp(ids, paymentType, faultsOf) => ReconcileKeepsInvoices(t, ids, paymentType, faultsOf);
    case TickOp(user, rate, now, baseline, faults) => TickExact(t, user, rate, now, baseline, faults);
    case TickAllOp(names, _, hourly, now, baseline, faultsOf) =>
      TickAllExact(t, names, hourly, now, baseline, faultsOf, "");
    case SweepOp(queue, hourly, now, faultsOf) => SweepKeepsInvoices(t, queue, hourly, now, faultsOf, ZERO);
    case _ =>
  }

  lemma {:induction false} RunKeepsUniqueProviderIds(t: Tables, ops: seq<Op>)
    requires Performs(t, ops) && UniqueProviderIds(t)
    ensures UniqueProviderIds(Run(t, ops))
    decreases |ops|
  {
    if ops != [] {
      StepKeepsInvoices(t, ops[0]);
      RunKeepsUniqueProviderIds(Step(t, ops[0]), ops[1..]);
    }
  }

  /**
   After any serial run, a reconciliation that reports no error leaves no orphan, so that a second one
   repairs nothing, if and only if none of its inserts was refused.
  */
  lemma ReconcileAfterAnyRun(ops: seq<Op>, ids: seq<string>, paymentType: string, faultsOf: map<string, Faults>)
    requires Performs(EMPTY, ops) && ListsOrphans(Run(EMPTY, ops), ids)
    requires Reconcile(Run(EMPTY, ops), ids, paymentType, faultsOf).error.None?
    ensures var done := Reconcile(Run(EMPTY, ops), ids, paymentType, faultsOf);
            ListsOrphans(done.tables, []) <==> forall id | id in ids :: InsertRow !in FaultsOf(faultsOf, id)
  {
    RunKeepsUniqueProviderIds(EMPTY, ops);
    ReconcileComplete(Run(EMPTY, ops), ids, paymentType, faultsOf);
    var done := Reconcile(Run(EMPTY, ops), ids, paymentType, faultsOf);
    assert ListsOrphans(done.tables, []) <==> forall id :: !Orphan(done.tables, id);
  }

  // ================================================================ charges in every serial run

  /** What an op ticks to the user. */
  ghost function ChargedBy(t: Tables, op: Op, user: string): int {
    match op
    case TickOp(u, rate, _, baseline, faults) => if u == user then Charged(t, u, rate, baseline, faults) else 0
    case TickAllOp(names, _, hourly, _, baseline, faultsOf) =>
      if user in names then Charged(t, user, Some(hourly), baseline, FaultsOf(faultsOf, user)) else 0
    case _ => 0
  }

  ghost function TotalCharged(t: Tables, ops: seq<Op>, user: string): int
    requires Performs(t, ops)
    decreases |ops|
  {
    if ops == [] then 0 else ChargedBy(t, ops[0], user) + TotalCharged(Step(t, ops[0]), ops[1..], user)
  }

  ghost function Consumed(t: Tables, user: string): int {
    Unbilled(t, user) + Drained(t.ledger, user)
  }

  lemma PayDrainsNothing(t: Tables, user: string, amount: int, pid: string, paymentType: string, faults: Faults,
      who: string)
    ensures var t' := Pay(t, user, amount, pid, paymentType, faults).0;
            Drained(t'.ledger, who) == Drained(t.ledger, who) && t'.meters == t.meters
  {
    var (t', r) := Pay(t, user, amount, pid, paymentType, faults);
    PayExact(t, user, amount, pid, paymentType, faults);
    if r.Ok? {
      EntryKeepsDrift(t, t', r.value, who);
    }
  }

  lemma {:induction false} ReconcileDrainsNothing(t: Tables, ids: seq<string>, paymentType: string,
      faultsOf: map<string, Faults>, who: string)
    requires forall id | id in ids :: id in t.invoices
    ensures var t' := Reconcile(t, ids, paymentType, faultsOf).tables;
            Drained(t'.ledger, who) == Drained(t.ledger, who) && t'.meters == t.meters
    decreases |ids|
  {
    if ids != [] {
      var inv := t.invoices[ids[0]];
      var faults := FaultsOf(faultsOf, ids[0]);
      var (t', r) := Pay(t, inv.user, inv.amount, inv.providerId, paymentType, faults);
      PayExact(t, inv.user, inv.amount, inv.providerId, paymentType, faults);
      PayDrainsNothing(t, inv.user, inv.amount, inv.providerId, paymentType, faults, who);
      if r.Ok? || IsDuplicateTransactionIdError(r.error) {
        ReconcileDrainsNothing(t', ids[1..], paymentType, faultsOf, who);
      }
    }
  }

  lemma DueReadAs(t: Tables, queue: seq<Due>, user: string)
    requires ListsDue(t, queue)
    ensures ReadAs(queue, user, Unbilled(t, user))
  {
  }

  lemma StepConserves(t: Tables, op: Op, user: string)
    requires Possible(t, op)
    ensures Consumed(Step(t, op), user) == Consumed(t, user) + ChargedBy(t, op, user)
  {
    match op
    case GiftOp(u, amount, reason, admin, faults) =>
      GiftExact(t, u, amount, reason, admin, faults);
      var (t', r) := Gift(t, u, amount, reason, admin, faults);
      if r.Ok? {
        EntryKeepsDrift(t, t', r.value, user);
      }
    case PayOp(u, amount, pid, paymentType, faults) => PayDrainsNothing(t, u, amount, pid, paymentType, faults, user);
    case SettleOp(invoice, paymentType, faults) =>
      var (t', r) := Settle(t, invoice, paymentType, faults);
      if invoice.Some? {
        SettleExact(t, invoice.value, paymentType, faults);
        if r.Ok? && r.value.Some? {
          EntryKeepsDrift(t, t'.(invoices := t.invoices), r.value.value, user);
          SettleCreditIsPayment(t, invoice.value, paymentType, faults);
        }
      }
    case ReconcileOp(ids, paymentType, faultsOf) => ReconcileDrainsNothing(t, ids, paymentType, faultsOf, user);
    case TickOp(u, rate, now, baseline, faults) => TickExact(t, u, rate, now, baseline, faults);
    case TickAllOp(names, _, hourly, now, baseline, faultsOf) =>
      TickAllExact(t, names, hourly, now, baseline, faultsOf, user);
    case SweepOp(queue, hourly, now, faultsOf) =>
      DueReadAs(t, queue, user);
      SweepConserves(t, queue, hourly, now, faultsOf, ZERO, user);
    case _ =>
  }

  lemma SettleCreditIsPayment(t: Tables, s: Snapshot, paymentType: string, faults: Faults)
    requires var r := Settle(t, Some(s), paymentType, faults).1; r.Ok? && r.value.Some?
    ensures Settle(t, Some(s), paymentType, faults).1.value.value.detail == PaymentVia(paymentType)
  {
  }

  /**
   In every serial run from empty tables, everything ever ticked to a user is still unbilled or has been
   drained by the user's usage rows.
  */
  lemma ChargesConserved(ops: seq<Op>, user: string)
    requires Performs(EMPTY, ops)
    ensures TotalCharged(EMPTY, ops, user) == Unbilled(Run(EMPTY, ops), user) + Drained(Run(EMPTY, ops).ledger, user)
  {
    RunConserves(EMPTY, ops, user);
  }

  lemma {:induction false} RunConserves(t: Tables, ops: seq<Op>, user: string)
    requires Performs(t, ops)
    ensures Consumed(Run(t, ops), user) == Consumed(t, user) + TotalCharged(t, ops, user)
    decreases |ops|
  {
    if ops != [] {
      StepConserves(t, ops[0], user);
      RunConserves(Step(t, ops[0]), ops[1..], user);
    }
  }
}
