/** Settlements whose check and transaction interleave with other calls. */
module Interleaving {
  import opened Prelude
  import opened Ledger
  import opened Payments
  import opened Metering
  import opened Sweeping
  import opened BillingRuns

  /** A serial call, the check of a settlement, or the rest of a settlement whose check found no credit. */
  datatype Event =
    | Call(op: Op)
    | Check(s: Snapshot)
    | Finish(k: nat, paymentType: string, faults: Faults)

  /** The tables, and the settlements whose check has found no credit and that have not gone on yet. */
  datatype World = World(t: Tables, open: seq<Snapshot>)

  ghost predicate Enabled(w: World, e: Event) {
    match e
    case Call(op) => Possible(w.t, op)
    case Check(s) => s.inv.providerId != "" && !Credited(w.t.ledger, s.inv.providerId)
    case Finish(k, _, _) => k < |w.open|
  }

  ghost function Next(w: World, e: Event): World
    requires Enabled(w, e)
  {
    match e
    case Call(op) => w.(t := Step(w.t, op))
    case Check(s) => w.(open := w.open + [s])
    case Finish(k, paymentType, faults) =>
      World(SettleAfterCheck(w.t, w.open[k], false, paymentType, faults).0, w.open[..k] + w.open[k + 1..])
  }

  ghost predicate Happens(w: World, events: seq<Event>)
    decreases |events|
  {
    events == [] || (Enabled(w, events[0]) && Happens(Next(w, events[0]), events[1..]))
  }

  ghost function After(w: World, events: seq<Event>): World
    requires Happens(w, events)
    decreases |events|
  {
    if events == [] then w else After(Next(w, events[0]), events[1..])
  }

  /** The invoice amounts of the settlements that committed although a credit had appeared after their check. */
  ghost function DoublyCredited(w: World, events: seq<Event>, user: string): int
    requires Happens(w, events)
    decreases |events|
  {
    if events == [] then 0
    else
      (match events[0]
       case Finish(k, _, faults) =>
         var s := w.open[k];
         if DoubleCredit(w.t, s, faults) && s.inv.user == user then s.inv.amount else 0
       case _ => 0)
      + DoublyCredited(Next(w, events[0]), events[1..], user)
  }

  /**
   However settlements interleave with each other and with all other calls, a user's balance ends up
   ahead of the ledger by exactly the amounts of the double credits, and by nothing else.
  */
  lemma {:induction false} InterleavedDrift(w: World, events: seq<Event>, user: string)
    requires Happens(w, events)
    ensures Drift(After(w, events).t, user) == Drift(w.t, user) + DoublyCredited(w, events, user)
    decreases |events|
  {
    if events != [] {
      match events[0] {
        case Call(op) =>
          StepGrows(w.t, op);
        case Check(_) =>
        case Finish(k, paymentType, faults) =>
          LateSettleDrift(w.t, w.open[k], paymentType, faults, user);
      }
      assert Drift(Next(w, events[0]).t, user) == Drift(w.t, user) + DoublyCredited(w, events, user)
                                                   - DoublyCredited(Next(w, events[0]), events[1..], user);
      InterleavedDrift(Next(w, events[0]), events[1..], user);
    }
  }

  /**
   Double credits are reachable from every world with an open settlement of a pending invoice: a payment
   that ProcessPayment records under its provider id before its transaction runs is credited twice and
   recorded once.
  */
  lemma PaymentInTheGap(w: World, k: nat, paymentType: string)
    requires k < |w.open|
    requires var s := w.open[k];
             && s.inv.status == Pending && RowPending(w.t, s.id) && !Credited(w.t.ledger, s.inv.providerId)
             && s.inv.user != "" && s.inv.amount > 0 && s.inv.providerId != ""
    ensures var inv := w.open[k].inv;
            var paid := Next(w, Call(PayOp(inv.user, inv.amount, inv.providerId, paymentType, {})));
            var w' := Next(paid, Finish(k, paymentType, {}));
            && |w'.t.ledger| == |w.t.ledger| + 1
            && Balance(w'.t, inv.user) == Balance(w.t, inv.user) + 2 * inv.amount
            && Drift(w'.t, inv.user) == Drift(w.t, inv.user) + inv.amount
  {
    var s := w.open[k];
    PayExact(w.t, s.inv.user, s.inv.amount, s.inv.providerId, paymentType, {});
    PayGrows(w.t, s.inv.user, s.inv.amount, s.inv.providerId, paymentType, {});
    var (t1, r) := Pay(w.t, s.inv.user, s.inv.amount, s.inv.providerId, paymentType, {});
    assert t1.ledger[|w.t.ledger|] == r.value;
    LateSettleDrift(t1, s, paymentType, {}, s.inv.user);
  }

  // ================================================================ settlements of invoices the system issued

  /**
   s was read from the table at some earlier moment: nothing but the status can differ by now, and an
   invoice that had left pending has not come back.
  */
  ghost predicate WasRead(t: Tables, s: Snapshot) {
    && s.id in t.invoices
    && t.invoices[s.id].(status := s.inv.status) == s.inv
    && (s.inv.status != Pending ==> t.invoices[s.id].status != Pending)
  }

  /** No pending invoice has a credit. */
  ghost predicate PendingUncredited(t: Tables) {
    && UniqueProviderIds(t)
    && forall id | id in t.invoices && t.invoices[id].status == Pending && t.invoices[id].providerId != "" ::
         !Credited(t.ledger, t.invoices[id].providerId)
  }

  ghost predicate WellKept(w: World) {
    PendingUncredited(w.t) && forall k | 0 <= k < |w.open| :: WasRead(w.t, w.open[k])
  }

  /**
   The events of a system in which every payment comes in through a settlement or a reconciliation:
   invoices start pending under a provider id that has no credit yet, a status that is synced is expired
   or failed, and every settlement starts from an invoice read from the table.
  */
  ghost predicate ThroughInvoices(w: World, e: Event) {
    match e
    case Call(PayOp(_, _, _, _, _)) => false
    case Call(SettleOp(invoice, _, _)) => invoice.Some? ==> WasRead(w.t, invoice.value)
    case Call(NewInvoice(_, inv)) => inv.status == Pending && !Credited(w.t.ledger, inv.providerId)
    case Call(SyncInvoice(_, status)) => status == Expired || status == Failed
    case Check(s) => WasRead(w.t, s)
    case _ => true
  }

  ghost predicate AllThroughInvoices(w: World, events: seq<Event>)
    requires Happens(w, events)
    decreases |events|
  {
    events == [] || (ThroughInvoices(w, events[0]) && AllThroughInvoices(Next(w, events[0]), events[1..]))
  }

  /** Invoices only ever change status, and never back to pending; new credits are of invoices not pending any more. */
  ghost predicate Evolves(t: Tables, t': Tables) {
    && t'.invoices.Keys == t.invoices.Keys
    && (forall id | id in t.invoices ::
          && t'.invoices[id].(status := Paid) == t.invoices[id].(status := Paid)
          && (t'.invoices[id].status == Pending ==> t.invoices[id].status == Pending))
    && (forall pid | Credited(t'.ledger, pid) && !Credited(t.ledger, pid) ::
          exists id | id in t.invoices :: t.invoices[id].providerId == pid && t'.invoices[id].status != Pending)
  }

  lemma EvolvesTransitive(a: Tables, b: Tables, c: Tables)
    requires Evolves(a, b) && Evolves(b, c)
    ensures Evolves(a, c)
  {
    forall pid | Credited(c.ledger, pid) && !Credited(a.ledger, pid)
      ensures exists id | id in a.invoices :: a.invoices[id].providerId == pid && c.invoices[id].status != Pending
    {
      if Credited(b.ledger, pid) {
        var id :| id in a.invoices && a.invoices[id].providerId == pid && b.invoices[id].status != Pending;
        assert c.invoices[id].status != Pending;
      } else {
        var id :| id in b.invoices && b.invoices[id].providerId == pid && c.invoices[id].status != Pending;
        assert a.invoices[id].(status := Paid) == b.invoices[id].(status := Paid);
      }
    }
  }

  lemma EvolvesKeeps(t: Tables, t': Tables, s: Snapshot)
    requires Evolves(t, t')
    ensures PendingUncredited(t) ==> PendingUncredited(t')
    ensures WasRead(t, s) ==> WasRead(t', s)
  {
    assert forall id | id in t.invoices :: t'.invoices[id].(status := Paid) == t.invoices[id].(status := Paid);
    if PendingUncredited(t) {
      forall id | id in t'.invoices && t'.invoices[id].status == Pending && t'.invoices[id].providerId != ""
        ensures !Credited(t'.ledger, t'.invoices[id].providerId)
      {
        var pid := t'.invoices[id].providerId;
        assert t.invoices[id].providerId == pid && t.invoices[id].status == Pending;
        assert forall other | other in t.invoices && other != id :: t.invoices[other].providerId != pid;
      }
    }
  }

  /** Calls that enter no provider id and leave the invoices alone. */
  lemma EntryWithoutIdEvolves(from: Tables, to: Tables, row: Row)
    requires Entered(from, to.(meters := from.meters), row) && row.txId == None
    ensures Evolves(from, to)
  {
    forall pid | Credited(to.ledger, pid) ensures Credited(from.ledger, pid) {
      CreditedAppend(from.ledger, row, pid);
    }
  }

  lemma PayEvolves(t: Tables, id: string, paymentType: string, faults: Faults)
    requires id in t.invoices && t.invoices[id].status != Pending
    ensures var inv := t.invoices[id];
            Evolves(t, Pay(t, inv.user, inv.amount, inv.providerId, paymentType, faults).0)
  {
    var inv := t.invoices[id];
    var (t', r) := Pay(t, inv.user, inv.amount, inv.providerId, paymentType, faults);
    PayExact(t, inv.user, inv.amount, inv.providerId, paymentType, faults);
    if r.Ok? {
      forall pid | Credited(t'.ledger, pid) && !Credited(t.ledger, pid) ensures pid == inv.providerId {
        CreditedAppend(t.ledger, r.value, pid);
      }
    }
  }

  lemma PendingSettleEvolves(t: Tables, s: Snapshot, paymentType: string, faults: Faults)
    requires WasRead(t, s)
    ensures Evolves(t, SettlePending(t, s, paymentType, faults).0)
  {
    var pid := s.inv.providerId;
    var (t1, r) := PayInTx(t, s.inv.user, s.inv.amount, pid, paymentType, faults);
    PostExact(t, s.inv.user, s.inv.amount, Some(pid), PaymentVia(paymentType), faults);
    forall p ensures Credited(t1.ledger, p) ==> Credited(t.ledger, p) || p == pid {
      if r.Ok? {
        CreditedAppend(t.ledger, r.value, p);
      }
    }
    assert t1.invoices == t.invoices;
    var t' := SettlePending(t, s, paymentType, faults).0;
    assert t' == t || t' == SetStatus(t1, s.id, Paid);
  }

  /** Both halves of a settlement evolve the tables, if it started from an invoice that was read. */
  lemma LateSettleEvolves(t: Tables, s: Snapshot, hasCredit: bool, paymentType: string, faults: Faults)
    requires WasRead(t, s)
    ensures Evolves(t, SettleAfterCheck(t, s, hasCredit, paymentType, faults).0)
  {
    if !hasCredit {
      if s.inv.status == Paid {
        PayEvolves(t, s.id, paymentType, faults);
      } else if s.inv.status == Pending {
        PendingSettleEvolves(t, s, paymentType, faults);
      }
    }
  }

  lemma {:induction false} ReconcileEvolves(t: Tables, ids: seq<string>, paymentType: string, faultsOf: map<string,
      Faults>)
    requires forall id | id in ids :: id in t.invoices && t.invoices[id].status != Pending
    ensures Evolves(t, Reconcile(t, ids, paymentType, faultsOf).tables)
    decreases |ids|
  {
    if ids != [] {
      var inv := t.invoices[ids[0]];
      var faults := FaultsOf(faultsOf, ids[0]);
      var (t', r) := Pay(t, inv.user, inv.amount, inv.providerId, paymentType, faults);
      PayExact(t, inv.user, inv.amount, inv.providerId, paymentType, faults);
      PayEvolves(t, ids[0], paymentType, faults);
      if r.Ok? || IsDuplicateTransactionIdError(r.error) {
        ReconcileEvolves(t', ids[1..], paymentType, faultsOf);
        EvolvesTransitive(t, t', Reconcile(t', ids[1..], paymentType, faultsOf).tables);
      }
    }
  }

  lemma SettleOneEvolves(t: Tables, due: Due, hourly: int, now: int, faults: Faults)
    ensures Evolves(t, SettleOne(t, due, hourly, now, faults).0)
  {
    SettleOneExact(t, due, hourly, now, faults);
    var (t', r) := SettleOne(t, due, hourly, now, faults);
    if r.Ok? {
      var p := SettlementPeriod(due.lastBilled, now);
      EntryWithoutIdEvolves(t, t', Row(None, due.user, -due.drained, Balance(t, due.user) - due.drained,
                                       UsageOf(due.drained, hourly, p.start, p.end, p.ticks)));
    }
  }

  lemma {:induction false} SweepEvolves(t: Tables, queue: seq<Due>, hourly: int, now: int, faultsOf: map<string,
      Faults>, sum: Summary)
    ensures Evolves(t, Sweep(t, queue, hourly, now, faultsOf, sum).0)
    decreases |queue|
  {
    if queue != [] {
      var faults := FaultsOf(faultsOf, queue[0].user);
      var (t', r) := SettleOne(t, queue[0], hourly, now, faults);
      SettleOneEvolves(t, queue[0], hourly, now, faults);
      var sum' := if r.Ok? then Add(sum, queue[0], r.value) else sum;
      SweepEvolves(t', queue[1..], hourly, now, faultsOf, sum');
      EvolvesTransitive(t, t', Sweep(t', queue[1..], hourly, now, faultsOf, sum').0);
    }
  }

  lemma CallEvolves(w: World, op: Op)
    requires Enabled(w, Call(op)) && ThroughInvoices(w, Call(op)) && !op.NewInvoice?
    ensures Evolves(w.t, Step(w.t, op))
  {
    var t := w.t;
    match op
    case GiftOp(user, amount, reason, admin, faults) =>
      GiftExact(t, user, amount, reason, admin, faults);
      var (t', r) := Gift(t, user, amount, reason, admin, faults);
      if r.Ok? {
        EntryWithoutIdEvolves(t, t', r.value);
      }
    case SettleOp(invoice, paymentType, faults) =>
      if invoice.Some? {
        LateSettleEvolves(t, invoice.value, Credited(t.ledger, invoice.value.inv.providerId), paymentType, faults);
      }
    case ReconcileOp(ids, paymentType, faultsOf) =>
      forall id | id in ids ensures id in t.invoices && t.invoices[id].status != Pending {
        assert Orphan(t, id);
      }
      ReconcileEvolves(t, ids, paymentType, faultsOf);
    case TickOp(user, rate, now, baseline, faults) => TickExact(t, user, rate, now, baseline, faults);
    case TickAllOp(names, _, hourly, now, baseline, faultsOf) =>
      TickAllExact(t, names, hourly, now, baseline, faultsOf, "");
    case SweepOp(queue, hourly, now, faultsOf) => SweepEvolves(t, queue, hourly, now, faultsOf, ZERO);
    case _ =>
  }

  lemma NextKeeps(w: World, e: Event)
    requires WellKept(w) && Enabled(w, e) && ThroughInvoices(w, e)
    ensures WellKept(Next(w, e))
  {
    var w' := Next(w, e);
    match e
    case Check(_) =>
    case Call(op) =>
      if op.NewInvoice? {
        assert forall k | 0 <= k < |w.open| :: WasRead(w'.t, w.open[k]);
      } else {
        CallEvolves(w, op);
        forall k | 0 <= k < |w'.open| ensures WasRead(w'.t, w'.open[k]) {
          EvolvesKeeps(w.t, w'.t, w.open[k]);
        }
        EvolvesKeeps(w.t, w'.t, Snapshot("", Invoice("", 0, Paid, "")));
      }
    case Finish(k, paymentType, faults) =>
      LateSettleEvolves(w.t, w.open[k], false, paymentType, faults);
      EvolvesKeeps(w.t, w'.t, w.open[k]);
      forall j | 0 <= j < |w'.open| ensures WasRead(w'.t, w'.open[j]) {
        EvolvesKeeps(w.t, w'.t, if j < k then w.open[j] else w.open[j + 1]);
      }
  }

  /**
   When every payment comes in through invoices, no interleaving of webhooks, syncs, reconciliations,
   gifts, ticks and sweeps credits anybody twice: the double-credit branch is never taken, and every
   balance stays the sum of the user's ledger amounts.
  */
  lemma {:induction false} InvoicesNeverDoubleCredit(w: World, events: seq<Event>, user: string)
    requires WellKept(w) && Happens(w, events) && AllThroughInvoices(w, events)
    ensures DoublyCredited(w, events, user) == 0
    ensures Drift(After(w, events).t, user) == Drift(w.t, user)
    decreases |events|
  {
    InterleavedDrift(w, events, user);
    if events != [] {
      NextKeeps(w, events[0]);
      InvoicesNeverDoubleCredit(Next(w, events[0]), events[1..], user);
    }
  }

  /** From empty tables, then, balances and ledger agree after every such interleaving. */
  lemma InvoicesKeepLedger(events: seq<Event>, user: string)
    requires Happens(World(EMPTY, []), events) && AllThroughInvoices(World(EMPTY, []), events)
    ensures var t := After(World(EMPTY, []), events).t; Balance(t, user) == UserSum(t.ledger, user)
  {
    InvoicesNeverDoubleCredit(World(EMPTY, []), events, user);
  }
}
