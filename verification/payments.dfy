/** billing/payments.go, billing/gift.go and billing/reconcile.go. */
module Payments {
  import opened Prelude
  import opened Ledger
  import opened Database

  // ================================================================ specification

  /** The argument checks of a payment, in order. */
  function PaymentArgumentError(user: string, amount: int, providerId: string): Option<Error> {
    if user == "" then Some(EmptyUser)
    else if amount <= 0 then Some(NonPositiveAmount)
    else if providerId == "" then Some(MissingProviderId)
    else None
  }

  /** The body of a payment inside a transaction that somebody else commits or rolls back. */
  function PayInTx(t: Tables, user: string, amount: int, providerId: string, paymentType: string, faults: Faults)
    : (Tables, Result<Row, Error>)
  {
    var bad := PaymentArgumentError(user, amount, providerId);
    if bad.Some? then (t, Err(bad.value))
    else Post(t, user, amount, Some(providerId), PaymentVia(paymentType), faults)
  }

  /** A transaction around a body: only an accepted body that commits is kept. */
  function Committed(t: Tables, body: (Tables, Result<Row, Error>), faults: Faults): (Tables, Result<Row, Error>) {
    if BeginTx in faults then (t, Err(Refused(BeginTx)))
    else if body.1.Err? then (t, body.1)
    else if CommitTx in faults then (t, Err(Refused(CommitTx)))
    else body
  }

  function Pay(t: Tables, user: string, amount: int, providerId: string, paymentType: string, faults: Faults)
    : (Tables, Result<Row, Error>)
  {
    Committed(t, PayInTx(t, user, amount, providerId, paymentType, faults), faults)
  }

  function Gift(t: Tables, user: string, amount: int, reason: string, admin: string, faults: Faults)
    : (Tables, Result<Row, Error>)
  {
    if user == "" then (t, Err(EmptyUser))
    else if amount <= 0 then (t, Err(NonPositiveAmount))
    else if reason == "" then (t, Err(EmptyReason))
    else if admin == "" then (t, Err(EmptyAdmin))
    else Committed(t, Post(t, user, amount, None, GiftBy(admin, reason), faults), faults)
  }

  /** Every insert failure of a payment carries the text that this test looks for, duplicate or not. */
  predicate IsDuplicateTransactionIdError(e: Error) {
    e == Refused(InsertRow)
  }

  /** UPDATE payment_invoices SET status = s WHERE invoice_id = id. */
  function SetStatus(t: Tables, id: string, s: Status): Tables {
    if id in t.invoices then t.(invoices := t.invoices[id := t.invoices[id].(status := s)]) else t
  }

  predicate RowPending(t: Tables, id: string) {
    id in t.invoices && t.invoices[id].status == Pending
  }

  /** An invoice as a caller read it earlier; the stored row may have changed since. */
  datatype Snapshot = Snapshot(id: string, inv: Invoice)

  /** What a settlement does once the question "is there a credit already?" has been answered. */
  function SettleAfterCheck(t: Tables, s: Snapshot, hasCredit: bool, paymentType: string, faults: Faults)
    : (Tables, Result<Option<Row>, Error>)
  {
    if hasCredit then
      if s.inv.status == Paid then (t, Ok(None))
      else if UpdateInvoice in faults then (t, Err(Refused(UpdateInvoice)))
      else (SetStatus(t, s.id, Paid), Ok(None))
    else if s.inv.status == Paid then
      var (t', r) := Pay(t, s.inv.user, s.inv.amount, s.inv.providerId, paymentType, faults);
      (t', if r.Ok? then Ok(Some(r.value)) else Err(r.error))
    else if s.inv.status != Pending then (t, Err(NotSettleable(s.inv.status)))
    else SettlePending(t, s, paymentType, faults)
  }

  /** The transaction that credits and marks a pending invoice; a duplicate credit is tolerated. */
  function SettlePending(t: Tables, s: Snapshot, paymentType: string, faults: Faults)
    : (Tables, Result<Option<Row>, Error>)
  {
    if BeginTx in faults then (t, Err(Refused(BeginTx)))
    else
      var (t1, r) := PayInTx(t, s.inv.user, s.inv.amount, s.inv.providerId, paymentType, faults);
      if r.Err? && !IsDuplicateTransactionIdError(r.error) then (t, Err(r.error))
      else if r.Err? && RecheckCredit in faults then (t, Err(Refused(RecheckCredit)))
      else if r.Err? && !Credited(t1.ledger, s.inv.providerId) then (t, Err(r.error))
      else if UpdateInvoice in faults then (t, Err(Refused(UpdateInvoice)))
      else if !RowPending(t1, s.id) then (t, Err(NoLongerPending))
      else if CommitTx in faults then (t, Err(Refused(CommitTx)))
      else (SetStatus(t1, s.id, Paid), Ok(if r.Ok? then Some(r.value) else None))
  }

  function Settle(t: Tables, invoice: Option<Snapshot>, paymentType: string, faults: Faults)
    : (Tables, Result<Option<Row>, Error>)
  {
    if invoice.None? then (t, Err(NilInvoice))
    else if invoice.value.inv.providerId == "" then (t, Err(MissingProviderId))
    else if CheckCredit in faults then (t, Err(Refused(CheckCredit)))
    else
      SettleAfterCheck(t, invoice.value, Credited(t.ledger, invoice.value.inv.providerId), paymentType, faults)
  }

  /** A paid invoice with a provider id and no credit row. */
  predicate Orphan(t: Tables, id: string) {
    && id in t.invoices
    && t.invoices[id].status == Paid
    && t.invoices[id].providerId != ""
    && !Credited(t.ledger, t.invoices[id].providerId)
  }

  /** ids is a possible answer of the query for orphan invoices: each of them once, in some order. */
  ghost predicate ListsOrphans(t: Tables, ids: seq<string>) {
    && (forall id :: id in ids <==> Orphan(t, id))
    && (forall i, j | 0 <= i < j < |ids| :: ids[i] != ids[j])
  }

  /** The faults that each row of a loop meets; a name not listed meets none. */
  function FaultsOf(faultsOf: map<string, Faults>, name: string): Faults {
    if name in faultsOf then faultsOf[name] else {}
  }

  datatype Reconciled = Reconciled(tables: Tables, repaired: nat, error: Option<Error>)

  function Reconcile(t: Tables, ids: seq<string>, paymentType: string, faultsOf: map<string, Faults>): Reconciled
    requires forall id | id in ids :: id in t.invoices
    decreases |ids|
  {
    if ids == [] then Reconciled(t, 0, None)
    else
      var inv := t.invoices[ids[0]];
      var (t', r) := Pay(t, inv.user, inv.amount, inv.providerId, paymentType, FaultsOf(faultsOf, ids[0]));
      if r.Err? && !IsDuplicateTransactionIdError(r.error) then Reconciled(t', 0, Some(r.error))
      else
        var rest := Reconcile(t', ids[1..], paymentType, faultsOf);
        if r.Ok? then rest.(repaired := rest.repaired + 1) else rest
  }

  // ================================================================ the calls themselves

  method ProcessPaymentInTx(db: Db, user: string, amount: int, providerId: string, paymentType: string, faults: Faults)
    returns (r: Result<Row, Error>)
    modifies db
    ensures (db.View(), r) == PayInTx(old(db.View()), user, amount, providerId, paymentType, faults)
  {
    if user == "" { return Err(EmptyUser); }
    if amount <= 0 { return Err(NonPositiveAmount); }
    if providerId == "" { return Err(MissingProviderId); }
    r := PostEntry(db, user, amount, Some(providerId), PaymentVia(paymentType), faults);
  }

  /** The statements that payments, gifts and settlements issue alike. */
  method PostEntry(db: Db, user: string, amount: int, txId: Option<string>, detail: Detail, faults: Faults)
    returns (r: Result<Row, Error>)
    modifies db
    ensures (db.View(), r) == Post(old(db.View()), user, amount, txId, detail, faults)
  {
    if ReadBalance in faults { return Err(Refused(ReadBalance)); }
    var currentBalance := 0;
    if user in db.accounts {
      currentBalance := db.accounts[user];
    } else {
      if CreateAccount in faults { return Err(Refused(CreateAccount)); }
      db.accounts := db.accounts[user := 0];
    }
    assert db.accounts == old(db.accounts)[user := currentBalance];
    var newBalance := currentBalance + amount;
    if UpdateBalance in faults { return Err(Refused(UpdateBalance)); }
    db.accounts := db.accounts[user := newBalance];
    assert db.accounts == old(db.accounts)[user := newBalance];
    if InsertRow in faults || (txId.Some? && Credited(db.ledger, txId.value)) {
      return Err(Refused(InsertRow));
    }
    var row := Row(txId, user, amount, newBalance, detail);
    db.ledger := db.ledger + [row];
    return Ok(row);
  }

  method ProcessPayment(db: Db, user: string, amount: int, providerId: string, paymentType: string, faults: Faults)
    returns (r: Result<Row, Error>)
    modifies db
    ensures (db.View(), r) == Pay(old(db.View()), user, amount, providerId, paymentType, faults)
  {
    if BeginTx in faults { return Err(Refused(BeginTx)); }
    var begun := db.View();
    r := ProcessPaymentInTx(db, user, amount, providerId, paymentType, faults);
    if r.Err? {
      db.Rollback(begun);
      return;
    }
    if CommitTx in faults {
      db.Rollback(begun);
      return Err(Refused(CommitTx));
    }
  }

  method GiftCredits(db: Db, user: string, amount: int, reason: string, admin: string, faults: Faults)
    returns (r: Result<Row, Error>)
    modifies db
    ensures (db.View(), r) == Gift(old(db.View()), user, amount, reason, admin, faults)
  {
    if user == "" { return Err(EmptyUser); }
    if amount <= 0 { return Err(NonPositiveAmount); }
    if reason == "" { return Err(EmptyReason); }
    if admin == "" { return Err(EmptyAdmin); }
    if BeginTx in faults { return Err(Refused(BeginTx)); }
    var begun := db.View();
    r := PostEntry(db, user, amount, None, GiftBy(admin, reason), faults);
    if r.Err? {
      db.Rollback(begun);
      return;
    }
    if CommitTx in faults {
      db.Rollback(begun);
      return Err(Refused(CommitTx));
    }
  }

  method UpdateInvoiceStatus(db: Db, id: string, s: Status)
    modifies db
    ensures db.View() == SetStatus(old(db.View()), id, s)
  {
    if id in db.invoices {
      db.invoices := db.invoices[id := db.invoices[id].(status := s)];
    }
  }

  method SettlePaymentInvoice(db: Db, invoice: Option<Snapshot>, paymentType: string, faults: Faults)
    returns (r: Result<Option<Row>, Error>)
    modifies db
    ensures (db.View(), r) == Settle(old(db.View()), invoice, paymentType, faults)
  {
    if invoice.None? { return Err(NilInvoice); }
    var s := invoice.value;
    if s.inv.providerId == "" { return Err(MissingProviderId); }
    if CheckCredit in faults { return Err(Refused(CheckCredit)); }
    var hasCredit := Credited(db.ledger, s.inv.providerId);
    if hasCredit {
      if s.inv.status != Paid {
        if UpdateInvoice in faults { return Err(Refused(UpdateInvoice)); }
        UpdateInvoiceStatus(db, s.id, Paid);
      }
      return Ok(None);
    }
    if s.inv.status == Paid {
      var paid := ProcessPayment(db, s.inv.user, s.inv.amount, s.inv.providerId, paymentType, faults);
      return if paid.Ok? then Ok(Some(paid.value)) else Err(paid.error);
    }
    if s.inv.status != Pending { return Err(NotSettleable(s.inv.status)); }
    r := SettlePendingInvoice(db, s, paymentType, faults);
  }

  /** The transaction that SettlePaymentInvoice runs on a pending invoice. */
  method SettlePendingInvoice(db: Db, s: Snapshot, paymentType: string, faults: Faults)
    returns (r: Result<Option<Row>, Error>)
    modifies db
    ensures (db.View(), r) == SettlePending(old(db.View()), s, paymentType, faults)
  {
    if BeginTx in faults { return Err(Refused(BeginTx)); }
    var begun := db.View();
    var credit := ProcessPaymentInTx(db, s.inv.user, s.inv.amount, s.inv.providerId, paymentType, faults);
    if credit.Err? {
      if !IsDuplicateTransactionIdError(credit.error) {
        db.Rollback(begun);
        return Err(credit.error);
      }
      if RecheckCredit in faults {
        db.Rollback(begun);
        return Err(Refused(RecheckCredit));
      }
      if !Credited(db.ledger, s.inv.providerId) {
        db.Rollback(begun);
        return Err(credit.error);
      }
    }
    if UpdateInvoice in faults {
      db.Rollback(begun);
      return Err(Refused(UpdateInvoice));
    }
    if !RowPending(db.View(), s.id) {
      db.Rollback(begun);
      return Err(NoLongerPending);
    }
    UpdateInvoiceStatus(db, s.id, Paid);
    if CommitTx in faults {
      db.Rollback(begun);
      return Err(Refused(CommitTx));
    }
    return Ok(if credit.Ok? then Some(credit.value) else None);
  }

  /** listFails says whether the query for orphans, or the reading of its answer, fails. */
  method ReconcilePaidInvoices(db: Db, ids: seq<string>, paymentType: string, faultsOf: map<string, Faults>,
      listFails: bool)
    returns (repaired: nat, error: Option<Error>)
    requires ListsOrphans(db.View(), ids)
    modifies db
    ensures listFails ==> db.View() == old(db.View()) && repaired == 0 && error == Some(Refused(ListRows))
    ensures !listFails ==>
              Reconciled(db.View(), repaired, error) == Reconcile(old(db.View()), ids, paymentType, faultsOf)
  {
    if listFails { return 0, Some(Refused(ListRows)); }
    var invoices := db.invoices;
    ghost var whole := Reconcile(db.View(), ids, paymentType, faultsOf);
    repaired := 0;
    for k := 0 to |ids|
      invariant db.invoices == invoices
      invariant forall id | id in ids :: id in invoices
      invariant var rest := Reconcile(db.View(), ids[k..], paymentType, faultsOf);
                whole == rest.(repaired := repaired + rest.repaired)
    {
      var inv := invoices[ids[k]];
      ghost var before := db.View();
      assert ids[k..][0] == ids[k] && ids[k..][1..] == ids[k + 1..];
      var r := ProcessPayment(db, inv.user, inv.amount, inv.providerId, paymentType, FaultsOf(faultsOf, ids[k]));
      PayExact(before, inv.user, inv.amount, inv.providerId, paymentType, FaultsOf(faultsOf, ids[k]));
      if r.Err? {
        if IsDuplicateTransactionIdError(r.error) { continue; }
        return repaired, Some(r.error);
      }
      repaired := repaired + 1;
    }
    return repaired, None;
  }

  // ================================================================ what each call does

  /** A payment is all or nothing: it succeeds exactly when nothing objects, and then enters one row. */
  lemma PayExact(t: Tables, user: string, amount: int, providerId: string, paymentType: string, faults: Faults)
    ensures var (t', r) := Pay(t, user, amount, providerId, paymentType, faults);
            && (r.Ok? <==> user != "" && amount > 0 && providerId != ""
                           && BeginTx !in faults && CommitTx !in faults
                           && Accepts(t, user, Some(providerId), faults))
            && (r.Ok? ==> r.value.txId == Some(providerId) && r.value.user == user && r.value.amount == amount
                          && r.value.detail == PaymentVia(paymentType) && Entered(t, t', r.value))
            && (r.Err? ==> t' == t)
            && t'.invoices == t.invoices
  {
  }

  lemma GiftExact(t: Tables, user: string, amount: int, reason: string, admin: string, faults: Faults)
    ensures var (t', r) := Gift(t, user, amount, reason, admin, faults);
            && (r.Ok? <==> user != "" && amount > 0 && reason != "" && admin != ""
                           && BeginTx !in faults && CommitTx !in faults && Accepts(t, user, None, faults))
            && (r.Ok? ==> r.value.txId == None && r.value.user == user && r.value.amount == amount
                          && r.value.detail == GiftBy(admin, reason) && Entered(t, t', r.value))
            && (r.Err? ==> t' == t)
  {
  }

  /** A call with a bad argument says which, before it touches any table. */
  lemma PaymentRefusals(t: Tables, user: string, amount: int, providerId: string, paymentType: string, faults: Faults)
    requires BeginTx !in faults
    ensures var (t', r) := Pay(t, user, amount, providerId, paymentType, faults);
            && (user == "" ==> r == Err(EmptyUser))
            && (user != "" && amount <= 0 ==> r == Err(NonPositiveAmount))
            && (user != "" && amount > 0 && providerId == "" ==> r == Err(MissingProviderId))
            && (user != "" && amount > 0 && providerId != "" && Credited(t.ledger, providerId)
                && (user in t.accounts || CreateAccount !in faults) && faults !! {ReadBalance, UpdateBalance}
                ==> r == Err(Refused(InsertRow)))
  {
  }

  /** The status of one invoice is written, and nothing else. */
  lemma SetStatusExact(t: Tables, id: string, s: Status)
    ensures var t' := SetStatus(t, id, s);
            && t' == t.(invoices := t'.invoices) && t'.invoices.Keys == t.invoices.Keys
            && (id in t.invoices ==> t'.invoices[id].status == s
                                     && t'.invoices[id].(status := t.invoices[id].status) == t.invoices[id])
            && forall other | other in t.invoices && other != id :: t'.invoices[other] == t.invoices[other]
  {
  }

  /** What a settlement without a credit says of an invoice that is not pending, or is pending no longer. */
  lemma SettleRefusals(t: Tables, s: Snapshot, paymentType: string, faults: Faults)
    requires s.inv.providerId != "" && CheckCredit !in faults && !Credited(t.ledger, s.inv.providerId)
    ensures Settle(t, None, paymentType, faults) == (t, Err(NilInvoice))
    ensures s.inv.status == Expired || s.inv.status == Failed ==>
              Settle(t, Some(s), paymentType, faults) == (t, Err(NotSettleable(s.inv.status)))
    ensures s.inv.status == Pending && !RowPending(t, s.id) && s.inv.user != "" && s.inv.amount > 0 && faults == {} ==>
              Settle(t, Some(s), paymentType, faults) == (t, Err(NoLongerPending))
  {
  }

  /** What a settlement needs, from the state it finds, in order to succeed. */
  ghost predicate CanSettle(t: Tables, s: Snapshot, faults: Faults) {
    && s.inv.providerId != "" && CheckCredit !in faults
    && if Credited(t.ledger, s.inv.providerId) then
         s.inv.status == Paid || UpdateInvoice !in faults
       else
         && s.inv.user != "" && s.inv.amount > 0
         && BeginTx !in faults && CommitTx !in faults
         && Accepts(t, s.inv.user, Some(s.inv.providerId), faults)
         && (s.inv.status == Paid
             || (s.inv.status == Pending && RowPending(t, s.id) && UpdateInvoice !in faults))
  }

  /**
   A settlement that runs alone: it succeeds exactly when it can, a failure changes nothing, a success
   leaves a credit under the provider id (one new row, or the one already there, and then no money
   moves), and if the caller's copy of the invoice was current the stored invoice ends up paid.
  */
  lemma SettleExact(t: Tables, s: Snapshot, paymentType: string, faults: Faults)
    ensures var (t', r) := Settle(t, Some(s), paymentType, faults);
            && (r.Ok? <==> CanSettle(t, s, faults))
            && (r.Err? ==> t' == t)
            && (r.Ok? ==>
                  && Credited(t'.ledger, s.inv.providerId)
                  && (r.value.Some? <==> !Credited(t.ledger, s.inv.providerId))
                  && (r.value.None? ==> t'.accounts == t.accounts && t'.ledger == t.ledger)
                  && (r.value.Some? ==>
                        && r.value.value.txId == Some(s.inv.providerId)
                        && r.value.value.user == s.inv.user && r.value.value.amount == s.inv.amount
                        && Entered(t, t'.(invoices := t.invoices), r.value.value))
                  && (s.id in t.invoices && t.invoices[s.id] == s.inv ==> t'.invoices[s.id].status == Paid))
            && t'.meters == t.meters && t'.users == t.users
            && t'.invoices.Keys == t.invoices.Keys
            && (forall id | id in t.invoices ::
                  && t'.invoices[id].(status := Paid) == t.invoices[id].(status := Paid)
                  && (t'.invoices[id] == t.invoices[id] || (id == s.id && t'.invoices[id].status == Paid)))
  {
    var pid := s.inv.providerId;
    var (t', r) := Settle(t, Some(s), paymentType, faults);
    if pid != "" && !Credited(t.ledger, pid) {
      var body := PayInTx(t, s.inv.user, s.inv.amount, pid, paymentType, faults);
      PostExact(t, s.inv.user, s.inv.amount, Some(pid), PaymentVia(paymentType), faults);
      if body.1.Ok? {
        assert body.0.ledger[|t.ledger|].txId == Some(pid);
      }
    }
  }

  /** Replaying a successful settlement, whatever happened to the invoice since, moves no money. */
  lemma SettleReplay(t: Tables, s: Snapshot, again: Snapshot, paymentType: string, faults: Faults, faults2: Faults)
    requires again.inv.providerId == s.inv.providerId
    requires Settle(t, Some(s), paymentType, faults).1.Ok?
    ensures var t1 := Settle(t, Some(s), paymentType, faults).0;
            var t2 := Settle(t1, Some(again), paymentType, faults2).0;
            t2.accounts == t1.accounts && t2.ledger == t1.ledger
  {
    SettleExact(t, s, paymentType, faults);
    var t1 := Settle(t, Some(s), paymentType, faults).0;
    SettleExact(t1, again, paymentType, faults2);
  }

  // ================================================================ the check and the transaction apart

  /**
   The transaction reaches its commit with the balance written and no row inserted: the check said
   "no credit", and by now there is one.
  */
  ghost predicate DoubleCredit(t: Tables, s: Snapshot, faults: Faults) {
    && s.inv.status == Pending && RowPending(t, s.id)
    && s.inv.user != "" && s.inv.amount > 0 && s.inv.providerId != ""
    && Credited(t.ledger, s.inv.providerId)
    && faults !! {BeginTx, ReadBalance, UpdateBalance, RecheckCredit, UpdateInvoice, CommitTx}
    && (s.inv.user in t.accounts || CreateAccount !in faults)
  }

  /**
   The rest of a settlement whose check found no credit, run from any later state: it keeps every
   user's drift, except that a double credit puts the payer's balance ahead of the ledger by exactly
   the invoice amount.
  */
  lemma LateSettleDrift(t: Tables, s: Snapshot, paymentType: string, faults: Faults, user: string)
    ensures var t' := SettleAfterCheck(t, s, false, paymentType, faults).0;
            Drift(t', user) == Drift(t, user)
                               + (if DoubleCredit(t, s, faults) && user == s.inv.user then s.inv.amount else 0)
  {
    var (t', r) := SettleAfterCheck(t, s, false, paymentType, faults);
    var pid := s.inv.providerId;
    PayExact(t, s.inv.user, s.inv.amount, pid, paymentType, faults);
    PostExact(t, s.inv.user, s.inv.amount, Some(pid), PaymentVia(paymentType), faults);
    if r.Ok? && r.value.Some? {
      EntryKeepsDrift(t, t'.(invoices := t.invoices), r.value.value, user);
    }
  }

  /** So the late settlement keeps the payer's drift if and only if it is not a double credit. */
  lemma LateSettleKeepsDriftIff(t: Tables, s: Snapshot, paymentType: string, faults: Faults)
    ensures Drift(SettleAfterCheck(t, s, false, paymentType, faults).0, s.inv.user) == Drift(t, s.inv.user)
       <==> !DoubleCredit(t, s, faults)
  {
    LateSettleDrift(t, s, paymentType, faults, s.inv.user);
  }

  // ================================================================ reconciliation

  /** No two invoices carry the same provider id, as the UNIQUE column demands. */
  ghost predicate UniqueProviderIds(t: Tables) {
    forall a, b | a in t.invoices && b in t.invoices && a != b ::
      t.invoices[a].providerId != "" ==> t.invoices[a].providerId != t.invoices[b].providerId
  }

  /** How many of the listed invoices meet a refused insert. */
  function Skipped(ids: seq<string>, faultsOf: map<string, Faults>): nat {
    if ids == [] then 0 else (if InsertRow in FaultsOf(faultsOf, ids[0]) then 1 else 0) + Skipped(ids[1..], faultsOf)
  }

  lemma CreditedAppend(ledger: seq<Row>, row: Row, txId: string)
    ensures Credited(ledger + [row], txId) <==> Credited(ledger, txId) || row.txId == Some(txId)
  {
    SumsAppend(ledger, row, row.user, txId);
    CreditCountPositive(ledger, txId);
    CreditCountPositive(ledger + [row], txId);
  }

  /** Distinct orphans, as the rest of a reconciliation finds them. */
  ghost predicate OrphanList(t: Tables, ids: seq<string>) {
    && (forall k | 0 <= k < |ids| :: Orphan(t, ids[k]))
    && (forall i, j | 0 <= i < j < |ids| :: ids[i] != ids[j])
  }

  /** Some listed invoice carries this provider id and meets no refused insert. */
  ghost predicate Repairs(t: Tables, ids: seq<string>, faultsOf: map<string, Faults>, pid: string)
    requires forall k | 0 <= k < |ids| :: ids[k] in t.invoices
  {
    exists k | 0 <= k < |ids| :: t.invoices[ids[k]].providerId == pid && InsertRow !in FaultsOf(faultsOf, ids[k])
  }

  /** One round of the loop credits the first orphan unless its insert is refused, and leaves the others orphans. */
  lemma ReconcileRound(t: Tables, ids: seq<string>, paymentType: string, faults: Faults)
    requires ids != [] && OrphanList(t, ids) && UniqueProviderIds(t)
    ensures var inv := t.invoices[ids[0]];
            var (t', r) := Pay(t, inv.user, inv.amount, inv.providerId, paymentType, faults);
            && t'.invoices == t.invoices
            && (forall k | 1 <= k < |ids| :: t.invoices[ids[k]].providerId != inv.providerId)
            && OrphanList(t', ids[1..])
            && (forall pid :: Credited(t'.ledger, pid) <==> Credited(t.ledger, pid) || (r.Ok? && pid == inv.providerId))
            && (r.Ok? || IsDuplicateTransactionIdError(r.error) ==> (r.Ok? <==> InsertRow !in faults))
  {
    var inv := t.invoices[ids[0]];
    var (t', r) := Pay(t, inv.user, inv.amount, inv.providerId, paymentType, faults);
    PayExact(t, inv.user, inv.amount, inv.providerId, paymentType, faults);
    forall pid ensures Credited(t'.ledger, pid) <==> Credited(t.ledger, pid) || (r.Ok? && pid == inv.providerId) {
      if r.Ok? {
        CreditedAppend(t.ledger, r.value, pid);
      }
    }
    forall k | 1 <= k < |ids| ensures t.invoices[ids[k]].providerId != inv.providerId {
      assert Orphan(t, ids[k]) && ids[0] != ids[k];
    }
  }

  /**
   A reconciliation without error repairs exactly the listed invoices whose insert was not refused:
   those end up credited, the others stay orphans, because the loop takes every refused insert for a
   duplicate and goes on. No other provider id gains a credit.
  */
  lemma {:induction false} ReconcileRepairs(t: Tables, ids: seq<string>, paymentType: string, faultsOf: map<string,
      Faults>)
    requires OrphanList(t, ids) && UniqueProviderIds(t)
    requires forall id | id in ids :: id in t.invoices
    ensures var done := Reconcile(t, ids, paymentType, faultsOf);
            && done.tables.invoices == t.invoices
            && (done.error.None? ==>
                  && done.repaired == |ids| - Skipped(ids, faultsOf)
                  && (forall pid ::
                        Credited(done.tables.ledger, pid)
                        <==> Credited(t.ledger, pid) || Repairs(t, ids, faultsOf, pid)))
    decreases |ids|
  {
    if ids == [] {
      return;
    }
    var inv := t.invoices[ids[0]];
    var rest := ids[1..];
    var faults := FaultsOf(faultsOf, ids[0]);
    var (t', r) := Pay(t, inv.user, inv.amount, inv.providerId, paymentType, faults);
    ReconcileRound(t, ids, paymentType, faults);
    if r.Err? && !IsDuplicateTransactionIdError(r.error) {
      return;
    }
    ReconcileRepairs(t', rest, paymentType, faultsOf);
    var done := Reconcile(t, ids, paymentType, faultsOf);
    if done.error.None? {
      forall pid
        ensures Credited(done.tables.ledger, pid) <==> Credited(t.ledger, pid) || Repairs(t, ids, faultsOf, pid)
      {
        RepairsSplit(t, ids, faultsOf, pid);
      }
    }
  }

  lemma RepairsSplit(t: Tables, ids: seq<string>, faultsOf: map<string, Faults>, pid: string)
    requires ids != [] && forall k | 0 <= k < |ids| :: ids[k] in t.invoices
    ensures Repairs(t, ids, faultsOf, pid)
       <==> || (t.invoices[ids[0]].providerId == pid && InsertRow !in FaultsOf(faultsOf, ids[0]))
            || Repairs(t, ids[1..], faultsOf, pid)
  {
    var rest := ids[1..];
    if k :| 0 <= k < |rest| && t.invoices[rest[k]].providerId == pid && InsertRow !in FaultsOf(faultsOf, rest[k]) {
      assert ids[k + 1] == rest[k];
    }
    if k :| 1 <= k < |ids| && t.invoices[ids[k]].providerId == pid && InsertRow !in FaultsOf(faultsOf, ids[k]) {
      assert rest[k - 1] == ids[k];
    }
  }

  /** The listed invoices whose insert is not refused, in the listed order. */
  function Kept(ids: seq<string>, faultsOf: map<string, Faults>): seq<string> {
    if ids == [] then []
    else (if InsertRow in FaultsOf(faultsOf, ids[0]) then [] else [ids[0]]) + Kept(ids[1..], faultsOf)
  }

  lemma {:induction false} KeptAreListed(ids: seq<string>, faultsOf: map<string, Faults>)
    ensures forall id | id in Kept(ids, faultsOf) :: id in ids
  {
    if ids != [] {
      KeptAreListed(ids[1..], faultsOf);
    }
  }

  /** Each row records the payment of the invoice at its place: id, payer, amount and type. */
  ghost predicate Pays(rows: seq<Row>, invoices: map<string, Invoice>, ids: seq<string>, paymentType: string) {
    && |rows| == |ids|
    && forall k | 0 <= k < |ids| ::
         && ids[k] in invoices
         && rows[k].txId == Some(invoices[ids[k]].providerId)
         && rows[k].user == invoices[ids[k]].user
         && rows[k].amount == invoices[ids[k]].amount
         && rows[k].detail == PaymentVia(paymentType)
  }

  /** The amounts of the user's invoices among these. */
  function AmountsOf(invoices: map<string, Invoice>, ids: seq<string>, user: string): int {
    if ids == [] then 0
    else
      (if ids[0] in invoices && invoices[ids[0]].user == user then invoices[ids[0]].amount else 0)
      + AmountsOf(invoices, ids[1..], user)
  }

  /** rows is what done appended for the first of the kept invoices, and what the balances moved by. */
  ghost predicate Posted(t: Tables, done: Reconciled, rows: seq<Row>, kept: seq<string>, paymentType: string) {
    && done.tables == t.(accounts := done.tables.accounts, ledger := t.ledger + rows)
    && done.repaired <= |kept| && (done.error.None? ==> done.repaired == |kept|)
    && Pays(rows, t.invoices, kept[..done.repaired], paymentType)
    && forall user ::
         Balance(done.tables, user) == Balance(t, user) + AmountsOf(t.invoices, kept[..done.repaired], user)
  }

  /** A repaired first invoice, before the rest. */
  lemma PostedMore(t: Tables, t': Tables, row: Row, done: Reconciled, rows: seq<Row>, kept: seq<string>, id: string,
      paymentType: string)
    requires Entered(t, t', row) && Posted(t', done, rows, kept, paymentType)
    requires Pays([row], t.invoices, [id], paymentType)
    ensures Posted(t, done.(repaired := done.repaired + 1), [row] + rows, [id] + kept, paymentType)
  {
    var all := [id] + kept;
    assert all[..done.repaired + 1] == [id] + kept[..done.repaired];
    assert t.ledger + ([row] + rows) == t.ledger + [row] + rows;
    assert [id][0] == id && [row][0] == row;
    assert ([id] + kept[..done.repaired])[1..] == kept[..done.repaired];
  }

  /**
   What a reconciliation posts, whether it ends well or breaks off: one row for each invoice repaired, in
   the listed order, crediting that invoice's payer with that invoice's amount under its provider id. Each
   balance grows by the amounts of the user's repaired invoices; no other table changes.
  */
  lemma {:induction false} ReconcilePosts(t: Tables, ids: seq<string>, paymentType: string,
      faultsOf: map<string, Faults>)
    returns (rows: seq<Row>)
    requires OrphanList(t, ids) && UniqueProviderIds(t)
    requires forall id | id in ids :: id in t.invoices
    ensures Posted(t, Reconcile(t, ids, paymentType, faultsOf), rows, Kept(ids, faultsOf), paymentType)
    decreases |ids|
  {
    rows := [];
    if ids == [] {
      PostedNothing(t, None, [], paymentType);
      return;
    }
    var inv := t.invoices[ids[0]];
    var faults := FaultsOf(faultsOf, ids[0]);
    var (t', r) := Pay(t, inv.user, inv.amount, inv.providerId, paymentType, faults);
    ReconcileRound(t, ids, paymentType, faults);
    PayExact(t, inv.user, inv.amount, inv.providerId, paymentType, faults);
    if r.Ok? || IsDuplicateTransactionIdError(r.error) {
      rows := ReconcilePosts(t', ids[1..], paymentType, faultsOf);
      if r.Ok? {
        PostedMore(t, t', r.value, Reconcile(t', ids[1..], paymentType, faultsOf), rows, Kept(ids[1..], faultsOf),
                   ids[0], paymentType);
        rows := [r.value] + rows;
      } else {
        assert t' == t && Reconcile(t, ids, paymentType, faultsOf) == Reconcile(t, ids[1..], paymentType, faultsOf);
        assert Kept(ids, faultsOf) == Kept(ids[1..], faultsOf);
      }
    } else {
      PostedNothing(t, Some(r.error), Kept(ids, faultsOf), paymentType);
    }
  }

  lemma PostedNothing(t: Tables, error: Option<Error>, kept: seq<string>, paymentType: string)
    requires error.None? ==> kept == []
    ensures Posted(t, Reconciled(t, 0, error), [], kept, paymentType)
  {
    assert t.ledger + [] == t.ledger && kept[..0] == [];
  }

  /**
   After a reconciliation that reports no error, every paid invoice with a provider id has its credit
   if and only if no listed invoice met a refused insert.
  */
  lemma ReconcileComplete(t: Tables, ids: seq<string>, paymentType: string, faultsOf: map<string, Faults>)
    requires ListsOrphans(t, ids) && UniqueProviderIds(t)
    requires Reconcile(t, ids, paymentType, faultsOf).error.None?
    ensures var done := Reconcile(t, ids, paymentType, faultsOf);
            && done.repaired == |ids| - Skipped(ids, faultsOf)
            && ((forall id :: !Orphan(done.tables, id))
                <==> (forall id | id in ids :: InsertRow !in FaultsOf(faultsOf, id)))
  {
    ListedAreOrphans(t, ids);
    ReconcileRepairs(t, ids, paymentType, faultsOf);
    var t' := Reconcile(t, ids, paymentType, faultsOf).tables;
    forall id ensures Orphan(t', id) <==> id in ids && InsertRow in FaultsOf(faultsOf, id) {
      if id in ids {
        var k :| 0 <= k < |ids| && ids[k] == id;
        forall j | 0 <= j < |ids| && t.invoices[ids[j]].providerId == t.invoices[id].providerId ensures ids[j] == id {
          assert Orphan(t, ids[j]);
        }
      }
    }
  }

  lemma ListedAreOrphans(t: Tables, ids: seq<string>)
    requires ListsOrphans(t, ids)
    ensures OrphanList(t, ids)
  {
    forall k | 0 <= k < |ids| ensures Orphan(t, ids[k]) {
      assert ids[k] in ids;
    }
  }

  /** A second reconciliation after a complete one finds nothing to repair and changes nothing. */
  lemma ReconcileAgain(t: Tables, ids: seq<string>, again: seq<string>, paymentType: string,
      faultsOf: map<string, Faults>, faultsOf2: map<string, Faults>)
    requires ListsOrphans(t, ids) && UniqueProviderIds(t)
    requires Reconcile(t, ids, paymentType, faultsOf).error.None?
    requires forall id | id in ids :: InsertRow !in FaultsOf(faultsOf, id)
    requires ListsOrphans(Reconcile(t, ids, paymentType, faultsOf).tables, again)
    ensures var t' := Reconcile(t, ids, paymentType, faultsOf).tables;
            Reconcile(t', again, paymentType, faultsOf2) == Reconciled(t', 0, None)
  {
    assert again != [] ==> again[0] in again;
    ReconcileComplete(t, ids, paymentType, faultsOf);
  }
}
