/**
 The billing tables and the laws of the credit ledger: user_credits, credit_transactions,
 payment_invoices, storage_usage_accumulator and the billing columns of users.
*/
module Ledger {
  import opened Prelude

  /** What a credit_transactions row records besides its amounts; the constructor is its transaction_type. */
  datatype Detail =
    | GiftBy(admin: string, reason: string)
    | PaymentVia(paymentType: string)
    | UsageOf(drained: int, rate: int, periodStart: int, periodEnd: int, ticks: int)

  datatype Row = Row(txId: Option<string>, user: string, amount: int, balanceAfter: int, detail: Detail)

  datatype Status = Pending | Paid | Expired | Failed

  datatype Invoice = Invoice(user: string, amount: int, status: Status, providerId: string)

  /** A nullable timestamp column: absent, readable, or text that no known layout parses. */
  datatype Stamp = NoStamp | At(time: int) | Garbled

  datatype Meter = Meter(unbilled: int, lastTick: int, lastBilled: Stamp)

  datatype User = User(storage: int, approved: bool, admin: bool)

  datatype Tables = Tables(
    accounts: map<string, int>,      // user_credits: the signed balance by user
    ledger: seq<Row>,                // credit_transactions in id order
    invoices: map<string, Invoice>,  // payment_invoices by invoice_id
    meters: map<string, Meter>,      // storage_usage_accumulator by user
    users: map<string, User>)        // users by name

  const EMPTY: Tables := Tables(map[], [], map[], map[], map[])

  /** The database statements that a billing call issues; a call's faults are those the database refuses. */
  datatype Statement =
    | BeginTx | ReadBalance | CreateAccount | UpdateBalance | InsertRow
    | CheckCredit | RecheckCredit | UpdateInvoice | ReadStorage | UpsertMeter | ResetMeter | CommitTx
    | ListRows

  type Faults = set<Statement>

  datatype Error =
    | EmptyUser | NonPositiveAmount | MissingProviderId | EmptyReason | EmptyAdmin
    | NilInvoice | NotSettleable(status: Status) | NoLongerPending
    | NilRate | NoSuchUser
    | Refused(at: Statement)

  /** A user without a user_credits row has balance 0. */
  function Balance(t: Tables, user: string): int {
    if user in t.accounts then t.accounts[user] else 0
  }

  /** A credit_transactions row with this transaction_id exists. */
  predicate Credited(ledger: seq<Row>, txId: string) {
    exists i | 0 <= i < |ledger| :: ledger[i].txId == Some(txId)
  }

  // ---------------------------------------------------------------- sums over the ledger

  ghost function UserSum(ledger: seq<Row>, user: string): int {
    if ledger == [] then 0
    else
      var last := ledger[|ledger| - 1];
      UserSum(ledger[..|ledger| - 1], user) + if last.user == user then last.amount else 0
  }

  /** What usage rows have taken from the user. */
  ghost function Drained(ledger: seq<Row>, user: string): int {
    if ledger == [] then 0
    else
      var last := ledger[|ledger| - 1];
      Drained(ledger[..|ledger| - 1], user) + if last.user == user && last.detail.UsageOf? then -last.amount else 0
  }

  /** The number of rows that carry this transaction_id. */
  ghost function CreditCount(ledger: seq<Row>, txId: string): nat {
    if ledger == [] then 0
    else
      CreditCount(ledger[..|ledger| - 1], txId) + if ledger[|ledger| - 1].txId == Some(txId) then 1 else 0
  }

  lemma SumsAppend(ledger: seq<Row>, row: Row, user: string, txId: string)
    ensures UserSum(ledger + [row], user) == UserSum(ledger, user) + (if row.user == user then row.amount else 0)
    ensures Drained(ledger + [row], user)
         == Drained(ledger, user) + (if row.user == user && row.detail.UsageOf? then -row.amount else 0)
    ensures CreditCount(ledger + [row], txId) == CreditCount(ledger, txId) + (if row.txId == Some(txId) then 1 else 0)
  {
    assert (ledger + [row])[..|ledger + [row]| - 1] == ledger;
  }

  lemma {:induction false} CreditCountPositive(ledger: seq<Row>, txId: string)
    ensures CreditCount(ledger, txId) > 0 <==> Credited(ledger, txId)
  {
    if ledger != [] {
      var n := |ledger| - 1;
      CreditCountPositive(ledger[..n], txId);
      if Credited(ledger, txId) && ledger[n].txId != Some(txId) {
        var i :| 0 <= i < |ledger| && ledger[i].txId == Some(txId);
        assert ledger[..n][i].txId == Some(txId);
      }
      if Credited(ledger[..n], txId) {
        var i :| 0 <= i < n && ledger[..n][i].txId == Some(txId);
        assert ledger[i].txId == Some(txId);
      }
    }
  }

  // ---------------------------------------------------------------- the ledger invariant

  /** How far the stored balance is ahead of the ledger. */
  ghost function Drift(t: Tables, user: string): int {
    Balance(t, user) - UserSum(t.ledger, user)
  }

  ghost predicate RunningBalances(ledger: seq<Row>) {
    forall i | 0 <= i < |ledger| :: ledger[i].balanceAfter == UserSum(ledger[..i + 1], ledger[i].user)
  }

  ghost predicate UniqueTxIds(ledger: seq<Row>) {
    forall i, j | 0 <= i < j < |ledger| :: ledger[i].txId.Some? ==> ledger[i].txId != ledger[j].txId
  }

  ghost predicate LedgerInv(t: Tables) {
    && (forall user :: Drift(t, user) == 0)
    && RunningBalances(t.ledger)
    && UniqueTxIds(t.ledger)
  }

  lemma {:induction false} UniqueMeansAtMostOne(ledger: seq<Row>, txId: string)
    requires UniqueTxIds(ledger)
    ensures CreditCount(ledger, txId) <= 1
  {
    if ledger != [] {
      var n := |ledger| - 1;
      UniqueMeansAtMostOne(ledger[..n], txId);
      CreditCountPositive(ledger[..n], txId);
    }
  }

  lemma RunningBalancesAppend(ledger: seq<Row>, row: Row)
    requires RunningBalances(ledger)
    requires row.balanceAfter == UserSum(ledger, row.user) + row.amount
    ensures RunningBalances(ledger + [row])
  {
    var next := ledger + [row];
    forall i | 0 <= i < |next| ensures next[i].balanceAfter == UserSum(next[..i + 1], next[i].user) {
      if i < |ledger| {
        assert next[..i + 1] == ledger[..i + 1];
      } else {
        assert next[..i + 1] == next;
        SumsAppend(ledger, row, row.user, "");
      }
    }
  }

  // ---------------------------------------------------------------- posting one entry

  /**
   The statements shared by payments, gifts and settlements inside their transaction: read the
   balance (creating the account at zero), write the new balance, insert the ledger row. A refused
   call leaves the statements before the refusal done; it is the caller's rollback that undoes them.
  */
  function Post(t: Tables, user: string, amount: int, txId: Option<string>, detail: Detail, faults: Faults)
    : (Tables, Result<Row, Error>)
  {
    if ReadBalance in faults then (t, Err(Refused(ReadBalance)))
    else if user !in t.accounts && CreateAccount in faults then (t, Err(Refused(CreateAccount)))
    else
      var before := Balance(t, user);
      if UpdateBalance in faults then (t.(accounts := t.accounts[user := before]), Err(Refused(UpdateBalance)))
      else
        var moved := t.(accounts := t.accounts[user := before + amount]);
        if InsertRow in faults || (txId.Some? && Credited(t.ledger, txId.value)) then
          (moved, Err(Refused(InsertRow)))
        else
          var row := Row(txId, user, amount, before + amount, detail);
          (moved.(ledger := t.ledger + [row]), Ok(row))
  }

  /** Exactly when an entry is accepted. */
  ghost predicate Accepts(t: Tables, user: string, txId: Option<string>, faults: Faults) {
    && ReadBalance !in faults && UpdateBalance !in faults && InsertRow !in faults
    && (user in t.accounts || CreateAccount !in faults)
    && (txId.Some? ==> !Credited(t.ledger, txId.value))
  }

  /** to is from with one more entry: one account moved by amount, one row appended, nothing else touched. */
  ghost predicate Entered(from: Tables, to: Tables, row: Row) {
    && row.balanceAfter == Balance(from, row.user) + row.amount
    && to == from.(accounts := from.accounts[row.user := row.balanceAfter], ledger := from.ledger + [row])
    && (row.txId.Some? ==> !Credited(from.ledger, row.txId.value))
  }

  lemma PostExact(t: Tables, user: string, amount: int, txId: Option<string>, detail: Detail, faults: Faults)
    ensures var (t', r) := Post(t, user, amount, txId, detail, faults);
            && (r.Ok? <==> Accepts(t, user, txId, faults))
            && (r.Ok? ==> Entered(t, t', r.value)
                          && r.value == Row(txId, user, amount, Balance(t, user) + amount, detail))
            && t'.invoices == t.invoices && t'.meters == t.meters && t'.users == t.users
  {
  }

  /** An entry moves the balance and the ledger together, so it preserves every user's drift. */
  lemma EntryKeepsDrift(from: Tables, to: Tables, row: Row, user: string)
    requires Entered(from, to, row)
    ensures Drift(to, user) == Drift(from, user)
    ensures Drained(to.ledger, user)
         == Drained(from.ledger, user) + (if row.user == user && row.detail.UsageOf? then -row.amount else 0)
  {
    SumsAppend(from.ledger, row, user, "");
  }

  lemma EntryKeepsUnique(from: Tables, to: Tables, row: Row)
    requires Entered(from, to, row) && UniqueTxIds(from.ledger)
    ensures UniqueTxIds(to.ledger)
  {
    forall i, j | 0 <= i < j < |to.ledger| && to.ledger[i].txId.Some?
      ensures to.ledger[i].txId != to.ledger[j].txId
    {
      assert to.ledger[i] == from.ledger[i];
      if j == |from.ledger| && row.txId == from.ledger[i].txId {
        assert Credited(from.ledger, row.txId.value);
      }
    }
  }

  lemma EntryKeepsInv(from: Tables, to: Tables, row: Row)
    requires Entered(from, to, row) && LedgerInv(from)
    ensures LedgerInv(to)
  {
    forall user ensures Drift(to, user) == 0 {
      assert Drift(from, user) == 0;
      EntryKeepsDrift(from, to, row, user);
    }
    assert Drift(from, row.user) == 0;
    RunningBalancesAppend(from.ledger, row);
    EntryKeepsUnique(from, to, row);
  }
}
