/** The tables as one mutable object; the billing calls change its fields statement by statement. */
module Database {
  import opened Prelude
  import opened Ledger

  class Db {
    var accounts: map<string, int>
    var ledger: seq<Row>
    var invoices: map<string, Invoice>
    var meters: map<string, Meter>
    var users: map<string, User>

    constructor ()
      ensures View() == EMPTY
    {
      accounts, ledger, invoices, meters, users := map[], [], map[], map[], map[];
    }

    /** The contents of every table. */
    function View(): Tables
      reads this
    {
      Tables(accounts, ledger, invoices, meters, users)
    }

    /** tx.Rollback(): every table is as it was when the transaction began. */
    method Rollback(begun: Tables)
      modifies this
      ensures View() == begun
    {
      accounts, ledger, invoices, meters, users :=
        begun.accounts, begun.ledger, begun.invoices, begun.meters, begun.users;
    }
  }
}
