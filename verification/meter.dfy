/** billing/meter.go: the hourly charge and its accumulator. */
module Metering {
  import opened Prelude
  import opened Ledger
  import opened Database
  import opened Payments

  /** (billable * rate) >> 30 on int64: the product wraps, the shift rounds down. */
  function HourlyCharge(billable: int, rate: int): int {
    WrapInt64(billable * rate) / TWO_30
  }

  /** The charge is the floor of billable * rate / 2^30 exactly as long as the product fits an int64. */
  lemma HourlyChargeExactIff(billable: nat, rate: nat)
    ensures HourlyCharge(billable, rate) == billable * rate / TWO_30 <==> billable * rate < TWO_63
  {
    var product := billable * rate;
    if product >= TWO_63 {
      assert WrapInt64(product) < TWO_63 <= product;
      assert TWO_63 == TWO_30 * (TWO_63 / TWO_30);
    }
  }

  function Unbilled(t: Tables, user: string): int {
    if user in t.meters then t.meters[user].unbilled else 0
  }

  /** The upsert of one charge: a new row, or += on the old one; last_billed_at is left alone. */
  function AddCharge(t: Tables, user: string, charge: int, now: int): Tables {
    var row :=
      if user in t.meters then Meter(t.meters[user].unbilled + charge, now, t.meters[user].lastBilled)
      else Meter(charge, now, NoStamp);
    t.(meters := t.meters[user := row])
  }

  /** The charge that the user's present storage incurs in one tick; never negative. */
  function TickCharge(t: Tables, user: string, rate: int, baseline: int): (c: int)
    requires user in t.users
    ensures c >= 0
    ensures t.users[user].storage <= baseline ==> c == 0
    ensures t.users[user].storage > baseline && 0 <= (t.users[user].storage - baseline) * rate < TWO_63 ==>
              c * TWO_30 <= (t.users[user].storage - baseline) * rate < (c + 1) * TWO_30
  {
    var billable := t.users[user].storage - baseline;
    if billable <= 0 then 0
    else
      var charge := HourlyCharge(billable, rate);
      if charge <= 0 then 0 else charge
  }

  function Tick(t: Tables, user: string, rate: Option<int>, now: int, baseline: int, faults: Faults)
    : (Tables, Option<Error>)
  {
    if rate.None? then (t, Some(NilRate))
    else if user == "" then (t, Some(EmptyUser))
    else if ReadStorage in faults then (t, Some(Refused(ReadStorage)))
    else if user !in t.users then (t, Some(NoSuchUser))
    else
      var charge := TickCharge(t, user, rate.value, baseline);
      if charge == 0 then (t, None)
      else if UpsertMeter in faults then (t, Some(Refused(UpsertMeter)))
      else (AddCharge(t, user, charge, now), None)
  }

  /** A user whom the meter charges: approved, and an admin only if admins are included. */
  predicate Active(t: Tables, user: string, includeAdmins: bool) {
    user in t.users && t.users[user].approved && (includeAdmins || !t.users[user].admin)
  }

  /** Some of the users to tick, each once, in some order. */
  ghost predicate AreActive(t: Tables, names: seq<string>, includeAdmins: bool) {
    && (forall user | user in names :: Active(t, user, includeAdmins))
    && (forall i, j | 0 <= i < j < |names| :: names[i] != names[j])
  }

  /** names is a possible answer of the query for the users to tick. */
  ghost predicate ListsActive(t: Tables, names: seq<string>, includeAdmins: bool) {
    AreActive(t, names, includeAdmins) && forall user | Active(t, user, includeAdmins) :: user in names
  }

  /** How the query goes: all rows come, none does, or it breaks off with an error after some. */
  datatype Listing = Complete | NoAnswer | BrokenOff(rows: nat)

  function Listed(names: seq<string>, listing: Listing): seq<string>
    requires listing.BrokenOff? ==> listing.rows <= |names|
  {
    match listing
    case Complete => names
    case NoAnswer => []
    case BrokenOff(rows) => names[..rows]
  }

  datatype Ticked = Ticked(tables: Tables, count: nat, errors: nat)

  function TickAll(t: Tables, names: seq<string>, rate: int, now: int, baseline: int, faultsOf: map<string,
      Faults>): Ticked
    decreases |names|
  {
    if names == [] then Ticked(t, 0, 0)
    else
      var (t', e) := Tick(t, names[0], Some(rate), now, baseline, FaultsOf(faultsOf, names[0]));
      var rest := TickAll(t', names[1..], rate, now, baseline, faultsOf);
      if e.Some? then rest.(errors := rest.errors + 1) else rest.(count := rest.count + 1)
  }

  // ================================================================ the calls themselves

  method TickUser(db: Db, user: string, rate: Option<int>, now: int, baseline: int, faults: Faults)
    returns (error: Option<Error>)
    modifies db
    ensures (db.View(), error) == Tick(old(db.View()), user, rate, now, baseline, faults)
  {
    if rate.None? { return Some(NilRate); }
    if user == "" { return Some(EmptyUser); }
    if ReadStorage in faults { return Some(Refused(ReadStorage)); }
    if user !in db.users { return Some(NoSuchUser); }
    var billable := db.users[user].storage - baseline;
    if billable <= 0 { return None; }
    var charge := HourlyCharge(billable, rate.value);
    if charge <= 0 { return None; }
    if UpsertMeter in faults { return Some(Refused(UpsertMeter)); }
    if user in db.meters {
      db.meters := db.meters[user := Meter(db.meters[user].unbilled + charge, now, db.meters[user].lastBilled)];
    } else {
      db.meters := db.meters[user := Meter(charge, now, NoStamp)];
    }
    return None;
  }

  /** A row that cannot be scanned counts as an error, like one whose storage cannot be read. */
  method TickAllActiveUsers(db: Db, all: seq<string>, listing: Listing, rate: Option<int>, now: int, baseline: int,
      includeAdmins: bool, faultsOf: map<string, Faults>)
    returns (count: nat, errors: nat, error: Option<Error>)
    requires ListsActive(db.View(), all, includeAdmins)
    requires listing.BrokenOff? ==> listing.rows <= |all|
    modifies db
    ensures rate.None? ==> db.View() == old(db.View()) && error == Some(NilRate) && count == errors == 0
    ensures rate.Some? ==> error == if listing.Complete? then None else Some(Refused(ListRows))
    ensures rate.Some? ==>
              Ticked(db.View(), count, errors)
              == TickAll(old(db.View()), Listed(all, listing), rate.value, now, baseline, faultsOf)
  {
    count, errors := 0, 0;
    if rate.None? { return 0, 0, Some(NilRate); }
    if listing.NoAnswer? { return 0, 0, Some(Refused(ListRows)); }
    var names := Listed(all, listing);
    ghost var whole := TickAll(db.View(), names, rate.value, now, baseline, faultsOf);
    for k := 0 to |names|
      invariant var rest := TickAll(db.View(), names[k..], rate.value, now, baseline, faultsOf);
                whole == Ticked(rest.tables, count + rest.count, errors + rest.errors)
    {
      assert names[k..][0] == names[k] && names[k..][1..] == names[k + 1..];
      var e := TickUser(db, names[k], rate, now, baseline, FaultsOf(faultsOf, names[k]));
      if e.Some? {
        errors := errors + 1;
        continue;
      }
      count := count + 1;
    }
    return count, errors, if listing.BrokenOff? then Some(Refused(ListRows)) else None;
  }

  // ================================================================ what ticks do

  /** What one tick actually adds to a user's accumulator. */
  ghost function Charged(t: Tables, user: string, rate: Option<int>, baseline: int, faults: Faults): int {
    if rate.None? || user == "" || user !in t.users || ReadStorage in faults || UpsertMeter in faults then 0
    else TickCharge(t, user, rate.value, baseline)
  }

  /** Why a tick fails: no rate, no user, or the database refuses the read, or the write that a charge needs. */
  ghost predicate TickFails(t: Tables, user: string, rate: Option<int>, baseline: int, faults: Faults) {
    || rate.None? || user == "" || user !in t.users || ReadStorage in faults
    || (TickCharge(t, user, rate.value, baseline) > 0 && UpsertMeter in faults)
  }

  /** How many of these users' ticks fail. */
  ghost function Failing(t: Tables, names: seq<string>, rate: int, baseline: int, faultsOf: map<string, Faults>): nat {
    if names == [] then 0
    else
      (if TickFails(t, names[0], Some(rate), baseline, FaultsOf(faultsOf, names[0])) then 1 else 0)
      + Failing(t, names[1..], rate, baseline, faultsOf)
  }

  lemma {:induction false} FailingSame(t: Tables, t': Tables, names: seq<string>, rate: int, baseline: int,
      faultsOf: map<string, Faults>)
    requires t'.users == t.users
    ensures Failing(t', names, rate, baseline, faultsOf) == Failing(t, names, rate, baseline, faultsOf)
  {
    if names != [] {
      FailingSame(t, t', names[1..], rate, baseline, faultsOf);
    }
  }

  lemma TickExact(t: Tables, user: string, rate: Option<int>, now: int, baseline: int, faults: Faults)
    ensures var (t', e) := Tick(t, user, rate, now, baseline, faults);
            && t' == t.(meters := t'.meters)
            && (forall other | other != user :: other in t.meters || other in t'.meters ==>
                  other in t.meters && other in t'.meters && t'.meters[other] == t.meters[other])
            && Unbilled(t', user) == Unbilled(t, user) + Charged(t, user, rate, baseline, faults)
            && (user in t'.meters ==>
                  t'.meters[user].lastBilled == if user in t.meters then t.meters[user].lastBilled else NoStamp)
            && (e.Some? <==> TickFails(t, user, rate, baseline, faults))
            && (e.Some? ==> t' == t)
            && (Charged(t, user, rate, baseline, faults) > 0 ==> t'.meters[user].lastTick == now)
            && (Charged(t, user, rate, baseline, faults) == 0 ==> t' == t)
  {
  }

  /**
   A tick of all active users charges each of them once and nobody else, in whatever order the database
   lists them, and one user's failure does not keep another from being charged.
  */
  lemma {:induction false} TickAllExact(t: Tables, names: seq<string>, rate: int, now: int, baseline: int,
      faultsOf: map<string, Faults>, user: string)
    requires forall i, j | 0 <= i < j < |names| :: names[i] != names[j]
    ensures var done := TickAll(t, names, rate, now, baseline, faultsOf);
            && done.tables == t.(meters := done.tables.meters)
            && done.errors == Failing(t, names, rate, baseline, faultsOf)
            && done.count == |names| - Failing(t, names, rate, baseline, faultsOf)
            && Unbilled(done.tables, user) == Unbilled(t, user)
                 + (if user in names then Charged(t, user, Some(rate), baseline, FaultsOf(faultsOf, user)) else 0)
            && (user in t.meters ==> user in done.tables.meters)
            && (user in done.tables.meters ==>
                  done.tables.meters[user].lastBilled
                  == if user in t.meters then t.meters[user].lastBilled else NoStamp)
    decreases |names|
  {
    if names == [] {
      return;
    }
    var faults := FaultsOf(faultsOf, names[0]);
    var t' := Tick(t, names[0], Some(rate), now, baseline, faults).0;
    TickExact(t, names[0], Some(rate), now, baseline, faults);
    TickAllExact(t', names[1..], rate, now, baseline, faultsOf, user);
    FailingSame(t, t', names[1..], rate, baseline, faultsOf);
    assert user in names <==> user == names[0] || user in names[1..];
  }

  /**
   Without faults, a tick of everybody listed charges the approved users, and of these the admins only if
   they are included; it charges each what the present storage costs.
  */
  lemma WhoIsCharged(t: Tables, names: seq<string>, rate: int, now: int, baseline: int, includeAdmins: bool,
      user: string)
    requires ListsActive(t, names, includeAdmins)
    ensures var t' := TickAll(t, names, rate, now, baseline, map[]).tables;
            Unbilled(t', user)
            == Unbilled(t, user)
               + if user in t.users && user != "" && t.users[user].approved && (!t.users[user].admin || includeAdmins)
                 then TickCharge(t, user, rate, baseline) else 0
  {
    TickAllExact(t, names, rate, now, baseline, map[], user);
    assert user in names <==> Active(t, user, includeAdmins);
  }

  /** The order in which the database lists the users does not matter for what they are charged. */
  lemma TickAllOrderIrrelevant(t: Tables, a: seq<string>, b: seq<string>, rate: int, now: int, baseline: int,
      includeAdmins: bool, faultsOf: map<string, Faults>, user: string)
    requires ListsActive(t, a, includeAdmins) && ListsActive(t, b, includeAdmins)
    ensures Unbilled(TickAll(t, a, rate, now, baseline, faultsOf).tables, user)
         == Unbilled(TickAll(t, b, rate, now, baseline, faultsOf).tables, user)
  {
    TickAllExact(t, a, rate, now, baseline, faultsOf, user);
    TickAllExact(t, b, rate, now, baseline, faultsOf, user);
    assert user in a <==> Active(t, user, includeAdmins);
    assert user in b <==> Active(t, user, includeAdmins);
  }
}
