/** handlers/billing_projection.go: the projected runway, and its agreement with the meter. */
module Runway {
  import opened Prelude
  import opened Ledger
  import opened Payments
  import opened Metering
  import opened Sweeping
  import opened BillingRuns

  /** The credits_runway block; runsOutIn is the wrapped int64 duration that is added to now. */
  datatype Projection =
    | NegativeBalance
    | WithinBaseline
    | RateUnresolved
    | RoundsToZero
    | Lasts(hours: int, runsOutIn: int)

  function BuildCreditsRunway(balance: int, billable: int, rate: int, rateAvailable: bool): Projection {
    if balance < 0 then NegativeBalance
    else if billable == 0 then WithinBaseline
    else if !rateAvailable || rate <= 0 then RateUnresolved
    else
      var hourly := HourlyCharge(billable, rate);
      if hourly <= 0 then RoundsToZero
      else Lasts(balance / hourly, WrapInt64(balance / hourly * HOUR))
  }

  /** Storage above the free baseline. */
  function Billable(storage: int, baseline: int): int {
    if storage - baseline < 0 then 0 else storage - baseline
  }

  /** The block buildBillingProjection passes on for a user. */
  function Projected(t: Tables, user: string, rate: int, rateAvailable: bool, baseline: int): Projection
    requires user in t.users
  {
    BuildCreditsRunway(Balance(t, user), Billable(t.users[user].storage, baseline), rate, rateAvailable)
  }

  /**
   A balance that is being charged gets a run-out date, and that date is the projected one if and only if
   the balance is below 2,562,048 hourly charges: from there on the hours overflow an int64 of nanoseconds.
  */
  lemma RunsOutDateExactIff(balance: nat, billable: nat, rate: int)
    requires rate > 0 && HourlyCharge(billable, rate) > 0
    ensures var p := BuildCreditsRunway(balance, billable, rate, true);
            && p.Lasts?
            && (p.runsOutIn == p.hours * HOUR <==> balance < 2_562_048 * HourlyCharge(billable, rate))
  {
    assert billable > 0;
    DivideExact(balance, HourlyCharge(billable, rate), 2_562_048);
    RunsOutAfter(balance, HourlyCharge(billable, rate));
  }

  lemma RunsOutAfter(balance: nat, hourly: nat)
    requires hourly > 0
    ensures WrapInt64(balance / hourly * HOUR) == balance / hourly * HOUR <==> balance / hourly < 2_562_048
  {
    HoursFit(balance / hourly);
  }

  lemma HoursFit(hours: nat)
    ensures WrapInt64(hours * HOUR) == hours * HOUR <==> hours < 2_562_048
  {
  }

  /** A balance of 10 dollars against one microcent an hour is past that limit. */
  lemma RunsOutDateWraps()
    ensures BuildCreditsRunway(1_000_000_000, TWO_30, 1, true).Lasts?
    ensures BuildCreditsRunway(1_000_000_000, TWO_30, 1, true).runsOutIn != 1_000_000_000 * HOUR
  {
    assert HourlyCharge(TWO_30, 1) == 1;
  }

  /**
   What the other verdicts mean for the user: a negative balance whatever else; no storage above the
   baseline; no usable rate; or a tick that would cost nothing. In the second and the last case no tick
   charges anything, and hours are projected exactly for those whom ticks do charge.
  */
  lemma VerdictsMean(t: Tables, user: string, rate: int, rateAvailable: bool, baseline: int)
    requires user in t.users
    ensures var p := Projected(t, user, rate, rateAvailable, baseline);
            var above := t.users[user].storage > baseline;
            var charge := TickCharge(t, user, rate, baseline);
            && (p.NegativeBalance? <==> Balance(t, user) < 0)
            && (p.WithinBaseline? <==> Balance(t, user) >= 0 && !above)
            && (p.RateUnresolved? <==> Balance(t, user) >= 0 && above && (!rateAvailable || rate <= 0))
            && (p.RoundsToZero? <==> Balance(t, user) >= 0 && above && rateAvailable && rate > 0 && charge == 0)
            && (p.Lasts? <==> Balance(t, user) >= 0 && rateAvailable && rate > 0 && charge > 0)
            && (p.Lasts? ==> p.hours == Balance(t, user) / charge)
  {
  }

  // ================================================================ the meter between two readings

  /** Only ticks and sweeps happen, and the user's ticks succeed at this rate and baseline. */
  ghost predicate Metered(ops: seq<Op>, user: string, rate: int, baseline: int)
    decreases |ops|
  {
    ops == [] ||
    (&& Metered(ops[1..], user, rate, baseline)
     && match ops[0]
        case TickOp(u, r, _, b, faults) => u == user ==> r == Some(rate) && b == baseline && faults == {}
        case TickAllOp(names, _, r, _, b, faultsOf) =>
          user in names ==> r == rate && b == baseline && FaultsOf(faultsOf, user) == {}
        case SweepOp(_, _, _, _) => true
        case _ => false)
  }

  /** The op is a tick of the user. */
  predicate TicksUser(op: Op, user: string) {
    (op.TickOp? && op.user == user) || (op.TickAllOp? && user in op.names)
  }

  function Ticks(ops: seq<Op>, user: string): nat {
    if ops == [] then 0 else (if TicksUser(ops[0], user) then 1 else 0) + Ticks(ops[1..], user)
  }

  /** What the user is worth to the meter: the balance less what is still unbilled. */
  ghost function Net(t: Tables, user: string): int {
    Balance(t, user) - Unbilled(t, user)
  }

  lemma SweepStep(t: Tables, op: Op, user: string)
    requires op.SweepOp? && Possible(t, op)
    ensures var t' := Step(t, op);
            && t'.users == t.users && Net(t', user) == Net(t, user)
            && (Unbilled(t, user) >= 0 ==> Unbilled(t', user) >= 0)
  {
    DueReadAs(t, op.queue, user);
    SweepConserves(t, op.queue, op.hourly, op.now, op.faultsOf, ZERO, user);
    SweepKeepsUsers(t, op.queue, op.hourly, op.now, op.faultsOf, ZERO);
  }

  lemma MeteredStep(t: Tables, op: Op, user: string, charge: int, rate: int, baseline: int)
    requires Possible(t, op) && Metered([op], user, rate, baseline) && user in t.users && user != ""
    requires charge == TickCharge(t, user, rate, baseline)
    ensures var t' := Step(t, op);
            && t'.users == t.users
            && Net(t', user) == Net(t, user) - (if TicksUser(op, user) then charge else 0)
            && (Unbilled(t, user) >= 0 ==> Unbilled(t', user) >= 0)
  {
    if op.SweepOp? {
      SweepStep(t, op, user);
    } else if op.TickOp? {
      TickExact(t, op.user, op.rate, op.now, op.baseline, op.faults);
    } else {
      TickAllExact(t, op.names, op.hourly, op.now, op.baseline, op.faultsOf, user);
    }
  }

  lemma {:induction false} SweepKeepsUsers(t: Tables, queue: seq<Due>, rate: int, now: int, faultsOf: map<string,
      Faults>, sum: Summary)
    ensures Sweep(t, queue, rate, now, faultsOf, sum).0.users == t.users
    decreases |queue|
  {
    if queue != [] {
      var (t', r) := SettleOne(t, queue[0], rate, now, FaultsOf(faultsOf, queue[0].user));
      SweepKeepsUsers(t', queue[1..], rate, now, faultsOf, if r.Ok? then Add(sum, queue[0], r.value) else sum);
    }
  }

  /**
   With storage and rate fixed, n ticks lower balance minus unbilled by n hourly charges, however sweeps
   (failing or not) and other users' ticks interleave.
  */
  lemma {:induction false} MeterBurnsLinearly(t: Tables, ops: seq<Op>, user: string, charge: int, rate: int,
      baseline: int)
    requires Performs(t, ops) && Metered(ops, user, rate, baseline) && user in t.users && user != ""
    requires charge == TickCharge(t, user, rate, baseline)
    ensures var t' := Run(t, ops);
            && t'.users == t.users
            && Net(t', user) == Net(t, user) - Ticks(ops, user) * charge
            && (Unbilled(t, user) >= 0 ==> Unbilled(t', user) >= 0)
    decreases |ops|
  {
    if ops != [] {
      MeteredStep(t, ops[0], user, charge, rate, baseline);
      var t1 := Step(t, ops[0]);
      TickChargeSame(t, t1, user, rate, baseline);
      MeterBurnsLinearly(t1, ops[1..], user, charge, rate, baseline);
      OneMore(Ticks(ops[1..], user), charge);
    }
  }

  lemma TickChargeSame(t: Tables, t': Tables, user: string, rate: int, baseline: int)
    requires t'.users == t.users && user in t.users
    ensures TickCharge(t', user, rate, baseline) == TickCharge(t, user, rate, baseline)
  {
  }

  lemma FinalSweepEmpties(t: Tables, queue: seq<Due>, rate: int, now: int, faultsOf: map<string, Faults>, user: string)
    requires ListsDue(t, queue) && FaultsOf(faultsOf, user) == {} && Unbilled(t, user) >= 0
    ensures Unbilled(Sweep(t, queue, rate, now, faultsOf, ZERO).0, user) == 0
  {
    DueReadAs(t, queue, user);
    SweepConserves(t, queue, rate, now, faultsOf, ZERO, user);
    if Unbilled(t, user) > 0 {
      var k :| 0 <= k < |queue| && queue[k].user == user;
      SweepEmpties(t, queue, rate, now, faultsOf, ZERO, k);
    }
  }

  /**
   The runway agrees with the meter: from a swept, nonnegative balance, the projected hours are the
   greatest number of ticks that, followed by a sweep, leave the balance nonnegative.
  */
  lemma RunwayIsExact(t: Tables, ops: seq<Op>, last: Op, user: string, rate: int, baseline: int)
    requires user in t.users && user != "" && Unbilled(t, user) == 0
    requires Projected(t, user, rate, true, baseline).Lasts?
    requires Performs(t, ops) && Metered(ops, user, rate, baseline)
    requires last.SweepOp? && Possible(Run(t, ops), last) && FaultsOf(last.faultsOf, user) == {}
    ensures Balance(Step(Run(t, ops), last), user) >= 0
       <==> Ticks(ops, user) <= Projected(t, user, rate, true, baseline).hours
  {
    var charge := TickCharge(t, user, rate, baseline);
    MeterBurnsLinearly(t, ops, user, charge, rate, baseline);
    var t' := Run(t, ops);
    SweepStep(t', last, user);
    FinalSweepEmpties(t', last.queue, last.hourly, last.now, last.faultsOf, user);
    assert Balance(Step(t', last), user) == Balance(t, user) - Ticks(ops, user) * charge;
    DivideExact(Balance(t, user), charge, Ticks(ops, user));
  }

  lemma DivideExact(b: nat, c: nat, n: nat)
    requires c > 0
    ensures b - n * c >= 0 <==> n <= b / c
  {
    var q := b / c;
    assert b == q * c + b % c;
    if n <= q {
      assert n * c <= q * c;
    } else {
      assert n * c >= (q + 1) * c;
    }
  }
}
