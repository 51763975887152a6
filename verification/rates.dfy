/** billing/rates.go: the hourly rate of a price, and what a month of charges comes to. */
module Rates {
  import opened Prelude
  import opened Metering

  const HOURS_PER_MONTH: int := 720

  /** Microcents per GiB and hour from microcents per TiB and month; a price that is not positive is refused. */
  function ComputeRate(price: int): (rate: Option<int>)
    ensures rate.Some? <==> price > 0
    ensures price > 0 ==> rate == Some(price / 737280)
  {
    if price <= 0 then None else
      NestedFloor(price);
      Some(price / 1024 / HOURS_PER_MONTH)
  }

  lemma NestedFloor(price: nat)
    ensures price / 1024 / 720 == price / 737280
  {
    var q := price / 737280;
    var rest := price % 737280;
    assert price == 1024 * (720 * q + rest / 1024) + rest % 1024;
    assert price / 1024 == 720 * q + rest / 1024;
    assert rest / 1024 < 720;
  }

  /**
   A month of hourly charges for b billable bytes at price p stays at or below the exact price b*p/2^40
   and less than 720*(b/2^30 + 1) under it, both bounds multiplied by 2^40, as long as the product fits.
  */
  lemma MonthlyBillTwoSided(price: nat, billable: nat)
    requires price > 0 && billable * ComputeRate(price).value < TWO_63
    ensures var total := HOURS_PER_MONTH * HourlyCharge(billable, ComputeRate(price).value);
            && total * TWO_40 <= billable * price
            && billable * price - total * TWO_40 < HOURS_PER_MONTH * (billable * 1024 + TWO_40)
  {
    var rate := ComputeRate(price).value;
    var product := billable * rate;
    var charge := HourlyCharge(billable, rate);
    HourlyChargeExactIff(billable, rate);
    assert charge * TWO_30 <= product < (charge + 1) * TWO_30;
    // price lies within one step of 737280 * rate, and so do the multiples of both by the bytes.
    assert 737280 * rate <= price < 737280 * rate + 737280;
    MulBetween(billable, 737280 * rate, price, 737280);
    assert billable * (737280 * rate) == 737280 * product by { MulSwap(billable, 737280, rate); }
    assert 737280 * (charge * TWO_30) <= 737280 * product < 737280 * ((charge + 1) * TWO_30);
  }

  lemma MulBetween(b: nat, low: int, x: int, step: int)
    requires low <= x < low + step
    ensures b * low <= b * x <= b * low + b * step
  {
    MulMonotone(b, low, x);
    MulMonotone(b, x, low + step);
    assert b * (low + step) == b * low + b * step;
  }

  lemma MulMonotone(b: nat, x: int, y: int)
    requires x <= y
    ensures b * x <= b * y
  {
  }

  lemma MulSwap(a: int, c: int, r: int)
    ensures a * (c * r) == c * (a * r)
  {
  }
}
