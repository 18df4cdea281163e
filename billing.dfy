/** Parking fees: `max(1, int(elapsed_seconds / 3600)) * rate`, the formula of
    car_exit.py (rate 200) and of process_payment.py and payment_success.py
    (rate 500). `int()` truncates toward zero: the hours are NOT rounded up. */
module Billing {

  const ExitRatePerHour: nat := 200
  const PaymentRatePerHour: nat := 500

  /** `int(x / 3600)` for a whole number of seconds x: division truncated toward zero. */
  function TruncHours(elapsed: int): int
  {
    if elapsed >= 0 then elapsed / 3600 else -((-elapsed) / 3600)
  }

  /** `max(1, int(elapsed / 3600))` */
  function BilledHours(elapsed: int): (h: nat)
    ensures h >= 1
  {
    var t := TruncHours(elapsed);
    if t > 1 then t else 1
  }

  /** The fee for `elapsed` seconds at `rate` per hour. */
  function Fee(elapsed: int, rate: nat): (fee: nat)
    ensures fee >= rate
  {
    BilledHours(elapsed) * rate
  }

  /** The fee counts whole hours: k full hours (k >= 1) cost k times the rate, until
      the next full hour is reached; anything under two hours, including a negative
      duration from a clock that went back, costs one hour. */
  lemma FeeWholeHours(elapsed: int, rate: nat, k: nat)
    ensures elapsed < 2 * 3600 ==> Fee(elapsed, rate) == rate
    ensures k >= 1 && k * 3600 <= elapsed < (k + 1) * 3600 ==> Fee(elapsed, rate) == k * rate
  {
    if k >= 1 && k * 3600 <= elapsed < (k + 1) * 3600 {
      assert elapsed / 3600 == k;
    }
  }

  lemma TruncHoursMonotonic(e1: int, e2: int)
    requires e1 <= e2
    ensures TruncHours(e1) <= TruncHours(e2)
  {
    if e1 < 0 && e2 >= 0 {
      assert TruncHours(e1) <= 0 <= TruncHours(e2);
    } else if e1 < 0 {
      assert (-e2) / 3600 <= (-e1) / 3600;
    }
  }

  lemma MulMonotonic(a: nat, b: nat, c: nat)
    requires a <= b
    ensures a * c <= b * c
  {
  }

  /** A longer stay never costs less. */
  lemma FeeMonotonic(e1: int, e2: int, rate: nat)
    requires e1 <= e2
    ensures Fee(e1, rate) <= Fee(e2, rate)
  {
    TruncHoursMonotonic(e1, e2);
    MulMonotonic(BilledHours(e1), BilledHours(e2), rate);
  }

  /** The clock's fraction of a second cannot change the fee: with `frac` millionths
      of a second added to a whole number of seconds, the hours billed stay the same. */
  lemma FeeIgnoresMicroseconds(elapsed: int, frac: nat, rate: nat)
    requires frac < 1000000
    ensures BilledHours(elapsed) ==
            (var us := elapsed * 1000000 + frac;
             var t := if us >= 0 then us / 3600000000 else -((-us) / 3600000000);
             if t > 1 then t else 1)
  {
    var us := elapsed * 1000000 + frac;
    if elapsed >= 0 {
      assert us / 3600000000 == elapsed / 3600;
    }
  }
}
