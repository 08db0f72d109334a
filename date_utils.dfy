/**
 * Days remaining until a deadline and the three classifications built on it.
 * Instants are integer milliseconds since the epoch; a date string that does
 * not parse (JavaScript's Invalid Date, whose arithmetic yields NaN) is `None`.
 * `Math.ceil` of the quotient becomes integer ceiling division.
 */
module DateUtils {
  import opened Wrappers

  /** `1000 * 60 * 60 * 24`: milliseconds per day. */
  const MsPerDay: int := 1000 * 60 * 60 * 24

  /** `Math.ceil(a / b)` for a positive divisor: the least integer not below the exact quotient. */
  function CeilDiv(a: int, b: int): (q: int)
    requires b > 0
    ensures b * (q - 1) < a <= b * q
  {
    -((-a) / b)
  }

  /**
   * `getDaysRemaining`: the whole days from `now` to the deadline, rounded up,
   * so any positive fraction of a day counts as a full day; NaN (`None`) when
   * the deadline does not parse.
   */
  function DaysRemaining(target: Option<int>, now: int): (d: Option<int>)
    ensures d.Some? <==> target.Some?
    ensures target.Some? ==> MsPerDay * (d.value - 1) < target.value - now <= MsPerDay * d.value
  {
    match target
    case None => None
    case Some(t) => Some(CeilDiv(t - now, MsPerDay))
  }

  /** `isExpired`: the day count is below zero (NaN compares false). */
  predicate IsExpired(days: Option<int>) {
    days.Some? && days.value < 0
  }

  /** `isDueSoon`: the day count lies in 0..30 (NaN compares false); never together with expiry. */
  function IsDueSoon(days: Option<int>): (r: bool)
    ensures r <==> days.Some? && 0 <= days.value <= 30
    ensures r ==> !IsExpired(days)
  {
    days.Some? && days.value >= 0 && days.value <= 30
  }

  /**
   * `getStatusColor`: red exactly when expired, orange or yellow exactly when
   * due soon (orange for the last week), green otherwise, including NaN.
   */
  function StatusColor(days: Option<int>): (c: string)
    ensures c == "text-red-600" <==> IsExpired(days)
    ensures c == "text-orange-600" || c == "text-yellow-600" <==> IsDueSoon(days)
    ensures c == "text-orange-600" <==> days.Some? && 0 <= days.value <= 7
    ensures c == "text-green-600" <==> !IsExpired(days) && !IsDueSoon(days)
  {
    if days.Some? && days.value < 0 then "text-red-600"
    else if days.Some? && days.value <= 7 then "text-orange-600"
    else if days.Some? && days.value <= 30 then "text-yellow-600"
    else "text-green-600"
  }

  /**
   * A deadline counts as expired only once a full day has passed since it:
   * one up to a day in the past still has zero days remaining.
   */
  lemma ExpiredIffFullDayPassed(target: int, now: int)
    ensures IsExpired(DaysRemaining(Some(target), now)) <==> target - now <= -MsPerDay
  {
    var d := DaysRemaining(Some(target), now).value;
    if d < 0 {
      assert MsPerDay * d <= MsPerDay * -1;
    } else {
      assert MsPerDay * d >= 0;
    }
  }

  /** A deadline is due soon exactly when it lies less than a day behind and at most thirty days ahead. */
  lemma DueSoonWindow(target: int, now: int)
    ensures IsDueSoon(DaysRemaining(Some(target), now)) <==> -MsPerDay < target - now <= 30 * MsPerDay
  {
    var d := DaysRemaining(Some(target), now).value;
    if d > 30 {
      assert MsPerDay * (d - 1) >= MsPerDay * 30;
    } else if d >= 0 {
      assert MsPerDay * d <= MsPerDay * 30;
      assert MsPerDay * (d - 1) >= MsPerDay * -1;
    } else {
      assert MsPerDay * d <= MsPerDay * -1;
    }
  }

  /** A later deadline never has fewer days remaining. */
  lemma DaysRemainingMonotone(t1: int, t2: int, now: int)
    requires t1 <= t2
    ensures DaysRemaining(Some(t1), now).value <= DaysRemaining(Some(t2), now).value
  {
    var d1 := DaysRemaining(Some(t1), now).value;
    var d2 := DaysRemaining(Some(t2), now).value;
    assert MsPerDay * (d1 - 1) < MsPerDay * d2;
  }

  /** An unparsable deadline is neither expired nor due soon and shows green. */
  lemma InvalidDateIsGreen(now: int)
    ensures !IsExpired(DaysRemaining(None, now)) && !IsDueSoon(DaysRemaining(None, now))
    ensures StatusColor(DaysRemaining(None, now)) == "text-green-600"
  {
  }
}
