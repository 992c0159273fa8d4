/** Gregorian dates from day counts. Day 0 is 1 January 1970. */
module Calendar {
  datatype Date = Date(year: nat, month: nat, day: nat)

  predicate IsLeap(y: nat) { (y % 4 == 0 && y % 100 != 0) || y % 400 == 0 }

  function YearLength(y: nat): nat { if IsLeap(y) then 366 else 365 }

  function MonthLengths(y: nat): (lengths: seq<nat>)
    ensures |lengths| == 12
  {
    [31, if IsLeap(y) then 29 else 28, 31, 30, 31, 30, 31, 31, 30, 31, 30, 31]
  }

  predicate IsValid(d: Date) {
    1 <= d.month <= 12 && 1 <= d.day <= MonthLengths(d.year)[d.month - 1]
  }

  // Distance from the epoch in closed form

  /** Leap years up to and including `y`. */
  function LeapsUntil(y: int): int { y / 4 - y / 100 + y / 400 }

  function DaysBeforeYear(y: nat): int { 365 * (y - 1970) + LeapsUntil(y - 1) - LeapsUntil(1969) }

  function DaysBeforeMonth(y: nat, month: nat): int {
    (367 * month - 362) / 12 - (if month <= 2 then 0 else if IsLeap(y) then 1 else 2)
  }

  function DayCount(d: Date): int { DaysBeforeYear(d.year) + DaysBeforeMonth(d.year, d.month) + d.day - 1 }

  lemma NextYear(y: nat)
    ensures DaysBeforeYear(y + 1) == DaysBeforeYear(y) + YearLength(y)
  {
    hide LeapsUntil, IsLeap;
    OneMoreLeap(y);
  }

  lemma OneMoreLeap(y: nat)
    ensures LeapsUntil(y) - LeapsUntil(y - 1) == if IsLeap(y) then 1 else 0
  {
    OneMoreMultiple(y, 4);
    OneMoreMultiple(y, 100);
    OneMoreMultiple(y, 400);
    Multiples(y);
  }

  lemma Multiples(y: nat)
    ensures (y % 400 == 0 ==> y % 100 == 0) && (y % 100 == 0 ==> y % 4 == 0)
  {
    assert y % 400 == 0 ==> y == 100 * (4 * (y / 400));
    assert y % 100 == 0 ==> y == 4 * (25 * (y / 100));
  }

  lemma OneMoreMultiple(n: int, k: int)
    requires k == 4 || k == 100 || k == 400
    ensures n / k - (n - 1) / k == if n % k == 0 then 1 else 0
  {
  }

  lemma NextMonth(y: nat, month: nat)
    requires 1 <= month <= 12
    ensures DaysBeforeMonth(y, 1) == 0
    ensures month < 12 ==> DaysBeforeMonth(y, month + 1) == DaysBeforeMonth(y, month) + MonthLengths(y)[month - 1]
    ensures month == 12 ==> DaysBeforeMonth(y, month) + MonthLengths(y)[month - 1] == YearLength(y)
  {
  }

  /** The date of a day count: valid, and that many days from the epoch. The month loop
      never runs past December. */
  method DaysToYmd(days: nat) returns (date: Date)
    ensures IsValid(date) && DayCount(date) == days && date.year >= 1970
  {
    hide DaysBeforeYear, DaysBeforeMonth, IsLeap;
    var left, y := days, 1970;
    assert DaysBeforeYear(1970) == 0 by { EpochIsZero(); }
    while true
      invariant DaysBeforeYear(y) + left == days && y >= 1970 && left >= 0
      decreases left
    {
      var length := if IsLeap(y) then 366 else 365;
      if left < length {
        break;
      }
      NextYear(y);
      left := left - length;
      y := y + 1;
    }
    var lengths := MonthLengths(y);
    var month := 1;
    NextMonth(y, 1);
    while month <= 12
      invariant 1 <= month <= 12 && 0 <= left < YearLength(y) - DaysBeforeMonth(y, month)
      invariant DaysBeforeYear(y) + DaysBeforeMonth(y, month) + left == days
      decreases 12 - month
    {
      NextMonth(y, month);
      if left < lengths[month - 1] {
        break;
      }
      left := left - lengths[month - 1];
      month := month + 1;
    }
    date := Date(y, month, left + 1);
  }

  lemma EpochIsZero()
    ensures DaysBeforeYear(1970) == 0
  {
  }

  // Days and dates correspond

  predicate Before(a: Date, b: Date) {
    || a.year < b.year
    || (a.year == b.year && (a.month < b.month || (a.month == b.month && a.day < b.day)))
  }

  lemma {:induction false} LaterYear(y: nat, z: nat)
    requires y < z
    ensures DaysBeforeYear(y) + YearLength(y) <= DaysBeforeYear(z)
    decreases z
  {
    NextYear(z - 1);
    if y < z - 1 {
      LaterYear(y, z - 1);
    }
  }

  lemma {:induction false} LaterMonth(y: nat, m: nat, n: nat)
    requires 1 <= m < n <= 12
    ensures DaysBeforeMonth(y, m) + MonthLengths(y)[m - 1] <= DaysBeforeMonth(y, n)
    decreases n
  {
    NextMonth(y, n - 1);
    if m < n - 1 {
      LaterMonth(y, m, n - 1);
    }
  }

  lemma WithinYear(d: Date)
    requires IsValid(d)
    ensures 0 <= DaysBeforeMonth(d.year, d.month) + d.day - 1 < YearLength(d.year)
  {
    hide DaysBeforeMonth, IsLeap;
    NextMonth(d.year, d.month);
    NextMonth(d.year, 12);
    if d.month < 12 {
      LaterMonth(d.year, d.month, 12);
    }
    if 1 < d.month {
      LaterMonth(d.year, 1, d.month);
    }
  }

  lemma EarlierHasFewerDays(a: Date, b: Date)
    requires IsValid(a) && IsValid(b) && Before(a, b)
    ensures DayCount(a) < DayCount(b)
  {
    hide DaysBeforeYear, DaysBeforeMonth, IsLeap;
    if a.year < b.year {
      LaterYear(a.year, b.year);
      WithinYear(a);
      WithinYear(b);
    } else if a.month < b.month {
      LaterMonth(a.year, a.month, b.month);
    }
  }

  /** Valid dates are ordered as their day counts are; so a day count has one date, and
      later days have later dates. */
  lemma DatesFollowDays(a: Date, b: Date)
    requires IsValid(a) && IsValid(b)
    ensures Before(a, b) <==> DayCount(a) < DayCount(b)
    ensures DayCount(a) == DayCount(b) ==> a == b
  {
    hide DayCount, IsValid;
    if Before(a, b) {
      EarlierHasFewerDays(a, b);
    } else if Before(b, a) {
      EarlierHasFewerDays(b, a);
    }
  }
}
