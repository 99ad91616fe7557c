/** The epoch-to-calendar loops of Rust and Swift, against closed forms of the Gregorian calendar. */
module Calendar {
  import opened Bytes

  datatype Utc = Utc(year: nat, month: nat, day: nat, hour: nat, minute: nat, second: nat)

  predicate IsLeap(y: nat) { (y % 4 == 0 && y % 100 != 0) || y % 400 == 0 }

  function YearDays(y: nat): (n: nat) { if IsLeap(y) then 366 else 365 }

  /** The month table of both programs. */
  function Months(leap: bool): (ms: seq<nat>)
    ensures |ms| == 12
  {
    [31, if leap then 29 else 28, 31, 30, 31, 30, 31, 31, 30, 31, 30, 31]
  }

  // ----- counting back, without loops -----

  /** Leap years from year 1 up to and not including `y`. */
  function LeapsBefore(y: nat): (n: int)
    requires y > 0
  {
    (y - 1) / 4 - (y - 1) / 100 + (y - 1) / 400
  }

  function DaysBeforeYear(y: nat): (n: int)
    requires y >= 1970
  {
    365 * (y - 1970) + LeapsBefore(y) - LeapsBefore(1970)
  }

  /** Days of the year before month `m`, by the formula of the proleptic calendar. */
  function DaysBeforeMonth(leap: bool, m: nat): (n: int)
    requires 1 <= m <= 13
  {
    (367 * m - 362) / 12 + (if m <= 2 then 0 else if leap then -1 else -2)
  }

  predicate ValidUtc(u: Utc) {
    u.year >= 1970 && 1 <= u.month <= 12 && 1 <= u.day <= Months(IsLeap(u.year))[u.month - 1]
    && u.hour < 24 && u.minute < 60 && u.second < 60
  }

  function DayNumber(u: Utc): (n: int)
    requires ValidUtc(u)
  {
    DaysBeforeYear(u.year) + DaysBeforeMonth(IsLeap(u.year), u.month) + u.day - 1
  }

  function TimeOfDay(u: Utc): (n: nat) { 3600 * u.hour + 60 * u.minute + u.second }

  function Seconds(u: Utc): (n: int)
    requires ValidUtc(u)
  {
    86400 * DayNumber(u) + TimeOfDay(u)
  }

  // ----- the closed forms agree with the tables -----

  lemma NextYear(y: nat)
    requires y >= 1970
    ensures DaysBeforeYear(y + 1) == DaysBeforeYear(y) + YearDays(y)
  {
    assert y / 4 - (y - 1) / 4 == if y % 4 == 0 then 1 else 0;
    assert y / 100 - (y - 1) / 100 == if y % 100 == 0 then 1 else 0;
    assert y / 400 - (y - 1) / 400 == if y % 400 == 0 then 1 else 0;
    assert y % 400 == 0 ==> y % 100 == 0 && y % 4 == 0;
    assert y % 100 == 0 ==> y % 4 == 0;
  }

  lemma NextMonth(leap: bool, m: nat)
    requires 1 <= m <= 12
    ensures DaysBeforeMonth(leap, m + 1) == DaysBeforeMonth(leap, m) + Months(leap)[m - 1]
    ensures DaysBeforeMonth(leap, 1) == 0
    ensures DaysBeforeMonth(leap, 13) == if leap then 366 else 365
  {
  }

  lemma {:induction false} YearsIncrease(y: nat, z: nat)
    requires 1970 <= y <= z
    ensures DaysBeforeYear(y) + 365 * (z - y) <= DaysBeforeYear(z)
    decreases z - y
  {
    if y < z {
      NextYear(y);
      YearsIncrease(y + 1, z);
    }
  }

  lemma {:induction false} MonthsIncrease(leap: bool, m: nat, n: nat)
    requires 1 <= m <= n <= 13
    ensures DaysBeforeMonth(leap, m) + 28 * (n - m) <= DaysBeforeMonth(leap, n)
    decreases n - m
  {
    if m < n {
      NextMonth(leap, m);
      MonthsIncrease(leap, m + 1, n);
    }
  }

  // ----- the loops -----

  /** The year loop: what is left is a day of that year. */
  method YearOf(days: nat) returns (y: nat, d: nat)
    ensures y >= 1970 && d < YearDays(y) && DaysBeforeYear(y) + d == days
  {
    hide DaysBeforeYear, IsLeap;
    y, d := 1970, days;
    assert DaysBeforeYear(1970) == 0 by { FirstYear(); }
    while true
      invariant y >= 1970 && DaysBeforeYear(y) + d == days
      decreases d
    {
      var dy := if IsLeap(y) then 366 else 365;
      if d < dy { break; }
      NextYear(y);
      d := d - dy;
      y := y + 1;
    }
  }

  lemma FirstYear()
    ensures DaysBeforeYear(1970) == 0
  {
  }

  /** The month loop: it always stops at a month of the table, so the month never reaches 13. */
  method MonthOf(leap: bool, dayOfYear: nat) returns (mo: nat, d: nat)
    requires dayOfYear < if leap then 366 else 365
    ensures 1 <= mo <= 12 && d < Months(leap)[mo - 1] && DaysBeforeMonth(leap, mo) + d == dayOfYear
  {
    hide DaysBeforeMonth;
    mo, d := 1, dayOfYear;
    var months := Months(leap);
    NextMonth(leap, 1);
    var i := 0;
    while i < |months|
      invariant 0 <= i <= 12 && mo == i + 1 && months == Months(leap)
      invariant DaysBeforeMonth(leap, mo) + d == dayOfYear
    {
      if d < months[i] { return; }
      NextMonth(leap, i + 1);
      d := d - months[i];
      mo := mo + 1;
      i := i + 1;
    }
  }

  /** Rust's `unix_to_utc`. The day number is cast to 32 bits, so the result counts back to the argument
      iff the day number fits; it is a valid date and time in any case. */
  method UnixToUtc(secs: nat) returns (u: Utc)
    requires secs < TWO_64
    ensures ValidUtc(u) && u.year < TWO_32
    ensures Seconds(u) == 86400 * ((secs / 86400) % TWO_32) + secs % 86400
    ensures Seconds(u) == secs <==> secs / 86400 < TWO_32
  {
    hide DaysBeforeYear, DaysBeforeMonth, IsLeap, Months;
    var days := (secs / 86400) % TWO_32;
    var rem := secs % 86400;
    var h, mi, s := rem / 3600, (rem % 3600) / 60, rem % 60;
    var y, doy := YearOf(days);
    var mo, d := MonthOf(IsLeap(y), doy);
    u := Utc(y, mo, d + 1, h, mi, s);
    YearFits(y, doy, days);
    ClockFields(rem);
    assert secs == 86400 * (secs / 86400) + secs % 86400;
  }

  lemma YearFits(y: nat, d: nat, days: nat)
    requires y >= 1970 && days < TWO_32 && DaysBeforeYear(y) + d == days
    ensures y < TWO_32
  {
    hide DaysBeforeYear;
    FirstYear();
    YearsIncrease(1970, y);
  }

  lemma ClockFields(rem: nat)
    requires rem < 86400
    ensures rem / 3600 < 24 && (rem % 3600) / 60 < 60 && rem % 60 < 60
    ensures 3600 * (rem / 3600) + 60 * ((rem % 3600) / 60) + rem % 60 == rem
    ensures (rem / 60) % 60 == (rem % 3600) / 60
  {
    var h := rem / 3600;
    var m := (rem % 3600) / 60;
    var s := rem % 3600 - 60 * m;
    assert rem == 3600 * h + 60 * m + s && 0 <= s < 60 && m < 60;
    ModUnique(rem, 60 * h + m, 60, s);
    ModUnique(60 * h + m, h, 60, m);
  }

  /** Swift's `nowISO` fields, for a non-negative second count; its integers are 64 bits wide. */
  method SwiftFields(secs: nat) returns (u: Utc)
    ensures ValidUtc(u) && Seconds(u) == secs
  {
    hide DaysBeforeYear, DaysBeforeMonth, IsLeap, Months;
    var dayNum := secs / 86400;
    var rem := secs % 86400;
    var h, m, s := rem / 3600, (rem / 60) % 60, rem % 60;
    var y, doy := YearOf(dayNum);
    var month, d := MonthOf(IsLeap(y), doy);
    u := Utc(y, month, d + 1, h, m, s);
    ClockFields(rem);
  }

  // ----- order -----

  /** Lexicographic order of the fields. */
  predicate Before(u: Utc, v: Utc) {
    u.year < v.year || (u.year == v.year && (u.month < v.month || (u.month == v.month && (u.day < v.day ||
      (u.day == v.day && (u.hour < v.hour || (u.hour == v.hour && (u.minute < v.minute ||
        (u.minute == v.minute && u.second < v.second)))))))))
  }

  /** The day number stays within its month and its year. */
  lemma DayBounds(u: Utc)
    requires ValidUtc(u)
    ensures DaysBeforeYear(u.year) <= DayNumber(u) < DaysBeforeYear(u.year + 1)
    ensures var leap := IsLeap(u.year);
            DaysBeforeMonth(leap, u.month) <= DayNumber(u) - DaysBeforeYear(u.year) < DaysBeforeMonth(leap, u.month + 1)
  {
    hide DaysBeforeYear, DaysBeforeMonth, IsLeap;
    var leap := IsLeap(u.year);
    NextYear(u.year);
    NextMonth(leap, u.month);
    MonthsIncrease(leap, 1, u.month);
    MonthsIncrease(leap, u.month + 1, 13);
  }

  lemma DayOrder(u: Utc, v: Utc)
    requires ValidUtc(u) && ValidUtc(v)
    requires u.year < v.year || (u.year == v.year && (u.month < v.month || (u.month == v.month && u.day < v.day)))
    ensures DayNumber(u) < DayNumber(v)
  {
    hide DaysBeforeYear, DaysBeforeMonth, IsLeap, Months;
    DayBounds(u);
    DayBounds(v);
    if u.year < v.year {
      YearsIncrease(u.year + 1, v.year);
    } else if u.month < v.month {
      MonthsIncrease(IsLeap(u.year), u.month + 1, v.month);
    }
  }

  /** Later seconds have later fields, and only they do. */
  lemma SecondsOrder(u: Utc, v: Utc)
    requires ValidUtc(u) && ValidUtc(v)
    ensures Before(u, v) <==> Seconds(u) < Seconds(v)
    ensures Seconds(u) == Seconds(v) ==> u == v
  {
    hide DayNumber, Months;
    if Before(u, v) { BeforeSeconds(u, v); }
    if Before(v, u) { BeforeSeconds(v, u); }
    if !Before(u, v) && !Before(v, u) { assert u == v; }
  }

  lemma BeforeSeconds(u: Utc, v: Utc)
    requires ValidUtc(u) && ValidUtc(v) && Before(u, v)
    ensures Seconds(u) < Seconds(v)
  {
    hide DayNumber, Months;
    if u.year == v.year && u.month == v.month && u.day == v.day {
      SameDay(u, v);
    } else {
      DayOrder(u, v);
    }
  }

  lemma SameDay(u: Utc, v: Utc)
    requires ValidUtc(u) && ValidUtc(v) && u.year == v.year && u.month == v.month && u.day == v.day
    ensures DayNumber(u) == DayNumber(v)
  {
  }

  /** Both programs give the same fields exactly where the day number fits 32 bits. */
  method SameFields(secs: nat) returns (rust: Utc, swift: Utc)
    requires secs < TWO_64
    ensures ValidUtc(rust) && ValidUtc(swift)
    ensures rust == swift <==> secs / 86400 < TWO_32
  {
    hide DayNumber, Months;
    rust := UnixToUtc(secs);
    swift := SwiftFields(secs);
    SecondsOrder(rust, swift);
  }

  /** Later seconds give later fields. */
  method LaterFields(secs: nat, later: nat) returns (u: Utc, v: Utc)
    requires secs < later < TWO_64 && later / 86400 < TWO_32
    ensures ValidUtc(u) && ValidUtc(v) && Before(u, v)
  {
    hide DayNumber, Before, Months;
    u := UnixToUtc(secs);
    v := UnixToUtc(later);
    assert secs / 86400 <= later / 86400;
    SecondsOrder(u, v);
  }
}
