/**
 The calendar arithmetic of tpt-http-cache/src/time.rs against an independent definition of the Gregorian
 calendar: leap years, month lengths and the day after a date.
 */
module HttpDate {
  import Limbs

  datatype Date = Date(year: int, month: int, day: int)

  // ----- The Gregorian calendar -----

  predicate Leap(y: int)
  {
    y % 4 == 0 && (y % 100 != 0 || y % 400 == 0)
  }

  function MonthDays(y: int, m: int): (n: int)
  {
    if m == 2 then if Leap(y) then 29 else 28
    else if m == 4 || m == 6 || m == 9 || m == 11 then 30
    else 31
  }

  predicate ValidDate(t: Date)
  {
    1 <= t.month <= 12 && 1 <= t.day <= MonthDays(t.year, t.month)
  }

  function Tomorrow(t: Date): (n: Date)
  {
    if t.day < MonthDays(t.year, t.month) then Date(t.year, t.month, t.day + 1)
    else if t.month < 12 then Date(t.year, t.month + 1, 1)
    else Date(t.year + 1, 1, 1)
  }

  // ----- days_from_civil -----

  /** Division truncated toward zero. */
  function TruncDiv(a: int, b: int): (q: int)
    requires b > 0
  {
    if a >= 0 then a / b else -((-a) / b)
  }

  /** The year that starts in March, and the month counted from March. */
  function MarchYear(t: Date): (y: int)
  {
    if t.month <= 2 then t.year - 1 else t.year
  }

  function MarchMonth(m: int): (mp: int)
  {
    if m > 2 then m - 3 else m + 9
  }

  function DayOfYear(m: int, d: int): (doy: int)
  {
    (153 * MarchMonth(m) + 2) / 5 + d - 1
  }

  function DaysFromCivil(t: Date): (days: int)
  {
    var y := MarchYear(t);
    var era := TruncDiv(if y >= 0 then y else y - 399, 400);
    var yoe := y - era * 400;
    var doe := yoe * 365 + yoe / 4 - yoe / 100 + DayOfYear(t.month, t.day);
    era * 146097 + doe - 719468
  }

  /** Days before the March year `y`, by the leap-year rule. */
  function YearStart(y: int): (days: int)
  {
    365 * y + y / 4 - y / 100 + y / 400 - 719468
  }

  function DayCount(t: Date): (days: int)
  {
    YearStart(MarchYear(t)) + DayOfYear(t.month, t.day)
  }

  lemma DaysSplit(t: Date)
    ensures DaysFromCivil(t) == DayCount(t)
  {
    var y := MarchYear(t);
    var era := TruncDiv(if y >= 0 then y else y - 399, 400);
    assert era == y / 400;
    assert y / 4 == 100 * era + (y - 400 * era) / 4;
    assert y / 100 == 4 * era + (y - 400 * era) / 100;
  }

  /** A quotient grows by one at the multiples. */
  lemma NextQuotient(y: int, d: int)
    requires d > 0
    ensures (y + 1) / d - y / d == if (y + 1) % d == 0 then 1 else 0
  {
    var q, r := (y + 1) / d, (y + 1) % d;
    if r == 0 {
      assert (q - 1) * d == q * d - d;
      Limbs.DivModUnique(y, d, q - 1, d - 1);
    } else {
      Limbs.DivModUnique(y, d, q, r - 1);
    }
  }

  lemma Multiples(z: int)
    ensures (z % 100 == 0 ==> z % 4 == 0) && (z % 400 == 0 ==> z % 100 == 0)
  {
    if z % 100 == 0 { Limbs.DivModUnique(z, 4, 25 * (z / 100), 0); }
    if z % 400 == 0 { Limbs.DivModUnique(z, 100, 4 * (z / 400), 0); }
  }

  lemma YearLength(y: int)
    ensures YearStart(y + 1) - YearStart(y) == if Leap(y + 1) then 366 else 365
  {
    NextQuotient(y, 4);
    NextQuotient(y, 100);
    NextQuotient(y, 400);
    Multiples(y + 1);
  }

  /** Within a March year the day count runs through the months. */
  lemma MonthStep(y: int, m: int)
    requires 1 <= m <= 12 && m != 2
    ensures var next := if m == 12 then 1 else m + 1;
            DayOfYear(next, 1) == DayOfYear(m, MonthDays(y, m)) + 1
  {
    match m
    case 1 => case 3 => case 4 => case 5 => case 6 => case 7 => case 8 => case 9 => case 10 => case 11 => case 12 =>
  }

  lemma TomorrowSplit(t: Date)
    requires ValidDate(t)
    ensures ValidDate(Tomorrow(t)) && DayCount(Tomorrow(t)) == DayCount(t) + 1
  {
    if t.day == MonthDays(t.year, t.month) {
      if t.month == 2 { YearLength(t.year - 1); } else { MonthStep(t.year, t.month); }
    }
  }

  /** The count advances by exactly one from every date to the next, across months, leap years and centuries. */
  lemma TomorrowCounts(t: Date)
    requires ValidDate(t)
    ensures ValidDate(Tomorrow(t)) && DaysFromCivil(Tomorrow(t)) == DaysFromCivil(t) + 1
  {
    DaysSplit(t);
    DaysSplit(Tomorrow(t));
    TomorrowSplit(t);
  }

  /** The count starts at the Unix epoch. */
  lemma EpochIsZero()
    ensures DaysFromCivil(Date(1970, 1, 1)) == 0
  {}

  // ----- Weekdays -----

  function Weekday(days: int): (w: int)
  {
    var x := days + 4;
    (x - 7 * TruncDiv(x, 7) + 7) % 7
  }

  function WeekdayIndex(t: Date): (w: int)
  {
    Weekday(DaysFromCivil(t))
  }

  /** Weekdays run through the week. */
  lemma WeekdaysRun(t: Date)
    requires ValidDate(t)
    ensures 0 <= WeekdayIndex(t) < 7 && WeekdayIndex(Tomorrow(t)) == (WeekdayIndex(t) + 1) % 7
  {
    TomorrowCounts(t);
    WeekShift(DaysFromCivil(t));
  }

  lemma EpochIsThursday()
    ensures WeekdayIndex(Date(1970, 1, 1)) == 4
  {
    EpochIsZero();
  }

  lemma WeekShift(n: int)
    ensures 0 <= Weekday(n) < 7 && Weekday(n + 1) == (Weekday(n) + 1) % 7
  {
    WeekdayIs(n, (n + 4) / 7);
    WeekdayIs(n + 1, (n + 5) / 7);
    assert n + 4 == 7 * ((n + 4) / 7) + (n + 4) % 7;
  }

  /** The weekday is the remainder of a division that rounds down. */
  lemma WeekdayIs(n: int, q: int)
    requires 7 * q <= n + 4 < 7 * q + 7
    ensures Weekday(n) == n + 4 - 7 * q
  {
    var x := n + 4;
    var p := (-x) / 7;
    assert x >= 0 ==> x / 7 == q;
    assert x < 0 ==> (p == -q || p == -q - 1);
  }

  // ----- The inverse used for formatting -----

  function YearOfEra(doe: int): (yoe: int)
  {
    (doe - doe / 1460 + doe / 36524) / 365
  }

  /** Days of an era before its year `k`. */
  function EraYear(k: int): (days: int)
  {
    365 * k + k / 4 - k / 100
  }

  function CivilFromDays(days: nat): (t: Date)
  {
    var z := days + 719468;
    var era := z / 146097;
    var doe := z - era * 146097;
    var yoe := YearOfEra(doe);
    var doy := doe - EraYear(yoe);
    var mp := (5 * doy + 2) / 153;
    var d := doy - (153 * mp + 2) / 5 + 1;
    var m := if mp < 10 then mp + 3 else mp - 9;
    var y := yoe + era * 400;
    Date(if m <= 2 then y + 1 else y, m, d)
  }

  /** The last day of a 400-year era, 29 February of a year divisible by 400. */
  predicate EraEnd(days: int)
  {
    (days + 719468) % 146097 == 146096
  }

  /** A day of an era by century, four-year group and day of the group. */
  lemma EraSplit(doe: int) returns (b: int, f: int, s: int)
    requires 0 <= doe < 146096
    ensures 0 <= b <= 3 && 0 <= f <= 24 && 0 <= s <= 1460 && doe == 36524 * b + 1461 * f + s
    ensures f == 24 ==> s < 1460
    ensures doe / 36524 == b
  {
    b := doe / 36524;
    f := (doe - 36524 * b) / 1461;
    s := doe - 36524 * b - 1461 * f;
  }

  function Quarter(s: int): (g: int)
  {
    if s / 365 < 3 then s / 365 else 3
  }

  lemma YearOfEraIs(doe: int, b: int, f: int, s: int)
    requires 0 <= b <= 3 && 0 <= f <= 24 && 0 <= s <= 1460 && doe == 36524 * b + 1461 * f + s && doe / 36524 == b
    ensures YearOfEra(doe) == 100 * b + 4 * f + Quarter(s)
  {
    var e := (24 * b + f + s) / 1460;
    assert doe / 1460 == 25 * b + f + e;
    assert e == if 24 * b + f + s < 1460 then 0 else 1;
    var rem := s - 365 * Quarter(s) - e;
    assert 0 <= rem < 365;
    assert doe - doe / 1460 + b == 365 * (100 * b + 4 * f + Quarter(s)) + rem;
  }

  lemma EraYearIs(b: int, f: int, g: int)
    requires 0 <= b <= 3 && 0 <= f <= 24 && 0 <= g <= 3
    ensures EraYear(100 * b + 4 * f + g) == 36524 * b + 1461 * f + 365 * g
    ensures EraYear(100 * b + 4 * f + g + 1)
         == if g < 3 then 36524 * b + 1461 * f + 365 * (g + 1) else if f < 24 then 36524 * b + 1461 * (f + 1) else 36524 * (b + 1)
  {
    var k := 100 * b + 4 * f + g;
    assert k / 100 == b && k / 4 == 25 * b + f;
  }

  /** The year found is the one the day lies in, but for the era's last day. */
  lemma YearOfEraFits(doe: int)
    requires 0 <= doe < 146096
    ensures var k := YearOfEra(doe); 0 <= k <= 399 && EraYear(k) <= doe < EraYear(k + 1)
  {
    var b, f, s := EraSplit(doe);
    YearOfEraIs(doe, b, f, s);
    EraYearIs(b, f, Quarter(s));
  }

  /** A day of a March year by month and day of the month. */
  lemma MonthFits(doy: int)
    requires 0 <= doy <= 365
    ensures var mp := (5 * doy + 2) / 153;
            var d, m := doy - (153 * mp + 2) / 5 + 1, if mp < 10 then mp + 3 else mp - 9;
            0 <= mp <= 11 && 1 <= m <= 12 && MarchMonth(m) == mp && DayOfYear(m, d) == doy && 1 <= d
            && (m != 2 ==> d <= MonthDays(0, m)) && (m == 2 ==> d == doy - 336)
  {
    var mp := (5 * doy + 2) / 153;
    assert 0 <= mp <= 11;
    assert 153 * mp <= 5 * doy + 2 < 153 * mp + 153;
    match mp
    case 0 => case 1 => case 2 => case 3 => case 4 => case 5 => case 6 => case 7 => case 8 => case 9 => case 10 => case 11 =>
  }

  lemma EraYears(era: int, k: int)
    requires 0 <= k <= 399
    ensures YearStart(k + era * 400) == era * 146097 + EraYear(k) - 719468
  {
    var y := k + era * 400;
    Limbs.DivModUnique(y, 4, 100 * era + k / 4, k % 4);
    Limbs.DivModUnique(y, 100, 4 * era + k / 100, k % 100);
    Limbs.DivModUnique(y, 400, era, k);
  }

  /** A March year of 366 days ends in a leap year's February. */
  lemma LongYear(era: int, k: int)
    requires 0 <= k <= 399
    ensures EraYear(k + 1) - EraYear(k) <= 366
    ensures EraYear(k + 1) - EraYear(k) == 366 ==> Leap(k + era * 400 + 1)
  {
    var n := k + 1;
    NextQuotient(k, 4);
    NextQuotient(k, 100);
    if n % 4 == 0 && n % 100 != 0 { LeapInEra(era, n); }
  }

  lemma LeapInEra(era: int, n: int)
    requires n % 4 == 0 && n % 100 != 0
    ensures Leap(n + era * 400)
  {
    Limbs.DivModUnique(n + era * 400, 4, n / 4 + 100 * era, 0);
    Limbs.DivModUnique(n + era * 400, 100, n / 100 + 4 * era, n % 100);
  }

  /** Formatting finds the date of the day, except on the last day of an era. */
  lemma CivilInverse(days: nat)
    requires !EraEnd(days)
    ensures ValidDate(CivilFromDays(days)) && DaysFromCivil(CivilFromDays(days)) == days
  {
    var z := days + 719468;
    var era, t := z / 146097, CivilFromDays(days);
    var doe := z - era * 146097;
    YearOfEraFits(doe);
    var k := YearOfEra(doe);
    var doy := doe - EraYear(k);
    LongYear(era, k);
    MonthFits(doy);
    DateFits(doy, k + era * 400, t);
    EraYears(era, k);
    DaysSplit(t);
  }

  /** The date of the day `doy` of the March year `y`. */
  lemma DateFits(doy: int, y: int, t: Date)
    requires 0 <= doy <= 365 && (doy == 365 ==> Leap(y + 1))
    requires var mp := (5 * doy + 2) / 153;
             var m := if mp < 10 then mp + 3 else mp - 9;
             t == Date(if m <= 2 then y + 1 else y, m, doy - (153 * mp + 2) / 5 + 1)
    ensures ValidDate(t) && MarchYear(t) == y && DayOfYear(t.month, t.day) == doy
  {
    MonthFits(doy);
  }

  /** The year of the era comes out as 400, with no day left. */
  lemma EraEndFound(days: nat, era: int)
    requires era == (days + 719468) / 146097 && EraEnd(days)
    ensures CivilFromDays(days) == Date(400 * (era + 1), 3, 1)
  {
    var doe := days + 719468 - era * 146097;
    assert doe == 146096;
    assert YearOfEra(146096) == 400 && EraYear(400) == 146097 - 1;
  }

  /** On that day, a 29 February, the date found is the day after. */
  lemma EraEndIsOffByOne(days: nat)
    requires EraEnd(days)
    ensures var y := 400 * ((days + 719468) / 146097 + 1);
            DaysFromCivil(Date(y, 2, 29)) == days && CivilFromDays(days) == Date(y, 3, 1)
            && DaysFromCivil(CivilFromDays(days)) == days + 1
  {
    var era := (days + 719468) / 146097;
    EraYears(era, 399);
    EraYears(era + 1, 0);
    DaysSplit(Date(400 * (era + 1), 2, 29));
    DaysSplit(Date(400 * (era + 1), 3, 1));
    EraEndFound(days, era);
  }

  /** The exact condition. */
  lemma CivilInverseIff(days: nat)
    ensures DaysFromCivil(CivilFromDays(days)) == days <==> !EraEnd(days)
  {
    if EraEnd(days) { EraEndIsOffByOne(days); } else { CivilInverse(days); }
  }
}
