/** Unix time and calendar dates (date_time.c), in the unsigned arithmetic of the source. */
module Dates {

  function U32(x: int): nat { x % 0x1_0000_0000 }
  function U16(x: int): nat { x % 0x1_0000 }
  function U8(x: int): nat { x % 0x100 }

  class DateTime {
    var year: nat
    var month: nat
    var day: nat
    var dayOfWeek: nat
    var hours: nat
    var minutes: nat
    var seconds: nat
    var milliseconds: nat

    ghost function Value(): Date
      reads this
    {
      Date(year, month, day, dayOfWeek, hours, minutes, seconds, milliseconds)
    }
  }

  datatype Date = Date(year: nat, month: nat, day: nat, dayOfWeek: nat, hours: nat, minutes: nat, seconds: nat,
                       milliseconds: nat)

  // ---------------------------------------------------------------- the calendar

  predicate LeapYear(y: nat) { y % 4 == 0 && (y % 100 != 0 || y % 400 == 0) }

  function MonthLength(y: nat, m: nat): nat {
    if m == 2 then (if LeapYear(y) then 29 else 28)
    else if m == 4 || m == 6 || m == 9 || m == 11 then 30
    else 31
  }

  predicate Gregorian(y: nat, m: nat, d: nat) { 1 <= m <= 12 && 1 <= d <= MonthLength(y, m) }

  function YearLength(y: nat): nat { if LeapYear(y) then 366 else 365 }

  // Days from the first of January 1970, counted year by year and month by month.
  function DaysBeforeYear(y: nat): nat {
    if y <= 1970 then 0 else DaysBeforeYear(y - 1) + YearLength(y - 1)
  }

  function DaysBeforeMonth(y: nat, m: nat): nat {
    if m <= 1 then 0 else DaysBeforeMonth(y, m - 1) + MonthLength(y, m - 1)
  }

  function DayNumber(y: nat, m: nat, d: nat): int { DaysBeforeYear(y) + DaysBeforeMonth(y, m) + d - 1 }

  // ---------------------------------------------------------------- the conversion

  // The auxiliary values of convertUnixTimeToDate for day n, without wrap-around.
  function A(n: nat): nat { (4 * n + 102032) / 146097 + 15 }
  function B(n: nat): nat { n + 2442113 + A(n) - A(n) / 4 }
  function C(n: nat): nat { (20 * B(n) - 2442) / 7305 }
  function D(n: nat): int { B(n) - 365 * C(n) - C(n) / 4 }
  function E(n: nat): int { D(n) * 1000 / 30601 }
  function F(n: nat): int { D(n) - E(n) * 30 - E(n) * 601 / 1000 }

  function YearOf(n: nat): int { if E(n) <= 13 then C(n) - 4716 else C(n) - 4715 }
  function MonthOf(n: nat): int { if E(n) <= 13 then E(n) - 1 else E(n) - 13 }

  // Zeller's congruence, for any year
  function ZellerDay(y: nat, m: nat, d: nat): (w: nat)
    requires y > 0
    ensures 1 <= w <= 7
  {
    var m1 := if m <= 2 then m + 12 else m;
    var y1 := if m <= 2 then y - 1 else y;
    var j, k := y1 / 100, y1 % 100;
    (d + 26 * (m1 + 1) / 10 + k + k / 4 + 5 * j + j / 4 + 5) % 7 + 1
  }

  // The day formula of convertDateToUnixTime
  function FormulaDays(y: nat, m: nat, d: nat): int
    requires y > 0
  {
    var m1 := if m <= 2 then m + 12 else m;
    var y1 := if m <= 2 then y - 1 else y;
    365 * y1 + y1 / 4 - y1 / 100 + y1 / 400 + 30 * m1 + 3 * (m1 + 1) / 5 + d - 719561
  }

  // a + 4 is the century of the year that starts in March.
  lemma CenturyOfYear(n: nat)
    ensures C(n) >= 4716 + 1969 && (C(n) - 4716) / 100 == A(n) + 4
  {
    var a4 := A(n) + 4;
    var q, r := a4 / 4, a4 % 4;
    assert A(n) / 4 == q - 1;
    assert 146097 * a4 <= 4 * n + 2877875 < 146097 * a4 + 146097;
    assert B(n) == n + 2442110 + a4 - q;
    assert 20 * B(n) - 2442 >= 7305 * (100 * a4 + 4716);
    assert 20 * B(n) - 2442 < 7305 * (100 * a4 + 4816);
  }

  // The day of the year that starts in March, counted from 123
  lemma DayOfYear(n: nat)
    ensures 123 <= D(n) <= 488
    ensures D(n) == 488 ==> C(n) % 4 == 3 && ((C(n) - 4715) % 100 == 0 ==> (C(n) - 4715) % 400 == 0)
  {
    hide A, B;
    var b, c := B(n), C(n);
    assert 7305 * c <= 20 * b - 2442 < 7305 * c + 7305;
    if D(n) == 488 {
      assert c % 4 == 3;
      LastDayOfCentury(n);
    }
  }

  // The year that ends a century has a 29th of February only once in four centuries.
  lemma LastDayOfCentury(n: nat)
    requires D(n) == 488 && C(n) % 4 == 3
    ensures (C(n) - 4715) % 100 == 0 ==> (C(n) - 4715) % 400 == 0
  {
    CenturyOfYear(n);
    var a4, c := A(n) + 4, C(n);
    if (c - 4715) % 100 == 0 {
      var q, r := a4 / 4, a4 % 4;
      assert A(n) / 4 == q - 1;
      assert c == 100 * a4 + 4815;
      assert 4 * n + 2877875 < 146097 * a4 + 146097;
      assert B(n) == n + 2442110 + a4 - q;
      assert r == 3;
    }
  }

  lemma MonthAndDay(d: int, e: int, f: int)
    requires 123 <= d <= 488 && e == d * 1000 / 30601 && f == d - e * 30 - e * 601 / 1000
    ensures 4 <= e <= 15 && 1 <= f <= 31
    ensures e == 5 || e == 7 || e == 10 || e == 12 ==> f <= 30
    ensures e == 15 ==> f == d - 459
    ensures e * 601 / 1000 == 3 * e / 5
  {
    assert 30601 * e <= 1000 * d < 30601 * e + 30601;
  }

  // The result is a date of the Gregorian calendar, not before 1970.
  lemma IsGregorian(n: nat)
    ensures YearOf(n) >= 1970 && MonthOf(n) >= 1 && F(n) >= 1
    ensures Gregorian(YearOf(n), MonthOf(n), F(n))
  {
    hide A, B, C, D;
    DayOfYear(n);
    MonthAndDay(D(n), E(n), F(n));
    CenturyOfYear(n);
    NotBefore1970(n);
    DateFound(C(n), D(n), E(n), F(n));
  }

  lemma DateFound(c: nat, d: int, e: int, f: int)
    requires c >= 6685 && (c == 6685 ==> e >= 14) && 4 <= e <= 15 && 1 <= f <= 31 && d <= 488
    requires e == 5 || e == 7 || e == 10 || e == 12 ==> f <= 30
    requires e == 15 ==> f == d - 459
    requires d == 488 ==> c % 4 == 3 && ((c - 4715) % 100 == 0 ==> (c - 4715) % 400 == 0)
    ensures
      var y, m := if e <= 13 then c - 4716 else c - 4715, if e <= 13 then e - 1 else e - 13;
      y >= 1970 && m >= 1 && Gregorian(y, m, f)
  {
    hide LeapYear;
    if e == 15 {
      February(c - 4715, f, d, c);
    }
  }

  lemma February(y: nat, f: int, d: int, c: nat)
    requires y == c - 4715 && f == d - 459 && d <= 488
    requires d == 488 ==> c % 4 == 3 && (y % 100 == 0 ==> y % 400 == 0)
    ensures f <= MonthLength(y, 2)
  {
  }

  lemma NotBefore1970(n: nat)
    ensures C(n) == 6685 ==> E(n) >= 14
  {
    if C(n) == 6685 {
      assert A(n) >= 15;
      assert D(n) >= 429;
    }
  }

  // And the day formula leads back to the day.
  lemma FormulaOfCivil(n: nat)
    ensures YearOf(n) > 0 && MonthOf(n) >= 1 && F(n) >= 1
    ensures FormulaDays(YearOf(n), MonthOf(n), F(n)) == n
  {
    IsGregorian(n);
    FormulaBack(n);
  }

  lemma FormulaBack(n: nat)
    requires YearOf(n) > 0 && MonthOf(n) >= 1 && F(n) >= 1
    ensures FormulaDays(YearOf(n), MonthOf(n), F(n)) == n
  {
    hide A, B, C, D;
    DayOfYear(n);
    MonthAndDay(D(n), E(n), F(n));
    CenturyOfYear(n);
    var y1, a4, e := C(n) - 4716, A(n) + 4, E(n);
    assert FormulaDays(YearOf(n), MonthOf(n), F(n))
      == 365 * y1 + y1 / 4 - y1 / 100 + y1 / 400 + 30 * (e - 1) + 3 * e / 5 + F(n) - 719561;
    Centuries(y1, a4);
    DayCounted(n, a4);
  }

  lemma Centuries(y1: nat, a4: nat)
    requires y1 / 100 == a4
    ensures y1 / 400 == a4 / 4 && (y1 + 4716) / 4 == y1 / 4 + 1179
  {
  }

  lemma DayCounted(n: nat, a4: nat)
    requires a4 == A(n) + 4
    ensures D(n) == n + 2442110 + a4 - a4 / 4 - 365 * C(n) - C(n) / 4
  {
    hide A, C;
  }

  // ---------------------------------------------------------------- the formula and the calendar

  lemma {:induction false} YearsCounted(y: nat)
    requires y >= 1970
    ensures DaysBeforeYear(y) == 365 * (y - 1) + (y - 1) / 4 - (y - 1) / 100 + (y - 1) / 400 - 719162
  {
    if y > 1970 {
      YearsCounted(y - 1);
      OneYear(y - 1);
    }
  }

  lemma OneYear(y: nat)
    requires y > 0
    ensures YearLength(y) == 365 + (y / 4 - (y - 1) / 4) - (y / 100 - (y - 1) / 100) + (y / 400 - (y - 1) / 400)
  {
    Multiple(y, 4);
    Multiple(y, 100);
    Multiple(y, 400);
    assert y % 400 == 0 ==> y % 100 == 0;
    assert y % 100 == 0 ==> y % 4 == 0;
  }

  lemma Multiple(y: nat, k: nat)
    requires y > 0 && (k == 4 || k == 100 || k == 400)
    ensures y / k - (y - 1) / k == if y % k == 0 then 1 else 0
  {
  }

  lemma MonthsCounted(y: nat, m: nat)
    requires 1 <= m <= 12
    ensures DaysBeforeMonth(y, m) ==
      if m <= 2 then 31 * (m - 1)
      else 30 * m + 3 * (m + 1) / 5 - 93 + 61 + (if LeapYear(y) then 0 else -1)
  {
    var leap := if LeapYear(y) then 29 else 28;
    assert DaysBeforeMonth(y, 1) == 0;
    assert DaysBeforeMonth(y, 2) == 31;
    assert DaysBeforeMonth(y, 3) == 31 + leap;
    assert DaysBeforeMonth(y, 4) == 62 + leap;
    assert DaysBeforeMonth(y, 5) == 92 + leap;
    assert DaysBeforeMonth(y, 6) == 123 + leap;
    assert DaysBeforeMonth(y, 7) == 153 + leap;
    assert DaysBeforeMonth(y, 8) == 184 + leap;
    assert DaysBeforeMonth(y, 9) == 215 + leap;
    assert DaysBeforeMonth(y, 10) == 245 + leap;
    assert DaysBeforeMonth(y, 11) == 276 + leap;
    assert DaysBeforeMonth(y, 12) == 306 + leap;
  }

  // For every date of the calendar from 1970 on the formula counts the days.
  lemma FormulaIsDayNumber(y: nat, m: nat, d: nat)
    requires y >= 1970 && Gregorian(y, m, d)
    ensures FormulaDays(y, m, d) == DayNumber(y, m, d)
  {
    hide DaysBeforeYear, DaysBeforeMonth, LeapYear;
    YearsCounted(y);
    MonthsCounted(y, m);
    if m > 2 {
      OneYear(y);
      YearLengthIs(y);
    }
  }

  lemma YearLengthIs(y: nat)
    ensures YearLength(y) == if LeapYear(y) then 366 else 365
  {
  }

  // The date computed for day n is the date that is n days after the first of January 1970.
  lemma CivilIsDay(n: nat)
    ensures YearOf(n) >= 1970 && MonthOf(n) >= 1 && F(n) >= 1
    ensures DayNumber(YearOf(n), MonthOf(n), F(n)) == n
  {
    hide YearOf, MonthOf, F, Gregorian, DayNumber, FormulaDays;
    IsGregorian(n);
    FormulaOfCivil(n);
    FormulaIsDayNumber(YearOf(n), MonthOf(n), F(n));
  }

  // ---------------------------------------------------------------- day of the week

  lemma Sevens(h: nat, n: int, q: int)
    requires n + 5 == h + 7 * q && n >= 0
    ensures (h + 5) % 7 == (n + 3) % 7
  {
  }

  // Zeller's congruence agrees with counting from the first of January 1970, a Thursday.
  lemma ZellerIsWeekday(y: nat, m: nat, d: nat)
    requires y > 0 && 1 <= m <= 12 && FormulaDays(y, m, d) >= 0
    ensures ZellerDay(y, m, d) == (FormulaDays(y, m, d) + 3) % 7 + 1
  {
    var m1 := if m <= 2 then m + 12 else m;
    var y1 := if m <= 2 then y - 1 else y;
    var j, k := y1 / 100, y1 % 100;
    var h := d + 26 * (m1 + 1) / 10 + k + k / 4 + 5 * j + j / 4;
    assert y1 == 100 * j + k;
    YearParts(y1, j, k);
    assert 26 * (m1 + 1) / 10 == 2 * (m1 + 1) + 3 * (m1 + 1) / 5;
    Sevens(h, FormulaDays(y, m, d), 5217 * j + 52 * k + 4 * m1 - 102794);
  }

  lemma YearParts(y1: nat, j: nat, k: nat)
    requires y1 == 100 * j + k && k < 100
    ensures y1 / 100 == j && y1 / 4 == 25 * j + k / 4 && y1 / 400 == j / 4
  {
  }

  // ---------------------------------------------------------------- one date, one day

  lemma {:induction false} YearsGrow(y: nat, z: nat)
    requires 1970 <= y <= z
    ensures DaysBeforeYear(y) <= DaysBeforeYear(z)
  {
    if y < z {
      YearsGrow(y, z - 1);
    }
  }

  lemma {:induction false} MonthsGrow(y: nat, m: nat, k: nat)
    requires 1 <= m <= k
    ensures DaysBeforeMonth(y, m) <= DaysBeforeMonth(y, k)
  {
    hide MonthLength;
    if m < k {
      MonthsGrow(y, m, k - 1);
    }
  }

  lemma WithinYear(y: nat, m: nat, d: nat)
    requires y >= 1970 && Gregorian(y, m, d)
    ensures DaysBeforeYear(y) <= DayNumber(y, m, d) < DaysBeforeYear(y + 1)
  {
    hide LeapYear;
    MonthsCounted(y, m);
    YearLengthIs(y);
  }

  // Different dates have different day numbers.
  lemma DateUnique(y: nat, m: nat, d: nat, y': nat, m': nat, d': nat)
    requires y >= 1970 && y' >= 1970 && Gregorian(y, m, d) && Gregorian(y', m', d')
    requires DayNumber(y, m, d) == DayNumber(y', m', d')
    ensures y == y' && m == m' && d == d'
  {
    hide MonthLength, DaysBeforeYear;
    WithinYear(y, m, d);
    WithinYear(y', m', d');
    if y < y' {
      YearsGrow(y + 1, y');
    } else if y' < y {
      YearsGrow(y' + 1, y);
    } else if m < m' {
      MonthsGrow(y, m + 1, m');
    } else if m' < m {
      MonthsGrow(y, m' + 1, m);
    }
  }

  // ---------------------------------------------------------------- as the machine computes

  function DayOfWeekOf(y: nat, m: nat, d: nat): nat {
    var m1 := if m <= 2 then m + 12 else m;
    var y1 := if m <= 2 then U16(y - 1) else y;
    var j, k := y1 / 100, y1 % 100;
    (d + 26 * (m1 + 1) / 10 + k + k / 4 + 5 * j + j / 4 + 5) % 7 + 1
  }

  // computeDayOfWeek: for the dates of the calendar from 1970 on, the day of the week.
  method ComputeDayOfWeek(y0: nat, m0: nat, d: nat) returns (w: nat)
    ensures w == DayOfWeekOf(y0, m0, d)
    ensures 1970 <= y0 <= 65535 && Gregorian(y0, m0, d) ==> w == (DayNumber(y0, m0, d) + 3) % 7 + 1
  {
    if 1970 <= y0 <= 65535 && Gregorian(y0, m0, d) {
      DayOfWeekIsWeekday(y0, m0, d);
    }
    hide DayNumber, Gregorian;
    var y, m := y0, m0;
    if m <= 2 {
      m := m + 12;
      y := U16(y as int - 1);
    }
    var j := y / 100;
    var k := y % 100;
    var h := d + 26 * (m + 1) / 10 + k + k / 4 + 5 * j + j / 4;
    w := (h + 5) % 7 + 1;
  }

  lemma WeekdayNarrowed(y: nat, m: nat, d: nat)
    requires 0 < y <= 65535
    ensures DayOfWeekOf(y, m, d) == ZellerDay(y, m, d)
  {
    hide U16;
    Small(y - 1);
  }

  lemma Small(x: int)
    ensures 0 <= x < 0x1_0000_0000 ==> U32(x) == x
    ensures 0 <= x < 0x1_0000 ==> U16(x) == x
    ensures 0 <= x < 0x100 ==> U8(x) == x
  {
  }

  lemma DayOfWeekIsWeekday(y: nat, m: nat, d: nat)
    requires 1970 <= y <= 65535 && Gregorian(y, m, d)
    ensures DayOfWeekOf(y, m, d) == (DayNumber(y, m, d) + 3) % 7 + 1
  {
    hide DayOfWeekOf, ZellerDay, DayNumber, FormulaDays;
    FormulaIsDayNumber(y, m, d);
    DayNumberNatural(y, m, d);
    ZellerIsWeekday(y, m, d);
    WeekdayNarrowed(y, m, d);
  }

  lemma DayNumberNatural(y: nat, m: nat, d: nat)
    requires Gregorian(y, m, d)
    ensures DayNumber(y, m, d) >= 0
  {
  }

  datatype Civil = Civil(year: nat, month: nat, day: nat)

  // The date of day n, with all conversions to narrower types.
  function CivilOf(n: nat): Civil {
    var a := U32((4 * n + 102032) / 146097 + 15);
    var b := U32(n + 2442113 + a - a / 4);
    var c := U32(20 * b - 2442) / 7305;
    var d := U32(b - 365 * c - c / 4);
    var e := U32(d * 1000) / 30601;
    var f := U32(d - e * 30 - U32(e * 601) / 1000);
    var y := if e <= 13 then U32(c - 4716) else U32(c - 4715);
    var m := if e <= 13 then U32(e - 1) else U32(e - 13);
    Civil(U16(y), U8(m), U8(f))
  }

  // The date for time t. Negative times are taken as 0.
  function DateOf(t: int): Date {
    var t0 := if t < 1 then 0 else t;
    var x := CivilOf(t0 / 60 / 60 / 24);
    Date(x.year, x.month, x.day, DayOfWeekOf(x.year, x.month, x.day), t0 / 60 / 60 % 24, t0 / 60 % 60, t0 % 60, 0)
  }

  // convertUnixTimeToDate
  method ConvertUnixTimeToDate(time: int, date: DateTime)
    modifies date
    ensures date.Value() == DateOf(time)
  {
    hide U32, U16, U8, DayOfWeekOf, DayNumber, Gregorian;
    var t := time;
    if t < 1 { t := 0; }
    date.milliseconds := 0;
    date.seconds := t % 60;
    t := t / 60;
    date.minutes := t % 60;
    t := t / 60;
    date.hours := t % 24;
    t := t / 24;
    var a := U32((4 * t + 102032) / 146097 + 15);
    var b := U32(t + 2442113 + a - a / 4);
    var c: nat := U32(20 * b - 2442) / 7305;
    var d := U32(b - 365 * c - c / 4);
    var e: nat := U32(d * 1000) / 30601;
    var f := U32(d - e * 30 - U32(e * 601) / 1000);
    if e <= 13 {
      c := U32(c - 4716);
      e := U32(e - 1);
    } else {
      c := U32(c - 4715);
      e := U32(e - 13);
    }
    date.year := U16(c);
    date.month := U8(e);
    date.day := U8(f);
    date.dayOfWeek := ComputeDayOfWeek(U16(c), U8(e), U8(f));
  }

  // The time of a date, modulo 2^32.
  function TimeOf(x: Date): nat {
    var m := if x.month <= 2 then x.month + 12 else x.month;
    var y := if x.month <= 2 then U32(x.year - 1) else x.year;
    var days := 365 * y + y / 4 - y / 100 + y / 400 + 30 * m + 3 * (m + 1) / 5 + x.day - 719561;
    U32(86400 * days + 3600 * x.hours + 60 * x.minutes + x.seconds)
  }

  // convertDateToUnixTime
  method ConvertDateToUnixTime(date: DateTime) returns (time: int)
    ensures time == TimeOf(date.Value())
  {
    hide U32;
    var y := date.year;
    var m := date.month;
    var d := date.day;
    if m <= 2 {
      m := m + 12;
      y := U32(y as int - 1);
    }
    var t := U32(U32(365 * y) + y / 4 - y / 100 + y / 400);
    ghost var days := 365 * y + y / 4 - y / 100 + y / 400;
    Wraps(365 * y, y / 4 - y / 100 + y / 400);
    t := U32(t + 30 * m + 3 * (m + 1) / 5 + d);
    Wraps(days, 30 * m + 3 * (m + 1) / 5 + d);
    days := days + 30 * m + 3 * (m + 1) / 5 + d;
    t := U32(t - 719561);
    Wraps(days, -719561);
    days := days - 719561;
    t := U32(t * 86400);
    WrapsProduct(days);
    ghost var seconds := 86400 * days;
    t := U32(t + 3600 * date.hours + 60 * date.minutes + date.seconds);
    Wraps(seconds, 3600 * date.hours + 60 * date.minutes + date.seconds);
    time := t;
  }

  lemma Wraps(x: int, y: int)
    ensures U32(U32(x) + y) == U32(x + y)
  {
  }

  lemma WrapsProduct(x: int)
    ensures U32(U32(x) * 86400) == U32(86400 * x)
  {
    var q, r := x / 0x1_0000_0000, x % 0x1_0000_0000;
    assert 86400 * x == 86400 * r + 0x1_0000_0000 * (86400 * q);
    WholeTurns(86400 * r, 86400 * q);
  }

  lemma WholeTurns(x: int, k: int)
    ensures U32(x + 0x1_0000_0000 * k) == U32(x)
  {
  }

  // ---------------------------------------------------------------- correctness

  // The last day of the year 65535
  const LAST_DAY := 23217003

  lemma YearFits(n: nat)
    requires n <= LAST_DAY
    ensures YearOf(n) <= 65535
  {
    hide YearOf, MonthOf, F, DaysBeforeYear, DaysBeforeMonth;
    IsGregorian(n);
    CivilIsDay(n);
    var y := YearOf(n);
    WithinYear(y, MonthOf(n), F(n));
    if y > 65535 {
      YearsGrow(65536, y);
      YearsCounted(65536);
    }
  }

  lemma TimeParts(t: nat)
    ensures
      var n, h, m, s := t / 60 / 60 / 24, t / 60 / 60 % 24, t / 60 % 60, t % 60;
      n == t / 86400 && t == 86400 * n + 3600 * h + 60 * m + s && h < 24 && m < 60 && s < 60
  {
  }

  // The date is the Gregorian date that is t / 86400 days after the first of January 1970, with
  // its day of the week and the time of day.
  predicate IsDateOf(x: Date, t: nat) {
    var n := t / 86400;
    && Gregorian(x.year, x.month, x.day) && 1970 <= x.year <= 65535
    && DayNumber(x.year, x.month, x.day) == n
    && x.dayOfWeek == (n + 3) % 7 + 1
    && t == 86400 * n + 3600 * x.hours + 60 * x.minutes + x.seconds
    && x.hours < 24 && x.minutes < 60 && x.seconds < 60 && x.milliseconds == 0
  }

  // The result is that date if and only if it lies in a year up to 65535.
  lemma DateOfIsCorrect(t: nat)
    ensures IsDateOf(DateOf(t), t) <==> t / 86400 <= LAST_DAY
  {
    hide DateOf, Gregorian, DayNumber, DaysBeforeYear, LeapYear;
    if t / 86400 <= LAST_DAY {
      DateFits(t);
    }
    var x := DateOf(t);
    if IsDateOf(x, t) {
      WithinYear(x.year, x.month, x.day);
      YearsGrow(x.year + 1, 65536);
      YearsCounted(65536);
    }
  }

  lemma DateFits(t: nat)
    requires t / 86400 <= LAST_DAY
    ensures IsDateOf(DateOf(t), t)
  {
    hide YearOf, MonthOf, F, Gregorian, DayNumber, DateOf;
    var n := t / 86400;
    TimeParts(t);
    IsGregorian(n);
    CivilIsDay(n);
    FormulaOfCivil(n);
    YearFits(n);
    Narrowed(t);
    WeekdayNarrowed(YearOf(n), MonthOf(n), F(n));
    MonthIs(YearOf(n), MonthOf(n), F(n));
    ZellerIsWeekday(YearOf(n), MonthOf(n), F(n));
  }

  lemma MonthIs(y: nat, m: nat, d: nat)
    requires Gregorian(y, m, d)
    ensures 1 <= m <= 12 && 1 <= d <= 31
  {
  }

  lemma Bounds(n: nat)
    requires n <= LAST_DAY
    ensures A(n) < 1000 && B(n) < 30_000_000 && C(n) < 100_000
    ensures C(n) >= 4716 && 365 * C(n) + C(n) / 4 <= B(n)
  {
    CenturyOfYear(n);
    DayOfYear(n);
  }

  // None of the conversions changes a value.
  lemma Narrowed(t: nat)
    requires t / 86400 <= LAST_DAY
    requires var n := t / 86400; 1970 <= YearOf(n) <= 65535 && MonthOf(n) >= 1 && F(n) >= 1
    ensures
      var n := t / 86400;
      DateOf(t) == Date(YearOf(n), MonthOf(n), F(n), DayOfWeekOf(YearOf(n), MonthOf(n), F(n)),
                        t / 60 / 60 % 24, t / 60 % 60, t % 60, 0)
  {
    hide DayOfWeekOf, CivilOf;
    TimeParts(t);
    CivilNarrowed(t / 86400);
  }

  lemma CivilNarrowed(n: nat)
    requires n <= LAST_DAY && 1970 <= YearOf(n) <= 65535 && MonthOf(n) >= 1 && F(n) >= 1
    ensures CivilOf(n) == Civil(YearOf(n), MonthOf(n), F(n))
  {
    hide LAST_DAY, U32, U16, U8;
    Bounds(n);
    DayOfYear(n);
    MonthAndDay(D(n), E(n), F(n));
    Small(A(n));
    Small(B(n));
    Small(20 * B(n) - 2442);
    Small(D(n));
    Small(D(n) * 1000);
    Small(E(n) * 601);
    Small(F(n));
    Small(YearOf(n));
    Small(if E(n) <= 13 then E(n) - 1 else E(n) - 13);
    Small(MonthOf(n));
  }

  // Converting a time to a date and back gives the time exactly for the times that fit 32 bits:
  // earlier times are taken as 0, and later ones come back modulo 2^32.
  lemma RoundTripExact(t: int)
    ensures TimeOf(DateOf(t)) == t <==> 0 <= t < 0x1_0000_0000
  {
    hide DateOf, TimeOf;
    TimeBound(DateOf(t));
    if t < 1 {
      NegativeIsZero(t);
    }
    if t < 0x1_0000_0000 {
      TimeComesBack(if t < 1 then 0 else t);
    }
  }

  lemma TimeComesBack(t: nat)
    requires t < 0x1_0000_0000
    ensures TimeOf(DateOf(t)) == t
  {
    hide DateOf, TimeOf, DayNumber, Gregorian;
    DateFits(t);
    TimeOfDate(DateOf(t));
  }

  lemma TimeBound(x: Date)
    ensures TimeOf(x) < 0x1_0000_0000
  {
  }

  lemma NegativeIsZero(t: int)
    requires t < 1
    ensures DateOf(t) == DateOf(0)
  {
    hide U32, U16, U8, DayOfWeekOf;
  }

  // The time of a date of the calendar, from 1970 on
  lemma TimeOfDate(x: Date)
    requires 1970 <= x.year <= 65535 && Gregorian(x.year, x.month, x.day)
    ensures TimeOf(x) == U32(86400 * DayNumber(x.year, x.month, x.day) + 3600 * x.hours + 60 * x.minutes + x.seconds)
  {
    hide DayNumber, Gregorian;
    FormulaIsDayNumber(x.year, x.month, x.day);
  }

  // And a date comes back from its time if and only if the time fits 32 bits.
  lemma DateRoundTrip(x: Date)
    requires x.year >= 1970 && Gregorian(x.year, x.month, x.day) && x.year <= 65535
    requires x.hours < 24 && x.minutes < 60 && x.seconds < 60 && x.milliseconds == 0
    requires x.dayOfWeek == (DayNumber(x.year, x.month, x.day) + 3) % 7 + 1
    ensures DateOf(TimeOf(x)) == x
      <==> 86400 * DayNumber(x.year, x.month, x.day) + 3600 * x.hours + 60 * x.minutes + x.seconds < 0x1_0000_0000
  {
    hide DateOf, TimeOf, Gregorian, DayNumber;
    var n := DayNumber(x.year, x.month, x.day);
    DayNumberNatural(x.year, x.month, x.day);
    TimeOfDate(x);
    TimeBound(x);
    var t := 86400 * n + 3600 * x.hours + 60 * x.minutes + x.seconds;
    DateFits(TimeOf(x));
    if t < 0x1_0000_0000 {
      SameDate(x, DateOf(t), t);
    }
  }

  lemma SameDate(x: Date, z: Date, t: nat)
    requires IsDateOf(x, t) && IsDateOf(z, t)
    ensures x == z
  {
    hide Gregorian, DayNumber;
    SameTime(t / 86400, x.hours, x.minutes, x.seconds, t);
    SameTime(t / 86400, z.hours, z.minutes, z.seconds, t);
    DateUnique(x.year, x.month, x.day, z.year, z.month, z.day);
  }

  lemma SameTime(n: nat, h: nat, m: nat, s: nat, t: nat)
    requires h < 24 && m < 60 && s < 60 && t == 86400 * n + 3600 * h + 60 * m + s
    ensures n == t / 86400 && h == t / 3600 % 24 && m == t / 60 % 60 && s == t % 60
  {
    assert t / 60 == 1440 * n + 60 * h + m;
    assert t / 3600 == 24 * n + h;
  }
}
