/** Gregorian day counting: the closed form the apps use, against plain counting. */
module Calendar {

  datatype Date = Date(year: nat, month: nat, day: nat)

  predicate IsLeapYear(year: int)
  {
    year % 4 == 0 && (year % 100 != 0 || year % 400 == 0)
  }

  function DaysInMonth(year: int, month: nat): nat
  {
    match month
    case 2 => if IsLeapYear(year) then 29 else 28
    case 4 | 6 | 9 | 11 => 30
    case 1 | 3 | 5 | 7 | 8 | 10 | 12 => 31
    case _ => 0
  }

  /** A real date in a 16-bit year. */
  predicate ValidDate(d: Date)
  {
    d.year <= 65535 && 1 <= d.month <= 12 && 1 <= d.day <= DaysInMonth(d.year, d.month)
  }

  /** The kernel's closed form, counting from 1970-01-01. */
  function DaysFromCivil(d: Date): int
  {
    var year := d.year - (if d.month <= 2 then 1 else 0);
    var era := year / 400;
    var yoe := year - era * 400;
    var monthPrime := d.month + (if d.month > 2 then -3 else 9);
    var doy := (153 * monthPrime + 2) / 5 + d.day - 1;
    var doe := yoe * 365 + yoe / 4 - yoe / 100 + doy;
    era * 146_097 + doe - 719_468
  }

  /** Monday is 0. */
  function Weekday(d: Date): (w: nat)
    ensures w < 7
  {
    (DaysFromCivil(d) + 3) % 7
  }

  // Plain counting.

  function YearLength(year: int): nat
  {
    if IsLeapYear(year) then 366 else 365
  }

  /** Days from 1970-01-01 to the first of January, one year at a time. */
  function YearStart(year: int): int
    decreases if year >= 1970 then year - 1970 else 1970 - year
  {
    if year == 1970 then 0
    else if year > 1970 then YearStart(year - 1) + YearLength(year - 1)
    else YearStart(year + 1) - YearLength(year)
  }

  /** Days from the first of January to the first of the month, one month at a time. */
  function MonthStart(year: int, month: nat): nat
  {
    if month <= 1 then 0 else MonthStart(year, month - 1) + DaysInMonth(year, month - 1)
  }

  function CountedDays(d: Date): int
  {
    YearStart(d.year) + MonthStart(d.year, d.month) + d.day - 1
  }

  /** The date after `d`. */
  function NextDay(d: Date): Date
  {
    if d.day < DaysInMonth(d.year, d.month) then d.(day := d.day + 1)
    else if d.month < 12 then Date(d.year, d.month + 1, 1)
    else Date(d.year + 1, 1, 1)
  }

  /** Calendar order. */
  predicate Before(d: Date, e: Date)
  {
    || d.year < e.year
    || (d.year == e.year && d.month < e.month)
    || (d.year == e.year && d.month == e.month && d.day < e.day)
  }

  // The proof.

  /** The year part of the closed form, without the era split. */
  function LeapCount(z: int): int
  {
    365 * z + z / 4 - z / 100 + z / 400
  }

  lemma EraSplit(z: int)
    ensures var era := z / 400; var yoe := z - era * 400;
      era * 146_097 + yoe * 365 + yoe / 4 - yoe / 100 == LeapCount(z)
  {
    var era := z / 400;
    var yoe := z - era * 400;
    assert 0 <= yoe < 400;
    assert z / 4 == era * 100 + yoe / 4;
    assert z / 100 == era * 4 + yoe / 100;
  }

  lemma LeapCountStep(z: int)
    ensures LeapCount(z + 1) == LeapCount(z) + YearLength(z + 1)
  {
    QuotientStep(z, 4);
    QuotientStep(z, 100);
    QuotientStep(z, 400);
    Multiples(z + 1);
  }

  lemma Multiples(n: int)
    ensures n % 400 == 0 ==> n % 100 == 0
    ensures n % 100 == 0 ==> n % 4 == 0
  {
    if n % 400 == 0 {
      Hundreds(n, 4 * (n / 400));
    }
    if n % 100 == 0 {
      Fours(n, 25 * (n / 100));
    }
  }

  lemma Hundreds(n: int, k: int)
    requires n == 100 * k
    ensures n % 100 == 0
  {
  }

  lemma Fours(n: int, k: int)
    requires n == 4 * k
    ensures n % 4 == 0
  {
  }

  lemma QuotientStep(z: int, k: int)
    requires k == 4 || k == 100 || k == 400
    ensures (z + 1) / k == z / k + if (z + 1) % k == 0 then 1 else 0
  {
  }

  lemma ClosedForm(d: Date)
    requires 1 <= d.month <= 12
    ensures DaysFromCivil(d)
            == (if d.month <= 2 then LeapCount(d.year - 1) + (if d.month == 1 then 306 else 337)
                else LeapCount(d.year) + MonthOffset(d.month)) + d.day - 1 - 719_468
  {
    EraSplit(if d.month <= 2 then d.year - 1 else d.year);
  }

  function MonthOffset(month: nat): int
  {
    [0, 31, 61, 92, 122, 153, 184, 214, 245, 275][if 3 <= month <= 12 then month - 3 else 0]
  }

  lemma {:induction false} YearStartIsClosed(year: int)
    ensures YearStart(year) == LeapCount(year - 1) + 306 - 719_468
    decreases if year >= 1970 then year - 1970 else 1970 - year
  {
    if year > 1970 {
      YearStartIsClosed(year - 1);
      LeapCountStep(year - 2);
    } else if year < 1970 {
      YearStartIsClosed(year + 1);
      LeapCountStep(year - 1);
    }
  }

  lemma MonthStarts(year: int)
    ensures var leap := if IsLeapYear(year) then 1 else 0;
      && MonthStart(year, 1) == 0 && MonthStart(year, 2) == 31
      && forall m :: 3 <= m <= 12 ==> MonthStart(year, m) == 59 + leap + MonthOffset(m)
  {
    assert MonthStart(year, 2) == 31;
    assert MonthStart(year, 3) == 31 + DaysInMonth(year, 2);
    assert MonthStart(year, 5) == MonthStart(year, 3) + 61;
    assert MonthStart(year, 7) == MonthStart(year, 5) + 61;
    assert MonthStart(year, 9) == MonthStart(year, 7) + 62;
    assert MonthStart(year, 11) == MonthStart(year, 9) + 61;
  }

  /** The closed form is plain counting, for every date of every year. */
  lemma CivilIsCounted(d: Date)
    requires 1 <= d.month <= 12
    ensures DaysFromCivil(d) == CountedDays(d)
  {
    ClosedForm(d);
    YearStartIsClosed(d.year);
    MonthStarts(d.year);
    LeapCountStep(d.year - 1);
  }

  lemma Epoch()
    ensures DaysFromCivil(Date(1970, 1, 1)) == 0 && Weekday(Date(1970, 1, 1)) == 3
  {
  }

  lemma YearStartStep(year: int)
    ensures YearStart(year + 1) == YearStart(year) + YearLength(year)
  {
    YearStartIsClosed(year);
    YearStartIsClosed(year + 1);
    LeapCountStep(year - 1);
  }

  lemma YearEnd(year: int)
    ensures MonthStart(year, 13) == YearLength(year)
  {
    MonthStarts(year);
    assert MonthStart(year, 13) == MonthStart(year, 12) + 31;
  }

  lemma NextDayCounted(d: Date)
    requires 1 <= d.month <= 12 && 1 <= d.day <= DaysInMonth(d.year, d.month)
    ensures CountedDays(NextDay(d)) == CountedDays(d) + 1
  {
    if d.day == DaysInMonth(d.year, d.month) && d.month == 12 {
      YearStartStep(d.year);
      YearEnd(d.year);
    }
  }

  /** The next date is one day, and one weekday, later. */
  lemma NextDayIsOneMore(d: Date)
    requires 1 <= d.month <= 12 && 1 <= d.day <= DaysInMonth(d.year, d.month)
    ensures DaysFromCivil(NextDay(d)) == DaysFromCivil(d) + 1
    ensures Weekday(NextDay(d)) == (Weekday(d) + 1) % 7
  {
    CivilIsCounted(d);
    CivilIsCounted(NextDay(d));
    NextDayCounted(d);
    NextWeekday(DaysFromCivil(d));
  }

  lemma NextWeekday(n: int)
    ensures (n + 1 + 3) % 7 == ((n + 3) % 7 + 1) % 7
  {
  }

  lemma {:induction false} YearStartMonotone(y: int, z: int)
    requires y < z
    ensures YearStart(y) + YearLength(y) <= YearStart(z)
    decreases z - y
  {
    YearStartStep(y);
    if y + 1 < z {
      YearStartMonotone(y + 1, z);
    }
  }

  lemma {:induction false} MonthStartMonotone(year: int, m: nat, n: nat)
    requires 1 <= m < n <= 13
    ensures MonthStart(year, m) + DaysInMonth(year, m) <= MonthStart(year, n)
    decreases n - m
  {
    if m + 1 < n {
      MonthStartMonotone(year, m + 1, n);
    }
  }

  /** Later dates have larger day numbers. */
  lemma CivilIsMonotone(d: Date, e: Date)
    requires ValidDate(d) && ValidDate(e) && Before(d, e)
    ensures DaysFromCivil(d) < DaysFromCivil(e)
  {
    CivilIsCounted(d);
    CivilIsCounted(e);
    MonthStarts(d.year);
    MonthStarts(e.year);
    if d.year < e.year {
      YearStartMonotone(d.year, e.year);
      MonthStartMonotone(d.year, d.month, 13);
      YearEnd(d.year);
    } else if d.month < e.month {
      MonthStartMonotone(d.year, d.month, e.month);
    }
  }

  /** Different dates have different day numbers. */
  lemma CivilIsInjective(d: Date, e: Date)
    requires ValidDate(d) && ValidDate(e)
    ensures DaysFromCivil(d) == DaysFromCivil(e) ==> d == e
  {
    if Before(d, e) {
      CivilIsMonotone(d, e);
    } else if Before(e, d) {
      CivilIsMonotone(e, d);
    }
  }
}
