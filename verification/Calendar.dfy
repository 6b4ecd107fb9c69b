/** The proleptic Gregorian calendar of Python's `datetime`: days and seconds are counted from
    0001-01-01T00:00:00, and the last instant is in year 9999. */
module Calendar {

  const DAYS := 3652059
  const SECONDS := DAYS * 86400

  type DayNumber = n: int | 0 <= n < DAYS
  type Instant = t: int | 0 <= t < SECONDS

  datatype Date = Date(year: nat, month: nat, day: nat)

  predicate Leap(y: nat) {
    y % 4 == 0 && (y % 100 != 0 || y % 400 == 0)
  }

  function DaysInYear(y: nat): (n: nat)
    ensures 365 <= n <= 366
  {
    if Leap(y) then 366 else 365
  }

  function DaysInMonth(y: nat, m: nat): nat {
    if m == 2 then if Leap(y) then 29 else 28
    else if m == 4 || m == 6 || m == 9 || m == 11 then 30
    else 31
  }

  function DaysBeforeYear(y: nat): nat
    requires y >= 1
  {
    if y == 1 then 0 else DaysBeforeYear(y - 1) + DaysInYear(y - 1)
  }

  function DaysBeforeMonth(y: nat, m: nat): nat
    requires 1 <= m <= 13
  {
    if m == 1 then 0 else DaysBeforeMonth(y, m - 1) + DaysInMonth(y, m - 1)
  }

  predicate ValidDate(d: Date) {
    1 <= d.year <= 9999 && 1 <= d.month <= 12 && 1 <= d.day <= DaysInMonth(d.year, d.month)
  }

  /** `date.toordinal() - 1`. */
  function DayOf(d: Date): int
    requires d.year >= 1 && 1 <= d.month <= 12 && d.day >= 1
  {
    DaysBeforeYear(d.year) + DaysBeforeMonth(d.year, d.month) + d.day - 1
  }

  /** The count used by `datetime`: 365 days a year and one more for each leap year passed. */
  lemma {:induction false} DaysBeforeYearFormula(y: nat)
    requires y >= 1
    ensures DaysBeforeYear(y) == (y - 1) * 365 + (y - 1) / 4 - (y - 1) / 100 + (y - 1) / 400
  {
    if y > 1 {
      DaysBeforeYearFormula(y - 1);
      LeapStep(y - 1);
    }
  }

  lemma LeapStep(y: nat)
    requires y >= 1
    ensures y / 4 - y / 100 + y / 400 ==
            (y - 1) / 4 - (y - 1) / 100 + (y - 1) / 400 + (if Leap(y) then 1 else 0)
  {
    Quotients(y);
    if y % 400 == 0 {
      Hundreds(y, y / 400 * 4);
      Fours(y, y / 400 * 100);
    } else if y % 100 == 0 {
      Fours(y, y / 100 * 25);
    }
  }

  lemma Hundreds(n: nat, q: nat)
    requires n == 100 * q
    ensures n % 100 == 0
  {
    assert n / 100 == q;
  }

  lemma Fours(n: nat, q: nat)
    requires n == 4 * q
    ensures n % 4 == 0
  {
    assert n / 4 == q;
  }

  lemma Quotients(y: nat)
    requires y >= 1
    ensures y / 4 == (y - 1) / 4 + (if y % 4 == 0 then 1 else 0)
    ensures y / 100 == (y - 1) / 100 + (if y % 100 == 0 then 1 else 0)
    ensures y / 400 == (y - 1) / 400 + (if y % 400 == 0 then 1 else 0)
  {
  }

  lemma YearLength(y: nat)
    ensures DaysBeforeMonth(y, 13) == DaysInYear(y)
  {
    var february := DaysInMonth(y, 2);
    assert DaysBeforeMonth(y, 2) == 31;
    assert DaysBeforeMonth(y, 3) == 31 + february;
    assert DaysBeforeMonth(y, 5) == 92 + february;
    assert DaysBeforeMonth(y, 7) == 153 + february;
    assert DaysBeforeMonth(y, 9) == 215 + february;
    assert DaysBeforeMonth(y, 11) == 276 + february;
    assert DaysBeforeMonth(y, 13) == 337 + february;
  }

  lemma {:induction false} DaysBeforeMonthMonotone(y: nat, m: nat, n: nat)
    requires 1 <= m <= n <= 13
    ensures DaysBeforeMonth(y, m) <= DaysBeforeMonth(y, n)
  {
    if m < n {
      DaysBeforeMonthMonotone(y, m, n - 1);
    }
  }

  lemma {:induction false} DaysBeforeYearMonotone(y: nat, z: nat)
    requires 1 <= y <= z
    ensures DaysBeforeYear(y) <= DaysBeforeYear(z)
  {
    if y < z {
      DaysBeforeYearMonotone(y, z - 1);
    }
  }

  /** Every valid date is one of the calendar's days. */
  lemma DayOfInRange(d: Date)
    requires ValidDate(d)
    ensures 0 <= DayOf(d) < DAYS
  {
    DaysBeforeYearFormula(10000);
    hide DaysInMonth, Leap, DaysInYear;
    DaysBeforeMonthMonotone(d.year, d.month + 1, 13);
    YearLength(d.year);
    DaysBeforeYearMonotone(d.year + 1, 10000);
  }

  // ---------- from day numbers back to dates ----------

  function MonthFrom(left: nat, y: nat, m: nat): Date
    requires 1 <= m <= 12 && DaysBeforeMonth(y, m) + left < DaysBeforeMonth(y, 13)
    decreases 12 - m
  {
    if left < DaysInMonth(y, m) then Date(y, m, left + 1)
    else MonthFrom(left - DaysInMonth(y, m), y, m + 1)
  }

  function YearFrom(left: nat, y: nat): Date
    requires y >= 1
    decreases left
  {
    YearLength(y);
    if left < DaysInYear(y) then MonthFrom(left, y, 1) else YearFrom(left - DaysInYear(y), y + 1)
  }

  /** `date.fromordinal(n + 1)`. */
  function DateOf(n: DayNumber): Date {
    YearFrom(n, 1)
  }

  lemma {:induction false} MonthFromInverts(left: nat, y: nat, m: nat)
    requires y >= 1 && 1 <= m <= 12 && DaysBeforeMonth(y, m) + left < DaysBeforeMonth(y, 13)
    ensures var d := MonthFrom(left, y, m);
            && d.year == y && m <= d.month <= 12 && 1 <= d.day <= DaysInMonth(y, d.month)
            && DayOf(d) == DaysBeforeYear(y) + DaysBeforeMonth(y, m) + left
    decreases 12 - m
  {
    hide DaysInMonth, DaysBeforeYear;
    if left >= DaysInMonth(y, m) {
      MonthFromInverts(left - DaysInMonth(y, m), y, m + 1);
    }
  }

  lemma FirstMonth(y: nat)
    ensures DaysBeforeMonth(y, 1) == 0
  {
  }

  lemma {:induction false} YearFromInverts(left: nat, y: nat)
    requires y >= 1
    ensures var d := YearFrom(left, y);
            && d.year >= y && 1 <= d.month <= 12 && 1 <= d.day <= DaysInMonth(d.year, d.month)
            && DayOf(d) == DaysBeforeYear(y) + left
    decreases left
  {
    hide DaysInMonth, DaysInYear, DaysBeforeMonth, DayOf, MonthFrom;
    YearLength(y);
    FirstMonth(y);
    if left < DaysInYear(y) {
      MonthFromInverts(left, y, 1);
    } else {
      YearFromInverts(left - DaysInYear(y), y + 1);
    }
  }

  /** Day numbers and valid dates correspond: reading a day number as a date loses nothing. */
  lemma DateOfInverts(n: DayNumber)
    ensures ValidDate(DateOf(n)) && DayOf(DateOf(n)) == n
  {
    YearFromInverts(n, 1);
    var d := DateOf(n);
    if d.year >= 10000 {
      DaysBeforeYearMonotone(10000, d.year);
      DaysBeforeYearFormula(10000);
    }
  }

  // ---------- ISO 8601 text ----------

  function Pad2(n: nat): string
    requires n < 100
  {
    [(48 + n / 10) as char, (48 + n % 10) as char]
  }

  function Pad4(n: nat): string
    requires n < 10000
  {
    Pad2(n / 100) + Pad2(n % 100)
  }

  /** `date.isoformat()`. */
  function IsoDate(n: DayNumber): (s: string)
    ensures |s| == 10
  {
    DateOfInverts(n);
    var d := DateOf(n);
    Pad4(d.year) + "-" + Pad2(d.month) + "-" + Pad2(d.day)
  }

  function IsoTime(s: nat): (t: string)
    requires s < 86400
    ensures |t| == 8
  {
    Pad2(s / 3600) + ":" + Pad2(s / 60 % 60) + ":" + Pad2(s % 60)
  }

  /** `datetime.isoformat()` of a UTC datetime with whole seconds, `+00:00` written `Z`. */
  function Iso(t: Instant): (s: string)
    ensures |s| == 20
  {
    IsoDate(t / 86400) + "T" + IsoTime(t % 86400) + "Z"
  }

  lemma Pad2Injective(m: nat, n: nat)
    requires m < 100 && n < 100 && Pad2(m) == Pad2(n)
    ensures m == n
  {
    assert Pad2(m)[0] == Pad2(n)[0] && Pad2(m)[1] == Pad2(n)[1];
  }

  lemma IsoDateInjective(m: DayNumber, n: DayNumber)
    requires IsoDate(m) == IsoDate(n)
    ensures m == n
  {
    DateOfInverts(m);
    DateOfInverts(n);
    hide DateOf, DayOf;
    var a, b := DateOf(m), DateOf(n);
    var s, t := IsoDate(m), IsoDate(n);
    assert s[..2] == Pad2(a.year / 100) && t[..2] == Pad2(b.year / 100);
    assert s[2..4] == Pad2(a.year % 100) && t[2..4] == Pad2(b.year % 100);
    assert s[5..7] == Pad2(a.month) && t[5..7] == Pad2(b.month);
    assert s[8..10] == Pad2(a.day) && t[8..10] == Pad2(b.day);
    Pad2Injective(a.year / 100, b.year / 100);
    Pad2Injective(a.year % 100, b.year % 100);
    Pad2Injective(a.month, b.month);
    Pad2Injective(a.day, b.day);
  }

  lemma IsoTimeInjective(a: nat, b: nat)
    requires a < 86400 && b < 86400 && IsoTime(a) == IsoTime(b)
    ensures a == b
  {
    var s, t := IsoTime(a), IsoTime(b);
    assert s[..2] == Pad2(a / 3600) && t[..2] == Pad2(b / 3600);
    assert s[3..5] == Pad2(a / 60 % 60) && t[3..5] == Pad2(b / 60 % 60);
    assert s[6..8] == Pad2(a % 60) && t[6..8] == Pad2(b % 60);
    Pad2Injective(a / 3600, b / 3600);
    Pad2Injective(a / 60 % 60, b / 60 % 60);
    Pad2Injective(a % 60, b % 60);
    assert a / 3600 == a / 60 / 60 && b / 3600 == b / 60 / 60;
  }

  /** Different instants have different texts. */
  lemma IsoInjective(t: Instant, u: Instant)
    requires Iso(t) == Iso(u)
    ensures t == u
  {
    hide IsoDate, IsoTime;
    assert Iso(t)[..10] == IsoDate(t / 86400) && Iso(u)[..10] == IsoDate(u / 86400);
    assert Iso(t)[11..19] == IsoTime(t % 86400) && Iso(u)[11..19] == IsoTime(u % 86400);
    IsoDateInjective(t / 86400, u / 86400);
    IsoTimeInjective(t % 86400, u % 86400);
  }
}
