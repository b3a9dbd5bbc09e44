/** Instants and the proleptic Gregorian calendar, as Python's `datetime` counts them (UTC only).
    An instant is the number of microseconds since 0001-01-01 00:00:00; `Fields` is its calendar view. */
module Calendar {
  type Instant = nat

  const MICROS_PER_SECOND: int := 1_000_000
  const MICROS_PER_DAY: int := 86_400_000_000

  datatype Date = Date(year: int, month: int, day: int)

  /** A `datetime`: a calendar date and the microseconds elapsed since its midnight. */
  datatype Moment = Moment(date: Date, micros: int)

  predicate IsLeap(year: int) {
    year % 4 == 0 && (year % 100 != 0 || year % 400 == 0)
  }

  function DaysInMonth(year: int, month: int): (n: int)
    requires 1 <= month <= 12
    ensures 28 <= n <= 31
  {
    if month == 2 then if IsLeap(year) then 29 else 28
    else if month in {4, 6, 9, 11} then 30
    else 31
  }

  predicate ValidDate(d: Date) {
    1 <= d.year && 1 <= d.month <= 12 && 1 <= d.day <= DaysInMonth(d.year, d.month)
  }

  predicate ValidMoment(m: Moment) {
    ValidDate(m.date) && 0 <= m.micros < MICROS_PER_DAY
  }

  /** Months since January of year 0: the unit in which calendar months are added. */
  function MonthIndex(d: Date): int {
    12 * d.year + d.month - 1
  }

  function LengthOfMonth(index: int): (n: int)
    ensures 28 <= n <= 31
  {
    DaysInMonth(index / 12, index % 12 + 1)
  }

  /** How many of 1..n are multiples of k. */
  function Multiples(n: int, k: int): int
    requires k > 0
  {
    n / k
  }

  function DaysBeforeYear(year: int): int {
    var p := year - 1;
    365 * p + Multiples(p, 4) - Multiples(p, 100) + Multiples(p, 400)
  }

  /** Days of the year before the first of `month`. */
  function DaysBeforeMonth(year: int, month: int): int
    requires 1 <= month <= 12
  {
    var common := [0, 31, 59, 90, 120, 151, 181, 212, 243, 273, 304, 334];
    common[month - 1] + if month > 2 && IsLeap(year) then 1 else 0
  }

  /** Day number, 0 for 0001-01-01. */
  function DayNumber(d: Date): int
    requires 1 <= d.month <= 12
  {
    DaysBeforeYear(d.year) + DaysBeforeMonth(d.year, d.month) + d.day - 1
  }

  function ToInstant(m: Moment): int
    requires 1 <= m.date.month <= 12
  {
    DayNumber(m.date) * MICROS_PER_DAY + m.micros
  }

  function NextDay(d: Date): (e: Date)
    requires ValidDate(d)
    ensures ValidDate(e)
  {
    if d.day < DaysInMonth(d.year, d.month) then d.(day := d.day + 1)
    else if d.month < 12 then Date(d.year, d.month + 1, 1)
    else Date(d.year + 1, 1, 1)
  }

  /** `d + timedelta(days=n)`. */
  function AddDays(d: Date, n: nat): (e: Date)
    requires ValidDate(d)
    ensures ValidDate(e)
    decreases n
  {
    if n == 0 then d else AddDays(NextDay(d), n - 1)
  }

  function DateOf(dayNumber: nat): (d: Date)
    ensures ValidDate(d)
  {
    AddDays(Date(1, 1, 1), dayNumber)
  }

  /** The calendar fields of an instant. */
  function Fields(t: Instant): (m: Moment)
    ensures ValidMoment(m)
  {
    Moment(DateOf(t / MICROS_PER_DAY), t % MICROS_PER_DAY)
  }

  // ---- day numbers ----

  function FirstOf(index: int): Date {
    Date(index / 12, index % 12 + 1, 1)
  }

  lemma MultiplesStep(n: int, k: int)
    requires k == 4 || k == 100 || k == 400
    ensures Multiples(n, k) == Multiples(n - 1, k) + if n % k == 0 then 1 else 0
  {}

  lemma LeapCount(year: int)
    ensures year % 400 == 0 ==> year % 100 == 0
    ensures year % 100 == 0 ==> year % 4 == 0
  {}

  lemma YearLength(year: int)
    ensures DaysBeforeYear(year + 1) == DaysBeforeYear(year) + 365 + if IsLeap(year) then 1 else 0
  {
    MultiplesStep(year, 4);
    MultiplesStep(year, 100);
    MultiplesStep(year, 400);
    LeapCount(year);
    hide Multiples;
  }

  /** Months follow each other without gap or overlap. */
  lemma MonthLength(index: int)
    ensures DayNumber(FirstOf(index + 1)) == DayNumber(FirstOf(index)) + LengthOfMonth(index)
  {
    hide DaysBeforeYear;
    var year, month := index / 12, index % 12 + 1;
    if month == 12 {
      YearLength(year);
      assert FirstOf(index + 1) == Date(year + 1, 1, 1);
    } else {
      assert FirstOf(index + 1) == Date(year, month + 1, 1);
    }
  }

  lemma {:induction false} MonthsAscend(i: int, j: int)
    requires i < j
    ensures DayNumber(FirstOf(i)) + LengthOfMonth(i) <= DayNumber(FirstOf(j))
    decreases j - i
  {
    hide DayNumber;
    hide LengthOfMonth;
    MonthLength(i);
    if i + 1 < j {
      MonthsAscend(i + 1, j);
    }
  }

  lemma DateByMonth(d: Date)
    requires ValidDate(d)
    ensures MonthIndex(d) / 12 == d.year && MonthIndex(d) % 12 == d.month - 1
    ensures DayNumber(d) == DayNumber(FirstOf(MonthIndex(d))) + d.day - 1
    ensures DaysInMonth(d.year, d.month) == LengthOfMonth(MonthIndex(d))
  {}

  predicate DateBefore(a: Date, b: Date) {
    MonthIndex(a) < MonthIndex(b) || (MonthIndex(a) == MonthIndex(b) && a.day < b.day)
  }

  /** Calendar order is day-number order, so `DayNumber` is injective on valid dates. */
  lemma DayNumberOrder(a: Date, b: Date)
    requires ValidDate(a) && ValidDate(b)
    ensures DateBefore(a, b) <==> DayNumber(a) < DayNumber(b)
    ensures a == b <==> DayNumber(a) == DayNumber(b)
  {
    DateByMonth(a);
    DateByMonth(b);
    if MonthIndex(a) < MonthIndex(b) {
      MonthsAscend(MonthIndex(a), MonthIndex(b));
    } else if MonthIndex(b) < MonthIndex(a) {
      MonthsAscend(MonthIndex(b), MonthIndex(a));
    }
  }

  lemma NextDayNumber(d: Date)
    requires ValidDate(d)
    ensures DayNumber(NextDay(d)) == DayNumber(d) + 1
  {
    hide DaysBeforeYear, DaysBeforeMonth;
    if d.day == DaysInMonth(d.year, d.month) {
      DateByMonth(d);
      MonthLength(MonthIndex(d));
      assert NextDay(d) == FirstOf(MonthIndex(d) + 1);
    }
  }

  lemma {:induction false} AddDaysNumber(d: Date, n: nat)
    requires ValidDate(d)
    ensures DayNumber(AddDays(d, n)) == DayNumber(d) + n
    decreases n
  {
    if n > 0 {
      NextDayNumber(d);
      AddDaysNumber(NextDay(d), n - 1);
    }
  }

  lemma DayNumberNonNegative(d: Date)
    requires ValidDate(d)
    ensures DayNumber(d) >= 0
  {
    var first := Date(1, 1, 1);
    DayNumberOrder(first, d);
    DayNumberOrder(d, first);
  }

  /** Instants and calendar fields are two views of the same thing, in the same order. */
  lemma FieldsToInstant(t: Instant)
    ensures ToInstant(Fields(t)) == t
  {
    AddDaysNumber(Date(1, 1, 1), t / MICROS_PER_DAY);
  }

  lemma InstantToFields(m: Moment)
    requires ValidMoment(m)
    ensures ToInstant(m) >= 0 && Fields(ToInstant(m)) == m
  {
    DayNumberNonNegative(m.date);
    var n := DayNumber(m.date);
    var t := ToInstant(m);
    assert t / MICROS_PER_DAY == n && t % MICROS_PER_DAY == m.micros;
    AddDaysNumber(Date(1, 1, 1), n);
    DayNumberOrder(DateOf(n), m.date);
  }

  predicate MomentBefore(a: Moment, b: Moment) {
    DateBefore(a.date, b.date) || (a.date == b.date && a.micros < b.micros)
  }

  lemma InstantOrder(a: Moment, b: Moment)
    requires ValidMoment(a) && ValidMoment(b)
    ensures MomentBefore(a, b) <==> ToInstant(a) < ToInstant(b)
  {
    DayNumberOrder(a.date, b.date);
    DayNumberOrder(b.date, a.date);
    assert DateBefore(a.date, b.date) || a.date == b.date || DateBefore(b.date, a.date) by {
      DateByMonth(a.date);
      DateByMonth(b.date);
    }
  }
}
