/** When a plan bought at some instant ends: clamped month arithmetic and stacked terms. */
module Durations {
  import opened Wrappers
  import opened Calendar

  datatype DurationUnit = Day | Month | Year | Lifetime

  function AddMonths(start: Moment, months: nat): (end: Moment)
    requires ValidMoment(start)
    ensures ValidMoment(end)
  {
    var monthIndex := start.date.month - 1 + months;
    var year := start.date.year + monthIndex / 12;
    var month := monthIndex % 12 + 1;
    var day := Min(start.date.day, DaysInMonth(year, month));
    start.(date := Date(year, month, day))
  }

  /** None means the plan never ends. */
  function ComputeExpiry(start: Instant, unit: DurationUnit, count: nat): Option<Instant> {
    match unit
    case Lifetime => None
    case Day => Some(start + count * MICROS_PER_DAY)
    case Month => Some(MonthsLater(start, count))
    case Year => Some(MonthsLater(start, count * 12))
  }

  function MonthsLater(start: Instant, months: nat): Instant {
    InstantToFields(AddMonths(Fields(start), months));
    ToInstant(AddMonths(Fields(start), months))
  }

  /** The month the sum lands in, counted from year 0, and the day it lands on. */
  lemma AddMonthsLands(start: Moment, months: nat)
    requires ValidMoment(start)
    ensures var end, landing := AddMonths(start, months), MonthIndex(start.date) + months;
            && MonthIndex(end.date) == landing
            && end.date.day == Min(start.date.day, LengthOfMonth(landing))
            && end.micros == start.micros
  {
    var m := start.date.month - 1 + months;
    var landing := 12 * start.date.year + m;
    assert landing == 12 * (start.date.year + m / 12) + m % 12;
  }

  lemma MonthsLaterFields(start: Instant, months: nat)
    ensures Fields(MonthsLater(start, months)) == AddMonths(Fields(start), months)
  {
    InstantToFields(AddMonths(Fields(start), months));
  }

  /** Every bought term has a positive length. */
  lemma ExpiryIsLater(start: Instant, unit: DurationUnit, count: nat)
    requires unit.Lifetime? || count >= 1
    ensures unit.Lifetime? <==> ComputeExpiry(start, unit, count).None?
    ensures !unit.Lifetime? ==> ComputeExpiry(start, unit, count).value > start
  {
    if unit.Month? || unit.Year? {
      var months := if unit.Month? then count else count * 12;
      var end := AddMonths(Fields(start), months);
      AddMonthsLands(Fields(start), months);
      InstantOrder(Fields(start), end);
      FieldsToInstant(start);
    }
  }

  // ---- does a later purchase always end later? ----

  /** Two starts in one month, the earlier date at the later time of day, both clamped to the last
      day of the month they land in. */
  predicate ClampSwapsOrder(a: Moment, b: Moment, months: nat) {
    && MonthIndex(a.date) == MonthIndex(b.date)
    && a.date.day < b.date.day
    && LengthOfMonth(MonthIndex(a.date) + months) <= a.date.day
    && b.micros < a.micros
  }

  /** Month terms keep the order of their starts exactly when clamping does not swap it. */
  lemma MonthTermOrder(a: Instant, b: Instant, months: nat)
    requires a <= b
    ensures MonthsLater(a, months) <= MonthsLater(b, months)
       <==> !ClampSwapsOrder(Fields(a), Fields(b), months)
  {
    hide DayNumber;
    hide LengthOfMonth;
    hide AddMonths;
    hide MonthIndex;
    var x, y := Fields(a), Fields(b);
    FieldsToInstant(a);
    FieldsToInstant(b);
    InstantOrder(y, x);
    AddMonthsLands(x, months);
    AddMonthsLands(y, months);
    InstantOrder(AddMonths(y, months), AddMonths(x, months));
    DateByMonth(AddMonths(x, months).date);
    DateByMonth(AddMonths(y, months).date);
    DateByMonth(x.date);
    DateByMonth(y.date);
  }

  /** A one-month plan bought on 30 January 2026 at 23:00 outlives one bought two hours later. */
  lemma LaterPurchaseCanEndEarlier()
    ensures var a := ToInstant(Moment(Date(2026, 1, 30), 23 * 3600 * MICROS_PER_SECOND));
            var b := ToInstant(Moment(Date(2026, 1, 31), 3600 * MICROS_PER_SECOND));
            && 0 <= a < b
            && MonthsLater(a, 1) > MonthsLater(b, 1)
  {
    var x := Moment(Date(2026, 1, 30), 23 * 3600 * MICROS_PER_SECOND);
    var y := Moment(Date(2026, 1, 31), 3600 * MICROS_PER_SECOND);
    InstantToFields(x);
    InstantToFields(y);
    InstantOrder(x, y);
    MonthTermOrder(ToInstant(x), ToInstant(y), 1);
  }

  lemma DayTermOrder(a: Instant, b: Instant, count: nat)
    requires a <= b
    ensures ComputeExpiry(a, Day, count).value - ComputeExpiry(b, Day, count).value == a - b
  {}

  // ---- stacked terms ----

  /** The end of `terms` terms bought back to back, each starting where the previous one ends. */
  function Stacked(start: Instant, unit: DurationUnit, count: nat, terms: nat): Option<Instant>
    decreases terms
  {
    if terms == 0 then Some(start)
    else
      var previous := Stacked(start, unit, count, terms - 1);
      if previous.None? then None else ComputeExpiry(previous.value, unit, count)
  }

  lemma {:induction false} StackedDays(start: Instant, count: nat, terms: nat)
    ensures Stacked(start, Day, count, terms) == ComputeExpiry(start, Day, terms * count)
    decreases terms
  {
    if terms > 0 {
      StackedDays(start, count, terms - 1);
      assert terms * count == (terms - 1) * count + count;
      assert (terms - 1) * count * MICROS_PER_DAY + count * MICROS_PER_DAY == terms * count * MICROS_PER_DAY;
    }
  }

  function Steps(step: nat, terms: nat): nat {
    terms * step
  }

  lemma StepsSuccessor(step: nat, terms: nat)
    ensures Steps(step, 0) == 0
    ensures terms > 0 ==> Steps(step, terms) == Steps(step, terms - 1) + step
  {
    if terms > 0 {
      assert terms * step == (terms - 1) * step + step;
    }
  }

  /** The smallest clamp met on the way: `day`, cut down by every month a term ends in. */
  function ClampedDay(day: int, index: int, step: nat, terms: nat): int
    decreases terms
  {
    if terms == 0 then day
    else Min(ClampedDay(day, index, step, terms - 1), LengthOfMonth(index + Steps(step, terms)))
  }

  lemma {:induction false} ClampedDayBounds(day: int, index: int, step: nat, terms: nat)
    requires 1 <= day <= 31
    ensures Min(day, 28) <= ClampedDay(day, index, step, terms) <= day
    ensures terms > 0 ==> ClampedDay(day, index, step, terms) <= LengthOfMonth(index + Steps(step, terms))
    decreases terms
  {
    if terms > 0 {
      ClampedDayBounds(day, index, step, terms - 1);
    }
  }

  /** Clamping loses something beyond `floor` exactly when a month on the way is shorter. */
  lemma {:induction false} ClampedDayAtLeast(day: int, index: int, step: nat, terms: nat, floor: int)
    ensures ClampedDay(day, index, step, terms) >= floor
       <==> day >= floor && forall k :: 1 <= k <= terms ==> LengthOfMonth(index + Steps(step, k)) >= floor
    decreases terms
  {
    if terms > 0 {
      ClampedDayAtLeast(day, index, step, terms - 1, floor);
    }
  }

  function StackedMonths(start: Instant, months: nat, terms: nat): Instant
    decreases terms
  {
    if terms == 0 then start else MonthsLater(StackedMonths(start, months, terms - 1), months)
  }

  lemma {:induction false} StackedMonthsLand(start: Instant, months: nat, terms: nat)
    ensures var from, end := Fields(start), Fields(StackedMonths(start, months, terms));
            && MonthIndex(end.date) == MonthIndex(from.date) + Steps(months, terms)
            && end.date.day == ClampedDay(from.date.day, MonthIndex(from.date), months, terms)
            && end.micros == from.micros
    decreases terms
  {
    hide LengthOfMonth;
    hide AddMonths;
    hide MonthIndex;
    hide MonthsLater;
    hide Steps;
    StepsSuccessor(months, terms);
    if terms > 0 {
      StackedMonthsLand(start, months, terms - 1);
      var previous := StackedMonths(start, months, terms - 1);
      MonthsLaterFields(previous, months);
      AddMonthsLands(Fields(previous), months);
    }
  }

  /** Stacked month terms end in the month one long term would end in, at the same time of day,
      never later and at most three days earlier; they end on the same day exactly when no month a
      term ends in is shorter than the day the long term ends on. */
  lemma StackedMonthsNearOneTerm(start: Instant, months: nat, terms: nat)
    requires terms >= 1
    ensures var stacked, single := StackedMonths(start, months, terms), MonthsLater(start, Steps(months, terms));
            var lost := Fields(single).date.day - Fields(stacked).date.day;
            && MonthIndex(Fields(stacked).date) == MonthIndex(Fields(single).date)
            && single - stacked == lost * MICROS_PER_DAY
            && 0 <= lost <= 3
            && (lost == 0 <==>
                forall k :: 1 <= k <= terms ==>
                  LengthOfMonth(MonthIndex(Fields(start).date) + Steps(months, k)) >= Fields(single).date.day)
  {
    hide LengthOfMonth;
    hide AddMonths;
    hide MonthIndex;
    hide MonthsLater;
    hide Steps;
    hide ClampedDay;
    var from := Fields(start);
    var index := MonthIndex(from.date);
    var stacked, single := StackedMonths(start, months, terms), MonthsLater(start, Steps(months, terms));
    StackedMonthsLand(start, months, terms);
    MonthsLaterFields(start, Steps(months, terms));
    AddMonthsLands(from, Steps(months, terms));
    ClampedDayBounds(from.date.day, index, months, terms);
    ClampedDayAtLeast(from.date.day, index, months, terms, Fields(single).date.day);
    SameMonthDistance(stacked, single);
  }

  lemma SameMonthDistance(a: Instant, b: Instant)
    requires MonthIndex(Fields(a).date) == MonthIndex(Fields(b).date)
    requires Fields(a).micros == Fields(b).micros
    ensures b - a == (Fields(b).date.day - Fields(a).date.day) * MICROS_PER_DAY
  {
    FieldsToInstant(a);
    FieldsToInstant(b);
    DateByMonth(Fields(a).date);
    DateByMonth(Fields(b).date);
    hide DayNumber;
  }

  /** Stacked terms in the units plans are sold in. */
  lemma {:induction false} StackedByUnit(start: Instant, unit: DurationUnit, count: nat, terms: nat)
    requires terms >= 1
    ensures unit.Month? ==> Stacked(start, unit, count, terms) == Some(StackedMonths(start, count, terms))
    ensures unit.Year? ==> Stacked(start, unit, count, terms) == Some(StackedMonths(start, count * 12, terms))
    ensures unit.Lifetime? ==> Stacked(start, unit, count, terms) == None
    decreases terms
  {
    if terms > 1 {
      StackedByUnit(start, unit, count, terms - 1);
    } else {
      assert Stacked(start, unit, count, 0) == Some(start);
      assert StackedMonths(start, count, 0) == start && StackedMonths(start, count * 12, 0) == start;
    }
  }
}
