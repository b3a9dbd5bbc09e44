/** Quota windows (UTC): the key a counter is filed under, where the window starts and ends, and how
    long the Redis counter of a window is kept. */
module Periods {
  import opened Wrappers
  import opened Calendar

  datatype QuotaPeriod = Lifetime | Monthly | Daily

  const GRACE_DAYS: int := 3

  // ---- text of a date ----

  function Digit(n: int): char
    requires 0 <= n < 10
  {
    "0123456789"[n]
  }

  function Decimal(n: nat): string {
    if n < 10 then [Digit(n)] else Decimal(n / 10) + [Digit(n % 10)]
  }

  function TwoDigits(n: int): (s: string)
    requires 0 <= n < 100
    ensures |s| == 2
  {
    [Digit(n / 10), Digit(n % 10)]
  }

  function MonthText(d: Date): string
    requires ValidDate(d)
  {
    Decimal(d.year) + "-" + TwoDigits(d.month)
  }

  /** "2026-10", "2026-10-16" or "lifetime". */
  function PeriodKey(period: QuotaPeriod, now: Instant): string {
    var d := Fields(now).date;
    match period
    case Monthly => MonthText(d)
    case Daily => MonthText(d) + "-" + TwoDigits(d.day)
    case Lifetime => "lifetime"
  }

  // ---- bounds of a window ----

  function Midnight(d: Date): (t: Instant)
    requires ValidDate(d)
    ensures Fields(t) == Moment(d, 0)
  {
    InstantToFields(Moment(d, 0));
    ToInstant(Moment(d, 0))
  }

  function PeriodStart(period: QuotaPeriod, now: Instant): Option<Instant> {
    var d := Fields(now).date;
    match period
    case Lifetime => None
    case Daily => Some(Midnight(d))
    case Monthly => Some(Midnight(d.(day := 1)))
  }

  function PeriodEnd(period: QuotaPeriod, now: Instant): Option<Instant> {
    var d := Fields(now).date;
    match period
    case Lifetime => None
    case Daily => Some(Midnight(Fields(now + MICROS_PER_DAY).date))
    case Monthly =>
      var next := if d.month == 12 then Date(d.year + 1, 1, 1) else Date(d.year, d.month + 1, 1);
      Some(Midnight(next))
  }

  /** The time to live, in whole seconds, given to a counter created at `now`; None = kept for ever.
      The window's end lies after `now` (`WindowsTileTime`), so truncating and flooring agree. */
  function SecondsUntilPeriodEnd(period: QuotaPeriod, now: Instant): Option<int> {
    match PeriodEnd(period, now)
    case None => None
    case Some(end) => Some((end - now + GRACE_DAYS * MICROS_PER_DAY) / MICROS_PER_SECOND)
  }

  // ---- windows tile time ----

  lemma DateRange(t: Instant, from: Date, to: Date)
    requires ValidDate(from) && ValidDate(to)
    ensures Midnight(from) <= t < Midnight(to) <==> !DateBefore(Fields(t).date, from) && DateBefore(Fields(t).date, to)
  {
    var d := Fields(t).date;
    FieldsToInstant(t);
    FieldsToInstant(Midnight(from));
    FieldsToInstant(Midnight(to));
    DayNumberOrder(d, from);
    DayNumberOrder(d, to);
    hide DayNumber;
  }

  lemma DayAfter(t: Instant)
    ensures Fields(t + MICROS_PER_DAY).date == NextDay(Fields(t).date)
  {
    var d := Fields(t).date;
    var shifted := Moment(NextDay(d), Fields(t).micros);
    FieldsToInstant(t);
    NextDayNumber(d);
    InstantToFields(shifted);
    assert ToInstant(shifted) == t + MICROS_PER_DAY;
  }

  function WindowFrom(period: QuotaPeriod, d: Date): (from: Date)
    requires ValidDate(d) && !period.Lifetime?
    ensures ValidDate(from)
  {
    if period.Daily? then d else d.(day := 1)
  }

  function WindowTo(period: QuotaPeriod, d: Date): (to: Date)
    requires ValidDate(d) && !period.Lifetime?
    ensures ValidDate(to)
  {
    if period.Daily? then NextDay(d)
    else if d.month == 12 then Date(d.year + 1, 1, 1) else Date(d.year, d.month + 1, 1)
  }

  lemma WindowDates(period: QuotaPeriod, t: Instant)
    requires !period.Lifetime?
    ensures PeriodStart(period, t) == Some(Midnight(WindowFrom(period, Fields(t).date)))
    ensures PeriodEnd(period, t) == Some(Midnight(WindowTo(period, Fields(t).date)))
  {
    hide Fields, Midnight, NextDay;
    DayAfter(t);
  }

  /** A date lies in the window of `d` exactly when it has the same window start. */
  lemma SameWindowDates(period: QuotaPeriod, d: Date, e: Date)
    requires ValidDate(d) && ValidDate(e) && !period.Lifetime?
    ensures !DateBefore(e, WindowFrom(period, d)) && DateBefore(e, WindowTo(period, d))
       <==> WindowFrom(period, e) == WindowFrom(period, d)
  {}

  /** The window of t is the half-open interval [start, end): exactly the instants with t's start. */
  lemma WindowIsInterval(period: QuotaPeriod, t: Instant, u: Instant)
    requires !period.Lifetime?
    ensures PeriodStart(period, t).value <= u < PeriodEnd(period, t).value
       <==> PeriodStart(period, u) == PeriodStart(period, t)
  {
    var d, e := Fields(t).date, Fields(u).date;
    WindowDates(period, t);
    WindowDates(period, u);
    DateRange(u, WindowFrom(period, d), WindowTo(period, d));
    SameWindowDates(period, d, e);
    assert Fields(Midnight(WindowFrom(period, d))).date == WindowFrom(period, d);
    assert Fields(Midnight(WindowFrom(period, e))).date == WindowFrom(period, e);
    hide WindowFrom;
    hide WindowTo;
  }

  /** Every instant lies in its own window, and the next window starts where this one ends. */
  lemma WindowsTileTime(period: QuotaPeriod, t: Instant)
    requires !period.Lifetime?
    ensures PeriodStart(period, t).value <= t < PeriodEnd(period, t).value
    ensures PeriodStart(period, PeriodEnd(period, t).value) == PeriodEnd(period, t)
  {
    WindowIsInterval(period, t, t);
    WindowDates(period, t);
    WindowDates(period, PeriodEnd(period, t).value);
  }

  /** A counter created at any instant of a window outlives the window by three days, less one second. */
  lemma CounterOutlivesWindow(period: QuotaPeriod, seeded: Instant, used: Instant)
    requires !period.Lifetime?
    requires PeriodStart(period, used) == PeriodStart(period, seeded)
    ensures var expiry := seeded + SecondsUntilPeriodEnd(period, seeded).value * MICROS_PER_SECOND;
            var end := PeriodEnd(period, seeded).value;
            && used < end
            && end + GRACE_DAYS * MICROS_PER_DAY - MICROS_PER_SECOND < expiry <= end + GRACE_DAYS * MICROS_PER_DAY
  {
    WindowIsInterval(period, seeded, used);
  }

  // ---- keys name windows ----

  predicate IsDigitText(s: string) {
    forall i :: 0 <= i < |s| ==> s[i] != '-'
  }

  lemma DigitsDiffer(a: int, b: int)
    requires 0 <= a < 10 && 0 <= b < 10 && Digit(a) == Digit(b)
    ensures a == b && Digit(a) != '-'
  {}

  lemma {:induction false} DecimalDigits(n: nat)
    ensures |Decimal(n)| > 0 && IsDigitText(Decimal(n))
    decreases n
  {
    if n >= 10 {
      DecimalDigits(n / 10);
      DigitsDiffer(n % 10, n % 10);
    } else {
      DigitsDiffer(n, n);
    }
  }

  lemma {:induction false} DecimalInjective(a: nat, b: nat)
    requires Decimal(a) == Decimal(b)
    ensures a == b
    decreases a
  {
    DecimalDigits(a / 10);
    DecimalDigits(b / 10);
    var s, t := Decimal(a), Decimal(b);
    if a >= 10 && b >= 10 {
      assert s[|s| - 1] == Digit(a % 10) && t[|t| - 1] == Digit(b % 10);
      DigitsDiffer(a % 10, b % 10);
      assert Decimal(a / 10) == s[..|s| - 1] == t[..|t| - 1] == Decimal(b / 10);
      DecimalInjective(a / 10, b / 10);
    } else if a < 10 && b < 10 {
      DigitsDiffer(a, b);
    }
  }

  lemma TwoDigitsInjective(a: int, b: int)
    requires 0 <= a < 100 && 0 <= b < 100 && TwoDigits(a) == TwoDigits(b)
    ensures a == b
  {
    assert TwoDigits(a)[0] == TwoDigits(b)[0] && TwoDigits(a)[1] == TwoDigits(b)[1];
    DigitsDiffer(a / 10, b / 10);
    DigitsDiffer(a % 10, b % 10);
  }

  lemma SplitFromEnd(a: string, x: string, b: string, y: string)
    requires a + x == b + y && |x| == |y|
    ensures a == b && x == y
  {
    assert (a + x)[..|a|] == a && (b + y)[..|b|] == b;
    assert (a + x)[|a|..] == x && (b + y)[|b|..] == y;
  }

  lemma MonthTextInjective(d: Date, e: Date)
    requires ValidDate(d) && ValidDate(e)
    requires MonthText(d) == MonthText(e)
    ensures d.year == e.year && d.month == e.month
  {
    SplitFromEnd(Decimal(d.year) + "-", TwoDigits(d.month), Decimal(e.year) + "-", TwoDigits(e.month));
    TwoDigitsInjective(d.month, e.month);
    SplitFromEnd(Decimal(d.year), "-", Decimal(e.year), "-");
    DecimalInjective(d.year, e.year);
  }

  function KeyOfDate(period: QuotaPeriod, d: Date): string
    requires ValidDate(d) && !period.Lifetime?
  {
    if period.Monthly? then MonthText(d) else MonthText(d) + "-" + TwoDigits(d.day)
  }

  lemma KeyOfDateInjective(period: QuotaPeriod, d: Date, e: Date)
    requires ValidDate(d) && ValidDate(e) && !period.Lifetime?
    requires KeyOfDate(period, d) == KeyOfDate(period, e)
    ensures WindowFrom(period, d) == WindowFrom(period, e)
  {
    hide MonthText;
    hide TwoDigits;
    if period.Daily? {
      SplitFromEnd(MonthText(d) + "-", TwoDigits(d.day), MonthText(e) + "-", TwoDigits(e.day));
      SplitFromEnd(MonthText(d), "-", MonthText(e), "-");
      TwoDigitsInjective(d.day, e.day);
    }
    MonthTextInjective(d, e);
  }

  lemma SameStartSameWindow(period: QuotaPeriod, a: Instant, b: Instant)
    requires !period.Lifetime?
    ensures PeriodStart(period, a) == PeriodStart(period, b)
       <==> WindowFrom(period, Fields(a).date) == WindowFrom(period, Fields(b).date)
  {
    hide WindowFrom;
    WindowDates(period, a);
    WindowDates(period, b);
    hide PeriodStart;
    assert Fields(Midnight(WindowFrom(period, Fields(a).date))).date == WindowFrom(period, Fields(a).date);
    assert Fields(Midnight(WindowFrom(period, Fields(b).date))).date == WindowFrom(period, Fields(b).date);
  }

  /** Which instants share a window: those of one date, of one month of one year, or all. */
  lemma SharedWindows(period: QuotaPeriod, a: Instant, b: Instant)
    ensures var d, e := Fields(a).date, Fields(b).date;
            PeriodStart(period, a) == PeriodStart(period, b) <==>
              match period
              case Daily => d.year == e.year && d.month == e.month && d.day == e.day
              case Monthly => d.year == e.year && d.month == e.month
              case Lifetime => true
  {
    if !period.Lifetime? {
      SameStartSameWindow(period, a, b);
      hide PeriodStart, Fields;
    }
  }

  /** Two instants share a key exactly when they share a window. */
  lemma KeysNameWindows(period: QuotaPeriod, a: Instant, b: Instant)
    ensures PeriodKey(period, a) == PeriodKey(period, b) <==> PeriodStart(period, a) == PeriodStart(period, b)
  {
    if !period.Lifetime? {
      var d, e := Fields(a).date, Fields(b).date;
      SameStartSameWindow(period, a, b);
      hide PeriodStart;
      hide Fields;
      if KeyOfDate(period, d) == KeyOfDate(period, e) {
        KeyOfDateInjective(period, d, e);
      }
    }
  }

  /** Counters of different kinds of window never share a key, so a plan that changes its period
      starts on a counter of its own. */
  lemma KeysNamePeriods(p: QuotaPeriod, a: Instant, q: QuotaPeriod, b: Instant)
    requires PeriodKey(p, a) == PeriodKey(q, b)
    ensures p == q
  {
    KeyDashes(p, a);
    KeyDashes(q, b);
    hide PeriodKey, DashAt;
    assert DashAt(PeriodKey(p, a), 3) <==> 3 in DashPositions(p);
    assert DashAt(PeriodKey(p, a), 6) <==> 6 in DashPositions(p);
    assert DashAt(PeriodKey(q, b), 3) <==> 3 in DashPositions(q);
    assert DashAt(PeriodKey(q, b), 6) <==> 6 in DashPositions(q);
  }

  function DashPositions(p: QuotaPeriod): set<int> {
    match p
    case Lifetime => {}
    case Monthly => {3}
    case Daily => {3, 6}
  }

  /** A dash stands i characters from the end. */
  predicate DashAt(text: string, i: int) {
    1 <= i <= |text| && text[|text| - i] == '-'
  }

  lemma DashesOfParts(a: string, b: string)
    ensures forall i :: DashAt(a + b, i) <==> if i <= |b| then DashAt(b, i) else DashAt(a, i - |b|)
  {}

  lemma DashesOfMonth(d: Date)
    requires ValidDate(d)
    ensures forall i :: DashAt(MonthText(d), i) <==> i == 3
  {
    NoDashInDecimal(d.year);
    NoDashInTwoDigits(d.month);
    DashesOfParts(Decimal(d.year) + "-", TwoDigits(d.month));
    DashesOfParts(Decimal(d.year), "-");
    hide TwoDigits, Decimal;
    assert forall i :: DashAt("-", i) <==> i == 1;
    hide DashAt;
  }

  lemma NoDashInDecimal(n: nat)
    ensures forall i :: !DashAt(Decimal(n), i)
  {
    DecimalDigits(n);
    hide Decimal;
  }

  lemma NoDashInTwoDigits(n: nat)
    requires n < 100
    ensures |TwoDigits(n)| == 2 && forall i :: !DashAt(TwoDigits(n), i)
  {
    DigitsDiffer(n / 10, n / 10);
    DigitsDiffer(n % 10, n % 10);
    hide Digit;
  }

  /** Where the dashes of a key stand. */
  lemma KeyDashes(p: QuotaPeriod, t: Instant)
    ensures forall i :: DashAt(PeriodKey(p, t), i) <==> i in DashPositions(p)
  {
    var d := Fields(t).date;
    DashesOfMonth(d);
    NoDashInTwoDigits(d.day);
    DashesOfParts(MonthText(d) + "-", TwoDigits(d.day));
    DashesOfParts(MonthText(d), "-");
    hide Fields, MonthText, TwoDigits;
    assert forall i :: DashAt("-", i) <==> i == 1;
    if p.Lifetime? {
      assert forall i :: !DashAt("lifetime", i);
    }
    hide DashAt;
  }
}
