/** The work-hours filter of the public search: do two daily windows share any time? */
module WorkHours {
  import opened Wrappers

  /** A stored window: clock times in a zone a fixed number of minutes ahead of UTC, or something the
      parser rejects. */
  datatype Hours =
    | Hours(startHour: int, startMinute: int, endHour: int, endMinute: int, offset: int)
    | Unreadable

  predicate Readable(h: Hours) {
    && h.Hours?
    && 0 <= h.startHour < 24 && 0 <= h.startMinute < 60
    && 0 <= h.endHour < 24 && 0 <= h.endMinute < 60
  }

  /** Clock times that no date has. */
  predicate Impossible(h: Hours) {
    h.Hours? && !Readable(h)
  }

  datatype Raised = Raised

  // ---- what the windows mean ----

  /** The minute of the day at which the window opens, on its own clock. */
  function Opens(h: Hours): int {
    if h.Hours? then 60 * h.startHour + h.startMinute else 0
  }

  function Closes(h: Hours): int {
    if h.Hours? then 60 * h.endHour + h.endMinute else 0
  }

  /** The clock on the wall at a minute of UTC. */
  function Clock(h: Hours, t: int): int {
    if h.Hours? then (t + h.offset) % 1440 else 0
  }

  /** The clock says working hours: from the opening to the closing, past midnight if the closing is the earlier,
      round the clock if they are the same. */
  predicate OnTheClock(h: Hours, t: int) {
    && Readable(h)
    && if Opens(h) < Closes(h) then Opens(h) <= Clock(h, t) < Closes(h)
       else Clock(h, t) >= Opens(h) || Clock(h, t) < Closes(h)
  }

  /** At some minute both are at work. Windows open and close on whole minutes, so that is any common stretch of
      time at all. */
  ghost predicate ShareTime(a: Hours, b: Hours) {
    exists t :: OnTheClock(a, t) && OnTheClock(b, t)
  }

  function Length(h: Hours): (n: int)
    requires Readable(h)
    ensures 0 < n <= 1440
  {
    if Opens(h) < Closes(h) then Closes(h) - Opens(h) else Closes(h) - Opens(h) + 1440
  }

  /** How much later than a's window b's opens on the same date. */
  function Lead(a: Hours, b: Hours): int
    requires Readable(a) && Readable(b)
  {
    (Opens(b) - b.offset) - (Opens(a) - a.offset)
  }

  /** The openings are close enough for neighbouring dates to be all that needs comparing. */
  predicate InReach(a: Hours, b: Hours)
    requires Readable(a) && Readable(b)
  {
    -1440 - Length(b) < Lead(a, b) < 1440 + Length(a)
  }

  // ---- how they are computed ----

  /** The half-open window [start, end), in minutes of UTC. */
  datatype Window = Window(start: int, end: int)

  /** The window that opens on the given date: at its local start, until the first time after that at which the
      clock shows the local end. */
  function Opening(h: Hours, day: int): (w: Window)
    requires Readable(h)
    ensures (w.start + h.offset) / 1440 == day && Clock(h, w.start) == Opens(h)
    ensures w.start < w.end <= w.start + 1440 && Clock(h, w.end) == Closes(h)
  {
    var start := 60 * h.startHour + h.startMinute;
    var end := 60 * h.endHour + h.endMinute;
    var closes := if end <= start then end + 1440 else end;
    Window(1440 * day + start - h.offset, 1440 * day + closes - h.offset)
  }

  /** What the parser rejects is no window; clock times that no date has are an exception. */
  function WindowMinutes(h: Hours, day: int): (w: Result<Option<Window>, Raised>)
    ensures w.Err? <==> Impossible(h)
    ensures w == Ok(None) <==> h.Unreadable?
    ensures w.Ok? && w.value.Some? ==>
              var window := w.value.value;
              && (window.start + h.offset) / 1440 == day && Clock(h, window.start) == Opens(h)
              && window.start < window.end <= window.start + 1440 && Clock(h, window.end) == Closes(h)
  {
    if h.Unreadable? then Ok(None)
    else if !Readable(h) then Err(Raised)
    else Ok(Some(Opening(h, day)))
  }

  /** Minute t belongs to the window that opens on that date. */
  predicate Works(h: Hours, day: int, t: int) {
    Readable(h) && Opening(h, day).start <= t < Opening(h, day).end
  }

  lemma OpeningIs(h: Hours, day: int)
    requires Readable(h)
    ensures Opening(h, day) == Window(1440 * day + Opens(h) - h.offset, 1440 * day + Opens(h) - h.offset + Length(h))
  {}

  /** The windows of all dates together are the clock's working hours. */
  lemma WindowsAreTheClock(h: Hours, t: int)
    ensures OnTheClock(h, t) <==> exists day :: Works(h, day, t)
  {
    if Readable(h) {
      var today := (t + h.offset) / 1440;
      OpeningIs(h, today);
      OpeningIs(h, today - 1);
      if OnTheClock(h, t) {
        assert Works(h, if Clock(h, t) >= Opens(h) then today else today - 1, t);
      }
      if day :| Works(h, day, t) {
        OpeningIs(h, day);
        assert today - 1 <= day <= today;
      }
    }
  }

  lemma SharedByWindows(a: Hours, b: Hours)
    ensures ShareTime(a, b) <==> exists i, j, t :: Works(a, i, t) && Works(b, j, t)
  {
    if t :| OnTheClock(a, t) && OnTheClock(b, t) {
      WindowsAreTheClock(a, t);
      WindowsAreTheClock(b, t);
    }
    if i, j, t :| Works(a, i, t) && Works(b, j, t) {
      WindowsAreTheClock(a, t);
      WindowsAreTheClock(b, t);
    }
  }

  /** a's window, opening `apart` dates after b's, meets it. */
  predicate Meets(a: Hours, b: Hours, apart: int) {
    Readable(a) && Readable(b) && Lead(a, b) - Length(a) < 1440 * apart < Lead(a, b) + Length(b)
  }

  lemma MeetingMinute(a: Hours, b: Hours, i: int, j: int)
    ensures Meets(a, b, i - j) <==> exists t :: Works(a, i, t) && Works(b, j, t)
  {
    if Readable(a) && Readable(b) {
      OpeningIs(a, i);
      OpeningIs(b, j);
      var t := Max(Opening(a, i).start, Opening(b, j).start);
      if Meets(a, b, i - j) {
        assert Works(a, i, t) && Works(b, j, t);
      }
    }
  }

  /** The scan over yesterday, today and tomorrow. */
  method HoursOverlap(a: Option<Hours>, b: Option<Hours>, today: int) returns (overlap: Result<bool, Raised>)
    ensures overlap.Err? <==> a.Some? && b.Some? && (Impossible(a.value) || Impossible(b.value))
    ensures overlap == Ok(true) <==>
          a.Some? && b.Some? && Readable(a.value) && Readable(b.value)
          && ShareTime(a.value, b.value) && InReach(a.value, b.value)
  {
    if a.None? || b.None? {
      return Ok(false);
    }
    var da := -1;
    while da <= 1
      invariant -1 <= da <= 2
      invariant forall d :: -1 <= d < da ==> !Meets(a.value, b.value, d)
      invariant da == -1 || !(Impossible(a.value) || Impossible(b.value))
    {
      var wa := WindowMinutes(a.value, today + da);
      if wa.Err? {
        return Err(wa.error);
      }
      var wb := WindowMinutes(b.value, today);
      if wb.Err? {
        return Err(wb.error);
      }
      if wa.value.Some? && wb.value.Some?
         && Min(wa.value.value.end, wb.value.value.end) > Max(wa.value.value.start, wb.value.value.start) {
        OpeningIs(a.value, today + da);
        OpeningIs(b.value, today);
        MeetingMeansSharing(a.value, b.value);
        assert Meets(a.value, b.value, da);
        return Ok(true);
      }
      da := da + 1;
    }
    MeetingMeansSharing(a.value, b.value);
    return Ok(false);
  }

  lemma MeetingMeansSharing(a: Hours, b: Hours)
    ensures (exists d :: -1 <= d <= 1 && Meets(a, b, d)) <==>
          Readable(a) && Readable(b) && ShareTime(a, b) && InReach(a, b)
  {
    SharedByWindows(a, b);
    if d :| -1 <= d <= 1 && Meets(a, b, d) {
      MeetingMinute(a, b, d, 0);
    }
    if Readable(a) && Readable(b) && ShareTime(a, b) && InReach(a, b) {
      var i, j, t :| Works(a, i, t) && Works(b, j, t);
      MeetingMinute(a, b, i, j);
      assert Meets(a, b, i - j);
      // Meeting farther apart while in reach means meeting on the neighbouring date too.
      assert Meets(a, b, if i - j > 1 then 1 else if i - j < -1 then -1 else i - j);
    }
  }

  /** When the openings on one date are at most a day apart, the answer is exact. */
  lemma ExactWithinADay(a: Hours, b: Hours)
    requires Readable(a) && Readable(b) && -1440 <= Lead(a, b) <= 1440
    ensures InReach(a, b)
    ensures (exists d :: -1 <= d <= 1 && Meets(a, b, d)) <==> ShareTime(a, b)
  {
    MeetingMeansSharing(a, b);
  }

  /** Zones more than a day of clock time apart are out of reach: midnight to eight at UTC+14 and eleven at
      night to seven at UTC-12 share seven hours of every day, and the scan finds none. */
  lemma FarZonesAreMissed()
    ensures var a := Hours(0, 0, 8, 0, 840);
            var b := Hours(23, 0, 7, 0, -720);
            Readable(a) && Readable(b) && ShareTime(a, b) && !InReach(a, b)
  {
    var a := Hours(0, 0, 8, 0, 840);
    var b := Hours(23, 0, 7, 0, -720);
    MeetingMinute(a, b, 2, 0);
    SharedByWindows(a, b);
    assert Meets(a, b, 2);
  }

  /** Whose window comes first in the question does not matter. */
  lemma OverlapIsSymmetric(a: Hours, b: Hours)
    requires Readable(a) && Readable(b)
    ensures ShareTime(a, b) && InReach(a, b) <==> ShareTime(b, a) && InReach(b, a)
  {}

  /** Sharing time is a question about the clock face alone: how far round the day b opens after a. */
  lemma SharingIsRoundTheClock(a: Hours, b: Hours)
    requires Readable(a) && Readable(b)
    ensures ShareTime(a, b) <==> Lead(a, b) % 1440 < Length(a) || Lead(a, b) % 1440 + Length(b) > 1440
  {
    SharedByWindows(a, b);
    var apart := Lead(a, b) / 1440;
    var round := Lead(a, b) % 1440;
    if ShareTime(a, b) {
      var i, j, t :| Works(a, i, t) && Works(b, j, t);
      MeetingMinute(a, b, i, j);
      assert apart <= i - j <= apart + 1;
    }
    if round < Length(a) {
      MeetingMinute(a, b, apart, 0);
      assert Meets(a, b, apart);
    }
    if round + Length(b) > 1440 {
      MeetingMinute(a, b, apart + 1, 0);
      assert Meets(a, b, apart + 1);
    }
  }
}
