/**
 Session windows (src/schedule.rs): when a session is active, and whether two
 instants fall in the same occurrence of its window.

 Instants are whole seconds of UTC; day 0 is a Sunday, so that weekdays number
 Sunday = 1 .. Saturday = 7 as in the source.
 */
module Schedules {

  const DAY: int := 86_400
  const WEEK: int := 604_800

  /** `startDay` and `endDay` are -1 for a daily window. */
  datatype Schedule = Schedule(start: int, end: int, startDay: int, endDay: int, nonStop: bool)

  predicate Valid(s: Schedule) {
    && 0 <= s.start < DAY && 0 <= s.end < DAY
    && ((s.startDay == -1 && s.endDay == -1) || (1 <= s.startDay <= 7 && 1 <= s.endDay <= 7))
  }

  // ----- calendar parts of an instant -----

  function DayNumber(t: int): int { t / DAY }
  function TimeOfDay(t: int): int { t % DAY }
  function Weekday(t: int): int { DayNumber(t) % 7 + 1 }

  // ----- the source's case analysis -----

  predicate InDaily(start: int, end: int, tod: int) {
    if start < end then tod >= start && tod <= end else tod >= start || tod <= end
  }

  predicate InWeekly(s: Schedule, tod: int, day: int) {
    var (sd, ed) := (s.startDay, s.endDay);
    if sd == ed then
      day != sd || InDaily(s.start, s.end, tod)
    else if sd < ed && (day < sd || day > ed) then false
    else if sd > ed && day < sd && day > ed then false
    else if day == sd && tod < s.start then false
    else if day == ed && tod > s.end then false
    else true
  }

  predicate IsInRange(s: Schedule, now: int) {
    if s.nonStop then true
    else if s.startDay < 0 then InDaily(s.start, s.end, TimeOfDay(now))
    else InWeekly(s, TimeOfDay(now), Weekday(now))
  }

  predicate SameDaily(s: Schedule, t1: int, t2: int) {
    if s.start <= s.end then
      DayNumber(t1) == DayNumber(t2)
    else
      var sessionLength := DAY - (s.start - s.end);
      var diff := t1 - t2;
      if diff > 0 then
        var delta0 := TimeOfDay(t2) - s.start;
        var delta := if delta0 < 0 then DAY - (-delta0) else delta0;
        diff < sessionLength - delta
      else
        -diff < sessionLength
  }

  /** Day number of the most recent window start. */
  function RangeStartDate(s: Schedule, now: int): int {
    var (tod, wd, jul) := (TimeOfDay(now), Weekday(now), DayNumber(now));
    var sd := s.startDay;
    if wd > sd then jul - wd + sd
    else if wd < sd then jul - wd + sd - 7
    else if tod >= s.start then jul
    else jul - 7
  }

  predicate SameWeeklySameDay(s: Schedule, t1: int, t2: int) {
    var (tod1, wd1, day1) := (TimeOfDay(t1), Weekday(t1), DayNumber(t1));
    var (tod2, day2) := (TimeOfDay(t2), DayNumber(t2));
    var sd := s.startDay;
    var apart := if day1 < day2 then day2 - day1 else day1 - day2;
    if day1 == day2 && sd == wd1 then
      (tod1 <= s.end && tod2 <= s.end) || (tod1 >= s.start && tod2 >= s.start)
    else if day1 == day2 then true
    else if apart > 7 then false
    else if apart == 7 then
      wd1 == sd
      && (if day2 > day1 then tod1 >= s.start && tod2 <= s.end else tod2 >= s.start && tod1 <= s.end)
    else RangeStartDate(s, t1) == RangeStartDate(s, t2)
  }

  predicate IsInSameRange(s: Schedule, now: int, other: int) {
    if s.nonStop then true
    else if !IsInRange(s, now) || !IsInRange(s, other) then false
    else if now == other then true
    else if s.startDay < 0 then SameDaily(s, now, other)
    else if s.startDay != s.endDay then RangeStartDate(s, now) == RangeStartDate(s, other)
    else SameWeeklySameDay(s, now, other)
  }

  // ----- the reference: a window is a periodic family of closed intervals -----

  predicate Overnight(s: Schedule) { s.startDay == -1 && s.start > s.end }

  /** A weekly window whose start and end day coincide, opening no later than it closes. */
  predicate FoldedWeek(s: Schedule) { s.startDay >= 0 && s.startDay == s.endDay && s.start <= s.end }

  predicate Regular(s: Schedule) { Valid(s) && !s.nonStop && !Overnight(s) && !FoldedWeek(s) }

  /** Occurrence k is the interval [k * period + open, k * period + close]. */
  datatype Window = Window(period: int, open: int, close: int)

  /** A week contains one occurrence of a weekly window, a day one of a daily window. */
  function WindowOf(s: Schedule): (w: Window)
    requires Valid(s) && !s.nonStop && !FoldedWeek(s)
    ensures w.period == DAY || w.period == WEEK
    ensures 0 <= w.close - w.open < w.period
  {
    if s.startDay < 0 then
      if s.start == s.end then Window(DAY, 0, DAY - 1)
      else if s.start < s.end then Window(DAY, s.start, s.end)
      else Window(DAY, s.start, DAY + s.end)
    else
      var length := if s.startDay < s.endDay then s.endDay - s.startDay else s.endDay - s.startDay + 7;
      Window(WEEK, (s.startDay - 1) * DAY + s.start, (s.startDay - 1 + length) * DAY + s.end)
  }

  ghost predicate InOccurrence(w: Window, k: int, t: int) {
    k * w.period + w.open <= t <= k * w.period + w.close
  }

  ghost predicate SameOccurrence(w: Window, a: int, b: int) {
    exists k: int :: InOccurrence(w, k, a) && InOccurrence(w, k, b)
  }

  /** The only occurrence that can contain `t`. */
  function OccurrenceIndex(w: Window, t: int): int
    requires w.period > 0
  {
    (t - w.open) / w.period
  }

  lemma IndexIsUnique(w: Window, k: int, t: int)
    requires w.period == DAY || w.period == WEEK
    requires 0 <= w.close - w.open < w.period
    ensures InOccurrence(w, k, t) <==> k == OccurrenceIndex(w, t) && (t - w.open) % w.period <= w.close - w.open
  {
  }

  lemma SameOccurrenceByIndex(w: Window, a: int, b: int)
    requires w.period == DAY || w.period == WEEK
    requires 0 <= w.close - w.open < w.period
    ensures SameOccurrence(w, a, b) <==>
            && OccurrenceIndex(w, a) == OccurrenceIndex(w, b)
            && (a - w.open) % w.period <= w.close - w.open
            && (b - w.open) % w.period <= w.close - w.open
  {
    IndexIsUnique(w, OccurrenceIndex(w, a), a);
    IndexIsUnique(w, OccurrenceIndex(w, a), b);
    forall k: int
      ensures InOccurrence(w, k, a) && InOccurrence(w, k, b) ==>
              k == OccurrenceIndex(w, a) && InOccurrence(w, OccurrenceIndex(w, a), b)
    {
      IndexIsUnique(w, k, a);
    }
    IndexIsUnique(w, OccurrenceIndex(w, b), b);
  }

  /** An instant in terms of its week, weekday and time of day. */
  lemma Calendar(t: int) returns (week: int)
    ensures DayNumber(t) == 7 * week + Weekday(t) - 1
    ensures t == week * WEEK + (Weekday(t) - 1) * DAY + TimeOfDay(t)
    ensures 1 <= Weekday(t) <= 7 && 0 <= TimeOfDay(t) < DAY
  {
    week := DayNumber(t) / 7;
  }

  /** Position of an instant relative to a weekly window, without division. */
  lemma WeeklyIndex(w: Window, week: int, offset: int)
    requires w.period == WEEK && 0 <= w.open < WEEK && 0 <= offset < WEEK
    ensures OccurrenceIndex(w, week * WEEK + offset) == if offset >= w.open then week else week - 1
    ensures (week * WEEK + offset - w.open) % WEEK == if offset >= w.open then offset - w.open else offset - w.open + WEEK
  {
  }

  /** Being in range is being inside some occurrence, overnight windows included. */
  lemma RangeIsUnionOfOccurrences(s: Schedule, t: int)
    requires Valid(s) && !s.nonStop && !FoldedWeek(s)
    ensures IsInRange(s, t) <==> exists k: int :: InOccurrence(WindowOf(s), k, t)
  {
    var w := WindowOf(s);
    InRangeByOffset(s, t);
    IndexIsUnique(w, OccurrenceIndex(w, t), t);
    forall k: int ensures InOccurrence(w, k, t) ==> (t - w.open) % w.period <= w.close - w.open {
      IndexIsUnique(w, k, t);
    }
  }

  lemma InRangeByOffset(s: Schedule, t: int)
    requires Valid(s) && !s.nonStop && !FoldedWeek(s)
    ensures var w := WindowOf(s); IsInRange(s, t) <==> (t - w.open) % w.period <= w.close - w.open
  {
    var week := Calendar(t);
    if s.startDay >= 0 {
      WeeklyIndex(WindowOf(s), week, (Weekday(t) - 1) * DAY + TimeOfDay(t));
    }
  }

  /** For a weekly window, the start date names the occurrence. */
  lemma StartDateIsIndex(s: Schedule, t: int)
    requires Valid(s) && !s.nonStop && !FoldedWeek(s) && s.startDay >= 0
    ensures RangeStartDate(s, t) == 7 * OccurrenceIndex(WindowOf(s), t) + s.startDay - 1
  {
    var week := Calendar(t);
    WeeklyIndex(WindowOf(s), week, (Weekday(t) - 1) * DAY + TimeOfDay(t));
  }

  lemma SameDayWindow(s: Schedule, a: int, b: int)
    requires Regular(s) && s.startDay >= 0 && s.startDay == s.endDay
    requires IsInRange(s, a) && IsInRange(s, b)
    ensures SameWeeklySameDay(s, a, b) <==> OccurrenceIndex(WindowOf(s), a) == OccurrenceIndex(WindowOf(s), b)
  {
    var weekA := Calendar(a);
    var weekB := Calendar(b);
    StartDateIsIndex(s, a);
    StartDateIsIndex(s, b);
  }

  lemma DaytimeWindow(s: Schedule, a: int, b: int)
    requires Regular(s) && s.startDay < 0
    requires IsInRange(s, a) && IsInRange(s, b)
    ensures SameDaily(s, a, b) <==> OccurrenceIndex(WindowOf(s), a) == OccurrenceIndex(WindowOf(s), b)
  {
    DaytimeIndex(s, a);
    DaytimeIndex(s, b);
  }

  lemma DaytimeIndex(s: Schedule, t: int)
    requires Regular(s) && s.startDay < 0 && IsInRange(s, t)
    ensures OccurrenceIndex(WindowOf(s), t) == DayNumber(t)
  {
  }

  /** The case analysis decides "same occurrence" exactly, for every regular window. */
  lemma SameRangeIsSameOccurrence(s: Schedule, a: int, b: int)
    requires Regular(s)
    ensures IsInSameRange(s, a, b) <==> SameOccurrence(WindowOf(s), a, b)
  {
    var w := WindowOf(s);
    SameOccurrenceByIndex(w, a, b);
    InRangeByOffset(s, a);
    InRangeByOffset(s, b);
    if IsInRange(s, a) && IsInRange(s, b) {
      if s.startDay < 0 {
        DaytimeWindow(s, a, b);
      } else if s.startDay != s.endDay {
        StartDateIsIndex(s, a);
        StartDateIsIndex(s, b);
      } else {
        SameDayWindow(s, a, b);
      }
    }
  }

  /** An occurrence has no holes: whatever lies between two of its instants belongs to it. */
  lemma OccurrenceIsConvex(s: Schedule, a: int, b: int, c: int)
    requires Regular(s) && a <= b <= c && IsInSameRange(s, c, a)
    ensures IsInSameRange(s, c, b) && IsInSameRange(s, b, a)
  {
    SameRangeIsSameOccurrence(s, c, a);
    SameRangeIsSameOccurrence(s, c, b);
    SameRangeIsSameOccurrence(s, b, a);
    var k: int :| InOccurrence(WindowOf(s), k, c) && InOccurrence(WindowOf(s), k, a);
    assert InOccurrence(WindowOf(s), k, b);
  }

  /** On in-range instants of a regular window the relation is an equivalence. */
  lemma SameRangeIsEquivalence(s: Schedule, a: int, b: int, c: int)
    requires Regular(s) && IsInRange(s, a)
    ensures IsInSameRange(s, a, a)
    ensures IsInSameRange(s, a, b) ==> IsInSameRange(s, b, a)
    ensures IsInSameRange(s, a, b) && IsInSameRange(s, b, c) ==> IsInSameRange(s, a, c)
  {
    var w := WindowOf(s);
    SameRangeIsSameOccurrence(s, a, b);
    SameRangeIsSameOccurrence(s, b, a);
    SameRangeIsSameOccurrence(s, b, c);
    SameRangeIsSameOccurrence(s, a, c);
    SameOccurrenceByIndex(w, a, b);
    SameOccurrenceByIndex(w, b, c);
    SameOccurrenceByIndex(w, a, c);
  }

  // ----- where the case analysis departs from "same occurrence" -----

  ghost predicate ClosingSecond(s: Schedule, t: int)
    requires Valid(s) && !s.nonStop && !FoldedWeek(s)
  {
    var w := WindowOf(s); (t - w.open) % w.period == w.close - w.open
  }

  /** How far into an overnight occurrence an instant lies, as the source computes it. */
  lemma OvernightOffset(s: Schedule, t: int)
    requires Valid(s) && !s.nonStop && Overnight(s)
    ensures var delta := TimeOfDay(t) - s.start;
            (t - WindowOf(s).open) % DAY == if delta < 0 then DAY - (-delta) else delta
  {
    var delta := TimeOfDay(t) - s.start;
    assert t - s.start == DayNumber(t) * DAY + delta;
  }

  /** Overnight, asked about an earlier instant: right except while the closing second lasts. */
  lemma OvernightLooksBack(s: Schedule, now: int, other: int)
    requires Valid(s) && !s.nonStop && Overnight(s)
    requires IsInRange(s, now) && IsInRange(s, other) && other < now
    ensures IsInSameRange(s, now, other) <==> SameOccurrence(WindowOf(s), now, other) && !ClosingSecond(s, now)
  {
    hide IsInRange, TimeOfDay, DayNumber, InOccurrence, SameOccurrence;
    SameOccurrenceByIndex(WindowOf(s), now, other);
    InRangeByOffset(s, now);
    InRangeByOffset(s, other);
    OvernightOffset(s, other);
  }

  /** Overnight, asked about a later instant: only the distance counts. It is right iff the two are
      closer than the rest of now's occurrence allows, or at least a full session length apart
      (but not exactly from opening to closing second). */
  lemma OvernightLooksAhead(s: Schedule, now: int, other: int)
    requires Valid(s) && !s.nonStop && Overnight(s)
    requires IsInRange(s, now) && IsInRange(s, other) && now < other
    ensures var w := WindowOf(s);
            var length := w.close - w.open;
            var left := length - (now - w.open) % w.period;
            (IsInSameRange(s, now, other) <==> SameOccurrence(w, now, other))
            <==> (other - now <= left && other - now < length) || (other - now > left && other - now >= length)
  {
    SameOccurrenceByIndex(WindowOf(s), now, other);
    InRangeByOffset(s, now);
    InRangeByOffset(s, other);
  }

  /** Every overnight window has a pair the answer gets wrong: its closing and opening second. */
  lemma OvernightIsInexact(s: Schedule, k: int)
    requires Valid(s) && !s.nonStop && Overnight(s)
    ensures var w := WindowOf(s);
            var (open, close) := (k * w.period + w.open, k * w.period + w.close);
            SameOccurrence(w, close, open) && !IsInSameRange(s, close, open)
  {
    var w := WindowOf(s);
    var (open, close) := (k * w.period + w.open, k * w.period + w.close);
    assert InOccurrence(w, k, close) && InOccurrence(w, k, open);
    IndexIsUnique(w, k, close);
    InRangeByOffset(s, close);
    IndexIsUnique(w, k, open);
    InRangeByOffset(s, open);
    OvernightLooksBack(s, close, open);
    assert close - w.open == k * w.period + (w.close - w.open);
  }

  lemma InstantOf(week: int, day: int, tod: int)
    requires 1 <= day <= 7 && 0 <= tod < DAY
    ensures var t := week * WEEK + (day - 1) * DAY + tod;
            DayNumber(t) == 7 * week + day - 1 && TimeOfDay(t) == tod && Weekday(t) == day
  {
    var t := week * WEEK + (day - 1) * DAY + tod;
    assert t == (7 * week + day - 1) * DAY + tod;
  }

  /** A folded week is never an equivalence: transitivity fails one week after any opening. */
  lemma FoldedWeekIsNotTransitive(s: Schedule, week: int)
    requires Valid(s) && !s.nonStop && FoldedWeek(s)
    ensures var opening := week * WEEK + (s.startDay - 1) * DAY + s.start;
            var nextDay := week * WEEK + s.startDay * DAY;
            && IsInSameRange(s, nextDay, opening)
            && IsInSameRange(s, opening, opening + WEEK)
            && !IsInSameRange(s, nextDay, opening + WEEK)
  {
    var opening := week * WEEK + (s.startDay - 1) * DAY + s.start;
    var nextDay := week * WEEK + s.startDay * DAY;
    hide DayNumber, TimeOfDay, Weekday;
    InstantOf(week, s.startDay, s.start);
    InstantOf(week + 1, s.startDay, s.start);
    if s.startDay < 7 {
      InstantOf(week, s.startDay + 1, 0);
    } else {
      InstantOf(week + 1, 1, 0);
    }
    assert opening + WEEK == (week + 1) * WEEK + (s.startDay - 1) * DAY + s.start;
  }

  /** A non-stop session has one occurrence that never ends. */
  lemma NonStopNeverEnds(s: Schedule, a: int, b: int)
    requires s.nonStop
    ensures IsInRange(s, a) && IsInSameRange(s, a, b)
  {
  }
}
