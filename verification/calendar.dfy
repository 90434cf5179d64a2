/** app/student/calendar/page.tsx: interviews, application deadlines and
    challenge deadlines merged into one event list, the month grid, the
    events of a day, the heat intensity and month navigation.

    Days are civil dates of the proleptic Gregorian calendar in one
    reference time zone (UTC): an instant falls on the day whose number,
    counted from 1970-01-01, is its millisecond value divided by 86 400 000
    rounded down. */
module Calendar {
  import opened Wrappers
  import opened Types
  import Seqs

  datatype EventKind = InterviewEvent | DeadlineEvent | ChallengeEvent

  /** The record an event was made from. */
  datatype Source = FromInterview(interview: Interview) | FromJob(job: Job) | FromChallenge(challenge: Challenge)

  datatype CalendarEvent = CalendarEvent(date: Millis, kind: EventKind, title: string, source: Source)

  /** An event's kind, date and title are those of the record it came from. */
  predicate WellFormed(e: CalendarEvent) {
    match e.source
    case FromInterview(i) => e.kind == InterviewEvent && e.date == i.datetime && e.title == "Interview"
    case FromJob(j) => e.kind == DeadlineEvent && e.date == j.deadline && e.title == j.title
    case FromChallenge(c) => e.kind == ChallengeEvent && e.date == c.deadline && e.title == c.title
  }

  function InterviewEvents(interviews: seq<Interview>): (r: seq<CalendarEvent>)
    ensures |r| == |interviews|
    ensures forall k :: 0 <= k < |r| ==> WellFormed(r[k]) && r[k].source == FromInterview(interviews[k])
  {
    if |interviews| == 0 then []
    else
      var i := interviews[0];
      [CalendarEvent(i.datetime, InterviewEvent, "Interview", FromInterview(i))] + InterviewEvents(interviews[1..])
  }

  predicate Exists(doc: Option<Job>) {
    doc.Some?
  }

  /** One deadline event per job document that still exists, in order. */
  function DeadlineEvents(fetched: seq<Option<Job>>): (r: seq<CalendarEvent>)
    ensures |r| == Seqs.Count(fetched, Exists)
    ensures forall k :: 0 <= k < |r| ==> WellFormed(r[k]) && r[k].source.FromJob? && Some(r[k].source.job) in fetched
  {
    if |fetched| == 0 then []
    else
      var rest := DeadlineEvents(fetched[1..]);
      assert forall k :: 0 <= k < |rest| ==> Some(rest[k].source.job) in fetched[1..];
      if fetched[0].None? then rest
      else
        var j := fetched[0].value;
        [CalendarEvent(j.deadline, DeadlineEvent, j.title, FromJob(j))] + rest
  }

  /** The job document behind each event, `None` for other kinds. */
  function JobDocs(events: seq<CalendarEvent>): seq<Option<Job>> {
    seq(|events|, k requires 0 <= k < |events| =>
      if events[k].source.FromJob? then Some(events[k].source.job) else None)
  }

  lemma JobDocsCons(e: CalendarEvent, events: seq<CalendarEvent>)
    ensures JobDocs([e] + events) == JobDocs([e]) + JobDocs(events)
  {
  }

  /** The deadline events come from the job documents that still exist, one
      event per document, in the order fetched. */
  lemma {:induction false} DeadlinesFollowFetch(fetched: seq<Option<Job>>)
    ensures JobDocs(DeadlineEvents(fetched)) == Seqs.Filter(fetched, Exists)
  {
    if |fetched| > 0 {
      DeadlinesFollowFetch(fetched[1..]);
      Seqs.FilterCons(fetched, Exists);
      var rest := DeadlineEvents(fetched[1..]);
      if fetched[0].Some? {
        var j := fetched[0].value;
        var e := CalendarEvent(j.deadline, DeadlineEvent, j.title, FromJob(j));
        assert DeadlineEvents(fetched) == [e] + rest;
        JobDocsCons(e, rest);
        assert JobDocs([e]) == [fetched[0]];
      } else {
        assert DeadlineEvents(fetched) == rest;
      }
    }
  }

  function ChallengeEvents(challenges: seq<Challenge>): (r: seq<CalendarEvent>)
    ensures |r| == |challenges|
    ensures forall k :: 0 <= k < |r| ==> WellFormed(r[k]) && r[k].source == FromChallenge(challenges[k])
  {
    if |challenges| == 0 then []
    else
      var c := challenges[0];
      [CalendarEvent(c.deadline, ChallengeEvent, c.title, FromChallenge(c))] + ChallengeEvents(challenges[1..])
  }

  /** `loadCalendarData`: all interviews, then the deadlines of the applied
      jobs that still exist, then all challenges. */
  function MergeEvents(interviews: seq<Interview>, fetchedJobs: seq<Option<Job>>, challenges: seq<Challenge>): (r: seq<CalendarEvent>)
    ensures forall k :: 0 <= k < |r| ==> WellFormed(r[k])
    ensures |r| == |interviews| + Seqs.Count(fetchedJobs, Exists) + |challenges|
    ensures forall k :: 0 <= k < |interviews| ==> r[k].source == FromInterview(interviews[k])
    ensures forall k :: |interviews| <= k < |r| - |challenges| ==> r[k].kind == DeadlineEvent
    ensures r[|interviews|..|r| - |challenges|] == DeadlineEvents(fetchedJobs)
    ensures forall k :: 0 <= k < |challenges| ==> r[|r| - |challenges| + k].source == FromChallenge(challenges[k])
  {
    var a := InterviewEvents(interviews);
    var b := DeadlineEvents(fetchedJobs);
    var c := ChallengeEvents(challenges);
    var r := a + b + c;
    AllWellFormed(a, b, c);
    assert forall k :: 0 <= k < |a| ==> r[k] == a[k];
    assert forall k :: 0 <= k < |b| ==> r[|a| + k] == b[k];
    assert forall k :: 0 <= k < |c| ==> r[|a| + |b| + k] == c[k];
    r
  }

  lemma AllWellFormed(a: seq<CalendarEvent>, b: seq<CalendarEvent>, c: seq<CalendarEvent>)
    requires forall k :: 0 <= k < |a| ==> WellFormed(a[k])
    requires forall k :: 0 <= k < |b| ==> WellFormed(b[k])
    requires forall k :: 0 <= k < |c| ==> WellFormed(c[k])
    ensures forall k :: 0 <= k < |a + b + c| ==> WellFormed((a + b + c)[k])
  {
    forall k | 0 <= k < |a + b + c|
      ensures WellFormed((a + b + c)[k])
    {
      if k < |a| {
        assert (a + b + c)[k] == a[k];
      } else if k < |a| + |b| {
        assert (a + b + c)[k] == b[k - |a|];
      } else {
        assert (a + b + c)[k] == c[k - |a| - |b|];
      }
    }
  }

  // ---- Civil dates ----

  datatype Date = Date(year: int, month: int, day: int)

  predicate IsLeap(y: int) {
    y % 4 == 0 && (y % 100 != 0 || y % 400 == 0)
  }

  function DaysInMonth(y: int, m: int): int
    requires 1 <= m <= 12
  {
    if m == 2 then (if IsLeap(y) then 29 else 28)
    else if m == 4 || m == 6 || m == 9 || m == 11 then 30
    else 31
  }

  predicate ValidDate(d: Date) {
    1 <= d.month <= 12 && 1 <= d.day <= DaysInMonth(d.year, d.month)
  }

  /** Day number of a civil date, 1970-01-01 being day 0, by the era
      decomposition (400-year cycles of 146 097 days, years starting in
      March). */
  function DaysFromCivil(y: int, m: int, d: int): int
    requires 1 <= m <= 12
  {
    var yy := if m <= 2 then y - 1 else y;
    var era := yy / 400;
    var yoe := yy - era * 400;
    var mp := if m > 2 then m - 3 else m + 9;
    var doy := (153 * mp + 2) / 5 + d - 1;
    var doe := yoe * 365 + yoe / 4 - yoe / 100 + doy;
    era * 146097 + doe - 719468
  }

  /** `getDay`: 0 is Sunday; day 0 (1970-01-01) was a Thursday. */
  function Weekday(y: int, m: int, d: int): (w: int)
    requires 1 <= m <= 12
    ensures 0 <= w <= 6
  {
    (DaysFromCivil(y, m, d) + 4) % 7
  }

  const MillisPerDay: int := 86_400_000

  function EpochDay(t: Millis): int {
    t / MillisPerDay
  }

  predicate OnDay(e: CalendarEvent, date: Date)
    requires 1 <= date.month <= 12
  {
    EpochDay(e.date) == DaysFromCivil(date.year, date.month, date.day)
  }

  lemma EpochAnchor()
    ensures DaysFromCivil(1970, 1, 1) == 0
    ensures Weekday(1970, 1, 1) == 4
  {
  }

  /** Consecutive days of a month have consecutive day numbers. */
  lemma DaysWithinMonth(y: int, m: int, d: int)
    requires 1 <= m <= 12
    ensures DaysFromCivil(y, m, d) == DaysFromCivil(y, m, 1) + d - 1
  {
  }

  /** Offset of the first of month `mp` (0 = March, ..., 11 = February)
      within a March-based year. */
  function MonthOffset(mp: int): int {
    (153 * mp + 2) / 5
  }

  lemma MonthOffsets()
    ensures MonthOffset(0) == 0 && MonthOffset(1) == 31 && MonthOffset(2) == 61
    ensures MonthOffset(3) == 92 && MonthOffset(4) == 122 && MonthOffset(5) == 153
    ensures MonthOffset(6) == 184 && MonthOffset(7) == 214 && MonthOffset(8) == 245
    ensures MonthOffset(9) == 275 && MonthOffset(10) == 306 && MonthOffset(11) == 337
  {
  }

  /** Day number of a date given as a March-based year and month. */
  lemma DaysFromCivilShape(y: int, m: int, d: int)
    requires 1 <= m <= 12
    ensures var yy := if m <= 2 then y - 1 else y;
      var mp := if m > 2 then m - 3 else m + 9;
      DaysFromCivil(y, m, d) == YearStart(yy) + MonthOffset(mp) + d - 1
  {
  }

  /** Day number of 1 March of year `yy`. */
  function YearStart(yy: int): int {
    var era := yy / 400;
    var yoe := yy - era * 400;
    era * 146097 + yoe * 365 + yoe / 4 - yoe / 100 - 719468
  }

  lemma DivStep(a: int)
    requires 0 <= a
    ensures (a + 1) / 4 - a / 4 == (if (a + 1) % 4 == 0 then 1 else 0)
    ensures (a + 1) / 100 - a / 100 == (if (a + 1) % 100 == 0 then 1 else 0)
  {
  }

  /** `y % m` is the remainder of any decomposition `y == m * a + b` with
      `0 <= b < m`. */
  lemma ModUnique(y: int, m: int, a: int, b: int)
    requires m > 0 && 0 <= b < m && y == m * a + b
    ensures y % m == b
  {
    var d := a - y / m;
    assert m * d == y % m - b;
  }

  lemma ModShift(x: int, e: int)
    ensures (x + 400 * e) % 4 == x % 4
    ensures (x + 400 * e) % 100 == x % 100
  {
    ModUnique(x + 400 * e, 4, x / 4 + 100 * e, x % 4);
    ModUnique(x + 400 * e, 100, x / 100 + 4 * e, x % 100);
  }

  /** A March-based year has 366 days exactly when the following January
      and February belong to a leap year. */
  lemma YearLength(yy: int)
    ensures YearStart(yy + 1) - YearStart(yy) == (if IsLeap(yy + 1) then 366 else 365)
  {
    var era := yy / 400;
    var yoe := yy - era * 400;
    assert 0 <= yoe < 400;
    if yoe == 399 {
      assert yy + 1 == 400 * (era + 1);
      assert (yy + 1) / 400 == era + 1;
      assert (yy + 1) % 400 == 0;
      ModShift(0, era + 1);
    } else {
      var yoe' := yoe + 1;
      assert yy + 1 == yoe' + 400 * era;
      assert (yy + 1) / 400 == era;
      ModShift(yoe', era);
      assert (yy + 1) % 400 == yoe';
      DivStep(yoe);
    }
  }

  /** The month lengths agree with the day numbering: the first of the next
      month comes exactly `DaysInMonth` days after the first of this one. */
  lemma NextMonthFollows(y: int, m: int)
    requires 1 <= m <= 12
    ensures var n := if m == 12 then DaysFromCivil(y + 1, 1, 1) else DaysFromCivil(y, m + 1, 1);
      n == DaysFromCivil(y, m, 1) + DaysInMonth(y, m)
  {
    MonthOffsets();
    DaysFromCivilShape(y, m, 1);
    if m == 12 {
      DaysFromCivilShape(y + 1, 1, 1);
    } else {
      DaysFromCivilShape(y, m + 1, 1);
      if m == 2 {
        YearLength(y - 1);
      }
    }
  }

  /** The weekday of the next month's first day follows from this month's. */
  lemma NextMonthWeekday(y: int, m: int)
    requires 1 <= m <= 12
    ensures var w := if m == 12 then Weekday(y + 1, 1, 1) else Weekday(y, m + 1, 1);
      w == (Weekday(y, m, 1) + DaysInMonth(y, m)) % 7
  {
    NextMonthFollows(y, m);
    var a := DaysFromCivil(y, m, 1) + 4;
    ModAdd(a, DaysInMonth(y, m));
  }

  lemma ModAdd(x: int, n: int)
    ensures (x % 7 + n) % 7 == (x + n) % 7
  {
  }

  /** `getDaysInMonth`: one empty cell per weekday before the first, then
      every day of the month in order. */
  method MonthGrid(y: int, m: int) returns (cells: seq<Option<Date>>)
    requires 1 <= m <= 12
    ensures var lead := Weekday(y, m, 1);
      |cells| == lead + DaysInMonth(y, m)
      && (forall i :: 0 <= i < lead ==> cells[i] == None)
      && (forall d :: 1 <= d <= DaysInMonth(y, m) ==> cells[lead + d - 1] == Some(Date(y, m, d)))
    ensures forall i :: 0 <= i < |cells| && cells[i].Some? ==> ValidDate(cells[i].value)
  {
    var startingDayOfWeek := Weekday(y, m, 1);
    var daysInMonth := DaysInMonth(y, m);
    cells := [];
    var i := 0;
    while i < startingDayOfWeek
      invariant 0 <= i <= startingDayOfWeek
      invariant |cells| == i
      invariant forall k :: 0 <= k < i ==> cells[k] == None
      invariant forall k :: 0 <= k < |cells| && cells[k].Some? ==> ValidDate(cells[k].value)
    {
      cells := cells + [None];
      i := i + 1;
    }
    var d := 1;
    while d <= daysInMonth
      invariant 1 <= d <= daysInMonth + 1
      invariant |cells| == startingDayOfWeek + d - 1
      invariant forall k :: 0 <= k < startingDayOfWeek ==> cells[k] == None
      invariant forall e :: 1 <= e < d ==> cells[startingDayOfWeek + e - 1] == Some(Date(y, m, e))
      invariant forall k :: 0 <= k < |cells| && cells[k].Some? ==> ValidDate(cells[k].value)
    {
      cells := cells + [Some(Date(y, m, d))];
      d := d + 1;
    }
  }

  /** `getEventsForDate`: the events falling on the given day, in list order. */
  function EventsForDate(events: seq<CalendarEvent>, date: Date): (r: seq<CalendarEvent>)
    requires 1 <= date.month <= 12
    ensures Seqs.IsSubsequence(r, events)
    ensures forall k :: 0 <= k < |r| ==> OnDay(r[k], date)
    ensures forall k :: 0 <= k < |events| && OnDay(events[k], date) ==> events[k] in r
    ensures |r| == Seqs.Count(events, e => OnDay(e, date))
  {
    Seqs.FilterLength(events, e => OnDay(e, date));
    Seqs.Filter(events, e => OnDay(e, date))
  }

  /** `getIntensity`: the day's event count capped at 5; 0 for an empty cell. */
  function Intensity(events: seq<CalendarEvent>, cell: Option<Date>): (r: int)
    requires cell.Some? ==> 1 <= cell.value.month <= 12
    ensures 0 <= r <= 5
    ensures cell.None? ==> r == 0
    ensures cell.Some? ==> (r == 0 <==> forall k :: 0 <= k < |events| ==> !OnDay(events[k], cell.value))
    ensures cell.Some? && r < 5 ==> r == |EventsForDate(events, cell.value)|
    ensures cell.Some? ==> (r == 5 <==> |EventsForDate(events, cell.value)| >= 5)
  {
    if cell.None? then 0
    else
      var n := |EventsForDate(events, cell.value)|;
      if n < 5 then n else 5
  }

  /** The badges drawn in a day cell: the first three events of the day. */
  function Badges(events: seq<CalendarEvent>, date: Date): (r: seq<CalendarEvent>)
    requires 1 <= date.month <= 12
    ensures |r| <= 3
    ensures r <= EventsForDate(events, date)
    ensures |EventsForDate(events, date)| <= 3 ==> r == EventsForDate(events, date)
    ensures |EventsForDate(events, date)| >= 3 ==> |r| == 3
  {
    var all := EventsForDate(events, date);
    if |all| <= 3 then all else all[..3]
  }

  /** The month shown; `month` is 1 to 12. */
  datatype YearMonth = YearMonth(year: int, month: int)

  predicate ValidMonth(ym: YearMonth) {
    1 <= ym.month <= 12
  }

  /** Months counted from year 0. */
  function MonthIndex(ym: YearMonth): int {
    12 * ym.year + ym.month - 1
  }

  /** The left arrow: `new Date(year, month - 1)`. */
  function PrevMonth(ym: YearMonth): (r: YearMonth)
    requires ValidMonth(ym)
    ensures ValidMonth(r) && MonthIndex(r) == MonthIndex(ym) - 1
  {
    if ym.month == 1 then YearMonth(ym.year - 1, 12) else YearMonth(ym.year, ym.month - 1)
  }

  /** The right arrow: `new Date(year, month + 1)`. */
  function NextMonth(ym: YearMonth): (r: YearMonth)
    requires ValidMonth(ym)
    ensures ValidMonth(r) && MonthIndex(r) == MonthIndex(ym) + 1
  {
    if ym.month == 12 then YearMonth(ym.year + 1, 1) else YearMonth(ym.year, ym.month + 1)
  }

  /** A valid month is determined by its index. */
  lemma MonthIndexInjective(a: YearMonth, b: YearMonth)
    requires ValidMonth(a) && ValidMonth(b) && MonthIndex(a) == MonthIndex(b)
    ensures a == b
  {
    assert 12 * (a.year - b.year) == b.month - a.month;
  }

  /** Going back then forward (or forward then back) returns to the same
      month; January goes back to December of the previous year. */
  lemma NavigationRoundTrip(ym: YearMonth)
    requires ValidMonth(ym)
    ensures NextMonth(PrevMonth(ym)) == ym
    ensures PrevMonth(NextMonth(ym)) == ym
    ensures ym.month == 1 ==> PrevMonth(ym) == YearMonth(ym.year - 1, 12)
    ensures ym.month == 12 ==> NextMonth(ym) == YearMonth(ym.year + 1, 1)
  {
    MonthIndexInjective(NextMonth(PrevMonth(ym)), ym);
    MonthIndexInjective(PrevMonth(NextMonth(ym)), ym);
  }

  /** An interview and a deadline on 5 March 2024 and a challenge deadline on
      10 March 2024: day 5 holds two events of mixed kinds, day 10 one, every
      other day of March none. */
  lemma MarchExample(i: Interview, j: Job, c: Challenge)
    requires i.datetime == 19787 * MillisPerDay + 10 * 3_600_000
    requires j.deadline == 19787 * MillisPerDay + 23 * 3_600_000
    requires c.deadline == 19792 * MillisPerDay
    ensures var events := MergeEvents([i], [Some(j)], [c]);
      && |EventsForDate(events, Date(2024, 3, 5))| == 2
      && |EventsForDate(events, Date(2024, 3, 10))| == 1
      && (forall d :: 1 <= d <= 31 && d != 5 && d != 10 ==> |EventsForDate(events, Date(2024, 3, d))| == 0)
  {
    var events := MergeEvents([i], [Some(j)], [c]);
    assert DaysFromCivil(2024, 3, 1) == 19783;
    assert events[0].date == i.datetime && events[1].date == j.deadline && events[2].date == c.deadline;
    assert EpochDay(events[0].date) == 19787;
    assert EpochDay(events[1].date) == 19787;
    assert EpochDay(events[2].date) == 19792;
    forall d | 1 <= d <= 31
      ensures |EventsForDate(events, Date(2024, 3, d))| == (if d == 5 then 2 else if d == 10 then 1 else 0)
    {
      DaysWithinMonth(2024, 3, d);
      var p := (e: CalendarEvent) => OnDay(e, Date(2024, 3, d));
      assert events == [events[0]] + [events[1]] + [events[2]];
      Seqs.CountAppend([events[0]] + [events[1]], [events[2]], p);
      Seqs.CountAppend([events[0]], [events[1]], p);
    }
  }
}
