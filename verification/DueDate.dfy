/**
 Due times of spoken reminders (voice-sidecar/llm.py, _parse_due), from the parts the
 phrase's patterns recognise. Dates are proleptic Gregorian, years 1 to 9999.
 */
module DueDate {
  import opened Wrappers

  // ---- the calendar

  datatype Date = Date(year: int, month: int, day: int)

  predicate IsLeap(y: int) { y % 4 == 0 && (y % 100 != 0 || y % 400 == 0) }

  function DaysIn(y: int, m: int): int {
    if m == 2 then (if IsLeap(y) then 29 else 28)
    else if m == 4 || m == 6 || m == 9 || m == 11 then 30
    else 31
  }

  predicate ValidDate(d: Date) {
    1 <= d.year <= 9999 && 1 <= d.month <= 12 && 1 <= d.day <= DaysIn(d.year, d.month)
  }

  function DaysBeforeYear(y: int): int {
    365 * (y - 1) + (y - 1) / 4 - (y - 1) / 100 + (y - 1) / 400
  }

  function DaysBeforeMonth(y: int, m: nat): (n: nat)
    ensures n <= 31 * m
  {
    if m <= 1 then 0 else DaysBeforeMonth(y, m - 1) + DaysIn(y, m - 1)
  }

  /** The number of the day, counting from 1 January of year 1. */
  function Ordinal(d: Date): int
    requires ValidDate(d)
  {
    DaysBeforeYear(d.year) + DaysBeforeMonth(d.year, d.month) + d.day
  }

  const LAST_DAY: int := 3652059

  /** Monday is 0. */
  function Weekday(ordinal: int): int { (ordinal + 6) % 7 }

  predicate Before(a: Date, b: Date) {
    a.year < b.year || (a.year == b.year && (a.month < b.month || (a.month == b.month && a.day < b.day)))
  }

  lemma {:induction false} MonthsAdvance(y: int, m: nat, n: nat)
    requires 1 <= m < n
    ensures DaysBeforeMonth(y, m) + DaysIn(y, m) <= DaysBeforeMonth(y, n)
    decreases n
  {
    if m < n - 1 {
      MonthsAdvance(y, m, n - 1);
    }
  }

  lemma {:induction false} DaysInYear(y: int)
    ensures DaysBeforeMonth(y, 13) == if IsLeap(y) then 366 else 365
  {
    assert DaysBeforeMonth(y, 3) == DaysBeforeMonth(y, 2) + DaysIn(y, 2) == 31 + DaysIn(y, 2);
    assert DaysBeforeMonth(y, 5) == DaysBeforeMonth(y, 4) + 30 == DaysBeforeMonth(y, 3) + 61;
    assert DaysBeforeMonth(y, 7) == DaysBeforeMonth(y, 6) + 30 == DaysBeforeMonth(y, 5) + 61;
    assert DaysBeforeMonth(y, 9) == DaysBeforeMonth(y, 8) + 31 == DaysBeforeMonth(y, 7) + 62;
    assert DaysBeforeMonth(y, 11) == DaysBeforeMonth(y, 10) + 31 == DaysBeforeMonth(y, 9) + 61;
    assert DaysBeforeMonth(y, 13) == DaysBeforeMonth(y, 12) + 31 == DaysBeforeMonth(y, 11) + 61;
  }

  lemma {:induction false} CenturiesAreFourths(y: int)
    requires y >= 1
    ensures y % 100 == 0 ==> y % 4 == 0
    ensures y % 400 == 0 ==> y % 100 == 0
  {
    if y % 100 == 0 {
      DivMod(y, 4, 25 * (y / 100), 0);
    }
    if y % 400 == 0 {
      DivMod(y, 100, 4 * (y / 400), 0);
    }
  }

  lemma {:induction false} NextYear(y: int)
    requires y >= 1
    ensures DaysBeforeYear(y + 1) == DaysBeforeYear(y) + if IsLeap(y) then 366 else 365
  {
    var a, b, c := y / 4 - (y - 1) / 4, y / 100 - (y - 1) / 100, y / 400 - (y - 1) / 400;
    assert a == (if y % 4 == 0 then 1 else 0) by { Quotient(y, 4); }
    assert b == (if y % 100 == 0 then 1 else 0) by { Quotient(y, 100); }
    assert c == (if y % 400 == 0 then 1 else 0) by { Quotient(y, 400); }
    CenturiesAreFourths(y);
    assert DaysBeforeYear(y + 1) - DaysBeforeYear(y) == 365 + a - b + c;
  }

  lemma {:induction false} Quotient(y: int, k: int)
    requires y >= 1 && k > 1
    ensures y / k == (y - 1) / k + if y % k == 0 then 1 else 0
  {
    var q, r := (y - 1) / k, (y - 1) % k;
    assert y - 1 == q * k + r;
    if r == k - 1 {
      assert y == (q + 1) * k;
      DivMod(y, k, q + 1, 0);
    } else {
      DivMod(y, k, q, r + 1);
    }
  }

  lemma {:induction false} DivMod(n: int, k: int, q: int, r: int)
    requires k > 0 && 0 <= r < k && n == q * k + r
    ensures n / k == q && n % k == r
  {
    var d := n / k - q;
    assert n == (n / k) * k + n % k;
    assert d * k == r - n % k;
    assert d >= 1 ==> d * k >= k;
    assert d <= -1 ==> d * k <= -k;
  }

  lemma {:induction false} YearsAdvance(y: int, z: int)
    requires 1 <= y < z
    ensures DaysBeforeYear(y) + DaysBeforeMonth(y, 13) <= DaysBeforeYear(z)
    decreases z
  {
    NextYear(z - 1);
    DaysInYear(z - 1);
    if y < z - 1 {
      YearsAdvance(y, z - 1);
    }
  }

  /** Day numbers order dates as the calendar does. */
  lemma {:induction false} OrdinalOrders(a: Date, b: Date)
    requires ValidDate(a) && ValidDate(b)
    ensures Before(a, b) <==> Ordinal(a) < Ordinal(b)
    ensures a == b <==> Ordinal(a) == Ordinal(b)
  {
    if Before(a, b) {
      OrdinalIncreases(a, b);
    } else if Before(b, a) {
      OrdinalIncreases(b, a);
    }
  }

  lemma {:induction false} OrdinalIncreases(a: Date, b: Date)
    requires ValidDate(a) && ValidDate(b) && Before(a, b)
    ensures Ordinal(a) < Ordinal(b)
  {
    if a.year < b.year {
      MonthsAdvance(a.year, a.month, 13);
      YearsAdvance(a.year, b.year);
    } else if a.month < b.month {
      MonthsAdvance(a.year, a.month, b.month);
    }
  }

  // ---- the recognised parts of a phrase

  datatype Span = Minutes | Hours | Days | Weeks

  datatype Meridiem = Am | Pm

  /** A clock time as written: one or two digits, perhaps minutes, perhaps am or pm. */
  datatype Clock = Clock(hour: nat, minute: nat, meridiem: Option<Meridiem>)

  /** What has been taken out of the text before the clock time is looked for. */
  datatype Taken = Nothing | DateText | OrdinalText

  datatype Phrase = Phrase(
    blank: bool,
    relative: Option<(nat, Span)>,
    monthDay: Option<(nat, nat)>,
    numeric: Option<(nat, nat, Option<nat>)>,
    tomorrow: bool,
    weekdays: seq<bool>,              // which weekday names occur, Monday first
    todayWord: bool,
    ordinal: Option<nat>,
    clock: Taken -> Option<Clock>,
    dayparts: seq<bool>)              // which part-of-day words occur, in the order they are tried
  {
    predicate Valid() {
      |weekdays| == 7 && |dayparts| == 7
      && (monthDay.Some? ==> 1 <= monthDay.value.0 <= 12)
    }
  }

  /** morning, noon, afternoon, evening, tonight, night, midnight */
  const DAYPART_HOURS: seq<nat> := [9, 12, 15, 18, 20, 20, 0]

  const MINUTE: int := 60_000_000
  const HOUR: int := 3_600_000_000
  const DAY: int := 86_400_000_000

  /** A date and the microseconds since its midnight. */
  datatype Now = Now(date: Date, time: int) {
    predicate Valid() { ValidDate(date) && 0 <= time < DAY }
  }

  /** No due time, a raised error, or a day number and the microseconds since its midnight. */
  datatype Due = NoDue | Raises | At(day: int, time: int)

  /** The position of an instant on one line of microseconds. */
  function Instant(day: int, time: int): int { day * DAY + time }

  function NowInstant(now: Now): int
    requires now.Valid()
  {
    Instant(Ordinal(now.date), now.time)
  }

  function SpanLength(s: Span): int {
    match s
    case Minutes => MINUTE
    case Hours => HOUR
    case Days => DAY
    case Weeks => 7 * DAY
  }

  /** A day number, unless it is past the last representable day. */
  function OnDay(day: int, time: int): Due {
    if day > LAST_DAY then Raises else At(day, time)
  }

  function AfterSpan(now: Now, n: nat, span: Span): Due
    requires now.Valid()
  {
    var total := now.time + n * SpanLength(span);
    OnDay(Ordinal(now.date) + total / DAY, total % DAY)
  }

  /** What the date part of a phrase decides; the day may have been moved without being settled. */
  datatype Choice = Choice(day: int, settled: bool, taken: Taken)

  function FirstTrue(flags: seq<bool>, i: nat): (k: nat)
    requires i <= |flags|
    ensures i <= k <= |flags|
    ensures k < |flags| ==> flags[k]
    ensures forall j :: i <= j < k ==> !flags[j]
    decreases |flags| - i
  {
    if i == |flags| || flags[i] then i else FirstTrue(flags, i + 1)
  }

  /** The date with this month and day: this year's, or next year's if that has passed. */
  function ThisOrNextYear(today: Date, m: nat, d: nat): Option<Date> {
    var here, next := Date(today.year, m, d), Date(today.year + 1, m, d);
    if !ValidDate(here) then None
    else if !Before(here, today) then Some(here)
    else if ValidDate(next) then Some(next)
    else None
  }

  function FullYear(y: nat): nat { if y < 100 then 2000 + y else y }

  /** month/day/year: the day is first set in the current year, and fails if it does not exist there. */
  function WithYear(today: Date, m: nat, d: nat, y: nat): Option<Date> {
    var there := Date(FullYear(y), m, d);
    if ValidDate(Date(today.year, m, d)) && ValidDate(there) then Some(there) else None
  }

  predicate UsesMonthDay(p: Phrase) {
    p.monthDay.Some? && 1 <= p.monthDay.value.1 <= 31
  }

  predicate UsesNumeric(p: Phrase) {
    p.numeric.Some? && 1 <= p.numeric.value.0 <= 12 && 1 <= p.numeric.value.1 <= 31
  }

  function CalendarDate(p: Phrase, today: Date): Option<Date> {
    if UsesMonthDay(p) then ThisOrNextYear(today, p.monthDay.value.0, p.monthDay.value.1)
    else if UsesNumeric(p) then
      var (m, d, year) := p.numeric.value;
      match year
      case Some(y) => WithYear(today, m, d, y)
      case None => ThisOrNextYear(today, m, d)
    else None
  }

  function NextMonth(today: Date, d: nat): Date {
    if today.month == 12 then Date(today.year + 1, 1, d) else Date(today.year, today.month + 1, d)
  }

  function WordDay(p: Phrase, now: Now): Choice
    requires p.Valid() && now.Valid()
  {
    var today := Ordinal(now.date);
    var k := FirstTrue(p.weekdays, 0);
    if p.tomorrow then Choice(today + 1, true, Nothing)
    else if k < 7 then
      var ahead := (k - Weekday(today)) % 7;
      Choice(today + (if ahead == 0 then 7 else ahead), true, Nothing)
    else Choice(today, p.todayWord, Nothing)
  }

  /** "the 19th": this month's, or next month's if that has passed; a failure there leaves the day moved. */
  function OrdinalDay(p: Phrase, now: Now): Choice
    requires now.Valid()
  {
    var today := Ordinal(now.date);
    if p.ordinal.None? || !(1 <= p.ordinal.value <= 31) then Choice(today, false, Nothing)
    else
      var here, next := Date(now.date.year, now.date.month, p.ordinal.value), NextMonth(now.date, p.ordinal.value);
      if !ValidDate(here) then Choice(today, false, Nothing)
      else if !Before(here, now.date) then Choice(Ordinal(here), true, OrdinalText)
      else if ValidDate(next) then Choice(Ordinal(next), true, OrdinalText)
      else Choice(Ordinal(here), false, Nothing)
  }

  function DayOf(p: Phrase, now: Now): Choice
    requires p.Valid() && now.Valid()
  {
    var date := CalendarDate(p, now.date);
    if date.Some? then Choice(CalendarDay(p, now.date), true, DateText)
    else
      var word := WordDay(p, now);
      if word.settled then word else OrdinalDay(p, now)
  }

  function CalendarDay(p: Phrase, today: Date): int
    requires ValidDate(today) && CalendarDate(p, today).Some?
  {
    Ordinal(CalendarDate(p, today).value)
  }

  /** The hour and minute, if a usable clock time or a part of the day is named. */
  function TimeOf(p: Phrase, taken: Taken): (t: Option<(nat, nat)>)
    requires p.Valid()
    ensures t.Some? ==> t.value.0 <= 23
  {
    var clock := p.clock(taken);
    if clock.Some? && clock.value.hour <= 23 then
      var h := clock.value.hour;
      var hour :=
        if clock.value.meridiem == Some(Pm) && h < 12 then h + 12
        else if clock.value.meridiem == Some(Am) && h == 12 then 0
        else if clock.value.meridiem.None? && h <= 7 then h + 12
        else h;
      Some((hour, clock.value.minute))
    else
      var k := FirstTrue(p.dayparts, 0);
      if k < 7 then Some((DAYPART_HOURS[k], 0)) else None
  }

  function Finish(day: int, settled: bool, hour: nat, minute: nat, now: Now): Due
    requires now.Valid()
  {
    if minute > 59 then Raises
    else
      var time := hour * HOUR + minute * MINUTE;
      if Instant(day, time) <= NowInstant(now) && !settled then OnDay(day + 1, time) else OnDay(day, time)
  }

  function DueOf(p: Phrase, now: Now): Due
    requires p.Valid() && now.Valid()
  {
    if p.blank then NoDue
    else if p.relative.Some? then AfterSpan(now, p.relative.value.0, p.relative.value.1)
    else
      var choice := DayOf(p, now);
      if choice.day > LAST_DAY then Raises
      else
        match TimeOf(p, choice.taken)
        case Some((hour, minute)) => Finish(choice.day, choice.settled, hour, minute, now)
        case None => if choice.settled then Finish(choice.day, true, 9, 0, now) else NoDue
  }

  // ---- the parser

  method ParseDue(p: Phrase, now: Now) returns (due: Due)
    requires p.Valid() && now.Valid()
    ensures due == DueOf(p, now)
  {
    if p.blank {
      return NoDue;
    }
    if p.relative.Some? {
      return AfterSpan(now, p.relative.value.0, p.relative.value.1);
    }
    var day, explicitDay, taken := ChooseDay(p, now);
    if day > LAST_DAY {
      return Raises;
    }
    var hour, minute := ChooseTime(p, taken);
    if hour.None? && !explicitDay {
      return NoDue;
    }
    if hour.None? {
      hour := Some(9);
    }
    due := Finish(day, explicitDay, hour.value, minute, now);
  }

  method ChooseDay(p: Phrase, now: Now) returns (day: int, explicitDay: bool, taken: Taken)
    requires p.Valid() && now.Valid()
    ensures Choice(day, explicitDay, taken) == DayOf(p, now)
  {
    var today := Ordinal(now.date);
    var date := CalendarDate(p, now.date);
    if date.Some? {
      return CalendarDay(p, now.date), true, DateText;
    }
    day, explicitDay := ChooseWordDay(p, now);
    taken := Nothing;
    if !explicitDay && p.ordinal.Some? && 1 <= p.ordinal.value <= 31 {
      var here := Date(now.date.year, now.date.month, p.ordinal.value);
      if ValidDate(here) {
        day := Ordinal(here);
        if Before(here, now.date) {
          var next := NextMonth(now.date, p.ordinal.value);
          if ValidDate(next) {
            day, explicitDay, taken := Ordinal(next), true, OrdinalText;
          }
        } else {
          explicitDay, taken := true, OrdinalText;
        }
      }
    }
  }

  method ChooseWordDay(p: Phrase, now: Now) returns (day: int, explicitDay: bool)
    requires p.Valid() && now.Valid()
    ensures Choice(day, explicitDay, Nothing) == WordDay(p, now)
  {
    var today := Ordinal(now.date);
    if p.tomorrow {
      return today + 1, true;
    }
    day, explicitDay := today, false;
    for i := 0 to 7
      invariant !explicitDay && day == today
      invariant FirstTrue(p.weekdays, 0) == FirstTrue(p.weekdays, i)
    {
      if p.weekdays[i] {
        var ahead := (i - Weekday(today)) % 7;
        day, explicitDay := today + (if ahead == 0 then 7 else ahead), true;
        break;
      }
    }
    if !explicitDay && p.todayWord {
      explicitDay := true;
    }
  }

  method ChooseTime(p: Phrase, taken: Taken) returns (hour: Option<nat>, minute: nat)
    requires p.Valid()
    ensures hour == (if TimeOf(p, taken).Some? then Some(TimeOf(p, taken).value.0) else None)
    ensures TimeOf(p, taken).Some? ==> minute == TimeOf(p, taken).value.1
    ensures hour.None? ==> minute == 0
  {
    hour, minute := None, 0;
    var m := p.clock(taken);
    if m.Some? {
      var h := m.value.hour;
      if h <= 23 {
        minute := m.value.minute;
        if m.value.meridiem == Some(Pm) && h < 12 {
          h := h + 12;
        } else if m.value.meridiem == Some(Am) && h == 12 {
          h := 0;
        } else if m.value.meridiem.None? && h <= 7 {
          h := h + 12;
        }
        hour := Some(h);
      }
    }
    if hour.None? {
      for i := 0 to 7
        invariant hour.None? && minute == 0
        invariant FirstTrue(p.dayparts, 0) == FirstTrue(p.dayparts, i)
      {
        if p.dayparts[i] {
          hour := Some(DAYPART_HOURS[i]);
          break;
        }
      }
    }
  }

  // ---- what the due times are

  lemma {:induction false} LastDayIsLast()
    ensures Ordinal(Date(9999, 12, 31)) == LAST_DAY
  {
    DaysInYear(9999);
    assert DaysBeforeMonth(9999, 13) == DaysBeforeMonth(9999, 12) + 31;
  }

  /** Nothing but a time of day is named. */
  predicate OnlyTime(p: Phrase) {
    && !p.blank && p.relative.None? && p.monthDay.None? && p.numeric.None?
    && !p.tomorrow && (forall i :: 0 <= i < |p.weekdays| ==> !p.weekdays[i]) && !p.todayWord
    && p.ordinal.None?
  }

  /** A bare time of day is the next instant with that time: within 24 hours, on the minute. */
  lemma {:induction false} BareTimeIsNext(p: Phrase, now: Now)
    requires p.Valid() && now.Valid() && OnlyTime(p)
    requires TimeOf(p, Nothing).Some? && TimeOf(p, Nothing).value.1 <= 59
    requires Ordinal(now.date) < LAST_DAY
    ensures var due := DueOf(p, now);
            var (hour, minute) := TimeOf(p, Nothing).value;
            && due.At?
            && NowInstant(now) < Instant(due.day, due.time) <= NowInstant(now) + DAY
            && due.time == hour * HOUR + minute * MINUTE
  {
    assert DayOf(p, now) == Choice(Ordinal(now.date), false, Nothing);
  }

  /** A phrase that names a weekday and no usable date, nor tomorrow. */
  predicate NamesWeekday(p: Phrase, now: Now) {
    && p.Valid() && now.Valid() && !p.blank && p.relative.None? && !p.tomorrow
    && CalendarDate(p, now.date).None?
    && FirstTrue(p.weekdays, 0) < 7
  }

  /** It lands on that weekday, one to seven days ahead, and so does any due time. */
  lemma {:induction false} WeekdayIsNext(p: Phrase, now: Now)
    requires NamesWeekday(p, now)
    ensures var k := FirstTrue(p.weekdays, 0);
            var choice := DayOf(p, now);
            && choice.settled && choice.taken == Nothing
            && Weekday(choice.day) == k
            && 1 <= choice.day - Ordinal(now.date) <= 7
            && (DueOf(p, now).At? ==> DueOf(p, now).day == choice.day)
  {
    SettledDayIsKept(p, now);
    assert DayOf(p, now) == WordDay(p, now);
    NextWeekday(Ordinal(now.date), FirstTrue(p.weekdays, 0));
  }

  lemma {:induction false} NextWeekday(today: int, k: nat)
    requires k < 7
    ensures var ahead := (k - Weekday(today)) % 7;
            && Weekday(today + ahead) == k
            && (ahead == 0 ==> Weekday(today + 7) == k)
  {
  }

  /** A settled day is kept: a due time, if one results, is on it. */
  lemma {:induction false} SettledDayIsKept(p: Phrase, now: Now)
    requires p.Valid() && now.Valid() && !p.blank && p.relative.None?
    requires DayOf(p, now).settled
    ensures DueOf(p, now).At? ==> DueOf(p, now).day == DayOf(p, now).day
    ensures DueOf(p, now).Raises? <==>
              || DayOf(p, now).day > LAST_DAY
              || (TimeOf(p, DayOf(p, now).taken).Some? && TimeOf(p, DayOf(p, now).taken).value.1 > 59)
  {
  }

  /** The month and day are found in the current year, or have passed and are found in the next. */
  predicate FoundInYearsTried(today: Date, m: nat, d: nat) {
    && ValidDate(Date(today.year, m, d))
    && (Before(Date(today.year, m, d), today) ==> ValidDate(Date(today.year + 1, m, d)))
  }

  /**
   A month and day without a year is the earliest such date that is not past, exactly when
   it is found in the years tried; otherwise it is ignored.
   */
  lemma {:induction false} MonthDayIsEarliest(today: Date, m: nat, d: nat)
    requires ValidDate(today)
    ensures var r := ThisOrNextYear(today, m, d);
            && (r.Some? <==> FoundInYearsTried(today, m, d))
            && (r.Some? ==>
                  && ValidDate(r.value) && r.value.month == m && r.value.day == d
                  && Ordinal(r.value) >= Ordinal(today)
                  && forall y :: ValidDate(Date(y, m, d)) && Ordinal(Date(y, m, d)) >= Ordinal(today)
                       ==> Ordinal(r.value) <= Ordinal(Date(y, m, d)))
  {
    var r := ThisOrNextYear(today, m, d);
    if r.Some? {
      OrdinalOrders(r.value, today);
      forall y | ValidDate(Date(y, m, d)) && Ordinal(Date(y, m, d)) >= Ordinal(today)
        ensures Ordinal(r.value) <= Ordinal(Date(y, m, d))
      {
        OrdinalOrders(Date(y, m, d), today);
        OrdinalOrders(Date(y, m, d), r.value);
      }
    }
  }

  /**
   When no date is found: a month with a day from 1 to 31 decides alone, and is not found
   outside the years tried; then so does a numeric date in range, with its year if it has one.
   */
  lemma {:induction false} NoDateFound(p: Phrase, today: Date)
    requires p.Valid() && ValidDate(today)
    ensures CalendarDate(p, today).None? <==>
              if p.monthDay.Some? && 1 <= p.monthDay.value.1 <= 31 then
                !FoundInYearsTried(today, p.monthDay.value.0, p.monthDay.value.1)
              else if p.numeric.Some? && 1 <= p.numeric.value.0 <= 12 && 1 <= p.numeric.value.1 <= 31 then
                var (m, d, year) := p.numeric.value;
                match year
                case None => !FoundInYearsTried(today, m, d)
                case Some(y) => !(ValidDate(Date(today.year, m, d)) && ValidDate(Date(if y < 100 then 2000 + y else y, m, d)))
              else true
  {
  }

  /** A phrase with a month and a day of it, in words or numbers, and no year. */
  predicate NamesMonthDay(p: Phrase, m: nat, d: nat) {
    && p.Valid() && !p.blank && p.relative.None? && 1 <= d <= 31
    && (p.monthDay == Some((m, d)) || ((p.monthDay.None? || !(1 <= p.monthDay.value.1 <= 31)) && p.numeric == Some((m, d, None)) && 1 <= m <= 12))
  }

  /** Its due time is on the earliest such date that is not past, if the date is found in the years tried. */
  lemma {:induction false} MonthDayLands(p: Phrase, now: Now, m: nat, d: nat)
    requires now.Valid() && NamesMonthDay(p, m, d) && FoundInYearsTried(now.date, m, d)
    ensures var due := DueOf(p, now);
            due.At? ==>
              && due.day >= Ordinal(now.date)
              && (exists y :: ValidDate(Date(y, m, d)) && Ordinal(Date(y, m, d)) == due.day)
              && forall y :: ValidDate(Date(y, m, d)) && Ordinal(Date(y, m, d)) >= Ordinal(now.date)
                   ==> due.day <= Ordinal(Date(y, m, d))
  {
    MonthDayIsEarliest(now.date, m, d);
    var found := ThisOrNextYear(now.date, m, d).value;
    assert CalendarDate(p, now.date) == Some(found);
    SettledDayIsKept(p, now);
    assert found == Date(found.year, m, d);
  }

  /**
   A date that exists in the year named with it is kept, except 29 February in a common
   year: the day is first set in the current year.
   */
  lemma {:induction false} NamedYearIsKept(today: Date, m: nat, d: nat, y: nat)
    requires ValidDate(today) && ValidDate(Date(if y < 100 then 2000 + y else y, m, d))
    ensures WithYear(today, m, d, y) == Some(Date(if y < 100 then 2000 + y else y, m, d))
       <==> !(m == 2 && d == 29 && !IsLeap(today.year))
  {
  }

  /** A due time for a date named with its year is on that date, past or not. */
  lemma {:induction false} NamedYearLands(p: Phrase, now: Now, m: nat, d: nat, y: nat)
    requires p.Valid() && now.Valid() && !p.blank && p.relative.None? && p.monthDay.None? && p.numeric == Some((m, d, Some(y)))
    requires ValidDate(Date(if y < 100 then 2000 + y else y, m, d)) && !(m == 2 && d == 29 && !IsLeap(now.date.year))
    ensures DueOf(p, now).At? ==> DueOf(p, now).day == Ordinal(Date(if y < 100 then 2000 + y else y, m, d))
  {
    NamedYearIsKept(now.date, m, d, y);
    SettledDayIsKept(p, now);
  }

  /** "2/29/2028", said in 2026, is ignored. */
  lemma {:induction false} LeapDayIsLost(p: Phrase, now: Now)
    requires p.Valid() && now.Valid() && now.date.year == 2026
    requires p.monthDay.None? && p.numeric == Some((2, 29, Some(2028)))
    ensures ValidDate(Date(2028, 2, 29)) && CalendarDate(p, now.date).None?
  {
    NamedYearIsKept(now.date, 2, 29, 2028);
  }

  /** The day of the month has passed, and the next month does not have it. */
  predicate MissesNextMonth(p: Phrase, now: Now) {
    && p.Valid() && now.Valid() && !p.blank && p.relative.None?
    && CalendarDate(p, now.date).None? && WordDay(p, now).settled == false
    && p.ordinal.Some? && 1 <= p.ordinal.value < now.date.day
    && !ValidDate(NextMonth(now.date, p.ordinal.value))
  }

  /** "The 30th" said on 31 January: the day is left in the past without being settled. */
  lemma {:induction false} MissedDay(p: Phrase, now: Now)
    requires MissesNextMonth(p, now)
    ensures DayOf(p, now) == Choice(Ordinal(now.date) - (now.date.day - p.ordinal.value), false, Nothing)
  {
    var here := Date(now.date.year, now.date.month, p.ordinal.value);
    assert ValidDate(here) && Before(here, now.date);
    assert Ordinal(now.date) - Ordinal(here) == now.date.day - p.ordinal.value;
  }

  lemma {:induction false} OtherDaysStay(p: Phrase, now: Now)
    requires p.Valid() && now.Valid() && !p.blank && p.relative.None?
    requires !DayOf(p, now).settled && !MissesNextMonth(p, now)
    ensures DayOf(p, now) == Choice(Ordinal(now.date), false, Nothing)
  {
    assert WordDay(p, now) == Choice(Ordinal(now.date), false, Nothing);
  }

  /**
   With no settled day, the due time is ahead, by a day at most, exactly when the phrase
   does not name a day of the month that has passed and that the next month lacks, or names
   yesterday's and a time of day still to come. Otherwise it is not ahead of now at all.
   */
  lemma {:induction false} UnsettledIsAhead(p: Phrase, now: Now)
    requires p.Valid() && now.Valid() && !p.blank && p.relative.None?
    requires !DayOf(p, now).settled && DueOf(p, now).At?
    ensures var due := DueOf(p, now);
            (NowInstant(now) < Instant(due.day, due.time) <= NowInstant(now) + DAY
             <==> !MissesNextMonth(p, now) || (p.ordinal.value == now.date.day - 1 && due.time > now.time))
    ensures Instant(DueOf(p, now).day, DueOf(p, now).time) <= NowInstant(now) + DAY
  {
    if MissesNextMonth(p, now) {
      MissedDay(p, now);
    } else {
      OtherDaysStay(p, now);
    }
  }

  function AtNine(taken: Taken): Option<Clock> {
    Some(Clock(9, 0, None))
  }

  const NO_WEEKDAY: seq<bool> := [false, false, false, false, false, false, false]
  const NO_DAYPART: seq<bool> := [false, false, false, false, false, false, false]

  /** "The 30th at 9", said on 31 January 2026 at 10 o'clock, is due an hour before. */
  lemma {:induction false} ThirtiethOnTheLast()
    ensures var p := Phrase(false, None, None, None, false, NO_WEEKDAY, false, Some(30), AtNine, NO_DAYPART);
            var now := Now(Date(2026, 1, 31), 10 * HOUR);
            && p.Valid() && now.Valid() && MissesNextMonth(p, now)
            && DueOf(p, now) == At(Ordinal(now.date), 9 * HOUR)
            && Instant(Ordinal(now.date), 9 * HOUR) < NowInstant(now)
  {
    var p := Phrase(false, None, None, None, false, NO_WEEKDAY, false, Some(30), AtNine, NO_DAYPART);
    var now := Now(Date(2026, 1, 31), 10 * HOUR);
    assert FirstTrue(p.weekdays, 0) == 7;
    MissedDay(p, now);
    assert TimeOf(p, Nothing) == Some((9, 0));
  }

  /** A phrase whose calendar date is found is never past the last day; only its minutes can be refused. */
  lemma {:induction false} FoundDateNeverOverflows(p: Phrase, now: Now)
    requires p.Valid() && now.Valid() && !p.blank && p.relative.None?
    requires CalendarDate(p, now.date).Some?
    ensures DueOf(p, now).Raises? <==> TimeOf(p, DateText).Some? && TimeOf(p, DateText).value.1 > 59
  {
    var d := CalendarDate(p, now.date).value;
    LastDayIsLast();
    OrdinalOrders(Date(9999, 12, 31), d);
    SettledDayIsKept(p, now);
  }

  /**
   "In n minutes, hours, days, weeks" is that many of 60, 3600, 86400 or 604800 seconds
   from now, to the microsecond, whatever else is said; an error comes exactly when that is
   past the last day there is.
   */
  lemma {:induction false} SpanFromNow(p: Phrase, now: Now, n: nat, span: Span)
    requires p.Valid() && now.Valid() && !p.blank && p.relative == Some((n, span))
    ensures var seconds := if span == Minutes then 60 else if span == Hours then 3600 else if span == Days then 86400 else 604800;
            var instant := NowInstant(now) + n * seconds * 1_000_000;
            && (DueOf(p, now).Raises? <==> instant >= (3652059 + 1) * 24 * 3600 * 1_000_000)
            && (!DueOf(p, now).Raises? ==>
                  && DueOf(p, now).At? && 0 <= DueOf(p, now).time < 24 * 3600 * 1_000_000
                  && Instant(DueOf(p, now).day, DueOf(p, now).time) == instant)
  {
    var length := SpanLength(span);
    var seconds := if span == Minutes then 60 else if span == Hours then 3600 else if span == Days then 86400 else 604800;
    assert length == seconds * 1_000_000;
    assert n * length == n * seconds * 1_000_000;
    var total := now.time + n * length;
    assert total == total / DAY * DAY + total % DAY;
  }

  // ---- the calendar and the clock, by their values

  /** The first and last days there are; days begin at midnight. */
  lemma {:induction false} DaysThereAre()
    ensures ValidDate(Date(1, 1, 1)) && ValidDate(Date(9999, 12, 31))
    ensures !ValidDate(Date(10000, 1, 1)) && !ValidDate(Date(0, 12, 31))
    ensures Now(Date(1, 1, 1), 0).Valid() && !Now(Date(1, 1, 1), 86_400_000_000).Valid()
  {
  }

  lemma {:induction false} FirstDayIsOne()
    requires ValidDate(Date(1, 1, 1))
    ensures Ordinal(Date(1, 1, 1)) == 1
  {
    assert DaysBeforeYear(1) == 0;
  }

  /** The lengths of the months. */
  lemma {:induction false} MonthLengths(y: int)
    ensures forall m :: m in [1, 3, 5, 7, 8, 10, 12] ==> DaysIn(y, m) == 31
    ensures forall m :: m in [4, 6, 9, 11] ==> DaysIn(y, m) == 30
    ensures DaysIn(y, 2) == 28 || DaysIn(y, 2) == 29
    ensures DaysIn(2023, 2) == 28 && DaysIn(2024, 2) == 29 && DaysIn(2100, 2) == 28 && DaysIn(2000, 2) == 29
  {
  }

  /** 10 July 2026 is a Friday; 10 days later it is a Monday. */
  lemma {:induction false} AFriday()
    ensures ValidDate(Date(2026, 7, 10)) && Weekday(Ordinal(Date(2026, 7, 10))) == 4
    ensures Weekday(Ordinal(Date(2026, 7, 20))) == 0
  {
    assert DaysBeforeMonth(2026, 3) == DaysBeforeMonth(2026, 2) + 28 == 59;
    assert DaysBeforeMonth(2026, 5) == DaysBeforeMonth(2026, 4) + 30 == DaysBeforeMonth(2026, 3) + 61;
    assert DaysBeforeMonth(2026, 7) == DaysBeforeMonth(2026, 6) + 30 == DaysBeforeMonth(2026, 5) + 61;
  }

  /** The clock as spoken: pm adds 12 up to noon, 12 am is midnight, and a bare hour up to 7 is in the evening. */
  lemma {:induction false} ClockMeans(p: Phrase, taken: Taken, h: nat, minute: nat, meridiem: Option<Meridiem>)
    requires p.Valid() && p.clock(taken) == Some(Clock(h, minute, meridiem)) && h <= 23
    ensures TimeOf(p, taken).Some? && TimeOf(p, taken).value.1 == minute
    ensures var hour := TimeOf(p, taken).value.0;
            match meridiem
            case Some(Pm) => hour % 12 == h % 12 && hour >= 12
            case Some(Am) => hour == h % 24 - (if h == 12 then 12 else 0)
            case None => hour == h + (if h < 8 then 12 else 0)
  {
  }

  /** Without a usable clock time, the first part of the day that is named decides. */
  lemma {:induction false} DaypartMeans(p: Phrase, taken: Taken, k: nat)
    requires p.Valid() && (p.clock(taken).None? || p.clock(taken).value.hour >= 24)
    requires k < 7 && p.dayparts[k] && forall j :: 0 <= j < k ==> !p.dayparts[j]
    ensures TimeOf(p, taken) == Some((if k == 0 then 9 else if k == 1 then 12 else if k == 2 then 15 else if k == 3 then 18
                                      else if k == 6 then 0 else 20, 0))
  {
    var i := FirstTrue(p.dayparts, 0);
    assert i == k;
  }

  lemma {:induction false} NoTimeNamed(p: Phrase, taken: Taken)
    requires p.Valid() && (p.clock(taken).None? || p.clock(taken).value.hour >= 24)
    requires forall j :: 0 <= j < 7 ==> !p.dayparts[j]
    ensures TimeOf(p, taken).None?
  {
  }

  /** A phrase with neither a day nor a time says nothing; a day alone means nine o'clock. */
  lemma {:induction false} DayWithoutTime(p: Phrase, now: Now)
    requires p.Valid() && now.Valid() && !p.blank && p.relative.None?
    requires DayOf(p, now).day <= LAST_DAY && TimeOf(p, DayOf(p, now).taken).None?
    ensures DueOf(p, now) == if DayOf(p, now).settled then At(DayOf(p, now).day, 9 * 3600 * 1_000_000) else NoDue
  {
  }

  /** And a settled day with a time is due on that day at that time. */
  lemma {:induction false} DayWithTime(p: Phrase, now: Now, hour: nat, minute: nat)
    requires p.Valid() && now.Valid() && !p.blank && p.relative.None?
    requires DayOf(p, now).settled && DayOf(p, now).day <= LAST_DAY && TimeOf(p, DayOf(p, now).taken) == Some((hour, minute)) && minute <= 59
    ensures DueOf(p, now) == At(DayOf(p, now).day, (hour * 60 + minute) * 60_000_000)
  {
  }

  lemma {:induction false} BlankSaysNothing(p: Phrase, now: Now)
    requires p.Valid() && now.Valid() && p.blank
    ensures DueOf(p, now) == NoDue
  {
  }

  /** Tomorrow and today, when no date is found. */
  lemma {:induction false} DayWords(p: Phrase, now: Now)
    requires p.Valid() && now.Valid() && CalendarDate(p, now.date).None?
    ensures p.tomorrow ==> DayOf(p, now) == Choice(Ordinal(now.date) + 1, true, Nothing)
    ensures !p.tomorrow && (forall k :: 0 <= k < 7 ==> !p.weekdays[k]) && p.todayWord ==>
              DayOf(p, now) == Choice(Ordinal(now.date), true, Nothing)
  {
  }

  /** No date, day word or today-word: only a day of the month can be named. */
  predicate NamesDayOfMonth(p: Phrase, now: Now, d: nat) {
    && p.Valid() && now.Valid() && CalendarDate(p, now.date).None? && !p.tomorrow && !p.todayWord
    && (forall k :: 0 <= k < 7 ==> !p.weekdays[k]) && p.ordinal == Some(d)
  }

  /**
   "The 19th" is the earliest 19th that is not past, exactly when this month has one and,
   if that has passed, so does the next.
   */
  lemma {:induction false} DayOfMonthIsEarliest(p: Phrase, now: Now, d: nat)
    requires NamesDayOfMonth(p, now, d) && 1 <= d <= 31
    ensures var y, m := now.date.year, now.date.month;
            var next := if m < 12 then Date(y, m + 1, d) else Date(y + 1, 1, d);
            var choice := DayOf(p, now);
            && (choice.settled <==> d <= DaysIn(y, m) && (d < now.date.day ==> ValidDate(next)))
            && (choice.settled ==>
                  && (choice.day == Ordinal(Date(y, m, d)) || (ValidDate(next) && choice.day == Ordinal(next)))
                  && choice.day >= Ordinal(now.date) && choice.taken == OrdinalText
                  && forall e :: ValidDate(e) && e.day == d && Ordinal(e) >= Ordinal(now.date) ==> choice.day <= Ordinal(e))
  {
    var y, m := now.date.year, now.date.month;
    var next := if m < 12 then Date(y, m + 1, d) else Date(y + 1, 1, d);
    OrdinalDayChoice(p, now, d);
    if DayOf(p, now).settled {
      EarliestDayOfMonth(now.date, d, if d < now.date.day then next else Date(y, m, d));
    }
  }

  lemma {:induction false} OrdinalDayChoice(p: Phrase, now: Now, d: nat)
    requires NamesDayOfMonth(p, now, d) && 1 <= d <= 31
    ensures var y, m := now.date.year, now.date.month;
            var next := if m < 12 then Date(y, m + 1, d) else Date(y + 1, 1, d);
            var choice := DayOf(p, now);
            && (choice.settled <==> d <= DaysIn(y, m) && (d < now.date.day ==> ValidDate(next)))
            && (choice.settled && d >= now.date.day ==> choice == Choice(Ordinal(Date(y, m, d)), true, OrdinalText))
            && (choice.settled && d < now.date.day ==> choice == Choice(Ordinal(next), true, OrdinalText))
  {
    assert DayOf(p, now) == OrdinalDay(p, now);
  }

  lemma {:induction false} EarliestDayOfMonth(today: Date, d: nat, r: Date)
    requires ValidDate(today) && ValidDate(r) && r.day == d
    requires if d < today.day then r == (if today.month < 12 then Date(today.year, today.month + 1, d) else Date(today.year + 1, 1, d))
             else r == Date(today.year, today.month, d)
    ensures Ordinal(r) >= Ordinal(today)
    ensures forall e :: ValidDate(e) && e.day == d && Ordinal(e) >= Ordinal(today) ==> Ordinal(r) <= Ordinal(e)
  {
    OrdinalOrders(r, today);
    forall e | ValidDate(e) && e.day == d && Ordinal(e) >= Ordinal(today) ensures Ordinal(r) <= Ordinal(e) {
      OrdinalOrders(e, today);
      OrdinalOrders(e, r);
    }
  }
}
