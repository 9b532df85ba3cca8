/**
 * The logic inside the timetable cards: whether a row is running now, the
 * icon for its start time, the colour scheme chosen for a subject or a class,
 * and how a subject and a teacher's name are written.
 */
module ScheduleItems {
  import opened Base
  import opened Text
  import opened Sorting
  import opened DaySplit
  import opened Utils

  // ---------------------------------------------------------------------------
  // Running now
  // ---------------------------------------------------------------------------

  /** `h * 60 + m` of the first two `:`-separated fields, `NaN` (`None`) when either is not a number. */
  function ClockMinutes(t: string): (r: Option<int>)
    ensures r.Some? <==> HourMinute(t).0.Some? && HourMinute(t).1.Some?
  {
    MinutesOf(HourMinute(t))
  }

  function MinutesOf(hm: (Option<int>, Option<int>)): (r: Option<int>)
    ensures r.Some? <==> hm.0.Some? && hm.1.Some?
    ensures r.Some? ==> r.value == hm.0.value * 60 + hm.1.value
  {
    if hm.0.Some? && hm.1.Some? then Some(hm.0.value * 60 + hm.1.value) else None
  }

  /**
   * The moment a card is drawn: `getDay()` (0 is Sunday), `getHours()` and
   * `getMinutes()` of the page's clock.
   */
  datatype Clock = Clock(weekday: int, hours: int, minutes: int)

  /** `startMinutes <= currentMinutes < endMinutes`, where a `NaN` bound fails the test. */
  predicate DuringRow(now: Clock, time: string, endTime: string)
  {
    var current := now.hours * 60 + now.minutes;
    var start, end := ClockMinutes(time), ClockMinutes(endTime);
    start.Some? && end.Some? && start.value <= current < end.value
  }

  /**
   * `isNow` as the cards compute it. The weekday index is `getDay() - 1`,
   * and its correction for Sunday tests `getDay() === -1`, which never holds;
   * `day` is `undefined` (`None`) when the page's day index is out of range.
   */
  predicate IsNowAsWritten(now: Clock, day: Option<string>, time: string, endTime: string)
  {
    var currentDayIndex := if now.weekday == -1 then 6 else now.weekday - 1;
    var scheduleDayIndex := if day.None? then -1 else IndexOf(Days, day.value);
    currentDayIndex == scheduleDayIndex && DuringRow(now, time, endTime)
  }

  /**
   * On a Sunday the uncorrected index is -1, the index `indexOf` gives a day
   * that is not a weekday: on Sundays every card whose day is not one of the
   * tabs shows as running during its hours.
   */
  lemma {:induction false} SundayMatchesUnknownDay(now: Clock, day: Option<string>, time: string, endTime: string)
    requires now.weekday == 0 && (day.None? || day.value !in Days)
    ensures IsNowAsWritten(now, day, time, endTime) <==> DuringRow(now, time, endTime)
    ensures !IsNow(now, day, time, endTime)
  {
  }

  /** For instance a card with no day from "HH:00" to the next hour runs at HH:00 on a Sunday. */
  lemma {:induction false} SundayExample(h: nat)
    requires h < 23
    ensures IsNowAsWritten(Clock(0, h, 0), None, TwoDigits(h) + ":" + TwoDigits(0), TwoDigits(h + 1) + ":" + TwoDigits(0))
  {
    ClockMinutesOf(h, 0);
    ClockMinutesOf(h + 1, 0);
  }

  /** `isNow` with Sunday mapped to 6, as the correction intends: no weekday index matches it. */
  predicate IsNow(now: Clock, day: Option<string>, time: string, endTime: string)
  {
    var currentDayIndex := if now.weekday == 0 then 6 else now.weekday - 1;
    var scheduleDayIndex := if day.None? then -1 else IndexOf(Days, day.value);
    currentDayIndex == scheduleDayIndex && DuringRow(now, time, endTime)
  }

  /**
   * A card runs exactly on its own weekday, Monday to Friday, between its
   * start (included) and its end (excluded).
   */
  lemma {:induction false} IsNowMeans(now: Clock, day: Option<string>, time: string, endTime: string)
    requires 0 <= now.weekday <= 6
    ensures IsNow(now, day, time, endTime) <==>
      1 <= now.weekday <= 5 && day == Some(Days[now.weekday - 1]) && DuringRow(now, time, endTime)
  {
    if 1 <= now.weekday <= 5 {
      assert Distinct(Days);
      var i := now.weekday - 1;
      assert IndexOf(Days, Days[i]) == i;
    }
  }

  /** Two back-to-back rows, one ending when the next starts, never both run at once. */
  lemma {:induction false} BackToBackRows(now: Clock, day: Option<string>, a: string, b: string, c: string)
    requires ClockMinutes(b).Some?
    ensures !(IsNow(now, day, a, b) && IsNow(now, day, b, c))
  {
  }

  // ---------------------------------------------------------------------------
  // Time icon, class rows and breaks
  // ---------------------------------------------------------------------------

  datatype TimeIcon = Sunrise | Sun | Moon

  /** `getTimeIcon`: the hour before the first `:` picks morning, midday or afternoon; a `NaN` hour is afternoon. */
  function GetTimeIcon(time: string): TimeIcon
  {
    var hour := ParseInt(Split(time, ':')[0]);
    if hour.Some? && hour.value < 10 then Sunrise
    else if hour.Some? && hour.value < 15 then Sun
    else Moon
  }

  /** The hour written as two digits. */
  function TwoDigits(h: nat): string
    requires h < 100
  {
    [DigitChar(h / 10), DigitChar(h % 10)]
  }

  /** A digit character is a digit, not whitespace, and worth its digit. */
  lemma {:induction false} DigitCharOf(d: nat)
    requires d < 10
    ensures IsDigit(DigitChar(d)) && !IsJsWhitespace(DigitChar(d))
    ensures DigitChar(d) as int - '0' as int == d
  {
  }

  /** Two digits read back as their value, by `Number` and by `Number.parseInt`. */
  lemma {:induction false} TwoDigitsValue(h: nat)
    requires h < 100
    ensures ToNumber(TwoDigits(h)) == Some(h) && ParseInt(TwoDigits(h)) == Some(h)
  {
    var hh := TwoDigits(h);
    DigitCharOf(h / 10);
    DigitCharOf(h % 10);
    assert AllDigits(hh);
    assert hh[..1] == [hh[0]];
    assert [hh[0]][..0] == [];
    assert DigitsValue([hh[0]]) == h / 10;
    assert DigitsValue(hh) == h;
    assert TrimStart(hh) == hh;
    assert DigitPrefix(hh[1..]) == hh[1..];
    assert DigitPrefix(hh) == hh;
  }

  /** "HH:MM" is `HH * 60 + MM` minutes. */
  lemma {:induction false} ClockMinutesOf(h: nat, m: nat)
    requires h < 100 && m < 100
    ensures ClockMinutes(TwoDigits(h) + ":" + TwoDigits(m)) == Some(h * 60 + m)
  {
    var hh, mm := TwoDigits(h), TwoDigits(m);
    assert hh + ":" + mm == hh + [':'] + mm;
    NoColon(h);
    NoColon(m);
    TwoDigitsValue(h);
    TwoDigitsValue(m);
    ClockMinutesOfFields(hh, mm, h, m);
  }

  /** Two numeric fields around a colon give hours times 60 plus minutes. */
  lemma {:induction false} ClockMinutesOfFields(a: string, b: string, h: int, m: int)
    requires ':' !in a && ':' !in b && ToNumber(a) == Some(h) && ToNumber(b) == Some(m)
    ensures ClockMinutes(a + [':'] + b) == Some(h * 60 + m)
  {
    HourMinuteOf(a, b);
    MinutesOfFields(HourMinute(a + [':'] + b), h, m);
  }

  lemma {:induction false} MinutesOfFields(hm: (Option<int>, Option<int>), h: int, m: int)
    requires hm == (Some(h), Some(m))
    ensures MinutesOf(hm) == Some(h * 60 + m)
  {
  }

  lemma {:induction false} NoColon(h: nat)
    requires h < 100
    ensures ':' !in TwoDigits(h)
  {
    DigitCharOf(h / 10);
    DigitCharOf(h % 10);
  }

  /** A time "HH:..." gets the sunrise before 10, the sun before 15 and the moon from 15 on. */
  lemma {:induction false} GetTimeIconOf(h: nat, rest: string)
    requires h < 100
    ensures GetTimeIcon(TwoDigits(h) + ":" + rest) == if h < 10 then Sunrise else if h < 15 then Sun else Moon
  {
    var hh := TwoDigits(h);
    DigitCharOf(h / 10);
    DigitCharOf(h % 10);
    assert ':' !in hh;
    SplitAt(hh, rest, ':');
    assert hh + ":" + rest == hh + [':'] + rest;
    assert Split(hh + ":" + rest, ':')[0] == hh;
    TwoDigitsValue(h);
  }

  /** A time whose hour is not a number gets the moon. */
  lemma {:induction false} GetTimeIconNaN(time: string)
    requires ParseInt(Split(time, ':')[0]).None?
    ensures GetTimeIcon(time) == Moon
  {
  }

  /** `!isNaN(Number.parseInt(period))`: the row is a lesson, not a break. */
  predicate IsRegularClass(period: string)
  {
    ParseInt(period).Some?
  }

  /** Numbered periods are lessons. */
  lemma {:induction false} IsRegularClassOf(n: nat)
    ensures IsRegularClass(NatToString(n))
  {
    var s := NatToString(n);
    assert !IsJsWhitespace(s[0]);
    assert TrimStart(s) == s;
  }

  /** A period that starts with a letter is not a lesson. */
  lemma {:induction false} LetterPeriodNotRegular(period: string)
    requires period != [] && ('A' <= period[0] <= 'Z' || 'a' <= period[0] <= 'z')
    ensures !IsRegularClass(period)
  {
    assert !IsJsWhitespace(period[0]);
    assert TrimStart(period) == period;
  }

  /** The markers of breaks and of the end of the day are not lessons, and neither is an empty period. */
  lemma {:induction false} NotRegularClasses()
    ensures !IsRegularClass("Istirahat") && !IsRegularClass("Selesai") && !IsRegularClass("")
  {
    LetterPeriodNotRegular("Istirahat");
    LetterPeriodNotRegular("Selesai");
  }

  /** `isIstirahat` of the teacher card: the break class or the break code. */
  predicate IsIstirahat(className: Option<string>, code: string)
  {
    className == Some("Istirahat") || code == "ISTIRAHAT"
  }

  /** The left panel of the teacher card: a coffee cup, or the period and, when it differs, the end period. */
  datatype PeriodPanel = CoffeePanel | PeriodNumbers(period: string, endPeriod: Option<string>)

  /** The heading of the teacher card. */
  datatype CardHeading = BreakHeading | ClassHeading(name: string) | OtherHeading(text: string)

  /** The parts of the teacher card that depend on the row: panel, heading, and whether the teacher line is shown. */
  datatype TeacherCardLayout = TeacherCardLayout(panel: PeriodPanel, heading: CardHeading, showsTeacher: bool)

  /** The layout the teacher card picks for a row with that class, code, period and end period. */
  function TeacherCard(className: Option<string>, code: string, period: string, endPeriod: string): (c: TeacherCardLayout)
    ensures c.panel.PeriodNumbers? <==> !IsIstirahat(className, code) && IsRegularClass(period)
    ensures c.panel.PeriodNumbers? ==>
      c.panel.period == period && c.panel.endPeriod == (if endPeriod != period then Some(endPeriod) else None)
    ensures c.heading.ClassHeading? <==>
      !IsIstirahat(className, code) && IsRegularClass(period) && className.Some? && className.value != ""
    ensures c.heading.ClassHeading? ==> className == Some(c.heading.name)
    ensures c.heading.OtherHeading? ==>
      c.heading.text == if className.Some? && className.value != "" then className.value else "-"
  {
    var isBreak := IsIstirahat(className, code);
    var panel :=
      if isBreak then CoffeePanel
      else if IsRegularClass(period) then PeriodNumbers(period, if endPeriod != period then Some(endPeriod) else None)
      else CoffeePanel;
    var heading :=
      if isBreak then BreakHeading
      else if IsRegularClass(period) && className.Some? && className.value != "" then ClassHeading(className.value)
      else OtherHeading(if className.Some? && className.value != "" then className.value else "-");
    TeacherCardLayout(panel, heading, !isBreak)
  }

  /**
   * A card is laid out as the break (a coffee cup in the panel, the "Istirahat"
   * heading, no teacher line) exactly when its class is "Istirahat" or its code
   * is "ISTIRAHAT", whatever its period; any other card shows its teacher.
   */
  lemma {:induction false} BreakCardMeans(className: Option<string>, code: string, period: string, endPeriod: string)
    ensures var c := TeacherCard(className, code, period, endPeriod);
      (c.panel == CoffeePanel && c.heading == BreakHeading && !c.showsTeacher) <==>
      (className == Some("Istirahat") || code == "ISTIRAHAT")
    ensures var c := TeacherCard(className, code, period, endPeriod);
      c.showsTeacher <==> className != Some("Istirahat") && code != "ISTIRAHAT"
  {
  }

  /** A numbered lesson under a real class shows its period and its class; the break code overrides both. */
  lemma {:induction false} LessonCardShowsClass(cls: string, code: string, n: nat)
    requires cls != "" && cls != "Istirahat"
    ensures var c := TeacherCard(Some(cls), code, NatToString(n), NatToString(n));
      if code == "ISTIRAHAT" then c.panel == CoffeePanel && c.heading == BreakHeading
      else c.panel == PeriodNumbers(NatToString(n), None) && c.heading == ClassHeading(cls) && c.showsTeacher
  {
    IsRegularClassOf(n);
  }

  // ---------------------------------------------------------------------------
  // Colour schemes
  // ---------------------------------------------------------------------------

  /** The keys of `SUBJECT_STYLES`: lower-case subject names and the fallback. */
  predicate IsSubjectStyleKey(key: string)
  {
    key in {
      "matematika", "fisika", "biologi", "kimia",
      "bahasa indonesia", "bahasa inggris", "bahasa jerman",
      "ppkn", "sejarah", "ekonomi", "sosiologi", "geografi",
      "pend. agama islam", "pend. agama kristen", "pend. agama katolik",
      "seni budaya", "pjok", "informatika", "pkwu", "bimbingan konseling",
      "default"}
  }

  /**
   * `getSubjectStyles`, as the key of the scheme it returns: a missing or
   * empty subject uses "default", any other is looked up in lower case and
   * falls back to "default".
   */
  function SubjectStyle(subject: Option<string>): (key: string)
    ensures IsSubjectStyleKey(key)
    ensures key == "default" || (subject.Some? && key == Lower(subject.value))
    ensures subject.Some? && subject.value != "" && IsSubjectStyleKey(Lower(subject.value)) ==> key == Lower(subject.value)
  {
    var s := if subject.None? || subject.value == "" then "default" else subject.value;
    var k := Lower(s);
    if IsSubjectStyleKey(k) then k else "default"
  }

  /** The lookup ignores case: a subject in capitals gets the same scheme. */
  lemma {:induction false} SubjectStyleIgnoresCase(s: string)
    ensures SubjectStyle(Some(Upper(s))) == SubjectStyle(Some(s))
  {
    assert Lower(Upper(s)) == Lower(s);
  }

  /** The keys of `CLASS_STYLES`: the thirty classes, the break and the fallback. */
  predicate IsClassStyleKey(key: string)
  {
    key in {
      "X-A", "X-B", "X-C", "X-D", "X-E", "X-F", "X-G", "X-H", "X-I", "X-J",
      "XI-A", "XI-B", "XI-C", "XI-D", "XI-E", "XI-F", "XI-G", "XI-H", "XI-I", "XI-J",
      "XII-A", "XII-B", "XII-C", "XII-D", "XII-E", "XII-F", "XII-G", "XII-H", "XII-I", "XII-J",
      "Istirahat", "default"}
  }

  /**
   * `getClassGradient`, as the key of the scheme it returns: the class's own
   * scheme when it has one, "default" for a missing, empty or unknown class.
   */
  function ClassStyle(className: Option<string>): (key: string)
    ensures IsClassStyleKey(key)
    ensures className.Some? && IsClassStyleKey(className.value) ==> key == className.value
    ensures className.None? || !IsClassStyleKey(className.value) ==> key == "default"
  {
    if className.None? || className.value == "" then "default"
    else if IsClassStyleKey(className.value) then className.value
    else "default"
  }

  // ---------------------------------------------------------------------------
  // Subject and teacher name text
  // ---------------------------------------------------------------------------

  predicate IsUppercaseSubject(s: string)
  {
    s in {"PPKN", "PJOK", "PKWU"}
  }

  /** `formatSubject` of the combined-schedule card: the three abbreviations in capitals, everything else in lower case. */
  function FormatSubject(subject: string): (r: string)
    ensures IsUppercaseSubject(Upper(subject)) ==> r == Upper(subject)
    ensures !IsUppercaseSubject(Upper(subject)) ==> r == Lower(subject)
  {
    if IsUppercaseSubject(Upper(subject)) then Upper(subject) else Lower(subject)
  }

  /** Formatting ignores the case it is given, and formatting twice changes nothing. */
  lemma {:induction false} FormatSubjectCanonical(subject: string)
    ensures FormatSubject(Upper(subject)) == FormatSubject(subject)
    ensures FormatSubject(Lower(subject)) == FormatSubject(subject)
    ensures FormatSubject(FormatSubject(subject)) == FormatSubject(subject)
  {
    UpperOfLower(subject);
    assert Lower(Upper(subject)) == Lower(subject);
    assert Upper(Upper(subject)) == Upper(subject);
  }

  /**
   * The teacher line of the combined-schedule card: the part before the
   * first comma in lower case, a comma, then the part between the first and
   * the second comma as written (nothing when there is no comma).
   */
  function TeacherNameText(name: string): string
  {
    var parts := Split(name, ',');
    Lower(parts[0]) + "," + (if |parts| > 1 then parts[1] else "")
  }

  /** A name "surname, titles" keeps its titles as written. */
  lemma {:induction false} TeacherNameTextOf(a: string, b: string)
    requires ',' !in a && ',' !in b
    ensures TeacherNameText(a + "," + b) == Lower(a) + "," + b
  {
    assert a + "," + b == a + [','] + b;
    SplitAt(a, b, ',');
    TeacherNameTextOfFields(a + [','] + b, a, b, []);
  }

  /** Text after a second comma is dropped. */
  lemma {:induction false} TeacherNameTextDropsRest(a: string, b: string, c: string)
    requires ',' !in a && ',' !in b
    ensures TeacherNameText(a + "," + b + "," + c) == Lower(a) + "," + b
  {
    var bc := b + [','] + c;
    CommaJoin(a, b, c);
    SplitAt(a, bc, ',');
    SplitAt(b, c, ',');
    ConsTwo(a, b, Split(c, ','));
    TeacherNameTextOfFields(a + [','] + bc, a, b, Split(c, ','));
  }

  lemma {:induction false} CommaJoin(a: string, b: string, c: string)
    ensures a + "," + b + "," + c == a + [','] + (b + [','] + c)
  {
  }

  lemma {:induction false} ConsTwo<T>(a: T, b: T, rest: seq<T>)
    ensures [a] + ([b] + rest) == [a, b] + rest
  {
  }

  /** The line is built from the first two fields only. */
  lemma {:induction false} TeacherNameTextOfFields(name: string, a: string, b: string, rest: seq<string>)
    requires Split(name, ',') == [a, b] + rest
    ensures TeacherNameText(name) == Lower(a) + "," + b
  {
  }

  /** A name without a comma gets a bare comma. */
  lemma {:induction false} TeacherNameTextNoComma(a: string)
    requires ',' !in a
    ensures TeacherNameText(a) == Lower(a) + ","
  {
  }
}
