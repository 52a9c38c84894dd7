/** What the schedule's two views compute from the record: the 12-hour time format
    (components/schedule/SchedulePreview.tsx and components/schedule/ScheduleInfoForm.tsx hold
    two identical copies of `formatTime`), the weekly grid's rows, columns and the rule that
    places a course in it, the compact list, and the course cards' labels in the info form. */
module ScheduleView {
  import opened Js
  import opened Types
  import opened Lists
  import opened Constants
  import Schedule

  // ---------------------------------------------------------------------------
  // Splitting a time at its colon.

  /** The decimal string of an integer has no colon. */
  lemma ColonNotInInt(n: int)
    ensures ':' !in IntToString(n)
  {
    var s := IntToString(n);
    var d := NatToString(if n >= 0 then n else -n);
    forall k | 0 <= k < |d| ensures d[k] != ':' {
      assert IsDigit(d[k], 10);
    }
    if n < 0 {
      assert s == "-" + d;
      forall k | 0 <= k < |s| ensures s[k] != ':' {
        if k > 0 { assert s[k] == d[k - 1]; }
      }
    }
  }

  /** `split` makes at least two parts exactly when the separator occurs. */
  lemma SplitCount(s: string, sep: char)
    ensures |Split(s, sep)| >= 2 <==> sep in s
  {
    match IndexOf(s, [sep])
    case None =>
      if sep in s {
        var j :| 0 <= j < |s| && s[j] == sep;
        assert OccursAt(s, [sep], j);
      }
    case Some(i) =>
      assert s[i..i + 1] == [sep];
      assert s[i] == sep;
  }

  /** A string with exactly one separator splits into the parts before and after it. */
  lemma SplitAround(x: string, y: string, sep: char)
    requires sep !in x && sep !in y
    ensures Split(x + [sep] + y, sep) == [x, y]
  {
    var s := x + [sep] + y;
    assert OccursAt(s, [sep], |x|) by { assert s[|x|..|x| + 1] == [sep]; }
    var i := IndexOf(s, [sep]).value;
    assert s[i..i + 1] == [sep];
    assert s[i] == sep;
    assert forall k :: 0 <= k < |x| ==> s[k] == x[k] && x[k] != sep;
    assert i == |x|;
    assert s[..i] == x && s[i + 1..] == y;
    forall j ensures !OccursAt(y, [sep], j) {
      if 0 <= j && j + 1 <= |y| {
        assert y[j..j + 1][0] == y[j];
      }
    }
  }

  // ---------------------------------------------------------------------------
  // formatTime.

  /** The values whose `toString()` the model spells out: NaN and whole numbers (JavaScript's
      shortest decimal for a fraction is not modelled). */
  predicate IntegralOrNaN(x: Number)
  {
    x.NotANumber? || x.r == x.r.Floor as real
  }

  /** `x.toString()` for NaN and whole numbers. */
  function NumberText(x: Number): string
    requires IntegralOrNaN(x)
  {
    if x.NotANumber? then "NaN" else IntToString(x.r.Floor)
  }

  /** `s.padStart(2, "0")`. */
  function PadStart2(s: string): (r: string)
    ensures |s| >= 2 ==> r == s
    ensures |s| < 2 ==> |r| == 2 && r[2 - |s|..] == s && forall k :: 0 <= k < 2 - |s| ==> r[k] == '0'
  {
    if |s| >= 2 then s else if |s| == 1 then "0" + s else "00"
  }

  /** `hours % 12 || 12` for a whole hour: the remainder truncates, so it keeps the hour's sign. */
  function Hour12Of(h: int): (n: int)
    ensures h >= 0 ==> 1 <= n <= 12
    ensures h < 0 ==> -11 <= n <= -1 || n == 12
  {
    var k := JsRem(h, 12);
    if k == 0 then 12 else k
  }

  /** `hours % 12 || 12` for the number read from the time: NaN is falsy, so it shows 12. */
  function Hour12(x: Number): (n: int)
    requires IntegralOrNaN(x)
  {
    if x.NotANumber? then 12 else Hour12Of(x.r.Floor)
  }

  /** `hours >= 12 ? "PM" : "AM"`: a NaN hour compares false. */
  function Period(x: Number): string
  {
    if x.Real? && x.r >= 12.0 then "PM" else "AM"
  }

  /** The result of `formatTime`: a text, or the TypeError of `minutes.toString()` when the
      time has no colon and so no minutes. */
  datatype TimeText = Shown(text: string) | TypeError

  /** The times whose 12-hour form the model spells out: both parts read as whole numbers or NaN. */
  predicate Formattable(time: string, hourFormat: Value)
  {
    hourFormat == Str("12h") && time != "" && |Split(time, ':')| >= 2 ==>
      IntegralOrNaN(ToNumber(Split(time, ':')[0])) && IntegralOrNaN(ToNumber(Split(time, ':')[1]))
  }

  /** `formatTime(time)`: the empty time stays empty; any format other than "12h" shows the time
      as it is; in 12-hour form the hour is `hours % 12 || 12`, the minutes are padded to two
      places and AM or PM follows. */
  function FormatTime(time: string, hourFormat: Value): (r: TimeText)
    requires Formattable(time, hourFormat)
    ensures time == "" ==> r == Shown("")
    ensures time != "" && hourFormat != Str("12h") ==> r == Shown(time)
    ensures time != "" && hourFormat == Str("12h") ==> (r.TypeError? <==> ':' !in time)
  {
    if time == "" then Shown("")
    else if hourFormat != Str("12h") then Shown(time)
    else
      var parts := Split(time, ':');
      SplitCount(time, ':');
      if |parts| < 2 then TypeError
      else
        var h := ToNumber(parts[0]);
        var m := ToNumber(parts[1]);
        Shown(IntToString(Hour12(h)) + ":" + PadStart2(NumberText(m)) + " " + Period(h))
  }

  /** A number below 100 in two digits, as a time input writes hours and minutes. */
  function TwoDigits(n: nat): (s: string)
    requires n < 100
    ensures |s| == 2 && AllDigits(s, 10)
  {
    [DigitChar(n / 10), DigitChar(n % 10)]
  }

  /** The value of an input of type "time": `HH:MM`. */
  function Clock24(h: nat, m: nat): string
    requires h < 24 && m < 60
  {
    TwoDigits(h) + ":" + TwoDigits(m)
  }

  /** Two digits read as a number. */
  lemma ToNumberTwoDigits(n: nat)
    requires n < 100
    ensures ToNumber(TwoDigits(n)) == Real(n as real)
  {
    var t := TwoDigits(n);
    DigitNotSpace(t[0]);
    DigitNotSpace(t[1]);
    TrimOfNoEdgeSpace(t);
    assert !HasHexPrefix(t);
    NoDotInDigits(t);
    assert t[..|t| - 1] == [t[0]];
    assert DigitsValue([t[0]], 10) == n / 10 by {
      assert [t[0]][..0] == [];
    }
    assert DigitsValue(t, 10) == n / 10 * 10 + n % 10;
  }

  /** No colon among digits. */
  lemma ColonNotInDigits(s: string)
    requires AllDigits(s, 10)
    ensures ':' !in s
  {
    forall k | 0 <= k < |s| ensures s[k] != ':' {
      assert IsDigit(s[k], 10);
    }
  }

  /** Minutes below 60 print as themselves, padded back to the two digits of the input. */
  lemma MinutesPadded(m: nat)
    requires m < 60
    ensures PadStart2(NumberText(Real(m as real))) == TwoDigits(m)
  {
    assert (m as real).Floor == m;
    if m >= 10 {
      assert NatToString(m / 10) == [DigitChar(m / 10)];
    }
  }

  /** The 12-hour form of any time whose two parts read as whole numbers. */
  lemma FormatWholeTime(time: string, h: int, m: int)
    requires time != "" && |Split(time, ':')| >= 2
    requires ToNumber(Split(time, ':')[0]) == Real(h as real) && ToNumber(Split(time, ':')[1]) == Real(m as real)
    ensures Formattable(time, Str("12h"))
    ensures FormatTime(time, Str("12h"))
            == Shown(IntToString(Hour12Of(h)) + ":" + PadStart2(IntToString(m)) + " " + (if h >= 12 then "PM" else "AM"))
  {
    var parts := Split(time, ':');
    var hn, mn := ToNumber(parts[0]), ToNumber(parts[1]);
    assert (h as real).Floor == h && (m as real).Floor == m;
    assert Hour12(hn) == Hour12Of(h);
    assert NumberText(mn) == IntToString(m);
    assert Period(hn) == if h >= 12 then "PM" else "AM";
    assert FormatTime(time, Str("12h")) == Shown(IntToString(Hour12(hn)) + ":" + PadStart2(NumberText(mn)) + " " + Period(hn));
  }

  /** The 12-hour text of the time input `h:m`. */
  function Clock12(h: nat, m: nat): string
    requires h < 24 && m < 60
  {
    IntToString(Hour12Of(h)) + ":" + TwoDigits(m) + " " + (if h >= 12 then "PM" else "AM")
  }

  /** A time input in 12-hour form: the hour becomes `h % 12 || 12`, the minutes are copied, and
      the period is PM from noon on. */
  lemma TimeInputIn12h(h: nat, m: nat)
    requires h < 24 && m < 60
    ensures Formattable(Clock24(h, m), Str("12h"))
    ensures FormatTime(Clock24(h, m), Str("12h"))
            == Shown(IntToString(Hour12Of(h)) + ":" + TwoDigits(m) + " " + (if h >= 12 then "PM" else "AM"))
  {
    ColonNotInDigits(TwoDigits(h));
    ColonNotInDigits(TwoDigits(m));
    SplitAround(TwoDigits(h), TwoDigits(m), ':');
    assert Clock24(h, m) == TwoDigits(h) + [':'] + TwoDigits(m);
    ToNumberTwoDigits(h);
    ToNumberTwoDigits(m);
    FormatWholeTime(Clock24(h, m), h, m);
    MinutesPadded(m);
    assert NumberText(Real(m as real)) == IntToString(m) by {
      assert (m as real).Floor == m;
    }
  }

  /** The 12-hour reading loses nothing: the hour and the period give back the 24-hour hour. */
  lemma TwelveHourRecovers(h: nat)
    requires h < 24
    ensures 1 <= Hour12Of(h) <= 12
    ensures Hour12Of(h) % 12 + (if h >= 12 then 12 else 0) == h
  {
    var k := JsRem(h, 12);
    var q :| h == q * 12 + k;
    assert 0 <= k < 12;
    assert q == 0 || q == 1;
  }

  /** `a + ":" + b + " " + c` is `a + (":" + b + " ") + c`. */
  lemma RowLabelShape(a: string, c: string)
    ensures a + ":" + "00" + " " + c == a + ":00 " + c
  {
  }

  /** The label of grid row `hour`, the 12-hour form of `${hour}:00`: a negative hour keeps its
      sign, since its remainder is not 0. */
  lemma RowLabel(hour: int)
    ensures Formattable(IntToString(hour) + ":00", Str("12h"))
    ensures FormatTime(IntToString(hour) + ":00", Str("12h"))
            == Shown(IntToString(Hour12Of(hour)) + ":00 " + (if hour >= 12 then "PM" else "AM"))
  {
    ColonNotInInt(hour);
    ColonNotInDigits(TwoDigits(0));
    assert IntToString(hour) + ":00" == IntToString(hour) + [':'] + TwoDigits(0);
    SplitAround(IntToString(hour), TwoDigits(0), ':');
    ToNumberOfIntToString(hour);
    ToNumberTwoDigits(0);
    FormatWholeTime(IntToString(hour) + ":00", hour, 0);
    MinutesPadded(0);
    assert NumberText(Real(0 as real)) == IntToString(0);
    RowLabelShape(IntToString(Hour12Of(hour)), if hour >= 12 then "PM" else "AM");
  }

  // ---------------------------------------------------------------------------
  // The weekly grid.

  /** No week day but the two weekend days starts with 'S'. */
  predicate NotWeekend(d: string)
  {
    d != "Saturday" && d != "Sunday"
  }

  /** `getDisplayDays()`: the seven days when `showWeekends` is truthy, otherwise the same list
      without Saturday and Sunday. */
  function DisplayDays(showWeekends: Value): (days: seq<string>)
    ensures Truthy(showWeekends) ==> days == WeekDays()
    ensures !Truthy(showWeekends) ==> days == WeekDays()[..5]
  {
    if Truthy(showWeekends) then WeekDays()
    else
      WorkDaysKept();
      Filter(WeekDays(), NotWeekend)
  }

  /** Filtering the weekend out of the week leaves Monday to Friday, in order. */
  lemma WorkDaysKept()
    ensures Filter(WeekDays(), NotWeekend) == WeekDays()[..5]
  {
    var w := WeekDays();
    assert w == w[..5] + w[5..];
    forall i | 0 <= i < 5 ensures NotWeekend(w[..5][i]) {
      assert w[..5][i][0] != 'S';
    }
    FilterAll(w[..5], NotWeekend);
    FilterAppend(w[..5], w[5..], NotWeekend);
    assert w[5..] == ["Saturday", "Sunday"];
    assert Filter(w[5..], NotWeekend) == [];
  }

  /** The rows' hours: `Array.from({length: endHour - startHour}, (_, i) => i + startHour)`,
      none when the end is not after the start. */
  function GridHours(startHour: int, endHour: int): (hours: seq<int>)
    ensures |hours| == if endHour > startHour then endHour - startHour else 0
    ensures forall i :: 0 <= i < |hours| ==> hours[i] == startHour + i
  {
    seq(if endHour > startHour then endHour - startHour else 0, i => startHour + i)
  }

  /** An hour has a row exactly when it lies in `[startHour, endHour)`. */
  lemma HourHasRow(startHour: int, endHour: int, hour: int)
    ensures hour in GridHours(startHour, endHour) <==> startHour <= hour < endHour
  {
    if startHour <= hour < endHour {
      assert GridHours(startHour, endHour)[hour - startHour] == hour;
    }
  }

  /** The hour part of a course time: `time.split(":").map(Number)[0]`. */
  function HourPart(time: string): Number
  {
    ToNumber(Split(time, ':')[0])
  }

  /** The cell filter: the course is on the day, has both times, and the row's hour lies in
      `[start hour, end hour)`, minutes ignored; a NaN hour compares false. */
  predicate Matches(c: ScheduleCourse, hour: int, day: string)
  {
    day in c.days && c.startTime != "" && c.endTime != ""
    && HourPart(c.startTime).Real? && HourPart(c.endTime).Real?
    && HourPart(c.startTime).r <= hour as real && (hour as real) < HourPart(c.endTime).r
  }

  /** The start-row rule: of the matching courses, a cell draws those whose start hour is its
      row's hour. */
  predicate StartsAt(c: ScheduleCourse, hour: int)
  {
    HourPart(c.startTime) == Real(hour as real)
  }

  /** The hour the cell filter reads from a clock time `HH:MM`: the decimal number before the
      colon, whatever follows it. */
  lemma HourOfClockTime(h: string, rest: string)
    requires h != [] && AllDigits(h, 10)
    ensures HourPart(h + ":" + rest) == Real(DigitsValue(h, 10) as real)
  {
    var s := h + ":" + rest;
    assert OccursAt(s, [':'], |h|);
    forall j | 0 <= j < |h| ensures !OccursAt(s, [':'], j) {
      assert s[j] == h[j] && IsDigit(h[j], 10);
    }
    SplitAt(s, ':', |h|);
    assert s[..|h|] == h;
    if |h| >= 2 {
      assert IsDigit(h[1], 10);
    }
    ToNumberOfDigits(h);
  }

  /** For clock times the cell filter compares whole hours: a course lies in the row of hour
      `hour` exactly when its start hour is at most `hour` and its end hour above it, the
      minutes never count, and it is drawn from the row of its start hour. */
  lemma CellOfClockTimes(c: ScheduleCourse, hour: int, day: string,
                         sh: string, sm: string, eh: string, em: string)
    requires sh != [] && AllDigits(sh, 10) && c.startTime == sh + ":" + sm
    requires eh != [] && AllDigits(eh, 10) && c.endTime == eh + ":" + em
    ensures Matches(c, hour, day) <==>
              day in c.days && DigitsValue(sh, 10) <= hour < DigitsValue(eh, 10)
    ensures StartsAt(c, hour) <==> DigitsValue(sh, 10) == hour
  {
    HourOfClockTime(sh, sm);
    HourOfClockTime(eh, em);
  }

  /** The courses a cell draws, in list order. */
  function CellCourses(courses: seq<ScheduleCourse>, hour: int, day: string): (cell: seq<ScheduleCourse>)
    ensures forall c :: c in cell <==> c in courses && Matches(c, hour, day) && StartsAt(c, hour)
  {
    Filter(Filter(courses, c => Matches(c, hour, day)), c => StartsAt(c, hour))
  }

  /** `renderWeeklyView()`: a row per hour, a column per day of `days` (the view passes
      `DisplayDays(showWeekends)`), and in each cell the courses it draws. */
  function WeeklyGrid(days: seq<string>, startHour: int, endHour: int, courses: seq<ScheduleCourse>)
    : (grid: seq<seq<seq<ScheduleCourse>>>)
    ensures |grid| == |GridHours(startHour, endHour)|
    ensures forall i :: 0 <= i < |grid| ==> grid[i] == GridRow(courses, startHour + i, days)
  {
    seq(|GridHours(startHour, endHour)|, i requires 0 <= i < |GridHours(startHour, endHour)| =>
      GridRow(courses, startHour + i, days))
  }

  /** One row of the grid: the cell of each day at one hour. */
  function GridRow(courses: seq<ScheduleCourse>, hour: int, days: seq<string>): (row: seq<seq<ScheduleCourse>>)
    ensures |row| == |days|
    ensures forall j :: 0 <= j < |days| ==> row[j] == CellCourses(courses, hour, days[j])
  {
    seq(|days|, j requires 0 <= j < |days| => CellCourses(courses, hour, days[j]))
  }

  /** A course is drawn in a day's column at most once: in the row of its start hour. */
  lemma DrawnAtMostOncePerDay(days: seq<string>, startHour: int, endHour: int, courses: seq<ScheduleCourse>,
                              c: ScheduleCourse, i1: int, i2: int, j: int)
    requires 0 <= i1 < |GridHours(startHour, endHour)| && 0 <= i2 < |GridHours(startHour, endHour)|
    requires 0 <= j < |days|
    requires c in WeeklyGrid(days, startHour, endHour, courses)[i1][j]
    requires c in WeeklyGrid(days, startHour, endHour, courses)[i2][j]
    ensures i1 == i2
  {
    var g := WeeklyGrid(days, startHour, endHour, courses);
    assert g[i1][j] == CellCourses(courses, startHour + i1, days[j]);
    assert g[i2][j] == CellCourses(courses, startHour + i2, days[j]);
    assert StartsAt(c, startHour + i1) && StartsAt(c, startHour + i2);
  }

  /** Where a course is drawn: in column `j` and row `i` exactly when it is on that column's
      day, has both times, starts at the row's hour and ends in a later hour. */
  lemma DrawnWhere(days: seq<string>, startHour: int, endHour: int, courses: seq<ScheduleCourse>,
                   c: ScheduleCourse, i: int, j: int)
    requires c in courses
    requires 0 <= i < |GridHours(startHour, endHour)| && 0 <= j < |days|
    ensures c in WeeklyGrid(days, startHour, endHour, courses)[i][j] <==>
              days[j] in c.days && c.startTime != "" && c.endTime != ""
              && HourPart(c.startTime) == Real((startHour + i) as real)
              && HourPart(c.endTime).Real? && ((startHour + i) as real) < HourPart(c.endTime).r
  {
    assert WeeklyGrid(days, startHour, endHour, courses)[i][j] == CellCourses(courses, startHour + i, days[j]);
  }

  /** A course whose start and end share an hour (09:00 to 09:45, say) is drawn nowhere. */
  lemma SameHourNeverDrawn(days: seq<string>, startHour: int, endHour: int, courses: seq<ScheduleCourse>,
                           c: ScheduleCourse, i: int, j: int)
    requires HourPart(c.startTime) == HourPart(c.endTime)
    requires 0 <= i < |GridHours(startHour, endHour)| && 0 <= j < |days|
    ensures c !in WeeklyGrid(days, startHour, endHour, courses)[i][j]
  {
    assert WeeklyGrid(days, startHour, endHour, courses)[i][j] == CellCourses(courses, startHour + i, days[j]);
  }

  /** A course that starts before the first row or at or after the end hour is drawn nowhere,
      even when it runs into the grid's hours. */
  lemma StartOutsideGridNeverDrawn(days: seq<string>, startHour: int, endHour: int,
                                   courses: seq<ScheduleCourse>, c: ScheduleCourse, i: int, j: int)
    requires HourPart(c.startTime).Real?
    requires HourPart(c.startTime).r < startHour as real || HourPart(c.startTime).r >= endHour as real
    requires 0 <= i < |GridHours(startHour, endHour)| && 0 <= j < |days|
    ensures c !in WeeklyGrid(days, startHour, endHour, courses)[i][j]
  {
    assert WeeklyGrid(days, startHour, endHour, courses)[i][j] == CellCourses(courses, startHour + i, days[j]);
  }

  /** With weekends hidden, no displayed day is a weekend day. */
  lemma HiddenWeekends(showWeekends: Value)
    requires !Truthy(showWeekends)
    ensures forall j :: 0 <= j < |DisplayDays(showWeekends)| ==> NotWeekend(DisplayDays(showWeekends)[j])
  {
    var w := WeekDays();
    forall j | 0 <= j < 5 ensures NotWeekend(w[j]) {
      assert w[j][0] != 'S';
    }
  }

  /** A course held only on weekends appears in no column of a weekday. */
  lemma WeekendCourseOffWeekdays(days: seq<string>, startHour: int, endHour: int,
                                 courses: seq<ScheduleCourse>, c: ScheduleCourse, i: int, j: int)
    requires forall d :: d in c.days ==> !NotWeekend(d)
    requires 0 <= i < |GridHours(startHour, endHour)| && 0 <= j < |days| && NotWeekend(days[j])
    ensures c !in WeeklyGrid(days, startHour, endHour, courses)[i][j]
  {
    assert days[j] !in c.days;
    assert WeeklyGrid(days, startHour, endHour, courses)[i][j] == CellCourses(courses, startHour + i, days[j]);
  }

  /** So a course held only on weekends does not appear when weekends are hidden. */
  lemma WeekendHidden(showWeekends: Value, startHour: int, endHour: int, courses: seq<ScheduleCourse>,
                      c: ScheduleCourse, i: int, j: int)
    requires !Truthy(showWeekends) && forall d :: d in c.days ==> !NotWeekend(d)
    requires 0 <= i < |GridHours(startHour, endHour)| && 0 <= j < |DisplayDays(showWeekends)|
    ensures c !in WeeklyGrid(DisplayDays(showWeekends), startHour, endHour, courses)[i][j]
  {
    HiddenWeekends(showWeekends);
    WeekendCourseOffWeekdays(DisplayDays(showWeekends), startHour, endHour, courses, c, i, j);
  }

  /** A course just opened by `addCourse` has no day and no time: saved as it is, it is drawn
      nowhere. */
  lemma BlankCourseNeverDrawn(days: seq<string>, startHour: int, endHour: int,
                              courses: seq<ScheduleCourse>, id: string, i: int, j: int)
    requires 0 <= i < |GridHours(startHour, endHour)| && 0 <= j < |days|
    ensures Schedule.BlankCourse(id) !in WeeklyGrid(days, startHour, endHour, courses)[i][j]
  {
    assert WeeklyGrid(days, startHour, endHour, courses)[i][j] == CellCourses(courses, startHour + i, days[j]);
  }

  // ---------------------------------------------------------------------------
  // The compact view.

  /** The time line of a course: both times formatted and joined by " - ", or the fallback
      text when either is missing. */
  function TimeRange(c: ScheduleCourse, hourFormat: Value, missing: string): (r: TimeText)
    requires Formattable(c.startTime, hourFormat) && Formattable(c.endTime, hourFormat)
    ensures c.startTime == "" || c.endTime == "" ==> r == Shown(missing)
    ensures c.startTime != "" && c.endTime != "" ==>
              (r.TypeError? <==> FormatTime(c.startTime, hourFormat).TypeError?
                                 || FormatTime(c.endTime, hourFormat).TypeError?)
    ensures c.startTime != "" && c.endTime != "" && FormatTime(c.startTime, hourFormat).Shown?
            && FormatTime(c.endTime, hourFormat).Shown? ==>
              r == Shown(FormatTime(c.startTime, hourFormat).text + " - " + FormatTime(c.endTime, hourFormat).text)
  {
    if c.startTime == "" || c.endTime == "" then Shown(missing)
    else match (FormatTime(c.startTime, hourFormat), FormatTime(c.endTime, hourFormat))
         case (Shown(a), Shown(b)) => Shown(a + " - " + b)
         case _ => TypeError
  }

  /** Two times from time inputs: outside 12-hour mode the line is the two `HH:MM` texts
      joined by " - "; in 12-hour mode each side is its 12-hour text with AM or PM. */
  lemma TimeRangeOfClocks(c: ScheduleCourse, hourFormat: Value, missing: string,
                          h1: nat, m1: nat, h2: nat, m2: nat)
    requires h1 < 24 && m1 < 60 && h2 < 24 && m2 < 60
    requires c.startTime == Clock24(h1, m1) && c.endTime == Clock24(h2, m2)
    ensures Formattable(c.startTime, hourFormat) && Formattable(c.endTime, hourFormat)
    ensures hourFormat != Str("12h") ==>
              TimeRange(c, hourFormat, missing) == Shown(Clock24(h1, m1) + " - " + Clock24(h2, m2))
    ensures hourFormat == Str("12h") ==>
              TimeRange(c, hourFormat, missing)
              == Shown(Clock12(h1, m1) + " - " + Clock12(h2, m2))
  {
    assert |Clock24(h1, m1)| == 5 && |Clock24(h2, m2)| == 5;
    if hourFormat == Str("12h") {
      TimeInputIn12h(h1, m1);
      TimeInputIn12h(h2, m2);
      assert FormatTime(c.startTime, hourFormat) == Shown(Clock12(h1, m1));
      assert FormatTime(c.endTime, hourFormat) == Shown(Clock12(h2, m2));
    }
    RangeOfShown(c, hourFormat, missing, FormatTime(c.startTime, hourFormat).text,
                 FormatTime(c.endTime, hourFormat).text);
  }

  /** Two shown times make the line `a - b`. */
  lemma RangeOfShown(c: ScheduleCourse, hourFormat: Value, missing: string, a: string, b: string)
    requires Formattable(c.startTime, hourFormat) && Formattable(c.endTime, hourFormat)
    requires c.startTime != "" && c.endTime != ""
    requires FormatTime(c.startTime, hourFormat) == Shown(a) && FormatTime(c.endTime, hourFormat) == Shown(b)
    ensures TimeRange(c, hourFormat, missing) == Shown(a + " - " + b)
  {
  }

  /** One card of the compact view: name, code, the days joined by ", ", and the time line. */
  datatype CompactCard = CompactCard(name: string, code: string, days: string, time: TimeText, color: string)

  predicate AllFormattable(courses: seq<ScheduleCourse>, hourFormat: Value)
  {
    forall k :: 0 <= k < |courses| ==>
      Formattable(courses[k].startTime, hourFormat) && Formattable(courses[k].endTime, hourFormat)
  }

  /** `renderCompactView()`: one card per course, in list order, whatever its days and times. */
  function CompactView(courses: seq<ScheduleCourse>, hourFormat: Value): (cards: seq<CompactCard>)
    requires AllFormattable(courses, hourFormat)
    ensures |cards| == |courses|
    ensures forall k :: 0 <= k < |cards| ==>
              (cards[k].name == courses[k].courseName && cards[k].code == courses[k].courseCode
               && cards[k].color == courses[k].color)
    ensures forall k :: 0 <= k < |cards| ==>
              cards[k].days == Join(courses[k].days, ", ")
              && cards[k].time == TimeRange(courses[k], hourFormat, "No time specified")
  {
    seq(|courses|, k requires 0 <= k < |courses| =>
      CompactCard(courses[k].courseName, courses[k].courseCode, Join(courses[k].days, ", "),
                  TimeRange(courses[k], hourFormat, "No time specified"), courses[k].color))
  }

  /** Every course has its card, even one the weekly grid never draws. */
  lemma CompactShowsEveryCourse(courses: seq<ScheduleCourse>, hourFormat: Value, k: int)
    requires AllFormattable(courses, hourFormat) && 0 <= k < |courses|
    ensures exists n :: 0 <= n < |CompactView(courses, hourFormat)|
                        && CompactView(courses, hourFormat)[n].name == courses[k].courseName
  {
    assert CompactView(courses, hourFormat)[k].name == courses[k].courseName;
  }
}
