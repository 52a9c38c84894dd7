/** The course cards of the schedule's info form (components/schedule/ScheduleInfoForm.tsx):
    the mode and type badges, the days in Chinese, the location line with its fallback, and
    the time line. */
module ScheduleInfo {
  import opened Js
  import opened Types
  import opened Constants
  import opened ScheduleView

  // ---------------------------------------------------------------------------
  // Badges.

  /** A badge's three Tailwind classes, which the form joins with spaces. */
  datatype Badge = Badge(background: string, text: string, border: string)

  function ClassName(b: Badge): string
  {
    b.background + " " + b.text + " " + b.border
  }

  /** The pattern every badge but one follows: a light background, dark text and a mid border
      of one hue. */
  function Palette(hue: string): Badge
  {
    Badge("bg-" + hue + "-100", "text-" + hue + "-800", "border-" + hue + "-200")
  }

  /** The palette tells its hues apart. */
  lemma PaletteInjective(h1: string, h2: string)
    requires Palette(h1) == Palette(h2)
    ensures h1 == h2
  {
    var b := Palette(h1).background;
    assert b[3..|b| - 4] == h1;
    assert Palette(h2).background[3..|b| - 4] == h2;
  }

  /** The hue of each course mode. */
  function ModeHue(mode: string): string
  {
    if mode == "In-Person" then "green"
    else if mode == "Online" then "blue"
    else if mode == "Hybrid" then "purple"
    else "gray"
  }

  /** `getModeColor(mode)`. */
  function ModeColor(mode: string): (b: Badge)
    ensures b == Palette(ModeHue(mode))
  {
    Palette(ModeHue(mode))
  }

  /** The three modes of the select; any other string gets the gray default. */
  const Modes := ["In-Person", "Online", "Hybrid"]

  lemma ModeHuesDistinct(m1: string, m2: string)
    requires m1 != m2 && (m1 in Modes || m2 in Modes)
    ensures ModeHue(m1) != ModeHue(m2)
  {
    assert "green"[2] != "gray"[2] && "blue"[0] != "gray"[0] && "purple"[0] != "gray"[0];
    assert "green"[0] != "blue"[0] && "green"[0] != "purple"[0] && "blue"[0] != "purple"[0];
  }

  /** The three modes get three different badges, none of them the gray default. */
  lemma ModeColorsDistinct(m1: string, m2: string)
    requires m1 != m2 && (m1 in Modes || m2 in Modes)
    ensures ModeColor(m1) != ModeColor(m2)
  {
    ModeHuesDistinct(m1, m2);
    if ModeColor(m1) == ModeColor(m2) {
      PaletteInjective(ModeHue(m1), ModeHue(m2));
    }
  }

  /** The five course types of the select. */
  const Kinds := ["Lecture", "Seminar", "Lab", "Tutorial", "Workshop"]

  /** The hue of each course type. */
  function KindHue(kind: string): string
  {
    if kind == "Lecture" then "amber"
    else if kind == "Seminar" then "indigo"
    else if kind == "Lab" then "cyan"
    else if kind == "Tutorial" then "rose"
    else if kind == "Workshop" then "emerald"
    else "gray"
  }

  /** `getTypeColor(type)` as written: the workshop badge has the light `text-emerald-200` text
      on its `bg-emerald-100` background, where every other badge has the 800 shade. */
  function TypeColor(kind: string): (b: Badge)
    ensures kind != "Workshop" ==> b == Palette(KindHue(kind))
  {
    if kind == "Workshop" then Badge("bg-emerald-100", "text-emerald-200", "border-emerald-200")
    else Palette(KindHue(kind))
  }

  /** The workshop badge breaks the pattern: its text is the border's light shade. */
  lemma WorkshopTextIsLight()
    ensures TypeColor("Workshop") != Palette(KindHue("Workshop"))
    ensures TypeColor("Workshop").text[|"text-emerald-"|..] == "200"
  {
    assert TypeColor("Workshop").text[13] != Palette("emerald").text[13];
  }

  /** `getTypeColor` with the workshop text in the 800 shade of the others. */
  function TypeColorIntended(kind: string): (b: Badge)
    ensures b == Palette(KindHue(kind))
  {
    Palette(KindHue(kind))
  }

  /** The correction changes the workshop badge and nothing else. */
  lemma TypeColorCorrectionOnlyWorkshop(kind: string)
    ensures kind != "Workshop" <==> TypeColor(kind) == TypeColorIntended(kind)
  {
    if kind == "Workshop" {
      WorkshopTextIsLight();
    }
  }

  lemma KindHuesDistinct(k1: string, k2: string)
    requires k1 != k2 && (k1 in Kinds || k2 in Kinds)
    ensures KindHue(k1) != KindHue(k2)
  {
    assert "amber"[0] != "indigo"[0] && "amber"[0] != "cyan"[0] && "amber"[0] != "rose"[0];
    assert "amber"[0] != "emerald"[0] && "amber"[0] != "gray"[0];
    assert "indigo"[0] != "cyan"[0] && "indigo"[0] != "rose"[0] && "indigo"[0] != "emerald"[0];
    assert "indigo"[0] != "gray"[0];
    assert "cyan"[0] != "rose"[0] && "cyan"[0] != "emerald"[0] && "cyan"[0] != "gray"[0];
    assert "rose"[0] != "emerald"[0] && "rose"[0] != "gray"[0] && "emerald"[0] != "gray"[0];
  }

  /** With the correction, the five types get five different badges, none of them the gray
      default. */
  lemma TypeColorsDistinct(k1: string, k2: string)
    requires k1 != k2 && (k1 in Kinds || k2 in Kinds)
    ensures TypeColorIntended(k1) != TypeColorIntended(k2)
  {
    KindHuesDistinct(k1, k2);
    if TypeColorIntended(k1) == TypeColorIntended(k2) {
      PaletteInjective(KindHue(k1), KindHue(k2));
    }
  }

  // ---------------------------------------------------------------------------
  // Days.

  /** The Chinese short names of Monday to Sunday. */
  function ChineseDays(): seq<string>
  {
    ["周一", "周二", "周三", "周四", "周五", "周六", "周日"]
  }

  /** The day translation follows the week: day `k` of `WeekDays()` becomes Chinese name `k`,
      and a string that is not an English week day is shown as it is. */
  function TranslateDay(day: string): (r: string)
    ensures forall k :: 0 <= k < 7 && day == WeekDays()[k] ==> r == ChineseDays()[k]
    ensures day !in WeekDays() ==> r == day
  {
    var w := WeekDays();
    assert w[0][0] == 'M' && w[1][0] == 'T' && w[2][0] == 'W' && w[3][0] == 'T';
    assert w[4][0] == 'F' && w[5][0] == 'S' && w[6][0] == 'S';
    assert w[1][1] != w[3][1] && w[5][1] != w[6][1];
    if day == "Monday" then "周一"
    else if day == "Tuesday" then "周二"
    else if day == "Wednesday" then "周三"
    else if day == "Thursday" then "周四"
    else if day == "Friday" then "周五"
    else if day == "Saturday" then "周六"
    else if day == "Sunday" then "周日"
    else day
  }

  /** The seven Chinese names differ, so no two week days are shown alike. */
  lemma ChineseDaysDistinct(k1: int, k2: int)
    requires 0 <= k1 < 7 && 0 <= k2 < 7 && k1 != k2
    ensures TranslateDay(WeekDays()[k1]) != TranslateDay(WeekDays()[k2])
  {
    var c := ChineseDays();
    assert c[k1][1] != c[k2][1];
  }

  function MapDays(days: seq<string>): (r: seq<string>)
    ensures |r| == |days|
    ensures forall k :: 0 <= k < |days| ==> r[k] == TranslateDay(days[k])
  {
    seq(|days|, k requires 0 <= k < |days| => TranslateDay(days[k]))
  }

  /** `days.map(translate).join(", ")`. */
  function DaysLabel(days: seq<string>): string
  {
    Join(MapDays(days), ", ")
  }

  // ---------------------------------------------------------------------------
  // Location.

  /** The location line's pieces as rendered: the building, a space, the room, the free-text
      location when there is neither building nor room, and "无地点信息" when all three are
      empty. */
  datatype LocationLine = LocationLine(building: string, room: string, location: string, fallback: string)

  function LocationOf(c: ScheduleCourse): (l: LocationLine)
    ensures l.building == c.building && l.room == c.room
    ensures l.location != "" <==> c.building == "" && c.room == "" && c.location != ""
    ensures l.fallback != "" <==> c.building == "" && c.room == "" && c.location == ""
  {
    var noPlace := c.building == "" && c.room == "";
    LocationLine(c.building, c.room, if noPlace && c.location != "" then c.location else "",
                 if noPlace && c.location == "" then "无地点信息" else "")
  }

  /** The text of the line: `{building} {room}{location}{fallback}`. */
  function LocationText(l: LocationLine): string
  {
    l.building + " " + l.room + l.location + l.fallback
  }

  /** Exactly one source of place is shown: building and room, or the free-text location, or
      the fallback. */
  lemma OnePlaceShown(c: ScheduleCourse)
    ensures var l := LocationOf(c);
            ((l.building != "" || l.room != "") ==> l.location == "" && l.fallback == "")
            && (l.location != "" ==> l.fallback == "")
            && (l.building != "" || l.room != "" || l.location != "" || l.fallback != "")
  {
  }

  // ---------------------------------------------------------------------------
  // The card.

  /** One course card of the info form. */
  datatype InfoCard = InfoCard(name: string, code: string, instructor: string, place: LocationLine,
                               days: string, time: TimeText)

  /** The card of a course: "未命名课程" for a course without name, "无教师信息" without
      instructor, and "无时间信息" when a time is missing. */
  function CourseCard(c: ScheduleCourse, hourFormat: Value): (card: InfoCard)
    requires Formattable(c.startTime, hourFormat) && Formattable(c.endTime, hourFormat)
    ensures c.courseName != "" ==> card.name == c.courseName
    ensures c.courseName == "" ==> card.name == "未命名课程"
    ensures c.instructor != "" ==> card.instructor == c.instructor
    ensures c.instructor == "" ==> card.instructor == "无教师信息"
    ensures card.code == c.courseCode
    ensures card.days == DaysLabel(c.days)
    ensures c.startTime == "" || c.endTime == "" ==> card.time == Shown("无时间信息")
    ensures card.time == TimeRange(c, hourFormat, "无时间信息")
    ensures card.place == LocationOf(c)
  {
    InfoCard(OrElse(c.courseName, "未命名课程"), c.courseCode, OrElse(c.instructor, "无教师信息"),
             LocationOf(c), DaysLabel(c.days), TimeRange(c, hourFormat, "无时间信息"))
  }
}
