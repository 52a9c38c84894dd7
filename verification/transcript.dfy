/** The transcript's form state (hooks/useTranscript.ts): the course-list reducer that
    recomputes the three summary members, the input reducer, and the generator's
    `handleFormChange`, which turns a bare value into a change event. */
module Transcript {
  import opened Js
  import opened Types
  import opened Forms
  import opened Constants

  /** `currentGPA` as the reducer writes it: the string "0.00", or the ratio it prints with
      `toFixed(2)`. */
  datatype GpaText = ZeroGpa | Ratio(value: real)

  /** The transcript form: the course list and its three summary members, and every other
      member by name. */
  datatype TranscriptData = TranscriptData(
    fields: Fields,
    courses: seq<TranscriptCourse>,
    totalCredits: real,
    completedCredits: real,
    currentGpa: GpaText)

  datatype TranscriptState = TranscriptState(data: TranscriptData, errors: Errors)

  // ---------------------------------------------------------------------------
  // Sums.

  function SumCredits(cs: seq<TranscriptCourse>): real
  {
    if cs == [] then 0.0 else cs[0].credits + SumCredits(cs[1..])
  }

  lemma {:induction false} SumCreditsAppend(a: seq<TranscriptCourse>, b: seq<TranscriptCourse>)
    ensures SumCredits(a + b) == SumCredits(a) + SumCredits(b)
  {
    if a == [] {
      assert a + b == b;
    } else {
      assert (a + b)[0] == a[0];
      assert (a + b)[1..] == a[1..] + b;
      SumCreditsAppend(a[1..], b);
    }
  }

  function CompletedCourses(cs: seq<TranscriptCourse>): (r: seq<TranscriptCourse>)
    ensures forall i :: 0 <= i < |r| ==> r[i].completed
    ensures |r| <= |cs|
  {
    if cs == [] then []
    else (if cs[0].completed then [cs[0]] else []) + CompletedCourses(cs[1..])
  }

  /** `course.completed && GRADE_POINTS[grade] !== null`: an unknown grade passes the test. */
  predicate CountsForGpa(c: TranscriptCourse)
  {
    c.completed && !GradePoint(c.grade).NullMark?
  }

  /** The courses that enter the grade point average, in order. */
  function GpaCourses(cs: seq<TranscriptCourse>): (r: seq<TranscriptCourse>)
    ensures forall i :: 0 <= i < |r| ==> r[i].completed && !NonGpaGrade(r[i].grade)
  {
    if cs == [] then []
    else (if CountsForGpa(cs[0]) then [cs[0]] else []) + GpaCourses(cs[1..])
  }

  /** `GRADE_POINTS[grade] || 0`: an unknown grade is worth 0 points. */
  function PointsOf(grade: string): (p: real)
    ensures 0.0 <= p <= 4.0
    ensures GradePoint(grade).Missing? ==> p == 0.0
  {
    var g := GradePoint(grade);
    if g.Points? then g.p else 0.0
  }

  /** `gradePoint * course.credits`. */
  function Weight(c: TranscriptCourse): real
  {
    PointsOf(c.grade) * c.credits
  }

  /** The credit-weighted grade points of a list of courses. */
  function WeightedPoints(cs: seq<TranscriptCourse>): real
  {
    if cs == [] then 0.0 else Weight(cs[0]) + WeightedPoints(cs[1..])
  }

  /** The credits the `forEach` loop of the reducer adds up: those of the courses that
      count. */
  function GpaCredits(cs: seq<TranscriptCourse>): (t: real)
    ensures t == SumCredits(GpaCourses(cs))
  {
    if cs == [] then 0.0
    else
      var rest := GpaCredits(cs[1..]);
      if CountsForGpa(cs[0]) then
        assert GpaCourses(cs) == [cs[0]] + GpaCourses(cs[1..]);
        assert ([cs[0]] + GpaCourses(cs[1..]))[1..] == GpaCourses(cs[1..]);
        rest + cs[0].credits
      else
        assert GpaCourses(cs) == GpaCourses(cs[1..]);
        rest
  }

  /** The grade points the same loop adds up: `gradePoint * credits` over the courses that
      count. */
  function GpaPoints(cs: seq<TranscriptCourse>): (t: real)
    ensures t == WeightedPoints(GpaCourses(cs))
  {
    if cs == [] then 0.0
    else
      var rest := GpaPoints(cs[1..]);
      if CountsForGpa(cs[0]) then
        assert GpaCourses(cs) == [cs[0]] + GpaCourses(cs[1..]);
        assert ([cs[0]] + GpaCourses(cs[1..]))[1..] == GpaCourses(cs[1..]);
        rest + Weight(cs[0])
      else
        assert GpaCourses(cs) == GpaCourses(cs[1..]);
        rest
  }

  /** `handleCoursesChange(courses)`: the new list and the three values derived from it; every
      other member is kept. */
  function CoursesChange(d: TranscriptData, cs: seq<TranscriptCourse>): (r: TranscriptData)
    ensures r.fields == d.fields && r.courses == cs
    ensures r.totalCredits == SumCredits(cs)
    ensures r.completedCredits == SumCredits(CompletedCourses(cs))
    ensures r.currentGpa.ZeroGpa? <==> SumCredits(GpaCourses(cs)) <= 0.0
    ensures r.currentGpa.Ratio? ==>
              r.currentGpa.value == WeightedPoints(GpaCourses(cs)) / SumCredits(GpaCourses(cs))
  {
    var points, credits := GpaPoints(cs), GpaCredits(cs);
    TranscriptData(d.fields, cs, SumCredits(cs), SumCredits(CompletedCourses(cs)),
                   if credits > 0.0 then Ratio(points / credits) else ZeroGpa)
  }

  /** With no negative credits, the completed credits never exceed the total. */
  lemma {:induction false} CompletedAtMostTotal(cs: seq<TranscriptCourse>)
    requires forall i :: 0 <= i < |cs| ==> cs[i].credits >= 0.0
    ensures 0.0 <= SumCredits(CompletedCourses(cs)) <= SumCredits(cs)
  {
    if cs != [] {
      CompletedAtMostTotal(cs[1..]);
      var rest := CompletedCourses(cs[1..]);
      if cs[0].completed {
        assert CompletedCourses(cs) == [cs[0]] + rest;
        assert ([cs[0]] + rest)[1..] == rest;
      } else {
        assert CompletedCourses(cs) == [] + rest;
        assert [] + rest == rest;
      }
    }
  }

  /** A course that is not completed, or whose grade the table maps to null (P, NP, I, W,
      In Progress), changes neither GPA total when it is added to the list. */
  lemma NonGpaCourseIgnored(cs: seq<TranscriptCourse>, c: TranscriptCourse)
    requires !c.completed || NonGpaGrade(c.grade)
    ensures GpaCredits(cs + [c]) == GpaCredits(cs) && GpaPoints(cs + [c]) == GpaPoints(cs)
  {
    GpaCoursesAppend(cs, [c]);
    assert GpaCourses([c]) == [];
    assert cs + [c] == cs + [c];
    assert GpaCourses(cs) + [] == GpaCourses(cs);
  }

  /** A completed course whose grade is not in the table counts with its full credits and no
      points. */
  lemma MissingGradeCountsAsZero(cs: seq<TranscriptCourse>, c: TranscriptCourse)
    requires c.completed && !GradeKey(c.grade)
    ensures GpaCredits(cs + [c]) == GpaCredits(cs) + c.credits
    ensures GpaPoints(cs + [c]) == GpaPoints(cs)
  {
    GpaCoursesAppend(cs, [c]);
    assert GpaCourses([c]) == [c];
    SumCreditsAppend(GpaCourses(cs), [c]);
    WeightedPointsAppend(GpaCourses(cs), [c]);
  }

  lemma {:induction false} GpaCoursesAppend(a: seq<TranscriptCourse>, b: seq<TranscriptCourse>)
    ensures GpaCourses(a + b) == GpaCourses(a) + GpaCourses(b)
  {
    if a == [] {
      assert a + b == b;
    } else {
      assert (a + b)[1..] == a[1..] + b;
      GpaCoursesAppend(a[1..], b);
    }
  }

  lemma {:induction false} WeightedPointsAppend(a: seq<TranscriptCourse>, b: seq<TranscriptCourse>)
    ensures WeightedPoints(a + b) == WeightedPoints(a) + WeightedPoints(b)
  {
    if a == [] {
      assert a + b == b;
    } else {
      assert (a + b)[0] == a[0];
      assert Weight((a + b)[0]) == Weight(a[0]);
      assert (a + b)[1..] == a[1..] + b;
      WeightedPointsAppend(a[1..], b);
    }
  }

  /** The derived members depend on the list alone, so applying the reducer twice with the
      same list changes nothing more. */
  lemma CoursesChangeIdempotent(d: TranscriptData, cs: seq<TranscriptCourse>)
    ensures CoursesChange(CoursesChange(d, cs), cs) == CoursesChange(d, cs)
  {
  }

  // ---------------------------------------------------------------------------
  // The default transcript.

  /** DEFAULT_TRANSCRIPT_DATA with its stored summary: 36 credits, 33 completed, GPA "3.75". */
  function DefaultTranscriptData(today: string): TranscriptData
  {
    TranscriptData(DefaultTranscriptFields(today), DefaultTranscriptCourses(), 36.0, 33.0, Ratio(3.75))
  }

  /** The three completed semesters of the default list: every course counts, for 14, 13 and
      9 credits and 48.3, 46.2 and 33 weighted points. */
  lemma DefaultFall2022Totals()
    ensures CompletedCourses(DefaultFall2022()) == GpaCourses(DefaultFall2022()) == DefaultFall2022()
    ensures SumCredits(DefaultFall2022()) == 14.0 && WeightedPoints(DefaultFall2022()) == 48.3
  {
    var cs := DefaultFall2022();
    DefaultGradePoints();
    AllCounting(cs);
    FourTotals(cs);
  }

  lemma DefaultSpring2023Totals()
    ensures CompletedCourses(DefaultSpring2023()) == GpaCourses(DefaultSpring2023()) == DefaultSpring2023()
    ensures SumCredits(DefaultSpring2023()) == 13.0 && WeightedPoints(DefaultSpring2023()) == 46.2
  {
    var cs := DefaultSpring2023();
    DefaultGradePoints();
    AllCounting(cs);
    FourTotals(cs);
  }

  lemma DefaultFall2023Totals()
    ensures CompletedCourses(DefaultFall2023()) == GpaCourses(DefaultFall2023()) == DefaultFall2023()
    ensures SumCredits(DefaultFall2023()) == 9.0 && WeightedPoints(DefaultFall2023()) == 33.0
  {
    var cs := DefaultFall2023();
    DefaultGradePoints();
    AllCounting(cs);
    ThreeTotals(cs);
  }

  /** The grades of the default courses and what they are worth. */
  lemma DefaultGradePoints()
    ensures GradePoint("A") == Points(4.0) && GradePoint("A-") == Points(3.7)
    ensures GradePoint("B+") == Points(3.3) && GradePoint("B") == Points(3.0)
  {
  }

  /** A list whose every course counts keeps all of them in both filters. */
  lemma {:induction false} AllCounting(cs: seq<TranscriptCourse>)
    requires forall i :: 0 <= i < |cs| ==> CountsForGpa(cs[i])
    ensures CompletedCourses(cs) == cs && GpaCourses(cs) == cs
  {
    if cs != [] {
      AllCounting(cs[1..]);
      assert cs == [cs[0]] + cs[1..];
    }
  }

  lemma ThreeTotals(cs: seq<TranscriptCourse>)
    requires |cs| == 3
    ensures SumCredits(cs) == cs[0].credits + cs[1].credits + cs[2].credits
    ensures WeightedPoints(cs) == Weight(cs[0]) + Weight(cs[1]) + Weight(cs[2])
  {
    var t := cs[1..];
    assert t[0] == cs[1] && t[1..][0] == cs[2] && t[1..][1..] == [];
    assert SumCredits(t[1..]) == cs[2].credits && WeightedPoints(t[1..]) == Weight(cs[2]);
    assert SumCredits(t) == cs[1].credits + cs[2].credits && WeightedPoints(t) == Weight(cs[1]) + Weight(cs[2]);
  }

  lemma FourTotals(cs: seq<TranscriptCourse>)
    requires |cs| == 4
    ensures SumCredits(cs) == cs[0].credits + cs[1].credits + cs[2].credits + cs[3].credits
    ensures WeightedPoints(cs) == Weight(cs[0]) + Weight(cs[1]) + Weight(cs[2]) + Weight(cs[3])
  {
    ThreeTotals(cs[1..]);
  }

  lemma {:induction false} CompletedCoursesAppend(a: seq<TranscriptCourse>, b: seq<TranscriptCourse>)
    ensures CompletedCourses(a + b) == CompletedCourses(a) + CompletedCourses(b)
  {
    if a == [] {
      assert a + b == b;
    } else {
      assert (a + b)[1..] == a[1..] + b;
      CompletedCoursesAppend(a[1..], b);
    }
  }

  /** A single course that is not completed adds its credits and nothing else. */
  lemma UncountedSingleton(x: TranscriptCourse)
    requires !x.completed
    ensures CompletedCourses([x]) == [] && GpaCourses([x]) == [] && SumCredits([x]) == x.credits
  {
    assert [x][1..] == [];
    assert SumCredits([x][1..]) == 0.0;
    assert CompletedCourses([x][1..]) == [];
    assert GpaCourses([x][1..]) == [];
  }

  /** Totals of a list made of fully counted parts followed by one course that is not
      completed. */
  lemma {:induction false} TotalsOfParts(a: seq<TranscriptCourse>, b: seq<TranscriptCourse>,
                                         c: seq<TranscriptCourse>, x: TranscriptCourse)
    requires CompletedCourses(a) == GpaCourses(a) == a
    requires CompletedCourses(b) == GpaCourses(b) == b
    requires CompletedCourses(c) == GpaCourses(c) == c
    requires !x.completed
    ensures SumCredits(a + b + c + [x]) == SumCredits(a) + SumCredits(b) + SumCredits(c) + x.credits
    ensures CompletedCourses(a + b + c + [x]) == GpaCourses(a + b + c + [x]) == a + b + c
    ensures WeightedPoints(a + b + c) == WeightedPoints(a) + WeightedPoints(b) + WeightedPoints(c)
  {
    var done := a + b + c;
    UncountedSingleton(x);
    SumCreditsAppend(a, b);
    SumCreditsAppend(a + b, c);
    SumCreditsAppend(done, [x]);
    CompletedCoursesAppend(a, b);
    CompletedCoursesAppend(a + b, c);
    CompletedCoursesAppend(done, [x]);
    assert CompletedCourses(done) + [] == done;
    GpaCoursesAppend(a, b);
    GpaCoursesAppend(a + b, c);
    GpaCoursesAppend(done, [x]);
    assert GpaCourses(done) + [] == done;
    WeightedPointsAppend(a, b);
    WeightedPointsAppend(a + b, c);
  }

  /** The reducer on such a list: the summary is made of the parts' totals. */
  lemma SummaryOfParts(d: TranscriptData, cs: seq<TranscriptCourse>, a: seq<TranscriptCourse>,
                       b: seq<TranscriptCourse>, c: seq<TranscriptCourse>, x: TranscriptCourse)
    requires cs == a + b + c + [x]
    requires CompletedCourses(a) == GpaCourses(a) == a
    requires CompletedCourses(b) == GpaCourses(b) == b
    requires CompletedCourses(c) == GpaCourses(c) == c
    requires !x.completed && SumCredits(a) + SumCredits(b) + SumCredits(c) > 0.0
    ensures CoursesChange(d, cs).totalCredits == SumCredits(a) + SumCredits(b) + SumCredits(c) + x.credits
    ensures CoursesChange(d, cs).completedCredits == SumCredits(a) + SumCredits(b) + SumCredits(c)
    ensures CoursesChange(d, cs).currentGpa
            == Ratio((WeightedPoints(a) + WeightedPoints(b) + WeightedPoints(c))
                     / (SumCredits(a) + SumCredits(b) + SumCredits(c)))
  {
    TotalsOfParts(a, b, c, x);
    SumCreditsAppend(a, b);
    SumCreditsAppend(a + b, c);
  }

  /** The reducer applied to the default courses gives 39 credits, 36 completed and a GPA of
      127.5 / 36, whatever the rest of the form holds. */
  lemma DefaultCoursesSummary(d: TranscriptData)
    ensures CoursesChange(d, DefaultTranscriptCourses()).totalCredits == 39.0
    ensures CoursesChange(d, DefaultTranscriptCourses()).completedCredits == 36.0
    ensures CoursesChange(d, DefaultTranscriptCourses()).currentGpa == Ratio(127.5 / 36.0)
  {
    DefaultFall2022Totals();
    DefaultSpring2023Totals();
    DefaultFall2023Totals();
    SummaryOfParts(d, DefaultTranscriptCourses(), DefaultFall2022(), DefaultSpring2023(), DefaultFall2023(),
                   DefaultInProgress());
  }

  /** The stored default summary (36, 33, "3.75") is not what the reducer computes from the
      default courses: the default form is not a fixed point of the reducer. */
  lemma DefaultSummaryIsStale(today: string)
    ensures CoursesChange(DefaultTranscriptData(today), DefaultTranscriptCourses()) != DefaultTranscriptData(today)
  {
    var d := DefaultTranscriptData(today);
    DefaultCoursesSummary(d);
    assert d.totalCredits == 36.0;
  }

  // ---------------------------------------------------------------------------
  // Input events.

  /** `handleInputChange`: a checkbox stores `target.checked` (undefined when the event has
      none), anything else stores `target.value`; only that field's error is dropped. */
  function InputChange(st: TranscriptState, ev: InputEvent): (r: TranscriptState)
    ensures r.data.fields.Keys == st.data.fields.Keys + {ev.name}
    ensures ev.name in r.data.fields
    ensures ev.kind == "checkbox" && ev.checked.Some? ==> r.data.fields[ev.name] == Bool(ev.checked.value)
    ensures ev.kind == "checkbox" && ev.checked.None? ==> r.data.fields[ev.name] == Undefined
    ensures ev.kind != "checkbox" ==> r.data.fields[ev.name] == ev.value
    ensures forall k :: k in st.data.fields && k != ev.name ==> r.data.fields[k] == st.data.fields[k]
    ensures r.data.courses == st.data.courses && r.data.totalCredits == st.data.totalCredits
            && r.data.completedCredits == st.data.completedCredits && r.data.currentGpa == st.data.currentGpa
    ensures r.errors == ClearError(st.errors, ev.name)
  {
    var v := if ev.kind == "checkbox" then (if ev.checked.Some? then Bool(ev.checked.value) else Undefined)
             else ev.value;
    TranscriptState(st.data.(fields := SetField(st.data.fields, ev.name, v)), ClearError(st.errors, ev.name))
  }

  /** The generator's `handleFormChange(name, value)`: the event has type "checkbox" for a
      boolean and "text" otherwise, and never a `checked` member, so every boolean toggle is
      stored as undefined. */
  function FormChange(st: TranscriptState, name: string, value: Value): (r: TranscriptState)
    ensures name in r.data.fields
    ensures value.Bool? ==> r.data.fields[name] == Undefined
    ensures !value.Bool? ==> r.data.fields[name] == value
    ensures forall k :: k in st.data.fields && k != name ==> k in r.data.fields && r.data.fields[k] == st.data.fields[k]
  {
    InputChange(st, InputEvent(name, value, if value.Bool? then "checkbox" else "text", None))
  }

  /** A boolean switch cannot be turned back on through the generator: after a toggle the field
      is falsy whatever value was sent. */
  lemma BooleanToggleIsFalsy(st: TranscriptState, name: string, b: bool)
    ensures !Truthy(Get(FormChange(st, name, Bool(b)).data.fields, name))
  {
  }

  /** `setFieldValue(name, value)`: the value is merged as it is, booleans included, and the
      errors are left alone. */
  function SetFieldValue(st: TranscriptState, name: string, value: Value): (r: TranscriptState)
    ensures r.data.fields.Keys == st.data.fields.Keys + {name} && r.data.fields[name] == value
    ensures forall k :: k in st.data.fields && k != name ==> r.data.fields[k] == st.data.fields[k]
    ensures r.data.courses == st.data.courses && r.errors == st.errors
  {
    TranscriptState(st.data.(fields := SetField(st.data.fields, name, value)), st.errors)
  }

  /** The two routes agree on every value but a boolean: `setFieldValue` stores a switch turned
      on, where the generator's route stores undefined. */
  lemma FieldRoutesAgree(st: TranscriptState, name: string, value: Value)
    ensures !value.Bool? ==> FormChange(st, name, value).data.fields == SetFieldValue(st, name, value).data.fields
    ensures value == Bool(true) ==> Truthy(Get(SetFieldValue(st, name, value).data.fields, name))
                                    && !Truthy(Get(FormChange(st, name, value).data.fields, name))
  {
  }

  /** `resetForm()`: the initial data and no errors. */
  function ResetForm(initial: TranscriptData): (r: TranscriptState)
    ensures r.data == initial && r.errors == map[]
  {
    TranscriptState(initial, map[])
  }
}
