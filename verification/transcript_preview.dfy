/** The computations of the transcript preview (components/transcript/TranscriptPreview.tsx):
    the per-semester grade point average, the list of (semester, academic year) headings in
    display order, the course table under each heading and the grade-point cell. */
module TranscriptPreview {
  import opened Js
  import opened Types
  import opened Constants
  import opened Sorting
  import opened Transcript
  import Lists

  // ---------------------------------------------------------------------------
  // Semester grade point average.

  /** What `calculateSemesterGPA` prints: "N/A", the "NaN" of `NaN.toFixed(2)`, or a ratio. */
  datatype SemesterGpa = NotApplicable | GpaNaN | Gpa(value: real)

  predicate InSemester(c: TranscriptCourse, semester: string, year: string)
  {
    c.semester == semester && c.academicYear == year
  }

  /** `courses.filter(c => c.semester === semester && c.academicYear === year && c.completed)`. */
  function SemesterCourses(cs: seq<TranscriptCourse>, semester: string, year: string): (r: seq<TranscriptCourse>)
    ensures forall i :: 0 <= i < |r| ==> r[i].completed && InSemester(r[i], semester, year)
    ensures forall c :: c in r <==> c in cs && c.completed && InSemester(c, semester, year)
    ensures |r| <= |cs|
  {
    if cs == [] then []
    else
      var rest := SemesterCourses(cs[1..], semester, year);
      assert cs == [cs[0]] + cs[1..];
      (if cs[0].completed && InSemester(cs[0], semester, year) then [cs[0]] else []) + rest
  }

  /** Some course has a grade the table does not know. */
  predicate HasMissingGrade(cs: seq<TranscriptCourse>)
  {
    cs != [] && (GradePoint(cs[0].grade).Missing? || HasMissingGrade(cs[1..]))
  }

  /** The `totalPoints` of the preview's loop: the table's `undefined` is not `null`, so an
      unknown grade adds `undefined * credits`, which is NaN, and NaN stays. */
  function PreviewPoints(cs: seq<TranscriptCourse>): (r: Number)
    ensures r.NotANumber? <==> HasMissingGrade(cs)
  {
    if cs == [] then Real(0.0)
    else
      var rest := PreviewPoints(cs[1..]);
      var g := GradePoint(cs[0].grade);
      if g.NullMark? then
        assert GpaCourses(cs) == GpaCourses(cs[1..]);
        rest
      else if g.Missing? then NotANumber
      else
        assert Weight(cs[0]) == g.p * cs[0].credits;
        Plus(rest, Weight(cs[0]))
  }

  /** Without an unknown grade, the preview adds up the same points as the form's reducer. */
  lemma {:induction false} PreviewPointsMatchReducer(cs: seq<TranscriptCourse>)
    requires forall i :: 0 <= i < |cs| ==> cs[i].completed
    requires !HasMissingGrade(cs)
    ensures PreviewPoints(cs) == Real(WeightedPoints(GpaCourses(cs)))
  {
    if cs != [] {
      forall i | 0 <= i < |cs[1..]| ensures cs[1..][i].completed {
        assert cs[1..][i] == cs[i + 1];
      }
      PreviewPointsMatchReducer(cs[1..]);
      PreviewPointsStep(cs);
    }
  }

  /** One step of the preview's loop over a completed course with a known grade keeps the
      preview's sum equal to the reducer's. */
  lemma PreviewPointsStep(cs: seq<TranscriptCourse>)
    requires cs != [] && cs[0].completed && !GradePoint(cs[0].grade).Missing?
    requires PreviewPoints(cs[1..]) == Real(WeightedPoints(GpaCourses(cs[1..])))
    ensures PreviewPoints(cs) == Real(WeightedPoints(GpaCourses(cs)))
  {
    var rest := WeightedPoints(GpaCourses(cs[1..]));
    if GradePoint(cs[0].grade).NullMark? {
      PreviewPointsNullHead(cs);
    } else {
      PreviewPointsHead(cs);
      WeightedPointsHead(cs);
    }
  }

  lemma PreviewPointsHead(cs: seq<TranscriptCourse>)
    requires cs != [] && GradePoint(cs[0].grade).Points?
    ensures PreviewPoints(cs) == Plus(PreviewPoints(cs[1..]), Weight(cs[0]))
  {
  }

  lemma PreviewPointsNullHead(cs: seq<TranscriptCourse>)
    requires cs != [] && GradePoint(cs[0].grade).NullMark?
    ensures PreviewPoints(cs) == PreviewPoints(cs[1..]) && GpaCourses(cs) == GpaCourses(cs[1..])
  {
  }

  /** A list whose first course is completed and has points: its weight is added to the
      rest's. */
  lemma WeightedPointsHead(cs: seq<TranscriptCourse>)
    requires cs != [] && GradePoint(cs[0].grade).Points?
    ensures cs[0].completed ==>
              WeightedPoints(GpaCourses(cs)) == Weight(cs[0]) + WeightedPoints(GpaCourses(cs[1..]))
  {
    if cs[0].completed {
      var rest := GpaCourses(cs[1..]);
      assert CountsForGpa(cs[0]);
      assert GpaCourses(cs) == [cs[0]] + rest;
      assert ([cs[0]] + rest)[1..] == rest;
    }
  }

  /** `calculateSemesterGPA(courses, semester, academicYear)`: "N/A" when no completed course
      of that semester exists or their counted credits are not positive, "NaN" when one of them
      has a grade the table does not know, and otherwise points over credits of the courses
      whose grade is not mapped to null. */
  function SemesterGPA(cs: seq<TranscriptCourse>, semester: string, year: string): (r: SemesterGpa)
    ensures r.NotApplicable? <==>
              SemesterCourses(cs, semester, year) == []
              || SumCredits(GpaCourses(SemesterCourses(cs, semester, year))) <= 0.0
    ensures r.GpaNaN? <==>
              SumCredits(GpaCourses(SemesterCourses(cs, semester, year))) > 0.0
              && HasMissingGrade(SemesterCourses(cs, semester, year))
    ensures r.Gpa? ==>
              r.value == WeightedPoints(GpaCourses(SemesterCourses(cs, semester, year)))
                         / SumCredits(GpaCourses(SemesterCourses(cs, semester, year)))
  {
    var sc := SemesterCourses(cs, semester, year);
    if |sc| == 0 then NotApplicable
    else
      var credits := GpaCredits(sc);
      var points := PreviewPoints(sc);
      if credits > 0.0 then
        match points
        case Real(p) =>
          PreviewPointsMatchReducer(sc);
          Gpa(p / credits)
        case NotANumber => GpaNaN
      else NotApplicable
  }

  /** When every completed course of the semester has a grade the table knows, the preview's
      semester average is what the form's reducer computes from those courses alone. */
  lemma SemesterGpaMatchesReducer(d: TranscriptData, cs: seq<TranscriptCourse>, semester: string, year: string)
    requires SemesterCourses(cs, semester, year) != []
    requires !HasMissingGrade(SemesterCourses(cs, semester, year))
    ensures SemesterGPA(cs, semester, year)
            == match CoursesChange(d, SemesterCourses(cs, semester, year)).currentGpa
               case ZeroGpa => NotApplicable
               case Ratio(v) => Gpa(v)
  {
  }

  /** The preview and the reducer disagree on a completed course whose grade the table does
      not know: the reducer counts it as 0 points, the preview prints NaN. */
  lemma UnknownGradeDisagreement(d: TranscriptData, c: TranscriptCourse)
    requires c.completed && !GradeKey(c.grade) && c.credits > 0.0
    ensures SemesterGPA([c], c.semester, c.academicYear) == GpaNaN
    ensures CoursesChange(d, [c]).currentGpa == Ratio(0.0)
  {
    var sc := SemesterCourses([c], c.semester, c.academicYear);
    assert sc == [c];
    assert GpaCourses([c]) == [c];
    assert HasMissingGrade([c]);
  }

  // ---------------------------------------------------------------------------
  // Headings.

  /** `{ semester, academicYear }`. */
  datatype Combo = Combo(semester: string, academicYear: string)

  function ComboOf(c: TranscriptCourse): Combo
  {
    Combo(c.semester, c.academicYear)
  }

  predicate NoDuplicates<T(==)>(s: seq<T>)
  {
    forall i, j :: 0 <= i < j < |s| ==> s[i] != s[j]
  }

  /** The `forEach` that pushes a course's pair unless `combinations.some(...)` finds it:
      `acc` is what has been pushed so far. */
  function Distinct(acc: seq<Combo>, cs: seq<TranscriptCourse>): (r: seq<Combo>)
    requires NoDuplicates(acc)
    ensures NoDuplicates(r)
    ensures |acc| <= |r| && r[..|acc|] == acc
    ensures forall c :: c in cs ==> ComboOf(c) in r
    ensures forall x :: x in r ==> x in acc || exists c :: c in cs && ComboOf(c) == x
    decreases |cs|
  {
    if cs == [] then acc
    else
      var x := ComboOf(cs[0]);
      var acc' := if x in acc then acc else acc + [x];
      var r := Distinct(acc', cs[1..]);
      assert cs == [cs[0]] + cs[1..];
      assert r[..|acc|] == acc' [..|acc|] == acc;
      assert x in r by {
        assert x in acc';
        assert acc' == r[..|acc'|];
      }
      r
  }

  function ComboKey(x: Combo): SortKey
  {
    SortKey(x.academicYear, SemesterRank(x.semester))
  }

  /** `getSemesterYearCombinations(courses)`: each course's pair once, sorted by academic year
      and then semester rank; pairs of equal rank keep the order in which they first
      appeared. */
  function Combinations(cs: seq<TranscriptCourse>): (r: seq<Combo>)
    ensures NoDuplicates(r)
    ensures forall c :: c in cs ==> ComboOf(c) in r
    ensures forall x :: x in r ==> exists c :: c in cs && ComboOf(c) == x
    ensures Sorted(r, ComboKey)
    ensures forall k :: WithKey(r, ComboKey, k) == WithKey(Distinct([], cs), ComboKey, k)
  {
    var pairs := Distinct([], cs);
    var r := Sort(pairs, ComboKey);
    SortCorrect(pairs, ComboKey);
    forall x ensures x in r <==> x in pairs {
      assert x in r <==> x in multiset(r);
      assert x in pairs <==> x in multiset(pairs);
    }
    forall i, j | 0 <= i < j < |r| ensures r[i] != r[j] {
      PermutationKeepsDistinct(pairs, r, i, j);
    }
    r
  }

  /** In a permutation of a sequence without repetitions, two positions hold different
      elements. */
  lemma PermutationKeepsDistinct<T>(s: seq<T>, r: seq<T>, i: int, j: int)
    requires NoDuplicates(s) && multiset(r) == multiset(s)
    requires 0 <= i < j < |r|
    ensures r[i] != r[j]
  {
    if r[i] == r[j] {
      TwoPositions(r, i, j);
      AtMostOnce(s, r[i]);
    }
  }

  lemma TwoPositions<T>(r: seq<T>, i: int, j: int)
    requires 0 <= i < j < |r| && r[i] == r[j]
    ensures multiset(r)[r[i]] >= 2
  {
    assert r == r[..i] + [r[i]] + r[i + 1..j] + [r[j]] + r[j + 1..];
  }

  lemma {:induction false} AtMostOnce<T>(s: seq<T>, x: T)
    requires NoDuplicates(s)
    ensures multiset(s)[x] <= 1
  {
    if s != [] {
      assert s == [s[0]] + s[1..];
      assert NoDuplicates(s[1..]) by {
        forall i, j | 0 <= i < j < |s[1..]| ensures s[1..][i] != s[1..][j] {
          assert s[1..][i] == s[i + 1] && s[1..][j] == s[j + 1];
        }
      }
      AtMostOnce(s[1..], x);
      if s[0] == x {
        assert forall m :: 0 <= m < |s[1..]| ==> s[1..][m] == s[m + 1];
        assert x !in s[1..];
      }
    }
  }

  // ---------------------------------------------------------------------------
  // Course tables.

  /** The rows under one heading: `courses.filter(c => c.semester === combo.semester &&
      c.academicYear === combo.academicYear)`, completed or not. */
  function Table(cs: seq<TranscriptCourse>, x: Combo): (r: seq<TranscriptCourse>)
    ensures forall c :: c in r <==> c in cs && ComboOf(c) == x
    ensures forall c :: multiset(r)[c] == if ComboOf(c) == x then multiset(cs)[c] else 0
    ensures |r| <= |cs|
  {
    if cs == [] then []
    else
      var rest := Table(cs[1..], x);
      assert cs == [cs[0]] + cs[1..];
      assert multiset(cs) == multiset{cs[0]} + multiset(cs[1..]);
      (if ComboOf(cs[0]) == x then [cs[0]] else []) + rest
  }

  /** The table is the source's `filter` with the heading's pair as the test: the same courses
      in the same order. */
  lemma {:induction false} TableIsFilter(cs: seq<TranscriptCourse>, x: Combo)
    ensures Table(cs, x) == Lists.Filter(cs, c => ComboOf(c) == x)
  {
    if cs != [] {
      TableIsFilter(cs[1..], x);
    }
  }

  /** Every course is listed under exactly one heading: the one of its own pair. */
  lemma EachCourseInOneTable(cs: seq<TranscriptCourse>, c: TranscriptCourse)
    requires c in cs
    ensures exists j :: 0 <= j < |Combinations(cs)| && c in Table(cs, Combinations(cs)[j])
    ensures forall j, k ::
              (0 <= j < |Combinations(cs)| && 0 <= k < |Combinations(cs)|
               && c in Table(cs, Combinations(cs)[j]) && c in Table(cs, Combinations(cs)[k])) ==> j == k
  {
    var r := Combinations(cs);
    var j :| 0 <= j < |r| && r[j] == ComboOf(c);
    assert c in Table(cs, r[j]);
  }

  // ---------------------------------------------------------------------------
  // Grade point cell.

  /** What `getGradePoint(grade)` renders: "N/A", the point, or nothing because
      `undefined.toFixed(1)` throws for a grade the table does not know. */
  datatype GradeCell = NotApplicableCell | Shown(p: real) | Throws

  function GradePointCell(grade: string): (r: GradeCell)
    ensures r.NotApplicableCell? <==> NonGpaGrade(grade)
    ensures r.Throws? <==> !GradeKey(grade)
    ensures r.Shown? ==> r.p == PointsOf(grade) && 0.0 <= r.p <= 4.0
  {
    match GradePoint(grade)
    case Points(p) => Shown(p)
    case NullMark => NotApplicableCell
    case Missing => Throws
  }
}
