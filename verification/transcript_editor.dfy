/** The course list editor of the transcript (components/transcript/CourseGradeEditor.tsx):
    saving the dialog adds or replaces a course and re-sorts the list, deleting filters a
    course out, and the summary boxes under the table. */
module TranscriptEditor {
  import opened Js
  import opened Types
  import opened Sorting
  import opened Lists
  import opened Constants
  import opened Transcript

  /** The dialog's inputs. */
  datatype Draft = Draft(
    courseCode: string,
    courseName: string,
    credits: real,
    grade: string,
    semester: string,
    academicYear: string,
    completed: bool)

  function IdOf(c: TranscriptCourse): string
  {
    c.id
  }

  /** The comparator of the save: academic year, then the semester's rank. */
  function CourseKey(c: TranscriptCourse): SortKey
  {
    SortKey(c.academicYear, SemesterRank(c.semester))
  }

  /** `newCourse`: the draft under the edited course's id, or under `freshId` (the source's
      `Date.now().toString()`) when adding. */
  function NewCourse(editing: Option<TranscriptCourse>, draft: Draft, freshId: string): (c: TranscriptCourse)
    ensures c.id == if editing.Some? then editing.value.id else freshId
    ensures c.courseCode == draft.courseCode && c.courseName == draft.courseName
            && c.credits == draft.credits && c.grade == draft.grade && c.semester == draft.semester
            && c.academicYear == draft.academicYear && c.completed == draft.completed
  {
    TranscriptCourse(if editing.Some? then editing.value.id else freshId, draft.courseCode,
                     draft.courseName, draft.credits, draft.grade, draft.semester,
                     draft.academicYear, draft.completed)
  }

  /** `updatedCourses` before the sort: every course with the edited id replaced, or the new
      course appended. */
  function Updated(courses: seq<TranscriptCourse>, editing: Option<TranscriptCourse>, c: TranscriptCourse)
    : seq<TranscriptCourse>
  {
    if editing.Some? then ReplaceById(courses, IdOf, editing.value.id, c) else courses + [c]
  }

  /** `handleSaveCourse()`: the list handed to `onChange`.  It is the updated list sorted by
      academic year and semester; the sort keeps every course as often as it occurs and keeps
      courses of the same semester in their order. */
  function SaveCourse(courses: seq<TranscriptCourse>, editing: Option<TranscriptCourse>, draft: Draft,
                      freshId: string): (r: seq<TranscriptCourse>)
    ensures |r| == |courses| + (if editing.Some? then 0 else 1)
    ensures Sorted(r, CourseKey)
    ensures multiset(r) == multiset(Updated(courses, editing, NewCourse(editing, draft, freshId)))
    ensures forall k :: WithKey(r, CourseKey, k)
                        == WithKey(Updated(courses, editing, NewCourse(editing, draft, freshId)), CourseKey, k)
  {
    var updated := Updated(courses, editing, NewCourse(editing, draft, freshId));
    SortCorrect(updated, CourseKey);
    Sort(updated, CourseKey)
  }

  /** Saving an edit replaces exactly the courses that carry the edited id: each of them
      becomes the new course and every other course is still in the list. */
  lemma SaveEditReplaces(courses: seq<TranscriptCourse>, e: TranscriptCourse, draft: Draft, freshId: string)
    ensures forall c :: c in SaveCourse(courses, Some(e), draft, freshId) && c.id == e.id ==>
              c == NewCourse(Some(e), draft, freshId)
    ensures forall c :: c in courses && c.id != e.id ==> c in SaveCourse(courses, Some(e), draft, freshId)
  {
    var n := NewCourse(Some(e), draft, freshId);
    var u := ReplaceById(courses, IdOf, e.id, n);
    var r := SaveCourse(courses, Some(e), draft, freshId);
    forall c | c in r && c.id == e.id ensures c == n {
      assert c in multiset(u);
      var i :| 0 <= i < |u| && u[i] == c;
    }
    forall c | c in courses && c.id != e.id ensures c in r {
      var i :| 0 <= i < |courses| && courses[i] == c;
      assert u[i] == c;
      assert c in multiset(u);
    }
  }

  /** Adding puts the new course, under the fresh id, into the list and keeps every old
      course. */
  lemma SaveAddAppends(courses: seq<TranscriptCourse>, draft: Draft, freshId: string)
    ensures NewCourse(None, draft, freshId) in SaveCourse(courses, None, draft, freshId)
    ensures NewCourse(None, draft, freshId).id == freshId
    ensures multiset(SaveCourse(courses, None, draft, freshId))
            == multiset(courses) + multiset{NewCourse(None, draft, freshId)}
  {
    var n := NewCourse(None, draft, freshId);
    assert n in multiset(courses + [n]);
  }

  /** `handleDeleteCourse(id)`: the courses without that id, in their order. */
  function DeleteCourse(courses: seq<TranscriptCourse>, id: string): (r: seq<TranscriptCourse>)
    ensures forall i :: 0 <= i < |r| ==> r[i].id != id
    ensures forall c :: multiset(r)[c] == if c.id == id then 0 else multiset(courses)[c]
  {
    RemoveById(courses, IdOf, id)
  }

  /** Saving an edit and then deleting the edited id leaves the same courses as deleting it
      straight away (in sorted order). */
  lemma DeleteAfterSaveEdit(courses: seq<TranscriptCourse>, e: TranscriptCourse, draft: Draft, freshId: string)
    ensures multiset(DeleteCourse(SaveCourse(courses, Some(e), draft, freshId), e.id))
            == multiset(DeleteCourse(courses, e.id))
  {
    var n := NewCourse(Some(e), draft, freshId);
    RemoveAfterReplace(courses, IdOf, e.id, n);
    RemovePermutation(SaveCourse(courses, Some(e), draft, freshId), ReplaceById(courses, IdOf, e.id, n),
                      IdOf, e.id);
  }

  /** The summary boxes of the editor: fixed numbers, not computed from the list. */
  datatype Summary = Summary(totalCredits: int, completedCredits: int, currentGpa: real)

  function EditorSummary(courses: seq<TranscriptCourse>): (s: Summary)
    ensures s.totalCredits == 120 && s.completedCredits == 60 && s.currentGpa == 3.5
  {
    Summary(120, 60, 3.5)
  }

  /** The boxes show the same numbers whatever the list, and for the default courses they
      disagree with the form's reducer, which computes 39 credits. */
  lemma EditorSummaryIgnoresCourses(a: seq<TranscriptCourse>, b: seq<TranscriptCourse>, d: TranscriptData)
    ensures EditorSummary(a) == EditorSummary(b)
    ensures EditorSummary(DefaultTranscriptCourses()).totalCredits as real
            != CoursesChange(d, DefaultTranscriptCourses()).totalCredits
  {
    DefaultCoursesSummary(d);
  }
}
