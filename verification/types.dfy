/** The course records of the transcript and schedule documents and a selectable option. */
module Types {
  import opened Js

  /** A graded course on a transcript.  Credits are exact reals (the editor reads them
      with `parseFloat`). */
  datatype TranscriptCourse = TranscriptCourse(
    id: string,
    courseCode: string,
    courseName: string,
    credits: real,
    grade: string,
    semester: string,
    academicYear: string,
    completed: bool)

  /** A weekly course on a schedule.  `kind` is the record's `type` member; credits hold the
      result of `Number(...)` on the editor's input. */
  datatype ScheduleCourse = ScheduleCourse(
    id: string,
    courseCode: string,
    courseName: string,
    instructor: string,
    credits: Number,
    location: string,
    building: string,
    room: string,
    startTime: string,
    endTime: string,
    days: seq<string>,
    color: string,
    mode: string,
    kind: string,
    notes: string)

  /** An entry of a select box. */
  datatype Choice = Choice(text: string, value: string)

  function Values(options: seq<Choice>): (vs: seq<string>)
    ensures |vs| == |options|
    ensures forall k :: 0 <= k < |options| ==> vs[k] == options[k].value
  {
    if options == [] then [] else [options[0].value] + Values(options[1..])
  }
}
