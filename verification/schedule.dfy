/** The course schedule's form state (hooks/useSchedule.ts), the course editor's working copy
    of one course (components/schedule/CourseEditor.tsx), and the generator's forwarding of
    primitive values to the input handler (components/schedule/ScheduleGenerator.tsx). */
module Schedule {
  import opened Js
  import opened Types
  import opened Forms
  import opened Lists

  /** The schedule form: its course list, and every other member by name. */
  datatype ScheduleData = ScheduleData(fields: Fields, courses: seq<ScheduleCourse>)

  /** The record, the errors the validation effect keeps, and the course being edited, if any
      (`editingCourse`, null when `None`). */
  datatype ScheduleState = ScheduleState(data: ScheduleData, errors: Errors, editing: Option<ScheduleCourse>)

  // ---------------------------------------------------------------------------
  // Validation.

  /** The three checks of the validation effect, in order. */
  function ScheduleRules(): seq<Rule>
  {
    [ Rule("fullName", "Student name is required"), Rule("studentId", "Student ID is required"),
      Rule("universityName", "University name is required") ]
  }

  /** The message each checked field reports. */
  function ScheduleMessage(k: string): Option<string>
  {
    if k == "fullName" then Some("Student name is required")
    else if k == "studentId" then Some("Student ID is required")
    else if k == "universityName" then Some("University name is required")
    else None
  }

  lemma ScheduleRuleFor(k: string)
    ensures RuleFor(ScheduleRules(), k) == ScheduleMessage(k)
  {
    var rs := ScheduleRules();
    assert rs[1..][1..][1..] == [];
  }

  /** The validation effect: an error for each of the three fields that is falsy, and no other. */
  function ScheduleErrors(f: Fields): (e: Errors)
    ensures forall k :: k in e <==> ScheduleMessage(k).Some? && !Truthy(Get(f, k))
    ensures forall k :: k in e ==> e[k] == ScheduleMessage(k).value
  {
    forall k ensures RuleFor(ScheduleRules(), k) == ScheduleMessage(k) {
      ScheduleRuleFor(k);
    }
    RequiredErrors(f, ScheduleRules())
  }

  /** The hook's invariant once its effect has run: the errors are those of the record. */
  predicate Consistent(st: ScheduleState)
  {
    st.errors == ScheduleErrors(st.data.fields)
  }

  /** A new record, followed by the effect that validates it; the course being edited stays. */
  function WithData(st: ScheduleState, data: ScheduleData): (r: ScheduleState)
    ensures r.data == data && r.editing == st.editing && Consistent(r)
  {
    ScheduleState(data, ScheduleErrors(data.fields), st.editing)
  }

  // ---------------------------------------------------------------------------
  // handleInputChange.

  /** `Number.parseInt(value, 10)` of the event's value: an integer, or NaN. */
  function NumberInput(value: Value): (v: Value)
    ensures v.Int? || v.NaN?
    ensures value.Int? ==> v == value
    ensures value.Str? && ParseInt(value.s, 10).Some? ==> v == Int(ParseInt(value.s, 10).value)
    ensures value.Str? && ParseInt(value.s, 10).None? ==> v.NaN?
  {
    if value.Int? then IntToStringRoundTrip(value.i, 10); Int(value.i)
    else match ParseInt(ValueToString(value), 10)
         case Some(n) => Int(n)
         case None => NaN
  }

  /** What `handleInputChange` stores for an event: `checked` for a checkbox (undefined when the
      event has none), the parsed integer for a number input, the raw value otherwise. */
  function StoredValue(ev: InputEvent): (v: Value)
    ensures ev.kind == "checkbox" && ev.checked.Some? ==> v == Bool(ev.checked.value)
    ensures ev.kind == "checkbox" && ev.checked.None? ==> v.Undefined?
    ensures ev.kind == "number" ==> v.Int? || v.NaN?
    ensures ev.kind != "checkbox" && ev.kind != "number" ==> v == ev.value
  {
    if ev.kind == "checkbox" then (if ev.checked.Some? then Bool(ev.checked.value) else Undefined)
    else if ev.kind == "number" then NumberInput(ev.value)
    else ev.value
  }

  /** `handleInputChange`: exactly one field changes, and the errors follow the new record. */
  function InputChange(st: ScheduleState, ev: InputEvent): (r: ScheduleState)
    ensures Consistent(r) && r.editing == st.editing && r.data.courses == st.data.courses
    ensures r.data.fields.Keys == st.data.fields.Keys + {ev.name}
    ensures r.data.fields[ev.name] == StoredValue(ev)
    ensures forall k :: k in st.data.fields && k != ev.name ==> r.data.fields[k] == st.data.fields[k]
  {
    WithData(st, st.data.(fields := SetField(st.data.fields, ev.name, StoredValue(ev))))
  }

  /** From a consistent state, an edit touches at most the error of the field it names: the
      others keep theirs, and the named one has an error exactly when it is checked and the
      stored value is falsy. */
  lemma InputChangeErrors(st: ScheduleState, ev: InputEvent)
    requires Consistent(st)
    ensures forall k :: k != ev.name ==> (k in InputChange(st, ev).errors <==> k in st.errors)
    ensures ev.name in InputChange(st, ev).errors <==> ScheduleMessage(ev.name).Some? && !Truthy(StoredValue(ev))
  {
    forall k ensures RuleFor(ScheduleRules(), k) == ScheduleMessage(k) {
      ScheduleRuleFor(k);
    }
    RequiredErrorsAfterSet(st.data.fields, ScheduleRules(), ev.name, StoredValue(ev));
  }

  // ---------------------------------------------------------------------------
  // The generator's primitive path.

  /** `typeof value` for the values a form field holds. */
  function TypeOf(v: Value): string
  {
    match v
    case Str(_) => "string"
    case Bool(_) => "boolean"
    case Int(_) => "number"
    case NaN => "number"
    case Undefined => "undefined"
  }

  /** The generator's `handleFormChange(name, value)` for a string, boolean or number: an event
      with `type: typeof value` and no `checked` member. */
  function GeneratorChange(st: ScheduleState, name: string, value: Value): (r: ScheduleState)
    requires !value.Undefined?
    ensures Consistent(r) && r.data.courses == st.data.courses
    ensures r.data.fields.Keys == st.data.fields.Keys + {name} && r.data.fields[name] == value
    ensures forall k :: k in st.data.fields && k != name ==> r.data.fields[k] == st.data.fields[k]
  {
    PrimitiveStoredAsIs(InputEvent(name, value, TypeOf(value), None));
    InputChange(st, InputEvent(name, value, TypeOf(value), None))
  }

  /** Every primitive the generator forwards is stored as it was sent: "boolean" is not
      "checkbox", so a switch keeps its boolean, and a number survives its `parseInt`. */
  lemma PrimitiveStoredAsIs(ev: InputEvent)
    requires !ev.value.Undefined? && ev.kind == TypeOf(ev.value) && ev.checked.None?
    ensures StoredValue(ev) == ev.value
  {
    TypeNamesDiffer();
    if ev.value.Int? || ev.value.NaN? {
      assert ev.kind == "number";
      NumberInputKeepsNumbers(ev.value);
    }
  }

  /** `parseInt(String(x), 10)` gives back an integer `x`, and NaN for NaN. */
  lemma NumberInputKeepsNumbers(v: Value)
    requires v.Int? || v.NaN?
    ensures NumberInput(v) == v
  {
    if v.NaN? {
      NaNNotParsed();
    }
  }

  /** "NaN" has no digit prefix. */
  lemma NaNNotParsed()
    ensures ParseInt("NaN", 10).None?
  {
    assert !IsSpace('N') && !IsDigit('N', 10);
    assert TrimStart("NaN") == "NaN";
    assert "NaN"[0] == 'N';
  }

  /** The type names `typeof` gives a string or a boolean are neither "checkbox" nor "number". */
  lemma TypeNamesDiffer()
    ensures "string" != "checkbox" && "string" != "number"
    ensures "boolean" != "checkbox" && "boolean" != "number"
    ensures "number" != "checkbox"
  {
    assert "string"[0] != "checkbox"[0] && "string"[0] != "number"[0];
    assert "boolean"[0] != "checkbox"[0] && "boolean"[0] != "number"[0];
    assert "number"[0] != "checkbox"[0];
  }

  // ---------------------------------------------------------------------------
  // Course list operations.

  function IdOf(c: ScheduleCourse): string
  {
    c.id
  }

  /** The course `addCourse` opens: no days and no times, 3 credits, blue, in person, a lecture;
      `id` stands for the fresh `uuidv4()`. */
  function BlankCourse(id: string): ScheduleCourse
  {
    ScheduleCourse(id, "", "", "", Real(3.0), "", "", "", "", "", [], "#3b82f6", "In-Person", "Lecture", "")
  }

  /** `addCourse()`: only the course being edited changes, to a blank one; the list does not. */
  function AddCourse(st: ScheduleState, id: string): (r: ScheduleState)
    ensures r.data == st.data && r.errors == st.errors
    ensures r.editing.Some? && r.editing.value.id == id && r.editing.value.days == []
    ensures r.editing.value.startTime == "" && r.editing.value.endTime == ""
    ensures r.editing.value.credits == Real(3.0)
  {
    st.(editing := Some(BlankCourse(id)))
  }

  /** The position `find` stops at: the first course with the id. */
  function FindIndex(s: seq<ScheduleCourse>, id: string): (r: Option<nat>)
    ensures r.Some? ==> r.value < |s| && s[r.value].id == id
    ensures r.Some? ==> forall j :: 0 <= j < r.value ==> s[j].id != id
    ensures r.None? <==> !HasId(s, IdOf, id)
  {
    if s == [] then None
    else if s[0].id == id then Some(0)
    else match FindIndex(s[1..], id)
         case None =>
           assert !HasId(s, IdOf, id) by {
             forall i | 0 <= i < |s| ensures IdOf(s[i]) != id {
               if i > 0 { assert s[i] == s[1..][i - 1]; }
             }
           }
           None
         case Some(i) =>
           assert s[i + 1] == s[1..][i];
           assert HasId(s, IdOf, id) by { assert IdOf(s[i + 1]) == id; }
           Some(i + 1)
  }

  /** `editCourse(id)`: a copy of the first course with the id becomes the one being edited;
      when there is none, nothing changes. */
  function EditCourse(st: ScheduleState, id: string): (r: ScheduleState)
    ensures r.data == st.data && r.errors == st.errors
    ensures !HasId(st.data.courses, IdOf, id) ==> r == st
    ensures HasId(st.data.courses, IdOf, id) ==> r.editing.Some? && r.editing.value in st.data.courses
                                                  && r.editing.value.id == id
  {
    match FindIndex(st.data.courses, id)
    case None => st
    case Some(i) => st.(editing := Some(st.data.courses[i]))
  }

  /** `saveCourse(course)`: replaces every course with the same id, or appends the course when
      none has it; then nothing is being edited. */
  function SaveCourse(st: ScheduleState, c: ScheduleCourse): (r: ScheduleState)
    ensures Consistent(r) && r.editing.None? && r.data.fields == st.data.fields
    ensures Consistent(st) ==> r.errors == st.errors
    ensures |r.data.courses| >= |st.data.courses|
    ensures HasId(st.data.courses, IdOf, c.id) ==> |r.data.courses| == |st.data.courses|
    ensures !HasId(st.data.courses, IdOf, c.id) ==> r.data.courses == st.data.courses + [c]
    ensures forall i :: 0 <= i < |st.data.courses| && st.data.courses[i].id != c.id ==>
              r.data.courses[i] == st.data.courses[i]
    ensures forall i :: 0 <= i < |r.data.courses| && r.data.courses[i].id == c.id ==> r.data.courses[i] == c
  {
    var courses := Upsert(st.data.courses, IdOf, c);
    assert !HasId(st.data.courses, IdOf, c.id) ==> courses == courses[..|st.data.courses|] + [c];
    ScheduleState(st.data.(courses := courses), ScheduleErrors(st.data.fields), None)
  }

  /** `cancelEditCourse()`: nothing is being edited, and nothing else changes. */
  function CancelEdit(st: ScheduleState): (r: ScheduleState)
    ensures r.editing.None? && r.data == st.data && r.errors == st.errors
  {
    st.(editing := None)
  }

  /** `deleteCourse(id)`: every course with the id goes, the others stay in their order. */
  function DeleteCourse(st: ScheduleState, id: string): (r: ScheduleState)
    ensures Consistent(r) && r.editing == st.editing && r.data.fields == st.data.fields
    ensures Consistent(st) ==> r.errors == st.errors
    ensures forall c :: c in r.data.courses <==> c in st.data.courses && c.id != id
  {
    var courses := RemoveById(st.data.courses, IdOf, id);
    forall c ensures c in courses <==> c in st.data.courses && c.id != id {
      assert c in courses <==> multiset(courses)[c] > 0;
      assert c in st.data.courses <==> multiset(st.data.courses)[c] > 0;
    }
    WithData(st, st.data.(courses := courses))
  }

  /** Deleting an id no course carries changes nothing. */
  lemma DeleteAbsent(st: ScheduleState, id: string)
    requires Consistent(st) && !HasId(st.data.courses, IdOf, id)
    ensures DeleteCourse(st, id) == st
  {
    RemoveAbsentId(st.data.courses, IdOf, id);
  }

  /** Saving a course and then deleting its id leaves what deleting the id alone leaves. */
  lemma DeleteAfterSave(st: ScheduleState, c: ScheduleCourse)
    ensures DeleteCourse(SaveCourse(st, c), c.id).data == DeleteCourse(st, c.id).data
  {
    RemoveAfterUpsert(st.data.courses, IdOf, c);
  }

  /** Saving the same course twice is saving it once. */
  lemma SaveIdempotent(st: ScheduleState, c: ScheduleCourse)
    ensures SaveCourse(SaveCourse(st, c), c) == SaveCourse(st, c)
  {
    UpsertIdempotent(st.data.courses, IdOf, c);
  }

  predicate DistinctIds(courses: seq<ScheduleCourse>)
  {
    forall i, j :: 0 <= i < j < |courses| ==> courses[i].id != courses[j].id
  }

  /** Opening a course for editing and saving the copy untouched gives back the same list,
      as long as ids are distinct. */
  lemma EditThenSaveUnchanged(st: ScheduleState, id: string)
    requires DistinctIds(st.data.courses) && HasId(st.data.courses, IdOf, id)
    ensures SaveCourse(st, EditCourse(st, id).editing.value).data == st.data
  {
    var s := st.data.courses;
    var c := EditCourse(st, id).editing.value;
    var r := SaveCourse(st, c).data.courses;
    assert |r| == |s|;
    forall i | 0 <= i < |s| ensures r[i] == s[i] {
      if s[i].id == c.id {
        var k :| 0 <= k < |s| && s[k] == c;
        assert i == k;
      }
    }
  }

  /** `resetForm()`: the defaults (`DEFAULT_SCHEDULE_DATA`) and no errors; the course being
      edited is left as it was. */
  function ResetForm(st: ScheduleState, defaults: ScheduleData): (r: ScheduleState)
    ensures r.data == defaults && r.errors == map[] && r.editing == st.editing
  {
    ScheduleState(defaults, map[], st.editing)
  }

  /** The reset state is consistent whenever the defaults pass validation. */
  lemma ResetConsistent(st: ScheduleState, defaults: ScheduleData)
    requires ScheduleErrors(defaults.fields) == map[]
    ensures Consistent(ResetForm(st, defaults))
  {
  }

  // ---------------------------------------------------------------------------
  // The course editor's working copy.

  function Self(d: string): string
  {
    d
  }

  /** `handleDayChange(day)`: an absent day is appended; a present one is removed, with every
      repetition of it. */
  function ToggleDay(days: seq<string>, day: string): (r: seq<string>)
    ensures day in r <==> day !in days
    ensures forall d :: d != day ==> (d in r <==> d in days)
    ensures day !in days ==> r == days + [day]
    ensures day in days ==> multiset(r) == multiset(days)[day := 0]
  {
    if day in days then
      var r := RemoveById(days, Self, day);
      forall d ensures d in r <==> d in days && d != day {
        assert d in r <==> multiset(r)[d] > 0;
        assert d in days <==> multiset(days)[d] > 0;
      }
      assert multiset(r) == multiset(days)[day := 0];
      r
    else days + [day]
  }

  /** Ticking an unticked day twice gives back the list exactly. */
  lemma ToggleTwiceAbsent(days: seq<string>, day: string)
    requires day !in days
    ensures ToggleDay(ToggleDay(days, day), day) == days
  {
    assert !HasId(days, Self, day) by {
      forall i | 0 <= i < |days| ensures Self(days[i]) != day {
        assert days[i] in days;
      }
    }
    RemoveAbsentId(days, Self, day);
    RemoveByIdAppend(days, [day], Self, day);
    assert RemoveById([day], Self, day) == [];
  }

  /** Unticking and ticking a day again moves it to the end of the list. */
  lemma ToggleTwicePresent(days: seq<string>, day: string)
    requires day in days
    ensures ToggleDay(ToggleDay(days, day), day) == RemoveById(days, Self, day) + [day]
  {
  }

  /** A member of a course the editor's `handleInputChange(field, value)` writes as text. */
  datatype CourseField = CourseCode | CourseName | Instructor | Location | Building | Room
                       | StartTime | EndTime | Mode | Kind | Color | Notes

  /** The text of a member. */
  function FieldText(c: ScheduleCourse, field: CourseField): string
  {
    match field
    case CourseCode => c.courseCode
    case CourseName => c.courseName
    case Instructor => c.instructor
    case Location => c.location
    case Building => c.building
    case Room => c.room
    case StartTime => c.startTime
    case EndTime => c.endTime
    case Mode => c.mode
    case Kind => c.kind
    case Color => c.color
    case Notes => c.notes
  }

  /** `handleInputChange(field, value)` for a text member: that member changes, and nothing else. */
  function SetText(c: ScheduleCourse, field: CourseField, s: string): (d: ScheduleCourse)
    ensures FieldText(d, field) == s
    ensures forall g :: g != field ==> FieldText(d, g) == FieldText(c, g)
    ensures d.id == c.id && d.credits == c.credits && d.days == c.days
  {
    match field
    case CourseCode => c.(courseCode := s)
    case CourseName => c.(courseName := s)
    case Instructor => c.(instructor := s)
    case Location => c.(location := s)
    case Building => c.(building := s)
    case Room => c.(room := s)
    case StartTime => c.(startTime := s)
    case EndTime => c.(endTime := s)
    case Mode => c.(mode := s)
    case Kind => c.(kind := s)
    case Color => c.(color := s)
    case Notes => c.(notes := s)
  }

  /** Writing a member's own text back is no change. */
  lemma SetOwnText(c: ScheduleCourse, field: CourseField)
    ensures SetText(c, field, FieldText(c, field)) == c
  {
  }

  /** The credits input: `handleInputChange("credits", Number(value))`. */
  function SetCredits(c: ScheduleCourse, s: string): (d: ScheduleCourse)
    ensures d.credits == ToNumber(s)
    ensures forall g :: FieldText(d, g) == FieldText(c, g)
    ensures d.id == c.id && d.days == c.days
  {
    WithCredits(c, ToNumber(s))
  }

  function WithCredits(c: ScheduleCourse, n: Number): (d: ScheduleCourse)
    ensures d.credits == n
    ensures forall g :: FieldText(d, g) == FieldText(c, g)
    ensures d.id == c.id && d.days == c.days
  {
    c.(credits := n)
  }

  /** The day checkboxes: `handleDayChange(day)` on the working copy. */
  function EditorToggleDay(c: ScheduleCourse, day: string): (d: ScheduleCourse)
    ensures day in d.days <==> day !in c.days
    ensures forall g :: FieldText(d, g) == FieldText(c, g)
    ensures d.id == c.id && d.credits == c.credits
  {
    c.(days := ToggleDay(c.days, day))
  }

  /** An edit session opened on a course and saved: the editor works on a copy and hands it to
      `saveCourse` as it is, so the saved list holds the edited course in place of the old one
      and the other courses unchanged. */
  lemma EditedCopyReplacesCourse(st: ScheduleState, i: int, field: CourseField, s: string)
    requires DistinctIds(st.data.courses) && 0 <= i < |st.data.courses|
    ensures var edited := SetText(EditCourse(st, st.data.courses[i].id).editing.value, field, s);
            var r := SaveCourse(st, edited).data.courses;
            |r| == |st.data.courses| && r[i] == edited && FieldText(r[i], field) == s
            && forall j :: 0 <= j < |r| && j != i ==> r[j] == st.data.courses[j]
  {
    var s0 := st.data.courses;
    assert HasId(s0, IdOf, s0[i].id) by { assert IdOf(s0[i]) == s0[i].id; }
    var c := EditCourse(st, s0[i].id).editing.value;
    var k :| 0 <= k < |s0| && s0[k] == c;
    assert k == i;
  }
}
