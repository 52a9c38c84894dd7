/** Lookup tables, option lists and default records shared by the documents (lib/constants.ts).
    Values the source takes from the clock or from `Math.random` are parameters. */
module Constants {
  import opened Js
  import opened Types

  // ---------------------------------------------------------------------------
  // Grade points.

  /** What `GRADE_POINTS[grade]` yields: a number, the table's explicit `null`, or `undefined`
      for a grade that is not a key. */
  datatype GradeLookup = Points(p: real) | NullMark | Missing

  /** `GRADE_POINTS[g]`, read off the grade's letter and its '+' or '-' modifier: the table
      has A+, A, A-, B+, B, B-, C+, C, C-, D+, D and F with points, and P, NP, I, W and
      In Progress with null. */
  function GradePoint(g: string): (r: GradeLookup)
    ensures r.Points? ==> 0.0 <= r.p <= 4.0
  {
    if |g| == 1 then
      match g[0]
      case 'A' => Points(4.0)
      case 'B' => Points(3.0)
      case 'C' => Points(2.0)
      case 'D' => Points(1.0)
      case 'F' => Points(0.0)
      case 'P' => NullMark
      case 'I' => NullMark
      case 'W' => NullMark
      case _ => Missing
    else if |g| == 2 && g[1] == '+' then
      match g[0]
      case 'A' => Points(4.0)
      case 'B' => Points(3.3)
      case 'C' => Points(2.3)
      case 'D' => Points(1.3)
      case _ => Missing
    else if |g| == 2 && g[1] == '-' then
      match g[0]
      case 'A' => Points(3.7)
      case 'B' => Points(2.7)
      case 'C' => Points(1.7)
      case _ => Missing
    else if g == "NP" || g == "In Progress" then NullMark
    else Missing
  }

  /** Grades the table maps to `null`: they are never part of a grade point average. */
  predicate NonGpaGrade(g: string)
  {
    GradePoint(g).NullMark?
  }

  /** The keys of GRADE_POINTS. */
  predicate GradeKey(g: string)
  {
    !GradePoint(g).Missing?
  }

  /** The table entry by entry: exactly these seventeen strings are keys. */
  lemma GradePointTable(g: string)
    ensures NonGpaGrade(g) <==> g == "P" || g == "NP" || g == "I" || g == "W" || g == "In Progress"
    ensures GradeKey(g) <==>
              g == "A+" || g == "A" || g == "A-" || g == "B+" || g == "B" || g == "B-"
              || g == "C+" || g == "C" || g == "C-" || g == "D+" || g == "D" || g == "F"
              || NonGpaGrade(g)
    ensures g == "A+" || g == "A" ==> GradePoint(g) == Points(4.0)
    ensures g == "A-" ==> GradePoint(g) == Points(3.7)
    ensures g == "B+" ==> GradePoint(g) == Points(3.3)
    ensures g == "B" ==> GradePoint(g) == Points(3.0)
    ensures g == "B-" ==> GradePoint(g) == Points(2.7)
    ensures g == "C+" ==> GradePoint(g) == Points(2.3)
    ensures g == "C" ==> GradePoint(g) == Points(2.0)
    ensures g == "C-" ==> GradePoint(g) == Points(1.7)
    ensures g == "D+" ==> GradePoint(g) == Points(1.3)
    ensures g == "D" ==> GradePoint(g) == Points(1.0)
    ensures g == "F" ==> GradePoint(g) == Points(0.0)
  {
  }

  /** The grade select box, from A+ down to F, then the five grades without points. */
  function GradeOptions(): (opts: seq<Choice>)
    ensures |opts| == 17
    ensures forall k :: 0 <= k < 12 ==> opts[k].text == opts[k].value
    ensures opts[0].value == "A+" && opts[11].value == "F"
  {
    [ Choice("A+", "A+"), Choice("A", "A"), Choice("A-", "A-"),
      Choice("B+", "B+"), Choice("B", "B"), Choice("B-", "B-"),
      Choice("C+", "C+"), Choice("C", "C"), Choice("C-", "C-"),
      Choice("D+", "D+"), Choice("D", "D"), Choice("F", "F"),
      Choice("P (Pass)", "P"), Choice("NP (No Pass)", "NP"), Choice("I (Incomplete)", "I"),
      Choice("W (Withdrawal)", "W"), Choice("In Progress", "In Progress") ]
  }

  /** The lookup of each option of the grade select box, position by position. */
  function OptionLookups(): (ls: seq<GradeLookup>)
    ensures |ls| == 17
  {
    [ Points(4.0), Points(4.0), Points(3.7), Points(3.3), Points(3.0), Points(2.7), Points(2.3),
      Points(2.0), Points(1.7), Points(1.3), Points(1.0), Points(0.0),
      NullMark, NullMark, NullMark, NullMark, NullMark ]
  }

  /** Every grade offered by the select box is a key of the grade table: the first twelve
      carry points and the last five the table's null. */
  lemma GradeOptionsAreKeys()
    ensures forall k :: 0 <= k < 17 ==> GradeKey(GradeOptions()[k].value)
    ensures forall k :: 0 <= k < 12 ==> GradePoint(GradeOptions()[k].value).Points?
    ensures forall k :: 12 <= k < 17 ==> GradePoint(GradeOptions()[k].value).NullMark?
  {
    OptionLookupsAgree();
  }

  lemma OptionLookupsAgree()
    ensures forall k :: 0 <= k < 17 ==> GradePoint(GradeOptions()[k].value) == OptionLookups()[k]
  {
    var o := GradeOptions();
    forall k | 0 <= k < 17 ensures GradePoint(o[k].value) == OptionLookups()[k] {
      if k == 0 { assert o[0].value == "A+"; }
      else if k == 1 { assert o[1].value == "A"; }
      else if k == 2 { assert o[2].value == "A-"; }
      else if k == 3 { assert o[3].value == "B+"; }
      else if k == 4 { assert o[4].value == "B"; }
      else if k == 5 { assert o[5].value == "B-"; }
      else if k == 6 { assert o[6].value == "C+"; }
      else if k == 7 { assert o[7].value == "C"; }
      else if k == 8 { assert o[8].value == "C-"; }
      else if k == 9 { assert o[9].value == "D+"; }
      else if k == 10 { assert o[10].value == "D"; }
      else if k == 11 { assert o[11].value == "F"; }
      else if k == 12 { assert o[12].value == "P"; }
      else if k == 13 { assert o[13].value == "NP"; }
      else if k == 14 { assert o[14].value == "I"; }
      else if k == 15 { assert o[15].value == "W"; }
      else { assert o[16].value == "In Progress"; }
    }
  }

  /** Grade points never increase along the select box from A+ to F, so they are ordered
      for every pair of positions. */
  lemma GradePointsDescending()
    ensures forall i, j :: 0 <= i <= j < 12 ==>
              GradePoint(GradeOptions()[j].value).p <= GradePoint(GradeOptions()[i].value).p
  {
    OptionLookupsAgree();
    var ls := OptionLookups();
    assert forall k :: 0 <= k < 12 ==> ls[k].Points? && ls[k].p == [4.0, 4.0, 3.7, 3.3, 3.0, 2.7, 2.3, 2.0, 1.7, 1.3, 1.0, 0.0][k];
  }

  // ---------------------------------------------------------------------------
  // Program durations and option lists.

  /** `PROGRAM_DURATION[key]`, None when the key is absent. */
  function ProgramDuration(key: string): (r: Option<nat>)
    ensures r.Some? <==> key == "Bachelor" || key == "Master" || key == "PhD" || key == "default"
    ensures r.Some? ==> r.value == (if key == "Master" then 2 else 4)
  {
    match key
    case "Bachelor" => Some(4)
    case "Master" => Some(2)
    case "PhD" => Some(4)
    case "default" => Some(4)
    case _ => None
  }

  /** A select whose entries are labelled by their own values. */
  function SelfLabelled(vs: seq<string>): (opts: seq<Choice>)
    ensures |opts| == |vs|
    ensures forall k :: 0 <= k < |vs| ==> opts[k] == Choice(vs[k], vs[k])
    ensures Values(opts) == vs
  {
    var opts := seq(|vs|, k requires 0 <= k < |vs| => Choice(vs[k], vs[k]));
    assert Values(opts) == vs;
    opts
  }

  /** The weekday names in week order, Monday first. */
  function WeekDays(): seq<string>
  {
    ["Monday", "Tuesday", "Wednesday", "Thursday", "Friday", "Saturday", "Sunday"]
  }

  /** The weekday select: Monday to Sunday, labelled by their own names. */
  function DaysOfWeekOptions(): (opts: seq<Choice>)
    ensures |opts| == 7
    ensures forall k :: 0 <= k < 7 ==> opts[k].text == opts[k].value
    ensures Values(opts) == WeekDays()
  {
    SelfLabelled(WeekDays())
  }

  /** The export quality select, from the smallest file to the largest. */
  function ExportQualityOptions(): (opts: seq<Choice>)
    ensures Values(opts) == ["low", "medium", "high", "ultra"]
  {
    [ Choice("标准质量 (较小文件)", "low"), Choice("高清质量", "medium"),
      Choice("超高清 (推荐)", "high"), Choice("最高质量 (大文件)", "ultra") ]
  }

  function SemesterOptions(): (opts: seq<Choice>)
    ensures Values(opts) == ["Fall", "Spring", "Summer", "Winter"]
  {
    SelfLabelled(["Fall", "Spring", "Summer", "Winter"])
  }

  function CourseModeOptions(): (opts: seq<Choice>)
    ensures Values(opts) == ["In-Person", "Online", "Hybrid"]
  {
    SelfLabelled(["In-Person", "Online", "Hybrid"])
  }

  function CourseTypeOptions(): (opts: seq<Choice>)
    ensures Values(opts) == ["Lecture", "Seminar", "Lab", "Tutorial", "Workshop"]
  {
    SelfLabelled(["Lecture", "Seminar", "Lab", "Tutorial", "Workshop"])
  }

  // ---------------------------------------------------------------------------
  // Default courses.

  predicate DistinctIds(courses: seq<ScheduleCourse>)
  {
    forall i, j :: 0 <= i < j < |courses| ==> courses[i].id != courses[j].id
  }

  /** The four courses of the default schedule, with ids "1" to "4". */
  function DefaultScheduleCourses(): (cs: seq<ScheduleCourse>)
    ensures |cs| == 4 && DistinctIds(cs)
  {
    [ ScheduleCourse("1", "CS101", "Introduction to Computer Science", "Prof. John Smith", Real(3.0),
        "Science Building", "SCI", "101", "09:00", "10:30", ["Monday", "Wednesday"], "#3b82f6",
        "In-Person", "Lecture", "Bring your laptop to every class"),
      ScheduleCourse("2", "MATH201", "Calculus II", "Dr. Sarah Johnson", Real(4.0),
        "Mathematics Building", "MATH", "305", "11:00", "12:30", ["Tuesday", "Thursday"], "#10b981",
        "In-Person", "Lecture", ""),
      ScheduleCourse("3", "CS101L", "Intro to CS Lab", "TA Michael Brown", Real(1.0),
        "Computer Lab", "SCI", "B12", "14:00", "16:00", ["Friday"], "#3b82f6",
        "In-Person", "Lab", ""),
      ScheduleCourse("4", "ENG105", "Academic Writing", "Prof. Emily Davis", Real(3.0),
        "Online", "", "", "15:30", "17:00", ["Monday", "Wednesday"], "#ef4444",
        "Online", "Seminar", "Zoom link will be provided in the course portal") ]
  }

  /** The twelve courses of the default transcript, one semester at a time: eleven completed,
      one in progress. */
  function DefaultTranscriptCourses(): (cs: seq<TranscriptCourse>)
    ensures |cs| == 12
  {
    DefaultFall2022() + DefaultSpring2023() + DefaultFall2023() + [DefaultInProgress()]
  }

  function DefaultFall2022(): (cs: seq<TranscriptCourse>)
    ensures |cs| == 4
  {
    [ TranscriptCourse("1", "CS101", "Introduction to Computer Science", 3.0, "A", "Fall", "2022-2023", true),
      TranscriptCourse("2", "MATH201", "Calculus I", 4.0, "B+", "Fall", "2022-2023", true),
      TranscriptCourse("3", "ENG105", "Academic Writing", 3.0, "A-", "Fall", "2022-2023", true),
      TranscriptCourse("4", "PHYS101", "Physics for Scientists and Engineers", 4.0, "B", "Fall", "2022-2023", true) ]
  }

  function DefaultSpring2023(): (cs: seq<TranscriptCourse>)
    ensures |cs| == 4
  {
    [ TranscriptCourse("5", "CS102", "Data Structures and Algorithms", 3.0, "A", "Spring", "2022-2023", true),
      TranscriptCourse("6", "MATH202", "Calculus II", 4.0, "B+", "Spring", "2022-2023", true),
      TranscriptCourse("7", "CS201", "Computer Organization", 3.0, "A-", "Spring", "2022-2023", true),
      TranscriptCourse("8", "STAT201", "Statistics for Computer Science", 3.0, "B+", "Spring", "2022-2023", true) ]
  }

  function DefaultFall2023(): (cs: seq<TranscriptCourse>)
    ensures |cs| == 3
  {
    [ TranscriptCourse("9", "CS210", "Database Systems", 3.0, "A", "Fall", "2023-2024", true),
      TranscriptCourse("10", "CS220", "Software Engineering", 3.0, "A-", "Fall", "2023-2024", true),
      TranscriptCourse("11", "CS230", "Operating Systems", 3.0, "B+", "Fall", "2023-2024", true) ]
  }

  function DefaultInProgress(): TranscriptCourse
  {
    TranscriptCourse("12", "CS240", "Computer Networks", 3.0, "In Progress", "Spring", "2023-2024", false)
  }

  // ---------------------------------------------------------------------------
  // Default form records (the members other than course lists).  Long texts are written as
  // concatenations of shorter pieces; the strings are the same.

  /** DEFAULT_FORM_DATA of the ID card; `today`, `inFourYears`, `thisYear` and `cardNumber`
      come from the clock and the random generator. */
  function DefaultIdCardData(today: string, inFourYears: string, thisYear: string, cardNumber: string): Fields
  {
    map[
      "fullName" := Str("Emily Johnson"), "studentId" := Str("2023001001"),
      "faculty" := Str("School of Computer Science"), "universityName" := Str("International University"),
      "validityStart" := Str(today), "validityEnd" := Str(inFourYears),
      "enrollmentYear" := Str(thisYear), "programType" := Str("Bachelor"),
      "photo" := Str("/placeholder.svg?height=150&width=120"), "logo" := Str("/placeholder.svg?height=60&width=60"),
      "cardColor" := Str("#1e40af"), "textColor" := Str("#ffffff"),
      "backgroundImage" := Str("/placeholder.svg?height=90&width=140"), "backgroundOpacity" := Str("30"),
      "orientation" := Str("landscape"), "cardStyle" := Str("modern"), "codeType" := Str("barcode"),
      "cardNumber" := Str(cardNumber), "officialSignature" := Str("S. Davis"),
      "realisticEffect" := Bool(false), "pngQuality" := Str("high"),
      "enableWatermark" := Bool(true), "watermarkText" := Str("AUTHENTIC"),
      "watermarkColor" := Str("#000000"), "watermarkOpacity" := Int(3), "watermarkSize" := Str("14"),
      "watermarkAngle" := Str("-30"), "watermarkLineWidth" := Str("20"),
      "universityAddress" := Str("123 University Avenue, Boston, MA 02115"),
      "universityContact" := Str("(617) 555-1234"), "universityWebsite" := Str("www.university.edu"),
      "backEnabled" := Bool(true),
      "termsOfUse" := Str("This card must be carried while on campus. " +
          "Violation of university policies may " +
          "result in card revocation."),
      "termsText" := Str("Terms and Conditions"), "backTitle" := Str("Student ID Card Information"),
      "useCustomBack" := Bool(false), "backContent" := Str("Thank you for using our student ID system."),
      "emergencyContact" := Str("(617) 555-4321"),
      "accessList" := Str("Library, Cafeteria, Dormitory, Computer Labs, Gym"),
      "lostCardInfo" := Str("If found, please return to the University " +
          "Lost & Found Office or call the number " +
          "below."),
      "returnInfo" := Str(""), "backLogo" := Str("/placeholder.svg?height=60&width=60"),
      "backLogoOpacity" := Str("70")
    ]
  }

  /** DEFAULT_CERTIFICATE_DATA; `today` is the issue date taken from the clock. */
  function DefaultCertificateData(today: string): Fields
  {
    map[
      "universityName" := Str("International University"),
      "universityLogo" := Str("/placeholder.svg?height=80&width=80"),
      "fullName" := Str("Emily Johnson"), "studentId" := Str("2023001001"),
      "birthDate" := Str("1998-05-15"), "nationality" := Str("United States"),
      "faculty" := Str("School of Computer Science"), "major" := Str("Computer Science"),
      "degreeType" := Str("Bachelor"), "studyMode" := Str("Full-time"),
      "enrollmentDate" := Str("2023-09-01"), "expectedGraduationDate" := Str("2027-06-30"),
      "currentYear" := Str("First Year"), "studentPhoto" := Str(""),
      "certificateTitle" := Str("Certificate of Enrollment"),
      "certificateContent" := Str("This is to certify that the above-named " +
          "student is currently enrolled as a student " +
          "in good standing at International University. " +
          "The student is making satisfactory progress " +
          "towards their degree."),
      "issueDate" := Str(today), "validityPeriod" := Str("6 months"),
      "issuerTitle" := Str("Registrar"), "issuerSignature" := Str("Jane Smith"),
      "contactInfo" := Str("For verification of this certificate, " +
          "please contact the Office of the Registrar " +
          "at registrar@internationaluniversity.edu " +
          "or call +1 (617) 555-1234."),
      "paperColor" := Str("#ffffff"), "headerColor" := Str("#1e40af"), "textColor" := Str("#000000"),
      "fontFamily" := Str("Times New Roman, serif"),
      "enableWatermark" := Bool(false), "watermarkText" := Str("OFFICIAL DOCUMENT"),
      "watermarkOpacity" := Int(5), "watermarkColor" := Str("#000000"), "watermarkSize" := Str("14"),
      "watermarkAngle" := Str("-30"), "watermarkLineWidth" := Str("20"),
      "enableBorder" := Bool(true), "borderColor" := Str("#1e40af"), "borderStyle" := Str("solid"),
      "enablePattern" := Bool(true), "patternType" := Str("corner"), "patternColor" := Str("#1e40af"),
      "patternOpacity" := Int(15), "patternSize" := Str("30"), "patternPosition" := Str("all"),
      "pngQuality" := Str("high")
    ]
  }

  /** DEFAULT_SCHEDULE_DATA without its course list. */
  function DefaultScheduleFields(): Fields
  {
    map[
      "universityName" := Str("International University"),
      "universityLogo" := Str("/placeholder.svg?height=80&width=80"),
      "department" := Str("School of Computer Science"), "fullName" := Str("Emily Johnson"),
      "studentId" := Str("2023001001"), "major" := Str("Computer Science"), "term" := Str("Fall 2023"),
      "academicYear" := Str("2023-2024"), "scheduleTitle" := Str("Course Schedule"),
      "showWeekends" := Bool(false), "showInstructors" := Bool(true), "showLocations" := Bool(true),
      "showCourseType" := Bool(true), "showCredits" := Bool(true), "showNotes" := Bool(true),
      "startHour" := Int(8), "endHour" := Int(20), "hourFormat" := Str("12h"),
      "headerColor" := Str("#1e40af"), "tableHeaderColor" := Str("#e2e8f0"), "textColor" := Str("#000000"),
      "borderColor" := Str("#cbd5e1"), "paperColor" := Str("#ffffff"), "fontFamily" := Str("Arial, sans-serif"),
      "enableWatermark" := Bool(true), "watermarkText" := Str("OFFICIAL SCHEDULE"),
      "watermarkColor" := Str("#000000"), "watermarkOpacity" := Int(3), "watermarkSize" := Str("14"),
      "watermarkAngle" := Str("-30"), "pngQuality" := Str("high")
    ]
  }

  /** DEFAULT_ADMISSION_LETTER_DATA; `today` is the admission date taken from the clock. */
  function DefaultAdmissionLetterData(today: string): Fields
  {
    map[
      "universityName" := Str("International University"),
      "universityLogo" := Str("/placeholder.svg?height=80&width=80"),
      "universityAddress" := Str("123 University Avenue, Boston, MA 02115"),
      "universityContact" := Str("(617) 555-1234"), "universityWebsite" := Str("www.university.edu"),
      "studentName" := Str("Emily Johnson"), "studentId" := Str("2023001001"),
      "studentAddress" := Str("456 Student Street, Boston, MA 02116"),
      "studentEmail" := Str("emily.johnson@email.com"), "studentPhone" := Str("(617) 555-5678"),
      "programName" := Str("Computer Science"), "departmentName" := Str("School of Computer Science"),
      "degreeType" := Str("Bachelor"), "admissionDate" := Str(today),
      "programStartDate" := Str("2023-09-01"), "programDuration" := Str("4 years"),
      "scholarshipInfo" := Str("Merit Scholarship: $5,000 per year"),
      "letterTitle" := Str("Letter of Admission"),
      "letterContent" := Str("Dear Emily Johnson,\n\nWe are pleased " +
          "to inform you that you have been accepted " +
          "to the Computer Science program at International " +
          "University for the Fall 2023 semester. " +
          "Your academic achievements and personal " +
          "qualities have impressed our admissions " +
          "committee, and we believe you will make " +
          "valuable contributions to our university " +
          "community.\n\nYour admission is for " +
          "the Bachelor's degree program in Computer " +
          "Science, which is a 4-year program. " +
          "Classes will begin on September 1, 2023."),
      "congratulatoryMessage" := Str("Congratulations on your acceptance! " +
          "We look forward to welcoming you to " +
          "our campus and supporting your academic " +
          "journey."),
      "nextStepsInfo" := Str("To confirm your enrollment, please complete " +
          "the following steps:\n1. Submit your " +
          "enrollment confirmation by June 1, 2023\n2. " +
          "Pay the enrollment deposit of $500\n3. " +
          "Register for orientation (August 25-28, " +
          "2023)\n4. Complete housing application " +
          "(if applicable)\n\nAdditional information " +
          "regarding these steps will be sent to " +
          "your email."),
      "signatoryName" := Str("Dr. Robert Anderson"), "signatoryTitle" := Str("Dean of Admissions"),
      "signatorySignature" := Str(""), "officialStamp" := Str(""),
      "headerColor" := Str("#1e40af"), "textColor" := Str("#000000"), "accentColor" := Str("#4f46e5"),
      "paperColor" := Str("#ffffff"), "fontFamily" := Str("Times New Roman, serif"),
      "enableWatermark" := Bool(true), "watermarkText" := Str("OFFICIAL ADMISSION"),
      "watermarkColor" := Str("#000000"), "watermarkOpacity" := Int(3), "watermarkSize" := Str("14"),
      "watermarkAngle" := Str("-30"),
      "enableBorder" := Bool(true), "borderColor" := Str("#1e40af"), "borderStyle" := Str("solid"),
      "pngQuality" := Str("high")
    ]
  }

  /** DEFAULT_TRANSCRIPT_DATA without its course list and its three stored summary members;
      `today` is the issue date taken from the clock. */
  function DefaultTranscriptFields(today: string): Fields
  {
    map[
      "universityName" := Str("International University"),
      "universityLogo" := Str("/placeholder.svg?height=80&width=80"),
      "universityAddress" := Str("123 University Avenue, Boston, MA 02115"),
      "universityContact" := Str("(617) 555-1234"), "universityWebsite" := Str("www.university.edu"),
      "studentName" := Str("Emily Johnson"), "studentId" := Str("2023001001"),
      "programName" := Str("Computer Science"), "departmentName" := Str("School of Computer Science"),
      "degreeType" := Str("Bachelor"), "enrollmentDate" := Str("2022-09-01"),
      "expectedGraduationDate" := Str("2026-06-30"),
      "studentPhoto" := Str("/placeholder.svg?height=150&width=120"),
      "issueDate" := Str(today), "registrarName" := Str("Dr. Jane Smith"),
      "registrarTitle" := Str("University Registrar"), "registrarSignature" := Str(""),
      "headerColor" := Str("#1e40af"), "tableHeaderColor" := Str("#e2e8f0"), "textColor" := Str("#000000"),
      "accentColor" := Str("#4f46e5"), "paperColor" := Str("#ffffff"),
      "fontFamily" := Str("Times New Roman, serif"),
      "enableWatermark" := Bool(true), "watermarkText" := Str("OFFICIAL TRANSCRIPT"),
      "watermarkColor" := Str("#000000"), "watermarkOpacity" := Int(3), "watermarkSize" := Str("14"),
      "watermarkAngle" := Str("-30"),
      "enableBorder" := Bool(true), "borderColor" := Str("#1e40af"), "borderStyle" := Str("solid"),
      "showStudentPhoto" := Bool(true), "showGradePoints" := Bool(true), "showGradeScale" := Bool(true),
      "showSemesterGPA" := Bool(true), "pngQuality" := Str("high")
    ]
  }
}
