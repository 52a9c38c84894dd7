# Academic document generator: the logic under the forms

The system is a browser tool that builds mock academic documents: a student ID card, a
transcript, a course schedule, an enrollment certificate and an admission letter. Each document
has a form whose state lives in a React hook, a preview rendered from that state, and a download
button that rasterises the preview into a PNG. Under the UI sits a layer of small, pure,
sequential functions. This project models that layer in Dafny and proves properties of it:

- **Transcript aggregation** (`Transcript`, `TranscriptPreview`, `TranscriptEditor`, `Sorting`).
  This covers:
  - the grade-point table;
  - the course-list reducer that recomputes total credits, completed credits and the GPA;
  - per-semester GPA;
  - the de-duplicated and sorted (semester, year) groups;
  - the course editor's upsert, delete and stable sort.

  Grade points and credits are exact reals.
- **Schedule logic** (`Schedule`, `ScheduleView`, `ScheduleInfo`). This covers:
  - course upsert and delete by id;
  - the day toggle of the course editor;
  - the 12-hour time format and the weekend filter;
  - the weekly grid's placement rule and the compact list;
  - the info form's badges, day names and location line.
- **Form reducers and validators** (`Forms`, `IdCard`, `Certificate`, `Admission`, `Utils`).
  This covers:
  - the per-hook input dispatch (checkbox, number or text);
  - the per-document required-field validators;
  - the ID card's validity-end derivation from the enrollment year and the program type.
- **Watermarks and patterns** (`Utils`, `CardStyles`, `CertificateDesign`,
  `CertificatePreview`, `Admission`). This covers:
  - `#rrggbb` to rgba parsing;
  - the front/back background opacity;
  - the `LINE_DISABLED` marker, which carries two switches in one text field;
  - the tile grids of the certificate and the letter;
  - the corner, border and badge pattern selection.
- **Export decisions** (`Export`). Each download handler is a trace of effects:
  - inject the fix style, scroll, wait, capture, download, remove the style, alert.

  The capture is a boolean oracle that either succeeds or fails. The model covers each handler's
  quality-to-scale ladder, its file name and its validation gate.

`Js` defines once the JavaScript semantics the code relies on:
- `trim`;
- `indexOf`/`includes`;
- `replace` of the first occurrence and of every `/\s+/` run;
- `split`/`join`;
- `parseInt` with prefix semantics in base 10 and 16;
- `Number` of a string;
- the truncating `%`;
- truthiness under `||`;
- template-literal stringification.

Form records are maps from field name to a `Value`: a string, a boolean, an integer, NaN or
undefined. The hooks merge fields by name (`{...prev, [name]: value}`), so a map is the shape
of the data. `Constants` holds the tables and default records of lib/constants.ts.

The model follows the code as written. One example: the export handlers remove their temporary
export style as the last statement of the `try` block (components/transcript/TranscriptGenerator.tsx:91-92).
A failed capture therefore leaves the style in place. A `finally` clause is evidently intended (see
Findings).

## Model

| member | source | states |
|---|---|---|
| Utils.CalculateExpiryYear | lib/utils.ts:10-12 | the expiry year is the enrollment year plus the program's duration: 2 for "Master", 4 for any other program type (the table's default) |
| Utils.HexByte | lib/utils.ts:21-23 | two hexadecimal digits denote a byte, between 0 and 255 |
| Utils.ChannelOfPair | lib/utils.ts:21-23 | `parseInt` in base 16 of a two-character slice of hexadecimal digits is the byte those digits denote |
| Utils.HexToRgba | lib/utils.ts:20-25 | an omitted alpha is 1, a given one is kept; for a well-formed `#rrggbb` colour each channel is the byte of its digit pair |
| Utils.HexToRgbaNonHexRed | lib/utils.ts:21 | a colour whose second character is not a hex digit, sign or space has a NaN red channel |
| Utils.HexToRgbaDigitPrefix | lib/utils.ts:21 | when only the first character of the red pair is a hex digit, red is that digit's value: `parseInt` stops at the first non-digit |
| Utils.HexToRgbaZeroX | lib/utils.ts:21 | a red pair "0x" is NaN: base-16 `parseInt` strips the prefix and finds no digit |
| Utils.WatermarkColor | lib/utils.ts:28-30 | the channels are those of the colour; the alpha is `Number(opacity)` / 100, so n / 100 for the decimal string of an integer n, and NaN when the opacity is not a number |
| Utils.FormatValidityDate | lib/utils.ts:33-36 | the length is kept; a date without '-' is unchanged; otherwise only the first '-' becomes '/' and every other character stays |
| Utils.BackgroundImageStyle | lib/utils.ts:39-50 | no style exactly when there is no image; otherwise the url, cover, center, and the opacity `Number(opacity)` over 200 on the back and over 100 on the front, NaN when the opacity is not a number |
| Utils.BackgroundBackIsHalfFront | lib/utils.ts:42 | for any opacity string, the back's opacity is half the front's |
| Utils.IdCardRuleFor | lib/utils.ts:67-70 | the rule list of the four required checks gives each required field its message and no other field a rule |
| Utils.ValidateFormData | lib/utils.ts:63-82 | a key has an error exactly when it is a falsy required field, or it is validityEnd and both dates are present, parse, and start after end; each error has its message |
| CardStyles.GetCardStyleConfig | lib/cardStyles.ts:4-104 | landscape configurations and only they have the left/right columns, back columns and no info container or footers; only the classic portrait has a back info section; omitted arguments give the modern portrait |
| CardStyles.CardStyleConfigDefaults | lib/cardStyles.ts:102-104 | an omitted style is "modern" and an omitted orientation is "portrait", whatever the other argument |
| CardStyles.RealisticCardStyles | lib/cardStyles.ts:107-145 | the magnetic stripe and the hologram exist exactly for the landscape orientation; the hologram's opacity is 0.7; the texture covers the card |
| CardStyles.RealisticCommonPartsAgree | lib/cardStyles.ts:107-145 | apart from the stripe and the hologram, both orientations get the same styles |
| CardStyles.GetWatermarkStyles | lib/cardStyles.ts:148-165 | the stripes run at -45deg, transparent up to the line width and coloured from there to the band end; background and text share one overlay colour; the text has the computed size and rotates by the angle with 2px spacing at full width |
| CardStyles.ValueToNumberOfInteger | lib/cardStyles.ts:154-161 | `Number` of an integer form value, or of its decimal string, is that integer |
| CardStyles.WatermarkAlpha | lib/cardStyles.ts:154-158 | an opacity that converts to the number v gives the overlay colour the alpha v / 100; with ValueToNumberOfInteger, an integer opacity n gives n / 100 |
| CardStyles.WatermarkBandWidth | lib/cardStyles.ts:155 | a line width that converts to the number v ends the coloured band at 2v px |
| CardStyles.WatermarkFontSize | lib/cardStyles.ts:161 | a size that converts to the number v gives a font size of v * 0.8 + 1.5 rem |
| Constants.GradePoint | lib/constants.ts:651-669 | a grade's points, where the table has a number, lie between 0 and 4 |
| Constants.GradePointTable | lib/constants.ts:651-669 | exactly seventeen strings are keys; P, NP, I, W and "In Progress" map to null; each letter grade has its number, A+ and A both 4.0 |
| Constants.GradeOptions | lib/constants.ts:672-690 | seventeen options from A+ to F and then the five grades without points; the twelve letter grades are labelled by their own value |
| Constants.GradeOptionsAreKeys | lib/constants.ts:651-690 | every grade offered by the select is a key of the table: the first twelve have points, the last five are null |
| Constants.OptionLookupsAgree | lib/constants.ts:651-690 | the table lookup of each option, position by position, is the expected points or null |
| Constants.GradePointsDescending | lib/constants.ts:651-690 | points never increase along the select from A+ to F, for every pair of positions |
| Constants.ProgramDuration | lib/constants.ts:105-110 | the keys are Bachelor, Master, PhD and default; Master lasts 2 years and the others 4 |
| Constants.SelfLabelled | lib/constants.ts:233-257 | an option list whose labels are its values keeps the values in order |
| Constants.DaysOfWeekOptions | lib/constants.ts:233-241 | seven options, Monday to Sunday, each labelled by its value |
| Constants.ExportQualityOptions | lib/constants.ts:24-29 | the qualities offered, from the smallest file to the largest: low, medium, high, ultra |
| Constants.SemesterOptions | lib/constants.ts:693-698 | the semesters in the order Fall, Spring, Summer, Winter |
| Constants.CourseModeOptions | lib/constants.ts:244-248 | the modes In-Person, Online, Hybrid |
| Constants.CourseTypeOptions | lib/constants.ts:251-257 | the types Lecture, Seminar, Lab, Tutorial, Workshop |
| Constants.DefaultScheduleCourses | lib/constants.ts:280-349 | four default courses whose ids are pairwise distinct |
| Constants.DefaultTranscriptCourses | lib/constants.ts:465-586 | twelve default courses: four of Fall 2022, four of Spring 2023, three of Fall 2023 and one in progress |
| Js.Get | lib/utils.ts:67-70 | reading an absent property gives `undefined`, a present one its value |
| Js.OrElse | components/schedule/ScheduleInfoForm.tsx:311 | `a \|\| d` on strings: a non-empty string is kept, the empty one falls back |
| Js.ValueOr | components/admission-letter/AdmissionLetterGenerator.tsx:61 | a falsy value falls back to the default, a non-empty string is kept |
| Js.Trim | components/certificate/CertificatePreview.tsx:25 | `trim()` gives the infix of the string with no whitespace at either end and only whitespace before and after it |
| Js.TrimUnique | components/certificate/CertificatePreview.tsx:25 | any infix without edge whitespace and with only whitespace around it is the trimmed text |
| Js.TrimTrailingBlank | components/certificate/CertificateDesignForm.tsx:160 | appending a blank does not change the trimmed text |
| Js.IndexOf | components/schedule/CourseEditor.tsx:34 | `indexOf` finds the first occurrence, and -1 exactly when there is none |
| Js.Includes | components/certificate/CertificatePreview.tsx:18 | `includes` holds exactly when the pattern occurs somewhere |
| Js.ReplaceFirst | lib/utils.ts:35 | `replace` with a string pattern changes nothing when the pattern is absent, and otherwise replaces only the first occurrence |
| Js.ReplaceFirstChar | lib/utils.ts:35 | replacing the first occurrence of one character by another keeps the length and every other position |
| Js.ReplaceWhitespaceRuns | components/admission-letter/AdmissionLetterGenerator.tsx:61 | `replace(/\s+/g, rep)` leaves a string without whitespace unchanged and, when `rep` has none, leaves no whitespace |
| Js.Slice | lib/utils.ts:21-23 | `slice(i, j)` is the substring when the bounds are in order and in range, empty when they cross or start past the end |
| Js.Split | components/schedule/SchedulePreview.tsx:96 | `split` gives at least one part and no part contains the separator |
| Js.JoinSplit | components/schedule/SchedulePreview.tsx:96 | joining the parts of a split with the same separator gives the string back |
| Js.ParseInt | lib/utils.ts:21 | `parseInt` with a radix outside 2..36 is NaN |
| Js.IntOr | components/certificate/CertificatePreview.tsx:57 | `parseInt(x) \|\| d` keeps a non-zero number and falls back on NaN and 0 |
| Js.NatToString | hooks/useIDCard.ts:84 | the decimal string of a natural number is a non-empty run of digits without a leading zero |
| Js.IntToString | hooks/useIDCard.ts:84 | the decimal string of an integer is non-empty and has no whitespace at either end |
| Js.NatToStringValue | hooks/useIDCard.ts:84 | the digits of a natural number's decimal string denote that number |
| Js.IntToStringRoundTrip | hooks/useIDCard.ts:78-84 | `parseInt` in radix 10, or with no radix, reads back the decimal string of any integer |
| Js.IntToStringPrefixRoundTrip | hooks/useIDCard.ts:84 | `parseInt` reads back an integer's string followed by text that starts with neither a letter nor a digit, such as "-06" |
| Js.HexPairValue | lib/utils.ts:21-23 | `parseInt` of two hexadecimal digits in base 16 succeeds with their digit value, at most 255 |
| Js.ToNumber | lib/utils.ts:29 | `Number` of a blank string is 0, and of a string starting with anything but whitespace, a decimal digit, a sign or a dot is NaN |
| Js.ToNumberOfIntToString | lib/utils.ts:29 | `Number` reads back the decimal string of any integer |
| Js.SplitAt | components/schedule/SchedulePreview.tsx:180-181 | `split` cuts the string at its first separator and splits the rest |
| Js.ValueToNumber | lib/cardStyles.ts:154 | `Number` of a stored integer is that integer, of NaN or undefined is NaN |
| Js.DivBy | lib/utils.ts:29 | division by a non-zero constant is NaN exactly when the dividend is, and otherwise multiplies back |
| Js.JsRem | components/certificate/CertificatePreview.tsx:70 | `%` takes the sign of the dividend, is smaller in magnitude than the divisor, and is the remainder of some quotient |
| Js.JsRemOfNegativeOdd | components/certificate/CertificatePreview.tsx:70 | an odd negative row gives `row % 2 == -1`, where the Euclidean remainder is 1 |
| Types.Values | lib/constants.ts:233-257 | the values of an option list, position by position |
| Forms.SetField | hooks/useCertificate.ts:22-25 | `{...prev, [name]: v}` adds the name to the keys, stores the value there, and keeps every other field |
| Forms.ClearError | hooks/useAdmissionLetter.ts:39-46 | a field's error is dropped when its message is truthy; an empty message stays; no other error changes |
| Forms.RuleFor | lib/utils.ts:67-70 | a field has no rule exactly when no check names it |
| Forms.RequiredErrors | lib/utils.ts:67-70 | a key has an error exactly when a check names it and its value is falsy, with that check's message |
| Forms.UniformRules | hooks/useAdmissionLetter.ts:77-83 | one check per listed field, in order, all with the same message |
| Forms.UniformRuleFor | hooks/useAdmissionLetter.ts:77-83 | a field has a rule among uniform checks exactly when it is listed, and then the common message |
| Forms.UniformErrors | hooks/useAdmissionLetter.ts:77-83 | a field is reported exactly when it is listed and falsy, always with the common message |
| Forms.UniformErrorsAfterSet | hooks/useAdmissionLetter.ts:34-37 | merging one field leaves every other field's error as it was; the merged field is reported exactly when listed and its new value is falsy |
| Forms.RequiredErrorsAfterSet | hooks/useCertificate.ts:17-25 | after one field changes, every other field keeps its error, and the changed field has one exactly when it has a rule and the new value is falsy |
| Forms.ClearedErrorsAfterSet | hooks/useAdmissionLetter.ts:33-46 | clearing the edited field from the last validation's errors leaves a subset of the new record's errors, and exactly them when the new value is truthy |
| Lists.ReplaceById | hooks/useSchedule.ts:103 | `map` by id keeps the length, replaces every element with the id, and keeps the others |
| Lists.RemoveById | hooks/useSchedule.ts:119 | `filter` by id keeps no element with the id and every other element as often as it occurs |
| Lists.Filter | components/schedule/SchedulePreview.tsx:164-200 | `filter` keeps exactly the elements that pass, and never grows the list |
| Lists.FilterAll | components/schedule/SchedulePreview.tsx:164-200 | filtering a list whose elements all pass gives it back whole |
| Lists.FilterAppend | components/schedule/SchedulePreview.tsx:164-200 | filtering distributes over concatenation, so order is kept |
| Lists.RemoveByIdAppend | hooks/useSchedule.ts:119 | removal by id keeps the survivors in their order: it distributes over concatenation |
| Lists.RemovePermutation | hooks/useSchedule.ts:119 | removal by id of two permutations of a list gives permutations of each other |
| Lists.RemoveAbsentId | hooks/useSchedule.ts:116-121 | deleting an id no element carries changes nothing |
| Lists.RemoveAfterReplace | components/transcript/CourseGradeEditor.tsx:74-105 | replacing with a record of the same id does not change what removing that id leaves |
| Lists.Upsert | hooks/useSchedule.ts:92-105 | a record whose id is present replaces each element with that id and keeps the length; a new id is appended at the end; other elements are kept |
| Lists.UpsertIdempotent | hooks/useSchedule.ts:92-105 | saving the same record twice is the same as saving it once |
| Lists.RemoveAfterUpsert | hooks/useSchedule.ts:92-121 | saving then deleting a record's id leaves what deleting that id alone leaves |
| Sorting.LexLessIrreflexive | components/transcript/TranscriptPreview.tsx:72 | no academic year compares before itself |
| Sorting.LexLessTransitive | components/transcript/TranscriptPreview.tsx:72 | the code-point comparison of academic years is transitive |
| Sorting.LexLessTotal | components/transcript/TranscriptPreview.tsx:72 | two different academic years compare one way or the other |
| Sorting.LexLessAsymmetric | components/transcript/TranscriptPreview.tsx:72 | a year before another is not also after it |
| Sorting.LexLessMeans | components/transcript/TranscriptPreview.tsx:72 | one string sorts before another exactly when it is a proper prefix of it or, at the first position where they differ, has the smaller character |
| Sorting.KeyOrder | components/transcript/TranscriptPreview.tsx:70-81 | the comparator (academic year, then semester rank) is a strict total order on keys |
| Sorting.SemesterRank | components/transcript/TranscriptPreview.tsx:76-80 | `semesterOrder[s] \|\| 0` lies between 0 and 3 |
| Sorting.SemesterOrder | components/transcript/TranscriptPreview.tsx:76-80 | Fall before Spring before Summer before Winter, and an unknown semester ranks with Fall |
| Sorting.WithKey | components/transcript/CourseGradeEditor.tsx:83-94 | the elements with one key, in order, are no more than the whole list |
| Sorting.WithKeyAppend | components/transcript/CourseGradeEditor.tsx:83-94 | selecting one key distributes over concatenation |
| Sorting.Insert | components/transcript/CourseGradeEditor.tsx:83-94 | inserting adds exactly the one element |
| Sorting.AllAbove | components/transcript/CourseGradeEditor.tsx:83-94 | in a sorted list starting above a key, every element lies above it |
| Sorting.InsertSorted | components/transcript/CourseGradeEditor.tsx:83-94 | insertion into a sorted list keeps it sorted |
| Sorting.InsertWithKey | components/transcript/CourseGradeEditor.tsx:83-94 | an inserted element goes after the elements that share its key |
| Sorting.NoneWithKey | components/transcript/CourseGradeEditor.tsx:83-94 | a list all of whose elements lie above a key has none with that key |
| Sorting.Sort | components/transcript/CourseGradeEditor.tsx:83-94 | sorting keeps the length |
| Sorting.SortCorrect | components/transcript/CourseGradeEditor.tsx:83-94 | the sort orders by the comparator, is a permutation, and is stable: the elements of each key keep their relative order |
| Certificate.ValidateCertificateData | hooks/useCertificate.ts:110-126 | "必填项" for every falsy field of the ten required ones, and no other error |
| Certificate.ChangeField | hooks/useCertificate.ts:17-30 | both change handlers merge one field, keep the others, and leave the errors those of the new record |
| Certificate.ChangeFieldErrors | hooks/useCertificate.ts:17-30 | a change touches only the named field's error, which exists exactly when the field is required and the value falsy |
| Certificate.ResetForm | hooks/useCertificate.ts:45-48 | the reset record is the default one and the errors are empty |
| Certificate.ResetConsistent | hooks/useCertificate.ts:17-48 | the cleared errors agree with the validation exactly when the defaults pass it |
| Admission.LetterErrors | hooks/useAdmissionLetter.ts:73-83 | "此字段为必填项" for each falsy field of the five required ones, and no other error |
| Admission.InputChange | hooks/useAdmissionLetter.ts:20-47 | a checkbox stores `checked` and keeps the errors; any other input stores its value and drops that field's truthy error; other fields are kept |
| Admission.TextEditErrors | hooks/useAdmissionLetter.ts:33-46 | after a validation, a text edit never reports an error the new record lacks, and reports exactly its errors when the value is truthy |
| Admission.EmptyingDropsError | hooks/useAdmissionLetter.ts:39-46 | emptying a required field that has an error drops the error although the field is now invalid |
| Admission.ValidateForm | hooks/useAdmissionLetter.ts:73-87 | the errors become the record's, and the result is true exactly when every required field is truthy |
| Admission.Submit | components/admission-letter/AdmissionLetterGenerator.tsx:29-34 | submitting validates, and switches to the preview tab exactly when the form is complete |
| Admission.SubmitIdempotent | components/admission-letter/AdmissionLetterGenerator.tsx:29-34 | submitting twice changes nothing the second time |
| Admission.FieldChange | components/admission-letter/AdmissionLetterGenerator.tsx:37-42 | one field merged, others kept, errors untouched |
| Admission.ResetForm | hooks/useAdmissionLetter.ts:67-70 | the default record and no errors |
| Admission.DownloadQuality | components/admission-letter/AdmissionLetterPreview.tsx:21-25 | the quality handed to the download is never empty, and is "high" when none is chosen |
| Admission.QualityChange | components/admission-letter/AdmissionLetterPreview.tsx:28-30 | choosing a quality does not change the errors |
| Admission.ChosenQualityIsDownloaded | components/admission-letter/AdmissionLetterPreview.tsx:21-30 | the download uses the quality last chosen, or "high" when the choice was empty |
| Admission.FormatDateString | components/admission-letter/AdmissionLetterPreview.tsx:33-36 | an empty date stays empty; any other goes to the date formatter |
| Admission.WatermarkTiles | components/admission-letter/AdmissionLetterPreview.tsx:39-87 | no tiles unless the watermark is enabled with text; then 10 × 10 tiles sharing the angle and opacity / 100 |
| Admission.TileAt | components/admission-letter/AdmissionLetterPreview.tsx:63-71 | the tile of row i and column j is pushed as the (10 i + j)-th and sits at 10 i % from the top and 10 j % from the left |
| Admission.TilesDistinct | components/admission-letter/AdmissionLetterPreview.tsx:63-71 | no two tiles share a position |
| Admission.BorderStyle | components/admission-letter/AdmissionLetterPreview.tsx:113-118 | the padding is always 2rem; a border, starting "2px ", exists exactly when borders are enabled |
| IdCard.ValidityEnd | hooks/useIDCard.ts:80-84 | `${expiryYear}-06` reads back, under `parseInt`, as the expiry year |
| IdCard.Validated | hooks/useIDCard.ts:30-32 | the effect leaves the record as it is and its errors those of the record |
| IdCard.MergeDeriving | hooks/useIDCard.ts:81-85 | the named field takes its value unless the derived field overwrites it; the derived field takes the derived value when there is one; every other field is kept |
| IdCard.DerivedKeyDiffers | hooks/useIDCard.ts:77-102 | neither enrollmentYear nor programType is the derived key validityEnd |
| IdCard.InputRecord | hooks/useIDCard.ts:72-88 | the input is stored; an enrollment year that parses sets validityEnd to the June of its expiry year for the stored program type; otherwise validityEnd is kept |
| IdCard.InputChange | hooks/useIDCard.ts:30-88 | the input handler followed by the effect: the new record, with errors consistent with it |
| IdCard.SelectRecord | hooks/useIDCard.ts:91-106 | the value is stored; a string program type with a parsable stored enrollment year sets validityEnd for the new type; otherwise validityEnd is kept |
| IdCard.SelectChange | hooks/useIDCard.ts:30-106 | the select handler followed by the effect: the new record, with errors consistent with it |
| IdCard.EnrollmentYearSetsExpiry | hooks/useIDCard.ts:77-85 | after a parsable enrollment year, validityEnd starts with that year plus 2 for a master's program and 4 otherwise |
| IdCard.ProgramTypeSelectSetsExpiry | hooks/useIDCard.ts:95-104 | the select path derives validityEnd again from the new program type |
| IdCard.ProgramTypeInputKeepsExpiry | hooks/useIDCard.ts:72-88 | the input path never derives validityEnd for a program type change |
| IdCard.PageFormChange | app/page.tsx:41-43 | the page routes every edit through the input handler, so a program type change keeps validityEnd |
| IdCard.PageKeepsStaleExpiry | app/page.tsx:41-43 | on the page, choosing a master's program after enrolling in 2024 keeps the end year 2028, where the select path would give 2026 |
| IdCard.PageFormChangeIntended | app/page.tsx:41-43 | the page handler with program types routed through the select handler: the validity end then follows a new enrollment year and a new program type, two years for a master's program and four otherwise |
| IdCard.ResetForm | hooks/useIDCard.ts:121-124 | the default record and no errors |
| IdCard.ResetConsistent | hooks/useIDCard.ts:30-124 | the reset state is consistent whenever the defaults pass validation |
| CertificateDesign.Visible | components/certificate/CertificateDesignForm.tsx:269 | the words shown have no edge whitespace, and are the trimmed text when it carries no marker |
| CertificateDesign.MarkerShape | components/certificate/CertificateDesignForm.tsx:153 | "LINE_DISABLED" is thirteen characters with no whitespace, and occurs in itself at 0 |
| CertificateDesign.MarkerOnlyIsTrim | components/certificate/CertificateDesignForm.tsx:245 | `/^\s*LINE_DISABLED\s*$/` matches exactly the texts whose trim is the marker |
| CertificateDesign.TrimKeepsOccurrence | components/certificate/CertificateDesignForm.tsx:159-160 | trimming keeps every occurrence of a word without edge whitespace, such as the marker |
| CertificateDesign.TrimKeepsAbsence | components/certificate/CertificateDesignForm.tsx:159-160 | trimming never introduces the marker |
| CertificateDesign.StripAppendedMarker | components/certificate/CertificateDesignForm.tsx:159-160 | removing the first marker of a text with the marker appended leaves the text and the blank |
| CertificateDesign.AppendedMarkerDisables | components/certificate/CertificateDesignForm.tsx:160 | switching the line off always leaves a text that carries the marker |
| CertificateDesign.NotMarkerOnly | components/certificate/CertificateDesignForm.tsx:245 | a text whose trim is not the marker is not matched by the marker-only pattern |
| CertificateDesign.MarkedWordTrim | components/certificate/CertificateDesignForm.tsx:253 | a word, a blank and the marker is its own trim and is not the marker alone |
| CertificateDesign.MarkedWordIsText | components/certificate/CertificateDesignForm.tsx:245-253 | a word followed by the marker turns the text switch on and the line off |
| CertificateDesign.PlainWordIsText | components/certificate/CertificateDesignForm.tsx:245-253 | a word without the marker turns the text switch on |
| CertificateDesign.DefaultTextShape | components/certificate/CertificateDesignForm.tsx:252 | "OFFICIAL DOCUMENT" is non-empty, has no edge whitespace and no marker |
| CertificateDesign.ToggleLine | components/certificate/CertificateDesignForm.tsx:154-162 | switching off always marks the text and turns the line off; switching on a marker-free text trims it |
| CertificateDesign.UnmarkAppended | components/certificate/CertificateDesignForm.tsx:159-269 | the marker appended to a marker-free text is marked, and the words shown are the trimmed text |
| CertificateDesign.OffOfBlank | components/certificate/CertificateDesignForm.tsx:160 | switching the line off on a blank text leaves the marker alone |
| CertificateDesign.OffOfWords | components/certificate/CertificateDesignForm.tsx:160 | switching the line off on a text with words keeps the text from its first word, then a blank and the marker |
| CertificateDesign.VisibleOfMarker | components/certificate/CertificateDesignForm.tsx:269 | the marker alone shows no words |
| CertificateDesign.LineOffOn | components/certificate/CertificateDesignForm.tsx:154-162 | switching the line off and on again gives back the trimmed text |
| CertificateDesign.SecondMarkerStays | components/certificate/CertificateDesignForm.tsx:159 | switching the line on removes only the first marker: with a second one the line stays off |
| CertificateDesign.ToggleText | components/certificate/CertificateDesignForm.tsx:246-257 | the text switch keeps the line state, turns the text on exactly when checked, and shows the previous words or "OFFICIAL DOCUMENT" |
| CertificateDesign.TextWords | components/certificate/CertificateDesignForm.tsx:251-252 | the words the text switch turns on with are non-empty, without edge whitespace, and without the marker when the text had none |
| CertificateDesign.MarkedWords | components/certificate/CertificateDesignForm.tsx:249-253 | switching the text on over a marked text keeps the marker, turns the text on and shows the words |
| CertificateDesign.PlainWords | components/certificate/CertificateDesignForm.tsx:249-253 | switching the text on over an unmarked text gives the words alone, shown as they are |
| CertificateDesign.TextOnMarked | components/certificate/CertificateDesignForm.tsx:253 | the words, a blank and the marker: marked, text on, and showing the words |
| CertificateDesign.TextOnPlain | components/certificate/CertificateDesignForm.tsx:253 | the words alone: text on, showing the words |
| CertificateDesign.TextOff | components/certificate/CertificateDesignForm.tsx:255 | switching the text off leaves the marker alone (marked, no text) or "" (neither) |
| CertificateDesign.EditText | components/certificate/CertificateDesignForm.tsx:270-276 | typing keeps the line state and shows the trimmed typed words, when they carry no marker |
| CertificatePreview.ShowText | components/certificate/CertificatePreview.tsx:21-22 | the text watermark shows exactly when the watermark is enabled, the text is non-empty and it does not trim to the marker |
| CertificatePreview.ShowLine | components/certificate/CertificatePreview.tsx:18 | the line watermark needs the flag, never shows for a text that is only the marker, and over a non-empty text comes with the text watermark |
| CertificatePreview.Content | components/certificate/CertificatePreview.tsx:25 | the tile words have no edge whitespace, and are the trimmed text when it carries no marker |
| CertificatePreview.SwitchedOnShows | components/certificate/CertificateDesignForm.tsx:246-253 | turning the text switch on makes the preview show the text watermark, with the previous words or "OFFICIAL DOCUMENT" |
| CertificatePreview.LineSwitchShows | components/certificate/CertificateDesignForm.tsx:154-162 | turning the line switch off hides the line watermark; turning it on over a marker-free text shows it when the watermark is enabled |
| CertificatePreview.FontSize | components/certificate/CertificatePreview.tsx:57 | `parseInt(size) \|\| 14`: a non-zero parsed size is kept, NaN and 0 give 14 |
| CertificatePreview.RowSpacing | components/certificate/CertificatePreview.tsx:65 | `Math.max(40, density / 2)` is at least 40, and half the density from a density of 80 on |
| CertificatePreview.TileAngle | components/certificate/CertificatePreview.tsx:60 | a non-zero parsed angle is kept, NaN and 0 give -30 |
| CertificatePreview.LineAngle | components/certificate/CertificatePreview.tsx:31 | the line angle is the angle string, or "-30" when it is empty |
| CertificatePreview.ZeroAngle | components/certificate/CertificatePreview.tsx:31-60 | an angle of "0" draws the lines at 0 degrees but turns the tiles to -30 |
| CertificatePreview.TileOpacity | components/certificate/CertificatePreview.tsx:59 | the tile opacity is three times the slider's percentage |
| CertificatePreview.TileShift | components/certificate/CertificatePreview.tsx:70-71 | even rows start at col × density; odd rows are shifted half a step right for positive rows and left for negative ones, because `%` keeps the dividend's sign; the top is row × row spacing |
| CertificatePreview.TileGrid | components/certificate/CertificatePreview.tsx:68-97 | the grid has 35 rows of 17 tiles |
| CertificatePreview.GridIndex | components/certificate/CertificatePreview.tsx:68-69 | the push index of (row, col) gives back row and col |
| CertificatePreview.TileGridCovers | components/certificate/CertificatePreview.tsx:68-97 | every position of rows -5..29 and columns -2..14 carries exactly one tile, at index (row + 5) × 17 + (col + 2) |
| CertificatePreview.PushTile | components/certificate/CertificatePreview.tsx:73-95 | pushing the tile of (row, col) at its own index extends the grid prefix |
| CertificatePreview.TextTiles | components/certificate/CertificatePreview.tsx:54-100 | no tiles when the text watermark is hidden; otherwise the whole grid of 595 tiles, in push order |
| CertificatePreview.GridTiles | components/certificate/CertificatePreview.tsx:67-100 | the two nested loops, rows -5 to 29 and columns -2 to 14, push exactly the reference grid of 595 tiles in row order |
| CertificatePreview.BorderFrame | components/certificate/CertificatePreview.tsx:103-108 | a frame exactly when borders are enabled: "1px style colour" with 16px padding |
| CertificatePreview.PatternOf | components/certificate/CertificatePreview.tsx:111-250 | nothing without patterns; otherwise the shape of the pattern type; corners per position; stripes only for "all"; a badge of twice the size; opacity / 100; the pattern colour or the header colour |
| CertificatePreview.SideCornersDrawNothing | components/certificate/CertificatePreview.tsx:125-190 | the positions "left" and "right", which the form offers, draw no corner at all |
| CertificatePreview.CornerPairs | components/certificate/CertificatePreview.tsx:125-190 | "all" and "corners" draw all four brackets; "top" and "bottom" draw two |
| CertificatePreview.LineStripes | components/certificate/CertificatePreview.tsx:28-42 | the line gradient uses the line angle, a transparent band of the line width (10 when empty), a coloured band ending at twice that width (20 by default), and alpha `watermarkOpacity / 100` |
| CertificatePreview.StripesFollowHex | components/certificate/CertificatePreview.tsx:34-40 | on a well-formed `#rrggbb` colour the stripe channels are those `hexToRgba` reads |
| CertificatePreview.ShortColorIsBlack | components/certificate/CertificatePreview.tsx:34-36 | a colour without channel digits falls back to "00" and draws black stripes, where `hexToRgba` would read NaN |
| Transcript.SumCreditsAppend | hooks/useTranscript.ts:60 | the credit sum of `reduce` distributes over concatenation |
| Transcript.CompletedCourses | hooks/useTranscript.ts:61-62 | the completed filter keeps only completed courses and never grows the list |
| Transcript.GpaCourses | hooks/useTranscript.ts:69-70 | every course entering the average is completed and has a grade the table does not map to null |
| Transcript.PointsOf | hooks/useTranscript.ts:71 | `GRADE_POINTS[grade] \|\| 0` lies between 0 and 4, and is 0 for a grade the table lacks |
| Transcript.GpaCredits | hooks/useTranscript.ts:66-75 | the loop's credit total is the credit sum of the courses entering the average |
| Transcript.GpaPoints | hooks/useTranscript.ts:66-75 | the loop's point total is the weighted points of the courses entering the average |
| Transcript.CoursesChange | hooks/useTranscript.ts:57-87 | the new list is stored with its total credits over all courses, its completed credits, and a GPA that is "0.00" exactly when no credit counts and the ratio of points to credits otherwise; other fields are kept |
| Transcript.CompletedAtMostTotal | hooks/useTranscript.ts:60-63 | with no negative credits, the completed credits lie between 0 and the total |
| Transcript.NonGpaCourseIgnored | hooks/useTranscript.ts:70 | a course not completed, or graded P, NP, I, W or "In Progress", changes neither GPA total |
| Transcript.MissingGradeCountsAsZero | hooks/useTranscript.ts:70-73 | a completed course with a grade the table lacks adds its credits but no points |
| Transcript.GpaCoursesAppend | hooks/useTranscript.ts:69-75 | selecting the courses of the average distributes over concatenation |
| Transcript.WeightedPointsAppend | hooks/useTranscript.ts:72 | weighted points distribute over concatenation |
| Transcript.CoursesChangeIdempotent | hooks/useTranscript.ts:57-87 | applying the course reducer twice with the same list is applying it once |
| Transcript.DefaultFall2022Totals | lib/constants.ts:466-505 | the four default Fall 2022 courses all count, for 14 credits and 48.3 weighted points |
| Transcript.DefaultSpring2023Totals | lib/constants.ts:506-545 | the four default Spring 2023 courses all count, for 13 credits and 46.2 weighted points |
| Transcript.DefaultFall2023Totals | lib/constants.ts:546-575 | the three default Fall 2023 courses all count, for 9 credits and 33 weighted points |
| Transcript.CompletedCoursesAppend | hooks/useTranscript.ts:61-62 | the completed filter distributes over concatenation |
| Transcript.TotalsOfParts | hooks/useTranscript.ts:60-75 | for fully counted parts and one course in progress, the totals are the sums of the parts' totals |
| Transcript.SummaryOfParts | hooks/useTranscript.ts:57-87 | the reducer's summary of such a list is made of its parts' totals |
| Transcript.DefaultCoursesSummary | lib/constants.ts:465-586 | the reducer computes 39 credits, 36 completed and a GPA of 127.5 / 36 from the default courses |
| Transcript.DefaultSummaryIsStale | lib/constants.ts:609-611 | the stored default summary (36, 33, "3.75") is not what the reducer computes from the default courses |
| Transcript.InputChange | hooks/useTranscript.ts:17-37 | a checkbox stores `checked`, anything else its value; other fields, the list and the summary are kept; only that field's truthy error is dropped |
| Transcript.FormChange | components/transcript/TranscriptGenerator.tsx:27-37 | the generator sends booleans as checkbox events without `checked`, so they are stored as undefined; other values are stored |
| Transcript.BooleanToggleIsFalsy | components/transcript/TranscriptGenerator.tsx:27-37 | after any boolean toggle through the generator, the field is falsy |
| Transcript.SetFieldValue | hooks/useTranscript.ts:96-101 | the value is merged as it is, the rest of the record and the errors are kept |
| Transcript.FieldRoutesAgree | hooks/useTranscript.ts:96-101 | the generator route and `setFieldValue` agree on every value but a boolean, where only `setFieldValue` stores a switch turned on |
| Transcript.ResetForm | hooks/useTranscript.ts:90-93 | the initial data and no errors |
| TranscriptEditor.NewCourse | components/transcript/CourseGradeEditor.tsx:61-70 | the draft's members under the edited course's id, or under the fresh id when adding |
| TranscriptEditor.SaveCourse | components/transcript/CourseGradeEditor.tsx:60-99 | one course more when adding and as many when editing; sorted by year and semester; a permutation of the updated list; stable within each key |
| TranscriptEditor.SaveEditReplaces | components/transcript/CourseGradeEditor.tsx:74-76 | after an edit, every course with the edited id is the new course, and every other course stays |
| TranscriptEditor.SaveAddAppends | components/transcript/CourseGradeEditor.tsx:77-80 | adding puts the new course, under the fresh id, into the list and keeps every old course |
| TranscriptEditor.DeleteCourse | components/transcript/CourseGradeEditor.tsx:102-105 | no course with the id remains and every other course stays as often as it was |
| TranscriptEditor.DeleteAfterSaveEdit | components/transcript/CourseGradeEditor.tsx:60-105 | saving an edit then deleting its id leaves the same courses as deleting the id alone |
| TranscriptEditor.EditorSummary | components/transcript/CourseGradeEditor.tsx:110-114 | the editor's boxes show 120 credits, 60 completed and a GPA of 3.5 |
| TranscriptEditor.EditorSummaryIgnoresCourses | components/transcript/CourseGradeEditor.tsx:110-114 | the boxes show the same numbers whatever the list, and not the default list's totals |
| TranscriptPreview.SemesterCourses | components/transcript/TranscriptPreview.tsx:32-34 | exactly the completed courses of the semester and year |
| TranscriptPreview.PreviewPoints | components/transcript/TranscriptPreview.tsx:41-47 | the preview's point total is NaN exactly when some grade is not in the table, since `undefined !== null` |
| TranscriptPreview.PreviewPointsMatchReducer | components/transcript/TranscriptPreview.tsx:41-47 | without an unknown grade, the preview adds up the same points as the form's reducer |
| TranscriptPreview.WeightedPointsHead | components/transcript/TranscriptPreview.tsx:41-47 | a completed first course with points adds its weight to the rest's points |
| TranscriptPreview.SemesterGPA | components/transcript/TranscriptPreview.tsx:31-50 | "N/A" when no completed course of the semester has credits that count, NaN when a grade is unknown, otherwise points over credits |
| TranscriptPreview.SemesterGpaMatchesReducer | components/transcript/TranscriptPreview.tsx:31-50 | when every grade is known, the semester GPA is what the reducer computes for those courses |
| TranscriptPreview.UnknownGradeDisagreement | components/transcript/TranscriptPreview.tsx:42-44 | for a completed course with an unknown grade, the preview prints NaN while the reducer computes 0 |
| TranscriptPreview.Distinct | components/transcript/TranscriptPreview.tsx:56-67 | the pairs pushed have no repetition, start with the ones given, include every course's pair and nothing else |
| TranscriptPreview.Combinations | components/transcript/TranscriptPreview.tsx:53-84 | each course's semester and year once, nothing else, sorted by year and semester; pairs of equal rank keep their first-appearance order |
| TranscriptPreview.PermutationKeepsDistinct | components/transcript/TranscriptPreview.tsx:70-81 | sorting a list without repetitions keeps it without repetitions |
| TranscriptPreview.TwoPositions | components/transcript/TranscriptPreview.tsx:70-81 | an element at two positions occurs at least twice |
| TranscriptPreview.AtMostOnce | components/transcript/TranscriptPreview.tsx:56-67 | in a list without repetitions, every element occurs at most once |
| TranscriptPreview.Table | components/transcript/TranscriptPreview.tsx:288-291 | the rows under a heading are the courses of that semester and year, each as often as in the list, and no other |
| TranscriptPreview.TableIsFilter | components/transcript/TranscriptPreview.tsx:288-291 | the table is the list filtered by the heading's pair: the same courses in the same order |
| TranscriptPreview.EachCourseInOneTable | components/transcript/TranscriptPreview.tsx:264-291 | every course is listed under exactly one heading, the one of its own pair |
| TranscriptPreview.GradePointCell | components/transcript/TranscriptPreview.tsx:87-90 | "N/A" exactly for the null grades, a throw exactly for grades the table lacks, and otherwise the points between 0 and 4 |
| Export.PageScale | components/transcript/TranscriptGenerator.tsx:75 | the pages' capture scale lies between 2 and 6, and any quality outside the four tiers captures at 2 |
| Export.HookScale | hooks/useIDCard.ts:133-149 | the hooks' scale lies between 2 and 6, and the `default` branch gives 4 to any quality outside the four tiers |
| Export.LetterScale | components/admission-letter/AdmissionLetterGenerator.tsx:50 | the letter's scale lies between 1 and 4, and any quality outside the tiers captures at 1 |
| Export.ScalesOfTiers | hooks/useCertificate.ts:57-73 | on each of the four tiers the hook switch agrees with the pages' ladder, the letter ladder numbers the tiers 1 to 4, and the pages' scale strictly grows from low to ultra |
| Export.LetterIsPageOneDown | components/certificate/CertificateGenerator.tsx:68 | each tier above low gets under the letter ladder the scale the pages give the tier below it |
| Export.UnknownTier | hooks/useIDCard.ts:147-149 | an unknown quality is treated as low by the pages and the letter but as high by the hooks |
| Export.OpeningThen | components/transcript/TranscriptGenerator.tsx:47-86 | injecting the fix, scrolling to the top and waiting 300 ms before the capture downloads and alerts nothing and leaves one more fix element in the head |
| Export.ImageFile | lib/utils.ts:53-60 | the downloaded file is the given name followed by exactly ".png" |
| Export.StyledExport | components/transcript/TranscriptGenerator.tsx:45-96 | the pages' try block always captures; it downloads `<name>.png` exactly when the capture succeeds and alerts the failure message exactly when it fails |
| Export.StyledExportUnderStyle | components/schedule/ScheduleGenerator.tsx:87-134 | the capture and the download both happen while a fix element is in the head |
| Export.FailedExportLeaksStyle | app/page.tsx:58-132 | a successful export restores the head's fix count; a failed one leaves one extra fix element because the removal sits inside the try |
| Export.FailuresAccumulate | components/transcript/TranscriptGenerator.tsx:90-96 | k failed exports in a row leave k fix elements behind |
| Export.StyledExportFinally | components/transcript/TranscriptGenerator.tsx:45-96 | with the removal in a finally clause, the downloads and alerts are those of the try block as written |
| Export.FinallyRestoresStyles | components/schedule/ScheduleGenerator.tsx:131-138 | with the finally clause every export, successful or failed, leaves the fix count as it found it |
| Export.FinallyNeverAccumulates | app/page.tsx:125-132 | any number of exports with the finally clause, failed or not, leave the fix count unchanged |
| Export.FinallyAgreesOnSuccess | components/transcript/TranscriptGenerator.tsx:89-92 | on a successful capture the corrected trace is the trace as written |
| Export.BaseName | components/transcript/TranscriptGenerator.tsx:43 | the file's base name is the non-empty name followed by the suffix, and "student" plus the suffix when the name is falsy |
| Export.Gated | components/schedule/ScheduleGenerator.tsx:79-83 | a non-empty error map alerts the message and stops before any capture or style change; an empty one runs the export unchanged |
| Export.TranscriptDownload | components/transcript/TranscriptGenerator.tsx:40-97 | without a preview nothing happens; otherwise the export always runs under the fix and downloads `<studentName or student>_transcript.png` or alerts the failure, leaking one fix element on failure |
| Export.ScheduleDownload | components/schedule/ScheduleGenerator.tsx:76-139 | the schedule captures, under the export style, exactly when there is a preview and the error state is empty; otherwise it alerts "请完成所有必填字段。"; it downloads `<fullName or student>_schedule.png` on success, alerts the failure otherwise and then leaks a fix element |
| Export.IdCardPageDownload | app/page.tsx:46-133 | the ID card page captures, under the export style, exactly when there is a preview and its own validation passes, alerts "请先完成必填信息。" otherwise, downloads `<fullName or student>_id_card.png` on success, and on a failed capture alerts the failure and leaves its fix style behind |
| Export.IdCardPageNamesTheStudent | app/page.tsx:49-56 | a downloaded ID card file always carries the student's full name, never the "student" fallback |
| Export.HookExport | hooks/useIDCard.ts:129-182 | the hooks capture once and inject no style; they download the file on success and alert "无法生成图片，请稍后再试" on failure |
| Export.IdCardHookDownload | hooks/useIDCard.ts:127-183 | without the card element nothing happens; otherwise the card is captured transparent at the hook scale and downloaded as `student-id-<studentId or card>.png`, or the failure is alerted |
| Export.CertificateHookDownload | hooks/useCertificate.ts:51-107 | without the element nothing happens; otherwise the certificate is captured on the paper colour at the hook scale and downloaded as `enrollment-certificate-<studentId or student>.png`, or the failure is alerted |
| Export.UncaughtStyledExport | components/certificate/CertificateGenerator.tsx:49-88 | the generator's run never alerts; it downloads on success with the fix removed, and a rejected capture leaves the fix in place |
| Export.CertificateGeneratorDownload | components/certificate/CertificateGenerator.tsx:37-89 | the certificate generator captures exactly when there is a preview and its validation passes; it alerts only the incomplete-form message and downloads `<fullName or student>_certificate.png` on success |
| Export.CertificateFailureIsSilent | components/certificate/CertificateGenerator.tsx:66-88 | a failed capture in the certificate generator downloads nothing, alerts nothing and leaves the fix element behind |
| Export.AdmissionFileName | components/admission-letter/AdmissionLetterGenerator.tsx:61 | the letter's file name starts with "admission-letter-" and contains no whitespace after it; a name without whitespace is kept as it is |
| Export.AdmissionDownload | components/admission-letter/AdmissionLetterGenerator.tsx:45-66 | the letter is captured at the letter scale on the paper colour or white without any style fix; it downloads on success with a string name and alerts "导出过程中发生错误，请重试。" otherwise |
| Schedule.ScheduleRuleFor | hooks/useSchedule.ts:133-143 | the three checks name fullName, studentId and universityName with their English messages, and no other field |
| Schedule.ScheduleErrors | hooks/useSchedule.ts:130-146 | a field has an error exactly when it is one of the three checked fields and its value is falsy, and the error is that field's message |
| Schedule.WithData | hooks/useSchedule.ts:130-146 | after any change of the record the effect leaves the errors equal to the record's validation, and the course being edited is kept |
| Schedule.NumberInput | hooks/useSchedule.ts:30-36 | a number input stores an integer or NaN: an integer stays, a string that parses in base 10 gives its value and one that does not gives NaN |
| Schedule.StoredValue | hooks/useSchedule.ts:17-42 | a checkbox stores its `checked` (undefined without one), a number input its parsed integer, any other input its raw value |
| Schedule.InputChange | hooks/useSchedule.ts:16-43 | the named field takes the stored value, every other field and the course list stay, and the errors follow the new record |
| Schedule.InputChangeErrors | hooks/useSchedule.ts:130-146 | from a consistent state an edit changes at most the named field's error, which is present exactly when the field is checked and the stored value is falsy |
| Schedule.GeneratorChange | components/schedule/ScheduleGenerator.tsx:46-48 | the generator's forwarding of a string, boolean or number stores exactly the value sent and keeps every other field |
| Schedule.PrimitiveStoredAsIs | components/schedule/ScheduleGenerator.tsx:47-48 | an event typed with `typeof value` and no `checked` stores its value unchanged: a boolean is not treated as a checkbox, and an integer survives `parseInt` |
| Schedule.AddCourse | hooks/useSchedule.ts:61-81 | adding opens a blank course (given id, no days, no times, 3 credits) for editing and leaves the record and errors unchanged |
| Schedule.FindIndex | hooks/useSchedule.ts:85 | `find` stops at the first course with the id, and finds none exactly when no course has it |
| Schedule.EditCourse | hooks/useSchedule.ts:84-89 | an unknown id changes nothing; a known one puts a copy of a course of the list under edit, with the record unchanged |
| Schedule.SaveCourse | hooks/useSchedule.ts:92-108 | saving a new id appends the course; saving a known id replaces every course with that id in place, keeps the length and the other courses; editing ends and the other fields stay |
| Schedule.CancelEdit | hooks/useSchedule.ts:111-113 | cancelling ends the edit and changes nothing else |
| Schedule.DeleteCourse | hooks/useSchedule.ts:116-121 | deleting keeps exactly the courses whose id differs, and the errors of a consistent state stay |
| Schedule.DeleteAbsent | hooks/useSchedule.ts:116-121 | deleting an id no course carries is no change |
| Schedule.DeleteAfterSave | hooks/useSchedule.ts:92-121 | saving a course and then deleting its id gives the same record as deleting the id alone |
| Schedule.SaveIdempotent | hooks/useSchedule.ts:92-108 | saving the same course twice is saving it once |
| Schedule.EditThenSaveUnchanged | hooks/useSchedule.ts:84-108 | with distinct ids, opening a course and saving the untouched copy gives back the same record |
| Schedule.ResetForm | hooks/useSchedule.ts:124-127 | reset restores the defaults with no errors and leaves the course being edited alone |
| Schedule.ResetConsistent | hooks/useSchedule.ts:124-146 | the cleared errors agree with the validation exactly when the defaults pass it |
| Schedule.ToggleDay | components/schedule/CourseEditor.tsx:32-49 | toggling flips the day's membership and no other day's; an absent day is appended at the end, a present one is removed with all its copies |
| Schedule.ToggleTwiceAbsent | components/schedule/CourseEditor.tsx:36-41 | ticking an unticked day and unticking it again gives back the list exactly |
| Schedule.ToggleTwicePresent | components/schedule/CourseEditor.tsx:42-47 | unticking a ticked day and ticking it again moves it to the end of the list |
| Schedule.SetText | components/schedule/CourseEditor.tsx:24-29 | a text edit changes exactly the named member of the working copy |
| Schedule.SetOwnText | components/schedule/CourseEditor.tsx:24-29 | writing a member's own text back is no change |
| Schedule.SetCredits | components/schedule/CourseEditor.tsx:99 | the credits input stores `Number` of the typed text and changes no text member |
| Schedule.EditorToggleDay | components/schedule/CourseEditor.tsx:32-49 | a day checkbox flips the day in the working copy and changes nothing else |
| Schedule.EditedCopyReplacesCourse | components/schedule/CourseEditor.tsx:21-54 | an edit session saved through `saveCourse` puts the edited copy in the course's place and leaves every other course as it was |
| ScheduleView.SplitCount | components/schedule/SchedulePreview.tsx:96 | `time.split(":")` yields a second part, the minutes, exactly when the time contains a colon |
| ScheduleView.SplitAround | components/schedule/SchedulePreview.tsx:96 | a time with one colon splits into the text before and the text after it |
| ScheduleView.PadStart2 | components/schedule/SchedulePreview.tsx:99 | `padStart(2, "0")` keeps a string of two or more characters and left-fills a shorter one with zeros to length two |
| ScheduleView.Hour12Of | components/schedule/SchedulePreview.tsx:98 | `hours % 12 \|\| 12` gives 1 to 12 for a non-negative hour; a negative hour keeps the sign of JavaScript's remainder |
| ScheduleView.FormatTime | components/schedule/SchedulePreview.tsx:92-103 | an empty time shows empty, any format but "12h" shows the time as it is, and in 12-hour form the call throws exactly when the time has no colon |
| ScheduleView.FormatWholeTime | components/schedule/ScheduleInfoForm.tsx:34-45 | a time whose parts read as whole numbers h and m shows as `h % 12 \|\| 12`, a colon, m padded to two digits, and PM from hour 12 on, AM below |
| ScheduleView.TimeInputIn12h | components/schedule/SchedulePreview.tsx:95-100 | a time input `HH:MM` shows the 12-hour hour, the same two minute digits, and PM exactly from noon |
| ScheduleView.TwelveHourRecovers | components/schedule/SchedulePreview.tsx:97-98 | the 12-hour hour lies in 1..12, and with the period it gives back the 24-hour hour |
| ScheduleView.RowLabel | components/schedule/SchedulePreview.tsx:164-167 | the label of grid row `hour` is the 12-hour hour followed by ":00" and the period |
| ScheduleView.DisplayDays | components/schedule/SchedulePreview.tsx:106-114 | the grid shows the seven days in order when `showWeekends` is truthy and Monday to Friday in order otherwise |
| ScheduleView.WorkDaysKept | components/schedule/SchedulePreview.tsx:109-111 | removing Saturday and Sunday from the week leaves exactly its first five days |
| ScheduleView.GridHours | components/schedule/SchedulePreview.tsx:164-165 | there is one row per hour from the start hour upward, `endHour - startHour` rows, and none when the end is not after the start |
| ScheduleView.HourHasRow | components/schedule/SchedulePreview.tsx:164-165 | an hour has a row exactly when it lies in `[startHour, endHour)` |
| ScheduleView.CellCourses | components/schedule/SchedulePreview.tsx:175-200 | a cell draws exactly the courses on its day with both times, whose hour range covers the row, and which start at the row's hour |
| ScheduleView.CellOfClockTimes | components/schedule/SchedulePreview.tsx:175-200 | for `HH:MM` times a course lies in an hour row exactly when it is on the day and its start hour is at most the row's hour and its end hour above it, minutes ignored; it is drawn at its start hour |
| ScheduleView.HourOfClockTime | components/schedule/SchedulePreview.tsx:180-181 | the hour read from a clock time is the decimal number before its first colon |
| ScheduleView.WeeklyGrid | components/schedule/SchedulePreview.tsx:164-229 | the grid has a row per hour and, in each, a cell per displayed day holding that cell's courses |
| ScheduleView.GridRow | components/schedule/SchedulePreview.tsx:174-226 | a row has a cell per displayed day, in order |
| ScheduleView.DrawnAtMostOncePerDay | components/schedule/SchedulePreview.tsx:199-200 | a course is drawn in a day's column in at most one row |
| ScheduleView.DrawnWhere | components/schedule/SchedulePreview.tsx:175-200 | a course is drawn at a cell exactly when it is on the cell's day, has both times, starts at the cell's hour and ends in a later hour |
| ScheduleView.SameHourNeverDrawn | components/schedule/SchedulePreview.tsx:183-186 | a course whose start and end share their hour, such as 09:00 to 09:45, is drawn nowhere in the grid |
| ScheduleView.StartOutsideGridNeverDrawn | components/schedule/SchedulePreview.tsx:164-200 | a course starting before the first row or at or after the end hour is drawn nowhere |
| ScheduleView.HiddenWeekends | components/schedule/SchedulePreview.tsx:109-111 | with weekends hidden no displayed column is Saturday or Sunday |
| ScheduleView.WeekendCourseOffWeekdays | components/schedule/SchedulePreview.tsx:117-119 | a course held only on weekends appears in no weekday column |
| ScheduleView.WeekendHidden | components/schedule/SchedulePreview.tsx:106-119 | with weekends hidden, a course held only on weekends does not appear in the grid at all |
| ScheduleView.BlankCourseNeverDrawn | components/schedule/SchedulePreview.tsx:178 | a course just opened by `addCourse` has no day and no time and is drawn nowhere |
| ScheduleView.TimeRange | components/schedule/SchedulePreview.tsx:258-260 | a course missing either time shows the fallback text; otherwise the line is the two formatted times joined by " - ", and it throws exactly when formatting either time throws |
| ScheduleView.TimeRangeOfClocks | components/schedule/SchedulePreview.tsx:258-260 | for two `HH:MM` time inputs the line is the two inputs joined by " - ", or in "12h" mode their 12-hour texts with AM or PM |
| ScheduleView.CompactView | components/schedule/SchedulePreview.tsx:237-262 | the compact view has one card per course, in list order, carrying its name, code, colour, its days joined by ", " and its time line with "No time specified" as fallback |
| ScheduleView.CompactShowsEveryCourse | components/schedule/SchedulePreview.tsx:244 | every course has a card in the compact view, even one the weekly grid never draws |
| ScheduleInfo.ModeColor | components/schedule/ScheduleInfoForm.tsx:48-59 | each mode's badge follows the palette: 100 background, 800 text and 200 border of the mode's hue, gray for any other mode |
| ScheduleInfo.PaletteInjective | components/schedule/ScheduleInfoForm.tsx:48-77 | two hues with the same badge are the same hue |
| ScheduleInfo.ModeHuesDistinct | components/schedule/ScheduleInfoForm.tsx:49-57 | two different modes, one of them offered, get different hues |
| ScheduleInfo.ModeColorsDistinct | components/schedule/ScheduleInfoForm.tsx:48-59 | the three offered modes get three different badges, none of them the gray default |
| ScheduleInfo.TypeColor | components/schedule/ScheduleInfoForm.tsx:62-77 | every type but "Workshop" gets the palette badge of its hue, gray for an unknown type |
| ScheduleInfo.WorkshopTextIsLight | components/schedule/ScheduleInfoForm.tsx:72-73 | the workshop badge breaks the palette: its text class ends in the light 200 shade |
| ScheduleInfo.TypeColorIntended | components/schedule/ScheduleInfoForm.tsx:62-77 | with the workshop text in the 800 shade, every type's badge is the palette badge of its hue |
| ScheduleInfo.TypeColorCorrectionOnlyWorkshop | components/schedule/ScheduleInfoForm.tsx:72-73 | the corrected badge differs from the badge as written exactly for "Workshop" |
| ScheduleInfo.KindHuesDistinct | components/schedule/ScheduleInfoForm.tsx:63-75 | two different types, one of them offered, get different hues |
| ScheduleInfo.TypeColorsDistinct | components/schedule/ScheduleInfoForm.tsx:62-77 | with the correction the five offered types get five different badges, none of them the gray default |
| ScheduleInfo.TranslateDay | components/schedule/ScheduleInfoForm.tsx:344-359 | the k-th English week day translates to the k-th Chinese day name, 周一 to 周日, and any other string is shown as it is |
| ScheduleInfo.ChineseDaysDistinct | components/schedule/ScheduleInfoForm.tsx:344-359 | no two week days translate alike |
| ScheduleInfo.MapDays | components/schedule/ScheduleInfoForm.tsx:343-360 | the day list keeps its length and order, each day translated |
| ScheduleInfo.LocationOf | components/schedule/ScheduleInfoForm.tsx:333-337 | building and room are shown as they are; the free-text location shows exactly when there is neither building nor room and it is non-empty; "无地点信息" shows exactly when all three are empty |
| ScheduleInfo.OnePlaceShown | components/schedule/ScheduleInfoForm.tsx:333-337 | exactly one source of place is shown: building and room, the free-text location, or the fallback |
| ScheduleInfo.CourseCard | components/schedule/ScheduleInfoForm.tsx:305-364 | a card shows the name or "未命名课程", the code, the instructor or "无教师信息", the Chinese day list, the time line with "无时间信息" as fallback, and the course's location line |

## Left out

- Rasterisation and download I/O are not modelled. That covers html2canvas, `canvas.toDataURL`, the anchor click, `setTimeout`, `window.scrollTo` and the `onclone` DOM patching. The capture is a boolean oracle, and the rest are events in an effect trace.
- The `handleFileChange` readers of every hook are not modelled. They use the browser's asynchronous FileReader callback.
- The schedule preview's watermark canvas (components/schedule/SchedulePreview.tsx:41-82) is not modelled. It depends on Canvas 2D drawing and `measureText`.
- Barcode and QR generation (hooks/useIDCard.ts:35-69, 186-200) are not modelled. They are calls into foreign libraries.
- Date parsing, locale date formatting and `formatDate` (lib/utils.ts:85-102) are not modelled as such. The parser (`string -> Option<int>`) and the formatter are function parameters of the members that use them.
- `cn` (lib/utils.ts:5-7) is a class-name merging library call, and is not modelled.
- Nondeterministic values are parameters:
  - `generateRandomCardNumber`, which uses `Math.random`;
  - the `Date.now()` id of a new transcript course;
  - the `uuidv4` id of a new schedule course.
- The default records and the hooks' initial data are parameters of the reset functions. The model does not bind them to the constant records.
- JavaScript double arithmetic and the `toFixed` string rounding are not modelled. Grade points, credits, GPA ratios and opacities are exact reals. A GPA is kept as its exact ratio rather than as a two-decimal string.
- ScheduleGenerator's array-valued `handleFormChange`/`setFormData` path (components/schedule/ScheduleGenerator.tsx:49-73) is not modelled. The two functions call each other with no decreasing measure. Only the primitive path is modelled.
- React batching, stale closures and effect timing are not modelled. Each handler is modelled by the final merged state. A validation effect is applied right after the change it follows.
- Keys inherited from `Object.prototype`, such as `"toString"`, are not modelled. In the source they would be found by the `GRADE_POINTS[grade]` and `PROGRAM_DURATION[type]` lookups.
- Render-only components and the form components' markup are not modelled: the card variants, the card back, the design and info forms, and the layout.
- Numbers a form field holds are modelled only as integers or NaN. The inputs that write fields produce only those. A fractional number sent through a field handler is not modelled.
- Js.ToNumber: `Number` of a string is modelled for blank strings, decimal literals with an optional sign and fraction, and the `0x`, `0o` and `0b` literals. An exponent literal such as `"1e3"` and the words `"Infinity"` and `"-Infinity"` read as NaN, unlike JavaScript.
- ScheduleView.FormatTime: requires that, in 12-hour mode, both parts of the time read as whole numbers or NaN. JavaScript's shortest decimal printing of a fractional minute is not modelled. Time inputs only produce whole parts.
- ScheduleView.TimeRange: carries the same whole-number requirement as FormatTime.
- ScheduleView.CompactView: carries the same whole-number requirement as FormatTime.
- ScheduleInfo.CourseCard: carries the same whole-number requirement as FormatTime. The card's mode and type badges are stated separately by ModeColor and TypeColor.
- ScheduleView.WeeklyGrid: the start and end hours are integers, as the design form's selects give them. A fractional hour range of `Array.from` is not modelled.
- Sorting.LexLess: `localeCompare` is modelled as lexicographic order of code points. This agrees with the collation on academic years written as digits and '-'. It does not agree in general, and it is not the UTF-16 code-unit order either.
- CardStyles.GetWatermarkStyles: a `watermarkColor` that is not a string makes `.slice` throw in the source (lib/cardStyles.ts:153). The model converts the value to a string instead.
- Strings are sequences of Unicode scalar values, not of UTF-16 code units. Lengths, `slice` and `padStart` therefore count a character outside the Basic Multilingual Plane once, where JavaScript counts it twice.

## Findings

| source | as written | input that shows it | evidently intended | confidence | as-written member | corrected member |
|---|---|---|---|---|---|---|
| components/transcript/TranscriptGenerator.tsx:45-96 | the temporary `export-fix-style` element is removed by the last statement of the `try` block. A failed capture jumps to the `catch` and leaves the element in the head. The schedule page and the ID card page do the same. | a capture that fails (`captured = false`). Each failed export adds one more fix element, and k failures leave k of them. | the removal in a `finally` clause, so every export leaves the head as it found it | high that the style stays on failure; not executed | Export.FailedExportLeaksStyle | Export.FinallyRestoresStyles |
| components/schedule/ScheduleInfoForm.tsx:72-73 | the "Workshop" badge is `bg-emerald-100 text-emerald-200 border-emerald-200`: light text on a light background | a course whose type is "Workshop" | `text-emerald-800`, the 800 shade every other badge uses for its text | medium; not executed | ScheduleInfo.WorkshopTextIsLight | ScheduleInfo.TypeColorCorrectionOnlyWorkshop |
| app/page.tsx:41-43 | the page's `handleFormChange` sends every edit, the program type's included, to `handleInputChange`. Only `handleSelectChange` (hooks/useIDCard.ts:91-106) derives the validity end again for a new program type, and the page never calls it. | enrollment year "2024", validity end "2028-06", then program type "Master" chosen on the page: the end stays 2028 | the program type routed through `handleSelectChange`, giving "2026-06" | medium; not executed | IdCard.PageKeepsStaleExpiry | IdCard.PageFormChangeIntended |

The handler members of `Export` model the code as written. `Export.StyledExportFinally` is the corrected try block. `Export.FinallyNeverAccumulates` and `Export.FinallyAgreesOnSuccess` prove it restores the head and changes nothing on success. `ScheduleInfo.TypeColorIntended` is the corrected badge table. `ScheduleInfo.TypeColorsDistinct` proves its five badges distinct. `IdCard.PageFormChangeIntended` is the corrected page handler.

Two other discrepancies are stated but not logged as bugs:
- `Transcript.DefaultSummaryIsStale`: the default transcript stores hand-written sample totals. The reducer recomputes them on the first course change, and nothing reads them as derived values.
- `TranscriptEditor.EditorSummaryIgnoresCourses`: the course editor's summary boxes read a fixed record that the source labels as mock data for demonstration (components/transcript/CourseGradeEditor.tsx:107-114).
