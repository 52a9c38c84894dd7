/** The student ID card's form state (hooks/useIDCard.ts) and the page's routing of edits
    (app/page.tsx): the record, the error map an effect recomputes with `validateFormData`
    after every change, and the derivation of the validity end from the enrollment year and
    the program type. */
module IdCard {
  import opened Js
  import opened Forms
  import Utils

  /** The record and the error map as the hook holds them once its effect has run.
      `parseDate` stands for `new Date(...)`, as in `Utils.ValidateFormData`. */
  datatype IdCardState = IdCardState(data: Fields, errors: Errors)

  /** The hook's invariant: the errors are those of the current record. */
  predicate Consistent(st: IdCardState, parseDate: string -> Option<int>)
  {
    st.errors == Utils.ValidateFormData(st.data, parseDate)
  }

  /** `Number.parseInt(v)` of a stored value, radix omitted. */
  function YearOf(v: Value): Option<int>
  {
    ParseInt(ValueToString(v), 0)
  }

  /** `formData.programType` as the duration table's key sees it. */
  function ProgramTypeOf(f: Fields): string
  {
    ValueToString(Get(f, "programType"))
  }

  /** `${calculateExpiryYear(year, programType)}-06`: the course ends in June. */
  function ValidityEnd(year: int, programType: string): (v: string)
    ensures ParseInt(v, 0) == Some(Utils.CalculateExpiryYear(year, programType))
  {
    IntToStringPrefixRoundTrip(Utils.CalculateExpiryYear(year, programType), "-06", 0);
    IntToString(Utils.CalculateExpiryYear(year, programType)) + "-06"
  }

  /** The state after the effect has recomputed the errors of a new record. */
  function Validated(data: Fields, parseDate: string -> Option<int>): (st: IdCardState)
    ensures st.data == data && Consistent(st, parseDate)
  {
    IdCardState(data, Utils.ValidateFormData(data, parseDate))
  }

  /** Merges `name: value`, then writes a derived value, if there is one, to `target`. */
  function MergeDeriving(f: Fields, name: string, value: Value, target: string, derived: Option<Value>)
    : (g: Fields)
    ensures name in g && (name != target || derived.None? ==> g[name] == value)
    ensures derived.Some? ==> Get(g, target) == derived.value
    ensures derived.None? && name != target ==> Get(g, target) == Get(f, target)
    ensures forall k :: k != name && k != target ==> Get(g, k) == Get(f, k)
  {
    var data := SetField(f, name, value);
    if derived.Some? then data[target := derived.value] else data
  }

  /** The names of the two source fields differ from the derived one. */
  lemma DerivedKeyDiffers()
    ensures "enrollmentYear" != "validityEnd" && "programType" != "validityEnd"
  {
    assert |"enrollmentYear"| != |"validityEnd"|;
    assert "programType"[0] != "validityEnd"[0];
  }

  /** What `handleInputChange` derives: the June of the expiry year, when the enrollment year
      changes to a value that parses, for the program type already stored. */
  function InputDerived(f: Fields, name: string, value: Value): Option<Value>
  {
    if name == "enrollmentYear" && YearOf(value).Some? then Some(Str(ValidityEnd(YearOf(value).value, ProgramTypeOf(f))))
    else None
  }

  /** `handleInputChange`'s record: merges `name: value`; when the enrollment year changes to a
      value that parses, the validity end becomes the expiry year of the current program type,
      in June. */
  function InputRecord(f: Fields, name: string, value: Value): (g: Fields)
    ensures name in g && g[name] == value
    ensures forall k :: k != name && k != "validityEnd" ==> Get(g, k) == Get(f, k)
    ensures name == "enrollmentYear" && YearOf(value).Some? ==>
              Get(g, "validityEnd") == Str(ValidityEnd(YearOf(value).value, ProgramTypeOf(f)))
    ensures name != "validityEnd" && !(name == "enrollmentYear" && YearOf(value).Some?) ==>
              Get(g, "validityEnd") == Get(f, "validityEnd")
  {
    DerivedKeyDiffers();
    MergeDeriving(f, name, value, "validityEnd", InputDerived(f, name, value))
  }

  /** `handleInputChange`, followed by the effect that validates the new record. */
  function InputChange(st: IdCardState, name: string, value: Value, parseDate: string -> Option<int>)
    : (r: IdCardState)
    ensures Consistent(r, parseDate) && r.data == InputRecord(st.data, name, value)
  {
    Validated(InputRecord(st.data, name, value), parseDate)
  }

  /** What `handleSelectChange` derives: the June of the expiry year for a new program type
      given as a string, when the stored enrollment year parses. */
  function SelectDerived(f: Fields, name: string, value: Value): Option<Value>
  {
    var year := YearOf(Get(f, "enrollmentYear"));
    if name == "programType" && value.Str? && year.Some? then Some(Str(ValidityEnd(year.value, value.s)))
    else None
  }

  /** `handleSelectChange`'s record: merges `name: value`; when the program type changes to a
      string and the stored enrollment year parses, the validity end is derived again for the
      new type. */
  function SelectRecord(f: Fields, name: string, value: Value): (g: Fields)
    ensures name in g && g[name] == value
    ensures forall k :: k != name && k != "validityEnd" ==> Get(g, k) == Get(f, k)
    ensures name == "programType" && value.Str? && YearOf(Get(f, "enrollmentYear")).Some? ==>
              Get(g, "validityEnd") == Str(ValidityEnd(YearOf(Get(f, "enrollmentYear")).value, value.s))
    ensures name != "validityEnd" && !(name == "programType" && value.Str? && YearOf(Get(f, "enrollmentYear")).Some?) ==>
              Get(g, "validityEnd") == Get(f, "validityEnd")
  {
    DerivedKeyDiffers();
    MergeDeriving(f, name, value, "validityEnd", SelectDerived(f, name, value))
  }

  /** `handleSelectChange`, followed by the effect that validates the new record. */
  function SelectChange(st: IdCardState, name: string, value: Value, parseDate: string -> Option<int>)
    : (r: IdCardState)
    ensures Consistent(r, parseDate) && r.data == SelectRecord(st.data, name, value)
  {
    Validated(SelectRecord(st.data, name, value), parseDate)
  }

  /** After an enrollment year that parses, the year the validity end starts with is that year
      plus the program's duration: two years for a master's program, four for anything else. */
  lemma EnrollmentYearSetsExpiry(st: IdCardState, value: Value, parseDate: string -> Option<int>)
    requires YearOf(value).Some?
    ensures YearOf(Get(InputChange(st, "enrollmentYear", value, parseDate).data, "validityEnd"))
            == Some(YearOf(value).value + if ProgramTypeOf(st.data) == "Master" then 2 else 4)
  {
  }

  /** The select path derives the validity end from the new program type. */
  lemma ProgramTypeSelectSetsExpiry(st: IdCardState, p: string, parseDate: string -> Option<int>)
    requires YearOf(Get(st.data, "enrollmentYear")).Some?
    ensures YearOf(Get(SelectChange(st, "programType", Str(p), parseDate).data, "validityEnd"))
            == Some(YearOf(Get(st.data, "enrollmentYear")).value + if p == "Master" then 2 else 4)
  {
  }

  /** The input path never derives it for a program type change. */
  lemma ProgramTypeInputKeepsExpiry(st: IdCardState, v: Value, parseDate: string -> Option<int>)
    ensures Get(InputChange(st, "programType", v, parseDate).data, "validityEnd") == Get(st.data, "validityEnd")
  {
  }

  /** The ID card page's `handleFormChange(name, value)`: every edit, the program type's
      included, goes through `handleInputChange`. */
  function PageFormChange(st: IdCardState, name: string, value: Value, parseDate: string -> Option<int>)
    : (r: IdCardState)
    ensures Consistent(r, parseDate) && name in r.data && r.data[name] == value
    ensures name == "programType" ==> Get(r.data, "validityEnd") == Get(st.data, "validityEnd")
  {
    InputChange(st, name, value, parseDate)
  }

  /** So on the page, choosing a master's program after the enrollment year keeps the four-year
      validity end the year derived, where the hook's select path would shorten it. */
  lemma PageKeepsStaleExpiry(st: IdCardState, parseDate: string -> Option<int>)
    requires YearOf(Get(st.data, "enrollmentYear")) == Some(2024)
    requires Get(st.data, "validityEnd") == Str(ValidityEnd(2024, "Bachelor"))
    ensures YearOf(Get(PageFormChange(st, "programType", Str("Master"), parseDate).data, "validityEnd")) == Some(2028)
    ensures YearOf(Get(SelectChange(st, "programType", Str("Master"), parseDate).data, "validityEnd")) == Some(2026)
  {
  }

  /** The page handler as evidently intended: a program type goes through `handleSelectChange`,
      every other edit through `handleInputChange`, so the validity end follows both the
      enrollment year and the program type. */
  function PageFormChangeIntended(st: IdCardState, name: string, value: Value, parseDate: string -> Option<int>)
    : (r: IdCardState)
    ensures Consistent(r, parseDate) && name in r.data && r.data[name] == value
    ensures name != "programType" ==> r == PageFormChange(st, name, value, parseDate)
    ensures name == "enrollmentYear" && YearOf(value).Some? ==>
              YearOf(Get(r.data, "validityEnd"))
              == Some(YearOf(value).value + if ProgramTypeOf(st.data) == "Master" then 2 else 4)
    ensures name == "programType" && value.Str? && YearOf(Get(st.data, "enrollmentYear")).Some? ==>
              YearOf(Get(r.data, "validityEnd"))
              == Some(YearOf(Get(st.data, "enrollmentYear")).value + if value.s == "Master" then 2 else 4)
  {
    if name == "programType" then SelectChange(st, name, value, parseDate)
    else InputChange(st, name, value, parseDate)
  }

  /** `resetForm()`: the defaults (`DEFAULT_FORM_DATA`) and an empty error map. */
  function ResetForm(st: IdCardState, defaults: Fields): (r: IdCardState)
    ensures r.data == defaults && r.errors == map[]
  {
    IdCardState(defaults, map[])
  }

  /** The reset state is consistent whenever the defaults pass validation. */
  lemma ResetConsistent(st: IdCardState, defaults: Fields, parseDate: string -> Option<int>)
    requires Utils.ValidateFormData(defaults, parseDate) == map[]
    ensures Consistent(ResetForm(st, defaults), parseDate)
  {
  }
}
