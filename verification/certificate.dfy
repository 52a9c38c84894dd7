/** The enrollment certificate's form state (hooks/useCertificate.ts): the record, its error
    map that an effect recomputes after every change, the two field reducers and the reset.
    The generator (components/certificate/CertificateGenerator.tsx) keeps its own copy of the
    validator, with the same ten checks in the same order and the same message; both are
    `ValidateCertificateData` here. */
module Certificate {
  import opened Js
  import opened Forms

  const RequiredMessage := "必填项"

  /** The ten required fields, in the order of the checks. */
  const RequiredFields := ["fullName", "studentId", "universityName", "faculty", "major", "degreeType",
                           "studyMode", "enrollmentDate", "expectedGraduationDate", "issueDate"]

  /** `validateCertificateData`: "必填项" for every required field that is falsy, nothing else. */
  function ValidateCertificateData(f: Fields): (e: Errors)
    ensures forall k :: k in e <==> k in RequiredFields && !Truthy(Get(f, k))
    ensures forall k :: k in e ==> e[k] == RequiredMessage
  {
    UniformErrors(f, RequiredFields, RequiredMessage)
  }

  /** The record and the error map as the hook holds them once its effect has run. */
  datatype CertificateState = CertificateState(data: Fields, errors: Errors)

  /** The hook's invariant: the errors are those of the current record. */
  predicate Consistent(st: CertificateState)
  {
    st.errors == ValidateCertificateData(st.data)
  }

  /** `handleInputChange` and `handleSelectChange`: both merge `name: value` into the record;
      the effect on `formData` then recomputes the errors. */
  function ChangeField(st: CertificateState, name: string, value: Value): (r: CertificateState)
    ensures r.data.Keys == st.data.Keys + {name} && r.data[name] == value
    ensures forall k :: k in st.data && k != name ==> r.data[k] == st.data[k]
    ensures Consistent(r)
  {
    var data := SetField(st.data, name, value);
    CertificateState(data, ValidateCertificateData(data))
  }

  /** A change touches at most the error of the field it names: every other field keeps its
      error, and the named field has one exactly when it is required and the new value falsy. */
  lemma ChangeFieldErrors(st: CertificateState, name: string, value: Value)
    requires Consistent(st)
    ensures forall k :: k != name ==> (k in ChangeField(st, name, value).errors <==> k in st.errors)
    ensures name in ChangeField(st, name, value).errors <==> name in RequiredFields && !Truthy(value)
  {
    UniformErrorsAfterSet(st.data, RequiredFields, RequiredMessage, name, value);
  }

  /** `resetForm()`: the default record (`DEFAULT_CERTIFICATE_DATA`, which is
      `Constants.DefaultCertificateData` of the day it was loaded) and no errors, whatever the
      state was. */
  function ResetForm(st: CertificateState, defaults: Fields): (r: CertificateState)
    ensures r.data == defaults && r.errors == map[]
  {
    CertificateState(defaults, map[])
  }

  /** The cleared errors agree with the validation exactly when the defaults pass it. */
  lemma ResetConsistent(st: CertificateState, defaults: Fields)
    ensures Consistent(ResetForm(st, defaults)) <==> ValidateCertificateData(defaults) == map[]
  {
  }
}
