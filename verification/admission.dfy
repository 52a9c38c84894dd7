/** The admission letter: its form state (hooks/useAdmissionLetter.ts), the generator's submit
    and field-change handlers (components/admission-letter/AdmissionLetterGenerator.tsx) and
    the preview's computed parts (components/admission-letter/AdmissionLetterPreview.tsx). */
module Admission {
  import opened Js
  import opened Forms

  /** The record and the error map; unlike the other documents, the errors are only computed
      when the form is submitted. */
  datatype AdmissionState = AdmissionState(data: Fields, errors: Errors)

  const RequiredMessage := "此字段为必填项"

  /** The five required fields, in the order of the checks. */
  const RequiredFields := ["universityName", "studentName", "programName", "departmentName", "letterContent"]

  /** The errors `validateForm` computes for a record. */
  function LetterErrors(f: Fields): (e: Errors)
    ensures forall k :: k in e <==> k in RequiredFields && !Truthy(Get(f, k))
    ensures forall k :: k in e ==> e[k] == RequiredMessage
  {
    UniformErrors(f, RequiredFields, RequiredMessage)
  }

  /** `handleInputChange`: a checkbox stores `checked` (undefined when the event has none) and
      returns with the errors untouched; any other input stores its value and drops the error
      of that field when its message is truthy. */
  function InputChange(st: AdmissionState, ev: InputEvent): (r: AdmissionState)
    ensures r.data.Keys == st.data.Keys + {ev.name}
    ensures ev.kind == "checkbox" ==> r.data[ev.name] == (if ev.checked.Some? then Bool(ev.checked.value) else Undefined)
    ensures ev.kind == "checkbox" ==> r.errors == st.errors
    ensures ev.kind != "checkbox" ==> r.data[ev.name] == ev.value
    ensures ev.kind != "checkbox" ==> r.errors == ClearError(st.errors, ev.name)
    ensures forall k :: k in st.data && k != ev.name ==> r.data[k] == st.data[k]
  {
    if ev.kind == "checkbox" then
      AdmissionState(SetField(st.data, ev.name, if ev.checked.Some? then Bool(ev.checked.value) else Undefined),
                     st.errors)
    else AdmissionState(SetField(st.data, ev.name, ev.value), ClearError(st.errors, ev.name))
  }

  /** Starting from the errors of the last validation, a text edit never reports a field the
      validation would not: the edited field's error is dropped, the others stay. When the
      new value is truthy the errors are exactly the validation's. */
  lemma TextEditErrors(st: AdmissionState, ev: InputEvent)
    requires st.errors == LetterErrors(st.data) && ev.kind != "checkbox"
    ensures InputChange(st, ev).errors.Keys <= LetterErrors(InputChange(st, ev).data).Keys
    ensures Truthy(ev.value) ==> InputChange(st, ev).errors == LetterErrors(InputChange(st, ev).data)
  {
    ClearedErrorsAfterSet(st.data, RequiredFields, RequiredMessage, ev.name, ev.value);
  }

  /** Emptying a required field that has an error drops the error all the same: the errors
      under-report until the next submit. */
  lemma EmptyingDropsError(st: AdmissionState, name: string)
    requires st.errors == LetterErrors(st.data) && name in RequiredFields && name in st.errors
    ensures name !in InputChange(st, InputEvent(name, Str(""), "text", None)).errors
    ensures name in LetterErrors(InputChange(st, InputEvent(name, Str(""), "text", None)).data)
  {
    UniformErrorsAfterSet(st.data, RequiredFields, RequiredMessage, name, Str(""));
  }

  /** `validateForm()`: the errors become those of the record, and the result says whether
      there are none. */
  function ValidateForm(st: AdmissionState): (r: (AdmissionState, bool))
    ensures r.0.data == st.data && r.0.errors == LetterErrors(st.data)
    ensures r.1 <==> forall k :: k in RequiredFields ==> Truthy(Get(st.data, k))
  {
    var e := LetterErrors(st.data);
    assert e == map[] <==> forall k :: k in RequiredFields ==> Truthy(Get(st.data, k)) by {
      if e != map[] {
        var k :| k in e;
        assert k in RequiredFields && !Truthy(Get(st.data, k));
      }
    }
    (AdmissionState(st.data, e), e == map[])
  }

  /** The generator's `handleSubmit`: validate, and move to the preview tab exactly when the
      form is complete. */
  function Submit(st: AdmissionState, tab: string): (r: (AdmissionState, string))
    ensures r.0.errors == LetterErrors(st.data)
    ensures r.1 == (if forall k :: k in RequiredFields ==> Truthy(Get(st.data, k)) then "preview" else tab)
  {
    var (validated, ok) := ValidateForm(st);
    (validated, if ok then "preview" else tab)
  }

  /** Submitting twice in a row changes nothing the second time. */
  lemma SubmitIdempotent(st: AdmissionState, tab: string)
    ensures Submit(Submit(st, tab).0, Submit(st, tab).1) == Submit(st, tab)
  {
  }

  /** The generator's `handleFieldChange(field, value)`: one field merged, errors untouched. */
  function FieldChange(st: AdmissionState, field: string, value: Value): (r: AdmissionState)
    ensures r.data.Keys == st.data.Keys + {field} && r.data[field] == value
    ensures forall k :: k in st.data && k != field ==> r.data[k] == st.data[k]
    ensures r.errors == st.errors
  {
    AdmissionState(SetField(st.data, field, value), st.errors)
  }

  /** `resetForm()`: the defaults (`DEFAULT_ADMISSION_LETTER_DATA`) and no errors. */
  function ResetForm(st: AdmissionState, defaults: Fields): (r: AdmissionState)
    ensures r.data == defaults && r.errors == map[]
  {
    AdmissionState(defaults, map[])
  }

  // ---------------------------------------------------------------------------
  // The preview.

  /** The quality handed to the download: `pngQuality || "high"`. */
  function DownloadQuality(f: Fields): (q: string)
    ensures q != ""
    ensures !Truthy(Get(f, "pngQuality")) ==> q == "high"
  {
    ValueOr(Get(f, "pngQuality"), "high")
  }

  /** `handleQualityChange(q)`: the select writes `pngQuality` through the field handler. */
  function QualityChange(st: AdmissionState, quality: string): (r: AdmissionState)
    ensures r.errors == st.errors
  {
    FieldChange(st, "pngQuality", Str(quality))
  }

  /** The download uses the quality last chosen, and "high" when the choice was empty. */
  lemma ChosenQualityIsDownloaded(st: AdmissionState, quality: string)
    ensures DownloadQuality(QualityChange(st, quality).data) == if quality != "" then quality else "high"
  {
  }

  /** `formatDateString`: the empty string stays empty; any other date goes to the locale
      formatter, a parameter here. */
  function FormatDateString(date: string, formatDate: string -> string): (r: string)
    ensures date == "" ==> r == ""
    ensures date != "" ==> r == formatDate(date)
  {
    if date == "" then "" else formatDate(date)
  }

  /** One repeated watermark text: its position in percent of the letter, and the style all
      tiles share. */
  datatype LetterTile = LetterTile(top: int, left: int, angle: Option<int>, fontSize: Option<int>, opacity: Number)

  const Rows := 10
  const Cols := 10

  /** The watermark is drawn when it is enabled and its text is non-empty. */
  predicate ShowWatermark(f: Fields)
  {
    Truthy(Get(f, "enableWatermark")) && Truthy(Get(f, "watermarkText"))
  }

  /** The tile of row `i` and column `j`: `top: (i * 100) / rows %`, `left: (j * 100) / cols %`. */
  function TileOf(f: Fields, i: int, j: int): LetterTile
  {
    LetterTile((i * 100) / Rows, (j * 100) / Cols, ParseInt(ValueToString(Get(f, "watermarkAngle")), 0),
               ParseInt(ValueToString(Get(f, "watermarkSize")), 0),
               DivBy(ValueToNumber(Get(f, "watermarkOpacity")), 100.0))
  }

  /** `renderWatermark()`: the tiles in the order the two loops push them, row by row. */
  function WatermarkTiles(f: Fields): (tiles: seq<LetterTile>)
    ensures !ShowWatermark(f) ==> tiles == []
    ensures ShowWatermark(f) ==> |tiles| == Rows * Cols
    ensures forall k :: 0 <= k < |tiles| ==> tiles[k].opacity == DivBy(ValueToNumber(Get(f, "watermarkOpacity")), 100.0)
    ensures forall k :: 0 <= k < |tiles| ==> tiles[k].angle == ParseInt(ValueToString(Get(f, "watermarkAngle")), 0)
  {
    if !ShowWatermark(f) then []
    else seq(Rows * Cols, k requires 0 <= k < Rows * Cols => TileOf(f, k / Cols, k % Cols))
  }

  /** The tile of row `i` and column `j` is pushed as the `10 i + j`-th, and sits at `10 i` percent
      from the top and `10 j` percent from the left. */
  lemma TileAt(f: Fields, i: int, j: int)
    requires ShowWatermark(f) && 0 <= i < Rows && 0 <= j < Cols
    ensures WatermarkTiles(f)[i * Cols + j].top == 10 * i
    ensures WatermarkTiles(f)[i * Cols + j].left == 10 * j
  {
    RowColumnOfIndex(i, j);
    TilePosition(f, i * Cols + j);
  }

  lemma RowColumnOfIndex(i: int, j: int)
    requires 0 <= i < Rows && 0 <= j < Cols
    ensures (i * Cols + j) / Cols == i && (i * Cols + j) % Cols == j
  {
  }

  /** No two tiles share a position. */
  lemma TilesDistinct(f: Fields, k1: int, k2: int)
    requires ShowWatermark(f) && 0 <= k1 < k2 < Rows * Cols
    ensures WatermarkTiles(f)[k1].top != WatermarkTiles(f)[k2].top || WatermarkTiles(f)[k1].left != WatermarkTiles(f)[k2].left
  {
    TilePosition(f, k1);
    TilePosition(f, k2);
    if k1 / Cols == k2 / Cols {
      SameRowDistinctColumn(k1, k2);
    }
  }

  lemma TilePosition(f: Fields, k: int)
    requires ShowWatermark(f) && 0 <= k < Rows * Cols
    ensures WatermarkTiles(f)[k].top == 10 * (k / Cols) && WatermarkTiles(f)[k].left == 10 * (k % Cols)
  {
  }

  /** Two different indices in the same row of ten sit in different columns. */
  lemma SameRowDistinctColumn(k1: int, k2: int)
    requires 0 <= k1 < k2 && k1 / Cols == k2 / Cols
    ensures k1 % Cols != k2 % Cols
  {
    assert k1 == (k1 / Cols) * Cols + k1 % Cols && k2 == (k2 / Cols) * Cols + k2 % Cols;
  }

  /** The letter's frame: a 2px border of the chosen style and colour when enabled, and 2rem of
      padding always. */
  datatype LetterFrame = LetterFrame(border: Option<string>, padding: string)

  function BorderStyle(f: Fields): (fr: LetterFrame)
    ensures fr.padding == "2rem"
    ensures fr.border.Some? <==> Truthy(Get(f, "enableBorder"))
    ensures fr.border.Some? ==> |fr.border.value| > 4 && fr.border.value[..4] == "2px "
  {
    if Truthy(Get(f, "enableBorder")) then
      var b := "2px " + ValueToString(Get(f, "borderStyle")) + " " + ValueToString(Get(f, "borderColor"));
      assert b[..4] == "2px ";
      LetterFrame(Some(b), "2rem")
    else LetterFrame(None, "2rem")
  }
}
