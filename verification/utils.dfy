/** The helpers of lib/utils.ts: expiry year, colour parsing, validity-date display,
    background image style and the ID card's form validation. */
module Utils {
  import opened Js
  import opened Forms
  import opened Constants

  /** `enrollmentYear + (PROGRAM_DURATION[programType] || PROGRAM_DURATION.default)`. */
  function CalculateExpiryYear(enrollmentYear: int, programType: string): (r: int)
    ensures r == enrollmentYear + (if programType == "Master" then 2 else 4)
  {
    var d := ProgramDuration(programType);
    enrollmentYear + (if d.Some? && d.value != 0 then d.value else ProgramDuration("default").value)
  }

  // ---------------------------------------------------------------------------
  // Colours.

  /** The four components of an `rgba(r, g, b, alpha)` string; a None component prints NaN. */
  datatype Rgba = Rgba(r: Option<int>, g: Option<int>, b: Option<int>, alpha: Number)

  predicate WellFormedHex(hex: string)
  {
    |hex| == 7 && hex[0] == '#' && forall k :: 1 <= k < 7 ==> IsDigit(hex[k], 16)
  }

  /** The byte that two hex digits spell, most significant first. */
  function HexByte(hi: char, lo: char): (v: int)
    requires IsDigit(hi, 16) && IsDigit(lo, 16)
    ensures 0 <= v <= 255
  {
    TwoHexDigitsBound([hi, lo]);
    DigitsValue([hi, lo], 16)
  }

  /** The byte is sixteen times the high digit plus the low digit. */
  lemma {:induction false} HexByteValue(hi: char, lo: char)
    requires IsDigit(hi, 16) && IsDigit(lo, 16)
    ensures HexByte(hi, lo) == 16 * DigitValue(hi).value + DigitValue(lo).value
  {
    TwoDigitsValue([hi, lo]);
  }

  /** A two-character slice of hex digits reads as their byte value. */
  lemma {:induction false} ChannelOfPair(hex: string, i: nat)
    requires i + 1 < |hex| && IsDigit(hex[i], 16) && IsDigit(hex[i + 1], 16)
    ensures ParseInt(Slice(hex, i, i + 2), 16) == Some(HexByte(hex[i], hex[i + 1]))
  {
    var pair := Slice(hex, i, i + 2);
    assert pair == [hex[i], hex[i + 1]];
    HexPairValue(pair);
  }

  /** `hexToRgba(hex, alpha = 1)`: each channel is `parseInt` in base 16 of a two-character
      slice; an omitted alpha (None) is 1. */
  function HexToRgba(hex: string, alpha: Option<Number>): (c: Rgba)
    ensures c.alpha == (if alpha.Some? then alpha.value else Real(1.0))
    ensures WellFormedHex(hex) ==>
              c.r == Some(HexByte(hex[1], hex[2])) && c.g == Some(HexByte(hex[3], hex[4]))
              && c.b == Some(HexByte(hex[5], hex[6]))
  {
    if WellFormedHex(hex) then
      ChannelOfPair(hex, 1);
      ChannelOfPair(hex, 3);
      ChannelOfPair(hex, 5);
      Channels(hex, alpha)
    else Channels(hex, alpha)
  }

  function Channels(hex: string, alpha: Option<Number>): Rgba
  {
    Rgba(ParseInt(Slice(hex, 1, 3), 16), ParseInt(Slice(hex, 3, 5), 16), ParseInt(Slice(hex, 5, 7), 16),
         if alpha.Some? then alpha.value else Real(1.0))
  }

  /** A red slice that starts with a character that is neither a hex digit, whitespace nor a
      sign reads as NaN. */
  lemma HexToRgbaNonHexRed(hex: string, alpha: Option<Number>)
    requires |hex| >= 2 && !IsDigit(hex[1], 16) && !IsSpace(hex[1]) && hex[1] != '-' && hex[1] != '+'
    ensures HexToRgba(hex, alpha).r.None?
  {
    var s := Slice(hex, 1, 3);
    assert s[0] == hex[1];
    ParseIntUnsigned(s, 16);
  }

  /** A red slice of one hex digit followed by a non-digit reads as that digit alone
      (`"0z"` gives 0), except for `"0x"`, which is a hex prefix with no digits after it. */
  lemma HexToRgbaDigitPrefix(hex: string, alpha: Option<Number>)
    requires |hex| >= 3 && IsDigit(hex[1], 16) && !IsDigit(hex[2], 16)
    requires !(hex[1] == '0' && (hex[2] == 'x' || hex[2] == 'X'))
    ensures HexToRgba(hex, alpha).r == Some(DigitValue(hex[1]).value)
  {
    var s := Slice(hex, 1, 3);
    assert s == [hex[1], hex[2]];
    assert !IsSpace(hex[1]);
    ParseIntUnsigned(s, 16);
    assert !HasHexPrefix(s);
    assert DigitPrefixLen(s[1..], 16) == 0;
    assert DigitPrefixLen(s, 16) == 1;
    assert s[..1] == [hex[1]];
    assert [hex[1]][..0] == [];
    assert DigitsValue([hex[1]], 16) == DigitValue(hex[1]).value;
    assert ReadDigits(s, 16) == Some(DigitsValue(s[..1], 16));
  }

  lemma HexToRgbaZeroX(hex: string, alpha: Option<Number>)
    requires |hex| >= 3 && hex[1] == '0' && (hex[2] == 'x' || hex[2] == 'X')
    ensures HexToRgba(hex, alpha).r.None?
  {
    var s := Slice(hex, 1, 3);
    assert s == [hex[1], hex[2]];
    ParseIntUnsigned(s, 16);
    assert s[2..] == [];
  }

  /** `getWatermarkColor(color, opacity)`: the channels of `hexToRgba(color)` with alpha
      `Number(opacity) / 100`. */
  function WatermarkColor(color: string, opacity: string): (c: Rgba)
    ensures c.r == HexToRgba(color, None).r && c.g == HexToRgba(color, None).g
            && c.b == HexToRgba(color, None).b
    ensures forall n: int :: opacity == IntToString(n) ==> c.alpha == Real(n as real / 100.0)
    ensures ToNumber(opacity).Real? ==> c.alpha == Real(ToNumber(opacity).r / 100.0)
    ensures ToNumber(opacity).NotANumber? ==> c.alpha.NotANumber?
  {
    IntegerStrings(opacity);
    HexToRgba(color, Some(DivBy(ToNumber(opacity), 100.0)))
  }

  // ---------------------------------------------------------------------------
  // Dates and background style.

  /** `formatValidityDate`: the empty string stays empty; otherwise only the first '-' becomes
      '/', so the length is kept. */
  function FormatValidityDate(date: string): (r: string)
    ensures |r| == |date|
    ensures (forall k :: 0 <= k < |date| ==> date[k] != '-') ==> r == date
    ensures forall i :: FirstOccurrence(date, "-", i) ==>
              r[i] == '/' && forall k :: 0 <= k < |date| && k != i ==> r[k] == date[k]
  {
    ReplaceFirstChar(date, '-', '/');
    if date == "" then "" else ReplaceFirst(date, "-", "/")
  }

  /** The style object of a card background: `{}` or an image with its opacity. */
  datatype BackgroundStyle =
    | NoStyle
    | ImageStyle(backgroundImage: string, backgroundSize: string, backgroundPosition: string, opacity: Number)

  /** A string that is the decimal form of an integer reads back as that integer. */
  lemma IntegerStrings(s: string)
    ensures forall n: int :: s == IntToString(n) ==> ToNumber(s) == Real(n as real)
  {
    forall n: int | s == IntToString(n) ensures ToNumber(s) == Real(n as real) {
      ToNumberOfIntToString(n);
    }
  }

  /** `getBackgroundImageStyle(image, opacity, isBack)`: the back of the card shows the image
      at half the front's opacity. */
  function BackgroundImageStyle(image: string, opacity: string, isBack: bool): (st: BackgroundStyle)
    ensures st.NoStyle? <==> image == ""
    ensures st.ImageStyle? ==> st.backgroundImage == "url(" + image + ")"
                               && st.backgroundSize == "cover" && st.backgroundPosition == "center"
    ensures st.ImageStyle? ==> forall n: int :: opacity == IntToString(n) ==>
              st.opacity == (if isBack then Real(n as real / 200.0) else Real(n as real / 100.0))
    ensures st.ImageStyle? && ToNumber(opacity).Real? ==>
              st.opacity == (if isBack then Real(ToNumber(opacity).r / 200.0) else Real(ToNumber(opacity).r / 100.0))
    ensures st.ImageStyle? && ToNumber(opacity).NotANumber? ==> st.opacity.NotANumber?
  {
    if image == "" then NoStyle
    else
      ImageStyle("url(" + image + ")", "cover", "center", ImageOpacity(opacity, isBack))
  }

  /** The image's opacity: `Number(opacity) / 100`, halved on the back. */
  function ImageOpacity(opacity: string, isBack: bool): (o: Number)
    ensures forall n: int :: opacity == IntToString(n) ==>
              o == (if isBack then Real(n as real / 200.0) else Real(n as real / 100.0))
    ensures ToNumber(opacity).Real? ==>
              o == (if isBack then Real(ToNumber(opacity).r / 200.0) else Real(ToNumber(opacity).r / 100.0))
    ensures ToNumber(opacity).NotANumber? ==> o.NotANumber?
  {
    IntegerStrings(opacity);
    if isBack then DivBy(ToNumber(opacity), 200.0) else DivBy(ToNumber(opacity), 100.0)
  }

  /** Whatever the opacity string, the back's opacity is exactly half the front's. */
  lemma BackgroundBackIsHalfFront(image: string, opacity: string)
    requires image != ""
    ensures BackgroundImageStyle(image, opacity, true).opacity
            == Times(BackgroundImageStyle(image, opacity, false).opacity, 0.5)
  {
  }

  // ---------------------------------------------------------------------------
  // ID card validation.

  function IdCardRules(): seq<Rule>
  {
    [ Rule("fullName", "姓名不能为空"), Rule("studentId", "学生ID不能为空"),
      Rule("faculty", "院系不能为空"), Rule("universityName", "学校名称不能为空") ]
  }

  /** The message each ID card field's required check reports, if it has one. */
  function IdCardMessage(k: string): Option<string>
  {
    if k == "fullName" then Some("姓名不能为空")
    else if k == "studentId" then Some("学生ID不能为空")
    else if k == "faculty" then Some("院系不能为空")
    else if k == "universityName" then Some("学校名称不能为空")
    else None
  }

  /** The rule list asks exactly the fields of `IdCardMessage` for their messages. */
  lemma IdCardRuleFor(k: string)
    ensures RuleFor(IdCardRules(), k) == IdCardMessage(k)
  {
    var rs := IdCardRules();
    assert rs[1..][1..][1..][1..] == [];
  }

  /** The required checks report exactly the falsy fields among the four, each with its
      message. */
  lemma IdCardRequired(f: Fields)
    ensures forall k :: k in RequiredErrors(f, IdCardRules()) <==> IdCardMessage(k).Some? && !Truthy(Get(f, k))
    ensures forall k :: k in RequiredErrors(f, IdCardRules()) ==>
              RequiredErrors(f, IdCardRules())[k] == IdCardMessage(k).value
  {
    forall k ensures RuleFor(IdCardRules(), k) == IdCardMessage(k) {
      IdCardRuleFor(k);
    }
  }

  const DateOrderField := "validityEnd"
  const DateOrderMessage := "有效期结束日期必须晚于开始日期"

  /** The validity dates are both present, both parse, and the start is after the end.
      `parseDate` stands for `new Date(...)`: None is an invalid date, which compares false. */
  predicate DatesOutOfOrder(f: Fields, parseDate: string -> Option<int>)
  {
    var start := Get(f, "validityStart");
    var end := Get(f, "validityEnd");
    Truthy(start) && Truthy(end)
    && parseDate(ValueToString(start)).Some? && parseDate(ValueToString(end)).Some?
    && parseDate(ValueToString(start)).value > parseDate(ValueToString(end)).value
  }

  /** `validateFormData`: an error for each falsy required field, and one for validityEnd when
      the dates are out of order; no other key. */
  function ValidateFormData(f: Fields, parseDate: string -> Option<int>): (e: Errors)
    ensures forall k :: k in e <==> (IdCardMessage(k).Some? && !Truthy(Get(f, k)))
                                    || (k == DateOrderField && DatesOutOfOrder(f, parseDate))
    ensures forall k :: k in e && k != DateOrderField ==> e[k] == IdCardMessage(k).value
    ensures DateOrderField in e ==> e[DateOrderField] == DateOrderMessage
  {
    var required := RequiredErrors(f, IdCardRules());
    IdCardRequired(f);
    if DatesOutOfOrder(f, parseDate) then required[DateOrderField := DateOrderMessage]
    else required
  }
}
