/** Style tables and computed styles of the ID card (lib/cardStyles.ts). */
module CardStyles {
  import opened Js
  import opened Utils

  datatype CardStyle = Modern | Classic | Minimal
  datatype Orientation = Portrait | Landscape

  /** The class strings of one card style in one orientation.  Slots that only some
      configurations define are Options (None is a missing property). */
  datatype StyleConfig = StyleConfig(
    container: string,
    header: string,
    mainContent: string,
    photo: string,
    infoContainer: Option<string>,
    leftContent: Option<string>,
    rightContent: Option<string>,
    footer: Option<string>,
    bottomBar: Option<string>,
    backContainer: string,
    backHeader: string,
    backContent: string,
    backInfoSection: Option<string>,
    backLeftContent: Option<string>,
    backRightContent: Option<string>,
    backFooter: Option<string>)

  const ModernPortrait := StyleConfig(
    "overflow-hidden rounded-lg shadow-lg",
    "mb-5 flex items-center justify-between",
    "flex flex-col sm:flex-row gap-5",
    "h-36 w-28 overflow-hidden rounded border bg-white shadow-sm",
    Some("flex-1 space-y-3"), None, None,
    Some("mt-5 border-t border-white/20 pt-4"),
    Some("bg-black/10 p-2 text-center text-xs"),
    "mt-4 overflow-hidden rounded-lg shadow-lg",
    "mb-5 flex items-center justify-between",
    "relative z-10 space-y-4",
    None, None, None,
    Some("relative z-10 bg-black/10 p-2 text-center text-xs"))

  const ModernLandscape := StyleConfig(
    "relative overflow-hidden rounded-lg shadow-lg",
    "flex items-center mb-4",
    "flex-1 flex",
    "h-[6.5rem] w-[5.5rem] overflow-hidden rounded border bg-white shadow-sm",
    None,
    Some("w-[55%] flex flex-col justify-between"),
    Some("w-[45%] flex flex-col items-end justify-between"),
    None, None,
    "mt-4 relative overflow-hidden rounded-lg shadow-lg",
    "flex items-center justify-between mb-3 border-b border-gray-200 pb-2",
    "flex text-sm",
    None, Some("w-[60%] pr-3"), Some("w-[40%]"), None)

  const ClassicPortrait := StyleConfig(
    "overflow-hidden rounded-md border-2 border-gray-300 bg-white shadow-md",
    "relative border-b-2 border-gray-300 p-4",
    "relative p-4",
    "h-36 w-28 overflow-hidden rounded border shadow-sm",
    Some("flex-1 space-y-2"), None, None,
    None,
    Some("border-t-2 border-gray-300 bg-gray-100 p-2 text-center text-xs text-gray-600"),
    "mt-4 overflow-hidden rounded-md border-2 border-gray-300 bg-white shadow-md",
    "relative border-b-2 border-gray-300 p-4",
    "relative p-4",
    Some("relative z-10 space-y-3"), None, None,
    Some("border-t-2 border-gray-300 bg-gray-100 p-2 text-center text-xs text-gray-600"))

  const ClassicLandscape := StyleConfig(
    "relative overflow-hidden rounded-md border-2 border-gray-300 bg-white shadow-md",
    "flex items-center mb-4 border-b border-gray-200 pb-2",
    "flex-1 flex",
    "h-[6.5rem] w-[5.5rem] overflow-hidden rounded border bg-white shadow-sm",
    None,
    Some("w-[55%] flex flex-col justify-between"),
    Some("w-[45%] flex flex-col items-end justify-between"),
    None, None,
    "mt-4 relative overflow-hidden rounded-md border-2 border-gray-300 bg-white shadow-md",
    "flex items-center justify-between mb-3 border-b border-gray-200 pb-2",
    "flex text-sm",
    None, Some("w-[60%] pr-3"), Some("w-[40%]"), None)

  const MinimalPortrait := StyleConfig(
    "relative overflow-hidden rounded-xl bg-white shadow-lg",
    "mb-6 flex items-center justify-between",
    "flex flex-col sm:flex-row gap-4",
    "h-36 w-28 overflow-hidden rounded-lg shadow-md",
    Some("flex-1 space-y-2"), None, None,
    None, None,
    "mt-4 relative overflow-hidden rounded-xl bg-white shadow-lg",
    "flex items-center justify-between mb-6",
    "space-y-5",
    None, None, None,
    Some("border-t border-gray-100 pt-3 mt-4"))

  const MinimalLandscape := StyleConfig(
    "relative overflow-hidden rounded-xl bg-white shadow-lg",
    "flex items-center mb-4",
    "flex-1 flex",
    "h-[6.5rem] w-[5.5rem] overflow-hidden rounded-lg shadow-sm",
    None,
    Some("w-[55%] flex flex-col justify-between"),
    Some("w-[45%] flex flex-col items-end justify-between"),
    None, None,
    "mt-4 relative overflow-hidden rounded-xl bg-white shadow-lg",
    "flex items-center justify-between mb-3",
    "flex text-sm",
    None, Some("w-[60%] pr-3"), Some("w-[40%]"), None)

  /** The `cardStyleConfigs[style][orientation]` table. */
  function ConfigTable(style: CardStyle, orientation: Orientation): StyleConfig
  {
    match (style, orientation)
    case (Modern, Portrait) => ModernPortrait
    case (Modern, Landscape) => ModernLandscape
    case (Classic, Portrait) => ClassicPortrait
    case (Classic, Landscape) => ClassicLandscape
    case (Minimal, Portrait) => MinimalPortrait
    case (Minimal, Landscape) => MinimalLandscape
  }

  /** `getCardStyleConfig(style = "modern", orientation = "portrait")`; None is an omitted
      argument.  A landscape configuration splits the front into left and right columns and
      the back into left and right halves; a portrait one has an info column instead. */
  function GetCardStyleConfig(style: Option<CardStyle>, orientation: Option<Orientation>): (c: StyleConfig)
    ensures orientation == Some(Landscape) <==> c.leftContent.Some?
    ensures c.leftContent.Some? <==> c.rightContent.Some?
    ensures c.leftContent.Some? <==> c.backLeftContent.Some? && c.backRightContent.Some?
    ensures c.leftContent.Some? <==> c.infoContainer.None?
    ensures c.leftContent.Some? ==> c.footer.None? && c.bottomBar.None? && c.backFooter.None?
    ensures c.backInfoSection.Some? <==> style == Some(Classic) && c.infoContainer.Some?
    ensures style.None? && orientation.None? ==> c == ModernPortrait
  {
    ConfigTable(if style.Some? then style.value else Modern,
                if orientation.Some? then orientation.value else Portrait)
  }

  /** Omitted arguments select the modern style and the portrait orientation. */
  lemma CardStyleConfigDefaults(style: Option<CardStyle>, orientation: Option<Orientation>)
    ensures GetCardStyleConfig(None, orientation) == GetCardStyleConfig(Some(Modern), orientation)
    ensures GetCardStyleConfig(style, None) == GetCardStyleConfig(style, Some(Portrait))
  {
  }

  // ---------------------------------------------------------------------------

  datatype PhotoStyle = PhotoStyle(boxShadow: string, border: string)
  datatype TextureStyle = TextureStyle(backgroundImage: string, backgroundSize: string)
  datatype StripeStyle = StripeStyle(background: string, boxShadow: string, textureImage: string)
  datatype HologramStyle = HologramStyle(background: string, opacity: real, backdropFilter: string, boxShadow: string)

  /** The object returned by `getRealisticCardStyles`; None stands for an `undefined` member. */
  datatype RealisticStyles = RealisticStyles(
    boxShadow: string,
    backgroundImage: string,
    photo: PhotoStyle,
    texture: TextureStyle,
    magneticStripe: Option<StripeStyle>,
    hologram: Option<HologramStyle>)

  const NoiseTexture: string :=
    "url('data:image/svg+xml;base64,PHN2ZyB4bWxucz0iaHR0cDovL3d3dy53My5vcmcvMjAwMC9zdmciIHdpZHRoPSIzMDAiIGhlaWdodD0iMzAwIj48ZmlsdGVyIGlkPSJhIiB4PSIwIiB5PSIwIj48ZmVUdXJidWxlbmNlIGJhc2VGcmVxdWVuY3k9Ii43NSIgc3RpdGNoVGlsZXM9InN0aXRjaCIgdHlwZT0iZnJhY3RhbE5vaXNlIi8+PGZlQ29sb3JNYXRyaXggdmFsdWVzPSIwIDAgMCAwIDAgIDAgLjA1IDAgMCAwICAwIDAgLjA1IDAgMCAgMCAwIDAgLjA1IDAiLz48L2ZpbHRlcj48cmVjdCB3aWR0aD0iMTAwJSIgaGVpZ2h0PSIxMDAlIiBmaWx0ZXI9InVybCgjYSkiLz48L3N2Zz4=')"

  const CardShadow: string :=
    "0 1px 2px rgba(0,0,0,0.07), 0 2px 4px rgba(0,0,0,0.07), 0 4px 8px rgba(0,0,0,0.07), 0 8px 16px rgba(0,0,0,0.07)"
  const CardGradient: string := "linear-gradient(145deg, #ffffff, #f5f7fa)"
  const RealisticPhoto: PhotoStyle :=
    PhotoStyle("0 1px 3px rgba(0,0,0,0.12), 0 1px 2px rgba(0,0,0,0.24)", "1px solid rgba(0,0,0,0.08)")
  const MagneticStripe: StripeStyle :=
    StripeStyle("linear-gradient(to right, #2d2d2d, #1a1a1a, #2d2d2d)",
                "inset 0 1px 2px rgba(255,255,255,0.1)",
                "repeating-linear-gradient(90deg, transparent, transparent 2px, rgba(0,0,0,0.2) 2px, rgba(0,0,0,0.2) 4px)")
  const Hologram: HologramStyle :=
    HologramStyle("radial-gradient(circle at 30% 30%, rgba(255,255,255,0.8), rgba(255,255,255,0.4), rgba(125,185,232,0.4), rgba(125,185,232,0.1))",
                  0.7, "hue-rotate(45deg)", "inset 0 0 2px rgba(255,255,255,0.6)")

  /** `getRealisticCardStyles(orientation)`: the magnetic stripe and the hologram exist exactly
      on landscape cards. */
  function RealisticCardStyles(orientation: Orientation): (st: RealisticStyles)
    ensures st.magneticStripe.Some? <==> orientation == Landscape
    ensures st.hologram.Some? <==> orientation == Landscape
    ensures st.hologram.Some? ==> st.hologram.value.opacity == 0.7
    ensures st.texture.backgroundSize == "cover"
  {
    RealisticStyles(
      CardShadow, CardGradient, RealisticPhoto, TextureStyle(NoiseTexture, "cover"),
      if orientation == Landscape then Some(MagneticStripe) else None,
      if orientation == Landscape then Some(Hologram) else None)
  }

  /** Apart from the stripe and the hologram, the realistic styles do not depend on the
      orientation. */
  lemma RealisticCommonPartsAgree(a: Orientation, b: Orientation)
    ensures RealisticCardStyles(a).(magneticStripe := None, hologram := None)
            == RealisticCardStyles(b).(magneticStripe := None, hologram := None)
  {
  }

  // ---------------------------------------------------------------------------

  /** The `background` gradient of `getWatermarkStyles`: `-45deg`, transparent from 0 to
      `lineWidth`px, then the colour from `lineWidth`px to `Number(lineWidth) * 2`px. */
  datatype StripeGradient = StripeGradient(
    angleDeg: int, transparentTo: string, color: Rgba, colorFrom: string, colorTo: Number)

  datatype WatermarkText = WatermarkText(
    color: Rgba, letterSpacing: string, width: string, fontSizeRem: Number, rotateDeg: string)

  datatype WatermarkStyles = WatermarkStyles(background: StripeGradient, text: WatermarkText)

  /** The rgba colour both watermark layers draw: `hexToRgba` of the watermark colour at
      `Number(opacity) / 100`. */
  function OverlayColor(f: Fields): Rgba
  {
    HexToRgba(ValueToString(Get(f, "watermarkColor")),
              Some(DivBy(ValueToNumber(Get(f, "watermarkOpacity")), 100.0)))
  }

  /** Where the coloured band of a stripe ends: `Number(lineWidth) * 2` px. */
  function BandEnd(f: Fields): Number
  {
    Times(ValueToNumber(Get(f, "watermarkLineWidth")), 2.0)
  }

  /** The text size: `Number(size) * 0.8 + 1.5` rem. */
  function TextSizeRem(f: Fields): Number
  {
    Plus(Times(ValueToNumber(Get(f, "watermarkSize")), 0.8), 1.5)
  }

  /** `getWatermarkStyles(formData)`: both layers draw the one overlay colour; the stripe is
      transparent up to the line width and coloured from there to twice it. */
  function GetWatermarkStyles(f: Fields): (st: WatermarkStyles)
    ensures st.background.angleDeg == -45
    ensures st.background.transparentTo == st.background.colorFrom == ValueToString(Get(f, "watermarkLineWidth"))
    ensures st.background.color == st.text.color == OverlayColor(f)
    ensures st.background.colorTo == BandEnd(f)
    ensures st.text.fontSizeRem == TextSizeRem(f)
    ensures st.text.rotateDeg == ValueToString(Get(f, "watermarkAngle"))
    ensures st.text.letterSpacing == "2px" && st.text.width == "100%"
  {
    var rgba := OverlayColor(f);
    var lineWidth := Get(f, "watermarkLineWidth");
    WatermarkStyles(
      StripeGradient(-45, ValueToString(lineWidth), rgba, ValueToString(lineWidth), BandEnd(f)),
      WatermarkText(rgba, "2px", "100%", TextSizeRem(f), ValueToString(Get(f, "watermarkAngle"))))
  }

  /** A form value that is an integer, or the decimal string of one, converts to that number. */
  lemma ValueToNumberOfInteger(v: Value, n: int)
    requires v == Int(n) || v == Str(IntToString(n))
    ensures ValueToNumber(v) == Real(n as real)
  {
    if v.Str? {
      ToNumberOfIntToString(n);
    }
  }

  /** An opacity that converts to the number v gives the overlay the alpha v / 100. */
  lemma WatermarkAlpha(f: Fields, v: real)
    requires ValueToNumber(Get(f, "watermarkOpacity")) == Real(v)
    ensures OverlayColor(f).alpha == Real(v / 100.0)
  {
    PercentAlpha(ValueToString(Get(f, "watermarkColor")), ValueToNumber(Get(f, "watermarkOpacity")), v);
  }

  /** Any colour at the number v, as a percentage, has the alpha v / 100. */
  lemma PercentAlpha(hex: string, x: Number, v: real)
    requires x == Real(v)
    ensures HexToRgba(hex, Some(DivBy(x, 100.0))).alpha == Real(v / 100.0)
  {
    DivByReal(v, 100.0);
  }

  /** A line width that converts to the number v ends the coloured band at 2v px. */
  lemma WatermarkBandWidth(f: Fields, v: real)
    requires ValueToNumber(Get(f, "watermarkLineWidth")) == Real(v)
    ensures BandEnd(f) == Real(2.0 * v)
  {
  }

  /** A watermark size that converts to the number v sets the font size to v * 0.8 + 1.5 rem. */
  lemma WatermarkFontSize(f: Fields, v: real)
    requires ValueToNumber(Get(f, "watermarkSize")) == Real(v)
    ensures TextSizeRem(f) == Real(v * 0.8 + 1.5)
  {
  }
}
