/** What the certificate preview draws from the design fields
    (components/certificate/CertificatePreview.tsx): whether the line and the text watermark
    show, the grid of text tiles, the line gradient's angle, the border and the decorative
    pattern. */
module CertificatePreview {
  import opened Js
  import opened CertificateDesign
  import Utils

  /** The design fields the preview reads.  Sizes and angles are the form's strings; the two
      opacities are slider numbers. */
  datatype Design = Design(
    enableWatermark: bool,
    watermarkText: string,
    watermarkSize: string,
    watermarkAngle: string,
    watermarkOpacity: int,
    watermarkColor: string,
    watermarkLineWidth: string,
    enableBorder: bool,
    borderStyle: string,
    borderColor: string,
    enablePattern: bool,
    patternType: string,
    patternPosition: string,
    patternSize: string,
    patternColor: string,
    patternOpacity: int,
    headerColor: string)

  // ---------------------------------------------------------------------------
  // Which watermark shows.

  /** `showLineWatermark`: the line switch of the design form reads the same test.  A text
      that is only the marker shows no line, and a shown line over some text comes with the
      text watermark too. */
  predicate ShowLine(d: Design)
    ensures ShowLine(d) ==> d.enableWatermark
    ensures Trim(d.watermarkText) == Marker ==> !ShowLine(d)
    ensures ShowLine(d) && d.watermarkText != "" ==> ShowText(d)
  {
    MarkerOnlyIsTrim(d.watermarkText);
    LineOn(d.enableWatermark, d.watermarkText)
  }

  /** `showTextWatermark`: the text switch's test, under the watermark flag.  Read through
      `trim`, the regular expression leaves the text watermark on exactly when the flag is on
      and the text is neither empty nor the marker with blanks around it. */
  predicate ShowText(d: Design)
    ensures ShowText(d) <==> d.enableWatermark && d.watermarkText != "" && Trim(d.watermarkText) != Marker
  {
    MarkerOnlyIsTrim(d.watermarkText);
    d.enableWatermark && TextOn(d.watermarkText)
  }

  /** `watermarkTextContent`: the words each tile shows. */
  function Content(d: Design): (r: string)
    ensures NoEdgeSpace(r)
    ensures !LineDisabled(d.watermarkText) ==> r == Trim(d.watermarkText)
  {
    Visible(d.watermarkText)
  }

  /** Turning the text switch on makes the preview show the text watermark, with the words the
      switch chose. */
  lemma SwitchedOnShows(d: Design)
    requires d.enableWatermark && !LineDisabled(Visible(d.watermarkText))
    ensures ShowText(d.(watermarkText := ToggleText(d.watermarkText, true)))
    ensures Content(d.(watermarkText := ToggleText(d.watermarkText, true)))
            == OrElse(Visible(d.watermarkText), DefaultText)
  {
  }

  /** Turning the line switch off hides the line watermark, and on (over a marker-free text)
      shows it whenever the flag is on. */
  lemma LineSwitchShows(d: Design)
    ensures !ShowLine(d.(watermarkText := ToggleLine(d.watermarkText, false)))
    ensures !LineDisabled(d.watermarkText) ==>
              (ShowLine(d.(watermarkText := ToggleLine(d.watermarkText, true))) <==> d.enableWatermark)
  {
    if !LineDisabled(d.watermarkText) {
      TrimKeepsAbsence(d.watermarkText, Marker);
    }
  }

  // ---------------------------------------------------------------------------
  // The text tiles.

  /** `parseInt(watermarkSize) || 14`. */
  function FontSize(d: Design): (s: int)
    ensures ParseInt(d.watermarkSize, 0).Some? && ParseInt(d.watermarkSize, 0).value != 0 ==>
              s == ParseInt(d.watermarkSize, 0).value
    ensures ParseInt(d.watermarkSize, 0).None? || ParseInt(d.watermarkSize, 0).value == 0 ==> s == 14
  {
    IntOr(ParseInt(d.watermarkSize, 0), 14)
  }

  /** The horizontal step between tiles shrinks by 3 per font-size point. */
  function Density(size: int): int
  {
    180 - size * 3
  }

  /** `Math.max(40, density / 2)`. */
  function RowSpacing(density: int): (r: real)
    ensures r >= 40.0
    ensures r == 40.0 || r == density as real / 2.0
    ensures density >= 80 ==> r == density as real / 2.0
  {
    if density as real / 2.0 > 40.0 then density as real / 2.0 else 40.0
  }

  /** The rotation of every tile: `parseInt(watermarkAngle) || -30`. */
  function TileAngle(d: Design): (a: int)
    ensures ParseInt(d.watermarkAngle, 0).Some? && ParseInt(d.watermarkAngle, 0).value != 0 ==>
              a == ParseInt(d.watermarkAngle, 0).value
    ensures ParseInt(d.watermarkAngle, 0).None? || ParseInt(d.watermarkAngle, 0).value == 0 ==> a == -30
  {
    IntOr(ParseInt(d.watermarkAngle, 0), -30)
  }

  /** The angle of the line gradient: the string `watermarkAngle || "-30"`. */
  function LineAngle(d: Design): (a: string)
    ensures d.watermarkAngle != "" ==> a == d.watermarkAngle
    ensures d.watermarkAngle == "" ==> a == "-30"
  {
    OrElse(d.watermarkAngle, "-30")
  }

  /** The two fallbacks disagree on a zero angle: the line keeps 0 degrees, the tiles turn to
      -30. */
  lemma ZeroAngle(d: Design)
    requires d.watermarkAngle == "0"
    ensures LineAngle(d) == "0" && TileAngle(d) == -30
  {
    IntToStringRoundTrip(0, 0);
    assert IntToString(0) == "0";
  }

  /** The line watermark's `repeating-linear-gradient`: its angle, the width of the transparent
      band, the stripe colour, and where the coloured band ends. */
  datatype LineGradient = LineGradient(angle: string, clearUntil: string, color: Utils.Rgba, colorUntil: Number)

  /** One channel of the stripe colour: `parseInt(watermarkColor.slice(i, i + 2) || "00", 16)`. */
  function StripeChannel(color: string, i: nat): Option<int>
  {
    ParseInt(OrElse(Slice(color, i, i + 2), "00"), 16)
  }

  /** The gradient of the line watermark: transparent up to `watermarkLineWidth || "10"` px, then
      the stripe colour at `watermarkOpacity / 100` up to twice that width. */
  function LineStripes(d: Design): (g: LineGradient)
    ensures g.angle == LineAngle(d)
    ensures d.watermarkLineWidth != "" ==> g.clearUntil == d.watermarkLineWidth
    ensures d.watermarkLineWidth == "" ==> g.clearUntil == "10" && g.colorUntil == Real(20.0)
    ensures forall n: int :: d.watermarkLineWidth == IntToString(n) ==> g.colorUntil == Real(2.0 * n as real)
    ensures g.color.alpha == Real(d.watermarkOpacity as real / 100.0)
  {
    var width := OrElse(d.watermarkLineWidth, "10");
    WidthReads(d.watermarkLineWidth);
    LineGradient(LineAngle(d), width,
                 Utils.Rgba(StripeChannel(d.watermarkColor, 1), StripeChannel(d.watermarkColor, 3),
                            StripeChannel(d.watermarkColor, 5), Real(d.watermarkOpacity as real / 100.0)),
                 Times(ToNumber(width), 2.0))
  }

  /** `Number(watermarkLineWidth || "10")`: 10 for the empty width, `n` for the digits of `n`. */
  lemma WidthReads(w: string)
    ensures w == "" ==> ToNumber(OrElse(w, "10")) == Real(10.0)
    ensures forall n: int :: w == IntToString(n) ==> ToNumber(OrElse(w, "10")) == Real(n as real)
  {
    if w == "" {
      ToNumberOfIntToString(10);
      assert IntToString(10) == "10";
    }
    forall n: int | w == IntToString(n) ensures ToNumber(OrElse(w, "10")) == Real(n as real) {
      ToNumberOfIntToString(n);
    }
  }

  /** On a well-formed `#rrggbb` colour the stripes have the channels `hexToRgba` reads. */
  lemma StripesFollowHex(d: Design)
    requires Utils.WellFormedHex(d.watermarkColor)
    ensures var c := LineStripes(d).color;
            var h := Utils.HexToRgba(d.watermarkColor, None);
            c.r == h.r && c.g == h.g && c.b == h.b
  {
    var s := d.watermarkColor;
    assert Slice(s, 1, 3) != "" && Slice(s, 3, 5) != "" && Slice(s, 5, 7) != "";
    Utils.ChannelOfPair(s, 1);
    Utils.ChannelOfPair(s, 3);
    Utils.ChannelOfPair(s, 5);
  }

  /** A colour with no channel digits (empty, or just "#") falls back to "00": the stripes are
      black, where `hexToRgba` would read NaN for every channel. */
  lemma ShortColorIsBlack(d: Design)
    requires |d.watermarkColor| <= 1
    ensures var c := LineStripes(d).color;
            c.r == Some(0) && c.g == Some(0) && c.b == Some(0)
    ensures Utils.HexToRgba(d.watermarkColor, None).r.None?
  {
    EmptySliceFallsBack(d.watermarkColor, 1);
    EmptySliceFallsBack(d.watermarkColor, 3);
    EmptySliceFallsBack(d.watermarkColor, 5);
    ShortHexHasNoRed(d.watermarkColor);
  }

  /** A slice that starts past the end of the colour is empty and reads as the "00" fallback. */
  lemma EmptySliceFallsBack(color: string, i: nat)
    requires |color| <= i
    ensures StripeChannel(color, i) == Some(0)
  {
    assert Slice(color, i, i + 2) == "";
    ZeroZeroParses();
  }

  /** `hexToRgba` has no fallback: the red channel of a colour without digits is NaN. */
  lemma ShortHexHasNoRed(color: string)
    requires |color| <= 1
    ensures Utils.HexToRgba(color, None).r.None?
  {
    assert !Utils.WellFormedHex(color);
    assert Slice(color, 1, 3) == "";
    EmptyParsesNaN();
  }

  /** `parseInt("00", 16)` is 0. */
  lemma ZeroZeroParses()
    ensures ParseInt("00", 16) == Some(0)
  {
    Utils.ChannelOfPair("00", 0);
    assert Slice("00", 0, 2) == "00";
    Utils.HexByteValue('0', '0');
  }

  /** `parseInt("", 16)` is NaN. */
  lemma EmptyParsesNaN()
    ensures ParseInt("", 16).None?
  {
  }

  /** The opacity of every tile, three times the slider's percentage. */
  function TileOpacity(d: Design): (o: real)
    ensures o * 100.0 == 3.0 * d.watermarkOpacity as real
  {
    (d.watermarkOpacity as real / 100.0) * 3.0
  }

  /** One tile: its grid position and the left and top offsets in pixels. */
  datatype Tile = Tile(row: int, col: int, x: real, y: real)

  /** `xPos = col * density + ((row % 2) * density) / 2`, `yPos = row * rowSpacing`. */
  function TileAt(row: int, col: int, density: int): (t: Tile)
  {
    Tile(row, col, (col * density) as real + (JsRem(row, 2) * density) as real / 2.0,
         row as real * RowSpacing(density))
  }

  /** Odd rows are shifted by half a step: to the right for positive rows and to the left for
      negative ones, because the remainder of a negative odd row is -1. */
  lemma TileShift(row: int, col: int, density: int)
    ensures row % 2 == 0 ==> TileAt(row, col, density).x == (col * density) as real
    ensures row % 2 == 1 && row > 0 ==>
              TileAt(row, col, density).x == (col * density) as real + density as real / 2.0
    ensures row % 2 == 1 && row < 0 ==>
              TileAt(row, col, density).x == (col * density) as real - density as real / 2.0
    ensures TileAt(row, col, density).y == row as real * RowSpacing(density)
  {
    var r := JsRem(row, 2);
    var q :| row == q * 2 + r;
    if row % 2 == 0 {
      assert r == 0;
    } else if row > 0 {
      assert r == 1;
    } else {
      assert r == -1;
    }
  }

  const Rows := 35
  const Cols := 17

  /** The grid in the order the loops push it: rows -5 to 29, and in each row columns -2
      to 14. */
  function TileGrid(density: int): (g: seq<Tile>)
    ensures |g| == Rows * Cols
  {
    seq(Rows * Cols, i requires 0 <= i < Rows * Cols => TileAt(-5 + i / Cols, -2 + i % Cols, density))
  }

  /** The index of grid position (row, col) in push order. */
  lemma GridIndex(r: int, c: int)
    requires 0 <= r && 0 <= c < Cols
    ensures (r * Cols + c) / Cols == r && (r * Cols + c) % Cols == c
  {
  }

  /** Every position of the 35 x 17 grid carries exactly one tile: the one at index
      `(row + 5) * 17 + (col + 2)`, and no other index holds that position. */
  lemma TileGridCovers(density: int, row: int, col: int)
    requires -5 <= row < 30 && -2 <= col < 15
    ensures TileGrid(density)[(row + 5) * Cols + (col + 2)] == TileAt(row, col, density)
    ensures forall i :: 0 <= i < Rows * Cols && TileGrid(density)[i].row == row && TileGrid(density)[i].col == col
                        ==> i == (row + 5) * Cols + (col + 2)
  {
    GridIndex(row + 5, col + 2);
    forall i | 0 <= i < Rows * Cols && TileGrid(density)[i].row == row && TileGrid(density)[i].col == col
      ensures i == (row + 5) * Cols + (col + 2)
    {
      assert i == (i / Cols) * Cols + i % Cols;
    }
  }

  /** The first tiles of the grid, in push order. */
  predicate GridPrefix(tiles: seq<Tile>, density: int)
  {
    forall i :: 0 <= i < |tiles| ==> tiles[i] == TileAt(-5 + i / Cols, -2 + i % Cols, density)
  }

  /** Pushing the tile of (row, col) at its own index extends the prefix. */
  lemma PushTile(tiles: seq<Tile>, row: int, col: int, density: int)
    requires GridPrefix(tiles, density) && -5 <= row && -2 <= col < 15
    requires |tiles| == (row + 5) * Cols + (col + 2)
    ensures GridPrefix(tiles + [TileAt(row, col, density)], density)
  {
    GridIndex(row + 5, col + 2);
  }

  /** `getWatermarkTextElements()`: nothing when the text watermark is hidden, otherwise the
      595 tiles of the grid. */
  method TextTiles(d: Design) returns (tiles: seq<Tile>)
    ensures !ShowText(d) ==> tiles == []
    ensures ShowText(d) ==> tiles == TileGrid(Density(FontSize(d)))
    ensures ShowText(d) ==> |tiles| == 595
  {
    if !ShowText(d) {
      return [];
    }
    tiles := GridTiles(Density(FontSize(d)));
  }

  /** The nested loops of `getWatermarkTextElements()`: rows -5 to 29, columns -2 to 14, the
      tiles computed row by row. */
  method GridTiles(density: int) returns (tiles: seq<Tile>)
    ensures tiles == TileGrid(density)
    ensures |tiles| == 595
  {
    tiles := [];
    var row := -5;
    while row < 30
      invariant -5 <= row <= 30
      invariant |tiles| == (row + 5) * Cols
      invariant GridPrefix(tiles, density)
    {
      var col := -2;
      while col < 15
        invariant -2 <= col <= 15
        invariant |tiles| == (row + 5) * Cols + (col + 2)
        invariant GridPrefix(tiles, density)
      {
        PushTile(tiles, row, col, density);
        tiles := tiles + [TileAt(row, col, density)];
        col := col + 1;
      }
      row := row + 1;
    }
  }

  // ---------------------------------------------------------------------------
  // Border and pattern.

  /** `borderStyle`: a one-pixel frame with 16px padding, or no style at all. */
  datatype Frame = NoFrame | Framed(border: string, padding: string)

  function BorderFrame(d: Design): (f: Frame)
    ensures f.Framed? <==> d.enableBorder
    ensures f.Framed? ==> f.border == "1px " + d.borderStyle + " " + d.borderColor && f.padding == "16px"
  {
    if d.enableBorder then Framed("1px " + d.borderStyle + " " + d.borderColor, "16px") else NoFrame
  }

  /** What `getPatternElement()` draws.  Corner brackets come in pairs: the two top ones share
      one condition, the two bottom ones another. */
  datatype Pattern =
    | NoPattern
    | Corners(top: bool, bottom: bool, size: int, color: string, opacity: real)
    | BorderLines(stripes: bool, size: int, color: string, opacity: real)
    | Dots(size: int, color: string, opacity: real)
    | Badge(diameter: int, color: string, opacity: real)

  /** `parseInt(patternSize) || 30`. */
  function PatternSize(d: Design): int
  {
    IntOr(ParseInt(d.patternSize, 0), 30)
  }

  predicate TopCorners(position: string)
  {
    position == "all" || position == "corners" || position == "top"
  }

  predicate BottomCorners(position: string)
  {
    position == "all" || position == "corners" || position == "bottom"
  }

  function PatternOf(d: Design): (p: Pattern)
    ensures !d.enablePattern ==> p == NoPattern
    ensures p.Corners? <==> d.enablePattern && d.patternType == "corner"
    ensures p.BorderLines? <==> d.enablePattern && d.patternType == "border"
    ensures p.Dots? <==> d.enablePattern && d.patternType == "background"
    ensures p.Badge? <==> d.enablePattern && d.patternType == "badge"
    ensures p.Corners? ==> (p.top <==> TopCorners(d.patternPosition))
                           && (p.bottom <==> BottomCorners(d.patternPosition))
    ensures p.BorderLines? ==> (p.stripes <==> d.patternPosition == "all")
    ensures p.Badge? ==> p.diameter == 2 * PatternSize(d)
    ensures !p.NoPattern? ==> p.opacity * 100.0 == d.patternOpacity as real
    ensures !p.NoPattern? ==> p.color == OrElse(d.patternColor, d.headerColor)
  {
    if !d.enablePattern then NoPattern
    else
      var size := PatternSize(d);
      var color := OrElse(d.patternColor, d.headerColor);
      var opacity := d.patternOpacity as real / 100.0;
      if d.patternType == "corner" then
        Corners(TopCorners(d.patternPosition), BottomCorners(d.patternPosition), size, color, opacity)
      else if d.patternType == "border" then
        BorderLines(d.patternPosition == "all", size, color, opacity)
      else if d.patternType == "background" then Dots(size, color, opacity)
      else if d.patternType == "badge" then Badge(size * 2, color, opacity)
      else NoPattern
  }

  /** The positions "left" and "right" are offered by the form but draw no corner at all. */
  lemma SideCornersDrawNothing(d: Design)
    requires d.enablePattern && d.patternType == "corner"
    requires d.patternPosition == "left" || d.patternPosition == "right"
    ensures PatternOf(d).Corners? && !PatternOf(d).top && !PatternOf(d).bottom
  {
  }

  /** "all" and "corners" draw all four brackets; "top" and "bottom" draw two. */
  lemma CornerPairs(d: Design)
    requires d.enablePattern && d.patternType == "corner"
    ensures d.patternPosition == "all" || d.patternPosition == "corners" ==>
              PatternOf(d).top && PatternOf(d).bottom
    ensures d.patternPosition == "top" ==> PatternOf(d).top && !PatternOf(d).bottom
    ensures d.patternPosition == "bottom" ==> !PatternOf(d).top && PatternOf(d).bottom
  {
  }
}
