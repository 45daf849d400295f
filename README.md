# Thermostat readout and control glyphs

A Dafny model of the drawing core of the air-conditioner simulator's
thermostat UI:

- the seven-segment temperature readout of `Source/TemperatureUI.cpp`:
  - the digit mask table, `clampInt`, `drawDigit` and `drawMinus`;
  - `drawTemperatureValue`: clamp to [-99, 99], split into sign, tens and
    ones, centre on the screen, draw left to right;
- the status icon of the same file: heat, snow or check, chosen from the gap
  `desired - current` with a dead band of ±0.25;
- the hit test and the up/down half-arrow buttons of `Source/Controls.cpp`.

The 2D renderer is external to the model. `Geometry.Renderer` is a class
whose `trace` field is a sequence of draw calls; each primitive
(`DrawRect`, `DrawTriangle`, `DrawCircle`) appends one entry.

Every drawing routine is an imperative method that mirrors the source:
- it declares `modifies renderer`;
- it is proved to append exactly the draws given by a pure specification
  function (`DigitDraws`, `TemperatureDraws`, `CheckDraws`, ...).

The properties are proved as lemmas about those functions:
- the mask table against the classic seven-segment encoding;
- the clamping and the round trip of the numeral;
- the layout of the readout: centred, one advance per glyph, ones digit last;
- the three-way icon choice and the shape of each icon;
- the geometry of the arrows.

How the source's routines map onto members:
- `drawDigit` is split into three methods. `DrawDigit` does the range check
  and the mask lookup. `DrawLitSegments` is the loop over the seven
  segments, with the mask as a parameter. `DrawSegmentIfLit` is that loop's
  body.
- The loop's bit test `mask & (1 << i)` is the predicate `Lit`. The
  segment table is the function `SegmentBox`.
- `drawTemperatureValue` is split in two. `DrawTemperatureValue` computes
  the clamp, the digits, the total width and the start position.
  `DrawNumeral` is the left-to-right drawing with the moving cursor.
- The property of `totalWidth` is stated by the lemma `TotalWidthPerGlyph`,
  not as an `ensures` on `TotalWidth`.
- The icon colours are module constants. The tolerance of 0.25 is local
  to `drawStatusIcon`, and `SelectIcon` uses the same value.

Modules:
- `Geometry` (`geometry.dfy`): rectangles, colours, draw calls and the renderer;
- `TemperatureUI` (`temperature_ui.dfy`): `Source/TemperatureUI.cpp`;
- `Controls` (`controls.dfy`): `Source/Controls.cpp`.

## Model

| member | source | states |
|---|---|---|
| TemperatureUI.ClampInt | Source/TemperatureUI.cpp:28-33 | With lo <= hi the result lies in [lo, hi]; a value already in range is returned unchanged. |
| TemperatureUI.ClampIsNearest | Source/TemperatureUI.cpp:28-33 | The clamped value is the point of [lo, hi] nearest to v. |
| TemperatureUI.LitBelowSpec | Source/TemperatureUI.cpp:50-58 | The segment scan lists exactly the segments whose mask bit is set, each once, in increasing order A..G. |
| TemperatureUI.ScanStep | Source/TemperatureUI.cpp:51-57 | One loop iteration appends the draw of segment i when its bit is set and nothing otherwise. |
| TemperatureUI.DrawSegmentIfLit | Source/TemperatureUI.cpp:53-57 | The body of the segment loop appends segment i's rectangle, offset by the cell corner, when its mask bit is set, and nothing otherwise. |
| TemperatureUI.DrawLitSegments | Source/TemperatureUI.cpp:50-58 | The loop over the seven segments appends one rectangle per set bit of the mask, in segment order, offset by the cell corner. |
| TemperatureUI.DrawDigit | Source/TemperatureUI.cpp:35-59 | Appends the digit's draws; a digit outside 0..9 leaves the trace unchanged. |
| TemperatureUI.PlaceSegmentsAt | Source/TemperatureUI.cpp:39-57 | Draw k of a digit is the rectangle from the segment table for the k-th lit segment, shifted by (x, y). |
| TemperatureUI.MasksMatchStandardEncoding | Source/TemperatureUI.cpp:14-26 | For every digit and segment, the mask bit is set exactly when the classic seven-segment encoding lights that segment. |
| TemperatureUI.ScanMatchesStandard | Source/TemperatureUI.cpp:14-58 | For every digit, scanning the mask segment by segment lists exactly the segments the classic encoding lights, in order A..G. |
| TemperatureUI.LitSegmentsTable | Source/TemperatureUI.cpp:14-58 | The segments each digit 0..9 lights are the classic encoding's, exactly and in order A..G. |
| TemperatureUI.DigitDrawsStandard | Source/TemperatureUI.cpp:35-59 | A digit glyph is one rectangle per segment the classic encoding lights, in order A..G, at the cell corner. |
| TemperatureUI.DigitLightsStandardSegments | Source/TemperatureUI.cpp:14-58 | A drawn digit lights a segment iff the classic encoding lights it. |
| TemperatureUI.DigitDrawsPerSetBit | Source/TemperatureUI.cpp:35-59 | A digit glyph is one rectangle per set bit, in increasing segment order, and every set bit is drawn. |
| TemperatureUI.DigitDrawCounts | Source/TemperatureUI.cpp:15-58 | 8 draws seven rectangles; 0 draws six and leaves G dark. |
| TemperatureUI.DigitOneSevenDraws | Source/TemperatureUI.cpp:15-58 | 1 draws segments B and C only, in that order; 7 draws three rectangles. |
| TemperatureUI.DigitDrawsEmptyIff | Source/TemperatureUI.cpp:37-58 | A digit draws nothing exactly when it is outside 0..9. |
| TemperatureUI.MinusDraws | Source/TemperatureUI.cpp:61-65 | The minus sign is a single rectangle, identical to segment G of a digit cell at the same corner. |
| TemperatureUI.DrawMinus | Source/TemperatureUI.cpp:61-65 | Appends exactly the minus-sign rectangle. |
| TemperatureUI.Decompose | Source/TemperatureUI.cpp:114-119 | Tens and ones are digits in 0..9; the sign is set iff the value is negative; a tens digit is shown iff it is non-zero; sign, tens and ones read back as the clamped value. |
| TemperatureUI.DecomposeRoundTrip | Source/TemperatureUI.cpp:114-119 | Every value in [-99, 99] is read back unchanged from its numeral. |
| TemperatureUI.DecomposeSaturates | Source/TemperatureUI.cpp:114 | Every value at or above 99 decomposes like 99; every value at or below -99 decomposes like -99. |
| TemperatureUI.GlyphsOfValue | Source/TemperatureUI.cpp:115-144 | The minus sign appears iff the value is negative, and only first; the tens digit appears iff the clamped magnitude is at least 10; the ones digit is last; the glyph count is 1 to 3; every digit is in 0..9. |
| TemperatureUI.TotalWidthPerGlyph | Source/TemperatureUI.cpp:121-126 | The computed total width is one cell plus one spacing per glyph, the minus sign included, less the trailing spacing. |
| TemperatureUI.StartX | Source/TemperatureUI.cpp:128 | The numeral is centred horizontally on the screen. |
| TemperatureUI.StartY | Source/TemperatureUI.cpp:129 | The numeral is centred vertically on the screen. |
| TemperatureUI.PlaceAt | Source/TemperatureUI.cpp:130-142 | Glyph k keeps its position in the order and sits k advances to the right of the first. |
| TemperatureUI.PlaceInParts | Source/TemperatureUI.cpp:130-144 | The cursor visits the minus sign at startX, the tens digit one advance later, and the ones digit one advance after the last glyph before it. |
| TemperatureUI.PlaceLast | Source/TemperatureUI.cpp:121-144 | Whatever the sign and the tens digit, the last glyph placed is the ones digit, in the cell ending at the total width from the start. |
| TemperatureUI.LayoutLast | Source/TemperatureUI.cpp:121-144 | The last glyph of the readout is the ones digit of the clamped value, in the cell ending at the right edge of the centred numeral. |
| TemperatureUI.LayoutDigitsInRange | Source/TemperatureUI.cpp:115-144 | Every digit glyph the readout draws is in 0..9, so the range check of `drawDigit` never discards one. |
| TemperatureUI.LayoutGeometry | Source/TemperatureUI.cpp:121-144 | The glyphs are one advance apart from the centred start, and the ones digit's cell ends exactly at the right edge of the computed total width. |
| TemperatureUI.RenderInParts | Source/TemperatureUI.cpp:132-144 | The readout's draws are the minus sign's (if negative), then the tens digit's (if any), then the ones digit's, each at its cursor position. |
| TemperatureUI.TemperatureClamps | Source/TemperatureUI.cpp:113-114 | A value at or above 99 is drawn identically to 99; a value at or below -99 identically to -99. |
| TemperatureUI.NumeralEndsWithOnes | Source/TemperatureUI.cpp:130-144 | For any numeral drawn from any start, the draws end with the ones digit's, in the cell ending the total width to the right of the start, after the draws of the other glyphs. |
| TemperatureUI.OnesDigitDrawnLast | Source/TemperatureUI.cpp:138-144 | The readout's draws end with the ones digit's, in the cell that ends at the right edge of the numeral, after the draws of the glyphs before it. |
| TemperatureUI.DrawNumeral | Source/TemperatureUI.cpp:130-144 | Drawing minus, tens and ones with the cursor advancing after each appends exactly the draws of the numeral placed from the start position. |
| TemperatureUI.DrawTemperatureValue | Source/TemperatureUI.cpp:111-145 | Appends exactly the readout's draws for the rounded value. |
| TemperatureUI.SelectIcon | Source/TemperatureUI.cpp:153-172 | Heat iff the gap exceeds 0.25; snow iff it is below -0.25; check iff it lies in [-0.25, 0.25], both ends inclusive. |
| TemperatureUI.SelectIconMonotone | Source/TemperatureUI.cpp:161-172 | Raising the desired temperature never moves the icon from heat toward check or from check toward snow. |
| TemperatureUI.HeatDraws | Source/TemperatureUI.cpp:67-72 | The flame is two circles centred on cx, outer then inner colour, then an outer-coloured square (width equals height) centred on cx. |
| TemperatureUI.DrawHeatIcon | Source/TemperatureUI.cpp:67-72 | Appends exactly the flame's three draws. |
| TemperatureUI.SnowDraws | Source/TemperatureUI.cpp:74-87 | The snowflake is six rectangles, all in the given colour. |
| TemperatureUI.DrawSnowIcon | Source/TemperatureUI.cpp:74-87 | Appends exactly the snowflake's six draws. |
| TemperatureUI.SnowIconSymmetric | Source/TemperatureUI.cpp:74-87 | The snowflake is symmetric about the vertical and the horizontal axis through its centre. |
| TemperatureUI.Stroke | Source/TemperatureUI.cpp:95-107 | A stroke of n squares: every draw is a dot-by-dot square in the given colour. |
| TemperatureUI.StrokeStep | Source/TemperatureUI.cpp:95-107 | Consecutive squares are 1.1 dot apart to the right, and 1.1 dot down or up. |
| TemperatureUI.StrokeSnoc | Source/TemperatureUI.cpp:95-99 | One loop iteration extends the stroke by the square one step further along it. |
| TemperatureUI.DrawCheckIcon | Source/TemperatureUI.cpp:89-108 | The two loops append exactly the four descending and then the six ascending squares. |
| TemperatureUI.CheckIconStaircase | Source/TemperatureUI.cpp:89-108 | The checkmark is ten equal squares: 0..3 step down-right, 4..9 step up-right, and square 3 coincides with square 4 (the corner is drawn twice). |
| TemperatureUI.DrawStatusIcon | Source/TemperatureUI.cpp:147-173 | Appends exactly the draws of the selected icon, centred on the screen and sized at 0.35 of the smaller side. |
| TemperatureUI.StatusDrawsOneIcon | Source/TemperatureUI.cpp:147-173 | Exactly one whole icon is drawn, and it is the selected one. |
| Controls.PointInRect | Source/Controls.cpp:3-6 | A point can only be inside a rectangle of non-negative width and height. |
| Controls.NegativeExtentContainsNothing | Source/Controls.cpp:5 | A rectangle with negative width or height contains no point. |
| Controls.CornersInside | Source/Controls.cpp:5 | All four edges are inclusive: the four corners of a rectangle are inside it. |
| Controls.ContainmentIsIntervalProduct | Source/Controls.cpp:5 | A point is inside exactly when it is in both the horizontal and the vertical closed interval. |
| Controls.HalfArrowDraws | Source/Controls.cpp:8-30 | Two draws: the full button rectangle in the background colour, then a triangle in the arrow colour. |
| Controls.DrawHalfArrow | Source/Controls.cpp:8-30 | Appends exactly the background and the arrow. |
| Controls.ArrowSymmetricAboutCenter | Source/Controls.cpp:10-29 | The apex is on the vertical centre line, the base is horizontal, and its ends are inset by 22% of the width, symmetric about the apex. |
| Controls.ArrowLevelsSymmetric | Source/Controls.cpp:11-14 | The top and bottom levels are symmetric about the horizontal centre line. |
| Controls.UpDownMirror | Source/Controls.cpp:13-29 | The down arrow is the up arrow reflected across the horizontal centre line and vice versa; the up apex is at the top level, the down apex at the bottom. |
| Controls.ArrowPointsOutwardIff | Source/Controls.cpp:12-29 | The up arrow points up, and the down arrow down, iff the button is taller than 0.44 times its width. |
| Controls.ArrowInsideButton | Source/Controls.cpp:3-30 | When the button has a non-negative width and is at least 0.44 times as tall as it is wide, all three vertices of the arrow pass the hit test for the button. |

## Left out

- The `float value` input of `drawTemperatureValue`:
  - `std::round` and the conversion to `int` are not modelled;
  - `DrawTemperatureValue` and `TemperatureDraws` take the already-rounded integer;
  - the ties-away-from-zero rounding, NaN and out-of-`int` floats are therefore outside the model.
- Floating point: coordinates and factors (0.22, 0.35, 1.1, ...) are exact reals, so no `float` rounding error is modelled. The clamp and the digit arithmetic are exact integer operations in the source too.
- SelectIcon: the temperatures `desired` and `current` and the gap `diff` are exact reals. Rounding of the `float` subtraction is not modelled. Neither is a NaN gap, which the source shows as the check icon because both comparisons are false.
- The renderer (`Renderer2D`) and its headers are not part of this model: each primitive draw is recorded in `Renderer.trace`, and what it puts on the screen is not modelled.
- `std::min` in `drawStatusIcon` is written as a comparison; it gives the same value for all reals (NaN is not modelled).
- Arrow direction: `isUp` puts the apex at `topY` and the base at `bottomY`. The apex is above the base only when the button is taller than 0.44 times its width (`ArrowPointsOutwardIff`), and `drawHalfArrow` does not enforce this.
