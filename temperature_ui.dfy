/** The thermostat readout (Source/TemperatureUI.cpp): a seven-segment
    numeral of the rounded temperature, and a status icon chosen from the gap
    between the desired and the current temperature. */
module TemperatureUI {
  import opened Geometry

  datatype Option<T> = None | Some(value: T)

  // ---------------------------------------------------------------------
  // Digit cell geometry

  const DigitWidth: real := 18.0
  const DigitHeight: real := 32.0
  const DigitThickness: real := 3.0
  const DigitSpacing: real := 6.0

  /** How far the cursor moves from one glyph cell to the next. */
  const Advance: real := DigitWidth + DigitSpacing

  /** Lit segments per digit, bit 0 = segment A ... bit 6 = segment G. */
  const DigitMasks: seq<bv8> := [
    0x3F, // 0
    0x06, // 1
    0x5B, // 2
    0x4F, // 3
    0x66, // 4
    0x6D, // 5
    0x7D, // 6
    0x07, // 7
    0x7F, // 8
    0x6F  // 9
  ]

  /** Clamps v into [lo, hi]: below lo gives lo, above hi gives hi. */
  function ClampInt(v: int, lo: int, hi: int): (r: int)
    ensures lo <= hi ==> lo <= r <= hi
    ensures lo <= v <= hi ==> r == v
  {
    if v < lo then lo else if v > hi then hi else v
  }

  function Dist(a: int, b: int): nat
  {
    if a < b then b - a else a - b
  }

  /** Clamping picks the point of [lo, hi] nearest to v. */
  lemma ClampIsNearest(v: int, lo: int, hi: int, z: int)
    requires lo <= z <= hi
    ensures Dist(ClampInt(v, lo, hi), v) <= Dist(z, v)
  {
  }

  // ---------------------------------------------------------------------
  // Seven-segment digits

  /** The seven segments of a digit cell, in bit order. */
  datatype Segment = A | B | C | D | E | F | G {
    function Bit(): SegmentIndex
    {
      match this
      case A => 0 case B => 1 case C => 2 case D => 3
      case E => 4 case F => 5 case G => 6
    }
  }

  /** The classic seven-segment encoding of the decimal digits, written as
      sets of segments; it is the reference the mask table is checked against. */
  function StandardSegments(digit: int): set<Segment>
    requires 0 <= digit <= 9
  {
    match digit
    case 0 => {A, B, C, D, E, F}
    case 1 => {B, C}
    case 2 => {A, B, D, E, G}
    case 3 => {A, B, C, D, G}
    case 4 => {B, C, F, G}
    case 5 => {A, C, D, F, G}
    case 6 => {A, C, D, E, F, G}
    case 7 => {A, B, C}
    case 8 => {A, B, C, D, E, F, G}
    case 9 => {A, B, C, D, F, G}
  }

  /** The number of segments in a digit cell. */
  const SegmentCount: nat := 7

  /** A segment's bit position in a mask. */
  type SegmentIndex = i: int | 0 <= i < 7

  /** The rectangle of segment i, relative to the top-left corner of its cell. */
  function SegmentBox(i: SegmentIndex): RectShape
  {
    var half := DigitHeight * 0.5;
    var t := DigitThickness;
    if i == 0 then RectShape(t, 0.0, DigitWidth - 2.0 * t, t)
    else if i == 1 then RectShape(DigitWidth - t, t, t, half - t)
    else if i == 2 then RectShape(DigitWidth - t, half, t, half - t)
    else if i == 3 then RectShape(t, DigitHeight - t, DigitWidth - 2.0 * t, t)
    else if i == 4 then RectShape(0.0, half, t, half - t)
    else if i == 5 then RectShape(0.0, t, t, half - t)
    else RectShape(t, half - t * 0.5, DigitWidth - 2.0 * t, t)
  }

  /** The draw of segment i of a cell whose top-left corner is (x, y). */
  function SegmentDraw(i: SegmentIndex, x: real, y: real, color: Color): DrawCall
  {
    var s := SegmentBox(i);
    Rect(x + s.x, y + s.y, s.w, s.h, color)
  }

  /** Whether bit i of mask is set, i.e. segment i is lit. */
  predicate Lit(mask: bv8, i: SegmentIndex)
  {
    mask & (1 << i) != 0
  }

  /** The lit segments among the first n, scanning upward from segment A. */
  function LitBelow(mask: bv8, n: nat): seq<SegmentIndex>
    requires n <= SegmentCount
  {
    if n == 0 then [] else LitBelow(mask, n - 1) + (if Lit(mask, n - 1) then [n - 1] else [])
  }

  /** The scan lists exactly the lit segments below n, each once, in increasing order. */
  lemma {:induction false} LitBelowSpec(mask: bv8, n: nat)
    requires n <= SegmentCount
    ensures var ls := LitBelow(mask, n);
            && (forall k :: 0 <= k < |ls| ==> ls[k] < n)
            && (forall k, l :: 0 <= k < l < |ls| ==> ls[k] < ls[l])
            && (forall i: SegmentIndex :: i < n ==> (i in ls <==> Lit(mask, i)))
  {
    if n > 0 {
      LitBelowSpec(mask, n - 1);
    }
  }

  /** The segments a digit lights, in order A..G. */
  function LitSegments(digit: int): seq<SegmentIndex>
    requires 0 <= digit <= 9
  {
    LitBelow(DigitMasks[digit], SegmentCount)
  }

  /** One draw per segment of ls, each offset by the cell corner (x, y). */
  function PlaceSegments(ls: seq<SegmentIndex>, x: real, y: real, color: Color): (t: seq<DrawCall>)
    ensures |t| == |ls|
  {
    if ls == [] then [] else PlaceSegments(ls[..|ls| - 1], x, y, color) + [SegmentDraw(ls[|ls| - 1], x, y, color)]
  }

  /** Draw k of a placement is the rectangle of segment ls[k]. */
  lemma {:induction false} PlaceSegmentsAt(ls: seq<SegmentIndex>, x: real, y: real, color: Color, k: nat)
    requires k < |ls|
    ensures PlaceSegments(ls, x, y, color)[k] == SegmentDraw(ls[k], x, y, color)
  {
    if k < |ls| - 1 {
      PlaceSegmentsAt(ls[..|ls| - 1], x, y, color, k);
    }
  }

  /** The draws of one digit glyph; a digit outside 0..9 draws nothing. */
  function DigitDraws(x: real, y: real, digit: int, color: Color): seq<DrawCall>
  {
    if digit < 0 || digit > 9 then [] else PlaceSegments(LitSegments(digit), x, y, color)
  }

  /** The scan of a digit cell: segment by segment from A to G, draws the
      rectangle of each segment whose bit is set in mask. */
  method DrawLitSegments(renderer: Renderer, x: real, y: real, mask: bv8, color: Color)
    modifies renderer
    ensures renderer.trace == old(renderer.trace) + PlaceSegments(LitBelow(mask, SegmentCount), x, y, color)
  {
    var i := 0;
    while i < SegmentCount
      invariant 0 <= i <= SegmentCount
      invariant renderer.trace == old(renderer.trace) + PlaceSegments(LitBelow(mask, i), x, y, color)
    {
      DrawSegmentIfLit(renderer, x, y, mask, i, color);
      ScanStep(mask, i, x, y, color);
      AppendAssociates(old(renderer.trace), PlaceSegments(LitBelow(mask, i), x, y, color),
                       if Lit(mask, i) then [SegmentDraw(i, x, y, color)] else []);
      i := i + 1;
    }
  }

  /** One step of the scan: draws segment i when its bit is set in mask. */
  method DrawSegmentIfLit(renderer: Renderer, x: real, y: real, mask: bv8, i: SegmentIndex, color: Color)
    modifies renderer
    ensures renderer.trace == old(renderer.trace) + (if Lit(mask, i) then [SegmentDraw(i, x, y, color)] else [])
  {
    if Lit(mask, i) {
      var s := SegmentBox(i);
      renderer.DrawRect(x + s.x, y + s.y, s.w, s.h, color);
    } else {
      assert renderer.trace + [] == renderer.trace;
    }
  }

  /** Scanning one more segment appends its draw when it is lit, and nothing otherwise. */
  lemma ScanStep(mask: bv8, i: SegmentIndex, x: real, y: real, color: Color)
    ensures PlaceSegments(LitBelow(mask, i + 1), x, y, color)
            == PlaceSegments(LitBelow(mask, i), x, y, color) + (if Lit(mask, i) then [SegmentDraw(i, x, y, color)] else [])
  {
    var ls := LitBelow(mask, i);
    if Lit(mask, i) {
      assert LitBelow(mask, i + 1) == ls + [i];
      assert (ls + [i])[..|ls|] == ls;
    } else {
      assert LitBelow(mask, i + 1) == ls + [] == ls;
      var t := PlaceSegments(ls, x, y, color);
      assert t + [] == t;
    }
  }

  /** Draws a digit glyph with its top-left corner at (x, y); a digit outside 0..9 draws nothing. */
  method DrawDigit(renderer: Renderer, x: real, y: real, digit: int, color: Color)
    modifies renderer
    ensures renderer.trace == old(renderer.trace) + DigitDraws(x, y, digit, color)
  {
    if digit < 0 || digit > 9 {
      return;
    }
    var mask := DigitMasks[digit];
    DrawLitSegments(renderer, x, y, mask, color);
  }

  /** The segment at bit position i. */
  function SegmentAt(i: SegmentIndex): (s: Segment)
    ensures s.Bit() == i
  {
    if i == 0 then A else if i == 1 then B else if i == 2 then C else if i == 3 then D
    else if i == 4 then E else if i == 5 then F else G
  }

  /** The segments among the first n that the classic encoding lights for
      digit, in order A..G. */
  function StandardBelow(digit: int, n: nat): seq<SegmentIndex>
    requires 0 <= digit <= 9 && n <= SegmentCount
  {
    if n == 0 then [] else StandardBelow(digit, n - 1) + (if SegmentAt(n - 1) in StandardSegments(digit) then [n - 1] else [])
  }

  /** Scanning the mask of a digit lists the segments the classic encoding
      lights, in order A..G. */
  lemma {:induction false} ScanMatchesStandard(digit: int, n: nat)
    requires 0 <= digit <= 9 && n <= SegmentCount
    ensures LitBelow(DigitMasks[digit], n) == StandardBelow(digit, n)
  {
    if n > 0 {
      ScanMatchesStandard(digit, n - 1);
      MasksMatchStandardEncoding(digit, SegmentAt(n - 1));
    }
  }

  /** The segments drawn for each digit, exactly and in order A..G. */
  lemma LitSegmentsTable(digit: int)
    requires 0 <= digit <= 9
    ensures LitSegments(digit) == StandardBelow(digit, SegmentCount)
  {
    ScanMatchesStandard(digit, SegmentCount);
  }

  /** A digit glyph is one rectangle per segment the classic encoding
      lights, in order A..G. */
  lemma DigitDrawsStandard(x: real, y: real, digit: int, color: Color)
    requires 0 <= digit <= 9
    ensures DigitDraws(x, y, digit, color) == PlaceSegments(StandardBelow(digit, SegmentCount), x, y, color)
  {
    LitSegmentsTable(digit);
  }

  /** The classic encoding of 8 and 0, as ordered segment lists. */
  lemma StandardEightZero()
    ensures StandardBelow(8, SegmentCount) == [0, 1, 2, 3, 4, 5, 6]
    ensures StandardBelow(0, SegmentCount) == [0, 1, 2, 3, 4, 5]
  {
    assert StandardBelow(8, 3) == [0, 1, 2];
    assert StandardBelow(0, 3) == [0, 1, 2];
  }

  /** The classic encoding of 1 and 7, as ordered segment lists. */
  lemma StandardOneSeven()
    ensures StandardBelow(1, SegmentCount) == [1, 2]
    ensures StandardBelow(7, SegmentCount) == [0, 1, 2]
  {
  }

  /** The mask table agrees with the classic seven-segment encoding: for every
      digit, a segment's bit is set exactly when the encoding lights it. */
  lemma MasksMatchStandardEncoding(digit: int, s: Segment)
    requires 0 <= digit <= 9
    ensures Lit(DigitMasks[digit], s.Bit()) <==> s in StandardSegments(digit)
  {
    var m := DigitMasks[digit];
    match digit
    case 0 => assert m == 0x3F;
    case 1 => assert m == 0x06;
    case 2 => assert m == 0x5B;
    case 3 => assert m == 0x4F;
    case 4 => assert m == 0x66;
    case 5 => assert m == 0x6D;
    case 6 => assert m == 0x7D;
    case 7 => assert m == 0x07;
    case 8 => assert m == 0x7F;
    case 9 => assert m == 0x6F;
  }

  /** A digit lights exactly the segments the classic encoding lights. */
  lemma DigitLightsStandardSegments(digit: int, s: Segment)
    requires 0 <= digit <= 9
    ensures s.Bit() in LitSegments(digit) <==> s in StandardSegments(digit)
  {
    LitBelowSpec(DigitMasks[digit], SegmentCount);
    MasksMatchStandardEncoding(digit, s);
  }

  /** A digit glyph is one rectangle per set bit of the digit's mask, in
      segment order A..G, each offset by the cell corner (x, y). */
  lemma DigitDrawsPerSetBit(x: real, y: real, digit: int, color: Color)
    requires 0 <= digit <= 9
    ensures var t := DigitDraws(x, y, digit, color);
            var ls := LitSegments(digit);
            && |t| == |ls|
            && (forall k :: 0 <= k < |t| ==> t[k] == SegmentDraw(ls[k], x, y, color))
            && (forall k, l :: 0 <= k < l < |ls| ==> ls[k] < ls[l])
            && (forall i: SegmentIndex :: i in ls <==> Lit(DigitMasks[digit], i))
  {
    var ls := LitSegments(digit);
    LitBelowSpec(DigitMasks[digit], SegmentCount);
    forall k | 0 <= k < |ls|
      ensures DigitDraws(x, y, digit, color)[k] == SegmentDraw(ls[k], x, y, color)
    {
      PlaceSegmentsAt(ls, x, y, color, k);
    }
  }

  /** Eight lights every segment; zero lights six, leaving the middle bar G dark. */
  lemma DigitDrawCounts(x: real, y: real, color: Color)
    ensures |DigitDraws(x, y, 8, color)| == 7
    ensures |DigitDraws(x, y, 0, color)| == 6 && G.Bit() !in LitSegments(0)
  {
    StandardEightZero();
    DigitDrawsStandard(x, y, 8, color);
    DigitDrawsStandard(x, y, 0, color);
    LitSegmentsTable(0);
    var zero := LitSegments(0);
    assert zero == [0, 1, 2, 3, 4, 5];
    assert 6 !in zero;
  }

  /** One lights segments B and C only, in that order; seven lights three. */
  lemma DigitOneSevenDraws(x: real, y: real, color: Color)
    ensures DigitDraws(x, y, 1, color) == [SegmentDraw(B.Bit(), x, y, color), SegmentDraw(C.Bit(), x, y, color)]
    ensures |DigitDraws(x, y, 7, color)| == 3
  {
    StandardOneSeven();
    DigitDrawsStandard(x, y, 1, color);
    DigitDrawsStandard(x, y, 7, color);
    var one := DigitDraws(x, y, 1, color);
    PlaceSegmentsAt([1, 2], x, y, color, 0);
    PlaceSegmentsAt([1, 2], x, y, color, 1);
    assert |one| == 2 && one[0] == SegmentDraw(B.Bit(), x, y, color) && one[1] == SegmentDraw(C.Bit(), x, y, color);
  }

  /** A digit glyph draws something exactly when the digit is in 0..9. */
  lemma DigitDrawsEmptyIff(x: real, y: real, digit: int, color: Color)
    ensures DigitDraws(x, y, digit, color) == [] <==> !(0 <= digit <= 9)
  {
    if 0 <= digit <= 9 {
      var s := if digit == 2 then B else C;
      DigitLightsStandardSegments(digit, s);
    }
  }

  /** The minus sign: the middle bar of a digit cell. */
  function MinusDraws(x: real, y: real, color: Color): (t: seq<DrawCall>)
    ensures t == [SegmentDraw(G.Bit(), x, y, color)]
  {
    var lineY := y + (DigitHeight * 0.5 - DigitThickness * 0.5);
    [Rect(x + DigitThickness, lineY, DigitWidth - 2.0 * DigitThickness, DigitThickness, color)]
  }

  method DrawMinus(renderer: Renderer, x: real, y: real, color: Color)
    modifies renderer
    ensures renderer.trace == old(renderer.trace) + MinusDraws(x, y, color)
  {
    var lineY := y + (DigitHeight * 0.5 - DigitThickness * 0.5);
    renderer.DrawRect(x + DigitThickness, lineY, DigitWidth - 2.0 * DigitThickness, DigitThickness, color);
  }

  // ---------------------------------------------------------------------
  // The numeral

  /** A rounded temperature split into its sign, optional tens digit and ones digit. */
  datatype Numeral = Numeral(negative: bool, hasTens: bool, tens: int, ones: int)

  /** The integer a numeral reads as. */
  function Value(n: Numeral): int
  {
    (if n.negative then -1 else 1) * (10 * n.tens + n.ones)
  }

  /** Clamps to [-99, 99] and splits into sign, tens and ones. */
  function Decompose(rounded: int): (n: Numeral)
    ensures 0 <= n.tens <= 9 && 0 <= n.ones <= 9
    ensures n.negative <==> rounded < 0
    ensures n.hasTens <==> n.tens != 0
    ensures Value(n) == ClampInt(rounded, -99, 99)
  {
    var clamped := ClampInt(rounded, -99, 99);
    var absVal := if clamped < 0 then -clamped else clamped;
    Numeral(clamped < 0, absVal >= 10, absVal / 10, absVal % 10)
  }

  /** Every integer the readout can show is read back unchanged. */
  lemma DecomposeRoundTrip(v: int)
    requires -99 <= v <= 99
    ensures Value(Decompose(v)) == v
  {
  }

  /** Any value at or beyond the range reads as the nearest end of it. */
  lemma DecomposeSaturates(rounded: int)
    ensures rounded >= 99 ==> Decompose(rounded) == Decompose(99)
    ensures rounded <= -99 ==> Decompose(rounded) == Decompose(-99)
  {
  }

  datatype Glyph = MinusSign | Digit(digit: int)

  /** The glyphs of a numeral, left to right. */
  function Glyphs(n: Numeral): seq<Glyph>
  {
    (if n.negative then [MinusSign] else []) + (if n.hasTens then [Digit(n.tens)] else []) + [Digit(n.ones)]
  }

  /** The glyphs of a rounded value: the minus sign iff the value is negative,
      and only in front; the tens digit iff the clamped magnitude is at least
      10; the ones digit always, and last; every digit in 0..9. */
  lemma GlyphsOfValue(rounded: int)
    ensures var n := Decompose(rounded);
            var gs := Glyphs(n);
            var clamped := ClampInt(rounded, -99, 99);
            && (MinusSign in gs <==> rounded < 0)
            && (gs[0] == MinusSign <==> rounded < 0)
            && (forall k :: 0 < k < |gs| ==> gs[k].Digit?)
            && (|gs| == (if rounded < 0 then 1 else 0) + (if -10 < clamped < 10 then 1 else 2))
            && (Digit(n.tens) in gs[..|gs| - 1] <==> (clamped <= -10 || 10 <= clamped))
            && gs[|gs| - 1] == Digit(n.ones)
            && (forall g :: g in gs && g.Digit? ==> 0 <= g.digit <= 9)
  {
    var n := Decompose(rounded);
    var gs := Glyphs(n);
    if n.negative && n.hasTens {
      assert gs == [MinusSign, Digit(n.tens), Digit(n.ones)];
    } else if n.negative {
      assert gs == [MinusSign, Digit(n.ones)];
    } else if n.hasTens {
      assert gs == [Digit(n.tens), Digit(n.ones)];
    } else {
      assert gs == [Digit(n.ones)];
    }
  }

  /** The width of the whole numeral: one cell per glyph, one spacing between glyphs. */
  function TotalWidth(n: Numeral): real
  {
    var digitCount := if n.hasTens then 2 else 1;
    var digitsWidth := (digitCount as real) * DigitWidth + ((digitCount - 1) as real) * DigitSpacing;
    if n.negative then digitsWidth + DigitWidth + DigitSpacing else digitsWidth
  }

  /** Counting the minus sign as a glyph, the numeral is one advance per
      glyph wide, less the spacing after the last one. */
  lemma TotalWidthPerGlyph(n: Numeral)
    ensures TotalWidth(n) == Advance * (|Glyphs(n)| as real) - DigitSpacing
  {
    if n.negative && n.hasTens {
      assert |Glyphs(n)| == 3;
    } else if n.negative || n.hasTens {
      assert |Glyphs(n)| == 2;
    } else {
      assert |Glyphs(n)| == 1;
    }
  }

  /** The left edge of the numeral: it is centred horizontally on the screen. */
  function StartX(n: Numeral, screen: RectShape): (x: real)
    ensures x + TotalWidth(n) / 2.0 == screen.x + screen.w / 2.0
  {
    screen.x + (screen.w - TotalWidth(n)) * 0.5
  }

  /** The top edge of the numeral: it is centred vertically on the screen. */
  function StartY(screen: RectShape): (y: real)
    ensures y + DigitHeight / 2.0 == screen.y + screen.h / 2.0
  {
    screen.y + (screen.h - DigitHeight) * 0.5
  }

  /** A glyph and the x of the left edge of its cell. */
  datatype PlacedGlyph = PlacedGlyph(glyph: Glyph, x: real)

  /** Lays the glyphs out left to right from x, the cursor advancing one
      cell and one spacing after each glyph. */
  function Place(gs: seq<Glyph>, x: real): (ps: seq<PlacedGlyph>)
    ensures |ps| == |gs|
    decreases |gs|
  {
    if gs == [] then [] else [PlacedGlyph(gs[0], x)] + Place(gs[1..], x + Advance)
  }

  /** Glyph k of a layout keeps its place in the order and starts k advances
      to the right of the first. */
  lemma {:induction false} PlaceAt(gs: seq<Glyph>, x: real, k: nat)
    requires k < |gs|
    ensures Place(gs, x)[k] == PlacedGlyph(gs[k], x + (k as real) * Advance)
    decreases k
  {
    if k > 0 {
      PlaceAt(gs[1..], x + Advance, k - 1);
    }
  }

  /** The placed glyphs of a readout. */
  function Layout(rounded: int, screen: RectShape): seq<PlacedGlyph>
  {
    var n := Decompose(rounded);
    Place(Glyphs(n), StartX(n, screen))
  }

  /** The readout's glyphs are centred on the screen, one advance apart, and
      the last one, the ones digit, ends exactly at the right edge of the
      numeral. */
  lemma LayoutGeometry(rounded: int, screen: RectShape)
    ensures var n := Decompose(rounded);
            var ps := Layout(rounded, screen);
            && |ps| == |Glyphs(n)|
            && (forall k :: 0 <= k < |ps| ==> ps[k].x == StartX(n, screen) + (k as real) * Advance)
            && ps[|ps| - 1] == PlacedGlyph(Digit(n.ones), StartX(n, screen) + TotalWidth(n) - DigitWidth)
            && ps[0].x + TotalWidth(n) / 2.0 == screen.x + screen.w / 2.0
  {
    var n := Decompose(rounded);
    var gs := Glyphs(n);
    forall k | 0 <= k < |gs|
      ensures Layout(rounded, screen)[k].x == StartX(n, screen) + (k as real) * Advance
    {
      PlaceAt(gs, StartX(n, screen), k);
    }
    LayoutLast(rounded, screen);
    PlaceAt(gs, StartX(n, screen), 0);
  }

  /** The last placed glyph is the ones digit, in the cell that ends at the
      right edge of the centred numeral. */
  lemma LayoutLast(rounded: int, screen: RectShape)
    ensures var n := Decompose(rounded);
            var ps := Layout(rounded, screen);
            |ps| > 0 && ps[|ps| - 1] == PlacedGlyph(Digit(n.ones), StartX(n, screen) + TotalWidth(n) - DigitWidth)
  {
    var n := Decompose(rounded);
    PlaceLast(n, StartX(n, screen));
  }

  /** Laid out from x0, a numeral ends with its ones digit, whose cell ends
      TotalWidth(n) to the right of x0. */
  lemma PlaceLast(n: Numeral, x0: real)
    ensures var ps := Place(Glyphs(n), x0);
            |ps| > 0 && ps[|ps| - 1] == PlacedGlyph(Digit(n.ones), x0 + TotalWidth(n) - DigitWidth)
  {
    PlaceInParts(n, x0);
  }

  function GlyphDraws(p: PlacedGlyph, y: real, color: Color): seq<DrawCall>
  {
    match p.glyph
    case MinusSign => MinusDraws(p.x, y, color)
    case Digit(d) => DigitDraws(p.x, y, d, color)
  }

  /** The draws of placed glyphs, in order. */
  function Render(ps: seq<PlacedGlyph>, y: real, color: Color): seq<DrawCall>
  {
    if ps == [] then [] else Render(ps[..|ps| - 1], y, color) + GlyphDraws(ps[|ps| - 1], y, color)
  }

  /** Rendering one more glyph appends its draws. */
  lemma RenderSnoc(ps: seq<PlacedGlyph>, p: PlacedGlyph, y: real, color: Color)
    ensures Render(ps + [p], y, color) == Render(ps, y, color) + GlyphDraws(p, y, color)
  {
    assert (ps + [p])[..|ps|] == ps;
  }

  /** All the draws of the temperature readout of an already-rounded value. */
  function TemperatureDraws(rounded: int, screen: RectShape, color: Color): seq<DrawCall>
  {
    Render(Layout(rounded, screen), StartY(screen), color)
  }

  /** Any value at or beyond 99 draws exactly what 99 draws, and any value at
      or below -99 what -99 draws. */
  lemma TemperatureClamps(rounded: int, screen: RectShape, color: Color)
    ensures rounded >= 99 ==> TemperatureDraws(rounded, screen, color) == TemperatureDraws(99, screen, color)
    ensures rounded <= -99 ==> TemperatureDraws(rounded, screen, color) == TemperatureDraws(-99, screen, color)
  {
    DecomposeSaturates(rounded);
  }

  /** The ones digit is drawn last, in the cell that ends exactly at the
      right edge of the centred numeral. */
  lemma OnesDigitDrawnLast(rounded: int, screen: RectShape, color: Color)
    ensures var n := Decompose(rounded);
            var ps := Layout(rounded, screen);
            TemperatureDraws(rounded, screen, color)
              == Render(ps[..|ps| - 1], StartY(screen), color)
                 + DigitDraws(StartX(n, screen) + TotalWidth(n) - DigitWidth, StartY(screen), n.ones, color)
  {
    var n := Decompose(rounded);
    var ps := Layout(rounded, screen);
    assert ps == Place(Glyphs(n), StartX(n, screen));
    assert TemperatureDraws(rounded, screen, color) == Render(ps, StartY(screen), color);
    NumeralEndsWithOnes(n, StartX(n, screen), StartY(screen), color);
  }

  /** Laid out from x0, a numeral renders as its other glyphs' draws, then the
      ones digit's in the cell ending TotalWidth(n) to the right of x0. */
  lemma NumeralEndsWithOnes(n: Numeral, x0: real, y: real, color: Color)
    ensures var ps := Place(Glyphs(n), x0);
            |ps| > 0 &&
            Render(ps, y, color) == Render(ps[..|ps| - 1], y, color) + DigitDraws(x0 + TotalWidth(n) - DigitWidth, y, n.ones, color)
  {
    var x1 := if n.negative then x0 + Advance else x0;
    var x2 := if n.hasTens then x1 + Advance else x1;
    var front := (if n.negative then [PlacedGlyph(MinusSign, x0)] else [])
                 + (if n.hasTens then [PlacedGlyph(Digit(n.tens), x1)] else []);
    PlaceInParts(n, x0);
    assert x2 == x0 + TotalWidth(n) - DigitWidth;
    RenderSnocSplit(front, PlacedGlyph(Digit(n.ones), x2), y, color);
  }

  /** Glyphs with one more at the end: dropping it gives the others back, and
      rendering them draws the others, then it. */
  lemma RenderSnocSplit(front: seq<PlacedGlyph>, last: PlacedGlyph, y: real, color: Color)
    ensures var ps := front + [last];
            ps[..|ps| - 1] == front && Render(ps, y, color) == Render(front, y, color) + GlyphDraws(last, y, color)
  {
    RenderSnoc(front, last, y, color);
  }

  /** Every digit the readout places is in 0..9, so none is skipped by the
      range check of the digit routine. */
  lemma LayoutDigitsInRange(rounded: int, screen: RectShape)
    ensures var ps := Layout(rounded, screen);
            forall k :: 0 <= k < |ps| && ps[k].glyph.Digit? ==> 0 <= ps[k].glyph.digit <= 9
  {
    var n := Decompose(rounded);
    var gs := Glyphs(n);
    var ps := Layout(rounded, screen);
    GlyphsOfValue(rounded);
    forall k | 0 <= k < |ps| && ps[k].glyph.Digit?
      ensures 0 <= ps[k].glyph.digit <= 9
    {
      PlaceAt(gs, StartX(n, screen), k);
      assert gs[k] in gs;
    }
  }

  /** The layout of a numeral from x0: the minus sign (if negative) at x0,
      then the tens digit (if any) one advance further, then the ones digit
      one advance after the last glyph before it. */
  lemma PlaceInParts(n: Numeral, x0: real)
    ensures var x1 := if n.negative then x0 + Advance else x0;
            var x2 := if n.hasTens then x1 + Advance else x1;
            Place(Glyphs(n), x0)
              == (if n.negative then [PlacedGlyph(MinusSign, x0)] else [])
                 + (if n.hasTens then [PlacedGlyph(Digit(n.tens), x1)] else [])
                 + [PlacedGlyph(Digit(n.ones), x2)]
  {
    var gs := Glyphs(n);
    if n.negative && n.hasTens {
      assert gs == [MinusSign, Digit(n.tens), Digit(n.ones)];
      assert Place(gs[2..], x0 + Advance + Advance) == [PlacedGlyph(Digit(n.ones), x0 + Advance + Advance)];
      assert Place(gs[1..], x0 + Advance)
          == [PlacedGlyph(Digit(n.tens), x0 + Advance), PlacedGlyph(Digit(n.ones), x0 + Advance + Advance)];
    } else if n.negative || n.hasTens {
      assert gs == [gs[0], Digit(n.ones)];
      assert Place(gs[1..], x0 + Advance) == [PlacedGlyph(Digit(n.ones), x0 + Advance)];
    } else {
      assert gs == [Digit(n.ones)];
    }
  }

  /** The draws of a numeral laid out from x0: the minus sign's (if
      negative) at x0, then the tens digit's (if any) at x1, then the ones
      digit's at x2, where each of x1 and x2 is one advance past the glyph
      before it. */
  lemma RenderInParts(n: Numeral, x0: real, y: real, color: Color, x1: real, x2: real,
                      minusPart: seq<DrawCall>, tensPart: seq<DrawCall>, onesPart: seq<DrawCall>)
    requires x1 == if n.negative then x0 + Advance else x0
    requires x2 == if n.hasTens then x1 + Advance else x1
    requires minusPart == if n.negative then MinusDraws(x0, y, color) else []
    requires tensPart == if n.hasTens then DigitDraws(x1, y, n.tens, color) else []
    requires onesPart == DigitDraws(x2, y, n.ones, color)
    ensures Render(Place(Glyphs(n), x0), y, color) == minusPart + tensPart + onesPart
  {
    if n.negative && n.hasTens {
      assert x2 == x0 + Advance + Advance;
      RenderMinusTensOnes(n, x0, y, color);
    } else if n.negative {
      assert tensPart == [] && x2 == x0 + Advance;
      assert minusPart + tensPart == minusPart;
      RenderMinusOnes(n, x0, y, color);
    } else if n.hasTens {
      assert minusPart == [] && x1 == x0 && x2 == x0 + Advance;
      assert minusPart + tensPart == tensPart;
      RenderTensOnes(n, x0, y, color);
    } else {
      assert minusPart == [] && tensPart == [] && x2 == x0;
      assert minusPart + tensPart + onesPart == onesPart;
      RenderOnes(n, x0, y, color);
    }
  }

  /** The four shapes of a numeral: sign, tens and ones; sign and ones;
      tens and ones; ones alone. */
  lemma RenderMinusTensOnes(n: Numeral, x0: real, y: real, color: Color)
    requires n.negative && n.hasTens
    ensures Render(Place(Glyphs(n), x0), y, color)
            == MinusDraws(x0, y, color) + DigitDraws(x0 + Advance, y, n.tens, color)
               + DigitDraws(x0 + Advance + Advance, y, n.ones, color)
  {
    var pm := PlacedGlyph(MinusSign, x0);
    var pt := PlacedGlyph(Digit(n.tens), x0 + Advance);
    var po := PlacedGlyph(Digit(n.ones), x0 + Advance + Advance);
    PlaceInParts(n, x0);
    assert Place(Glyphs(n), x0) == [pm, pt, po];
    RenderThree(pm, pt, po, y, color);
  }

  lemma RenderMinusOnes(n: Numeral, x0: real, y: real, color: Color)
    requires n.negative && !n.hasTens
    ensures Render(Place(Glyphs(n), x0), y, color)
            == MinusDraws(x0, y, color) + DigitDraws(x0 + Advance, y, n.ones, color)
  {
    var pm := PlacedGlyph(MinusSign, x0);
    var po := PlacedGlyph(Digit(n.ones), x0 + Advance);
    PlaceInParts(n, x0);
    assert Place(Glyphs(n), x0) == [pm, po];
    RenderTwo(pm, po, y, color);
  }

  lemma RenderTensOnes(n: Numeral, x0: real, y: real, color: Color)
    requires !n.negative && n.hasTens
    ensures Render(Place(Glyphs(n), x0), y, color)
            == DigitDraws(x0, y, n.tens, color) + DigitDraws(x0 + Advance, y, n.ones, color)
  {
    var pt := PlacedGlyph(Digit(n.tens), x0);
    var po := PlacedGlyph(Digit(n.ones), x0 + Advance);
    PlaceInParts(n, x0);
    assert Place(Glyphs(n), x0) == [pt, po];
    RenderTwo(pt, po, y, color);
  }

  lemma RenderOnes(n: Numeral, x0: real, y: real, color: Color)
    requires !n.negative && !n.hasTens
    ensures Render(Place(Glyphs(n), x0), y, color) == DigitDraws(x0, y, n.ones, color)
  {
    var po := PlacedGlyph(Digit(n.ones), x0);
    PlaceInParts(n, x0);
    assert Place(Glyphs(n), x0) == [po];
    RenderOne(po, y, color);
  }

  /** Rendering one, two or three placed glyphs draws each in turn. */
  lemma RenderOne(p: PlacedGlyph, y: real, color: Color)
    ensures Render([p], y, color) == GlyphDraws(p, y, color)
  {
    RenderSnoc([], p, y, color);
  }

  lemma RenderTwo(p: PlacedGlyph, q: PlacedGlyph, y: real, color: Color)
    ensures Render([p, q], y, color) == GlyphDraws(p, y, color) + GlyphDraws(q, y, color)
  {
    assert [p] + [q] == [p, q];
    RenderSnoc([p], q, y, color);
    RenderOne(p, y, color);
  }

  lemma RenderThree(p: PlacedGlyph, q: PlacedGlyph, r: PlacedGlyph, y: real, color: Color)
    ensures Render([p, q, r], y, color) == GlyphDraws(p, y, color) + GlyphDraws(q, y, color) + GlyphDraws(r, y, color)
  {
    assert [p, q] + [r] == [p, q, r];
    RenderSnoc([p, q], r, y, color);
    RenderTwo(p, q, y, color);
  }

  /** The readout of a rounded value, in terms of the intermediate values the
      drawing routine computes: the clamped value, its magnitude, and the
      start of the centred numeral. */
  lemma ReadoutSteps(rounded: int, screen: RectShape, color: Color, clamped: int, absVal: int, startX: real, startY: real)
    requires clamped == ClampInt(rounded, -99, 99)
    requires absVal == if clamped < 0 then -clamped else clamped
    requires startX == StartX(Numeral(clamped < 0, absVal >= 10, absVal / 10, absVal % 10), screen)
    requires startY == StartY(screen)
    ensures TemperatureDraws(rounded, screen, color)
            == Render(Place(Glyphs(Numeral(clamped < 0, absVal >= 10, absVal / 10, absVal % 10)), startX), startY, color)
  {
    var n := Numeral(clamped < 0, absVal >= 10, absVal / 10, absVal % 10);
    assert Decompose(rounded) == n;
  }

  /** Appending to a trace in two steps appends the concatenation. */
  lemma AppendAssociates(s: seq<DrawCall>, a: seq<DrawCall>, b: seq<DrawCall>)
    ensures s + a + b == s + (a + b)
  {
  }

  /** Draws the temperature readout of an already-rounded value: clamps it,
      splits it into sign, tens and ones, and centres the numeral on the screen. */
  method DrawTemperatureValue(renderer: Renderer, rounded: int, screen: RectShape, color: Color)
    modifies renderer
    ensures renderer.trace == old(renderer.trace) + TemperatureDraws(rounded, screen, color)
  {
    var clamped := ClampInt(rounded, -99, 99);
    var negative := clamped < 0;
    var absVal := if clamped < 0 then -clamped else clamped;
    var tens := absVal / 10;
    var ones := absVal % 10;
    var hasTens := absVal >= 10;

    var digitCount := if hasTens then 2 else 1;
    var totalWidth := (digitCount as real) * DigitWidth + ((digitCount - 1) as real) * DigitSpacing;
    if negative {
      totalWidth := totalWidth + DigitWidth + DigitSpacing;
    }

    var startX := screen.x + (screen.w - totalWidth) * 0.5;
    var startY := screen.y + (screen.h - DigitHeight) * 0.5;

    var n := Numeral(negative, hasTens, tens, ones);
    assert totalWidth == TotalWidth(n);
    ReadoutSteps(rounded, screen, color, clamped, absVal, startX, startY);
    DrawNumeral(renderer, n, startX, startY, color);
  }

  /** Draws a numeral left to right from (startX, startY): the minus sign if
      negative, then the tens digit if shown, then the ones digit, the cursor
      moving one advance after each glyph. */
  method DrawNumeral(renderer: Renderer, n: Numeral, startX: real, startY: real, color: Color)
    modifies renderer
    ensures renderer.trace == old(renderer.trace) + Render(Place(Glyphs(n), startX), startY, color)
  {
    var cursorX := startX;
    ghost var x1 := if n.negative then startX + Advance else startX;
    ghost var x2 := if n.hasTens then x1 + Advance else x1;
    ghost var minusPart := if n.negative then MinusDraws(startX, startY, color) else [];
    ghost var tensPart := if n.hasTens then DigitDraws(x1, startY, n.tens, color) else [];
    ghost var onesPart := DigitDraws(x2, startY, n.ones, color);
    RenderInParts(n, startX, startY, color, x1, x2, minusPart, tensPart, onesPart);

    if n.negative {
      DrawMinus(renderer, cursorX, startY, color);
      cursorX := cursorX + DigitWidth + DigitSpacing;
    }
    assert renderer.trace == old(renderer.trace) + minusPart && cursorX == x1;

    if n.hasTens {
      DrawDigit(renderer, cursorX, startY, n.tens, color);
      cursorX := cursorX + DigitWidth + DigitSpacing;
    }
    assert renderer.trace == old(renderer.trace) + minusPart + tensPart && cursorX == x2;

    DrawDigit(renderer, cursorX, startY, n.ones, color);
    AppendAssociates(old(renderer.trace), minusPart, tensPart);
    AppendAssociates(old(renderer.trace), minusPart + tensPart, onesPart);
  }

  // ---------------------------------------------------------------------
  // The status icon

  datatype Icon = Heat | Snow | Check

  /** The dead band around a zero gap in which the check icon is shown. */
  const Tolerance: real := 0.25

  /** The icon for a gap desired - current: heat above the band, snow below it,
      the check inside it (both ends inclusive). */
  function SelectIcon(desired: real, current: real): (icon: Icon)
    ensures icon == Heat <==> desired - current > Tolerance
    ensures icon == Snow <==> desired - current < -Tolerance
    ensures icon == Check <==> -Tolerance <= desired - current <= Tolerance
  {
    var diff := desired - current;
    if diff > Tolerance then Heat else if diff < -Tolerance then Snow else Check
  }

  /** Snow, check, heat, in order of a growing gap. */
  function Rank(icon: Icon): nat
  {
    match icon
    case Snow => 0
    case Check => 1
    case Heat => 2
  }

  /** Raising the desired temperature never moves the icon toward snow. */
  lemma SelectIconMonotone(desired1: real, desired2: real, current: real)
    requires desired1 <= desired2
    ensures Rank(SelectIcon(desired1, current)) <= Rank(SelectIcon(desired2, current))
  {
  }

  const HeatOuter: Color := Color(0.96, 0.46, 0.28, 1.0)
  const HeatInner: Color := Color(0.99, 0.66, 0.32, 1.0)
  const SnowColor: Color := Color(0.66, 0.85, 0.98, 1.0)
  const CheckColor: Color := Color(0.38, 0.92, 0.58, 1.0)

  /** Flame: an outer circle, an inner circle, then a small square under them. */
  function HeatDraws(cx: real, cy: real, radius: real, outer: Color, inner: Color): (t: seq<DrawCall>)
    ensures |t| == 3 && t[0].Circle? && t[1].Circle? && t[2].Rect?
    ensures t[0].cx == cx && t[1].cx == cx && t[2].x + t[2].w / 2.0 == cx
    ensures t[0].color == outer && t[1].color == inner && t[2].color == outer
    ensures t[2].w == t[2].h
  {
    [ Circle(cx, cy + radius * 0.25, radius, outer),
      Circle(cx, cy, radius * 0.65, inner),
      Rect(cx - radius * 0.25, cy + radius * 0.4, radius * 0.5, radius * 0.5, outer) ]
  }

  method DrawHeatIcon(renderer: Renderer, cx: real, cy: real, radius: real, outer: Color, inner: Color)
    modifies renderer
    ensures renderer.trace == old(renderer.trace) + HeatDraws(cx, cy, radius, outer, inner)
  {
    renderer.DrawCircle(cx, cy + radius * 0.25, radius, outer);
    renderer.DrawCircle(cx, cy, radius * 0.65, inner);
    renderer.DrawRect(cx - radius * 0.25, cy + radius * 0.4, radius * 0.5, radius * 0.5, outer);
  }

  /** Snowflake: a vertical and a horizontal bar, then four end caps
      (left, right, top, bottom). */
  function SnowDraws(cx: real, cy: real, size: real, color: Color): (t: seq<DrawCall>)
    ensures |t| == 6
    ensures forall k :: 0 <= k < 6 ==> t[k].Rect? && t[k].color == color
  {
    var arm := size * 0.45;
    var thickness := size * 0.12;
    var offset := arm * 0.7;
    var small := thickness;
    [ Rect(cx - thickness * 0.5, cy - arm, thickness, arm * 2.0, color),
      Rect(cx - arm, cy - thickness * 0.5, arm * 2.0, thickness, color),
      Rect(cx - offset - small, cy - small, small, small * 2.0, color),
      Rect(cx + offset, cy - small, small, small * 2.0, color),
      Rect(cx - small, cy - offset - small, small * 2.0, small, color),
      Rect(cx - small, cy + offset, small * 2.0, small, color) ]
  }

  method DrawSnowIcon(renderer: Renderer, cx: real, cy: real, size: real, color: Color)
    modifies renderer
    ensures renderer.trace == old(renderer.trace) + SnowDraws(cx, cy, size, color)
  {
    var arm := size * 0.45;
    var thickness := size * 0.12;
    renderer.DrawRect(cx - thickness * 0.5, cy - arm, thickness, arm * 2.0, color);
    renderer.DrawRect(cx - arm, cy - thickness * 0.5, arm * 2.0, thickness, color);

    var offset := arm * 0.7;
    var small := thickness;
    renderer.DrawRect(cx - offset - small, cy - small, small, small * 2.0, color);
    renderer.DrawRect(cx + offset, cy - small, small, small * 2.0, color);
    renderer.DrawRect(cx - small, cy - offset - small, small * 2.0, small, color);
    renderer.DrawRect(cx - small, cy + offset, small * 2.0, small, color);
  }

  /** The reflection of a rectangle draw across the vertical line x == cx. */
  function MirrorX(d: DrawCall, cx: real): DrawCall
    requires d.Rect?
  {
    d.(x := 2.0 * cx - d.x - d.w)
  }

  /** The reflection of a rectangle draw across the horizontal line y == cy. */
  function MirrorY(d: DrawCall, cy: real): DrawCall
    requires d.Rect?
  {
    d.(y := 2.0 * cy - d.y - d.h)
  }

  /** The snowflake is symmetric about both axes through its centre: the
      mirror image of each of its rectangles is one of its rectangles. */
  lemma SnowIconSymmetric(cx: real, cy: real, size: real, color: Color)
    ensures var t := SnowDraws(cx, cy, size, color);
            forall k :: 0 <= k < |t| ==> MirrorX(t[k], cx) in t && MirrorY(t[k], cy) in t
  {
    var t := SnowDraws(cx, cy, size, color);
    assert MirrorX(t[2], cx) == t[3] && MirrorX(t[3], cx) == t[2];
    assert MirrorY(t[4], cy) == t[5] && MirrorY(t[5], cy) == t[4];
    assert MirrorX(t[0], cx) == t[0] && MirrorX(t[1], cx) == t[1];
    assert MirrorX(t[4], cx) == t[4] && MirrorX(t[5], cx) == t[5];
    assert MirrorY(t[0], cy) == t[0] && MirrorY(t[1], cy) == t[1];
    assert MirrorY(t[2], cy) == t[2] && MirrorY(t[3], cy) == t[3];
  }

  /** n squares of side dot, each 1.1 dot further right than the last, and
      further down (descending) or further up (ascending). */
  function Stroke(x0: real, y0: real, descending: bool, dot: real, n: nat, color: Color): (t: seq<DrawCall>)
    ensures |t| == n
    ensures forall i :: 0 <= i < n ==> t[i].Rect? && t[i].w == dot && t[i].h == dot && t[i].color == color
  {
    seq(n, i requires 0 <= i < n =>
      var step := (i as real) * dot * 1.1;
      Rect(x0 + step, if descending then y0 + step else y0 - step, dot, dot, color))
  }

  /** Consecutive squares of a stroke are 1.1 dot apart on both axes. */
  lemma StrokeStep(x0: real, y0: real, descending: bool, dot: real, n: nat, color: Color, k: nat)
    requires k + 1 < n
    ensures var t := Stroke(x0, y0, descending, dot, n, color);
            && t[k + 1].x - t[k].x == 1.1 * dot
            && t[k + 1].y - t[k].y == (if descending then 1.1 * dot else -1.1 * dot)
  {
    assert ((k + 1) as real) * dot * 1.1 == (k as real) * dot * 1.1 + 1.1 * dot;
  }

  /** One more square extends a stroke by the square one more step along it. */
  lemma StrokeSnoc(x0: real, y0: real, descending: bool, dot: real, n: nat, color: Color)
    ensures var step := (n as real) * dot * 1.1;
            Stroke(x0, y0, descending, dot, n + 1, color)
              == Stroke(x0, y0, descending, dot, n, color)
                 + [Rect(x0 + step, if descending then y0 + step else y0 - step, dot, dot, color)]
  {
    var step := (n as real) * dot * 1.1;
    var longer := Stroke(x0, y0, descending, dot, n + 1, color);
    var extended := Stroke(x0, y0, descending, dot, n, color)
                    + [Rect(x0 + step, if descending then y0 + step else y0 - step, dot, dot, color)];
    forall k | 0 <= k < n + 1
      ensures longer[k] == extended[k]
    {
    }
  }

  /** Checkmark: a short descending stroke of 4 squares, then a long
      ascending stroke of 6 starting from the last square of the first. */
  function CheckDraws(cx: real, cy: real, size: real, color: Color): seq<DrawCall>
  {
    var dot := size * 0.1;
    var startX := cx - size * 0.35;
    var startY := cy + size * 0.05;
    var midX := startX + 3.0 * dot * 1.1;
    var midY := startY + 3.0 * dot * 1.1;
    Stroke(startX, startY, true, dot, 4, color) + Stroke(midX, midY, false, dot, 6, color)
  }

  method DrawCheckIcon(renderer: Renderer, cx: real, cy: real, size: real, color: Color)
    modifies renderer
    ensures renderer.trace == old(renderer.trace) + CheckDraws(cx, cy, size, color)
  {
    var dot := size * 0.1;
    var startX := cx - size * 0.35;
    var startY := cy + size * 0.05;

    var i := 0;
    while i < 4
      invariant 0 <= i <= 4
      invariant renderer.trace == old(renderer.trace) + Stroke(startX, startY, true, dot, i, color)
    {
      var step := (i as real) * dot * 1.1;
      renderer.DrawRect(startX + step, startY + step, dot, dot, color);
      StrokeSnoc(startX, startY, true, dot, i, color);
      AppendAssociates(old(renderer.trace), Stroke(startX, startY, true, dot, i, color), [Rect(startX + step, startY + step, dot, dot, color)]);
      i := i + 1;
    }
    ghost var first := renderer.trace;

    var midX := startX + 3.0 * dot * 1.1;
    var midY := startY + 3.0 * dot * 1.1;
    i := 0;
    while i < 6
      invariant 0 <= i <= 6
      invariant renderer.trace == first + Stroke(midX, midY, false, dot, i, color)
    {
      var step := (i as real) * dot * 1.1;
      renderer.DrawRect(midX + step, midY - step, dot, dot, color);
      StrokeSnoc(midX, midY, false, dot, i, color);
      AppendAssociates(first, Stroke(midX, midY, false, dot, i, color), [Rect(midX + step, midY - step, dot, dot, color)]);
      i := i + 1;
    }
  }

  /** The checkmark is ten equal dot-by-dot squares: squares 0..3 step down
      and right, squares 4..9 step up and right, each by 1.1 dot, and the
      corner square is drawn twice (square 3 and square 4 coincide). */
  lemma CheckIconStaircase(cx: real, cy: real, size: real, color: Color)
    ensures var t := CheckDraws(cx, cy, size, color);
            var dot := size * 0.1;
            && |t| == 10
            && (forall k :: 0 <= k < 10 ==> t[k].Rect? && t[k].w == dot && t[k].h == dot && t[k].color == color)
            && (forall k :: 0 <= k < 3 ==> t[k + 1].x - t[k].x == 1.1 * dot && t[k + 1].y - t[k].y == 1.1 * dot)
            && (forall k :: 4 <= k < 9 ==> t[k + 1].x - t[k].x == 1.1 * dot && t[k + 1].y - t[k].y == -1.1 * dot)
            && t[3] == t[4]
  {
    var dot := size * 0.1;
    var startX := cx - size * 0.35;
    var startY := cy + size * 0.05;
    var midX := startX + 3.0 * dot * 1.1;
    var midY := startY + 3.0 * dot * 1.1;
    var down := Stroke(startX, startY, true, dot, 4, color);
    var up := Stroke(midX, midY, false, dot, 6, color);
    var t := CheckDraws(cx, cy, size, color);
    assert t == down + up;
    forall k | 0 <= k < 3
      ensures t[k + 1].x - t[k].x == 1.1 * dot && t[k + 1].y - t[k].y == 1.1 * dot
    {
      StrokeStep(startX, startY, true, dot, 4, color, k);
    }
    forall k | 4 <= k < 9
      ensures t[k + 1].x - t[k].x == 1.1 * dot && t[k + 1].y - t[k].y == -1.1 * dot
    {
      StrokeStep(midX, midY, false, dot, 6, color, k - 4);
    }
    assert t[3] == down[3] && t[4] == up[0];
  }

  /** The draws of the status icon centred on the screen. */
  function StatusDraws(screen: RectShape, desired: real, current: real): seq<DrawCall>
  {
    var cx := screen.x + screen.w * 0.5;
    var cy := screen.y + screen.h * 0.5;
    var size := (if screen.w <= screen.h then screen.w else screen.h) * 0.35;
    match SelectIcon(desired, current)
    case Heat => HeatDraws(cx, cy, size, HeatOuter, HeatInner)
    case Snow => SnowDraws(cx, cy, size, SnowColor)
    case Check => CheckDraws(cx, cy, size, CheckColor)
  }

  method DrawStatusIcon(renderer: Renderer, screen: RectShape, desired: real, current: real)
    modifies renderer
    ensures renderer.trace == old(renderer.trace) + StatusDraws(screen, desired, current)
  {
    var cx := screen.x + screen.w * 0.5;
    var cy := screen.y + screen.h * 0.5;
    var size := (if screen.w <= screen.h then screen.w else screen.h) * 0.35;

    var tolerance := 0.25;
    var diff := desired - current;

    if diff > tolerance {
      DrawHeatIcon(renderer, cx, cy, size, HeatOuter, HeatInner);
    } else if diff < -tolerance {
      DrawSnowIcon(renderer, cx, cy, size, SnowColor);
    } else {
      CheckIconStaircase(cx, cy, size, CheckColor);
      DrawCheckIcon(renderer, cx, cy, size, CheckColor);
    }
  }

  /** Which icon a sequence of draws is, told from its shape alone: three
      draws starting with a circle, six rectangles, or ten rectangles. */
  function IconOfDraws(t: seq<DrawCall>): Option<Icon>
  {
    if |t| == 3 && t[0].Circle? && t[1].Circle? && t[2].Rect? then Some(Heat)
    else if |t| == 6 && forall k :: 0 <= k < 6 ==> t[k].Rect? then Some(Snow)
    else if |t| == 10 && forall k :: 0 <= k < 10 ==> t[k].Rect? then Some(Check)
    else None
  }

  /** The status routine draws exactly one whole icon, the selected one:
      reading the icon back from its draws gives the selection. */
  lemma StatusDrawsOneIcon(screen: RectShape, desired: real, current: real)
    ensures IconOfDraws(StatusDraws(screen, desired, current)) == Some(SelectIcon(desired, current))
  {
    var cx := screen.x + screen.w * 0.5;
    var cy := screen.y + screen.h * 0.5;
    var size := (if screen.w <= screen.h then screen.w else screen.h) * 0.35;
    CheckIconStaircase(cx, cy, size, CheckColor);
  }
}
