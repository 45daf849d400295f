/** Hit-testing and the up/down half-arrow buttons (Source/Controls.cpp). */
module Controls {
  import opened Geometry

  /** Whether the point (px, py) lies in the closed rectangle; all four
      edges count as inside. */
  function PointInRect(px: real, py: real, rect: RectShape): (inside: bool)
    ensures inside ==> rect.w >= 0.0 && rect.h >= 0.0
  {
    px >= rect.x && px <= rect.x + rect.w && py >= rect.y && py <= rect.y + rect.h
  }

  /** A rectangle with a negative width or height contains no point. */
  lemma NegativeExtentContainsNothing(rect: RectShape, px: real, py: real)
    requires rect.w < 0.0 || rect.h < 0.0
    ensures !PointInRect(px, py, rect)
  {
  }

  /** With a non-negative extent, the four corners are inside: every edge is inclusive. */
  lemma CornersInside(rect: RectShape)
    requires rect.w >= 0.0 && rect.h >= 0.0
    ensures PointInRect(rect.x, rect.y, rect)
    ensures PointInRect(rect.x + rect.w, rect.y, rect)
    ensures PointInRect(rect.x, rect.y + rect.h, rect)
    ensures PointInRect(rect.x + rect.w, rect.y + rect.h, rect)
  {
  }

  /** Containment is the product of two closed intervals: a point is inside
      exactly when it is inside both the horizontal and the vertical band. */
  lemma ContainmentIsIntervalProduct(rect: RectShape, px: real, py: real)
    ensures PointInRect(px, py, rect) <==>
              PointInRect(px, rect.y, RectShape(rect.x, rect.y, rect.w, 0.0))
              && PointInRect(rect.x, py, RectShape(rect.x, rect.y, 0.0, rect.h))
  {
  }

  /** The inset of the arrow from the button's edges: 22% of the button width. */
  function Margin(button: RectShape): real
  {
    button.w * 0.22
  }

  function CenterX(button: RectShape): real
  {
    button.x + button.w * 0.5
  }

  function CenterY(button: RectShape): real
  {
    button.y + button.h * 0.5
  }

  function TopY(button: RectShape): real
  {
    button.y + Margin(button)
  }

  function BottomY(button: RectShape): real
  {
    button.y + button.h - Margin(button)
  }

  /** The draws of one half-arrow button: the background rectangle, then
      the triangle, apex first. */
  function HalfArrowDraws(button: RectShape, isUp: bool, arrowColor: Color, bgColor: Color): (t: seq<DrawCall>)
    ensures |t| == 2
    ensures t[0] == Rect(button.x, button.y, button.w, button.h, bgColor)
    ensures t[1].Triangle? && t[1].color == arrowColor
  {
    var ax := CenterX(button);
    var bx := button.x + Margin(button);
    var cxv := button.x + button.w - Margin(button);
    var background := Rect(button.x, button.y, button.w, button.h, bgColor);
    if isUp then
      [background, Triangle(ax, TopY(button), bx, BottomY(button), cxv, BottomY(button), arrowColor)]
    else
      [background, Triangle(ax, BottomY(button), bx, TopY(button), cxv, TopY(button), arrowColor)]
  }

  method DrawHalfArrow(renderer: Renderer, button: RectShape, isUp: bool, arrowColor: Color, bgColor: Color)
    modifies renderer
    ensures renderer.trace == old(renderer.trace) + HalfArrowDraws(button, isUp, arrowColor, bgColor)
  {
    var cx := button.x + button.w * 0.5;
    var margin := button.w * 0.22;
    var topY := button.y + margin;
    var bottomY := button.y + button.h - margin;

    renderer.DrawRect(button.x, button.y, button.w, button.h, bgColor);

    var ax := cx;
    var bx := button.x + margin;
    var cxv := button.x + button.w - margin;

    if isUp {
      renderer.DrawTriangle(ax, topY, bx, bottomY, cxv, bottomY, arrowColor);
    } else {
      renderer.DrawTriangle(ax, bottomY, bx, topY, cxv, topY, arrowColor);
    }
  }

  /** The triangle's apex sits on the button's vertical centre line, its base
      is horizontal, and the base endpoints are symmetric about the apex. */
  lemma ArrowSymmetricAboutCenter(button: RectShape, isUp: bool, arrowColor: Color, bgColor: Color)
    ensures var tri := HalfArrowDraws(button, isUp, arrowColor, bgColor)[1];
            tri.x1 == CenterX(button)
            && tri.y2 == tri.y3
            && tri.x1 - tri.x2 == tri.x3 - tri.x1
            && tri.x2 == button.x + Margin(button)
            && tri.x3 == button.x + button.w - Margin(button)
  {
  }

  /** The triangle's two levels are symmetric about the button's horizontal centre line. */
  lemma ArrowLevelsSymmetric(button: RectShape)
    ensures TopY(button) + BottomY(button) == 2.0 * CenterY(button)
  {
  }

  /** Reflection of a triangle across the horizontal line y == cy. */
  function MirrorVertically(tri: DrawCall, cy: real): DrawCall
    requires tri.Triangle?
  {
    Triangle(tri.x1, 2.0 * cy - tri.y1, tri.x2, 2.0 * cy - tri.y2, tri.x3, 2.0 * cy - tri.y3, tri.color)
  }

  /** The down arrow is the up arrow reflected across the button's horizontal
      centre line, and the other way round; the background draw is shared. */
  lemma UpDownMirror(button: RectShape, arrowColor: Color, bgColor: Color)
    ensures var up := HalfArrowDraws(button, true, arrowColor, bgColor);
            var down := HalfArrowDraws(button, false, arrowColor, bgColor);
            up[0] == down[0]
            && down[1] == MirrorVertically(up[1], CenterY(button))
            && up[1] == MirrorVertically(down[1], CenterY(button))
            && up[1].y1 == TopY(button) && up[1].y2 == BottomY(button)
            && down[1].y1 == BottomY(button) && down[1].y2 == TopY(button)
  {
    ArrowLevelsSymmetric(button);
  }

  /** The up arrow points up (apex strictly above the base, y growing
      downward) exactly when the button is taller than 0.44 times its width;
      the down arrow points down under the same condition.  Nothing in the
      drawing routine enforces it. */
  lemma ArrowPointsOutwardIff(button: RectShape, arrowColor: Color, bgColor: Color)
    ensures var up := HalfArrowDraws(button, true, arrowColor, bgColor)[1];
            up.y1 < up.y2 <==> button.h > 0.44 * button.w
    ensures var down := HalfArrowDraws(button, false, arrowColor, bgColor)[1];
            down.y1 > down.y2 <==> button.h > 0.44 * button.w
  {
  }

  /** When the button has a non-negative width and is at least 0.44 times as
      tall as it is wide, all three vertices of the arrow lie within the
      button, so the arrow is hit-tested with the button. */
  lemma ArrowInsideButton(button: RectShape, isUp: bool, arrowColor: Color, bgColor: Color)
    requires button.w >= 0.0 && button.h >= 0.44 * button.w
    ensures var tri := HalfArrowDraws(button, isUp, arrowColor, bgColor)[1];
            PointInRect(tri.x1, tri.y1, button)
            && PointInRect(tri.x2, tri.y2, button)
            && PointInRect(tri.x3, tri.y3, button)
  {
  }
}
