/** The geometric vocabulary shared by the thermostat UI routines, and the
    2D renderer they draw on.  The renderer itself is external to the model:
    each primitive draw is recorded as one entry of a trace, so properties of
    a drawing routine become properties of the draw calls it appends. */
module Geometry {

  /** An axis-aligned rectangle in surface coordinates (y grows downward). */
  datatype RectShape = RectShape(x: real, y: real, w: real, h: real)

  /** An RGBA colour; channels are not clamped. */
  datatype Color = Color(r: real, g: real, b: real, a: real)

  /** One primitive draw issued to the renderer. */
  datatype DrawCall =
    | Rect(x: real, y: real, w: real, h: real, color: Color)
    | Triangle(x1: real, y1: real, x2: real, y2: real, x3: real, y3: real, color: Color)
    | Circle(cx: real, cy: real, radius: real, color: Color)

  /** The rendering surface, observed only through the draws issued to it. */
  class Renderer {
    var trace: seq<DrawCall>

    constructor ()
      ensures trace == []
    {
      trace := [];
    }

    method DrawRect(x: real, y: real, w: real, h: real, color: Color)
      modifies this
      ensures trace == old(trace) + [Rect(x, y, w, h, color)]
    {
      trace := trace + [Rect(x, y, w, h, color)];
    }

    method DrawTriangle(x1: real, y1: real, x2: real, y2: real, x3: real, y3: real, color: Color)
      modifies this
      ensures trace == old(trace) + [Triangle(x1, y1, x2, y2, x3, y3, color)]
    {
      trace := trace + [Triangle(x1, y1, x2, y2, x3, y3, color)];
    }

    method DrawCircle(cx: real, cy: real, radius: real, color: Color)
      modifies this
      ensures trace == old(trace) + [Circle(cx, cy, radius, color)]
    {
      trace := trace + [Circle(cx, cy, radius, color)];
    }
  }
}
