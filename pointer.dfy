/** `getClipSpaceMousePosition` of js/event-handlers.js: the pointer's client
    coordinates converted to WebGL clip space, x and y in [-1, 1] across the
    canvas, with y pointing up. */
module Pointer {

  /** The canvas geometry `getClipSpaceMousePosition` reads: the bounding
      rectangle's left and top, the drawing buffer size and the CSS size. */
  datatype Canvas = Canvas(left: real, top: real, width: real, height: real,
                           clientWidth: real, clientHeight: real)

  /** A canvas whose sizes are all positive. */
  predicate ProperCanvas(canvas: Canvas)
  {
    canvas.width > 0.0 && canvas.height > 0.0 && canvas.clientWidth > 0.0 && canvas.clientHeight > 0.0
  }

  /** The horizontal drawing-buffer pixel under the pointer: the client
      coordinate relative to the canvas, scaled from CSS to buffer pixels. */
  function PixelX(clientX: real, canvas: Canvas): real
    requires ProperCanvas(canvas)
  {
    (clientX - canvas.left) * canvas.width / canvas.clientWidth
  }

  /** The vertical drawing-buffer pixel under the pointer. */
  function PixelY(clientY: real, canvas: Canvas): real
    requires ProperCanvas(canvas)
  {
    (clientY - canvas.top) * canvas.height / canvas.clientHeight
  }

  /** `getClipSpaceMousePosition`: buffer pixels divided by the buffer size,
      then [0, 1] mapped to [-1, 1], with y flipped. */
  function ClipSpace(clientX: real, clientY: real, canvas: Canvas): (real, real)
    requires ProperCanvas(canvas)
  {
    (PixelX(clientX, canvas) / canvas.width * 2.0 - 1.0, PixelY(clientY, canvas) / canvas.height * -2.0 + 1.0)
  }

  // The conversion in closed form.

  /** The pixel conversion cancels: x = 2 (clientX - left) / clientWidth - 1
      and y = 1 - 2 (clientY - top) / clientHeight. */
  lemma {:induction false} ClipSpaceSimplified(clientX: real, clientY: real, canvas: Canvas)
    requires ProperCanvas(canvas)
    ensures ClipSpace(clientX, clientY, canvas).0 == 2.0 * ((clientX - canvas.left) / canvas.clientWidth) - 1.0
    ensures ClipSpace(clientX, clientY, canvas).1 == 1.0 - 2.0 * ((clientY - canvas.top) / canvas.clientHeight)
  {
    assert ClipSpace(clientX, clientY, canvas).0 == PixelX(clientX, canvas) / canvas.width * 2.0 - 1.0;
    assert ClipSpace(clientX, clientY, canvas).1 == PixelY(clientY, canvas) / canvas.height * -2.0 + 1.0;
    assert PixelX(clientX, canvas) / canvas.width == (clientX - canvas.left) / canvas.clientWidth;
    assert PixelY(clientY, canvas) / canvas.height == (clientY - canvas.top) / canvas.clientHeight;
  }

  /** The canvas's left and right edges map to -1 and 1, its top and bottom
      edges to 1 and -1. */
  lemma {:induction false} ClipSpaceEdges(canvas: Canvas)
    requires ProperCanvas(canvas)
    ensures ClipSpace(canvas.left, canvas.top, canvas) == (-1.0, 1.0)
    ensures ClipSpace(canvas.left + canvas.clientWidth, canvas.top + canvas.clientHeight, canvas) == (1.0, -1.0)
  {
    ClipSpaceSimplified(canvas.left, canvas.top, canvas);
    var right, bottom := canvas.left + canvas.clientWidth, canvas.top + canvas.clientHeight;
    ClipSpaceSimplified(right, bottom, canvas);
    assert (right - canvas.left) / canvas.clientWidth == 1.0;
    assert (bottom - canvas.top) / canvas.clientHeight == 1.0;
  }

  /** The conversion is invertible: client coordinates are recovered from
      clip-space ones. */
  lemma {:induction false} ClipSpaceInverse(clientX: real, clientY: real, canvas: Canvas)
    requires ProperCanvas(canvas)
    ensures var (x, y) := ClipSpace(clientX, clientY, canvas);
      && canvas.left + (x + 1.0) * canvas.clientWidth / 2.0 == clientX
      && canvas.top + (1.0 - y) * canvas.clientHeight / 2.0 == clientY
  {
    ClipSpaceSimplified(clientX, clientY, canvas);
    var (x, y) := ClipSpace(clientX, clientY, canvas);
    assert ((clientX - canvas.left) / canvas.clientWidth) * canvas.clientWidth == clientX - canvas.left;
    assert ((clientY - canvas.top) / canvas.clientHeight) * canvas.clientHeight == clientY - canvas.top;
  }
}
