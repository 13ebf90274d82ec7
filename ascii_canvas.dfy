/** The `InteractiveASCII` component's state: the glyph list, the recorded
    canvas size and the frame-rate gate, and the per-frame colour update. */
module AsciiCanvas {
  import opened AsciiText
  import opened AsciiGrid

  datatype Point = Point(x: real, y: real)

  function Distance(a: real, b: real): (d: real)
    ensures d >= 0.0 && (d == a - b || d == b - a)
  {
    if a >= b then a - b else b - a
  }

  /** `isInSquare`: whether glyph `g` lies in the cursor square, bounds inclusive.
      Nothing does while the pointer is outside the canvas; otherwise a glyph does
      exactly when it is within `halfWidth` of the pointer across and within
      `halfHeight` of it down. */
  function InSquare(g: AsciiChar, active: bool, pointer: Point, halfWidth: real, halfHeight: real): (inside: bool)
    ensures inside <==> active && Distance(g.x as real, pointer.x) <= halfWidth
                               && Distance(g.y as real, pointer.y) <= halfHeight
  {
    && active
    && g.x as real >= pointer.x - halfWidth && g.x as real <= pointer.x + halfWidth
    && g.y as real >= pointer.y - halfHeight && g.y as real <= pointer.y + halfHeight
  }

  /** A glyph after a processed frame: inside the square it takes the colour the
      random branch picked, outside it goes back to white at its base opacity.
      Position, symbol and base opacity never change. */
  function Recoloured(g: AsciiChar, inSquare: bool, picked: Colour): (h: AsciiChar)
    ensures h.x == g.x && h.y == g.y && h.symbol == g.symbol && h.baseOpacity == g.baseOpacity
    ensures !inSquare ==> h.colour == White(g.baseOpacity)
  {
    g.(colour := if inSquare then picked else White(g.baseOpacity))
  }

  class InteractiveAscii {
    const art: string
    const cursorSquareWidth: real
    const cursorSquareHeight: real
    /** `frameIntervalRef`: milliseconds between processed frames, `1000 / fps`. */
    var frameInterval: real
    /** `charsRef.current` */
    var chars: array<AsciiChar>
    /** `canvasSizeRef.current` */
    var canvasWidth: nat
    var canvasHeight: nat
    /** `lastFrameTimeRef.current` */
    var lastFrameTime: real

    constructor (art: string, cursorSquareWidth: real, cursorSquareHeight: real, fps: real)
      requires fps > 0.0
      ensures this.art == art && this.cursorSquareWidth == cursorSquareWidth
      ensures this.cursorSquareHeight == cursorSquareHeight
      ensures frameInterval == 1000.0 / fps
      ensures chars.Length == 0 && canvasWidth == 0 && canvasHeight == 0 && lastFrameTime == 0.0
    {
      this.art := art;
      this.cursorSquareWidth := cursorSquareWidth;
      this.cursorSquareHeight := cursorSquareHeight;
      frameInterval := 1000.0 / fps;
      chars := new AsciiChar[0];
      canvasWidth, canvasHeight := 0, 0;
      lastFrameTime := 0.0;
    }

    /** The effect run when the `fps` prop changes. */
    method SetFps(fps: real)
      requires fps > 0.0
      modifies this`frameInterval
      ensures frameInterval == 1000.0 / fps
    {
      frameInterval := 1000.0 / fps;
    }

    /** `updateCanvasSize`: on a window of `width` x `height`, rebuild the glyphs and
        record the size only when the size differs from the recorded one; with no
        canvas mounted, or an unchanged size, nothing changes. */
    method UpdateCanvasSize(hasCanvas: bool, width: nat, height: nat)
      modifies this
      ensures var resized := hasCanvas && (width != old(canvasWidth) || height != old(canvasHeight));
              if resized then
                && canvasWidth == width && canvasHeight == height
                && fresh(chars) && chars[..] == Grid(SplitLines(art), Rows(height), Cols(width))
                && frameInterval == old(frameInterval) && lastFrameTime == old(lastFrameTime)
              else
                unchanged(this)
    {
      if !hasCanvas {
        return;
      }
      if width != canvasWidth || height != canvasHeight {
        canvasWidth, canvasHeight := width, height;
        var glyphs := InitAsciiChars(art, width, height);
        chars := new AsciiChar[|glyphs|](k requires 0 <= k < |glyphs| => glyphs[k]);
        assert chars[..] == glyphs;
      }
    }

    /** One call of `animate(timestamp)`. A frame is processed only when at least
        `frameInterval` has passed since the last processed one; then every glyph is
        recoloured in place, and `pick(k)` stands for the colour the random branch
        gives glyph `k` inside the cursor square. */
    method Animate(timestamp: real, pointerInCanvas: bool, pointer: Point, pick: nat -> Colour)
      returns (processed: bool)
      modifies this`lastFrameTime, chars
      ensures processed <==> timestamp - old(lastFrameTime) >= frameInterval
      ensures lastFrameTime == if processed then timestamp else old(lastFrameTime)
      ensures !processed ==> chars[..] == old(chars[..])
      ensures processed ==> forall k :: 0 <= k < chars.Length ==>
                chars[k] == Recoloured(old(chars[k]),
                                       InSquare(old(chars[k]), pointerInCanvas, pointer, cursorSquareWidth / 2.5, cursorSquareHeight),
                                       pick(k))
      ensures forall k :: 0 <= k < chars.Length ==>
                chars[k].x == old(chars[k].x) && chars[k].y == old(chars[k].y) &&
                chars[k].symbol == old(chars[k].symbol) && chars[k].baseOpacity == old(chars[k].baseOpacity)
      ensures processed && !pointerInCanvas ==>
                forall k :: 0 <= k < chars.Length ==> chars[k].colour == White(chars[k].baseOpacity)
    {
      if timestamp - lastFrameTime < frameInterval {
        return false;
      }
      processed := true;
      lastFrameTime := timestamp;
      var halfWidth := cursorSquareWidth / 2.5;
      var halfHeight := cursorSquareHeight;
      var squareLeft, squareRight := pointer.x - halfWidth, pointer.x + halfWidth;
      var squareTop, squareBottom := pointer.y - halfHeight, pointer.y + halfHeight;
      var i := 0;
      while i < chars.Length
        invariant 0 <= i <= chars.Length
        invariant lastFrameTime == timestamp
        invariant forall k :: 0 <= k < i ==>
                    chars[k] == Recoloured(old(chars[k]), InSquare(old(chars[k]), pointerInCanvas, pointer, halfWidth, halfHeight), pick(k))
        invariant forall k :: i <= k < chars.Length ==> chars[k] == old(chars[k])
      {
        var g := chars[i];
        var isInSquare := pointerInCanvas && g.x as real >= squareLeft && g.x as real <= squareRight
                          && g.y as real >= squareTop && g.y as real <= squareBottom;
        if isInSquare {
          chars[i] := g.(colour := pick(i));
        } else if g.colour != White(g.baseOpacity) {
          chars[i] := g.(colour := White(g.baseOpacity));
        }
        i := i + 1;
      }
    }
  }
}
