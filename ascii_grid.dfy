/** `initAsciiChars`: the ASCII art tiled over a grid of character cells that
    covers the canvas, one glyph per non-space cell. */
module AsciiGrid {
  import opened AsciiText

  /** Approximate width of a monospace glyph, in pixels. */
  const CharWidth: nat := 8
  const LineHeight: nat := 10
  const StartX: int := 0
  const StartY: int := 10
  /** The opacity every freshly built glyph starts with and falls back to. */
  const BaseOpacity: real := 0.3

  /** A CSS colour `rgba(r, g, b, alpha)`. The source keeps colours as the strings
      these values print as; printing is injective, so comparing the strings is
      comparing these values. */
  datatype Colour = Rgba(red: int, green: int, blue: int, alpha: real)

  /** `rgba(255, 255, 255, ${opacity})` */
  function White(opacity: real): Colour {
    Rgba(255, 255, 255, opacity)
  }

  /** What `line[j % line.length]` yields: a character, or `undefined` when the
      line is empty (the index is then `NaN`). */
  datatype Symbol = Letter(c: char) | Undefined

  datatype AsciiChar = AsciiChar(x: int, y: int, symbol: Symbol, colour: Colour, baseOpacity: real)

  /** `Math.ceil(a / b)` on non-negative integers. */
  function CeilDiv(a: nat, b: nat): (q: nat)
    requires b > 0
  {
    (a + b - 1) / b
  }

  /** `CeilDiv(a, b)` is the least count of `b`-wide cells that covers `a`. */
  lemma CeilDivCovers(a: nat, b: nat)
    requires b > 0
    ensures a <= CeilDiv(a, b) * b
    ensures CeilDiv(a, b) == 0 || (CeilDiv(a, b) - 1) * b < a
  {
    var q, r := (a + b - 1) / b, (a + b - 1) % b;
    assert a + b - 1 == q * b + r;
    if q > 0 {
      MulPred(q, b);
    }
  }

  /** The grid covers the canvas: `Cols(width)` glyphs of 8 pixels span at least
      `width`, and one column fewer would not. */
  lemma GridCoversCanvas(width: nat, height: nat)
    ensures width <= Cols(width) * CharWidth && (Cols(width) == 0 || (Cols(width) - 1) * CharWidth < width)
    ensures height <= Rows(height) * LineHeight && (Rows(height) == 0 || (Rows(height) - 1) * LineHeight < height)
  {
    CeilDivCovers(width, CharWidth);
    CeilDivCovers(height, LineHeight);
  }

  function Cols(width: nat): nat {
    CeilDiv(width, CharWidth)
  }

  function Rows(height: nat): nat {
    CeilDiv(height, LineHeight)
  }

  /** `a % n`, by repeated subtraction: the index `a` wrapped around a period `n`. */
  function Wrap(a: nat, n: nat): (r: nat)
    requires n > 0
    ensures r < n
    decreases a
  {
    if a < n then a else Wrap(a - n, n)
  }

  /** The art line drawn on grid row `i`: rows wrap around the art's lines. */
  function LineAt(lines: seq<string>, i: nat): string
    requires |lines| > 0
  {
    lines[Wrap(i, |lines|)]
  }

  /** Every grid row draws one of the art's own lines, and row `k` of the first
      `|lines|` rows draws line `k`. */
  lemma LineFromArt(lines: seq<string>, i: nat)
    requires |lines| > 0
    ensures LineAt(lines, i) in lines
    ensures i < |lines| ==> LineAt(lines, i) == lines[i]
  {
    WrapIsMod(i, |lines|);
  }

  /** The symbol of column `j` of a line: columns wrap around the line. */
  function SymbolAt(line: string, j: nat): (sym: Symbol)
    ensures sym == Undefined <==> |line| == 0
  {
    if |line| == 0 then Undefined else Letter(line[Wrap(j, |line|)])
  }

  /** A cell's letter is one of its line's characters, and column `k` of the first
      `|line|` columns shows character `k`. */
  lemma SymbolFromLine(line: string, j: nat)
    ensures SymbolAt(line, j).Letter? ==> SymbolAt(line, j).c in line
    ensures j < |line| ==> SymbolAt(line, j) == Letter(line[j])
  {
    if |line| > 0 { WrapIsMod(j, |line|); }
  }

  /** Whether cell (i, j) gets a glyph: everything but a space does. */
  predicate Drawn(lines: seq<string>, i: nat, j: nat)
    requires |lines| > 0
  {
    SymbolAt(LineAt(lines, i), j) != Letter(' ')
  }

  /** The pixel column of grid column `j`. */
  function XOf(j: nat): int {
    StartX + j * CharWidth
  }

  /** The pixel baseline of grid row `i`. */
  function YOf(i: nat): int {
    StartY + i * LineHeight
  }

  /** The glyph of cell (i, j), at its pixel position and in the base colour. */
  function GlyphAt(lines: seq<string>, i: nat, j: nat): (g: AsciiChar)
    requires |lines| > 0
    ensures g.colour == White(g.baseOpacity) && g.baseOpacity == 0.3
  {
    AsciiChar(XOf(j), YOf(i), SymbolAt(LineAt(lines, i), j), White(BaseOpacity), BaseOpacity)
  }

  /** The glyphs of the first `cols` cells of grid row `i`, left to right. */
  function RowGlyphs(lines: seq<string>, i: nat, cols: nat): (row: seq<AsciiChar>)
    requires |lines| > 0
    ensures |row| <= cols
  {
    if cols == 0 then []
    else RowGlyphs(lines, i, cols - 1)
         + (if Drawn(lines, i, cols - 1) then [GlyphAt(lines, i, cols - 1)] else [])
  }

  /** The glyphs of the first `rows` grid rows, top to bottom. */
  function Grid(lines: seq<string>, rows: nat, cols: nat): seq<AsciiChar>
    requires |lines| > 0
  {
    if rows == 0 then [] else Grid(lines, rows - 1, cols) + RowGlyphs(lines, rows - 1, cols)
  }

  /** `initAsciiChars(width, height)`: nested loops over rows and columns that push
      one glyph per non-space cell. */
  method InitAsciiChars(art: string, width: nat, height: nat) returns (chars: seq<AsciiChar>)
    ensures chars == Grid(SplitLines(art), Rows(height), Cols(width))
  {
    var cols := Cols(width);
    var rows := Rows(height);
    var lines := SplitLines(art);
    chars := [];
    var i := 0;
    while i < rows
      invariant 0 <= i <= rows
      invariant chars == Grid(lines, i, cols)
    {
      var line := lines[i % |lines|];
      ghost var before := chars;
      var j := 0;
      while j < cols
        invariant 0 <= j <= cols
        invariant chars == before + RowGlyphs(lines, i, j)
      {
        var symbol := if |line| == 0 then Undefined else Letter(line[j % |line|]);
        CellStep(lines, i, j, line, symbol);
        if symbol != Letter(' ') {
          var x := XOf(j);
          var y := YOf(i);
          chars := chars + [AsciiChar(x, y, symbol, White(BaseOpacity), BaseOpacity)];
        }
        assert chars == before + RowGlyphs(lines, i, j + 1);
        j := j + 1;
      }
      i := i + 1;
    }
  }

  /** One step of the inner loop: the symbol read with `%` is the cell's symbol,
      and the row grows by that cell's glyph unless it is a space. */
  lemma CellStep(lines: seq<string>, i: nat, j: nat, line: string, symbol: Symbol)
    requires |lines| > 0 && line == lines[i % |lines|]
    requires symbol == if |line| == 0 then Undefined else Letter(line[j % |line|])
    ensures RowGlyphs(lines, i, j + 1) == RowGlyphs(lines, i, j)
              + (if symbol != Letter(' ') then [AsciiChar(XOf(j), YOf(i), symbol, White(BaseOpacity), BaseOpacity)] else [])
  {
    WrapIsMod(i, |lines|);
    if |line| > 0 { WrapIsMod(j, |line|); }
  }

  // ---------------------------------------------------------------------------
  // What the grid is

  /** At most one glyph per cell: no more than `rows * cols` glyphs. */
  lemma {:induction false} GridSize(lines: seq<string>, rows: nat, cols: nat)
    requires |lines| > 0
    ensures |Grid(lines, rows, cols)| <= rows * cols
  {
    if rows > 0 {
      GridSize(lines, rows - 1, cols);
      MulPred(rows, cols);
    }
  }

  lemma MulPred(a: nat, b: nat)
    requires a > 0
    ensures a * b == (a - 1) * b + b
  {
  }

  /** The glyph count of a canvas is bounded by its cell count. */
  lemma CanvasGlyphCount(art: string, width: nat, height: nat)
    ensures |Grid(SplitLines(art), Rows(height), Cols(width))| <= Rows(height) * Cols(width)
  {
    GridSize(SplitLines(art), Rows(height), Cols(width));
  }

  lemma {:induction false} RowContains(lines: seq<string>, i: nat, cols: nat, j: nat)
    requires |lines| > 0 && j < cols && Drawn(lines, i, j)
    ensures GlyphAt(lines, i, j) in RowGlyphs(lines, i, cols)
  {
    if j < cols - 1 { RowContains(lines, i, cols - 1, j); }
  }

  lemma {:induction false} GridContains(lines: seq<string>, rows: nat, cols: nat, i: nat, j: nat)
    requires |lines| > 0 && i < rows && j < cols && Drawn(lines, i, j)
    ensures GlyphAt(lines, i, j) in Grid(lines, rows, cols)
  {
    if i < rows - 1 {
      GridContains(lines, rows - 1, cols, i, j);
      InLeft(GlyphAt(lines, i, j), Grid(lines, rows - 1, cols), RowGlyphs(lines, rows - 1, cols));
    } else {
      RowContains(lines, i, cols, j);
      InRight(GlyphAt(lines, i, j), Grid(lines, rows - 1, cols), RowGlyphs(lines, rows - 1, cols));
    }
  }

  lemma InLeft<T>(x: T, a: seq<T>, b: seq<T>)
    requires x in a
    ensures x in a + b
  {
  }

  lemma InRight<T>(x: T, a: seq<T>, b: seq<T>)
    requires x in b
    ensures x in a + b
  {
  }

  /** The cell a glyph of row `i` comes from. */
  lemma {:induction false} RowElement(lines: seq<string>, i: nat, cols: nat, g: AsciiChar) returns (j: nat)
    requires |lines| > 0 && g in RowGlyphs(lines, i, cols)
    ensures j < cols && Drawn(lines, i, j) && g == GlyphAt(lines, i, j)
  {
    assert cols > 0;
    var earlier := InAppend(g, RowGlyphs(lines, i, cols - 1),
                            if Drawn(lines, i, cols - 1) then [GlyphAt(lines, i, cols - 1)] else []);
    if earlier {
      j := RowElement(lines, i, cols - 1, g);
    } else {
      j := cols - 1;
    }
  }

  /** A glyph of the grid is in the rows above row `rows - 1` (`above`), or else in
      row `rows - 1`. */
  lemma GridCases(lines: seq<string>, rows: nat, cols: nat, g: AsciiChar) returns (above: bool)
    requires |lines| > 0 && g in Grid(lines, rows, cols)
    ensures rows > 0
    ensures above ==> g in Grid(lines, rows - 1, cols)
    ensures !above ==> g in RowGlyphs(lines, rows - 1, cols)
  {
    assert rows > 0;
    above := InAppend(g, Grid(lines, rows - 1, cols), RowGlyphs(lines, rows - 1, cols));
  }

  /** The cell a glyph of the grid comes from. */
  lemma {:induction false} GridElement(lines: seq<string>, rows: nat, cols: nat, g: AsciiChar) returns (i: nat, j: nat)
    requires |lines| > 0 && g in Grid(lines, rows, cols)
    ensures i < rows && j < cols && Drawn(lines, i, j) && g == GlyphAt(lines, i, j)
  {
    var above := GridCases(lines, rows, cols, g);
    if above {
      i, j := GridElement(lines, rows - 1, cols, g);
    } else {
      i := rows - 1;
      j := RowElement(lines, i, cols, g);
    }
  }

  /** Which side of an append an element comes from (`left` when it is in `a`). */
  lemma InAppend<T>(x: T, a: seq<T>, b: seq<T>) returns (left: bool)
    requires x in a + b
    ensures left ==> x in a
    ensures !left ==> x in b
  {
    left := x in a;
  }

  /** A glyph is in the grid exactly when it is the glyph of some drawn cell
      (i, j) inside the grid: symbol `lines[i % |lines|][j % |line|]`, position
      (8 * j, 10 + 10 * i), base colour. */
  lemma GridMember(lines: seq<string>, rows: nat, cols: nat, g: AsciiChar)
    requires |lines| > 0
    ensures g in Grid(lines, rows, cols)
        <==> exists i: nat, j: nat :: i < rows && j < cols && Drawn(lines, i, j) && g == GlyphAt(lines, i, j)
  {
    if g in Grid(lines, rows, cols) {
      var i, j := GridElement(lines, rows, cols, g);
    }
    if exists i: nat, j: nat :: i < rows && j < cols && Drawn(lines, i, j) && g == GlyphAt(lines, i, j) {
      var i: nat, j: nat :| i < rows && j < cols && Drawn(lines, i, j) && g == GlyphAt(lines, i, j);
      GridContains(lines, rows, cols, i, j);
    }
  }

  /** A cell inside the grid contributes its glyph exactly when it is not a space. */
  lemma CellInGrid(lines: seq<string>, rows: nat, cols: nat, i: nat, j: nat)
    requires |lines| > 0 && i < rows && j < cols
    ensures GlyphAt(lines, i, j) in Grid(lines, rows, cols) <==> Drawn(lines, i, j)
  {
    var g := GlyphAt(lines, i, j);
    if g in Grid(lines, rows, cols) {
      var i', j' := GridElement(lines, rows, cols, g);
      assert XOf(j') == XOf(j) && YOf(i') == YOf(i);
    }
    if Drawn(lines, i, j) {
      GridContains(lines, rows, cols, i, j);
    }
  }

  /** No glyph is a space. */
  lemma {:induction false} GridHasNoSpace(lines: seq<string>, rows: nat, cols: nat)
    requires |lines| > 0
    ensures forall k :: 0 <= k < |Grid(lines, rows, cols)| ==> Grid(lines, rows, cols)[k].symbol != Letter(' ')
  {
    forall k | 0 <= k < |Grid(lines, rows, cols)|
      ensures Grid(lines, rows, cols)[k].symbol != Letter(' ')
    {
      var i, j := GridElement(lines, rows, cols, Grid(lines, rows, cols)[k]);
    }
  }

  /** Every freshly built glyph is white at opacity 0.3, its base opacity. */
  lemma {:induction false} GridInBaseColour(lines: seq<string>, rows: nat, cols: nat)
    requires |lines| > 0
    ensures forall k :: 0 <= k < |Grid(lines, rows, cols)| ==>
              Grid(lines, rows, cols)[k].colour == White(0.3) && Grid(lines, rows, cols)[k].baseOpacity == 0.3
  {
    forall k | 0 <= k < |Grid(lines, rows, cols)|
      ensures Grid(lines, rows, cols)[k].colour == White(0.3) && Grid(lines, rows, cols)[k].baseOpacity == 0.3
    {
      var i, j := GridElement(lines, rows, cols, Grid(lines, rows, cols)[k]);
    }
  }

  /** Where an art line is empty, its row is filled with `undefined` glyphs. */
  lemma EmptyLineGivesUndefined(lines: seq<string>, rows: nat, cols: nat, i: nat, j: nat)
    requires |lines| > 0 && i < rows && j < cols
    requires LineAt(lines, i) == ""
    ensures exists k :: 0 <= k < |Grid(lines, rows, cols)| && Grid(lines, rows, cols)[k].symbol == Undefined
  {
    CellInGrid(lines, rows, cols, i, j);
    var g := GlyphAt(lines, i, j);
    var k :| 0 <= k < |Grid(lines, rows, cols)| && Grid(lines, rows, cols)[k] == g;
  }

  /** The art tiles the grid: shifting a cell by the number of art lines, or by
      the length of its line, gives the same symbol. */
  lemma Tiling(lines: seq<string>, i: nat, j: nat)
    requires |lines| > 0
    ensures SymbolAt(LineAt(lines, i + |lines|), j) == SymbolAt(LineAt(lines, i), j)
    ensures SymbolAt(LineAt(lines, i), j + |LineAt(lines, i)|) == SymbolAt(LineAt(lines, i), j)
  {
    assert Wrap(i + |lines|, |lines|) == Wrap(i, |lines|);
    var line := LineAt(lines, i);
    if |line| > 0 {
      assert Wrap(j + |line|, |line|) == Wrap(j, |line|);
    }
  }

  /** `Wrap` is the source's `%`. */
  lemma {:induction false} WrapIsMod(a: nat, n: nat)
    requires n > 0
    ensures Wrap(a, n) == a % n
    decreases a
  {
    if a >= n {
      WrapIsMod(a - n, n);
      ModPeriod(a - n, n);
    }
  }

  /** Adding the modulus does not change the remainder. */
  lemma ModPeriod(a: nat, n: nat)
    requires n > 0
    ensures (a + n) % n == a % n
  {
    var q, r := a / n, a % n;
    assert a + n == (q + 1) * n + r by {
      assert (q + 1) * n == q * n + n;
    }
    ModUnique(a + n, n, q + 1, r);
  }

  /** Euclidean division has one quotient and one remainder. */
  lemma ModUnique(x: nat, n: nat, q: nat, r: nat)
    requires n > 0 && r < n && x == q * n + r
    ensures x % n == r
  {
    var d, m := x / n, x % n;
    if d < q {
      MulMonotone(d + 1, q, n);
    } else if q < d {
      MulMonotone(q + 1, d, n);
    }
  }

  lemma MulMonotone(a: nat, b: nat, n: nat)
    requires a <= b
    ensures a * n <= b * n
  {
    assert b * n == a * n + (b - a) * n;
  }

  // ---------------------------------------------------------------------------
  // Row-major order

  /** `p` is drawn before `q`: a higher row, or the same row further left. */
  predicate Before(p: AsciiChar, q: AsciiChar) {
    p.y < q.y || (p.y == q.y && p.x < q.x)
  }

  predicate RowMajor(s: seq<AsciiChar>) {
    forall a, b :: 0 <= a < b < |s| ==> Before(s[a], s[b])
  }

  lemma {:induction false} RowOrdered(lines: seq<string>, i: nat, cols: nat)
    requires |lines| > 0
    ensures RowMajor(RowGlyphs(lines, i, cols))
    ensures forall k :: 0 <= k < |RowGlyphs(lines, i, cols)| ==>
              RowGlyphs(lines, i, cols)[k].y == YOf(i) &&
              StartX <= RowGlyphs(lines, i, cols)[k].x < XOf(cols)
  {
    if cols > 0 {
      RowOrdered(lines, i, cols - 1);
    }
  }

  lemma {:induction false} GridRowsBelow(lines: seq<string>, rows: nat, cols: nat)
    requires |lines| > 0
    ensures forall k :: 0 <= k < |Grid(lines, rows, cols)| ==> Grid(lines, rows, cols)[k].y < YOf(rows)
  {
    if rows > 0 {
      GridRowsBelow(lines, rows - 1, cols);
      RowOrdered(lines, rows - 1, cols);
    }
  }

  /** Glyphs come out in row-major order: `y` never decreases, and along one
      `y` the `x` strictly increases. */
  lemma {:induction false} GridOrdered(lines: seq<string>, rows: nat, cols: nat)
    requires |lines| > 0
    ensures RowMajor(Grid(lines, rows, cols))
  {
    if rows > 0 {
      GridOrdered(lines, rows - 1, cols);
      GridRowsBelow(lines, rows - 1, cols);
      RowOrdered(lines, rows - 1, cols);
      var top := Grid(lines, rows - 1, cols);
      var row := RowGlyphs(lines, rows - 1, cols);
      var g := top + row;
      forall a, b | 0 <= a < b < |g| ensures Before(g[a], g[b]) {
        if b < |top| {
          assert g[a] == top[a] && g[b] == top[b];
        } else if a >= |top| {
          assert g[a] == row[a - |top|] && g[b] == row[b - |top|];
        } else {
          assert g[a] == top[a] && g[b] == row[b - |top|];
        }
      }
    }
  }
}
