/**
 * The render engine: a bordered frame around a playfield in which each
 * logical cell is painted as a sc-by-sc block of terminal cells, and the
 * terminal cursor placed inside the cursor cell's block.
 *
 * The terminal is a canvas of characters written one cell at a time
 * (mvaddch) plus a cursor position (move). Writes outside the canvas are
 * dropped and a move outside it is refused, as curses does.
 */
module Render {
  import opened Defs
  import opened Arith
  import opened Board

  /** Width of the frame line around the playfield. */
  const BORDER_SZ: nat := 1

  /** First terminal row (or column) of the block of logical row (or column) i: i*sc + 1. */
  function TileOrigin(i: nat, sc: nat): nat {
    Mul(i, sc) + BORDER_SZ
  }

  /** The logical row (or column) whose block covers terminal row (or column) t >= 1: (t - 1) / sc. */
  function TileOf(t: nat, sc: nat): (i: nat)
    requires t >= 1 && sc >= 1
    ensures TileOrigin(i, sc) <= t < TileOrigin(i, sc) + sc
  {
    DivBounds(t - 1, sc);
    Div(t - 1, sc)
  }

  /** Projection law, both ways: the d-th terminal row of row i's block maps back to i. */
  lemma {:induction false} TileOfOrigin(i: nat, d: nat, sc: nat)
    requires d < sc
    ensures TileOf(TileOrigin(i, sc) + d, sc) == i
  {
    DivOfOffset(i, d, sc);
  }

  /** Blocks of distinct logical rows (or columns) never share a terminal row (or column). */
  lemma {:induction false} TilesDisjoint(i: nat, d: nat, j: nat, e: nat, sc: nat)
    requires d < sc && e < sc
    requires TileOrigin(i, sc) + d == TileOrigin(j, sc) + e
    ensures i == j && d == e
  {
    RowOffsetUnique(i, d, j, e, sc);
  }

  /**
   * The block of a cell of an n-cell axis lies strictly between the frame
   * lines 0 and n*sc + 1.
   */
  lemma {:induction false} TileInsideFrame(i: nat, d: nat, n: nat, sc: nat)
    requires i < n && d < sc
    ensures 1 <= TileOrigin(i, sc) + d <= Mul(n, sc)
  {
    IndexInGrid(i, d, sc, n);
  }

  /**
   * Terminal coordinate of the cursor along one axis:
   * i*sc + (sc - sc/2) + border - 1.
   */
  function TermCursor(i: nat, sc: nat): (t: nat)
    requires sc >= 1
    ensures TileOrigin(i, sc) <= t < TileOrigin(i, sc) + sc
    ensures t == TileOrigin(i, sc) + (sc - 1) / 2
  {
    Mul(i, sc) + (sc - sc / 2) + BORDER_SZ - 1
  }

  /**
   * What draw_border puts at terminal cell (r, c) around a playfield of
   * rows x cols terminal cells: '+' at the four corners, '-' along rows 0
   * and rows + 1, '|' along columns 0 and cols + 1, nothing elsewhere.
   */
  function BorderGlyph(rows: nat, cols: nat, r: nat, c: nat): (o: Option<char>)
    ensures o.Some? <==> r <= rows + 1 && c <= cols + 1 && !InPlayfield(rows, cols, r, c)
    ensures o == Some('+') <==> (r == 0 || r == rows + 1) && (c == 0 || c == cols + 1)
    ensures o == Some('-') <==> (r == 0 || r == rows + 1) && 1 <= c <= cols
    ensures o == Some('|') <==> 1 <= r <= rows && (c == 0 || c == cols + 1)
  {
    if r == 0 || r == rows + 1 then
      if c == 0 || c == cols + 1 then Some('+')
      else if c <= cols then Some('-')
      else None
    else if r <= rows && (c == 0 || c == cols + 1) then Some('|')
    else None
  }

  /** Is (r, c) inside the playfield of rows x cols terminal cells? */
  predicate InPlayfield(rows: nat, cols: nat, r: nat, c: nat) {
    1 <= r <= rows && 1 <= c <= cols
  }

  /** The glyph redraw_grid shows at playfield cell (r, c): that of the logical cell whose block covers it. */
  function TileGlyph(g: seq<char>, w: nat, h: nat, sc: nat, r: nat, c: nat): (ch: char)
    requires sc >= 1 && |g| == Area(w, h)
    requires InPlayfield(Mul(h, sc), Mul(w, sc), r, c)
    ensures ch in g
  {
    DivBelow(r - 1, h, sc);
    DivBelow(c - 1, w, sc);
    IndexInGrid(TileOf(r, sc), TileOf(c, sc), w, h);
    g[CellIndex(TileOf(r, sc), TileOf(c, sc), w)]
  }

  /**
   * One whole frame as redraw_grid paints it: the border, the playfield's
   * blocks, and nothing outside.
   */
  function Frame(g: seq<char>, w: nat, h: nat, sc: nat, r: nat, c: nat): (o: Option<char>)
    requires sc >= 1 && |g| == Area(w, h)
    ensures o.Some? <==> r <= Mul(h, sc) + 1 && c <= Mul(w, sc) + 1
    ensures InPlayfield(Mul(h, sc), Mul(w, sc), r, c) ==> o.Some? && o.value in g
    ensures !InPlayfield(Mul(h, sc), Mul(w, sc), r, c) ==> o == BorderGlyph(Mul(h, sc), Mul(w, sc), r, c)
  {
    var rows, cols := Mul(h, sc), Mul(w, sc);
    if InPlayfield(rows, cols, r, c) then Some(TileGlyph(g, w, h, sc, r, c))
    else BorderGlyph(rows, cols, r, c)
  }

  /** A terminal character c drawn over by o, if o draws anything. */
  function Over(o: Option<char>, under: char): char {
    match o
    case Some(ch) => ch
    case None => under
  }

  /**
   * Projection law for a whole frame: every terminal cell of cell (y, x)'s
   * block shows the glyph of (y, x).
   */
  lemma {:induction false} FrameShowsCell(g: seq<char>, w: nat, h: nat, sc: nat, y: nat, x: nat, dy: nat, dx: nat)
    requires sc >= 1 && |g| == Area(w, h) && y < h && x < w && dy < sc && dx < sc
    ensures CellIndex(y, x, w) < |g|
    ensures Frame(g, w, h, sc, TileOrigin(y, sc) + dy, TileOrigin(x, sc) + dx) == Some(g[CellIndex(y, x, w)])
  {
    TileInsideFrame(y, dy, h, sc);
    TileInsideFrame(x, dx, w, sc);
    TileOfOrigin(y, dy, sc);
    TileOfOrigin(x, dx, sc);
    IndexInGrid(y, x, w, h);
  }

  /** The terminal cursor sits inside the frame, on a terminal cell showing the cursor cell's own glyph. */
  lemma {:induction false} CursorOnOwnTile(g: seq<char>, w: nat, h: nat, sc: nat, p: Point)
    requires sc >= 1 && |g| == Area(w, h) && p.y < h && p.x < w
    ensures CellIndex(p.y, p.x, w) < |g|
    ensures InPlayfield(Mul(h, sc), Mul(w, sc), TermCursor(p.y, sc), TermCursor(p.x, sc))
    ensures Frame(g, w, h, sc, TermCursor(p.y, sc), TermCursor(p.x, sc)) == Some(g[CellIndex(p.y, p.x, w)])
  {
    var d := (sc - 1) / 2;
    FrameShowsCell(g, w, h, sc, p.y, p.x, d, d);
    TileInsideFrame(p.y, d, h, sc);
    TileInsideFrame(p.x, d, w, sc);
    assert TermCursor(p.y, sc) == TileOrigin(p.y, sc) + d && TermCursor(p.x, sc) == TileOrigin(p.x, sc) + d;
  }

  /**
   * The default 5x5 board at scale 1: the frame spans rows and columns
   * 0 to 6, cell (0,0) is drawn at terminal (1,1), and the cursor at (2,2)
   * is shown at terminal (3,3).
   */
  lemma {:induction false} DefaultBoardAtScaleOne(g: seq<char>)
    requires |g| == Area(5, 5)
    ensures Frame(g, 5, 5, 1, 6, 6) == Some('+') && Frame(g, 5, 5, 1, 7, 0) == None
    ensures Frame(g, 5, 5, 1, 1, 1) == Some(g[0])
    ensures TermCursor(2, 1) == 3
  {
    FrameShowsCell(g, 5, 5, 1, 0, 0, 0, 0);
  }

  /** The terminal: a canvas of characters and the position of its cursor. */
  class Screen {
    const cells: array2<char>
    var cy: int
    var cx: int

    /** A blank terminal of the given size, cursor at the origin. */
    constructor (rows: nat, cols: nat)
      ensures fresh(cells) && cells.Length0 == rows && cells.Length1 == cols
      ensures forall r, c :: 0 <= r < rows && 0 <= c < cols ==> cells[r, c] == ' '
      ensures cy == 0 && cx == 0
    {
      cells := new char[rows, cols]((_, _) => ' ');
      cy, cx := 0, 0;
    }

    predicate OnScreen(r: int, c: int) {
      0 <= r < cells.Length0 && 0 <= c < cells.Length1
    }

    /** mvaddch: puts ch at (y, x) if that is on the canvas. */
    method AddCh(y: int, x: int, ch: char)
      modifies cells
      ensures forall r, c :: OnScreen(r, c) ==>
        cells[r, c] == if r == y && c == x then ch else old(cells[r, c])
    {
      if OnScreen(y, x) {
        cells[y, x] := ch;
      }
    }

    /** move: places the cursor at (y, x) if that is on the canvas. */
    method Move(y: int, x: int)
      modifies this
      ensures if OnScreen(y, x) then cy == y && cx == x else cy == old(cy) && cx == old(cx)
    {
      if OnScreen(y, x) {
        cy, cx := y, x;
      }
    }
  }

  /** Does terminal cell (r, c) come before (row, col) in row-major drawing order? */
  predicate Before(r: int, c: int, row: int, col: int) {
    r < row || (r == row && c < col)
  }

  /** Draws the frame around a playfield of (h*sc) x (w*sc) terminal cells. */
  method DrawBorder(game: Game, scr: Screen)
    requires game.Shaped()
    modifies scr.cells
    ensures forall r, c :: scr.OnScreen(r, c) ==>
      scr.cells[r, c] == Over(BorderGlyph(Mul(game.h, game.sc), Mul(game.w, game.sc), r, c), old(scr.cells[r, c]))
  {
    var realW := Mul(game.w, game.sc);
    var realH := Mul(game.h, game.sc);

    // First line
    scr.AddCh(0, 0, '+');
    var x := 0;
    while x < realW
      invariant 0 <= x <= realW
      invariant forall r, c :: scr.OnScreen(r, c) ==>
        scr.cells[r, c] == if r >= 0 && c >= 0 && Before(r, c, 0, x + 1)
          then Over(BorderGlyph(realH, realW, r, c), old(scr.cells[r, c])) else old(scr.cells[r, c])
    {
      scr.AddCh(0, x + 1, '-');
      x := x + 1;
    }
    scr.AddCh(0, realW + 1, '+');

    // Mid lines
    var y := 1;
    while y <= realH
      invariant 1 <= y <= realH + 1
      invariant forall r, c :: scr.OnScreen(r, c) ==>
        scr.cells[r, c] == if r >= 0 && c >= 0 && Before(r, c, y, 0)
          then Over(BorderGlyph(realH, realW, r, c), old(scr.cells[r, c])) else old(scr.cells[r, c])
    {
      scr.AddCh(y, 0, '|');
      scr.AddCh(y, realW + 1, '|');
      y := y + 1;
    }

    // Last line
    scr.AddCh(realH + 1, 0, '+');
    x := 0;
    while x < realW
      invariant 0 <= x <= realW
      invariant forall r, c :: scr.OnScreen(r, c) ==>
        scr.cells[r, c] == if r >= 0 && c >= 0 && Before(r, c, realH + 1, x + 1)
          then Over(BorderGlyph(realH, realW, r, c), old(scr.cells[r, c])) else old(scr.cells[r, c])
    {
      scr.AddCh(realH + 1, x + 1, '-');
      x := x + 1;
    }
    scr.AddCh(realH + 1, realW + 1, '+');
  }

  /** A terminal row (or column) t >= 1 lies in the block of logical row i exactly when TileOf(t) is i. */
  lemma {:induction false} InTileIff(t: nat, i: nat, sc: nat)
    requires t >= 1 && sc >= 1
    ensures TileOrigin(i, sc) <= t < TileOrigin(i, sc) + sc <==> TileOf(t, sc) == i
  {
    if TileOrigin(i, sc) <= t < TileOrigin(i, sc) + sc {
      TileOfOrigin(i, t - TileOrigin(i, sc), sc);
    }
  }

  /** Paints the sc x sc block of terminal cells whose top-left corner is (top, left) with ch. */
  method DrawTile(scr: Screen, top: int, left: int, sc: nat, ch: char)
    modifies scr.cells
    ensures forall r, c :: scr.OnScreen(r, c) ==>
      scr.cells[r, c] == if top <= r < top + sc && left <= c < left + sc then ch else old(scr.cells[r, c])
  {
    var ty := top;
    while ty < top + sc
      invariant top <= ty <= top + sc
      invariant forall r, c :: scr.OnScreen(r, c) ==>
        scr.cells[r, c] == if top <= r < ty && left <= c < left + sc then ch else old(scr.cells[r, c])
    {
      var tx := left;
      while tx < left + sc
        invariant left <= tx <= left + sc
        invariant forall r, c :: scr.OnScreen(r, c) ==>
          scr.cells[r, c] == if (top <= r < ty && left <= c < left + sc) || (r == ty && left <= c < tx)
            then ch else old(scr.cells[r, c])
      {
        scr.AddCh(ty, tx, ch);
        tx := tx + 1;
      }
      ty := ty + 1;
    }
  }

  /** Has the block covering playfield cell (r, c) been painted once the blocks before (y, x) are? */
  predicate TileDrawn(sc: nat, y: int, x: int, r: int, c: int)
    requires sc >= 1
  {
    r >= 1 && c >= 1 && Before(TileOf(r, sc), TileOf(c, sc), y, x)
  }

  /**
   * Draws one whole frame: the border, then every logical cell as its
   * block, and places the terminal cursor inside the cursor cell's block.
   */
  method RedrawGrid(game: Game, scr: Screen)
    requires game.Shaped()
    modifies scr, scr.cells
    ensures forall r, c :: scr.OnScreen(r, c) ==>
      scr.cells[r, c] == Over(Frame(game.grid[..], game.w, game.h, game.sc, r, c), old(scr.cells[r, c]))
    ensures var ty, tx := TermCursor(game.cursor.y, game.sc), TermCursor(game.cursor.x, game.sc);
      if scr.OnScreen(ty, tx) then scr.cy == ty && scr.cx == tx else scr.cy == old(scr.cy) && scr.cx == old(scr.cx)
  {
    ghost var g := game.grid[..];
    var w, h, sc := game.w, game.h, game.sc;
    ghost var rows, cols := Mul(h, sc), Mul(w, sc);

    DrawBorder(game, scr);

    var y := 0;
    while y < h
      invariant 0 <= y <= h
      invariant game.grid[..] == g
      invariant scr.cy == old(scr.cy) && scr.cx == old(scr.cx)
      invariant forall r, c :: scr.OnScreen(r, c) ==>
        scr.cells[r, c] == if InPlayfield(rows, cols, r, c) && TileDrawn(sc, y, 0, r, c)
          then TileGlyph(g, w, h, sc, r, c) else Over(BorderGlyph(rows, cols, r, c), old(scr.cells[r, c]))
    {
      var x := 0;
      while x < w
        invariant 0 <= x <= w
        invariant scr.cy == old(scr.cy) && scr.cx == old(scr.cx)
        invariant forall r, c :: scr.OnScreen(r, c) ==>
          scr.cells[r, c] == if InPlayfield(rows, cols, r, c) && TileDrawn(sc, y, x, r, c)
            then TileGlyph(g, w, h, sc, r, c) else Over(BorderGlyph(rows, cols, r, c), old(scr.cells[r, c]))
      {
        IndexInGrid(y, x, w, h);
        var ch := game.grid[CellIndex(y, x, w)];
        var termY := Mul(y, sc) + BORDER_SZ;
        var termX := Mul(x, sc) + BORDER_SZ;
        DrawTile(scr, termY, termX, sc, ch);
        forall r, c | scr.OnScreen(r, c)
          ensures scr.cells[r, c] == if InPlayfield(rows, cols, r, c) && TileDrawn(sc, y, x + 1, r, c)
            then TileGlyph(g, w, h, sc, r, c) else Over(BorderGlyph(rows, cols, r, c), old(scr.cells[r, c]))
        {
          if r >= 1 && c >= 1 {
            InTileIff(r, y, sc);
            InTileIff(c, x, sc);
            if termY <= r < termY + sc && termX <= c < termX + sc {
              TileInsideFrame(y, r - termY, h, sc);
              TileInsideFrame(x, c - termX, w, sc);
            }
          }
        }
        x := x + 1;
      }
      forall r, c | scr.OnScreen(r, c) && InPlayfield(rows, cols, r, c)
        ensures TileDrawn(sc, y, w, r, c) <==> TileDrawn(sc, y + 1, 0, r, c)
      {
        DivBelow(c - 1, w, sc);
      }
      y := y + 1;
    }
    forall r, c | scr.OnScreen(r, c) && InPlayfield(rows, cols, r, c)
      ensures TileDrawn(sc, h, 0, r, c)
    {
      DivBelow(r - 1, h, sc);
    }

    scr.Move(TermCursor(game.cursor.y, sc), TermCursor(game.cursor.x, sc));
  }
}
