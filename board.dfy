/**
 * The logical Lights-Out board: a flat row-major buffer of w*h tile glyphs,
 * the cursor over it, the plus-shaped toggle and the clamped cursor moves.
 *
 * The buffer index y*w + x of cell (y, x) is written CellIndex(y, x, w),
 * built on Arith.Mul (see Arith.MulIsProduct for its agreement with *).
 */
module Board {
  import opened Defs
  import opened Arith

  /** A glyph the board shows: lit or unlit. */
  predicate IsGlyph(c: char) {
    c == ON_CH || c == OFF_CH
  }

  predicate AllGlyphs(g: seq<char>) {
    forall i :: 0 <= i < |g| ==> IsGlyph(g[i])
  }

  /** The new value of one toggled tile: a lit tile goes out, anything else lights up. */
  function Flip(c: char): (r: char)
    ensures IsGlyph(r) && r != c
  {
    if c == ON_CH then OFF_CH else ON_CH
  }

  /** Row-major index y*w + x of cell (y, x) on a grid w cells wide. */
  function CellIndex(y: nat, x: nat, w: nat): nat {
    Mul(y, w) + x
  }

  /** Number of cells of an h-row, w-column grid, w*h. */
  function Area(w: nat, h: nat): nat {
    Mul(h, w)
  }

  /** Distinct cells of a grid have distinct indices, all inside the buffer. */
  lemma {:induction false} CellIndexInjective(w: nat, h: nat, r: nat, c: nat, r': nat, c': nat)
    requires r < h && c < w && r' < h && c' < w
    ensures CellIndex(r, c, w) < Area(w, h)
    ensures CellIndex(r, c, w) == CellIndex(r', c', w) <==> r == r' && c == c'
  {
    IndexInGrid(r, c, w, h);
    if CellIndex(r, c, w) == CellIndex(r', c', w) {
      RowOffsetUnique(r, c, r', c', w);
    }
  }

  /**
   * Is cell (r, c) the cursor cell or one of its four orthogonal neighbours?
   * Only cells of the board are ever asked about, so a neighbour beyond an
   * edge is simply not a cell: it is skipped, never wrapped round.
   */
  predicate InPlus(p: Point, r: int, c: int) {
    (r == p.y && c == p.x)
    || (r == p.y - 1 && c == p.x) || (r == p.y + 1 && c == p.x)
    || (r == p.y && c == p.x - 1) || (r == p.y && c == p.x + 1)
  }

  /**
   * Is i the buffer index of a cell of the plus at p, given the cursor
   * cell's index k? The neighbours are k - w and k + w for the rows above
   * and below and k - 1 and k + 1 for the columns left and right, each only
   * when it is on the board.
   */
  predicate PlusIndex(i: int, k: int, w: nat, h: nat, p: Point) {
    FlippedBy(i, k, w, h, p, 5)
  }

  /** The buffer with the entries at the plus's indices around index k flipped and every other entry kept. */
  function FlipPlus(g: seq<char>, k: int, w: nat, h: nat, p: Point): (r: seq<char>)
    ensures |r| == |g|
    ensures forall i :: 0 <= i < |g| ==> (r[i] != g[i] <==> PlusIndex(i, k, w, h, p))
  {
    seq(|g|, i requires 0 <= i < |g| => if PlusIndex(i, k, w, h, p) then Flip(g[i]) else g[i])
  }

  /**
   * The buffer after a plus-shaped toggle at p: the plus around the cursor
   * cell's index. ToggledCell reads this cell by cell in terms of InPlus.
   */
  function Toggled(g: seq<char>, w: nat, h: nat, p: Point): (r: seq<char>)
    ensures |r| == |g|
    ensures forall i :: 0 <= i < |g| ==> (r[i] != g[i] <==> PlusIndex(i, CellIndex(p.y, p.x, w), w, h, p))
  {
    FlipPlus(g, CellIndex(p.y, p.x, w), w, h, p)
  }

  /** The neighbours of cell (y, x) that are on the board have indices k - w, k + w, k - 1 and k + 1 inside the buffer. */
  lemma {:induction false} PlusInGrid(y: nat, x: nat, w: nat, h: nat)
    requires y < h && x < w
    ensures CellIndex(y, x, w) < Area(w, h)
    ensures y > 0 ==> CellIndex(y - 1, x, w) == CellIndex(y, x, w) - w
    ensures y < h - 1 ==> CellIndex(y + 1, x, w) == CellIndex(y, x, w) + w < Area(w, h)
    ensures x > 0 ==> CellIndex(y, x - 1, w) == CellIndex(y, x, w) - 1
    ensures x < w - 1 ==> CellIndex(y, x + 1, w) == CellIndex(y, x, w) + 1 < Area(w, h)
  {
    IndexInGrid(y, x, w, h);
    if y < h - 1 {
      IndexInGrid(y + 1, x, w, h);
    }
    if x < w - 1 {
      IndexInGrid(y, x + 1, w, h);
    }
  }

  /** Cell (r, c)'s index is one of the plus's indices exactly when the cell is in the plus. */
  lemma {:induction false} PlusIndicesArePlus(w: nat, h: nat, p: Point, r: nat, c: nat)
    requires p.y < h && p.x < w && r < h && c < w
    ensures PlusIndex(CellIndex(r, c, w), CellIndex(p.y, p.x, w), w, h, p) <==> InPlus(p, r, c)
  {
    var i, k := CellIndex(r, c, w), CellIndex(p.y, p.x, w);
    if r < p.y - 1 {
      MulGap(r + 1, p.y, w);
      assert i < k - w;
    } else if r > p.y + 1 {
      MulGap(p.y + 1, r, w);
      assert i > k + w;
    }
  }

  /** g with entry i flipped. */
  function FlipAt(g: seq<char>, i: int): (r: seq<char>)
    requires 0 <= i < |g|
    ensures |r| == |g|
  {
    g[i := Flip(g[i])]
  }

  /**
   * toggle_adjacent works in five steps around the cursor cell's index k:
   * step 0 flips k, steps 1 and 2 the tiles above and below (k - w, k + w),
   * steps 3 and 4 those left and right (k - 1, k + 1).
   */
  function StepIndex(k: int, w: nat, n: nat): int {
    if n == 0 then k else if n == 1 then k - w else if n == 2 then k + w
    else if n == 3 then k - 1 else k + 1
  }

  /** Step n happens when its tile is on the board; the cursor tile always is. */
  predicate StepOn(w: nat, h: nat, p: Point, n: nat) {
    n == 0 || (n == 1 && p.y > 0) || (n == 2 && p.y < h - 1)
    || (n == 3 && p.x > 0) || (n == 4 && p.x < w - 1)
  }

  /** Is i the index of a tile flipped by one of the first n steps? */
  predicate FlippedBy(i: int, k: int, w: nat, h: nat, p: Point, n: nat) {
    (n > 0 && i == k)
    || (n > 1 && p.y > 0 && i == k - w) || (n > 2 && p.y < h - 1 && i == k + w)
    || (n > 3 && p.x > 0 && i == k - 1) || (n > 4 && p.x < w - 1 && i == k + 1)
  }

  /** The buffer after the first n steps, each flipping its tile when that tile is on the board. */
  function PartialToggle(g: seq<char>, k: int, w: nat, h: nat, p: Point, n: nat): (r: seq<char>)
    ensures |r| == |g|
  {
    if n == 0 then g
    else
      var prev := PartialToggle(g, k, w, h, p, n - 1);
      var i := StepIndex(k, w, n - 1);
      if StepOn(w, h, p, n - 1) && 0 <= i < |g| then FlipAt(prev, i) else prev
  }

  /**
   * After the first n steps exactly the tiles of those steps are flipped,
   * each once: the five indices are distinct.
   */
  lemma {:induction false} PartialToggleFlips(g: seq<char>, k: int, w: nat, h: nat, p: Point, n: nat)
    requires n <= 5 && p.x < w
    ensures forall i :: 0 <= i < |g| ==>
      PartialToggle(g, k, w, h, p, n)[i] == if FlippedBy(i, k, w, h, p, n) then Flip(g[i]) else g[i]
  {
    if n > 0 {
      PartialToggleFlips(g, k, w, h, p, n - 1);
    }
  }

  /** All five steps make the plus-shaped toggle. */
  lemma {:induction false} ToggleSteps(g: seq<char>, k: int, w: nat, h: nat, p: Point)
    requires p.x < w
    ensures PartialToggle(g, k, w, h, p, 5) == FlipPlus(g, k, w, h, p)
  {
    PartialToggleFlips(g, k, w, h, p, 5);
  }

  /** The toggle read cell by cell: a cell in the plus is flipped, every other cell keeps its glyph. */
  lemma {:induction false} ToggledCell(g: seq<char>, w: nat, h: nat, p: Point, r: nat, c: nat)
    requires |g| == Area(w, h) && p.y < h && p.x < w && r < h && c < w
    ensures CellIndex(r, c, w) < |g|
    ensures Toggled(g, w, h, p)[CellIndex(r, c, w)]
            == if InPlus(p, r, c) then Flip(g[CellIndex(r, c, w)]) else g[CellIndex(r, c, w)]
  {
    IndexInGrid(r, c, w, h);
    PlusIndicesArePlus(w, h, p, r, c);
  }

  /** Toggling twice at the same cursor restores a board of glyphs exactly. */
  lemma {:induction false} ToggleInvolution(g: seq<char>, w: nat, h: nat, p: Point)
    requires AllGlyphs(g)
    ensures Toggled(Toggled(g, w, h, p), w, h, p) == g
  {
    var t := Toggled(g, w, h, p);
    var tt := Toggled(t, w, h, p);
    forall i | 0 <= i < |g|
      ensures tt[i] == g[i]
    {
      assert IsGlyph(g[i]);
    }
  }

  /** A toggle keeps the board made of glyphs. */
  lemma {:induction false} ToggleKeepsGlyphs(g: seq<char>, w: nat, h: nat, p: Point)
    requires AllGlyphs(g)
    ensures AllGlyphs(Toggled(g, w, h, p))
  {
  }

  /**
   * Neighbours beyond an edge are skipped, not wrapped: with the cursor on
   * the top row, the bottom row of its column is untouched, and with the
   * cursor on the left column, the right column of its row is untouched.
   * In the flat buffer the entry just before a left-column cell (the last
   * cell of the row above) and the entry just after a right-column cell
   * (the first cell of the row below) are untouched as well.
   */
  lemma {:induction false} ToggleDoesNotWrap(g: seq<char>, w: nat, h: nat, p: Point)
    requires w > 2 && h > 2 && |g| == Area(w, h) && p.y < h && p.x < w
    ensures CellIndex(h - 1, p.x, w) < |g| && CellIndex(p.y, w - 1, w) < |g|
    ensures p.y == 0 ==>
      Toggled(g, w, h, p)[CellIndex(h - 1, p.x, w)] == g[CellIndex(h - 1, p.x, w)]
    ensures p.x == 0 ==>
      Toggled(g, w, h, p)[CellIndex(p.y, w - 1, w)] == g[CellIndex(p.y, w - 1, w)]
    ensures p.x == 0 && p.y > 0 ==>
      CellIndex(p.y - 1, w - 1, w) == CellIndex(p.y, p.x, w) - 1 &&
      Toggled(g, w, h, p)[CellIndex(p.y - 1, w - 1, w)] == g[CellIndex(p.y - 1, w - 1, w)]
    ensures p.x == w - 1 && p.y < h - 1 ==>
      CellIndex(p.y + 1, 0, w) == CellIndex(p.y, p.x, w) + 1 < |g| &&
      Toggled(g, w, h, p)[CellIndex(p.y + 1, 0, w)] == g[CellIndex(p.y + 1, 0, w)]
  {
    ToggledCell(g, w, h, p, h - 1, p.x);
    ToggledCell(g, w, h, p, p.y, w - 1);
    if p.x == 0 && p.y > 0 {
      ToggledCell(g, w, h, p, p.y - 1, w - 1);
    }
    if p.x == w - 1 && p.y < h - 1 {
      IndexInGrid(p.y + 1, 0, w, h);
      ToggledCell(g, w, h, p, p.y + 1, 0);
    }
  }

  /** On the default 5x5 board, toggling at (2,2) changes (2,2), (1,2), (3,2), (2,1), (2,3) and nothing else. */
  lemma {:induction false} ToggleCentreOfDefaultBoard(g: seq<char>, r: nat, c: nat)
    requires |g| == Area(5, 5) && r < 5 && c < 5
    ensures CellIndex(r, c, 5) < |g|
    ensures Toggled(g, 5, 5, Point(2, 2))[CellIndex(r, c, 5)] != g[CellIndex(r, c, 5)]
            <==> (r, c) in {(2, 2), (1, 2), (3, 2), (2, 1), (2, 3)}
  {
    ToggledCell(g, 5, 5, Point(2, 2), r, c);
  }

  /** v limited to [0, hi]. */
  function Clamp(v: int, hi: nat): (r: nat)
    ensures r <= hi
    ensures 0 <= v <= hi ==> r == v
  {
    if v < 0 then 0 else if v > hi then hi else v
  }

  /**
   * Where an action leaves the cursor on an h-by-w board: a move steps one
   * cell along its axis, clamped to the board; other actions leave it.
   */
  function Moved(p: Point, a: Action, h: U16, w: U16): (r: Point)
    requires p.y < h && p.x < w
    ensures r.y < h && r.x < w
    ensures a in {Up, Down} ==> r.x == p.x
    ensures a in {Left, Right} ==> r.y == p.y
    ensures a !in {Up, Down, Left, Right} ==> r == p
  {
    match a
    case Up => p.(y := Clamp(p.y - 1, h - 1))
    case Down => p.(y := Clamp(p.y + 1, h - 1))
    case Left => p.(x := Clamp(p.x - 1, w - 1))
    case Right => p.(x := Clamp(p.x + 1, w - 1))
    case _ => p
  }

  /** A move at the edge it points to does nothing; anywhere else it changes its coordinate by exactly one. */
  lemma {:induction false} MoveAtEdge(p: Point, a: Action, h: U16, w: U16)
    requires p.y < h && p.x < w
    ensures a == Up ==> (Moved(p, a, h, w) == p <==> p.y == 0)
    ensures a == Down ==> (Moved(p, a, h, w) == p <==> p.y == h - 1)
    ensures a == Left ==> (Moved(p, a, h, w) == p <==> p.x == 0)
    ensures a == Right ==> (Moved(p, a, h, w) == p <==> p.x == w - 1)
    ensures a == Up && p.y > 0 ==> Moved(p, a, h, w).y == p.y - 1
    ensures a == Down && p.y < h - 1 ==> Moved(p, a, h, w).y == p.y + 1
    ensures a == Left && p.x > 0 ==> Moved(p, a, h, w).x == p.x - 1
    ensures a == Right && p.x < w - 1 ==> Moved(p, a, h, w).x == p.x + 1
  {
  }

  /** Away from the edges, opposite moves undo each other. */
  lemma {:induction false} OppositeMovesCancel(p: Point, h: U16, w: U16)
    requires p.y < h && p.x < w
    ensures p.y > 0 ==> Moved(Moved(p, Up, h, w), Down, h, w) == p
    ensures p.y < h - 1 ==> Moved(Moved(p, Down, h, w), Up, h, w) == p
    ensures p.x > 0 ==> Moved(Moved(p, Left, h, w), Right, h, w) == p
    ensures p.x < w - 1 ==> Moved(Moved(p, Right, h, w), Left, h, w) == p
  {
  }

  /**
   * The start coordinate along an axis of n cells, n - n/2 - 1 stored in a
   * uint16: the middle cell for odd n, the upper or left of the two middle
   * cells for even n, and a wrapped-round 65535 for n == 0.
   */
  function Centre(n: U16): (c: U16)
    ensures n >= 1 ==> c < n && 2 * c + 1 <= n <= 2 * c + 2
    ensures n == 0 ==> c == 0xFFFF
  {
    ToU16(n - n / 2 - 1)
  }

  /** The initial cursor is on the board for every h, w >= 1, and is (2,2) on the default board. */
  lemma {:induction false} InitialCursorOnBoard(h: U16, w: U16)
    requires h >= 1 && w >= 1
    ensures Point(Centre(h), Centre(w)).y < h && Point(Centre(h), Centre(w)).x < w
    ensures Point(Centre(DEFAULT_H), Centre(DEFAULT_W)) == Point(2, 2)
  {
  }

  /**
   * The board and cursor after a session's key presses: each action is
   * dispatched in turn (a move, or a toggle at the cursor) and the first
   * Quit ends the session, ignoring whatever follows it.
   */
  function Play(g: seq<char>, p: Point, acts: seq<Action>, w: U16, h: U16): (r: (seq<char>, Point))
    requires p.y < h && p.x < w
    ensures |r.0| == |g| && r.1.y < h && r.1.x < w
    decreases |acts|
  {
    if |acts| == 0 || acts[0] == Quit then (g, p)
    else
      var q := Moved(p, acts[0], h, w);
      Play(if acts[0] == Toggle then Toggled(g, w, h, q) else g, q, acts[1..], w, h)
  }

  /** A session keeps the board made of glyphs. */
  lemma {:induction false} PlayKeepsGlyphs(g: seq<char>, p: Point, acts: seq<Action>, w: U16, h: U16)
    requires p.y < h && p.x < w && AllGlyphs(g)
    ensures AllGlyphs(Play(g, p, acts, w, h).0)
    decreases |acts|
  {
    if |acts| > 0 && acts[0] != Quit {
      var q := Moved(p, acts[0], h, w);
      ToggleKeepsGlyphs(g, w, h, q);
      PlayKeepsGlyphs(if acts[0] == Toggle then Toggled(g, w, h, q) else g, q, acts[1..], w, h);
    }
  }

  /** Without a Toggle, a session only moves the cursor: the board is left as it was. */
  lemma {:induction false} OnlyToggleChangesBoard(g: seq<char>, p: Point, acts: seq<Action>, w: U16, h: U16)
    requires p.y < h && p.x < w && Toggle !in acts
    ensures Play(g, p, acts, w, h).0 == g
    decreases |acts|
  {
    if |acts| > 0 && acts[0] != Quit {
      assert acts == [acts[0]] + acts[1..];
      OnlyToggleChangesBoard(g, Moved(p, acts[0], h, w), acts[1..], w, h);
    }
  }

  /** Nothing after the first Quit has any effect. */
  lemma {:induction false} PlayStopsAtQuit(g: seq<char>, p: Point, pre: seq<Action>, rest: seq<Action>, w: U16, h: U16)
    requires p.y < h && p.x < w && Quit !in pre
    ensures Play(g, p, pre + [Quit] + rest, w, h) == Play(g, p, pre, w, h)
    decreases |pre|
  {
    if |pre| > 0 {
      var q := Moved(p, pre[0], h, w);
      assert pre == [pre[0]] + pre[1..];
      assert (pre + [Quit] + rest)[1..] == pre[1..] + [Quit] + rest;
      PlayStopsAtQuit(if pre[0] == Toggle then Toggled(g, w, h, q) else g, q, pre[1..], rest, w, h);
    }
  }

  /** Two presses of Toggle in a row cancel out. */
  lemma {:induction false} ToggleTwiceCancels(g: seq<char>, p: Point, rest: seq<Action>, w: U16, h: U16)
    requires p.y < h && p.x < w && AllGlyphs(g)
    ensures Play(g, p, [Toggle, Toggle] + rest, w, h) == Play(g, p, rest, w, h)
  {
    var acts := [Toggle, Toggle] + rest;
    assert acts[1..] == [Toggle] + rest && acts[1..][1..] == rest;
    ToggleInvolution(g, w, h, p);
  }

  /**
   * The game context: the settings, the cursor and the grid buffer of
   * w*h glyphs, cell (y, x) at index y*w + x.
   */
  class Game {
    const w: U16
    const h: U16
    const sc: U16
    var cursor: Point
    const grid: array<char>

    /** Dimensions fixed and valid, buffer sized w*h, cursor on the board. */
    ghost predicate Shaped()
      reads this
    {
      ValidSettings(Settings(w, h, sc)) && grid.Length == Area(w, h)
      && cursor.y < h && cursor.x < w
    }

    /** Shaped, and every tile holds ON_CH or OFF_CH. */
    ghost predicate Valid()
      reads this, grid
    {
      Shaped() && AllGlyphs(grid[..])
    }

    /**
     * Starting a game from validated settings: the cursor at the centre, a
     * zero-filled buffer of w*h tiles, then every tile turned off.
     */
    constructor (s: Settings)
      requires ValidSettings(s)
      ensures Valid() && fresh(grid)
      ensures w == s.w && h == s.h && sc == s.sc
      ensures cursor == Point(Centre(s.h), Centre(s.w))
      ensures forall i :: 0 <= i < grid.Length ==> grid[i] == OFF_CH
    {
      w, h, sc := s.w, s.h, s.sc;
      cursor := Point(Centre(s.h), Centre(s.w));
      grid := new char[Area(s.w, s.h)](_ => NUL);
      new;
      InitGrid();
    }

    /** Turns every tile off, row by row. */
    method InitGrid()
      requires Shaped()
      modifies grid
      ensures Valid()
      ensures forall i :: 0 <= i < grid.Length ==> grid[i] == OFF_CH
    {
      var y := 0;
      while y < h
        invariant 0 <= y <= h && Mul(y, w) <= grid.Length
        invariant forall i :: 0 <= i < Mul(y, w) ==> grid[i] == OFF_CH
      {
        MulMono(y + 1, h, w);
        var x := 0;
        while x < w
          invariant 0 <= x <= w
          invariant forall i :: 0 <= i < CellIndex(y, x, w) ==> grid[i] == OFF_CH
        {
          grid[CellIndex(y, x, w)] := OFF_CH;
          x := x + 1;
        }
        y := y + 1;
      }
    }

    /** Flips the tile at buffer index i: a lit tile goes out, anything else lights up. */
    method FlipTile(i: int)
      requires 0 <= i < grid.Length
      modifies grid
      ensures grid[..] == FlipAt(old(grid[..]), i)
    {
      if grid[i] == ON_CH {
        grid[i] := OFF_CH;
      } else {
        grid[i] := ON_CH;
      }
    }

    /** Step n of the toggle, when its tile i is on the board: flips that tile. */
    method FlipStep(i: int, ghost g: seq<char>, ghost k: int, ghost p: Point, ghost n: nat)
      requires StepOn(w, h, p, n) && i == StepIndex(k, w, n) && 0 <= i < grid.Length
      requires grid[..] == PartialToggle(g, k, w, h, p, n)
      modifies grid
      ensures grid[..] == PartialToggle(g, k, w, h, p, n + 1)
    {
      FlipTile(i);
    }

    /** Flips the cursor tile and each of its orthogonal neighbours that is on the board. */
    method ToggleAdjacent()
      requires Valid()
      modifies grid
      ensures Valid()
      ensures grid[..] == Toggled(old(grid[..]), w, h, cursor)
    {
      ghost var g, p := grid[..], cursor;
      var y, x := cursor.y, cursor.x;
      ghost var k := CellIndex(y, x, w);
      PlusInGrid(y, x, w, h);

      // The cursor tile
      FlipStep(CellIndex(y, x, w), g, k, p, 0);
      // Up
      if y > 0 {
        FlipStep(CellIndex(y - 1, x, w), g, k, p, 1);
      }
      assert grid[..] == PartialToggle(g, k, w, h, p, 2);
      // Down
      if y < h - 1 {
        FlipStep(CellIndex(y + 1, x, w), g, k, p, 2);
      }
      assert grid[..] == PartialToggle(g, k, w, h, p, 3);
      // Left
      if x > 0 {
        FlipStep(CellIndex(y, x - 1, w), g, k, p, 3);
      }
      assert grid[..] == PartialToggle(g, k, w, h, p, 4);
      // Right
      if x < w - 1 {
        FlipStep(CellIndex(y, x + 1, w), g, k, p, 4);
      }
      assert grid[..] == PartialToggle(g, k, w, h, p, 5);
      ToggleSteps(g, k, w, h, p);
      ToggleKeepsGlyphs(g, w, h, p);
    }

    /**
     * One pass of the key dispatch: a move steps the cursor with clamping,
     * Toggle flips the plus at the cursor, Quit ends the session and
     * anything else is ignored.
     */
    method Step(a: Action) returns (quit: bool)
      requires Valid()
      modifies this, grid
      ensures Valid()
      ensures quit <==> a == Quit
      ensures cursor == Moved(old(cursor), a, h, w)
      ensures grid[..] == if a == Toggle then Toggled(old(grid[..]), w, h, cursor) else old(grid[..])
    {
      quit := false;
      match a
      case Up =>
        if cursor.y > 0 {
          cursor := cursor.(y := cursor.y - 1);
        }
      case Down =>
        if cursor.y < h - 1 {
          cursor := cursor.(y := cursor.y + 1);
        }
      case Left =>
        if cursor.x > 0 {
          cursor := cursor.(x := cursor.x - 1);
        }
      case Right =>
        if cursor.x < w - 1 {
          cursor := cursor.(x := cursor.x + 1);
        }
      case Toggle =>
        ToggleAdjacent();
      case Quit =>
        quit := true;
      case Noop =>
    }
  }
}
