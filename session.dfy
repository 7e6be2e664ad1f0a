/**
 * The game loop: redraw the frame, wait for a key, dispatch it, until the
 * player quits. Key presses arrive as an already-mapped sequence of
 * actions; when that sequence runs out the program is left waiting for the
 * next key with the last frame on the screen.
 */
module Session {
  import opened Defs
  import opened Board
  import opened Render

  /** Painting a frame over an earlier frame of the same board size leaves only the later one. */
  lemma {:induction false} FrameRepaint(g: seq<char>, g': seq<char>, w: nat, h: nat, sc: nat, r: nat, c: nat, under: char)
    requires sc >= 1 && |g| == Area(w, h) && |g'| == Area(w, h)
    ensures Over(Frame(g', w, h, sc, r, c), Over(Frame(g, w, h, sc, r, c), under))
         == Over(Frame(g', w, h, sc, r, c), under)
  {
  }

  /**
   * Plays a session: the frame is redrawn before each key is read, and a
   * Quit ends the loop. Returns how many keys were read. The board and
   * cursor end as Play says, and the screen shows the frame of the final
   * state with the terminal cursor on the cursor cell.
   */
  method RunSession(game: Game, scr: Screen, keys: seq<Action>) returns (read: nat)
    requires game.Valid()
    modifies game, game.grid, scr, scr.cells
    ensures game.Valid()
    ensures read <= |keys|
    ensures forall k :: 0 <= k < read - 1 ==> keys[k] != Quit
    ensures read < |keys| ==> read > 0 && keys[read - 1] == Quit
    ensures (game.grid[..], game.cursor) == Play(old(game.grid[..]), old(game.cursor), keys, game.w, game.h)
    ensures forall r, c :: scr.OnScreen(r, c) ==>
      scr.cells[r, c] == Over(Frame(game.grid[..], game.w, game.h, game.sc, r, c), old(scr.cells[r, c]))
    ensures var ty, tx := TermCursor(game.cursor.y, game.sc), TermCursor(game.cursor.x, game.sc);
      scr.OnScreen(ty, tx) ==> scr.cy == ty && scr.cx == tx
  {
    ghost var g0, p0 := game.grid[..], game.cursor;
    read := 0;
    RedrawGrid(game, scr);
    while read < |keys|
      invariant game.Valid()
      invariant read <= |keys|
      invariant forall k :: 0 <= k < read ==> keys[k] != Quit
      invariant Play(game.grid[..], game.cursor, keys[read..], game.w, game.h) == Play(g0, p0, keys, game.w, game.h)
      invariant forall r, c :: scr.OnScreen(r, c) ==>
        scr.cells[r, c] == Over(Frame(game.grid[..], game.w, game.h, game.sc, r, c), old(scr.cells[r, c]))
      invariant var ty, tx := TermCursor(game.cursor.y, game.sc), TermCursor(game.cursor.x, game.sc);
        scr.OnScreen(ty, tx) ==> scr.cy == ty && scr.cx == tx
      decreases |keys| - read
    {
      var a := keys[read];
      ghost var before := game.grid[..];
      assert keys[read..][1..] == keys[read + 1..];
      read := read + 1;
      var quit := game.Step(a);
      if quit {
        return;
      }
      RedrawGrid(game, scr);
      forall r, c | scr.OnScreen(r, c)
        ensures scr.cells[r, c] == Over(Frame(game.grid[..], game.w, game.h, game.sc, r, c), old(scr.cells[r, c]))
      {
        FrameRepaint(before, game.grid[..], game.w, game.h, game.sc, r, c, old(scr.cells[r, c]));
      }
    }
  }
}
