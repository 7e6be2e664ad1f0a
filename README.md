# 5x5 — a verified model of the Lights-Out terminal game

The program is a Lights-Out game for the terminal. The board is `w × h`
tiles, each lit (`#`) or unlit (`.`), stored row-major in a flat buffer, so
cell `(y, x)` is at index `y*w + x`. The player moves a cursor over the
board. Pressing space toggles the plus shape at the cursor: the cursor tile
and each of its up, down, left and right neighbours that is on the board.
The game draws the board inside a `+`/`-`/`|` frame, with each tile
enlarged to an `sc × sc` block of terminal cells. Its command line accepts
a resolution (`-r WxH`), a scale (`-s N`), the controls (`-k`) and the usage
text (`-h`).

This project models that core in Dafny and proves its properties. It is
split into six files:

- `defs.dfy` (module `Defs`): the types and constants of `src/main.h`.
  - Every context field is a `uint16_t`, written `U16`. `ToU16` is C's
    conversion of an `int` to `uint16_t` (reduction modulo 2^16).
  - The defaults are 5×5 at scale 3; the minimum is 5×5.
  - The glyphs are `ON_CH` and `OFF_CH`.
  - `Action` is the key press after it has been mapped to a command.
- `arith.dfy` (module `Arith`): multiplication and division written as
  recursive functions, with linear lemmas about them. The grid and render
  arithmetic (`y*w + x`, `y*sc + 1`, `(t-1)/sc`) is built on them.
- `board.dfy` (module `Board`): the board.
  - The class `Game` is the game context `ctx_t`: its settings, its cursor
    and its grid buffer, an `array<char>`.
    - Its constructor is `main`'s set-up.
    - `InitGrid` is `init_grid`.
    - `ToggleAdjacent` is `toggle_adjacent`.
    - `Step` is one pass of the key dispatch.
  - Each of these is proved against specification functions:
    - `Toggled`: the board after a toggle.
    - `Moved`: the cursor after a key.
    - `Centre`: the start formula.
    - `Play`: a whole session of keys.
- `render.dfy` (module `Render`): the terminal and the drawing.
  - The terminal is a `Screen`: a 2-D character canvas written by `AddCh`
    (`mvaddch`) and a cursor set by `Move` (`move`). Writes off the canvas
    are dropped, as curses does.
  - `DrawBorder` and `RedrawGrid` are proved to paint exactly `Frame`. That
    is the border, plus every playfield cell showing the glyph of the
    logical cell whose block covers it. The terminal cursor is left on the
    cursor's own block whenever that position lies on the canvas; a move
    off the canvas is refused and leaves the terminal cursor where it was.
- `session.dfy` (module `Session`): `main`'s loop of redraw, read a key and
  dispatch, until the player quits.
- `args.dfy` (module `Args`): the command line.
  - C strings live in NUL-terminated buffers.
  - `Atoi` is C's `atoi`: blanks are skipped, one optional sign is read,
    then the leading decimal digits.
  - `ParseResolution` cuts its buffer at the first `x` and reads both halves
    with `atoi`.
  - Every argument has three readings (`Reading`): the option it names, the
    size it gives as the value of `-r`, and the scale it gives as the value
    of `-s`. The loop's specification `StepAt`/`ParseFrom` uses the reading
    that the argument's position calls for.
  - `ParseArgs` reads the argument vector into an `Outcome`: start with
    these settings, show the controls, or show the usage for a stated
    reason. It also states which buffers end cut (`Cuts`): the value of
    every `-r` the loop reaches.

Behaviour of the code worth knowing:

- **Even sizes.** The start cursor is `n - n/2 - 1` and the terminal cursor
  sits `sc - sc/2 - 1` cells into its block. For an even count both pick
  the upper or left of the two middle cells. `Centre` and `TermCursor`
  state this in their contracts.
- **16-bit truncation.** The sizes and the scale are stored in 16-bit
  fields, so the value `atoi` returns is reduced modulo 65536 before it is
  checked. This applies to negative values too.
  - `-s 65536` is refused as scale 0.
  - `-s 65537` is accepted as scale 1.
  - `-s -1` is accepted as scale 65535.
  - `-r 65541x5` is accepted as 5×5.
  - `-r -5x-5` is accepted as 65531×65531.

  `ScaleArgument`, `ResolutionArgument` and `NegativeValuesWrap` state this
  behaviour.

## Model

| member | source | states |
|---|---|---|
| Defs.ToU16 | src/main.h:51-53 | storing an int in a `uint16_t` field keeps values from 0 to 2^16−1 as they are, maps -1 to 65535, and otherwise differs by a multiple of 2^16 |
| Board.Flip | src/main.c:242-245 | a flipped tile is always lit or unlit, and always differs from what it was |
| Board.CellIndexInjective | src/main.c:135-137 | distinct cells `(y, x)` of the board have distinct buffer indices `y*w + x`, all below `w*h` |
| Board.FlipPlus | src/main.c:241-277 | an entry of the buffer changes exactly when its index is one of the plus's indices |
| Board.Toggled | src/main.c:237-278 | the toggle at the cursor keeps the buffer's length, and changes an entry exactly when its index is in the plus at the cursor |
| Board.PlusIndicesArePlus | src/main.c:241-277 | a buffer index is touched by the toggle exactly when its cell is the cursor or an on-board orthogonal neighbour of it |
| Board.PartialToggleFlips | src/main.c:241-277 | after the first n of the five guarded flips, an entry is flipped exactly when one of those n steps targets it, and every other entry is unchanged |
| Board.ToggleSteps | src/main.c:241-277 | the five guarded flips in the source's order together make the plus-shaped toggle |
| Board.ToggledCell | src/main.c:237-278 | after a toggle, a cell in the plus at the cursor is flipped and every other cell keeps its glyph |
| Board.ToggleInvolution | src/main.c:237-278 | toggling twice at the same cursor restores the board exactly |
| Board.ToggleKeepsGlyphs | src/main.c:237-278 | a toggle keeps every tile lit or unlit |
| Board.ToggleDoesNotWrap | src/main.c:248-277 | neighbours beyond an edge are skipped: from the top row the bottom row is untouched, from the left column the right column is untouched, and in the flat buffer the entry just before a left-column cursor (last cell of the row above) and just after a right-column cursor (first cell of the row below) are untouched |
| Board.ToggleCentreOfDefaultBoard | src/main.c:237-278 | on the 5×5 board, toggling at (2,2) changes exactly (2,2), (1,2), (3,2), (2,1) and (2,3) |
| Board.Moved | src/main.c:335-354 | a move keeps the cursor on the board and never changes the other coordinate; Toggle, Quit and other keys leave it |
| Board.MoveAtEdge | src/main.c:335-354 | each move is a no-op exactly at its own edge, and elsewhere changes its coordinate by exactly one |
| Board.OppositeMovesCancel | src/main.c:335-354 | away from the edges, Up then Down (and so on) returns the cursor to where it was |
| Board.Centre | src/main.c:301-304 | for n ≥ 1 the start coordinate `n - n/2 - 1` is on the board and is the middle cell, or the upper/left middle cell for even n; for n = 0 it wraps to 65535 |
| Board.InitialCursorOnBoard | src/main.c:301-304 | the initial cursor is on the board for every h, w ≥ 1, and is (2,2) on the default board |
| Board.Play | src/main.c:320-368 | a session of key presses keeps the cursor on the board and the buffer's size |
| Board.PlayKeepsGlyphs | src/main.c:320-368 | a session keeps every tile lit or unlit |
| Board.OnlyToggleChangesBoard | src/main.c:334-367 | a session without a toggle leaves the board unchanged |
| Board.PlayStopsAtQuit | src/main.c:364-368 | nothing after the first Quit has any effect |
| Board.ToggleTwiceCancels | src/main.c:355-357 | two toggles in a row cancel out within a session |
| Board.Game.constructor | src/main.c:288-316 | a started game has the parsed settings, a w*h buffer all OFF, and the cursor at the centre |
| Board.Game.InitGrid | src/main.c:131-139 | every tile of the buffer is OFF afterwards |
| Board.Game.FlipTile | src/main.c:242-245 | flipping one tile changes that buffer entry ON→OFF, anything else→ON, and no other entry |
| Board.Game.FlipStep | src/main.c:247-277 | one guarded flip whose tile is on the board takes the buffer from the state after the earlier flips to the state after this one |
| Board.Game.ToggleAdjacent | src/main.c:237-278 | the new buffer is `Toggled` of the old one at the cursor, and stays a board of glyphs |
| Board.Game.Step | src/main.c:334-367 | the cursor becomes `Moved` of the old one, the board is toggled only for Toggle, and only Quit ends the loop |
| Render.TileOf | src/main.c:212-216 | terminal row (or column) t lies in the block that starts at `TileOrigin((t-1)/sc)`: at or after its first line and before the next block |
| Render.TileOfOrigin | src/main.c:212-216 | `TileOrigin` (`i*sc + 1`) and `TileOf` are inverse: every terminal row (or column) of cell i's block maps back to i |
| Render.TilesDisjoint | src/main.c:212-216 | `TileOrigin` places blocks of distinct cells so that they never share a terminal row (or column) |
| Render.TileInsideFrame | src/main.c:207-216 | every block lies strictly between frame lines 0 and `n*sc + 1` |
| Render.TermCursor | src/main.c:225-228 | the terminal cursor lies inside the cursor cell's block, at offset `(sc-1)/2` from its top-left: the upper/left middle for even sc |
| Render.BorderGlyph | src/main.c:160-183 | the border has a character exactly outside the playfield and within the frame rectangle: '+' exactly at the four corners, '-' exactly along the top and bottom lines between them, '|' exactly along the left and right lines between them |
| Render.TileGlyph | src/main.c:207-216 | a playfield terminal cell shows a glyph taken from the board |
| Render.Frame | src/main.c:201-230 | a frame covers exactly the `(h*sc+2) × (w*sc+2)` rectangle at the origin, shows a board glyph on each playfield cell, and is the border everywhere else |
| Render.FrameShowsCell | src/main.c:207-217 | every terminal cell of cell (y, x)'s block shows the glyph of (y, x) |
| Render.CursorOnOwnTile | src/main.c:220-229 | the terminal cursor is inside the playfield, on a terminal cell showing the cursor cell's own glyph |
| Render.DefaultBoardAtScaleOne | src/main.c:160-229 | on 5×5 at scale 1 the frame's corner is at (6,6), cell (0,0) is at (1,1), and the cursor (2,2) is at terminal (3,3) |
| Render.Screen.AddCh | src/main.c:167 | `mvaddch` writes one canvas cell when it is on the canvas and changes nothing else |
| Render.Screen.Move | src/main.c:229 | `move` sets the terminal cursor when the target is on the canvas and leaves it otherwise |
| Render.DrawBorder | src/main.c:160-183 | the canvas gets '+' at the four corners, '-' along rows 0 and h*sc+1, '|' along columns 0 and w*sc+1, and nothing else changes |
| Render.InTileIff | src/main.c:212-216 | terminal row (or column) t lies in the block of cell i exactly when `(t-1)/sc` is i, both directions |
| Render.DrawTile | src/main.c:214-216 | exactly the sc × sc block at the given origin is painted with the glyph |
| Render.RedrawGrid | src/main.c:201-230 | the canvas shows the whole frame over what was there, and the terminal cursor is moved to the cursor cell's position when that is on the canvas |
| Session.FrameRepaint | src/main.c:320-333 | painting a frame over an earlier frame of the same board size leaves exactly the later frame |
| Session.RunSession | src/main.c:319-368 | keys are read until the first Quit; the board and cursor end as `Play` says; the screen shows the final frame with the cursor on the cursor cell |
| Args.CStringAt | src/main.c:31 | a C string is the buffer's characters up to, and not including, its first NUL |
| Args.Atoi | src/main.c:41-42 | atoi gives a negative number only for a string with a '-', reads a string of digits as its decimal value, and gives 0 for a string that is empty or starts with neither a blank, a sign nor a digit |
| Args.AtoiDigits | src/main.c:41-42 | atoi reads leading decimal digits as their value, whatever non-digit text follows them |
| Args.AtoiNegative | src/main.c:41-42 | atoi reads '-' then decimal digits as the negated value, whatever non-digit text follows |
| Args.AtoiSigned | src/main.c:81 | atoi reads back the decimal rendering of every integer, negative ones included, whatever non-digit text follows it |
| Args.FirstIndex | src/main.c:31-32 | the scan for 'x' stops at the first 'x' of the string |
| Args.Resolution | src/main.c:26-43 | without an 'x' the resolution is 0×0; with one, it is atoi of the text before the first 'x' and of the text after it, each cut to 16 bits |
| Args.ResolutionSplit | src/main.c:31-42 | a string split at its first 'x' yields its two halves read by atoi, cut to 16 bits |
| Args.ResolutionRoundTrip | src/main.c:26-43 | "WxH" written in decimal yields (W, H) cut to 16 bits, for every pair of integers W and H |
| Args.ResolutionFirstX | src/main.c:31-42 | "10x7x3" gives 10×7: only the first 'x' splits, and atoi stops at the second |
| Args.ResolutionWithoutX | src/main.c:34-36 | "12" gives 0×0 |
| Args.ResolutionEmptyHalf | src/main.c:39-41 | "x9" gives 0×9: an empty width reads as 0 |
| Args.CutAtX | src/main.c:31-39 | the cut keeps the buffer's length, and an entry changes only if it is an 'x' that becomes NUL with no 'x' and no NUL before it, so at most the first 'x' of the C string changes |
| Args.CutEndsString | src/main.c:38-41 | after the cut, the buffer's C string ends just before its first 'x', and is unchanged without one |
| Args.BufferWithX | src/main.c:31-42 | when the scan stops at an 'x', the resolution is atoi of the two halves and the cut overwrites exactly that 'x' |
| Args.CutBuffer | src/main.c:39-42 | after the cut, the width's text is the buffer's C string and the height's text follows the new NUL |
| Args.BufferWithoutX | src/main.c:31-36 | when the scan stops at the NUL, the resolution is 0×0 and the buffer is not changed |
| Args.ParseResolution | src/main.c:26-43 | the result is `Resolution` of the buffer's string; the first 'x' is overwritten with NUL, and without one the buffer is unchanged |
| Args.FlagSpellings | src/main.c:56-98 | each option is named by exactly its short and its long spelling ("-r"/"--resolution", "-s"/"--scale", "-k"/"--keys", "-h"/"--help") |
| Args.StopOptionIsNoValue | src/main.c:31-42 | "-k", "--keys", "-h" and "--help" hold no 'x' and read as 0, so as a value of -r or -s they are refused |
| Args.StepAt | src/main.c:55-101 | one pass of the loop either stops, or goes on at a later argument, no further than the end, with settings that stay valid |
| Args.ParseFrom | src/main.c:55-122 | when the reading lets the game start from valid settings, the settings it starts with are valid |
| Args.Parse | src/main.c:53-123 | from valid settings, any argument list that lets the game start leaves the settings valid: at least 5×5 and scale at least 1 |
| Args.StartHasNoStopOption | src/main.c:90-101 | the game starts only when no argument is "-k", "--keys", "-h" or "--help" |
| Args.ResolutionWithoutXRefused | src/main.c:34-36 | a resolution value without an 'x' is always refused |
| Args.ResolutionArgument | src/main.c:56-72 | "-r WxH" starts the game with W×H cut to 16 bits when both are then at least 5, and is refused otherwise |
| Args.ScaleArgument | src/main.c:73-89 | "-s N" starts with scale N mod 65536 when that is at least 1, and is refused otherwise |
| Args.ScaleWithoutNumberRefused | src/main.c:80-89 | "-s v" where atoi finds no number in v (such as "abc" or "") is refused as scale 0 |
| Args.ResolutionWithoutNumberRefused | src/main.c:63-72 | "-r" with a value whose halves around its first 'x' hold no number (such as "axb" or "x") reads as 0×0 and is refused |
| Args.NoArgumentsStartWithDefaults | src/main.c:288-298 | with only the program name, the game starts with the defaults 5×5 at scale 3, which are valid settings |
| Args.NegativeValuesWrap | src/main.c:64-81 | "-5x-5" reads as 65531×65531, and "-s -1" starts with scale 65535 |
| Args.MissingValueRefused | src/main.c:57-61 | a resolution or scale option given as the last argument is refused, when every argument before it is an ordinary argument |
| Args.CutIsResolutionValue | src/main.c:63-64 | the loop cuts only an argument that follows a -r, and only after the index it starts from |
| Args.ReadArgument | src/main.c:56-101 | one pass of the loop makes the step `StepAt` specifies, and cuts the next buffer exactly when the argument is a -r with a value after it |
| Args.ReadArguments | src/main.c:55-102 | the loop ends with the outcome `ParseFrom` specifies, and exactly the buffers `Cuts` names end cut |
| Args.ParseArgs | src/main.c:53-123 | the outcome is `Parse` of the argument strings as they were on entry; the buffers `Cuts` names are cut at their first 'x' and every other buffer keeps its contents |

## Left out

- Terminal I/O is not modelled: `initscr`, `raw`, `noecho`, `keypad`,
  `refresh` and `endwin`. The screen is an abstract canvas written by
  `mvaddch` and `move`.
- Session.RunSession: `clear_line(ctx.h + 3)` after each key, with its
  `getyx`/`clrtoeol`, is not modelled. It blanks terminal row `h + 3`,
  which uses h and not `h*sc`, so for scale 2 and above that row lies
  inside the frame. The next redraw repaints it, except after Quit, when no
  redraw follows. So on Quit the program's final screen has row `h + 3`
  blank, where `RunSession`'s ensures say the whole final frame is shown;
  at scale 1 the row lies below the frame and the model keeps its old
  contents where the program blanks them.
  - `mvaddch`'s advance of the cursor after each write is not modelled.
    The final `move` of each frame overrides it whenever its target lies
    on the canvas.
- The mapping of physical keys to actions is not modelled: `tolower`,
  `getch`, the vim letters, the arrow keys and Ctrl-C. The session takes
  already-mapped `Action`s.
- Session.RunSession: it ends when its finite key list runs out. The
  program would block in `getch` there, with the same frame on the screen.
- The random grid branches have no behaviour in the source and are not
  modelled: `init_grid(ctx, true)` and the 'r' key. The `CHEAT` macro is
  not modelled either.
- `srand(time(NULL))` is not modelled.
- `calloc` is not modelled, nor the out-of-memory path it does not check.
  The constructor allocates the buffer directly.
- The usage and controls texts are not modelled; they are output only. The
  `Outcome` records which text would be printed, and why.
- Args.Atoi: a value beyond the range of `int` is not modelled; C leaves
  it undefined, and the model reads it as the unbounded number.
- C `int` overflow is not modelled. It would take `w*sc`, `h*sc` or
  `y*w + x` beyond 2^31; the model's integers are unbounded.
- Args.ParseArgs: on a refused argument list, the context may already hold
  a refused width, height or scale. That partly updated context is not
  part of the `Outcome`, because `main` exits at once in that case.
- Args.ParseArgs requires each argument buffer to be NUL-terminated and
  each to be a distinct buffer, as the C runtime guarantees for `argv`.
