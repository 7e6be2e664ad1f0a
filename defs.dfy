/**
 * Types and constants shared by the game: the configuration defaults and
 * minimums, the two tile glyphs, grid points and the game context's
 * settings, all with the 16-bit unsigned widths the program declares.
 */
module Defs {

  /** An unsigned 16-bit value, the width of every field of the context. */
  type U16 = n: int | 0 <= n < 0x1_0000

  /** C's conversion of an int to uint16_t: reduction modulo 2^16. */
  function ToU16(n: int): (r: U16)
    ensures 0 <= n < 0x1_0000 ==> r == n
    ensures -0x1_0000 <= n < 0 ==> r == n + 0x1_0000
    ensures (r - n) % 0x1_0000 == 0
  {
    n % 0x1_0000
  }

  const DEFAULT_W: U16 := 5
  const DEFAULT_H: U16 := 5
  const DEFAULT_S: U16 := 3
  const MIN_W: U16 := 5
  const MIN_H: U16 := 5

  /** Glyph of a lit tile. */
  const ON_CH: char := '#'
  /** Glyph of an unlit tile. */
  const OFF_CH: char := '.'
  /** The string terminator. */
  const NUL: char := 0 as char

  /** A position on the logical (unscaled) grid: row y, column x. */
  datatype Point = Point(y: U16, x: U16)

  /** The configuration part of the game context: grid size and render scale. */
  datatype Settings = Settings(w: U16, h: U16, sc: U16)

  const DEFAULTS: Settings := Settings(DEFAULT_W, DEFAULT_H, DEFAULT_S)

  /** The settings the game is willing to start with. */
  predicate ValidSettings(s: Settings) {
    s.w >= MIN_W && s.h >= MIN_H && s.sc >= 1
  }

  /** What one key press asks of the game, once mapped from the physical key. */
  datatype Action = Up | Down | Left | Right | Toggle | Quit | Noop

  datatype Option<T> = None | Some(value: T)
}
