/** Cells, rows and grids of the terminal screen, and the width table.
    Colours, flags and widths are small tables; the screen model builds on them. */
module Cells {

  datatype Option<+T> = None | Some(value: T)

  datatype Flag = Bold | Faint | Italic | Underline | Blink | Reverse | Hidden | Strike

  /** The rendition a printed cell takes: `fg`, `bg` colour codes and the flag set. */
  datatype Pen = Pen(fg: int, bg: int, flags: set<Flag>)

  const DEFAULT_COLOR: int := -1
  const TRUE_COLOR: int := 0x100_0000
  const DEFAULT_PEN: Pen := Pen(DEFAULT_COLOR, DEFAULT_COLOR, {})

  /** `rune == 0` is blank; `width` is 1, 2 (lead of a wide glyph) or 0 (its trailing slot);
      `combo` is a 1-based id into the pool of combining-mark strings, 0 for none. */
  datatype Cell = Cell(rune: nat, pen: Pen, width: nat, combo: nat)

  type Line = seq<Cell>
  type Grid = seq<Line>

  function BlankCell(bg: int): Cell {
    Cell(0, Pen(DEFAULT_COLOR, bg, {}), 1, 0)
  }

  /** `n` copies of one value. */
  function Rep<T>(n: nat, x: T): (r: seq<T>)
    ensures |r| == n && forall i :: 0 <= i < n ==> r[i] == x
  {
    seq(n, _ => x)
  }

  predicate GridOk(g: Grid, cols: nat, rows: nat) {
    |g| == rows && forall r :: 0 <= r < rows ==> |g[r]| == cols
  }

  function Min(a: int, b: int): int { if a <= b then a else b }
  function Max(a: int, b: int): int { if a >= b then a else b }

  /** Rust's `clamp`; both sources call it with `lo <= hi`. */
  function Clamp(x: int, lo: int, hi: int): (r: int)
    requires lo <= hi
    ensures lo <= r <= hi
    ensures lo <= x <= hi ==> r == x
  {
    if x < lo then lo else if x > hi then hi else x
  }

  /** A Unicode scalar value: what `char::from_u32` accepts. */
  predicate IsScalar(cp: int) {
    0 <= cp < 0xD800 || 0xE000 <= cp < 0x11_0000
  }

  predicate IsCombining(cp: nat) {
    0x0300 <= cp <= 0x036F || 0x1AB0 <= cp <= 0x1AFF || 0x1DC0 <= cp <= 0x1DFF ||
    0x20D0 <= cp <= 0x20FF || 0xFE00 <= cp <= 0xFE0F || 0xFE20 <= cp <= 0xFE2F ||
    cp == 0x200B || cp == 0x200D || cp == 0xFEFF
  }

  predicate IsWide(cp: nat) {
    0x1100 <= cp <= 0x115F || 0x2E80 <= cp <= 0x303E || 0x3041 <= cp <= 0x33FF ||
    0x3400 <= cp <= 0x4DBF || 0x4E00 <= cp <= 0x9FFF || 0xA000 <= cp <= 0xA4CF ||
    0xAC00 <= cp <= 0xD7A3 || 0xF900 <= cp <= 0xFAFF || 0xFE30 <= cp <= 0xFE4F ||
    0xFF00 <= cp <= 0xFF60 || 0xFFE0 <= cp <= 0xFFE6 || 0x1F300 <= cp <= 0x1FAFF ||
    0x20000 <= cp <= 0x3FFFD
  }

  /** Display width of a code point. */
  function WidthOf(cp: nat): (w: nat)
    ensures w <= 2
  {
    if 0x20 <= cp < 0x7f then 1
    else if cp < 32 || 0x7f <= cp < 0xa0 then 0
    else if IsCombining(cp) then 0
    else if IsWide(cp) then 2
    else 1
  }

  function Rgb(r: nat, g: nat, b: nat): int {
    TRUE_COLOR + r * 0x1_0000 + g * 0x100 + b
  }
}
