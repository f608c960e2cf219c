/** The screen as a value, and every operation on it as a function from state to state.
    The class `Screen` in Screen.dfy is proved against these functions; the theorems about
    whole runs are proved about them.

    History is kept as the log of every line that ever left the top of the primary screen,
    plus the number of lines pushed since the last clear: the ring holds the last
    `min(cap, since)` lines of the log, and the line counter is the log's length. */
module ScreenModel {
  import opened Cells

  datatype Mouse = MouseNone | X10 | Normal | ButtonEvent | AnyEvent

  datatype Modes = Modes(
    autoWrap: bool, origin: bool, cursorVisible: bool, appCursorKeys: bool, appKeypad: bool,
    bracketedPaste: bool, insert: bool, mouse: Mouse, mouseSgr: bool)

  datatype Saved = Saved(cx: nat, cy: nat, pen: Pen, origin: bool)

  /** A prompt mark: the global number of its line and the exit status, once known. */
  datatype Prompt = Prompt(line: nat, exit: Option<int>)

  /** The two grids; `inAlt` says which is active. */
  datatype Bufs = Bufs(inAlt: bool, primary: Grid, alt: Grid)

  /** Column, row, and whether the next glyph wraps first. */
  datatype Cursor = Cursor(x: nat, y: nat, wrap: bool)

  /** First and last row of the scroll region. */
  datatype Region = Region(top: nat, bot: nat)

  /** Where the last glyph was printed, and zero-width marks attach; negative before any. It is a
      position: after a scroll it names whatever cell stands there. */
  datatype Base = Base(x: int, y: int)

  datatype History = History(log: seq<Line>, since: nat, cap: nat)

  datatype Scr = Scr(
    cols: nat, rows: nat, bufs: Bufs, cur: Cursor, pen: Pen, reg: Region, saved: Saved,
    tabs: seq<bool>, hist: History, pool: seq<seq<nat>>, prompts: seq<Prompt>, base: Base, modes: Modes)

  const DEFAULT_MODES := Modes(true, false, true, false, false, false, false, MouseNone, false)

  /** Grid extents are screen sizes; the source casts them to 32-bit integers. */
  const MAX_DIM: nat := 0x7fff_ffff
  const TWO64: nat := 0x1_0000_0000_0000_0000

  const MAX_MARKS: nat := 1_000_000
  const MAX_MARK_LEN: nat := 16
  const MAX_PROMPTS: nat := 2000

  /** What every operation keeps: both grids are rows x cols, the cursor and the scroll region
      are inside the grid, and the ring never claims more lines than were pushed. */
  predicate Ok(s: Scr) {
    && 1 <= s.cols <= MAX_DIM && 1 <= s.rows <= MAX_DIM
    && GridOk(s.bufs.primary, s.cols, s.rows) && GridOk(s.bufs.alt, s.cols, s.rows)
    && s.cur.x < s.cols && s.cur.y < s.rows
    && s.reg.top <= s.reg.bot < s.rows
    && |s.tabs| == s.cols
    && s.hist.since <= |s.hist.log| && 1 <= s.hist.cap
  }

  /** The scalar part of `Ok`. */
  lemma Bounds(s: Scr)
    requires Ok(s)
    ensures 1 <= s.cols <= MAX_DIM && 1 <= s.rows <= MAX_DIM
    ensures s.cur.x < s.cols && s.cur.y < s.rows && s.reg.top <= s.reg.bot < s.rows && |s.tabs| == s.cols
    ensures s.hist.since <= |s.hist.log| && 1 <= s.hist.cap
    ensures |s.bufs.primary| == |s.bufs.alt| == s.rows
  {
  }

  /** What output on a screen of fixed size does to its history: the log only grows. */
  predicate Extends(s: Scr, r: Scr) {
    s.hist.log <= r.hist.log && r.hist.cap == s.hist.cap && r.cols == s.cols && r.rows == s.rows
  }

  // ---- history -----------------------------------------------------------

  function Kept(s: Scr): (n: nat)
    requires s.hist.since <= |s.hist.log|
    ensures n <= |s.hist.log|
  {
    Min(s.hist.cap, s.hist.since)
  }

  function LastN<T>(s: seq<T>, n: nat): (r: seq<T>)
    requires n <= |s|
    ensures |r| == n
  {
    s[|s| - n..]
  }

  /** The lines the ring holds, oldest first. */
  function Hist(s: Scr): seq<Line>
    requires s.hist.since <= |s.hist.log|
  {
    LastN(s.hist.log, Kept(s))
  }

  /** The log grows by some lines. */
  function Pushed(h: History, lines: Grid): History {
    h.(log := h.log + lines, since := h.since + |lines|)
  }

  function ClearHistory(s: Scr): Scr {
    s.(hist := s.hist.(since := 0), prompts := [])
  }

  function MoveTo(s: Scr, x: nat, y: nat): Scr { s.(cur := Cursor(x, y, false)) }

  function Switched(s: Scr, alt: bool): Scr { s.(bufs := s.bufs.(inAlt := alt)) }

  function Buf(s: Scr): Grid { if s.bufs.inAlt then s.bufs.alt else s.bufs.primary }

  function WithBuf(s: Scr, g: Grid): Scr {
    if s.bufs.inAlt then s.(bufs := s.bufs.(alt := g)) else s.(bufs := s.bufs.(primary := g))
  }

  function WithRow(s: Scr, y: nat, row: Line): (r: Scr)
    requires Ok(s) && y < s.rows && |row| == s.cols
    ensures Ok(r)
  {
    WithBuf(s, Buf(s)[y := row])
  }

  function Blank(s: Scr): Cell { BlankCell(s.pen.bg) }

  function BlankLine(s: Scr): Line { Rep(s.cols, Blank(s)) }

  // ---- resize ------------------------------------------------------------

  const PLAIN_BLANK: Cell := BlankCell(DEFAULT_COLOR)

  function RebuildLine(was: Grid, oldCols: nat, cols: nat, r: nat): (line: Line)
    requires GridOk(was, oldCols, |was|)
    ensures |line| == cols
    ensures forall c :: 0 <= c < cols ==>
      line[c] == if r < |was| && c < oldCols then was[r][c] else PLAIN_BLANK
  {
    seq(cols, c requires 0 <= c < cols => if r < |was| && c < oldCols then was[r][c] else PLAIN_BLANK)
  }

  function Rebuild(was: Grid, oldCols: nat, cols: nat, rows: nat): (g: Grid)
    requires GridOk(was, oldCols, |was|)
    ensures GridOk(g, cols, rows)
    ensures forall r :: 0 <= r < rows ==> g[r] == RebuildLine(was, oldCols, cols, r)
  {
    seq(rows, r requires 0 <= r < rows => RebuildLine(was, oldCols, cols, r))
  }

  function TabStops(cols: nat): (t: seq<bool>)
    ensures |t| == cols
    ensures forall i :: 0 <= i < cols ==> t[i] == (i % 8 == 0)
  {
    seq(cols, i => i % 8 == 0)
  }

  /** The part of `Ok` a screen under construction already meets. */
  predicate Resizable(s: Scr) {
    && GridOk(s.bufs.primary, s.cols, s.rows) && GridOk(s.bufs.alt, s.cols, s.rows)
    && s.hist.since <= |s.hist.log| && 1 <= s.hist.cap
  }

  /** The screen given new grids of c x r: full scroll region, cursor pulled inside. */
  function Framed(s: Scr, c: nat, r: nat, grids: Bufs): Scr
    requires 1 <= c && 1 <= r
  {
    s.(bufs := grids, cols := c, rows := r, reg := Region(0, r - 1),
       cur := Cursor(Min(s.cur.x, c - 1), Min(s.cur.y, r - 1), false), tabs := TabStops(c))
  }

  function Resize(s: Scr, cols: nat, rows: nat): (r: Scr)
    requires Resizable(s) && cols <= MAX_DIM && rows <= MAX_DIM
    ensures Ok(r) && r.hist.log == s.hist.log && r.hist.since == s.hist.since && r.hist.cap == s.hist.cap
  {
    var nc := Max(cols, 1);
    var nr := Max(rows, 1);
    Framed(s, nc, nr,
           Bufs(s.bufs.inAlt, Rebuild(s.bufs.primary, s.cols, nc, nr), Rebuild(s.bufs.alt, s.cols, nc, nr)))
  }

  function Empty(cap: nat): Scr {
    Scr(0, 0, Bufs(false, [], []), Cursor(0, 0, false), DEFAULT_PEN, Region(0, 0),
        Saved(0, 0, DEFAULT_PEN, false), [], History([], 0, Max(cap, 1)), [], [], Base(-1, -1), DEFAULT_MODES)
  }

  function Fresh(cols: nat, rows: nat, cap: nat): (r: Scr)
    requires cols <= MAX_DIM && rows <= MAX_DIM
    ensures Ok(r) && r.hist.log == []
  {
    Resize(Empty(cap), cols, rows)
  }

  // ---- scrolling ---------------------------------------------------------

  /** Rows lo..hi move up by k; k copies of `line` enter at hi. */
  function ShiftUp(g: Grid, lo: nat, hi: nat, k: nat, line: Line): (r: Grid)
    requires lo <= hi < |g| && k <= hi - lo + 1
    ensures |r| == |g|
    ensures forall j :: 0 <= j < |g| ==>
      r[j] == if j < lo || j > hi then g[j] else if j + k <= hi then g[j + k] else line
  {
    g[..lo] + g[lo + k..hi + 1] + Rep(k, line) + g[hi + 1..]
  }

  /** Rows lo..hi move down by k; k copies of `line` enter at lo. */
  function ShiftDown(g: Grid, lo: nat, hi: nat, k: nat, line: Line): (r: Grid)
    requires lo <= hi < |g| && k <= hi - lo + 1
    ensures |r| == |g|
    ensures forall j :: 0 <= j < |g| ==>
      r[j] == if j < lo || j > hi then g[j] else if j < lo + k then line else g[j - k]
  {
    g[..lo] + Rep(k, line) + g[lo..hi + 1 - k] + g[hi + 1..]
  }

  function ScrollUp(s: Scr, n: nat): (r: Scr)
    requires Ok(s)
    ensures Ok(r)
  {
    var k := Min(n, s.reg.bot - s.reg.top + 1);
    var s1 := if !s.bufs.inAlt && s.reg.top == 0
              then s.(hist := Pushed(s.hist, s.bufs.primary[..k])) else s;
    WithBuf(s1, ShiftUp(Buf(s), s.reg.top, s.reg.bot, k, BlankLine(s)))
  }

  function ScrollDown(s: Scr, n: nat): (r: Scr)
    requires Ok(s)
    ensures Ok(r)
  {
    var k := Min(n, s.reg.bot - s.reg.top + 1);
    WithBuf(s, ShiftDown(Buf(s), s.reg.top, s.reg.bot, k, BlankLine(s)))
  }

  function Index(s: Scr): (r: Scr)
    requires Ok(s)
    ensures Ok(r)
  {
    var s1 := MoveTo(s, s.cur.x, s.cur.y);
    if s.cur.y == s.reg.bot then ScrollUp(s1, 1)
    else if s.cur.y < s.rows - 1 then MoveTo(s, s.cur.x, s.cur.y + 1)
    else s1
  }

  function ReverseIndex(s: Scr): (r: Scr)
    requires Ok(s)
    ensures Ok(r)
  {
    var s1 := MoveTo(s, s.cur.x, s.cur.y);
    if s.cur.y == s.reg.top then ScrollDown(s1, 1)
    else if s.cur.y > 0 then MoveTo(s, s.cur.x, s.cur.y - 1)
    else s1
  }

  function CarriageReturn(s: Scr): Scr { MoveTo(s, 0, s.cur.y) }

  function NextLine(s: Scr): (r: Scr)
    requires Ok(s)
    ensures Ok(r)
  {
    Index(CarriageReturn(s))
  }

  // ---- printing ----------------------------------------------------------

  predicate HasBase(s: Scr)
    requires Ok(s)
  {
    0 <= s.base.y < s.rows && 0 <= s.base.x < s.cols && Buf(s)[s.base.y][s.base.x].rune != 0
  }

  /** A zero-width code point joins the mark string of the last printed cell. */
  function AttachMark(s: Scr, cp: nat): (r: Scr)
    requires Ok(s)
    ensures Ok(r)
  {
    if HasBase(s) && IsScalar(cp) then
      var row := Buf(s)[s.base.y];
      var cell := row[s.base.x];
      if cell.combo == 0 then
        if |s.pool| < MAX_MARKS then
          WithRow(s.(pool := s.pool + [[cp]]), s.base.y, row[s.base.x := cell.(combo := |s.pool| + 1)])
        else s
      else if cell.combo <= |s.pool| && |s.pool[cell.combo - 1]| < MAX_MARK_LEN then
        s.(pool := s.pool[cell.combo - 1 := s.pool[cell.combo - 1] + [cp]])
      else s
    else s
  }

  /** The row after printing a glyph of width w at cx: in insert mode the tail first moves
      right by w; a wide glyph also takes the next slot. */
  function PlacedRow(row: Line, cx: nat, w: nat, insert: bool, cp: nat, pen: Pen): (r: Line)
    requires cx < |row| && 1 <= w <= 2
    ensures |r| == |row|
  {
    var moved := if insert && cx + w <= |row| then row[..cx + w] + row[cx..|row| - w] else row;
    var lead := moved[cx := Cell(cp, pen, w, 0)];
    if w == 2 && cx + 1 < |row| then lead[cx + 1 := Cell(0, pen, 0, 0)] else lead
  }

  function Place(s: Scr, cp: nat, w: nat): (r: Scr)
    requires Ok(s) && 1 <= w <= 2
    ensures Ok(r)
  {
    var s1 := WithRow(s, s.cur.y, PlacedRow(Buf(s)[s.cur.y], s.cur.x, w, s.modes.insert, cp, s.pen));
    var full := s.cur.x + w >= s.cols;
    s1.(base := Base(s.cur.x, s.cur.y),
        cur := Cursor(if full then s.cols - 1 else s.cur.x + w, s.cur.y,
                      (full && s.modes.autoWrap) || s.cur.wrap))
  }

  function Wrapped(s: Scr): (r: Scr)
    requires Ok(s)
    ensures Ok(r)
  {
    if s.cur.wrap then Index(MoveTo(s, 0, s.cur.y)) else s
  }

  function PutRune(s: Scr, cp: nat): (r: Scr)
    requires Ok(s)
    ensures Ok(r)
  {
    var w := WidthOf(cp);
    if w == 0 then AttachMark(s, cp)
    else
      var s1 := Wrapped(s);
      var s2 := if w == 2 && s1.cur.x == s1.cols - 1 && s1.modes.autoWrap
                then Index(MoveTo(s1, 0, s1.cur.y)) else s1;
      Place(s2, cp, w)
  }

  function Backspace(s: Scr): Scr {
    MoveTo(s, if s.cur.x > 0 then s.cur.x - 1 else 0, s.cur.y)
  }

  /** The next tab stop after x, or the last column. */
  function NextStop(tabs: seq<bool>, x: nat): (r: nat)
    requires x < |tabs|
    ensures x <= r < |tabs|
    decreases |tabs| - x
  {
    if x >= |tabs| - 1 || tabs[x] then x else NextStop(tabs, x + 1)
  }

  function Tab(s: Scr): (r: Scr)
    requires Ok(s)
    ensures Ok(r)
  {
    var s1 := MoveTo(s, s.cur.x, s.cur.y);
    if s.cur.x >= s.cols - 1 then s1 else MoveTo(s, NextStop(s.tabs, s.cur.x + 1), s.cur.y)
  }

  function SetTabStop(s: Scr, on: bool): (r: Scr)
    requires Ok(s)
    ensures Ok(r)
  {
    s.(tabs := s.tabs[s.cur.x := on])
  }

  function ClearAllTabs(s: Scr): (r: Scr)
    requires Ok(s)
    ensures Ok(r)
  {
    s.(tabs := Rep(|s.tabs|, false))
  }

  // ---- cursor ------------------------------------------------------------

  function RegionTop(s: Scr): nat { if s.modes.origin then s.reg.top else 0 }

  function RegionBot(s: Scr): nat
    requires Ok(s)
  {
    if s.modes.origin then s.reg.bot else s.rows - 1
  }

  /** Addition of machine words: it wraps at 2^64. */
  function AddWord(a: nat, b: nat): nat { (a + b) % TWO64 }

  function CursorUp(s: Scr, n: nat): (r: Scr)
    requires Ok(s)
    ensures Ok(r)
  {
    MoveTo(s, s.cur.x, Max(Max(s.cur.y - Max(n, 1), 0), RegionTop(s)))
  }

  function CursorDown(s: Scr, n: nat): (r: Scr)
    requires Ok(s)
    ensures Ok(r)
  {
    MoveTo(s, s.cur.x, Min(AddWord(s.cur.y, Max(n, 1)), RegionBot(s)))
  }

  function CursorFwd(s: Scr, n: nat): (r: Scr)
    requires Ok(s)
    ensures Ok(r)
  {
    MoveTo(s, Min(AddWord(s.cur.x, Max(n, 1)), s.cols - 1), s.cur.y)
  }

  function CursorBack(s: Scr, n: nat): (r: Scr)
    requires Ok(s)
    ensures Ok(r)
  {
    MoveTo(s, Max(s.cur.x - Max(n, 1), 0), s.cur.y)
  }

  function CursorCol(s: Scr, col: int): (r: Scr)
    requires Ok(s)
    ensures Ok(r)
  {
    MoveTo(s, Clamp(col, 0, s.cols - 1), s.cur.y)
  }

  function CursorRow(s: Scr, row: int): (r: Scr)
    requires Ok(s)
    ensures Ok(r)
  {
    var target := if s.modes.origin then RegionTop(s) + row else row;
    MoveTo(s, s.cur.x, Clamp(target, 0, s.rows - 1))
  }

  function CursorTo(s: Scr, row: int, col: int): (r: Scr)
    requires Ok(s)
    ensures Ok(r)
  {
    MoveTo(s, Clamp(col, 0, s.cols - 1), Clamp(RegionTop(s) + row, RegionTop(s), RegionBot(s)))
  }

  // ---- erasing and shifting ---------------------------------------------

  /** Columns lo..hi-1 of a row replaced by blanks. */
  function Wiped(row: Line, lo: nat, hi: nat, blank: Cell): (r: Line)
    requires lo <= hi <= |row|
    ensures |r| == |row|
  {
    row[..lo] + Rep(hi - lo, blank) + row[hi..]
  }

  function WipeCursorRow(s: Scr, lo: nat, hi: nat): (r: Scr)
    requires Ok(s) && lo <= hi <= s.cols
    ensures Ok(r)
  {
    WithRow(s, s.cur.y, Wiped(Buf(s)[s.cur.y], lo, hi, Blank(s)))
  }

  /** Rows lo..hi-1 of the active grid replaced by blank rows. */
  function WipeRows(s: Scr, lo: nat, hi: nat): (r: Scr)
    requires Ok(s) && lo <= hi <= s.rows
    ensures Ok(r)
  {
    WithBuf(s, Buf(s)[..lo] + Rep(hi - lo, BlankLine(s)) + Buf(s)[hi..])
  }

  /** Modes 0, 1 and 2 wipe from the cursor, up to the cursor, and the whole row. */
  function EraseInLine(s: Scr, mode: int): (r: Scr)
    requires Ok(s)
    ensures Ok(r)
  {
    var s1 := if 0 <= mode <= 2
              then WipeCursorRow(s, if mode == 0 then s.cur.x else 0, if mode == 1 then s.cur.x + 1 else s.cols)
              else s;
    MoveTo(s1, s1.cur.x, s1.cur.y)
  }

  function EraseInDisplay(s: Scr, mode: int): (r: Scr)
    requires Ok(s)
    ensures Ok(r)
  {
    var s1 := if mode == 0 then WipeRows(EraseInLine(s, 0), s.cur.y + 1, s.rows)
              else if mode == 1 then EraseInLine(WipeRows(s, 0, s.cur.y), 1)
              else if mode == 2 then WipeRows(s, 0, s.rows)
              else if mode == 3 then ClearHistory(s)
              else s;
    MoveTo(s1, s1.cur.x, s1.cur.y)
  }

  function EraseChars(s: Scr, n: nat): (r: Scr)
    requires Ok(s)
    ensures Ok(r)
  {
    WipeCursorRow(s, s.cur.x, Max(s.cur.x, Min(AddWord(s.cur.x, Max(n, 1)), s.cols)))
  }

  function InsertChars(s: Scr, n: nat): (r: Scr)
    requires Ok(s)
    ensures Ok(r)
  {
    var k := Clamp(n, 1, s.cols - s.cur.x);
    var row := Buf(s)[s.cur.y];
    WithRow(s, s.cur.y, row[..s.cur.x] + Rep(k, Blank(s)) + row[s.cur.x..s.cols - k])
  }

  function DeleteChars(s: Scr, n: nat): (r: Scr)
    requires Ok(s)
    ensures Ok(r)
  {
    var k := Clamp(n, 1, s.cols - s.cur.x);
    var row := Buf(s)[s.cur.y];
    WithRow(s, s.cur.y, row[..s.cur.x] + row[s.cur.x + k..] + Rep(k, Blank(s)))
  }

  function InsertLines(s: Scr, n: nat): (r: Scr)
    requires Ok(s)
    ensures Ok(r)
  {
    if s.cur.y < s.reg.top || s.cur.y > s.reg.bot then s
    else WithBuf(s, ShiftDown(Buf(s), s.cur.y, s.reg.bot, Clamp(n, 1, s.reg.bot - s.cur.y + 1), BlankLine(s)))
  }

  function DeleteLines(s: Scr, n: nat): (r: Scr)
    requires Ok(s)
    ensures Ok(r)
  {
    if s.cur.y < s.reg.top || s.cur.y > s.reg.bot then s
    else WithBuf(s, ShiftUp(Buf(s), s.cur.y, s.reg.bot, Clamp(n, 1, s.reg.bot - s.cur.y + 1), BlankLine(s)))
  }

  // ---- region, saved cursor, alternate screen, reset ----------------------

  function SetScrollRegion(s: Scr, top: int, bottom: int): (r: Scr)
    requires Ok(s)
    ensures Ok(r)
  {
    var t := if top <= 0 then 1 else top;
    var b := if bottom <= 0 || bottom > s.rows then s.rows else bottom;
    if t >= b then CursorTo(s.(reg := Region(0, s.rows - 1)), 0, 0)
    else CursorTo(s.(reg := Region(t - 1, b - 1)), 0, 0)
  }

  function SaveCursor(s: Scr): Scr {
    s.(saved := Saved(s.cur.x, s.cur.y, s.pen, s.modes.origin))
  }

  function RestoreCursor(s: Scr): (r: Scr)
    requires Ok(s)
    ensures Ok(r)
  {
    s.(cur := Cursor(Min(s.saved.cx, s.cols - 1), Min(s.saved.cy, s.rows - 1), false),
       pen := s.saved.pen, modes := s.modes.(origin := s.saved.origin))
  }

  function SetAltScreen(s: Scr, on: bool): (r: Scr)
    requires Ok(s)
    ensures Ok(r)
  {
    if on == s.bufs.inAlt then s
    else if on then
      MoveTo(EraseInDisplay(Switched(SaveCursor(s), true), 2), 0, 0)
    else RestoreCursor(Switched(s, false))
  }

  function ResetModes(s: Scr): (r: Scr)
    requires Ok(s)
    ensures Ok(r)
  {
    s.(pen := DEFAULT_PEN, modes := DEFAULT_MODES, reg := Region(0, s.rows - 1), cur := Cursor(0, 0, false))
  }

  function FullReset(s: Scr): (r: Scr)
    requires Ok(s)
    ensures Ok(r)
  {
    var s1 := ResetModes(s);
    var s2 := if s1.bufs.inAlt then SetAltScreen(s1, false) else s1;
    ClearHistory(EraseInDisplay(s2, 2)).(pool := [])
  }

  // ---- rendition ---------------------------------------------------------

  /** Colour argument of SGR 38/48 at position i: the last parameter used, and the colour. */
  function ExtColor(p: seq<int>, i: nat, slot: int): (r: (nat, int))
    requires i < |p|
    ensures i <= r.0 < |p|
  {
    if i + 1 >= |p| then (i, slot)
    else if p[i + 1] == 5 && i + 2 < |p| then (i + 2, p[i + 2] % 256)
    else if p[i + 1] == 2 && i + 4 < |p| then (i + 4, Rgb(p[i + 2] % 256, p[i + 3] % 256, p[i + 4] % 256))
    else (i + 1, slot)
  }

  /** One SGR code that takes no arguments of its own. */
  function SgrCode(pen: Pen, n: int, underlineOff: bool): Pen {
    if n == 0 then DEFAULT_PEN
    else if n == 1 then pen.(flags := pen.flags + {Bold})
    else if n == 2 then pen.(flags := pen.flags + {Faint})
    else if n == 3 then pen.(flags := pen.flags + {Italic})
    else if n == 4 then pen.(flags := if underlineOff then pen.flags - {Underline} else pen.flags + {Underline})
    else if n == 5 || n == 6 then pen.(flags := pen.flags + {Blink})
    else if n == 7 then pen.(flags := pen.flags + {Reverse})
    else if n == 8 then pen.(flags := pen.flags + {Hidden})
    else if n == 9 then pen.(flags := pen.flags + {Strike})
    else if n == 21 || n == 22 then pen.(flags := pen.flags - {Bold, Faint})
    else if n == 23 then pen.(flags := pen.flags - {Italic})
    else if n == 24 then pen.(flags := pen.flags - {Underline})
    else if n == 25 then pen.(flags := pen.flags - {Blink})
    else if n == 27 then pen.(flags := pen.flags - {Reverse})
    else if n == 28 then pen.(flags := pen.flags - {Hidden})
    else if n == 29 then pen.(flags := pen.flags - {Strike})
    else if n == 39 then pen.(fg := DEFAULT_COLOR)
    else if n == 49 then pen.(bg := DEFAULT_COLOR)
    else if 30 <= n <= 37 then pen.(fg := n - 30)
    else if 40 <= n <= 47 then pen.(bg := n - 40)
    else if 90 <= n <= 97 then pen.(fg := n - 90 + 8)
    else if 100 <= n <= 107 then pen.(bg := n - 100 + 8)
    else pen
  }

  /** SGR from parameter i on; a sub-parameter after ':' belongs to the code before it. */
  function Sgr(pen: Pen, p: seq<int>, colon: seq<bool>, i: nat): Pen
    requires |p| == |colon|
    decreases |p| - i
  {
    if i >= |p| then pen
    else if colon[i] then Sgr(pen, p, colon, i + 1)
    else if p[i] == 38 then
      var (j, c) := ExtColor(p, i, pen.fg);
      Sgr(pen.(fg := c), p, colon, j + 1)
    else if p[i] == 48 then
      var (j, c) := ExtColor(p, i, pen.bg);
      Sgr(pen.(bg := c), p, colon, j + 1)
    else
      var off := i + 1 < |p| && colon[i + 1] && p[i + 1] == 0;
      Sgr(SgrCode(pen, p[i], off), p, colon, i + 1)
  }

  function SetGraphics(s: Scr, p: seq<int>, colon: seq<bool>): (r: Scr)
    requires Ok(s) && |p| == |colon|
    ensures Ok(r)
  {
    s.(pen := if p == [] then DEFAULT_PEN else Sgr(s.pen, p, colon, 0))
  }

  // ---- prompts -----------------------------------------------------------

  /** The prompts whose line number is at least `oldest`, in order. */
  function PromptsFrom(ps: seq<Prompt>, oldest: nat): seq<Prompt> {
    if ps == [] then []
    else (if ps[0].line >= oldest then [ps[0]] else []) + PromptsFrom(ps[1..], oldest)
  }

  function Capped(ps: seq<Prompt>): seq<Prompt> {
    if |ps| > MAX_PROMPTS then ps[|ps| - MAX_PROMPTS..] else ps
  }

  /** The prompts after a mark on line gid: a repeat of the last mark adds nothing, marks on lines
      below `oldest` go, and the newest are kept. */
  function Marked(ps: seq<Prompt>, gid: nat, oldest: nat): seq<Prompt> {
    var more := if ps != [] && ps[|ps| - 1].line == gid then ps else ps + [Prompt(gid, None)];
    Capped(PromptsFrom(more, oldest))
  }

  function MarkPrompt(s: Scr): (r: Scr)
    requires Ok(s)
    ensures Ok(r)
  {
    if s.bufs.inAlt then s
    else
      s.(prompts := Marked(s.prompts, |s.hist.log| + s.cur.y, |s.hist.log| - Kept(s)))
  }

  function MarkCmdExit(s: Scr, exit: int): (r: Scr)
    requires Ok(s)
    ensures Ok(r)
  {
    var n := |s.prompts|;
    if s.bufs.inAlt || n == 0 || s.prompts[n - 1].exit.Some? then s
    else s.(prompts := s.prompts[n - 1 := s.prompts[n - 1].(exit := Some(exit))])
  }

  // ---- reading -----------------------------------------------------------

  /** Row `abs` counted from the oldest line of history. */
  function AbsLine(s: Scr, abs: int): Option<Line>
    requires Ok(s)
  {
    if abs < 0 then None
    else if abs < Kept(s) then Some(Hist(s)[abs])
    else if abs - Kept(s) < s.rows then Some(Buf(s)[abs - Kept(s)])
    else None
  }

  /** Row r of the picture seen when scrolled back by `off` lines (at most all of them). */
  function ViewRow(s: Scr, off: nat, r: nat): Line
    requires Ok(s) && off <= Kept(s) && r < s.rows
  {
    if r < off then Hist(s)[Kept(s) - off + r] else Buf(s)[r - off]
  }

  function Viewport(s: Scr, off: nat): (v: Grid)
    requires Ok(s)
    ensures |v| == s.rows
    ensures forall r :: 0 <= r < s.rows ==> v[r] == ViewRow(s, Min(off, Kept(s)), r)
  {
    seq(s.rows, r requires 0 <= r < s.rows => ViewRow(s, Min(off, Kept(s)), r))
  }

  /** The marks whose line lies `base` to `base + limit - 1`, as (absolute row, exit), in order. */
  function PromptMarksIn(ps: seq<Prompt>, base: int, limit: int): seq<(int, Option<int>)> {
    if ps == [] then []
    else
      var p := ps[|ps| - 1];
      PromptMarksIn(ps[..|ps| - 1], base, limit)
      + (if 0 <= p.line - base < limit then [(p.line - base, p.exit)] else [])
  }

  function PromptMarks(s: Scr): seq<(int, Option<int>)>
    requires Ok(s)
  {
    PromptMarksIn(s.prompts, |s.hist.log| - Kept(s), Kept(s) + s.rows)
  }

  /** What one cell contributes to extracted text. */
  function CellText(pool: seq<seq<nat>>, cell: Cell): seq<nat> {
    var glyph := if cell.rune == 0 then [32] else if IsScalar(cell.rune) then [cell.rune] else [];
    var marks := if 1 <= cell.combo <= |pool| then pool[cell.combo - 1] else [];
    if cell.width == 0 then [] else glyph + marks
  }

  function RowText(pool: seq<seq<nat>>, cells: Line): seq<nat> {
    if cells == [] then []
    else RowText(pool, cells[..|cells| - 1]) + CellText(pool, cells[|cells| - 1])
  }

  function TrimEnd(t: seq<nat>): (r: seq<nat>)
    ensures r <= t
  {
    if t != [] && t[|t| - 1] == 32 then TrimEnd(t[..|t| - 1]) else t
  }

  /** Columns start..=end of absolute row r can be indexed, if there is such a row. */
  predicate Indexable(s: Scr, r: int, start: nat, end: int)
    requires Ok(s)
  {
    var line := AbsLine(s, r);
    line.Some? && start <= end ==> end < |line.value|
  }

  /** The text of columns start..=end of absolute row r, without trailing blanks. */
  function LineText(s: Scr, r: int, start: nat, end: int): seq<nat>
    requires Ok(s) && Indexable(s, r, start, end)
  {
    match AbsLine(s, r)
    case None => []
    case Some(line) => if start <= end then TrimEnd(RowText(s.pool, line[start..end + 1])) else []
  }

  const CRLF: seq<nat> := [13, 10]

  /** The columns of row r in a selection from (r1, c1) to (r2, c2). */
  function FirstCol(r: int, r1: int, c1: int): nat { if r == r1 then Max(c1, 0) else 0 }

  function LastCol(s: Scr, r: int, r2: int, c2: int): int { if r == r2 then Min(c2, s.cols - 1) else s.cols - 1 }

  /** Every cell of rows r1..r2 of the selection exists: what the source's indexing asks for. */
  predicate Selectable(s: Scr, r1: int, c1: int, r2: int, c2: int)
    requires Ok(s)
  {
    forall r :: r1 <= r <= r2 ==> Indexable(s, r, FirstCol(r, r1, c1), LastCol(s, r, r2, c2))
  }

  /** Row r of that selection, with the line break that follows it. */
  function RowPiece(s: Scr, r: int, r1: int, c1: int, r2: int, c2: int): seq<nat>
    requires Ok(s) && Indexable(s, r, FirstCol(r, r1, c1), LastCol(s, r, r2, c2))
  {
    LineText(s, r, FirstCol(r, r1, c1), LastCol(s, r, r2, c2)) + (if r < r2 then CRLF else [])
  }

  /** The first n rows of that selection. */
  function TextRows(s: Scr, n: nat, r1: int, c1: int, r2: int, c2: int): seq<nat>
    requires Ok(s) && Selectable(s, r1, c1, r2, c2) && r1 + n - 1 <= r2
  {
    if n == 0 then [] else TextRows(s, n - 1, r1, c1, r2, c2) + RowPiece(s, r1 + n - 1, r1, c1, r2, c2)
  }

  /** The selection runs backwards: its ends are swapped first. */
  predicate Backwards(r1: int, c1: int, r2: int, c2: int) { r1 > r2 || (r1 == r2 && c1 > c2) }

  predicate Readable(s: Scr, r1: int, c1: int, r2: int, c2: int)
    requires Ok(s)
  {
    if Backwards(r1, c1, r2, c2) then Selectable(s, r2, c2, r1, c1) else Selectable(s, r1, c1, r2, c2)
  }

  function GetText(s: Scr, r1: int, c1: int, r2: int, c2: int): seq<nat>
    requires Ok(s) && Readable(s, r1, c1, r2, c2)
  {
    if Backwards(r1, c1, r2, c2) then TextRows(s, r1 - r2 + 1, r2, c2, r1, c1)
    else TextRows(s, r2 - r1 + 1, r1, c1, r2, c2)
  }

  /** Every history line is at least as wide as the screen. */
  predicate HistWide(s: Scr)
    requires Ok(s)
  {
    forall i :: 0 <= i < |Hist(s)| ==> |Hist(s)[i]| >= s.cols
  }

  /** Rows lo..hi of history are at least as wide as the screen. */
  predicate RowsWide(s: Scr, lo: int, hi: int)
    requires Ok(s)
  {
    forall i :: 0 <= i < |Hist(s)| && lo <= i <= hi ==> |Hist(s)[i]| >= s.cols
  }

  /** A selection can be read whenever the history rows it covers are wide enough; what the rest
      of history looks like does not matter. */
  lemma WideRowsReadable(s: Scr, r1: int, c1: int, r2: int, c2: int)
    requires Ok(s) && RowsWide(s, Min(r1, r2), Max(r1, r2))
    ensures Readable(s, r1, c1, r2, c2)
  {
    forall r | Min(r1, r2) <= r <= Max(r1, r2) ensures AbsLine(s, r).Some? ==> |AbsLine(s, r).value| >= s.cols {
      if 0 <= r < Kept(s) {
        assert AbsLine(s, r) == Some(Hist(s)[r]);
      }
    }
    hide AbsLine;
  }

  /** A selection of whole rows can be read exactly when the history rows it covers are wide. */
  lemma WholeRowsReadable(s: Scr, r1: int, r2: int)
    requires Ok(s) && r1 <= r2
    ensures Readable(s, r1, 0, r2, s.cols - 1) <==> RowsWide(s, r1, r2)
  {
    if RowsWide(s, r1, r2) {
      WideRowsReadable(s, r1, 0, r2, s.cols - 1);
    } else {
      var i :| 0 <= i < |Hist(s)| && r1 <= i <= r2 && |Hist(s)[i]| < s.cols;
      assert AbsLine(s, i) == Some(Hist(s)[i]);
      assert !Indexable(s, i, FirstCol(i, r1, 0), LastCol(s, i, r2, s.cols - 1));
    }
  }
}
