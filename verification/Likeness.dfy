/** Two screens that no output can tell apart: they agree on all that can be seen and on all that
    later bytes can bring to light. They may differ in how much was ever scrolled away, in where
    the last glyph was printed while nothing is on the screen, in an alternate grid that is not
    shown, and in whether the first and the last column are tab stops. */
module Likeness {
  import opened Cells
  import opened ScreenModel
  import opened ResetLaws

  // ---- the relation --------------------------------------------------------------------------

  predicate NoGlyphs(g: Grid) { forall y, x :: 0 <= y < |g| && 0 <= x < |g[y]| ==> g[y][x].rune == 0 }

  /** Nothing is printed on any grid that is shown or will be shown without being wiped first. */
  predicate Bare(b: Bufs) { NoGlyphs(b.primary) && (b.inAlt ==> NoGlyphs(b.alt)) }

  predicate BufsAlike(b: Bufs, c: Bufs) {
    b.inAlt == c.inAlt && b.primary == c.primary && (b.inAlt ==> b.alt == c.alt)
  }

  /** The first and the last column end a tab whether or not they are stops. */
  predicate TabsAlike(a: seq<bool>, b: seq<bool>) { |a| == |b| && forall x :: 0 < x < |a| - 1 ==> a[x] == b[x] }

  function Shift(ps: seq<Prompt>, d: nat): (r: seq<Prompt>)
    ensures |r| == |ps| && forall i :: 0 <= i < |ps| ==> r[i] == Prompt(ps[i].line + d, ps[i].exit)
  {
    seq(|ps|, i requires 0 <= i < |ps| => Prompt(ps[i].line + d, ps[i].exit))
  }

  /** What both screens have in common. */
  predicate SameFace(s: Scr, f: Scr) {
    && s.cols == f.cols && s.rows == f.rows && BufsAlike(s.bufs, f.bufs)
    && s.cur == f.cur && s.pen == f.pen && s.reg == f.reg && s.modes == f.modes && s.pool == f.pool
    && s.saved == f.saved && TabsAlike(s.tabs, f.tabs)
  }

  /** The one has `pre` more lines behind it. */
  predicate LongerPast(pre: Grid, s: Scr, f: Scr) {
    s.hist == f.hist.(log := pre + f.hist.log) && s.prompts == Shift(f.prompts, |pre|)
  }

  predicate BaseAlike(s: Scr, f: Scr) { s.base == f.base || Bare(f.bufs) }

  predicate Alike(pre: Grid, s: Scr, f: Scr) {
    SameFace(s, f) && LongerPast(pre, s, f) && BaseAlike(s, f)
  }

  /** Alike screens show the same. */
  lemma AlikeShows(pre: Grid, s: Scr, f: Scr)
    requires Ok(s) && Ok(f) && Alike(pre, s, f)
    ensures ShownBy(s) == ShownBy(f)
  {
    assert Hist(s) == Hist(f);
    MarksShift(f.prompts, |pre|, |f.hist.log| - Kept(f), Kept(f) + f.rows);
    hide GridOk;
  }

  lemma {:induction false} MarksShift(ps: seq<Prompt>, d: nat, base: int, limit: int)
    ensures PromptMarksIn(Shift(ps, d), base + d, limit) == PromptMarksIn(ps, base, limit)
  {
    if ps != [] {
      MarksShift(ps[..|ps| - 1], d, base, limit);
      assert Shift(ps, d)[..|ps| - 1] == Shift(ps[..|ps| - 1], d);
    }
  }

  // ---- screen operations -----------------------------------------------------------------------

  /** The same new grid on both. */
  lemma NewGrid(pre: Grid, s: Scr, f: Scr, g: Grid)
    requires Alike(pre, s, f) && (NoGlyphs(Buf(f)) ==> NoGlyphs(g))
    ensures Alike(pre, WithBuf(s, g), WithBuf(f, g))
  {
    hide NoGlyphs, TabsAlike;
  }

  lemma Moved(pre: Grid, s: Scr, f: Scr, x: nat, y: nat)
    requires Alike(pre, s, f)
    ensures Alike(pre, MoveTo(s, x, y), MoveTo(f, x, y))
  {
    hide Bare, BufsAlike, TabsAlike;
  }

  lemma BlankRow(n: nat, c: Cell)
    requires c.rune == 0
    ensures forall x :: 0 <= x < n ==> Rep(n, c)[x].rune == 0
  {
  }

  lemma ShiftedBare(g: Grid, lo: nat, hi: nat, k: nat, line: Line)
    requires lo <= hi < |g| && k <= hi - lo + 1 && NoGlyphs(g) && (forall x :: 0 <= x < |line| ==> line[x].rune == 0)
    ensures NoGlyphs(ShiftUp(g, lo, hi, k, line)) && NoGlyphs(ShiftDown(g, lo, hi, k, line))
  {
    var u: Grid := ShiftUp(g, lo, hi, k, line);
    var d: Grid := ShiftDown(g, lo, hi, k, line);
    forall y, x | 0 <= y < |u| && 0 <= x < |u[y]| ensures u[y][x].rune == 0 {
      assert u[y] == if y < lo || y > hi then g[y] else if y + k <= hi then g[y + k] else line;
    }
    forall y, x | 0 <= y < |d| && 0 <= x < |d[y]| ensures d[y][x].rune == 0 {
      assert d[y] == if y < lo || y > hi then g[y] else if y < lo + k then line else g[y - k];
    }
  }

  lemma PushedAlike(pre: Grid, s: Scr, f: Scr, lines: Grid)
    requires Alike(pre, s, f)
    ensures Alike(pre, s.(hist := Pushed(s.hist, lines)), f.(hist := Pushed(f.hist, lines)))
  {
    hide NoGlyphs, BufsAlike, TabsAlike;
    assert pre + (f.hist.log + lines) == pre + f.hist.log + lines;
  }

  /** Rows lo..hi moved by k, either way, with blank lines in the gap. */
  lemma MovedRowsAlike(pre: Grid, s: Scr, f: Scr, lo: nat, hi: nat, k: nat)
    requires Ok(s) && Ok(f) && Alike(pre, s, f) && lo <= hi < f.rows && k <= hi - lo + 1
    ensures var (g, line) := (Buf(f), BlankLine(f));
            && Alike(pre, WithBuf(s, ShiftUp(g, lo, hi, k, line)), WithBuf(f, ShiftUp(g, lo, hi, k, line)))
            && Alike(pre, WithBuf(s, ShiftDown(g, lo, hi, k, line)), WithBuf(f, ShiftDown(g, lo, hi, k, line)))
  {
    if NoGlyphs(Buf(f)) { ShiftedBare(Buf(f), lo, hi, k, BlankLine(f)); }
    hide ShiftUp, ShiftDown, NoGlyphs, Alike, GridOk;
    NewGrid(pre, s, f, ShiftUp(Buf(f), lo, hi, k, BlankLine(f)));
    NewGrid(pre, s, f, ShiftDown(Buf(f), lo, hi, k, BlankLine(f)));
  }

  lemma SameBuf(pre: Grid, s: Scr, f: Scr)
    requires Alike(pre, s, f)
    ensures Buf(s) == Buf(f) && BlankLine(s) == BlankLine(f) && Blank(s) == Blank(f)
    ensures s.cols == f.cols && s.rows == f.rows && s.cur == f.cur && s.reg == f.reg && s.bufs.inAlt == f.bufs.inAlt
    ensures s.pen == f.pen && s.modes == f.modes && s.pool == f.pool
    ensures !f.bufs.inAlt ==> s.bufs.primary == f.bufs.primary
  {
  }

  lemma ScrollUpAlike(pre: Grid, s: Scr, f: Scr, n: nat)
    requires Ok(s) && Ok(f) && Alike(pre, s, f)
    ensures Alike(pre, ScrollUp(s, n), ScrollUp(f, n))
  {
    Bounds(f);
    Bounds(s);
    hide ShiftUp, Alike, Ok, BlankLine, Blank;
    SameBuf(pre, s, f);
    var k := Min(n, f.reg.bot - f.reg.top + 1);
    MovedRowsAlike(pre, s, f, f.reg.top, f.reg.bot, k);
    var g := ShiftUp(Buf(f), f.reg.top, f.reg.bot, k, BlankLine(f));
    if !f.bufs.inAlt && f.reg.top == 0 {
      var lines := f.bufs.primary[..k];
      PushedAlike(pre, WithBuf(s, g), WithBuf(f, g), lines);
    }
  }

  lemma ScrolledDown(s: Scr, n: nat, g: Grid, line: Line)
    requires Ok(s) && g == Buf(s) && line == BlankLine(s)
    ensures |g| == s.rows && s.reg.top <= s.reg.bot < s.rows
    ensures ScrollDown(s, n) ==
      WithBuf(s, ShiftDown(g, s.reg.top, s.reg.bot, Min(n, s.reg.bot - s.reg.top + 1), line))
  {
    Bounds(s);
    hide ShiftDown, BlankLine, GridOk;
  }

  lemma ScrollDownAlike(pre: Grid, s: Scr, f: Scr, n: nat)
    requires Ok(s) && Ok(f) && Alike(pre, s, f)
    ensures Alike(pre, ScrollDown(s, n), ScrollDown(f, n))
  {
    hide *;
    Bounds(f);
    SameBuf(pre, s, f);
    ScrolledDown(s, n, Buf(f), BlankLine(f));
    ScrolledDown(f, n, Buf(f), BlankLine(f));
    var most := f.reg.bot - f.reg.top + 1;
    MovedRowsAlike(pre, s, f, f.reg.top, f.reg.bot, if n <= most then n else most);
    assert Min(n, most) == if n <= most then n else most by { LeastOf(n, most); }
  }

  lemma LeastOf(a: int, b: int)
    ensures Min(a, b) == if a <= b then a else b
  {
  }

  lemma IndexAlike(pre: Grid, s: Scr, f: Scr)
    requires Ok(s) && Ok(f) && Alike(pre, s, f)
    ensures Alike(pre, Index(s), Index(f))
  {
    hide ScrollUp, GridOk;
    Moved(pre, s, f, f.cur.x, f.cur.y);
    ScrollUpAlike(pre, MoveTo(s, s.cur.x, s.cur.y), MoveTo(f, f.cur.x, f.cur.y), 1);
    Moved(pre, s, f, f.cur.x, f.cur.y + 1);
  }

  lemma ReverseIndexAlike(pre: Grid, s: Scr, f: Scr)
    requires Ok(s) && Ok(f) && Alike(pre, s, f)
    ensures Alike(pre, ReverseIndex(s), ReverseIndex(f))
  {
    hide ScrollDown, GridOk;
    Moved(pre, s, f, f.cur.x, f.cur.y);
    ScrollDownAlike(pre, MoveTo(s, s.cur.x, s.cur.y), MoveTo(f, f.cur.x, f.cur.y), 1);
    if f.cur.y > 0 { Moved(pre, s, f, f.cur.x, f.cur.y - 1); }
  }

  // ---- printing ----------------------------------------------------------------------------------

  lemma AttachAlike(pre: Grid, s: Scr, f: Scr, cp: nat)
    requires Ok(s) && Ok(f) && Alike(pre, s, f)
    ensures Alike(pre, AttachMark(s, cp), AttachMark(f, cp))
  {
    if s.base != f.base {
      assert !HasBase(s) && !HasBase(f);
    } else if HasBase(f) {
      hide NoGlyphs, TabsAlike;
    }
  }

  lemma PlaceAlike(pre: Grid, s: Scr, f: Scr, cp: nat, w: nat)
    requires Ok(s) && Ok(f) && Alike(pre, s, f) && 1 <= w <= 2
    ensures Alike(pre, Place(s, cp, w), Place(f, cp, w))
  {
    hide NoGlyphs, TabsAlike, PlacedRow;
  }

  lemma PutAlike(pre: Grid, s: Scr, f: Scr, cp: nat)
    requires Ok(s) && Ok(f) && Alike(pre, s, f)
    ensures Alike(pre, PutRune(s, cp), PutRune(f, cp))
  {
    hide AttachMark, Place, Index, Ok, Bare, BufsAlike, TabsAlike, WidthOf;
    var w := WidthOf(cp);
    if w == 0 {
      AttachAlike(pre, s, f, cp);
    } else {
      Moved(pre, s, f, 0, f.cur.y);
      IndexOk(s, f);
      if f.cur.wrap { IndexAlike(pre, MoveTo(s, 0, s.cur.y), MoveTo(f, 0, f.cur.y)); }
      var s1, f1 := Wrapped(s), Wrapped(f);
      assert Alike(pre, s1, f1);
      IndexOk(s1, f1);
      Moved(pre, s1, f1, 0, f1.cur.y);
      var again := w == 2 && f1.cur.x == f1.cols - 1 && f1.modes.autoWrap;
      if again { IndexAlike(pre, MoveTo(s1, 0, s1.cur.y), MoveTo(f1, 0, f1.cur.y)); }
      PlaceAlike(pre, if again then Index(MoveTo(s1, 0, s1.cur.y)) else s1,
                 if again then Index(MoveTo(f1, 0, f1.cur.y)) else f1, cp, w);
    }
  }

  lemma IndexOk(s: Scr, f: Scr)
    requires Ok(s) && Ok(f)
    ensures Ok(MoveTo(s, 0, s.cur.y)) && Ok(MoveTo(f, 0, f.cur.y))
  {
  }

  // ---- erasing and editing -----------------------------------------------------------------------

  lemma WithRowAlike(pre: Grid, s: Scr, f: Scr, y: nat, row: Line)
    requires Ok(s) && Ok(f) && Alike(pre, s, f) && y < f.rows && |row| == f.cols
    requires NoGlyphs(Buf(f)) ==> forall x :: 0 <= x < |row| ==> row[x].rune == 0
    ensures Alike(pre, WithRow(s, y, row), WithRow(f, y, row))
  {
    var g: Grid := Buf(f)[y := row];
    if NoGlyphs(Buf(f)) {
      forall v, x | 0 <= v < |g| && 0 <= x < |g[v]| ensures g[v][x].rune == 0 {
        assert g[v] == if v == y then row else Buf(f)[v];
      }
    }
    hide NoGlyphs, Alike, GridOk;
    SameBuf(pre, s, f);
    NewGrid(pre, s, f, g);
  }

  /** The cells of a row of a bare grid, and blanks, in any arrangement. */
  predicate BareRow(row: Line) { forall x :: 0 <= x < |row| ==> row[x].rune == 0 }

  lemma RowIsBare(f: Scr)
    requires Ok(f)
    ensures NoGlyphs(Buf(f)) ==> BareRow(Buf(f)[f.cur.y])
  {
  }

  lemma BareParts(row: Line, a: nat, b: nat, n: nat, blank: Cell)
    requires a <= b <= |row| && BareRow(row) && blank.rune == 0
    ensures BareRow(row[a..b]) && BareRow(Rep(n, blank))
  {
  }

  lemma BareJoin(a: Line, b: Line, c: Line)
    requires BareRow(a) && BareRow(b) && BareRow(c)
    ensures BareRow(a + b + c)
  {
  }

  lemma WipeRowAlike(pre: Grid, s: Scr, f: Scr, lo: nat, hi: nat)
    requires Ok(s) && Ok(f) && Alike(pre, s, f) && lo <= hi <= f.cols
    ensures Alike(pre, WipeCursorRow(s, lo, hi), WipeCursorRow(f, lo, hi))
  {
    SameBuf(pre, s, f);
    RowIsBare(f);
    var row := Buf(f)[f.cur.y];
    if BareRow(row) {
      BareParts(row, 0, lo, hi - lo, Blank(f));
      BareParts(row, hi, |row|, 0, Blank(f));
      BareJoin(row[..lo], Rep(hi - lo, Blank(f)), row[hi..]);
    }
    hide NoGlyphs, Alike, Blank;
    WithRowAlike(pre, s, f, f.cur.y, Wiped(row, lo, hi, Blank(f)));
  }

  lemma EraseLineAlike(pre: Grid, s: Scr, f: Scr, mode: int)
    requires Ok(s) && Ok(f) && Alike(pre, s, f)
    ensures Alike(pre, EraseInLine(s, mode), EraseInLine(f, mode))
  {
    SameBuf(pre, s, f);
    hide WipeCursorRow, Alike;
    var lo, hi := if mode == 0 then f.cur.x else 0, if mode == 1 then f.cur.x + 1 else f.cols;
    WipeRowAlike(pre, s, f, lo, hi);
    var s1 := if 0 <= mode <= 2 then WipeCursorRow(s, lo, hi) else s;
    var f1 := if 0 <= mode <= 2 then WipeCursorRow(f, lo, hi) else f;
    SameBuf(pre, s1, f1);
    Moved(pre, s1, f1, f1.cur.x, f1.cur.y);
  }

  lemma WipeRowsAlike(pre: Grid, s: Scr, f: Scr, lo: nat, hi: nat)
    requires Ok(s) && Ok(f) && Alike(pre, s, f) && lo <= hi <= f.rows
    ensures Alike(pre, WipeRows(s, lo, hi), WipeRows(f, lo, hi))
  {
    SameBuf(pre, s, f);
    var g: Grid := Buf(f)[..lo] + Rep(hi - lo, BlankLine(f)) + Buf(f)[hi..];
    if NoGlyphs(Buf(f)) {
      forall y, x | 0 <= y < |g| && 0 <= x < |g[y]| ensures g[y][x].rune == 0 {
        assert g[y] == if y < lo then Buf(f)[y] else if y < hi then BlankLine(f) else Buf(f)[y];
      }
    }
    hide NoGlyphs, Alike, BlankLine;
    NewGrid(pre, s, f, g);
  }

  lemma ClearHistoryAlike(pre: Grid, s: Scr, f: Scr)
    requires Alike(pre, s, f)
    ensures Alike(pre, ClearHistory(s), ClearHistory(f))
  {
    hide BufsAlike, Bare, TabsAlike;
  }

  lemma EraseScreenAlike(pre: Grid, s: Scr, f: Scr, mode: int)
    requires Ok(s) && Ok(f) && Alike(pre, s, f)
    ensures Alike(pre, EraseInDisplay(s, mode), EraseInDisplay(f, mode))
  {
    SameBuf(pre, s, f);
    Bounds(f);
    hide EraseInLine, WipeRows, Alike, Ok, Buf, BlankLine, Blank;
    var y := f.cur.y;
    if mode == 0 {
      EraseLineAlike(pre, s, f, 0);
      EraseKeeps(s, 0);
      EraseKeeps(f, 0);
      WipeRowsAlike(pre, EraseInLine(s, 0), EraseInLine(f, 0), y + 1, f.rows);
      SameBuf(pre, WipeRows(EraseInLine(s, 0), y + 1, f.rows), WipeRows(EraseInLine(f, 0), y + 1, f.rows));
      Moved(pre, WipeRows(EraseInLine(s, 0), y + 1, f.rows), WipeRows(EraseInLine(f, 0), y + 1, f.rows),
            WipeRows(EraseInLine(f, 0), y + 1, f.rows).cur.x, WipeRows(EraseInLine(f, 0), y + 1, f.rows).cur.y);
    } else {
      WipeRowsAlike(pre, s, f, 0, y);
      EraseLineAlike(pre, WipeRows(s, 0, y), WipeRows(f, 0, y), 1);
      WipeRowsAlike(pre, s, f, 0, f.rows);
      ClearHistoryAlike(pre, s, f);
      var s1 := if mode == 1 then EraseInLine(WipeRows(s, 0, y), 1)
                else if mode == 2 then WipeRows(s, 0, f.rows) else if mode == 3 then ClearHistory(s) else s;
      var f1 := if mode == 1 then EraseInLine(WipeRows(f, 0, y), 1)
                else if mode == 2 then WipeRows(f, 0, f.rows) else if mode == 3 then ClearHistory(f) else f;
      SameBuf(pre, s1, f1);
      Moved(pre, s1, f1, f1.cur.x, f1.cur.y);
    }
  }

  lemma EraseKeeps(s: Scr, mode: int)
    requires Ok(s)
    ensures EraseInLine(s, mode).rows == s.rows
  {
  }

  lemma EraseCharsAlike(pre: Grid, s: Scr, f: Scr, n: nat)
    requires Ok(s) && Ok(f) && Alike(pre, s, f)
    ensures Alike(pre, EraseChars(s, n), EraseChars(f, n))
  {
    SameBuf(pre, s, f);
    Bounds(f);
    hide WipeCursorRow, Alike, Ok;
    WipeRowAlike(pre, s, f, f.cur.x, Max(f.cur.x, Min(AddWord(f.cur.x, Max(n, 1)), f.cols)));
  }

  lemma InsertCharsAlike(pre: Grid, s: Scr, f: Scr, n: nat)
    requires Ok(s) && Ok(f) && Alike(pre, s, f)
    ensures Alike(pre, InsertChars(s, n), InsertChars(f, n))
  {
    SameBuf(pre, s, f);
    RowIsBare(f);
    var k := Clamp(n, 1, f.cols - f.cur.x);
    var row := Buf(f)[f.cur.y];
    if BareRow(row) {
      BareParts(row, 0, f.cur.x, k, Blank(f));
      BareParts(row, f.cur.x, f.cols - k, 0, Blank(f));
      BareJoin(row[..f.cur.x], Rep(k, Blank(f)), row[f.cur.x..f.cols - k]);
    }
    hide NoGlyphs, Alike, Blank;
    WithRowAlike(pre, s, f, f.cur.y, row[..f.cur.x] + Rep(k, Blank(f)) + row[f.cur.x..f.cols - k]);
  }

  lemma DeleteCharsAlike(pre: Grid, s: Scr, f: Scr, n: nat)
    requires Ok(s) && Ok(f) && Alike(pre, s, f)
    ensures Alike(pre, DeleteChars(s, n), DeleteChars(f, n))
  {
    SameBuf(pre, s, f);
    RowIsBare(f);
    var k := Clamp(n, 1, f.cols - f.cur.x);
    var row := Buf(f)[f.cur.y];
    if BareRow(row) {
      BareParts(row, 0, f.cur.x, k, Blank(f));
      BareParts(row, f.cur.x + k, |row|, 0, Blank(f));
      BareJoin(row[..f.cur.x], row[f.cur.x + k..], Rep(k, Blank(f)));
    }
    hide NoGlyphs, Alike, Blank;
    WithRowAlike(pre, s, f, f.cur.y, row[..f.cur.x] + row[f.cur.x + k..] + Rep(k, Blank(f)));
  }

  lemma InsertLinesAlike(pre: Grid, s: Scr, f: Scr, n: nat)
    requires Ok(s) && Ok(f) && Alike(pre, s, f)
    ensures Alike(pre, InsertLines(s, n), InsertLines(f, n))
  {
    Bounds(s);
    Bounds(f);
    SameBuf(pre, s, f);
    hide ShiftUp, ShiftDown, Alike, Ok, Buf, WithBuf, BlankLine;
    if f.reg.top <= f.cur.y <= f.reg.bot {
      MovedRowsAlike(pre, s, f, f.cur.y, f.reg.bot, Clamp(n, 1, f.reg.bot - f.cur.y + 1));
    }
  }

  lemma DeleteLinesAlike(pre: Grid, s: Scr, f: Scr, n: nat)
    requires Ok(s) && Ok(f) && Alike(pre, s, f)
    ensures Alike(pre, DeleteLines(s, n), DeleteLines(f, n))
  {
    Bounds(s);
    Bounds(f);
    SameBuf(pre, s, f);
    hide ShiftUp, ShiftDown, Alike, Ok, Buf, WithBuf, BlankLine;
    if f.reg.top <= f.cur.y <= f.reg.bot {
      MovedRowsAlike(pre, s, f, f.cur.y, f.reg.bot, Clamp(n, 1, f.reg.bot - f.cur.y + 1));
    }
  }

  // ---- tabs, saved cursor, alternate screen, reset ---------------------------------------------

  lemma {:induction false} NextStopAlike(a: seq<bool>, b: seq<bool>, x: nat)
    requires TabsAlike(a, b) && 0 < x < |a|
    ensures NextStop(a, x) == NextStop(b, x)
    decreases |a| - x
  {
    if x < |a| - 1 && !b[x] { NextStopAlike(a, b, x + 1); }
  }

  lemma TabAlike(pre: Grid, s: Scr, f: Scr)
    requires Ok(s) && Ok(f) && Alike(pre, s, f)
    ensures Alike(pre, Tab(s), Tab(f))
  {
    SameBuf(pre, s, f);
    Moved(pre, s, f, f.cur.x, f.cur.y);
    if f.cur.x < f.cols - 1 {
      NextStopAlike(s.tabs, f.tabs, f.cur.x + 1);
      Moved(pre, s, f, NextStop(f.tabs, f.cur.x + 1), f.cur.y);
    }
    hide Alike, NextStop, GridOk;
  }

  lemma TabStopsAlike(pre: Grid, s: Scr, f: Scr, on: bool)
    requires Ok(s) && Ok(f) && Alike(pre, s, f)
    ensures Alike(pre, SetTabStop(s, on), SetTabStop(f, on)) && Alike(pre, ClearAllTabs(s), ClearAllTabs(f))
  {
    hide Bare, BufsAlike, GridOk;
  }

  lemma SavedCursorAlike(pre: Grid, s: Scr, f: Scr)
    requires Ok(s) && Ok(f) && Alike(pre, s, f)
    ensures Alike(pre, SaveCursor(s), SaveCursor(f)) && Alike(pre, RestoreCursor(s), RestoreCursor(f))
  {
    hide Bare, BufsAlike, TabsAlike, GridOk;
  }

  lemma EnterAlike(pre: Grid, s: Scr, f: Scr)
    requires Ok(s) && Ok(f) && Alike(pre, s, f) && !f.bufs.inAlt
    ensures Alike(pre, SetAltScreen(s, true), SetAltScreen(f, true))
  {
    SavedCursorAlike(pre, s, f);
    var s1, f1 := Switched(SaveCursor(s), true), Switched(SaveCursor(f), true);
    WipedAll(s1);
    WipedAll(f1);
    var g := Rep(f.rows, BlankLine(f));
    assert BlankLine(s1) == BlankLine(f);
    assert NoGlyphs(g) by { BlankRow(f.cols, Blank(f)); }
    hide NoGlyphs, TabsAlike, EraseInDisplay, Rep, GridOk;
    assert SetAltScreen(s, true) == s1.(bufs := s1.bufs.(alt := g), cur := Cursor(0, 0, false));
    assert SetAltScreen(f, true) == f1.(bufs := f1.bufs.(alt := g), cur := Cursor(0, 0, false));
  }

  lemma WipedAll(s: Scr)
    requires Ok(s) && s.bufs.inAlt
    ensures EraseInDisplay(s, 2) ==
      s.(bufs := s.bufs.(alt := Rep(s.rows, BlankLine(s))), cur := Cursor(s.cur.x, s.cur.y, false))
  {
    var g := EraseInDisplay(s, 2).bufs.alt;
    assert |g| == s.rows && forall y :: 0 <= y < s.rows ==> g[y] == BlankLine(s);
    assert g == Rep(s.rows, BlankLine(s));
  }

  lemma LeaveAlike(pre: Grid, s: Scr, f: Scr)
    requires Ok(s) && Ok(f) && Alike(pre, s, f) && f.bufs.inAlt
    ensures Alike(pre, SetAltScreen(s, false), SetAltScreen(f, false))
  {
    hide NoGlyphs, TabsAlike, GridOk;
  }

  lemma AltAlike(pre: Grid, s: Scr, f: Scr, on: bool)
    requires Ok(s) && Ok(f) && Alike(pre, s, f)
    ensures Alike(pre, SetAltScreen(s, on), SetAltScreen(f, on))
  {
    SameBuf(pre, s, f);
    if on != f.bufs.inAlt {
      if on { EnterAlike(pre, s, f); } else { LeaveAlike(pre, s, f); }
    }
    hide Alike, Ok, RestoreCursor, EraseInDisplay;
  }

  lemma ResetModesAlike(pre: Grid, s: Scr, f: Scr)
    requires Ok(s) && Ok(f) && Alike(pre, s, f)
    ensures Alike(pre, ResetModes(s), ResetModes(f))
  {
    hide Bare, BufsAlike, TabsAlike, GridOk;
  }

  lemma NoPoolAlike(pre: Grid, s: Scr, f: Scr)
    requires Alike(pre, s, f)
    ensures Alike(pre, s.(pool := []), f.(pool := []))
  {
    hide Bare, BufsAlike, TabsAlike;
  }

  lemma FullResetAlike(pre: Grid, s: Scr, f: Scr)
    requires Ok(s) && Ok(f) && Alike(pre, s, f)
    ensures Alike(pre, FullReset(s), FullReset(f))
  {
    hide SetAltScreen, EraseInDisplay, Alike, ClearHistory, Ok;
    var s1, f1 := ResetModes(s), ResetModes(f);
    ResetModesAlike(pre, s, f);
    SameBuf(pre, s1, f1);
    AltAlike(pre, s1, f1, false);
    var s2 := if s1.bufs.inAlt then SetAltScreen(s1, false) else s1;
    var f2 := if f1.bufs.inAlt then SetAltScreen(f1, false) else f1;
    EraseScreenAlike(pre, s2, f2, 2);
    ClearHistoryAlike(pre, EraseInDisplay(s2, 2), EraseInDisplay(f2, 2));
    NoPoolAlike(pre, ClearHistory(EraseInDisplay(s2, 2)), ClearHistory(EraseInDisplay(f2, 2)));
  }

  // ---- sizes, modes, renditions and prompts ----------------------------------------------------

  lemma RebuiltBare(g: Grid, oldCols: nat, cols: nat, rows: nat)
    requires GridOk(g, oldCols, |g|) && NoGlyphs(g)
    ensures NoGlyphs(Rebuild(g, oldCols, cols, rows))
  {
    var u: Grid := Rebuild(g, oldCols, cols, rows);
    forall y, x | 0 <= y < |u| && 0 <= x < |u[y]| ensures u[y][x].rune == 0 {
      assert u[y] == RebuildLine(g, oldCols, cols, y);
    }
  }

  lemma ResizeAlike(pre: Grid, s: Scr, f: Scr, cols: nat, rows: nat)
    requires Ok(s) && Ok(f) && Alike(pre, s, f) && cols <= MAX_DIM && rows <= MAX_DIM
    ensures Alike(pre, Resize(s, cols, rows), Resize(f, cols, rows))
  {
    if NoGlyphs(f.bufs.primary) { RebuiltBare(f.bufs.primary, f.cols, Max(cols, 1), Max(rows, 1)); }
    if NoGlyphs(f.bufs.alt) { RebuiltBare(f.bufs.alt, f.cols, Max(cols, 1), Max(rows, 1)); }
    hide NoGlyphs, Rebuild, Shift;
  }

  lemma MovedCursor(pre: Grid, s: Scr, f: Scr, cur: Cursor)
    requires Alike(pre, s, f)
    ensures Alike(pre, s.(cur := cur), f.(cur := cur))
  {
    hide Bare, BufsAlike, TabsAlike;
  }

  lemma ModesAlike(pre: Grid, s: Scr, f: Scr, modes: Modes)
    requires Alike(pre, s, f)
    ensures Alike(pre, s.(modes := modes), f.(modes := modes))
  {
    hide Bare, BufsAlike, TabsAlike;
  }

  lemma PenAlike(pre: Grid, s: Scr, f: Scr, pen: Pen)
    requires Alike(pre, s, f)
    ensures Alike(pre, s.(pen := pen), f.(pen := pen))
  {
    hide Bare, BufsAlike, TabsAlike;
  }

  lemma RegionAlike(pre: Grid, s: Scr, f: Scr, top: int, bottom: int)
    requires Ok(s) && Ok(f) && Alike(pre, s, f)
    ensures Alike(pre, SetScrollRegion(s, top, bottom), SetScrollRegion(f, top, bottom))
  {
    hide Bare, BufsAlike, TabsAlike, GridOk;
  }

  lemma PromptsAlike(pre: Grid, s: Scr, f: Scr, ps: seq<Prompt>)
    requires Alike(pre, s, f)
    ensures Alike(pre, s.(prompts := Shift(ps, |pre|)), f.(prompts := ps))
  {
    hide Bare, BufsAlike, TabsAlike;
  }

  lemma {:induction false} FromShifted(ps: seq<Prompt>, d: nat, oldest: nat)
    ensures PromptsFrom(Shift(ps, d), oldest + d) == Shift(PromptsFrom(ps, oldest), d)
  {
    if ps != [] {
      FromShifted(ps[1..], d, oldest);
      assert Shift(ps, d)[1..] == Shift(ps[1..], d);
    }
  }

  lemma Appended(ps: seq<Prompt>, d: nat, gid: nat)
    ensures Shift(ps + [Prompt(gid, None)], d) == Shift(ps, d) + [Prompt(gid + d, None)]
  {
  }

  lemma CappedShift(ps: seq<Prompt>, d: nat)
    ensures Capped(Shift(ps, d)) == Shift(Capped(ps), d)
  {
  }

  lemma MarkedShift(ps: seq<Prompt>, gid: nat, oldest: nat, d: nat)
    ensures Marked(Shift(ps, d), gid + d, oldest + d) == Shift(Marked(ps, gid, oldest), d)
  {
    hide PromptsFrom, Shift, Capped;
    Appended(ps, d, gid);
    LastShifted(ps, d);
    var more := if ps != [] && ps[|ps| - 1].line == gid then ps else ps + [Prompt(gid, None)];
    FromShifted(more, d, oldest);
    CappedShift(PromptsFrom(more, oldest), d);
  }

  lemma LastShifted(ps: seq<Prompt>, d: nat)
    ensures |Shift(ps, d)| == |ps|
    ensures ps != [] ==> Shift(ps, d)[|ps| - 1].line == ps[|ps| - 1].line + d
  {
  }

  lemma MarkAlike(pre: Grid, s: Scr, f: Scr)
    requires Ok(s) && Ok(f) && Alike(pre, s, f)
    ensures Alike(pre, MarkPrompt(s), MarkPrompt(f))
  {
    hide Alike, Ok, Marked, Shift, Kept;
    SamePast(pre, s, f);
    if !f.bufs.inAlt {
      MarkedShift(f.prompts, |f.hist.log| + f.cur.y, |f.hist.log| - Kept(f), |pre|);
      PromptsAlike(pre, s, f, MarkPrompt(f).prompts);
    }
  }

  lemma SamePast(pre: Grid, s: Scr, f: Scr)
    requires Ok(s) && Ok(f) && Alike(pre, s, f)
    ensures |s.hist.log| == |pre| + |f.hist.log| && Kept(s) == Kept(f) <= |f.hist.log|
    ensures s.prompts == Shift(f.prompts, |pre|) && s.cur == f.cur && s.bufs.inAlt == f.bufs.inAlt
    ensures f.hist.since <= |f.hist.log| && s.hist.since <= |s.hist.log|
  {
  }

  lemma ExitAlike(pre: Grid, s: Scr, f: Scr, exit: int)
    requires Ok(s) && Ok(f) && Alike(pre, s, f)
    ensures Alike(pre, MarkCmdExit(s, exit), MarkCmdExit(f, exit))
  {
    var ps := MarkCmdExit(f, exit).prompts;
    assert MarkCmdExit(s, exit).prompts == Shift(ps, |pre|);
    PromptsAlike(pre, s, f, ps);
    hide Alike, Shift, GridOk;
  }
}
