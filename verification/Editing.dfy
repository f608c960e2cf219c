/** What the editing operations do to the cells of the screen, cell by cell, and which of them
    undo one another. */
module Editing {
  import opened Cells
  import opened ScreenModel

  // ---- erasing -------------------------------------------------------------------------------

  /** Reading order: row by row, left to right. */
  predicate AtOrAfter(y: nat, x: nat, cy: nat, cx: nat) { y > cy || (y == cy && x >= cx) }

  /** What an erase request covers: from the cursor on, up to and including it, or everything. */
  predicate Covered(mode: int, y: nat, x: nat, c: Cursor) {
    if mode == 0 then AtOrAfter(y, x, c.y, c.x)
    else if mode == 1 then AtOrAfter(c.y, c.x, y, x)
    else mode == 2
  }

  lemma WipedCell(row: Line, lo: nat, hi: nat, blank: Cell, x: nat)
    requires lo <= hi <= |row| && x < |row|
    ensures Wiped(row, lo, hi, blank)[x] == if lo <= x < hi then blank else row[x]
  {
  }

  lemma EraseLineExactly(s: Scr, mode: int, y: nat, x: nat)
    requires Ok(s) && y < s.rows && x < s.cols
    ensures var r := EraseInLine(s, mode);
            && Buf(r)[y][x] == (if y == s.cur.y && Covered(mode, y, x, s.cur) then Blank(s) else Buf(s)[y][x])
            && r.cur == Cursor(s.cur.x, s.cur.y, false) && r.hist == s.hist
  {
    hide Wiped;
    if 0 <= mode <= 2 {
      WipedCell(Buf(s)[s.cur.y], if mode == 0 then s.cur.x else 0,
                 if mode == 1 then s.cur.x + 1 else s.cols, Blank(s), x);
    }
  }

  lemma WipeRowsCell(s: Scr, lo: nat, hi: nat, y: nat, x: nat)
    requires Ok(s) && lo <= hi <= s.rows && y < s.rows && x < s.cols
    ensures Buf(WipeRows(s, lo, hi))[y][x] == if lo <= y < hi then Blank(s) else Buf(s)[y][x]
    ensures WipeRows(s, lo, hi).cur == s.cur && Blank(WipeRows(s, lo, hi)) == Blank(s)
    ensures WipeRows(s, lo, hi).cols == s.cols && WipeRows(s, lo, hi).rows == s.rows
  {
  }

  lemma EraseLineKeeps(s: Scr, mode: int)
    requires Ok(s)
    ensures var r := EraseInLine(s, mode);
            Blank(r) == Blank(s) && r.cur.x == s.cur.x && r.cur.y == s.cur.y && r.cols == s.cols && r.rows == s.rows
  {
  }

  lemma EraseAfterExactly(s: Scr, y: nat, x: nat)
    requires Ok(s) && y < s.rows && x < s.cols
    ensures Buf(EraseInDisplay(s, 0))[y][x] == if AtOrAfter(y, x, s.cur.y, s.cur.x) then Blank(s) else Buf(s)[y][x]
  {
    hide EraseInLine, WipeRows, Blank;
    EraseLineExactly(s, 0, y, x);
    EraseLineKeeps(s, 0);
    WipeRowsCell(EraseInLine(s, 0), s.cur.y + 1, s.rows, y, x);
  }

  lemma EraseBeforeExactly(s: Scr, y: nat, x: nat)
    requires Ok(s) && y < s.rows && x < s.cols
    ensures Buf(EraseInDisplay(s, 1))[y][x] == if AtOrAfter(s.cur.y, s.cur.x, y, x) then Blank(s) else Buf(s)[y][x]
  {
    hide EraseInLine, WipeRows, Blank;
    WipeRowsCell(s, 0, s.cur.y, y, x);
    EraseLineExactly(WipeRows(s, 0, s.cur.y), 1, y, x);
    EraseLineKeeps(WipeRows(s, 0, s.cur.y), 1);
  }

  lemma EraseAllExactly(s: Scr, mode: int, y: nat, x: nat)
    requires Ok(s) && y < s.rows && x < s.cols && mode != 0 && mode != 1
    ensures Buf(EraseInDisplay(s, mode))[y][x] == if mode == 2 then Blank(s) else Buf(s)[y][x]
  {
    hide EraseInLine, WipeRows, Blank;
    WipeRowsCell(s, 0, s.rows, y, x);
  }

  /** Erasing in the display blanks exactly the cells the request covers, in the current
      background, and leaves every other cell. */
  lemma EraseDisplayExactly(s: Scr, mode: int, y: nat, x: nat)
    requires Ok(s) && y < s.rows && x < s.cols
    ensures var r := EraseInDisplay(s, mode);
            && GridOk(Buf(r), s.cols, s.rows)
            && Buf(r)[y][x] == if Covered(mode, y, x, s.cur) then Blank(s) else Buf(s)[y][x]
  {
    DisplayKept(s, mode);
    hide EraseInDisplay, Ok, Buf, Blank;
    if mode == 0 {
      EraseAfterExactly(s, y, x);
    } else if mode == 1 {
      EraseBeforeExactly(s, y, x);
    } else {
      EraseAllExactly(s, mode, y, x);
    }
  }

  lemma WipeRowsKeeps(s: Scr, lo: nat, hi: nat)
    requires Ok(s) && lo <= hi <= s.rows
    ensures WipeRows(s, lo, hi).cols == s.cols && WipeRows(s, lo, hi).rows == s.rows && WipeRows(s, lo, hi).cur == s.cur
  {
  }

  lemma DisplayKept(s: Scr, mode: int)
    requires Ok(s)
    ensures GridOk(Buf(EraseInDisplay(s, mode)), s.cols, s.rows)
  {
    Bounds(s);
    EraseLineKeeps(s, 0);
    WipeRowsKeeps(EraseInLine(s, 0), s.cur.y + 1, s.rows);
    WipeRowsKeeps(s, 0, s.cur.y);
    EraseLineKeeps(WipeRows(s, 0, s.cur.y), 1);
    WipeRowsKeeps(s, 0, s.rows);
    ActiveGrid(EraseInDisplay(s, mode));
    hide EraseInLine, WipeRows, Ok, Buf, GridOk;
  }

  lemma ActiveGrid(s: Scr)
    requires Ok(s)
    ensures GridOk(Buf(s), s.cols, s.rows)
  {
  }

  /** Erasing n characters blanks n cells from the cursor, or to the end of the row, unless the
      sum of column and count wraps to before the column: then nothing. */
  lemma EraseCharsExactly(s: Scr, n: nat, y: nat, x: nat)
    requires Ok(s) && y < s.rows && x < s.cols
    ensures var end := AddWord(s.cur.x, Max(n, 1));
            Buf(EraseChars(s, n))[y][x] == if y == s.cur.y && s.cur.x <= x < end then Blank(s) else Buf(s)[y][x]
  {
    hide Wiped;
    WipedCell(Buf(s)[s.cur.y], s.cur.x, Max(s.cur.x, Min(AddWord(s.cur.x, Max(n, 1)), s.cols)), Blank(s), x);
  }

  // ---- inserting and deleting ---------------------------------------------------------------

  function Opened(row: Line, at: nat, k: nat, blank: Cell): Line
    requires at + k <= |row|
  {
    row[..at] + Rep(k, blank) + row[at..|row| - k]
  }

  function Shut(row: Line, at: nat, k: nat, blank: Cell): Line
    requires at + k <= |row|
  {
    row[..at] + row[at + k..] + Rep(k, blank)
  }

  lemma ShutUndoesOpened(row: Line, at: nat, k: nat, blank: Cell, x: nat)
    requires at + k <= |row| && x < |row|
    ensures |Opened(row, at, k, blank)| == |row|
    ensures Shut(Opened(row, at, k, blank), at, k, blank)[x] == if x >= |row| - k then blank else row[x]
  {
    var o := Opened(row, at, k, blank);
    assert o[..at] == row[..at] && o[at + k..] == row[at..|row| - k];
  }

  /** Deleting the characters just inserted gives the row back, but for the cells pushed past the
      edge, which come back blank. */
  lemma DeleteUndoesInsertChars(s: Scr, n: nat, y: nat, x: nat)
    requires Ok(s) && y < s.rows && x < s.cols
    ensures var k := Clamp(n, 1, s.cols - s.cur.x);
            Buf(DeleteChars(InsertChars(s, n), n))[y][x] ==
              if y == s.cur.y && x >= s.cols - k then Blank(s) else Buf(s)[y][x]
  {
    var k := Clamp(n, 1, s.cols - s.cur.x);
    ShutUndoesOpened(Buf(s)[s.cur.y], s.cur.x, k, Blank(s), x);
    InsertedIs(s, n);
    DeletedIs(InsertChars(s, n), n);
    hide InsertChars, DeleteChars, Opened, Shut, Ok;
  }

  lemma InsertedIs(s: Scr, n: nat)
    requires Ok(s)
    ensures var k := Clamp(n, 1, s.cols - s.cur.x);
            var r := InsertChars(s, n);
            && Buf(r) == Buf(s)[s.cur.y := Opened(Buf(s)[s.cur.y], s.cur.x, k, Blank(s))]
            && Blank(r) == Blank(s) && r.cur == s.cur && r.cols == s.cols && r.rows == s.rows
  {
  }

  lemma DeletedIs(s: Scr, n: nat)
    requires Ok(s)
    ensures var k := Clamp(n, 1, s.cols - s.cur.x);
            Buf(DeleteChars(s, n)) == Buf(s)[s.cur.y := Shut(Buf(s)[s.cur.y], s.cur.x, k, Blank(s))]
  {
  }

  lemma UpAfterDown(g: Grid, lo: nat, hi: nat, k: nat, line: Line, y: nat)
    requires lo <= hi < |g| && k <= hi - lo + 1 && y < |g|
    ensures ShiftUp(ShiftDown(g, lo, hi, k, line), lo, hi, k, line)[y] == if hi - k < y <= hi then line else g[y]
  {
    var d := ShiftDown(g, lo, hi, k, line);
    assert ShiftUp(d, lo, hi, k, line)[y] == if y < lo || y > hi then d[y] else if y + k <= hi then d[y + k] else line;
    hide ShiftUp, ShiftDown;
  }

  lemma DownAfterUp(g: Grid, lo: nat, hi: nat, k: nat, line: Line, y: nat)
    requires lo <= hi < |g| && k <= hi - lo + 1 && y < |g|
    ensures ShiftDown(ShiftUp(g, lo, hi, k, line), lo, hi, k, line)[y] == if lo <= y < lo + k then line else g[y]
  {
    var u := ShiftUp(g, lo, hi, k, line);
    assert ShiftDown(u, lo, hi, k, line)[y] == if y < lo || y > hi then u[y] else if y < lo + k then line else u[y - k];
    hide ShiftUp, ShiftDown;
  }

  /** Deleting the lines just inserted gives the grid back, but for the rows pushed past the
      bottom margin, which come back blank; outside the margins neither does anything. */
  lemma DeleteUndoesInsertLines(s: Scr, n: nat, y: nat)
    requires Ok(s) && y < s.rows
    ensures var r := DeleteLines(InsertLines(s, n), n);
            if s.reg.top <= s.cur.y <= s.reg.bot then
              var k := Clamp(n, 1, s.reg.bot - s.cur.y + 1);
              Buf(r)[y] == if s.reg.bot - k < y <= s.reg.bot then BlankLine(s) else Buf(s)[y]
            else r == s
  {
    if s.reg.top <= s.cur.y <= s.reg.bot {
      var k := Clamp(n, 1, s.reg.bot - s.cur.y + 1);
      UpAfterDown(Buf(s), s.cur.y, s.reg.bot, k, BlankLine(s), y);
      InsertsThenDeletes(s, n);
      hide Ok, InsertLines, DeleteLines, ShiftUp, ShiftDown, BlankLine, Buf;
    }
  }

  lemma InsertIs(s: Scr, n: nat)
    requires Ok(s) && s.reg.top <= s.cur.y <= s.reg.bot
    ensures var (r, k) := (InsertLines(s, n), Clamp(n, 1, s.reg.bot - s.cur.y + 1));
            && Ok(r) && r.cur == s.cur && r.reg == s.reg && BlankLine(r) == BlankLine(s)
            && Buf(r) == ShiftDown(Buf(s), s.cur.y, s.reg.bot, k, BlankLine(s))
  {
    Bounds(s);
    hide ShiftDown, GridOk;
  }

  lemma DeleteIs(s: Scr, n: nat)
    requires Ok(s) && s.reg.top <= s.cur.y <= s.reg.bot
    ensures var k := Clamp(n, 1, s.reg.bot - s.cur.y + 1);
            |Buf(s)| == s.rows && s.reg.bot < s.rows
            && Buf(DeleteLines(s, n)) == ShiftUp(Buf(s), s.cur.y, s.reg.bot, k, BlankLine(s))
  {
    Bounds(s);
    hide ShiftUp, GridOk;
  }

  lemma InsertsThenDeletes(s: Scr, n: nat)
    requires Ok(s) && s.reg.top <= s.cur.y <= s.reg.bot
    ensures var (lo, hi, k) := (s.cur.y, s.reg.bot, Clamp(n, 1, s.reg.bot - s.cur.y + 1));
            Buf(DeleteLines(InsertLines(s, n), n)) ==
            ShiftUp(ShiftDown(Buf(s), lo, hi, k, BlankLine(s)), lo, hi, k, BlankLine(s))
  {
    hide *;
    InsertIs(s, n);
    DeleteIs(InsertLines(s, n), n);
  }

  /** Scrolling down undoes scrolling up, but for the rows that left the region, which come back
      blank; what they held is in history when the region starts at the top of the primary
      screen. */
  lemma ScrollDownUndoesUp(s: Scr, n: nat, y: nat)
    requires Ok(s) && y < s.rows
    ensures var k := Min(n, s.reg.bot - s.reg.top + 1);
            var r := ScrollDown(ScrollUp(s, n), n);
            && Buf(r)[y] == (if s.reg.top <= y < s.reg.top + k then BlankLine(s) else Buf(s)[y])
            && r.hist.log == (if !s.bufs.inAlt && s.reg.top == 0 then s.hist.log + s.bufs.primary[..k] else s.hist.log)
  {
    var k := Min(n, s.reg.bot - s.reg.top + 1);
    DownAfterUp(Buf(s), s.reg.top, s.reg.bot, k, BlankLine(s), y);
    UpThenDown(s, n);
    hide Ok, ScrollUp, ScrollDown, ShiftUp, ShiftDown, BlankLine, Buf;
  }

  lemma UpIs(s: Scr, n: nat)
    requires Ok(s)
    ensures var (r, k) := (ScrollUp(s, n), Min(n, s.reg.bot - s.reg.top + 1));
            && Ok(r) && r.reg == s.reg && BlankLine(r) == BlankLine(s)
            && Buf(r) == ShiftUp(Buf(s), s.reg.top, s.reg.bot, k, BlankLine(s))
            && r.hist.log == if !s.bufs.inAlt && s.reg.top == 0 then s.hist.log + s.bufs.primary[..k] else s.hist.log
  {
    Bounds(s);
    hide ShiftUp, GridOk;
  }

  lemma DownIs(s: Scr, n: nat)
    requires Ok(s)
    ensures var (r, k) := (ScrollDown(s, n), Min(n, s.reg.bot - s.reg.top + 1));
            && |Buf(s)| == s.rows && s.reg.bot < s.rows && r.hist == s.hist
            && Buf(r) == ShiftDown(Buf(s), s.reg.top, s.reg.bot, k, BlankLine(s))
  {
    Bounds(s);
    hide ShiftDown, GridOk;
  }

  lemma UpThenDown(s: Scr, n: nat)
    requires Ok(s)
    ensures var (lo, hi, k) := (s.reg.top, s.reg.bot, Min(n, s.reg.bot - s.reg.top + 1));
            var r := ScrollDown(ScrollUp(s, n), n);
            && Buf(r) == ShiftDown(ShiftUp(Buf(s), lo, hi, k, BlankLine(s)), lo, hi, k, BlankLine(s))
            && r.hist.log == (if !s.bufs.inAlt && lo == 0 then s.hist.log + s.bufs.primary[..k] else s.hist.log)
  {
    hide *;
    UpIs(s, n);
    DownIs(ScrollUp(s, n), n);
  }

  /** Except on the bottom margin, a reverse index undoes an index, unless the cursor lands on the
      top margin from above. */
  lemma ReverseUndoesIndex(s: Scr)
    requires Ok(s) && s.cur.y + 1 < s.rows && s.cur.y != s.reg.bot && s.cur.y + 1 != s.reg.top
    ensures ReverseIndex(Index(s)) == MoveTo(s, s.cur.x, s.cur.y)
  {
    hide ShiftUp, ShiftDown;
  }

  // ---- tabs ---------------------------------------------------------------------------------

  /** A tab goes to the nearest stop to the right, or to the last column when there is none. */
  lemma TabFindsNextStop(s: Scr)
    requires Ok(s)
    ensures var r := Tab(s);
            && r == MoveTo(s, r.cur.x, s.cur.y)
            && (s.cur.x < s.cols - 1 ==>
                 && s.cur.x < r.cur.x && (s.tabs[r.cur.x] || r.cur.x == s.cols - 1)
                 && forall x :: s.cur.x < x < r.cur.x ==> !s.tabs[x])
            && (s.cur.x == s.cols - 1 ==> r.cur.x == s.cur.x)
  {
    if s.cur.x < s.cols - 1 { NextStopIsNext(s.tabs, s.cur.x + 1); }
  }

  lemma {:induction false} NextStopIsNext(tabs: seq<bool>, x: nat)
    requires x < |tabs|
    ensures var r := NextStop(tabs, x);
            (tabs[r] || r == |tabs| - 1) && forall i :: x <= i < r ==> !tabs[i]
    decreases |tabs| - x
  {
    if !(x >= |tabs| - 1 || tabs[x]) { NextStopIsNext(tabs, x + 1); }
  }
}
