/** What line feeds, erasing, inserting, deleting and scrolling do to each cell of the screen, from
    their bytes. */
module EditControls {
  import opened Cells
  import opened Text
  import opened ParserModel
  import opened Sequences
  import opened Controls
  import S = ScreenModel
  import E = Editing

  /** Columns and rows taken by sequences that shift cells: @ and P within the cursor's row, L and M
      within the region from the cursor down, S and T within the region. */
  predicate InRegion(s: S.Scr, y: int) { s.reg.top <= y <= s.reg.bot }

  /** The cell at (y, x) after one of @ P X L M S T with a count, by where it comes from. */
  function EditedCell(s: S.Scr, f: byte, n: nat, y: nat, x: nat): Cell
    requires S.Ok(s) && y < s.rows && x < s.cols
  {
    var g, blank := S.Buf(s), BlankCell(s.pen.bg);
    var cy, cx, top, bot := s.cur.y, s.cur.x, s.reg.top, s.reg.bot;
    if f == 64 then          // @: a gap of n blanks at the cursor
      if y != cy || x < cx then g[y][x] else if x < cx + n then blank else g[y][x - n]
    else if f == 80 then     // P: the row closes up
      if y != cy || x < cx then g[y][x] else if x + n < s.cols then g[y][x + n] else blank
    else if f == 88 then     // X: n blanks
      if y == cy && cx <= x < cx + n then blank else g[y][x]
    else if f == 76 then     // L: n blank rows at the cursor
      if !InRegion(s, cy) || !InRegion(s, y) || y < cy then g[y][x] else if y < cy + n then blank else g[y - n][x]
    else if f == 77 then     // M: the rows below close up
      if !InRegion(s, cy) || !InRegion(s, y) || y < cy then g[y][x] else if y + n <= bot then g[y + n][x] else blank
    else if f == 83 then     // S: the region moves up
      if !InRegion(s, y) then g[y][x] else if y + n <= bot then g[y + n][x] else blank
    else                     // T: the region moves down
      if !InRegion(s, y) then g[y][x] else if y < top + n then blank else g[y - n][x]
  }

  /** The screen keeps everything but the active grid and what is named. */
  predicate OnlyGrid(s: S.Scr, r: S.Scr) { r == S.WithBuf(s, S.Buf(r)) && GridOk(S.Buf(r), s.cols, s.rows) }

  /** The cells of @ and P are the ones described. */
  lemma RowCells(s: S.Scr, n: nat, y: nat, x: nat)
    requires S.Ok(s) && n >= 1 && y < s.rows && x < s.cols
    ensures |S.Buf(s)| == s.rows && s.cur.y < s.rows && |S.Buf(s)[s.cur.y]| == s.cols && s.cur.x < s.cols
    ensures var (k, row) := (Clamp(n, 1, s.cols - s.cur.x), S.Buf(s)[s.cur.y]);
            var (a, b) := (E.Opened(row, s.cur.x, k, S.Blank(s)), E.Shut(row, s.cur.x, k, S.Blank(s)));
            && |a| == |b| == s.cols
            && (if y == s.cur.y then a else S.Buf(s)[y])[x] == EditedCell(s, 64, n, y, x)
            && (if y == s.cur.y then b else S.Buf(s)[y])[x] == EditedCell(s, 80, n, y, x)
  {
    Active(s);
    var k, row := Clamp(n, 1, s.cols - s.cur.x), S.Buf(s)[s.cur.y];
    OpenedCell(row, s.cur.x, k, S.Blank(s), x);
    ShutCell(row, s.cur.x, k, S.Blank(s), x);
    hide E.Opened, E.Shut, S.Ok, S.Buf;
  }

  lemma RowEdits(s: S.Scr, n: nat, y: nat, x: nat)
    requires S.Ok(s) && 1 <= n < 0x8000_0000 && y < s.rows && x < s.cols
    ensures OnlyGrid(s, S.InsertChars(s, n)) && S.Buf(S.InsertChars(s, n))[y][x] == EditedCell(s, 64, n, y, x)
    ensures OnlyGrid(s, S.DeleteChars(s, n)) && S.Buf(S.DeleteChars(s, n))[y][x] == EditedCell(s, 80, n, y, x)
  {
    Active(s);
    hide S.Ok, S.Buf, S.WithBuf, S.InsertChars, S.DeleteChars, E.Opened, E.Shut, GridOk, OnlyGrid, EditedCell, S.Blank;
    var k, row := Clamp(n, 1, s.cols - s.cur.x), S.Buf(s)[s.cur.y];
    OneRow(s, n);
    RowCells(s, n, y, x);
    WithGrid(s, S.Buf(s)[s.cur.y := E.Opened(row, s.cur.x, k, S.Blank(s))]);
    WithGrid(s, S.Buf(s)[s.cur.y := E.Shut(row, s.cur.x, k, S.Blank(s))]);
  }

  lemma OneRow(s: S.Scr, n: nat)
    requires S.Ok(s)
    ensures |S.Buf(s)| == s.rows && s.cur.y < s.rows && |S.Buf(s)[s.cur.y]| == s.cols && s.cur.x < s.cols
    ensures var (k, row) := (Clamp(n, 1, s.cols - s.cur.x), S.Buf(s)[s.cur.y]);
            var (a, b) := (S.Buf(s)[s.cur.y := E.Opened(row, s.cur.x, k, S.Blank(s))],
                           S.Buf(s)[s.cur.y := E.Shut(row, s.cur.x, k, S.Blank(s))]);
            && GridOk(a, s.cols, s.rows) && GridOk(b, s.cols, s.rows)
            && S.InsertChars(s, n) == S.WithBuf(s, a) && S.DeleteChars(s, n) == S.WithBuf(s, b)
  {
    Active(s);
    hide S.WithBuf, S.Blank;
  }

  lemma OpenedCell(row: Line, at: nat, k: nat, blank: Cell, x: nat)
    requires at + k <= |row| && x < |row|
    ensures |E.Opened(row, at, k, blank)| == |row|
    ensures E.Opened(row, at, k, blank)[x] == if x < at then row[x] else if x < at + k then blank else row[x - k]
  {
  }

  lemma ShutCell(row: Line, at: nat, k: nat, blank: Cell, x: nat)
    requires at + k <= |row| && x < |row|
    ensures |E.Shut(row, at, k, blank)| == |row|
    ensures E.Shut(row, at, k, blank)[x] == if x < at then row[x] else if x + k < |row| then row[x + k] else blank
  {
  }

  lemma EraseEdits(s: S.Scr, n: nat, y: nat, x: nat)
    requires S.Ok(s) && 1 <= n < 0x8000_0000 && y < s.rows && x < s.cols
    ensures OnlyGrid(s, S.EraseChars(s, n)) && S.Buf(S.EraseChars(s, n))[y][x] == EditedCell(s, 88, n, y, x)
  {
    S.Bounds(s);
    E.EraseCharsExactly(s, n, y, x);
    assert S.AddWord(s.cur.x, n) == s.cur.x + n;
    EraseKeepsRest(s, n);
    hide S.EraseChars, GridOk;
  }

  lemma EraseKeepsRest(s: S.Scr, n: nat)
    requires S.Ok(s)
    ensures OnlyGrid(s, S.EraseChars(s, n))
  {
  }

  // ---- rows that move ---------------------------------------------------------------------------------

  /** Row y after rows lo..hi moved up, or down, by k with `line` behind them. */
  function UpRow(g: Grid, lo: nat, hi: nat, k: nat, line: Line, y: nat): Line
    requires lo <= hi < |g| && y < |g|
  {
    if y < lo || y > hi then g[y] else if y + k <= hi then g[y + k] else line
  }

  function DownRow(g: Grid, lo: nat, hi: nat, k: nat, line: Line, y: nat): Line
    requires lo <= hi < |g| && y < |g|
  {
    if y < lo || y > hi then g[y] else if y < lo + k then line else g[y - k]
  }

  lemma RowsMove(g: Grid, lo: nat, hi: nat, k: nat, line: Line, cols: nat)
    requires lo <= hi < |g| && k <= hi - lo + 1 && GridOk(g, cols, |g|) && |line| == cols
    ensures var (u, d) := (S.ShiftUp(g, lo, hi, k, line), S.ShiftDown(g, lo, hi, k, line));
            && GridOk(u, cols, |g|) && GridOk(d, cols, |g|)
            && (forall y :: 0 <= y < |g| ==> u[y] == UpRow(g, lo, hi, k, line, y))
            && (forall y :: 0 <= y < |g| ==> d[y] == DownRow(g, lo, hi, k, line, y))
  {
    var u: Grid, d: Grid := S.ShiftUp(g, lo, hi, k, line), S.ShiftDown(g, lo, hi, k, line);
    forall y | 0 <= y < |g| ensures u[y] == UpRow(g, lo, hi, k, line, y) && |u[y]| == cols {
      assert u[y] == if y < lo || y > hi then g[y] else if y + k <= hi then g[y + k] else line;
    }
    forall y | 0 <= y < |g| ensures d[y] == DownRow(g, lo, hi, k, line, y) && |d[y]| == cols {
      assert d[y] == if y < lo || y > hi then g[y] else if y < lo + k then line else g[y - k];
    }
    hide S.ShiftUp, S.ShiftDown;
  }

  lemma WithGrid(s: S.Scr, g: Grid)
    requires GridOk(g, s.cols, s.rows)
    ensures S.Buf(S.WithBuf(s, g)) == g && OnlyGrid(s, S.WithBuf(s, g))
  {
  }

  lemma Active(s: S.Scr)
    requires S.Ok(s)
    ensures GridOk(S.Buf(s), s.cols, s.rows) && |S.Buf(s)| == s.rows
    ensures |S.BlankLine(s)| == s.cols && forall x :: 0 <= x < s.cols ==> S.BlankLine(s)[x] == BlankCell(s.pen.bg)
    ensures s.cur.y < s.rows && s.cur.x < s.cols && s.reg.top <= s.reg.bot < s.rows
  {
  }

  lemma LinesAre(s: S.Scr, n: nat)
    requires S.Ok(s) && InRegion(s, s.cur.y)
    ensures |S.Buf(s)| == s.rows && s.reg.bot < s.rows
    ensures var (g, lo, hi, k, line) :=
              (S.Buf(s), s.cur.y, s.reg.bot, Clamp(n, 1, s.reg.bot - s.cur.y + 1), S.BlankLine(s));
            && S.InsertLines(s, n) == S.WithBuf(s, S.ShiftDown(g, lo, hi, k, line))
            && S.DeleteLines(s, n) == S.WithBuf(s, S.ShiftUp(g, lo, hi, k, line))
  {
    S.Bounds(s);
    hide S.ShiftUp, S.ShiftDown, GridOk, S.BlankLine, S.WithBuf;
  }

  /** The rows of L and M are the cells described. */
  lemma LineCells(s: S.Scr, n: nat, y: nat, x: nat)
    requires S.Ok(s) && n >= 1 && y < s.rows && x < s.cols && InRegion(s, s.cur.y)
    ensures |S.Buf(s)| == s.rows && s.reg.bot < s.rows
    ensures var (g, lo, hi, k, line) :=
              (S.Buf(s), s.cur.y, s.reg.bot, Clamp(n, 1, s.reg.bot - s.cur.y + 1), S.BlankLine(s));
            && |DownRow(g, lo, hi, k, line, y)| == |UpRow(g, lo, hi, k, line, y)| == s.cols
            && DownRow(g, lo, hi, k, line, y)[x] == EditedCell(s, 76, n, y, x)
            && UpRow(g, lo, hi, k, line, y)[x] == EditedCell(s, 77, n, y, x)
  {
    Active(s);
    hide S.Ok, S.Buf, S.BlankLine;
  }

  lemma LineEdits(s: S.Scr, n: nat, y: nat, x: nat)
    requires S.Ok(s) && n >= 1 && y < s.rows && x < s.cols
    ensures OnlyGrid(s, S.InsertLines(s, n)) && S.Buf(S.InsertLines(s, n))[y][x] == EditedCell(s, 76, n, y, x)
    ensures OnlyGrid(s, S.DeleteLines(s, n)) && S.Buf(S.DeleteLines(s, n))[y][x] == EditedCell(s, 77, n, y, x)
  {
    if InRegion(s, s.cur.y) {
      var (g, lo, hi, k, line) :=
        (S.Buf(s), s.cur.y, s.reg.bot, Clamp(n, 1, s.reg.bot - s.cur.y + 1), S.BlankLine(s));
      Active(s);
      hide S.Ok, S.Buf, S.BlankLine, S.WithBuf, S.InsertLines, S.DeleteLines, EditedCell, S.ShiftUp, S.ShiftDown,
           UpRow, DownRow, OnlyGrid, GridOk;
      LinesAre(s, n);
      LineCells(s, n, y, x);
      RowsMove(g, lo, hi, k, line, s.cols);
      WithGrid(s, S.ShiftUp(g, lo, hi, k, line));
      WithGrid(s, S.ShiftDown(g, lo, hi, k, line));
    } else {
      Outside(s, n, y, x);
    }
  }

  lemma Outside(s: S.Scr, n: nat, y: nat, x: nat)
    requires S.Ok(s) && y < s.rows && x < s.cols && !InRegion(s, s.cur.y)
    ensures S.InsertLines(s, n) == s && S.DeleteLines(s, n) == s && OnlyGrid(s, s)
    ensures S.Buf(s)[y][x] == EditedCell(s, 76, n, y, x) == EditedCell(s, 77, n, y, x)
  {
  }

  /** What a scroll up of the region puts into history: the rows that leave, if the region starts at
      the top of the primary screen. */
  function Leaving(s: S.Scr, n: nat): Grid
    requires S.Ok(s)
  {
    if s.bufs.inAlt || s.reg.top != 0 then [] else s.bufs.primary[..Min(n, s.reg.bot + 1)]
  }

  /** The history grown by some lines. */
  function Grown(s: S.Scr, lines: Grid): S.Scr {
    s.(hist := S.History(s.hist.log + lines, s.hist.since + |lines|, s.hist.cap))
  }

  lemma ScrollsAre(s: S.Scr, n: nat)
    requires S.Ok(s)
    ensures |S.Buf(s)| == s.rows && s.reg.top <= s.reg.bot < s.rows
    ensures var (g, lo, hi, k, line) :=
              (S.Buf(s), s.reg.top, s.reg.bot, Min(n, s.reg.bot - s.reg.top + 1), S.BlankLine(s));
            && S.ScrollUp(s, n) == S.WithBuf(Grown(s, Leaving(s, n)), S.ShiftUp(g, lo, hi, k, line))
            && S.ScrollDown(s, n) == S.WithBuf(s, S.ShiftDown(g, lo, hi, k, line))
  {
    S.Bounds(s);
    hide S.ShiftUp, S.ShiftDown, GridOk, S.BlankLine, S.WithBuf;
    assert s.hist.log + [] == s.hist.log;
  }

  lemma ScrollCells(s: S.Scr, n: nat, y: nat, x: nat)
    requires S.Ok(s) && y < s.rows && x < s.cols
    ensures |S.Buf(s)| == s.rows && s.reg.top <= s.reg.bot < s.rows
    ensures var (g, lo, hi, k, line) :=
              (S.Buf(s), s.reg.top, s.reg.bot, Min(n, s.reg.bot - s.reg.top + 1), S.BlankLine(s));
            && |DownRow(g, lo, hi, k, line, y)| == |UpRow(g, lo, hi, k, line, y)| == s.cols
            && UpRow(g, lo, hi, k, line, y)[x] == EditedCell(s, 83, n, y, x)
            && DownRow(g, lo, hi, k, line, y)[x] == EditedCell(s, 84, n, y, x)
  {
    Active(s);
    hide S.Ok, S.Buf, S.BlankLine;
  }

  lemma ScrollEdits(s: S.Scr, n: nat, y: nat, x: nat)
    requires S.Ok(s) && y < s.rows && x < s.cols
    ensures var r := S.ScrollUp(s, n);
            OnlyGrid(Grown(s, Leaving(s, n)), r) && S.Buf(r)[y][x] == EditedCell(s, 83, n, y, x)
    ensures OnlyGrid(s, S.ScrollDown(s, n)) && S.Buf(S.ScrollDown(s, n))[y][x] == EditedCell(s, 84, n, y, x)
  {
    var (g, lo, hi, k, line) :=
      (S.Buf(s), s.reg.top, s.reg.bot, Min(n, s.reg.bot - s.reg.top + 1), S.BlankLine(s));
    Active(s);
    hide S.Ok, S.Buf, S.BlankLine, S.WithBuf, S.ScrollUp, S.ScrollDown, EditedCell, S.ShiftUp, S.ShiftDown,
         UpRow, DownRow, OnlyGrid, GridOk, Leaving;
    ScrollsAre(s, n);
    ScrollCells(s, n, y, x);
    RowsMove(g, lo, hi, k, line, s.cols);
    WithGrid(Grown(s, Leaving(s, n)), S.ShiftUp(g, lo, hi, k, line));
    WithGrid(s, S.ShiftDown(g, lo, hi, k, line));
  }

  predicate Edits(f: byte) { f == 64 || f == 80 || f == 88 || f == 76 || f == 77 || f == 83 || f == 84 }

  lemma ToEditOp(s: S.Scr, vals: seq<nat>, colons: seq<bool>, f: byte)
    requires S.Ok(s) && ListOk(vals, colons) && Edits(f)
    ensures var (c, n) := (Given(vals, colons), Count(vals, 0));
            && CsiOk(c) && 1 <= n < 0x8000_0000
            && Dispatch(c, s, f).0 ==
                 if f == 64 then S.InsertChars(s, n) else if f == 80 then S.DeleteChars(s, n)
                 else if f == 88 then S.EraseChars(s, n) else if f == 76 then S.InsertLines(s, n)
                 else if f == 77 then S.DeleteLines(s, n) else if f == 83 then S.ScrollUp(s, n)
                 else S.ScrollDown(s, n)
  {
    Args(vals, colons, 0);
    hide S.Ok, Arg, AsWord, CsiOk, S.InsertChars, S.DeleteChars, S.EraseChars, S.InsertLines, S.DeleteLines,
         S.ScrollUp, S.ScrollDown;
  }

  /** CSI n and one of @ P X L M S T: every cell of the active grid comes from where it should, S from
      the top of the primary screen puts the rows that leave into history, and nothing else changes,
      not even the cursor. */
  lemma EditsExactly(v: Vt, vals: seq<nat>, colons: seq<bool>, f: byte, y: nat, x: nat)
    requires Ok(v) && v.p.st == Ground && ListOk(vals, colons) && Edits(f) && y < v.s.rows && x < v.s.cols
    ensures var (r, n) := (Run(v, Sequence(vals, colons, f)).s, Count(vals, 0));
            && OnlyGrid(if f == 83 then Grown(v.s, Leaving(v.s, n)) else v.s, r)
            && S.Buf(r)[y][x] == EditedCell(v.s, f, n, y, x)
  {
    var n := Count(vals, 0);
    hide S.Ok, POk, Dispatch, Run, Rendered, Arg, EditedCell, OnlyGrid, Grown, Leaving, S.Buf, CsiOk, S.InsertChars,
         S.DeleteChars, S.EraseChars, S.InsertLines, S.DeleteLines, S.ScrollUp, S.ScrollDown, Count;
    ParamsArrive(v, vals, colons, f);
    ToEditOp(v.s, vals, colons, f);
    RowEdits(v.s, n, y, x);
    EraseEdits(v.s, n, y, x);
    LineEdits(v.s, n, y, x);
    ScrollEdits(v.s, n, y, x);
  }

  // ---- erasing in the display and in the row ---------------------------------------------------------

  lemma ToErase(s: S.Scr, vals: seq<nat>, colons: seq<bool>)
    requires S.Ok(s) && ListOk(vals, colons)
    ensures var c := Given(vals, colons);
            && CsiOk(c) && Dispatch(c, s, 74).0 == S.EraseInDisplay(s, Number(vals, 0))
            && Dispatch(c, s, 75).0 == S.EraseInLine(s, Number(vals, 0))
  {
    Args(vals, colons, 0);
    hide S.Ok, Arg, AsWord, CsiOk, S.EraseInDisplay, S.EraseInLine;
  }

  /** CSI n J blanks what comes at or after the cursor (0), at or before it (1) or everything (2), and
      with 3 clears history and prompt marks; CSI n K the same within the cursor's row. A pending wrap
      ends, and nothing else changes. */
  lemma ErasesExactly(v: Vt, vals: seq<nat>, colons: seq<bool>, y: nat, x: nat)
    requires Ok(v) && v.p.st == Ground && ListOk(vals, colons) && y < v.s.rows && x < v.s.cols
    ensures var (r, n) := (Run(v, Sequence(vals, colons, 74)).s, Number(vals, 0));
            var ended := v.s.(cur := v.s.cur.(wrap := false));
            && OnlyGrid(if n == 3 then ended.(hist := v.s.hist.(since := 0), prompts := []) else ended, r)
            && S.Buf(r)[y][x] == if E.Covered(n, y, x, v.s.cur) then BlankCell(v.s.pen.bg) else S.Buf(v.s)[y][x]
    ensures var (r, n) := (Run(v, Sequence(vals, colons, 75)).s, Number(vals, 0));
            && OnlyGrid(v.s.(cur := v.s.cur.(wrap := false)), r)
            && S.Buf(r)[y][x] ==
                 if y == v.s.cur.y && E.Covered(n, y, x, v.s.cur) then BlankCell(v.s.pen.bg) else S.Buf(v.s)[y][x]
  {
    var n := Number(vals, 0);
    DisplayKeepsRest(v.s, n);
    RowKeepsRest(v.s, n);
    hide S.Ok, POk, Dispatch, Run, Rendered, Arg, OnlyGrid, S.Buf, CsiOk, S.EraseInDisplay, S.EraseInLine, Number;
    ParamsArrive(v, vals, colons, 74);
    ParamsArrive(v, vals, colons, 75);
    ToErase(v.s, vals, colons);
    E.EraseDisplayExactly(v.s, n, y, x);
    E.EraseLineExactly(v.s, n, y, x);
  }

  lemma RowKeepsRest(s: S.Scr, n: int)
    requires S.Ok(s)
    ensures OnlyGrid(s.(cur := s.cur.(wrap := false)), S.EraseInLine(s, n))
  {
  }

  lemma WipeKeepsRest(s: S.Scr, lo: nat, hi: nat)
    requires S.Ok(s) && lo <= hi <= s.rows
    ensures OnlyGrid(s, S.WipeRows(s, lo, hi))
  {
  }

  lemma OnlyGridTwice(s: S.Scr, m: S.Scr, r: S.Scr)
    requires OnlyGrid(s, m) && OnlyGrid(m, r)
    ensures OnlyGrid(s, r)
  {
  }

  lemma DisplayKeepsRest(s: S.Scr, n: int)
    requires S.Ok(s)
    ensures var ended := s.(cur := s.cur.(wrap := false));
            OnlyGrid(if n == 3 then ended.(hist := s.hist.(since := 0), prompts := []) else ended,
                     S.EraseInDisplay(s, n))
  {
    S.Bounds(s);
    E.DisplayKept(s, n);
    RowKeepsRest(s, 0);
    E.EraseLineKeeps(s, 0);
    WipeKeepsRest(S.EraseInLine(s, 0), s.cur.y + 1, s.rows);
    WipeKeepsRest(s, 0, s.cur.y);
    E.WipeRowsKeeps(s, 0, s.cur.y);
    RowKeepsRest(S.WipeRows(s, 0, s.cur.y), 1);
    WipeKeepsRest(s, 0, s.rows);
    hide S.EraseInLine, S.WipeRows, GridOk;
  }

  // ---- line feeds -----------------------------------------------------------------------------------------

  /** One line down: at the bottom of the region it scrolls, elsewhere the cursor moves, except in the
      last row below the region. */
  lemma DownExactly(s: S.Scr, y: nat, x: nat)
    requires S.Ok(s) && y < s.rows && x < s.cols
    ensures var r := S.Index(s);
            var down := if s.cur.y == s.reg.bot then s.cur.y else Min(s.cur.y + 1, s.rows - 1);
            var at := s.(cur := S.Cursor(s.cur.x, down, false));
            if s.cur.y == s.reg.bot then
              OnlyGrid(Grown(at, Leaving(s, 1)), r) && S.Buf(r)[y][x] == EditedCell(s, 83, 1, y, x)
            else r == at
  {
    IndexIs(s);
    var m := S.MoveTo(s, s.cur.x, s.cur.y);
    if s.cur.y == s.reg.bot {
      ScrollEdits(m, 1, y, x);
      MovedCells(s, m, 1, y, x);
    }
    hide S.ScrollUp, S.Index, GridOk, OnlyGrid, EditedCell, Leaving;
  }

  /** One line up: at the top of the region it scrolls, elsewhere the cursor moves, except in the first
      row above the region. */
  lemma UpExactly(s: S.Scr, y: nat, x: nat)
    requires S.Ok(s) && y < s.rows && x < s.cols
    ensures var r := S.ReverseIndex(s);
            var up := if s.cur.y == s.reg.top then s.cur.y else Max(s.cur.y - 1, 0);
            var at := s.(cur := S.Cursor(s.cur.x, up, false));
            if s.cur.y == s.reg.top then OnlyGrid(at, r) && S.Buf(r)[y][x] == EditedCell(s, 84, 1, y, x) else r == at
  {
    ReverseIs(s);
    var m := S.MoveTo(s, s.cur.x, s.cur.y);
    if s.cur.y == s.reg.top {
      ScrollEdits(m, 1, y, x);
      MovedCells(s, m, 1, y, x);
    }
    hide S.ScrollDown, S.ReverseIndex, GridOk, OnlyGrid, EditedCell;
  }

  lemma ReverseIs(s: S.Scr)
    requires S.Ok(s)
    ensures var m := S.MoveTo(s, s.cur.x, s.cur.y);
            && S.Ok(m)
            && S.ReverseIndex(s) ==
                 if s.cur.y == s.reg.top then S.ScrollDown(m, 1)
                 else s.(cur := S.Cursor(s.cur.x, Max(s.cur.y - 1, 0), false))
  {
    hide S.ScrollDown, GridOk;
  }

  lemma IndexIs(s: S.Scr)
    requires S.Ok(s)
    ensures var m := S.MoveTo(s, s.cur.x, s.cur.y);
            && S.Ok(m)
            && S.Index(s) ==
                 if s.cur.y == s.reg.bot then S.ScrollUp(m, 1)
                 else s.(cur := S.Cursor(s.cur.x, Min(s.cur.y + 1, s.rows - 1), false))
  {
    hide S.ScrollUp, GridOk;
  }

  /** A cursor that only loses its pending wrap does not matter to what scrolls. */
  lemma MovedCells(s: S.Scr, m: S.Scr, n: nat, y: nat, x: nat)
    requires S.Ok(s) && S.Ok(m) && m == s.(cur := m.cur) && m.cur.x == s.cur.x && m.cur.y == s.cur.y
    requires y < s.rows && x < s.cols
    ensures EditedCell(m, 83, n, y, x) == EditedCell(s, 83, n, y, x)
    ensures EditedCell(m, 84, n, y, x) == EditedCell(s, 84, n, y, x)
    ensures Leaving(m, n) == Leaving(s, n)
  {
  }

  /** LF, VT, FF and ESC D go one line down, ESC M one up, and ESC E to the start of the next line. */
  lemma LineFeeds(v: Vt, b: byte)
    requires Ok(v) && v.p.st == Ground && 10 <= b <= 12
    ensures Run(v, [b]).s == S.Index(v.s) && Run(v, [ESC, 68]).s == S.Index(v.s)
    ensures Run(v, [ESC, 77]).s == S.ReverseIndex(v.s)
    ensures S.Ok(v.s.(cur := S.Cursor(0, v.s.cur.y, false)))
    ensures Run(v, [ESC, 69]).s == S.Index(v.s.(cur := S.Cursor(0, v.s.cur.y, false)))
  {
    ByteRead(v, b);
    EscapeRead(v, 68);
    EscapeRead(v, 77);
    EscapeRead(v, 69);
    FeedOps(v.s);
    FeedByte(WithUtf(v, v.p.utf.cp, 0), b);
    hide *;
  }

  lemma FeedByte(v: Vt, b: byte)
    requires Ok(v) && v.p.utf.need == 0 && 10 <= b <= 12
    ensures C0(v, b).s == S.Index(v.s)
  {
    hide S.Ok, S.Index;
  }

  lemma FeedOps(s: S.Scr)
    requires S.Ok(s)
    ensures EscapeOp(s, 68) == S.Index(s) && EscapeOp(s, 77) == S.ReverseIndex(s)
    ensures S.Ok(s.(cur := S.Cursor(0, s.cur.y, false)))
    ensures EscapeOp(s, 69) == S.Index(s.(cur := S.Cursor(0, s.cur.y, false)))
  {
    hide S.Index, S.ReverseIndex;
  }
}
