/** What a new screen is, and what changing its size does to each cell, the cursor and history. */
module Sizes {
  import opened Cells
  import opened ScreenModel

  /** A new screen: blank, cursor at home, everything at its default, a tab stop every 8 columns. */
  lemma FreshExactly(cols: nat, rows: nat, cap: nat)
    requires cols <= MAX_DIM && rows <= MAX_DIM
    ensures var s := Fresh(cols, rows, cap);
            && s.cols == Max(cols, 1) && s.rows == Max(rows, 1) && !s.bufs.inAlt
            && (forall y, x :: 0 <= y < s.rows && 0 <= x < s.cols ==> Buf(s)[y][x] == Cell(0, Pen(-1, -1, {}), 1, 0))
            && s.cur == Cursor(0, 0, false) && s.pen == Pen(-1, -1, {}) && s.reg == Region(0, s.rows - 1)
            && s.modes == Modes(true, false, true, false, false, false, false, MouseNone, false)
            && s.saved == Saved(0, 0, Pen(-1, -1, {}), false)
            && (forall x :: 0 <= x < s.cols ==> (s.tabs[x] <==> x % 8 == 0))
            && s.hist == History([], 0, Max(cap, 1)) && s.pool == [] && s.prompts == []
  {
  }

  /** A new size keeps the top left part of both grids, blanks what is new, pulls the cursor inside,
      and makes the region whole and the tab stops initial; everything else stays. */
  lemma ResizeExactly(s: Scr, cols: nat, rows: nat, y: nat, x: nat)
    requires Ok(s) && cols <= MAX_DIM && rows <= MAX_DIM && y < Max(rows, 1) && x < Max(cols, 1)
    ensures var (r, inside) := (Resize(s, cols, rows), y < s.rows && x < s.cols);
            && r.cols == Max(cols, 1) && r.rows == Max(rows, 1)
            && r.bufs.primary[y][x] == (if inside then s.bufs.primary[y][x] else Cell(0, Pen(-1, -1, {}), 1, 0))
            && r.bufs.alt[y][x] == (if inside then s.bufs.alt[y][x] else Cell(0, Pen(-1, -1, {}), 1, 0))
            && r.cur == Cursor(Min(s.cur.x, r.cols - 1), Min(s.cur.y, r.rows - 1), false)
            && r.reg == Region(0, r.rows - 1) && r.tabs[x] == (x % 8 == 0)
            && r == s.(cols := r.cols, rows := r.rows, bufs := Bufs(s.bufs.inAlt, r.bufs.primary, r.bufs.alt),
                       cur := r.cur, reg := r.reg, tabs := r.tabs)
  {
    var r := Resize(s, cols, rows);
    assert r.bufs.primary[y] == RebuildLine(s.bufs.primary, s.cols, r.cols, y);
    assert r.bufs.alt[y] == RebuildLine(s.bufs.alt, s.cols, r.cols, y);
  }

  /** A size no smaller, and then the old one again, gives every cell back. */
  lemma GrowAndShrink(s: Scr, cols: nat, rows: nat, y: nat, x: nat)
    requires Ok(s) && s.cols <= cols <= MAX_DIM && s.rows <= rows <= MAX_DIM && y < s.rows && x < s.cols
    ensures var r := Resize(Resize(s, cols, rows), s.cols, s.rows);
            && r.bufs.primary[y][x] == s.bufs.primary[y][x] && r.bufs.alt[y][x] == s.bufs.alt[y][x]
            && r.hist == s.hist && r.cur.x == s.cur.x && r.cur.y == s.cur.y
  {
    ResizeExactly(s, cols, rows, y, x);
    ResizeExactly(Resize(s, cols, rows), s.cols, s.rows, y, x);
    hide Resize;
  }

  // ---- prompt marks seen from the screen ---------------------------------------------------------

  /** A mark shows when its line is kept or on the grid, at the row that line has; and only marks do. */
  lemma {:induction false} MarksShown(ps: seq<Prompt>, base: int, limit: int, row: int, exit: Option<int>)
    ensures (row, exit) in PromptMarksIn(ps, base, limit) <==>
      0 <= row < limit && exists i :: 0 <= i < |ps| && ps[i].line == base + row && ps[i].exit == exit
  {
    if ps != [] {
      var n := |ps| - 1;
      MarksShown(ps[..n], base, limit, row, exit);
      assert forall i :: 0 <= i < n ==> ps[..n][i] == ps[i];
      var last: seq<(int, Option<int>)> :=
        if 0 <= ps[n].line - base < limit then [(ps[n].line - base, ps[n].exit)] else [];
      assert PromptMarksIn(ps, base, limit) == PromptMarksIn(ps[..n], base, limit) + last;
      assert (row, exit) in last <==> 0 <= row < limit && ps[n].line == base + row && ps[n].exit == exit;
    }
  }

  /** The marks a screen reports: the row counts from the oldest line kept. */
  lemma MarksReported(s: Scr, row: int, exit: Option<int>)
    requires Ok(s)
    ensures (row, exit) in PromptMarks(s) <==>
      && 0 <= row < Kept(s) + s.rows
      && (exists i :: 0 <= i < |s.prompts|
                      && s.prompts[i].line == |s.hist.log| - Kept(s) + row && s.prompts[i].exit == exit)
  {
    MarksShown(s.prompts, |s.hist.log| - Kept(s), Kept(s) + s.rows, row, exit);
    hide GridOk;
  }

  /** Of a list of marks those on lines from `oldest` on are kept, and no others. */
  lemma {:induction false} MarksKept(ps: seq<Prompt>, oldest: nat, p: Prompt)
    ensures p in PromptsFrom(ps, oldest) <==> p in ps && p.line >= oldest
  {
    if ps != [] {
      MarksKept(ps[1..], oldest, p);
      assert p in ps <==> p == ps[0] || p in ps[1..];
    }
  }
}
