/** Where text of narrow and wide glyphs lands on a fresh screen: each glyph behind the ones before
    it on its line, a wide one never split by the edge, and nothing anywhere else. */
module WideText {
  import opened Cells
  import opened Text
  import opened ScreenModel
  import opened Glyphs
  import T = Typing
  import M = ParserModel
  import Sequences

  // ---- where each glyph goes ------------------------------------------------------------------

  /** A place on the lines ever shown: a line, and a column of it; past the last column, nothing
      more fits. */
  datatype Spot = Spot(line: nat, col: nat)

  /** Where a glyph of width w goes when the text so far ends at `at`. */
  function Fit(at: Spot, w: nat, cols: nat): Spot {
    var a := if at.col >= cols then Spot(at.line + 1, 0) else at;
    if w == 2 && a.col + 1 == cols then Spot(a.line + 1, 0) else a
  }

  /** Where the text ends. */
  function End(t: Str, cols: nat): Spot {
    if t == [] then Spot(0, 0)
    else
      var w := WidthOf(t[|t| - 1]);
      var a := Fit(End(t[..|t| - 1], cols), w, cols);
      Spot(a.line, a.col + w)
  }

  /** Where glyph i of the text goes. */
  function At(t: Str, cols: nat, i: nat): Spot
    requires i < |t|
  {
    Fit(End(t[..i], cols), WidthOf(t[i]), cols)
  }

  /** The widths of the first n glyphs that are on a line, together. */
  function WidthsOn(t: Str, cols: nat, n: nat, line: nat): nat
    requires n <= |t|
  {
    if n == 0 then 0
    else WidthsOn(t, cols, n - 1, line) + (if At(t, cols, n - 1).line == line then WidthOf(t[n - 1]) else 0)
  }

  lemma AtPrefix(t: Str, cols: nat, n: nat, i: nat)
    requires i < n <= |t|
    ensures At(t[..n], cols, i) == At(t, cols, i)
  {
    assert t[..n][..i] == t[..i];
  }

  lemma {:induction false} EndIsLast(t: Str, cols: nat, n: nat)
    requires n <= |t|
    ensures End(t[..n], cols).col == WidthsOn(t, cols, n, End(t[..n], cols).line)
    ensures forall line :: line > End(t[..n], cols).line ==> WidthsOn(t, cols, n, line) == 0
  {
    if n > 0 {
      EndIsLast(t, cols, n - 1);
      assert t[..n][..n - 1] == t[..n - 1] && t[..n][n - 1] == t[n - 1];
    }
  }

  /** A glyph's column is the sum of the widths before it on its line. */
  lemma ColumnIsSum(t: Str, cols: nat, i: nat)
    requires i < |t|
    ensures At(t, cols, i).col == WidthsOn(t, cols, i, At(t, cols, i).line)
  {
    EndIsLast(t, cols, i);
  }

  // ---- the rows that text makes ------------------------------------------------------------------

  predicate Visible(t: Str) { forall i :: 0 <= i < |t| ==> WidthOf(t[i]) >= 1 }

  const TRAIL: Cell := Cell(0, DEFAULT_PEN, 0, 0)

  function Lead(cp: nat): Cell { Cell(cp, DEFAULT_PEN, WidthOf(cp), 0) }

  /** The cells of one glyph. */
  function CellsOf(cp: nat, cols: nat): Line {
    if WidthOf(cp) == 2 && cols >= 2 then [Lead(cp), TRAIL] else [Lead(cp)]
  }

  /** A line begun, padded with blanks. */
  function Padded(row: Line, cols: nat): (r: Line)
    requires |row| <= cols
    ensures |r| == cols && forall c :: 0 <= c < cols ==> r[c] == if c < |row| then row[c] else PLAIN_BLANK
  {
    row + Rep(cols - |row|, PLAIN_BLANK)
  }

  predicate RowsOk(rows: seq<Line>, cols: nat) {
    |rows| >= 1 && forall k :: 0 <= k < |rows| ==> |rows[k]| <= cols
  }

  function Last(rows: seq<Line>): Line
    requires rows != []
  {
    rows[|rows| - 1]
  }

  /** A new line where the glyph does not fit on the last one. */
  function Opened(rows: seq<Line>, w: nat, cols: nat): (r: seq<Line>)
    requires rows != []
    ensures r != []
  {
    var a := if |Last(rows)| == cols then rows + [[]] else rows;
    if w == 2 && |Last(a)| + 1 == cols then a + [[]] else a
  }

  function Extended(rows: seq<Line>, cells: Line): (r: seq<Line>)
    requires rows != []
    ensures r != []
  {
    rows[|rows| - 1 := Last(rows) + cells]
  }

  function RowsOf(t: Str, cols: nat): (r: seq<Line>)
    ensures r != []
  {
    if t == [] then [[]]
    else
      var cp := t[|t| - 1];
      Extended(Opened(RowsOf(t[..|t| - 1], cols), WidthOf(cp), cols), CellsOf(cp, cols))
  }

  predicate Shows(g: Grid, rows: seq<Line>, cols: nat)
    requires RowsOk(rows, cols)
  {
    forall k :: 0 <= k < |g| ==> g[k] == Padded(if k < |rows| then rows[k] else [], cols)
  }

  /** The screen shows exactly these rows, and the cursor sits after the last of them. */
  predicate Laid(s: Scr, rows: seq<Line>) {
    && Ok(s) && RowsOk(rows, s.cols)
    && !s.bufs.inAlt && s.reg == Region(0, s.rows - 1) && s.modes == DEFAULT_MODES && s.pen == DEFAULT_PEN
    && s.hist.since == |s.hist.log|
    && |s.hist.log| + s.cur.y == |rows| - 1
    && (s.hist.log != [] ==> s.cur.y == s.rows - 1)
    && s.cur.x == Min(|Last(rows)|, s.cols - 1) && s.cur.wrap == (|Last(rows)| == s.cols)
    && Shows(T.Global(s), rows, s.cols)
  }

  predicate SameFrame(s: Scr, r: Scr) { r.cols == s.cols && r.rows == s.rows && r.hist.cap == s.hist.cap }

  lemma Facts(s: Scr, rows: seq<Line>)
    requires Laid(s, rows)
    ensures Ok(s) && RowsOk(rows, s.cols) && !s.bufs.inAlt && s.pen == DEFAULT_PEN && s.modes == DEFAULT_MODES
    ensures s.cur.wrap == (|Last(rows)| == s.cols) && s.cur.x == Min(|Last(rows)|, s.cols - 1)
    ensures |rows| <= |T.Global(s)| == |s.hist.log| + s.rows && |s.hist.log| == Max(|rows| - s.rows, 0)
    ensures |s.hist.log| + s.cur.y == |rows| - 1
  {
  }

  // ---- printing keeps the rows laid ------------------------------------------------------------------

  /** A line feed opens one more row. */
  lemma OneMoreRow(s: Scr, rows: seq<Line>)
    requires Laid(s, rows)
    ensures var r := NextLine(s); Laid(r, rows + [[]]) && SameFrame(s, r)
  {
    var m := MoveTo(s, 0, s.cur.y);
    var r := NextLine(s);
    if s.cur.y == s.rows - 1 {
      T.ScrolledGlobal(m);
      assert T.Global(r) == T.Global(s) + [BlankLine(s)];
    } else {
      assert T.Global(r) == T.Global(s);
    }
    hide ScrollUp;
    assert BlankLine(s) == Padded([], s.cols);
    MoreBlank(T.Global(s), T.Global(r), rows, s.cols);
    assert Last(rows + [[]]) == [];
  }

  lemma MoreBlank(g: Grid, r: Grid, rows: seq<Line>, cols: nat)
    requires RowsOk(rows, cols) && Shows(g, rows, cols)
    requires |rows| <= |g| && (r == g || r == g + [Padded([], cols)])
    ensures RowsOk(rows + [[]], cols) && Shows(r, rows + [[]], cols)
  {
    var more := rows + [[]];
    assert RowsOk(more, cols);
    forall k | 0 <= k < |r| ensures r[k] == Padded(if k < |more| then more[k] else [], cols) {
      if k < |g| { assert g[k] == Padded(if k < |rows| then rows[k] else [], cols); }
    }
  }

  lemma GlyphExtends(row: Line, s: Scr, cp: nat, r: Line)
    requires 1 <= WidthOf(cp) <= 2 && s.pen == DEFAULT_PEN && !s.modes.insert
    requires |row| < s.cols && s.cur.x == |row| && (WidthOf(cp) == 2 && s.cols >= 2 ==> |row| + 1 < s.cols)
    requires |r| == s.cols
    requires var was := Padded(row, s.cols);
             forall u :: 0 <= u < s.cols ==> r[u] == PrintedCell(s, cp, WidthOf(cp), was, u)
    ensures |row + CellsOf(cp, s.cols)| <= s.cols && r == Padded(row + CellsOf(cp, s.cols), s.cols)
  {
    var now := Padded(row + CellsOf(cp, s.cols), s.cols);
    forall u | 0 <= u < s.cols ensures r[u] == now[u] {
      assert r[u] == PrintedCell(s, cp, WidthOf(cp), Padded(row, s.cols), u);
    }
    assert r == now;
  }

  lemma ShowsExtended(g: Grid, rows: seq<Line>, cells: Line, cols: nat)
    requires RowsOk(rows, cols) && Shows(g, rows, cols) && |rows| <= |g| && |Last(rows) + cells| <= cols
    ensures var (h, more) := (g[|rows| - 1 := Padded(Last(rows) + cells, cols)], Extended(rows, cells));
            RowsOk(more, cols) && Shows(h, more, cols) && Last(more) == Last(rows) + cells && |more| == |rows|
  {
    var (h, more) := (g[|rows| - 1 := Padded(Last(rows) + cells, cols)], Extended(rows, cells));
    assert forall k :: 0 <= k < |rows| ==> more[k] == if k == |rows| - 1 then Last(rows) + cells else rows[k];
    forall k | 0 <= k < |h| ensures h[k] == Padded(if k < |more| then more[k] else [], cols) {
      assert k != |rows| - 1 ==> g[k] == Padded(if k < |rows| then rows[k] else [], cols);
    }
  }

  /** The grid after a glyph that fits, and the rest of the frame. */
  lemma GlyphPlaced(s: Scr, rows: seq<Line>, cp: nat)
    requires Laid(s, rows) && WidthOf(cp) >= 1 && Stays(s, WidthOf(cp))
    ensures var (r, n, row) := (PutRune(s, cp), |rows| - 1, Last(rows) + CellsOf(cp, s.cols));
            && |row| <= s.cols && T.Global(r) == T.Global(s)[n := Padded(row, s.cols)]
            && Ok(r) && r == s.(bufs := r.bufs, cur := r.cur, base := r.base) && !r.bufs.inAlt
            && r.cur == Cursor(Min(|row|, s.cols - 1), s.cur.y, |row| == s.cols)
  {
    PrintedExactly(s, cp);
    var r := PutRune(s, cp);
    var n, y := |rows| - 1, s.cur.y;
    var g := T.Global(s);
    assert g[n] == Buf(s)[y] && g[n] == Padded(rows[n], s.cols);
    GlyphExtends(rows[n], s, cp, Buf(r)[y]);
    assert T.Global(r) == g[n := Buf(r)[y]];
    CellCount(cp, s.cols);
    hide PutRune, CellsOf, PrintedCell, Padded, GridOk;
  }

  /** A glyph that fits joins the last row. */
  lemma GlyphInRow(s: Scr, rows: seq<Line>, cp: nat)
    requires Laid(s, rows) && WidthOf(cp) >= 1 && Stays(s, WidthOf(cp))
    ensures var r := PutRune(s, cp); Laid(r, Extended(rows, CellsOf(cp, s.cols))) && SameFrame(s, r)
  {
    GlyphPlaced(s, rows, cp);
    ShowsExtended(T.Global(s), rows, CellsOf(cp, s.cols), s.cols);
    hide PutRune, CellsOf, Padded, Shows, RowsOk, Extended, T.Global, GridOk, Ok, Stays;
  }

  lemma CellCount(cp: nat, cols: nat)
    ensures |CellsOf(cp, cols)| == if WidthOf(cp) == 2 && cols >= 2 then 2 else 1
  {
  }

  /** Printing one glyph opens the rows it needs and joins the last. */
  lemma GlyphLaid(s: Scr, rows: seq<Line>, cp: nat)
    requires Laid(s, rows) && WidthOf(cp) >= 1
    ensures var r := PutRune(s, cp);
            Laid(r, Extended(Opened(rows, WidthOf(cp), s.cols), CellsOf(cp, s.cols))) && SameFrame(s, r)
  {
    hide PutRune, Laid, NextLine, Extended, CellsOf;
    Facts(s, rows);
    var w := WidthOf(cp);
    if Stays(s, w) {
      GlyphInRow(s, rows, cp);
    } else {
      OneMoreRow(s, rows);
      var m := NextLine(s);
      Facts(m, rows + [[]]);
      assert Last(rows + [[]]) == [];
      if w == 2 && s.cols == 1 {
        NarrowWide(s, rows, cp);
      } else {
        WrapsFirst(s, cp);
        GlyphInRow(m, rows + [[]], cp);
      }
    }
  }

  /** On one column a wide glyph opens a row even on an empty one. */
  lemma NarrowWide(s: Scr, rows: seq<Line>, cp: nat)
    requires Laid(s, rows) && WidthOf(cp) == 2 && s.cols == 1
    ensures var r := PutRune(s, cp);
            Laid(r, Extended(Opened(rows, 2, 1), CellsOf(cp, 1))) && SameFrame(s, r)
  {
    hide PutRune, Laid, NextLine, Extended;
    Facts(s, rows);
    var a := if s.cur.wrap then NextLine(s) else s;
    var more := if s.cur.wrap then rows + [[]] else rows;
    if s.cur.wrap {
      OneMoreRow(s, rows);
      assert Last(rows + [[]]) == [];
    }
    Facts(a, more);
    OneMoreRow(a, more);
    var b := NextLine(a);
    Facts(b, more + [[]]);
    assert Last(more + [[]]) == [] && Opened(rows, 2, 1) == more + [[]];
    OneColumn(s, a, cp);
    LoneLead(b, more + [[]], cp);
  }

  lemma OneColumn(s: Scr, a: Scr, cp: nat)
    requires Ok(s) && WidthOf(cp) == 2 && s.cols == 1 && s.modes.autoWrap
    requires a == (if s.cur.wrap then NextLine(s) else s) && !a.cur.wrap
    requires a.cols == 1 && a.modes == s.modes
    ensures PutRune(s, cp) == Place(NextLine(a), cp, 2)
  {
    assert Wrapped(s) == a;
    assert Index(MoveTo(a, 0, a.cur.y)) == NextLine(a);
    hide Place, AttachMark, Index, NextLine, GridOk, Wrapped;
  }

  lemma LoneLead(b: Scr, rows: seq<Line>, cp: nat)
    requires Laid(b, rows) && Last(rows) == [] && b.cols == 1 && WidthOf(cp) == 2
    ensures var r := Place(b, cp, 2); Laid(r, Extended(rows, CellsOf(cp, 1))) && SameFrame(b, r)
  {
    var r, n, y := Place(b, cp, 2), |rows| - 1, b.cur.y;
    var g := T.Global(b);
    assert g[n] == Buf(b)[y] && g[n] == Padded(rows[n], 1);
    assert PlacedRow(Buf(b)[y], 0, 2, false, cp, DEFAULT_PEN) == [Lead(cp)];
    assert Padded([Lead(cp)], 1) == [Lead(cp)];
    assert T.Global(r) == g[n := [Lead(cp)]];
    var more := Extended(rows, CellsOf(cp, 1));
    assert more[n] == [Lead(cp)];
    hide Place, PlacedRow, Lead;
    forall k | 0 <= k < |T.Global(r)| ensures T.Global(r)[k] == Padded(if k < |more| then more[k] else [], 1) {
      assert k != n ==> T.Global(r)[k] == g[k];
    }
  }

  function PutAll(s: Scr, t: Str): (r: Scr)
    requires Ok(s)
    ensures Ok(r)
  {
    if t == [] then s else PutRune(PutAll(s, t[..|t| - 1]), t[|t| - 1])
  }

  lemma {:induction false} TextLaid(s: Scr, t: Str)
    requires Laid(s, [[]]) && Visible(t)
    ensures Laid(PutAll(s, t), RowsOf(t, s.cols)) && SameFrame(s, PutAll(s, t))
  {
    if t != [] {
      TextLaid(s, t[..|t| - 1]);
      hide PutRune, Laid, Extended, Opened, CellsOf;
      assert WidthOf(t[|t| - 1]) >= 1;
      GlyphLaid(PutAll(s, t[..|t| - 1]), RowsOf(t[..|t| - 1], s.cols), t[|t| - 1]);
    }
  }

  lemma FreshLaid(cols: nat, rows: nat, cap: nat)
    requires 1 <= cols <= MAX_DIM && 1 <= rows <= MAX_DIM
    ensures var s := Fresh(cols, rows, cap); Laid(s, [[]]) && s.cols == cols && s.rows == rows
  {
    var s := Fresh(cols, rows, cap);
    forall k | 0 <= k < rows ensures s.bufs.primary[k] == Padded([], cols) {
      assert s.bufs.primary[k] == RebuildLine([], 0, cols, k);
    }
  }

  // ---- the rows and the spots ----------------------------------------------------------------------

  /** The rows end where the text ends. */
  predicate Level(rows: seq<Line>, at: Spot, cols: nat) {
    && RowsOk(rows, cols) && at.line == |rows| - 1
    && (at.col >= cols <==> |Last(rows)| == cols) && (at.col < cols ==> at.col == |Last(rows)|)
  }

  lemma OpenedLevel(rows: seq<Line>, at: Spot, w: nat, cols: nat)
    requires Level(rows, at, cols) && cols >= 1
    ensures var (r, a) := (Opened(rows, w, cols), Fit(at, w, cols));
            && Level(r, a, cols) && a.col < cols && |rows| <= |r|
            && (w == 2 && cols >= 2 ==> a.col + 1 < cols)
            && (forall k :: 0 <= k < |rows| ==> r[k] == rows[k]) && (forall k :: |rows| <= k < |r| ==> r[k] == [])
  {
  }

  /** Everything on the rows is a glyph's lead cell or the slot behind it. */
  ghost predicate Filled(rows: seq<Line>, t: Str, cols: nat) {
    && (forall i :: 0 <= i < |t| ==> Shown(rows, t, cols, i))
    && (forall k, c :: 0 <= k < |rows| && 0 <= c < |rows[k]| ==> Taken(t, cols, k, c))
  }

  /** Some glyph covers the cell. */
  ghost predicate Taken(t: Str, cols: nat, k: nat, c: nat) {
    exists i :: 0 <= i < |t| && Takes(t, cols, i, k, c)
  }

  /** Glyph i is on the rows, where it should be. */
  predicate Shown(rows: seq<Line>, t: Str, cols: nat, i: nat)
    requires i < |t|
  {
    var (a, cp) := (At(t, cols, i), t[i]);
    && a.line < |rows| && a.col < |rows[a.line]| && rows[a.line][a.col] == Lead(cp)
    && (WidthOf(cp) == 2 && cols >= 2 ==> a.col + 1 < |rows[a.line]| && rows[a.line][a.col + 1] == TRAIL)
  }

  /** Glyph i covers the cell at line k, column c. */
  predicate Takes(t: Str, cols: nat, i: nat, k: nat, c: nat)
    requires i < |t|
  {
    var a := At(t, cols, i);
    k == a.line && (c == a.col || (WidthOf(t[i]) == 2 && c == a.col + 1))
  }

  /** The rows after one more glyph: the old ones, empty ones, and the last with the glyph's cells. */
  lemma OneMoreGlyph(rows: seq<Line>, t: Str, cols: nat)
    requires t != [] && cols >= 1 && WidthOf(t[|t| - 1]) >= 1 && Level(rows, End(t[..|t| - 1], cols), cols)
    ensures var (n, cp) := (|t| - 1, t[|t| - 1]);
            var (r, a) := (Extended(Opened(rows, WidthOf(cp), cols), CellsOf(cp, cols)), At(t, cols, n));
            && Level(r, End(t, cols), cols) && a.line == |r| - 1 && |rows| <= |r| && a.col < cols
            && (forall k :: 0 <= k < |rows| - 1 ==> r[k] == rows[k])
            && (forall k :: |rows| <= k < |r| - 1 ==> r[k] == [])
            && (if a.line == |rows| - 1 then a.col == |rows[a.line]| && r[a.line] == rows[a.line] + CellsOf(cp, cols)
                else a.col == 0 && r[|rows| - 1] == rows[|rows| - 1] && r[a.line] == CellsOf(cp, cols))
  {
    var n := |t| - 1;
    var cp, at := t[n], End(t[..n], cols);
    OpenedLevel(rows, at, WidthOf(cp), cols);
    assert [] + CellsOf(cp, cols) == CellsOf(cp, cols);
    hide Fit, Opened;
  }

  lemma StillShown(rows: seq<Line>, t: Str, cols: nat, r: seq<Line>, i: nat)
    requires 0 <= i < |t| - 1 && Shown(rows, t[..|t| - 1], cols, i) && |rows| <= |r|
    requires forall k :: 0 <= k < |rows| ==> rows[k] <= r[k]
    ensures Shown(r, t, cols, i)
  {
    AtPrefix(t, cols, |t| - 1, i);
    hide At;
  }

  lemma StillTaken(t: Str, cols: nat, k: nat, c: nat)
    requires t != [] && Taken(t[..|t| - 1], cols, k, c)
    ensures Taken(t, cols, k, c)
  {
    var init := t[..|t| - 1];
    var i :| 0 <= i < |init| && Takes(init, cols, i, k, c);
    AtPrefix(t, cols, |t| - 1, i);
    assert Takes(t, cols, i, k, c);
  }

  lemma GlyphShown(t: Str, cols: nat, r: seq<Line>, before: Line, line: nat)
    requires t != [] && cols >= 1 && WidthOf(t[|t| - 1]) >= 1
    requires At(t, cols, |t| - 1) == Spot(line, |before|)
    requires line < |r| && r[line] == before + CellsOf(t[|t| - 1], cols)
    ensures Shown(r, t, cols, |t| - 1)
    ensures forall c :: |before| <= c < |r[line]| ==> Taken(t, cols, line, c)
  {
    hide At;
    forall c | |before| <= c < |r[line]| ensures Taken(t, cols, line, c) {
      assert Takes(t, cols, |t| - 1, line, c);
    }
  }

  /** Rows that keep what was on them, and put the new glyph behind it, are filled. */
  lemma FilledOn(rows: seq<Line>, t: Str, cols: nat, r: seq<Line>, before: Line, line: nat)
    requires t != [] && Filled(rows, t[..|t| - 1], cols) && |rows| <= |r| && line < |r|
    requires forall k :: 0 <= k < |rows| ==> rows[k] <= r[k]
    requires forall k :: 0 <= k < |r| && k != line ==> |r[k]| == if k < |rows| then |rows[k]| else 0
    requires |before| == if line < |rows| then |rows[line]| else 0
    requires Shown(r, t, cols, |t| - 1) && (forall c :: |before| <= c < |r[line]| ==> Taken(t, cols, line, c))
    ensures Filled(r, t, cols)
  {
    hide Shown, Taken;
    forall i | 0 <= i < |t| ensures Shown(r, t, cols, i) {
      if i < |t| - 1 { StillShown(rows, t, cols, r, i); }
    }
    forall k, c | 0 <= k < |r| && 0 <= c < |r[k]| ensures Taken(t, cols, k, c) {
      if k < |rows| && c < |rows[k]| { StillTaken(t, cols, k, c); }
    }
  }

  lemma ExtendedFilled(rows: seq<Line>, t: Str, cols: nat)
    requires t != [] && cols >= 1 && WidthOf(t[|t| - 1]) >= 1 && |rows| >= 1
    requires Filled(rows, t[..|t| - 1], cols) && Level(rows, End(t[..|t| - 1], cols), cols)
    ensures var (cp, w) := (t[|t| - 1], WidthOf(t[|t| - 1]));
            var r := Extended(Opened(rows, w, cols), CellsOf(cp, cols));
            Filled(r, t, cols) && Level(r, End(t, cols), cols)
  {
    var cp, a := t[|t| - 1], At(t, cols, |t| - 1);
    var r := Extended(Opened(rows, WidthOf(cp), cols), CellsOf(cp, cols));
    OneMoreGlyph(rows, t, cols);
    hide *;
    var before := if a.line == |rows| - 1 then rows[a.line] else [];
    assert [] + CellsOf(cp, cols) == CellsOf(cp, cols);
    GlyphShown(t, cols, r, before, a.line);
    FilledOn(rows, t, cols, r, before, a.line);
  }

  lemma {:induction false} RowsFilled(t: Str, cols: nat)
    requires Visible(t) && cols >= 1
    ensures Filled(RowsOf(t, cols), t, cols) && Level(RowsOf(t, cols), End(t, cols), cols)
  {
    if t != [] {
      RowsFilled(t[..|t| - 1], cols);
      hide Filled, Level, Extended, Opened, CellsOf, End;
      assert WidthOf(t[|t| - 1]) >= 1;
      ExtendedFilled(RowsOf(t[..|t| - 1], cols), t, cols);
    }
  }

  // ---- the theorem ----------------------------------------------------------------------------------

  /** Each glyph's lead cell is at its spot, a wide one's slot behind it, and every cell that no
      glyph takes is blank. */
  ghost predicate InPlace(g: Grid, t: Str, cols: nat) {
    && (forall k :: 0 <= k < |g| ==> |g[k]| == cols)
    && (forall i :: 0 <= i < |t| ==>
          var a := At(t, cols, i);
          && a.line < |g| && a.col < cols && g[a.line][a.col] == Cell(t[i], DEFAULT_PEN, WidthOf(t[i]), 0)
          && (WidthOf(t[i]) == 2 && a.col + 1 < cols ==> g[a.line][a.col + 1] == Cell(0, DEFAULT_PEN, 0, 0)))
    && (forall k, c :: 0 <= k < |g| && 0 <= c < cols && g[k][c] != PLAIN_BLANK ==> Taken(t, cols, k, c))
  }

  lemma FilledInPlace(g: Grid, rows: seq<Line>, t: Str, cols: nat)
    requires cols >= 1 && RowsOk(rows, cols) && Shows(g, rows, cols) && |rows| <= |g| && Filled(rows, t, cols)
    ensures InPlace(g, t, cols)
  {
    forall k | 0 <= k < |g| ensures |g[k]| == cols {
      assert g[k] == Padded(if k < |rows| then rows[k] else [], cols);
    }
    forall i | 0 <= i < |t|
      ensures var a := At(t, cols, i);
              && a.line < |g| && a.col < cols && g[a.line][a.col] == Cell(t[i], DEFAULT_PEN, WidthOf(t[i]), 0)
              && (WidthOf(t[i]) == 2 && a.col + 1 < cols ==> g[a.line][a.col + 1] == Cell(0, DEFAULT_PEN, 0, 0))
    {
      assert Shown(rows, t, cols, i);
      var a := At(t, cols, i);
      assert g[a.line] == Padded(rows[a.line], cols);
    }
    forall k, c | 0 <= k < |g| && 0 <= c < cols && g[k][c] != PLAIN_BLANK
      ensures Taken(t, cols, k, c)
    {
      assert g[k] == Padded(if k < |rows| then rows[k] else [], cols);
      assert k < |rows| && c < |rows[k]|;
    }
  }

  /** Text of printable scalars of widths 1 and 2, fed as UTF-8 to a fresh terminal, is laid out glyph
      by glyph: each at its line and at the column that is the sum of the widths before it there, a
      wide one with its slot behind it and never split by the edge, every other cell blank; the rows
      that no longer fit are in history, and the cursor is behind the last glyph. */
  lemma WideWrap(cols: nat, rows: nat, cap: nat, t: Str)
    requires 1 <= cols <= MAX_DIM && 1 <= rows <= MAX_DIM && Sequences.AllPrint(t) && Visible(t)
    ensures var s := M.Run(M.Vt(M.START, Fresh(cols, rows, cap), M.EMPTY), Encode(t)).s;
            var e := End(t, cols);
            && s.cols == cols && s.rows == rows && InPlace(T.Global(s), t, cols)
            && |s.hist.log| == Max(e.line + 1 - rows, 0) && |s.hist.log| + s.cur.y == e.line
            && s.cur.x == Min(e.col, cols - 1) && s.cur.wrap == (e.col >= cols)
  {
    hide M.Run, Encode, PutAll, RowsOf, Laid, Filled, Fresh, InPlace, Level, End, Ok, Shows, RowsOk;
    FreshLaid(cols, rows, cap);
    var f := Fresh(cols, rows, cap);
    TextLaid(f, t);
    FedIsPut(f, t);
    RowsFilled(t, cols);
    var s := PutAll(f, t);
    Facts(s, RowsOf(t, cols));
    ShownBy(s, RowsOf(t, cols));
    FilledInPlace(T.Global(s), RowsOf(t, cols), t, cols);
    LevelMeans(RowsOf(t, cols), End(t, cols), cols);
  }

  lemma LevelMeans(rows: seq<Line>, at: Spot, cols: nat)
    requires Level(rows, at, cols) && cols >= 1
    ensures RowsOk(rows, cols) && |rows| == at.line + 1 && Min(|Last(rows)|, cols - 1) == Min(at.col, cols - 1)
    ensures |Last(rows)| == cols <==> at.col >= cols
  {
  }

  lemma FedIsPut(s: Scr, t: Str)
    requires Ok(s) && Sequences.AllPrint(t)
    ensures M.Run(M.Vt(M.START, s, M.EMPTY), Encode(t)).s == PutAll(s, t)
  {
    Sequences.TextPrinted(M.Vt(M.START, s, M.EMPTY), t);
    PlainSets(s, t);
    hide M.Run, Ok, Encode, PutAll, Sequences.Printed;
  }

  lemma ShownBy(s: Scr, rows: seq<Line>)
    requires Laid(s, rows)
    ensures Shows(T.Global(s), rows, s.cols)
  {
  }

  lemma {:induction false} PlainSets(s: Scr, t: Str)
    requires Ok(s)
    ensures Sequences.Printed(s, M.START.sets, t) == PutAll(s, t)
  {
    if t != [] {
      PlainSets(s, t[..|t| - 1]);
      hide PutRune, Ok;
    }
  }

  // ---- extraction ------------------------------------------------------------------------------

  /** The first n glyphs of the text that are on a line, in order. */
  function GlyphsOn(t: Str, cols: nat, n: nat, line: nat): Str
    requires n <= |t|
  {
    if n == 0 then []
    else GlyphsOn(t, cols, n - 1, line) + (if At(t, cols, n - 1).line == line then [t[n - 1]] else [])
  }

  lemma {:induction false} GlyphsPrefix(t: Str, cols: nat, m: nat, n: nat, line: nat)
    requires n <= m <= |t|
    ensures GlyphsOn(t[..m], cols, n, line) == GlyphsOn(t, cols, n, line)
  {
    if n > 0 {
      GlyphsPrefix(t, cols, m, n - 1, line);
      AtPrefix(t, cols, m, n - 1);
    }
  }

  lemma {:induction false} NoneBelow(t: Str, cols: nat, n: nat, line: nat)
    requires n <= |t| && line > End(t[..n], cols).line
    ensures GlyphsOn(t, cols, n, line) == []
  {
    if n > 0 {
      assert t[..n][..n - 1] == t[..n - 1] && t[..n][n - 1] == t[n - 1];
      NoneBelow(t, cols, n - 1, line);
    }
  }

  lemma {:induction false} RowTextJoin(pool: seq<seq<nat>>, a: Line, b: Line)
    ensures RowText(pool, a + b) == RowText(pool, a) + RowText(pool, b)
  {
    hide CellText;
    if b == [] {
      assert a + b == a && RowText(pool, a) + [] == RowText(pool, a);
    } else {
      var n := |b| - 1;
      RowTextJoin(pool, a, b[..n]);
      assert (a + b)[..|a| + n] == a + b[..n] && (a + b)[|a| + n] == b[n];
      assert RowText(pool, a) + (RowText(pool, b[..n]) + CellText(pool, b[n])) ==
             RowText(pool, a) + RowText(pool, b[..n]) + CellText(pool, b[n]);
    }
  }

  lemma GlyphReads(pool: seq<seq<nat>>, cp: nat, cols: nat)
    requires IsScalar(cp) && cp != 0 && WidthOf(cp) >= 1
    ensures RowText(pool, CellsOf(cp, cols)) == [cp]
  {
    var c := CellsOf(cp, cols);
    assert CellText(pool, Lead(cp)) == [cp] && CellText(pool, TRAIL) == [];
    assert RowText(pool, []) == [] && c[..0] == [];
    assert RowText(pool, [Lead(cp)]) == [cp] by { assert [Lead(cp)][..0] == []; }
    if |c| == 2 { assert c[..1] == [Lead(cp)]; }
  }

  lemma RowsRead(pool: seq<seq<nat>>, t: Str, cols: nat, k: nat)
    requires Visible(t) && AllScalars(t) && 0 !in t && cols >= 1 && k < |RowsOf(t, cols)|
    ensures RowText(pool, RowsOf(t, cols)[k]) == GlyphsOn(t, cols, |t|, k)
  {
    RowsReadTo(pool, t, cols, k);
  }

  lemma {:induction false} RowsReadTo(pool: seq<seq<nat>>, t: Str, cols: nat, k: nat)
    requires Visible(t) && AllScalars(t) && 0 !in t && cols >= 1 && k < |RowsOf(t, cols)|
    ensures RowText(pool, RowsOf(t, cols)[k]) == GlyphsOn(t, cols, |t|, k)
  {
    if t != [] {
      var n := |t| - 1;
      var init := t[..n];
      RowsFilled(init, cols);
      assert WidthOf(t[n]) >= 1 && t[n] in t;
      var was := RowsOf(init, cols);
      assert Level(was, End(init, cols), cols) && End(init, cols).line == |was| - 1;
      if k < |was| { RowsReadTo(pool, init, cols, k); }
      OneMoreRead(pool, was, t, cols, k);
      hide *;
    }
  }

  lemma OneMoreRead(pool: seq<seq<nat>>, was: seq<Line>, t: Str, cols: nat, k: nat)
    requires t != [] && Visible(t) && AllScalars(t) && 0 !in t && cols >= 1
    requires was != [] && Level(was, End(t[..|t| - 1], cols), cols)
    requires k < |was| ==> RowText(pool, was[k]) == GlyphsOn(t[..|t| - 1], cols, |t| - 1, k)
    requires k < |Extended(Opened(was, WidthOf(t[|t| - 1]), cols), CellsOf(t[|t| - 1], cols))|
    ensures RowText(pool, Extended(Opened(was, WidthOf(t[|t| - 1]), cols), CellsOf(t[|t| - 1], cols))[k]) ==
            GlyphsOn(t, cols, |t|, k)
  {
    var n := |t| - 1;
    assert WidthOf(t[n]) >= 1 && t[n] in t;
    RowAfter(was, t, cols, k);
    EmptyReads(pool);
    hide *;
    GlyphReads(pool, t[n], cols);
    GlyphsPrefix(t, cols, n, n, k);
    if k >= |was| { NoneBelow(t, cols, n, k); }
    GlyphsStep(t, cols, k);
    var before := if k < |was| then was[k] else [];
    var more := if k == At(t, cols, n).line then CellsOf(t[n], cols) else [];
    RowTextJoin(pool, before, more);
  }

  lemma EmptyReads(pool: seq<seq<nat>>)
    ensures RowText(pool, []) == []
  {
  }

  /** Row k after one more glyph. */
  lemma RowAfter(was: seq<Line>, t: Str, cols: nat, k: nat)
    requires t != [] && cols >= 1 && WidthOf(t[|t| - 1]) >= 1
    requires was != [] && Level(was, End(t[..|t| - 1], cols), cols)
    requires k < |Extended(Opened(was, WidthOf(t[|t| - 1]), cols), CellsOf(t[|t| - 1], cols))|
    ensures End(t[..|t| - 1], cols).line == |was| - 1
    ensures Extended(Opened(was, WidthOf(t[|t| - 1]), cols), CellsOf(t[|t| - 1], cols))[k] ==
            (if k < |was| then was[k] else []) +
            (if k == At(t, cols, |t| - 1).line then CellsOf(t[|t| - 1], cols) else [])
  {
    OneMoreGlyph(was, t, cols);
    hide At, End, Opened, Extended, CellsOf;
  }

  lemma GlyphsStep(t: Str, cols: nat, k: nat)
    requires t != []
    ensures var n := |t| - 1;
            GlyphsOn(t, cols, |t|, k) == GlyphsOn(t, cols, n, k) + if At(t, cols, n).line == k then [t[n]] else []
  {
    hide At;
  }

  function Spaces(n: nat): (t: seq<nat>)
    ensures |t| == n && forall i :: 0 <= i < n ==> t[i] == 32
  {
    Rep(n, 32)
  }

  lemma {:induction false} BlanksRead(pool: seq<seq<nat>>, n: nat)
    ensures RowText(pool, Rep(n, PLAIN_BLANK)) == Spaces(n)
  {
    if n > 0 {
      BlanksRead(pool, n - 1);
      assert Rep(n, PLAIN_BLANK)[..n - 1] == Rep(n - 1, PLAIN_BLANK);
      assert CellText(pool, PLAIN_BLANK) == [32];
      assert Spaces(n) == Spaces(n - 1) + [32];
    }
  }

  lemma TrimOne(t: seq<nat>)
    ensures TrimEnd(t + [32]) == TrimEnd(t)
  {
    assert (t + [32])[..|t|] == t;
  }

  lemma {:induction false} TrimBlanks(t: seq<nat>, n: nat)
    ensures TrimEnd(t + Spaces(n)) == TrimEnd(t)
  {
    hide TrimEnd;
    if n == 0 {
      assert t + Spaces(0) == t;
    } else {
      TrimBlanks(t, n - 1);
      TrimOne(t + Spaces(n - 1));
      assert t + Spaces(n) == t + Spaces(n - 1) + [32];
    }
  }

  lemma PaddedWhole(row: Line, cols: nat)
    requires |row| <= cols && cols >= 1
    ensures Padded(row, cols)[0..cols - 1 + 1] == row + Rep(cols - |row|, PLAIN_BLANK)
  {
  }

  lemma RowWhole(pool: seq<seq<nat>>, row: Line, cols: nat)
    requires |row| <= cols && cols >= 1
    ensures TrimEnd(RowText(pool, Padded(row, cols)[0..cols - 1 + 1])) == TrimEnd(RowText(pool, row))
  {
    hide *;
    var n := cols - |row|;
    PaddedWhole(row, cols);
    RowTextJoin(pool, row, Rep(n, PLAIN_BLANK));
    BlanksRead(pool, n);
    TrimBlanks(RowText(pool, row), n);
  }

  lemma LineReads(s: Scr, rows: seq<Line>, k: nat)
    requires Ok(s) && Laid(s, rows) && Kept(s) == |s.hist.log| && k < |rows|
    ensures Indexable(s, k, 0, s.cols - 1)
    ensures LineText(s, k, 0, s.cols - 1) == TrimEnd(RowText(s.pool, rows[k]))
  {
    Facts(s, rows);
    ShownBy(s, rows);
    assert T.Global(s)[k] == Padded(rows[k], s.cols);
    T.KeptLine(s, k);
    RowWhole(s.pool, rows[k], s.cols);
    Bounds(s);
    hide Laid, Ok, RowText, TrimEnd, AbsLine, Kept, Padded, T.Global, RowsOk, Shows;
  }

  /** Each line reads back as the glyphs laid on it, wide ones once, without blanks at the end, as long
      as no line has left the ring. */
  lemma WideReadsBack(cols: nat, rows: nat, cap: nat, t: Str, k: nat)
    requires 1 <= cols <= MAX_DIM && 1 <= rows <= MAX_DIM && Sequences.AllPrint(t) && Visible(t)
    requires End(t, cols).line + 1 <= Max(cap, 1) + rows && k <= End(t, cols).line
    ensures var s := M.Run(M.Vt(M.START, Fresh(cols, rows, cap), M.EMPTY), Encode(t)).s;
            Indexable(s, k, 0, cols - 1) && LineText(s, k, 0, cols - 1) == TrimEnd(GlyphsOn(t, cols, |t|, k))
  {
    hide M.Run, Encode, PutAll, RowsOf, Laid, Filled, Fresh, InPlace, Level, End, Ok, Shows, RowsOk, RowText, TrimEnd,
         GlyphsOn, LineText, Indexable, Kept;
    FreshLaid(cols, rows, cap);
    var f := Fresh(cols, rows, cap);
    TextLaid(f, t);
    FedIsPut(f, t);
    RowsFilled(t, cols);
    LevelMeans(RowsOf(t, cols), End(t, cols), cols);
    NonePrinted(t);
    var s := PutAll(f, t);
    Facts(s, RowsOf(t, cols));
    FreshCap(cols, rows, cap);
    AllKept(s, RowsOf(t, cols));
    LineReads(s, RowsOf(t, cols), k);
    RowsRead(s.pool, t, cols, k);
  }

  lemma NonePrinted(t: Str)
    requires Sequences.AllPrint(t)
    ensures AllScalars(t) && 0 !in t
  {
    assert forall i :: 0 <= i < |t| ==> Sequences.Prints(t[i]);
  }

  lemma AllKept(s: Scr, rows: seq<Line>)
    requires Laid(s, rows) && |rows| <= s.hist.cap + s.rows
    ensures Kept(s) == |s.hist.log|
  {
  }

  lemma FreshCap(cols: nat, rows: nat, cap: nat)
    requires 1 <= cols <= MAX_DIM && 1 <= rows <= MAX_DIM
    ensures Fresh(cols, rows, cap).hist.cap == Max(cap, 1)
  {
  }
}
