/** Combining marks: cells refer to mark strings by id. Over every run each id in use names a
    string of the pool and belongs to one cell only, so a mark changes the text of one cell. */
module Combining {
  import opened Cells
  import opened Text
  import opened ScreenModel
  import opened ScreenOps
  import M = ParserModel
  import F = Feeding

  function Carries(c: Cell, id: nat): nat { if c.combo == id then 1 else 0 }

  /** How many cells of a row carry an id. */
  function Count(line: Line, id: nat): nat {
    if line == [] then 0 else Count(line[..|line| - 1], id) + Carries(line[|line| - 1], id)
  }

  function GridCount(g: Grid, id: nat): nat {
    if g == [] then 0 else GridCount(g[..|g| - 1], id) + Count(g[|g| - 1], id)
  }

  /** The rows whose cells can be shown: history, the primary grid, and the alternate one
      while it is active. */
  function Live(s: Scr): Grid
    requires Ok(s)
  {
    Hist(s) + s.bufs.primary + (if s.bufs.inAlt then s.bufs.alt else [])
  }

  /** Every id in use names a pool entry, and no two cells carry the same id. */
  ghost predicate MarksOk(s: Scr)
    requires Ok(s)
  {
    forall id: nat :: id > 0 ==> GridCount(Live(s), id) <= (if id <= |s.pool| then 1 else 0)
  }

  // ---- counting in concatenations, slices and updates --------------------------------------

  lemma {:induction false} CountAppend(a: Line, b: Line, id: nat)
    ensures Count(a + b, id) == Count(a, id) + Count(b, id)
  {
    if b == [] {
      assert a + b == a;
    } else {
      assert (a + b)[..|a + b| - 1] == a + b[..|b| - 1];
      CountAppend(a, b[..|b| - 1], id);
    }
  }

  lemma {:induction false} GridCountAppend(a: Grid, b: Grid, id: nat)
    ensures GridCount(a + b, id) == GridCount(a, id) + GridCount(b, id)
  {
    if b == [] {
      assert a + b == a;
    } else {
      assert (a + b)[..|a + b| - 1] == a + b[..|b| - 1];
      GridCountAppend(a, b[..|b| - 1], id);
    }
  }

  lemma {:induction false} NoIds(line: Line, id: nat)
    requires id > 0 && forall i :: 0 <= i < |line| ==> line[i].combo == 0
    ensures Count(line, id) == 0
  {
    if line != [] {
      NoIds(line[..|line| - 1], id);
    }
  }

  lemma {:induction false} NoGridIds(g: Grid, id: nat)
    requires forall y :: 0 <= y < |g| ==> Count(g[y], id) == 0
    ensures GridCount(g, id) == 0
  {
    hide Count;
    if g != [] {
      NoGridIds(g[..|g| - 1], id);
    }
  }

  lemma Slices(line: Line, lo: nat, hi: nat, id: nat)
    requires lo <= hi <= |line|
    ensures Count(line, id) == Count(line[..lo], id) + Count(line[lo..hi], id) + Count(line[hi..], id)
  {
    hide Count;
    assert line == line[..lo] + line[lo..hi] + line[hi..];
    CountAppend(line[..lo] + line[lo..hi], line[hi..], id);
    CountAppend(line[..lo], line[lo..hi], id);
  }

  lemma GridSlices(g: Grid, lo: nat, hi: nat, id: nat)
    requires lo <= hi <= |g|
    ensures GridCount(g, id) == GridCount(g[..lo], id) + GridCount(g[lo..hi], id) + GridCount(g[hi..], id)
  {
    hide GridCount;
    assert g == g[..lo] + g[lo..hi] + g[hi..];
    GridCountAppend(g[..lo] + g[lo..hi], g[hi..], id);
    GridCountAppend(g[..lo], g[lo..hi], id);
  }

  lemma One(c: Cell, id: nat)
    ensures Count([c], id) == Carries(c, id)
  {
    assert [c][..0] == [];
  }

  lemma OneRow(row: Line, id: nat)
    ensures GridCount([row], id) == Count(row, id)
  {
    hide Count;
    assert [row][..0] == [];
  }

  lemma NoRows(id: nat)
    ensures Count([], id) == 0 && GridCount([], id) == 0
  {
  }

  lemma Updated(line: Line, x: nat, c: Cell, id: nat)
    requires x < |line|
    ensures Count(line[x := c], id) + Carries(line[x], id) == Count(line, id) + Carries(c, id)
  {
    hide Count;
    var r := line[x := c];
    Slices(line, x, x + 1, id);
    Slices(r, x, x + 1, id);
    assert line[x..x + 1] == [line[x]] && r[x..x + 1] == [c];
    assert r[..x] == line[..x] && r[x + 1..] == line[x + 1..];
    One(line[x], id);
    One(c, id);
  }

  lemma GridUpdated(g: Grid, y: nat, row: Line, id: nat)
    requires y < |g|
    ensures GridCount(g[y := row], id) + Count(g[y], id) == GridCount(g, id) + Count(row, id)
  {
    hide Count, GridCount;
    var r := g[y := row];
    GridSlices(g, y, y + 1, id);
    GridSlices(r, y, y + 1, id);
    assert g[y..y + 1] == [g[y]] && r[y..y + 1] == [row];
    assert r[..y] == g[..y] && r[y + 1..] == g[y + 1..];
    OneRow(g[y], id);
    OneRow(row, id);
  }

  // ---- positions -------------------------------------------------------------------------

  lemma IdAt(line: Line, x: nat)
    requires x < |line|
    ensures Count(line, line[x].combo) >= 1
  {
    hide Count;
    var id := line[x].combo;
    Slices(line, x, x + 1, id);
    assert line[x..x + 1] == [line[x]];
    One(line[x], id);
  }

  lemma GridIdAt(g: Grid, y: nat, x: nat)
    requires y < |g| && x < |g[y]|
    ensures GridCount(g, g[y][x].combo) >= Count(g[y], g[y][x].combo) >= 1
  {
    hide Count, GridCount;
    var id := g[y][x].combo;
    IdAt(g[y], x);
    GridSlices(g, y, y + 1, id);
    assert g[y..y + 1] == [g[y]];
    OneRow(g[y], id);
  }

  /** Two different positions with one id count it twice. */
  lemma TwiceIn(g: Grid, y: nat, x: nat, v: nat, u: nat)
    requires y < |g| && x < |g[y]| && v < |g| && u < |g[v]| && (y != v || x != u)
    requires g[y][x].combo == g[v][u].combo
    ensures GridCount(g, g[y][x].combo) >= 2
  {
    hide Count, GridCount;
    if y == v {
      TwiceInRow(g[y], Min(x, u), Max(x, u));
      GridIdAt(g, y, x);
    } else {
      TwiceInRows(g, Min(y, v), if y < v then x else u, Max(y, v), if y < v then u else x);
    }
  }

  lemma TwiceInRow(line: Line, x: nat, u: nat)
    requires x < u < |line| && line[x].combo == line[u].combo
    ensures Count(line, line[x].combo) >= 2
  {
    hide Count;
    Slices(line, u, u, line[x].combo);
    assert line[..u][x] == line[x] && line[u..][0] == line[u];
    IdAt(line[..u], x);
    IdAt(line[u..], 0);
  }

  lemma TwiceInRows(g: Grid, y: nat, x: nat, v: nat, u: nat)
    requires y < v < |g| && x < |g[y]| && u < |g[v]| && g[y][x].combo == g[v][u].combo
    ensures GridCount(g, g[y][x].combo) >= 2
  {
    hide Count, GridCount;
    GridSlices(g, v, v, g[y][x].combo);
    assert g[..v][y] == g[y] && g[v..][0] == g[v];
    GridIdAt(g[..v], y, x);
    GridIdAt(g[v..], 0, u);
  }

  // ---- no row or grid operation makes an id --------------------------------------------------

  lemma Blanks(n: nat, cols: nat, bg: int, id: nat)
    requires id > 0
    ensures GridCount(Rep(n, Rep(cols, BlankCell(bg))), id) == 0
    ensures Count(Rep(cols, BlankCell(bg)), id) == 0
  {
    hide Count, GridCount;
    NoIds(Rep(cols, BlankCell(bg)), id);
    NoGridIds(Rep(n, Rep(cols, BlankCell(bg))), id);
  }

  lemma FourParts(a: Grid, b: Grid, c: Grid, d: Grid, id: nat)
    ensures GridCount(a + b + c + d, id) == GridCount(a, id) + GridCount(b, id) + GridCount(c, id) + GridCount(d, id)
  {
    hide GridCount;
    GridCountAppend(a + b + c, d, id);
    GridCountAppend(a + b, c, id);
    GridCountAppend(a, b, id);
  }

  lemma ThreeParts(a: Line, b: Line, c: Line, id: nat)
    ensures Count(a + b + c, id) == Count(a, id) + Count(b, id) + Count(c, id)
  {
    hide Count;
    CountAppend(a + b, c, id);
    CountAppend(a, b, id);
  }

  /** A grid cut in four. */
  lemma SlicesCount(g: Grid, a: nat, b: nat, c: nat, id: nat)
    requires a <= b <= c <= |g|
    ensures GridCount(g, id) ==
      GridCount(g[..a], id) + GridCount(g[a..b], id) + GridCount(g[b..c], id) + GridCount(g[c..], id)
  {
    assert g == g[..a] + g[a..b] + g[b..c] + g[c..];
    hide GridCount;
    FourParts(g[..a], g[a..b], g[b..c], g[c..], id);
  }

  lemma ShiftUpCount(g: Grid, lo: nat, hi: nat, k: nat, line: Line, id: nat)
    requires lo <= hi < |g| && k <= hi - lo + 1
    ensures GridCount(ShiftUp(g, lo, hi, k, line), id) ==
      GridCount(g[..lo], id) + GridCount(g[lo + k..hi + 1], id) + GridCount(Rep(k, line), id)
      + GridCount(g[hi + 1..], id)
  {
    FourParts(g[..lo], g[lo + k..hi + 1], Rep(k, line), g[hi + 1..], id);
    hide GridCount, Rep;
  }

  lemma ShiftDownCount(g: Grid, lo: nat, hi: nat, k: nat, line: Line, id: nat)
    requires lo <= hi < |g| && k <= hi - lo + 1 && Count(line, id) == 0
    ensures GridCount(ShiftDown(g, lo, hi, k, line), id) ==
      GridCount(g[..lo], id) + GridCount(g[lo..hi + 1 - k], id) + GridCount(g[hi + 1..], id)
  {
    FourParts(g[..lo], Rep(k, line), g[lo..hi + 1 - k], g[hi + 1..], id);
    NoneIn(k, line, id);
    hide GridCount, Rep, Count;
  }

  /** Without its third part a grid counts no more. */
  lemma SlicesBound(g: Grid, a: nat, b: nat, c: nat, id: nat)
    requires a <= b <= c <= |g|
    ensures GridCount(g[..a], id) + GridCount(g[a..b], id) + GridCount(g[c..], id) <= GridCount(g, id)
  {
    var lost: nat := GridCount(g[b..c], id);
    hide *;
    SlicesCount(g, a, b, c, id);
  }

  lemma NoneIn(k: nat, line: Line, id: nat)
    requires Count(line, id) == 0
    ensures GridCount(Rep(k, line), id) == 0
  {
    hide GridCount, Count;
    NoGridIds(Rep(k, line), id);
  }

  lemma ShiftUpIds(g: Grid, lo: nat, hi: nat, k: nat, line: Line, id: nat)
    requires lo <= hi < |g| && k <= hi - lo + 1 && Count(line, id) == 0
    ensures GridCount(ShiftUp(g, lo, hi, k, line), id) + GridCount(g[lo..lo + k], id) == GridCount(g, id)
  {
    hide *;
    NoneIn(k, line, id);
    ShiftUpCount(g, lo, hi, k, line, id);
    SlicesCount(g, lo, lo + k, hi + 1, id);
  }

  lemma ShiftDownIds(g: Grid, lo: nat, hi: nat, k: nat, line: Line, id: nat)
    requires lo <= hi < |g| && k <= hi - lo + 1 && Count(line, id) == 0
    ensures GridCount(ShiftDown(g, lo, hi, k, line), id) <= GridCount(g, id)
  {
    hide *;
    ShiftDownCount(g, lo, hi, k, line, id);
    SlicesBound(g, lo, hi + 1 - k, hi + 1, id);
  }

  lemma WipedIds(row: Line, lo: nat, hi: nat, bg: int, id: nat)
    requires lo <= hi <= |row| && id > 0
    ensures Count(Wiped(row, lo, hi, BlankCell(bg)), id) <= Count(row, id)
  {
    hide Count;
    Blanks(0, hi - lo, bg, id);
    ThreeParts(row[..lo], Rep(hi - lo, BlankCell(bg)), row[hi..], id);
    Slices(row, lo, hi, id);
  }

  lemma WipedRowsIds(g: Grid, lo: nat, hi: nat, cols: nat, bg: int, id: nat)
    requires lo <= hi <= |g| && id > 0
    ensures var r := g[..lo] + Rep(hi - lo, Rep(cols, BlankCell(bg))) + g[hi..];
            GridCount(r, id) <= GridCount(g, id) && (lo == 0 && hi == |g| ==> GridCount(r, id) == 0)
  {
    hide Count, GridCount;
    Blanks(hi - lo, cols, bg, id);
    var b := Rep(hi - lo, Rep(cols, BlankCell(bg)));
    GridCountAppend(g[..lo] + b, g[hi..], id);
    GridCountAppend(g[..lo], b, id);
    GridSlices(g, lo, hi, id);
    NoRows(id);
    assert g[..0] == [] && g[|g|..] == [];
  }

  lemma OpenedIds(row: Line, x: nat, k: nat, bg: int, id: nat)
    requires x + k <= |row| && id > 0
    ensures Count(row[..x] + Rep(k, BlankCell(bg)) + row[x..|row| - k], id) <= Count(row, id)
  {
    hide Count;
    Blanks(0, k, bg, id);
    ThreeParts(row[..x], Rep(k, BlankCell(bg)), row[x..|row| - k], id);
    Slices(row, x, |row| - k, id);
  }

  lemma ClosedIds(row: Line, x: nat, k: nat, bg: int, id: nat)
    requires x + k <= |row| && id > 0
    ensures Count(row[..x] + row[x + k..] + Rep(k, BlankCell(bg)), id) <= Count(row, id)
  {
    hide Count;
    Blanks(0, k, bg, id);
    ThreeParts(row[..x], row[x + k..], Rep(k, BlankCell(bg)), id);
    Slices(row, x, x + k, id);
  }

  /** Printing overwrites; in insert mode the cells pushed past the edge are lost. */
  lemma PlacedIds(row: Line, x: nat, w: nat, insert: bool, cp: nat, pen: Pen, id: nat)
    requires x < |row| && 1 <= w <= 2 && id > 0
    ensures Count(PlacedRow(row, x, w, insert, cp, pen), id) <= Count(row, id)
  {
    hide Count;
    if insert && x + w <= |row| {
      InsertedRow(row, x, w, cp, pen);
      var glyph := if w == 2 then [Cell(cp, pen, w, 0), Cell(0, pen, 0, 0)] else [Cell(cp, pen, w, 0)];
      NoIds(glyph, id);
      ThreeParts(row[..x], glyph, row[x..|row| - w], id);
      Slices(row, x, |row| - w, id);
    } else {
      var lead := row[x := Cell(cp, pen, w, 0)];
      Updated(row, x, Cell(cp, pen, w, 0), id);
      if w == 2 && x + 1 < |row| {
        Updated(lead, x + 1, Cell(0, pen, 0, 0), id);
      }
    }
  }

  lemma InsertedRow(row: Line, x: nat, w: nat, cp: nat, pen: Pen)
    requires x + w <= |row| && 1 <= w <= 2
    ensures PlacedRow(row, x, w, true, cp, pen)
         == row[..x] + (if w == 2 then [Cell(cp, pen, w, 0), Cell(0, pen, 0, 0)] else [Cell(cp, pen, w, 0)])
            + row[x..|row| - w]
  {
  }

  // ---- what operations do to the live ids -----------------------------------------------

  lemma LiveSplit(s: Scr, id: nat)
    requires Ok(s)
    ensures GridCount(Live(s), id) == GridCount(Hist(s), id) + GridCount(s.bufs.primary, id)
                                    + (if s.bufs.inAlt then GridCount(s.bufs.alt, id) else 0)
  {
    hide GridCount;
    GridCountAppend(Hist(s) + s.bufs.primary, if s.bufs.inAlt then s.bufs.alt else [], id);
    GridCountAppend(Hist(s), s.bufs.primary, id);
    NoRows(id);
  }

  /** No id is carried by more cells than before, and the pool is no smaller. */
  ghost predicate NoNewIds(s: Scr, r: Scr)
    requires Ok(s) && Ok(r)
  {
    |r.pool| >= |s.pool| && forall id: nat :: id > 0 ==> GridCount(Live(r), id) <= GridCount(Live(s), id)
  }

  lemma NoNewIdsKeeps(s: Scr, r: Scr)
    requires Ok(s) && Ok(r) && NoNewIds(s, r) && MarksOk(s)
    ensures MarksOk(r)
  {
    hide GridCount, Live;
  }

  lemma NoNewIdsTwice(s: Scr, m: Scr, r: Scr)
    requires Ok(s) && Ok(m) && Ok(r) && NoNewIds(s, m) && NoNewIds(m, r)
    ensures NoNewIds(s, r)
  {
    hide GridCount, Live, Ok;
  }

  lemma NewBuf(s: Scr, g: Grid)
    requires Ok(s) && GridOk(g, s.cols, s.rows)
    requires forall id: nat :: id > 0 ==> GridCount(g, id) <= GridCount(Buf(s), id)
    ensures NoNewIds(s, WithBuf(s, g))
  {
    hide GridCount, Live;
    var r := WithBuf(s, g);
    forall id: nat | id > 0 ensures GridCount(Live(r), id) <= GridCount(Live(s), id) {
      LiveSplit(s, id);
      LiveSplit(r, id);
    }
  }

  lemma NewRow(s: Scr, y: nat, row: Line)
    requires Ok(s) && y < s.rows && |row| == s.cols
    requires forall id: nat :: id > 0 ==> Count(row, id) <= Count(Buf(s)[y], id)
    ensures NoNewIds(s, WithRow(s, y, row))
  {
    hide GridCount, Count, NoNewIds;
    var g := Buf(s)[y := row];
    forall id: nat | id > 0 ensures GridCount(g, id) <= GridCount(Buf(s), id) {
      GridUpdated(Buf(s), y, row, id);
    }
    NewBuf(s, g);
  }

  lemma SameGrids(s: Scr, r: Scr)
    requires Ok(s) && Ok(r) && r.bufs == s.bufs && r.hist == s.hist && |r.pool| >= |s.pool|
    ensures NoNewIds(s, r)
  {
    hide GridCount;
  }

  lemma ScrollUpIds(s: Scr, n: nat)
    requires Ok(s)
    ensures NoNewIds(s, ScrollUp(s, n))
  {
    hide GridCount, Live, Count;
    var r := ScrollUp(s, n);
    forall id: nat | id > 0 ensures GridCount(Live(r), id) <= GridCount(Live(s), id) {
      ScrollUpCount(s, n, id);
    }
  }

  lemma ScrollUpCount(s: Scr, n: nat, id: nat)
    requires Ok(s) && id > 0
    ensures GridCount(Live(ScrollUp(s, n)), id) <= GridCount(Live(s), id)
  {
    hide GridCount, Live, Count, ShiftUp;
    var k := Min(n, s.reg.bot - s.reg.top + 1);
    var r := ScrollUp(s, n);
    Blanks(0, s.cols, s.pen.bg, id);
    ShiftUpIds(Buf(s), s.reg.top, s.reg.bot, k, BlankLine(s), id);
    LiveSplit(s, id);
    LiveSplit(r, id);
    if !s.bufs.inAlt && s.reg.top == 0 {
      HistGrown(s.hist, s.bufs.primary[..k], id);
      assert s.bufs.primary[0..k] == s.bufs.primary[..k];
    }
  }

  lemma HistGrown(h: History, lines: Grid, id: nat)
    requires h.since <= |h.log| && 1 <= h.cap
    ensures var r := Pushed(h, lines);
            GridCount(LastN(r.log, Min(r.cap, r.since)), id) <=
              GridCount(LastN(h.log, Min(h.cap, h.since)), id) + GridCount(lines, id)
  {
    hide GridCount;
    var r := Pushed(h, lines);
    var both := LastN(h.log, Min(h.cap, h.since)) + lines;
    var n := |both| - Min(r.cap, r.since);
    GridCountAppend(LastN(h.log, Min(h.cap, h.since)), lines, id);
    assert LastN(r.log, Min(r.cap, r.since)) == both[n..];
    GridSlices(both, n, n, id);
  }

  lemma IndexIds(s: Scr)
    requires Ok(s)
    ensures NoNewIds(s, Index(s))
  {
    hide NoNewIds, ScrollUp;
    var m := MoveTo(s, s.cur.x, s.cur.y);
    SameGrids(s, m);
    if s.cur.y == s.reg.bot {
      ScrollUpIds(m, 1);
      NoNewIdsTwice(s, m, Index(s));
    } else {
      SameGrids(s, Index(s));
    }
  }

  lemma FreshRowIds(s: Scr)
    requires Ok(s)
    ensures NoNewIds(s, Index(MoveTo(s, 0, s.cur.y)))
  {
    hide NoNewIds, Index;
    SameGrids(s, MoveTo(s, 0, s.cur.y));
    IndexIds(MoveTo(s, 0, s.cur.y));
    NoNewIdsTwice(s, MoveTo(s, 0, s.cur.y), Index(MoveTo(s, 0, s.cur.y)));
  }

  lemma PutIds(s: Scr, cp: nat)
    requires Ok(s) && WidthOf(cp) != 0
    ensures NoNewIds(s, PutRune(s, cp))
  {
    hide NoNewIds, Index, Place;
    var w := WidthOf(cp);
    var s1 := Wrapped(s);
    FreshRowIds(s);
    SameGrids(s, s);
    var s2 := if w == 2 && s1.cur.x == s1.cols - 1 && s1.modes.autoWrap then Index(MoveTo(s1, 0, s1.cur.y)) else s1;
    FreshRowIds(s1);
    SameGrids(s1, s1);
    NoNewIdsTwice(s, s1, s2);
    PlaceIds(s2, cp, w);
    NoNewIdsTwice(s, s2, PutRune(s, cp));
  }

  lemma PlaceIds(s: Scr, cp: nat, w: nat)
    requires Ok(s) && 1 <= w <= 2
    ensures NoNewIds(s, Place(s, cp, w))
  {
    hide NoNewIds, PlacedRow, Count;
    var row := PlacedRow(Buf(s)[s.cur.y], s.cur.x, w, s.modes.insert, cp, s.pen);
    forall id: nat | id > 0 ensures Count(row, id) <= Count(Buf(s)[s.cur.y], id) {
      PlacedIds(Buf(s)[s.cur.y], s.cur.x, w, s.modes.insert, cp, s.pen, id);
    }
    NewRow(s, s.cur.y, row);
    var m := WithRow(s, s.cur.y, row);
    SameGrids(m, Place(s, cp, w));
    NoNewIdsTwice(s, m, Place(s, cp, w));
  }

  lemma WipeRowIds(s: Scr, lo: nat, hi: nat)
    requires Ok(s) && lo <= hi <= s.cols
    ensures NoNewIds(s, WipeCursorRow(s, lo, hi))
  {
    hide NoNewIds, Count, Wiped;
    forall id: nat | id > 0 ensures Count(Wiped(Buf(s)[s.cur.y], lo, hi, Blank(s)), id) <= Count(Buf(s)[s.cur.y], id) {
      WipedIds(Buf(s)[s.cur.y], lo, hi, s.pen.bg, id);
    }
    NewRow(s, s.cur.y, Wiped(Buf(s)[s.cur.y], lo, hi, Blank(s)));
  }

  lemma EraseRowIds(s: Scr, mode: int)
    requires Ok(s)
    ensures NoNewIds(s, EraseInLine(s, mode))
  {
    hide NoNewIds, WipeCursorRow;
    if 0 <= mode <= 2 {
      var m := WipeCursorRow(s, if mode == 0 then s.cur.x else 0, if mode == 1 then s.cur.x + 1 else s.cols);
      WipeRowIds(s, if mode == 0 then s.cur.x else 0, if mode == 1 then s.cur.x + 1 else s.cols);
      SameGrids(m, EraseInLine(s, mode));
      NoNewIdsTwice(s, m, EraseInLine(s, mode));
    } else {
      SameGrids(s, EraseInLine(s, mode));
    }
  }

  lemma WipeRowsIds(s: Scr, lo: nat, hi: nat)
    requires Ok(s) && lo <= hi <= s.rows
    ensures NoNewIds(s, WipeRows(s, lo, hi))
  {
    hide NoNewIds, GridCount;
    var g := Buf(s)[..lo] + Rep(hi - lo, BlankLine(s)) + Buf(s)[hi..];
    forall id: nat | id > 0 ensures GridCount(g, id) <= GridCount(Buf(s), id) {
      WipedRowsIds(Buf(s), lo, hi, s.cols, s.pen.bg, id);
    }
    NewBuf(s, g);
  }

  lemma ClearedIds(s: Scr)
    requires Ok(s)
    ensures NoNewIds(s, ClearHistory(s))
  {
    hide GridCount, Live;
    var r := ClearHistory(s);
    forall id: nat | id > 0 ensures GridCount(Live(r), id) <= GridCount(Live(s), id) {
      LiveSplit(s, id);
      LiveSplit(r, id);
      NoRows(id);
    }
  }

  lemma EraseScreenIds(s: Scr, mode: int)
    requires Ok(s)
    ensures NoNewIds(s, EraseInDisplay(s, mode))
  {
    var m := EraseStage(s, mode);
    hide NoNewIds, EraseInLine, WipeRows;
    var r := EraseInDisplay(s, mode);
    SameGrids(m, r);
    NoNewIdsTwice(s, m, r);
  }

  /** The screen before EraseInDisplay ends the pending wrap. */
  lemma EraseStage(s: Scr, mode: int) returns (m: Scr)
    requires Ok(s)
    ensures Ok(m) && NoNewIds(s, m) && EraseInDisplay(s, mode) == MoveTo(m, m.cur.x, m.cur.y)
  {
    hide NoNewIds;
    if mode == 0 {
      var a := EraseInLine(s, 0);
      m := WipeRows(a, s.cur.y + 1, s.rows);
      EraseRowIds(s, 0);
      WipeRowsIds(a, s.cur.y + 1, s.rows);
      NoNewIdsTwice(s, a, m);
    } else if mode == 1 {
      var a := WipeRows(s, 0, s.cur.y);
      m := EraseInLine(a, 1);
      WipeRowsIds(s, 0, s.cur.y);
      EraseRowIds(a, 1);
      NoNewIdsTwice(s, a, m);
    } else if mode == 2 {
      m := WipeRows(s, 0, s.rows);
      WipeRowsIds(s, 0, s.rows);
    } else if mode == 3 {
      m := ClearHistory(s);
      ClearedIds(s);
    } else {
      m := s;
      SameGrids(s, s);
    }
  }

  lemma WipedScreen(s: Scr, id: nat)
    requires Ok(s) && id > 0
    ensures GridCount(Buf(EraseInDisplay(s, 2)), id) == 0
  {
    hide GridCount;
    WipedRowsIds(Buf(s), 0, s.rows, s.cols, s.pen.bg, id);
  }

  /** Entering the alternate screen wipes it, so stale ids there never come back. */
  lemma AltIds(s: Scr, on: bool)
    requires Ok(s)
    ensures NoNewIds(s, SetAltScreen(s, on))
  {
    hide GridCount, Live;
    var r := SetAltScreen(s, on);
    forall id: nat | id > 0 ensures GridCount(Live(r), id) <= GridCount(Live(s), id) {
      LiveSplit(s, id);
      LiveSplit(r, id);
      if on && !s.bufs.inAlt {
        WipedScreen(Switched(SaveCursor(s), true), id);
      }
    }
  }

  /** A reset leaves no cell with an id, so clearing the pool is safe. */
  lemma ResetIds(s: Scr)
    requires Ok(s)
    ensures MarksOk(FullReset(s))
  {
    hide GridCount, Live, EraseInDisplay;
    var r := FullReset(s);
    var s1 := ResetModes(s);
    var s2 := if s1.bufs.inAlt then SetAltScreen(s1, false) else s1;
    EraseKeepsBuffer(s2);
    forall id: nat | id > 0 ensures GridCount(Live(r), id) == 0 {
      WipedScreen(s2, id);
      LiveSplit(r, id);
      NoRows(id);
    }
  }

  lemma EraseKeepsBuffer(s: Scr)
    requires Ok(s)
    ensures EraseInDisplay(s, 2).bufs.inAlt == s.bufs.inAlt
  {
  }

  /** A zero-width code point makes at most one new id, the next one of the pool. */
  lemma AttachKeeps(s: Scr, cp: nat)
    requires Ok(s) && MarksOk(s)
    ensures MarksOk(AttachMark(s, cp))
  {
    var r := AttachMark(s, cp);
    if HasBase(s) && IsScalar(cp) && Buf(s)[s.base.y][s.base.x].combo == 0 && |s.pool| < MAX_MARKS {
      hide GridCount, Live, Count;
      forall id: nat | id > 0
        ensures GridCount(Live(r), id) == GridCount(Live(s), id) + (if id == |s.pool| + 1 then 1 else 0) {
        AttachCount(s, cp, id);
      }
    } else {
      hide GridCount, Live, MarksOk;
      SameGrids(s, r);
      NoNewIdsKeeps(s, r);
    }
  }

  lemma AttachCount(s: Scr, cp: nat, id: nat)
    requires Ok(s) && HasBase(s) && IsScalar(cp) && Buf(s)[s.base.y][s.base.x].combo == 0 && |s.pool| < MAX_MARKS
    requires id > 0
    ensures GridCount(Live(AttachMark(s, cp)), id) == GridCount(Live(s), id) + (if id == |s.pool| + 1 then 1 else 0)
  {
    hide GridCount, Live, Count;
    var r := AttachMark(s, cp);
    var row := Buf(s)[s.base.y];
    var cell := row[s.base.x].(combo := |s.pool| + 1);
    Updated(row, s.base.x, cell, id);
    GridUpdated(Buf(s), s.base.y, row[s.base.x := cell], id);
    LiveSplit(s, id);
    LiveSplit(r, id);
  }

  lemma OpKeeps(s: Scr, op: Op)
    requires Ok(s) && Allowed(s, op) && MarksOk(s)
    ensures MarksOk(Apply(s, op))
  {
    hide MarksOk, NoNewIds, ScrollUp, ScrollDown, EraseInLine, EraseInDisplay, SetAltScreen,
         FullReset, Place, AttachMark;
    match op {
      case Reset => ResetIds(s);
      case Put(cp) =>
        if WidthOf(cp) == 0 {
          AttachKeeps(s, cp);
        } else {
          PutIds(s, cp);
          NoNewIdsKeeps(s, Apply(s, op));
        }
      case _ =>
        OtherIds(s, op);
        NoNewIdsKeeps(s, Apply(s, op));
    }
  }

  lemma OtherIds(s: Scr, op: Op)
    requires Ok(s) && Allowed(s, op) && !op.Put? && !op.Reset?
    ensures NoNewIds(s, Apply(s, op))
  {
    hide NoNewIds, EraseInLine, EraseInDisplay, SetAltScreen, ScrollUp, ScrollDown, EraseChars;
    hide InsertChars, DeleteChars, InsertLines, DeleteLines;
    match op {
      case Quiet(next) => SameGrids(s, next);
      case Up(n) => ScrollUpIds(s, n);
      case Down(n) => ScrollDownIds(s, n);
      case EraseRow(mode) => EraseRowIds(s, mode);
      case EraseScreen(mode) => EraseScreenIds(s, mode);
      case EraseCells(n) => EraseCharsIds(s, n);
      case InsertCells(n) => InsertCharsIds(s, n);
      case DeleteCells(n) => DeleteCharsIds(s, n);
      case InsertRows(n) => InsertLinesIds(s, n);
      case DeleteRows(n) => DeleteLinesIds(s, n);
      case Alt(on) => AltIds(s, on);
    }
  }

  lemma ShiftedDown(s: Scr, lo: nat, k: nat)
    requires Ok(s) && lo <= s.reg.bot && k <= s.reg.bot - lo + 1
    ensures NoNewIds(s, WithBuf(s, ShiftDown(Buf(s), lo, s.reg.bot, k, BlankLine(s))))
  {
    hide NoNewIds, GridCount;
    var g := ShiftDown(Buf(s), lo, s.reg.bot, k, BlankLine(s));
    forall id: nat | id > 0 ensures GridCount(g, id) <= GridCount(Buf(s), id) {
      Blanks(0, s.cols, s.pen.bg, id);
      ShiftDownIds(Buf(s), lo, s.reg.bot, k, BlankLine(s), id);
    }
    NewBuf(s, g);
  }

  lemma ScrollDownIds(s: Scr, n: nat)
    requires Ok(s)
    ensures NoNewIds(s, ScrollDown(s, n))
  {
    hide NoNewIds;
    ShiftedDown(s, s.reg.top, Min(n, s.reg.bot - s.reg.top + 1));
  }

  lemma InsertLinesIds(s: Scr, n: nat)
    requires Ok(s)
    ensures NoNewIds(s, InsertLines(s, n))
  {
    hide NoNewIds;
    if s.reg.top <= s.cur.y <= s.reg.bot {
      ShiftedDown(s, s.cur.y, Clamp(n, 1, s.reg.bot - s.cur.y + 1));
    } else {
      SameGrids(s, s);
    }
  }

  lemma DeleteLinesIds(s: Scr, n: nat)
    requires Ok(s)
    ensures NoNewIds(s, DeleteLines(s, n))
  {
    hide NoNewIds, GridCount;
    if s.reg.top <= s.cur.y <= s.reg.bot {
      var k := Clamp(n, 1, s.reg.bot - s.cur.y + 1);
      var g := ShiftUp(Buf(s), s.cur.y, s.reg.bot, k, BlankLine(s));
      forall id: nat | id > 0 ensures GridCount(g, id) <= GridCount(Buf(s), id) {
        Blanks(0, s.cols, s.pen.bg, id);
        ShiftUpIds(Buf(s), s.cur.y, s.reg.bot, k, BlankLine(s), id);
      }
      NewBuf(s, g);
    } else {
      SameGrids(s, s);
    }
  }

  lemma EraseCharsIds(s: Scr, n: nat)
    requires Ok(s)
    ensures NoNewIds(s, EraseChars(s, n))
  {
    hide NoNewIds, WipeCursorRow;
    WipeRowIds(s, s.cur.x, Max(s.cur.x, Min(AddWord(s.cur.x, Max(n, 1)), s.cols)));
  }

  lemma InsertCharsIds(s: Scr, n: nat)
    requires Ok(s)
    ensures NoNewIds(s, InsertChars(s, n))
  {
    hide NoNewIds, Count;
    var row := Buf(s)[s.cur.y];
    var k := Clamp(n, 1, s.cols - s.cur.x);
    var r := row[..s.cur.x] + Rep(k, Blank(s)) + row[s.cur.x..s.cols - k];
    forall id: nat | id > 0 ensures Count(r, id) <= Count(row, id) {
      OpenedIds(row, s.cur.x, k, s.pen.bg, id);
    }
    NewRow(s, s.cur.y, r);
  }

  lemma DeleteCharsIds(s: Scr, n: nat)
    requires Ok(s)
    ensures NoNewIds(s, DeleteChars(s, n))
  {
    hide NoNewIds, Count;
    var row := Buf(s)[s.cur.y];
    var k := Clamp(n, 1, s.cols - s.cur.x);
    var r := row[..s.cur.x] + row[s.cur.x + k..] + Rep(k, Blank(s));
    forall id: nat | id > 0 ensures Count(r, id) <= Count(row, id) {
      ClosedIds(row, s.cur.x, k, s.pen.bg, id);
    }
    NewRow(s, s.cur.y, r);
  }

  lemma {:induction false} LeadsKeeps(s: Scr, ops: seq<Op>, r: Scr)
    requires Ok(s) && Ok(r) && Leads(s, ops, r) && MarksOk(s)
    ensures MarksOk(r)
    decreases |ops|
  {
    hide Ok, Apply, MarksOk;
    if ops != [] {
      OpKeeps(s, ops[0]);
      LeadsKeeps(Apply(s, ops[0]), ops[1..], r);
    }
  }

  // ---- resize ------------------------------------------------------------------------

  lemma {:induction false} RebuiltIds(g: Grid, cols: nat, c: nat, r: nat, id: nat)
    requires GridOk(g, cols, |g|) && id > 0
    ensures GridCount(Rebuild(g, cols, c, r), id) <= GridCount(g[..Min(r, |g|)], id)
    decreases r
  {
    hide GridCount, Count;
    var nb := Rebuild(g, cols, c, r);
    NoRows(id);
    if r == 0 {
      assert nb == [] && g[..0] == [];
    } else {
      var line := RebuildLine(g, cols, c, r - 1);
      var init := Rebuild(g, cols, c, r - 1);
      assert nb == init + [line];
      GridCountAppend(init, [line], id);
      OneRow(line, id);
      RebuiltIds(g, cols, c, r - 1, id);
      if r <= |g| {
        assert g[..r] == g[..r - 1] + [g[r - 1]];
        GridCountAppend(g[..r - 1], [g[r - 1]], id);
        OneRow(g[r - 1], id);
        RebuiltLineIds(g, cols, c, r - 1, id);
      } else {
        NoIds(line, id);
      }
    }
  }

  lemma RebuiltLineIds(g: Grid, cols: nat, c: nat, y: nat, id: nat)
    requires GridOk(g, cols, |g|) && y < |g| && id > 0
    ensures Count(RebuildLine(g, cols, c, y), id) <= Count(g[y], id)
  {
    hide Count;
    var line := RebuildLine(g, cols, c, y);
    var k := Min(c, cols);
    var pad := line[k..];
    assert line == g[y][..k] + pad;
    NoIds(pad, id);
    CountAppend(g[y][..k], pad, id);
    Slices(g[y], k, k, id);
  }

  lemma ResizeKeeps(s: Scr, cols: nat, rows: nat)
    requires Ok(s) && cols <= MAX_DIM && rows <= MAX_DIM && MarksOk(s)
    ensures MarksOk(Resize(s, cols, rows))
  {
    hide GridCount, Live, MarksOk;
    var r := Resize(s, cols, rows);
    forall id: nat | id > 0 ensures GridCount(Live(r), id) <= GridCount(Live(s), id) {
      var p, a := s.bufs.primary, s.bufs.alt;
      RebuiltIds(p, s.cols, r.cols, r.rows, id);
      RebuiltIds(a, s.cols, r.cols, r.rows, id);
      GridSlices(p, Min(r.rows, s.rows), Min(r.rows, s.rows), id);
      GridSlices(a, Min(r.rows, s.rows), Min(r.rows, s.rows), id);
      LiveSplit(s, id);
      LiveSplit(r, id);
    }
    NoNewIdsKeeps(s, r);
  }

  // ---- theorems ------------------------------------------------------------------------

  lemma FreshMarks(cols: nat, rows: nat, cap: nat)
    requires cols <= MAX_DIM && rows <= MAX_DIM
    ensures MarksOk(Fresh(cols, rows, cap))
  {
    hide GridCount, Live;
    var s := Fresh(cols, rows, cap);
    forall id: nat | id > 0 ensures GridCount(Live(s), id) == 0 {
      LiveSplit(s, id);
      RebuiltIds([], 0, s.cols, s.rows, id);
      NoRows(id);
    }
  }

  /** Over every run of output and resizes from a fresh terminal, ids index the pool and no two
      live cells share one. */
  lemma {:induction false} MarksOverRuns(cols: nat, rows: nat, cap: nat, es: seq<F.Event>)
    requires cols <= MAX_DIM && rows <= MAX_DIM && F.EventsOk(es)
    ensures MarksOk(F.After(M.FreshTerm(cols, rows, cap), es).s)
  {
    var t := M.FreshTerm(cols, rows, cap);
    hide MarksOk, M.POk, Ok, Fresh, Resize;
    if es == [] {
      FreshMarks(cols, rows, cap);
    } else {
      var init, last := es[..|es| - 1], es[|es| - 1];
      MarksOverRuns(cols, rows, cap, init);
      var m := F.After(t, init);
      match last {
        case Fed(data) =>
          var v := M.Vt(m.p, m.s, M.EMPTY);
          var ops := RunOps(v, data);
          LeadsKeeps(m.s, ops, M.Run(v, data).s);
        case Resized(c, r) => ResizeKeeps(m.s, c, r);
      }
    }
  }

  /** The row of `Live` that holds the base cell. */
  function BaseRow(s: Scr): nat
    requires Ok(s) && HasBase(s)
  {
    Kept(s) + (if s.bufs.inAlt then s.rows else 0) + s.base.y
  }

  lemma BaseIsLive(s: Scr)
    requires Ok(s) && HasBase(s)
    ensures BaseRow(s) < |Live(s)| && Live(s)[BaseRow(s)] == Buf(s)[s.base.y]
  {
  }

  /** A live cell's id names a pool entry. */
  lemma IdInPool(s: Scr, y: nat, x: nat)
    requires Ok(s) && MarksOk(s) && y < |Live(s)| && x < |Live(s)[y]|
    ensures Live(s)[y][x].combo <= |s.pool|
  {
    hide GridCount, Live, Count;
    GridIdAt(Live(s), y, x);
  }

  /** A live cell that is not the base carries another id, or none. */
  lemma OtherCellOtherId(s: Scr, y: nat, x: nat)
    requires Ok(s) && MarksOk(s) && HasBase(s)
    requires y < |Live(s)| && x < |Live(s)[y]| && !(y == BaseRow(s) && x == s.base.x)
    ensures var c := Live(s)[y][x].combo;
            c <= |s.pool| && (c != 0 ==> c != Buf(s)[s.base.y][s.base.x].combo)
  {
    BaseIsLive(s);
    hide GridCount, Live, Count;
    IdInPool(s, y, x);
    var c := Live(s)[y][x].combo;
    if c == Buf(s)[s.base.y][s.base.x].combo {
      TwiceIn(Live(s), y, x, BaseRow(s), s.base.x);
    }
  }

  /** A mark leaves every cell but the base as it was, ... */
  lemma MarkKeepsCells(s: Scr, cp: nat, y: nat, x: nat)
    requires Ok(s) && HasBase(s) && y < |Live(s)| && x < |Live(s)[y]| && !(y == BaseRow(s) && x == s.base.x)
    ensures var r := AttachMark(s, cp);
            |Live(r)| == |Live(s)| && |Live(r)[y]| == |Live(s)[y]| && Live(r)[y][x] == Live(s)[y][x]
  {
  }

  /** ... and every pool entry but the base's. */
  lemma MarkKeepsEntries(s: Scr, cp: nat, id: nat)
    requires Ok(s) && HasBase(s) && 1 <= id <= |s.pool| && id != Buf(s)[s.base.y][s.base.x].combo
    ensures id <= |AttachMark(s, cp).pool| && AttachMark(s, cp).pool[id - 1] == s.pool[id - 1]
  {
  }

  /** A mark changes the text of no live cell but the one it joins. */
  lemma MarkTouchesOneCell(s: Scr, cp: nat, y: nat, x: nat)
    requires Ok(s) && MarksOk(s) && HasBase(s)
    requires y < |Live(s)| && x < |Live(s)[y]| && !(y == BaseRow(s) && x == s.base.x)
    ensures var r := AttachMark(s, cp);
            && |Live(r)| == |Live(s)| && |Live(r)[y]| == |Live(s)[y]|
            && CellText(r.pool, Live(r)[y][x]) == CellText(s.pool, Live(s)[y][x])
  {
    hide MarksOk, Ok, AttachMark, Live, HasBase, Buf;
    OtherCellOtherId(s, y, x);
    MarkKeepsCells(s, cp, y, x);
    var id := Live(s)[y][x].combo;
    if id != 0 { MarkKeepsEntries(s, cp, id); }
  }

  /** The base cell gains exactly the mark, unless the pool or its string is full. */
  lemma MarkJoinsBase(s: Scr, cp: nat)
    requires Ok(s) && MarksOk(s) && HasBase(s) && IsScalar(cp)
    ensures Buf(s)[s.base.y][s.base.x].combo <= |s.pool|
    ensures var r := AttachMark(s, cp);
            var before := Buf(s)[s.base.y][s.base.x];
            var after := Buf(r)[s.base.y][s.base.x];
            var room := if before.combo == 0 then |s.pool| < 1_000_000
                        else |s.pool[before.combo - 1]| < 16;
            && after.(combo := 0) == before.(combo := 0)
            && (before.width != 0 ==>
                  CellText(r.pool, after) == CellText(s.pool, before) + (if room then [cp] else []))
  {
    BaseIsLive(s);
    IdInPool(s, BaseRow(s), s.base.x);
  }
}
