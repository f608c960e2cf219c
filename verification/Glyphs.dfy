/** What printing one code point does to the screen, cell by cell, for every width and mode. */
module Glyphs {
  import opened Cells
  import opened ScreenModel
  import C = Combining

  /** The glyph goes where the cursor is: no wrap is pending, and a wide one is not in the last
      column with auto-wrap on. */
  predicate Stays(s: Scr, w: nat) {
    !s.cur.wrap && !(w == 2 && s.cur.x + 1 == s.cols && s.modes.autoWrap)
  }

  /** The cursor's row after a glyph of width w is printed at the cursor: its lead cell, for a wide
      one the slot behind it if the row has one, and in insert mode the cells from the cursor on
      moved right by w, those past the edge lost. */
  function PrintedCell(s: Scr, cp: nat, w: nat, row: Line, x: nat): Cell
    requires x < |row|
  {
    var at := s.cur.x;
    if x == at then Cell(cp, s.pen, w, 0)
    else if w == 2 && x == at + 1 then Cell(0, s.pen, 0, 0)
    else if s.modes.insert && x >= at + w then row[x - w]
    else row[x]
  }

  lemma PlacedCell(s: Scr, cp: nat, w: nat, row: Line, x: nat)
    requires s.cur.x < |row| && x < |row| && 1 <= w <= 2
    ensures PlacedRow(row, s.cur.x, w, s.modes.insert, cp, s.pen)[x] == PrintedCell(s, cp, w, row, x)
  {
    var at := s.cur.x;
    var moved := if s.modes.insert && at + w <= |row| then row[..at + w] + row[at..|row| - w] else row;
    assert |moved| == |row|;
    assert x != at && !(w == 2 && x == at + 1) ==>
      moved[x] == if s.modes.insert && x >= at + w then row[x - w] else row[x];
  }

  lemma PutIsPlace(s: Scr, cp: nat)
    requires Ok(s) && WidthOf(cp) >= 1 && Stays(s, WidthOf(cp))
    ensures PutRune(s, cp) == Place(s, cp, WidthOf(cp))
  {
    hide Place, AttachMark, Index, GridOk;
  }

  /** A glyph printed at the cursor: the cells of its row are as described, all other rows, the
      other grid, history and marks stay, and the cursor moves on by the glyph's width, or stops in
      the last column, where with auto-wrap the next glyph will wrap. */
  lemma PrintedExactly(s: Scr, cp: nat)
    requires Ok(s) && WidthOf(cp) >= 1 && Stays(s, WidthOf(cp))
    ensures var (r, w, x, y) := (PutRune(s, cp), WidthOf(cp), s.cur.x, s.cur.y);
            && r == WithBuf(s, Buf(r)).(cur := r.cur, base := Base(x, y))
            && Buf(r) == Buf(s)[y := Buf(r)[y]] && |Buf(r)[y]| == s.cols
            && (forall u :: 0 <= u < s.cols ==> Buf(r)[y][u] == PrintedCell(s, cp, w, Buf(s)[y], u))
            && r.cur == if x + w < s.cols then Cursor(x + w, y, false) else Cursor(s.cols - 1, y, s.modes.autoWrap)
  {
    var (w, y) := (WidthOf(cp), s.cur.y);
    PutIsPlace(s, cp);
    var row := Buf(s)[y];
    forall u | 0 <= u < s.cols
      ensures PlacedRow(row, s.cur.x, w, s.modes.insert, cp, s.pen)[u] == PrintedCell(s, cp, w, row, u)
    {
      PlacedCell(s, cp, w, row, u);
    }
    hide PlacedRow, PutRune, GridOk;
  }

  /** A glyph that does not stay goes to the first column of the next line, as after CR and LF. (On
      a screen of one column a wide glyph never stays; it takes a line of its own.) */
  lemma WrapsFirst(s: Scr, cp: nat)
    requires Ok(s) && WidthOf(cp) >= 1 && !Stays(s, WidthOf(cp)) && (WidthOf(cp) == 1 || s.cols >= 2)
    ensures NextLine(s).cur.x == 0 && !NextLine(s).cur.wrap && PutRune(s, cp) == PutRune(NextLine(s), cp)
  {
    NextLineHome(s);
    PutIsPlace(NextLine(s), cp);
    if s.cur.wrap {
      WrapPending(s, cp);
    } else {
      WideAtEdge(s, cp);
    }
    hide PutRune, NextLine, Place, Ok;
  }

  lemma WrapPending(s: Scr, cp: nat)
    requires Ok(s) && WidthOf(cp) >= 1 && s.cur.wrap && Stays(NextLine(s), WidthOf(cp))
    ensures PutRune(s, cp) == Place(NextLine(s), cp, WidthOf(cp))
  {
    assert Wrapped(s) == NextLine(s);
    hide Place, AttachMark, Index, Wrapped, NextLine, Ok;
  }

  lemma WideAtEdge(s: Scr, cp: nat)
    requires Ok(s) && WidthOf(cp) == 2 && !s.cur.wrap && s.cur.x + 1 == s.cols && s.modes.autoWrap
    ensures PutRune(s, cp) == Place(NextLine(s), cp, 2)
  {
    assert Index(MoveTo(s, 0, s.cur.y)) == NextLine(s);
    hide Place, AttachMark, Index, NextLine, GridOk;
  }

  lemma NextLineHome(s: Scr)
    requires Ok(s)
    ensures NextLine(s).cur.x == 0 && !NextLine(s).cur.wrap && NextLine(s).cols == s.cols
    ensures NextLine(s).modes == s.modes
  {
    hide ScrollUp;
    ScrollUpKeeps(MoveTo(CarriageReturn(s), 0, s.cur.y), 1);
  }

  lemma ScrollUpKeeps(s: Scr, n: nat)
    requires Ok(s)
    ensures ScrollUp(s, n).cur == s.cur && ScrollUp(s, n).cols == s.cols && ScrollUp(s, n).modes == s.modes
    ensures ScrollUp(s, n).pool == s.pool && ScrollUp(s, n).pen == s.pen && ScrollUp(s, n).rows == s.rows
  {
  }

  /** A wide glyph in the last column, with auto-wrap: the column stays as it is, and the glyph
      takes the first two columns of the next line. */
  lemma WideWraps(s: Scr, cp: nat)
    requires Ok(s) && WidthOf(cp) == 2 && s.cols >= 2 && s.modes.autoWrap
    requires !s.cur.wrap && s.cur.x == s.cols - 1 && s.cur.y != s.reg.bot && s.cur.y + 1 < s.rows
    ensures var (r, y) := (PutRune(s, cp), s.cur.y);
            && Buf(r)[y] == Buf(s)[y] && |Buf(r)[y + 1]| == s.cols
            && Buf(r)[y + 1][0] == Cell(cp, s.pen, 2, 0) && Buf(r)[y + 1][1] == Cell(0, s.pen, 0, 0)
            && r.cur == if s.cols > 2 then Cursor(2, y + 1, false) else Cursor(1, y + 1, true)
  {
    WrapsFirst(s, cp);
    NextLineDown(s);
    var m := NextLine(s);
    PrintedExactly(m, cp);
    hide PutRune, NextLine, GridOk;
    assert Buf(PutRune(m, cp))[s.cur.y] == Buf(m)[s.cur.y];
  }

  lemma NextLineDown(s: Scr)
    requires Ok(s) && s.cur.y != s.reg.bot && s.cur.y + 1 < s.rows
    ensures NextLine(s) == MoveTo(s, 0, s.cur.y + 1)
  {
  }

  // ---- combining marks after a glyph --------------------------------------------------------------

  /** A scalar of width 0 that joins the glyph before it. */
  predicate IsMark(cp: nat) { IsScalar(cp) && WidthOf(cp) == 0 }

  lemma BaseAfterGlyph(s: Scr, cp: nat)
    requires Ok(s) && WidthOf(cp) >= 1 && Stays(s, WidthOf(cp)) && cp != 0
    ensures var r := PutRune(s, cp);
            && HasBase(r) && r.base == Base(s.cur.x, s.cur.y) && r.pool == s.pool
            && Buf(r)[s.cur.y][s.cur.x] == Cell(cp, s.pen, WidthOf(cp), 0)
  {
    PrintedExactly(s, cp);
    hide PutRune;
  }

  lemma MarkIsAttached(s: Scr, mark: nat)
    requires Ok(s) && WidthOf(mark) == 0
    ensures PutRune(s, mark) == AttachMark(s, mark)
  {
    hide Place, AttachMark, Index;
  }

  /** A glyph and then a mark: the glyph's cell reads as the two, as long as the pool has room. */
  lemma GlyphThenMark(s: Scr, cp: nat, mark: nat)
    requires Ok(s) && C.MarksOk(s) && |s.pool| < MAX_MARKS
    requires IsScalar(cp) && WidthOf(cp) >= 1 && Stays(s, WidthOf(cp)) && cp != 0 && IsMark(mark)
    ensures var r := PutRune(PutRune(s, cp), mark);
            && GridOk(Buf(r), s.cols, s.rows)
            && CellText(r.pool, Buf(r)[s.cur.y][s.cur.x]) == [cp, mark]
  {
    var m := PutRune(s, cp);
    BaseAfterGlyph(s, cp);
    MarkIsAttached(m, mark);
    FreshMark(m, mark);
    hide PutRune, AttachMark, C.MarksOk;
  }

  lemma FreshMark(m: Scr, mark: nat)
    requires Ok(m) && HasBase(m) && IsScalar(mark) && |m.pool| < MAX_MARKS
    requires var c := Buf(m)[m.base.y][m.base.x]; c.combo == 0 && IsScalar(c.rune) && c.width != 0
    ensures var r := AttachMark(m, mark);
            && GridOk(Buf(r), m.cols, m.rows) && r.cols == m.cols && r.rows == m.rows
            && CellText(r.pool, Buf(r)[m.base.y][m.base.x]) == [Buf(m)[m.base.y][m.base.x].rune, mark]
  {
    var r := AttachMark(m, mark);
    assert r.pool[|m.pool|] == [mark];
  }

  /** Widths of whole blocks: Latin, Greek, Cyrillic and box drawing take one column, ideographs, kana,
      Hangul, full-width forms and emoji two, accents, joiners and control characters none. */
  lemma SomeWidths()
    ensures WidthOf(0x61) == WidthOf(0xE9) == WidthOf(0x2500) == WidthOf(0x20AC) == 1
    ensures WidthOf(0x4E2D) == WidthOf(0x3042) == WidthOf(0xAC00) == WidthOf(0x1F600) == WidthOf(0xFF21) == 2
    ensures WidthOf(0x301) == WidthOf(0x200D) == WidthOf(0xFE0F) == WidthOf(0x7F) == WidthOf(0x9B) == 0
    ensures forall cp :: 0xAC00 <= cp <= 0xD7A3 || 0x4E00 <= cp <= 0x9FFF || 0x3041 <= cp <= 0x30FF ==> WidthOf(cp) == 2
    ensures forall cp :: 0xFF01 <= cp <= 0xFF60 || 0x1F300 <= cp <= 0x1FAFF ==> WidthOf(cp) == 2
    ensures forall cp :: 0x20000 <= cp <= 0x3FFFD ==> WidthOf(cp) == 2
    ensures forall cp :: 0x0300 <= cp <= 0x036F || 0xFE00 <= cp <= 0xFE0F ==> WidthOf(cp) == 0
    ensures forall cp :: 0x7F <= cp < 0xA0 || 0 <= cp < 0x20 ==> WidthOf(cp) == 0
    ensures forall cp :: 0x20 <= cp < 0x7F || 0xA0 <= cp < 0x0300 || 0x0370 <= cp < 0x1100 ==> WidthOf(cp) == 1
  {
  }
}
