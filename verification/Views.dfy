/** What a pane shows at each scroll offset, row by row. */
module Views {
  import opened Cells
  import opened ScreenModel
  import opened HistoryLaws
  import L = Layouts

  /** All that can be shown: the lines kept, oldest first, then the active grid. */
  function Sheet(s: Scr): Grid
    requires Ok(s)
  {
    Hist(s) + Buf(s)
  }

  /** The picture at an offset is the part of the sheet that starts that many lines above the grid,
      or at the oldest line kept: as many rows as the screen has, top to bottom. */
  lemma ViewIsPart(s: Scr, off: nat)
    requires Ok(s)
    ensures var top := Kept(s) - Min(off, Kept(s));
            |Sheet(s)| == Kept(s) + s.rows && Viewport(s, off) == Sheet(s)[top..top + s.rows]
  {
    Bounds(s);
    var top := Kept(s) - Min(off, Kept(s));
    assert |Sheet(s)| == Kept(s) + s.rows;
    forall r | 0 <= r < s.rows ensures Viewport(s, off)[r] == Sheet(s)[top + r] {
      assert Viewport(s, off)[r] == ViewRow(s, Min(off, Kept(s)), r);
    }
    hide ViewRow, Hist, Buf;
    assert |Viewport(s, off)| == |Sheet(s)[top..top + s.rows]|;
  }

  /** Each row shown is the line that text extraction reads at the same place. */
  lemma ViewIsLine(s: Scr, off: nat, r: nat)
    requires Ok(s) && r < s.rows
    ensures AbsLine(s, Kept(s) - Min(off, Kept(s)) + r) == Some(Viewport(s, off)[r])
  {
    assert Viewport(s, off)[r] == ViewRow(s, Min(off, Kept(s)), r);
  }

  /** Not scrolled back, a pane shows the active grid. */
  lemma UnscrolledShowsGrid(s: Scr)
    requires Ok(s)
    ensures Viewport(s, 0) == Buf(s)
  {
    ViewIsPart(s, 0);
    Bounds(s);
  }

  /** One line further back, every row moves down by one and an older line comes in on top. */
  lemma ScrollShiftsView(s: Scr, off: nat)
    requires Ok(s) && off < Kept(s)
    ensures Viewport(s, off + 1) == [Hist(s)[Kept(s) - off - 1]] + Viewport(s, off)[..s.rows - 1]
  {
    Bounds(s);
    ViewIsPart(s, off);
    ViewIsPart(s, off + 1);
    var top := Kept(s) - off;
    assert Sheet(s)[top - 1] == Hist(s)[top - 1];
    hide Viewport, Hist, Buf, Kept;
    assert Sheet(s)[top - 1..top - 1 + s.rows] == [Sheet(s)[top - 1]] + Sheet(s)[top..top + s.rows - 1];
    assert Sheet(s)[top..top + s.rows][..s.rows - 1] == Sheet(s)[top..top + s.rows - 1];
  }

  /** The user scrolls by so many lines, up to the oldest line and down to the grid; scrolling back
      by as many gives the view again unless one of these ends was met. */
  lemma ScrollMoves(v: L.View, s: Scr, lines: int)
    requires Ok(s) && v.off <= Kept(s)
    ensures var r := ScrollBy(v, s, lines);
            && r.last == v.last
            && (0 <= v.off + lines <= Kept(s) ==> r.off == v.off + lines && ScrollBy(r, s, -lines) == v)
            && (v.off + lines < 0 ==> r.off == 0) && (v.off + lines > Kept(s) ==> r.off == Kept(s))
  {
  }
}
