/** When a full reset gives back what a fresh terminal shows. */
module ResetLaws {
  import opened Cells
  import opened ScreenModel

  /** What can be seen of a screen: the active grid and the combining marks its cells refer to,
      cursor, rendition, modes, scroll region, and the lines and prompt marks that can be scrolled
      back to. Tab stops and the saved cursor show
      only in what later output does. */
  datatype Shown = Shown(
    inAlt: bool, grid: Grid, pool: seq<seq<nat>>, cur: Cursor, pen: Pen, modes: Modes, reg: Region, history: seq<Line>,
    marks: seq<(int, Option<int>)>)

  function ShownBy(s: Scr): Shown
    requires Ok(s)
  {
    Shown(s.bufs.inAlt, Buf(s), s.pool, s.cur, s.pen, s.modes, s.reg, Hist(s), PromptMarks(s))
  }

  /** What leaving the alternate screen would restore is the initial cursor state. */
  predicate PlainSaved(s: Scr)
    requires Ok(s)
  {
    && Min(s.saved.cx, s.cols - 1) == 0 && Min(s.saved.cy, s.rows - 1) == 0
    && s.saved.pen == DEFAULT_PEN && !s.saved.origin
  }

  /** What is left of the screen just before it is wiped. */
  function BeforeWipe(s: Scr): (r: Scr)
    requires Ok(s)
    ensures Ok(r)
  {
    var s1 := ResetModes(s);
    if s1.bufs.inAlt then SetAltScreen(s1, false) else s1
  }

  lemma BeforeWipeIs(s: Scr)
    requires Ok(s)
    ensures var r := BeforeWipe(s);
            && !r.bufs.inAlt && r.cols == s.cols && r.rows == s.rows && r.reg == Region(0, s.rows - 1)
            && r.hist == s.hist && !r.cur.wrap
            && (r.cur == Cursor(0, 0, false) && r.pen == DEFAULT_PEN && r.modes == DEFAULT_MODES
                <==> (s.bufs.inAlt ==> PlainSaved(s)))
  {
  }

  lemma WipedGrid(s: Scr)
    requires Ok(s) && !s.bufs.inAlt
    ensures var r := EraseInDisplay(s, 2);
            && r.bufs.primary == Rep(s.rows, BlankLine(s))
            && r == s.(bufs := s.bufs.(primary := r.bufs.primary), cur := MoveTo(s, s.cur.x, s.cur.y).cur)
  {
    var g := EraseInDisplay(s, 2).bufs.primary;
    assert forall y :: 0 <= y < s.rows ==> g[y] == BlankLine(s);
  }

  /** What a screen wiped in some rendition, without history, shows. */
  function Cleared(cols: nat, rows: nat, cur: Cursor, pen: Pen, modes: Modes): Shown
    requires rows >= 1
  {
    Shown(false, Rep(rows, Rep(cols, BlankCell(pen.bg))), [], cur, pen, modes, Region(0, rows - 1), [], [])
  }

  /** That is what a fresh one shows exactly when cursor, rendition and modes are the initial ones. */
  lemma WipedFresh(cols: nat, rows: nat, cur: Cursor, pen: Pen, modes: Modes)
    requires rows >= 1
    ensures Cleared(cols, rows, cur, pen, modes) == Cleared(cols, rows, Cursor(0, 0, false), DEFAULT_PEN, DEFAULT_MODES)
            <==> cur == Cursor(0, 0, false) && pen == DEFAULT_PEN && modes == DEFAULT_MODES
  {
    var a := Cleared(cols, rows, cur, pen, modes);
    var b := Cleared(cols, rows, Cursor(0, 0, false), DEFAULT_PEN, DEFAULT_MODES);
    assert a.cur == cur && a.pen == pen && a.modes == modes;
    assert b.cur == Cursor(0, 0, false) && b.pen == DEFAULT_PEN && b.modes == DEFAULT_MODES;
    hide Cleared;
  }

  lemma FreshShown(cols: nat, rows: nat, cap: nat)
    requires 1 <= cols <= MAX_DIM && 1 <= rows <= MAX_DIM
    ensures ShownBy(Fresh(cols, rows, cap)) == Cleared(cols, rows, Cursor(0, 0, false), DEFAULT_PEN, DEFAULT_MODES)
  {
    var f := Fresh(cols, rows, cap);
    assert forall y :: 0 <= y < rows ==> f.bufs.primary[y] == Rep(cols, PLAIN_BLANK);
    assert f.bufs.primary == Rep(rows, Rep(cols, PLAIN_BLANK));
  }

  lemma ResetShows(s: Scr)
    requires Ok(s)
    ensures var r := BeforeWipe(s); ShownBy(FullReset(s)) == Cleared(s.cols, s.rows, r.cur, r.pen, r.modes)
  {
    hide SetAltScreen, EraseInDisplay, GridOk, BlankLine;
    var r := BeforeWipe(s);
    BeforeWipeIs(s);
    WipedGrid(r);
    BlankLineIs(r);
  }

  /** A full reset shows what a fresh terminal of the same size shows exactly when it is not done
      from the alternate screen, or the cursor state saved on entering it was the initial one. */
  lemma ResetIsFresh(s: Scr)
    requires Ok(s)
    ensures ShownBy(FullReset(s)) == ShownBy(Fresh(s.cols, s.rows, s.hist.cap)) <==> (s.bufs.inAlt ==> PlainSaved(s))
  {
    Bounds(s);
    hide *;
    var r := BeforeWipe(s);
    BeforeWipeIs(s);
    ResetShows(s);
    FreshShown(s.cols, s.rows, s.hist.cap);
    WipedFresh(s.cols, s.rows, r.cur, r.pen, r.modes);
  }

  lemma BlankLineIs(s: Scr)
    requires Ok(s)
    ensures BlankLine(s) == Rep(s.cols, BlankCell(s.pen.bg))
  {
  }

  /** It is not always so: leaving the alternate screen puts the cursor back where it was. */
  lemma ResetFromAlternate()
    ensures var s := SetAltScreen(MoveTo(Fresh(80, 24, 1), 5, 3), true);
            Ok(s) && FullReset(s).cur == Cursor(5, 3, false)
  {
    var f := Fresh(80, 24, 1);
    assert Ok(MoveTo(f, 5, 3));
  }

  /** Counting what does not show yet: a reset gives back the initial tab stops and saved cursor
      only where they were never changed. */
  lemma ResetRestores(s: Scr)
    requires Ok(s)
    ensures var (r, f) := (FullReset(s), Fresh(s.cols, s.rows, s.hist.cap));
            ShownBy(r) == ShownBy(f) && r.tabs == f.tabs && r.saved == f.saved
            <==> s.tabs == TabStops(s.cols) && s.saved == Saved(0, 0, DEFAULT_PEN, false)
  {
    ResetLeaves(s);
    Bounds(s);
    InitialTabs(s.cols, s.rows, s.hist.cap);
    hide FullReset, Fresh, ShownBy, GridOk, TabStops;
    ResetIsFresh(s);
  }

  /** What a reset does not touch. */
  lemma ResetLeaves(s: Scr)
    requires Ok(s)
    ensures var r := FullReset(s);
            && r.tabs == s.tabs && r.saved == s.saved && r.cols == s.cols && r.rows == s.rows
            && r.hist == History(s.hist.log, 0, s.hist.cap) && r.pool == [] && r.prompts == [] && !r.bufs.inAlt
  {
  }

  lemma InitialTabs(cols: nat, rows: nat, cap: nat)
    requires 1 <= cols <= MAX_DIM && 1 <= rows <= MAX_DIM
    ensures var f := Fresh(cols, rows, cap); f.tabs == TabStops(cols) && f.saved == Saved(0, 0, DEFAULT_PEN, false)
  {
  }

  /** On the primary screen too: after CSI 3 g and ESC c the screen shows what a fresh one shows,
      yet a tab runs to the last column instead of column 8. */
  lemma ResetKeepsTabs()
    ensures var (f, s) := (Fresh(80, 24, 1), ClearAllTabs(Fresh(80, 24, 1)));
            ShownBy(FullReset(s)) == ShownBy(f) && Tab(FullReset(s)).cur.x == 79 && Tab(f).cur.x == 8
  {
    hide Tab, FullReset, Fresh, GridOk, ShownBy, PlainSaved;
    var f := Fresh(80, 24, 1);
    FreshIs(80, 24, 1);
    var s := ClearAllTabs(f);
    ResetIsFresh(s);
    ResetLeaves(s);
    SameCursor(FullReset(s), f);
    TabRuns(FullReset(s), 79);
    TabRuns(f, 8);
  }

  lemma FreshIs(cols: nat, rows: nat, cap: nat)
    requires 1 <= cols <= MAX_DIM && 1 <= rows <= MAX_DIM
    ensures var f := Fresh(cols, rows, cap);
            f.cols == cols && f.rows == rows && f.hist.cap == Max(cap, 1) && f.tabs == TabStops(cols)
            && f.cur == Cursor(0, 0, false) && !f.bufs.inAlt
  {
  }

  lemma SameCursor(r: Scr, f: Scr)
    requires Ok(r) && Ok(f) && ShownBy(r) == ShownBy(f)
    ensures r.cur == f.cur
  {
    hide Ok, Hist, PromptMarks;
  }

  /** From column 0, a tab goes to the one stop at x if the columns before it have none. */
  lemma TabRuns(s: Scr, x: nat)
    requires Ok(s) && s.cur.x == 0 && 0 < x < s.cols && (forall i :: 0 < i < x ==> !s.tabs[i])
    requires x == s.cols - 1 || s.tabs[x]
    ensures Tab(s).cur.x == x
  {
    StopRuns(s.tabs, 1, x);
  }

  lemma {:induction false} StopRuns(tabs: seq<bool>, x: nat, stop: nat)
    requires 0 < x <= stop < |tabs| && (forall i :: x <= i < stop ==> !tabs[i])
    requires stop == |tabs| - 1 || tabs[stop]
    ensures NextStop(tabs, x) == stop
    decreases stop - x
  {
    if x < stop { StopRuns(tabs, x + 1, stop); }
  }
}
