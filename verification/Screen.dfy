/** The scrollback ring and the screen as mutable objects, each method proved against the
    function of the same name in ScreenModel.dfy. */
module ScreenMachine {
  import opened Cells
  import M = ScreenModel

  /** Fixed-capacity ring of scrollback lines, index 0 the oldest. */
  class Scrollback {
    const ring: array<Option<Line>>
    var start: nat
    var count: nat

    /** The lines held, oldest first. */
    ghost var contents: seq<Line>

    /** Where line i sits in the ring: `(start + i) % ring.Length`, without the division. */
    ghost function Slot(i: nat): nat
      reads this
    {
      if start + i < ring.Length then start + i else start + i - ring.Length
    }

    ghost predicate Valid()
      reads this, ring
    {
      && start < ring.Length && count <= ring.Length
      && |contents| == count
      && forall i :: 0 <= i < count ==> ring[Slot(i)] == Some(contents[i])
    }

    constructor (capacity: nat)
      ensures Valid() && fresh(ring)
      ensures ring.Length == Max(capacity, 1) && contents == []
    {
      ring := new Option<Line>[Max(capacity, 1)](_ => None);
      start := 0;
      count := 0;
      contents := [];
    }

    method Get(i: nat) returns (line: Line)
      requires Valid() && i < count
      ensures line == contents[i]
    {
      WrapIndex(start + i, ring.Length);
      assert ring[Slot(i)] == Some(contents[i]);
      line := ring[(start + i) % ring.Length].value;
    }

    /** Appends a line; a full ring gives up its oldest one. */
    method Push(line: Line) returns (evicted: Option<Line>)
      requires Valid()
      modifies this, ring
      ensures Valid()
      ensures old(count) < ring.Length ==> evicted == None && contents == old(contents) + [line]
      ensures old(count) == ring.Length ==>
        evicted == Some(old(contents)[0]) && contents == old(contents)[1..] + [line]
    {
      var cap := ring.Length;
      if count < cap {
        WrapIndex(start + count, cap);
        ring[(start + count) % cap] := Some(line);
        count := count + 1;
        contents := contents + [line];
        evicted := None;
      } else {
        assert ring[Slot(0)] == Some(contents[0]);
        evicted := ring[start];
        ring[start] := Some(line);
        WrapIndex(start + 1, cap);
        start := (start + 1) % cap;
        contents := contents[1..] + [line];
      }
    }

    method Clear()
      requires Valid()
      modifies this, ring
      ensures Valid() && contents == []
    {
      var i := 0;
      while i < ring.Length
        invariant i <= ring.Length
      {
        ring[i] := None;
        i := i + 1;
      }
      start := 0;
      count := 0;
      contents := [];
    }
  }

  lemma WrapIndex(a: nat, n: nat)
    requires 0 < n && a < 2 * n
    ensures a % n == if a < n then a else a - n
  {
    if a >= n {
      assert a == 1 * n + (a - n);
    }
  }

  class Screen {
    var cols: nat
    var rows: nat
    var bufs: M.Bufs
    var cur: M.Cursor
    var pen: Pen
    var reg: M.Region
    var saved: M.Saved
    var tabs: seq<bool>
    const scrollback: Scrollback
    var scrolledTotal: nat
    var pool: seq<seq<nat>>
    var prompts: seq<M.Prompt>
    var base: M.Base
    var modes: M.Modes

    /** Every line ever pushed into history, and how many of them since the last clear. */
    ghost var hist: M.History

    ghost function State(): M.Scr
      reads this
    {
      M.Scr(cols, rows, bufs, cur, pen, reg, saved, tabs, hist, pool, prompts, base, modes)
    }

    /** The ring holds exactly the tail of the log, and the counter is the log's length. */
    ghost predicate RingMatches()
      reads this, scrollback, scrollback.ring
    {
      && hist.since <= |hist.log| && hist.cap == scrollback.ring.Length
      && scrollback.Valid()
      && scrollback.contents == M.LastN(hist.log, Min(hist.cap, hist.since))
      && scrolledTotal == |hist.log|
    }

    ghost predicate Valid()
      reads this, scrollback, scrollback.ring
    {
      M.Ok(State()) && RingMatches()
    }

    constructor (cols: nat, rows: nat, capacity: nat)
      requires cols <= M.MAX_DIM && rows <= M.MAX_DIM
      ensures State() == M.Fresh(cols, rows, capacity)
      ensures Valid() && fresh(scrollback) && fresh(scrollback.ring)
    {
      this.cols, this.rows := 0, 0;
      bufs := M.Bufs(false, [], []);
      cur := M.Cursor(0, 0, false);
      pen := DEFAULT_PEN;
      reg := M.Region(0, 0);
      saved := M.Saved(0, 0, DEFAULT_PEN, false);
      tabs := [];
      scrollback := new Scrollback(capacity);
      scrolledTotal := 0;
      pool, prompts := [], [];
      base := M.Base(-1, -1);
      modes := M.DEFAULT_MODES;
      hist := M.History([], 0, Max(capacity, 1));
      new;
      assert State() == M.Empty(capacity);
      Resize(cols, rows);
    }

    function Buf(): Grid
      reads this
    {
      if bufs.inAlt then bufs.alt else bufs.primary
    }

    method SetBuf(g: Grid)
      modifies this`bufs
      ensures State() == M.WithBuf(old(State()), g)
    {
      if bufs.inAlt {
        bufs := bufs.(alt := g);
      } else {
        bufs := bufs.(primary := g);
      }
    }

    method SetRow(y: nat, row: Line)
      requires Valid() && y < rows && |row| == cols
      modifies this`bufs
      ensures State() == M.WithRow(old(State()), y, row)
      ensures Valid()
    {
      SetBuf(Buf()[y := row]);
    }

    /** A grid copied into a rows x cols frame, padded with blanks. */
    method RebuildGrid(was: Grid, cols: nat, rows: nat) returns (g: Grid)
      requires was != [] ==> GridOk(was, |was[0]|, |was|)
      ensures g == M.Rebuild(was, if was == [] then 0 else |was[0]|, cols, rows)
    {
      var wasCols := if was == [] then 0 else |was[0]|;
      g := [];
      for r := 0 to rows
        invariant |g| == r
        invariant forall k :: 0 <= k < r ==> g[k] == M.RebuildLine(was, wasCols, cols, k)
      {
        var line: Line := [];
        for c := 0 to cols
          invariant |line| == c
          invariant line == M.RebuildLine(was, wasCols, cols, r)[..c]
        {
          line := line + [if r < |was| && c < wasCols then was[r][c] else M.PLAIN_BLANK];
        }
        g := g + [line];
      }
    }

    method Resize(newCols: nat, newRows: nat)
      requires M.Resizable(State()) && RingMatches()
      requires newCols <= M.MAX_DIM && newRows <= M.MAX_DIM
      modifies this
      ensures State() == M.Resize(old(State()), newCols, newRows)
      ensures Valid()
    {
      var c := Max(newCols, 1);
      var r := Max(newRows, 1);
      RebuildAgrees(bufs.primary, cols, rows, c, r);
      RebuildAgrees(bufs.alt, cols, rows, c, r);
      var p := RebuildGrid(bufs.primary, c, r);
      var a := RebuildGrid(bufs.alt, c, r);
      SetFrame(c, r, M.Bufs(bufs.inAlt, p, a));
    }

    method SetFrame(c: nat, r: nat, grids: M.Bufs)
      requires 1 <= c && 1 <= r
      modifies this`cols, this`rows, this`bufs, this`reg, this`cur, this`tabs
      ensures State() == M.Framed(old(State()), c, r, grids)
    {
      bufs := grids;
      cols := c;
      rows := r;
      reg := M.Region(0, r - 1);
      cur := M.Cursor(Min(cur.x, c - 1), Min(cur.y, r - 1), false);
      tabs := M.TabStops(c);
    }

    // ---- printing --------------------------------------------------------

    method PutRune(cp: nat)
      requires Valid()
      modifies this, scrollback, scrollback.ring
      ensures State() == M.PutRune(old(State()), cp)
      ensures Valid()
    {
      var w := WidthOf(cp);
      if w == 0 {
        AttachMark(cp);
        return;
      }
      if cur.wrap {
        CarriageReturn();
        Index();
      }
      if w == 2 && cur.x == cols - 1 && modes.autoWrap {
        CarriageReturn();
        Index();
      }
      Place(cp, w);
    }

    method AttachMark(cp: nat)
      requires Valid()
      modifies this
      ensures State() == M.AttachMark(old(State()), cp)
      ensures Valid()
    {
      if 0 <= base.x < cols && 0 <= base.y < rows {
        var cell := Buf()[base.y][base.x];
        if cell.rune != 0 && IsScalar(cp) {
          if cell.combo == 0 {
            if |pool| < M.MAX_MARKS {
              pool := pool + [[cp]];
              SetRow(base.y, Buf()[base.y][base.x := cell.(combo := |pool|)]);
            }
          } else if cell.combo <= |pool| {
            var marks := pool[cell.combo - 1];
            if |marks| < M.MAX_MARK_LEN {
              pool := pool[cell.combo - 1 := marks + [cp]];
            }
          }
        }
      }
    }

    /** Writes the glyph at the cursor, shifting the row's tail right first in insert mode,
        and advances; at the right edge the wrap is deferred. */
    method Place(cp: nat, w: nat)
      requires Valid() && 1 <= w <= 2
      modifies this`bufs, this`base, this`cur
      ensures State() == M.Place(old(State()), cp, w)
      ensures Valid()
    {
      var row := PlaceGlyph(Buf()[cur.y], cur.x, w, modes.insert, cp, pen);
      SetRow(cur.y, row);
      base := M.Base(cur.x, cur.y);
      var x := cur.x + w;
      var wrap := cur.wrap;
      if x >= cols {
        x := cols - 1;
        if modes.autoWrap {
          wrap := true;
        }
      }
      cur := M.Cursor(x, cur.y, wrap);
    }

    // ---- simple cursor moves ---------------------------------------------

    method CarriageReturn()
      requires Valid()
      modifies this`cur
      ensures State() == M.CarriageReturn(old(State()))
      ensures Valid()
    {
      cur := M.Cursor(0, cur.y, false);
    }

    method Backspace()
      requires Valid()
      modifies this`cur
      ensures State() == M.Backspace(old(State()))
      ensures Valid()
    {
      var x := cur.x;
      if x > 0 {
        x := x - 1;
      }
      cur := M.Cursor(x, cur.y, false);
    }

    method Tab()
      requires Valid()
      modifies this`cur
      ensures State() == M.Tab(old(State()))
      ensures Valid()
    {
      var x := cur.x;
      if x < cols - 1 {
        x := x + 1;
        while !(x >= cols - 1 || tabs[x])
          invariant cur.x < x < cols
          invariant M.NextStop(tabs, cur.x + 1) == M.NextStop(tabs, x)
          decreases cols - x
        {
          x := x + 1;
        }
      }
      cur := M.Cursor(x, cur.y, false);
    }

    method SetTabStop(on: bool)
      requires Valid()
      modifies this`tabs
      ensures State() == M.SetTabStop(old(State()), on)
      ensures Valid()
    {
      tabs := tabs[cur.x := on];
    }

    method ClearAllTabs()
      requires Valid()
      modifies this`tabs
      ensures State() == M.ClearAllTabs(old(State()))
      ensures Valid()
    {
      var cleared := tabs;
      for i := 0 to cols
        invariant |cleared| == cols
        invariant forall k :: 0 <= k < i ==> !cleared[k]
      {
        cleared := cleared[i := false];
      }
      assert cleared == Rep(cols, false);
      tabs := cleared;
    }

    // ---- scrolling -------------------------------------------------------

    method Index()
      requires Valid()
      modifies this, scrollback, scrollback.ring
      ensures State() == M.Index(old(State()))
      ensures Valid()
    {
      cur := M.Cursor(cur.x, cur.y, false);
      if cur.y == reg.bot {
        ScrollUp(1);
      } else if cur.y < rows - 1 {
        cur := M.Cursor(cur.x, cur.y + 1, false);
      }
    }

    method ReverseIndex()
      requires Valid()
      modifies this`bufs, this`cur
      ensures State() == M.ReverseIndex(old(State()))
      ensures Valid()
    {
      cur := M.Cursor(cur.x, cur.y, false);
      if cur.y == reg.top {
        ScrollDown(1);
      } else if cur.y > 0 {
        cur := M.Cursor(cur.x, cur.y - 1, false);
      }
    }

    method NextLine()
      requires Valid()
      modifies this, scrollback, scrollback.ring
      ensures State() == M.NextLine(old(State()))
      ensures Valid()
    {
      CarriageReturn();
      Index();
    }

    method ScrollUp(n: nat)
      requires Valid()
      modifies this`bufs, this`scrolledTotal, this`hist, scrollback, scrollback.ring
      ensures State() == M.ScrollUp(old(State()), n)
      ensures Valid()
    {
      ghost var s0 := State();
      hide M.ScrollUp;
      ScrollUpNothing(s0);
      ScrollUpCapped(s0, n);
      var k := Min(n, reg.bot - reg.top + 1);
      for i := 0 to k
        invariant State() == M.ScrollUp(s0, i)
        invariant Valid()
      {
        ScrollUpOnce(s0, i);
        ScrollUpRow();
      }
    }

    /** The leaving row goes to history (or is recycled), the rows of the region rotate, and a
        cleared row enters at the bottom. */
    method ScrollUpRow()
      requires Valid()
      modifies this`bufs, this`scrolledTotal, this`hist, scrollback, scrollback.ring
      ensures State() == M.ScrollUp(old(State()), 1)
      ensures Valid()
    {
      hide M.ScrollUp, M.LastN;
      ScrollUpByOne(State());
      var leaving := Buf()[reg.top];
      var reuse := leaving;
      if !bufs.inAlt && reg.top == 0 {
        reuse := PushHistory(leaving);
      }
      var cleared := ClearLine(reuse);
      var g := RotateIn(Buf(), reg.top, reg.bot, cleared);
      SetBuf(g);
    }

    /** Counts a line into history; the evicted line, if any, is handed back for reuse. */
    method PushHistory(line: Line) returns (reuse: Line)
      requires Valid()
      modifies this`scrolledTotal, this`hist, scrollback, scrollback.ring
      ensures State() == old(State()).(hist := M.Pushed(old(hist), [line]))
      ensures Valid()
    {
      TailAfterPush(hist, line);
      scrolledTotal := scrolledTotal + 1;
      var evicted := scrollback.Push(line);
      hist := M.Pushed(hist, [line]);
      reuse := if evicted.Some? then evicted.value else [];
    }

    method ClearLine(line: Line) returns (cleared: Line)
      ensures cleared == M.BlankLine(State())
    {
      var blank := BlankCell(pen.bg);
      if |line| != cols {
        cleared := Rep(cols, blank);
      } else {
        cleared := Rep(|line|, blank);
      }
    }

    method ScrollDown(n: nat)
      requires Valid()
      modifies this`bufs
      ensures State() == M.ScrollDown(old(State()), n)
      ensures Valid()
    {
      hide M.ShiftDown;
      var k := Min(n, reg.bot - reg.top + 1);
      var g := PushDown(Buf(), reg.top, reg.bot, k, Rep(cols, BlankCell(pen.bg)));
      SetBuf(g);
    }

    // ---- cursor ----------------------------------------------------------

    function RegionTop(): nat
      reads this
    {
      if modes.origin then reg.top else 0
    }

    function RegionBot(): nat
      requires rows > 0
      reads this
    {
      if modes.origin then reg.bot else rows - 1
    }

    method CursorUp(n: nat)
      requires Valid()
      modifies this`cur
      ensures State() == M.CursorUp(old(State()), n)
      ensures Valid()
    {
      cur := M.Cursor(cur.x, Max(Max(cur.y - Max(n, 1), 0), RegionTop()), false);
    }

    method CursorDown(n: nat)
      requires Valid()
      modifies this`cur
      ensures State() == M.CursorDown(old(State()), n)
      ensures Valid()
    {
      cur := M.Cursor(cur.x, Min(M.AddWord(cur.y, Max(n, 1)), RegionBot()), false);
    }

    method CursorFwd(n: nat)
      requires Valid()
      modifies this`cur
      ensures State() == M.CursorFwd(old(State()), n)
      ensures Valid()
    {
      cur := M.Cursor(Min(M.AddWord(cur.x, Max(n, 1)), cols - 1), cur.y, false);
    }

    method CursorBack(n: nat)
      requires Valid()
      modifies this`cur
      ensures State() == M.CursorBack(old(State()), n)
      ensures Valid()
    {
      cur := M.Cursor(Max(cur.x - Max(n, 1), 0), cur.y, false);
    }

    method CursorCol(col: int)
      requires Valid()
      modifies this`cur
      ensures State() == M.CursorCol(old(State()), col)
      ensures Valid()
    {
      cur := M.Cursor(Clamp(col, 0, cols - 1), cur.y, false);
    }

    method CursorRow(row: int)
      requires Valid()
      modifies this`cur
      ensures State() == M.CursorRow(old(State()), row)
      ensures Valid()
    {
      var target := if modes.origin then RegionTop() + row else row;
      cur := M.Cursor(cur.x, Clamp(target, 0, rows - 1), false);
    }

    method CursorTo(row: int, col: int)
      requires Valid()
      modifies this`cur
      ensures State() == M.CursorTo(old(State()), row, col)
      ensures Valid()
    {
      var t, b := RegionTop(), RegionBot();
      cur := M.Cursor(Clamp(col, 0, cols - 1), Clamp(t + row, t, b), false);
    }

    // ---- erasing and shifting ---------------------------------------------

    method EraseInLine(mode: int)
      requires Valid()
      modifies this`bufs, this`cur
      ensures State() == M.EraseInLine(old(State()), mode)
      ensures Valid() && cur.y == old(cur.y)
    {
      if 0 <= mode <= 2 {
        var lo := if mode == 0 then cur.x else 0;
        var hi := if mode == 1 then cur.x + 1 else cols;
        var row := FillCells(Buf()[cur.y], lo, hi, BlankCell(pen.bg));
        SetRow(cur.y, row);
      }
      cur := M.Cursor(cur.x, cur.y, false);
    }

    method EraseInDisplay(mode: int)
      requires Valid()
      modifies this`bufs, this`cur, this`hist, this`prompts, scrollback, scrollback.ring
      ensures State() == M.EraseInDisplay(old(State()), mode)
      ensures Valid()
    {
      hide M.EraseInLine, M.WipeRows;
      if mode == 0 {
        EraseInLine(0);
        FillRows(cur.y + 1, rows);
      } else if mode == 1 {
        FillRows(0, cur.y);
        EraseInLine(1);
      } else if mode == 2 {
        FillRows(0, rows);
      } else if mode == 3 {
        ClearHistory();
      }
      cur := M.Cursor(cur.x, cur.y, false);
    }

    method ClearHistory()
      requires Valid()
      modifies this`hist, this`prompts, scrollback, scrollback.ring
      ensures State() == M.ClearHistory(old(State()))
      ensures Valid()
    {
      scrollback.Clear();
      prompts := [];
      hist := hist.(since := 0);
    }

    method FillRows(lo: nat, hi: nat)
      requires Valid() && lo <= hi <= rows
      modifies this`bufs
      ensures State() == M.WipeRows(old(State()), lo, hi)
      ensures Valid()
    {
      var g := FillGrid(Buf(), lo, hi, cols, BlankCell(pen.bg));
      SetBuf(g);
    }

    method EraseChars(n: nat)
      requires Valid()
      modifies this`bufs
      ensures State() == M.EraseChars(old(State()), n)
      ensures Valid()
    {
      var end := Min(M.AddWord(cur.x, Max(n, 1)), cols);
      var row := FillCells(Buf()[cur.y], cur.x, Max(cur.x, end), BlankCell(pen.bg));
      SetRow(cur.y, row);
    }

    method InsertChars(n: nat)
      requires Valid()
      modifies this`bufs
      ensures State() == M.InsertChars(old(State()), n)
      ensures Valid()
    {
      var row := OpenGap(Buf()[cur.y], cur.x, Clamp(n, 1, cols - cur.x), BlankCell(pen.bg));
      SetRow(cur.y, row);
    }

    method DeleteChars(n: nat)
      requires Valid()
      modifies this`bufs
      ensures State() == M.DeleteChars(old(State()), n)
      ensures Valid()
    {
      var row := CloseGap(Buf()[cur.y], cur.x, Clamp(n, 1, cols - cur.x), BlankCell(pen.bg));
      SetRow(cur.y, row);
    }

    method InsertLines(n: nat)
      requires Valid()
      modifies this`bufs
      ensures State() == M.InsertLines(old(State()), n)
      ensures Valid()
    {
      hide M.ShiftDown;
      if cur.y < reg.top || cur.y > reg.bot {
        return;
      }
      var k := Clamp(n, 1, reg.bot - cur.y + 1);
      var g := PushDown(Buf(), cur.y, reg.bot, k, Rep(cols, BlankCell(pen.bg)));
      SetBuf(g);
    }

    method DeleteLines(n: nat)
      requires Valid()
      modifies this`bufs
      ensures State() == M.DeleteLines(old(State()), n)
      ensures Valid()
    {
      hide M.ShiftUp;
      if cur.y < reg.top || cur.y > reg.bot {
        return;
      }
      var k := Clamp(n, 1, reg.bot - cur.y + 1);
      var g := PullUp(Buf(), cur.y, reg.bot, k, Rep(cols, BlankCell(pen.bg)));
      SetBuf(g);
    }

    // ---- region, saved cursor, alternate screen, reset ----------------------

    method SetScrollRegion(top0: int, bottom0: int)
      requires Valid()
      modifies this`reg, this`cur
      ensures State() == M.SetScrollRegion(old(State()), top0, bottom0)
      ensures Valid()
    {
      var t := if top0 <= 0 then 1 else top0;
      var b := if bottom0 <= 0 || bottom0 > rows then rows else bottom0;
      if t >= b {
        t := 1;
        b := rows;
      }
      reg := M.Region(t - 1, b - 1);
      CursorTo(0, 0);
    }

    method SaveCursor()
      requires Valid()
      modifies this`saved
      ensures State() == M.SaveCursor(old(State()))
      ensures Valid()
    {
      saved := M.Saved(cur.x, cur.y, pen, modes.origin);
    }

    method RestoreCursor()
      requires Valid()
      modifies this`cur, this`pen, this`modes
      ensures State() == M.RestoreCursor(old(State()))
      ensures Valid()
    {
      cur := M.Cursor(Min(saved.cx, cols - 1), Min(saved.cy, rows - 1), false);
      pen := saved.pen;
      modes := modes.(origin := saved.origin);
    }

    method SetAltScreen(on: bool)
      requires Valid()
      modifies this`saved, this`bufs, this`cur, this`pen, this`modes, this`hist, this`prompts
      modifies scrollback, scrollback.ring
      ensures State() == M.SetAltScreen(old(State()), on)
      ensures Valid()
    {
      if on == bufs.inAlt {
        return;
      }
      if on {
        SaveCursor();
        bufs := bufs.(inAlt := true);
        EraseInDisplay(2);
        cur := M.Cursor(0, 0, false);
      } else {
        bufs := bufs.(inAlt := false);
        RestoreCursor();
      }
    }

    method ResetModes()
      requires Valid()
      modifies this`pen, this`modes, this`reg, this`cur
      ensures State() == M.ResetModes(old(State()))
      ensures Valid()
    {
      pen := DEFAULT_PEN;
      modes := M.DEFAULT_MODES;
      reg := M.Region(0, rows - 1);
      cur := M.Cursor(0, 0, false);
    }

    method FullReset()
      requires Valid()
      modifies this, scrollback, scrollback.ring
      ensures State() == M.FullReset(old(State()))
      ensures Valid()
    {
      ResetModes();
      if bufs.inAlt {
        SetAltScreen(false);
      }
      EraseInDisplay(2);
      ClearHistory();
      pool := [];
    }

    method SetModes(m: M.Modes)
      requires Valid()
      modifies this`modes
      ensures State() == old(State()).(modes := m)
      ensures Valid()
    {
      modes := m;
    }

    // ---- rendition and prompts ---------------------------------------------

    method SetGraphics(p: seq<int>, colon: seq<bool>)
      requires Valid() && |p| == |colon|
      modifies this`pen
      ensures State() == M.SetGraphics(old(State()), p, colon)
      ensures Valid()
    {
      if p == [] {
        pen := DEFAULT_PEN;
        return;
      }
      var q := pen;
      var i := 0;
      while i < |p|
        invariant i <= |p|
        invariant M.Sgr(pen, p, colon, 0) == M.Sgr(q, p, colon, i)
        decreases |p| - i
      {
        if colon[i] {
          i := i + 1;
          continue;
        }
        if p[i] == 38 {
          var (j, c) := M.ExtColor(p, i, q.fg);
          q := q.(fg := c);
          i := j;
        } else if p[i] == 48 {
          var (j, c) := M.ExtColor(p, i, q.bg);
          q := q.(bg := c);
          i := j;
        } else {
          q := M.SgrCode(q, p[i], i + 1 < |p| && colon[i + 1] && p[i + 1] == 0);
        }
        i := i + 1;
      }
      pen := q;
    }

    method MarkPrompt()
      requires Valid()
      modifies this`prompts
      ensures State() == M.MarkPrompt(old(State()))
      ensures Valid()
    {
      if bufs.inAlt {
        return;
      }
      prompts := NewPrompts(prompts, scrolledTotal + cur.y, Max(scrolledTotal - scrollback.count, 0));
    }

    method MarkCmdExit(exit: int)
      requires Valid()
      modifies this`prompts
      ensures State() == M.MarkCmdExit(old(State()), exit)
      ensures Valid()
    {
      if bufs.inAlt {
        return;
      }
      var n := |prompts|;
      if n > 0 && prompts[n - 1].exit.None? {
        prompts := prompts[n - 1 := prompts[n - 1].(exit := Some(exit))];
      }
    }

    // ---- reading -----------------------------------------------------------

    method AbsLine(abs: int) returns (line: Option<Line>)
      requires Valid()
      ensures line == M.AbsLine(State(), abs)
    {
      if abs < 0 {
        return None;
      }
      if abs < scrollback.count {
        var l := scrollback.Get(abs);
        line := Some(l);
      } else {
        var i := abs - scrollback.count;
        if i < rows {
          line := Some(Buf()[i]);
        } else {
          line := None;
        }
      }
    }

    method CopyViewport(off: nat) returns (dest: Grid)
      requires Valid()
      ensures dest == M.Viewport(State(), off)
      ensures |dest| == rows && |Buf()| == rows
      ensures var sheet, top := scrollback.contents + Buf(), scrollback.count - Min(off, scrollback.count);
              forall r :: 0 <= r < rows ==> dest[r] == sheet[top + r]
    {
      ghost var v := M.Viewport(State(), off);
      assert M.Kept(State()) == scrollback.count && M.Hist(State()) == scrollback.contents;
      var o := Min(off, scrollback.count);
      var topAbs := scrollback.count - o;
      dest := [];
      for r := 0 to rows
        invariant |dest| == r
        invariant forall k :: 0 <= k < r ==> dest[k] == v[k]
      {
        var abs := topAbs + r;
        var src: Line;
        if abs < scrollback.count {
          src := scrollback.Get(abs);
        } else {
          src := Buf()[abs - scrollback.count];
        }
        dest := dest + [src];
      }
    }

    method GetText(row1: int, col1: int, row2: int, col2: int) returns (out: seq<nat>)
      requires Valid() && M.Readable(State(), row1, col1, row2, col2)
      ensures out == M.GetText(State(), row1, col1, row2, col2)
    {
      hide M.TextRows, M.Selectable;
      var r1, c1, r2, c2 := row1, col1, row2, col2;
      if r1 > r2 || (r1 == r2 && c1 > c2) {
        r1, r2 := r2, r1;
        c1, c2 := c2, c1;
      }
      out := CollectRows(r1, c1, r2, c2);
    }

    method CollectRows(r1: int, c1: int, r2: int, c2: int) returns (out: seq<nat>)
      requires Valid() && r1 <= r2 && M.Selectable(State(), r1, c1, r2, c2)
      ensures out == M.TextRows(State(), r2 - r1 + 1, r1, c1, r2, c2)
    {
      hide M.RowPiece, M.Indexable;
      out := [];
      for r := r1 to r2 + 1
        invariant out == M.TextRows(State(), r - r1, r1, c1, r2, c2)
      {
        var row := RowPiece(r, r1, c1, r2, c2);
        out := out + row;
      }
    }

    method RowPiece(r: int, r1: int, c1: int, r2: int, c2: int) returns (row: seq<nat>)
      requires Valid() && M.Indexable(State(), r, M.FirstCol(r, r1, c1), M.LastCol(State(), r, r2, c2))
      ensures row == M.RowPiece(State(), r, r1, c1, r2, c2)
    {
      hide M.LineText, M.Indexable;
      var start := if r == r1 then Max(c1, 0) else 0;
      var end := if r == r2 then Min(c2, cols - 1) else cols - 1;
      row := LineText(r, start, end);
      if r < r2 {
        row := row + M.CRLF;
      }
    }

    method LineText(r: int, start: nat, end: int) returns (text: seq<nat>)
      requires Valid() && M.Indexable(State(), r, start, end)
      ensures text == M.LineText(State(), r, start, end)
    {
      text := [];
      var line := AbsLine(r);
      if line.Some? && start <= end {
        text := CollectText(pool, line.value[start..end + 1]);
      }
      text := TrimBlanks(text);
    }

    /** Prompt marks as (absolute row, exit), oldest first; marks off the kept rows are skipped. */
    method PromptMarks() returns (marks: seq<(int, Option<int>)>)
      requires Valid()
      ensures marks == M.PromptMarks(State())
    {
      var base := scrolledTotal - scrollback.count;
      var limit := scrollback.count + rows;
      marks := [];
      for k := 0 to |prompts|
        invariant marks == M.PromptMarksIn(prompts[..k], base, limit)
      {
        assert prompts[..k + 1][..k] == prompts[..k];
        var abs := prompts[k].line - base;
        if 0 <= abs < limit {
          marks := marks + [(abs, prompts[k].exit)];
        }
      }
      assert prompts[..|prompts|] == prompts;
    }
  }

  // ---- row and grid primitives ------------------------------------------------

  /** row[lo..hi] overwritten cell by cell. */
  method FillCells(line: Line, lo: nat, hi: nat, blank: Cell) returns (row: Line)
    requires lo <= hi <= |line|
    ensures row == M.Wiped(line, lo, hi, blank)
  {
    row := line;
    for c := lo to hi
      invariant row == line[..lo] + Rep(c - lo, blank) + line[c..]
    {
      row := row[c := blank];
    }
  }

  /** Rows lo..hi-1 filled cell by cell. */
  method FillGrid(was: Grid, lo: nat, hi: nat, cols: nat, blank: Cell) returns (g: Grid)
    requires lo <= hi <= |was| && GridOk(was, cols, |was|)
    ensures g == was[..lo] + Rep(hi - lo, Rep(cols, blank)) + was[hi..]
  {
    g := was;
    for r := lo to hi
      invariant g == was[..lo] + Rep(r - lo, Rep(cols, blank)) + was[r..]
    {
      var row := FillCells(was[r], 0, cols, blank);
      assert row == Rep(cols, blank);
      g := g[r := row];
    }
  }

  /** Cells from `at` on move right by k, last cell first. */
  method ShiftTail(line: Line, at: nat, k: nat) returns (row: Line)
    requires at < |line| && k >= 1
    ensures row == if at + k <= |line| then line[..at + k] + line[at..|line| - k] else line
  {
    row := line;
    var c := |line| - 1;
    while c >= at + k
      invariant |row| == |line|
      invariant at + k <= |line| ==> at + k - 1 <= c < |line|
      invariant at + k > |line| ==> c == |line| - 1
      invariant forall j :: 0 <= j <= c < |line| ==> row[j] == line[j]
      invariant forall j :: c < j < |line| ==> j >= k && row[j] == line[j - k]
      decreases c
    {
      row := row[c := row[c - k]];
      c := c - 1;
    }
  }

  /** Writes a glyph of width w at x, shifting the tail of the row right first in insert mode. */
  method PlaceGlyph(line: Line, x: nat, w: nat, insert: bool, cp: nat, pen: Pen) returns (row: Line)
    requires x < |line| && 1 <= w <= 2
    ensures row == M.PlacedRow(line, x, w, insert, cp, pen)
  {
    row := line;
    if insert {
      row := ShiftTail(row, x, w);
    }
    row := row[x := Cell(cp, pen, w, 0)];
    if w == 2 && x + 1 < |line| {
      row := row[x + 1 := Cell(0, pen, 0, 0)];
    }
  }

  /** k blanks open at `at`; cells pushed past the edge are lost. */
  method OpenGap(line: Line, at: nat, k: nat, blank: Cell) returns (row: Line)
    requires at < |line| && 1 <= k <= |line| - at
    ensures row == line[..at] + Rep(k, blank) + line[at..|line| - k]
  {
    row := ShiftTail(line, at, k);
    row := FillCells(row, at, at + k, blank);
    assert row[..at] == line[..at];
  }

  /** k cells at `at` are dropped; blanks enter at the right edge. */
  method CloseGap(line: Line, at: nat, k: nat, blank: Cell) returns (row: Line)
    requires at < |line| && 1 <= k <= |line| - at
    ensures row == line[..at] + line[at + k..] + Rep(k, blank)
  {
    row := line;
    for c := at to |line| - k
      invariant |row| == |line|
      invariant forall j :: 0 <= j < at || c <= j < |line| ==> row[j] == line[j]
      invariant forall j :: at <= j < c ==> row[j] == line[j + k]
    {
      row := row[c := row[c + k]];
    }
    row := FillCells(row, |line| - k, |line|, blank);
    assert row[..|line| - k] == line[..at] + line[at + k..];
  }

  /** Rows lo..hi rotate left by one, the taken first row is dropped, `line` enters last. */
  method RotateIn(g: Grid, lo: nat, hi: nat, line: Line) returns (r: Grid)
    requires lo <= hi < |g|
    ensures r == M.ShiftUp(g, lo, hi, 1, line)
  {
    r := g[lo := []];
    r := r[..lo] + (r[lo + 1..hi + 1] + [r[lo]]) + r[hi + 1..];
    r := r[hi := line];
  }

  /** Rows lo..hi rotate right by one and `line` replaces the first. */
  method RotateDown(g: Grid, lo: nat, hi: nat, line: Line) returns (r: Grid)
    requires lo <= hi < |g|
    ensures r == M.ShiftDown(g, lo, hi, 1, line)
  {
    r := g[..lo] + ([g[hi]] + g[lo..hi]) + g[hi + 1..];
    r := r[lo := line];
  }

  /** k times: the rows lo..hi rotate down and `line` replaces the first. */
  method PushDown(was: Grid, lo: nat, hi: nat, k: nat, line: Line) returns (g: Grid)
    requires lo <= hi < |was| && k <= hi - lo + 1
    ensures g == M.ShiftDown(was, lo, hi, k, line)
  {
    g := was;
    for i := 0 to k
      invariant g == M.ShiftDown(was, lo, hi, i, line)
    {
      ShiftDownOnce(was, lo, hi, i, line);
      g := RotateDown(g, lo, hi, line);
    }
  }

  /** k times: the rows lo..hi rotate up and `line` replaces the last. */
  method PullUp(was: Grid, lo: nat, hi: nat, k: nat, line: Line) returns (g: Grid)
    requires lo <= hi < |was| && k <= hi - lo + 1
    ensures g == M.ShiftUp(was, lo, hi, k, line)
  {
    g := was;
    for i := 0 to k
      invariant g == M.ShiftUp(was, lo, hi, i, line)
    {
      ShiftUpOnce(was, lo, hi, i, line);
      g := RotateIn(g, lo, hi, line);
    }
  }

  /** The prompts with a mark on line gid, those below `oldest` dropped and the newest kept. */
  method NewPrompts(was: seq<M.Prompt>, gid: nat, oldest: nat) returns (ps: seq<M.Prompt>)
    ensures ps == M.Marked(was, gid, oldest)
  {
    hide M.PromptsFrom;
    ps := was;
    if |ps| == 0 || ps[|ps| - 1].line != gid {
      ps := ps + [M.Prompt(gid, None)];
    }
    ps := RetainFrom(ps, oldest);
    if |ps| > M.MAX_PROMPTS {
      ps := ps[|ps| - M.MAX_PROMPTS..];
    }
  }

  method RetainFrom(ps: seq<M.Prompt>, oldest: nat) returns (kept: seq<M.Prompt>)
    ensures kept == M.PromptsFrom(ps, oldest)
  {
    kept := [];
    assert ps[0..] == ps && ps[|ps|..] == [];
    assert M.PromptsFrom([], oldest) == [];
    hide M.PromptsFrom;
    for i := 0 to |ps|
      invariant M.PromptsFrom(ps, oldest) == kept + M.PromptsFrom(ps[i..], oldest)
    {
      NextPrompt(ps, i, oldest);
      if ps[i].line >= oldest {
        kept := kept + [ps[i]];
      }
    }
  }

  lemma NextPrompt(ps: seq<M.Prompt>, i: nat, oldest: nat)
    requires i < |ps|
    ensures var rest := M.PromptsFrom(ps[i + 1..], oldest);
            M.PromptsFrom(ps[i..], oldest) == if ps[i].line >= oldest then [ps[i]] + rest else rest
  {
    assert ps[i..][0] == ps[i] && ps[i..][1..] == ps[i + 1..];
  }

  method TrimBlanks(text: seq<nat>) returns (t: seq<nat>)
    ensures t == M.TrimEnd(text)
  {
    t := text;
    while |t| > 0 && t[|t| - 1] == 32
      invariant M.TrimEnd(text) == M.TrimEnd(t)
      decreases |t|
    {
      t := t[..|t| - 1];
    }
  }

  method CollectText(pool: seq<seq<nat>>, cells: Line) returns (text: seq<nat>)
    ensures text == M.RowText(pool, cells)
  {
    text := [];
    for c := 0 to |cells|
      invariant text == M.RowText(pool, cells[..c])
    {
      var piece := GlyphText(pool, cells[c]);
      assert cells[..c + 1][..c] == cells[..c];
      text := text + piece;
    }
    assert cells[..|cells|] == cells;
  }

  method GlyphText(pool: seq<seq<nat>>, cell: Cell) returns (piece: seq<nat>)
    ensures piece == M.CellText(pool, cell)
  {
    piece := [];
    if cell.width == 0 {
      return;
    }
    if cell.rune == 0 {
      piece := [32];
    } else if IsScalar(cell.rune) {
      piece := [cell.rune];
    }
    if cell.combo != 0 && cell.combo <= |pool| {
      piece := piece + pool[cell.combo - 1];
    }
  }

  // ---- one step of a shift, repeated ------------------------------------------

  lemma ShiftUpOnce(g: Grid, lo: nat, hi: nat, i: nat, line: Line)
    requires lo <= hi < |g| && i < hi - lo + 1
    ensures M.ShiftUp(M.ShiftUp(g, lo, hi, i, line), lo, hi, 1, line) == M.ShiftUp(g, lo, hi, i + 1, line)
  {
    var m := M.ShiftUp(g, lo, hi, i, line);
    var a, b := M.ShiftUp(m, lo, hi, 1, line), M.ShiftUp(g, lo, hi, i + 1, line);
    forall j | 0 <= j < |g| ensures a[j] == b[j] {
      assert a[j] == if j < lo || j > hi then m[j] else if j < hi then m[j + 1] else line;
      assert b[j] == if j < lo || j > hi then g[j] else if j + i + 1 <= hi then g[j + i + 1] else line;
    }
  }

  lemma ShiftDownOnce(g: Grid, lo: nat, hi: nat, i: nat, line: Line)
    requires lo <= hi < |g| && i < hi - lo + 1
    ensures M.ShiftDown(M.ShiftDown(g, lo, hi, i, line), lo, hi, 1, line) == M.ShiftDown(g, lo, hi, i + 1, line)
  {
    var m := M.ShiftDown(g, lo, hi, i, line);
    var a, b := M.ShiftDown(m, lo, hi, 1, line), M.ShiftDown(g, lo, hi, i + 1, line);
    forall j | 0 <= j < |g| ensures a[j] == b[j] {
      assert a[j] == if j < lo || j > hi then m[j] else if j > lo then m[j - 1] else line;
      assert b[j] == if j < lo || j > hi then g[j] else if j > lo + i then g[j - i - 1] else line;
    }
  }

  lemma ScrollUpNothing(s: M.Scr)
    requires M.Ok(s)
    ensures M.ScrollUp(s, 0) == s
  {
    assert M.ShiftUp(M.Buf(s), s.reg.top, s.reg.bot, 0, M.BlankLine(s)) == M.Buf(s);
    assert s.hist.log + s.bufs.primary[..0] == s.hist.log;
  }

  lemma ScrollUpCapped(s: M.Scr, n: nat)
    requires M.Ok(s)
    ensures M.ScrollUp(s, Min(n, s.reg.bot - s.reg.top + 1)) == M.ScrollUp(s, n)
  {
  }

  lemma ScrollUpOnce(s: M.Scr, i: nat)
    requires M.Ok(s) && i < s.reg.bot - s.reg.top + 1
    ensures M.ScrollUp(M.ScrollUp(s, i), 1) == M.ScrollUp(s, i + 1)
  {
    hide M.ShiftUp;
    ShiftUpOnce(M.Buf(s), s.reg.top, s.reg.bot, i, M.BlankLine(s));
    var p := s.bufs.primary;
    if !s.bufs.inAlt && s.reg.top == 0 {
      var q := M.ShiftUp(p, 0, s.reg.bot, i, M.BlankLine(s));
      assert q[..1] == [p[i]];
      assert s.hist.log + p[..i + 1] == (s.hist.log + p[..i]) + q[..1];
    }
  }

  lemma ScrollUpByOne(s: M.Scr)
    requires M.Ok(s)
    ensures var g := M.Buf(s);
            var t := s.reg.top;
            M.ScrollUp(s, 1) ==
            M.WithBuf(if !s.bufs.inAlt && t == 0 then s.(hist := M.Pushed(s.hist, [g[t]])) else s,
                      M.ShiftUp(g, t, s.reg.bot, 1, M.BlankLine(s)))
  {
    assert s.bufs.primary[..1] == [s.bufs.primary[0]];
  }

  lemma TailAfterPush(h: M.History, line: Line)
    requires h.since <= |h.log| && h.cap >= 1
    ensures var r := M.Pushed(h, [line]);
            var n := Min(h.cap, h.since);
            M.LastN(r.log, Min(r.cap, r.since))
            == (if n < h.cap then M.LastN(h.log, n) else M.LastN(h.log, n)[1..]) + [line]
  {
  }

  lemma RebuildAgrees(was: Grid, wasCols: nat, wasRows: nat, cols: nat, rows: nat)
    requires GridOk(was, wasCols, wasRows)
    ensures was != [] ==> GridOk(was, |was[0]|, |was|)
    ensures M.Rebuild(was, wasCols, cols, rows) == M.Rebuild(was, if was == [] then 0 else |was[0]|, cols, rows)
  {
    if was == [] {
      forall r | 0 <= r < rows ensures M.RebuildLine(was, wasCols, cols, r) == M.RebuildLine(was, 0, cols, r) {
      }
    }
  }
}
