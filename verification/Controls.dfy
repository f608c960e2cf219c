/** What each control byte, escape sequence and control sequence does, from its bytes to the screen:
    where the cursor goes, which modes change, what is answered. Each is stated by arithmetic on the
    screen before, not by the operation that carries it out. */
module Controls {
  import opened Cells
  import opened Text
  import opened ParserModel
  import opened Sequences
  import S = ScreenModel

  // ---- parameters --------------------------------------------------------------------------------

  /** A control sequence as it is sent. */
  function Sequence(vals: seq<nat>, colons: seq<bool>, f: byte): Bytes
    requires |vals| == |colons| >= 1
  {
    [ESC, 91] + Rendered(vals, colons) + [f]
  }

  function Private(vals: seq<nat>, colons: seq<bool>, f: byte): Bytes
    requires |vals| == |colons| >= 1
  {
    [ESC, 91, 63] + Rendered(vals, colons) + [f]
  }

  function Given(vals: seq<nat>, colons: seq<bool>): Params { NO_PARAMS.(vals := vals, colons := colons) }

  /** Parameter i as a count: at least one. */
  function Count(vals: seq<nat>, i: nat): nat { if i < |vals| && vals[i] > 0 then vals[i] else 1 }

  /** Parameter i as it is, or 0. */
  function Number(vals: seq<nat>, i: nat): nat { if i < |vals| then vals[i] else 0 }

  lemma Args(vals: seq<nat>, colons: seq<bool>, i: nat)
    requires ListOk(vals, colons)
    ensures Arg(Given(vals, colons), i, 1) == Count(vals, i) && Arg(Given(vals, colons), i, 0) == Number(vals, i)
    ensures 1 <= Count(vals, i) < 0x8000_0000 && Number(vals, i) < 0x8000_0000
    ensures CsiOk(Given(vals, colons)) && AsWord(Count(vals, i)) == Count(vals, i)
  {
  }

  // ---- the cursor ----------------------------------------------------------------------------------

  /** Rows the cursor keeps to: the scroll region in origin mode, otherwise the screen. */
  function TopEdge(s: S.Scr): nat { if s.modes.origin then s.reg.top else 0 }

  function BottomEdge(s: S.Scr): int { if s.modes.origin then s.reg.bot else s.rows - 1 }

  predicate Sideways(f: byte) { f == 67 || f == 97 || f == 68 || f == 71 || f == 96 }

  predicate UpDown(f: byte) { f == 65 || f == 66 || f == 101 || f == 69 || f == 70 || f == 100 }

  /** Where C, a, D, G and ` put the column, given a count. */
  function Column(s: S.Scr, f: byte, n: nat): int {
    if f == 68 then Max(s.cur.x - n, 0)                            // back
    else if f == 67 || f == 97 then Min(s.cur.x + n, s.cols - 1)   // forward
    else Min(n - 1, s.cols - 1)                                    // to column n, from 1
  }

  /** Where A, B, e, E, F and d put the row. */
  function Row(s: S.Scr, f: byte, n: nat): int {
    if f == 65 || f == 70 then Max(s.cur.y - n, TopEdge(s))                                // up
    else if f == 100 then Min((if s.modes.origin then s.reg.top else 0) + n - 1, s.rows - 1)  // to row n
    else Min(s.cur.y + n, BottomEdge(s))                                                   // down
  }

  lemma SidewaysMoves(s: S.Scr, vals: seq<nat>, colons: seq<bool>, f: byte)
    requires S.Ok(s) && ListOk(vals, colons) && Sideways(f)
    ensures CsiOk(Given(vals, colons)) && 0 <= Column(s, f, Count(vals, 0)) < s.cols
    ensures CursorOp(Given(vals, colons), s, f) == s.(cur := S.Cursor(Column(s, f, Count(vals, 0)), s.cur.y, false))
  {
    Args(vals, colons, 0);
    S.Bounds(s);
    hide S.Ok, Arg, AsWord, Given, CsiOk;
  }

  lemma UpMoves(s: S.Scr, vals: seq<nat>, colons: seq<bool>, f: byte)
    requires S.Ok(s) && ListOk(vals, colons) && (f == 65 || f == 70)
    ensures CsiOk(Given(vals, colons)) && 0 <= Row(s, f, Count(vals, 0)) < s.rows
    ensures CursorOp(Given(vals, colons), s, f) ==
      s.(cur := S.Cursor(if f == 70 then 0 else s.cur.x, Row(s, f, Count(vals, 0)), false))
  {
    Args(vals, colons, 0);
    S.Bounds(s);
    hide S.Ok, Arg, AsWord, Given, CsiOk;
  }

  lemma DownMoves(s: S.Scr, vals: seq<nat>, colons: seq<bool>, f: byte)
    requires S.Ok(s) && ListOk(vals, colons) && UpDown(f) && f != 65 && f != 70
    ensures CsiOk(Given(vals, colons)) && 0 <= Row(s, f, Count(vals, 0)) < s.rows
    ensures CursorOp(Given(vals, colons), s, f) ==
      s.(cur := S.Cursor(if f == 69 then 0 else s.cur.x, Row(s, f, Count(vals, 0)), false))
  {
    Args(vals, colons, 0);
    S.Bounds(s);
    hide S.Ok, Arg, AsWord, Given, CsiOk;
  }

  lemma Goes(s: S.Scr, vals: seq<nat>, colons: seq<bool>, f: byte)
    requires S.Ok(s) && ListOk(vals, colons) && (f == 72 || f == 102)
    ensures CsiOk(Given(vals, colons))
    ensures var (x, y) := (Min(Count(vals, 1) - 1, s.cols - 1), Min(TopEdge(s) + Count(vals, 0) - 1, BottomEdge(s)));
            && 0 <= x < s.cols && 0 <= y < s.rows
            && CursorOp(Given(vals, colons), s, f) == s.(cur := S.Cursor(x, y, false))
  {
    Args(vals, colons, 0);
    Args(vals, colons, 1);
    S.Bounds(s);
    hide S.Ok, Arg, AsWord, Given, CsiOk;
  }

  lemma ToCursorOp(c: Params, s: S.Scr, f: byte)
    requires CsiOk(c) && S.Ok(s) && c.priv == 0 && (Sideways(f) || UpDown(f) || f == 72 || f == 102)
    ensures Dispatch(c, s, f).0 == CursorOp(c, s, f)
  {
    hide S.Ok, CursorOp, EditOp, ModeOp;
  }

  /** CSI n and one of C a D G ` moves the cursor along its row, ... */
  lemma CursorAlongRow(v: Vt, vals: seq<nat>, colons: seq<bool>, f: byte)
    requires Ok(v) && v.p.st == Ground && ListOk(vals, colons) && Sideways(f)
    ensures var x := Column(v.s, f, Count(vals, 0));
            0 <= x < v.s.cols && Run(v, Sequence(vals, colons, f)).s == v.s.(cur := S.Cursor(x, v.s.cur.y, false))
  {
    hide S.Ok, POk, Dispatch, CursorOp, Run, Rendered, Column, Arg;
    ParamsArrive(v, vals, colons, f);
    ToCursorOp(Given(vals, colons), v.s, f);
    SidewaysMoves(v.s, vals, colons, f);
  }

  /** ... one of A B e E F d across rows, E and F to the first column, ... */
  lemma CursorAcrossRows(v: Vt, vals: seq<nat>, colons: seq<bool>, f: byte)
    requires Ok(v) && v.p.st == Ground && ListOk(vals, colons) && UpDown(f)
    ensures var (x, y) := (if f == 69 || f == 70 then 0 else v.s.cur.x, Row(v.s, f, Count(vals, 0)));
            0 <= y < v.s.rows && Run(v, Sequence(vals, colons, f)).s == v.s.(cur := S.Cursor(x, y, false))
  {
    hide S.Ok, POk, Dispatch, CursorOp, Run, Rendered, Row, Arg;
    ParamsArrive(v, vals, colons, f);
    ToCursorOp(Given(vals, colons), v.s, f);
    if f == 65 || f == 70 { UpMoves(v.s, vals, colons, f); } else { DownMoves(v.s, vals, colons, f); }
  }

  /** ... and H or f to a row and a column, counted from 1. */
  lemma CursorToCell(v: Vt, vals: seq<nat>, colons: seq<bool>, f: byte)
    requires Ok(v) && v.p.st == Ground && ListOk(vals, colons) && (f == 72 || f == 102)
    ensures var (x, y) := (Min(Count(vals, 1) - 1, v.s.cols - 1),
                           Min(TopEdge(v.s) + Count(vals, 0) - 1, BottomEdge(v.s)));
            0 <= x && 0 <= y && Run(v, Sequence(vals, colons, f)).s == v.s.(cur := S.Cursor(x, y, false))
  {
    hide S.Ok, POk, Dispatch, CursorOp, Run, Rendered, TopEdge, BottomEdge, Arg;
    ParamsArrive(v, vals, colons, f);
    ToCursorOp(Given(vals, colons), v.s, f);
    Goes(v.s, vals, colons, f);
  }

  // ---- scroll region, modes, tabs, saved cursor ----------------------------------------------------

  lemma ToModeOp(c: Params, s: S.Scr, f: byte)
    requires CsiOk(c) && S.Ok(s) && c.priv == 0 && f > 102 && f != 110
    ensures Dispatch(c, s, f).0 == ModeOp(c, s, f)
  {
    hide S.Ok, CursorOp, EditOp, ModeOp;
  }

  /** The region a request for rows top to bottom (from 1, 0 for the screen's edge) leaves: those
      rows if there are at least two of them, otherwise the whole screen. */
  function Accepted(top: nat, bottom: nat, rows: nat): S.Region
    requires rows >= 1
  {
    var t := Max(top, 1);
    var b := if 1 <= bottom <= rows then bottom else rows;
    if t < b then S.Region(t - 1, b - 1) else S.Region(0, rows - 1)
  }

  /** CSI t ; b r sets the scroll region and homes the cursor, in origin mode to the region's top. */
  lemma RegionSet(v: Vt, vals: seq<nat>, colons: seq<bool>)
    requires Ok(v) && v.p.st == Ground && ListOk(vals, colons)
    ensures v.s.rows >= 1
    ensures var reg := Accepted(Number(vals, 0), Number(vals, 1), v.s.rows);
            && reg.top <= reg.bot < v.s.rows
            && Run(v, Sequence(vals, colons, 114)).s ==
                 v.s.(reg := reg, cur := S.Cursor(0, if v.s.modes.origin then reg.top else 0, false))
  {
    RegionIs(v.s, vals, colons);
    hide S.Ok, POk, Dispatch, ModeOp, Run, Rendered, Accepted, Arg;
    ParamsArrive(v, vals, colons, 114);
    ToModeOp(Given(vals, colons), v.s, 114);
  }

  lemma RegionIs(s: S.Scr, vals: seq<nat>, colons: seq<bool>)
    requires S.Ok(s) && ListOk(vals, colons)
    ensures s.rows >= 1 && CsiOk(Given(vals, colons))
    ensures var reg := Accepted(Number(vals, 0), Number(vals, 1), s.rows);
            && reg.top <= reg.bot < s.rows
            && ModeOp(Given(vals, colons), s, 114) ==
                 s.(reg := reg, cur := S.Cursor(0, if s.modes.origin then reg.top else 0, false))
  {
    Args(vals, colons, 0);
    Args(vals, colons, 1);
    S.Bounds(s);
    hide GridOk, Arg, AsWord, CsiOk;
  }

  /** CSI 4 h sets insert mode and CSI 4 l ends it; other codes of these do nothing. */
  lemma InsertModeSet(v: Vt, vals: seq<nat>, colons: seq<bool>, on: bool)
    requires Ok(v) && v.p.st == Ground && ListOk(vals, colons)
    ensures Run(v, Sequence(vals, colons, if on then 104 else 108)).s ==
      if 4 in vals then v.s.(modes := v.s.modes.(insert := on)) else v.s
  {
    var f: byte := if on then 104 else 108;
    Args(vals, colons, 0);
    InsertIs(v.s, vals, colons, on);
    hide S.Ok, POk, Dispatch, ModeOp, Run, Rendered, CsiOk, Arg;
    ParamsArrive(v, vals, colons, f);
    ToModeOp(Given(vals, colons), v.s, f);
  }

  lemma InsertIs(s: S.Scr, vals: seq<nat>, colons: seq<bool>, on: bool)
    requires S.Ok(s) && CsiOk(Given(vals, colons))
    ensures ModeOp(Given(vals, colons), s, if on then 104 else 108) ==
      if 4 in vals then s.(modes := s.modes.(insert := on)) else s
  {
    assert 4 in vals <==> 4 in Given(vals, colons).vals;
    hide S.Ok, CsiOk;
  }

  /** CSI g takes the tab stop at the cursor away, CSI 3 g all of them. */
  lemma TabsCleared(v: Vt, vals: seq<nat>, colons: seq<bool>)
    requires Ok(v) && v.p.st == Ground && ListOk(vals, colons)
    ensures var (r, x) := (Run(v, Sequence(vals, colons, 103)).s, v.s.cur.x);
            && r == v.s.(tabs := r.tabs) && |r.tabs| == v.s.cols == |v.s.tabs|
            && forall i :: 0 <= i < v.s.cols ==> r.tabs[i] == (v.s.tabs[i] && i != x && Number(vals, 0) != 3)
  {
    TabsIs(v.s, vals, colons);
    hide S.Ok, POk, Dispatch, ModeOp, Run, Rendered, Arg;
    ParamsArrive(v, vals, colons, 103);
    ToModeOp(Given(vals, colons), v.s, 103);
  }

  lemma TabsIs(s: S.Scr, vals: seq<nat>, colons: seq<bool>)
    requires S.Ok(s) && ListOk(vals, colons)
    ensures CsiOk(Given(vals, colons))
    ensures var (r, x) := (ModeOp(Given(vals, colons), s, 103), s.cur.x);
            && r == s.(tabs := r.tabs) && |r.tabs| == s.cols == |s.tabs|
            && forall i :: 0 <= i < s.cols ==> r.tabs[i] == (s.tabs[i] && i != x && Number(vals, 0) != 3)
  {
    Args(vals, colons, 0);
    S.Bounds(s);
    hide GridOk, Arg, CsiOk;
  }

  /** What is saved, and what coming back to it gives. */
  function SavedOf(s: S.Scr): S.Saved { S.Saved(s.cur.x, s.cur.y, s.pen, s.modes.origin) }

  function BackTo(s: S.Scr, saved: S.Saved): S.Scr
    requires s.cols >= 1 && s.rows >= 1
  {
    s.(cur := S.Cursor(Min(saved.cx, s.cols - 1), Min(saved.cy, s.rows - 1), false), pen := saved.pen,
       modes := s.modes.(origin := saved.origin))
  }

  /** CSI s and u, like ESC 7 and 8, save cursor, rendition and origin mode, and bring them back. */
  lemma CursorSaved(v: Vt, vals: seq<nat>, colons: seq<bool>)
    requires Ok(v) && v.p.st == Ground && ListOk(vals, colons)
    ensures v.s.cols >= 1 && v.s.rows >= 1
    ensures Run(v, Sequence(vals, colons, 115)).s == v.s.(saved := SavedOf(v.s))
    ensures Run(v, Sequence(vals, colons, 117)).s == BackTo(v.s, v.s.saved)
  {
    Args(vals, colons, 0);
    SavedIs(v.s, Given(vals, colons));
    hide S.Ok, POk, Dispatch, ModeOp, Run, Rendered, Arg, CsiOk;
    ParamsArrive(v, vals, colons, 115);
    ParamsArrive(v, vals, colons, 117);
    ToModeOp(Given(vals, colons), v.s, 115);
    ToModeOp(Given(vals, colons), v.s, 117);
  }

  lemma SavedIs(s: S.Scr, c: Params)
    requires S.Ok(s) && CsiOk(c)
    ensures s.cols >= 1 && s.rows >= 1
    ensures ModeOp(c, s, 115) == s.(saved := SavedOf(s)) && ModeOp(c, s, 117) == BackTo(s, s.saved)
  {
    hide GridOk, CsiOk;
  }

  /** CSI m gives the rendition; `Rendition` says which. */
  lemma RenditionSet(v: Vt, vals: seq<nat>, colons: seq<bool>)
    requires Ok(v) && v.p.st == Ground && ListOk(vals, colons)
    ensures Run(v, Sequence(vals, colons, 109)).s == v.s.(pen := S.Sgr(v.s.pen, vals, colons, 0))
  {
    Args(vals, colons, 0);
    PenIs(v.s, vals, colons);
    hide S.Ok, POk, Dispatch, ModeOp, Run, Rendered, Arg, CsiOk, S.Sgr;
    ParamsArrive(v, vals, colons, 109);
    ToModeOp(Given(vals, colons), v.s, 109);
  }

  lemma PenIs(s: S.Scr, vals: seq<nat>, colons: seq<bool>)
    requires S.Ok(s) && ListOk(vals, colons) && CsiOk(Given(vals, colons))
    ensures ModeOp(Given(vals, colons), s, 109) == s.(pen := S.Sgr(s.pen, vals, colons, 0))
  {
    hide S.Ok, CsiOk, S.Sgr;
  }

  // ---- private modes ---------------------------------------------------------------------------------

  /** The flag a private mode sets (h) or resets (l). */
  function Flagged(m: nat, on: bool, was: S.Modes): S.Modes {
    if m == 1 then was.(appCursorKeys := on)
    else if m == 7 then was.(autoWrap := on)
    else if m == 25 then was.(cursorVisible := on)
    else if m == 1006 then was.(mouseSgr := on)
    else if m == 2004 then was.(bracketedPaste := on)
    else if m == 9 then was.(mouse := if on then S.X10 else S.MouseNone)
    else if m == 1000 then was.(mouse := if on then S.Normal else S.MouseNone)
    else if m == 1002 then was.(mouse := if on then S.ButtonEvent else S.MouseNone)
    else if m == 1003 then was.(mouse := if on then S.AnyEvent else S.MouseNone)
    else was
  }

  /** The screen after mode m is set or reset: origin mode homes the cursor; 47, 1047 and 1049 go to
      a wiped alternate screen and come back to what was saved; the others are flags. */
  function Moded(s: S.Scr, m: nat, on: bool): S.Scr
    requires S.Ok(s)
  {
    if m == 6 then
      s.(modes := s.modes.(origin := on), cur := S.Cursor(0, if on then s.reg.top else 0, false))
    else if m == 47 || m == 1047 || m == 1049 then
      if on == s.bufs.inAlt then s
      else if on then
        s.(saved := SavedOf(s), cur := S.Cursor(0, 0, false),
           bufs := S.Bufs(true, s.bufs.primary, Rep(s.rows, Rep(s.cols, BlankCell(s.pen.bg)))))
      else BackTo(s.(bufs := s.bufs.(inAlt := false)), s.saved)
    else s.(modes := Flagged(m, on, s.modes))
  }

  lemma OneMode(s: S.Scr, m: nat, on: bool)
    requires S.Ok(s)
    ensures DecMode(s, m, on) == Moded(s, m, on)
  {
    if m == 47 || m == 1047 || m == 1049 {
      AltIs(s, on);
      hide S.SetAltScreen, S.Ok, Rep;
    } else {
      S.Bounds(s);
      hide GridOk, S.SetAltScreen;
    }
  }

  lemma AltIs(s: S.Scr, on: bool)
    requires S.Ok(s)
    ensures S.SetAltScreen(s, on) == Moded(s, 1049, on)
  {
    if on && !s.bufs.inAlt {
      Wiped(S.Switched(S.SaveCursor(s), true));
      hide S.EraseInDisplay, GridOk;
    } else {
      hide GridOk;
    }
  }

  lemma Wiped(s: S.Scr)
    requires S.Ok(s) && s.bufs.inAlt
    ensures S.EraseInDisplay(s, 2) ==
      s.(bufs := s.bufs.(alt := Rep(s.rows, Rep(s.cols, BlankCell(s.pen.bg)))), cur := s.cur.(wrap := false))
  {
    var g := S.EraseInDisplay(s, 2).bufs.alt;
    assert |g| == s.rows && forall y :: 0 <= y < s.rows ==> g[y] == Rep(s.cols, BlankCell(s.pen.bg));
    assert g == Rep(s.rows, Rep(s.cols, BlankCell(s.pen.bg)));
  }

  lemma PrivateOne(s: S.Scr, m: nat, on: bool)
    requires S.Ok(s) && m < 0x8000_0000
    ensures var c := NO_PARAMS.(vals := [m], colons := [false], priv := 63);
            CsiOk(c) && Dispatch(c, s, if on then 104 else 108).0 == Moded(s, m, on)
  {
    OneMode(s, m, on);
    hide S.Ok, DecMode, Moded;
    var c := NO_PARAMS.(vals := [m], colons := [false], priv := 63);
    assert DecModesTo(c.vals, s, 0, on) == s;
    assert DecModesTo(c.vals, s, 1, on) == DecMode(s, m, on);
  }

  /** CSI ? m h and l set and reset one private mode, and change nothing else. */
  lemma PrivateModeSet(v: Vt, m: nat, on: bool)
    requires Ok(v) && v.p.st == Ground && m < 0x8000_0000
    ensures Run(v, Private([m], [false], if on then 104 else 108)).s == Moded(v.s, m, on)
  {
    PrivateOne(v.s, m, on);
    hide S.Ok, POk, Dispatch, Run, Rendered, Moded;
    PrivateArrive(v, 63, [m], [false], if on then 104 else 108);
  }

  // ---- replies -----------------------------------------------------------------------------------------

  /** CSI 5 n answers "ready", CSI 6 n the cursor's row and column from 1, and CSI c the kind of
      terminal; none changes the screen. */
  lemma Answers(v: Vt, n: nat)
    requires Ok(v) && v.p.st == Ground && n < 0x8000_0000
    ensures var r := Run(v, Sequence([n], [false], 110));
            r.s == v.s && r.k.respond == v.k.respond +
              (if n == 5 then [0x1b, 91, 48, 110]
               else if n == 6 then [0x1b, 91] + Decimal(v.s.cur.y + 1) + [59] + Decimal(v.s.cur.x + 1) + [82]
               else [])
    ensures var r := Run(v, Sequence([n], [false], 99));
            r.s == v.s && r.k.respond == v.k.respond + [0x1b, 91, 63, 49, 59, 50, 99]
  {
    hide S.Ok, POk, Run, Rendered, Decimal;
    ParamsArrive(v, [n], [false], 110);
    ParamsArrive(v, [n], [false], 99);
    hide S.ScrollUp;
  }

  // ---- control bytes and short escapes -------------------------------------------------------------------

  /** A control byte in the ground state. */
  lemma ByteRead(v: Vt, b: byte)
    requires Ok(v) && v.p.st == Ground && b < 0x20
    ensures var m := WithUtf(v, v.p.utf.cp, 0); Ok(m) && Run(v, [b]) == C0(m, b)
  {
    RunOne(v, b);
    hide S.Ok, C0;
  }

  /** BS moves back one column, CR to the first, and SO and SI choose the character set; BEL and the
      rest do nothing. */
  function AfterByte(s: S.Scr, b: byte): S.Scr {
    if b == 8 then s.(cur := S.Cursor(Max(s.cur.x - 1, 0), s.cur.y, false))
    else if b == 13 then s.(cur := S.Cursor(0, s.cur.y, false))
    else s
  }

  function SetsAfter(c: Charsets, b: byte): Charsets {
    if b == 14 || b == 15 then c.(shiftOut := b == 14) else c
  }

  predicate Plain(b: byte) { b < 9 || (12 < b < 0x20 && b != ESC) }

  lemma ControlBytes(v: Vt, b: byte)
    requires Ok(v) && v.p.st == Ground && Plain(b)
    ensures Run(v, [b]).s == AfterByte(v.s, b) && Run(v, [b]).p.sets == SetsAfter(v.p.sets, b)
  {
    hide Run, C0, AfterByte, SetsAfter, S.Ok, POk;
    ByteRead(v, b);
    ByteDone(WithUtf(v, v.p.utf.cp, 0), b);
  }

  lemma ByteDone(v: Vt, b: byte)
    requires Ok(v) && v.p.utf.need == 0 && Plain(b)
    ensures C0(v, b).s == AfterByte(v.s, b) && C0(v, b).p.sets == SetsAfter(v.p.sets, b)
  {
    hide S.Ok, S.Index, S.Tab, S.Backspace, S.CarriageReturn;
    BackAndReturn(v.s);
  }

  lemma BackAndReturn(s: S.Scr)
    ensures S.Backspace(s) == s.(cur := S.Cursor(Max(s.cur.x - 1, 0), s.cur.y, false))
    ensures S.CarriageReturn(s) == s.(cur := S.Cursor(0, s.cur.y, false))
  {
  }

  /** HT goes to the next tab stop behind the cursor, or the last column. */
  lemma TabByte(v: Vt, x: nat)
    requires Ok(v) && v.p.st == Ground && |v.s.tabs| == v.s.cols && v.s.cur.x < x < v.s.cols
    requires v.s.tabs[x] || x == v.s.cols - 1
    requires (forall i :: v.s.cur.x < i < x ==> !v.s.tabs[i])
    ensures Run(v, [9]).s == v.s.(cur := S.Cursor(x, v.s.cur.y, false))
  {
    ByteRead(v, 9);
    TabDone(WithUtf(v, v.p.utf.cp, 0));
    TabStop(v.s, x);
    hide *;
  }

  lemma TabDone(v: Vt)
    requires Ok(v) && v.p.utf.need == 0
    ensures C0(v, 9).s == S.Tab(v.s)
  {
    hide S.Ok, S.Tab;
  }

  lemma TabStop(s: S.Scr, x: nat)
    requires S.Ok(s) && s.cur.x < x < s.cols && (s.tabs[x] || x == s.cols - 1)
    requires (forall i :: s.cur.x < i < x ==> !s.tabs[i])
    ensures S.Tab(s) == s.(cur := S.Cursor(x, s.cur.y, false))
  {
    StopIs(s.tabs, s.cur.x + 1, x);
    hide S.NextStop, GridOk;
  }

  lemma {:induction false} StopIs(tabs: seq<bool>, from: nat, x: nat)
    requires from <= x < |tabs| && (tabs[x] || x == |tabs| - 1) && (forall i :: from <= i < x ==> !tabs[i])
    ensures S.NextStop(tabs, from) == x
    decreases x - from
  {
    if from < x { StopIs(tabs, from + 1, x); }
  }

  /** ESC and a final byte. */
  lemma EscapeRead(v: Vt, b: byte)
    requires Ok(v) && v.p.st == Ground
    requires 48 <= b <= 126 && b != 91 && b != 93 && b != 80 && b != 88 && b != 94 && b != 95
    ensures Run(v, [ESC, b]).s == EscapeOp(v.s, b) && Run(v, [ESC, b]).p.st == Ground
    ensures Run(v, [ESC, b]).p.sets == v.p.sets && Run(v, [ESC, b]).k == v.k
  {
    var e := Step(v, ESC);
    EscStarts(v);
    RunTwo(v, ESC, b);
    hide S.Ok, Run, EscapeOp, GroundByte;
  }

  lemma EscStarts(v: Vt)
    requires Ok(v) && v.p.st == Ground
    ensures var r := Step(v, ESC);
            r.p.st == Esc && r.p.utf.need == 0 && r.p.sets == v.p.sets && r.s == v.s && r.k == v.k
  {
    hide S.Ok;
  }

  /** ESC 7 and 8 save the cursor and bring it back, ESC = and > choose the keypad, ESC H sets a tab
      stop at the cursor. */
  lemma ShortEscapes(v: Vt)
    requires Ok(v) && v.p.st == Ground
    ensures v.s.cols >= 1 && v.s.rows >= 1 && v.s.cur.x < |v.s.tabs|
    ensures Run(v, [ESC, 55]).s == v.s.(saved := SavedOf(v.s))
    ensures Run(v, [ESC, 56]).s == BackTo(v.s, v.s.saved)
    ensures Run(v, [ESC, 61]).s == v.s.(modes := v.s.modes.(appKeypad := true))
    ensures Run(v, [ESC, 62]).s == v.s.(modes := v.s.modes.(appKeypad := false))
    ensures Run(v, [ESC, 72]).s == v.s.(tabs := v.s.tabs[v.s.cur.x := true])
  {
    EscapeRead(v, 55);
    EscapeRead(v, 56);
    EscapeRead(v, 61);
    EscapeRead(v, 62);
    EscapeRead(v, 72);
    ShortOps(v.s);
    hide *;
  }

  lemma ShortOps(s: S.Scr)
    requires S.Ok(s)
    ensures s.cols >= 1 && s.rows >= 1 && s.cur.x < |s.tabs|
    ensures EscapeOp(s, 55) == s.(saved := SavedOf(s)) && EscapeOp(s, 56) == BackTo(s, s.saved)
    ensures EscapeOp(s, 61) == s.(modes := s.modes.(appKeypad := true))
    ensures EscapeOp(s, 62) == s.(modes := s.modes.(appKeypad := false))
    ensures EscapeOp(s, 72) == s.(tabs := s.tabs[s.cur.x := true])
  {
    hide GridOk, S.ReverseIndex, S.Index, S.NextLine, S.FullReset;
  }

  /** ESC ( and ESC ) choose line drawing (0) or plain text (A, B) for the first and the second set;
      anything else leaves both. */
  lemma SetChosen(v: Vt, slot: byte, b: byte)
    requires Ok(v) && v.p.st == Ground && 40 <= slot <= 43
    ensures var r := Run(v, [ESC, slot, b]);
            var named := b == 48 || b == 65 || b == 66;
            && r.s == v.s && r.p.st == Ground
            && r.p.sets == if slot == 40 && named then v.p.sets.(g0 := b == 48)
                           else if slot == 41 && named then v.p.sets.(g1 := b == 48)
                           else v.p.sets
  {
    EscStarts(v);
    SlotRead(Step(v, ESC), slot, b);
    RunTwo(v, ESC, slot);
    assert [ESC, slot] + [b] == [ESC, slot, b];
    RunAppend(v, [ESC, slot], [b]);
    RunOne(Step(Step(v, ESC), slot), b);
    hide *;
  }

  lemma SlotRead(v: Vt, slot: byte, b: byte)
    requires Ok(v) && v.p.st == Esc && v.p.utf.need == 0 && 40 <= slot <= 43
    ensures var r := Step(Step(v, slot), b);
            var named := b == 48 || b == 65 || b == 66;
            && r.s == v.s && r.p.st == Ground
            && r.p.sets == if slot == 40 && named then v.p.sets.(g0 := b == 48)
                           else if slot == 41 && named then v.p.sets.(g1 := b == 48)
                           else v.p.sets
  {
    hide S.Ok, EscapeOp;
  }

  /** Line drawing replaces the characters from ` to ~ while its set is shifted in, and no other. */
  lemma LineDrawing(sets: Charsets, cp: nat)
    ensures var drawn := if sets.shiftOut then sets.g1 else sets.g0;
            if drawn && 0x60 <= cp < 0x7f then Glyph(sets, cp) == DEC_SPECIAL[cp - 0x60] != cp
            else Glyph(sets, cp) == cp
    ensures DEC_SPECIAL[0x6a - 0x60] == 0x2518 && DEC_SPECIAL[0x6b - 0x60] == 0x2510
    ensures DEC_SPECIAL[0x6c - 0x60] == 0x250C && DEC_SPECIAL[0x6d - 0x60] == 0x2514
    ensures DEC_SPECIAL[0x71 - 0x60] == 0x2500 && DEC_SPECIAL[0x78 - 0x60] == 0x2502
  {
  }
}
