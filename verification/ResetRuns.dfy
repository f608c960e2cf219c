/** What a full reset leaves behind for later output to find. Alike terminals stay alike whatever
    comes, so a terminal that was reset goes on as a new one would exactly when its tab stops, its
    saved cursor and its character sets are the initial ones. */
module ResetRuns {
  import opened Cells
  import opened Text
  import opened ParserModel
  import opened Likeness
  import opened ResetLaws
  import opened Feeding
  import Sequences
  import S = ScreenModel

  // ---- alike terminals -----------------------------------------------------------------------

  /** Parsers that agree on all that the next bytes can depend on. */
  predicate ParsersAlike(p: P, q: P) {
    && p.st == q.st && p.sets == q.sets
    && p.utf.need == q.utf.need && (q.utf.need > 0 ==> p.utf.cp == q.utf.cp)
    && (q.st == Csi || q.st == CsiInt ==> p.csi == q.csi)
    && (q.st == EscInt ==> p.escInter == q.escInter)
    && (q.st == Osc || q.st == OscEsc ==> p.osc == q.osc)
  }

  predicate Same(pre: Grid, v: Vt, w: Vt) {
    ParsersAlike(v.p, w.p) && Alike(pre, v.s, w.s) && v.k == w.k
  }

  // ---- each kind of byte -----------------------------------------------------------------------

  lemma PrintSame(pre: Grid, v: Vt, w: Vt, cp: nat)
    requires Ok(v) && Ok(w) && Same(pre, v, w)
    ensures Same(pre, Print(v, cp), Print(w, cp))
  {
    hide S.PutRune, S.Ok, Alike;
    PutAlike(pre, v.s, w.s, Glyph(v.p.sets, cp));
  }

  lemma C0Same(pre: Grid, v: Vt, w: Vt, b: byte)
    requires Ok(v) && Ok(w) && Same(pre, v, w) && w.p.utf.need == 0
    ensures Same(pre, C0(v, b), C0(w, b))
  {
    hide S.Tab, S.Index, S.Ok, Alike;
    SameBuf(pre, v.s, w.s);
    TabAlike(pre, v.s, w.s);
    IndexAlike(pre, v.s, w.s);
    Moved(pre, v.s, w.s, 0, w.s.cur.y);
    if w.s.cur.x > 0 { Moved(pre, v.s, w.s, w.s.cur.x - 1, w.s.cur.y); }
  }

  lemma LeadSame(pre: Grid, v: Vt, w: Vt, b: byte)
    requires Ok(v) && Ok(w) && Same(pre, v, w) && w.p.st == Ground && w.p.utf.need == 0
    ensures Same(pre, Lead(v, b), Lead(w, b))
  {
    hide C0, Print, S.Ok, Alike;
    C0Same(pre, v, w, b);
    PrintSame(pre, v, w, b);
    PrintSame(pre, v, w, REPLACEMENT);
  }

  lemma GroundSame(pre: Grid, v: Vt, w: Vt, b: byte)
    requires Ok(v) && Ok(w) && Same(pre, v, w) && w.p.st == Ground
    ensures Same(pre, GroundByte(v, b), GroundByte(w, b))
  {
    hide Lead, Print, S.Ok, Alike;
    if w.p.utf.need > 0 && IsCont(b) {
      var cp, need := w.p.utf.cp * 64 + b % 64, w.p.utf.need - 1;
      var v1, w1 := WithUtf(v, cp, need), WithUtf(w, cp, need);
      if need == 0 { PrintSame(pre, v1, w1, cp); }
    } else {
      LeadSame(pre, WithUtf(v, v.p.utf.cp, 0), WithUtf(w, w.p.utf.cp, 0), b);
    }
  }

  lemma EscapeOpAlike(pre: Grid, s: S.Scr, f: S.Scr, b: byte)
    requires S.Ok(s) && S.Ok(f) && Alike(pre, s, f)
    ensures Alike(pre, EscapeOp(s, b), EscapeOp(f, b))
  {
    SameBuf(pre, s, f);
    if b == 77 { ReverseIndexAlike(pre, s, f); }
    if b == 68 { IndexAlike(pre, s, f); }
    if b == 69 { NextLineAlike(pre, s, f); }
    SavedCursorAlike(pre, s, f);
    if b == 99 { FullResetAlike(pre, s, f); }
    ModesAlike(pre, s, f, f.modes.(appKeypad := b == 61));
    TabStopsAlike(pre, s, f, true);
    hide S.ReverseIndex, S.Index, S.NextLine, S.SaveCursor, S.RestoreCursor, S.FullReset, S.SetTabStop, S.Ok, Alike;
  }

  lemma NextLineAlike(pre: Grid, s: S.Scr, f: S.Scr)
    requires S.Ok(s) && S.Ok(f) && Alike(pre, s, f)
    ensures Alike(pre, S.NextLine(s), S.NextLine(f))
  {
    SameBuf(pre, s, f);
    hide S.Index, Alike, GridOk;
    Moved(pre, s, f, 0, f.cur.y);
    IndexAlike(pre, S.CarriageReturn(s), S.CarriageReturn(f));
  }

  lemma EscapeSame(pre: Grid, v: Vt, w: Vt, b: byte)
    requires Ok(v) && Ok(w) && Same(pre, v, w) && w.p.utf.need == 0
    ensures Same(pre, EscapeByte(v, b), EscapeByte(w, b))
  {
    hide EscapeOp, S.Ok, Alike;
    EscapeOpAlike(pre, v.s, w.s, b);
  }

  // ---- control sequences -------------------------------------------------------------------------

  /** The cursor operations move the cursor and nothing else. */
  lemma OnlyMoves(c: Params, s: S.Scr, b: byte)
    requires CsiOk(c) && S.Ok(s) && b != 64
    ensures CursorOp(c, s, b) == s.(cur := CursorOp(c, s, b).cur)
  {
  }

  predicate SameFrame(s: S.Scr, f: S.Scr) {
    s.cols == f.cols && s.rows == f.rows && s.cur == f.cur && s.reg == f.reg && s.modes == f.modes
  }

  lemma SameSideways(c: Params, s: S.Scr, f: S.Scr, b: byte)
    requires CsiOk(c) && S.Ok(s) && S.Ok(f) && SameFrame(s, f)
    requires b == 67 || b == 97 || b == 68 || b == 71 || b == 96 || b == 72 || b == 102
    ensures CursorOp(c, s, b).cur == CursorOp(c, f, b).cur
  {
    hide GridOk, AsWord, Arg;
  }

  lemma SameUpDown(c: Params, s: S.Scr, f: S.Scr, b: byte)
    requires CsiOk(c) && S.Ok(s) && S.Ok(f) && SameFrame(s, f)
    requires b != 64 && !(b == 67 || b == 97 || b == 68 || b == 71 || b == 96 || b == 72 || b == 102)
    ensures CursorOp(c, s, b).cur == CursorOp(c, f, b).cur
  {
    hide GridOk, AsWord, Arg;
  }

  lemma Inserts(c: Params, s: S.Scr)
    requires CsiOk(c) && S.Ok(s)
    ensures CursorOp(c, s, 64) == S.InsertChars(s, AsWord(Arg(c, 0, 1)))
  {
  }

  lemma CursorOpAlike(pre: Grid, c: Params, s: S.Scr, f: S.Scr, b: byte)
    requires CsiOk(c) && S.Ok(s) && S.Ok(f) && Alike(pre, s, f)
    ensures Alike(pre, CursorOp(c, s, b), CursorOp(c, f, b))
  {
    hide CursorOp, Alike, S.Ok, S.InsertChars;
    if b == 64 {
      Inserts(c, s);
      Inserts(c, f);
      InsertCharsAlike(pre, s, f, AsWord(Arg(c, 0, 1)));
    } else {
      SameBuf(pre, s, f);
      OnlyMoves(c, s, b);
      OnlyMoves(c, f, b);
      if b == 67 || b == 97 || b == 68 || b == 71 || b == 96 || b == 72 || b == 102 {
        SameSideways(c, s, f, b);
      } else {
        SameUpDown(c, s, f, b);
      }
      MovedCursor(pre, s, f, CursorOp(c, f, b).cur);
    }
  }

  lemma EditOpAlike(pre: Grid, c: Params, s: S.Scr, f: S.Scr, b: byte)
    requires CsiOk(c) && S.Ok(s) && S.Ok(f) && Alike(pre, s, f)
    ensures Alike(pre, EditOp(c, s, b), EditOp(c, f, b))
  {
    hide S.EraseInDisplay, S.EraseInLine, S.InsertLines, S.DeleteLines, S.DeleteChars, S.EraseChars, S.ScrollUp,
         S.ScrollDown, S.Ok, Alike, AsWord;
    var n := AsWord(Arg(c, 0, 1));
    EraseScreenAlike(pre, s, f, Arg(c, 0, 0));
    EraseLineAlike(pre, s, f, Arg(c, 0, 0));
    InsertLinesAlike(pre, s, f, n);
    DeleteLinesAlike(pre, s, f, n);
    DeleteCharsAlike(pre, s, f, n);
    EraseCharsAlike(pre, s, f, n);
    ScrollUpAlike(pre, s, f, n);
    ScrollDownAlike(pre, s, f, n);
  }

  lemma ModeOpAlike(pre: Grid, c: Params, s: S.Scr, f: S.Scr, b: byte)
    requires CsiOk(c) && S.Ok(s) && S.Ok(f) && Alike(pre, s, f)
    ensures Alike(pre, ModeOp(c, s, b), ModeOp(c, f, b))
  {
    SameBuf(pre, s, f);
    hide S.SetScrollRegion, S.ClearAllTabs, S.SetTabStop, S.SaveCursor, S.RestoreCursor, S.Sgr, S.Ok, Alike;
    if b == 114 {
      RegionAlike(pre, s, f, Arg(c, 0, 0), if |c.vals| > 1 then Arg(c, 1, 0) else 0);
    } else if b == 109 {
      PenAlike(pre, s, f, if c.vals == [] then DEFAULT_PEN else S.Sgr(f.pen, c.vals, c.colons, 0));
    } else if b == 104 || b == 108 {
      ModesAlike(pre, s, f, f.modes.(insert := b == 104));
    } else if b == 103 {
      TabStopsAlike(pre, s, f, false);
    } else {
      SavedCursorAlike(pre, s, f);
    }
  }

  /** A private mode other than origin and the alternate screen is a flag and nothing else. */
  lemma OnlyFlags(s: S.Scr, f: S.Scr, m: int, on: bool)
    requires S.Ok(s) && S.Ok(f) && s.modes == f.modes && m !in {6, 47, 1047, 1049}
    ensures DecMode(s, m, on) == s.(modes := DecMode(f, m, on).modes)
  {
  }

  lemma DecModeAlike(pre: Grid, s: S.Scr, f: S.Scr, m: int, on: bool)
    requires S.Ok(s) && S.Ok(f) && Alike(pre, s, f)
    ensures Alike(pre, DecMode(s, m, on), DecMode(f, m, on))
  {
    if m == 6 {
      hide S.SetAltScreen, S.Ok, Alike, S.CursorTo;
      OriginHomed(pre, s, f, on);
    } else if m == 47 || m == 1047 || m == 1049 {
      hide S.SetAltScreen, S.Ok, Alike, S.CursorTo;
      AltAlike(pre, s, f, on);
    } else {
      hide DecMode, S.Ok, Alike;
      SameBuf(pre, s, f);
      OnlyFlags(s, f, m, on);
      OnlyFlags(f, f, m, on);
      ModesAlike(pre, s, f, DecMode(f, m, on).modes);
    }
  }

  lemma OriginHomed(pre: Grid, s: S.Scr, f: S.Scr, on: bool)
    requires S.Ok(s) && S.Ok(f) && Alike(pre, s, f)
    ensures Alike(pre, S.CursorTo(s.(modes := s.modes.(origin := on)), 0, 0),
                  S.CursorTo(f.(modes := f.modes.(origin := on)), 0, 0))
  {
    SameBuf(pre, s, f);
    ModesAlike(pre, s, f, f.modes.(origin := on));
    var s1, f1 := s.(modes := s.modes.(origin := on)), f.(modes := f.modes.(origin := on));
    MovedCursor(pre, s1, f1, S.CursorTo(f1, 0, 0).cur);
    hide Alike, GridOk;
  }

  lemma {:induction false} DecModesAlike(pre: Grid, vals: seq<int>, s: S.Scr, f: S.Scr, n: nat, on: bool)
    requires S.Ok(s) && S.Ok(f) && Alike(pre, s, f) && n <= |vals|
    ensures Alike(pre, DecModesTo(vals, s, n, on), DecModesTo(vals, f, n, on))
  {
    hide DecMode, S.Ok, Alike;
    if n > 0 {
      DecModesAlike(pre, vals, s, f, n - 1, on);
      DecModeAlike(pre, DecModesTo(vals, s, n - 1, on), DecModesTo(vals, f, n - 1, on), vals[n - 1], on);
    }
  }

  lemma DispatchAlike(pre: Grid, c: Params, s: S.Scr, f: S.Scr, b: byte)
    requires CsiOk(c) && S.Ok(s) && S.Ok(f) && Alike(pre, s, f)
    ensures Alike(pre, Dispatch(c, s, b).0, Dispatch(c, f, b).0) && Dispatch(c, s, b).1 == Dispatch(c, f, b).1
  {
    hide CursorOp, EditOp, ModeOp, DecModesTo, S.Ok, Alike;
    SameBuf(pre, s, f);
    DecModesAlike(pre, c.vals, s, f, |c.vals|, b == 104);
    CursorOpAlike(pre, c, s, f, b);
    EditOpAlike(pre, c, s, f, b);
    ModeOpAlike(pre, c, s, f, b);
  }

  lemma FinalSame(pre: Grid, v: Vt, w: Vt, b: byte)
    requires Ok(v) && Ok(w) && Same(pre, v, w) && (w.p.st == Csi || w.p.st == CsiInt)
    ensures Same(pre, Final(v, b), Final(w, b))
  {
    hide Dispatch, S.Ok, Alike;
    DispatchAlike(pre, Flushed(w.p.csi, false), v.s, w.s, b);
  }

  lemma OscSame(pre: Grid, v: Vt, w: Vt)
    requires Ok(v) && Ok(w) && Same(pre, v, w) && (w.p.st == Osc || w.p.st == OscEsc)
    ensures Same(pre, OscDone(v), OscDone(w))
  {
    hide S.MarkPrompt, S.MarkCmdExit, OscSinks, S.Ok, Alike;
    MarkAlike(pre, v.s, w.s);
    ExitAlike(pre, v.s, w.s, ExitOf(OscText(Lossy(w.p.osc))));
  }

  // ---- every byte, every run -----------------------------------------------------------------------

  lemma StepSame(pre: Grid, v: Vt, w: Vt, b: byte)
    requires Ok(v) && Ok(w) && Same(pre, v, w)
    ensures Same(pre, Step(v, b), Step(w, b))
  {
    hide GroundByte, EscapeByte, Final, OscDone, C0, S.Ok, Alike;
    match w.p.st {
      case Ground => GroundSame(pre, v, w, b);
      case Esc => EscapeSame(pre, v, w, b);
      case EscInt =>
      case Csi =>
        C0Same(pre, v, w, b);
        FinalSame(pre, v, w, b);
      case CsiInt => FinalSame(pre, v, w, b);
      case Osc => OscSame(pre, v, w);
      case OscEsc =>
        OscSame(pre, v, w);
        var v1, w1 := Go(v, Ground), Go(w, Ground);
        GroundSame(pre, v1, w1, ESC);
        EscFromGround(v1);
        EscFromGround(w1);
        EscapeSame(pre, GroundByte(v1, ESC), GroundByte(w1, ESC), b);
      case Str =>
    }
  }

  lemma {:induction false} RunSame(pre: Grid, v: Vt, w: Vt, data: Bytes)
    requires Ok(v) && Ok(w) && Same(pre, v, w)
    ensures Same(pre, Run(v, data), Run(w, data))
  {
    hide Step, S.Ok, POk, Same;
    if data != [] {
      var init, last := data[..|data| - 1], data[|data| - 1];
      RunSame(pre, v, w, init);
      StepSame(pre, Run(v, init), Run(w, init), last);
    }
  }

  predicate TermsAlike(pre: Grid, t: Term, u: Term) {
    ParsersAlike(t.p, u.p) && Alike(pre, t.s, u.s) && t.out == u.out
  }

  /** Alike terminals stay alike through any output and any resizes. */
  lemma {:induction false} StayAlike(pre: Grid, t: Term, u: Term, es: seq<Event>)
    requires TermOk(t) && TermOk(u) && TermsAlike(pre, t, u) && EventsOk(es)
    ensures TermsAlike(pre, After(t, es), After(u, es))
  {
    hide S.Ok, POk, Run, S.Resize, Alike, ParsersAlike;
    if es != [] {
      var m, n := After(t, es[..|es| - 1]), After(u, es[..|es| - 1]);
      StayAlike(pre, t, u, es[..|es| - 1]);
      match es[|es| - 1] {
        case Fed(data) => RunSame(pre, Vt(m.p, m.s, EMPTY), Vt(n.p, n.s, EMPTY), data);
        case Resized(c, r) => ResizeAlike(pre, m.s, n.s, c, r);
      }
    }
  }

  // ---- a reset terminal and a new one ---------------------------------------------------------------

  const RESET: Bytes := [ESC, 99]

  /** A new terminal, but for what the owner has yet to take: title, directory, clipboard request
      and replies are handed over as they are. */
  function NewTerm(t: Term): (f: Term)
    requires TermOk(t)
    ensures TermOk(f)
  {
    FreshTerm(t.s.cols, t.s.rows, t.s.hist.cap).(out := t.out)
  }

  /** Nothing left over from before: initial tab stops (inside the first and the last column, where
      a tab ends anyway), saved cursor and character sets. */
  predicate NothingLeft(t: Term) {
    && TabsAlike(t.s.tabs, S.TabStops(t.s.cols))
    && t.s.saved == S.Saved(0, 0, DEFAULT_PEN, false)
    && t.p.sets == START.sets
  }

  lemma EscRead(v: Vt)
    requires Ok(v) && v.p.st == Ground
    ensures var r := Step(v, ESC);
            r.p.st == Esc && r.p.utf.need == 0 && r.p.sets == v.p.sets && r.s == v.s && r.k == v.k
  {
    hide S.Ok;
  }

  /** ESC and one final byte act on the screen and leave the character sets alone. */
  lemma EscapeRead(v: Vt, b: byte)
    requires Ok(v) && v.p.st == Ground && (b == 99 || b == 56)
    ensures var r := Run(v, [ESC, b]);
            && r.p.st == Ground && r.p.utf.need == 0 && r.p.sets == v.p.sets
            && r.s == EscapeOp(v.s, b) && r.k == v.k
  {
    hide S.Ok, EscapeOp, Run, GroundByte;
    EscRead(v);
    Sequences.RunTwo(v, ESC, b);
  }

  lemma ResetIs(t: Term)
    requires TermOk(t) && t.p.st == Ground
    ensures var r := Feed(t, RESET);
            && r.s == S.FullReset(t.s) && r.out == t.out
            && r.p.st == Ground && r.p.utf.need == 0 && r.p.sets == t.p.sets
  {
    EscapeRead(Vt(t.p, t.s, EMPTY), 99);
    hide S.Ok, S.FullReset, Run;
    EmptyIsNeutral(t.out);
  }

  lemma NewScreen(cols: nat, rows: nat, cap: nat)
    requires 1 <= cols <= S.MAX_DIM && 1 <= rows <= S.MAX_DIM && 1 <= cap
    ensures var f := S.Fresh(cols, rows, cap);
            && f.tabs == S.TabStops(cols) && f.saved == S.Saved(0, 0, DEFAULT_PEN, false) && f.cols == cols
            && f.rows == rows && f.hist == S.History([], 0, cap) && f.pool == [] && f.prompts == []
            && !f.bufs.inAlt && NoGlyphs(f.bufs.primary)
  {
  }

  lemma SameShown(r: S.Scr, f: S.Scr)
    requires S.Ok(r) && S.Ok(f) && ShownBy(r) == ShownBy(f) && !f.bufs.inAlt
    ensures !r.bufs.inAlt && r.bufs.primary == f.bufs.primary && r.cur == f.cur && r.pen == f.pen
    ensures r.modes == f.modes && r.reg == f.reg
  {
    hide S.Ok, S.Hist, S.PromptMarks;
  }

  lemma ShownNew(s: S.Scr)
    requires S.Ok(s) && s.saved == S.Saved(0, 0, DEFAULT_PEN, false)
    ensures ShownBy(S.FullReset(s)) == ShownBy(S.Fresh(s.cols, s.rows, s.hist.cap))
  {
    hide S.FullReset, S.Fresh, GridOk, ShownBy;
    ResetIsFresh(s);
  }

  lemma AlikeWhen(pre: Grid, r: S.Scr, f: S.Scr)
    requires S.Ok(r) && S.Ok(f) && ShownBy(r) == ShownBy(f) && !f.bufs.inAlt && NoGlyphs(f.bufs.primary)
    requires r.cols == f.cols && r.rows == f.rows && r.pool == f.pool && r.saved == f.saved && TabsAlike(r.tabs, f.tabs)
    requires r.hist == S.History(pre, 0, f.hist.cap) && f.hist == S.History([], 0, f.hist.cap)
    requires r.prompts == [] && f.prompts == []
    ensures Alike(pre, r, f)
  {
    hide S.Ok, NoGlyphs, TabsAlike, ShownBy;
    SameShown(r, f);
    assert pre + [] == pre;
  }

  lemma AlikeNew(s: S.Scr)
    requires S.Ok(s) && TabsAlike(s.tabs, S.TabStops(s.cols)) && s.saved == S.Saved(0, 0, DEFAULT_PEN, false)
    ensures Alike(s.hist.log, S.FullReset(s), S.Fresh(s.cols, s.rows, s.hist.cap))
  {
    S.Bounds(s);
    hide S.FullReset, S.Fresh, S.Ok, NoGlyphs, TabsAlike, S.TabStops, ShownBy, Alike;
    ShownNew(s);
    ResetLeaves(s);
    NewScreen(s.cols, s.rows, s.hist.cap);
    AlikeWhen(s.hist.log, S.FullReset(s), S.Fresh(s.cols, s.rows, s.hist.cap));
  }

  /** What can be told from a terminal: what its screen shows and what it hands on. */
  predicate LooksLike(t: Term, u: Term)
    requires TermOk(t) && TermOk(u)
  {
    ShownBy(t.s) == ShownBy(u.s) && t.out == u.out
  }

  /** No output and no resizes ever tell the two apart. */
  ghost predicate NeverTold(t: Term, u: Term)
    requires TermOk(t) && TermOk(u)
  {
    forall es :: EventsOk(es) ==> LooksLike(After(t, es), After(u, es))
  }

  lemma NothingLeftSuffices(t: Term)
    requires TermOk(t) && t.p.st == Ground && NothingLeft(t)
    ensures NeverTold(Feed(t, RESET), NewTerm(t))
  {
    hide S.Ok, POk, Feed, S.FullReset, S.Fresh, S.TabStops, TabsAlike, Alike, After, ShownBy;
    ResetIs(t);
    AlikeNew(t.s);
    var r, f := Feed(t, RESET), NewTerm(t);
    forall es | EventsOk(es) ensures LooksLike(After(r, es), After(f, es)) {
      StayAlike(t.s.hist.log, r, f, es);
      AlikeShows(t.s.hist.log, After(r, es).s, After(f, es).s);
    }
  }

  // ---- what tells them apart otherwise ---------------------------------------------------------------

  lemma AfterOne(t: Term, e: Event)
    requires TermOk(t) && EventOk(e)
    ensures After(t, [e]) == Handle(t, e)
  {
    assert [e][..0] == [];
    assert After(t, []) == t;
  }

  lemma AfterTwo(t: Term, d: Event, e: Event)
    requires TermOk(t) && EventOk(d) && EventOk(e)
    ensures After(t, [d, e]) == Handle(Handle(t, d), e)
  {
    hide Handle, TermOk;
    assert [d, e][..1] == [d];
    AfterOne(t, d);
  }

  const RESTORE: seq<Event> := [Resized(2, 2), Fed([ESC, 56])]

  lemma Restores(t: Term)
    requires TermOk(t) && t.p.st == Ground
    ensures var (s, r, saved) := (t.s, After(t, RESTORE).s, t.s.saved);
            && r.cur == S.Cursor(Min(saved.cx, 1), Min(saved.cy, 1), false)
            && r.pen == saved.pen && r.modes.origin == saved.origin
  {
    hide S.Ok, POk, S.Resize, S.Resizable, Run, S.RestoreCursor, After;
    Sized(t.s);
    AfterTwo(t, Resized(2, 2), Fed([ESC, 56]));
    RestoredTo(S.Resize(t.s, 2, 2));
    EscapeRead(Vt(t.p, S.Resize(t.s, 2, 2), EMPTY), 56);
  }

  lemma RestoredTo(s: S.Scr)
    requires S.Ok(s) && s.cols == 2 && s.rows == 2
    ensures var r := S.RestoreCursor(s);
            && r.cur == S.Cursor(Min(s.saved.cx, 1), Min(s.saved.cy, 1), false)
            && r.pen == s.saved.pen && r.modes.origin == s.saved.origin
  {
  }

  lemma Sized(s: S.Scr)
    requires S.Ok(s)
    ensures S.Resizable(s)
    ensures S.Resize(s, 2, 2).cols == 2 && S.Resize(s, 2, 2).rows == 2 && S.Resize(s, 2, 2).saved == s.saved
  {
  }

  /** A saved cursor left over comes back with ESC 8, at the latest on a screen of two by two. */
  lemma SavedTells(t: Term, u: Term)
    requires TermOk(t) && TermOk(u) && t.p.st == Ground && u.p.st == Ground
    requires u.s.saved == S.Saved(0, 0, DEFAULT_PEN, false) && NeverTold(t, u)
    ensures t.s.saved == u.s.saved
  {
    Restores(t);
    Restores(u);
    hide S.Ok, POk, After;
    assert LooksLike(After(t, RESTORE), After(u, RESTORE));
  }

  /** Print an `a`: as it is, after shifting G1 in, and after making G0 line drawing. */
  const PROBES: seq<Bytes> := [[97], [0x0E, 97], [ESC, 40, 48, 97]]

  function Probed(sets: Charsets, i: nat): Charsets {
    if i == 0 then sets else if i == 1 then sets.(shiftOut := true) else sets.(g0 := true)
  }

  lemma ProbesTell(a: Charsets)
    requires forall i :: 0 <= i < 3 ==> Glyph(Probed(a, i), 97) == Glyph(Probed(START.sets, i), 97)
    ensures a == START.sets
  {
    assert Glyph(Probed(a, 0), 97) == Glyph(Probed(START.sets, 0), 97);
    assert Glyph(Probed(a, 1), 97) == Glyph(Probed(START.sets, 1), 97);
    assert Glyph(Probed(a, 2), 97) == Glyph(Probed(START.sets, 2), 97);
  }

  lemma LetterRead(v: Vt)
    requires Ok(v) && v.p.st == Ground && v.p.utf.need == 0
    ensures Step(v, 97).s == S.PutRune(v.s, Glyph(v.p.sets, 97))
  {
    hide S.Ok, S.PutRune, Glyph;
  }

  lemma ShiftRead(v: Vt)
    requires Ok(v) && v.p.st == Ground && v.p.utf.need == 0
    ensures var r := Step(v, 0x0E);
            r.p.st == Ground && r.p.utf.need == 0 && r.p.sets == v.p.sets.(shiftOut := true) && r.s == v.s
  {
    hide S.Ok;
  }

  lemma SetRead(v: Vt)
    requires Ok(v) && v.p.st == Esc && v.p.utf.need == 0
    ensures var r := Step(Step(v, 40), 48);
            r.p.st == Ground && r.p.utf.need == 0 && r.p.sets == v.p.sets.(g0 := true) && r.s == v.s
  {
    hide S.Ok, EscapeOp;
  }

  lemma RunSplit(v: Vt, a: byte, data: Bytes)
    requires Ok(v)
    ensures Run(v, [a] + data) == Run(Step(v, a), data)
  {
    RunAppend(v, [a], data);
    Sequences.RunOne(v, a);
  }

  lemma ProbeRead(v: Vt, i: nat)
    requires Ok(v) && v.p.st == Ground && v.p.utf.need == 0 && i < 3
    ensures Run(v, PROBES[i]).s == S.PutRune(v.s, Glyph(Probed(v.p.sets, i), 97))
  {
    hide S.Ok, POk, S.PutRune, Step, Run, Glyph;
    if i == 0 {
      Sequences.RunOne(v, 97);
      LetterRead(v);
    } else if i == 1 {
      Sequences.RunTwo(v, 0x0E, 97);
      ShiftRead(v);
      LetterRead(Step(v, 0x0E));
    } else {
      EscRead(v);
      var e := Step(v, ESC);
      SetRead(e);
      assert PROBES[2] == [ESC] + ([40] + [48, 97]);
      RunSplit(v, ESC, [40] + [48, 97]);
      RunSplit(e, 40, [48, 97]);
      Sequences.RunTwo(Step(e, 40), 48, 97);
      LetterRead(Step(Step(e, 40), 48));
    }
  }

  /** The glyph for `a` shows in the first cell of a screen whose cursor is there. */
  lemma GlyphShows(s: S.Scr, sets: Charsets)
    requires S.Ok(s) && s.cur == S.Cursor(0, 0, false)
    ensures S.Buf(S.PutRune(s, Glyph(sets, 97)))[0][0].rune == Glyph(sets, 97)
  {
    var cp := Glyph(sets, 97);
    assert WidthOf(cp) == 1;
    hide GridOk;
    assert S.PlacedRow(S.Buf(s)[0], 0, 1, s.modes.insert, cp, s.pen)[0].rune == cp;
  }

  lemma ProbeShows(t: Term, i: nat)
    requires TermOk(t) && t.p.st == Ground && t.p.utf.need == 0 && t.s.cur == S.Cursor(0, 0, false) && i < 3
    ensures S.Buf(After(t, [Fed(PROBES[i])]).s)[0][0].rune == Glyph(Probed(t.p.sets, i), 97)
  {
    hide S.PutRune, S.Ok, Run, Glyph;
    AfterOne(t, Fed(PROBES[i]));
    ProbeRead(Vt(t.p, t.s, EMPTY), i);
    GlyphShows(t.s, Probed(t.p.sets, i));
  }

  /** A character set left over changes how some letter is printed. */
  lemma SetsTell(t: Term, u: Term)
    requires TermOk(t) && TermOk(u) && t.p.st == Ground && u.p.st == Ground && t.p.utf.need == 0 && u.p.utf.need == 0
    requires u.p.sets == START.sets && u.s.cur == S.Cursor(0, 0, false) && NeverTold(t, u)
    ensures t.p.sets == u.p.sets
  {
    hide S.Ok, POk, Glyph, Probed;
    assert After(t, []) == t && After(u, []) == u;
    assert LooksLike(After(t, []), After(u, []));
    hide After;
    forall i | 0 <= i < 3 ensures Glyph(Probed(t.p.sets, i), 97) == Glyph(Probed(START.sets, i), 97) {
      ProbeShows(t, i);
      ProbeShows(u, i);
      assert LooksLike(After(t, [Fed(PROBES[i])]), After(u, [Fed(PROBES[i])]));
    }
    ProbesTell(t.p.sets);
  }

  /** To column x (from 1), which puts the cursor just left of stop x; then a tab. */
  function TabFrom(x: nat): Bytes { [ESC, 91] + Sequences.Rendered([x], [false]) + [71] }

  lemma TabReaches(t: Term, x: nat)
    requires TermOk(t) && t.p.st == Ground && 0 < x < t.s.cols - 1
    ensures After(t, [Fed(TabFrom(x)), Fed([9])]).s.cur.x == x <==> t.s.tabs[x]
  {
    hide S.Ok, Run, S.Tab, TabFrom;
    AfterTwo(t, Fed(TabFrom(x)), Fed([9]));
    ColumnRead(Vt(t.p, t.s, EMPTY), x);
    TabRead(Vt(Run(Vt(t.p, t.s, EMPTY), TabFrom(x)).p, S.MoveTo(t.s, x - 1, t.s.cur.y), EMPTY));
    TabStop(S.MoveTo(t.s, x - 1, t.s.cur.y), x);
  }

  lemma ColumnRead(v: Vt, x: nat)
    requires Ok(v) && v.p.st == Ground && 0 < x < v.s.cols - 1
    ensures var r := Run(v, TabFrom(x)); r.s == S.MoveTo(v.s, x - 1, v.s.cur.y) && r.p.st == Ground && S.Ok(r.s)
  {
    S.Bounds(v.s);
    ColumnDone(v.s, x);
    hide S.Ok, Run, Dispatch, Sequences.Rendered;
    Sequences.ParamsArrive(v, [x], [false], 71);
  }

  lemma ColumnDone(s: S.Scr, x: nat)
    requires S.Ok(s) && 0 < x < s.cols - 1
    ensures var c := NO_PARAMS.(vals := [x], colons := [false]);
            CsiOk(c) && Dispatch(c, s, 71).0 == S.MoveTo(s, x - 1, s.cur.y)
  {
    var c := NO_PARAMS.(vals := [x], colons := [false]);
    assert Dispatch(c, s, 71).0 == S.CursorCol(s, x - 1);
  }

  lemma TabRead(v: Vt)
    requires Ok(v) && v.p.st == Ground
    ensures Run(v, [9]).s == S.Tab(v.s)
  {
    hide S.Ok, S.Tab;
    Sequences.RunOne(v, 9);
  }

  lemma TabStop(s: S.Scr, x: nat)
    requires S.Ok(s) && s.cur.x == x - 1 && 0 < x < s.cols - 1
    ensures S.Tab(s).cur.x == x <==> s.tabs[x]
  {
  }

  /** A tab stop left over, or one missing, is found by a tab from the column before it. */
  lemma TabsTell(t: Term, u: Term)
    requires TermOk(t) && TermOk(u) && t.p.st == Ground && u.p.st == Ground
    requires t.s.cols == u.s.cols && NeverTold(t, u)
    ensures TabsAlike(t.s.tabs, u.s.tabs)
  {
    S.Bounds(t.s);
    S.Bounds(u.s);
    forall x | 0 < x < t.s.cols - 1 ensures t.s.tabs[x] == u.s.tabs[x] {
      hide S.Ok, POk, After, TabFrom, S.Hist, S.PromptMarks;
      TabReaches(t, x);
      TabReaches(u, x);
      var es := [Fed(TabFrom(x)), Fed([9])];
      assert EventsOk(es) && LooksLike(After(t, es), After(u, es));
    }
  }

  /** A terminal that was reset can never be told from a new one of its size that holds the same
      title, directory, clipboard request and replies, by any output and any resizes, exactly when
      it had the initial tab stops, saved cursor and character sets: these a full reset does not
      restore. */
  lemma ResetForGood(t: Term)
    requires TermOk(t) && t.p.st == Ground
    ensures NeverTold(Feed(t, RESET), NewTerm(t)) <==> NothingLeft(t)
  {
    hide S.Ok, POk, Feed, S.FullReset, S.Fresh, S.TabStops, TabsAlike, NeverTold;
    var r, f := Feed(t, RESET), NewTerm(t);
    if NothingLeft(t) { NothingLeftSuffices(t); }
    if NeverTold(r, f) {
      S.Bounds(t.s);
      ResetIs(t);
      ResetLeaves(t.s);
      NewScreen(t.s.cols, t.s.rows, t.s.hist.cap);
      FreshShown(t.s.cols, t.s.rows, t.s.hist.cap);
      SavedTells(r, f);
      SetsTell(r, f);
      TabsTell(r, f);
    }
  }

  /** What the owner has yet to take shows at once. */
  lemma OutTells(t: Term, u: Term)
    requires TermOk(t) && TermOk(u) && NeverTold(t, u)
    ensures t.out == u.out
  {
    hide S.Ok, POk, ShownBy;
    assert After(t, []) == t && After(u, []) == u;
    assert LooksLike(After(t, []), After(u, []));
  }

  lemma FreshDims(t: Term)
    requires TermOk(t)
    ensures t.s.cols <= S.MAX_DIM && t.s.rows <= S.MAX_DIM
    ensures var n := FreshTerm(t.s.cols, t.s.rows, t.s.hist.cap);
            n.out == EMPTY && (t.out == EMPTY ==> NewTerm(t) == n)
  {
    S.Bounds(t.s);
    hide S.Ok, POk, S.Fresh;
  }

  /** Against a wholly new terminal the title, directory, clipboard request and replies still held
      for the owner count too: a reset does not clear them either. */
  lemma ResetIsNew(t: Term)
    requires TermOk(t) && t.p.st == Ground
    ensures t.s.cols <= S.MAX_DIM && t.s.rows <= S.MAX_DIM
    ensures NeverTold(Feed(t, RESET), FreshTerm(t.s.cols, t.s.rows, t.s.hist.cap)) <==>
      NothingLeft(t) && t.out == EMPTY
  {
    FreshDims(t);
    ResetIs(t);
    hide S.Ok, POk, Feed, S.FullReset, FreshTerm, NewTerm, NothingLeft, NeverTold;
    var r, n := Feed(t, RESET), FreshTerm(t.s.cols, t.s.rows, t.s.hist.cap);
    ResetForGood(t);
    if NeverTold(r, n) { OutTells(r, n); }
  }
}
