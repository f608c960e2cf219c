/** A pane scrolled back between a feed and its tick: the tick moves the view by the lines it had
    not counted, although nothing was printed in between. */
module ScrollJump {
  import opened Cells
  import opened Text
  import opened ScreenModel
  import opened HistoryLaws
  import L = Layouts
  import M = ParserModel
  import F = Feeding
  import T = Typing

  const A: Bytes := [97]
  const B: Bytes := [98]
  const C: Bytes := [99]

  /** Two lines, a tick, a third line, and one line scrolled back. */
  const EVENTS: seq<PaneEvent> := [Screen(F.Fed(A + [13, 10] + B)), Tick, Screen(F.Fed([13, 10] + C)), Scroll(1)]

  function One(): M.Term { M.FreshTerm(1, 1, 10) }

  lemma TwoLines()
    ensures var s := M.Feed(One(), A + [13, 10] + B).s;
            Ok(s) && |s.hist.log| == 1 && Kept(s) == 1 && s.hist.log[0] == T.Padded(A, 1)
  {
    assert [A, B][..1] == [A] && T.Joined([A]) == A && T.Joined([A, B]) == A + [13, 10] + B;
    hide M.Feed, T.Joined;
    T.FirstTyped(1, 1, 10, [A, B]);
    T.Facts(M.Feed(One(), A + [13, 10] + B).s, [A, B]);
    T.Shown(M.Feed(One(), A + [13, 10] + B).s, [A, B], 0);
  }

  lemma Spelled()
    ensures T.Joined([A, B, C]) == (A + [13, 10] + B) + ([13, 10] + C)
  {
    assert [A, B, C][..2] == [A, B] && [A, B][..1] == [A];
    assert T.Joined([A]) == A;
    assert T.Joined([A, B]) == A + [13, 10] + B;
  }

  lemma TypedThree()
    ensures var s := M.Feed(One(), T.Joined([A, B, C])).s;
            Ok(s) && |s.hist.log| == 2 && Kept(s) == 2 && s.rows == 1
            && s.hist.log[0] == T.Padded(A, 1) && s.hist.log[1] == T.Padded(B, 1)
  {
    hide M.Feed, T.Joined;
    T.FirstTyped(1, 1, 10, [A, B, C]);
    var s := M.Feed(One(), T.Joined([A, B, C])).s;
    T.Facts(s, [A, B, C]);
    T.Shown(s, [A, B, C], 0);
    T.Shown(s, [A, B, C], 1);
  }

  lemma ThreeLines()
    ensures var t := M.Feed(M.Feed(One(), A + [13, 10] + B), [13, 10] + C);
            Ok(t.s) && |t.s.hist.log| == 2 && Kept(t.s) == 2 && t.s.rows == 1
            && t.s.hist.log[0] == T.Padded(A, 1) && t.s.hist.log[1] == T.Padded(B, 1)
  {
    hide M.Feed, T.Joined, Ok, M.POk, T.Padded;
    TypedThree();
    Spelled();
    F.ChunkInvariance(One(), A + [13, 10] + B, [13, 10] + C);
  }

  lemma BeforeTheTick() returns (p: Shown)
    ensures PaneOk(EVENTS) && M.TermOk(One()) && p == PaneAfter(Shown(One(), L.View(0, 0)), EVENTS)
    ensures p.t == M.Feed(M.Feed(One(), A + [13, 10] + B), [13, 10] + C) && p.v == L.View(1, 1)
  {
    hide M.Feed, Ok, Kept;
    TwoLines();
    ThreeLines();
    var p0 := Shown(One(), L.View(0, 0));
    assert EVENTS[..4] == EVENTS;
    Prefix(p0, 0);
    Prefix(p0, 1);
    Prefix(p0, 2);
    Prefix(p0, 3);
    hide PaneAfter;
    assert PaneAfter(p0, EVENTS[..2]).v == L.View(0, 1);
    p := PaneAfter(p0, EVENTS);
  }

  lemma Prefix(p: Shown, n: nat)
    requires n < 4 && M.TermOk(p.t) && PaneOk(EVENTS)
    ensures PaneAfter(p, EVENTS[..n + 1]) == PaneStep(PaneAfter(p, EVENTS[..n]), EVENTS[n])
    ensures PaneAfter(p, EVENTS[..0]) == p
  {
    assert EVENTS[..n + 1][..n] == EVENTS[..n];
    LastStep(p, EVENTS[..n + 1]);
  }

  /** The pane shows the line "b"; the tick fits and nothing is printed, and it shows "a". */
  lemma ViewJumps()
    ensures M.TermOk(One()) && PaneOk(EVENTS)
    ensures var p := PaneAfter(Shown(One(), L.View(0, 0)), EVENTS);
            var v := TickOn(p.v, p.t.s);
            && Scrolled(p.v, p.t.s) && Fits(p.v, p.t.s) && Scrolled(v, p.t.s)
            && ViewRow(p.t.s, p.v.off, 0) == T.Padded(B, 1) && ViewRow(p.t.s, v.off, 0) == T.Padded(A, 1)
            && T.Padded(A, 1) != T.Padded(B, 1)
  {
    hide M.Feed, Ok, PaneAfter;
    var p := BeforeTheTick();
    ThreeLines();
    assert T.Padded(A, 1)[0] == T.Glyph(97) && T.Padded(B, 1)[0] == T.Glyph(98);
    HistIsLog(p.t.s);
  }

  lemma HistIsLog(s: Scr)
    requires Ok(s) && Kept(s) == |s.hist.log|
    ensures Hist(s) == s.hist.log
  {
  }
}
