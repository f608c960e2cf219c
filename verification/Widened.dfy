/** A selection that cannot be read: a line goes into history, the screen is widened, and the line
    is shorter than the columns asked for. */
module Widened {
  import opened Cells
  import opened ScreenModel
  import M = ParserModel
  import F = Feeding
  import T = Typing
  import ScrollJump

  /** Two lines on a screen of one row and one column, then a second column. */
  const EVENTS: seq<F.Event> := [F.Fed(ScrollJump.A + [13, 10] + ScrollJump.B), F.Resized(2, 1)]

  lemma Steps(t: M.Term, d: F.Event, e: F.Event)
    requires M.TermOk(t) && F.EventOk(d) && F.EventOk(e)
    ensures F.After(t, [d, e]) == F.Handle(F.Handle(t, d), e)
  {
    hide F.Handle, M.TermOk;
    assert [d, e][..1] == [d] && [d][..0] == [];
    assert F.After(t, []) == t;
  }

  lemma LineLeft()
    ensures var s := M.Feed(ScrollJump.One(), ScrollJump.A + [13, 10] + ScrollJump.B).s;
            Ok(s) && Hist(s) == [T.Padded(ScrollJump.A, 1)]
  {
    hide M.Feed, Ok, T.Padded;
    ScrollJump.TwoLines();
  }

  lemma WidenedKeeps(s: Scr)
    requires Ok(s)
    ensures var r := Resize(s, 2, 1); r.cols == 2 && Hist(r) == Hist(s) && Kept(r) == Kept(s)
  {
  }

  /** The first column of the line in history can be read, both columns cannot. */
  lemma WidenedUnreadable()
    ensures F.EventsOk(EVENTS) && M.TermOk(ScrollJump.One())
    ensures var s := F.After(ScrollJump.One(), EVENTS).s;
            && s.cols == 2 && AbsLine(s, 0) == Some(T.Padded(ScrollJump.A, 1))
            && Readable(s, 0, 0, 0, 0) && !Readable(s, 0, 0, 0, 1)
  {
    hide M.Feed, Ok, Resize, F.After;
    var m := M.Feed(ScrollJump.One(), ScrollJump.A + [13, 10] + ScrollJump.B);
    LineLeft();
    Steps(ScrollJump.One(), EVENTS[0], EVENTS[1]);
    assert EVENTS == [EVENTS[0], EVENTS[1]];
    var s := F.After(ScrollJump.One(), EVENTS).s;
    WidenedKeeps(m.s);
    Bounds(s);
    assert AbsLine(s, 0) == Some(Hist(s)[0]);
    assert !Indexable(s, 0, FirstCol(0, 0, 0), LastCol(s, 0, 0, 1));
  }
}
