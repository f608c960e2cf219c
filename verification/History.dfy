/** History over whole runs: the log only grows, every pushed line keeps its place in it, and a
    scrolled-back pane keeps showing the same lines. */
module HistoryLaws {
  import opened Cells
  import opened Text
  import opened ScreenModel
  import opened ScreenOps
  import M = ParserModel
  import F = Feeding
  import L = Layouts

  /** Scrolling up with the region at the top of the primary screen, for every count: the
      leaving rows join history in order, the rest of the region moves up, blanks follow, and
      the rows below the region stay. */
  lemma ScrollUpExactly(s: Scr, n: nat)
    requires Ok(s) && !s.bufs.inAlt && s.reg.top == 0
    ensures var k := Min(n, s.reg.bot + 1);
            var r := ScrollUp(s, n);
            && r.hist.log == s.hist.log + s.bufs.primary[..k]
            && (forall y :: 0 <= y <= s.reg.bot - k ==> r.bufs.primary[y] == s.bufs.primary[y + k])
            && (forall y :: s.reg.bot - k < y <= s.reg.bot ==> r.bufs.primary[y] == BlankLine(s))
            && (forall y :: s.reg.bot < y < s.rows ==> r.bufs.primary[y] == s.bufs.primary[y])
            && r.bufs.alt == s.bufs.alt
  {
  }

  /** The ring after pushing keeps the newest lines of what it held and what came. */
  lemma PushKeepsNewest(h: History, lines: Grid)
    requires h.since <= |h.log| && 1 <= h.cap
    ensures var n := Min(h.cap, h.since);
            var r := Pushed(h, lines);
            var n' := Min(r.cap, r.since);
            n' == Min(h.cap, n + |lines|) && LastN(r.log, n') == LastN(LastN(h.log, n) + lines, n')
  {
    var n := Min(h.cap, h.since);
    var old' := h.log[..|h.log| - n];
    assert h.log + lines == old' + (LastN(h.log, n) + lines);
    LastOfTail(old', LastN(h.log, n) + lines, Min(h.cap, n + |lines|));
  }

  lemma LastOfTail(a: Grid, b: Grid, n: nat)
    requires n <= |b|
    ensures LastN(a + b, n) == LastN(b, n)
  {
  }

  /** What any output does to history: lines as wide as the screen join the log, the oldest
      kept line never gets older, and the lines since the last clear are counted. */
  predicate Advances(s: Scr, r: Scr)
    requires Ok(s) && Ok(r)
  {
    && Extends(s, r)
    && |r.hist.log| - Kept(r) >= |s.hist.log| - Kept(s)
    && (forall g :: |s.hist.log| <= g < |r.hist.log| ==> |r.hist.log[g]| == s.cols)
    && (r.hist.since == s.hist.since + |r.hist.log| - |s.hist.log| || r.hist.since <= |r.hist.log| - |s.hist.log|)
  }

  lemma AdvancesTwice(s: Scr, m: Scr, r: Scr)
    requires Ok(s) && Ok(m) && Ok(r) && Advances(s, m) && Advances(m, r)
    ensures Advances(s, r)
  {
  }

  lemma IndexAdvances(s: Scr)
    requires Ok(s)
    ensures Advances(s, Index(s))
  {
    ScrollAdvances(MoveTo(s, s.cur.x, s.cur.y), 1);
  }

  lemma ScrollAdvances(s: Scr, n: nat)
    requires Ok(s)
    ensures Advances(s, ScrollUp(s, n))
  {
    if !s.bufs.inAlt && s.reg.top == 0 {
      ScrollUpExactly(s, n);
    }
  }

  lemma WrapAdvances(s: Scr, wrap: bool)
    requires Ok(s)
    ensures Advances(s, if wrap then Index(MoveTo(s, 0, s.cur.y)) else s)
  {
    if wrap {
      IndexAdvances(MoveTo(s, 0, s.cur.y));
    } else {
      SameHistory(s, s);
    }
    hide Index;
  }

  lemma PutAdvances(s: Scr, cp: nat)
    requires Ok(s)
    ensures Advances(s, PutRune(s, cp))
  {
    hide Index, Advances, Place, AttachMark;
    if WidthOf(cp) != 0 {
      var s1 := Wrapped(s);
      WrapAdvances(s, s.cur.wrap);
      var again := WidthOf(cp) == 2 && s1.cur.x == s1.cols - 1 && s1.modes.autoWrap;
      var s2 := if again then Index(MoveTo(s1, 0, s1.cur.y)) else s1;
      WrapAdvances(s1, again);
      AdvancesTwice(s, s1, s2);
      PlaceAdvances(s2, cp, WidthOf(cp));
      AdvancesTwice(s, s2, PutRune(s, cp));
    } else {
      MarkAdvances(s, cp);
    }
  }

  lemma PlaceAdvances(s: Scr, cp: nat, w: nat)
    requires Ok(s) && 1 <= w <= 2
    ensures Advances(s, Place(s, cp, w))
  {
    SameHistory(s, Place(s, cp, w));
  }

  lemma MarkAdvances(s: Scr, cp: nat)
    requires Ok(s)
    ensures Advances(s, AttachMark(s, cp))
  {
    SameHistory(s, AttachMark(s, cp));
  }

  lemma SameHistory(s: Scr, r: Scr)
    requires Ok(s) && Ok(r) && s.cols == r.cols && s.rows == r.rows
    requires r.hist == s.hist || r.hist == s.hist.(since := 0)
    ensures Advances(s, r)
  {
  }

  lemma OpAdvances(s: Scr, op: Op)
    requires Ok(s) && Allowed(s, op)
    ensures Advances(s, Apply(s, op))
  {
    hide Advances;
    match op
    case Put(cp) => PutAdvances(s, cp);
    case Up(n) => ScrollAdvances(s, n);
    case _ =>
      SameOrCleared(s, op);
      SameHistory(s, Apply(s, op));
  }

  lemma SameOrCleared(s: Scr, op: Op)
    requires Ok(s) && Allowed(s, op) && !op.Put? && !op.Up?
    ensures var r := Apply(s, op);
            r.cols == s.cols && r.rows == s.rows && (r.hist == s.hist || r.hist == s.hist.(since := 0))
  {
  }

  lemma {:induction false} LeadsAdvances(s: Scr, ops: seq<Op>, r: Scr)
    requires Ok(s) && Ok(r) && Leads(s, ops, r)
    ensures Advances(s, r)
    decreases |ops|
  {
    hide Ok, Apply, Advances;
    if ops == [] {
      SameHistory(s, r);
    } else {
      OpAdvances(s, ops[0]);
      LeadsAdvances(Apply(s, ops[0]), ops[1..], r);
      AdvancesTwice(s, Apply(s, ops[0]), r);
    }
  }

  /** Output never rewrites history: whatever bytes are fed, the log is extended. */
  lemma FeedAdvances(t: M.Term, data: Bytes)
    requires M.TermOk(t)
    ensures Advances(t.s, M.Feed(t, data).s)
  {
    hide M.POk, Ok, Advances;
    var v := M.Vt(t.p, t.s, M.EMPTY);
    var ops := RunOps(v, data);
    LeadsAdvances(t.s, ops, M.Run(v, data).s);
  }

  lemma StaysWide(s: Scr, r: Scr)
    requires Ok(s) && Ok(r) && Advances(s, r) && HistWide(s)
    ensures HistWide(r)
  {
    hide GridOk;
    forall i | 0 <= i < |Hist(r)| ensures |Hist(r)[i]| >= r.cols {
      var g := |r.hist.log| - Kept(r) + i;
      assert Hist(r)[i] == r.hist.log[g];
      if g < |s.hist.log| {
        assert r.hist.log[g] == s.hist.log[g] == Hist(s)[g - (|s.hist.log| - Kept(s))];
      }
    }
  }

  /** Over any run of output and resizes the log is extended, so a line's number is for life. */
  lemma {:induction false} LogIsForever(t: M.Term, es: seq<F.Event>)
    requires M.TermOk(t) && F.EventsOk(es)
    ensures t.s.hist.log <= F.After(t, es).s.hist.log
  {
    hide M.POk, Ok, M.Feed, Resize;
    if es != [] {
      var init, last := es[..|es| - 1], es[|es| - 1];
      LogIsForever(t, init);
      var m := F.After(t, init);
      if last.Fed? {
        FeedAdvances(m, last.data);
      }
    }
  }

  /** No resize of the run makes the screen wider. */
  predicate NeverWidens(t: M.Term, es: seq<F.Event>)
    requires M.TermOk(t) && F.EventsOk(es)
  {
    es != [] ==>
      && NeverWidens(t, es[..|es| - 1])
      && F.After(t, es).s.cols <= F.After(t, es[..|es| - 1]).s.cols
  }

  /** Over every run of output and resizes that never widen the screen, every history line stays
      at least as wide as it, so whatever is selected can be read. */
  lemma {:induction false} RunKeepsHistWide(t: M.Term, es: seq<F.Event>)
    requires M.TermOk(t) && F.EventsOk(es) && HistWide(t.s) && NeverWidens(t, es)
    ensures HistWide(F.After(t, es).s)
  {
    hide M.POk, Ok, M.Feed, Resize, HistWide;
    if es != [] {
      var init, last := es[..|es| - 1], es[|es| - 1];
      RunKeepsHistWide(t, init);
      var m := F.After(t, init);
      match last {
        case Fed(data) =>
          FeedAdvances(m, data);
          StaysWide(m.s, M.Feed(m, data).s);
        case Resized(c, r) => ResizedWide(m.s, c, r);
      }
    }
  }

  /** A resize keeps the history lines as they are: they stay wide enough exactly when none is
      narrower than the new screen. */
  lemma ResizedWide(s: Scr, c: nat, r: nat)
    requires Ok(s) && c <= MAX_DIM && r <= MAX_DIM
    ensures var m := Resize(s, c, r);
            && (HistWide(m) <==> forall i :: 0 <= i < |Hist(s)| ==> |Hist(s)[i]| >= m.cols)
            && (HistWide(s) && m.cols <= s.cols ==> HistWide(m))
  {
    assert Hist(Resize(s, c, r)) == Hist(s);
    hide Resize;
  }

  // ---- the pinned viewport --------------------------------------------------------------

  function TickOn(v: L.View, s: Scr): L.View
    requires Ok(s)
  {
    L.Ticked(v, |s.hist.log|, Kept(s))
  }

  /** The global number of the line a view shows on top. */
  function TopLine(v: L.View, s: Scr): int { |s.hist.log| - v.off }

  /** The line the next tick will put on top, if it need not clamp: what the view showed when the
      counter was last noted. */
  function Pinned(v: L.View): int { v.last - v.off }

  /** The view is scrolled back within history, and its counter is not ahead of the screen's. */
  predicate Scrolled(v: L.View, s: Scr)
    requires Ok(s)
  {
    0 < v.off <= Kept(s) && v.last <= |s.hist.log|
  }

  /** The tick does not have to clamp: the pinned line is still in the ring. */
  predicate Fits(v: L.View, s: Scr)
    requires Ok(s)
  {
    v.off + Max(|s.hist.log| - v.last, 0) <= Kept(s)
  }

  /** Two views with the same line on top show the same rows of history. */
  lemma SameRow(s: Scr, r: Scr, o: nat, o': nat, y: nat)
    requires Ok(s) && Ok(r) && s.hist.log <= r.hist.log
    requires o <= Kept(s) && o' <= Kept(r) && |r.hist.log| - o' == |s.hist.log| - o
    requires y < o && y < s.rows && y < r.rows
    ensures ViewRow(r, o', y) == ViewRow(s, o, y)
  {
    assert Hist(r)[Kept(r) - o' + y] == r.hist.log[|r.hist.log| - o' + y];
    assert Hist(s)[Kept(s) - o + y] == s.hist.log[|s.hist.log| - o + y];
  }

  /** A tick that fits puts the pinned line on top, whatever was fed, and whether or not the user
      scrolled, since the last one. So after output that only extends the log it keeps the line
      that was on top at s exactly when the counter was up to date at s, and then it shows the very
      rows shown at s. */
  lemma TickKeepsView(s: Scr, r: Scr, v: L.View)
    requires Ok(s) && Ok(r) && s.hist.log <= r.hist.log && Scrolled(v, s) && Fits(v, r)
    ensures var v' := TickOn(v, r);
            && Scrolled(v', r) && v'.last == |r.hist.log| && TopLine(v', r) == Pinned(v)
            && (TopLine(v', r) == TopLine(v, s) <==> v.last == |s.hist.log|)
            && (v.last == |s.hist.log| ==>
                 forall y :: 0 <= y < v.off && y < s.rows && y < r.rows ==>
                    ViewRow(r, v'.off, y) == ViewRow(s, v.off, y))
  {
    hide ViewRow, Kept;
    var v' := TickOn(v, r);
    if v.last == |s.hist.log| {
      forall y | 0 <= y < v.off && y < s.rows && y < r.rows ensures ViewRow(r, v'.off, y) == ViewRow(s, v.off, y) {
        SameRow(s, r, v.off, v'.off, y);
      }
    }
  }

  /** A tick that does not fit: with new lines it stops at the oldest line kept, and the pinned
      line is gone; with none (history was cleared) it leaves the offset past what is kept. */
  lemma TickClamps(r: Scr, v: L.View)
    requires Ok(r) && 0 < v.off && v.last <= |r.hist.log|
    ensures Fits(v, r) <==> |r.hist.log| - Kept(r) <= Pinned(v)
    ensures !Fits(v, r) && v.last < |r.hist.log| ==>
      TickOn(v, r).off == Kept(r) && Pinned(v) < TopLine(TickOn(v, r), r)
    ensures !Fits(v, r) && v.last == |r.hist.log| ==> TickOn(v, r).off == v.off > Kept(r)
  {
  }

  // ---- runs of output, resizes, ticks and scrolling ------------------------------------------

  datatype PaneEvent = Screen(e: F.Event) | Tick | Scroll(lines: int)

  predicate PaneOk(es: seq<PaneEvent>) { forall i :: 0 <= i < |es| && es[i].Screen? ==> F.EventOk(es[i].e) }

  /** The user scrolls: the offset moves within what is kept; the counter is not touched. */
  function ScrollBy(v: L.View, s: Scr, lines: int): L.View
    requires Ok(s)
  {
    v.(off := Clamp(v.off + lines, 0, Kept(s)))
  }

  /** A terminal and one pane's view of it. */
  datatype Shown = Shown(t: M.Term, v: L.View)

  function PaneStep(p: Shown, e: PaneEvent): (r: Shown)
    requires M.TermOk(p.t) && (e.Screen? ==> F.EventOk(e.e))
    ensures M.TermOk(r.t)
  {
    match e
    case Screen(x) => p.(t := F.Handle(p.t, x))
    case Tick => p.(v := TickOn(p.v, p.t.s))
    case Scroll(lines) => p.(v := ScrollBy(p.v, p.t.s, lines))
  }

  function PaneAfter(p: Shown, es: seq<PaneEvent>): (r: Shown)
    requires M.TermOk(p.t) && PaneOk(es)
    ensures M.TermOk(r.t)
  {
    if es == [] then p else PaneStep(PaneAfter(p, es[..|es| - 1]), es[|es| - 1])
  }

  /** No tick of the run has to clamp. */
  predicate AllFit(p: Shown, es: seq<PaneEvent>)
    requires M.TermOk(p.t) && PaneOk(es)
  {
    es != [] ==>
      var m := PaneAfter(p, es[..|es| - 1]);
      AllFit(p, es[..|es| - 1]) && (es[|es| - 1].Tick? ==> Fits(m.v, m.t.s))
  }

  predicate NoScroll(es: seq<PaneEvent>) { forall i :: 0 <= i < |es| ==> !es[i].Scroll? }

  lemma HandleAdvances(t: M.Term, e: F.Event)
    requires M.TermOk(t) && F.EventOk(e)
    ensures t.s.hist.log <= F.Handle(t, e).s.hist.log
  {
    hide M.POk, Ok, M.Feed, Resize;
    if e.Fed? { FeedAdvances(t, e.data); }
  }

  /** Over every run, with any scrolling, the counter noted is never ahead of the screen's. */
  lemma {:induction false} CounterNeverAhead(p: Shown, es: seq<PaneEvent>)
    requires M.TermOk(p.t) && PaneOk(es) && p.v.last <= |p.t.s.hist.log|
    ensures PaneAfter(p, es).v.last <= |PaneAfter(p, es).t.s.hist.log|
    ensures p.t.s.hist.log <= PaneAfter(p, es).t.s.hist.log
  {
    hide M.TermOk, F.Handle, Kept;
    if es != [] {
      var init, e := es[..|es| - 1], es[|es| - 1];
      CounterNeverAhead(p, init);
      if e.Screen? { HandleAdvances(PaneAfter(p, init).t, e.e); }
    }
  }

  /** Until the user scrolls again, the pinned line and the offset's sign do not change. */
  lemma {:induction false} PinnedStays(p: Shown, es: seq<PaneEvent>)
    requires M.TermOk(p.t) && PaneOk(es) && NoScroll(es) && AllFit(p, es) && Scrolled(p.v, p.t.s)
    ensures var r := PaneAfter(p, es);
            r.v.off > 0 && r.v.last <= |r.t.s.hist.log| && Pinned(r.v) == Pinned(p.v)
  {
    hide M.TermOk, F.Handle, Kept;
    if es != [] {
      var init, e := es[..|es| - 1], es[|es| - 1];
      PinnedStays(p, init);
      if e.Screen? { HandleAdvances(PaneAfter(p, init).t, e.e); }
    }
  }

  /** At every tick of every run of output and resizes after the user scrolled, as long as none
      has to clamp, the pane shows the line pinned at the start on top. The view the user
      scrolled to is kept exactly when every line fed by then had been counted by a tick, and then
      every tick shows the very rows of history the user saw. */
  lemma PinnedForTheRun(p: Shown, es: seq<PaneEvent>)
    requires M.TermOk(p.t) && PaneOk(es) && NoScroll(es) && AllFit(p, es) && Scrolled(p.v, p.t.s)
    requires es != [] && es[|es| - 1].Tick?
    ensures var r := PaneAfter(p, es);
            var (s, s') := (p.t.s, r.t.s);
            && Scrolled(r.v, s') && TopLine(r.v, s') == Pinned(p.v)
            && (TopLine(r.v, s') == TopLine(p.v, s) <==> p.v.last == |s.hist.log|)
            && (p.v.last == |s.hist.log| ==>
                 forall y :: 0 <= y < p.v.off && y < s.rows && y < s'.rows ==>
                    ViewRow(s', r.v.off, y) == ViewRow(s, p.v.off, y))
  {
    var init := es[..|es| - 1];
    var m, r := PaneAfter(p, init), PaneAfter(p, es);
    PinnedStays(p, init);
    CounterNeverAhead(p, init);
    assert Fits(m.v, m.t.s);
    hide M.POk, PaneAfter, AllFit, ViewRow, Kept, Ok;
    assert r == PaneStep(m, Tick) by { LastStep(p, es); }
    if p.v.last == |p.t.s.hist.log| {
      forall y | 0 <= y < p.v.off && y < p.t.s.rows && y < r.t.s.rows
        ensures ViewRow(r.t.s, r.v.off, y) == ViewRow(p.t.s, p.v.off, y)
      {
        SameRow(p.t.s, r.t.s, p.v.off, r.v.off, y);
      }
    }
  }

  lemma LastStep(p: Shown, es: seq<PaneEvent>)
    requires M.TermOk(p.t) && PaneOk(es) && es != []
    ensures PaneAfter(p, es) == PaneStep(PaneAfter(p, es[..|es| - 1]), es[|es| - 1])
  {
  }
}
