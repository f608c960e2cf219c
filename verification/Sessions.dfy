/** The windows as they run: the lists of windows and tabs and the shared registry, changed in
    place by each action. Every method is proved against SessionModel. */
module SessionMachine {
  import opened Cells
  import opened Layouts
  import M = SessionModel

  class Application {
    var wins: seq<M.Win>
    var be: M.Backend

    function State(): M.App
      reads this
    {
      M.App(wins, be)
    }

    constructor ()
      ensures State() == M.STARTED
    {
      wins := [M.Win([M.NewTab(1)], 0, None, false)];
      be := M.Backend({1}, 1, [], {});
    }

    method OpenSession() returns (id: nat)
      modifies `be
      ensures be == M.Opened(old(be)) && id == be.next
    {
      id := be.next + 1;
      be := be.(next := id, registry := be.registry + {id});
    }

    method AddTab(w: nat)
      requires w < |wins|
      modifies this
      ensures State() == M.AddTab(old(State()), w)
    {
      var id := OpenSession();
      var win := wins[w];
      var tabs := win.tabs + [M.NewTab(id)];
      wins := wins[w := win.(tabs := tabs, active := |tabs| - 1)];
    }

    method SplitFocused(w: nat, sideBySide: bool)
      requires w < |wins| && wins[w].active < |wins[w].tabs|
      modifies this
      ensures State() == M.SplitFocused(old(State()), w, sideBySide)
    {
      var win := wins[w];
      var target := M.FocusedSession(win);
      var id := OpenSession();
      var root := SplitLayout(win.tabs[win.active].root, target, sideBySide, Some(NewPane(id))).0;
      wins := wins[w := win.(tabs := win.tabs[win.active := M.Tab(root, id)])];
    }

    /** `iter().position` over a window's tabs. */
    static method Position(ts: seq<M.Tab>, session: nat) returns (i: nat)
      ensures i == M.Position(ts, session)
    {
      i := 0;
      assert ts[0..] == ts;
      while i < |ts|
        invariant i <= |ts| && M.Position(ts, session) == i + M.Position(ts[i..], session)
      {
        if Find(ts[i].root, session).Some? { return; }
        assert ts[i..][1..] == ts[i + 1..];
        i := i + 1;
      }
    }

    method CloseSession(w: nat, session: nat, exited: bool)
      requires w < |wins|
      modifies this
      ensures State() == M.CloseSession(old(State()), w, session, exited)
    {
      hide RemoveLayout, FirstSession, Find;
      var win := wins[w];
      var i := Position(win.tabs, session);
      if i == |win.tabs| { return; }
      if exited {
        be := be.(exited := be.exited + {session});
      } else {
        be := be.(closed := be.closed + [session]);
      }
      be := be.(registry := be.registry - {session});
      var tab := win.tabs[i];
      match RemoveLayout(tab.root, session).0 {
        case Some(r) =>
          var focus := if tab.focus == session then FirstSession(r) else tab.focus;
          wins := wins[w := win.(tabs := win.tabs[i := M.Tab(r, focus)])];
        case None => RemoveTab(w, i);
      }
    }

    /** Take a tab out of its window; the last one takes the window with it. */
    method RemoveTab(w: nat, i: nat)
      requires w < |wins| && i < |wins[w].tabs|
      modifies `wins
      ensures wins == old(wins)[w := M.DropTab(old(wins)[w], i)]
    {
      var win := wins[w];
      var tabs := win.tabs[..i] + win.tabs[i + 1..];
      if tabs == [] {
        wins := wins[w := win.(tabs := tabs, closing := true)];
      } else {
        var active := if win.active >= |tabs| then |tabs| - 1 else win.active;
        wins := wins[w := win.(tabs := tabs, active := active)];
      }
    }

    /** Close each session and take it out of the registry. */
    method CloseEach(ids: seq<nat>)
      modifies `be
      ensures be == M.CloseIds(old(be), ids)
    {
      var was := be;
      assert ids[..0] == [] && was.closed + [] == was.closed;
      assert M.ToSet([]) == {};
      for n := 0 to |ids|
        invariant be == M.CloseIds(was, ids[..n])
      {
        be := be.(closed := be.closed + [ids[n]], registry := be.registry - {ids[n]});
        OneMore(ids, n);
        assert was.closed + ids[..n] + [ids[n]] == was.closed + (ids[..n] + [ids[n]]);
      }
      assert ids[..|ids|] == ids;
    }

    method CloseWholeTab(w: nat, i: nat)
      requires w < |wins|
      modifies this
      ensures State() == M.CloseWholeTab(old(State()), w, i)
    {
      if i >= |wins[w].tabs| { return; }
      var collected := new OutIds();
      collected.Collect(wins[w].tabs[i].root);
      assert [] + Sessions(wins[w].tabs[i].root) == Sessions(wins[w].tabs[i].root);
      CloseEach(collected.ids);
      RemoveTab(w, i);
    }

    /** Close whatever a window that is going away still owns. */
    method CloseAllSessions(win: M.Win)
      modifies `be
      ensures be == M.CloseIds(old(be), M.TabIds(win.tabs))
    {
      hide Sessions;
      var collected := new OutIds();
      assert win.tabs[..0] == [];
      for n := 0 to |win.tabs|
        invariant collected.ids == M.TabIds(win.tabs[..n]) && be == old(be)
      {
        collected.Collect(win.tabs[n].root);
        assert win.tabs[..n + 1][..n] == win.tabs[..n];
      }
      assert win.tabs[..|win.tabs|] == win.tabs;
      CloseEach(collected.ids);
    }

    /** A shell exited: every window is asked; those without the session do nothing. */
    method SessionExit(session: nat)
      modifies this
      ensures State() == M.SessionExit(old(State()), session, 0)
    {
      hide M.CloseSession;
      var n := |wins|;
      for w := 0 to n
        invariant |wins| == n
        invariant M.SessionExit(State(), session, w) == M.SessionExit(old(State()), session, 0)
      {
        SameWindows(State(), w, session);
        CloseSession(w, session, true);
      }
    }

    method MoveTabToNewWindow(w: nat, i: nat)
      requires w < |wins|
      modifies `wins
      ensures State() == M.MoveTab(old(State()), w, i)
    {
      var win := wins[w];
      if i >= |win.tabs| || win.detached.Some? { return; }
      RemoveTab(w, i);
      wins := wins[w := wins[w].(detached := Some(win.tabs[i]))];
    }

    method ResizeFocused(w: nat, wantSbs: bool, positive: bool)
      requires w < |wins| && wins[w].active < |wins[w].tabs|
      modifies `wins
      ensures State() == M.ResizeFocused(old(State()), w, wantSbs, positive)
    {
      hide ResizeSplit, M.FocusedSession;
      var win := wins[w];
      var tab := win.tabs[win.active];
      var delta := if positive then M.STEP else -M.STEP;
      var root := ResizeSplit(tab.root, M.FocusedSession(win), wantSbs, delta).0;
      wins := wins[w := win.(tabs := win.tabs[win.active := tab.(root := root)])];
    }

    /** Look up each pane of a tree by its session and tick it. */
    static method TickPanes(t: Layout, k: Counters) returns (root: Layout)
      requires AllDiffer(Sessions(t))
      ensures root == TickTree(t, k)
    {
      hide TickFirst, TickEach, TickTree, Sessions, AllDiffer;
      var collected := new OutIds();
      collected.Collect(t);
      var ids := collected.ids;
      assert ids == Sessions(t);
      root := t;
      TickNone(t, ids, k);
      for i := 0 to |ids|
        invariant root == TickEach(t, ids[..i], k)
      {
        TickOneMore(t, ids, i, k);
        root := TickFirst(root, ids[i], k);
      }
      assert ids[..|ids|] == ids;
      EachIsEvery(t, k);
    }

    /** One window's part of a repaint. */
    method OnRedrawTick(w: nat, k: Counters)
      requires w < |wins| && M.PanesDiffer(wins[w])
      modifies `wins
      ensures wins == old(wins)[w := old(wins)[w].(tabs := M.TickTabs(old(wins)[w].tabs, k))]
    {
      var was := wins[w].tabs;
      var tabs := was;
      for n := 0 to |was|
        invariant |tabs| == |was| && wins == old(wins)
        invariant forall j :: 0 <= j < |was| ==>
          tabs[j] == if j < n then was[j].(root := TickTree(was[j].root, k)) else was[j]
      {
        var root := TickPanes(was[n].root, k);
        tabs := tabs[n := was[n].(root := root)];
      }
      assert tabs == M.TickTabs(was, k);
      wins := wins[w := wins[w].(tabs := tabs)];
    }

    /** Take every detached tab out of its window. */
    method TakeDetached() returns (moved: seq<M.Tab>)
      modifies `wins
      ensures moved == M.Detached(old(wins)) && wins == M.KeptAll(old(wins))
    {
      var was := wins;
      moved := [];
      assert was[..0] == [];
      for n := 0 to |wins|
        invariant |wins| == |was| && moved == M.Detached(was[..n])
        invariant forall j :: 0 <= j < |was| ==> wins[j] == if j < n then M.Kept(was[j]) else was[j]
      {
        if wins[n].detached.Some? {
          moved := moved + [wins[n].detached.value];
        } else {
          assert moved + [] == moved;
        }
        wins := wins[n := wins[n].(detached := None)];
        assert was[..n + 1][..n] == was[..n];
      }
      assert was[..|was|] == was;
    }

    /** Windows for moved tabs open, windows that asked to close go, with all they still own. */
    method Reconcile()
      modifies this
      ensures State() == M.Reconcile(old(State()))
    {
      hide M.CloseIds, M.TabIds;
      var moved := TakeDetached();
      ghost var kept := wins;
      assert M.AdoptAll([]) == [] && kept + [] == kept && moved[..0] == [];
      for n := 0 to |moved|
        invariant wins == kept + M.AdoptAll(moved[..n]) && be == old(be)
      {
        wins := wins + [M.Adopting(moved[n])];
        assert M.AdoptAll(moved[..n + 1]) == M.AdoptAll(moved[..n]) + [M.Adopting(moved[n])];
      }
      assert moved[..|moved|] == moved;
      var i := 0;
      while i < |wins|
        invariant i <= |wins|
        invariant M.DropClosing(State(), i) == M.Reconcile(old(State()))
        decreases |wins| - i
      {
        if wins[i].closing {
          var w := wins[i];
          wins := wins[..i] + wins[i + 1..];
          CloseAllSessions(w);
        } else {
          i := i + 1;
        }
      }
    }
  }

  lemma TickNone(t: Layout, ids: seq<nat>, k: Counters)
    ensures TickEach(t, ids[..0], k) == t
  {
  }

  lemma TickOneMore(t: Layout, ids: seq<nat>, i: nat, k: Counters)
    requires i < |ids|
    ensures TickEach(t, ids[..i + 1], k) == TickFirst(TickEach(t, ids[..i], k), ids[i], k)
  {
    assert ids[..i + 1][..i] == ids[..i];
    hide TickFirst;
  }

  lemma OneMore(ids: seq<nat>, n: nat)
    requires n < |ids|
    ensures ids[..n + 1] == ids[..n] + [ids[n]] && M.ToSet(ids[..n + 1]) == M.ToSet(ids[..n]) + {ids[n]}
  {
    var a := ids[..n + 1];
    assert a[n] == ids[n] && forall i :: 0 <= i < n ==> a[i] == ids[..n][i];
  }

  lemma SameWindows(a: M.App, w: nat, session: nat)
    requires w < |a.wins|
    ensures |M.CloseSession(a, w, session, true).wins| == |a.wins|
  {
  }
}
