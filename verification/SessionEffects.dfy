/** What each user action does to windows, tabs and focus: which tab is shown and which session has
    the keys afterwards, and that nothing else changes. */
module SessionEffects {
  import opened Cells
  import opened Layouts
  import opened SessionModel
  import SessionLaws

  /** The state between events. */
  ghost predicate Calm(a: App) { Ok(a) && Settled(a) }

  // ---- reconciling ------------------------------------------------------------------------------

  predicate NoneLeaving(ws: seq<Win>) { forall i :: 0 <= i < |ws| ==> !ws[i].closing && ws[i].detached.None? }

  lemma {:induction false} NothingDetached(ws: seq<Win>)
    requires forall i :: 0 <= i < |ws| ==> ws[i].detached.None?
    ensures Detached(ws) == []
  {
    if ws != [] { NothingDetached(ws[..|ws| - 1]); }
  }

  lemma {:induction false} NothingDropped(a: App, i: nat)
    requires i <= |a.wins| && (forall j :: 0 <= j < |a.wins| ==> !a.wins[j].closing)
    ensures DropClosing(a, i) == a
    decreases |a.wins| - i
  {
    if i < |a.wins| { NothingDropped(a, i + 1); }
  }

  /** With no window leaving and no tab on its way there is nothing to do. */
  lemma ReconcileIdle(a: App)
    requires NoneLeaving(a.wins)
    ensures Reconcile(a) == a
  {
    NothingDetached(a.wins);
    assert KeptAll(a.wins) == a.wins;
    assert AdoptAll([]) == [] && a.wins + [] == a.wins;
    NothingDropped(a, 0);
  }

  /** One window closing is dropped, with all it still owns. */
  lemma {:induction false} OneDropped(a: App, w: nat, i: nat)
    requires i <= w < |a.wins| && a.wins[w].closing
    requires forall j :: 0 <= j < |a.wins| && j != w ==> !a.wins[j].closing
    ensures DropClosing(a, i) == App(RemoveAt(a.wins, w), CloseIds(a.be, TabIds(a.wins[w].tabs)))
    decreases w - i
  {
    if i < w {
      OneDropped(a, w, i + 1);
    } else {
      var b := App(RemoveAt(a.wins, w), CloseIds(a.be, TabIds(a.wins[w].tabs)));
      assert forall j :: 0 <= j < |b.wins| ==> b.wins[j] == if j < w then a.wins[j] else a.wins[j + 1];
      NothingDropped(b, w);
    }
  }

  lemma ReconcileDrops(a: App, w: nat)
    requires w < |a.wins| && a.wins[w].closing && (forall j :: 0 <= j < |a.wins| ==> a.wins[j].detached.None?)
    requires forall j :: 0 <= j < |a.wins| && j != w ==> !a.wins[j].closing
    ensures Reconcile(a) == App(RemoveAt(a.wins, w), CloseIds(a.be, TabIds(a.wins[w].tabs)))
  {
    NothingDetached(a.wins);
    assert KeptAll(a.wins) == a.wins;
    assert AdoptAll([]) == [] && a.wins + [] == a.wins;
    OneDropped(a, w, 0);
  }

  /** One window changed, and none leaves. */
  lemma StillCalm(a: App, w: nat, win: Win)
    requires Settled(a) && w < |a.wins| && !win.closing && win.detached.None?
    ensures NoneLeaving(a.wins[w := win])
  {
  }

  // ---- opening ------------------------------------------------------------------------------------

  /** A new tab comes last, is shown, and holds one new session, which has the keys. */
  lemma OpenTabDoes(a: App, w: nat)
    requires Calm(a) && w < |a.wins|
    ensures var (r, win, id) := (Step(a, OpenTab(w)), a.wins[w], a.be.next + 1);
            var tab := Tab(Leaf(Pane(id, View(0, 0))), id);
            var now := Win(win.tabs + [tab], |win.tabs|, None, false);
            && r.wins == a.wins[w := now] && FocusedSession(now) == id
            && r.be == a.be.(next := id, registry := a.be.registry + {id})
  {
    var win := AddTab(a, w).wins[w];
    StillCalm(a, w, win);
    ReconcileIdle(AddTab(a, w));
    hide Ok, Reconcile;
  }

  lemma FocusFound(a: App, w: nat)
    requires Calm(a) && w < |a.wins|
    ensures a.wins[w].active < |a.wins[w].tabs|
    ensures var t := a.wins[w].tabs[a.wins[w].active];
            FocusedSession(a.wins[w]) == t.focus && PathTo(t.root, t.focus).Some? && t.focus in Sessions(t.root)
  {
    var t := a.wins[w].tabs[a.wins[w].active];
    assert WinOk(a.wins[w]) && TabOk(t);
    FindFinds(t.root, t.focus);
    PathIsPath(t.root, t.focus);
  }

  /** Splitting puts a new session beside the one with the keys, in the orientation asked for and
      evenly, and gives it the keys; the rest of the tree, the other tabs and windows stay. */
  lemma SplitDoes(a: App, w: nat, sideBySide: bool)
    requires Calm(a) && w < |a.wins|
    ensures a.wins[w].active < |a.wins[w].tabs|
    ensures var (r, win, id) := (Step(a, SplitPane(w, sideBySide)), a.wins[w], a.be.next + 1);
            var t := win.tabs[win.active];
            && PathTo(t.root, t.focus).Some?
            && var path := PathTo(t.root, t.focus).value;
               IsPath(t.root, path) &&
               var pair := Split(sideBySide, 0.5, NodeAt(t.root, path), Leaf(Pane(id, View(0, 0))));
               && r.wins == a.wins[w := win.(tabs := win.tabs[win.active := Tab(WithNode(t.root, path, pair), id)])]
               && r.be == a.be.(next := id, registry := a.be.registry + {id})
  {
    FocusFound(a, w);
    var win := a.wins[w];
    var t := win.tabs[win.active];
    var path := PathTo(t.root, t.focus).value;
    SplitShape(t.root, t.focus, sideBySide, Pane(a.be.next + 1, View(0, 0)), path);
    var b := SplitFocused(a, w, sideBySide);
    StillCalm(a, w, b.wins[w]);
    ReconcileIdle(b);
    hide Ok, Reconcile, SplitLayout, PathTo, FocusedSession;
  }

  // ---- which tab is shown after one is gone ---------------------------------------------------------

  /** The place before, among n tabs, of the tab shown after tab i was closed while tab a was shown. */
  function ShownThen(a: nat, i: nat, n: nat): nat
    requires a < n && i < n && n >= 2
  {
    if i > a then a
    else if i < a then Min(a + 1, n - 1)
    else if a + 1 < n then a + 1 else a - 1
  }

  /** When a tab behind the shown one goes, the shown one stays; when the shown one goes, the next is
      shown, or the last; when one before it goes, the next one is shown as well, unless the shown one
      is last. So the tab shown stays exactly when one behind it goes, or it is last and not the one. */
  lemma ShownAfterDrop(win: Win, i: nat)
    requires |win.tabs| >= 2 && win.active < |win.tabs| && i < |win.tabs|
    ensures var (r, n) := (DropTab(win, i), |win.tabs|);
            var k := ShownThen(win.active, i, n);
            && r.tabs == win.tabs[..i] + win.tabs[i + 1..] && r.active < |r.tabs|
            && k < n && k != i && r.tabs[r.active] == win.tabs[k] && !(r.closing && !win.closing)
            && (k == win.active <==> i > win.active || (i < win.active && win.active == n - 1))
  {
  }

  // ---- closing -----------------------------------------------------------------------------------------

  /** A tab without one session's panes, the keys where they were or with the first pane left. */
  predicate LostPane(t: Tab, now: Tab, session: nat) {
    && Panes(now.root) == Without(Panes(t.root), session) != []
    && now.focus == if t.focus == session then Panes(now.root)[0].session else t.focus
  }

  /** Closing one pane of several: the tab keeps its other panes in order; the keys stay where they
      were, or go to the first pane left if the closed one had them. */
  lemma ClosePaneDoes(a: App, w: nat, i: nat, session: nat)
    requires Calm(a) && w < |a.wins| && i < |a.wins[w].tabs| && Position(a.wins[w].tabs, session) == i
    requires var t := a.wins[w].tabs[i]; Without(Panes(t.root), session) != []
    ensures var (r, win, t) := (Step(a, ClosePane(w, session)), a.wins[w], a.wins[w].tabs[i]);
            && |r.wins| == |a.wins| && |r.wins[w].tabs| == |win.tabs|
            && LostPane(t, r.wins[w].tabs[i], session)
            && r.wins == a.wins[w := win.(tabs := win.tabs[i := r.wins[w].tabs[i]])]
            && r.be == a.be.(registry := a.be.registry - {session}, closed := a.be.closed + [session])
  {
    var t := a.wins[w].tabs[i];
    RemoveKeepsRest(t.root, session);
    var root := RemoveLayout(t.root, session).0.value;
    FirstIsFirst(root);
    var b := CloseSession(a, w, session, false);
    StillCalm(a, w, b.wins[w]);
    ReconcileIdle(b);
    hide Ok, Reconcile, RemoveLayout, Without, Panes;
  }

  /** A session that exits leaves the registry like one that is closed, and is counted among those
      that exited instead of those closed; the windows change in the same way. */
  lemma ExitedNotClosed(a: App, w: nat, session: nat)
    requires w < |a.wins| && Position(a.wins[w].tabs, session) < |a.wins[w].tabs|
    ensures var (c, e) := (CloseSession(a, w, session, false), CloseSession(a, w, session, true));
            && c.wins == e.wins && c.be.registry == e.be.registry == a.be.registry - {session}
            && c.be.closed == a.be.closed + [session] && c.be.exited == a.be.exited
            && e.be.closed == a.be.closed && e.be.exited == a.be.exited + {session}
  {
  }

  /** Closing a tab of several closes its sessions in order and shows a tab as `ShownAfterDrop` says;
      closing the last one closes the window. */
  lemma CloseTabDoes(a: App, w: nat, i: nat)
    requires Calm(a) && w < |a.wins| && i < |a.wins[w].tabs|
    ensures var (r, win, ids) := (Step(a, CloseTab(w, i)), a.wins[w], Sessions(a.wins[w].tabs[i].root));
            && r.be.closed == a.be.closed + ids
            && (forall id :: id in r.be.registry <==> id in a.be.registry && id !in ids)
            && r.be.exited == a.be.exited && r.be.next == a.be.next
            && r.wins == if |win.tabs| == 1 then a.wins[..w] + a.wins[w + 1..] else a.wins[w := DropTab(win, i)]
  {
    var b := CloseWholeTab(a, w, i);
    var win, now := a.wins[w], b.wins[w];
    hide Ok, Reconcile, Sessions;
    if |win.tabs| == 1 {
      assert now.tabs == [] && now.closing;
      ReconcileDrops(b, w);
      assert TabIds([]) == [] && b.be.closed + [] == b.be.closed;
      assert RemoveAt(b.wins, w) == a.wins[..w] + a.wins[w + 1..];
    } else {
      StillCalm(a, w, now);
      ReconcileIdle(b);
    }
  }

  // ---- moving and choosing -----------------------------------------------------------------------------

  /** A tab moved to a new window is that window's only tab, with its panes and focus, and is gone from
      the old one. */
  lemma DetachDoes(a: App, w: nat, i: nat)
    requires Calm(a) && w < |a.wins| && i < |a.wins[w].tabs| && |a.wins[w].tabs| >= 2
    ensures var r := Step(a, Detach(w, i));
            && r.wins == a.wins[w := DropTab(a.wins[w], i)] + [Win([a.wins[w].tabs[i]], 0, None, false)]
            && r.be == a.be
  {
    var t, gone := a.wins[w].tabs[i], DropTab(a.wins[w], i);
    assert !gone.closing && gone.detached.None?;
    var b := MoveTab(a, w, i);
    assert b == a.(wins := a.wins[w := gone.(detached := Some(t))]);
    hide Ok, DropTab, MoveTab, KeptAll, Detached, Reconcile;
    OneDetached(b.wins, w);
    KeptIs(a.wins, w, gone, t);
    Adopted(b, t);
  }

  lemma KeptIs(ws: seq<Win>, w: nat, gone: Win, t: Tab)
    requires w < |ws| && (forall j :: 0 <= j < |ws| ==> ws[j].detached.None?) && gone.detached.None?
    ensures KeptAll(ws[w := gone.(detached := Some(t))]) == ws[w := gone]
  {
  }

  /** The one tab on its way gets a window of its own. */
  lemma Adopted(b: App, t: Tab)
    requires Detached(b.wins) == [t] && (forall j :: 0 <= j < |KeptAll(b.wins)| ==> !KeptAll(b.wins)[j].closing)
    ensures Reconcile(b) == b.(wins := KeptAll(b.wins) + [Win([t], 0, None, false)])
  {
    hide Detached, KeptAll;
    assert AdoptAll([t]) == [Adopting(t)];
    NothingDropped(b.(wins := KeptAll(b.wins) + AdoptAll([t])), 0);
  }

  lemma {:induction false} OneDetached(ws: seq<Win>, w: nat)
    requires w < |ws| && ws[w].detached.Some?
    requires forall j :: 0 <= j < |ws| && j != w ==> ws[j].detached.None?
    ensures Detached(ws) == [ws[w].detached.value]
  {
    var n := |ws| - 1;
    if w == n {
      NothingDetached(ws[..n]);
    } else {
      OneDetached(ws[..n], w);
      assert [ws[w].detached.value] + [] == [ws[w].detached.value];
    }
  }

  /** A click gives the keys to the session clicked; a switch shows the tab chosen. */
  lemma ChoosingDoes(a: App, w: nat, session: nat, i: nat)
    requires Calm(a) && w < |a.wins| && i < |a.wins[w].tabs|
    ensures Enabled(a, Click(w, session)) ==>
      var r := Step(a, Click(w, session));
      var (win, t) := (a.wins[w], a.wins[w].tabs[a.wins[w].active]);
      && r == a.(wins := a.wins[w := win.(tabs := win.tabs[win.active := t.(focus := session)])])
      && FocusedSession(r.wins[w]) == session
    ensures Step(a, Switch(w, i)) == a.(wins := a.wins[w := a.wins[w].(active := i)])
  {
    var s := Handled(a, Switch(w, i));
    StillCalm(a, w, s.wins[w]);
    ReconcileIdle(s);
    if Enabled(a, Click(w, session)) {
      var c := Handled(a, Click(w, session));
      StillCalm(a, w, c.wins[w]);
      ReconcileIdle(c);
      FindFinds(a.wins[w].tabs[a.wins[w].active].root, session);
    }
    hide Ok, Reconcile, Sessions, Find;
  }

  predicate Moved(t: Layout, path: seq<bool>, wantSbs: bool, delta: real, r: Layout) {
    MovedNearest(t, path, wantSbs, delta, r, true) || MovedNearest(t, path, wantSbs, delta, r, false)
  }

  /** Moving the divider moves the one nearest to the pane with the keys by a twenty-fifth, to the right
      or down when positive, and nothing else. */
  lemma DividerDoes(a: App, w: nat, wantSbs: bool, positive: bool)
    requires Calm(a) && w < |a.wins|
    ensures a.wins[w].active < |a.wins[w].tabs|
    ensures var (r, win) := (Step(a, MoveDivider(w, wantSbs, positive)), a.wins[w]);
            var t := win.tabs[win.active];
            && PathTo(t.root, t.focus).Some? && |r.wins| == |a.wins| && |r.wins[w].tabs| == |win.tabs|
            && var now := r.wins[w].tabs[win.active].root;
               && r == a.(wins := a.wins[w := win.(tabs := win.tabs[win.active := t.(root := now)])])
               && Moved(t.root, PathTo(t.root, t.focus).value, wantSbs, if positive then 0.04 else -0.04, now)
  {
    FocusFound(a, w);
    var win := a.wins[w];
    var t := win.tabs[win.active];
    var delta := if positive then 0.04 else -0.04;
    ResizeMovesNearest(t.root, t.focus, wantSbs, delta);
    var b := ResizeFocused(a, w, wantSbs, positive);
    StillCalm(a, w, b.wins[w]);
    ReconcileIdle(b);
    hide Ok, Reconcile, ResizeSplit, PathTo, MovedNearest, FocusedSession;
    var (root, inSub, adj) := ResizeSplit(t.root, t.focus, wantSbs, delta);
    assert MovedNearest(t.root, PathTo(t.root, t.focus).value, wantSbs, delta, root, adj);
  }

  /** A pane after a repaint: scrolled back, it follows the lines that have scrolled off since its
      counter was noted, as far as there is history; at the bottom it stays there. */
  predicate Followed(p: Pane, r: Pane, k: Counters) {
    && r.session == p.session && r.view.last == k(p.session).0
    && (p.view.off == 0 ==> r.view.off == 0)
    && (k(p.session).0 <= p.view.last ==> r.view.off == p.view.off)
    && (p.view.off > 0 && k(p.session).0 > p.view.last ==>
          r.view.off == Min(p.view.off + (k(p.session).0 - p.view.last), k(p.session).1))
  }

  /** A repaint brings every pane of every tab up to date, and changes no focus, no tab shown, no
      pane's place and no session. */
  lemma RepaintDoes(a: App, k: Counters, w: nat, i: nat)
    requires Calm(a) && w < |a.wins| && i < |a.wins[w].tabs|
    ensures var r := Step(a, Repaint(k));
            && r.be == a.be && |r.wins| == |a.wins|
            && r.wins[w].active == a.wins[w].active && |r.wins[w].tabs| == |a.wins[w].tabs|
            && var (t, u) := (a.wins[w].tabs[i], r.wins[w].tabs[i]);
               && u.focus == t.focus && |Panes(u.root)| == |Panes(t.root)|
               && (forall j :: 0 <= j < |Panes(t.root)| ==> Followed(Panes(t.root)[j], Panes(u.root)[j], k))
               && RatiosUnit(t.root) && RatiosUnit(u.root)
               && (forall area :: Rects(u.root, area) == Rects(t.root, area))
  {
    var b := Handled(a, Repaint(k));
    forall j | 0 <= j < |b.wins| ensures !b.wins[j].closing && b.wins[j].detached.None? {
      assert !a.wins[j].closing && a.wins[j].detached.None?;
    }
    ReconcileIdle(b);
    var t := a.wins[w].tabs[i];
    assert WinOk(a.wins[w]) && TabOk(t);
    BoundsAreUnit(t.root);
    TickTreeExactly(t.root, k);
    assert TickWins(a.wins, k)[w].tabs == TickTabs(a.wins[w].tabs, k);
    assert TickTabs(a.wins[w].tabs, k)[i] == t.(root := TickTree(t.root, k));
    hide Ok, Reconcile, Panes, Rects, TickTree, RatiosOk, RatiosUnit;
  }

  /** Closing a window closes the sessions of its tabs, in order, and takes it away. */
  lemma CloseWindowDoes(a: App, w: nat)
    requires Calm(a) && w < |a.wins|
    ensures var (r, ids) := (Step(a, CloseWindow(w)), TabIds(a.wins[w].tabs));
            && r.wins == a.wins[..w] + a.wins[w + 1..] && r.be.closed == a.be.closed + ids
            && (forall id :: id in r.be.registry <==> id in a.be.registry && id !in ids)
            && r.be.exited == a.be.exited && r.be.next == a.be.next
  {
    var b := Handled(a, CloseWindow(w));
    ReconcileDrops(b, w);
    assert b.wins[..w] == a.wins[..w] && b.wins[w + 1..] == a.wins[w + 1..];
    hide Ok, Reconcile, TabIds;
  }
}
