/** What every run of the windows keeps: no session is owned twice, the registry is exactly the
    sessions owned, every session ever opened is accounted for, no stored tree has a placeholder,
    and each tab's focus names one of its panes. */
module SessionLaws {
  import opened Cells
  import opened Layouts
  import opened SessionModel

  // ---- counting ---------------------------------------------------------------------------------

  lemma {:induction false} OccAppend(a: seq<nat>, b: seq<nat>, id: nat)
    ensures Occ(a + b, id) == Occ(a, id) + Occ(b, id)
  {
    if b == [] {
      assert a + b == a;
    } else {
      assert (a + b)[..|a + b| - 1] == a + b[..|b| - 1];
      OccAppend(a, b[..|b| - 1], id);
    }
  }

  lemma {:induction false} OccIn(ids: seq<nat>, id: nat)
    ensures Occ(ids, id) >= 1 <==> id in ids
    ensures id in ids <==> id in ToSet(ids)
  {
    if ids != [] {
      OccIn(ids[..|ids| - 1], id);
      assert ids == ids[..|ids| - 1] + [ids[|ids| - 1]];
    }
  }

  lemma OccOne(x: nat, id: nat)
    ensures Occ([x], id) == One(x == id)
  {
    assert [x][..0] == [];
  }

  lemma {:induction false} OccInserted(ps: seq<Pane>, target: nat, x: Pane, id: nat)
    ensures Occ(Ids(InsertAfter(ps, target, x)), id) ==
      Occ(Ids(ps), id) + One(target in Ids(ps) && x.session == id)
  {
    if ps == [] {
      assert Ids(ps) == [];
    } else {
      var rest := ps[1..];
      assert ps == [ps[0]] + rest && Ids(ps) == [ps[0].session] + Ids(rest);
      OccAppend([ps[0].session], Ids(rest), id);
      if ps[0].session == target {
        assert Ids(InsertAfter(ps, target, x)) == [ps[0].session] + [x.session] + Ids(rest);
        OccAppend([ps[0].session] + [x.session], Ids(rest), id);
        OccAppend([ps[0].session], [x.session], id);
        OccOne(x.session, id);
        assert Ids(ps)[0] == target;
      } else {
        OccInserted(rest, target, x, id);
        assert Ids(InsertAfter(ps, target, x)) == [ps[0].session] + Ids(InsertAfter(rest, target, x));
        OccAppend([ps[0].session], Ids(InsertAfter(rest, target, x)), id);
      }
    }
  }

  lemma {:induction false} OccWithout(ps: seq<Pane>, session: nat, id: nat)
    ensures Occ(Ids(Without(ps, session)), id) == if id == session then 0 else Occ(Ids(ps), id)
  {
    if ps == [] {
      assert Ids(ps) == [] && Ids(Without(ps, session)) == [];
    } else {
      var rest := ps[1..];
      OccWithout(rest, session, id);
      assert ps == [ps[0]] + rest && Ids(ps) == [ps[0].session] + Ids(rest);
      OccAppend([ps[0].session], Ids(rest), id);
      OccOne(ps[0].session, id);
      var head := if ps[0].session == session then [] else [ps[0]];
      IdsAppend(head, Without(rest, session));
      OccAppend(Ids(head), Ids(Without(rest, session)), id);
      assert Ids(head) == if ps[0].session == session then [] else [ps[0].session];
    }
  }

  lemma {:induction false} TabsAppend(a: seq<Tab>, b: seq<Tab>, id: nat)
    ensures InTabs(a + b, id) == InTabs(a, id) + InTabs(b, id)
  {
    hide InTab;
    if b == [] {
      assert a + b == a;
    } else {
      assert (a + b)[..|a + b| - 1] == a + b[..|b| - 1];
      TabsAppend(a, b[..|b| - 1], id);
    }
  }

  lemma TabsOne(t: Tab, id: nat)
    ensures InTabs([t], id) == InTab(t, id)
  {
    assert [t][..0] == [];
  }

  /** A list of tabs around its i-th. */
  lemma TabsAround(ts: seq<Tab>, i: nat, id: nat)
    requires i < |ts|
    ensures InTabs(ts, id) == InTabs(ts[..i], id) + InTab(ts[i], id) + InTabs(ts[i + 1..], id)
    ensures InTabs(RemoveAt(ts, i), id) == InTabs(ts, id) - InTab(ts[i], id)
    ensures forall t :: InTabs(ts[i := t], id) == InTabs(ts, id) - InTab(ts[i], id) + InTab(t, id)
  {
    hide InTab;
    assert ts == ts[..i] + [ts[i]] + ts[i + 1..];
    TabsAppend(ts[..i] + [ts[i]], ts[i + 1..], id);
    TabsAppend(ts[..i], [ts[i]], id);
    TabsOne(ts[i], id);
    TabsAppend(ts[..i], ts[i + 1..], id);
    forall t ensures InTabs(ts[i := t], id) == InTabs(ts, id) - InTab(ts[i], id) + InTab(t, id) {
      assert ts[i := t] == ts[..i] + [t] + ts[i + 1..];
      TabsAppend(ts[..i] + [t], ts[i + 1..], id);
      TabsAppend(ts[..i], [t], id);
      TabsOne(t, id);
    }
  }

  lemma {:induction false} WinsAppend(a: seq<Win>, b: seq<Win>, id: nat)
    ensures InWins(a + b, id) == InWins(a, id) + InWins(b, id)
  {
    hide InWin;
    if b == [] {
      assert a + b == a;
    } else {
      assert (a + b)[..|a + b| - 1] == a + b[..|b| - 1];
      WinsAppend(a, b[..|b| - 1], id);
    }
  }

  lemma WinsOne(w: Win, id: nat)
    ensures InWins([w], id) == InWin(w, id)
  {
    assert [w][..0] == [];
  }

  lemma WinsAround(ws: seq<Win>, i: nat, id: nat)
    requires i < |ws|
    ensures InWins(ws, id) >= InWin(ws[i], id)
    ensures InWins(RemoveAt(ws, i), id) == InWins(ws, id) - InWin(ws[i], id)
    ensures forall w :: InWins(ws[i := w], id) == InWins(ws, id) - InWin(ws[i], id) + InWin(w, id)
  {
    hide InWin;
    assert ws == ws[..i] + [ws[i]] + ws[i + 1..];
    WinsAppend(ws[..i] + [ws[i]], ws[i + 1..], id);
    WinsAppend(ws[..i], [ws[i]], id);
    WinsOne(ws[i], id);
    WinsAppend(ws[..i], ws[i + 1..], id);
    forall w ensures InWins(ws[i := w], id) == InWins(ws, id) - InWin(ws[i], id) + InWin(w, id) {
      assert ws[i := w] == ws[..i] + [w] + ws[i + 1..];
      WinsAppend(ws[..i] + [w], ws[i + 1..], id);
      WinsAppend(ws[..i], [w], id);
      WinsOne(w, id);
    }
  }

  lemma {:induction false} TabIdsCount(ts: seq<Tab>, id: nat)
    ensures Occ(TabIds(ts), id) == InTabs(ts, id)
  {
    if ts != [] {
      TabIdsCount(ts[..|ts| - 1], id);
      OccAppend(TabIds(ts[..|ts| - 1]), Sessions(ts[|ts| - 1].root), id);
    }
  }

  // ---- one window changes -------------------------------------------------------------------------

  /** A window is replaced, and the registry changes by the difference. */
  lemma OwnedAfter(a: App, w: nat, win: Win, be: Backend)
    requires Owned(a) && w < |a.wins|
    requires (forall k: nat :: InWin(win, k) + One(k in a.be.registry) == InWin(a.wins[w], k) + One(k in be.registry))
    ensures Owned(WithWin(a, w, win).(be := be))
  {
    hide InWin, InWins;
    forall id: nat ensures InWins(a.wins[w := win], id) == One(id in be.registry) {
      WinsAround(a.wins, w, id);
      assert InWin(win, id) + One(id in a.be.registry) == InWin(a.wins[w], id) + One(id in be.registry);
      assert InWins(a.wins, id) == One(id in a.be.registry);
    }
  }

  lemma OpenedLedger(be: Backend)
    requires LedgerOk(be)
    ensures LedgerOk(Opened(be)) && be.next + 1 !in be.registry
  {
    hide Occ;
    var id := be.next + 1;
    assert One(id in be.registry) + Occ(be.closed, id) + One(id in be.exited) == 0;
  }

  lemma GoneLedger(be: Backend, session: nat, exited: bool)
    requires LedgerOk(be) && session in be.registry
    ensures LedgerOk(Gone(be, session, exited))
  {
    var r := Gone(be, session, exited);
    forall id: nat ensures One(id in r.registry) + Occ(r.closed, id) + One(id in r.exited) == One(1 <= id <= r.next) {
      assert One(id in be.registry) + Occ(be.closed, id) + One(id in be.exited) == One(1 <= id <= be.next);
      OccAppend(be.closed, [session], id);
      OccOne(session, id);
    }
  }

  lemma ClosedLedger(be: Backend, ids: seq<nat>)
    requires LedgerOk(be) && (forall id: nat :: Occ(ids, id) <= One(id in be.registry))
    ensures LedgerOk(CloseIds(be, ids))
  {
    hide Occ;
    var r := CloseIds(be, ids);
    forall id: nat ensures One(id in r.registry) + Occ(r.closed, id) + One(id in r.exited) == One(1 <= id <= r.next) {
      assert One(id in be.registry) + Occ(be.closed, id) + One(id in be.exited) == One(1 <= id <= be.next);
      assert Occ(ids, id) <= One(id in be.registry);
      OccAppend(be.closed, ids, id);
      OccIn(ids, id);
    }
  }

  // ---- tabs ------------------------------------------------------------------------------------

  /** The focused session is the tab's focus, and names one of its panes. */
  lemma FocusNamesPane(w: Win)
    requires WinOk(w) && w.active < |w.tabs|
    ensures FocusedSession(w) == w.tabs[w.active].focus && FocusedSession(w) in Sessions(w.tabs[w.active].root)
  {
    assert TabOk(w.tabs[w.active]);
    FindFinds(w.tabs[w.active].root, w.tabs[w.active].focus);
  }

  lemma NewTabOk(id: nat)
    ensures TabOk(NewTab(id)) && forall x: nat :: InTab(NewTab(id), x) == One(x == id)
  {
    assert Sessions(NewTab(id).root) == [id];
    forall x: nat ensures InTab(NewTab(id), x) == One(x == id) {
      OccOne(id, x);
    }
  }

  lemma SplitTabOk(t: Tab, target: nat, sideBySide: bool, id: nat)
    requires TabOk(t) && target in Sessions(t.root)
    ensures TabOk(SplitTab(t, target, sideBySide, id))
    ensures forall x: nat :: InTab(SplitTab(t, target, sideBySide, id), x) == InTab(t, x) + One(x == id)
  {
    hide EmptyFree, RatiosOk, SplitLayout, Panes, InsertAfter, Occ;
    var r := SplitTab(t, target, sideBySide, id);
    SplitInserts(t.root, target, sideBySide, NewPane(id));
    forall x: nat ensures InTab(r, x) == InTab(t, x) + One(x == id) {
      OccInserted(Panes(t.root), target, NewPane(id), x);
    }
    assert InTab(r, id) >= 1;
    OccIn(Sessions(r.root), id);
  }

  lemma WithoutSessionOk(t: Tab, session: nat)
    requires TabOk(t)
    ensures match RemoveLayout(t.root, session).0
            case Some(r) => TabOk(WithoutSession(t, r, session))
              && forall x: nat :: InTab(WithoutSession(t, r, session), x) == if x == session then 0 else InTab(t, x)
            case None => forall x: nat :: x != session ==> InTab(t, x) == 0
  {
    hide EmptyFree, RatiosOk, RemoveLayout, Panes, Without, Occ;
    RemoveKeepsRest(t.root, session);
    match RemoveLayout(t.root, session).0 {
      case None =>
        forall x: nat | x != session ensures InTab(t, x) == 0 {
          OccWithout(Panes(t.root), session, x);
          OccIn(Ids(Without(Panes(t.root), session)), x);
        }
      case Some(r) =>
        var t' := WithoutSession(t, r, session);
        forall x: nat ensures InTab(t', x) == if x == session then 0 else InTab(t, x) {
          OccWithout(Panes(t.root), session, x);
        }
        FirstIsFirst(r);
        OccIn(Sessions(t.root), t.focus);
        OccIn(Sessions(r), t.focus);
        assert t.focus != session ==> InTab(t', t.focus) == InTab(t, t.focus) >= 1;
        assert t.focus == session ==> t'.focus == Sessions(r)[0];
    }
  }

  lemma ResizedTabOk(t: Tab, focus: nat, wantSbs: bool, delta: real)
    requires TabOk(t)
    ensures var r := t.(root := ResizeSplit(t.root, focus, wantSbs, delta).0);
            TabOk(r) && forall x: nat :: InTab(r, x) == InTab(t, x)
  {
    ResizeKeeps(t.root, focus, wantSbs, delta);
  }

  // ---- each action keeps the invariant ---------------------------------------------------------

  /** What changes in one window and the backend, to keep everything. */
  lemma Kept(a: App, w: nat, win: Win, be: Backend)
    requires Ok(a) && w < |a.wins| && WinOk(win) && LedgerOk(be)
    requires (forall k: nat :: InWin(win, k) + One(k in a.be.registry) == InWin(a.wins[w], k) + One(k in be.registry))
    ensures Ok(WithWin(a, w, win).(be := be))
  {
    hide LedgerOk, WinOk, InWin;
    OwnedAfter(a, w, win, be);
  }

  lemma AddedTabOk(win: Win, id: nat)
    requires WinOk(win)
    ensures var win' := win.(tabs := win.tabs + [NewTab(id)], active := |win.tabs|);
            WinOk(win') && forall x: nat :: InWin(win', x) == InWin(win, x) + One(x == id)
  {
    NewTabOk(id);
    hide TabOk, InTab, InTabs, NewTab;
    var win' := win.(tabs := win.tabs + [NewTab(id)], active := |win.tabs|);
    forall x: nat ensures InWin(win', x) == InWin(win, x) + One(x == id) {
      TabsAppend(win.tabs, [NewTab(id)], x);
      TabsOne(NewTab(id), x);
      assert InTab(NewTab(id), x) == One(x == id);
    }
  }

  lemma SplitWinOk(win: Win, sideBySide: bool, id: nat)
    requires WinOk(win) && win.active < |win.tabs|
    ensures var t := SplitTab(win.tabs[win.active], FocusedSession(win), sideBySide, id);
            var win' := win.(tabs := win.tabs[win.active := t]);
            WinOk(win') && forall x: nat :: InWin(win', x) == InWin(win, x) + One(x == id)
  {
    FocusNamesPane(win);
    var t := win.tabs[win.active];
    assert TabOk(t);
    SplitTabOk(t, FocusedSession(win), sideBySide, id);
    hide TabOk, InTab, InTabs, SplitTab, FocusedSession;
    var t' := SplitTab(t, FocusedSession(win), sideBySide, id);
    var win' := win.(tabs := win.tabs[win.active := t']);
    forall x: nat ensures InWin(win', x) == InWin(win, x) + One(x == id) {
      TabsAround(win.tabs, win.active, x);
      assert InTab(t', x) == InTab(t, x) + One(x == id);
    }
  }

  /** A window gains the session just opened. */
  lemma OpenedKeeps(a: App, w: nat, win: Win)
    requires Ok(a) && w < |a.wins| && WinOk(win)
    requires (forall x: nat :: InWin(win, x) == InWin(a.wins[w], x) + One(x == a.be.next + 1))
    ensures Ok(WithWin(a, w, win).(be := Opened(a.be)))
  {
    OkLedger(a);
    OpenedLedger(a.be);
    hide Ok, LedgerOk, WinOk, InWin;
    Kept(a, w, win, Opened(a.be));
  }

  lemma WinIsOk(a: App, w: nat)
    requires Ok(a) && w < |a.wins|
    ensures WinOk(a.wins[w])
  {
  }

  lemma AddTabKeeps(a: App, w: nat)
    requires Ok(a) && w < |a.wins|
    ensures Ok(AddTab(a, w))
  {
    hide Ok, WinOk, InWin, NewTab;
    var win, id := a.wins[w], a.be.next + 1;
    WinIsOk(a, w);
    AddedTabOk(win, id);
    OpenedKeeps(a, w, win.(tabs := win.tabs + [NewTab(id)], active := |win.tabs|));
  }

  lemma SplitKeeps(a: App, w: nat, sideBySide: bool)
    requires Ok(a) && w < |a.wins| && a.wins[w].active < |a.wins[w].tabs|
    ensures Ok(SplitFocused(a, w, sideBySide))
  {
    hide Ok, WinOk, InWin, SplitTab, FocusedSession;
    var win, id := a.wins[w], a.be.next + 1;
    WinIsOk(a, w);
    SplitWinOk(win, sideBySide, id);
    var t := SplitTab(win.tabs[win.active], FocusedSession(win), sideBySide, id);
    OpenedKeeps(a, w, win.(tabs := win.tabs[win.active := t]));
  }

  /** Dropping a tab leaves a window in order. */
  lemma DropTabOk(w: Win, i: nat)
    requires WinOk(w) && i < |w.tabs|
    ensures WinOk(DropTab(w, i))
    ensures forall x: nat :: InWin(DropTab(w, i), x) == InWin(w, x) - InTab(w.tabs[i], x)
    ensures DropTab(w, i).detached == w.detached
  {
    hide TabOk, InTab, InTabs;
    forall x: nat ensures InWin(DropTab(w, i), x) == InWin(w, x) - InTab(w.tabs[i], x) {
      TabsAround(w.tabs, i, x);
    }
  }

  /** The tab found for a session has it, and no one else does. */
  lemma SessionHere(a: App, w: nat, session: nat)
    requires Ok(a) && w < |a.wins| && Position(a.wins[w].tabs, session) < |a.wins[w].tabs|
    ensures session in a.be.registry
    ensures InTab(a.wins[w].tabs[Position(a.wins[w].tabs, session)], session) == 1 == InWin(a.wins[w], session)
  {
    var ts := a.wins[w].tabs;
    var i := Position(ts, session);
    FindFinds(ts[i].root, session);
    OccIn(Sessions(ts[i].root), session);
    hide WinsOk, LedgerOk, Position, TabOk;
    TabsAround(ts, i, session);
    WinsAround(a.wins, w, session);
    hide InTabs, InWins;
    assert InWins(a.wins, session) == One(session in a.be.registry);
  }

  lemma CloseInWinOk(w: Win, i: nat, session: nat)
    requires WinOk(w) && i < |w.tabs| && InTab(w.tabs[i], session) == 1
    ensures WinOk(CloseInWin(w, i, session))
    ensures forall x: nat :: InWin(CloseInWin(w, i, session), x) == InWin(w, x) - One(x == session)
  {
    var t := w.tabs[i];
    assert TabOk(t);
    WithoutSessionOk(t, session);
    DropTabOk(w, i);
    hide TabOk, InTab, InTabs, RemoveLayout, WithoutSession, DropTab;
    forall x: nat ensures InWin(CloseInWin(w, i, session), x) == InWin(w, x) - One(x == session) {
      TabsAround(w.tabs, i, x);
      match RemoveLayout(t.root, session).0 {
        case Some(r) => assert InTab(WithoutSession(t, r, session), x) == if x == session then 0 else InTab(t, x);
        case None => assert x != session ==> InTab(t, x) == 0;
      }
    }
  }

  lemma CloseSessionKeeps(a: App, w: nat, session: nat, exited: bool)
    requires Ok(a) && w < |a.wins|
    ensures Ok(CloseSession(a, w, session, exited))
    ensures |CloseSession(a, w, session, exited).wins| == |a.wins|
  {
    var win := a.wins[w];
    var i := Position(win.tabs, session);
    if i < |win.tabs| {
      assert WinOk(win);
      SessionHere(a, w, session);
      CloseInWinOk(win, i, session);
      GoneLedger(a.be, session, exited);
      hide Ok, WinOk, InWin, CloseInWin, Position, LedgerOk, InTab;
      Kept(a, w, CloseInWin(win, i, session), Gone(a.be, session, exited));
    }
  }

  /** The sessions of one of its tabs are all registered, once each. */
  lemma TabRegistered(a: App, w: nat, i: nat, id: nat)
    requires Ok(a) && w < |a.wins| && i < |a.wins[w].tabs|
    ensures InTab(a.wins[w].tabs[i], id) <= InWin(a.wins[w], id) <= One(id in a.be.registry)
  {
    hide InTab, InTabs, InWins, WinsOk, LedgerOk;
    TabsAround(a.wins[w].tabs, i, id);
    WinsAround(a.wins, w, id);
    assert InWins(a.wins, id) == One(id in a.be.registry);
  }

  lemma CloseWholeTabKeeps(a: App, w: nat, i: nat)
    requires Ok(a) && w < |a.wins|
    ensures Ok(CloseWholeTab(a, w, i))
  {
    var win := a.wins[w];
    if i < |win.tabs| {
      assert WinOk(win);
      var ids := Sessions(win.tabs[i].root);
      DropTabOk(win, i);
      forall id: nat ensures Occ(ids, id) <= One(id in a.be.registry) {
        TabRegistered(a, w, i, id);
      }
      ClosedLedger(a.be, ids);
      hide Ok, WinOk, InWin, DropTab, LedgerOk, Occ;
      forall id: nat
        ensures InWin(DropTab(win, i), id) + One(id in a.be.registry) ==
          InWin(win, id) + One(id in CloseIds(a.be, ids).registry)
      {
        OccIn(ids, id);
        assert InWin(DropTab(win, i), id) == InWin(win, id) - InTab(win.tabs[i], id);
      }
      Kept(a, w, DropTab(win, i), CloseIds(a.be, ids));
    }
  }

  lemma {:induction false} SessionExitKeeps(a: App, session: nat, w: nat)
    requires Ok(a) && w <= |a.wins|
    ensures Ok(SessionExit(a, session, w))
    decreases |a.wins| - w
  {
    hide Ok, CloseSession;
    if w < |a.wins| {
      CloseSessionKeeps(a, w, session, true);
      SessionExitKeeps(CloseSession(a, w, session, true), session, w + 1);
    }
  }

  lemma MoveTabKeeps(a: App, w: nat, i: nat)
    requires Ok(a) && w < |a.wins|
    ensures Ok(MoveTab(a, w, i))
  {
    var win := a.wins[w];
    if i < |win.tabs| && win.detached.None? {
      assert WinOk(win);
      DropTabOk(win, i);
      var t := win.tabs[i];
      assert TabOk(t);
      var win' := DropTab(win, i).(detached := Some(t));
      hide Ok, LedgerOk, InTab, TabOk, DropTab;
      forall id: nat ensures InWin(win', id) == InWin(win, id) {
        TabsOne(t, id);
        assert InWin(DropTab(win, i), id) == InWin(win, id) - InTab(t, id);
        assert Listed(win'.detached) == [t];
      }
      assert WinOk(win');
      hide InWin, WinOk;
      assert LedgerOk(a.be) by { OkLedger(a); }
      Kept(a, w, win', a.be);
    }
  }

  lemma OkLedger(a: App)
    requires Ok(a)
    ensures LedgerOk(a.be)
  {
  }

  /** A window may change in ways that do not touch its sessions. */
  lemma SameSessions(a: App, w: nat, win: Win)
    requires Ok(a) && w < |a.wins| && WinOk(win) && (forall id: nat :: InWin(win, id) == InWin(a.wins[w], id))
    ensures Ok(WithWin(a, w, win))
  {
    OkLedger(a);
    hide Ok, LedgerOk, WinOk, InWin;
    Kept(a, w, win, a.be);
  }

  lemma ActiveTabKeeps(a: App, w: nat, t: Tab)
    requires Ok(a) && w < |a.wins| && a.wins[w].active < |a.wins[w].tabs| && TabOk(t)
    requires (forall id: nat :: InTab(t, id) == InTab(a.wins[w].tabs[a.wins[w].active], id))
    ensures Ok(WithActiveTab(a, w, t))
  {
    var win := a.wins[w];
    assert WinOk(win);
    var win' := win.(tabs := win.tabs[win.active := t]);
    hide Ok, InTab, InTabs, TabOk;
    forall id: nat ensures InWin(win', id) == InWin(win, id) {
      TabsAround(win.tabs, win.active, id);
    }
    assert WinOk(win');
    hide InWin, WinOk;
    SameSessions(a, w, win');
  }

  lemma {:induction false} TickedTabs(ts: seq<Tab>, k: Counters, id: nat)
    ensures InTabs(TickTabs(ts, k), id) == InTabs(ts, id)
  {
    if ts != [] {
      var n := |ts| - 1;
      TickedTabs(ts[..n], k, id);
      assert TickTabs(ts, k)[..n] == TickTabs(ts[..n], k);
      TickTreeKeeps(ts[n].root, k);
    }
  }

  lemma {:induction false} TickedWins(ws: seq<Win>, k: Counters, id: nat)
    ensures InWins(TickWins(ws, k), id) == InWins(ws, id)
  {
    hide InTabs;
    if ws != [] {
      var n := |ws| - 1;
      TickedWins(ws[..n], k, id);
      assert TickWins(ws, k)[..n] == TickWins(ws[..n], k);
      TickedTabs(ws[n].tabs, k, id);
    }
  }

  lemma TickedTabOk(t: Tab, k: Counters)
    requires TabOk(t)
    ensures TabOk(t.(root := TickTree(t.root, k)))
  {
    TickTreeKeeps(t.root, k);
    hide EmptyFree, RatiosOk, Sessions;
  }

  lemma TickedWinOk(w: Win, k: Counters)
    requires WinOk(w)
    ensures WinOk(w.(tabs := TickTabs(w.tabs, k)))
  {
    forall i | 0 <= i < |w.tabs| ensures TabOk(w.tabs[i].(root := TickTree(w.tabs[i].root, k))) {
      TickedTabOk(w.tabs[i], k);
    }
    hide TabOk;
  }

  lemma RepaintKeeps(a: App, k: Counters)
    requires Ok(a)
    ensures Ok(a.(wins := TickWins(a.wins, k)))
  {
    hide WinOk, LedgerOk, InWins;
    forall i | 0 <= i < |a.wins| ensures WinOk(TickWins(a.wins, k)[i]) {
      TickedWinOk(a.wins[i], k);
    }
    forall id: nat ensures InWins(TickWins(a.wins, k), id) == One(id in a.be.registry) {
      TickedWins(a.wins, k, id);
      assert InWins(a.wins, id) == One(id in a.be.registry);
    }
  }

  /** The repaint may rely on it: no tab shows a session twice. */
  lemma PanesAreDistinct(a: App, w: nat)
    requires Ok(a) && w < |a.wins|
    ensures PanesDiffer(a.wins[w])
  {
    forall i | 0 <= i < |a.wins[w].tabs| ensures AllDiffer(Sessions(a.wins[w].tabs[i].root)) {
      var ids := Sessions(a.wins[w].tabs[i].root);
      forall p, q | 0 <= p < q < |ids| ensures ids[p] != ids[q] {
        OccTwice(ids, p, q);
        TabRegistered(a, w, i, ids[p]);
      }
    }
  }

  lemma HandledKeeps(a: App, e: Event)
    requires Ok(a) && Settled(a) && Enabled(a, e)
    ensures Ok(Handled(a, e))
  {
    match e {
      case OpenTab(w) => AddTabKeeps(a, w);
      case SplitPane(w, s) => SplitKeeps(a, w, s);
      case ClosePane(w, session) => CloseSessionKeeps(a, w, session, false);
      case CloseTab(w, i) => CloseWholeTabKeeps(a, w, i);
      case Detach(w, i) => MoveTabKeeps(a, w, i);
      case CloseWindow(w) =>
        assert WinOk(a.wins[w]);
        SameSessions(a, w, a.wins[w].(closing := true));
      case ShellExited(session) => SessionExitKeeps(a, session, 0);
      case Repaint(k) => RepaintKeeps(a, k);
      case Click(w, session) =>
        var t := a.wins[w].tabs[a.wins[w].active];
        assert WinOk(a.wins[w]) && TabOk(t);
        ActiveTabKeeps(a, w, t.(focus := session));
      case Switch(w, i) =>
        assert WinOk(a.wins[w]);
        SameSessions(a, w, a.wins[w].(active := i));
      case MoveDivider(w, wantSbs, positive) =>
        var win := a.wins[w];
        assert WinOk(win);
        assert TabOk(win.tabs[win.active]);
        var delta := if positive then STEP else -STEP;
        ResizedTabOk(win.tabs[win.active], FocusedSession(win), wantSbs, delta);
        var root := ResizeSplit(win.tabs[win.active].root, FocusedSession(win), wantSbs, delta).0;
        ActiveTabKeeps(a, w, win.tabs[win.active].(root := root));
    }
  }

  // ---- reconciling ---------------------------------------------------------------------------------

  lemma {:induction false} DetachedOk(ws: seq<Win>)
    requires WinsOk(ws)
    ensures TabsOk(Detached(ws))
  {
    hide TabOk;
    if ws != [] {
      DetachedOk(ws[..|ws| - 1]);
      assert WinOk(ws[|ws| - 1]);
    }
  }

  lemma {:induction false} AdoptedCount(ts: seq<Tab>, id: nat)
    ensures InWins(AdoptAll(ts), id) == InTabs(ts, id)
  {
    hide InTab;
    if ts != [] {
      var n := |ts| - 1;
      AdoptedCount(ts[..n], id);
      assert AdoptAll(ts)[..n] == AdoptAll(ts[..n]);
      TabsOne(ts[n], id);
      assert InTabs([], id) == 0;
    }
  }

  /** Taking the detached tabs out and giving them windows moves every session, loses none. */
  lemma {:induction false} KeptCount(ws: seq<Win>, id: nat)
    ensures InWins(KeptAll(ws), id) + InTabs(Detached(ws), id) == InWins(ws, id)
  {
    hide InTab;
    if ws != [] {
      var n := |ws| - 1;
      KeptCount(ws[..n], id);
      assert KeptAll(ws)[..n] == KeptAll(ws[..n]);
      TabsAppend(Detached(ws[..n]), Listed(ws[n].detached), id);
      assert InTabs([], id) == 0;
    }
  }

  /** No window from `i` on has been looked at yet; those before are staying. */
  predicate Swept(ws: seq<Win>, i: nat) {
    && (forall j :: 0 <= j < |ws| ==> ws[j].detached.None?)
    && (forall j :: 0 <= j < i && j < |ws| ==> !ws[j].closing)
  }

  lemma AdoptKeeps(a: App)
    requires Ok(a)
    ensures var r := a.(wins := KeptAll(a.wins) + AdoptAll(Detached(a.wins))); Ok(r) && Swept(r.wins, 0)
  {
    var ts := Detached(a.wins);
    var r := a.(wins := KeptAll(a.wins) + AdoptAll(ts));
    DetachedOk(a.wins);
    AdoptedWins(a.wins, ts);
    hide WinsOk, LedgerOk, WinOk, TabsOk;
    forall id: nat ensures InWins(r.wins, id) == One(id in r.be.registry) {
      WinsAppend(KeptAll(a.wins), AdoptAll(ts), id);
      AdoptedCount(ts, id);
      KeptCount(a.wins, id);
      hide InWins;
      assert InWins(a.wins, id) == One(id in a.be.registry);
    }
  }

  lemma AdoptedWins(ws: seq<Win>, ts: seq<Tab>)
    requires WinsOk(ws) && TabsOk(ts)
    ensures WinsOk(KeptAll(ws) + AdoptAll(ts))
  {
    hide TabOk;
    var all := KeptAll(ws) + AdoptAll(ts);
    forall i | 0 <= i < |all| ensures WinOk(all[i]) {
      if i < |ws| { assert WinOk(ws[i]); } else { assert TabOk(ts[i - |ws|]); }
    }
  }

  /** Removing a window removes what it owns, each session once. */
  lemma RemovedCount(a: App, i: nat, id: nat)
    requires Owned(a) && i < |a.wins| && a.wins[i].detached.None?
    ensures Occ(TabIds(a.wins[i].tabs), id) <= One(id in a.be.registry)
    ensures InWins(RemoveAt(a.wins, i), id) == One(id in a.be.registry) - Occ(TabIds(a.wins[i].tabs), id)
  {
    hide InTab, InTabs, TabIds, InWins, Occ;
    TabIdsCount(a.wins[i].tabs, id);
    NoTabs(id);
    WinsAround(a.wins, i, id);
    assert InWins(a.wins, id) == One(id in a.be.registry);
  }

  lemma DropOneOwned(a: App, i: nat)
    requires Owned(a) && i < |a.wins| && a.wins[i].detached.None?
    ensures Owned(App(RemoveAt(a.wins, i), CloseIds(a.be, TabIds(a.wins[i].tabs))))
  {
    hide TabIds, InWins, Occ;
    var ids := TabIds(a.wins[i].tabs);
    var be := CloseIds(a.be, ids);
    forall id: nat ensures InWins(RemoveAt(a.wins, i), id) == One(id in be.registry) {
      RemovedCount(a, i, id);
      OccIn(ids, id);
    }
  }

  lemma DropOneKeeps(a: App, i: nat)
    requires Ok(a) && i < |a.wins| && a.wins[i].detached.None?
    ensures Ok(App(RemoveAt(a.wins, i), CloseIds(a.be, TabIds(a.wins[i].tabs))))
  {
    hide WinsOk, LedgerOk, Owned, TabIds, Occ;
    var ids := TabIds(a.wins[i].tabs);
    forall id: nat ensures Occ(ids, id) <= One(id in a.be.registry) { RemovedCount(a, i, id); }
    ClosedLedger(a.be, ids);
    DropOneOwned(a, i);
    RemovedWinsOk(a.wins, i);
  }

  lemma NoTabs(id: nat)
    ensures InTabs([], id) == 0
  {
  }

  lemma RemovedWinsOk(ws: seq<Win>, i: nat)
    requires WinsOk(ws) && i < |ws|
    ensures WinsOk(RemoveAt(ws, i))
  {
    hide WinOk;
  }

  lemma {:induction false} DropClosingKeeps(a: App, i: nat)
    requires Ok(a) && i <= |a.wins| && Swept(a.wins, i)
    ensures Ok(DropClosing(a, i)) && Settled(DropClosing(a, i))
    decreases |a.wins| - i
  {
    if i == |a.wins| {
      hide TabOk, LedgerOk, Owned;
      assert (forall j :: 0 <= j < |a.wins| ==> WinOk(a.wins[j]));
    } else {
      hide Ok, CloseIds, TabIds;
      if a.wins[i].closing {
        DropOneKeeps(a, i);
        DropClosingKeeps(App(RemoveAt(a.wins, i), CloseIds(a.be, TabIds(a.wins[i].tabs))), i);
      } else {
        DropClosingKeeps(a, i + 1);
      }
    }
  }

  lemma ReconcileKeeps(a: App)
    requires Ok(a)
    ensures Ok(Reconcile(a)) && Settled(Reconcile(a))
  {
    AdoptKeeps(a);
    hide Ok, Settled, DropClosing;
    DropClosingKeeps(a.(wins := KeptAll(a.wins) + AdoptAll(Detached(a.wins))), 0);
  }

  /** Every event, with the reconciliation after it, keeps the invariant and leaves every window
      with a tab, none closing and no tab in transit. */
  lemma StepKeeps(a: App, e: Event)
    requires Ok(a) && Settled(a) && Enabled(a, e)
    ensures Ok(Step(a, e)) && Settled(Step(a, e))
  {
    HandledKeeps(a, e);
    hide Ok, Settled, Handled;
    ReconcileKeeps(Handled(a, e));
  }

  // ---- runs ------------------------------------------------------------------------------------------

  ghost predicate CanRun(a: App, es: seq<Event>)
    requires Ok(a) && Settled(a)
    decreases |es|
  {
    es == [] || (Enabled(a, es[0]) && (StepKeeps(a, es[0]); CanRun(Step(a, es[0]), es[1..])))
  }

  ghost function Run(a: App, es: seq<Event>): (r: App)
    requires Ok(a) && Settled(a) && CanRun(a, es)
    ensures Ok(r) && Settled(r)
    decreases |es|
  {
    if es == [] then a
    else
      StepKeeps(a, es[0]);
      Run(Step(a, es[0]), es[1..])
  }

  lemma StartedOk()
    ensures Ok(STARTED) && Settled(STARTED)
  {
    NewTabOk(1);
    var w := STARTED.wins[0];
    forall id: nat ensures InWins(STARTED.wins, id) == One(id == 1) {
      WinsOne(w, id);
      TabsOne(NewTab(1), id);
      NoTabs(id);
      assert InTab(NewTab(1), id) == One(id == 1);
    }
    assert TabOk(w.tabs[0]);
  }

  /** The application once its first window is up. */
  function Start(): (a: App)
    ensures Ok(a) && Settled(a)
  {
    StartedOk();
    STARTED
  }

  /** All sessions the windows own, in order, those of detached tabs included. */
  function AllSessions(ws: seq<Win>): seq<nat> {
    if ws == [] then []
    else AllSessions(ws[..|ws| - 1]) + TabIds(ws[|ws| - 1].tabs) + TabIds(Listed(ws[|ws| - 1].detached))
  }

  lemma {:induction false} AllSessionsCount(ws: seq<Win>, id: nat)
    ensures Occ(AllSessions(ws), id) == InWins(ws, id)
  {
    hide TabIds, InTabs, Occ;
    if ws == [] {
      assert Occ([], id) == 0 by { NoOcc(id); }
    } else {
      var init, w := ws[..|ws| - 1], ws[|ws| - 1];
      AllSessionsCount(init, id);
      TabIdsCount(w.tabs, id);
      TabIdsCount(Listed(w.detached), id);
      OccAppend(AllSessions(init) + TabIds(w.tabs), TabIds(Listed(w.detached)), id);
      OccAppend(AllSessions(init), TabIds(w.tabs), id);
    }
  }

  lemma NoOcc(id: nat)
    ensures Occ([], id) == 0
  {
  }

  /** The registry's keys are exactly the sessions owned, and no session is owned twice. */
  lemma RegistryIsUnion(a: App)
    requires Ok(a)
    ensures ToSet(AllSessions(a.wins)) == a.be.registry
    ensures forall i, j :: 0 <= i < j < |AllSessions(a.wins)| ==> AllSessions(a.wins)[i] != AllSessions(a.wins)[j]
  {
    var ids := AllSessions(a.wins);
    hide WinsOk, LedgerOk, AllSessions, InWins;
    forall id: nat ensures Occ(ids, id) == One(id in a.be.registry) && (id in ToSet(ids) <==> id in a.be.registry) {
      AllSessionsCount(a.wins, id);
      assert InWins(a.wins, id) == One(id in a.be.registry);
      OccIn(ids, id);
    }
    forall i, j | 0 <= i < j < |ids| ensures ids[i] != ids[j] {
      OccTwice(ids, i, j);
    }
  }

  lemma OccTwice(ids: seq<nat>, i: nat, j: nat)
    requires i < j < |ids|
    ensures ids[i] == ids[j] ==> Occ(ids, ids[i]) >= 2
  {
    assert ids == ids[..j] + ids[j..];
    OccAppend(ids[..j], ids[j..], ids[i]);
    OccIn(ids[..j], ids[i]);
    OccIn(ids[j..], ids[i]);
    assert ids[..j][i] == ids[i] && ids[j..][0] == ids[j];
  }

  /** Over every run of user actions and shell exits from the first window on: the registry is the
      disjoint union of the windows' sessions; each session ever opened is registered, or was
      closed once, or exited; every window has a tab; and every stored tab has no placeholder,
      ratios within bounds, and a focus that names one of its panes. */
  lemma BooksBalance(es: seq<Event>)
    requires CanRun(Start(), es)
    ensures var a := Run(Start(), es);
            && ToSet(AllSessions(a.wins)) == a.be.registry
            && (forall i, j :: 0 <= i < j < |AllSessions(a.wins)| ==> AllSessions(a.wins)[i] != AllSessions(a.wins)[j])
            && LedgerOk(a.be) && Settled(a)
            && forall w :: 0 <= w < |a.wins| ==> TabsOk(a.wins[w].tabs) && a.wins[w].active < |a.wins[w].tabs|
  {
    var a := Run(Start(), es);
    RegistryIsUnion(a);
    hide LedgerOk, Owned, AllSessions, TabOk, Run, CanRun;
    assert (forall w :: 0 <= w < |a.wins| ==> WinOk(a.wins[w]));
  }
}
