/** Windows, tabs and panes over one shared backend, as a value: which sessions each window owns,
    which are registered, and what became of every session ever opened. One event is one user
    action or one report from the backend, followed by `Reconcile`. */
module SessionModel {
  import opened Cells
  import opened Layouts

  datatype Tab = Tab(root: Layout, focus: nat)

  /** `detached` is a tab on its way to a window of its own. */
  datatype Win = Win(tabs: seq<Tab>, active: nat, detached: Option<Tab>, closing: bool)

  /** The registry's keys, the ids handed out so far, those the owner closed, in order, and those
      whose shell exited. */
  datatype Backend = Backend(registry: set<nat>, next: nat, closed: seq<nat>, exited: set<nat>)

  datatype App = App(wins: seq<Win>, be: Backend)

  // ---- counting owners -------------------------------------------------------------------------

  function Occ(ids: seq<nat>, id: nat): nat {
    if ids == [] then 0 else Occ(ids[..|ids| - 1], id) + if ids[|ids| - 1] == id then 1 else 0
  }

  function InTab(t: Tab, id: nat): nat { Occ(Sessions(t.root), id) }

  function InTabs(ts: seq<Tab>, id: nat): nat {
    if ts == [] then 0 else InTabs(ts[..|ts| - 1], id) + InTab(ts[|ts| - 1], id)
  }

  function Listed(t: Option<Tab>): seq<Tab> { if t.None? then [] else [t.value] }

  function InWin(w: Win, id: nat): nat { InTabs(w.tabs, id) + InTabs(Listed(w.detached), id) }

  function InWins(ws: seq<Win>, id: nat): nat {
    if ws == [] then 0 else InWins(ws[..|ws| - 1], id) + InWin(ws[|ws| - 1], id)
  }

  // ---- the invariant ---------------------------------------------------------------------------

  predicate TabOk(t: Tab) {
    EmptyFree(t.root) && RatiosOk(t.root) && t.focus in Sessions(t.root)
  }

  predicate TabsOk(ts: seq<Tab>) { forall i :: 0 <= i < |ts| ==> TabOk(ts[i]) }

  /** A window without tabs is on its way out. */
  predicate WinOk(w: Win) {
    && TabsOk(w.tabs) && TabsOk(Listed(w.detached))
    && (w.tabs != [] ==> w.active < |w.tabs|)
    && (w.tabs == [] ==> w.closing)
  }

  predicate WinsOk(ws: seq<Win>) { forall i :: 0 <= i < |ws| ==> WinOk(ws[i]) }

  function One(b: bool): nat { if b then 1 else 0 }

  /** Every session ever opened is registered, or closed once, or exited: exactly one of these. */
  ghost predicate LedgerOk(be: Backend) {
    forall id: nat :: One(id in be.registry) + Occ(be.closed, id) + One(id in be.exited) == One(1 <= id <= be.next)
  }

  /** The registry is the disjoint union of the sessions of all windows. */
  ghost predicate Owned(a: App) {
    forall id: nat :: InWins(a.wins, id) == One(id in a.be.registry)
  }

  ghost predicate Ok(a: App) { WinsOk(a.wins) && LedgerOk(a.be) && Owned(a) }

  /** Between events: every window has a tab, none is closing or holds a detached tab. */
  predicate Settled(a: App) {
    forall i :: 0 <= i < |a.wins| ==> a.wins[i].tabs != [] && !a.wins[i].closing && a.wins[i].detached.None?
  }

  // ---- opening ---------------------------------------------------------------------------------

  function Opened(be: Backend): Backend {
    be.(next := be.next + 1, registry := be.registry + {be.next + 1})
  }

  function WithWin(a: App, w: nat, win: Win): App
    requires w < |a.wins|
  {
    a.(wins := a.wins[w := win])
  }

  function NewTab(id: nat): Tab { Tab(Leaf(NewPane(id)), id) }

  function AddTab(a: App, w: nat): App
    requires w < |a.wins|
  {
    var win := a.wins[w];
    WithWin(a, w, win.(tabs := win.tabs + [NewTab(a.be.next + 1)], active := |win.tabs|)).(be := Opened(a.be))
  }

  /** The session keys and clicks go to. */
  function FocusedSession(w: Win): nat
    requires w.active < |w.tabs|
  {
    var t := w.tabs[w.active];
    if Find(t.root, t.focus).Some? then t.focus else FirstSession(t.root)
  }

  function SplitTab(t: Tab, target: nat, sideBySide: bool, id: nat): Tab {
    Tab(SplitLayout(t.root, target, sideBySide, Some(NewPane(id))).0, id)
  }

  function SplitFocused(a: App, w: nat, sideBySide: bool): App
    requires w < |a.wins| && a.wins[w].active < |a.wins[w].tabs|
  {
    var win, id := a.wins[w], a.be.next + 1;
    var tab := SplitTab(win.tabs[win.active], FocusedSession(win), sideBySide, id);
    WithWin(a, w, win.(tabs := win.tabs[win.active := tab])).(be := Opened(a.be))
  }

  // ---- closing -----------------------------------------------------------------------------------

  /** The first tab that holds the session, or the number of tabs. */
  function Position(ts: seq<Tab>, session: nat): (i: nat)
    ensures i <= |ts|
    ensures i < |ts| ==> Find(ts[i].root, session).Some?
    ensures forall j :: 0 <= j < i ==> Find(ts[j].root, session).None?
  {
    if ts == [] || Find(ts[0].root, session).Some? then 0 else 1 + Position(ts[1..], session)
  }

  function Gone(be: Backend, session: nat, exited: bool): Backend {
    if exited then be.(registry := be.registry - {session}, exited := be.exited + {session})
    else be.(registry := be.registry - {session}, closed := be.closed + [session])
  }

  function RemoveAt<T>(s: seq<T>, i: nat): seq<T>
    requires i < |s|
  {
    s[..i] + s[i + 1..]
  }

  /** The window without tab i. */
  function DropTab(w: Win, i: nat): Win
    requires i < |w.tabs|
  {
    var tabs := RemoveAt(w.tabs, i);
    if tabs == [] then w.(tabs := tabs, closing := true)
    else w.(tabs := tabs, active := if w.active >= |tabs| then |tabs| - 1 else w.active)
  }

  function WithoutSession(t: Tab, r: Layout, session: nat): Tab {
    Tab(r, if t.focus == session then FirstSession(r) else t.focus)
  }

  function CloseInWin(w: Win, i: nat, session: nat): Win
    requires i < |w.tabs|
  {
    match RemoveLayout(w.tabs[i].root, session).0
    case Some(r) => w.(tabs := w.tabs[i := WithoutSession(w.tabs[i], r, session)])
    case None => DropTab(w, i)
  }

  /** A window that does not hold the session ignores the request. */
  function CloseSession(a: App, w: nat, session: nat, exited: bool): App
    requires w < |a.wins|
  {
    var i := Position(a.wins[w].tabs, session);
    if i == |a.wins[w].tabs| then a
    else WithWin(a, w, CloseInWin(a.wins[w], i, session)).(be := Gone(a.be, session, exited))
  }

  function ToSet(ids: seq<nat>): set<nat> { set i | 0 <= i < |ids| :: ids[i] }

  function CloseIds(be: Backend, ids: seq<nat>): Backend {
    be.(registry := be.registry - ToSet(ids), closed := be.closed + ids)
  }

  function CloseWholeTab(a: App, w: nat, i: nat): App
    requires w < |a.wins|
  {
    if i >= |a.wins[w].tabs| then a
    else WithWin(a, w, DropTab(a.wins[w], i)).(be := CloseIds(a.be, Sessions(a.wins[w].tabs[i].root)))
  }

  /** A shell exited: every window is asked in turn. */
  function SessionExit(a: App, session: nat, w: nat): App
    requires w <= |a.wins|
    decreases |a.wins| - w
  {
    if w == |a.wins| then a else SessionExit(CloseSession(a, w, session, true), session, w + 1)
  }

  // ---- moving a tab, and reconciling --------------------------------------------------------------

  function MoveTab(a: App, w: nat, i: nat): App
    requires w < |a.wins|
  {
    var win := a.wins[w];
    if i >= |win.tabs| || win.detached.Some? then a
    else WithWin(a, w, DropTab(win, i).(detached := Some(win.tabs[i])))
  }

  function Detached(ws: seq<Win>): seq<Tab> {
    if ws == [] then [] else Detached(ws[..|ws| - 1]) + Listed(ws[|ws| - 1].detached)
  }

  function Kept(w: Win): Win { w.(detached := None) }

  function KeptAll(ws: seq<Win>): (r: seq<Win>)
    ensures |r| == |ws| && forall i :: 0 <= i < |ws| ==> r[i] == Kept(ws[i])
  {
    seq(|ws|, i requires 0 <= i < |ws| => Kept(ws[i]))
  }

  function Adopting(t: Tab): Win { Win([t], 0, None, false) }

  function AdoptAll(ts: seq<Tab>): (r: seq<Win>)
    ensures |r| == |ts| && forall i :: 0 <= i < |ts| ==> r[i] == Adopting(ts[i])
  {
    seq(|ts|, i requires 0 <= i < |ts| => Adopting(ts[i]))
  }

  /** All sessions of a window's tabs, in order. */
  function TabIds(ts: seq<Tab>): seq<nat> {
    if ts == [] then [] else TabIds(ts[..|ts| - 1]) + Sessions(ts[|ts| - 1].root)
  }

  /** Drop the closing windows from index i on, closing what they still own. */
  function DropClosing(a: App, i: nat): App
    requires i <= |a.wins|
    decreases |a.wins| - i
  {
    if i == |a.wins| then a
    else if a.wins[i].closing then
      DropClosing(App(RemoveAt(a.wins, i), CloseIds(a.be, TabIds(a.wins[i].tabs))), i)
    else DropClosing(a, i + 1)
  }

  function Reconcile(a: App): App {
    DropClosing(a.(wins := KeptAll(a.wins) + AdoptAll(Detached(a.wins))), 0)
  }

  // ---- repainting ---------------------------------------------------------------------------------

  function TickTabs(ts: seq<Tab>, k: Counters): (r: seq<Tab>)
    ensures |r| == |ts| && forall i :: 0 <= i < |ts| ==> r[i] == ts[i].(root := TickTree(ts[i].root, k))
  {
    seq(|ts|, i requires 0 <= i < |ts| => ts[i].(root := TickTree(ts[i].root, k)))
  }

  function TickWins(ws: seq<Win>, k: Counters): (r: seq<Win>)
    ensures |r| == |ws| && forall i :: 0 <= i < |ws| ==> r[i] == ws[i].(tabs := TickTabs(ws[i].tabs, k))
  {
    seq(|ws|, i requires 0 <= i < |ws| => ws[i].(tabs := TickTabs(ws[i].tabs, k)))
  }

  /** No session has two panes in one tab. */
  predicate PanesDiffer(w: Win) { forall i :: 0 <= i < |w.tabs| ==> AllDiffer(Sessions(w.tabs[i].root)) }

  // ---- events ----------------------------------------------------------------------------------------

  const STEP: real := 0.04

  datatype Event =
    | OpenTab(w: nat)
    | SplitPane(w: nat, sideBySide: bool)
    | ClosePane(w: nat, session: nat)
    | CloseTab(w: nat, i: nat)
    | Detach(w: nat, i: nat)
    | CloseWindow(w: nat)
    | ShellExited(session: nat)
    | Click(w: nat, session: nat)
    | Switch(w: nat, i: nat)
    | MoveDivider(w: nat, wantSbs: bool, positive: bool)
    | Repaint(k: Counters)

  /** Events name a window there is; a click a pane drawn in its active tab; a switch a tab. */
  predicate Enabled(a: App, e: Event) {
    match e
    case ShellExited(_) => true
    case Repaint(_) => true
    case Click(w, session) =>
      w < |a.wins| && a.wins[w].active < |a.wins[w].tabs| && session in Sessions(a.wins[w].tabs[a.wins[w].active].root)
    case Switch(w, i) => w < |a.wins| && i < |a.wins[w].tabs|
    case OpenTab(w) => w < |a.wins|
    case SplitPane(w, _) => w < |a.wins|
    case ClosePane(w, _) => w < |a.wins|
    case CloseTab(w, _) => w < |a.wins|
    case Detach(w, _) => w < |a.wins|
    case CloseWindow(w) => w < |a.wins|
    case MoveDivider(w, _, _) => w < |a.wins|
  }

  function WithActiveTab(a: App, w: nat, t: Tab): App
    requires w < |a.wins| && a.wins[w].active < |a.wins[w].tabs|
  {
    WithWin(a, w, a.wins[w].(tabs := a.wins[w].tabs[a.wins[w].active := t]))
  }

  function ResizeFocused(a: App, w: nat, wantSbs: bool, positive: bool): App
    requires w < |a.wins| && a.wins[w].active < |a.wins[w].tabs|
  {
    var win := a.wins[w];
    var t := win.tabs[win.active];
    WithActiveTab(a, w,
                  t.(root := ResizeSplit(t.root, FocusedSession(win), wantSbs, if positive then STEP else -STEP).0))
  }

  function Handled(a: App, e: Event): App
    requires WinsOk(a.wins) && Settled(a) && Enabled(a, e)
  {
    match e
    case OpenTab(w) => AddTab(a, w)
    case SplitPane(w, s) => SplitFocused(a, w, s)
    case ClosePane(w, session) => CloseSession(a, w, session, false)
    case CloseTab(w, i) => CloseWholeTab(a, w, i)
    case Detach(w, i) => MoveTab(a, w, i)
    case CloseWindow(w) => WithWin(a, w, a.wins[w].(closing := true))
    case ShellExited(session) => SessionExit(a, session, 0)
    case Click(w, session) => WithActiveTab(a, w, a.wins[w].tabs[a.wins[w].active].(focus := session))
    case Switch(w, i) => WithWin(a, w, a.wins[w].(active := i))
    case MoveDivider(w, wantSbs, positive) => ResizeFocused(a, w, wantSbs, positive)
    case Repaint(k) => a.(wins := TickWins(a.wins, k))
  }

  /** One event, as the application sees it. */
  function Step(a: App, e: Event): App
    requires WinsOk(a.wins) && Settled(a) && Enabled(a, e)
  {
    Reconcile(Handled(a, e))
  }

  /** The first window opens with one shell in it. */
  const STARTED: App := App([Win([NewTab(1)], 0, None, false)], Backend({1}, 1, [], {}))
}
