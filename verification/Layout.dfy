/** A tab's pane layout: a tree of splits with panes at its leaves. Splitting, removing, moving
    dividers, and the rectangles the panes are drawn in. Subtrees are owned by one parent, so the
    tree is a value; the methods at the end are the source's own walks into an out vector. */
module Layouts {
  import opened Cells

  /** What a pane remembers about its view: lines scrolled back, and the line counter at the last
      repaint. */
  datatype View = View(off: nat, last: nat)

  datatype Pane = Pane(session: nat, view: View)

  /** `Empty` is a placeholder while a subtree is being swapped. */
  datatype Layout = Empty | Leaf(pane: Pane) | Split(sideBySide: bool, ratio: real, a: Layout, b: Layout)

  function NewPane(session: nat): Pane { Pane(session, View(0, 0)) }

  /** The repaint's bookkeeping for one view, given the terminal's line counter and the number of
      lines it keeps: a scrolled-back view moves with the lines that scrolled off. */
  function Ticked(v: View, total: nat, count: nat): View {
    var delta := Max(total - v.last, 0);
    View(if v.off > 0 && delta > 0 then Min(v.off + delta, count) else v.off, total)
  }

  // ---- what a tree holds -------------------------------------------------------------------

  /** The panes, left to right and top to bottom. */
  function Panes(t: Layout): seq<Pane> {
    match t
    case Empty => []
    case Leaf(p) => [p]
    case Split(_, _, a, b) => Panes(a) + Panes(b)
  }

  function Ids(ps: seq<Pane>): (ids: seq<nat>)
    ensures |ids| == |ps| && forall i :: 0 <= i < |ps| ==> ids[i] == ps[i].session
  {
    seq(|ps|, i requires 0 <= i < |ps| => ps[i].session)
  }

  function Sessions(t: Layout): seq<nat> { Ids(Panes(t)) }

  predicate EmptyFree(t: Layout) {
    match t
    case Empty => false
    case Leaf(_) => true
    case Split(_, _, a, b) => EmptyFree(a) && EmptyFree(b)
  }

  /** Every divider leaves both sides at least a tenth. */
  predicate RatiosOk(t: Layout) {
    match t
    case Empty => true
    case Leaf(_) => true
    case Split(_, r, a, b) => 0.1 <= r <= 0.9 && RatiosOk(a) && RatiosOk(b)
  }

  /** The first pane of a session. */
  function Find(t: Layout, session: nat): Option<Pane> {
    match t
    case Empty => None
    case Leaf(p) => if p.session == session then Some(p) else None
    case Split(_, _, a, b) =>
      var l := Find(a, session);
      if l.Some? then l else Find(b, session)
  }

  /** The session of the first pane; 0 where there is none. */
  function FirstSession(t: Layout): nat {
    match t
    case Empty => 0
    case Leaf(p) => p.session
    case Split(_, _, a, _) => FirstSession(a)
  }

  lemma IdsAppend(a: seq<Pane>, b: seq<Pane>)
    ensures Ids(a + b) == Ids(a) + Ids(b)
  {
  }

  lemma {:induction false} FindFinds(t: Layout, session: nat)
    ensures Find(t, session).Some? <==> session in Sessions(t)
    ensures Find(t, session).Some? ==> Find(t, session).value in Panes(t) && Find(t, session).value.session == session
  {
    if t.Split? {
      FindFinds(t.a, session);
      FindFinds(t.b, session);
      IdsAppend(Panes(t.a), Panes(t.b));
    } else if t.Leaf? {
      assert t.pane.session == session ==> Sessions(t)[0] == session;
    }
  }

  /** The first session is that of the first pane, once no placeholder is left. */
  lemma {:induction false} FirstIsFirst(t: Layout)
    requires EmptyFree(t)
    ensures Panes(t) != [] && FirstSession(t) == Sessions(t)[0]
  {
    if t.Split? {
      FirstIsFirst(t.a);
      FirstIsFirst(t.b);
    }
  }

  // ---- splitting ---------------------------------------------------------------------------

  /** Split the leaf of `target` in two; the new pane is used up by the first such leaf. */
  function SplitLayout(t: Layout, target: nat, sideBySide: bool, newp: Option<Pane>): (Layout, Option<Pane>) {
    match t
    case Empty => (Empty, newp)
    case Leaf(p) =>
      if p.session == target && newp.Some? then
        (Split(sideBySide, 0.5, Leaf(p), Leaf(newp.value)), None)
      else (t, newp)
    case Split(s, r, a, b) =>
      var (a', n1) := SplitLayout(a, target, sideBySide, newp);
      var (b', n2) := SplitLayout(b, target, sideBySide, n1);
      (Split(s, r, a', b'), n2)
  }

  /** The target's place is taken by an even split of the orientation asked for, the target first
      and the new pane second; no other place of the tree changes. */
  lemma {:induction false} SplitShape(t: Layout, target: nat, sideBySide: bool, newp: Pane, path: seq<bool>)
    requires PathTo(t, target) == Some(path)
    ensures IsPath(t, path) && NodeAt(t, path).Leaf?
    ensures SplitLayout(t, target, sideBySide, Some(newp)) ==
      (WithNode(t, path, Split(sideBySide, 0.5, NodeAt(t, path), Leaf(newp))), None)
  {
    if t.Split? {
      SplitNothing(t.b, target, sideBySide);
      if PathTo(t.a, target).Some? {
        assert path[1..] == PathTo(t.a, target).value;
        SplitShape(t.a, target, sideBySide, newp, path[1..]);
      } else {
        assert path[1..] == PathTo(t.b, target).value;
        PathIsPath(t.a, target);
        FindFinds(t.a, target);
        SplitInserts(t.a, target, sideBySide, newp);
        SplitShape(t.b, target, sideBySide, newp, path[1..]);
      }
    }
  }

  /** The list with x put right after the first pane of `target`. */
  function InsertAfter(ps: seq<Pane>, target: nat, x: Pane): seq<Pane> {
    if ps == [] then []
    else if ps[0].session == target then [ps[0], x] + ps[1..]
    else [ps[0]] + InsertAfter(ps[1..], target, x)
  }

  lemma InsertAfterFirst(p: Pane, rest: seq<Pane>, target: nat, x: Pane)
    ensures InsertAfter([p] + rest, target, x) ==
      if p.session == target then [p, x] + rest else [p] + InsertAfter(rest, target, x)
  {
    assert ([p] + rest)[1..] == rest;
  }

  lemma InFirst(p: Pane, rest: seq<Pane>, target: nat)
    ensures target in Ids([p] + rest) <==> p.session == target || target in Ids(rest)
  {
    assert Ids([p] + rest) == [p.session] + Ids(rest);
  }

  lemma Regrouped<T>(a: seq<T>, b: seq<T>, c: seq<T>)
    ensures a + (b + c) == a + b + c
  {
  }

  lemma {:induction false} InsertAfterAppend(a: seq<Pane>, b: seq<Pane>, target: nat, x: Pane)
    ensures InsertAfter(a + b, target, x) ==
      if target in Ids(a) then InsertAfter(a, target, x) + b else a + InsertAfter(b, target, x)
  {
    hide InsertAfter;
    if a == [] {
      assert a + b == b && a + InsertAfter(b, target, x) == InsertAfter(b, target, x);
    } else {
      var p, rest := a[0], a[1..];
      assert a == [p] + rest;
      InFirst(p, rest, target);
      hide Ids;
      Regrouped([p], rest, b);
      InsertAfterFirst(p, rest + b, target, x);
      InsertAfterFirst(p, rest, target, x);
      if p.session == target {
        Regrouped([p, x], rest, b);
      } else {
        InsertAfterAppend(rest, b, target, x);
        Regrouped([p], InsertAfter(rest, target, x), b);
        Regrouped([p], rest, InsertAfter(b, target, x));
      }
    }
  }

  lemma {:induction false} SplitNothing(t: Layout, target: nat, sideBySide: bool)
    ensures SplitLayout(t, target, sideBySide, None) == (t, None)
  {
    if t.Split? {
      SplitNothing(t.a, target, sideBySide);
      SplitNothing(t.b, target, sideBySide);
    }
  }

  /** A split puts the new pane right after its target and changes nothing else; without the
      target the tree stays and the pane is handed back. */
  lemma {:induction false} SplitInserts(t: Layout, target: nat, sideBySide: bool, newp: Pane)
    ensures var (r, left) := SplitLayout(t, target, sideBySide, Some(newp));
            if target in Sessions(t) then left == None && Panes(r) == InsertAfter(Panes(t), target, newp)
            else left == Some(newp) && r == t
    ensures EmptyFree(t) ==> EmptyFree(SplitLayout(t, target, sideBySide, Some(newp)).0)
    ensures RatiosOk(t) ==> RatiosOk(SplitLayout(t, target, sideBySide, Some(newp)).0)
  {
    if t.Split? {
      SplitInserts(t.a, target, sideBySide, newp);
      SplitInserts(t.b, target, sideBySide, newp);
      SplitNothing(t.b, target, sideBySide);
      IdsAppend(Panes(t.a), Panes(t.b));
      InsertAfterAppend(Panes(t.a), Panes(t.b), target, newp);
    } else if t.Leaf? {
      assert Sessions(t) == [t.pane.session];
    }
  }

  // ---- removing ------------------------------------------------------------------------------

  function Later(first: Option<Pane>, later: Option<Pane>): Option<Pane> { if later.Some? then later else first }

  /** The tree without the leaf of `session`, its parent split collapsed; and the pane removed. */
  function RemoveLayout(t: Layout, session: nat): (Option<Layout>, Option<Pane>) {
    match t
    case Empty => (None, None)
    case Leaf(p) => if p.session == session then (None, Some(p)) else (Some(t), None)
    case Split(s, r, a, b) =>
      var (na, pa) := RemoveLayout(a, session);
      var (nb, pb) := RemoveLayout(b, session);
      ((if na.Some? && nb.Some? then Some(Split(s, r, na.value, nb.value)) else if na.Some? then na else nb),
       Later(pa, pb))
  }

  function Without(ps: seq<Pane>, session: nat): seq<Pane> {
    if ps == [] then []
    else (if ps[0].session == session then [] else [ps[0]]) + Without(ps[1..], session)
  }

  lemma {:induction false} WithoutAppend(a: seq<Pane>, b: seq<Pane>, session: nat)
    ensures Without(a + b, session) == Without(a, session) + Without(b, session)
  {
    if a == [] {
      assert a + b == b;
    } else {
      var init := if a[0].session == session then [] else [a[0]];
      assert (a + b)[1..] == a[1..] + b && (a + b)[0] == a[0];
      WithoutAppend(a[1..], b, session);
      assert init + (Without(a[1..], session) + Without(b, session))
        == init + Without(a[1..], session) + Without(b, session);
      hide Without;
    }
  }

  function Held(t: Option<Layout>): seq<Pane> { if t.None? then [] else Panes(t.value) }

  /** Removing a session keeps every other pane, in order; nothing is left exactly when there is
      no other pane. */
  lemma {:induction false} RemoveKeepsRest(t: Layout, session: nat)
    ensures var (r, p) := RemoveLayout(t, session);
            && Held(r) == Without(Panes(t), session)
            && (r.Some? ==> EmptyFree(r.value))
            && (r.None? <==> Without(Panes(t), session) == [])
            && (p.Some? <==> session in Sessions(t))
            && (RatiosOk(t) && r.Some? ==> RatiosOk(r.value))
  {
    if t.Split? {
      RemoveKeepsRest(t.a, session);
      RemoveKeepsRest(t.b, session);
      WithoutAppend(Panes(t.a), Panes(t.b), session);
      IdsAppend(Panes(t.a), Panes(t.b));
      NonEmpty(RemoveLayout(t.a, session).0);
      NonEmpty(RemoveLayout(t.b, session).0);
    } else if t.Leaf? {
      assert Sessions(t) == [t.pane.session];
      assert Without([], session) == [];
    }
  }

  lemma NonEmpty(t: Option<Layout>)
    ensures t.Some? && EmptyFree(t.value) ==> Held(t) != []
  {
    if t.Some? && EmptyFree(t.value) { FirstIsFirst(t.value); }
  }

  /** Removing a session that is not there changes nothing exactly when the tree has no
      placeholder in it. */
  lemma {:induction false} RemoveAbsent(t: Layout, session: nat)
    requires session !in Sessions(t)
    ensures RemoveLayout(t, session).0 == Some(t) <==> EmptyFree(t)
    ensures RemoveLayout(t, session).1 == None
  {
    if t.Split? {
      IdsAppend(Panes(t.a), Panes(t.b));
      RemoveAbsent(t.a, session);
      RemoveAbsent(t.b, session);
      RemoveKeepsRest(t, session);
      var (na, nb) := (RemoveLayout(t.a, session).0, RemoveLayout(t.b, session).0);
      assert na == Some(t) ==> Size(t.a) >= Size(t) by { RemoveShrinks(t.a, session); }
      assert nb == Some(t) ==> Size(t.b) >= Size(t) by { RemoveShrinks(t.b, session); }
    } else if t.Leaf? {
      assert Sessions(t)[0] == t.pane.session;
    }
  }

  function Size(t: Layout): nat { if t.Split? then 1 + Size(t.a) + Size(t.b) else 1 }

  lemma {:induction false} RemoveShrinks(t: Layout, session: nat)
    ensures RemoveLayout(t, session).0.Some? ==> Size(RemoveLayout(t, session).0.value) <= Size(t)
  {
    if t.Split? {
      RemoveShrinks(t.a, session);
      RemoveShrinks(t.b, session);
    }
  }

  /** Removing a pane just split in gives back the original tree, exactly, and the pane. */
  lemma {:induction false} RemoveUndoesSplit(t: Layout, target: nat, sideBySide: bool, newp: Pane)
    requires EmptyFree(t) && target in Sessions(t) && newp.session !in Sessions(t)
    ensures RemoveLayout(SplitLayout(t, target, sideBySide, Some(newp)).0, newp.session) == (Some(t), Some(newp))
  {
    if t.Split? {
      IdsAppend(Panes(t.a), Panes(t.b));
      RemoveAbsent(t.a, newp.session);
      RemoveAbsent(t.b, newp.session);
      SplitNothing(t.b, target, sideBySide);
      SplitInserts(t.a, target, sideBySide, newp);
      if target in Sessions(t.a) {
        RemoveUndoesSplit(t.a, target, sideBySide, newp);
      } else {
        RemoveUndoesSplit(t.b, target, sideBySide, newp);
      }
    } else {
      assert Sessions(t) == [t.pane.session];
    }
  }

  // ---- moving a divider -------------------------------------------------------------------------

  function ClampRatio(r: real): (c: real)
    ensures 0.1 <= c <= 0.9
  {
    if r < 0.1 then 0.1 else if r > 0.9 then 0.9 else r
  }

  /** The tree after the move, whether the focus is in it, and whether a divider moved. */
  function ResizeSplit(t: Layout, focus: nat, wantSbs: bool, delta: real): (Layout, bool, bool) {
    match t
    case Empty => (t, false, false)
    case Leaf(p) => (t, p.session == focus, false)
    case Split(s, r, a, b) =>
      var (a', inA, adjA) := ResizeSplit(a, focus, wantSbs, delta);
      var (b', inB, adjB) := if inA then (b, false, false) else ResizeSplit(b, focus, wantSbs, delta);
      var inSub, adj := inA || inB, if inA then adjA else adjB;
      if inSub && !adj && s == wantSbs then (Split(s, ClampRatio(r + delta), a', b'), true, true)
      else (Split(s, r, a', b'), inSub, inSub && adj)
  }

  /** The way down to the first pane of a session: at each split, whether it is to the right. */
  function PathTo(t: Layout, session: nat): Option<seq<bool>> {
    match t
    case Empty => None
    case Leaf(p) => if p.session == session then Some([]) else None
    case Split(_, _, a, b) =>
      match PathTo(a, session)
      case Some(p) => Some([false] + p)
      case None =>
        match PathTo(b, session)
        case Some(p) => Some([true] + p)
        case None => None
  }

  predicate IsPath(t: Layout, path: seq<bool>) {
    path != [] ==> t.Split? && IsPath(if path[0] then t.b else t.a, path[1..])
  }

  function NodeAt(t: Layout, path: seq<bool>): Layout
    requires IsPath(t, path)
  {
    if path == [] then t else NodeAt(if path[0] then t.b else t.a, path[1..])
  }

  /** The tree with the node at a path replaced. */
  function WithNode(t: Layout, path: seq<bool>, n: Layout): Layout
    requires IsPath(t, path)
  {
    if path == [] then n
    else if path[0] then t.(b := WithNode(t.b, path[1..], n))
    else t.(a := WithNode(t.a, path[1..], n))
  }

  /** The tree with the ratio of one split changed. */
  function WithRatio(t: Layout, path: seq<bool>, r: real): Layout
    requires IsPath(t, path) && NodeAt(t, path).Split?
  {
    if path == [] then t.(ratio := r)
    else if path[0] then t.(b := WithRatio(t.b, path[1..], r))
    else t.(a := WithRatio(t.a, path[1..], r))
  }

  /** The split this far down the path has the wanted orientation. */
  predicate Matches(t: Layout, path: seq<bool>, n: nat, wantSbs: bool)
    requires n <= |path|
  {
    IsPath(t, path[..n]) && NodeAt(t, path[..n]).Split? && NodeAt(t, path[..n]).sideBySide == wantSbs
  }

  /** How many steps down the path the deepest split of the wanted orientation is. */
  function Nearest(t: Layout, path: seq<bool>, wantSbs: bool): (r: Option<nat>)
    requires IsPath(t, path)
    ensures r.Some? ==> r.value < |path|
  {
    if path == [] then None
    else
      match Nearest(if path[0] then t.b else t.a, path[1..], wantSbs)
      case Some(n) => Some(n + 1)
      case None => if t.sideBySide == wantSbs then Some(0) else None
  }

  /** A divider asked to go where both sides keep a tenth goes there, and otherwise to the bound it
      would pass; moving it back undoes the move unless a bound was met. */
  lemma ClampMeans(r: real, delta: real)
    requires 0.1 <= r <= 0.9
    ensures var c := ClampRatio(r + delta);
            && (0.1 <= r + delta <= 0.9 ==> c == r + delta && ClampRatio(c - delta) == r)
            && (r + delta < 0.1 ==> c == 0.1) && (r + delta > 0.9 ==> c == 0.9)
  {
  }

  lemma MatchesBelow(t: Layout, path: seq<bool>, n: nat, wantSbs: bool)
    requires IsPath(t, path) && path != [] && 0 < n <= |path|
    ensures Matches(t, path, n, wantSbs) <==> Matches(if path[0] then t.b else t.a, path[1..], n - 1, wantSbs)
    ensures Matches(t, path, n, wantSbs) ==>
      NodeAt(t, path[..n]) == NodeAt(if path[0] then t.b else t.a, path[1..][..n - 1])
  {
    assert path[..n][1..] == path[1..][..n - 1];
  }

  /** It is the deepest: no split further down the path has that orientation. */
  lemma {:induction false} NearestIs(t: Layout, path: seq<bool>, wantSbs: bool)
    requires IsPath(t, path)
    ensures match Nearest(t, path, wantSbs)
            case Some(n) => Matches(t, path, n, wantSbs) && forall m :: n < m < |path| ==> !Matches(t, path, m, wantSbs)
            case None => forall m :: 0 <= m < |path| ==> !Matches(t, path, m, wantSbs)
  {
    if path != [] {
      var below := if path[0] then t.b else t.a;
      NearestIs(below, path[1..], wantSbs);
      forall n | 0 < n <= |path|
        ensures Matches(t, path, n, wantSbs) <==> Matches(below, path[1..], n - 1, wantSbs)
      {
        MatchesBelow(t, path, n, wantSbs);
      }
      assert path[..0] == [];
    }
  }

  lemma {:induction false} PathIsPath(t: Layout, session: nat)
    ensures PathTo(t, session).Some? <==> Find(t, session).Some?
    ensures PathTo(t, session).Some? ==>
      && IsPath(t, PathTo(t, session).value)
      && NodeAt(t, PathTo(t, session).value) == Leaf(Find(t, session).value)
  {
    if t.Split? {
      PathIsPath(t.a, session);
      PathIsPath(t.b, session);
    }
  }

  /** What moving the divider nearest to the pane at the end of a path gives. */
  predicate MovedNearest(t: Layout, path: seq<bool>, wantSbs: bool, delta: real, r: Layout, adj: bool) {
    IsPath(t, path) &&
    match Nearest(t, path, wantSbs)
    case None => !adj && r == t
    case Some(n) =>
      && adj && Matches(t, path, n, wantSbs)
      && r == WithRatio(t, path[..n], ClampRatio(NodeAt(t, path[..n]).ratio + delta))
  }

  /** One split further up. */
  lemma MovedAbove(t: Layout, path: seq<bool>, wantSbs: bool, delta: real, r: Layout, adj: bool)
    requires t.Split? && path != []
    requires MovedNearest(if path[0] then t.b else t.a, path[1..], wantSbs, delta, r, adj)
    ensures var t' := if path[0] then t.(b := r) else t.(a := r);
            if !adj && t.sideBySide == wantSbs
            then MovedNearest(t, path, wantSbs, delta, t'.(ratio := ClampRatio(t.ratio + delta)), true)
            else MovedNearest(t, path, wantSbs, delta, t', adj)
  {
    hide ClampRatio;
    var below := if path[0] then t.b else t.a;
    NearestIs(t, path, wantSbs);
    assert path[..0] == [];
    match Nearest(below, path[1..], wantSbs) {
      case None =>
      case Some(n) =>
        MatchesBelow(t, path, n + 1, wantSbs);
        assert path[..n + 1][1..] == path[1..][..n];
    }
  }

  /** Moving a divider changes exactly one ratio, that of the nearest ancestor of the focused
      pane with the wanted orientation, and nothing when there is none. */
  lemma {:induction false} ResizeMovesNearest(t: Layout, focus: nat, wantSbs: bool, delta: real)
    ensures var (r, inSub, adj) := ResizeSplit(t, focus, wantSbs, delta);
            match PathTo(t, focus)
            case None => !inSub && !adj && r == t
            case Some(path) => inSub && MovedNearest(t, path, wantSbs, delta, r, adj)
  {
    hide ClampRatio, MovedNearest;
    if t.Split? {
      ResizeMovesNearest(t.a, focus, wantSbs, delta);
      ResizeMovesNearest(t.b, focus, wantSbs, delta);
      var side, inA := ResizeSplit(t.b, focus, wantSbs, delta), PathTo(t.a, focus).Some?;
      if inA { side := ResizeSplit(t.a, focus, wantSbs, delta); }
      if PathTo(t, focus).Some? {
        var path := PathTo(t, focus).value;
        assert path[1..] == PathTo(if inA then t.a else t.b, focus).value;
        MovedAbove(t, path, wantSbs, delta, side.0, side.2);
      }
    } else {
      NothingNearer(t, wantSbs, delta);
    }
  }

  lemma NothingNearer(t: Layout, wantSbs: bool, delta: real)
    ensures MovedNearest(t, [], wantSbs, delta, t, false)
  {
  }

  /** The panes stay, and so do the bounds on every ratio. */
  lemma {:induction false} ResizeKeeps(t: Layout, focus: nat, wantSbs: bool, delta: real)
    ensures var r := ResizeSplit(t, focus, wantSbs, delta).0;
            && Panes(r) == Panes(t) && (EmptyFree(t) ==> EmptyFree(r)) && (RatiosOk(t) ==> RatiosOk(r))
  {
    if t.Split? {
      ResizeKeeps(t.a, focus, wantSbs, delta);
      ResizeKeeps(t.b, focus, wantSbs, delta);
    }
  }

  // ---- rectangles ------------------------------------------------------------------------------

  datatype Rect = Rect(x: nat, y: nat, w: nat, h: nat)

  datatype Placed = Placed(session: nat, rect: Rect)

  const DIVIDER: nat := 1

  predicate RatiosUnit(t: Layout) {
    t.Split? ==> 0.0 <= t.ratio <= 1.0 && RatiosUnit(t.a) && RatiosUnit(t.b)
  }

  lemma {:induction false} BoundsAreUnit(t: Layout)
    requires RatiosOk(t)
    ensures RatiosUnit(t)
  {
    if t.Split? {
      BoundsAreUnit(t.a);
      BoundsAreUnit(t.b);
    }
  }

  /** Where a divider cuts an extent. */
  function Cut(extent: nat, ratio: real): (c: nat)
    requires 0.0 <= ratio <= 1.0
    ensures c <= extent
  {
    var x := extent as real * ratio;
    assert 0.0 <= x <= extent as real;
    x.Floor
  }

  function SatSub(a: nat, b: nat): nat { if a >= b then a - b else 0 }

  /** The areas of a split's two sides; the divider is taken from the first. */
  function Sides(area: Rect, sideBySide: bool, ratio: real): (Rect, Rect)
    requires 0.0 <= ratio <= 1.0
  {
    if sideBySide then
      var c := Cut(area.w, ratio);
      (area.(w := SatSub(c, DIVIDER)), area.(x := area.x + c, w := SatSub(area.w, c)))
    else
      var c := Cut(area.h, ratio);
      (area.(h := SatSub(c, DIVIDER)), area.(y := area.y + c, h := SatSub(area.h, c)))
  }

  function Rects(t: Layout, area: Rect): seq<Placed>
    requires RatiosUnit(t)
  {
    match t
    case Empty => []
    case Leaf(p) => [Placed(p.session, area)]
    case Split(s, r, a, b) =>
      var (ra, rb) := Sides(area, s, r);
      Rects(a, ra) + Rects(b, rb)
  }

  predicate Covers(r: Rect, x: nat, y: nat) { r.x <= x < r.x + r.w && r.y <= y < r.y + r.h }

  function Portion(extent: nat, ratio: real): real { extent as real * ratio }

  /** The extent of the first side and its divider, for an extent and a ratio. */
  predicate Share(c: nat, extent: nat, ratio: real) {
    c as real <= Portion(extent, ratio) < c as real + 1.0
  }

  /** What the ratio means: of the extent split, the first side with its divider takes that share,
      rounded down, and the second side the rest behind it; the other extent is kept. */
  lemma RatioIsShare(area: Rect, sideBySide: bool, ratio: real)
    requires 0.0 <= ratio <= 1.0
    ensures var (ra, rb) := Sides(area, sideBySide, ratio);
            if sideBySide then
              && ra.x == area.x && Share(rb.x - area.x, area.w, ratio) && rb.x + rb.w == area.x + area.w
              && (ra.x + ra.w + 1 == rb.x || (ra.w == 0 && rb.x == area.x))
              && ra.y == rb.y == area.y && ra.h == rb.h == area.h
            else
              && ra.y == area.y && Share(rb.y - area.y, area.h, ratio) && rb.y + rb.h == area.y + area.h
              && (ra.y + ra.h + 1 == rb.y || (ra.h == 0 && rb.y == area.y))
              && ra.x == rb.x == area.x && ra.w == rb.w == area.w
  {
    CutIsShare(if sideBySide then area.w else area.h, ratio);
    hide Cut, Share;
  }

  lemma CutIsShare(extent: nat, ratio: real)
    requires 0.0 <= ratio <= 1.0
    ensures Cut(extent, ratio) <= extent && Share(Cut(extent, ratio), extent, ratio)
  {
  }

  /** A divider moved right or down never shrinks the first side, nor grows the second. */
  lemma MovingGrowsFirst(area: Rect, sideBySide: bool, r: real, r': real)
    requires 0.0 <= r <= r' <= 1.0
    ensures var (a, b) := Sides(area, sideBySide, r);
            var (a', b') := Sides(area, sideBySide, r');
            if sideBySide then a.w <= a'.w && b.w >= b'.w else a.h <= a'.h && b.h >= b'.h
  {
    var extent := if sideBySide then area.w else area.h;
    CutIsShare(extent, r);
    CutIsShare(extent, r');
    SharesGrow(Cut(extent, r), Cut(extent, r'), extent, r, r');
    hide Cut, Share;
  }

  lemma SharesGrow(c: nat, c': nat, extent: nat, r: real, r': real)
    requires Share(c, extent, r) && Share(c', extent, r') && 0.0 <= r <= r'
    ensures c <= c'
  {
    TimesGrows(extent as real, r, r');
  }

  lemma TimesGrows(e: real, r: real, r': real)
    requires 0.0 <= e && r <= r'
    ensures e * r <= e * r'
  {
  }

  /** Splits on the longest way down. */
  function Depth(t: Layout): nat {
    if t.Split? then 1 + Max(Depth(t.a), Depth(t.b)) else 0
  }

  /** Enough for n nested splits with a tenth each: twenty times as much for each split. */
  function Roomy(n: nat): nat { if n == 0 then 1 else 20 * Roomy(n - 1) }

  lemma {:induction false} RoomyGrows(n: nat, m: nat)
    requires n <= m
    ensures 1 <= Roomy(n) <= Roomy(m)
    decreases m
  {
    if m > 0 { RoomyGrows(if n == m then n - 1 else n, m - 1); }
  }

  lemma Tenths(e: real, r: real)
    requires 0.0 <= e && 0.1 <= r <= 0.9
    ensures e / 10.0 <= e * r <= e - e / 10.0
  {
    assert e * (r - 0.1) >= 0.0;
    assert e * (0.9 - r) >= 0.0;
  }

  lemma PortionBounds(extent: nat, ratio: real)
    requires 0.1 <= ratio <= 0.9
    ensures extent as real / 10.0 <= Portion(extent, ratio) <= extent as real - extent as real / 10.0
  {
    Tenths(extent as real, ratio);
  }

  lemma Between(c: nat, extent: nat, n: nat, x: real)
    requires c as real <= x < c as real + 1.0 && extent >= 20 * n && n >= 1
    requires extent as real / 10.0 <= x <= extent as real - extent as real / 10.0
    ensures n + 1 <= c && c + n <= extent
  {
    assert extent as real / 10.0 >= 2.0 * n as real;
    assert (c + 1) as real > (2 * n) as real;
    assert (c + 2 * n) as real <= extent as real;
  }

  lemma CutRoomy(c: nat, extent: nat, ratio: real, n: nat)
    requires Share(c, extent, ratio) && 0.1 <= ratio <= 0.9 && extent >= 20 * n && n >= 1
    ensures n + 1 <= c && c + n <= extent
  {
    hide Portion;
    PortionBounds(extent, ratio);
    Between(c, extent, n, Portion(extent, ratio));
  }

  lemma SidesRoomy(area: Rect, sideBySide: bool, ratio: real, n: nat)
    requires 0.1 <= ratio <= 0.9 && area.w >= 20 * n && area.h >= 20 * n && n >= 1
    ensures var (ra, rb) := Sides(area, sideBySide, ratio);
            ra.w >= n && ra.h >= n && rb.w >= n && rb.h >= n
  {
    var extent := if sideBySide then area.w else area.h;
    CutIsShare(extent, ratio);
    CutRoomy(Cut(extent, ratio), extent, ratio, n);
    hide Cut, Share;
  }

  /** With ratios in their bounds and a large enough area, no pane is empty. */
  lemma {:induction false} NoPaneEmpty(t: Layout, area: Rect)
    requires RatiosOk(t) && RatiosUnit(t) && area.w >= Roomy(Depth(t)) && area.h >= Roomy(Depth(t))
    ensures forall i :: 0 <= i < |Rects(t, area)| ==> Rects(t, area)[i].rect.w >= 1 && Rects(t, area)[i].rect.h >= 1
  {
    if t.Split? {
      var (ra, rb) := Sides(area, t.sideBySide, t.ratio);
      RoomyGrows(0, Depth(t) - 1);
      SidesRoomy(area, t.sideBySide, t.ratio, Roomy(Depth(t) - 1));
      RoomyGrows(Depth(t.a), Depth(t) - 1);
      RoomyGrows(Depth(t.b), Depth(t) - 1);
      hide Sides, Roomy, Depth;
      NoPaneEmpty(t.a, ra);
      NoPaneEmpty(t.b, rb);
    }
  }

  /** How many of the panes a point lies in. */
  function Hits(ps: seq<Placed>, x: nat, y: nat): nat {
    if ps == [] then 0 else Hits(ps[..|ps| - 1], x, y) + if Covers(ps[|ps| - 1].rect, x, y) then 1 else 0
  }

  /** The point lies on some divider of the tree. */
  predicate OnDivider(t: Layout, area: Rect, x: nat, y: nat)
    requires RatiosUnit(t)
  {
    t.Split? &&
    var (ra, rb) := Sides(area, t.sideBySide, t.ratio);
    || (Covers(area, x, y) && !Covers(ra, x, y) && !Covers(rb, x, y))
    || OnDivider(t.a, ra, x, y) || OnDivider(t.b, rb, x, y)
  }

  lemma {:induction false} HitsAppend(a: seq<Placed>, b: seq<Placed>, x: nat, y: nat)
    ensures Hits(a + b, x, y) == Hits(a, x, y) + Hits(b, x, y)
  {
    if b == [] {
      assert a + b == a;
    } else {
      assert (a + b)[..|a + b| - 1] == a + b[..|b| - 1];
      HitsAppend(a, b[..|b| - 1], x, y);
    }
  }

  /** The two sides are apart, inside the area, and leave out at most one line of it. */
  lemma SidesFit(area: Rect, sideBySide: bool, ratio: real, x: nat, y: nat)
    requires 0.0 <= ratio <= 1.0
    ensures var (ra, rb) := Sides(area, sideBySide, ratio);
            && !(Covers(ra, x, y) && Covers(rb, x, y))
            && (Covers(ra, x, y) || Covers(rb, x, y) ==> Covers(area, x, y))
            && (Covers(area, x, y) && !Covers(ra, x, y) && !Covers(rb, x, y) ==>
                  if sideBySide then x + 1 == rb.x else y + 1 == rb.y)
  {
  }

  /** The panes tile the area: each of its points is in exactly one pane or on a divider, never
      both, and no pane or divider has a point outside it. */
  lemma {:induction false} PanesTile(t: Layout, area: Rect, x: nat, y: nat)
    requires RatiosUnit(t) && EmptyFree(t)
    ensures Hits(Rects(t, area), x, y) + (if OnDivider(t, area, x, y) then 1 else 0)
            == if Covers(area, x, y) then 1 else 0
  {
    if t.Split? {
      var (ra, rb) := Sides(area, t.sideBySide, t.ratio);
      SidesFit(area, t.sideBySide, t.ratio, x, y);
      hide Sides, Covers, Hits;
      PanesTile(t.a, ra, x, y);
      PanesTile(t.b, rb, x, y);
      HitsAppend(Rects(t.a, ra), Rects(t.b, rb), x, y);
    } else {
      assert Rects(t, area)[..0] == [];
    }
  }

  lemma {:induction false} HitsTwice(ps: seq<Placed>, i: nat, j: nat, x: nat, y: nat)
    requires i < j < |ps| && Covers(ps[i].rect, x, y) && Covers(ps[j].rect, x, y)
    ensures Hits(ps, x, y) >= 2
  {
    if j == |ps| - 1 { HitsOnce(ps[..j], i, x, y); } else { HitsTwice(ps[..|ps| - 1], i, j, x, y); }
  }

  lemma {:induction false} HitsOnce(ps: seq<Placed>, i: nat, x: nat, y: nat)
    requires i < |ps| && Covers(ps[i].rect, x, y)
    ensures Hits(ps, x, y) >= 1
  {
    if i < |ps| - 1 { HitsOnce(ps[..|ps| - 1], i, x, y); }
  }

  /** Hence no two panes overlap and none leaves the area. */
  lemma PanesApart(t: Layout, area: Rect, i: nat, j: nat, x: nat, y: nat)
    requires RatiosUnit(t) && EmptyFree(t) && i < j < |Rects(t, area)|
    ensures !(Covers(Rects(t, area)[i].rect, x, y) && Covers(Rects(t, area)[j].rect, x, y))
    ensures Covers(Rects(t, area)[i].rect, x, y) ==> Covers(area, x, y)
  {
    PanesTile(t, area, x, y);
    var ps := Rects(t, area);
    if Covers(ps[i].rect, x, y) {
      HitsOnce(ps, i, x, y);
      if Covers(ps[j].rect, x, y) { HitsTwice(ps, i, j, x, y); }
    }
  }

  function Owners(ps: seq<Placed>): (ids: seq<nat>)
    ensures |ids| == |ps| && forall i :: 0 <= i < |ps| ==> ids[i] == ps[i].session
  {
    seq(|ps|, i requires 0 <= i < |ps| => ps[i].session)
  }

  /** One rectangle per pane, in the panes' order. */
  lemma {:induction false} RectsInOrder(t: Layout, area: Rect)
    requires RatiosUnit(t)
    ensures Owners(Rects(t, area)) == Sessions(t)
  {
    if t.Split? {
      var (ra, rb) := Sides(area, t.sideBySide, t.ratio);
      RectsInOrder(t.a, ra);
      RectsInOrder(t.b, rb);
      IdsAppend(Panes(t.a), Panes(t.b));
      assert Owners(Rects(t.a, ra) + Rects(t.b, rb)) == Owners(Rects(t.a, ra)) + Owners(Rects(t.b, rb));
    }
  }

  // ---- the repaint's bookkeeping for a whole tree ---------------------------------------------

  /** A terminal's line counter and the number of lines it keeps, by session. */
  type Counters = nat -> (nat, nat)

  function TickPane(p: Pane, k: Counters): Pane { p.(view := Ticked(p.view, k(p.session).0, k(p.session).1)) }

  /** Every pane ticked. */
  function TickTree(t: Layout, k: Counters): Layout {
    match t
    case Empty => t
    case Leaf(p) => Leaf(TickPane(p, k))
    case Split(s, r, a, b) => Split(s, r, TickTree(a, k), TickTree(b, k))
  }

  lemma {:induction false} TickTreeKeeps(t: Layout, k: Counters)
    ensures var r := TickTree(t, k);
            Sessions(r) == Sessions(t) && EmptyFree(r) == EmptyFree(t) && RatiosOk(r) == RatiosOk(t)
  {
    if t.Split? {
      TickTreeKeeps(t.a, k);
      TickTreeKeeps(t.b, k);
      IdsAppend(Panes(t.a), Panes(t.b));
      IdsAppend(Panes(TickTree(t.a, k)), Panes(TickTree(t.b, k)));
    }
  }

  /** A repaint gives every view its bookkeeping, and moves no pane and no divider. */
  lemma {:induction false} TickTreeExactly(t: Layout, k: Counters)
    ensures |Panes(TickTree(t, k))| == |Panes(t)|
    ensures forall i :: 0 <= i < |Panes(t)| ==> Panes(TickTree(t, k))[i] == TickPane(Panes(t)[i], k)
    ensures RatiosUnit(TickTree(t, k)) <==> RatiosUnit(t)
    ensures RatiosUnit(t) ==> forall area :: Rects(TickTree(t, k), area) == Rects(t, area)
  {
    if t.Split? {
      TickTreeExactly(t.a, k);
      TickTreeExactly(t.b, k);
      hide Sides, TickPane;
    }
  }

  /** `find_mut` and an update: only the first pane of the session is ticked. */
  function TickFirst(t: Layout, session: nat, k: Counters): Layout {
    match t
    case Empty => t
    case Leaf(p) => if p.session == session then Leaf(TickPane(p, k)) else t
    case Split(s, r, a, b) =>
      if Find(a, session).Some? then Split(s, r, TickFirst(a, session, k), b)
      else Split(s, r, a, TickFirst(b, session, k))
  }

  function TickEach(t: Layout, ids: seq<nat>, k: Counters): Layout {
    if ids == [] then t else TickFirst(TickEach(t, ids[..|ids| - 1], k), ids[|ids| - 1], k)
  }

  predicate AllDiffer(ids: seq<nat>) { forall i, j :: 0 <= i < j < |ids| ==> ids[i] != ids[j] }

  lemma {:induction false} TickKeepsSessions(t: Layout, session: nat, k: Counters)
    ensures Sessions(TickFirst(t, session, k)) == Sessions(t)
  {
    if t.Split? {
      TickKeepsSessions(t.a, session, k);
      TickKeepsSessions(t.b, session, k);
      IdsAppend(Panes(t.a), Panes(t.b));
      IdsAppend(Panes(TickFirst(t.a, session, k)), Panes(t.b));
      IdsAppend(Panes(t.a), Panes(TickFirst(t.b, session, k)));
    }
  }

  lemma {:induction false} EachKeepsSessions(t: Layout, ids: seq<nat>, k: Counters)
    ensures Sessions(TickEach(t, ids, k)) == Sessions(t)
  {
    hide TickFirst;
    if ids != [] {
      EachKeepsSessions(t, ids[..|ids| - 1], k);
      TickKeepsSessions(TickEach(t, ids[..|ids| - 1], k), ids[|ids| - 1], k);
    }
  }

  /** Sessions of the left side are found there, ... */
  lemma {:induction false} TickLeft(t: Layout, ids: seq<nat>, k: Counters)
    requires t.Split? && (forall i :: 0 <= i < |ids| ==> ids[i] in Sessions(t.a))
    ensures TickEach(t, ids, k) == t.(a := TickEach(t.a, ids, k))
  {
    if ids != [] {
      var init, last := ids[..|ids| - 1], ids[|ids| - 1];
      TickLeft(t, init, k);
      EachKeepsSessions(t.a, init, k);
      FindFinds(TickEach(t.a, init, k), last);
    }
  }

  /** ... and those only on the right side there. */
  lemma {:induction false} TickRight(t: Layout, ids: seq<nat>, k: Counters)
    requires t.Split? && (forall i :: 0 <= i < |ids| ==> ids[i] !in Sessions(t.a))
    ensures TickEach(t, ids, k) == t.(b := TickEach(t.b, ids, k))
  {
    if ids != [] {
      TickRight(t, ids[..|ids| - 1], k);
      FindFinds(t.a, ids[|ids| - 1]);
    }
  }

  lemma {:induction false} TickEachAppend(t: Layout, a: seq<nat>, b: seq<nat>, k: Counters)
    ensures TickEach(t, a + b, k) == TickEach(TickEach(t, a, k), b, k)
  {
    hide TickFirst;
    if b == [] {
      assert a + b == a;
    } else {
      assert (a + b)[..|a + b| - 1] == a + b[..|b| - 1];
      TickEachAppend(t, a, b[..|b| - 1], k);
    }
  }

  /** Looking up each collected session and ticking what is found ticks every pane exactly once,
      as long as no session has two panes. */
  lemma {:induction false} EachIsEvery(t: Layout, k: Counters)
    requires AllDiffer(Sessions(t))
    ensures TickEach(t, Sessions(t), k) == TickTree(t, k)
  {
    match t {
      case Empty =>
      case Leaf(p) =>
        assert Sessions(t) == [p.session] && [p.session][..0] == [];
      case Split(_, _, a, b) =>
        var ia, ib := Sessions(a), Sessions(b);
        IdsAppend(Panes(a), Panes(b));
        SidesDiffer(ia, ib);
        hide Sessions, AllDiffer, TickFirst;
        TickEachAppend(t, ia, ib, k);
        TickLeft(t, ia, k);
        EachIsEvery(a, k);
        EachKeepsSessions(a, ia, k);
        TickRight(t.(a := TickTree(a, k)), ib, k);
        EachIsEvery(b, k);
    }
  }

  lemma SidesDiffer(a: seq<nat>, b: seq<nat>)
    requires AllDiffer(a + b)
    ensures AllDiffer(a) && AllDiffer(b) && (forall i :: 0 <= i < |b| ==> b[i] !in a)
  {
    var all := a + b;
    assert (forall i :: 0 <= i < |a| ==> all[i] == a[i]);
    assert (forall i :: 0 <= i < |b| ==> all[|a| + i] == b[i]);
  }

  // ---- the walks that fill an out vector -----------------------------------------------------

  class OutIds {
    var ids: seq<nat>

    constructor ()
      ensures ids == []
    {
      ids := [];
    }

    method Collect(t: Layout)
      modifies this
      ensures ids == old(ids) + Sessions(t)
      decreases t
    {
      match t {
        case Empty => assert ids + [] == ids;
        case Leaf(p) => ids := ids + [p.session];
        case Split(_, _, a, b) =>
          Collect(a);
          Collect(b);
          IdsAppend(Panes(a), Panes(b));
      }
    }
  }

  class OutRects {
    var placed: seq<Placed>

    constructor ()
      ensures placed == []
    {
      placed := [];
    }

    method LeafRects(t: Layout, area: Rect)
      requires RatiosUnit(t)
      modifies this
      ensures placed == old(placed) + Rects(t, area)
      decreases t
    {
      match t {
        case Empty => assert placed + [] == placed;
        case Leaf(p) => placed := placed + [Placed(p.session, area)];
        case Split(s, r, a, b) =>
          var (ra, rb) := Sides(area, s, r);
          LeafRects(a, ra);
          LeafRects(b, rb);
      }
    }
  }
}
