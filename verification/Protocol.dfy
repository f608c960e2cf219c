/** What every interleaving of host, daemon and disconnection keeps, and what the owner of the
    mux may rely on: each session's events are output and then at most one Exit, and every
    session born before the connection ends and not closed by the owner gets exactly one. */
module Protocol {
  import opened Cells
  import opened Text
  import opened Wire
  import opened ProtocolModel
  import D = DaemonModel

  // ---- counting the OPEN requests of an id that have not reached the daemon -----------------

  function Asks(f: Frame, id: nat): nat { if f.ty == T_OPEN && f.id == id then 1 else 0 }

  function AsksTask(t: Task, id: nat): nat {
    match t
    case Inserting(f) => Asks(f, id)
    case Checking(f) => Asks(f, id)
    case Writing(f) => Asks(f, id)
    case Removing(_) => 0
    case Idle => 0
  }

  function InTasks(ts: seq<Task>, id: nat): nat {
    if ts == [] then 0 else InTasks(ts[..|ts| - 1], id) + AsksTask(ts[|ts| - 1], id)
  }

  function InFrames(fs: seq<Frame>, id: nat): nat {
    if fs == [] then 0 else Asks(fs[0], id) + InFrames(fs[1..], id)
  }

  lemma {:induction false} TaskAdded(ts: seq<Task>, t: Task, id: nat)
    ensures InTasks(ts + [t], id) == InTasks(ts, id) + AsksTask(t, id)
  {
    assert (ts + [t])[..|ts|] == ts;
  }

  lemma {:induction false} TaskChanged(ts: seq<Task>, i: nat, t: Task, id: nat)
    requires i < |ts|
    ensures InTasks(ts[i := t], id) == InTasks(ts, id) - AsksTask(ts[i], id) + AsksTask(t, id)
    ensures InTasks(ts, id) >= AsksTask(ts[i], id)
  {
    hide AsksTask;
    var n := |ts| - 1;
    var us := ts[i := t];
    if i == n {
      assert us[..n] == ts[..n];
    } else {
      TaskChanged(ts[..n], i, t, id);
      assert us[..n] == ts[..n][i := t];
    }
  }

  lemma {:induction false} FrameAdded(fs: seq<Frame>, f: Frame, id: nat)
    ensures InFrames(fs + [f], id) == InFrames(fs, id) + Asks(f, id)
  {
    if fs != [] {
      FrameAdded(fs[1..], f, id);
      assert (fs + [f])[1..] == fs[1..] + [f];
    } else {
      assert fs + [f] == [f] && [f][1..] == [];
    }
  }

  /** OPEN requests for an id on their way: in a call in progress, or written and not handled. */
  function Waiting(h: Host, handled: nat, id: nat): nat
    requires handled <= |h.written|
  {
    InTasks(h.tasks, id) + InFrames(h.written[handled..], id)
  }

  // ---- the invariant ---------------------------------------------------------------------------

  predicate Mentions(f: Frame, id: nat) { (f.ty == T_DATA || f.ty == T_EXIT) && f.id == id }

  /** The daemon has nothing to do with this id yet. */
  ghost predicate Unheard(d: D.Daemon, id: nat) {
    id !in D.Live(d.tab) && forall i :: 0 <= i < |d.io.sent| ==> !Mentions(d.io.sent[i], id)
  }

  /** Each id is asked for at most once, and not after the daemon has heard of it. */
  ghost predicate AskedOnce(s: Sys)
    requires Sane(s)
  {
    forall id: nat ::
      && Waiting(s.h, s.handled, id) <= 1
      && (Waiting(s.h, s.handled, id) == 1 || id == 0 || id > s.h.next ==> Unheard(s.d, id))
      && (id == 0 || id > s.h.next ==> Waiting(s.h, s.handled, id) == 0)
  }

  predicate OneLifeFrames(fs: seq<Frame>) {
    forall i, j :: 0 <= i < j < |fs| && fs[i].ty == T_EXIT ==> !Mentions(fs[j], fs[i].id)
  }

  /** The daemon sends nothing about a session after its EXIT, and no such session is live. */
  ghost predicate Lives(d: D.Daemon) {
    && OneLifeFrames(d.io.sent)
    && forall i :: 0 <= i < |d.io.sent| && d.io.sent[i].ty == T_EXIT ==> d.io.sent[i].id !in D.Live(d.tab)
  }

  function Undrained(r: Reader): seq<nat> { if r.Draining? then r.left else [] }

  function InHand(r: Reader): seq<Event> { if r.Delivering? then [r.e] else [] }

  function Lost(ids: seq<nat>): (es: seq<Event>)
    ensures |es| == |ids| && forall i :: 0 <= i < |ids| ==> es[i] == Exit(ids[i], -1)
  {
    seq(|ids|, i requires 0 <= i < |ids| => Exit(ids[i], -1))
  }

  /** The owner has received exactly the daemon's messages in order, then the drain's. */
  predicate Faithful(h: Host, sent: seq<Frame>)
    requires h.taken <= |sent|
  {
    && h.events + InHand(h.reader) == ToldAll(sent[..h.taken]) + Lost(h.lost)
    && (h.lost != [] ==> h.reader.Draining? || h.reader.Done?)
  }

  predicate Ended(fs: seq<Frame>, n: nat, id: nat)
    requires n <= |fs|
  {
    exists i :: 0 <= i < n && fs[i].ty == T_EXIT && fs[i].id == id
  }

  /** A session whose EXIT has been read is neither in `live` nor in the drain; the drain names
      each session once. */
  predicate Removed(h: Host, sent: seq<Frame>)
    requires h.taken <= |sent|
  {
    && NoRepeats(h.lost + Undrained(h.reader))
    && forall i :: 0 <= i < h.taken && sent[i].ty == T_EXIT ==>
         sent[i].id !in h.live && sent[i].id !in h.lost && sent[i].id !in Undrained(h.reader)
  }

  /** An early session that the owner has not closed is still in `live` (before the drain), or
      its EXIT was read, or the drain has it. */
  predicate Accounted(h: Host, sent: seq<Frame>)
    requires h.taken <= |sent|
  {
    forall id :: id in h.early && id !in h.closing ==>
      || (Before(h.reader) && id in h.live)
      || Ended(sent, h.taken, id)
      || id in h.lost || id in Undrained(h.reader)
  }

  predicate ClosesAsked(h: Host) {
    forall i :: 0 <= i < |h.tasks| ==>
      match h.tasks[i]
      case Removing(id) => id in h.closing
      case Checking(f) => f.ty == T_CLOSE ==> f.id in h.closing
      case Writing(f) => f.ty == T_CLOSE ==> f.id in h.closing
      case _ => true
  }

  /** The host's side, given the frames the daemon has sent. */
  ghost predicate HostInv(h: Host, sent: seq<Frame>) {
    h.taken <= |sent| && Faithful(h, sent) && Removed(h, sent) && Accounted(h, sent) && ClosesAsked(h)
  }

  ghost predicate Inv(s: Sys) {
    Sane(s) && AskedOnce(s) && Lives(s.d) && HostInv(s.h, s.d.io.sent)
  }

  // ---- what one step of the daemon does -------------------------------------------------------

  /** One frame about a session: output, its end, or its refusal. */
  predicate Says(live: set<nat>, after: set<nat>, f: Frame, born: seq<nat>) {
    || (f.ty == T_EXIT && f.id in live && after == live - {f.id})
    || (f.ty == T_DATA && f.id in live && after == live)
    || (f.ty == T_EXIT && born == [f.id] && f.id !in live && after == live)
  }

  /** The daemon either sends one message about a live session, perhaps its last, or opens or
      refuses a session, or does nothing the host can see. */
  ghost predicate Turn(d: D.Daemon, r: D.Daemon, born: seq<nat>) {
    var live, after := D.Live(d.tab), D.Live(r.tab);
    || (r.io.sent == d.io.sent && after == live)
    || (|born| == 1 && born[0] !in live && r.io.sent == d.io.sent && after == live + {born[0]})
    || (|r.io.sent| == |d.io.sent| + 1 && r.io.sent == d.io.sent + [r.io.sent[|d.io.sent|]]
        && Says(live, after, r.io.sent[|d.io.sent|], born))
  }

  lemma HandleTurn(k: D.Kernel, d: D.Daemon, f: Frame)
    requires D.Ok(d) && FrameOk(f)
    ensures Turn(d, D.Dispatch(k, d, f), if f.ty == T_OPEN then [f.id] else [])
  {
    hide D.Dispatch, D.Ok, ReadOpen;
    if f.ty == T_OPEN {
      D.OpenOpens(k, d, f);
    } else {
      D.OthersClose(k, d, f);
    }
  }

  lemma EndTurn(k: D.Kernel, d: D.Daemon, i: nat, killIt: bool)
    requires D.Ok(d) && i < |d.tab| && d.tab[i].active
    ensures Turn(d, D.EndSess(k, d, i, killIt), [])
  {
    D.EndSessEnds(k, d, i, killIt);
    hide D.EndSess, D.Ok;
    assert d.tab[i].id in D.Live(d.tab);
  }

  lemma ForwardTurn(k: D.Kernel, d: D.Daemon, i: nat, m: D.Master)
    requires D.Ok(d) && i < |d.tab| && d.tab[i].active && D.ChunkOk(m)
    ensures Turn(d, D.Forward(k, d, i, m), [])
  {
    hide D.EndSess;
    assert d.tab[i].id in D.Live(d.tab);
    if m.Ended? {
      EndTurn(k, d, i, false);
    } else if m.Output? {
      var f := Frame(d.tab[i].id, T_DATA, m.bytes);
      assert D.Forward(k, d, i, m).io.sent == d.io.sent + [f];
    }
  }

  /** A turn keeps the daemon's side of the invariant, if what it opens was unheard of. */
  lemma TurnLives(d: D.Daemon, r: D.Daemon, born: seq<nat>)
    requires Lives(d) && Turn(d, r, born) && (forall i :: 0 <= i < |born| ==> Unheard(d, born[i]))
    ensures Lives(r) && d.io.sent <= r.io.sent
    ensures forall id :: Unheard(d, id) && id !in born ==> Unheard(r, id)
  {
    hide D.Live;
    var sent := d.io.sent;
    assert forall i :: 0 <= i < |sent| ==> r.io.sent[i] == sent[i];
    if |r.io.sent| > |sent| {
      var f := r.io.sent[|sent|];
      assert Says(D.Live(d.tab), D.Live(r.tab), f, born);
      assert f.id in D.Live(d.tab) || f.id == born[0];
    }
  }

  // ---- each kind of step keeps the invariant --------------------------------------------------

  /** The host's side does not look past the frames it has read. */
  lemma SentMayGrow(h: Host, sent: seq<Frame>, more: seq<Frame>)
    requires HostInv(h, sent) && sent <= more
    ensures HostInv(h, more)
  {
    hide ToldAll;
    assert more[..h.taken] == sent[..h.taken];
    forall id | Ended(sent, h.taken, id) ensures Ended(more, h.taken, id) {
      var i :| 0 <= i < h.taken && sent[i].ty == T_EXIT && sent[i].id == id;
      assert more[i] == sent[i];
    }
  }

  lemma HandleAsked(s: Sys, r: D.Daemon)
    requires Sane(s) && AskedOnce(s) && Lives(s.d) && s.handled < |s.h.written|
    requires var f := s.h.written[s.handled]; Turn(s.d, r, if f.ty == T_OPEN then [f.id] else [])
    requires Sane(Sys(s.h, r, s.handled + 1, s.gone))
    ensures AskedOnce(Sys(s.h, r, s.handled + 1, s.gone)) && Lives(r) && s.d.io.sent <= r.io.sent
  {
    hide Turn, Lives, FrameOk, TaskOk, D.Ok, InTasks;
    var f := s.h.written[s.handled];
    var born := if f.ty == T_OPEN then [f.id] else [];
    var ws := s.h.written[s.handled..];
    assert ws[1..] == s.h.written[s.handled + 1..];
    assert (forall id: nat :: Waiting(s.h, s.handled, id) == Asks(f, id) + Waiting(s.h, s.handled + 1, id));
    if f.ty == T_OPEN {
      assert Asks(f, f.id) == 1 && Waiting(s.h, s.handled, f.id) == 1;
      assert Unheard(s.d, f.id);
    }
    hide Unheard;
    TurnLives(s.d, r, born);
    var t := Sys(s.h, r, s.handled + 1, s.gone);
    forall id: nat
      ensures Waiting(t.h, t.handled, id) <= 1
      ensures Waiting(t.h, t.handled, id) == 1 || id == 0 || id > t.h.next ==> Unheard(t.d, id)
      ensures id == 0 || id > t.h.next ==> Waiting(t.h, t.handled, id) == 0
    {
      assert Waiting(s.h, s.handled, id) == Asks(f, id) + Waiting(s.h, s.handled + 1, id);
      assert t.handled == s.handled + 1 && t.h == s.h;
    }
  }

  lemma DaemonAsked(s: Sys, r: D.Daemon)
    requires Sane(s) && AskedOnce(s) && Lives(s.d) && Turn(s.d, r, []) && Sane(s.(d := r))
    ensures AskedOnce(s.(d := r)) && Lives(r) && s.d.io.sent <= r.io.sent
  {
    hide Turn, Lives, FrameOk, TaskOk, D.Ok, Waiting, Unheard;
    TurnLives(s.d, r, []);
  }

  lemma HandleKeeps(k: D.Kernel, s: Sys)
    requires Inv(s) && Enabled(s, Handle) && Sane(Next(k, s, Handle))
    ensures Inv(Next(k, s, Handle))
  {
    hide AskedOnce, FrameOk, TaskOk, D.Ok, Lives, HostInv, D.Dispatch, Turn;
    var f, r := s.h.written[s.handled], Next(k, s, Handle);
    HandleTurn(k, s.d, f);
    HandleAsked(s, r.d);
    SentMayGrow(s.h, s.d.io.sent, r.d.io.sent);
  }

  lemma TurnKeeps(s: Sys, r: D.Daemon)
    requires Inv(s) && Turn(s.d, r, []) && Sane(s.(d := r))
    ensures Inv(s.(d := r))
  {
    hide AskedOnce, Sane, Lives, HostInv, Turn;
    DaemonAsked(s, r);
    SentMayGrow(s.h, s.d.io.sent, r.io.sent);
  }

  lemma DaemonSteps(k: D.Kernel, s: Sys, step: Step)
    requires Inv(s) && Enabled(s, step) && (step.Handle? || step.Forward? || step.Abandon? || step.Disconnect?)
    ensures Inv(Next(k, s, step))
  {
    SaneNext(k, s, step);
    hide AskedOnce, FrameOk, TaskOk, D.Ok, Lives, HostInv, D.Dispatch, D.Forward, D.EndSess, Turn;
    match step {
      case Handle => HandleKeeps(k, s);
      case Forward(i, m) => ForwardTurn(k, s.d, i, m); TurnKeeps(s, D.Forward(k, s.d, i, m));
      case Abandon(i) => EndTurn(k, s.d, i, true); TurnKeeps(s, D.EndSess(k, s.d, i, true));
      case Disconnect =>
    }
  }

  function NewRequest(was: Host, h: Host, id: nat): nat { if id == h.next && h.next > was.next then 1 else 0 }

  /** A host step that adds no request, or one for the next id, leaves requests unique. */
  lemma HostAsked(s: Sys, h: Host)
    requires Sane(s) && AskedOnce(s) && Sane(s.(h := h)) && h.next >= s.h.next
    requires (forall id: nat :: Waiting(h, s.handled, id) <= Waiting(s.h, s.handled, id) + NewRequest(s.h, h, id))
    ensures AskedOnce(s.(h := h))
  {
    hide Waiting, Unheard, FrameOk, TaskOk, D.Ok;
  }

  lemma OpenKeeps(s: Sys, cols: nat, rows: nat, cwd: Bytes)
    requires Sane(s) && AskedOnce(s) && Enabled(s, Step.Open(cols, rows, cwd))
    requires Sane(s.(h := OpenCall(s.h, cols, rows, cwd)))
    ensures AskedOnce(s.(h := OpenCall(s.h, cols, rows, cwd)))
  {
    hide FrameOk, TaskOk, D.Ok, InTasks, InFrames, OpenPayload;
    var h := OpenCall(s.h, cols, rows, cwd);
    var t := h.tasks[|s.h.tasks|];
    forall id: nat ensures Waiting(h, s.handled, id) == Waiting(s.h, s.handled, id) + AsksTask(t, id) {
      TaskAdded(s.h.tasks, t, id);
    }
    hide Waiting;
    HostAsked(s, h);
  }

  lemma CallKeeps(s: Sys, f: Frame)
    requires Sane(s) && AskedOnce(s) && CallOk(f) && Sane(s.(h := PlainCall(s.h, f)))
    ensures AskedOnce(s.(h := PlainCall(s.h, f)))
  {
    hide FrameOk, TaskOk, D.Ok, InTasks, InFrames;
    var h := PlainCall(s.h, f);
    forall id: nat ensures Waiting(h, s.handled, id) == Waiting(s.h, s.handled, id) {
      TaskAdded(s.h.tasks, Checking(f), id);
    }
    hide Waiting;
    HostAsked(s, h);
  }

  lemma AdvanceAsked(s: Sys, i: nat, ok: bool)
    requires Sane(s) && AskedOnce(s) && i < |s.h.tasks| && Sane(s.(h := AdvanceTask(s.h, i, ok)))
    ensures AskedOnce(s.(h := AdvanceTask(s.h, i, ok)))
  {
    hide FrameOk, TaskOk, D.Ok, InTasks, InFrames, AskedOnce;
    var h := AdvanceTask(s.h, i, ok);
    forall id: nat ensures Waiting(h, s.handled, id) <= Waiting(s.h, s.handled, id) {
      TaskChanged(s.h.tasks, i, h.tasks[i], id);
      if h.written != s.h.written {
        var f := s.h.tasks[i].f;
        FrameAdded(s.h.written[s.handled..], f, id);
        assert h.written[s.handled..] == s.h.written[s.handled..] + [f];
      }
    }
    hide Waiting;
    HostAsked(s, h);
  }

  lemma QuietAsked(s: Sys, h: Host)
    requires Sane(s) && AskedOnce(s) && Sane(s.(h := h))
    requires h.next == s.h.next && h.tasks == s.h.tasks && h.written == s.h.written
    ensures AskedOnce(s.(h := h))
  {
    hide FrameOk, TaskOk, D.Ok, InTasks, InFrames;
    assert (forall id: nat :: Waiting(h, s.handled, id) == Waiting(s.h, s.handled, id));
    hide Waiting;
    HostAsked(s, h);
  }

  /** An id about to be put in `live` has had no EXIT. */
  lemma InsertingUnheard(s: Sys, i: nat)
    requires Sane(s) && AskedOnce(s) && i < |s.h.tasks| && s.h.tasks[i].Inserting?
    ensures s.h.tasks[i].f.ty == T_OPEN
    ensures !Ended(s.d.io.sent, |s.d.io.sent|, s.h.tasks[i].f.id)
  {
    hide InFrames;
    var f := s.h.tasks[i].f;
    assert f.ty == T_OPEN;
    TaskChanged(s.h.tasks, i, Idle, f.id);
    assert Waiting(s.h, s.handled, f.id) == 1;
    assert (forall j :: 0 <= j < |s.d.io.sent| ==> !Mentions(s.d.io.sent[j], f.id));
  }

  lemma CallsHost(h: Host, sent: seq<Frame>, step: Step)
    requires HostInv(h, sent) && (step.Open? || step.Call?)
    requires step.Open? ==> step.cols < TWO16 && step.rows < TWO16 && |step.cwd| + 12 + HEADER < TWO32
    ensures HostInv(HostStep(h, sent, step), sent)
  {
    hide ToldAll, Ended, OpenPayload;
  }

  lemma AdvanceHost(h: Host, sent: seq<Frame>, i: nat, ok: bool)
    requires HostInv(h, sent) && i < |h.tasks|
    requires h.tasks[i].Inserting? ==> h.tasks[i].f.ty == T_OPEN && !Ended(sent, |sent|, h.tasks[i].f.id)
    ensures HostInv(AdvanceTask(h, i, ok), sent)
  {
    hide ToldAll;
    var t := h.tasks[i];
    assert t.Removing? ==> t.id in h.closing;
    assert t.Checking? && t.f.ty == T_CLOSE ==> t.f.id in h.closing;
    assert t.Writing? && t.f.ty == T_CLOSE ==> t.f.id in h.closing;
  }

  lemma ReceiveTold(h: Host, sent: seq<Frame>)
    requires h.taken < |sent| && Faithful(h, sent) && h.reader == Reading
    ensures Faithful(ReceiveFrame(h, sent[h.taken]), sent)
  {
    hide Told;
    var n := h.taken;
    assert sent[..n + 1][..n] == sent[..n];
    assert ToldAll(sent[..n + 1]) == ToldAll(sent[..n]) + Told(sent[n]);
    hide ToldAll;
    assert Lost([]) == [] && h.lost == [];
    assert h.events + [] == h.events && ToldAll(sent[..n]) + [] == ToldAll(sent[..n]);
    assert ToldAll(sent[..n + 1]) + [] == ToldAll(sent[..n + 1]);
  }

  lemma ReceiveAccounted(h: Host, sent: seq<Frame>)
    requires h.taken < |sent| && h.lost == [] && Accounted(h, sent) && h.reader == Reading
    ensures Accounted(ReceiveFrame(h, sent[h.taken]), sent)
  {
    hide Told;
    var n := h.taken;
    forall id | Ended(sent, n, id) ensures Ended(sent, n + 1, id) {
      var i :| 0 <= i < n && sent[i].ty == T_EXIT && sent[i].id == id;
    }
    if sent[n].ty == T_EXIT { assert Ended(sent, n + 1, sent[n].id); }
    hide Ended;
  }

  lemma ReceiveRemoved(h: Host, sent: seq<Frame>)
    requires h.taken < |sent| && h.lost == [] && Removed(h, sent) && h.reader == Reading
    ensures Removed(ReceiveFrame(h, sent[h.taken]), sent)
  {
    hide Told;
  }

  lemma ReceiveHost(h: Host, sent: seq<Frame>)
    requires HostInv(h, sent) && h.reader == Reading && h.taken < |sent|
    ensures HostInv(ReceiveFrame(h, sent[h.taken]), sent)
  {
    LostLate(h, sent);
    hide Told, Faithful, Removed, Accounted;
    ReceiveTold(h, sent);
    ReceiveRemoved(h, sent);
    ReceiveAccounted(h, sent);
  }

  lemma LostLate(h: Host, sent: seq<Frame>)
    requires h.taken <= |sent| && Faithful(h, sent)
    ensures Before(h.reader) ==> h.lost == []
  {
  }

  lemma DeliverHost(h: Host, sent: seq<Frame>)
    requires HostInv(h, sent) && h.reader.Delivering?
    ensures HostInv(h.(reader := Reading, events := h.events + [h.reader.e]), sent)
  {
    hide ToldAll, Ended;
    var e := h.events + [h.reader.e];
    assert e + [] == e;
  }

  lemma DrainHost(h: Host, sent: seq<Frame>, order: seq<nat>)
    requires HostInv(h, sent) && h.reader == Stopped && NoRepeats(order)
    requires (set i | 0 <= i < |order| :: order[i]) == h.live
    ensures HostInv(h.(reader := Draining(order), live := {}), sent)
  {
    hide ToldAll, Ended, NoRepeats;
    forall id ensures id in h.live <==> id in order {
      assert id in h.live <==> id in (set i | 0 <= i < |order| :: order[i]);
    }
    LostLate(h, sent);
    assert [] + order == order;
  }

  lemma DrainTold(h: Host, sent: seq<Frame>)
    requires h.taken <= |sent| && Faithful(h, sent) && h.reader.Draining?
    ensures Faithful(DrainNext(h, h.reader.left), sent)
  {
    hide ToldAll;
    var left := h.reader.left;
    var told := ToldAll(sent[..h.taken]);
    assert h.events + [] == h.events;
    if left != [] {
      var h' := DrainNext(h, left);
      assert Lost(h.lost + [left[0]]) == Lost(h.lost) + [Exit(left[0], -1)];
      assert told + (Lost(h.lost) + [Exit(left[0], -1)]) == told + Lost(h.lost) + [Exit(left[0], -1)];
      assert h'.events + [] == h'.events;
    }
  }

  lemma DrainOneHost(h: Host, sent: seq<Frame>)
    requires HostInv(h, sent) && h.reader.Draining?
    ensures HostInv(DrainNext(h, h.reader.left), sent)
  {
    DrainTold(h, sent);
    hide Faithful, Ended;
    var left := h.reader.left;
    if left == [] {
      assert h.lost + [] == h.lost;
    } else {
      assert h.lost + [left[0]] + left[1..] == h.lost + left;
      assert forall id :: id in left ==> id == left[0] || id in left[1..];
    }
  }

  lemma StopHost(h: Host, sent: seq<Frame>)
    requires HostInv(h, sent)
    ensures HostInv(h.(dead := true), sent)
    ensures h.reader == Reading ==> HostInv(h.(reader := Stopped, dead := true), sent)
  {
    hide ToldAll, Ended;
  }

  /** Every step keeps the invariant. */
  lemma StepKeeps(k: D.Kernel, s: Sys, step: Step)
    requires Inv(s) && Enabled(s, step)
    ensures Inv(Next(k, s, step))
  {
    SaneNext(k, s, step);
    var sent, r := s.d.io.sent, Next(k, s, step);
    hide AskedOnce, Lives, HostInv, FrameOk, TaskOk, D.Ok, OpenPayload, D.Dispatch, D.EndSess, D.Forward;
    match step {
      case Open(cols, rows, cwd) => OpenKeeps(s, cols, rows, cwd); CallsHost(s.h, sent, step);
      case Call(f) => CallKeeps(s, f); CallsHost(s.h, sent, step);
      case Advance(i, ok) =>
        AdvanceAsked(s, i, ok);
        if s.h.tasks[i].Inserting? { InsertingUnheard(s, i); }
        AdvanceHost(s.h, sent, i, ok);
      case Receive => QuietAsked(s, r.h); ReceiveHost(s.h, sent);
      case Deliver => QuietAsked(s, r.h); DeliverHost(s.h, sent);
      case Drain(order) => QuietAsked(s, r.h); DrainHost(s.h, sent, order);
      case DrainOne => QuietAsked(s, r.h); DrainOneHost(s.h, sent);
      case Drop => QuietAsked(s, r.h); StopHost(s.h, sent);
      case Stop => QuietAsked(s, r.h); StopHost(s.h, sent);
      case _ => DaemonSteps(k, s, step);
    }
  }

  // ---- runs ---------------------------------------------------------------------------------

  lemma StartEmpty(name: Bytes)
    requires |name| <= MAX_NAME
    ensures D.Live(Start(name).d.tab) == {}
  {
    hide ReadOpen;
  }

  lemma StartHost(name: Bytes)
    requires |name| <= MAX_NAME
    ensures HostInv(Start(name).h, Start(name).d.io.sent)
  {
    hide D.Live, D.Ok, Sane;
    assert Start(name).d.io.sent[..0] == [];
  }

  lemma StartUnheard(name: Bytes, id: nat)
    requires |name| <= MAX_NAME
    ensures Unheard(Start(name).d, id) && Lives(Start(name).d)
  {
    StartEmpty(name);
    hide D.Live, D.Ok, Sane, ReadOpen;
  }

  lemma StartAsked(name: Bytes)
    requires |name| <= MAX_NAME
    ensures AskedOnce(Start(name))
  {
    forall id: nat ensures Unheard(Start(name).d, id) { StartUnheard(name, id); }
    hide Unheard, D.Ok, FrameOk, TaskOk;
  }

  lemma StartInv(name: Bytes)
    requires |name| <= MAX_NAME
    ensures Inv(Start(name))
  {
    hide HostInv, Lives, AskedOnce, Sane, Unheard, Start;
    StartAsked(name);
    StartUnheard(name, 0);
    StartHost(name);
  }

  lemma {:induction false} RunKeeps(k: D.Kernel, s: Sys, steps: seq<Step>)
    requires Inv(s) && CanRun(k, s, steps)
    ensures Inv(Run(k, s, steps))
    decreases |steps|
  {
    hide AskedOnce, Lives, HostInv, Next, Enabled, D.Ok, FrameOk, TaskOk;
    if steps != [] {
      StepKeeps(k, s, steps[0]);
      RunKeeps(k, Next(k, s, steps[0]), steps[1..]);
    }
  }

  // ---- what the owner sees --------------------------------------------------------------------

  predicate About(e: Event, id: nat) { !e.Info? && e.id == id }

  /** Nothing follows a session's Exit. */
  predicate OneLife(es: seq<Event>) {
    forall i, j :: 0 <= i < j < |es| && es[i].Exit? ==> !About(es[j], es[i].id)
  }

  predicate Exited(es: seq<Event>, id: nat) {
    exists i :: 0 <= i < |es| && es[i].Exit? && es[i].id == id
  }

  /** The owner's events keep the daemon's order and ends. */
  lemma {:induction false} ToldLives(fs: seq<Frame>)
    requires OneLifeFrames(fs)
    ensures OneLife(ToldAll(fs))
    ensures forall id :: Ended(fs, |fs|, id) <==> Exited(ToldAll(fs), id)
  {
    if fs != [] {
      var n := |fs| - 1;
      var f, told := fs[n], ToldAll(fs[..n]);
      ToldLives(fs[..n]);
      ToldLast(fs);
    }
  }

  lemma ToldLast(fs: seq<Frame>)
    requires fs != [] && OneLifeFrames(fs)
    requires var init := fs[..|fs| - 1];
             OneLife(ToldAll(init)) && forall id :: Ended(init, |init|, id) <==> Exited(ToldAll(init), id)
    ensures OneLife(ToldAll(fs))
    ensures forall id :: Ended(fs, |fs|, id) <==> Exited(ToldAll(fs), id)
  {
    hide Rd32, Lossy, Encode;
    var n := |fs| - 1;
    var f, init := fs[n], fs[..n];
    var told, all := ToldAll(init), ToldAll(fs);
    assert all == told + Told(f);
    assert (forall j :: 0 <= j < n ==> fs[j] == init[j]);
    forall i | 0 <= i < |told| && told[i].Exit? ensures !Mentions(f, told[i].id) {
      assert Exited(told, told[i].id);
      var j :| 0 <= j < n && init[j].ty == T_EXIT && init[j].id == told[i].id;
    }
    forall id ensures Ended(fs, |fs|, id) <==> Ended(init, n, id) || (f.ty == T_EXIT && f.id == id) {
      if j :| 0 <= j < n && init[j].ty == T_EXIT && init[j].id == id {
        assert fs[j].ty == T_EXIT;
      }
    }
    forall id ensures Exited(all, id) <==> Exited(told, id) || (f.ty == T_EXIT && f.id == id) {
      assert (forall i :: 0 <= i < |told| ==> all[i] == told[i]);
      if f.ty == T_EXIT { assert all[|told|] == Told(f)[0]; }
    }
  }

  lemma {:induction false} ToldFrom(fs: seq<Frame>, i: nat)
    requires i < |ToldAll(fs)|
    ensures exists j :: 0 <= j < |fs| && Told(fs[j]) == [ToldAll(fs)[i]]
  {
    hide Told;
    var n := |fs| - 1;
    var init := fs[..n];
    if i < |ToldAll(init)| {
      ToldFrom(init, i);
      var j :| 0 <= j < |init| && Told(init[j]) == [ToldAll(init)[i]];
      assert fs[j] == init[j];
    } else {
      assert Told(fs[n]) == [ToldAll(fs)[i]];
    }
  }

  /** The whole of what a state has told or is about to tell. */
  lemma AllEvents(s: Sys)
    requires Inv(s)
    ensures var told := ToldAll(s.d.io.sent[..s.h.taken]);
            var all := s.h.events + InHand(s.h.reader);
            && all == told + Lost(s.h.lost) && OneLife(all)
            && (forall id :: Exited(all, id) <==> Ended(s.d.io.sent, s.h.taken, id) || id in s.h.lost)
  {
    var sent, lost := s.d.io.sent, s.h.lost;
    var read := sent[..s.h.taken];
    ToldLives(read);
    hide ToldAll, AskedOnce, Sane, Accounted, ClosesAsked, Exited, InHand;
    forall id ensures Ended(read, |read|, id) <==> Ended(sent, s.h.taken, id) {
      SameEnds(sent, s.h.taken, id);
    }
    assert (forall i :: 0 <= i < |lost| ==> (lost + Undrained(s.h.reader))[i] == lost[i]);
    TwoParts(ToldAll(read), lost);
  }

  lemma SameEnds(fs: seq<Frame>, n: nat, id: nat)
    requires n <= |fs|
    ensures Ended(fs[..n], n, id) <==> Ended(fs, n, id)
  {
    assert (forall i :: 0 <= i < n ==> fs[..n][i] == fs[i]);
  }

  lemma TwoParts(told: seq<Event>, lost: seq<nat>)
    requires OneLife(told) && NoRepeats(lost) && (forall id :: id in lost ==> !Exited(told, id))
    ensures OneLife(told + Lost(lost))
    ensures forall id :: Exited(told + Lost(lost), id) <==> Exited(told, id) || id in lost
  {
    var all := told + Lost(lost);
    assert (forall i :: 0 <= i < |told| ==> all[i] == told[i]);
    assert (forall i :: 0 <= i < |lost| ==> all[|told| + i] == Exit(lost[i], -1));
    forall i | 0 <= i < |told| && told[i].Exit? ensures Exited(told, told[i].id) && told[i].id !in lost {
    }
    forall id | id in lost ensures Exited(all, id) {
      var i :| 0 <= i < |lost| && lost[i] == id;
      assert all[|told| + i].Exit?;
    }
    forall i | |told| <= i < |all| ensures all[i] == Exit(lost[i - |told|], -1) {
    }
  }

  /** Safety, over every run: among the events the owner has received, nothing about a session
      follows its Exit; in particular there is at most one. */
  lemma AtMostOneExit(k: D.Kernel, name: Bytes, steps: seq<Step>)
    requires |name| <= MAX_NAME && CanRun(k, Start(name), steps)
    ensures OneLife(Run(k, Start(name), steps).h.events)
  {
    StartInv(name);
    RunKeeps(k, Start(name), steps);
    var s := Run(k, Start(name), steps);
    AllEvents(s);
    var all := s.h.events + InHand(s.h.reader);
    assert (forall i :: 0 <= i < |s.h.events| ==> all[i] == s.h.events[i]);
  }

  // ---- sessions opened too late -----------------------------------------------------------------

  predicate AsksEarly(h: Host, t: Task) {
    match t
    case Checking(f) => f.ty == T_OPEN ==> f.id in h.early
    case Writing(f) => f.ty == T_OPEN ==> f.id in h.early
    case _ => true
  }

  /** Until the drain, whatever the daemon knows or may come to know is early. */
  ghost predicate AllEarly(s: Sys) {
    && (forall i :: 0 <= i < |s.h.tasks| ==> AsksEarly(s.h, s.h.tasks[i]))
    && (forall i :: 0 <= i < |s.h.written| && s.h.written[i].ty == T_OPEN ==> s.h.written[i].id in s.h.early)
    && (forall i :: 0 <= i < |s.d.io.sent| && Mentions(s.d.io.sent[i], s.d.io.sent[i].id) ==>
         s.d.io.sent[i].id in s.h.early)
    && D.Live(s.d.tab) <= s.h.early && s.h.live <= s.h.early
  }

  /** Whatever the owner has been told about is early. */
  predicate ToldEarly(h: Host, sent: seq<Frame>)
    requires h.taken <= |sent|
  {
    && (forall i :: 0 <= i < h.taken && Mentions(sent[i], sent[i].id) ==> sent[i].id in h.early)
    && (forall i :: 0 <= i < |h.lost| ==> h.lost[i] in h.early)
    && (forall i :: 0 <= i < |Undrained(h.reader)| ==> Undrained(h.reader)[i] in h.early)
  }

  ghost predicate Early(s: Sys) {
    s.h.taken <= |s.d.io.sent| && (Before(s.h.reader) ==> AllEarly(s)) && ToldEarly(s.h, s.d.io.sent)
  }

  lemma TurnEarly(s: Sys, r: Sys, born: seq<nat>)
    requires Sane(s) && Sane(r) && Early(s) && Turn(s.d, r.d, born) && r.h == s.h && s.d.io.sent <= r.d.io.sent
    requires Before(s.h.reader) ==> forall i :: 0 <= i < |born| ==> born[i] in s.h.early
    ensures Early(r)
  {
    hide FrameOk, TaskOk, D.Ok, D.Live;
    var sent := s.d.io.sent;
    assert (forall i :: 0 <= i < |sent| ==> r.d.io.sent[i] == sent[i]);
    if |r.d.io.sent| > |sent| {
      var f := r.d.io.sent[|sent|];
      assert f.id in D.Live(s.d.tab) || f.id == born[0] || r.d.io.sent == sent;
    }
  }

  lemma DaemonEarly(k: D.Kernel, s: Sys, step: Step)
    requires Inv(s) && Early(s) && Enabled(s, step)
    requires step.Handle? || step.Forward? || step.Abandon? || step.Disconnect?
    ensures Early(Next(k, s, step))
  {
    StepKeeps(k, s, step);
    var r := Next(k, s, step);
    hide AskedOnce, FrameOk, TaskOk, D.Ok, Lives, HostInv, D.Dispatch, D.EndSess;
    match step {
      case Handle =>
        var f := s.h.written[s.handled];
        HandleTurn(k, s.d, f);
        SentGrows(k, s.d, f);
        TurnEarly(s, r, if f.ty == T_OPEN then [f.id] else []);
      case Forward(i, m) => ForwardTurn(k, s.d, i, m); EndGrows(k, s.d, i, false); TurnEarly(s, r, []);
      case Abandon(i) => EndTurn(k, s.d, i, true); EndGrows(k, s.d, i, true); TurnEarly(s, r, []);
      case Disconnect =>
    }
  }

  lemma AdvanceEarly(s: Sys, i: nat, ok: bool)
    requires Sane(s) && Early(s) && i < |s.h.tasks| && Sane(s.(h := AdvanceTask(s.h, i, ok)))
    ensures Early(s.(h := AdvanceTask(s.h, i, ok)))
  {
    hide FrameOk, TaskOk, D.Ok, D.Live;
    var t, h := s.h.tasks[i], AdvanceTask(s.h, i, ok);
    assert Before(s.h.reader) ==> AsksEarly(s.h, t);
    assert s.h.early <= h.early;
    forall j | 0 <= j < |h.tasks| && Before(s.h.reader) ensures AsksEarly(h, h.tasks[j]) {
      assert AsksEarly(s.h, s.h.tasks[j]);
    }
    hide AsksEarly;
  }

  lemma CallEarly(s: Sys, h: Host, t: Task)
    requires Early(s) && h == s.h.(next := h.next, closing := h.closing, tasks := s.h.tasks + [t]) && AsksEarly(h, t)
    ensures Early(s.(h := h))
  {
    hide D.Live, Mentions;
  }

  lemma ReaderEarly(s: Sys, h: Host)
    requires Early(s) && h.tasks == s.h.tasks && h.written == s.h.written && h.early == s.h.early && h.live <= s.h.live
    requires Before(h.reader) ==> Before(s.h.reader)
    requires ToldEarly(s.h, s.d.io.sent) && h.taken <= |s.d.io.sent|
    requires h.taken > s.h.taken ==> h.taken == s.h.taken + 1 && Before(s.h.reader)
    requires forall id :: id in h.lost || id in Undrained(h.reader) ==>
      id in s.h.lost || id in Undrained(s.h.reader) || (Before(s.h.reader) && id in s.h.live)
    ensures Early(s.(h := h))
  {
    hide D.Live, Mentions, Undrained;
    assert (forall i :: 0 <= i < |h.lost| ==> h.lost[i] in h.lost);
    assert (forall i :: 0 <= i < |Undrained(h.reader)| ==> Undrained(h.reader)[i] in Undrained(h.reader));
    forall i | 0 <= i < |h.tasks| && Before(h.reader) ensures AsksEarly(h, h.tasks[i]) {
      assert AsksEarly(s.h, s.h.tasks[i]);
    }
  }

  lemma HostEarly(k: D.Kernel, s: Sys, step: Step)
    requires Sane(s) && Early(s) && Enabled(s, step)
    requires step.Drop? || step.Receive? || step.Deliver? || step.Stop? || step.Drain? || step.DrainOne?
    ensures Early(Next(k, s, step))
  {
    hide FrameOk, TaskOk, D.Ok, D.Live, Told, NoRepeats, Early;
    var r := Next(k, s, step);
    if step.Drain? {
      forall id | id in step.order ensures id in s.h.live {
        assert id in (set j | 0 <= j < |step.order| :: step.order[j]);
      }
    }
    assert ToldEarly(s.h, s.d.io.sent) by { EarlyTold(s); }
    ReaderEarly(s, r.h);
  }

  lemma EarlyTold(s: Sys)
    requires Early(s)
    ensures s.h.taken <= |s.d.io.sent| && ToldEarly(s.h, s.d.io.sent)
  {
  }

  lemma StepEarly(k: D.Kernel, s: Sys, step: Step)
    requires Inv(s) && Early(s) && Enabled(s, step)
    ensures Early(Next(k, s, step))
  {
    SaneNext(k, s, step);
    var r := Next(k, s, step);
    hide AskedOnce, FrameOk, TaskOk, D.Ok, Lives, HostInv, D.Dispatch, D.EndSess, D.Forward, Early, OpenPayload;
    if step.Handle? || step.Forward? || step.Abandon? || step.Disconnect? {
      DaemonEarly(k, s, step);
    } else if step.Advance? {
      AdvanceEarly(s, step.i, step.ok);
    } else if step.Open? {
      CallEarly(s, r.h, r.h.tasks[|s.h.tasks|]);
    } else if step.Call? {
      CallEarly(s, r.h, Checking(step.f));
    } else {
      HostEarly(k, s, step);
    }
  }

  lemma {:induction false} RunEarly(k: D.Kernel, s: Sys, steps: seq<Step>)
    requires Inv(s) && Early(s) && CanRun(k, s, steps)
    ensures Early(Run(k, s, steps))
    decreases |steps|
  {
    hide AskedOnce, Lives, HostInv, Next, Enabled, D.Ok, FrameOk, TaskOk, Early;
    if steps != [] {
      StepKeeps(k, s, steps[0]);
      StepEarly(k, s, steps[0]);
      RunEarly(k, Next(k, s, steps[0]), steps[1..]);
    }
  }

  lemma {:induction false} ToldAbout(fs: seq<Frame>, id: nat)
    requires forall i :: 0 <= i < |fs| ==> !Mentions(fs[i], id)
    ensures forall i :: 0 <= i < |ToldAll(fs)| ==> !About(ToldAll(fs)[i], id)
  {
    if fs != [] {
      ToldAbout(fs[..|fs| - 1], id);
      hide ToldAll, Rd32, Lossy, Encode;
      var last := Told(fs[|fs| - 1]);
      assert (forall i :: 0 <= i < |last| ==> !About(last[i], id));
    }
  }

  /** A finished state: what the owner has received is all it will ever receive. */
  lemma FinalEvents(s: Sys, id: nat)
    requires Inv(s) && Early(s) && s.h.reader == Done
    ensures id in s.h.early && id !in s.h.closing ==> Exited(s.h.events, id)
    ensures id !in s.h.early ==> forall i :: 0 <= i < |s.h.events| ==> !About(s.h.events[i], id)
  {
    AllEvents(s);
    hide AskedOnce, Lives, Sane, Faithful, Removed, ClosesAsked, ToldAll, Exited, Ended, OneLife, AllEarly;
    assert s.h.events + [] == s.h.events;
    if id !in s.h.early {
      var read := s.d.io.sent[..s.h.taken];
      forall i | 0 <= i < |read| ensures !Mentions(read[i], id) {
        assert read[i] == s.d.io.sent[i];
        assert Mentions(read[i], read[i].id) ==> read[i].id in s.h.early;
      }
      ToldAbout(read, id);
    }
  }

  /** Completeness, over every run: once the reader has finished, a session that was in `live`
      before the drain and that the owner has not asked to close has had its Exit (exactly one,
      by the previous lemma); a session opened later has had no event at all. */
  lemma EveryEarlySessionExits(k: D.Kernel, name: Bytes, steps: seq<Step>, id: nat)
    requires |name| <= MAX_NAME && CanRun(k, Start(name), steps) && Run(k, Start(name), steps).h.reader == Done
    ensures var h := Run(k, Start(name), steps).h;
            && (id in h.early && id !in h.closing ==> Exited(h.events, id))
            && (id !in h.early ==> forall i :: 0 <= i < |h.events| ==> !About(h.events[i], id))
  {
    StartInv(name);
    StartEarly(name);
    RunKeeps(k, Start(name), steps);
    RunEarly(k, Start(name), steps);
    FinalEvents(Run(k, Start(name), steps), id);
  }

  /** A run in which the second half speaks of a real session: opened after the drain, it is in
      `live` for good and the owner hears nothing of it. */
  const LATE_OPEN: seq<Step> := [Stop, Drain([]), DrainOne, Step.Open(80, 24, []), Advance(0, true)]

  lemma LateOpenRuns(k: D.Kernel)
    ensures CanRun(k, Start([]), LATE_OPEN)
    ensures var h := Run(k, Start([]), LATE_OPEN).h;
            h.reader == Done && 1 in h.live && 1 !in h.early && 1 !in h.closing && h.events == []
  {
    hide D.Ok, FrameOk, TaskOk, OpenPayload;
    var s0 := Start([]);
    var s1 := Next(k, s0, Stop);
    SaneNext(k, s0, Stop);
    var s2 := Next(k, s1, Drain([]));
    SaneNext(k, s1, Drain([]));
    var s3 := Next(k, s2, DrainOne);
    SaneNext(k, s2, DrainOne);
    var s4 := Next(k, s3, Step.Open(80, 24, []));
    SaneNext(k, s3, Step.Open(80, 24, []));
    var s5 := Next(k, s4, Advance(0, true));
    SaneNext(k, s4, Advance(0, true));
    hide Next, Enabled, Start;
    RunsOn(k, s4, [Advance(0, true)]);
    RunsOn(k, s3, [Step.Open(80, 24, [])] + [Advance(0, true)]);
    RunsOn(k, s2, [DrainOne] + [Step.Open(80, 24, []), Advance(0, true)]);
    RunsOn(k, s1, [Drain([])] + [DrainOne, Step.Open(80, 24, []), Advance(0, true)]);
    RunsOn(k, s0, [Stop] + [Drain([]), DrainOne, Step.Open(80, 24, []), Advance(0, true)]);
  }

  lemma RunsOn(k: D.Kernel, s: Sys, steps: seq<Step>)
    requires Sane(s) && steps != [] && Enabled(s, steps[0]) && Sane(Next(k, s, steps[0]))
    requires CanRun(k, Next(k, s, steps[0]), steps[1..])
    ensures CanRun(k, s, steps) && Run(k, s, steps) == Run(k, Next(k, s, steps[0]), steps[1..])
  {
    hide Next, Enabled, Sane;
  }

  lemma StartEarly(name: Bytes)
    requires |name| <= MAX_NAME
    ensures Early(Start(name))
  {
    StartEmpty(name);
    hide D.Live, ReadOpen;
  }

  // ---- order and exit codes ------------------------------------------------------------------------

  lemma DrainCodes(s: Sys)
    requires Inv(s)
    ensures forall i :: 0 <= i < |s.h.events| && s.h.events[i].Exit? ==> ExitFrom(s, s.h.events[i])
  {
    AllEvents(s);
    hide AskedOnce, Lives, Faithful, Removed, Accounted, ClosesAsked, ToldAll, Exited, Ended, OneLife,
         InHand, Told, TaskOk;
    var sent := s.d.io.sent;
    var read := sent[..s.h.taken];
    var told, all := ToldAll(read), s.h.events + InHand(s.h.reader);
    forall i | 0 <= i < |s.h.events| && s.h.events[i].Exit? ensures ExitFrom(s, s.h.events[i]) {
      assert all[i] == s.h.events[i];
      if i < |told| {
        ToldFrom(read, i);
        var j :| 0 <= j < |read| && Told(read[j]) == [told[i]];
        assert read[j] == sent[j] && D.FrameOk(sent[j]);
        ExitTold(sent[j], all[i]);
      } else {
        assert all[i] == Exit(s.h.lost[i - |told|], -1);
      }
    }
  }

  /** An Exit with code -1 comes from the drain; any other carries the daemon's own code. */
  predicate ExitFrom(s: Sys, e: Event)
    requires s.h.taken <= |s.d.io.sent| && e.Exit?
  {
    if e.code == -1 then e.id in s.h.lost
    else exists j :: 0 <= j < s.h.taken && Reports(s.d.io.sent[j], e)
  }

  predicate Reports(f: Frame, e: Event)
    requires e.Exit?
  {
    f.ty == T_EXIT && f.id == e.id && |f.payload| == 4 && e.code == Rd32(f.payload, 0) < D.MAX_CODE
  }

  lemma ExitTold(f: Frame, e: Event)
    requires D.FrameOk(f) && e.Exit? && Told(f) == [e]
    ensures Reports(f, e) && e.code != -1
  {
    hide Rd32, Lossy, Encode;
  }

  /** Over every run: the owner's events, with the one in hand, are the daemon's messages in the
      order sent, then one Exit with code -1 per session still in `live` at the drain; every other
      Exit carries the code the daemon reported. */
  lemma EventsInOrder(k: D.Kernel, name: Bytes, steps: seq<Step>)
    requires |name| <= MAX_NAME && CanRun(k, Start(name), steps)
    ensures var s := Run(k, Start(name), steps);
            && s.h.events + InHand(s.h.reader) == ToldAll(s.d.io.sent[..s.h.taken]) + Lost(s.h.lost)
            && (forall i :: 0 <= i < |s.h.events| && s.h.events[i].Exit? ==> ExitFrom(s, s.h.events[i]))
  {
    StartInv(name);
    RunKeeps(k, Start(name), steps);
    var s := Run(k, Start(name), steps);
    DrainCodes(s);
    AllEvents(s);
  }

  // ---- a close that is complete -------------------------------------------------------------------

  /** The id is out of `live` and of the drain, and nothing on its way puts it back. */
  predicate Quiet(h: Host, id: nat) {
    && id <= h.next && id !in h.live && id !in h.lost && id !in Undrained(h.reader)
    && (forall i :: 0 <= i < |h.tasks| && h.tasks[i].Inserting? ==> h.tasks[i].f.id != id)
  }

  lemma QuietHost(k: D.Kernel, s: Sys, step: Step, id: nat)
    requires Sane(s) && Enabled(s, step) && Quiet(s.h, id)
    ensures Quiet(Next(k, s, step).h, id)
  {
    hide D.Ok, D.Dispatch, D.EndSess, D.Forward, TaskOk, FrameOk, D.FrameOk, OpenPayload, Told, CallOk;
    match step {
      case Advance(i, ok) => QuietAdvance(s.h, i, ok, id);
      case Drain(order) => assert forall i :: 0 <= i < |order| ==> order[i] in s.h.live;
      case _ =>
    }
  }

  lemma QuietAdvance(h: Host, i: nat, ok: bool, id: nat)
    requires i < |h.tasks| && Quiet(h, id)
    ensures Quiet(AdvanceTask(h, i, ok), id)
  {
  }

  lemma {:induction false} StaysQuiet(k: D.Kernel, s: Sys, steps: seq<Step>, id: nat)
    requires Sane(s) && CanRun(k, s, steps) && Quiet(s.h, id)
    ensures Quiet(Run(k, s, steps).h, id)
    decreases |steps|
  {
    hide Sane, Enabled, Next, Quiet;
    if steps != [] {
      SaneNext(k, s, steps[0]);
      QuietHost(k, s, steps[0], id);
      StaysQuiet(k, Next(k, s, steps[0]), steps[1..], id);
    }
  }

  /** Once a close has taken its session out of `live`, before any drain began, the drain never
      reports that session: an Exit it still gets carries the daemon's own code. */
  lemma ClosedIsNotLost(k: D.Kernel, name: Bytes, steps: seq<Step>, i: nat, ok: bool, more: seq<Step>)
    requires |name| <= MAX_NAME && CanRun(k, Start(name), steps)
    requires var h := Run(k, Start(name), steps).h;
             && i < |h.tasks| && h.tasks[i].Removing? && h.tasks[i].id <= h.next && Before(h.reader)
             && (forall j :: 0 <= j < |h.tasks| && h.tasks[j].Inserting? ==> h.tasks[j].f.id != h.tasks[i].id)
    requires var s := Run(k, Start(name), steps);
             && Enabled(s, Advance(i, ok)) && Sane(Next(k, s, Advance(i, ok)))
             && CanRun(k, Next(k, s, Advance(i, ok)), more)
    ensures var s := Run(k, Start(name), steps);
            var r := Run(k, Next(k, s, Advance(i, ok)), more).h;
            forall e :: e in r.events && e.Exit? && e.id == s.h.tasks[i].id ==> e.code != -1
  {
    StartInv(name);
    RunKeeps(k, Start(name), steps);
    var s := Run(k, Start(name), steps);
    QuietOnce(k, s, i, ok);
    hide *;
    QuietEnds(k, Next(k, s, Advance(i, ok)), more, s.h.tasks[i].id);
  }

  /** The close's last part leaves the session quiet. */
  lemma QuietOnce(k: D.Kernel, s: Sys, i: nat, ok: bool)
    requires Inv(s) && Enabled(s, Advance(i, ok)) && s.h.tasks[i].Removing?
    requires s.h.tasks[i].id <= s.h.next && Before(s.h.reader)
    requires forall j :: 0 <= j < |s.h.tasks| && s.h.tasks[j].Inserting? ==> s.h.tasks[j].f.id != s.h.tasks[i].id
    ensures Inv(Next(k, s, Advance(i, ok))) && Quiet(Next(k, s, Advance(i, ok)).h, s.h.tasks[i].id)
  {
    StepKeeps(k, s, Advance(i, ok));
    LostNone(s);
    hide Inv;
  }

  lemma QuietEnds(k: D.Kernel, s: Sys, steps: seq<Step>, id: nat)
    requires Inv(s) && CanRun(k, s, steps) && Quiet(s.h, id)
    ensures forall e :: e in Run(k, s, steps).h.events && e.Exit? && e.id == id ==> e.code != -1
  {
    RunKeeps(k, s, steps);
    StaysQuiet(k, s, steps, id);
    DrainCodes(Run(k, s, steps));
    hide AskedOnce, Lives, HostInv, Run, CanRun, Enabled, Next, Sane, Reports;
  }

  lemma LostNone(s: Sys)
    requires Inv(s) && Before(s.h.reader)
    ensures s.h.lost == [] && Undrained(s.h.reader) == []
  {
    hide AskedOnce, Lives, Removed, Accounted, ClosesAsked, ToldAll;
  }

  // ---- writing on a dead connection ---------------------------------------------------------------

  /** The connection is dead, and what was written from `base` on, or still is to be, had its frame
      in hand before. */
  predicate Drying(h: Host, base: nat, held: set<Frame>) {
    && h.dead && base <= |h.written|
    && (forall i :: base <= i < |h.written| ==> h.written[i] in held)
    && (forall i :: 0 <= i < |h.tasks| && h.tasks[i].Writing? ==> h.tasks[i].f in held)
  }

  lemma DryingHost(k: D.Kernel, s: Sys, step: Step, base: nat, held: set<Frame>)
    requires Sane(s) && Enabled(s, step) && Drying(s.h, base, held)
    ensures Drying(Next(k, s, step).h, base, held)
  {
    hide D.Ok, D.Dispatch, D.EndSess, D.Forward, TaskOk, FrameOk, D.FrameOk, OpenPayload, Told, CallOk, Before;
    if step.Advance? { DryingAdvance(s.h, step.i, step.ok, base, held); }
  }

  lemma DryingAdvance(h: Host, i: nat, ok: bool, base: nat, held: set<Frame>)
    requires i < |h.tasks| && Drying(h, base, held)
    ensures Drying(AdvanceTask(h, i, ok), base, held)
  {
    hide Before;
  }

  lemma {:induction false} StaysDry(k: D.Kernel, s: Sys, steps: seq<Step>, base: nat, held: set<Frame>)
    requires Sane(s) && CanRun(k, s, steps) && Drying(s.h, base, held)
    ensures Drying(Run(k, s, steps).h, base, held)
    decreases |steps|
  {
    hide Sane, Enabled, Next, Drying;
    if steps != [] {
      SaneNext(k, s, steps[0]);
      DryingHost(k, s, steps[0], base, held);
      StaysDry(k, Next(k, s, steps[0]), steps[1..], base, held);
    }
  }

  /** The steps that end the connection for the owner's calls. */
  predicate Kills(h: Host, step: Step) {
    step.Drop? || step.Stop? || (step.Advance? && step.i < |h.tasks| && h.tasks[step.i].Writing? && !(h.up && step.ok))
  }

  /** Once the mux is dropped, its reader has stopped or a write has failed, only calls that had
      already looked at `dead` still write their frames, over every later run. */
  lemma DeadWritesNothing(k: D.Kernel, s: Sys, step: Step, more: seq<Step>)
    requires Sane(s) && Enabled(s, step) && Kills(s.h, step)
    requires Sane(Next(k, s, step)) && CanRun(k, Next(k, s, step), more)
    ensures var (r, n) := (Run(k, Next(k, s, step), more).h, |s.h.written|);
            && n <= |r.written|
            && (forall i :: n <= i < |r.written| ==>
                 exists j :: 0 <= j < |s.h.tasks| && s.h.tasks[j] == Writing(r.written[i]))
  {
    var ts := s.h.tasks;
    var held := set j | 0 <= j < |ts| && ts[j].Writing? :: ts[j].f;
    var h := Next(k, s, step).h;
    assert h.dead && h.written == s.h.written;
    assert forall i :: 0 <= i < |h.tasks| && h.tasks[i].Writing? ==> h.tasks[i] == ts[i];
    StaysDry(k, Next(k, s, step), more, |s.h.written|, held);
    hide Sane, CanRun, Run, Next, Enabled, Kills;
  }

  lemma {:induction false} StaysBroken(k: D.Kernel, s: Sys, steps: seq<Step>)
    requires Sane(s) && CanRun(k, s, steps) && !s.h.up
    ensures Run(k, s, steps).h.written == s.h.written
    decreases |steps|
  {
    hide Sane, Enabled, Next;
    if steps != [] {
      SaneNext(k, s, steps[0]);
      BrokenHost(k, s, steps[0]);
      StaysBroken(k, Next(k, s, steps[0]), steps[1..]);
    }
  }

  lemma BrokenHost(k: D.Kernel, s: Sys, step: Step)
    requires Sane(s) && Enabled(s, step) && !s.h.up
    ensures !Next(k, s, step).h.up && Next(k, s, step).h.written == s.h.written
  {
    hide D.Ok, D.Dispatch, D.EndSess, D.Forward, TaskOk, FrameOk, D.FrameOk, OpenPayload, Told, CallOk, Before;
  }

  /** No frame follows one whose write failed in the middle, over every later run. */
  lemma NothingAfterFailure(k: D.Kernel, s: Sys, i: nat, more: seq<Step>)
    requires Sane(s) && Enabled(s, Advance(i, false)) && s.h.tasks[i].Writing?
    requires Sane(Next(k, s, Advance(i, false))) && CanRun(k, Next(k, s, Advance(i, false)), more)
    ensures Run(k, Next(k, s, Advance(i, false)), more).h.written == s.h.written
  {
    StaysBroken(k, Next(k, s, Advance(i, false)), more);
    hide Sane, CanRun, Run;
  }
}
