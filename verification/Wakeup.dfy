/** The feed thread and the UI thread: terminal output is fed by one, replies are flushed and the
    screen repainted by the other, and a single `pending` flag keeps at most one Redraw on its
    way. Each atomic access to shared state is a step; steps interleave freely. */
module Wakeup {
  import opened Cells
  import opened Text
  import opened ParserModel
  import F = Feeding

  /** Bytes a terminal wants sent back to its session. */
  datatype Reply = Reply(id: nat, bytes: Bytes)

  datatype UserEvent = Redraw | SessionExit(id: nat) | Distro(name: Text.Str) | Closed

  /** Where the feed thread stands. */
  datatype Feeder =
    | Waiting      // blocked on the mux channel
    | Handling     // in the inner loop, between events
    | Extending    // channel drained; about to put its replies in the outbox
    | Swapping     // about to set `pending`
    | Sending      // found it unset: about to send Redraw
    | Ended        // the channel closed
    | Failed       // the event loop was gone when it sent

  /** Where the UI thread stands with its current event. */
  datatype Ui =
    | Idle
    | Clearing                       // has a Redraw; about to unset `pending`
    | Taking                         // about to empty the outbox
    | Flushing(left: seq<Reply>)
    | Ticking                        // about to mark the window for a frame
    | Exited

  /** A session's terminal, emptied of its replies at every feed, and beside it the same terminal
      never emptied. */
  datatype Session = Session(term: Term, whole: Term)

  /** `fed` counts feeds; `ticked` and `painted` are its values when the last tick of a window, and
      its last render, began. */
  datatype World = World(
    feeder: Feeder, resp: seq<Reply>, ui: Ui, queue: seq<UserEvent>, pending: bool,
    outbox: seq<Reply>, sent: seq<Reply>, sessions: map<nat, Session>, registered: set<nat>,
    fed: nat, ticked: nat, wantFrame: bool, painted: nat)

  // ---- one feed -----------------------------------------------------------------------------

  /** The terminal once its replies and clipboard request have been taken. */
  function Emptied(t: Term): Term { t.(out := t.out.(respond := [], clipboard := None)) }

  predicate SessionOk(s: Session) {
    && TermOk(s.term) && TermOk(s.whole) && s.term.p == s.whole.p && s.term.s == s.whole.s
    && s.term.out.respond == [] && s.term.out.title == s.whole.out.title && s.term.out.cwd == s.whole.out.cwd
  }

  predicate SessionsOk(m: map<nat, Session>) { forall id :: id in m ==> SessionOk(m[id]) }

  function FeedSession(s: Session, bytes: Bytes): (Session, Bytes)
    requires SessionOk(s)
  {
    var t := Feed(s.term, bytes);
    (Session(Emptied(t), Feed(s.whole, bytes)), t.out.respond)
  }

  /** What a feed takes out is what it adds to the terminal that is never emptied. */
  lemma FeedReplies(s: Session, bytes: Bytes)
    requires SessionOk(s)
    ensures var (r, reply) := FeedSession(s, bytes);
            SessionOk(r) && r.whole.out.respond == s.whole.out.respond + reply
  {
    hide Run, S.Ok, POk;
    var v := Run(Vt(s.term.p, s.term.s, EMPTY), bytes);
    assert [] + v.k.respond == v.k.respond;
  }

  // ---- steps ----------------------------------------------------------------------------------

  datatype Arrival = Data(id: nat, bytes: Bytes) | Exit(id: nat) | Info(name: Text.Str)

  datatype Step =
    | Receive(a: Arrival)            // recv or try_recv yields an event, and it is handled
    | NoMore                         // try_recv yields none
    | Extend
    | Swap
    | Send(ok: bool)
    | HangUp
    | TakeEvent
    | Clear
    | TakeOutbox
    | FlushOne
    | FlushDone
    | Tick
    | Render                         // the window's frame is due, or asked for otherwise
    | Register(id: nat, t: Term)     // the UI opens a session
    | Unregister(id: nat)            // or closes one
    | Resize(id: nat, cols: nat, rows: nat)

  predicate Enabled(w: World, step: Step) {
    match step
    case Receive(_) => w.feeder == Waiting || w.feeder == Handling
    case NoMore => w.feeder == Handling
    case Extend => w.feeder == Extending
    case Swap => w.feeder == Swapping
    case Send(_) => w.feeder == Sending
    case HangUp => w.feeder == Waiting
    case TakeEvent => w.ui == Idle && w.queue != []
    case Clear => w.ui == Clearing
    case TakeOutbox => w.ui == Taking
    case FlushOne => w.ui.Flushing? && w.ui.left != []
    case FlushDone => w.ui == Flushing([])
    case Tick => w.ui == Ticking
    case Render => w.ui == Idle
    case Register(id, t) => id !in w.sessions && TermOk(t) && t.out == EMPTY
    case Unregister(_) => true
    case Resize(id, c, r) => id in w.sessions && c <= S.MAX_DIM && r <= S.MAX_DIM
  }

  function Queued(w: World, e: UserEvent): World { w.(queue := w.queue + [e]) }

  function HandleData(w: World, id: nat, bytes: Bytes): World
    requires SessionsOk(w.sessions)
  {
    if id in w.registered && id in w.sessions then
      var (s, reply) := FeedSession(w.sessions[id], bytes);
      w.(sessions := w.sessions[id := s], fed := w.fed + 1,
         resp := if reply == [] then w.resp else w.resp + [Reply(id, reply)])
    else w
  }

  function Arrived(w: World, a: Arrival): World
    requires SessionsOk(w.sessions)
  {
    match a
    case Data(id, bytes) => HandleData(w, id, bytes)
    case Exit(id) => Queued(w, SessionExit(id))
    case Info(name) => Queued(w, Distro(name))
  }

  function NextUi(w: World): World
    requires w.queue != []
  {
    w.(queue := w.queue[1..], ui := match w.queue[0]
       case Redraw => Clearing
       case SessionExit(_) => Idle
       case Distro(_) => Idle
       case Closed => Exited)
  }

  function Resized(s: Session, cols: nat, rows: nat): Session
    requires SessionOk(s) && cols <= S.MAX_DIM && rows <= S.MAX_DIM
  {
    Session(F.Handle(s.term, F.Resized(cols, rows)), F.Handle(s.whole, F.Resized(cols, rows)))
  }

  function Next(w: World, step: Step): World
    requires SessionsOk(w.sessions) && Enabled(w, step)
  {
    match step
    case Receive(a) => Arrived(w, a).(feeder := Handling)
    case NoMore => w.(feeder := Extending)
    case Extend => w.(feeder := Swapping, outbox := w.outbox + w.resp, resp := [])
    case Swap => w.(feeder := if w.pending then Waiting else Sending, pending := true)
    case Send(ok) => if ok then Queued(w, Redraw).(feeder := Waiting) else w.(feeder := Failed)
    case HangUp => Queued(w, Closed).(feeder := Ended)
    case TakeEvent => NextUi(w)
    case Clear => w.(pending := false, ui := Taking)
    case TakeOutbox => w.(ui := Flushing(w.outbox), outbox := [])
    case FlushOne => w.(ui := Flushing(w.ui.left[1..]), sent := w.sent + [w.ui.left[0]])
    case FlushDone => w.(ui := Ticking, ticked := w.fed)
    case Tick => w.(ui := Idle, wantFrame := true)
    case Render => w.(painted := w.fed, wantFrame := false)
    case Register(id, t) => w.(sessions := w.sessions[id := Session(t, t)], registered := w.registered + {id})
    case Unregister(id) => w.(registered := w.registered - {id})
    case Resize(id, c, r) => w.(sessions := w.sessions[id := Resized(w.sessions[id], c, r)])
  }

  const STARTED: World := World(Waiting, [], Idle, [], false, [], [], map[], {}, 0, 0, false, 0)

  // ---- the invariant ------------------------------------------------------------------------------

  function One(b: bool): nat { if b then 1 else 0 }

  function Redraws(q: seq<UserEvent>): nat {
    if q == [] then 0 else One(q[0] == Redraw) + Redraws(q[1..])
  }

  /** `pending` is set exactly when one Redraw is about to be sent, queued, or received and not
      yet acknowledged, and there is never a second. A send that failed leaves it set for good. */
  predicate OneRedraw(w: World) {
    Redraws(w.queue) + One(w.feeder == Sending) + One(w.ui == Clearing) + One(w.feeder == Failed) == One(w.pending)
  }

  /** Replies waiting in the outbox have a flush ahead of them. */
  predicate OutboxWatched(w: World) {
    w.outbox != [] ==> w.pending || w.feeder == Swapping || w.ui == Taking
  }

  predicate LocalReplies(w: World) {
    w.resp != [] ==> w.feeder == Handling || w.feeder == Extending
  }

  /** Output fed since the last tick has a tick ahead of it. */
  predicate TickAhead(w: World) {
    && w.ticked <= w.fed
    && (w.ticked < w.fed ==>
          || w.feeder == Handling || w.feeder == Extending || w.feeder == Swapping
          || w.pending || w.ui == Taking || w.ui.Flushing?)
  }

  /** A tick since the last render has a frame ahead of it. */
  predicate FrameAhead(w: World) {
    w.painted <= w.fed && (w.painted < w.ticked ==> w.wantFrame || w.ui == Ticking)
  }

  function InHand(u: Ui): seq<Reply> { if u.Flushing? then u.left else [] }

  /** Every reply ever produced, in order, wherever it is now. */
  function Replies(w: World): seq<Reply> { w.sent + InHand(w.ui) + w.outbox + w.resp }

  /** What was, or will be, sent to one session. */
  function BytesFor(rs: seq<Reply>, id: nat): Bytes {
    if rs == [] then []
    else BytesFor(rs[..|rs| - 1], id) + if rs[|rs| - 1].id == id then rs[|rs| - 1].bytes else []
  }

  /** What each session's terminal has produced. */
  function Produced(m: map<nat, Session>): map<nat, Bytes> { map id | id in m :: m[id].whole.out.respond }

  predicate Kept(rs: seq<Reply>, produced: map<nat, Bytes>) {
    && (forall id :: id in produced ==> BytesFor(rs, id) == produced[id])
    && (forall i :: 0 <= i < |rs| ==> rs[i].id in produced)
  }

  /** Each session's replies are exactly its terminal's, in order: none lost, none repeated. */
  predicate RepliesKept(w: World) { Kept(Replies(w), Produced(w.sessions)) }

  predicate Inv(w: World) {
    && SessionsOk(w.sessions) && OneRedraw(w) && OutboxWatched(w) && LocalReplies(w) && TickAhead(w) && FrameAhead(w)
    && RepliesKept(w)
  }

  // ---- proofs -----------------------------------------------------------------------------------------

  lemma {:induction false} RedrawsAppend(q: seq<UserEvent>, e: UserEvent)
    ensures Redraws(q + [e]) == Redraws(q) + One(e == Redraw)
  {
    if q == [] {
      assert q + [e] == [e] && [e][1..] == [];
    } else {
      RedrawsAppend(q[1..], e);
      assert (q + [e])[1..] == q[1..] + [e];
    }
  }

  lemma BytesAppend(rs: seq<Reply>, r: Reply, id: nat)
    ensures BytesFor(rs + [r], id) == BytesFor(rs, id) + if r.id == id then r.bytes else []
  {
    assert (rs + [r])[..|rs|] == rs;
  }

  lemma {:induction false} NoBytes(rs: seq<Reply>, id: nat)
    requires forall i :: 0 <= i < |rs| ==> rs[i].id != id
    ensures BytesFor(rs, id) == []
  {
    if rs != [] { NoBytes(rs[..|rs| - 1], id); }
  }

  /** The flag, the queue and the two threads: everything but the replies' contents. */
  predicate Signals(w: World) {
    OneRedraw(w) && OutboxWatched(w) && LocalReplies(w) && TickAhead(w) && FrameAhead(w)
  }

  lemma FeederSignals(w: World, step: Step)
    requires SessionsOk(w.sessions) && Signals(w) && Enabled(w, step)
    requires step.Receive? || step.NoMore? || step.Extend? || step.Swap? || step.Send? || step.HangUp?
    ensures Signals(Next(w, step))
  {
    hide FeedSession, SessionsOk, Redraws;
    match step {
      case Receive(a) =>
        match a {
          case Data(id, bytes) =>
          case Exit(id) => RedrawsAppend(w.queue, SessionExit(id));
          case Info(name) => RedrawsAppend(w.queue, Distro(name));
        }
      case Send(ok) => RedrawsAppend(w.queue, Redraw);
      case HangUp => RedrawsAppend(w.queue, Closed);
      case _ =>
    }
  }

  lemma UiSignals(w: World, step: Step)
    requires SessionsOk(w.sessions) && Signals(w) && Enabled(w, step)
    requires !(step.Receive? || step.NoMore? || step.Extend? || step.Swap? || step.Send? || step.HangUp?)
    ensures Signals(Next(w, step))
  {
    hide SessionsOk, Resized;
  }

  /** Moving replies along does not change what they are. */
  lemma SameReplies(w: World, step: Step)
    requires SessionsOk(w.sessions) && Enabled(w, step)
    requires step.Extend? || step.TakeOutbox? || step.FlushOne? || step.FlushDone?
    ensures Replies(Next(w, step)) == Replies(w)
  {
    hide SessionsOk;
  }

  lemma ReplyKept(rs: seq<Reply>, produced: map<nat, Bytes>, id: nat, reply: Bytes)
    requires Kept(rs, produced) && id in produced
    ensures Kept(if reply == [] then rs else rs + [Reply(id, reply)], produced[id := produced[id] + reply])
  {
    hide BytesFor;
    if reply == [] {
      assert produced[id] + [] == produced[id];
    } else {
      var r := produced[id := produced[id] + reply];
      forall x | x in r ensures BytesFor(rs + [Reply(id, reply)], x) == r[x] {
        BytesAppend(rs, Reply(id, reply), x);
        assert BytesFor(rs, x) + [] == BytesFor(rs, x);
      }
    }
  }

  lemma DataReplies(w: World, id: nat, bytes: Bytes)
    requires SessionsOk(w.sessions) && id in w.registered && id in w.sessions
    ensures var reply := FeedSession(w.sessions[id], bytes).1;
            Replies(HandleData(w, id, bytes)) == if reply == [] then Replies(w) else Replies(w) + [Reply(id, reply)]
  {
    hide FeedSession, SessionsOk, SessionOk;
  }

  lemma DataProduced(w: World, id: nat, bytes: Bytes)
    requires SessionsOk(w.sessions) && id in w.registered && id in w.sessions
    ensures var was := Produced(w.sessions);
            var r := HandleData(w, id, bytes);
            SessionsOk(r.sessions) && Produced(r.sessions) == was[id := was[id] + FeedSession(w.sessions[id], bytes).1]
  {
    assert SessionOk(w.sessions[id]);
    hide FeedSession, SessionOk;
    FeedReplies(w.sessions[id], bytes);
  }

  lemma DataKept(w: World, id: nat, bytes: Bytes)
    requires SessionsOk(w.sessions) && RepliesKept(w)
    ensures SessionsOk(HandleData(w, id, bytes).sessions) && RepliesKept(HandleData(w, id, bytes))
  {
    if id in w.registered && id in w.sessions {
      DataReplies(w, id, bytes);
      DataProduced(w, id, bytes);
      hide Kept, HandleData, FeedSession, SessionOk, Replies;
      ReplyKept(Replies(w), Produced(w.sessions), id, FeedSession(w.sessions[id], bytes).1);
    }
  }

  lemma NewKept(rs: seq<Reply>, produced: map<nat, Bytes>, id: nat)
    requires Kept(rs, produced) && id !in produced
    ensures Kept(rs, produced[id := []])
  {
    NoBytes(rs, id);
    hide BytesFor;
  }

  lemma RegisterKept(w: World, id: nat, t: Term)
    requires SessionsOk(w.sessions) && RepliesKept(w) && Enabled(w, Register(id, t))
    ensures SessionsOk(Next(w, Register(id, t)).sessions) && RepliesKept(Next(w, Register(id, t)))
  {
    hide TermOk, Kept;
    NewKept(Replies(w), Produced(w.sessions), id);
    assert Produced(w.sessions[id := Session(t, t)]) == Produced(w.sessions)[id := []];
  }

  lemma ResizeKept(w: World, id: nat, cols: nat, rows: nat)
    requires SessionsOk(w.sessions) && RepliesKept(w) && Enabled(w, Step.Resize(id, cols, rows))
    ensures SessionsOk(Next(w, Step.Resize(id, cols, rows)).sessions)
    ensures RepliesKept(Next(w, Step.Resize(id, cols, rows)))
  {
    assert SessionOk(w.sessions[id]);
    hide Kept, S.Ok, POk, S.Resize;
    var r := Resized(w.sessions[id], cols, rows);
    assert Produced(w.sessions[id := r]) == Produced(w.sessions);
  }

  lemma QuietKept(w: World, r: World)
    requires RepliesKept(w) && r.sessions == w.sessions && Replies(r) == Replies(w)
    ensures RepliesKept(r)
  {
    hide Kept, Replies;
  }

  lemma StepKept(w: World, step: Step)
    requires SessionsOk(w.sessions) && RepliesKept(w) && Enabled(w, step)
    ensures SessionsOk(Next(w, step).sessions) && RepliesKept(Next(w, step))
  {
    var r := Next(w, step);
    match step {
      case Receive(a) =>
        hide SessionsOk, FeedSession, BytesFor;
        if a.Data? { DataKept(w, a.id, a.bytes); QuietKept(HandleData(w, a.id, a.bytes), r); } else { QuietKept(w, r); }
      case Register(id, t) => RegisterKept(w, id, t);
      case Resize(id, c, h) => ResizeKept(w, id, c, h);
      case _ =>
        hide SessionsOk, BytesFor;
        if step.Extend? || step.TakeOutbox? || step.FlushOne? || step.FlushDone? { SameReplies(w, step); }
        QuietKept(w, r);
    }
  }

  /** Every step keeps the invariant. */
  lemma StepKeeps(w: World, step: Step)
    requires Inv(w) && Enabled(w, step)
    ensures Inv(Next(w, step))
  {
    hide SessionsOk, RepliesKept, Next;
    StepKept(w, step);
    if step.Receive? || step.NoMore? || step.Extend? || step.Swap? || step.Send? || step.HangUp? {
      FeederSignals(w, step);
    } else {
      UiSignals(w, step);
    }
  }

  predicate CanRun(w: World, steps: seq<Step>)
    requires Inv(w)
    decreases |steps|
  {
    steps == [] || (Enabled(w, steps[0]) && (StepKeeps(w, steps[0]); CanRun(Next(w, steps[0]), steps[1..])))
  }

  function RunSteps(w: World, steps: seq<Step>): (r: World)
    requires Inv(w) && CanRun(w, steps)
    ensures Inv(r)
    decreases |steps|
  {
    if steps == [] then w
    else
      StepKeeps(w, steps[0]);
      RunSteps(Next(w, steps[0]), steps[1..])
  }

  function Start(): (w: World)
    ensures Inv(w)
  {
    STARTED
  }

  lemma {:induction false} NoneQueued(q: seq<UserEvent>)
    ensures Redraws(q) == 0 <==> Redraw !in q
  {
    if q != [] {
      NoneQueued(q[1..]);
      assert q == [q[0]] + q[1..];
    }
  }

  /** Over every interleaving: `pending` is set exactly while one Redraw is on its way, or for
      good once the event loop was gone when one was sent; there is never more than one; and each
      session's replies, sent or still on their way, are exactly what its terminal produced, in
      order. */
  lemma OneRedrawOnItsWay(steps: seq<Step>)
    requires CanRun(Start(), steps)
    ensures var w := RunSteps(Start(), steps);
            && (w.pending <==>
                  Redraw in w.queue || w.feeder == Sending || w.ui == Clearing || w.feeder == Failed)
            && Redraws(w.queue) <= 1
            && Kept(Replies(w), Produced(w.sessions))
  {
    NoneQueued(RunSteps(Start(), steps).queue);
    hide Kept, Redraws, SessionsOk, RunSteps, CanRun, Produced;
  }

  /** No lost wake-up, over every interleaving: when both threads are idle and no Redraw is queued,
      the outbox is empty, every terminal's replies have all been sent, and a tick has come after
      everything fed; and when no frame is wanted either, a render has. */
  lemma NoLostWakeup(steps: seq<Step>)
    requires CanRun(Start(), steps)
    ensures var w := RunSteps(Start(), steps);
            (w.feeder == Waiting || w.feeder == Ended) && w.ui == Idle && Redraw !in w.queue ==>
              && w.outbox == [] && w.resp == [] && !w.pending && w.ticked == w.fed
              && (!w.wantFrame ==> w.painted == w.fed)
              && Kept(w.sent, Produced(w.sessions))
  {
    NoneQueued(RunSteps(Start(), steps).queue);
    hide Kept, Redraws, SessionsOk, RunSteps, CanRun, Produced;
    var w := RunSteps(Start(), steps);
    if (w.feeder == Waiting || w.feeder == Ended) && w.ui == Idle && Redraws(w.queue) == 0 {
      QuietWorld(w);
    }
  }

  lemma QuietWorld(w: World)
    requires Inv(w) && (w.feeder == Waiting || w.feeder == Ended) && w.ui == Idle && Redraws(w.queue) == 0
    ensures w.outbox == [] && w.resp == [] && !w.pending && w.ticked == w.fed
    ensures !w.wantFrame ==> w.painted == w.fed
    ensures Kept(w.sent, Produced(w.sessions))
  {
    hide Kept, Redraws, SessionsOk, Produced;
    assert !w.pending;
    assert Replies(w) == w.sent;
  }

  // ---- what the UI thread is told --------------------------------------------------------------

  /** The events the UI thread took, over a run. */
  function Consumed(w: World, steps: seq<Step>): seq<UserEvent>
    requires Inv(w) && CanRun(w, steps)
    decreases |steps|
  {
    if steps == [] then []
    else
      StepKeeps(w, steps[0]);
      TakenBy(w, steps[0]) + Consumed(Next(w, steps[0]), steps[1..])
  }

  function TakenBy(w: World, step: Step): seq<UserEvent>
    requires Enabled(w, step)
  {
    if step == TakeEvent then [w.queue[0]] else []
  }

  /** All but the redraws. */
  function Notices(q: seq<UserEvent>): seq<UserEvent> {
    if q == [] then [] else Notice(q[0]) + Notices(q[1..])
  }

  function Notice(e: UserEvent): seq<UserEvent> { if e == Redraw then [] else [e] }

  /** What a step reports: the end of a session, a distro's name, the end of the channel. */
  function Noticed(step: Step): seq<UserEvent> {
    match step
    case Receive(a) => (match a case Data(_, _) => [] case Exit(id) => [SessionExit(id)] case Info(n) => [Distro(n)])
    case HangUp => [Closed]
    case _ => []
  }

  function NoticedAll(steps: seq<Step>): seq<UserEvent> {
    if steps == [] then [] else Noticed(steps[0]) + NoticedAll(steps[1..])
  }

  lemma NoticesFirst(q: seq<UserEvent>)
    ensures if q == [] then Notices(q) == [] else Notices(q) == Notice(q[0]) + Notices(q[1..])
  {
  }

  lemma {:induction false} NoticesAppend(p: seq<UserEvent>, q: seq<UserEvent>)
    ensures Notices(p + q) == Notices(p) + Notices(q)
  {
    hide *;
    var r := p + q;
    NoticesFirst(p);
    if p == [] {
      assert r == q && [] + Notices(q) == Notices(q);
    } else {
      NoticesFirst(r);
      NoticesAppend(p[1..], q);
      assert r[0] == p[0] && r[1..] == p[1..] + q;
      var (head, a, b) := (Notice(p[0]), Notices(p[1..]), Notices(q));
      assert head + (a + b) == head + a + b;
    }
  }

  /** What a step does to the queue. */
  lemma QueueStep(w: World, step: Step)
    requires SessionsOk(w.sessions) && Enabled(w, step)
    ensures step == TakeEvent ==> w.queue == [w.queue[0]] + Next(w, step).queue
    ensures step != TakeEvent ==>
      Next(w, step).queue == w.queue + (if step == Send(true) then [Redraw] else Noticed(step))
  {
    hide SessionsOk, FeedSession, Resized, TermOk;
    assert w.queue + [] == w.queue;
  }

  lemma StepNotices(w: World, step: Step)
    requires Inv(w) && Enabled(w, step)
    ensures Notices(TakenBy(w, step)) + Notices(Next(w, step).queue) == Notices(w.queue) + Noticed(step)
  {
    QueueStep(w, step);
    hide Inv, Notices;
    NoticesOfOne(step);
    if step == TakeEvent {
      NoticesAppend([w.queue[0]], Next(w, step).queue);
      assert Notices(w.queue) + [] == Notices(w.queue);
    } else {
      NoticesAppend(w.queue, if step == Send(true) then [Redraw] else Noticed(step));
    }
    hide Next;
  }

  lemma NoticesOfOne(step: Step)
    ensures Notices([]) == [] && Notices([Redraw]) == [] && Notices(Noticed(step)) == Noticed(step)
  {
    assert [Redraw][1..] == [];
  }

  /** Exits, distro names and the end of the channel reach the UI thread each once and in the order
      received: those taken so far, then those still queued. */
  lemma {:induction false} NoticesArrive(w: World, steps: seq<Step>)
    requires Inv(w) && CanRun(w, steps)
    ensures Notices(Consumed(w, steps)) + Notices(RunSteps(w, steps).queue) == Notices(w.queue) + NoticedAll(steps)
    decreases |steps|
  {
    NoticesOfOne(NoMore);
    if steps != [] {
      StepKeeps(w, steps[0]);
      var r := Next(w, steps[0]);
      hide Inv, Enabled, Next, Notices, Noticed, TakenBy;
      StepNotices(w, steps[0]);
      NoticesArrive(r, steps[1..]);
      NoticesAppend(TakenBy(w, steps[0]), Consumed(r, steps[1..]));
      Regrouped(Notices(TakenBy(w, steps[0])), Notices(Consumed(r, steps[1..])), Notices(RunSteps(r, steps[1..]).queue),
                Notices(r.queue), NoticedAll(steps[1..]), Notices(w.queue), Noticed(steps[0]));
    } else {
      assert [] + Notices(w.queue) == Notices(w.queue) + [];
    }
  }

  lemma Regrouped(a: seq<UserEvent>, b: seq<UserEvent>, c: seq<UserEvent>, d: seq<UserEvent>, e: seq<UserEvent>,
                  p: seq<UserEvent>, q: seq<UserEvent>)
    requires b + c == d + e && a + d == p + q
    ensures a + b + c == p + (q + e)
  {
    assert a + b + c == a + (b + c) == a + d + e;
  }

  /** A frame is wanted when a tick has come that no render has followed, and not otherwise. */
  lemma {:induction false} FrameWanted(w: World, steps: seq<Step>)
    requires Inv(w) && CanRun(w, steps)
    ensures RunSteps(w, steps).wantFrame <==> LastTicks(steps) || (w.wantFrame && Render !in steps)
    decreases |steps|
  {
    if steps != [] {
      StepKeeps(w, steps[0]);
      WantStep(w, steps[0]);
      var r := Next(w, steps[0]);
      hide Inv, SessionsOk, Enabled, Next, LastTicks;
      FrameWanted(r, steps[1..]);
      TicksStep(steps);
      assert steps == [steps[0]] + steps[1..];
    }
  }

  predicate LastTicks(steps: seq<Step>) {
    exists i :: 0 <= i < |steps| && steps[i] == Tick && Render !in steps[i..]
  }

  lemma WantStep(w: World, step: Step)
    requires SessionsOk(w.sessions) && Enabled(w, step)
    ensures Next(w, step).wantFrame <==> step == Tick || (w.wantFrame && step != Render)
  {
    hide SessionsOk, FeedSession, Resized, TermOk;
  }

  lemma TicksStep(steps: seq<Step>)
    requires steps != []
    ensures LastTicks(steps) <==> LastTicks(steps[1..]) || (steps[0] == Tick && Render !in steps[1..])
  {
    var rest := steps[1..];
    assert forall i :: 0 < i < |steps| ==> steps[i..] == rest[i - 1..];
    assert steps == [steps[0]] + rest && steps[0..] == steps;
    if LastTicks(rest) {
      var i :| 0 <= i < |rest| && rest[i] == Tick && Render !in rest[i..];
      assert steps[i + 1..] == rest[i..];
    }
  }
}
