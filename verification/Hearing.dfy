/** Which output a session's terminal gets to see: the feed thread looks the session up in the
    registry for every event, and the UI registers a session only after it asked for it to be
    opened. */
module Hearing {
  import opened Cells
  import opened Text
  import opened ParserModel
  import opened Feeding
  import opened Wakeup

  /** Only sessions with a terminal are registered. */
  predicate Known(w: World) { forall id :: id in w.registered ==> id in w.sessions }

  lemma KnownStays(w: World, step: Step)
    requires Inv(w) && Known(w) && Enabled(w, step)
    ensures Known(Next(w, step)) && forall id :: id in w.sessions ==> id in Next(w, step).sessions
  {
    hide Inv, SessionOk, FeedSession, Wakeup.Resized, TermOk;
  }

  // ---- one event -----------------------------------------------------------------------------

  /** Output is fed if and only if its session is registered when it is received; otherwise it is
      dropped and nothing changes but the feed thread's place. */
  lemma FedExactly(w: World, id: nat, bytes: Bytes)
    requires Inv(w) && Known(w) && Enabled(w, Receive(Data(id, bytes)))
    ensures var r := Next(w, Receive(Data(id, bytes)));
            && (r.fed == w.fed + 1 <==> id in w.registered)
            && (id in w.registered ==> r.sessions[id].whole == Feed(w.sessions[id].whole, bytes))
            && (id !in w.registered ==> r == w.(feeder := Handling))
  {
    hide Inv, SessionOk, Feed;
  }

  // ---- runs -----------------------------------------------------------------------------------

  /** What a step is meant to do to the terminal of a session. */
  function MeantBy(w: World, step: Step, id: nat): seq<Event> {
    match step
    case Receive(a) => if a.Data? && a.id == id then [Fed(a.bytes)] else []
    case Resize(i, c, r) => if i == id then [Event.Resized(c, r)] else []
    case _ => []
  }

  predicate Missed(w: World, step: Step, id: nat) {
    step.Receive? && step.a.Data? && step.a.id == id && id !in w.registered
  }

  function HeardBy(w: World, step: Step, id: nat): seq<Event> {
    if Missed(w, step, id) then [] else MeantBy(w, step, id)
  }

  /** All output and resizes of a session in a run, and those that met it registered. */
  function Meant(w: World, steps: seq<Step>, id: nat): seq<Event>
    requires Inv(w) && CanRun(w, steps)
    decreases |steps|
  {
    if steps == [] then []
    else
      StepKeeps(w, steps[0]);
      MeantBy(w, steps[0], id) + Meant(Next(w, steps[0]), steps[1..], id)
  }

  function Heard(w: World, steps: seq<Step>, id: nat): (es: seq<Event>)
    requires Inv(w) && CanRun(w, steps)
    decreases |steps|
  {
    if steps == [] then []
    else
      StepKeeps(w, steps[0]);
      HeardBy(w, steps[0], id) + Heard(Next(w, steps[0]), steps[1..], id)
  }

  /** No output of the session is received before it is registered, or after it no longer is. */
  predicate NoneMissed(w: World, steps: seq<Step>, id: nat)
    requires Inv(w) && CanRun(w, steps)
    decreases |steps|
  {
    steps == [] ||
    (!Missed(w, steps[0], id) && (StepKeeps(w, steps[0]); NoneMissed(Next(w, steps[0]), steps[1..], id)))
  }

  lemma {:induction false} AfterAppend(t: Term, a: seq<Event>, b: seq<Event>)
    requires TermOk(t) && EventsOk(a) && EventsOk(b)
    ensures EventsOk(a + b) && After(t, a + b) == After(After(t, a), b)
  {
    hide TermOk, Handle;
    if b == [] {
      assert a + b == a;
    } else {
      AfterAppend(t, a, b[..|b| - 1]);
      assert (a + b)[..|a + b| - 1] == a + b[..|b| - 1];
    }
  }

  lemma AfterAtMostOne(t: Term, es: seq<Event>)
    requires TermOk(t) && EventsOk(es) && |es| <= 1
    ensures After(t, es) == if es == [] then t else Handle(t, es[0])
  {
    hide TermOk, Handle;
    assert After(t, []) == t;
    assert es != [] ==> es[..0] == [];
  }

  /** Steps other than output and resizes leave every terminal as it is. */
  lemma NotHeard(w: World, step: Step, id: nat)
    requires SessionsOk(w.sessions) && Enabled(w, step) && !step.Receive? && !step.Resize? && id in w.sessions
    ensures id in Next(w, step).sessions && Next(w, step).sessions[id] == w.sessions[id]
    ensures HeardBy(w, step, id) == []
  {
    hide SessionsOk, TermOk;
  }

  lemma DataHeard(w: World, a: Arrival, id: nat)
    requires Inv(w) && Known(w) && Enabled(w, Receive(a)) && id in w.sessions
    ensures var (es, was, r) := (HeardBy(w, Receive(a), id), w.sessions[id].whole, Next(w, Receive(a)));
            id in r.sessions && r.sessions[id].whole == if es == [] then was else Feed(was, es[0].data)
    ensures var es := HeardBy(w, Receive(a), id); es != [] ==> |es| == 1 && es[0].Fed?
  {
    hide RepliesKept, Signals, SessionOk, Feed;
  }

  lemma SizeHeard(w: World, i: nat, cols: nat, rows: nat, id: nat)
    requires SessionsOk(w.sessions) && Enabled(w, Resize(i, cols, rows)) && id in w.sessions
    ensures var (was, r) := (w.sessions[id].whole, Next(w, Resize(i, cols, rows)));
            && id in r.sessions && TermOk(was)
            && HeardBy(w, Resize(i, cols, rows), id) == (if i == id then [Event.Resized(cols, rows)] else [])
            && r.sessions[id].whole == if i == id then Handle(was, Event.Resized(cols, rows)) else was
  {
    assert SessionOk(w.sessions[id]);
    hide TermOk, Handle;
  }

  lemma StepIsOne(w: World, step: Step, id: nat)
    requires Inv(w) && Known(w) && Enabled(w, step) && id in w.sessions
    ensures SessionOk(w.sessions[id]) && EventsOk(HeardBy(w, step, id)) && id in Next(w, step).sessions
    ensures var (es, was) := (HeardBy(w, step, id), w.sessions[id].whole);
            Next(w, step).sessions[id].whole == if es == [] then was else Handle(was, es[0])
  {
    assert SessionOk(w.sessions[id]);
    hide Inv, Known, SessionOk, TermOk, Feed, S.Resize, Next, HeardBy;
    match step {
      case Receive(a) => DataHeard(w, a, id);
      case Resize(i, c, r) => SizeHeard(w, i, c, r, id);
      case _ => NotHeard(w, step, id);
    }
  }

  /** A step changes the terminal of a session by what the session hears of it. */
  lemma StepHeard(w: World, step: Step, id: nat)
    requires Inv(w) && Known(w) && Enabled(w, step) && id in w.sessions
    ensures EventsOk(HeardBy(w, step, id)) && TermOk(w.sessions[id].whole) && id in Next(w, step).sessions
    ensures Next(w, step).sessions[id].whole == After(w.sessions[id].whole, HeardBy(w, step, id))
  {
    assert SessionsOk(w.sessions);
    StepIsOne(w, step, id);
    hide Inv, Known, TermOk, Next, Handle, Enabled;
    AfterAtMostOne(w.sessions[id].whole, HeardBy(w, step, id));
  }

  /** Over every run a session's terminal has taken exactly the output that was received while the
      session was registered, and its resizes, in order. */
  lemma {:induction false} TerminalIsHeard(w: World, steps: seq<Step>, id: nat)
    requires Inv(w) && Known(w) && CanRun(w, steps) && id in w.sessions
    ensures EventsOk(Heard(w, steps, id)) && TermOk(w.sessions[id].whole) && id in RunSteps(w, steps).sessions
    ensures RunSteps(w, steps).sessions[id].whole == After(w.sessions[id].whole, Heard(w, steps, id))
    decreases |steps|
  {
    assert SessionOk(w.sessions[id]);
    hide Inv, TermOk, Next, HeardBy, Known, Enabled, After;
    if steps == [] {
      AfterAtMostOne(w.sessions[id].whole, []);
    } else {
      StepKeeps(w, steps[0]);
      KnownStays(w, steps[0]);
      StepHeard(w, steps[0], id);
      TerminalIsHeard(Next(w, steps[0]), steps[1..], id);
      AfterAppend(w.sessions[id].whole, HeardBy(w, steps[0], id), Heard(Next(w, steps[0]), steps[1..], id));
    }
  }

  /** Nothing of a session's output is lost if and only if none is received while the session is
      not registered. */
  lemma {:induction false} LostExactly(w: World, steps: seq<Step>, id: nat)
    requires Inv(w) && CanRun(w, steps)
    ensures |Heard(w, steps, id)| <= |Meant(w, steps, id)|
    ensures Heard(w, steps, id) == Meant(w, steps, id) <==> NoneMissed(w, steps, id)
    decreases |steps|
  {
    assert SessionsOk(w.sessions);
    hide Inv, Next, Enabled, SessionsOk;
    if steps != [] {
      StepKeeps(w, steps[0]);
      var r := Next(w, steps[0]);
      LostExactly(r, steps[1..], id);
      SameParts(HeardBy(w, steps[0], id), Heard(r, steps[1..], id), MeantBy(w, steps[0], id), Meant(r, steps[1..], id));
    }
  }

  lemma SameParts(a: seq<Event>, x: seq<Event>, b: seq<Event>, y: seq<Event>)
    requires (a == b || (a == [] && b != [])) && |x| <= |y|
    ensures a + x == b + y <==> a == b && x == y
  {
    if a + x == b + y {
      assert a == b;
      assert x == (a + x)[|a|..] && y == (b + y)[|b|..];
    }
  }

  // ---- a run that loses output ---------------------------------------------------------------------

  function NewTerm(): (t: Term)
    ensures TermOk(t) && t.out == EMPTY
  {
    FreshTerm(80, 24, 1)
  }

  /** The shell's first output arrives after the request to open the session went out and before
      the session is registered. */
  const LATE: seq<Step> := [Receive(Data(1, [97])), Register(1, NewTerm())]

  lemma OutputLost()
    ensures CanRun(Start(), LATE)
    ensures var w := RunSteps(Start(), LATE);
            && 1 in w.registered && 1 in w.sessions && w.sessions[1].whole == NewTerm() && w.fed == 0
            && Meant(Start(), LATE, 1) == [Fed([97])] && Heard(Start(), LATE, 1) == []
  {
    hide NewTerm, TermOk, Inv;
    var w0 := Start();
    var w1 := Next(w0, LATE[0]);
    StepKeeps(w0, LATE[0]);
    StepKeeps(w1, LATE[1]);
    assert LATE[1..] == [LATE[1]] && [LATE[1]][1..] == [];
  }
}
