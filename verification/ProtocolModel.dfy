/** The multiplexed connection as one step system: the owner's calls into the mux, cut into
    their atomic parts and interleaved freely; the two frame streams; the daemon; the reader
    thread; and disconnection at any moment on either side. */
module ProtocolModel {
  import opened Cells
  import opened Text
  import opened Wire
  import D = DaemonModel

  /** What the owner receives. */
  datatype Event = Data(id: nat, bytes: Bytes) | Exit(id: nat, code: int) | Info(distro: Str)

  /** Where a call into the mux stands. */
  datatype Task =
    | Inserting(f: Frame)     // open: id taken, not yet in `live`
    | Checking(f: Frame)      // about to look at `dead`
    | Writing(f: Frame)       // saw `dead` unset, waiting for the writer lock
    | Removing(id: nat)       // close: about to take the id out of `live`
    | Idle

  datatype Reader =
    | Reading
    | Delivering(e: Event)
    | Stopped                 // `dead` is set, `live` not yet drained
    | Draining(left: seq<nat>)
    | Done

  /** The host: the mux's shared state, its calls in progress, the reader, what the owner has
      received, the frames written and how many daemon frames have been read. `early` are the ids
      put in `live` before the drain, `closing` those the owner has asked to close, `lost` those
      already reported ended by the drain. */
  datatype Host = Host(
    next: nat, live: set<nat>, dead: bool, up: bool, tasks: seq<Task>, written: seq<Frame>,
    reader: Reader, taken: nat, events: seq<Event>,
    early: set<nat>, closing: set<nat>, lost: seq<nat>)

  /** The whole: `handled` of the written frames have reached the daemon. */
  datatype Sys = Sys(h: Host, d: D.Daemon, handled: nat, gone: bool)

  datatype Step =
    | Open(cols: nat, rows: nat, cwd: Bytes)
    | Call(f: Frame)                       // data, resize, signal, close
    | Advance(i: nat, ok: bool)            // the next atomic part of a call; ok: a write succeeds
    | Drop                                 // the mux is dropped
    | Handle                               // the daemon handles the next frame
    | Forward(slot: nat, m: D.Master)      // a session's output or end
    | Disconnect                           // the daemon learns that the host is gone
    | Abandon(slot: nat)                   // and ends one session after another
    | Receive                              // the reader reads the next frame
    | Deliver                              // and hands its event on
    | Stop                                 // or meets the end of the stream, or an error
    | Drain(order: seq<nat>)
    | DrainOne

  function HelloFrame(name: Bytes): Frame { Frame(0, T_INFO, name) }

  // ---- what the reader makes of a frame -------------------------------------------------------

  predicate WellFormed(b: Bytes) { Encode(Lossy(b)) == b }

  function Told(f: Frame): (es: seq<Event>)
    ensures |es| <= 1
  {
    if f.ty == T_DATA then [Data(f.id, f.payload)]
    else if f.ty == T_EXIT then [Exit(f.id, if |f.payload| >= 4 then Signed(Rd32(f.payload, 0)) else 0)]
    else if f.ty == T_INFO && WellFormed(f.payload) && f.payload != [] then [Info(Lossy(f.payload))]
    else []
  }

  function ToldAll(fs: seq<Frame>): seq<Event> {
    if fs == [] then [] else ToldAll(fs[..|fs| - 1]) + Told(fs[|fs| - 1])
  }

  // ---- steps ------------------------------------------------------------------------------------

  predicate FrameOk(f: Frame) {
    Sendable(f) && (f.ty == T_OPEN ==> ReadOpen(f.payload).Launch?)
  }

  /** Any id the owner likes, but only the mux itself makes OPEN frames. */
  predicate CallOk(f: Frame) {
    Sendable(f) && f.ty in {T_DATA, T_RESIZE, T_SIGNAL, T_CLOSE}
  }

  predicate NoRepeats(s: seq<nat>) { forall i, j :: 0 <= i < j < |s| ==> s[i] != s[j] }

  predicate Enabled(s: Sys, step: Step) {
    match step
    case Open(cols, rows, cwd) =>
      s.h.next + 1 < TWO32 && cols < TWO16 && rows < TWO16 && |cwd| + 12 + HEADER < TWO32
    case Call(f) => CallOk(f)
    case Advance(i, _) => i < |s.h.tasks|
    case Drop => true
    case Handle => !s.gone && s.handled < |s.h.written|
    case Forward(i, m) => i < |s.d.tab| && s.d.tab[i].active && D.ChunkOk(m)
    case Disconnect => true
    case Abandon(i) => s.gone && i < |s.d.tab| && s.d.tab[i].active
    case Receive => s.h.reader == Reading && s.h.taken < |s.d.io.sent|
    case Deliver => s.h.reader.Delivering?
    case Stop => s.h.reader == Reading
    case Drain(order) =>
      s.h.reader == Stopped && NoRepeats(order) && (set i | 0 <= i < |order| :: order[i]) == s.h.live
    case DrainOne => s.h.reader.Draining?
  }

  /** Before the drain, an id put in `live` is early. */
  predicate Before(r: Reader) { r.Reading? || r.Delivering? || r.Stopped? }

  /** Where a call goes once its frame is written or skipped. */
  function Afterwards(f: Frame): Task { if f.ty == T_CLOSE then Removing(f.id) else Idle }

  /** The next atomic part of a call. A write that fails leaves part of a frame behind, and `up` is
      down from then on: nothing is written behind it. In the source calls come one at a time from
      the thread that owns the mux, and each looks at `dead` first. */
  function AdvanceTask(h: Host, i: nat, ok: bool): Host
    requires i < |h.tasks|
  {
    match h.tasks[i]
    case Inserting(f) =>
      h.(live := h.live + {f.id}, early := if Before(h.reader) then h.early + {f.id} else h.early,
         tasks := h.tasks[i := Checking(f)])
    case Checking(f) => h.(tasks := h.tasks[i := if h.dead then Afterwards(f) else Writing(f)])
    case Writing(f) =>
      if h.up && ok then h.(written := h.written + [f], tasks := h.tasks[i := Afterwards(f)])
      else h.(dead := true, up := false, tasks := h.tasks[i := Afterwards(f)])
    case Removing(id) => h.(live := h.live - {id}, tasks := h.tasks[i := Idle])
    case Idle => h
  }

  function OpenCall(h: Host, cols: nat, rows: nat, cwd: Bytes): Host
    requires cols < TWO16 && rows < TWO16 && |cwd| + 12 + HEADER < TWO32
  {
    h.(next := h.next + 1, tasks := h.tasks + [Inserting(Frame(h.next + 1, T_OPEN, OpenPayload(cols, rows, cwd)))])
  }

  function PlainCall(h: Host, f: Frame): Host {
    h.(tasks := h.tasks + [Checking(f)], closing := if f.ty == T_CLOSE then h.closing + {f.id} else h.closing)
  }

  /** The reader takes a frame; for an EXIT it first takes the session out of `live`. */
  function ReceiveFrame(h: Host, f: Frame): Host {
    h.(taken := h.taken + 1, live := if f.ty == T_EXIT then h.live - {f.id} else h.live,
       reader := if Told(f) == [] then Reading else Delivering(Told(f)[0]))
  }

  function DrainNext(h: Host, left: seq<nat>): Host {
    if left == [] then h.(reader := Done)
    else h.(reader := Draining(left[1..]), events := h.events + [Exit(left[0], -1)], lost := h.lost + [left[0]])
  }

  function HostStep(h: Host, sent: seq<Frame>, step: Step): Host
    requires h.taken <= |sent|
    requires step.Open? ==> step.cols < TWO16 && step.rows < TWO16 && |step.cwd| + 12 + HEADER < TWO32
    requires step.Advance? ==> step.i < |h.tasks|
    requires step.Receive? ==> h.taken < |sent|
    requires step.Deliver? ==> h.reader.Delivering?
    requires step.DrainOne? ==> h.reader.Draining?
  {
    match step
    case Open(cols, rows, cwd) => OpenCall(h, cols, rows, cwd)
    case Call(f) => PlainCall(h, f)
    case Advance(i, ok) => AdvanceTask(h, i, ok)
    case Drop => h.(dead := true)
    case Receive => ReceiveFrame(h, sent[h.taken])
    case Deliver => h.(reader := Reading, events := h.events + [h.reader.e])
    case Stop => h.(reader := Stopped, dead := true)
    case Drain(order) => h.(reader := Draining(order), live := {})
    case DrainOne => DrainNext(h, h.reader.left)
    case _ => h
  }

  /** What every run keeps, and the steps need. */
  predicate Sane(s: Sys) {
    && D.Ok(s.d) && s.handled <= |s.h.written| && s.h.taken <= |s.d.io.sent|
    && (forall i :: 0 <= i < |s.h.written| ==> FrameOk(s.h.written[i]))
    && (forall i :: 0 <= i < |s.h.tasks| ==> TaskOk(s.h.tasks[i]))
  }

  predicate TaskOk(t: Task) {
    match t
    case Inserting(f) => FrameOk(f) && f.ty == T_OPEN
    case Checking(f) => FrameOk(f)
    case Writing(f) => FrameOk(f)
    case Removing(_) => true
    case Idle => true
  }

  /** The daemon keeps its distro's name in 128 bytes, the last of them 0. */
  const MAX_NAME: nat := 127

  /** The daemon announces its distro, if it knows it, before anything else. */
  function Start(name: Bytes): (s: Sys)
    requires |name| <= MAX_NAME
    ensures Sane(s)
  {
    var d := D.STARTED;
    Sys(Host(0, {}, false, true, [], [], Reading, 0, [], {}, {}, []),
        if name == [] then d else d.(io := D.Send(d.io, HelloFrame(name))), 0, false)
  }

  function Next(k: D.Kernel, s: Sys, step: Step): Sys
    requires Sane(s) && Enabled(s, step)
  {
    match step
    case Handle => s.(d := D.Dispatch(k, s.d, s.h.written[s.handled]), handled := s.handled + 1)
    case Forward(i, m) => s.(d := D.Forward(k, s.d, i, m))
    case Disconnect => s.(gone := true)
    case Abandon(i) => s.(d := D.EndSess(k, s.d, i, true))
    case _ => s.(h := HostStep(s.h, s.d.io.sent, step))
  }

  lemma OpenFrameOk(id: nat, cols: nat, rows: nat, cwd: Bytes)
    requires id < TWO32 && cols < TWO16 && rows < TWO16 && |cwd| + 12 + HEADER < TWO32
    ensures FrameOk(Frame(id, T_OPEN, OpenPayload(cols, rows, cwd)))
  {
    OpenArrives(cols, rows, cwd);
    hide ReadOpen;
    assert |OpenPayload(cols, rows, cwd)| == 12 + |cwd|;
  }

  lemma HostSane(k: D.Kernel, s: Sys, step: Step)
    requires Sane(s) && Enabled(s, step)
    requires !step.Handle? && !step.Forward? && !step.Abandon? && !step.Disconnect?
    ensures Sane(Next(k, s, step))
  {
    hide D.Ok, ReadOpen, OpenPayload, Told, FrameOk, D.FrameOk;
    match step {
      case Open(cols, rows, cwd) => OpenFrameOk(s.h.next + 1, cols, rows, cwd);
      case Call(f) => CallFrameOk(f);
      case _ =>
    }
  }

  lemma CallFrameOk(f: Frame)
    requires CallOk(f)
    ensures FrameOk(f)
  {
  }

  lemma SaneNext(k: D.Kernel, s: Sys, step: Step)
    requires Sane(s) && Enabled(s, step)
    ensures Sane(Next(k, s, step))
  {
    hide D.Ok, TaskOk, FrameOk, D.Dispatch, D.EndSess, D.FrameOk;
    match step {
      case Handle => SentGrows(k, s.d, s.h.written[s.handled]);
      case Forward(i, m) => EndGrows(k, s.d, i, false);
      case Abandon(i) => EndGrows(k, s.d, i, true);
      case Disconnect =>
      case _ => HostSane(k, s, step);
    }
  }

  lemma SentGrows(k: D.Kernel, d: D.Daemon, f: Frame)
    requires D.Ok(d) && FrameOk(f)
    ensures d.io.sent <= D.Dispatch(k, d, f).io.sent
  {
    if f.ty == T_OPEN { D.OpenOpens(k, d, f); } else { D.OthersClose(k, d, f); }
    hide D.Dispatch, D.Ok;
  }

  lemma EndGrows(k: D.Kernel, d: D.Daemon, i: nat, killIt: bool)
    requires D.Ok(d) && i < |d.tab|
    ensures d.io.sent <= D.EndSess(k, d, i, killIt).io.sent
  {
  }

  /** Every step is enabled when it is taken. */
  predicate CanRun(k: D.Kernel, s: Sys, steps: seq<Step>)
    requires Sane(s)
    decreases |steps|
  {
    steps == [] ||
      (Enabled(s, steps[0]) &&
       (SaneNext(k, s, steps[0]); CanRun(k, Next(k, s, steps[0]), steps[1..])))
  }

  function Run(k: D.Kernel, s: Sys, steps: seq<Step>): (r: Sys)
    requires Sane(s) && CanRun(k, s, steps)
    ensures Sane(r)
    decreases |steps|
  {
    if steps == [] then s
    else
      SaneNext(k, s, steps[0]);
      Run(k, Next(k, s, steps[0]), steps[1..])
  }
}
