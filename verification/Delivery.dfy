/** What arrives: over every run the bytes a shell writes reach the owner, and the bytes the owner
    types reach the shell, complete and in order, and each request has the effect it asks for. The
    laws speak of payloads and effects, not of the functions that carry them. */
module Delivery {
  import opened Cells
  import opened Text
  import opened Wire
  import opened ProtocolModel
  import opened Protocol
  import D = DaemonModel

  // ---- from the daemon's frames to the owner's events -------------------------------------------

  /** The bytes of a session's Data events, in order. */
  function DataOf(es: seq<Event>, id: nat): Bytes {
    if es == [] then []
    else
      var e := es[|es| - 1];
      DataOf(es[..|es| - 1], id) + (if e.Data? && e.id == id then e.bytes else [])
  }

  /** The payloads of a session's DATA frames, in order. */
  function PayloadsOf(fs: seq<Frame>, id: nat): Bytes {
    if fs == [] then []
    else
      var f := fs[|fs| - 1];
      PayloadsOf(fs[..|fs| - 1], id) + (if f.ty == T_DATA && f.id == id then f.payload else [])
  }

  /** The texts of the Info events, ... */
  function InfosOf(es: seq<Event>): seq<Str> {
    if es == [] then []
    else
      var e := es[|es| - 1];
      InfosOf(es[..|es| - 1]) + (if e.Info? then [e.distro] else [])
  }

  /** ... and the UTF-8 payloads of the INFO frames that are not empty. */
  function NameOf(f: Frame): seq<Bytes> {
    if f.ty == T_INFO && f.payload != [] && WellFormed(f.payload) then [f.payload] else []
  }

  function NamesOf(fs: seq<Frame>): seq<Bytes> {
    if fs == [] then [] else NamesOf(fs[..|fs| - 1]) + NameOf(fs[|fs| - 1])
  }

  lemma {:induction false} DataAppend(a: seq<Event>, b: seq<Event>, id: nat)
    ensures DataOf(a + b, id) == DataOf(a, id) + DataOf(b, id)
  {
    if b == [] {
      assert a + b == a && DataOf(a, id) + [] == DataOf(a, id);
    } else {
      var n := |b| - 1;
      DataAppend(a, b[..n], id);
      assert (a + b)[..|a| + n] == a + b[..n] && (a + b)[|a| + n] == b[n];
      var last: Bytes := if b[n].Data? && b[n].id == id then b[n].bytes else [];
      assert DataOf(a, id) + (DataOf(b[..n], id) + last) == DataOf(a, id) + DataOf(b[..n], id) + last;
    }
  }

  lemma {:induction false} InfosAppend(a: seq<Event>, b: seq<Event>)
    ensures InfosOf(a + b) == InfosOf(a) + InfosOf(b)
  {
    if b == [] {
      assert a + b == a && InfosOf(a) + [] == InfosOf(a);
    } else {
      var n := |b| - 1;
      InfosAppend(a, b[..n]);
      assert (a + b)[..|a| + n] == a + b[..n] && (a + b)[|a| + n] == b[n];
      var last: seq<Str> := if b[n].Info? then [b[n].distro] else [];
      assert InfosOf(a) + (InfosOf(b[..n]) + last) == InfosOf(a) + InfosOf(b[..n]) + last;
    }
  }

  /** One frame: its bytes or its text, and nothing else. */
  /** An EXIT payload read as a signed 32-bit number, or 0 when it is too short for one. */
  predicate CodeOf(f: Frame, code: int) {
    if |f.payload| >= 4 then -0x8000_0000 <= code < 0x8000_0000 && (code - Rd32(f.payload, 0)) % TWO32 == 0
    else code == 0
  }

  lemma OneTold(f: Frame, id: nat)
    ensures DataOf(Told(f), id) == if f.ty == T_DATA && f.id == id then f.payload else []
    ensures f.ty == T_INFO && f.payload != [] && WellFormed(f.payload) ==>
      |InfosOf(Told(f))| == 1 && AllScalars(InfosOf(Told(f))[0]) && Encode(InfosOf(Told(f))[0]) == f.payload
    ensures !(f.ty == T_INFO && f.payload != [] && WellFormed(f.payload)) ==> InfosOf(Told(f)) == []
    ensures f.ty == T_EXIT ==> |Told(f)| == 1 && Told(f)[0].Exit? && CodeOf(f, Told(f)[0].code)
  {
    hide Encode, Lossy, Rd32;
    var es := Told(f);
    assert es != [] ==> es[..0] == [] && es[0] == es[|es| - 1];
    assert DataOf([], id) == [] && InfosOf([]) == [];
    assert forall b: Bytes :: [] + b == b;
  }

  lemma {:induction false} ToldData(fs: seq<Frame>, id: nat)
    ensures DataOf(ToldAll(fs), id) == PayloadsOf(fs, id)
  {
    if fs != [] {
      var n := |fs| - 1;
      ToldData(fs[..n], id);
      DataAppend(ToldAll(fs[..n]), Told(fs[n]), id);
      OneTold(fs[n], id);
      hide Told;
    }
  }

  /** Texts stand for the payloads they encode to. */
  predicate Spell(ts: seq<Str>, bs: seq<Bytes>) {
    |ts| == |bs| && forall i :: 0 <= i < |ts| ==> AllScalars(ts[i]) && Encode(ts[i]) == bs[i]
  }

  lemma SpellMore(ts: seq<Str>, bs: seq<Bytes>, us: seq<Str>, cs: seq<Bytes>)
    requires Spell(ts, bs) && Spell(us, cs)
    ensures Spell(ts + us, bs + cs)
  {
  }

  lemma OneNamed(f: Frame)
    ensures Spell(InfosOf(Told(f)), NameOf(f))
  {
    OneTold(f, 0);
    hide Told, Encode, WellFormed, InfosOf;
  }

  lemma {:induction false} ToldNames(fs: seq<Frame>)
    ensures Spell(InfosOf(ToldAll(fs)), NamesOf(fs))
  {
    if fs != [] {
      hide Told, Spell, NameOf;
      var n := |fs| - 1;
      ToldNames(fs[..n]);
      InfosAppend(ToldAll(fs[..n]), Told(fs[n]));
      OneNamed(fs[n]);
      SpellMore(InfosOf(ToldAll(fs[..n])), NamesOf(fs[..n]), InfosOf(Told(fs[n])), NameOf(fs[n]));
      hide InfosOf;
    }
  }

  lemma {:induction false} LostSaysNothing(ids: seq<nat>, id: nat)
    ensures DataOf(Lost(ids), id) == [] && InfosOf(Lost(ids)) == []
  {
    if ids != [] {
      LostSaysNothing(ids[..|ids| - 1], id);
      assert Lost(ids)[..|ids| - 1] == Lost(ids[..|ids| - 1]);
    }
  }

  /** What a reader of some frames has told, with the sessions it lost, is their bytes and names. */
  lemma ReadIsDelivered(read: seq<Frame>, lost: seq<nat>)
    ensures forall id :: DataOf(ToldAll(read) + Lost(lost), id) == PayloadsOf(read, id)
    ensures Spell(InfosOf(ToldAll(read) + Lost(lost)), NamesOf(read))
  {
    forall id ensures DataOf(ToldAll(read) + Lost(lost), id) == PayloadsOf(read, id) {
      hide ToldAll, Lost;
      DataAppend(ToldAll(read), Lost(lost), id);
      LostSaysNothing(lost, id);
      ToldData(read, id);
      assert PayloadsOf(read, id) + [] == PayloadsOf(read, id);
    }
    hide ToldAll, Lost;
    InfosAppend(ToldAll(read), Lost(lost));
    LostSaysNothing(lost, 0);
    ToldNames(read);
    assert InfosOf(ToldAll(read)) + [] == InfosOf(ToldAll(read));
  }

  /** Over every run the owner has, for each session, exactly the bytes of the DATA frames read so
      far, in order, and exactly the names announced. */
  lemma BytesDelivered(k: D.Kernel, name: Bytes, steps: seq<Step>, id: nat)
    requires |name| <= MAX_NAME && CanRun(k, Start(name), steps)
    ensures var s := Run(k, Start(name), steps);
            var es := s.h.events + InHand(s.h.reader);
            && DataOf(es, id) == PayloadsOf(s.d.io.sent[..s.h.taken], id)
            && Spell(InfosOf(es), NamesOf(s.d.io.sent[..s.h.taken]))
  {
    EventsInOrder(k, name, steps);
    hide *;
    var s := Run(k, Start(name), steps);
    ReadIsDelivered(s.d.io.sent[..s.h.taken], s.h.lost);
  }

  // ---- from a session's output to the daemon's frames --------------------------------------------

  /** What a step takes out of a session's terminal. */
  function OutputBy(s: Sys, step: Step, id: nat): Bytes {
    if step.Forward? && step.m.Output? && step.slot < |s.d.tab| && s.d.tab[step.slot].id == id then step.m.bytes else []
  }

  function OutputOf(k: D.Kernel, s: Sys, steps: seq<Step>, id: nat): Bytes
    requires Sane(s) && CanRun(k, s, steps)
    decreases |steps|
  {
    if steps == [] then []
    else
      SaneNext(k, s, steps[0]);
      OutputBy(s, steps[0], id) + OutputOf(k, Next(k, s, steps[0]), steps[1..], id)
  }

  lemma PayloadAdded(fs: seq<Frame>, f: Frame, id: nat)
    ensures PayloadsOf(fs + [f], id) == PayloadsOf(fs, id) + (if f.ty == T_DATA && f.id == id then f.payload else [])
  {
    assert (fs + [f])[..|fs|] == fs;
  }

  /** The daemon answers frames, and ends sessions, without DATA. */
  lemma HandleSaysNoData(k: D.Kernel, d: D.Daemon, f: Frame, id: nat)
    requires D.Ok(d) && FrameOk(f)
    ensures PayloadsOf(D.Dispatch(k, d, f).io.sent, id) == PayloadsOf(d.io.sent, id)
  {
    FrameSendable(f);
    hide D.Dispatch, D.Ok, PayloadsOf, FrameOk;
    var r := D.Dispatch(k, d, f);
    NoDataIn(k, d, f);
    if r.io.sent != d.io.sent {
      PayloadAdded(d.io.sent, r.io.sent[|d.io.sent|], id);
      assert PayloadsOf(d.io.sent, id) + [] == PayloadsOf(d.io.sent, id);
    }
  }

  lemma NoDataIn(k: D.Kernel, d: D.Daemon, f: Frame)
    requires D.Ok(d) && FrameOk(f)
    ensures var (was, now) := (d.io.sent, D.Dispatch(k, d, f).io.sent);
            now == was || (|now| == |was| + 1 && now == was + [now[|was|]] && now[|was|].ty == T_EXIT)
  {
    if f.ty == T_OPEN { D.OpenOpens(k, d, f); } else { D.OthersClose(k, d, f); }
    hide D.Dispatch, D.Ok;
  }

  lemma EndSaysNoData(k: D.Kernel, d: D.Daemon, i: nat, killIt: bool, id: nat)
    requires D.Ok(d) && i < |d.tab| && d.tab[i].active
    ensures PayloadsOf(D.EndSess(k, d, i, killIt).io.sent, id) == PayloadsOf(d.io.sent, id)
  {
    D.EndSessEnds(k, d, i, killIt);
    var f := D.ExitFrame(d.tab[i].id, D.ExitCode(k.wait(d.io.tick)));
    hide D.EndSess, D.Ok, PayloadsOf;
    PayloadAdded(d.io.sent, f, id);
    assert PayloadsOf(d.io.sent, id) + [] == PayloadsOf(d.io.sent, id);
  }

  lemma StepSends(k: D.Kernel, s: Sys, step: Step, id: nat)
    requires Sane(s) && Enabled(s, step)
    ensures PayloadsOf(Next(k, s, step).d.io.sent, id) == PayloadsOf(s.d.io.sent, id) + OutputBy(s, step, id)
  {
    assert PayloadsOf(s.d.io.sent, id) + [] == PayloadsOf(s.d.io.sent, id);
    hide D.Dispatch, D.EndSess, D.Ok, FrameOk, TaskOk, PayloadsOf;
    match step {
      case Handle => HandleSaysNoData(k, s.d, s.h.written[s.handled], id);
      case Forward(i, m) =>
        if m.Ended? { EndSaysNoData(k, s.d, i, false, id); }
        if m.Output? { PayloadAdded(s.d.io.sent, Frame(s.d.tab[i].id, T_DATA, m.bytes), id); }
      case Abandon(i) => EndSaysNoData(k, s.d, i, true, id);
      case _ =>
    }
  }

  lemma {:induction false} RunSends(k: D.Kernel, s: Sys, steps: seq<Step>, id: nat)
    requires Sane(s) && CanRun(k, s, steps)
    ensures PayloadsOf(Run(k, s, steps).d.io.sent, id) == PayloadsOf(s.d.io.sent, id) + OutputOf(k, s, steps, id)
    decreases |steps|
  {
    hide Sane, Next, Enabled, PayloadsOf, OutputBy;
    if steps == [] {
      assert PayloadsOf(s.d.io.sent, id) + [] == PayloadsOf(s.d.io.sent, id);
    } else {
      SaneNext(k, s, steps[0]);
      StepSends(k, s, steps[0], id);
      var r := Next(k, s, steps[0]);
      RunSends(k, r, steps[1..], id);
      var was, now, rest := PayloadsOf(s.d.io.sent, id), OutputBy(s, steps[0], id), OutputOf(k, r, steps[1..], id);
      assert was + now + rest == was + (now + rest);
    }
  }

  lemma {:induction false} FewerPayloads(fs: seq<Frame>, n: nat, id: nat)
    requires n <= |fs|
    ensures PayloadsOf(fs[..n], id) <= PayloadsOf(fs, id)
  {
    if n < |fs| {
      var init := fs[..|fs| - 1];
      FewerPayloads(init, n, id);
      assert init[..n] == fs[..n];
    } else {
      assert fs[..n] == fs;
    }
  }

  /** Output arrives, over every run: what the owner has of a session is a prefix of what its
      terminal gave, and all of it once the reader has taken every frame. */
  lemma OutputArrives(k: D.Kernel, name: Bytes, steps: seq<Step>, id: nat)
    requires |name| <= MAX_NAME && CanRun(k, Start(name), steps)
    ensures var s := Run(k, Start(name), steps);
            var got := DataOf(s.h.events + InHand(s.h.reader), id);
            && got <= OutputOf(k, Start(name), steps, id)
            && (s.h.taken == |s.d.io.sent| ==> got == OutputOf(k, Start(name), steps, id))
  {
    var s := Run(k, Start(name), steps);
    BytesDelivered(k, name, steps, id);
    RunSends(k, Start(name), steps, id);
    NothingAtFirst(name, id);
    FewerPayloads(s.d.io.sent, s.h.taken, id);
    hide PayloadsOf, Run, CanRun, Start, OutputOf;
    assert s.h.taken == |s.d.io.sent| ==> s.d.io.sent[..s.h.taken] == s.d.io.sent;
    assert [] + OutputOf(k, Start(name), steps, id) == OutputOf(k, Start(name), steps, id);
  }

  lemma NothingAtFirst(name: Bytes, id: nat)
    requires |name| <= MAX_NAME
    ensures PayloadsOf(Start(name).d.io.sent, id) == []
  {
    hide D.Ok, FrameOk;
    assert PayloadsOf([], id) == [];
    PayloadAdded([], HelloFrame(name), id);
    assert [] + [HelloFrame(name)] == [HelloFrame(name)];
  }

  // ---- what a frame does to a session ---------------------------------------------------------------

  /** The effects a frame adds. */
  predicate Adds(k: D.Kernel, d: D.Daemon, f: Frame, es: seq<D.Effect>)
    requires D.Ok(d) && Sendable(f)
  {
    D.Dispatch(k, d, f).io.effects == d.io.effects + es
  }

  lemma LiveSlot(d: D.Daemon, id: nat)
    requires D.Ok(d)
    ensures id in D.Live(d.tab) <==> D.FindSess(d.tab, id) < D.MAX_SESS
    ensures id in D.Live(d.tab) ==> d.tab[D.FindSess(d.tab, id)].pid > 0
    ensures id in D.Live(d.tab) ==> D.Holds(d.tab[D.FindSess(d.tab, id)], id)
  {
    D.FoundIfLive(d.tab, id);
  }

  /** Typed bytes are written to the session's terminal as they are; ... */
  lemma DataIsWritten(k: D.Kernel, d: D.Daemon, id: nat, bytes: Bytes)
    requires D.Ok(d) && id in D.Live(d.tab) && Sendable(Frame(id, T_DATA, bytes))
    ensures Adds(k, d, Frame(id, T_DATA, bytes), [D.Wrote(id, bytes)])
  {
    LiveSlot(d, id);
    hide D.FindSess, D.Ok, D.Live;
  }

  /** ... a size sets the terminal's columns and rows; ... */
  lemma SizeIsSet(k: D.Kernel, d: D.Daemon, id: nat, cols: nat, rows: nat)
    requires D.Ok(d) && id in D.Live(d.tab) && cols < TWO16 && rows < TWO16 && id < TWO32
    ensures Adds(k, d, Frame(id, T_RESIZE, Le16(cols) + Le16(rows)), [D.Resized(id, cols, rows)])
  {
    LiveSlot(d, id);
    var p := Le16(cols) + Le16(rows);
    assert Rd16(p, 0) == cols && Rd16(p, 2) == rows by {
      assert p[0] == Le16(cols)[0] && p[1] == Le16(cols)[1] && p[2] == Le16(rows)[0] && p[3] == Le16(rows)[1];
    }
    hide D.FindSess, D.Ok, D.Live, Rd16, Le16;
  }

  /** ... a signal is sent to the shell; ... */
  lemma SignalIsSent(k: D.Kernel, d: D.Daemon, id: nat, sig: byte)
    requires D.Ok(d) && id in D.Live(d.tab) && id < TWO32
    ensures Adds(k, d, Frame(id, T_SIGNAL, [sig]), [D.Killed(id, sig)])
  {
    LiveSlot(d, id);
    hide D.FindSess, D.Ok, D.Live;
  }

  /** ... a close hangs up on it; ... */
  lemma CloseHangsUp(k: D.Kernel, d: D.Daemon, id: nat)
    requires D.Ok(d) && id in D.Live(d.tab) && id < TWO32
    ensures Adds(k, d, Frame(id, T_CLOSE, []), [D.HungUp(id)])
  {
    LiveSlot(d, id);
    hide D.FindSess, D.Ok, D.Live;
  }

  /** ... an OPEN that is granted starts a shell of the size and in the directory asked for, ... */
  lemma OpenSpawns(k: D.Kernel, d: D.Daemon, id: nat, cols: nat, rows: nat, cwd: Bytes)
    requires D.Ok(d) && id < TWO32 && cols < TWO16 && rows < TWO16 && |cwd| + 12 + HEADER < TWO32 && 0 !in cwd
    requires id !in D.Live(d.tab) && |D.Live(d.tab)| < D.MAX_SESS && k.fork(d.io.tick).Some?
    ensures Sendable(Frame(id, T_OPEN, OpenPayload(cols, rows, cwd)))
    ensures Adds(k, d, Frame(id, T_OPEN, OpenPayload(cols, rows, cwd)),
                 [D.Spawned(id, Max(cols, 1), Max(rows, 1), cwd, [])])
  {
    OpenArrives(cols, rows, cwd);
    OpenFrameOk(id, cols, rows, cwd);
    LiveSlot(d, id);
    D.FullTable(d.tab);
    hide D.FindSess, D.FreeSlot, D.Live, ReadOpen, OpenPayload;
  }

  /** ... and what concerns no live session, or is too short, does nothing. */
  lemma NothingDone(k: D.Kernel, d: D.Daemon, f: Frame)
    requires D.Ok(d) && Sendable(f) && f.ty != T_OPEN
    requires f.id !in D.Live(d.tab) || (f.ty == T_RESIZE && |f.payload| < 4) || (f.ty == T_SIGNAL && f.payload == [])
             || f.ty == 0 || f.ty > T_CLOSE
    ensures Adds(k, d, f, [])
  {
    LiveSlot(d, f.id);
    hide D.FindSess, D.Live, Rd16;
    assert d.io.effects + [] == d.io.effects;
  }

  // ---- keystrokes over any frames, reads and runs ------------------------------------------------------

  /** All that was written to a session's terminal. */
  function WrittenTo(es: seq<D.Effect>, id: nat): Bytes {
    if es == [] then []
    else
      var e := es[|es| - 1];
      WrittenTo(es[..|es| - 1], id) + (if e.Wrote? && e.id == id then e.bytes else [])
  }

  /** The payload of a DATA frame, if its session is live. */
  ghost function TypedBy(d: D.Daemon, f: Frame, id: nat): Bytes {
    if f.ty == T_DATA && f.id == id && id in D.Live(d.tab) then f.payload else []
  }

  ghost function TypedIn(k: D.Kernel, d: D.Daemon, fs: seq<Frame>, id: nat): Bytes
    requires D.Ok(d) && AllSendable(fs)
  {
    if fs == [] then []
    else
      var n := |fs| - 1;
      TypedIn(k, d, fs[..n], id) + TypedBy(D.DispatchAll(k, d, fs[..n]), fs[n], id)
  }

  lemma EffectAdded(es: seq<D.Effect>, e: D.Effect, id: nat)
    ensures WrittenTo(es + [e], id) == WrittenTo(es, id) + (if e.Wrote? && e.id == id then e.bytes else [])
  {
    assert (es + [e])[..|es|] == es;
  }

  lemma OneWritten(k: D.Kernel, d: D.Daemon, f: Frame, id: nat)
    requires D.Ok(d) && Sendable(f)
    ensures WrittenTo(D.Dispatch(k, d, f).io.effects, id) == WrittenTo(d.io.effects, id) + TypedBy(d, f, id)
  {
    var was, r := d.io.effects, D.Dispatch(k, d, f);
    assert WrittenTo(was, id) + [] == WrittenTo(was, id);
    if f.ty == T_DATA {
      if f.id in D.Live(d.tab) {
        DataIsWritten(k, d, f.id, f.payload);
        EffectAdded(was, D.Wrote(f.id, f.payload), id);
      } else {
        NothingDone(k, d, f);
        assert was + [] == was;
      }
      hide D.Dispatch, D.Ok, D.Live, WrittenTo;
    } else {
      NotTyped(k, d, f);
      if r.io.effects != was { EffectAdded(was, r.io.effects[|was|], id); }
      hide D.Dispatch, D.Ok, D.Live, WrittenTo;
    }
  }

  lemma NotTyped(k: D.Kernel, d: D.Daemon, f: Frame)
    requires D.Ok(d) && Sendable(f) && f.ty != T_DATA
    ensures var (was, now) := (d.io.effects, D.Dispatch(k, d, f).io.effects);
            now == was || (|now| == |was| + 1 && now == was + [now[|was|]] && !now[|was|].Wrote?)
  {
    hide ReadOpen, D.FindSess, D.FreeSlot, Rd16;
  }

  /** Over any frames, what is written to a session's terminal is what came for it while it was
      live, complete and in order. */
  lemma {:induction false} KeystrokesArrive(k: D.Kernel, d: D.Daemon, fs: seq<Frame>, id: nat)
    requires D.Ok(d) && AllSendable(fs)
    ensures WrittenTo(D.DispatchAll(k, d, fs).io.effects, id) == WrittenTo(d.io.effects, id) + TypedIn(k, d, fs, id)
  {
    hide D.Ok, D.Dispatch, D.Live, WrittenTo, TypedBy;
    var was := WrittenTo(d.io.effects, id);
    if fs == [] {
      assert was + [] == was;
    } else {
      var n := |fs| - 1;
      KeystrokesArrive(k, d, fs[..n], id);
      var m := D.DispatchAll(k, d, fs[..n]);
      OneWritten(k, m, fs[n], id);
      var a, b := TypedIn(k, d, fs[..n], id), TypedBy(m, fs[n], id);
      assert was + a + b == was + (a + b);
    }
  }

  /** A session's DATA frames, as SendData writes them. */
  function Typing(id: nat, parts: seq<Bytes>): (fs: seq<Frame>)
    ensures |fs| == |parts| && forall i :: 0 <= i < |parts| ==> fs[i] == Frame(id, T_DATA, parts[i])
  {
    seq(|parts|, i requires 0 <= i < |parts| => Frame(id, T_DATA, parts[i]))
  }

  lemma {:induction false} TypingKeeps(k: D.Kernel, d: D.Daemon, id: nat, parts: seq<Bytes>)
    requires D.Ok(d) && AllSendable(Typing(id, parts)) && id in D.Live(d.tab)
    ensures D.DispatchAll(k, d, Typing(id, parts)).tab == d.tab
    ensures TypedIn(k, d, Typing(id, parts), id) == Joined(parts)
  {
    hide D.Ok, D.Dispatch, D.Live;
    if parts != [] {
      var n := |parts| - 1;
      var fs := Typing(id, parts);
      assert fs[..n] == Typing(id, parts[..n]);
      TypingKeeps(k, d, id, parts[..n]);
      D.OthersClose(k, D.DispatchAll(k, d, fs[..n]), fs[n]);
    }
  }

  /** End to end: whatever is typed into a live session, in any parts, written by SendData and cut
      into reads in any way, is written to its terminal byte for byte. */
  lemma TypingArrives(k: D.Kernel, d: D.Daemon, id: nat, parts: seq<Bytes>, chunks: seq<Bytes>)
    requires D.Ok(d) && id in D.Live(d.tab) && AllSendable(Typing(id, parts))
    requires Joined(chunks) == EncodedAll(Typing(id, parts))
    ensures AllSendable(ReadAll(chunks).0)
    ensures WrittenTo(D.FedAll(k, d, chunks).io.effects, id) == WrittenTo(d.io.effects, id) + Joined(parts)
  {
    hide D.Ok, ReadAll, D.FedAll, D.DispatchAll, WrittenTo, TypedIn, EncodedAll, D.Live, AllSendable;
    D.ReadsDoNotMatter(k, d, Typing(id, parts), chunks);
    KeystrokesArrive(k, d, Typing(id, parts), id);
    TypingKeeps(k, d, id, parts);
  }

  /** What a step writes to a session's terminal: the frame handled, if it is the session's. */
  ghost function TypedStep(s: Sys, step: Step, id: nat): Bytes {
    if step.Handle? && s.handled < |s.h.written| then TypedBy(s.d, s.h.written[s.handled], id) else []
  }

  ghost function TypedRun(k: D.Kernel, s: Sys, steps: seq<Step>, id: nat): Bytes
    requires Sane(s) && CanRun(k, s, steps)
    decreases |steps|
  {
    if steps == [] then []
    else
      SaneNext(k, s, steps[0]);
      TypedStep(s, steps[0], id) + TypedRun(k, Next(k, s, steps[0]), steps[1..], id)
  }

  lemma EndWritesNothing(k: D.Kernel, d: D.Daemon, i: nat, killIt: bool, id: nat)
    requires D.Ok(d) && i < D.MAX_SESS && d.tab[i].active
    ensures D.EndSess(k, d, i, killIt).io.effects ==
      d.io.effects + (if killIt then [D.HungUp(d.tab[i].id)] else [])
    ensures WrittenTo(D.EndSess(k, d, i, killIt).io.effects, id) == WrittenTo(d.io.effects, id)
  {
    EffectAdded(d.io.effects, D.HungUp(d.tab[i].id), id);
    assert WrittenTo(d.io.effects, id) + [] == WrittenTo(d.io.effects, id);
    hide WrittenTo;
  }

  lemma StepTypes(k: D.Kernel, s: Sys, step: Step, id: nat)
    requires Sane(s) && Enabled(s, step)
    ensures WrittenTo(Next(k, s, step).d.io.effects, id) == WrittenTo(s.d.io.effects, id) + TypedStep(s, step, id)
  {
    assert WrittenTo(s.d.io.effects, id) + [] == WrittenTo(s.d.io.effects, id);
    hide D.Dispatch, D.EndSess, D.Ok, FrameOk, TaskOk, WrittenTo, TypedBy;
    match step {
      case Handle =>
        assert FrameOk(s.h.written[s.handled]);
        FrameSendable(s.h.written[s.handled]);
        OneWritten(k, s.d, s.h.written[s.handled], id);
      case Forward(i, m) => if m.Ended? { EndWritesNothing(k, s.d, i, false, id); }
      case Abandon(i) => EndWritesNothing(k, s.d, i, true, id);
      case _ =>
    }
  }

  lemma FrameSendable(f: Frame)
    requires FrameOk(f)
    ensures Sendable(f)
  {
  }

  /** Over every run of the whole system, what is written to a session's terminal is what was
      handled for it while it was live, complete and in order. */
  lemma {:induction false} KeystrokesOverRuns(k: D.Kernel, s: Sys, steps: seq<Step>, id: nat)
    requires Sane(s) && CanRun(k, s, steps)
    ensures WrittenTo(Run(k, s, steps).d.io.effects, id) ==
      WrittenTo(s.d.io.effects, id) + TypedRun(k, s, steps, id)
    decreases |steps|
  {
    hide Sane, Next, Enabled, WrittenTo, TypedStep;
    var was := WrittenTo(s.d.io.effects, id);
    if steps == [] {
      assert was + [] == was;
    } else {
      SaneNext(k, s, steps[0]);
      StepTypes(k, s, steps[0], id);
      var r := Next(k, s, steps[0]);
      KeystrokesOverRuns(k, r, steps[1..], id);
      var now, rest := TypedStep(s, steps[0], id), TypedRun(k, r, steps[1..], id);
      assert was + now + rest == was + (now + rest);
    }
  }

  // ---- how a session ends ---------------------------------------------------------------------------

  /** The owner is told how the shell ended: its exit code, 128 and the signal, or 1. */
  lemma EndIsTold(k: D.Kernel, d: D.Daemon, i: nat, killIt: bool)
    requires D.Ok(d) && i < D.MAX_SESS && d.tab[i].active
    ensures var (sent, w) := (D.EndSess(k, d, i, killIt).io.sent, k.wait(d.io.tick));
            |sent| == |d.io.sent| + 1 &&
            Told(sent[|d.io.sent|]) ==
              [Exit(d.tab[i].id, if w.Exited? then w.code else if w.Signaled? then 128 + w.sig else 1)]
  {
    D.EndSessEnds(k, d, i, killIt);
    hide D.EndSess, Rd32, Le32;
  }

  /** A session that cannot be opened is told to have ended with code 127. */
  lemma RefusalIsTold(k: D.Kernel, d: D.Daemon, f: Frame)
    requires D.Ok(d) && Sendable(f) && f.ty == T_OPEN && f.id !in D.Live(d.tab)
    requires |f.payload| < 8 ||
      (ReadOpen(f.payload).Launch? && (|D.Live(d.tab)| == 256 || k.fork(d.io.tick).None?))
    ensures var r := D.Dispatch(k, d, f);
            r.tab == d.tab && |r.io.sent| == |d.io.sent| + 1 && r.io.effects == d.io.effects
            && Told(r.io.sent[|d.io.sent|]) == [Exit(f.id, 127)]
  {
    LiveSlot(d, f.id);
    D.FullTable(d.tab);
    hide D.FindSess, D.FreeSlot, D.Live, Rd32, Le32;
  }

  /** A request whose directory is longer than its frame is ignored. */
  lemma TooLongIgnored(k: D.Kernel, d: D.Daemon, f: Frame)
    requires D.Ok(d) && Sendable(f) && f.ty == T_OPEN && |f.payload| >= 8
    requires |f.payload| < 8 + Rd32(f.payload, 4) < TWO32
    ensures D.Dispatch(k, d, f) == d
  {
    OpenRefused(f.payload);
    hide ReadOpen, D.Ok, Rd32;
  }

  /** However a terminal is read, its bytes are forwarded; it is asked again after an interruption,
      and any other answer ends the session. */
  lemma HeardMeans(useSplice: bool, splice: D.Answer, read: D.Answer)
    ensures var (m, still) := D.Heard(useSplice, splice, read);
            var cannot := splice == D.Failed(D.EINVAL) || splice == D.Failed(D.ENOSYS);
            var a := if useSplice && !cannot then splice else read;
            && still == (useSplice && !cannot)
            && (m.Output? <==> a.Moved? && a.bytes != []) && (m.Output? ==> m.bytes == a.bytes)
            && (m.Again? <==> a == D.Failed(D.EINTR))
  {
  }
}
