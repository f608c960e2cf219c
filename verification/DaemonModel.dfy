/** The daemon as a value: the table of 256 sessions, the frames it has sent, what it did to its
    sessions, and how it handles each frame from the host and each event of a session. Answers
    of the kernel are an arbitrary oracle, indexed by how often it has been asked. */
module DaemonModel {
  import opened Cells
  import opened Text
  import opened Wire

  const MAX_SESS: nat := 256

  /** The most one splice moves out of a terminal. */
  const MAX_CHUNK: nat := 0x10_0000

  datatype Slot = Slot(id: nat, pid: int, active: bool)
  type Table = seq<Slot>

  const FREE_SLOT: Slot := Slot(0, -1, false)

  /** How a shell ended. */
  datatype Wait = Exited(code: byte) | Signaled(sig: byte) | Unknown

  /** forkpty's answers (None: it failed) and waitpid's. */
  datatype Kernel = Kernel(fork: nat -> Option<nat>, wait: nat -> Wait)

  datatype Effect =
    | Spawned(id: nat, cols: nat, rows: nat, cwd: Bytes, shell: Bytes)
    | Wrote(id: nat, bytes: Bytes)
    | Resized(id: nat, cols: nat, rows: nat)
    | Killed(id: nat, sig: byte)
    | HungUp(id: nat)

  datatype Daemon = Daemon(tab: Table, io: Io)

  /** Frames sent, effects on sessions, and questions asked of the kernel. Once `faulted`, the
      source has read outside a frame, and what the model says from then on does not bind it. */
  datatype Io = Io(sent: seq<Frame>, effects: seq<Effect>, tick: nat, faulted: bool)

  const STARTED: Daemon := Daemon(Rep(MAX_SESS, FREE_SLOT), Io([], [], 0, false))

  predicate Holds(s: Slot, id: nat) { s.active && s.id == id }

  /** No two live sessions share an id. */
  predicate Distinct(tab: Table) {
    forall i, j :: 0 <= i < j < |tab| && tab[i].active && tab[j].active ==> tab[i].id != tab[j].id
  }

  /** The table is whole and unambiguous, and every frame sent fits the protocol's limit. */
  predicate Ok(d: Daemon) {
    && |d.tab| == MAX_SESS && Distinct(d.tab)
    && (forall i :: 0 <= i < MAX_SESS && d.tab[i].active ==> d.tab[i].id < TWO32 && d.tab[i].pid > 0)
    && (forall i :: 0 <= i < |d.io.sent| ==> FrameOk(d.io.sent[i]))
  }

  /** What the daemon sends: payloads within the limit, and exit codes that fit nine bits. */
  predicate FrameOk(f: Frame) {
    && Sendable(f) && |f.payload| <= MAX_CHUNK
    && (f.ty == T_EXIT ==> |f.payload| == 4 && Rd32(f.payload, 0) < MAX_CODE)
  }

  const MAX_CODE: nat := 384

  // ---- the table ------------------------------------------------------------------------------

  /** The slot of a live session, or the table's length. */
  function FindSess(tab: Table, id: nat): (i: nat)
    ensures i <= |tab|
    ensures i < |tab| ==> Holds(tab[i], id)
    ensures forall j :: 0 <= j < i ==> !Holds(tab[j], id)
  {
    if tab == [] || Holds(tab[0], id) then 0 else 1 + FindSess(tab[1..], id)
  }

  /** The first free slot, or the table's length. */
  function FreeSlot(tab: Table): (i: nat)
    ensures i <= |tab|
    ensures i < |tab| ==> !tab[i].active
    ensures forall j :: 0 <= j < i ==> tab[j].active
  {
    if tab == [] || !tab[0].active then 0 else 1 + FreeSlot(tab[1..])
  }

  /** The ids of live sessions. */
  ghost function Live(tab: Table): set<nat> {
    set i | 0 <= i < |tab| && tab[i].active :: tab[i].id
  }

  // ---- sending and ending ----------------------------------------------------------------------

  function Send(io: Io, f: Frame): Io { io.(sent := io.sent + [f]) }

  function Did(io: Io, e: Effect): Io { io.(effects := io.effects + [e]) }

  function ExitFrame(id: nat, code: nat): (f: Frame)
    requires id < TWO32 && code < MAX_CODE
    ensures f.id == id && f.ty == T_EXIT && FrameOk(f) && Rd32(f.payload, 0) == code
  {
    assert Le32(code)[0..4] == Le32(code);
    Le32Read(Le32(code), 0, code);
    Frame(id, T_EXIT, Le32(code))
  }

  function ExitCode(w: Wait): (code: nat)
    ensures code < MAX_CODE
  {
    match w
    case Exited(c) => c
    case Signaled(s) => 128 + s
    case Unknown => 1
  }

  /** End the session in slot i: hang up if asked, reap, tell the host. */
  function EndSess(k: Kernel, d: Daemon, i: nat, killIt: bool): (r: Daemon)
    requires Ok(d) && i < MAX_SESS
    ensures Ok(r)
  {
    var s := d.tab[i];
    if !s.active then d
    else
      var io := if killIt && s.pid > 0 then Did(d.io, HungUp(s.id)) else d.io;
      Daemon(d.tab[i := Slot(s.id, -1, false)],
             Send(io, ExitFrame(s.id, ExitCode(k.wait(io.tick)))).(tick := io.tick + 1))
  }

  /** Every live session from slot i on ends: the host is gone. */
  function EndFrom(k: Kernel, d: Daemon, i: nat): (r: Daemon)
    requires Ok(d) && i <= MAX_SESS
    ensures Ok(r)
    decreases MAX_SESS - i
  {
    if i == MAX_SESS then d else EndFrom(k, EndSess(k, d, i, true), i + 1)
  }

  // ---- frames from the host ----------------------------------------------------------------------

  const NO_SESSION: nat := 127

  function Refuse(d: Daemon, id: nat): (r: Daemon)
    requires Ok(d) && id < TWO32
    ensures Ok(r)
  {
    d.(io := Send(d.io, ExitFrame(id, NO_SESSION)))
  }

  function OpenSess(k: Kernel, d: Daemon, id: nat, cols: nat, rows: nat, cwd: Bytes, shell: Bytes): (r: Daemon)
    requires Ok(d) && id < TWO32
    ensures Ok(r)
  {
    if FindSess(d.tab, id) < MAX_SESS then d
    else
      var i := FreeSlot(d.tab);
      if i == MAX_SESS then Refuse(d, id)
      else
        var io := d.io.(tick := d.io.tick + 1);
        match k.fork(d.io.tick)
        case None => Refuse(d.(io := io), id)
        case Some(p) =>
          Daemon(d.tab[i := Slot(id, p + 1, true)],
                 Did(io, Spawned(id, if cols == 0 then 80 else cols, if rows == 0 then 24 else rows, cwd, shell)))
  }

  function HandleOpen(k: Kernel, d: Daemon, id: nat, p: Bytes): (r: Daemon)
    requires Ok(d) && id < TWO32 && |p| + HEADER < TWO32
    ensures Ok(r)
  {
    match ReadOpen(p)
    case Refused => Refuse(d, id)
    case Dropped => d
    case Overrun => d.(io := d.io.(faulted := true))
    case Launch(cols, rows, cwd, shell) => OpenSess(k, d, id, cols, rows, cwd, shell)
  }

  /** What a frame for a live session does to it. */
  function EffectOf(f: Frame, pid: int): Option<Effect> {
    if f.ty == T_DATA then Some(Wrote(f.id, f.payload))
    else if f.ty == T_RESIZE && |f.payload| >= 4 then Some(Resized(f.id, Rd16(f.payload, 0), Rd16(f.payload, 2)))
    else if f.ty == T_SIGNAL && |f.payload| >= 1 && pid > 0 then Some(Killed(f.id, f.payload[0]))
    else None
  }

  /** One frame from the host. */
  function Dispatch(k: Kernel, d: Daemon, f: Frame): (r: Daemon)
    requires Ok(d) && Sendable(f)
    ensures Ok(r)
  {
    if f.ty == T_OPEN then HandleOpen(k, d, f.id, f.payload)
    else
      var i := FindSess(d.tab, f.id);
      if i == MAX_SESS then d
      else if f.ty == T_CLOSE then EndSess(k, d, i, true)
      else
        match EffectOf(f, d.tab[i].pid)
        case None => d
        case Some(e) => d.(io := Did(d.io, e))
  }

  function DispatchAll(k: Kernel, d: Daemon, fs: seq<Frame>): (r: Daemon)
    requires Ok(d) && AllSendable(fs)
    ensures Ok(r)
  {
    if fs == [] then d
    else Dispatch(k, DispatchAll(k, d, fs[..|fs| - 1]), fs[|fs| - 1])
  }

  lemma {:induction false} DispatchAppend(k: Kernel, d: Daemon, fs: seq<Frame>, gs: seq<Frame>)
    requires Ok(d) && AllSendable(fs + gs)
    ensures AllSendable(fs) && AllSendable(gs)
    ensures DispatchAll(k, d, fs + gs) == DispatchAll(k, DispatchAll(k, d, fs), gs)
  {
    hide Ok, Dispatch, Sendable;
    var all := fs + gs;
    assert (forall i :: 0 <= i < |fs| ==> all[i] == fs[i]);
    assert (forall i :: 0 <= i < |gs| ==> all[|fs| + i] == gs[i]);
    if gs == [] {
      assert all == fs;
    } else {
      assert all[..|all| - 1] == fs + gs[..|gs| - 1];
      DispatchAppend(k, d, fs, gs[..|gs| - 1]);
    }
  }

  /** The daemon after reading the chunks one by one. */
  function FedAll(k: Kernel, d: Daemon, chunks: seq<Bytes>): (r: Daemon)
    requires Ok(d) && AllSendable(ReadAll(chunks).0)
    ensures Ok(r)
  {
    if chunks == [] then d
    else
      var (fs, tail) := ReadAll(chunks[..|chunks| - 1]);
      var gs := Decode(tail + chunks[|chunks| - 1]).0;
      DispatchAppend(k, d, fs, gs);
      DispatchAll(k, FedAll(k, d, chunks[..|chunks| - 1]), gs)
  }

  lemma {:induction false} FedAllIs(k: Kernel, d: Daemon, chunks: seq<Bytes>)
    requires Ok(d) && AllSendable(ReadAll(chunks).0)
    ensures FedAll(k, d, chunks) == DispatchAll(k, d, ReadAll(chunks).0)
  {
    hide Ok, Dispatch, Decode, AllSendable;
    if chunks != [] {
      var (fs, tail) := ReadAll(chunks[..|chunks| - 1]);
      var gs := Decode(tail + chunks[|chunks| - 1]).0;
      DispatchAppend(k, d, fs, gs);
      FedAllIs(k, d, chunks[..|chunks| - 1]);
    }
  }

  /** Frames written by the host have the same effect however their bytes are cut into reads:
      exactly these frames are handled, each once, in order. */
  lemma ReadsDoNotMatter(k: Kernel, d: Daemon, fs: seq<Frame>, chunks: seq<Bytes>)
    requires Ok(d) && AllSendable(fs) && Joined(chunks) == EncodedAll(fs)
    ensures ReadAll(chunks) == (fs, []) && FedAll(k, d, chunks) == DispatchAll(k, d, fs)
  {
    FramesArrive(fs, chunks);
    hide ReadAll;
    FedAllIs(k, d, chunks);
  }

  /** An OPEN from which the source would read outside its frame. */
  predicate Faults(f: Frame)
    requires Sendable(f)
  {
    f.ty == T_OPEN && ReadOpen(f.payload).Overrun?
  }

  lemma DispatchFaults(k: Kernel, d: Daemon, f: Frame)
    requires Ok(d) && Sendable(f)
    ensures Dispatch(k, d, f).io.faulted <==> d.io.faulted || Faults(f)
  {
    hide ReadOpen;
  }

  /** The source stays inside its frames exactly when no OPEN among them has a length that wraps
      (`Wire.ReadsInside` says which do). */
  lemma {:induction false} FaultsExactly(k: Kernel, d: Daemon, fs: seq<Frame>)
    requires Ok(d) && AllSendable(fs)
    ensures DispatchAll(k, d, fs).io.faulted <==> d.io.faulted || exists i :: 0 <= i < |fs| && Faults(fs[i])
  {
    hide Ok, Dispatch, Faults;
    if fs != [] {
      var n := |fs| - 1;
      FaultsExactly(k, d, fs[..n]);
      DispatchFaults(k, DispatchAll(k, d, fs[..n]), fs[n]);
      assert (exists i :: 0 <= i < n && Faults(fs[i])) <==> (exists i :: 0 <= i < n && Faults(fs[..n][i])) by {
        assert forall i :: 0 <= i < n ==> fs[..n][i] == fs[i];
      }
    }
  }

  // ---- events of a session ------------------------------------------------------------------------

  /** What the terminal side of a live session gives: some output, or its end. */
  datatype Master = Output(bytes: Bytes) | Ended | Again

  /** What splice or read on a terminal answers. */
  datatype Answer = Moved(bytes: Bytes) | Nothing | Failed(errno: Errno)
  datatype Errno = EINTR | EINVAL | ENOSYS | OTHER

  function Plain(a: Answer): Master {
    match a
    case Moved(b) => if b == [] then Ended else Output(b)
    case Nothing => Ended
    case Failed(e) => if e == EINTR then Again else Ended
  }

  predicate NoSplice(a: Answer) { a == Failed(EINVAL) || a == Failed(ENOSYS) }

  /** Splice first while it works; a kernel that cannot splice is read instead, from then on. */
  function Heard(useSplice: bool, splice: Answer, read: Answer): (Master, bool) {
    if useSplice && !NoSplice(splice) then (Plain(splice), true) else (Plain(read), false)
  }

  predicate ChunkOk(m: Master) { m.Output? ==> 1 <= |m.bytes| <= MAX_CHUNK }

  /** Forward one chunk of a session's output to the host, or end the session. */
  function Forward(k: Kernel, d: Daemon, i: nat, m: Master): (r: Daemon)
    requires Ok(d) && i < MAX_SESS && d.tab[i].active && ChunkOk(m)
    ensures Ok(r)
  {
    match m
    case Output(b) => d.(io := Send(d.io, Frame(d.tab[i].id, T_DATA, b)))
    case Ended => EndSess(k, d, i, false)
    case Again => d
  }

  // ---- what the table's operations mean for the set of live sessions -----------------------------

  lemma FoundIfLive(tab: Table, id: nat)
    ensures FindSess(tab, id) < |tab| <==> id in Live(tab)
  {
  }

  lemma Opened(tab: Table, i: nat, s: Slot)
    requires i < |tab| && !tab[i].active && s.active
    ensures Live(tab[i := s]) == Live(tab) + {s.id}
  {
    var t := tab[i := s];
    forall id | id in Live(tab) ensures id in Live(t) {
      var j :| 0 <= j < |tab| && tab[j].active && tab[j].id == id;
      assert t[j] == tab[j];
    }
    assert t[i] == s;
  }

  lemma Closed(tab: Table, i: nat, s: Slot)
    requires i < |tab| && Distinct(tab) && tab[i].active && !s.active
    ensures Live(tab[i := s]) == Live(tab) - {tab[i].id}
  {
    var t := tab[i := s];
    forall id | id in Live(tab) && id != tab[i].id ensures id in Live(t) {
      var j :| 0 <= j < |tab| && tab[j].active && tab[j].id == id;
      assert t[j] == tab[j];
    }
  }

  lemma LastSlot(tab: Table)
    requires tab != []
    ensures var (init, last) := (tab[..|tab| - 1], tab[|tab| - 1]);
            Live(tab) == Live(init) + (if last.active then {last.id} else {})
  {
    var init, last := tab[..|tab| - 1], tab[|tab| - 1];
    forall id | id in Live(init) ensures id in Live(tab) {
      var j :| 0 <= j < |init| && init[j].active && init[j].id == id;
      assert tab[j] == init[j];
    }
  }

  lemma LastIsNew(tab: Table)
    requires tab != [] && Distinct(tab) && tab[|tab| - 1].active
    ensures tab[|tab| - 1].id !in Live(tab[..|tab| - 1])
  {
  }

  predicate AllActive(tab: Table) { forall j :: 0 <= j < |tab| ==> tab[j].active }

  lemma FullMeans(tab: Table)
    ensures FreeSlot(tab) == |tab| <==> AllActive(tab)
  {
  }

  lemma AllButLast(init: Table, last: Slot)
    ensures AllActive(init + [last]) <==> AllActive(init) && last.active
  {
    var tab := init + [last];
    if AllActive(tab) {
      assert tab[|init|] == last;
      forall j | 0 <= j < |init| ensures init[j].active { assert tab[j] == init[j]; }
    }
  }

  lemma LastFree(tab: Table)
    requires tab != []
    ensures var (init, last) := (tab[..|tab| - 1], tab[|tab| - 1]);
            FreeSlot(tab) == |tab| <==> FreeSlot(init) == |init| && last.active
  {
    hide FreeSlot, AllActive;
    var init, last := tab[..|tab| - 1], tab[|tab| - 1];
    assert tab == init + [last];
    FullMeans(tab);
    FullMeans(init);
    AllButLast(init, last);
  }

  /** The table is full exactly when it holds as many sessions as it has slots. */
  lemma {:induction false} FullTable(tab: Table)
    requires Distinct(tab)
    ensures |Live(tab)| <= |tab|
    ensures FreeSlot(tab) == |tab| <==> |Live(tab)| == |tab|
  {
    if tab == [] {
      assert Live(tab) == {};
    } else {
      var init := tab[..|tab| - 1];
      assert Distinct(init);
      hide FreeSlot, Live, Distinct;
      FullTable(init);
      LastSlot(tab);
      LastFree(tab);
      if tab[|tab| - 1].active { LastIsNew(tab); }
    }
  }

  /** A session ends: its id leaves the live set, exactly one EXIT frame with the shell's code is
      sent for it, and nothing changes for the others. */
  lemma EndSessEnds(k: Kernel, d: Daemon, i: nat, killIt: bool)
    requires Ok(d) && i < MAX_SESS && d.tab[i].active
    ensures var r := EndSess(k, d, i, killIt);
            && Live(r.tab) == Live(d.tab) - {d.tab[i].id}
            && r.io.sent == d.io.sent + [ExitFrame(d.tab[i].id, ExitCode(k.wait(d.io.tick)))]
  {
    Closed(d.tab, i, Slot(d.tab[i].id, -1, false));
  }

  /** OPEN of an id that is not live makes it live, silently, or answers it with EXIT 127; and
      it is refused only when all 256 slots are taken or the fork fails. */
  lemma OpenOpens(k: Kernel, d: Daemon, f: Frame)
    requires Ok(d) && Sendable(f) && f.ty == T_OPEN && ReadOpen(f.payload).Launch?
    ensures var r := Dispatch(k, d, f);
            if f.id in Live(d.tab) then r == d
            else if |Live(d.tab)| == MAX_SESS || k.fork(d.io.tick).None? then
              r.tab == d.tab && r.io.sent == d.io.sent + [ExitFrame(f.id, NO_SESSION)]
            else Live(r.tab) == Live(d.tab) + {f.id} && r.io.sent == d.io.sent
  {
    hide FreeSlot, FindSess;
    FoundIfLive(d.tab, f.id);
    FullTable(d.tab);
    var i := FreeSlot(d.tab);
    if i < MAX_SESS && k.fork(d.io.tick).Some? {
      Opened(d.tab, i, Slot(f.id, k.fork(d.io.tick).value + 1, true));
    }
  }

  /** CLOSE of a live id ends it; no other frame ends a session or sends anything. */
  lemma OthersClose(k: Kernel, d: Daemon, f: Frame)
    requires Ok(d) && Sendable(f) && f.ty != T_OPEN
    ensures var r := Dispatch(k, d, f);
            if f.ty == T_CLOSE && f.id in Live(d.tab) then
              && Live(r.tab) == Live(d.tab) - {f.id}
              && r.io.sent == d.io.sent + [ExitFrame(f.id, ExitCode(k.wait(d.io.tick)))]
            else r.tab == d.tab && r.io.sent == d.io.sent
  {
    FoundIfLive(d.tab, f.id);
    var i := FindSess(d.tab, f.id);
    if i < MAX_SESS {
      EndSessEnds(k, d, i, true);
    }
  }
}
