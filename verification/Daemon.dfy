/** The daemon as it runs: a fixed table of sessions and a growing frame buffer, both changed in
    place. Every method is proved against DaemonModel and Wire. */
module DaemonMachine {
  import opened Cells
  import opened Text
  import opened Wire
  import M = DaemonModel

  class Daemon {
    const sess: array<M.Slot>
    var io: M.Io
    var buf: array<byte>
    var len: nat
    var useSplice: bool

    ghost predicate Valid()
      reads this, sess
    {
      && sess.Length == M.MAX_SESS && len <= buf.Length && M.Ok(State())
    }

    ghost function State(): M.Daemon
      reads this, sess
    {
      M.Daemon(sess[..], io)
    }

    /** The bytes of the frame still incomplete. */
    ghost function Pending(): Bytes
      requires len <= buf.Length
      reads this, buf
    {
      buf[..len]
    }

    constructor ()
      ensures Valid() && fresh(sess) && fresh(buf) && State() == M.STARTED && Pending() == []
    {
      sess := new M.Slot[M.MAX_SESS](_ => M.FREE_SLOT);
      io := M.Io([], [], 0, false);
      buf := new byte[0];
      len, useSplice := 0, true;
      new;
      assert sess[..] == M.STARTED.tab;
    }

    method FindSess(id: nat) returns (i: nat)
      requires Valid()
      ensures i == M.FindSess(sess[..], id)
    {
      i := 0;
      while i < sess.Length
        invariant i <= sess.Length
        invariant M.FindSess(sess[..], id) == i + M.FindSess(sess[i..], id)
      {
        if M.Holds(sess[i], id) { return; }
        assert sess[i..][1..] == sess[i + 1..];
        i := i + 1;
      }
    }

    method FreeSlot() returns (i: nat)
      requires Valid()
      ensures i == M.FreeSlot(sess[..])
    {
      i := 0;
      while i < sess.Length
        invariant i <= sess.Length
        invariant M.FreeSlot(sess[..]) == i + M.FreeSlot(sess[i..])
      {
        if !sess[i].active { return; }
        assert sess[i..][1..] == sess[i + 1..];
        i := i + 1;
      }
    }

    method SendExit(id: nat, code: nat)
      requires id < TWO32 && code < M.MAX_CODE
      modifies `io
      ensures io == M.Send(old(io), M.ExitFrame(id, code))
    {
      io := M.Send(io, M.ExitFrame(id, code));
    }

    method EndSess(k: M.Kernel, i: nat, killIt: bool)
      requires Valid() && i < M.MAX_SESS
      modifies `io, sess
      ensures State() == M.EndSess(k, old(State()), i, killIt)
      ensures Valid()
    {
      var s := sess[i];
      assert s.active ==> s.id < TWO32;
      hide M.Ok;
      if !s.active { return; }
      if killIt && s.pid > 0 { io := M.Did(io, M.HungUp(s.id)); }
      var status := k.wait(io.tick);
      sess[i] := M.Slot(s.id, -1, false);
      SendExit(s.id, M.ExitCode(status));
      io := io.(tick := io.tick + 1);
      assert sess[..] == old(sess[..])[i := M.Slot(s.id, -1, false)];
    }

    method OpenSess(k: M.Kernel, id: nat, cols: nat, rows: nat, cwd: Bytes, shell: Bytes)
      requires Valid() && id < TWO32
      modifies `io, sess
      ensures State() == M.OpenSess(k, old(State()), id, cols, rows, cwd, shell)
      ensures Valid()
    {
      hide M.Ok, M.FindSess, M.FreeSlot;
      var f := FindSess(id);
      if f < M.MAX_SESS { return; }
      var i := FreeSlot();
      if i == M.MAX_SESS {
        SendExit(id, M.NO_SESSION);
        return;
      }
      var answer := k.fork(io.tick);
      io := io.(tick := io.tick + 1);
      if answer.None? {
        SendExit(id, M.NO_SESSION);
        return;
      }
      io := M.Did(io, M.Spawned(id, if cols == 0 then 80 else cols, if rows == 0 then 24 else rows, cwd, shell));
      sess[i] := M.Slot(id, answer.value + 1, true);
      assert sess[..] == old(sess[..])[i := M.Slot(id, answer.value + 1, true)];
    }

    /** Read the fields of an OPEN payload, minding every declared length. */
    static method ParseOpen(p: Bytes) returns (o: Opening)
      requires |p| + HEADER < TWO32
      ensures o == ReadOpen(p)
    {
      hide Rd16, Rd32, CStr;
      if |p| < 8 { return Refused; }
      var cols, rows := Rd16(p, 0), Rd16(p, 2);
      var cwdLen := Rd32(p, 4);
      var off := Add32(8, cwdLen);
      if off > |p| { return Dropped; }
      if 8 + cwdLen > |p| { return Overrun; }     // the source copies on, past the frame
      var cwd := CStr(p[8..off]);
      var shell := [];
      if Add32(off, 4) <= |p| {
        var shLen := Rd32(p, off);
        off := off + 4;
        if shLen != 0 && Add32(off, shLen) <= |p| {
          if off + shLen > |p| { return Overrun; }
          shell := CStr(p[off..off + shLen]);
        }
      }
      o := Launch(cols, rows, cwd, shell);
    }

    method HandleOpen(k: M.Kernel, id: nat, p: Bytes)
      requires Valid() && id < TWO32 && |p| + HEADER < TWO32
      modifies `io, sess
      ensures State() == M.HandleOpen(k, old(State()), id, p)
      ensures Valid()
    {
      hide M.Ok, ReadOpen, M.OpenSess;
      var o := ParseOpen(p);
      match o {
        case Refused => SendExit(id, M.NO_SESSION);
        case Dropped =>
        case Overrun => io := io.(faulted := true);
        case Launch(cols, rows, cwd, shell) => OpenSess(k, id, cols, rows, cwd, shell);
      }
    }

    method Dispatch(k: M.Kernel, f: Frame)
      requires Valid() && Sendable(f)
      modifies `io, sess
      ensures State() == M.Dispatch(k, old(State()), f)
      ensures Valid()
    {
      hide M.Ok, M.FindSess, M.HandleOpen, M.EndSess, ReadOpen, Rd16;
      if f.ty == T_OPEN {
        HandleOpen(k, f.id, f.payload);
        return;
      }
      var i := FindSess(f.id);
      if i == M.MAX_SESS { return; }
      if f.ty == T_DATA {
        io := M.Did(io, M.Wrote(f.id, f.payload));
      } else if f.ty == T_RESIZE && |f.payload| >= 4 {
        io := M.Did(io, M.Resized(f.id, Rd16(f.payload, 0), Rd16(f.payload, 2)));
      } else if f.ty == T_SIGNAL && |f.payload| >= 1 && sess[i].pid > 0 {
        io := M.Did(io, M.Killed(f.id, f.payload[0]));
      } else if f.ty == T_CLOSE {
        EndSess(k, i, true);
      }
    }

    /** Room for n more bytes: the capacity doubles until they fit. */
    method Reserve(n: nat)
      requires len <= buf.Length
      modifies `buf
      ensures len + n <= buf.Length && Pending() == old(Pending())
      ensures buf == old(buf) || fresh(buf)
    {
      if len + n > buf.Length {
        var cap: nat := if buf.Length > 0 then buf.Length else 4096;
        while cap < len + n
          invariant cap >= buf.Length && cap > 0
        {
          cap := cap * 2;
        }
        var bigger := new byte[cap];
        forall i | 0 <= i < len { bigger[i] := buf[i]; }
        buf := bigger;
      }
    }

    method Append(data: Bytes)
      requires len <= buf.Length
      modifies `buf, `len, buf
      ensures len <= buf.Length && Pending() == old(Pending()) + data
      ensures buf == old(buf) || fresh(buf)
    {
      Reserve(|data|);
      forall i | 0 <= i < |data| { buf[len + i] := data[i]; }
      len := len + |data|;
    }

    /** Drop the first n bytes, moving the rest to the front. */
    method Compact(n: nat)
      requires n <= len <= buf.Length
      modifies `len, buf
      ensures len <= buf.Length && Pending() == old(Pending())[n..]
    {
      forall i | 0 <= i < len - n { buf[i] := buf[i + n]; }
      len := len - n;
    }

    /** Handle every complete frame in the buffer; the offset past the last of them. */
    method Consume(k: M.Kernel) returns (off: nat)
      requires Valid() && AllSendable(Decode(Pending()).0)
      modifies `io, sess
      ensures State() == M.DispatchAll(k, old(State()), Decode(Pending()).0)
      ensures off <= len && Pending()[off..] == Decode(Pending()).1
      ensures Valid()
    {
      hide M.Ok, M.Dispatch, M.DispatchAll, AllSendable, Rd32, Decode, Complete, First;
      ghost var d, all := State(), Pending();
      off := 0;
      ghost var done: seq<Frame> := [];
      Start(k, d, all);
      while len - off >= HEADER
        invariant off <= len && Pending() == all && Valid()
        invariant Sofar(k, d, State(), all, done, off)
        decreases len - off
      {
        var view := buf[off..len];
        assert view == all[off..];
        var n := Declared(view);
        if len - off < HEADER + n { break; }
        CompleteIs(view);
        NextFrame(k, d, State(), all, done, off);
        var f := First(view);
        Dispatch(k, f);
        done := done + [f];
        StepOver(n);
        off := off + Add32(HEADER, n);
      }
      CompleteIs(all[off..]);
      Finish(k, d, State(), all, done, off);
    }

    /** One read's worth of bytes from the host: every frame now complete is handled, in order,
        and what is left is kept for the next read. */
    method FeedStdin(k: M.Kernel, data: Bytes)
      requires Valid() && AllSendable(Decode(Pending() + data).0)
      modifies this, sess, buf
      ensures State() == M.DispatchAll(k, old(State()), Decode(old(Pending()) + data).0)
      ensures len <= buf.Length && Pending() == Decode(old(Pending()) + data).1
      ensures Valid() && (buf == old(buf) || fresh(buf))
    {
      hide M.Ok, AllSendable, M.DispatchAll, Decode;
      Append(data);
      var off := Consume(k);
      if off > 0 {
        Compact(off);
      } else {
        assert Pending()[0..] == Pending();
      }
    }

    method SendData(id: nat, bytes: Bytes)
      modifies `io
      ensures io == M.Send(old(io), Frame(id, T_DATA, bytes))
    {
      io := M.Send(io, Frame(id, T_DATA, bytes));
    }

    /** Forward one chunk of a session's output, spliced or copied: the host sees the same frame.
        End of output, or an error, ends the session. */
    method ForwardMaster(k: M.Kernel, i: nat, splice: M.Answer, read: M.Answer)
      requires Valid() && i < M.MAX_SESS && sess[i].active && M.ChunkOk(M.Heard(useSplice, splice, read).0)
      modifies `io, `useSplice, sess
      ensures State() == M.Forward(k, old(State()), i, M.Heard(old(useSplice), splice, read).0)
      ensures useSplice == M.Heard(old(useSplice), splice, read).1
      ensures Valid()
    {
      hide M.Ok, M.EndSess;
      if useSplice {
        if splice.Moved? && splice.bytes != [] {
          SendData(sess[i].id, splice.bytes);
          return;
        }
        if splice.Failed? && (splice.errno == M.EINVAL || splice.errno == M.ENOSYS) {
          useSplice := false;
        } else {
          if !splice.Failed? || splice.errno != M.EINTR { EndSess(k, i, false); }
          return;
        }
      }
      if read.Moved? && read.bytes != [] {
        SendData(sess[i].id, read.bytes);
      } else if !read.Failed? || read.errno != M.EINTR {
        EndSess(k, i, false);
      }
    }

    /** The host is gone: end every session. */
    method HostGone(k: M.Kernel)
      requires Valid()
      modifies `io, sess
      ensures State() == M.EndFrom(k, old(State()), 0)
      ensures Valid()
    {
      hide M.Ok, M.EndSess;
      var i := 0;
      while i < M.MAX_SESS
        invariant i <= M.MAX_SESS && Valid()
        invariant M.EndFrom(k, State(), i) == M.EndFrom(k, old(State()), 0)
      {
        EndSess(k, i, true);
        i := i + 1;
      }
    }
  }

  /** Where the loop stands: the frames before `off` are handled, the rest is still to decode. */
  ghost predicate Sofar(k: M.Kernel, d: M.Daemon, now: M.Daemon, all: Bytes, done: seq<Frame>, off: nat)
    requires M.Ok(d)
  {
    && off <= |all| && AllSendable(Decode(all).0) && AllSendable(done)
    && Decode(all) == (done + Decode(all[off..]).0, Decode(all[off..]).1)
    && now == M.DispatchAll(k, d, done)
  }

  lemma Start(k: M.Kernel, d: M.Daemon, all: Bytes)
    requires M.Ok(d) && AllSendable(Decode(all).0)
    ensures Sofar(k, d, d, all, [], 0)
  {
    hide M.Ok, M.Dispatch, Decode;
    assert all[0..] == all && [] + Decode(all).0 == Decode(all).0;
  }

  lemma CompleteIs(b: Bytes)
    ensures Complete(b) <==> |b| >= HEADER && |b| >= HEADER + Declared(b)
  {
  }

  lemma Finish(k: M.Kernel, d: M.Daemon, now: M.Daemon, all: Bytes, done: seq<Frame>, off: nat)
    requires M.Ok(d) && Sofar(k, d, now, all, done, off) && !Complete(all[off..])
    ensures now == M.DispatchAll(k, d, Decode(all).0) && all[off..] == Decode(all).1
  {
    hide M.Ok, M.Dispatch, M.DispatchAll, AllSendable, Complete;
    assert done + [] == done;
  }

  lemma NextFrame(k: M.Kernel, d: M.Daemon, now: M.Daemon, all: Bytes, done: seq<Frame>, off: nat)
    requires M.Ok(d) && Sofar(k, d, now, all, done, off) && Complete(all[off..])
    ensures var f := First(all[off..]);
            var next := off + HEADER + Declared(all[off..]);
            && Sendable(f) && next <= |all| && HEADER + Declared(all[off..]) < TWO32
            && Sofar(k, d, M.Dispatch(k, now, f), all, done + [f], next)
  {
    hide M.Ok, M.Dispatch, Rd32;
    var b := all[off..];
    var f := First(b);
    var next := off + HEADER + Declared(b);
    assert AfterFirst(b) == all[next..];
    var fs := Decode(all).0;
    assert fs[|done|] == f;
    assert Sendable(fs[|done|]);
    assert (done + [f])[..|done|] == done;
    assert done + ([f] + Decode(all[next..]).0) == done + [f] + Decode(all[next..]).0;
  }
}
