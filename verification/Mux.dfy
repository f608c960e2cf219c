/** The mux as it runs: its shared fields, one call at a time, and the reader's loop. Each call is
    proved to be the run of its atomic steps in ProtocolModel when nothing interferes. */
module MuxMachine {
  import opened Cells
  import opened Text
  import opened Wire
  import opened ProtocolModel
  import opened Protocol
  import T = Transport
  import V = Delivery

  /** What calls share: the id counter, the live set, the dead flag, the frames written in full. */
  datatype Shared = Shared(next: nat, live: set<nat>, dead: bool, written: seq<Frame>)

  function SharedBy(h: Host): Shared { Shared(h.next, h.live, h.dead, h.written) }

  /** A write attempt: skipped once dead; a failed one makes the mux dead. */
  function Wrote(v: Shared, f: Frame, ok: bool): Shared {
    if v.dead then v
    else if ok then v.(written := v.written + [f])
    else v.(dead := true)
  }

  // ---- calls as runs of atomic steps ---------------------------------------------------------

  /** Three steps are enough for any call; a finished one stays finished. */
  function Finished(h: Host, i: nat, ok: bool): Host
    requires i < |h.tasks|
  {
    AdvanceTask(AdvanceTask(AdvanceTask(h, i, ok), i, ok), i, ok)
  }

  function OpenFrame(id: nat, cols: nat, rows: nat, cwd: Bytes): Frame
    requires cols < TWO16 && rows < TWO16 && |cwd| + 12 + HEADER < TWO32
  {
    Frame(id, T_OPEN, OpenPayload(cols, rows, cwd))
  }

  lemma OpenIsSteps(h: Host, cols: nat, rows: nat, cwd: Bytes, ok: bool)
    requires cols < TWO16 && rows < TWO16 && |cwd| + 12 + HEADER < TWO32 && (h.up || h.dead)
    ensures var r := Finished(OpenCall(h, cols, rows, cwd), |h.tasks|, ok);
            var id := h.next + 1;
            && r.tasks == h.tasks + [Idle]
            && SharedBy(r) ==
                 Wrote(SharedBy(h).(next := id, live := h.live + {id}), OpenFrame(id, cols, rows, cwd), ok)
  {
    hide OpenPayload;
    var f := OpenFrame(h.next + 1, cols, rows, cwd);
    var i := |h.tasks|;
    assert forall t :: (h.tasks + [Inserting(f)])[i := t] == h.tasks + [t];
    assert forall t, u :: (h.tasks + [t])[i := u] == h.tasks + [u];
  }

  lemma CallIsSteps(h: Host, f: Frame, ok: bool)
    requires CallOk(f) && (h.up || h.dead)
    ensures var r := Finished(PlainCall(h, f), |h.tasks|, ok);
            var v := Wrote(SharedBy(h), f, ok);
            && r.tasks == h.tasks + [Idle]
            && SharedBy(r) == if f.ty == T_CLOSE then v.(live := v.live - {f.id}) else v
  {
    var i := |h.tasks|;
    assert forall t, u :: (h.tasks + [t])[i := u] == h.tasks + [u];
  }

  // ---- the mux -----------------------------------------------------------------------------------

  class WslMux {
    var nextId: nat
    var live: set<nat>
    var dead: bool
    const conn: T.Conn
    ghost var written: seq<Frame>

    /** What a failed write left of its frame. */
    ghost var torn: Bytes

    ghost function State(): Shared
      reads this
    {
      Shared(nextId, live, dead, written)
    }

    /** The connection carries the frames written, then at most one torn frame, after which
        nothing is written. */
    ghost predicate Framed()
      reads this, conn
    {
      && AllSendable(written) && conn.out == EncodedAll(written) + torn
      && !Complete(torn) && (torn != [] ==> dead)
    }

    constructor (conn: T.Conn)
      requires conn.out == []
      ensures State() == Shared(0, {}, false, []) && this.conn == conn && Framed()
    {
      nextId, live, dead, written, torn := 0, {}, false, [], [];
      this.conn := conn;
      CompleteNeedsHeader([]);
    }

    /** Under the writer lock: whole frames only, until a write fails; nothing after that. So the
        daemon, reading the connection in any pieces, handles exactly the frames written. */
    method WriteFrame(f: Frame)
      requires Sendable(f) && Framed()
      modifies `dead, `written, `torn, conn`out, conn`plan
      ensures Framed() && Decode(conn.out) == (written, torn)
      ensures State() == Wrote(old(State()), f, !dead)
      ensures old(dead) ==> conn.out == old(conn.out) && conn.plan == old(conn.plan)
      ensures !dead ==> conn.out == old(conn.out) + Encoded(f)
      ensures dead && !old(dead) ==> old(conn.out) <= conn.out < old(conn.out) + Encoded(f)
    {
      hide Encoded, EncodedAll, Complete, Decode;
      ghost var before := conn.out;
      if !dead {
        assert before + [] == before;
        var ok := conn.WriteFrame(f);
        if ok {
          EncodedLast(written, f);
          written := written + [f];
          assert EncodedAll(written) + torn == EncodedAll(written);
        } else {
          torn := conn.out[|before|..];
          assert conn.out == before + torn && before == EncodedAll(written);
          TornFrame(f, before, torn);
          dead := true;
        }
      }
      DecodeUndoesEncode(written, torn);
    }

    /** A new session: the id joins `live` before the request is written. */
    method Open(cols: nat, rows: nat, cwd: Bytes) returns (id: nat)
      requires cols < TWO16 && rows < TWO16 && |cwd| + 12 + HEADER < TWO32 && nextId + 1 < TWO32 && Framed()
      modifies this, conn`out, conn`plan
      ensures Framed() && id == old(nextId) + 1
      ensures State() ==
        Wrote(old(State()).(next := id, live := old(live) + {id}), OpenFrame(id, cols, rows, cwd), !dead)
    {
      nextId := nextId + 1;
      id := nextId;
      live := live + {id};
      var payload := OpenPayload(cols, rows, cwd);
      assert |payload| == 12 + |cwd|;
      WriteFrame(Frame(id, T_OPEN, payload));
    }

    method SendData(id: nat, data: Bytes)
      requires id < TWO32 && |data| + HEADER < TWO32 && Framed()
      modifies `dead, `written, `torn, conn`out, conn`plan
      ensures Framed() && State() == Wrote(old(State()), Frame(id, T_DATA, data), !dead)
    {
      WriteFrame(Frame(id, T_DATA, data));
    }

    /** A size of zero is not sent. */
    method SendResize(id: nat, cols: nat, rows: nat)
      requires id < TWO32 && cols < TWO16 && rows < TWO16 && Framed()
      modifies `dead, `written, `torn, conn`out, conn`plan
      ensures Framed() && State() ==
        if cols == 0 || rows == 0 then old(State())
        else Wrote(old(State()), Frame(id, T_RESIZE, Le16(cols) + Le16(rows)), !dead)
    {
      if cols == 0 || rows == 0 { return; }
      WriteFrame(Frame(id, T_RESIZE, Le16(cols) + Le16(rows)));
    }

    /** The request is written before the id leaves `live`. */
    method Close(id: nat)
      requires id < TWO32 && Framed()
      modifies this, conn`out, conn`plan
      ensures Framed() && State() == Wrote(old(State()), Frame(id, T_CLOSE, []), !dead).(live := old(live) - {id})
    {
      WriteFrame(Frame(id, T_CLOSE, []));
      live := live - {id};
    }

    /** The reader: an event per frame; at the end of the stream, or on an error, the mux is dead
        and every session still live gets an Exit of code -1, each once, in some order. */
    method ReaderLoop(src: T.Source) returns (events: seq<Event>, read: seq<Frame>, order: seq<nat>)
      modifies `live, `dead, src, src.scratch
      ensures dead && live == {}
      ensures read <= Decode(old(src.rest)).0
      ensures T.Capacity(old(src.plan)).None? && T.FrameLimits(old(src.rest)) ==> read == Decode(old(src.rest)).0
      ensures events == ToldAll(read) + Lost(order) && NoRepeats(order)
      ensures forall id :: V.DataOf(events, id) == V.PayloadsOf(read, id)
      ensures V.Spell(V.InfosOf(events), V.NamesOf(read))
      ensures forall id :: id in order <==> id in old(live) && !Ended(read, |read|, id)
    {
      events, read := ReadEvents(src);
      dead := true;
      ghost var left := live;
      ghost var told := events;
      order := [];
      assert told + Lost([]) == told;
      while live != {}
        invariant dead && events == told + Lost(order) && NoRepeats(order)
        invariant forall id :: id in left <==> id in live || id in order
        invariant forall id :: id in order ==> id !in live
        decreases live
      {
        var id :| id in live;
        live := live - {id};
        events := events + [Exit(id, -1)];
        LostOneMore(told, order, id);
        order := order + [id];
      }
      V.ReadIsDelivered(read, order);
    }

    /** The part of the loop before the drain. */
    method ReadEvents(src: T.Source) returns (events: seq<Event>, read: seq<Frame>)
      modifies `live, src, src.scratch
      ensures read <= Decode(old(src.rest)).0
      ensures T.Capacity(old(src.plan)).None? && T.FrameLimits(old(src.rest)) ==> read == Decode(old(src.rest)).0
      ensures events == ToldAll(read)
      ensures forall id :: id in live <==> id in old(live) && !Ended(read, |read|, id)
    {
      hide T.Capacity, Complete, First, AfterFirst, Declared, Told, ToldAll, Decode, T.FrameLimits, Ended;
      events, read := [], [];
      ghost var all := src.rest;
      ReadNothing(all);
      while true
        invariant Decode(all).0 == read + Decode(src.rest).0
        invariant src.scratch == old(src.scratch) || fresh(src.scratch)
        invariant T.Capacity(old(src.plan)).None? ==> T.Capacity(src.plan).None?
        invariant T.FrameLimits(all) ==> T.FrameLimits(src.rest)
        invariant events == ToldAll(read)
        invariant forall id :: id in live <==> id in old(live) && !Ended(read, |read|, id)
        decreases |src.rest|
      {
        ghost var front := src.rest;
        var r := src.ReadFrame();
        FrontOf(front, read);
        if !r.Read? {
          T.LimitsAt(front);
          return;
        }
        var f := Frame(r.id, r.ty, src.scratch[..r.len]);
        if f.ty == T_EXIT { live := live - {f.id}; }
        events := events + Told(f);
        OneMoreRead(read, f);
        read := read + [f];
      }
    }
  }

  lemma TornFrame(f: Frame, before: Bytes, torn: Bytes)
    requires Sendable(f) && before + torn < before + Encoded(f)
    ensures !Complete(torn)
  {
    var e := Encoded(f);
    assert torn < e by {
      assert (before + torn)[|before|..] == torn && (before + e)[|before|..] == e;
      assert forall i :: 0 <= i < |torn| ==>
        torn[i] == (before + torn)[|before| + i] == (before + e)[|before| + i] == e[i];
    }
    assert e + [] == e;
    ShortOfFirst(f, [], torn);
  }

  lemma ReadNothing(all: Bytes)
    ensures [] + Decode(all).0 == Decode(all).0 && ToldAll([]) == [] && forall id :: !Ended([], 0, id)
  {
  }

  lemma FrontOf(front: Bytes, read: seq<Frame>)
    ensures Complete(front) ==>
      && read + Decode(front).0 == read + [First(front)] + Decode(AfterFirst(front)).0
      && (T.FrameLimits(front) ==> T.FrameLimits(AfterFirst(front)))
    ensures read + [] == read
  {
    if Complete(front) {
      FrontDecoded(front);
      Regrouped(read, [First(front)], Decode(AfterFirst(front)).0);
    }
    hide Decode, Complete, First, AfterFirst, T.FrameLimits;
  }

  lemma FrontDecoded(front: Bytes)
    requires Complete(front)
    ensures Decode(front).0 == [First(front)] + Decode(AfterFirst(front)).0
    ensures T.FrameLimits(front) ==> T.FrameLimits(AfterFirst(front))
  {
    hide First, AfterFirst;
  }

  lemma Regrouped(a: seq<Frame>, b: seq<Frame>, c: seq<Frame>)
    ensures a + (b + c) == a + b + c
  {
  }

  lemma OneMoreRead(read: seq<Frame>, f: Frame)
    ensures ToldAll(read + [f]) == ToldAll(read) + Told(f)
    ensures forall id :: Ended(read + [f], |read| + 1, id) <==>
      Ended(read, |read|, id) || (f.ty == T_EXIT && f.id == id)
  {
    hide Told, Ended;
    assert (read + [f])[..|read|] == read;
    forall id ensures Ended(read + [f], |read| + 1, id) <==> Ended(read, |read|, id) || (f.ty == T_EXIT && f.id == id) {
      EndedOneMore(read, f, id);
    }
  }

  lemma EndedOneMore(read: seq<Frame>, f: Frame, id: nat)
    ensures Ended(read + [f], |read| + 1, id) <==> Ended(read, |read|, id) || (f.ty == T_EXIT && f.id == id)
  {
    var more := read + [f];
    assert (forall i :: 0 <= i < |read| ==> more[i] == read[i]) && more[|read|] == f;
  }

  lemma LostOneMore(told: seq<Event>, order: seq<nat>, id: nat)
    ensures told + Lost(order) + [Exit(id, -1)] == told + Lost(order + [id])
  {
    assert Lost(order + [id]) == Lost(order) + [Exit(id, -1)];
  }
}
