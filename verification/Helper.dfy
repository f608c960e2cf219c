/** The single-session helper's control stream: DATA, RESIZE and SIGNAL commands, told apart by
    one byte; any other byte is dropped and the decoder tries again at the next. */
module Helper {
  import opened Cells
  import opened Text
  import opened Wire

  datatype Cmd = Input(bytes: Bytes) | Size(cols: nat, rows: nat) | Signal(sig: byte)

  /** The command at the front, if the bytes are there: what to do, if anything, and its length. */
  function Front(b: Bytes): (r: Option<(Option<Cmd>, nat)>)
    ensures r.Some? ==> 1 <= r.value.1 <= |b|
  {
    if b == [] then None
    else if b[0] == 0 then
      if |b| < 5 || |b| < 5 + Rd32(b, 1) then None
      else
        var n := Rd32(b, 1);
        Some((if n == 0 then None else Some(Input(b[5..5 + n])), 5 + n))
    else if b[0] == 1 then
      if |b| < 5 then None else Some((Some(Size(Rd16(b, 1), Rd16(b, 3))), 5))
    else if b[0] == 2 then
      if |b| < 2 then None else Some((Some(Signal(b[1])), 2))
    else Some((None, 1))
  }

  function Listed(c: Option<Cmd>): seq<Cmd> { if c.None? then [] else [c.value] }

  /** The commands in a stream, and the bytes of an unfinished one. */
  function Scan(b: Bytes): (r: (seq<Cmd>, Bytes))
    decreases |b|
  {
    match Front(b)
    case None => ([], b)
    case Some(f) =>
      var t := Scan(b[f.1..]);
      (Listed(f.0) + t.0, t.1)
  }

  lemma FrontStays(a: Bytes, b: Bytes)
    requires Front(a).Some?
    ensures Front(a + b) == Front(a) && (a + b)[Front(a).value.1..] == a[Front(a).value.1..] + b
  {
    var c := a + b;
    if a[0] == 0 {
      assert Rd32(c, 1) == Rd32(a, 1);
      assert c[5..5 + Rd32(a, 1)] == a[5..5 + Rd32(a, 1)];
    }
  }

  /** Scanning may stop at any byte and resume, even in the middle of garbage. */
  lemma {:induction false} ScanResumes(a: Bytes, b: Bytes)
    ensures var (cs, tail) := Scan(a);
            var (ds, last) := Scan(tail + b);
            Scan(a + b) == (cs + ds, last)
    decreases |a|
  {
    hide Front;
    match Front(a) {
      case None =>
        assert [] + Scan(a + b).0 == Scan(a + b).0;
      case Some(f) =>
        FrontStays(a, b);
        ScanResumes(a[f.1..], b);
        var (cs, tail) := Scan(a[f.1..]);
        var (ds, last) := Scan(tail + b);
        assert Listed(f.0) + (cs + ds) == Listed(f.0) + cs + ds;
    }
  }

  /** The commands carried out and the bytes kept after reading the chunks one by one. */
  function ScanAll(chunks: seq<Bytes>): (seq<Cmd>, Bytes) {
    if chunks == [] then ([], [])
    else
      var (cs, tail) := ScanAll(chunks[..|chunks| - 1]);
      var (ds, last) := Scan(tail + chunks[|chunks| - 1]);
      (cs + ds, last)
  }

  /** Any bytes, well formed or not, give the same commands however they are cut into reads. */
  lemma {:induction false} AnyReads(chunks: seq<Bytes>)
    ensures ScanAll(chunks) == Scan(Joined(chunks))
  {
    if chunks == [] {
      assert Front([]) == None;
    } else {
      AnyReads(chunks[..|chunks| - 1]);
      ScanResumes(Joined(chunks[..|chunks| - 1]), chunks[|chunks| - 1]);
    }
  }

  // ---- a terminal that stops taking input ------------------------------------------------------

  /** How many more inputs the terminal takes before a write to it fails; None: it never does. */
  type Room = Option<nat>

  predicate Fails(c: Cmd, room: Room) { c.Input? && room == Some(0) }

  function RoomLess(c: Cmd, room: Room): Room {
    if c.Input? && room.Some? && room.value > 0 then Some(room.value - 1) else room
  }

  /** The commands carried out before a write fails, and the room left. */
  function Taken(cs: seq<Cmd>, room: Room): (seq<Cmd>, Room) {
    if cs == [] || Fails(cs[0], room) then ([], room)
    else
      var t := Taken(cs[1..], RoomLess(cs[0], room));
      ([cs[0]] + t.0, t.1)
  }

  lemma {:induction false} TakenAppend(cs: seq<Cmd>, ds: seq<Cmd>, room: Room)
    ensures var (ts, left) := Taken(cs, room);
            Taken(cs + ds, room) == if ts == cs then (cs + Taken(ds, left).0, Taken(ds, left).1) else (ts, left)
    ensures |Taken(cs, room).0| <= |cs|
  {
    if cs == [] {
      assert cs + ds == ds && [] + Taken(ds, room).0 == Taken(ds, room).0;
    } else {
      assert (cs + ds)[0] == cs[0] && (cs + ds)[1..] == cs[1..] + ds;
      if !Fails(cs[0], room) {
        TakenAppend(cs[1..], ds, RoomLess(cs[0], room));
        var t := Taken(cs[1..], RoomLess(cs[0], room));
        var u := Taken(ds, t.1).0;
        assert cs == [cs[0]] + cs[1..];
        assert [cs[0]] + t.0 == cs <==> t.0 == cs[1..];
        assert [cs[0]] + (cs[1..] + u) == [cs[0]] + cs[1..] + u;
      }
    }
  }

  /** The helper over the chunks: it ends at the first write that fails. */
  function Carried(chunks: seq<Bytes>, room: Room): (r: (seq<Cmd>, Room, bool)) {
    if chunks == [] then ([], room, true)
    else
      var init := chunks[..|chunks| - 1];
      var (cs, left, alive) := Carried(init, room);
      if !alive then (cs, left, false)
      else
        var ds := Scan(ScanAll(init).1 + chunks[|chunks| - 1]).0;
        var (ts, rest) := Taken(ds, left);
        (cs + ts, rest, ts == ds)
  }

  /** However the bytes are cut into reads, the commands carried out are those of the whole stream
      up to the first write that fails. */
  lemma {:induction false} ReadsDoNotMatter(chunks: seq<Bytes>, room: Room)
    ensures var cs := Scan(Joined(chunks)).0;
            && Carried(chunks, room).0 == Taken(cs, room).0 && Carried(chunks, room).1 == Taken(cs, room).1
            && (Carried(chunks, room).2 <==> Taken(cs, room).0 == cs)
  {
    hide Scan, Taken;
    AnyReads(chunks);
    if chunks == [] {
      NothingTaken(room);
    } else {
      var init := chunks[..|chunks| - 1];
      AnyReads(init);
      ReadsDoNotMatter(init, room);
      var cs, ds := ScanAll(init).0, Scan(ScanAll(init).1 + chunks[|chunks| - 1]).0;
      TakenAppend(cs, ds, room);
      var ts := Taken(ds, Taken(cs, room).1).0;
      assert |Taken(cs, room).0| <= |cs|;
      if Taken(cs, room).0 != cs { Shorter(Taken(cs, room).0, cs, ds); }
      SamePrefix(cs, ts, ds);
    }
  }

  lemma NothingTaken(room: Room)
    ensures Scan([]).0 == [] && Taken([], room) == ([], room)
  {
  }

  // ---- what a host may send ---------------------------------------------------------------

  /** A command, or a byte that begins none. */
  datatype Item = Command(cmd: Cmd) | Noise(b: byte)

  predicate ItemOk(i: Item) {
    match i
    case Noise(b) => b > 2
    case Command(c) =>
      match c
      case Input(bytes) => |bytes| < TWO32
      case Size(cols, rows) => cols < TWO16 && rows < TWO16
      case Signal(_) => true
  }

  predicate ItemsOk(s: seq<Item>) { forall i :: 0 <= i < |s| ==> ItemOk(s[i]) }

  function Sent(i: Item): Bytes
    requires ItemOk(i)
  {
    match i
    case Noise(b) => [b]
    case Command(c) =>
      match c
      case Input(bytes) => [0] + Le32(|bytes|) + bytes
      case Size(cols, rows) => [1] + Le16(cols) + Le16(rows)
      case Signal(sig) => [2, sig]
  }

  function SentAll(s: seq<Item>): Bytes
    requires ItemsOk(s)
  {
    if s == [] then [] else Sent(s[0]) + SentAll(s[1..])
  }

  /** An input of no bytes asks nothing. */
  function Meant(i: Item): Option<Cmd> { if i.Noise? || i.cmd == Input([]) then None else Some(i.cmd) }

  function Commands(s: seq<Item>): seq<Cmd> {
    if s == [] then [] else Listed(Meant(s[0])) + Commands(s[1..])
  }

  lemma FrontOfSent(i: Item, rest: Bytes)
    requires ItemOk(i)
    ensures Front(Sent(i) + rest) == Some((Meant(i), |Sent(i)|))
    ensures (Sent(i) + rest)[|Sent(i)|..] == rest
  {
    hide Le32, Le16, Rd32, Rd16;
    var b := Sent(i) + rest;
    if i.Command? {
      match i.cmd {
        case Input(bytes) =>
          assert b[1..5] == Le32(|bytes|) && b[5..5 + |bytes|] == bytes;
          Le32Read(b, 1, |bytes|);
        case Size(cols, rows) =>
          assert b[1..3] == Le16(cols) && b[3..5] == Le16(rows);
          Le16Read(b, 1, cols);
          Le16Read(b, 3, rows);
        case Signal(_) =>
      }
    }
  }

  /** Every command arrives exactly and in order, whatever garbage lies between them. */
  lemma {:induction false} CommandsArrive(s: seq<Item>)
    requires ItemsOk(s)
    ensures Scan(SentAll(s)) == (Commands(s), [])
  {
    hide Sent, Front;
    if s == [] {
      assert Front([]) == None by { FrontOfNothing(); }
    } else {
      FrontOfSent(s[0], SentAll(s[1..]));
      CommandsArrive(s[1..]);
    }
  }

  lemma FrontOfNothing()
    ensures Front([]) == None
  {
  }

  // ---- the decoder as it runs --------------------------------------------------------------

  /** The 32-bit step over an input lands behind it. */
  predicate Steppable(c: Cmd) { c.Input? ==> 5 + |c.bytes| < TWO32 }

  predicate AllSteppable(cs: seq<Cmd>) { forall i :: 0 <= i < |cs| ==> Steppable(cs[i]) }

  /** The caller-owned frame buffer, the commands carried out so far, and the terminal's room. */
  class Control {
    var buf: array<byte>
    var len: nat
    var cmds: seq<Cmd>
    var room: Room

    ghost predicate Valid() reads this { len <= buf.Length }

    ghost function Pending(): Bytes
      requires len <= buf.Length
      reads this, buf
    {
      buf[..len]
    }

    constructor (room: Room)
      ensures Valid() && fresh(buf) && Pending() == [] && cmds == [] && this.room == room
    {
      buf := new byte[0];
      len, cmds, this.room := 0, [], room;
    }

    /** Grow by doubling from 256, then append. */
    method Append(data: Bytes)
      requires Valid()
      modifies `buf, `len, buf
      ensures Valid() && Pending() == old(Pending()) + data && (buf == old(buf) || fresh(buf))
    {
      if len + |data| > buf.Length {
        var cap: nat := if buf.Length > 0 then buf.Length else 256;
        while cap < len + |data|
          invariant cap >= buf.Length && cap > 0
        {
          cap := cap * 2;
        }
        var bigger := new byte[cap];
        forall i | 0 <= i < len { bigger[i] := buf[i]; }
        buf := bigger;
        assert buf[..len] == old(buf[..len]);
      }
      forall i | 0 <= i < |data| { buf[len + i] := data[i]; }
      len := len + |data|;
    }

    /** Write to the terminal; false when the write fails. */
    method WriteInput(bytes: Bytes) returns (done: bool)
      modifies `cmds, `room
      ensures done <==> old(room) != Some(0)
      ensures cmds == old(cmds) + if done then [Input(bytes)] else []
      ensures room == if done then RoomLess(Input(bytes), old(room)) else old(room)
    {
      done := room != Some(0);
      if done {
        if room.Some? { room := Some(room.value - 1); }
        cmds := cmds + [Input(bytes)];
      } else {
        assert cmds + [] == cmds;
      }
    }

    /** Carry out the command at the front of b, if it is complete; `fatal` when its write fails. */
    method HandleFront(b: Bytes) returns (ok: bool, step: nat, fatal: bool)
      requires Front(b).Some? ==> AllSteppable(Listed(Front(b).value.0))
      modifies `cmds, `room
      ensures ok <==> Front(b).Some?
      ensures ok && !fatal ==> step == Front(b).value.1
      ensures !ok ==> cmds == old(cmds) && room == old(room) && !fatal
      ensures ok ==>
        var (ts, left) := Taken(Listed(Front(b).value.0), old(room));
        cmds == old(cmds) + ts && room == left && (fatal <==> ts != Listed(Front(b).value.0))
    {
      hide Rd32, Rd16;
      ok, step, fatal := false, 0, false;
      TakenOne(room);
      if |b| >= 1 {
        if b[0] == 0 {
          if |b| >= 5 {
            var n := Rd32(b, 1);
            ok := |b| >= 5 + n;
            if ok && n > 0 {
              assert Steppable(Listed(Front(b).value.0)[0]);
              var done := WriteInput(b[5..5 + n]);
              fatal := !done;
            }
            step := Add32(5, n);
          }
        } else if b[0] == 1 {
          ok, step := |b| >= 5, 5;
          if ok { cmds := cmds + [Size(Rd16(b, 1), Rd16(b, 3))]; }
        } else if b[0] == 2 {
          ok, step := |b| >= 2, 2;
          if ok { cmds := cmds + [Signal(b[1])]; }
        } else {
          ok, step := true, 1;
        }
      }
    }

    /** Carry out every command now complete; the offset past the last of them, or a failed write. */
    method Consume() returns (off: nat, fatal: bool)
      requires Valid() && AllSteppable(Scan(Pending()).0)
      modifies `cmds, `room
      ensures var (ts, left) := Taken(Scan(Pending()).0, old(room));
              cmds == old(cmds) + ts && room == left && (fatal <==> ts != Scan(Pending()).0)
      ensures !fatal ==> off <= len && Pending()[off..] == Scan(Pending()).1
    {
      hide Front, Scan, Taken, AllSteppable;
      ghost var all, start, room0 := Pending(), cmds, room;
      off, fatal := 0, false;
      ConsumeStart(all, start, room0);
      while true
        invariant off <= len && Pending() == all && !fatal
        invariant Sofar(all, off, start, cmds, room0, room)
        decreases len - off
      {
        var b := buf[off..len];
        assert b == all[off..];
        ghost var was, had := cmds, room;
        FrontSteppable(all, off, start, was, room0, had);
        var ok, step: nat;
        ok, step, fatal := HandleFront(b);
        ConsumeOne(all, off, start, was, room0, had);
        if !ok || fatal { return; }
        off := off + step;
      }
    }

    /** One read: carry out every command now complete, keep the rest at the front. A failed write
        is fatal: what comes after it is not carried out. */
    method FeedFrames(data: Bytes) returns (fatal: bool)
      requires Valid() && AllSteppable(Scan(Pending() + data).0)
      modifies this, buf
      ensures Valid() && (buf == old(buf) || fresh(buf))
      ensures var cs := Scan(old(Pending()) + data).0;
              var (ts, left) := Taken(cs, old(room));
              cmds == old(cmds) + ts && room == left && (fatal <==> ts != cs)
      ensures Pending() == if fatal then old(Pending()) + data else Scan(old(Pending()) + data).1
    {
      hide Scan, Taken, AllSteppable;
      Append(data);
      var off: nat;
      off, fatal := Consume();
      if fatal { return; }
      ghost var all := Pending();
      if off > 0 {
        forall i | 0 <= i < len - off { buf[i] := buf[i + off]; }
        len := len - off;
        assert buf[..len] == all[off..];
      } else {
        assert all[0..] == all;
      }
    }
  }

  lemma TakenOne(room: Room)
    ensures Taken([], room) == ([], room)
    ensures forall c :: Taken([c], room) == if Fails(c, room) then ([], room) else ([c], RoomLess(c, room))
  {
    forall c ensures Taken([c], room) == if Fails(c, room) then ([], room) else ([c], RoomLess(c, room)) {
      assert [c][1..] == [] && [c] + [] == [c];
      assert Taken([], RoomLess(c, room)) == ([], RoomLess(c, room));
    }
  }

  /** Where the loop stands: everything before `off` is carried out, the rest is still to scan. */
  ghost predicate Sofar(all: Bytes, off: nat, start: seq<Cmd>, now: seq<Cmd>, room0: Room, room: Room) {
    && off <= |all| && AllSteppable(Scan(all[off..]).0) && Scan(all).1 == Scan(all[off..]).1
    && (start + Taken(Scan(all).0, room0).0 == now + Taken(Scan(all[off..]).0, room).0)
    && Taken(Scan(all).0, room0).1 == Taken(Scan(all[off..]).0, room).1
    && (Taken(Scan(all).0, room0).0 == Scan(all).0 <==> Taken(Scan(all[off..]).0, room).0 == Scan(all[off..]).0)
  }

  lemma ConsumeStart(all: Bytes, start: seq<Cmd>, room: Room)
    requires AllSteppable(Scan(all).0)
    ensures Sofar(all, 0, start, start, room, room)
  {
    assert all[0..] == all;
  }

  lemma FrontSteppable(all: Bytes, off: nat, start: seq<Cmd>, now: seq<Cmd>, room0: Room, room: Room)
    requires Sofar(all, off, start, now, room0, room)
    ensures Front(all[off..]).Some? ==> AllSteppable(Listed(Front(all[off..]).value.0))
  {
    hide Front, Taken;
    var cs := Scan(all[off..]).0;
    if Front(all[off..]).Some? && Front(all[off..]).value.0.Some? { assert Steppable(cs[0]); }
  }

  lemma ConsumeOne(all: Bytes, off: nat, start: seq<Cmd>, now: seq<Cmd>, room0: Room, room: Room)
    requires Sofar(all, off, start, now, room0, room)
    ensures Front(all[off..]).None? ==>
      var (ts, left) := Taken(Scan(all).0, room0);
      now == start + ts && room == left && ts == Scan(all).0 && all[off..] == Scan(all).1
    ensures Front(all[off..]).Some? ==>
      var c := Listed(Front(all[off..]).value.0);
      var (ts, left) := Taken(c, room);
      if ts == c then
        var next := off + Front(all[off..]).value.1;
        next <= |all| && Sofar(all, next, start, now + ts, room0, left)
      else
        now + ts == start + Taken(Scan(all).0, room0).0 && left == Taken(Scan(all).0, room0).1
          && Taken(Scan(all).0, room0).0 != Scan(all).0
  {
    hide Front;
    var b := all[off..];
    if Front(b).None? {
      assert Scan(b) == ([], b) && now + [] == now;
    } else {
      var c := Listed(Front(b).value.0);
      var next := off + Front(b).value.1;
      var more := Scan(all[next..]).0;
      assert b[Front(b).value.1..] == all[next..];
      assert Scan(b).0 == c + more;
      TakenAppend(c, more, room);
      hide Taken, Scan;
      var (ts, left) := Taken(c, room);
      if ts == c {
        var us := Taken(more, left).0;
        assert now + (c + us) == now + c + us;
        SteppableTail(c, more);
        SamePrefix(c, us, more);
      } else {
        Shorter(ts, c, more);
      }
    }
  }

  lemma SteppableTail(c: seq<Cmd>, more: seq<Cmd>)
    requires AllSteppable(c + more)
    ensures AllSteppable(more)
  {
    assert forall i :: 0 <= i < |more| ==> (c + more)[|c| + i] == more[i];
  }

  lemma SamePrefix(c: seq<Cmd>, us: seq<Cmd>, more: seq<Cmd>)
    ensures c + us == c + more <==> us == more
  {
    if c + us == c + more { assert us == (c + us)[|c|..] == (c + more)[|c|..] == more; }
  }

  lemma Shorter(ts: seq<Cmd>, c: seq<Cmd>, more: seq<Cmd>)
    requires ts != c && |ts| <= |c|
    ensures ts != c + more
  {
    assert ts == c + more ==> |more| == 0 && c + more == c;
  }
}
