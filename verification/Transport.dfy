/** The loops that move frames over a connection: the daemon's gathered write past partial
    writes, its splice path, and the host's exact read into a reused buffer. The kernel is an
    adversary: any finite list of short, interrupted or failing calls, then calls that move
    all they can. */
module Transport {
  import opened Cells
  import opened Text
  import opened Wire

  /** One call's outcome: at most `n` bytes moved (0 moves none), EINTR, or an error. */
  datatype Outcome = Moves(n: nat) | Interrupted | Broken

  type Plan = seq<Outcome>

  /** A write call under a plan that grants nothing or fails ends the loop. */
  predicate Stops(o: Outcome) { o == Broken || o == Moves(0) }

  /** Bytes a write loop gets through under a plan, asked for n. */
  function Emits(plan: Plan, n: nat): (k: nat)
    ensures k <= n
    decreases |plan|
  {
    if n == 0 then 0
    else if plan == [] then n
    else if plan[0].Interrupted? then Emits(plan[1..], n)
    else if Stops(plan[0]) then 0
    else
      var w := Min(plan[0].n, n);
      w + Emits(plan[1..], n - w)
  }

  /** The plan left when that loop ends. */
  function PlanAfter(plan: Plan, n: nat): (r: Plan)
    decreases |plan|
  {
    if n == 0 || plan == [] then plan
    else if plan[0].Interrupted? then PlanAfter(plan[1..], n)
    else if Stops(plan[0]) then plan[1..]
    else PlanAfter(plan[1..], n - Min(plan[0].n, n))
  }

  /** What a plan lets through before it first stops; None when it never does. */
  function Capacity(plan: Plan): Option<nat> {
    if plan == [] then None
    else if plan[0].Interrupted? then Capacity(plan[1..])
    else if Stops(plan[0]) then Some(0)
    else match Capacity(plan[1..]) case None => None case Some(c) => Some(plan[0].n + c)
  }

  /** A write loop delivers everything up to the plan's first stop, however it is cut up. */
  lemma {:induction false} EmitsCapacity(plan: Plan, n: nat)
    ensures Emits(plan, n) == match Capacity(plan) case None => n case Some(c) => Min(n, c)
    decreases |plan|
  {
    if n != 0 && plan != [] && !Stops(plan[0]) {
      EmitsCapacity(plan[1..], if plan[0].Interrupted? then n else n - Min(plan[0].n, n));
    }
  }

  /** A loop that has moved w bytes is a loop asked for w fewer. */
  predicate StillTo(plan: Plan, n: nat, moved: nat, now: Plan) {
    && moved <= n && Emits(plan, n) == moved + Emits(now, n - moved)
    && PlanAfter(plan, n) == PlanAfter(now, n - moved)
  }

  /** What one call does to a loop that still has bytes to move. */
  lemma OneCall(plan: Plan, n: nat, moved: nat, now: Plan)
    requires StillTo(plan, n, moved, now) && moved < n
    ensures now == [] ==> StillTo(plan, n, n, now)
    ensures now != [] ==>
      match now[0]
      case Interrupted => StillTo(plan, n, moved, now[1..])
      case Broken => Emits(plan, n) == moved && PlanAfter(plan, n) == now[1..]
      case Moves(k) => if k == 0 then Emits(plan, n) == moved && PlanAfter(plan, n) == now[1..]
                       else StillTo(plan, n, moved + Min(k, n - moved), now[1..])
  {
  }

  lemma NoCall(plan: Plan, n: nat)
    ensures StillTo(plan, n, 0, plan)
    ensures forall now :: StillTo(plan, n, n, now) ==> Emits(plan, n) == n && PlanAfter(plan, n) == now
  {
  }

  /** The writing end of a connection: bytes that left it, what the kernel will do, and the pipe
      that chunks are spliced through. */
  class Conn {
    var out: Bytes
    var plan: Plan
    var pipe: Bytes

    constructor (plan: Plan)
      ensures this.plan == plan && out == [] && pipe == []
    {
      this.plan := plan;
      out := [];
      pipe := [];
    }

    /** One write call: w bytes of b leave, w < 0 is an error, and errno says if EINTR. */
    method Write(b: Bytes) returns (w: int, eintr: bool)
      requires b != []
      modifies `out, `plan
      ensures w <= |b|
      ensures out == old(out) + if w > 0 then b[..w] else []
      ensures old(plan) == [] ==> plan == [] && w == |b|
      ensures old(plan) != [] ==>
        && plan == old(plan)[1..]
        && match old(plan)[0] {
             case Moves(n) => w == Min(n, |b|)
             case Interrupted => w < 0 && eintr
             case Broken => w < 0 && !eintr
           }
    {
      eintr := false;
      if plan == [] {
        w := |b|;
      } else {
        match plan[0] {
          case Moves(n) => w := Min(n, |b|);
          case Interrupted => w := -1; eintr := true;
          case Broken => w := -1;
        }
        plan := plan[1..];
      }
      if w > 0 { out := out + b[..w]; } else { out := out + []; }
    }

    /** Write until done; a failed call returns -1, a call that moves nothing ends it early. */
    method WriteN(b: Bytes) returns (r: int)
      modifies `out, `plan
      ensures var k := Emits(old(plan), |b|);
              out == old(out) + b[..k] && (r == k || (r == -1 && k < |b|))
      ensures plan == PlanAfter(old(plan), |b|)
    {
      hide Emits, PlanAfter, StillTo;
      var done := 0;
      assert b[..0] == [];
      NoCall(plan, |b|);
      while done < |b|
        invariant done <= |b| && out == old(out) + b[..done]
        invariant StillTo(old(plan), |b|, done, plan)
        decreases |b| - done + |plan|
      {
        OneCall(old(plan), |b|, done, plan);
        var w, eintr := Write(b[done..]);
        if w < 0 {
          if eintr { continue; }
          return -1;
        }
        if w == 0 { break; }
        assert b[done..][..w] == b[done..done + w];
        assert b[..done] + b[done..done + w] == b[..done + w];
        done := done + w;
      }
      return done;
    }

    /** The host's side: header, then payload, each written in full or given up on. On failure
        the peer has seen a proper prefix of the frame and nothing else. */
    method WriteFrame(f: Frame) returns (ok: bool)
      requires Sendable(f)
      modifies `out, `plan
      ensures ok ==> out == old(out) + Encoded(f)
      ensures !ok ==> old(out) <= out < old(out) + Encoded(f)
      ensures Capacity(old(plan)).None? ==> ok
    {
      hide Emits, PlanAfter, Capacity, Header;
      var hdr := Header(f.id, f.ty, |f.payload|);
      NeverStops(plan, HEADER);
      NeverStops(PlanAfter(plan, HEADER), |f.payload|);
      var r := WriteN(hdr);
      if r != HEADER { return false; }
      assert hdr[..HEADER] == hdr;
      if f.payload != [] {
        r := WriteN(f.payload);
        if r != |f.payload| { return false; }
        assert f.payload[..r] == f.payload;
      }
      assert old(out) + hdr + f.payload == old(out) + (hdr + f.payload);
      ok := true;
    }

    /** Header and payload in one gathered write, looping past partial writes. */
    method SendFrame(f: Frame)
      requires Sendable(f)
      modifies `out, `plan
      ensures out == old(out) + Encoded(f)[..Emits(old(plan), |Encoded(f)|)]
      ensures plan == PlanAfter(old(plan), |Encoded(f)|)
    {
      hide Emits, PlanAfter, StillTo, Encoded, Left;
      ghost var all := Encoded(f);
      NoCall(plan, |all|);
      var iov, n := Vectors(f);
      var i: nat := 0;
      ghost var done: nat := 0;
      assert all[0..] == all && all[..0] == [];
      while i < n
        invariant i <= n == iov.Length && fresh(iov)
        invariant NoneEmpty(iov[..], i) && done <= |all| && Left(iov[..], i) == all[done..]
        invariant out == old(out) + all[..done]
        invariant StillTo(old(plan), |all|, done, plan)
        decreases |all| - done + |plan|
      {
        var parts := Left(iov[..], i);
        LeftBytes(iov[..], i);
        OneCall(old(plan), |all|, done, plan);
        var w, eintr := Write(parts);
        if w < 0 {
          if eintr { continue; }
          return;
        }
        if w == 0 { break; }
        assert all[..done] + all[done..][..w] == all[..done + w];
        assert all[done..][w..] == all[done + w..];
        done := done + w;
        i := Advance(iov, i, w);
      }
      LeftBytes(iov[..], i);
      assert i == n ==> all[..done] == all;
    }

    /** Move n bytes from the pipe to the connection. */
    method SpliceDrain(n: nat) returns (ok: bool)
      requires n <= |pipe|
      modifies this
      ensures var k := Emits(old(plan), n);
              && out == old(out) + old(pipe)[..k] && pipe == old(pipe)[k..] && (ok <==> k == n)
      ensures plan == PlanAfter(old(plan), n)
    {
      hide Emits, PlanAfter, StillTo;
      ghost var was := pipe;
      NoCall(plan, n);
      var left: nat := n;
      while left > 0
        invariant left <= n && out == old(out) + was[..n - left] && pipe == was[n - left..]
        invariant StillTo(old(plan), n, n - left, plan)
        decreases left + |plan|
      {
        OneCall(old(plan), n, n - left, plan);
        var w, eintr := Write(pipe[..left]);
        if w < 0 {
          if eintr { continue; }
          return false;
        }
        if w == 0 { return false; }
        assert was[..n - left] + was[n - left..][..left][..w] == was[..n - left + w];
        pipe := pipe[w..];
        left := left - w;
      }
      ok := true;
    }

    /** One chunk of terminal output, already in the pipe: the header is written, then the chunk
        is drained behind it. A connection that never stops gets the bytes the copy path sends,
        and the pipe is left empty. */
    method ForwardSpliced(id: nat)
      requires id < TWO32 && pipe != [] && |pipe| + HEADER < TWO32
      modifies this
      ensures var (h, p) := (Emits(old(plan), HEADER), PlanAfter(old(plan), HEADER));
              var k := Emits(p, |old(pipe)|);
              && out == old(out) + Header(id, T_DATA, |old(pipe)|)[..h] + old(pipe)[..k]
              && pipe == old(pipe)[k..]
      ensures Capacity(old(plan)).None? ==>
        out == old(out) + Encoded(Frame(id, T_DATA, old(pipe))) && pipe == []
    {
      hide Emits, PlanAfter, Capacity, Header;
      var n := |pipe|;
      var hdr := Header(id, T_DATA, n);
      var _ := WriteN(hdr);
      var _ := SpliceDrain(n);
      NeverStops(old(plan), HEADER);
      NeverStops(PlanAfter(old(plan), HEADER), n);
      assert Capacity(old(plan)).None? ==>
        out == old(out) + hdr + old(pipe) && old(out) + hdr + old(pipe) == old(out) + (hdr + old(pipe));
    }
  }

  /** Header and payload as write vectors; an empty payload gets none. */
  method Vectors(f: Frame) returns (iov: array<Bytes>, n: nat)
    requires Sendable(f)
    ensures fresh(iov) && n == iov.Length && NoneEmpty(iov[..], 0) && Left(iov[..], 0) == Encoded(f)
  {
    var hdr := Header(f.id, f.ty, |f.payload|);
    n := if |f.payload| > 0 then 2 else 1;
    iov := new Bytes[n];
    iov[0] := hdr;
    if n == 2 { iov[1] := f.payload; }
    LeftOf(hdr, f.payload);
    assert iov[..] == if n == 2 then [hdr, f.payload] else [hdr];
  }

  lemma LeftOf(a: Bytes, b: Bytes)
    ensures Left([a, b], 0) == a + b && Left([a], 0) == a
  {
    assert Left([a, b], 2) == [] && Left([a], 1) == [];
    assert Left([a, b], 1) == b + [] == b;
    assert a + [] == a;
  }

  /** The bytes the vectors from i on still hold. */
  function Left(iov: seq<Bytes>, i: nat): Bytes
    requires i <= |iov|
    decreases |iov| - i
  {
    if i == |iov| then [] else iov[i] + Left(iov, i + 1)
  }

  predicate NoneEmpty(iov: seq<Bytes>, i: nat) { forall j :: i <= j < |iov| ==> iov[j] != [] }

  lemma LeftBytes(iov: seq<Bytes>, i: nat)
    requires i <= |iov| && NoneEmpty(iov, i)
    ensures Left(iov, i) == [] <==> i == |iov|
  {
  }

  /** Step over w written bytes: whole vectors first, then into the next one. */
  method Advance(iov: array<Bytes>, from: nat, w: nat) returns (i: nat)
    requires from <= iov.Length && w <= |Left(iov[..], from)| && NoneEmpty(iov[..], from)
    modifies iov
    ensures from <= i <= iov.Length && NoneEmpty(iov[..], i)
    ensures Left(iov[..], i) == old(Left(iov[..], from))[w..]
  {
    var adv: nat := w;
    i := from;
    ghost var was := iov[..];
    ghost var all := Left(was, from);
    assert all[0..] == all;
    while i < iov.Length && adv >= |iov[i]|
      invariant from <= i <= iov.Length && iov[..] == was
      invariant adv <= w && adv <= |Left(was, i)|
      invariant Left(was, i)[adv..] == all[w..]
    {
      ghost var here, next := was[i], Left(was, i + 1);
      assert (here + next)[adv..] == next[adv - |here|..];
      adv := adv - |iov[i]|;
      i := i + 1;
    }
    if i < iov.Length {
      ghost var here, next := was[i], Left(was, i + 1);
      assert (here + next)[adv..] == here[adv..] + next;
      iov[i] := iov[i][adv..];
      SameTail(was, iov[..], i + 1);
    }
  }

  lemma {:induction false} SameTail(a: seq<Bytes>, b: seq<Bytes>, i: nat)
    requires |a| == |b| && i <= |a| && forall j :: i <= j < |a| ==> a[j] == b[j]
    ensures Left(a, i) == Left(b, i)
    decreases |a| - i
  {
    if i < |a| {
      SameTail(a, b, i + 1);
    }
  }

  lemma {:induction false} NeverStops(plan: Plan, n: nat)
    ensures Capacity(plan).None? ==> Emits(plan, n) == n && Capacity(PlanAfter(plan, n)).None?
    decreases |plan|
  {
    if n != 0 && plan != [] && !Stops(plan[0]) {
      NeverStops(plan[1..], if plan[0].Interrupted? then n else n - Min(plan[0].n, n));
    }
  }

  // ---- reading ------------------------------------------------------------------------------

  datatype Got = Full | AtEof | Failed

  /** A read loop asked for n bytes of the next `avail`: how many it takes, and how it ends. */
  function Reads(plan: Plan, avail: nat, n: nat): (r: (nat, Got))
    ensures r.0 <= n && r.0 <= avail && (r.1 == Full ==> r.0 == n)
    decreases |plan|
  {
    if n == 0 then (0, Full)
    else if plan == [] then (if n <= avail then (n, Full) else (avail, AtEof))
    else match plan[0]
      case Interrupted => Reads(plan[1..], avail, n)
      case Broken => (0, Failed)
      case Moves(m) =>
        var w := Min(m, Min(avail, n));
        if w == 0 then (0, AtEof)
        else
          var t := Reads(plan[1..], avail - w, n - w);
          (w + t.0, t.1)
  }

  /** An exact read succeeds exactly when the bytes are there and the plan lets them through. */
  lemma {:induction false} ReadsExactly(plan: Plan, avail: nat, n: nat)
    ensures Reads(plan, avail, n).1 == Full <==>
      n <= avail && match Capacity(plan) case None => true case Some(c) => n <= c
    ensures Capacity(plan).None? ==> Reads(plan, avail, n).1 != Failed
    decreases |plan|
  {
    if n != 0 && plan != [] {
      match plan[0] {
        case Interrupted => ReadsExactly(plan[1..], avail, n);
        case Broken =>
        case Moves(m) =>
          var w := Min(m, Min(avail, n));
          if w != 0 { ReadsExactly(plan[1..], avail - w, n - w); }
      }
    }
  }

  /** A loop that has taken `got` bytes is a loop asked for that many fewer. */
  predicate StillReads(plan: Plan, avail: nat, n: nat, got: nat, now: Plan) {
    && got <= n && got <= avail
    && (Capacity(plan).None? ==> Capacity(now).None?)
    && var (k, g) := Reads(now, avail - got, n - got);
       Reads(plan, avail, n) == (got + k, g)
  }

  lemma OneRead(plan: Plan, avail: nat, n: nat, got: nat, now: Plan)
    requires StillReads(plan, avail, n, got, now) && got < n
    ensures var most := Min(avail - got, n - got);
            if now == [] then
              if most == 0 then Reads(plan, avail, n) == (got, AtEof)
              else StillReads(plan, avail, n, got + most, [])
            else match now[0] {
              case Interrupted => StillReads(plan, avail, n, got, now[1..])
              case Broken => Reads(plan, avail, n) == (got, Failed) && Capacity(plan).Some?
              case Moves(m) =>
                if Min(m, most) == 0 then Reads(plan, avail, n) == (got, AtEof)
                else StillReads(plan, avail, n, got + Min(m, most), now[1..])
            }
  {
  }

  lemma ReadStart(plan: Plan, avail: nat, n: nat)
    ensures StillReads(plan, avail, n, 0, plan)
    ensures forall now :: StillReads(plan, avail, n, n, now) ==> Reads(plan, avail, n) == (n, Full)
  {
  }

  datatype ReadResult = Read(id: nat, ty: byte, len: nat) | End | TooLarge | IoError

  /** The host's end: the bytes still to come, and the payload buffer reused for every frame. */
  class Source {
    var rest: Bytes
    var plan: Plan
    var scratch: array<byte>

    constructor (data: Bytes, plan: Plan, n: nat)
      ensures rest == data && this.plan == plan && fresh(scratch) && scratch.Length == n
    {
      rest, this.plan := data, plan;
      scratch := new byte[n];
    }

    /** One read call into buf[from..to]; k < 0 is an error. */
    method ReadSome(buf: array<byte>, from: nat, to: nat) returns (k: int, eintr: bool)
      requires from < to <= buf.Length
      modifies `rest, `plan, buf
      ensures k <= to - from && k <= |old(rest)|
      ensures rest == if k > 0 then old(rest)[k..] else old(rest)
      ensures buf[..] == old(buf[..from]) + (if k > 0 then old(rest)[..k] + old(buf[from + k..]) else old(buf[from..]))
      ensures old(plan) == [] ==> plan == [] && k == Min(|old(rest)|, to - from)
      ensures old(plan) != [] ==>
        && plan == old(plan)[1..]
        && match old(plan)[0] {
             case Moves(m) => k == Min(m, Min(|old(rest)|, to - from))
             case Interrupted => k < 0 && eintr
             case Broken => k < 0 && !eintr
           }
    {
      eintr := false;
      var most := Min(|rest|, to - from);
      if plan == [] {
        k := most;
      } else {
        match plan[0] {
          case Moves(m) => k := Min(m, most);
          case Interrupted => k := -1; eintr := true;
          case Broken => k := -1;
        }
        plan := plan[1..];
      }
      if k > 0 {
        var part := rest[..k];
        forall i | 0 <= i < k { buf[from + i] := part[i]; }
        rest := rest[k..];
      }
    }

    /** Fill buf[..n]. */
    method ReadFull(buf: array<byte>, n: nat) returns (r: Got)
      requires n <= buf.Length
      modifies `rest, `plan, buf
      ensures var (k, g) := Reads(old(plan), |old(rest)|, n);
              r == g && rest == old(rest)[k..] && buf[..k] == old(rest)[..k]
      ensures r == Full && Capacity(old(plan)).None? ==> Capacity(plan).None?
    {
      hide Reads, Capacity, StillReads;
      var got: nat := 0;
      ghost var was, all := plan, rest;
      ReadStart(was, |all|, n);
      assert buf[..0] == [] && all[0..] == all;
      while got < n
        invariant got <= n && got <= |all| && rest == all[got..] && buf[..got] == all[..got]
        invariant StillReads(was, |all|, n, got, plan)
        decreases n - got + |plan|
      {
        OneRead(was, |all|, n, got, plan);
        var k, eintr := ReadSome(buf, got, n);
        if k < 0 {
          if eintr { continue; }
          return Failed;
        }
        if k == 0 { return AtEof; }
        assert all[..got] + all[got..][..k] == all[..got + k];
        assert buf[..got + k] == buf[..][..got + k];
        got := got + k;
      }
      assert StillReads(was, |all|, n, n, plan);
      KeepsFlowing(was, |all|, n, n, plan);
      r := Full;
    }

    /** One frame, its payload at the front of the scratch buffer, which grows when it must and
        never shrinks. A frame is returned only if it stands whole at the front of the stream;
        on a connection that does not stop it is returned exactly then, unless its length is
        over the limit. */
    method ReadFrame() returns (r: ReadResult)
      modifies this, scratch
      ensures scratch.Length >= old(scratch.Length) && (scratch == old(scratch) || fresh(scratch))
      ensures r.Read? ==>
        && Complete(old(rest)) && Declared(old(rest)) <= MAX_FRAME
        && r.len <= scratch.Length && First(old(rest)) == Frame(r.id, r.ty, scratch[..r.len])
        && rest == AfterFirst(old(rest))
      ensures Capacity(old(plan)).None? ==>
        && (r.Read? ==> Capacity(plan).None?)
        && r != IoError
        && (r == TooLarge <==> |old(rest)| >= HEADER && Declared(old(rest)) > MAX_FRAME)
        && (r == End <==> !Complete(old(rest)) && r != TooLarge)
    {
      hide Reads, Capacity;
      ghost var all := rest;
      var hdr := new byte[HEADER];
      ReadsExactly(plan, |all|, HEADER);
      var g := ReadFull(hdr, HEADER);
      if g != Full { return if g == AtEof then End else IoError; }
      assert hdr[..] == all[..HEADER];
      HeaderOf(hdr[..], all);
      var id, ty, len := Rd32(hdr[..], 0), hdr[4], Declared(hdr[..]);
      if len > MAX_FRAME { return TooLarge; }
      if len > scratch.Length {
        scratch := Grown(scratch, len);
      }
      ReadsExactly(plan, |rest|, len);
      if len > 0 {
        g := ReadFull(scratch, len);
        if g != Full { return if g == AtEof then End else IoError; }
      } else {
        assert scratch[..0] == [] && rest[0..] == rest;
      }
      r := Read(id, ty, len);
      assert all[HEADER..][..len] == all[HEADER..HEADER + len];
      assert all[HEADER..][len..] == all[HEADER + len..];
    }

    /** `Vec::resize`: a larger array with the old contents first and zeros after. */
    static method Grown(a: array<byte>, n: nat) returns (b: array<byte>)
      requires a.Length <= n
      ensures fresh(b) && b.Length == n && b[..a.Length] == a[..]
      ensures forall i :: a.Length <= i < n ==> b[i] == 0
    {
      b := new byte[n](_ => 0);
      forall i | 0 <= i < a.Length { b[i] := a[i]; }
    }
  }

  lemma KeepsFlowing(plan: Plan, avail: nat, n: nat, got: nat, now: Plan)
    requires StillReads(plan, avail, n, got, now)
    ensures Capacity(plan).None? ==> Capacity(now).None?
  {
  }

  lemma HeaderOf(hdr: Bytes, all: Bytes)
    requires |hdr| == HEADER <= |all| && hdr == all[..HEADER]
    ensures Rd32(hdr, 0) == Rd32(all, 0) && hdr[4] == all[4] && Declared(hdr) == Declared(all)
  {
  }

  /** Every frame the stream announces is within the limit, a last unfinished one included. */
  predicate FrameLimits(b: Bytes)
    decreases |b|
  {
    |b| >= HEADER ==> Declared(b) <= MAX_FRAME && (Complete(b) ==> FrameLimits(AfterFirst(b)))
  }

  lemma LimitsAt(b: Bytes)
    ensures FrameLimits(b) && |b| >= HEADER ==> Declared(b) <= MAX_FRAME
    ensures !Complete(b) ==> Decode(b).0 == []
  {
  }

  /** Frames within the limit are never refused and come out exactly, whatever the reads. */
  lemma {:induction false} LimitsKept(fs: seq<Frame>)
    requires AllSendable(fs) && forall i :: 0 <= i < |fs| ==> |fs[i].payload| <= MAX_FRAME
    ensures FrameLimits(EncodedAll(fs)) && Decode(EncodedAll(fs)).0 == fs
  {
    hide Encoded, Complete, First, AfterFirst;
    if fs != [] {
      LimitsKept(fs[1..]);
      FirstOfEncoded(fs[0], EncodedAll(fs[1..]));
      DeclaredIs(EncodedAll(fs));
      assert [fs[0]] + fs[1..] == fs;
    }
  }

  lemma DeclaredIs(b: Bytes)
    requires Complete(b)
    ensures |b| >= HEADER && Declared(b) == |First(b).payload|
  {
  }
}
