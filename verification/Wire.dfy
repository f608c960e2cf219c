/** The frames that host and daemon exchange, little-endian and length-prefixed:
    [u32 session][u8 type][u32 length][payload]; their encoder, and what a decoder must make of
    any stream of bytes however it is cut into reads. */
module Wire {
  import opened Cells
  import opened Text

  const TWO16: nat := 0x1_0000
  const TWO32: nat := 0x1_0000_0000
  const HEADER: nat := 9
  const MAX_FRAME: nat := 64 * 1024 * 1024

  const T_OPEN: byte := 1
  const T_DATA: byte := 2
  const T_RESIZE: byte := 3
  const T_SIGNAL: byte := 4
  const T_CLOSE: byte := 5
  const T_EXIT: byte := 6
  const T_INFO: byte := 7

  // ---- integers ---------------------------------------------------------------------------

  function Le16(n: nat): (b: Bytes)
    requires n < TWO16
    ensures |b| == 2 && Rd16(b, 0) == n
  {
    assert n / 256 < 256;
    [n % 256, n / 256]
  }

  function Rd16(b: Bytes, k: nat): (n: nat)
    requires k + 2 <= |b|
    ensures n < TWO16
  {
    var lo: int := b[k];
    var hi: int := b[k + 1];
    lo + hi * 256
  }

  function Le32(n: nat): (b: Bytes)
    requires n < TWO32
    ensures |b| == 4
  {
    Le16(n % TWO16) + Le16(n / TWO16)
  }

  function Rd32(b: Bytes, k: nat): (n: nat)
    requires k + 4 <= |b|
    ensures n < TWO32
  {
    Rd16(b, k) + Rd16(b, k + 2) * TWO16
  }

  /** Reading four bytes gives n exactly when they are n's little-endian bytes. */
  lemma Le32Read(b: Bytes, k: nat, n: nat)
    requires k + 4 <= |b| && n < TWO32
    ensures Rd32(b, k) == n <==> b[k..k + 4] == Le32(n)
  {
    var lo, hi := Rd16(b, k), Rd16(b, k + 2);
    assert (lo + hi * TWO16) % TWO16 == lo && (lo + hi * TWO16) / TWO16 == hi;
    Le16Read(b, k, n % TWO16);
    Le16Read(b, k + 2, n / TWO16);
    assert b[k..k + 4] == b[k..k + 2] + b[k + 2..k + 4];
    hide Rd16, Le16;
  }

  lemma Le16Read(b: Bytes, k: nat, n: nat)
    requires k + 2 <= |b| && n < TWO16
    ensures Rd16(b, k) == n <==> b[k..k + 2] == Le16(n)
  {
    assert b[k..k + 2] == [b[k], b[k + 1]];
  }

  /** `i32::from_le_bytes`. */
  function Signed(n: nat): int
    requires n < TWO32
  {
    if n < 0x8000_0000 then n else n - TWO32
  }

  function Add32(a: nat, b: nat): nat { (a + b) % TWO32 }

  // ---- frames -----------------------------------------------------------------------------

  datatype Frame = Frame(id: nat, ty: byte, payload: Bytes)

  /** The daemon steps over a frame in 32 bits: it lands behind the frame exactly when the sum
      does not wrap; the longest length that makes it wrap does not move it at all. */
  lemma StepOver(n: nat)
    requires n < TWO32
    ensures Add32(HEADER, n) == HEADER + n <==> HEADER + n < TWO32
    ensures Add32(HEADER, n) == 0 <==> n == TWO32 - HEADER
  {
  }

  /** What the header can describe, and that step can cross. */
  predicate Sendable(f: Frame) {
    f.id < TWO32 && |f.payload| + HEADER < TWO32
  }

  predicate AllSendable(fs: seq<Frame>) {
    forall i :: 0 <= i < |fs| ==> Sendable(fs[i])
  }

  function Header(id: nat, ty: byte, n: nat): (b: Bytes)
    requires id < TWO32 && n < TWO32
    ensures |b| == HEADER
  {
    Le32(id) + [ty] + Le32(n)
  }

  function Encoded(f: Frame): Bytes
    requires Sendable(f)
  {
    Header(f.id, f.ty, |f.payload|) + f.payload
  }

  function EncodedAll(fs: seq<Frame>): Bytes
    requires AllSendable(fs)
  {
    if fs == [] then [] else Encoded(fs[0]) + EncodedAll(fs[1..])
  }

  lemma {:induction false} EncodedLast(fs: seq<Frame>, f: Frame)
    requires AllSendable(fs) && Sendable(f)
    ensures AllSendable(fs + [f]) && EncodedAll(fs + [f]) == EncodedAll(fs) + Encoded(f)
  {
    hide Encoded, Sendable;
    var all := fs + [f];
    if fs == [] {
      assert all == [f] && [f][1..] == [] && Encoded(f) + [] == [] + Encoded(f);
    } else {
      EncodedLast(fs[1..], f);
      assert all[0] == fs[0] && all[1..] == fs[1..] + [f];
      assert Encoded(fs[0]) + (EncodedAll(fs[1..]) + Encoded(f)) == Encoded(fs[0]) + EncodedAll(fs[1..]) + Encoded(f);
    }
  }

  function Declared(b: Bytes): (n: nat)
    requires |b| >= HEADER
    ensures n < TWO32
  {
    Rd32(b, 5)
  }

  /** A whole frame stands at the front. */
  predicate Complete(b: Bytes) {
    |b| >= HEADER && |b| >= HEADER + Declared(b)
  }

  function First(b: Bytes): Frame
    requires Complete(b)
  {
    Frame(Rd32(b, 0), b[4], b[HEADER..HEADER + Declared(b)])
  }

  function AfterFirst(b: Bytes): (r: Bytes)
    requires Complete(b)
    ensures |r| < |b|
  {
    b[HEADER + Declared(b)..]
  }

  /** The frames at the front of a stream, and the bytes of an unfinished one. */
  function Decode(b: Bytes): (r: (seq<Frame>, Bytes))
    decreases |b|
  {
    if Complete(b) then
      var t := Decode(AfterFirst(b));
      ([First(b)] + t.0, t.1)
    else ([], b)
  }

  // ---- one frame ----------------------------------------------------------------------------

  lemma HeaderRead(id: nat, ty: byte, n: nat, rest: Bytes)
    requires id < TWO32 && n < TWO32
    ensures var b := Header(id, ty, n) + rest;
            Rd32(b, 0) == id && b[4] == ty && Declared(b) == n && b[HEADER..] == rest
  {
    hide Le32, Rd32;
    var b := Header(id, ty, n) + rest;
    assert b[0..4] == Le32(id) && b[5..9] == Le32(n);
    Le32Read(b, 0, id);
    Le32Read(b, 5, n);
  }

  /** An encoded frame is found whole at the front of whatever follows it. */
  lemma FirstOfEncoded(f: Frame, rest: Bytes)
    requires Sendable(f)
    ensures var b := Encoded(f) + rest; Complete(b) && First(b) == f && AfterFirst(b) == rest
  {
    hide Header, Rd32, Declared;
    var n := |f.payload|;
    HeaderRead(f.id, f.ty, n, f.payload + rest);
    var b := Encoded(f) + rest;
    assert b == Header(f.id, f.ty, n) + (f.payload + rest);
    assert b[HEADER..][..n] == f.payload;
    assert b[HEADER..][n..] == rest;
    assert b[HEADER..HEADER + n] == b[HEADER..][..n];
    assert b[HEADER + n..] == b[HEADER..][n..];
  }

  /** A frame found at the front was encoded there, byte for byte. */
  lemma EncodedFirst(b: Bytes)
    requires Complete(b) && Sendable(First(b))
    ensures b == Encoded(First(b)) + AfterFirst(b)
  {
    var f := First(b);
    var i, n := Rd32(b, 0), Declared(b);
    hide Le32, Rd32;
    Le32Read(b, 0, i);
    Le32Read(b, 5, n);
    assert b[..HEADER] == b[0..4] + [b[4]] + b[5..9];
    assert b == b[..HEADER] + b[HEADER..HEADER + n] + b[HEADER + n..];
  }

  // ---- streams ------------------------------------------------------------------------------

  /** Frames written back to back are read back exactly, with any unfinished tail kept. */
  lemma {:induction false} DecodeUndoesEncode(fs: seq<Frame>, tail: Bytes)
    requires AllSendable(fs) && !Complete(tail)
    ensures Decode(EncodedAll(fs) + tail) == (fs, tail)
  {
    hide Encoded, Complete, First, AfterFirst;
    if fs == [] {
      assert [] + tail == tail;
    } else {
      var more := EncodedAll(fs[1..]) + tail;
      FirstOfEncoded(fs[0], more);
      DecodeUndoesEncode(fs[1..], tail);
      assert EncodedAll(fs) + tail == Encoded(fs[0]) + more;
      assert [fs[0]] + fs[1..] == fs;
    }
  }

  /** Nothing is lost and nothing invented: the decoded frames and the kept tail are the bytes
      that came in, and less than one frame is kept. */
  lemma {:induction false} EncodeUndoesDecode(b: Bytes)
    requires AllSendable(Decode(b).0)
    ensures var (fs, tail) := Decode(b); EncodedAll(fs) + tail == b && !Complete(tail)
    decreases |b|
  {
    if Complete(b) {
      var t := Decode(AfterFirst(b));
      DecodesFirst(b);
      hide Encoded, Complete, First, AfterFirst, Decode, EncodedAll, AllSendable;
      EncodedFirst(b);
      EncodeUndoesDecode(AfterFirst(b));
      EncodedPlus(First(b), t.0, t.1);
    } else {
      assert EncodedAll([]) + b == b;
    }
  }

  lemma DecodesFirst(b: Bytes)
    requires Complete(b)
    ensures |AfterFirst(b)| < |b|
    ensures var t := Decode(AfterFirst(b));
            && Decode(b) == ([First(b)] + t.0, t.1)
            && (AllSendable(Decode(b).0) ==> Sendable(First(b)) && AllSendable(t.0))
  {
    hide First;
    var t := Decode(AfterFirst(b));
    if AllSendable([First(b)] + t.0) {
      assert ([First(b)] + t.0)[0] == First(b);
      forall i | 0 <= i < |t.0| ensures Sendable(t.0[i]) { assert ([First(b)] + t.0)[i + 1] == t.0[i]; }
    }
  }

  lemma EncodedPlus(f: Frame, fs: seq<Frame>, tail: Bytes)
    requires Sendable(f) && AllSendable(fs)
    ensures AllSendable([f] + fs) && EncodedAll([f] + fs) + tail == Encoded(f) + (EncodedAll(fs) + tail)
  {
    hide Encoded;
    assert ([f] + fs)[0] == f && ([f] + fs)[1..] == fs;
  }

  lemma CompleteStays(b: Bytes, more: Bytes)
    requires Complete(b)
    ensures Complete(b + more) && First(b + more) == First(b) && AfterFirst(b + more) == AfterFirst(b) + more
  {
    var c := b + more;
    assert Rd32(c, 0) == Rd32(b, 0) && Declared(c) == Declared(b) && c[4] == b[4];
    var n := HEADER + Declared(b);
    assert c[HEADER..n] == b[HEADER..n];
    assert c[n..] == b[n..] + more;
  }

  /** Decoding may stop anywhere and resume: the tail kept so far carries all that matters. */
  lemma {:induction false} DecodeResumes(a: Bytes, b: Bytes)
    ensures var (fs, tail) := Decode(a);
            var (gs, last) := Decode(tail + b);
            Decode(a + b) == (fs + gs, last)
    decreases |a|
  {
    hide Complete, First, AfterFirst;
    if Complete(a) {
      CompleteStays(a, b);
      DecodeResumes(AfterFirst(a), b);
      var (fs, tail) := Decode(AfterFirst(a));
      var (gs, last) := Decode(tail + b);
      assert [First(a)] + (fs + gs) == [First(a)] + fs + gs;
    } else {
      assert Decode(a).0 == [];
      assert [] + Decode(a + b).0 == Decode(a + b).0;
    }
  }

  function Joined(chunks: seq<Bytes>): Bytes {
    if chunks == [] then [] else Joined(chunks[..|chunks| - 1]) + chunks[|chunks| - 1]
  }

  /** The frames handled and the bytes kept after reading the chunks one by one. */
  function ReadAll(chunks: seq<Bytes>): (seq<Frame>, Bytes) {
    if chunks == [] then ([], [])
    else
      var (fs, tail) := ReadAll(chunks[..|chunks| - 1]);
      var (gs, last) := Decode(tail + chunks[|chunks| - 1]);
      (fs + gs, last)
  }

  /** Reads of any sizes amount to one read of everything. */
  lemma {:induction false} AnyReads(chunks: seq<Bytes>)
    ensures ReadAll(chunks) == Decode(Joined(chunks))
  {
    hide Complete;
    if chunks == [] {
      assert !Complete([]) by { CompleteNeedsHeader([]); }
    } else {
      AnyReads(chunks[..|chunks| - 1]);
      DecodeResumes(Joined(chunks[..|chunks| - 1]), chunks[|chunks| - 1]);
    }
  }

  lemma CompleteNeedsHeader(b: Bytes)
    requires |b| < HEADER
    ensures !Complete(b)
  {
  }

  /** Host to daemon: any frames, cut into reads in any way, arrive exactly and in order, and
      nothing is left over. */
  lemma FramesArrive(fs: seq<Frame>, chunks: seq<Bytes>)
    requires AllSendable(fs) && Joined(chunks) == EncodedAll(fs)
    ensures ReadAll(chunks) == (fs, [])
  {
    AnyReads(chunks);
    DecodeUndoesEncode(fs, []);
    assert EncodedAll(fs) + [] == EncodedAll(fs);
  }

  /** In the middle of such a stream: what has been handled is a prefix of the frames, and what
      is kept is a proper prefix of the next frame's bytes. */
  lemma {:induction false} PartOfStream(fs: seq<Frame>, seen: Bytes)
    requires AllSendable(fs) && seen <= EncodedAll(fs)
    ensures var (gs, tail) := Decode(seen);
            && gs <= fs
            && (if |gs| == |fs| then tail == [] else tail < Encoded(fs[|gs|]))
    decreases |fs|
  {
    hide Encoded, First, AfterFirst;
    if fs == [] {
      assert seen == [];
    } else if |seen| >= |Encoded(fs[0])| {
      var e := Encoded(fs[0]);
      var later := seen[|e|..];
      assert seen == e + later;
      assert forall i :: 0 <= i < |later| ==>
        later[i] == seen[i + |e|] == EncodedAll(fs)[i + |e|] == EncodedAll(fs[1..])[i];
      FirstOfEncoded(fs[0], later);
      PartOfStream(fs[1..], later);
      var (gs, tail) := Decode(later);
      assert Decode(seen) == ([fs[0]] + gs, tail);
      assert fs == [fs[0]] + fs[1..];
    } else {
      ShortOfFirst(fs[0], EncodedAll(fs[1..]), seen);
    }
  }

  lemma ShortOfFirst(f: Frame, more: Bytes, seen: Bytes)
    requires Sendable(f) && seen <= Encoded(f) + more && |seen| < |Encoded(f)|
    ensures !Complete(seen) && seen < Encoded(f)
  {
    var b := Encoded(f) + more;
    assert seen == b[..|seen|];
    if |seen| >= HEADER {
      FirstOfEncoded(f, more);
      assert Declared(seen) == Declared(b) == |f.payload|;
    }
  }

  /** A peer that keeps its payloads within MAX_FRAME never makes the daemon hold 2^32 bytes. */
  lemma KeptIsSmall(fs: seq<Frame>, seen: Bytes)
    requires AllSendable(fs) && seen <= EncodedAll(fs)
    requires forall i :: 0 <= i < |fs| ==> |fs[i].payload| <= MAX_FRAME
    ensures |Decode(seen).1| < HEADER + MAX_FRAME
  {
    PartOfStream(fs, seen);
    var (gs, tail) := Decode(seen);
    if |gs| < |fs| {
      assert |fs[|gs|].payload| <= MAX_FRAME;
    }
  }

  // ---- the OPEN payload -----------------------------------------------------------------------

  /** [u16 cols][u16 rows][u32 length][cwd][u32 0]; columns and rows at least 1. */
  function OpenPayload(cols: nat, rows: nat, cwd: Bytes): Bytes
    requires cols < TWO16 && rows < TWO16 && |cwd| < TWO32
  {
    Le16(Max(cols, 1)) + Le16(Max(rows, 1)) + Le32(|cwd|) + cwd + Le32(0)
  }

  /** What the daemon makes of an OPEN payload. */
  datatype Opening =
    | Refused                                     // too short: EXIT 127
    | Dropped                                     // cwd longer than the frame: ignored
    | Overrun                                     // a length whose end wraps 32 bits: reads outside
    | Launch(cols: nat, rows: nat, cwd: Bytes, shell: Bytes)

  /** The C string a buffer holds: up to its first NUL. */
  function CStr(b: Bytes): (r: Bytes)
    ensures 0 !in r && (0 !in b ==> r == b)
  {
    if b == [] || b[0] == 0 then [] else [b[0]] + CStr(b[1..])
  }

  function ReadOpen(p: Bytes): Opening
    requires |p| + HEADER < TWO32
  {
    if |p| < 8 then Refused
    else
      var cwdLen := Rd32(p, 4);
      if Add32(8, cwdLen) > |p| then Dropped
      else if 8 + cwdLen > |p| then Overrun
      else
        var off := 8 + cwdLen;
        var cwd := CStr(p[8..off]);
        if off + 4 > |p| then Launch(Rd16(p, 0), Rd16(p, 2), cwd, [])
        else
          var shLen := Rd32(p, off);
          if shLen == 0 || Add32(off + 4, shLen) > |p| then Launch(Rd16(p, 0), Rd16(p, 2), cwd, [])
          else if off + 4 + shLen > |p| then Overrun
          else Launch(Rd16(p, 0), Rd16(p, 2), cwd, CStr(p[off + 4..off + 4 + shLen]))
  }

  /** A stretch of bytes read, by offset from the start of the payload. */
  datatype Stretch = Stretch(start: nat, len: nat)

  /** Every stretch the daemon reads from an OPEN payload, with the offsets it computes in 32 bits:
      the fixed fields, the directory, the length of the shell, the shell. */
  function StretchesRead(p: Bytes): seq<Stretch>
    requires |p| + HEADER < TWO32
  {
    if |p| < 8 then []
    else
      var cwdLen := Rd32(p, 4);
      var off := Add32(8, cwdLen);
      if off > |p| then [Stretch(0, 8)]
      else [Stretch(0, 8), Stretch(8, cwdLen)] + ShellStretches(p, off)
  }

  function ShellStretches(p: Bytes, off: nat): seq<Stretch>
    requires off <= |p| && |p| + HEADER < TWO32
  {
    if Add32(off, 4) > |p| then []
    else
      var shLen := Rd32(p, off);
      if shLen == 0 || Add32(off + 4, shLen) > |p| then [Stretch(off, 4)]
      else [Stretch(off, 4), Stretch(off + 4, shLen)]
  }

  predicate Inside(ss: seq<Stretch>, n: nat) {
    forall i :: 0 <= i < |ss| ==> ss[i].start + ss[i].len <= n
  }

  /** A length field at the end of `off` bytes passes the 32-bit check although its field ends
      outside: the sum reaches 2^32 and what is left of it is small. */
  predicate Wraps(off: nat, len: nat, n: nat) { off + len >= TWO32 && Add32(off, len) <= n }

  /** The daemon stays inside an OPEN payload exactly when neither length field, added to its
      offset, wraps 32 bits to something the payload could hold. */
  lemma ReadsInside(p: Bytes)
    requires |p| + HEADER < TWO32
    ensures Inside(StretchesRead(p), |p|) <==> !ReadOpen(p).Overrun?
    ensures ReadOpen(p).Overrun? <==>
      && |p| >= 8
      && var cwdLen := Rd32(p, 4);
         || Wraps(8, cwdLen, |p|)
         || (12 + cwdLen <= |p| && Wraps(12 + cwdLen, Rd32(p, 8 + cwdLen), |p|))
  {
    hide Rd16, Rd32, CStr;
    if |p| >= 8 {
      var cwdLen := Rd32(p, 4);
      var ss := StretchesRead(p);
      if Wraps(8, cwdLen, |p|) {
        assert ss[1] == Stretch(8, cwdLen);
      } else if 8 + cwdLen <= |p| {
        ShellReadsInside(p, 8 + cwdLen);
        var more := ShellStretches(p, 8 + cwdLen);
        assert ss == [Stretch(0, 8), Stretch(8, cwdLen)] + more;
        assert Inside(ss, |p|) <==> Inside(more, |p|) by {
          assert forall i :: 0 <= i < |more| ==> ss[i + 2] == more[i];
        }
      }
    }
  }

  lemma ShellReadsInside(p: Bytes, off: nat)
    requires off <= |p| && |p| + HEADER < TWO32
    ensures Inside(ShellStretches(p, off), |p|) <==> !(off + 4 <= |p| && Wraps(off + 4, Rd32(p, off), |p|))
  {
    hide Rd32;
    if off + 4 <= |p| {
      var shLen := Rd32(p, off);
      var ss := ShellStretches(p, off);
      assert ss[0] == Stretch(off, 4);
      if shLen != 0 && Add32(off + 4, shLen) <= |p| { assert ss[1] == Stretch(off + 4, shLen); }
    }
  }

  /** Such payloads exist: any whose first length field is 2^32 - 1. */
  lemma LongestDirectory(p: Bytes)
    requires 8 <= |p| && |p| + HEADER < TWO32 && Rd32(p, 4) == 0xFFFF_FFFF
    ensures ReadOpen(p) == Overrun && StretchesRead(p)[1] == Stretch(8, 0xFFFF_FFFF)
    ensures !Inside(StretchesRead(p), |p|)
  {
    hide Rd16, Rd32;
    assert Add32(8, 0xFFFF_FFFF) == 7;
    assert StretchesRead(p)[1] == Stretch(8, 0xFFFF_FFFF);
  }

  /** The daemon reads back what the host meant: columns and rows at least 1, the directory as
      the C string it is, and no shell. The directory is unchanged exactly when it has no NUL. */
  lemma OpenArrives(cols: nat, rows: nat, cwd: Bytes)
    requires cols < TWO16 && rows < TWO16 && |cwd| + 12 + HEADER < TWO32
    ensures ReadOpen(OpenPayload(cols, rows, cwd)) == Launch(Max(cols, 1), Max(rows, 1), CStr(cwd), [])
    ensures CStr(cwd) == cwd <==> 0 !in cwd
  {
    hide Le16, Le32, Rd16, Rd32, CStr, ReadOpen;
    OpenFields(Le16(Max(cols, 1)), Le16(Max(rows, 1)), |cwd|, cwd, 0);
    WellFormedOpen(OpenPayload(cols, rows, cwd), |cwd|);
  }

  lemma WellFormedOpen(p: Bytes, n: nat)
    requires |p| == 12 + n && |p| + HEADER < TWO32 && Rd32(p, 4) == n && Rd32(p, 8 + n) == 0
    ensures ReadOpen(p) == Launch(Rd16(p, 0), Rd16(p, 2), CStr(p[8..8 + n]), [])
  {
    hide Rd16, Rd32, CStr;
    assert Add32(8, n) == 8 + n;
  }

  lemma OpenFields(c: Bytes, r: Bytes, l: nat, cwd: Bytes, s: nat)
    requires |c| == 2 && |r| == 2 && l < TWO32 && s < TWO32
    ensures var p := c + r + Le32(l) + cwd + Le32(s);
            && Rd16(p, 0) == Rd16(c, 0) && Rd16(p, 2) == Rd16(r, 0) && Rd32(p, 4) == l
            && p[8..8 + |cwd|] == cwd && Rd32(p, 8 + |cwd|) == s
  {
    hide Le32, Rd32;
    var p := c + r + Le32(l) + cwd + Le32(s);
    assert p[0] == c[0] && p[1] == c[1] && p[2] == r[0] && p[3] == r[1];
    var k := 8 + |cwd|;
    assert p[4..8] == Le32(l) && p[k..k + 4] == Le32(s);
    Le32Read(p, 4, l);
    Le32Read(p, k, s);
  }

  /** An OPEN that names a shell: it is read back too, as the C string it is. */
  lemma ShellArrives(cols: nat, rows: nat, cwd: Bytes, shell: Bytes)
    requires cols < TWO16 && rows < TWO16 && shell != [] && |cwd| + |shell| + 12 + HEADER < TWO32
    ensures var p := Le16(cols) + Le16(rows) + Le32(|cwd|) + cwd + Le32(|shell|) + shell;
            |p| + HEADER < TWO32 && ReadOpen(p) == Launch(cols, rows, CStr(cwd), CStr(shell))
  {
    var start := Le16(cols) + Le16(rows) + Le32(|cwd|) + cwd + Le32(|shell|);
    OpenFields(Le16(cols), Le16(rows), |cwd|, cwd, |shell|);
    FieldsRead(cols, rows);
    assert |start| == 12 + |cwd|;
    hide *;
    OpenedAs(start, shell, cols, rows, cwd);
  }

  lemma OpenedAs(start: Bytes, shell: Bytes, cols: nat, rows: nat, cwd: Bytes)
    requires |start| == 12 + |cwd| && shell != [] && |start| + |shell| + HEADER < TWO32
    requires Rd16(start, 0) == cols && Rd16(start, 2) == rows && Rd32(start, 4) == |cwd|
    requires start[8..8 + |cwd|] == cwd && Rd32(start, 8 + |cwd|) == |shell|
    ensures ReadOpen(start + shell) == Launch(cols, rows, CStr(cwd), CStr(shell))
  {
    hide Rd16, Rd32, CStr, ReadOpen;
    SameBefore(start, shell, |cwd|);
    var p := start + shell;
    assert p[12 + |cwd|..12 + |cwd| + |shell|] == shell;
    WithShell(p, |cwd|, |shell|);
  }

  lemma FieldsRead(cols: nat, rows: nat)
    requires cols < TWO16 && rows < TWO16
    ensures |Le16(cols)| == 2 && |Le16(rows)| == 2 && Rd16(Le16(cols), 0) == cols && Rd16(Le16(rows), 0) == rows
  {
  }

  lemma WithShell(p: Bytes, n: nat, m: nat)
    requires |p| == 12 + n + m && |p| + HEADER < TWO32 && m > 0 && Rd32(p, 4) == n && Rd32(p, 8 + n) == m
    ensures ReadOpen(p) == Launch(Rd16(p, 0), Rd16(p, 2), CStr(p[8..8 + n]), CStr(p[12 + n..12 + n + m]))
  {
    hide Rd16, Rd32, CStr;
    assert Add32(8, n) == 8 + n && Add32(12 + n, m) == 12 + n + m;
  }

  /** Bytes behind a payload do not change what stands before them. */
  lemma SameBefore(start: Bytes, more: Bytes, n: nat)
    requires |start| == 12 + n
    ensures var p := start + more;
            && Rd16(p, 0) == Rd16(start, 0) && Rd16(p, 2) == Rd16(start, 2) && Rd32(p, 4) == Rd32(start, 4)
            && p[8..8 + n] == start[8..8 + n] && Rd32(p, 8 + n) == Rd32(start, 8 + n)
  {
  }

  /** Which OPEN payloads start nothing: those too short for the fixed fields are refused, and those
      whose directory is longer than the frame are dropped. */
  lemma OpenRefused(p: Bytes)
    requires |p| + HEADER < TWO32
    ensures ReadOpen(p).Refused? <==> |p| < 8
    ensures |p| >= 8 && 8 + Rd32(p, 4) < TWO32 ==> (ReadOpen(p).Dropped? <==> 8 + Rd32(p, 4) > |p|)
  {
    hide Rd16, Rd32, CStr;
  }

  // ---- the bytes themselves ------------------------------------------------------------------

  /** Integers are sent low byte first. */
  lemma LowByteFirst(n: nat)
    requires n < TWO32
    ensures Le32(n) == [n % 256, n / 256 % 256, n / 0x1_0000 % 256, n / 0x100_0000]
  {
    var lo, hi := n % TWO16, n / TWO16;
    var b0, b1, b2, b3 := lo % 256, lo / 256, hi % 256, hi / 256;
    DivMod(n, 256, b1 + 256 * hi, b0);
    DivMod(b1 + 256 * hi, 256, hi, b1);
    DivMod(n, 0x100_0000, b3, b0 + 256 * b1 + 0x1_0000 * b2);
  }

  /** A frame is its session, its type, the length of its payload, and the payload; and the types are
      numbered from 1: open, data, resize, signal, close, exit, info. */
  lemma FrameBytes(f: Frame)
    requires Sendable(f)
    ensures var (e, n) := (Encoded(f), |f.payload|);
            && |e| == 9 + n && e[4] == f.ty && e[9..] == f.payload
            && e[..4] == [f.id % 256, f.id / 256 % 256, f.id / 0x1_0000 % 256, f.id / 0x100_0000]
            && e[5..9] == [n % 256, n / 256 % 256, n / 0x1_0000 % 256, n / 0x100_0000]
    ensures [T_OPEN, T_DATA, T_RESIZE, T_SIGNAL, T_CLOSE, T_EXIT, T_INFO] == [1, 2, 3, 4, 5, 6, 7]
  {
    LowByteFirst(f.id);
    LowByteFirst(|f.payload|);
    hide Le32;
    var h := Header(f.id, f.ty, |f.payload|);
    assert h == Le32(f.id) + [f.ty] + Le32(|f.payload|);
    assert h[..4] == Le32(f.id) && h[5..9] == Le32(|f.payload|);
    assert (h + f.payload)[..4] == h[..4] && (h + f.payload)[5..9] == h[5..9] && (h + f.payload)[9..] == f.payload;
  }
}
