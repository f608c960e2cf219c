/** The incremental VT parser as a value: one function per byte, over the parser's state, the
    screen it drives and the sinks it fills. The class `VtParser` is proved against it. */
module ParserModel {
  import opened Cells
  import opened Text
  import S = ScreenModel
  import Base64

  datatype St = Ground | Esc | EscInt | Csi | CsiInt | Osc | OscEsc | Str

  /** A UTF-8 sequence in progress: the bits so far and the bytes still needed. */
  datatype Utf = Utf(cp: nat, need: nat)

  /** CSI parameters: those flushed, whether each followed a ':', and the one being read. */
  datatype Params = Params(
    vals: seq<int>, colons: seq<bool>, pendingColon: bool, cur: int, curHas: bool, priv: nat, inter: nat)

  /** Character sets: DEC line drawing in G0/G1, and which is shifted in. */
  datatype Charsets = Charsets(g0: bool, g1: bool, shiftOut: bool)

  datatype P = P(st: St, utf: Utf, csi: Params, escInter: nat, osc: Bytes, sets: Charsets)

  /** What a parse collects besides the screen: replies, and the latest title, directory and
      clipboard request. */
  datatype Sinks = Sinks(respond: Bytes, title: Option<Text.Str>, cwd: Option<Text.Str>, clipboard: Option<Text.Str>)

  datatype Vt = Vt(p: P, s: S.Scr, k: Sinks)

  const NO_PARAMS: Params := Params([], [], false, 0, false, 0, 0)
  const START: P := P(Ground, Utf(0, 0), NO_PARAMS, 0, [], Charsets(false, false, false))
  const EMPTY: Sinks := Sinks([], None, None, None)

  const ESC: byte := 0x1b
  const BEL: byte := 0x07

  /** Signed 32-bit wrap-around, as in the release build. */
  function Wrap32(x: int): (r: int)
    ensures -0x8000_0000 <= r < 0x8000_0000
    ensures -0x8000_0000 <= x < 0x8000_0000 ==> r == x
  {
    (x + 0x8000_0000) % 0x1_0000_0000 - 0x8000_0000
  }

  predicate IsI32(x: int) { -0x8000_0000 <= x < 0x8000_0000 }

  /** The cast of a 32-bit value to a machine word. */
  function AsWord(x: int): (n: nat)
    requires IsI32(x)
    ensures x >= 0 ==> n == x
  {
    if x >= 0 then x else x + S.TWO64
  }

  /** What every byte keeps: a UTF-8 count is pending only in the ground state, within its
      bits; parameters and colon flags have equal length and are 32-bit. */
  predicate POk(p: P) {
    && p.utf.need <= 3 && (p.utf.need > 0 ==> p.st == Ground)
    && p.utf.cp < 0x20_0000
    && (p.utf.need == 1 ==> p.utf.cp < 0x8000) && (p.utf.need == 2 ==> p.utf.cp < 0x200)
    && (p.utf.need == 3 ==> p.utf.cp < 8)
    && |p.csi.vals| == |p.csi.colons|
    && IsI32(p.csi.cur) && (forall i :: 0 <= i < |p.csi.vals| ==> IsI32(p.csi.vals[i]))
  }

  predicate Ok(v: Vt) { POk(v.p) && S.Ok(v.s) }

  function Go(v: Vt, st: St): Vt { v.(p := v.p.(st := st)) }

  function OnScreen(v: Vt, s: S.Scr): Vt { v.(s := s) }

  // ---- ground state --------------------------------------------------------------

  /** DEC special graphics for 0x60..0x7e. */
  const DEC_SPECIAL: seq<nat> := [
    0x25C6, 0x2592, 0x2409, 0x240C, 0x240D, 0x240A, 0x00B0, 0x00B1,
    0x2424, 0x240B, 0x2518, 0x2510, 0x250C, 0x2514, 0x253C, 0x23BA,
    0x23BB, 0x2500, 0x23BC, 0x23BD, 0x251C, 0x2524, 0x2534, 0x252C,
    0x2502, 0x2264, 0x2265, 0x03C0, 0x2260, 0x00A3, 0x00B7]

  function Glyph(sets: Charsets, cp: nat): nat {
    var special := if sets.shiftOut then sets.g1 else sets.g0;
    if special && 0x60 <= cp <= 0x7e then DEC_SPECIAL[cp - 0x60] else cp
  }

  function Print(v: Vt, cp: nat): (r: Vt)
    requires Ok(v)
    ensures Ok(r) && r.p == v.p && r.k == v.k
  {
    OnScreen(v, S.PutRune(v.s, Glyph(v.p.sets, cp)))
  }

  function C0(v: Vt, b: byte): (r: Vt)
    requires Ok(v) && v.p.utf.need == 0
    ensures Ok(r) && r.p.utf == v.p.utf && r.k == v.k
  {
    if b == 0x08 then OnScreen(v, S.Backspace(v.s))
    else if b == 0x09 then OnScreen(v, S.Tab(v.s))
    else if b == 0x0A || b == 0x0B || b == 0x0C then OnScreen(v, S.Index(v.s))
    else if b == 0x0D then OnScreen(v, S.CarriageReturn(v.s))
    else if b == 0x0E then v.(p := v.p.(sets := v.p.sets.(shiftOut := true)))
    else if b == 0x0F then v.(p := v.p.(sets := v.p.sets.(shiftOut := false)))
    else if b == ESC then Go(v, Esc)
    else v
  }

  function WithUtf(v: Vt, cp: nat, need: nat): Vt { v.(p := v.p.(utf := Utf(cp, need))) }

  /** A byte that starts afresh: no UTF-8 sequence is pending. */
  function Lead(v: Vt, b: byte): (r: Vt)
    requires Ok(v) && v.p.st == Ground && v.p.utf.need == 0
    ensures Ok(r) && r.k == v.k
  {
    if b < 0x80 then
      if b < 0x20 || b == 0x7f then C0(v, b) else Print(v, b)
    else if b / 32 == 6 then WithUtf(v, b % 32, 1)
    else if b / 16 == 14 then WithUtf(v, b % 16, 2)
    else if b / 8 == 30 then WithUtf(v, b % 8, 3)
    else Print(v, REPLACEMENT)
  }

  function GroundByte(v: Vt, b: byte): (r: Vt)
    requires Ok(v) && v.p.st == Ground
    ensures Ok(r) && r.k == v.k
  {
    if v.p.utf.need > 0 && IsCont(b) then
      var v1 := WithUtf(v, v.p.utf.cp * 64 + b % 64, v.p.utf.need - 1);
      if v.p.utf.need == 1 then Print(v1, v1.p.utf.cp) else v1
    else Lead(WithUtf(v, v.p.utf.cp, 0), b)
  }

  /** ESC in the ground state drops a pending sequence and starts an escape. */
  lemma EscFromGround(v: Vt)
    requires Ok(v) && v.p.st == Ground
    ensures GroundByte(v, ESC).p.st == Esc && GroundByte(v, ESC).p.utf.need == 0
    ensures GroundByte(v, ESC).s == v.s
  {
  }

  // ---- escape sequences -----------------------------------------------------------

  function EscapeByte(v: Vt, b: byte): (r: Vt)
    requires Ok(v) && v.p.utf.need == 0
    ensures Ok(r) && r.k == v.k
  {
    if b == 91 then v.(p := v.p.(st := Csi, csi := NO_PARAMS))
    else if b == 93 then v.(p := v.p.(st := Osc, osc := []))
    else if b == 80 || b == 88 || b == 94 || b == 95 then Go(v, Str)
    else if 40 <= b <= 43 then v.(p := v.p.(st := EscInt, escInter := b))
    else Go(OnScreen(v, EscapeOp(v.s, b)), Ground)
  }

  /** ESC followed by one final byte. */
  function EscapeOp(s: S.Scr, b: byte): (r: S.Scr)
    requires S.Ok(s)
    ensures S.Ok(r)
  {
    if b == 77 then S.ReverseIndex(s)
    else if b == 68 then S.Index(s)
    else if b == 69 then S.NextLine(s)
    else if b == 55 then S.SaveCursor(s)
    else if b == 56 then S.RestoreCursor(s)
    else if b == 99 then S.FullReset(s)
    else if b == 61 then s.(modes := s.modes.(appKeypad := true))
    else if b == 62 then s.(modes := s.modes.(appKeypad := false))
    else if b == 72 then S.SetTabStop(s, true)
    else s
  }

  /** ESC ( or ESC ) designates a character set: '0' line drawing, 'A' and 'B' plain. */
  function EscIntByte(v: Vt, b: byte): (r: Vt)
    requires Ok(v) && v.p.utf.need == 0
    ensures Ok(r) && r.k == v.k
  {
    var c := v.p.sets;
    var named := b == 48 || b == 65 || b == 66;
    var sets := if v.p.escInter == 40 && named then c.(g0 := b == 48)
                else if v.p.escInter == 41 && named then c.(g1 := b == 48)
                else c;
    v.(p := v.p.(st := Ground, sets := sets))
  }

  // ---- control sequences ------------------------------------------------------------

  function Flushed(c: Params, colonAfter: bool): Params {
    c.(vals := c.vals + [if c.curHas then c.cur else 0], colons := c.colons + [c.pendingColon],
       pendingColon := colonAfter, cur := 0, curHas := false)
  }

  function WithCsi(v: Vt, c: Params): Vt { v.(p := v.p.(csi := c)) }

  function CsiByte(v: Vt, b: byte): (r: Vt)
    requires Ok(v) && v.p.st == Csi
    ensures Ok(r)
  {
    var c := v.p.csi;
    if b < 0x20 then C0(v, b)
    else if b == 63 || 60 <= b <= 62 then WithCsi(v, c.(priv := b))
    else if IsDigit(b) then WithCsi(v, c.(cur := Wrap32(c.cur * 10 + (b - 48)), curHas := true))
    else if b == 59 then WithCsi(v, Flushed(c, false))
    else if b == 58 then WithCsi(v, Flushed(c, true))
    else if b <= 0x2f then Go(WithCsi(v, c.(inter := b)), CsiInt)
    else Final(v, b)
  }

  function CsiIntByte(v: Vt, b: byte): (r: Vt)
    requires Ok(v) && v.p.st == CsiInt
    ensures Ok(r)
  {
    if 0x20 <= b <= 0x2f then WithCsi(v, v.p.csi.(inter := b)) else Final(v, b)
  }

  /** A final byte flushes the last parameter and dispatches. */
  function Final(v: Vt, b: byte): (r: Vt)
    requires Ok(v) && v.p.utf.need == 0
    ensures Ok(r)
  {
    var c := Flushed(v.p.csi, false);
    var (s, reply) := Dispatch(c, v.s, b);
    Vt(v.p.(csi := c, st := Ground), s, Reply(v.k, reply))
  }

  function Reply(k: Sinks, bytes: Bytes): Sinks { k.(respond := k.respond + bytes) }

  /** Parameter i, or the default when it is absent or zero. */
  function Arg(c: Params, i: nat, def: int): int {
    if i >= |c.vals| then def else if c.vals[i] == 0 && def != 0 then def else c.vals[i]
  }

  predicate CsiOk(c: Params) {
    |c.vals| == |c.colons| && forall i :: 0 <= i < |c.vals| ==> IsI32(c.vals[i])
  }

  /** The screen after a control sequence and the bytes it answers. */
  function Dispatch(c: Params, s: S.Scr, f: byte): (r: (S.Scr, Bytes))
    requires CsiOk(c) && S.Ok(s)
    ensures S.Ok(r.0)
  {
    if c.priv == 63 then (DecModes(c, s, f), [])
    else if 60 <= c.priv <= 62 then (s, if f == 99 then DeviceAttributes(c) else [])
    else if f == 110 then (s, StatusReport(s.cur, Arg(c, 0, 0)))
    else if f == 99 then (s, DeviceAttributes(c))
    else (ScreenOp(c, s, f), [])
  }

  function ScreenOp(c: Params, s: S.Scr, f: byte): (r: S.Scr)
    requires CsiOk(c) && S.Ok(s)
    ensures S.Ok(r)
  {
    if f < 74 || f == 96 || f == 97 || f == 100 || f == 101 || f == 102 then CursorOp(c, s, f)
    else if f <= 88 || f == 64 then EditOp(c, s, f)
    else ModeOp(c, s, f)
  }

  function CursorOp(c: Params, s: S.Scr, f: byte): (r: S.Scr)
    requires CsiOk(c) && S.Ok(s)
    ensures S.Ok(r)
  {
    var n := AsWord(Arg(c, 0, 1));
    var i := Arg(c, 0, 1);
    if f == 64 then S.InsertChars(s, n)
    else if f == 65 then S.CursorUp(s, n)
    else if f == 66 || f == 101 then S.CursorDown(s, n)
    else if f == 67 || f == 97 then S.CursorFwd(s, n)
    else if f == 68 then S.CursorBack(s, n)
    else if f == 69 then S.CursorDown(S.CarriageReturn(s), n)
    else if f == 70 then S.CursorUp(S.CarriageReturn(s), n)
    else if f == 71 || f == 96 then S.CursorCol(s, i - 1)
    else if f == 100 then S.CursorRow(s, i - 1)
    else if f == 72 || f == 102 then S.CursorTo(s, i - 1, Arg(c, 1, 1) - 1)
    else s
  }

  function EditOp(c: Params, s: S.Scr, f: byte): (r: S.Scr)
    requires CsiOk(c) && S.Ok(s)
    ensures S.Ok(r)
  {
    var n := AsWord(Arg(c, 0, 1));
    if f == 74 then S.EraseInDisplay(s, Arg(c, 0, 0))
    else if f == 75 then S.EraseInLine(s, Arg(c, 0, 0))
    else if f == 76 then S.InsertLines(s, n)
    else if f == 77 then S.DeleteLines(s, n)
    else if f == 80 then S.DeleteChars(s, n)
    else if f == 88 then S.EraseChars(s, n)
    else if f == 83 then S.ScrollUp(s, n)
    else if f == 84 then S.ScrollDown(s, n)
    else s
  }

  function ModeOp(c: Params, s: S.Scr, f: byte): (r: S.Scr)
    requires CsiOk(c) && S.Ok(s)
    ensures S.Ok(r)
  {
    if f == 114 then S.SetScrollRegion(s, Arg(c, 0, 0), if |c.vals| > 1 then Arg(c, 1, 0) else 0)
    else if f == 109 then S.SetGraphics(s, c.vals, c.colons)
    else if f == 104 || f == 108 then
      if 4 in c.vals then s.(modes := s.modes.(insert := f == 104)) else s
    else if f == 103 then if Arg(c, 0, 0) == 3 then S.ClearAllTabs(s) else S.SetTabStop(s, false)
    else if f == 115 then S.SaveCursor(s)
    else if f == 117 then S.RestoreCursor(s)
    else s
  }

  /** One private mode set or reset. */
  function DecMode(s: S.Scr, m: int, on: bool): (r: S.Scr)
    requires S.Ok(s)
    ensures S.Ok(r)
  {
    if m == 1 then s.(modes := s.modes.(appCursorKeys := on))
    else if m == 6 then S.CursorTo(s.(modes := s.modes.(origin := on)), 0, 0)
    else if m == 7 then s.(modes := s.modes.(autoWrap := on))
    else if m == 25 then s.(modes := s.modes.(cursorVisible := on))
    else if m == 9 then s.(modes := s.modes.(mouse := if on then S.X10 else S.MouseNone))
    else if m == 1000 then s.(modes := s.modes.(mouse := if on then S.Normal else S.MouseNone))
    else if m == 1002 then s.(modes := s.modes.(mouse := if on then S.ButtonEvent else S.MouseNone))
    else if m == 1003 then s.(modes := s.modes.(mouse := if on then S.AnyEvent else S.MouseNone))
    else if m == 1006 then s.(modes := s.modes.(mouseSgr := on))
    else if m == 47 || m == 1047 || m == 1049 then S.SetAltScreen(s, on)
    else if m == 2004 then s.(modes := s.modes.(bracketedPaste := on))
    else s
  }

  /** The first n modes of the list, in order. */
  function DecModesTo(vals: seq<int>, s: S.Scr, n: nat, on: bool): (r: S.Scr)
    requires S.Ok(s) && n <= |vals|
    ensures S.Ok(r)
  {
    if n == 0 then s else DecMode(DecModesTo(vals, s, n - 1, on), vals[n - 1], on)
  }

  function DecModes(c: Params, s: S.Scr, f: byte): (r: S.Scr)
    requires S.Ok(s)
    ensures S.Ok(r)
  {
    if f == 104 || f == 108 then DecModesTo(c.vals, s, |c.vals|, f == 104) else s
  }

  /** CSI y ; x R, counted from 1. */
  function CursorReport(y: nat, x: nat): Bytes {
    [ESC, 91] + Decimal(y + 1) + [59] + Decimal(x + 1) + [82]
  }

  function StatusReport(cur: S.Cursor, n: int): Bytes {
    if n == 5 then [ESC, 91, 48, 110]
    else if n == 6 then CursorReport(cur.y, cur.x)
    else []
  }

  function DeviceAttributes(c: Params): Bytes {
    if c.priv == 62 then [ESC, 91, 62, 48, 59, 50, 55, 54, 59, 48, 99]
    else [ESC, 91, 63, 49, 59, 50, 99]
  }

  // ---- operating system commands ------------------------------------------------------

  function OscByte(v: Vt, b: byte): (r: Vt)
    requires Ok(v) && v.p.st == Osc
    ensures Ok(r)
  {
    if b == BEL then OscDone(v)
    else if b == ESC then Go(v, OscEsc)
    else v.(p := v.p.(osc := v.p.osc + [b]))
  }

  /** After ESC inside a string: '\' ends it; anything else is ESC and that byte afresh. */
  function OscEscByte(v: Vt, b: byte): (r: Vt)
    requires Ok(v) && v.p.st == OscEsc
    ensures Ok(r)
  {
    if b == 92 then OscDone(v)
    else EscapeByte(GroundByte(Go(v, Ground), ESC), b)
  }

  function OscDone(v: Vt): (r: Vt)
    requires Ok(v) && v.p.utf.need == 0
    ensures Ok(r)
  {
    var t := Lossy(v.p.osc);
    Vt(v.p.(osc := [], st := Ground), OscScreen(v.s, t), Latest(v.k, OscSinks(t)))
  }

  function OscNumber(t: Text.Str): Text.Str { t[..Find(t, 59)] }

  function OscText(t: Text.Str): (r: Text.Str)
    ensures AllScalars(t) ==> AllScalars(r)
  {
    var i := Find(t, 59);
    if i == |t| then [] else t[i + 1..]
  }

  /** OSC 133: A marks a prompt, D records the exit status of the command. */
  function OscScreen(s: S.Scr, t: Text.Str): (r: S.Scr)
    requires S.Ok(s)
    ensures S.Ok(r)
  {
    if OscNumber(t) == [49, 51, 51] then
      var text := OscText(t);
      var what := OscNumber(text);
      if what == [65] then S.MarkPrompt(s)
      else if what == [68] then S.MarkCmdExit(s, ExitOf(text))
      else s
    else s
  }

  function ExitOf(text: Text.Str): int {
    var i := Find(text, 59);
    if i == |text| then 0
    else
      match ParseI32(Trim(OscNumber(text[i + 1..])))
      case None => 0
      case Some(e) => e
  }

  /** What an OSC string asks of the owner. */
  function OscSinks(t: Text.Str): Sinks
    requires AllScalars(t)
  {
    var num := OscNumber(t);
    var text := OscText(t);
    if num == [48] || num == [49] || num == [50] then EMPTY.(title := Some(text))
    else if num == [55] then EMPTY.(cwd := FileUriPath(text))
    else if num == [53, 50] then EMPTY.(clipboard := ClipboardText(text))
    else EMPTY
  }

  /** OSC 52 text `targets;base64`; a '?' payload is a read request and is ignored. */
  function ClipboardText(text: Text.Str): Option<Text.Str>
    requires AllScalars(text)
  {
    var i := Find(text, 59);
    if i == |text| || text[i + 1..] == [63] then None
    else
      match Base64.Decoded(Encode(text[i + 1..]))
      case None => None
      case Some(b) => Some(Lossy(b))
  }

  function Or<T>(first: Option<T>, later: Option<T>): Option<T> {
    if later.Some? then later else first
  }

  /** Sinks compose: replies append, and of the others the last one set wins. */
  function Latest(k: Sinks, d: Sinks): Sinks {
    Sinks(k.respond + d.respond, Or(k.title, d.title), Or(k.cwd, d.cwd), Or(k.clipboard, d.clipboard))
  }

  function StrByte(v: Vt, b: byte): (r: Vt)
    requires Ok(v) && v.p.st == Str
    ensures Ok(r) && r.k == v.k
  {
    if b == BEL then Go(v, Ground)
    else if b == ESC then v.(p := v.p.(st := OscEsc, osc := []))
    else v
  }

  // ---- one byte, and all of them --------------------------------------------------------

  function Step(v: Vt, b: byte): (r: Vt)
    requires Ok(v)
    ensures Ok(r)
  {
    match v.p.st
    case Ground => GroundByte(v, b)
    case Esc => EscapeByte(v, b)
    case EscInt => EscIntByte(v, b)
    case Csi => CsiByte(v, b)
    case CsiInt => CsiIntByte(v, b)
    case Osc => OscByte(v, b)
    case OscEsc => OscEscByte(v, b)
    case Str => StrByte(v, b)
  }

  function Run(v: Vt, data: Bytes): (r: Vt)
    requires Ok(v)
    ensures Ok(r)
  {
    if data == [] then v else Step(Run(v, data[..|data| - 1]), data[|data| - 1])
  }

  lemma {:induction false} RunAppend(v: Vt, a: Bytes, b: Bytes)
    requires Ok(v)
    ensures Run(v, a + b) == Run(Run(v, a), b)
  {
    if b == [] {
      assert a + b == a;
    } else {
      assert (a + b)[..|a + b| - 1] == a + b[..|b| - 1];
      RunAppend(v, a, b[..|b| - 1]);
    }
  }

  // ---- the terminal -----------------------------------------------------------------------

  /** Parser, screen, and what the owner has yet to drain. */
  datatype Term = Term(p: P, s: S.Scr, out: Sinks)

  predicate TermOk(t: Term) { POk(t.p) && S.Ok(t.s) }

  function FreshTerm(cols: nat, rows: nat, cap: nat): (t: Term)
    requires cols <= S.MAX_DIM && rows <= S.MAX_DIM
    ensures TermOk(t)
  {
    Term(START, S.Fresh(cols, rows, cap), EMPTY)
  }

  /** One feed: parse into fresh sinks, then hand their contents on. */
  function Feed(t: Term, data: Bytes): (r: Term)
    requires TermOk(t)
    ensures TermOk(r)
  {
    var v := Run(Vt(t.p, t.s, EMPTY), data);
    Term(v.p, v.s, Latest(t.out, v.k))
  }
}
