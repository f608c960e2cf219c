/** The parser and the terminal as mutable objects, proved against ParserModel.dfy. */
module ParserMachine {
  import opened Cells
  import opened Text
  import opened ScreenMachine
  import S = ScreenModel
  import M = ParserModel
  import Base64

  class ParserSinks {
    var respond: Bytes
    var title: Option<Text.Str>
    var cwd: Option<Text.Str>
    var clipboard: Option<Text.Str>

    ghost function State(): M.Sinks
      reads this
    {
      M.Sinks(respond, title, cwd, clipboard)
    }

    constructor ()
      ensures State() == M.EMPTY
    {
      respond := [];
      title := None;
      cwd := None;
      clipboard := None;
    }

    method Clear()
      modifies this
      ensures State() == M.EMPTY
    {
      respond := [];
      title := None;
      cwd := None;
      clipboard := None;
    }

    method Reply(bytes: Bytes)
      modifies this`respond
      ensures State() == M.Reply(old(State()), bytes)
    {
      respond := respond + bytes;
    }
  }

  class VtParser {
    var st: M.St
    var utf: M.Utf
    var csi: M.Params
    var escInter: nat
    var osc: Bytes
    var sets: M.Charsets

    ghost function State(): M.P
      reads this
    {
      M.P(st, utf, csi, escInter, osc, sets)
    }

    ghost function View(s: Screen, k: ParserSinks): M.Vt
      reads this, s, k
    {
      M.Vt(State(), s.State(), k.State())
    }

    ghost predicate Good(s: Screen)
      reads this, s, s.scrollback, s.scrollback.ring
    {
      M.POk(State()) && s.Valid()
    }

    constructor ()
      ensures State() == M.START
    {
      st := M.Ground;
      utf := M.Utf(0, 0);
      csi := M.NO_PARAMS;
      escInter := 0;
      osc := [];
      sets := M.Charsets(false, false, false);
    }

    /** Runs of printable ASCII in the ground state go straight to the screen; every other byte
        takes one step. */
    method Parse(s: Screen, k: ParserSinks, data: Bytes)
      requires Good(s)
      modifies this, s, s.scrollback, s.scrollback.ring, k
      ensures View(s, k) == M.Run(old(View(s, k)), data)
      ensures Good(s)
    {
      hide M.Run, M.Step, M.POk, S.Ok;
      ghost var v0 := View(s, k);
      RunNothing(v0);
      var n := |data|;
      var i := 0;
      while i < n
        invariant i <= n && Good(s)
        invariant View(s, k) == M.Run(v0, data[..i])
      {
        if st == M.Ground && utf.need == 0 && 0x20 <= data[i] < 0x7f {
          var start := i;
          i := i + 1;
          while i < n && 0x20 <= data[i] < 0x7f
            invariant start < i <= n
            invariant forall j :: start <= j < i ==> 0x20 <= data[j] < 0x7f
          {
            i := i + 1;
          }
          PrintRun(s, k, data, start, i, v0);
        } else {
          RunNext(v0, data, i);
          Step(s, k, data[i]);
          i := i + 1;
        }
      }
      assert data[..n] == data;
    }

    method PrintRun(s: Screen, ghost k: ParserSinks, data: Bytes, start: nat, end: nat, ghost v0: M.Vt)
      requires Good(s) && st == M.Ground && utf.need == 0
      requires start <= end <= |data| && forall j :: start <= j < end ==> 0x20 <= data[j] < 0x7f
      requires M.Ok(v0) && View(s, k) == M.Run(v0, data[..start])
      modifies s, s.scrollback, s.scrollback.ring
      ensures View(s, k) == M.Run(v0, data[..end])
      ensures Good(s)
    {
      hide M.Run, M.Step, M.POk, S.Ok, M.Print;
      for j := start to end
        invariant View(s, k) == M.Run(v0, data[..j])
        invariant Good(s)
      {
        RunNext(v0, data, j);
        PrintableStep(View(s, k), data[j]);
        Print(s, k, data[j]);
      }
    }

    method Step(s: Screen, k: ParserSinks, b: byte)
      requires Good(s)
      modifies this, s, s.scrollback, s.scrollback.ring, k
      ensures View(s, k) == M.Step(old(View(s, k)), b)
      ensures Good(s)
      decreases if st == M.OscEsc then 2 else 0
    {
      hide S.Ok;
      match st
      case Ground => Ground(s, k, b);
      case Esc => Escape(s, k, b);
      case EscInt => EscapeIntermediate(s, k, b);
      case Csi => Csi(s, k, b);
      case CsiInt => CsiIntermediate(s, k, b);
      case Osc => Osc(s, k, b);
      case OscEsc => OscEsc(s, k, b);
      case Str => StrConsume(s, k, b);
    }

    method Print(s: Screen, ghost k: ParserSinks, cp: nat)
      requires Good(s)
      modifies s, s.scrollback, s.scrollback.ring
      ensures View(s, k) == M.Print(old(View(s, k)), cp)
      ensures Good(s)
    {
      hide M.POk, S.Ok;
      var special := if sets.shiftOut then sets.g1 else sets.g0;
      var c := cp;
      if special && 0x60 <= c <= 0x7e {
        c := M.DEC_SPECIAL[c - 0x60];
      }
      s.PutRune(c);
    }

    method Ground(s: Screen, ghost k: ParserSinks, b: byte)
      requires Good(s) && st == M.Ground
      modifies this, s, s.scrollback, s.scrollback.ring
      ensures View(s, k) == M.GroundByte(old(View(s, k)), b)
      ensures Good(s)
    {
      hide S.Ok;
      if utf.need > 0 {
        if IsCont(b) {
          utf := M.Utf(utf.cp * 64 + b % 64, utf.need - 1);
          if utf.need == 0 {
            Print(s, k, utf.cp);
          }
          return;
        }
      }
      utf := M.Utf(utf.cp, 0);
      Lead(s, k, b);
    }

    /** The rest of `Ground`, once no sequence is pending. */
    method Lead(s: Screen, ghost k: ParserSinks, b: byte)
      requires Good(s) && st == M.Ground && utf.need == 0
      modifies this, s, s.scrollback, s.scrollback.ring
      ensures View(s, k) == M.Lead(old(View(s, k)), b)
      ensures Good(s)
    {
      hide S.Ok;
      if b < 0x80 {
        if b < 0x20 || b == 0x7f {
          C0(s, k, b);
        } else {
          Print(s, k, b);
        }
      } else if b / 32 == 6 {
        utf := M.Utf(b % 32, 1);
      } else if b / 16 == 14 {
        utf := M.Utf(b % 16, 2);
      } else if b / 8 == 30 {
        utf := M.Utf(b % 8, 3);
      } else {
        Print(s, k, REPLACEMENT);
      }
    }

    method C0(s: Screen, ghost k: ParserSinks, b: byte)
      requires Good(s) && utf.need == 0
      modifies this`st, this`sets, s, s.scrollback, s.scrollback.ring
      ensures View(s, k) == M.C0(old(View(s, k)), b)
      ensures Good(s)
    {
      hide S.Ok;
      if b == 0x08 {
        s.Backspace();
      } else if b == 0x09 {
        s.Tab();
      } else if b == 0x0A || b == 0x0B || b == 0x0C {
        s.Index();
      } else if b == 0x0D {
        s.CarriageReturn();
      } else if b == 0x0E {
        sets := sets.(shiftOut := true);
      } else if b == 0x0F {
        sets := sets.(shiftOut := false);
      } else if b == M.ESC {
        st := M.Esc;
      }
    }

    method Escape(s: Screen, ghost k: ParserSinks, b: byte)
      requires Good(s) && utf.need == 0
      modifies this, s, s.scrollback, s.scrollback.ring
      ensures View(s, k) == M.EscapeByte(old(View(s, k)), b)
      ensures Good(s)
    {
      hide S.Ok;
      if b == 91 {
        csi := M.NO_PARAMS;
        st := M.Csi;
      } else if b == 93 {
        osc := [];
        st := M.Osc;
      } else if b == 80 || b == 88 || b == 94 || b == 95 {
        st := M.Str;
      } else if 40 <= b <= 43 {
        escInter := b;
        st := M.EscInt;
      } else {
        EscapeOp(s, b);
        st := M.Ground;
      }
    }

    method EscapeOp(s: Screen, b: byte)
      requires s.Valid()
      modifies s, s.scrollback, s.scrollback.ring
      ensures s.State() == M.EscapeOp(old(s.State()), b)
      ensures s.Valid()
    {
      hide S.Ok;
      if b == 77 {
        s.ReverseIndex();
      } else if b == 68 {
        s.Index();
      } else if b == 69 {
        s.NextLine();
      } else if b == 55 {
        s.SaveCursor();
      } else if b == 56 {
        s.RestoreCursor();
      } else if b == 99 {
        s.FullReset();
      } else if b == 61 {
        s.SetModes(s.modes.(appKeypad := true));
      } else if b == 62 {
        s.SetModes(s.modes.(appKeypad := false));
      } else if b == 72 {
        s.SetTabStop(true);
      }
    }

    method EscapeIntermediate(ghost s: Screen, ghost k: ParserSinks, b: byte)
      requires Good(s) && utf.need == 0
      modifies this`st, this`sets
      ensures View(s, k) == M.EscIntByte(old(View(s, k)), b)
      ensures Good(s)
    {
      var special := b == 48;
      var ascii := b == 66 || b == 65;
      if escInter == 40 {
        if special {
          sets := sets.(g0 := true);
        } else if ascii {
          sets := sets.(g0 := false);
        }
      } else if escInter == 41 {
        if special {
          sets := sets.(g1 := true);
        } else if ascii {
          sets := sets.(g1 := false);
        }
      }
      st := M.Ground;
    }

    method FlushParam(colonAfter: bool)
      requires M.POk(State())
      modifies this`csi
      ensures csi == M.Flushed(old(csi), colonAfter) && M.POk(State())
    {
      csi := csi.(vals := csi.vals + [if csi.curHas then csi.cur else 0],
                  colons := csi.colons + [csi.pendingColon],
                  pendingColon := colonAfter, cur := 0, curHas := false);
    }

    method Csi(s: Screen, k: ParserSinks, b: byte)
      requires Good(s) && st == M.Csi
      modifies this, s, s.scrollback, s.scrollback.ring, k
      ensures View(s, k) == M.CsiByte(old(View(s, k)), b)
      ensures Good(s)
    {
      hide S.Ok;
      if b < 0x20 {
        C0(s, k, b);
      } else if b == 63 || 60 <= b <= 62 {
        csi := csi.(priv := b);
      } else if IsDigit(b) {
        csi := csi.(cur := M.Wrap32(csi.cur * 10 + (b - 48)), curHas := true);
      } else if b == 59 {
        FlushParam(false);
      } else if b == 58 {
        FlushParam(true);
      } else if b <= 0x2f {
        csi := csi.(inter := b);
        st := M.CsiInt;
      } else {
        Final(s, k, b);
      }
    }

    method CsiIntermediate(s: Screen, k: ParserSinks, b: byte)
      requires Good(s) && st == M.CsiInt
      modifies this, s, s.scrollback, s.scrollback.ring, k
      ensures View(s, k) == M.CsiIntByte(old(View(s, k)), b)
      ensures Good(s)
    {
      hide S.Ok;
      if 0x20 <= b <= 0x2f {
        csi := csi.(inter := b);
        return;
      }
      Final(s, k, b);
    }

    method Final(s: Screen, k: ParserSinks, b: byte)
      requires Good(s) && utf.need == 0
      modifies this, s, s.scrollback, s.scrollback.ring, k
      ensures View(s, k) == M.Final(old(View(s, k)), b)
      ensures Good(s)
    {
      hide S.Ok;
      FlushParam(false);
      DispatchCsi(s, k, b);
      st := M.Ground;
    }

    method DispatchCsi(s: Screen, k: ParserSinks, f: byte)
      requires Good(s)
      modifies s, s.scrollback, s.scrollback.ring, k
      ensures s.State() == M.Dispatch(csi, old(s.State()), f).0
      ensures k.State() == M.Reply(old(k.State()), M.Dispatch(csi, old(s.State()), f).1)
      ensures s.Valid()
    {
      hide S.Ok, M.ScreenOp;
      assert k.respond + [] == k.respond;
      if csi.priv == 63 {
        DecModes(s, f);
      } else if 60 <= csi.priv <= 62 {
        if f == 99 {
          k.Reply(M.DeviceAttributes(csi));
        }
      } else if f == 110 {
        k.Reply(M.StatusReport(s.cur, M.Arg(csi, 0, 0)));
      } else if f == 99 {
        k.Reply(M.DeviceAttributes(csi));
      } else {
        ScreenOp(s, f);
      }
    }

    method ScreenOp(s: Screen, f: byte)
      requires Good(s)
      modifies s, s.scrollback, s.scrollback.ring
      ensures s.State() == M.ScreenOp(csi, old(s.State()), f)
      ensures s.Valid()
    {
      hide S.Ok, M.CursorOp, M.EditOp, M.ModeOp;
      if f < 74 || f == 96 || f == 97 || f == 100 || f == 101 || f == 102 {
        CursorOp(s, f);
      } else if f <= 88 {
        EditOp(s, f);
      } else {
        ModeOp(s, f);
      }
    }

    method CursorOp(s: Screen, f: byte)
      requires Good(s)
      modifies s, s.scrollback, s.scrollback.ring
      ensures s.State() == M.CursorOp(csi, old(s.State()), f)
      ensures s.Valid()
    {
      hide S.Ok;
      var i := M.Arg(csi, 0, 1);
      var n := M.AsWord(i);
      if f == 64 {
        s.InsertChars(n);
      } else if f == 65 {
        s.CursorUp(n);
      } else if f == 66 || f == 101 {
        s.CursorDown(n);
      } else if f == 67 || f == 97 {
        s.CursorFwd(n);
      } else if f == 68 {
        s.CursorBack(n);
      } else if f == 69 {
        s.CarriageReturn();
        s.CursorDown(n);
      } else if f == 70 {
        s.CarriageReturn();
        s.CursorUp(n);
      } else if f == 71 || f == 96 {
        s.CursorCol(i - 1);
      } else if f == 100 {
        s.CursorRow(i - 1);
      } else if f == 72 || f == 102 {
        s.CursorTo(i - 1, M.Arg(csi, 1, 1) - 1);
      }
    }

    method EditOp(s: Screen, f: byte)
      requires Good(s)
      modifies s, s.scrollback, s.scrollback.ring
      ensures s.State() == M.EditOp(csi, old(s.State()), f)
      ensures s.Valid()
    {
      hide S.Ok;
      var n := M.AsWord(M.Arg(csi, 0, 1));
      if f == 74 {
        s.EraseInDisplay(M.Arg(csi, 0, 0));
      } else if f == 75 {
        s.EraseInLine(M.Arg(csi, 0, 0));
      } else if f == 76 {
        s.InsertLines(n);
      } else if f == 77 {
        s.DeleteLines(n);
      } else if f == 80 {
        s.DeleteChars(n);
      } else if f == 88 {
        s.EraseChars(n);
      } else if f == 83 {
        s.ScrollUp(n);
      } else if f == 84 {
        s.ScrollDown(n);
      }
    }

    method ModeOp(s: Screen, f: byte)
      requires Good(s)
      modifies s, s.scrollback, s.scrollback.ring
      ensures s.State() == M.ModeOp(csi, old(s.State()), f)
      ensures s.Valid()
    {
      hide S.Ok;
      if f == 114 {
        s.SetScrollRegion(M.Arg(csi, 0, 0), if |csi.vals| > 1 then M.Arg(csi, 1, 0) else 0);
      } else if f == 109 {
        s.SetGraphics(csi.vals, csi.colons);
      } else if f == 104 || f == 108 {
        StdMode(s, f == 104);
      } else if f == 103 {
        if M.Arg(csi, 0, 0) == 3 {
          s.ClearAllTabs();
        } else {
          s.SetTabStop(false);
        }
      } else if f == 115 {
        s.SaveCursor();
      } else if f == 117 {
        s.RestoreCursor();
      }
    }

    method StdMode(s: Screen, on: bool)
      requires Good(s)
      modifies s`modes
      ensures s.State() ==
        if 4 in csi.vals then old(s.State()).(modes := old(s.modes).(insert := on)) else old(s.State())
      ensures s.Valid()
    {
      var insert := s.modes.insert;
      for i := 0 to Max(|csi.vals|, 1)
        invariant insert == if 4 in csi.vals[..Min(i, |csi.vals|)] then on else s.modes.insert
      {
        if M.Arg(csi, i, 0) == 4 {
          insert := on;
        }
      }
      assert csi.vals[..|csi.vals|] == csi.vals;
      s.SetModes(s.modes.(insert := insert));
    }

    method DecModes(s: Screen, f: byte)
      requires Good(s)
      modifies s, s.scrollback, s.scrollback.ring
      ensures s.State() == M.DecModes(csi, old(s.State()), f)
      ensures s.Valid()
    {
      hide S.Ok, M.DecMode;
      if f != 104 && f != 108 {
        return;
      }
      ghost var s0 := s.State();
      for i := 0 to |csi.vals|
        invariant s.State() == M.DecModesTo(csi.vals, s0, i, f == 104)
        invariant s.Valid()
      {
        DecMode(s, csi.vals[i], f == 104);
      }
    }

    method DecMode(s: Screen, m: int, on: bool)
      requires s.Valid()
      modifies s, s.scrollback, s.scrollback.ring
      ensures s.State() == M.DecMode(old(s.State()), m, on)
      ensures s.Valid()
    {
      hide S.Ok;
      var modes := s.modes;
      if m == 1 {
        s.SetModes(modes.(appCursorKeys := on));
      } else if m == 6 {
        s.SetModes(modes.(origin := on));
        s.CursorTo(0, 0);
      } else if m == 7 {
        s.SetModes(modes.(autoWrap := on));
      } else if m == 25 {
        s.SetModes(modes.(cursorVisible := on));
      } else if m == 9 {
        s.SetModes(modes.(mouse := if on then S.X10 else S.MouseNone));
      } else if m == 1000 {
        s.SetModes(modes.(mouse := if on then S.Normal else S.MouseNone));
      } else if m == 1002 {
        s.SetModes(modes.(mouse := if on then S.ButtonEvent else S.MouseNone));
      } else if m == 1003 {
        s.SetModes(modes.(mouse := if on then S.AnyEvent else S.MouseNone));
      } else if m == 1006 {
        s.SetModes(modes.(mouseSgr := on));
      } else if m == 47 || m == 1047 || m == 1049 {
        s.SetAltScreen(on);
      } else if m == 2004 {
        s.SetModes(modes.(bracketedPaste := on));
      }
    }

    method Osc(s: Screen, k: ParserSinks, b: byte)
      requires Good(s) && st == M.Osc
      modifies this, s, s.scrollback, s.scrollback.ring, k
      ensures View(s, k) == M.OscByte(old(View(s, k)), b)
      ensures Good(s)
    {
      hide S.Ok;
      if b == M.BEL {
        OscDone(s, k);
      } else if b == M.ESC {
        st := M.OscEsc;
      } else {
        osc := osc + [b];
      }
    }

    method OscEsc(s: Screen, k: ParserSinks, b: byte)
      requires Good(s) && st == M.OscEsc
      modifies this, s, s.scrollback, s.scrollback.ring, k
      ensures View(s, k) == M.OscEscByte(old(View(s, k)), b)
      ensures Good(s)
      decreases 1
    {
      hide S.Ok;
      if b == 92 {
        OscDone(s, k);
        return;
      }
      st := M.Ground;
      Step(s, k, M.ESC);
      Step(s, k, b);
    }

    method OscDone(s: Screen, k: ParserSinks)
      requires Good(s) && utf.need == 0
      modifies this, s, s.scrollback, s.scrollback.ring, k
      ensures View(s, k) == M.OscDone(old(View(s, k)))
      ensures Good(s)
    {
      hide S.Ok, M.OscScreen, M.OscSinks;
      var t := Lossy(osc);
      osc := [];
      st := M.Ground;
      OscSinks(k, t);
      OscScreen(s, t);
    }

    method OscScreen(s: Screen, t: Text.Str)
      requires s.Valid()
      modifies s`prompts
      ensures s.State() == M.OscScreen(old(s.State()), t)
      ensures s.Valid()
    {
      hide S.Ok;
      if M.OscNumber(t) == [49, 51, 51] {
        var text := M.OscText(t);
        var what := M.OscNumber(text);
        if what == [65] {
          s.MarkPrompt();
        } else if what == [68] {
          s.MarkCmdExit(M.ExitOf(text));
        }
      }
    }

    method OscSinks(k: ParserSinks, t: Text.Str)
      requires AllScalars(t)
      modifies k
      ensures k.State() == M.Latest(old(k.State()), M.OscSinks(t))
    {
      var num := M.OscNumber(t);
      var text := M.OscText(t);
      assert k.respond + [] == k.respond;
      if num == [48] || num == [49] || num == [50] {
        k.title := Some(text);
      } else if num == [55] {
        var path := CwdOf(text);
        if path.Some? {
          k.cwd := path;
        }
      } else if num == [53, 50] {
        var clip := ClipboardOf(text);
        if clip.Some? {
          k.clipboard := clip;
        }
      }
    }

    method StrConsume(ghost s: Screen, ghost k: ParserSinks, b: byte)
      requires Good(s) && st == M.Str
      modifies this`st, this`osc
      ensures View(s, k) == M.StrByte(old(View(s, k)), b)
      ensures Good(s)
    {
      if b == M.BEL {
        st := M.Ground;
      } else if b == M.ESC {
        st := M.OscEsc;
        osc := [];
      }
    }
  }

  method CwdOf(t: Text.Str) returns (path: Option<Text.Str>)
    requires AllScalars(t)
    ensures path == FileUriPath(t)
  {
    if !(FILE_PREFIX <= t) {
      return None;
    }
    var rest := t[|FILE_PREFIX|..];
    var slash := Find(rest, 47);
    if slash == |rest| {
      return None;
    }
    var b := PercentDecode(Encode(rest[slash..]));
    path := Some(Lossy(b));
  }

  method ClipboardOf(text: Text.Str) returns (clip: Option<Text.Str>)
    requires AllScalars(text)
    ensures clip == M.ClipboardText(text)
  {
    var semi := Find(text, 59);
    if semi == |text| {
      return None;
    }
    var data := text[semi + 1..];
    if data == [63] {
      return None;
    }
    var b := Base64.Decode(Encode(data));
    clip := if b.Some? then Some(Lossy(b.value)) else None;
  }

  // ---- the parse loop --------------------------------------------------------------

  lemma RunNothing(v: M.Vt)
    requires M.Ok(v)
    ensures M.Run(v, []) == v
  {
  }

  lemma RunNext(v: M.Vt, data: Bytes, i: nat)
    requires M.Ok(v) && i < |data|
    ensures M.Run(v, data[..i + 1]) == M.Step(M.Run(v, data[..i]), data[i])
  {
    assert data[..i + 1][..i] == data[..i];
  }

  /** In the ground state a printable ASCII byte is printed: the fast path takes steps. */
  lemma PrintableStep(v: M.Vt, b: byte)
    requires M.Ok(v) && v.p.st == M.Ground && v.p.utf.need == 0 && 0x20 <= b < 0x7f
    ensures M.Step(v, b) == M.Print(v, b)
  {
    assert M.WithUtf(v, v.p.utf.cp, 0) == v;
  }

  // ---- the terminal -----------------------------------------------------------------

  class Terminal {
    const screen: Screen
    const parser: VtParser
    const sinks: ParserSinks
    var cwd: Option<Text.Str>
    var title: Option<Text.Str>
    var respond: Bytes
    var clipboard: Option<Text.Str>

    ghost predicate Valid()
      reads this, screen, parser, sinks, screen.scrollback, screen.scrollback.ring
    {
      parser.Good(screen)
    }

    ghost function State(): M.Term
      reads this, screen, parser
    {
      M.Term(parser.State(), screen.State(), M.Sinks(respond, title, cwd, clipboard))
    }

    constructor (cols: nat, rows: nat, capacity: nat)
      requires cols <= S.MAX_DIM && rows <= S.MAX_DIM
      ensures State() == M.FreshTerm(cols, rows, capacity)
      ensures Valid() && fresh(screen) && fresh(parser) && fresh(sinks)
      ensures fresh(screen.scrollback) && fresh(screen.scrollback.ring)
    {
      hide S.Fresh, S.Ok;
      screen := new Screen(cols, rows, capacity);
      parser := new VtParser();
      sinks := new ParserSinks();
      cwd := None;
      title := None;
      respond := [];
      clipboard := None;
    }

    method Feed(data: Bytes)
      requires Valid()
      modifies this, screen, parser, sinks, screen.scrollback, screen.scrollback.ring
      ensures State() == M.Feed(old(State()), data)
      ensures Valid()
    {
      hide M.POk, S.Ok, M.Run;
      sinks.Clear();
      parser.Parse(screen, sinks, data);
      if sinks.respond != [] {
        respond := respond + sinks.respond;
      }
      if sinks.title.Some? {
        title := sinks.title;
      }
      if sinks.cwd.Some? {
        cwd := sinks.cwd;
      }
      if sinks.clipboard.Some? {
        clipboard := sinks.clipboard;
      }
    }

    method TakeClipboard() returns (c: Option<Text.Str>)
      requires Valid()
      modifies this`clipboard
      ensures c == old(clipboard) && clipboard == None
      ensures State() == old(State()).(out := old(State()).out.(clipboard := None))
      ensures Valid()
    {
      c := clipboard;
      clipboard := None;
    }

    method Resize(cols: nat, rows: nat)
      requires Valid() && cols <= S.MAX_DIM && rows <= S.MAX_DIM
      modifies screen
      ensures State() == old(State()).(s := S.Resize(old(screen.State()), cols, rows))
      ensures Valid()
    {
      screen.Resize(cols, rows);
    }

    method CaptureViewport(off: nat) returns (dest: Grid)
      requires Valid()
      ensures dest == S.Viewport(screen.State(), off)
      ensures |dest| == screen.rows && |screen.Buf()| == screen.rows
      ensures var (sheet, kept) := (screen.scrollback.contents + screen.Buf(), screen.scrollback.count);
              forall r :: 0 <= r < screen.rows ==> dest[r] == sheet[kept - Min(off, kept) + r]
    {
      dest := screen.CopyViewport(off);
    }

    method GetText(r1: int, c1: int, r2: int, c2: int) returns (out: seq<nat>)
      requires Valid() && S.Readable(screen.State(), r1, c1, r2, c2)
      ensures out == S.GetText(screen.State(), r1, c1, r2, c2)
    {
      out := screen.GetText(r1, c1, r2, c2);
    }
  }
}
