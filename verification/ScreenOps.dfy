/** What one byte does to the screen, as a list of primitive operations. Properties of whole
    runs are then proved once per primitive. */
module ScreenOps {
  import opened Cells
  import opened Text
  import opened ScreenModel
  import M = ParserModel

  /** `Quiet` stands for every change that leaves size, grids, history and marks alone. */
  datatype Op =
    | Quiet(next: Scr)
    | Put(cp: nat)
    | Up(n: nat)
    | Down(n: nat)
    | EraseRow(mode: int)
    | EraseScreen(mode: int)
    | EraseCells(n: nat)
    | InsertCells(n: nat)
    | DeleteCells(n: nat)
    | InsertRows(n: nat)
    | DeleteRows(n: nat)
    | Alt(on: bool)
    | Reset

  predicate SameContent(s: Scr, r: Scr) {
    r.cols == s.cols && r.rows == s.rows && r.bufs == s.bufs && r.hist == s.hist && r.pool == s.pool
  }

  predicate Allowed(s: Scr, op: Op) { op.Quiet? ==> SameContent(s, op.next) && Ok(op.next) }

  function Apply(s: Scr, op: Op): (r: Scr)
    requires Ok(s) && Allowed(s, op)
    ensures Ok(r)
  {
    match op
    case Quiet(next) => next
    case Put(cp) => PutRune(s, cp)
    case Up(n) => ScrollUp(s, n)
    case Down(n) => ScrollDown(s, n)
    case EraseRow(mode) => EraseInLine(s, mode)
    case EraseScreen(mode) => EraseInDisplay(s, mode)
    case EraseCells(n) => EraseChars(s, n)
    case InsertCells(n) => InsertChars(s, n)
    case DeleteCells(n) => DeleteChars(s, n)
    case InsertRows(n) => InsertLines(s, n)
    case DeleteRows(n) => DeleteLines(s, n)
    case Alt(on) => SetAltScreen(s, on)
    case Reset => FullReset(s)
  }

  /** Whether the operations can be applied one after the other, ending in r. */
  predicate Leads(s: Scr, ops: seq<Op>, r: Scr)
    requires Ok(s)
    decreases |ops|
  {
    if ops == [] then s == r
    else Allowed(s, ops[0]) && Leads(Apply(s, ops[0]), ops[1..], r)
  }

  /** No operation enters the alternate screen; none leaves it. */
  predicate NoEnter(ops: seq<Op>) { forall i :: 0 <= i < |ops| ==> ops[i] != Alt(true) }
  predicate NoLeave(ops: seq<Op>) { forall i :: 0 <= i < |ops| ==> ops[i] != Alt(false) && ops[i] != Reset }

  lemma Single(s: Scr, op: Op)
    requires Ok(s) && Allowed(s, op)
    ensures Leads(s, [op], Apply(s, op))
  {
    assert [op][1..] == [];
  }

  lemma {:induction false} Chain(s: Scr, a: seq<Op>, m: Scr, b: seq<Op>, r: Scr)
    requires Ok(s) && Ok(m) && Leads(s, a, m) && Leads(m, b, r)
    ensures Leads(s, a + b, r)
    decreases |a|
  {
    hide Ok, Apply, Allowed;
    if a == [] {
      assert a + b == b;
    } else {
      Chain(Apply(s, a[0]), a[1..], m, b, r);
      assert (a + b)[0] == a[0] && (a + b)[1..] == a[1..] + b;
    }
  }

  // ---- each kind of byte ------------------------------------------------------------

  lemma IndexOps(s: Scr) returns (ops: seq<Op>)
    requires Ok(s)
    ensures Leads(s, ops, Index(s))
    ensures NoEnter(ops)
  {
    var m := MoveTo(s, s.cur.x, s.cur.y);
    Single(s, Quiet(m));
    if s.cur.y == s.reg.bot {
      Single(m, Up(1));
      Chain(s, [Quiet(m)], m, [Up(1)], Index(s));
      ops := [Quiet(m)] + [Up(1)];
    } else {
      ops := [Quiet(Index(s))];
      Single(s, ops[0]);
    }
  }

  lemma ReverseIndexOps(s: Scr) returns (ops: seq<Op>)
    requires Ok(s)
    ensures Leads(s, ops, ReverseIndex(s))
    ensures NoEnter(ops)
  {
    var m := MoveTo(s, s.cur.x, s.cur.y);
    Single(s, Quiet(m));
    if s.cur.y == s.reg.top {
      Single(m, Down(1));
      Chain(s, [Quiet(m)], m, [Down(1)], ReverseIndex(s));
      ops := [Quiet(m)] + [Down(1)];
    } else {
      ops := [Quiet(ReverseIndex(s))];
      Single(s, ops[0]);
    }
  }

  lemma C0Ops(v: M.Vt, b: byte) returns (ops: seq<Op>)
    requires M.Ok(v) && v.p.utf.need == 0
    ensures Leads(v.s, ops, M.C0(v, b).s)
    ensures NoEnter(ops)
  {
    if b == 0x0A || b == 0x0B || b == 0x0C {
      ops := IndexOps(v.s);
    } else {
      ops := [Quiet(M.C0(v, b).s)];
      Single(v.s, ops[0]);
    }
  }

  lemma PrintOps(v: M.Vt, cp: nat) returns (ops: seq<Op>)
    requires M.Ok(v)
    ensures Leads(v.s, ops, M.Print(v, cp).s)
    ensures NoEnter(ops)
  {
    ops := [Put(M.Glyph(v.p.sets, cp))];
    Single(v.s, ops[0]);
  }

  lemma LeadOps(v: M.Vt, b: byte) returns (ops: seq<Op>)
    requires M.Ok(v) && v.p.st == M.Ground && v.p.utf.need == 0
    ensures Leads(v.s, ops, M.Lead(v, b).s)
    ensures NoEnter(ops)
  {
    hide M.C0, M.Print, Ok;
    if b < 0x80 {
      if b < 0x20 || b == 0x7f {
        ops := C0Ops(v, b);
      } else {
        ops := PrintOps(v, b);
      }
    } else if b / 32 == 6 || b / 16 == 14 || b / 8 == 30 {
      ops := [];
    } else {
      ops := PrintOps(v, REPLACEMENT);
    }
  }

  lemma GroundOps(v: M.Vt, b: byte) returns (ops: seq<Op>)
    requires M.Ok(v) && v.p.st == M.Ground
    ensures Leads(v.s, ops, M.GroundByte(v, b).s)
    ensures NoEnter(ops)
  {
    hide M.Lead, M.Print, Ok;
    if v.p.utf.need > 0 && IsCont(b) {
      var v1 := M.WithUtf(v, v.p.utf.cp * 64 + b % 64, v.p.utf.need - 1);
      if v.p.utf.need == 1 {
        ops := PrintOps(v1, v1.p.utf.cp);
      } else {
        ops := [];
      }
    } else {
      ops := LeadOps(M.WithUtf(v, v.p.utf.cp, 0), b);
    }
  }

  lemma EscapeOpOps(s: Scr, b: byte) returns (ops: seq<Op>)
    requires Ok(s)
    ensures Leads(s, ops, M.EscapeOp(s, b))
    ensures NoEnter(ops)
  {
    if b == 77 {
      ops := ReverseIndexOps(s);
    } else if b == 68 {
      ops := IndexOps(s);
    } else if b == 69 {
      var m := CarriageReturn(s);
      Single(s, Quiet(m));
      var rest := IndexOps(m);
      Chain(s, [Quiet(m)], m, rest, Index(m));
      ops := [Quiet(m)] + rest;
    } else if b == 99 {
      ops := [Reset];
      Single(s, Reset);
    } else {
      ops := [Quiet(M.EscapeOp(s, b))];
      Single(s, ops[0]);
    }
  }

  lemma EscapeOps(v: M.Vt, b: byte) returns (ops: seq<Op>)
    requires M.Ok(v) && v.p.utf.need == 0
    ensures Leads(v.s, ops, M.EscapeByte(v, b).s)
    ensures NoEnter(ops)
  {
    hide M.EscapeOp, Ok;
    if b == 91 || b == 93 || b == 80 || b == 88 || b == 94 || b == 95 || 40 <= b <= 43 {
      ops := [];
    } else {
      ops := EscapeOpOps(v.s, b);
    }
  }

  // ---- control sequences ----------------------------------------------------------------

  lemma QuietCursorOp(c: M.Params, s: Scr, f: byte)
    requires M.CsiOk(c) && Ok(s) && f != 64
    ensures SameContent(s, M.CursorOp(c, s, f))
  {
  }

  lemma CursorOpOps(c: M.Params, s: Scr, f: byte) returns (ops: seq<Op>)
    requires M.CsiOk(c) && Ok(s)
    ensures Leads(s, ops, M.CursorOp(c, s, f))
    ensures NoEnter(ops)
  {
    var r := M.CursorOp(c, s, f);
    if f == 64 {
      ops := [InsertCells(M.AsWord(M.Arg(c, 0, 1)))];
    } else {
      QuietCursorOp(c, s, f);
      ops := [Quiet(r)];
    }
    hide M.CursorOp, Ok, InsertChars;
    Single(s, ops[0]);
  }

  lemma EditOpOps(c: M.Params, s: Scr, f: byte) returns (ops: seq<Op>)
    requires M.CsiOk(c) && Ok(s)
    ensures Leads(s, ops, M.EditOp(c, s, f))
    ensures NoEnter(ops)
  {
    hide Ok, EraseInDisplay, EraseInLine, InsertLines, DeleteLines, DeleteChars, EraseChars, ScrollUp, ScrollDown;
    var n := M.AsWord(M.Arg(c, 0, 1));
    var op := if f == 74 then EraseScreen(M.Arg(c, 0, 0))
              else if f == 75 then EraseRow(M.Arg(c, 0, 0))
              else if f == 76 then InsertRows(n)
              else if f == 77 then DeleteRows(n)
              else if f == 80 then DeleteCells(n)
              else if f == 88 then EraseCells(n)
              else if f == 83 then Up(n)
              else if f == 84 then Down(n)
              else Quiet(s);
    ops := [op];
    Single(s, op);
  }

  lemma QuietModeOp(c: M.Params, s: Scr, f: byte)
    requires M.CsiOk(c) && Ok(s)
    ensures SameContent(s, M.ModeOp(c, s, f))
  {
  }

  lemma ModeOpOps(c: M.Params, s: Scr, f: byte) returns (ops: seq<Op>)
    requires M.CsiOk(c) && Ok(s)
    ensures Leads(s, ops, M.ModeOp(c, s, f))
    ensures NoEnter(ops)
  {
    hide M.ModeOp, Ok;
    QuietModeOp(c, s, f);
    ops := [Quiet(M.ModeOp(c, s, f))];
    Single(s, ops[0]);
  }

  lemma DecModeOps(s: Scr, m: int, on: bool) returns (ops: seq<Op>)
    requires Ok(s)
    ensures Leads(s, ops, M.DecMode(s, m, on))
    ensures if on then NoLeave(ops) else NoEnter(ops)
  {
    ops := [if m == 47 || m == 1047 || m == 1049 then Alt(on) else Quiet(M.DecMode(s, m, on))];
    Single(s, ops[0]);
  }

  lemma {:induction false} DecModesOps(vals: seq<int>, s: Scr, n: nat, on: bool) returns (ops: seq<Op>)
    requires Ok(s) && n <= |vals|
    ensures Leads(s, ops, M.DecModesTo(vals, s, n, on))
    ensures if on then NoLeave(ops) else NoEnter(ops)
    decreases n
  {
    hide M.DecMode, Ok;
    if n == 0 {
      ops := [];
    } else {
      var m := M.DecModesTo(vals, s, n - 1, on);
      var a := DecModesOps(vals, s, n - 1, on);
      var b := DecModeOps(m, vals[n - 1], on);
      Chain(s, a, m, b, M.DecMode(m, vals[n - 1], on));
      ops := a + b;
    }
  }

  lemma DispatchOps(c: M.Params, s: Scr, f: byte) returns (ops: seq<Op>)
    requires M.CsiOk(c) && Ok(s)
    ensures Leads(s, ops, M.Dispatch(c, s, f).0)
    ensures NoEnter(ops) || NoLeave(ops)
  {
    hide M.CursorOp, M.EditOp, M.ModeOp, M.DecModesTo, Ok;
    if c.priv == 63 {
      if f == 104 || f == 108 {
        ops := DecModesOps(c.vals, s, |c.vals|, f == 104);
      } else {
        ops := [];
      }
    } else if 60 <= c.priv <= 62 || f == 110 || f == 99 {
      ops := [];
    } else if f < 74 || f == 96 || f == 97 || f == 100 || f == 101 || f == 102 {
      ops := CursorOpOps(c, s, f);
    } else if f <= 88 {
      ops := EditOpOps(c, s, f);
    } else {
      ops := ModeOpOps(c, s, f);
    }
  }

  lemma FinalOps(v: M.Vt, b: byte) returns (ops: seq<Op>)
    requires M.Ok(v) && v.p.utf.need == 0
    ensures Leads(v.s, ops, M.Final(v, b).s)
    ensures NoEnter(ops) || NoLeave(ops)
  {
    hide M.Dispatch, Ok;
    ops := DispatchOps(M.Flushed(v.p.csi, false), v.s, b);
  }

  lemma QuietOscScreen(s: Scr, t: Text.Str)
    requires Ok(s)
    ensures SameContent(s, M.OscScreen(s, t))
  {
  }

  lemma OscDoneOps(v: M.Vt) returns (ops: seq<Op>)
    requires M.Ok(v) && v.p.utf.need == 0
    ensures Leads(v.s, ops, M.OscDone(v).s)
    ensures NoEnter(ops)
  {
    hide M.OscScreen, M.OscSinks, Ok;
    var t := Lossy(v.p.osc);
    QuietOscScreen(v.s, t);
    ops := [Quiet(M.OscScreen(v.s, t))];
    Single(v.s, ops[0]);
  }

  /** Every byte in every parser state acts on the screen by primitive operations only, and none
      both leaves and enters the alternate screen. */
  lemma StepOps(v: M.Vt, b: byte) returns (ops: seq<Op>)
    requires M.Ok(v)
    ensures Leads(v.s, ops, M.Step(v, b).s)
    ensures NoEnter(ops) || NoLeave(ops)
  {
    hide M.GroundByte, M.EscapeByte, M.Final, M.OscDone, M.C0, Ok;
    ops := [];
    match v.p.st {
      case Ground => ops := GroundOps(v, b);
      case Esc => ops := EscapeOps(v, b);
      case EscInt =>
      case Csi =>
        if b < 0x20 {
          ops := C0Ops(v, b);
        } else if b > 0x2f && !(b == 63 || 60 <= b <= 62) && !IsDigit(b) && b != 59 && b != 58 {
          ops := FinalOps(v, b);
        }
      case CsiInt =>
        if !(0x20 <= b <= 0x2f) {
          ops := FinalOps(v, b);
        }
      case Osc =>
        if b == M.BEL {
          ops := OscDoneOps(v);
        }
      case OscEsc =>
        if b == 92 {
          ops := OscDoneOps(v);
        } else {
          var v1 := M.Go(v, M.Ground);
          M.EscFromGround(v1);
          var a := GroundOps(v1, M.ESC);
          var v2 := M.GroundByte(v1, M.ESC);
          var c := EscapeOps(v2, b);
          Chain(v.s, a, v2.s, c, M.EscapeByte(v2, b).s);
          ops := a + c;
        }
      case Str =>
    }
  }

  lemma {:induction false} RunOps(v: M.Vt, data: Bytes) returns (ops: seq<Op>)
    requires M.Ok(v)
    ensures Leads(v.s, ops, M.Run(v, data).s)
    decreases |data|
  {
    hide M.Step, Ok, M.POk;
    if data == [] {
      ops := [];
    } else {
      var init := data[..|data| - 1];
      var m := M.Run(v, init);
      var a := RunOps(v, init);
      var b := StepOps(m, data[|data| - 1]);
      Chain(v.s, a, m.s, b, M.Run(v, data).s);
      ops := a + b;
    }
  }
}
