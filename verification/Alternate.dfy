/** The alternate screen keeps full-screen programs away from the primary screen and its history,
    whatever they send. */
module Alternate {
  import opened Cells
  import opened Text
  import opened ScreenModel
  import opened ScreenOps
  import M = ParserModel

  /** What a program on the alternate screen must not touch. */
  predicate Untouched(s: Scr, r: Scr) {
    r.bufs.primary == s.bufs.primary && r.hist.log == s.hist.log && r.cols == s.cols && r.rows == s.rows
  }

  lemma OpUntouched(s: Scr, op: Op)
    requires Ok(s) && Allowed(s, op) && s.bufs.inAlt && op != Alt(false) && op != Reset
    ensures Apply(s, op).bufs.inAlt && Untouched(s, Apply(s, op))
  {
    hide GridOk;
    if op.Put? {
      PutUntouched(s, op.cp);
    }
  }

  lemma PutUntouched(s: Scr, cp: nat)
    requires Ok(s) && s.bufs.inAlt
    ensures PutRune(s, cp).bufs.inAlt && Untouched(s, PutRune(s, cp))
  {
    hide ShiftUp, PlacedRow, GridOk;
  }

  lemma OpStaysOut(s: Scr, op: Op)
    requires Ok(s) && Allowed(s, op) && !s.bufs.inAlt && op != Alt(true)
    ensures !Apply(s, op).bufs.inAlt
  {
    hide ShiftUp, ShiftDown, PlacedRow, PutRune, FullReset, GridOk;
    if op.Put? { PutStaysOut(s, op.cp); }
    if op.Reset? { ResetStaysOut(s); }
  }

  lemma PutStaysOut(s: Scr, cp: nat)
    requires Ok(s) && !s.bufs.inAlt
    ensures !PutRune(s, cp).bufs.inAlt
  {
    hide ShiftUp, PlacedRow, GridOk;
  }

  lemma ResetStaysOut(s: Scr)
    requires Ok(s) && !s.bufs.inAlt
    ensures !FullReset(s).bufs.inAlt
  {
    hide GridOk;
  }

  lemma {:induction false} StaysOut(s: Scr, ops: seq<Op>, r: Scr)
    requires Ok(s) && Leads(s, ops, r) && !s.bufs.inAlt && NoEnter(ops)
    ensures !r.bufs.inAlt
    decreases |ops|
  {
    hide Ok, Apply, Allowed;
    if ops != [] {
      OpStaysOut(s, ops[0]);
      StaysOut(Apply(s, ops[0]), ops[1..], r);
    }
  }

  lemma {:induction false} OpsUntouched(s: Scr, ops: seq<Op>, r: Scr)
    requires Ok(s) && Leads(s, ops, r) && s.bufs.inAlt && r.bufs.inAlt && (NoEnter(ops) || NoLeave(ops))
    ensures Untouched(s, r)
    decreases |ops|
  {
    hide Ok, Apply, Allowed;
    if ops != [] {
      var m := Apply(s, ops[0]);
      if ops[0] == Alt(false) || ops[0] == Reset {
        LeavesAlt(s, ops[0]);
        StaysOut(m, ops[1..], r);
      } else {
        OpUntouched(s, ops[0]);
        OpsUntouched(m, ops[1..], r);
      }
    }
  }

  lemma LeavesAlt(s: Scr, op: Op)
    requires Ok(s) && s.bufs.inAlt && (op == Alt(false) || op == Reset)
    ensures !Apply(s, op).bufs.inAlt
  {
    hide GridOk;
  }

  /** The program is on the alternate screen after every byte. */
  predicate StaysAlt(v: M.Vt, data: Bytes)
    requires M.Ok(v)
  {
    M.Run(v, data).s.bufs.inAlt && (data != [] ==> StaysAlt(v, data[..|data| - 1]))
  }

  /** For every byte stream: as long as the alternate screen stays active, the primary grid and
      the log of history lines do not change. */
  lemma {:induction false} AlternateIsolates(v: M.Vt, data: Bytes)
    requires M.Ok(v) && StaysAlt(v, data)
    ensures Untouched(v.s, M.Run(v, data).s)
  {
    hide M.Step, Ok, M.POk;
    if data != [] {
      var init := data[..|data| - 1];
      AlternateIsolates(v, init);
      var m := M.Run(v, init);
      var ops := StepOps(m, data[|data| - 1]);
      assert m.s.bufs.inAlt;
      OpsUntouched(m.s, ops, M.Run(v, data).s);
    }
  }

  /** Entering, running anything and leaving shows the primary screen as it was, with the cursor
      and rendition it had, provided the program did not save the cursor over them. */
  lemma AlternateRestores(v: M.Vt, s: Scr, data: Bytes)
    requires M.Ok(v) && Ok(s) && !s.bufs.inAlt && v.s == SetAltScreen(s, true) && StaysAlt(v, data)
    ensures var m := M.Run(v, data).s;
            var r := SetAltScreen(m, false);
            && Buf(r) == Buf(s) && r.hist.log == s.hist.log
            && (m.saved == v.s.saved ==>
                  && r.cur == Cursor(s.cur.x, s.cur.y, false) && r.pen == s.pen
                  && r.modes.origin == s.modes.origin)
  {
    AlternateIsolates(v, data);
    hide M.Run, M.POk;
    EnterAlt(s);
    LeaveAlt(M.Run(v, data).s);
  }

  lemma EnterAlt(s: Scr)
    requires Ok(s) && !s.bufs.inAlt
    ensures var r := SetAltScreen(s, true);
            && r.bufs.inAlt && Untouched(s, r) && r.saved == Saved(s.cur.x, s.cur.y, s.pen, s.modes.origin)
            && s.cur.x < r.cols && s.cur.y < r.rows
  {
  }

  lemma LeaveAlt(s: Scr)
    requires Ok(s) && s.bufs.inAlt
    ensures var r := SetAltScreen(s, false);
            && !r.bufs.inAlt && Untouched(s, r) && r.pen == s.saved.pen && r.modes.origin == s.saved.origin
            && r.cur == Cursor(Min(s.saved.cx, s.cols - 1), Min(s.saved.cy, s.rows - 1), false)
  {
  }
}
