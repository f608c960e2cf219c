/** Byte streams that are not plain text or one well-formed sequence: broken UTF-8, control bytes
    inside sequences, numbers too long, several modes at once, strings nobody reads, and what a feed
    hands over. */
module Streams {
  import opened Cells
  import opened Text
  import opened ParserModel
  import opened Sequences
  import opened Controls
  import opened Requests
  import S = ScreenModel

  // ---- broken UTF-8 ---------------------------------------------------------------------------

  /** A byte that no sequence starts with, where none is pending: a continuation byte, or one from
      0xF8 on. It prints U+FFFD, whatever the character set. */
  lemma StrayByte(v: Vt, b: byte)
    requires Ok(v) && v.p.st == Ground && v.p.utf.need == 0 && (0x80 <= b < 0xC0 || b >= 0xF8)
    ensures var r := Run(v, [b]); r.s == S.PutRune(v.s, 0xFFFD) && r.p.st == Ground && r.p.utf.need == 0
  {
    RunOne(v, b);
    StrayLead(WithUtf(v, v.p.utf.cp, 0), b);
    hide S.Ok, S.PutRune, Lead;
  }

  lemma StrayLead(v: Vt, b: byte)
    requires Ok(v) && v.p.st == Ground && v.p.utf.need == 0 && (0x80 <= b < 0xC0 || b >= 0xF8)
    ensures Lead(v, b).s == S.PutRune(v.s, 0xFFFD) && Lead(v, b).p == v.p
  {
    hide S.Ok, S.PutRune;
  }

  /** A sequence cut short by a byte that cannot continue it prints nothing, and the byte counts as if
      nothing came before it. */
  lemma CutShort(v: Vt, b: byte)
    requires Ok(v) && v.p.st == Ground && v.p.utf.need > 0 && !IsCont(b)
    ensures Ok(WithUtf(v, v.p.utf.cp, 0)) && Run(v, [b]) == Run(WithUtf(v, v.p.utf.cp, 0), [b])
  {
    RunOne(v, b);
    RunOne(WithUtf(v, v.p.utf.cp, 0), b);
    hide S.Ok, Lead;
  }

  // ---- control bytes inside a control sequence ---------------------------------------------------

  /** A control byte inside a control sequence acts at once, and the sequence goes on. */
  lemma InsideSequence(v: Vt, b: byte)
    requires Ok(v) && v.p.st == Csi && b < 0x20 && b != ESC
    ensures var (r, at) := (Run(v, [b]), Run(Go(v, Ground), [b]));
            r.s == at.s && r.p.sets == at.p.sets && r.p.csi == v.p.csi && r.p.st == Csi && r.k == v.k
  {
    RunOne(v, b);
    RunOne(Go(v, Ground), b);
    ByteInside(v, b);
    hide S.Ok, C0;
  }

  lemma ByteInside(v: Vt, b: byte)
    requires Ok(v) && v.p.utf.need == 0 && b < 0x20 && b != ESC
    ensures var (r, at) := (C0(v, b), C0(WithUtf(Go(v, Ground), v.p.utf.cp, 0), b));
            && r.s == at.s && r.p.sets == at.p.sets && r.p.csi == v.p.csi && r.p.st == v.p.st && r.k == v.k
  {
    hide S.Ok, S.Index, S.Tab, S.Backspace, S.CarriageReturn;
  }

  // ---- numbers too long --------------------------------------------------------------------------

  /** Digits are read modulo 2^32, as a signed number. */
  lemma {:induction false} LongNumber(v: Vt, d: Bytes)
    requires Ok(v) && v.p.st == Csi && v.p.csi.cur == 0 && !v.p.csi.curHas && AllDigits(d) && d != []
    ensures var r := Run(v, d);
            && r == WithCsi(v, v.p.csi.(cur := r.p.csi.cur, curHas := true)) && IsI32(r.p.csi.cur)
            && (r.p.csi.cur - Text.Value(d)) % 0x1_0000_0000 == 0
    decreases |d|
  {
    hide S.Ok, POk, Step;
    var n := |d| - 1;
    assert IsDigit(d[n]);
    if n == 0 {
      assert d == [d[0]] && d[..0] == [];
      RunOne(v, d[0]);
      DigitRead(v, d[0]);
    } else {
      LongNumber(v, d[..n]);
      DigitRead(Run(v, d[..n]), d[n]);
      SameRest(Run(v, d[..n]).p.csi.cur, Text.Value(d[..n]), d[n] - 48);
    }
  }

  lemma DigitRead(v: Vt, b: byte)
    requires Ok(v) && v.p.st == Csi && IsDigit(b)
    ensures Step(v, b) == WithCsi(v, v.p.csi.(cur := Wrap32(v.p.csi.cur * 10 + (b - 48)), curHas := true))
  {
    hide S.Ok;
  }

  lemma SameRest(cur: int, value: int, digit: int)
    requires (cur - value) % 0x1_0000_0000 == 0
    ensures (Wrap32(cur * 10 + digit) - (value * 10 + digit)) % 0x1_0000_0000 == 0
  {
    var m := 0x1_0000_0000;
    var k := (cur - value) / m;
    var x := cur * 10 + digit;
    var q := (x + 0x8000_0000) / m;
    assert cur == value + m * k;
    assert Wrap32(x) == x - m * q;
    assert Wrap32(x) - (value * 10 + digit) == m * (10 * k - q);
    DivMod(m * (10 * k - q), m, 10 * k - q, 0);
  }

  // ---- intermediate bytes -----------------------------------------------------------------------------

  /** Space to '/': bytes that may stand between the parameters and the final byte. */
  predicate Between(i: Bytes) { forall j :: 0 <= j < |i| ==> 0x20 <= i[j] <= 0x2f }

  lemma DispatchSame(c: Params, n: nat, s: S.Scr, f: byte)
    requires CsiOk(c) && S.Ok(s)
    ensures Dispatch(c.(inter := n), s, f) == Dispatch(c, s, f)
  {
    var d := c.(inter := n);
    assert Arg(d, 0, 0) == Arg(c, 0, 0) && Arg(d, 0, 1) == Arg(c, 0, 1) && Arg(d, 1, 0) == Arg(c, 1, 0);
    assert Arg(d, 1, 1) == Arg(c, 1, 1);
    hide S.Ok, Arg, DecModesTo;
  }

  lemma {:induction false} IntermediatesHeld(v: Vt, i: Bytes)
    requires Ok(v) && v.p.st == Csi && Between(i) && i != []
    ensures Run(v, i) == Go(WithCsi(v, v.p.csi.(inter := i[|i| - 1])), CsiInt)
  {
    hide S.Ok;
    var n := |i| - 1;
    if n == 0 {
      assert i == [i[0]];
      RunOne(v, i[0]);
    } else {
      IntermediatesHeld(v, i[..n]);
    }
  }

  lemma FinalSame(v: Vt, n: nat, f: byte)
    requires Ok(v) && v.p.st == Csi && 0x40 <= f <= 0x7e
    ensures var (r, d) := (Step(Go(WithCsi(v, v.p.csi.(inter := n)), CsiInt), f), Step(v, f));
            r.s == d.s && r.k == d.k && r.p.sets == d.p.sets && r.p.st == Ground && d.p.st == Ground
  {
    var c := Flushed(v.p.csi, false);
    DispatchSame(c, n, v.s, f);
    assert Flushed(v.p.csi.(inter := n), false) == c.(inter := n);
    hide S.Ok, Dispatch;
  }

  /** Intermediate bytes do not change what a control sequence does. */
  lemma IntermediatesIgnored(v: Vt, i: Bytes, f: byte)
    requires Ok(v) && v.p.st == Csi && Between(i) && 0x40 <= f <= 0x7e
    ensures var (r, d) := (Run(v, i + [f]), Run(v, [f]));
            r.s == d.s && r.k == d.k && r.p.sets == d.p.sets && r.p.st == Ground && d.p.st == Ground
  {
    hide S.Ok, POk, Step, Run, Between;
    RunOne(v, f);
    FinalSame(v, 0, f);
    if i == [] {
      assert i + [f] == [f];
    } else {
      IntermediatesHeld(v, i);
      FinalSame(v, i[|i| - 1], f);
      RunAppend(v, i, [f]);
      RunOne(Run(v, i), f);
    }
  }

  // ---- several private modes ------------------------------------------------------------------------

  /** The modes of a list, in order. */
  function ModedAll(s: S.Scr, ms: seq<nat>, on: bool): (r: S.Scr)
    requires S.Ok(s)
    ensures S.Ok(r)
  {
    if ms == [] then s
    else
      var m := ModedAll(s, ms[..|ms| - 1], on);
      OneMode(m, ms[|ms| - 1], on);
      Moded(m, ms[|ms| - 1], on)
  }

  lemma {:induction false} ListModes(s: S.Scr, vals: seq<int>, ms: seq<nat>, n: nat, on: bool)
    requires S.Ok(s) && |vals| == |ms| && n <= |ms| && (forall i :: 0 <= i < |ms| ==> vals[i] == ms[i])
    ensures DecModesTo(vals, s, n, on) == ModedAll(s, ms[..n], on)
    decreases n
  {
    hide DecMode, Moded, S.Ok;
    if n > 0 {
      ListModes(s, vals, ms, n - 1, on);
      OneMode(ModedAll(s, ms[..n - 1], on), ms[n - 1], on);
      assert ms[..n][..n - 1] == ms[..n - 1];
    }
  }

  lemma DispatchModes(s: S.Scr, ms: seq<nat>, colons: seq<bool>, on: bool)
    requires S.Ok(s) && ListOk(ms, colons)
    ensures var c := NO_PARAMS.(vals := ms, colons := colons, priv := 63);
            CsiOk(c) && Dispatch(c, s, if on then 104 else 108).0 == ModedAll(s, ms, on)
  {
    var c := NO_PARAMS.(vals := ms, colons := colons, priv := 63);
    ListModes(s, c.vals, ms, |ms|, on);
    assert ms[..|ms|] == ms;
    hide S.Ok, DecModesTo, ModedAll;
  }

  /** CSI ? m ; ... ; m h and l set and reset all the modes, one after the other. */
  lemma PrivateModesSet(v: Vt, ms: seq<nat>, colons: seq<bool>, on: bool)
    requires Ok(v) && v.p.st == Ground && ListOk(ms, colons)
    ensures Run(v, Private(ms, colons, if on then 104 else 108)).s == ModedAll(v.s, ms, on)
  {
    hide S.Ok, POk, Dispatch, Run, Rendered, ModedAll;
    DispatchModes(v.s, ms, colons, on);
    PrivateArrive(v, 63, ms, colons, if on then 104 else 108);
  }

  // ---- sequences that do nothing ----------------------------------------------------------------------

  /** A sequence marked with < = or > changes nothing on the screen, whatever its final byte; with c it
      asks for the kind of terminal, and > for its version. */
  lemma MarkedIgnored(v: Vt, m: byte, vals: seq<nat>, colons: seq<bool>, f: byte)
    requires Ok(v) && v.p.st == Ground && ListOk(vals, colons) && 0x40 <= f <= 0x7e && 60 <= m <= 62
    ensures var r := Run(v, [ESC, 91, m] + Rendered(vals, colons) + [f]);
            && r.s == v.s && r.p.st == Ground
            && r.k.respond == v.k.respond +
                 if f != 99 then []
                 else if m == 62 then [0x1b, 91, 62, 48, 59, 50, 55, 54, 59, 48, 99]
                 else [0x1b, 91, 63, 49, 59, 50, 99]
  {
    MarkedDispatch(v.s, m, vals, colons, f);
    hide S.Ok, POk, Dispatch, Run, Rendered;
    PrivateArrive(v, m, vals, colons, f);
  }

  lemma MarkedDispatch(s: S.Scr, m: byte, vals: seq<nat>, colons: seq<bool>, f: byte)
    requires S.Ok(s) && ListOk(vals, colons) && 60 <= m <= 62
    ensures var c := NO_PARAMS.(vals := vals, colons := colons, priv := m);
            && CsiOk(c) && Dispatch(c, s, f).0 == s
            && Dispatch(c, s, f).1 ==
                 if f != 99 then []
                 else if m == 62 then [0x1b, 91, 62, 48, 59, 50, 55, 54, 59, 48, 99]
                 else [0x1b, 91, 63, 49, 59, 50, 99]
  {
    hide S.Ok;
  }

  /** The final bytes that mean something, without a marker. */
  predicate Known(f: byte) {
    Sideways(f) || UpDown(f) || f == 72 || f == 102 || f == 74 || f == 75 || f == 76 || f == 77 || f == 80 || f == 64
    || f == 88 || f == 83 || f == 84 || f == 114 || f == 109 || f == 104 || f == 108 || f == 110 || f == 99 || f == 103
    || f == 115 || f == 117
  }

  /** Any other final byte does nothing, and neither does one but h and l behind '?'. */
  lemma UnknownIgnored(v: Vt, vals: seq<nat>, colons: seq<bool>, f: byte)
    requires Ok(v) && v.p.st == Ground && ListOk(vals, colons) && 0x40 <= f <= 0x7e
    ensures !Known(f) ==> Run(v, Sequence(vals, colons, f)).s == v.s && Run(v, Sequence(vals, colons, f)).k == v.k
    ensures f != 104 && f != 108 ==>
      Run(v, Private(vals, colons, f)).s == v.s && Run(v, Private(vals, colons, f)).k == v.k
  {
    UnknownDispatch(v.s, vals, colons, f);
    hide S.Ok, POk, Dispatch, Run, Rendered, Known;
    ParamsArrive(v, vals, colons, f);
    PrivateArrive(v, 63, vals, colons, f);
    assert v.k.respond + [] == v.k.respond;
  }

  lemma UnknownDispatch(s: S.Scr, vals: seq<nat>, colons: seq<bool>, f: byte)
    requires S.Ok(s) && ListOk(vals, colons)
    ensures CsiOk(Given(vals, colons)) && CsiOk(Given(vals, colons).(priv := 63))
    ensures !Known(f) ==> Dispatch(Given(vals, colons), s, f) == (s, [])
    ensures f != 104 && f != 108 ==> Dispatch(Given(vals, colons).(priv := 63), s, f) == (s, [])
  {
    hide S.Ok;
  }

  // ---- strings nobody reads ----------------------------------------------------------------------------

  lemma {:induction false} StringSkipped(v: Vt, d: Bytes)
    requires Ok(v) && v.p.st == Str && (forall i :: 0 <= i < |d| ==> d[i] != BEL && d[i] != ESC)
    ensures Run(v, d) == v
  {
    hide S.Ok, POk;
    if d != [] { StringSkipped(v, d[..|d| - 1]); }
  }

  lemma StringOpens(v: Vt, b: byte)
    requires Ok(v) && v.p.st == Ground && (b == 80 || b == 88 || b == 94 || b == 95)
    ensures var r := Run(v, [ESC, b]); r.p.st == Str && r.s == v.s && r.k == v.k && r.p.sets == v.p.sets
  {
    EscStarts(v);
    RunTwo(v, ESC, b);
    hide S.Ok, GroundByte, EscapeOp;
  }

  lemma StringEnds(v: Vt, e: Bytes)
    requires Ok(v) && v.p.st == Str && Ends(e)
    ensures var r := Run(v, e); r.p.st == Ground && r.s == v.s && r.k == v.k && r.p.sets == v.p.sets
  {
    assert v.k.respond + [] == v.k.respond;
    assert Lossy([]) == [] && OscNumber([]) == [];
    hide S.Ok;
    if e == [BEL] { RunOne(v, BEL); } else { RunTwo(v, ESC, 92); }
  }

  /** Device control, start, privacy and application strings are skipped to their end. */
  lemma StringIgnored(v: Vt, b: byte, d: Bytes, e: Bytes)
    requires Ok(v) && v.p.st == Ground && (b == 80 || b == 88 || b == 94 || b == 95) && Ends(e)
    requires forall i :: 0 <= i < |d| ==> d[i] != BEL && d[i] != ESC
    ensures var r := Run(v, [ESC, b] + d + e); r.s == v.s && r.k == v.k && r.p.sets == v.p.sets && r.p.st == Ground
  {
    hide S.Ok, POk, Run, Step;
    StringOpens(v, b);
    StringSkipped(Run(v, [ESC, b]), d);
    StringEnds(Run(v, [ESC, b]), e);
    RunAppend(v, [ESC, b], d);
    RunAppend(v, [ESC, b] + d, e);
  }

  // ---- what a feed hands over ------------------------------------------------------------------------------

  /** One feed: replies are added to those waiting, and a title, directory or clipboard text that came
      replaces the one waiting; without one it stays. */
  lemma FeedHandsOver(t: Term, data: Bytes)
    requires TermOk(t)
    ensures var (r, k) := (Feed(t, data), Run(Vt(t.p, t.s, EMPTY), data).k);
            && r.out.respond == t.out.respond + k.respond
            && r.out.title == (if k.title == None then t.out.title else k.title)
            && r.out.cwd == (if k.cwd == None then t.out.cwd else k.cwd)
            && r.out.clipboard == (if k.clipboard == None then t.out.clipboard else k.clipboard)
  {
    hide Run, S.Ok, POk;
  }

  /** The last title fed is the one waiting, whatever was waiting before. */
  lemma LastTitleWaits(t: Term, n: nat, title: Str, e: Bytes)
    requires TermOk(t) && t.p.st == Ground && Carried(title) && n <= 2 && Ends(e)
    ensures Carried([48 + n, 59] + title)
    ensures var r := Feed(t, Command([48 + n, 59] + title, e)); r.out == t.out.(title := Some(title)) && r.s == t.s
  {
    hide Run, S.Ok, POk, Command;
    TitleSet(Vt(t.p, t.s, EMPTY), n, title, e);
    assert t.out.respond + [] == t.out.respond;
  }
}
