/** What the parser makes of well-formed input: UTF-8 text is printed scalar by scalar, decimal
    parameters are read back exactly, and titles arrive unchanged. */
module Sequences {
  import opened Cells
  import opened Text
  import opened ParserModel
  import S = ScreenModel

  // ---- UTF-8 ---------------------------------------------------------------------------

  /** A code point whose encoding the ground state prints. */
  predicate Prints(cp: nat) { 0x20 <= cp < 0x20_0000 && cp != 0x7f }

  /** The machine after printing cp, whatever is left in the decoder's bits. */
  predicate PrintedOne(v: Vt, cp: nat, r: Vt)
    requires Ok(v)
  {
    r.p.utf.need == 0 && r == Vt(v.p.(utf := r.p.utf), S.PutRune(v.s, Glyph(v.p.sets, cp)), v.k)
  }

  lemma StepLead(v: Vt, b: byte)
    requires Ok(v) && v.p.st == Ground && !IsCont(b)
    ensures Step(v, b) == Lead(WithUtf(v, v.p.utf.cp, 0), b)
  {
    hide S.Ok, Lead;
  }

  lemma StepCont(v: Vt, b: byte)
    requires Ok(v) && v.p.st == Ground && v.p.utf.need > 0 && IsCont(b)
    ensures var v1 := WithUtf(v, v.p.utf.cp * 64 + b % 64, v.p.utf.need - 1);
            Step(v, b) == if v.p.utf.need == 1 then OnScreen(v1, S.PutRune(v1.s, Glyph(v1.p.sets, v1.p.utf.cp))) else v1
  {
    hide S.Ok;
  }

  lemma RunTwo(v: Vt, a: byte, b: byte)
    requires Ok(v)
    ensures Run(v, [a, b]) == Step(Step(v, a), b)
  {
    hide Step, S.Ok, POk;
    assert [a, b][..1] == [a] && [a][..0] == [];
    assert Run(v, [a]) == Step(v, a);
  }

  lemma RunOne(v: Vt, a: byte)
    requires Ok(v)
    ensures Run(v, [a]) == Step(v, a)
  {
    assert [a][..0] == [];
  }

  lemma LeadBits(cp: nat)
    requires cp < 0x20_0000
    ensures 0x80 <= cp < 0x800 ==> (0xC0 + cp / 64) / 32 == 6 && (0xC0 + cp / 64) % 32 == cp / 64
    ensures 0x800 <= cp < 0x1_0000 ==> (0xE0 + cp / 4096) / 16 == 14 && (0xE0 + cp / 4096) % 16 == cp / 4096
    ensures 0x1_0000 <= cp ==> (0xF0 + cp / 0x4_0000) / 8 == 30 && (0xF0 + cp / 0x4_0000) % 8 == cp / 0x4_0000
  {
  }

  lemma ContBits(n: nat)
    ensures IsCont(0x80 + n % 64) && (0x80 + n % 64) % 64 == n % 64
  {
  }

  lemma Regroup(cp: nat)
    ensures cp / 64 * 64 + cp % 64 == cp
    ensures cp / 4096 * 64 + cp / 64 % 64 == cp / 64
    ensures cp / 0x4_0000 * 64 + cp / 4096 % 64 == cp / 4096
  {
    assert cp / 4096 == cp / 64 / 64;
    assert cp / 0x4_0000 == cp / 4096 / 64;
  }

  /** A continuation byte shifts six bits in, ... */
  lemma MoreBits(v: Vt, cp: nat, need: nat, b: byte)
    requires Ok(v) && v.p.st == Ground && Ok(WithUtf(v, cp, need)) && need >= 2 && IsCont(b)
    ensures Step(WithUtf(v, cp, need), b) == WithUtf(v, cp * 64 + b % 64, need - 1)
  {
    hide S.Ok, Step;
    StepCont(WithUtf(v, cp, need), b);
  }

  /** ... and prints when it is the last. */
  lemma LastBits(v: Vt, hi: nat, cp: nat, b: byte)
    requires Ok(v) && v.p.st == Ground && Ok(WithUtf(v, hi, 1)) && IsCont(b) && cp == hi * 64 + b % 64
    ensures PrintedOne(v, cp, Step(WithUtf(v, hi, 1), b))
  {
    hide S.Ok, Step;
    StepCont(WithUtf(v, hi, 1), b);
  }

  lemma PrintsOneByte(v: Vt, cp: nat)
    requires Ok(v) && v.p.st == Ground && 0x20 <= cp < 0x7f
    ensures PrintedOne(v, cp, Run(v, [cp]))
  {
    hide S.Ok;
    RunOne(v, cp);
    StepLead(v, cp);
  }

  lemma PrintsTwoBytes(v: Vt, p: nat, q: nat, a: byte, b: byte)
    requires Ok(v) && v.p.st == Ground && a / 32 == 6 && a % 32 == p && IsCont(b) && b % 64 == q
    ensures PrintedOne(v, p * 64 + q, Run(v, [a, b]))
  {
    hide S.Ok, Step, Run;
    RunTwo(v, a, b);
    StepLead(v, a);
    assert Lead(WithUtf(v, v.p.utf.cp, 0), a) == WithUtf(v, p, 1);
    LastBits(v, p, p * 64 + q, b);
  }

  lemma PrintsThreeBytes(v: Vt, p: nat, q: nat, r: nat, a: byte, b: byte, c: byte)
    requires Ok(v) && v.p.st == Ground && a / 16 == 14 && a % 16 == p
    requires IsCont(b) && b % 64 == q && IsCont(c) && c % 64 == r
    ensures PrintedOne(v, (p * 64 + q) * 64 + r, Run(v, [a] + [b, c]))
  {
    hide S.Ok, Step, Run, PrintedOne;
    StepLead(v, a);
    assert Lead(WithUtf(v, v.p.utf.cp, 0), a) == WithUtf(v, p, 2);
    RunOne(v, a);
    MoreBits(v, p, 2, b);
    TwoMore(v, WithUtf(v, p, 2), p * 64 + q, (p * 64 + q) * 64 + r, b, c);
    RunAppend(v, [a], [b, c]);
  }

  lemma TwoMore(v: Vt, m: Vt, hi: nat, cp: nat, b: byte, c: byte)
    requires Ok(v) && v.p.st == Ground && Ok(m) && Ok(WithUtf(v, hi, 1))
    requires Step(m, b) == WithUtf(v, hi, 1) && IsCont(c) && cp == hi * 64 + c % 64
    ensures PrintedOne(v, cp, Run(m, [b, c]))
  {
    hide S.Ok, POk, Step, Run, PrintedOne;
    RunTwo(m, b, c);
    LastBits(v, hi, cp, c);
  }

  lemma PrintsFourBytes(v: Vt, p: nat, q: nat, r: nat, s: nat, a: byte, b: byte, c: byte, d: byte)
    requires Ok(v) && v.p.st == Ground && a / 8 == 30 && a % 8 == p
    requires IsCont(b) && b % 64 == q && IsCont(c) && c % 64 == r && IsCont(d) && d % 64 == s
    ensures PrintedOne(v, ((p * 64 + q) * 64 + r) * 64 + s, Run(v, [a, b] + [c, d]))
  {
    hide S.Ok, Step, Run, PrintedOne;
    StepLead(v, a);
    assert Lead(WithUtf(v, v.p.utf.cp, 0), a) == WithUtf(v, p, 3);
    RunTwo(v, a, b);
    MoreBits(v, p, 3, b);
    var hi := p * 64 + q;
    MoreBits(v, hi, 2, c);
    TwoMore(v, WithUtf(v, hi, 2), hi * 64 + r, (hi * 64 + r) * 64 + s, c, d);
    RunAppend(v, [a, b], [c, d]);
  }

  /** From any ground state, even with a truncated sequence pending, the encoding of a code
      point prints it. */
  lemma ScalarPrinted(v: Vt, cp: nat)
    requires Ok(v) && v.p.st == Ground && Prints(cp)
    ensures PrintedOne(v, cp, Run(v, EncodeScalar(cp)))
  {
    hide S.Ok, POk, PrintedOne, Run;
    LeadBits(cp);
    Regroup(cp);
    ContBits(cp);
    ContBits(cp / 64);
    ContBits(cp / 4096);
    var e := EncodeScalar(cp);
    if cp < 0x80 {
      PrintsOneByte(v, cp);
    } else if cp < 0x800 {
      PrintsTwoBytes(v, cp / 64, cp % 64, e[0], e[1]);
    } else if cp < 0x1_0000 {
      PrintsThreeBytes(v, cp / 4096, cp / 64 % 64, cp % 64, e[0], e[1], e[2]);
      assert e == [e[0]] + [e[1], e[2]];
    } else {
      PrintsFourBytes(v, cp / 0x4_0000, cp / 4096 % 64, cp / 64 % 64, cp % 64, e[0], e[1], e[2], e[3]);
      assert e == [e[0], e[1]] + [e[2], e[3]];
    }
  }

  predicate AllPrint(t: Text.Str) {
    AllScalars(t) && forall i :: 0 <= i < |t| ==> Prints(t[i])
  }

  /** The screen after printing every scalar in order. */
  function Printed(s: S.Scr, sets: Charsets, t: Text.Str): (r: S.Scr)
    requires S.Ok(s)
    ensures S.Ok(r)
  {
    if t == [] then s else S.PutRune(Printed(s, sets, t[..|t| - 1]), Glyph(sets, t[|t| - 1]))
  }

  /** UTF-8 text prints its scalars, in order and nothing else, from any ground state; a
      sequence left unfinished before it is dropped. */
  lemma {:induction false} TextPrinted(v: Vt, t: Text.Str)
    requires Ok(v) && v.p.st == Ground && AllPrint(t)
    ensures var r := Run(v, Encode(t));
            && r == Vt(v.p.(utf := r.p.utf), Printed(v.s, v.p.sets, t), v.k)
            && (t != [] ==> r.p.utf.need == 0)
  {
    hide S.Ok, POk, EncodeScalar, Step;
    if t != [] {
      var init, last := t[..|t| - 1], t[|t| - 1];
      TextPrinted(v, init);
      var m := Run(v, Encode(init));
      assert Prints(last);
      ScalarPrinted(m, last);
      RunAppend(v, Encode(init), EncodeScalar(last));
    }
  }

  // ---- lossy decoding of well-formed text --------------------------------------------------

  lemma FirstOfTwo(b: Bytes, p: nat, q: nat)
    requires |b| >= 2 && 2 <= p < 32 && q < 64 && b[0] == 0xC0 + p && b[1] == 0x80 + q
    ensures FirstScalar(b) == (p * 64 + q, 2)
  {
  }

  lemma FirstOfThree(b: Bytes, p: nat, q: nat, r: nat)
    requires |b| >= 3 && p < 16 && q < 64 && r < 64 && b[0] == 0xE0 + p && b[1] == 0x80 + q && b[2] == 0x80 + r
    requires (p == 0 ==> q >= 32) && (p == 13 ==> q < 32)
    ensures FirstScalar(b) == (p * 4096 + q * 64 + r, 3)
  {
  }

  lemma FirstOfFour(b: Bytes, p: nat, q: nat, r: nat, s: nat)
    requires |b| >= 4 && p <= 4 && q < 64 && r < 64 && s < 64
    requires b[0] == 0xF0 + p && b[1] == 0x80 + q && b[2] == 0x80 + r && b[3] == 0x80 + s
    requires (p == 0 ==> q >= 16) && (p == 4 ==> q < 16)
    ensures FirstScalar(b) == (p * 0x4_0000 + q * 4096 + r * 64 + s, 4)
  {
  }

  lemma FirstOfEncoded(cp: nat, rest: Bytes)
    requires IsScalar(cp)
    ensures FirstScalar(EncodeScalar(cp) + rest) == (cp, |EncodeScalar(cp)|)
  {
    var e := EncodeScalar(cp);
    var b := e + rest;
    assert forall i :: 0 <= i < |e| ==> b[i] == e[i];
    Regroup(cp);
    if cp >= 0x1_0000 {
      FirstOfFour(b, cp / 0x4_0000, cp / 4096 % 64, cp / 64 % 64, cp % 64);
    } else if cp >= 0x800 {
      FirstOfThree(b, cp / 4096, cp / 64 % 64, cp % 64);
    } else if cp >= 0x80 {
      FirstOfTwo(b, cp / 64, cp % 64);
    }
    hide FirstScalar;
  }

  lemma {:induction false} EncodeFirst(t: Text.Str)
    requires AllScalars(t) && t != []
    ensures Encode(t) == EncodeScalar(t[0]) + Encode(t[1..])
  {
    hide EncodeScalar;
    if |t| == 1 {
      assert t[..0] == [] && t[1..] == [];
      assert Encode(t) == Encode([]) + EncodeScalar(t[0]);
      assert [] + EncodeScalar(t[0]) == EncodeScalar(t[0]) + [];
    } else {
      EncodeFirst(t[..|t| - 1]);
      var u := t[1..];
      assert u[..|u| - 1] == t[..|t| - 1][1..];
      assert Encode(u) == Encode(u[..|u| - 1]) + EncodeScalar(t[|t| - 1]);
      assert EncodeScalar(t[0]) + Encode(u) == EncodeScalar(t[0]) + Encode(u[..|u| - 1]) + EncodeScalar(t[|t| - 1]);
    }
  }

  /** Lossy decoding loses nothing of well-formed text. */
  lemma {:induction false} LossyUndoesEncode(t: Text.Str)
    requires AllScalars(t)
    ensures Lossy(Encode(t)) == t
  {
    hide EncodeScalar, FirstScalar;
    if t != [] {
      var rest := t[1..];
      EncodeFirst(t);
      FirstOfEncoded(t[0], Encode(rest));
      LossyUndoesEncode(rest);
      var e := EncodeScalar(t[0]);
      assert (e + Encode(rest))[|e|..] == Encode(rest);
      assert [t[0]] + rest == t;
    }
  }

  // ---- titles -----------------------------------------------------------------------------

  /** Text that can travel inside an OSC string: no BEL and no ESC. */
  predicate Carried(t: Text.Str) {
    AllScalars(t) && forall i :: 0 <= i < |t| ==> t[i] != BEL && t[i] != ESC
  }

  lemma ScalarCarried(cp: nat)
    requires IsScalar(cp) && cp != BEL && cp != ESC
    ensures forall i :: 0 <= i < |EncodeScalar(cp)| ==> EncodeScalar(cp)[i] != BEL && EncodeScalar(cp)[i] != ESC
  {
  }

  lemma {:induction false} TextCarried(t: Text.Str)
    requires Carried(t)
    ensures forall i :: 0 <= i < |Encode(t)| ==> Encode(t)[i] != BEL && Encode(t)[i] != ESC
  {
    hide EncodeScalar;
    if t != [] {
      TextCarried(t[..|t| - 1]);
      ScalarCarried(t[|t| - 1]);
    }
  }

  lemma {:induction false} OscCollects(v: Vt, d: Bytes)
    requires Ok(v) && v.p.st == Osc
    requires forall i :: 0 <= i < |d| ==> d[i] != BEL && d[i] != ESC
    ensures Run(v, d) == v.(p := v.p.(osc := v.p.osc + d))
  {
    hide S.Ok, POk;
    if d == [] {
      assert v.p.osc + [] == v.p.osc;
    } else {
      var init := d[..|d| - 1];
      OscCollects(v, init);
      assert v.p.osc + init + [d[|d| - 1]] == v.p.osc + d;
    }
  }

  /** OSC 2 ; text BEL. */
  function TitleRequest(title: Text.Str): Bytes
    requires AllScalars(title)
  {
    [ESC, 93, 50, 59] + Encode(title) + [BEL]
  }

  /** A title travels unchanged: the request sets the title to exactly that text, from any
      ground state, and leaves the screen alone. */
  lemma TitleArrives(v: Vt, title: Text.Str)
    requires Ok(v) && v.p.st == Ground && Carried(title)
    ensures var r := Run(v, TitleRequest(title));
            r.k == v.k.(title := Some(title)) && r.s == v.s && r.p.st == Ground && r.p.utf.need == 0
  {
    var opening: Bytes := [ESC, 93];
    EncodedHead(title);
    var payload := [50, 59] + title;
    TitleBytes(title);
    hide *;
    PayloadCollected(v, payload);
    RunAppend(v, opening + Encode(payload), [BEL]);
    var b := Run(v, opening + Encode(payload));
    RunOne(b, BEL);
    TitleDone(b, title);
  }

  lemma TitleBytes(title: Text.Str)
    requires AllScalars(title) && AllScalars([50, 59] + title) && Encode([50, 59] + title) == [50, 59] + Encode(title)
    ensures TitleRequest(title) == [ESC, 93] + Encode([50, 59] + title) + [BEL]
  {
    hide Encode;
  }

  lemma PayloadCollected(v: Vt, payload: Text.Str)
    requires Ok(v) && v.p.st == Ground && Carried(payload)
    ensures var r := Run(v, [ESC, 93] + Encode(payload));
            r.p.st == Osc && Lossy(r.p.osc) == payload && r.s == v.s && r.k == v.k
  {
    hide S.Ok, POk, EncodeScalar, Run, Lossy;
    OscOpened(v);
    TextCarried(payload);
    var a := Run(v, [ESC, 93]);
    OscCollects(a, Encode(payload));
    assert [] + Encode(payload) == Encode(payload);
    LossyUndoesEncode(payload);
    RunAppend(v, [ESC, 93], Encode(payload));
  }

  lemma EncodedHead(title: Text.Str)
    requires Carried(title)
    ensures Carried([50, 59] + title) && Encode([50, 59] + title) == [50, 59] + Encode(title)
  {
    var payload := [50, 59] + title;
    assert Carried(payload);
    EncodeFirst(payload);
    assert payload[1..] == [59] + title;
    EncodeFirst(payload[1..]);
    assert payload[1..][1..] == title;
    assert EncodeScalar(50) == [50] && EncodeScalar(59) == [59];
  }

  lemma OscOpened(v: Vt)
    requires Ok(v) && v.p.st == Ground
    ensures var r := Run(v, [ESC, 93]);
            r.p.st == Osc && r.p.osc == [] && r.s == v.s && r.k == v.k
  {
    hide S.Ok;
    EscFromGround(v);
    RunTwo(v, ESC, 93);
  }

  lemma TitleDone(v: Vt, title: Text.Str)
    requires Ok(v) && v.p.st == Osc && Lossy(v.p.osc) == [50, 59] + title
    ensures var r := Step(v, BEL);
            r.k == v.k.(title := Some(title)) && r.s == v.s && r.p.st == Ground && r.p.utf.need == 0
  {
    hide S.Ok;
    var t := [50, 59] + title;
    assert t[1..][0] == 59;
    assert Find(t, 59) == 1 by {
      assert Find(t[1..], 59) == 0;
    }
    assert t[2..] == title;
    assert v.k.respond + [] == v.k.respond;
  }

  // ---- decimal parameters --------------------------------------------------------------------

  lemma {:induction false} DecimalValue(n: nat)
    ensures Value(Decimal(n)) == n
  {
    var d := Decimal(n);
    if n < 10 {
      assert d[..0] == [];
    } else {
      DecimalValue(n / 10);
      assert d[..|d| - 1] == Decimal(n / 10);
    }
  }

  predicate AllDigits(d: Bytes) { forall i :: 0 <= i < |d| ==> IsDigit(d[i]) }

  /** Digits accumulate to their value when it fits in 32 bits. */
  lemma {:induction false} DigitsRead(v: Vt, d: Bytes)
    requires Ok(v) && v.p.st == Csi && v.p.csi.cur == 0 && !v.p.csi.curHas
    requires AllDigits(d) && d != [] && Value(d) < 0x8000_0000
    ensures Run(v, d) == WithCsi(v, v.p.csi.(cur := Value(d), curHas := true))
    decreases |d|
  {
    hide S.Ok, POk;
    var init, b := d[..|d| - 1], d[|d| - 1];
    assert IsDigit(b);
    if init == [] {
      assert d == [b];
      RunOne(v, b);
    } else {
      DigitsRead(v, init);
    }
  }

  /** Parameter values and, before each but the first, a separator (true for ':'). */
  predicate ListOk(vals: seq<nat>, colons: seq<bool>) {
    |vals| == |colons| >= 1 && !colons[0] && forall i :: 0 <= i < |vals| ==> vals[i] < 0x8000_0000
  }

  function Separator(colon: bool): byte { if colon then 58 else 59 }

  function Rendered(vals: seq<nat>, colons: seq<bool>): Bytes
    requires |vals| == |colons| >= 1
  {
    if |vals| == 1 then Decimal(vals[0])
    else
      var n := |vals| - 1;
      Rendered(vals[..n], colons[..n]) + [Separator(colons[n])] + Decimal(vals[n])
  }

  lemma OneParam(v: Vt, n: nat)
    requires Ok(v) && v.p.st == Csi && v.p.csi.cur == 0 && !v.p.csi.curHas && n < 0x8000_0000
    ensures Run(v, Decimal(n)) == WithCsi(v, v.p.csi.(cur := n, curHas := true))
  {
    hide S.Ok, POk;
    DecimalValue(n);
    DigitsRead(v, Decimal(n));
  }

  lemma SeparatorRead(v: Vt, colon: bool)
    requires Ok(v) && v.p.st == Csi
    ensures Run(v, [Separator(colon)]) == WithCsi(v, Flushed(v.p.csi, colon))
  {
    hide S.Ok;
    RunOne(v, Separator(colon));
  }

  /** What the parser holds after reading a rendered list: flushing gives the list back. */
  predicate Holds(c: Params, vals: seq<nat>, colons: seq<bool>)
    requires |vals| == |colons| >= 1
  {
    var n := |vals| - 1;
    c == NO_PARAMS.(vals := vals[..n], colons := colons[..n], pendingColon := colons[n], cur := vals[n], curHas := true,
                    priv := c.priv)
  }

  lemma HoldsOneMore(c: Params, vals: seq<nat>, colons: seq<bool>)
    requires |vals| == |colons| >= 2 && Holds(c, vals[..|vals| - 1], colons[..|vals| - 1])
    ensures var n := |vals| - 1;
            var d := Flushed(c, colons[n]);
            d.cur == 0 && !d.curHas && d.priv == c.priv && Holds(d.(cur := vals[n], curHas := true), vals, colons)
  {
    var n := |vals| - 1;
    var vals', colons' := vals[..n], colons[..n];
    assert vals'[..n - 1] + [vals'[n - 1]] == vals[..n];
    assert colons'[..n - 1] + [colons'[n - 1]] == colons[..n];
  }

  /** One more separator and value on top of a list already read. */
  lemma OneMoreRead(a: Vt, vals: seq<nat>, colons: seq<bool>)
    requires Ok(a) && a.p.st == Csi && ListOk(vals, colons) && |vals| >= 2
    requires Holds(a.p.csi, vals[..|vals| - 1], colons[..|vals| - 1])
    ensures var n := |vals| - 1;
            var r := Run(a, [Separator(colons[n])] + Decimal(vals[n]));
            r == WithCsi(a, r.p.csi) && Holds(r.p.csi, vals, colons) && r.p.csi.priv == a.p.csi.priv
  {
    hide S.Ok, POk, Decimal, Step, Run, Flushed, Holds;
    var n := |vals| - 1;
    HoldsOneMore(a.p.csi, vals, colons);
    SeparatorRead(a, colons[n]);
    OneParam(Run(a, [Separator(colons[n])]), vals[n]);
    RunAppend(a, [Separator(colons[n])], Decimal(vals[n]));
  }

  lemma {:induction false} ListRead(v: Vt, vals: seq<nat>, colons: seq<bool>)
    requires Ok(v) && v.p.st == Csi && v.p.csi == NO_PARAMS.(priv := v.p.csi.priv) && ListOk(vals, colons)
    ensures var r := Run(v, Rendered(vals, colons));
            r == WithCsi(v, r.p.csi) && Holds(r.p.csi, vals, colons) && r.p.csi.priv == v.p.csi.priv
    decreases |vals|
  {
    var n := |vals| - 1;
    if n == 0 {
      hide S.Ok, POk, Decimal, Step, Run;
      OneParam(v, vals[0]);
      assert vals[..0] == [] && colons[..0] == [];
    } else {
      hide S.Ok, POk, Decimal, Step, Run, Holds;
      var vals', colons' := vals[..n], colons[..n];
      ListRead(v, vals', colons');
      OneMoreRead(Run(v, Rendered(vals', colons')), vals, colons);
      RunAppend(v, Rendered(vals', colons'), [Separator(colons[n])] + Decimal(vals[n]));
      assert Rendered(vals, colons) == Rendered(vals', colons') + ([Separator(colons[n])] + Decimal(vals[n]));
    }
  }

  lemma CsiOpened(v: Vt)
    requires Ok(v) && v.p.st == Ground
    ensures var r := Run(v, [ESC, 91]);
            && r.p.st == Csi && r.p.csi == NO_PARAMS && r.p.utf.need == 0 && r.p.sets == v.p.sets
            && r.s == v.s && r.k == v.k
  {
    hide S.Ok;
    EscFromGround(v);
    RunTwo(v, ESC, 91);
  }

  /** Parameters survive print and parse: CSI, the decimal rendering of any list of 32-bit
      values with ';' and ':' between them, and a final byte dispatch with exactly that list
      and its colon flags. */
  lemma ParamsArrive(v: Vt, vals: seq<nat>, colons: seq<bool>, f: byte)
    requires Ok(v) && v.p.st == Ground && ListOk(vals, colons) && 0x40 <= f <= 0x7e
    ensures var c := NO_PARAMS.(vals := vals, colons := colons);
            var r := Run(v, [ESC, 91] + Rendered(vals, colons) + [f]);
            CsiOk(c) && r.s == Dispatch(c, v.s, f).0 && r.k == Reply(v.k, Dispatch(c, v.s, f).1) && r.p.st == Ground
  {
    hide S.Ok, POk, Dispatch, Rendered;
    CsiOpened(v);
    var a := Run(v, [ESC, 91]);
    ListRead(a, vals, colons);
    var b := Run(a, Rendered(vals, colons));
    FinalByte(b, vals, colons, f);
    RunAppend(v, [ESC, 91], Rendered(vals, colons));
    RunAppend(v, [ESC, 91] + Rendered(vals, colons), [f]);
    RunOne(b, f);
  }

  lemma FinalByte(v: Vt, vals: seq<nat>, colons: seq<bool>, f: byte)
    requires Ok(v) && v.p.st == Csi && ListOk(vals, colons) && Holds(v.p.csi, vals, colons) && 0x40 <= f <= 0x7e
    ensures var c := NO_PARAMS.(vals := vals, colons := colons, priv := v.p.csi.priv);
            var r := Step(v, f);
            && CsiOk(c) && r.s == Dispatch(c, v.s, f).0 && r.k == Reply(v.k, Dispatch(c, v.s, f).1)
            && r.p.st == Ground && r.p.sets == v.p.sets
  {
    hide S.Ok, Dispatch;
    var n := |vals| - 1;
    assert vals[..n] + [vals[n]] == vals;
    assert colons[..n] + [colons[n]] == colons;
    var c := Flushed(v.p.csi, false);
    assert c == NO_PARAMS.(vals := vals, colons := colons, priv := v.p.csi.priv);
  }

  /** What marks a sequence private: one of < = > ?. */
  predicate Marker(m: byte) { 60 <= m <= 63 }

  lemma MarkerRead(v: Vt, m: byte)
    requires Ok(v) && v.p.st == Csi && v.p.csi == NO_PARAMS && Marker(m)
    ensures Run(v, [m]) == WithCsi(v, NO_PARAMS.(priv := m))
  {
    hide S.Ok;
    RunOne(v, m);
  }

  /** The same behind a marker. */
  lemma PrivateArrive(v: Vt, m: byte, vals: seq<nat>, colons: seq<bool>, f: byte)
    requires Ok(v) && v.p.st == Ground && ListOk(vals, colons) && 0x40 <= f <= 0x7e && Marker(m)
    ensures var c := NO_PARAMS.(vals := vals, colons := colons, priv := m);
            var r := Run(v, [ESC, 91, m] + Rendered(vals, colons) + [f]);
            CsiOk(c) && r.s == Dispatch(c, v.s, f).0 && r.k == Reply(v.k, Dispatch(c, v.s, f).1) && r.p.st == Ground
  {
    hide S.Ok, POk, Dispatch, Rendered;
    CsiOpened(v);
    var a := Run(v, [ESC, 91]);
    MarkerRead(a, m);
    var b0 := Run(a, [m]);
    ListRead(b0, vals, colons);
    var b := Run(b0, Rendered(vals, colons));
    FinalByte(b, vals, colons, f);
    RunAppend(v, [ESC, 91], [m]);
    assert [ESC, 91] + [m] == [ESC, 91, m];
    RunAppend(v, [ESC, 91, m], Rendered(vals, colons));
    RunAppend(v, [ESC, 91, m] + Rendered(vals, colons), [f]);
    RunOne(b, f);
  }

  /** Without parameters a sequence dispatches as with a single 0. */
  lemma NoneArrive(v: Vt, f: byte)
    requires Ok(v) && v.p.st == Ground && 0x40 <= f <= 0x7e
    ensures var c := NO_PARAMS.(vals := [0], colons := [false]);
            var r := Run(v, [ESC, 91, f]);
            CsiOk(c) && r.s == Dispatch(c, v.s, f).0 && r.k == Reply(v.k, Dispatch(c, v.s, f).1) && r.p.st == Ground
  {
    hide S.Ok, POk, Dispatch;
    CsiOpened(v);
    var a := Run(v, [ESC, 91]);
    RunAppend(v, [ESC, 91], [f]);
    assert [ESC, 91] + [f] == [ESC, 91, f];
    RunOne(a, f);
    EmptyFinal(a, f);
  }

  lemma EmptyFinal(v: Vt, f: byte)
    requires Ok(v) && v.p.st == Csi && v.p.csi == NO_PARAMS && 0x40 <= f <= 0x7e
    ensures var c := NO_PARAMS.(vals := [0], colons := [false]);
            var r := Step(v, f);
            CsiOk(c) && r.s == Dispatch(c, v.s, f).0 && r.k == Reply(v.k, Dispatch(c, v.s, f).1) && r.p.st == Ground
  {
    hide S.Ok, Dispatch;
    assert Flushed(NO_PARAMS, false) == NO_PARAMS.(vals := [0], colons := [false]);
  }

  // ---- cursor reports ---------------------------------------------------------------------

  /** A cursor report with its final byte replaced by H: the same numbers as a CUP request. */
  function AsRequest(y: nat, x: nat): Bytes {
    var r := CursorReport(y, x);
    r[..|r| - 1] + [72]
  }

  /** The numbers of a cursor report, sent back as a request, put the cursor on the reported
      cell exactly when origin mode is off, or the region begins at the top and covers the row,
      or the row is the region's last. */
  lemma ReportRestoresCursor(v: Vt, y: nat, x: nat)
    requires Ok(v) && v.p.st == Ground && y < v.s.rows && x < v.s.cols
    ensures var r := Run(v, AsRequest(y, x)).s;
            && r == S.MoveTo(v.s, x, r.cur.y)
            && (r.cur.y == y <==> !v.s.modes.origin || (v.s.reg.top == 0 && y <= v.s.reg.bot) || y == v.s.reg.bot)
  {
    RequestMoves(v.s, y, x);
    RequestBytes(y, x);
    assert v.s.rows <= S.MAX_DIM && v.s.cols <= S.MAX_DIM;
    hide Run, S.Ok, AsRequest, S.CursorTo, Dispatch, Rendered;
    ParamsArrive(v, [y + 1, x + 1], [false, false], 72);
  }

  lemma RequestBytes(y: nat, x: nat)
    ensures AsRequest(y, x) == [ESC, 91] + Rendered([y + 1, x + 1], [false, false]) + [72]
  {
    var vals := [y + 1, x + 1];
    assert vals[..1] == [y + 1] && [false, false][..1] == [false];
    hide Decimal;
    assert Rendered([y + 1], [false]) == Decimal(y + 1);
    assert Rendered(vals, [false, false]) == Decimal(y + 1) + [59] + Decimal(x + 1);
    var rep := CursorReport(y, x);
    assert rep[..|rep| - 1] == [ESC, 91] + (Decimal(y + 1) + [59] + Decimal(x + 1));
  }

  lemma RequestMoves(s: S.Scr, y: nat, x: nat)
    requires S.Ok(s) && y < s.rows && x < s.cols
    ensures var c := NO_PARAMS.(vals := [y + 1, x + 1], colons := [false, false]);
            var r := Dispatch(c, s, 72).0;
            && r == S.MoveTo(s, x, r.cur.y)
            && (r.cur.y == y <==> !s.modes.origin || (s.reg.top == 0 && y <= s.reg.bot) || y == s.reg.bot)
  {
    var c := NO_PARAMS.(vals := [y + 1, x + 1], colons := [false, false]);
    assert Dispatch(c, s, 72).0 == S.CursorTo(s, y, x);
  }
}
