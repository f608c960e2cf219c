/** Where printed text lands: on a fresh screen, printing and line breaks lay lines out one
    below the other through deferred wrap, scrolling and history; extraction reads them back. */
module Typing {
  import opened Cells
  import opened Text
  import opened ScreenModel
  import M = ParserModel

  predicate IsPrintable(t: Bytes) { forall i :: 0 <= i < |t| ==> 0x20 <= t[i] < 0x7f }

  function Glyph(b: byte): Cell { Cell(b, DEFAULT_PEN, 1, 0) }

  /** A row that shows `line` and is blank after it. */
  function Padded(line: Bytes, cols: nat): (row: Line)
    requires |line| <= cols
    ensures |row| == cols
    ensures forall c :: 0 <= c < cols ==> row[c] == if c < |line| then Glyph(line[c]) else PLAIN_BLANK
  {
    seq(cols, c requires 0 <= c < cols => if c < |line| then Glyph(line[c]) else PLAIN_BLANK)
  }

  /** Every line ever on the primary screen, by its global number: first the log, then the grid. */
  function Global(s: Scr): Grid { s.hist.log + s.bufs.primary }

  predicate LinesOk(lines: seq<Bytes>, cols: nat) {
    |lines| >= 1 && forall k :: 0 <= k < |lines| ==> |lines[k]| <= cols && IsPrintable(lines[k])
  }

  /** The screen shows exactly `lines`, one per global line, and the cursor sits after the last
      character of the last one, with the wrap pending when that line is full. */
  predicate Typed(s: Scr, lines: seq<Bytes>) {
    && Ok(s) && LinesOk(lines, s.cols)
    && !s.bufs.inAlt && s.reg == Region(0, s.rows - 1) && s.modes == DEFAULT_MODES && s.pen == DEFAULT_PEN
    && s.hist.since == |s.hist.log|
    && |s.hist.log| + s.cur.y == |lines| - 1
    && (s.hist.log != [] ==> s.cur.y == s.rows - 1)
    && s.cur.x == Min(|Last(lines)|, s.cols - 1) && s.cur.wrap == (|Last(lines)| == s.cols)
    && Shows(Global(s), lines, s.cols)
  }

  function Last(lines: seq<Bytes>): Bytes
    requires lines != []
  {
    lines[|lines| - 1]
  }

  predicate Shows(g: Grid, lines: seq<Bytes>, cols: nat)
    requires LinesOk(lines, cols)
  {
    forall k :: 0 <= k < |g| ==> g[k] == Padded(if k < |lines| then lines[k] else [], cols)
  }

  /** What can be used of `Typed` without looking at the rows. */
  lemma Facts(s: Scr, lines: seq<Bytes>)
    requires Typed(s, lines)
    ensures Ok(s) && 1 <= s.cols && |lines| >= 1 && LinesOk(lines, s.cols) && !s.bufs.inAlt
    ensures s.cur.wrap == (|Last(lines)| == s.cols)
    ensures s.hist.since == |s.hist.log| && |lines| <= |Global(s)| == |s.hist.log| + s.rows
    ensures |s.hist.log| == Max(|lines| - s.rows, 0)
  {
  }

  // ---- single steps -----------------------------------------------------------------------

  lemma FreshTyped(cols: nat, rows: nat, cap: nat)
    requires 1 <= cols <= MAX_DIM && 1 <= rows <= MAX_DIM
    ensures Typed(Fresh(cols, rows, cap), [[]]) && Fresh(cols, rows, cap).hist.cap == Max(cap, 1)
    ensures Fresh(cols, rows, cap).cols == cols && Fresh(cols, rows, cap).rows == rows
  {
    var s := Fresh(cols, rows, cap);
    forall k | 0 <= k < rows ensures s.bufs.primary[k] == Padded([], cols) {
      assert s.bufs.primary[k] == RebuildLine([], 0, cols, k);
    }
  }

  /** A line feed opens one more global line, scrolling a row into the log if need be. */
  lemma LineFeed(s: Scr, lines: seq<Bytes>)
    requires Typed(s, lines)
    ensures var r := NextLine(s);
            Typed(r, lines + [[]]) && !r.cur.wrap
            && r.cols == s.cols && r.rows == s.rows && r.hist.cap == s.hist.cap
  {
    var m := MoveTo(s, 0, s.cur.y);
    var r := NextLine(s);
    if s.cur.y == s.rows - 1 {
      ScrolledGlobal(m);
      assert Global(r) == Global(s) + [BlankLine(s)];
    } else {
      assert Global(r) == Global(s);
    }
    hide ScrollUp;
    assert BlankLine(s) == Padded([], s.cols);
    MoreBlank(Global(s), Global(r), lines, s.cols);
    assert Last(lines + [[]]) == [];
  }

  /** An empty line more: the same rows, and possibly one more blank row, show it. */
  lemma MoreBlank(g: Grid, r: Grid, lines: seq<Bytes>, cols: nat)
    requires LinesOk(lines, cols) && Shows(g, lines, cols)
    requires |lines| <= |g| && (r == g || r == g + [Padded([], cols)])
    ensures LinesOk(lines + [[]], cols) && Shows(r, lines + [[]], cols)
  {
    var more := lines + [[]];
    assert LinesOk(more, cols);
    forall k | 0 <= k < |r| ensures r[k] == Padded(if k < |more| then more[k] else [], cols) {
      if k < |g| {
        assert g[k] == Padded(if k < |lines| then lines[k] else [], cols);
      }
    }
  }

  lemma ScrolledGlobal(s: Scr)
    requires Ok(s) && !s.bufs.inAlt && s.reg == Region(0, s.rows - 1)
    ensures Global(ScrollUp(s, 1)) == Global(s) + [BlankLine(s)]
    ensures |ScrollUp(s, 1).hist.log| == |s.hist.log| + 1
  {
    var r := ScrollUp(s, 1);
    assert r.hist.log == s.hist.log + [s.bufs.primary[0]];
    assert r.bufs.primary == s.bufs.primary[1..] + [BlankLine(s)];
  }

  /** Printing one ASCII character where no wrap is pending writes one cell. */
  lemma PutAscii(s: Scr, b: byte)
    requires Ok(s) && 0x20 <= b < 0x7f && !s.bufs.inAlt && !s.cur.wrap
    requires s.modes == DEFAULT_MODES && s.pen == DEFAULT_PEN
    ensures var p := s.bufs.primary;
            var (x, y) := (s.cur.x, s.cur.y);
            PutRune(s, b) == s.(bufs := s.bufs.(primary := p[y := p[y][x := Glyph(b)]]), base := Base(x, y),
                                cur := Cursor(Min(x + 1, s.cols - 1), y, x + 1 == s.cols))
  {
  }

  /** A character that fits joins the last line. */
  lemma TypeInRow(s: Scr, lines: seq<Bytes>, b: byte)
    requires Typed(s, lines) && 0x20 <= b < 0x7f && |Last(lines)| < s.cols
    ensures var r := PutRune(s, b);
            Typed(r, lines[|lines| - 1 := Last(lines) + [b]])
            && r.cols == s.cols && r.rows == s.rows && r.hist == s.hist
  {
    PutAscii(s, b);
    var r := PutRune(s, b);
    hide PutRune;
    var n := |lines| - 1;
    var longer := Last(lines) + [b];
    var lines' := lines[n := longer];
    assert Last(lines') == longer;
    var p, y := s.bufs.primary, s.cur.y;
    PutInRow(Global(s), lines, s.cols, n, b);
    assert p[y] == Global(s)[n];
    assert Global(r) == Global(s)[n := Global(s)[n][s.cur.x := Glyph(b)]];
  }

  lemma PutInRow(g: Grid, lines: seq<Bytes>, cols: nat, n: nat, b: byte)
    requires LinesOk(lines, cols) && Shows(g, lines, cols) && n < |lines| <= |g|
    requires |lines[n]| < cols && 0x20 <= b < 0x7f
    ensures |g[n]| == cols
    ensures var lines' := lines[n := lines[n] + [b]];
            LinesOk(lines', cols) && Shows(g[n := g[n][|lines[n]| := Glyph(b)]], lines', cols)
  {
    var lines' := lines[n := lines[n] + [b]];
    assert LinesOk(lines', cols);
    assert g[n] == Padded(lines[n], cols);
    assert g[n][|lines[n]| := Glyph(b)] == Padded(lines'[n], cols);
  }

  /** A character after a full line wraps: it starts the next one. */
  lemma TypeWrapped(s: Scr, lines: seq<Bytes>, b: byte)
    requires Ok(s) && Typed(s, lines) && |lines| >= 1 && 0x20 <= b < 0x7f && |Last(lines)| == s.cols
    ensures var r := PutRune(s, b);
            Typed(r, lines + [[b]]) && r.cols == s.cols && r.rows == s.rows && r.hist.cap == s.hist.cap
  {
    hide NextLine, PutRune, Typed, Ok;
    Facts(s, lines);
    LineFeed(s, lines);
    WrapFirst(s, b);
    var m := NextLine(s);
    assert Last(lines + [[]]) == [];
    TypeInRow(m, lines + [[]], b);
    assert Last(lines + [[]]) + [b] == [b];
    assert (lines + [[]])[|lines| := [b]] == lines + [[b]];
  }

  lemma WrapIsNextLine(s: Scr)
    requires Ok(s) && s.cur.wrap
    ensures Wrapped(s) == NextLine(s)
  {
    hide Index;
  }

  lemma WrapFirst(s: Scr, b: byte)
    requires Ok(s) && 0x20 <= b < 0x7f && s.cur.wrap && !NextLine(s).cur.wrap
    ensures PutRune(s, b) == PutRune(NextLine(s), b)
  {
    hide NextLine, Index, Place;
    assert Wrapped(s) == NextLine(s) by {
      WrapIsNextLine(s);
    }
  }

  // ---- through the parser -----------------------------------------------------------------

  /** The machine between printable bytes. */
  predicate Sitting(v: M.Vt, lines: seq<Bytes>) {
    v.p == M.START && Typed(v.s, lines)
  }

  lemma SittingOk(v: M.Vt, lines: seq<Bytes>)
    requires Sitting(v, lines)
    ensures M.Ok(v)
  {
  }

  predicate SameFrame(s: Scr, r: Scr) {
    r.cols == s.cols && r.rows == s.rows && r.hist.cap == s.hist.cap
  }

  /** What `lines` becomes when a printable byte is typed. */
  function Type(lines: seq<Bytes>, cols: nat, b: byte): seq<Bytes>
    requires lines != []
  {
    if |Last(lines)| < cols then lines[|lines| - 1 := Last(lines) + [b]] else lines + [[b]]
  }

  lemma TypeByte(v: M.Vt, lines: seq<Bytes>, b: byte)
    requires Sitting(v, lines) && 0x20 <= b < 0x7f
    ensures var r := M.Step(v, b);
            Sitting(r, Type(lines, v.s.cols, b)) && SameFrame(v.s, r.s) && r.k == v.k
  {
    assert M.Step(v, b) == M.Print(v, b) by {
      assert M.WithUtf(v, v.p.utf.cp, 0) == v;
    }
    if |Last(lines)| < v.s.cols {
      TypeInRow(v.s, lines, b);
    } else {
      TypeWrapped(v.s, lines, b);
    }
  }

  lemma TypeBreak(v: M.Vt, lines: seq<Bytes>)
    requires Sitting(v, lines)
    ensures var r := M.Run(v, [13, 10]);
            Sitting(r, lines + [[]]) && SameFrame(v.s, r.s) && r.k == v.k
  {
    var a := M.Step(v, 13);
    assert M.WithUtf(v, v.p.utf.cp, 0) == v;
    assert a == M.OnScreen(v, CarriageReturn(v.s));
    assert M.WithUtf(a, a.p.utf.cp, 0) == a;
    var r := M.Step(a, 10);
    assert r == M.OnScreen(a, Index(a.s));
    assert [13, 10][..1] == [13] && [13][..0] == [];
    assert M.Run(v, [13]) == a;
    assert M.Run(v, [13, 10]) == r;
    LineFeed(v.s, lines);
  }

  function TypeAll(lines: seq<Bytes>, cols: nat, t: Bytes): (r: seq<Bytes>)
    requires lines != []
    ensures r != []
  {
    if t == [] then lines else Type(TypeAll(lines, cols, t[..|t| - 1]), cols, t[|t| - 1])
  }

  lemma {:induction false} TypeRun(v: M.Vt, lines: seq<Bytes>, t: Bytes)
    requires Sitting(v, lines) && IsPrintable(t)
    ensures var r := M.Run(v, t);
            Sitting(r, TypeAll(lines, v.s.cols, t)) && SameFrame(v.s, r.s) && r.k == v.k
  {
    if t != [] {
      SittingOk(v, lines);
      hide Typed, M.Step, M.POk, Ok;
      var init := t[..|t| - 1];
      TypeRun(v, lines, init);
      TypeByte(M.Run(v, init), TypeAll(lines, v.s.cols, init), t[|t| - 1]);
    }
  }

  // ---- automatic wrap is row-major -----------------------------------------------------------

  lemma Locate(k: nat, c: nat, cols: nat, i: nat)
    requires c < cols && i == k * cols + c
    ensures i / cols == k && i % cols == c
  {
    var q: int := i / cols - k;
    assert cols * q == c - i % cols;
    Multiple(cols, q);
  }

  lemma Multiple(d: int, q: int)
    requires d > 0
    ensures q >= 1 ==> d * q >= d
    ensures q <= -1 ==> d * q <= 0 - d
  {
  }

  /** Text typed on an empty line is cut every `cols` characters. */
  lemma {:induction false} WrapsEvery(cols: nat, t: Bytes)
    requires cols >= 1
    ensures var lines := TypeAll([[]], cols, t);
            && (forall k :: 0 <= k < |lines| - 1 ==> |lines[k]| == cols)
            && |Last(lines)| <= cols && (t != [] ==> |Last(lines)| >= 1)
            && |t| == (|lines| - 1) * cols + |Last(lines)|
  {
    if t == [] {
      assert TypeAll([[]], cols, t) == [[]];
    } else {
      WrapsEvery(cols, t[..|t| - 1]);
      var init := TypeAll([[]], cols, t[..|t| - 1]);
      if |Last(init)| == cols {
        assert (|init| - 1) * cols + cols == |init| * cols;
      }
    }
  }

  /** Character i of the text is at line i / cols, column i % cols. */
  lemma {:induction false} WrapsInOrder(cols: nat, t: Bytes, i: nat)
    requires cols >= 1 && i < |t|
    ensures var lines := TypeAll([[]], cols, t);
            i / cols < |lines| && i % cols < |lines[i / cols]| && lines[i / cols][i % cols] == t[i]
  {
    var init := t[..|t| - 1];
    var before := TypeAll([[]], cols, init);
    if i == |t| - 1 {
      LastTyped(cols, t);
    } else {
      WrapsInOrder(cols, init, i);
      var k, c := i / cols, i % cols;
      hide TypeAll;
      KeepsTyped(before, cols, t[|t| - 1], k, c);
      assert TypeAll([[]], cols, t) == Type(before, cols, t[|t| - 1]) by {
        TypeAllNext(cols, t);
      }
    }
  }

  lemma TypeAllNext(cols: nat, t: Bytes)
    requires t != []
    ensures TypeAll([[]], cols, t) == Type(TypeAll([[]], cols, t[..|t| - 1]), cols, t[|t| - 1])
  {
  }

  lemma KeepsTyped(lines: seq<Bytes>, cols: nat, b: byte, k: nat, c: nat)
    requires k < |lines| && c < |lines[k]|
    ensures var r := Type(lines, cols, b); k < |r| && c < |r[k]| && r[k][c] == lines[k][c]
  {
  }

  lemma LastTyped(cols: nat, t: Bytes)
    requires cols >= 1 && t != []
    ensures var lines := TypeAll([[]], cols, t);
            var i := |t| - 1;
            i / cols < |lines| && i % cols < |lines[i / cols]| && lines[i / cols][i % cols] == t[i]
  {
    WrapsEvery(cols, t);
    var lines := TypeAll([[]], cols, t);
    Locate(|lines| - 1, |Last(lines)| - 1, cols, |t| - 1);
    TypeAllNext(cols, t);
    hide TypeAll;
    EndsTyped(TypeAll([[]], cols, t[..|t| - 1]), cols, t[|t| - 1]);
  }

  lemma EndsTyped(lines: seq<Bytes>, cols: nat, b: byte)
    requires lines != []
    ensures var r := Type(lines, cols, b); Last(r) != [] && Last(r)[|Last(r)| - 1] == b
  {
  }

  /** Rows a text of n characters takes. */
  function RowsFor(n: nat, cols: nat): nat
    requires cols >= 1
  {
    (n + cols - 1) / cols
  }

  lemma RowCount(cols: nat, t: Bytes)
    requires cols >= 1 && t != []
    ensures |TypeAll([[]], cols, t)| == RowsFor(|t|, cols)
  {
    WrapsEvery(cols, t);
    var lines := TypeAll([[]], cols, t);
    Locate(|lines| - 1, |Last(lines)| - 1, cols, |t| - 1);
    Locate(|lines|, |Last(lines)| - 1, cols, |t| - 1 + cols);
  }

  function RowOf(i: nat, cols: nat): nat
    requires cols >= 1
  {
    i / cols
  }

  function ColOf(i: nat, cols: nat): (c: nat)
    requires cols >= 1
    ensures c < cols
  {
    i % cols
  }

  /** Character i at row i / cols, column i % cols, ... */
  ghost predicate InPlace(g: Grid, cols: nat, t: Bytes)
    requires cols >= 1 && (forall k :: 0 <= k < |g| ==> |g[k]| == cols)
  {
    forall i :: 0 <= i < |t| ==> RowOf(i, cols) < |g| && g[RowOf(i, cols)][ColOf(i, cols)] == Glyph(t[i])
  }

  /** ... and nothing else. */
  ghost predicate BlankFrom(g: Grid, cols: nat, n: nat)
    requires forall k :: 0 <= k < |g| ==> |g[k]| == cols
  {
    forall k, c :: 0 <= k < |g| && 0 <= c < cols && k * cols + c >= n ==> g[k][c] == PLAIN_BLANK
  }

  ghost predicate RowMajor(g: Grid, cols: nat, t: Bytes)
    requires cols >= 1
  {
    (forall k :: 0 <= k < |g| ==> |g[k]| == cols) && InPlace(g, cols, t) && BlankFrom(g, cols, |t|)
  }

  lemma CellShown(g: Grid, lines: seq<Bytes>, cols: nat, k: nat, c: nat)
    requires LinesOk(lines, cols) && Shows(g, lines, cols) && |lines| <= |g| && k < |lines| && c < |lines[k]|
    ensures |g[k]| == cols && c < cols && g[k][c] == Glyph(lines[k][c])
  {
    assert g[k] == Padded(lines[k], cols);
  }

  lemma GlyphShown(g: Grid, cols: nat, t: Bytes, i: nat)
    requires cols >= 1 && i < |t|
    requires var lines := TypeAll([[]], cols, t); LinesOk(lines, cols) && Shows(g, lines, cols) && |lines| <= |g|
    ensures var (k, c) := (RowOf(i, cols), ColOf(i, cols)); k < |g| && c < |g[k]| && g[k][c] == Glyph(t[i])
  {
    hide TypeAll, LinesOk, Shows;
    WrapsInOrder(cols, t, i);
    CellShown(g, TypeAll([[]], cols, t), cols, i / cols, i % cols);
  }

  lemma BlankShown(g: Grid, cols: nat, t: Bytes, k: nat, c: nat)
    requires cols >= 1 && IsPrintable(t) && k < |g| && c < cols && k * cols + c >= |t|
    requires var lines := TypeAll([[]], cols, t); LinesOk(lines, cols) && Shows(g, lines, cols) && |lines| <= |g|
    ensures g[k][c] == PLAIN_BLANK
  {
    hide TypeAll;
    var lines := TypeAll([[]], cols, t);
    WrapsEvery(cols, t);
    assert g[k] == Padded(if k < |lines| then lines[k] else [], cols);
    if k < |lines| {
      BlankAfter(cols, lines, |t|, k, c);
    }
  }

  lemma AllBlankShown(g: Grid, cols: nat, t: Bytes)
    requires cols >= 1 && IsPrintable(t) && (forall k :: 0 <= k < |g| ==> |g[k]| == cols)
    requires var lines := TypeAll([[]], cols, t); LinesOk(lines, cols) && Shows(g, lines, cols) && |lines| <= |g|
    ensures BlankFrom(g, cols, |t|)
  {
    hide TypeAll, LinesOk, Shows;
    forall k, c | 0 <= k < |g| && 0 <= c < cols && k * cols + c >= |t| ensures g[k][c] == PLAIN_BLANK {
      BlankShown(g, cols, t, k, c);
    }
  }

  lemma ShownRowMajor(g: Grid, cols: nat, t: Bytes)
    requires cols >= 1 && IsPrintable(t)
    requires var lines := TypeAll([[]], cols, t); LinesOk(lines, cols) && Shows(g, lines, cols) && |lines| <= |g|
    ensures RowMajor(g, cols, t)
  {
    assert forall k :: 0 <= k < |g| ==> |g[k]| == cols;
    hide TypeAll, LinesOk, Shows, BlankFrom, RowOf;
    AllBlankShown(g, cols, t);
    forall i | 0 <= i < |t|
      ensures RowOf(i, cols) < |g| && g[RowOf(i, cols)][ColOf(i, cols)] == Glyph(t[i])
    {
      GlyphShown(g, cols, t, i);
    }
  }

  /** Printing N printable characters on a fresh terminal lays them out row by row with nothing
      lost: character i is at global line i / cols and column i % cols, every other cell is
      blank, and exactly the rows that no longer fit are in history. */
  lemma AutoWrap(cols: nat, rows: nat, cap: nat, t: Bytes)
    requires 1 <= cols <= MAX_DIM && 1 <= rows <= MAX_DIM && IsPrintable(t)
    ensures var s := M.Feed(M.FreshTerm(cols, rows, cap), t).s;
            && s.cols == cols && s.rows == rows
            && RowMajor(Global(s), cols, t)
            && |s.hist.log| == Max(RowsFor(|t|, cols) - rows, 0)
            && Kept(s) == Min(Max(cap, 1), |s.hist.log|)
  {
    var v := M.Vt(M.START, Fresh(cols, rows, cap), M.EMPTY);
    FreshTyped(cols, rows, cap);
    TypeRun(v, [[]], t);
    var s := M.Run(v, t).s;
    hide M.Run, TypeAll, RowMajor;
    ShownRowMajor(Global(s), cols, t);
    if t != [] {
      RowCount(cols, t);
    } else {
      NothingTyped(cols);
    }
  }

  lemma NothingTyped(cols: nat)
    requires cols >= 1
    ensures |TypeAll([[]], cols, [])| == 1 && RowsFor(0, cols) == 0
  {
    Locate(0, cols - 1, cols, cols - 1);
  }

  lemma {:induction false} RowBefore(k: nat, m: nat, cols: nat, c: nat)
    requires k < m && c < cols
    ensures k * cols + c < m * cols
    decreases m
  {
    assert m * cols == (m - 1) * cols + cols;
    if k < m - 1 { RowBefore(k, m - 1, cols, c); }
  }

  lemma BlankAfter(cols: nat, lines: seq<Bytes>, n: nat, k: nat, c: nat)
    requires lines != [] && n == (|lines| - 1) * cols + |Last(lines)|
    requires k < |lines| && c < cols && k * cols + c >= n
    ensures c >= |lines[k]|
  {
    if k < |lines| - 1 { RowBefore(k, |lines| - 1, cols, c); }
  }

  // ---- extraction undoes printing ----------------------------------------------------------

  /** The lines joined by CR LF. */
  function Joined(lines: seq<Bytes>): Bytes
    requires lines != []
  {
    if |lines| == 1 then lines[0] else Joined(lines[..|lines| - 1]) + [13, 10] + lines[|lines| - 1]
  }

  /** A line short enough to fit joins an empty last line whole. */
  lemma {:induction false} FitsInRow(lines: seq<Bytes>, cols: nat, t: Bytes)
    requires lines != [] && Last(lines) == [] && |t| <= cols
    ensures TypeAll(lines, cols, t) == lines[|lines| - 1 := t]
  {
    if t != [] {
      FitsInRow(lines, cols, t[..|t| - 1]);
      assert t[..|t| - 1] + [t[|t| - 1]] == t;
    }
  }

  lemma TypeNextLine(v: M.Vt, lines: seq<Bytes>, last: Bytes)
    requires M.Ok(v) && Sitting(v, lines) && |lines| >= 1 && |last| <= v.s.cols && IsPrintable(last)
    ensures var r := M.Run(v, [13, 10] + last);
            Sitting(r, lines + [last]) && SameFrame(v.s, r.s) && r.k == v.k
  {
    hide Typed, M.Run, M.POk, Ok, TypeAll;
    TypeBreak(v, lines);
    var b := M.Run(v, [13, 10]);
    var longer := lines + [[]];
    TypeRun(b, longer, last);
    assert Last(longer) == [];
    FitsInRow(longer, v.s.cols, last);
    assert longer[|lines| := last] == lines + [last];
    M.RunAppend(v, [13, 10], last);
  }

  lemma {:induction false} TypeLines(v: M.Vt, lines: seq<Bytes>)
    requires M.Ok(v) && Sitting(v, [[]]) && LinesOk(lines, v.s.cols)
    ensures var r := M.Run(v, Joined(lines));
            Sitting(r, lines) && SameFrame(v.s, r.s) && r.k == v.k
  {
    hide Typed, M.Run, M.POk, Ok, TypeAll;
    var n := |lines| - 1;
    var last := lines[n];
    if n == 0 {
      TypeRun(v, [[]], last);
      FitsInRow([[]], v.s.cols, last);
      assert [[]][0 := last] == lines;
    } else {
      var init := lines[..n];
      TypeLines(v, init);
      TypeNextLine(M.Run(v, Joined(init)), init, last);
      assert init + [last] == lines;
      M.RunAppend(v, Joined(init), [13, 10] + last);
      assert Joined(init) + ([13, 10] + last) == Joined(lines);
    }
  }

  predicate NoTrailingSpace(t: Bytes) { t != [] ==> t[|t| - 1] != 32 }

  lemma GlyphText(pool: seq<seq<nat>>, b: byte)
    requires b != 0
    ensures CellText(pool, Glyph(b)) == [b] && CellText(pool, PLAIN_BLANK) == [32]
  {
  }

  lemma RowTextLast(pool: seq<seq<nat>>, row: Line, n: nat)
    requires 1 <= n <= |row|
    ensures RowText(pool, row[..n]) == RowText(pool, row[..n - 1]) + CellText(pool, row[n - 1])
  {
    hide CellText;
    assert row[..n][..n - 1] == row[..n - 1];
  }

  /** The line followed by blanks, cut at n. */
  function Blanked(line: Bytes, n: nat): seq<nat> {
    if n <= |line| then line[..n] else line + Rep(n - |line|, 32)
  }

  lemma BlankedLast(line: Bytes, n: nat)
    requires 1 <= n
    ensures Blanked(line, n) == Blanked(line, n - 1) + [if n <= |line| then line[n - 1] else 32]
  {
  }

  lemma PaddedCell(pool: seq<seq<nat>>, line: Bytes, cols: nat, c: nat)
    requires |line| <= cols && c < cols && IsPrintable(line)
    ensures CellText(pool, Padded(line, cols)[c]) == [if c < |line| then line[c] else 32]
  {
    GlyphText(pool, if c < |line| then line[c] else 65);
  }

  /** The text of a padded row is the line followed by blanks. */
  lemma {:induction false} PaddedText(pool: seq<seq<nat>>, line: Bytes, cols: nat, n: nat)
    requires |line| <= cols && n <= cols && IsPrintable(line)
    ensures RowText(pool, Padded(line, cols)[..n]) == Blanked(line, n)
  {
    if n > 0 {
      var row := Padded(line, cols);
      PaddedCell(pool, line, cols, n - 1);
      hide CellText, RowText, Blanked, IsPrintable, Padded;
      PaddedText(pool, line, cols, n - 1);
      RowTextLast(pool, row, n);
      BlankedLast(line, n);
    }
  }

  lemma {:induction false} TrimmedBlanks(line: Bytes, n: nat)
    requires NoTrailingSpace(line)
    ensures TrimEnd(line + Rep(n, 32)) == line
  {
    if n == 0 {
      assert line + Rep(n, 32) == line;
    } else {
      TrimmedBlanks(line, n - 1);
      assert (line + Rep(n, 32))[..|line| + n - 1] == line + Rep(n - 1, 32);
    }
  }

  /** Every kept line can be named from the top of history. */
  lemma KeptLine(s: Scr, k: nat)
    requires Ok(s) && !s.bufs.inAlt && Kept(s) == |s.hist.log| && k < |Global(s)|
    ensures AbsLine(s, k) == Some(Global(s)[k])
  {
  }

  lemma LineReadsBack(s: Scr, lines: seq<Bytes>, k: nat)
    requires Ok(s) && Typed(s, lines) && Kept(s) == |s.hist.log|
    requires k < |lines| && NoTrailingSpace(lines[k])
    ensures Indexable(s, k, 0, s.cols - 1) && LineText(s, k, 0, s.cols - 1) == lines[k]
  {
    Shown(s, lines, k);
    KeptLine(s, k);
    PaddedRow(s.pool, lines[k], s.cols);
    hide Typed, Ok, Padded, RowText, TrimEnd, AbsLine, Kept, Global, IsPrintable;
  }

  lemma PaddedRow(pool: seq<seq<nat>>, line: Bytes, cols: nat)
    requires |line| <= cols && IsPrintable(line) && NoTrailingSpace(line)
    ensures TrimEnd(RowText(pool, Padded(line, cols)[0..cols - 1 + 1])) == line
  {
    hide RowText, TrimEnd, Padded;
    PaddedText(pool, line, cols, cols);
    assert Padded(line, cols)[0..cols - 1 + 1] == Padded(line, cols)[..cols];
    TrimmedBlanks(line, cols - |line|);
    assert Blanked(line, cols) == line + Rep(cols - |line|, 32);
  }

  lemma Shown(s: Scr, lines: seq<Bytes>, k: nat)
    requires Typed(s, lines) && k < |lines|
    ensures k < |Global(s)| && |lines[k]| <= s.cols && IsPrintable(lines[k])
    ensures Global(s)[k] == Padded(lines[k], s.cols) && s.cols >= 1 && !s.bufs.inAlt
  {
  }

  lemma PieceReadsBack(s: Scr, lines: seq<Bytes>, k: nat)
    requires Ok(s) && Typed(s, lines) && Kept(s) == |s.hist.log| && k < |lines| && NoTrailingSpace(lines[k])
    ensures Indexable(s, k, FirstCol(k, 0, 0), LastCol(s, k, |lines| - 1, s.cols - 1))
    ensures RowPiece(s, k, 0, 0, |lines| - 1, s.cols - 1) == lines[k] + (if k < |lines| - 1 then CRLF else [])
  {
    hide Typed, Ok, LineText;
    LineReadsBack(s, lines, k);
  }

  lemma AllSelectable(s: Scr, lines: seq<Bytes>)
    requires Ok(s) && Typed(s, lines) && Kept(s) == |s.hist.log|
    requires forall k :: 0 <= k < |lines| ==> NoTrailingSpace(lines[k])
    ensures Selectable(s, 0, 0, |lines| - 1, s.cols - 1)
  {
    forall k | 0 <= k < |lines| ensures Indexable(s, k, FirstCol(k, 0, 0), LastCol(s, k, |lines| - 1, s.cols - 1)) {
      PieceReadsBack(s, lines, k);
    }
    hide Indexable, Typed, Ok;
  }

  lemma {:induction false} RowsReadBack(s: Scr, lines: seq<Bytes>, n: nat)
    requires Ok(s) && Typed(s, lines) && Kept(s) == |s.hist.log| && Selectable(s, 0, 0, |lines| - 1, s.cols - 1)
    requires 1 <= n <= |lines| && forall k :: 0 <= k < |lines| ==> NoTrailingSpace(lines[k])
    ensures TextRows(s, n, 0, 0, |lines| - 1, s.cols - 1) == Joined(lines[..n]) + (if n < |lines| then CRLF else [])
  {
    hide Typed, RowPiece, Ok, Selectable, Indexable;
    var r2 := |lines| - 1;
    PieceReadsBack(s, lines, n - 1);
    if n == 1 {
      assert lines[..1] == [lines[0]];
      assert TextRows(s, 0, 0, 0, r2, s.cols - 1) == [];
    } else {
      RowsReadBack(s, lines, n - 1);
      assert lines[..n][..n - 1] == lines[..n - 1];
    }
  }

  /** While the lines number at most the ring and the grid together, none is evicted. */
  lemma NoneEvicted(s: Scr, lines: seq<Bytes>)
    requires Typed(s, lines) && |lines| <= s.hist.cap + s.rows
    ensures Kept(s) == |s.hist.log|
  {
  }

  lemma FirstTyped(cols: nat, rows: nat, cap: nat, lines: seq<Bytes>)
    requires 1 <= cols <= MAX_DIM && 1 <= rows <= MAX_DIM && LinesOk(lines, cols)
    ensures var s := M.Feed(M.FreshTerm(cols, rows, cap), Joined(lines)).s;
            Typed(s, lines) && s.cols == cols && s.rows == rows && s.hist.cap == Max(cap, 1)
  {
    hide M.Run, Typed, Joined;
    var v := M.Vt(M.START, Fresh(cols, rows, cap), M.EMPTY);
    FreshTyped(cols, rows, cap);
    TypeLines(v, lines);
  }

  /** Extraction undoes printing: any lines that fit, without trailing spaces and few enough to
      be kept, fed joined by CR LF to a fresh terminal, are read back exactly. */
  lemma ReadsBack(cols: nat, rows: nat, cap: nat, lines: seq<Bytes>)
    requires 1 <= cols <= MAX_DIM && 1 <= rows <= MAX_DIM && cap >= 1
    requires 1 <= |lines| <= cap + rows && LinesOk(lines, cols)
    requires forall k :: 0 <= k < |lines| ==> NoTrailingSpace(lines[k])
    ensures var s := M.Feed(M.FreshTerm(cols, rows, cap), Joined(lines)).s;
            Readable(s, 0, 0, |lines| - 1, cols - 1) && GetText(s, 0, 0, |lines| - 1, cols - 1) == Joined(lines)
  {
    hide M.Feed, Typed, Readable, Joined, Ok, GetText, LinesOk, NoTrailingSpace;
    FirstTyped(cols, rows, cap, lines);
    ReadsBackFrom(M.Feed(M.FreshTerm(cols, rows, cap), Joined(lines)).s, lines);
  }

  lemma ReadsBackFrom(s: Scr, lines: seq<Bytes>)
    requires Ok(s) && Typed(s, lines) && 1 <= |lines| <= s.hist.cap + s.rows
    requires forall k :: 0 <= k < |lines| ==> NoTrailingSpace(lines[k])
    ensures Readable(s, 0, 0, |lines| - 1, s.cols - 1)
    ensures GetText(s, 0, 0, |lines| - 1, s.cols - 1) == Joined(lines)
  {
    hide Typed, TextRows, Joined, Ok, Selectable, NoTrailingSpace;
    NoneEvicted(s, lines);
    AllSelectable(s, lines);
    RowsReadBack(s, lines, |lines|);
    WholeSelection(s, |lines|);
    assert lines[..|lines|] == lines;
    assert Joined(lines) + [] == Joined(lines);
  }

  lemma WholeSelection(s: Scr, n: nat)
    requires Ok(s) && n >= 1 && Selectable(s, 0, 0, n - 1, s.cols - 1)
    ensures Readable(s, 0, 0, n - 1, s.cols - 1)
    ensures GetText(s, 0, 0, n - 1, s.cols - 1) == TextRows(s, n, 0, 0, n - 1, s.cols - 1)
  {
    hide TextRows;
  }
}
