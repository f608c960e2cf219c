/** Text extraction of any part of what was typed: from a column of one line to a column of another,
    in either direction. */
module Selections {
  import opened Cells
  import opened Text
  import opened ScreenModel
  import opened Typing
  import M = ParserModel

  /** Trimming takes away exactly the spaces at the end. */
  lemma {:induction false} TrimMeans(t: seq<nat>)
    ensures var r := TrimEnd(t);
            && r <= t && (r != [] ==> r[|r| - 1] != 32)
            && forall i :: |r| <= i < |t| ==> t[i] == 32
  {
    if t != [] && t[|t| - 1] == 32 { TrimMeans(t[..|t| - 1]); }
  }

  /** Columns a to b of a line followed by blanks, without blanks at the end. */
  function Picked(line: Bytes, a: nat, b: int): seq<nat> {
    if a > b then [] else TrimEnd(Blanked(line, b + 1)[a..])
  }

  /** Within the line itself that is its part, trimmed. */
  lemma PickedInside(line: Bytes, a: nat, b: nat)
    requires a <= b < |line|
    ensures Picked(line, a, b) == TrimEnd(line[a..b + 1])
  {
    hide TrimEnd;
    assert Blanked(line, b + 1)[a..] == line[a..b + 1];
  }

  function From(k: nat, r1: nat, c1: int): nat { if k == r1 then Max(c1, 0) else 0 }

  function To(k: nat, r2: nat, c2: int, cols: nat): int { if k == r2 then Min(c2, cols - 1) else cols - 1 }

  /** What a selection from (r1, c1) to (r2, c2) picks of lines r1..k, joined by CR LF. */
  function PickedTo(lines: seq<Bytes>, cols: nat, r1: nat, c1: int, r2: nat, c2: int, k: nat): seq<nat>
    requires r1 <= k <= r2 < |lines|
    decreases k
  {
    var piece := Picked(lines[k], From(k, r1, c1), To(k, r2, c2, cols));
    if k == r1 then piece else PickedTo(lines, cols, r1, c1, r2, c2, k - 1) + [13, 10] + piece
  }

  // ---- one row --------------------------------------------------------------------------------

  lemma TextStep(pool: seq<seq<nat>>, row: Line, a: nat, n: nat)
    requires a < n <= |row|
    ensures RowText(pool, row[a..n]) == RowText(pool, row[a..n - 1]) + CellText(pool, row[n - 1])
  {
    hide CellText;
    assert row[a..n][..n - 1 - a] == row[a..n - 1] && row[a..n][n - 1 - a] == row[n - 1];
  }

  lemma BlankedLong(line: Bytes, n: nat)
    ensures |Blanked(line, n)| == n
  {
  }

  lemma BlankedStep(line: Bytes, a: nat, n: nat)
    requires a < n
    ensures |Blanked(line, n)| == n && |Blanked(line, n - 1)| == n - 1
    ensures Blanked(line, n)[a..] == Blanked(line, n - 1)[a..] + [if n <= |line| then line[n - 1] else 32]
  {
    BlankedLong(line, n);
    BlankedLong(line, n - 1);
    BlankedLast(line, n);
    hide Blanked;
  }

  lemma PartNone(pool: seq<seq<nat>>, line: Bytes, cols: nat, a: nat)
    requires |line| <= cols && a <= cols
    ensures |Blanked(line, a)| == a && RowText(pool, Padded(line, cols)[a..a]) == Blanked(line, a)[a..]
  {
    BlankedLong(line, a);
    assert Padded(line, cols)[a..a] == [] && Blanked(line, a)[a..] == [];
  }

  lemma PartStep(pool: seq<seq<nat>>, line: Bytes, cols: nat, a: nat, n: nat)
    requires |line| <= cols && a < n <= cols && IsPrintable(line) && |Blanked(line, n - 1)| == n - 1
    requires RowText(pool, Padded(line, cols)[a..n - 1]) == Blanked(line, n - 1)[a..]
    ensures |Blanked(line, n)| == n && RowText(pool, Padded(line, cols)[a..n]) == Blanked(line, n)[a..]
  {
    var row := Padded(line, cols);
    PaddedCell(pool, line, cols, n - 1);
    hide *;
    TextStep(pool, row, a, n);
    BlankedStep(line, a, n);
  }

  /** Text of a part of a row. */
  lemma {:induction false} PartText(pool: seq<seq<nat>>, line: Bytes, cols: nat, a: nat, n: nat)
    requires |line| <= cols && a <= n <= cols && IsPrintable(line)
    ensures |Blanked(line, n)| == n && RowText(pool, Padded(line, cols)[a..n]) == Blanked(line, n)[a..]
    decreases n - a
  {
    hide *;
    if n == a {
      PartNone(pool, line, cols, a);
    } else {
      PartText(pool, line, cols, a, n - 1);
      PartStep(pool, line, cols, a, n);
    }
  }

  lemma RowPicked(s: Scr, lines: seq<Bytes>, k: nat, a: nat, b: int)
    requires Ok(s) && Typed(s, lines) && Kept(s) == |s.hist.log| && k < |lines| && b < s.cols
    ensures Indexable(s, k, a, b) && LineText(s, k, a, b) == Picked(lines[k], a, b)
  {
    Shown(s, lines, k);
    KeptLine(s, k);
    BlankedLong(lines[k], if b < 0 then 0 else b + 1);
    hide Typed, Ok, Padded, RowText, TrimEnd, AbsLine, Kept, Global, IsPrintable, Blanked;
    if a <= b { PartText(s.pool, lines[k], s.cols, a, b + 1); }
  }

  // ---- a whole selection ---------------------------------------------------------------------------

  lemma AllPicked(s: Scr, lines: seq<Bytes>, r1: nat, c1: int, r2: nat, c2: int)
    requires Ok(s) && Typed(s, lines) && Kept(s) == |s.hist.log| && r1 <= r2 < |lines|
    ensures Selectable(s, r1, c1, r2, c2)
  {
    forall k | r1 <= k <= r2 ensures Indexable(s, k, FirstCol(k, r1, c1), LastCol(s, k, r2, c2)) {
      RowPicked(s, lines, k, FirstCol(k, r1, c1), LastCol(s, k, r2, c2));
    }
    hide Indexable, Typed, Ok;
  }

  lemma PieceIs(s: Scr, lines: seq<Bytes>, r1: nat, c1: int, r2: nat, c2: int, k: nat)
    requires Ok(s) && Typed(s, lines) && Kept(s) == |s.hist.log| && r1 <= k <= r2 < |lines|
    ensures Indexable(s, k, FirstCol(k, r1, c1), LastCol(s, k, r2, c2))
    ensures RowPiece(s, k, r1, c1, r2, c2) ==
      Picked(lines[k], From(k, r1, c1), To(k, r2, c2, s.cols)) + (if k < r2 then [13, 10] else [])
  {
    hide Typed, Ok, LineText, Picked, Indexable;
    RowPicked(s, lines, k, FirstCol(k, r1, c1), LastCol(s, k, r2, c2));
  }

  lemma {:induction false} RowsPicked(s: Scr, lines: seq<Bytes>, r1: nat, c1: int, r2: nat, c2: int, n: nat)
    requires Ok(s) && Typed(s, lines) && Kept(s) == |s.hist.log| && Selectable(s, r1, c1, r2, c2)
    requires r1 <= r2 < |lines| && 1 <= n && r1 + n - 1 <= r2
    ensures TextRows(s, n, r1, c1, r2, c2) ==
      PickedTo(lines, s.cols, r1, c1, r2, c2, r1 + n - 1) + (if r1 + n - 1 < r2 then [13, 10] else [])
    decreases n
  {
    hide Typed, RowPiece, Ok, Selectable, Indexable, Picked;
    var k := r1 + n - 1;
    PieceIs(s, lines, r1, c1, r2, c2, k);
    var piece := Picked(lines[k], From(k, r1, c1), To(k, r2, c2, s.cols));
    var end := if k < r2 then [13, 10] else [];
    if n == 1 {
      assert TextRows(s, 0, r1, c1, r2, c2) == [];
      assert [] + (piece + end) == piece + end;
    } else {
      RowsPicked(s, lines, r1, c1, r2, c2, n - 1);
      var init := PickedTo(lines, s.cols, r1, c1, r2, c2, k - 1);
      assert init + [13, 10] + (piece + end) == init + [13, 10] + piece + end;
    }
  }

  /** The ends of a selection may be given in either order. */
  lemma EitherOrder(s: Scr, r1: nat, c1: int, r2: nat, c2: int)
    requires Ok(s) && Selectable(s, r1, c1, r2, c2) && r1 <= r2 && (r1 < r2 || c1 <= c2)
    ensures Readable(s, r1, c1, r2, c2) && Readable(s, r2, c2, r1, c1)
    ensures GetText(s, r1, c1, r2, c2) == TextRows(s, r2 - r1 + 1, r1, c1, r2, c2)
    ensures GetText(s, r2, c2, r1, c1) == TextRows(s, r2 - r1 + 1, r1, c1, r2, c2)
  {
    hide TextRows, Ok, Selectable;
  }

  lemma SelectionFrom(s: Scr, lines: seq<Bytes>, r1: nat, c1: int, r2: nat, c2: int)
    requires Ok(s) && Typed(s, lines) && |lines| <= s.hist.cap + s.rows
    requires r1 <= r2 < |lines| && (r1 < r2 || c1 <= c2)
    ensures Readable(s, r1, c1, r2, c2) && Readable(s, r2, c2, r1, c1)
    ensures GetText(s, r1, c1, r2, c2) == PickedTo(lines, s.cols, r1, c1, r2, c2, r2)
    ensures GetText(s, r2, c2, r1, c1) == PickedTo(lines, s.cols, r1, c1, r2, c2, r2)
  {
    hide *;
    NoneEvicted(s, lines);
    AllPicked(s, lines, r1, c1, r2, c2);
    RowsPicked(s, lines, r1, c1, r2, c2, r2 - r1 + 1);
    EitherOrder(s, r1, c1, r2, c2);
    var all := PickedTo(lines, s.cols, r1, c1, r2, c2, r2);
    assert all + [] == all;
  }

  /** Any selection of what was typed reads back its part: of the first line from the first column
      on, of the last up to the last column, of the lines between everything, each without blanks at
      the end and joined by CR LF; and the same when its ends are given the other way round. */
  lemma SelectionReadsBack(cols: nat, rows: nat, cap: nat, lines: seq<Bytes>, r1: nat, c1: int, r2: nat, c2: int)
    requires 1 <= cols <= MAX_DIM && 1 <= rows <= MAX_DIM && cap >= 1
    requires 1 <= |lines| <= cap + rows && LinesOk(lines, cols)
    requires r1 <= r2 < |lines| && (r1 < r2 || c1 <= c2)
    ensures var s := M.Feed(M.FreshTerm(cols, rows, cap), Joined(lines)).s;
            && Readable(s, r1, c1, r2, c2) && Readable(s, r2, c2, r1, c1)
            && GetText(s, r1, c1, r2, c2) == PickedTo(lines, cols, r1, c1, r2, c2, r2)
            && GetText(s, r2, c2, r1, c1) == PickedTo(lines, cols, r1, c1, r2, c2, r2)
  {
    hide M.Feed, Typed, Readable, Joined, Ok, GetText, LinesOk, PickedTo;
    FirstTyped(cols, rows, cap, lines);
    SelectionFrom(M.Feed(M.FreshTerm(cols, rows, cap), Joined(lines)).s, lines, r1, c1, r2, c2);
  }
}
