/** What a list of graphic rendition codes means: of the codes that concern an attribute the last
    one counts, colon parameters belong to the code before them, and 38 and 48 take a colour from
    the parameters that follow. */
module Rendition {
  import opened Cells
  import opened ScreenModel

  // ---- the codes ------------------------------------------------------------------------------

  /** Codes that set an attribute. */
  predicate Sets(n: int, f: Flag) {
    match f
    case Bold => n == 1
    case Faint => n == 2
    case Italic => n == 3
    case Underline => n == 4
    case Blink => n == 5 || n == 6
    case Reverse => n == 7
    case Hidden => n == 8
    case Strike => n == 9
  }

  /** Codes that clear it. */
  predicate Clears(n: int, f: Flag) {
    n == 0 ||
    match f
    case Bold => n == 21 || n == 22
    case Faint => n == 21 || n == 22
    case Italic => n == 23
    case Underline => n == 24
    case Blink => n == 25
    case Reverse => n == 27
    case Hidden => n == 28
    case Strike => n == 29
  }

  /** The palette entry a code picks for glyphs (first 30, then 90) or behind them (40, 100), or the
      default. */
  function Colour(n: int, low: int, high: int, plain: int): Option<int> {
    if low <= n <= low + 7 then Some(n - low)
    else if high <= n <= high + 7 then Some(8 + n - high)
    else if n == plain || n == 0 then Some(-1)
    else None
  }

  function Fore(n: int): Option<int> { Colour(n, 30, 90, 39) }
  function Back(n: int): Option<int> { Colour(n, 40, 100, 49) }

  // ---- plain lists ----------------------------------------------------------------------------

  /** Codes that take nothing from the parameters after them, and none after a colon. */
  predicate Plain(p: seq<int>, colon: seq<bool>) {
    |p| == |colon| && forall i :: 0 <= i < |p| ==> !colon[i] && p[i] != 38 && p[i] != 48
  }

  /** One code does what the tables say, and no more. */
  lemma OneCode(pen: Pen, n: int)
    requires n != 38 && n != 48
    ensures var r := SgrCode(pen, n, false);
            && (forall f :: f in r.flags <==> Sets(n, f) || (f in pen.flags && !Clears(n, f)))
            && r.fg == (if Fore(n).Some? then Fore(n).value else pen.fg)
            && r.bg == (if Back(n).Some? then Back(n).value else pen.bg)
  {
  }

  lemma NoBoth(n: int, f: Flag)
    ensures !(Sets(n, f) && Clears(n, f))
  {
  }

  /** From code i on, an attribute is on afterwards if a code sets it that none after it clears, or
      it was on and none clears it. */
  ghost predicate On(was: bool, p: seq<int>, i: nat, f: Flag) {
    || (exists k :: i <= k < |p| && Sets(p[k], f) && forall j :: k < j < |p| ==> !Clears(p[j], f))
    || (was && forall j :: i <= j < |p| ==> !Clears(p[j], f))
  }

  /** From code i on, the last code that names a colour decides it. */
  ghost predicate Tinted(was: int, p: seq<int>, i: nat, fore: bool, c: int) {
    || (exists k :: i <= k < |p| && Named(p[k], fore) == Some(c) && forall j :: k < j < |p| ==> Named(p[j], fore).None?)
    || (c == was && forall j :: i <= j < |p| ==> Named(p[j], fore).None?)
  }

  function Named(n: int, fore: bool): Option<int> { if fore then Fore(n) else Back(n) }

  lemma OnStep(was: bool, p: seq<int>, i: nat, f: Flag)
    requires i < |p|
    ensures On(was, p, i, f) <==> On(Sets(p[i], f) || (was && !Clears(p[i], f)), p, i + 1, f)
  {
    NoBoth(p[i], f);
    hide Sets, Clears;
  }

  lemma TintedStep(was: int, p: seq<int>, i: nat, fore: bool, c: int)
    requires i < |p|
    ensures Tinted(was, p, i, fore, c) <==>
      Tinted(if Named(p[i], fore).Some? then Named(p[i], fore).value else was, p, i + 1, fore, c)
  {
    hide Named;
  }

  lemma OneTinted(was: int, p: seq<int>, i: nat, fore: bool, c: int)
    requires i >= |p|
    ensures Tinted(was, p, i, fore, c) <==> c == was
  {
  }

  lemma PlainStep(pen: Pen, p: seq<int>, colon: seq<bool>, i: nat)
    requires Plain(p, colon) && i < |p|
    ensures Sgr(pen, p, colon, i) == Sgr(SgrCode(pen, p[i], false), p, colon, i + 1)
  {
    hide SgrCode, ExtColor;
  }

  lemma {:induction false} PlainFrom(pen: Pen, p: seq<int>, colon: seq<bool>, i: nat, f: Flag)
    requires Plain(p, colon) && i <= |p|
    ensures var r := Sgr(pen, p, colon, i);
            && (f in r.flags <==> On(f in pen.flags, p, i, f))
            && Tinted(pen.fg, p, i, true, r.fg) && Tinted(pen.bg, p, i, false, r.bg)
    decreases |p| - i
  {
    if i == |p| {
      OneTinted(pen.fg, p, i, true, pen.fg);
      OneTinted(pen.bg, p, i, false, pen.bg);
    } else {
      var next := SgrCode(pen, p[i], false);
      PlainStep(pen, p, colon, i);
      OneCode(pen, p[i]);
      hide Sgr, SgrCode, On, Tinted, Sets, Clears, Colour;
      PlainFrom(next, p, colon, i + 1, f);
      OnStep(f in pen.flags, p, i, f);
      var r := Sgr(pen, p, colon, i);
      TintedStep(pen.fg, p, i, true, r.fg);
      TintedStep(pen.bg, p, i, false, r.bg);
    }
  }

  /** The last code counts: over any list of plain codes an attribute is on afterwards exactly when
      some code sets it and none after that clears it, or it was on and none clears it; and each
      colour is the one named by the last code that names it, or unchanged. Nothing but the
      rendition changes. */
  lemma LastCodeCounts(s: Scr, p: seq<int>, colon: seq<bool>, f: Flag)
    requires Ok(s) && Plain(p, colon) && p != []
    ensures var r := SetGraphics(s, p, colon);
            && r == s.(pen := r.pen)
            && (f in r.pen.flags <==> On(f in s.pen.flags, p, 0, f))
            && Tinted(s.pen.fg, p, 0, true, r.pen.fg) && Tinted(s.pen.bg, p, 0, false, r.pen.bg)
  {
    PlainFrom(s.pen, p, colon, 0, f);
    hide Sgr, On, Tinted;
  }

  // ---- colons and colours -----------------------------------------------------------------------

  /** A code and its colon parameters: only the code counts, except that 4:0 ends underlining. */
  lemma ColonsBelong(pen: Pen, p: seq<int>, colon: seq<bool>, i: nat)
    requires |p| == |colon| && i < |p|
    ensures colon[i] ==> Sgr(pen, p, colon, i) == Sgr(pen, p, colon, i + 1)
    ensures !colon[i] && p[i] == 4 ==>
      var off := i + 1 < |p| && colon[i + 1] && p[i + 1] == 0;
      var flags := if off then pen.flags - {Underline} else pen.flags + {Underline};
      Sgr(pen, p, colon, i) == Sgr(pen.(flags := flags), p, colon, i + 1)
  {
    hide ExtColor;
  }

  /** 38 and 48 take 5 and a palette index, or 2 and red, green and blue, each modulo 256, whatever
      separates them, and go on behind them; a list that ends before that changes no colour. */
  lemma ColourTaken(pen: Pen, p: seq<int>, colon: seq<bool>, i: nat)
    requires |p| == |colon| && i < |p| && !colon[i] && (p[i] == 38 || p[i] == 48)
    ensures var r := Sgr(pen, p, colon, i);
            var left := |p| - i - 1;
            if left >= 2 && p[i + 1] == 5 then
              r == Sgr(Painted(pen, p[i] == 38, p[i + 2] % 256), p, colon, i + 3)
            else if left >= 4 && p[i + 1] == 2 then
              r == Sgr(Painted(pen, p[i] == 38,
                               0x100_0000 + p[i + 2] % 256 * 0x1_0000 + p[i + 3] % 256 * 0x100 + p[i + 4] % 256),
                       p, colon, i + 5)
            else if left >= 1 then r == Sgr(pen, p, colon, i + 2)
            else r == pen
  {
  }

  function Painted(pen: Pen, fore: bool, c: int): Pen { if fore then pen.(fg := c) else pen.(bg := c) }

  /** A true colour's parts can be read back. */
  lemma TrueColourParts(r: nat, g: nat, b: nat)
    requires r < 256 && g < 256 && b < 256
    ensures var c := Rgb(r, g, b) - TRUE_COLOR; c / 0x1_0000 == r && c / 0x100 % 256 == g && c % 256 == b
  {
    var c := Rgb(r, g, b) - TRUE_COLOR;
    assert c == r * 0x1_0000 + (g * 0x100 + b);
    assert c == (r * 256 + g) * 0x100 + b;
  }
}
