/** What a program asks for by operating system commands, from the bytes it sends: titles, the
    working directory, the clipboard, and prompt marks with exit codes. */
module Requests {
  import opened Cells
  import opened Text
  import opened ParserModel
  import opened Sequences
  import S = ScreenModel
  import Base64

  // ---- plain text ------------------------------------------------------------------------------

  predicate Ascii(t: seq<int>) { forall i :: 0 <= i < |t| ==> 0 <= t[i] < 0x80 }

  /** ASCII text is its own encoding. */
  lemma {:induction false} AsciiIs(t: Str)
    requires Ascii(t)
    ensures AllScalars(t) && Encode(t) == t
  {
    if t != [] { AsciiIs(t[..|t| - 1]); }
  }

  lemma {:induction false} EncodeJoin(a: Str, b: Str)
    requires AllScalars(a) && AllScalars(b)
    ensures AllScalars(a + b) && Encode(a + b) == Encode(a) + Encode(b)
  {
    hide EncodeScalar;
    if b == [] {
      assert a + b == a && Encode(a) + [] == Encode(a);
    } else {
      EncodeJoin(a, b[..|b| - 1]);
      assert (a + b)[..|a + b| - 1] == a + b[..|b| - 1];
      assert Encode(a) + (Encode(b[..|b| - 1]) + EncodeScalar(b[|b| - 1])) ==
             Encode(a) + Encode(b[..|b| - 1]) + EncodeScalar(b[|b| - 1]);
    }
  }

  /** The first c of a text is behind any part without one. */
  lemma {:induction false} FindBehind(a: Str, c: nat, b: Str)
    requires c !in a
    ensures Find(a + [c] + b, c) == |a|
  {
    var t := a + [c] + b;
    if a != [] {
      FindBehind(a[1..], c, b);
      assert t[1..] == a[1..] + [c] + b;
      assert t[0] == a[0];
    }
  }

  lemma {:induction false} FindNone(a: Str, c: nat)
    requires c !in a
    ensures Find(a, c) == |a|
  {
    if a != [] { FindNone(a[1..], c); }
  }

  // ---- a command and its end -------------------------------------------------------------------------

  /** A command string ends with BEL or with ESC and a backslash. */
  predicate Ends(e: Bytes) { e == [BEL] || e == [ESC, 92] }

  /** ESC ] payload end. */
  function Command(payload: Str, e: Bytes): Bytes
    requires AllScalars(payload)
  {
    [ESC, 93] + Encode(payload) + e
  }

  lemma EndRead(v: Vt, e: Bytes)
    requires Ok(v) && v.p.st == Osc && Ends(e)
    ensures var (r, t) := (Run(v, e), Lossy(v.p.osc));
            r.s == OscScreen(v.s, t) && r.k == Latest(v.k, OscSinks(t)) && r.p.st == Ground
  {
    hide S.Ok, OscScreen, OscSinks, Lossy;
    if e == [BEL] { RunOne(v, BEL); } else { RunTwo(v, ESC, 92); }
  }

  /** Whichever way it ends, a command is taken as the text it was sent as. */
  lemma CommandRead(v: Vt, payload: Str, e: Bytes)
    requires Ok(v) && v.p.st == Ground && Carried(payload) && Ends(e)
    ensures var r := Run(v, Command(payload, e));
            r.s == OscScreen(v.s, payload) && r.k == Latest(v.k, OscSinks(payload)) && r.p.st == Ground
  {
    hide *;
    PayloadCollected(v, payload);
    RunAppend(v, [ESC, 93] + Encode(payload), e);
    EndRead(Run(v, [ESC, 93] + Encode(payload)), e);
    CommandIs(payload, e);
  }

  lemma CommandIs(payload: Str, e: Bytes)
    requires Carried(payload)
    ensures AllScalars(payload) && Command(payload, e) == [ESC, 93] + Encode(payload) + e
  {
  }

  /** A command "num;text". */
  lemma Parts(num: Str, text: Str)
    requires 59 !in num
    ensures OscNumber(num + [59] + text) == num && OscText(num + [59] + text) == text
  {
    var t := num + [59] + text;
    FindBehind(num, 59, text);
    assert t[..|num|] == num && t[|num| + 1..] == text;
  }

  // ---- titles ----------------------------------------------------------------------------------------------

  /** 0, 1 and 2 set the title and nothing else. */
  lemma TitleSet(v: Vt, n: nat, title: Str, e: Bytes)
    requires Ok(v) && v.p.st == Ground && Carried(title) && n <= 2 && Ends(e)
    ensures Carried([48 + n, 59] + title)
    ensures var r := Run(v, Command([48 + n, 59] + title, e)); r.s == v.s && r.k == v.k.(title := Some(title))
  {
    var payload := [48 + n, 59] + title;
    assert payload == [48 + n] + [59] + title;
    Parts([48 + n], title);
    TitleIs(payload, title);
    CommandRead(v, payload, e);
    assert v.k.respond + [] == v.k.respond;
    hide Run, Command, OscScreen, OscSinks, S.Ok, POk;
    QuietUnlessPrompt(v.s, payload);
  }

  lemma TitleIs(payload: Str, title: Str)
    requires AllScalars(payload) && OscText(payload) == title
    requires OscNumber(payload) == [48] || OscNumber(payload) == [49] || OscNumber(payload) == [50]
    ensures OscSinks(payload) == EMPTY.(title := Some(title))
  {
  }

  /** Only 133 touches the screen. */
  lemma QuietUnlessPrompt(s: S.Scr, payload: Str)
    requires S.Ok(s) && OscNumber(payload) != [49, 51, 51]
    ensures OscScreen(s, payload) == s
  {
    hide S.Ok;
  }

  // ---- the working directory -----------------------------------------------------------------------------------

  function Hex(n: nat, upper: bool): nat
    requires n < 16
  {
    if n < 10 then 48 + n else if upper then 55 + n else 87 + n
  }

  /** A byte as it may stand in a URI: letters, digits, '/', '-', '.', '_' and '~' as they are, all
      others as '%' and two hexadecimal digits, with capital or with small letters. */
  function Quote(b: byte, upper: bool): Str {
    if 65 <= b <= 90 || 97 <= b <= 122 || 47 <= b <= 57 || b == 45 || b == 46 || b == 95 || b == 126 then [b]
    else [37, Hex(b / 16, upper), Hex(b % 16, upper)]
  }

  function Quoted(d: Bytes, upper: bool): (t: Str)
    ensures Ascii(t)
  {
    if d == [] then [] else Quote(d[0], upper) + Quoted(d[1..], upper)
  }

  lemma QuoteRead(b: byte, upper: bool, rest: Bytes)
    ensures Ascii(Quote(b, upper)) && PercentBytes(Quote(b, upper) + rest) == [b] + PercentBytes(rest)
  {
    var q: Bytes := Quote(b, upper);
    var t := q + rest;
    if |q| == 1 {
      assert t[0] == b && t[1..] == rest;
    } else {
      assert t[0] == 37 && t[1] == Hex(b / 16, upper) && t[2] == Hex(b % 16, upper) && t[3..] == rest;
      assert b / 16 * 16 + b % 16 == b;
    }
    hide PercentBytes;
  }

  /** Percent decoding undoes the quoting. */
  lemma {:induction false} QuotedReadsBack(d: Bytes, upper: bool)
    ensures PercentBytes(Quoted(d, upper)) == d
  {
    if d != [] {
      QuotedReadsBack(d[1..], upper);
      QuoteRead(d[0], upper, Quoted(d[1..], upper));
    }
  }

  /** The URI of a path on a host. */
  function FileUri(host: Str, path: Str, upper: bool): Str
    requires AllScalars(path)
  {
    FILE_PREFIX + host + Quoted(Encode(path), upper)
  }

  lemma {:induction false} AsciiCarried(t: Str)
    requires Ascii(t) && (forall i :: 0 <= i < |t| ==> t[i] >= 0x20)
    ensures Carried(t)
  {
  }

  lemma {:induction false} QuotedPlain(d: Bytes, upper: bool)
    ensures forall i :: 0 <= i < |Quoted(d, upper)| ==> Quoted(d, upper)[i] >= 0x20
  {
    if d != [] { QuotedPlain(d[1..], upper); }
  }

  lemma QuotedPath(path: Str, upper: bool)
    requires AllScalars(path) && path != [] && path[0] == 47
    ensures var q := Quoted(Encode(path), upper);
            && q != [] && q[0] == 47 && AllScalars(q) && Encode(q) == q
            && Lossy(PercentBytes(Encode(q))) == path
  {
    var q := Quoted(Encode(path), upper);
    AsciiIs(q);
    QuotedReadsBack(Encode(path), upper);
    LossyUndoesEncode(path);
    EncodeFirst(path);
    assert EncodeScalar(47) == [47];
    assert Encode(path)[0] == 47 && q[0] == 47;
    hide Lossy, PercentBytes, Encode, Quoted;
  }

  lemma UriParts(host: Str, q: Str)
    requires AllScalars(host) && AllScalars(q) && 47 !in host && q != [] && q[0] == 47
    ensures var (uri, rest) := (FILE_PREFIX + host + q, host + q);
            && AllScalars(uri) && FILE_PREFIX <= uri && uri[|FILE_PREFIX|..] == rest
            && Find(rest, 47) == |host| && rest[|host|..] == q && |rest| > |host|
  {
    assert host + q == host + [47] + q[1..];
    FindBehind(host, 47, q[1..]);
    hide Find;
  }

  lemma UriCut(host: Str, q: Str)
    requires AllScalars(host) && AllScalars(q) && 47 !in host && q != [] && q[0] == 47
    ensures AllScalars(FILE_PREFIX + host + q)
    ensures FileUriPath(FILE_PREFIX + host + q) == Some(Lossy(PercentBytes(Encode(q))))
  {
    UriParts(host, q);
    hide Encode, Lossy, PercentBytes, Find, AllScalars;
  }

  lemma PathRead(host: Str, path: Str, upper: bool)
    requires AllScalars(host) && AllScalars(path) && 47 !in host && path != [] && path[0] == 47
    ensures AllScalars(FileUri(host, path, upper)) && FileUriPath(FileUri(host, path, upper)) == Some(path)
  {
    hide Encode, Lossy, PercentBytes, Find, FileUriPath, Quoted;
    QuotedPath(path, upper);
    UriCut(host, Quoted(Encode(path), upper));
  }

  /** OSC 7 with the URI of a path sets the working directory to exactly that path. */
  lemma DirectorySet(v: Vt, host: Str, path: Str, upper: bool, e: Bytes)
    requires Ok(v) && v.p.st == Ground && Ends(e) && AllScalars(path) && path != [] && path[0] == 47
    requires Carried(host) && 47 !in host
    ensures Carried([55, 59] + FileUri(host, path, upper))
    ensures var r := Run(v, Command([55, 59] + FileUri(host, path, upper), e));
            r.s == v.s && r.k == v.k.(cwd := Some(path))
  {
    var uri := FileUri(host, path, upper);
    UriCarried(host, path, upper);
    assert [55, 59] + uri == [55] + [59] + uri;
    assert 59 !in [55];
    hide *;
    PathRead(host, path, upper);
    Parts([55], uri);
    DirectoryIs([55, 59] + uri, uri, path);
    Taken(v, [55, 59] + uri, e, EMPTY.(cwd := Some(path)));
    LatestDirectory(v.k, path);
  }

  lemma LatestDirectory(k: Sinks, path: Str)
    ensures Latest(k, EMPTY.(cwd := Some(path))) == k.(cwd := Some(path))
  {
    assert k.respond + [] == k.respond;
  }

  /** A command that is not about prompts leaves the screen and adds its sinks. */
  lemma Taken(v: Vt, payload: Str, e: Bytes, k: Sinks)
    requires Ok(v) && v.p.st == Ground && Carried(payload) && Ends(e)
    requires OscNumber(payload) != [49, 51, 51] && AllScalars(payload) && OscSinks(payload) == k
    ensures var r := Run(v, Command(payload, e)); r.s == v.s && r.k == Latest(v.k, k)
  {
    hide Run, Command, OscScreen, OscSinks, S.Ok, POk, OscNumber;
    CommandRead(v, payload, e);
    QuietUnlessPrompt(v.s, payload);
  }

  lemma UriCarried(host: Str, path: Str, upper: bool)
    requires Carried(host) && AllScalars(path)
    ensures Carried(FileUri(host, path, upper)) && Carried([55, 59] + FileUri(host, path, upper))
  {
    QuotedPlain(Encode(path), upper);
    AsciiCarried(Quoted(Encode(path), upper));
    AsciiCarried(FILE_PREFIX);
    hide Quoted, Encode;
  }

  lemma DirectoryIs(payload: Str, uri: Str, path: Str)
    requires AllScalars(payload) && AllScalars(uri) && OscNumber(payload) == [55] && OscText(payload) == uri
    requires FileUriPath(uri) == Some(path)
    ensures OscSinks(payload) == EMPTY.(cwd := Some(path))
  {
    hide FileUriPath;
  }

  // ---- the clipboard -----------------------------------------------------------------------------------------------

  function Clipped(targets: Str, data: Str): Str { [53, 50, 59] + targets + [59] + data }

  lemma {:induction false} Base64Ascii(d: Bytes)
    ensures forall i :: 0 <= i < |Base64.Encoded(d)| ==> 0x2b <= Base64.Encoded(d)[i] < 0x7b
    ensures d != [] ==> |Base64.Encoded(d)| >= 4
  {
    if |d| > 3 { Base64Ascii(d[3..]); }
  }

  /** OSC 52 with the base64 of a text hands exactly that text over for the clipboard; a "?" asks for
      the clipboard and is not answered. */
  lemma ClipboardSet(v: Vt, targets: Str, text: Str, e: Bytes)
    requires Ok(v) && v.p.st == Ground && Ends(e) && Carried(targets) && 59 !in targets && AllScalars(text)
    ensures Carried(Clipped(targets, Base64.Encoded(Encode(text)))) && Carried(Clipped(targets, [63]))
    ensures var r := Run(v, Command(Clipped(targets, Base64.Encoded(Encode(text))), e));
            r.s == v.s && r.k == v.k.(clipboard := Some(text))
    ensures var r := Run(v, Command(Clipped(targets, [63]), e)); r.s == v.s && r.k == v.k
  {
    hide *;
    var data: Str := Base64.Encoded(Encode(text));
    DataCarried(text);
    Question();
    ClipRead(v, targets, data, e);
    ClipRead(v, targets, [63], e);
    LatestClip(v.k, Some(text));
    LatestClip(v.k, None);
  }

  lemma DataCarried(text: Str)
    requires AllScalars(text)
    ensures var data: Str := Base64.Encoded(Encode(text)); Carried(data) && OnClipboard(data) == Some(text)
  {
    var data: Str := Base64.Encoded(Encode(text));
    Base64Ascii(Encode(text));
    AsciiCarried(data);
    DataRead(text);
    hide Encode, Base64.Encoded, Base64.Decoded, Lossy;
    assert data != [63];
  }

  lemma Question()
    ensures Carried([63]) && OnClipboard([63]) == None
  {
  }

  lemma LatestClip(k: Sinks, c: Option<Str>)
    ensures Latest(k, EMPTY.(clipboard := c)) == if c == None then k else k.(clipboard := c)
  {
    assert k.respond + [] == k.respond;
  }

  lemma DataRead(text: Str)
    requires AllScalars(text)
    ensures var data: Str := Base64.Encoded(Encode(text));
            Ascii(data) && AllScalars(data) && Encode(data) == data
    ensures Base64.Decoded(Base64.Encoded(Encode(text))) == Some(Encode(text)) && Lossy(Encode(text)) == text
  {
    Base64Ascii(Encode(text));
    AsciiIs(Base64.Encoded(Encode(text)));
    Base64.RoundTrip(Encode(text));
    LossyUndoesEncode(text);
    hide Encode, Lossy, Base64.Encoded, Base64.Decoded;
  }

  /** What the command says is taken from behind its targets. */
  lemma ClipRead(v: Vt, targets: Str, data: Str, e: Bytes)
    requires Ok(v) && v.p.st == Ground && Ends(e) && Carried(targets) && 59 !in targets && Carried(data)
    ensures Carried(Clipped(targets, data))
    ensures var r := Run(v, Command(Clipped(targets, data), e));
            && r.s == v.s
            && r.k == Latest(v.k, EMPTY.(clipboard := OnClipboard(data)))
  {
    ClipParts(targets, data);
    hide *;
    ClipIs(targets, data);
    Taken(v, Clipped(targets, data), e, EMPTY.(clipboard := OnClipboard(data)));
  }

  /** The text a base64 string asks to put on the clipboard, if it is one. */
  function OnClipboard(data: Str): Option<Str>
    requires AllScalars(data)
  {
    if data == [63] then None
    else
      match Base64.Decoded(Encode(data))
      case None => None
      case Some(b) => Some(Lossy(b))
  }

  lemma ClipParts(targets: Str, data: Str)
    requires Carried(targets) && 59 !in targets && Carried(data)
    ensures Carried(Clipped(targets, data)) && OscNumber(Clipped(targets, data)) == [53, 50] != [49, 51, 51]
    ensures OscText(Clipped(targets, data)) == targets + [59] + data
  {
    var text := targets + [59] + data;
    assert Clipped(targets, data) == [53, 50] + [59] + text;
    Parts([53, 50], text);
    hide OscNumber, OscText;
  }

  lemma ClipIs(targets: Str, data: Str)
    requires Carried(targets) && 59 !in targets && Carried(data)
    ensures AllScalars(Clipped(targets, data)) && AllScalars(data)
    ensures OscSinks(Clipped(targets, data)) == EMPTY.(clipboard := OnClipboard(data))
  {
    ClipParts(targets, data);
    var text := targets + [59] + data;
    FindBehind(targets, 59, data);
    assert text[|targets| + 1..] == data;
    hide OscNumber, OscText, Base64.Decoded, Encode, Lossy, Clipped, Find;
  }

  // ---- prompts

  const PROMPT: Str := [49, 51, 51]

  /** Where a mark goes and what the latest mark takes. */
  lemma PromptMarked(v: Vt, e: Bytes)
    requires Ok(v) && v.p.st == Ground && Ends(e)
    ensures Carried(PROMPT + [59] + [65])
    ensures var r := Run(v, Command(PROMPT + [59] + [65], e)); r.s == S.MarkPrompt(v.s) && r.k == v.k
  {
    MarkIs(v.s);
    hide *;
    Prompted(v, [65], e);
  }

  /** A command about prompts acts on the screen only. */
  lemma Prompted(v: Vt, text: Str, e: Bytes)
    requires Ok(v) && v.p.st == Ground && Ends(e) && Carried(text)
    ensures Carried(PROMPT + [59] + text)
    ensures var r := Run(v, Command(PROMPT + [59] + text, e));
            r.s == OscScreen(v.s, PROMPT + [59] + text) && r.k == v.k
  {
    PromptSinks(text);
    hide Run, Command, OscScreen, OscSinks, S.Ok, POk;
    CommandRead(v, PROMPT + [59] + text, e);
    assert v.k.respond + [] == v.k.respond;
  }

  lemma PromptSinks(text: Str)
    requires Carried(text)
    ensures Carried(PROMPT + [59] + text) && OscSinks(PROMPT + [59] + text) == EMPTY
  {
    Parts(PROMPT, text);
    hide OscNumber, OscText;
  }

  lemma MarkIs(s: S.Scr)
    requires S.Ok(s)
    ensures Carried([65]) && OscScreen(s, PROMPT + [59] + [65]) == S.MarkPrompt(s)
  {
    Parts(PROMPT, [65]);
    FindNone([65], 59);
    assert OscNumber([65]) == [65] by { assert [65][..1] == [65]; }
    hide OscNumber, OscText, S.Ok, S.MarkPrompt;
  }

  /** The exit code a finished command reports: D alone counts as 0, D;n as n. */
  function Finished(code: int): Str
    requires -0x8000_0000 < code < 0x8000_0000
  {
    [68, 59] + Digits(code)
  }

  function Digits(code: int): Str { if code < 0 then [45] + Decimal(-code) else Decimal(code) }

  lemma DigitsParsed(code: int)
    requires -0x8000_0000 < code < 0x8000_0000
    ensures ParseI32(Digits(code)) == Some(code) && Digits(code) != []
    ensures forall i :: 0 <= i < |Digits(code)| ==> 33 <= Digits(code)[i] < 0x80 && Digits(code)[i] != 59
  {
    var d: Str := if code < 0 then Decimal(-code) else Decimal(code);
    DecimalValue(if code < 0 then -code else code);
    assert code < 0 ==> Digits(code)[1..] == d;
    hide Decimal;
  }

  lemma CodeText(n: Str)
    requires n != [] && (forall i :: 0 <= i < |n| ==> 33 <= n[i] < 0x80 && n[i] != 59)
    ensures OscNumber([68, 59] + n) == [68]
    ensures ExitOf([68, 59] + n) == match ParseI32(n) case None => 0 case Some(c) => c
  {
    var t := [68, 59] + n;
    assert t == [68] + [59] + n;
    FindBehind([68], 59, n);
    assert t[..1] == [68] && t[2..] == n;
    FindNone(n, 59);
    assert n[..|n|] == n;
    NoSpaces(n);
    hide Find, Trim, ParseI32;
  }

  lemma CodeRead(code: int)
    requires -0x8000_0000 < code < 0x8000_0000
    ensures Carried(Finished(code)) && ExitOf(Finished(code)) == code && OscNumber(Finished(code)) == [68]
  {
    DigitsParsed(code);
    hide ParseI32, Digits, ExitOf, OscNumber;
    CodeText(Digits(code));
  }

  /** D alone reports 0. */
  lemma NoCode()
    ensures OscNumber([68]) == [68] && ExitOf([68]) == 0
  {
    FindNone([68], 59);
    assert [68][..1] == [68];
  }

  lemma {:induction false} NoSpaces(t: Str)
    requires t != [] && (forall i :: 0 <= i < |t| ==> 33 <= t[i] < 0x80)
    ensures Trim(t) == t
  {
    assert !IsSpace(t[0]) && !IsSpace(t[|t| - 1]);
  }

  /** The code points with the Unicode property White_Space. */
  const WHITE_SPACE: seq<nat> := [
    0x09, 0x0A, 0x0B, 0x0C, 0x0D, 0x20, 0x85, 0xA0, 0x1680, 0x2000, 0x2001, 0x2002, 0x2003, 0x2004, 0x2005, 0x2006,
    0x2007, 0x2008, 0x2009, 0x200A, 0x2028, 0x2029, 0x202F, 0x205F, 0x3000]

  predicate White(c: nat) { c in WHITE_SPACE }

  predicate AllWhite(t: Str) { forall i :: 0 <= i < |t| ==> White(t[i]) }

  lemma WhiteIsSpace(c: nat)
    ensures IsSpace(c) <==> White(c)
  {
    assert WHITE_SPACE[6] == 0x85 && WHITE_SPACE[24] == 0x3000;
  }

  lemma {:induction false} TrimmedFront(a: Str, t: Str)
    requires AllWhite(a) && (t == [] || !IsSpace(t[0]))
    ensures TrimStart(a + t) == t
  {
    hide IsSpace, White;
    if a == [] {
      assert a + t == t;
    } else {
      WhiteIsSpace(a[0]);
      TrimmedFront(a[1..], t);
      assert (a + t)[0] == a[0] && (a + t)[1..] == a[1..] + t;
    }
  }

  lemma {:induction false} TrimmedBack(t: Str, b: Str)
    requires AllWhite(b) && (t == [] || !IsSpace(t[|t| - 1]))
    ensures TrimBack(t + b) == t
  {
    hide IsSpace, White;
    if b == [] {
      assert t + b == t;
    } else {
      var n := |b| - 1;
      WhiteIsSpace(b[n]);
      TrimmedBack(t, b[..n]);
      assert (t + b)[|t + b| - 1] == b[n] && (t + b)[..|t + b| - 1] == t + b[..n];
    }
  }

  /** The exit code may stand between any white space, and before further fields. */
  lemma PaddedCode(a: Str, code: int, b: Str, more: Str)
    requires AllWhite(a) && AllWhite(b) && -0x8000_0000 < code < 0x8000_0000 && (more == [] || more[0] == 59)
    ensures ExitOf([68, 59] + a + Digits(code) + b + more) == code
  {
    hide *;
    NumberTrimmed(a, code, b);
    FirstField(a + Digits(code) + b, more);
    assert [68, 59] + a + Digits(code) + b + more == [68, 59] + (a + Digits(code) + b + more);
    CodeField([68, 59] + a + Digits(code) + b + more, a + Digits(code) + b + more);
    DigitsParsed(code);
  }

  lemma NumberTrimmed(a: Str, code: int, b: Str)
    requires AllWhite(a) && AllWhite(b) && -0x8000_0000 < code < 0x8000_0000
    ensures 59 !in a + Digits(code) + b && Trim(a + Digits(code) + b) == Digits(code)
  {
    var n := Digits(code);
    DigitsParsed(code);
    hide Digits, ParseI32, White, IsSpace, TrimStart, TrimBack;
    NotBlank(n);
    SpacesApart(a);
    SpacesApart(b);
    TrimmedFront(a, n + b);
    TrimmedBack(n, b);
    assert a + n + b == a + (n + b);
  }

  lemma SpacesApart(a: Str)
    requires AllWhite(a)
    ensures 59 !in a
  {
    WhiteIsSpace(59);
    hide White;
  }

  lemma NotBlank(n: Str)
    requires n != [] && (forall i :: 0 <= i < |n| ==> 33 <= n[i] < 0x80)
    ensures !IsSpace(n[0]) && !IsSpace(n[|n| - 1])
  {
  }

  lemma FirstField(u: Str, more: Str)
    requires 59 !in u && (more == [] || more[0] == 59)
    ensures OscNumber(u + more) == u
  {
    if more == [] {
      FindNone(u, 59);
      assert u + more == u && u[..|u|] == u;
    } else {
      FindBehind(u, 59, more[1..]);
      assert u + [59] + more[1..] == u + more && (u + more)[..|u|] == u;
    }
    hide Find;
  }

  lemma CodeField(t: Str, rest: Str)
    requires t == [68, 59] + rest
    ensures ExitOf(t) == match ParseI32(Trim(OscNumber(rest))) case None => 0 case Some(c) => c
  {
    assert t == [68] + [59] + rest;
    FindBehind([68], 59, rest);
    assert t[2..] == rest;
    hide Find, ParseI32, Trim;
  }

  /** OSC 133 ; D ; n: the latest mark takes the exit code, if it has none; other marks and
      everything else stay. */
  lemma ExitRecorded(v: Vt, code: int, e: Bytes)
    requires Ok(v) && v.p.st == Ground && Ends(e) && -0x8000_0000 < code < 0x8000_0000
    ensures Carried(PROMPT + [59] + Finished(code))
    ensures Run(v, Command(PROMPT + [59] + Finished(code), e)).k == v.k
    ensures Run(v, Command(PROMPT + [59] + Finished(code), e)).s == Recorded(v.s, code)
  {
    CodeRead(code);
    ExitIs(v.s, code);
    hide *;
    RecordIs(v.s, Finished(code));
    Prompted(v, Finished(code), e);
  }

  /** The screen once the latest mark has taken a code. */
  function Recorded(s: S.Scr, code: int): S.Scr {
    var ps := s.prompts;
    if s.bufs.inAlt || ps == [] || ps[|ps| - 1].exit != None then s
    else s.(prompts := ps[..|ps| - 1] + [S.Prompt(ps[|ps| - 1].line, Some(code))])
  }

  lemma RecordIs(s: S.Scr, text: Str)
    requires S.Ok(s) && OscNumber(text) == [68]
    ensures OscScreen(s, PROMPT + [59] + text) == S.MarkCmdExit(s, ExitOf(text))
  {
    Parts(PROMPT, text);
    hide OscNumber, OscText, S.Ok, S.MarkCmdExit, ExitOf;
  }

  lemma ExitIs(s: S.Scr, code: int)
    requires S.Ok(s)
    ensures S.MarkCmdExit(s, code) == Recorded(s, code)
  {
    var ps, n := s.prompts, |s.prompts|;
    if n > 0 {
      var p := S.Prompt(ps[n - 1].line, Some(code));
      assert ps[n - 1 := p] == ps[..n - 1] + [p];
    }
    hide S.Ok;
  }
}
