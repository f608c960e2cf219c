/** Bytes, text as scalar sequences, UTF-8 (section 3 of RFC 3629), decimal rendering, and the
    small string functions the parser uses. */
module Text {
  import opened Cells

  type byte = b: int | 0 <= b < 256
  type Bytes = seq<byte>

  /** A string: its Unicode scalar values. */
  type Str = seq<nat>

  const REPLACEMENT: nat := 0xFFFD

  // ---- UTF-8 ----------------------------------------------------------------

  function EncodeScalar(cp: nat): (e: Bytes)
    requires cp < 0x20_0000
    ensures 1 <= |e| <= 4
  {
    if cp < 0x80 then [cp]
    else if cp < 0x800 then [0xC0 + cp / 64, 0x80 + cp % 64]
    else if cp < 0x1_0000 then [0xE0 + cp / 4096, 0x80 + cp / 64 % 64, 0x80 + cp % 64]
    else [0xF0 + cp / 0x4_0000, 0x80 + cp / 4096 % 64, 0x80 + cp / 64 % 64, 0x80 + cp % 64]
  }

  predicate AllScalars(t: Str) {
    forall i :: 0 <= i < |t| ==> IsScalar(t[i])
  }

  function Encode(t: Str): Bytes
    requires AllScalars(t)
  {
    if t == [] then [] else Encode(t[..|t| - 1]) + EncodeScalar(t[|t| - 1])
  }

  predicate IsCont(b: byte) { b / 64 == 2 }

  function Low6(b: int): int { b % 64 }

  /** Whether `b` may follow the lead byte `lead` of a three- or four-byte sequence. */
  predicate SecondOk(lead: int, b: byte) {
    if lead == 0xE0 then 0xA0 <= b <= 0xBF
    else if lead == 0xED then 0x80 <= b <= 0x9F
    else if lead == 0xF0 then 0x90 <= b <= 0xBF
    else if lead == 0xF4 then 0x80 <= b <= 0x8F
    else 0x80 <= b <= 0xBF
  }

  /** The first scalar of a byte string and the bytes it takes; a malformed prefix gives
      U+FFFD for its longest part that could have begun a sequence. */
  function FirstScalar(b: Bytes): (r: (nat, nat))
    requires b != []
    ensures 1 <= r.1 <= |b| && IsScalar(r.0)
  {
    var lead: int := b[0];
    var n := |b|;
    if lead < 0x80 then (lead, 1)
    else if 0xC2 <= lead <= 0xDF then
      if n > 1 && IsCont(b[1]) then (lead % 32 * 64 + Low6(b[1]), 2) else (REPLACEMENT, 1)
    else if 0xE0 <= lead <= 0xEF then
      if n <= 1 || !SecondOk(lead, b[1]) then (REPLACEMENT, 1)
      else if n <= 2 || !IsCont(b[2]) then (REPLACEMENT, 2)
      else (lead % 16 * 4096 + Low6(b[1]) * 64 + Low6(b[2]), 3)
    else if 0xF0 <= lead <= 0xF4 then
      if n <= 1 || !SecondOk(lead, b[1]) then (REPLACEMENT, 1)
      else if n <= 2 || !IsCont(b[2]) then (REPLACEMENT, 2)
      else if n <= 3 || !IsCont(b[3]) then (REPLACEMENT, 3)
      else (lead % 8 * 0x4_0000 + Low6(b[1]) * 4096 + Low6(b[2]) * 64 + Low6(b[3]), 4)
    else (REPLACEMENT, 1)
  }

  /** `String::from_utf8_lossy`. */
  function Lossy(b: Bytes): (t: Str)
    ensures AllScalars(t)
    decreases |b|
  {
    if b == [] then []
    else
      var (cp, n) := FirstScalar(b);
      [cp] + Lossy(b[n..])
  }

  // ---- division ---------------------------------------------------------------

  lemma DivMod(x: int, d: int, q: int, r: int)
    requires d > 0 && 0 <= r < d && x == d * q + r
    ensures x / d == q && x % d == r
  {
    var k := x / d - q;
    assert d * k == r - x % d;
    assert k >= 1 ==> d * k >= d;
    assert k <= -1 ==> d * k <= -d;
  }

  // ---- decimal --------------------------------------------------------------

  predicate IsDigit(b: int) { 48 <= b <= 57 }

  function Decimal(n: nat): (d: Bytes)
    ensures d != [] && forall i :: 0 <= i < |d| ==> IsDigit(d[i])
  {
    if n < 10 then [48 + n] else Decimal(n / 10) + [48 + n % 10]
  }

  /** The value of a digit string. */
  function Value(d: seq<int>): nat
    requires forall i :: 0 <= i < |d| ==> IsDigit(d[i])
  {
    if d == [] then 0 else assert IsDigit(d[|d| - 1]); Value(d[..|d| - 1]) * 10 + (d[|d| - 1] - 48)
  }

  /** `str::parse::<i32>`: an optional sign, at least one digit, within range. */
  function ParseI32(t: Str): Option<int> {
    var neg := t != [] && t[0] == 45;
    var d: seq<int> := if t != [] && (t[0] == 45 || t[0] == 43) then t[1..] else t;
    if d == [] || !(forall i :: 0 <= i < |d| ==> IsDigit(d[i])) then None
    else
      var v: int := if neg then 0 - Value(d) else Value(d);
      if -0x8000_0000 <= v < 0x8000_0000 then Some(v) else None
  }

  // ---- searching and trimming -------------------------------------------------

  /** The index of the first `c`, or the length when there is none. */
  function Find(t: Str, c: nat): (i: nat)
    ensures i <= |t|
    ensures i < |t| ==> t[i] == c
    ensures forall k :: 0 <= k < i ==> t[k] != c
  {
    if t == [] || t[0] == c then 0 else 1 + Find(t[1..], c)
  }

  predicate IsSpace(c: nat) {
    9 <= c <= 13 || c == 32 || c == 0x85 || c == 0xA0 || c == 0x1680 || 0x2000 <= c <= 0x200A ||
    c == 0x2028 || c == 0x2029 || c == 0x202F || c == 0x205F || c == 0x3000
  }

  function TrimStart(t: Str): Str {
    if t != [] && IsSpace(t[0]) then TrimStart(t[1..]) else t
  }

  function Trim(t: Str): Str
  {
    var u := TrimStart(t);
    TrimBack(u)
  }

  function TrimBack(t: Str): Str {
    if t != [] && IsSpace(t[|t| - 1]) then TrimBack(t[..|t| - 1]) else t
  }

  // ---- file URIs --------------------------------------------------------------

  function HexVal(b: byte): Option<nat> {
    if 48 <= b <= 57 then Some(b - 48)
    else if 97 <= b <= 102 then Some(b - 87)
    else if 65 <= b <= 70 then Some(b - 55)
    else None
  }

  predicate IsEscape(b: Bytes) {
    |b| > 2 && b[0] == 37 && HexVal(b[1]).Some? && HexVal(b[2]).Some?
  }

  function HexByte(h: byte, l: byte): byte
    requires HexVal(h).Some? && HexVal(l).Some?
  {
    HexVal(h).value * 16 + HexVal(l).value
  }

  function PercentBytes(b: Bytes): Bytes
    decreases |b|
  {
    if b == [] then []
    else if IsEscape(b) then [HexByte(b[1], b[2])] + PercentBytes(b[3..])
    else [b[0]] + PercentBytes(b[1..])
  }

  /** What stands at i, decoded, and how many bytes it takes. */
  lemma NextByte(b: Bytes, i: nat)
    requires i < |b|
    ensures IsEscape(b[i..]) ==> i + 3 <= |b|
    ensures IsEscape(b[i..]) ==> PercentBytes(b[i..]) == [HexByte(b[i + 1], b[i + 2])] + PercentBytes(b[i + 3..])
    ensures !IsEscape(b[i..]) ==> PercentBytes(b[i..]) == [b[i]] + PercentBytes(b[i + 1..])
  {
    var rest := b[i..];
    if IsEscape(rest) { assert rest[3..] == b[i + 3..]; } else { assert rest[1..] == b[i + 1..]; }
  }

  method PercentDecode(b: Bytes) returns (out: Bytes)
    ensures out == PercentBytes(b)
  {
    out := [];
    var i := 0;
    assert b[0..] == b && b[|b|..] == [] && PercentBytes([]) == [];
    hide PercentBytes, HexByte;
    while i < |b|
      invariant i <= |b|
      invariant PercentBytes(b) == out + PercentBytes(b[i..])
    {
      NextByte(b, i);
      var escape := IsEscape(b[i..]);
      var c := if escape then HexByte(b[i + 1], b[i + 2]) else b[i];
      i := if escape then i + 3 else i + 1;
      assert out + ([c] + PercentBytes(b[i..])) == out + [c] + PercentBytes(b[i..]);
      out := out + [c];
    }
  }

  const FILE_PREFIX: Str := [102, 105, 108, 101, 58, 47, 47]   // file://

  /** The path of a `file://HOST/PATH` URI, percent-decoded. */
  function FileUriPath(t: Str): Option<Str>
    requires AllScalars(t)
  {
    if FILE_PREFIX <= t then
      var rest := t[|FILE_PREFIX|..];
      var slash := Find(rest, 47);
      if slash == |rest| then None else Some(Lossy(PercentBytes(Encode(rest[slash..]))))
    else None
  }
}
