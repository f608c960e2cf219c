/** Base64 (section 4 of RFC 4648): the encoder that ships the bootstrap script and the
    decoder of clipboard requests. The decoder keeps a 32-bit accumulator that it never
    masks, skips padding and white space anywhere, and rejects any other character. */
module Base64 {
  import opened Cells
  import opened Text

  const WORD: nat := 0x1_0000_0000

  /** Six more bits pushed into the 32-bit accumulator; the top six fall off. */
  function Push6(buf: nat, v: nat): (r: nat)
    requires buf < WORD && v < 64
    ensures r < WORD && r % 64 == v && r % 4096 == buf % 64 * 64 + v
  {
    Shifted(buf, v);
    buf * 64 % WORD + v
  }

  /** The byte above the lowest `bits` bits. */
  function ByteAbove(buf: nat, bits: nat): (r: byte)
    requires bits <= 4
    ensures bits == 4 ==> r == buf % 4096 / 16
    ensures bits == 2 ==> r == buf % 4096 % 1024 / 4
    ensures bits == 0 ==> r == buf % 4096 % 256
  {
    Window(buf);
    buf / (if bits == 4 then 16 else if bits == 3 then 8 else if bits == 2 then 4 else if bits == 1 then 2 else 1) % 256
  }

  /** The 6-bit value of a base64 character. */
  function SixOf(c: byte): (v: Option<nat>)
    ensures v.Some? ==> v.value < 64
  {
    if 65 <= c <= 90 then Some(c - 65)
    else if 97 <= c <= 122 then Some(c - 97 + 26)
    else if 48 <= c <= 57 then Some(c - 48 + 52)
    else if c == 43 then Some(62)
    else if c == 47 then Some(63)
    else None
  }

  /** The character of a 6-bit value. */
  function CharOf(v: nat): (c: byte)
    requires v < 64
    ensures SixOf(c) == Some(v)
  {
    if v < 26 then 65 + v
    else if v < 52 then 97 + v - 26
    else if v < 62 then 48 + v - 52
    else if v == 62 then 43
    else 47
  }

  predicate IsSkipped(c: byte) {
    c == 61 || c == 32 || c == 9 || c == 10 || c == 12 || c == 13
  }

  // ---- the two bodies ---------------------------------------------------------

  function Packed(a: int, b: int, c: int): int { a * 0x1_0000 + b * 0x100 + c }

  /** One 3-byte chunk (the last may be shorter) as four characters. */
  function EncodeChunk(c: Bytes): (e: Bytes)
    requires 1 <= |c| <= 3
    ensures |e| == 4
  {
    var n := Packed(c[0], if |c| > 1 then c[1] else 0, if |c| > 2 then c[2] else 0);
    [CharOf(n / 0x4_0000 % 64), CharOf(n / 0x1000 % 64),
     if |c| > 1 then CharOf(n / 64 % 64) else 61,
     if |c| > 2 then CharOf(n % 64) else 61]
  }

  function Encoded(data: Bytes): Bytes {
    if data == [] then []
    else if |data| <= 3 then EncodeChunk(data)
    else EncodeChunk(data[..3]) + Encoded(data[3..])
  }

  /** The chunk of data at i, and what comes after it. */
  lemma NextChunk(data: Bytes, i: nat)
    requires i < |data|
    ensures var j := Min(i + 3, |data|);
            Encoded(data[i..]) == EncodeChunk(data[i..j]) + Encoded(data[j..])
  {
    hide EncodeChunk;
    var rest := data[i..];
    if |rest| <= 3 {
      assert data[i..|data|] == rest && data[|data|..] == [];
      assert EncodeChunk(rest) + [] == EncodeChunk(rest);
    } else {
      assert rest[..3] == data[i..i + 3] && rest[3..] == data[i + 3..];
    }
  }

  method B64(data: Bytes) returns (s: Bytes)
    ensures s == Encoded(data)
  {
    hide Encoded, EncodeChunk;
    s := [];
    var i := 0;
    assert data[0..] == data && [] + Encoded(data) == Encoded(data);
    while i < |data|
      invariant i <= |data|
      invariant Encoded(data) == s + Encoded(data[i..])
    {
      var j := Min(i + 3, |data|);
      NextChunk(data, i);
      var e := EncodeChunk(data[i..j]);
      assert s + (e + Encoded(data[j..])) == s + e + Encoded(data[j..]);
      s := s + e;
      i := j;
    }
    NothingLeft(data, s);
  }

  lemma NothingLeft(data: Bytes, s: Bytes)
    ensures s + Encoded(data[|data|..]) == s
  {
  }

  /** The decoder between characters: bytes out, accumulator, bits not yet used. */
  datatype Acc = Acc(out: Bytes, buf: nat, bits: nat) | Bad

  predicate AccOk(a: Acc) { a.Acc? ==> a.buf < WORD && a.bits <= 6 && a.bits % 2 == 0 }

  function Take(a: Acc, c: byte): (r: Acc)
    requires AccOk(a)
    ensures AccOk(r)
  {
    if a.Bad? || IsSkipped(c) then a
    else match SixOf(c)
      case None => Bad
      case Some(v) =>
        var buf := Push6(a.buf, v);
        if a.bits + 6 >= 8 then Acc(a.out + [ByteAbove(buf, a.bits - 2)], buf, a.bits - 2)
        else Acc(a.out, buf, a.bits + 6)
  }

  function TakeAll(a: Acc, s: Bytes): (r: Acc)
    requires AccOk(a)
    ensures AccOk(r)
  {
    if s == [] then a else Take(TakeAll(a, s[..|s| - 1]), s[|s| - 1])
  }

  const START: Acc := Acc([], 0, 0)

  function Decoded(s: Bytes): Option<Bytes> {
    match TakeAll(START, s)
    case Bad => None
    case Acc(out, _, _) => Some(out)
  }

  method Decode(s: Bytes) returns (r: Option<Bytes>)
    ensures r == Decoded(s)
  {
    hide Push6, ByteAbove, SixOf;
    var out: Bytes := [];
    var buf: nat := 0;
    var bits: nat := 0;
    for i := 0 to |s|
      invariant buf < WORD && bits <= 6 && bits % 2 == 0
      invariant TakeAll(START, s[..i]) == Acc(out, buf, bits)
    {
      assert s[..i + 1][..i] == s[..i];
      var c := s[i];
      if IsSkipped(c) {
        continue;
      }
      var v := SixOf(c);
      if v.None? {
        BadStays(START, s[..i + 1], s[i + 1..]);
        assert s[..i + 1] + s[i + 1..] == s;
        return None;
      }
      buf := Push6(buf, v.value);
      bits := bits + 6;
      if bits >= 8 {
        bits := bits - 8;
        out := out + [ByteAbove(buf, bits)];
      }
    }
    assert s[..|s|] == s;
    r := Some(out);
  }

  // ---- composition -------------------------------------------------------------

  lemma {:induction false} TakeAppend(a: Acc, s: Bytes, t: Bytes)
    requires AccOk(a)
    ensures TakeAll(a, s + t) == TakeAll(TakeAll(a, s), t)
  {
    if t == [] {
      assert s + t == s;
    } else {
      TakeAppend(a, s, t[..|t| - 1]);
      assert (s + t)[..|s + t| - 1] == s + t[..|t| - 1];
    }
  }

  lemma {:induction false} BadStays(a: Acc, s: Bytes, t: Bytes)
    requires AccOk(a) && TakeAll(a, s).Bad?
    ensures TakeAll(a, s + t).Bad?
  {
    TakeAppend(a, s, t);
    StaysBad(t);
  }

  lemma {:induction false} StaysBad(t: Bytes)
    ensures TakeAll(Bad, t).Bad?
  {
    if t != [] {
      StaysBad(t[..|t| - 1]);
    }
  }

  // ---- arithmetic ----------------------------------------------------------------

  lemma Shifted(buf: nat, v: nat)
    requires buf < WORD && v < 64
    ensures var b := buf * 64 % WORD + v;
            b < WORD && b % 64 == v && b % 4096 == buf % 64 * 64 + v
  {
    var q, r := buf / 64, buf % 64;
    var h, l := q / 0x10_0000, q % 0x10_0000;
    DivMod(buf * 64, WORD, h, 4096 * l + 64 * r);
    DivMod(4096 * l + 64 * r + v, 64, 64 * l + r, v);
    DivMod(4096 * l + 64 * r + v, 4096, l, 64 * r + v);
  }

  lemma Window(x: nat)
    ensures x / 16 % 256 == x % 4096 / 16
    ensures x / 4 % 256 == x % 4096 % 1024 / 4
    ensures x % 256 == x % 4096 % 256
  {
    Window16(x);
    Window4(x);
    Window1(x);
  }

  lemma Window1(x: nat)
    ensures x % 256 == x % 4096 % 256
  {
    var q, r := x / 4096, x % 4096;
    DivMod(x, 256, 16 * q + r / 256, r % 256);
  }

  lemma Window16(x: nat)
    ensures x / 16 % 256 == x % 4096 / 16
  {
    var q, r := x / 4096, x % 4096;
    DivMod(x, 16, 256 * q + r / 16, r % 16);
    DivMod(256 * q + r / 16, 256, q, r / 16);
  }

  lemma Window4(x: nat)
    ensures x / 4 % 256 == x % 4096 % 1024 / 4
  {
    var q, r := x / 4096, x % 4096;
    var s, u := r / 1024, r % 1024;
    DivMod(x, 4, 256 * (4 * q + s) + u / 4, u % 4);
    DivMod(256 * (4 * q + s) + u / 4, 256, 4 * q + s, u / 4);
  }

  lemma SixBits(a: int, b: int, c: int)
    requires 0 <= a < 256 && 0 <= b < 256 && 0 <= c < 256
    ensures var n := Packed(a, b, c);
            && n / 0x4_0000 % 64 == a / 4
            && n / 0x1000 % 64 == a % 4 * 16 + b / 16
            && n / 64 % 64 == b % 16 * 4 + c / 64
            && n % 64 == c % 64
  {
    var n := Packed(a, b, c);
    var (p, q, r, s, u, v) := (a / 4, a % 4, b / 16, b % 16, c / 64, c % 64);
    SixBitsOf(n, p, q, r, s, u, v);
  }

  /** The same by pieces: a = 4p + q, b = 16r + s, c = 64u + v. */
  lemma SixBitsOf(n: nat, p: nat, q: nat, r: nat, s: nat, u: nat, v: nat)
    requires p < 64 && q < 4 && r < 16 && s < 16 && u < 4 && v < 64
    requires n == (p * 4 + q) * 0x1_0000 + (r * 16 + s) * 0x100 + (u * 64 + v)
    ensures n / 0x4_0000 % 64 == p && n / 0x1000 % 64 == q * 16 + r && n / 64 % 64 == s * 4 + u && n % 64 == v
  {
    DivMod(n, 0x4_0000, p, q * 0x1_0000 + (r * 16 + s) * 0x100 + u * 64 + v);
    DivMod(n, 0x1000, p * 64 + (q * 16 + r), s * 0x100 + u * 64 + v);
    DivMod(p * 64 + (q * 16 + r), 64, p, q * 16 + r);
    DivMod(n, 64, (p * 64 + (q * 16 + r)) * 64 + (s * 4 + u), v);
    DivMod((p * 64 + (q * 16 + r)) * 64 + (s * 4 + u), 64, p * 64 + (q * 16 + r), s * 4 + u);
  }

  // ---- theorems ----------------------------------------------------------------

  lemma TakeChar(a: Acc, v: nat)
    requires AccOk(a) && a.Acc? && v < 64
    ensures var buf := Push6(a.buf, v);
            Take(a, CharOf(v)) ==
              if a.bits + 6 >= 8 then Acc(a.out + [ByteAbove(buf, a.bits - 2)], buf, a.bits - 2)
              else Acc(a.out, buf, a.bits + 6)
  {
    hide Push6, ByteAbove;
  }

  lemma Cut(p: nat, q: nat, r: nat, s: nat, u: nat, v: nat)
    requires p < 64 && q < 4 && r < 16 && s < 16 && u < 4 && v < 64
    ensures (p * 64 + (q * 16 + r)) / 16 == p * 4 + q
    ensures ((q * 16 + r) * 64 + (s * 4 + u)) % 1024 / 4 == r * 16 + s
    ensures ((s * 4 + u) * 64 + v) % 256 == u * 64 + v
  {
    DivMod(p * 64 + (q * 16 + r), 16, p * 4 + q, r);
    DivMod((q * 16 + r) * 64 + (s * 4 + u), 1024, q, r * 64 + s * 4 + u);
    DivMod(r * 64 + s * 4 + u, 4, r * 16 + s, u);
    DivMod((s * 4 + u) * 64 + v, 256, s, u * 64 + v);
  }

  /** The bytes the decoder cuts out of the accumulator are the bytes that were packed. */
  lemma CutBytes(buf: nat, p: nat, q: nat, r: nat, s: nat, u: nat, v: nat)
    requires buf < WORD && p < 64 && q < 4 && r < 16 && s < 16 && u < 4 && v < 64
    ensures var b2 := Push6(Push6(buf, p), q * 16 + r);
            var b3 := Push6(b2, s * 4 + u);
            && ByteAbove(b2, 4) == p * 4 + q
            && ByteAbove(b3, 2) == r * 16 + s
            && ByteAbove(Push6(b3, v), 0) == u * 64 + v
  {
    hide Push6, ByteAbove;
    Cut(p, q, r, s, u, v);
  }

  /** The characters of a chunk of n bytes a, b, c (b and c zero when absent). */
  function Chars(n: nat, a: int, b: int, c: int): (e: Bytes)
    requires 0 <= a < 256 && 0 <= b < 256 && 0 <= c < 256
    ensures |e| == 4
  {
    [CharOf(a / 4), CharOf(a % 4 * 16 + b / 16),
     if n > 1 then CharOf(b % 16 * 4 + c / 64) else 61,
     if n > 2 then CharOf(c % 64) else 61]
  }

  lemma ChunkChars(c: Bytes)
    requires 1 <= |c| <= 3
    ensures EncodeChunk(c) == Chars(|c|, c[0], if |c| > 1 then c[1] else 0, if |c| > 2 then c[2] else 0)
  {
    hide CharOf, Packed;
    SixBits(c[0], if |c| > 1 then c[1] else 0, if |c| > 2 then c[2] else 0);
  }

  /** The decoder over one chunk's characters, the bits of its bytes given in six pieces. */
  lemma PiecesTaken(out: Bytes, buf: nat, n: nat, p: nat, q: nat, r: nat, s: nat, u: nat, v: nat)
    requires buf < WORD && 1 <= n <= 3
    requires p < 64 && q < 4 && r < 16 && s < 16 && u < 4 && v < 64
    ensures var a0 := Acc(out, buf, 0);
            var a2 := Take(Take(a0, CharOf(p)), CharOf(q * 16 + r));
            var t := Take(Take(a2, if n > 1 then CharOf(s * 4 + u) else 61), if n > 2 then CharOf(v) else 61);
            && t.Acc? && (n == 3 ==> t.bits == 0)
            && t.out == if n == 1 then out + [p * 4 + q]
                        else if n == 2 then out + [p * 4 + q] + [r * 16 + s]
                        else out + [p * 4 + q] + [r * 16 + s] + [u * 64 + v]
  {
    hide Take, CharOf, Push6, ByteAbove;
    CutBytes(buf, p, q, r, s, u, v);
    TwoTakes(out, buf, p, q * 16 + r);
    LastTwo(out + [p * 4 + q], Push6(Push6(buf, p), q * 16 + r), n, s * 4 + u, v);
  }

  lemma CharsTaken(out: Bytes, buf: nat, n: nat, a: int, b: int, c: int)
    requires buf < WORD && 1 <= n <= 3
    requires 0 <= a < 256 && 0 <= b < 256 && 0 <= c < 256
    ensures var r := TakeAll(Acc(out, buf, 0), Chars(n, a, b, c));
            && r.Acc? && (n == 3 ==> r.bits == 0)
            && r.out == if n == 1 then out + [a] else if n == 2 then out + [a] + [b] else out + [a] + [b] + [c]
  {
    hide TakeAll, Take, CharOf, Push6, ByteAbove;
    Unrolled(Acc(out, buf, 0), Chars(n, a, b, c));
    PiecesTaken(out, buf, n, a / 4, a % 4, b / 16, b % 16, c / 64, c % 64);
  }

  /** Whatever an earlier chunk left in the accumulator, the characters of a chunk give back
      its bytes, and a full chunk leaves no bits over. */
  lemma ChunkRoundTrip(out: Bytes, buf: nat, c: Bytes)
    requires buf < WORD && 1 <= |c| <= 3
    ensures var r := TakeAll(Acc(out, buf, 0), EncodeChunk(c));
            r.Acc? && r.out == out + c && (|c| == 3 ==> r.bits == 0)
  {
    hide EncodeChunk, TakeAll, Chars;
    ChunkChars(c);
    CharsTaken(out, buf, |c|, c[0], if |c| > 1 then c[1] else 0, if |c| > 2 then c[2] else 0);
    assert |c| == 1 ==> out + c == out + [c[0]];
    assert |c| == 2 ==> out + c == out + [c[0]] + [c[1]];
    assert |c| == 3 ==> out + c == out + [c[0]] + [c[1]] + [c[2]];
  }

  /** The last two characters of a chunk of n bytes; padding when n is less than 3. */
  lemma LastTwo(out: Bytes, buf: nat, n: nat, v2: nat, v3: nat)
    requires buf < WORD && 1 <= n <= 3 && v2 < 64 && v3 < 64
    ensures var b3 := Push6(buf, v2);
            var b4 := Push6(b3, v3);
            Take(Take(Acc(out, buf, 4), if n > 1 then CharOf(v2) else 61), if n > 2 then CharOf(v3) else 61)
            == if n == 1 then Acc(out, buf, 4)
               else if n == 2 then Acc(out + [ByteAbove(b3, 2)], b3, 2)
               else Acc(out + [ByteAbove(b3, 2)] + [ByteAbove(b4, 0)], b4, 0)
  {
    hide Take, CharOf, Push6, ByteAbove;
    var a2 := Acc(out, buf, 4);
    if n == 1 {
      SkipsPadding(a2);
    } else {
      TakeChar(a2, v2);
      var a3 := Acc(out + [ByteAbove(Push6(buf, v2), 2)], Push6(buf, v2), 2);
      if n == 2 {
        SkipsPadding(a3);
      } else {
        TakeChar(a3, v3);
      }
    }
  }

  lemma TwoTakes(out: Bytes, buf: nat, v0: nat, v1: nat)
    requires buf < WORD && v0 < 64 && v1 < 64
    ensures var b2 := Push6(Push6(buf, v0), v1);
            Take(Take(Acc(out, buf, 0), CharOf(v0)), CharOf(v1)) == Acc(out + [ByteAbove(b2, 4)], b2, 4)
  {
    hide Take, CharOf, Push6, ByteAbove;
    TakeChar(Acc(out, buf, 0), v0);
    TakeChar(Acc(out, Push6(buf, v0), 6), v1);
  }

  lemma SkipsPadding(a: Acc)
    requires AccOk(a)
    ensures Take(a, 61) == a
  {
  }

  lemma Unrolled(a: Acc, e: Bytes)
    requires AccOk(a) && |e| == 4
    ensures TakeAll(a, e) == Take(Take(Take(Take(a, e[0]), e[1]), e[2]), e[3])
  {
    assert e[..3][..2] == e[..2] && e[..2][..1] == e[..1] && e[..1][..0] == [];
    assert TakeAll(a, e[..1]) == Take(a, e[0]);
    assert TakeAll(a, e[..2]) == Take(Take(a, e[0]), e[1]);
    assert TakeAll(a, e[..3]) == Take(Take(Take(a, e[0]), e[1]), e[2]);
  }

  lemma {:induction false} RoundTripFrom(out: Bytes, buf: nat, data: Bytes)
    requires buf < WORD
    ensures var r := TakeAll(Acc(out, buf, 0), Encoded(data)); r.Acc? && r.out == out + data
    decreases |data|
  {
    hide EncodeChunk, Take, TakeAll;
    var a := Acc(out, buf, 0);
    if data == [] {
      NothingTaken(a);
      assert out + data == out;
    } else if |data| <= 3 {
      ChunkRoundTrip(out, buf, data);
    } else {
      var c, rest := data[..3], data[3..];
      ChunkRoundTrip(out, buf, c);
      var mid := TakeAll(a, EncodeChunk(c));
      TakeAppend(a, EncodeChunk(c), Encoded(rest));
      RoundTripFrom(mid.out, mid.buf, rest);
      assert out + data == out + c + rest;
    }
  }

  lemma NothingTaken(a: Acc)
    requires AccOk(a)
    ensures TakeAll(a, []) == a
  {
  }

  /** Decoding undoes encoding for every byte string. */
  lemma RoundTrip(data: Bytes)
    ensures Decoded(Encoded(data)) == Some(data)
  {
    RoundTripFrom([], 0, data);
    assert [] + data == data;
  }

  predicate AllSkipped(w: Bytes) {
    forall i :: 0 <= i < |w| ==> IsSkipped(w[i])
  }

  lemma {:induction false} SkippedChangesNothing(a: Acc, w: Bytes)
    requires AccOk(a) && AllSkipped(w)
    ensures TakeAll(a, w) == a
  {
    if w != [] {
      SkippedChangesNothing(a, w[..|w| - 1]);
    }
  }

  /** White space or padding inserted anywhere changes nothing, for every input. */
  lemma InsertSkipped(s: Bytes, w: Bytes, t: Bytes)
    requires AllSkipped(w)
    ensures Decoded(s + w + t) == Decoded(s + t)
  {
    TakeAppend(START, s + w, t);
    TakeAppend(START, s, w);
    TakeAppend(START, s, t);
    SkippedChangesNothing(TakeAll(START, s), w);
  }

  predicate Plain(s: Bytes) {
    forall i :: 0 <= i < |s| ==> IsSkipped(s[i]) || SixOf(s[i]).Some?
  }

  /** Decoding fails exactly on strings with a character outside the alphabet. */
  lemma {:induction false} DecodesExactlyPlain(a: Acc, s: Bytes)
    requires AccOk(a) && a.Acc?
    ensures TakeAll(a, s).Acc? <==> Plain(s)
  {
    if s != [] {
      DecodesExactlyPlain(a, s[..|s| - 1]);
      assert s == s[..|s| - 1] + [s[|s| - 1]];
    }
  }

  /** The alphabet of table 1 of RFC 4648: A to Z, a to z, 0 to 9, + and /. */
  lemma Alphabet(v: nat)
    requires v < 64
    ensures v < 26 ==> CharOf(v) == 65 + v
    ensures 26 <= v < 52 ==> CharOf(v) == 97 + v - 26
    ensures 52 <= v < 62 ==> CharOf(v) == 48 + v - 52
    ensures CharOf(62) == 43 && CharOf(63) == 47
  {
  }
}
