/** What lossy decoding makes of any bytes: where a scalar's encoding stands it is that scalar, and
    elsewhere U+FFFD stands for the longest part that could have begun one (section 3.9 of the
    Unicode Standard). */
module Malformed {
  import opened Cells
  import opened Text
  import Sequences

  /** Some scalar's encoding starts with these bytes. */
  ghost predicate Begins(p: Bytes) { exists cp: nat :: IsScalar(cp) && p <= EncodeScalar(cp) }

  /** Some scalar's encoding stands at the front. */
  ghost predicate Stands(b: Bytes) { exists cp: nat :: IsScalar(cp) && EncodeScalar(cp) <= b }

  /** The bytes an encoding can have, by its length. */
  lemma Shape(cp: nat)
    requires IsScalar(cp)
    ensures var e := EncodeScalar(cp);
            && (|e| == 1 ==> e[0] < 0x80)
            && (|e| == 2 ==> 0xC2 <= e[0] <= 0xDF && IsCont(e[1]))
            && (|e| == 3 ==> 0xE0 <= e[0] <= 0xEF && SecondOk(e[0], e[1]) && IsCont(e[2]))
            && (|e| == 4 ==> 0xF0 <= e[0] <= 0xF4 && SecondOk(e[0], e[1]) && IsCont(e[2]) && IsCont(e[3]))
  {
    if cp >= 0x1_0000 {
      FourShape(cp / 0x4_0000, cp / 4096 % 64, cp);
    } else if cp >= 0x800 {
      ThreeShape(cp / 4096, cp / 64 % 64, cp);
    }
  }

  lemma ThreeShape(p: nat, q: nat, cp: nat)
    requires 0x800 <= cp < 0x1_0000 && IsScalar(cp) && p == cp / 4096 && q == cp / 64 % 64
    ensures p <= 15 && (p == 0 ==> q >= 32) && (p == 13 ==> q < 32)
  {
    DivMod(cp / 64, 64, p, q);
  }

  lemma FourShape(p: nat, q: nat, cp: nat)
    requires 0x1_0000 <= cp < 0x11_0000 && p == cp / 0x4_0000 && q == cp / 4096 % 64
    ensures p <= 4 && (p == 0 ==> q >= 16) && (p == 4 ==> q < 16)
  {
    DivMod(cp / 4096, 64, p, q);
  }

  /** The encodings of three and four bytes, by their parts. */
  lemma ThreeEncoded(p: nat, q: nat, r: nat)
    requires p < 16 && q < 64 && r < 64 && (p == 0 ==> q >= 32) && (p == 13 ==> q < 32)
    ensures var cp := p * 4096 + q * 64 + r;
            IsScalar(cp) && EncodeScalar(cp) == [0xE0 + p, 0x80 + q, 0x80 + r]
  {
    var cp := p * 4096 + q * 64 + r;
    DivMod(cp, 64, p * 64 + q, r);
    DivMod(p * 64 + q, 64, p, q);
    DivMod(cp, 4096, p, q * 64 + r);
  }

  lemma FourEncoded(p: nat, q: nat, r: nat, s: nat)
    requires p < 5 && q < 64 && r < 64 && s < 64 && (p == 0 ==> q >= 16) && (p == 4 ==> q < 16)
    ensures var cp := p * 0x4_0000 + q * 4096 + r * 64 + s;
            IsScalar(cp) && EncodeScalar(cp) == [0xF0 + p, 0x80 + q, 0x80 + r, 0x80 + s]
  {
    var cp := p * 0x4_0000 + q * 4096 + r * 64 + s;
    DivMod(cp, 64, p * 4096 + q * 64 + r, s);
    DivMod(p * 4096 + q * 64 + r, 64, p * 64 + q, r);
    DivMod(cp, 4096, p * 64 + q, r * 64 + s);
    DivMod(p * 64 + q, 64, p, q);
    DivMod(cp, 0x4_0000, p, q * 4096 + r * 64 + s);
  }

  /** Bytes that fit together begin an encoding. */
  lemma ThreeBegin(a: byte, b: byte)
    requires 0xE0 <= a <= 0xEF && SecondOk(a, b)
    ensures Begins([a, b])
  {
    ThreeEncoded(a - 0xE0, b - 0x80, 0);
    var cp: nat := (a - 0xE0) as int * 4096 + (b - 0x80) as int * 64;
    hide EncodeScalar;
    assert [a, b] <= EncodeScalar(cp);
  }

  lemma FourBegin(a: byte, b: byte, c: byte)
    requires 0xF0 <= a <= 0xF4 && SecondOk(a, b) && IsCont(c)
    ensures Begins([a, b]) && Begins([a, b, c])
  {
    FourEncoded(a - 0xF0, b - 0x80, c - 0x80, 0);
    var cp: nat := (a - 0xF0) as int * 0x4_0000 + (b - 0x80) as int * 4096 + (c - 0x80) as int * 64;
    hide EncodeScalar;
    assert [a, b] <= EncodeScalar(cp) && [a, b, c] <= EncodeScalar(cp);
  }

  lemma DecodedTwo(b: Bytes)
    requires |b| >= 2 && 0xC2 <= b[0] <= 0xDF && IsCont(b[1])
    ensures var (cp, n) := FirstScalar(b); IsScalar(cp) && EncodeScalar(cp) == b[..2] && n == 2
  {
    var p: int, q: int := b[0] - 0xC0, b[1] - 0x80;
    DivMod(p * 64 + q, 64, p, q);
  }

  lemma DecodedThree(b: Bytes)
    requires |b| >= 3 && 0xE0 <= b[0] <= 0xEF && SecondOk(b[0], b[1]) && IsCont(b[2])
    ensures var (cp, n) := FirstScalar(b); IsScalar(cp) && EncodeScalar(cp) == b[..3] && n == 3
  {
    ThreeEncoded(b[0] - 0xE0, b[1] - 0x80, b[2] - 0x80);
    ThreeParts(b);
    hide EncodeScalar, FirstScalar;
    assert b[..3] == [b[0], b[1], b[2]];
  }

  lemma ThreeParts(b: Bytes)
    requires |b| >= 3 && 0xE0 <= b[0] <= 0xEF && SecondOk(b[0], b[1]) && IsCont(b[2])
    ensures var (p, q, r) := (b[0] as int - 0xE0, b[1] as int - 0x80, b[2] as int - 0x80);
            FirstScalar(b) == (p * 4096 + q * 64 + r, 3)
  {
  }

  lemma DecodedFour(b: Bytes)
    requires |b| >= 4 && 0xF0 <= b[0] <= 0xF4 && SecondOk(b[0], b[1]) && IsCont(b[2]) && IsCont(b[3])
    ensures var (cp, n) := FirstScalar(b); IsScalar(cp) && EncodeScalar(cp) == b[..4] && n == 4
  {
    FourEncoded(b[0] - 0xF0, b[1] - 0x80, b[2] - 0x80, b[3] - 0x80);
    FourParts(b);
    hide EncodeScalar, FirstScalar;
    assert b[..4] == [b[0], b[1], b[2], b[3]];
  }

  lemma FourParts(b: Bytes)
    requires |b| >= 4 && 0xF0 <= b[0] <= 0xF4 && SecondOk(b[0], b[1]) && IsCont(b[2]) && IsCont(b[3])
    ensures var (p, q, r, s) := (b[0] as int - 0xF0, b[1] as int - 0x80, b[2] as int - 0x80, b[3] as int - 0x80);
            FirstScalar(b) == (p * 0x4_0000 + q * 4096 + r * 64 + s, 4)
  {
  }

  /** Whatever is not a replacement for a broken part is an encoding that stands there. */
  lemma Decoded(b: Bytes)
    requires b != []
    ensures var (cp, n) := FirstScalar(b);
            (EncodeScalar(cp) == b[..n]) || (cp == REPLACEMENT && n <= 3 && Broken(b, n))
  {
    if b[0] < 0x80 {
      assert b[..1] == [b[0]];
    } else if 0xC2 <= b[0] <= 0xDF && |b| >= 2 && IsCont(b[1]) {
      DecodedTwo(b);
    } else if 0xE0 <= b[0] <= 0xEF && |b| >= 3 && SecondOk(b[0], b[1]) && IsCont(b[2]) {
      DecodedThree(b);
    } else if 0xF0 <= b[0] <= 0xF4 && |b| >= 4 && SecondOk(b[0], b[1]) && IsCont(b[2]) && IsCont(b[3]) {
      DecodedFour(b);
    }
    hide EncodeScalar;
  }

  /** The first n bytes fit together, or are one that does not, and the next one does not fit. */
  predicate Broken(b: Bytes, n: nat)
    requires b != []
  {
    var three, four := 0xE0 <= b[0] <= 0xEF, 0xF0 <= b[0] <= 0xF4;
    && 1 <= n <= |b| && b[0] >= 0x80
    && (n == 1 ==> |b| == 1 || !(if three || four then SecondOk(b[0], b[1]) else 0xC2 <= b[0] <= 0xDF && IsCont(b[1])))
    && (n == 2 ==> (three || four) && SecondOk(b[0], b[1]) && (|b| == 2 || !IsCont(b[2])))
    && (n == 3 ==> four && SecondOk(b[0], b[1]) && IsCont(b[2]) && (|b| == 3 || !IsCont(b[3])))
  }

  lemma BrokenBegins(b: Bytes, n: nat)
    requires b != [] && n <= 3 && Broken(b, n)
    ensures n == 1 || Begins(b[..n])
  {
    if n == 2 {
      assert b[..2] == [b[0], b[1]];
      if b[0] <= 0xEF { ThreeBegin(b[0], b[1]); } else { FourBegin(b[0], b[1], 0x80); }
    } else if n == 3 {
      assert b[..3] == [b[0], b[1], b[2]];
      FourBegin(b[0], b[1], b[2]);
    }
  }

  lemma BrokenEnds(b: Bytes, n: nat)
    requires b != [] && n <= 3 && Broken(b, n) && n < |b|
    ensures !Begins(b[..n + 1])
  {
    forall cp: nat | IsScalar(cp) ensures !(b[..n + 1] <= EncodeScalar(cp)) {
      Shape(cp);
      hide EncodeScalar;
    }
  }

  lemma ThenStands(b: Bytes, cp: nat, n: nat)
    requires IsScalar(cp) && n <= |b| && EncodeScalar(cp) == b[..n]
    ensures Stands(b)
  {
    assert EncodeScalar(cp) <= b;
  }

  /** The first scalar of any bytes: the one whose encoding stands at the front, taking that; and where
      none does, U+FFFD for the longest part that begins one, or for a single byte. */
  lemma FirstMeans(b: Bytes)
    requires b != []
    ensures var (cp, n) := FirstScalar(b);
            if Stands(b) then EncodeScalar(cp) == b[..n]
            else cp == REPLACEMENT && (n == 1 || Begins(b[..n])) && (n < |b| ==> !Begins(b[..n + 1]))
  {
    var (cp, n) := FirstScalar(b);
    if Stands(b) {
      var c: nat :| IsScalar(c) && EncodeScalar(c) <= b;
      var e := EncodeScalar(c);
      assert b == e + b[|e|..];
      Sequences.FirstOfEncoded(c, b[|e|..]);
    } else {
      Decoded(b);
      if EncodeScalar(cp) == b[..n] { ThenStands(b, cp, n); }
      BrokenBegins(b, n);
      if n < |b| { BrokenEnds(b, n); }
    }
  }
}
