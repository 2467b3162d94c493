/** The backslash codec in ASCII codes: which bytes are escaped and how, and what each escape
    yields. */
module EscapeTables {
  import opened Bytes
  import opened Escape

  // ---------------------------------------------------------------- encoding

  /** The bytes that are escaped, and what follows the backslash. */
  const ESCAPED: seq<(byte, byte)> :=
    [(0, 48), (7, 97), (8, 98), (9, 116), (10, 110), (11, 118), (12, 102), (13, 114), (32, 32), (34, 34), (39, 39),
     (92, 92)]

  lemma EncodeOne(c: byte)
    ensures Encode([c]) == EncodeByte(c)
  {
    assert [c][1..] == [];
    assert Encode([c]) == EncodeByte(c) + [];
  }

  lemma EscapedSays(k: nat)
    requires k < |ESCAPED|
    ensures Encode([ESCAPED[k].0]) == [92, ESCAPED[k].1]
  {
    EncodeOne(ESCAPED[k].0);
  }

  /** All others are copied. */
  lemma CopiedSays(c: byte)
    requires forall k :: 0 <= k < |ESCAPED| ==> c != ESCAPED[k].0
    ensures Encode([c]) == [c]
  {
    EncodeOne(c);
    assert c != ESCAPED[0].0 && c != ESCAPED[1].0 && c != ESCAPED[2].0 && c != ESCAPED[3].0;
    assert c != ESCAPED[4].0 && c != ESCAPED[5].0 && c != ESCAPED[6].0 && c != ESCAPED[7].0;
    assert c != ESCAPED[8].0 && c != ESCAPED[9].0 && c != ESCAPED[10].0 && c != ESCAPED[11].0;
  }

  /** Byte by byte. */
  lemma {:induction false} EncodeJoins(s: bytes, t: bytes)
    ensures Encode(s + t) == Encode(s) + Encode(t)
    decreases |s|
  {
    if s == [] {
      assert s + t == t;
    } else {
      EncodeJoins(s[1..], t);
      assert (s + t)[1..] == s[1..] + t;
      Assoc(EncodeByte(s[0]), Encode(s[1..]), Encode(t));
    }
  }

  // ---------------------------------------------------------------- decoding

  lemma PlainSays(c: byte, t: bytes)
    requires c != 92
    ensures Decode([c] + t) == [c] + Decode(t)
  {
    assert ([c] + t)[1..] == t;
  }

  /** A backslash at the very end is dropped. */
  lemma LoneBackslash()
    ensures Decode([92]) == []
  {
    assert [92 as byte][1..] == [];
  }

  lemma Yields(c: byte, s: bytes, out: bytes, k: nat, rest: bytes)
    requires k <= |s| && Escape.Escaped(c, s) == Piece(out, k) && rest == s[k..]
    ensures Decode([92, c] + s) == out + Decode(rest)
  {
    var e := [92, c] + s;
    assert e[2..] == s;
    DropMore([92, c], s, k);
    assert FirstPiece(e) == Piece(out, 2 + k);
  }

  /** The letters for control characters. */
  const CONTROLS: seq<(byte, byte)> := [(97, 7), (98, 8), (116, 9), (110, 10), (118, 11), (102, 12), (114, 13)]

  lemma ControlSays(k: nat, t: bytes)
    requires k < |CONTROLS|
    ensures Decode([92, CONTROLS[k].0] + t) == [CONTROLS[k].1] + Decode(t)
  {
    Yields(CONTROLS[k].0, t, [CONTROLS[k].1], 0, t);
  }

  /** Every byte that starts no escape stands for itself. */
  lemma SelfSays(c: byte, t: bytes)
    requires !(48 <= c <= 55) && c !in {85, 88, 97, 98, 102, 110, 114, 116, 117, 118, 120}
    ensures Decode([92, c] + t) == [c] + Decode(t)
  {
    Yields(c, t, [c], 0, t);
  }

  predicate OctalDigit(c: byte) { 48 <= c <= 55 }

  lemma NoMoreOctal(t: bytes, num: nat, size: nat)
    requires size >= 3 || t == [] || !OctalDigit(t[0])
    ensures OctalRest(t, num, size) == Piece([num % 256], 0)
  {
  }

  lemma OneOctal(c: byte, t: bytes)
    requires OctalDigit(c) && (t == [] || !OctalDigit(t[0]))
    ensures Decode([92, c] + t) == [c - 48] + Decode(t)
  {
    NoMoreOctal(t, c - 48, 1);
    Yields(c, t, [c - 48], 0, t);
  }

  lemma SecondDigit(c: byte, d: byte, t: bytes, n: byte)
    requires OctalDigit(c) && OctalDigit(d) && (t == [] || !OctalDigit(t[0]))
    requires n == (c - 48) * 8 + (d - 48)
    ensures Escape.Escaped(c, [d] + t) == Piece([n], 1) && ([d] + t)[1..] == t
  {
    OctalStep(d, t, c - 48, 1);
    NoMoreOctal(t, n, 2);
  }

  lemma TwoOctal(c: byte, d: byte, t: bytes, n: byte)
    requires OctalDigit(c) && OctalDigit(d) && (t == [] || !OctalDigit(t[0]))
    requires n == (c - 48) * 8 + (d - 48)
    ensures Decode([92, c] + ([d] + t)) == [n] + Decode(t)
  {
    SecondDigit(c, d, t, n);
    Yields(c, [d] + t, [n], 1, t);
  }

  lemma ThirdDigit(c: byte, d: byte, e: byte, t: bytes, n: nat)
    requires OctalDigit(c) && OctalDigit(d) && OctalDigit(e)
    requires n == (c - 48) * 64 + (d - 48) * 8 + (e - 48)
    ensures Escape.Escaped(c, [d] + ([e] + t)) == Piece([n % 256], 2) && ([d] + ([e] + t))[2..] == t
  {
    OctalStep(d, [e] + t, c - 48, 1);
    OctalStep(e, t, (c - 48) * 8 + (d - 48), 2);
    NoMoreOctal(t, n, 3);
  }

  /** Up to three octal digits, modulo 256. */
  lemma ThreeOctal(c: byte, d: byte, e: byte, t: bytes, n: nat)
    requires OctalDigit(c) && OctalDigit(d) && OctalDigit(e)
    requires n == (c - 48) * 64 + (d - 48) * 8 + (e - 48)
    ensures Decode([92, c] + ([d] + ([e] + t))) == [n % 256] + Decode(t)
  {
    ThirdDigit(c, d, e, t, n);
    Yields(c, [d] + ([e] + t), [n % 256], 2, t);
  }

  const UPPER: bytes := [48, 49, 50, 51, 52, 53, 54, 55, 56, 57, 65, 66, 67, 68, 69, 70]
  const LOWER: bytes := [48, 49, 50, 51, 52, 53, 54, 55, 56, 57, 97, 98, 99, 100, 101, 102]

  /** c is the hexadecimal digit for v. */
  predicate HexDigit(c: byte, v: nat) {
    v < 16 && (c == UPPER[v] || c == LOWER[v])
  }

  lemma HexDigitSays(c: byte, v: nat)
    requires HexDigit(c, v)
    ensures IsHex(c) && HexValue(c) == v
  {
  }

  lemma NoHexDigit(c: byte)
    requires forall v :: 0 <= v < 16 ==> !HexDigit(c, v)
    ensures !IsHex(c)
  {
    if IsHex(c) {
      var v := HexValue(c);
      assert HexDigit(c, v);
      assert false;
    }
  }

  ghost predicate NoDigitFirst(t: bytes) {
    t == [] || forall v :: 0 <= v < 16 ==> !HexDigit(t[0], v)
  }

  /** A hexadecimal escape with two digits, with one and with none. */
  lemma HexPair(x: byte, c: byte, d: byte, v: nat, w: nat, t: bytes)
    requires (x == 88 || x == 120) && HexDigit(c, v) && HexDigit(d, w)
    ensures Decode([92, x] + ([c, d] + t)) == [v * 16 + w] + Decode(t)
  {
    HexDigitSays(c, v);
    HexDigitSays(d, w);
    assert ([c, d] + t)[2..] == t;
    Yields(x, [c, d] + t, [v * 16 + w], 2, t);
  }

  lemma HexSingle(x: byte, c: byte, v: nat, t: bytes)
    requires (x == 88 || x == 120) && HexDigit(c, v) && NoDigitFirst(t)
    ensures Decode([92, x] + ([c] + t)) == [v] + Decode(t)
  {
    HexDigitSays(c, v);
    if t != [] {
      NoHexDigit(t[0]);
    }
    assert ([c] + t)[1..] == t;
    Yields(x, [c] + t, [v], 1, t);
  }

  lemma HexNone(x: byte, t: bytes)
    requires (x == 88 || x == 120) && NoDigitFirst(t)
    ensures Decode([92, x] + t) == [0] + Decode(t)
  {
    if t != [] {
      NoHexDigit(t[0]);
    }
    Yields(x, t, [0], 0, t);
  }

  /** A small u reads up to four digits, a capital one up to eight. */
  lemma UnicodeStarts(s: bytes, p: Piece, q: Piece)
    requires p == UnicodePiece(s, 4) && q == UnicodePiece(s, 8)
    ensures Decode([92, 117] + s) == p.out + Decode(s[p.used..])
    ensures Decode([92, 85] + s) == q.out + Decode(s[q.used..])
  {
    Yields(117, s, p.out, p.used, s[p.used..]);
    Yields(85, s, q.out, q.used, s[q.used..]);
  }

  /** Bit number j of n. */
  predicate Bit(n: nat, j: nat)
    requires j < 8
  {
    n / [1, 2, 4, 8, 16, 32, 64, 128][j] % 2 == 1
  }

  lemma LowBits(h: nat, l: nat, j: nat)
    requires j < 4 && l < 16
    ensures Bit(h * 16 + l, j) <==> Bit(l, j)
  {
    var n := h * 16 + l;
    assert n / 2 == h * 8 + l / 2 && n / 4 == h * 4 + l / 4 && n / 8 == h * 2 + l / 8;
  }

  lemma HighBits(h: nat, l: nat, j: nat)
    requires 4 <= j < 8 && l < 16
    ensures Bit(h * 16 + l, j) <==> Bit(h, j - 4)
  {
    var n := h * 16 + l;
    assert n / 16 == h && n / 32 == h / 2 && n / 64 == h / 4 && n / 128 == h / 8;
  }

  /** A number of which the lowest bit, or the two lowest bits, are set. */
  lemma SetOne(n: nat, j: nat)
    requires n < 16 && j < 4
    ensures Bit(n - n % 2 + 1, j) <==> Bit(n, j) || Bit(1, j)
  {
  }

  lemma SetTwo(n: nat, j: nat)
    requires n < 16 && j < 4
    ensures Bit(n - n % 4 + 3, j) <==> Bit(n, j) || Bit(3, j)
  {
  }

  lemma HighBitsOf(n: nat, c: byte, j: nat)
    requires IsHex(c) && n < 16 && j < 4
    ensures Bit(if c <= 57 then n else if c <= 70 then n - n % 2 + 1 else n - n % 4 + 3, j) <==>
            Bit((c - 48) / 16, j) || Bit(n, j)
  {
    SetOne(n, j);
    SetTwo(n, j);
    assert (c - 48) / 16 == if c <= 57 then 0 else if c <= 70 then 1 else 3;
  }

  /** What the unicode escape makes of a digit, letters included, bit by bit: the bits of the
      number so far, four places up, or those of the digit's code less 48. */
  lemma NibbleBits(num: byte, c: byte, j: nat)
    requires IsHex(c) && j < 8
    ensures Bit(Nibble(num, c), j) <==> Bit(c - 48, j) || (j >= 4 && Bit(num, j - 4))
  {
    var n := num % 16;
    var high := if c <= 57 then n else if c <= 70 then n - n % 2 + 1 else n - n % 4 + 3;
    var h, l := (c - 48) / 16, (c - 48) % 16;
    if j < 4 {
      LowBits(high, l, j);
      LowBits(h, l, j);
    } else {
      HighBits(high, l, j);
      HighBits(h, l, j);
      HighBitsOf(n, c, j - 4);
      LowBits(num / 16, n, j - 4);
    }
  }
}
