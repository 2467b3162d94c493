/** The Base64 codec in ASCII codes: the two alphabets, the padding, and groups as numbers of
    24 bits. */
module Base64Tables {
  import opened Bytes
  import opened Base64

  /** Table 1 of RFC 4648, and the last two letters of table 2. */
  const CAPITALS: bytes :=
    [65, 66, 67, 68, 69, 70, 71, 72, 73, 74, 75, 76, 77, 78, 79, 80, 81, 82, 83, 84, 85, 86, 87, 88, 89, 90]
  const SMALL: bytes :=
    [97, 98, 99, 100, 101, 102, 103, 104, 105, 106, 107, 108, 109, 110, 111, 112, 113, 114, 115, 116, 117, 118, 119,
     120, 121, 122]
  const DIGITS: bytes := [48, 49, 50, 51, 52, 53, 54, 55, 56, 57]
  const ALPHABET: bytes := CAPITALS + SMALL + DIGITS + [43, 47]
  const URI_ALPHABET: bytes := CAPITALS + SMALL + DIGITS + [45, 95]

  lemma TablesAt(k: nat)
    ensures k < 26 ==> CAPITALS[k] == 65 + k && SMALL[k] == 97 + k
    ensures k < 10 ==> DIGITS[k] == 48 + k
  {
  }

  lemma AlphabetAt(k: nat)
    requires k < 64
    ensures |ALPHABET| == |URI_ALPHABET| == 64
    ensures ALPHABET[k] == if k < 26 then CAPITALS[k] else if k < 52 then SMALL[k - 26]
                           else if k < 62 then DIGITS[k - 52] else if k == 62 then 43 else 47
    ensures URI_ALPHABET[k] == if k < 62 then ALPHABET[k] else if k == 62 then 45 else 95
  {
  }

  lemma Alphabets(v: sextet)
    ensures |ALPHABET| == |URI_ALPHABET| == 64
    ensures Letter(v, false) == ALPHABET[v] && Letter(v, true) == URI_ALPHABET[v]
  {
    AlphabetAt(v);
    TablesAt(v);
    if 26 <= v < 52 {
      TablesAt(v - 26);
    } else if 52 <= v < 62 {
      TablesAt(v - 52);
    }
  }

  /** The decoder reads both alphabets, and a blank as the plus; nothing else is a letter. */
  lemma DecoderKnows(c: byte, v: sextet)
    ensures |ALPHABET| == |URI_ALPHABET| == 64
    ensures Value(c) == v <==> c == ALPHABET[v] || c == URI_ALPHABET[v] || (c == 32 && v == 62)
  {
    Alphabets(v);
  }

  /** The letters of three bytes, from the number they make up. */
  function Letters(n: nat, isURI: bool): bytes
    requires n < 0x100_0000
  {
    [Letter(n / 262144, isURI), Letter(n / 4096 % 64, isURI), Letter(n / 64 % 64, isURI), Letter(n % 64, isURI)]
  }

  lemma WholeGroup(a: byte, b: byte, c: byte, n: nat, isURI: bool, isPadding: bool)
    requires n == a * 65536 + b * 256 + c
    ensures Encode([a, b, c], isURI, isPadding) == Letters(n, isURI)
  {
    GroupIsNumber(a, b, c, n, isURI, isPadding);
    EncodeOne([a, b, c], isURI, isPadding);
  }

  lemma EncodeOne(g: bytes, isURI: bool, isPadding: bool)
    requires 1 <= |g| <= 3
    ensures Encode(g, isURI, isPadding) == EncodeGroup(g, isURI, isPadding)
  {
    assert Head(g) == g && g[|g|..] == [];
    assert Encode([], isURI, isPadding) == [];
  }

  /** Two bytes make three letters, and are padded with one equals sign. */
  lemma TwoBytes(a: byte, b: byte, n: nat, isURI: bool)
    requires n == a * 65536 + b * 256
    ensures Encode([a, b], isURI, true) == Letters(n, isURI)[..3] + [61]
    ensures Encode([a, b], isURI, false) == Letters(n, isURI)[..3]
  {
    GroupIsNumber(a, b, 0, n, isURI, true);
    EncodeOne([a, b], isURI, true);
    EncodeOne([a, b], isURI, false);
  }

  /** One byte makes two, and is padded with two. */
  lemma OneByte(a: byte, n: nat, isURI: bool)
    requires n == a * 65536
    ensures Encode([a], isURI, true) == Letters(n, isURI)[..2] + [61, 61]
    ensures Encode([a], isURI, false) == Letters(n, isURI)[..2]
  {
    GroupIsNumber(a, 0, 0, n, isURI, true);
    EncodeOne([a], isURI, true);
    EncodeOne([a], isURI, false);
  }

  /** Group by group. */
  lemma EncodeMore(a: byte, b: byte, c: byte, t: bytes, isURI: bool, isPadding: bool)
    ensures Encode([a, b, c] + t, isURI, isPadding) ==
            Encode([a, b, c], isURI, isPadding) + Encode(t, isURI, isPadding)
  {
    var s := [a, b, c] + t;
    EncodeOne([a, b, c], isURI, isPadding);
    assert Head(s) == [a, b, c] && s[3..] == t;
  }

  // ---------------------------------------------------------------- decoding

  /** The number that the values of four letters make up, and its three bytes. */
  lemma NumberBytes(p: sextet, q: sextet, r: sextet, s: sextet, n: nat)
    requires n == p * 262144 + q * 4096 + r * 64 + s
    ensures n / 65536 == Byte0(p, q) && n / 256 % 256 == Byte1(q, r) && n % 256 == Byte2(r, s)
  {
    assert q * 4096 == q / 16 * 65536 + q % 16 * 4096;
    assert r * 64 == r / 4 * 256 + r % 4 * 64;
    assert n == (p * 4 + q / 16) * 65536 + (q % 16 * 16 + r / 4) * 256 + (r % 4 * 64 + s);
    Split(p * 4 + q / 16, q % 16 * 16 + r / 4, r % 4 * 64 + s, n);
  }

  lemma Split(a: byte, b: byte, c: byte, n: nat)
    requires n == a * 65536 + b * 256 + c
    ensures n / 65536 == a && n / 256 % 256 == b && n % 256 == c
  {
    assert n / 256 == a * 256 + b;
    assert n / 65536 == a;
  }

  /** Four bytes of input, by the values of those that are letters: the leading bytes of the number,
      whatever the bits that are left over. */
  lemma DecodeFour(e: bytes, t: bytes, p: sextet, q: sextet, r: sextet, s: sextet, n: nat)
    requires |e| == 4 && Value(e[0]) == p && Value(e[1]) == q && n == p * 262144 + q * 4096 + r * 64 + s
    ensures Value(e[2]) == r && Value(e[3]) == s ==>
              Decode(e + t) == [n / 65536, n / 256 % 256, n % 256] + Decode(t)
    ensures Value(e[2]) == r && Value(e[3]) == -1 ==>
              Decode(e + t) == [n / 65536, n / 256 % 256] + Decode(t)
    ensures Value(e[2]) == -1 ==> Decode(e + t) == [n / 65536] + Decode(t)
  {
    NumberBytes(p, q, r, s, n);
    DecodeStep(e, t);
  }

  /** A group that does not start with two letters yields nothing. */
  lemma DecodeNone(e: bytes, t: bytes)
    requires |e| == 4 && (Value(e[0]) == -1 || Value(e[1]) == -1)
    ensures Decode(e + t) == Decode(t)
  {
    DecodeStep(e, t);
    assert [] + Decode(t) == Decode(t);
  }

  /** An input that ends within a group decodes as if it were padded. */
  lemma DecodeCut(e: bytes)
    ensures |e| < 2 ==> Decode(e) == []
    ensures |e| == 2 ==> Decode(e) == Decode(e + [61, 61])
    ensures |e| == 3 ==> Decode(e) == Decode(e + [61])
  {
    if |e| == 2 {
      var f := e + [61, 61];
      assert f + [] == f;
      DecodeStep(f, []);
    } else if |e| == 3 {
      var f := e + [61];
      assert f + [] == f;
      DecodeStep(f, []);
    }
  }
}
