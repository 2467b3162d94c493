/** The backslash codec (pw_encode): what decoding makes of an encoded string. */
module Escape {
  import opened Bytes
  import opened Blobs

  const BACKSLASH: byte := 92
  const ZERO: byte := 48

  /** The escape table of the encoder, 0 for a byte that is copied. */
  function EscapeOf(c: byte): byte {
    match c
    case 0 => ZERO
    case 7 => 'a' as byte
    case 8 => 'b' as byte
    case 9 => 't' as byte
    case 10 => 'n' as byte
    case 11 => 'v' as byte
    case 12 => 'f' as byte
    case 13 => 'r' as byte
    case 32 => 32
    case 34 => 34
    case 39 => 39
    case 92 => 92
    case _ => 0
  }

  function EncodeByte(c: byte): bytes {
    if EscapeOf(c) != 0 then [BACKSLASH, EscapeOf(c)] else [c]
  }

  function Encode(s: bytes): bytes {
    if s == [] then [] else EncodeByte(s[0]) + Encode(s[1..])
  }

  // ---------------------------------------------------------------- decoding

  /** What the byte after a backslash starts. */
  datatype Kind = Control | Octal | Hex | Small | Big | Plain

  predicate IsOctal(c: byte) { 48 <= c <= 55 }

  predicate IsHex(c: byte) { 48 <= c <= 57 || 65 <= c <= 70 || 97 <= c <= 102 }

  function KindOf(c: byte): Kind {
    if IsOctal(c) then Octal
    else if c in {97, 98, 102, 110, 114, 116, 118} then Control
    else if c == 88 || c == 120 then Hex
    else if c == 117 then Small
    else if c == 85 then Big
    else Plain
  }

  function ControlOf(c: byte): byte {
    match c
    case 97 => 7
    case 98 => 8
    case 116 => 9
    case 110 => 10
    case 118 => 11
    case 102 => 12
    case 114 => 13
    case _ => c
  }

  /** What a piece of the input yields, and how long the piece is. */
  datatype Piece = Piece(out: bytes, used: nat)

  function After(n: nat, p: Piece): Piece { Piece(p.out, n + p.used) }

  function Before(out: bytes, p: Piece): Piece { Piece(out + p.out, p.used) }

  /** The rest of an octal escape of which `size` digits, worth `num`, have been read. */
  function OctalRest(s: bytes, num: nat, size: nat): (p: Piece)
    ensures p.used <= |s|
  {
    if s == [] || size >= 3 || !IsOctal(s[0]) then Piece([num % 256], 0)
    else After(1, OctalRest(s[1..], num * 8 + (s[0] - 48), size + 1))
  }

  function HexValue(c: byte): byte
    requires IsHex(c)
  {
    if c <= 57 then c - 48 else if c <= 70 then c - 55 else c - 87
  }

  function HexPiece(s: bytes): Piece {
    if s == [] || !IsHex(s[0]) then Piece([0], 0)
    else if |s| > 1 && IsHex(s[1]) then Piece([HexValue(s[0]) * 16 + HexValue(s[1])], 2)
    else Piece([HexValue(s[0])], 1)
  }

  /** num << 4 | c - '0', of which only the low byte is ever used. The code takes '0' off letters
      too, which leaves 17 to 22 or 49 to 54: their fifth and sixth bits fall on those of num. */
  function Nibble(num: byte, c: byte): byte
    requires IsHex(c)
  {
    var n := num % 16;
    var high := if c <= 57 then n else if c <= 70 then n - n % 2 + 1 else n - n % 4 + 3;
    high * 16 + (c - 48) % 16
  }

  /** The rest of a unicode escape from its digit number i, which is c. */
  function UnicodeRest(s: bytes, c: byte, num: byte, i: nat, maxlen: nat): (p: Piece)
    requires IsHex(c)
    ensures p.used <= |s|
    decreases |s|, 1
  {
    if i % 2 == 1 then Before([Nibble(num, c)], UnicodeNext(s, 0, i, maxlen))
    else UnicodeNext(s, Nibble(num, c), i, maxlen)
  }

  /** What comes after digit number i. Where the input ends after a first digit that digit is
      dropped, after a second one a zero byte is added. */
  function UnicodeNext(s: bytes, num: byte, i: nat, maxlen: nat): (p: Piece)
    ensures p.used <= |s|
    decreases |s|, 0
  {
    if s == [] then Piece(if i % 2 == 0 then [] else [num], 0)
    else if i + 1 >= maxlen then Piece(if (i + 1) % 2 == 0 then [] else [num], 0)
    else if !IsHex(s[0]) then Piece([num], 0)
    else After(1, UnicodeRest(s[1..], s[0], num, i + 1, maxlen))
  }

  function UnicodePiece(s: bytes, maxlen: nat): (p: Piece)
    ensures p.used <= |s|
  {
    if s == [] || !IsHex(s[0]) then Piece([0], 0) else After(1, UnicodeRest(s[1..], s[0], 0, 0, maxlen))
  }

  /** What the byte c, which follows a backslash, yields together with what comes after it. */
  function Escaped(c: byte, s: bytes): (p: Piece)
    ensures p.used <= |s|
  {
    match KindOf(c)
    case Control => Piece([ControlOf(c)], 0)
    case Octal => OctalRest(s, (c - 48) as nat, 1)
    case Hex => HexPiece(s)
    case Small => UnicodePiece(s, 4)
    case Big => UnicodePiece(s, 8)
    case Plain => Piece([c], 0)
  }

  function FirstPiece(s: bytes): (p: Piece)
    requires s != []
    ensures 0 < p.used <= |s|
  {
    if s[0] != BACKSLASH then Piece([s[0]], 1)
    else if |s| == 1 then Piece([], 1)
    else After(2, Escaped(s[1], s[2..]))
  }

  function Decode(s: bytes): bytes
    decreases |s|
  {
    if s == [] then [] else FirstPiece(s).out + Decode(s[FirstPiece(s).used..])
  }

  // ---------------------------------------------------------------- what numeric escapes yield

  /** How many hexadecimal digits `s` starts with, up to n. */
  function HexRun(s: bytes, n: nat): (k: nat)
    ensures k <= n && k <= |s| && forall i :: 0 <= i < k ==> IsHex(s[i])
    ensures k < n && k < |s| ==> !IsHex(s[k])
  {
    if n == 0 || s == [] || !IsHex(s[0]) then 0 else 1 + HexRun(s[1..], n - 1)
  }

  predicate AllHex(d: bytes) {
    forall i :: 0 <= i < |d| ==> IsHex(d[i])
  }

  predicate AllDecimal(d: bytes) {
    forall i :: 0 <= i < |d| ==> d[i] <= 57
  }

  /** The bytes that hexadecimal digits denote: two digits to a byte, and a last one by itself. */
  function Denoted(d: bytes): bytes
    requires AllHex(d)
  {
    if d == [] then []
    else if |d| == 1 then [HexValue(d[0])]
    else [HexValue(d[0]) * 16 + HexValue(d[1])] + Denoted(d[2..])
  }

  /** The bytes that the unicode escape makes of its digits, whole pairs of them. */
  function Paired(d: bytes): bytes
    requires AllHex(d)
  {
    if |d| < 2 then [] else [Nibble(Nibble(0, d[0]), d[1])] + Paired(d[2..])
  }

  /** And what it adds behind them: a zero byte where the input ends or the digits do, unless they
      are complete and something follows. A last digit by itself is lost where the input ends. */
  function Trailer(d: bytes, maxlen: nat, atEnd: bool): bytes
    requires AllHex(d) && d != []
  {
    if |d| % 2 == 1 then (if atEnd then [] else [Nibble(0, d[|d| - 1])])
    else if atEnd || |d| < maxlen then [0]
    else []
  }

  /** The core of it: for letters the code takes '0' off where it should take 'A' - 10. */
  lemma NibblePair(c: byte, d: byte)
    requires IsHex(c) && IsHex(d)
    ensures Nibble(Nibble(0, c), d) == HexValue(c) * 16 + HexValue(d) <==> c <= 57 && d <= 57
  {
  }

  lemma NibbleAlone(c: byte)
    requires IsHex(c)
    ensures Nibble(0, c) == HexValue(c) <==> c <= 57
  {
  }

  /** A last digit by itself, as the escape puts it out if the input goes on. */
  function Alone(d: bytes): bytes
    requires AllHex(d)
  {
    if |d| % 2 == 1 then [Nibble(0, d[|d| - 1])] else []
  }

  lemma {:induction false} PairedLength(d: bytes)
    requires AllHex(d)
    ensures |Paired(d)| == |d| / 2 && |Denoted(d)| == (|d| + 1) / 2
    decreases |d|
  {
    if |d| >= 2 {
      PairedLength(d[2..]);
    }
  }

  /** Digits become the bytes they denote if and only if none of them is a letter. */
  lemma {:induction false} PairedDenotes(d: bytes)
    requires AllHex(d)
    ensures Paired(d) + Alone(d) == Denoted(d) <==> AllDecimal(d)
    decreases |d|
  {
    if |d| == 1 {
      NibbleAlone(d[0]);
      assert Paired(d) + Alone(d) == [Nibble(0, d[0])];
    } else if |d| >= 2 {
      PairedDenotes(d[2..]);
      PairMore(d, d[2..]);
    }
  }

  lemma PairMore(d: bytes, rest: bytes)
    requires AllHex(d) && |d| >= 2 && rest == d[2..]
    requires Paired(rest) + Alone(rest) == Denoted(rest) <==> AllDecimal(rest)
    ensures Paired(d) + Alone(d) == Denoted(d) <==> AllDecimal(d)
  {
    var n, m := Nibble(Nibble(0, d[0]), d[1]), HexValue(d[0]) * 16 + HexValue(d[1]);
    NibblePair(d[0], d[1]);
    AloneOfRest(d, rest);
    DecimalMore(d, rest);
    Join(n, Paired(rest), Alone(rest), m, Denoted(rest));
    PairedMore(d, rest);
    DenotedMore(d, rest);
  }

  lemma PairedMore(d: bytes, rest: bytes)
    requires AllHex(d) && |d| >= 2 && rest == d[2..]
    ensures Paired(d) == [Nibble(Nibble(0, d[0]), d[1])] + Paired(rest)
  {
  }

  lemma DenotedMore(d: bytes, rest: bytes)
    requires AllHex(d) && |d| >= 2 && rest == d[2..]
    ensures Denoted(d) == [HexValue(d[0]) * 16 + HexValue(d[1])] + Denoted(rest)
  {
  }

  lemma Join(n: byte, p: bytes, a: bytes, m: byte, t: bytes)
    ensures [n] + p + a == [m] + t <==> n == m && p + a == t
  {
    Assoc([n], p, a);
    SameHead(n, p + a, m, t);
  }

  lemma AloneOfRest(d: bytes, rest: bytes)
    requires AllHex(d) && |d| >= 2 && rest == d[2..]
    ensures Alone(d) == Alone(rest)
  {
  }

  lemma DecimalMore(d: bytes, rest: bytes)
    requires |d| >= 2 && rest == d[2..]
    ensures AllDecimal(d) <==> d[0] <= 57 && d[1] <= 57 && AllDecimal(rest)
  {
    assert d == [d[0], d[1]] + rest;
  }

  lemma SameHead(a: byte, s: bytes, b: byte, t: bytes)
    ensures [a] + s == [b] + t <==> a == b && s == t
  {
    if [a] + s == [b] + t {
      assert ([a] + s)[0] == ([b] + t)[0] && ([a] + s)[1..] == ([b] + t)[1..];
    }
  }

  lemma HexRunOf(s: bytes, n: nat)
    requires n > 0 && s != [] && IsHex(s[0])
    ensures HexRun(s, n) == 1 + HexRun(s[1..], n - 1)
    ensures s[..HexRun(s, n)] == [s[0]] + s[1..][..HexRun(s[1..], n - 1)]
  {
  }

  lemma TwoDigits(t: bytes, c: byte, i: nat, maxlen: nat)
    requires IsHex(c) && i % 2 == 0 && i + 1 < maxlen && t != [] && IsHex(t[0])
    ensures UnicodeRest(t, c, 0, i, maxlen)
            == After(1, Before([Nibble(Nibble(0, c), t[0])], UnicodeNext(t[1..], 0, i + 1, maxlen)))
  {
    var n := Nibble(0, c);
    assert UnicodeRest(t, c, 0, i, maxlen) == UnicodeNext(t, n, i, maxlen);
    assert UnicodeNext(t, n, i, maxlen) == After(1, UnicodeRest(t[1..], t[0], n, i + 1, maxlen));
    assert (i + 1) % 2 == 1;
    assert UnicodeRest(t[1..], t[0], n, i + 1, maxlen)
        == Before([Nibble(n, t[0])], UnicodeNext(t[1..], 0, i + 1, maxlen));
  }

  /** A single digit, and the input or the digits end. */
  lemma OneDigit(t: bytes, c: byte, i: nat, maxlen: nat)
    requires IsHex(c) && i % 2 == 0 && i + 1 < maxlen && (t == [] || !IsHex(t[0]))
    ensures UnicodeRest(t, c, 0, i, maxlen) == Piece(Trailer([c], maxlen - i, t == []), 0)
  {
    assert UnicodeRest(t, c, 0, i, maxlen) == UnicodeNext(t, Nibble(0, c), i, maxlen);
  }

  /** A pair of digits, and the input or the digits end or are complete. */
  lemma LastPair(u: bytes, i: nat, maxlen: nat, d: bytes)
    requires AllHex(d) && |d| == 2 && i % 2 == 0 && maxlen % 2 == 0 && i + 1 < maxlen
    requires u == [] || i + 2 >= maxlen || !IsHex(u[0])
    ensures UnicodeNext(u, 0, i + 1, maxlen) == Piece(Trailer(d, maxlen - i, u == []), 0)
  {
  }

  /** And two more digits. */
  lemma MoreDigits(u: bytes, i: nat, maxlen: nat)
    requires u != [] && i + 2 < maxlen && IsHex(u[0])
    ensures UnicodeNext(u, 0, i + 1, maxlen) == After(1, UnicodeRest(u[1..], u[0], 0, i + 2, maxlen))
  {
  }

  lemma TrailerOfRest(d: bytes, rest: bytes, n: nat, atEnd: bool)
    requires AllHex(d) && |d| > 2 && rest == d[2..] && n > 2
    ensures Trailer(d, n, atEnd) == Trailer(rest, n - 2, atEnd)
  {
  }

  lemma JoinDigits(d: bytes, rest: bytes, n: byte, tail: bytes, k: nat)
    requires AllHex(d) && |d| >= 2 && rest == d[2..] && n == Nibble(Nibble(0, d[0]), d[1]) && k == |rest|
    ensures Before([n], Piece(Paired(rest) + tail, k)) == Piece(Paired(d) + tail, k)
  {
    Assoc([n], Paired(rest), tail);
  }

  /** What is left of the digits after the first two. */
  lemma DigitsMore(s: bytes, t: bytes, u: bytes, n: nat, k: nat, d: bytes)
    requires |s| >= 2 && t == s[1..] && u == t[1..] && IsHex(s[0]) && IsHex(t[0]) && n >= 2
    requires k == HexRun(s, n) && d == s[..k]
    ensures k >= 2 && HexRun(u, n - 2) == k - 2
    ensures d == [s[0], t[0]] + u[..k - 2] && d[2..] == u[..k - 2]
  {
    HexRunOf(s, n);
    HexRunOf(t, n - 1);
  }

  lemma TwoAndMore(u: bytes, i: nat, maxlen: nat, k: nat, d: bytes, e: bytes, atEnd: bool)
    requires AllHex(d) && |d| == k >= 2 && e == d[2..] && i % 2 == 0 && maxlen % 2 == 0 && i + 1 < maxlen
    requires k - 2 == HexRun(u, maxlen - i - 2) && e == u[..k - 2] && (atEnd <==> k - 2 == |u|)
    requires u != [] && i + 2 < maxlen && IsHex(u[0]) ==>
               UnicodeRest(u[1..], u[0], 0, i + 2, maxlen)
               == Piece(Paired(e) + Trailer(e, maxlen - i - 2, atEnd), k - 3)
    ensures Before([Nibble(Nibble(0, d[0]), d[1])], UnicodeNext(u, 0, i + 1, maxlen))
            == Piece(Paired(d) + Trailer(d, maxlen - i, atEnd), k - 2)
  {
    var tail := Trailer(d, maxlen - i, atEnd);
    if u != [] && i + 2 < maxlen && IsHex(u[0]) {
      MoreDigits(u, i, maxlen);
      TrailerOfRest(d, e, maxlen - i, atEnd);
    } else {
      assert e == [];
      LastPair(u, i, maxlen, d);
      assert Paired(e) + tail == tail;
    }
    JoinDigits(d, e, Nibble(Nibble(0, d[0]), d[1]), tail, k - 2);
  }

  /** What the loop makes of k digits d from digit i on, which is c. */
  predicate Makes(t: bytes, c: byte, i: nat, maxlen: nat, k: nat, d: bytes, atEnd: bool) {
    && IsHex(c) && AllHex(d) && d != [] && i <= maxlen && k > 0
    && UnicodeRest(t, c, 0, i, maxlen) == Piece(Paired(d) + Trailer(d, maxlen - i, atEnd), k - 1)
  }

  lemma OneAlone(s: bytes, i: nat, maxlen: nat, k: nat, d: bytes)
    requires s != [] && IsHex(s[0]) && i % 2 == 0 && i + 1 < maxlen
    requires k == HexRun(s, maxlen - i) && d == s[..k] && (|s| == 1 || !IsHex(s[1]))
    ensures Makes(s[1..], s[0], i, maxlen, k, d, k == |s|)
  {
    HexRunOf(s, maxlen - i);
    assert d == [s[0]];
    OneDigit(s[1..], s[0], i, maxlen);
    assert Paired(d) + Trailer(d, maxlen - i, k == |s|) == Trailer(d, maxlen - i, k == |s|);
  }

  lemma TwoThenMore(s: bytes, u: bytes, i: nat, maxlen: nat, k: nat, d: bytes)
    requires |s| >= 2 && IsHex(s[0]) && IsHex(s[1]) && u == s[1..][1..]
    requires i % 2 == 0 && maxlen % 2 == 0 && i + 1 < maxlen && k == HexRun(s, maxlen - i) && d == s[..k]
    requires k >= 2 && HexRun(u, maxlen - i - 2) == k - 2 && d[2..] == u[..k - 2]
    requires u != [] && i + 2 < maxlen && IsHex(u[0]) ==>
               Makes(u[1..], u[0], i + 2, maxlen, k - 2, u[..k - 2], k - 2 == |u|)
    ensures Makes(s[1..], s[0], i, maxlen, k, d, k == |s|)
  {
    TwoDigits(s[1..], s[0], i, maxlen);
    TwoAndMore(u, i, maxlen, k, d, u[..k - 2], k == |s|);
  }

  lemma {:induction false} UnicodeDigits(s: bytes, i: nat, maxlen: nat, k: nat, d: bytes)
    requires s != [] && IsHex(s[0]) && i % 2 == 0 && maxlen % 2 == 0 && i < maxlen
    requires k == HexRun(s, maxlen - i) && d == s[..k]
    ensures Makes(s[1..], s[0], i, maxlen, k, d, k == |s|)
    decreases |s|
  {
    if |s| == 1 || !IsHex(s[1]) {
      OneAlone(s, i, maxlen, k, d);
    } else {
      var u := s[1..][1..];
      DigitsMore(s, s[1..], u, maxlen - i, k, d);
      if u != [] && i + 2 < maxlen && IsHex(u[0]) {
        UnicodeDigits(u, i + 2, maxlen, k - 2, u[..k - 2]);
      }
      TwoThenMore(s, u, i, maxlen, k, d);
    }
  }

  /** What a unicode escape yields: its digits in pairs and what it adds; with no digit, a zero. */
  lemma UnicodeSays(s: bytes, maxlen: nat)
    requires maxlen % 2 == 0 && maxlen > 0
    ensures var k := HexRun(s, maxlen);
            UnicodePiece(s, maxlen)
            == Piece(if k == 0 then [0] else Paired(s[..k]) + Trailer(s[..k], maxlen, k == |s|), k)
  {
    if s != [] && IsHex(s[0]) {
      var k := HexRun(s, maxlen);
      UnicodeDigits(s, 0, maxlen, k, s[..k]);
    }
  }

  /** A unicode escape yields the bytes that its digits denote if and only if it has digits, none
      of them a letter, something follows them, and they are complete or odd in number. */
  lemma UnicodeExact(s: bytes, maxlen: nat)
    requires maxlen % 2 == 0 && maxlen > 0
    ensures var k := HexRun(s, maxlen);
            UnicodePiece(s, maxlen).out == Denoted(s[..k]) <==>
            0 < k < |s| && (k == maxlen || k % 2 == 1) && AllDecimal(s[..k])
  {
    var k := HexRun(s, maxlen);
    var d := s[..k];
    UnicodeSays(s, maxlen);
    PairedLength(d);
    if k > 0 {
      PairedDenotes(d);
      if Trailer(d, maxlen, k == |s|) != Alone(d) {
        assert |Trailer(d, maxlen, k == |s|)| != |Alone(d)|;
      }
    }
  }

  lemma FourDigits(s: bytes, d: bytes)
    requires d == [48, 48, 52, 49] && |s| >= 4 && s[..4] == d
    ensures HexRun(s, 4) == 4 && Paired(d) == [0, 65]
  {
    assert s[0] == 48 && s[1] == 48 && s[2] == 52 && s[3] == 49;
    assert s[1..][1..] == s[2..] && s[2..][1..] == s[3..];
    assert HexRun(s[3..], 1) == 1;
    assert HexRun(s[2..], 2) == 2;
    assert HexRun(s[1..], 3) == 3;
    assert d[2..] == [52, 49] && Paired([52, 49]) == [65];
  }

  /** A complete escape at the end of the input gets a zero byte more. */
  lemma UnicodeAtEnd()
    ensures UnicodePiece([48, 48, 52, 49], 4).out == [0, 65, 0]
    ensures UnicodePiece([48, 48, 52, 49, 32], 4).out == [0, 65]
  {
    var d, s: bytes := [48, 48, 52, 49], [48, 48, 52, 49, 32];
    UnicodeSays(d, 4);
    FourDigits(d, d);
    UnicodeSays(s, 4);
    FourDigits(s, d);
  }

  /** A hexadecimal escape yields what its digits denote if and only if it has one. */
  lemma HexExact(s: bytes)
    ensures HexPiece(s).used == HexRun(s, 2)
    ensures HexPiece(s).out == Denoted(s[..HexRun(s, 2)]) <==> HexRun(s, 2) > 0
  {
    if s != [] && IsHex(s[0]) {
      HexRunOf(s, 2);
      if |s| > 1 && IsHex(s[1]) {
        HexRunOf(s[1..], 1);
        assert s[..2][2..] == [];
      }
    }
  }

  // ---------------------------------------------------------------- there and back

  /** What is lost: a NUL swallows up to two octal digits that follow it. */
  function Merged(s: bytes): bytes
    decreases |s|
  {
    if s == [] then []
    else if s[0] != 0 then [s[0]] + Merged(s[1..])
    else OctalRest(s[1..], 0, 1).out + Merged(s[1 + OctalRest(s[1..], 0, 1).used..])
  }

  /** A NUL byte directly followed by a digit from '0' to '7'. */
  ghost predicate HasTrap(s: bytes) {
    exists i :: 0 <= i < |s| - 1 && TrapAt(s, i)
  }

  ghost predicate TrapAt(s: bytes, i: nat)
    requires i + 1 < |s|
  {
    s[i] == 0 && IsOctal(s[i + 1])
  }

  lemma DropMore(head: bytes, rest: bytes, n: nat)
    requires n <= |rest|
    ensures (head + rest)[|head| + n..] == rest[n..]
  {
  }

  lemma CopiedFirst(s: bytes)
    requires s != [] && EscapeOf(s[0]) == 0
    ensures Encode(s) == [s[0]] + Encode(s[1..])
  {
  }

  lemma OctalStep(c: byte, rest: bytes, num: nat, size: nat)
    requires size < 3 && IsOctal(c)
    ensures OctalRest([c] + rest, num, size) == After(1, OctalRest(rest, num * 8 + (c - 48), size + 1))
  {
    assert ([c] + rest)[1..] == rest;
  }

  /** An octal escape reads on into encoded bytes exactly as into the bytes themselves. */
  lemma {:induction false} OctalThrough(s: bytes, num: nat, size: nat)
    ensures OctalRest(Encode(s), num, size) == OctalRest(s, num, size)
    decreases |s|
  {
    if s != [] && size < 3 && IsOctal(s[0]) {
      var rest := s[1..];
      OctalThrough(rest, num * 8 + (s[0] - 48), size + 1);
      CopiedFirst(s);
      assert s == [s[0]] + rest;
      OctalStep(s[0], rest, num, size);
      OctalStep(s[0], Encode(rest), num, size);
    } else {
      assert s != [] ==> Encode(s)[0] == BACKSLASH || Encode(s)[0] == s[0];
    }
  }

  lemma {:induction false} OctalDigits(s: bytes, num: nat, size: nat)
    ensures forall i :: 0 <= i < OctalRest(s, num, size).used ==> IsOctal(s[i])
    decreases |s|
  {
    if s != [] && size < 3 && IsOctal(s[0]) {
      OctalDigits(s[1..], num * 8 + (s[0] - 48), size + 1);
    }
  }

  lemma {:induction false} CopiedDigits(s: bytes, n: nat)
    requires n <= |s| && forall i :: 0 <= i < n ==> IsOctal(s[i])
    ensures n <= |Encode(s)| && Encode(s)[n..] == Encode(s[n..])
    decreases n
  {
    if n > 0 {
      CopiedFirst(s);
      CopiedDigits(s[1..], n - 1);
      DropMore([s[0]], Encode(s[1..]), n - 1);
      assert s[1..][n - 1..] == s[n..];
    }
  }

  /** Decoding an encoded string gives the string with its NULs and the digits after them
      merged. */
  lemma {:induction false} DecodeOfEncode(s: bytes)
    ensures Decode(Encode(s)) == Merged(s)
    decreases |s|
  {
    if s != [] {
      var e := Encode(s);
      var rest := Encode(s[1..]);
      if s[0] == 0 {
        assert e[0] == BACKSLASH && e[1] == ZERO && e[2..] == rest;
        var used := OctalRest(s[1..], 0, 1).used;
        OctalThrough(s[1..], 0, 1);
        OctalDigits(s[1..], 0, 1);
        CopiedDigits(s[1..], used);
        assert s[1..][used..] == s[1 + used..];
        assert e[2 + used..] == rest[used..];
        DecodeOfEncode(s[1 + used..]);
      } else {
        OneByte(s[0], rest);
        DecodeOfEncode(s[1..]);
      }
    }
  }

  lemma OneByte(c: byte, rest: bytes)
    requires c != 0
    ensures Decode(EncodeByte(c) + rest) == [c] + Decode(rest)
  {
    var e := EncodeByte(c) + rest;
    assert e[|EncodeByte(c)|..] == rest;
    assert FirstPiece(e) == Piece([c], |EncodeByte(c)|);
  }

  lemma {:induction false} OctalUsed(s: bytes, num: nat, size: nat)
    requires num < 8 && size == 1
    ensures |OctalRest(s, num, size).out| == 1
    ensures OctalRest(s, num, size).used > 0 <==> s != [] && IsOctal(s[0])
    ensures OctalRest(s, num, size).used == 0 ==> OctalRest(s, num, size).out == [num]
  {
    if s != [] && IsOctal(s[0]) {
      var n := num * 8 + (s[0] - 48);
      var t := s[1..];
      if t != [] && IsOctal(t[0]) {
        assert OctalRest(t[1..], n * 8 + (t[0] - 48), 3).used == 0;
      }
    }
  }

  lemma TrapLater(s: bytes, k: nat)
    requires k <= |s| && HasTrap(s[k..])
    ensures HasTrap(s)
  {
    var i :| 0 <= i < |s[k..]| - 1 && TrapAt(s[k..], i);
    assert TrapAt(s, i + k);
  }

  lemma TrapNowOrLater(s: bytes)
    requires s != [] && HasTrap(s)
    ensures HasTrap(s[1..]) || (|s| > 1 && TrapAt(s, 0))
  {
    var i :| 0 <= i < |s| - 1 && TrapAt(s, i);
    if i > 0 {
      assert TrapAt(s[1..], i - 1);
    }
  }

  lemma {:induction false} MergedOrNot(s: bytes)
    ensures HasTrap(s) ==> |Merged(s)| < |s|
    ensures !HasTrap(s) ==> Merged(s) == s
    decreases |s|
  {
    if s != [] {
      if s[0] == 0 {
        OctalUsed(s[1..], 0, 1);
      }
      var used := if s[0] == 0 then OctalRest(s[1..], 0, 1).used else 0;
      MergedOrNot(s[1 + used..]);
      if used > 0 {
        assert TrapAt(s, 0);
      } else {
        assert s == [s[0]] + s[1..];
        if HasTrap(s) {
          TrapNowOrLater(s);
        } else if HasTrap(s[1..]) {
          TrapLater(s, 1);
          assert false;
        }
      }
    }
  }

  /** Decoding inverts encoding exactly on the strings without such a NUL; on all others the
      result is strictly shorter. */
  lemma RoundTrip(s: bytes)
    ensures Decode(Encode(s)) == s <==> !HasTrap(s)
    ensures HasTrap(s) ==> |Decode(Encode(s))| < |s|
  {
    DecodeOfEncode(s);
    MergedOrNot(s);
  }

  // ---------------------------------------------------------------- the loops

  method EncodeEscape(b: Blob)
    requires b.Valid()
    modifies b
    ensures b.Valid() && b.IsEnd() && b.out == old(b.out) + Encode(old(b.Rest()))
  {
    while !b.IsEnd()
      invariant b.Valid()
      invariant b.out + Encode(b.Rest()) == old(b.out) + Encode(old(b.Rest()))
      decreases |b.input| - b.ib
    {
      ghost var rest := b.Rest();
      var c := b.GetAndNext();
      assert rest[1..] == b.Rest();
      b.Append(EncodeByte(c));
    }
  }

  method DecodeOctal(b: Blob, c: byte)
    requires b.Valid() && IsOctal(c)
    modifies b
    ensures b.Valid() && b.ib == old(b.ib) + OctalRest(old(b.Rest()), c - 48, 1).used
    ensures b.out == old(b.out) + OctalRest(old(b.Rest()), c - 48, 1).out
  {
    ghost var p := OctalRest(b.Rest(), c - 48, 1);
    var num: nat := c - 48;
    var size := 2;
    while !b.IsEnd() && size <= 3 && IsOctal(b.Get())
      invariant b.Valid() && 2 <= size <= 4 && b.out == old(b.out)
      invariant p == After(b.ib - old(b.ib), OctalRest(b.Rest(), num, size - 1))
      invariant old(b.ib) <= b.ib
      decreases |b.input| - b.ib
    {
      num := num * 8 + (b.Get() - 48);
      b.Next();
      size := size + 1;
    }
    b.Append([num % 256]);
  }

  method DecodeHex(b: Blob)
    requires b.Valid()
    modifies b
    ensures b.Valid() && b.ib == old(b.ib) + HexPiece(old(b.Rest())).used
    ensures b.out == old(b.out) + HexPiece(old(b.Rest())).out
  {
    if b.IsEnd() {
      b.Append([0]);
      return;
    }
    var c := b.Get();
    if !IsHex(c) {
      b.Append([0]);
      return;
    }
    b.Next();
    if !b.IsEnd() {
      var d := b.Get();
      if IsHex(d) {
        b.Append([HexValue(c) * 16 + HexValue(d)]);
        b.Next();
        return;
      }
    }
    b.Append([HexValue(c)]);
  }

  /** Takes digit number i, and appends the byte that a second digit completes. */
  method TakeDigit(b: Blob, c: byte, num: byte, i: nat, ghost s: bytes, ghost maxlen: nat) returns (left: byte)
    requires IsHex(c)
    modifies b`out
    ensures b.out + UnicodeNext(s, left, i, maxlen).out == old(b.out) + UnicodeRest(s, c, num, i, maxlen).out
    ensures UnicodeNext(s, left, i, maxlen).used == UnicodeRest(s, c, num, i, maxlen).used
  {
    left := Nibble(num, c);
    if i % 2 == 1 {
      Assoc(b.out, [left], UnicodeNext(s, 0, i, maxlen).out);
      b.Append([left]);
      left := 0;
    }
  }

  /** The loop over the digits after the first one, which is c. */
  method DecodeDigits(b: Blob, first: byte, maxlen: nat)
    requires b.Valid() && IsHex(first)
    modifies b
    ensures b.Valid() && b.ib == old(b.ib) + UnicodeRest(old(b.Rest()), first, 0, 0, maxlen).used
    ensures b.out == old(b.out) + UnicodeRest(old(b.Rest()), first, 0, 0, maxlen).out
  {
    ghost var p := UnicodeRest(b.Rest(), first, 0, 0, maxlen);
    var c, i, num: byte := first, 0, 0;
    while true
      invariant b.Valid() && IsHex(c)
      invariant b.ib + UnicodeRest(b.Rest(), c, num, i, maxlen).used == old(b.ib) + p.used
      invariant b.out + UnicodeRest(b.Rest(), c, num, i, maxlen).out == old(b.out) + p.out
      decreases |b.input| - b.ib
    {
      num := TakeDigit(b, c, num, i, b.Rest(), maxlen);
      if b.IsEnd() {
        if i % 2 == 0 {
          return;
        }
        break;
      }
      i := i + 1;
      if i >= maxlen {
        if i % 2 == 0 {
          return;
        }
        break;
      }
      if !IsHex(b.Get()) {
        break;
      }
      c := b.GetAndNext();
    }
    b.Append([num]);
  }

  method DecodeUnicode(b: Blob, maxlen: nat)
    requires b.Valid()
    modifies b
    ensures b.Valid() && b.ib == old(b.ib) + UnicodePiece(old(b.Rest()), maxlen).used
    ensures b.out == old(b.out) + UnicodePiece(old(b.Rest()), maxlen).out
  {
    if b.IsEnd() || !IsHex(b.Get()) {
      b.Append([0]);
      return;
    }
    var c := b.GetAndNext();
    DecodeDigits(b, c, maxlen);
  }

  /** The switch on the byte after a backslash. */
  method DecodeEscaped(b: Blob, c: byte)
    requires b.Valid()
    modifies b
    ensures b.Valid() && b.ib == old(b.ib) + Escaped(c, old(b.Rest())).used
    ensures b.out == old(b.out) + Escaped(c, old(b.Rest())).out
  {
    match KindOf(c)
    case Control => b.Append([ControlOf(c)]);
    case Octal => DecodeOctal(b, c);
    case Hex => DecodeHex(b);
    case Small => DecodeUnicode(b, 4);
    case Big => DecodeUnicode(b, 8);
    case Plain => b.Append([c]);
  }

  /** One turn of the decoding loop. A backslash at the very end is dropped. */
  method DecodeNext(b: Blob)
    requires b.Valid() && !b.IsEnd()
    modifies b
    ensures b.Valid() && b.ib == old(b.ib) + FirstPiece(old(b.Rest())).used
    ensures b.out == old(b.out) + FirstPiece(old(b.Rest())).out
  {
    var c := b.GetAndNext();
    if c == BACKSLASH {
      if b.IsEnd() {
        return;
      }
      c := b.GetAndNext();
      assert b.Rest() == old(b.Rest())[2..];
      DecodeEscaped(b, c);
    } else {
      b.Append([c]);
    }
  }

  method DecodeEscape(b: Blob)
    requires b.Valid()
    modifies b
    ensures b.Valid() && b.IsEnd() && b.out == old(b.out) + Decode(old(b.Rest()))
  {
    while !b.IsEnd()
      invariant b.Valid()
      invariant b.out + Decode(b.Rest()) == old(b.out) + Decode(old(b.Rest()))
      decreases |b.input| - b.ib
    {
      ghost var rest := b.Rest();
      Assoc(b.out, FirstPiece(rest).out, Decode(rest[FirstPiece(rest).used..]));
      DecodeNext(b);
      assert b.Rest() == rest[FirstPiece(rest).used..];
    }
  }
}
