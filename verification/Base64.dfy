/** The Base64 codec (pw_encode), sections 4 and 5 of RFC 4648. */
module Base64 {
  import opened Bytes
  import opened Blobs

  type sextet = v: int | 0 <= v < 64

  const PAD: byte := 61
  const PLUS: byte := 43

  /** The two alphabets of the encoder. */
  function Letter(v: sextet, isURI: bool): byte {
    if v < 26 then 65 + v
    else if v < 52 then 71 + v
    else if v < 62 then v - 4
    else if v == 62 then (if isURI then 45 else 43)
    else (if isURI then 95 else 47)
  }

  /** The one table of the decoder, which knows both alphabets; -1 for any other byte. */
  function TableValue(c: byte): int {
    if 65 <= c <= 90 then c - 65
    else if 97 <= c <= 122 then c - 71
    else if 48 <= c <= 57 then c + 4
    else if c == 43 || c == 45 then 62
    else if c == 47 || c == 95 then 63
    else -1
  }

  /** What the decoder makes of a byte; a blank stands for a plus. */
  function Value(c: byte): (v: int)
    ensures -1 <= v < 64
  {
    if c == PAD then -1 else TableValue(if c == SPACE then PLUS else c)
  }

  lemma LetterValue(v: sextet, isURI: bool)
    ensures Value(Letter(v, isURI)) == v
  {
  }

  // ---------------------------------------------------------------- encoding

  /** The second and the third letter of a group straddle two bytes each. */
  function Second(a: byte, b: byte): sextet { a % 4 * 16 + b / 16 }

  function Third(b: byte, c: byte): sextet { b % 16 * 4 + c / 64 }

  /** A group of one to three bytes as four letters, or as many as it needs. */
  function EncodeGroup(g: bytes, isURI: bool, isPadding: bool): bytes
    requires 1 <= |g| <= 3
  {
    if |g| == 1 then
      var p, q := Letter(g[0] / 4, isURI), Letter(Second(g[0], 0), isURI);
      if isPadding then [p, q, PAD, PAD] else [p, q]
    else if |g| == 2 then
      var p, q, r := Letter(g[0] / 4, isURI), Letter(Second(g[0], g[1]), isURI), Letter(Third(g[1], 0), isURI);
      if isPadding then [p, q, r, PAD] else [p, q, r]
    else
      [Letter(g[0] / 4, isURI), Letter(Second(g[0], g[1]), isURI),
       Letter(Third(g[1], g[2]), isURI), Letter(g[2] % 64, isURI)]
  }

  /** The first group of the input. */
  function Head(s: bytes): (g: bytes)
    requires s != []
    ensures 1 <= |g| <= 3 && g <= s && (|g| < 3 ==> g == s)
  {
    if |s| < 3 then s else s[..3]
  }

  lemma HeadAndRest(s: bytes)
    requires s != []
    ensures s == Head(s) + s[|Head(s)|..]
  {
  }

  function Encode(s: bytes, isURI: bool, isPadding: bool): bytes {
    if s == [] then [] else EncodeGroup(Head(s), isURI, isPadding) + Encode(s[|Head(s)|..], isURI, isPadding)
  }

  /** The three bytes as one number of 24 bits, and its base-64 digits. */
  function Number(a: byte, b: byte, c: byte): nat { a * 65536 + b * 256 + c }

  lemma Digit3(n: nat, a: byte, b: byte, c: byte)
    requires n == a * 65536 + b * 256 + c
    ensures n % 64 == c % 64
  {
  }

  lemma Digit2(n: nat, a: byte, b: byte, c: byte)
    requires n == a * 65536 + b * 256 + c
    ensures n / 64 % 64 == Third(b, c)
  {
    assert n / 64 == a * 1024 + b * 4 + c / 64;
    assert b * 4 == b / 16 * 64 + b % 16 * 4;
  }

  lemma Digit1(n: nat, a: byte, b: byte, c: byte)
    requires n == a * 65536 + b * 256 + c
    ensures n / 4096 % 64 == Second(a, b)
  {
    assert b * 256 == b / 16 * 4096 + b % 16 * 256;
    assert n / 4096 == a * 16 + b / 16;
    assert a * 16 == a / 4 * 64 + a % 4 * 16;
  }

  lemma Digit0(n: nat, a: byte, b: byte, c: byte)
    requires n == a * 65536 + b * 256 + c
    ensures n / 262144 == a / 4
  {
    assert a * 65536 == a / 4 * 262144 + a % 4 * 65536;
  }

  /** The four letters of a whole group are those of the digits of its 24-bit number. */
  lemma GroupIsNumber(a: byte, b: byte, c: byte, n: nat, isURI: bool, isPadding: bool)
    requires n == Number(a, b, c)
    ensures n / 262144 < 64 && EncodeGroup([a, b, c], isURI, isPadding)
            == [Letter(n / 262144, isURI), Letter(n / 4096 % 64, isURI), Letter(n / 64 % 64, isURI),
                Letter(n % 64, isURI)]
  {
    Digit0(n, a, b, c);
    Digit1(n, a, b, c);
    Digit2(n, a, b, c);
    Digit3(n, a, b, c);
  }

  // ---------------------------------------------------------------- decoding

  /** The bytes that the values of two letters in turn make up. */
  function Byte0(p: sextet, q: sextet): byte { p * 4 + q / 16 }

  function Byte1(q: sextet, r: sextet): byte { q % 16 * 16 + r / 4 }

  function Byte2(r: sextet, s: sextet): byte { r % 4 * 64 + s }

  lemma BytesBack(a: byte, b: byte, c: byte)
    ensures Byte0(a / 4, Second(a, b)) == a
    ensures Byte1(Second(a, b), Third(b, c)) == b
    ensures Byte2(Third(b, c), c % 64) == c
  {
  }

  /** What four bytes stand for; the first that is no letter ends the group. */
  function Group(p: byte, q: byte, r: byte, s: byte): bytes {
    if Value(p) == -1 || Value(q) == -1 then []
    else if Value(r) == -1 then [Byte0(Value(p), Value(q))]
    else if Value(s) == -1 then [Byte0(Value(p), Value(q)), Byte1(Value(q), Value(r))]
    else [Byte0(Value(p), Value(q)), Byte1(Value(q), Value(r)), Byte2(Value(r), Value(s))]
  }

  lemma GroupOf(p: sextet, q: sextet, r: sextet, s: sextet, isURI: bool)
    ensures Group(Letter(p, isURI), Letter(q, isURI), PAD, PAD) == [Byte0(p, q)]
    ensures Group(Letter(p, isURI), Letter(q, isURI), Letter(r, isURI), PAD) == [Byte0(p, q), Byte1(q, r)]
    ensures Group(Letter(p, isURI), Letter(q, isURI), Letter(r, isURI), Letter(s, isURI))
         == [Byte0(p, q), Byte1(q, r), Byte2(r, s)]
  {
    LetterValue(p, isURI);
    LetterValue(q, isURI);
    LetterValue(r, isURI);
    LetterValue(s, isURI);
  }

  /** What is left at the end counts as if padded. */
  function Last(s: bytes): bytes
    requires |s| < 4
  {
    if |s| < 2 then []
    else if |s| == 2 then Group(s[0], s[1], PAD, PAD)
    else Group(s[0], s[1], s[2], PAD)
  }

  function Decode(s: bytes): bytes {
    if |s| < 4 then Last(s) else Group(s[0], s[1], s[2], s[3]) + Decode(s[4..])
  }

  /** What the decoder makes of one encoded group. */
  function GroupOrLast(e: bytes): bytes
    requires |e| <= 4
  {
    if |e| == 4 then Group(e[0], e[1], e[2], e[3]) else Last(e)
  }

  lemma Byte0Back(a: byte, b: byte)
    ensures Byte0(a / 4, Second(a, b)) == a
  {
  }

  lemma GroupBack1(g: bytes, isURI: bool, isPadding: bool)
    requires |g| == 1
    ensures GroupOrLast(EncodeGroup(g, isURI, isPadding)) == g
  {
    GroupOf(g[0] / 4, Second(g[0], 0), 0, 0, isURI);
    Byte0Back(g[0], 0);
    assert g == [g[0]];
  }

  lemma GroupBack2(g: bytes, isURI: bool, isPadding: bool)
    requires |g| == 2
    ensures GroupOrLast(EncodeGroup(g, isURI, isPadding)) == g
  {
    GroupOf(g[0] / 4, Second(g[0], g[1]), Third(g[1], 0), 0, isURI);
    BytesBack(g[0], g[1], 0);
  }

  lemma GroupBack3(g: bytes, isURI: bool, isPadding: bool)
    requires |g| == 3
    ensures GroupOrLast(EncodeGroup(g, isURI, isPadding)) == g
  {
    GroupOf(g[0] / 4, Second(g[0], g[1]), Third(g[1], g[2]), g[2] % 64, isURI);
    BytesBack(g[0], g[1], g[2]);
  }

  /** Bytes in, bytes out: one group. */
  lemma GroupBack(g: bytes, isURI: bool, isPadding: bool)
    requires 1 <= |g| <= 3
    ensures |EncodeGroup(g, isURI, isPadding)| == if isPadding then 4 else |g| + 1
    ensures GroupOrLast(EncodeGroup(g, isURI, isPadding)) == g
  {
    if |g| == 1 {
      GroupBack1(g, isURI, isPadding);
    } else if |g| == 2 {
      GroupBack2(g, isURI, isPadding);
    } else {
      GroupBack3(g, isURI, isPadding);
    }
  }

  lemma DecodeStep(e: bytes, t: bytes)
    requires |e| == 4
    ensures Decode(e + t) == Group(e[0], e[1], e[2], e[3]) + Decode(t)
  {
    SliceBeyond(e, t, 4);
  }

  lemma DecodeFirst(a: bytes, code: bytes, t: bytes, e: bytes, g: bytes, rest: bytes)
    requires |e| == 4 && Group(e[0], e[1], e[2], e[3]) == g && a == g + rest
    requires Decode(code + t) == rest + Decode(t)
    ensures Decode(e + code + t) == a + Decode(t)
  {
    Assoc(e, code, t);
    DecodeStep(e, code + t);
    Assoc(g, rest, Decode(t));
  }

  /** One group of four letters more in front. */
  lemma DecodeWithGroup(a: bytes, t: bytes, isURI: bool, isPadding: bool, rest: bytes)
    requires a != [] && (isPadding || |a| >= 3) && rest == a[|Head(a)|..]
    requires Decode(Encode(rest, isURI, isPadding) + t) == rest + Decode(t)
    ensures Decode(Encode(a, isURI, isPadding) + t) == a + Decode(t)
  {
    GroupBack(Head(a), isURI, isPadding);
    HeadAndRest(a);
    DecodeFirst(a, Encode(rest, isURI, isPadding), t, EncodeGroup(Head(a), isURI, isPadding), Head(a), rest);
  }

  /** Decoding goes on behind a padded encoding, whatever comes there. */
  lemma {:induction false} DecodeOfPadded(a: bytes, t: bytes, isURI: bool)
    ensures Decode(Encode(a, isURI, true) + t) == a + Decode(t)
    decreases |a|
  {
    if a == [] {
      assert [] + t == t;
    } else {
      DecodeOfPadded(a[|Head(a)|..], t, isURI);
      DecodeWithGroup(a, t, isURI, true, a[|Head(a)|..]);
    }
  }

  /** A last group that is not whole, unpadded. */
  lemma DecodeOfLast(a: bytes, isURI: bool)
    requires 1 <= |a| < 3
    ensures Encode(a, isURI, false) == EncodeGroup(a, isURI, false) && Decode(Encode(a, isURI, false)) == a
  {
    assert Head(a) == a && Encode(a[|a|..], isURI, false) == [];
    GroupBack(a, isURI, false);
  }

  /** Without padding the same holds behind whole groups. */
  lemma {:induction false} DecodeOfUnpadded(a: bytes, t: bytes, isURI: bool)
    requires t == [] || |a| % 3 == 0
    ensures Decode(Encode(a, isURI, false) + t) == a + Decode(t)
    decreases |a|
  {
    if a == [] {
      assert [] + t == t;
    } else if |a| < 3 {
      DecodeOfLast(a, isURI);
      assert Encode(a, isURI, false) + t == Encode(a, isURI, false) && a + Decode(t) == a;
    } else {
      DecodeOfUnpadded(a[|Head(a)|..], t, isURI);
      DecodeWithGroup(a, t, isURI, false, a[|Head(a)|..]);
    }
  }

  /** Decoding inverts encoding, in both alphabets, padded or not. */
  lemma RoundTrip(s: bytes, isURI: bool, isPadding: bool)
    ensures Decode(Encode(s, isURI, isPadding)) == s
  {
    var e := Encode(s, isURI, isPadding);
    assert e + [] == e;
    if isPadding {
      DecodeOfPadded(s, [], isURI);
    } else {
      DecodeOfUnpadded(s, [], isURI);
    }
  }

  lemma Lengths(len: nat, n: nat)
    requires n == 3 <= len || 1 <= n == len < 3
    ensures (len + 2) / 3 * 4 == 4 + (len - n + 2) / 3 * 4
    ensures (len * 4 + 2) / 3 == n + 1 + ((len - n) * 4 + 2) / 3
  {
  }

  /** How long an encoding is: four letters for each group, or one more than the bytes of the
      last one if it is not padded. */
  lemma {:induction false} EncodedLength(s: bytes, isURI: bool)
    ensures |Encode(s, isURI, true)| == (|s| + 2) / 3 * 4
    ensures |Encode(s, isURI, false)| == (|s| * 4 + 2) / 3
    decreases |s|
  {
    if s != [] {
      var n := |Head(s)|;
      EncodedLength(s[n..], isURI);
      assert |EncodeGroup(Head(s), isURI, true)| == 4 && |EncodeGroup(Head(s), isURI, false)| == n + 1;
      Lengths(|s|, n);
    }
  }

  /** A letter, a digit, or one of the two that need no escape in a URI. */
  predicate UriSafe(c: byte) {
    48 <= c <= 57 || 65 <= c <= 90 || 97 <= c <= 122 || c == 45 || c == 95
  }

  lemma {:induction false} UnpaddedIsUriSafe(s: bytes, i: nat)
    requires i < |Encode(s, true, false)|
    ensures UriSafe(Encode(s, true, false)[i])
    decreases |s|
  {
    var e := EncodeGroup(Head(s), true, false);
    if i >= |e| {
      UnpaddedIsUriSafe(s[|Head(s)|..], i - |e|);
    }
  }

  function Blanked(s: bytes): bytes {
    if s == [] then [] else [if s[0] == PLUS then SPACE else s[0]] + Blanked(s[1..])
  }

  lemma {:induction false} BlankedAt(s: bytes, n: nat)
    requires n <= |s|
    ensures |Blanked(s)| == |s| && Blanked(s)[n..] == Blanked(s[n..])
    ensures forall i :: 0 <= i < n ==> Blanked(s)[i] == if s[i] == PLUS then SPACE else s[i]
    decreases |s|
  {
    if n > 0 {
      BlankedAt(s[1..], n - 1);
      assert s[1..][n - 1..] == s[n..];
    } else if s != [] {
      BlankedAt(s[1..], 0);
    }
  }

  /** A text whose pluses were turned into blanks on the way decodes to the same bytes. */
  lemma {:induction false} BlanksForPluses(s: bytes)
    ensures Decode(Blanked(s)) == Decode(s)
    decreases |s|
  {
    if |s| < 4 {
      BlankedAt(s, |s|);
    } else {
      BlankedAt(s, 4);
      BlanksForPluses(s[4..]);
    }
  }

  // ---------------------------------------------------------------- the loops

  /** Up to three bytes from the input. */
  method ReadGroup(b: Blob) returns (g: bytes)
    requires b.Valid() && !b.IsEnd()
    modifies b`ib
    ensures b.Valid() && g == Head(old(b.Rest())) && b.Rest() == old(b.Rest())[|g|..]
  {
    g := [];
    while |g| < 3 && !b.IsEnd()
      invariant b.Valid() && |g| <= 3 && b.ib == old(b.ib) + |g|
      invariant g == b.input[old(b.ib)..b.ib]
      decreases 3 - |g|
    {
      var c := b.GetAndNext();
      g := g + [c];
    }
  }

  /** _Bin2Base64: the four places of a group, and how many of them are not padding. */
  method Bin2Base64(g: bytes, isURI: bool, pad: byte) returns (out: bytes, n: nat)
    requires 1 <= |g| <= 3
    ensures |out| == 4 && n <= 4 && out[..n] == EncodeGroup(g, isURI, false)
    ensures pad == PAD ==> out == EncodeGroup(g, isURI, true)
  {
    if |g| > 2 {
      out := [Letter(g[0] / 4, isURI), Letter(g[0] % 4 * 16 + g[1] / 16, isURI),
              Letter(g[1] % 16 * 4 + g[2] / 64, isURI), Letter(g[2] % 64, isURI)];
      return out, 4;
    }
    if |g| == 2 {
      out := [Letter(g[0] / 4, isURI), Letter(g[0] % 4 * 16 + g[1] / 16, isURI), Letter(g[1] % 16 * 4, isURI), pad];
      return out, 3;
    }
    out := [Letter(g[0] / 4, isURI), Letter(g[0] % 4 * 16, isURI), pad, pad];
    return out, 2;
  }

  method EncodeBase64(b: Blob, isURI: bool, isPadding: bool)
    requires b.Valid()
    modifies b
    ensures b.Valid() && b.IsEnd() && b.out == old(b.out) + Encode(old(b.Rest()), isURI, isPadding)
  {
    while !b.IsEnd()
      invariant b.Valid()
      invariant b.out + Encode(b.Rest(), isURI, isPadding) == old(b.out) + Encode(old(b.Rest()), isURI, isPadding)
      decreases |b.input| - b.ib
    {
      ghost var rest := b.Rest();
      Assoc(b.out, EncodeGroup(Head(rest), isURI, isPadding), Encode(rest[|Head(rest)|..], isURI, isPadding));
      var g := ReadGroup(b);
      var out, n := Bin2Base64(g, isURI, if isPadding then PAD else 0);
      b.Append(if isPadding then out else out[..n]);
    }
  }

  /** _Base642Bin: letter by letter, until one is none. The table index is the byte itself. */
  method Base642Bin(q: array<byte>, out: array<byte>) returns (n: nat)
    requires q.Length == 4 && out.Length == 3 && q != out
    modifies out
    ensures n <= 3 && out[..n] == Group(q[0], q[1], q[2], q[3])
  {
    var idx := 0;
    while idx < 4
      invariant 0 <= idx <= 4
      invariant forall i :: 0 <= i < idx ==> Value(q[i]) != -1
      invariant idx == 1 ==> out[0] == Value(q[0]) * 4
      invariant idx >= 2 ==> out[0] == Byte0(Value(q[0]), Value(q[1]))
      invariant idx == 2 ==> out[1] == Value(q[1]) % 16 * 16
      invariant idx >= 3 ==> out[1] == Byte1(Value(q[1]), Value(q[2]))
      invariant idx == 3 ==> out[2] == Value(q[2]) % 4 * 64
      invariant idx == 4 ==> out[2] == Byte2(Value(q[2]), Value(q[3]))
      decreases 4 - idx
    {
      var c := Value(q[idx]);
      if c == -1 {
        break;
      }
      match idx {
        case 0 =>
          out[0] := c * 4;
        case 1 =>
          out[0] := out[0] + c / 16;
          out[1] := c % 16 * 16;
        case 2 =>
          out[1] := out[1] + c / 4;
          out[2] := c % 4 * 64;
        case _ =>
          out[2] := out[2] + c;
      }
      idx := idx + 1;
    }
    n := if idx < 2 then 0 else idx - 1;
  }

  /** A group is decoded and its bytes are put out. */
  method AppendGroup(b: Blob, in4: array<byte>, out3: array<byte>)
    requires in4.Length == 4 && out3.Length == 3 && in4 != out3
    modifies b`out, out3
    ensures b.out == old(b.out) + Group(in4[0], in4[1], in4[2], in4[3])
  {
    var olen := Base642Bin(in4, out3);
    if olen > 0 {
      b.Append(out3[..olen]);
    }
  }

  /** One turn of the decoding loop: ilen bytes of a group have been read before. */
  method DecodeNext(b: Blob, in4: array<byte>, out3: array<byte>, ilen: nat) returns (n: nat)
    requires b.Valid() && !b.IsEnd() && in4.Length == 4 && out3.Length == 3 && in4 != out3 && ilen < 4
    modifies b, in4, out3
    ensures b.Valid() && b.ib == old(b.ib) + 1 && n < 4
    ensures b.out + Decode(in4[..n] + b.Rest()) == old(b.out) + Decode(old(in4[..ilen] + b.Rest()))
  {
    ghost var all := in4[..ilen] + b.Rest();
    in4[ilen] := b.Get();
    b.Next();
    n := ilen + 1;
    assert in4[..n] + b.Rest() == all;
    if n >= 4 {
      assert in4[..] == in4[..4];
      DecodeStep(in4[..], b.Rest());
      Assoc(b.out, Group(in4[0], in4[1], in4[2], in4[3]), Decode(b.Rest()));
      AppendGroup(b, in4, out3);
      n := 0;
      assert in4[..n] + b.Rest() == b.Rest();
    }
  }

  method DecodeBase64(b: Blob)
    requires b.Valid()
    modifies b
    ensures b.Valid() && b.IsEnd() && b.out == old(b.out) + Decode(old(b.Rest()))
  {
    var in4, out3 := new byte[4], new byte[3];
    var ilen := 0;
    assert in4[..ilen] + b.Rest() == b.Rest();
    while !b.IsEnd()
      invariant b.Valid() && 0 <= ilen < 4
      invariant b.out + Decode(in4[..ilen] + b.Rest()) == old(b.out) + Decode(old(b.Rest()))
      decreases |b.input| - b.ib
    {
      ilen := DecodeNext(b, in4, out3, ilen);
    }
    assert in4[..ilen] + b.Rest() == in4[..ilen];
    if ilen > 0 {
      in4[ilen] := PAD;
      AppendGroup(b, in4, out3);
    }
  }
}
