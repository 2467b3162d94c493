/** Message packets: header printer, header parser and packet size (pw_msgpacket). */
module MsgPackets {
  import opened Bytes
  import opened Decimal
  import opened IoBuffers
  import opened Tokenizers

  const MIN_HEADER_SIZE: nat := 12
  const MAX_HEADER_SIZE: nat := 4096
  const MAX_BODY_SIZE: nat := 1024 * 1024
  const CODE_SIZE: nat := 4
  /** sizeof(tmpstr) */
  const FIELD_SIZE: nat := 16

  datatype Packet = Packet(
    code: bytes, trid: int, flags: int, total: int, index: int, appendix: bytes, body: bytes)

  /** What a header line says. */
  datatype Head = Head(
    code: bytes, trid: int, flags: int, bodyLen: nat, total: int, index: int, appendix: bytes)

  function HeadOf(pk: Packet): Head {
    Head(pk.code, pk.trid, pk.flags, |pk.body|, pk.total, pk.index, pk.appendix)
  }

  function WithBody(h: Head, body: bytes): Packet {
    Packet(h.code, h.trid, h.flags, h.total, h.index, h.appendix, body)
  }

  /** The values the fields of a MsgPacket can hold. */
  predicate Constructible(pk: Packet) {
    && |pk.code| <= CODE_SIZE
    && 0 <= pk.trid < 65536 && 0 <= pk.flags < 256
    && 0 <= pk.total < 65536 && 0 <= pk.index < 65536
    && |pk.body| <= INT64_MAX
  }

  predicate IsChunked(flags: int) {
    (flags / 4) % 2 == 1
  }

  /** c_str(): up to the first NUL. */
  function CStr(s: bytes): bytes {
    s[..Find(s, 0, 0)]
  }

  function Bit(flags: int, i: nat): byte {
    if (flags / (if i == 0 then 1 else if i == 1 then 2 else 4)) % 2 == 1 then 49 else ZERO
  }

  /** _uint82str: the three lowest bits, lowest first. */
  function FlagBytes(flags: int): (r: bytes)
    ensures |r| == 3
  {
    [Bit(flags, 0), Bit(flags, 1), Bit(flags, 2)]
  }

  /** _str2ulong: bit i is set unless byte i is '0'; up to eight bytes, up to a NUL. */
  function FlagsValue(s: bytes, i: nat): (r: int)
    requires i <= 8
    ensures 0 <= r
    decreases 8 - i
  {
    if i == 8 || i >= |s| || s[i] == 0 then 0
    else (if s[i] != ZERO then Power2(i) else 0) + FlagsValue(s, i + 1)
  }

  function Power2(i: nat): (r: int)
    ensures 0 < r
  {
    if i == 0 then 1 else 2 * Power2(i - 1)
  }

  function ChunkBytes(pk: Packet): bytes {
    if IsChunked(pk.flags) then [SPACE] + IntToBytes(pk.total) + [SPACE] + IntToBytes(pk.index) else []
  }

  function AppendixBytes(pk: Packet): bytes {
    if pk.appendix == [] then [] else [SPACE] + pk.appendix
  }

  /** What follows the flags in a header line. */
  function SizesOf(pk: Packet): bytes {
    IntToBytes(|pk.body|) + (ChunkBytes(pk) + AppendixBytes(pk))
  }

  /** What follows the code. */
  function FieldsOf(pk: Packet): bytes {
    IntToBytes(pk.trid) + [SPACE] + (FlagBytes(pk.flags) + [SPACE] + SizesOf(pk))
  }

  /** The header line without its CRLF. */
  function Header(pk: Packet): bytes {
    CStr(pk.code) + [SPACE] + FieldsOf(pk)
  }

  lemma HeaderParts(pk: Packet)
    ensures Header(pk) ==
            CStr(pk.code) + [SPACE] + IntToBytes(pk.trid) + [SPACE] + FlagBytes(pk.flags) + [SPACE]
            + Digits(|pk.body|) + ChunkBytes(pk) + AppendixBytes(pk)
  {
  }

  function Print(pk: Packet): bytes {
    Header(pk) + CRLF + pk.body
  }

  function PrintAll(pks: seq<Packet>): bytes {
    if pks == [] then [] else Print(pks[0]) + PrintAll(pks[1..])
  }

  /** getPacketSize */
  method GetPacketSize(pk: Packet) returns (sum: nat)
    ensures sum == |Print(pk)|
  {
    sum := |CStr(pk.code)| + 1 + |IntToBytes(pk.trid)| + 1 + |FlagBytes(pk.flags)| + 1
           + |Digits(|pk.body|)| + 2;
    if IsChunked(pk.flags) {
      sum := sum + 1 + |IntToBytes(pk.total)| + 1 + |IntToBytes(pk.index)|;
    }
    if pk.appendix != [] {
      sum := sum + |pk.appendix| + 1;
    }
    if |pk.body| != 0 {
      sum := sum + |pk.body|;
    }
  }

  /** write(IoBuffer&): the bytes written are as many as getPacketSize foretold, so the abort
      at its end is never reached. */
  method Write(pk: Packet, obuf: IoBuffer, moves: bool) returns (sum: nat)
    requires obuf.Valid()
    modifies obuf, obuf.data
    ensures obuf.Valid() && (obuf.data == old(obuf.data) || fresh(obuf.data))
    ensures obuf.Contents() == old(obuf.Contents()) + Print(pk)
    ensures sum == |Print(pk)|
  {
    var pklen := GetPacketSize(pk);
    var _ := obuf.GrabWrite(pklen + 1, moves);
    var b := CStr(pk.code) + [SPACE] + IntToBytes(pk.trid) + [SPACE] + FlagBytes(pk.flags) + [SPACE]
             + Digits(|pk.body|);
    if IsChunked(pk.flags) {
      b := b + ([SPACE] + IntToBytes(pk.total) + [SPACE] + IntToBytes(pk.index));
    } else {
      assert b + ChunkBytes(pk) == b;
    }
    if pk.appendix != [] {
      b := b + ([SPACE] + pk.appendix);
    } else {
      assert b + AppendixBytes(pk) == b;
    }
    HeaderParts(pk);
    b := b + CRLF;
    if |pk.body| != 0 {
      b := b + pk.body;
    } else {
      assert b + pk.body == b;
    }
    obuf.Commit(b);
    assert |b| == pklen;
    return |b|;
  }

  function Uint16(i: int): int {
    if 0 <= i < 65536 then i else i % 65536
  }

  /** What setHeader makes of the rest of a line once the body size is known. */
  function ParseChunk(code: bytes, trid: int, flags: int, n: nat, rest: bytes): Option<Head> {
    if !IsChunked(flags) then Some(Head(code, trid, flags, n, 0, 0, rest))
    else
      match Next(rest, FIELD_SIZE - 1, SPACE)
      case None => None
      case Some(total) =>
        match Next(total.rest, FIELD_SIZE - 1, SPACE)
        case None => None
        case Some(index) =>
          var t, i := Uint16(StrToLL(total.text)), Uint16(StrToLL(index.text));
          if t > 0 && i == 0 then None else Some(Head(code, trid, flags, n, t, i, index.rest))
  }

  /** What it makes of the rest once code, trid and flags are known. */
  function ParseSizes(code: bytes, trid: int, flags: int, rest: bytes): Option<Head> {
    match Next(rest, FIELD_SIZE - 1, SPACE)
    case None => None
    case Some(size) =>
      var blen := StrToLL(size.text);
      if blen > MAX_BODY_SIZE then None
      else ParseChunk(code, trid, flags, if blen > 0 then blen else 0, size.rest)
  }

  /** And once the code is known. */
  function ParseFields(code: bytes, rest: bytes): Option<Head> {
    match Next(rest, FIELD_SIZE - 1, SPACE)
    case None => None
    case Some(trid) =>
      match Next(trid.rest, FIELD_SIZE - 1, SPACE)
      case None => None
      case Some(flags) =>
        ParseSizes(code, Uint16(StrToLL(trid.text)), FlagsValue(flags.text, 0), flags.rest)
  }

  /** setHeader */
  function ParseHeader(line: bytes): Option<Head> {
    match Next(line, CODE_SIZE, SPACE)
    case None => None
    case Some(code) => ParseFields(code.text, code.rest)
  }

  /** The loop of _str2ulong; each turn sets a bit that is not yet set. */
  method StrToFlags(s: bytes) returns (ret: int)
    ensures ret == FlagsValue(s, 0)
  {
    ret := 0;
    var i := 0;
    while i < 8 && i < |s| && s[i] != 0
      invariant 0 <= i <= 8
      invariant ret + FlagsValue(s, i) == FlagsValue(s, 0)
    {
      if s[i] != ZERO {
        ret := ret + Power2(i);
      }
      i := i + 1;
    }
  }

  // setHeader, in the order of its fields.

  method SetChunk(tok: Tokenizer, code: bytes, trid: int, flags: int, size: nat)
    returns (r: Option<Head>)
    requires tok.Valid()
    modifies tok
    ensures r == ParseChunk(code, trid, flags, size, old(tok.Left()))
  {
    var total, index := 0, 0;
    if IsChunked(flags) {
      var tmp := tok.GetNext(FIELD_SIZE, SPACE);
      if tmp.None? {
        return None;
      }
      total := Uint16(StrToLL(tmp.value));
      tmp := tok.GetNext(FIELD_SIZE, SPACE);
      if tmp.None? {
        return None;
      }
      index := Uint16(StrToLL(tmp.value));
      if total > 0 && index == 0 {
        return None;
      }
    }
    return Some(Head(code, trid, flags, size, total, index, tok.input[tok.pos..]));
  }

  method SetSizes(tok: Tokenizer, code: bytes, trid: int, flags: int) returns (r: Option<Head>)
    requires tok.Valid()
    modifies tok
    ensures r == ParseSizes(code, trid, flags, old(tok.Left()))
  {
    var tmp := tok.GetNext(FIELD_SIZE, SPACE);
    if tmp.None? {
      return None;
    }
    var blen := StrToLL(tmp.value);
    if blen > MAX_BODY_SIZE {
      return None;
    }
    var size: nat := 0;
    if blen > 0 {
      size := blen;
    }
    r := SetChunk(tok, code, trid, flags, size);
  }

  method SetFields(tok: Tokenizer, code: bytes) returns (r: Option<Head>)
    requires tok.Valid()
    modifies tok
    ensures r == ParseFields(code, old(tok.Left()))
  {
    var tmp := tok.GetNext(FIELD_SIZE, SPACE);
    if tmp.None? {
      return None;
    }
    var trid := Uint16(StrToLL(tmp.value));
    tmp := tok.GetNext(FIELD_SIZE, SPACE);
    if tmp.None? {
      return None;
    }
    var flags := StrToFlags(tmp.value);
    r := SetSizes(tok, code, trid, flags);
  }

  method SetHeader(line: bytes) returns (r: Option<Head>)
    ensures r == ParseHeader(line)
  {
    var tok := new Tokenizer(line);
    var code := tok.GetNext(CODE_SIZE + 1, SPACE);
    if code.None? {
      return None;
    }
    r := SetFields(tok, code.value);
  }

  // ---------------------------------------------------------------- the header round trip

  function Power10(k: nat): (r: nat)
    ensures 0 < r
  {
    if k == 0 then 1 else 10 * Power10(k - 1)
  }

  lemma {:induction false} DigitsShort(n: nat, k: nat)
    requires 0 < k && n < Power10(k)
    ensures |Digits(n)| <= k
    decreases k
  {
    if n >= 10 {
      DigitsShort(n / 10, k - 1);
    }
  }

  lemma SmallDigits(n: nat)
    requires n <= MAX_BODY_SIZE
    ensures |IntToBytes(n)| <= FIELD_SIZE - 1 && SPACE !in IntToBytes(n)
    ensures StrToLL(IntToBytes(n)) == n
  {
    assert Power10(3) == 1000 && Power10(4) == 10 * Power10(3);
    assert Power10(6) == 1000000 && Power10(7) == 10 * Power10(6);
    DigitsShort(n, 7);
    StrToLLOfInt(n);
  }

  lemma ThreeBits(n: int)
    requires 0 <= n < 256
    ensures n % 8 == n % 2 + 2 * ((n / 2) % 2) + 4 * ((n / 4) % 2)
    ensures (n % 8) / 4 % 2 == n / 4 % 2
  {
    var q, r := n / 8, n % 8;
    assert n / 2 == 4 * q + r / 2 && n / 4 == 2 * q + r / 4 && n % 2 == r % 2;
  }

  /** Of the flags only the three lowest bits come back. */
  lemma FlagsComeBack(flags: int)
    requires 0 <= flags < 256
    ensures FlagsValue(FlagBytes(flags), 0) == flags % 8
    ensures SPACE !in FlagBytes(flags)
    ensures IsChunked(flags % 8) == IsChunked(flags)
  {
    var s := FlagBytes(flags);
    assert FlagsValue(s, 3) == 0;
    assert FlagsValue(s, 2) == (if s[2] != ZERO then 4 else 0) by { assert Power2(2) == 4; }
    assert FlagsValue(s, 1) == (if s[1] != ZERO then 2 else 0) + FlagsValue(s, 2) by { assert Power2(1) == 2; }
    ThreeBits(flags);
  }

  /** A code that the tokenizer gives back as it was. */
  predicate PlainCode(code: bytes) {
    SPACE !in code && 0 !in code
  }

  /** The packets whose header line the parser reads back. */
  predicate Readable(pk: Packet) {
    && PlainCode(pk.code)
    && pk.flags < 8
    && |pk.body| <= MAX_BODY_SIZE
    && (IsChunked(pk.flags) ==> pk.total > 0 ==> pk.index > 0)
    && (!IsChunked(pk.flags) ==> pk.total == 0 && pk.index == 0)
  }

  /** A number and what comes after it, which is nothing or starts with a space. */
  lemma NumberToken(n: nat, after: bytes)
    requires n <= MAX_BODY_SIZE
    requires after != [] ==> after[0] == SPACE
    ensures Next(IntToBytes(n) + after, FIELD_SIZE - 1, SPACE) ==
            Some(Token(IntToBytes(n), if after == [] then [] else after[1..]))
    ensures StrToLL(IntToBytes(n)) == n
  {
    SmallDigits(n);
    if after == [] {
      assert IntToBytes(n) + after == IntToBytes(n);
      NextIsLast(IntToBytes(n), SPACE, FIELD_SIZE - 1);
    } else {
      assert IntToBytes(n) + after == IntToBytes(n) + [SPACE] + after[1..];
      NextIs(IntToBytes(n), SPACE, after[1..], FIELD_SIZE - 1);
    }
  }

  lemma AppendixAfter(pk: Packet)
    ensures var a := AppendixBytes(pk);
            (a != [] ==> a[0] == SPACE) && (if a == [] then [] else a[1..]) == pk.appendix
  {
  }

  /** A body that is too long is refused, whether its size fits the field or not. */
  lemma TooLong(pk: Packet, flags: int)
    requires Constructible(pk) && |pk.body| > MAX_BODY_SIZE
    ensures ParseSizes(pk.code, pk.trid, flags, SizesOf(pk)).None?
  {
    var n, after := IntToBytes(|pk.body|), ChunkBytes(pk) + AppendixBytes(pk);
    StrToLLOfInt(|pk.body|);
    assert after != [] ==> after[0] == SPACE;
    FindIs(n + after, SPACE, 0, |n|);
    assert (n + after)[..|n|] == n;
    assert after == [] ==> n + after == n;
    var tok := Next(SizesOf(pk), FIELD_SIZE - 1, SPACE);
    assert tok.Some? ==> tok.value.text == n;
  }

  lemma ChunkStep(code: bytes, trid: int, flags: int, n: nat, rest: bytes, first: Token, second: Token)
    requires IsChunked(flags)
    requires Next(rest, FIELD_SIZE - 1, SPACE) == Some(first)
    requires Next(first.rest, FIELD_SIZE - 1, SPACE) == Some(second)
    ensures var t, i := Uint16(StrToLL(first.text)), Uint16(StrToLL(second.text));
            ParseChunk(code, trid, flags, n, rest) ==
            if t > 0 && i == 0 then None else Some(Head(code, trid, flags, n, t, i, second.rest))
  {
  }

  lemma ChunkParts(pk: Packet, a: bytes)
    requires IsChunked(pk.flags)
    ensures ChunkBytes(pk) + a == [SPACE] + (IntToBytes(pk.total) + ([SPACE] + (IntToBytes(pk.index) + a)))
    ensures (ChunkBytes(pk) + a)[1..] == IntToBytes(pk.total) + ([SPACE] + (IntToBytes(pk.index) + a))
  {
  }

  lemma ChunkComesBack(pk: Packet, flags: int, n: nat)
    requires Constructible(pk) && IsChunked(flags) && IsChunked(pk.flags)
    ensures ParseChunk(pk.code, pk.trid, flags, n, (ChunkBytes(pk) + AppendixBytes(pk))[1..]) ==
            if pk.total > 0 && pk.index == 0 then None
            else Some(Head(pk.code, pk.trid, flags, n, pk.total, pk.index, pk.appendix))
  {
    var a := AppendixBytes(pk);
    AppendixAfter(pk);
    var total, index := IntToBytes(pk.total), IntToBytes(pk.index);
    var later := [SPACE] + (index + a);
    var rest := (ChunkBytes(pk) + a)[1..];
    ChunkParts(pk, a);
    NumberToken(pk.total, later);
    assert later[1..] == index + a;
    NumberToken(pk.index, a);
    assert Uint16(StrToLL(total)) == pk.total && Uint16(StrToLL(index)) == pk.index;
    ChunkStep(pk.code, pk.trid, flags, n, rest, Token(total, index + a), Token(index, pk.appendix));
  }

  lemma SizesComeBack(pk: Packet, flags: int)
    requires Constructible(pk) && |pk.body| <= MAX_BODY_SIZE && IsChunked(flags) == IsChunked(pk.flags)
    ensures ParseSizes(pk.code, pk.trid, flags, SizesOf(pk)) ==
            if !IsChunked(flags) then Some(Head(pk.code, pk.trid, flags, |pk.body|, 0, 0, pk.appendix))
            else if pk.total > 0 && pk.index == 0 then None
            else Some(Head(pk.code, pk.trid, flags, |pk.body|, pk.total, pk.index, pk.appendix))
  {
    var after := ChunkBytes(pk) + AppendixBytes(pk);
    NumberToken(|pk.body|, after);
    if IsChunked(flags) {
      ChunkComesBack(pk, flags, |pk.body|);
    } else {
      AppendixAfter(pk);
      assert after == AppendixBytes(pk);
    }
  }

  /** Reading two fields, token by token. */
  lemma FieldsStep(code: bytes, rest: bytes, first: Token, second: Token)
    requires Next(rest, FIELD_SIZE - 1, SPACE) == Some(first)
    requires Next(first.rest, FIELD_SIZE - 1, SPACE) == Some(second)
    ensures ParseFields(code, rest) ==
            ParseSizes(code, Uint16(StrToLL(first.text)), FlagsValue(second.text, 0), second.rest)
  {
  }

  lemma FieldsLex(code: bytes, trid: int, flags: bytes, sizes: bytes)
    requires 0 <= trid < 65536 && SPACE !in flags && |flags| <= FIELD_SIZE - 1
    ensures ParseFields(code, IntToBytes(trid) + [SPACE] + (flags + [SPACE] + sizes)) ==
            ParseSizes(code, trid, FlagsValue(flags, 0), sizes)
  {
    var n, later := IntToBytes(trid), flags + [SPACE] + sizes;
    SmallDigits(trid);
    NextIs(n, SPACE, later, FIELD_SIZE - 1);
    NextIs(flags, SPACE, sizes, FIELD_SIZE - 1);
    assert Uint16(StrToLL(n)) == trid;
    FieldsStep(code, n + [SPACE] + later, Token(n, later), Token(flags, sizes));
  }

  lemma FieldsComeBack(pk: Packet)
    requires Constructible(pk)
    ensures ParseFields(pk.code, FieldsOf(pk)) == ParseSizes(pk.code, pk.trid, pk.flags % 8, SizesOf(pk))
  {
    FlagsComeBack(pk.flags);
    FieldsLex(pk.code, pk.trid, FlagBytes(pk.flags), SizesOf(pk));
  }

  lemma CodeComesBack(pk: Packet)
    requires Constructible(pk) && PlainCode(pk.code)
    ensures ParseHeader(Header(pk)) == ParseFields(pk.code, FieldsOf(pk))
  {
    FindIs(pk.code, 0, 0, |pk.code|);
    assert CStr(pk.code) == pk.code;
    NextIs(pk.code, SPACE, FieldsOf(pk), CODE_SIZE);
  }

  /** Any other code comes back shorter. */
  lemma CodeShrinks(pk: Packet)
    requires Constructible(pk) && !PlainCode(pk.code)
    ensures ParseHeader(Header(pk)).Some? ==> |ParseHeader(Header(pk)).value.code| < |pk.code|
  {
    var h, c := Header(pk), CStr(pk.code);
    var q := Find(c, SPACE, 0);
    assert forall k :: 0 <= k < |c| ==> h[k] == c[k];
    assert h[|c|] == SPACE;
    FindIs(h, SPACE, 0, q);
    if 0 !in pk.code {
      FindIs(pk.code, 0, 0, |pk.code|);
      assert c == pk.code && SPACE in c;
    }
    assert q < |pk.code|;
    assert Next(h, CODE_SIZE, SPACE) == Some(Token(h[..q], h[q + 1..]));
  }

  /** What a header line of a packet with a plain code says. */
  lemma HeaderSays(pk: Packet)
    requires Constructible(pk) && PlainCode(pk.code)
    ensures var chunked := IsChunked(pk.flags);
            ParseHeader(Header(pk)) ==
            if |pk.body| > MAX_BODY_SIZE || (chunked && pk.total > 0 && pk.index == 0) then None
            else Some(Head(pk.code, pk.trid, pk.flags % 8, |pk.body|, if chunked then pk.total else 0,
                           if chunked then pk.index else 0, pk.appendix))
  {
    CodeComesBack(pk);
    FieldsComeBack(pk);
    FlagsComeBack(pk.flags);
    if |pk.body| > MAX_BODY_SIZE {
      TooLong(pk, pk.flags % 8);
    } else {
      SizesComeBack(pk, pk.flags % 8);
    }
  }

  lemma SaysItAll(pk: Packet, got: Option<Head>)
    requires Constructible(pk) && PlainCode(pk.code)
    requires var chunked := IsChunked(pk.flags);
             got ==
             if |pk.body| > MAX_BODY_SIZE || (chunked && pk.total > 0 && pk.index == 0) then None
             else Some(Head(pk.code, pk.trid, pk.flags % 8, |pk.body|, if chunked then pk.total else 0,
                            if chunked then pk.index else 0, pk.appendix))
    ensures got == Some(HeadOf(pk)) <==> Readable(pk)
  {
    assert pk.flags % 8 == pk.flags <==> pk.flags < 8;
  }

  /** The header round trip, and exactly when it holds. */
  lemma HeaderRoundTrip(pk: Packet)
    requires Constructible(pk)
    ensures ParseHeader(Header(pk)) == Some(HeadOf(pk)) <==> Readable(pk)
  {
    if PlainCode(pk.code) {
      HeaderSays(pk);
      SaysItAll(pk, ParseHeader(Header(pk)));
    } else {
      CodeShrinks(pk);
    }
  }

  // ---------------------------------------------------------------- the fields fit their buffers

  /** The room setHeader has for the fields of a header line besides their final NULs. */
  function FieldSizes(chunked: bool): seq<nat> {
    [CODE_SIZE] + ([FIELD_SIZE - 1] + ([FIELD_SIZE - 1] + SizeFields(chunked)))
  }

  function SizeFields(chunked: bool): seq<nat> {
    [FIELD_SIZE - 1] + if chunked then [FIELD_SIZE - 1] + ([FIELD_SIZE - 1] + []) else []
  }

  lemma NumberFits(n: nat, after: bytes, caps: seq<nat>)
    requires n <= MAX_BODY_SIZE && (after != [] ==> after[0] == SPACE)
    requires TokensFit(if after == [] then [] else after[1..], caps, SPACE)
    ensures TokensFit(IntToBytes(n) + after, [FIELD_SIZE - 1] + caps, SPACE)
  {
    NumberToken(n, after);
    SmallDigits(n);
    TokensFitMore(IntToBytes(n) + after, FIELD_SIZE - 1, caps, SPACE,
                  Token(IntToBytes(n), if after == [] then [] else after[1..]));
  }

  lemma TotalFits(pk: Packet, a: bytes)
    requires Constructible(pk) && a == AppendixBytes(pk)
    ensures TokensFit(IntToBytes(pk.total) + ([SPACE] + (IntToBytes(pk.index) + a)),
                      [FIELD_SIZE - 1] + ([FIELD_SIZE - 1] + []), SPACE)
  {
    AppendixAfter(pk);
    var later := [SPACE] + (IntToBytes(pk.index) + a);
    NumberFits(pk.index, a, []);
    assert later[1..] == IntToBytes(pk.index) + a;
    NumberFits(pk.total, later, [FIELD_SIZE - 1] + []);
  }

  lemma ChunkFits(pk: Packet, a: bytes)
    requires Constructible(pk) && IsChunked(pk.flags) && a == AppendixBytes(pk)
    ensures TokensFit((ChunkBytes(pk) + a)[1..], [FIELD_SIZE - 1] + ([FIELD_SIZE - 1] + []), SPACE)
    ensures (ChunkBytes(pk) + a)[0] == SPACE
  {
    TotalFits(pk, a);
    ChunkParts(pk, a);
  }

  lemma SizesFit(pk: Packet)
    requires Constructible(pk) && |pk.body| <= MAX_BODY_SIZE
    ensures TokensFit(SizesOf(pk), SizeFields(IsChunked(pk.flags)), SPACE)
  {
    var a := AppendixBytes(pk);
    if IsChunked(pk.flags) {
      ChunkFits(pk, a);
      NumberFits(|pk.body|, ChunkBytes(pk) + a, [FIELD_SIZE - 1] + ([FIELD_SIZE - 1] + []));
    } else {
      AppendixAfter(pk);
      assert ChunkBytes(pk) + a == a;
      NumberFits(|pk.body|, a, []);
    }
  }

  lemma DelimitedFits(a: bytes, t: bytes, cap: nat, caps: seq<nat>)
    requires SPACE !in a && |a| <= cap && TokensFit(t, caps, SPACE)
    ensures TokensFit(a + [SPACE] + t, [cap] + caps, SPACE)
  {
    NextIs(a, SPACE, t, cap);
    TokensFitMore(a + [SPACE] + t, cap, caps, SPACE, Token(a, t));
  }

  lemma FieldsFit(pk: Packet)
    requires Constructible(pk) && |pk.body| <= MAX_BODY_SIZE
    ensures TokensFit(FieldsOf(pk), [FIELD_SIZE - 1] + ([FIELD_SIZE - 1] + SizeFields(IsChunked(pk.flags))), SPACE)
  {
    var sizes := SizeFields(IsChunked(pk.flags));
    SizesFit(pk);
    FlagsComeBack(pk.flags);
    SmallDigits(pk.trid);
    DelimitedFits(FlagBytes(pk.flags), SizesOf(pk), FIELD_SIZE - 1, sizes);
    DelimitedFits(IntToBytes(pk.trid), FlagBytes(pk.flags) + [SPACE] + SizesOf(pk), FIELD_SIZE - 1,
                  [FIELD_SIZE - 1] + sizes);
  }

  /** Every field of a printed header fits the buffer that setHeader reads it into. */
  lemma PrintedFieldsFit(pk: Packet)
    requires Constructible(pk) && PlainCode(pk.code) && |pk.body| <= MAX_BODY_SIZE
    ensures TokensFit(Header(pk), FieldSizes(IsChunked(pk.flags)), SPACE)
  {
    FieldsFit(pk);
    FindIs(pk.code, 0, 0, |pk.code|);
    assert CStr(pk.code) == pk.code;
    DelimitedFits(pk.code, FieldsOf(pk), CODE_SIZE,
                  [FIELD_SIZE - 1] + ([FIELD_SIZE - 1] + SizeFields(IsChunked(pk.flags))));
  }
}
