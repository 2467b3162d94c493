/** Message packets in ASCII codes: the printed packet, and what is read in any header line.
    `[13, 10]` is CRLF, 32 the blank and 48 the digit zero. */
module MsgWires {
  import opened Bytes
  import opened Decimal
  import opened Tokenizers
  import opened MsgPackets

  // ---------------------------------------------------------------- written

  /** The printed packet: the code up to a NUL, four fields with the three low flags, the lowest
      first, total and index of a chunk, and an appendix if there is one. */
  lemma PrintSays(pk: Packet, k: nat) returns (trid: bytes, size: bytes, total: bytes, index: bytes)
    requires Constructible(pk) && k <= |pk.code| && 0 !in pk.code[..k] && (k < |pk.code| ==> pk.code[k] == 0)
    ensures IsDecimal(trid, pk.trid) && IsDecimal(size, |pk.body|)
    ensures IsDecimal(total, pk.total) && IsDecimal(index, pk.index)
    ensures Print(pk) ==
            pk.code[..k] + [32] + trid + [32]
            + [48 + pk.flags % 2, 48 + pk.flags / 2 % 2, 48 + pk.flags / 4 % 2] + [32] + size
            + (if pk.flags / 4 % 2 == 1 then [32] + total + [32] + index else [])
            + (if pk.appendix == [] then [] else [32] + pk.appendix)
            + [13, 10] + pk.body
  {
    trid, size := IntToBytes(pk.trid), IntToBytes(|pk.body|);
    total, index := IntToBytes(pk.total), IntToBytes(pk.index);
    IntIsDecimal(pk.trid);
    IntIsDecimal(|pk.body|);
    IntIsDecimal(pk.total);
    IntIsDecimal(pk.index);
    CodeIs(pk.code, k);
    FlagsAre(pk.flags);
    HeaderParts(pk);
  }

  lemma CodeIs(code: bytes, k: nat)
    requires k <= |code| && 0 !in code[..k] && (k < |code| ==> code[k] == 0)
    ensures CStr(code) == code[..k]
  {
    assert forall j :: 0 <= j < k ==> code[j] == code[..k][j];
    FindIs(code, 0, 0, k);
  }

  lemma FlagsAre(flags: int)
    requires 0 <= flags
    ensures FlagBytes(flags) == [48 + flags % 2, 48 + flags / 2 % 2, 48 + flags / 4 % 2]
  {
  }

  lemma PrintAllSays(pks: seq<Packet>, pk: Packet)
    ensures PrintAll([pk] + pks) == Print(pk) + PrintAll(pks) && PrintAll([]) == []
  {
    assert ([pk] + pks)[1..] == pks;
  }

  // ---------------------------------------------------------------- read: the flags

  /** Whether flag number k is on in a string of flags: its byte is there, no NUL has come, and
      it is not the digit zero. */
  predicate IsOn(s: bytes, k: nat) {
    k < |s| && 0 !in s[..k + 1] && s[k] != 48
  }

  function Worth(s: bytes, k: nat, n: nat): nat {
    if IsOn(s, k) then n else 0
  }

  lemma FlagStep(s: bytes, i: nat)
    requires i < 8
    ensures i <= |s| && 0 !in s[..i] && i < |s| && s[i] != 0 ==>
              0 !in s[..i + 1] && FlagsValue(s, i) == Worth(s, i, Power2(i)) + FlagsValue(s, i + 1)
  {
    if i < |s| {
      assert s[..i + 1] == s[..i] + [s[i]];
    }
  }

  /** What flags number i and up come to. */
  function WorthFrom(s: bytes, i: nat): nat
    requires i <= 8
    decreases 8 - i
  {
    if i == 8 then 0 else Worth(s, i, Power2(i)) + WorthFrom(s, i + 1)
  }

  lemma {:induction false} NothingBehind(s: bytes, i: nat, k: nat)
    requires i <= 8 && k <= i && (k >= |s| || s[k] == 0)
    ensures WorthFrom(s, i) == 0
    decreases 8 - i
  {
    if i < 8 {
      if i < |s| {
        assert s[..i + 1][k] == 0;
      }
      NothingBehind(s, i + 1, k);
    }
  }

  lemma {:induction false} FlagsAreWorth(s: bytes, i: nat)
    requires i <= 8 && i <= |s| && 0 !in s[..i]
    ensures FlagsValue(s, i) == WorthFrom(s, i)
    decreases 8 - i
  {
    if i < 8 {
      if i == |s| || s[i] == 0 {
        NothingBehind(s, i, i);
      } else {
        FlagStep(s, i);
        FlagsAreWorth(s, i + 1);
      }
    }
  }

  lemma Powers()
    ensures Power2(0) == 1 && Power2(1) == 2 && Power2(2) == 4 && Power2(3) == 8
    ensures Power2(4) == 16 && Power2(5) == 32 && Power2(6) == 64 && Power2(7) == 128
  {
    assert Power2(2) == 4;
    assert Power2(4) == 16;
    assert Power2(6) == 64;
  }

  /** A string of flags, the lowest first, up to eight of them. */
  lemma FlagsSay(s: bytes)
    ensures FlagsValue(s, 0) ==
            Worth(s, 0, 1) + Worth(s, 1, 2) + Worth(s, 2, 4) + Worth(s, 3, 8)
            + Worth(s, 4, 16) + Worth(s, 5, 32) + Worth(s, 6, 64) + Worth(s, 7, 128)
  {
    FlagsAreWorth(s, 0);
    Powers();
    assert WorthFrom(s, 6) == Worth(s, 6, 64) + Worth(s, 7, 128);
    assert WorthFrom(s, 4) == Worth(s, 4, 16) + Worth(s, 5, 32) + WorthFrom(s, 6);
    assert WorthFrom(s, 2) == Worth(s, 2, 4) + Worth(s, 3, 8) + WorthFrom(s, 4);
  }

  // ---------------------------------------------------------------- read: the line

  /** A field of at most n bytes. */
  predicate IsField(a: bytes, n: nat) {
    32 !in a && |a| <= n
  }

  /** The part of a line up to the body size. */
  function FrontOf(code: bytes, trid: bytes, flags: bytes, rest: bytes): bytes {
    code + [32] + (trid + [32] + (flags + [32] + rest))
  }

  lemma CodeStep(line: bytes, code: bytes, rest: bytes)
    requires Next(line, 4, 32) == Some(Token(code, rest))
    ensures ParseHeader(line) == ParseFields(code, rest)
  {
  }

  lemma Low16(i: int)
    ensures Uint16(i) == i % 65536
  {
  }

  lemma TwoTokens(trid: bytes, flags: bytes, later: bytes, rest: bytes)
    requires IsField(trid, 15) && IsField(flags, 15) && later == flags + [32] + rest
    ensures Next(trid + [32] + later, 15, 32) == Some(Token(trid, later))
    ensures Next(later, 15, 32) == Some(Token(flags, rest))
  {
    NextIs(trid, 32, later, 15);
    NextIs(flags, 32, rest, 15);
  }

  lemma FieldsRead(code: bytes, trid: bytes, flags: bytes, later: bytes, rest: bytes, goal: Option<Head>)
    requires IsField(trid, 15) && IsField(flags, 15) && later == flags + [32] + rest
    requires goal == ParseSizes(code, StrToLL(trid) % 65536, FlagsValue(flags, 0), rest)
    ensures ParseFields(code, trid + [32] + later) == goal
  {
    TwoTokens(trid, flags, later, rest);
    Low16(StrToLL(trid));
    FieldsStep(code, trid + [32] + later, Token(trid, later), Token(flags, rest));
  }

  lemma ReadsFront(code: bytes, trid: bytes, flags: bytes, rest: bytes)
    requires IsField(code, 4) && IsField(trid, 15) && IsField(flags, 15)
    ensures ParseHeader(FrontOf(code, trid, flags, rest)) ==
            ParseSizes(code, StrToLL(trid) % 65536, FlagsValue(flags, 0), rest)
  {
    var fields := trid + [32] + (flags + [32] + rest);
    NextIs(code, 32, fields, 4);
    CodeStep(FrontOf(code, trid, flags, rest), code, fields);
    FieldsRead(code, trid, flags, flags + [32] + rest, rest,
               ParseSizes(code, StrToLL(trid) % 65536, FlagsValue(flags, 0), rest));
  }

  lemma SizeStep(code: bytes, trid: int, flags: int, line: bytes, size: bytes, rest: bytes)
    requires Next(line, 15, 32) == Some(Token(size, rest))
    ensures var n := StrToLL(size);
            ParseSizes(code, trid, flags, line) ==
            if n > 1048576 then None else ParseChunk(code, trid, flags, if n < 0 then 0 else n, rest)
  {
  }

  /** A header line without a chunk: numbers are taken modulo 65536, a negative size is none, one
      above a megabyte is refused, and all that follows is the appendix. */
  lemma ReadsPlain(code: bytes, trid: bytes, flags: bytes, size: bytes, appendix: bytes)
    requires IsField(code, 4) && IsField(trid, 15) && IsField(flags, 15) && IsField(size, 15)
    requires !IsOn(flags, 2)
    ensures var n := StrToLL(size);
            ParseHeader(FrontOf(code, trid, flags, size + [32] + appendix)) ==
            if n > 1048576 then None
            else Some(Head(code, StrToLL(trid) % 65536, FlagsValue(flags, 0), if n < 0 then 0 else n, 0, 0, appendix))
  {
    ReadsFront(code, trid, flags, size + [32] + appendix);
    NextIs(size, 32, appendix, 15);
    SizeStep(code, StrToLL(trid) % 65536, FlagsValue(flags, 0), size + [32] + appendix, size, appendix);
    ChunkedIsOn(flags);
  }

  lemma ThirdBit(high: nat, w: nat, low: nat)
    requires low < 4 && (w == 0 || w == 4)
    ensures (high * 8 + w + low) / 4 % 2 == 1 <==> w == 4
  {
  }

  /** The third flag announces a chunk. */
  lemma ChunkedIsOn(flags: bytes)
    ensures IsChunked(FlagsValue(flags, 0)) <==> IsOn(flags, 2)
  {
    FlagsSay(flags);
    var low := Worth(flags, 0, 1) + Worth(flags, 1, 2);
    var high := Worth(flags, 3, 1) + Worth(flags, 4, 2) + Worth(flags, 5, 4) + Worth(flags, 6, 8) + Worth(flags, 7, 16);
    ThirdBit(high, Worth(flags, 2, 4), low);
  }

  /** A header line with a chunk, whose index may be zero only if its total is. */
  lemma ReadsChunk(code: bytes, trid: bytes, flags: bytes, size: bytes, total: bytes, index: bytes, appendix: bytes)
    requires IsField(code, 4) && IsField(trid, 15) && IsField(flags, 15) && IsField(size, 15)
    requires IsField(total, 15) && IsField(index, 15) && IsOn(flags, 2)
    ensures var n, t, i := StrToLL(size), StrToLL(total) % 65536, StrToLL(index) % 65536;
            ParseHeader(FrontOf(code, trid, flags, size + [32] + (total + [32] + (index + [32] + appendix)))) ==
            if n > 1048576 || (t > 0 && i == 0) then None
            else Some(Head(code, StrToLL(trid) % 65536, FlagsValue(flags, 0), if n < 0 then 0 else n, t, i, appendix))
  {
    var rest := total + [32] + (index + [32] + appendix);
    var n := StrToLL(size);
    ReadsFront(code, trid, flags, size + [32] + rest);
    NextIs(size, 32, rest, 15);
    SizeStep(code, StrToLL(trid) % 65536, FlagsValue(flags, 0), size + [32] + rest, size, rest);
    ChunkedIsOn(flags);
    ChunkReads(code, StrToLL(trid) % 65536, FlagsValue(flags, 0), if n < 0 then 0 else n, total, index, appendix);
  }

  lemma ChunkReads(code: bytes, trid: int, flags: int, n: nat, total: bytes, index: bytes, appendix: bytes)
    requires IsChunked(flags) && IsField(total, 15) && IsField(index, 15)
    ensures var t, i := StrToLL(total) % 65536, StrToLL(index) % 65536;
            ParseChunk(code, trid, flags, n, total + [32] + (index + [32] + appendix)) ==
            if t > 0 && i == 0 then None else Some(Head(code, trid, flags, n, t, i, appendix))
  {
    var later := index + [32] + appendix;
    NextIs(total, 32, later, 15);
    NextIs(index, 32, appendix, 15);
    ChunkStep(code, trid, flags, n, total + [32] + later, Token(total, later), Token(index, appendix));
  }

  /** Without an appendix the line ends with its last number. */
  lemma ReadsToEnd(code: bytes, trid: bytes, flags: bytes, size: bytes)
    requires IsField(code, 4) && IsField(trid, 15) && IsField(flags, 15) && IsField(size, 15) && size != []
    requires !IsOn(flags, 2)
    ensures ParseHeader(FrontOf(code, trid, flags, size)) ==
            ParseHeader(FrontOf(code, trid, flags, size + [32]))
  {
    ReadsPlain(code, trid, flags, size, []);
    assert size + [32] + [] == size + [32];
    ReadsFront(code, trid, flags, size);
    NextIsLast(size, 32, 15);
    SizeStep(code, StrToLL(trid) % 65536, FlagsValue(flags, 0), size, size, []);
    ChunkedIsOn(flags);
  }

  /** A line without a blank, or with a code that is too long, is refused. */
  lemma RefusesCode(line: bytes)
    requires 32 !in line || (|line| >= 6 && 32 !in line[..6])
    ensures ParseHeader(line) == None
  {
    if 32 !in line {
      FindIs(line, 32, 0, |line|);
    } else {
      assert forall j :: 0 <= j < 6 ==> line[j] == line[..6][j];
      assert Find(line, 32, 0) >= 6;
    }
  }
}
