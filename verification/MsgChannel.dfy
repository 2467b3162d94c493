/** Incremental framing of message packets (MsgChannel::eventReadData). */
module MsgChannels {
  import opened Bytes
  import opened IoBuffers
  import opened Tokenizers
  import opened MsgPackets

  /** The receive states that outlive a call of eventReadData. */
  datatype Phase = START | HEADER | BODY

  const NO_HEAD: Head := Head([], 0, 0, 0, 0, 0, [])

  /** m_recv is `head` with the body bytes received so far, `got`, of which `want` are to come
      in all; `out` is what has been handed up; `dead` is set by eventError. */
  datatype State = State(
    phase: Phase, head: Head, want: nat, got: bytes, buf: bytes, out: seq<Packet>, dead: bool)

  const INIT: State := State(START, NO_HEAD, 0, [], [], [], false)

  ghost predicate Valid(st: State) {
    && (st.phase == HEADER ==> st.got == [])
    && (st.phase == BODY ==> |st.got| < st.want)
  }

  /** RecvState::START falls through to HEADER. */
  function Begin(st: State): State {
    if st.phase == START then st.(phase := HEADER, head := NO_HEAD, want := 0, got := []) else st
  }

  /** A header line has been cut off and parsed. */
  function TakeHeader(s: State, head: Option<Head>, rest: bytes): (r: (State, bool))
    requires s.phase == HEADER && s.got == []
    ensures Valid(r.0) && r.0.buf == rest
  {
    match head
    case None => (s.(phase := START, buf := rest, dead := true), false)
    case Some(h) =>
      if h.bodyLen > 0 then
        (s.(phase := BODY, head := h, want := h.bodyLen, buf := rest), true)
      else (s.(phase := START, head := h, buf := rest, out := s.out + [WithBody(h, [])]), true)
  }

  /** The header part of the loop body; the flag says whether the loop goes on. */
  function HeaderTurn(s: State): (r: (State, bool))
    requires s.phase == HEADER && s.got == []
    ensures Valid(r.0) && (r.1 ==> |r.0.buf| < |s.buf|)
  {
    if |s.buf| < MIN_HEADER_SIZE then (s, false)
    else
      var k := FindCrlf(s.buf, 0);
      if k == |s.buf| then
        if |s.buf| > MAX_HEADER_SIZE then (s.(phase := START, dead := true), false) else (s, false)
      else
        TakeHeader(s, ParseHeader(s.buf[..k]), s.buf[k + 2..])
  }

  /** The body part, with RecvState::DONE. */
  function BodyTurn(s: State): (r: (State, bool))
    requires Valid(s) && s.phase == BODY
    ensures Valid(r.0) && (r.1 ==> |r.0.buf| < |s.buf|)
  {
    var n := if |s.buf| < s.want - |s.got| then |s.buf| else s.want - |s.got|;
    var got := s.got + s.buf[..n];
    var s' := s.(got := got, buf := s.buf[n..]);
    if |got| != s.want then (s', false)
    else (s'.(phase := START, out := s.out + [WithBody(s.head, got)]), true)
  }

  function Turn(st: State): (r: (State, bool))
    requires Valid(st)
    ensures Valid(r.0)
    ensures r.1 ==> |r.0.buf| < |st.buf|
  {
    if st.phase == BODY then BodyTurn(st) else HeaderTurn(Begin(st))
  }

  /** The whole of eventReadData. */
  function Run(st: State): (r: State)
    requires Valid(st)
    ensures Valid(r)
    decreases |st.buf|
  {
    var (st', more) := Turn(st);
    if more then Run(st') else st'
  }

  function Extend(st: State, t: bytes): State {
    st.(buf := st.buf + t)
  }

  /** A released channel gets no more read events. */
  function Feed(st: State, chunk: bytes): (r: State)
    requires Valid(st)
    ensures Valid(r)
  {
    if st.dead then st else Run(Extend(st, chunk))
  }

  function FeedAll(st: State, chunks: seq<bytes>): (r: State)
    requires Valid(st)
    ensures Valid(r)
    decreases chunks
  {
    if chunks == [] then st else FeedAll(Feed(st, chunks[0]), chunks[1..])
  }

  // ---------------------------------------------------------------- cutting the stream

  lemma CrlfStays(s: bytes, t: bytes)
    requires FindCrlf(s, 0) < |s|
    ensures FindCrlf(s + t, 0) == FindCrlf(s, 0)
  {
    FindCrlfIs(s + t, FindCrlf(s, 0));
  }

  lemma TakeHeaderExtends(s: State, head: Option<Head>, rest: bytes, t: bytes)
    requires s.phase == HEADER && s.got == []
    ensures TakeHeader(Extend(s, t), head, rest + t) ==
            (Extend(TakeHeader(s, head, rest).0, t), TakeHeader(s, head, rest).1)
  {
  }

  lemma HeaderTurnExtends(s: State, t: bytes)
    requires s.phase == HEADER && s.got == [] && HeaderTurn(s).1
    ensures HeaderTurn(Extend(s, t)) == (Extend(HeaderTurn(s).0, t), true)
  {
    var k := FindCrlf(s.buf, 0);
    CrlfStays(s.buf, t);
    SliceOfSum(s.buf, t, k);
    SliceOfSum(s.buf, t, k + 2);
    TakeHeaderExtends(s, ParseHeader(s.buf[..k]), s.buf[k + 2..], t);
  }

  lemma BodyTurnExtends(s: State, t: bytes)
    requires Valid(s) && s.phase == BODY && BodyTurn(s).1
    ensures BodyTurn(Extend(s, t)) == (Extend(BodyTurn(s).0, t), true)
  {
    var n := s.want - |s.got|;
    SliceOfSum(s.buf, t, n);
  }

  /** A turn after which the loop goes on is not changed by bytes that come later. */
  lemma TurnExtends(st: State, t: bytes)
    requires Valid(st) && Turn(st).1
    ensures Turn(Extend(st, t)) == (Extend(Turn(st).0, t), true)
  {
    if st.phase == BODY {
      BodyTurnExtends(st, t);
    } else {
      HeaderTurnExtends(Begin(st), t);
    }
  }

  lemma LastBodyTurnExtends(s: State, t: bytes)
    requires Valid(s) && s.phase == BODY && !BodyTurn(s).1
    ensures BodyTurn(Extend(BodyTurn(s).0, t)) == BodyTurn(Extend(s, t))
  {
    var s' := BodyTurn(s).0;
    assert s'.buf == [] && s'.got == s.got + s.buf && [] + t == t;
    var want := s.want - |s.got|;
    var n := if |s.buf + t| < want then |s.buf + t| else want;
    SliceBeyond(s.buf, t, n);
    Assoc(s.got, s.buf, t[..n - |s.buf|]);
  }

  /** Nor does it matter that a last turn has already looked at the bytes before them. */
  lemma LastTurnExtends(st: State, t: bytes)
    requires Valid(st) && !Turn(st).1 && !Turn(st).0.dead && !st.dead
    ensures Turn(Extend(Turn(st).0, t)) == Turn(Extend(st, t))
  {
    if st.phase == BODY {
      LastBodyTurnExtends(st, t);
    } else {
      assert Turn(st).0 == Begin(st);
      assert Begin(Extend(Begin(st), t)) == Begin(Extend(st, t));
    }
  }

  /** Cut independence of one cut: whatever the bytes, if the first part has not been refused,
      going on with `t` is the same as having had it from the start. */
  lemma {:induction false} RunSplits(st: State, t: bytes)
    requires Valid(st) && !st.dead && !Run(st).dead
    ensures Run(Extend(Run(st), t)) == Run(Extend(st, t))
    decreases |st.buf|
  {
    if Turn(st).1 {
      TurnExtends(st, t);
      assert !Turn(st).0.dead;
      RunSplits(Turn(st).0, t);
    } else {
      LastTurnExtends(st, t);
    }
  }

  // ---------------------------------------------------------------- one packet

  /** A packet the channel can frame: the parser reads its header line back, the line has no
      CRLF inside and is not too long, and the packet is as long as the shortest header that
      the channel waits for. */
  predicate Framed(pk: Packet) {
    && Constructible(pk) && Readable(pk)
    && FindCrlf(Header(pk), 0) == |Header(pk)|
    && |Header(pk)| < MAX_HEADER_SIZE
    && |Print(pk)| >= MIN_HEADER_SIZE
  }

  /** The same state between two packets; what START clears does not matter. */
  function Between(out: seq<Packet>, buf: bytes): State {
    INIT.(out := out, buf := buf)
  }

  lemma StartForgets(st: State)
    requires st.phase == START && !st.dead
    ensures Run(st) == Run(Between(st.out, st.buf))
  {
    assert Begin(st) == Begin(Between(st.out, st.buf));
  }

  lemma HeaderLine(pk: Packet, t: bytes)
    requires Framed(pk)
    ensures var s := Header(pk) + CRLF + t;
            var k := |Header(pk)|;
            FindCrlf(s, 0) == k && s[..k] == Header(pk) && s[k + 2..] == t
    ensures ParseHeader(Header(pk)) == Some(HeadOf(pk))
  {
    var h := Header(pk);
    var s := h + CRLF + t;
    assert forall j :: 0 <= j < |h| ==> s[j] == h[j];
    FindCrlfIs(s, |h|);
    HeaderRoundTrip(pk);
  }

  /** The state after the header line of a packet with a body. */
  function InBody(out: seq<Packet>, pk: Packet, buf: bytes): State {
    State(BODY, HeadOf(pk), |pk.body|, [], buf, out, false)
  }

  /** Once it is as long as the shortest header, a buffer that starts with a header line takes
      the channel past it. */
  lemma HeaderActs(out: seq<Packet>, pk: Packet, t: bytes)
    requires Framed(pk) && |Header(pk) + CRLF + t| >= MIN_HEADER_SIZE
    ensures Run(Between(out, Header(pk) + CRLF + t)) ==
            if pk.body != [] then Run(InBody(out, pk, t)) else Run(Between(out + [pk], t))
  {
    HeaderLine(pk, t);
    var st := Between(out, Header(pk) + CRLF + t);
    if pk.body != [] {
      assert Turn(st) == (InBody(out, pk, t), true);
    } else {
      assert WithBody(HeadOf(pk), []) == pk;
      StartForgets(Turn(st).0);
    }
  }

  /** A body that has come in whole is handed up. */
  lemma BodyActs(out: seq<Packet>, pk: Packet, t: bytes)
    requires pk.body != []
    ensures Run(InBody(out, pk, pk.body + t)) == Run(Between(out + [pk], t))
  {
    var st := InBody(out, pk, pk.body + t);
    assert (pk.body + t)[..|pk.body|] == pk.body && (pk.body + t)[|pk.body|..] == t;
    assert [] + pk.body == pk.body;
    assert WithBody(HeadOf(pk), pk.body) == pk;
    StartForgets(Turn(st).0);
  }

  lemma PrintedBefore(pk: Packet, t: bytes)
    ensures Print(pk) + t == Header(pk) + CRLF + (pk.body + t)
    ensures pk.body == [] ==> pk.body + t == t
  {
    Assoc(Header(pk) + CRLF, pk.body, t);
  }

  /** A whole packet is handed up. */
  lemma PacketActs(out: seq<Packet>, pk: Packet, t: bytes)
    requires Framed(pk)
    ensures Run(Between(out, Print(pk) + t)) == Run(Between(out + [pk], t))
  {
    PrintedBefore(pk, t);
    HeaderActs(out, pk, pk.body + t);
    if pk.body != [] {
      BodyActs(out, pk, t);
    }
  }

  /** Nothing has been handed up, and nothing was refused. */
  predicate WaitsAt(st: State, out: seq<Packet>) {
    !st.dead && st.out == out
  }

  lemma PartOfHeaderWaits(out: seq<Packet>, pk: Packet, line: bytes, r: bytes)
    requires Framed(pk) && line == Header(pk) + CRLF && r <= line && r != line
    ensures WaitsAt(Run(Between(out, r)), out)
  {
    assert forall j :: 0 <= j < |r| ==> r[j] == line[j];
    FindCrlfIs(r, |r|);
  }

  lemma PartOfBodyWaits(out: seq<Packet>, pk: Packet, t: bytes)
    requires |t| < |pk.body|
    ensures WaitsAt(Run(InBody(out, pk, t)), out)
  {
  }

  /** A packet that has not come in whole is waited for. */
  lemma PartWaits(out: seq<Packet>, pk: Packet, r: bytes)
    requires Framed(pk) && r <= Print(pk) && r != Print(pk)
    ensures WaitsAt(Run(Between(out, r)), out)
  {
    var line := Header(pk) + CRLF;
    assert Print(pk) == line + pk.body;
    if |r| < |line| {
      assert r <= line;
      PartOfHeaderWaits(out, pk, line, r);
    } else {
      var t := r[|line|..];
      assert r == line + t && |t| < |pk.body|;
      if |r| < MIN_HEADER_SIZE {
        TooFewWait(out, r);
      } else {
        HeaderActs(out, pk, t);
        PartOfBodyWaits(out, pk, t);
      }
    }
  }

  lemma TooFewWait(out: seq<Packet>, r: bytes)
    requires |r| < MIN_HEADER_SIZE
    ensures WaitsAt(Run(Between(out, r)), out)
  {
  }

  // ---------------------------------------------------------------- lists of packets

  /** How many of the printed packets lie wholly inside the first n bytes. */
  function Whole(pks: seq<Packet>, n: nat): (k: nat)
    ensures k <= |pks|
  {
    if pks == [] || n < |Print(pks[0])| then 0
    else Whole(pks[1..], n - |Print(pks[0])|) + 1
  }

  lemma ShiftOne(out: seq<Packet>, pks: seq<Packet>, k: nat)
    requires k < |pks|
    ensures out + [pks[0]] + pks[1..][..k] == out + pks[..k + 1]
  {
  }

  lemma PrefixWaits(out: seq<Packet>, pks: seq<Packet>, p: bytes)
    requires pks != [] && Framed(pks[0]) && p <= PrintAll(pks) && |p| < |Print(pks[0])|
    ensures WaitsAt(Run(Between(out, p)), out + pks[..Whole(pks, |p|)])
  {
    assert p <= Print(pks[0]) && p != Print(pks[0]);
    PartWaits(out, pks[0], p);
    assert out + pks[..0] == out;
  }

  lemma FirstOf(pks: seq<Packet>, p: bytes, first: bytes, rest: bytes)
    requires pks != [] && p <= PrintAll(pks) && first == Print(pks[0]) && |first| <= |p| && rest == p[|first|..]
    ensures p == first + rest && rest <= PrintAll(pks[1..])
    ensures Whole(pks, |p|) == Whole(pks[1..], |rest|) + 1
  {
  }

  lemma PrefixStep(out: seq<Packet>, pks: seq<Packet>, p: bytes, rest: bytes)
    requires pks != [] && Framed(pks[0]) && p <= PrintAll(pks) && |Print(pks[0])| <= |p|
    requires rest == p[|Print(pks[0])|..]
    requires WaitsAt(Run(Between(out + [pks[0]], rest)), out + [pks[0]] + pks[1..][..Whole(pks[1..], |rest|)])
    ensures WaitsAt(Run(Between(out, p)), out + pks[..Whole(pks, |p|)])
  {
    FirstOf(pks, p, Print(pks[0]), rest);
    PacketActs(out, pks[0], rest);
    ShiftOne(out, pks, Whole(pks[1..], |rest|));
  }

  /** Any prefix of the printed packets, received at once: exactly the packets wholly inside it
      have been handed up, and nothing was refused. */
  lemma {:induction false} PrefixDelivers(out: seq<Packet>, pks: seq<Packet>, p: bytes)
    requires forall pk <- pks :: Framed(pk)
    requires p <= PrintAll(pks)
    ensures WaitsAt(Run(Between(out, p)), out + pks[..Whole(pks, |p|)])
    decreases pks
  {
    if pks == [] {
      TooFewWait(out, p);
      assert out + pks[..0] == out;
    } else if |p| < |Print(pks[0])| {
      PrefixWaits(out, pks, p);
    } else {
      var rest := p[|Print(pks[0])|..];
      FirstOf(pks, p, Print(pks[0]), rest);
      PrefixDelivers(out + [pks[0]], pks[1..], rest);
      PrefixStep(out, pks, p, rest);
    }
  }

  lemma {:induction false} ChunksAfter(pks: seq<Packet>, p: bytes, chunks: seq<bytes>)
    requires forall pk <- pks :: Framed(pk)
    requires p + Flatten(chunks) <= PrintAll(pks)
    ensures FeedAll(Run(Between([], p)), chunks) == Run(Between([], p + Flatten(chunks)))
    decreases chunks
  {
    if chunks == [] {
      assert p + [] == p;
    } else {
      var q := p + chunks[0];
      assert p + Flatten(chunks) == q + Flatten(chunks[1..]);
      PrefixDelivers([], pks, p);
      RunSplits(Between([], p), chunks[0]);
      ChunksAfter(pks, q, chunks[1..]);
    }
  }

  /** The framing theorem: for any list of packets that can be framed and any fragmentation of
      any prefix of its bytes, the channel has handed up exactly the packets whose last byte has
      arrived, in order, and is in the state one read of the whole prefix would leave. */
  lemma AnyPrefixAnyCut(pks: seq<Packet>, chunks: seq<bytes>)
    requires forall pk <- pks :: Framed(pk)
    requires chunks != [] && Flatten(chunks) <= PrintAll(pks)
    ensures FeedAll(INIT, chunks) == Feed(INIT, Flatten(chunks))
    ensures var st := FeedAll(INIT, chunks);
            !st.dead && st.out == pks[..Whole(pks, |Flatten(chunks)|)]
  {
    var p := chunks[0];
    assert Extend(INIT, p) == Between([], p) by { assert [] + p == p; }
    assert Flatten(chunks) == p + Flatten(chunks[1..]);
    assert Extend(INIT, Flatten(chunks)) == Between([], Flatten(chunks)) by {
      assert [] + Flatten(chunks) == Flatten(chunks);
    }
    ChunksAfter(pks, p, chunks[1..]);
    PrefixDelivers([], pks, Flatten(chunks));
    assert [] + pks[..Whole(pks, |Flatten(chunks)|)] == pks[..Whole(pks, |Flatten(chunks)|)];
  }

  /** A packet shorter than 12 bytes has come in whole and is still waited for. */
  lemma TooShortWaits(pk: Packet)
    requires Constructible(pk) && |Print(pk)| < MIN_HEADER_SIZE
    ensures Run(Between([], Print(pk))).out == []
  {
  }

  /** The length condition is exact: of the packets that meet all the others, those that are long
      enough are handed up as soon as they are there, and no others. */
  lemma LengthIsExact(pk: Packet)
    requires Constructible(pk) && Readable(pk)
    requires FindCrlf(Header(pk), 0) == |Header(pk)| && |Header(pk)| < MAX_HEADER_SIZE
    ensures Run(Between([], Print(pk))).out == [pk] <==> |Print(pk)| >= MIN_HEADER_SIZE
  {
    if |Print(pk)| >= MIN_HEADER_SIZE {
      PacketActs([], pk, []);
      assert Print(pk) + [] == Print(pk) && [] + [pk] == [pk];
      assert Run(Between([pk], [])).out == [pk];
    } else {
      TooShortWaits(pk);
    }
  }

  // ---------------------------------------------------------------- what is refused

  lemma RefusedAt(out: seq<Packet>, s: bytes, line: bytes)
    requires FindCrlf(s, 0) == |line| && 10 <= |line| <= |s| - 2 && s[..|line|] == line
    requires ParseHeader(line).None?
    ensures var st := Run(Between(out, s));
            st.dead && st.out == out && st.buf == s[|line| + 2..]
  {
  }

  /** A header line that does not parse ends the channel: nothing more is handed up, and what comes
      behind the line stays where it is. */
  lemma RefusedLine(out: seq<Packet>, line: bytes, t: bytes)
    requires FindCrlf(line + [13, 10], 0) == |line| && |line| >= 10 && ParseHeader(line).None?
    ensures var st := Run(Between(out, line + [13, 10] + t));
            st.dead && st.out == out && st.buf == t
  {
    var s := line + [13, 10] + t;
    LineFirst(line, t);
    assert s[..|line|] == line && s[|line| + 2..] == t;
    RefusedAt(out, s, line);
  }

  lemma LineFirst(line: bytes, t: bytes)
    requires FindCrlf(line + [13, 10], 0) == |line|
    ensures FindCrlf(line + [13, 10] + t, 0) == |line|
  {
    CrlfStays(line + [13, 10], t);
  }

  /** Without a CRLF the channel waits up to 4096 bytes and gives up with more. */
  lemma NoLine(out: seq<Packet>, s: bytes)
    requires FindCrlf(s, 0) == |s|
    ensures var st := Run(Between(out, s));
            st.out == out && st.buf == s && (st.dead <==> |s| > 4096)
  {
  }

  /** A channel that has ended hears of nothing more. */
  lemma {:induction false} DeadStays(st: State, chunks: seq<bytes>)
    requires Valid(st) && st.dead
    ensures FeedAll(st, chunks) == st
    decreases chunks
  {
    if chunks != [] {
      DeadStays(st, chunks[1..]);
    }
  }

  lemma PacketFirst(out: seq<Packet>, pk: Packet, s: bytes, rest: bytes, goal: State)
    requires Framed(pk) && s == Print(pk) + rest && Run(Between(out + [pk], rest)) == goal
    ensures Run(Between(out, s)) == goal
  {
    PacketActs(out, pk, rest);
  }

  lemma PrintedFirst(pks: seq<Packet>, t: bytes)
    requires pks != []
    ensures PrintAll(pks) + t == Print(pks[0]) + (PrintAll(pks[1..]) + t)
  {
    Assoc(Print(pks[0]), PrintAll(pks[1..]), t);
  }

  lemma ShiftAll(out: seq<Packet>, pks: seq<Packet>)
    requires pks != []
    ensures out + [pks[0]] + pks[1..] == out + pks
  {
  }

  lemma {:induction false} PacketsAct(out: seq<Packet>, pks: seq<Packet>, s: bytes, t: bytes, all: seq<Packet>)
    requires forall pk <- pks :: Framed(pk)
    requires s == PrintAll(pks) + t && all == out + pks
    ensures Run(Between(out, s)) == Run(Between(all, t))
    decreases pks
  {
    if pks == [] {
      assert s == t && all == out;
    } else {
      PrintedFirst(pks, t);
      ShiftAll(out, pks);
      var rest := PrintAll(pks[1..]) + t;
      PacketsAct(out + [pks[0]], pks[1..], rest, t, all);
      PacketFirst(out, pks[0], s, rest, Run(Between(all, t)));
    }
  }

  /** How far a channel can have come in a stream of good packets and a line that does not parse:
      it waits, or it has ended and handed up just those packets. */
  predicate Stopped(st: State, pks: seq<Packet>) {
    st.dead && st.out == pks
  }

  lemma CrlfInPart(line: bytes, t: bytes, q: bytes)
    requires FindCrlf(line + [13, 10], 0) == |line| && q <= line + [13, 10] + t && |q| < |line| + 2
    ensures FindCrlf(q, 0) == |q|
  {
    LineFirst(line, t);
    var s := line + [13, 10] + t;
    assert forall j :: 0 <= j < |q| ==> q[j] == s[j];
    FindCrlfIs(q, |q|);
  }

  /** A line that does not parse, and CRLF. */
  predicate BadLine(line: bytes) {
    FindCrlf(line + [13, 10], 0) == |line| && |line| >= 10 && ParseHeader(line).None?
  }

  lemma BehindRefused(pks: seq<Packet>, line: bytes, q: bytes, rest: bytes)
    requires BadLine(line) && q == line + [13, 10] + rest
    ensures Stopped(Run(Between(pks, q)), pks)
  {
    RefusedLine(pks, line, rest);
  }

  lemma PartOfRefused(pks: seq<Packet>, line: bytes, t: bytes, q: bytes)
    requires BadLine(line) && q <= line + [13, 10] + t
    ensures Run(Between(pks, q)).dead ==> Stopped(Run(Between(pks, q)), pks)
    ensures |q| >= |line| + 2 ==> Stopped(Run(Between(pks, q)), pks)
  {
    if |q| < |line| + 2 {
      CrlfInPart(line, t, q);
      NoLine(pks, q);
    } else {
      LineOfPart(line, t, q);
      BehindRefused(pks, line, q, q[|line| + 2..]);
    }
  }

  lemma LineOfPart(line: bytes, t: bytes, q: bytes)
    requires q <= line + [13, 10] + t && |q| >= |line| + 2
    ensures q == line + [13, 10] + q[|line| + 2..]
  {
  }

  lemma SplitPrefix(p: bytes, good: bytes, bad: bytes)
    requires p <= good + bad
    ensures |p| <= |good| ==> p <= good
    ensures |p| > |good| ==> p == good + p[|good|..] && p[|good|..] <= bad
  {
  }

  lemma BehindGood(pks: seq<Packet>, line: bytes, t: bytes, p: bytes, q: bytes)
    requires forall pk <- pks :: Framed(pk)
    requires BadLine(line) && p == PrintAll(pks) + q && q <= line + [13, 10] + t
    ensures Run(Between([], p)).dead ==> Stopped(Run(Between([], p)), pks)
    ensures |q| >= |line| + 2 ==> Stopped(Run(Between([], p)), pks)
  {
    assert [] + pks == pks;
    PacketsAct([], pks, p, q, pks);
    PartOfRefused(pks, line, t, q);
  }

  lemma PrefixOfRefused(pks: seq<Packet>, line: bytes, t: bytes, p: bytes)
    requires forall pk <- pks :: Framed(pk)
    requires BadLine(line) && p <= PrintAll(pks) + (line + [13, 10] + t)
    ensures Run(Between([], p)).dead ==> Stopped(Run(Between([], p)), pks)
    ensures |p| >= |PrintAll(pks)| + |line| + 2 ==> Stopped(Run(Between([], p)), pks)
  {
    var good := PrintAll(pks);
    SplitPrefix(p, good, line + [13, 10] + t);
    if |p| <= |good| {
      PrefixDelivers([], pks, p);
    } else {
      BehindGood(pks, line, t, p, p[|good|..]);
    }
  }

  lemma {:induction false} RefusedAfter(pks: seq<Packet>, line: bytes, t: bytes, p: bytes, chunks: seq<bytes>)
    requires forall pk <- pks :: Framed(pk)
    requires BadLine(line)
    requires p + Flatten(chunks) == PrintAll(pks) + (line + [13, 10] + t)
    ensures Stopped(FeedAll(Run(Between([], p)), chunks), pks)
    decreases chunks
  {
    PrefixOfRefused(pks, line, t, p);
    if chunks == [] {
      assert p + [] == p;
    } else if Run(Between([], p)).dead {
      DeadStays(Run(Between([], p)), chunks);
    } else {
      assert p + Flatten(chunks) == p + chunks[0] + Flatten(chunks[1..]);
      RunSplits(Between([], p), chunks[0]);
      RefusedAfter(pks, line, t, p + chunks[0], chunks[1..]);
    }
  }

  /** Good packets and then a line that does not parse, in any fragments: exactly the good packets
      are handed up, whatever follows the line, and the channel has ended. */
  lemma RefusalEnds(pks: seq<Packet>, line: bytes, t: bytes, chunks: seq<bytes>)
    requires forall pk <- pks :: Framed(pk)
    requires FindCrlf(line + [13, 10], 0) == |line| && |line| >= 10 && ParseHeader(line).None?
    requires Flatten(chunks) == PrintAll(pks) + (line + [13, 10] + t)
    ensures FeedAll(INIT, chunks).dead && FeedAll(INIT, chunks).out == pks
  {
    FirstChunk(chunks);
    RefusedAfter(pks, line, t, chunks[0], chunks[1..]);
  }

  lemma FirstChunk(chunks: seq<bytes>)
    requires Flatten(chunks) != []
    ensures chunks != [] && Flatten(chunks) == chunks[0] + Flatten(chunks[1..])
    ensures FeedAll(INIT, chunks) == FeedAll(Run(Between([], chunks[0])), chunks[1..])
  {
    assert Extend(INIT, chunks[0]) == Between([], chunks[0]) by { assert [] + chunks[0] == chunks[0]; }
  }
}
