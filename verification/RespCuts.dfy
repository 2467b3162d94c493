/** Independence of the RESP reader from how its stream is cut, and exactly when it holds. */
module RespCuts {
  import opened Bytes
  import opened Decimal
  import opened LineSearch
  import opened Tokenizers
  import opened RespValue
  import opened RespMachine

  // ---------------------------------------------------------------- cutting the stream

  predicate CleanHead(st: State) {
    BulkPending(st.core) || CleanLine(st.buf)
  }

  /** No line the run looks at has more than one bare line feed. */
  predicate CleanRun(st: State)
    decreases |st.buf|
  {
    CleanHead(st) &&
    match Step(st)
    case Took(Done(c), rest) => CleanRun(State(c, rest))
    case _ => true
  }

  function Extend(st: State, t: bytes): State {
    State(st.core, st.buf + t)
  }

  /** Further bytes change neither a turn that was taken nor the way it ends. */
  lemma StepExtends(st: State, t: bytes)
    requires CleanHead(Extend(st, t))
    ensures CleanHead(st) && Step(st) != Overran
    ensures match Step(st)
            case Took(act, rest) => Step(Extend(st, t)) == Took(act, rest + t)
            case _ => true
  {
    if BulkPending(st.core) {
      var n := Top(st.core).count;
      if |st.buf| >= n + 2 {
        assert (st.buf + t)[..n] == st.buf[..n];
        assert (st.buf + t)[n + 2..] == st.buf[n + 2..] + t;
      }
    } else {
      CleanLineStays(st.buf, t);
      match LineOf(st.buf)
      case Line(text, used) => assert (st.buf + t)[used..] == st.buf[used..] + t;
      case _ =>
    }
  }

  /** What a run on a first part comes to, with `t` to follow, if the whole comes to `all`. */
  predicate Continues(first: Outcome, t: bytes, all: Outcome) {
    match first
    case Ok(st) => Run(Extend(st, t)) == all
    case Cleared => all == Cleared
    case Exception(st) => all == Exception(Extend(st, t))
    case Undefined => false
  }

  /** Running on `buf` and then on what is left of it plus `t` is running on `buf + t`, on a run
      whose lines are clean. */
  lemma {:induction false} CleanRunSplits(st: State, t: bytes)
    requires CleanRun(Extend(st, t))
    ensures CleanRun(st)
    ensures Continues(Run(st), t, Run(Extend(st, t)))
    ensures Run(st).Ok? ==> CleanRun(Extend(Run(st).st, t))
    decreases |st.buf|
  {
    StepExtends(st, t);
    match Step(st)
    case Took(act, rest) =>
      assert Step(Extend(st, t)) == Took(act, rest + t);
      if act.Done? {
        CleanRunSplits(State(act.core, rest), t);
      }
    case Stall =>
    case Overran =>
  }

  /** `parse` has nothing left to do. */
  predicate Quiet(st: State) {
    Step(st) == Stall
  }

  lemma {:induction false} RunEndsQuiet(st: State)
    ensures Run(st).Ok? ==> Quiet(Run(st).st)
    decreases |st.buf|
  {
    match Step(st)
    case Took(Done(c), rest) => RunEndsQuiet(State(c, rest));
    case _ =>
  }

  /** One call of `parse` for each chunk, up to the first that does not end normally. */
  function FeedAll(st: State, chunks: seq<bytes>): Outcome
    decreases chunks
  {
    if chunks == [] then Ok(st)
    else
      match Feed(st, chunks[0])
      case Ok(m) => FeedAll(m, chunks[1..])
      case other => other
  }

  lemma {:induction false} CleanCutsAgree(st: State, chunks: seq<bytes>)
    requires Quiet(st)
    requires CleanRun(Extend(st, Flatten(chunks))) && Feed(st, Flatten(chunks)).Ok?
    ensures FeedAll(st, chunks) == Feed(st, Flatten(chunks))
    decreases chunks
  {
    if chunks == [] {
      assert Extend(st, []) == st;
    } else {
      var head, tail := Extend(st, chunks[0]), Flatten(chunks[1..]);
      assert Extend(st, Flatten(chunks)) == Extend(head, tail);
      CleanRunSplits(head, tail);
      RunEndsQuiet(head);
      CleanCutsAgree(Run(head).st, chunks[1..]);
    }
  }

  // ---------------------------------------------------------------- the header lines of a stream

  /** The payload bytes that are on their way. */
  function Pending(c: Core): Option<nat> {
    if BulkPending(c) then Some(Top(c).count) else None
  }

  /** The payload bytes that a header line announces. */
  function Announces(line: bytes): Option<nat> {
    if |line| >= 2 && line[0] == DOLLAR_TAG && StrToLL(line[1..]) > -1 then Some(StrToLL(line[1..])) else None
  }

  /** A line that is refused whatever came before it. */
  predicate Refused(line: bytes) {
    || |line| < 2
    || line[0] !in {COLON_TAG, PLUS_TAG, MINUS_TAG, DOLLAR_TAG, STAR_TAG}
    || ((line[0] == PLUS_TAG || line[0] == MINUS_TAG) && !OneLine(line[1..]))
  }

  /** Of the bytes alone: no header line in them has more than one bare line feed. Payloads may
      hold anything, and nothing matters behind a line that is refused. */
  predicate CleanHeaders(s: bytes, payload: Option<nat>)
    decreases |s|
  {
    match payload
    case Some(n) => |s| < n + 2 || CleanHeaders(s[n + 2..], None)
    case None => CleanLine(s) && (LineEnd(s) == |s| || CleanBehind(s, LineEnd(s)))
  }

  /** And behind the line that ends at e. */
  predicate CleanBehind(s: bytes, e: nat)
    requires 0 < e < |s|
    decreases |s|, 0
  {
    Refused(s[..e - 1]) || CleanHeaders(s[e + 1..], Announces(s[..e - 1]))
  }

  lemma {:induction false} RollbackLeavesNothingPending(c: Core)
    requires c.status != [] && Top(c).node.Array?
    ensures Rollback(c).Done? ==> !BulkPending(Rollback(c).core)
    decreases |c.status|
  {
    var top := Top(c);
    if top.index == top.count && |c.status| > 1 {
      match PutAtTop(c.(status := Below(c)), top.node)
      case None =>
      case Some(c') =>
        if Top(c').index == Top(c').count {
          RollbackLeavesNothingPending(c');
        }
    }
  }

  lemma AppendLeavesNothingPending(c: Core, v: Value)
    ensures AppendToTop(c, v).Done? ==> !BulkPending(AppendToTop(c, v).core)
  {
    if c.status != [] && Top(c).node.Array? {
      match PutAtTop(c, v)
      case None =>
      case Some(c') =>
        if Top(c').index == Top(c').count {
          RollbackLeavesNothingPending(c');
        }
    }
  }

  /** What is pending after a line was taken shows in the line. */
  lemma LineLeaves(c: Core, line: bytes)
    requires !BulkPending(c) && ParseLine(c, line).Done?
    ensures !Refused(line) && Pending(ParseLine(c, line).core) == Announces(line)
  {
    var arg := line[1..];
    AppendLeavesNothingPending(c, Integer(StrToLL(arg)));
    AppendLeavesNothingPending(c, Simple(arg));
    AppendLeavesNothingPending(c, Error(arg));
    AppendLeavesNothingPending(c, NullBulk);
    AppendLeavesNothingPending(c, NullArray);
  }

  lemma PayloadLeaves(c: Core, payload: bytes)
    requires BulkPending(c) && ParseBulk2(c, payload).Done?
    ensures Pending(ParseBulk2(c, payload).core) == None
  {
    AppendLeavesNothingPending(c.(status := Below(c)), Bulk(payload));
  }

  /** A turn that was taken moves on to the next header line or payload. */
  lemma StepMovesOn(st: State)
    requires CleanHead(st) && Step(st).Took? && Step(st).act.Done?
    ensures var next := State(Step(st).act.core, Step(st).rest);
            CleanHeaders(st.buf, Pending(st.core)) <==> CleanHeaders(next.buf, Pending(next.core))
  {
    if BulkPending(st.core) {
      PayloadLeaves(st.core, st.buf[..Top(st.core).count]);
    } else {
      LineOfClean(st.buf);
      LineLeaves(st.core, LineOf(st.buf).text);
    }
  }

  /** Clean header lines make a clean run, and on a run that is accepted the converse holds. */
  lemma {:induction false} CleanHeadersRun(st: State)
    ensures CleanHeaders(st.buf, Pending(st.core)) ==> CleanRun(st)
    ensures CleanRun(st) && Run(st).Ok? ==> CleanHeaders(st.buf, Pending(st.core))
    decreases |st.buf|
  {
    if CleanHead(st) {
      if !BulkPending(st.core) {
        LineOfClean(st.buf);
      }
      match Step(st)
      case Took(Done(c), rest) =>
        StepMovesOn(st);
        CleanHeadersRun(State(c, rest));
      case _ =>
    }
  }

  // ---------------------------------------------------------------- cut independence

  /** Running on `buf` and then on what is left of it plus `t` is running on `buf + t`, also when
      it ends in an error or an exception. */
  lemma RunSplits(st: State, t: bytes)
    requires CleanHeaders(st.buf + t, Pending(st.core))
    ensures Continues(Run(st), t, Run(Extend(st, t)))
  {
    CleanHeadersRun(Extend(st, t));
    CleanRunSplits(st, t);
  }

  /** Cut independence: however the bytes are cut, a stream that one call accepts and whose
      header lines have at most one bare line feed each leaves the reader with the same queue,
      stack and leftover bytes. */
  lemma CutIndependence(st: State, chunks: seq<bytes>)
    requires Quiet(st) && CleanHeaders(st.buf + Flatten(chunks), Pending(st.core))
    requires Feed(st, Flatten(chunks)).Ok?
    ensures FeedAll(st, chunks) == Feed(st, Flatten(chunks))
  {
    CleanHeadersRun(Extend(st, Flatten(chunks)));
    CleanCutsAgree(st, chunks);
  }

  lemma PrefixOfPayload(s: bytes, n: nat, k: nat)
    requires n + 2 + k <= |s|
    ensures var p := s[..n + 2 + k]; p[..n] == s[..n] && p[n + 2..] == s[n + 2..][..k]
  {
  }

  lemma PrefixOfLine(s: bytes, e: nat, p: bytes, t: bytes)
    requires CleanLine(s) && e == LineEnd(s) < |s| && s == p + t && e < |p|
    ensures LineOf(p) == Line(p[..e - 1], e + 1)
  {
    CleanLineStays(p, t);
    assert forall i :: 0 <= i < |p| ==> p[i] == s[i];
    FindCrlfIs(p, e - 1);
    LineOfClean(p);
  }

  /** A turn is taken in the same way as soon as its bytes are there. */
  lemma PayloadOnPrefix(st: State, k: nat, n: nat)
    requires BulkPending(st.core) && Step(st).Took?
    requires k <= |Step(st).rest| && n == |st.buf| - |Step(st).rest| + k
    ensures Step(State(st.core, st.buf[..n])) == Took(Step(st).act, Step(st).rest[..k])
  {
    PrefixOfPayload(st.buf, Top(st.core).count, k);
  }

  lemma LineOnPrefix(st: State, k: nat, n: nat)
    requires !BulkPending(st.core) && CleanLine(st.buf) && Step(st).Took?
    requires k <= |Step(st).rest| && n == |st.buf| - |Step(st).rest| + k
    ensures Step(State(st.core, st.buf[..n])) == Took(Step(st).act, Step(st).rest[..k])
  {
    var s, e := st.buf, LineEnd(st.buf);
    LineOfClean(s);
    PrefixOfLine(s, e, s[..n], s[n..]);
    SliceOfSlice(s, n, e - 1);
    assert s[..n][e + 1..] == s[e + 1..][..k];
  }

  lemma SliceOfSlice(s: bytes, n: nat, i: nat)
    requires i <= n <= |s|
    ensures s[..n][..i] == s[..i]
  {
  }

  lemma FatalBehind(st: State, c: Core, rest: bytes)
    requires Step(st) == Took(Done(c), rest) && Run(State(c, rest)) == Undefined
    ensures Run(st) == Undefined
  {
  }

  /** Where a header line has a second bare line feed, a cut just behind it is fatal. */
  lemma {:induction false} FatalCut(st: State) returns (n: nat)
    requires |st.buf| < SIZE_MOD && Run(st).Ok? && !CleanHeaders(st.buf, Pending(st.core))
    ensures n <= |st.buf| && Run(State(st.core, st.buf[..n])) == Undefined
    decreases |st.buf|
  {
    if !CleanHead(st) {
      SecondBareOverruns(st.buf);
      n := Bare(st.buf)[1] + 1;
    } else {
      MovesOn(st);
      var k := FatalCut(State(Step(st).act.core, Step(st).rest));
      n := |st.buf| - |Step(st).rest| + k;
      if BulkPending(st.core) {
        PayloadOnPrefix(st, k, n);
      } else {
        LineOnPrefix(st, k, n);
      }
      FatalBehind(State(st.core, st.buf[..n]), Step(st).act.core, Step(st).rest[..k]);
    }
  }

  lemma MovesOn(st: State)
    requires CleanHead(st) && Run(st).Ok? && !CleanHeaders(st.buf, Pending(st.core))
    ensures Step(st).Took? && Step(st).act.Done?
    ensures var next := State(Step(st).act.core, Step(st).rest);
            Run(next).Ok? && !CleanHeaders(next.buf, Pending(next.core))
  {
    if !BulkPending(st.core) {
      LineOfClean(st.buf);
    }
    if Step(st).Took? && Step(st).act.Done? {
      StepMovesOn(st);
    }
  }

  ghost predicate EveryCutAgrees(st: State, w: bytes) {
    forall chunks :: Flatten(chunks) == w ==> FeedAll(st, chunks) == Feed(st, w)
  }

  lemma TwoChunks(st: State, a: bytes, b: bytes, m: State)
    requires Feed(st, a) == Ok(m)
    ensures FeedAll(st, [a, b]) == Feed(m, b)
  {
    assert [a, b][1..] == [b] && [b][1..] == [];
    match Feed(m, b)
    case Ok(n) => assert FeedAll(n, []) == Ok(n);
    case _ =>
  }

  lemma FlattenTwo(a: bytes, b: bytes)
    ensures Flatten([a, b]) == a + b
  {
    assert [a, b][1..] == [b] && [b][1..] == [];
    assert Flatten([b]) == b + [];
  }

  lemma CutInTwo(st: State, w: bytes, n: nat)
    requires st.buf == [] && n <= |w|
    requires Run(State(st.core, w[..n])) == Undefined
    ensures Flatten([w[..n], w[n..]]) == w && FeedAll(st, [w[..n], w[n..]]) == Undefined
  {
    assert w == w[..n] + w[n..];
    FlattenTwo(w[..n], w[n..]);
    FeedEmpty(st, w[..n]);
    FirstFatal(st, w[..n], w[n..]);
  }

  lemma FeedEmpty(st: State, a: bytes)
    requires st.buf == []
    ensures Feed(st, a) == Run(State(st.core, a))
  {
    assert [] + a == a;
  }

  lemma FirstFatal(st: State, a: bytes, b: bytes)
    requires Feed(st, a) == Undefined
    ensures FeedAll(st, [a, b]) == Undefined
  {
  }

  lemma NotEvery(st: State, w: bytes, chunks: seq<bytes>, out: Outcome)
    requires Flatten(chunks) == w && FeedAll(st, chunks) == out && out != Feed(st, w)
    ensures !EveryCutAgrees(st, w)
  {
  }

  lemma CleanCutAgrees(st: State, w: bytes)
    requires st.buf == [] && CleanHeaders(w, Pending(st.core)) && Feed(st, w).Ok?
    ensures EveryCutAgrees(st, w)
  {
    assert [] + w == w;
    LineOfClean([]);
    forall chunks | Flatten(chunks) == w
      ensures FeedAll(st, chunks) == Feed(st, w)
    {
      CutIndependence(st, chunks);
    }
  }

  lemma DirtyCutDisagrees(st: State, w: bytes)
    requires st.buf == [] && |w| < SIZE_MOD && !CleanHeaders(w, Pending(st.core)) && Feed(st, w).Ok?
    ensures !EveryCutAgrees(st, w)
  {
    assert [] + w == w;
    var n := FatalCut(State(st.core, w));
    CutInTwo(st, w, n);
    NotEvery(st, w, [w[..n], w[n..]], Undefined);
  }

  /** And exactly then: on a stream that one call accepts, all ways to cut it agree if and only if
      no header line has more than one bare line feed. */
  lemma CutsAgreeIff(st: State, w: bytes)
    requires st.buf == [] && |w| < SIZE_MOD && Feed(st, w).Ok?
    ensures EveryCutAgrees(st, w) <==> CleanHeaders(w, Pending(st.core))
  {
    if CleanHeaders(w, Pending(st.core)) {
      CleanCutAgrees(st, w);
    } else {
      DirtyCutDisagrees(st, w);
    }
  }

  /** One header line with two bare line feeds, and a byte. */
  const TWICE: bytes := [DOLLAR_TAG, 49, LF, LF, CR, LF, 97]

  const ANNOUNCED: Core := Core([], [Status(0, 1, NullBulk)])

  lemma TwiceWhole()
    ensures Run(State(EMPTY, TWICE)) == Ok(State(EMPTY, TWICE))
  {
    FindIs(TWICE, LF, 0, 2);
    FindIs(TWICE, LF, 3, 3);
    FindIs(TWICE, LF, 4, 5);
    assert ScanLine(TWICE, 4, 0) == NoLine;
    assert ScanLine(TWICE, 3, 4) == NoLine;
  }

  lemma TwiceLine(p: bytes, line: bytes)
    requires line == [DOLLAR_TAG, 49, LF, LF] && p == line + [CR, LF]
    ensures LineOf(p) == Line(line, 6)
  {
    FindIs(p, LF, 0, 2);
    FindIs(p, LF, 3, 3);
    FindIs(p, LF, 4, 5);
    assert p[..4] == line;
    assert ScanLine(p, 4, Wrap(0 - 1)) == Line(line, 6);
    assert ScanLine(p, 3, 3) == Line(line, 6);
  }

  lemma TwiceParsed(line: bytes)
    requires line == [DOLLAR_TAG, 49, LF, LF]
    ensures ParseLine(EMPTY, line) == Done(ANNOUNCED)
  {
    assert line[1..] == [49, LF, LF] && [49, LF, LF][1..] == [LF, LF];
    assert DigitsValue([LF, LF], 1) == 1 && DigitsValue(line[1..], 0) == 1;
    assert StrToLL(line[1..]) == 1;
    assert EMPTY.status + ANNOUNCED.status == ANNOUNCED.status;
  }

  lemma TwiceCut(p: bytes, line: bytes)
    requires line == [DOLLAR_TAG, 49, LF, LF] && p == line + [CR, LF]
    ensures Run(State(EMPTY, p)) == Ok(State(ANNOUNCED, []))
  {
    TwiceLine(p, line);
    TwiceParsed(line);
    assert p[6..] == [];
    assert Step(State(EMPTY, p)) == Took(Done(ANNOUNCED), []);
  }

  lemma TwiceInTwo(p: bytes, q: bytes)
    requires p == [DOLLAR_TAG, 49, LF, LF, CR, LF] && q == [97]
    ensures FeedAll(INIT, [p, q]) == Ok(State(ANNOUNCED, [97]))
  {
    TwiceCut(p, [DOLLAR_TAG, 49, LF, LF]);
    FeedEmpty(INIT, p);
    TwoChunks(INIT, p, q, State(ANNOUNCED, []));
    FeedEmpty(State(ANNOUNCED, []), q);
  }

  /** A stream that is accepted whole and in two parts, and leaves different states. */
  lemma CutsDisagree()
    ensures Feed(INIT, TWICE) == Ok(State(EMPTY, TWICE))
    ensures FeedAll(INIT, [TWICE[..6], TWICE[6..]]) == Ok(State(ANNOUNCED, [97]))
  {
    TwiceWhole();
    assert INIT.buf + TWICE == TWICE;
    TwiceInTwo(TWICE[..6], TWICE[6..]);
  }
}
