/**
 * The line search of the buffer (IoBuffer::getLine): a window of bytes from a moving pointer,
 * whose length is kept as if the pointer had never moved.
 */
module LineSearch {
  import opened Bytes
  import opened Tokenizers

  const SIZE_MOD: int := 0x1_0000_0000_0000_0000

  /** size_t subtraction wraps. */
  function Wrap(x: int): (r: nat) {
    x % SIZE_MOD
  }

  /** What getLine answers: a line and how many bytes it takes off the queue, no line, or a
      search whose window wrapped around and ran past the end of the readable bytes. */
  datatype LineResult = Line(text: bytes, used: nat) | NoLine | Overrun

  /** One turn of the loop of getLine: it is over, or it goes on with another window. */
  datatype Search = Over(result: LineResult) | Again(p: nat, window: nat)

  function ScanTurn(s: bytes, p: nat, window: nat): (r: Search)
    requires p <= |s|
    ensures r.Again? ==> p < r.p <= |s|
    ensures r.Over? && r.result.Line? ==> 2 <= r.result.used <= |s| && |r.result.text| == r.result.used - 2
  {
    var q := Find(s, LF, p);
    if q - p >= window then Over(NoLine)
    else if q == |s| then Over(Overrun)
    else if q == 0 then
      if |s| == 1 then Over(NoLine) else Again(2, Wrap(window - 2))
    else if s[q - 1] == CR then Over(Line(s[..q - 1], q + 1))
    else Again(q + 1, Wrap(window - (q + 1)))
  }

  /** The loop of getLine over readable bytes `s`, at offset `p` with window length `window`. */
  function ScanLine(s: bytes, p: nat, window: nat): (r: LineResult)
    requires p <= |s|
    ensures r.Line? ==> 2 <= r.used <= |s| && |r.text| == r.used - 2
    decreases |s| - p
  {
    match ScanTurn(s, p, window)
    case Over(result) => result
    case Again(p', window') => ScanLine(s, p', window')
  }

  function LineOf(s: bytes): (r: LineResult)
    ensures r.Line? ==> 2 <= r.used <= |s| && |r.text| == r.used - 2
  {
    ScanLine(s, 0, |s|)
  }

  // ---------------------------------------------------------------- which lines the search finds

  /** Where the search goes on after a bare line feed at q. It takes as many bytes off its
      window, although they count from the start of the buffer. */
  function NextPos(q: nat): nat {
    if q == 0 then 2 else q + 1
  }

  /** The line feed of the first CRLF of `s`, or |s|. */
  function LineEnd(s: bytes): (e: nat)
    ensures e <= |s|
  {
    if FindCrlf(s, 0) == |s| then |s| else FindCrlf(s, 0) + 1
  }

  predicate IsBare(s: bytes, q: nat)
    requires q < |s|
  {
    s[q] == LF && (q > 0 ==> s[q - 1] != CR)
  }

  /** The bare line feeds from p on, up to the first CRLF. A line feed at 1 after one at 0 is
      passed over. */
  function BareFrom(s: bytes, p: nat): (b: seq<nat>)
    requires p <= |s|
    ensures forall i :: 0 <= i < |b| ==> p <= b[i] < |s|
    decreases |s| - p
  {
    var q := Find(s, LF, p);
    if q == |s| || !IsBare(s, q) then []
    else if NextPos(q) > |s| then [q]
    else [q] + BareFrom(s, NextPos(q))
  }

  function Bare(s: bytes): seq<nat> {
    BareFrom(s, 0)
  }

  /** What the first i of them have taken off the window. */
  function Cost(b: seq<nat>, i: nat): nat
    requires i <= |b|
  {
    if i == 0 then 0 else NextPos(b[0]) + Cost(b[1..], i - 1)
  }

  /** After i bare line feeds the window ends before the next line feed, which is at b[i] or `e`.
      The search started at p with c taken off its window already. */
  predicate ShortAt(b: seq<nat>, e: nat, size: nat, p: nat, c: nat, i: nat)
    requires i <= |b|
  {
    Wrap(size - (c + Cost(b, i))) + (if i == 0 then p else NextPos(b[i - 1])) <= if i < |b| then b[i] else e
  }

  ghost predicate Short(b: seq<nat>, e: nat, size: nat, p: nat, c: nat) {
    exists i :: 0 <= i <= |b| && ShortAt(b, e, size, p, c, i)
  }

  /** e is the line feed of the first CRLF, as far as the bytes from p on can tell. */
  predicate EndsAt(s: bytes, e: nat) {
    && e <= |s|
    && (e < |s| ==> s[e] == LF && e > 0 && s[e - 1] == CR)
    && forall q :: 0 <= q < e ==> s[q] != LF || IsBare(s, q)
  }

  lemma LineEndEnds(s: bytes)
    ensures EndsAt(s, LineEnd(s))
  {
    forall q | 0 <= q < LineEnd(s)
      ensures s[q] != LF || IsBare(s, q)
    {
      var k := q - 1;
      assert q > 0 ==> !(s[k] == CR && s[k + 1] == LF);
    }
  }

  lemma ShortShift(b: seq<nat>, e: nat, size: nat, p: nat, c: nat)
    requires b != []
    ensures Short(b, e, size, p, c) <==>
            ShortAt(b, e, size, p, c, 0) || Short(b[1..], e, size, NextPos(b[0]), c + NextPos(b[0]))
  {
    forall i | 0 < i <= |b|
      ensures ShortAt(b, e, size, p, c, i) <==> ShortAt(b[1..], e, size, NextPos(b[0]), c + NextPos(b[0]), i - 1)
    {
    }
    if Short(b[1..], e, size, NextPos(b[0]), c + NextPos(b[0])) {
      var i :| 0 <= i <= |b[1..]| && ShortAt(b[1..], e, size, NextPos(b[0]), c + NextPos(b[0]), i);
      assert ShortAt(b, e, size, p, c, i + 1);
    }
    if Short(b, e, size, p, c) && !ShortAt(b, e, size, p, c, 0) {
      var i :| 0 <= i <= |b| && ShortAt(b, e, size, p, c, i);
      assert ShortAt(b[1..], e, size, NextPos(b[0]), c + NextPos(b[0]), i - 1);
    }
  }

  lemma WrapWithin(n: nat)
    requires n < SIZE_MOD
    ensures Wrap(n) == n
  {
  }

  lemma LoneLineFeed()
    ensures LineOf([LF]) == NoLine && LineEnd([LF]) == 1
  {
    FindIs([LF], LF, 0, 0);
    FindCrlfIs([LF], 1);
    assert ScanTurn([LF], 0, 1) == Over(NoLine);
  }

  lemma WrapStep(size: nat, c: nat, n: nat)
    ensures Wrap(Wrap(size - c) - n) == Wrap(size - (c + n))
  {
    var m := SIZE_MOD;
    var k := (size - c) / m;
    assert size - c == k * m + Wrap(size - c);
  }

  /** The answer of a search that has run short of its window, or has not. */
  function Answer(s: bytes, e: nat, short: bool): LineResult
    requires EndsAt(s, e)
  {
    if short then NoLine else if e < |s| then Line(s[..e - 1], e + 1) else Overrun
  }

  /** One turn over a bare line feed, and the turn that ends at e. */
  lemma BareTurn(s: bytes, p: nat, w: nat, q: nat)
    requires p <= |s| && q == Find(s, LF, p) < |s| && IsBare(s, q) && s != [LF]
    ensures ScanTurn(s, p, w) == if q - p >= w then Over(NoLine) else Again(NextPos(q), Wrap(w - NextPos(q)))
  {
  }

  lemma EndTurn(s: bytes, p: nat, w: nat, e: nat)
    requires p <= e <= |s| && EndsAt(s, e) && Find(s, LF, p) == e
    ensures ScanLine(s, p, w) == Answer(s, e, w + p <= e)
  {
  }

  lemma GoOn(s: bytes, p: nat, w: nat, q: nat)
    requires p <= |s| && q == Find(s, LF, p) < |s| && IsBare(s, q) && s != [LF] && NextPos(q) <= |s|
    ensures ScanLine(s, p, w) == if q - p >= w then NoLine else ScanLine(s, NextPos(q), Wrap(w - NextPos(q)))
  {
    BareTurn(s, p, w, q);
  }

  lemma NextIsEnd(s: bytes, p: nat, e: nat)
    requires p <= e && EndsAt(s, e)
    ensures var q := Find(s, LF, p);
            q <= e && (q < e <==> q < |s| && IsBare(s, q))
            && (q < e && s != [LF] ==> NextPos(q) <= e)
  {
  }

  lemma NoneBare(e: nat, size: nat, p: nat, c: nat)
    ensures Short([], e, size, p, c) <==> Wrap(size - c) + p <= e
  {
    assert Short([], e, size, p, c) <==> ShortAt([], e, size, p, c, 0);
  }

  lemma ScanBare(s: bytes, p: nat, c: nat, e: nat, q: nat, b: seq<nat>)
    requires p <= q < e && EndsAt(s, e) && s != [LF]
    requires q == Find(s, LF, p) && IsBare(s, q) && NextPos(q) <= e
    requires b == BareFrom(s, NextPos(q))
    requires ScanLine(s, NextPos(q), Wrap(|s| - (c + NextPos(q))))
          == Answer(s, e, Short(b, e, |s|, NextPos(q), c + NextPos(q)))
    ensures BareFrom(s, p) == [q] + b
    ensures ScanLine(s, p, Wrap(|s| - c)) == Answer(s, e, Short([q] + b, e, |s|, p, c))
  {
    var w := Wrap(|s| - c);
    assert ([q] + b)[1..] == b;
    GoOn(s, p, w, q);
    ShortShift([q] + b, e, |s|, p, c);
    WrapStep(|s|, c, NextPos(q));
  }

  lemma ScanEnd(s: bytes, p: nat, c: nat, e: nat)
    requires p <= e && EndsAt(s, e) && Find(s, LF, p) == e
    ensures BareFrom(s, p) == []
    ensures ScanLine(s, p, Wrap(|s| - c)) == Answer(s, e, Short([], e, |s|, p, c))
  {
    EndTurn(s, p, Wrap(|s| - c), e);
    NoneBare(e, |s|, p, c);
  }

  lemma {:induction false} ScanLineIs(s: bytes, p: nat, c: nat, e: nat)
    requires p <= e && EndsAt(s, e) && s != [LF]
    ensures ScanLine(s, p, Wrap(|s| - c)) == Answer(s, e, Short(BareFrom(s, p), e, |s|, p, c))
    decreases |s| - p
  {
    var q := Find(s, LF, p);
    NextIsEnd(s, p, e);
    if q == e {
      ScanEnd(s, p, c, e);
    } else {
      ScanLineIs(s, NextPos(q), c + NextPos(q), e);
      ScanBare(s, p, c, e, q, BareFrom(s, NextPos(q)));
    }
  }

  /** The window ends before a line feed that the search still needs. */
  ghost predicate RunsShort(s: bytes) {
    Short(Bare(s), LineEnd(s), |s|, 0, 0)
  }

  /** The search, exactly. It never cuts at a wrong place: it finds the first CRLF, or runs short
      before it, or, if there is none, stops for want of bytes or runs past the readable ones. */
  lemma LineOfIs(s: bytes)
    requires |s| < SIZE_MOD
    ensures LineOf(s) ==
            if s == [LF] || RunsShort(s) then NoLine
            else if LineEnd(s) < |s| then Line(s[..LineEnd(s) - 1], LineEnd(s) + 1)
            else Overrun
  {
    LineEndEnds(s);
    if s == [LF] {
      LoneLineFeed();
    } else {
      WrapWithin(|s|);
      ScanLineIs(s, 0, 0, LineEnd(s));
    }
  }

  /** A line that is there is found if and only if the search does not run short; and where there
      is none the search ends as it should if and only if it does, or the buffer is a lone LF. */
  lemma FoundIff(s: bytes)
    requires |s| < SIZE_MOD
    ensures LineEnd(s) < |s| ==> (LineOf(s) == Line(s[..LineEnd(s) - 1], LineEnd(s) + 1) <==> !RunsShort(s))
    ensures LineEnd(s) == |s| ==> (LineOf(s) == NoLine <==> s == [LF] || RunsShort(s))
  {
    LineOfIs(s);
    if s == [LF] {
      LoneLineFeed();
    }
  }

  /** As long as the sum has not wrapped, running short after i bare line feeds is a matter of the
      length alone: it lies in the interval from what they have cost to that plus the way from
      the last of them to the next line feed. */
  lemma ShortIsInterval(s: bytes, i: nat)
    requires |s| < SIZE_MOD && i <= |Bare(s)| && Cost(Bare(s), i) < SIZE_MOD
    ensures var b := Bare(s);
            var from := if i == 0 then 0 else NextPos(b[i - 1]);
            var next := if i < |b| then b[i] else LineEnd(s);
            ShortAt(b, LineEnd(s), |s|, 0, 0, i) <==> Cost(b, i) <= |s| <= Cost(b, i) + next - from
  {
    var b := Bare(s);
    if Cost(b, i) <= |s| {
      assert Wrap(|s| - Cost(b, i)) == |s| - Cost(b, i);
    } else {
      assert Wrap(|s| - Cost(b, i)) == |s| - Cost(b, i) + SIZE_MOD;
    }
  }

  predicate Ascending(b: seq<nat>) {
    forall i, j :: 0 <= i < j < |b| ==> b[i] < b[j]
  }

  lemma {:induction false} BareFromAre(s: bytes, p: nat, e: nat, q: nat)
    requires p <= |s| && p <= e && EndsAt(s, e)
    ensures Ascending(BareFrom(s, p))
    ensures q in BareFrom(s, p) <==> p <= q < e && s[q] == LF && !(p == 0 && q == 1 && s[0] == LF)
    decreases |s| - p
  {
    var x := Find(s, LF, p);
    NextIsEnd(s, p, e);
    if x < e && NextPos(x) <= |s| {
      var b := BareFrom(s, NextPos(x));
      if s != [LF] {
        BareFromAre(s, NextPos(x), e, q);
      }
    }
  }

  /** Which line feeds those are: all before the first CRLF, but for one at 1 after one at 0. */
  lemma BareAre(s: bytes, q: nat)
    ensures Ascending(Bare(s))
    ensures q in Bare(s) <==> q < LineEnd(s) && s[q] == LF && !(q == 1 && s[0] == LF)
  {
    LineEndEnds(s);
    BareFromAre(s, 0, LineEnd(s), q);
  }

  lemma {:induction false} CostBound(b: seq<nat>, i: nat, n: nat)
    requires i <= |b| && forall k :: 0 <= k < |b| ==> b[k] < n
    ensures Cost(b, i) <= i * (n + 1)
    decreases i
  {
    if i > 0 {
      CostBound(b[1..], i - 1, n);
      assert i * (n + 1) == (i - 1) * (n + 1) + (n + 1);
    }
  }

  lemma {:induction false} AscendingIndex(b: seq<nat>, i: nat)
    requires Ascending(b) && i < |b|
    ensures i <= b[i]
    decreases i
  {
    if i > 0 {
      AscendingIndex(b, i - 1);
    }
  }

  lemma LastAscending(b: seq<nat>, n: nat)
    requires Ascending(b) && forall k :: 0 <= k < |b| ==> b[k] < n
    ensures |b| <= n
  {
    if b != [] {
      AscendingIndex(b, |b| - 1);
    }
  }

  lemma ProductGrows(a: nat, b: nat, c: nat, d: nat)
    requires a <= c && b <= d
    ensures a * b <= c * d
  {
    assert c * d == a * b + (c - a) * d + a * (d - b);
  }

  /** In a buffer of less than 4 GiB the sum does not wrap. */
  lemma CostFits(s: bytes, i: nat)
    requires |s| < 0xffff_ffff && i <= |Bare(s)|
    ensures Cost(Bare(s), i) < SIZE_MOD
  {
    BareAre(s, 0);
    LastAscending(Bare(s), |s|);
    CostBound(Bare(s), i, |s|);
    ProductGrows(i, |s| + 1, 0xffff_ffff, 0xffff_ffff);
  }

  // ---------------------------------------------------------------- lines that are always found

  /** At most one bare line feed before the first CRLF. */
  predicate CleanLine(s: bytes) {
    Bare(s) == [] || (|Bare(s)| == 1 && |s| < SIZE_MOD)
  }

  /** What the search answers after one bare line feed, it answers in all. */
  lemma AfterOne(s: bytes, q: nat, p: nat, w: nat, r: LineResult)
    requires q == Find(s, LF, 0) < |s| && IsBare(s, q) && s != [LF] && p == NextPos(q) <= |s|
    requires w == Wrap(|s| - p) && ScanLine(s, p, w) == r
    ensures LineOf(s) == r
  {
    GoOn(s, 0, |s|, q);
  }

  lemma CleanAfterOne(s: bytes, q: nat, p: nat, e: nat)
    requires EndsAt(s, e) && q == Find(s, LF, 0) < e && IsBare(s, q) && s != [LF] && |s| < SIZE_MOD
    requires p == NextPos(q) <= e && Find(s, LF, p) == e
    ensures LineOf(s) == Answer(s, e, e == |s|)
  {
    var w := |s| - p;
    WrapWithin(w);
    assert w + p <= e <==> e == |s|;
    EndTurn(s, p, w, e);
    AfterOne(s, q, p, w, Answer(s, e, e == |s|));
  }

  /** On such bytes getLine is exact, however long they are. */
  lemma LineOfClean(s: bytes)
    requires CleanLine(s)
    ensures LineOf(s) ==
            if LineEnd(s) == |s| then NoLine else Line(s[..LineEnd(s) - 1], LineEnd(s) + 1)
  {
    var e := LineEnd(s);
    LineEndEnds(s);
    var q := Find(s, LF, 0);
    NextIsEnd(s, 0, e);
    if q == e {
      EndTurn(s, 0, |s|, e);
    } else if s == [LF] {
      LoneLineFeed();
    } else {
      assert Bare(s) == [q] + BareFrom(s, NextPos(q));
      NextIsEnd(s, NextPos(q), e);
      CleanAfterOne(s, q, NextPos(q), e);
    }
  }

  /** Clean bytes stay clean when they are cut short, and a line in them is the same line after
      more bytes have come in. */
  lemma CleanLineStays(s: bytes, t: bytes)
    requires CleanLine(s + t)
    ensures CleanLine(s)
    ensures LineOf(s).Line? ==> LineOf(s + t) == LineOf(s)
    ensures !LineOf(s).Overrun?
  {
    BareOfPrefix(s, t, 0);
    LineOfClean(s);
    LineOfClean(s + t);
    if LineEnd(s) < |s| {
      FindCrlfIs(s + t, FindCrlf(s, 0));
      assert (s + t)[..LineEnd(s) - 1] == s[..LineEnd(s) - 1];
    }
  }

  lemma {:induction false} BareOfPrefix(s: bytes, t: bytes, p: nat)
    requires p <= |s|
    ensures |BareFrom(s, p)| <= |BareFrom(s + t, p)|
    decreases |s| - p
  {
    var q := Find(s, LF, p);
    if q < |s| {
      FindIs(s + t, LF, p, q);
      if IsBare(s, q) && NextPos(q) <= |s| {
        BareOfPrefix(s, t, NextPos(q));
      }
    }
  }

  lemma WrapAround(n: nat)
    requires 0 < n < SIZE_MOD
    ensures Wrap(0 - n) == SIZE_MOD - n
  {
  }

  lemma NothingLeft(t: bytes, w: nat)
    requires 0 < w && t != []
    ensures ScanLine(t, |t|, w) == Overrun
  {
    assert ScanTurn(t, |t|, w) == Over(Overrun);
  }

  lemma EndsInSecondBare(t: bytes, b0: nat, p: nat, b1: nat)
    requires |t| == b1 + 1 < SIZE_MOD && p == NextPos(b0) <= b1 && IsBare(t, b0) && IsBare(t, b1)
    requires Find(t, LF, 0) == b0 && Find(t, LF, p) == b1
    ensures LineOf(t) == Overrun
  {
    var w := |t| - p;
    WrapWithin(w);
    WrapAround(p);
    NothingLeft(t, SIZE_MOD - p);
    GoOn(t, p, w, b1);
    assert w - NextPos(b1) == 0 - p;
    AfterOne(t, b0, p, w, Overrun);
  }

  /** But cut just behind a second bare line feed the search runs past the readable bytes. */
  lemma SecondBareOverruns(s: bytes)
    requires |Bare(s)| >= 2 && |s| < SIZE_MOD
    ensures LineOf(s[..Bare(s)[1] + 1]) == Overrun
  {
    var b0, b1 := Bare(s)[0], Bare(s)[1];
    var t := s[..b1 + 1];
    assert Bare(s) == [b0] + BareFrom(s, NextPos(b0)) && b1 == Find(s, LF, NextPos(b0));
    FindIs(t, LF, 0, b0);
    FindIs(t, LF, NextPos(b0), b1);
    EndsInSecondBare(t, b0, NextPos(b0), b1);
  }

  /** And a line that has come in whole can be missed. */
  lemma LineOfMisses()
    ensures LineOf([65, LF, 66, LF, CR, LF]) == NoLine
  {
    var s: bytes := [65, LF, 66, LF, CR, LF];
    FindIs(s, LF, 0, 1);
    FindIs(s, LF, 2, 3);
    assert ScanLine(s, 4, 0) == NoLine;
    assert ScanLine(s, 2, 4) == ScanLine(s, 4, Wrap(4 - 4));
  }
}
