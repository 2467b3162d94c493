/** The RESP wire format in ASCII codes: what is written for each kind of value, and what a reader
    makes of the bytes. `[13, 10]` is CRLF, 43 is '+', 45 '-', 58 ':', 36 '$' and 42 '*'. */
module RespWire {
  import opened Bytes
  import opened Decimal
  import opened LineSearch
  import opened Tokenizers
  import opened RespValue
  import opened RespMachine
  import opened RespCuts
  import opened RespProofs

  // ---------------------------------------------------------------- written

  /** The printed form of all seven kinds. */
  lemma PrintSays(v: Value)
    ensures match v
            case Simple(s) => Print(v) == [43] + s + [13, 10]
            case Error(s) => Print(v) == [45] + s + [13, 10]
            case Integer(i) => exists d :: IsDecimal(d, i) && Print(v) == [58] + d + [13, 10]
            case Bulk(s) => exists d :: IsDecimal(d, |s|) && Print(v) == [36] + d + [13, 10] + s + [13, 10]
            case NullBulk => Print(v) == [36, 45, 49, 13, 10]
            case Array(items) =>
              exists d :: IsDecimal(d, |items|) && Print(v) == [42] + d + [13, 10] + PrintAll(items)
            case NullArray => Print(v) == [42, 45, 49, 13, 10]
  {
    match v
    case Integer(i) => IntIsDecimal(i);
    case Bulk(s) =>
      IntIsDecimal(|s|);
      Assoc([36] + Digits(|s|) + [13, 10], s, [13, 10]);
      assert Print(v) == [36] + IntToBytes(|s|) + [13, 10] + s + [13, 10];
    case Array(items) =>
      IntIsDecimal(|items|);
      assert Print(v) == [42] + IntToBytes(|items|) + [13, 10] + PrintAll(items);
    case _ =>
  }

  /** The elements of an array follow each other with nothing in between. */
  lemma PrintAllSays(a: seq<Value>, v: Value)
    ensures PrintAll(a + [v]) == PrintAll(a) + Print(v) && PrintAll([]) == []
  {
    PrintAllConcat(a, [v]);
    assert [v][1..] == [];
  }

  // ---------------------------------------------------------------- read

  /** A reader that has been fed these bytes at first. */
  function Fed(b: bytes): Outcome {
    Feed(INIT, b)
  }

  /** It has queued exactly this value, and nothing is left. */
  predicate Queued(out: Outcome, v: Value) {
    out == Ok(State(Core([v], []), []))
  }

  lemma PrintedIsQueued(v: Value)
    requires Constructible(v) && NoEmpties(v)
    ensures Queued(Fed(Print(v)), v)
  {
    RoundTrip([v]);
    assert [v][1..] == [] && Print(v) + [] == Print(v);
    assert PrintAll([v]) == Print(v);
  }

  predicate PlainLine(s: bytes) {
    forall k :: 0 <= k < |s| ==> s[k] != 13 && s[k] != 10
  }

  /** '+' and a line is a simple string, '-' and a line an error. */
  lemma ReadsText(s: bytes)
    requires s != [] && PlainLine(s)
    ensures Queued(Fed([43] + s + [13, 10]), Simple(s))
    ensures Queued(Fed([45] + s + [13, 10]), Error(s))
  {
    PrintedIsQueued(Simple(s));
    PrintedIsQueued(Error(s));
  }

  lemma LineQueues(line: bytes, v: Value)
    requires LF !in line && ParseLine(EMPTY, line) == Done(Core([v], []))
    ensures Queued(Fed(line + [13, 10]), v)
  {
    LineActs(EMPTY, line, []);
    assert line + CRLF + [] == line + [13, 10] && INIT.buf + (line + [13, 10]) == line + [13, 10];
    QuietWhenEmpty(Core([v], []));
  }

  /** ':' and a line is the integer that strtoll reads in it, whatever the line. */
  lemma ReadsInteger(s: bytes)
    requires s != [] && PlainLine(s)
    ensures Queued(Fed([58] + s + [13, 10]), Integer(StrToLL(s)))
  {
    var line: bytes := [58] + s;
    assert line[1..] == s;
    assert EMPTY.cont + [Integer(StrToLL(s))] == [Integer(StrToLL(s))];
    LineQueues(line, Integer(StrToLL(s)));
  }

  /** '$' or '*' and a negative number is null. */
  lemma ReadsNull(s: bytes)
    requires s != [] && PlainLine(s) && StrToLL(s) < 0
    ensures Queued(Fed([36] + s + [13, 10]), NullBulk)
    ensures Queued(Fed([42] + s + [13, 10]), NullArray)
  {
    var bulk, arr: bytes := [36] + s, [42] + s;
    assert bulk[1..] == s && arr[1..] == s;
    LineQueues(bulk, NullBulk);
    LineQueues(arr, NullArray);
  }

  lemma Announces(line: bytes, n: nat)
    requires |line| >= 2 && line[0] == 36 && StrToLL(line[1..]) == n
    ensures ParseLine(EMPTY, line) == Done(Core([], [Status(0, n, NullBulk)]))
  {
    assert EMPTY.status + [Status(0, n, NullBulk)] == [Status(0, n, NullBulk)];
  }

  lemma AnnouncesPayload(line: bytes, rest: bytes, n: nat)
    requires LF !in line && |line| >= 2 && line[0] == 36 && StrToLL(line[1..]) == n
    ensures Fed(line + [13, 10] + rest) == Run(State(Core([], [Status(0, n, NullBulk)]), rest))
  {
    LineActs(EMPTY, line, rest);
    Announces(line, n);
    assert INIT.buf + (line + [13, 10] + rest) == line + [13, 10] + rest;
  }

  lemma TakesPayload(rest: bytes, p: bytes)
    requires |rest| == |p| + 2 && rest[..|p|] == p
    ensures Queued(Run(State(Core([], [Status(0, |p|, NullBulk)]), rest)), Bulk(p))
  {
    var c, done := Core([], [Status(0, |p|, NullBulk)]), Core([Bulk(p)], []);
    assert Below(c) == [] && [] + [Bulk(p)] == done.cont && rest[|p| + 2..] == [];
    assert ParseBulk2(c, p) == Done(done);
    assert Step(State(c, rest)) == Took(Done(done), []);
    QuietWhenEmpty(done);
  }

  /** '$', a number n, and n + 2 bytes is a bulk string of the first n of those, whatever they and
      the two after them are. */
  lemma ReadsBulk(s: bytes, p: bytes, x: byte, y: byte)
    requires s != [] && PlainLine(s) && StrToLL(s) == |p|
    ensures Queued(Fed([36] + s + [13, 10] + (p + [x, y])), Bulk(p))
  {
    var line: bytes := [36] + s;
    assert line[1..] == s;
    AnnouncesPayload(line, p + [x, y], |p|);
    assert (p + [x, y])[..|p|] == p;
    TakesPayload(p + [x, y], p);
  }

  /** '*', the number of elements, and the elements is an array of them. */
  lemma ReadsArray(items: seq<Value>, d: bytes)
    requires items != [] && Constructible(Array(items)) && NoEmpties(Array(items))
    requires d == IntToBytes(|items|)
    ensures IsDecimal(d, |items|) && Queued(Fed([42] + d + [13, 10] + PrintAll(items)), Array(items))
  {
    IntIsDecimal(|items|);
    PrintedIsQueued(Array(items));
  }

  /** A line of less than two bytes, or with any other letter in front, clears the reader; a CR in
      a simple string or an error raises an exception. */
  lemma Refuses(line: bytes, t: bytes)
    requires 10 !in line
    ensures |line| < 2 || line[0] !in {43, 45, 58, 36, 42} ==> Fed(line + [13, 10] + t) == Cleared
    ensures |line| >= 2 && line[0] in {43, 45} && 13 in line[1..] ==>
              Fed(line + [13, 10] + t) == Exception(State(EMPTY, t))
  {
    LineActs(EMPTY, line, t);
    assert INIT.buf + (line + [13, 10] + t) == line + [13, 10] + t;
  }
}
