/** What the RESP reader guarantees of printed values: the round trip, and what a prefix leaves. */
module RespProofs {
  import opened Bytes
  import opened Decimal
  import opened LineSearch
  import opened RespCuts
  import opened RespValue
  import opened RespMachine

  // ---------------------------------------------------------------- parsing what was printed

  /** Every unfinished value is an array that is being filled. */
  predicate ArrayStack(status: seq<Status>) {
    forall s <- status :: s.node.Array? && s.count == |s.node.items|
  }

  /** As `ArrayStack`, and none of the arrays is complete. */
  predicate OpenStack(status: seq<Status>) {
    ArrayStack(status) && forall s <- status :: s.index < s.count
  }

  lemma LineHead(text: bytes, t: bytes)
    requires LF !in text
    ensures CleanLine(text + CRLF + t)
    ensures LineOf(text + CRLF + t) == Line(text, |text| + 2)
    ensures (text + CRLF + t)[|text| + 2..] == t
  {
    var s := text + CRLF + t;
    FindIs(s, LF, 0, |text| + 1);
    assert s[..|text|] == text;
  }

  /** A header line is taken whole, whatever follows it. */
  lemma StepLine(c: Core, text: bytes, t: bytes)
    requires !BulkPending(c) && LF !in text
    ensures CleanHead(State(c, text + CRLF + t))
    ensures Step(State(c, text + CRLF + t)) == Took(ParseLine(c, text), t)
  {
    LineHead(text, t);
  }

  lemma NumberLine(tag: byte, n: int)
    requires tag != LF && INT64_MIN <= n <= INT64_MAX
    ensures var line := [tag] + IntToBytes(n);
            LF !in line && 2 <= |line| && line[0] == tag && StrToLL(line[1..]) == n
  {
    var line := [tag] + IntToBytes(n);
    assert line[1..] == IntToBytes(n);
    StrToLLOfInt(n);
  }

  predicate CleanAfter(act: Act, rest: bytes) {
    act.Done? ==> CleanRun(State(act.core, rest))
  }

  /** What follows an action, with `rest` left in the buffer. */
  function Continue(act: Act, rest: bytes): Outcome {
    match act
    case Done(c) => Run(State(c, rest))
    case Failed => Cleared
    case Threw(c) => Exception(State(c, rest))
  }

  /** Running on `st` is the same as having done `act` with `rest` left over. */
  predicate ActsAs(st: State, act: Act, rest: bytes) {
    Run(st) == Continue(act, rest) && CleanRun(st) == CleanAfter(act, rest)
  }

  lemma LineActs(c: Core, text: bytes, t: bytes)
    requires !BulkPending(c) && LF !in text
    ensures ActsAs(State(c, text + CRLF + t), ParseLine(c, text), t)
  {
    StepLine(c, text, t);
  }

  /** The header line of a printed value, without its CRLF. */
  function HeadOf(v: Value): bytes {
    match v
    case Simple(s) => [PLUS_TAG] + s
    case Error(s) => [MINUS_TAG] + s
    case Integer(i) => [COLON_TAG] + IntToBytes(i)
    case Bulk(s) => [DOLLAR_TAG] + IntToBytes(|s|)
    case NullBulk => [DOLLAR_TAG] + IntToBytes(-1)
    case Array(items) => [STAR_TAG] + IntToBytes(|items|)
    case NullArray => [STAR_TAG] + IntToBytes(-1)
  }

  /** And what follows that CRLF. */
  function TailOf(v: Value): bytes {
    match v
    case Bulk(s) => s + CRLF
    case Array(items) => PrintAll(items)
    case _ => []
  }

  lemma PrintParts(v: Value)
    ensures Print(v) == HeadOf(v) + CRLF + TailOf(v)
  {
    assert IntToBytes(-1) == MINUS_ONE;
  }

  lemma HeadIsLine(v: Value)
    requires Constructible(v)
    ensures LF !in HeadOf(v)
  {
    match v
    case Integer(i) => NumberLine(COLON_TAG, i);
    case Bulk(s) => NumberLine(DOLLAR_TAG, |s|);
    case NullBulk => NumberLine(DOLLAR_TAG, -1);
    case Array(items) => NumberLine(STAR_TAG, |items|);
    case NullArray => NumberLine(STAR_TAG, -1);
    case _ =>
  }

  /** What the header line of a printed value makes the reader do. */
  lemma ParseHead(c: Core, v: Value)
    requires !BulkPending(c) && Constructible(v)
    ensures match v
            case Simple(s) => ParseLine(c, HeadOf(v)) == if s == [] then Failed else AppendToTop(c, v)
            case Error(s) => ParseLine(c, HeadOf(v)) == if s == [] then Failed else AppendToTop(c, v)
            case Bulk(s) =>
              ParseLine(c, HeadOf(v)) == Done(c.(status := c.status + [Status(0, |s|, NullBulk)]))
            case Array(items) =>
              ParseLine(c, HeadOf(v)) ==
              Done(c.(status := c.status + [Status(0, |items|, Array(Zeros(|items|)))]))
            case _ => ParseLine(c, HeadOf(v)) == AppendToTop(c, v)
  {
    match v
    case Simple(s) => assert HeadOf(v)[1..] == s;
    case Error(s) => assert HeadOf(v)[1..] == s;
    case Integer(i) => NumberLine(COLON_TAG, i);
    case Bulk(s) => NumberLine(DOLLAR_TAG, |s|);
    case NullBulk => NumberLine(DOLLAR_TAG, -1);
    case Array(items) => NumberLine(STAR_TAG, |items|);
    case NullArray => NumberLine(STAR_TAG, -1);
  }

  /** The reader takes the header line first, whatever value it heads. */
  lemma HeadActs(c: Core, v: Value, t: bytes)
    requires ArrayStack(c.status) && Constructible(v)
    ensures ActsAs(State(c, Print(v) + t), ParseLine(c, HeadOf(v)), TailOf(v) + t)
  {
    PrintParts(v);
    HeadIsLine(v);
    Assoc(HeadOf(v) + CRLF, TailOf(v), t);
    LineActs(c, HeadOf(v), TailOf(v) + t);
  }

  lemma BulkActs(c: Core, s: bytes, t: bytes)
    requires ArrayStack(c.status)
    ensures ActsAs(State(c.(status := c.status + [Status(0, |s|, NullBulk)]), s + CRLF + t),
                   AppendToTop(c, Bulk(s)), t)
  {
    var pending := c.(status := c.status + [Status(0, |s|, NullBulk)]);
    var rest := s + CRLF + t;
    assert Below(pending) == c.status;
    assert rest[..|s|] == s && rest[|s| + 2..] == t;
    assert Step(State(pending, rest)) == Took(AppendToTop(c, Bulk(s)), t);
  }

  /** Parsing a printed scalar appends it. */
  lemma ScalarActs(c: Core, v: Value, t: bytes)
    requires ArrayStack(c.status) && Constructible(v) && NoEmpties(v) && !v.Array?
    ensures ActsAs(State(c, Print(v) + t), AppendToTop(c, v), t)
  {
    HeadActs(c, v, t);
    ParseHead(c, v);
    if v.Bulk? {
      BulkActs(c, v.text, t);
    } else {
      assert TailOf(v) + t == t;
    }
  }

  // ---------------------------------------------------------------- arrays

  /** An array of |items| elements of which the first k have been read. */
  function Filled(items: seq<Value>, k: nat): Status
    requires k <= |items|
  {
    Status(k, |items|, Array(items[..k] + Zeros(|items| - k)))
  }

  function Push(c: Core, s: Status): Core {
    c.(status := c.status + [s])
  }

  /** Completing the top array is appending it to what lies below. */
  lemma RollbackAppends(c: Core, items: seq<Value>)
    requires ArrayStack(c.status)
    ensures Rollback(Push(c, Filled(items, |items|))) == AppendToTop(c, Array(items))
  {
    var pushed := Push(c, Filled(items, |items|));
    assert Below(pushed) == c.status;
    assert items[..|items|] + Zeros(0) == items;
    assert c.(status := c.status) == c;
  }

  /** Appending the next element to an array that is being filled. */
  lemma AppendElement(c: Core, items: seq<Value>, k: nat)
    requires ArrayStack(c.status) && k < |items|
    ensures AppendToTop(Push(c, Filled(items, k)), items[k]) ==
            if k + 1 < |items| then Done(Push(c, Filled(items, k + 1)))
            else AppendToTop(c, Array(items))
  {
    var here, next := Push(c, Filled(items, k)), Push(c, Filled(items, k + 1));
    assert Below(here) == c.status;
    assert (items[..k] + Zeros(|items| - k))[k := items[k]] ==
           items[..k + 1] + Zeros(|items| - (k + 1));
    assert PutAtTop(here, items[k]) == Some(next);
    if k + 1 == |items| {
      RollbackAppends(c, items);
    }
  }

  /** Parsing a printed value appends it: the heart of the round trip. */
  lemma {:induction false} ValueActs(c: Core, v: Value, t: bytes)
    requires ArrayStack(c.status) && Constructible(v) && NoEmpties(v)
    ensures ActsAs(State(c, Print(v) + t), AppendToTop(c, v), t)
    decreases v
  {
    if v.Array? {
      HeadActs(c, v, t);
      ParseHead(c, v);
      assert v.items[..0] + Zeros(|v.items|) == Zeros(|v.items|);
      assert v.items[0..] == v.items;
      ItemsAct(c, v.items, 0, t);
    } else {
      ScalarActs(c, v, t);
    }
  }

  lemma ItemsHead(items: seq<Value>, k: nat, t: bytes)
    requires k < |items|
    ensures PrintAll(items[k..]) + t == Print(items[k]) + (PrintAll(items[k + 1..]) + t)
  {
    assert items[k..][1..] == items[k + 1..];
    Assoc(Print(items[k]), PrintAll(items[k + 1..]), t);
  }

  lemma {:induction false} ItemsAct(c: Core, items: seq<Value>, k: nat, t: bytes)
    requires ArrayStack(c.status) && k < |items|
    requires forall w <- items :: Constructible(w) && NoEmpties(w)
    ensures ActsAs(State(Push(c, Filled(items, k)), PrintAll(items[k..]) + t),
                   AppendToTop(c, Array(items)), t)
    decreases items, |items| - k
  {
    var here := Push(c, Filled(items, k));
    ItemsHead(items, k, t);
    ValueActs(here, items[k], PrintAll(items[k + 1..]) + t);
    AppendElement(c, items, k);
    if k + 1 < |items| {
      ItemsAct(c, items, k + 1, t);
    } else {
      assert PrintAll(items[k + 1..]) + t == t;
    }
  }

  lemma Shift(a: seq<Value>, b: seq<Value>)
    requires b != []
    ensures a + [b[0]] + b[1..] == a + b
  {
  }

  /** Printed values, one after the other, are queued in order. */
  lemma {:induction false} ListActs(cont: seq<Value>, vs: seq<Value>, t: bytes)
    requires forall v <- vs :: Constructible(v) && NoEmpties(v)
    ensures ActsAs(State(Core(cont, []), PrintAll(vs) + t), Done(Core(cont + vs, [])), t)
    decreases vs
  {
    if vs == [] {
      assert PrintAll(vs) + t == t && cont + vs == cont;
    } else {
      var rest := PrintAll(vs[1..]) + t;
      Assoc(Print(vs[0]), PrintAll(vs[1..]), t);
      ValueActs(Core(cont, []), vs[0], rest);
      assert AppendToTop(Core(cont, []), vs[0]) == Done(Core(cont + [vs[0]], []));
      ListActs(cont + [vs[0]], vs[1..], t);
      Shift(cont, vs);
    }
  }

  // ---------------------------------------------------------------- what the reader cannot take

  /** Entry j of the stack is the array that a `*0` header pushes. */
  predicate Stuck(status: seq<Status>, j: nat) {
    j < |status| && status[j] == Status(0, 0, Array([]))
  }

  lemma {:induction false} RollbackKeepsStuck(c: Core, j: nat)
    requires Stuck(c.status, j) && j < |c.status| - 1
    ensures Rollback(c).Done? ==> Stuck(Rollback(c).core.status, j)
    decreases |c.status|
  {
    var top := Top(c);
    if top.index == top.count {
      var popped := c.(status := Below(c));
      match PutAtTop(popped, top.node)
      case None =>
      case Some(c') =>
        if Top(c').index == Top(c').count {
          RollbackKeepsStuck(c', j);
        }
    }
  }

  lemma AppendKeepsStuck(c: Core, v: Value, j: nat)
    requires Stuck(c.status, j)
    ensures AppendToTop(c, v).Done? ==> Stuck(AppendToTop(c, v).core.status, j)
  {
    match PutAtTop(c, v)
    case None =>
    case Some(c') =>
      if Top(c').index == Top(c').count {
        RollbackKeepsStuck(c', j);
      }
  }

  /** Nothing that follows a `*0` header ever completes it. */
  lemma {:induction false} StuckForever(st: State, j: nat)
    requires Stuck(st.core.status, j)
    ensures Run(st).Ok? ==> Stuck(Run(st).st.core.status, j)
    decreases |st.buf|
  {
    match Step(st)
    case Took(Done(c), rest) =>
      StepKeepsStuck(st, j);
      StuckForever(State(c, rest), j);
    case _ =>
  }

  lemma LineKeepsStuck(c: Core, line: bytes, j: nat)
    requires Stuck(c.status, j) && !BulkPending(c) && ParseLine(c, line).Done?
    ensures Stuck(ParseLine(c, line).core.status, j)
  {
    var arg := line[1..];
    if line[0] == COLON_TAG {
      AppendKeepsStuck(c, Integer(StrToLL(arg)), j);
    } else if line[0] == PLUS_TAG {
      AppendKeepsStuck(c, Simple(arg), j);
    } else if line[0] == MINUS_TAG {
      AppendKeepsStuck(c, Error(arg), j);
    } else if line[0] == DOLLAR_TAG {
      AppendKeepsStuck(c, NullBulk, j);
    } else {
      AppendKeepsStuck(c, NullArray, j);
    }
  }

  lemma StepKeepsStuck(st: State, j: nat)
    requires Stuck(st.core.status, j) && Step(st).Took? && Step(st).act.Done?
    ensures Stuck(Step(st).act.core.status, j)
  {
    var c := st.core;
    if BulkPending(c) {
      AppendKeepsStuck(c.(status := Below(c)), Bulk(st.buf[..Top(c).count]), j);
    } else {
      LineKeepsStuck(c, LineOf(st.buf).text, j);
    }
  }

  /** The reader ends in an error or an exception, or with a value it can never finish. */
  ghost predicate Doomed(out: Outcome) {
    out.Ok? ==> exists j :: Stuck(out.st.core.status, j)
  }

  lemma {:induction false} EmptiesDoom(c: Core, v: Value, t: bytes)
    requires ArrayStack(c.status) && Constructible(v) && !NoEmpties(v)
    ensures Doomed(Run(State(c, Print(v) + t)))
    decreases v
  {
    HeadActs(c, v, t);
    ParseHead(c, v);
    if v.Array? {
      var here := Push(c, Filled(v.items, 0));
      assert v.items[..0] + Zeros(|v.items|) == Zeros(|v.items|);
      if v.items == [] {
        assert Zeros(0) == [];
        StuckForever(State(here, TailOf(v) + t), |c.status|);
      } else {
        assert v.items[0..] == v.items;
        ItemsDoom(c, v.items, 0, t);
      }
    }
  }

  lemma EmptiesLater(items: seq<Value>, k: nat)
    requires k < |items| && NoEmpties(items[k])
    requires forall w <- items[..k] :: NoEmpties(w)
    requires exists w <- items :: !NoEmpties(w)
    ensures k + 1 < |items|
    ensures forall w <- items[..k + 1] :: NoEmpties(w)
  {
    assert items[..k + 1] == items[..k] + [items[k]];
    assert items == items[..k + 1] + items[k + 1..];
    assert items[k + 1..] != [];
  }

  lemma {:induction false} ItemsDoom(c: Core, items: seq<Value>, k: nat, t: bytes)
    requires ArrayStack(c.status) && k < |items|
    requires forall w <- items :: Constructible(w)
    requires forall w <- items[..k] :: NoEmpties(w)
    requires exists w <- items :: !NoEmpties(w)
    ensures Doomed(Run(State(Push(c, Filled(items, k)), PrintAll(items[k..]) + t)))
    decreases items, |items| - k
  {
    var here := Push(c, Filled(items, k));
    ItemsHead(items, k, t);
    if NoEmpties(items[k]) {
      ValueActs(here, items[k], PrintAll(items[k + 1..]) + t);
      AppendElement(c, items, k);
      EmptiesLater(items, k);
      ItemsDoom(c, items, k + 1, t);
    } else {
      EmptiesDoom(here, items[k], PrintAll(items[k + 1..]) + t);
    }
  }

  lemma {:induction false} ListDoom(cont: seq<Value>, vs: seq<Value>)
    requires forall v <- vs :: Constructible(v)
    requires exists v <- vs :: !NoEmpties(v)
    ensures Doomed(Run(State(Core(cont, []), PrintAll(vs))))
    decreases vs
  {
    if NoEmpties(vs[0]) {
      ValueActs(Core(cont, []), vs[0], PrintAll(vs[1..]));
      ListDoom(cont + [vs[0]], vs[1..]);
    } else {
      EmptiesDoom(Core(cont, []), vs[0], PrintAll(vs[1..]));
    }
  }

  lemma FeedInit(p: bytes)
    ensures Feed(INIT, p) == Run(State(EMPTY, p))
  {
    assert INIT.buf + p == p;
  }

  lemma QuietWhenEmpty(c: Core)
    requires OpenStack(c.status)
    ensures Quiet(State(c, [])) && CleanRun(State(c, []))
  {
    FindIs([], LF, 0, 0);
  }

  lemma WholeList(vs: seq<Value>)
    requires forall v <- vs :: Constructible(v) && NoEmpties(v)
    ensures Run(State(EMPTY, PrintAll(vs))) == Ok(State(Core(vs, []), []))
    ensures CleanRun(State(EMPTY, PrintAll(vs)))
  {
    ListActs([], vs, []);
    assert PrintAll(vs) + [] == PrintAll(vs) && [] + vs == vs;
    QuietWhenEmpty(Core(vs, []));
  }

  /** Round trip: feeding what `Value::write` prints for a list of values gives back exactly
      that list, with nothing left over, if and only if no value inside it is empty. */
  lemma RoundTrip(vs: seq<Value>)
    requires forall v <- vs :: Constructible(v)
    ensures Feed(INIT, PrintAll(vs)) == Ok(State(Core(vs, []), [])) <==>
            forall v <- vs :: NoEmpties(v)
  {
    FeedInit(PrintAll(vs));
    if forall v <- vs :: NoEmpties(v) {
      WholeList(vs);
    } else {
      ListDoom([], vs);
    }
  }

  // ---------------------------------------------------------------- prefixes

  /** How many of the printed values lie wholly inside the first n bytes. */
  function Whole(vs: seq<Value>, n: nat): (k: nat)
    ensures k <= |vs|
    ensures |PrintAll(vs[..k])| <= n
    ensures k < |vs| ==> n < |PrintAll(vs[..k + 1])|
  {
    if vs == [] || n < |Print(vs[0])| then
      assert vs != [] ==> vs[..1] == [vs[0]];
      0
    else
      var k := Whole(vs[1..], n - |Print(vs[0])|);
      assert vs[..k + 1][1..] == vs[1..][..k];
      assert k < |vs| - 1 ==> vs[..k + 2][1..] == vs[1..][..k + 1];
      k + 1
  }

  /** The shape of the stack between two calls of `parse`: below the top only arrays that
      still want elements; the top may also be a bulk string that is on its way. */
  predicate Shape(status: seq<Status>) {
    && (forall i :: 0 <= i < |status| - 1 ==>
          status[i].node.Array? && status[i].index < status[i].count == |status[i].node.items|)
    && (status != [] ==>
          var top := status[|status| - 1];
          || top.node.NullBulk?
          || (top.node.Array? && top.index < top.count == |top.node.items|))
  }

  /** A proper prefix of one printed value completes nothing. */
  predicate Waits(c: Core, out: Outcome) {
    out.Ok? && out.st.core.cont == c.cont && Shape(out.st.core.status)
  }

  /** A header line that has not come in whole makes the reader wait. */
  lemma PartOfLineWaits(c: Core, text: bytes, r: bytes)
    requires OpenStack(c.status) && LF !in text
    requires r <= text + CRLF && r != text + CRLF
    ensures Waits(c, Run(State(c, r)))
  {
    assert LF !in r;
    FindIs(r, LF, 0, |r|);
  }

  lemma PrefixTail(p: bytes, a: bytes, b: bytes)
    requires p <= a + b && |a| <= |p|
    ensures p == a + p[|a|..] && p[|a|..] <= b
  {
  }

  lemma PrefixHead(r: bytes, a: bytes, b: bytes)
    requires r <= a + b && |r| < |a|
    ensures r <= a && r != a
  {
  }

  lemma PartOfBulkWaits(c: Core, n: nat, rest: bytes)
    requires OpenStack(c.status) && |rest| < n + 2
    ensures Waits(c, Run(State(c.(status := c.status + [Status(0, n, NullBulk)]), rest)))
  {
  }

  lemma {:induction false} PartOfValueWaits(c: Core, v: Value, r: bytes)
    requires OpenStack(c.status) && Constructible(v) && NoEmpties(v)
    requires r <= Print(v) && r != Print(v)
    ensures Waits(c, Run(State(c, r)))
    decreases v, 1
  {
    var head := HeadOf(v) + CRLF;
    PrintParts(v);
    HeadIsLine(v);
    if |r| < |head| {
      PrefixHead(r, head, TailOf(v));
      PartOfLineWaits(c, HeadOf(v), r);
    } else {
      var rest := r[|head|..];
      PrefixTail(r, head, TailOf(v));
      LineActs(c, HeadOf(v), rest);
      PartBehindHeadWaits(c, v, rest);
    }
  }

  /** The header line is there, but not all that follows it. */
  lemma {:induction false} PartBehindHeadWaits(c: Core, v: Value, rest: bytes)
    requires OpenStack(c.status) && Constructible(v) && NoEmpties(v)
    requires rest <= TailOf(v) && rest != TailOf(v)
    ensures Waits(c, Continue(ParseLine(c, HeadOf(v)), rest))
    decreases v, 0
  {
    ParseHead(c, v);
    match v
    case Bulk(s) => PartOfBulkWaits(c, |s|, rest);
    case Array(items) =>
      assert items[..0] + Zeros(|items|) == Zeros(|items|);
      assert items[0..] == items;
      PartOfItemsWaits(c, items, 0, rest);
    case _ => assert false;
  }

  lemma {:induction false} PartOfItemsWaits(c: Core, items: seq<Value>, k: nat, r: bytes)
    requires OpenStack(c.status) && k < |items|
    requires forall w <- items :: Constructible(w) && NoEmpties(w)
    requires r <= PrintAll(items[k..]) && r != PrintAll(items[k..])
    ensures Waits(c, Run(State(Push(c, Filled(items, k)), r)))
    decreases items, |items| - k
  {
    var here, p := Push(c, Filled(items, k)), Print(items[k]);
    assert items[k..][1..] == items[k + 1..];
    if |r| < |p| {
      PrefixHead(r, p, PrintAll(items[k + 1..]));
      PartOfValueWaits(here, items[k], r);
    } else {
      var rest := r[|p|..];
      PrefixTail(r, p, PrintAll(items[k + 1..]));
      ValueActs(here, items[k], rest);
      AppendElement(c, items, k);
      PartOfItemsWaits(c, items, k + 1, rest);
    }
  }

  /** Cut anywhere, the printed list is accepted so far. */
  lemma PrefixAccepted(vs: seq<Value>, p: bytes)
    requires forall v <- vs :: Constructible(v) && NoEmpties(v)
    requires p <= PrintAll(vs)
    ensures CleanRun(State(EMPTY, p)) && Run(State(EMPTY, p)).Ok?
  {
    var q := PrintAll(vs)[|p|..];
    WholeList(vs);
    assert Extend(State(EMPTY, p), q) == State(EMPTY, PrintAll(vs)) by {
      assert p + q == PrintAll(vs);
    }
    CleanRunSplits(State(EMPTY, p), q);
  }

  /** The values wholly inside a prefix of the printed list, and what is left of it. */
  lemma WholeEnds(vs: seq<Value>, n: nat)
    requires n <= |PrintAll(vs)|
    ensures var k := Whole(vs, n);
            && PrintAll(vs) == PrintAll(vs[..k]) + PrintAll(vs[k..])
            && (k < |vs| ==> PrintAll(vs[k..]) == Print(vs[k]) + PrintAll(vs[k + 1..]))
            && (k < |vs| ==> n < |PrintAll(vs[..k])| + |Print(vs[k])|)
  {
    var k := Whole(vs, n);
    assert vs[..k] + vs[k..] == vs;
    PrintAllConcat(vs[..k], vs[k..]);
    if k < |vs| {
      assert vs[k..][1..] == vs[k + 1..];
      assert vs[..k + 1] == vs[..k] + [vs[k]] && [vs[k]][1..] == [];
      PrintAllConcat(vs[..k], [vs[k]]);
    }
  }

  lemma WholeSplits(vs: seq<Value>, p: bytes) returns (r: bytes)
    requires p <= PrintAll(vs)
    ensures var k := Whole(vs, |p|);
            && p == PrintAll(vs[..k]) + r
            && (k == |vs| ==> r == [])
            && (k < |vs| ==> r <= Print(vs[k]) && r != Print(vs[k]))
  {
    var k := Whole(vs, |p|);
    var done, todo := PrintAll(vs[..k]), PrintAll(vs[k..]);
    WholeEnds(vs, |p|);
    PrefixTail(p, done, todo);
    r := p[|done|..];
    if k < |vs| {
      PrefixHead(r, Print(vs[k]), PrintAll(vs[k + 1..]));
    }
  }

  lemma PrefixCuts(vs: seq<Value>, p: bytes, chunks: seq<bytes>)
    requires forall v <- vs :: Constructible(v) && NoEmpties(v)
    requires p <= PrintAll(vs) && Flatten(chunks) == p
    ensures FeedAll(INIT, chunks) == Feed(INIT, p)
  {
    PrefixAccepted(vs, p);
    FeedInit(p);
    assert INIT.buf + p == p;
    QuietWhenEmpty(EMPTY);
    CleanHeadersRun(State(EMPTY, p));
    CutIndependence(INIT, chunks);
  }

  /** What a reader holds that has been fed a prefix at once. */
  predicate Holds(out: Outcome, vs: seq<Value>, k: nat)
    requires k <= |vs|
  {
    out.Ok? && out.st.core.cont == vs[..k] && Shape(out.st.core.status)
  }

  lemma ListRuns(vs: seq<Value>, r: bytes)
    requires forall v <- vs :: Constructible(v) && NoEmpties(v)
    ensures Run(State(EMPTY, PrintAll(vs) + r)) == Run(State(Core(vs, []), r))
  {
    ListActs([], vs, r);
    assert [] + vs == vs;
  }

  lemma WaitsHolds(vs: seq<Value>, k: nat, r: bytes)
    requires forall v <- vs :: Constructible(v) && NoEmpties(v)
    requires k < |vs| && r <= Print(vs[k]) && r != Print(vs[k])
    ensures Holds(Run(State(Core(vs[..k], []), r)), vs, k)
  {
    PartOfValueWaits(Core(vs[..k], []), vs[k], r);
  }

  lemma PrefixHolds(vs: seq<Value>, p: bytes)
    requires forall v <- vs :: Constructible(v) && NoEmpties(v)
    requires p <= PrintAll(vs)
    ensures Holds(Run(State(EMPTY, p)), vs, Whole(vs, |p|))
  {
    var k := Whole(vs, |p|);
    var r := WholeSplits(vs, p);
    ListRuns(vs[..k], r);
    if k < |vs| {
      WaitsHolds(vs, k, r);
    } else {
      QuietWhenEmpty(Core(vs[..k], []));
    }
  }

  /** The main result: a reader that has been fed any prefix of a printed list of values, in any
      chunks, holds exactly the values that lie wholly inside the prefix, has not failed, keeps
      the stack in shape, and is in the same state as after one call with the whole prefix. */
  lemma AnyPrefixAnyCut(vs: seq<Value>, p: bytes, chunks: seq<bytes>)
    requires forall v <- vs :: Constructible(v) && NoEmpties(v)
    requires p <= PrintAll(vs) && Flatten(chunks) == p
    ensures FeedAll(INIT, chunks) == Feed(INIT, p)
    ensures Holds(FeedAll(INIT, chunks), vs, Whole(vs, |p|))
  {
    PrefixCuts(vs, p, chunks);
    FeedInit(p);
    PrefixHolds(vs, p);
  }

  // ---------------------------------------------------------------- a channel that pops

  function Before(a: seq<Value>, c: Core): Core {
    Core(a + c.cont, c.status)
  }

  function ActBefore(a: seq<Value>, act: Act): Act {
    match act
    case Done(c) => Done(Before(a, c))
    case Failed => Failed
    case Threw(c) => Threw(Before(a, c))
  }

  function OutBefore(a: seq<Value>, out: Outcome): Outcome {
    match out
    case Ok(st) => Ok(StBefore(a, st))
    case Exception(st) => Exception(StBefore(a, st))
    case _ => out
  }

  function StBefore(a: seq<Value>, st: State): State {
    State(Before(a, st.core), st.buf)
  }

  lemma {:induction false} RollbackFrame(a: seq<Value>, c: Core)
    requires c.status != []
    ensures Rollback(Before(a, c)) == ActBefore(a, Rollback(c))
    decreases |c.status|, 0
  {
    var top, popped := Top(c), c.(status := Below(c));
    if top.index == top.count {
      if |c.status| == 1 {
        assert a + (c.cont + [top.node]) == a + c.cont + [top.node];
      } else {
        assert Before(a, c).(status := Below(c)) == Before(a, popped);
        PutThenRollbackFrame(a, popped, top.node);
      }
    }
  }

  /** The common tail of appending and rolling back. */
  function PutThenRollback(c: Core, v: Value): Act
    requires c.status != []
  {
    match PutAtTop(c, v)
    case None => Threw(c)
    case Some(c') => if Top(c').index == Top(c').count then Rollback(c') else Done(c')
  }

  lemma {:induction false} PutThenRollbackFrame(a: seq<Value>, c: Core, v: Value)
    requires c.status != []
    ensures PutThenRollback(Before(a, c), v) == ActBefore(a, PutThenRollback(c, v))
    decreases |c.status|, 1
  {
    match PutAtTop(c, v)
    case None =>
    case Some(c') =>
      assert PutAtTop(Before(a, c), v) == Some(Before(a, c'));
      if Top(c').index == Top(c').count {
        RollbackFrame(a, c');
      }
  }

  lemma AppendFrame(a: seq<Value>, c: Core, v: Value)
    ensures AppendToTop(Before(a, c), v) == ActBefore(a, AppendToTop(c, v))
  {
    if c.status == [] {
      assert a + (c.cont + [v]) == a + c.cont + [v];
    } else {
      PutThenRollbackFrame(a, c, v);
    }
  }

  lemma LineFrame(a: seq<Value>, c: Core, line: bytes)
    ensures ParseLine(Before(a, c), line) == ActBefore(a, ParseLine(c, line))
  {
    forall v ensures AppendToTop(Before(a, c), v) == ActBefore(a, AppendToTop(c, v)) {
      AppendFrame(a, c, v);
    }
    if BulkPending(c) {
      var below := c.(status := Below(c));
      assert Before(a, c).(status := Below(c)) == Before(a, below);
      AppendFrame(a, below, Bulk(line));
    }
  }

  /** Values already queued, or already popped, do not matter to what is parsed next. */
  lemma {:induction false} RunFrame(a: seq<Value>, st: State)
    ensures Run(StBefore(a, st)) == OutBefore(a, Run(st))
    decreases |st.buf|
  {
    StepFrame(a, st);
    match Step(st)
    case Took(Done(c), rest) => RunFrame(a, State(c, rest));
    case _ =>
  }

  lemma StepFrame(a: seq<Value>, st: State)
    ensures Step(StBefore(a, st)) ==
            match Step(st)
            case Took(act, rest) => Took(ActBefore(a, act), rest)
            case other => other
  {
    var c := st.core;
    if BulkPending(c) {
      if |st.buf| >= Top(c).count + 2 {
        LineFrame(a, c, st.buf[..Top(c).count]);
      }
    } else if LineOf(st.buf).Line? {
      LineFrame(a, c, LineOf(st.buf).text);
    }
  }

  lemma {:induction false} FeedAllFrame(a: seq<Value>, st: State, chunks: seq<bytes>)
    ensures FeedAll(StBefore(a, st), chunks) == OutBefore(a, FeedAll(st, chunks))
    decreases chunks
  {
    if chunks != [] {
      RunFrame(a, Extend(st, chunks[0]));
      match Feed(st, chunks[0])
      case Ok(m) => FeedAllFrame(a, m, chunks[1..]);
      case _ =>
    }
  }

  /** RedisChannel::eventReadData for each chunk: parse it, then pop everything. */
  function FeedAndPop(st: State, chunks: seq<bytes>): Option<seq<Value>>
    decreases chunks
  {
    if chunks == [] then Some([])
    else
      match Feed(st, chunks[0])
      case Ok(m) =>
        (match FeedAndPop(State(m.core.(cont := []), m.buf), chunks[1..])
         case Some(later) => Some(m.core.cont + later)
         case None => None)
      case _ => None
  }

  /** The packets a channel hands up are the values a reader that never pops would queue. */
  lemma {:induction false} PoppingIsTransparent(st: State, chunks: seq<bytes>)
    requires st.core.cont == [] && FeedAll(st, chunks).Ok?
    ensures FeedAndPop(st, chunks) == Some(FeedAll(st, chunks).st.core.cont)
    decreases chunks
  {
    if chunks != [] {
      var m := Feed(st, chunks[0]).st;
      var popped := State(m.core.(cont := []), m.buf);
      assert StBefore(m.core.cont, popped) == m by { assert m.core.cont + [] == m.core.cont; }
      FeedAllFrame(m.core.cont, popped, chunks[1..]);
      PoppingIsTransparent(popped, chunks[1..]);
    }
  }

  /** So a channel that is sent a printed list hands up, after any chunks, exactly the values
      that have come in whole. */
  lemma ChannelDelivers(vs: seq<Value>, chunks: seq<bytes>)
    requires forall v <- vs :: Constructible(v) && NoEmpties(v)
    requires Flatten(chunks) <= PrintAll(vs)
    ensures FeedAndPop(INIT, chunks) == Some(vs[..Whole(vs, |Flatten(chunks)|)])
  {
    AnyPrefixAnyCut(vs, Flatten(chunks), chunks);
    PoppingIsTransparent(INIT, chunks);
  }
}
