/** Jobs, their keys and the sweep that kills, serves and times them out (pw_jobmanager). */
module JobManagers {
  newtype key = x: int | 0 <= x < 0x1_0000_0000

  const MAX_KEY: key := 0xffff_ffff
  const KEYS: int := 0x1_0000_0000

  /** ++key on a uint32_t. */
  function Succ(k: key): key {
    if k == MAX_KEY then 0 else k + 1
  }

  // ---------------------------------------------------------------- the key space

  /** The key n steps after `k` on the cycle. */
  function Shift(k: key, n: nat): (r: key)
    ensures n < KEYS ==> Steps(k, r) == n
  {
    if n == 0 then k else Succ(Shift(k, n - 1))
  }

  /** How many steps it takes to get from `k` to `x`. */
  function Steps(k: key, x: key): nat {
    if k <= x then x as int - k as int else KEYS + x as int - k as int
  }

  /** The first n keys from `k` on. */
  ghost function FirstKeys(k: key, n: nat): (r: set<key>)
    requires n <= KEYS
    ensures forall x :: x in r ==> Steps(k, x) < n
  {
    if n == 0 then {} else FirstKeys(k, n - 1) + {Shift(k, n - 1)}
  }

  /** The keys are the 32-bit numbers, and after the last one comes the first. */
  lemma {:induction false} ShiftIsSum(k: key, n: nat)
    ensures Shift(k, n) as int == (k as int + n) % 0x1_0000_0000
    decreases n
  {
    if n > 0 {
      ShiftIsSum(k, n - 1);
      NextInCycle(k as int + (n - 1), Shift(k, n - 1));
    }
  }

  lemma NextInCycle(i: int, k: key)
    requires k as int == i % 0x1_0000_0000
    ensures Succ(k) as int == (i + 1) % 0x1_0000_0000
  {
  }

  /** Going round, no key comes up twice before all have come up. */
  lemma {:induction false} FirstKeysDistinct(k: key, n: nat)
    requires n <= KEYS
    ensures |FirstKeys(k, n)| == n
    decreases n
  {
    if n > 0 {
      FirstKeysDistinct(k, n - 1);
      assert Shift(k, n - 1) !in FirstKeys(k, n - 1);
    }
  }

  lemma {:induction false} FirstKeysWithin(k: key, n: nat, s: set<key>)
    requires n <= KEYS && forall j :: 0 <= j < n ==> Shift(k, j) in s
    ensures FirstKeys(k, n) <= s
    decreases n
  {
    if n > 0 {
      FirstKeysWithin(k, n - 1, s);
    }
  }

  lemma SubsetSize<T>(a: set<T>, b: set<T>)
    requires a <= b
    ensures |a| <= |b|
  {
    assert b == a + (b - a);
  }

  /** If n keys from `k` on are all live or zero, there are at least n - 1 live keys. */
  lemma ProbesBound(k: key, n: nat, live: set<key>)
    requires n <= KEYS
    requires forall j :: 0 <= j < n ==> Shift(k, j) in live || Shift(k, j) == 0
    ensures n <= |live| + 1
  {
    FirstKeysDistinct(k, n);
    FirstKeysWithin(k, n, live + {0});
    SubsetSize(FirstKeys(k, n), live + {0});
  }

  // ---------------------------------------------------------------- histories

  /** A packet or an error that waits for a job. */
  datatype Record = Record(key: key, isPacket: bool, payload: int)

  datatype Event =
    | Freed(k: key)
    | Got(k: key, record: Record)
    | TimedOut(k: key, age: int)

  /** What a job does when it is called: setRelease on some jobs, reserve records, and whether
      it lets itself be deleted. */
  datatype Answer = Answer(kills: set<key>, records: seq<Record>, del: bool)

  /** The jobs together: what they do may depend on everything so far. */
  type Handler = seq<Event> -> Answer

  /** The records and the marks that come from the events of `log` from index `from` on. */
  function ReservedIn(h: Handler, log: seq<Event>, from: nat): seq<Record> {
    if |log| <= from then []
    else
      ReservedIn(h, log[..|log| - 1], from) + if log[|log| - 1].Freed? then [] else h(log).records
  }

  function MarkedIn(h: Handler, log: seq<Event>, from: nat): set<key> {
    if |log| <= from then {}
    else MarkedIn(h, log[..|log| - 1], from) + if log[|log| - 1].Freed? then {} else h(log).kills
  }

  /** An event, and the end of its job if the job agrees. */
  function Told(h: Handler, log: seq<Event>, e: Event): seq<Event> {
    var l := log + [e];
    if h(l).del then l + [Freed(e.k)] else l
  }

  /** A record reaches its job if the job is there when its turn comes. */
  function ServeOne(h: Handler, issued: set<key>, log: seq<Event>, r: Record): seq<Event> {
    if r.key in issued && Freed(r.key) !in log then Told(h, log, Got(r.key, r)) else log
  }

  function Serve(h: Handler, issued: set<key>, log: seq<Event>, queue: seq<Record>): seq<Event> {
    if queue == [] then log
    else ServeOne(h, issued, Serve(h, issued, log, queue[..|queue| - 1]), queue[|queue| - 1])
  }

  // ---------------------------------------------------------------- whether serving ends

  /** What the job reserves when the record reaches it. */
  function Reserves(h: Handler, issued: set<key>, log: seq<Event>, r: Record): seq<Record> {
    if r.key in issued && Freed(r.key) !in log then h(log + [Got(r.key, r)]).records else []
  }

  datatype Serving = Serving(log: seq<Event>, queue: seq<Record>)

  /** The history and the queue after n turns of dispatchReserve, or after the last. */
  function ServingAt(h: Handler, issued: set<key>, log: seq<Event>, queue: seq<Record>, n: nat): Serving {
    if n == 0 then Serving(log, queue)
    else
      var s := ServingAt(h, issued, log, queue, n - 1);
      if n - 1 < |s.queue| then
        Serving(ServeOne(h, issued, s.log, s.queue[n - 1]),
                s.queue + Reserves(h, issued, s.log, s.queue[n - 1]))
      else s
  }

  /** After n turns nothing is left to serve. */
  predicate CaughtUp(h: Handler, issued: set<key>, log: seq<Event>, queue: seq<Record>, n: nat) {
    |ServingAt(h, issued, log, queue, n).queue| <= n
  }

  /** The jobs do not keep dispatchReserve going for ever, from this history and this queue. */
  ghost predicate Ends(h: Handler, issued: set<key>, log: seq<Event>, queue: seq<Record>) {
    exists n :: CaughtUp(h, issued, log, queue, n)
  }

  lemma {:induction false} CaughtUpStays(h: Handler, issued: set<key>, log: seq<Event>, queue: seq<Record>, n: nat,
                                         i: nat)
    requires CaughtUp(h, issued, log, queue, n) && n <= i
    ensures CaughtUp(h, issued, log, queue, i)
    decreases i
  {
    if n < i {
      CaughtUpStays(h, issued, log, queue, n, i - 1);
    }
  }

  lemma {:induction false} ServingSame(h: Handler, issued: set<key>, log: seq<Event>, queue: seq<Record>, n: nat)
    requires forall l, r: Record :: h(l + [Got(r.key, r)]).records == []
    ensures ServingAt(h, issued, log, queue, n).queue == queue
    decreases n
  {
    if n > 0 {
      ServingSame(h, issued, log, queue, n - 1);
    }
  }

  /** Jobs that reserve nothing when a record reaches them, whatever they do otherwise. */
  lemma EndsIfNothingReserved(h: Handler, issued: set<key>, log: seq<Event>, queue: seq<Record>)
    requires forall l, r: Record :: h(l + [Got(r.key, r)]).records == []
    ensures Ends(h, issued, log, queue)
  {
    ServingSame(h, issued, log, queue, |queue|);
    assert CaughtUp(h, issued, log, queue, |queue|);
  }

  // ---------------------------------------------------------------- what arrives

  /** The records delivered in the course of `log`, and how many timeouts it has. */
  function Gots(log: seq<Event>): seq<Record> {
    if log == [] then []
    else Gots(log[..|log| - 1]) + if log[|log| - 1].Got? then [log[|log| - 1].record] else []
  }

  function Timeouts(log: seq<Event>): nat {
    if log == [] then 0
    else Timeouts(log[..|log| - 1]) + if log[|log| - 1].TimedOut? then 1 else 0
  }

  lemma ToldCounts(h: Handler, log: seq<Event>, e: Event)
    requires !e.Freed?
    ensures Gots(Told(h, log, e)) == Gots(log) + if e.Got? then [e.record] else []
    ensures Timeouts(Told(h, log, e)) == Timeouts(log) + if e.TimedOut? then 1 else 0
  {
    var l := log + [e];
    assert l[..|l| - 1] == log;
    var m := l + [Freed(e.k)];
    assert m[..|m| - 1] == l;
    assert Gots(l) + [] == Gots(l);
  }

  /** The records for one job. */
  function For(records: seq<Record>, k: key): seq<Record> {
    if records == [] then []
    else For(records[..|records| - 1], k) + if records[|records| - 1].key == k then [records[|records| - 1]] else []
  }

  lemma ForOneMore(records: seq<Record>, r: Record, k: key)
    ensures For(records + [r], k) == For(records, k) + if r.key == k then [r] else []
  {
    assert (records + [r])[..|records|] == records;
  }

  lemma ServeOneFor(h: Handler, issued: set<key>, log: seq<Event>, r: Record, k: key)
    ensures log <= ServeOne(h, issued, log, r)
    ensures For(Gots(ServeOne(h, issued, log, r)), k)
         == For(Gots(log), k) + if r.key == k && k in issued && Freed(k) !in log then [r] else []
  {
    if r.key in issued && Freed(r.key) !in log {
      ToldCounts(h, log, Got(r.key, r));
      ForOneMore(Gots(log), r, k);
    }
  }

  lemma AppendToPrefix(base: seq<Record>, part: seq<Record>, whole: seq<Record>, more: seq<Record>, all: bool)
    requires part <= whole && (all ==> part == whole)
    ensures part <= whole + more
    ensures all ==> part + more == whole + more && base + part + more == base + (part + more)
  {
  }

  /** Reserved records are delivered in order and at most once: what a job gets of a queue is a
      prefix of the records that are meant for it, and all of them if the job survives. */
  lemma {:induction false} ServeDelivers(h: Handler, issued: set<key>, log: seq<Event>, queue: seq<Record>, k: key)
    returns (got: seq<Record>)
    ensures log <= Serve(h, issued, log, queue)
    ensures For(Gots(Serve(h, issued, log, queue)), k) == For(Gots(log), k) + got
    ensures got <= For(queue, k)
    ensures k in issued && Freed(k) !in Serve(h, issued, log, queue) ==> got == For(queue, k)
    ensures k !in issued || Freed(k) in log ==> got == []
    decreases |queue|
  {
    if queue == [] {
      got := [];
    } else {
      var before := Serve(h, issued, log, queue[..|queue| - 1]);
      var r := queue[|queue| - 1];
      var part := ServeDelivers(h, issued, log, queue[..|queue| - 1], k);
      ServeOneFor(h, issued, before, r, k);
      var there := k in issued && Freed(k) !in before;
      AppendToPrefix(For(Gots(log), k), part, For(queue[..|queue| - 1], k), if r.key == k then [r] else [], there);
      got := if r.key == k && there then part + [r] else part;
    }
  }

  lemma ReservedMore(h: Handler, log: seq<Event>, less: seq<Event>, from: nat, more: seq<Record>)
    requires from < |log| && less == log[..|log| - 1]
    requires more == if log[|log| - 1].Freed? then [] else h(log).records
    ensures ReservedIn(h, log, from) == ReservedIn(h, less, from) + more
  {
  }

  lemma Joined(a: seq<Record>, b: seq<Record>, c: seq<Record>)
    ensures a + b + c == a + (b + c)
  {
  }

  /** What is reserved in the course of a history is what has been up to any point and what is
      from there on; and a call makes its job reserve what it answers. */
  lemma {:induction false} ReservedSays(h: Handler, log: seq<Event>, from: nat, i: nat)
    requires from <= i <= |log|
    ensures ReservedIn(h, log, from) == ReservedIn(h, log[..i], from) + ReservedIn(h, log, i)
    ensures i + 1 == |log| ==> ReservedIn(h, log, i) == if log[i].Freed? then [] else h(log).records
    decreases |log|
  {
    if i < |log| {
      var less := log[..|log| - 1];
      var more := if log[|log| - 1].Freed? then [] else h(log).records;
      ReservedSays(h, less, from, i);
      assert less[..i] == log[..i];
      ReservedMore(h, log, less, from, more);
      ReservedMore(h, log, less, i, more);
      Joined(ReservedIn(h, log[..i], from), ReservedIn(h, less, i), more);
    } else {
      assert log[..i] == log;
    }
  }

  /** A job is marked in the course of a history if and only if a job that is called marks it. */
  lemma {:induction false} MarkedSays(h: Handler, log: seq<Event>, from: nat, k: key)
    ensures k in MarkedIn(h, log, from) <==> exists i :: from <= i < |log| && MarksAt(h, log, i, k)
    decreases |log|
  {
    if from < |log| {
      var less := log[..|log| - 1];
      MarkedSays(h, less, from, k);
      assert log[..|log|] == log;
      forall i | from <= i < |less|
        ensures MarksAt(h, less, i, k) <==> MarksAt(h, log, i, k)
      {
        assert less[..i + 1] == log[..i + 1];
      }
      assert k in MarkedIn(h, log, from) <==> k in MarkedIn(h, less, from) || MarksAt(h, log, |less|, k);
    }
  }

  predicate MarksAt(h: Handler, log: seq<Event>, i: nat, k: key)
    requires i < |log|
  {
    !log[i].Freed? && k in h(log[..i + 1]).kills
  }

  /** What serving records may add to a history at index i: a record for its own job, and behind it
      the end of the job if the job agreed to that, and only then. */
  predicate ServedAt(h: Handler, log: seq<Event>, i: nat)
    requires i < |log|
  {
    match log[i]
    case Got(k, r) => r.key == k && (h(log[..i + 1]).del ==> i + 1 < |log| && log[i + 1] == Freed(k))
    case Freed(k) => i > 0 && log[i - 1].Got? && log[i - 1].k == k && h(log[..i]).del
    case TimedOut(_, _) => false
  }

  ghost predicate ServedFrom(h: Handler, log: seq<Event>, from: nat) {
    forall i :: from <= i < |log| ==> ServedAt(h, log, i)
  }

  lemma ServedFromMore(h: Handler, log: seq<Event>, from: nat, later: seq<Event>)
    requires from <= |log| && ServedFrom(h, log, from) && log <= later
    requires |log| > from && log[|log| - 1].Got? ==> !h(log).del
    requires forall i :: |log| <= i < |later| ==> ServedAt(h, later, i)
    ensures ServedFrom(h, later, from)
  {
    assert log[..|log|] == log;
    forall i | from <= i < |log|
      ensures ServedAt(h, later, i)
    {
      assert later[..i + 1] == log[..i + 1] && later[..i] == log[..i] && ServedAt(h, log, i);
    }
  }

  lemma ServeOneSays(h: Handler, log: seq<Event>, r: Record)
    ensures var later := Told(h, log, Got(r.key, r));
            && log < later && (forall i :: |log| <= i < |later| ==> ServedAt(h, later, i))
            && (later[|later| - 1].Got? ==> !h(later).del)
  {
    var l := log + [Got(r.key, r)];
    var later := Told(h, log, Got(r.key, r));
    assert later[..|log| + 1] == l;
    if h(l).del {
      assert ServedAt(h, later, |log|) && ServedAt(h, later, |log| + 1);
    }
  }

  /** Serving calls jobs with their records and frees those that agree, and does nothing else. */
  lemma {:induction false} ServeSays(h: Handler, issued: set<key>, log: seq<Event>, queue: seq<Record>)
    ensures var later := Serve(h, issued, log, queue);
            && log <= later && ServedFrom(h, later, |log|)
            && (|later| > |log| && later[|later| - 1].Got? ==> !h(later).del)
    decreases |queue|
  {
    if queue != [] {
      var before := Serve(h, issued, log, queue[..|queue| - 1]);
      var r := queue[|queue| - 1];
      ServeSays(h, issued, log, queue[..|queue| - 1]);
      if r.key in issued && Freed(r.key) !in before {
        ServeOneSays(h, before, r);
        ServedFromMore(h, before, |log|, Told(h, before, Got(r.key, r)));
      }
    }
  }

  /** What the jobs have reserved and marked since index `from` has been added. */
  ghost predicate Collected(h: Handler, log: seq<Event>, from: nat, reserve0: seq<Record>, kills0: set<key>,
                            reserve: seq<Record>, kills: set<key>)
  {
    && reserve == reserve0 + ReservedIn(h, log, from)
    && kills == kills0 + MarkedIn(h, log, from)
  }

  lemma CollectMore(h: Handler, log: seq<Event>, log2: seq<Event>, from: nat, reserve0: seq<Record>,
                    kills0: set<key>, reserve: seq<Record>, kills: set<key>, records: seq<Record>,
                    marks: set<key>)
    requires Collected(h, log, from, reserve0, kills0, reserve, kills)
    requires ReservedIn(h, log2, from) == ReservedIn(h, log, from) + records
    requires MarkedIn(h, log2, from) == MarkedIn(h, log, from) + marks
    ensures Collected(h, log2, from, reserve0, kills0, reserve + records, kills + marks)
  {
  }

  lemma ToldIn(h: Handler, log: seq<Event>, e: Event, from: nat)
    requires !e.Freed? && from <= |log|
    ensures ReservedIn(h, Told(h, log, e), from) == ReservedIn(h, log, from) + h(log + [e]).records
    ensures MarkedIn(h, Told(h, log, e), from) == MarkedIn(h, log, from) + h(log + [e]).kills
  {
    var l := log + [e];
    assert l[..|l| - 1] == log;
    var m := l + [Freed(e.k)];
    assert m[..|m| - 1] == l;
    assert ReservedIn(h, l, from) + [] == ReservedIn(h, l, from);
    assert MarkedIn(h, l, from) + {} == MarkedIn(h, l, from);
  }

  /** A job that has been freed is never heard of again, so none is freed twice. */
  ghost predicate Orderly(log: seq<Event>) {
    forall i, j :: 0 <= i < j < |log| && log[i].Freed? ==> log[j].k != log[i].k
  }

  /** A history that goes on with the ends of these jobs, in some order. */
  ghost predicate Killing(log: seq<Event>, gone: set<key>, later: seq<Event>) {
    && log <= later
    && (forall i :: |log| <= i < |later| ==> later[i].Freed? && later[i].k in gone)
    && (forall k :: k in gone ==> Freed(k) in later[|log|..])
  }

  /** And each of them ends once. */
  ghost predicate Killed(log: seq<Event>, gone: set<key>, later: seq<Event>) {
    Killing(log, gone, later) && Orderly(later)
  }

  lemma KillOneMore(log: seq<Event>, gone: set<key>, later: seq<Event>, k: key)
    requires Killing(log, gone, later)
    ensures Killing(log, gone + {k}, later + [Freed(k)])
  {
    assert (later + [Freed(k)])[|log|..] == later[|log|..] + [Freed(k)];
  }

  lemma GoneAreSilent(log: seq<Event>, later: seq<Event>, issued: set<key>, gone: set<key>)
    requires log <= later && Orderly(later)
    requires forall i :: 0 <= i < |later| ==> later[i].k in issued
    requires forall k :: k in gone && k in issued ==> Freed(k) in log
    ensures forall i :: |log| <= i < |later| ==> later[i].k !in gone
  {
  }

  /** What the last phase of a sweep, from index `mid` of the history on, has done about a job
      of that age: if it is too old it was told so exactly once, and it is still there exactly
      if it then declined to be deleted; otherwise it was left alone. */
  ghost predicate Swept(h: Handler, log: seq<Event>, live: set<key>, k: key, age: int, timeout: int, mid: nat) {
    if age > timeout then SweptOnce(h, log, live, k, age, mid)
    else k in live && forall i :: mid <= i < |log| ==> log[i].k != k
  }

  ghost predicate SweptOnce(h: Handler, log: seq<Event>, live: set<key>, k: key, age: int, mid: nat) {
    exists j :: mid <= j < |log| && SweptAt(h, log, live, k, age, mid, j)
  }

  ghost predicate SweptAt(h: Handler, log: seq<Event>, live: set<key>, k: key, age: int, mid: nat, j: nat)
    requires j < |log|
  {
    && log[j] == TimedOut(k, age)
    && (k in live <==> !h(log[..j + 1]).del)
    && forall i :: mid <= i < |log| && log[i].k == k && !log[i].Freed? ==> i == j
  }

  lemma SweptNow(h: Handler, log: seq<Event>, live: set<key>, k: key, age: int, timeout: int, mid: nat)
    requires k in live && age > timeout && mid <= |log|
    requires forall i :: mid <= i < |log| ==> log[i].k != k
    ensures var e := TimedOut(k, age);
            var live' := if h(log + [e]).del then live - {k} else live;
            Swept(h, Told(h, log, e), live', k, age, timeout, mid)
  {
    var e := TimedOut(k, age);
    var told := Told(h, log, e);
    var live' := if h(log + [e]).del then live - {k} else live;
    assert told[..|log| + 1] == log + [e];
    assert SweptAt(h, told, live', k, age, mid, |log|);
  }

  lemma SweptStays(h: Handler, log: seq<Event>, log2: seq<Event>, live: set<key>, live2: set<key>,
                   k: key, age: int, timeout: int, mid: nat)
    requires log <= log2 && (k in live <==> k in live2)
    requires forall i :: |log| <= i < |log2| ==> log2[i].k != k
    requires Swept(h, log, live, k, age, timeout, mid)
    ensures Swept(h, log2, live2, k, age, timeout, mid)
  {
    if age > timeout {
      assert SweptOnce(h, log, live, k, age, mid);
      var j :| mid <= j < |log| && SweptAt(h, log, live, k, age, mid, j);
      assert log2[..j + 1] == log[..j + 1];
      assert SweptAt(h, log2, live2, k, age, mid, j);
    }
  }

  /** Some of the jobs of `b`, unchanged. */
  ghost predicate Within(a: map<key, int>, b: map<key, int>) {
    forall k :: k in a ==> k in b && a[k] == b[k]
  }

  /** The events from index `from` on concern only these jobs. */
  ghost predicate EventsIn(log: seq<Event>, from: nat, keys: set<key>) {
    forall i :: from <= i < |log| ==> log[i].k in keys
  }

  lemma EventsInStep(log: seq<Event>, log2: seq<Event>, from: nat, all: set<key>, todo: set<key>, k: key)
    requires log <= log2 && k in all && EventsIn(log, from, all - todo) && EventsIn(log2, |log|, {k})
    ensures EventsIn(log2, from, all - (todo - {k}))
  {
  }

  ghost predicate SameBut(a: set<key>, b: set<key>, k: key) {
    forall x :: x != k ==> (x in a <==> x in b)
  }

  /** All jobs of `starts` but those still to do have been swept. */
  ghost predicate AllSwept(h: Handler, log: seq<Event>, live: set<key>, starts: map<key, int>,
                           now: int, timeout: int, mid: nat, todo: set<key>)
  {
    forall k :: k in starts && k !in todo ==> Swept(h, log, live, k, now - starts[k], timeout, mid)
  }

  lemma AllSweptStep(h: Handler, log: seq<Event>, log2: seq<Event>, live: set<key>, live2: set<key>,
                     starts: map<key, int>, now: int, timeout: int, mid: nat, todo: set<key>, k: key)
    requires k in todo && log <= log2 && EventsIn(log2, |log|, {k})
    requires SameBut(live, live2, k)
    requires AllSwept(h, log, live, starts, now, timeout, mid, todo)
    requires k in starts ==> Swept(h, log2, live2, k, now - starts[k], timeout, mid)
    ensures AllSwept(h, log2, live2, starts, now, timeout, mid, todo - {k})
  {
    forall x | x in starts && x !in todo - {k}
      ensures Swept(h, log2, live2, x, now - starts[x], timeout, mid)
    {
      if x != k {
        SweptStays(h, log, log2, live, live2, x, now - starts[x], timeout, mid);
      }
    }
  }

  /** How far the last phase of a sweep has come, with the jobs of `todo` still ahead. */
  ghost predicate Sweeping(h: Handler, log: seq<Event>, live: set<key>, starts: map<key, int>, now: int,
                           timeout: int, mid: nat, todo: set<key>)
  {
    && mid <= |log| && todo <= live
    && EventsIn(log, mid, starts.Keys - todo)
    && AllSwept(h, log, live, starts, now, timeout, mid, todo)
  }

  lemma SweepingStep(h: Handler, log: seq<Event>, log2: seq<Event>, live: set<key>, live2: set<key>,
                     starts: map<key, int>, now: int, timeout: int, mid: nat, todo: set<key>, k: key, age: int)
    requires Sweeping(h, log, live, starts, now, timeout, mid, todo)
    requires k in todo && k in starts && log <= log2 && EventsIn(log2, |log|, {k})
    requires SameBut(live, live2, k)
    requires age == now - starts[k] && Swept(h, log2, live2, k, age, timeout, mid)
    ensures Sweeping(h, log2, live2, starts, now, timeout, mid, todo - {k})
  {
    EventsInStep(log, log2, mid, starts.Keys, todo, k);
    AllSweptStep(h, log, log2, live, live2, starts, now, timeout, mid, todo, k);
  }

  /** How far dispatchReserve has come after i turns, from the history `log0` on. */
  ghost predicate Served(h: Handler, issued: set<key>, log0: seq<Event>, reserve0: seq<Record>, kills0: set<key>,
                         log: seq<Event>, reserve: seq<Record>, kills: set<key>, i: nat)
  {
    && i <= |reserve|
    && Collected(h, log, |log0|, reserve0, kills0, reserve, kills)
    && log == Serve(h, issued, log0, reserve[..i])
    && Serving(log, reserve) == ServingAt(h, issued, log0, reserve0, i)
  }

  lemma ServedAll(h: Handler, issued: set<key>, log0: seq<Event>, reserve0: seq<Record>, kills0: set<key>,
                  log: seq<Event>, reserve: seq<Record>, kills: set<key>, i: nat)
    requires Served(h, issued, log0, reserve0, kills0, log, reserve, kills, i) && i >= |reserve|
    ensures Collected(h, log, |log0|, reserve0, kills0, reserve, kills)
    ensures log == Serve(h, issued, log0, reserve)
  {
    assert reserve[..i] == reserve;
  }

  lemma ServeMore(h: Handler, issued: set<key>, log0: seq<Event>, log: seq<Event>, reserve: seq<Record>,
                  records: seq<Record>, i: nat)
    requires i < |reserve| && log == Serve(h, issued, log0, reserve[..i])
    ensures ServeOne(h, issued, log, reserve[i]) == Serve(h, issued, log0, (reserve + records)[..i + 1])
  {
    var queue := (reserve + records)[..i + 1];
    assert queue[..i] == reserve[..i] && queue[i] == reserve[i];
  }

  lemma ServedStep(h: Handler, issued: set<key>, log0: seq<Event>, reserve0: seq<Record>, kills0: set<key>,
                   log: seq<Event>, reserve: seq<Record>, kills: set<key>, i: nat,
                   log2: seq<Event>, records: seq<Record>, marks: set<key>)
    requires Served(h, issued, log0, reserve0, kills0, log, reserve, kills, i) && i < |reserve|
    requires log2 == ServeOne(h, issued, log, reserve[i]) && records == Reserves(h, issued, log, reserve[i])
    requires ReservedIn(h, log2, |log0|) == ReservedIn(h, log, |log0|) + records
    requires MarkedIn(h, log2, |log0|) == MarkedIn(h, log, |log0|) + marks
    ensures Served(h, issued, log0, reserve0, kills0, log2, reserve + records, kills + marks, i + 1)
  {
    CollectMore(h, log, log2, |log0|, reserve0, kills0, reserve, kills, records, marks);
    ServeMore(h, issued, log0, log, reserve, records, i);
  }

  /** While records are left, not as many turns have been made as it takes to catch up. */
  lemma NotCaughtUp(h: Handler, issued: set<key>, log0: seq<Event>, reserve0: seq<Record>, log: seq<Event>,
                    reserve: seq<Record>, i: nat, n: nat)
    requires Serving(log, reserve) == ServingAt(h, issued, log0, reserve0, i) && i < |reserve|
    requires CaughtUp(h, issued, log0, reserve0, n)
    ensures i < n
  {
    if n <= i {
      CaughtUpStays(h, issued, log0, reserve0, n, i);
    }
  }

  /** The job was told that it is too old, since index `mid`, and agreed to be deleted. */
  ghost predicate Agreed(h: Handler, log: seq<Event>, k: key, mid: nat) {
    exists j :: mid <= j < |log| && AgreedAt(h, log, k, j)
  }

  ghost predicate AgreedAt(h: Handler, log: seq<Event>, k: key, j: nat)
    requires j < |log|
  {
    log[j].TimedOut? && log[j].k == k && h(log[..j + 1]).del
  }

  /** After a sweep a job is still there exactly if it did not agree to be deleted: it was not
      too old, or it declined. Only a job that is too old is asked. */
  lemma {:induction false} Survivors(h: Handler, log: seq<Event>, live: set<key>, starts: map<key, int>,
                                     now: int, timeout: int, mid: nat, k: key)
    requires Sweeping(h, log, live, starts, now, timeout, mid, {}) && k in starts
    ensures k in live <==> !Agreed(h, log, k, mid)
    ensures TimedOut(k, now - starts[k]) in log[mid..] <==> now - starts[k] > timeout
  {
    var age := now - starts[k];
    assert Swept(h, log, live, k, age, timeout, mid);
    if age > timeout {
      assert SweptOnce(h, log, live, k, age, mid);
      var j :| mid <= j < |log| && SweptAt(h, log, live, k, age, mid, j);
      assert log[mid..][j - mid] == TimedOut(k, age);
      if k !in live {
        assert AgreedAt(h, log, k, j);
      }
    }
  }

  class JobManager {
    /** Jobs by key, each with its start time. */
    var jobs: map<key, int>
    var kills: set<key>
    var lastKey: key
    var reserve: seq<Record>

    /** The value m_key happened to have at first, and the keys given out since. */
    ghost const first: key
    ghost var issued: set<key>

    /** All that has happened to the jobs; what they do may depend on it. */
    var log: seq<Event>

    ghost predicate Valid()
      reads this
    {
      && first <= lastKey
      && (forall k :: k in issued ==> first < k <= lastKey)
      && (forall i :: 0 <= i < |log| ==> log[i].k in issued)
      && (forall k :: k in jobs <==> k in issued && Freed(k) !in log)
      && Orderly(log)
    }

    constructor (anyKey: key)
      ensures Valid() && jobs == map[] && kills == {} && reserve == [] && log == []
      ensures lastKey == anyKey
    {
      jobs, kills, reserve := map[], {}, [];
      lastKey, first := anyKey, anyKey;
      issued, log := {}, [];
    }

    /** getKey: with fewer than 2^32 - 1 live jobs it ends, after at most live + 2 probes, with
        a key that is neither zero nor in use, wherever on the cycle it starts. */
    method GetKey() returns (k: key, ghost probes: nat)
      requires |jobs| < KEYS - 1
      modifies this`lastKey
      ensures k != 0 && k !in jobs && lastKey == k
      ensures 1 <= probes <= |jobs| + 2 && k == Shift(Succ(old(lastKey)), probes - 1)
      ensures forall j :: 0 <= j < probes - 1 ==>
                Shift(Succ(old(lastKey)), j) in jobs || Shift(Succ(old(lastKey)), j) == 0
    {
      ghost var start := Succ(lastKey);
      k := Succ(lastKey);
      probes := 1;
      assert |jobs.Keys| == |jobs|;
      while k in jobs || k == 0
        invariant 1 <= probes <= |jobs| + 2
        invariant k == Shift(start, probes - 1)
        invariant forall j :: 0 <= j < probes - 1 ==> Shift(start, j) in jobs || Shift(start, j) == 0
        decreases |jobs| + 2 - probes
      {
        ProbesBound(start, probes, jobs.Keys);
        k := Succ(k);
        probes := probes + 1;
        assert Shift(start, probes - 1) == Succ(Shift(start, probes - 2));
      }
      lastKey := k;
    }

    /** Job::Job. Before the counter wraps, no key is given out twice. */
    method NewJob(now: int) returns (k: key)
      requires Valid() && lastKey < MAX_KEY && |jobs| < KEYS - 1
      modifies this
      ensures Valid() && k == old(lastKey) + 1 && k !in old(issued)
      ensures jobs == old(jobs)[k := now] && issued == old(issued) + {k}
      ensures kills == old(kills) && reserve == old(reserve) && log == old(log)
    {
      ghost var start, probes := Succ(lastKey), 0;
      assert start !in issued && start != 0 && Shift(start, 0) == start;
      k, probes := GetKey();
      assert probes == 1 && k == start;
      assert Freed(k) !in log;
      jobs := jobs[k := now];
      issued := issued + {k};
    }

    /** Job::setRelease */
    method SetRelease(k: key)
      requires Valid()
      modifies this`kills
      ensures Valid() && kills == old(kills) + {k}
    {
      kills := kills + {k};
    }

    method Reserve(r: Record)
      requires Valid()
      modifies this`reserve
      ensures Valid() && reserve == old(reserve) + [r]
    {
      reserve := reserve + [r];
    }

    /** delete job */
    method Delete(k: key)
      requires Valid() && k in jobs
      modifies this`jobs, this`log
      ensures Valid() && jobs == old(jobs) - {k} && log == old(log) + [Freed(k)]
    {
      jobs := jobs - {k};
      log := log + [Freed(k)];
    }

    /** The marked jobs are freed, with no event, and the marks are gone. */
    method DispatchKill() returns (count: nat)
      requires Valid()
      modifies this`jobs, this`kills, this`log
      ensures Valid() && kills == {}
      ensures jobs == old(jobs) - old(kills)
      ensures old(log) <= log
      ensures forall i :: |old(log)| <= i < |log| ==> log[i].Freed? && log[i].k in old(kills)
      ensures count == |log| - |old(log)|
      ensures Killed(old(log), old(kills) * old(jobs).Keys, log)
    {
      count := 0;
      var todo := kills;
      ghost var gone: set<key> := {};
      while todo != {}
        invariant Valid() && todo <= kills == old(kills)
        invariant forall k :: k in gone <==> k in kills && k !in todo && k in old(jobs)
        invariant Killing(old(log), gone, log) && jobs == old(jobs) - gone
        invariant count == |log| - |old(log)|
        decreases todo
      {
        var k :| k in todo;
        if k in jobs {
          KillOneMore(old(log), gone, log, k);
          Delete(k);
          count := count + 1;
          gone := gone + {k};
        }
        todo := todo - {k};
      }
      kills := {};
      assert gone == old(kills) * old(jobs).Keys;
    }

    /** A job is called, and deleted if it agrees. */
    method Tell(e: Event, handler: Handler)
      requires Valid() && e.k in jobs && !e.Freed?
      modifies this`jobs, this`kills, this`reserve, this`log
      ensures Valid()
      ensures log == Told(handler, old(log), e)
      ensures jobs == if handler(old(log) + [e]).del then old(jobs) - {e.k} else old(jobs)
      ensures kills == old(kills) + handler(old(log) + [e]).kills
      ensures reserve == old(reserve) + handler(old(log) + [e]).records
    {
      log := log + [e];
      assert Valid();
      var answer := handler(log);
      kills := kills + answer.kills;
      reserve := reserve + answer.records;
      if answer.del {
        Delete(e.k);
      }
    }

    /** One turn of the loop of dispatchReserve. */
    method ServeNext(r: Record, handler: Handler, ghost from: nat)
      returns (found: bool, ghost records: seq<Record>, ghost marks: set<key>)
      requires Valid() && from <= |log|
      modifies this`jobs, this`kills, this`reserve, this`log
      ensures Valid() && found == (r.key in old(jobs))
      ensures old(log) <= log && Within(jobs, old(jobs))
      ensures log == ServeOne(handler, issued, old(log), r) && records == Reserves(handler, issued, old(log), r)
      ensures |Gots(log)| == |Gots(old(log))| + if found then 1 else 0
      ensures reserve == old(reserve) + records && kills == old(kills) + marks
      ensures ReservedIn(handler, log, from) == ReservedIn(handler, old(log), from) + records
      ensures MarkedIn(handler, log, from) == MarkedIn(handler, old(log), from) + marks
    {
      found, records, marks := r.key in jobs, [], {};
      if found {
        ToldIn(handler, log, Got(r.key, r), from);
        ToldCounts(handler, log, Got(r.key, r));
        records, marks := handler(log + [Got(r.key, r)]).records, handler(log + [Got(r.key, r)]).kills;
        Tell(Got(r.key, r), handler);
      }
    }

    /** The turn for the record at index i, on top of all turns before. */
    method ServeAt(i: nat, handler: Handler, ghost log0: seq<Event>, ghost reserve0: seq<Record>,
                   ghost kills0: set<key>)
      returns (found: bool)
      requires Valid() && i < |reserve| && |log0| <= |log|
      requires Served(handler, issued, log0, reserve0, kills0, log, reserve, kills, i)
      modifies this`jobs, this`kills, this`reserve, this`log
      ensures Valid() && found == (old(reserve)[i].key in old(jobs))
      ensures |Gots(log)| == |Gots(old(log))| + if found then 1 else 0
      ensures old(log) <= log && Within(jobs, old(jobs))
      ensures Served(handler, issued, log0, reserve0, kills0, log, reserve, kills, i + 1)
    {
      ghost var records, marks;
      found, records, marks := ServeNext(reserve[i], handler, |log0|);
      ServedStep(handler, issued, log0, reserve0, kills0, old(log), old(reserve), old(kills), i, log, records, marks);
    }

    /** The loop of dispatchReserve, which ends after at most n turns. */
    method ServeAll(handler: Handler, ghost n: nat, ghost log0: seq<Event>, ghost reserve0: seq<Record>,
                    ghost kills0: set<key>)
      returns (count: nat)
      requires Valid() && log == log0 && reserve == reserve0 && kills == kills0
      requires CaughtUp(handler, issued, log0, reserve0, n)
      modifies this`jobs, this`kills, this`reserve, this`log
      ensures Valid() && log0 <= log && Within(jobs, old(jobs))
      ensures count == |Gots(log)| - |Gots(log0)|
      ensures Served(handler, issued, log0, reserve0, kills0, log, reserve, kills, |reserve|)
    {
      count := 0;
      var i := 0;
      while i < |reserve|
        invariant Valid() && log0 <= log && Within(jobs, old(jobs))
        invariant count == |Gots(log)| - |Gots(log0)|
        invariant 0 <= i && Served(handler, issued, log0, reserve0, kills0, log, reserve, kills, i)
        decreases n - i
      {
        NotCaughtUp(handler, issued, log0, reserve0, log, reserve, i, n);
        var found := ServeAt(i, handler, log0, reserve0, kills0);
        count := if found then count + 1 else count;
        i := i + 1;
      }
    }

    /** The waiting records, and those that are reserved meanwhile, are served in order. */
    method DispatchReserve(handler: Handler) returns (count: nat, ghost queue: seq<Record>)
      requires Valid() && Ends(handler, issued, log, reserve)
      modifies this`jobs, this`kills, this`reserve, this`log
      ensures Valid() && reserve == [] && count == |Gots(log)| - |Gots(old(log))|
      ensures old(log) <= log && Within(jobs, old(jobs))
      ensures Collected(handler, log, |old(log)|, old(reserve), old(kills), queue, kills)
      ensures log == Serve(handler, issued, old(log), queue)
    {
      ghost var n: nat :| CaughtUp(handler, issued, log, reserve, n);
      count := ServeAll(handler, n, log, reserve, kills);
      ServedAll(handler, issued, old(log), old(reserve), old(kills), log, reserve, kills, |reserve|);
      queue := reserve;
      reserve := [];
    }

    /** One turn of the loop of checkTimeout. */
    method AgeNext(k: key, age: int, timeout: int, handler: Handler, ghost mid: nat)
      returns (late: bool, ghost records: seq<Record>, ghost marks: set<key>)
      requires Valid() && k in jobs && mid <= |log|
      requires forall i :: mid <= i < |log| ==> log[i].k != k
      modifies this`jobs, this`kills, this`reserve, this`log
      ensures Valid() && old(log) <= log && late == (age > timeout)
      ensures Timeouts(log) == Timeouts(old(log)) + if late then 1 else 0
      ensures Within(jobs, old(jobs))
      ensures SameBut(old(jobs.Keys), jobs.Keys, k)
      ensures EventsIn(log, |old(log)|, {k})
      ensures Swept(handler, log, jobs.Keys, k, age, timeout, mid)
      ensures reserve == old(reserve) + records && kills == old(kills) + marks
      ensures ReservedIn(handler, log, mid) == ReservedIn(handler, old(log), mid) + records
      ensures MarkedIn(handler, log, mid) == MarkedIn(handler, old(log), mid) + marks
    {
      late, records, marks := age > timeout, [], {};
      if late {
        var e := TimedOut(k, age);
        ToldIn(handler, log, e, mid);
        ToldCounts(handler, log, e);
        records, marks := handler(log + [e]).records, handler(log + [e]).kills;
        SweptNow(handler, log, jobs.Keys, k, age, timeout, mid);
        Tell(e, handler);
      }
    }

    /** The turn for one of the jobs still ahead, on top of all turns before. */
    method AgeTurn(k: key, now: int, timeout: int, handler: Handler, ghost starts: map<key, int>, ghost mid: nat,
                   ghost todo: set<key>, ghost reserve0: seq<Record>, ghost kills0: set<key>)
      returns (late: bool)
      requires Valid() && k in todo && Within(jobs, starts)
      requires Sweeping(handler, log, jobs.Keys, starts, now, timeout, mid, todo)
      requires Collected(handler, log, mid, reserve0, kills0, reserve, kills)
      modifies this`jobs, this`kills, this`reserve, this`log
      ensures Valid() && old(log) <= log && Within(jobs, starts)
      ensures Timeouts(log) == Timeouts(old(log)) + if late then 1 else 0
      ensures Sweeping(handler, log, jobs.Keys, starts, now, timeout, mid, todo - {k})
      ensures Collected(handler, log, mid, reserve0, kills0, reserve, kills)
    {
      var age := now - jobs[k];
      ghost var records, marks;
      late, records, marks := AgeNext(k, age, timeout, handler, mid);
      CollectMore(handler, old(log), log, mid, reserve0, kills0, old(reserve), old(kills), records, marks);
      SweepingStep(handler, old(log), log, old(jobs.Keys), jobs.Keys, starts, now, timeout, mid, todo, k, age);
    }

    /** The over-age jobs are told so, once each, in whatever order the table yields them. */
    method CheckAges(now: int, timeout: int, handler: Handler) returns (count: nat)
      requires Valid()
      modifies this`jobs, this`kills, this`reserve, this`log
      ensures Valid() && old(log) <= log && Within(jobs, old(jobs))
      ensures count == Timeouts(log) - Timeouts(old(log))
      ensures Sweeping(handler, log, jobs.Keys, old(jobs), now, timeout, |old(log)|, {})
      ensures Collected(handler, log, |old(log)|, old(reserve), old(kills), reserve, kills)
    {
      count := 0;
      var todo := jobs.Keys;
      while todo != {}
        invariant Valid() && old(log) <= log && Within(jobs, old(jobs))
        invariant count == Timeouts(log) - Timeouts(old(log))
        invariant Sweeping(handler, log, jobs.Keys, old(jobs), now, timeout, |old(log)|, todo)
        invariant Collected(handler, log, |old(log)|, old(reserve), old(kills), reserve, kills)
        decreases todo
      {
        var k :| k in todo;
        var late := AgeTurn(k, now, timeout, handler, old(jobs), |old(log)|, todo, old(reserve), old(kills));
        count := if late then count + 1 else count;
        todo := todo - {k};
      }
    }

    /** The first phase of checkTimeout. */
    method KillPhase(handler: Handler)
      requires Valid()
      requires forall l :: Killed(log, kills * jobs.Keys, l) ==> Ends(handler, issued, l, reserve)
      modifies this`jobs, this`kills, this`log
      ensures Valid() && Ends(handler, issued, log, reserve) && old(log) <= log && kills == {}
      ensures jobs == old(jobs) - old(kills)
      ensures forall i :: |old(log)| <= i < |log| ==> log[i].Freed? && log[i].k in old(kills)
      ensures forall k :: k in old(kills) && k in issued ==> Freed(k) in log
    {
      var freed := DispatchKill();
    }

    /** The first two phases. */
    method ServePhase(handler: Handler) returns (ghost killed: seq<Event>, ghost queue: seq<Record>)
      requires Valid()
      requires forall l :: Killed(log, kills * jobs.Keys, l) ==> Ends(handler, issued, l, reserve)
      modifies this`jobs, this`kills, this`reserve, this`log
      ensures Valid() && old(log) <= killed <= log && reserve == []
      ensures forall i :: |old(log)| <= i < |killed| ==> killed[i].Freed? && killed[i].k in old(kills)
      ensures forall k :: k in old(kills) && k in issued ==> Freed(k) in killed
      ensures log == Serve(handler, issued, killed, queue)
      ensures queue == old(reserve) + ReservedIn(handler, log, |killed|)
      ensures kills == MarkedIn(handler, log, |killed|)
      ensures Within(jobs, old(jobs)) && forall k :: k in jobs <==> k in old(jobs) && Freed(k) !in log
    {
      KillPhase(handler);
      killed := log;
      ghost var left := jobs;
      var deliveries;
      deliveries, queue := DispatchReserve(handler);
      assert Within(left, old(jobs));
    }

    /** checkTimeout: the marked jobs go, with no further event; the waiting records are served;
        then the jobs that are too old are told. What the jobs reserve while records are served
        is served too; what they reserve later, and all their marks, wait for the next call. */
    method CheckTimeout(now: int, timeout: int, handler: Handler)
      returns (count: nat, ghost killed: seq<Event>, ghost served: seq<Event>, ghost queue: seq<Record>,
               ghost starts: map<key, int>)
      requires Valid()
      requires forall l :: Killed(log, kills * jobs.Keys, l) ==> Ends(handler, issued, l, reserve)
      modifies this`jobs, this`kills, this`reserve, this`log
      ensures Valid() && old(log) <= killed <= served <= log
      ensures forall k :: k in old(kills) ==> k !in jobs
      ensures forall i :: |old(log)| <= i < |killed| ==> log[i].Freed? && log[i].k in old(kills)
      ensures forall i :: |killed| <= i < |log| ==> log[i].k !in old(kills)
      ensures served == Serve(handler, issued, killed, queue)
      ensures queue == old(reserve) + ReservedIn(handler, served, |killed|)
      ensures Within(starts, old(jobs)) && Within(jobs, starts)
      ensures forall k :: k in starts <==> k in old(jobs) && Freed(k) !in served
      ensures Sweeping(handler, log, jobs.Keys, starts, now, timeout, |served|, {})
      ensures count == Timeouts(log) - Timeouts(served)
      ensures reserve == ReservedIn(handler, log, |served|)
      ensures kills == MarkedIn(handler, served, |killed|) + MarkedIn(handler, log, |served|)
    {
      killed, queue := ServePhase(handler);
      served, starts := log, jobs;
      count := CheckAges(now, timeout, handler);
      GoneAreSilent(killed, log, issued, old(kills));
    }
  }
}
