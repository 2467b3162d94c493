/** The timer (pw_timer): a two-level map of entries, and the sweep that handlers may change. */
module Timer {
  import opened Orders
  import opened TimerSpec

  /** An iterator over a map with integer keys: the key it stands at, or the end. */
  datatype At<+K> = End | At(key: K)

  /** std::map::lower_bound: the least client that is not less than `from`. */
  function LowerBound(keys: set<addr>, from: addr): (r: At<addr>)
    ensures r.At? ==> r.key in keys && from <= r.key
    ensures r.At? ==> forall k :: k in keys && from <= k ==> r.key <= k
    ensures r.End? ==> forall k :: k in keys ==> k < from
  {
    var later := set k | k in keys && from <= k;
    assert forall k :: k in keys && from <= k ==> k in later;
    LeastClient(later)
  }

  /** The client after `k`. */
  function NextClient(keys: set<addr>, k: addr): (r: At<addr>)
    ensures r.At? ==> r.key in keys && k < r.key
    ensures r.At? ==> forall j :: j in keys && k < j ==> r.key <= j
    ensures r.End? ==> forall j :: j in keys ==> j <= k
  {
    var later := set j | j in keys && k < j;
    assert forall j :: j in keys && k < j ==> j in later;
    LeastClient(later)
  }

  predicate ClientLe(a: addr, b: addr) { a <= b }

  function LeastClient(s: set<addr>): (r: At<addr>)
    ensures r.At? ==> r.key in s && forall k :: k in s ==> r.key <= k
    ensures r.End? ==> forall k :: k !in s
  {
    if s == {} then End
    else
      LeastExists(ClientLe, s);
      var m :| m in s && IsLeast(ClientLe, m, s);
      assert forall k :: k in s ==> ClientLe(m, k);
      At(m)
  }

  /** The event after those with ids up to `i`. */
  function NextEvent(keys: set<eid>, i: eid): (r: At<eid>)
    ensures r.At? ==> r.key in keys && i < r.key
    ensures r.At? ==> forall j :: j in keys && i < j ==> r.key <= j
    ensures r.End? ==> forall j :: j in keys ==> j <= i
  {
    var later := set j | j in keys && i < j;
    assert forall j :: j in keys && i < j ==> j in later;
    LeastEvent(later)
  }

  predicate EventLe(a: eid, b: eid) { a <= b }

  function LeastEvent(s: set<eid>): (r: At<eid>)
    ensures r.At? ==> r.key in s && forall k :: k in s ==> r.key <= k
    ensures r.End? ==> forall k :: k !in s
  {
    if s == {} then End
    else
      LeastExists(EventLe, s);
      var m :| m in s && IsLeast(EventLe, m, s);
      assert forall k :: k in s ==> EventLe(m, k);
      At(m)
  }

  class Timer {
    var clients: Clients
    var lastCheck: int
    var invalid: bool

    constructor (now: int)
      ensures clients == map[] && lastCheck == now && !invalid
    {
      clients, lastCheck, invalid := map[], now, false;
    }

    method Clear()
      modifies this`clients, this`invalid
      ensures clients == Apply(old(clients), Action.Clear) && invalid
    {
      clients := map[];
      invalid := true;
    }

    /** add: true always, since both insertions follow a failed find. The flag is raised unless
        the entry was there already. */
    method Add(c: addr, i: eid, cycle: int, param: int, clock: int) returns (ok: bool)
      modifies this`clients, this`invalid
      ensures ok && clients == Apply(old(clients), Action.Add(c, i, cycle, param, clock))
      ensures invalid == (old(invalid) || c !in old(clients) || i !in old(clients)[c])
    {
      if c !in clients {
        clients := clients[c := map[]];
        invalid := true;
        clients := clients[c := clients[c][i := Entry(param, cycle, clock)]];
        assert clients == AddTo(old(clients), c, i, Entry(param, cycle, clock));
        return true;
      }
      if i !in clients[c] {
        clients := clients[c := clients[c][i := Entry(param, cycle, clock)]];
        invalid := true;
        return true;
      }
      clients := clients[c := clients[c][i := Entry(param, cycle, clock)]];
      return true;
    }

    method Remove(c: addr, i: eid)
      modifies this`clients, this`invalid
      ensures clients == Apply(old(clients), Action.Remove(c, i))
      ensures invalid == (old(invalid) || (c in old(clients) && i in old(clients)[c]))
    {
      if c !in clients || i !in clients[c] {
        return;
      }
      clients := clients[c := clients[c] - {i}];
      if clients[c] == map[] {
        clients := clients - {c};
        assert clients == old(clients) - {c};
      }
      invalid := true;
    }

    /** One call of a handler. Unless it raises the flag, no key comes or goes. */
    method Do(a: Action)
      modifies this`clients, this`invalid
      ensures clients == Apply(old(clients), a)
      ensures old(invalid) ==> invalid
      ensures !invalid ==> SameKeys(old(clients), clients)
    {
      match a {
        case Add(c, i, cycle, param, clock) =>
          var _ := Add(c, i, cycle, param, clock);
        case Remove(c, i) =>
          Remove(c, i);
        case Clear =>
          Clear();
        case Touch =>
          invalid := true;
      }
    }

    /** All the calls of a handler. */
    method Handle(now: int, acts: seq<Action>, ghost h: History, ghost start: Clients)
      requires GoodCycles(start) && Legal(start, now, h) && clients == Replay(start, now, h)
      requires forall k :: 0 <= k < |acts| ==> GoodAction(now, acts[k])
      modifies this`clients, this`invalid
      ensures Legal(start, now, h + DidAll(acts))
      ensures clients == Replay(start, now, h + DidAll(acts))
      ensures old(invalid) ==> invalid
      ensures !invalid ==> SameKeys(old(clients), clients)
    {
      var k := 0;
      assert h + DidAll(acts[..0]) == h;
      while k < |acts|
        invariant 0 <= k <= |acts|
        invariant Legal(start, now, h + DidAll(acts[..k]))
        invariant clients == Replay(start, now, h + DidAll(acts[..k]))
        invariant old(invalid) ==> invalid
        invariant !invalid ==> SameKeys(old(clients), clients)
      {
        ghost var done := h + DidAll(acts[..k]);
        DidMore(h, acts, k);
        Do(acts[k]);
        LegalSnoc(start, now, done, Did(acts[k]));
        k := k + 1;
      }
      assert acts[..k] == acts;
    }

    /** A due entry is restarted and its client's handler runs. Of the due entries at least this
        one is gone then, and none has come. */
    method Trigger(now: int, handler: Handler, fires: seq<Fire>, f: Fire, ghost start: Clients)
      requires GoodCycles(start) && GoodHandler(now, handler) && !invalid
      requires Legal(start, now, Script(handler, fires))
      requires clients == Replay(start, now, Script(handler, fires)) && Hits(clients, now, f)
      modifies this`clients, this`invalid
      ensures Legal(start, now, Script(handler, fires + [f]))
      ensures clients == Replay(start, now, Script(handler, fires + [f]))
      ensures !invalid ==> SameKeys(old(clients), clients)
      ensures forall d :: IsDue(now, clients, d) ==>
                IsDue(now, old(clients), d) && d != (f.client, f.id)
      ensures DueSet(now, clients) < DueSet(now, old(clients))
    {
      var before := Script(handler, fires);
      var h := before + [Fired(f)];
      clients := Restart(clients, now, f);
      LegalSnoc(start, now, before, Fired(f));
      assert (fires + [f])[..|fires|] == fires;
      assert Script(handler, fires + [f]) == h + DidAll(handler(h));
      Handle(now, handler(h), h, start);
      ghost var all := Script(handler, fires + [f]);
      forall d | IsDue(now, clients, d)
        ensures IsDue(now, old(clients), d) && d != (f.client, f.id)
      {
        DueAfterFire(start, now, before, all, f, d);
      }
      FewerDue(now, old(clients), clients, (f.client, f.id));
    }

    /** The inner loop: the events of one client, until a handler has raised the flag. */
    method SweepClient(now: int, handler: Handler, last: addr, fires: seq<Fire>, ghost start: Clients)
      returns (fires': seq<Fire>, restart: bool)
      requires GoodCycles(start) && GoodHandler(now, handler) && !invalid && last in clients
      requires Legal(start, now, Script(handler, fires))
      requires clients == Replay(start, now, Script(handler, fires))
      requires forall d :: IsDue(now, clients, d) ==> last <= d.0
      modifies this`clients, this`invalid
      ensures !invalid
      ensures Legal(start, now, Script(handler, fires'))
      ensures clients == Replay(start, now, Script(handler, fires'))
      ensures restart ==> DueSet(now, clients) < DueSet(now, old(clients))
      ensures restart ==> forall d :: IsDue(now, clients, d) ==> last <= d.0
      ensures !restart ==> clients.Keys == old(clients).Keys
      ensures !restart ==> DueSet(now, clients) <= DueSet(now, old(clients))
      ensures !restart ==> forall d :: IsDue(now, clients, d) ==> last < d.0
    {
      fires' := fires;
      restart := false;
      var ibEvent := LeastEvent(clients[last].Keys);
      while ibEvent.At?
        invariant !invalid
        invariant Legal(start, now, Script(handler, fires'))
        invariant clients == Replay(start, now, Script(handler, fires'))
        invariant clients.Keys == old(clients).Keys
        invariant ibEvent.At? ==> ibEvent.key in clients[last]
        invariant DueSet(now, clients) <= DueSet(now, old(clients))
        invariant forall d :: IsDue(now, clients, d) ==>
                    last < d.0 || (d.0 == last && ibEvent.At? && ibEvent.key <= d.1)
        decreases EventsAhead(clients[last].Keys, ibEvent)
      {
        ghost var here, keys, before := ibEvent, clients[last].Keys, clients;
        var i := ibEvent.key;
        var e := clients[last][i];
        if now - (e.start + e.cycle) >= 1000 {
          var fire := Fire(last, i, e.param);
          Trigger(now, handler, fires', fire, start);
          fires' := fires' + [fire];
        }
        if invalid {
          assert DueSet(now, clients) < DueSet(now, before);
          invalid := false;
          return fires', true;
        }
        assert clients[last].Keys == keys;
        ibEvent := NextEvent(clients[last].Keys, i);
        FewerEvents(keys, here, ibEvent);
        Passed(now, before, clients, last, i, ibEvent);
      }
    }

    /** The sweep. Whatever the handlers do, it ends; every firing hits a due entry, in the
        history of firings and handler calls that it goes through, and at the end nothing is
        due any more. `SweepTheorem` says what that means for each entry. */
    method Check(now: int, handler: Handler) returns (ret: nat, fires: seq<Fire>)
      requires GoodCycles(clients) && GoodHandler(now, handler)
      modifies this
      ensures ret == |fires|
      ensures Legal(old(clients), now, Script(handler, fires))
      ensures clients == Replay(old(clients), now, Script(handler, fires))
      ensures now - old(lastCheck) < 100 ==>
                fires == [] && lastCheck == old(lastCheck) && invalid == old(invalid)
      ensures now - old(lastCheck) >= 100 ==> lastCheck == now && NoneDue(now, clients)
      ensures now - old(lastCheck) >= 100 ==> OnTime(old(clients), now, Script(handler, fires))
    {
      ret, fires := 0, [];
      if now - lastCheck < 100 {
        return;
      }
      lastCheck := now;
      ghost var start := clients;
      var ib := LeastClient(clients.Keys);
      invalid := false;
      while ib.At?
        invariant !invalid && lastCheck == now
        invariant Legal(start, now, Script(handler, fires))
        invariant clients == Replay(start, now, Script(handler, fires))
        invariant ib.At? ==> ib.key in clients
        invariant forall d :: IsDue(now, clients, d) ==> ib.At? && ib.key <= d.0
        decreases DueSet(now, clients), ClientsAhead(clients.Keys, ib)
      {
        ghost var here := ib;
        var last, restart := ib.key, false;
        ib := NextClient(clients.Keys, last);
        FewerClients(clients.Keys, here, ib);
        fires, restart := SweepClient(now, handler, last, fires, start);
        if restart {
          ib := LowerBound(clients.Keys, last);
        }
      }
      ret := |fires|;
      SweepOnTime(start, now, Script(handler, fires));
    }
  }

  lemma DidMore(h: History, acts: seq<Action>, k: nat)
    requires k < |acts|
    ensures h + DidAll(acts[..k]) + [Did(acts[k])] == h + DidAll(acts[..k + 1])
  {
  }

  ghost predicate SameKeys(a: Clients, b: Clients) {
    a.Keys == b.Keys && forall c :: c in a ==> a[c].Keys == b[c].Keys
  }

  /** What is due after a firing, and all that followed it, was due before and is another entry. */
  lemma DueAfterFire(start: Clients, now: int, before: History, all: History, f: Fire, d: Key)
    requires GoodCycles(start) && Legal(start, now, before) && Legal(start, now, all)
    requires before + [Fired(f)] <= all && IsDue(now, Replay(start, now, all), d)
    ensures IsDue(now, Replay(start, now, before), d) && d != (f.client, f.id)
  {
    DueAt(start, now, before, d);
    DueAt(start, now, all, d);
    assert all[|before|] == Fired(f);
    assert forall j :: 0 <= j < |before| ==> all[j] == before[j];
  }

  /** The keys an iterator has still to visit. */
  ghost function ClientsAhead(keys: set<addr>, at: At<addr>): set<addr> {
    set k | k in keys && at.At? && at.key <= k
  }

  ghost function EventsAhead(keys: set<eid>, at: At<eid>): set<eid> {
    set k | k in keys && at.At? && at.key <= k
  }

  /** Once (last, i) is not due any more, what is due lies at the next event or beyond. */
  lemma Passed(now: int, a: Clients, b: Clients, last: addr, i: eid, next: At<eid>)
    requires last in b && next == NextEvent(b[last].Keys, i)
    requires forall d :: IsDue(now, b, d) ==> IsDue(now, a, d) && d != (last, i)
    requires forall d :: IsDue(now, a, d) ==> last < d.0 || (d.0 == last && i <= d.1)
    ensures forall d :: IsDue(now, b, d) ==>
              last < d.0 || (d.0 == last && next.At? && next.key <= d.1)
  {
    forall d | IsDue(now, b, d)
      ensures last < d.0 || (d.0 == last && next.At? && next.key <= d.1)
    {
      if d.0 == last {
        assert i < d.1 && d.1 in b[last].Keys;
      }
    }
  }

  lemma FewerDue(now: int, a: Clients, b: Clients, d: Key)
    requires IsDue(now, a, d) && !IsDue(now, b, d)
    requires forall x :: IsDue(now, b, x) ==> IsDue(now, a, x)
    ensures DueSet(now, b) < DueSet(now, a)
  {
    assert d in DueSet(now, a) && d !in DueSet(now, b);
    forall x | x in DueSet(now, b) ensures x in DueSet(now, a) {
      assert IsDue(now, b, (x.0, x.1));
    }
  }

  lemma FewerClients(keys: set<addr>, at: At<addr>, next: At<addr>)
    requires at.At? && at.key in keys && (next.At? ==> at.key < next.key)
    ensures ClientsAhead(keys, next) < ClientsAhead(keys, at)
  {
    assert at.key in ClientsAhead(keys, at) && at.key !in ClientsAhead(keys, next);
    forall k | k in ClientsAhead(keys, next) ensures k in ClientsAhead(keys, at) {
    }
  }

  lemma FewerEvents(keys: set<eid>, at: At<eid>, next: At<eid>)
    requires at.At? && at.key in keys && (next.At? ==> at.key < next.key)
    ensures EventsAhead(keys, next) < EventsAhead(keys, at)
  {
    assert at.key in EventsAhead(keys, at) && at.key !in EventsAhead(keys, next);
    forall k | k in EventsAhead(keys, next) ensures k in EventsAhead(keys, at) {
    }
  }
}
