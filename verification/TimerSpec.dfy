/** What a sweep of the timer may do: entries, handler actions, histories (pw_timer). */
module TimerSpec {
  import opened Bytes

  /** The address of a client (intptr_t) and the id of one of its events (int). */
  newtype addr = x: int | -0x8000_0000_0000_0000 <= x < 0x8000_0000_0000_0000
  newtype eid = x: int | -0x8000_0000 <= x < 0x8000_0000

  /** cycle and start are milliseconds. */
  datatype Entry = Entry(param: int, cycle: int, start: int)

  type Events = map<eid, Entry>
  type Clients = map<addr, Events>

  type Key = (addr, eid)

  /** What a handler may call while it runs: add (with the clock it reads), remove, clear, or
      the construction or destruction of some other Event, which only raises the flag. */
  datatype Action =
    | Add(client: addr, id: eid, cycle: int, param: int, clock: int)
    | Remove(client: addr, id: eid)
    | Clear
    | Touch

  datatype Fire = Fire(client: addr, id: eid, param: int)

  datatype Happening = Fired(f: Fire) | Did(a: Action)

  type History = seq<Happening>

  /** The handlers of all clients together: what they do may depend on everything so far. */
  type Handler = History -> seq<Action>

  predicate Due(now: int, e: Entry) {
    now - (e.start + e.cycle) >= 1000
  }

  predicate IsDue(now: int, cl: Clients, d: Key) {
    d.0 in cl && d.1 in cl[d.0] && Due(now, cl[d.0][d.1])
  }

  ghost predicate NoneDue(now: int, cl: Clients) {
    forall d: Key :: !IsDue(now, cl, d)
  }

  function DueSet(now: int, cl: Clients): (r: set<Key>)
    ensures forall c, i :: (c, i) in r <==> IsDue(now, cl, (c, i))
  {
    set c, i | c in cl && i in cl[c] && Due(now, cl[c][i]) :: (c, i)
  }

  function AddTo(cl: Clients, c: addr, i: eid, e: Entry): Clients {
    cl[c := (if c in cl then cl[c] else map[])[i := e]]
  }

  function RemoveFrom(cl: Clients, c: addr, i: eid): Clients {
    if c !in cl || i !in cl[c] then cl
    else if cl[c] - {i} == map[] then cl - {c}
    else cl[c := cl[c] - {i}]
  }

  function Apply(cl: Clients, a: Action): Clients {
    match a
    case Add(c, i, cycle, param, clock) => AddTo(cl, c, i, Entry(param, cycle, clock))
    case Remove(c, i) => RemoveFrom(cl, c, i)
    case Clear => map[]
    case Touch => cl
  }

  /** Firing restarts the entry. */
  function Restart(cl: Clients, now: int, f: Fire): Clients {
    if f.client in cl && f.id in cl[f.client] then
      AddTo(cl, f.client, f.id, cl[f.client][f.id].(start := now))
    else cl
  }

  function After(cl: Clients, now: int, h: Happening): Clients {
    match h
    case Fired(f) => Restart(cl, now, f)
    case Did(a) => Apply(cl, a)
  }

  function Replay(cl: Clients, now: int, h: History): Clients {
    if h == [] then cl else After(Replay(cl, now, h[..|h| - 1]), now, h[|h| - 1])
  }

  function DidAll(acts: seq<Action>): History {
    seq(|acts|, k requires 0 <= k < |acts| => Did(acts[k]))
  }

  /** The history of a sweep that fires `fires`, each followed by what the handlers then do. */
  function Script(handler: Handler, fires: seq<Fire>): History {
    if fires == [] then []
    else
      var h := Script(handler, fires[..|fires| - 1]) + [Fired(fires[|fires| - 1])];
      h + DidAll(handler(h))
  }

  /** An entry whose cycle is -1000 ms or less would still be due right after it has fired. */
  const MIN_CYCLE: int := -999

  ghost predicate GoodCycles(cl: Clients) {
    forall c, i :: c in cl && i in cl[c] ==> cl[c][i].cycle >= MIN_CYCLE
  }

  /** The clock does not run backwards. */
  predicate GoodAction(now: int, a: Action) {
    a.Add? ==> a.cycle >= MIN_CYCLE && now <= a.clock
  }

  ghost predicate GoodHandler(now: int, handler: Handler) {
    forall h, k :: 0 <= k < |handler(h)| ==> GoodAction(now, handler(h)[k])
  }

  /** `f` hits an entry that is there, is due, and carries this parameter. */
  predicate Hits(cl: Clients, now: int, f: Fire) {
    f.client in cl && f.id in cl[f.client] && Due(now, cl[f.client][f.id]) &&
    cl[f.client][f.id].param == f.param
  }

  predicate LegalNext(cl: Clients, now: int, h: Happening) {
    match h
    case Fired(f) => Hits(cl, now, f)
    case Did(a) => GoodAction(now, a)
  }

  /** Every firing of `h` hits a due entry. */
  predicate Legal(cl: Clients, now: int, h: History) {
    h == [] ||
    (Legal(cl, now, h[..|h| - 1]) &&
     LegalNext(Replay(cl, now, h[..|h| - 1]), now, h[|h| - 1]))
  }

  // ---------------------------------------------------------------- what follows

  /** The boundary: a restarted entry is due again at once exactly when its cycle is too low. */
  lemma RestartedIsDue(now: int, e: Entry)
    ensures Due(now, e.(start := now)) <==> e.cycle < MIN_CYCLE
  {
  }

  predicate Touches(a: Action, d: Key) {
    match a
    case Add(c, i, _, _, _) => (c, i) == d
    case Remove(c, i) => (c, i) == d
    case Clear => true
    case Touch => false
  }

  predicate Concerns(h: Happening, d: Key) {
    match h
    case Fired(f) => (f.client, f.id) == d
    case Did(a) => Touches(a, d)
  }

  predicate IsFire(h: Happening, d: Key) {
    h.Fired? && (h.f.client, h.f.id) == d
  }

  /** The first happening that concerns `d`. */
  function FirstConcern(h: History, d: Key): (k: nat)
    ensures k <= |h|
    ensures k < |h| ==> Concerns(h[k], d)
    ensures forall j :: 0 <= j < k ==> !Concerns(h[j], d)
  {
    if h == [] then 0
    else
      var k := FirstConcern(h[..|h| - 1], d);
      if k < |h| - 1 then k else if Concerns(h[|h| - 1], d) then k else |h|
  }

  function FireCount(h: History, d: Key): nat {
    if h == [] then 0
    else FireCount(h[..|h| - 1], d) + if IsFire(h[|h| - 1], d) then 1 else 0
  }

  lemma AddToDue(now: int, cl: Clients, c: addr, i: eid, e: Entry, d: Key)
    requires !Due(now, e)
    ensures IsDue(now, AddTo(cl, c, i, e), d) <==> IsDue(now, cl, d) && d != (c, i)
  {
  }

  lemma OnlyOne(events: Events, i: eid)
    requires events - {i} == map[]
    ensures forall j :: j in events ==> j == i
  {
    forall j | j in events ensures j == i {
      assert j != i ==> j in events - {i};
    }
  }

  lemma RemoveFromDue(now: int, cl: Clients, c: addr, i: eid, d: Key)
    ensures IsDue(now, RemoveFrom(cl, c, i), d) <==> IsDue(now, cl, d) && d != (c, i)
  {
    if c in cl && cl[c] - {i} == map[] {
      OnlyOne(cl[c], i);
    }
  }

  lemma RestartDue(cl: Clients, now: int, f: Fire, d: Key)
    requires GoodCycles(cl) && Hits(cl, now, f)
    ensures IsDue(now, Restart(cl, now, f), d) <==> IsDue(now, cl, d) && d != (f.client, f.id)
  {
    AddToDue(now, cl, f.client, f.id, cl[f.client][f.id].(start := now), d);
  }

  /** Nothing a handler does makes an entry due, and only touching or firing undoes it. */
  lemma {:induction false} DueAfter(cl: Clients, now: int, h: Happening, d: Key)
    requires GoodCycles(cl) && LegalNext(cl, now, h)
    ensures IsDue(now, After(cl, now, h), d) <==> IsDue(now, cl, d) && !Concerns(h, d)
  {
    match h
    case Fired(f) => RestartDue(cl, now, f, d);
    case Did(Add(c, i, cycle, param, clock)) =>
      assert !Due(now, Entry(param, cycle, clock));
      AddToDue(now, cl, c, i, Entry(param, cycle, clock), d);
    case Did(Remove(c, i)) => RemoveFromDue(now, cl, c, i, d);
    case Did(Clear) =>
    case Did(Touch) =>
  }

  lemma {:induction false} CyclesAfter(cl: Clients, now: int, h: Happening)
    requires GoodCycles(cl) && LegalNext(cl, now, h)
    ensures GoodCycles(After(cl, now, h))
  {
  }

  /** An entry is due at some point of a sweep exactly when it was due at the start and nothing
      has concerned it since. */
  lemma {:induction false} DueAt(cl: Clients, now: int, h: History, d: Key)
    requires GoodCycles(cl) && Legal(cl, now, h)
    ensures IsDue(now, Replay(cl, now, h), d) <==>
            IsDue(now, cl, d) && FirstConcern(h, d) == |h|
    decreases |h|
  {
    if h != [] {
      var before := h[..|h| - 1];
      DueAt(cl, now, before, d);
      CyclesStayGood(cl, now, before);
      DueAfter(Replay(cl, now, before), now, h[|h| - 1], d);
    }
  }

  lemma {:induction false} CyclesStayGood(cl: Clients, now: int, h: History)
    requires GoodCycles(cl) && Legal(cl, now, h)
    ensures GoodCycles(Replay(cl, now, h))
    decreases |h|
  {
    if h != [] {
      var before := h[..|h| - 1];
      CyclesStayGood(cl, now, before);
      CyclesAfter(Replay(cl, now, before), now, h[|h| - 1]);
    }
  }

  lemma {:induction false} LegalSnoc(cl: Clients, now: int, h: History, x: Happening)
    requires Legal(cl, now, h) && LegalNext(Replay(cl, now, h), now, x)
    ensures Legal(cl, now, h + [x])
    ensures Replay(cl, now, h + [x]) == After(Replay(cl, now, h), now, x)
  {
    assert (h + [x])[..|h|] == h;
  }

  lemma {:induction false} FireIsDue(cl: Clients, now: int, h: History, d: Key)
    requires GoodCycles(cl) && Legal(cl, now, h) && h != []
    ensures IsFire(h[|h| - 1], d) ==> IsDue(now, cl, d) && FirstConcern(h[..|h| - 1], d) == |h| - 1
  {
    var before, last := h[..|h| - 1], h[|h| - 1];
    DueAt(cl, now, before, d);
  }

  /** How often `d` fires in `h` if only a due entry that nothing has concerned ever fires. */
  function ExpectedFires(h: History, d: Key, due: bool): nat {
    var k := FirstConcern(h, d);
    if due && k < |h| && IsFire(h[k], d) then 1 else 0
  }

  lemma {:induction false} OneMore(h: History, d: Key, due: bool)
    requires h != []
    requires FireCount(h[..|h| - 1], d) == ExpectedFires(h[..|h| - 1], d, due)
    requires IsFire(h[|h| - 1], d) ==> due && FirstConcern(h[..|h| - 1], d) == |h| - 1
    ensures FireCount(h, d) == ExpectedFires(h, d, due)
  {
    var k := FirstConcern(h[..|h| - 1], d);
    if k < |h| - 1 {
      assert FirstConcern(h, d) == k && h[..|h| - 1][k] == h[k];
    }
  }

  /** Over any legal history: an entry fires at most once, only if it was due at the start and
      firing is the first thing that happens to it. */
  lemma {:induction false} FiresOnce(cl: Clients, now: int, h: History, d: Key)
    requires GoodCycles(cl) && Legal(cl, now, h)
    ensures FireCount(h, d) == ExpectedFires(h, d, IsDue(now, cl, d))
    decreases |h|
  {
    if h != [] {
      FiresOnce(cl, now, h[..|h| - 1], d);
      FireIsDue(cl, now, h, d);
      var due := IsDue(now, cl, d);
      OneMore(h, d, due);
    }
  }

  /** The sweep theorem. When a sweep has left nothing due, every entry that was due at the
      start either fired, exactly once, before any handler touched it, or was touched before it
      was reached and did not fire; no other entry fired at all. */
  lemma SweepTheorem(cl: Clients, now: int, h: History, d: Key)
    requires GoodCycles(cl) && Legal(cl, now, h) && NoneDue(now, Replay(cl, now, h))
    ensures var k := FirstConcern(h, d);
            if !IsDue(now, cl, d) then FireCount(h, d) == 0
            else k < |h| && FireCount(h, d) == if IsFire(h[k], d) then 1 else 0
  {
    DueAt(cl, now, h, d);
    FiresOnce(cl, now, h, d);
  }

  // ---------------------------------------------------------------- in plain arithmetic

  /** The entry that is there. */
  function Lookup(cl: Clients, d: Key): Option<Entry> {
    if d.0 in cl && d.1 in cl[d.0] then Some(cl[d.0][d.1]) else None
  }

  /** What the calls of a handler do to each entry, and to no other. */
  lemma ApplyLookup(cl: Clients, a: Action, d: Key)
    ensures Lookup(Apply(cl, a), d) ==
            match a
            case Add(c, i, cycle, param, clock) =>
              if d == (c, i) then Some(Entry(param, cycle, clock)) else Lookup(cl, d)
            case Remove(c, i) => if d == (c, i) then None else Lookup(cl, d)
            case Clear => None
            case Touch => Lookup(cl, d)
  {
    match a
    case Remove(c, i) =>
      if c in cl && cl[c] - {i} == map[] {
        OnlyOne(cl[c], i);
      }
    case _ =>
  }

  /** A firing sets the start of its entry to now, and changes nothing else. */
  lemma RestartLookup(cl: Clients, now: int, f: Fire, d: Key)
    ensures Lookup(Restart(cl, now, f), d) ==
            match Lookup(cl, d)
            case None => None
            case Some(e) => if d == (f.client, f.id) then Some(Entry(e.param, e.cycle, now)) else Some(e)
  {
  }

  ghost predicate NoEmptyClients(cl: Clients) {
    forall c :: c in cl ==> cl[c] != map[]
  }

  /** A client goes with its last entry. */
  lemma NoEmptyStays(cl: Clients, now: int, h: Happening)
    requires NoEmptyClients(cl)
    ensures NoEmptyClients(After(cl, now, h))
  {
    match h
    case Fired(f) =>
      if f.client in cl && f.id in cl[f.client] {
        AddNotEmpty(cl, f.client, f.id, cl[f.client][f.id].(start := now));
      }
    case Did(Add(c, i, cycle, param, clock)) => AddNotEmpty(cl, c, i, Entry(param, cycle, clock));
    case Did(_) =>
  }

  lemma AddNotEmpty(cl: Clients, c: addr, i: eid, e: Entry)
    requires NoEmptyClients(cl)
    ensures NoEmptyClients(AddTo(cl, c, i, e))
  {
    var next := AddTo(cl, c, i, e);
    assert i in next[c];
  }

  lemma {:induction false} DueIs(now: int, cl: Clients, d: Key)
    ensures IsDue(now, cl, d) <==>
            match Lookup(cl, d)
            case None => false
            case Some(e) => now - e.start - e.cycle >= 1000
  {
  }

  /** An entry that was added is due a second after its cycle has passed since, and not before. */
  lemma AddedIsDue(cl: Clients, c: addr, i: eid, cycle: int, param: int, clock: int, now: int)
    ensures IsDue(now, Apply(cl, Add(c, i, cycle, param, clock)), (c, i)) <==> now - clock >= cycle + 1000
  {
    ApplyLookup(cl, Add(c, i, cycle, param, clock), (c, i));
    DueIs(now, Apply(cl, Add(c, i, cycle, param, clock)), (c, i));
  }

  /** And so is one that has fired, since it did. */
  lemma FiredIsDueAgain(cl: Clients, now: int, f: Fire, later: int)
    requires Lookup(cl, (f.client, f.id)).Some?
    ensures IsDue(later, Restart(cl, now, f), (f.client, f.id)) <==>
            later - now >= Lookup(cl, (f.client, f.id)).value.cycle + 1000
  {
    RestartLookup(cl, now, f, (f.client, f.id));
    DueIs(later, Restart(cl, now, f), (f.client, f.id));
  }

  /** A firing carries the parameter of its entry, whose time has come. */
  lemma {:induction false} FireCarries(cl: Clients, now: int, h: History, k: nat)
    requires Legal(cl, now, h) && k < |h| && h[k].Fired?
    ensures match Lookup(Replay(cl, now, h[..k]), (h[k].f.client, h[k].f.id))
            case None => false
            case Some(e) => e.param == h[k].f.param && now - e.start - e.cycle >= 1000
    decreases |h|
  {
    var before := h[..|h| - 1];
    if k < |h| - 1 {
      FireCarries(cl, now, before, k);
      assert before[..k] == h[..k];
    }
  }

  /** No handler has added, removed or cleared the entry. */
  predicate Untouched(h: History, d: Key) {
    forall k :: 0 <= k < |h| && h[k].Did? ==>
      match h[k].a
      case Add(c, i, _, _, _) => (c, i) != d
      case Remove(c, i) => (c, i) != d
      case Clear => false
      case Touch => true
  }

  /** How often an entry that nobody touches has to fire at this time. */
  function HowOften(now: int, cl: Clients, d: Key): nat {
    match Lookup(cl, d)
    case None => 0
    case Some(e) => if now - e.start - e.cycle >= 1000 then 1 else 0
  }

  ghost predicate OnTime(cl: Clients, now: int, h: History) {
    forall d: Key :: Untouched(h, d) ==> FireCount(h, d) == HowOften(now, cl, d)
  }

  lemma FiresOnTime(cl: Clients, now: int, h: History, d: Key)
    requires GoodCycles(cl) && Legal(cl, now, h) && NoneDue(now, Replay(cl, now, h))
    requires Untouched(h, d)
    ensures FireCount(h, d) == HowOften(now, cl, d)
  {
    SweepTheorem(cl, now, h, d);
    DueIs(now, cl, d);
    var k := FirstConcern(h, d);
    if IsDue(now, cl, d) {
      assert IsFire(h[k], d);
    }
  }

  /** When a sweep has left nothing due, an entry that no handler has touched has fired exactly if
      a second more than its cycle has passed since its start, and then once. */
  lemma SweepOnTime(cl: Clients, now: int, h: History)
    requires GoodCycles(cl) && Legal(cl, now, h) && NoneDue(now, Replay(cl, now, h))
    ensures OnTime(cl, now, h)
  {
    forall d: Key | Untouched(h, d)
      ensures FireCount(h, d) == HowOften(now, cl, d)
    {
      FiresOnTime(cl, now, h, d);
    }
  }

  // ---------------------------------------------------------------- cycles that are too low

  function AlwaysTouch(h: History): seq<Action> { [Touch] }

  function Times(f: Fire, n: nat): seq<Fire> {
    if n == 0 then [] else Times(f, n - 1) + [f]
  }

  lemma RestartHits(cl: Clients, now: int, f: Fire)
    requires Hits(cl, now, f) && cl[f.client][f.id].cycle < MIN_CYCLE
    ensures var next := After(After(cl, now, Fired(f)), now, Did(Touch));
            Hits(next, now, f) && next[f.client][f.id].cycle < MIN_CYCLE
  {
    RestartedIsDue(now, cl[f.client][f.id]);
  }

  lemma TouchStep(cl: Clients, now: int, h: History, f: Fire)
    requires Legal(cl, now, h) && Hits(Replay(cl, now, h), now, f)
    ensures Legal(cl, now, h + [Fired(f)] + [Did(Touch)])
    ensures Replay(cl, now, h + [Fired(f)] + [Did(Touch)])
         == After(After(Replay(cl, now, h), now, Fired(f)), now, Did(Touch))
  {
    LegalSnoc(cl, now, h, Fired(f));
    LegalSnoc(cl, now, h + [Fired(f)], Did(Touch));
  }

  lemma TouchScript(f: Fire, n: nat)
    requires n > 0
    ensures Script(AlwaysTouch, Times(f, n)) == Script(AlwaysTouch, Times(f, n - 1)) + [Fired(f)] + [Did(Touch)]
  {
    var fires := Times(f, n);
    assert fires[..|fires| - 1] == Times(f, n - 1);
    assert DidAll([Touch]) == [Did(Touch)];
  }

  /** After this history the entry is due and too low. */
  predicate CanFire(cl: Clients, now: int, h: History, f: Fire) {
    Legal(cl, now, h) && Low(Replay(cl, now, h), now, f)
  }

  predicate Low(cl: Clients, now: int, f: Fire) {
    Hits(cl, now, f) && cl[f.client][f.id].cycle < MIN_CYCLE
  }

  lemma CanFireAgain(cl: Clients, now: int, h: History, f: Fire, next: History)
    requires CanFire(cl, now, h, f) && next == h + [Fired(f)] + [Did(Touch)]
    ensures CanFire(cl, now, next, f)
  {
    TouchStep(cl, now, h, f);
    RestartHits(Replay(cl, now, h), now, f);
  }

  /** The bound on cycles is sharp: an entry below it whose handler raises the flag can fire any
      number of times in one sweep, and is due after each of them. */
  lemma {:induction false} FiresForEver(cl: Clients, now: int, f: Fire, n: nat)
    requires Low(cl, now, f)
    ensures CanFire(cl, now, Script(AlwaysTouch, Times(f, n)), f)
    decreases n
  {
    if n > 0 {
      FiresForEver(cl, now, f, n - 1);
      TouchScript(f, n);
      CanFireAgain(cl, now, Script(AlwaysTouch, Times(f, n - 1)), f, Script(AlwaysTouch, Times(f, n)));
    }
  }
}
