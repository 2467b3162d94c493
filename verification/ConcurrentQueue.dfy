/**
 * The blocking queue (pw_concurrentqueue_if) as a state machine over any number of threads.
 * Each step is what one thread does between two points where another may come in between:
 * taking the mutex, the critical section that ends by releasing it, and notify_one, which push
 * calls after it has unlocked. Waiting releases the mutex and joins the sleepers in one step,
 * and a sleeper may wake for no reason.
 */
module ConcurrentQueue {
  import opened Bytes

  newtype tid = x: int | 0 <= x

  datatype Phase<T> =
    | PopEnter                               // pop, about to lock
    | PopCheck                               // pop, holds the lock, about to test for emptiness
    | Sleeping                               // in m_cv.wait
    | Woken                                  // woken, about to lock again
    | PushEnter(item: T, front: bool)     // push or push_front, about to lock
    | PushIn(item: T, front: bool)        // holds the lock
    | Notifying                              // has unlocked, about to call notify_one
    | TryIn                                  // popTry, holds the lock
    | ClearEnter                             // clear, about to lock
    | ClearIn                                // holds the lock
    | ResizeEnter(max: nat)                  // setMaxSize, about to lock
    | ResizeIn(max: nat)                     // holds the lock

  /** Threads outside `phases` are outside the queue. `put`, `taken` and `dropped` are histories; `fifo`
      says that neither push_front nor clear has had an effect so far. */
  datatype State<T> = State(
    items: seq<T>, max: nat, lock: Option<tid>, phases: map<tid, Phase<T>>,
    put: seq<T>, taken: seq<T>, dropped: seq<T>, fifo: bool)

  function Init<T>(): State<T> {
    State([], 0, None, map[], [], [], [], true)
  }

  predicate Holds<T>(p: Phase<T>) {
    p.PopCheck? || p.PushIn? || p.TryIn? || p.ClearIn? || p.ResizeIn?
  }

  /** The phase a thread that wants the lock is in once it has it. */
  function Locked<T>(p: Phase<T>): Option<Phase<T>> {
    match p
    case PopEnter => Some(PopCheck)
    case Woken => Some(PopCheck)
    case PushEnter(item, front) => Some(PushIn(item, front))
    case ClearEnter => Some(ClearIn)
    case ResizeEnter(max) => Some(ResizeIn(max))
    case _ => None
  }

  datatype Step<T> =
    | Call(t: tid, p: Phase<T>)                 // a thread outside calls pop, push, clear, setMaxSize
    | TryLock(t: tid)                        // a thread outside calls popTry and gets the lock
    | Lock(t: tid)
    | Critical(t: tid)                       // the critical section of the thread with the lock
    | Notify(t: tid, wakes: Option<tid>)
    | Spurious(t: tid)

  predicate IsCall<T>(p: Phase<T>) {
    p.PopEnter? || p.PushEnter? || p.ClearEnter? || p.ResizeEnter?
  }

  function Leave<T>(s: State<T>, t: tid): State<T> {
    s.(phases := s.phases - {t})
  }

  function Enter<T>(s: State<T>, t: tid, p: Phase<T>): State<T> {
    s.(phases := s.phases[t := p])
  }

  function Take<T>(s: State<T>): State<T>
    requires s.items != []
  {
    s.(items := s.items[1..], taken := s.taken + [s.items[0]])
  }

  function Put<T>(s: State<T>, item: T, front: bool): State<T> {
    s.(items := if front then [item] + s.items else s.items + [item],
       put := s.put + [item], fifo := s.fifo && !front)
  }

  predicate Full<T>(s: State<T>) {
    s.max != 0 && |s.items| >= s.max
  }

  function Section<T>(s: State<T>, t: tid): State<T>
    requires t in s.phases && Holds(s.phases[t])
  {
    var free := s.(lock := None);
    match s.phases[t]
    case PopCheck => if s.items == [] then Enter(free, t, Sleeping) else Leave(Take(free), t)
    case TryIn => if s.items == [] then Leave(free, t) else Leave(Take(free), t)
    case PushIn(item, front) =>
      if Full(s) then Leave(free, t) else Enter(Put(free, item, front), t, Notifying)
    case ClearIn => Leave(free, t).(items := [], dropped := s.dropped + s.items, fifo := s.fifo && s.items == [])
    case ResizeIn(max) => Leave(free, t).(max := max)
  }

  predicate Enabled<T>(s: State<T>, step: Step<T>) {
    match step
    case Call(t, p) => t !in s.phases && IsCall(p)
    case TryLock(t) => t !in s.phases && s.lock.None?
    case Lock(t) => t in s.phases && Locked(s.phases[t]).Some? && s.lock.None?
    case Critical(t) => t in s.phases && Holds(s.phases[t])
    case Notify(t, wakes) =>
      && t in s.phases && s.phases[t].Notifying?
      && (match wakes
          case Some(w) => w in s.phases && s.phases[w].Sleeping?
          case None => forall w :: w in s.phases ==> !s.phases[w].Sleeping?)
    case Spurious(t) => t in s.phases && s.phases[t].Sleeping?
  }

  function Next<T>(s: State<T>, step: Step<T>): State<T>
    requires Enabled(s, step)
  {
    match step
    case Call(t, p) => Enter(s, t, p)
    case TryLock(t) => Enter(s, t, TryIn).(lock := Some(t))
    case Lock(t) => Enter(s, t, Locked(s.phases[t]).value).(lock := Some(t))
    case Critical(t) => Section(s, t)
    case Notify(t, None) => Leave(s, t)
    case Notify(t, Some(w)) => Enter(Leave(s, t), w, Woken)
    case Spurious(t) => Enter(s, t, Woken)
  }

  // ---------------------------------------------------------------- counting threads

  ghost function In<T(!new)>(phases: map<tid, Phase<T>>, f: Phase<T> -> bool): set<tid> {
    set t | t in phases && f(phases[t])
  }

  function One(b: bool): nat {
    if b then 1 else 0
  }

  lemma Leaves<T(!new)>(phases: map<tid, Phase<T>>, t: tid, f: Phase<T> -> bool)
    requires t in phases
    ensures |In(phases - {t}, f)| == |In(phases, f)| - One(f(phases[t]))
  {
    var a, b := In(phases, f), In(phases - {t}, f);
    forall x ensures x in b <==> x in a && x != t {
    }
    assert b == a - {t};
  }

  lemma Enters<T(!new)>(phases: map<tid, Phase<T>>, t: tid, q: Phase<T>, f: Phase<T> -> bool)
    requires t !in phases
    ensures |In(phases[t := q], f)| == |In(phases, f)| + One(f(q))
  {
    var more := phases[t := q];
    assert more - {t} == phases;
    Leaves(more, t, f);
  }

  /** Moving a thread is leaving and entering. */
  lemma Moves<T(!new)>(phases: map<tid, Phase<T>>, t: tid, q: Phase<T>, f: Phase<T> -> bool)
    requires t in phases
    ensures |In(phases[t := q], f)| == |In(phases, f)| - One(f(phases[t])) + One(f(q))
  {
    var less := phases - {t};
    assert phases[t := q] == less[t := q];
    Leaves(phases, t, f);
    Enters(less, t, q, f);
  }

  // ---------------------------------------------------------------- no lost wake-up

  predicate IsSleeping<T>(p: Phase<T>) { p.Sleeping? }

  predicate IsNotifying<T>(p: Phase<T>) { p.Notifying? }

  predicate IsAwake<T>(p: Phase<T>) { p.Woken? || p.PopCheck? }

  ghost function Sleepers<T(!new)>(s: State<T>): nat {
    |In(s.phases, IsSleeping)|
  }

  /** The producers between unlock and notify_one. */
  ghost function Notifiers<T(!new)>(s: State<T>): nat {
    |In(s.phases, IsNotifying)|
  }

  /** The consumers that are awake inside pop: woken but without the lock, or holding it. */
  ghost function Wakened<T(!new)>(s: State<T>): nat {
    |In(s.phases, IsAwake)|
  }

  /** The mutex is held by exactly the thread whose phase says so. */
  predicate LockOk<T>(s: State<T>) {
    && (s.lock.Some? ==> s.lock.value in s.phases && Holds(s.phases[s.lock.value]))
    && (forall t :: t in s.phases && Holds(s.phases[t]) ==> s.lock == Some(t))
  }

  /** While a consumer sleeps, every queued item has somebody on the way to it. */
  ghost predicate WakeOk<T(!new)>(s: State<T>) {
    Sleepers(s) > 0 ==> |s.items| <= Notifiers(s) + Wakened(s)
  }

  lemma SectionLock<T>(s: State<T>, t: tid)
    requires LockOk(s) && t in s.phases && Holds(s.phases[t])
    ensures LockOk(Section(s, t))
  {
  }

  lemma LockStep<T>(s: State<T>, step: Step<T>)
    requires LockOk(s) && Enabled(s, step)
    ensures LockOk(Next(s, step))
  {
    if step.Critical? {
      SectionLock(s, step.t);
    }
  }

  /** The three counts of a state. */
  datatype Counts = Counts(sleepers: nat, notifiers: nat, wakened: nat)

  ghost function CountsOf<T(!new)>(phases: map<tid, Phase<T>>): Counts {
    Counts(|In(phases, IsSleeping)|, |In(phases, IsNotifying)|, |In(phases, IsAwake)|)
  }

  function Plus<T>(c: Counts, p: Phase<T>): Counts {
    Counts(c.sleepers + One(IsSleeping(p)), c.notifiers + One(IsNotifying(p)), c.wakened + One(IsAwake(p)))
  }

  lemma CountsEnter<T(!new)>(phases: map<tid, Phase<T>>, t: tid, q: Phase<T>)
    requires t !in phases
    ensures CountsOf(phases[t := q]) == Plus(CountsOf(phases), q)
  {
    Enters(phases, t, q, IsSleeping);
    Enters(phases, t, q, IsNotifying);
    Enters(phases, t, q, IsAwake);
  }

  lemma CountsLeave<T(!new)>(phases: map<tid, Phase<T>>, t: tid)
    requires t in phases
    ensures CountsOf(phases) == Plus(CountsOf(phases - {t}), phases[t])
  {
    Leaves(phases, t, IsSleeping);
    Leaves(phases, t, IsNotifying);
    Leaves(phases, t, IsAwake);
  }

  /** Moving a thread is leaving and entering. */
  lemma CountsMove<T(!new)>(phases: map<tid, Phase<T>>, t: tid, q: Phase<T>) returns (rest: Counts)
    requires t in phases
    ensures CountsOf(phases) == Plus(rest, phases[t]) && CountsOf(phases[t := q]) == Plus(rest, q)
  {
    rest := CountsOf(phases - {t});
    CountsLeave(phases, t);
    Moves(phases, t, q, IsSleeping);
    Moves(phases, t, q, IsNotifying);
    Moves(phases, t, q, IsAwake);
  }

  /** The bound, on the counts. */
  predicate WakeBound(c: Counts, items: nat) {
    c.sleepers > 0 ==> items <= c.notifiers + c.wakened
  }

  lemma WakeIsBound<T(!new)>(s: State<T>)
    ensures WakeOk(s) <==> WakeBound(CountsOf(s.phases), |s.items|)
  {
  }

  lemma EntersWake<T(!new)>(phases: map<tid, Phase<T>>, t: tid, p: Phase<T>, items: nat)
    requires t !in phases && !p.Sleeping? && WakeBound(CountsOf(phases), items)
    ensures WakeBound(CountsOf(phases[t := p]), items)
  {
    CountsEnter(phases, t, p);
  }

  /** The bound when one thread passes from phase p to phase q and the items change. */
  ghost predicate KeepsBound<T>(p: Phase<T>, items: nat, q: Phase<T>, left: nat) {
    forall rest: Counts :: WakeBound(Plus(rest, p), items) ==> WakeBound(Plus(rest, q), left)
  }

  lemma MovesWake<T(!new)>(phases: map<tid, Phase<T>>, t: tid, q: Phase<T>, items: nat, left: nat)
    requires t in phases && KeepsBound(phases[t], items, q, left) && WakeBound(CountsOf(phases), items)
    ensures WakeBound(CountsOf(phases[t := q]), left)
  {
    var rest := CountsMove(phases, t, q);
    assert WakeBound(Plus(rest, phases[t]), items);
  }

  ghost predicate LeavesBound<T>(p: Phase<T>, items: nat, left: nat) {
    forall rest: Counts :: WakeBound(Plus(rest, p), items) ==> WakeBound(rest, left)
  }

  lemma LeavesWake<T(!new)>(phases: map<tid, Phase<T>>, t: tid, items: nat, left: nat)
    requires t in phases && LeavesBound(phases[t], items, left) && WakeBound(CountsOf(phases), items)
    ensures WakeBound(CountsOf(phases - {t}), left)
  {
    CountsLeave(phases, t);
    assert WakeBound(Plus(CountsOf(phases - {t}), phases[t]), items);
  }

  lemma NobodySleeps<T(!new)>(phases: map<tid, Phase<T>>, items: nat)
    requires forall w :: w in phases ==> !phases[w].Sleeping?
    ensures WakeBound(CountsOf(phases), items)
  {
    assert In(phases, IsSleeping) == {};
  }

  /** notify_one takes a notifier away, and wakes a sleeper unless there is none. */
  lemma NotifiesWake<T(!new)>(phases: map<tid, Phase<T>>, t: tid, w: tid, items: nat)
    requires t in phases && phases[t].Notifying? && WakeBound(CountsOf(phases), items)
    requires w in phases && phases[w].Sleeping?
    ensures WakeBound(CountsOf((phases - {t})[w := Woken]), items)
  {
    var less := phases - {t};
    assert w in less && less[w] == phases[w];
    CountsLeave(phases, t);
    var rest := CountsMove(less, w, Woken);
    Handed(rest, phases[t], phases[w], Woken, CountsOf(phases), items);
  }

  lemma Handed<T>(rest: Counts, n: Phase<T>, s: Phase<T>, q: Phase<T>, all: Counts, items: nat)
    requires n.Notifying? && s.Sleeping? && q.Woken? && all == Plus(Plus(rest, s), n) && WakeBound(all, items)
    ensures WakeBound(Plus(rest, q), items)
  {
  }

  lemma PopWake<T(!new)>(s: State<T>, t: tid)
    requires t in s.phases && s.phases[t].PopCheck? && WakeBound(CountsOf(s.phases), |s.items|)
    ensures WakeBound(CountsOf(Section(s, t).phases), |Section(s, t).items|)
  {
    if s.items == [] {
      MovesWake(s.phases, t, Sleeping, 0, 0);
    } else {
      LeavesWake(s.phases, t, |s.items|, |s.items| - 1);
    }
  }

  lemma PushWake<T(!new)>(s: State<T>, t: tid)
    requires t in s.phases && s.phases[t].PushIn? && WakeBound(CountsOf(s.phases), |s.items|)
    ensures WakeBound(CountsOf(Section(s, t).phases), |Section(s, t).items|)
  {
    if Full(s) {
      LeavesWake(s.phases, t, |s.items|, |s.items|);
    } else {
      MovesWake(s.phases, t, Notifying, |s.items|, |s.items| + 1);
    }
  }

  lemma OtherWake<T(!new)>(s: State<T>, t: tid)
    requires t in s.phases && WakeBound(CountsOf(s.phases), |s.items|)
    requires s.phases[t].TryIn? || s.phases[t].ClearIn? || s.phases[t].ResizeIn?
    ensures WakeBound(CountsOf(Section(s, t).phases), |Section(s, t).items|)
  {
    LeavesWake(s.phases, t, |s.items|, |Section(s, t).items|);
  }

  lemma SectionWake<T(!new)>(s: State<T>, t: tid)
    requires t in s.phases && Holds(s.phases[t]) && WakeBound(CountsOf(s.phases), |s.items|)
    ensures WakeBound(CountsOf(Section(s, t).phases), |Section(s, t).items|)
  {
    match s.phases[t]
    case PopCheck => PopWake(s, t);
    case PushIn(_, _) => PushWake(s, t);
    case _ => OtherWake(s, t);
  }

  lemma WakeStep<T(!new)>(s: State<T>, step: Step<T>)
    requires LockOk(s) && WakeOk(s) && Enabled(s, step)
    ensures WakeOk(Next(s, step))
  {
    WakeIsBound(s);
    WakeIsBound(Next(s, step));
    var items := |s.items|;
    match step
    case Call(t, p) => EntersWake(s.phases, t, p, items);
    case TryLock(t) => EntersWake(s.phases, t, TryIn, items);
    case Lock(t) => MovesWake(s.phases, t, Locked(s.phases[t]).value, items, items);
    case Critical(t) => SectionWake(s, t);
    case Notify(t, Some(w)) => NotifiesWake(s.phases, t, w, items);
    case Notify(t, None) => NobodySleeps(s.phases - {t}, items);
    case Spurious(t) => MovesWake(s.phases, t, Woken, items, items);
  }

  // ---------------------------------------------------------------- what becomes of the items

  /** Nothing is lost or made up; without push_front and clear, items come out in order. */
  ghost predicate ItemsOk<T>(s: State<T>) {
    && multiset(s.put) == multiset(s.taken) + multiset(s.items) + multiset(s.dropped)
    && (s.fifo ==> s.put == s.taken + s.items)
  }

  lemma TakeKeepsItems<T>(s: State<T>)
    requires ItemsOk(s) && s.items != []
    ensures ItemsOk(Take(s))
  {
    assert s.items == [s.items[0]] + s.items[1..];
    assert s.fifo ==> s.taken + s.items == s.taken + [s.items[0]] + s.items[1..];
  }

  lemma PutKeepsItems<T>(s: State<T>, item: T, front: bool)
    requires ItemsOk(s)
    ensures ItemsOk(Put(s, item, front))
  {
    assert s.taken + (s.items + [item]) == s.taken + s.items + [item];
  }

  lemma ClearKeepsItems<T>(s: State<T>, s': State<T>)
    requires ItemsOk(s) && s'.items == [] && s'.put == s.put && s'.taken == s.taken
    requires s'.dropped == s.dropped + s.items && s'.fifo == (s.fifo && s.items == [])
    ensures ItemsOk(s')
  {
    assert s.items == [] ==> s.taken + [] == s.taken + s.items;
  }

  lemma SectionKeepsItems<T>(s: State<T>, t: tid)
    requires ItemsOk(s) && t in s.phases && Holds(s.phases[t])
    ensures ItemsOk(Section(s, t))
  {
    var free := s.(lock := None);
    match s.phases[t]
    case PushIn(item, front) => PutKeepsItems(free, item, front);
    case ClearIn => ClearKeepsItems(s, Section(s, t));
    case _ =>
      if s.items != [] {
        TakeKeepsItems(free);
      }
  }

  lemma ItemsStep<T>(s: State<T>, step: Step<T>)
    requires ItemsOk(s) && Enabled(s, step)
    ensures ItemsOk(Next(s, step))
  {
    if step.Critical? {
      SectionKeepsItems(s, step.t);
    }
  }

  // ---------------------------------------------------------------- runs

  function Exec<T>(s: State<T>, steps: seq<Step<T>>): Option<State<T>>
    decreases steps
  {
    if steps == [] then Some(s)
    else if Enabled(s, steps[0]) then Exec(Next(s, steps[0]), steps[1..])
    else None
  }

  ghost predicate Inv<T(!new)>(s: State<T>) {
    LockOk(s) && WakeOk(s) && ItemsOk(s)
  }

  lemma {:induction false} InvHolds<T(!new)>(s: State<T>, steps: seq<Step<T>>)
    requires Inv(s) && Exec(s, steps).Some?
    ensures Inv(Exec(s, steps).value)
    decreases steps
  {
    if steps != [] {
      LockStep(s, steps[0]);
      WakeStep(s, steps[0]);
      ItemsStep(s, steps[0]);
      InvHolds(Next(s, steps[0]), steps[1..]);
    }
  }

  /** The steps threads inside the queue take of their own accord. */
  predicate Internal<T>(step: Step<T>) {
    step.Lock? || step.Critical? || step.Notify?
  }

  /** No thread inside the queue can go on. */
  ghost predicate Quiescent<T(!new)>(s: State<T>) {
    forall step: Step<T> :: Internal(step) ==> !Enabled(s, step)
  }

  lemma QuiescentSleeps<T(!new)>(s: State<T>, t: tid)
    requires LockOk(s) && Quiescent(s) && t in s.phases
    ensures s.phases[t].Sleeping?
  {
    var holder := if s.lock.Some? then s.lock.value else t;
    assert !Enabled(s, Critical(holder));
    assert !Enabled(s, Critical(t)) && !Enabled(s, Lock(t)) && !Enabled(s, Notify(t, None));
    forall w | w in s.phases ensures !(s.phases[t].Notifying? && s.phases[w].Sleeping?) {
      assert !Enabled(s, Notify(t, Some(w)));
    }
  }

  /** No lost wake-up, over every run of any number of threads: if a consumer sleeps, the items
      number at most the producers that have yet to notify plus the consumers that are awake;
      and when no thread can go on, nobody sleeps beside an item. */
  lemma NoLostWakeup<T(!new)>(steps: seq<Step<T>>)
    requires Exec(Init<T>(), steps).Some?
    ensures var s := Exec(Init<T>(), steps).value;
            && (Sleepers(s) > 0 ==> |s.items| <= Notifiers(s) + Wakened(s))
            && (Quiescent(s) ==> s.items == [] || Sleepers(s) == 0)
  {
    var s0 := Init<T>();
    assert In(s0.phases, IsSleeping) == {};
    InvHolds(s0, steps);
    var s := Exec(s0, steps).value;
    if Quiescent(s) {
      forall t ensures t !in In(s.phases, IsNotifying) && t !in In(s.phases, IsAwake) {
        if t in s.phases {
          QuiescentSleeps(s, t);
        }
      }
      assert In(s.phases, IsNotifying) == {} && In(s.phases, IsAwake) == {};
    }
  }

  /** Over every run, what was put in is what came out, what is there and what clear dropped;
      in order, as long as push_front and clear have not come into it. */
  lemma NothingLost<T(!new)>(steps: seq<Step<T>>)
    requires Exec(Init<T>(), steps).Some?
    ensures var s := Exec(Init<T>(), steps).value;
            && multiset(s.put) == multiset(s.taken) + multiset(s.items) + multiset(s.dropped)
            && (s.fifo ==> s.put == s.taken + s.items)
  {
    var s0 := Init<T>();
    assert In(s0.phases, IsSleeping) == {};
    InvHolds(s0, steps);
  }

  // ---------------------------------------------------------------- quiescence is reached

  /** How many steps a thread can still take before it leaves, sleeps or has woken somebody. */
  function Weight<T>(p: Phase<T>): nat {
    match p
    case Sleeping => 0
    case PopCheck => 1
    case TryIn => 1
    case ClearIn => 1
    case ResizeIn(_) => 1
    case PopEnter => 2
    case Woken => 2
    case ClearEnter => 2
    case ResizeEnter(_) => 2
    case Notifying => 3
    case PushIn(_, _) => 4
    case PushEnter(_, _) => 5
  }

  predicate Over0<T>(p: Phase<T>) { Weight(p) > 0 }
  predicate Over1<T>(p: Phase<T>) { Weight(p) > 1 }
  predicate Over2<T>(p: Phase<T>) { Weight(p) > 2 }
  predicate Over3<T>(p: Phase<T>) { Weight(p) > 3 }
  predicate Over4<T>(p: Phase<T>) { Weight(p) > 4 }

  /** The sum of the weights of all threads. */
  ghost function Total<T(!new)>(phases: map<tid, Phase<T>>): nat {
    |In(phases, Over0)| + |In(phases, Over1)| + |In(phases, Over2)| + |In(phases, Over3)|
    + |In(phases, Over4)|
  }

  lemma TotalLeaves<T(!new)>(phases: map<tid, Phase<T>>, t: tid)
    requires t in phases
    ensures Total(phases - {t}) == Total(phases) - Weight(phases[t])
  {
    Leaves(phases, t, Over0);
    Leaves(phases, t, Over1);
    Leaves(phases, t, Over2);
    Leaves(phases, t, Over3);
    Leaves(phases, t, Over4);
  }

  lemma TotalMoves<T(!new)>(phases: map<tid, Phase<T>>, t: tid, q: Phase<T>)
    requires t in phases
    ensures Total(phases[t := q]) == Total(phases) - Weight(phases[t]) + Weight(q)
  {
    var less := phases - {t};
    assert phases[t := q] - {t} == less;
    TotalLeaves(phases, t);
    TotalLeaves(phases[t := q], t);
  }

  lemma SectionPhases<T>(s: State<T>, t: tid)
    requires t in s.phases && Holds(s.phases[t])
    ensures var after := Section(s, t).phases;
            if t in after then after == s.phases[t := after[t]] && Weight(after[t]) < Weight(s.phases[t])
            else after == s.phases - {t}
  {
  }

  lemma InternalStep<T(!new)>(s: State<T>, step: Step<T>)
    requires Internal(step) && Enabled(s, step)
    ensures Total(Next(s, step).phases) < Total(s.phases)
  {
    var t := step.t;
    var s' := Next(s, step);
    match step {
      case Notify(_, wakes) =>
        TotalLeaves(s.phases, t);
        if wakes.Some? {
          TotalMoves(s.phases - {t}, wakes.value, Woken);
        }
      case Lock(_) =>
        TotalMoves(s.phases, t, Locked(s.phases[t]).value);
      case Critical(_) =>
        SectionPhases(s, t);
        if t in s'.phases {
          TotalMoves(s.phases, t, s'.phases[t]);
        } else {
          TotalLeaves(s.phases, t);
        }
    }
  }

  /** Left alone, without new calls and spurious wake-ups, the threads inside the queue can take
      only so many steps, whoever goes first; then the state is quiescent. */
  lemma {:induction false} Settles<T(!new)>(s: State<T>, steps: seq<Step<T>>)
    requires Exec(s, steps).Some? && forall step <- steps :: Internal(step)
    ensures |steps| + Total(Exec(s, steps).value.phases) <= Total(s.phases)
    decreases steps
  {
    if steps != [] {
      InternalStep(s, steps[0]);
      Settles(Next(s, steps[0]), steps[1..]);
    }
  }

  // ---------------------------------------------------------------- the size limit

  predicate IsResize<T>(p: Phase<T>) {
    p.ResizeEnter? || p.ResizeIn?
  }

  ghost predicate NoResize<T(!new)>(s: State<T>) {
    forall t :: t in s.phases ==> !IsResize(s.phases[t])
  }

  /** Over any run in which nobody calls setMaxSize, a limited queue stays within its limit. */
  lemma {:induction false} StaysWithinLimit<T(!new)>(s: State<T>, steps: seq<Step<T>>)
    requires NoResize(s) && s.max != 0 && |s.items| <= s.max
    requires forall step <- steps :: step.Call? ==> !IsResize(step.p)
    requires Exec(s, steps).Some?
    ensures var s' := Exec(s, steps).value; s'.max == s.max && |s'.items| <= s.max
    decreases steps
  {
    if steps != [] {
      StaysWithinLimit(Next(s, steps[0]), steps[1..]);
    }
  }
}
