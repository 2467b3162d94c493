/** What the blocking queue does to its items: the effect of each critical section, and every run
    of any number of threads as a run of whole operations, one after the other. */
module QueueEffects {
  import opened Bytes
  import opened ConcurrentQueue

  // ---------------------------------------------------------------- the critical sections

  /** Only thread t has moved, and the lock is free again. */
  ghost predicate Released<T>(s: State<T>, s': State<T>, t: tid) {
    s'.lock == None && s'.phases - {t} == s.phases - {t}
  }

  /** A push has an effect exactly if the queue is unlimited or below its limit; then the item
      is at the end that was asked for and a notification follows. */
  lemma PushSays<T>(s: State<T>, t: tid, item: T, front: bool)
    requires t in s.phases && s.phases[t] == PushIn(item, front)
    ensures var s' := Next(s, Critical(t));
            && Released(s, s', t) && s'.max == s.max && s'.taken == s.taken && s'.dropped == s.dropped
            && (s.max == 0 || |s.items| < s.max ==>
                  && s'.items == (if front then [item] + s.items else s.items + [item])
                  && s'.put == s.put + [item] && t in s'.phases && s'.phases[t].Notifying?)
            && (s.max > 0 && |s.items| >= s.max ==>
                  s'.items == s.items && s'.put == s.put && t !in s'.phases)
  {
  }

  /** What taking from the queue comes to; `wait` says whether an empty queue is waited for. */
  ghost predicate Takes<T>(s: State<T>, s': State<T>, t: tid, wait: bool) {
    && s'.max == s.max && s'.put == s.put && s'.dropped == s.dropped
    && (|s.items| > 0 ==>
          && s'.items == s.items[1..] && s'.taken == s.taken + [s.items[0]]
          && t !in s'.phases)
    && (|s.items| == 0 ==>
          && s'.items == s.items && s'.taken == s.taken
          && (if wait then t in s'.phases && s'.phases[t].Sleeping? else t !in s'.phases))
  }

  /** pop with the lock takes the first item, or goes to sleep. */
  lemma PopSays<T>(s: State<T>, t: tid)
    requires t in s.phases && s.phases[t].PopCheck?
    ensures Released(s, Next(s, Critical(t)), t) && Takes(s, Next(s, Critical(t)), t, true)
  {
  }

  /** popTry takes the first item, or leaves without one. */
  lemma TrySays<T>(s: State<T>, t: tid)
    requires t in s.phases && s.phases[t].TryIn?
    ensures Released(s, Next(s, Critical(t)), t) && Takes(s, Next(s, Critical(t)), t, false)
  {
  }

  lemma ClearSays<T>(s: State<T>, t: tid)
    requires t in s.phases && s.phases[t].ClearIn?
    ensures var s' := Next(s, Critical(t));
            && Released(s, s', t) && t !in s'.phases && s'.max == s.max && s'.put == s.put
            && s'.items == [] && s'.taken == s.taken && s'.dropped == s.dropped + s.items
  {
  }

  lemma ResizeSays<T>(s: State<T>, t: tid, max: nat)
    requires t in s.phases && s.phases[t] == ResizeIn(max)
    ensures var s' := Next(s, Critical(t));
            && Released(s, s', t) && t !in s'.phases && s'.max == max && s'.put == s.put
            && s'.items == s.items && s'.taken == s.taken && s'.dropped == s.dropped
  {
  }

  /** notify_one lets one sleeper go, if there is one, and the producer leaves. */
  lemma NotifySays<T>(s: State<T>, t: tid, wakes: Option<tid>)
    requires Enabled(s, Notify(t, wakes))
    ensures var s' := Next(s, Notify(t, wakes));
            && t !in s'.phases && s'.items == s.items && s'.lock == s.lock
            && (wakes.Some? ==> wakes.value in s'.phases && s'.phases[wakes.value].Woken?)
            && (wakes.None? ==> forall w :: w in s.phases ==> s.phases[w] != Sleeping)
  {
  }

  /** Whoever is outside may call. */
  lemma MayCall<T>(s: State<T>, t: tid, item: T, front: bool, max: nat)
    requires t !in s.phases
    ensures Enabled(s, Call(t, PopEnter)) && Enabled(s, Call(t, PushEnter(item, front)))
    ensures Enabled(s, Call(t, ClearEnter)) && Enabled(s, Call(t, ResizeEnter(max)))
    ensures s.lock == None ==> Enabled(s, TryLock(t))
  {
  }

  /** And a caller gets the lock when it is free. */
  lemma MayLock<T>(s: State<T>, t: tid)
    requires t in s.phases && s.lock == None
    requires var p := s.phases[t];
             p.PopEnter? || p.Woken? || p.PushEnter? || p.ClearEnter? || p.ResizeEnter?
    ensures Enabled(s, Lock(t)) && Next(s, Lock(t)).lock == Some(t)
    ensures Enabled(Next(s, Lock(t)), Critical(t))
  {
  }

  // ---------------------------------------------------------------- whole operations

  /** A queue on which the operations are carried out one at a time. */
  datatype Queue<T> = Queue(items: seq<T>, max: nat, put: seq<T>, taken: seq<T>, dropped: seq<T>)

  /** A whole operation, named by the phase in which it is called. */
  function Atomic<T>(q: Queue<T>, call: Phase<T>): Queue<T> {
    match call
    case PushEnter(item, front) =>
      if q.max == 0 || |q.items| < q.max then
        q.(items := if front then [item] + q.items else q.items + [item], put := q.put + [item])
      else q
    case ClearEnter => q.(items := [], dropped := q.dropped + q.items)
    case ResizeEnter(max) => q.(max := max)
    case _ => if |q.items| == 0 then q else q.(items := q.items[1..], taken := q.taken + [q.items[0]])
  }

  /** What each thread has called last. */
  function Noted<T>(calls: map<tid, Phase<T>>, step: Step<T>): map<tid, Phase<T>> {
    match step
    case Call(t, p) => calls[t := p]
    case TryLock(t) => calls[t := TryIn]
    case _ => calls
  }

  /** The operations of a run, each at its critical section, as they follow from the steps alone. */
  function Atomics<T>(q: Queue<T>, calls: map<tid, Phase<T>>, steps: seq<Step<T>>): Queue<T>
    decreases steps
  {
    if steps == [] then q
    else
      var done := if steps[0].Critical? && steps[0].t in calls then Atomic(q, calls[steps[0].t]) else q;
      Atomics(done, Noted(calls, steps[0]), steps[1..])
  }

  /** A thread in phase p is somewhere in the operation it has called. */
  ghost predicate Within<T>(p: Phase<T>, call: Phase<T>) {
    match call
    case PopEnter => p.PopEnter? || p.PopCheck? || p.Sleeping? || p.Woken?
    case PushEnter(item, front) => p == call || p == PushIn(item, front) || p.Notifying?
    case TryIn => p.TryIn?
    case ClearEnter => p.ClearEnter? || p.ClearIn?
    case ResizeEnter(max) => p == call || p == ResizeIn(max)
    case _ => false
  }

  ghost predicate Follows<T(!new)>(phases: map<tid, Phase<T>>, calls: map<tid, Phase<T>>) {
    forall t :: t in phases ==> t in calls && Within(phases[t], calls[t])
  }

  ghost predicate Same<T>(s: State<T>, q: Queue<T>) {
    s.items == q.items && s.max == q.max && s.put == q.put && s.taken == q.taken && s.dropped == q.dropped
  }

  lemma SectionIsAtomic<T>(s: State<T>, t: tid, q: Queue<T>, call: Phase<T>)
    requires t in s.phases && Holds(s.phases[t]) && Within(s.phases[t], call) && Same(s, q)
    ensures Same(Next(s, Critical(t)), Atomic(q, call))
  {
    match s.phases[t]
    case PushIn(item, front) => PushSays(s, t, item, front);
    case PopCheck => PopSays(s, t);
    case TryIn => TrySays(s, t);
    case ClearIn => ClearSays(s, t);
    case ResizeIn(max) => ResizeSays(s, t, max);
  }

  lemma SectionFollows<T(!new)>(s: State<T>, t: tid, calls: map<tid, Phase<T>>)
    requires t in s.phases && Holds(s.phases[t]) && Follows(s.phases, calls)
    ensures Follows(Section(s, t).phases, calls)
  {
    SectionPhases(s, t);
  }

  lemma StepFollows<T(!new)>(s: State<T>, step: Step<T>, calls: map<tid, Phase<T>>)
    requires Enabled(s, step) && Follows(s.phases, calls)
    ensures Follows(Next(s, step).phases, Noted(calls, step))
  {
    if step.Critical? {
      SectionFollows(s, step.t, calls);
    }
  }

  lemma {:induction false} RunIsAtomic<T(!new)>(s: State<T>, steps: seq<Step<T>>, q: Queue<T>,
                                             calls: map<tid, Phase<T>>)
    requires Exec(s, steps).Some? && Same(s, q) && Follows(s.phases, calls)
    ensures Same(Exec(s, steps).value, Atomics(q, calls, steps))
    decreases steps
  {
    if steps != [] {
      var step := steps[0];
      StepFollows(s, step, calls);
      if step.Critical? {
        SectionIsAtomic(s, step.t, q, calls[step.t]);
        RunIsAtomic(Next(s, step), steps[1..], Atomic(q, calls[step.t]), Noted(calls, step));
      } else {
        RunIsAtomic(Next(s, step), steps[1..], q, Noted(calls, step));
      }
    }
  }

  /** Every run of any number of threads comes to what the called operations come to when each is
      carried out whole at its critical section: what was put is the items of the pushes that
      found room, and what was taken, dropped and is left follows. */
  lemma Linearizable<T(!new)>(steps: seq<Step<T>>)
    requires Exec(Init<T>(), steps).Some?
    ensures Same(Exec(Init<T>(), steps).value, Atomics(Queue([], 0, [], [], []), map[], steps))
  {
    RunIsAtomic(Init<T>(), steps, Queue([], 0, [], [], []), map[]);
  }
}
