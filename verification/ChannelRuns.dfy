/** Runs of a channel, told from their steps alone: what has been written, what each call and
    event does to the channel's lifetime, and what the poller watches for. */
module ChannelRuns {
  import opened Bytes
  import opened Channels

  // ---------------------------------------------------------------- what has been written

  /** How long the channel takes data, how many bytes wait, and the data of all writes so far. */
  datatype Gauge = Gauge(live: bool, waiting: nat, written: bytes)

  function Called(g: Gauge, call: Call): Gauge {
    match call
    case Write(data) => if g.live then Gauge(true, g.waiting + |data|, g.written + data) else g
    case _ => g.(live := false)
  }

  function CalledAll(g: Gauge, calls: seq<Call>): Gauge
    decreases calls
  {
    if calls == [] then g else CalledAll(Called(g, calls[0]), calls[1..])
  }

  /** What is left of the waiting bytes: at least one has gone and at most n have. */
  function Left(waiting: nat, n: nat): nat {
    if waiting <= 1 || n >= waiting then 0 else if n <= 1 then waiting - 1 else waiting - n
  }

  function Attempted(g: Gauge, attempts: seq<Attempt>): Gauge
    decreases attempts
  {
    if attempts == [] || !g.live || g.waiting == 0 then g
    else
      match attempts[0]
      case Again => g
      case Fatal => g.(live := false)
      case Takes(n, calls) => Attempted(CalledAll(g.(waiting := Left(g.waiting, n)), calls), attempts[1..])
  }

  function Stepped(g: Gauge, step: Step): Gauge {
    if !g.live then g
    else
      match step
      case App(call) => Called(g, call)
      case Io(pollin, pollout, error, read, attempts) =>
        if pollin then
          match read
          case Data(calls) => CalledAll(g, calls)
          case NotYet => g
          case Broken => g.(live := false)
        else if pollout then Attempted(g, attempts)
        else g.(live := !error)
  }

  function Gauged(g: Gauge, steps: seq<Step>): Gauge
    decreases steps
  {
    if steps == [] then g else Gauged(Stepped(g, steps[0]), steps[1..])
  }

  /** The data of all writes, from outside and from handlers, made before the channel is told to
      expire or to go or fails, in the order in which they are made. */
  function Written(steps: seq<Step>): bytes {
    Gauged(Gauge(true, 0, []), steps).written
  }

  ghost predicate Tracks(s: State, g: Gauge) {
    && g.written == s.accepted && (g.live <==> s.inst == NORMAL)
    && (g.live ==> g.waiting == |s.wbuf| && !s.gone)
  }

  lemma {:induction false} CallsTrack(s: State, g: Gauge, calls: seq<Call>)
    requires Tracks(s, g)
    ensures Tracks(DoAll(s, calls), CalledAll(g, calls))
    decreases calls
  {
    if calls != [] {
      CallsTrack(Do(s, calls[0]), Called(g, calls[0]), calls[1..]);
    }
  }

  /** Once the channel has stopped being NORMAL, nothing more is accepted. */
  lemma {:induction false} LoopEnded(s: State, attempts: seq<Attempt>)
    requires s.inst != NORMAL && s.wbuf != []
    ensures WriteLoop(s, attempts).inst != NORMAL && WriteLoop(s, attempts).accepted == s.accepted
    decreases attempts
  {
    if attempts != [] && attempts[0].Takes? {
      ExpiredRefuses(Sent(s, attempts[0].n), attempts[0].calls);
      var s' := DoAll(Sent(s, attempts[0].n), attempts[0].calls);
      if s'.wbuf != [] {
        LoopEnded(s', attempts[1..]);
      }
    }
  }

  lemma SentLeaves(s: State, n: nat)
    requires s.wbuf != []
    ensures |Sent(s, n).wbuf| == Left(|s.wbuf|, n)
  {
  }

  lemma {:induction false} AttemptedStays(g: Gauge, attempts: seq<Attempt>)
    requires !g.live || g.waiting == 0
    ensures Attempted(g, attempts) == g
  {
  }

  lemma {:induction false} LoopTracks(s: State, g: Gauge, attempts: seq<Attempt>)
    requires Tracks(s, g) && g.live && s.wbuf != []
    ensures Tracks(WriteLoop(s, attempts), Attempted(g, attempts))
    decreases attempts
  {
    if attempts != [] && attempts[0].Takes? {
      var n, calls := attempts[0].n, attempts[0].calls;
      SentLeaves(s, n);
      var g' := CalledAll(g.(waiting := Left(g.waiting, n)), calls);
      CallsTrack(Sent(s, n), g.(waiting := Left(g.waiting, n)), calls);
      var s' := DoAll(Sent(s, n), calls);
      if s'.wbuf == [] {
        AttemptedStays(g', attempts[1..]);
      } else if g'.live {
        LoopTracks(s', g', attempts[1..]);
      } else {
        AttemptedStays(g', attempts[1..]);
        LoopEnded(s', attempts[1..]);
      }
    }
  }

  lemma EndedStays(s: State, step: Step)
    requires s.inst != NORMAL
    ensures Next(s, step).inst != NORMAL && Next(s, step).accepted == s.accepted
  {
    if step.Io? && s.wbuf != [] {
      LoopEnded(s, step.attempts);
    }
  }

  lemma StepTracks(s: State, g: Gauge, step: Step)
    requires Tracks(s, g)
    ensures Tracks(Next(s, step), Stepped(g, step))
  {
    if !g.live {
      EndedStays(s, step);
    } else {
      match step
      case App(call) =>
      case Io(pollin, pollout, _, read, attempts) =>
        if pollin {
          if read.Data? {
            CallsTrack(s, g, read.calls);
          }
        } else if pollout {
          if s.wbuf == [] {
            AttemptedStays(g, attempts);
          } else {
            LoopTracks(s, g, attempts);
          }
        }
    }
  }

  lemma {:induction false} RunTracks(s: State, g: Gauge, steps: seq<Step>)
    requires Tracks(s, g)
    ensures Tracks(Run(s, steps), Gauged(g, steps))
    decreases steps
  {
    if steps != [] {
      StepTracks(s, g, steps[0]);
      RunTracks(Next(s, steps[0]), Stepped(g, steps[0]), steps[1..]);
    }
  }

  /** What has been accepted is what has been written: along every run the bytes handed to the
      socket and the waiting bytes are the data of all writes, until a write error. */
  lemma WrittenIsAccepted(steps: seq<Step>)
    ensures var s := Run(Connected([]), steps);
            && s.accepted == Written(steps)
            && (!s.failed ==> s.sent + s.wbuf == Written(steps))
            && (s.inst == NORMAL <==> Gauged(Gauge(true, 0, []), steps).live)
  {
    RunTracks(Connected([]), Gauge(true, 0, []), steps);
    AlwaysConserved(Connected([]), steps);
  }

  /** Written data waits in the buffer. */
  lemma WriteWaits(data: bytes)
    ensures Run(Connected([]), [App(Write(data))]).wbuf == data
    ensures Written([App(Write(data))]) == data
  {
    WrittenIsAccepted([App(Write(data))]);
    assert [App(Write(data))][1..] == [];
  }

  /** Only a socket that fails makes a write fail. */
  predicate NeverFails(steps: seq<Step>) {
    forall step <- steps :: step.Io? ==> Fatal !in step.attempts
  }

  lemma {:induction false} FailsOnlyByError(s: State, steps: seq<Step>)
    requires Conserved(s) && !s.failed && NeverFails(steps)
    ensures !Run(s, steps).failed
    decreases steps
  {
    if steps != [] {
      StepFails(s, steps[0]);
      StepKeeps(s, steps[0]);
      FailsOnlyByError(Next(s, steps[0]), steps[1..]);
    }
  }

  lemma StepFails(s: State, step: Step)
    requires Conserved(s) && !s.failed && (step.Io? ==> Fatal !in step.attempts)
    ensures !Next(s, step).failed
  {
    if !s.gone && step.Io? {
      if step.pollin && step.read.Data? {
        DoAllKeeps(s, step.read.calls);
      } else if step.pollout && s.wbuf != [] {
        WriteLoopKeeps(s, step.attempts);
      }
    }
  }

  // ---------------------------------------------------------------- the lifetime

  /** A call on a channel that is not gone. */
  lemma CallSays(s: State, data: bytes)
    requires !s.gone
    ensures s.inst == NORMAL ==>
              && Next(s, App(Write(data))) == s.(wbuf := s.wbuf + data, accepted := s.accepted + data,
                                                 mask := Mask(s.mask.pollin, true))
              && Next(s, App(SetExpired)) == s.(inst := EXPIRED, mask := Mask(false, true))
    ensures s.inst != NORMAL ==> Next(s, App(Write(data))) == s && Next(s, App(SetExpired)) == s
    ensures s.inst != DELETE ==> Next(s, App(SetRelease)) == s.(inst := DELETE, mask := Mask(false, true))
  {
  }

  /** An expired channel does not read, and only a release, an error or an empty buffer
      ends it. */
  lemma ExpiredSays(s: State, step: Step)
    requires s.inst == EXPIRED && !s.gone && step.Io?
    ensures step.pollin ==> Next(s, step) == s.(mask := Mask(false, true))
    ensures !step.pollin && !step.pollout ==>
              Next(s, step) == if step.error then s.(inst := DELETE, mask := Mask(false, true), gone := true) else s
    ensures !step.pollin && step.pollout && s.wbuf == [] ==>
              Next(s, step) == s.(inst := DELETE, mask := Mask(false, true), gone := true)
    ensures !step.pollin && step.pollout && s.wbuf != [] && Next(s, step).inst == DELETE ==>
              Next(s, step).wbuf == [] || !NoRelease(step.attempts)
  {
    if !step.pollin && step.pollout && s.wbuf != [] && NoRelease(step.attempts) {
      ExpiredLoop(s, step.attempts);
    }
  }

  lemma {:induction false} ExpiredLoop(s: State, attempts: seq<Attempt>)
    requires s.inst == EXPIRED && s.wbuf != [] && NoRelease(attempts)
    ensures WriteLoop(s, attempts).inst == DELETE ==> WriteLoop(s, attempts).wbuf == []
    decreases attempts
  {
    if attempts != [] && attempts[0].Takes? {
      var s' := Sent(s, attempts[0].n);
      ExpiredRefuses(s', attempts[0].calls);
      if s'.wbuf != [] {
        ExpiredLoop(s', attempts[1..]);
      }
    }
  }

  /** The end of the connection, a socket error and a failing write end the channel. */
  lemma ErrorsRelease(s: State, pollout: bool, error: bool, attempts: seq<Attempt>, rest: seq<Attempt>)
    requires s.inst == NORMAL && !s.gone
    ensures Next(s, Io(true, pollout, error, Broken, attempts))
            == s.(inst := DELETE, mask := Mask(false, true), gone := true)
    ensures Next(s, Io(false, false, true, NotYet, attempts))
            == s.(inst := DELETE, mask := Mask(false, true), gone := true)
    ensures s.wbuf != [] ==>
              Next(s, Io(false, true, error, NotYet, [Fatal] + rest))
              == s.(inst := DELETE, mask := Mask(false, true), gone := true, wbuf := [], failed := true)
    ensures Next(s, Io(true, pollout, error, NotYet, attempts)) == s
  {
  }

  /** One attempt hands over the first bytes of the buffer, at least one and at most n. */
  lemma AttemptSays(s: State, n: nat, k: nat, error: bool, read: ReadResult)
    requires s.inst == NORMAL && !s.gone && 1 <= k <= |s.wbuf|
    requires k == n || (n == 0 && k == 1) || (n > |s.wbuf| && k == |s.wbuf|)
    ensures var s' := Next(s, Io(false, true, error, read, [Takes(n, [])]));
            && s'.sent == s.sent + s.wbuf[..k] && s'.wbuf == s.wbuf[k..] && s'.inst == NORMAL
            && s'.mask == if k == |s.wbuf| then Mask(true, false) else s.mask
  {
    var left := Sent(s, n);
    assert DoAll(left, []) == left && [Takes(n, [])][1..] == [];
    assert k < |s.wbuf| ==> WriteLoop(left, []) == left;
  }

  /** An event finds the channel deleted, or leaves it so, exactly if it ends the channel. */
  lemma GoneSays(s: State, step: Step)
    requires !s.gone
    ensures Next(s, step).gone <==> step.Io? && Next(s, step).inst == DELETE
    ensures s.inst == DELETE && step.Io? ==> Next(s, step) == s.(gone := true)
  {
    if step.Io? {
      if step.pollin && step.read.Data? {
        CallsKeepGone(s, step.read.calls);
      } else if step.pollout && s.wbuf != [] {
        LoopKeepsGone(s, step.attempts);
      }
    }
  }

  lemma {:induction false} CallsKeepGone(s: State, calls: seq<Call>)
    ensures DoAll(s, calls).gone == s.gone
    decreases calls
  {
    if calls != [] {
      CallsKeepGone(Do(s, calls[0]), calls[1..]);
    }
  }

  lemma {:induction false} LoopKeepsGone(s: State, attempts: seq<Attempt>)
    requires s.wbuf != []
    ensures WriteLoop(s, attempts).gone == s.gone
    decreases attempts
  {
    if attempts != [] && attempts[0].Takes? {
      var s' := DoAll(Sent(s, attempts[0].n), attempts[0].calls);
      CallsKeepGone(Sent(s, attempts[0].n), attempts[0].calls);
      if s'.wbuf != [] {
        LoopKeepsGone(s', attempts[1..]);
      }
    }
  }

  // ---------------------------------------------------------------- what the poller watches for

  /** Until it is gone, a live channel watches for data to read, and one that is to end only for
      the chance to write. */
  predicate Watches(s: State) {
    s.gone || (if s.inst == NORMAL then s.mask.pollin else s.mask == Mask(false, true))
  }

  lemma {:induction false} CallsWatch(s: State, calls: seq<Call>)
    requires Watches(s)
    ensures Watches(DoAll(s, calls))
    decreases calls
  {
    if calls != [] {
      CallsWatch(Do(s, calls[0]), calls[1..]);
    }
  }

  lemma {:induction false} LoopWatches(s: State, attempts: seq<Attempt>)
    requires s.wbuf != [] && Watches(s) && !s.gone
    ensures WriteLoop(s, attempts).inst == DELETE || Watches(WriteLoop(s, attempts))
    ensures WriteLoop(s, attempts).inst == NORMAL && WriteLoop(s, attempts).wbuf == [] ==>
              WriteLoop(s, attempts).mask == Mask(true, false)
    decreases attempts
  {
    if attempts != [] && attempts[0].Takes? {
      var s' := DoAll(Sent(s, attempts[0].n), attempts[0].calls);
      CallsWatch(Sent(s, attempts[0].n), attempts[0].calls);
      CallsKeepGone(Sent(s, attempts[0].n), attempts[0].calls);
      if s'.wbuf != [] {
        LoopWatches(s', attempts[1..]);
      }
    }
  }

  lemma StepWatches(s: State, step: Step)
    requires Watches(s)
    ensures Watches(Next(s, step))
    ensures step.Io? && !step.pollin && step.pollout && !s.gone && s.inst == NORMAL
            && Next(s, step).inst == NORMAL && Next(s, step).wbuf == [] ==>
              Next(s, step).mask == Mask(true, false)
  {
    if !s.gone && step.Io? {
      if step.pollin && step.read.Data? {
        CallsWatch(s, step.read.calls);
      } else if step.pollout && s.wbuf != [] {
        LoopWatches(s, step.attempts);
      }
    }
  }

  lemma {:induction false} WatchesStays(s: State, steps: seq<Step>)
    requires Watches(s)
    ensures Watches(Run(s, steps))
    decreases steps
  {
    if steps != [] {
      StepWatches(s, steps[0]);
      WatchesStays(Next(s, steps[0]), steps[1..]);
    }
  }

  /** What the poller watches for, along every run from connecting. */
  lemma AlwaysWatches(wbuf: bytes, steps: seq<Step>)
    ensures var s := Run(Connected(wbuf), steps);
            && (s.inst == NORMAL && !s.gone ==> s.mask.pollin)
            && (s.inst != NORMAL && !s.gone ==> s.mask == Mask(false, true))
  {
    WatchesStays(Connected(wbuf), steps);
  }
}
