/** The write path and the lifetime of a connected channel (pw_channel_if). */
module Channels {
  import opened Bytes

  /** InstanceState */
  datatype Inst = NORMAL | EXPIRED | DELETE

  /** The poller's interest in the channel's descriptor. */
  datatype Mask = Mask(pollin: bool, pollout: bool)

  const POLLIN: Mask := Mask(true, false)
  const POLLOUT: Mask := Mask(false, true)

  /** `sent` are the bytes the socket has taken and `accepted` those `write` has taken, in all;
      `failed` is set when a write error clears the buffer, `gone` by releaseInstance. */
  datatype State = State(
    inst: Inst, mask: Mask, wbuf: bytes, sent: bytes, accepted: bytes, failed: bool, gone: bool)

  /** What the application may call. */
  datatype Call = Write(data: bytes) | SetExpired | SetRelease

  /** One attempt to write to the socket: it takes at least one byte and at most `n`, upon which
      eventWriteData makes calls, or none for now, or fails. */
  datatype Attempt = Takes(n: nat, calls: seq<Call>) | Again | Fatal

  /** What reading brings: data, on which the application makes calls, nothing for now, or the
      end of the connection. */
  datatype ReadResult = Data(calls: seq<Call>) | NotYet | Broken

  /** A step of a run: a call from outside, or an event with the bits epoll reports, what a read
      would bring, and an attempt for each turn eventWrite is allowed to make. */
  datatype Step =
    | App(call: Call)
    | Io(pollin: bool, pollout: bool, error: bool, read: ReadResult, attempts: seq<Attempt>)

  function Release(s: State): State {
    if s.inst == DELETE then s else s.(inst := DELETE, mask := POLLOUT)
  }

  function Expire(s: State): State {
    if s.inst != NORMAL then s else s.(inst := EXPIRED, mask := POLLOUT)
  }

  function Accept(s: State, data: bytes): State {
    if s.inst != NORMAL then s
    else s.(wbuf := s.wbuf + data, accepted := s.accepted + data, mask := s.mask.(pollout := true))
  }

  function Do(s: State, call: Call): State {
    match call
    case Write(data) => Accept(s, data)
    case SetExpired => Expire(s)
    case SetRelease => Release(s)
  }

  function DoAll(s: State, calls: seq<Call>): State
    decreases calls
  {
    if calls == [] then s else DoAll(Do(s, calls[0]), calls[1..])
  }

  /** How many bytes an attempt takes from a non-empty buffer. */
  function Taken(s: State, n: nat): nat {
    if n < 1 then 1 else if n < |s.wbuf| then n else |s.wbuf|
  }

  /** The socket takes up to n bytes. */
  function Sent(s: State, n: nat): State
    requires s.wbuf != []
  {
    var k := Taken(s, n);
    s.(sent := s.sent + s.wbuf[..k], wbuf := s.wbuf[k..])
  }

  /** The buffer has run empty. */
  function Drained(s: State): State {
    if s.inst == EXPIRED then Release(s) else s.(mask := POLLIN)
  }

  /** The write loop of eventWrite. */
  function WriteLoop(s: State, attempts: seq<Attempt>): State
    requires s.wbuf != []
    decreases attempts
  {
    if attempts == [] then s
    else
      match attempts[0]
      case Again => s
      case Fatal => Release(s.(wbuf := [], failed := true))
      case Takes(n, calls) =>
        var s' := DoAll(Sent(s, n), calls);
        if s'.wbuf == [] then Drained(s') else WriteLoop(s', attempts[1..])
  }

  function EventWrite(s: State, attempts: seq<Attempt>): State {
    if s.wbuf == [] then Drained(s) else WriteLoop(s, attempts)
  }

  function EventRead(s: State, read: ReadResult): State {
    match read
    case Data(calls) => DoAll(s, calls)
    case NotYet => s
    case Broken => Release(s)
  }

  /** eventIo up to its last line. */
  function Dispatch(s: State, step: Step): State
    requires step.Io?
  {
    if step.pollin then
      if s.inst == EXPIRED then s.(mask := POLLOUT) else EventRead(s, step.read)
    else if step.pollout then EventWrite(s, step.attempts)
    else if step.error then Release(s)
    else s
  }

  function EventIo(s: State, step: Step): State
    requires step.Io?
  {
    if s.inst == DELETE then s.(gone := true)
    else
      var s' := Dispatch(s, step);
      if s'.inst == DELETE then s'.(gone := true) else s'
  }

  function Next(s: State, step: Step): State {
    if s.gone then s
    else
      match step
      case App(call) => Do(s, call)
      case Io(_, _, _, _, _) => EventIo(s, step)
  }

  function Run(s: State, steps: seq<Step>): State
    decreases steps
  {
    if steps == [] then s else Run(Next(s, steps[0]), steps[1..])
  }

  /** What connecting leaves: POLLIN, whatever `write` has put into the buffer before. */
  function Connected(wbuf: bytes): State {
    State(NORMAL, POLLIN, wbuf, [], wbuf, false, false)
  }

  // ---------------------------------------------------------------- no byte is lost

  /** What was handed to the socket, and then what waits, is what was accepted. */
  predicate Conserved(s: State) {
    s.failed || s.sent + s.wbuf == s.accepted
  }

  /** As long as there is something to do on a live channel, POLLOUT is armed. */
  predicate Armed(s: State) {
    s.inst != DELETE && (s.wbuf != [] || s.inst == EXPIRED) ==> s.mask.pollout
  }

  lemma {:induction false} DoAllKeeps(s: State, calls: seq<Call>)
    requires Conserved(s)
    ensures Conserved(DoAll(s, calls)) && (Armed(s) ==> Armed(DoAll(s, calls)))
    ensures DoAll(s, calls).sent == s.sent && DoAll(s, calls).failed == s.failed
    ensures s.inst == DELETE ==> DoAll(s, calls) == s
    decreases calls
  {
    if calls != [] {
      var call := calls[0];
      if call.Write? {
        Assoc(s.sent, s.wbuf, call.data);
      }
      DoAllKeeps(Do(s, call), calls[1..]);
    }
  }

  lemma SentKeeps(s: State, n: nat)
    requires s.wbuf != []
    ensures Conserved(s) ==> Conserved(Sent(s, n))
    ensures Armed(s) ==> Armed(Sent(s, n))
    ensures |Sent(s, n).wbuf| < |s.wbuf|
  {
    var k := Taken(s, n);
    assert s.wbuf == s.wbuf[..k] + s.wbuf[k..];
    Assoc(s.sent, s.wbuf[..k], s.wbuf[k..]);
  }

  lemma {:induction false} WriteLoopKeeps(s: State, attempts: seq<Attempt>)
    requires Conserved(s) && s.wbuf != []
    ensures Conserved(WriteLoop(s, attempts)) && (Armed(s) ==> Armed(WriteLoop(s, attempts)))
    ensures WriteLoop(s, attempts).failed ==> s.failed || Fatal in attempts
    decreases attempts
  {
    if attempts != [] && attempts[0].Takes? {
      SentKeeps(s, attempts[0].n);
      DoAllKeeps(Sent(s, attempts[0].n), attempts[0].calls);
      var s' := DoAll(Sent(s, attempts[0].n), attempts[0].calls);
      if s'.wbuf != [] {
        WriteLoopKeeps(s', attempts[1..]);
      }
    }
  }

  lemma StepKeeps(s: State, step: Step)
    requires Conserved(s)
    ensures Conserved(Next(s, step)) && (Armed(s) ==> Armed(Next(s, step)))
  {
    if !s.gone {
      match step
      case App(call) =>
        DoAllKeeps(s, [call]);
        assert DoAll(s, [call]) == Do(s, call);
      case Io(pollin, pollout, _, read, attempts) =>
        if pollin && read.Data? {
          DoAllKeeps(s, read.calls);
        } else if pollout && s.wbuf != [] {
          WriteLoopKeeps(s, attempts);
        }
    }
  }

  /** Along every run, sent bytes followed by waiting bytes are the accepted bytes until a write
      error clears the buffer. */
  lemma {:induction false} AlwaysConserved(s: State, steps: seq<Step>)
    requires Conserved(s)
    ensures Conserved(Run(s, steps))
    decreases steps
  {
    if steps != [] {
      StepKeeps(s, steps[0]);
      AlwaysConserved(Next(s, steps[0]), steps[1..]);
    }
  }

  ghost predicate ArmedAlong(s: State) {
    forall steps: seq<Step> :: Armed(Run(s, steps))
  }

  /** POLLOUT is armed whenever there is something to do, in every run from connecting, if and
      only if nothing had been written before the channel was connected. */
  lemma AlwaysArmed(wbuf: bytes)
    ensures ArmedAlong(Connected(wbuf)) <==> wbuf == []
  {
    var s := Connected(wbuf);
    if wbuf == [] {
      forall steps ensures Armed(Run(s, steps)) {
        ArmedStays(s, steps);
      }
    } else {
      assert !Armed(Run(s, []));
    }
  }

  lemma {:induction false} ArmedStays(s: State, steps: seq<Step>)
    requires Conserved(s) && Armed(s)
    ensures Armed(Run(s, steps))
    decreases steps
  {
    if steps != [] {
      StepKeeps(s, steps[0]);
      ArmedStays(Next(s, steps[0]), steps[1..]);
    }
  }

  /** No handler asks for the channel's release. */
  predicate NoRelease(attempts: seq<Attempt>) {
    forall a <- attempts :: a.Takes? ==> SetRelease !in a.calls
  }

  /** An expired channel refuses every call but a release. */
  lemma {:induction false} ExpiredRefuses(s: State, calls: seq<Call>)
    requires s.inst != NORMAL
    ensures DoAll(s, calls) == if SetRelease in calls then Release(s) else s
    decreases calls
  {
    if calls != [] {
      ExpiredRefuses(Do(s, calls[0]), calls[1..]);
      assert SetRelease in calls <==> calls[0] == SetRelease || SetRelease in calls[1..];
    }
  }

  /** An expired channel that an event without a socket error deletes through eventWrite has
      handed over every accepted byte. */
  lemma DeletedWhenDrained(s: State, step: Step)
    requires Conserved(s) && !s.failed && !s.gone && s.inst == EXPIRED
    requires step.Io? && !step.pollin && step.pollout && Fatal !in step.attempts && NoRelease(step.attempts)
    ensures var s' := Next(s, step);
            s'.inst == DELETE ==> s'.sent == s'.accepted == s.accepted && s'.wbuf == []
  {
    if s.wbuf != [] {
      WriteLoopKeeps(s, step.attempts);
      LoopDeletesWhenEmpty(s, step.attempts);
    }
  }

  lemma {:induction false} LoopDeletesWhenEmpty(s: State, attempts: seq<Attempt>)
    requires s.wbuf != [] && s.inst == EXPIRED && Fatal !in attempts && NoRelease(attempts)
    ensures WriteLoop(s, attempts).inst == DELETE ==> WriteLoop(s, attempts).wbuf == []
    ensures WriteLoop(s, attempts).accepted == s.accepted
    decreases attempts
  {
    if attempts != [] && attempts[0].Takes? {
      var s' := Sent(s, attempts[0].n);
      ExpiredRefuses(s', attempts[0].calls);
      if s'.wbuf != [] {
        LoopDeletesWhenEmpty(s', attempts[1..]);
      }
    }
  }

  // ---------------------------------------------------------------- expired channels die

  /** A write event on which the socket takes at least one byte. */
  predicate Productive(step: Step) {
    step.Io? && !step.pollin && step.pollout && step.attempts != [] && step.attempts[0].Takes?
  }

  function CountProductive(steps: seq<Step>): nat {
    if steps == [] then 0
    else (if Productive(steps[0]) then 1 else 0) + CountProductive(steps[1..])
  }

  /** Write events an expired channel needs at most. */
  function Needed(s: State): nat {
    if s.inst == DELETE then 0 else if s.wbuf == [] then 1 else |s.wbuf|
  }

  lemma {:induction false} LoopOnlyDrains(s: State, attempts: seq<Attempt>)
    requires s.wbuf != [] && s.inst != NORMAL
    ensures var s' := WriteLoop(s, attempts);
            && s'.inst != NORMAL && |s'.wbuf| <= |s.wbuf| && s'.gone == s.gone
            && (s'.inst == EXPIRED ==> s.inst == EXPIRED && s'.wbuf != [])
            && (attempts != [] && attempts[0].Takes? ==> s'.inst == DELETE || |s'.wbuf| < |s.wbuf|)
    decreases attempts
  {
    if attempts != [] && attempts[0].Takes? {
      SentKeeps(s, attempts[0].n);
      ExpiredRefuses(Sent(s, attempts[0].n), attempts[0].calls);
      var s' := DoAll(Sent(s, attempts[0].n), attempts[0].calls);
      if s'.wbuf != [] {
        LoopOnlyDrains(s', attempts[1..]);
      }
    }
  }

  lemma ExpiredStep(s: State, step: Step)
    requires s.inst != NORMAL
    ensures var s' := Next(s, step);
            && s'.inst != NORMAL && Needed(s') <= Needed(s)
            && (Productive(step) && Needed(s) > 0 && !s.gone ==> Needed(s') < Needed(s))
            && (s'.gone ==> s.gone || s'.inst == DELETE)
  {
    if !s.gone && s.inst == EXPIRED {
      match step
      case App(_) =>
      case Io(pollin, pollout, _, _, attempts) =>
        if !pollin && pollout && s.wbuf != [] {
          LoopOnlyDrains(s, attempts);
        }
    }
  }

  /** An expired channel with n pending bytes is deleted within max(n, 1) productive write
      events, whatever else happens in between. */
  lemma {:induction false} ExpiredDies(s: State, steps: seq<Step>)
    requires s.inst == EXPIRED || s.inst == DELETE
    requires s.gone ==> s.inst == DELETE
    requires CountProductive(steps) >= Needed(s)
    ensures Run(s, steps).inst == DELETE
    decreases steps
  {
    if steps != [] {
      ExpiredStep(s, steps[0]);
      ExpiredDies(Next(s, steps[0]), steps[1..]);
    }
  }
}
