/** Two channels joined: what one end writes, through any partial writes and any fragmentation,
    is what the other end hands up. */
module EndToEnd {
  import opened Bytes
  import C = Channels
  import L = ChannelRuns
  import P = MsgPackets
  import M = MsgChannels
  import V = RespValue
  import R = RespProofs
  import RespMachine

  /** A channel that has just been connected, after these steps. */
  function Sender(steps: seq<C.Step>): C.State {
    C.Run(C.Connected([]), steps)
  }

  /** What the network has brought to the other end so far. */
  predicate Arrived(s: C.State, chunks: seq<bytes>) {
    chunks != [] && Flatten(chunks) <= s.sent
  }

  lemma SentIsPrefix(steps: seq<C.Step>)
    requires !Sender(steps).failed
    ensures var s := Sender(steps); s.sent + s.wbuf == L.Written(steps) && s.sent <= L.Written(steps)
  {
    L.WrittenIsAccepted(steps);
  }

  lemma {:induction false} WholeOfAll(pks: seq<P.Packet>)
    ensures M.Whole(pks, |P.PrintAll(pks)|) == |pks|
    decreases pks
  {
    if pks != [] {
      WholeOfAll(pks[1..]);
    }
  }

  lemma PartPrints(vs: seq<V.Value>, k: nat)
    requires k <= |vs|
    ensures |V.PrintAll(vs[..k])| <= |V.PrintAll(vs)|
  {
    assert vs == vs[..k] + vs[k..];
    V.PrintAllConcat(vs[..k], vs[k..]);
  }

  lemma WholeOfAllValues(vs: seq<V.Value>, k: nat)
    requires k == R.Whole(vs, |V.PrintAll(vs)|)
    ensures k == |vs|
  {
    if k < |vs| {
      PartPrints(vs, k + 1);
    }
  }

  /** Message packets that have been written to a channel arrive in order, none twice and none made up:
      after any run of the sender and any fragments the receiver has handed up exactly those
      packets whose last byte has arrived. */
  lemma PacketsArrive(steps: seq<C.Step>, pks: seq<P.Packet>, chunks: seq<bytes>)
    requires forall pk <- pks :: M.Framed(pk)
    requires !Sender(steps).failed && L.Written(steps) == P.PrintAll(pks)
    requires Arrived(Sender(steps), chunks)
    ensures var r := M.FeedAll(M.INIT, chunks);
            !r.dead && r.out == pks[..M.Whole(pks, |Flatten(chunks)|)]
    ensures Sender(steps).wbuf == [] && Flatten(chunks) == Sender(steps).sent ==>
              M.FeedAll(M.INIT, chunks).out == pks
  {
    var s := Sender(steps);
    SentIsPrefix(steps);
    M.AnyPrefixAnyCut(pks, chunks);
    if s.wbuf == [] && Flatten(chunks) == s.sent {
      assert s.sent == L.Written(steps);
      WholeOfAll(pks);
    }
  }

  /** The same for RESP values, popped after every read. */
  lemma ValuesArrive(steps: seq<C.Step>, vs: seq<V.Value>, chunks: seq<bytes>)
    requires forall v <- vs :: V.Constructible(v) && V.NoEmpties(v)
    requires !Sender(steps).failed && L.Written(steps) == V.PrintAll(vs)
    requires Arrived(Sender(steps), chunks)
    ensures R.FeedAndPop(RespMachine.INIT, chunks) == Some(vs[..R.Whole(vs, |Flatten(chunks)|)])
    ensures Sender(steps).wbuf == [] && Flatten(chunks) == Sender(steps).sent ==>
              R.FeedAndPop(RespMachine.INIT, chunks) == Some(vs)
  {
    var s := Sender(steps);
    SentIsPrefix(steps);
    R.ChannelDelivers(vs, chunks);
    if s.wbuf == [] && Flatten(chunks) == s.sent {
      assert s.sent == L.Written(steps);
      WholeOfAllValues(vs, R.Whole(vs, |Flatten(chunks)|));
      assert vs[..|vs|] == vs;
    }
  }

  lemma {:induction false} RunSnoc(s: C.State, steps: seq<C.Step>, step: C.Step)
    ensures C.Run(s, steps + [step]) == C.Next(C.Run(s, steps), step)
    decreases steps
  {
    if steps == [] {
      assert steps + [step] == [step];
      assert C.Run(C.Next(s, step), []) == C.Next(s, step);
    } else {
      assert (steps + [step])[1..] == steps[1..] + [step];
      RunSnoc(C.Next(s, steps[0]), steps[1..], step);
    }
  }

  /** A clean end: when a write event without an error deletes an expired channel, the receiver
      that has got all that was sent has handed up every packet that was written. */
  lemma CleanEnd(steps: seq<C.Step>, step: C.Step, pks: seq<P.Packet>, chunks: seq<bytes>)
    requires forall pk <- pks :: M.Framed(pk)
    requires var s := Sender(steps);
             s.inst == C.EXPIRED && !s.failed && !s.gone && L.Written(steps) == P.PrintAll(pks)
    requires step.Io? && !step.pollin && step.pollout && C.Fatal !in step.attempts && C.NoRelease(step.attempts)
    requires Sender(steps + [step]).inst == C.DELETE
    requires chunks != [] && Flatten(chunks) == Sender(steps + [step]).sent
    ensures M.FeedAll(M.INIT, chunks).out == pks
  {
    var s, t := Sender(steps), Sender(steps + [step]);
    RunSnoc(C.Connected([]), steps, step);
    L.WrittenIsAccepted(steps);
    C.AlwaysConserved(C.Connected([]), steps);
    C.DeletedWhenDrained(s, step);
    M.AnyPrefixAnyCut(pks, chunks);
    WholeOfAll(pks);
  }
}
