/** ChannelInterface, updated in place; its write buffer is an IoBuffer. */
module ChannelIo {
  import opened Bytes
  import opened IoBuffers
  import opened Channels
  import MsgPackets

  class Channel {
    var inst: Inst
    var mask: Mask
    const wbuf: IoBuffer
    var failed: bool
    var gone: bool
    /** What the socket has been given, and what `write` has accepted. */
    ghost var sent: bytes
    ghost var accepted: bytes

    ghost predicate Valid()
      reads this, wbuf, wbuf.data
    {
      wbuf.Valid()
    }

    ghost function View(): State
      reads this, wbuf, wbuf.data
      requires Valid()
    {
      State(inst, mask, wbuf.Contents(), sent, accepted, failed, gone)
    }

    /** A channel that has just been connected. */
    constructor ()
      ensures Valid() && View() == Connected([]) && fresh(wbuf) && fresh(wbuf.data)
    {
      inst, mask, failed, gone := NORMAL, POLLIN, false, false;
      sent, accepted := [], [];
      wbuf := new IoBuffer(1024 * 10, 1024 * 5);
    }

    method SetExpired()
      requires Valid()
      modifies this`inst, this`mask
      ensures View() == Expire(old(View()))
    {
      if inst == EXPIRED || inst == DELETE {
        return;
      }
      inst := EXPIRED;
      mask := POLLOUT;
    }

    method SetRelease()
      requires Valid()
      modifies this`inst, this`mask
      ensures View() == Release(old(View()))
    {
      if inst == DELETE {
        return;
      }
      inst := DELETE;
      mask := POLLOUT;
    }

    method Write(data: bytes, moves: bool) returns (ok: bool)
      requires Valid()
      modifies this`mask, this`accepted, wbuf, wbuf.data
      ensures Valid() && (wbuf.data == old(wbuf.data) || fresh(wbuf.data))
      ensures View() == Accept(old(View()), data) && ok == (old(inst) == NORMAL)
    {
      if inst == EXPIRED || inst == DELETE {
        return false;
      }
      var _ := wbuf.WriteToBuffer(data, moves);
      accepted := accepted + data;
      mask := mask.(pollout := true);
      return true;
    }

    /** write of a message packet, which appends its printed form. */
    method WritePacket(pk: MsgPackets.Packet, moves: bool) returns (ok: bool)
      requires Valid()
      modifies this`mask, this`accepted, wbuf, wbuf.data
      ensures Valid() && (wbuf.data == old(wbuf.data) || fresh(wbuf.data))
      ensures View() == Accept(old(View()), MsgPackets.Print(pk)) && ok == (old(inst) == NORMAL)
    {
      if inst == EXPIRED || inst == DELETE {
        return false;
      }
      var sum := MsgPackets.Write(pk, wbuf, moves);
      accepted := accepted + MsgPackets.Print(pk);
      if sum <= 0 {
        return false;
      }
      mask := mask.(pollout := true);
      return true;
    }

    method EventError()
      requires Valid()
      modifies this`inst, this`mask
      ensures View() == Release(old(View()))
    {
      SetRelease();
    }

    /** `if ( m_wbuf->isEmpty() )`: release or go back to reading. */
    method WhenEmpty()
      requires Valid()
      modifies this`inst, this`mask
      ensures View() == Drained(old(View()))
    {
      if inst == EXPIRED {
        SetRelease();
      } else {
        mask := POLLIN;
      }
    }

    method MakeCall(call: Call, moves: bool)
      requires Valid()
      modifies this, wbuf, wbuf.data
      ensures Valid() && (wbuf.data == old(wbuf.data) || fresh(wbuf.data))
      ensures View() == Do(old(View()), call)
    {
      match call {
        case Write(data) =>
          var _ := Write(data, moves);
        case SetExpired =>
          SetExpired();
        case SetRelease =>
          SetRelease();
      }
    }

    /** What a handler does. */
    method MakeCalls(calls: seq<Call>, moves: bool)
      requires Valid()
      modifies this, wbuf, wbuf.data
      ensures Valid() && (wbuf.data == old(wbuf.data) || fresh(wbuf.data))
      ensures View() == DoAll(old(View()), calls)
    {
      ghost var goal := DoAll(View(), calls);
      var i := 0;
      assert calls[0..] == calls;
      while i < |calls|
        invariant 0 <= i <= |calls|
        invariant Valid() && (wbuf.data == old(wbuf.data) || fresh(wbuf.data))
        invariant goal == DoAll(View(), calls[i..])
      {
        assert calls[i..][1..] == calls[i + 1..];
        MakeCall(calls[i], moves);
        i := i + 1;
      }
    }

    /** writeToFile, when the socket takes up to n bytes. */
    method WriteToFile(n: nat)
      requires Valid() && wbuf.Contents() != []
      modifies this`sent, wbuf`posRead, wbuf`consumed
      ensures Valid() && View() == Sent(old(View()), n)
    {
      var size := wbuf.ReadableSize();
      var cplen := if n < 1 then 1 else if n < size then n else size;
      sent := sent + wbuf.Contents()[..cplen];
      wbuf.MoveRead(cplen);
    }

    /** The turn of the write loop in which the socket takes bytes; the flag says whether the
        buffer has run empty. */
    method TakeTurn(n: nat, calls: seq<Call>, moves: bool) returns (empty: bool)
      requires Valid() && wbuf.Contents() != []
      modifies this, wbuf, wbuf.data
      ensures Valid() && (wbuf.data == old(wbuf.data) || fresh(wbuf.data))
      ensures var s := DoAll(Sent(old(View()), n), calls);
              empty == (s.wbuf == []) && View() == if empty then Drained(s) else s
    {
      WriteToFile(n);
      MakeCalls(calls, moves);
      wbuf.Flush();
      empty := wbuf.IsEmpty();
      if empty {
        WhenEmpty();
      }
    }

    method EventWrite(attempts: seq<Attempt>, moves: bool)
      requires Valid()
      modifies this, wbuf, wbuf.data
      ensures Valid() && (wbuf.data == old(wbuf.data) || fresh(wbuf.data))
      ensures View() == Channels.EventWrite(old(View()), attempts)
    {
      if wbuf.IsEmpty() {
        WhenEmpty();
        return;
      }
      ghost var goal := WriteLoop(View(), attempts);
      var i := 0;
      while i < |attempts|
        invariant 0 <= i <= |attempts|
        invariant Valid() && (wbuf.data == old(wbuf.data) || fresh(wbuf.data))
        invariant wbuf.Contents() != []
        invariant goal == WriteLoop(View(), attempts[i..])
      {
        var attempt := attempts[i];
        assert attempts[i..][1..] == attempts[i + 1..];
        i := i + 1;
        match attempt {
          case Takes(n, calls) =>
            var empty := TakeTurn(n, calls, moves);
            if empty {
              return;
            }
          case Again =>
            return;
          case Fatal =>
            wbuf.Clear();
            failed := true;
            EventError();
            return;
        }
      }
    }

    method EventRead(read: ReadResult, moves: bool)
      requires Valid()
      modifies this, wbuf, wbuf.data
      ensures Valid() && (wbuf.data == old(wbuf.data) || fresh(wbuf.data))
      ensures View() == Channels.EventRead(old(View()), read)
    {
      match read {
        case Data(calls) =>
          MakeCalls(calls, moves);
        case NotYet =>
        case Broken =>
          EventError();
      }
    }

    method ReleaseInstance()
      modifies this`gone
      ensures gone
    {
      gone := true;
    }

    method EventIo(pollin: bool, pollout: bool, error: bool, read: ReadResult, attempts: seq<Attempt>,
                   moves: bool)
      requires Valid()
      modifies this, wbuf, wbuf.data
      ensures Valid() && (wbuf.data == old(wbuf.data) || fresh(wbuf.data))
      ensures View() == Channels.EventIo(old(View()), Io(pollin, pollout, error, read, attempts))
    {
      if inst == DELETE {
        ReleaseInstance();
        return;
      }
      ghost var step := Io(pollin, pollout, error, read, attempts);
      if pollin {
        if inst == EXPIRED {
          mask := POLLOUT;
        } else {
          EventRead(read, moves);
        }
      } else if pollout {
        EventWrite(attempts, moves);
      } else if error {
        EventError();
      }
      assert View() == Dispatch(old(View()), step);
      if inst == DELETE {
        ReleaseInstance();
      }
    }
  }
}
