/** The receiving half of a MsgChannel, updated in place. */
module MsgReceivers {
  import opened Bytes
  import opened IoBuffers
  import opened Tokenizers
  import opened MsgPackets
  import opened MsgChannels

  class MsgReceiver {
    var phase: Phase
    var recv: Head
    var destBodyLen: nat
    var recvBody: bytes
    const rbuf: IoBuffer
    /** The packets hookReadPacket has been called with. */
    var delivered: seq<Packet>
    var released: bool

    ghost predicate Valid()
      reads this, rbuf, rbuf.data
    {
      rbuf.Valid() && MsgChannels.Valid(View())
    }

    ghost function View(): State
      reads this, rbuf, rbuf.data
      requires rbuf.Valid()
    {
      State(phase, recv, destBodyLen, recvBody, rbuf.Contents(), delivered, released)
    }

    constructor (bufSize: nat)
      requires 0 < bufSize
      ensures Valid() && View() == INIT && fresh(rbuf) && fresh(rbuf.data)
    {
      phase, recv, destBodyLen, recvBody := START, NO_HEAD, 0, [];
      delivered, released := [], false;
      rbuf := new IoBuffer(bufSize, 1024 * 5);
    }

    method EventError()
      modifies this`released
      ensures released
    {
      released := true;
    }

    /** RecvState::HEADER */
    method ReadHeader() returns (more: bool)
      requires Valid() && phase == HEADER
      modifies this, rbuf`posRead, rbuf`consumed
      ensures Valid() && (View(), more) == HeaderTurn(old(View()))
    {
      if rbuf.ReadableSize() < MIN_HEADER_SIZE {
        return false;
      }
      var b := rbuf.data[rbuf.posRead..rbuf.posWrite];
      assert b == rbuf.Contents();
      var eol := FindLine(b);
      if eol.None? {
        if |b| > MAX_HEADER_SIZE {
          EventError();
          phase := START;
        }
        return false;
      }
      more := CutHeader(b[..eol.value]);
    }

    /** The header line has been found; it is parsed and leaves the buffer with its CRLF. */
    method CutHeader(line: bytes) returns (more: bool)
      requires Valid() && phase == HEADER
      requires rbuf.ReadableSize() >= MIN_HEADER_SIZE
      requires |line| == FindCrlf(rbuf.Contents(), 0) < rbuf.ReadableSize()
      requires line == rbuf.Contents()[..|line|]
      modifies this, rbuf`posRead, rbuf`consumed
      ensures Valid() && (View(), more) == HeaderTurn(old(View()))
    {
      var head := SetHeader(line);
      LineFound(View());
      rbuf.MoveRead(|line| + 2);
      more := TakeHeader(head);
    }

    /** What setHeader has made of the line decides how to go on. */
    method TakeHeader(head: Option<Head>) returns (more: bool)
      requires Valid() && phase == HEADER
      modifies this
      ensures Valid() && (View(), more) == MsgChannels.TakeHeader(old(View()), head, rbuf.Contents())
    {
      match head {
        case None =>
          EventError();
          phase := START;
          return false;
        case Some(h) =>
          recv := h;
          if h.bodyLen > 0 {
            destBodyLen := h.bodyLen;
            phase := BODY;
          } else {
            delivered := delivered + [WithBody(h, [])];
            phase := START;
          }
          return true;
      }
    }

    /** RecvState::BODY and RecvState::DONE */
    method ReadBody() returns (more: bool)
      requires Valid() && phase == BODY
      modifies this, rbuf`posRead, rbuf`consumed
      ensures Valid() && (View(), more) == BodyTurn(old(View()))
    {
      var left := destBodyLen - |recvBody|;
      var cplen := if rbuf.ReadableSize() < left then rbuf.ReadableSize() else left;
      ghost var b := rbuf.Contents();
      if cplen > 0 {
        var piece := rbuf.ReadFromBuffer(cplen);
        assert piece == b[..cplen] && rbuf.Contents() == b[cplen..];
        recvBody := recvBody + piece;
      } else {
        LastPiece(b, recvBody);
      }
      if |recvBody| != destBodyLen {
        return false;
      }
      delivered := delivered + [WithBody(recv, recvBody)];
      phase := START;
      return true;
    }

    /** One turn of the loop of eventReadData. */
    method TurnOnce() returns (more: bool)
      requires Valid()
      modifies this, rbuf`posRead, rbuf`consumed
      ensures Valid() && (View(), more) == Turn(old(View()))
    {
      if phase == START {
        recv, recvBody, destBodyLen := NO_HEAD, [], 0;
        phase := HEADER;
      }
      if phase == HEADER {
        more := ReadHeader();
      } else {
        more := ReadBody();
      }
    }

    method EventReadData()
      requires Valid()
      modifies this, rbuf`posRead, rbuf`consumed
      ensures Valid() && View() == Run(old(View()))
    {
      ghost var goal := Run(View());
      var more := true;
      while more
        invariant Valid()
        invariant goal == if more then Run(View()) else View()
        decreases if more then 1 + |rbuf.Contents()| else 0
      {
        RunStep(View());
        more := TurnOnce();
      }
    }

    /** A read event that brings `chunk`. */
    method Receive(chunk: bytes, moves: bool)
      requires Valid()
      modifies this, rbuf, rbuf.data
      ensures Valid() && (rbuf.data == old(rbuf.data) || fresh(rbuf.data))
      ensures View() == Feed(old(View()), chunk)
    {
      if released {
        return;
      }
      ghost var before := View();
      if chunk != [] {
        var _ := rbuf.WriteToBuffer(chunk, moves);
      } else {
        assert rbuf.Contents() + chunk == rbuf.Contents();
      }
      assert View() == Extend(before, chunk);
      EventReadData();
    }
  }

  lemma LineFound(s: State)
    requires s.phase == HEADER && s.got == []
    requires |s.buf| >= MIN_HEADER_SIZE && FindCrlf(s.buf, 0) < |s.buf|
    ensures var k := FindCrlf(s.buf, 0);
            var rest := s.buf[k + 2..];
            HeaderTurn(s) == MsgChannels.TakeHeader(s.(buf := rest), ParseHeader(s.buf[..k]), rest)
  {
  }

  lemma LastPiece(b: bytes, got: bytes)
    ensures b[..0] == [] && b[0..] == b && got + b[..0] == got
  {
  }

  lemma RunStep(st: State)
    requires MsgChannels.Valid(st)
    ensures Run(st) == if Turn(st).1 then Run(Turn(st).0) else Turn(st).0
  {
  }
}
