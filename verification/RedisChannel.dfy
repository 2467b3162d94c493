/** The reading half of a RedisChannel: its own buffer, and the reader behind it. */
module RedisChannels {
  import opened Bytes
  import opened IoBuffers
  import opened RespValue
  import opened RespMachine
  import opened RespReader

  class RedisChannel {
    const rbuf: IoBuffer
    const reader: Reader
    /** What hookReadPacket has been called with. */
    var delivered: seq<Value>

    ghost predicate Valid()
      reads this, rbuf, rbuf.data, reader, reader.buf, reader.buf.data
    {
      rbuf.Valid() && reader.Valid() && rbuf != reader.buf && rbuf.data != reader.buf.data
    }

    /** The blocks are the same as before or new. */
    twostate predicate Moved()
      reads rbuf, reader.buf
    {
      && (rbuf.data == old(rbuf.data) || fresh(rbuf.data))
      && (reader.buf.data == old(reader.buf.data) || fresh(reader.buf.data))
    }

    constructor (bufSize: nat)
      requires 0 < bufSize
      ensures Valid() && rbuf.Contents() == [] && reader.View() == INIT && delivered == []
      ensures fresh(rbuf) && fresh(rbuf.data) && fresh(reader) && fresh(reader.buf) && fresh(reader.buf.data)
    {
      rbuf := new IoBuffer(bufSize, 1024 * 5);
      reader := new Reader();
      delivered := [];
    }

    /** What the reader and the channel's buffer hold after the bytes of the buffer were parsed. An
        exception leaves the bytes in the buffer, so that they will be parsed again. */
    ghost predicate Parsed(out: Outcome, bytes: bytes, r: Ret)
      reads this, rbuf, rbuf.data, reader, reader.buf, reader.buf.data
      requires Valid()
    {
      match out
      case Ok(m) => reader.View() == m && rbuf.Contents() == [] && r == Size(|m.core.cont|)
      case Cleared => reader.View() == INIT && rbuf.Contents() == [] && r == MinusOne
      case Exception(m) => reader.View() == m && rbuf.Contents() == bytes && r == Raised
      case Undefined => rbuf.Contents() == bytes && r == Lost
    }

    /** parse(IoBuffer&) */
    method Parse(moves: bool) returns (r: Ret)
      requires Valid()
      modifies rbuf`posRead, rbuf`consumed, reader, reader.buf, reader.buf.data
      ensures Valid() && Moved() && rbuf.data == old(rbuf.data)
      ensures Parsed(Feed(old(reader.View()), old(rbuf.Contents())), old(rbuf.Contents()), r)
    {
      var b := rbuf.data[rbuf.posRead..rbuf.posWrite];
      assert b == rbuf.Contents();
      r := reader.Parse(b, moves);
      assert rbuf.Contents() == b;
      if r.Size? || r.MinusOne? {
        rbuf.MoveRead(|b|);
      }
    }

    /** eventReadData: what has come in is parsed, and every finished value is handed up. */
    method EventReadData(moves: bool) returns (r: Ret)
      requires Valid()
      modifies this, rbuf`posRead, rbuf`consumed, reader, reader.buf, reader.buf.data
      ensures Valid() && Moved() && rbuf.data == old(rbuf.data)
      ensures match Feed(old(reader.View()), old(rbuf.Contents()))
              case Ok(m) =>
                && reader.View() == State(m.core.(cont := []), m.buf) && rbuf.Contents() == []
                && delivered == old(delivered) + m.core.cont && r == Size(|m.core.cont|)
              case other => Parsed(other, old(rbuf.Contents()), r) && delivered == old(delivered)
    {
      r := Parse(moves);
      if r.Size? && r.n > 0 {
        PopAll();
      } else {
        assert delivered + [] == delivered;
      }
    }

    /** `while ( m_reader.pop(rpk.m_body) ) hookReadPacket(...)` */
    method PopAll()
      requires Valid()
      modifies this`delivered, reader`cont
      ensures Valid() && reader.cont == [] && delivered == old(delivered) + old(reader.cont)
    {
      var more := true;
      while more
        invariant Valid() && delivered + reader.cont == old(delivered) + old(reader.cont)
        invariant more || reader.cont == []
        decreases if more then 1 + |reader.cont| else 0
      {
        ghost var left := reader.cont;
        var v := reader.Pop();
        more := v.Some?;
        if more {
          assert left == [v.value] + reader.cont;
          delivered := delivered + [v.value];
        }
      }
    }

    /** A read event that brings `chunk`. */
    method Receive(chunk: bytes, moves: bool) returns (r: Ret)
      requires Valid()
      modifies this, rbuf, rbuf.data, reader, reader.buf, reader.buf.data
      ensures Valid() && Moved()
      ensures match Feed(old(reader.View()), old(rbuf.Contents()) + chunk)
              case Ok(m) =>
                && reader.View() == State(m.core.(cont := []), m.buf) && rbuf.Contents() == []
                && delivered == old(delivered) + m.core.cont && r == Size(|m.core.cont|)
              case other => Parsed(other, old(rbuf.Contents()) + chunk, r) && delivered == old(delivered)
    {
      var _ := rbuf.WriteToBuffer(chunk, moves);
      r := EventReadData(moves);
    }
  }
}
