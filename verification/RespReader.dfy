/** redis::Reader: the queue, the stack and the buffer it works on, updated in place. */
module RespReader {
  import opened Bytes
  import opened Decimal
  import opened IoBuffers
  import opened LineSearch
  import opened RespValue
  import opened RespMachine
  import M = RespMachine

  /** What the parsing methods return: the queue size, -1, or not at all. */
  datatype Ret = Size(n: nat) | MinusOne | Raised | Lost

  class Reader {
    var cont: seq<Value>
    var status: seq<Status>
    const buf: IoBuffer

    ghost predicate Valid()
      reads this, buf, buf.data
    {
      buf.Valid()
    }

    ghost function Now(): Core
      reads this
    {
      Core(cont, status)
    }

    ghost function View(): State
      reads this, buf, buf.data
      requires Valid()
    {
      State(Now(), buf.Contents())
    }

    /** The reader has done `act`, leaving `rest` in the buffer. */
    ghost predicate Did(act: Act, rest: bytes, r: Ret)
      reads this, buf, buf.data
      requires Valid()
    {
      match act
      case Done(c) => View() == State(c, rest) && r == Size(|c.cont|)
      case Failed => View() == INIT && r == MinusOne
      case Threw(c) => View() == State(c, rest) && r == Raised
    }

    constructor ()
      ensures Valid() && fresh(buf) && fresh(buf.data)
      ensures View() == INIT
    {
      cont, status := [], [];
      buf := new IoBuffer(1024 * 10, 1024 * 5);
    }

    method Clear()
      requires Valid()
      modifies this, buf`posRead, buf`posWrite, buf.data
      ensures Valid() && View() == INIT && buf.data == old(buf.data)
    {
      status := [];
      cont := [];
      buf.Clear();
    }

    /** pop(): the oldest finished value. */
    method Pop() returns (out: Option<Value>)
      requires Valid()
      modifies this`cont
      ensures Valid()
      ensures out == if old(cont) == [] then None else Some(old(cont)[0])
      ensures cont == if old(cont) == [] then [] else old(cont)[1..]
    {
      if cont == [] {
        return None;
      }
      out := Some(cont[0]);
      cont := cont[1..];
    }

    method Rollback() returns (r: Ret)
      requires Valid() && status != []
      modifies this`cont, this`status
      ensures Valid() && Did(M.Rollback(old(Now())), old(buf.Contents()), r)
      decreases |status|
    {
      var top := status[|status| - 1];
      if top.index != top.count {
        return Size(|cont|);
      }
      status := status[..|status| - 1];
      if status == [] {
        cont := cont + [top.node];
        return Size(|cont|);
      }
      var top2 := status[|status| - 1];
      if !(top2.node.Array? && top2.index < |top2.node.items|) {
        return Raised;
      }
      top2 := top2.(index := top2.index + 1, node := Array(top2.node.items[top2.index := top.node]));
      status := status[..|status| - 1] + [top2];
      if top2.index == top2.count {
        r := Rollback();
      } else {
        r := Size(|cont|);
      }
    }

    method AppendToTop(v: Value) returns (r: Ret)
      requires Valid()
      modifies this, buf`posRead, buf`posWrite, buf.data
      ensures Valid() && buf.data == old(buf.data)
      ensures Did(M.AppendToTop(old(Now()), v), old(buf.Contents()), r)
    {
      if status == [] {
        cont := cont + [v];
        return Size(|cont|);
      }
      var top := status[|status| - 1];
      if !(top.node.Array? || top.node.NullArray?) {
        Clear();
        return MinusOne;
      }
      if !(top.node.Array? && top.index < |top.node.items|) {
        return Raised;
      }
      top := top.(index := top.index + 1, node := Array(top.node.items[top.index := v]));
      status := status[..|status| - 1] + [top];
      if top.index == top.count {
        r := Rollback();
      } else {
        r := Size(|cont|);
      }
    }

    method ParseBulk2(line: bytes) returns (r: Ret)
      requires Valid() && status != []
      modifies this, buf`posRead, buf`posWrite, buf.data
      ensures Valid() && buf.data == old(buf.data)
      ensures Did(M.ParseBulk2(old(Now()), line), old(buf.Contents()), r)
    {
      var top := status[|status| - 1];
      if top.count != |line| {
        Clear();
        return MinusOne;
      }
      status := status[..|status| - 1];
      r := AppendToTop(Bulk(line));
    }

    method ParseLine(line: bytes) returns (r: Ret)
      requires Valid()
      modifies this, buf`posRead, buf`posWrite, buf.data
      ensures Valid() && buf.data == old(buf.data)
      ensures Did(M.ParseLine(old(Now()), line), old(buf.Contents()), r)
    {
      if BulkPending(Core(cont, status)) {
        r := ParseBulk2(line);
        return;
      }
      if |line| < 2 {
        Clear();
        return MinusOne;
      }
      var arg := line[1..];
      if line[0] == COLON_TAG {
        r := AppendToTop(Integer(StrToLL(arg)));
      } else if line[0] == PLUS_TAG {
        if !OneLine(arg) {
          return Raised;
        }
        r := AppendToTop(Simple(arg));
      } else if line[0] == MINUS_TAG {
        if !OneLine(arg) {
          return Raised;
        }
        r := AppendToTop(Error(arg));
      } else if line[0] == DOLLAR_TAG {
        var n := StrToLL(arg);
        if n > -1 {
          status := status + [Status(0, n, NullBulk)];
          return Size(|cont|);
        }
        r := AppendToTop(NullBulk);
      } else if line[0] == STAR_TAG {
        var n := StrToLL(arg);
        if n > -1 {
          status := status + [Status(0, n, Array(Zeros(n)))];
          return Size(|cont|);
        }
        r := AppendToTop(NullArray);
      } else {
        Clear();
        return MinusOne;
      }
    }

    ghost predicate Turned(before: State, turn: M.Turn, more: bool, r: Ret)
      reads this, buf, buf.data
      requires Valid()
    {
      match turn
      case Stall => !more && View() == before && r == Size(|cont|)
      case Overran => !more && View() == before && r == Lost
      case Took(act, rest) => Did(act, rest, r) && more == act.Done?
    }

    /** A bulk string that has come in leaves the buffer with its CRLF. */
    method TakeBulk(n: nat) returns (line: bytes)
      requires Valid() && n + 2 <= buf.ReadableSize()
      modifies buf`posRead, buf`consumed
      ensures Valid() && View() == State(old(Now()), old(buf.Contents())[n + 2..])
      ensures line == old(buf.Contents())[..n]
    {
      ghost var all := buf.Contents();
      line := buf.ReadFromBuffer(n);
      assert line == all[..n] && buf.Contents() == all[n..];
      buf.MoveRead(2);
      assert all[n..][2..] == all[n + 2..];
    }

    /** A turn of the loop of `parse` while a bulk string is pending. */
    method TurnBulk() returns (more: bool, r: Ret)
      requires Valid() && BulkPending(Now())
      modifies this, buf`posRead, buf`posWrite, buf`consumed, buf.data
      ensures Valid() && buf.data == old(buf.data)
      ensures Turned(old(View()), Step(old(View())), more, r)
      ensures more ==> |buf.Contents()| < |old(buf.Contents())|
    {
      ghost var before := View();
      var n := status[|status| - 1].count;
      if buf.ReadableSize() < n + 2 {
        return false, Size(|cont|);
      }
      var line := TakeBulk(n);
      ghost var act, rest := M.ParseBulk2(before.core, line), buf.Contents();
      assert Step(before) == Took(act, rest);
      r := ParseBulk2(line);
      more := r.Size?;
      assert Turned(before, Took(act, rest), more, r);
    }

    /** Any other turn: a line is looked for and parsed. */
    method TurnLine() returns (more: bool, r: Ret)
      requires Valid() && !BulkPending(Now())
      modifies this, buf`posRead, buf`posWrite, buf`consumed, buf.data
      ensures Valid() && buf.data == old(buf.data)
      ensures Turned(old(View()), Step(old(View())), more, r)
      ensures more ==> |buf.Contents()| < |old(buf.Contents())|
    {
      ghost var before := View();
      var line := buf.GetLine();
      match line {
        case Line(text, _) =>
          ghost var act, rest := M.ParseLine(before.core, text), buf.Contents();
          assert Step(before) == Took(act, rest) && Now() == before.core;
          r := ParseLine(text);
          assert Did(act, rest, r);
          more := r.Size?;
          assert Turned(before, Took(act, rest), more, r);
        case NoLine =>
          more, r := false, Size(|cont|);
        case Overrun =>
          more, r := false, Lost;
      }
    }

    /** The reader has ended a call of `parse` with this outcome. */
    ghost predicate Ended(out: Outcome, r: Ret)
      reads this, buf, buf.data
      requires Valid()
    {
      match out
      case Ok(st) => View() == st && r == Size(|cont|)
      case Cleared => View() == INIT && r == MinusOne
      case Exception(st) => View() == st && r == Raised
      case Undefined => r == Lost
    }

    /** The loop of parse. */
    method Work() returns (r: Ret)
      requires Valid()
      modifies this, buf`posRead, buf`posWrite, buf`consumed, buf.data
      ensures Valid() && buf.data == old(buf.data)
      ensures Ended(Run(old(View())), r)
    {
      ghost var goal := Run(View());
      var more := true;
      r := Lost;
      while more
        invariant Valid() && buf.data == old(buf.data)
        invariant if more then Run(View()) == goal else Ended(goal, r)
        decreases if more then 1 + |buf.Contents()| else 0
      {
        if BulkPending(Core(cont, status)) {
          more, r := TurnBulk();
        } else {
          more, r := TurnLine();
        }
      }
    }

    /** parse(buf, blen) computes `Feed`, whether or not the buffer has to move. */
    method Parse(chunk: bytes, moves: bool) returns (r: Ret)
      requires Valid()
      modifies this, buf, buf.data
      ensures Valid() && (buf.data == old(buf.data) || fresh(buf.data))
      ensures Ended(Feed(old(View()), chunk), r)
    {
      if chunk != [] {
        var _ := buf.WriteToBuffer(chunk, moves);
      } else {
        assert buf.Contents() + chunk == buf.Contents();
      }
      r := Work();
    }
  }
}
