/**
 * The growable cursor buffer (pw_iobuffer).
 *
 *   |---DUMMY---|---READABLE---|---WRITABLE---|
 *   0           posRead        posWrite       size
 *
 * `Contents()` is the byte queue it stands for. The pointers of the C++ class are
 * indices from `m_buf`; a reallocation that moves the block is the flag `moves`.
 */
module IoBuffers {
  import opened Bytes
  import opened LineSearch

  lemma Multiple(n: nat, d: nat)
    requires 0 < d
    ensures n < (n / d + 1) * d <= n + d
  {
    assert n == n / d * d + n % d;
    assert (n / d + 1) * d == n / d * d + d;
  }

  class IoBuffer {
    var data: array<byte>
    var size: nat
    var posRead: nat
    var posWrite: nat
    const delta: nat

    /** Bytes ever consumed by a reader, and bytes moved by `isFlush`-guarded compactions. */
    ghost var consumed: nat
    ghost var moved: nat

    ghost predicate Valid()
      reads this, data
    {
      && data.Length == size + 1
      && 0 < size
      && 0 < delta
      && posRead <= posWrite <= size
      && moved + 2 * posRead <= 2 * consumed
    }

    ghost function Contents(): (s: bytes)
      reads this, data
      requires Valid()
      ensures |s| == posWrite - posRead
      ensures forall k :: 0 <= k < |s| ==> s[k] == data[posRead + k]
    {
      data[posRead..posWrite]
    }

    constructor (initSize: nat, deltaSize: nat)
      requires 0 < initSize
      ensures Valid() && fresh(data)
      ensures Contents() == [] && size == initSize
      ensures delta == if deltaSize == 0 then 512 else deltaSize
    {
      data := new byte[initSize + 1];
      size, posRead, posWrite := initSize, 0, 0;
      delta := if deltaSize == 0 then 512 else deltaSize;
      consumed, moved := 0, 0;
    }

    function DummySize(): nat
      reads this
    {
      posRead
    }

    function ReadableSize(): nat
      reads this
      requires posRead <= posWrite
    {
      posWrite - posRead
    }

    function WriteableSize(): nat
      reads this
      requires posWrite <= size
    {
      size - posWrite
    }

    predicate IsFlush()
      reads this
    {
      DummySize() >= size / 2
    }

    predicate IsEmpty()
      reads this
    {
      posRead == posWrite
    }

    method Flush()
      requires Valid()
      modifies this`posRead, this`posWrite, data
      ensures Valid() && Contents() == old(Contents())
      ensures posRead == 0
    {
      if posRead == 0 {
        return;
      }
      var n := ReadableSize();
      if n > 0 {
        ghost var before := Contents();
        forall i | 0 <= i < n {
          data[i] := data[posRead + i];
        }
        posRead, posWrite := 0, n;
        assert Contents() == before;
      } else {
        posRead, posWrite := 0, 0;
      }
    }

    /** `if ( isFlush() ) flush();`: what it moves is paid for by what was consumed. */
    method FlushIfWorthwhile()
      requires Valid()
      modifies this`posRead, this`posWrite, this`moved, data
      ensures Valid() && Contents() == old(Contents())
      ensures moved == old(moved) + if old(posRead > 0 && posRead >= size / 2) then |Contents()| else 0
      ensures posRead == if old(posRead >= size / 2) then 0 else old(posRead)
    {
      if IsFlush() {
        ghost var n := if posRead == 0 then 0 else ReadableSize();
        Flush();
        moved := moved + n;
      }
    }

    method Increase(more: nat, moves: bool) returns (ok: bool)
      requires Valid()
      modifies this`data, this`size, this`posRead, this`posWrite, data
      ensures Valid() && Contents() == old(Contents())
      ensures data == old(data) || fresh(data)
      ensures ok == (more != 0)
      ensures size == old(size) + more
      ensures ok && (moves || Contents() != []) ==> posRead == 0
      ensures posRead == 0 || posRead == old(posRead)
      ensures posWrite <= old(posWrite)
    {
      if more == 0 {
        return false;
      }
      var n := ReadableSize();
      if n > 0 {
        Flush();
      }
      ghost var before := Contents();
      var nbuf := new byte[size + more + 1];
      forall i | 0 <= i <= size {
        nbuf[i] := data[i];
      }
      data := nbuf;
      if moves {
        posRead, posWrite := 0, n;
      }
      size := size + more;
      assert Contents() == before;
      return true;
    }

    /** increase by so many deltas that the shortfall is covered. */
    method IncreaseBy(short: nat, moves: bool)
      requires Valid() && 0 < short
      modifies this`data, this`size, this`posRead, this`posWrite, data
      ensures Valid() && Contents() == old(Contents())
      ensures data == old(data) || fresh(data)
      ensures old(size) + short < size <= old(size) + short + delta && posWrite <= old(posWrite)
      ensures posRead == 0 || posRead == old(posRead)
    {
      var times := short / delta + 1;
      Multiple(short, delta);
      var _ := Increase(times * delta, moves);
    }

    /** grabWrite(buf, n): room for n bytes, for at most the shortfall plus one delta; dummy space
        of half the size or more has gone, less of it stays where the room suffices. */
    method GrabWrite(n: nat, moves: bool) returns (ok: bool)
      requires Valid()
      modifies this`data, this`size, this`posRead, this`posWrite, this`moved, data
      ensures Valid() && Contents() == old(Contents())
      ensures data == old(data) || fresh(data)
      ensures ok && n <= WriteableSize()
      ensures old(size) <= size
      ensures size == old(size) || size - old(size) <= n - old(WriteableSize()) + delta
      ensures old(posRead) >= old(size) / 2 ==> posRead == 0
      ensures posRead == 0 || posRead == old(posRead)
      ensures old(posRead) < old(size) / 2 && n <= old(size - posWrite) ==> posRead == old(posRead)
      ensures moved == old(moved) + if old(posRead > 0 && posRead >= size / 2) then |old(Contents())| else 0
    {
      FlushIfWorthwhile();
      var room := WriteableSize();
      if room < n {
        IncreaseBy(n - room, moves);
      }
      ok := n <= WriteableSize();
    }

    /** The caller of grabWrite has put `bs` at the write cursor and calls moveWrite(|bs|). */
    method Commit(bs: bytes)
      requires Valid() && |bs| <= WriteableSize()
      modifies this`posWrite, data
      ensures Valid() && Contents() == old(Contents()) + bs
    {
      forall i | 0 <= i < |bs| {
        data[posWrite + i] := bs[i];
      }
      posWrite := posWrite + |bs|;
    }

    method WriteToBuffer(bs: bytes, moves: bool) returns (n: nat)
      requires Valid()
      modifies this`data, this`size, this`posRead, this`posWrite, this`moved, data
      ensures Valid() && Contents() == old(Contents()) + bs
      ensures data == old(data) || fresh(data)
      ensures n == |bs|
      ensures old(posRead) >= old(size) / 2 ==> posRead == 0
      ensures posRead == 0 || posRead == old(posRead) < size / 2
      ensures old(posRead) < old(size) / 2 && n <= old(size - posWrite) ==> posRead == old(posRead)
      ensures moved == old(moved) + if old(posRead > 0 && posRead >= size / 2) then |old(Contents())| else 0
    {
      FlushIfWorthwhile();
      if bs == [] {
        return 0;
      }
      var _ := GrabWrite(|bs|, moves);
      Commit(bs);
      return |bs|;
    }

    method MoveRead(n: nat)
      requires Valid() && n <= ReadableSize()
      modifies this`posRead, this`consumed
      ensures Valid() && Contents() == old(Contents())[n..]
    {
      posRead := posRead + n;
      consumed := consumed + n;
    }

    method ReadFromBuffer(n: nat) returns (out: bytes)
      requires Valid()
      modifies this`posRead, this`consumed
      ensures Valid() && old(Contents()) == out + Contents()
      ensures |out| == if n <= old(ReadableSize()) then n else old(ReadableSize())
    {
      var k := if n <= ReadableSize() then n else ReadableSize();
      out := data[posRead..posRead + k];
      MoveRead(k);
    }

    method Clear()
      requires Valid()
      modifies this`posRead, this`posWrite, data
      ensures Valid() && Contents() == []
    {
      data[0] := 0;
      posRead, posWrite := 0, 0;
    }

    /** memchr over the readable bytes: `k` is the offset of the line feed found, or the
        end of the window, or past it when there is nothing to find. */
    method FindLineFeed(from: nat) returns (k: nat)
      requires Valid() && from <= ReadableSize()
      ensures k == Find(Contents(), LF, from)
    {
      k := from;
      while k < ReadableSize() && data[posRead + k] != LF
        invariant from <= k <= ReadableSize()
        invariant forall j :: from <= j < k ==> Contents()[j] != LF
      {
        k := k + 1;
      }
      FindIs(Contents(), LF, from, k);
    }

    /** The body of the search loop of getLine. */
    method SearchTurn(p: nat, window: nat) returns (r: Search)
      requires Valid() && p <= ReadableSize()
      ensures r == ScanTurn(Contents(), p, window)
    {
      var q := FindLineFeed(p);
      if q - p >= window {
        return Over(NoLine);
      }
      if q == ReadableSize() {
        return Over(Overrun);
      }
      if q == 0 {
        if ReadableSize() == 1 {
          return Over(NoLine);
        }
        return Again(2, Wrap(window - 2));
      }
      if data[posRead + q - 1] == CR {
        assert data[posRead..posRead + q - 1] == Contents()[..q - 1];
        return Over(Line(data[posRead..posRead + q - 1], q + 1));
      }
      return Again(q + 1, Wrap(window - (q + 1)));
    }

    /** The search loop of getLine. */
    method SearchLine() returns (r: LineResult)
      requires Valid()
      ensures r == LineOf(Contents())
    {
      var turn := Again(0, ReadableSize());
      while turn.Again?
        invariant turn.Again? ==> turn.p <= |Contents()|
        invariant LineOf(Contents()) ==
                  if turn.Again? then ScanLine(Contents(), turn.p, turn.window) else turn.result
        decreases if turn.Again? then 1 + |Contents()| - turn.p else 0
      {
        turn := SearchTurn(turn.p, turn.window);
      }
      r := turn.result;
    }

    method GetLine() returns (r: LineResult)
      requires Valid()
      modifies this`posRead, this`consumed
      ensures Valid()
      ensures r == LineOf(old(Contents()))
      ensures Contents() == if r.Line? then old(Contents())[r.used..] else old(Contents())
    {
      r := SearchLine();
      if r.Line? {
        MoveRead(r.used);
      }
    }
  }
}
