/** parse_blob_type: the cursor over the input and the output that the codec loops share. */
module Blobs {
  import opened Bytes

  class Blob {
    const input: bytes
    var ib: nat
    var out: bytes

    ghost predicate Valid()
      reads this
    {
      ib <= |input|
    }

    /** The input still to come. */
    ghost function Rest(): bytes
      reads this
      requires Valid()
    {
      input[ib..]
    }

    constructor (input: bytes)
      ensures Valid() && Rest() == input && out == []
    {
      this.input, ib, out := input, 0, [];
    }

    predicate IsEnd()
      reads this
    {
      ib == |input|
    }

    function Get(): (c: byte)
      reads this
      requires Valid() && !IsEnd()
      ensures c == Rest()[0]
    {
      input[ib]
    }

    method Next()
      requires Valid() && !IsEnd()
      modifies this`ib
      ensures Valid() && Rest() == old(Rest())[1..]
    {
      ib := ib + 1;
    }

    method GetAndNext() returns (c: byte)
      requires Valid() && !IsEnd()
      modifies this`ib
      ensures Valid() && old(Rest()) == [c] + Rest()
      ensures ib == old(ib) + 1
    {
      c := input[ib];
      ib := ib + 1;
    }

    method Append(s: bytes)
      modifies this`out
      ensures out == old(out) + s
    {
      out := out + s;
    }
  }
}
