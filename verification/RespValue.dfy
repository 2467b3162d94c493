/** RESP values and their printed form (redis::Value of pw_redispacket). */
module RespValue {
  import opened Bytes
  import opened Decimal

  datatype Value =
    | Simple(text: bytes)
    | Error(text: bytes)
    | Integer(i: int)
    | Bulk(text: bytes)
    | NullBulk
    | Array(items: seq<Value>)
    | NullArray

  // The type letters of the protocol.
  const PLUS_TAG: byte := 43
  const MINUS_TAG: byte := 45
  const COLON_TAG: byte := 58
  const DOLLAR_TAG: byte := 36
  const STAR_TAG: byte := 42

  const MINUS_ONE: bytes := [45, 49]

  function Print(v: Value): (r: bytes)
    ensures r != []
    decreases v
  {
    match v
    case Simple(s) => [PLUS_TAG] + s + CRLF
    case Error(s) => [MINUS_TAG] + s + CRLF
    case Integer(i) => [COLON_TAG] + IntToBytes(i) + CRLF
    case Bulk(s) => [DOLLAR_TAG] + Digits(|s|) + CRLF + (s + CRLF)
    case NullBulk => [DOLLAR_TAG] + MINUS_ONE + CRLF
    case Array(items) => [STAR_TAG] + Digits(|items|) + CRLF + PrintAll(items)
    case NullArray => [STAR_TAG] + MINUS_ONE + CRLF
  }

  function PrintAll(vs: seq<Value>): bytes
    decreases vs
  {
    if vs == [] then [] else Print(vs[0]) + PrintAll(vs[1..])
  }

  /** A bare CR or LF may not occur in a simple string or an error. */
  predicate OneLine(s: bytes) {
    CR !in s && LF !in s
  }

  /** What the constructors of `Value` let a program build on a 64-bit machine. */
  predicate Constructible(v: Value)
    decreases v
  {
    match v
    case Simple(s) => OneLine(s)
    case Error(s) => OneLine(s)
    case Integer(i) => INT64_MIN <= i <= INT64_MAX
    case Bulk(s) => |s| <= INT64_MAX
    case Array(items) => |items| <= INT64_MAX && forall w <- items :: Constructible(w)
    case _ => true
  }

  /** No simple string, error or array inside `v` is empty. */
  predicate NoEmpties(v: Value)
    decreases v
  {
    match v
    case Simple(s) => s != []
    case Error(s) => s != []
    case Array(items) => items != [] && forall w <- items :: NoEmpties(w)
    case _ => true
  }

  lemma PrintAllConcat(a: seq<Value>, b: seq<Value>)
    ensures PrintAll(a + b) == PrintAll(a) + PrintAll(b)
  {
    if a == [] {
      assert a + b == b;
    } else {
      assert (a + b)[1..] == a[1..] + b;
      PrintAllConcat(a[1..], b);
    }
  }

  /** The stream `Value::write` appends to. */
  class Stream {
    var written: bytes

    constructor ()
      ensures written == []
    {
      written := [];
    }

    method Put(bs: bytes)
      modifies this
      ensures written == old(written) + bs
    {
      written := written + bs;
    }

    /** The type letter, what the switch writes for most types, and the CRLF. */
    method WriteLine(tag: byte, text: bytes)
      modifies this
      ensures written == old(written) + ([tag] + text + CRLF)
    {
      Put([tag]);
      Put(text);
      Put(CRLF);
    }

    method WriteBulk(s: bytes)
      modifies this
      ensures written == old(written) + Print(Bulk(s))
    {
      WriteLine(DOLLAR_TAG, Digits(|s|));
      Put(s);
      Put(CRLF);
    }

    method Write(v: Value)
      modifies this
      ensures written == old(written) + Print(v)
      decreases v, 1
    {
      match v {
        case Simple(s) => WriteLine(PLUS_TAG, s);
        case Error(s) => WriteLine(MINUS_TAG, s);
        case Integer(i) => WriteLine(COLON_TAG, IntToBytes(i));
        case Bulk(s) => WriteBulk(s);
        case NullBulk => WriteLine(DOLLAR_TAG, MINUS_ONE);
        case NullArray => WriteLine(STAR_TAG, MINUS_ONE);
        case Array(items) => WriteArray(v, items);
      }
    }

    method WriteArray(v: Value, items: seq<Value>)
      requires v == Array(items)
      modifies this
      ensures written == old(written) + Print(v)
      decreases v, 0
    {
      Assoc(written, [STAR_TAG] + Digits(|items|) + CRLF, PrintAll(items));
      WriteLine(STAR_TAG, Digits(|items|));
      WriteItems(items);
    }

    method WriteItems(items: seq<Value>)
      modifies this
      ensures written == old(written) + PrintAll(items)
      decreases items, 0
    {
      var k := 0;
      while k < |items|
        invariant 0 <= k <= |items|
        invariant written == old(written) + PrintAll(items[..k])
      {
        Write(items[k]);
        assert items[..k + 1] == items[..k] + [items[k]];
        PrintAllConcat(items[..k], [items[k]]);
        k := k + 1;
      }
      assert items[..k] == items;
    }
  }
}
