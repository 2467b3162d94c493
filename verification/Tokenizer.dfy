/** The tokenizer (pw_tokenizer_tpl) and the line search (StringUtility::findLine). */
module Tokenizers {
  import opened Bytes

  /** What getNext leaves: the token and what is left of the input. */
  datatype Token = Token(text: bytes, rest: bytes)

  /** getNext(v, cap + 1, d) on the input that is left: the bytes up to the next `d`, which is
      skipped, or all of them. A token may be one byte longer than `cap` if a `d` ends it. */
  function Next(input: bytes, cap: nat, d: byte): Option<Token> {
    var q := Find(input, d, 0);
    if input == [] then None
    else if q == |input| || q > cap + 1 then
      if |input| > cap then None else Some(Token(input, []))
    else Some(Token(input[..q], input[q + 1..]))
  }

  /** A token in front of its delimiter is what getNext returns. */
  lemma NextIs(a: bytes, d: byte, t: bytes, cap: nat)
    requires d !in a && |a| <= cap
    ensures Next(a + [d] + t, cap, d) == Some(Token(a, t))
  {
    var s := a + [d] + t;
    FindIs(s, d, 0, |a|);
    assert s[..|a|] == a && s[|a| + 1..] == t;
  }

  lemma NextIsLast(a: bytes, d: byte, cap: nat)
    requires d !in a && a != [] && |a| <= cap
    ensures Next(a, cap, d) == Some(Token(a, []))
  {
    FindIs(a, d, 0, |a|);
  }

  /** What getNext makes of the bytes in front of the next delimiter, if there is one: they may be
      one more than there is room for. */
  lemma NextSays(a: bytes, d: byte, t: bytes, cap: nat)
    requires d !in a
    ensures Next(a + [d] + t, cap, d) == if |a| <= cap + 1 then Some(Token(a, t)) else None
    ensures Next(a, cap, d) == if 0 < |a| <= cap then Some(Token(a, [])) else None
  {
    var s := a + [d] + t;
    FindIs(s, d, 0, |a|);
    FindIs(a, d, 0, |a|);
    assert s[..|a|] == a && s[|a| + 1..] == t;
  }

  /** A token fits the `cap` bytes that the caller has room for besides its final NUL, but for one
      case: one byte more, and a delimiter behind it. */
  lemma TokenFits(input: bytes, cap: nat, d: byte)
    requires Next(input, cap, d).Some?
    ensures var text := Next(input, cap, d).value.text;
            |text| <= cap + 1 && (|text| <= cap <==> Find(input, d, 0) != cap + 1)
  {
  }

  /** Tokens read one after the other all fit their buffers, as far as there are any. */
  predicate TokensFit(input: bytes, caps: seq<nat>, d: byte)
    decreases caps
  {
    caps == [] ||
    match Next(input, caps[0], d)
    case None => true
    case Some(t) => |t.text| <= caps[0] && TokensFit(t.rest, caps[1..], d)
  }

  lemma TokensFitMore(input: bytes, cap: nat, caps: seq<nat>, d: byte, t: Token)
    requires Next(input, cap, d) == Some(t) && |t.text| <= cap && TokensFit(t.rest, caps, d)
    ensures TokensFit(input, [cap] + caps, d)
  {
    assert ([cap] + caps)[1..] == caps;
  }

  class Tokenizer {
    const input: bytes
    var pos: nat

    ghost predicate Valid()
      reads this
    {
      pos <= |input|
    }

    ghost function Left(): bytes
      reads this
      requires Valid()
    {
      input[pos..]
    }

    constructor (input: bytes)
      ensures Valid() && Left() == input
    {
      this.input := input;
      pos := 0;
    }

    /** _find(d, len) */
    method FindWithin(d: byte, len: nat) returns (ib: nat)
      requires Valid()
      ensures var q := Find(Left(), d, 0);
              ib == if q > len + 1 then |input| else pos + q
    {
      ib := pos;
      while ib != |input|
        invariant pos <= ib <= |input|
        invariant forall j :: 0 <= j < ib - pos ==> Left()[j] != d
      {
        if input[ib] == d {
          FindIs(Left(), d, 0, ib - pos);
          if ib == pos {
            return;
          }
          if ib - pos - 1 > len {
            ib := |input|;
          }
          return;
        }
        ib := ib + 1;
      }
      FindIs(Left(), d, 0, |Left()|);
    }

    /** getNext(v, len, d, outlen), not strict. */
    method GetNext(len: nat, d: byte) returns (tok: Option<bytes>)
      requires Valid() && 0 < len
      modifies this
      ensures Valid()
      ensures match Next(old(Left()), len - 1, d)
              case None => tok == None && Left() == old(Left())
              case Some(t) => tok == Some(t.text) && Left() == t.rest
    {
      if pos == |input| {
        return None;
      }
      var cap := len - 1;
      var ib := FindWithin(d, cap);
      var cplen := ib - pos;
      if ib == |input| {
        if cplen > cap {
          return None;
        }
        tok := Some(input[pos..]);
        pos := |input|;
        return;
      }
      assert input[pos..ib] == Left()[..cplen] && input[ib + 1..] == Left()[cplen + 1..];
      tok := Some(input[pos..ib]);
      pos := ib + 1;
    }
  }

  /** Index of the first CRLF of `s` at or after `from`, or |s|. */
  function FindCrlf(s: bytes, from: nat): (k: nat)
    requires from <= |s|
    ensures from <= k <= |s|
    ensures k < |s| ==> k + 1 < |s| && s[k] == CR && s[k + 1] == LF
    ensures forall j :: from <= j < k && j + 1 < |s| ==> !(s[j] == CR && s[j + 1] == LF)
    decreases |s| - from
  {
    if from == |s| then |s|
    else if from + 1 < |s| && s[from] == CR && s[from + 1] == LF then from
    else FindCrlf(s, from + 1)
  }

  lemma FindCrlfIs(s: bytes, k: nat)
    requires k <= |s|
    requires k < |s| ==> k + 1 < |s| && s[k] == CR && s[k + 1] == LF
    requires forall j :: 0 <= j < k && j + 1 < |s| ==> !(s[j] == CR && s[j + 1] == LF)
    ensures FindCrlf(s, 0) == k
  {
  }

  method FindLine(s: bytes) returns (k: Option<nat>)
    ensures k == if FindCrlf(s, 0) == |s| then None else Some(FindCrlf(s, 0))
  {
    var ib := 0;
    while ib != |s|
      invariant 0 <= ib <= |s|
      invariant FindCrlf(s, ib) == FindCrlf(s, 0)
    {
      if s[ib] == CR {
        if ib + 1 == |s| {
          return None;
        }
        if s[ib + 1] == LF {
          return Some(ib);
        }
      }
      ib := ib + 1;
    }
    return None;
  }
}
