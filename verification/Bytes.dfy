/** Bytes as the library's buffers hold them, and the ASCII codes its parsers test for. */
module Bytes {
  type byte = b: int | 0 <= b < 256
  type bytes = seq<byte>

  datatype Option<+T> = None | Some(value: T)

  const LF: byte := 10
  const CR: byte := 13
  const SPACE: byte := 32
  const CRLF: bytes := [CR, LF]

  /** Index of the first occurrence of `b` in `s` at or after `from`, or |s|. */
  function Find(s: bytes, b: byte, from: nat): (k: nat)
    requires from <= |s|
    ensures from <= k <= |s|
    ensures k < |s| ==> s[k] == b
    ensures forall j :: from <= j < k ==> s[j] != b
    decreases |s| - from
  {
    if from == |s| || s[from] == b then from else Find(s, b, from + 1)
  }

  /** The chunks of a stream, joined in order. */
  function Flatten(chunks: seq<bytes>): bytes {
    if chunks == [] then [] else chunks[0] + Flatten(chunks[1..])
  }

  /** `Find` is determined by what it promises. */
  lemma FindIs(s: bytes, b: byte, from: nat, k: nat)
    requires from <= k <= |s|
    requires k < |s| ==> s[k] == b
    requires forall j :: from <= j < k ==> s[j] != b
    ensures Find(s, b, from) == k
  {
  }

  lemma SliceOfSum(s: bytes, t: bytes, i: nat)
    requires i <= |s|
    ensures (s + t)[..i] == s[..i]
    ensures (s + t)[i..] == s[i..] + t
  {
  }

  lemma SliceBeyond(s: bytes, t: bytes, i: nat)
    requires |s| <= i <= |s + t|
    ensures (s + t)[..i] == s + t[..i - |s|]
    ensures (s + t)[i..] == t[i - |s|..]
  {
  }

  lemma Assoc(a: bytes, b: bytes, c: bytes)
    ensures a + b + c == a + (b + c)
  {
  }
}
