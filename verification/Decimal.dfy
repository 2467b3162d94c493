/** Decimal printing (`os << n`, `%d`, `%zu`) and the C library's strtoll / atoi. */
module Decimal {
  import opened Bytes

  const INT64_MIN: int := -0x8000_0000_0000_0000
  const INT64_MAX: int := 0x7fff_ffff_ffff_ffff

  const ZERO: byte := 48
  const MINUS: byte := 45
  const PLUS: byte := 43

  predicate IsDigit(b: byte) { 48 <= b <= 57 }

  predicate IsSpace(b: byte) { 9 <= b <= 13 || b == 32 }

  function Digits(n: nat): (r: bytes)
    ensures r != []
    ensures forall k :: 0 <= k < |r| ==> IsDigit(r[k])
    decreases n
  {
    if n < 10 then [48 + n] else Digits(n / 10) + [48 + n % 10]
  }

  function IntToBytes(i: int): (r: bytes)
    ensures r != []
    ensures forall k :: 0 <= k < |r| ==> IsDigit(r[k]) || r[k] == MINUS
  {
    if i < 0 then [MINUS] + Digits(-i) else Digits(i)
  }

  /** Value of the longest digit prefix of `s`, continuing from `acc`. */
  function DigitsValue(s: bytes, acc: nat): nat {
    if s == [] || !IsDigit(s[0]) then acc else DigitsValue(s[1..], acc * 10 + (s[0] - 48))
  }

  function SkipSpace(s: bytes): bytes {
    if s != [] && IsSpace(s[0]) then SkipSpace(s[1..]) else s
  }

  function Clamp(i: int): (r: int)
    ensures INT64_MIN <= r <= INT64_MAX
  {
    if i < INT64_MIN then INT64_MIN else if i > INT64_MAX then INT64_MAX else i
  }

  /** strtoll(s, nullptr, 10): white space, an optional sign, digits; saturating. */
  function StrToLL(s: bytes): (r: int)
    ensures INT64_MIN <= r <= INT64_MAX
  {
    var t := SkipSpace(s);
    if t != [] && t[0] == MINUS then (var n: int := DigitsValue(t[1..], 0); Clamp(-n))
    else if t != [] && t[0] == PLUS then Clamp(DigitsValue(t[1..], 0))
    else Clamp(DigitsValue(t, 0))
  }

  lemma {:induction false} DigitsValueOfDigits(n: nat, t: bytes)
    ensures DigitsValue(Digits(n) + t, 0) == DigitsValue(t, n)
    decreases n
  {
    if n < 10 {
      assert ([48 + n] + t)[1..] == t;
    } else {
      var d: byte := 48 + n % 10;
      assert Digits(n) + t == Digits(n / 10) + ([d] + t);
      DigitsValueOfDigits(n / 10, [d] + t);
      assert ([d] + t)[1..] == t;
    }
  }

  /** strtoll reads back every 64-bit integer that was printed. */
  lemma StrToLLOfInt(i: int)
    requires INT64_MIN <= i <= INT64_MAX
    ensures StrToLL(IntToBytes(i)) == i
  {
    var s := IntToBytes(i);
    assert SkipSpace(s) == s;
    if i < 0 {
      assert s[1..] == Digits(-i);
      DigitsValueOfDigits(-i, []);
      assert Digits(-i) + [] == Digits(-i);
    } else {
      DigitsValueOfDigits(i, []);
      assert Digits(i) + [] == Digits(i);
    }
  }

  // ---------------------------------------------------------------- in plain decimal

  /** The number that ASCII digits denote, the most significant first, behind `acc`. */
  function Number(acc: nat, d: bytes): nat
    requires forall k :: 0 <= k < |d| ==> 48 <= d[k] <= 57
    decreases |d|
  {
    if d == [] then acc else Number(acc * 10 + (d[0] - 48), d[1..])
  }

  predicate AsciiDigits(d: bytes) {
    forall k :: 0 <= k < |d| ==> 48 <= d[k] <= 57
  }

  lemma {:induction false} ValueIsNumber(d: bytes, t: bytes, acc: nat)
    requires AsciiDigits(d) && (t == [] || !(48 <= t[0] <= 57))
    ensures DigitsValue(d + t, acc) == Number(acc, d)
    decreases |d|
  {
    if d == [] {
      assert d + t == t;
    } else {
      assert (d + t)[1..] == d[1..] + t;
      ValueIsNumber(d[1..], t, acc * 10 + (d[0] - 48));
    }
  }

  /** What is printed for a number: ASCII digits that denote it, with no zero in front. */
  lemma {:induction false} DigitsDenote(n: nat)
    ensures AsciiDigits(Digits(n)) && Number(0, Digits(n)) == n
    ensures Digits(n)[0] == 48 ==> n == 0 && Digits(n) == [48]
  {
    DigitsValueOfDigits(n, []);
    ValueIsNumber(Digits(n), [], 0);
    NoZeroInFront(n);
  }

  lemma {:induction false} NoZeroInFront(n: nat)
    ensures Digits(n)[0] == 48 ==> n == 0 && Digits(n) == [48]
    decreases n
  {
    if n >= 10 {
      NoZeroInFront(n / 10);
    }
  }

  /** d is i in ASCII decimal: '-' in front if it is negative, and no zero in front of others. */
  predicate IsDecimal(d: bytes, i: int) {
    if i < 0 then d != [] && d[0] == 45 && d[1..] != [] && IsNumeral(d[1..], -i) else d != [] && IsNumeral(d, i)
  }

  predicate IsNumeral(d: bytes, n: nat)
    requires d != []
  {
    AsciiDigits(d) && Number(0, d) == n && (d[0] == 48 ==> |d| == 1)
  }

  lemma IntIsDecimal(i: int)
    ensures IsDecimal(IntToBytes(i), i)
  {
    DigitsDenote(if i < 0 then -i else i);
    if i < 0 {
      assert IntToBytes(i)[1..] == Digits(-i);
    }
  }

  lemma {:induction false} SkipsSpace(w: bytes, s: bytes)
    requires forall k :: 0 <= k < |w| ==> 9 <= w[k] <= 13 || w[k] == 32
    requires s == [] || !(9 <= s[0] <= 13 || s[0] == 32)
    ensures SkipSpace(w + s) == s
    decreases |w|
  {
    if w == [] {
      assert w + s == s;
    } else {
      assert (w + s)[1..] == w[1..] + s;
      SkipsSpace(w[1..], s);
    }
  }

  /** What is read: blanks, perhaps a sign, digits, and anything that is no digit behind them. It is
      the number the digits denote, as far as 64 bits reach; with no digit it is zero. */
  lemma StrToLLSays(w: bytes, sign: bytes, d: bytes, t: bytes)
    requires forall k :: 0 <= k < |w| ==> 9 <= w[k] <= 13 || w[k] == 32
    requires sign == [] || sign == [43] || sign == [45]
    requires AsciiDigits(d) && (t == [] || !(48 <= t[0] <= 57))
    requires sign == [] && d == [] && t != [] ==> !(9 <= t[0] <= 13) && t[0] != 32 && t[0] != 43 && t[0] != 45
    ensures StrToLL(w + (sign + (d + t))) ==
            if sign == [45] then
              (if Number(0, d) > 0x8000_0000_0000_0000 then -0x8000_0000_0000_0000 else 0 - Number(0, d))
            else (if Number(0, d) > 0x7fff_ffff_ffff_ffff then 0x7fff_ffff_ffff_ffff else Number(0, d))
  {
    var s := sign + (d + t);
    SkipsSpace(w, s);
    ValueIsNumber(d, t, 0);
    if sign == [] {
      assert s == d + t;
    } else {
      assert s[1..] == d + t;
    }
  }
}
