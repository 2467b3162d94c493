/** Least elements of finite sets, for any total order. */
module Orders {
  predicate IsLeast<T(==)>(le: (T, T) -> bool, m: T, s: set<T>) {
    m in s && forall x :: x in s ==> le(m, x)
  }

  ghost predicate Total<T(!new)>(le: (T, T) -> bool) {
    && (forall a, b :: le(a, b) || le(b, a))
    && (forall a, b, c :: le(a, b) && le(b, c) ==> le(a, c))
  }

  lemma {:induction false} LeastExists<T(!new)>(le: (T, T) -> bool, s: set<T>)
    requires Total(le) && s != {}
    ensures exists m :: IsLeast(le, m, s)
    decreases |s|
  {
    var x :| x in s;
    var rest := s - {x};
    assert le(x, x);
    if rest == {} {
      assert s == {x};
      assert IsLeast(le, x, s);
    } else {
      LeastExists(le, rest);
      var m :| IsLeast(le, m, rest);
      var least := if le(x, m) then x else m;
      forall k | k in s
        ensures le(least, k)
      {
        assert k == x || k in rest;
      }
      assert IsLeast(le, least, s);
    }
  }
}
