/** The round-robin pool of channels (pw_simplechpool_tpl): whatever comes and goes, nobody is
    overtaken. */
module ChannelPools {
  import opened Orders

  /** The address of a channel as an intptr_t. A channel is longer than one byte, so the last
      address is not one. */
  newtype ptr = x: int | -0x8000_0000_0000_0000 <= x < 0x7fff_ffff_ffff_ffff

  newtype intptr = x: int | -0x8000_0000_0000_0000 <= x <= 0x7fff_ffff_ffff_ffff

  const FIRST: intptr := -0x8000_0000_0000_0000
  const SPACE: int := 0x1_0000_0000_0000_0000

  datatype State = State(pool: set<ptr>, index: intptr)

  datatype Op = Add(p: ptr) | Remove(p: ptr) | Get

  predicate Le(a: ptr, b: ptr) { a <= b }

  predicate IsFirst(s: set<ptr>, r: ptr) {
    r in s && forall x :: x in s ==> r <= x
  }

  ghost function Least(s: set<ptr>): (r: ptr)
    requires s != {}
    ensures IsFirst(s, r)
  {
    LeastExists(Le, s);
    var r :| IsLeast(Le, r, s);
    assert forall x :: x in s ==> Le(r, x);
    r
  }

  ghost function From(s: set<ptr>, index: intptr): set<ptr> {
    set x | x in s && index as int <= x as int
  }

  /** The channel that getChannel hands out: the first at or after the index, or the first. */
  ghost function Pick(s: State): (r: ptr)
    requires s.pool != {}
    ensures r in s.pool
  {
    if From(s.pool, s.index) != {} then Least(From(s.pool, s.index)) else Least(s.pool)
  }

  /** r is the first at or after the index, or the first of all if there is none. */
  ghost predicate FirstFrom(pool: set<ptr>, index: int, r: ptr) {
    && r in pool
    && (if exists p :: p in pool && index <= p as int
        then index <= r as int && forall p :: p in pool && index <= p as int ==> r <= p
        else forall p :: p in pool ==> r <= p)
  }

  lemma PickFirst(s: State)
    requires s.pool != {}
    ensures FirstFrom(s.pool, s.index as int, Pick(s))
  {
    forall p | p in s.pool && s.index as int <= p as int
      ensures p in From(s.pool, s.index)
    {
    }
  }

  lemma OneFirst(pool: set<ptr>, index: int, q: ptr, r: ptr)
    requires FirstFrom(pool, index, q) && FirstFrom(pool, index, r)
    ensures q == r
  {
    if exists p :: p in pool && index <= p as int {
      assert index <= q as int && index <= r as int;
    }
  }

  /** getChannel hands out the first channel at or after the index, or the first of all. */
  lemma PickIsFirst(s: State, r: ptr)
    requires s.pool != {}
    ensures Pick(s) == r <==> FirstFrom(s.pool, s.index as int, r)
  {
    PickFirst(s);
    if FirstFrom(s.pool, s.index as int, r) {
      OneFirst(s.pool, s.index as int, Pick(s), r);
    }
  }

  ghost function Apply(s: State, op: Op): State {
    match op
    case Add(p) => s.(pool := s.pool + {p})
    case Remove(p) => s.(pool := s.pool - {p})
    case Get => if s.pool == {} then s else s.(index := Pick(s) as intptr + 1)
  }

  ghost function Given(s: State, op: Op): seq<ptr> {
    if op.Get? && s.pool != {} then [Pick(s)] else []
  }

  /** What the getChannel calls among `ops` return, one after the other. */
  ghost function Returned(s: State, ops: seq<Op>): seq<ptr>
    decreases |ops|
  {
    if ops == [] then [] else Given(s, ops[0]) + Returned(Apply(s, ops[0]), ops[1..])
  }

  // ---------------------------------------------------------------- fairness

  /** The place of `p` on the way round that starts just after `x` and ends at `x`. */
  function Rank(x: ptr, p: int): int {
    if p > x as int then p else p + SPACE
  }

  /** `y` is still ahead of the index on the way from `x`. */
  predicate Ahead(s: State, x: ptr, y: ptr) {
    Rank(x, s.index as int) <= Rank(x, y as int)
  }

  lemma PickNotBeyond(s: State, x: ptr, y: ptr)
    requires y in s.pool && Ahead(s, x, y)
    ensures Ahead(s, x, Pick(s)) && Rank(x, Pick(s) as int) <= Rank(x, y as int)
  {
    if y as int >= s.index as int {
      assert y in From(s.pool, s.index);
    }
  }

  /** Nobody who stays in the pool is overtaken: before `x` is returned again, `y` is returned. */
  lemma {:induction false} NotOvertaken(s: State, ops: seq<Op>, x: ptr, y: ptr, j: nat)
    requires x != y && y in s.pool && Remove(y) !in ops && Ahead(s, x, y)
    requires j < |Returned(s, ops)| && Returned(s, ops)[j] == x
    ensures y in Returned(s, ops)[..j]
    decreases |ops|
  {
    var t := Apply(s, ops[0]);
    var given := Given(s, ops[0]);
    var later := Returned(t, ops[1..]);
    if given == [] {
      assert Returned(s, ops) == later;
      NotOvertaken(t, ops[1..], x, y, j);
    } else {
      PickNotBeyond(s, x, y);
      assert j > 0 && (given + later)[..j] == given + later[..j - 1];
      if Pick(s) != y {
        NotOvertaken(t, ops[1..], x, y, j - 1);
      }
    }
  }

  /** Everybody in the pool lies behind the index on the way that ends at `x`: the next call will
      go round `x`, which is not there. */
  predicate PassesBy(s: State, x: ptr) {
    s.pool != {} && forall p :: p in s.pool ==> Rank(x, p as int) < Rank(x, s.index as int)
  }

  /** How many calls before return number j are made in such a state. */
  ghost function Laps(s: State, ops: seq<Op>, x: ptr, j: nat): nat
    decreases |ops|
  {
    if ops == [] then 0
    else if Given(s, ops[0]) == [] then Laps(Apply(s, ops[0]), ops[1..], x, j)
    else if j == 0 then 0
    else One(PassesBy(s, x)) + Laps(Apply(s, ops[0]), ops[1..], x, j - 1)
  }

  function One(b: bool): nat { if b then 1 else 0 }

  /** What one call does to a channel `y` on the way to `x`: it is returned or still ahead after
      it exactly if it was ahead before or the call goes round, and never both. */
  lemma PickOnTheWay(s: State, x: ptr, y: ptr)
    requires x != y && y in s.pool && Pick(s) != x
    ensures One(Pick(s) == y) + One(Ahead(Apply(s, Get), x, y)) == One(Ahead(s, x, y)) + One(PassesBy(s, x))
  {
    if PassesBy(s, x) {
      BehindPick(s, x, y);
    } else {
      var p :| p in s.pool && Ahead(s, x, p);
      PickNotBeyond(s, x, p);
      if Ahead(s, x, y) {
        PickNotBeyond(s, x, y);
      }
    }
  }

  /** The call that goes round returns the first of all on the new way. */
  lemma BehindPick(s: State, x: ptr, y: ptr)
    requires PassesBy(s, x) && y in s.pool
    ensures Rank(x, Pick(s) as int) <= Rank(x, y as int)
  {
    var r := Pick(s);
    assert Rank(x, r as int) < Rank(x, s.index as int);
    if y as int >= s.index as int {
      assert y in From(s.pool, s.index);
    }
  }

  lemma CountOneMore(rs: seq<ptr>, r: ptr, later: seq<ptr>, y: ptr, j: nat)
    requires rs == [r] + later && 0 < j <= |rs|
    ensures rs[..j] == [r] + later[..j - 1]
    ensures multiset(rs[..j])[y] == One(r == y) + multiset(later[..j - 1])[y]
  {
    assert rs[..j] == [r] + later[..j - 1];
  }

  lemma LapsOneMore(s: State, ops: seq<Op>, x: ptr, j: nat)
    requires ops != [] && ops[0] == Get && s.pool != {}
    ensures Laps(s, ops, x, 0) == 0
    ensures j > 0 ==> Laps(s, ops, x, j) == One(PassesBy(s, x)) + Laps(Apply(s, Get), ops[1..], x, j - 1)
  {
    assert Given(s, ops[0]) == [Pick(s)];
  }

  lemma CountStep(s: State, ops: seq<Op>, x: ptr, y: ptr, j: nat, later: seq<ptr>)
    requires ops != [] && ops[0] == Get && x != y && y in s.pool && Pick(s) != x
    requires 0 < j <= |later| + 1
    requires multiset(later[..j - 1])[y] == One(Ahead(Apply(s, Get), x, y)) + Laps(Apply(s, Get), ops[1..], x, j - 1)
    ensures multiset(([Pick(s)] + later)[..j])[y] == One(Ahead(s, x, y)) + Laps(s, ops, x, j)
  {
    LapsOneMore(s, ops, x, j);
    CountOneMore([Pick(s)] + later, Pick(s), later, y, j);
    PickOnTheWay(s, x, y);
  }

  /** On the way to the next return of `x`, `y` comes up once if it is ahead, and once more for
      each time the calls go round while `x` is away. */
  lemma {:induction false} CountOnTheWay(s: State, ops: seq<Op>, x: ptr, y: ptr, j: nat)
    requires x != y && y in s.pool && Remove(y) !in ops
    requires j < |Returned(s, ops)| && Returned(s, ops)[j] == x && x !in Returned(s, ops)[..j]
    ensures multiset(Returned(s, ops)[..j])[y] == One(Ahead(s, x, y)) + Laps(s, ops, x, j)
    decreases |ops|
  {
    var t := Apply(s, ops[0]);
    var later := Returned(t, ops[1..]);
    if ops[0] != Get {
      assert Returned(s, ops) == later;
      CountOnTheWay(t, ops[1..], x, y, j);
    } else {
      assert Returned(s, ops) == [Pick(s)] + later;
      LapsOneMore(s, ops, x, j);
      if j == 0 {
        if Ahead(s, x, y) {
          PickNotBeyond(s, x, y);
        }
      } else {
        CountOneMore(Returned(s, ops), Pick(s), later, y, j);
        assert Pick(s) == Returned(s, ops)[..j][0];
        CountOnTheWay(t, ops[1..], x, y, j - 1);
        CountStep(s, ops, x, y, j, later);
      }
    }
  }

  /** While `x` stays in the pool nobody goes round it. */
  lemma {:induction false} NoLapsWhileThere(s: State, ops: seq<Op>, x: ptr, j: nat)
    requires x in s.pool && Remove(x) !in ops
    ensures Laps(s, ops, x, j) == 0
    decreases |ops|
  {
    if ops != [] {
      NoLapsWhileThere(Apply(s, ops[0]), ops[1..], x, j);
      if j > 0 {
        NoLapsWhileThere(Apply(s, ops[0]), ops[1..], x, j - 1);
      }
    }
  }

  /** Between two consecutive returns of `x`, whatever is added and removed meanwhile, every
      other channel that is there throughout is returned once, and once more for each time the
      calls go round while `x` is away: exactly once if and only if they never do, and so if `x`
      is there throughout. */
  lemma EveryOtherOnce(s: State, ops: seq<Op>, x: ptr, y: ptr, j: nat)
    requires s.index == x as intptr + 1 && x != y && y in s.pool && Remove(y) !in ops
    requires j < |Returned(s, ops)| && Returned(s, ops)[j] == x && x !in Returned(s, ops)[..j]
    ensures y in Returned(s, ops)[..j]
    ensures multiset(Returned(s, ops)[..j])[y] == 1 + Laps(s, ops, x, j)
    ensures x in s.pool && Remove(x) !in ops ==> multiset(Returned(s, ops)[..j])[y] == 1
  {
    CountOnTheWay(s, ops, x, y, j);
    if x in s.pool && Remove(x) !in ops {
      NoLapsWhileThere(s, ops, x, j);
    }
  }

  lemma LeastIs(s: set<ptr>, r: ptr)
    requires IsFirst(s, r)
    ensures Least(s) == r
  {
  }

  /** Channel 1 leaves, two calls are made, it comes back and is returned. */
  const LEAVE_AND_RETURN: seq<Op> := [Remove(1), Get, Get, Add(1), Get]

  /** From 3 on there is nobody, so the calls begin again. */
  lemma BeginAgain(s: set<ptr>, r: ptr)
    requires IsFirst(s, r) && From(s, 3) == {}
    ensures Apply(State(s, 3), Get) == State(s, r as intptr + 1) && Given(State(s, 3), Get) == [r]
  {
    LeastIs(s, r);
  }

  lemma ReturnAtLast()
    ensures Returned(State({2}, 3), [Get, Add(1), Get]) == [2, 1]
  {
    var s2 := State({2}, 3);
    assert From({2}, 3) == {} && From({1, 2}, 3) == {};
    BeginAgain({2}, 2);
    BeginAgain({1, 2}, 1);
    var s4 := Apply(s2, Add(1));
    assert s4 == State({1, 2}, 3);
    assert [Get, Add(1), Get][1..] == [Add(1), Get] && [Add(1), Get][1..] == [Get] && [Get][1..] == [];
    assert Returned(s4, [Get]) == [1];
    assert Returned(s2, [Add(1), Get]) == [1];
  }

  lemma LeaveAndReturn()
    ensures Returned(State({1, 2}, 2), LEAVE_AND_RETURN) == [2, 2, 1]
  {
    var s0, ops := State({1, 2}, 2), LEAVE_AND_RETURN;
    var s1 := Apply(s0, ops[0]);
    assert s1.pool == {2};
    LeastIs(From({2}, 2), 2);
    assert Apply(s1, Get) == State({2}, 3);
    ReturnAtLast();
    assert ops[1..] == [Get, Get, Add(1), Get];
    assert ops[1..][1..] == [Get, Add(1), Get];
    assert Returned(s1, [Get, Get, Add(1), Get]) == [2, 2, 1];
  }

  /** A channel that leaves and comes back can be passed meanwhile more than once: here there is
      one lap. */
  lemma PassedTwice()
    ensures Returned(State({1, 2}, 2), LEAVE_AND_RETURN) == [2, 2, 1]
    ensures Laps(State({1, 2}, 2), LEAVE_AND_RETURN, 1, 2) == 1
  {
    var s, ops := State({1, 2}, 2), LEAVE_AND_RETURN;
    LeaveAndReturn();
    assert Remove(2) !in ops;
    assert Returned(s, ops)[..2] == [2, 2];
    EveryOtherOnce(s, ops, 1, 2, 2);
  }

  // ---------------------------------------------------------------- an unchanged pool

  function Gets(n: nat): (r: seq<Op>)
    ensures |r| == n && forall i :: 0 <= i < n ==> r[i] == Get
  {
    if n == 0 then [] else [Get] + Gets(n - 1)
  }

  lemma {:induction false} RoundLength(s: State, n: nat)
    requires s.pool != {}
    ensures |Returned(s, Gets(n))| == n
    ensures forall i :: 0 <= i < n ==> Returned(s, Gets(n))[i] in s.pool
    decreases n
  {
    if n > 0 {
      assert Gets(n)[1..] == Gets(n - 1);
      RoundLength(Apply(s, Get), n - 1);
    }
  }

  /** The calls from number i + 1 on, as calls on the state that call number i leaves. */
  lemma {:induction false} RoundFrom(s: State, n: nat, i: nat) returns (t: State)
    requires s.pool != {} && i < n
    ensures |Returned(s, Gets(n))| == n
    ensures t.pool == s.pool && t.index == Returned(s, Gets(n))[i] as intptr + 1
    ensures Returned(s, Gets(n))[i + 1..] == Returned(t, Gets(n - i - 1))
    decreases n
  {
    RoundLength(s, n);
    t := Apply(s, Get);
    assert Gets(n)[1..] == Gets(n - 1);
    if i > 0 {
      t := RoundFrom(t, n - 1, i - 1);
    }
  }

  lemma {:induction false} Cover(s: set<ptr>, q: seq<ptr>)
    requires forall x :: x in s ==> x in q
    ensures |s| <= |q|
    decreases |q|
  {
    if q != [] {
      forall x | x in s - {q[0]}
        ensures x in q[1..]
      {
        assert x in s;
      }
      Cover(s - {q[0]}, q[1..]);
    }
  }

  /** Between two returns of the same channel with none in between lies the whole pool. */
  lemma NoReturnBetween(s: State, n: nat, x: ptr, j: nat, y: ptr)
    requires y in s.pool && s.index == x as intptr + 1 && j < n && |Returned(s, Gets(n))| == n
    requires Returned(s, Gets(n))[j] == x && x !in Returned(s, Gets(n))[..j]
    ensures y in Returned(s, Gets(n))[..j + 1]
  {
    var rs := Returned(s, Gets(n));
    assert rs[..j + 1] == rs[..j] + [x];
    if y != x {
      EveryOtherOnce(s, Gets(n), x, y, j);
    }
  }

  lemma TailPart(rs: seq<ptr>, later: seq<ptr>, i: nat, j: nat)
    requires i <= j < |rs| && later == rs[i..]
    ensures later[j - i] == rs[j] && later[..j - i] == rs[i..j]
  {
  }

  lemma RoundOf(t: State, m: nat, later: seq<ptr>, x: ptr, k: nat)
    requires later == Returned(t, Gets(m)) && |later| == m && t.index == x as intptr + 1
    requires k < m && later[k] == x && x !in later[..k]
    ensures |t.pool| <= k + 1
  {
    forall y | y in t.pool
      ensures y in later[..k + 1]
    {
      NoReturnBetween(t, m, x, k, y);
    }
    Cover(t.pool, later[..k + 1]);
  }

  /** What is returned after call number i, up to the next return of the same channel. */
  lemma RoundTail(s: State, n: nat, rs: seq<ptr>, i: nat, j: nat) returns (t: State, later: seq<ptr>)
    requires s.pool != {} && i < j < n && rs == Returned(s, Gets(n)) && |rs| == n
    requires rs[i] == rs[j] && rs[i] !in rs[i + 1..j]
    ensures t.pool == s.pool && t.index == rs[i] as intptr + 1 && later == Returned(t, Gets(n - i - 1))
    ensures |later| == n - i - 1 && later[j - i - 1] == rs[i] && rs[i] !in later[..j - i - 1]
  {
    t := RoundFrom(s, n, i);
    later := rs[i + 1..];
    TailPart(rs, later, i + 1, j);
  }

  lemma RoundBetween(s: State, n: nat, rs: seq<ptr>, i: nat, j: nat)
    requires s.pool != {} && i < j < n && rs == Returned(s, Gets(n)) && |rs| == n
    requires rs[i] == rs[j] && rs[i] !in rs[i + 1..j]
    ensures j - i >= |s.pool|
  {
    var t, later := RoundTail(s, n, rs, i, j);
    RoundOf(t, n - i - 1, later, rs[i], j - i - 1);
  }

  /** Two equal returns are at least a full round apart. */
  lemma {:induction false} RoundApart(s: State, n: nat, i: nat, j: nat)
    requires s.pool != {} && i < j < n && |Returned(s, Gets(n))| == n
    requires Returned(s, Gets(n))[i] == Returned(s, Gets(n))[j]
    ensures j - i >= |s.pool|
    decreases j - i
  {
    var rs := Returned(s, Gets(n));
    if rs[i] in rs[i + 1..j] {
      var k :| 0 <= k < j - i - 1 && rs[i + 1..j][k] == rs[i];
      RoundApart(s, n, i, i + 1 + k);
    } else {
      RoundBetween(s, n, rs, i, j);
    }
  }

  predicate Distinct(q: seq<ptr>) {
    forall i, j :: 0 <= i < j < |q| ==> q[i] != q[j]
  }

  lemma {:induction false} AllOf(q: seq<ptr>, s: set<ptr>)
    requires Distinct(q) && |q| == |s| && forall i :: 0 <= i < |q| ==> q[i] in s
    ensures multiset(q) == multiset(s)
    decreases |q|
  {
    if q == [] {
      assert s == {};
    } else {
      assert q == [q[0]] + q[1..];
      AllOf(q[1..], s - {q[0]});
      assert multiset(s) == multiset(s - {q[0]}) + multiset{q[0]};
    }
  }

  /** On an unchanged pool any size() consecutive calls return a permutation of it. */
  lemma RoundIsPermutation(s: State)
    requires s.pool != {}
    ensures multiset(Returned(s, Gets(|s.pool|))) == multiset(s.pool)
  {
    var n := |s.pool|;
    var rs := Returned(s, Gets(n));
    RoundLength(s, n);
    forall i, j | 0 <= i < j < n
      ensures rs[i] != rs[j]
    {
      if rs[i] == rs[j] {
        RoundApart(s, n, i, j);
      }
    }
    AllOf(rs, s.pool);
  }

  // ---------------------------------------------------------------- the class

  class SimpleChPool {
    var pool: set<ptr>
    var index: intptr

    ghost function Model(): State
      reads this
    {
      State(pool, index)
    }

    constructor ()
      ensures Model() == State({}, 0)
    {
      pool, index := {}, 0;
    }

    /** std::set::lower_bound; end() if there is nothing at or after `from`. */
    method LowerBound(from: intptr) returns (found: bool, r: ptr)
      ensures found <==> From(pool, from) != {}
      ensures found ==> r == Least(From(pool, from))
    {
      found, r := false, 0;
      var todo := pool;
      while todo != {}
        invariant todo <= pool
        invariant found ==> r in pool && from as int <= r as int
        invariant forall x :: x in pool && x !in todo && from as int <= x as int ==> found && r <= x
        decreases todo
      {
        var x :| x in todo;
        if from as int <= x as int && (!found || x < r) {
          found, r := true, x;
        }
        todo := todo - {x};
      }
      if found {
        LeastIs(From(pool, from), r);
      }
    }

    method GetChannel() returns (found: bool, r: ptr)
      modifies this`index
      ensures found <==> pool != {}
      ensures Model() == Apply(old(Model()), Get)
      ensures Given(old(Model()), Get) == if found then [r] else []
      ensures !found ==> index == old(index)
      ensures found ==> FirstFrom(pool, old(index) as int, r) && index as int == r as int + 1
    {
      found, r := pool != {}, 0;
      if found {
        var some;
        some, r := LowerBound(index);
        if !some {
          some, r := LowerBound(FIRST);
          assert From(pool, FIRST) == pool;
        }
        PickIsFirst(Model(), r);
        index := r as intptr + 1;
      }
    }

    method AddChannel(p: ptr) returns (added: bool)
      modifies this`pool
      ensures Model() == Apply(old(Model()), Add(p)) && added == (p !in old(pool))
      ensures pool == old(pool) + {p} && index == old(index)
    {
      added := p !in pool;
      pool := pool + {p};
    }

    method RemoveChannel(p: ptr) returns (removed: bool)
      modifies this`pool
      ensures Model() == Apply(old(Model()), Remove(p)) && removed == (p in old(pool))
      ensures pool == old(pool) - {p} && index == old(index)
    {
      removed := p in pool;
      if !removed {
        assert pool - {p} == pool;
        return;
      }
      pool := pool - {p};
    }
  }
}
