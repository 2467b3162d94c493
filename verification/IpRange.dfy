/** The index of address ranges (pw_iprange, pw_iprange_type): an ordered container whose order
    takes ranges that overlap for the same key. */
module IpRanges {
  import opened Bytes

  /** An IPv4 address in host order. */
  type address = a: int | 0 <= a < 0x1_0000_0000

  /** ItemTemplate */
  datatype Range = Range(begin: address, end: address) {
    predicate Less(r: Range) { end < r.begin }

    predicate Contains(ip: address) { begin <= ip <= end }

    /** operator ==, which is containment. */
    predicate Covers(r: Range) { begin <= r.begin && end >= r.end }

    predicate Normal() { begin <= end }
  }

  /** ItemTemplate::assign */
  function Assign(begin: address, end: address): Range {
    if begin <= end then Range(begin, end) else Range(end, begin)
  }

  ghost predicate Overlap(a: Range, b: Range) {
    exists ip :: a.Contains(ip) && b.Contains(ip)
  }

  /** For two ranges neither of which is less the order has one key, and they overlap; a point
      is equivalent to exactly the ranges that contain it. */
  lemma Equivalence(a: Range, b: Range)
    requires a.Normal() && b.Normal()
    ensures Overlap(a, b) <==> !a.Less(b) && !b.Less(a)
    ensures !(a.Less(b) && b.Less(a))
    ensures b.begin == b.end ==> (Overlap(a, b) <==> a.Contains(b.begin)) && (Overlap(a, b) <==> a.Covers(b))
  {
    if !a.Less(b) && !b.Less(a) {
      var ip := if a.begin <= b.begin then b.begin else a.begin;
      assert a.Contains(ip) && b.Contains(ip);
    }
  }

  datatype Entry = Entry(range: Range, value: bytes)

  /** Sorted and pairwise disjoint. */
  ghost predicate Ordered(s: seq<Entry>) {
    && (forall i :: 0 <= i < |s| ==> s[i].range.Normal())
    && (forall i, j :: 0 <= i < j < |s| ==> s[i].range.Less(s[j].range))
  }

  /** The linear scan: the value of the first range that contains the address. */
  function Scan(s: seq<Entry>, ip: address): Option<bytes> {
    if s == [] then None
    else if s[0].range.Contains(ip) then Some(s[0].value)
    else Scan(s[1..], ip)
  }

  lemma {:induction false} ScanJoin(s: seq<Entry>, t: seq<Entry>, ip: address)
    ensures Scan(s + t, ip) == if Scan(s, ip) != None then Scan(s, ip) else Scan(t, ip)
    decreases |s|
  {
    if s == [] {
      assert s + t == t;
    } else {
      assert (s + t)[1..] == s[1..] + t;
      ScanJoin(s[1..], t, ip);
    }
  }

  lemma {:induction false} ScanNothing(s: seq<Entry>, ip: address)
    requires forall i :: 0 <= i < |s| ==> !s[i].range.Contains(ip)
    ensures Scan(s, ip) == None
    decreases |s|
  {
    if s != [] {
      ScanNothing(s[1..], ip);
    }
  }

  ghost predicate NoneOverlaps(s: seq<Entry>, r: Range) {
    forall i :: 0 <= i < |s| ==> !Overlap(s[i].range, r)
  }

  lemma {:induction false} ScanFinds(s: seq<Entry>, i: nat, ip: address)
    requires i < |s| && s[i].range.Contains(ip)
    ensures Scan(s, ip) != None
    decreases |s|
  {
    if !s[0].range.Contains(ip) {
      ScanFinds(s[1..], i - 1, ip);
    }
  }

  /** The addresses that a range is given for, in whichever order its ends are. */
  predicate Between(ip: address, begin: address, end: address) {
    begin <= ip <= end || end <= ip <= begin
  }

  lemma AssignSays(begin: address, end: address)
    ensures Assign(begin, end).Normal()
    ensures forall ip: address :: Assign(begin, end).Contains(ip) <==> begin <= ip <= end || end <= ip <= begin
  {
  }

  /** A range overlaps no stored one exactly if none of its addresses is found. */
  lemma NoneFound(s: seq<Entry>, begin: address, end: address)
    ensures NoneOverlaps(s, Assign(begin, end)) <==>
            forall ip: address :: Between(ip, begin, end) ==> Scan(s, ip) == None
  {
    var r := Assign(begin, end);
    if NoneOverlaps(s, r) {
      forall ip: address | Between(ip, begin, end) ensures Scan(s, ip) == None {
        AssignSays(begin, end);
        assert forall i :: 0 <= i < |s| ==> !(s[i].range.Contains(ip) && r.Contains(ip)) by {
          assert forall i :: 0 <= i < |s| ==> !Overlap(s[i].range, r);
        }
        ScanNothing(s, ip);
      }
    } else {
      var i :| 0 <= i < |s| && Overlap(s[i].range, r);
      var ip :| s[i].range.Contains(ip) && r.Contains(ip);
      ScanFinds(s, i, ip);
      assert Between(ip, begin, end);
    }
  }

  /** The place of the key `r`: all entries before it are less, and none from it on. */
  ghost predicate IsPlace(s: seq<Entry>, r: Range, k: nat) {
    && k <= |s|
    && (forall i :: 0 <= i < k ==> s[i].range.Less(r))
    && (forall i :: k <= i < |s| ==> !s[i].range.Less(r))
  }

  /** What the ordered search for the point range finds is what the linear scan finds. */
  lemma SearchIsScan(s: seq<Entry>, ip: address, k: nat)
    requires Ordered(s) && IsPlace(s, Range(ip, ip), k)
    ensures Scan(s, ip) == if k < |s| && !Range(ip, ip).Less(s[k].range) then Some(s[k].value) else None
  {
    assert s == s[..k] + s[k..];
    ScanJoin(s[..k], s[k..], ip);
    ScanNothing(s[..k], ip);
    if k < |s| {
      if Range(ip, ip).Less(s[k].range) {
        ScanNothing(s[k..], ip);
      } else {
        assert s[k..][0].range.Contains(ip);
      }
    }
  }

  /** Whether a new range overlaps any other shows at its place. */
  lemma PlaceTells(s: seq<Entry>, r: Range, k: nat)
    requires Ordered(s) && r.Normal() && IsPlace(s, r, k)
    ensures NoneOverlaps(s, r) <==> k == |s| || r.Less(s[k].range)
  {
    forall i | 0 <= i < |s|
      ensures Overlap(s[i].range, r) <==> i >= k && !r.Less(s[i].range)
    {
      Equivalence(s[i].range, r);
    }
  }

  function Inserted(s: seq<Entry>, k: nat, e: Entry): seq<Entry>
    requires k <= |s|
  {
    s[..k] + [e] + s[k..]
  }

  lemma InsertedOrdered(s: seq<Entry>, k: nat, e: Entry)
    requires Ordered(s) && e.range.Normal() && IsPlace(s, e.range, k)
    requires k == |s| || e.range.Less(s[k].range)
    ensures Ordered(Inserted(s, k, e))
  {
    var t := Inserted(s, k, e);
    forall i | 0 <= i < |t|
      ensures t[i] == if i < k then s[i] else if i == k then e else s[i - 1]
    {
    }
  }

  /** After an insertion the addresses of the new range, and no others, find the new value. */
  lemma ScanInserted(s: seq<Entry>, k: nat, e: Entry, ip: address)
    requires k <= |s| && NoneOverlaps(s, e.range)
    ensures Scan(Inserted(s, k, e), ip) == if e.range.Contains(ip) then Some(e.value) else Scan(s, ip)
  {
    assert s == s[..k] + s[k..];
    ScanJoin(s[..k], s[k..], ip);
    ScanJoin(s[..k] + [e], s[k..], ip);
    ScanJoin(s[..k], [e], ip);
    if e.range.Contains(ip) {
      forall i | 0 <= i < k
        ensures !s[i].range.Contains(ip)
      {
        assert !Overlap(s[i].range, e.range);
      }
      ScanNothing(s[..k], ip);
    }
  }

  /** The index over the addresses of one version; the container is its sequence in order. */
  class IpRange {
    var items: seq<Entry>

    ghost predicate Valid()
      reads this
    {
      Ordered(items)
    }

    constructor ()
      ensures Valid() && items == [] && forall ip: address :: Scan(items, ip) == None
    {
      items := [];
    }

    /** std::map::lower_bound, with operator < alone. */
    method LowerBound(r: Range) returns (k: nat)
      requires Valid() && r.Normal()
      ensures IsPlace(items, r, k)
    {
      var lo, hi := 0, |items|;
      while lo < hi
        invariant 0 <= lo <= hi <= |items|
        invariant forall i :: 0 <= i < lo ==> items[i].range.Less(r)
        invariant forall i :: hi <= i < |items| ==> !items[i].range.Less(r)
      {
        var mid := (lo + hi) / 2;
        if items[mid].range.Less(r) {
          lo := mid + 1;
        } else {
          hi := mid;
        }
      }
      k := lo;
    }

    /** __insert: accepted exactly if no address of the range is found, in whichever order its ends
        are given; then its addresses, and no others, find the new value. */
    method Insert(begin: address, end: address, value: bytes) returns (ok: bool)
      requires Valid()
      modifies this
      ensures Valid()
      ensures ok <==> forall ip: address :: Between(ip, begin, end) ==> Scan(old(items), ip) == None
      ensures !ok ==> items == old(items)
      ensures ok ==> exists k | 0 <= k <= |old(items)| ::
                items == Inserted(old(items), k, Entry(Assign(begin, end), value))
      ensures forall ip: address :: Scan(items, ip) ==
                if ok && (begin <= ip <= end || end <= ip <= begin) then Some(value) else Scan(old(items), ip)
    {
      var e := Entry(Assign(begin, end), value);
      AssignSays(begin, end);
      NoneFound(items, begin, end);
      var k := LowerBound(e.range);
      PlaceTells(items, e.range, k);
      ok := k == |items| || e.range.Less(items[k].range);
      if ok {
        InsertedOrdered(items, k, e);
        forall ip: address
          ensures Scan(Inserted(items, k, e), ip) == if e.range.Contains(ip) then Some(value) else Scan(items, ip)
        {
          ScanInserted(items, k, e, ip);
        }
        items := Inserted(items, k, e);
      }
    }

    /** find4: the value of the range that contains the address, if one does. */
    method Find4(ip: address) returns (r: Option<bytes>)
      requires Valid()
      ensures r == Scan(items, ip)
      ensures r == None <==> forall i :: 0 <= i < |items| ==> ip < items[i].range.begin || items[i].range.end < ip
      ensures forall i :: 0 <= i < |items| && items[i].range.begin <= ip <= items[i].range.end ==>
                r == Some(items[i].value)
    {
      var k := LowerBound(Range(ip, ip));
      SearchIsScan(items, ip, k);
      r := if k < |items| && !Range(ip, ip).Less(items[k].range) then Some(items[k].value) else None;
    }
  }
}
