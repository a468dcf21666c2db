/** Half-open ranges, sorted and swept as src/msi_recursive.cpp does to find overlaps. */
module Ranges {
  datatype Range = Range(start: nat, end: nat) {
    predicate Valid() { start <= end }
  }

  /** `std::pair` order. */
  predicate Below(a: Range, b: Range) { a.start < b.start || (a.start == b.start && a.end <= b.end) }

  /** Neither range starts inside the other; an empty range may sit on an edge, not inside. */
  predicate Apart(a: Range, b: Range) { a.end <= b.start || b.end <= a.start }

  predicate AllApart(a: Range, rs: seq<Range>) { forall b :: b in rs ==> Apart(a, b) }

  predicate Disjoint(rs: seq<Range>)
  {
    rs == [] || (AllApart(rs[0], rs[1..]) && Disjoint(rs[1..]))
  }

  predicate AllValid(rs: seq<Range>) { forall r :: r in rs ==> r.Valid() }

  function Insert(x: Range, s: seq<Range>): seq<Range>
  {
    if s == [] || Below(x, s[0]) then [x] + s else [s[0]] + Insert(x, s[1..])
  }

  function Sorted(rs: seq<Range>): seq<Range> { if rs == [] then [] else Insert(rs[0], Sorted(rs[1..])) }

  predicate Ascending(s: seq<Range>) { |s| <= 1 || (Below(s[0], s[1]) && Ascending(s[1..])) }

  /** The sweep: every range starts no earlier than the one before it ended. */
  predicate Sweeps(s: seq<Range>, end: nat)
  {
    s == [] || (end <= s[0].start && Sweeps(s[1..], s[0].end))
  }

  function Size(r: Range): nat { if r.start <= r.end then r.end - r.start else 0 }
  function TotalSize(rs: seq<Range>): nat { if rs == [] then 0 else Size(rs[0]) + TotalSize(rs[1..]) }

  method Sweep(rs: seq<Range>, start: nat) returns (ok: bool)
    requires AllValid(rs)
    ensures ok <==> Disjoint(rs) && forall r :: r in rs ==> start <= r.start
  {
    var sorted := Sorted(rs);
    SweepFindsOverlaps(rs, start);
    var end := start;
    for i := 0 to |sorted|
      invariant Sweeps(sorted, start) == Sweeps(sorted[i..], end)
    {
      assert sorted[i..][1..] == sorted[i + 1..];
      if sorted[i].start < end { return false; }
      end := sorted[i].end;
    }
    return true;
  }

  // ----- sorting keeps the ranges

  lemma ApartFromInsert(a: Range, x: Range, s: seq<Range>, t: seq<Range>)
    requires forall r :: r in t <==> r == x || r in s
    ensures AllApart(a, t) <==> Apart(a, x) && AllApart(a, s)
  {
    assert x in t;
  }

  lemma {:induction false} InsertKeeps(x: Range, s: seq<Range>)
    ensures forall r :: r in Insert(x, s) <==> r == x || r in s
    ensures TotalSize(Insert(x, s)) == Size(x) + TotalSize(s)
    ensures Disjoint(Insert(x, s)) <==> AllApart(x, s) && Disjoint(s)
  {
    if s == [] || Below(x, s[0]) {
      assert ([x] + s)[1..] == s;
    } else {
      InsertKeeps(x, s[1..]);
      var t := Insert(x, s[1..]);
      assert ([s[0]] + t)[1..] == t;
      assert s == [s[0]] + s[1..];
      assert AllApart(s[0], t) <==> Apart(s[0], x) && AllApart(s[0], s[1..]) by { ApartFromInsert(s[0], x, s[1..], t); }
      assert AllApart(x, s) <==> Apart(x, s[0]) && AllApart(x, s[1..]) by { ApartFromInsert(x, s[0], s[1..], s); }
    }
  }

  lemma {:induction false} SortedKeeps(rs: seq<Range>)
    ensures forall r :: r in Sorted(rs) <==> r in rs
    ensures TotalSize(Sorted(rs)) == TotalSize(rs)
    ensures Disjoint(Sorted(rs)) <==> Disjoint(rs)
  {
    if rs != [] {
      SortedKeeps(rs[1..]);
      InsertKeeps(rs[0], Sorted(rs[1..]));
      assert rs == [rs[0]] + rs[1..];
    }
  }

  lemma {:induction false} InsertAscends(x: Range, s: seq<Range>)
    requires Ascending(s)
    ensures Ascending(Insert(x, s))
    ensures s != [] && !Below(x, s[0]) ==> Insert(x, s)[0] == s[0]
  {
    if s == [] || Below(x, s[0]) {
      assert ([x] + s)[1..] == s;
    } else {
      InsertAscends(x, s[1..]);
      var t := Insert(x, s[1..]);
      assert ([s[0]] + t)[1..] == t;
    }
  }

  lemma {:induction false} SortedAscends(rs: seq<Range>)
    ensures Ascending(Sorted(rs))
  {
    if rs != [] {
      SortedAscends(rs[1..]);
      InsertAscends(rs[0], Sorted(rs[1..]));
    }
  }

  lemma {:induction false} AscendingHead(s: seq<Range>, r: Range)
    requires Ascending(s) && s != [] && r in s
    ensures Below(s[0], r)
  {
    if r != s[0] {
      assert s == [s[0]] + s[1..];
      AscendingHead(s[1..], r);
    }
  }

  /** On sorted valid ranges the sweep accepts exactly the disjoint ones above `end`. */
  lemma {:induction false} SweepIsDisjoint(s: seq<Range>, end: nat)
    requires Ascending(s) && AllValid(s)
    ensures Sweeps(s, end) <==> Disjoint(s) && forall r :: r in s ==> end <= r.start
  {
    if s != [] {
      SweepIsDisjoint(s[1..], s[0].end);
      assert s == [s[0]] + s[1..];
      forall r | r in s[1..] ensures Apart(s[0], r) <==> s[0].end <= r.start {
        AscendingHead(s, r);
      }
      forall r | r in s ensures Below(s[0], r) { AscendingHead(s, r); }
    }
  }

  /**
   * The sorted sweep accepts exactly when every range starts at or after `start` and no two
   * overlap, whatever their order and whether or not some are empty.
   */
  lemma {:induction false} SweepFindsOverlaps(rs: seq<Range>, start: nat)
    requires AllValid(rs)
    ensures Sweeps(Sorted(rs), start) <==> Disjoint(rs) && forall r :: r in rs ==> start <= r.start
  {
    SortedKeeps(rs);
    SortedAscends(rs);
    SweepIsDisjoint(Sorted(rs), start);
  }

  lemma {:induction false} SweptFit(s: seq<Range>, end: nat, bound: nat)
    requires Sweeps(s, end) && AllValid(s) && end <= bound && forall r :: r in s ==> r.end <= bound
    ensures TotalSize(s) <= bound - end
  {
    if s != [] {
      SweptFit(s[1..], s[0].end, bound);
    }
  }

  /** Disjoint ranges below `bound` together take no more than `bound`. */
  lemma {:induction false} DisjointFit(rs: seq<Range>, bound: nat)
    requires AllValid(rs) && Disjoint(rs) && forall r :: r in rs ==> r.end <= bound
    ensures TotalSize(rs) <= bound
  {
    SortedKeeps(rs);
    SweepFindsOverlaps(rs, 0);
    SweptFit(Sorted(rs), 0, bound);
  }

  lemma {:induction false} DisjointAt(rs: seq<Range>, i: nat, j: nat)
    requires Disjoint(rs) && i < j < |rs|
    ensures Apart(rs[i], rs[j])
  {
    if i > 0 { DisjointAt(rs[1..], i - 1, j - 1); }
  }
}
