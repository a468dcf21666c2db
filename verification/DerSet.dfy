/** SET OF encodings sorted as src/der.cpp sorts them. */
module DerSet {
  import opened Wire
  import opened Der

  /** `std::lexicographical_compare` on two byte strings. */
  predicate LexLess(a: Bytes, b: Bytes)
  {
    b != [] && (a == [] || a[0] < b[0] || (a[0] == b[0] && LexLess(a[1..], b[1..])))
  }

  predicate Ascending(s: seq<Bytes>)
  {
    forall i, j :: 0 <= i < j < |s| ==> !LexLess(s[j], s[i])
  }

  function Insert(x: Bytes, s: seq<Bytes>): (r: seq<Bytes>)
    ensures multiset(r) == multiset{x} + multiset(s)
  {
    if s == [] || !LexLess(s[0], x) then [x] + s
    else
      assert s == [s[0]] + s[1..];
      [s[0]] + Insert(x, s[1..])
  }

  /** The order in which `der_set` emits its parts. */
  function Sorted(parts: seq<Bytes>): (r: seq<Bytes>)
    ensures multiset(r) == multiset(parts)
  {
    if parts == [] then []
    else
      assert parts == [parts[0]] + parts[1..];
      Insert(parts[0], Sorted(parts[1..]))
  }

  function SetOf(parts: seq<Bytes>): Bytes { Wrap(SET, Cat(Sorted(parts))) }

  method AppendSorted(parts: seq<Bytes>) returns (out: Bytes)
    ensures out == SetOf(parts)
  {
    var sorted := Sorted(parts);
    var content: Bytes := [];
    for i := 0 to |sorted|
      invariant content == Cat(sorted[..i])
    {
      CatAppend(sorted[..i], sorted[i]);
      assert sorted[..i + 1] == sorted[..i] + [sorted[i]];
      content := content + sorted[i];
    }
    assert sorted[..|sorted|] == sorted;
    var length := WriteLength([SET], |content|);
    out := length + content;
  }

  // ----- the order is a strict total order

  lemma {:induction false} LexTotal(a: Bytes, b: Bytes)
    ensures !(LexLess(a, b) && LexLess(b, a))
    ensures !LexLess(a, b) && !LexLess(b, a) ==> a == b
  {
    if a != [] && b != [] {
      LexTotal(a[1..], b[1..]);
      assert a == [a[0]] + a[1..] && b == [b[0]] + b[1..];
    }
  }

  lemma {:induction false} LexTransitive(a: Bytes, b: Bytes, c: Bytes)
    requires LexLess(a, b) && LexLess(b, c)
    ensures LexLess(a, c)
  {
    if a != [] && a[0] == b[0] == c[0] {
      LexTransitive(a[1..], b[1..], c[1..]);
    }
  }

  lemma {:induction false} NotLessTransitive(a: Bytes, b: Bytes, c: Bytes)
    requires !LexLess(b, a) && !LexLess(c, b)
    ensures !LexLess(c, a)
  {
    if LexLess(c, a) {
      LexTotal(a, b);
      if a != b { LexTransitive(c, a, b); }
    }
  }

  lemma {:induction false} InsertAscends(x: Bytes, s: seq<Bytes>)
    requires Ascending(s)
    ensures Ascending(Insert(x, s))
  {
    if s == [] {
    } else if !LexLess(s[0], x) {
      forall j | 0 <= j < |s| ensures !LexLess(s[j], x) {
        if j > 0 { NotLessTransitive(x, s[0], s[j]); }
      }
    } else {
      InsertAscends(x, s[1..]);
      var t := Insert(x, s[1..]);
      LexTotal(s[0], x);
      forall j | 0 <= j < |t| ensures !LexLess(t[j], s[0]) {
        assert t[j] in multiset(t);
        if t[j] != x {
          assert t[j] in s[1..];
        }
      }
    }
  }

  lemma {:induction false} SortedAscends(parts: seq<Bytes>)
    ensures Ascending(Sorted(parts))
  {
    if parts != [] {
      SortedAscends(parts[1..]);
      InsertAscends(parts[0], Sorted(parts[1..]));
    }
  }

  lemma {:induction false} HeadIsLeast(s: seq<Bytes>, x: Bytes)
    requires Ascending(s) && x in s
    ensures !LexLess(x, s[0])
  {
    LexTotal(x, x);
  }

  lemma TailCounts(s: seq<Bytes>)
    requires s != []
    ensures multiset(s[1..]) == multiset(s) - multiset{s[0]}
  {
    assert s == [s[0]] + s[1..];
  }

  lemma HeadsAgree(s: seq<Bytes>, t: seq<Bytes>)
    requires Ascending(s) && Ascending(t) && multiset(s) == multiset(t) && s != [] && t != []
    ensures s[0] == t[0]
  {
    hide LexLess, Ascending;
    assert s[0] in t by { assert s[0] in multiset(s); }
    assert t[0] in s by { assert t[0] in multiset(t); }
    HeadIsLeast(s, t[0]);
    HeadIsLeast(t, s[0]);
    LexTotal(s[0], t[0]);
  }

  lemma {:induction false} AscendingIsUnique(s: seq<Bytes>, t: seq<Bytes>)
    requires Ascending(s) && Ascending(t) && multiset(s) == multiset(t)
    ensures s == t
  {
    assert |s| == |multiset(s)| == |multiset(t)| == |t|;
    if s != [] {
      hide LexLess;
      HeadsAgree(s, t);
      TailCounts(s);
      TailCounts(t);
      AscendingIsUnique(s[1..], t[1..]);
    }
  }

  /** The parts come out ascending, and their order on the way in does not matter. */
  lemma {:induction false} SetOfIsCanonical(parts: seq<Bytes>, order: seq<Bytes>)
    requires multiset(parts) == multiset(order)
    ensures SetOf(parts) == SetOf(order)
    ensures Ascending(Sorted(parts)) && multiset(Sorted(parts)) == multiset(parts)
  {
    SortedAscends(parts);
    SortedAscends(order);
    AscendingIsUnique(Sorted(parts), Sorted(order));
  }

  // ----- section 11.6 of X.690

  function PaddedAt(a: Bytes, i: nat): byte { if i < |a| then a[i] else 0 }

  ghost predicate DiffersFirstAt(a: Bytes, b: Bytes, k: nat)
  {
    PaddedAt(a, k) < PaddedAt(b, k) && forall j: nat :: j < k ==> PaddedAt(a, j) == PaddedAt(b, j)
  }

  /** Comparison as octet strings, the shorter padded at its trailing end with zero octets. */
  ghost predicate PaddedLess(a: Bytes, b: Bytes)
  {
    exists k: nat :: DiffersFirstAt(a, b, k)
  }

  lemma {:induction false} LexFirstDifference(a: Bytes, b: Bytes) returns (k: nat)
    requires LexLess(a, b) && !(a <= b)
    ensures k < |a| && k < |b| && a[k] < b[k] && a[..k] == b[..k]
  {
    if a[0] < b[0] {
      k := 0;
    } else {
      assert a == [a[0]] + a[1..] && b == [b[0]] + b[1..];
      k := LexFirstDifference(a[1..], b[1..]);
      k := k + 1;
    }
  }

  lemma NoProperPrefix(a: Bytes, v: Tlv, b: Bytes, w: Tlv)
    requires Encodes(a, v) && Encodes(b, w) && a <= b
    ensures a == b
  {
    assert b == a + b[|a|..];
    EncodingsArePrefixFree(a, v, b[|a|..], w);
  }

  lemma {:induction false} LexImpliesPadded(a: Bytes, v: Tlv, b: Bytes, w: Tlv)
    requires Encodes(a, v) && Encodes(b, w) && LexLess(a, b)
    ensures PaddedLess(a, b) && !PaddedLess(b, a)
  {
    LexTotal(a, b);
    if a <= b { NoProperPrefix(a, v, b, w); }
    var k := LexFirstDifference(a, b);
    assert forall j: nat :: j < k ==> a[..k][j] == a[j] && b[..k][j] == b[j];
    assert DiffersFirstAt(a, b, k);
    forall m: nat ensures !DiffersFirstAt(b, a, m) {
      if m < k { assert PaddedAt(a, m) == PaddedAt(b, m); }
    }
  }

  /** On whole fields the sort order is the order of section 11.6 of X.690. */
  lemma {:induction false} SortOrderIsX690(a: Bytes, v: Tlv, b: Bytes, w: Tlv)
    requires Encodes(a, v) && Encodes(b, w)
    ensures LexLess(a, b) <==> PaddedLess(a, b)
  {
    LexTotal(a, b);
    if LexLess(a, b) {
      LexImpliesPadded(a, v, b, w);
    } else if a != b {
      LexImpliesPadded(b, w, a, v);
    }
  }
}
