/** Little-endian fields as they are printed, and reading them back out of a file that holds them. */
module Print {
  import opened Wire

  function U16(v: nat): (b: Bytes)
    requires v < 0x1_0000
    ensures |b| == 2
  {
    [v % 0x100, v / 0x100]
  }

  function U32(v: nat): (b: Bytes)
    requires v < TWO_32
    ensures |b| == 4
  {
    U16(v % 0x1_0000) + U16(v / 0x1_0000)
  }

  /** `f` holds the bytes `x` at `at`. */
  predicate Holds(f: Bytes, at: nat, x: Bytes) { at + |x| <= |f| && f[at..at + |x|] == x }

  lemma HoldsParts(f: Bytes, at: nat, a: Bytes, b: Bytes)
    ensures Holds(f, at, a + b) <==> Holds(f, at, a) && Holds(f, at + |a|, b)
  {
    if Holds(f, at, a + b) {
      var x := f[at..at + |a + b|];
      assert f[at..at + |a|] == x[..|a|] == a;
      assert f[at + |a|..at + |a| + |b|] == x[|a|..] == b;
    }
    if Holds(f, at, a) && Holds(f, at + |a|, b) {
      assert f[at..at + |a + b|] == f[at..at + |a|] + f[at + |a|..at + |a| + |b|];
    }
  }

  lemma HoldsAt(f: Bytes, at: nat, x: Bytes, i: nat)
    requires Holds(f, at, x) && i < |x|
    ensures f[at + i] == x[i]
  {
    assert f[at..at + |x|][i] == f[at + i];
  }

  lemma Reads16(f: Bytes, at: nat, v: nat)
    requires v < 0x1_0000 && Holds(f, at, U16(v))
    ensures Le16(f, at) == v
  {
    HoldsAt(f, at, U16(v), 0);
    HoldsAt(f, at, U16(v), 1);
  }

  lemma Reads32(f: Bytes, at: nat, v: nat)
    requires v < TWO_32 && Holds(f, at, U32(v))
    ensures Le32(f, at) == v
  {
    hide U16, Holds;
    HoldsParts(f, at, U16(v % 0x1_0000), U16(v / 0x1_0000));
    Reads16(f, at, v % 0x1_0000);
    Reads16(f, at + 2, v / 0x1_0000);
  }

  lemma HoldsFits(f: Bytes, at: nat, x: Bytes)
    requires Holds(f, at, x)
    ensures at + |x| <= |f|
  {
  }
}
