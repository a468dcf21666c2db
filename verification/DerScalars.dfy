/** INTEGER and OBJECT IDENTIFIER contents as src/der.cpp prints them. */
module DerScalars {
  import opened Wire
  import opened Der

  // ----- INTEGER

  /** Contents octets of section 8.3 of X.690 for a non-negative value: no octet to spare. */
  predicate MinimalInteger(c: Bytes)
  {
    && c != [] && c[0] < 0x80
    && (|c| > 1 && c[0] == 0 ==> c[1] >= 0x80)
  }

  /** Drops zero octets that carry no sign, then adds the one that keeps the sign clear. */
  function Minimize(data: Bytes): Bytes
  {
    if |data| > 1 && data[0] == 0 && data[1] < 0x80 then Minimize(data[1..])
    else if |data| > 0 && data[0] >= 0x80 then [0] + data
    else data
  }

  /** Big-endian octets of a positive number, none for zero. */
  function Octets(v: nat): Bytes
  {
    if v == 0 then [] else Octets(v / 0x100) + [v % 0x100]
  }

  function Integer(v: nat): Bytes { Wrap(INTEGER, Minimize(if v == 0 then [0] else Octets(v))) }

  method IntegerFromOctets(octets: Bytes) returns (out: Bytes)
    ensures out == Wrap(INTEGER, Minimize(octets))
  {
    var data := octets;
    while |data| > 1 && data[0] == 0 && data[1] < 0x80
      invariant Minimize(data) == Minimize(octets)
      decreases |data|
    {
      data := data[1..];
    }
    var content := data;
    if |data| > 0 && data[0] >= 0x80 {
      content := [0] + data;
    }
    var head := WriteLength([INTEGER], |content|);
    out := head + content;
  }

  method CountOctets(value: nat) returns (n: nat)
    requires value < TWO_64
    ensures n == |Octets(value)| <= 8
  {
    n := 0;
    var tmp := value;
    assert OctetBound(8) == TWO_64;
    while tmp > 0
      invariant 0 <= tmp && n <= 8
      invariant tmp < OctetBound(8 - n)
      invariant |Octets(value)| == n + |Octets(tmp)|
    {
      tmp := tmp / 0x100;
      n := n + 1;
    }
  }

  /** The `int64_t` overload: count the octets, then fill a fixed buffer from its end. */
  method IntegerFromValue(value: int) returns (r: Outcome<Bytes>)
    requires -0x8000_0000_0000_0000 <= value < 0x8000_0000_0000_0000
    ensures value < 0 ==> r == Throws
    ensures value >= 0 ==> r == Ok(Integer(value))
  {
    if value < 0 { return Throws; }
    var buf := new byte[8](i => 0);
    var n := 1;
    if value != 0 {
      n := CountOctets(value);
      FillOctets(buf, value, n);
    } else {
      assert buf[..n] == [0];
    }
    var out := IntegerFromOctets(buf[..n]);
    return Ok(out);
  }

  method FillOctets(buf: array<byte>, value: nat, n: nat)
    requires n == |Octets(value)| <= buf.Length
    modifies buf
    ensures buf[..n] == Octets(value)
  {
    hide Octets;
    ghost var all := Octets(value);
    var v: nat, i := value, n - 1;
    while i >= 0
      invariant -1 <= i < n
      invariant Octets(v) == all[..i + 1]
      invariant forall j :: i < j < n ==> buf[j] == all[j]
    {
      OctetsStep(v);
      assert all[..i + 1][i] == all[i] && all[..i + 1][..i] == all[..i];
      buf[i] := v % 0x100;
      v := v / 0x100;
      i := i - 1;
    }
  }

  lemma {:induction false} OctetsStep(v: nat)
    ensures Octets(v) != [] ==> Octets(v)[|Octets(v)| - 1] == v % 0x100
    ensures Octets(v) != [] ==> Octets(v)[..|Octets(v)| - 1] == Octets(v / 0x100)
  {
  }

  function OctetBound(k: nat): nat { if k == 0 then 1 else 0x100 * OctetBound(k - 1) }

  lemma {:induction false} BigEndianPrepend(first: byte, s: Bytes)
    ensures BigEndian([first] + s) == first as int * OctetBound(|s|) + BigEndian(s)
  {
    if s == [] {
      assert ([first] + s)[..0] == [];
    } else {
      var t := [first] + s;
      assert t[..|t| - 1] == [first] + s[..|s| - 1];
      BigEndianPrepend(first, s[..|s| - 1]);
    }
  }

  /** The value is kept, and the contents are minimal unless there were no octets at all. */
  lemma {:induction false} MinimizeKeepsValue(data: Bytes)
    ensures BigEndian(Minimize(data)) == BigEndian(data)
    ensures MinimalInteger(Minimize(data)) <==> data != []
  {
    BigEndianPrepend(0, data);
    if |data| > 1 && data[0] == 0 && data[1] < 0x80 {
      assert data == [0] + data[1..];
      BigEndianPrepend(0, data[1..]);
      MinimizeKeepsValue(data[1..]);
    }
  }

  lemma {:induction false} OctetsValue(v: nat)
    ensures BigEndian(Octets(v)) == v && (v > 0 ==> Octets(v) != [])
  {
    if v > 0 {
      OctetsValue(v / 0x100);
      var s := Octets(v);
      assert s[..|s| - 1] == Octets(v / 0x100);
    }
  }

  lemma {:induction false} ZeroHasOneForm(c: Bytes)
    requires MinimalInteger(c) && BigEndian(c) == 0
    ensures c == [0]
  {
    if |c| > 1 {
      ZeroHasOneForm(c[..|c| - 1]);
    }
  }

  /** Minimal contents octets are unique: equal values have equal encodings. */
  lemma {:induction false} MinimalIsUnique(c: Bytes, d: Bytes)
    requires MinimalInteger(c) && MinimalInteger(d) && BigEndian(c) == BigEndian(d)
    ensures c == d
    decreases |c| + |d|
  {
    var cs, ds := c[..|c| - 1], d[..|d| - 1];
    assert c == cs + [c[|c| - 1]] && d == ds + [d[|d| - 1]];
    assert BigEndian(cs) == BigEndian(ds) && c[|c| - 1] == d[|d| - 1];
    if cs == [] && ds != [] {
      ZeroHasOneForm(ds);
    } else if ds == [] && cs != [] {
      ZeroHasOneForm(cs);
    } else if cs != [] {
      assert cs[0] == c[0] && ds[0] == d[0];
      MinimalIsUnique(cs, ds);
    }
  }

  /** `der_integer` prints the one minimal encoding of its value. */
  lemma {:induction false} IntegerIsMinimal(v: nat, c: Bytes)
    requires MinimalInteger(c) && BigEndian(c) == v
    ensures Integer(v) == Wrap(INTEGER, c)
  {
    var data := if v == 0 then [0] else Octets(v);
    OctetsValue(v);
    assert BigEndian([0]) == 0 by { assert [0][..0] == []; }
    MinimizeKeepsValue(data);
    MinimalIsUnique(Minimize(data), c);
  }

  // ----- OBJECT IDENTIFIER

  function ContinuedArc(v: nat): Bytes
  {
    (if v < 0x80 then [] else ContinuedArc(v / 0x80)) + [v % 0x80 + 0x80]
  }

  /** One component in base 128, every octet but the last with its top bit set. */
  function Arc(v: nat): Bytes
  {
    (if v < 0x80 then [] else ContinuedArc(v / 0x80)) + [v % 0x80]
  }

  function Arcs(components: seq<nat>): (r: seq<Bytes>)
    ensures |r| == |components| && forall i :: 0 <= i < |r| ==> r[i] == Arc(components[i])
  {
    seq(|components|, i requires 0 <= i < |components| => Arc(components[i]))
  }

  function OidContent(components: seq<nat>): (content: Bytes)
    requires |components| >= 2
    ensures content != []
  {
    [(40 * components[0] + components[1]) % 0x100] + Cat(Arcs(components[2..]))
  }

  function Oid(components: seq<nat>): Bytes
    requires |components| >= 2
  {
    Wrap(OID, OidContent(components))
  }

  function ArcBound(k: nat): nat { if k == 0 then 1 else 0x80 * ArcBound(k - 1) }

  /** What the scratch buffer holds after `n` steps, most significant octet first. */
  ghost predicate HoldsArc(buf: seq<byte>, n: nat, high: Bytes)
    requires 1 <= n <= |buf|
  {
    |high| == n - 1 && forall j :: 1 <= j < n ==> buf[j] < 0x80 && high[n - 1 - j] == buf[j] + 0x80
  }

  /** One component through the 10-octet scratch buffer: least significant octet first. */
  method AppendArc(content: Bytes, component: nat) returns (out: Bytes)
    requires component < TWO_64
    ensures out == content + Arc(component)
  {
    hide HoldsArc, ContinuedArc, Arc;
    var buf := new byte[10](i => 0);
    var v: nat := component / 0x80;
    buf[0] := component % 0x80;
    var n := 1;
    ghost var high: Bytes := [];
    assert ArcBound(9) == 0x8000_0000_0000_0000;
    ArcStarts(component, buf[..]);
    while v > 0
      invariant 1 <= n <= 10 && buf[0] == component % 0x80
      invariant v < ArcBound(10 - n)
      invariant |high| == n - 1
      invariant HoldsArc(buf[..], n, high)
      invariant Arc(component) == (if v == 0 then [] else ContinuedArc(v)) + (high + [component % 0x80])
    {
      ArcStep(v, high + [component % 0x80]);
      HoldsStep(buf[..], n, high, v % 0x80);
      buf[n] := v % 0x80;
      high := [v % 0x80 + 0x80] + high;
      assert high + [component % 0x80] == [v % 0x80 + 0x80] + (high[1..] + [component % 0x80]);
      n := n + 1;
      v := v / 0x80;
    }
    out := PushArc(content, buf, n, high);
    assert content + high + [component % 0x80] == content + ([] + (high + [component % 0x80]));
  }

  lemma {:induction false} ArcStarts(component: nat, buf: seq<byte>)
    requires |buf| >= 1
    ensures Arc(component) ==
            (if component / 0x80 == 0 then [] else ContinuedArc(component / 0x80)) + ([] + [component % 0x80])
    ensures HoldsArc(buf, 1, [])
  {
  }

  lemma HoldsStep(buf: seq<byte>, n: nat, high: Bytes, x: byte)
    requires 1 <= n < |buf| && HoldsArc(buf, n, high) && x < 0x80
    ensures HoldsArc(buf[n := x], n + 1, [x + 0x80] + high)
  {
  }

  lemma {:induction false} ArcStep(v: nat, low: Bytes)
    requires v > 0
    ensures ContinuedArc(v) + low == (if v / 0x80 == 0 then [] else ContinuedArc(v / 0x80)) + ([v % 0x80 + 0x80] + low)
  {
  }

  method PushArc(content: Bytes, buf: array<byte>, n: nat, ghost high: Bytes) returns (out: Bytes)
    requires 1 <= n <= buf.Length && HoldsArc(buf[..], n, high)
    ensures out == content + high + [buf[0]]
  {
    out := content;
    var j := n - 1;
    while j > 0
      invariant 0 <= j < n
      invariant out == content + high[..n - 1 - j]
    {
      assert high[..n - j] == high[..n - 1 - j] + [high[n - 1 - j]];
      assert buf[..][j] == buf[j];
      out := out + [buf[j] + 0x80];
      j := j - 1;
    }
    assert high[..n - 1] == high;
    out := out + [buf[0]];
  }

  method OidFromComponents(components: seq<nat>) returns (r: Outcome<Bytes>)
    requires forall c :: c in components ==> c < TWO_64
    ensures |components| < 2 ==> r == Throws
    ensures |components| >= 2 ==> r == Ok(Oid(components))
  {
    if |components| < 2 { return Throws; }
    var content: Bytes := [(40 * components[0] + components[1]) % 0x100];
    ghost var arcs := Arcs(components[2..]);
    for i := 2 to |components|
      invariant content == [(40 * components[0] + components[1]) % 0x100] + Cat(arcs[..i - 2])
    {
      assert components[i] in components;
      content := AppendArc(content, components[i]);
      CatAppend(arcs[..i - 2], arcs[i - 2]);
      assert arcs[..i - 1] == arcs[..i - 2] + [arcs[i - 2]];
    }
    assert arcs[..|components| - 2] == arcs;
    var head := WriteLength([OID], |content|);
    return Ok(head + content);
  }

  /** Reads base-128 numbers; `acc` holds the octets of an unfinished one. */
  function ReadArcs(s: Bytes, acc: nat): Outcome<seq<nat>>
  {
    if s == [] then (if acc == 0 then Ok([]) else Throws)
    else if s[0] >= 0x80 then ReadArcs(s[1..], 0x80 * acc + (s[0] - 0x80))
    else
      PrependArc(0x80 * acc + s[0], ReadArcs(s[1..], 0))
  }

  function PrependArc(v: nat, rest: Outcome<seq<nat>>): Outcome<seq<nat>>
  {
    match rest
    case Throws => Throws
    case Ok(vs) => Ok([v] + vs)
  }

  /** Section 8.19.4 of X.690: the first number holds the first two components. */
  function ReadOid(content: Bytes): Outcome<seq<nat>>
  {
    match ReadArcs(content, 0)
    case Throws => Throws
    case Ok(vs) =>
      if vs == [] then Throws
      else
        var top := if vs[0] < 40 then 0 else if vs[0] < 80 then 1 else 2;
        Ok([top, vs[0] - 40 * top] + vs[1..])
  }

  lemma {:induction false} ReadContinued(v: nat, s: Bytes)
    ensures ReadArcs(ContinuedArc(v) + s, 0) == ReadArcs(s, v)
  {
    var last: Bytes := [v % 0x80 + 0x80];
    assert (last + s)[1..] == s;
    if v < 0x80 {
      assert ContinuedArc(v) + s == last + s;
    } else {
      assert ContinuedArc(v) + s == ContinuedArc(v / 0x80) + (last + s);
      ReadContinued(v / 0x80, last + s);
    }
  }

  lemma {:induction false} ReadArc(v: nat, s: Bytes)
    ensures ReadArcs(Arc(v) + s, 0) == PrependArc(v, ReadArcs(s, 0))
  {
    var last: Bytes := [v % 0x80];
    assert (last + s)[1..] == s;
    if v < 0x80 {
      assert Arc(v) + s == last + s;
    } else {
      assert Arc(v) + s == ContinuedArc(v / 0x80) + (last + s);
      ReadContinued(v / 0x80, last + s);
    }
  }

  lemma ArcsPrepend(v: nat, vs: seq<nat>)
    ensures Cat(Arcs([v] + vs)) == Arc(v) + Cat(Arcs(vs))
  {
    assert Arcs([v] + vs) == [Arc(v)] + Arcs(vs);
    assert ([Arc(v)] + Arcs(vs))[1..] == Arcs(vs);
  }

  lemma {:induction false} ReadAllArcs(vs: seq<nat>)
    ensures ReadArcs(Cat(Arcs(vs)), 0) == Ok(vs)
  {
    if vs != [] {
      ReadAllArcs(vs[1..]);
      assert vs == [vs[0]] + vs[1..];
      ArcsPrepend(vs[0], vs[1..]);
      ReadArc(vs[0], Cat(Arcs(vs[1..])));
    }
  }

  /** The components that section 8.19.4 of X.690 allows, with the first two fitting seven bits. */
  predicate IsPrintableOid(components: seq<nat>)
    requires |components| >= 2
  {
    && components[0] <= 2 && (components[0] < 2 ==> components[1] < 40)
    && 40 * components[0] + components[1] < 0x80
  }

  /** An identifier reads back unchanged exactly when its first two components fit one octet. */
  lemma OidReadsBack(components: seq<nat>)
    requires |components| >= 2
    ensures ReadOid(OidContent(components)) == Ok(components) <==> IsPrintableOid(components)
  {
    hide ReadArcs, OidContent;
    assert components == [components[0], components[1]] + components[2..];
    if 40 * components[0] + components[1] < 0x80 {
      ArcsOfContent(components);
    } else {
      LargeHeadIsLost(components);
    }
  }

  /** How many numbers are read does not depend on the octets that came before. */
  lemma {:induction false} ReadCount(s: Bytes, a: nat, b: nat)
    requires ReadArcs(s, a).Ok? && ReadArcs(s, b).Ok?
    ensures |ReadArcs(s, a).value| == |ReadArcs(s, b).value|
  {
    if s != [] && s[0] >= 0x80 { ReadCount(s[1..], 0x80 * a + (s[0] - 0x80), 0x80 * b + (s[0] - 0x80)); }
  }

  /** The truncated first octet stands for another number, or runs into the component after it. */
  lemma LargeHeadIsLost(components: seq<nat>)
    requires |components| >= 2 && 40 * components[0] + components[1] >= 0x80
    ensures ReadOid(OidContent(components)) != Ok(components)
  {
    hide ContinuedArc, Arcs;
    var first: byte := (40 * components[0] + components[1]) % 0x100;
    var tail := Cat(Arcs(components[2..]));
    assert OidContent(components) == [first] + tail && ([first] + tail)[1..] == tail;
    ReadAllArcs(components[2..]);
    if first >= 0x80 && ReadArcs(tail, first - 0x80).Ok? {
      ReadCount(tail, 0, first - 0x80);
    }
  }

  lemma ArcsOfContent(components: seq<nat>)
    requires |components| >= 2 && 40 * components[0] + components[1] < 0x80
    ensures ReadArcs(OidContent(components), 0) == Ok([40 * components[0] + components[1]] + components[2..])
  {
    hide ReadArcs, ContinuedArc, Arcs;
    var first: nat := 40 * components[0] + components[1];
    ReadAllArcs(components[2..]);
    ReadArc(first, Cat(Arcs(components[2..])));
    assert Arc(first) == [first];
  }

  lemma SmallArcs()
    ensures Cat(Arcs([1, 7, 2])) == [1, 7, 2]
  {
    ArcsPrepend(2, []);
    ArcsPrepend(7, [2]);
    ArcsPrepend(1, [7, 2]);
    assert [2] + [] == [2] && [7] + [2] == [7, 2] && [1] + [7, 2] == [1, 7, 2];
  }

  lemma LargeArcs()
    ensures Arc(840) == [0x86, 0x48] && Arc(113549) == [0x86, 0xf7, 0x0d]
  {
    assert ContinuedArc(887) == ContinuedArc(6) + [0xf7];
  }

  /** The printer agrees with the constant that src/x509.cpp compares against. */
  lemma SignedDataOidOctets(components: seq<nat>)
    requires components == [1, 2, 840, 113549, 1, 7, 2]
    ensures OidContent(components) == [0x2a, 0x86, 0x48, 0x86, 0xf7, 0x0d, 0x01, 0x07, 0x02]
  {
    var rest := components[2..];
    assert rest == [840] + ([113549] + [1, 7, 2]);
    ArcsPrepend(113549, [1, 7, 2]);
    ArcsPrepend(840, [113549] + [1, 7, 2]);
    SmallArcs();
    LargeArcs();
  }
}
