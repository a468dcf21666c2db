/** Bytes, little-endian fields and thrown exceptions, shared by every component. */
module Wire {
  type byte = x: int | 0 <= x < 0x100
  type Bytes = seq<byte>

  /** The smallest length that four DER length octets, or a `uint32_t`, cannot hold. */
  const TWO_32 := 0x1_0000_0000
  const TWO_64 := 0x1_0000_0000_0000_0000

  /** Values of `uint64_t`: assigning to this type is the proof that nothing wrapped. */
  type u64 = x: int | 0 <= x < TWO_64

  type u16 = x: int | 0 <= x < 0x1_0000

  /** A call that returns normally or throws `std::runtime_error`. */
  datatype Outcome<+T> = Ok(value: T) | Throws {
    predicate IsFailure() { Throws? }
    function PropagateFailure<U>(): Outcome<U>
      requires Throws?
    {
      Throws
    }
    function Extract(): T
      requires Ok?
    {
      value
    }
  }

  datatype Option<+T> = None | Some(value: T)

  function Le16(f: Bytes, at: nat): (v: u16)
    requires at + 2 <= |f|
  {
    f[at] as int + 0x100 * f[at + 1] as int
  }

  function Le32(f: Bytes, at: nat): (v: nat)
    requires at + 4 <= |f|
    ensures v < TWO_32
  {
    Le16(f, at) as int + 0x1_0000 * Le16(f, at + 2) as int
  }

  /** The number written by big-endian octets. */
  function BigEndian(s: Bytes): (v: nat)
  {
    if s == [] then 0 else 0x100 * BigEndian(s[..|s| - 1]) + s[|s| - 1] as int
  }

  function Cat<T>(parts: seq<seq<T>>): (r: seq<T>)
  {
    if parts == [] then [] else parts[0] + Cat(parts[1..])
  }

  lemma {:induction false} CatBound<T>(parts: seq<seq<T>>, i: nat)
    requires i < |parts|
    ensures |parts[i]| <= |Cat(parts)|
  {
    if i > 0 { CatBound(parts[1..], i - 1); }
  }

  lemma {:induction false} CatAppend<T>(parts: seq<seq<T>>, last: seq<T>)
    ensures Cat(parts + [last]) == Cat(parts) + last
  {
    if parts == [] {
      assert [last][1..] == [];
    } else {
      assert (parts + [last])[1..] == parts[1..] + [last];
      CatAppend(parts[1..], last);
    }
  }

  /** Quotient and remainder are determined by what they add up to. */
  lemma DivModIs(n: int, d: nat, q: int, r: nat)
    requires n == d * q + r && r < d
    ensures n / d == q && n % d == r
  {
    var x := n / d - q;
    assert d * x == d * (n / d) - d * q;
    assert d * x == r - n % d;
    MultipleBound(d, x);
  }

  lemma MultipleBound(d: int, x: int)
    requires d >= 0
    ensures x >= 1 ==> d * x >= d
    ensures x <= -1 ==> d * x <= -d
  {
    assert d * x == d * (x - 1) + d == d * (x + 1) - d;
  }
}
