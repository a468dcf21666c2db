/** The two Base64 codecs of src/base64.cpp (sections 4 and 5 of RFC 4648). */
module Base64 {
  import opened Wire

  type sextet = x: int | 0 <= x < 64

  /** The table with `+` and `/`, padded, or the one with `-` and `_`, unpadded. */
  datatype Alphabet = Standard | Url

  function Letter(a: Alphabet, v: sextet): char
  {
    if v < 26 then 'A' + v as char
    else if v < 52 then 'a' + (v - 26) as char
    else if v < 62 then '0' + (v - 52) as char
    else if a.Standard? then (if v == 62 then '+' else '/')
    else (if v == 62 then '-' else '_')
  }

  function LetterValue(a: Alphabet, c: char): Option<sextet>
  {
    if 'A' <= c <= 'Z' then Some(c as int - 'A' as int)
    else if 'a' <= c <= 'z' then Some(c as int - 'a' as int + 26)
    else if '0' <= c <= '9' then Some(c as int - '0' as int + 52)
    else if c == (if a.Standard? then '+' else '-') then Some(62)
    else if c == (if a.Standard? then '/' else '_') then Some(63)
    else None
  }

  // ----- encoding

  /** The sextets of one group of one to three octets, zero bits filling the last. */
  function GroupSextets(g: Bytes): seq<sextet>
    requires 1 <= |g| <= 3
  {
    var n := GroupValue(g);
    [n / 0x4_0000, n / 0x1000 % 64]
      + (if |g| > 1 then [n / 64 % 64] else [])
      + (if |g| > 2 then [n % 64] else [])
  }

  function GroupValue(g: Bytes): (n: nat)
    requires 1 <= |g| <= 3
    ensures n < 0x100_0000
  {
    0x1_0000 * g[0] as int + (if |g| > 1 then 0x100 * g[1] as int else 0) + (if |g| > 2 then g[2] as int else 0)
  }

  function Letters(a: Alphabet, vs: seq<sextet>): (s: string)
    ensures |s| == |vs| && forall i :: 0 <= i < |vs| ==> s[i] == Letter(a, vs[i])
  {
    seq(|vs|, i requires 0 <= i < |vs| => Letter(a, vs[i]))
  }

  function Padding(a: Alphabet, g: Bytes): string
  {
    if a.Url? || |g| == 3 then "" else if |g| == 2 then "=" else "=="
  }

  function EncodeGroup(a: Alphabet, g: Bytes): string
    requires 1 <= |g| <= 3
  {
    Letters(a, GroupSextets(g)) + Padding(a, g)
  }

  function LastGroup(b: Bytes): nat
    requires b != []
  {
    (|b| - 1) / 3 * 3
  }

  function Encode(a: Alphabet, b: Bytes): string
  {
    if b == [] then "" else Encode(a, b[..LastGroup(b)]) + EncodeGroup(a, b[LastGroup(b)..])
  }

  /** One pass of the encoding loop: the group that starts at `i`. */
  method PushGroup(a: Alphabet, buffer: string, data: Bytes, i: nat) returns (out: string)
    requires i < |data|
    ensures out == buffer + EncodeGroup(a, data[i..if i + 3 < |data| then i + 3 else |data|])
  {
    hide Letter;
    var len := |data|;
    var n: nat := 0x1_0000 * data[i] as int;
    if i + 1 < len { n := n + 0x100 * data[i + 1] as int; }
    if i + 2 < len { n := n + data[i + 2] as int; }
    ghost var g := data[i..if i + 3 < len then i + 3 else len];
    assert n == GroupValue(g);
    out := buffer + [Letter(a, n / 0x4_0000)];
    out := out + [Letter(a, n / 0x1000 % 64)];
    if i + 1 < len { out := out + [Letter(a, n / 64 % 64)]; } else if a.Standard? { out := out + ['=']; }
    if i + 2 < len { out := out + [Letter(a, n % 64)]; } else if a.Standard? { out := out + ['=']; }
    assert out[|buffer|..] == EncodeGroup(a, g);
  }

  lemma {:induction false} EncodeNothing(a: Alphabet)
    ensures Encode(a, []) == ""
  {
  }

  lemma {:induction false} EncodeStep(a: Alphabet, data: Bytes, i: nat)
    requires i < |data| && i % 3 == 0
    ensures var end := if i + 3 < |data| then i + 3 else |data|;
            Encode(a, data[..end]) == Encode(a, data[..i]) + EncodeGroup(a, data[i..end])
  {
    hide EncodeGroup;
    var end := if i + 3 < |data| then i + 3 else |data|;
    var part := data[..end];
    DivModIs(end - 1, 3, i / 3, end - 1 - i);
    assert part[..i] == data[..i] && part[i..] == data[i..end];
  }

  method EncodeLoop(a: Alphabet, data: Bytes) returns (out: string)
    ensures out == Encode(a, data)
  {
    hide EncodeGroup, Encode;
    out := "";
    EncodeNothing(a);
    var i, len := 0, |data|;
    while i < len
      invariant 0 <= i && i % 3 == 0
      invariant out == Encode(a, data[..if i < len then i else len])
    {
      EncodeStep(a, data, i);
      out := PushGroup(a, out, data, i);
      i := i + 3;
    }
    assert data[..len] == data;
  }

  // ----- decoding

  /** The values of the alphabet's letters in `s`; every other character is skipped. */
  function Sextets(a: Alphabet, s: string): seq<sextet>
  {
    if s == "" then []
    else
      var init := Sextets(a, s[..|s| - 1]);
      match LetterValue(a, s[|s| - 1])
      case None => init
      case Some(v) => init + [v]
  }

  /** The number written by sextets, most significant first. */
  function SextetNumber(vs: seq<sextet>): nat
  {
    if vs == [] then 0 else 64 * SextetNumber(vs[..|vs| - 1]) + vs[|vs| - 1] as int
  }

  /** The last `count` octets of `n`, most significant first. */
  function ToOctets(n: nat, count: nat): (b: Bytes)
    ensures |b| == count
  {
    if count == 0 then [] else ToOctets(n / 0x100, count - 1) + [n % 0x100]
  }

  function SpareBits(sextets: nat): (bits: nat)
    ensures bits in {0, 2, 4, 6}
  {
    6 * sextets % 8
  }

  function TwoTo(bits: nat): (p: nat)
    requires bits in {0, 2, 4, 6}
    ensures p > 0
  {
    if bits == 0 then 1 else if bits == 2 then 4 else if bits == 4 then 16 else 64
  }

  /** The whole octets of the bit string that the letters of `s` spell. */
  function Decode(a: Alphabet, s: string): Bytes
  {
    var vs := Sextets(a, s);
    ToOctets(SextetNumber(vs) / TwoTo(SpareBits(|vs|)), 6 * |vs| / 8)
  }

  /** Six bits go into the wrapping accumulator, and eight come out once there are eight. */
  lemma DecodeStep(number: nat, octets: nat, accum: nat, bits: nat, v: sextet)
    requires bits in {0, 2, 4, 6} && accum < TWO_32
    requires number == octets * TwoTo(bits) + accum % TwoTo(bits)
    ensures var next := ShiftIn(accum, v);
            && next < TWO_32
            && (bits == 0 ==> 64 * number + v == octets * TwoTo(6) + next % TwoTo(6))
            && (bits > 0 ==>
                  var rest := TwoTo(bits - 2);
                  64 * number + v == (0x100 * octets + next / rest % 0x100) * rest + next % rest)
  {
    WrapDropsHigh(accum, v);
    if bits == 0 {
      Shift0(accum, v);
    } else if bits == 2 {
      Shift2(accum, v);
    } else if bits == 4 {
      Shift4(accum, v);
    } else {
      Shift6(accum, v);
    }
  }

  /** The accumulator after one more letter. */
  function ShiftIn(accum: nat, v: sextet): nat { accum * 64 % TWO_32 + v }

  /** The wrap-around drops only bits above the twenty-sixth, which were emitted before. */
  lemma WrapDropsHigh(accum: nat, v: sextet)
    requires accum < TWO_32
    ensures ShiftIn(accum, v) == accum * 64 - TWO_32 * (accum / 0x400_0000) + v < TWO_32
  {
  }

  lemma Shift0(accum: nat, v: sextet)
    requires accum < TWO_32
    ensures ShiftIn(accum, v) % 64 == v
  {
    WrapDropsHigh(accum, v);
  }

  lemma Shift2(accum: nat, v: sextet)
    requires accum < TWO_32
    ensures ShiftIn(accum, v) % 0x100 == accum % 4 * 64 + v
  {
    WrapDropsHigh(accum, v);
    var k := accum / 4 - 0x100_0000 * (accum / 0x400_0000);
    DivModIs(ShiftIn(accum, v), 0x100, k, accum % 4 * 64 + v);
  }

  lemma Shift4(accum: nat, v: sextet)
    requires accum < TWO_32
    ensures var next := ShiftIn(accum, v); accum % 16 * 64 + v == 4 * (next / 4 % 0x100) + next % 4
  {
    WrapDropsHigh(accum, v);
    var low := accum % 16 * 64 + v;
    var k := accum / 16 - 0x40_0000 * (accum / 0x400_0000);
    TakeOctet4(ShiftIn(accum, v), k, low);
  }

  lemma TakeOctet4(next: nat, k: int, low: nat)
    requires next == 0x400 * k + low && low < 0x400
    ensures low == 4 * (next / 4 % 0x100) + next % 4
  {
    DivModIs(next, 4, 0x100 * k + low / 4, low % 4);
    DivModIs(next / 4, 0x100, k, low / 4);
  }

  lemma Shift6(accum: nat, v: sextet)
    requires accum < TWO_32
    ensures var next := ShiftIn(accum, v); accum % 64 * 64 + v == 16 * (next / 16 % 0x100) + next % 16
  {
    WrapDropsHigh(accum, v);
    var low := accum % 64 * 64 + v;
    var k := accum / 64 - 0x10_0000 * (accum / 0x400_0000);
    TakeOctet6(ShiftIn(accum, v), k, low);
  }

  lemma TakeOctet6(next: nat, k: int, low: nat)
    requires next == 0x1000 * k + low && low < 0x1000
    ensures low == 16 * (next / 16 % 0x100) + next % 16
  {
    DivModIs(next, 16, 0x100 * k + low / 16, low % 16);
    DivModIs(next / 16, 0x100, k, low / 16);
  }

  method DecodeLoop(a: Alphabet, s: string) returns (out: Bytes)
    ensures out == Decode(a, s)
  {
    hide TwoTo, LetterValue, Sextets, SextetNumber, BigEndian, ToOctets, SpareBits;
    out := [];
    var accum: nat, bits: nat := 0, 0;
    NothingDecoded(a);
    for i := 0 to |s|
      invariant accum < TWO_32
      invariant bits == SpareBits(|Sextets(a, s[..i])|)
      invariant |out| == 6 * |Sextets(a, s[..i])| / 8
      invariant SextetNumber(Sextets(a, s[..i])) == BigEndian(out) * TwoTo(bits) + accum % TwoTo(bits)
    {
      ghost var vs := Sextets(a, s[..i]);
      SextetsStep(a, s, i);
      var v := LetterValue(a, s[i]);
      if v == None { continue; }
      SpareStep(|vs|);
      DecodeStep(SextetNumber(vs), BigEndian(out), accum, bits, v.value);
      NumberAppend(vs, v.value);
      accum := accum * 64 % TWO_32 + v.value;
      bits := bits + 6;
      if bits >= 8 {
        bits := bits - 8;
        BigEndianAppend(out, accum / TwoTo(bits) % 0x100);
        out := out + [accum / TwoTo(bits) % 0x100];
      }
    }
    assert s[..|s|] == s;
    DecodedNumber(out, bits, accum % TwoTo(bits));
  }

  lemma {:induction false} NothingDecoded(a: Alphabet)
    ensures TwoTo(0) == 1 && SpareBits(0) == 0 && Sextets(a, "") == [] && SextetNumber([]) == 0 && BigEndian([]) == 0
  {
  }

  lemma {:induction false} SextetsStep(a: Alphabet, s: string, i: nat)
    requires i < |s|
    ensures LetterValue(a, s[i]) == None ==> Sextets(a, s[..i + 1]) == Sextets(a, s[..i])
    ensures LetterValue(a, s[i]).Some? ==> Sextets(a, s[..i + 1]) == Sextets(a, s[..i]) + [LetterValue(a, s[i]).value]
  {
    assert s[..i + 1][..i] == s[..i];
  }

  lemma SpareStep(n: nat)
    ensures SpareBits(n) == 0 ==> SpareBits(n + 1) == 6 && 6 * (n + 1) / 8 == 6 * n / 8
    ensures SpareBits(n) > 0 ==> SpareBits(n + 1) == SpareBits(n) - 2 && 6 * (n + 1) / 8 == 6 * n / 8 + 1
  {
  }

  lemma {:induction false} NumberAppend(vs: seq<sextet>, v: sextet)
    ensures SextetNumber(vs + [v]) == 64 * SextetNumber(vs) + v as int
  {
    assert (vs + [v])[..|vs|] == vs;
  }

  lemma {:induction false} BigEndianAppend(b: Bytes, x: byte)
    ensures BigEndian(b + [x]) == 0x100 * BigEndian(b) + x as int
  {
    assert (b + [x])[..|b|] == b;
  }

  lemma {:induction false} ToOctetsOf(b: Bytes)
    ensures ToOctets(BigEndian(b), |b|) == b
  {
    if b != [] {
      ToOctetsOf(b[..|b| - 1]);
      assert b == b[..|b| - 1] + [b[|b| - 1]];
    }
  }

  lemma DecodedNumber(out: Bytes, bits: nat, spare: nat)
    requires bits in {0, 2, 4, 6} && spare < TwoTo(bits)
    ensures ToOctets((BigEndian(out) * TwoTo(bits) + spare) / TwoTo(bits), |out|) == out
  {
    ToOctetsOf(out);
  }

  // ----- the round trip

  lemma LetterReads(a: Alphabet, v: sextet)
    ensures LetterValue(a, Letter(a, v)) == Some(v)
  {
  }

  lemma {:induction false} SextetsConcat(a: Alphabet, s: string, t: string)
    ensures Sextets(a, s + t) == Sextets(a, s) + Sextets(a, t)
  {
    if t == "" {
      assert s + t == s;
    } else {
      assert (s + t)[..|s + t| - 1] == s + t[..|t| - 1];
      SextetsConcat(a, s, t[..|t| - 1]);
    }
  }

  lemma {:induction false} SextetsOfLetters(a: Alphabet, vs: seq<sextet>)
    ensures Sextets(a, Letters(a, vs)) == vs
  {
    if vs != [] {
      var init := vs[..|vs| - 1];
      assert Letters(a, vs)[..|vs| - 1] == Letters(a, init);
      SextetsOfLetters(a, init);
      LetterReads(a, vs[|vs| - 1]);
      assert vs == init + [vs[|vs| - 1]];
    }
  }

  /** Characters outside the alphabet, wherever they are inserted, change nothing. */
  lemma NoiseIsIgnored(a: Alphabet, s: string, noise: string, t: string)
    requires forall c :: c in noise ==> LetterValue(a, c) == None
    ensures Decode(a, s + noise + t) == Decode(a, s + t)
  {
    SextetsOfNoise(a, noise);
    SextetsConcat(a, s, noise);
    SextetsConcat(a, s + noise, t);
    SextetsConcat(a, s, t);
    assert Sextets(a, s) + [] == Sextets(a, s);
  }

  /** The letters of `s`, without anything between them. */
  function Kept(a: Alphabet, s: string): string
  {
    if s == "" then "" else (if LetterValue(a, s[0]).Some? then [s[0]] else "") + Kept(a, s[1..])
  }

  /** Texts that differ in foreign characters only, at any number of places, decode alike. */
  lemma {:induction false} OnlyLettersMatter(a: Alphabet, s: string, t: string)
    requires Kept(a, s) == Kept(a, t)
    ensures Decode(a, s) == Decode(a, t)
  {
    SextetsOfKept(a, s);
    SextetsOfKept(a, t);
  }

  lemma {:induction false} SextetsOfKept(a: Alphabet, s: string)
    ensures Sextets(a, Kept(a, s)) == Sextets(a, s)
  {
    if s != "" {
      SextetsOfKept(a, s[1..]);
      var first := if LetterValue(a, s[0]).Some? then [s[0]] else "";
      SextetsConcat(a, first, Kept(a, s[1..]));
      SextetsConcat(a, [s[0]], s[1..]);
      assert s == [s[0]] + s[1..];
      assert Sextets(a, "") == [];
      SextetsOne(a, s[0]);
    }
  }

  lemma {:induction false} SextetsOne(a: Alphabet, c: char)
    ensures Sextets(a, [c]) == if LetterValue(a, c).Some? then [LetterValue(a, c).value] else []
  {
    assert [c][..0] == "";
  }

  lemma {:induction false} SextetsOfNoise(a: Alphabet, noise: string)
    requires forall c :: c in noise ==> LetterValue(a, c) == None
    ensures Sextets(a, noise) == []
  {
    if noise != "" { SextetsOfNoise(a, noise[..|noise| - 1]); }
  }

  /** How many sextets spell `n` octets, and how many zero bits that adds. */
  function SextetCount(n: nat): nat { (8 * n + 5) / 6 }
  function FillFactor(n: nat): nat { if n % 3 == 0 then 1 else if n % 3 == 1 then 16 else 4 }

  lemma SextetDigits(n: nat)
    ensures n / 0x1000 == 64 * (n / 0x4_0000) + n / 0x1000 % 64
    ensures n / 64 == 64 * (n / 0x1000) + n / 64 % 64
    ensures n == 64 * (n / 64) + n % 64
  {
  }

  lemma {:induction false} GroupNumber(high: seq<sextet>, g: Bytes)
    requires 1 <= |g| <= 3
    ensures SextetNumber(high + GroupSextets(g)) ==
            (if |g| == 3 then 0x100_0000 * SextetNumber(high) + GroupValue(g)
             else if |g| == 2 then 0x4_0000 * SextetNumber(high) + GroupValue(g) / 64
             else 0x1000 * SextetNumber(high) + GroupValue(g) / 0x1000)
  {
    hide SextetNumber, GroupValue;
    var n := GroupValue(g);
    SextetDigits(n);
    var s1 := high + [n / 0x4_0000];
    NumberAppend(high, n / 0x4_0000);
    var s2 := s1 + [n / 0x1000 % 64];
    NumberAppend(s1, n / 0x1000 % 64);
    var s3 := s2 + [n / 64 % 64];
    NumberAppend(s2, n / 64 % 64);
    NumberAppend(s3, n % 64);
    assert high + GroupSextets(g) == if |g| == 1 then s2 else if |g| == 2 then s3 else s3 + [n % 64];
  }

  lemma {:induction false} GroupOctets(b: Bytes, g: Bytes)
    requires 1 <= |g| <= 3
    ensures |g| == 3 ==> BigEndian(b + g) == 0x100_0000 * BigEndian(b) + GroupValue(g)
    ensures |g| == 2 ==> 4 * BigEndian(b + g) == 0x4_0000 * BigEndian(b) + GroupValue(g) / 64
    ensures |g| == 1 ==> 16 * BigEndian(b + g) == 0x1000 * BigEndian(b) + GroupValue(g) / 0x1000
  {
    hide BigEndian;
    BigEndianAppend(b, g[0]);
    if |g| == 1 {
      assert b + g == b + [g[0]];
    } else {
      BigEndianAppend(b + [g[0]], g[1]);
      if |g| == 2 {
        assert b + g == b + [g[0]] + [g[1]];
      } else {
        BigEndianAppend(b + [g[0]] + [g[1]], g[2]);
        assert b + g == b + [g[0]] + [g[1]] + [g[2]];
      }
    }
  }

  lemma GroupSextetCount(g: Bytes)
    requires 1 <= |g| <= 3
    ensures |GroupSextets(g)| == |g| + 1
  {
  }

  lemma {:induction false} SextetsOfGroup(a: Alphabet, g: Bytes)
    requires 1 <= |g| <= 3
    ensures Sextets(a, EncodeGroup(a, g)) == GroupSextets(g)
  {
    hide GroupSextets, LetterValue;
    SextetsOfLetters(a, GroupSextets(g));
    assert forall c :: c in Padding(a, g) ==> c == '=';
    assert LetterValue(a, '=') == None by { PadIsNoise(a); }
    SextetsOfNoise(a, Padding(a, g));
    SextetsConcat(a, Letters(a, GroupSextets(g)), Padding(a, g));
  }

  lemma PadIsNoise(a: Alphabet)
    ensures LetterValue(a, '=') == None
  {
  }

  /** The letters of an encoding spell its octets, with zero bits to the next sextet. */
  lemma {:induction false} EncodedNumber(a: Alphabet, b: Bytes)
    ensures |Sextets(a, Encode(a, b))| == SextetCount(|b|)
    ensures SextetNumber(Sextets(a, Encode(a, b))) == BigEndian(b) * FillFactor(|b|)
  {
    hide Sextets, EncodeGroup, GroupSextets, GroupValue, SextetCount, FillFactor, SextetNumber, BigEndian;
    CountStep(0, 1);
    EmptyNumbers();
    if b == [] {
      assert Sextets(a, "") == [] by { SextetsOfNoise(a, ""); }
    } else {
      var high, g := b[..LastGroup(b)], b[LastGroup(b)..];
      EncodedNumber(a, high);
      SextetsOfGroup(a, g);
      SextetsConcat(a, Encode(a, high), EncodeGroup(a, g));
      GroupNumber(Sextets(a, Encode(a, high)), g);
      GroupSextetCount(g);
      GroupOctets(high, g);
      CountStep(|high|, |g|);
      assert b == high + g;
    }
  }

  lemma EmptyNumbers()
    ensures SextetNumber([]) == 0 && BigEndian([]) == 0 && SextetCount(0) == 0
  {
  }

  lemma CountStep(high: nat, k: nat)
    requires high % 3 == 0 && 1 <= k <= 3
    ensures SextetCount(high + k) == SextetCount(high) + k + 1
    ensures FillFactor(high) == 1 && FillFactor(high + k) == if k == 3 then 1 else if k == 2 then 4 else 16
  {
    var q := high / 3;
    DivModIs(8 * high + 5, 6, 4 * q, 5);
    DivModIs(high + k, 3, if k == 3 then q + 1 else q, if k == 3 then 0 else k);
    if k == 1 {
      DivModIs(8 * (high + k) + 5, 6, 4 * q + 2, 1);
    } else if k == 2 {
      DivModIs(8 * (high + k) + 5, 6, 4 * q + 3, 3);
    } else {
      DivModIs(8 * (high + k) + 5, 6, 4 * q + 4, 5);
    }
  }

  lemma CountsAgree(n: nat)
    ensures 6 * SextetCount(n) / 8 == n && TwoTo(SpareBits(SextetCount(n))) == FillFactor(n)
  {
    var q := n / 3;
    assert n == 3 * q || n == 3 * q + 1 || n == 3 * q + 2;
  }

  /** Decoding an encoding gives back the octets, in either alphabet. */
  lemma {:induction false} DecodeUndoesEncode(a: Alphabet, b: Bytes)
    ensures Decode(a, Encode(a, b)) == b
  {
    hide Sextets, Encode, SextetCount, SpareBits, ToOctets;
    EncodedNumber(a, b);
    CountsAgree(|b|);
    DecodedNumber(b, SpareBits(SextetCount(|b|)), 0);
  }

  // ----- the text, letter by letter

  /** The tables of RFC 4648: A to Z, a to z, 0 to 9, and the two that the alphabets do not share. */
  lemma LettersAreRfc4648(a: Alphabet, v: sextet)
    ensures v < 26 ==> Letter(a, v) as int == 'A' as int + v && 'A' <= Letter(a, v) <= 'Z'
    ensures 26 <= v < 52 ==> Letter(a, v) as int == 'a' as int + v - 26 && 'a' <= Letter(a, v) <= 'z'
    ensures 52 <= v < 62 ==> Letter(a, v) as int == '0' as int + v - 52 && '0' <= Letter(a, v) <= '9'
    ensures Letter(Standard, 62) == '+' && Letter(Standard, 63) == '/'
    ensures Letter(Url, 62) == '-' && Letter(Url, 63) == '_'
    ensures forall c :: LetterValue(a, c) == Some(v) <==> c == Letter(a, v)
  {
  }

  /** Padding fills the standard text up to a multiple of four; the other text has none. */
  function Pad(a: Alphabet, n: nat): string { if a.Url? || n % 3 == 0 then "" else if n % 3 == 2 then "=" else "==" }

  /**
   * The text is the letters of the octets' bit string, six bits each and filled up with zero bits, and then the
   * padding, nothing else.
   */
  lemma {:induction false} TextIsLetters(a: Alphabet, b: Bytes)
    ensures Encode(a, b) == Letters(a, Sextets(a, Encode(a, b))) + Pad(a, |b|)
    ensures |Sextets(a, Encode(a, b))| == (8 * |b| + 5) / 6
    ensures SextetNumber(Sextets(a, Encode(a, b))) == BigEndian(b) * FillFactor(|b|)
  {
    hide Letters, Encode, Sextets, SextetNumber, BigEndian, FillFactor, Pad;
    EncodedNumber(a, b);
    LettersThenPad(a, b);
  }

  lemma {:induction false} LettersThenPad(a: Alphabet, b: Bytes)
    ensures Encode(a, b) == Letters(a, Sextets(a, Encode(a, b))) + Pad(a, |b|)
  {
    hide Letters, EncodeGroup, GroupSextets, Sextets, LastGroup, Pad;
    if b == [] {
      NothingDecoded(a);
      NoLetters(a);
      PadIsPeriodic(a, 0, 0);
    } else {
      LastGroupIs(b);
      var i := LastGroup(b);
      var high, g := b[..i], b[i..];
      LettersThenPad(a, high);
      SextetsConcat(a, Encode(a, high), EncodeGroup(a, g));
      SextetsOfGroup(a, g);
      LettersConcat(a, Sextets(a, Encode(a, high)), GroupSextets(g));
      GroupText(a, g);
      PadIsPeriodic(a, i, |g|);
    }
  }

  lemma LastGroupIs(b: Bytes)
    requires b != []
    ensures LastGroup(b) < |b| <= LastGroup(b) + 3 && LastGroup(b) % 3 == 0
  {
  }

  lemma PadIsPeriodic(a: Alphabet, high: nat, k: nat)
    requires high % 3 == 0
    ensures Pad(a, high) == "" && Pad(a, high + k) == Pad(a, k)
  {
  }

  lemma NoLetters(a: Alphabet)
    ensures Letters(a, []) == ""
  {
  }

  lemma LettersConcat(a: Alphabet, v: seq<sextet>, w: seq<sextet>)
    ensures Letters(a, v + w) == Letters(a, v) + Letters(a, w)
  {
    hide Letter;
  }

  lemma GroupText(a: Alphabet, g: Bytes)
    requires 1 <= |g| <= 3
    ensures EncodeGroup(a, g) == Letters(a, GroupSextets(g)) + Pad(a, |g|)
  {
    hide Letters, GroupSextets;
  }
}
