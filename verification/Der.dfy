/**
 * The DER printer of src/der.cpp and the TLV reader of src/x509.cpp.
 * `size_t` is 64 bits wide.
 */
module Der {
  import opened Wire

  const SEQUENCE: byte := 0x30
  const SET: byte := 0x31
  const INTEGER: byte := 0x02
  const OCTET_STRING: byte := 0x04
  const NULL: byte := 0x05
  const OID: byte := 0x06
  const CONTEXT_0: byte := 0xa0
  const CONTEXT_1: byte := 0xa1

  /** One parsed field: its tag, the tag and length octets as read, and the contents octets. */
  datatype Tlv = Tlv(tag: byte, header: Bytes, content: Bytes) {
    function Raw(): Bytes { header + content }
    function Total(): nat { |header| + |content| }
  }

  // ----- printing

  /** Length octets. From 2^32 on the last branch silently drops the high bits. */
  function LengthOctets(n: nat): Bytes
  {
    if n < 0x80 then [n]
    else if n < 0x100 then [0x81, n]
    else if n < 0x1_0000 then [0x82, n / 0x100, n % 0x100]
    else if n < 0x100_0000 then [0x83, n / 0x1_0000, n / 0x100 % 0x100, n % 0x100]
    else [0x84, n / 0x100_0000 % 0x100, n / 0x1_0000 % 0x100, n / 0x100 % 0x100, n % 0x100]
  }

  function Wrap(tag: byte, content: Bytes): (r: Bytes)
    ensures |r| >= 2 + |content| && r[0] == tag
  {
    [tag] + LengthOctets(|content|) + content
  }

  function Sequence(parts: seq<Bytes>): Bytes { Wrap(SEQUENCE, Cat(parts)) }
  function Explicit0(content: Bytes): Bytes { Wrap(CONTEXT_0, content) }

  /** The field that reading `Wrap(tag, content)` should give back. */
  function Wrapped(tag: byte, content: Bytes): Tlv
  {
    Tlv(tag, [tag] + LengthOctets(|content|), content)
  }

  method WriteLength(buffer: Bytes, len: nat) returns (out: Bytes)
    ensures out == buffer + LengthOctets(len)
  {
    out := buffer;
    if len < 0x80 {
      out := out + [len];
    } else if len < 0x100 {
      out := out + [0x81];
      out := out + [len];
    } else if len < 0x1_0000 {
      out := out + [0x82];
      out := out + [len / 0x100];
      out := out + [len % 0x100];
    } else if len < 0x100_0000 {
      out := out + [0x83];
      out := out + [len / 0x1_0000];
      out := out + [len / 0x100 % 0x100];
      out := out + [len % 0x100];
    } else {
      out := out + [0x84];
      out := out + [len / 0x100_0000 % 0x100];
      out := out + [len / 0x1_0000 % 0x100];
      out := out + [len / 0x100 % 0x100];
      out := out + [len % 0x100];
    }
  }

  method CatParts(parts: seq<Bytes>) returns (out: Bytes)
    ensures out == Cat(parts)
  {
    out := [];
    for i := 0 to |parts|
      invariant out == Cat(parts[..i])
    {
      CatAppend(parts[..i], parts[i]);
      assert parts[..i + 1] == parts[..i] + [parts[i]];
      out := out + parts[i];
    }
    assert parts[..|parts|] == parts;
  }

  // ----- reading

  function ReadTlv(data: Bytes): (r: Outcome<Tlv>)
    ensures r.Ok? ==> 2 <= |r.value.header| && r.value.Total() <= |data| && r.value.tag == data[0]
  {
    if |data| < 2 then Throws
    else if data[1] < 0x80 then Split(data, 2, data[1])
    else
      var n := data[1] - 0x80;
      if n == 0 || n > 4 || 2 + n > |data| then Throws
      else Split(data, 2 + n, BigEndian(data[2..2 + n]))
  }

  function Split(data: Bytes, pos: nat, len: nat): Outcome<Tlv>
    requires 1 <= pos <= |data|
  {
    if pos + len > |data| then Throws
    else Ok(Tlv(data[0], data[..pos], data[pos..pos + len]))
  }

  /** The loop that accumulates `nbytes` length octets. */
  method ReadLength(data: Bytes, nbytes: nat) returns (len: nat)
    requires 2 + nbytes <= |data|
    ensures len == BigEndian(data[2..2 + nbytes])
  {
    len := 0;
    for i := 0 to nbytes
      invariant len == BigEndian(data[2..2 + i])
    {
      assert data[2..3 + i][..i] == data[2..2 + i];
      len := len * 0x100 + data[2 + i] as int;
    }
  }

  /** The reader as written, position by position. */
  method ReadTlvInPlace(data: Bytes) returns (r: Outcome<Tlv>)
    ensures r == ReadTlv(data)
  {
    hide BigEndian;
    if |data| < 2 { return Throws; }
    var pos: nat, len: nat := 1, 0;
    if data[pos] < 0x80 {
      len := data[pos];
      pos := pos + 1;
    } else {
      var nbytes := data[pos] % 0x80;
      pos := pos + 1;
      if nbytes == 0 || nbytes > 4 || pos + nbytes > |data| { return Throws; }
      len := ReadLength(data, nbytes);
      pos := pos + nbytes;
    }
    if pos + len > |data| { return Throws; }
    return Ok(Tlv(data[0], data[..pos], data[pos..pos + len]));
  }

  /** `x` is exactly one field, which reads as `v`. */
  ghost predicate Encodes(x: Bytes, v: Tlv)
  {
    ReadTlv(x) == Ok(v) && v.Total() == |x|
  }

  /** The number formed by up to four big-endian octets. */
  lemma {:induction false} BigEndianUpTo4(s: Bytes)
    requires |s| <= 4
    ensures |s| == 1 ==> BigEndian(s) == s[0]
    ensures |s| == 2 ==> BigEndian(s) == 0x100 * s[0] as int + s[1] as int
    ensures |s| == 3 ==> BigEndian(s) == 0x1_0000 * s[0] as int + 0x100 * s[1] as int + s[2] as int
    ensures |s| == 4 ==>
              BigEndian(s) == 0x100_0000 * s[0] as int + 0x1_0000 * s[1] as int + 0x100 * s[2] as int + s[3] as int
  {
    if |s| > 0 { BigEndianUpTo4(s[..|s| - 1]); }
  }

  lemma ReadBounds(data: Bytes)
    requires ReadTlv(data).Ok?
    ensures var v := ReadTlv(data).value;
            && |v.header| >= 2 && v.Total() <= |data| && v.Raw() == data[..v.Total()]
            && v.header[0] == v.tag == data[0]
  {
  }

  /** What is read depends only on the field's own bytes. */
  lemma ReadIgnoresSuffix(x: Bytes, s: Bytes)
    requires ReadTlv(x).Ok?
    ensures ReadTlv(x + s) == ReadTlv(x)
  {
    if x[1] >= 0x80 {
      var n := x[1] - 0x80;
      assert (x + s)[2..2 + n] == x[2..2 + n];
    }
    var v := ReadTlv(x).value;
    assert (x + s)[..|v.header|] == x[..|v.header|];
    assert (x + s)[|v.header|..v.Total()] == x[|v.header|..v.Total()];
  }

  lemma ReadOwnBytes(x: Bytes)
    requires ReadTlv(x).Ok?
    ensures Encodes(ReadTlv(x).value.Raw(), ReadTlv(x).value)
  {
    var v := ReadTlv(x).value;
    ReadBounds(x);
    var y := v.Raw();
    assert y[0] == x[0] && y[1] == x[1];
    if x[1] >= 0x80 {
      var n := x[1] - 0x80;
      assert y[2..2 + n] == x[2..2 + n];
    }
    assert y[..|v.header|] == v.header;
    assert y[|v.header|..|y|] == v.content;
  }

  /** A field's encodings are prefix-free. */
  lemma EncodingsArePrefixFree(x: Bytes, v: Tlv, s: Bytes, w: Tlv)
    requires Encodes(x, v) && Encodes(x + s, w)
    ensures s == []
  {
    ReadIgnoresSuffix(x, s);
  }

  lemma LengthOctetsValue(n: nat)
    requires 0x80 <= n < TWO_32
    ensures var o := LengthOctets(n);
            2 <= |o| <= 5 && o[0] == 0x7f + |o| && BigEndian(o[1..]) == n
  {
    ByteDigits(n);
    BigEndianUpTo4(LengthOctets(n)[1..]);
  }

  lemma ByteDigits(n: nat)
    ensures n == 0x100 * (n / 0x100) + n % 0x100
    ensures n / 0x100 == 0x100 * (n / 0x1_0000) + n / 0x100 % 0x100
    ensures n / 0x1_0000 == 0x100 * (n / 0x100_0000) + n / 0x1_0000 % 0x100
    ensures n < TWO_32 ==> n / 0x100_0000 < 0x100
  {
    var abc := n / 0x100;
    var ab := abc / 0x100;
    DivModIs(n, 0x1_0000, ab, 0x100 * (abc % 0x100) + n % 0x100);
    DivModIs(n, 0x100_0000, ab / 0x100, 0x1_0000 * (ab % 0x100) + 0x100 * (abc % 0x100) + n % 0x100);
  }

  lemma WrapReads(tag: byte, content: Bytes)
    requires |content| < TWO_32
    ensures Encodes(Wrap(tag, content), Wrapped(tag, content))
  {
    HeaderReads(tag, LengthOctets(|content|), content);
  }

  lemma HeaderReads(tag: byte, octets: Bytes, content: Bytes)
    requires octets == LengthOctets(|content|) && |content| < TWO_32
    ensures Encodes([tag] + octets + content, Tlv(tag, [tag] + octets, content))
  {
    var data := [tag] + octets + content;
    var n, pos := |content|, 1 + |octets|;
    if n >= 0x80 {
      LengthOctetsValue(n);
      assert data[2..pos] == octets[1..];
    }
    assert data[..pos] == [tag] + octets;
    assert data[pos..pos + n] == content;
  }

  /**
   * Reading undoes wrapping, in front of any suffix, exactly when the contents fit four
   * length octets.
   */
  lemma ReadUndoesWrap(tag: byte, content: Bytes, suffix: Bytes)
    ensures ReadTlv(Wrap(tag, content) + suffix) == Ok(Wrapped(tag, content)) <==> |content| < TWO_32
  {
    var data := Wrap(tag, content) + suffix;
    if |content| < TWO_32 {
      WrapReads(tag, content);
      ReadIgnoresSuffix(Wrap(tag, content), suffix);
    } else {
      assert data[1] == 0x84;
      assert BigEndian(data[2..6]) < TWO_32 by { BigEndianUpTo4(data[2..6]); }
    }
  }

  /** `Wrap` prints the shortest encoding of a field, and the only one of that length. */
  lemma WrapIsMinimal(x: Bytes, v: Tlv)
    requires Encodes(x, v)
    ensures |v.content| < TWO_32
    ensures |Wrap(v.tag, v.content)| <= |x|
    ensures |Wrap(v.tag, v.content)| == |x| ==> Wrap(v.tag, v.content) == x
  {
    ReadBounds(x);
    assert x == v.Raw();
    if x[1] >= 0x80 {
      assert v.header == [x[0]] + ([x[1]] + x[2..2 + x[1] - 0x80]);
      LengthOctetsAreMinimal(x[1], x[2..2 + x[1] - 0x80]);
    }
  }

  lemma {:induction false} LengthOctetsAreMinimal(first: byte, rest: Bytes)
    requires 1 <= |rest| <= 4 && first == 0x80 + |rest|
    ensures BigEndian(rest) < TWO_32
    ensures |LengthOctets(BigEndian(rest))| <= 1 + |rest|
    ensures |LengthOctets(BigEndian(rest))| == 1 + |rest| ==> LengthOctets(BigEndian(rest)) == [first] + rest
  {
    BigEndianUpTo4(rest);
    var n := BigEndian(rest);
    if |rest| == 4 {
      Digits(rest[0], rest[1], rest[2], rest[3]);
    } else if |rest| == 3 {
      Digits(0, rest[0], rest[1], rest[2]);
    } else if |rest| == 2 {
      Digits(0, 0, rest[0], rest[1]);
    }
  }

  lemma Digits(a: byte, b: byte, c: byte, d: byte)
    ensures var n := 0x100_0000 * a as int + 0x1_0000 * b as int + 0x100 * c as int + d as int;
            && n / 0x100_0000 == a
            && n / 0x1_0000 % 0x100 == b && n / 0x1_0000 == 0x100 * a as int + b as int
            && n / 0x100 % 0x100 == c && n % 0x100 == d
            && n / 0x100 == 0x1_0000 * a as int + 0x100 * b as int + c as int
  {
    var ab := 0x100 * a as int + b as int;
    var abc := 0x100 * ab + c as int;
    var n := 0x100 * abc + d as int;
    DivModIs(n, 0x100, abc, d);
    DivModIs(abc, 0x100, ab, c);
    DivModIs(ab, 0x100, a, b);
    DivModIs(n, 0x1_0000, ab, 0x100 * c as int + d as int);
    DivModIs(n, 0x100_0000, a, 0x1_0000 * b as int + 0x100 * c as int + d as int);
  }
}
