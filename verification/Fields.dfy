/** A contents string as a list of fields, and the cursor that walks it (src/cms.cpp). */
module Fields {
  import opened Wire
  import opened Der

  function Prepend(v: Tlv, rest: Outcome<seq<Tlv>>): Outcome<seq<Tlv>>
  {
    match rest
    case Throws => Throws
    case Ok(vs) => Ok([v] + vs)
  }

  /** Splits `s` into the fields that tile it, or throws when none do. */
  function Elements(s: Bytes): Outcome<seq<Tlv>>
  {
    if s == [] then Ok([])
    else
      match ReadTlv(s)
      case Throws => Throws
      case Ok(v) => Prepend(v, Elements(s[v.Total()..]))
  }

  function Raws(vs: seq<Tlv>): (r: seq<Bytes>)
    ensures |r| == |vs| && forall i :: 0 <= i < |vs| ==> r[i] == vs[i].Raw()
  {
    seq(|vs|, i requires 0 <= i < |vs| => vs[i].Raw())
  }

  /** `parts` are the encodings of `vs`, one each. */
  ghost predicate EncodeAll(parts: seq<Bytes>, vs: seq<Tlv>)
  {
    |parts| == |vs| && forall i :: 0 <= i < |vs| ==> Encodes(parts[i], vs[i])
  }

  lemma {:induction false} ElementsStep(x: Bytes, v: Tlv, s: Bytes)
    requires Encodes(x, v)
    ensures Elements(x + s) == Prepend(v, Elements(s))
  {
    ReadIgnoresSuffix(x, s);
    assert (x + s)[v.Total()..] == s;
  }

  lemma {:induction false} ElementsOfCat(parts: seq<Bytes>, vs: seq<Tlv>)
    requires EncodeAll(parts, vs)
    ensures Elements(Cat(parts)) == Ok(vs)
  {
    if parts != [] {
      ElementsOfCat(parts[1..], vs[1..]);
      ElementsStep(parts[0], vs[0], Cat(parts[1..]));
      assert vs == [vs[0]] + vs[1..];
    }
  }

  lemma RawsPrepend(v: Tlv, vs: seq<Tlv>)
    ensures Raws([v] + vs) == [v.Raw()] + Raws(vs)
    ensures Cat(Raws([v] + vs)) == v.Raw() + Cat(Raws(vs))
  {
    assert Raws([v] + vs) == [v.Raw()] + Raws(vs);
    assert ([v.Raw()] + Raws(vs))[1..] == Raws(vs);
  }

  lemma {:induction false} ElementsTile(s: Bytes)
    requires Elements(s).Ok?
    ensures Cat(Raws(Elements(s).value)) == s
    ensures EncodeAll(Raws(Elements(s).value), Elements(s).value)
  {
    if s != [] {
      var v := ReadTlv(s).value;
      var tail := s[v.Total()..];
      var vs := Elements(tail).value;
      ElementsTile(tail);
      RawsPrepend(v, vs);
      ReadOwnBytes(s);
      assert s == v.Raw() + tail by { ReadBounds(s); }
    }
  }

  /** Splitting and concatenating are inverse to each other. */
  lemma {:induction false} ElementsIffTiled(s: Bytes, vs: seq<Tlv>)
    ensures Elements(s) == Ok(vs) <==> s == Cat(Raws(vs)) && EncodeAll(Raws(vs), vs)
  {
    if Elements(s) == Ok(vs) { ElementsTile(s); }
    if EncodeAll(Raws(vs), vs) { ElementsOfCat(Raws(vs), vs); }
  }

  lemma {:induction false} SingleElement(x: Bytes, v: Tlv)
    ensures Elements(x) == Ok([v]) <==> Encodes(x, v)
  {
    if Encodes(x, v) {
      ElementsStep(x, v, []);
      assert x + [] == x && [v] + [] == [v];
    }
    if Elements(x) == Ok([v]) {
      ElementsTile(x);
      RawsPrepend(v, []);
      assert [v] + [] == [v];
      assert Encodes(Raws([v])[0], [v][0]);
    }
  }

  /** The first field of `s` when it has tag `tag`. */
  function TakeSpec(s: Bytes, tag: byte): Outcome<Tlv>
  {
    match ReadTlv(s)
    case Throws => Throws
    case Ok(v) => if v.tag == tag then Ok(v) else Throws
  }

  predicate StartsWith(vs: Outcome<seq<Tlv>>, tag: byte)
  {
    vs.Ok? && vs.value != [] && vs.value[0].tag == tag
  }

  /** The cursor of src/cms.cpp: `rest` is the range from `p_` of `remaining_` bytes. */
  class DerFields {
    var rest: Bytes

    constructor (view: Tlv)
      ensures rest == view.content
    {
      rest := view.content;
    }

    method Take(tag: byte) returns (r: Outcome<Tlv>)
      modifies this
      ensures r == TakeSpec(old(rest), tag)
      ensures r.Ok? ==> r.value.tag == tag && old(rest) == r.value.Raw() + rest
      ensures r.Ok? ==> Elements(old(rest)) == Prepend(r.value, Elements(rest))
      ensures r.Ok? && Elements(old(rest)).Ok? ==>
                Elements(old(rest)).value != [] && Elements(old(rest)).value[0] == r.value
      ensures r.Ok? ==> Encodes(r.value.Raw(), r.value) && |rest| < |old(rest)|
      ensures r.Throws? ==> rest == old(rest) && !StartsWith(Elements(old(rest)), tag)
    {
      var v :- ReadTlvInPlace(rest);
      if v.tag != tag { return Throws; }
      ReadBounds(rest);
      ReadOwnBytes(rest);
      rest := rest[v.Total()..];
      return Ok(v);
    }

    predicate Empty()
      reads this
    {
      rest == []
    }

    function Next(): (tag: byte)
      reads this
      ensures Empty() ==> tag == 0 && Elements(rest) == Ok([])
      ensures Elements(rest).Ok? && !Empty() ==> StartsWith(Elements(rest), tag)
    {
      if Empty() then 0 else rest[0]
    }
  }
}
