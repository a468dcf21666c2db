/**
 * The cursor-walking readers of src/cms.cpp. Each agrees, on every input, with the reader that
 * Cms states on lists of fields.
 */
module CmsCursor {
  import opened Wire
  import opened Der
  import opened Fields
  import opened DerScalars
  import opened Cms

  lemma TagsPrepend(v: Tlv, vs: seq<Tlv>)
    ensures Tags([v] + vs) == [v.tag] + Tags(vs)
  {
  }

  /** Fields carrying `tags` start with the first of them. */
  lemma {:induction false} PartsStart(s: Bytes, tags: seq<byte>)
    requires tags != [] && !StartsWith(Elements(s), tags[0])
    ensures Parts(s, tags).Throws?
  {
  }

  lemma {:induction false} PartsStep(s: Bytes, v: Tlv, rest: Bytes, tags: seq<byte>)
    requires Elements(s) == Prepend(v, Elements(rest)) && tags != [] && v.tag == tags[0]
    ensures Parts(s, tags) == Prepend(v, Parts(rest, tags[1..]))
  {
    var more := Elements(rest);
    if more.Ok? {
      TagsPrepend(v, more.value);
      assert tags == [tags[0]] + tags[1..];
      assert ([v.tag] + Tags(more.value))[1..] == Tags(more.value);
    }
  }

  lemma PartsEnd(s: Bytes)
    ensures Parts(s, []) == if s == [] then Ok([]) else Throws
  {
    if Elements(s).Ok? {
      assert s != [] ==> Elements(s).value != [];
    }
  }

  /** Two fields and then the end, as the list reader sees the three cursor steps. */
  lemma {:induction false} PartsTwo(s: Bytes, a: Tlv, mid: Bytes, b: Tlv, end: Bytes)
    requires Elements(s) == Prepend(a, Elements(mid)) && Elements(mid) == Prepend(b, Elements(end))
    ensures Parts(s, [a.tag, b.tag]) == if end == [] then Ok([a, b]) else Throws
  {
    PartsStep(s, a, mid, [a.tag, b.tag]);
    PartsStep(mid, b, end, [b.tag]);
    PartsEnd(end);
    assert [a.tag, b.tag][1..] == [b.tag];
    assert [a] + ([b] + []) == [a, b];
  }

  lemma {:induction false} PartsOne(s: Bytes, a: Tlv, end: Bytes)
    requires Elements(s) == Prepend(a, Elements(end))
    ensures Parts(s, [a.tag]) == if end == [] then Ok([a]) else Throws
  {
    PartsStep(s, a, end, [a.tag]);
    PartsEnd(end);
    assert [a] + [] == [a];
  }

  lemma {:induction false} PartsSecond(s: Bytes, a: Tlv, mid: Bytes, tag: byte)
    requires Elements(s) == Prepend(a, Elements(mid)) && !StartsWith(Elements(mid), tag)
    ensures Parts(s, [a.tag, tag]).Throws?
  {
    PartsStep(s, a, mid, [a.tag, tag]);
    assert [a.tag, tag][1..] == [tag];
  }

  lemma PartsWhole(p: Bytes)
    ensures Parts(p, [SEQUENCE]) ==
            match ReadTlv(p)
            case Throws => Throws
            case Ok(v) => if v.tag == SEQUENCE && v.Total() == |p| then Ok([v]) else Throws
  {
    if ReadTlv(p).Ok? {
      var v := ReadTlv(p).value;
      ReadBounds(p);
      if v.tag == SEQUENCE {
        PartsOne(p, v, p[v.Total()..]);
      } else {
        PartsStart(p, [SEQUENCE]);
      }
    }
  }

  method SignedDataView(pkcs7: Bytes) returns (r: Outcome<Tlv>)
    ensures r.Ok? <==> SignedDataOf(pkcs7).Ok?
    ensures r.Ok? ==> r.value.content == SignedDataOf(pkcs7).value
  {
    hide Elements, OidContent, Parts;
    PartsWhole(pkcs7);
    var outer :- ReadTlvInPlace(pkcs7);
    if outer.tag != SEQUENCE || outer.Total() != |pkcs7| { return Throws; }
    var ci := new DerFields(outer);
    var oid := ci.Take(OID);
    if oid.Throws? { PartsStart(outer.content, [OID, CONTEXT_0]); return Throws; }
    PartsStep(outer.content, oid.value, ci.rest, [OID, CONTEXT_0]);
    if oid.value.content != OidContent(SIGNED_DATA) { return Throws; }
    ghost var mid := ci.rest;
    var content := ci.Take(CONTEXT_0);
    if content.Throws? { PartsSecond(outer.content, oid.value, mid, CONTEXT_0); return Throws; }
    PartsTwo(outer.content, oid.value, mid, content.value, ci.rest);
    var wrapper := new DerFields(content.value);
    var sd := wrapper.Take(SEQUENCE);
    if sd.Throws? { PartsStart(content.value.content, [SEQUENCE]); return Throws; }
    PartsOne(content.value.content, sd.value, wrapper.rest);
    if !wrapper.Empty() { return Throws; }
    if !ci.Empty() { return Throws; }
    return sd;
  }

  // ----- the signer walk

  /** `vs` is `a` and then `rest`. */
  predicate Follows(vs: Outcome<seq<Tlv>>, a: seq<Tlv>, rest: Outcome<seq<Tlv>>)
  {
    if rest.Throws? then vs.Throws? else vs == Ok(a + rest.value)
  }

  lemma {:induction false} FollowsStep(vs: Outcome<seq<Tlv>>, a: seq<Tlv>, s: Bytes, v: Tlv, rest: Bytes)
    requires Follows(vs, a, Elements(s)) && Elements(s) == Prepend(v, Elements(rest))
    ensures Follows(vs, a + [v], Elements(rest))
  {
    if Elements(rest).Ok? {
      assert a + ([v] + Elements(rest).value) == (a + [v]) + Elements(rest).value;
    }
  }

  method TakeAlgorithm(signer: DerFields) returns (r: Outcome<Tlv>)
    modifies signer
    ensures r.Ok? ==> r.value.tag == SEQUENCE && IsAlgorithm(r.value.content)
    ensures r.Ok? ==> Elements(old(signer.rest)) == Prepend(r.value, Elements(signer.rest))
    ensures r.Throws? && StartsWith(Elements(old(signer.rest)), SEQUENCE) ==>
              !IsAlgorithm(Elements(old(signer.rest)).value[0].content)
  {
    var v :- signer.Take(SEQUENCE);
    var fields := new DerFields(v);
    var oid :- fields.Take(OID);
    if oid.content == [] { return Throws; }
    if !fields.Empty() {
      var parameters := fields.Take(fields.Next());
      if parameters.Throws? { return Throws; }
    }
    if !fields.Empty() { return Throws; }
    return Ok(v);
  }

  /** The inner loop over an attribute's values: succeeds when fields tile them. */
  method TakeValues(values: DerFields) returns (ok: bool)
    modifies values
    ensures ok == Elements(old(values.rest)).Ok?
  {
    while !values.Empty()
      invariant Elements(old(values.rest)).Ok? == Elements(values.rest).Ok?
      decreases |values.rest|
    {
      var value := values.Take(values.Next());
      if value.Throws? { return false; }
    }
    return true;
  }

  method CheckAttribute(v: Tlv) returns (ok: bool)
    requires v.tag == SEQUENCE
    ensures ok == IsAttribute(v)
  {
    hide Elements, Parts;
    var attr := new DerFields(v);
    var oid := attr.Take(OID);
    if oid.Throws? { PartsStart(v.content, [OID, SET]); return false; }
    ghost var mid := attr.rest;
    PartsStep(v.content, oid.value, mid, [OID, SET]);
    if oid.value.content == [] { return false; }
    var held := attr.Take(SET);
    if held.Throws? { PartsSecond(v.content, oid.value, mid, SET); return false; }
    PartsTwo(v.content, oid.value, mid, held.value, attr.rest);
    var values := new DerFields(held.value);
    if values.Empty() { return false; }
    var tiled := TakeValues(values);
    if !tiled { return false; }
    return attr.Empty();
  }

  method TakeAttributes(signer: DerFields, tag: byte) returns (r: Outcome<Tlv>)
    modifies signer
    ensures r.Ok? ==> r.value.tag == tag && IsAttributes(r.value.content)
    ensures r.Ok? ==> Elements(old(signer.rest)) == Prepend(r.value, Elements(signer.rest))
    ensures r.Throws? && StartsWith(Elements(old(signer.rest)), tag) ==>
              !IsAttributes(Elements(old(signer.rest)).value[0].content)
  {
    hide IsAttribute;
    var v :- signer.Take(tag);
    var attrs := new DerFields(v);
    if attrs.Empty() { return Throws; }
    ghost var taken: seq<Tlv> := [];
    assert Elements(v.content).Ok? ==> [] + Elements(v.content).value == Elements(v.content).value;
    while !attrs.Empty()
      modifies attrs
      invariant Follows(Elements(v.content), taken, Elements(attrs.rest))
      invariant forall a :: a in taken ==> IsAttribute(a)
      decreases |attrs.rest|
    {
      ghost var before := attrs.rest;
      var a := attrs.Take(SEQUENCE);
      if a.Throws? {
        assert Elements(before).Ok? ==> Elements(before).value[0] in Elements(v.content).value;
        assert !IsAttributes(v.content) by { NotSequence(Elements(before)); }
        return Throws;
      }
      FollowsStep(Elements(v.content), taken, before, a.value, attrs.rest);
      var ok := CheckAttribute(a.value);
      if !ok { return Throws; }
      taken := taken + [a.value];
    }
    assert taken + [] == taken;
    return Ok(v);
  }

  lemma NotSequence(vs: Outcome<seq<Tlv>>)
    requires !StartsWith(vs, SEQUENCE)
    ensures vs.Ok? && vs.value != [] ==> !IsAttribute(vs.value[0]) && !IsSigner(vs.value[0])
  {
  }

  method CheckSid(v: Tlv) returns (ok: bool)
    ensures ok == IsSid(v.content)
  {
    hide Elements, Parts;
    var sid := new DerFields(v);
    var issuer := sid.Take(SEQUENCE);
    if issuer.Throws? { PartsStart(v.content, [SEQUENCE, INTEGER]); return false; }
    ghost var mid := sid.rest;
    PartsStep(v.content, issuer.value, mid, [SEQUENCE, INTEGER]);
    if issuer.value.content == [] { return false; }
    var serial := sid.Take(INTEGER);
    if serial.Throws? { PartsSecond(v.content, issuer.value, mid, INTEGER); return false; }
    PartsTwo(v.content, issuer.value, mid, serial.value, sid.rest);
    if serial.value.content == [] { return false; }
    return sid.Empty();
  }

  lemma FollowsNothing(vs: Outcome<seq<Tlv>>)
    ensures Follows(vs, [], vs)
  {
    if vs.Ok? { assert [] + vs.value == vs.value; }
  }

  /** A list that misses the head in its k-th place is not a signer. */
  lemma HeadMismatch(vs: Outcome<seq<Tlv>>, a: seq<Tlv>, rest: Outcome<seq<Tlv>>)
    requires Follows(vs, a, rest) && |a| < 3
    requires |a| == 0 ==> !StartsWith(rest, INTEGER) || rest.value[0].content != [1]
    requires |a| == 1 ==> !StartsWith(rest, SEQUENCE) || !IsSid(rest.value[0].content)
    requires |a| == 2 ==> !StartsWith(rest, SEQUENCE) || !IsAlgorithm(rest.value[0].content)
    ensures vs.Ok? ==> !IsSignerHead(vs.value)
  {
    hide IsSid, IsAlgorithm;
    if vs.Ok? && |vs.value| >= 3 {
      assert vs.value[|a|] == rest.value[0];
      assert vs.value[..3][|a|] == vs.value[|a|];
    }
  }

  /** Version, issuer and serial, digest algorithm. */
  method TakeSignerHead(signer: DerFields) returns (ok: bool, ghost head: seq<Tlv>)
    modifies signer
    ensures ok ==> |head| == 3 && IsSignerHead(head) && Follows(Elements(old(signer.rest)), head, Elements(signer.rest))
    ensures !ok && Elements(old(signer.rest)).Ok? ==> !IsSignerHead(Elements(old(signer.rest)).value)
  {
    hide IsSid, IsAlgorithm, Elements, IsSignerHead, Follows;
    head := [];
    ok := false;
    ghost var all := Elements(signer.rest);
    FollowsNothing(all);
    ghost var s0 := signer.rest;
    var version := signer.Take(INTEGER);
    if version.Throws? { HeadMismatch(all, [], Elements(s0)); return; }
    if version.value.content != [1] { HeadMismatch(all, [], Elements(s0)); return; }
    ghost var s1 := signer.rest;
    FollowsStep(all, [], s0, version.value, s1);
    var sid := signer.Take(SEQUENCE);
    if sid.Throws? { HeadMismatch(all, [] + [version.value], Elements(s1)); return; }
    var named := CheckSid(sid.value);
    if !named { HeadMismatch(all, [] + [version.value], Elements(s1)); return; }
    ghost var s2 := signer.rest;
    FollowsStep(all, [] + [version.value], s1, sid.value, s2);
    var algorithm := TakeAlgorithm(signer);
    if algorithm.Throws? { HeadMismatch(all, [] + [version.value] + [sid.value], Elements(s2)); return; }
    FollowsStep(all, [] + [version.value] + [sid.value], s2, algorithm.value, signer.rest);
    head := [version.value, sid.value, algorithm.value];
    assert [] + [version.value] + [sid.value] + [algorithm.value] == head;
    assert IsSignerHead(head) by { HeadIs(version.value, sid.value, algorithm.value); }
    ok := true;
  }

  lemma HeadIs(version: Tlv, sid: Tlv, algorithm: Tlv)
    requires version.tag == INTEGER && version.content == [1]
    requires sid.tag == SEQUENCE && IsSid(sid.content) && algorithm.tag == SEQUENCE && IsAlgorithm(algorithm.content)
    ensures IsSignerHead([version, sid, algorithm])
  {
    assert Tags([version, sid, algorithm][..3]) == [INTEGER, SEQUENCE, SEQUENCE];
  }

  lemma TailIs(algorithm: Tlv, signature: Tlv, more: seq<Tlv>)
    ensures IsSignerTail([algorithm, signature] + more) <==>
            && algorithm.tag == SEQUENCE && IsAlgorithm(algorithm.content)
            && signature.tag == OCTET_STRING && signature.content != []
            && AttributesAt(more, CONTEXT_1) && SkipTag(more, CONTEXT_1) == []
  {
    var vs := [algorithm, signature] + more;
    assert vs[2..] == more;
    assert Tags(vs[..2]) == [algorithm.tag, signature.tag];
  }

  lemma TailStarts(vs: seq<Tlv>)
    requires IsSignerTail(vs)
    ensures vs != [] && vs[0].tag == SEQUENCE && IsAlgorithm(vs[0].content)
    ensures |vs| >= 2 && vs[1].tag == OCTET_STRING && vs[1].content != []
  {
    assert vs[..2][0] == vs[0] && vs[..2][1] == vs[1];
  }

  predicate TailOk(vs: Outcome<seq<Tlv>>) { vs.Ok? && IsSignerTail(vs.value) }

  /** The optional unauthenticated attributes and the end of the signer. */
  method TakeSignerEnd(signer: DerFields) returns (ok: bool)
    modifies signer
    ensures var vs := Elements(old(signer.rest));
            ok == (vs.Ok? && AttributesAt(vs.value, CONTEXT_1) && SkipTag(vs.value, CONTEXT_1) == [])
  {
    hide IsAttributes;
    if signer.Next() == CONTEXT_1 {
      var attrs := TakeAttributes(signer, CONTEXT_1);
      if attrs.Throws? { return false; }
    }
    return signer.Empty();
  }

  method TakeSignerTail(signer: DerFields) returns (ok: bool)
    modifies signer
    ensures ok == TailOk(Elements(old(signer.rest)))
  {
    hide IsAlgorithm, Elements, IsSignerTail;
    ghost var all := Elements(signer.rest);
    if TailOk(all) { TailStarts(all.value); }
    var algorithm := TakeAlgorithm(signer);
    if algorithm.Throws? { return false; }
    ghost var s1 := signer.rest;
    var signature := signer.Take(OCTET_STRING);
    if signature.Throws? { return false; }
    if signature.value.content == [] { return false; }
    ghost var more := Elements(signer.rest);
    if more.Ok? {
      assert all.value == [algorithm.value, signature.value] + more.value;
      TailIs(algorithm.value, signature.value, more.value);
    }
    ok := TakeSignerEnd(signer);
  }

  lemma SignerStarts(v: Tlv)
    requires v.tag == SEQUENCE
    ensures IsSigner(v) <==>
            var fields := Elements(v.content);
            && fields.Ok? && IsSignerHead(fields.value) && AttributesAt(fields.value[3..], CONTEXT_0)
            && IsSignerTail(SkipTag(fields.value[3..], CONTEXT_0))
  {
  }

  lemma HeadIgnoresRest(head: seq<Tlv>, rest: seq<Tlv>)
    requires |head| == 3 && IsSignerHead(head)
    ensures IsSignerHead(head + rest) && (head + rest)[3..] == rest
  {
    assert (head + rest)[..3] == head[..3];
  }

  method CheckSigner(v: Tlv) returns (ok: bool)
    requires v.tag == SEQUENCE
    ensures ok == IsSigner(v)
  {
    hide Elements, IsSignerHead, IsSignerTail, IsAttributes, IsSigner;
    SignerStarts(v);
    var signer := new DerFields(v);
    ghost var head;
    ok, head := TakeSignerHead(signer);
    if !ok { return; }
    ghost var rest := Elements(signer.rest);
    if rest.Ok? { HeadIgnoresRest(head, rest.value); }
    if signer.Next() == CONTEXT_0 {
      var attrs := TakeAttributes(signer, CONTEXT_0);
      if attrs.Throws? { return false; }
      assert Elements(signer.rest).Ok? ==>
             ([attrs.value] + Elements(signer.rest).value)[1..] == Elements(signer.rest).value;
    }
    ok := TakeSignerTail(signer);
  }

  // ----- the SignedData walk

  lemma SignedDataHeadMismatch(vs: Outcome<seq<Tlv>>, a: seq<Tlv>, rest: Outcome<seq<Tlv>>, tag: byte)
    requires Follows(vs, a, rest) && |a| < 3
    requires tag == if |a| == 0 then INTEGER else if |a| == 1 then SET else SEQUENCE
    requires !StartsWith(rest, tag) || (|a| == 0 && rest.value[0].content != [1])
    ensures vs.Ok? ==> !IsSignedDataHead(vs.value)
  {
    if vs.Ok? && |vs.value| >= 3 {
      assert vs.value[|a|] == rest.value[0];
      assert vs.value[..3][|a|] == vs.value[|a|];
    }
  }

  method SkipSignedDataHeader(sd: DerFields) returns (r: Outcome<Tlv>, ghost head: seq<Tlv>)
    modifies sd
    ensures r.Ok? ==> |head| == 3 && IsSignedDataHead(head) && head[2] == r.value
    ensures r.Ok? ==> Follows(Elements(old(sd.rest)), head, Elements(sd.rest))
    ensures r.Throws? && Elements(old(sd.rest)).Ok? ==> !IsSignedDataHead(Elements(old(sd.rest)).value)
  {
    hide Elements, Follows, IsSignedDataHead, Prepend, TakeSpec;
    head, r := [], Throws;
    ghost var all, s0 := Elements(sd.rest), sd.rest;
    FollowsNothing(all);
    var version := sd.Take(INTEGER);
    if version.Throws? { SignedDataHeadMismatch(all, [], Elements(s0), INTEGER); return; }
    if version.value.content != [1] { SignedDataHeadMismatch(all, [], Elements(s0), INTEGER); return; }
    ghost var s1 := sd.rest;
    FollowsStep(all, [], s0, version.value, s1);
    var digests := sd.Take(SET);
    if digests.Throws? { SignedDataHeadMismatch(all, [] + [version.value], Elements(s1), SET); return; }
    ghost var s2 := sd.rest;
    FollowsStep(all, [] + [version.value], s1, digests.value, s2);
    var encap := sd.Take(SEQUENCE);
    if encap.Throws? {
      SignedDataHeadMismatch(all, [] + [version.value] + [digests.value], Elements(s2), SEQUENCE);
      return;
    }
    FollowsStep(all, [] + [version.value] + [digests.value], s2, encap.value, sd.rest);
    head, r := [version.value, digests.value, encap.value], encap;
    assert [] + [version.value] + [digests.value] + [encap.value] == head;
    assert IsSignedDataHead(head) by { SignedDataHeadIs(version.value, digests.value, encap.value); }
  }

  lemma SignedDataHeadIs(version: Tlv, digests: Tlv, encap: Tlv)
    requires version.tag == INTEGER && version.content == [1] && digests.tag == SET && encap.tag == SEQUENCE
    ensures IsSignedDataHead([version, digests, encap])
  {
    assert Tags([version, digests, encap][..3]) == [INTEGER, SET, SEQUENCE];
  }

  function SkipByte(ts: seq<byte>, tag: byte): seq<byte>
  {
    if ts != [] && ts[0] == tag then ts[1..] else ts
  }

  lemma TagsOfSkip(es: seq<Tlv>, tag: byte)
    ensures Tags(SkipTag(es, tag)) == SkipByte(Tags(es), tag)
  {
  }

  lemma TailTagsAre(ts: seq<byte>)
    ensures SkipByte(SkipByte(ts, CONTEXT_0), CONTEXT_1) == [SET] <==>
            ts == [SET] || ts == [CONTEXT_0, SET] || ts == [CONTEXT_1, SET] || ts == [CONTEXT_0, CONTEXT_1, SET]
  {
    var once := SkipByte(ts, CONTEXT_0);
    var twice := SkipByte(once, CONTEXT_1);
    if |ts| == 1 {
      assert ts == [ts[0]];
    } else if |ts| == 2 {
      assert ts == [ts[0], ts[1]];
    } else if |ts| == 3 {
      assert ts == [ts[0], ts[1], ts[2]];
    }
  }

  /** What follows the header, with the optional fields skipped in the order of the walk. */
  lemma SignedDataTailIs(es: seq<Tlv>)
    ensures IsSignedDataTail(es) <==> Tags(SkipTag(SkipTag(es, CONTEXT_0), CONTEXT_1)) == [SET]
  {
    hide Tags, SkipTag, SkipByte;
    TagsOfSkip(es, CONTEXT_0);
    TagsOfSkip(SkipTag(es, CONTEXT_0), CONTEXT_1);
    TailTagsAre(Tags(es));
  }

  function SkipIn(es: Outcome<seq<Tlv>>, tag: byte): Outcome<seq<Tlv>>
  {
    match es
    case Throws => Throws
    case Ok(vs) => Ok(SkipTag(vs, tag))
  }

  method SkipOptional(sd: DerFields, tag: byte) returns (ok: bool)
    requires tag != 0
    modifies sd
    ensures ok ==> Elements(sd.rest) == SkipIn(Elements(old(sd.rest)), tag)
    ensures !ok ==> Elements(old(sd.rest)).Throws?
  {
    ok := true;
    if sd.Next() == tag {
      var field := sd.Take(tag);
      if field.Throws? { return false; }
      assert Elements(sd.rest).Ok? ==> ([field.value] + Elements(sd.rest).value)[1..] == Elements(sd.rest).value;
    }
  }

  lemma LastOf(es: seq<Tlv>, v: Tlv)
    requires SkipTag(SkipTag(es, CONTEXT_0), CONTEXT_1) == [v]
    ensures es != [] && es[|es| - 1] == v
  {
    var once := SkipTag(es, CONTEXT_0);
    assert once[|once| - 1] == v;
  }

  method TakeSigners(sd: DerFields) returns (r: Outcome<Tlv>)
    modifies sd
    ensures var es := Elements(old(sd.rest));
            && (r.Ok? <==> es.Ok? && IsSignedDataTail(es.value))
            && (r.Ok? ==> es.value != [] && r.value == es.value[|es.value| - 1])
  {
    hide IsSignedDataTail, SkipTag, Elements;
    ghost var es := Elements(sd.rest);
    if es.Ok? { SignedDataTailIs(es.value); }
    var ok := SkipOptional(sd, CONTEXT_0);
    if !ok { return Throws; }
    ok := SkipOptional(sd, CONTEXT_1);
    if !ok { return Throws; }
    ghost var skipped := sd.rest;
    PartsIs(skipped);
    var signers := sd.Take(SET);
    if signers.Throws? { PartsStart(skipped, [SET]); return Throws; }
    PartsOne(skipped, signers.value, sd.rest);
    if !sd.Empty() { return Throws; }
    LastOf(es.value, signers.value);
    return signers;
  }

  lemma {:induction false} PartsIs(s: Bytes)
    ensures Parts(s, [SET]).Ok? <==> Elements(s).Ok? && Tags(Elements(s).value) == [SET]
    ensures Parts(s, [SET]).Ok? ==> Parts(s, [SET]) == Elements(s)
  {
  }

  // ----- the two readers

  lemma {:induction false} SignedDataIs(p: Bytes, sd: Bytes, head: seq<Tlv>, tail: Outcome<seq<Tlv>>)
    requires SignedDataOf(p) == Ok(sd) && |head| == 3 && IsSignedDataHead(head) && Follows(Elements(sd), head, tail)
    ensures SignedDataFields(p) == if tail.Ok? && IsSignedDataTail(tail.value) then Ok(head + tail.value) else Throws
  {
    if tail.Ok? {
      var es := head + tail.value;
      assert es[..3] == head[..3] && es[3..] == tail.value;
      assert IsSignedDataTail(tail.value) ==> tail.value != [];
    }
  }

  lemma {:induction false} SignedDataIsNot(p: Bytes, sd: Bytes)
    requires SignedDataOf(p) == Ok(sd) && (Elements(sd).Ok? ==> !IsSignedDataHead(Elements(sd).value))
    ensures SignedDataFields(p).Throws?
  {
  }

  method HasSignerCursor(pkcs7: Bytes) returns (r: Outcome<bool>)
    ensures r == HasSigner(pkcs7)
  {
    hide SignedDataOf, Elements, IsSignedDataHead, IsSignedDataTail, IsSigner, Follows;
    var view :- SignedDataView(pkcs7);
    var sd := new DerFields(view);
    var encap, head := SkipSignedDataHeader(sd);
    if encap.Throws? { SignedDataIsNot(pkcs7, view.content); return Throws; }
    ghost var tail := Elements(sd.rest);
    SignedDataIs(pkcs7, view.content, head, tail);
    var signers :- TakeSigners(sd);
    ghost var es := head + tail.value;
    assert es[|es| - 1] == signers;
    r := CheckSigners(signers);
  }

  /** The loop over the signers. */
  method CheckSigners(field: Tlv) returns (r: Outcome<bool>)
    ensures r == match Elements(field.content)
                 case Throws => Throws
                 case Ok(vs) => if forall v :: v in vs ==> IsSigner(v) then Ok(vs != []) else Throws
  {
    hide IsSigner;
    var signers := new DerFields(field);
    var found := false;
    ghost var taken: seq<Tlv> := [];
    FollowsNothing(Elements(field.content));
    while !signers.Empty()
      modifies signers
      invariant Follows(Elements(field.content), taken, Elements(signers.rest))
      invariant forall v :: v in taken ==> IsSigner(v)
      invariant found == (taken != [])
      decreases |signers.rest|
    {
      ghost var before := signers.rest;
      var v := signers.Take(SEQUENCE);
      if v.Throws? {
        NotSequence(Elements(before));
        assert Elements(before).Ok? ==> Elements(before).value[0] in Elements(field.content).value;
        return Throws;
      }
      FollowsStep(Elements(field.content), taken, before, v.value, signers.rest);
      var ok := CheckSigner(v.value);
      if !ok {
        assert Elements(field.content).Ok? ==> v.value in Elements(field.content).value;
        return Throws;
      }
      taken := taken + [v.value];
      found := true;
    }
    assert taken + [] == taken;
    return Ok(found);
  }

  method CheckSha256Algorithm(v: Tlv) returns (ok: bool)
    ensures ok == IsSha256Algorithm(v.content)
  {
    hide OidContent, Elements;
    ghost var vs := Elements(v.content);
    var algorithm := new DerFields(v);
    if vs.Ok? { Sha256AlgorithmIs(vs); }
    var oid := algorithm.Take(OID);
    if oid.Throws? { return false; }
    if oid.value.content != OidContent(SHA256) { return false; }
    ghost var mid := Elements(algorithm.rest);
    assert mid.Ok? ==> ([oid.value] + mid.value)[1..] == mid.value;
    if !algorithm.Empty() {
      ghost var before := algorithm.rest;
      var parameters := algorithm.Take(NULL);
      if parameters.Throws? { assert mid.Ok? ==> mid.value != [] by { NonemptyElements(before); } return false; }
      if parameters.value.content != [] { return false; }
    }
    NonemptyElements(algorithm.rest);
    return algorithm.Empty();
  }

  lemma {:induction false} NonemptyElements(s: Bytes)
    ensures Elements(s).Ok? && Elements(s).value == [] <==> s == []
  {
  }

  lemma Sha256AlgorithmIs(vs: Outcome<seq<Tlv>>)
    requires vs.Ok?
    ensures Tags(vs.value) in {[OID], [OID, NULL]} <==>
            && StartsWith(vs, OID)
            && (vs.value[1..] == [] || (|vs.value| == 2 && vs.value[1].tag == NULL))
  {
    if |vs.value| == 1 { assert Tags(vs.value) == [vs.value[0].tag]; }
    if |vs.value| == 2 { assert Tags(vs.value) == [vs.value[0].tag, vs.value[1].tag]; }
  }

  method CheckDigestInfo(v: Tlv) returns (ok: bool)
    ensures ok == IsDigestInfo(v.content)
  {
    hide Parts, Elements, IsSha256Algorithm;
    var digest := new DerFields(v);
    var algorithm := digest.Take(SEQUENCE);
    if algorithm.Throws? { PartsStart(v.content, [SEQUENCE, OCTET_STRING]); return false; }
    ghost var mid := digest.rest;
    PartsStep(v.content, algorithm.value, mid, [SEQUENCE, OCTET_STRING]);
    ok := CheckSha256Algorithm(algorithm.value);
    if !ok { return; }
    var octets := digest.Take(OCTET_STRING);
    if octets.Throws? { PartsSecond(v.content, algorithm.value, mid, OCTET_STRING); return false; }
    PartsTwo(v.content, algorithm.value, mid, octets.value, digest.rest);
    if octets.value.content == [] { return false; }
    return digest.Empty();
  }

  method CheckIndirectData(idc: Tlv) returns (ok: bool)
    ensures ok == HasSha256Shape(idc.content)
  {
    hide Parts, Elements, IsDigestInfo;
    var data := new DerFields(idc);
    var sip := data.Take(SEQUENCE);
    if sip.Throws? { PartsStart(idc.content, [SEQUENCE, SEQUENCE]); return false; }
    ghost var mid := data.rest;
    var digest := data.Take(SEQUENCE);
    if digest.Throws? { PartsSecond(idc.content, sip.value, mid, SEQUENCE); return false; }
    PartsTwo(idc.content, sip.value, mid, digest.value, data.rest);
    ok := CheckDigestInfo(digest.value);
    if !ok { return; }
    return data.Empty();
  }

  /** The encapsulated content: its type, its one SEQUENCE and that SEQUENCE's shape. */
  method ReadEncap(encap: Tlv) returns (r: Outcome<Bytes>)
    ensures r == IndirectDataIn(encap.content)
  {
    hide Parts, Elements, OidContent, HasSha256Shape;
    var eci := new DerFields(encap);
    var oid := eci.Take(OID);
    if oid.Throws? { PartsStart(encap.content, [OID, CONTEXT_0]); return Throws; }
    ghost var mid := eci.rest;
    PartsStep(encap.content, oid.value, mid, [OID, CONTEXT_0]);
    if oid.value.content != OidContent(SPC_INDIRECT_DATA) { return Throws; }
    var wrapper := eci.Take(CONTEXT_0);
    if wrapper.Throws? { PartsSecond(encap.content, oid.value, mid, CONTEXT_0); return Throws; }
    PartsTwo(encap.content, oid.value, mid, wrapper.value, eci.rest);
    var content := new DerFields(wrapper.value);
    var idc := content.Take(SEQUENCE);
    if idc.Throws? { PartsStart(wrapper.value.content, [SEQUENCE]); return Throws; }
    PartsOne(wrapper.value.content, idc.value, content.rest);
    if !content.Empty() { return Throws; }
    if !eci.Empty() { return Throws; }
    var shaped := CheckIndirectData(idc.value);
    if !shaped { return Throws; }
    return Ok(idc.value.Raw());
  }

  method ExtractCursor(pkcs7: Bytes) returns (r: Outcome<Bytes>)
    ensures r == ExtractIndirectData(pkcs7)
  {
    hide SignedDataOf, Elements, IsSignedDataHead, IsSignedDataTail, IndirectDataIn, Follows;
    var view :- SignedDataView(pkcs7);
    var sd := new DerFields(view);
    var encap, head := SkipSignedDataHeader(sd);
    if encap.Throws? { SignedDataIsNot(pkcs7, view.content); return Throws; }
    ghost var tail := Elements(sd.rest);
    SignedDataIs(pkcs7, view.content, head, tail);
    assert tail.Ok? ==> (head + tail.value)[2] == encap.value;
    var idc :- ReadEncap(encap.value);
    var signers :- TakeSigners(sd);
    return Ok(idc);
  }
}
