/** Certificate identity and certificate splitting (src/x509.cpp). */
module X509 {
  import opened Wire
  import opened Der
  import opened Fields

  /** The issuer and serial fields that name a signer. */
  datatype CertId = CertId(issuer: Tlv, serial: Tlv)

  predicate SequenceNumber(tag: byte) { tag % 0x20 == 0x10 }

  /** Contents octets of 1.2.840.113549.1.7.2. */
  const SIGNED_DATA_OCTETS: Bytes := [0x2a, 0x86, 0x48, 0x86, 0xf7, 0x0d, 0x01, 0x07, 0x02]

  function FieldsAfter(s: Bytes): Outcome<Bytes>
  {
    var v :- ReadTlv(s);
    Ok(s[v.Total()..])
  }

  /** Serial and issuer of a TBSCertificate whose optional version is already skipped. */
  function IdentityIn(p: Bytes): Outcome<CertId>
  {
    var serial :- ReadTlv(p);
    if serial.tag != INTEGER then Throws
    else
      var afterAlgorithm :- FieldsAfter(p[serial.Total()..]);
      var issuer :- ReadTlv(afterAlgorithm);
      if SequenceNumber(issuer.tag) then Ok(CertId(issuer, serial)) else Throws
  }

  function TbsIdentity(tbs: Bytes): Outcome<CertId>
  {
    var first :- ReadTlv(tbs);
    IdentityIn(if first.tag == CONTEXT_0 then tbs[first.Total()..] else tbs)
  }

  function CertIdOf(cert: Bytes): Outcome<CertId>
  {
    var c :- ReadTlv(cert);
    if !SequenceNumber(c.tag) then Throws
    else
      var tbs :- ReadTlv(c.content);
      if !SequenceNumber(tbs.tag) then Throws
      else
        TbsIdentity(tbs.content)
  }

  method ReadCertId(cert: Bytes) returns (r: Outcome<CertId>)
    ensures r == CertIdOf(cert)
  {
    hide ReadTlv;
    var c :- ReadTlvInPlace(cert);
    if c.tag % 0x20 != 0x10 { return Throws; }
    var tbs :- ReadTlvInPlace(c.content);
    if tbs.tag % 0x20 != 0x10 { return Throws; }
    var p := tbs.content;
    var elem :- ReadTlvInPlace(p);
    if elem.tag == CONTEXT_0 {
      p := p[elem.Total()..];
      elem :- ReadTlvInPlace(p);
    }
    if elem.tag != INTEGER { return Throws; }
    var serial := elem;
    p := p[elem.Total()..];
    elem :- ReadTlvInPlace(p);
    p := p[elem.Total()..];
    elem :- ReadTlvInPlace(p);
    if elem.tag % 0x20 != 0x10 { return Throws; }
    return Ok(CertId(elem, serial));
  }

  function RawElements(s: Bytes): Outcome<seq<Bytes>>
  {
    var vs :- Elements(s);
    Ok(Raws(vs))
  }

  /** The certificates field of SignedData contents: the first field tagged [0]. */
  function CertificatesField(s: Bytes): Outcome<Option<seq<Bytes>>>
  {
    if s == [] then Ok(None)
    else
      var field :- ReadTlv(s);
      if field.tag == CONTEXT_0 then
        var certs :- RawElements(field.content);
        Ok(Some(certs))
      else CertificatesField(s[field.Total()..])
  }

  function CmsCertificates(data: Bytes): Outcome<Option<seq<Bytes>>>
  {
    if |data| < 20 then Ok(None)
    else
      var ci :- ReadTlv(data);
      if ci.tag != SEQUENCE then Ok(None)
      else
        var oid :- ReadTlv(ci.content);
        if oid.tag != OID || oid.content != SIGNED_DATA_OCTETS then Ok(None)
        else
          var explicit0 :- ReadTlv(ci.content[oid.Total()..]);
          if explicit0.tag != CONTEXT_0 then Ok(None)
          else
            var sd :- ReadTlv(explicit0.content);
            if sd.tag != SEQUENCE then Ok(None) else CertificatesField(sd.content)
  }

  /** The certificates of a CMS message, or else of concatenated DER. */
  function SplitCerts(data: Bytes): Outcome<seq<Bytes>>
  {
    var found :- CmsCertificates(data);
    if found.Some? then Ok(found.value) else RawElements(data)
  }

  method SplitFields(data: Bytes) returns (r: Outcome<seq<Bytes>>)
    ensures r == RawElements(data)
  {
    var out: seq<Bytes> := [];
    var rest := data;
    ghost var seen: seq<Tlv> := [];
    assert Elements(data).Ok? ==> [] + Elements(data).value == Elements(data).value;
    while rest != []
      invariant out == Raws(seen)
      invariant Elements(data) ==
                (match Elements(rest) case Throws => Throws case Ok(vs) => Ok(seen + vs))
      decreases |rest|
    {
      var v :- ReadTlvInPlace(rest);
      ReadBounds(rest);
      out := out + [rest[..v.Total()]];
      ghost var tail := Elements(rest[v.Total()..]);
      assert tail.Ok? ==> seen + ([v] + tail.value) == (seen + [v]) + tail.value;
      seen := seen + [v];
      rest := rest[v.Total()..];
    }
    assert seen + [] == seen;
    return Ok(out);
  }

  method TryExtractCmsCerts(data: Bytes) returns (r: Outcome<Option<seq<Bytes>>>)
    ensures r == CmsCertificates(data)
  {
    if |data| < 20 { return Ok(None); }
    var ci :- ReadTlvInPlace(data);
    if ci.tag != SEQUENCE { return Ok(None); }
    var oid :- ReadTlvInPlace(ci.content);
    if oid.tag != OID || oid.content != SIGNED_DATA_OCTETS { return Ok(None); }
    var p := ci.content[oid.Total()..];
    var explicit0 :- ReadTlvInPlace(p);
    if explicit0.tag != CONTEXT_0 { return Ok(None); }
    var sd :- ReadTlvInPlace(explicit0.content);
    if sd.tag != SEQUENCE { return Ok(None); }
    p := sd.content;
    while p != []
      invariant CertificatesField(p) == CertificatesField(sd.content)
      decreases |p|
    {
      var field :- ReadTlvInPlace(p);
      if field.tag == CONTEXT_0 {
        var certs :- SplitFields(field.content);
        return Ok(Some(certs));
      }
      p := p[field.Total()..];
    }
    return Ok(None);
  }

  method SplitCertificates(data: Bytes) returns (r: Outcome<seq<Bytes>>)
    ensures r == SplitCerts(data)
  {
    var found :- TryExtractCmsCerts(data);
    match found
    case Some(certs) => r := Ok(certs);
    case None => r := SplitFields(data);
  }

  // ----- what the readers promise

  /** A certificate's issuer and serial come back as whole encoded fields. */
  lemma IdentityIsEncoded(cert: Bytes)
    requires CertIdOf(cert).Ok?
    ensures var id := CertIdOf(cert).value;
            && Encodes(id.issuer.Raw(), id.issuer) && Encodes(id.serial.Raw(), id.serial)
            && SequenceNumber(id.issuer.tag) && id.serial.tag == INTEGER
  {
    var tbs := ReadTlv(ReadTlv(cert).value.content).value;
    var first := ReadTlv(tbs.content).value;
    var p := if first.tag == CONTEXT_0 then tbs.content[first.Total()..] else tbs.content;
    ReadOwnBytes(p);
    ReadOwnBytes(FieldsAfter(p[ReadTlv(p).value.Total()..]).value);
  }

  /**
   * Section 4.1 of RFC 5280: whatever follows the issuer, and with or without a version, the
   * serial and issuer fields of the certificate are the ones returned.
   */
  lemma IdentityOfCertificate(cert: Bytes, outer: Tlv, tbs: Tlv, version: Bytes, serial: Tlv, algorithm: Tlv,
                              issuer: Tlv, rest: Bytes)
    requires ReadTlv(cert) == Ok(outer) && SequenceNumber(outer.tag)
    requires ReadTlv(outer.content) == Ok(tbs) && SequenceNumber(tbs.tag)
    requires tbs.content == TbsBytes(version, serial, algorithm, issuer, rest)
    requires version == [] || exists w :: Encodes(version, w) && w.tag == CONTEXT_0
    requires Encodes(serial.Raw(), serial) && Encodes(algorithm.Raw(), algorithm) && Encodes(issuer.Raw(), issuer)
    requires serial.tag == INTEGER && SequenceNumber(issuer.tag)
    ensures CertIdOf(cert) == Ok(CertId(issuer, serial))
  {
    IdentityOfTbs(version, serial, algorithm, issuer, rest);
  }

  function TbsBytes(version: Bytes, serial: Tlv, algorithm: Tlv, issuer: Tlv, rest: Bytes): Bytes
  {
    version + (serial.Raw() + (algorithm.Raw() + (issuer.Raw() + rest)))
  }

  lemma IdentityOfTbs(version: Bytes, serial: Tlv, algorithm: Tlv, issuer: Tlv, rest: Bytes)
    requires version == [] || exists w :: Encodes(version, w) && w.tag == CONTEXT_0
    requires Encodes(serial.Raw(), serial) && Encodes(algorithm.Raw(), algorithm) && Encodes(issuer.Raw(), issuer)
    requires serial.tag == INTEGER && SequenceNumber(issuer.tag)
    ensures TbsIdentity(TbsBytes(version, serial, algorithm, issuer, rest)) == Ok(CertId(issuer, serial))
  {
    var p := TbsBytes([], serial, algorithm, issuer, rest);
    assert p == serial.Raw() + (algorithm.Raw() + (issuer.Raw() + rest));
    IdentityAt(serial, algorithm, issuer, rest);
    if version == [] {
      ReadIgnoresSuffix(serial.Raw(), algorithm.Raw() + (issuer.Raw() + rest));
    } else {
      var w :| Encodes(version, w) && w.tag == CONTEXT_0;
      assert TbsBytes(version, serial, algorithm, issuer, rest) == version + p;
      ReadIgnoresSuffix(version, p);
      assert (version + p)[w.Total()..] == p;
    }
  }

  lemma IdentityAt(serial: Tlv, algorithm: Tlv, issuer: Tlv, rest: Bytes)
    requires Encodes(serial.Raw(), serial) && Encodes(algorithm.Raw(), algorithm) && Encodes(issuer.Raw(), issuer)
    requires serial.tag == INTEGER && SequenceNumber(issuer.tag)
    ensures IdentityIn(serial.Raw() + (algorithm.Raw() + (issuer.Raw() + rest))) == Ok(CertId(issuer, serial))
  {
    var p3 := issuer.Raw() + rest;
    var p2 := algorithm.Raw() + p3;
    var p1 := serial.Raw() + p2;
    ReadIgnoresSuffix(serial.Raw(), p2);
    ReadIgnoresSuffix(algorithm.Raw(), p3);
    ReadIgnoresSuffix(issuer.Raw(), rest);
    assert p1[serial.Total()..] == p2 && p2[algorithm.Total()..] == p3;
  }

  lemma RawElementsEncode(data: Bytes)
    requires RawElements(data).Ok?
    ensures exists vs :: EncodeAll(RawElements(data).value, vs)
  {
    ElementsTile(data);
    assert EncodeAll(RawElements(data).value, Elements(data).value);
  }

  lemma {:induction false} CertificatesFieldEncodes(s: Bytes)
    requires CertificatesField(s).Ok? && CertificatesField(s).value.Some?
    ensures exists vs :: EncodeAll(CertificatesField(s).value.value, vs)
  {
    var field := ReadTlv(s).value;
    if field.tag == CONTEXT_0 {
      RawElementsEncode(field.content);
    } else {
      CertificatesFieldEncodes(s[field.Total()..]);
    }
  }

  /** Whichever way the buffer is read, each certificate returned is one whole field. */
  lemma CertificatesAreEncoded(data: Bytes)
    requires SplitCerts(data).Ok?
    ensures exists vs :: EncodeAll(SplitCerts(data).value, vs)
  {
    if CmsCertificates(data).value.Some? {
      var ci := ReadTlv(data).value;
      var oid := ReadTlv(ci.content).value;
      var explicit0 := ReadTlv(ci.content[oid.Total()..]).value;
      CertificatesFieldEncodes(ReadTlv(explicit0.content).value.content);
    } else {
      RawElementsEncode(data);
    }
  }

  /** A tag with number 16, whatever its class and form. */
  lemma SequenceNumberMeans(tag: byte)
    ensures SequenceNumber(tag) <==> tag in {0x10, 0x30, 0x50, 0x70, 0x90, 0xb0, 0xd0, 0xf0}
  {
  }

  /**
   * A chain of concatenated certificates comes back field by field. A certificate is told from a message by its first
   * inner field, which is not an identifier.
   */
  lemma {:induction false} ChainSplits(parts: seq<Bytes>, vs: seq<Tlv>)
    requires EncodeAll(parts, vs)
    requires vs != [] && vs[0].tag == SEQUENCE ==> ReadTlv(vs[0].content).Ok? && ReadTlv(vs[0].content).value.tag != OID
    ensures SplitCerts(Cat(parts)) == Ok(parts)
  {
    hide Elements, RawElements;
    RawElementsOfCat(parts, vs);
    if parts != [] { ReadIgnoresSuffix(parts[0], Cat(parts[1..])); }
  }

  /** Splitting a concatenation of whole fields gives the fields back. */
  lemma {:induction false} RawElementsOfCat(parts: seq<Bytes>, vs: seq<Tlv>)
    requires EncodeAll(parts, vs)
    ensures RawElements(Cat(parts)) == Ok(parts)
  {
    ElementsOfCat(parts, vs);
    forall i | 0 <= i < |parts| ensures Raws(vs)[i] == parts[i] {
      ReadBounds(parts[i]);
    }
    assert Raws(vs) == parts;
  }
}
