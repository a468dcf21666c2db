/** What the three readers of src/cms.cpp and src/x509.cpp find in an assembled message. */
module CmsRoundTrip {
  import opened Wire
  import opened Der
  import opened Fields
  import opened DerSet
  import opened DerScalars
  import opened X509
  import opened Cms

  // ----- sizes: whatever sits inside a message that fits, fits

  lemma {:induction false} PartsFit(tag: byte, parts: seq<Bytes>)
    requires |Wrap(tag, Cat(parts))| < TWO_32
    ensures |Cat(parts)| < TWO_32 && forall i :: 0 <= i < |parts| ==> |parts[i]| < TWO_32
  {
    forall i | 0 <= i < |parts| ensures |parts[i]| < TWO_32 { CatBound(parts, i); }
  }

  lemma WrappedReads(tag: byte, content: Bytes)
    requires |Wrap(tag, content)| < TWO_32
    ensures Encodes(Wrap(tag, content), Wrapped(tag, content)) && |content| < TWO_32
  {
    WrapReads(tag, content);
  }

  lemma SetOfOne(x: Bytes)
    ensures SetOf([x]) == Wrap(SET, x)
  {
    assert [x][1..] == [];
    assert Sorted([x]) == [x];
    assert Cat([x]) == x;
  }

  lemma VersionOne()
    ensures Integer(1) == Wrap(INTEGER, [1])
  {
    assert BigEndian([1]) == 1 by { assert [1][..0] == []; }
    IntegerIsMinimal(1, [1]);
  }

  // ----- opening one level

  lemma OneField(x: Bytes, v: Tlv)
    requires Encodes(x, v)
    ensures Parts(x, [v.tag]) == Ok([v])
  {
    SingleElement(x, v);
    assert Tags([v]) == [v.tag];
  }

  lemma TwoFields(a: Bytes, v: Tlv, b: Bytes, w: Tlv)
    requires Encodes(a, v) && Encodes(b, w)
    ensures Elements(Cat([a, b])) == Ok([v, w]) && Parts(Cat([a, b]), [v.tag, w.tag]) == Ok([v, w])
  {
    ElementsOfCat([a, b], [v, w]);
    assert Tags([v, w]) == [v.tag, w.tag];
  }

  lemma {:induction false} OpenContentInfo(sd: seq<Bytes>)
    requires |ContentInfo(sd)| < TWO_32
    ensures SignedDataOf(ContentInfo(sd)) == Ok(Cat(sd))
    ensures |Sequence(sd)| < TWO_32
  {
    var oid, wrapper, inner := Oid(SIGNED_DATA), Explicit0(Sequence(sd)), Sequence(sd);
    var parts := [oid, wrapper];
    PartsFit(SEQUENCE, parts);
    assert |parts[0]| < TWO_32 && |parts[1]| < TWO_32;
    WrappedReads(SEQUENCE, Cat([oid, wrapper]));
    OneField(ContentInfo(sd), Wrapped(SEQUENCE, Cat([oid, wrapper])));
    WrappedReads(OID, OidContent(SIGNED_DATA));
    WrappedReads(CONTEXT_0, inner);
    TwoFields(oid, Wrapped(OID, OidContent(SIGNED_DATA)), wrapper, Wrapped(CONTEXT_0, inner));
    WrappedReads(SEQUENCE, Cat(sd));
    OneField(inner, Wrapped(SEQUENCE, Cat(sd)));
  }

  function SignedDataView(idc: Bytes, certs: Bytes, signer: Bytes): seq<Tlv>
  {
    [Wrapped(INTEGER, [1]), Wrapped(SET, Algorithm(SHA256)), Wrapped(SEQUENCE, Cat(EncapParts(idc))),
     Wrapped(CONTEXT_0, certs), Wrapped(SET, signer)]
  }

  lemma SignedDataElements(idc: Bytes, certs: Bytes, signer: Bytes)
    requires |Sequence(SignedDataParts(idc, certs, signer))| < TWO_32
    ensures Elements(Cat(SignedDataParts(idc, certs, signer))) == Ok(SignedDataView(idc, certs, signer))
    ensures |Sequence(EncapParts(idc))| < TWO_32 && |certs| < TWO_32 && |signer| < TWO_32
  {
    hide Wrap, Wrapped, Encodes, Elements, OidContent, Integer, Algorithm, EncapParts, Cat;
    var parts, view := SignedDataParts(idc, certs, signer), SignedDataView(idc, certs, signer);
    PartsFit(SEQUENCE, parts);
    assert forall i :: 0 <= i < 5 ==> |parts[i]| < TWO_32;
    VersionOne();
    SetOfOne(Algorithm(SHA256));
    SetOfOne(signer);
    assert parts[0] == Wrap(INTEGER, [1]) && parts[1] == Wrap(SET, Algorithm(SHA256));
    assert parts[2] == Wrap(SEQUENCE, Cat(EncapParts(idc)));
    assert parts[3] == Wrap(CONTEXT_0, certs) && parts[4] == Wrap(SET, signer);
    WrappedReads(INTEGER, [1]);
    WrappedReads(SET, Algorithm(SHA256));
    WrappedReads(SEQUENCE, Cat(EncapParts(idc)));
    WrappedReads(CONTEXT_0, certs);
    WrappedReads(SET, signer);
    ElementsOfCat(parts, view);
  }

  lemma OpenSignedData(idc: Bytes, certs: Bytes, signer: Bytes)
    requires |ContentInfo(SignedDataParts(idc, certs, signer))| < TWO_32
    ensures SignedDataFields(ContentInfo(SignedDataParts(idc, certs, signer))) ==
            Ok(SignedDataView(idc, certs, signer))
    ensures |Sequence(EncapParts(idc))| < TWO_32 && |certs| < TWO_32 && |signer| < TWO_32
  {
    hide Wrap, Encodes, Elements, OidContent, Integer, Algorithm, EncapParts, Cat, ContentInfo, Sequence;
    OpenContentInfo(SignedDataParts(idc, certs, signer));
    SignedDataElements(idc, certs, signer);
    var view := SignedDataView(idc, certs, signer);
    assert Tags(view[..3]) == [INTEGER, SET, SEQUENCE];
    assert Tags(view[3..]) == [CONTEXT_0, SET];
  }

  // ----- the indirect data comes back

  lemma OpenEncap(idc: Bytes, v: Tlv)
    requires |Sequence(EncapParts(idc))| < TWO_32 && Encodes(idc, v) && v.tag == SEQUENCE
    ensures IndirectDataIn(Cat(EncapParts(idc))) == if HasSha256Shape(v.content) then Ok(idc) else Throws
  {
    hide Wrap, Elements, OidContent, HasSha256Shape, Cat;
    var oid, wrapper := Oid(SPC_INDIRECT_DATA), Explicit0(idc);
    PartsFit(SEQUENCE, EncapParts(idc));
    assert |EncapParts(idc)[0]| < TWO_32 && |EncapParts(idc)[1]| < TWO_32;
    WrappedReads(OID, OidContent(SPC_INDIRECT_DATA));
    WrappedReads(CONTEXT_0, idc);
    TwoFields(oid, Wrapped(OID, OidContent(SPC_INDIRECT_DATA)), wrapper, Wrapped(CONTEXT_0, idc));
    OneField(idc, v);
    assert v.Raw() == idc by { ReadBounds(idc); }
  }

  /**
   * Extraction undoes assembly: the indirect data comes back byte for byte when it has the
   * SHA-256 shape, and any other indirect data is refused.
   */
  lemma ExtractUndoesAssemble(sha: Hash, idc: Bytes, signature: Bytes, certsDer: Bytes, cms: Bytes)
    requires Assemble(sha, idc, signature, certsDer) == Ok(cms) && |cms| < TWO_32
    ensures ExtractIndirectData(cms) ==
            if HasSha256Shape(ReadTlv(idc).value.content) then Ok(idc) else Throws
  {
    hide SplitCerts, CertIdOf, SignedDataFields, IndirectDataIn, HasSha256Shape, SetOf, Wrap, Cat, Sequence;
    var certs := SplitCerts(certsDer).value;
    var attrs := AuthAttrs(sha, idc).value;
    var signer := Sequence(SignerParts(CertIdOf(certs[0]).value, attrs, signature));
    OpenSignedData(idc, Cat(certs), signer);
    OpenEncap(idc, ReadTlv(idc).value);
  }

  // ----- the certificates come back

  lemma {:induction false} ElementsHead(s: Bytes, vs: seq<Tlv>)
    requires Elements(s) == Ok(vs) && vs != []
    ensures ReadTlv(s) == Ok(vs[0]) && vs[0].Total() <= |s|
    ensures Elements(s[vs[0].Total()..]) == Ok(vs[1..])
  {
    var v := ReadTlv(s).value;
    assert ([v] + Elements(s[v.Total()..]).value)[1..] == Elements(s[v.Total()..]).value;
  }

  function Found(certs: Outcome<seq<Bytes>>): Outcome<Option<seq<Bytes>>>
  {
    match certs
    case Throws => Throws
    case Ok(list) => Ok(Some(list))
  }

  lemma {:induction false} CertificatesFieldAt(s: Bytes, vs: seq<Tlv>, k: nat)
    requires Elements(s) == Ok(vs) && k < |vs| && vs[k].tag == CONTEXT_0
    requires forall j :: 0 <= j < k ==> vs[j].tag != CONTEXT_0
    ensures CertificatesField(s) == Found(RawElements(vs[k].content))
  {
    hide Elements, RawElements, ReadTlv;
    ElementsHead(s, vs);
    if k > 0 { CertificatesFieldAt(s[vs[0].Total()..], vs[1..], k - 1); }
  }

  /** From 20 bytes on, the certificate reader opens the same SignedData as the CMS reader. */
  lemma {:induction false} LongMessagesAgree(p: Bytes, sd: Bytes)
    requires SignedDataOf(p) == Ok(sd) && |p| >= 20
    ensures CmsCertificates(p) == CertificatesField(sd)
  {
    var outer := Parts(p, [SEQUENCE]).value;
    var ci := Parts(outer[0].content, [OID, CONTEXT_0]).value;
    var inner := Parts(ci[1].content, [SEQUENCE]).value;
    SignedDataOidOctets(SIGNED_DATA);
    ElementsHead(p, outer);
    ElementsHead(outer[0].content, ci);
    ElementsHead(outer[0].content[ci[0].Total()..], ci[1..]);
    ElementsHead(ci[1].content, inner);
  }

  lemma CatTwo(a: Bytes, b: Bytes)
    ensures Cat([a, b]) == a + b
  {
    CatAppend([a], b);
    CatAppend([], a);
    assert [a] + [b] == [a, b] && [] + [a] == [a];
  }

  lemma MessageIsLong(sd: seq<Bytes>)
    requires sd != [] && sd[0] == Integer(1)
    ensures |ContentInfo(sd)| >= 20
  {
    hide Wrap, OidContent, Integer;
    SignedDataOidOctets(SIGNED_DATA);
    VersionOne();
    var oid, wrapper := Oid(SIGNED_DATA), Explicit0(Sequence(sd));
    CatBound(sd, 0);
    CatTwo(oid, wrapper);
  }

  /** The certificates of an assembled message are those of the buffer it was assembled from. */
  lemma SplitUndoesAssemble(sha: Hash, idc: Bytes, signature: Bytes, certsDer: Bytes, cms: Bytes)
    requires Assemble(sha, idc, signature, certsDer) == Ok(cms) && |cms| < TWO_32
    ensures SplitCerts(cms) == SplitCerts(certsDer)
  {
    hide CertIdOf, AuthAttrs, SignedDataParts, ContentInfo, Sequence, SignerParts, SignedDataView, Cat;
    var certs := SplitCerts(certsDer).value;
    var attrs := AuthAttrs(sha, idc).value;
    var signer := Sequence(SignerParts(CertIdOf(certs[0]).value, attrs, signature));
    SplitAssembled(idc, certsDer, signer);
  }

  lemma SplitAssembled(idc: Bytes, certsDer: Bytes, signer: Bytes)
    requires SplitCerts(certsDer).Ok?
    requires |ContentInfo(SignedDataParts(idc, Cat(SplitCerts(certsDer).value), signer))| < TWO_32
    ensures SplitCerts(ContentInfo(SignedDataParts(idc, Cat(SplitCerts(certsDer).value), signer))) ==
            SplitCerts(certsDer)
  {
    hide ContentInfo, Sequence, Wrap, SignedDataOf, Elements, Encodes, RawElements, Integer, CmsCertificates,
         CertificatesField, Cat, SetOf, Algorithm, EncapParts;
    var certs := SplitCerts(certsDer).value;
    var parts := SignedDataParts(idc, Cat(certs), signer);
    var cms := ContentInfo(parts);
    CertificatesAreEncoded(certsDer);
    var vs :| EncodeAll(certs, vs);
    RawElementsOfCat(certs, vs);
    OpenContentInfo(parts);
    SignedDataElements(idc, Cat(certs), signer);
    CertificatesFieldAt(Cat(parts), SignedDataView(idc, Cat(certs), signer), 3);
    MessageIsLong(parts);
    LongMessagesAgree(cms, Cat(parts));
  }

  /** Reassembling with an assembled message in place of the certificates changes nothing. */
  lemma AssembleIsFixedPoint(sha: Hash, idc: Bytes, signature: Bytes, certsDer: Bytes, cms: Bytes)
    requires Assemble(sha, idc, signature, certsDer) == Ok(cms) && |cms| < TWO_32
    ensures Assemble(sha, idc, signature, cms) == Ok(cms)
  {
    hide SplitCerts, CertIdOf, AuthAttrs, ContentInfo, SignedDataParts, SignerParts;
    SplitUndoesAssemble(sha, idc, signature, certsDer, cms);
  }

  // ----- the signer comes back

  lemma Implicit0Retags(content: Bytes)
    ensures Implicit0(Wrap(SET, content)) == Wrap(CONTEXT_0, content)
  {
  }

  /** The fields that the encodings `parts` read as. */
  function Read(parts: seq<Bytes>): (vs: seq<Tlv>)
    requires forall p :: p in parts ==> ReadTlv(p).Ok?
    ensures |vs| == |parts| && forall i :: 0 <= i < |parts| ==> vs[i] == ReadTlv(parts[i]).value
  {
    seq(|parts|, i requires 0 <= i < |parts| => ReadTlv(parts[i]).value)
  }

  lemma {:induction false} SortedMembers(parts: seq<Bytes>)
    ensures forall x :: x in Sorted(parts) <==> x in parts
  {
    assert forall x :: x in Sorted(parts) <==> x in multiset(Sorted(parts));
    assert forall x :: x in parts <==> x in multiset(parts);
  }

  lemma AlgorithmReads(oid: seq<nat>)
    requires |oid| >= 2 && |Algorithm(oid)| < TWO_32
    ensures exists c :: Encodes(Algorithm(oid), Wrapped(SEQUENCE, c)) && IsAlgorithm(c)
  {
    hide Wrap, OidContent, Cat;
    var a, b := Oid(oid), Wrap(NULL, []);
    var parts := [a, b];
    PartsFit(SEQUENCE, parts);
    assert |parts[0]| < TWO_32 && |parts[1]| < TWO_32;
    WrappedReads(SEQUENCE, Cat(parts));
    WrappedReads(OID, OidContent(oid));
    WrappedReads(NULL, []);
    TwoFields(a, Wrapped(OID, OidContent(oid)), b, Wrapped(NULL, []));
    assert IsAlgorithm(Cat(parts));
  }

  /** `v` is an attribute of this type whose set holds the one value `value`. */
  ghost predicate IsAttributeWith(v: Tlv, kind: Bytes, value: Bytes)
  {
    var fields := Parts(v.content, [OID, SET]);
    v.tag == SEQUENCE && fields.Ok? && fields.value[0].content == kind && fields.value[1].content == value
  }

  lemma AttributeReads(kind: seq<nat>, value: Bytes, v: Tlv)
    requires |kind| >= 2 && |Attribute(kind, value)| < TWO_32 && Encodes(value, v)
    ensures ReadTlv(Attribute(kind, value)).Ok?
    ensures var a := ReadTlv(Attribute(kind, value)).value;
            Encodes(Attribute(kind, value), a) && IsAttribute(a) && IsAttributeWith(a, OidContent(kind), value)
  {
    hide Wrap, OidContent, Cat;
    SetOfOne(value);
    var a, b := Oid(kind), Wrap(SET, value);
    var parts := [a, b];
    PartsFit(SEQUENCE, parts);
    assert |parts[0]| < TWO_32 && |parts[1]| < TWO_32;
    WrappedReads(SEQUENCE, Cat(parts));
    WrappedReads(OID, OidContent(kind));
    WrappedReads(SET, value);
    TwoFields(a, Wrapped(OID, OidContent(kind)), b, Wrapped(SET, value));
    SingleElement(value, v);
  }

  lemma AttributesRead(sha: Hash, content: Bytes)
    requires |SetOf(AttributeParts(sha, content))| < TWO_32
    ensures forall p :: p in AttributeParts(sha, content) ==> ReadTlv(p).Ok?
    ensures var vs := Read(AttributeParts(sha, content));
            && EncodeAll(AttributeParts(sha, content), vs) && (forall v :: v in vs ==> IsAttribute(v))
            && IsAttributeWith(vs[0], OidContent(CONTENT_TYPE), Oid(SPC_INDIRECT_DATA))
            && IsAttributeWith(vs[1], OidContent(MESSAGE_DIGEST), Wrap(OCTET_STRING, sha(content)))
            && IsAttributeWith(vs[2], OidContent(SPC_STATEMENT_TYPE), Sequence([Oid(SPC_INDIVIDUAL)]))
  {
    hide Wrap, OidContent, Cat, Attribute, IsAttribute, IsAttributeWith, Sorted, Encodes, ReadTlv;
    var parts := AttributeParts(sha, content);
    PartsFit(SET, Sorted(parts));
    SortedMembers(parts);
    forall i | 0 <= i < 3 ensures |parts[i]| < TWO_32 { assert parts[i] in parts; }
    AttributeValueReads(sha, content);
    AttributeReads(CONTENT_TYPE, Oid(SPC_INDIRECT_DATA), Wrapped(OID, OidContent(SPC_INDIRECT_DATA)));
    AttributeReads(MESSAGE_DIGEST, Wrap(OCTET_STRING, sha(content)), Wrapped(OCTET_STRING, sha(content)));
    AttributeReads(SPC_STATEMENT_TYPE, Sequence([Oid(SPC_INDIVIDUAL)]), Wrapped(SEQUENCE, Cat([Oid(SPC_INDIVIDUAL)])));
  }

  lemma AttributeValueFits(kind: seq<nat>, value: Bytes)
    requires |kind| >= 2 && |Attribute(kind, value)| < TWO_32
    ensures |value| < TWO_32
  {
    hide Wrap, OidContent, Cat;
    SetOfOne(value);
    var parts := [Oid(kind), Wrap(SET, value)];
    PartsFit(SEQUENCE, parts);
    assert |parts[1]| < TWO_32;
  }

  lemma AttributeValueReads(sha: Hash, content: Bytes)
    requires forall i :: 0 <= i < 3 ==> |AttributeParts(sha, content)[i]| < TWO_32
    ensures Encodes(Oid(SPC_INDIRECT_DATA), Wrapped(OID, OidContent(SPC_INDIRECT_DATA)))
    ensures Encodes(Wrap(OCTET_STRING, sha(content)), Wrapped(OCTET_STRING, sha(content)))
    ensures Encodes(Sequence([Oid(SPC_INDIVIDUAL)]), Wrapped(SEQUENCE, Cat([Oid(SPC_INDIVIDUAL)])))
  {
    hide Wrap, OidContent, Cat, Attribute, Encodes;
    var parts := AttributeParts(sha, content);
    assert |parts[0]| < TWO_32 && |parts[1]| < TWO_32 && |parts[2]| < TWO_32;
    AttributeValueFits(CONTENT_TYPE, Oid(SPC_INDIRECT_DATA));
    AttributeValueFits(MESSAGE_DIGEST, Wrap(OCTET_STRING, sha(content)));
    AttributeValueFits(SPC_STATEMENT_TYPE, Sequence([Oid(SPC_INDIVIDUAL)]));
    WrappedReads(OID, OidContent(SPC_INDIRECT_DATA));
    WrappedReads(OCTET_STRING, sha(content));
    WrappedReads(SEQUENCE, Cat([Oid(SPC_INDIVIDUAL)]));
  }

  lemma {:induction false} SortedEncodes(parts: seq<Bytes>)
    requires forall p :: p in parts ==> ReadTlv(p).Ok?
    requires EncodeAll(parts, Read(parts))
    ensures forall p :: p in Sorted(parts) ==> ReadTlv(p).Ok? && p in parts
    ensures forall v :: v in Read(Sorted(parts)) ==> v in Read(parts)
    ensures Elements(Cat(Sorted(parts))) == Ok(Read(Sorted(parts)))
    ensures parts != [] ==> Cat(Sorted(parts)) != []
  {
    hide Elements, Cat, Sorted, ReadTlv;
    SortedMembers(parts);
    var sorted := Sorted(parts);
    forall i | 0 <= i < |sorted| ensures Encodes(sorted[i], Read(sorted)[i]) && Read(sorted)[i] in Read(parts) {
      assert sorted[i] in parts;
      var j :| 0 <= j < |parts| && parts[j] == sorted[i];
      assert Encodes(parts[j], Read(parts)[j]) && Read(sorted)[i] == Read(parts)[j];
    }
    ElementsOfCat(sorted, Read(sorted));
    if parts != [] {
      assert parts[0] in sorted;
      CatBound(sorted, 0);
      assert sorted[0] in sorted;
      ReadBounds(sorted[0]);
    }
  }

  lemma SortedAttributes(sha: Hash, content: Bytes)
    requires |SetOf(AttributeParts(sha, content))| < TWO_32
    ensures IsAttributes(Cat(Sorted(AttributeParts(sha, content))))
  {
    hide Elements, Sorted, ReadTlv, IsAttribute, Encodes, Wrap, Attribute, IsAttributeWith;
    AttributesRead(sha, content);
    SortedEncodes(AttributeParts(sha, content));
  }

  function SignerView(id: CertId, attrs: Bytes, sha256: Bytes, rsa: Bytes, signature: Bytes): seq<Tlv>
  {
    [Wrapped(INTEGER, [1]), Wrapped(SEQUENCE, Cat([id.issuer.Raw(), id.serial.Raw()])), Wrapped(SEQUENCE, sha256),
     Wrapped(CONTEXT_0, attrs), Wrapped(SEQUENCE, rsa), Wrapped(OCTET_STRING, signature)]
  }

  lemma SignerElements(id: CertId, attrs: Bytes, signature: Bytes) returns (sha256: Bytes, rsa: Bytes)
    requires |Sequence(SignerParts(id, Wrap(SET, attrs), signature))| < TWO_32
    ensures Elements(Cat(SignerParts(id, Wrap(SET, attrs), signature))) ==
            Ok(SignerView(id, attrs, sha256, rsa, signature))
    ensures IsAlgorithm(sha256) && IsAlgorithm(rsa)
  {
    hide Encodes, Elements, OidContent, Integer, Algorithm, Cat, IsAlgorithm, Wrap;
    var parts := SignerParts(id, Wrap(SET, attrs), signature);
    PartsFit(SEQUENCE, parts);
    VersionOne();
    Implicit0Retags(attrs);
    assert parts[0] == Wrap(INTEGER, [1]) && parts[2] == Algorithm(SHA256);
    assert parts[1] == Wrap(SEQUENCE, Cat([id.issuer.Raw(), id.serial.Raw()]));
    assert parts[3] == Wrap(CONTEXT_0, attrs) && parts[4] == Algorithm(RSA_ENCRYPTION);
    assert parts[5] == Wrap(OCTET_STRING, signature);
    AlgorithmReads(SHA256);
    AlgorithmReads(RSA_ENCRYPTION);
    sha256 :| Encodes(Algorithm(SHA256), Wrapped(SEQUENCE, sha256)) && IsAlgorithm(sha256);
    rsa :| Encodes(Algorithm(RSA_ENCRYPTION), Wrapped(SEQUENCE, rsa)) && IsAlgorithm(rsa);
    WrappedReads(INTEGER, [1]);
    WrappedReads(SEQUENCE, Cat([id.issuer.Raw(), id.serial.Raw()]));
    WrappedReads(CONTEXT_0, attrs);
    WrappedReads(OCTET_STRING, signature);
    ElementsOfCat(parts, SignerView(id, attrs, sha256, rsa, signature));
  }

  /** The parts of a certificate identity and signature that a signer must not lack. */
  predicate NamesSigner(id: CertId, signature: Bytes)
  {
    id.issuer.tag == SEQUENCE && id.issuer.content != [] && id.serial.content != [] && signature != []
  }

  lemma SignerViewIsSigner(id: CertId, attrs: Bytes, sha256: Bytes, rsa: Bytes, signature: Bytes, v: Tlv)
    requires Encodes(id.issuer.Raw(), id.issuer) && Encodes(id.serial.Raw(), id.serial) && id.serial.tag == INTEGER
    requires IsAlgorithm(sha256) && IsAlgorithm(rsa) && IsAttributes(attrs)
    requires v.tag == SEQUENCE && Elements(v.content) == Ok(SignerView(id, attrs, sha256, rsa, signature))
    ensures IsSigner(v) <==> NamesSigner(id, signature)
  {
    hide Encodes, Elements, Cat, IsAlgorithm, IsAttributes, Raws;
    var fields := SignerView(id, attrs, sha256, rsa, signature);
    TwoFields(id.issuer.Raw(), id.issuer, id.serial.Raw(), id.serial);
    assert IsSid(fields[1].content) <==>
           id.issuer.tag == SEQUENCE && id.issuer.content != [] && id.serial.content != [];
    assert Tags(fields[..3]) == [INTEGER, SEQUENCE, SEQUENCE];
    assert fields[3..][1..] == fields[4..] && fields[4..][2..] == [];
    assert Tags(fields[4..][..2]) == [SEQUENCE, OCTET_STRING];
  }

  /**
   * An assembled message carries a signer exactly when the first certificate's issuer is a
   * nonempty SEQUENCE and its serial and the signature are nonempty. Otherwise the reader throws;
   * it never answers that there is no signer.
   */
  lemma HasSignerOfAssembled(sha: Hash, idc: Bytes, signature: Bytes, certsDer: Bytes, cms: Bytes)
    requires Assemble(sha, idc, signature, certsDer) == Ok(cms) && |cms| < TWO_32
    ensures HasSigner(cms) ==
            if NamesSigner(CertIdOf(SplitCerts(certsDer).value[0]).value, signature) then Ok(true) else Throws
  {
    hide SplitCerts, CertIdOf, SetOf, ContentInfo, AttributeParts, SignedDataParts, SignerParts, HasSigner, Sequence;
    var certs := SplitCerts(certsDer).value;
    var id := CertIdOf(certs[0]).value;
    var content := ReadTlv(idc).value.content;
    var attrs := SetOf(AttributeParts(sha, content));
    IdentityIsEncoded(certs[0]);
    HasSignerOf(sha, content, idc, Cat(certs), id, signature);
  }

  lemma HasSignerOf(sha: Hash, content: Bytes, idc: Bytes, certs: Bytes, id: CertId, signature: Bytes)
    requires Encodes(id.issuer.Raw(), id.issuer) && Encodes(id.serial.Raw(), id.serial) && id.serial.tag == INTEGER
    requires SetOf(AttributeParts(sha, content)) != []
    requires var signer := Sequence(SignerParts(id, SetOf(AttributeParts(sha, content)), signature));
             |ContentInfo(SignedDataParts(idc, certs, signer))| < TWO_32
    ensures var signer := Sequence(SignerParts(id, SetOf(AttributeParts(sha, content)), signature));
            HasSigner(ContentInfo(SignedDataParts(idc, certs, signer))) ==
            if NamesSigner(id, signature) then Ok(true) else Throws
  {
    hide ContentInfo, AttributeParts, SignedDataParts, SignerParts, Encodes, Elements, Cat, Wrap, IsSigner, Sorted;
    var attrs := Cat(Sorted(AttributeParts(sha, content)));
    var parts := SignerParts(id, Wrap(SET, attrs), signature);
    var signer := Sequence(parts);
    OpenSignedData(idc, certs, signer);
    WrappedReads(SEQUENCE, Cat(parts));
    SingleElement(signer, Wrapped(SEQUENCE, Cat(parts)));
    var sha256, rsa := SignerElements(id, attrs, signature);
    AttributesFit(id, attrs, signature);
    SortedAttributes(sha, content);
    SignerViewIsSigner(id, attrs, sha256, rsa, signature, Wrapped(SEQUENCE, Cat(parts)));
  }

  lemma AttributesFit(id: CertId, attrs: Bytes, signature: Bytes)
    requires |Sequence(SignerParts(id, Wrap(SET, attrs), signature))| < TWO_32
    ensures |Wrap(SET, attrs)| < TWO_32
  {
    hide Integer, Algorithm, Cat, Wrap;
    var parts := SignerParts(id, Wrap(SET, attrs), signature);
    PartsFit(SEQUENCE, parts);
    assert |parts[3]| == |Wrap(SET, attrs)|;
  }
}
