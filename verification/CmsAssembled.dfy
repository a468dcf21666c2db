/** Every octet of an assembled message (src/cms.cpp, `build_auth_attrs` and `assemble_cms`). */
module CmsAssembled {
  import opened Wire
  import opened Der
  import opened DerSet
  import opened DerScalars
  import opened X509
  import opened Cms
  import opened CmsRoundTrip
  import opened CmsOctets

  // ----- the octets, written out

  function Sha256Identifier(): Bytes { [0x30, 0x0d, 0x06, 0x09] + Sha256Octets() + [0x05, 0x00] }
  function RsaIdentifier(): Bytes { [0x30, 0x0d, 0x06, 0x09] + RsaOctets() + [0x05, 0x00] }

  function ContentTypeAttribute(): Bytes
  {
    [0x30, 0x19, 0x06, 0x09] + ContentTypeOctets() + [0x31, 0x0c, 0x06, 0x0a] + IndirectDataOctets()
  }

  function StatementAttribute(): Bytes
  {
    [0x30, 0x1c, 0x06, 0x0a] + StatementTypeOctets() + [0x31, 0x0e, 0x30, 0x0c, 0x06, 0x0a] + IndividualOctets()
  }

  function DigestAttribute(digest: Digest): Bytes
  {
    [0x30, 0x2f, 0x06, 0x09] + MessageDigestOctets() + [0x31, 0x22, 0x04, 0x20] + digest
  }

  /** The authenticated attributes in the order in which DER wants them. */
  function AttributeOctets(digest: Digest): Bytes
  {
    ContentTypeAttribute() + StatementAttribute() + DigestAttribute(digest)
  }

  function SignerOctets(id: CertId, digest: Digest, signature: Bytes): Bytes
  {
    [0x02, 0x01, 0x01] + Wrap(0x30, id.issuer.Raw() + id.serial.Raw()) + Sha256Identifier()
      + Wrap(0xa0, AttributeOctets(digest)) + RsaIdentifier() + Wrap(0x04, signature)
  }

  function EncapOctets(idc: Bytes): Bytes { Wrap(0x06, IndirectDataOctets()) + Wrap(0xa0, idc) }

  function SignedDataContents(idc: Bytes, certs: Bytes, signer: Bytes): Bytes
  {
    [0x02, 0x01, 0x01] + Wrap(0x31, Sha256Identifier()) + Wrap(0x30, EncapOctets(idc)) + Wrap(0xa0, certs)
      + Wrap(0x31, Wrap(0x30, signer))
  }

  function MessageOctets(idc: Bytes, certs: Bytes, signer: Bytes): Bytes
  {
    Wrap(0x30, Wrap(0x06, SignedDataOctets()) + Wrap(0xa0, Wrap(0x30, SignedDataContents(idc, certs, signer))))
  }

  // ----- are what is printed

  lemma SmallWrap(tag: byte, content: Bytes)
    requires |content| < 0x80
    ensures Wrap(tag, content) == [tag, |content|] + content
  {
  }

  lemma SequenceOfTwo(a: Bytes, b: Bytes)
    ensures Sequence([a, b]) == Wrap(SEQUENCE, a + b)
  {
    CatTwo(a, b);
  }

  lemma AlgorithmOctets()
    ensures Algorithm(SHA256) == Sha256Identifier() && Algorithm(RSA_ENCRYPTION) == RsaIdentifier()
  {
    hide OidContent, Wrap, Cat, LengthOctets;
    Sha256Is();
    OtherIdentifiers();
    SmallWrap(NULL, []);
    SmallWrap(OID, Sha256Octets());
    SmallWrap(OID, RsaOctets());
    SequenceOfTwo(Oid(SHA256), Wrap(NULL, []));
    SequenceOfTwo(Oid(RSA_ENCRYPTION), Wrap(NULL, []));
    SmallWrap(SEQUENCE, Oid(SHA256) + Wrap(NULL, []));
    SmallWrap(SEQUENCE, Oid(RSA_ENCRYPTION) + Wrap(NULL, []));
  }

  lemma ContentTypeIs()
    ensures Attribute(CONTENT_TYPE, Oid(SPC_INDIRECT_DATA)) == ContentTypeAttribute()
  {
    hide OidContent, Wrap, Cat, LengthOctets, SetOf;
    IndirectDataIs();
    OtherIdentifiers();
    var value := Oid(SPC_INDIRECT_DATA);
    SmallWrap(OID, IndirectDataOctets());
    SmallWrap(OID, ContentTypeOctets());
    SetOfOne(value);
    SmallWrap(SET, value);
    SequenceOfTwo(Oid(CONTENT_TYPE), SetOf([value]));
    SmallWrap(SEQUENCE, Oid(CONTENT_TYPE) + SetOf([value]));
  }

  lemma StatementIs()
    ensures Attribute(SPC_STATEMENT_TYPE, Sequence([Oid(SPC_INDIVIDUAL)])) == StatementAttribute()
  {
    hide OidContent, Wrap, Cat, LengthOctets, SetOf;
    OtherIdentifiers();
    SmallWrap(OID, IndividualOctets());
    SmallWrap(OID, StatementTypeOctets());
    OneInSequence(Oid(SPC_INDIVIDUAL));
    SmallWrap(SEQUENCE, Oid(SPC_INDIVIDUAL));
    var value := Sequence([Oid(SPC_INDIVIDUAL)]);
    SetOfOne(value);
    SmallWrap(SET, value);
    SequenceOfTwo(Oid(SPC_STATEMENT_TYPE), SetOf([value]));
    SmallWrap(SEQUENCE, Oid(SPC_STATEMENT_TYPE) + SetOf([value]));
  }

  lemma OneInSequence(x: Bytes)
    ensures Sequence([x]) == Wrap(SEQUENCE, x)
  {
    var none: seq<Bytes> := [];
    assert [x][1..] == none && x + Cat(none) == x;
  }

  lemma DigestIs(digest: Digest)
    ensures Attribute(MESSAGE_DIGEST, Wrap(OCTET_STRING, digest)) == DigestAttribute(digest)
  {
    hide OidContent, Wrap, Cat, LengthOctets, SetOf;
    OtherIdentifiers();
    var value := Wrap(OCTET_STRING, digest);
    SmallWrap(OCTET_STRING, digest);
    SmallWrap(OID, MessageDigestOctets());
    SetOfOne(value);
    SmallWrap(SET, value);
    SequenceOfTwo(Oid(MESSAGE_DIGEST), SetOf([value]));
    SmallWrap(SEQUENCE, Oid(MESSAGE_DIGEST) + SetOf([value]));
  }

  /** The attributes come out as content type, statement type, message digest. */
  lemma AttributesAre(sha: Hash, content: Bytes)
    ensures SetOf(AttributeParts(sha, content)) == Wrap(0x31, AttributeOctets(sha(content)))
  {
    hide Attribute, Wrap, ContentTypeAttribute, StatementAttribute, DigestAttribute, LexLess;
    var digest := sha(content);
    ContentTypeIs();
    StatementIs();
    DigestIs(digest);
    var a, b, c := ContentTypeAttribute(), StatementAttribute(), DigestAttribute(digest);
    var parts := AttributeParts(sha, content);
    assert parts == [a, c, b];
    AttributesAscend(digest);
    SortedAscends(parts);
    assert multiset([a, b, c]) == multiset(parts);
    AscendingIsUnique(Sorted(parts), [a, b, c]);
    CatOfThree(a, b, c);
  }

  lemma CatOfThree(a: Bytes, b: Bytes, c: Bytes)
    ensures Cat([a, b, c]) == a + b + c
  {
    CatAppend([a, b], c);
    CatTwo(a, b);
    assert [a, b] + [c] == [a, b, c];
  }

  lemma AttributesAscend(digest: Digest)
    ensures Ascending([ContentTypeAttribute(), StatementAttribute(), DigestAttribute(digest)])
  {
    var a, b, c := ContentTypeAttribute(), StatementAttribute(), DigestAttribute(digest);
    SecondOctetDecides(a, b);
    SecondOctetDecides(b, c);
    SecondOctetDecides(a, c);
  }

  lemma {:induction false} SecondOctetDecides(a: Bytes, b: Bytes)
    requires |a| >= 2 && |b| >= 2 && a[0] == b[0] && a[1] < b[1]
    ensures LexLess(a, b) && !LexLess(b, a)
  {
    assert LexLess(a[1..], b[1..]) && !LexLess(b[1..], a[1..]);
  }

  /** The digest that is signed, from the contents octets of the indirect data. */
  lemma DigestOctets(sha: Hash, idc: Bytes, digest: Digest)
    requires AuthAttrsHash(sha, idc) == Ok(digest)
    ensures ReadTlv(idc).Ok? && digest == sha([0x31, 0x6a] + AttributeOctets(sha(ReadTlv(idc).value.content)))
  {
    hide AttributeParts, SetOf;
    var content := ReadTlv(idc).value.content;
    AttributesAre(sha, content);
    SmallWrap(0x31, AttributeOctets(sha(content)));
  }

  lemma SignerIs(id: CertId, digest: Digest, signature: Bytes)
    ensures Sequence(SignerParts(id, Wrap(SET, AttributeOctets(digest)), signature)) ==
            Wrap(0x30, SignerOctets(id, digest, signature))
  {
    hide Wrap, AttributeOctets, Algorithm, Sha256Identifier, RsaIdentifier, Integer;
    AlgorithmOctets();
    VersionOne();
    SmallWrap(INTEGER, [1]);
    Implicit0Retags(AttributeOctets(digest));
    SequenceOfTwo(id.issuer.Raw(), id.serial.Raw());
    var parts := SignerParts(id, Wrap(SET, AttributeOctets(digest)), signature);
    CatOfSix(parts);
    assert parts[0] == [0x02, 0x01, 0x01] && parts[1] == Wrap(0x30, id.issuer.Raw() + id.serial.Raw());
    assert Cat(parts) == SignerOctets(id, digest, signature);
  }

  lemma {:induction false} CatOfSix(p: seq<Bytes>)
    requires |p| == 6
    ensures Cat(p) == p[0] + p[1] + p[2] + p[3] + p[4] + p[5]
  {
    CatAppend(p[..5], p[5]);
    CatOfFive(p[..5]);
    assert p == p[..5] + [p[5]];
  }

  lemma {:induction false} CatOfFive(p: seq<Bytes>)
    requires |p| == 5
    ensures Cat(p) == p[0] + p[1] + p[2] + p[3] + p[4]
  {
    CatAppend(p[..4], p[4]);
    CatAppend(p[..3], p[3]);
    CatOfThree(p[0], p[1], p[2]);
    assert p == p[..4] + [p[4]] && p[..4] == p[..3] + [p[3]] && p[..3] == [p[0], p[1], p[2]];
  }

  lemma SignedDataIsPrinted(idc: Bytes, certs: Bytes, signer: Bytes)
    ensures ContentInfo(SignedDataParts(idc, certs, Wrap(0x30, signer))) == MessageOctets(idc, certs, signer)
  {
    hide Wrap, Algorithm, Sha256Identifier, Integer, SetOf, OidContent;
    AlgorithmOctets();
    VersionOne();
    SmallWrap(INTEGER, [1]);
    SetOfOne(Algorithm(SHA256));
    SetOfOne(Wrap(0x30, signer));
    IndirectDataIs();
    SignedDataIs();
    SequenceOfTwo(Oid(SPC_INDIRECT_DATA), Explicit0(idc));
    var parts := SignedDataParts(idc, certs, Wrap(0x30, signer));
    CatOfFive(parts);
    assert parts[0] == [0x02, 0x01, 0x01] && parts[2] == Wrap(0x30, EncapOctets(idc));
    assert Cat(parts) == SignedDataContents(idc, certs, signer);
    SequenceOfTwo(Oid(SIGNED_DATA), Explicit0(Sequence(parts)));
  }

  /** An assembled message, octet by octet: every tag, identifier, version and order in it. */
  lemma AssembledOctets(sha: Hash, idc: Bytes, signature: Bytes, certsDer: Bytes, cms: Bytes)
    requires Assemble(sha, idc, signature, certsDer) == Ok(cms)
    ensures var certs := SplitCerts(certsDer).value;
            var digest := sha(ReadTlv(idc).value.content);
            cms == MessageOctets(idc, Cat(certs), SignerOctets(CertIdOf(certs[0]).value, digest, signature))
  {
    hide SplitCerts, CertIdOf, AttributeParts, SetOf, SignerParts, SignedDataParts, Sequence, ContentInfo,
         AttributeOctets, Wrap, SignerOctets, MessageOctets;
    var certs := SplitCerts(certsDer).value;
    var id := CertIdOf(certs[0]).value;
    var content := ReadTlv(idc).value.content;
    AttributesAre(sha, content);
    SignerIs(id, sha(content), signature);
    SignedDataIsPrinted(idc, Cat(certs), SignerOctets(id, sha(content), signature));
  }
}
