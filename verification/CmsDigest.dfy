/** What the signer signs (section 5.4 of RFC 5652, section 9.3 of RFC 2315), read back from the message. */
module CmsDigest {
  import opened Wire
  import opened Der
  import opened Fields
  import opened DerSet
  import opened DerScalars
  import opened X509
  import opened Cms
  import opened CmsRoundTrip

  /** The signed attributes field of a message with one signer. */
  function SignedAttributes(p: Bytes): Outcome<Tlv>
  {
    var es :- SignedDataFields(p);
    var signers :- Parts(es[|es| - 1].content, [SEQUENCE]);
    var fields :- Elements(signers[0].content);
    if |fields| >= 4 && fields[3].tag == CONTEXT_0 then Ok(fields[3]) else Throws
  }

  ghost predicate HasKind(v: Tlv, kind: Bytes)
  {
    var fields := Parts(v.content, [OID, SET]);
    fields.Ok? && fields.value[0].content == kind
  }

  /** One attribute in `vs` has this type, and it holds this value. */
  ghost predicate OnlyAttribute(vs: seq<Tlv>, kind: Bytes, value: Bytes)
  {
    exists i :: 0 <= i < |vs| && IsAttributeWith(vs[i], kind, value) && OthersDiffer(vs, i, kind)
  }

  ghost predicate OthersDiffer(vs: seq<Tlv>, i: int, kind: Bytes)
  {
    forall j :: 0 <= j < |vs| && j != i ==> !HasKind(vs[j], kind)
  }

  lemma KindsDiffer()
    ensures OidContent(CONTENT_TYPE) != OidContent(MESSAGE_DIGEST)
    ensures OidContent(CONTENT_TYPE) != OidContent(SPC_STATEMENT_TYPE)
    ensures OidContent(MESSAGE_DIGEST) != OidContent(SPC_STATEMENT_TYPE)
  {
    hide OidContent, ReadOid;
    OidReadsBack(CONTENT_TYPE);
    OidReadsBack(MESSAGE_DIGEST);
    OidReadsBack(SPC_STATEMENT_TYPE);
    assert CONTENT_TYPE[6] != MESSAGE_DIGEST[6] && CONTENT_TYPE[1] != SPC_STATEMENT_TYPE[1];
  }

  lemma OccursTwice(s: seq<Bytes>, i: nat, j: nat)
    requires i < j < |s| && s[i] == s[j]
    ensures multiset(s)[s[i]] >= 2
  {
    assert s == s[..i] + [s[i]] + s[i + 1..];
    assert s[i + 1..][j - i - 1] == s[j];
  }

  lemma OccursOnce(t: seq<Bytes>, k: nat)
    requires k < |t| && forall m :: 0 <= m < |t| && m != k ==> t[m] != t[k]
    ensures multiset(t)[t[k]] == 1
  {
    assert t == t[..k] + [t[k]] + t[k + 1..];
    assert t[k] !in t[..k] && t[k] !in t[k + 1..];
  }

  /** Sorting leaves the one place of an element that occurs once. */
  lemma PlaceAfterSorting(parts: seq<Bytes>, k: nat) returns (i: nat)
    requires k < |parts| && forall m :: 0 <= m < |parts| && m != k ==> parts[m] != parts[k]
    ensures i < |Sorted(parts)| && Sorted(parts)[i] == parts[k]
    ensures forall j :: 0 <= j < |Sorted(parts)| && j != i ==> Sorted(parts)[j] != parts[k]
  {
    hide Sorted;
    var sorted := Sorted(parts);
    OccursOnce(parts, k);
    SortedMembers(parts);
    assert parts[k] in sorted;
    i :| 0 <= i < |sorted| && sorted[i] == parts[k];
    forall j | 0 <= j < |sorted| && j != i ensures sorted[j] != parts[k] {
      if sorted[j] == sorted[i] { OccursTwice(sorted, if i < j then i else j, if i < j then j else i); }
    }
  }

  lemma {:induction false} OnlyAfterSorting(parts: seq<Bytes>, k: nat, kind: Bytes, value: Bytes)
    requires forall p :: p in parts ==> ReadTlv(p).Ok?
    requires forall p :: p in Sorted(parts) ==> ReadTlv(p).Ok? && p in parts
    requires k < |parts| && IsAttributeWith(Read(parts)[k], kind, value) && HasKind(Read(parts)[k], kind)
    requires forall m :: 0 <= m < |parts| && m != k ==> !HasKind(Read(parts)[m], kind)
    ensures OnlyAttribute(Read(Sorted(parts)), kind, value)
  {
    hide Sorted, ReadTlv, HasKind, IsAttributeWith;
    var sorted := Sorted(parts);
    forall m | 0 <= m < |parts| && m != k ensures parts[m] != parts[k] {
      assert Read(parts)[m] != Read(parts)[k];
    }
    var i := PlaceAfterSorting(parts, k);
    forall j | 0 <= j < |sorted| && j != i ensures !HasKind(Read(sorted)[j], kind) {
      assert sorted[j] in parts;
      var m :| 0 <= m < |parts| && parts[m] == sorted[j];
      assert Read(sorted)[j] == Read(parts)[m];
    }
    assert Read(sorted)[i] == Read(parts)[k];
    assert OthersDiffer(Read(sorted), i, kind);
  }

  lemma AttributesAreUnique(sha: Hash, content: Bytes)
    requires |SetOf(AttributeParts(sha, content))| < TWO_32
    ensures var vs := Elements(Cat(Sorted(AttributeParts(sha, content))));
            && vs.Ok?
            && OnlyAttribute(vs.value, OidContent(MESSAGE_DIGEST), Wrap(OCTET_STRING, sha(content)))
            && OnlyAttribute(vs.value, OidContent(CONTENT_TYPE), Oid(SPC_INDIRECT_DATA))
  {
    hide Elements, Sorted, ReadTlv, Encodes, Wrap, Attribute, IsAttribute, OidContent, Cat, OnlyAttribute, Parts;
    var parts := AttributeParts(sha, content);
    AttributesRead(sha, content);
    SortedEncodes(parts);
    KindsDiffer();
    OnlyAfterSorting(parts, 1, OidContent(MESSAGE_DIGEST), Wrap(OCTET_STRING, sha(content)));
    OnlyAfterSorting(parts, 0, OidContent(CONTENT_TYPE), Oid(SPC_INDIRECT_DATA));
  }

  lemma SignedAttributesOf(idc: Bytes, certs: Bytes, id: CertId, attrs: Bytes, signature: Bytes)
    requires var signer := Sequence(SignerParts(id, Wrap(SET, attrs), signature));
             |ContentInfo(SignedDataParts(idc, certs, signer))| < TWO_32
    ensures var signer := Sequence(SignerParts(id, Wrap(SET, attrs), signature));
            SignedAttributes(ContentInfo(SignedDataParts(idc, certs, signer))) == Ok(Wrapped(CONTEXT_0, attrs))
    ensures |Wrap(SET, attrs)| < TWO_32
  {
    hide ContentInfo, SignedDataParts, SignerParts, Encodes, Elements, Cat, Wrap;
    var parts := SignerParts(id, Wrap(SET, attrs), signature);
    var signer := Sequence(parts);
    OpenSignedData(idc, certs, signer);
    WrappedReads(SEQUENCE, Cat(parts));
    OneField(signer, Wrapped(SEQUENCE, Cat(parts)));
    var sha256, rsa := SignerElements(id, attrs, signature);
    AttributesFit(id, attrs, signature);
  }

  lemma RetagsAsSet(attrs: Bytes)
    ensures Wrapped(CONTEXT_0, attrs).Raw()[0 := SET] == Wrap(SET, attrs)
  {
  }

  /**
   * The digest sent to the signer is the digest of the attributes field as it stands in the
   * assembled message, retagged from [0] to SET; and the one messageDigest attribute in it holds
   * the digest of the contents octets of the indirect data.
   */
  lemma DigestCoversMessage(sha: Hash, idc: Bytes, signature: Bytes, certsDer: Bytes, cms: Bytes)
    requires Assemble(sha, idc, signature, certsDer) == Ok(cms) && |cms| < TWO_32
    ensures SignedAttributes(cms).Ok? && SignedAttributes(cms).value.Total() > 0
    ensures AuthAttrsHash(sha, idc) == Ok(sha(SignedAttributes(cms).value.Raw()[0 := SET]))
    ensures var vs := Elements(SignedAttributes(cms).value.content);
            && vs.Ok?
            && OnlyAttribute(vs.value, OidContent(MESSAGE_DIGEST), Wrap(OCTET_STRING, sha(ReadTlv(idc).value.content)))
            && OnlyAttribute(vs.value, OidContent(CONTENT_TYPE), Oid(SPC_INDIRECT_DATA))
  {
    hide SplitCerts, CertIdOf, ContentInfo, AttributeParts, SignedDataParts, SignerParts, Sequence, Sorted, Cat,
         Wrap, Elements;
    var certs := SplitCerts(certsDer).value;
    var content := ReadTlv(idc).value.content;
    var attrs := Cat(Sorted(AttributeParts(sha, content)));
    SignedAttributesOf(idc, Cat(certs), CertIdOf(certs[0]).value, attrs, signature);
    RetagsAsSet(attrs);
    AttributesAreUnique(sha, content);
  }

  /** No proper prefix, and no extension, of an input that a CMS reader accepts is accepted. */
  lemma AcceptedIsPrefixFree(p: Bytes, s: Bytes)
    requires ExtractIndirectData(p).Ok? || HasSigner(p).Ok?
    requires ExtractIndirectData(p + s).Ok? || HasSigner(p + s).Ok?
    ensures s == []
  {
    hide Elements, Encodes, IsSignedData, IndirectDataIn, IsSigner;
    var v := Parts(p, [SEQUENCE]).value[0];
    var w := Parts(p + s, [SEQUENCE]).value[0];
    assert Elements(p).value == [v] && Elements(p + s).value == [w];
    SingleElement(p, v);
    SingleElement(p + s, w);
    EncodingsArePrefixFree(p, v, s, w);
  }
}
