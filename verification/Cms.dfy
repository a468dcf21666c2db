/**
 * Authenticode SignedData (src/cms.cpp): the assembler, and its readers stated on lists of
 * fields. The cursors that implement the readers are in CmsCursor.
 */
module Cms {
  import opened Wire
  import opened Der
  import opened Fields
  import opened DerSet
  import opened DerScalars
  import opened X509

  type Digest = d: Bytes | |d| == 32 witness seq(32, _ => 0)

  /** SHA-256, of which only the digest length is known. */
  type Hash = Bytes -> Digest

  const SIGNED_DATA: seq<nat> := [1, 2, 840, 113549, 1, 7, 2]
  const SPC_INDIRECT_DATA: seq<nat> := [1, 3, 6, 1, 4, 1, 311, 2, 1, 4]
  const SPC_STATEMENT_TYPE: seq<nat> := [1, 3, 6, 1, 4, 1, 311, 2, 1, 11]
  const SPC_INDIVIDUAL: seq<nat> := [1, 3, 6, 1, 4, 1, 311, 2, 1, 21]
  const SHA256: seq<nat> := [2, 16, 840, 1, 101, 3, 4, 2, 1]
  const RSA_ENCRYPTION: seq<nat> := [1, 2, 840, 113549, 1, 1, 1]
  const CONTENT_TYPE: seq<nat> := [1, 2, 840, 113549, 1, 9, 3]
  const MESSAGE_DIGEST: seq<nat> := [1, 2, 840, 113549, 1, 9, 4]

  // ----- assembling

  function Algorithm(oid: seq<nat>): Bytes
    requires |oid| >= 2
  {
    Sequence([Oid(oid), Wrap(NULL, [])])
  }

  function Attribute(kind: seq<nat>, value: Bytes): Bytes
    requires |kind| >= 2
  {
    Sequence([Oid(kind), SetOf([value])])
  }

  /** The authenticated attributes for indirect data with these contents octets. */
  function AttributeParts(sha: Hash, content: Bytes): seq<Bytes>
  {
    [Attribute(CONTENT_TYPE, Oid(SPC_INDIRECT_DATA)),
     Attribute(MESSAGE_DIGEST, Wrap(OCTET_STRING, sha(content))),
     Attribute(SPC_STATEMENT_TYPE, Sequence([Oid(SPC_INDIVIDUAL)]))]
  }

  function AuthAttrs(sha: Hash, idc: Bytes): (r: Outcome<Bytes>)
    ensures r.Ok? ==> r.value != [] && r.value[0] == SET
  {
    var v :- ReadTlv(idc);
    if v.tag != SEQUENCE || v.Total() != |idc| then Throws else Ok(SetOf(AttributeParts(sha, v.content)))
  }

  function AuthAttrsHash(sha: Hash, idc: Bytes): Outcome<Digest>
  {
    var attrs :- AuthAttrs(sha, idc);
    Ok(sha(attrs))
  }

  /** Retags an encoding as constructed [0] by overwriting its first octet. */
  function Implicit0(x: Bytes): Bytes
    requires x != []
  {
    x[0 := CONTEXT_0]
  }

  function SignerParts(id: CertId, attrs: Bytes, signature: Bytes): seq<Bytes>
    requires attrs != []
  {
    [Integer(1), Sequence([id.issuer.Raw(), id.serial.Raw()]), Algorithm(SHA256), Implicit0(attrs),
     Algorithm(RSA_ENCRYPTION), Wrap(OCTET_STRING, signature)]
  }

  function EncapParts(idc: Bytes): seq<Bytes> { [Oid(SPC_INDIRECT_DATA), Explicit0(idc)] }

  function SignedDataParts(idc: Bytes, certs: Bytes, signer: Bytes): seq<Bytes>
  {
    [Integer(1), SetOf([Algorithm(SHA256)]), Sequence(EncapParts(idc)), Wrap(CONTEXT_0, certs), SetOf([signer])]
  }

  function ContentInfo(signedData: seq<Bytes>): Bytes
  {
    Sequence([Oid(SIGNED_DATA), Explicit0(Sequence(signedData))])
  }

  function Assemble(sha: Hash, idc: Bytes, signature: Bytes, certsDer: Bytes): Outcome<Bytes>
  {
    var certs :- SplitCerts(certsDer);
    if certs == [] then Throws
    else
      var id :- CertIdOf(certs[0]);
      var attrs :- AuthAttrs(sha, idc);
      Ok(ContentInfo(SignedDataParts(idc, Cat(certs), Sequence(SignerParts(id, attrs, signature)))))
  }

  // ----- reading

  function Tags(vs: seq<Tlv>): (r: seq<byte>)
    ensures |r| == |vs| && forall i :: 0 <= i < |vs| ==> r[i] == vs[i].tag
  {
    seq(|vs|, i requires 0 <= i < |vs| => vs[i].tag)
  }

  /** The fields of `s`, which must carry exactly these tags. */
  function Parts(s: Bytes, tags: seq<byte>): (r: Outcome<seq<Tlv>>)
    ensures r.Ok? ==> |r.value| == |tags|
  {
    var vs :- Elements(s);
    if Tags(vs) == tags then Ok(vs) else Throws
  }

  /** Contents octets of the SignedData inside a ContentInfo. */
  function SignedDataOf(p: Bytes): Outcome<Bytes>
  {
    var outer :- Parts(p, [SEQUENCE]);
    var ci :- Parts(outer[0].content, [OID, CONTEXT_0]);
    if ci[0].content != OidContent(SIGNED_DATA) then Throws
    else
      var sd :- Parts(ci[1].content, [SEQUENCE]);
      Ok(sd[0].content)
  }

  /** Version 1, digest algorithms, encapsulated content. */
  predicate IsSignedDataHead(es: seq<Tlv>)
  {
    |es| >= 3 && Tags(es[..3]) == [INTEGER, SET, SEQUENCE] && es[0].content == [1]
  }

  /** Optional certificates, optional CRLs, signers. */
  predicate IsSignedDataTail(es: seq<Tlv>)
  {
    Tags(es) in {[SET], [CONTEXT_0, SET], [CONTEXT_1, SET], [CONTEXT_0, CONTEXT_1, SET]}
  }

  predicate IsSignedData(es: seq<Tlv>)
  {
    |es| >= 4 && IsSignedDataHead(es) && IsSignedDataTail(es[3..])
  }

  function SignedDataFields(p: Bytes): (r: Outcome<seq<Tlv>>)
    ensures r.Ok? ==> IsSignedData(r.value)
  {
    var sd :- SignedDataOf(p);
    var es :- Elements(sd);
    if IsSignedData(es) then Ok(es) else Throws
  }

  predicate IsSha256Algorithm(s: Bytes)
  {
    var fields := Elements(s);
    && fields.Ok?
    && Tags(fields.value) in {[OID], [OID, NULL]}
    && fields.value[0].content == OidContent(SHA256)
    && (|fields.value| == 2 ==> fields.value[1].content == [])
  }

  predicate IsDigestInfo(s: Bytes)
  {
    var digest := Parts(s, [SEQUENCE, OCTET_STRING]);
    digest.Ok? && IsSha256Algorithm(digest.value[0].content) && digest.value[1].content != []
  }

  /** Contents octets of indirect data: a format-specific value, then a SHA-256 DigestInfo. */
  predicate HasSha256Shape(content: Bytes)
  {
    var data := Parts(content, [SEQUENCE, SEQUENCE]);
    data.Ok? && IsDigestInfo(data.value[1].content)
  }

  /** The indirect data held by the encapsulated content. */
  function IndirectDataIn(encap: Bytes): Outcome<Bytes>
  {
    var eci :- Parts(encap, [OID, CONTEXT_0]);
    if eci[0].content != OidContent(SPC_INDIRECT_DATA) then Throws
    else
      var idc :- Parts(eci[1].content, [SEQUENCE]);
      if HasSha256Shape(idc[0].content) then Ok(idc[0].Raw()) else Throws
  }

  function ExtractIndirectData(p: Bytes): Outcome<Bytes>
  {
    var es :- SignedDataFields(p);
    IndirectDataIn(es[2].content)
  }

  // ----- signers

  predicate IsAlgorithm(s: Bytes)
  {
    var fields := Elements(s);
    && fields.Ok? && 1 <= |fields.value| <= 2
    && fields.value[0].tag == OID && fields.value[0].content != []
  }

  predicate IsAttribute(v: Tlv)
  {
    var fields := Parts(v.content, [OID, SET]);
    && v.tag == SEQUENCE && fields.Ok? && fields.value[0].content != []
    && Elements(fields.value[1].content).Ok? && fields.value[1].content != []
  }

  predicate IsAttributes(s: Bytes)
  {
    var attrs := Elements(s);
    s != [] && attrs.Ok? && forall a :: a in attrs.value ==> IsAttribute(a)
  }

  predicate IsSid(s: Bytes)
  {
    var sid := Parts(s, [SEQUENCE, INTEGER]);
    sid.Ok? && sid.value[0].content != [] && sid.value[1].content != []
  }

  predicate AttributesAt(vs: seq<Tlv>, tag: byte)
  {
    vs != [] && vs[0].tag == tag ==> IsAttributes(vs[0].content)
  }

  function SkipTag(vs: seq<Tlv>, tag: byte): seq<Tlv>
  {
    if vs != [] && vs[0].tag == tag then vs[1..] else vs
  }

  /** Version 1, issuer and serial, digest algorithm: the fields before the attributes. */
  predicate IsSignerHead(vs: seq<Tlv>)
  {
    && |vs| >= 3 && Tags(vs[..3]) == [INTEGER, SEQUENCE, SEQUENCE]
    && vs[0].content == [1] && IsSid(vs[1].content) && IsAlgorithm(vs[2].content)
  }

  /** Signature algorithm, signature, optional unauthenticated attributes: the fields after. */
  predicate IsSignerTail(vs: seq<Tlv>)
  {
    && |vs| >= 2 && Tags(vs[..2]) == [SEQUENCE, OCTET_STRING]
    && IsAlgorithm(vs[0].content) && vs[1].content != []
    && AttributesAt(vs[2..], CONTEXT_1) && SkipTag(vs[2..], CONTEXT_1) == []
  }

  predicate IsSigner(v: Tlv)
  {
    var fields := Elements(v.content);
    && v.tag == SEQUENCE && fields.Ok? && IsSignerHead(fields.value)
    && AttributesAt(fields.value[3..], CONTEXT_0)
    && IsSignerTail(SkipTag(fields.value[3..], CONTEXT_0))
  }

  function HasSigner(p: Bytes): Outcome<bool>
  {
    var es :- SignedDataFields(p);
    var signers :- Elements(es[|es| - 1].content);
    if forall s :: s in signers ==> IsSigner(s) then Ok(signers != []) else Throws
  }
}
