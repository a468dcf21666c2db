/**
 * The certificate reader of src/x509.cpp against the CMS readers of src/cms.cpp, on every message
 * and not only on assembled ones.
 */
module CmsReaders {
  import opened Wire
  import opened Der
  import opened Fields
  import opened DerScalars
  import opened X509
  import opened Cms
  import opened CmsRoundTrip

  /** A field takes two octets more than its contents, so the layers around SignedData take 17. */
  lemma {:induction false} Overhead(p: Bytes, sd: Bytes)
    requires SignedDataOf(p) == Ok(sd)
    ensures |p| >= |sd| + 17
  {
    var outer := Parts(p, [SEQUENCE]).value;
    var ci := Parts(outer[0].content, [OID, CONTEXT_0]).value;
    var inner := Parts(ci[1].content, [SEQUENCE]).value;
    SignedDataOidOctets(SIGNED_DATA);
    ElementsHead(p, outer);
    ElementsHead(outer[0].content, ci);
    ElementsHead(outer[0].content[ci[0].Total()..], ci[1..]);
    ElementsHead(ci[1].content, inner);
  }

  /** No field, or one empty field that is not the certificates field. */
  predicate HoldsNoCertificates(sd: Bytes) { sd == [] || (|sd| == 2 && sd[1] == 0 && sd[0] != CONTEXT_0) }

  lemma {:induction false} ShortCertificatesField(sd: Bytes)
    requires |sd| <= 2
    ensures CertificatesField(sd) == Ok(None) <==> HoldsNoCertificates(sd)
  {
    if |sd| == 2 && sd[1] == 0 {
      assert sd[..2] == sd && sd[2..2] == [] && sd[2..] == [];
      assert ReadTlv(sd) == Ok(Tlv(sd[0], sd, []));
    }
  }

  /**
   * On a message that the CMS reader opens, the certificate reader opens the same SignedData, unless
   * the message is under 20 bytes and its SignedData is not one of the few that hold no certificates anyway.
   */
  lemma {:induction false} ReadersAgreeOnSignedData(p: Bytes, sd: Bytes)
    requires SignedDataOf(p) == Ok(sd)
    ensures CmsCertificates(p) == CertificatesField(sd) <==> |p| >= 20 || HoldsNoCertificates(sd)
  {
    hide SignedDataOf, CertificatesField;
    if |p| >= 20 {
      LongMessagesAgree(p, sd);
    } else {
      Overhead(p, sd);
      ShortCertificatesField(sd);
    }
  }

  /** Nineteen bytes: a SignedData that is nothing but an empty certificates field. */
  lemma ShortMessageDisagrees(p: Bytes)
    requires p == ContentInfo([[CONTEXT_0, 0]])
    ensures SignedDataOf(p) == Ok([CONTEXT_0, 0])
    ensures CmsCertificates(p) == Ok(None) && CertificatesField([CONTEXT_0, 0]) == Ok(Some([]))
  {
    hide SignedDataOf, ContentInfo;
    var sd: Bytes := [CONTEXT_0, 0];
    SmallMessage(sd);
    OpenContentInfo([sd]);
    assert [sd][1..] == [] && sd + [] == sd;
    assert ReadTlv(sd) == Ok(Tlv(CONTEXT_0, sd, []));
    var none: seq<Tlv> := [];
    assert Elements([]) == Ok(none) && Raws(none) == [];
  }

  lemma {:induction false} CatEmpty()
    ensures var none: seq<Bytes> := []; Cat(none) == []
  {
  }

  lemma SmallMessage(sd: Bytes)
    requires |sd| == 2
    ensures |ContentInfo([sd])| == 19
  {
    hide OidContent, Cat;
    SignedDataOidOctets(SIGNED_DATA);
    assert Cat([sd]) == sd by { CatAppend([], sd); assert [] + [sd] == [sd]; CatEmpty(); }
    assert |Sequence([sd])| == 4 && |Explicit0(Sequence([sd]))| == 6 && |Oid(SIGNED_DATA)| == 11;
    CatTwo(Oid(SIGNED_DATA), Explicit0(Sequence([sd])));
  }

  // ----- splitting any message

  lemma {:induction false} NoCertificatesField(s: Bytes, vs: seq<Tlv>)
    requires Elements(s) == Ok(vs) && forall j :: 0 <= j < |vs| ==> vs[j].tag != CONTEXT_0
    ensures CertificatesField(s) == Ok(None)
  {
    if vs != [] {
      ElementsHead(s, vs);
      NoCertificatesField(s[vs[0].Total()..], vs[1..]);
    }
  }

  lemma FieldsOfSignedData(es: seq<Tlv>)
    requires IsSignedData(es)
    ensures forall j :: 0 <= j < |es| && es[j].tag == CONTEXT_0 ==> j == 3
  {
    var head, tail := es[..3], es[3..];
    assert Tags(head)[0] == es[0].tag && Tags(head)[1] == es[1].tag && Tags(head)[2] == es[2].tag;
    forall j | 3 <= j < |es| ensures es[j].tag == Tags(tail)[j - 3] { assert tail[j - 3] == es[j]; }
  }

  lemma SignedDataIsLong(p: Bytes, es: seq<Tlv>)
    requires SignedDataFields(p) == Ok(es)
    ensures |p| >= 20
  {
    hide SignedDataOf, IsSignedDataTail;
    var sd := SignedDataOf(p).value;
    Overhead(p, sd);
    ElementsHead(sd, es);
    assert Tags(es[..3])[0] == es[0].tag;
  }

  lemma MessageIsOneField(p: Bytes)
    requires SignedDataOf(p).Ok?
    ensures RawElements(p) == Ok([p])
  {
    var outer := Parts(p, [SEQUENCE]).value;
    ElementsTile(p);
    assert outer == [outer[0]] && Raws(outer) == [outer[0].Raw()];
    assert [outer[0].Raw()][1..] == [] && outer[0].Raw() + [] == outer[0].Raw();
  }

  /**
   * What the certificate reader makes of any message that the CMS readers walk: the fields of its
   * certificates field when it has one, and otherwise the message itself as the one "certificate".
   */
  lemma SplitOfMessage(p: Bytes, es: seq<Tlv>)
    requires SignedDataFields(p) == Ok(es)
    ensures SplitCerts(p) == if es[3].tag == CONTEXT_0 then RawElements(es[3].content) else Ok([p])
  {
    hide SignedDataOf, CertificatesField, CmsCertificates, RawElements, IsSignedDataHead, IsSignedDataTail;
    var sd := SignedDataOf(p).value;
    SignedDataIsLong(p, es);
    LongMessagesAgree(p, sd);
    FieldsOfSignedData(es);
    if es[3].tag == CONTEXT_0 {
      CertificatesFieldAt(sd, es, 3);
    } else {
      NoCertificatesField(sd, es);
      MessageIsOneField(p);
    }
  }
}
