/** The octets of identifiers, and of everything that is the same in every assembled message (src/cms.cpp). */
module CmsOctets {
  import opened Wire
  import opened Der
  import opened DerScalars
  import opened Cms

  function SignedDataOctets(): Bytes { [0x2a, 0x86, 0x48, 0x86, 0xf7, 0x0d, 0x01, 0x07, 0x02] }
  function IndirectDataOctets(): Bytes { [0x2b, 0x06, 0x01, 0x04, 0x01, 0x82, 0x37, 0x02, 0x01, 0x04] }
  function StatementTypeOctets(): Bytes { [0x2b, 0x06, 0x01, 0x04, 0x01, 0x82, 0x37, 0x02, 0x01, 0x0b] }
  function IndividualOctets(): Bytes { [0x2b, 0x06, 0x01, 0x04, 0x01, 0x82, 0x37, 0x02, 0x01, 0x15] }
  function Sha256Octets(): Bytes { [0x60, 0x86, 0x48, 0x01, 0x65, 0x03, 0x04, 0x02, 0x01] }
  function RsaOctets(): Bytes { [0x2a, 0x86, 0x48, 0x86, 0xf7, 0x0d, 0x01, 0x01, 0x01] }
  function ContentTypeOctets(): Bytes { [0x2a, 0x86, 0x48, 0x86, 0xf7, 0x0d, 0x01, 0x09, 0x03] }
  function MessageDigestOctets(): Bytes { [0x2a, 0x86, 0x48, 0x86, 0xf7, 0x0d, 0x01, 0x09, 0x04] }

  /** Components below 128 are printed as they are. */
  lemma {:induction false} SmallArcsAre(vs: seq<nat>, bytes: Bytes)
    requires |bytes| == |vs| && forall i :: 0 <= i < |vs| ==> vs[i] == bytes[i] < 0x80
    ensures Cat(Arcs(vs)) == bytes
  {
    if vs != [] {
      SmallArcsAre(vs[1..], bytes[1..]);
      ArcsPrepend(vs[0], vs[1..]);
      assert vs == [vs[0]] + vs[1..] && bytes == [bytes[0]] + bytes[1..];
    }
  }

  lemma Rsadsi(all: seq<nat>, tail: Bytes)
    requires |tail| == 3 && tail[0] < 0x80 && tail[1] < 0x80 && tail[2] < 0x80
    requires all == [1, 2, 840, 113549, tail[0] as nat, tail[1] as nat, tail[2] as nat]
    ensures OidContent(all) == [0x2a, 0x86, 0x48, 0x86, 0xf7, 0x0d] + tail
  {
    var last: seq<nat> := [tail[0], tail[1], tail[2]];
    assert all[2..] == [840] + ([113549] + last);
    SmallArcsAre(last, tail);
    ArcsPrepend(113549, last);
    ArcsPrepend(840, [113549] + last);
    LargeArcs();
  }

  lemma Microsoft(all: seq<nat>, tail: byte)
    requires tail < 0x80 && all == [1, 3, 6, 1, 4, 1, 311, 2, 1, tail as nat]
    ensures OidContent(all) == [0x2b, 0x06, 0x01, 0x04, 0x01, 0x82, 0x37, 0x02, 0x01] + [tail]
  {
    var last: seq<nat> := [2, 1, tail];
    var rest := [311] + last;
    assert all[2..] == [6] + ([1] + ([4] + ([1] + rest)));
    SmallArcsAre(last, [2, 1, tail]);
    ArcsPrepend(311, last);
    ArcsPrepend(1, rest);
    ArcsPrepend(4, [1] + rest);
    ArcsPrepend(1, [4] + ([1] + rest));
    ArcsPrepend(6, [1] + ([4] + ([1] + rest)));
    assert Arc(311) == [0x82, 0x37];
  }

  lemma SignedDataIs()
    ensures OidContent(SIGNED_DATA) == SignedDataOctets()
  {
    Rsadsi(SIGNED_DATA, [1, 7, 2]);
  }

  lemma IndirectDataIs()
    ensures OidContent(SPC_INDIRECT_DATA) == IndirectDataOctets()
  {
    Microsoft(SPC_INDIRECT_DATA, 4);
  }

  lemma Sha256Is()
    ensures OidContent(SHA256) == Sha256Octets()
  {
    var last: seq<nat> := [1, 101, 3, 4, 2, 1];
    assert SHA256[2..] == [840] + last;
    SmallArcsAre(last, [1, 101, 3, 4, 2, 1]);
    ArcsPrepend(840, last);
    LargeArcs();
  }

  lemma OtherIdentifiers()
    ensures OidContent(SPC_STATEMENT_TYPE) == StatementTypeOctets() && OidContent(SPC_INDIVIDUAL) == IndividualOctets()
    ensures OidContent(RSA_ENCRYPTION) == RsaOctets() && OidContent(CONTENT_TYPE) == ContentTypeOctets()
    ensures OidContent(MESSAGE_DIGEST) == MessageDigestOctets()
  {
    hide OidContent;
    Microsoft(SPC_STATEMENT_TYPE, 11);
    Microsoft(SPC_INDIVIDUAL, 21);
    Rsadsi(RSA_ENCRYPTION, [1, 1, 1]);
    Rsadsi(CONTENT_TYPE, [1, 9, 3]);
    Rsadsi(MESSAGE_DIGEST, [1, 9, 4]);
  }
}
