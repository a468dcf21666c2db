/**
 * Authenticode messages of every shape that section 9 of RFC 2315 gives them: any number of signers, with or without
 * attributes, certificates and revocation lists, printed field by field. What the readers of
 * src/cms.cpp answer for each of them.
 */
module CmsMessage {
  import opened Wire
  import opened Der
  import opened Fields
  import opened Cms
  import opened CmsRoundTrip
  import opened CmsOctets

  // ----- trees of fields

  /** A field that reads as itself: its length octets, in whatever form, tell the size of its contents. */
  ghost predicate IsWhole(v: Tlv) { Encodes(v.Raw(), v) }

  ghost predicate AreWhole(vs: seq<Tlv>) { forall i :: 0 <= i < |vs| ==> IsWhole(vs[i]) }

  function PrintAll(vs: seq<Tlv>): Bytes { Cat(Raws(vs)) }

  function Node(tag: byte, children: seq<Tlv>): Tlv { Wrapped(tag, PrintAll(children)) }

  lemma AllRead(vs: seq<Tlv>)
    requires AreWhole(vs)
    ensures Elements(PrintAll(vs)) == Ok(vs)
  {
    hide Encodes, Elements, Cat;
    ElementsIffTiled(PrintAll(vs), vs);
  }

  lemma LeafIsWhole(tag: byte, content: Bytes)
    requires |content| < TWO_32
    ensures IsWhole(Wrapped(tag, content)) && Wrapped(tag, content).Raw() == Wrap(tag, content)
  {
    hide Encodes;
    WrapReads(tag, content);
  }

  lemma {:induction false} ChildFits(vs: seq<Tlv>, i: nat)
    requires i < |vs|
    ensures |vs[i].content| <= |vs[i].Raw()| <= |PrintAll(vs)|
  {
    CatBound(Raws(vs), i);
  }

  /** A node whose children are whole is whole, when its contents fit. */
  lemma NodeIsWhole(tag: byte, children: seq<Tlv>)
    requires |PrintAll(children)| < TWO_32
    ensures IsWhole(Node(tag, children))
  {
    LeafIsWhole(tag, PrintAll(children));
  }

  /** The empty string is what no fields print. */
  lemma NothingPrinted(vs: seq<Tlv>)
    requires AreWhole(vs)
    ensures PrintAll(vs) == [] <==> vs == []
  {
    if vs != [] {
      ChildFits(vs, 0);
      assert IsWhole(vs[0]);
      assert |vs[0].Raw()| > 0;
    }
  }

  lemma PartsAre(vs: seq<Tlv>, tags: seq<byte>)
    requires AreWhole(vs)
    ensures Parts(PrintAll(vs), tags) == if Tags(vs) == tags then Ok(vs) else Throws
  {
    hide Elements, PrintAll;
    AllRead(vs);
  }

  // ----- algorithms

  datatype AlgorithmSpec = AlgorithmSpec(oid: Bytes, parameters: Option<Tlv>)

  function AlgorithmFields(a: AlgorithmSpec): seq<Tlv>
  {
    [Wrapped(0x06, a.oid)] + if a.parameters.Some? then [a.parameters.value] else []
  }

  function AlgorithmNode(a: AlgorithmSpec): Tlv { Node(0x30, AlgorithmFields(a)) }

  ghost predicate IsProperAlgorithm(a: AlgorithmSpec) { a.parameters.Some? ==> IsWhole(a.parameters.value) }

  lemma AlgorithmReads(a: AlgorithmSpec)
    requires IsProperAlgorithm(a) && |AlgorithmNode(a).content| < TWO_32
    ensures AreWhole(AlgorithmFields(a)) && Elements(AlgorithmNode(a).content) == Ok(AlgorithmFields(a))
    ensures IsAlgorithm(AlgorithmNode(a).content) <==> a.oid != []
  {
    hide IsWhole, Elements, PrintAll;
    ChildFits(AlgorithmFields(a), 0);
    LeafIsWhole(0x06, a.oid);
    AllRead(AlgorithmFields(a));
  }

  // ----- attributes

  datatype AttributeSpec = AttributeSpec(oid: Bytes, values: seq<Tlv>)

  function AttributeFields(a: AttributeSpec): seq<Tlv> { [Wrapped(0x06, a.oid), Node(0x31, a.values)] }

  function AttributeNode(a: AttributeSpec): Tlv { Node(0x30, AttributeFields(a)) }

  predicate IsComplete(a: AttributeSpec) { a.oid != [] && a.values != [] }

  lemma AttributeReads(a: AttributeSpec)
    requires AreWhole(a.values) && |AttributeNode(a).content| < TWO_32
    ensures IsAttribute(AttributeNode(a)) <==> IsComplete(a)
  {
    hide IsWhole, Elements, PrintAll;
    var fields := AttributeFields(a);
    ChildFits(fields, 0);
    ChildFits(fields, 1);
    LeafIsWhole(0x06, a.oid);
    NodeIsWhole(0x31, a.values);
    assert Tags(fields) == [OID, SET];
    PartsAre(fields, [OID, SET]);
    AllRead(a.values);
    NothingPrinted(a.values);
  }

  function AttributeNodes(attrs: seq<AttributeSpec>): (r: seq<Tlv>)
    ensures |r| == |attrs| && forall i :: 0 <= i < |attrs| ==> r[i] == AttributeNode(attrs[i])
  {
    seq(|attrs|, i requires 0 <= i < |attrs| => AttributeNode(attrs[i]))
  }

  ghost predicate AreProper(attrs: seq<AttributeSpec>) { forall i :: 0 <= i < |attrs| ==> AreWhole(attrs[i].values) }

  predicate AreComplete(attrs: seq<AttributeSpec>)
  {
    attrs != [] && forall i :: 0 <= i < |attrs| ==> IsComplete(attrs[i])
  }

  lemma AttributesRead(attrs: seq<AttributeSpec>)
    requires AreProper(attrs) && |PrintAll(AttributeNodes(attrs))| < TWO_32
    ensures IsAttributes(PrintAll(AttributeNodes(attrs))) <==> AreComplete(attrs)
  {
    hide IsWhole, Elements, PrintAll, IsAttribute, IsComplete, AttributeNode;
    var nodes := AttributeNodes(attrs);
    forall i | 0 <= i < |attrs| ensures IsWhole(nodes[i]) && (IsAttribute(nodes[i]) <==> IsComplete(attrs[i])) {
      ChildFits(nodes, i);
      AttributeNodeReads(attrs[i]);
    }
    AllRead(nodes);
    NothingPrinted(nodes);
    if forall a :: a in nodes ==> IsAttribute(a) {
      forall i | 0 <= i < |attrs| ensures IsComplete(attrs[i]) { assert nodes[i] in nodes; }
    }
  }

  lemma AttributeNodeReads(a: AttributeSpec)
    requires AreWhole(a.values) && |AttributeNode(a).content| < TWO_32
    ensures IsWhole(AttributeNode(a)) && (IsAttribute(AttributeNode(a)) <==> IsComplete(a))
  {
    hide IsWhole, PrintAll, IsAttribute;
    NodeIsWhole(0x30, AttributeFields(a));
    AttributeReads(a);
  }

  // ----- signers

  datatype SignerSpec = SignerSpec(version: Bytes, issuer: Tlv, serial: Tlv, digest: AlgorithmSpec,
                                   signed: Option<seq<AttributeSpec>>, algorithm: AlgorithmSpec, signature: Bytes,
                                   extra: Option<seq<AttributeSpec>>)

  function AttributesField(tag: byte, attrs: Option<seq<AttributeSpec>>): seq<Tlv>
  {
    if attrs.Some? then [Node(tag, AttributeNodes(attrs.value))] else []
  }

  function HeadFields(s: SignerSpec): seq<Tlv>
  {
    [Wrapped(0x02, s.version), Node(0x30, [s.issuer, s.serial]), AlgorithmNode(s.digest)]
  }

  function TailFields(s: SignerSpec): seq<Tlv>
  {
    [AlgorithmNode(s.algorithm), Wrapped(0x04, s.signature)] + AttributesField(0xa1, s.extra)
  }

  function SignerFields(s: SignerSpec): seq<Tlv>
  {
    HeadFields(s) + (AttributesField(0xa0, s.signed) + TailFields(s))
  }

  function SignerNode(s: SignerSpec): Tlv { Node(0x30, SignerFields(s)) }

  ghost predicate IsProperSigner(s: SignerSpec)
  {
    && IsWhole(s.issuer) && IsWhole(s.serial) && IsProperAlgorithm(s.digest) && IsProperAlgorithm(s.algorithm)
    && (s.signed.Some? ==> AreProper(s.signed.value)) && (s.extra.Some? ==> AreProper(s.extra.value))
  }

  predicate IsCompleteHead(s: SignerSpec)
  {
    && s.version == [1] && s.issuer.tag == 0x30 && s.issuer.content != []
    && s.serial.tag == 0x02 && s.serial.content != [] && s.digest.oid != []
  }

  /**
   * Version 1, an issuer and a serial number, algorithms with identifiers, a signature; attributes
   * may be missing, but where there are some none is empty.
   */
  predicate IsCompleteSigner(s: SignerSpec)
  {
    && IsCompleteHead(s) && s.algorithm.oid != [] && s.signature != []
    && (s.signed.Some? ==> AreComplete(s.signed.value)) && (s.extra.Some? ==> AreComplete(s.extra.value))
  }

  lemma HeadReads(s: SignerSpec, vs: seq<Tlv>)
    requires IsProperSigner(s) && vs == HeadFields(s) && forall i :: 0 <= i < 3 ==> |vs[i].content| < TWO_32
    ensures AreWhole(vs) && (IsSignerHead(vs) <==> IsCompleteHead(s))
  {
    hide IsWhole, Elements, PrintAll, IsAlgorithm, AlgorithmNode, AlgorithmFields;
    assert |vs[0].content| < TWO_32 && |vs[1].content| < TWO_32 && |vs[2].content| < TWO_32;
    LeafIsWhole(0x02, s.version);
    NodeIsWhole(0x30, [s.issuer, s.serial]);
    AlgorithmNodeReads(s.digest);
    PartsAre([s.issuer, s.serial], [SEQUENCE, INTEGER]);
    assert vs[..3] == vs && Tags(vs) == [vs[0].tag, vs[1].tag, vs[2].tag];
    assert Tags([s.issuer, s.serial]) == [s.issuer.tag, s.serial.tag];
  }

  lemma AlgorithmNodeReads(a: AlgorithmSpec)
    requires IsProperAlgorithm(a) && |AlgorithmNode(a).content| < TWO_32
    ensures IsWhole(AlgorithmNode(a)) && AlgorithmNode(a).tag == 0x30
    ensures IsAlgorithm(AlgorithmNode(a).content) <==> a.oid != []
  {
    hide IsWhole, PrintAll, IsAlgorithm;
    NodeIsWhole(0x30, AlgorithmFields(a));
    AlgorithmReads(a);
  }

  lemma AttributesFieldReads(tag: byte, attrs: Option<seq<AttributeSpec>>)
    requires attrs.Some? ==> AreProper(attrs.value) && |AttributesField(tag, attrs)[0].content| < TWO_32
    ensures AreWhole(AttributesField(tag, attrs))
    ensures attrs.Some? ==> (IsAttributes(AttributesField(tag, attrs)[0].content) <==> AreComplete(attrs.value))
  {
    hide IsWhole, PrintAll, IsAttributes, AreComplete, AreProper;
    if attrs.Some? {
      NodeIsWhole(tag, AttributeNodes(attrs.value));
      AttributesRead(attrs.value);
    }
  }

  lemma TailReads(s: SignerSpec, vs: seq<Tlv>)
    requires IsProperSigner(s) && vs == TailFields(s) && forall i :: 0 <= i < |vs| ==> |vs[i].content| < TWO_32
    ensures AreWhole(vs)
    ensures IsSignerTail(vs) <==>
            s.algorithm.oid != [] && s.signature != [] && (s.extra.Some? ==> AreComplete(s.extra.value))
  {
    hide IsWhole, PrintAll, IsAlgorithm, AlgorithmNode, IsAttributes, AreComplete, AreProper, AttributesField;
    var rest := AttributesField(0xa1, s.extra);
    OptionalIs(0xa1, s.extra);
    assert |vs[0].content| < TWO_32 && |vs[1].content| < TWO_32;
    AlgorithmNodeReads(s.algorithm);
    LeafIsWhole(0x04, s.signature);
    assert vs[2..] == rest;
    if s.extra.Some? { assert vs[2] == rest[0]; }
    AttributesFieldReads(0xa1, s.extra);
    assert vs[..2] == [vs[0], vs[1]] && Tags(vs[..2]) == [vs[0].tag, vs[1].tag];
    forall i | 0 <= i < |vs| ensures IsWhole(vs[i]) { if i >= 2 { assert vs[i] == rest[i - 2]; } }
  }

  lemma OptionalIs(tag: byte, attrs: Option<seq<AttributeSpec>>)
    ensures |AttributesField(tag, attrs)| == if attrs.Some? then 1 else 0
    ensures attrs.Some? ==> AttributesField(tag, attrs)[0].tag == tag
  {
  }

  lemma AreWholeCat(a: seq<Tlv>, b: seq<Tlv>)
    requires AreWhole(a) && AreWhole(b)
    ensures AreWhole(a + b)
  {
    hide IsWhole;
  }

  /** A signer is accepted exactly when it is complete, whatever attributes it has. */
  lemma SignerReads(s: SignerSpec)
    requires IsProperSigner(s) && |SignerNode(s).content| < TWO_32
    ensures IsWhole(SignerNode(s)) && (IsSigner(SignerNode(s)) <==> IsCompleteSigner(s))
  {
    hide IsWhole, PrintAll, Elements, IsSignerHead, IsSignerTail, IsCompleteHead, AreComplete, AreProper, HeadFields,
         TailFields, AttributesField, IsAttributes, IsProperAlgorithm;
    var vs := SignerFields(s);
    var head, middle, tail := HeadFields(s), AttributesField(0xa0, s.signed), TailFields(s);
    HeadIsThree(s);
    OptionalIs(0xa0, s.signed);
    forall i | 0 <= i < |vs| ensures |vs[i].content| < TWO_32 { ChildFits(vs, i); }
    forall i | 0 <= i < |head| ensures head[i] == vs[i] { }
    forall i | 0 <= i < |middle| ensures middle[i] == vs[3 + i] { }
    forall i | 0 <= i < |tail| ensures tail[i] == vs[3 + |middle| + i] { }
    HeadReads(s, head);
    AttributesFieldReads(0xa0, s.signed);
    TailReads(s, tail);
    AreWholeCat(middle, tail);
    AreWholeCat(head, middle + tail);
    AllRead(vs);
    NodeIsWhole(0x30, vs);
    SignerHeadOf(head, middle + tail);
    assert vs[3..] == middle + tail;
    if s.signed.Some? {
      assert (middle + tail)[0] == middle[0] && (middle + tail)[1..] == tail;
    } else {
      assert middle + tail == tail && tail[0].tag == 0x30 by { TailStart(s); }
    }
  }

  lemma HeadIsThree(s: SignerSpec)
    ensures |HeadFields(s)| == 3
  {
  }

  lemma TailStart(s: SignerSpec)
    ensures TailFields(s) != [] && TailFields(s)[0].tag == 0x30
  {
  }

  lemma SignerHeadOf(head: seq<Tlv>, rest: seq<Tlv>)
    requires |head| == 3
    ensures IsSignerHead(head + rest) <==> IsSignerHead(head)
  {
    assert (head + rest)[..3] == head && head[..3] == head;
  }

  // ----- the whole message

  /** The indirect data: a value of the file format's own, and the digest with its algorithm. */
  datatype IndirectSpec = IndirectSpec(data: Tlv, algorithm: AlgorithmSpec, digest: Bytes)

  datatype MessageSpec = MessageSpec(version: Bytes, digests: Bytes, kind: Bytes, indirect: IndirectSpec,
                                     certificates: Option<Bytes>, lists: Option<Bytes>, signers: seq<SignerSpec>)

  function DigestFields(d: IndirectSpec): seq<Tlv> { [AlgorithmNode(d.algorithm), Wrapped(0x04, d.digest)] }
  function IndirectFields(d: IndirectSpec): seq<Tlv> { [d.data, Node(0x30, DigestFields(d))] }
  function IndirectNode(d: IndirectSpec): Tlv { Node(0x30, IndirectFields(d)) }

  function EncapFields(m: MessageSpec): seq<Tlv> { [Wrapped(0x06, m.kind), Node(0xa0, [IndirectNode(m.indirect)])] }

  function SignerNodes(ss: seq<SignerSpec>): (r: seq<Tlv>)
    ensures |r| == |ss| && forall i :: 0 <= i < |ss| ==> r[i] == SignerNode(ss[i])
  {
    seq(|ss|, i requires 0 <= i < |ss| => SignerNode(ss[i]))
  }

  function OptionalField(tag: byte, content: Option<Bytes>): seq<Tlv>
  {
    if content.Some? then [Wrapped(tag, content.value)] else []
  }

  function FirstFields(m: MessageSpec): seq<Tlv>
  {
    [Wrapped(0x02, m.version), Wrapped(0x31, m.digests), Node(0x30, EncapFields(m))]
  }

  function LastFields(m: MessageSpec): seq<Tlv>
  {
    OptionalField(0xa0, m.certificates) + OptionalField(0xa1, m.lists) + [Node(0x31, SignerNodes(m.signers))]
  }

  function SignedDataNode(m: MessageSpec): Tlv { Node(0x30, FirstFields(m) + LastFields(m)) }

  function InfoFields(m: MessageSpec): seq<Tlv>
  {
    [Wrapped(0x06, SignedDataOctets()), Node(0xa0, [SignedDataNode(m)])]
  }

  function PrintMessage(m: MessageSpec): Bytes { Node(0x30, InfoFields(m)).Raw() }

  ghost predicate IsProperMessage(m: MessageSpec)
  {
    && IsWhole(m.indirect.data) && IsProperAlgorithm(m.indirect.algorithm)
    && (forall i :: 0 <= i < |m.signers| ==> IsProperSigner(m.signers[i]))
    && |PrintMessage(m)| < TWO_32
  }

  lemma OnlyChild(v: Tlv)
    ensures PrintAll([v]) == v.Raw()
  {
    var none: seq<Bytes> := [];
    assert Raws([v]) == [v.Raw()] && [v.Raw()][1..] == none && v.Raw() + Cat(none) == v.Raw();
  }

  /** Inside a message everything fits. */
  lemma MessageFits(m: MessageSpec)
    requires |PrintMessage(m)| < TWO_32
    ensures |PrintAll(InfoFields(m))| < TWO_32 && |PrintAll([SignedDataNode(m)])| < TWO_32
    ensures |SignedDataNode(m).content| < TWO_32
    ensures var vs := FirstFields(m) + LastFields(m); forall i :: 0 <= i < |vs| ==> |vs[i].content| < TWO_32
  {
    hide PrintAll, FirstFields, LastFields;
    ChildFits(InfoFields(m), 1);
    OnlyChild(SignedDataNode(m));
    var vs := FirstFields(m) + LastFields(m);
    forall i | 0 <= i < |vs| ensures |vs[i].content| < TWO_32 { ChildFits(vs, i); }
  }

  lemma MessageOpens(m: MessageSpec)
    requires |PrintMessage(m)| < TWO_32
    ensures SignedDataOf(PrintMessage(m)) == Ok(SignedDataNode(m).content)
  {
    hide PrintAll, Elements, IsWhole, FirstFields, LastFields, Tags;
    MessageFits(m);
    var info, sd := InfoFields(m), SignedDataNode(m);
    NodeIsWhole(0x30, info);
    LeafIsWhole(0x06, SignedDataOctets());
    NodeIsWhole(0xa0, [sd]);
    NodeIsWhole(0x30, FirstFields(m) + LastFields(m));
    OnlyChild(Node(0x30, info));
    OneTag(Node(0x30, info));
    OneTag(sd);
    TwoTags(info);
    PartsAre([Node(0x30, info)], [SEQUENCE]);
    PartsAre(info, [OID, CONTEXT_0]);
    PartsAre([sd], [SEQUENCE]);
    SignedDataIs();
  }

  lemma OneTag(v: Tlv)
    ensures Tags([v]) == [v.tag]
  {
  }

  lemma TwoTags(vs: seq<Tlv>)
    requires |vs| == 2
    ensures Tags(vs) == [vs[0].tag, vs[1].tag]
  {
  }

  lemma FirstReads(m: MessageSpec, vs: seq<Tlv>)
    requires vs == FirstFields(m) && forall i :: 0 <= i < 3 ==> |vs[i].content| < TWO_32
    ensures AreWhole(vs) && (IsSignedDataHead(vs) <==> m.version == [1])
  {
    hide IsWhole, PrintAll, EncapFields;
    assert |vs[0].content| < TWO_32 && |vs[1].content| < TWO_32 && |vs[2].content| < TWO_32;
    LeafIsWhole(0x02, m.version);
    LeafIsWhole(0x31, m.digests);
    NodeIsWhole(0x30, EncapFields(m));
    assert vs[..3] == vs && Tags(vs) == [vs[0].tag, vs[1].tag, vs[2].tag];
  }

  lemma LastReads(m: MessageSpec, vs: seq<Tlv>)
    requires vs == LastFields(m) && forall i :: 0 <= i < |vs| ==> |vs[i].content| < TWO_32
    ensures AreWhole(vs) && IsSignedDataTail(vs) && vs != [] && vs[|vs| - 1] == Node(0x31, SignerNodes(m.signers))
  {
    hide IsWhole, PrintAll, SignerNodes;
    var c, l := OptionalField(0xa0, m.certificates), OptionalField(0xa1, m.lists);
    var s := Node(0x31, SignerNodes(m.signers));
    if m.certificates.Some? { assert vs[0] == c[0]; LeafIsWhole(0xa0, m.certificates.value); }
    if m.lists.Some? { assert vs[|c|] == l[0]; LeafIsWhole(0xa1, m.lists.value); }
    assert vs[|vs| - 1] == s;
    NodeIsWhole(0x31, SignerNodes(m.signers));
    if m.certificates.Some? && m.lists.Some? {
      assert Tags(vs) == [CONTEXT_0, CONTEXT_1, SET];
    } else if m.certificates.Some? {
      assert Tags(vs) == [CONTEXT_0, SET];
    } else if m.lists.Some? {
      assert Tags(vs) == [CONTEXT_1, SET];
    } else {
      assert Tags(vs) == [SET];
    }
  }

  /** The fields of the message read back, whichever of the optional ones it has. */
  lemma MessageReads(m: MessageSpec)
    requires |PrintMessage(m)| < TWO_32
    ensures SignedDataFields(PrintMessage(m)) == if m.version == [1] then Ok(FirstFields(m) + LastFields(m)) else Throws
    ensures |FirstFields(m)| == 3 && |LastFields(m)| >= 1
    ensures LastFields(m)[|LastFields(m)| - 1] == Node(0x31, SignerNodes(m.signers))
  {
    hide IsWhole, PrintAll, Elements, IsSignedDataHead, IsSignedDataTail, LastFields, SignedDataOf, PrintMessage,
         SignerNodes;
    var first, last := FirstFields(m), LastFields(m);
    MessageFits(m);
    MessageOpens(m);
    forall i | 0 <= i < |first| ensures first[i] == (first + last)[i] { }
    forall i | 0 <= i < |last| ensures last[i] == (first + last)[3 + i] { }
    FirstReads(m, first);
    LastReads(m, last);
    AreWholeCat(first, last);
    AllRead(first + last);
    SignedDataHeadOf(first, last);
    assert (first + last)[3..] == last;
  }

  lemma SignedDataHeadOf(first: seq<Tlv>, rest: seq<Tlv>)
    requires |first| == 3
    ensures IsSignedDataHead(first + rest) <==> IsSignedDataHead(first)
  {
    assert (first + rest)[..3] == first && first[..3] == first;
  }

  /**
   * `cms_has_signer` on every message: it answers whether there is a signer, when the version is 1 and every
   * signer is complete, and throws otherwise. Timestamps and other unauthenticated attributes, revocation
   * lists, missing certificates and further signers make no difference.
   */
  lemma HasSignerReads(m: MessageSpec)
    requires IsProperMessage(m)
    ensures HasSigner(PrintMessage(m)) ==
            if m.version == [1] && forall i :: 0 <= i < |m.signers| ==> IsCompleteSigner(m.signers[i])
            then Ok(m.signers != []) else Throws
  {
    hide IsWhole, PrintAll, Elements, SignedDataFields, PrintMessage, SignerNode, IsSigner, IsCompleteSigner,
         IsProperSigner, FirstFields, LastFields;
    MessageReads(m);
    MessageFits(m);
    var nodes := SignerNodes(m.signers);
    var all := FirstFields(m) + LastFields(m);
    assert all[|all| - 1] == Node(0x31, nodes);
    forall i | 0 <= i < |nodes| ensures IsWhole(nodes[i]) && (IsSigner(nodes[i]) <==> IsCompleteSigner(m.signers[i])) {
      ChildFits(nodes, i);
      SignerReads(m.signers[i]);
    }
    AllRead(nodes);
    if forall v :: v in nodes ==> IsSigner(v) {
      forall i | 0 <= i < |m.signers| ensures IsCompleteSigner(m.signers[i]) { assert nodes[i] in nodes; }
    }
  }

  // ----- the indirect data

  /** A digest under the SHA-256 identifier, its parameters missing or NULL, beside a SEQUENCE. */
  predicate IsSha256Indirect(d: IndirectSpec)
  {
    && d.data.tag == 0x30 && d.digest != [] && d.algorithm.oid == Sha256Octets()
    && (d.algorithm.parameters.Some? ==>
          d.algorithm.parameters.value.tag == 0x05 && d.algorithm.parameters.value.content == [])
  }

  lemma Sha256Reads(a: AlgorithmSpec)
    requires IsProperAlgorithm(a) && |AlgorithmNode(a).content| < TWO_32
    ensures IsSha256Algorithm(AlgorithmNode(a).content) <==>
            && a.oid == Sha256Octets()
            && (a.parameters.Some? ==> a.parameters.value.tag == 0x05 && a.parameters.value.content == [])
  {
    hide IsWhole, PrintAll, Elements;
    var vs := AlgorithmFields(a);
    AlgorithmReads(a);
    Sha256Is();
    if a.parameters.Some? { assert Tags(vs) == [OID, a.parameters.value.tag]; } else { assert Tags(vs) == [OID]; }
  }

  lemma IndirectReads(d: IndirectSpec)
    requires IsWhole(d.data) && IsProperAlgorithm(d.algorithm) && |IndirectNode(d).content| < TWO_32
    ensures IsWhole(IndirectNode(d)) && (HasSha256Shape(IndirectNode(d).content) <==> IsSha256Indirect(d))
  {
    hide IsWhole, PrintAll, Elements, AlgorithmNode, IsSha256Algorithm, Tags;
    var fields, digest := IndirectFields(d), DigestFields(d);
    ChildFits(fields, 1);
    ChildFits(digest, 0);
    ChildFits(digest, 1);
    NodeIsWhole(0x30, fields);
    NodeIsWhole(0x30, digest);
    AlgorithmNodeReads(d.algorithm);
    LeafIsWhole(0x04, d.digest);
    TwoTags(fields);
    TwoTags(digest);
    PartsAre(fields, [SEQUENCE, SEQUENCE]);
    PartsAre(digest, [SEQUENCE, OCTET_STRING]);
    Sha256Reads(d.algorithm);
  }

  lemma EncapReads(m: MessageSpec)
    requires IsWhole(m.indirect.data) && IsProperAlgorithm(m.indirect.algorithm) && |PrintAll(EncapFields(m))| < TWO_32
    ensures IndirectDataIn(PrintAll(EncapFields(m))) ==
            if m.kind == IndirectDataOctets() && IsSha256Indirect(m.indirect) then Ok(IndirectNode(m.indirect).Raw())
            else Throws
  {
    hide IsWhole, PrintAll, Elements, IndirectNode, HasSha256Shape, Tags, IsSha256Indirect, IsProperAlgorithm;
    var fields, node := EncapFields(m), IndirectNode(m.indirect);
    ChildFits(fields, 0);
    ChildFits(fields, 1);
    ChildFits([node], 0);
    LeafIsWhole(0x06, m.kind);
    NodeIsWhole(0xa0, [node]);
    IndirectReads(m.indirect);
    IndirectTag(m.indirect);
    TwoTags(fields);
    OneTag(node);
    PartsAre(fields, [OID, CONTEXT_0]);
    PartsAre([node], [SEQUENCE]);
    IndirectDataIs();
  }

  lemma IndirectTag(d: IndirectSpec)
    ensures IndirectNode(d).tag == SEQUENCE
  {
  }

  /**
   * `cms_extract_indirect_data` on every message: the bytes of the indirect data, when the version is 1, the
   * content is of that kind and its digest is a SHA-256 digest; otherwise it throws.
   */
  lemma ExtractReads(m: MessageSpec)
    requires IsProperMessage(m)
    ensures ExtractIndirectData(PrintMessage(m)) ==
            if m.version == [1] && m.kind == IndirectDataOctets() && IsSha256Indirect(m.indirect)
            then Ok(IndirectNode(m.indirect).Raw()) else Throws
  {
    hide IsWhole, PrintAll, Elements, SignedDataFields, PrintMessage, LastFields, IndirectDataIn, IsSha256Indirect,
         IndirectNode, EncapFields, IsProperSigner, IsProperAlgorithm;
    MessageReads(m);
    MessageFits(m);
    var all := FirstFields(m) + LastFields(m);
    assert all[2] == Node(0x30, EncapFields(m));
    EncapReads(m);
  }

  /**
   * A message to which a timestamp is added: with one more unauthenticated attribute of its signer it still has
   * a signer and the same indirect data.
   */
  lemma TimestampMakesNoDifference(m: MessageSpec, s: SignerSpec, stamp: AttributeSpec)
    requires m.signers == [s] && s.extra == None && IsComplete(stamp) && AreWhole(stamp.values)
    requires var stamped := m.(signers := [s.(extra := Some([stamp]))]);
             IsProperMessage(m) && IsProperMessage(stamped)
    ensures var stamped := m.(signers := [s.(extra := Some([stamp]))]);
            && HasSigner(PrintMessage(stamped)) == HasSigner(PrintMessage(m))
            && ExtractIndirectData(PrintMessage(stamped)) == ExtractIndirectData(PrintMessage(m))
  {
    hide IsWhole, PrintMessage, HasSigner, ExtractIndirectData, IsSha256Indirect, IndirectNode, IsProperMessage,
         IsComplete;
    var stamped := m.(signers := [s.(extra := Some([stamp]))]);
    HasSignerReads(m);
    HasSignerReads(stamped);
    ExtractReads(m);
    ExtractReads(stamped);
    assert IsCompleteSigner(stamped.signers[0]) <==> IsCompleteSigner(m.signers[0]);
  }
}
