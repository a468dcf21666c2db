/**
 * A companion that does what it is for: it finds, removes, attaches and timestamps messages in files of some
 * format, and computes the indirect data of their unsigned part. What a signing with it comes to.
 */
module Companion {
  import opened Wire
  import opened Der
  import opened Fields
  import opened X509
  import opened Cms
  import opened CmsRoundTrip
  import opened Staging
  import opened Transcripts
  import opened StagedSigning

  /** Unsigned files, what attaching a message makes of them, their indirect data, and a message with a timestamp. */
  datatype Format = Format(plain: Bytes -> bool, attach: (Bytes, Bytes) -> FileBytes, data: (bool, Bytes) -> Bytes,
                           stamp: Bytes -> Bytes)

  /** A timestamp changes neither the signer nor what is signed. */
  ghost predicate Harmless(f: Format)
  {
    forall c :: HasSigner(f.stamp(c)) == HasSigner(c) && ExtractIndirectData(f.stamp(c)) == ExtractIndirectData(c)
  }

  /** Run on `file`, the companion finds `c` in it, and takes it out, or puts a timestamp on it. */
  ghost predicate ReadsSigned(f: Format, world: World, turn: nat, dse: bool, u: Bytes, c: Bytes)
  {
    var file := Some(f.attach(u, c));
    var found, bare := world.companion(turn, ExtractSignature, file), world.companion(turn, RemoveSignature, file);
    var stamped := world.companion(turn, AddTimestamp(dse), file);
    && Succeeded(found) && found.output == Some(c)
    && Succeeded(bare) && bare.output == Some(u)
    && Succeeded(stamped) && stamped.output == Some(f.attach(u, f.stamp(c)))
    && Computes(f, world.companion(turn, ExtractData(dse), file), dse, u)
  }

  /** The reply is a message around the indirect data of `u`. */
  ghost predicate Computes(f: Format, r: Reply, dse: bool, u: Bytes)
  {
    IsBlob(r) && ExtractIndirectData(Blob(r)) == Ok(f.data(dse, u))
  }

  ghost predicate ReadsPlain(f: Format, world: World, turn: nat, kind: Kind, dse: bool, u: Bytes)
  {
    var probe := world.companion(turn, ExtractSignature, Some(u));
    && probe.Exited? && probe.code != 0 && SaysMissing(probe.text, kind)
    && Computes(f, world.companion(turn, ExtractData(dse), Some(u)), dse, u)
  }

  ghost predicate Attaches(f: Format, world: World, turn: nat, dse: bool, u: Bytes, c: Bytes)
  {
    var r := world.companion(turn, AttachSignature(dse, c), Some(u));
    Succeeded(r) && r.output == Some(f.attach(u, c))
  }

  /** At every turn the companion does this for every unsigned file and every message below 2^32 bytes. */
  ghost predicate IsHonest(f: Format, world: World, kind: Kind)
  {
    && Harmless(f)
    && (forall turn, dse, u :: f.plain(u) ==> ReadsPlain(f, world, turn, kind, dse, u))
    && (forall turn, dse, u, c :: f.plain(u) && |c| < TWO_32 ==> Attaches(f, world, turn, dse, u, c))
    && (forall turn, dse, u, c :: f.plain(u) && |c| < TWO_32 ==> ReadsSigned(f, world, turn, dse, u, c))
  }

  /** One file to be signed: its unsigned part and the message it carries, if any. */
  datatype Task = Task(format: Format, kind: Kind, dse: bool, timestamp: bool, sha: Hash, plain: Bytes,
                       present: Option<Bytes>)
  {
    function Was(): Bytes { if present.Some? then format.attach(plain, present.value) else plain }

    function Data(): Bytes { format.data(dse, plain) }

    /** A message already in the file must be one that the probe accepts. */
    ghost predicate IsSignable()
    {
      && format.plain(plain)
      && (present.Some? ==> |present.value| <= 16 * 1024 * 1024 && HasSigner(present.value) == Ok(true))
    }

    /** The turn at which the indirect data is computed; the signer is asked at the next. */
    function Turn(from: nat): nat { from + if present.Some? then 2 else 1 }

    /** What the signer is asked, and answers. */
    function Answer(world: World, from: nat): Outcome<(Bytes, Bytes)>
    {
      var digest :- AuthAttrsHash(sha, Data());
      world.signer(Turn(from) + 1, digest)
    }

    function Made(world: World, from: nat): Outcome<Bytes>
    {
      var answer :- Answer(world, from);
      Assemble(sha, Data(), answer.0, answer.1)
    }

    function Final(c: Bytes): Bytes { if timestamp then format.stamp(c) else c }

    function Now(c: Bytes): FileBytes { format.attach(plain, Final(c)) }
  }

  /** Messages of 2^32 bytes and more are not considered: see `Der.ReadUndoesWrap`. */
  ghost predicate IsShort(t: Task, made: Outcome<Bytes>)
  {
    made.Ok? ==> |made.value| < TWO_32 && |t.Final(made.value)| < TWO_32
  }

  /**
   * The signer answers with a signature and certificates, the first of which names an issuer and a
   * serial number, and the message made of them is at most 16 MiB long.
   */
  predicate Qualifies(t: Task, answer: Outcome<(Bytes, Bytes)>, made: Outcome<Bytes>)
  {
    && answer.Ok? && made.Ok? && |t.Final(made.value)| <= 16 * 1024 * 1024
    && var certs := SplitCerts(answer.value.1);
       && certs.Ok? && certs.value != [] && CertIdOf(certs.value[0]).Ok?
       && NamesSigner(CertIdOf(certs.value[0]).value, answer.value.0)
  }

  // ----- the run

  /** The answers of the world to a signing that starts at turn `from`. */
  function Answers(t: Task, world: World, from: nat, c: Bytes): Evidence
  {
    var k := t.Turn(from);
    var after := if t.timestamp then k + 4 else k + 3;
    Evidence(world.companion(from, ExtractSignature, Some(t.Was())),
             world.companion(from + 1, RemoveSignature, Some(t.Was())),
             world.companion(k, ExtractData(t.dse), Some(t.plain)),
             t.Answer(world, from),
             world.companion(k + 2, AttachSignature(t.dse, c), Some(t.plain)),
             world.companion(k + 3, AddTimestamp(t.dse), Some(t.format.attach(t.plain, c))),
             world.companion(after, ExtractSignature, Some(t.Now(c))),
             world.companion(after + 1, ExtractData(t.dse), Some(t.Now(c))))
  }

  lemma {:induction false} IndirectDataIsWhole(p: Bytes, d: Bytes, sha: Hash)
    requires ExtractIndirectData(p) == Ok(d)
    ensures AuthAttrs(sha, d).Ok? && ReadTlv(d).Ok? && HasSha256Shape(ReadTlv(d).value.content)
  {
    hide SignedDataFields, HasSha256Shape, AttributeParts;
    var es := SignedDataFields(p).value;
    var eci := Parts(es[2].content, [OID, CONTEXT_0]).value;
    var idc := Parts(eci[1].content, [SEQUENCE]).value;
    ElementsIffTiled(eci[1].content, idc);
    assert Tags(idc)[0] == SEQUENCE;
    assert Encodes(d, idc[0]);
  }

  ghost predicate IsOpened(t: Task, e: Evidence)
  {
    && ProbeOk(e.probe, t.kind) && (Succeeded(e.probe) <==> t.present.Some?)
    && (t.present.Some? ==> Succeeded(e.removal)) && Source(e, t.Was()) == Some(t.plain)
    && Transcripts.Data(e) == Ok(t.Data())
  }

  /** The companion opens the file: the old message goes, and the indirect data is that of the unsigned part. */
  lemma Opens(t: Task, world: World, from: nat, c: Bytes)
    requires IsHonest(t.format, world, t.kind) && t.IsSignable()
    ensures IsOpened(t, Answers(t, world, from, c))
  {
    hide HasSigner, ExtractIndirectData, SaysMissing, Attaches, Harmless;
    var k := t.Turn(from);
    assert ReadsPlain(t.format, world, from, t.kind, t.dse, t.plain);
    assert ReadsPlain(t.format, world, k, t.kind, t.dse, t.plain);
    if t.present.Some? {
      assert ReadsSigned(t.format, world, from, t.dse, t.plain, t.present.value);
      assert ReadsSigned(t.format, world, from + 1, t.dse, t.plain, t.present.value);
    }
  }

  lemma Served(t: Task, world: World, turn: nat, c: Bytes)
    requires IsHonest(t.format, world, t.kind) && t.format.plain(t.plain) && |c| < TWO_32
    ensures Attaches(t.format, world, turn, t.dse, t.plain, c) && ReadsSigned(t.format, world, turn, t.dse, t.plain, c)
  {
    hide Attaches, ReadsSigned, Harmless, ReadsPlain;
  }

  /** The companion puts the message in, stamped if asked to, and finds it again. */
  lemma Closes(t: Task, world: World, from: nat, c: Bytes)
    requires IsHonest(t.format, world, t.kind) && t.IsSignable() && IsShort(t, Ok(c))
    ensures var e := Answers(t, world, from, c);
            && Succeeded(e.attachment) && e.attachment.output == Some(t.format.attach(t.plain, c))
            && (t.timestamp ==> Succeeded(e.stamp)) && Finished(e, t.timestamp) == Some(t.Now(c))
            && Succeeded(e.final) && e.final.output == Some(t.Final(c))
            && Computes(t.format, e.recheck, t.dse, t.plain)
  {
    hide HasSigner, Computes, IsHonest;
    var k := t.Turn(from);
    var after := if t.timestamp then k + 4 else k + 3;
    Served(t, world, k + 2, c);
    Served(t, world, k + 3, c);
    Served(t, world, after, t.Final(c));
    Served(t, world, after + 1, t.Final(c));
  }

  /** The readers' answers for the message found, in terms of what the signer said. */
  lemma FinalReads(t: Task, answer: Outcome<(Bytes, Bytes)>, c: Bytes)
    requires Harmless(t.format) && answer.Ok? && IsShort(t, Ok(c))
    requires Assemble(t.sha, t.Data(), answer.value.0, answer.value.1) == Ok(c)
    requires HasSha256Shape(ReadTlv(t.Data()).value.content)
    ensures ExtractIndirectData(t.Final(c)) == Ok(t.Data())
    ensures |t.Final(c)| <= 16 * 1024 * 1024 ==> (HasSigner(t.Final(c)) == Ok(true) <==> Qualifies(t, answer, Ok(c)))
  {
    hide SplitCerts, CertIdOf, AuthAttrs, HasSigner, ExtractIndirectData, NamesSigner, ContentInfo, HasSha256Shape;
    ExtractUndoesAssemble(t.sha, t.Data(), answer.value.0, answer.value.1, c);
    HasSignerOfAssembled(t.sha, t.Data(), answer.value.0, answer.value.1, c);
  }

  lemma IsHarmless(f: Format, world: World, kind: Kind)
    requires IsHonest(f, world, kind)
    ensures Harmless(f)
  {
  }

  /** What the answers come to: good throughout exactly when the signer's answer qualifies. */
  lemma Decided(t: Task, world: World, from: nat, c: Bytes)
    requires IsHonest(t.format, world, t.kind) && t.IsSignable() && t.Made(world, from) == Ok(c) && IsShort(t, Ok(c))
    ensures var e := Answers(t, world, from, c);
            && IsOpened(t, e) && MadeOk(e, t.kind, t.sha) && Message(e, t.sha) == Ok(c)
            && (AllOk(e, t.kind, t.timestamp, t.sha, t.Now(c)) <==> Qualifies(t, t.Answer(world, from), Ok(c)))
  {
    hide HasSigner, ExtractIndirectData, ReadsPlain, ReadsSigned, Attaches, SaysMissing, Assemble, SplitCerts, CertIdOf,
         NamesSigner, ProbeOk, AuthAttrs, Source, IsHonest;
    IsHarmless(t.format, world, t.kind);
    var e := Answers(t, world, from, c);
    Opens(t, world, from, c);
    Closes(t, world, from, c);
    IndirectDataIsWhole(Blob(e.extraction), t.Data(), t.sha);
    FinalReads(t, e.answer, c);
  }

  /** They are the world's own, turn by turn. */
  lemma AnswersAreGiven(t: Task, world: World, from: nat, c: Bytes)
    requires IsHonest(t.format, world, t.kind) && t.IsSignable() && t.Made(world, from) == Ok(c) && IsShort(t, Ok(c))
    ensures var e := Answers(t, world, from, c);
            && DigestOf(e, t.sha).Ok? && Message(e, t.sha) == Ok(c)
            && Answered(world, from, Checking(e, t.Was(), t.dse, t.timestamp, t.sha))
  {
    hide HasSigner, ExtractIndirectData, ReadsPlain, ReadsSigned, Attaches, SaysMissing, Assemble, AuthAttrs, AllOk,
         ProbeOk, IsHonest, Computes, Message, IsBlob;
    Decided(t, world, from, c);
    Closes(t, world, from, c);
  }

  /** As far as the signer's answer, whether or not a message can be made of it. */
  lemma AsksAreGiven(t: Task, world: World, from: nat)
    requires IsHonest(t.format, world, t.kind) && t.IsSignable() && IsShort(t, t.Made(world, from))
    ensures var e := Answers(t, world, from, []);
            && DigestOf(e, t.sha).Ok? && Message(e, t.sha) == t.Made(world, from)
            && Answered(world, from, Asking(e, t.Was(), t.dse, t.sha))
  {
    hide HasSigner, ExtractIndirectData, Assemble, AuthAttrs, ProbeOk, IsHonest, Message, DigestOf, Task.Made, IsShort;
    AsksForMessage(t, world, from);
  }

  lemma AsksForMessage(t: Task, world: World, from: nat)
    requires IsHonest(t.format, world, t.kind) && t.IsSignable() && IsShort(t, t.Made(world, from))
    ensures var e := Answers(t, world, from, []);
            && IsOpened(t, e) && DigestOf(e, t.sha) == AuthAttrsHash(t.sha, t.Data()) && DigestOf(e, t.sha).Ok?
            && Message(e, t.sha) == t.Made(world, from)
  {
    hide HasSigner, ExtractIndirectData, Assemble, AuthAttrs, ProbeOk, IsHonest, Source;
    Opens(t, world, from, []);
    var e := Answers(t, world, from, []);
    IndirectDataIsWhole(Blob(e.extraction), t.Data(), t.sha);
  }

  lemma SuffixIsAnswered(world: World, log: seq<Event>, from: nat, events: seq<Event>)
    requires Genuine(world, log) && from <= |log| && events <= log[from..]
    ensures Answered(world, from, events)
  {
    hide AnswersAt;
    forall i | 0 <= i < |events| ensures AnswersAt(world, from + i, events[i]) {
      assert events[i] == log[from..][i] == log[from + i];
    }
  }

  /** A signing whose signer's answer qualifies is not refused. */
  lemma QualifiedIsNotRefused(t: Task, world: World, from: nat, log: seq<Event>, d: Evidence)
    requires IsHonest(t.format, world, t.kind) && t.IsSignable() && IsShort(t, t.Made(world, from))
    requires Qualifies(t, t.Answer(world, from), t.Made(world, from)) && Genuine(world, log) && from <= |log|
    ensures !Refused(d, log[from..], t.kind, t.dse, t.timestamp, t.sha, t.Was())
  {
    hide IsHonest, Genuine, Refused, AllOk, MadeOk, Message, DigestOf, Checking, Answered, Answers, IsOpened,
         Task.Answer, Task.Made, Task.IsSignable;
    var c := t.Made(world, from).value;
    Decided(t, world, from, c);
    AnswersAreGiven(t, world, from, c);
    SuffixIsAnswered(world, log, from, log[from..]);
    RefusedIsNotOk(world, from, Answers(t, world, from, c), d, log[from..], t.kind, t.dse, t.timestamp, t.sha, t.Was(),
                   t.Now(c));
  }

  /** A signing that succeeds had a qualifying answer, and made the one file that such a signing makes. */
  lemma SuccessIsQualified(t: Task, world: World, from: nat, log: seq<Event>, e: Evidence, now: Bytes)
    requires IsHonest(t.format, world, t.kind) && t.IsSignable() && IsShort(t, t.Made(world, from))
    requires Genuine(world, log) && Proves(e, log, from, t.kind, t.dse, t.timestamp, t.sha, t.Was(), now)
    ensures Qualifies(t, t.Answer(world, from), t.Made(world, from)) && t.Made(world, from).Ok?
    ensures now == t.Now(t.Made(world, from).value)
    ensures Blob(e.final) == t.Final(t.Made(world, from).value)
  {
    hide IsHonest, Genuine, ProbeOk, Message, DigestOf, Data, Checking, Asking, Answered, Answers, IsOpened, Qualifies,
         HasSigner, ExtractIndirectData, Task.Answer, Task.Made, Task.IsSignable;
    var all := Checking(e, t.Was(), t.dse, t.timestamp, t.sha);
    SuffixIsAnswered(world, log, from, all);
    Stages(e, t.Was(), t.dse, t.timestamp, t.sha);
    AsksAreGiven(t, world, from);
    var a := Answers(t, world, from, []);
    AgreeOnAnswer(world, from, e, a, t.Was(), t.dse, t.sha, all, Asking(a, t.Was(), t.dse, t.sha));
    var c := t.Made(world, from).value;
    Decided(t, world, from, c);
    AnswersAreGiven(t, world, from, c);
    var b := Answers(t, world, from, c);
    var given := Checking(b, t.Was(), t.dse, t.timestamp, t.sha);
    Stages(b, t.Was(), t.dse, t.timestamp, t.sha);
    AgreeOnFinal(world, from, e, b, t.Was(), t.dse, t.timestamp, t.sha, all, given);
    AgreeOnRecheck(world, from, e, b, t.Was(), t.dse, t.timestamp, t.sha, all, given);
    Closes(t, world, from, c);
  }

  /** The file as it is after a successful signing. */
  function Signed(t: Task, c: Bytes): Task { t.(present := Some(t.Final(c))) }

  /**
   * A signed file can be signed again, and the new message then takes the old one's place: the result is
   * what signing the unsigned part gives, for the same answer of the signer the same file.
   */
  lemma SignedAgain(t: Task, world: World, from: nat, log: seq<Event>, e: Evidence, c: Bytes, later: nat,
                    d: Evidence, again: Bytes)
    requires IsHonest(t.format, world, t.kind) && t.IsSignable() && t.Made(world, from) == Ok(c) && IsShort(t, Ok(c))
    requires Genuine(world, log) && Proves(e, log, from, t.kind, t.dse, t.timestamp, t.sha, t.Was(), t.Now(c))
    requires Proves(d, log, later, t.kind, t.dse, t.timestamp, t.sha, t.Now(c), again)
    requires IsShort(Signed(t, c), Signed(t, c).Made(world, later))
    ensures var u := Signed(t, c);
            && u.Was() == t.Now(c) && u.IsSignable() && u.Made(world, later).Ok?
            && again == t.Now(u.Made(world, later).value)
            && (u.Answer(world, later) == t.Answer(world, from) ==> again == t.Now(c))
  {
    hide IsHonest, Genuine, Proves, Qualifies, HasSigner, Assemble, IsShort, Task.Made, Task.Answer, Task.IsSignable;
    SuccessIsQualified(t, world, from, log, e, t.Now(c));
    var u := Signed(t, c);
    FinalHasSigner(t, e, log, from, t.Now(c));
    StillSignable(t, c);
    SuccessIsQualified(u, world, later, log, d, again);
    if u.Answer(world, later) == t.Answer(world, from) { SameAnswerSameMessage(t, c, world, from, later); }
  }

  lemma StillSignable(t: Task, c: Bytes)
    requires t.IsSignable() && |t.Final(c)| <= 16 * 1024 * 1024 && HasSigner(t.Final(c)) == Ok(true)
    ensures Signed(t, c).IsSignable() && Signed(t, c).Was() == t.Now(c)
  {
    hide HasSigner;
  }

  lemma SameAnswerSameMessage(t: Task, c: Bytes, world: World, from: nat, later: nat)
    requires Signed(t, c).Answer(world, later) == t.Answer(world, from)
    ensures Signed(t, c).Made(world, later) == t.Made(world, from)
  {
    hide Assemble, Task.Answer;
  }

  lemma FinalHasSigner(t: Task, e: Evidence, log: seq<Event>, from: nat, now: Bytes)
    requires Proves(e, log, from, t.kind, t.dse, t.timestamp, t.sha, t.Was(), now)
    ensures IsBlob(e.final) && HasSigner(Blob(e.final)) == Ok(true)
  {
    hide MadeOk, Checking, HasSigner, ExtractIndirectData;
  }

  /**
   * With such a companion, and no failure of the platform, `SignStaged` succeeds exactly when the signer's answer
   * qualifies. The file then is the unsigned part with the one message made of that answer.
   */
  method SignWithCompanion(m: Machine, path: Path, kind: Kind, o: Options, sha: Hash, ghost t: Task)
    returns (r: Outcome<()>)
    requires m.Valid() && !path.User? && !path.Work? && At(m.tree, path) == Some(t.Was())
    requires o.dump == m.dump || o.dump == None
    requires t.kind == kind && t.sha == sha && t.dse == (kind == Msi && o.msiDse) && t.timestamp == o.timestamp
    requires IsHonest(t.format, m.world, kind) && t.IsSignable() && IsShort(t, t.Made(m.world, |m.log|))
    modifies m`tree, m`history, m`log, m`turn, m`failed
    ensures m.Valid()
    ensures var made := t.Made(m.world, |old(m.log)|);
            var good := Qualifies(t, t.Answer(m.world, |old(m.log)|), made);
            && (r.Ok? ==> good && made.Ok? && At(m.tree, path) == Some(t.Now(made.value)))
            && (r.Throws? ==> (m.failed || !good) && At(m.tree, path) == Some(t.Was()))
  {
    hide Machine.Valid, Proves, Refused, Checking, IsHonest, Genuine, Qualifies, Task.Made, Task.Answer,
         Task.IsSignable, At;
    ghost var from := |m.log|;
    ghost var e;
    r, e := SignStaged(m, path, kind, o, sha);
    LogIsGenuine(m);
    if r.Ok? {
      SuccessIsQualified(t, m.world, from, m.log, e, At(m.tree, path).value);
    } else if Qualifies(t, t.Answer(m.world, from), t.Made(m.world, from)) {
      QualifiedIsNotRefused(t, m.world, from, m.log, e);
    }
  }

  lemma LogIsGenuine(m: Machine)
    requires m.Valid()
    ensures Genuine(m.world, m.log)
  {
  }

  // ----- such companions exist

  function MissingText(kind: Kind): string
  {
    match kind
    case Pe => "No signature found"
    case Msi => "MSI file has no signature"
    case Msix => "AppxSignature.p7x does not exist"
  }

  /** A format with one unsigned file, the empty one; a signed one is a mark and the message. */
  function Mark(c: Bytes): FileBytes { if |c| < TWO_32 then [1] + c else [1] }

  function MarkFormat(d: Bytes): Format { Format(u => u == [], (u, c) => Mark(c), (dse, u) => d, c => c) }

  function Done(file: Bytes): Reply { Exited(0, "", if |file| < TWO_64 then Some(file) else None) }

  function MarkReply(kind: Kind, b: Bytes, verb: Verb, file: Bytes): Reply
  {
    match verb
    case ExtractSignature => if file == [] then Exited(1, MissingText(kind), None) else Done(file[1..])
    case RemoveSignature => Done([])
    case ExtractData(_) => Done(b)
    case AttachSignature(_, c) => Done(Mark(c))
    case AddTimestamp(_) => Done(file)
  }

  function MarkWorld(kind: Kind, b: Bytes): World
  {
    World((turn, verb, input: Option<Bytes>) => if input.Some? then MarkReply(kind, b, verb, input.value)
                                                else NotStarted,
          (turn, digest) => Throws)
  }

  lemma MarkReadsPlain(kind: Kind, b: Bytes, d: Bytes, turn: nat, dse: bool)
    requires |b| <= 16 * 1024 * 1024 && ExtractIndirectData(b) == Ok(d)
    ensures ReadsPlain(MarkFormat(d), MarkWorld(kind, b), turn, kind, dse, [])
  {
    hide ExtractIndirectData;
  }

  lemma MarkReadsSigned(kind: Kind, b: Bytes, d: Bytes, turn: nat, dse: bool, c: Bytes)
    requires |b| <= 16 * 1024 * 1024 && ExtractIndirectData(b) == Ok(d) && |c| < TWO_32
    ensures ReadsSigned(MarkFormat(d), MarkWorld(kind, b), turn, dse, [], c)
    ensures Attaches(MarkFormat(d), MarkWorld(kind, b), turn, dse, [], c)
  {
    hide ExtractIndirectData;
    assert Mark(c) != [] && Mark(c)[1..] == c;
  }

  lemma HonestWorldExists(kind: Kind, b: Bytes, d: Bytes)
    requires |b| <= 16 * 1024 * 1024 && ExtractIndirectData(b) == Ok(d)
    ensures IsHonest(MarkFormat(d), MarkWorld(kind, b), kind) && MarkFormat(d).plain([])
  {
    hide HasSigner, ExtractIndirectData, ReadsPlain, ReadsSigned, Attaches, MarkWorld;
    var f, world := MarkFormat(d), MarkWorld(kind, b);
    forall turn, dse, u | f.plain(u) ensures ReadsPlain(f, world, turn, kind, dse, u) {
      MarkReadsPlain(kind, b, d, turn, dse);
    }
    forall turn, dse, u, c | f.plain(u) && |c| < TWO_32
      ensures Attaches(f, world, turn, dse, u, c) && ReadsSigned(f, world, turn, dse, u, c)
    {
      MarkReadsSigned(kind, b, d, turn, dse, c);
    }
  }
}
