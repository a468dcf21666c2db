/**
 * What the companion and the signer are asked in one signing, in order, and which of their answers
 * let it go on (src/signing.cpp, `extract_existing` and `sign_staged`).
 */
module Transcripts {
  import opened Wire
  import opened Cms
  import opened PeTable
  import opened Staging

  /** Every answer of one signing. */
  datatype Evidence = Evidence(probe: Reply, removal: Reply, extraction: Reply, answer: Outcome<(Bytes, Bytes)>,
                               attachment: Reply, stamp: Reply, final: Reply, recheck: Reply)

  function NoEvidence(): Evidence
  {
    Evidence(NotStarted, NotStarted, NotStarted, Throws, NotStarted, NotStarted, NotStarted, NotStarted)
  }

  // ----- answers

  predicate Succeeded(r: Reply) { r.Exited? && r.code == 0 }

  /** A successful run that left a file of at most 16 MiB. */
  predicate IsBlob(r: Reply) { Succeeded(r) && r.output.Some? && |r.output.value| <= 16 * 1024 * 1024 }

  function Blob(r: Reply): Bytes
    requires IsBlob(r)
  {
    r.output.value
  }

  predicate Mentions(text: string, part: string) { part <= text || (text != [] && Mentions(text[1..], part)) }

  lemma {:induction false} MentionsIffContains(text: string, part: string)
    ensures Mentions(text, part) <==> exists a, b :: text == a + part + b
  {
    if part <= text {
      assert text == [] + part + text[|part|..];
    } else if text != [] {
      MentionsIffContains(text[1..], part);
      if Mentions(text[1..], part) {
        var a, b :| text[1..] == a + part + b;
        assert text == ([text[0]] + a) + part + b;
      }
      if exists a, b :: text == a + part + b {
        var a, b :| text == a + part + b;
        if a != [] { assert text[1..] == a[1..] + part + b; }
      }
    }
  }

  /** How the companion says that a file of this kind has no signature. */
  predicate SaysMissing(text: string, kind: Kind)
  {
    match kind
    case Pe => Mentions(text, "No signature found")
    case Msi => Mentions(text, "MSI file has no signature")
    case Msix => Mentions(text, "AppxSignature.p7x does not exist")
  }

  /** The file has a signature with a signer, or the companion says that it has none. */
  predicate ProbeOk(r: Reply, kind: Kind)
  {
    r.Exited? && if r.code == 0 then IsBlob(r) && HasSigner(Blob(r)) == Ok(true) else SaysMissing(r.text, kind)
  }

  /** What is signed: the input, or what the removal of its signature left. */
  function Source(e: Evidence, was: Bytes): Option<Bytes>
  {
    if Succeeded(e.probe) then Output(e.removal) else Some(was)
  }

  /** The indirect data of the source. */
  function Data(e: Evidence): Outcome<Bytes>
  {
    if IsBlob(e.extraction) then ExtractIndirectData(Blob(e.extraction)) else Throws
  }

  /** The digest to be signed for it. */
  function DigestOf(e: Evidence, sha: Hash): Outcome<Digest>
  {
    var data :- Data(e);
    AuthAttrsHash(sha, data)
  }

  /** The message made of it and of the signer's answer; one too long for memory cannot be made. */
  function Message(e: Evidence, sha: Hash): Outcome<Bytes>
  {
    var data :- Data(e);
    var answer :- e.answer;
    var cms :- Assemble(sha, data, answer.0, answer.1);
    if |cms| < TWO_64 then Ok(cms) else Throws
  }

  /** The finished file. */
  function Finished(e: Evidence, timestamp: bool): Option<Bytes> { Output(if timestamp then e.stamp else e.attachment) }

  /** A message with a signer, for the indirect data that was signed. */
  predicate FinalOk(e: Evidence)
  {
    IsBlob(e.final) && HasSigner(Blob(e.final)) == Ok(true) && ExtractIndirectData(Blob(e.final)) == Data(e)
  }

  predicate RecheckOk(e: Evidence) { IsBlob(e.recheck) && ExtractIndirectData(Blob(e.recheck)) == Data(e) }

  // ----- the questions, with these answers

  function Probing(e: Evidence, was: Bytes): seq<Event> { [Ran(ExtractSignature, Some(was), e.probe)] }

  function Opening(e: Evidence, was: Bytes): seq<Event>
  {
    Probing(e, was) + if Succeeded(e.probe) then [Ran(RemoveSignature, Some(was), e.removal)] else []
  }

  function Extracting(e: Evidence, was: Bytes, dse: bool): seq<Event>
  {
    Opening(e, was) + [Ran(ExtractData(dse), Source(e, was), e.extraction)]
  }

  function Asking(e: Evidence, was: Bytes, dse: bool, sha: Hash): seq<Event>
    requires DigestOf(e, sha).Ok?
  {
    Extracting(e, was, dse) + [Asked(DigestOf(e, sha).value, e.answer)]
  }

  function Attaching(e: Evidence, was: Bytes, dse: bool, sha: Hash): seq<Event>
    requires DigestOf(e, sha).Ok? && Message(e, sha).Ok?
  {
    Asking(e, was, dse, sha) + [Ran(AttachSignature(dse, Message(e, sha).value), Source(e, was), e.attachment)]
  }

  function Stamping(e: Evidence, was: Bytes, dse: bool, timestamp: bool, sha: Hash): seq<Event>
    requires DigestOf(e, sha).Ok? && Message(e, sha).Ok?
  {
    Attaching(e, was, dse, sha) + if timestamp then [Ran(AddTimestamp(dse), Output(e.attachment), e.stamp)] else []
  }

  function Reading(e: Evidence, was: Bytes, dse: bool, timestamp: bool, sha: Hash): seq<Event>
    requires DigestOf(e, sha).Ok? && Message(e, sha).Ok?
  {
    Stamping(e, was, dse, timestamp, sha) + [Ran(ExtractSignature, Finished(e, timestamp), e.final)]
  }

  function Checking(e: Evidence, was: Bytes, dse: bool, timestamp: bool, sha: Hash): seq<Event>
    requires DigestOf(e, sha).Ok? && Message(e, sha).Ok?
  {
    Reading(e, was, dse, timestamp, sha) + [Ran(ExtractData(dse), Finished(e, timestamp), e.recheck)]
  }

  // ----- a whole signing

  /** The answers up to the message are good. */
  predicate MadeOk(e: Evidence, kind: Kind, sha: Hash)
  {
    && ProbeOk(e.probe, kind) && (Succeeded(e.probe) ==> Succeeded(e.removal))
    && DigestOf(e, sha).Ok? && Message(e, sha).Ok?
  }

  /** And so are the rest, which left `now`. */
  predicate AllOk(e: Evidence, kind: Kind, timestamp: bool, sha: Hash, now: Bytes)
  {
    && MadeOk(e, kind, sha)
    && Succeeded(e.attachment) && (timestamp ==> Succeeded(e.stamp)) && FinalOk(e) && RecheckOk(e)
    && Finished(e, timestamp) == Some(now)
  }

  /** From turn `from` on, `log` holds exactly the questions of a signing that made `now` of `was`. */
  ghost predicate Proves(e: Evidence, log: seq<Event>, from: nat, kind: Kind, dse: bool, timestamp: bool, sha: Hash,
                         was: Bytes, now: Bytes)
  {
    && AllOk(e, kind, timestamp, sha, now)
    && from <= |log| && Checking(e, was, dse, timestamp, sha) <= log[from..]
  }

  /** `events` is a signing that stopped at the first answer that was not good. */
  ghost predicate Refused(e: Evidence, events: seq<Event>, kind: Kind, dse: bool, timestamp: bool, sha: Hash,
                          was: Bytes)
  {
    || (events == Probing(e, was) && !ProbeOk(e.probe, kind))
    || (events == Opening(e, was) && Succeeded(e.probe) && !Succeeded(e.removal))
    || (events == Extracting(e, was, dse) && DigestOf(e, sha).Throws?)
    || (DigestOf(e, sha).Ok? && events == Asking(e, was, dse, sha) && Message(e, sha).Throws?)
    || (MadeOk(e, kind, sha) && RefusedLater(e, events, dse, timestamp, sha, was))
  }

  ghost predicate RefusedLater(e: Evidence, events: seq<Event>, dse: bool, timestamp: bool, sha: Hash, was: Bytes)
    requires DigestOf(e, sha).Ok? && Message(e, sha).Ok?
  {
    || (events == Attaching(e, was, dse, sha) && !Succeeded(e.attachment))
    || (events == Stamping(e, was, dse, timestamp, sha) && timestamp && !Succeeded(e.stamp))
    || (events == Reading(e, was, dse, timestamp, sha) && !FinalOk(e))
    || (events == Checking(e, was, dse, timestamp, sha) && (!RecheckOk(e) || Finished(e, timestamp) == None))
  }

  lemma ProvesGrows(e: Evidence, a: seq<Event>, b: seq<Event>, from: nat, kind: Kind, dse: bool, timestamp: bool,
                    sha: Hash, was: Bytes, now: Bytes)
    requires Proves(e, a, from, kind, dse, timestamp, sha, was, now) && a <= b
    ensures Proves(e, b, from, kind, dse, timestamp, sha, was, now)
  {
    hide AllOk, Checking;
    assert a[from..] <= b[from..];
  }

  /** The signer is asked once in a signing, for the digest of the attributes over the indirect data. */
  lemma SignerIsAskedOnce(e: Evidence, was: Bytes, kind: Kind, dse: bool, timestamp: bool, sha: Hash, now: Bytes)
    requires AllOk(e, kind, timestamp, sha, now) && DigestOf(e, sha).Ok? && Message(e, sha).Ok?
    ensures var log := Checking(e, was, dse, timestamp, sha);
            exists i :: 0 <= i < |log| && log[i] == Asked(DigestOf(e, sha).value, e.answer)
                        && forall j :: 0 <= j < |log| && log[j].Asked? ==> j == i
  {
    hide AllOk, DigestOf, Message, Source, Data, Finished;
    var log := Checking(e, was, dse, timestamp, sha);
    var i := |Extracting(e, was, dse)|;
    assert log[i] == Asked(DigestOf(e, sha).value, e.answer);
  }

  /** The companion, run on `file`, left a message for this indirect data. */
  predicate TellsOf(v: Event, verb: Verb, file: Option<Bytes>, data: Bytes)
  {
    && v.Ran? && v.verb == verb && v.input == file && v.reply.Exited? && v.reply.code == 0 && v.reply.output.Some?
    && ExtractIndirectData(v.reply.output.value) == Ok(data)
  }

  /**
   * The log of a successful signing, without its stages: right before the signer is asked, the companion computed
   * some indirect data, and the digest asked for is that of the attributes over it; in the end the companion found
   * a message with a signer in the new file for the same data, and computed the same data of the new file.
   */
  lemma LogTellsOfOneData(e: Evidence, log: seq<Event>, from: nat, kind: Kind, dse: bool, timestamp: bool, sha: Hash,
                          was: Bytes, now: Bytes)
    returns (i: nat, n: nat, data: Bytes, digest: Digest)
    requires Proves(e, log, from, kind, dse, timestamp, sha, was, now)
    ensures from < i < i + 3 < n <= |log| && AuthAttrsHash(sha, data) == Ok(digest)
    ensures TellsOf(log[i - 1], ExtractData(dse), Source(e, was), data) && log[i] == Asked(digest, e.answer)
    ensures TellsOf(log[n - 2], ExtractSignature, Some(now), data)
    ensures HasSigner(log[n - 2].reply.output.value) == Ok(true)
    ensures TellsOf(log[n - 1], ExtractData(dse), Some(now), data)
  {
    hide HasSigner, ExtractIndirectData, AuthAttrsHash, Source, ProbeOk, Message;
    var all := Checking(e, was, dse, timestamp, sha);
    i, n := from + |Extracting(e, was, dse)|, from + |all|;
    data, digest := Data(e).value, DigestOf(e, sha).value;
    assert log[n - 1] == all[|all| - 1] && log[n - 2] == all[|all| - 2];
    assert log[i] == all[i - from] && log[i - 1] == all[i - from - 1];
  }

  // ----- a refused signing could not have succeeded

  /** From turn `from` on, the world answers so. */
  ghost predicate Answered(world: World, from: nat, events: seq<Event>)
  {
    forall i :: 0 <= i < |events| ==> AnswersAt(world, from + i, events[i])
  }

  predicate SameQuestion(v: Event, w: Event)
  {
    match v
    case Ran(verb, input, _) => w.Ran? && w.verb == verb && w.input == input
    case Asked(digest, _) => w.Asked? && w.digest == digest
  }

  /** The same question after the same past has one answer. */
  lemma SameAnswer(world: World, from: nat, past: seq<Event>, v: Event, w: Event, a: seq<Event>, b: seq<Event>)
    requires Answered(world, from, a) && Answered(world, from, b) && SameQuestion(v, w)
    requires past + [v] <= a && past + [w] <= b
    ensures v == w
  {
    assert a[|past|] == v && b[|past|] == w;
    assert AnswersAt(world, from + |past|, a[|past|]) && AnswersAt(world, from + |past|, b[|past|]);
  }

  ghost predicate SameOpen(e: Evidence, d: Evidence)
  {
    e.probe == d.probe && (Succeeded(e.probe) ==> e.removal == d.removal)
  }

  lemma AgreeOnProbe(world: World, from: nat, e: Evidence, d: Evidence, was: Bytes, a: seq<Event>, b: seq<Event>)
    requires Answered(world, from, a) && Answered(world, from, b) && Probing(e, was) <= a && Probing(d, was) <= b
    ensures e.probe == d.probe
  {
    SameAnswer(world, from, [], Probing(e, was)[0], Probing(d, was)[0], a, b);
  }

  lemma AgreeOnOpening(world: World, from: nat, e: Evidence, d: Evidence, was: Bytes, a: seq<Event>, b: seq<Event>)
    requires Answered(world, from, a) && Answered(world, from, b) && Opening(e, was) <= a && Opening(d, was) <= b
    ensures SameOpen(e, d) && Opening(e, was) == Opening(d, was) && Source(e, was) == Source(d, was)
  {
    assert Probing(e, was) <= Opening(e, was) && Probing(d, was) <= Opening(d, was);
    AgreeOnProbe(world, from, e, d, was, a, b);
    if Succeeded(e.probe) {
      SameAnswer(world, from, Probing(e, was), Opening(e, was)[1], Opening(d, was)[1], a, b);
    }
  }

  lemma AgreeOnExtraction(world: World, from: nat, e: Evidence, d: Evidence, was: Bytes, dse: bool, sha: Hash,
                          a: seq<Event>, b: seq<Event>)
    requires Answered(world, from, a) && Answered(world, from, b)
    requires Extracting(e, was, dse) <= a && Extracting(d, was, dse) <= b
    ensures SameOpen(e, d) && e.extraction == d.extraction && Extracting(e, was, dse) == Extracting(d, was, dse)
    ensures Source(e, was) == Source(d, was) && Data(e) == Data(d) && DigestOf(e, sha) == DigestOf(d, sha)
  {
    hide Opening, Source, AuthAttrsHash, ExtractIndirectData, SameOpen;
    AgreeOnOpening(world, from, e, d, was, a, b);
    SameAnswer(world, from, Opening(e, was), Ran(ExtractData(dse), Source(e, was), e.extraction),
               Ran(ExtractData(dse), Source(d, was), d.extraction), a, b);
  }

  lemma AgreeOnAnswer(world: World, from: nat, e: Evidence, d: Evidence, was: Bytes, dse: bool, sha: Hash,
                      a: seq<Event>, b: seq<Event>)
    requires Answered(world, from, a) && Answered(world, from, b) && DigestOf(e, sha).Ok? && DigestOf(d, sha).Ok?
    requires Asking(e, was, dse, sha) <= a && Asking(d, was, dse, sha) <= b
    ensures SameOpen(e, d) && Source(e, was) == Source(d, was) && Data(e) == Data(d)
    ensures Message(e, sha) == Message(d, sha) && Asking(e, was, dse, sha) == Asking(d, was, dse, sha)
  {
    hide Extracting, Source, DigestOf, Data, Assemble, SameOpen;
    AgreeOnExtraction(world, from, e, d, was, dse, sha, a, b);
    SameAnswer(world, from, Extracting(e, was, dse), Asked(DigestOf(e, sha).value, e.answer),
               Asked(DigestOf(d, sha).value, d.answer), a, b);
  }

  lemma AgreeOnAttachment(world: World, from: nat, e: Evidence, d: Evidence, was: Bytes, dse: bool, sha: Hash,
                          a: seq<Event>, b: seq<Event>)
    requires Answered(world, from, a) && Answered(world, from, b) && DigestOf(e, sha).Ok? && DigestOf(d, sha).Ok?
    requires Message(e, sha).Ok? && Message(d, sha).Ok?
    requires Attaching(e, was, dse, sha) <= a && Attaching(d, was, dse, sha) <= b
    ensures e.attachment == d.attachment && Data(e) == Data(d)
    ensures Attaching(e, was, dse, sha) == Attaching(d, was, dse, sha)
  {
    hide Asking, Source, DigestOf, Data, Message, SameOpen;
    AgreeOnAnswer(world, from, e, d, was, dse, sha, a, b);
    var cms := Message(e, sha).value;
    SameAnswer(world, from, Asking(e, was, dse, sha), Ran(AttachSignature(dse, cms), Source(e, was), e.attachment),
               Ran(AttachSignature(dse, cms), Source(d, was), d.attachment), a, b);
  }

  lemma AgreeOnStamp(world: World, from: nat, e: Evidence, d: Evidence, was: Bytes, dse: bool, timestamp: bool,
                     sha: Hash, a: seq<Event>, b: seq<Event>)
    requires Answered(world, from, a) && Answered(world, from, b) && DigestOf(e, sha).Ok? && DigestOf(d, sha).Ok?
    requires Message(e, sha).Ok? && Message(d, sha).Ok?
    requires Stamping(e, was, dse, timestamp, sha) <= a && Stamping(d, was, dse, timestamp, sha) <= b
    ensures (timestamp ==> e.stamp == d.stamp) && Finished(e, timestamp) == Finished(d, timestamp) && Data(e) == Data(d)
    ensures Stamping(e, was, dse, timestamp, sha) == Stamping(d, was, dse, timestamp, sha)
  {
    hide Attaching, DigestOf, Data, Message;
    AgreeOnAttachment(world, from, e, d, was, dse, sha, a, b);
    if timestamp {
      SameAnswer(world, from, Attaching(e, was, dse, sha), Ran(AddTimestamp(dse), Output(e.attachment), e.stamp),
                 Ran(AddTimestamp(dse), Output(d.attachment), d.stamp), a, b);
    }
  }

  lemma AgreeOnFinal(world: World, from: nat, e: Evidence, d: Evidence, was: Bytes, dse: bool, timestamp: bool,
                     sha: Hash, a: seq<Event>, b: seq<Event>)
    requires Answered(world, from, a) && Answered(world, from, b) && DigestOf(e, sha).Ok? && DigestOf(d, sha).Ok?
    requires Message(e, sha).Ok? && Message(d, sha).Ok?
    requires Reading(e, was, dse, timestamp, sha) <= a && Reading(d, was, dse, timestamp, sha) <= b
    ensures e.final == d.final && Finished(e, timestamp) == Finished(d, timestamp) && Data(e) == Data(d)
    ensures Reading(e, was, dse, timestamp, sha) == Reading(d, was, dse, timestamp, sha)
  {
    hide Stamping, DigestOf, Data, Message, Finished;
    AgreeOnStamp(world, from, e, d, was, dse, timestamp, sha, a, b);
    SameAnswer(world, from, Stamping(e, was, dse, timestamp, sha),
               Ran(ExtractSignature, Finished(e, timestamp), e.final),
               Ran(ExtractSignature, Finished(d, timestamp), d.final), a, b);
  }

  lemma AgreeOnRecheck(world: World, from: nat, e: Evidence, d: Evidence, was: Bytes, dse: bool, timestamp: bool,
                       sha: Hash, a: seq<Event>, b: seq<Event>)
    requires Answered(world, from, a) && Answered(world, from, b) && DigestOf(e, sha).Ok? && DigestOf(d, sha).Ok?
    requires Message(e, sha).Ok? && Message(d, sha).Ok?
    requires Checking(e, was, dse, timestamp, sha) <= a && Checking(d, was, dse, timestamp, sha) <= b
    ensures e.recheck == d.recheck && Finished(e, timestamp) == Finished(d, timestamp) && Data(e) == Data(d)
  {
    hide Reading, DigestOf, Data, Message, Finished;
    AgreeOnFinal(world, from, e, d, was, dse, timestamp, sha, a, b);
    SameAnswer(world, from, Reading(e, was, dse, timestamp, sha),
               Ran(ExtractData(dse), Finished(e, timestamp), e.recheck),
               Ran(ExtractData(dse), Finished(d, timestamp), d.recheck), a, b);
  }

  /** The stages of a signing are prefixes of one another. */
  lemma Stages(e: Evidence, was: Bytes, dse: bool, timestamp: bool, sha: Hash)
    requires DigestOf(e, sha).Ok? && Message(e, sha).Ok?
    ensures var all := Checking(e, was, dse, timestamp, sha);
            && Probing(e, was) <= all && Opening(e, was) <= all && Extracting(e, was, dse) <= all
            && Asking(e, was, dse, sha) <= all && Attaching(e, was, dse, sha) <= all
            && Stamping(e, was, dse, timestamp, sha) <= all && Reading(e, was, dse, timestamp, sha) <= all
  {
    hide DigestOf, Message, Source, Finished;
  }

  /**
   * Whether a signing succeeds is decided by the answers: with the same world, at the same turn, one that
   * was refused cannot have been one that succeeds.
   */
  lemma RefusedIsNotOk(world: World, from: nat, e: Evidence, d: Evidence, events: seq<Event>, kind: Kind, dse: bool,
                       timestamp: bool, sha: Hash, was: Bytes, now: Bytes)
    requires AllOk(e, kind, timestamp, sha, now) && DigestOf(e, sha).Ok? && Message(e, sha).Ok?
    requires Answered(world, from, Checking(e, was, dse, timestamp, sha)) && Answered(world, from, events)
    ensures !Refused(d, events, kind, dse, timestamp, sha, was)
  {
    hide ProbeOk, DigestOf, Message, Data, Source, Checking, Reading, Stamping, Attaching, Asking, Extracting,
         Opening, Probing, HasSigner, ExtractIndirectData, Answered;
    var all := Checking(e, was, dse, timestamp, sha);
    Stages(e, was, dse, timestamp, sha);
    if events == Probing(d, was) { AgreeOnProbe(world, from, e, d, was, all, events); }
    if events == Opening(d, was) { AgreeOnOpening(world, from, e, d, was, all, events); }
    if events == Extracting(d, was, dse) { AgreeOnExtraction(world, from, e, d, was, dse, sha, all, events); }
    if DigestOf(d, sha).Ok? && events == Asking(d, was, dse, sha) {
      AgreeOnAnswer(world, from, e, d, was, dse, sha, all, events);
    }
    if DigestOf(d, sha).Ok? && Message(d, sha).Ok? {
      RefusedLaterIsNotOk(world, from, e, d, events, kind, dse, timestamp, sha, was, now);
    }
  }

  lemma RefusedLaterIsNotOk(world: World, from: nat, e: Evidence, d: Evidence, events: seq<Event>, kind: Kind,
                            dse: bool, timestamp: bool, sha: Hash, was: Bytes, now: Bytes)
    requires AllOk(e, kind, timestamp, sha, now) && DigestOf(e, sha).Ok? && Message(e, sha).Ok?
    requires DigestOf(d, sha).Ok? && Message(d, sha).Ok?
    requires Answered(world, from, Checking(e, was, dse, timestamp, sha)) && Answered(world, from, events)
    ensures !RefusedLater(d, events, dse, timestamp, sha, was)
  {
    hide MadeOk, DigestOf, Message, Data, Checking, Reading, Stamping, Attaching, HasSigner, ExtractIndirectData,
         Answered;
    var all := Checking(e, was, dse, timestamp, sha);
    Stages(e, was, dse, timestamp, sha);
    if events == Attaching(d, was, dse, sha) { AgreeOnAttachment(world, from, e, d, was, dse, sha, all, events); }
    if events == Stamping(d, was, dse, timestamp, sha) {
      AgreeOnStamp(world, from, e, d, was, dse, timestamp, sha, all, events);
    }
    if events == Reading(d, was, dse, timestamp, sha) {
      AgreeOnFinal(world, from, e, d, was, dse, timestamp, sha, all, events);
    }
    if events == Checking(d, was, dse, timestamp, sha) {
      AgreeOnRecheck(world, from, e, d, was, dse, timestamp, sha, all, events);
    }
  }
}
