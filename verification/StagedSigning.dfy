/** Signing one private copy (src/signing.cpp: `extract_existing`, `sign_staged`) and the callback for payloads. */
module StagedSigning {
  import opened Wire
  import opened Cms
  import opened CmsCursor
  import opened PeTable
  import opened Staging
  import opened Transcripts

  // ----- what a step of a signing leaves alone

  /** Only these files of the private directory have changed. */
  ghost predicate Only(a: Tree, b: Tree, roles: set<Role>)
  {
    forall q: Path :: (q.Work? ==> q.role !in roles) ==> At(b, q) == At(a, q)
  }

  function AllRoles(): set<Role> { {Existing, Unsigned, Content, Signature, Signed, Timestamped, Final, Rechecked} }

  /** The private directory does not have these files yet. */
  ghost predicate Lacks(t: Tree, roles: set<Role>) { forall r :: r in roles ==> At(t, Work(r)) == None }

  lemma SuffixSnoc(log: seq<Event>, v: Event, from: nat)
    requires from <= |log|
    ensures (log + [v])[from..] == log[from..] + [v]
  {
  }

  /**
   * Whether the file is signed already. A failed run of the companion counts as "no" only when it
   * says that the signature is missing, in the words for this kind of file.
   */
  method ExtractExisting(m: Machine, path: Path, kind: Kind) returns (r: Outcome<bool>, ghost probe: Reply)
    requires m.Valid() && !path.User? && !path.Work? && Lacks(m.tree, {Existing})
    modifies m`tree, m`history, m`log, m`turn, m`failed
    ensures m.Valid() && Only(old(m.tree), m.tree, {Existing})
    ensures old(m.history) <= m.history && (old(m.failed) ==> m.failed)
    ensures m.log == old(m.log) + [Ran(ExtractSignature, At(old(m.tree), path), probe)]
    ensures r.Ok? ==> ProbeOk(probe, kind) && r.value == Succeeded(probe)
    ensures r.Throws? ==> m.failed || !ProbeOk(probe, kind)
  {
    hide Machine.Valid, At, HasSigner, Mentions;
    var reply := m.Invoke(ExtractSignature, path, Work(Existing));
    probe := reply;
    if reply.NotStarted? { return Throws, probe; }
    if reply.code != 0 {
      return if SaysMissing(reply.text, kind) then Ok(false) else Throws, probe;
    }
    var blob := m.ReadBlob(Work(Existing));
    if blob.Throws? { return Throws, probe; }
    assert IsBlob(reply) && Blob(reply) == blob.value;
    r := HasSignerCursor(blob.value);
    if r.Ok? && !r.value { return Throws, probe; }
  }

  /** The file to sign: the input, or the input with its signature removed. */
  method ChooseSource(m: Machine, path: Path, kind: Kind, ghost dse: bool, ghost timestamp: bool, ghost sha: Hash,
                      ghost was: Bytes)
    returns (r: Outcome<Path>, ghost e: Evidence)
    requires m.Valid() && !path.User? && !path.Work? && At(m.tree, path) == Some(was)
    requires Lacks(m.tree, {Existing, Unsigned})
    modifies m`tree, m`history, m`log, m`turn, m`failed
    ensures m.Valid() && Only(old(m.tree), m.tree, {Existing, Unsigned})
    ensures old(m.history) <= m.history && old(m.log) <= m.log && (old(m.failed) ==> m.failed)
    ensures r.Ok? ==> r.value == path || r.value == Work(Unsigned)
    ensures r.Ok? ==> m.log[|old(m.log)|..] == Opening(e, was) && At(m.tree, r.value) == Source(e, was)
    ensures r.Ok? ==> ProbeOk(e.probe, kind) && (Succeeded(e.probe) ==> Succeeded(e.removal))
    ensures r.Throws? ==> m.failed || Refused(e, m.log[|old(m.log)|..], kind, dse, timestamp, sha, was)
  {
    hide Machine.Valid, At, ProbeOk, DigestOf, Message, MadeOk;
    e := NoEvidence();
    var existing, probe := ExtractExisting(m, path, kind);
    e := e.(probe := probe);
    ghost var log := m.log;
    if existing.Throws? { return Throws, e; }
    if !existing.value { return Ok(path), e; }
    var reply := m.Invoke(RemoveSignature, path, Work(Unsigned));
    e := e.(removal := reply);
    SuffixSnoc(log, Ran(RemoveSignature, Some(was), reply), |old(m.log)|);
    return if reply.Exited? && reply.code == 0 then Ok(Work(Unsigned)) else Throws, e;
  }

  /** Has the attributes for the source's indirect data signed, and assembles the message. */
  method ObtainMessage(m: Machine, source: Path, ghost kind: Kind, dse: bool, ghost timestamp: bool, sha: Hash,
                       ghost from: nat, ghost was: Bytes, ghost e0: Evidence)
    returns (r: Outcome<(Bytes, Bytes)>, ghost e: Evidence)
    requires m.Valid() && !source.User? && (!source.Work? || source == Work(Unsigned)) && Lacks(m.tree, {Content})
    requires from <= |m.log| && m.log[from..] == Opening(e0, was) && At(m.tree, source) == Source(e0, was)
    requires ProbeOk(e0.probe, kind) && (Succeeded(e0.probe) ==> Succeeded(e0.removal))
    modifies m`tree, m`history, m`log, m`turn, m`failed
    ensures m.Valid() && Only(old(m.tree), m.tree, {Content})
    ensures old(m.history) <= m.history && old(m.log) <= m.log && (old(m.failed) ==> m.failed)
    ensures e == e0.(extraction := e.extraction, answer := e.answer)
    ensures r.Ok? ==> MadeOk(e, kind, sha) && m.log[from..] == Asking(e, was, dse, sha)
    ensures r.Ok? ==> Data(e) == Ok(r.value.0) && Message(e, sha) == Ok(r.value.1)
    ensures r.Throws? ==> m.failed || Refused(e, m.log[from..], kind, dse, timestamp, sha, was)
  {
    hide Machine.Valid, At, ProbeOk, ExtractIndirectData, AuthAttrsHash, Assemble, Opening;
    e := e0;
    SameOpening(e0, was);
    ghost var log := m.log;
    var reply := m.Invoke(ExtractData(dse), source, Work(Content));
    e := e.(extraction := reply);
    SuffixSnoc(log, Ran(ExtractData(dse), Source(e0, was), reply), from);
    if !(reply.Exited? && reply.code == 0) { return Throws, e; }
    var extracted := m.ReadBlob(Work(Content));
    if extracted.Throws? { return Throws, e; }
    var data := ExtractCursor(extracted.value);
    if data.Throws? { return Throws, e; }
    var digest := AuthAttrsHash(sha, data.value);
    if digest.Throws? { return Throws, e; }
    log := m.log;
    var answer := m.AskSigner(digest.value);
    e := e.(answer := answer);
    SuffixSnoc(log, Asked(digest.value, answer), from);
    if answer.Throws? { return Throws, e; }
    var cms := Assemble(sha, data.value, answer.value.0, answer.value.1);
    if cms.Throws? || |cms.value| >= TWO_64 { return Throws, e; }
    return Ok((data.value, cms.value)), e;
  }

  lemma SameOpening(e: Evidence, was: Bytes)
    ensures forall x, a, b, c, d, f ::
              var g := e.(extraction := x, answer := a, attachment := b, stamp := c, final := d, recheck := f);
              Opening(g, was) == Opening(e, was) && Source(g, was) == Source(e, was)
  {
  }

  /** Attaches the message, and a timestamp unless that is switched off. */
  method AttachMessage(m: Machine, source: Path, cms: FileBytes, ghost kind: Kind, dse: bool, timestamp: bool,
                       ghost sha: Hash, ghost from: nat, ghost was: Bytes, ghost e0: Evidence)
    returns (r: Outcome<Path>, ghost e: Evidence)
    requires m.Valid() && !source.User? && (!source.Work? || source == Work(Unsigned))
    requires Lacks(m.tree, {Signed, Timestamped})
    requires MadeOk(e0, kind, sha) && Message(e0, sha) == Ok(cms) && At(m.tree, source) == Source(e0, was)
    requires from <= |m.log| && m.log[from..] == Asking(e0, was, dse, sha)
    modifies m`tree, m`history, m`log, m`turn, m`failed
    ensures m.Valid() && Only(old(m.tree), m.tree, {Signature, Signed, Timestamped})
    ensures old(m.history) <= m.history && old(m.log) <= m.log && (old(m.failed) ==> m.failed)
    ensures e == e0.(attachment := e.attachment, stamp := e.stamp)
    ensures MadeOk(e, kind, sha)
    ensures r.Ok? ==> r.value == Work(Signed) || r.value == Work(Timestamped)
    ensures r.Ok? ==> Succeeded(e.attachment) && (timestamp ==> Succeeded(e.stamp))
    ensures r.Ok? ==> m.log[from..] == Stamping(e, was, dse, timestamp, sha)
    ensures r.Ok? ==> At(m.tree, r.value) == Finished(e, timestamp)
    ensures r.Throws? ==> m.failed || Refused(e, m.log[from..], kind, dse, timestamp, sha, was)
  {
    hide Machine.Valid, At, MadeOk, DigestOf, Message, Asking, Source;
    e := e0;
    SameAsking(e0, kind, was, dse, sha);
    var written := m.WriteFile(Work(Signature), cms);
    if !written { return Throws, e; }
    ghost var log := m.log;
    var reply := m.Invoke(AttachSignature(dse, cms), source, Work(Signed));
    e := e.(attachment := reply);
    SuffixSnoc(log, Ran(AttachSignature(dse, cms), Source(e0, was), reply), from);
    if !(reply.Exited? && reply.code == 0) { return Throws, e; }
    if !timestamp { return Ok(Work(Signed)), e; }
    log := m.log;
    reply := m.Invoke(AddTimestamp(dse), Work(Signed), Work(Timestamped));
    e := e.(stamp := reply);
    SuffixSnoc(log, Ran(AddTimestamp(dse), Output(e.attachment), reply), from);
    if !(reply.Exited? && reply.code == 0) { return Throws, e; }
    return Ok(Work(Timestamped)), e;
  }

  /** The later answers play no part in the message. */
  lemma SameAsking(e: Evidence, kind: Kind, was: Bytes, dse: bool, sha: Hash)
    requires MadeOk(e, kind, sha)
    ensures forall b, c, d, f :: var g := e.(attachment := b, stamp := c, final := d, recheck := f);
              && DigestOf(g, sha) == DigestOf(e, sha) && Message(g, sha) == Message(e, sha) && MadeOk(g, kind, sha)
              && Source(g, was) == Source(e, was) && Asking(g, was, dse, sha) == Asking(e, was, dse, sha)
              && Data(g) == Data(e)
  {
    hide ProbeOk, ExtractIndirectData, AuthAttrsHash, Assemble;
  }

  /** Reads the message back out of the finished file; it must carry the indirect data that was signed. */
  method ReadBack(m: Machine, output: Path, data: Bytes, ghost kind: Kind, ghost dse: bool, ghost timestamp: bool,
                  ghost sha: Hash, ghost from: nat, ghost was: Bytes, ghost e0: Evidence)
    returns (r: Outcome<FileBytes>, ghost e: Evidence)
    requires m.Valid() && (output == Work(Signed) || output == Work(Timestamped)) && Lacks(m.tree, {Final})
    requires MadeOk(e0, kind, sha) && Data(e0) == Ok(data) && At(m.tree, output) == Finished(e0, timestamp)
    requires from <= |m.log| && m.log[from..] == Stamping(e0, was, dse, timestamp, sha)
    modifies m`tree, m`history, m`log, m`turn, m`failed
    ensures m.Valid() && Only(old(m.tree), m.tree, {Final})
    ensures old(m.history) <= m.history && old(m.log) <= m.log && (old(m.failed) ==> m.failed)
    ensures e == e0.(final := e.final)
    ensures MadeOk(e, kind, sha)
    ensures r.Ok? ==> m.log[from..] == Reading(e, was, dse, timestamp, sha) && FinalOk(e) && r.value == Blob(e.final)
    ensures r.Throws? ==> m.failed || Refused(e, m.log[from..], kind, dse, timestamp, sha, was)
  {
    hide Machine.Valid, At, MadeOk, DigestOf, Message, Asking, Stamping, HasSigner, ExtractIndirectData, Finished,
         Checking, Data, Attaching;
    e := e0;
    SameStamping(e0, kind, was, dse, timestamp, sha);
    ghost var log := m.log;
    var reply := m.Invoke(ExtractSignature, output, Work(Final));
    e := e.(final := reply);
    SuffixSnoc(log, Ran(ExtractSignature, Finished(e0, timestamp), reply), from);
    if !(reply.Exited? && reply.code == 0) { return Throws, e; }
    var final := m.ReadBlob(Work(Final));
    if final.Throws? { return Throws, e; }
    assert IsBlob(reply) && Blob(reply) == final.value;
    var signer := HasSignerCursor(final.value);
    if signer != Ok(true) { return Throws, e; }
    var signed := ExtractCursor(final.value);
    if signed != Ok(data) { return Throws, e; }
    return Ok(final.value), e;
  }

  /** Recomputes the indirect data of the finished file; it must be what was signed. */
  method Recheck(m: Machine, output: Path, data: Bytes, ghost kind: Kind, dse: bool, ghost timestamp: bool,
                 ghost sha: Hash, ghost from: nat, ghost was: Bytes, ghost e0: Evidence)
    returns (r: Outcome<()>, ghost e: Evidence)
    requires m.Valid() && (output == Work(Signed) || output == Work(Timestamped)) && Lacks(m.tree, {Rechecked})
    requires MadeOk(e0, kind, sha) && Data(e0) == Ok(data) && At(m.tree, output) == Finished(e0, timestamp)
    requires from <= |m.log| && m.log[from..] == Reading(e0, was, dse, timestamp, sha)
    modifies m`tree, m`history, m`log, m`turn, m`failed
    ensures m.Valid() && Only(old(m.tree), m.tree, {Rechecked})
    ensures old(m.history) <= m.history && old(m.log) <= m.log && (old(m.failed) ==> m.failed)
    ensures e == e0.(recheck := e.recheck)
    ensures MadeOk(e, kind, sha)
    ensures r.Ok? ==> m.log[from..] == Checking(e, was, dse, timestamp, sha) && RecheckOk(e)
    ensures r.Throws? ==> m.failed || Refused(e, m.log[from..], kind, dse, timestamp, sha, was)
  {
    hide Machine.Valid, At, MadeOk, DigestOf, Message, Asking, Stamping, ExtractIndirectData, Finished, Data,
         Attaching;
    e := e0;
    SameStamping(e0, kind, was, dse, timestamp, sha);
    ghost var log := m.log;
    var reply := m.Invoke(ExtractData(dse), output, Work(Rechecked));
    e := e.(recheck := reply);
    SuffixSnoc(log, Ran(ExtractData(dse), Finished(e0, timestamp), reply), from);
    if !(reply.Exited? && reply.code == 0) { return Throws, e; }
    var rechecked := m.ReadBlob(Work(Rechecked));
    if rechecked.Throws? { return Throws, e; }
    assert IsBlob(reply) && Blob(reply) == rechecked.value;
    var again := ExtractCursor(rechecked.value);
    if again != Ok(data) { return Throws, e; }
    return Ok(()), e;
  }

  /** Reads the finished file back; both answers must carry the indirect data that was signed. */
  method ConfirmOutput(m: Machine, output: Path, data: Bytes, ghost kind: Kind, dse: bool, ghost timestamp: bool,
                       ghost sha: Hash, ghost from: nat, ghost was: Bytes, ghost e0: Evidence)
    returns (r: Outcome<FileBytes>, ghost e: Evidence)
    requires m.Valid() && (output == Work(Signed) || output == Work(Timestamped)) && Lacks(m.tree, {Final, Rechecked})
    requires MadeOk(e0, kind, sha) && Data(e0) == Ok(data) && At(m.tree, output) == Finished(e0, timestamp)
    requires from <= |m.log| && m.log[from..] == Stamping(e0, was, dse, timestamp, sha)
    modifies m`tree, m`history, m`log, m`turn, m`failed
    ensures m.Valid() && Only(old(m.tree), m.tree, {Final, Rechecked})
    ensures old(m.history) <= m.history && old(m.log) <= m.log && (old(m.failed) ==> m.failed)
    ensures e == e0.(final := e.final, recheck := e.recheck)
    ensures MadeOk(e, kind, sha)
    ensures r.Ok? ==> m.log[from..] == Checking(e, was, dse, timestamp, sha)
    ensures r.Ok? ==> FinalOk(e) && RecheckOk(e) && r.value == Blob(e.final)
    ensures r.Throws? ==> m.failed || Refused(e, m.log[from..], kind, dse, timestamp, sha, was)
  {
    hide Machine.Valid, At, MadeOk, DigestOf, Message, Stamping, Reading, Checking, Refused, HasSigner,
         ExtractIndirectData, Data, Finished;
    var final, e1 := ReadBack(m, output, data, kind, dse, timestamp, sha, from, was, e0);
    e := e1;
    if final.Throws? { return Throws, e; }
    SameStamping(e0, kind, was, dse, timestamp, sha);
    var rechecked;
    rechecked, e := Recheck(m, output, data, kind, dse, timestamp, sha, from, was, e1);
    if rechecked.Throws? { return Throws, e; }
    SameStamping(e1, kind, was, dse, timestamp, sha);
    return final, e;
  }

  lemma SameStamping(e: Evidence, kind: Kind, was: Bytes, dse: bool, timestamp: bool, sha: Hash)
    requires MadeOk(e, kind, sha)
    ensures forall d, f :: var g := e.(final := d, recheck := f);
              && DigestOf(g, sha) == DigestOf(e, sha) && Message(g, sha) == Message(e, sha) && MadeOk(g, kind, sha)
              && Data(g) == Data(e) && Finished(g, timestamp) == Finished(e, timestamp)
              && Stamping(g, was, dse, timestamp, sha) == Stamping(e, was, dse, timestamp, sha)
  {
    hide ProbeOk, ExtractIndirectData, AuthAttrsHash, Assemble, Asking;
    SameAsking(e, kind, was, dse, sha);
  }

  /** Chooses what to sign and obtains the message for it. */
  method PrepareMessage(m: Machine, path: Path, kind: Kind, dse: bool, ghost timestamp: bool, sha: Hash,
                        ghost was: Bytes)
    returns (r: Outcome<(Path, Bytes, FileBytes)>, ghost e: Evidence)
    requires m.Valid() && !path.User? && !path.Work? && At(m.tree, path) == Some(was)
    requires Lacks(m.tree, {Existing, Unsigned, Content})
    modifies m`tree, m`history, m`log, m`turn, m`failed
    ensures m.Valid() && Only(old(m.tree), m.tree, {Existing, Unsigned, Content})
    ensures old(m.history) <= m.history && old(m.log) <= m.log && (old(m.failed) ==> m.failed)
    ensures r.Ok? ==> !r.value.0.User? && (!r.value.0.Work? || r.value.0 == Work(Unsigned))
    ensures r.Ok? ==> MadeOk(e, kind, sha) && m.log[|old(m.log)|..] == Asking(e, was, dse, sha)
    ensures r.Ok? ==> At(m.tree, r.value.0) == Source(e, was)
    ensures r.Ok? ==> Data(e) == Ok(r.value.1) && Message(e, sha) == Ok(r.value.2)
    ensures r.Throws? ==> m.failed || Refused(e, m.log[|old(m.log)|..], kind, dse, timestamp, sha, was)
  {
    hide Machine.Valid, At, ProbeOk, MadeOk, DigestOf, Message, Opening, Asking, Refused, Data;
    var source;
    source, e := ChooseSource(m, path, kind, dse, timestamp, sha, was);
    if source.Throws? { return Throws, e; }
    ghost var e1 := e;
    var made;
    made, e := ObtainMessage(m, source.value, kind, dse, timestamp, sha, |old(m.log)|, was, e1);
    if made.Throws? { return Throws, e; }
    MessageFits(e, sha);
    return Ok((source.value, made.value.0, made.value.1)), e;
  }

  lemma MessageFits(e: Evidence, sha: Hash)
    requires Message(e, sha).Ok?
    ensures |Message(e, sha).value| < TWO_64
  {
    hide Assemble, Data;
  }

  /** The signed file, its path, and the message to dump. */
  method MakeSigned(m: Machine, path: Path, kind: Kind, dse: bool, timestamp: bool, sha: Hash, ghost was: Bytes)
    returns (r: Outcome<(Path, FileBytes)>, ghost e: Evidence)
    requires m.Valid() && !path.User? && !path.Work? && At(m.tree, path) == Some(was) && Lacks(m.tree, AllRoles())
    modifies m`tree, m`history, m`log, m`turn, m`failed
    ensures m.Valid() && Only(old(m.tree), m.tree, AllRoles())
    ensures old(m.history) <= m.history && old(m.log) <= m.log && (old(m.failed) ==> m.failed)
    ensures r.Ok? ==> r.value.0 == Work(Signed) || r.value.0 == Work(Timestamped)
    ensures r.Ok? ==> MadeOk(e, kind, sha) && Succeeded(e.attachment) && (timestamp ==> Succeeded(e.stamp))
    ensures r.Ok? ==> FinalOk(e) && RecheckOk(e) && r.value.1 == Blob(e.final)
    ensures r.Ok? ==> m.log[|old(m.log)|..] == Checking(e, was, dse, timestamp, sha)
    ensures r.Ok? ==> At(m.tree, r.value.0) == Finished(e, timestamp)
    ensures r.Throws? ==> m.failed || Refused(e, m.log[|old(m.log)|..], kind, dse, timestamp, sha, was)
  {
    hide Machine.Valid, At, MadeOk, DigestOf, Message, Asking, Stamping, Checking, Refused, FinalOk, RecheckOk, Data;
    ghost var from := |m.log|;
    var made, e1 := PrepareMessage(m, path, kind, dse, timestamp, sha, was);
    e := e1;
    if made.Throws? { return Throws, e; }
    SameAsking(e1, kind, was, dse, sha);
    var output, e2 := AttachMessage(m, made.value.0, made.value.2, kind, dse, timestamp, sha, from, was, e1);
    e := e2;
    if output.Throws? { return Throws, e; }
    var final;
    final, e := ConfirmOutput(m, output.value, made.value.1, kind, dse, timestamp, sha, from, was, e2);
    if final.Throws? { return Throws, e; }
    return Ok((output.value, final.value)), e;
  }

  /**
   * Signs the file at `path`, which lies outside the user's directories. It installs a file for which the
   * answers given meanwhile are evidence, in full and in order; or it throws, because a platform call failed
   * or an answer was not good, and leaves the file as it was.
   */
  method SignStaged(m: Machine, path: Path, kind: Kind, o: Options, sha: Hash)
    returns (r: Outcome<()>, ghost e: Evidence)
    requires m.Valid() && !path.User? && !path.Work? && At(m.tree, path).Some? && (o.dump == m.dump || o.dump == None)
    modifies m`tree, m`history, m`log, m`turn, m`failed
    ensures m.Valid() && old(m.history) <= m.history && old(m.log) <= m.log && (old(m.failed) ==> m.failed)
    ensures forall q: Path :: !q.Work? && q != path && (q.User? ==> o.dump == None) ==>
              At(m.tree, q) == At(old(m.tree), q)
    ensures r.Ok? ==> At(m.tree, path).Some?
                      && Proves(e, m.log, |old(m.log)|, kind, kind == Msi && o.msiDse, o.timestamp, sha,
                                At(old(m.tree), path).value, At(m.tree, path).value)
    ensures r.Ok? ==> m.log[|old(m.log)|..] ==
                      Checking(e, At(old(m.tree), path).value, kind == Msi && o.msiDse, o.timestamp, sha)
    ensures r.Ok? && o.dump.Some? ==> At(m.tree, User(o.dump.value)) == Some(Blob(e.final))
    ensures r.Throws? ==> At(m.tree, path) == At(old(m.tree), path)
    ensures r.Throws? ==> m.failed || Refused(e, m.log[|old(m.log)|..], kind, kind == Msi && o.msiDse, o.timestamp, sha,
                                              At(old(m.tree), path).value)
  {
    hide Machine.Valid, At, MadeOk, DigestOf, Message, Stamping, FinalOk, RecheckOk, Data, Reading;
    m.Clear(WorkDir);
    ghost var was := At(m.tree, path).value;
    var made, e1 := MakeSigned(m, path, kind, kind == Msi && o.msiDse, o.timestamp, sha, was);
    e := e1;
    r := Throws;
    if made.Ok? {
      r := Install(m, path, made.value.0, made.value.1, o);
    }
    m.Clear(WorkDir);
  }

  /** Dumps the message where asked to, then replaces the file. */
  method Install(m: Machine, path: Path, output: Path, final: FileBytes, o: Options) returns (r: Outcome<()>)
    requires m.Valid() && !path.User? && !path.Work? && output.Work? && (o.dump == m.dump || o.dump == None)
    requires At(m.tree, path).Some?
    modifies m`tree, m`history, m`failed
    ensures m.Valid() && old(m.history) <= m.history && (old(m.failed) ==> m.failed)
    ensures forall q: Path :: !q.Work? && q != path && (q.User? ==> o.dump == None) ==>
              At(m.tree, q) == At(old(m.tree), q)
    ensures if r.Ok? then At(old(m.tree), output).Some? && At(m.tree, path) == At(old(m.tree), output)
            else At(m.tree, path) == At(old(m.tree), path)
    ensures r.Ok? && o.dump.Some? ==> At(m.tree, User(o.dump.value)) == Some(final)
    ensures r.Throws? ==> m.failed || At(old(m.tree), output) == None
  {
    hide Machine.Valid, At;
    if o.dump.Some? {
      var dumped := m.WriteFile(User(o.dump.value), final);
      if !dumped { return Throws; }
    }
    var replaced := m.AtomicReplace(output, path);
    return if replaced then Ok(()) else Throws;
  }

  // ----- payloads

  /** The callback for payloads of an installer: a signed one is preserved, any other is signed. */
  method SignPayloadFile(m: Machine, payload: Path, o: Options, sha: Hash) returns (r: Outcome<bool>, ghost e: Evidence)
    requires m.Valid() && payload.Payload? && At(m.tree, payload).Some?
    modifies m`tree, m`history, m`log, m`turn, m`failed
    ensures m.Valid() && old(m.history) <= m.history && old(m.log) <= m.log && (old(m.failed) ==> m.failed)
    ensures forall q: Path :: !q.Work? && q != payload ==> At(m.tree, q) == At(old(m.tree), q)
    ensures r != Ok(true) ==> At(m.tree, payload) == At(old(m.tree), payload)
    ensures r == Ok(false) ==> HasSignedTable(At(old(m.tree), payload).value)
    ensures r == Ok(true) ==> CertTable(At(old(m.tree), payload).value) == Ok(None)
    ensures r == Ok(true) ==> At(m.tree, payload).Some?
                              && Proves(e, m.log, |old(m.log)|, Pe, false, o.timestamp, sha,
                                        At(old(m.tree), payload).value, At(m.tree, payload).value)
    ensures r.Throws? ==>
              m.failed || PayloadRefused(e, m.log[|old(m.log)|..], o.timestamp, sha, At(old(m.tree), payload).value)
  {
    hide Machine.Valid, At, Proves, HasSignedTable, CertTable, Refused, Checking;
    e := NoEvidence();
    var bytes := m.ReadFile(payload);
    if bytes.Throws? { return Throws, e; }
    var has := PeHasSignature(bytes.value);
    if has.Throws? { return Throws, e; }
    if has.value { return Ok(false), e; }
    var signed;
    signed, e := SignStaged(m, payload, Pe, o.(dump := None, recursive := false), sha);
    return if signed.Ok? then Ok(true) else Throws, e;
  }

  /** The payload is not a readable image, or its signing stopped at an answer that was not good. */
  ghost predicate PayloadRefused(e: Evidence, events: seq<Event>, timestamp: bool, sha: Hash, was: Bytes)
  {
    || !IsReadableImage(was)
    || Refused(e, events, Pe, false, timestamp, sha, was)
  }
}
