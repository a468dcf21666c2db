/**
 * The recursive rewrite (src/msi_recursive.cpp) run on the staged package with the callback of
 * src/signing.cpp.
 */
module PackageRewrite {
  import opened Wire
  import opened Staging
  import opened PayloadJob
  import opened Msi
  import opened MsiSession
  import opened MsiTracking
  import opened MsiRewrite
  import opened MsiOutcome
  import opened PeTable

  /** How the platform opens a package file; the names in a Binary table are a primary key. */
  type Opener = open: Bytes -> Outcome<Db> | forall f :: open(f).Ok? ==> DistinctBytes(open(f).value.binaryNames)
    witness (f: Bytes) => Throws

  /**
   * `now` is the package `was` after a rewrite: every payload has been through the callback, and
   * what was signed is carried through to the rows and streams of the database.
   */
  ghost predicate RewrittenWith(open: Opener, was: Bytes, now: Bytes, job: Job, log: seq<Event>, hash: FileHash,
                                original: map<nat, Bytes>, payloads: map<nat, Bytes>, changed: set<nat>)
  {
    && open(was).Ok? && Preflightable(open(was).value) && IsExtract(open(was).value, original)
    && (forall p: nat :: p < PayloadCount(open(was).value) ==> TreatedAt(job, log, original, payloads, changed, p))
    && if changed == {} then now == was
       else open(now).Ok? && CarriesThrough(open(was).value, open(now).value, payloads, changed, hash)
  }

  ghost predicate Rewritten(open: Opener, was: Bytes, now: Bytes, job: Job, log: seq<Event>, hash: FileHash)
  {
    exists original, payloads, changed :: RewrittenWith(open, was, now, job, log, hash, original, payloads, changed)
  }

  /** Why a rewrite threw: the package cannot be opened or is not acceptable, or for the session's reason. */
  ghost predicate RewriteDeclined(open: Opener, was: Bytes, m: Machine, s: Session?)
    reads s, m, if s == null then {} else {s.machine}
  {
    || open(was).Throws?
    || !Preflightable(open(was).value)
    || (s != null && s.machine == m && Blamed(s, CabsOf(open(was).value), PayloadCount(open(was).value)))
  }

  /** The recursive rewrite of the staged package, with the signing callback. */
  method RewriteStaged(m: Machine, job: Job, hash: FileHash, open: Opener)
    returns (r: Outcome<()>, ghost session: Session?)
    requires m.Valid() && At(m.tree, Staged).Some?
    modifies m`tree, m`history, m`log, m`turn, m`failed
    ensures m.Valid() && old(m.history) <= m.history && old(m.log) <= m.log
    ensures r.Throws? ==> At(m.tree, Staged) == At(old(m.tree), Staged)
    ensures r.Throws? ==> m.failed || RewriteDeclined(open, At(old(m.tree), Staged).value, m, session)
    ensures r.Ok? ==> At(m.tree, Staged).Some?
                      && Rewritten(open, At(old(m.tree), Staged).value, At(m.tree, Staged).value, job, m.log, hash)
  {
    hide Machine.Valid, At, Preflightable, CabsOf, RewrittenWith, Blamed;
    session := null;
    ghost var was := At(m.tree, Staged).value;
    var file := m.ReadFile(Staged);
    if file.Throws? { return Throws, session; }
    var db := open(file.value);
    if db.Throws? { return Throws, session; }
    var changed, s := RewriteDb(m, db.value, job, hash, open, was);
    session := s;
    if changed.Throws? { return Throws, session; }
    if changed.value {
      var written: FileBytes := *;
      if open(written) != Ok(s.committed) {
        m.Fail();
        return Throws, session;
      }
      m.Put(Staged, written);
      assert RewrittenWith(open, was, written, job, m.log, hash, s.original, s.payloads, s.changed);
    }
    return Ok(()), session;
  }

  /** The rewrite of the opened database. */
  method RewriteDb(m: Machine, db: Db, job: Job, hash: FileHash, ghost open: Opener, ghost was: Bytes)
    returns (r: Outcome<bool>, s: Session)
    requires m.Valid() && open(was) == Ok(db)
    modifies m`tree, m`history, m`log, m`turn, m`failed
    ensures m.Valid() && old(m.history) <= m.history && old(m.log) <= m.log
    ensures fresh(s) && s.machine == m && At(m.tree, Staged) == At(old(m.tree), Staged)
    ensures r.Throws? ==> m.failed || !Preflightable(db) || Blamed(s, CabsOf(db), PayloadCount(db))
    ensures r == Ok(false) ==> RewrittenWith(open, was, was, job, m.log, hash, s.original, s.payloads, s.changed)
    ensures r == Ok(true) ==> forall now :: open(now) == Ok(s.committed) ==>
              RewrittenWith(open, was, now, job, m.log, hash, s.original, s.payloads, s.changed)
  {
    hide Machine.Valid, At, Preflightable, CarriesThrough, Progress, IsExtract, TreatedAt, PayloadCount, Blamed,
         CabsOf, Kept, Balanced, Accounted;
    assert DistinctBytes(db.binaryNames);
    s := new Session(db, m, Some(job));
    var counts := Rewrite(s, hash);
    if counts.Throws? {
      if s.failed { m.Fail(); }
      return Throws, s;
    }
    AllTreated(job, m.log, s.original, s.payloads, s.changed, PayloadCount(db));
    return Ok(counts.value.signedFiles > 0), s;
  }

  /** Later answers take nothing away. */
  lemma RewrittenGrows(open: Opener, was: Bytes, now: Bytes, job: Job, a: seq<Event>, b: seq<Event>, hash: FileHash)
    requires Rewritten(open, was, now, job, a, hash) && a <= b
    ensures Rewritten(open, was, now, job, b, hash)
  {
    hide Preflightable, CarriesThrough, IsExtract, TreatedAt, PayloadCount;
    var original, payloads, changed :| RewrittenWith(open, was, now, job, a, hash, original, payloads, changed);
    forall p: nat | p < PayloadCount(open(was).value) ensures TreatedAt(job, b, original, payloads, changed, p) {
      TreatedGrows(job, a, b, original, payloads, changed, p);
    }
    assert RewrittenWith(open, was, now, job, b, hash, original, payloads, changed);
  }

  lemma AllTreated(job: Job, log: seq<Event>, original: map<nat, Bytes>, payloads: map<nat, Bytes>, changed: set<nat>,
                   n: nat)
    requires Progress(Some(job), log, original, payloads, changed, n, n)
    ensures forall p: nat :: p < n ==> TreatedAt(job, log, original, payloads, changed, p)
  {
  }

  /**
   * After a rewrite that signed something, no image in the Binary table is left unsigned: each one was
   * signed in this run, with evidence, or stands as it was because it carries a signature already.
   */
  lemma BinaryImagesAreSigned(open: Opener, was: Bytes, now: Bytes, job: Job, log: seq<Event>, hash: FileHash,
                              original: map<nat, Bytes>, payloads: map<nat, Bytes>, changed: set<nat>, j: nat)
    requires RewrittenWith(open, was, now, job, log, hash, original, payloads, changed) && changed != {}
    requires j < |open(was).value.binaryNames|
    ensures var n := open(was).value.binaryNames[j];
            && n in open(was).value.binaries && n in open(now).value.binaries
            && var before, after := open(was).value.binaries[n], open(now).value.binaries[n];
            && (!PeCandidate(before) ==> after == before)
            && (PeCandidate(before) ==> SignedBy(job, log, before, after) || (after == before && HasSignedTable(after)))
  {
    hide Preflightable, CabsOf, Flat, CarriesThrough, SignedBy, HasSignedTable;
    var base := open(was).value;
    var p := |MembersOf(base)| + j;
    CommittedBinaries(base, open(now).value, payloads, changed, hash, j);
    assert TreatedAt(job, log, original, payloads, changed, p);
    assert original[p] == base.binaries[base.binaryNames[p - |MembersOf(base)|]];
  }

  /** The same for cabinet members: each payload behind a File row was signed, kept as signed, or is no image. */
  lemma MemberImagesAreSigned(open: Opener, was: Bytes, now: Bytes, job: Job, log: seq<Event>, hash: FileHash,
                              original: map<nat, Bytes>, payloads: map<nat, Bytes>, changed: set<nat>, i: nat, p: nat)
    requires RewrittenWith(open, was, now, job, log, hash, original, payloads, changed) && changed != {}
    requires IsRowOf(open(was).value.files, MembersOf(open(was).value), i, p)
    ensures p in original && p in payloads && i < |open(now).value.files|
    ensures Value(open(was).value.files[i].size) == |original[p]|
            && Value(open(now).value.files[i].size) == |payloads[p]|
    ensures !PeCandidate(original[p]) ==> payloads[p] == original[p]
    ensures PeCandidate(original[p]) ==>
              || SignedBy(job, log, original[p], payloads[p])
              || (payloads[p] == original[p] && HasSignedTable(payloads[p]))
  {
    hide Preflightable, CabsOf, Flat, CarriesThrough, SignedBy, HasSignedTable;
    var base := open(was).value;
    SizesFollowPayloads(base, open(now).value, payloads, changed, hash, i, p);
    var q := EveryRowHasOneMember(base, i);
    assert TreatedAt(job, log, original, payloads, changed, p);
  }
}
