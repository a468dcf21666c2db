/**
 * `rewrite_msi_payload` after its preflight (src/msi_recursive.cpp): sign payloads one by one,
 * rebuild changed cabinets, update rows, commit once.
 */
module MsiRewrite {
  import opened Wire
  import opened Cabinet
  import opened CabinetMetadata
  import opened Msi
  import opened MsiPreflight
  import opened MsiSession
  import opened MsiTracking
  import opened PayloadJob
  import opened PeTable
  import Staging
  import Transcripts
  import StagedSigning

  ghost function SnapOf(s: Session): Snap
    reads s
  {
    Snap(s.pending, s.payloads, s.changed)
  }

  // ----- why a run throws

  /** The callback in use threw for this payload because of the platform or of an answer. */
  ghost predicate CallbackBlamed(job: Option<Job>, failed: bool, log: seq<Staging.Event>, was: Bytes)
  {
    job.Some? ==> failed || exists e, from :: JobRefused(job.value, e, log, from, was)
  }

  ghost predicate JobRefused(job: Job, e: Transcripts.Evidence, log: seq<Staging.Event>, from: nat, was: Bytes)
  {
    from <= |log| && StagedSigning.PayloadRefused(e, log[from..], job.options.timestamp, job.sha, was)
  }

  /** `output` names the members in order, with the sizes of their payload files. */
  ghost predicate IsRebuild(output: Bytes, ms: seq<Member>, payloads: map<nat, Bytes>)
  {
    && |output| < TWO_64 && (forall m :: m in ms ==> m.path in payloads)
    && HasHeader(output, |ms|) && Matches(output, Le32(output, 16), ms, Sizes(ms, payloads))
  }

  /** The reason recorded for a throw is a reason. */
  ghost predicate Blamed(s: Session, cabs: seq<Cab>, n: nat)
    reads s, s.machine
  {
    match s.reason
    case NoReason => false
    case CallbackThrew(p) =>
      && p < n && p in s.original && p !in s.changed && PeCandidate(s.original[p])
      && CallbackBlamed(s.job, s.machine.failed, s.machine.log, s.original[p])
    case TooLarge(p) =>
      && p < n && p in s.original && p in s.payloads && p !in s.changed
      && s.expanded - |s.original[p]| + |s.payloads[p]| > EXPANSION_LIMIT
    case BadRebuild(cab, output) =>
      cab in cabs && CabChanged(cab, s.changed) && !IsRebuild(output, cab.members, s.payloads)
  }

  // ----- the callback

  /**
   * The signer callback: it may throw, and it may write its own payload. Answering false means
   * that it preserved the payload. With a job it is the callback of src/signing.cpp.
   */
  method SignIfUnsigned(s: Session, path: nat) returns (r: Outcome<bool>)
    requires path in s.payloads && |s.payloads[path]| <= EXPANSION_LIMIT && s.Quiet()
    modifies s`payloads, s`calls, s.machine`tree, s.machine`history, s.machine`log, s.machine`turn, s.machine`failed
    ensures r.Throws? ==> CallbackBlamed(s.job, s.machine.failed, s.machine.log, old(s.payloads)[path])
    ensures s.Quiet() && s.calls == old(s.calls) + 1 && old(s.machine.log) <= s.machine.log
    ensures path in s.payloads && s.payloads == old(s.payloads)[path := s.payloads[path]]
    ensures r == Ok(false) ==> s.payloads == old(s.payloads)
    ensures s.job.Some? && r == Ok(false) ==> HasSignedTable(s.payloads[path])
    ensures s.job.Some? && r == Ok(true) ==>
              SignedBy(s.job.value, s.machine.log, old(s.payloads)[path], s.payloads[path])
  {
    s.calls := s.calls + 1;
    if s.job.Some? {
      r := SignWithJob(s, path, s.job.value);
      return;
    }
    var bytes: Bytes := *;
    var throws: bool, signs: bool := *, *;
    if !throws && !signs { return Ok(false); }
    s.payloads := s.payloads[path := bytes];
    return if throws then Throws else Ok(true);
  }

  /** The callback of src/signing.cpp, on the payload's file. */
  method SignWithJob(s: Session, path: nat, job: Job) returns (r: Outcome<bool>)
    requires path in s.payloads && |s.payloads[path]| <= EXPANSION_LIMIT && s.Quiet()
    modifies s`payloads, s.machine`tree, s.machine`history, s.machine`log, s.machine`turn, s.machine`failed
    ensures s.Quiet() && old(s.machine.log) <= s.machine.log
    ensures r.Throws? ==>
              s.machine.failed || exists e, from :: JobRefused(job, e, s.machine.log, from, old(s.payloads)[path])
    ensures path in s.payloads && s.payloads == old(s.payloads)[path := s.payloads[path]]
    ensures r == Ok(false) ==> s.payloads == old(s.payloads) && HasSignedTable(s.payloads[path])
    ensures r == Ok(true) ==> SignedBy(job, s.machine.log, old(s.payloads)[path], s.payloads[path])
  {
    hide Staging.Machine.Valid, Staging.At, Transcripts.Proves, HasSignedTable, CertTable,
         StagedSigning.PayloadRefused;
    var file := Staging.Payload(path);
    ghost var was, log := s.payloads[path], s.machine.log;
    s.machine.Put(file, s.payloads[path]);
    var answer, e := StagedSigning.SignPayloadFile(s.machine, file, job.options, job.sha);
    s.payloads := s.payloads[path := Staging.At(s.machine.tree, file).value];
    assert answer != Ok(true) ==> s.payloads == old(s.payloads);
    if answer.Throws? && !s.machine.failed { assert JobRefused(job, e, s.machine.log, |log|, was); }
    return answer;
  }

  lemma StillOriginal(original: map<nat, Bytes>, payloads: map<nat, Bytes>, changed: set<nat>, n: nat, first: nat,
                      expanded: nat, path: nat)
    requires Balanced(original, payloads, changed, n, first, expanded) && path < n && path !in changed
    ensures path in original && path in payloads && payloads[path] == original[path]
  {
  }

  lemma PayloadCovered(payloads: map<nat, Bytes>, n: nat, path: nat, expanded: nat)
    requires Accounted(payloads, n, expanded) && path < n
    ensures path in payloads && |payloads[path]| <= expanded <= EXPANSION_LIMIT
  {
    PayloadBound(payloads, n, path);
  }

  /** Replacing one payload: the total covers it, and stays right when the new size is exchanged for the old. */
  lemma AccountedUpdate(was: map<nat, Bytes>, now: map<nat, Bytes>, n: nat, path: nat, expanded: nat)
    requires Accounted(was, n, expanded) && path < n && path in was && path in now && now == was[path := now[path]]
    ensures |was[path]| <= expanded <= EXPANSION_LIMIT
    ensures |now[path]| <= EXPANSION_LIMIT - (expanded - |was[path]|) ==>
            Accounted(now, n, expanded - |was[path]| + |now[path]|)
  {
    TotalUpdate(was, n, path, now[path]);
  }

  /**
   * The `sign` lambda. The total is never less than the payload it is about to replace, so none of
   * its subtractions wraps, and it keeps covering all payloads within the limit.
   */
  method SignPayload(s: Session, path: nat, ghost cabs: seq<Cab>, ghost n: nat, ghost first: nat)
    returns (r: Outcome<bool>)
    requires path < n && Accounted(s.payloads, n, s.expanded) && path !in s.changed && s.Quiet()
    requires Progress(s.job, s.machine.log, s.original, s.payloads, s.changed, path, n)
    requires Balanced(s.original, s.payloads, s.changed, n, first, s.expanded)
    requires s.preservedFiles == |Kept(s.original, s.changed, path)|
    modifies s`payloads, s`calls, s`expanded, s`changed, s`signedFiles, s`preservedFiles, s`failed, s`reason
    modifies s.machine`tree, s.machine`history, s.machine`log, s.machine`turn, s.machine`failed
    ensures r == Ok(true) ==> path in s.payloads && s.payloads == old(s.payloads)[path := s.payloads[path]]
    ensures r == Ok(true) ==> s.changed == old(s.changed) + {path} && s.signedFiles == old(s.signedFiles) + 1
    ensures r == Ok(false) ==> s.payloads == old(s.payloads)
    ensures r == Ok(false) ==> s.changed == old(s.changed) && s.signedFiles == old(s.signedFiles)
    ensures r.Ok? ==> Accounted(s.payloads, n, s.expanded) && |s.payloads[path]| <= EXPANSION_LIMIT
    ensures s.Quiet() && (r.Ok? ==> Progress(s.job, s.machine.log, s.original, s.payloads, s.changed, path + 1, n))
    ensures r.Ok? ==> Balanced(s.original, s.payloads, s.changed, n, first, s.expanded)
    ensures r.Ok? ==> s.preservedFiles == |Kept(s.original, s.changed, path + 1)|
    ensures r.Throws? ==> s.failed || Blamed(s, cabs, n)
    ensures s.calls >= old(s.calls) && (r == Ok(true) ==> s.calls > 0) && (r.Throws? ==> s.failed || s.calls > 0)
  {
    hide Progress, SignedBy, HasSignedTable, Staging.Machine.Valid, Staging.At, Accounted, Balanced, Kept,
         CallbackBlamed, IsRebuild;
    PayloadCovered(s.payloads, n, path, s.expanded);
    StillOriginal(s.original, s.payloads, s.changed, n, first, s.expanded, path);
    ghost var was, before, log := s.payloads, s.changed, s.machine.log;
    var readable := s.Platform();
    if !readable { return Throws; }
    if !PeCandidate(s.payloads[path]) {
      assert was == was[path := was[path]];
      ProgressStep(s.job, log, log, s.original, was, was, before, false, path, n);
      KeptStep(s.original, before, false, path);
      return Ok(false);
    }
    var size: u64 := |s.payloads[path]|;
    var answer := SignIfUnsigned(s, path);
    if answer.Throws? { s.reason := CallbackThrew(path); return Throws; }
    KeptStep(s.original, before, answer.value, path);
    ProgressStep(s.job, log, s.machine.log, s.original, was, s.payloads, before, answer.value, path, n);
    if !answer.value { s.preservedFiles := s.preservedFiles + 1; return Ok(false); }
    var counted :- CountSigned(s, path, size, was, cabs, n, first);
    return Ok(true);
  }

  /** Exchanges a signed payload's size in the total, unless that goes over the limit. */
  method CountSigned(s: Session, path: nat, before: u64, ghost was: map<nat, Bytes>, ghost cabs: seq<Cab>,
                     ghost n: nat, ghost first: nat)
    returns (r: Outcome<()>)
    requires path < n && path in was && path in s.payloads && s.payloads == was[path := s.payloads[path]]
    requires |was[path]| == before && path !in s.changed && path in s.original && was[path] == s.original[path]
    requires Accounted(was, n, s.expanded) && Balanced(s.original, was, s.changed, n, first, s.expanded)
    modifies s`expanded, s`changed, s`signedFiles, s`reason
    ensures r.Ok? ==> s.changed == old(s.changed) + {path} && s.signedFiles == old(s.signedFiles) + 1
    ensures r.Ok? ==> Accounted(s.payloads, n, s.expanded) && |s.payloads[path]| <= EXPANSION_LIMIT
    ensures r.Ok? ==> Balanced(s.original, s.payloads, s.changed, n, first, s.expanded)
    ensures r.Throws? ==> Blamed(s, cabs, n)
  {
    hide Accounted, Balanced, CallbackBlamed, IsRebuild;
    AccountedUpdate(was, s.payloads, n, path, s.expanded);
    BalancedStep(s.original, was, s.payloads, s.changed, n, first, s.expanded, path);
    var others: u64 := s.expanded - before;
    var room: u64 := EXPANSION_LIMIT - others;
    if |s.payloads[path]| > room { s.reason := TooLarge(path); return Throws; }
    s.expanded := s.expanded - before + |s.payloads[path]|;
    s.changed := s.changed + {path};
    s.signedFiles := s.signedFiles + 1;
    return Ok(());
  }

  // ----- one member

  /** What every step of the signing phase needs and keeps. */
  ghost predicate Ready(base: Db, plan: Plan, s: Session)
    reads s, s.machine
  {
    && Preflightable(base) && plan.cabs == CabsOf(base) && IsFileMap(plan.files, base.files)
    && AreHashed(plan.hashed, base.hashes)
    && DistinctMembers(MembersOf(base)) && Accounted(s.payloads, PayloadCount(base), s.expanded)
    && Balanced(s.original, s.payloads, s.changed, PayloadCount(base), ExpandedOf(base), s.expanded)
    && s.signedFiles == |s.changed| && (s.changed != {} ==> s.calls > 0) && s.Quiet()
  }

  /** The pending database and the callback have both come as far as payload `next`. */
  ghost predicate InStep(base: Db, plan: Plan, s: Session, next: nat, done: nat, bins: nat, hash: FileHash)
    requires Preflightable(base)
    reads s, s.machine
  {
    && Tracks(base, plan.cabs, SnapOf(s), next, done, bins, hash)
    && Progress(s.job, s.machine.log, s.original, s.payloads, s.changed, next, PayloadCount(base))
    && s.preservedFiles == |Kept(s.original, s.changed, next)|
  }

  lemma MemberHasRow(base: Db, plan: Plan, p: nat)
    requires Preflightable(base) && IsFileMap(plan.files, base.files) && p < |MembersOf(base)|
    ensures MembersOf(base)[p].name in plan.files
    ensures forall i :: 0 <= i < |base.files| && base.files[i].key == MembersOf(base)[p].name ==>
              base.files[i].version == plan.files[MembersOf(base)[p].name].version
  {
    hide InspectFrom, BinariesFrom, MediaOk, HashesOk, FilesOk;
    var cabs := CabsOf(base);
    var m := MembersOf(base)[p];
    var c := MemberOfCab(cabs, m);
    assert CabMaps(c, base.files) && Maps(m, c, base.files);
    var i :| 0 <= i < |base.files| && base.files[i].key == m.name;
    forall k | 0 <= k < |base.files| && base.files[k].key == m.name
      ensures base.files[k].version == plan.files[m.name].version
    {
      assert plan.files[base.files[k].key] == Info(base.files[k]);
    }
  }

  lemma {:induction false} MemberOfCab(cabs: seq<Cab>, m: Member) returns (c: Cab)
    requires m in Flat(cabs)
    ensures c in cabs && m in c.members
  {
    if m in cabs[0].members { c := cabs[0]; } else { c := MemberOfCab(cabs[1..], m); }
  }

  lemma HasHashRow(files: set<Bytes>, rows: seq<HashRow>, name: Bytes)
    requires AreHashed(files, rows)
    ensures name in files <==> exists i :: 0 <= i < |rows| && rows[i].file == name
  {
  }

  lemma TracksNext(base: Db, cabs: seq<Cab>, x: Snap, next: nat, later: nat, done: nat, bins: nat, hash: FileHash)
    requires Tracks(base, cabs, x, next, done, bins, hash) && next <= later
    ensures Tracks(base, cabs, x, later, done, bins, hash)
  {
  }

  /** The rows after a signed member: its size, and its hash when it has one and no version. */
  function MemberUpdate(db: Db, name: Bytes, size: int32, rehash: bool, parts: seq<int32>): Db
  {
    db.(files := SetSize(db.files, name, size), hashes := if rehash then SetHash(db.hashes, name, parts) else db.hashes)
  }

  lemma {:induction false} MemberSigned(base: Db, cabs: seq<Cab>, x: Snap, y: Snap, p: nat, done: nat, version: Bytes,
                                        hashed: bool, hash: FileHash)
    requires Tracks(base, cabs, x, p, done, 0, hash) && done <= |cabs| && p < |Flat(cabs)|
             && DistinctMembers(Flat(cabs))
    requires y.changed == x.changed + {p} && p in y.payloads && y.payloads == x.payloads[p := y.payloads[p]]
    requires |y.payloads[p]| <= EXPANSION_LIMIT
    requires forall i :: 0 <= i < |base.files| && base.files[i].key == Flat(cabs)[p].name ==>
             base.files[i].version == version
    requires hashed <==> exists h :: 0 <= h < |base.hashes| && base.hashes[h].file == Flat(cabs)[p].name
    requires y.db == MemberUpdate(x.db, Flat(cabs)[p].name, |y.payloads[p]|,
                                  hashed && version == [], hash(y.payloads[p]))
    requires forall i, k :: 0 <= i < done && 0 <= k < |cabs[i].members| ==> cabs[i].members[k].path != p
    ensures Tracks(base, cabs, y, p + 1, done, 0, hash)
  {
    hide RowsTrack, HashesTrack, StreamsTrack, BinariesTrack, Flat, SetSize, DistinctMembers;
    var ms := Flat(cabs);
    RowsStep(base, ms, x, y, p);
    if version == [] && !hashed {
      NoSuchHash(x.db.hashes, ms[p].name, hash(y.payloads[p]));
    }
    HashesStep(base, ms, x, y, p, version, hash);
    StreamsKeep(base, cabs, x, y, done, p);
    BinariesKeep(base, |ms|, x, y, 0, p);
    assert SameElsewhere(base, y.db);
  }

  lemma NoSuchHash(rows: seq<HashRow>, name: Bytes, parts: seq<int32>)
    requires forall h :: 0 <= h < |rows| ==> rows[h].file != name
    ensures SetHash(rows, name, parts) == rows
  {
  }

  lemma EarlierCabs(base: Db, ci: nat, p: nat)
    requires Preflightable(base) && ci <= |CabsOf(base)| && p >= CabStart(CabsOf(base), ci)
    ensures forall i, k :: 0 <= i < ci && 0 <= k < |CabsOf(base)[i].members| ==> CabsOf(base)[i].members[k].path != p
  {
    hide Preflightable, CabsOf, CabStart;
    var cabs := CabsOf(base);
    forall i, k | 0 <= i < ci && 0 <= k < |cabs[i].members| ensures cabs[i].members[k].path != p {
      MemberPath(base, i, k);
      CabStartStep(cabs, i);
      CabStartGrows(cabs, i + 1, ci);
    }
  }

  /** Signs one cabinet member and brings its rows up to date. */
  method SignMember(s: Session, plan: Plan, m: Member, hash: FileHash, ghost base: Db, ghost ci: nat, ghost mi: nat)
    returns (r: Outcome<bool>)
    requires Ready(base, plan, s) && ci < |plan.cabs| && mi < |plan.cabs[ci].members| && m == plan.cabs[ci].members[mi]
    requires InStep(base, plan, s, CabStart(plan.cabs, ci) + mi, ci, 0, hash)
    modifies s`payloads, s`calls, s`expanded, s`changed, s`signedFiles, s`preservedFiles, s`pending, s`failed, s`reason
    modifies s.machine`tree, s.machine`history, s.machine`log, s.machine`turn, s.machine`failed
    ensures s.Quiet()
    ensures r.Ok? ==> Ready(base, plan, s) && m.path == CabStart(plan.cabs, ci) + mi
    ensures r.Ok? ==> InStep(base, plan, s, CabStart(plan.cabs, ci) + mi + 1, ci, 0, hash)
    ensures r.Throws? ==> s.failed || s.calls > 0
    ensures r.Throws? ==> s.failed || Blamed(s, plan.cabs, PayloadCount(base))
    ensures r.Ok? ==> r.value == (m.path in s.changed)
    ensures r.Ok? ==> s.changed == if r.value then old(s.changed) + {m.path} else old(s.changed)
  {
    hide Preflightable, CabsOf, Tracks, CabStart, IsFileMap, Progress, Kept, Blamed, Balanced, ExpandedOf, AreHashed,
         Staging.Machine.Valid, Staging.At, DistinctMembers, Accounted, MemberUpdate, Flat;
    ghost var p := CabStart(plan.cabs, ci) + mi;
    MemberPath(base, ci, mi);
    NotYetSigned(base, plan.cabs, SnapOf(s), p, ci, 0, hash);
    ghost var x := SnapOf(s);
    var signed := SignPayload(s, m.path, plan.cabs, PayloadCount(base), ExpandedOf(base));
    if signed.Throws? { return Throws; }
    if !signed.value {
      TracksNext(base, plan.cabs, x, p, p + 1, ci, 0, hash);
      return Ok(false);
    }
    MemberHasRow(base, plan, p);
    HasHashRow(plan.hashed, base.hashes, m.name);
    var updated :- UpdateRows(s, plan, m, hash);
    EarlierCabs(base, ci, p);
    MemberSigned(base, plan.cabs, x, SnapOf(s), p, ci, plan.files[m.name].version, m.name in plan.hashed, hash);
    return Ok(true);
  }

  /** Writes the new size, and the new hash of a file without a version. */
  method UpdateRows(s: Session, plan: Plan, m: Member, hash: FileHash) returns (r: Outcome<()>)
    requires m.path in s.payloads && |s.payloads[m.path]| <= EXPANSION_LIMIT && m.name in plan.files
    modifies s`pending, s`failed
    ensures r.Throws? ==> s.failed
    ensures r.Ok? ==> s.failed == old(s.failed)
    ensures r.Ok? ==> s.pending == MemberUpdate(old(s.pending), m.name, |s.payloads[m.path]|,
                                                m.name in plan.hashed && plan.files[m.name].version == [],
                                                hash(s.payloads[m.path]))
  {
    var size: u64 := |s.payloads[m.path]|;
    assert size < 0x8000_0000;   // the FileSize range check cannot fail
    var updated := s.Platform();
    if !updated { return Throws; }
    s.pending := s.pending.(files := SetSize(s.pending.files, m.name, size));
    if m.name in plan.hashed && plan.files[m.name].version == [] {
      var hashed := s.Platform();
      if !hashed { return Throws; }
      s.pending := s.pending.(hashes := SetHash(s.pending.hashes, m.name, hash(s.payloads[m.path])));
    }
    return Ok(());
  }

  lemma NotYetSigned(base: Db, cabs: seq<Cab>, x: Snap, p: nat, done: nat, bins: nat, hash: FileHash)
    requires Tracks(base, cabs, x, p, done, bins, hash)
    ensures p !in x.changed
  {
  }

  // ----- one cabinet

  lemma CabNamesDiffer(base: Db, i: nat, j: nat)
    requires Preflightable(base) && i < j < |CabsOf(base)|
    ensures CabsOf(base)[i].name != CabsOf(base)[j].name
  {
    hide InspectFrom, BinariesFrom, FilesOk, HashesOk, MappingOk, LayoutOf, Members;
    CabAt(base, 0, 0, 0, i);
    CabAt(base, 0, 0, 0, j);
    assert MediaAt(base.media, i) && MediaAt(base.media, j);
    assert base.media[i].cabinet == [0x23] + CabName(base.media[i])
           && base.media[j].cabinet == [0x23] + CabName(base.media[j]);
  }

  lemma CabinetFinished(base: Db, cabs: seq<Cab>, x: Snap, y: Snap, ci: nat)
    requires StreamsTrack(base, cabs, x, ci) && ci < |cabs|
    requires forall i, j :: 0 <= i < j < |cabs| ==> cabs[i].name != cabs[j].name
    requires y.payloads == x.payloads && y.changed == x.changed
    requires if CabChanged(cabs[ci], x.changed)
             then cabs[ci].name in y.db.streams && Rebuilt(y.db.streams[cabs[ci].name], cabs[ci].members, x.payloads)
                  && y.db.streams == x.db.streams[cabs[ci].name := y.db.streams[cabs[ci].name]]
             else y.db.streams == x.db.streams
    ensures StreamsTrack(base, cabs, y, ci + 1)
  {
    hide Rebuilt, CabChanged;
    forall i | 0 <= i < |cabs| ensures StreamFollows(base, cabs[i], y, i < ci + 1) {
      assert StreamFollows(base, cabs[i], x, i < ci);
      if i < ci { assert cabs[i].name != cabs[ci].name; }
      if i > ci { assert cabs[ci].name != cabs[i].name; }
    }
    assert StreamFollows(base, cabs[ci], x, false);
    forall n | n in base.streams && !NamesCab(cabs, n) ensures y.db.streams[n] == base.streams[n] {
      assert cabs[ci].name != n;
    }
  }

  /** Rebuilds a cabinet from its payload files and restores its metadata. */
  method RebuildCabinet(s: Session, cab: Cab) returns (r: Outcome<Bytes>)
    requires forall m :: m in cab.members ==> m.path in s.payloads
    modifies s`failed, s`reason
    ensures r.Ok? ==> Rebuilt(r.value, cab.members, s.payloads)
    ensures r.Throws? ==> s.failed || (s.reason.BadRebuild? && s.reason.cab == cab
                                       && !IsRebuild(s.reason.output, cab.members, s.payloads))
  {
    var created := s.Platform();
    if !created { return Throws; }
    var output: Bytes := *;
    s.reason := BadRebuild(cab, output);
    if |output| >= TWO_64 { return Throws; }
    var file := new byte[|output|](i requires 0 <= i < |output| => output[i]);
    assert file[..] == output;
    var kept := PreserveMetadata(file, cab.members, Sizes(cab.members, s.payloads));
    if !kept { return Throws; }
    s.reason := NoReason;
    assert RebuiltFrom(output, file[..], cab.members, s.payloads);
    return Ok(file[..]);
  }

  lemma MembersArePayloads(base: Db, ci: nat, payloads: map<nat, Bytes>, m: Member)
    requires Preflightable(base) && ci < |CabsOf(base)| && m in CabsOf(base)[ci].members
    requires forall p: nat :: p < PayloadCount(base) ==> p in payloads
    ensures m.path in payloads
  {
    hide Preflightable, CabsOf, CabStart;
    var k :| 0 <= k < |CabsOf(base)[ci].members| && CabsOf(base)[ci].members[k] == m;
    MemberPath(base, ci, k);
  }

  /** The loop over one cabinet's members. */
  method SignMembers(s: Session, plan: Plan, hash: FileHash, ghost base: Db, ci: nat) returns (r: Outcome<bool>)
    requires Ready(base, plan, s) && ci < |plan.cabs|
    requires InStep(base, plan, s, CabStart(plan.cabs, ci), ci, 0, hash)
    modifies s`payloads, s`calls, s`expanded, s`changed, s`signedFiles, s`preservedFiles, s`pending, s`failed, s`reason
    modifies s.machine`tree, s.machine`history, s.machine`log, s.machine`turn, s.machine`failed
    ensures s.Quiet()
    ensures r.Ok? ==> Ready(base, plan, s) && r.value == CabChanged(plan.cabs[ci], s.changed)
    ensures r.Ok? ==> InStep(base, plan, s, CabStart(plan.cabs, ci + 1), ci, 0, hash)
    ensures r.Throws? ==> s.failed || s.calls > 0
    ensures r.Throws? ==> s.failed || Blamed(s, plan.cabs, PayloadCount(base))
  {
    hide Preflightable, CabsOf, Tracks, CabStart, IsFileMap, Progress, Kept, Blamed, Balanced, ExpandedOf, AreHashed,
         Staging.Machine.Valid, Staging.At, DistinctMembers, Accounted;
    var cab := plan.cabs[ci];
    var changed := false;
    for k := 0 to |cab.members|
      invariant Ready(base, plan, s)
      invariant InStep(base, plan, s, CabStart(plan.cabs, ci) + k, ci, 0, hash)
      invariant changed == exists j :: 0 <= j < k && cab.members[j].path in s.changed
    {
      ghost var before := s.changed;
      ghost var p := CabStart(plan.cabs, ci);
      forall j | 0 <= j < k ensures cab.members[j].path == p + j { MemberPath(base, ci, j); }
      var signed :- SignMember(s, plan, cab.members[k], hash, base, ci, k);
      assert forall j :: 0 <= j < k ==> (cab.members[j].path in s.changed <==> cab.members[j].path in before);
      if signed { changed := true; }
    }
    CabStartStep(plan.cabs, ci);
    return Ok(changed);
  }

  /** One cabinet: its members, and its rebuild when one of them was signed. */
  method SignCabinet(s: Session, plan: Plan, hash: FileHash, ghost base: Db, ci: nat) returns (r: Outcome<()>)
    requires Ready(base, plan, s) && ci < |plan.cabs|
    requires InStep(base, plan, s, CabStart(plan.cabs, ci), ci, 0, hash)
    modifies s`payloads, s`calls, s`expanded, s`changed, s`signedFiles, s`preservedFiles, s`pending, s`failed, s`reason
    modifies s.machine`tree, s.machine`history, s.machine`log, s.machine`turn, s.machine`failed
    ensures s.Quiet()
    ensures r.Ok? ==> Ready(base, plan, s)
    ensures r.Ok? ==> InStep(base, plan, s, CabStart(plan.cabs, ci + 1), ci + 1, 0, hash)
    ensures r.Throws? ==> s.failed || s.calls > 0
    ensures r.Throws? ==> s.failed || Blamed(s, plan.cabs, PayloadCount(base))
  {
    hide Preflightable, CabsOf, Tracks, CabStart, IsFileMap, Progress, Kept, Blamed, Balanced, ExpandedOf, AreHashed,
         Staging.Machine.Valid, Staging.At, DistinctMembers, Accounted, Rebuilt, MembersOf;
    var cab := plan.cabs[ci];
    var changed :- SignMembers(s, plan, hash, base, ci);
    ghost var x := SnapOf(s);
    if changed {
      PayloadsPresent(s.payloads, PayloadCount(base), s.expanded);
      forall m | m in cab.members ensures m.path in s.payloads { MembersArePayloads(base, ci, s.payloads, m); }
      assert s.changed != {};
      var made := RebuildCabinet(s, cab);
      if made.Throws? {
        RebuildBlamed(s, plan.cabs, ci, PayloadCount(base));
        return Throws;
      }
      var rebuilt := made.value;
      var updated := s.Platform();
      if !updated { return Throws; }
      s.pending := s.pending.(streams := s.pending.streams[cab.name := rebuilt]);
    }
    forall i, j | 0 <= i < j < |plan.cabs| ensures plan.cabs[i].name != plan.cabs[j].name {
      CabNamesDiffer(base, i, j);
    }
    TracksFinish(base, plan.cabs, x, SnapOf(s), CabStart(plan.cabs, ci + 1), ci, hash);
    return Ok(());
  }

  lemma RebuildBlamed(s: Session, cabs: seq<Cab>, ci: nat, n: nat)
    requires ci < |cabs| && CabChanged(cabs[ci], s.changed)
    requires s.failed || (s.reason.BadRebuild? && s.reason.cab == cabs[ci]
                          && !IsRebuild(s.reason.output, cabs[ci].members, s.payloads))
    ensures s.failed || Blamed(s, cabs, n)
  {
    hide IsRebuild, CabChanged;
  }

  lemma PayloadsPresent(payloads: map<nat, Bytes>, n: nat, expanded: nat)
    requires Accounted(payloads, n, expanded)
    ensures forall p: nat :: p < n ==> p in payloads
  {
  }

  lemma TracksFinish(base: Db, cabs: seq<Cab>, x: Snap, y: Snap, next: nat, ci: nat, hash: FileHash)
    requires Tracks(base, cabs, x, next, ci, 0, hash) && ci < |cabs|
    requires forall i, j :: 0 <= i < j < |cabs| ==> cabs[i].name != cabs[j].name
    requires y == x.(db := x.db.(streams := y.db.streams))
    requires if CabChanged(cabs[ci], x.changed)
             then cabs[ci].name in y.db.streams && Rebuilt(y.db.streams[cabs[ci].name], cabs[ci].members, x.payloads)
                  && y.db.streams == x.db.streams[cabs[ci].name := y.db.streams[cabs[ci].name]]
             else y.db.streams == x.db.streams
    ensures Tracks(base, cabs, y, next, ci + 1, 0, hash)
  {
    hide Rebuilt, CabChanged, StreamsTrack, Flat;
    CabinetFinished(base, cabs, x, y, ci);
    forall j | 0 <= j < |base.binaryNames| ensures BinaryFollows(base, y, |Flat(cabs)|, j, 0) {
      assert BinaryFollows(base, x, |Flat(cabs)|, j, 0);
    }
    forall h, i, p | SameFile(base, Flat(cabs), h, i, p)
      ensures HashFollows(base.hashes[h], y.db.hashes[h], base.files[i].version, p, y, hash)
    {
      assert HashFollows(base.hashes[h], x.db.hashes[h], base.files[i].version, p, x, hash);
    }
    forall i, p | 0 <= i < |base.files| && 0 <= p < |Flat(cabs)| && base.files[i].key == Flat(cabs)[p].name
      ensures RowFollows(base.files[i], y.db.files[i], p, y)
    {
      assert RowFollows(base.files[i], x.db.files[i], p, x);
    }
  }

  // ----- Binary streams

  predicate DistinctBytes(names: seq<Bytes>) { forall i, j :: 0 <= i < j < |names| ==> names[i] != names[j] }

  /** A signed Binary stream is stored; the streams before it stay in step. */
  lemma {:induction false} BinarySigned(base: Db, cabs: seq<Cab>, x: Snap, y: Snap, j: nat, hash: FileHash)
    requires Tracks(base, cabs, x, |Flat(cabs)| + j, |cabs|, j, hash) && j < |base.binaryNames|
             && DistinctBytes(base.binaryNames)
    requires var p := |Flat(cabs)| + j;
             && y.changed == x.changed + {p} && p in y.payloads && y.payloads == x.payloads[p := y.payloads[p]]
             && |y.payloads[p]| <= EXPANSION_LIMIT
             && y.db == x.db.(binaries := x.db.binaries[base.binaryNames[j] := y.payloads[p]])
    requires forall i, k :: 0 <= i < |cabs| && 0 <= k < |cabs[i].members| ==> cabs[i].members[k].path < |Flat(cabs)|
    ensures Tracks(base, cabs, y, |Flat(cabs)| + j + 1, |cabs|, j + 1, hash)
  {
    hide Rebuilt, CabChanged, StreamsTrack, BinariesTrack, RowsTrack, HashesTrack, Flat;
    var first := |Flat(cabs)|;
    StreamsKeep(base, cabs, x, y, |cabs|, first + j);
    RowsIgnoreBinaries(base, Flat(cabs), x, y, hash);
    BinaryStored(base, first, x, y, j);
  }

  lemma BinaryStored(base: Db, first: nat, x: Snap, y: Snap, j: nat)
    requires BinariesTrack(base, first, x, j) && j < |base.binaryNames| && DistinctBytes(base.binaryNames)
    requires var p := first + j;
             && y.changed == x.changed + {p} && p in y.payloads && y.payloads == x.payloads[p := y.payloads[p]]
             && y.db.binaries == x.db.binaries[base.binaryNames[j] := y.payloads[p]]
    ensures BinariesTrack(base, first, y, j + 1)
  {
    assert BinaryFollows(base, x, first, j, j);
    var more := j + 1;
    forall k | 0 <= k < |base.binaryNames| ensures BinaryFollows(base, y, first, k, more) {
      assert BinaryFollows(base, x, first, k, j);
      if k < j { assert base.binaryNames[k] != base.binaryNames[j]; }
      if j < k { assert base.binaryNames[j] != base.binaryNames[k]; }
    }
    assert base.binaryNames[j] in base.binaryNames;
  }

  lemma RowsIgnoreBinaries(base: Db, ms: seq<Member>, x: Snap, y: Snap, hash: FileHash)
    requires RowsTrack(base, ms, x) && HashesTrack(base, ms, x, hash)
    requires y.db.files == x.db.files && y.db.hashes == x.db.hashes
    requires forall p: nat :: p < |ms| ==> (p in x.changed <==> p in y.changed)
    requires forall p: nat :: p < |ms| && p in x.payloads ==> p in y.payloads && x.payloads[p] == y.payloads[p]
    ensures RowsTrack(base, ms, y) && HashesTrack(base, ms, y, hash)
  {
    forall i, p | 0 <= i < |base.files| && 0 <= p < |ms| && base.files[i].key == ms[p].name
      ensures RowFollows(base.files[i], y.db.files[i], p, y)
    {
      assert RowFollows(base.files[i], x.db.files[i], p, x);
    }
    forall h, i, p | SameFile(base, ms, h, i, p)
      ensures HashFollows(base.hashes[h], y.db.hashes[h], base.files[i].version, p, y, hash)
    {
      assert HashFollows(base.hashes[h], x.db.hashes[h], base.files[i].version, p, x, hash);
    }
  }

  lemma {:induction false} BinaryNotSigned(base: Db, cabs: seq<Cab>, x: Snap, j: nat, hash: FileHash)
    requires Tracks(base, cabs, x, |Flat(cabs)| + j, |cabs|, j, hash) && j < |base.binaryNames|
    ensures Tracks(base, cabs, x, |Flat(cabs)| + j + 1, |cabs|, j + 1, hash)
  {
    hide Rebuilt, CabChanged, StreamsTrack, Flat;
    var more := j + 1;
    forall k | 0 <= k < |base.binaryNames| ensures BinaryFollows(base, x, |Flat(cabs)|, k, more) {
      assert BinaryFollows(base, x, |Flat(cabs)|, k, j);
    }
  }

  lemma PathsAreMembers(base: Db)
    requires Preflightable(base)
    ensures forall i, k :: 0 <= i < |CabsOf(base)| && 0 <= k < |CabsOf(base)[i].members| ==>
              CabsOf(base)[i].members[k].path < |MembersOf(base)|
  {
    hide Preflightable, CabsOf, CabStart;
    forall i, k | 0 <= i < |CabsOf(base)| && 0 <= k < |CabsOf(base)[i].members|
      ensures CabsOf(base)[i].members[k].path < |MembersOf(base)|
    {
      MemberPath(base, i, k);
    }
  }

  /** Replaces a Binary stream by its payload file. */
  method StoreBinary(s: Session, name: Bytes, path: nat) returns (r: Outcome<()>)
    requires path in s.payloads
    modifies s`pending, s`failed
    ensures if r.Throws? then s.failed
            else s.pending == old(s.pending).(binaries := old(s.pending).binaries[name := s.payloads[path]])
  {
    var updated := s.Platform();
    if !updated { return Throws; }
    s.pending := s.pending.(binaries := s.pending.binaries[name := s.payloads[path]]);
    return Ok(());
  }

  /** Signs one Binary stream and stores it. */
  method SignBinary(s: Session, plan: Plan, hash: FileHash, ghost base: Db, j: nat) returns (r: Outcome<()>)
    requires Ready(base, plan, s) && DistinctBytes(base.binaryNames) && plan.count == |MembersOf(base)|
    requires j < |s.pending.binaryNames| && s.pending.binaryNames == base.binaryNames
    requires InStep(base, plan, s, |MembersOf(base)| + j, |plan.cabs|, j, hash)
    modifies s`payloads, s`calls, s`expanded, s`changed, s`signedFiles, s`preservedFiles, s`pending, s`failed, s`reason
    modifies s.machine`tree, s.machine`history, s.machine`log, s.machine`turn, s.machine`failed
    ensures s.Quiet()
    ensures r.Ok? ==> Ready(base, plan, s) && s.pending.binaryNames == base.binaryNames
    ensures r.Ok? ==> InStep(base, plan, s, |MembersOf(base)| + j + 1, |plan.cabs|, j + 1, hash)
    ensures r.Throws? ==> s.failed || s.calls > 0
    ensures r.Throws? ==> s.failed || Blamed(s, plan.cabs, PayloadCount(base))
  {
    hide Preflightable, CabsOf, Tracks, CabStart, IsFileMap, Progress, Kept, Blamed, Balanced, ExpandedOf, AreHashed,
         Staging.Machine.Valid, Staging.At, DistinctMembers, DistinctBytes, Accounted, Flat;
    var path := plan.count + j;
    ghost var x := SnapOf(s);
    NotYetSigned(base, plan.cabs, x, path, |plan.cabs|, j, hash);
    var signed :- SignPayload(s, path, plan.cabs, PayloadCount(base), ExpandedOf(base));
    if signed {
      var stored :- StoreBinary(s, s.pending.binaryNames[j], path);
      PathsAreMembers(base);
      BinarySigned(base, plan.cabs, x, SnapOf(s), j, hash);
    } else {
      BinaryNotSigned(base, plan.cabs, x, j, hash);
    }
    return Ok(());
  }

  /** The loop over the Binary streams. */
  method SignBinaries(s: Session, plan: Plan, hash: FileHash, ghost base: Db) returns (r: Outcome<()>)
    requires Ready(base, plan, s) && DistinctBytes(base.binaryNames) && plan.count == |MembersOf(base)|
    requires InStep(base, plan, s, |MembersOf(base)|, |plan.cabs|, 0, hash)
    modifies s`payloads, s`calls, s`expanded, s`changed, s`signedFiles, s`preservedFiles, s`pending, s`failed, s`reason
    modifies s.machine`tree, s.machine`history, s.machine`log, s.machine`turn, s.machine`failed
    ensures s.Quiet()
    ensures r.Ok? ==> Ready(base, plan, s)
    ensures r.Ok? ==> InStep(base, plan, s, PayloadCount(base), |plan.cabs|, |base.binaryNames|, hash)
    ensures r.Throws? ==> s.failed || s.calls > 0
    ensures r.Throws? ==> s.failed || Blamed(s, plan.cabs, PayloadCount(base))
  {
    hide Preflightable, CabsOf, Tracks, CabStart, DistinctBytes, IsFileMap, Progress, Kept, Blamed, Balanced,
         ExpandedOf, AreHashed, Staging.Machine.Valid, Staging.At, DistinctMembers, Accounted, Flat;
    SameNames(base, plan.cabs, SnapOf(s), |MembersOf(base)|, |plan.cabs|, 0, hash);
    for j := 0 to |s.pending.binaryNames|
      invariant Ready(base, plan, s) && s.pending.binaryNames == base.binaryNames
      invariant InStep(base, plan, s, |MembersOf(base)| + j, |plan.cabs|, j, hash)
    {
      var done :- SignBinary(s, plan, hash, base, j);
    }
    return Ok(());
  }

  lemma SameNames(base: Db, cabs: seq<Cab>, x: Snap, next: nat, done: nat, bins: nat, hash: FileHash)
    requires Tracks(base, cabs, x, next, done, bins, hash)
    ensures x.db.binaryNames == base.binaryNames && x.db.packageCode == base.packageCode
  {
  }

  // ----- the whole run

  datatype Counts = Counts(signedFiles: nat, preservedFiles: nat)

  /** `db` is `base` with every signed payload carried through, and a package code of its own. */
  ghost predicate CarriesThrough(base: Db, db: Db, payloads: map<nat, Bytes>, changed: set<nat>, hash: FileHash)
    requires Preflightable(base)
  {
    Tracks(base, CabsOf(base), Snap(db.(packageCode := base.packageCode), payloads, changed), PayloadCount(base),
           |CabsOf(base)|, |base.binaryNames|, hash)
  }

  /**
   * One transactional run. It throws, or signs nothing, and leaves the committed database as it
   * was; or it commits once, with every row and stream in step with the payload files. No callback
   * is made unless everything in the database passed the preflight. With a job, every payload has
   * been through the callback in the end.
   */
  method Rewrite(s: Session, hash: FileHash) returns (r: Outcome<Counts>)
    requires s.pending == s.committed && s.calls == 0 && s.changed == {} && !s.failed
    requires s.signedFiles == 0 && s.preservedFiles == 0
    requires DistinctBytes(s.committed.binaryNames) && s.Quiet()
    modifies s, s.machine`tree, s.machine`history, s.machine`log, s.machine`turn, s.machine`failed
    ensures s.Quiet()
    ensures r.Throws? ==> s.committed == old(s.committed)
    ensures r.Ok? ==> r.value.signedFiles == |s.changed|
    ensures r.Ok? && r.value.signedFiles == 0 ==> s.committed == old(s.committed)
    ensures r.Ok? && r.value.signedFiles > 0 ==>
              Preflightable(old(s.committed))
                && CarriesThrough(old(s.committed), s.committed, s.payloads, s.changed, hash)
    ensures s.calls > 0 ==> Preflightable(old(s.committed))
    ensures r.Ok? ==> Preflightable(old(s.committed))
    ensures r.Ok? ==> Accounted(s.payloads, PayloadCount(old(s.committed)), s.expanded)
    ensures r.Throws? && s.calls == 0 && !s.failed ==> !Preflightable(old(s.committed))
    ensures r.Throws? && !s.failed && Preflightable(old(s.committed)) ==>
              Blamed(s, CabsOf(old(s.committed)), PayloadCount(old(s.committed)))
    ensures r.Ok? ==> r.value.preservedFiles == |Kept(s.original, s.changed, PayloadCount(old(s.committed)))|
    ensures r.Ok? && r.value.signedFiles > 0 ==> s.committed.packageCode != old(s.committed).packageCode
    ensures r.Ok? ==> IsExtract(old(s.committed), s.original)
    ensures r.Ok? ==> Balanced(s.original, s.payloads, s.changed, PayloadCount(old(s.committed)),
                               ExpandedOf(old(s.committed)), s.expanded)
    ensures r.Ok? ==> WasThrough(s, PayloadCount(old(s.committed)))
  {
    hide Preflightable, CabsOf, Tracks, CabStart, IsFileMap, Progress, Kept, Blamed, Balanced, ExpandedOf, AreHashed,
         Staging.Machine.Valid, Staging.At, DistinctMembers, Accounted, Flat;
    ghost var base := s.committed;
    var plan := s.Preflight();
    if plan.Throws? { return Throws; }
    s.original := s.payloads;
    PlanIsExtract(base, plan.value, s);
    PlanIsReady(base, plan.value, s);
    PlanTracks(base, plan.value, s.payloads, s.expanded, hash);
    r := SignAll(s, plan.value, hash, base);
  }

  /** The payloads as extracted: of the members' sizes, and the Binary streams as they are. */
  ghost predicate IsExtract(base: Db, original: map<nat, Bytes>)
    requires Preflightable(base)
  {
    Extracted(original, MembersOf(base)) && Copied(original, base, |MembersOf(base)|, |base.binaryNames|)
  }

  lemma PlanIsExtract(base: Db, plan: Plan, s: Session)
    requires PlanIs(base, plan, s.payloads, s.expanded) && s.changed == {} && s.original == s.payloads
    ensures IsExtract(base, s.original)
    ensures Progress(s.job, s.machine.log, s.original, s.payloads, s.changed, 0, PayloadCount(base))
    ensures |Kept(s.original, s.changed, 0)| == 0
    ensures Balanced(s.original, s.payloads, s.changed, PayloadCount(base), ExpandedOf(base), s.expanded)
  {
    hide Preflightable, CabsOf, Flat, Progress, Accounted, Balanced;
    PlanIsAccounted(base, plan, s.payloads, s.expanded);
    PayloadsPresent(s.payloads, PayloadCount(base), s.expanded);
    ProgressStarts(s.job, s.machine.log, s.payloads, PayloadCount(base));
    BalancedStarts(s.payloads, PayloadCount(base), s.expanded);
  }

  lemma PlanIsReady(base: Db, plan: Plan, s: Session)
    requires PlanIs(base, plan, s.payloads, s.expanded) && s.changed == {} && s.signedFiles == 0 && s.Quiet()
    requires Preflightable(base)
    requires Balanced(s.original, s.payloads, {}, PayloadCount(base), ExpandedOf(base), s.expanded)
    ensures Ready(base, plan, s) && plan.count == |MembersOf(base)|
  {
    hide InspectFrom, BinariesFrom, MediaOk, FilesOk, HashesOk, Flat, Accounted, Balanced;
    PlanIsAccounted(base, plan, s.payloads, s.expanded);
  }

  /** All `n` payloads have been through the callback. */
  ghost predicate WasThrough(s: Session, n: nat)
    reads s, s.machine
  {
    Progress(s.job, s.machine.log, s.original, s.payloads, s.changed, n, n)
  }

  /** Everything after the preflight. */
  method SignAll(s: Session, plan: Plan, hash: FileHash, ghost base: Db) returns (r: Outcome<Counts>)
    requires Ready(base, plan, s) && DistinctBytes(base.binaryNames) && plan.count == |MembersOf(base)|
    requires InStep(base, plan, s, 0, 0, 0, hash)
    modifies s`payloads, s`calls, s`expanded, s`changed, s`signedFiles, s`preservedFiles, s`pending, s`failed, s`reason,
             s`committed
    modifies s.machine`tree, s.machine`history, s.machine`log, s.machine`turn, s.machine`failed
    ensures s.Quiet()
    ensures r.Throws? ==> s.committed == old(s.committed)
    ensures r.Ok? ==> r.value.signedFiles == |s.changed| && Accounted(s.payloads, PayloadCount(base), s.expanded)
    ensures r.Ok? ==> Balanced(s.original, s.payloads, s.changed, PayloadCount(base), ExpandedOf(base), s.expanded)
    ensures r.Ok? ==> WasThrough(s, PayloadCount(base))
    ensures r.Ok? && r.value.signedFiles == 0 ==> s.committed == old(s.committed)
    ensures r.Ok? && r.value.signedFiles > 0 ==> CarriesThrough(base, s.committed, s.payloads, s.changed, hash)
    ensures r.Throws? && s.calls == 0 ==> s.failed
    ensures r.Throws? ==> s.failed || Blamed(s, plan.cabs, PayloadCount(base))
    ensures r.Ok? ==> r.value.preservedFiles == |Kept(s.original, s.changed, PayloadCount(base))|
    ensures r.Ok? && r.value.signedFiles > 0 ==> s.committed.packageCode != base.packageCode
  {
    hide Preflightable, CabsOf, Tracks, CabStart, IsFileMap, Progress, Kept, Blamed, Balanced, ExpandedOf, AreHashed,
         Staging.Machine.Valid, Staging.At, DistinctMembers, Accounted, Flat;
    NoCabs(plan.cabs);
    for i := 0 to |plan.cabs|
      invariant s.committed == old(s.committed) && Ready(base, plan, s)
      invariant InStep(base, plan, s, CabStart(plan.cabs, i), i, 0, hash)
    {
      var done :- SignCabinet(s, plan, hash, base, i);
    }
    AllCabs(plan.cabs);
    var stored :- SignBinaries(s, plan, hash, base);
    if s.signedFiles > 0 {
      var renewed := s.Platform();
      if !renewed { return Throws; }
      assert s.pending.packageCode + [0] != s.pending.packageCode;
      var code: Bytes :| code != s.pending.packageCode;
      ghost var kept := s.pending;
      SameNames(base, plan.cabs, SnapOf(s), PayloadCount(base), |plan.cabs|, |base.binaryNames|, hash);
      s.pending := s.pending.(packageCode := code);
      assert s.pending.(packageCode := base.packageCode) == kept;
      var committed := s.Platform();
      if !committed { return Throws; }
      s.committed := s.pending;
    }
    return Ok(Counts(s.signedFiles, s.preservedFiles));
  }

  lemma NoCabs(cabs: seq<Cab>)
    ensures CabStart(cabs, 0) == 0
  {
  }

  lemma {:induction false} AllCabs(cabs: seq<Cab>)
    ensures CabStart(cabs, |cabs|) == |Flat(cabs)|
  {
    assert cabs[..|cabs|] == cabs;
  }
}
