/** One run of `sign_file` (src/signing.cpp), with the recursive rewrite inside it. */
module SignFile {
  import opened Wire
  import opened Cms
  import opened PeTable
  import opened Staging
  import opened Transcripts
  import opened StagedSigning
  import opened MsiSession
  import opened PayloadJob
  import opened PackageRewrite
  import MsiTracking

  // ----- the whole file

  predicate IsPackageExtension(ext: string)
  {
    ext == ".msix" || ext == ".msixbundle" || ext == ".appx" || ext == ".appxbundle"
  }

  /** The kind of a file, from its first bytes and its extension in lower case. */
  function Identify(f: Bytes, ext: string): Outcome<Kind>
  {
    if |f| < 8 then Throws
    else if f[..8] == [0xd0, 0xcf, 0x11, 0xe0, 0xa1, 0xb1, 0x1a, 0xe1] then
      if ext == ".msi" then Ok(Kind.Msi) else Throws
    else if ext == ".msi" then Throws
    else if f[0] == 0x4d && f[1] == 0x5a then Ok(Kind.Pe)
    else if f[0] == 0x50 && f[1] == 0x4b && f[2] == 3 && f[3] == 4 && IsPackageExtension(ext) then Ok(Msix)
    else Throws
  }

  /** A compound file named .msi is a package, a file that starts with "MZ" and is not named so an image. */
  lemma KindsAreTold(f: Bytes, ext: string)
    ensures Identify(f, ext) == Ok(Kind.Msi) <==> [0xd0, 0xcf, 0x11, 0xe0, 0xa1, 0xb1, 0x1a, 0xe1] <= f && ext == ".msi"
    ensures Identify(f, ext) == Ok(Kind.Pe) <==> |f| >= 8 && ['M' as int, 'Z' as int] <= f && ext != ".msi"
    ensures Identify(f, ext) == Ok(Msix) <==>
            |f| >= 8 && ['P' as int, 'K' as int, 3, 4] <= f && ext in {".msix", ".msixbundle", ".appx", ".appxbundle"}
  {
    if |f| >= 8 {
      var cfb: Bytes := [0xd0, 0xcf, 0x11, 0xe0, 0xa1, 0xb1, 0x1a, 0xe1];
      assert f[..8] == cfb <==> cfb <= f;
      assert f[..8] == cfb ==> f[..8][0] == 0xd0;
    }
  }

  /** What the rewriter hands to the callback: everything that starts with "MZ", so every image that can be read. */
  lemma CandidatesAreImages(f: Bytes, ext: string)
    ensures PeCandidate(f) <==> ['M' as int, 'Z' as int] <= f
    ensures IsReadableImage(f) || Identify(f, ext) == Ok(Kind.Pe) ==> PeCandidate(f)
  {
    hide IsSignedPadded, Tiles;
  }

  // ----- the run

  /** User file `w` held `was` in every one of these trees. */
  ghost predicate Steady(ts: seq<Tree>, w: Bytes, was: Option<Bytes>) { forall t :: t in ts ==> At(t, User(w)) == was }

  /** The job of the payload callback: the options of the run, without a dump file and not recursive. */
  function PayloadJobOf(o: Options, sha: Hash): Job { Job(o.(dump := None, recursive := false), sha) }

  /** What is signed is the input, or the package rewritten from it. */
  ghost predicate Prepared(kind: Kind, o: Options, sha: Hash, hash: MsiTracking.FileHash, open: Opener,
                           log: seq<Event>, input: Bytes, was: Bytes)
  {
    if kind == Kind.Msi && o.recursive then Rewritten(open, input, was, PayloadJobOf(o, sha), log, hash)
    else was == input
  }

  /** Why staging and signing threw: the rewrite was declined, or the signing met an answer that was not good. */
  ghost predicate StagingDeclined(m: Machine, session: Session?, kind: Kind, o: Options, sha: Hash,
                                  hash: MsiTracking.FileHash, open: Opener, e: Evidence, from: nat, input: Bytes,
                                  was: Bytes)
    reads m, session, if session == null then {} else {session.machine}
  {
    || (kind == Kind.Msi && o.recursive && RewriteDeclined(open, input, m, session))
    || (from <= |m.log| && Prepared(kind, o, sha, hash, open, m.log, input, was)
        && Refused(e, m.log[from..], kind, kind == Kind.Msi && o.msiDse, o.timestamp, sha, was))
  }

  /** What a run has found out when it ends. */
  datatype Findings = Findings(session: Session?, from: nat, was: Bytes, now: Bytes, e: Evidence)

  /** Stages and signs a copy; no user file is touched but the one for `--dump-cms`. */
  method StageAndSign(m: Machine, bytes: FileBytes, kind: Kind, o: Options, sha: Hash, hash: MsiTracking.FileHash,
                      open: Opener)
    returns (r: Outcome<()>, ghost f: Findings)
    requires m.Valid() && o.dump == m.dump
    modifies m`tree, m`history, m`log, m`turn, m`failed
    ensures m.Valid() && old(m.history) <= m.history && old(m.log) <= m.log
    ensures r.Ok? ==> At(m.tree, Staged) == Some(f.now) && Prepared(kind, o, sha, hash, open, m.log, bytes, f.was)
                      && Proves(f.e, m.log, f.from, kind, kind == Kind.Msi && o.msiDse, o.timestamp, sha, f.was, f.now)
    ensures r.Ok? && o.dump.Some? ==> IsBlob(f.e.final) && At(m.tree, User(o.dump.value)) == Some(Blob(f.e.final))
    ensures r.Throws? ==> m.failed || StagingDeclined(m, f.session, kind, o, sha, hash, open, f.e, f.from, bytes, f.was)
  {
    hide Machine.Valid, At, Prepared, RewriteDeclined, Refused;
    f := Findings(null, 0, bytes, [], NoEvidence());
    m.Clear(StageDir);
    var copied := m.WriteFile(Staged, bytes);
    if !copied { m.Clear(StageDir); return Throws, f; }
    var ready;
    ready, f := PrepareCopy(m, bytes, kind, o, sha, hash, open);
    if ready.Throws? { return Throws, f; }
    r, f := SignCopy(m, bytes, kind, o, sha, hash, open, f);
  }

  /** Rewrites the staged copy where asked to. */
  method PrepareCopy(m: Machine, ghost bytes: FileBytes, kind: Kind, o: Options, sha: Hash,
                     hash: MsiTracking.FileHash, open: Opener)
    returns (r: Outcome<()>, ghost f: Findings)
    requires m.Valid() && At(m.tree, Staged) == Some(bytes)
    modifies m`tree, m`history, m`log, m`turn, m`failed
    ensures m.Valid() && old(m.history) <= m.history && old(m.log) <= m.log && f.from == |m.log|
    ensures r.Ok? ==> At(m.tree, Staged) == Some(f.was) && Prepared(kind, o, sha, hash, open, m.log, bytes, f.was)
    ensures r.Throws? ==> m.failed || (kind == Kind.Msi && o.recursive && RewriteDeclined(open, bytes, m, f.session))
  {
    hide Machine.Valid, At, Rewritten, RewriteDeclined;
    f := Findings(null, |m.log|, bytes, [], NoEvidence());
    if !(kind == Kind.Msi && o.recursive) { return Ok(()), f; }
    ghost var session;
    r, session := RewriteCopy(m, bytes, PayloadJobOf(o, sha), hash, open);
    f := f.(session := session, from := |m.log|);
    if r.Ok? { f := f.(was := At(m.tree, Staged).value); }
  }

  /** Signs the staged copy. */
  method SignCopy(m: Machine, ghost bytes: FileBytes, kind: Kind, o: Options, sha: Hash,
                  ghost hash: MsiTracking.FileHash, ghost open: Opener, ghost f0: Findings)
    returns (r: Outcome<()>, ghost f: Findings)
    requires m.Valid() && o.dump == m.dump && f0.from == |m.log|
    requires At(m.tree, Staged) == Some(f0.was) && Prepared(kind, o, sha, hash, open, m.log, bytes, f0.was)
    modifies m`tree, m`history, m`log, m`turn, m`failed
    ensures m.Valid() && old(m.history) <= m.history && old(m.log) <= m.log
    ensures r.Ok? ==> At(m.tree, Staged) == Some(f.now) && Prepared(kind, o, sha, hash, open, m.log, bytes, f.was)
                      && Proves(f.e, m.log, f.from, kind, kind == Kind.Msi && o.msiDse, o.timestamp, sha, f.was, f.now)
    ensures r.Ok? && o.dump.Some? ==> IsBlob(f.e.final) && At(m.tree, User(o.dump.value)) == Some(Blob(f.e.final))
    ensures r.Throws? ==> m.failed || StagingDeclined(m, f.session, kind, o, sha, hash, open, f.e, f.from, bytes, f.was)
  {
    hide Machine.Valid, At, Rewritten, Refused, RewriteDeclined, Checking, MadeOk, RecheckOk, HasSigner,
         ExtractIndirectData;
    f := f0;
    ghost var log := m.log;
    ghost var e;
    r, e := SignStaged(m, Staged, kind, o, sha);
    f := f.(e := e);
    if kind == Kind.Msi && o.recursive { RewrittenGrows(open, bytes, f.was, PayloadJobOf(o, sha), log, m.log, hash); }
    if r.Throws? {
      m.Clear(StageDir);
    } else {
      f := f.(now := At(m.tree, Staged).value);
    }
  }

  /** The rewrite of the staged copy, with a directory of its own for the payloads. */
  method RewriteCopy(m: Machine, ghost bytes: Bytes, job: Job, hash: MsiTracking.FileHash, open: Opener)
    returns (r: Outcome<()>, ghost session: Session?)
    requires m.Valid() && At(m.tree, Staged) == Some(bytes)
    modifies m`tree, m`history, m`log, m`turn, m`failed
    ensures m.Valid() && old(m.history) <= m.history && old(m.log) <= m.log
    ensures r.Throws? ==> m.failed || RewriteDeclined(open, bytes, m, session)
    ensures r.Ok? ==> At(m.tree, Staged).Some? && Rewritten(open, bytes, At(m.tree, Staged).value, job, m.log, hash)
  {
    hide Machine.Valid, At, Rewritten, MsiRewrite.CallbackBlamed, MsiRewrite.IsRebuild, Msi.Preflightable;
    m.Clear(PayloadDir);
    r, session := RewriteStaged(m, job, hash, open);
    m.Clear(PayloadDir);
    if r.Throws? { m.Clear(StageDir); }
  }

  /** Why a run threw. */
  ghost predicate Declined(t: Tree, m: Machine, path: Bytes, ext: string, o: Options, sha: Hash,
                           hash: MsiTracking.FileHash, open: Opener, f: Findings)
    reads m, f.session, if f.session == null then {} else {f.session.machine}
  {
    || (o.dump.Some? && SameFile(t, User(path), User(o.dump.value)))
    || At(t, User(path)) == None
    || var input := At(t, User(path)).value;
       var kind := Identify(input, ext);
       || kind.Throws?
       || (kind.value == Kind.Pe && !IsReadableImage(input))
       || StagingDeclined(m, f.session, kind.value, o, sha, hash, open, f.e, f.from, input, f.was)
  }

  /**
   * One run of `sign_file`. `history` holds every tree of the run, one step apart, and `log` every
   * answer. Until its last step every user file but the one for `--dump-cms` keeps its bytes. If it throws,
   * that holds to the end, and a platform call failed or one of the reasons above holds. If it returns, the last
   * step put at `path` a file for which there is evidence: the message in it has a signer, and its indirect data,
   * the data recomputed from the file and the data whose attributes were signed are equal. A recursive run signs
   * the package that the rewrite made of the input.
   */
  method SignFile(m: Machine, path: Bytes, ext: string, o: Options, sha: Hash, hash: MsiTracking.FileHash, open: Opener)
    returns (r: Outcome<()>, ghost f: Findings)
    requires Sound(m.tree)
    modifies m
    ensures Sound(m.tree) && IsTrace(old(m.tree), m.history, m.tree) && Genuine(m.world, m.log)
    ensures r.Throws? ==> Steady(m.history, path, At(old(m.tree), User(path)))
    ensures r.Throws? ==> m.failed || Declined(old(m.tree), m, path, ext, o, sha, hash, open, f)
    ensures forall w :: w != path && Apart(old(m.tree), w, o.dump) ==> Steady(m.history, w, At(old(m.tree), User(w)))
    ensures r.Ok? ==> At(m.tree, User(path)) == Some(f.now)
                      && Steady(m.history[..|m.history| - 1], path, At(old(m.tree), User(path)))
    ensures r.Ok? ==>
              && At(old(m.tree), User(path)).Some? && Identify(At(old(m.tree), User(path)).value, ext).Ok?
              && var input := At(old(m.tree), User(path)).value;
              && var kind := Identify(input, ext).value;
              && (kind == Kind.Pe ==> IsReadableImage(input))
              && Proves(f.e, m.log, f.from, kind, kind == Kind.Msi && o.msiDse, o.timestamp, sha, f.was, f.now)
              && Prepared(kind, o, sha, hash, open, m.log, input, f.was)
    ensures r.Ok? && o.dump.Some? ==> !SameFile(old(m.tree), User(path), User(o.dump.value))
    ensures r.Ok? && o.dump.Some? ==> IsBlob(f.e.final) && At(m.tree, User(o.dump.value)) == Some(Blob(f.e.final))
  {
    hide Sound, Identify, Proves, At, Undisturbed, Apart, SameFile, Steady, IsTrace, Genuine, Prepared,
         StagingDeclined, IsReadableImage, HasSignedTable, CertTable, IsBlob;
    f := Findings(null, 0, [], [], NoEvidence());
    m.start, m.dump, m.history := m.tree, o.dump, [m.tree];
    m.log, m.turn, m.failed := [], 0, false;
    Unmoved(m);
    if o.dump.Some? {
      var inspected := m.Platform();
      if !inspected || SameFile(m.tree, User(path), User(o.dump.value)) { return Throws, f; }
    }
    var bytes := m.ReadFile(User(path));
    if bytes.Throws? { return Throws, f; }
    var kind := Identify(bytes.value, ext);
    if kind.Throws? { return Throws, f; }
    if kind.value == Kind.Pe {
      var table := PeHasSignature(bytes.value);
      if table.Throws? { return Throws, f; }
    }
    ReadableIsApart(m.tree, path, o.dump);
    var signed;
    signed, f := StageAndSign(m, bytes.value, kind.value, o, sha, hash, open);
    SteadySoFar(m);
    if signed.Throws? { return Throws, f; }
    DumpIsNotPath(m.start, path, o.dump);
    r := Publish(m, path);
  }

  lemma DumpIsNotPath(t: Tree, path: Bytes, dump: Option<Bytes>)
    requires Apart(t, path, dump)
    ensures dump != Some(path)
  {
  }

  /** Nothing has happened yet. */
  lemma Unmoved(m: Machine)
    requires Sound(m.tree) && m.start == m.tree && m.history == [m.tree] && m.log == [] && m.turn == 0
    ensures m.Valid() && forall w :: Steady(m.history, w, At(m.tree, User(w)))
  {
  }

  /** A file that could be opened and is not the dump file differs from it in name too. */
  lemma ReadableIsApart(t: Tree, path: Bytes, dump: Option<Bytes>)
    requires At(t, User(path)).Some? && (dump.Some? ==> !SameFile(t, User(path), User(dump.value)))
    ensures Apart(t, path, dump)
  {
  }

  lemma SteadySoFar(m: Machine)
    requires m.Valid()
    ensures forall w :: Apart(m.start, w, m.dump) ==>
              Steady(m.history, w, At(m.start, User(w))) && At(m.tree, User(w)) == At(m.start, User(w))
  {
    hide Sound, At, Apart, OneStep, Genuine;
    assert m.tree in m.history;
  }

  /** The one step that changes a user's file. */
  method Publish(m: Machine, path: Bytes) returns (r: Outcome<()>)
    requires m.Valid() && At(m.tree, Staged).Some?
    modifies m`tree, m`history, m`failed
    ensures Sound(m.tree) && IsTrace(m.start, m.history, m.tree) && Genuine(m.world, m.log)
    ensures r.Throws? ==> m.tree == old(m.tree) && m.history == old(m.history)
    ensures r.Throws? ==> m.failed || At(m.tree, User(path)) == None
    ensures r.Ok? ==> m.history == old(m.history) + [m.tree] && At(m.tree, User(path)) == At(old(m.tree), Staged)
    ensures r.Ok? ==> forall w :: w != path ==> At(m.tree, User(w)) == At(old(m.tree), User(w))
    ensures forall w :: w != path && Steady(old(m.history), w, At(m.start, User(w))) ==>
            Steady(m.history, w, At(m.start, User(w)))
  {
    hide Undisturbed, Sound, Genuine;
    var replaced := m.Platform();
    if !replaced || User(path) !in m.tree.links { return Throws; }
    RenameIs(m.tree, Staged, User(path), m.dump);
    ghost var next := Rename(m.tree, Staged, User(path));
    TraceGrows(m.start, m.history, m.tree, next);
    LastIsSteady(m.start, m.history, m.tree, next, path);
    m.tree := Rename(m.tree, Staged, User(path));
    m.history := m.history + [m.tree];
    return Ok(());
  }

  lemma LastIsSteady(start: Tree, ts: seq<Tree>, tree: Tree, next: Tree, path: Bytes)
    requires IsTrace(start, ts, tree) && forall w :: w != path ==> At(next, User(w)) == At(tree, User(w))
    ensures forall w, c :: w != path && Steady(ts, w, c) ==> Steady(ts + [next], w, c)
  {
    hide At, OneStep;
    assert tree in ts;
  }
}
