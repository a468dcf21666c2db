/**
 * The state of one recursive rewrite (src/msi_recursive.cpp) and its preflight. Installer,
 * cabinet and file-system calls may fail at any time; extraction may write any bytes.
 */
module MsiSession {
  import opened Wire
  import opened Cabinet
  import opened CabinetInspect
  import opened Msi
  import opened MsiPreflight
  import opened PayloadJob
  import Staging

  datatype Plan = Plan(cabs: seq<Cab>, files: map<Bytes, FileInfo>, hashed: set<Bytes>, count: nat)

  /** Every payload below `n` was extracted, with the size that its member states. */
  predicate Extracted(payloads: map<nat, Bytes>, ms: seq<Member>)
  {
    forall p: nat :: p < |ms| ==> p in payloads && |payloads[p]| == ms[p].size
  }

  /** The Binary streams from `first` on hold the table's data. */
  predicate Copied(payloads: map<nat, Bytes>, db: Db, first: nat, n: nat)
    requires n <= |db.binaryNames|
  {
    forall p: nat :: first <= p < first + n ==>
      p in payloads && db.binaryNames[p - first] in db.binaries && payloads[p] == db.binaries[db.binaryNames[p - first]]
  }

  /** The files that have a hash row. */
  ghost predicate AreHashed(files: set<Bytes>, rows: seq<HashRow>)
  {
    forall n :: n in files <==> exists i :: 0 <= i < |rows| && rows[i].file == n
  }

  ghost predicate PlanIs(db: Db, plan: Plan, payloads: map<nat, Bytes>, expanded: nat)
  {
    && Preflightable(db)
    && plan.cabs == CabsOf(db) && plan.count == |MembersOf(db)| && IsFileMap(plan.files, db.files)
    && AreHashed(plan.hashed, db.hashes)
    && Extracted(payloads, MembersOf(db)) && Copied(payloads, db, |MembersOf(db)|, |db.binaryNames|)
    && expanded == ExpandedOf(db)
  }

  ghost predicate CabSuffix(all: Outcome<Inspected>, done: seq<Cab>, rest: Outcome<Inspected>)
  {
    if rest.Throws? then all.Throws?
    else all == Ok(Inspected(done + rest.value.cabs, rest.value.total, rest.value.count))
  }

  lemma CabStep(db: Db, i: nat, total: nat, count: nat, all: Outcome<Inspected>, done: seq<Cab>)
    requires i < |db.media| && MediaOk(db.media) && total <= EXPANSION_LIMIT && count <= MEMBER_LIMIT
    requires CabSuffix(all, done, InspectFrom(db, i, total, count))
    ensures var name := CabName(db.media[i]);
            if name !in db.streams || LayoutOf(db.streams[name]).Throws?
              || !Acceptable(LayoutOf(db.streams[name]).value, total, count)
            then all.Throws?
            else
              var c := LayoutOf(db.streams[name]).value;
              && total + Expanded(c.folders) <= EXPANSION_LIMIT && count + |c.table.records| <= MEMBER_LIMIT
              && CabSuffix(all, done + [CabFor(db.media, i, Members(c.table.records, count))],
                           InspectFrom(db, i + 1, total + Expanded(c.folders), count + |c.table.records|))
  {
    hide LayoutOf, MediaOk, Members, Acceptable, CabFor;
    var name := CabName(db.media[i]);
    if name in db.streams && LayoutOf(db.streams[name]).Ok?
      && Acceptable(LayoutOf(db.streams[name]).value, total, count) {
      var c := LayoutOf(db.streams[name]).value;
      AcceptableFits(c, total, count);
      var cab := CabFor(db.media, i, Members(c.table.records, count));
      var rest := InspectFrom(db, i + 1, total + Expanded(c.folders), count + |c.table.records|);
      if rest.Ok? { assert done + ([cab] + rest.value.cabs) == (done + [cab]) + rest.value.cabs; }
    }
  }

  lemma AcceptableFits(c: Layout, total: nat, count: nat)
    requires Acceptable(c, total, count)
    ensures total + Expanded(c.folders) <= EXPANSION_LIMIT && count + |c.table.records| <= MEMBER_LIMIT
  {
  }

  lemma {:induction false} FlatCat(a: seq<Cab>, b: seq<Cab>)
    ensures Flat(a + b) == Flat(a) + Flat(b)
  {
    if a == [] {
      assert a + b == b;
    } else {
      assert (a + b)[1..] == a[1..] + b;
      FlatCat(a[1..], b);
    }
  }

  lemma {:induction false} FlatAppend(a: seq<Cab>, c: Cab)
    ensures Flat(a + [c]) == Flat(a) + c.members
  {
    FlatCat(a, [c]);
    var none: seq<Cab> := [];
    assert [c][1..] == none && c.members + Flat(none) == c.members;
  }

  /** A cabinet that fails the mapping check spoils the whole mapping. */
  lemma {:induction false} MappingSpoilt(all: seq<Cab>, done: seq<Cab>, c: Cab, rest: seq<Cab>, rows: seq<FileRow>)
    requires all == done + [c] + rest
    requires !CabMaps(c, rows) || !DistinctMembers(Flat(done) + c.members)
    ensures !MappingOk(all, rows)
  {
    hide CabMaps;
    assert all[|done|] == c;
    FlatCat(done + [c], rest);
    FlatAppend(done, c);
    if !DistinctMembers(Flat(done) + c.members) {
      var ms := Flat(done) + c.members;
      var i, j :| 0 <= i < j < |ms| && ms[i].name == ms[j].name;
      assert Flat(all)[i] == ms[i] && Flat(all)[j] == ms[j];
    }
  }

  /** Why a run threw, other than by a platform call. */
  datatype Reason = NoReason | CallbackThrew(path: nat) | TooLarge(path: nat) | BadRebuild(cab: Cab, output: Bytes)

  class Session {
    const machine: Staging.Machine  // where the callback signs
    const job: Option<Job>          // none for a callback of which nothing is known
    ghost const staged: Option<Bytes>   // the package file, which only a commit may change
    ghost const since: seq<Staging.Tree>   // the machine's history before the rewrite
    ghost const asked: seq<Staging.Event>  // and its log
    var committed: Db
    var pending: Db
    var payloads: map<nat, Bytes>   // the workspace files payload-0, payload-1, ...
    var expanded: u64
    var signedFiles: nat
    var preservedFiles: nat
    ghost var failed: bool          // a call into the platform has thrown
    ghost var calls: nat            // signer callbacks made so far
    ghost var changed: set<nat>     // payloads that a callback has signed
    ghost var original: map<nat, Bytes>   // the payloads as they were extracted
    ghost var reason: Reason        // why a run after the preflight threw

    /** The machine is sound and the package file as it was. */
    ghost predicate Quiet()
      reads this, machine
    {
      && machine.Valid() && Staging.At(machine.tree, Staging.Staged) == staged
      && since <= machine.history && asked <= machine.log
    }

    constructor (db: Db, m: Staging.Machine, j: Option<Job>)
      requires m.Valid()
      ensures machine == m && job == j && staged == Staging.At(m.tree, Staging.Staged) && since == m.history
      ensures asked == m.log && Quiet()
      ensures committed == pending == db && payloads == map[] && expanded == 0 && !failed && calls == 0 && changed == {}
      ensures signedFiles == preservedFiles == 0
    {
      machine, job, staged := m, j, Staging.At(m.tree, Staging.Staged);
      since, asked := m.history, m.log;
      original, reason := map[], NoReason;
      committed, pending, payloads, expanded := db, db, map[], 0;
      signedFiles, preservedFiles := 0, 0;
      failed, calls, changed := false, 0, {};
    }

    /** A platform call that either works or throws. */
    method Platform() returns (ok: bool)
      modifies this`failed
      ensures !ok ==> failed
      ensures ok ==> failed == old(failed)
    {
      ok := *;
      if !ok { failed := true; }
    }

    /** `extract_cabinet` writes some bytes to each member's file; sizes are checked afterwards. */
    method ExtractMembers(ms: seq<Member>, ghost first: nat) returns (ok: bool)
      requires forall k :: 0 <= k < |ms| ==> ms[k].path == first + k
      modifies this`payloads, this`failed
      ensures !ok ==> failed
      ensures ok ==> failed == old(failed)
      ensures ok ==> forall p: nat :: first <= p < first + |ms| ==> p in payloads && |payloads[p]| == ms[p - first].size
      ensures forall p :: p in old(payloads) && p < first ==> p in payloads && payloads[p] == old(payloads)[p]
    {
      ok := Platform();
      if !ok { return; }
      for k := 0 to |ms|
        invariant failed == old(failed)
        invariant forall p: nat :: first <= p < first + k ==> p in payloads && |payloads[p]| == ms[p - first].size
        invariant forall p :: p in old(payloads) && p < first ==> p in payloads && payloads[p] == old(payloads)[p]
      {
        var bytes: Bytes := *;
        payloads := payloads[ms[k].path := bytes];
        if |bytes| != ms[k].size { failed := true; return false; }
      }
      ok := true;
    }

    /** One cabinet: extract the stream, inspect it, map its members, extract and measure them. */
    method LoadCabinet(ref: Cab, files: map<Bytes, FileInfo>, found: set<Bytes>, total: u64, count: nat,
                       ghost cabs: seq<Cab>, ghost i: nat)
      returns (r: Outcome<Inspection>, after: set<Bytes>)
      requires IsFileMap(files, pending.files) && DistinctFileKeys(pending.files)
      requires Mapped(pending, cabs, found, i, total, count) && Extracted(payloads, Flat(cabs)) && i < |pending.media|
      requires ref == CabFor(pending.media, i, [])
      modifies this`payloads, this`failed
      ensures r.Ok? ==> failed == old(failed) && r.value.total <= EXPANSION_LIMIT
      ensures r.Ok? ==> Mapped(pending, cabs + [ref.(members := r.value.members)], after, i + 1,
                               r.value.total, r.value.count)
      ensures r.Ok? ==> Extracted(payloads, Flat(cabs + [ref.(members := r.value.members)]))
      ensures r.Throws? ==> failed || !CabinetsOk(pending)
    {
      hide Mapped, InspectFrom, MappingOk;
      after := found;
      var read := Platform();
      if !read { return Throws, after; }
      assert count == |Flat(cabs)| by { MappedCount(pending, cabs, found, i, total, count); }
      r, after := InspectAndMap(pending, ref, files, found, total, count, cabs, i);
      if r.Throws? { return Throws, after; }
      var extracted := ExtractMembers(r.value.members, count);
      if !extracted { return Throws, after; }
      FlatAppend(cabs, ref.(members := r.value.members));
    }

    /** The cabinet loop. */
    method LoadCabinets(refs: seq<Cab>, files: map<Bytes, FileInfo>) returns (r: Outcome<Inspected>, found: set<Bytes>)
      requires MediaOk(pending.media) && FilesOk(pending.files, pending.compressed) && IsFileMap(files, pending.files)
      requires |refs| == |pending.media| && forall i :: 0 <= i < |refs| ==> refs[i] == CabFor(pending.media, i, [])
      modifies this`payloads, this`failed
      ensures r.Ok? ==> r == InspectFrom(pending, 0, 0, 0) && failed == old(failed)
      ensures r.Ok? ==> forall c :: c in r.value.cabs ==> CabMaps(c, pending.files)
      ensures r.Ok? ==> DistinctMembers(Flat(r.value.cabs))
      ensures r.Ok? ==> AreNames(found, Flat(r.value.cabs)) && Extracted(payloads, Flat(r.value.cabs))
      ensures r.Throws? ==> failed || !CabinetsOk(pending)
    {
      hide InspectFrom, MediaOk, FilesOk, IsFileMap, CabMaps, DistinctMembers, AreNames, Mapped;
      var cabs: seq<Cab> := [];
      var total: u64, count: nat := 0, 0;
      found := {};
      NothingMapped(pending);
      KeysAreDistinct(pending.files, pending.compressed);
      for i := 0 to |refs|
        invariant Mapped(pending, cabs, found, i, total, count) && failed == old(failed)
        invariant Extracted(payloads, Flat(cabs))
      {
        var loaded;
        loaded, found := LoadCabinet(refs[i], files, found, total, count, cabs, i);
        if loaded.Throws? { return Throws, found; }
        cabs := cabs + [refs[i].(members := loaded.value.members)];
        total, count := loaded.value.total, loaded.value.count;
      }
      AllMapped(pending, cabs, found, total, count);
      return Ok(Inspected(cabs, total, count)), found;
    }

    /** The Binary loop: every stream fits what is left of the expansion limit. */
    method LoadBinaries(total: u64, first: nat) returns (r: Outcome<u64>)
      requires total <= EXPANSION_LIMIT
      modifies this`payloads, this`failed
      ensures r.Ok? ==> r == BinariesFrom(pending, 0, total, first) && failed == old(failed)
      ensures r.Ok? ==> Copied(payloads, pending, first, |pending.binaryNames|)
      ensures r.Throws? ==> failed || BinariesFrom(pending, 0, total, first).Throws?
      ensures forall p :: p in old(payloads) && p < first ==> p in payloads && payloads[p] == old(payloads)[p]
    {
      var sum: u64, count := total, first;
      for j := 0 to |pending.binaryNames|
        invariant failed == old(failed) && sum <= EXPANSION_LIMIT && count == first + j
        invariant BinariesFrom(pending, 0, total, first) == BinariesFrom(pending, j, sum, count)
        invariant Copied(payloads, pending, first, j)
        invariant forall p :: p in old(payloads) && p < first ==> p in payloads && payloads[p] == old(payloads)[p]
      {
        if count >= MEMBER_LIMIT { return Throws; }
        var name := pending.binaryNames[j];
        var room: u64 := EXPANSION_LIMIT - sum;
        var read := Platform();
        if !read { return Throws; }
        if name !in pending.binaries { return Throws; }
        var data := pending.binaries[name];
        if |data| > room { return Throws; }
        assert pending.binaryNames[count - first] == name;
        payloads := payloads[count := data];
        count := count + 1;
        sum := sum + |data|;
      }
      return Ok(sum);
    }

    /** Everything before the first callback. */
    method Preflight() returns (r: Outcome<Plan>)
      modifies this`payloads, this`failed, this`expanded
      ensures r.Ok? ==> PlanIs(pending, r.value, payloads, expanded) && failed == old(failed)
      ensures r.Throws? ==> failed || !Preflightable(pending)
    {
      hide InspectFrom, MediaOk, FilesOk, HashesOk, IsFileMap, CabMaps, DistinctMembers, AreNames, BinariesFrom;
      var open := Platform();
      if !open { return Throws; }
      if pending.hasStorages { return Throws; }
      var refs := ReadMedia(pending.media);
      if refs.Throws? { return Throws; }
      var files := ReadFiles(pending.files, pending.compressed);
      if files.Throws? { return Throws; }
      var loaded, found := LoadCabinets(refs.value, files.value);
      if loaded.Throws? { return Throws; }
      var covered := AllFound(files.value, found, pending.files, Flat(loaded.value.cabs));
      if !covered { return Throws; }
      FlatCount(pending, 0, 0, 0);
      ghost var extracted := payloads;
      var total := LoadBinaries(loaded.value.total, loaded.value.count);
      if total.Throws? { return Throws; }
      var hashed := ReadHashes(pending.hashes);
      if hashed.Throws? { return Throws; }
      expanded := total.value;
      return Ok(Plan(loaded.value.cabs, files.value, hashed.value, loaded.value.count));
    }
  }

  /** Every File row was taken by some member. */
  method AllFound(files: map<Bytes, FileInfo>, found: set<Bytes>, ghost rows: seq<FileRow>, ghost ms: seq<Member>)
    returns (ok: bool)
    requires IsFileMap(files, rows) && AreNames(found, ms)
    ensures ok <==> forall i :: 0 <= i < |rows| ==> IsMember(ms, rows[i].key)
  {
    ok := true;
    var left := files.Keys;
    while left != {}
      invariant left <= files.Keys && forall k :: k in files && k !in left ==> k in found
      decreases |left|
    {
      var k :| k in left;
      if k !in found {
        assert k in files;
        ghost var i :| 0 <= i < |rows| && rows[i].key == k;
        return false;
      }
      left := left - {k};
    }
  }

  /** The loop invariant of the cabinet loop before row `i`: what is known of the rows before it. */
  ghost predicate Mapped(db: Db, cabs: seq<Cab>, found: set<Bytes>, i: nat, total: nat, count: nat)
  {
    && MediaOk(db.media) && i <= |db.media| && total <= EXPANSION_LIMIT && count == |Flat(cabs)| <= MEMBER_LIMIT
    && CabSuffix(InspectFrom(db, 0, 0, 0), cabs, InspectFrom(db, i, total, count))
    && (forall c :: c in cabs ==> CabMaps(c, db.files))
    && DistinctMembers(Flat(cabs)) && AreNames(found, Flat(cabs))
  }

  lemma {:induction false} MappedCount(db: Db, cabs: seq<Cab>, found: set<Bytes>, i: nat, total: nat, count: nat)
    requires Mapped(db, cabs, found, i, total, count)
    ensures count == |Flat(cabs)|
  {
  }

  /** Inspects one cabinet within the budgets and maps its members to File rows. */
  method InspectAndMap(db: Db, ref: Cab, files: map<Bytes, FileInfo>, found: set<Bytes>, total: u64, count: nat,
                       ghost cabs: seq<Cab>, ghost i: nat)
    returns (r: Outcome<Inspection>, after: set<Bytes>)
    requires IsFileMap(files, db.files) && DistinctFileKeys(db.files)
    requires Mapped(db, cabs, found, i, total, count) && i < |db.media| && ref == CabFor(db.media, i, [])
    ensures r.Ok? ==> Mapped(db, cabs + [ref.(members := r.value.members)], after, i + 1, r.value.total, r.value.count)
    ensures r.Ok? ==> r.value.total <= EXPANSION_LIMIT && forall k :: 0 <= k < |r.value.members| ==>
            r.value.members[k].path == count + k
    ensures r.Throws? ==> !CabinetsOk(db)
  {
    hide InspectFrom, CabSuffix, LayoutOf, Acceptable, MediaOk, IsFileMap, Maps, CabMaps, DistinctMembers, AreNames,
         MappingOk, Members;
    ghost var all := InspectFrom(db, 0, 0, 0);
    CabStep(db, i, total, count, all, cabs);
    after := found;
    if ref.name !in db.streams { return Throws, after; }
    var inspected := InspectCabinet(db.streams[ref.name], total, count);
    if inspected.Throws? { return Throws, after; }
    var cab := ref.(members := inspected.value.members);
    ghost var rest := InspectFrom(db, i + 1, inspected.value.total, inspected.value.count);
    assert CabSuffix(all, cabs + [cab], rest);
    var mapped;
    mapped, after := MapMembers(cab, files, found, Flat(cabs), db.files);
    if !mapped {
      if all.Ok? { Spoilt(all, cabs, cab, rest, db.files); }
      return Throws, after;
    }
    PathsFrom(cab.members, LayoutOf(db.streams[ref.name]).value.table.records, count);
    FlatAppend(cabs, cab);
    return inspected, after;
  }

  lemma PathsFrom(ms: seq<Member>, rs: seq<Record>, count: nat)
    requires ms == Members(rs, count)
    ensures |ms| == |rs| && forall k :: 0 <= k < |ms| ==> ms[k].path == count + k
  {
  }

  predicate DistinctFileKeys(rows: seq<FileRow>) { forall i, j :: 0 <= i < j < |rows| ==> rows[i].key != rows[j].key }

  lemma KeysAreDistinct(rows: seq<FileRow>, compressed: bool)
    requires FilesOk(rows, compressed)
    ensures DistinctFileKeys(rows)
  {
  }

  lemma NothingMapped(db: Db)
    requires MediaOk(db.media)
    ensures Mapped(db, [], {}, 0, 0, 0)
  {
    var all := InspectFrom(db, 0, 0, 0);
    if all.Ok? { assert [] + all.value.cabs == all.value.cabs; }
  }

  lemma {:induction false} AllMapped(db: Db, cabs: seq<Cab>, found: set<Bytes>, total: nat, count: nat)
    requires Mapped(db, cabs, found, |db.media|, total, count)
    ensures MediaOk(db.media) && InspectFrom(db, 0, 0, 0) == Ok(Inspected(cabs, total, count))
    ensures (forall c :: c in cabs ==> CabMaps(c, db.files)) && DistinctMembers(Flat(cabs))
            && AreNames(found, Flat(cabs))
  {
    assert cabs + [] == cabs;
  }

  lemma {:induction false} Spoilt(all: Outcome<Inspected>, done: seq<Cab>, c: Cab, rest: Outcome<Inspected>,
                                  rows: seq<FileRow>)
    requires all.Ok? && CabSuffix(all, done + [c], rest)
    requires !CabMaps(c, rows) || !DistinctMembers(Flat(done) + c.members)
    ensures !MappingOk(all.value.cabs, rows)
  {
    hide MappingOk, CabMaps, DistinctMembers;
    MappingSpoilt(all.value.cabs, done, c, rest.value.cabs, rows);
  }
}
