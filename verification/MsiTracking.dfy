/**
 * How the pending database follows the payload files while a rewrite signs them
 * (src/msi_recursive.cpp), stated on values.
 */
module MsiTracking {
  import opened Wire
  import opened Cabinet
  import opened CabinetMetadata
  import opened Msi
  import opened MsiSession

  /** The Windows Installer file hash, of which nothing is assumed. */
  type FileHash = Bytes -> seq<int32>

  /** The pending database, the payload files, and which of them were signed. */
  datatype Snap = Snap(db: Db, payloads: map<nat, Bytes>, changed: set<nat>)

  // ----- accounting

  /** The bytes in payload files 0 to n - 1. */
  function PayloadTotal(payloads: map<nat, Bytes>, n: nat): nat
    requires forall p: nat :: p < n ==> p in payloads
  {
    if n == 0 then 0 else PayloadTotal(payloads, n - 1) + |payloads[n - 1]|
  }

  /** The running total covers every payload file and stays within the expansion limit. */
  ghost predicate Accounted(payloads: map<nat, Bytes>, n: nat, expanded: nat)
  {
    && (forall p: nat :: p < n ==> p in payloads)
    && PayloadTotal(payloads, n) <= expanded <= EXPANSION_LIMIT
  }

  lemma {:induction false} TotalUpdate(payloads: map<nat, Bytes>, n: nat, p: nat, bytes: Bytes)
    requires p < n && forall q: nat :: q < n ==> q in payloads
    ensures PayloadTotal(payloads[p := bytes], n) == PayloadTotal(payloads, n) - |payloads[p]| + |bytes|
    ensures |payloads[p]| <= PayloadTotal(payloads, n)
  {
    if p == n - 1 {
      TotalAgrees(payloads, payloads[p := bytes], n - 1);
    } else {
      TotalUpdate(payloads, n - 1, p, bytes);
    }
  }

  /**
   * The running total has moved from `first` exactly as the payload files have moved from the
   * original ones, and only signed ones have moved at all.
   */
  ghost predicate Balanced(original: map<nat, Bytes>, payloads: map<nat, Bytes>, changed: set<nat>, n: nat,
                           first: nat, expanded: nat)
  {
    && (forall p: nat :: p < n ==> p in original && p in payloads)
    && (forall p: nat :: p < n && p !in changed ==> payloads[p] == original[p])
    && expanded + PayloadTotal(original, n) == first + PayloadTotal(payloads, n)
  }

  lemma BalancedStarts(payloads: map<nat, Bytes>, n: nat, expanded: nat)
    requires forall p: nat :: p < n ==> p in payloads
    ensures Balanced(payloads, payloads, {}, n, expanded, expanded)
  {
  }

  /** Exchanging one payload's size keeps the balance. */
  lemma BalancedStep(original: map<nat, Bytes>, was: map<nat, Bytes>, now: map<nat, Bytes>, changed: set<nat>, n: nat,
                     first: nat, expanded: nat, p: nat)
    requires Balanced(original, was, changed, n, first, expanded) && p < n
    requires p in now && now == was[p := now[p]] && |was[p]| <= expanded
    ensures Balanced(original, now, changed + {p}, n, first, expanded - |was[p]| + |now[p]|)
  {
    TotalUpdate(was, n, p, now[p]);
  }

  lemma {:induction false} TotalAgrees(a: map<nat, Bytes>, b: map<nat, Bytes>, n: nat)
    requires forall p: nat :: p < n ==> p in a && p in b && a[p] == b[p]
    ensures PayloadTotal(a, n) == PayloadTotal(b, n)
  {
    if n > 0 { TotalAgrees(a, b, n - 1); }
  }

  lemma {:induction false} MembersSnoc(ms: seq<Member>)
    requires ms != []
    ensures TotalMembers(ms) == TotalMembers(ms[..|ms| - 1]) + ms[|ms| - 1].size
  {
    TotalMembersCat(ms[..|ms| - 1], ms[|ms| - 1..]);
    assert ms == ms[..|ms| - 1] + ms[|ms| - 1..];
    var last := ms[|ms| - 1..];
    assert last[1..] == [] && TotalMembers(last[1..]) == 0;
  }

  lemma {:induction false} ExtractedTotal(payloads: map<nat, Bytes>, ms: seq<Member>, n: nat)
    requires Extracted(payloads, ms) && n <= |ms|
    ensures PayloadTotal(payloads, n) == TotalMembers(ms[..n])
  {
    if n > 0 {
      ExtractedTotal(payloads, ms, n - 1);
      MembersSnoc(ms[..n]);
      assert ms[..n][..n - 1] == ms[..n - 1];
    }
  }

  lemma {:induction false} BinaryTotal(db: Db, payloads: map<nat, Bytes>, first: nat, j: nat, total: nat, count: nat)
    requires j <= |db.binaryNames| && total <= EXPANSION_LIMIT && BinariesFrom(db, j, total, count).Ok?
    requires Copied(payloads, db, first, |db.binaryNames|) && forall p: nat :: p < first ==> p in payloads
    requires PayloadTotal(payloads, first + j) <= total
    ensures PayloadTotal(payloads, first + |db.binaryNames|) <= BinariesFrom(db, j, total, count).value
    decreases |db.binaryNames| - j
  {
    if j < |db.binaryNames| {
      var size := |db.binaries[db.binaryNames[j]]|;
      assert payloads[first + j] == db.binaries[db.binaryNames[first + j - first]];
      BinaryTotal(db, payloads, first, j + 1, total + size, count + 1);
    }
  }

  /** After the preflight the total covers the sizes of all extracted payloads. */
  lemma PlanIsAccounted(db: Db, plan: Plan, payloads: map<nat, Bytes>, expanded: nat)
    requires PlanIs(db, plan, payloads, expanded)
    ensures Accounted(payloads, PayloadCount(db), expanded)
  {
    hide InspectFrom, BinariesFrom, MediaOk, FilesOk, MappingOk, HashesOk, Flat, TotalMembers, PayloadTotal;
    var ms := MembersOf(db);
    var ins := InspectFrom(db, 0, 0, 0).value;
    MembersFitTotal(db, 0, 0, 0);
    ExtractedTotal(payloads, ms, |ms|);
    assert ms[..|ms|] == ms;
    assert |ms| + 0 == |ms|;
    BinaryTotal(db, payloads, |ms|, 0, ins.total, ins.count);
  }

  // ----- positions

  /** The number of the first payload of cabinet `i`. */
  function CabStart(cabs: seq<Cab>, i: nat): nat
    requires i <= |cabs|
  {
    |Flat(cabs[..i])|
  }

  lemma CabStartStep(cabs: seq<Cab>, i: nat)
    requires i < |cabs|
    ensures CabStart(cabs, i + 1) == CabStart(cabs, i) + |cabs[i].members|
  {
    assert cabs[..i + 1] == cabs[..i] + [cabs[i]];
    FlatAppend(cabs[..i], cabs[i]);
  }

  lemma {:induction false} CabStartGrows(cabs: seq<Cab>, i: nat, j: nat)
    requires i <= j <= |cabs|
    ensures CabStart(cabs, i) <= CabStart(cabs, j)
    decreases j - i
  {
    if i < j {
      CabStartGrows(cabs, i, j - 1);
      CabStartStep(cabs, j - 1);
    }
  }

  lemma {:induction false} FlatAt(cabs: seq<Cab>, i: nat, k: nat)
    requires i < |cabs| && k < |cabs[i].members|
    ensures CabStart(cabs, i) + k < |Flat(cabs)| && Flat(cabs)[CabStart(cabs, i) + k] == cabs[i].members[k]
  {
    var tail := cabs[i + 1..];
    assert cabs == (cabs[..i] + [cabs[i]]) + tail;
    FlatAppend(cabs[..i], cabs[i]);
    FlatCat(cabs[..i] + [cabs[i]], tail);
  }

  /** Member `k` of cabinet `i` is payload `CabStart + k`. */
  lemma MemberPath(db: Db, i: nat, k: nat)
    requires Preflightable(db) && i < |CabsOf(db)| && k < |CabsOf(db)[i].members|
    ensures var p := CabStart(CabsOf(db), i) + k;
            p < |MembersOf(db)| && MembersOf(db)[p] == CabsOf(db)[i].members[k] && CabsOf(db)[i].members[k].path == p
  {
    hide InspectFrom, BinariesFrom, MediaOk, FilesOk, MappingOk, HashesOk, Flat;
    FlatAt(CabsOf(db), i, k);
    PathsAreIndices(db, 0, 0, 0, CabStart(CabsOf(db), i) + k);
  }

  // ----- updates

  function SetSize(rows: seq<FileRow>, key: Bytes, size: int32): (r: seq<FileRow>)
    ensures |r| == |rows|
    ensures forall i :: 0 <= i < |rows| ==>
              r[i] == if rows[i].key == key then rows[i].(size := Number(size)) else rows[i]
  {
    seq(|rows|, i requires 0 <= i < |rows| => if rows[i].key == key then rows[i].(size := Number(size)) else rows[i])
  }

  function SetHash(rows: seq<HashRow>, key: Bytes, parts: seq<int32>): (r: seq<HashRow>)
    ensures |r| == |rows|
    ensures forall i :: 0 <= i < |rows| ==> r[i] == if rows[i].file == key then rows[i].(parts := parts) else rows[i]
  {
    seq(|rows|, i requires 0 <= i < |rows| => if rows[i].file == key then rows[i].(parts := parts) else rows[i])
  }

  // ----- what the pending database says about the payloads

  ghost predicate PayloadsTrack(ms: seq<Member>, count: nat, x: Snap)
  {
    && |ms| <= count
    && (forall p: nat :: p < count ==> p in x.payloads && |x.payloads[p]| <= EXPANSION_LIMIT)
    && (forall p: nat :: p < |ms| && p !in x.changed ==> |x.payloads[p]| == ms[p].size)
  }

  /** A row is as it was, or its size is that of its signed payload. */
  predicate RowFollows(was: FileRow, row: FileRow, p: nat, x: Snap)
  {
    if p in x.changed
    then p in x.payloads && |x.payloads[p]| < 0x8000_0000 && row == was.(size := Number(|x.payloads[p]|))
    else row == was
  }

  ghost predicate RowsTrack(base: Db, ms: seq<Member>, x: Snap)
  {
    && |x.db.files| == |base.files|
    && (forall i, p :: 0 <= i < |base.files| && 0 <= p < |ms| && base.files[i].key == ms[p].name ==>
          RowFollows(base.files[i], x.db.files[i], p, x))
  }

  /** A hash row is as it was, or holds the hash of its signed, unversioned payload. */
  predicate HashFollows(was: HashRow, row: HashRow, version: Bytes, p: nat, x: Snap, hash: FileHash)
  {
    if p in x.changed && version == []
    then p in x.payloads && row == was.(parts := hash(x.payloads[p]))
    else row == was
  }

  /** Hash row `h`, File row `i` and payload `p` are about the same file. */
  predicate SameFile(base: Db, ms: seq<Member>, h: int, i: int, p: int)
  {
    && 0 <= h < |base.hashes| && 0 <= i < |base.files| && 0 <= p < |ms|
    && base.hashes[h].file == ms[p].name && base.files[i].key == ms[p].name
  }

  ghost predicate HashesTrack(base: Db, ms: seq<Member>, x: Snap, hash: FileHash)
  {
    && |x.db.hashes| == |base.hashes|
    && (forall h, i, p :: SameFile(base, ms, h, i, p) ==>
          HashFollows(base.hashes[h], x.db.hashes[h], base.files[i].version, p, x, hash))
    && (forall h :: 0 <= h < |base.hashes| && !IsMember(ms, base.hashes[h].file) ==> x.db.hashes[h] == base.hashes[h])
  }

  predicate CabChanged(c: Cab, changed: set<nat>) { exists k :: 0 <= k < |c.members| && c.members[k].path in changed }

  function Sizes(ms: seq<Member>, payloads: map<nat, Bytes>): (r: seq<nat>)
    requires forall m :: m in ms ==> m.path in payloads
    ensures |r| == |ms| && forall k :: 0 <= k < |ms| ==> ms[k].path in payloads && r[k] == |payloads[ms[k].path]|
  {
    seq(|ms|, k requires 0 <= k < |ms| => assert ms[k] in ms; |payloads[ms[k].path]|)
  }

  /** `stream` is the rebuilt cabinet `f`, which named the members in order, with its metadata restored. */
  ghost predicate RebuiltFrom(f: Bytes, stream: Bytes, ms: seq<Member>, payloads: map<nat, Bytes>)
  {
    && (forall m :: m in ms ==> m.path in payloads)
    && HasHeader(f, |ms|) && Matches(f, Le32(f, 16), ms, Sizes(ms, payloads)) && stream == PatchAll(f, Le32(f, 16), ms)
  }

  ghost predicate Rebuilt(stream: Bytes, ms: seq<Member>, payloads: map<nat, Bytes>)
  {
    exists f :: RebuiltFrom(f, stream, ms, payloads)
  }

  ghost predicate StreamFollows(base: Db, c: Cab, x: Snap, finished: bool)
  {
    && c.name in base.streams && c.name in x.db.streams
    && if finished && CabChanged(c, x.changed) then Rebuilt(x.db.streams[c.name], c.members, x.payloads)
       else x.db.streams[c.name] == base.streams[c.name]
  }

  predicate NamesCab(cabs: seq<Cab>, n: Bytes) { exists i :: 0 <= i < |cabs| && cabs[i].name == n }

  ghost predicate StreamsTrack(base: Db, cabs: seq<Cab>, x: Snap, done: nat)
  {
    && x.db.streams.Keys == base.streams.Keys
    && (forall i :: 0 <= i < |cabs| ==> StreamFollows(base, cabs[i], x, i < done))
    && (forall n :: n in base.streams && !NamesCab(cabs, n) ==> x.db.streams[n] == base.streams[n])
  }

  /** Binary stream `j` is payload `first + j`. */
  predicate BinaryFollows(base: Db, x: Snap, first: nat, j: nat, done: nat)
    requires j < |base.binaryNames|
  {
    var n := base.binaryNames[j];
    && n in base.binaries && n in x.db.binaries
    && if j < done && first + j in x.changed then first + j in x.payloads && x.db.binaries[n] == x.payloads[first + j]
       else x.db.binaries[n] == base.binaries[n]
  }

  ghost predicate BinariesTrack(base: Db, first: nat, x: Snap, done: nat)
  {
    && x.db.binaries.Keys == base.binaries.Keys
    && (forall j :: 0 <= j < |base.binaryNames| ==> BinaryFollows(base, x, first, j, done))
    && (forall n :: n in base.binaries && n !in base.binaryNames ==> x.db.binaries[n] == base.binaries[n])
  }

  /** Nothing else in the database has changed. */
  predicate SameElsewhere(base: Db, db: Db)
  {
    db == base.(files := db.files, hashes := db.hashes, streams := db.streams, binaries := db.binaries)
  }

  /**
   * The pending database after `done` cabinets and `bins` Binary streams, with only payloads
   * below `next` signed.
   */
  ghost predicate Tracks(base: Db, cabs: seq<Cab>, x: Snap, next: nat, done: nat, bins: nat, hash: FileHash)
  {
    var ms := Flat(cabs);
    && SameElsewhere(base, x.db) && PayloadsTrack(ms, |ms| + |base.binaryNames|, x)
    && RowsTrack(base, ms, x) && SameFileKeys(base, x.db) && HashesTrack(base, ms, x, hash) && SameHashKeys(base, x.db)
    && StreamsTrack(base, cabs, x, done) && BinariesTrack(base, |ms|, x, bins)
    && forall p :: p in x.changed ==> p < next
  }

  // ----- steps

  lemma {:induction false} PayloadBound(payloads: map<nat, Bytes>, n: nat, p: nat)
    requires p < n && forall q: nat :: q < n ==> q in payloads
    ensures |payloads[p]| <= PayloadTotal(payloads, n)
  {
    TotalUpdate(payloads, n, p, payloads[p]);
  }

  /** Before the first callback nothing has changed. */
  lemma PlanTracks(base: Db, plan: Plan, payloads: map<nat, Bytes>, expanded: nat, hash: FileHash)
    requires PlanIs(base, plan, payloads, expanded)
    ensures Tracks(base, CabsOf(base), Snap(base, payloads, {}), 0, 0, 0, hash)
  {
    hide InspectFrom, BinariesFrom, MediaOk, FilesOk, MappingOk, HashesOk, Flat, Accounted;
    var cabs, x := CabsOf(base), Snap(base, payloads, {});
    PlanIsAccounted(base, plan, payloads, expanded);
    PayloadsAreBounded(payloads, PayloadCount(base), expanded);
    forall i | 0 <= i < |cabs| ensures StreamFollows(base, cabs[i], x, false) { CabAt(base, 0, 0, 0, i); }
    assert SameElsewhere(base, base);
    forall j | 0 <= j < |base.binaryNames| ensures BinaryFollows(base, x, |Flat(cabs)|, j, 0) {
      assert |Flat(cabs)| + j in payloads;
      assert base.binaryNames[|Flat(cabs)| + j - |Flat(cabs)|] in base.binaries;
    }
  }

  lemma PayloadsAreBounded(payloads: map<nat, Bytes>, n: nat, expanded: nat)
    requires Accounted(payloads, n, expanded)
    ensures forall p: nat :: p < n ==> p in payloads && |payloads[p]| <= EXPANSION_LIMIT
  {
    forall p: nat | p < n ensures |payloads[p]| <= EXPANSION_LIMIT { PayloadBound(payloads, n, p); }
  }

  /** Signing a payload that no finished cabinet or stream holds leaves the streams in step. */
  lemma StreamsKeep(base: Db, cabs: seq<Cab>, x: Snap, y: Snap, done: nat, p: nat)
    requires StreamsTrack(base, cabs, x, done) && y.db.streams == x.db.streams && done <= |cabs|
    requires y.changed == x.changed + {p}
    requires forall q :: q in x.payloads && q != p ==> q in y.payloads && y.payloads[q] == x.payloads[q]
    requires forall i, k :: 0 <= i < done && 0 <= k < |cabs[i].members| ==> cabs[i].members[k].path != p
    ensures StreamsTrack(base, cabs, y, done)
  {
    hide HasHeader, Matches, PatchAll;
    forall i | 0 <= i < |cabs| ensures StreamFollows(base, cabs[i], y, i < done) {
      assert StreamFollows(base, cabs[i], x, i < done);
      if i < done {
        assert CabChanged(cabs[i], y.changed) == CabChanged(cabs[i], x.changed);
        if CabChanged(cabs[i], x.changed) {
          RebuiltKeeps(x.db.streams[cabs[i].name], cabs[i].members, x.payloads, y.payloads);
        }
      }
    }
  }

  lemma RebuiltKeeps(stream: Bytes, ms: seq<Member>, a: map<nat, Bytes>, b: map<nat, Bytes>)
    requires Rebuilt(stream, ms, a)
    requires forall k :: 0 <= k < |ms| && ms[k].path in a ==> ms[k].path in b && a[ms[k].path] == b[ms[k].path]
    ensures Rebuilt(stream, ms, b)
  {
    hide HasHeader, Matches, PatchAll;
    var f :| RebuiltFrom(f, stream, ms, a);
    forall m | m in ms ensures m.path in b { var k :| 0 <= k < |ms| && ms[k] == m; }
    assert Sizes(ms, a) == Sizes(ms, b);
    assert RebuiltFrom(f, stream, ms, b);
  }

  lemma BinariesKeep(base: Db, first: nat, x: Snap, y: Snap, done: nat, p: nat)
    requires BinariesTrack(base, first, x, done) && y.db.binaries == x.db.binaries
    requires y.changed == x.changed + {p}
    requires forall q :: q in x.payloads && q != p ==> q in y.payloads && y.payloads[q] == x.payloads[q]
    requires p >= first + done || p < first
    ensures BinariesTrack(base, first, y, done)
  {
    forall j | 0 <= j < |base.binaryNames| ensures BinaryFollows(base, y, first, j, done) {
      assert BinaryFollows(base, x, first, j, done);
    }
  }

  /** The File row of a signed member gets the new size; no other row changes. */
  lemma RowsStep(base: Db, ms: seq<Member>, x: Snap, y: Snap, p: nat)
    requires RowsTrack(base, ms, x) && DistinctMembers(ms) && p < |ms| && p !in x.changed
    requires y.changed == x.changed + {p} && p in y.payloads && |y.payloads[p]| < 0x8000_0000
    requires forall q :: q in x.payloads && q != p ==> q in y.payloads && y.payloads[q] == x.payloads[q]
    requires y.db.files == SetSize(x.db.files, ms[p].name, |y.payloads[p]|)
    requires SameFileKeys(base, x.db)
    ensures RowsTrack(base, ms, y) && SameFileKeys(base, y.db)
  {
    forall i, q | 0 <= i < |base.files| && 0 <= q < |ms| && base.files[i].key == ms[q].name
      ensures RowFollows(base.files[i], y.db.files[i], q, y)
    {
      assert RowFollows(base.files[i], x.db.files[i], q, x);
      if q != p { assert ms[q].name != ms[p].name; }
    }
  }

  /** Updates leave the identifiers of rows alone. */
  predicate SameFileKeys(base: Db, db: Db)
  {
    |db.files| == |base.files| && forall i :: 0 <= i < |base.files| ==> db.files[i].key == base.files[i].key
  }

  predicate SameHashKeys(base: Db, db: Db)
  {
    |db.hashes| == |base.hashes| && forall h :: 0 <= h < |base.hashes| ==> db.hashes[h].file == base.hashes[h].file
  }

  /** The hash row of a signed unversioned member gets the new hash; no other row changes. */
  lemma HashesStep(base: Db, ms: seq<Member>, x: Snap, y: Snap, p: nat, version: Bytes, hash: FileHash)
    requires HashesTrack(base, ms, x, hash) && DistinctMembers(ms) && p < |ms| && p !in x.changed
             && SameHashKeys(base, x.db)
    requires y.changed == x.changed + {p} && p in y.payloads
    requires forall q :: q in x.payloads && q != p ==> q in y.payloads && y.payloads[q] == x.payloads[q]
    requires forall i :: 0 <= i < |base.files| && base.files[i].key == ms[p].name ==> base.files[i].version == version
    requires y.db.hashes == if version == [] then SetHash(x.db.hashes, ms[p].name, hash(y.payloads[p])) else x.db.hashes
    ensures HashesTrack(base, ms, y, hash) && SameHashKeys(base, y.db)
  {
    forall h, i, q | SameFile(base, ms, h, i, q)
      ensures HashFollows(base.hashes[h], y.db.hashes[h], base.files[i].version, q, y, hash)
    {
      assert HashFollows(base.hashes[h], x.db.hashes[h], base.files[i].version, q, x, hash);
      if q != p { assert ms[q].name != ms[p].name; }
    }
    forall h | 0 <= h < |base.hashes| && !IsMember(ms, base.hashes[h].file) ensures y.db.hashes[h] == base.hashes[h] {
      assert base.hashes[h].file != ms[p].name;
    }
  }
}
