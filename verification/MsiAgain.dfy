/**
 * A second rewrite (src/msi_recursive.cpp): when no cabinet member was signed, the committed
 * database passes the whole preflight again, its budgets included.
 */
module MsiAgain {
  import opened Wire
  import opened Cabinet
  import opened Msi
  import opened MsiSession
  import opened MsiTracking
  import opened MsiRewrite
  import opened MsiOutcome

  // ----- the cabinets

  /** Both databases hold the same stream, or none, for the cabinet of Media row `k`. */
  predicate SameStream(a: Db, b: Db, k: nat)
    requires k < |a.media|
  {
    var n := CabName(a.media[k]);
    (n in a.streams <==> n in b.streams) && (n in a.streams ==> a.streams[n] == b.streams[n])
  }

  lemma {:induction false} InspectAgrees(a: Db, b: Db, i: nat, total: nat, count: nat)
    requires a.media == b.media && MediaOk(a.media) && i <= |a.media|
    requires total <= EXPANSION_LIMIT && count <= MEMBER_LIMIT
    requires forall k :: 0 <= k < |a.media| ==> SameStream(a, b, k)
    ensures InspectFrom(a, i, total, count) == InspectFrom(b, i, total, count)
    decreases |a.media| - i
  {
    hide LayoutOf, Acceptable, MediaOk, Members;
    if i < |a.media| {
      assert SameStream(a, b, i);
      var n := CabName(a.media[i]);
      if n in a.streams && LayoutOf(a.streams[n]).Ok? && Acceptable(LayoutOf(a.streams[n]).value, total, count) {
        var c := LayoutOf(a.streams[n]).value;
        AcceptableFits(c, total, count);
        InspectAgrees(a, b, i + 1, total + Expanded(c.folders), count + |c.table.records|);
      }
    }
  }

  /** No payload of a cabinet member was signed. */
  ghost predicate OnlyBinaries(base: Db, changed: set<nat>)
    requires Preflightable(base)
  {
    forall p :: p in changed ==> p >= |MembersOf(base)|
  }

  lemma CabinetUnchanged(base: Db, changed: set<nat>, ci: nat)
    requires Preflightable(base) && OnlyBinaries(base, changed) && ci < |CabsOf(base)|
    ensures !CabChanged(CabsOf(base)[ci], changed)
  {
    hide Preflightable, CabsOf, CabStart, Flat;
    forall k | 0 <= k < |CabsOf(base)[ci].members| ensures CabsOf(base)[ci].members[k].path !in changed {
      MemberPath(base, ci, k);
    }
  }

  lemma CabinetsOfMedia(base: Db, k: nat)
    requires Preflightable(base) && k < |base.media|
    ensures k < |CabsOf(base)| && CabsOf(base)[k].name == CabName(base.media[k])
  {
    hide BinariesFrom, FilesOk, HashesOk, MappingOk, LayoutOf, Members, MediaOk, InspectFrom;
    CabAt(base, 0, 0, 0, k);
  }

  lemma {:induction false} CabinetsInspectAgain(base: Db, db: Db, payloads: map<nat, Bytes>, changed: set<nat>,
                                                hash: FileHash)
    requires Preflightable(base) && CarriesThrough(base, db, payloads, changed, hash) && OnlyBinaries(base, changed)
    ensures MediaOk(db.media) && InspectFrom(db, 0, 0, 0) == InspectFrom(base, 0, 0, 0)
  {
    hide Preflightable, CabsOf, CarriesThrough, OnlyBinaries, CabChanged, MediaOk, InspectFrom;
    SameTables(base, db, payloads, changed, hash);
    MediaIsOk(base);
    forall k | 0 <= k < |base.media| ensures SameStream(base, db, k) {
      CabinetsOfMedia(base, k);
      CabinetUnchanged(base, changed, k);
      CommittedStream(base, db, payloads, changed, hash, k);
    }
    InspectAgrees(base, db, 0, 0, 0);
  }

  lemma MediaIsOk(base: Db)
    requires Preflightable(base)
    ensures MediaOk(base.media)
  {
    hide MediaOk, FilesOk, HashesOk, CabinetsOk, BinariesFrom, InspectFrom;
  }

  // ----- the File rows

  lemma RowsUnchanged(base: Db, db: Db, payloads: map<nat, Bytes>, changed: set<nat>, hash: FileHash)
    requires Preflightable(base) && CarriesThrough(base, db, payloads, changed, hash) && OnlyBinaries(base, changed)
    ensures db.files == base.files
  {
    hide Preflightable, CabsOf, CarriesThrough, Flat;
    SameTables(base, db, payloads, changed, hash);
    forall i | 0 <= i < |base.files| ensures db.files[i] == base.files[i] {
      var p := EveryRowHasOneMember(base, i);
      RowUnchanged(base, db, payloads, changed, hash, i, p);
    }
  }

  lemma RowUnchanged(base: Db, db: Db, payloads: map<nat, Bytes>, changed: set<nat>, hash: FileHash, i: nat, p: nat)
    requires Preflightable(base) && CarriesThrough(base, db, payloads, changed, hash)
    requires IsRowOf(base.files, MembersOf(base), i, p) && p !in changed
    ensures |db.files| == |base.files| && db.files[i] == base.files[i]
  {
    hide Preflightable, CabsOf, Flat, StreamsTrack, BinariesTrack, HashesTrack;
    var x := Snap(db.(packageCode := base.packageCode), payloads, changed);
    assert RowFollows(base.files[i], x.db.files[i], p, x);
  }

  // ----- the Binary streams

  function BinarySizes(db: Db, j: nat): nat
    requires j <= |db.binaryNames| && forall n :: n in db.binaryNames ==> n in db.binaries
    decreases |db.binaryNames| - j
  {
    if j == |db.binaryNames| then 0 else |db.binaries[db.binaryNames[j]]| + BinarySizes(db, j + 1)
  }

  /** There is a stream for each name, and there are not too many. */
  predicate Countable(db: Db, j: nat, count: nat)
    requires j <= |db.binaryNames|
  {
    && (forall k :: j <= k < |db.binaryNames| ==> db.binaryNames[k] in db.binaries)
    && (j == |db.binaryNames| || count + |db.binaryNames| - j <= MEMBER_LIMIT)
  }

  /** The Binary loop succeeds exactly when names, number and sizes allow it, and then adds up the sizes. */
  lemma {:induction false} BinariesAddUp(db: Db, j: nat, total: nat, count: nat)
    requires j <= |db.binaryNames| && total <= EXPANSION_LIMIT && forall n :: n in db.binaryNames ==> n in db.binaries
    ensures BinariesFrom(db, j, total, count).Ok? <==>
            Countable(db, j, count) && total + BinarySizes(db, j) <= EXPANSION_LIMIT
    ensures BinariesFrom(db, j, total, count).Ok? ==>
            BinariesFrom(db, j, total, count).value == total + BinarySizes(db, j)
    decreases |db.binaryNames| - j
  {
    if j < |db.binaryNames| {
      assert db.binaryNames[j] in db.binaryNames;
      var size := |db.binaries[db.binaryNames[j]]|;
      if size <= EXPANSION_LIMIT - total { BinariesAddUp(db, j + 1, total + size, count + 1); }
    }
  }

  lemma {:induction false} AllNamesKnown(db: Db, j: nat, total: nat, count: nat)
    requires j <= |db.binaryNames| && total <= EXPANSION_LIMIT && BinariesFrom(db, j, total, count).Ok?
    ensures forall k :: j <= k < |db.binaryNames| ==> db.binaryNames[k] in db.binaries
    decreases |db.binaryNames| - j
  {
    if j < |db.binaryNames| { AllNamesKnown(db, j + 1, total + |db.binaries[db.binaryNames[j]]|, count + 1); }
  }

  /** The payload files from `first` on have the sizes of the Binary streams. */
  lemma {:induction false} TotalOfBinaries(payloads: map<nat, Bytes>, db: Db, first: nat, j: nat)
    requires j <= |db.binaryNames| && forall n :: n in db.binaryNames ==> n in db.binaries
    requires forall p: nat :: p < first + |db.binaryNames| ==> p in payloads
    requires forall k: nat :: k < |db.binaryNames| ==> |payloads[first + k]| == |db.binaries[db.binaryNames[k]]|
    ensures PayloadTotal(payloads, first + |db.binaryNames|) == PayloadTotal(payloads, first + j) + BinarySizes(db, j)
    decreases |db.binaryNames| - j
  {
    if j < |db.binaryNames| {
      assert |payloads[first + j]| == |db.binaries[db.binaryNames[j]]|;
      TotalOfBinaries(payloads, db, first, j + 1);
    }
  }

  lemma BinaryStreamsOf(base: Db, db: Db, original: map<nat, Bytes>, payloads: map<nat, Bytes>, changed: set<nat>,
                        hash: FileHash, j: nat)
    requires Preflightable(base) && CarriesThrough(base, db, payloads, changed, hash) && IsExtract(base, original)
    requires j < |base.binaryNames|
    ensures var n, p := base.binaryNames[j], |MembersOf(base)| + j;
            && n in base.binaries && n in db.binaries && p in original && p in payloads
            && original[p] == base.binaries[n] && db.binaries[n] == if p in changed then payloads[p] else original[p]
  {
    hide Preflightable, CabsOf, Flat, CarriesThrough;
    var first := |MembersOf(base)|;
    CommittedBinaries(base, db, payloads, changed, hash, j);
    assert original[first + j] == base.binaries[base.binaryNames[first + j - first]];
  }

  lemma KnownNames(base: Db, db: Db, payloads: map<nat, Bytes>, changed: set<nat>, hash: FileHash)
    requires Preflightable(base) && CarriesThrough(base, db, payloads, changed, hash)
    ensures forall n :: n in base.binaryNames ==> n in base.binaries && n in db.binaries
  {
    hide Preflightable, CabsOf, Flat, CarriesThrough;
    forall n | n in base.binaryNames ensures n in base.binaries && n in db.binaries {
      var j :| 0 <= j < |base.binaryNames| && base.binaryNames[j] == n;
      CommittedBinaries(base, db, payloads, changed, hash, j);
    }
  }

  /** Every Binary stream has the size of its payload file, before and after. */
  lemma BinarySizesFollow(base: Db, db: Db, original: map<nat, Bytes>, payloads: map<nat, Bytes>, changed: set<nat>,
                          hash: FileHash, expanded: nat)
    requires Preflightable(base) && CarriesThrough(base, db, payloads, changed, hash) && IsExtract(base, original)
    requires Balanced(original, payloads, changed, PayloadCount(base), ExpandedOf(base), expanded)
    requires forall n :: n in base.binaryNames ==> n in base.binaries && n in db.binaries
    ensures var first := |MembersOf(base)|;
            forall k: nat :: k < |base.binaryNames| ==>
              && first + k in original && |original[first + k]| == |base.binaries[base.binaryNames[k]]|
              && first + k in payloads && |payloads[first + k]| == |db.binaries[base.binaryNames[k]]|
  {
    hide Preflightable, CabsOf, Flat, CarriesThrough, IsExtract, ExpandedOf, PayloadTotal;
    var first := |MembersOf(base)|;
    forall k: nat | k < |base.binaryNames|
      ensures first + k in original && |original[first + k]| == |base.binaries[base.binaryNames[k]]|
      ensures first + k in payloads && |payloads[first + k]| == |db.binaries[base.binaryNames[k]]|
    {
      BinaryStreamsOf(base, db, original, payloads, changed, hash, k);
    }
  }

  lemma {:induction false} MembersBalance(original: map<nat, Bytes>, payloads: map<nat, Bytes>, changed: set<nat>,
                                          n: nat, start: nat, expanded: nat, first: nat)
    requires Balanced(original, payloads, changed, n, start, expanded) && first <= n
    requires forall p :: p in changed ==> p >= first
    ensures forall p: nat :: p < n ==> p in original && p in payloads
    ensures PayloadTotal(original, first) == PayloadTotal(payloads, first)
    ensures expanded + PayloadTotal(original, n) == start + PayloadTotal(payloads, n)
  {
    hide PayloadTotal;
    TotalAgrees(original, payloads, first);
  }

  /** What the balance says about the Binary streams alone. */
  lemma {:induction false} BinariesBalance(base: Db, db: Db, original: map<nat, Bytes>, payloads: map<nat, Bytes>,
                                           changed: set<nat>, hash: FileHash, expanded: nat)
    requires Preflightable(base) && CarriesThrough(base, db, payloads, changed, hash) && IsExtract(base, original)
    requires OnlyBinaries(base, changed) && db.binaryNames == base.binaryNames
    requires Balanced(original, payloads, changed, PayloadCount(base), ExpandedOf(base), expanded)
    requires forall n :: n in base.binaryNames ==> n in base.binaries && n in db.binaries
    ensures expanded + BinarySizes(base, 0) == ExpandedOf(base) + BinarySizes(db, 0)
  {
    hide Preflightable, MembersOf, CarriesThrough, IsExtract, ExpandedOf, PayloadTotal, Balanced, BinarySizes;
    var first := |MembersOf(base)|;
    BinarySizesFollow(base, db, original, payloads, changed, hash, expanded);
    MembersBalance(original, payloads, changed, PayloadCount(base), ExpandedOf(base), expanded, first);
    TotalOfBinaries(original, base, first, 0);
    TotalOfBinaries(payloads, db, first, 0);
    assert first + 0 == first;
  }

  // ----- the whole preflight

  lemma {:induction false} BinariesAgain(base: Db, db: Db, original: map<nat, Bytes>, payloads: map<nat, Bytes>,
                                         changed: set<nat>, hash: FileHash, expanded: nat)
    requires Preflightable(base) && CarriesThrough(base, db, payloads, changed, hash) && IsExtract(base, original)
    requires OnlyBinaries(base, changed) && expanded <= EXPANSION_LIMIT
    requires Balanced(original, payloads, changed, PayloadCount(base), ExpandedOf(base), expanded)
    ensures var ins := InspectFrom(base, 0, 0, 0).value; BinariesFrom(db, 0, ins.total, ins.count) == Ok(expanded)
  {
    hide MediaOk, FilesOk, HashesOk, MappingOk, InspectFrom, CarriesThrough, CabsOf, Flat, BinariesFrom,
         OnlyBinaries, Balanced, IsExtract;
    var ins := InspectFrom(base, 0, 0, 0).value;
    SameTables(base, db, payloads, changed, hash);
    KnownNames(base, db, payloads, changed, hash);
    BinariesBalance(base, db, original, payloads, changed, hash, expanded);
    BinariesAddUp(base, 0, ins.total, ins.count);
    BinariesAddUp(db, 0, ins.total, ins.count);
    assert forall k :: 0 <= k < |db.binaryNames| ==> db.binaryNames[k] in db.binaryNames;
  }

  /**
   * When only Binary streams were signed, the committed database is accepted by the whole preflight
   * again, and the total that it counts is the one that the rewrite ended with.
   */
  lemma CommittedIsPreflightable(base: Db, db: Db, original: map<nat, Bytes>, payloads: map<nat, Bytes>,
                                 changed: set<nat>, hash: FileHash, expanded: nat)
    requires Preflightable(base) && CarriesThrough(base, db, payloads, changed, hash) && IsExtract(base, original)
    requires OnlyBinaries(base, changed) && expanded <= EXPANSION_LIMIT
    requires Balanced(original, payloads, changed, PayloadCount(base), ExpandedOf(base), expanded)
    ensures Preflightable(db) && ExpandedOf(db) == expanded && CabsOf(db) == CabsOf(base)
  {
    hide RowsOk, MappingOk, InspectFrom, CarriesThrough, BinariesFrom, OnlyBinaries, Balanced, IsExtract;
    CommittedRowsOk(base, db, payloads, changed, hash);
    CabinetsInspectAgain(base, db, payloads, changed, hash);
    RowsUnchanged(base, db, payloads, changed, hash);
    BinariesAgain(base, db, original, payloads, changed, hash, expanded);
  }
}
