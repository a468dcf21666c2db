/**
 * What a committed rewrite means for the database that it leaves (src/msi_recursive.cpp): the
 * rows, the hashes and the cabinets agree with the payload files again.
 */
module MsiOutcome {
  import opened Wire
  import opened Cabinet
  import opened CabinetMetadata
  import opened Msi
  import opened MsiTracking
  import opened MsiRewrite

  // ----- payload files have names of their own

  function Decimal(n: nat): (d: Bytes)
    ensures d != []
  {
    if n < 10 then [0x30 + n] else Decimal(n / 10) + [0x30 + n % 10]
  }

  lemma {:induction false} DecimalIsInjective(a: nat, b: nat)
    requires Decimal(a) == Decimal(b)
    ensures a == b
    decreases a
  {
    var x, y := Decimal(a), Decimal(b);
    assert x[|x| - 1] == y[|y| - 1] && x[..|x| - 1] == y[..|y| - 1];
    if a >= 10 && b >= 10 {
      assert x[..|x| - 1] == Decimal(a / 10) && y[..|y| - 1] == Decimal(b / 10);
      DecimalIsInjective(a / 10, b / 10);
    }
  }

  /** "/payload-" and a number, below the private directory `workspace`. */
  function PayloadPath(workspace: Bytes, n: nat): Bytes
  {
    workspace + [0x2f, 0x70, 0x61, 0x79, 0x6c, 0x6f, 0x61, 0x64, 0x2d] + Decimal(n)
  }

  /** The number of payload `p`: a member's own, or that of a Binary stream. */
  ghost function PayloadNumber(db: Db, p: nat): nat
    requires Preflightable(db) && p < PayloadCount(db)
  {
    if p < |MembersOf(db)| then MembersOf(db)[p].path else p
  }

  /** No two payloads share a file, whether they are members or Binary streams. */
  lemma PayloadPathsDiffer(db: Db, workspace: Bytes, a: nat, b: nat)
    requires Preflightable(db) && a < PayloadCount(db) && b < PayloadCount(db) && a != b
    ensures PayloadPath(workspace, PayloadNumber(db, a)) != PayloadPath(workspace, PayloadNumber(db, b))
  {
    hide Preflightable, InspectFrom, Flat, Decimal;
    if a < |MembersOf(db)| { PathIsIndex(db, a); }
    if b < |MembersOf(db)| { PathIsIndex(db, b); }
    if PayloadPath(workspace, a) == PayloadPath(workspace, b) {
      SameSuffix(workspace + [0x2f, 0x70, 0x61, 0x79, 0x6c, 0x6f, 0x61, 0x64, 0x2d], Decimal(a), Decimal(b));
      DecimalIsInjective(a, b);
    }
  }

  lemma PathIsIndex(db: Db, p: nat)
    requires Preflightable(db) && p < |MembersOf(db)|
    ensures MembersOf(db)[p].path == p
  {
    hide InspectFrom, Flat, MappingOk, FilesOk, HashesOk, BinariesFrom, MediaOk;
    PathsAreIndices(db, 0, 0, 0, p);
  }

  lemma SameSuffix(a: Bytes, b: Bytes, c: Bytes)
    requires a + b == a + c
    ensures b == c
  {
    assert b == (a + b)[|a|..] && c == (a + c)[|a|..];
  }

  // ----- File rows and members are in bijection

  /** File row `i` is that of member `p`. */
  predicate IsRowOf(rows: seq<FileRow>, ms: seq<Member>, i: nat, p: nat)
  {
    i < |rows| && p < |ms| && rows[i].key == ms[p].name
  }

  /** The row of member `p` of cabinet `ci`, with the member's size and a sequence number of the cabinet. */
  lemma RowOfMember(db: Db, ci: nat, m: Member) returns (i: nat)
    requires Preflightable(db) && ci < |CabsOf(db)| && m in CabsOf(db)[ci].members
    ensures i < |db.files| && db.files[i].key == m.name && Value(db.files[i].size) == m.size
    ensures CabsOf(db)[ci].first <= Value(db.files[i].sequence) <= CabsOf(db)[ci].last
  {
    hide InspectFrom, Flat, FilesOk, HashesOk, BinariesFrom, MediaOk;
    var c := CabsOf(db)[ci];
    assert c in CabsOf(db) && CabMaps(c, db.files) && Maps(m, c, db.files);
    i :| 0 <= i < |db.files| && db.files[i].key == m.name && c.first <= Value(db.files[i].sequence) <= c.last
         && Value(db.files[i].size) == m.size;
  }

  lemma KeysDiffer(db: Db, i: nat, j: nat)
    requires Preflightable(db) && i < |db.files| && j < |db.files| && db.files[i].key == db.files[j].key
    ensures i == j
  {
    hide InspectFrom, MappingOk, HashesOk, BinariesFrom, MediaOk, FileRowOk;
  }

  lemma NamesDiffer(db: Db, p: nat, q: nat)
    requires Preflightable(db) && p < |MembersOf(db)| && q < |MembersOf(db)|
             && MembersOf(db)[p].name == MembersOf(db)[q].name
    ensures p == q
  {
    hide InspectFrom, Flat, FilesOk, HashesOk, BinariesFrom, MediaOk, CabMaps;
  }

  lemma MemberOfRow(db: Db, i: nat) returns (p: nat)
    requires Preflightable(db) && i < |db.files|
    ensures IsRowOf(db.files, MembersOf(db), i, p)
  {
    hide InspectFrom, Flat, FilesOk, HashesOk, BinariesFrom, MediaOk, CabMaps;
    assert IsMember(MembersOf(db), db.files[i].key);
    p :| 0 <= p < |MembersOf(db)| && MembersOf(db)[p].name == db.files[i].key;
  }

  /** The cabinet and the place in it of payload `p`. */
  lemma {:induction false} PlaceOf(cabs: seq<Cab>, p: nat) returns (ci: nat, k: nat)
    requires p < |Flat(cabs)|
    ensures ci < |cabs| && k < |cabs[ci].members| && Flat(cabs)[p] == cabs[ci].members[k]
  {
    if p < |cabs[0].members| {
      ci, k := 0, p;
    } else {
      ci, k := PlaceOf(cabs[1..], p - |cabs[0].members|);
      ci := ci + 1;
    }
  }

  /**
   * The row that belongs to a member exists, is the only one, and has the member's size; its
   * sequence number lies in the interval of exactly one cabinet, the one that holds the member.
   */
  lemma EveryMemberHasOneRow(db: Db, p: nat) returns (i: nat, ci: nat)
    requires Preflightable(db) && p < |MembersOf(db)|
    ensures IsRowOf(db.files, MembersOf(db), i, p) && Value(db.files[i].size) == MembersOf(db)[p].size
    ensures forall j :: IsRowOf(db.files, MembersOf(db), j, p) ==> j == i
    ensures ci < |CabsOf(db)| && MembersOf(db)[p] in CabsOf(db)[ci].members
    ensures forall c :: 0 <= c < |CabsOf(db)| ==>
              (CabsOf(db)[c].first <= Value(db.files[i].sequence) <= CabsOf(db)[c].last <==> c == ci)
  {
    hide Preflightable, CabsOf, Flat;
    var k;
    ci, k := PlaceOf(CabsOf(db), p);
    i := RowOfMember(db, ci, MembersOf(db)[p]);
    forall j | IsRowOf(db.files, MembersOf(db), j, p) ensures j == i { KeysDiffer(db, i, j); }
    var seqno := Value(db.files[i].sequence);
    forall c | 0 <= c < |CabsOf(db)| && CabsOf(db)[c].first <= seqno <= CabsOf(db)[c].last ensures c == ci {
      SequenceFixesCabinet(db, seqno, c, ci);
    }
  }

  /** The other half: every row belongs to exactly one member. */
  lemma EveryRowHasOneMember(db: Db, i: nat) returns (p: nat)
    requires Preflightable(db) && i < |db.files|
    ensures IsRowOf(db.files, MembersOf(db), i, p) && Value(db.files[i].size) == MembersOf(db)[p].size
    ensures forall q :: IsRowOf(db.files, MembersOf(db), i, q) ==> q == p
  {
    hide Preflightable, CabsOf, Flat, MembersOf;
    p := MemberOfRow(db, i);
    var j, ci := EveryMemberHasOneRow(db, p);
    KeysDiffer(db, i, j);
    forall q | IsRowOf(db.files, MembersOf(db), i, q) ensures q == p { NamesDiffer(db, p, q); }
  }

  // ----- after the commit

  /** Every File row states the size of its payload, signed or not. */
  lemma SizesFollowPayloads(base: Db, db: Db, payloads: map<nat, Bytes>, changed: set<nat>, hash: FileHash, i: nat,
                            p: nat)
    requires Preflightable(base) && CarriesThrough(base, db, payloads, changed, hash)
    requires IsRowOf(base.files, MembersOf(base), i, p)
    ensures |db.files| == |base.files| && p in payloads && |payloads[p]| <= EXPANSION_LIMIT
    ensures !db.files[i].size.Garbage? && Value(db.files[i].size) == |payloads[p]|
    ensures db.files[i] == base.files[i].(size := db.files[i].size)
  {
    hide Preflightable, CabsOf, Flat, StreamsTrack, BinariesTrack, HashesTrack;
    var x := Snap(db.(packageCode := base.packageCode), payloads, changed);
    assert RowFollows(base.files[i], x.db.files[i], p, x);
    assert p in payloads;
    RowIsSane(base, i);
    var q := EveryRowHasOneMember(base, i);
  }

  lemma RowIsSane(db: Db, i: nat)
    requires Preflightable(db) && i < |db.files|
    ensures FileRowOk(db.files[i], db.compressed)
  {
    hide InspectFrom, MappingOk, HashesOk, BinariesFrom, MediaOk, FileRowOk;
  }

  /** The hash row of a signed file without a version holds the hash of its new bytes. */
  lemma HashesFollowPayloads(base: Db, db: Db, payloads: map<nat, Bytes>, changed: set<nat>, hash: FileHash, h: nat,
                             i: nat, p: nat)
    requires Preflightable(base) && CarriesThrough(base, db, payloads, changed, hash)
    requires h < |base.hashes| && IsRowOf(base.files, MembersOf(base), i, p) && base.hashes[h].file == base.files[i].key
    ensures |db.hashes| == |base.hashes| && |db.files| == |base.files| && p in payloads
    ensures db.hashes[h].file == db.files[i].key && db.hashes[h].options == base.hashes[h].options
    ensures db.hashes[h].parts == if p in changed && db.files[i].version == [] then hash(payloads[p])
            else base.hashes[h].parts
  {
    hide Preflightable, CabsOf, Flat, StreamsTrack, BinariesTrack;
    var x := Snap(db.(packageCode := base.packageCode), payloads, changed);
    assert RowFollows(base.files[i], x.db.files[i], p, x);
    assert SameFile(base, MembersOf(base), h, i, p);
    assert p in payloads;
  }

  /** A hash row for a file that is in no cabinet stays as it was. */
  lemma OtherHashesStay(base: Db, db: Db, payloads: map<nat, Bytes>, changed: set<nat>, hash: FileHash, h: nat)
    requires Preflightable(base) && CarriesThrough(base, db, payloads, changed, hash)
    requires h < |base.hashes| && !IsMember(MembersOf(base), base.hashes[h].file)
    ensures |db.hashes| == |base.hashes| && db.hashes[h] == base.hashes[h]
  {
    hide Preflightable, CabsOf, Flat, StreamsTrack, BinariesTrack;
  }

  // ----- the rows pass the preflight again

  lemma CommittedRowsOk(base: Db, db: Db, payloads: map<nat, Bytes>, changed: set<nat>, hash: FileHash)
    requires Preflightable(base) && CarriesThrough(base, db, payloads, changed, hash)
    ensures RowsOk(db)
  {
    hide Preflightable, CabsOf, CarriesThrough, MediaOk, Flat, FileRowOk;
    SameTables(base, db, payloads, changed, hash);
    BaseRowsOk(base);
    forall i | 0 <= i < |db.files|
      ensures FileRowOk(db.files[i], db.compressed) && db.files[i] == base.files[i].(size := db.files[i].size)
    {
      CommittedRowOk(base, db, payloads, changed, hash, i);
    }
    forall h | 0 <= h < |db.hashes| ensures db.hashes[h].options == base.hashes[h].options {
      OptionsStay(base, db, payloads, changed, hash, h);
    }
  }

  lemma BaseRowsOk(base: Db)
    requires Preflightable(base)
    ensures RowsOk(base)
  {
    hide RowsOk, CabinetsOk, InspectFrom, BinariesFrom;
  }

  lemma SameTables(base: Db, db: Db, payloads: map<nat, Bytes>, changed: set<nat>, hash: FileHash)
    requires Preflightable(base) && CarriesThrough(base, db, payloads, changed, hash)
    ensures |db.files| == |base.files| && |db.hashes| == |base.hashes| && db.media == base.media
    ensures db.compressed == base.compressed && db.hasStorages == base.hasStorages && db.binaryNames == base.binaryNames
  {
    hide Preflightable, CabsOf, Flat, StreamsTrack, BinariesTrack;
  }

  lemma CommittedRowOk(base: Db, db: Db, payloads: map<nat, Bytes>, changed: set<nat>, hash: FileHash, i: nat)
    requires Preflightable(base) && CarriesThrough(base, db, payloads, changed, hash) && i < |base.files|
    ensures |db.files| == |base.files| && FileRowOk(db.files[i], base.compressed)
    ensures db.files[i] == base.files[i].(size := db.files[i].size)
  {
    hide Preflightable, CabsOf, Flat, CarriesThrough, Bit;
    var p := EveryRowHasOneMember(base, i);
    SizesFollowPayloads(base, db, payloads, changed, hash, i, p);
    RowIsSane(base, i);
  }

  lemma OptionsStay(base: Db, db: Db, payloads: map<nat, Bytes>, changed: set<nat>, hash: FileHash, h: nat)
    requires Preflightable(base) && CarriesThrough(base, db, payloads, changed, hash) && h < |base.hashes|
    ensures |db.hashes| == |base.hashes| && db.hashes[h].options == base.hashes[h].options
  {
    hide Preflightable, CabsOf, Flat, StreamsTrack, BinariesTrack, IsRowOf;
    var ms := MembersOf(base);
    if IsMember(ms, base.hashes[h].file) {
      var p :| 0 <= p < |ms| && ms[p].name == base.hashes[h].file;
      var i, ci := EveryMemberHasOneRow(base, p);
      RowNames(base.files, ms, i, p);
      assert SameFile(base, ms, h, i, p);
    }
  }

  lemma RowNames(rows: seq<FileRow>, ms: seq<Member>, i: nat, p: nat)
    requires IsRowOf(rows, ms, i, p)
    ensures i < |rows| && p < |ms| && rows[i].key == ms[p].name
  {
  }

  // ----- and so does the mapping

  function Resize(ms: seq<Member>, payloads: map<nat, Bytes>): (r: seq<Member>)
    ensures |r| == |ms| && forall k :: 0 <= k < |ms| ==>
              r[k] == if ms[k].path in payloads then ms[k].(size := |payloads[ms[k].path]|) else ms[k]
  {
    seq(|ms|, k requires 0 <= k < |ms| =>
      if ms[k].path in payloads then ms[k].(size := |payloads[ms[k].path]|) else ms[k])
  }

  /** The cabinets with each member's size that of its payload file. */
  function Resized(cabs: seq<Cab>, payloads: map<nat, Bytes>): (r: seq<Cab>)
    ensures |r| == |cabs| && forall i :: 0 <= i < |cabs| ==>
            r[i] == cabs[i].(members := Resize(cabs[i].members, payloads))
  {
    seq(|cabs|, i requires 0 <= i < |cabs| => cabs[i].(members := Resize(cabs[i].members, payloads)))
  }

  lemma {:induction false} FlatResized(cabs: seq<Cab>, payloads: map<nat, Bytes>)
    ensures Flat(Resized(cabs, payloads)) == Resize(Flat(cabs), payloads)
  {
    if cabs != [] {
      FlatResized(cabs[1..], payloads);
      assert Resized(cabs, payloads)[1..] == Resized(cabs[1..], payloads);
    }
  }

  lemma ResizedMaps(base: Db, db: Db, payloads: map<nat, Bytes>, changed: set<nat>, hash: FileHash, ci: nat, m: Member)
    requires Preflightable(base) && CarriesThrough(base, db, payloads, changed, hash) && ci < |CabsOf(base)|
    requires m in Resize(CabsOf(base)[ci].members, payloads)
    ensures Maps(m, Resized(CabsOf(base), payloads)[ci], db.files)
  {
    hide Preflightable, CabsOf, Flat, CarriesThrough, CabStart;
    var c := CabsOf(base)[ci];
    var k :| 0 <= k < |c.members| && Resize(c.members, payloads)[k] == m;
    MemberPath(base, ci, k);
    var p := c.members[k].path;
    var i := RowOfMember(base, ci, c.members[k]);
    assert IsRowOf(base.files, MembersOf(base), i, p);
    SizesFollowPayloads(base, db, payloads, changed, hash, i, p);
    assert db.files[i].key == m.name && Value(db.files[i].size) == m.size;
  }

  /** The committed rows and the cabinets, at their new sizes, pass the CAB/File mapping check. */
  lemma CommittedMappingOk(base: Db, db: Db, payloads: map<nat, Bytes>, changed: set<nat>, hash: FileHash)
    requires Preflightable(base) && CarriesThrough(base, db, payloads, changed, hash)
    ensures MappingOk(Resized(CabsOf(base), payloads), db.files)
  {
    hide Preflightable, CabsOf, CarriesThrough, Flat, Maps, IsMember, DistinctMembers;
    var cabs, ms := CabsOf(base), MembersOf(base);
    var now := Resized(cabs, payloads);
    forall c | c in now ensures CabMaps(c, db.files) {
      var ci :| 0 <= ci < |now| && now[ci] == c;
      forall m | m in c.members ensures Maps(m, c, db.files) { ResizedMaps(base, db, payloads, changed, hash, ci, m); }
    }
    FlatResized(cabs, payloads);
    BaseNamesDiffer(base);
    ResizeKeepsNames(ms, payloads);
    SameTables(base, db, payloads, changed, hash);
    forall i | 0 <= i < |db.files| ensures IsMember(Flat(now), db.files[i].key) {
      CommittedRowOk(base, db, payloads, changed, hash, i);
      var p := MemberOfRow(base, i);
      NamesMember(Flat(now), p, db.files[i].key);
    }
  }

  lemma NamesMember(ms: seq<Member>, p: nat, name: Bytes)
    requires p < |ms| && ms[p].name == name
    ensures IsMember(ms, name)
  {
  }

  lemma BaseNamesDiffer(base: Db)
    requires Preflightable(base)
    ensures DistinctMembers(MembersOf(base))
  {
    hide InspectFrom, Flat, FilesOk, HashesOk, BinariesFrom, MediaOk, CabMaps, DistinctMembers;
  }

  lemma ResizeKeepsNames(ms: seq<Member>, payloads: map<nat, Bytes>)
    requires DistinctMembers(ms)
    ensures DistinctMembers(Resize(ms, payloads))
  {
  }

  // ----- what the committed cabinets list

  /** `stream` is a rebuilt cabinet whose table the header still names after the restoration. */
  ghost predicate RebuiltSafely(stream: Bytes, ms: seq<Member>, payloads: map<nat, Bytes>)
  {
    exists f :: RebuiltFrom(f, stream, ms, payloads) && TableStaysFound(f, ms)
  }

  /** The stream's own file table lists these members: names, sizes, dates, times, attributes. */
  ghost predicate Lists(stream: Bytes, ms: seq<Member>)
  {
    var r := TableOf(stream);
    r.Ok? && |r.value| == |ms| && forall k :: 0 <= k < |ms| ==> Restored(r.value[k], ms[k], ms[k].size)
  }

  lemma RebuiltLists(stream: Bytes, ms: seq<Member>, payloads: map<nat, Bytes>)
    requires RebuiltSafely(stream, ms, payloads)
    ensures Lists(stream, Resize(ms, payloads))
  {
    hide Matches, PatchAll, TableStaysFound, TableOf;
    var f :| RebuiltFrom(f, stream, ms, payloads) && TableStaysFound(f, ms);
    PatchedCabinetReads(f, ms, Sizes(ms, payloads));
    assert forall k :: 0 <= k < |ms| ==> Resize(ms, payloads)[k].size == Sizes(ms, payloads)[k];
  }

  lemma LayoutIsTable(f: Bytes)
    requires LayoutOf(f).Ok?
    ensures TableOf(f) == Ok(LayoutOf(f).value.table.records)
  {
    hide RawRecords, Records, Folders, TablesEnd;
    var h := ReadHeader(f).value;
    RecordsAreRaw(f, h.table, h.files, LayoutOf(f).value.folders);
  }

  lemma InspectedLists(db: Db, ci: nat)
    requires Preflightable(db) && ci < |CabsOf(db)|
    ensures CabsOf(db)[ci].name in db.streams && Lists(db.streams[CabsOf(db)[ci].name], CabsOf(db)[ci].members)
  {
    hide InspectFrom, FilesOk, HashesOk, BinariesFrom, MediaOk, MappingOk, LayoutOf, TableOf;
    CabAt(db, 0, 0, 0, ci);
    LayoutIsTable(db.streams[CabsOf(db)[ci].name]);
  }

  /**
   * In the committed database the file table of every cabinet lists its members in order, each with
   * its name, date, time and attributes as before and the size of its payload file. A rebuilt
   * cabinet needs a table offset that keeps the restored metadata off the six header bytes that name the table.
   */
  lemma CommittedCabinetsList(base: Db, db: Db, payloads: map<nat, Bytes>, changed: set<nat>, hash: FileHash, ci: nat)
    requires Preflightable(base) && CarriesThrough(base, db, payloads, changed, hash) && ci < |CabsOf(base)|
    ensures var c := CabsOf(base)[ci];
            && c.name in db.streams
            && (!CabChanged(c, changed) || RebuiltSafely(db.streams[c.name], c.members, payloads) ==>
                  Lists(db.streams[c.name], Resized(CabsOf(base), payloads)[ci].members))
  {
    hide Preflightable, CabsOf, CarriesThrough, Flat, RebuiltSafely, Lists, CabStart;
    var c := CabsOf(base)[ci];
    CommittedStream(base, db, payloads, changed, hash, ci);
    if CabChanged(c, changed) {
      if RebuiltSafely(db.streams[c.name], c.members, payloads) {
        RebuiltLists(db.streams[c.name], c.members, payloads);
      }
    } else {
      InspectedLists(base, ci);
      forall k | 0 <= k < |c.members| ensures Resize(c.members, payloads)[k] == c.members[k] {
        UnchangedSize(base, db, payloads, changed, hash, ci, k);
      }
      assert Resize(c.members, payloads) == c.members;
    }
  }

  lemma CommittedStream(base: Db, db: Db, payloads: map<nat, Bytes>, changed: set<nat>, hash: FileHash, ci: nat)
    requires Preflightable(base) && CarriesThrough(base, db, payloads, changed, hash) && ci < |CabsOf(base)|
    ensures var c := CabsOf(base)[ci];
            && c.name in db.streams && c.name in base.streams
            && if CabChanged(c, changed) then Rebuilt(db.streams[c.name], c.members, payloads)
               else db.streams[c.name] == base.streams[c.name]
  {
    hide Preflightable, CabsOf, Flat, BinariesTrack, HashesTrack, RowsTrack, Rebuilt, CabChanged;
    var x := Snap(db.(packageCode := base.packageCode), payloads, changed);
    assert StreamFollows(base, CabsOf(base)[ci], x, ci < |CabsOf(base)|);
  }

  lemma UnchangedSize(base: Db, db: Db, payloads: map<nat, Bytes>, changed: set<nat>, hash: FileHash, ci: nat, k: nat)
    requires Preflightable(base) && CarriesThrough(base, db, payloads, changed, hash) && ci < |CabsOf(base)|
    requires k < |CabsOf(base)[ci].members| && CabsOf(base)[ci].members[k].path !in changed
    ensures var m := CabsOf(base)[ci].members[k]; m.path in payloads && |payloads[m.path]| == m.size
  {
    hide Preflightable, CabsOf, Flat, BinariesTrack, HashesTrack, RowsTrack, StreamsTrack, CabStart;
    MemberPath(base, ci, k);
  }

  // ----- the mapping check on what the committed streams list

  /** The members in a stream's own file table; none when it cannot be read. */
  function ListedIn(stream: Bytes): seq<Member>
  {
    var r := TableOf(stream);
    if r.Throws? then [] else Members(r.value, 0)
  }

  /** The cabinets of the committed database, each with the members its stream lists. */
  function Reread(cabs: seq<Cab>, db: Db): (r: seq<Cab>)
    requires forall i :: 0 <= i < |cabs| ==> cabs[i].name in db.streams
    ensures |r| == |cabs| && forall i :: 0 <= i < |cabs| ==>
              cabs[i].name in db.streams && r[i] == cabs[i].(members := ListedIn(db.streams[cabs[i].name]))
  {
    seq(|cabs|, i requires 0 <= i < |cabs| => cabs[i].(members := ListedIn(db.streams[cabs[i].name])))
  }

  predicate Alike(a: seq<Member>, b: seq<Member>)
  {
    |a| == |b| && forall k :: 0 <= k < |a| ==> a[k].name == b[k].name && a[k].size == b[k].size
  }

  /** The same cabinets with members alike in name and size. */
  predicate AlikeCabs(a: seq<Cab>, b: seq<Cab>)
  {
    && |a| == |b|
    && (forall i :: 0 <= i < |a| ==> a[i].first == b[i].first && a[i].last == b[i].last)
    && (forall i :: 0 <= i < |a| ==> Alike(a[i].members, b[i].members))
  }

  lemma {:induction false} FlatAlike(a: seq<Cab>, b: seq<Cab>)
    requires AlikeCabs(a, b)
    ensures Alike(Flat(a), Flat(b))
  {
    if a != [] { FlatAlike(a[1..], b[1..]); }
  }

  /** The mapping check sees only names, sizes and intervals. */
  lemma MappingOfAlike(a: seq<Cab>, b: seq<Cab>, rows: seq<FileRow>)
    requires AlikeCabs(a, b) && MappingOk(a, rows)
    ensures MappingOk(b, rows)
  {
    hide Flat;
    FlatAlike(a, b);
    forall c | c in b ensures CabMaps(c, rows) {
      var i :| 0 <= i < |b| && b[i] == c;
      assert a[i] in a;
      forall m | m in c.members ensures Maps(m, c, rows) {
        var k :| 0 <= k < |c.members| && c.members[k] == m;
        assert a[i].members[k] in a[i].members && Maps(a[i].members[k], a[i], rows);
      }
    }
    forall i | 0 <= i < |rows| ensures IsMember(Flat(b), rows[i].key) {
      assert IsMember(Flat(a), rows[i].key);
      var p :| 0 <= p < |Flat(a)| && Flat(a)[p].name == rows[i].key;
      assert Flat(b)[p].name == rows[i].key;
    }
  }

  lemma ListedIsAlike(stream: Bytes, ms: seq<Member>)
    requires Lists(stream, ms)
    ensures Alike(ms, ListedIn(stream))
  {
    hide TableOf;
  }

  /**
   * The committed database passes the CAB/File mapping check again: the File rows against the
   * members that the committed cabinet streams list themselves.
   */
  lemma CommittedStreamsMap(base: Db, db: Db, payloads: map<nat, Bytes>, changed: set<nat>, hash: FileHash)
    requires Preflightable(base) && CarriesThrough(base, db, payloads, changed, hash)
    requires forall ci :: 0 <= ci < |CabsOf(base)| && CabChanged(CabsOf(base)[ci], changed) ==>
               CabsOf(base)[ci].name in db.streams
               && RebuiltSafely(db.streams[CabsOf(base)[ci].name], CabsOf(base)[ci].members, payloads)
    ensures forall ci :: 0 <= ci < |CabsOf(base)| ==> CabsOf(base)[ci].name in db.streams
    ensures MappingOk(Reread(CabsOf(base), db), db.files)
  {
    hide Preflightable, CabsOf, CarriesThrough, Flat, RebuiltSafely, Lists, CabChanged, MappingOk, ListedIn, Alike;
    var cabs := CabsOf(base);
    var now := Resized(cabs, payloads);
    forall ci | 0 <= ci < |cabs|
      ensures cabs[ci].name in db.streams && Alike(now[ci].members, ListedIn(db.streams[cabs[ci].name]))
    {
      CommittedCabinetsList(base, db, payloads, changed, hash, ci);
      ListedIsAlike(db.streams[cabs[ci].name], now[ci].members);
    }
    CommittedMappingOk(base, db, payloads, changed, hash);
    MappingOfAlike(now, Reread(cabs, db), db.files);
  }

  // ----- Binary streams

  /** Every Binary stream holds its payload when that was signed, and is as it was otherwise. */
  lemma CommittedBinaries(base: Db, db: Db, payloads: map<nat, Bytes>, changed: set<nat>, hash: FileHash, j: nat)
    requires Preflightable(base) && CarriesThrough(base, db, payloads, changed, hash) && j < |base.binaryNames|
    ensures var n, p := base.binaryNames[j], |MembersOf(base)| + j;
            && n in db.binaries && n in base.binaries && p in payloads
            && db.binaries[n] == if p in changed then payloads[p] else base.binaries[n]
  {
    hide Preflightable, CabsOf, Flat, StreamsTrack, HashesTrack, RowsTrack;
    var x := Snap(db.(packageCode := base.packageCode), payloads, changed);
    assert BinaryFollows(base, x, |MembersOf(base)|, j, |base.binaryNames|);
    assert |MembersOf(base)| + j in payloads;
  }
}
