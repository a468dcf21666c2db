/**
 * The installer database as src/msi_recursive.cpp sees it, and what its preflight demands.
 * A table that does not exist has no rows.
 */
module Msi {
  import opened Wire
  import opened Cabinet

  type int32 = x: int | -0x8000_0000 <= x < 0x8000_0000

  /** A column read as an integer: empty, a number, or text that is not one. */
  datatype Cell = Blank | Number(value: int32) | Garbage

  function Value(c: Cell): int32 { match c case Blank => 0 case Number(v) => v case Garbage => 0 }

  /** Media rows in DiskId order. */
  datatype MediaRow = MediaRow(last: Cell, cabinet: Bytes)
  datatype FileRow = FileRow(key: Bytes, size: Cell, version: Bytes, attributes: Cell, sequence: Cell)
  datatype HashRow = HashRow(file: Bytes, options: Cell, parts: seq<int32>)

  datatype Db = Db(
    hasStorages: bool,
    compressed: bool,                 // bit 1 of the summary word count
    media: seq<MediaRow>,
    files: seq<FileRow>,
    hashes: seq<HashRow>,
    streams: map<Bytes, Bytes>,
    binaryNames: seq<Bytes>,          // the Binary table's names, in query order
    binaries: map<Bytes, Bytes>,
    packageCode: Bytes)

  /** One bit of a two's complement number. */
  predicate Bit(v: int, weight: nat)
    requires weight > 0
  {
    v / weight % 2 == 1
  }

  // ----- rows

  predicate MediaRowOk(row: MediaRow, previous: int)
  {
    !row.last.Garbage? && previous <= Value(row.last) && |row.cabinet| >= 2 && row.cabinet[0] == 0x23
  }

  function Previous(rows: seq<MediaRow>, i: nat): int
    requires i <= |rows|
  {
    if i == 0 then 0 else Value(rows[i - 1].last)
  }

  predicate MediaAt(rows: seq<MediaRow>, i: nat)
    requires i < |rows|
  {
    MediaRowOk(rows[i], Previous(rows, i))
  }

  /** The cabinet stream that a Media row names, after its `#`. */
  function CabName(row: MediaRow): Bytes { if row.cabinet == [] then [] else row.cabinet[1..] }

  predicate MediaOk(rows: seq<MediaRow>)
  {
    && (forall i :: 0 <= i < |rows| ==> MediaAt(rows, i))
    && (forall i, j :: 0 <= i < j < |rows| ==> rows[i].cabinet != rows[j].cabinet)
  }

  predicate FileRowOk(row: FileRow, compressed: bool)
  {
    && !row.attributes.Garbage? && !row.sequence.Garbage? && !row.size.Garbage?
    && !Bit(Value(row.attributes), 0x2000) && (Bit(Value(row.attributes), 0x4000) || compressed)
    && Value(row.sequence) > 0 && Value(row.size) >= 0
  }

  predicate FilesOk(rows: seq<FileRow>, compressed: bool)
  {
    && (forall i :: 0 <= i < |rows| ==> FileRowOk(rows[i], compressed))
    && (forall i, j :: 0 <= i < j < |rows| ==> rows[i].key != rows[j].key)
    && (forall i, j :: 0 <= i < j < |rows| ==> Value(rows[i].sequence) != Value(rows[j].sequence))
  }

  predicate HashesOk(rows: seq<HashRow>)
  {
    forall i :: 0 <= i < |rows| ==> !rows[i].options.Garbage? && Value(rows[i].options) == 0
  }

  // ----- cabinets

  datatype Cab = Cab(name: Bytes, first: int, last: int, members: seq<Member>)
  datatype Inspected = Inspected(cabs: seq<Cab>, total: nat, count: nat)

  function PrependCab(c: Cab, rest: Outcome<Inspected>): Outcome<Inspected>
  {
    match rest
    case Throws => Throws
    case Ok(r) => Ok(Inspected([c] + r.cabs, r.total, r.count))
  }

  function CabFor(rows: seq<MediaRow>, i: nat, members: seq<Member>): Cab
    requires i < |rows|
  {
    Cab(CabName(rows[i]), Previous(rows, i) + 1, Value(rows[i].last), members)
  }

  /** The cabinets from Media row `i` on, each accepted within what the earlier ones left. */
  ghost function InspectFrom(db: Db, i: nat, total: nat, count: nat): (r: Outcome<Inspected>)
    requires i <= |db.media| && MediaOk(db.media) && total <= EXPANSION_LIMIT && count <= MEMBER_LIMIT
    ensures r.Ok? ==> |r.value.cabs| == |db.media| - i
    ensures r.Ok? ==> total <= r.value.total <= EXPANSION_LIMIT && count <= r.value.count <= MEMBER_LIMIT
    decreases |db.media| - i
  {
    if i == |db.media| then Ok(Inspected([], total, count))
    else
      var name := CabName(db.media[i]);
      if name !in db.streams then Throws
      else
        match LayoutOf(db.streams[name])
        case Throws => Throws
        case Ok(c) =>
          if !Acceptable(c, total, count) then Throws
          else
            PrependCab(CabFor(db.media, i, Members(c.table.records, count)),
                       InspectFrom(db, i + 1, total + Expanded(c.folders), count + |c.table.records|))
  }

  /** All members in the order in which their payloads are numbered. */
  function Flat(cabs: seq<Cab>): seq<Member> { if cabs == [] then [] else cabs[0].members + Flat(cabs[1..]) }

  predicate DistinctMembers(ms: seq<Member>) { forall i, j :: 0 <= i < j < |ms| ==> ms[i].name != ms[j].name }

  /** Some File row has the member's name and size, and a sequence number of its cabinet. */
  predicate Maps(m: Member, c: Cab, rows: seq<FileRow>)
  {
    exists i :: 0 <= i < |rows| && rows[i].key == m.name && c.first <= Value(rows[i].sequence) <= c.last
      && Value(rows[i].size) == m.size
  }

  predicate CabMaps(c: Cab, rows: seq<FileRow>) { forall m :: m in c.members ==> Maps(m, c, rows) }

  predicate IsMember(ms: seq<Member>, name: Bytes) { exists p :: 0 <= p < |ms| && ms[p].name == name }

  /** File rows and cabinet members correspond one to one, with equal sizes. */
  predicate MappingOk(cabs: seq<Cab>, rows: seq<FileRow>)
  {
    && (forall c :: c in cabs ==> CabMaps(c, rows))
    && DistinctMembers(Flat(cabs))
    && (forall i :: 0 <= i < |rows| ==> IsMember(Flat(cabs), rows[i].key))
  }

  // ----- Binary streams

  /** The expanded total after the Binary streams from `j` on, within the budgets left. */
  function BinariesFrom(db: Db, j: nat, total: nat, count: nat): (r: Outcome<nat>)
    requires j <= |db.binaryNames| && total <= EXPANSION_LIMIT
    ensures r.Ok? ==> total <= r.value <= EXPANSION_LIMIT
    decreases |db.binaryNames| - j
  {
    if j == |db.binaryNames| then Ok(total)
    else if count >= MEMBER_LIMIT || db.binaryNames[j] !in db.binaries then Throws
    else
      var size := |db.binaries[db.binaryNames[j]]|;
      if size > EXPANSION_LIMIT - total then Throws else BinariesFrom(db, j + 1, total + size, count + 1)
  }

  // ----- the whole preflight

  ghost predicate RowsOk(db: Db)
  {
    !db.hasStorages && MediaOk(db.media) && FilesOk(db.files, db.compressed) && HashesOk(db.hashes)
  }

  ghost predicate CabinetsOk(db: Db)
    requires MediaOk(db.media)
  {
    InspectFrom(db, 0, 0, 0).Ok? && MappingOk(InspectFrom(db, 0, 0, 0).value.cabs, db.files)
  }

  ghost predicate Preflightable(db: Db)
  {
    && RowsOk(db) && CabinetsOk(db)
    && BinariesFrom(db, 0, InspectFrom(db, 0, 0, 0).value.total, InspectFrom(db, 0, 0, 0).value.count).Ok?
  }

  ghost function CabsOf(db: Db): seq<Cab>
    requires Preflightable(db)
  {
    InspectFrom(db, 0, 0, 0).value.cabs
  }

  ghost function MembersOf(db: Db): seq<Member>
    requires Preflightable(db)
  {
    Flat(CabsOf(db))
  }

  ghost function ExpandedOf(db: Db): (n: nat)
    requires Preflightable(db)
    ensures n <= EXPANSION_LIMIT
  {
    var ins := InspectFrom(db, 0, 0, 0).value;
    BinariesFrom(db, 0, ins.total, ins.count).value
  }

  /** Payload files: one a member, then one a Binary stream. */
  ghost function PayloadCount(db: Db): nat
    requires Preflightable(db)
  {
    |MembersOf(db)| + |db.binaryNames|
  }

  // ----- consequences

  /** Media intervals are disjoint: a sequence number belongs to at most one cabinet. */
  lemma {:induction false} MediaIsSorted(rows: seq<MediaRow>, i: nat, j: nat)
    requires MediaOk(rows) && i <= j < |rows|
    ensures Value(rows[i].last) <= Value(rows[j].last)
    decreases j - i
  {
    if i < j {
      assert MediaAt(rows, j);
      MediaIsSorted(rows, i, j - 1);
    }
  }

  lemma {:induction false} CabAt(db: Db, i: nat, total: nat, count: nat, k: nat)
    requires i <= |db.media| && MediaOk(db.media) && total <= EXPANSION_LIMIT && count <= MEMBER_LIMIT
    requires InspectFrom(db, i, total, count).Ok? && k < |db.media| - i
    ensures var c := InspectFrom(db, i, total, count).value.cabs[k];
            && c == CabFor(db.media, i + k, c.members) && c.name in db.streams
            && LayoutOf(db.streams[c.name]).Ok?
            && exists n :: c.members == Members(LayoutOf(db.streams[c.name]).value.table.records, n)
    decreases |db.media| - i
  {
    hide LayoutOf, Acceptable, Members, MediaOk;
    var c := LayoutOf(db.streams[CabName(db.media[i])]).value;
    if k == 0 {
      assert InspectFrom(db, i, total, count).value.cabs[0] == CabFor(db.media, i, Members(c.table.records, count));
    } else {
      CabAt(db, i + 1, total + Expanded(c.folders), count + |c.table.records|, k - 1);
    }
  }

  /**
   * The sequence number of a File row fixes its cabinet: it lies in the Media interval of the
   * cabinet that holds the row's member, and in no other.
   */
  lemma SequenceFixesCabinet(db: Db, seqno: int, a: nat, b: nat)
    requires Preflightable(db) && a < |CabsOf(db)| && b < |CabsOf(db)|
    requires CabsOf(db)[a].first <= seqno <= CabsOf(db)[a].last
    requires CabsOf(db)[b].first <= seqno <= CabsOf(db)[b].last
    ensures a == b
  {
    hide InspectFrom, MappingOk, FilesOk, BinariesFrom, LayoutOf, Members, MediaOk;
    CabAt(db, 0, 0, 0, a);
    CabAt(db, 0, 0, 0, b);
    if a < b { MediaIsSorted(db.media, a, b - 1); } else if b < a { MediaIsSorted(db.media, b, a - 1); }
  }

  /** Payload numbers are the positions of the members, so no two members share a file. */
  lemma {:induction false} PathsAreIndices(db: Db, i: nat, total: nat, count: nat, p: nat)
    requires i <= |db.media| && MediaOk(db.media) && total <= EXPANSION_LIMIT && count <= MEMBER_LIMIT
    requires InspectFrom(db, i, total, count).Ok?
    requires p < |Flat(InspectFrom(db, i, total, count).value.cabs)|
    ensures Flat(InspectFrom(db, i, total, count).value.cabs)[p].path == count + p
    decreases |db.media| - i
  {
    hide LayoutOf, Acceptable, MediaOk;
    var c := LayoutOf(db.streams[CabName(db.media[i])]).value;
    var rest := InspectFrom(db, i + 1, total + Expanded(c.folders), count + |c.table.records|).value;
    var cabs := InspectFrom(db, i, total, count).value.cabs;
    assert cabs[1..] == rest.cabs;
    if p >= |cabs[0].members| {
      PathsAreIndices(db, i + 1, total + Expanded(c.folders), count + |c.table.records|, p - |cabs[0].members|);
    }
  }

  lemma {:induction false} FlatCount(db: Db, i: nat, total: nat, count: nat)
    requires i <= |db.media| && MediaOk(db.media) && total <= EXPANSION_LIMIT && count <= MEMBER_LIMIT
    requires InspectFrom(db, i, total, count).Ok?
    ensures InspectFrom(db, i, total, count).value.count == count + |Flat(InspectFrom(db, i, total, count).value.cabs)|
    decreases |db.media| - i
  {
    hide LayoutOf, Acceptable, MediaOk;
    if i < |db.media| {
      var c := LayoutOf(db.streams[CabName(db.media[i])]).value;
      FlatCount(db, i + 1, total + Expanded(c.folders), count + |c.table.records|);
      assert InspectFrom(db, i, total, count).value.cabs[1..] ==
             InspectFrom(db, i + 1, total + Expanded(c.folders), count + |c.table.records|).value.cabs;
    }
  }

  lemma {:induction false} TotalMembersCat(a: seq<Member>, b: seq<Member>)
    ensures TotalMembers(a + b) == TotalMembers(a) + TotalMembers(b)
  {
    if a == [] {
      assert a + b == b;
    } else {
      assert (a + b)[1..] == a[1..] + b;
      TotalMembersCat(a[1..], b);
    }
  }

  /** The budget counted for the cabinets covers the sizes of all their members. */
  lemma {:induction false} MembersFitTotal(db: Db, i: nat, total: nat, count: nat)
    requires i <= |db.media| && MediaOk(db.media) && total <= EXPANSION_LIMIT && count <= MEMBER_LIMIT
    requires InspectFrom(db, i, total, count).Ok?
    ensures total + TotalMembers(Flat(InspectFrom(db, i, total, count).value.cabs)) <=
            InspectFrom(db, i, total, count).value.total
    decreases |db.media| - i
  {
    hide LayoutOf, Acceptable, MediaOk;
    if i < |db.media| {
      var f := db.streams[CabName(db.media[i])];
      var c := LayoutOf(f).value;
      var rest := InspectFrom(db, i + 1, total + Expanded(c.folders), count + |c.table.records|).value;
      MembersFitExpanded(f, total, count);
      MembersFitTotal(db, i + 1, total + Expanded(c.folders), count + |c.table.records|);
      assert InspectFrom(db, i, total, count).value.cabs[1..] == rest.cabs;
      TotalMembersCat(Members(c.table.records, count), Flat(rest.cabs));
    }
  }
}
