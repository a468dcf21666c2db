/**
 * Packages built from their cabinets with consecutive sequence numbers, and what the preflight of
 * src/msi_recursive.cpp makes of them; the checks on rows, in plain words.
 */
module MsiPackage {
  import opened Wire
  import opened Cabinet
  import opened Msi
  import opened MsiSession
  import opened MsiTracking

  // ----- Media intervals

  /** The interval of Media row `i` holds this sequence number. */
  predicate Covers(rows: seq<MediaRow>, i: nat, seqno: int)
    requires i < |rows|
  {
    CabFor(rows, i, []).first <= seqno <= CabFor(rows, i, []).last
  }

  lemma {:induction false} CoveredBefore(rows: seq<MediaRow>, n: nat, seqno: int) returns (i: nat)
    requires MediaOk(rows) && 0 < n <= |rows| && 1 <= seqno <= Value(rows[n - 1].last)
    ensures i < n && Covers(rows, i, seqno)
  {
    assert MediaAt(rows, n - 1);
    if n == 1 || Value(rows[n - 2].last) < seqno { i := n - 1; } else { i := CoveredBefore(rows, n - 1, seqno); }
  }

  /** The intervals partition the numbers from 1 to the last sequence number: each is in exactly one. */
  lemma IntervalsPartition(rows: seq<MediaRow>, seqno: int)
    requires MediaOk(rows)
    ensures (exists i :: 0 <= i < |rows| && Covers(rows, i, seqno)) <==>
            rows != [] && 1 <= seqno <= Value(rows[|rows| - 1].last)
    ensures forall i, j :: 0 <= i < |rows| && 0 <= j < |rows| ==>
              (Covers(rows, i, seqno) && Covers(rows, j, seqno) ==> i == j)
  {
    if rows != [] && 1 <= seqno <= Value(rows[|rows| - 1].last) { var i := CoveredBefore(rows, |rows|, seqno); }
    forall i | 0 <= i < |rows| && Covers(rows, i, seqno) ensures 1 <= seqno <= Value(rows[|rows| - 1].last) {
      MediaIsSorted(rows, i, |rows| - 1);
      assert MediaAt(rows, 0);
      if i > 0 { MediaIsSorted(rows, 0, i - 1); }
    }
    forall i, j | 0 <= i < j < |rows| && Covers(rows, i, seqno) && Covers(rows, j, seqno) ensures false {
      MediaIsSorted(rows, i, j - 1);
    }
  }

  /** A row with a readable last number that names an embedded cabinet: a number sign and the stream's name. */
  predicate IsEmbedded(row: MediaRow)
  {
    && row.last in {Blank, Number(Value(row.last))}
    && |row.cabinet| > 1 && row.cabinet[0] == '#' as int
  }

  /** Rows name embedded cabinets, each once, and their last numbers never go down, from zero on. */
  predicate InOrder(rows: seq<MediaRow>)
  {
    && (forall i :: 0 <= i < |rows| ==> IsEmbedded(rows[i]) && Value(rows[i].last) >= 0)
    && (forall i, j :: 0 <= i < j < |rows| ==> Value(rows[i].last) <= Value(rows[j].last))
    && (forall i, j :: 0 <= i < j < |rows| ==> rows[i].cabinet != rows[j].cabinet)
  }

  lemma {:induction false} MediaMeans(rows: seq<MediaRow>)
    ensures MediaOk(rows) <==> InOrder(rows)
  {
    if MediaOk(rows) {
      forall i | 0 <= i < |rows| ensures IsEmbedded(rows[i]) && Value(rows[i].last) >= 0 {
        assert MediaAt(rows, i) && MediaAt(rows, 0);
        MediaIsSorted(rows, 0, i);
      }
      forall i, j | 0 <= i < j < |rows| ensures Value(rows[i].last) <= Value(rows[j].last) {
        MediaIsSorted(rows, i, j);
      }
    }
    if InOrder(rows) {
      forall i | 0 <= i < |rows| ensures MediaAt(rows, i) {
        assert IsEmbedded(rows[i]);
        if i > 0 { assert Value(rows[i - 1].last) <= Value(rows[i].last); }
      }
    }
  }

  // ----- File rows

  /**
   * An attribute word by its bits: those below 0x2000, `msidbFileAttributesNoncompressed`,
   * `msidbFileAttributesCompressed`, and those above.
   */
  function AttributeWord(low: nat, noncompressed: bool, packed: bool, high: int): int
  {
    low + (if noncompressed then 8192 else 0) + (if packed then 16384 else 0) + 32768 * high
  }

  lemma AttributeBits(low: nat, noncompressed: bool, packed: bool, high: int)
    requires low < 8192
    ensures Bit(AttributeWord(low, noncompressed, packed, high), 0x2000) <==> noncompressed
    ensures Bit(AttributeWord(low, noncompressed, packed, high), 0x4000) <==> packed
  {
    var n, c := if noncompressed then 1 else 0, if packed then 1 else 0;
    var word := AttributeWord(low, noncompressed, packed, high);
    DivModIs(word, 0x2000, n + 2 * (c + 2 * high), low);
    DivModIs(n + 2 * (c + 2 * high), 2, c + 2 * high, n);
    DivModIs(word, 0x4000, c + 2 * high, low + 0x2000 * n);
    DivModIs(c + 2 * high, 2, high, c);
  }

  /** A file is embedded, by its own attribute or the package's, and has a sequence number and a size. */
  lemma FileRowMeans(row: FileRow, packageCompressed: bool, low: nat, noncompressed: bool, packed: bool, high: int)
    requires low < 8192 && row.attributes == Number(Value(row.attributes))
    requires Value(row.attributes) == AttributeWord(low, noncompressed, packed, high)
    ensures FileRowOk(row, packageCompressed) <==>
            && !noncompressed && (packed || packageCompressed)
            && row.sequence != Garbage && row.size != Garbage && Value(row.sequence) >= 1 && Value(row.size) >= 0
  {
    AttributeBits(low, noncompressed, packed, high);
  }

  lemma HashesMean(rows: seq<HashRow>)
    ensures HashesOk(rows) <==> forall i :: 0 <= i < |rows| ==> rows[i].options in {Blank, Number(0)}
  {
  }

  // ----- the cabinets of a package, without an order

  /** The cabinet of Media row `k` is there, well formed, and acceptable by itself. */
  ghost predicate Readable(db: Db, k: nat)
    requires k < |db.media|
  {
    var n := CabName(db.media[k]);
    n in db.streams && LayoutOf(db.streams[n]).Ok? && Acceptable(LayoutOf(db.streams[n]).value, 0, 0)
  }

  ghost function RecordsAt(db: Db, k: nat): seq<Record>
    requires k < |db.media|
  {
    if Readable(db, k) then LayoutOf(db.streams[CabName(db.media[k])]).value.table.records else []
  }

  ghost function ExpandedAt(db: Db, k: nat): nat
    requires k < |db.media|
  {
    if Readable(db, k) then Expanded(LayoutOf(db.streams[CabName(db.media[k])]).value.folders) else 0
  }

  ghost function ExpandedFrom(db: Db, i: nat): nat
    requires i <= |db.media|
    decreases |db.media| - i
  {
    if i == |db.media| then 0 else ExpandedAt(db, i) + ExpandedFrom(db, i + 1)
  }

  ghost function RecordsFrom(db: Db, i: nat): seq<Record>
    requires i <= |db.media|
    decreases |db.media| - i
  {
    if i == |db.media| then [] else RecordsAt(db, i) + RecordsFrom(db, i + 1)
  }

  lemma AcceptableAlone(c: Layout, total: nat, count: nat)
    ensures Acceptable(c, total, count) <==>
            && Acceptable(c, 0, 0)
            && total + Expanded(c.folders) <= EXPANSION_LIMIT && count + |c.table.records| <= MEMBER_LIMIT
  {
    hide NothingOverlaps, DistinctNames, Expanded;
  }

  /** One turn of the cabinet loop. */
  lemma InspectTurn(db: Db, i: nat, total: nat, count: nat)
    requires MediaOk(db.media) && i < |db.media| && total <= EXPANSION_LIMIT && count <= MEMBER_LIMIT
    ensures InspectFrom(db, i, total, count) ==
            if !Readable(db, i) || total + ExpandedAt(db, i) > EXPANSION_LIMIT then Throws
            else if count + |RecordsAt(db, i)| > MEMBER_LIMIT then Throws
            else PrependCab(CabFor(db.media, i, Members(RecordsAt(db, i), count)),
                            InspectFrom(db, i + 1, total + ExpandedAt(db, i), count + |RecordsAt(db, i)|))
  {
    hide LayoutOf, Acceptable, MediaOk, Expanded, Members;
    var n := CabName(db.media[i]);
    if n in db.streams && LayoutOf(db.streams[n]).Ok? { AcceptableAlone(LayoutOf(db.streams[n]).value, total, count); }
  }

  ghost predicate AllReadable(db: Db, i: nat)
    requires i <= |db.media|
  {
    forall k :: i <= k < |db.media| ==> Readable(db, k)
  }

  lemma ReadableSplit(db: Db, i: nat)
    requires i < |db.media|
    ensures AllReadable(db, i) <==> Readable(db, i) && AllReadable(db, i + 1)
  {
    hide Readable;
  }

  /** The cabinet loop succeeds exactly when every cabinet is readable and all together fit the two limits. */
  lemma {:induction false} InspectAddsUp(db: Db, i: nat, total: nat, count: nat)
    requires MediaOk(db.media) && i <= |db.media| && total <= EXPANSION_LIMIT && count <= MEMBER_LIMIT
    ensures InspectFrom(db, i, total, count).Ok? <==>
            && AllReadable(db, i)
            && total + ExpandedFrom(db, i) <= EXPANSION_LIMIT && count + |RecordsFrom(db, i)| <= MEMBER_LIMIT
    ensures InspectFrom(db, i, total, count).Ok? ==>
            var r := InspectFrom(db, i, total, count).value;
            r.total == total + ExpandedFrom(db, i) && r.count == count + |RecordsFrom(db, i)|
    decreases |db.media| - i
  {
    hide Readable, MediaOk, Members, ExpandedAt, RecordsAt, InspectFrom, CabFor, AllReadable;
    if i == |db.media| {
      NothingToInspect(db, total, count);
    } else {
      InspectTurn(db, i, total, count);
      ReadableSplit(db, i);
      var more, records := ExpandedAt(db, i), RecordsAt(db, i);
      if Readable(db, i) && total + more <= EXPANSION_LIMIT && count + |records| <= MEMBER_LIMIT {
        InspectAddsUp(db, i + 1, total + more, count + |records|);
      }
    }
  }

  lemma {:induction false} NothingToInspect(db: Db, total: nat, count: nat)
    requires MediaOk(db.media) && total <= EXPANSION_LIMIT && count <= MEMBER_LIMIT
    ensures AllReadable(db, |db.media|)
    ensures InspectFrom(db, |db.media|, total, count) == Ok(Inspected([], total, count))
  {
  }

  /** The members, all cabinets together, are the records in order, numbered from `count`. */
  lemma {:induction false} InspectLists(db: Db, i: nat, total: nat, count: nat)
    requires MediaOk(db.media) && i <= |db.media| && total <= EXPANSION_LIMIT && count <= MEMBER_LIMIT
    requires InspectFrom(db, i, total, count).Ok?
    ensures Flat(InspectFrom(db, i, total, count).value.cabs) == Members(RecordsFrom(db, i), count)
    decreases |db.media| - i
  {
    hide Readable, MediaOk, Members, ExpandedAt, RecordsAt, InspectFrom;
    if i == |db.media| {
      NothingToInspect(db, total, count);
      NoMembers(count);
    } else {
      InspectTurn(db, i, total, count);
      var more, records := ExpandedAt(db, i), RecordsAt(db, i);
      InspectLists(db, i + 1, total + more, count + |records|);
      var rest := InspectFrom(db, i + 1, total + more, count + |records|).value.cabs;
      var cab := CabFor(db.media, i, Members(records, count));
      assert ([cab] + rest)[1..] == rest;
      MembersCat(records, RecordsFrom(db, i + 1), count);
    }
  }

  lemma NoMembers(count: nat)
    ensures Members([], count) == []
  {
  }

  lemma MembersCat(a: seq<Record>, b: seq<Record>, count: nat)
    ensures Members(a + b, count) == Members(a, count) + Members(b, count + |a|)
  {
  }

  // ----- Binary streams, without an order

  predicate AllPresent(db: Db, j: nat)
    requires j <= |db.binaryNames|
  {
    forall k :: j <= k < |db.binaryNames| ==> db.binaryNames[k] in db.binaries
  }

  function SizesFrom(db: Db, j: nat): nat
    requires j <= |db.binaryNames| && AllPresent(db, j)
    decreases |db.binaryNames| - j
  {
    if j == |db.binaryNames| then 0 else |db.binaries[db.binaryNames[j]]| + SizesFrom(db, j + 1)
  }

  /** The Binary loop succeeds exactly when every stream is there and all together fit what is left of the limits. */
  lemma {:induction false} BinariesAddUp(db: Db, j: nat, total: nat, count: nat)
    requires j <= |db.binaryNames| && total <= EXPANSION_LIMIT && count <= MEMBER_LIMIT
    ensures BinariesFrom(db, j, total, count).Ok? <==>
            && AllPresent(db, j) && total + SizesFrom(db, j) <= EXPANSION_LIMIT
            && count + |db.binaryNames| - j <= MEMBER_LIMIT
    ensures BinariesFrom(db, j, total, count).Ok? ==>
              BinariesFrom(db, j, total, count).value == total + SizesFrom(db, j)
    decreases |db.binaryNames| - j
  {
    if j < |db.binaryNames| && count < MEMBER_LIMIT && db.binaryNames[j] in db.binaries {
      assert AllPresent(db, j) <==> AllPresent(db, j + 1);
      var size := |db.binaries[db.binaryNames[j]]|;
      if size <= EXPANSION_LIMIT - total { BinariesAddUp(db, j + 1, total + size, count + 1); }
    }
  }

  /** The File rows correspond to the members, should the cabinets be in order. */
  ghost predicate IsMapped(db: Db)
    requires MediaOk(db.media)
  {
    InspectFrom(db, 0, 0, 0).Ok? ==> MappingOk(InspectFrom(db, 0, 0, 0).value.cabs, db.files)
  }

  /**
   * Any database whose rows are in order is accepted exactly when its cabinets and Binary streams are there and good,
   * the File rows match, and everything together is at most 1 GiB and 65535 payloads.
   */
  lemma {:induction false} PreflightAddsUp(db: Db)
    requires RowsOk(db)
    ensures Preflightable(db) <==>
            && AllReadable(db, 0) && IsMapped(db) && AllPresent(db, 0)
            && ExpandedFrom(db, 0) + SizesFrom(db, 0) <= 0x4000_0000
            && |RecordsFrom(db, 0)| + |db.binaryNames| <= 65535
    ensures Preflightable(db) ==>
            && MembersOf(db) == Members(RecordsFrom(db, 0), 0)
            && ExpandedOf(db) == ExpandedFrom(db, 0) + SizesFrom(db, 0)
            && PayloadCount(db) == |RecordsFrom(db, 0)| + |db.binaryNames|
  {
    hide FilesOk, HashesOk, MediaOk, InspectFrom, BinariesFrom, AllReadable, ExpandedFrom, RecordsFrom, SizesFrom,
         AllPresent, MappingOk, Flat, Members;
    InspectAddsUp(db, 0, 0, 0);
    if InspectFrom(db, 0, 0, 0).Ok? {
      var r := InspectFrom(db, 0, 0, 0).value;
      BinariesAddUp(db, 0, r.total, r.count);
      InspectLists(db, 0, 0, 0);
      MembersCount(RecordsFrom(db, 0));
    }
  }

  lemma MembersCount(rs: seq<Record>)
    ensures |Members(rs, 0)| == |rs|
  {
  }

  // ----- a package built from its cabinets

  datatype Disc = Disc(name: Bytes, stream: Bytes)

  ghost function RecordsIn(d: Disc): seq<Record>
  {
    if LayoutOf(d.stream).Ok? then LayoutOf(d.stream).value.table.records else []
  }

  ghost function AllRecords(ds: seq<Disc>): seq<Record>
  {
    if ds == [] then [] else AllRecords(ds[..|ds| - 1]) + RecordsIn(ds[|ds| - 1])
  }

  function StreamsOf(ds: seq<Disc>): map<Bytes, Bytes>
  {
    if ds == [] then map[] else StreamsOf(ds[..|ds| - 1])[ds[|ds| - 1].name := ds[|ds| - 1].stream]
  }

  /** Numbers and sizes fit the integer columns. */
  ghost predicate FitsColumns(ds: seq<Disc>)
  {
    |AllRecords(ds)| < 0x8000_0000 && forall x :: x in AllRecords(ds) ==> x.size < 0x8000_0000
  }

  /** One Media row a cabinet: its stream, and the number of files up to its end. */
  ghost function MediaOf(ds: seq<Disc>): (rows: seq<MediaRow>)
    requires |AllRecords(ds)| < 0x8000_0000
    ensures |rows| == |ds| && forall i :: 0 <= i < |ds| ==> rows[i] == MediaFor(ds, i)
  {
    seq(|ds|, i requires 0 <= i < |ds| => MediaFor(ds, i))
  }

  ghost function MediaFor(ds: seq<Disc>, i: nat): MediaRow
    requires i < |ds| && |AllRecords(ds)| < 0x8000_0000
  {
    RecordsGrow(ds, i + 1);
    MediaRow(Number(|AllRecords(ds[..i + 1])|), ['#' as int] + ds[i].name)
  }

  /** One File row a file, with the numbers 1, 2, 3 and so on. */
  ghost function FilesOf(rs: seq<Record>): (rows: seq<FileRow>)
    requires |rs| < 0x8000_0000 && forall x :: x in rs ==> x.size < 0x8000_0000
    ensures |rows| == |rs| && forall p :: 0 <= p < |rs| ==> rs[p] in rs && rows[p] == FileFor(rs[p], p + 1)
  {
    seq(|rs|, p requires 0 <= p < |rs| => assert rs[p] in rs; FileFor(rs[p], p + 1))
  }

  function FileFor(x: Record, number: int32): FileRow
    requires x.size < 0x8000_0000
  {
    FileRow(x.name, Number(x.size), [], Number(16384), Number(number))
  }

  ghost function PackageOf(ds: seq<Disc>, storages: bool): Db
    requires FitsColumns(ds)
  {
    Db(storages, false, MediaOf(ds), FilesOf(AllRecords(ds)), [], StreamsOf(ds), [], map[], [])
  }

  lemma {:induction false} RecordsGrow(ds: seq<Disc>, i: nat)
    requires i <= |ds|
    ensures |AllRecords(ds[..i])| <= |AllRecords(ds)|
    decreases |ds| - i
  {
    if i == |ds| {
      assert ds[..i] == ds;
    } else {
      RecordsGrow(ds, i + 1);
      assert ds[..i + 1][..i] == ds[..i];
    }
  }

  lemma {:induction false} RecordsMonotone(ds: seq<Disc>, i: nat, j: nat)
    requires i <= j <= |ds|
    ensures |AllRecords(ds[..i])| <= |AllRecords(ds[..j])|
  {
    RecordsGrow(ds[..j], i);
    assert ds[..j][..i] == ds[..i];
  }

  lemma {:induction false} StreamsAre(ds: seq<Disc>, i: nat)
    requires i < |ds| && forall a, b :: 0 <= a < b < |ds| ==> ds[a].name != ds[b].name
    ensures ds[i].name in StreamsOf(ds) && StreamsOf(ds)[ds[i].name] == ds[i].stream
  {
    var init := ds[..|ds| - 1];
    if i < |ds| - 1 {
      StreamsAre(init, i);
      assert ds[i].name != ds[|ds| - 1].name;
    }
  }

  /** Every disc has a name of its own. */
  predicate IsNamed(ds: seq<Disc>)
  {
    (forall i :: 0 <= i < |ds| ==> ds[i].name != []) && forall i, j :: 0 <= i < j < |ds| ==> ds[i].name != ds[j].name
  }

  lemma {:induction false} MediaForIs(ds: seq<Disc>, i: nat)
    requires i < |ds| && |AllRecords(ds)| < 0x8000_0000
    ensures var row := MediaFor(ds, i);
            && Value(row.last) == |AllRecords(ds[..i + 1])|
            && CabName(row) == ds[i].name && row.cabinet == ['#' as int] + ds[i].name
            && (IsEmbedded(row) <==> ds[i].name != [])
  {
    hide AllRecords;
  }

  lemma {:induction false} MediaOfIsOk(ds: seq<Disc>)
    requires |AllRecords(ds)| < 0x8000_0000
    ensures MediaOk(MediaOf(ds)) <==> IsNamed(ds)
  {
    hide MediaFor, AllRecords, IsEmbedded, MediaOk;
    var rows := MediaOf(ds);
    MediaMeans(rows);
    forall i | 0 <= i < |ds|
      ensures rows[i].cabinet == ['#' as int] + ds[i].name && Value(rows[i].last) == |AllRecords(ds[..i + 1])|
      ensures IsEmbedded(rows[i]) <==> ds[i].name != []
    {
      MediaForIs(ds, i);
    }
    forall i, j | 0 <= i < j < |ds|
      ensures Value(rows[i].last) <= Value(rows[j].last)
      ensures rows[i].cabinet != rows[j].cabinet <==> ds[i].name != ds[j].name
    {
      RecordsMonotone(ds, i + 1, j + 1);
      assert (['#' as int] + ds[i].name)[1..] == ds[i].name && (['#' as int] + ds[j].name)[1..] == ds[j].name;
    }
  }

  lemma {:induction false} FilesOfAreOk(rs: seq<Record>)
    requires |rs| < 0x8000_0000 && forall x :: x in rs ==> x.size < 0x8000_0000
    ensures FilesOk(FilesOf(rs), false) <==> forall i, j :: 0 <= i < j < |rs| ==> rs[i].name != rs[j].name
  {
    var rows := FilesOf(rs);
    forall p | 0 <= p < |rs|
      ensures FileRowOk(rows[p], false) && rows[p].key == rs[p].name && Value(rows[p].sequence) == p + 1
    {
      assert rows[p] == FileFor(rs[p], p + 1);
      FileRowMeans(rows[p], false, 0, false, true, 0);
    }
  }

  /** The cabinet is well formed and acceptable by itself. */
  ghost predicate IsGood(d: Disc) { LayoutOf(d.stream).Ok? && Acceptable(LayoutOf(d.stream).value, 0, 0) }

  ghost function ExpandedIn(d: Disc): nat { if IsGood(d) then Expanded(LayoutOf(d.stream).value.folders) else 0 }

  ghost function AllExpanded(ds: seq<Disc>): nat
  {
    if ds == [] then 0 else AllExpanded(ds[..|ds| - 1]) + ExpandedIn(ds[|ds| - 1])
  }

  lemma ReadableIffGood(ds: seq<Disc>, storages: bool, k: nat)
    requires FitsColumns(ds) && IsNamed(ds) && k < |ds|
    ensures var db := PackageOf(ds, storages);
            && CabName(db.media[k]) == ds[k].name
            && (Readable(db, k) <==> IsGood(ds[k])) && ExpandedAt(db, k) == ExpandedIn(ds[k])
            && ds[k].name in db.streams && db.streams[ds[k].name] == ds[k].stream
            && (IsGood(ds[k]) ==> RecordsAt(db, k) == RecordsIn(ds[k]))
  {
    hide LayoutOf, Acceptable, AllRecords, StreamsOf, MediaFor;
    StreamsAre(ds, k);
    MediaForIs(ds, k);
    assert PackageOf(ds, storages).media[k] == MediaFor(ds, k);
  }

  lemma {:induction false} ExpandedOfPackage(ds: seq<Disc>, storages: bool, i: nat)
    requires FitsColumns(ds) && IsNamed(ds) && i <= |ds|
    ensures AllExpanded(ds[..i]) + ExpandedFrom(PackageOf(ds, storages), i) == AllExpanded(ds)
    decreases |ds| - i
  {
    hide ExpandedAt, ExpandedIn, PackageOf, Readable;
    PackageMedia(ds, storages);
    if i == |ds| {
      assert ds[..i] == ds;
    } else {
      ExpandedOfPackage(ds, storages, i + 1);
      ReadableIffGood(ds, storages, i);
      assert ds[..i + 1][..i] == ds[..i] && ds[..i + 1][i] == ds[i];
    }
  }

  /** The records of the package are those of the discs, in order. */
  lemma {:induction false} RecordsOfPackage(ds: seq<Disc>, storages: bool, i: nat)
    requires FitsColumns(ds) && IsNamed(ds) && i <= |ds| && forall k :: 0 <= k < |ds| ==> IsGood(ds[k])
    ensures i <= |PackageOf(ds, storages).media|
    ensures AllRecords(ds[..i]) + RecordsFrom(PackageOf(ds, storages), i) == AllRecords(ds)
    decreases |ds| - i
  {
    hide RecordsAt, RecordsIn, PackageOf, IsGood, Readable, FitsColumns, IsNamed;
    PackageMedia(ds, storages);
    if i == |ds| {
      assert ds[..i] == ds;
    } else {
      RecordsOfPackage(ds, storages, i + 1);
      ReadableIffGood(ds, storages, i);
      assert ds[..i + 1][..i] == ds[..i] && ds[..i + 1][i] == ds[i];
    }
  }

  lemma PackageMedia(ds: seq<Disc>, storages: bool)
    requires FitsColumns(ds)
    ensures |PackageOf(ds, storages).media| == |ds|
  {
  }

  // ----- the files of such a package are mapped

  ghost predicate IsInspected(ds: seq<Disc>, db: Db, storages: bool)
  {
    FitsColumns(ds) && IsNamed(ds) && db == PackageOf(ds, storages) && MediaOk(db.media) && InspectFrom(db, 0, 0, 0).Ok?
  }

  lemma {:induction false} CabsOfPackage(ds: seq<Disc>, db: Db, storages: bool, k: nat)
    requires IsInspected(ds, db, storages) && k <= |ds|
    ensures |InspectFrom(db, 0, 0, 0).value.cabs| == |ds|
    ensures CabStart(InspectFrom(db, 0, 0, 0).value.cabs, k) == |AllRecords(ds[..k])|
  {
    hide LayoutOf, Acceptable, MediaOk, InspectFrom, FitsColumns, PackageOf, Members, IsNamed;
    PackageMedia(ds, storages);
    if k == 0 {
      assert ds[..0] == [];
    } else {
      CabsOfPackage(ds, db, storages, k - 1);
      CabAt(db, 0, 0, 0, k - 1);
      ReadableIffGood(ds, storages, k - 1);
      CabStartStep(InspectFrom(db, 0, 0, 0).value.cabs, k - 1);
      assert ds[..k][..k - 1] == ds[..k - 1] && ds[..k][k - 1] == ds[k - 1];
    }
  }

  lemma {:induction false} IntervalOf(ds: seq<Disc>, db: Db, storages: bool, k: nat)
    requires IsInspected(ds, db, storages) && k < |ds|
    ensures |InspectFrom(db, 0, 0, 0).value.cabs| == |ds|
    ensures var c := InspectFrom(db, 0, 0, 0).value.cabs[k];
            c.first == |AllRecords(ds[..k])| + 1 && c.last == |AllRecords(ds[..k + 1])|
  {
    hide LayoutOf, Acceptable, MediaOk, InspectFrom, Members, AllRecords, MediaFor;
    CabsOfPackage(ds, db, storages, k);
    CabAt(db, 0, 0, 0, k);
    MediaForIs(ds, k);
    assert db.media[k] == MediaFor(ds, k);
    if k == 0 {
      assert ds[..0] == [];
      NoRecords();
    } else {
      MediaForIs(ds, k - 1);
      assert db.media[k - 1] == MediaFor(ds, k - 1);
    }
  }

  lemma NoRecords()
    ensures AllRecords([]) == []
  {
  }

  lemma {:induction false} MemberMaps(ds: seq<Disc>, db: Db, storages: bool, k: nat, j: nat)
    requires IsInspected(ds, db, storages) && k < |ds|
    requires Flat(InspectFrom(db, 0, 0, 0).value.cabs) == Members(AllRecords(ds), 0)
    requires |InspectFrom(db, 0, 0, 0).value.cabs| == |ds| && j < |InspectFrom(db, 0, 0, 0).value.cabs[k].members|
    ensures var c := InspectFrom(db, 0, 0, 0).value.cabs[k]; Maps(c.members[j], c, db.files)
  {
    hide LayoutOf, Acceptable, MediaOk, InspectFrom, AllRecords, Flat, MediaOf, CabStart;
    var cabs := InspectFrom(db, 0, 0, 0).value.cabs;
    CabsOfPackage(ds, db, storages, k);
    CabsOfPackage(ds, db, storages, k + 1);
    CabStartStep(cabs, k);
    IntervalOf(ds, db, storages, k);
    FlatAt(cabs, k, j);
    var p := CabStart(cabs, k) + j;
    assert db.files[p] == FileFor(AllRecords(ds)[p], p + 1);
  }

  /** No file name occurs twice in the package. */
  ghost predicate NamesDiffer(rs: seq<Record>) { forall i, j :: 0 <= i < j < |rs| ==> rs[i].name != rs[j].name }

  lemma {:induction false} PackageMaps(ds: seq<Disc>, db: Db, storages: bool)
    requires IsInspected(ds, db, storages) && NamesDiffer(AllRecords(ds))
    requires Flat(InspectFrom(db, 0, 0, 0).value.cabs) == Members(AllRecords(ds), 0)
    ensures MappingOk(InspectFrom(db, 0, 0, 0).value.cabs, db.files)
  {
    hide LayoutOf, Acceptable, MediaOk, InspectFrom, AllRecords, Flat, Maps;
    var cabs := InspectFrom(db, 0, 0, 0).value.cabs;
    CabsOfPackage(ds, db, storages, 0);
    forall c | c in cabs ensures CabMaps(c, db.files) {
      var k :| 0 <= k < |cabs| && cabs[k] == c;
      forall m | m in c.members ensures Maps(m, c, db.files) {
        var j :| 0 <= j < |c.members| && c.members[j] == m;
        MemberMaps(ds, db, storages, k, j);
      }
    }
    var ms := Members(AllRecords(ds), 0);
    forall p | 0 <= p < |db.files| ensures IsMember(ms, db.files[p].key) {
      assert db.files[p] == FileFor(AllRecords(ds)[p], p + 1) && ms[p].name == db.files[p].key;
    }
  }

  // ----- and accepted

  lemma {:induction false} InspectedPackage(ds: seq<Disc>, storages: bool)
    requires FitsColumns(ds) && IsNamed(ds)
    ensures var db := PackageOf(ds, storages);
            && MediaOk(db.media)
            && (InspectFrom(db, 0, 0, 0).Ok? <==>
                  && (forall k :: 0 <= k < |ds| ==> IsGood(ds[k]))
                  && AllExpanded(ds) <= 0x4000_0000 && |AllRecords(ds)| <= 65535)
            && (InspectFrom(db, 0, 0, 0).Ok? ==>
                  Flat(InspectFrom(db, 0, 0, 0).value.cabs) == Members(AllRecords(ds), 0))
  {
    hide LayoutOf, Acceptable, MediaOk, InspectFrom, AllRecords, Flat, PackageOf, IsGood, Readable, AllExpanded,
         FitsColumns, IsNamed, Members;
    var db := PackageOf(ds, storages);
    PackageMedia(ds, storages);
    PackageMediaOk(ds, storages);
    InspectAddsUp(db, 0, 0, 0);
    ExpandedOfPackage(ds, storages, 0);
    assert ds[..0] == [];
    NothingExpanded();
    NoRecords();
    forall k | 0 <= k < |ds| ensures Readable(db, k) <==> IsGood(ds[k]) { ReadableIffGood(ds, storages, k); }
    if InspectFrom(db, 0, 0, 0).Ok? { InspectLists(db, 0, 0, 0); }
    if forall k :: 0 <= k < |ds| ==> IsGood(ds[k]) {
      RecordsOfPackage(ds, storages, 0);
      assert [] + RecordsFrom(db, 0) == RecordsFrom(db, 0);
    }
  }

  lemma NothingExpanded()
    ensures AllExpanded([]) == 0
  {
  }

  lemma PackageMediaOk(ds: seq<Disc>, storages: bool)
    requires FitsColumns(ds)
    ensures MediaOk(PackageOf(ds, storages).media) <==> IsNamed(ds)
  {
    hide MediaOk, AllRecords, IsNamed, FilesOf, StreamsOf;
    MediaOfIsOk(ds);
  }

  lemma {:induction false} PackageRowsOk(ds: seq<Disc>, storages: bool)
    requires FitsColumns(ds)
    ensures RowsOk(PackageOf(ds, storages)) <==> !storages && IsNamed(ds) && NamesDiffer(AllRecords(ds))
  {
    hide MediaOk, AllRecords, IsNamed, FilesOf, FilesOk, StreamsOf;
    PackageMediaOk(ds, storages);
    FilesOfAreOk(AllRecords(ds));
    HashesMean([]);
  }

  /**
   * A package whose files are numbered 1, 2, 3 and so on through its cabinets is accepted exactly when it has no
   * storages, its cabinets have names of their own and are good ones, no file name occurs twice, and all
   * together take at most 1 GiB and 65535 files.
   */
  lemma {:induction false} PackageIsAccepted(ds: seq<Disc>, storages: bool)
    requires FitsColumns(ds)
    ensures Preflightable(PackageOf(ds, storages)) <==>
            && !storages && IsNamed(ds) && NamesDiffer(AllRecords(ds)) && (forall k :: 0 <= k < |ds| ==> IsGood(ds[k]))
            && AllExpanded(ds) <= 0x4000_0000 && |AllRecords(ds)| <= 65535
  {
    hide RowsOk, MediaOk, InspectFrom, AllRecords, IsNamed, FilesOf, MediaOf, StreamsOf, NamesDiffer, IsGood,
         MappingOk, Flat, FitsColumns, AllExpanded;
    var db := PackageOf(ds, storages);
    PackageRowsOk(ds, storages);
    if !storages && IsNamed(ds) && NamesDiffer(AllRecords(ds)) {
      InspectedPackage(ds, storages);
      if InspectFrom(db, 0, 0, 0).Ok? { PackageMaps(ds, db, storages); }
    }
  }
}
