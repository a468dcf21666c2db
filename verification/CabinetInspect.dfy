/** `inspect_cabinet` as written: one pass, early exits, two sorted sweeps. */
module CabinetInspect {
  import opened Wire
  import opened Ranges
  import opened Cabinet

  method SkipBlocks(f: Bytes, start: u64, count: nat, reserve: nat) returns (r: Outcome<(u64, u64)>)
    requires start <= |f| <= EXPANSION_LIMIT && count < 0x1_0000 && reserve < 0x100
    ensures r == Blocks(f, start, 0, count, reserve)
  {
    var length: u64, end: u64, expanded: u64 := |f|, start, 0;
    for j := 0 to count
      invariant start <= end <= length && expanded <= 32768 * j
      invariant Blocks(f, start, 0, count, reserve) == Blocks(f, end, expanded, count - j, reserve)
    {
      var room: u64 := length - end;
      if room < 8 + reserve { return Throws; }
      var packed, unpacked := Le16(f, end + 4), Le16(f, end + 6);
      if unpacked == 0 || unpacked > 32768 || packed == 0 { return Throws; }
      var block: u64 := 8 + reserve + packed;
      if block > room { return Throws; }
      end := end + block;
      expanded := expanded + unpacked;
    }
    return Ok((end, expanded));
  }

  method ReadFolder(f: Bytes, pos: u64, h: Header) returns (r: Outcome<Folder>)
    requires pos + 8 <= |f| <= EXPANSION_LIMIT && h.dataReserve < 0x100
    ensures r == FolderAt(f, pos, h.dataReserve)
  {
    hide Blocks;
    var compression := Le16(f, pos + 6) % 16;
    if compression != 0 && compression != 1 && compression != 3 { return Throws; }
    var start: u64 := Le32(f, pos);
    if start > |f| { return Throws; }
    var walked :- SkipBlocks(f, start, Le16(f, pos + 4), h.dataReserve);
    return Ok(Folder(start, walked.0, walked.1));
  }

  /** The folder loop, with the running total of expanded bytes. */
  method ReadFolders(f: Bytes, h: Header) returns (r: Outcome<seq<Folder>>, expanded: u64)
    requires TablesEnd(h.pos, h.folders, h.folderReserve) <= |f| <= EXPANSION_LIMIT && h.dataReserve < 0x100
    ensures r.Ok? ==> Folders(f, h.pos, h.folders, h) == r && expanded == Expanded(r.value) <= EXPANSION_LIMIT
    ensures r.Throws? && Folders(f, h.pos, h.folders, h).Ok? ==>
              Expanded(Folders(f, h.pos, h.folders, h).value) > EXPANSION_LIMIT
  {
    hide TablesEnd, Folders, FolderAt, Expanded;
    var pos: u64 := 0;
    assert h.pos <= TablesEnd(h.pos, h.folders, h.folderReserve) by { TablesStart(h.pos, h.folders, h.folderReserve); }
    pos, expanded := h.pos, 0;
    var taken: seq<Folder> := [];
    ghost var all := Folders(f, h.pos, h.folders, h);
    FoldersStart(all);
    for i := 0 to h.folders
      invariant TablesEnd(pos, h.folders - i, h.folderReserve) <= |f|
      invariant |taken| == i && expanded == Expanded(taken) <= EXPANSION_LIMIT
      invariant FolderSuffix(all, taken, Folders(f, pos, h.folders - i, h))
    {
      FolderStep(f, pos, h.folders - i, h, all, taken);
      var folder :- ReadFolder(f, pos, h);
      ExpandedAppend(taken, folder);
      var room: u64 := EXPANSION_LIMIT - expanded;
      if folder.expanded > room {
        if all.Ok? {
          ExpandedPrefix(taken + [folder], Folders(f, pos + 8 + h.folderReserve, h.folders - i - 1, h).value);
        }
        return Throws, expanded;
      }
      expanded := expanded + folder.expanded;
      taken := taken + [folder];
      pos := pos + 8 + h.folderReserve;
    }
    FoldersEnd(f, pos, h, taken);
    return Ok(taken), expanded;
  }

  predicate FolderSuffix(all: Outcome<seq<Folder>>, taken: seq<Folder>, rest: Outcome<seq<Folder>>)
  {
    if rest.Throws? then all.Throws? else all == Ok(taken + rest.value)
  }

  lemma TablesStart(pos: nat, n: nat, reserve: nat)
    ensures pos <= TablesEnd(pos, n, reserve)
  {
  }

  lemma FoldersStart(all: Outcome<seq<Folder>>)
    ensures FolderSuffix(all, [], all) && Expanded([]) == 0
  {
    if all.Ok? { assert [] + all.value == all.value; }
  }

  lemma {:induction false} FoldersEnd(f: Bytes, pos: nat, h: Header, taken: seq<Folder>)
    requires TablesEnd(pos, 0, h.folderReserve) <= |f|
    ensures Folders(f, pos, 0, h) == Ok([]) && taken + [] == taken
  {
  }

  lemma FolderStep(f: Bytes, pos: nat, n: nat, h: Header, all: Outcome<seq<Folder>>, taken: seq<Folder>)
    requires n > 0 && TablesEnd(pos, n, h.folderReserve) <= |f|
    requires FolderSuffix(all, taken, Folders(f, pos, n, h))
    ensures TablesEnd(pos + 8 + h.folderReserve, n - 1, h.folderReserve) <= |f| && pos + 8 + h.folderReserve <= |f|
    ensures FolderAt(f, pos, h.dataReserve).Throws? ==> all.Throws?
    ensures FolderAt(f, pos, h.dataReserve).Ok? ==>
              FolderSuffix(all, taken + [FolderAt(f, pos, h.dataReserve).value],
                           Folders(f, pos + 8 + h.folderReserve, n - 1, h))
  {
    hide TablesEnd, FolderAt;
    TablesStep(pos, n, h.folderReserve);
    var rest := Folders(f, pos + 8 + h.folderReserve, n - 1, h);
    if FolderAt(f, pos, h.dataReserve).Ok? && rest.Ok? {
      var first := FolderAt(f, pos, h.dataReserve).value;
      assert taken + ([first] + rest.value) == (taken + [first]) + rest.value;
    }
  }

  lemma {:induction false} ExpandedPrefix(a: seq<Folder>, b: seq<Folder>)
    ensures Expanded(a + b) == Expanded(a) + Expanded(b)
  {
    if a == [] {
      assert a + b == b;
    } else {
      assert (a + b)[1..] == a[1..] + b;
      ExpandedPrefix(a[1..], b);
    }
  }

  lemma {:induction false} ExpandedAppend(a: seq<Folder>, x: Folder)
    ensures Expanded(a + [x]) == Expanded(a) + x.expanded
  {
    ExpandedPrefix(a, [x]);
  }

  // ----- the file table

  /** Reads a name byte by byte. */
  method ReadName(f: Bytes, at: u64) returns (r: Outcome<Bytes>)
    requires |f| < TWO_64
    ensures r == match NameLength(f, at, 0) { case Throws => Throws case Ok(n) => Ok(f[at..at + n]) }
  {
    var name: Bytes, cursor: u64 := [], at;
    while true
      invariant cursor == at + |name| && |name| <= 256 && (name != [] ==> cursor <= |f|)
      invariant name == if name == [] then [] else f[at..cursor]
      invariant NameLength(f, at, 0) == NameLength(f, at, |name|)
      decreases 256 - |name|
    {
      if cursor >= |f| || |name| > 255 { return Throws; }
      var ch := f[cursor];
      if ch == 0 { assert f[at..at + |name|] == name; return Ok(name); }
      assert f[at..cursor + 1] == f[at..cursor] + [ch];
      name := name + [ch];
      cursor := cursor + 1;
    }
  }

  method ReadRecord(f: Bytes, cursor: u64) returns (r: Outcome<Record>)
    requires cursor <= |f| < TWO_64
    ensures r == RecordAt(f, cursor)
  {
    var room: u64 := |f| - cursor;
    if room < 17 { return Throws; }
    var name :- ReadName(f, cursor + 16);
    return Ok(Record(name, Le32(f, cursor), Le32(f, cursor + 4), Le16(f, cursor + 8),
                     Le16(f, cursor + 10), Le16(f, cursor + 12), Le16(f, cursor + 14)));
  }

  lemma RecordsStep(f: Bytes, at: nat, n: nat, fs: seq<Folder>, all: Outcome<FileTable>, taken: seq<Record>)
    requires at <= |f| && n > 0 && all == Prefixed(taken, Records(f, at, n, fs))
    ensures RecordAt(f, at).Throws? ==> all.Throws?
    ensures RecordAt(f, at).Ok? && !Fits(RecordAt(f, at).value, fs) ==> all.Throws?
    ensures RecordAt(f, at).Ok? && Fits(RecordAt(f, at).value, fs) ==>
              After(at, RecordAt(f, at).value) <= |f| &&
              all == Prefixed(taken + [RecordAt(f, at).value], Records(f, After(at, RecordAt(f, at).value), n - 1, fs))
  {
    hide Fits;
    if RecordAt(f, at).Ok? && Fits(RecordAt(f, at).value, fs) {
      var first := RecordAt(f, at).value;
      var rest := Records(f, After(at, first), n - 1, fs);
      if rest.Ok? { assert taken + ([first] + rest.value.records) == (taken + [first]) + rest.value.records; }
    }
  }

  function NameSet(rs: seq<Record>): (s: set<Bytes>)
    ensures forall x :: x in rs ==> x.name in s
    ensures forall n :: n in s ==> exists i :: 0 <= i < |rs| && rs[i].name == n
  {
    set i | 0 <= i < |rs| :: rs[i].name
  }

  lemma DuplicateName(taken: seq<Record>, r: Record, rest: seq<Record>)
    requires r.name in NameSet(taken)
    ensures !DistinctNames(taken + [r] + rest)
  {
    var i :| 0 <= i < |taken| && taken[i].name == r.name;
    var all := taken + [r] + rest;
    assert all[i].name == all[|taken|].name;
  }

  /** The record loop: numbers the payloads from `count` and refuses repeated names. */
  method ReadRecords(f: Bytes, h: Header, fs: seq<Folder>, count: nat)
    returns (r: Outcome<FileTable>, members: seq<Member>)
    requires h.table <= |f| <= EXPANSION_LIMIT
    requires forall d :: d in fs ==> d.expanded <= EXPANSION_LIMIT
    ensures r.Ok? ==> r == Records(f, h.table, h.files, fs) && DistinctNames(r.value.records)
    ensures r.Ok? ==> members == Members(r.value.records, count)
    ensures r.Throws? && Records(f, h.table, h.files, fs).Ok? ==>
              !DistinctNames(Records(f, h.table, h.files, fs).value.records)
  {
    hide Records, RecordAt, Fits;
    var cursor: u64 := h.table;
    var taken: seq<Record>, names: set<Bytes> := [], {};
    members := [];
    ghost var all := Records(f, h.table, h.files, fs);
    RecordsStart(all);
    for i := 0 to h.files
      invariant |taken| == |members| == i && cursor <= |f|
      invariant all == Prefixed(taken, Records(f, cursor, h.files - i, fs))
      invariant names == NameSet(taken) && DistinctNames(taken)
      invariant members == Members(taken, count)
    {
      RecordsStep(f, cursor, h.files - i, fs, all, taken);
      var record :- ReadRecord(f, cursor);
      var fits := CheckFits(record, fs);
      if !fits { return Throws, members; }
      if record.name in names {
        if all.Ok? {
          DuplicateName(taken, record, Records(f, After(cursor, record), h.files - i - 1, fs).value.records);
        }
        return Throws, members;
      }
      ghost var longer := taken + [record];
      assert DistinctNames(longer);
      assert NameSet(longer) == NameSet(taken) + {record.name} by { NameSetStep(taken, record); }
      assert Members(longer, count) == members + [MemberOf(record, count + i)];
      names := names + {record.name};
      members := members + [MemberOf(record, count + i)];
      taken := taken + [record];
      cursor := After(cursor, record);
    }
    RecordsEnd(f, cursor, fs, taken);
    return Ok(FileTable(taken, cursor)), members;
  }

  lemma NameSetStep(taken: seq<Record>, r: Record)
    ensures NameSet(taken + [r]) == NameSet(taken) + {r.name}
  {
    var longer := taken + [r];
    assert longer[|taken|] in longer;
    forall i | 0 <= i < |taken| ensures taken[i].name in NameSet(longer) { assert longer[i] in longer; }
  }

  lemma RecordsStart(all: Outcome<FileTable>)
    ensures all == Prefixed([], all)
  {
    if all.Ok? { assert [] + all.value.records == all.value.records; }
  }

  lemma {:induction false} RecordsEnd(f: Bytes, at: nat, fs: seq<Folder>, taken: seq<Record>)
    requires at <= |f|
    ensures Prefixed(taken, Records(f, at, 0, fs)) == Ok(FileTable(taken, at))
  {
    assert taken + [] == taken;
  }

  /** The folder and name checks on one record, with the subtraction that must not wrap. */
  method CheckFits(r: Record, fs: seq<Folder>) returns (ok: bool)
    requires forall d :: d in fs ==> d.expanded <= EXPANSION_LIMIT
    ensures ok == Fits(r, fs)
  {
    if r.folder >= |fs| { return false; }
    var folder := fs[r.folder];
    if r.offset > folder.expanded { return false; }
    var room: u64 := folder.expanded - r.offset;
    if r.size > room { return false; }
    return SafeName(r.name);
  }

  // ----- the sweeps

  lemma {:induction false} RangesAreValid(rs: seq<Record>, k: nat)
    ensures AllValid(RangesIn(rs, k))
  {
    forall r | r in RangesIn(rs, k) ensures r.Valid() { RangesInAre(rs, k, r); }
  }

  method CheckOverlaps(fs: seq<Folder>, table: FileTable) returns (ok: bool)
    requires forall d :: d in fs ==> d.start <= d.end
    ensures ok <==> NothingOverlaps(fs, table)
  {
    hide Disjoint, RangesIn;
    var ranges: seq<Range> := [];
    for i := 0 to |fs|
      invariant ranges == Extents(fs[..i])
      invariant forall k :: 0 <= k < i ==> Disjoint(RangesIn(table.records, k)) && table.end <= fs[k].start
    {
      if fs[i].start < table.end { assert fs[i] in fs; return false; }
      ranges := ranges + [Range(fs[i].start, fs[i].end)];
      RangesAreValid(table.records, i);
      var apart := Sweep(RangesIn(table.records, i), 0);
      if !apart { assert !Disjoint(RangesIn(table.records, i)); return false; }
    }
    assert fs[..|fs|] == fs;
    forall r | r in ranges ensures r.Valid() && table.end <= r.start {
      var i :| 0 <= i < |fs| && ranges[i] == r;
      assert fs[i] in fs;
    }
    ok := Sweep(ranges, table.end);
  }

  // ----- the whole inspection

  datatype Inspection = Inspection(members: seq<Member>, total: nat, count: nat)

  /**
   * Accepts exactly the well-formed cabinets that fit the budgets left, and then adds the
   * expanded size and the number of members to them.
   */
  method InspectCabinet(f: Bytes, total: u64, count: nat) returns (r: Outcome<Inspection>)
    requires total <= EXPANSION_LIMIT && count <= MEMBER_LIMIT
    ensures r.Ok? <==> LayoutOf(f).Ok? && Acceptable(LayoutOf(f).value, total, count)
    ensures r.Ok? ==> var c := LayoutOf(f).value;
                      r.value == Inspection(Members(c.table.records, count), total + Expanded(c.folders),
                                            count + |c.table.records|)
  {
    hide ReadHeader, Folders, Records, Disjoint, RangesIn, Expanded, TablesEnd, DistinctNames;
    var h :- ReadCabinetHeader(f);
    var fs, expanded := ReadFolders(f, h);
    if fs.Throws? { return Throws; }
    if h.table < TablesEnd(h.pos, h.folders, h.folderReserve) || h.table > |f| { return Throws; }
    RecordsCount(f, h, fs.value);
    if h.files > MEMBER_LIMIT - count { return Throws; }
    forall d | d in fs.value ensures d.expanded <= EXPANSION_LIMIT { ExpandedBound(fs.value, d); }
    var table, members := ReadRecords(f, h, fs.value, count);
    if table.Throws? { return Throws; }
    assert LayoutOf(f) == Ok(Layout(h, fs.value, table.value));
    var room: u64 := EXPANSION_LIMIT - total;
    if expanded > room { return Throws; }
    var apart := CheckOverlaps(fs.value, table.value);
    if !apart { return Throws; }
    return Ok(Inspection(members, total + expanded, count + |members|));
  }

  lemma {:induction false} RecordsCount(f: Bytes, h: Header, fs: seq<Folder>)
    requires h.table <= |f|
    ensures Records(f, h.table, h.files, fs).Ok? ==> |Records(f, h.table, h.files, fs).value.records| == h.files
  {
  }

  lemma {:induction false} ExpandedBound(fs: seq<Folder>, d: Folder)
    requires d in fs
    ensures d.expanded <= Expanded(fs)
  {
    if d != fs[0] { ExpandedBound(fs[1..], d); }
  }

  lemma TablesBound(pos: nat, n: nat, reserve: nat)
    requires pos < 0x2_0000 && n < 0x1_0000 && reserve < 0x100
    ensures TablesEnd(pos, n, reserve) < 0x2_0000 + 0x1_0000 * 0x200
  {
    assert n * (8 + reserve) <= n * 0x200 <= 0x1_0000 * 0x200;
  }

  method ReadCabinetHeader(f: Bytes) returns (r: Outcome<Header>)
    ensures r == ReadHeader(f)
  {
    hide TablesEnd;
    if |f| < 36 || |f| > EXPANSION_LIMIT { return Throws; }
    var length: u64 := |f|;
    if f[..4] != [0x4d, 0x53, 0x43, 0x46] || Le32(f, 8) != length { return Throws; }
    var flags, folders, files := Le16(f, 30), Le16(f, 26), Le16(f, 28);
    if flags % 4 != 0 { return Throws; }
    if flags / 8 != 0 { return Throws; }
    var pos: u64, folderReserve, dataReserve := 36, 0, 0;
    if flags / 4 % 2 == 1 {
      if length < 40 { return Throws; }
      pos := 40 + Le16(f, 36);
      folderReserve, dataReserve := f[38] as int, f[39] as int;
    }
    TablesBound(pos, folders, folderReserve);
    var tables: u64 := TablesEnd(pos, folders, folderReserve);
    if tables > length { return Throws; }
    return Ok(Header(pos, folderReserve, dataReserve, folders, files, Le32(f, 16)));
  }
}
