/**
 * Cabinet layout and its one-pass validation (src/msi_recursive.cpp, `inspect_cabinet`; sections
 * 2.1 to 2.4 of [MS-CAB]). Every read below is proved in bounds and every value assigned to a
 * `u64` is proved not to wrap.
 */
module Cabinet {
  import opened Wire
  import opened Ranges

  const EXPANSION_LIMIT := 1024 * 1024 * 1024
  const MEMBER_LIMIT := 65535

  /** Where the tables lie: `pos` is the first folder record, `table` the first file record. */
  datatype Header = Header(pos: nat, folderReserve: nat, dataReserve: nat, folders: nat, files: nat, table: nat)

  /** A folder's packed bytes in the file, and how many bytes they expand to. */
  datatype Folder = Folder(start: nat, end: nat, expanded: nat)

  datatype Record = Record(name: Bytes, size: nat, offset: nat, folder: nat, date: u16, time: u16, attributes: u16)

  /** A record with the number of the private file that its payload is extracted to. */
  datatype Member = Member(name: Bytes, size: nat, date: u16, time: u16, attributes: u16, path: nat)

  datatype FileTable = FileTable(records: seq<Record>, end: nat)

  predicate SafeName(name: Bytes)
  {
    && name != [] && name != [0x2e] && name != [0x2e, 0x2e]
    && forall c :: c in name ==> c != 0x2f && c != 0x5c && c != 0x3a && c >= 32 && c != 127
  }

  // ----- the header

  /** Where `n` folder records from `pos` end. */
  function TablesEnd(pos: nat, n: nat, reserve: nat): nat { pos + n * (8 + reserve) }

  function ReadHeader(f: Bytes): (r: Outcome<Header>)
    ensures r.Ok? ==> 36 <= |f| <= EXPANSION_LIMIT && 36 <= r.value.pos
    ensures r.Ok? ==> TablesEnd(r.value.pos, r.value.folders, r.value.folderReserve) <= |f|
    ensures r.Ok? ==> r.value.files < 0x1_0000 && r.value.folderReserve < 0x100 && r.value.dataReserve < 0x100
  {
    if |f| < 36 || |f| > EXPANSION_LIMIT then Throws
    else if f[..4] != [0x4d, 0x53, 0x43, 0x46] || Le32(f, 8) != |f| then Throws
    else
      var flags, folders := Le16(f, 30), Le16(f, 26);
      if flags % 4 != 0 || flags / 8 != 0 then Throws
      else if flags / 4 % 2 == 1 && |f| < 40 then Throws
      else
        var h := if flags / 4 % 2 == 1
                 then Header(40 + Le16(f, 36), f[38], f[39], folders, Le16(f, 28), Le32(f, 16))
                 else Header(36, 0, 0, folders, Le16(f, 28), Le32(f, 16));
        if TablesEnd(h.pos, folders, h.folderReserve) > |f| then Throws else Ok(h)
  }

  // ----- folders

  /** Steps over `n` data blocks from `end`. */
  function Blocks(f: Bytes, end: nat, expanded: nat, n: nat, reserve: nat): (r: Outcome<(nat, nat)>)
    requires end <= |f|
    ensures r.Ok? ==> end <= r.value.0 <= |f| && expanded <= r.value.1 <= expanded + 32768 * n
    decreases n
  {
    if n == 0 then Ok((end, expanded))
    else if |f| - end < 8 + reserve then Throws
    else
      var packed, unpacked := Le16(f, end + 4), Le16(f, end + 6);
      if unpacked == 0 || unpacked > 32768 || packed == 0 || 8 + reserve + packed > |f| - end then Throws
      else Blocks(f, end + 8 + reserve + packed, expanded + unpacked, n - 1, reserve)
  }

  function FolderAt(f: Bytes, pos: nat, reserve: nat): (r: Outcome<Folder>)
    requires pos + 8 <= |f|
    ensures r.Ok? ==> r.value.start <= r.value.end <= |f| && r.value.expanded <= 0x8000_0000
  {
    var compression, start := Le16(f, pos + 6) % 16, Le32(f, pos);
    if compression != 0 && compression != 1 && compression != 3 then Throws
    else if start > |f| then Throws
    else
      var walked :- Blocks(f, start, 0, Le16(f, pos + 4), reserve);
      Ok(Folder(start, walked.0, walked.1))
  }

  function Folders(f: Bytes, pos: nat, n: nat, h: Header): (r: Outcome<seq<Folder>>)
    requires TablesEnd(pos, n, h.folderReserve) <= |f|
    ensures r.Ok? ==> |r.value| == n && forall d :: d in r.value ==> d.start <= d.end <= |f|
    decreases n
  {
    if n == 0 then Ok([])
    else
      TablesStep(pos, n, h.folderReserve);
      var first :- FolderAt(f, pos, h.dataReserve);
      var rest :- Folders(f, pos + 8 + h.folderReserve, n - 1, h);
      Ok([first] + rest)
  }

  lemma TablesStep(pos: nat, n: nat, reserve: nat)
    requires n > 0
    ensures TablesEnd(pos + 8 + reserve, n - 1, reserve) == TablesEnd(pos, n, reserve)
    ensures pos + 8 + reserve <= TablesEnd(pos, n, reserve)
  {
    assert n * (8 + reserve) == (n - 1) * (8 + reserve) + 8 + reserve;
    assert (n - 1) * (8 + reserve) >= 0;
  }

  function Expanded(fs: seq<Folder>): nat { if fs == [] then 0 else fs[0].expanded + Expanded(fs[1..]) }

  // ----- file records

  /** The length of the NUL-terminated name at `at`; names longer than 255 bytes are refused. */
  function NameLength(f: Bytes, at: nat, taken: nat): (r: Outcome<nat>)
    ensures r.Ok? ==> taken <= r.value <= 255 && at + r.value < |f| && f[at + r.value] == 0
    ensures r.Ok? ==> forall j :: at + taken <= j < at + r.value ==> f[j] != 0
    decreases |f| - at - taken
  {
    if at + taken >= |f| || taken > 255 then Throws
    else if f[at + taken] == 0 then Ok(taken)
    else NameLength(f, at, taken + 1)
  }

  function RecordAt(f: Bytes, at: nat): (r: Outcome<Record>)
    ensures r.Ok? ==> at + 17 + |r.value.name| <= |f| && r.value.size < TWO_32
  {
    if at + 17 > |f| then Throws
    else
      var n :- NameLength(f, at + 16, 0);
      Ok(Record(f[at + 16..at + 16 + n], Le32(f, at), Le32(f, at + 4), Le16(f, at + 8),
                Le16(f, at + 10), Le16(f, at + 12), Le16(f, at + 14)))
  }

  function After(at: nat, r: Record): nat { at + 17 + |r.name| }

  /** The record lies in a known folder, within its data, under a safe name. */
  predicate Fits(r: Record, fs: seq<Folder>)
  {
    r.folder < |fs| && r.offset + r.size <= fs[r.folder].expanded && SafeName(r.name)
  }

  function Prefixed(taken: seq<Record>, rest: Outcome<FileTable>): Outcome<FileTable>
  {
    match rest
    case Throws => Throws
    case Ok(t) => Ok(FileTable(taken + t.records, t.end))
  }

  /** `n` records from `at`, each of which fits. */
  function Records(f: Bytes, at: nat, n: nat, fs: seq<Folder>): (r: Outcome<FileTable>)
    requires at <= |f|
    ensures r.Ok? ==> |r.value.records| == n && at <= r.value.end <= |f|
    ensures r.Ok? ==> forall x :: x in r.value.records ==> Fits(x, fs) && x.size < TWO_32
    decreases n
  {
    if n == 0 then Ok(FileTable([], at))
    else
      match RecordAt(f, at)
      case Throws => Throws
      case Ok(first) =>
        if !Fits(first, fs) then Throws else Prefixed([first], Records(f, After(at, first), n - 1, fs))
  }

  predicate DistinctNames(rs: seq<Record>) { forall i, j :: 0 <= i < j < |rs| ==> rs[i].name != rs[j].name }

  /** The expanded ranges of the records that lie in folder `k`, in table order. */
  function RangesIn(rs: seq<Record>, k: nat): seq<Range>
  {
    if rs == [] then []
    else
      (if rs[0].folder == k then [Range(rs[0].offset, rs[0].offset + rs[0].size)] else []) + RangesIn(rs[1..], k)
  }

  function Extents(fs: seq<Folder>): (rs: seq<Range>)
    ensures |rs| == |fs| && forall i :: 0 <= i < |fs| ==> rs[i] == Range(fs[i].start, fs[i].end)
  {
    seq(|fs|, i requires 0 <= i < |fs| => Range(fs[i].start, fs[i].end))
  }

  // ----- acceptance

  datatype Layout = Layout(header: Header, folders: seq<Folder>, table: FileTable)

  /** The header and both tables of a cabinet, each record checked on its own. */
  function LayoutOf(f: Bytes): (r: Outcome<Layout>)
    ensures r.Ok? ==> r.value.table.end <= |f| && r.value.header.table <= r.value.table.end
    ensures r.Ok? ==> forall d :: d in r.value.folders ==> d.start <= d.end <= |f|
  {
    var h :- ReadHeader(f);
    var folders :- Folders(f, h.pos, h.folders, h);
    if h.table < TablesEnd(h.pos, h.folders, h.folderReserve) || h.table > |f| then Throws
    else
      var table :- Records(f, h.table, h.files, folders);
      Ok(Layout(h, folders, table))
  }

  /** Members do not overlap in their folder, nor folders in the file, nor data and metadata. */
  ghost predicate NothingOverlaps(fs: seq<Folder>, table: FileTable)
  {
    && (forall k :: 0 <= k < |fs| ==> Disjoint(RangesIn(table.records, k)))
    && (forall d :: d in fs ==> table.end <= d.start)
    && Disjoint(Extents(fs))
  }

  /** What the fields must satisfy together, with the budgets left by earlier cabinets. */
  ghost predicate Acceptable(c: Layout, total: nat, count: nat)
  {
    && |c.table.records| <= MEMBER_LIMIT - count
    && DistinctNames(c.table.records)
    && Expanded(c.folders) <= EXPANSION_LIMIT - total
    && NothingOverlaps(c.folders, c.table)
  }

  function MemberOf(r: Record, path: nat): Member { Member(r.name, r.size, r.date, r.time, r.attributes, path) }

  function Members(rs: seq<Record>, count: nat): (ms: seq<Member>)
    ensures |ms| == |rs| && forall i :: 0 <= i < |rs| ==> ms[i] == MemberOf(rs[i], count + i)
  {
    seq(|rs|, i requires 0 <= i < |rs| => MemberOf(rs[i], count + i))
  }

  function TotalMembers(ms: seq<Member>): nat { if ms == [] then 0 else ms[0].size + TotalMembers(ms[1..]) }

  // ----- the pieces do not overlap

  function HeaderRange(c: Layout): Range { Range(0, TablesEnd(c.header.pos, c.header.folders, c.header.folderReserve)) }
  function TableRange(c: Layout): Range { Range(c.header.table, c.table.end) }

  /**
   * In an accepted cabinet the header with its folder records, the file table and the data of
   * every folder lie inside the file, and no two of them overlap.
   */
  lemma AcceptedDoesNotOverlap(f: Bytes, total: nat, count: nat)
    requires LayoutOf(f).Ok? && Acceptable(LayoutOf(f).value, total, count)
    ensures var c := LayoutOf(f).value;
            && Apart(HeaderRange(c), TableRange(c)) && TableRange(c).end <= |f|
            && (forall i :: 0 <= i < |c.folders| ==>
                  && Apart(HeaderRange(c), Extents(c.folders)[i]) && Apart(TableRange(c), Extents(c.folders)[i])
                  && Extents(c.folders)[i].end <= |f|)
            && (forall i, j :: 0 <= i < j < |c.folders| ==> Apart(Extents(c.folders)[i], Extents(c.folders)[j]))
  {
    hide Folders, Records, ReadHeader, Disjoint, TablesEnd, RangesIn, DistinctNames;
    var c := LayoutOf(f).value;
    forall i | 0 <= i < |c.folders|
      ensures Apart(HeaderRange(c), Extents(c.folders)[i]) && Apart(TableRange(c), Extents(c.folders)[i])
      ensures Extents(c.folders)[i].end <= |f|
    {
      assert c.folders[i] in c.folders;
    }
    forall i, j | 0 <= i < j < |c.folders| ensures Apart(Extents(c.folders)[i], Extents(c.folders)[j]) {
      DisjointAt(Extents(c.folders), i, j);
    }
  }

  // ----- member sizes fit in the expanded size

  lemma {:induction false} RangesInAre(rs: seq<Record>, k: nat, r: Range)
    requires r in RangesIn(rs, k)
    ensures exists x :: x in rs && x.folder == k && r == Range(x.offset, x.offset + x.size)
  {
    if rs[0].folder == k && r == Range(rs[0].offset, rs[0].offset + rs[0].size) {
    } else {
      RangesInAre(rs[1..], k, r);
      var x :| x in rs[1..] && x.folder == k && r == Range(x.offset, x.offset + x.size);
      assert x in rs;
    }
  }

  function RecordSizes(rs: seq<Record>): nat { if rs == [] then 0 else rs[0].size + RecordSizes(rs[1..]) }

  /** The sizes of the records in the first `n` folders. */
  function SizesBelow(rs: seq<Record>, n: nat): nat
  {
    if n == 0 then 0 else SizesBelow(rs, n - 1) + TotalSize(RangesIn(rs, n - 1))
  }

  lemma {:induction false} SizesBelowStep(rs: seq<Record>, n: nat)
    requires rs != []
    ensures SizesBelow(rs, n) == SizesBelow(rs[1..], n) + if rs[0].folder < n then rs[0].size else 0
  {
    if n > 0 {
      SizesBelowStep(rs, n - 1);
      var first, rest := Range(rs[0].offset, rs[0].offset + rs[0].size), RangesIn(rs[1..], n - 1);
      if rs[0].folder == n - 1 {
        assert ([first] + rest)[1..] == rest;
      } else {
        assert RangesIn(rs, n - 1) == rest;
      }
    }
  }

  lemma {:induction false} SizesAddUp(rs: seq<Record>, n: nat)
    requires forall x :: x in rs ==> x.folder < n
    ensures SizesBelow(rs, n) == RecordSizes(rs)
  {
    if rs == [] {
      NoSizes(n);
    } else {
      SizesBelowStep(rs, n);
      SizesAddUp(rs[1..], n);
    }
  }

  lemma {:induction false} NoSizes(n: nat)
    ensures SizesBelow([], n) == 0
  {
    if n > 0 { NoSizes(n - 1); }
  }

  lemma {:induction false} ExpandedSnoc(fs: seq<Folder>)
    requires fs != []
    ensures Expanded(fs) == Expanded(fs[..|fs| - 1]) + fs[|fs| - 1].expanded
  {
    if |fs| > 1 {
      ExpandedSnoc(fs[1..]);
      assert fs[..|fs| - 1][1..] == fs[1..][..|fs| - 2];
    }
  }

  lemma {:induction false} FolderSizesFit(rs: seq<Record>, fs: seq<Folder>, k: nat)
    requires k < |fs| && Disjoint(RangesIn(rs, k)) && forall x :: x in rs ==> Fits(x, fs)
    ensures TotalSize(RangesIn(rs, k)) <= fs[k].expanded
  {
    hide SafeName, Disjoint, RangesIn;
    var ranges := RangesIn(rs, k);
    forall r | r in ranges ensures r.Valid() && r.end <= fs[k].expanded {
      RangesInAre(rs, k, r);
      var x :| x in rs && x.folder == k && r == Range(x.offset, x.offset + x.size);
      assert Fits(x, fs);
    }
    DisjointFit(ranges, fs[k].expanded);
  }

  lemma {:induction false} SizesFit(rs: seq<Record>, fs: seq<Folder>, n: nat)
    requires n <= |fs| && forall x :: x in rs ==> Fits(x, fs)
    requires forall k :: 0 <= k < |fs| ==> Disjoint(RangesIn(rs, k))
    ensures SizesBelow(rs, n) <= Expanded(fs[..n])
  {
    hide Fits, Disjoint, RangesIn;
    if n > 0 {
      SizesFit(rs, fs, n - 1);
      FolderSizesFit(rs, fs, n - 1);
      ExpandedSnoc(fs[..n]);
      assert fs[..n][..n - 1] == fs[..n - 1];
    }
  }

  lemma {:induction false} MemberSizes(rs: seq<Record>, count: nat)
    ensures TotalMembers(Members(rs, count)) == RecordSizes(rs)
  {
    if rs != [] {
      assert Members(rs, count)[1..] == Members(rs[1..], count + 1);
      MemberSizes(rs[1..], count + 1);
    }
  }

  /** The members of an accepted cabinet together take no more than its folders expand to. */
  lemma MembersFitExpanded(f: Bytes, total: nat, count: nat)
    requires LayoutOf(f).Ok? && Acceptable(LayoutOf(f).value, total, count)
    ensures TotalMembers(Members(LayoutOf(f).value.table.records, count)) <= Expanded(LayoutOf(f).value.folders)
  {
    hide Fits, Disjoint, RangesIn, LayoutOf, SizesBelow;
    var c := LayoutOf(f).value;
    var rs, fs := c.table.records, c.folders;
    forall x | x in rs ensures Fits(x, fs) && x.folder < |fs| { RecordsFit(f, x); }
    MemberSizes(rs, count);
    SizesAddUp(rs, |fs|);
    SizesFit(rs, fs, |fs|);
    assert fs[..|fs|] == fs;
  }

  lemma RecordsFit(f: Bytes, x: Record)
    requires LayoutOf(f).Ok? && x in LayoutOf(f).value.table.records
    ensures Fits(x, LayoutOf(f).value.folders) && x.size < TWO_32 && x.folder < |LayoutOf(f).value.folders|
  {
  }
}
