/**
 * Cabinets printed field by field from sections 2.1 to 2.4 of [MS-CAB], and what the inspection of
 * src/msi_recursive.cpp reads back from them.
 */
module CabinetPrint {
  import opened Wire
  import opened Print
  import opened Ranges
  import opened Cabinet
  import opened CabinetMetadata

  // ----- CFDATA

  type Bytes4 = b: Bytes | |b| == 4 witness [0, 0, 0, 0]
  type ShortBytes = b: Bytes | |b| < 0x1_0000
  type u32 = x: int | 0 <= x < TWO_32

  datatype DataBlock = DataBlock(checksum: Bytes4, expanded: u16, reserve: Bytes, packed: ShortBytes)

  function PrintBlock(b: DataBlock): Bytes
  {
    b.checksum + (U16(|b.packed|) + (U16(b.expanded) + (b.reserve + b.packed)))
  }

  /** A block that is not split over cabinets. */
  predicate IsWhole(b: DataBlock) { 1 <= b.expanded <= 0x8000 && b.packed != [] }

  function PrintBlocks(bs: seq<DataBlock>): Bytes
  {
    if bs == [] then [] else PrintBlock(bs[0]) + PrintBlocks(bs[1..])
  }

  /** Every block has a reserved area of this size. */
  predicate Reserve(bs: seq<DataBlock>, size: nat) { forall b :: b in bs ==> |b.reserve| == size }

  predicate AreWhole(bs: seq<DataBlock>) { forall b :: b in bs ==> IsWhole(b) }

  function ExpandedSize(bs: seq<DataBlock>): nat
  {
    if bs == [] then 0 else bs[0].expanded as int + ExpandedSize(bs[1..])
  }

  lemma BlockReads(f: Bytes, at: nat, b: DataBlock, reserve: nat)
    requires |b.reserve| == reserve && Holds(f, at, PrintBlock(b))
    ensures |f| - at >= 8 + reserve + |b.packed| == |PrintBlock(b)|
    ensures Le16(f, at + 4) == |b.packed| && Le16(f, at + 6) == b.expanded
  {
    hide U16, Holds, Le16;
    var last := b.reserve + b.packed;
    HoldsParts(f, at, b.checksum, U16(|b.packed|) + (U16(b.expanded) + last));
    HoldsParts(f, at + 4, U16(|b.packed|), U16(b.expanded) + last);
    HoldsParts(f, at + 6, U16(b.expanded), last);
    Reads16(f, at + 4, |b.packed|);
    Reads16(f, at + 6, b.expanded);
    HoldsFits(f, at, PrintBlock(b));
  }

  lemma BlockSteps(f: Bytes, at: nat, b: DataBlock, n: nat, expanded: nat, reserve: nat)
    requires |b.reserve| == reserve && Holds(f, at, PrintBlock(b)) && n > 0
    ensures at + |PrintBlock(b)| <= |f|
    ensures Blocks(f, at, expanded, n, reserve) ==
            if IsWhole(b) then Blocks(f, at + |PrintBlock(b)|, expanded + b.expanded, n - 1, reserve) else Throws
  {
    hide Holds, PrintBlock, Le16;
    BlockReads(f, at, b, reserve);
  }

  /** The walk ends after the last printed block, with the sum of the expanded sizes; a split block is refused. */
  lemma {:induction false} BlocksRead(f: Bytes, at: nat, bs: seq<DataBlock>, expanded: nat, reserve: nat)
    requires at <= |f| && Reserve(bs, reserve) && Holds(f, at, PrintBlocks(bs))
    ensures Blocks(f, at, expanded, |bs|, reserve) ==
            if AreWhole(bs) then Ok((at + |PrintBlocks(bs)|, expanded + ExpandedSize(bs))) else Throws
    decreases |bs|
  {
    hide Holds, PrintBlock, IsWhole, AreWhole, Reserve;
    BlocksSplit(bs, reserve);
    if bs != [] {
      hide Blocks;
      var b, rest := bs[0], bs[1..];
      HoldsParts(f, at, PrintBlock(b), PrintBlocks(rest));
      BlockSteps(f, at, b, |bs|, expanded, reserve);
      BlocksRead(f, at + |PrintBlock(b)|, rest, expanded + b.expanded, reserve);
    }
  }

  lemma BlocksSplit(bs: seq<DataBlock>, reserve: nat)
    ensures bs == [] ==> AreWhole(bs)
    ensures bs != [] ==> (AreWhole(bs) <==> IsWhole(bs[0]) && AreWhole(bs[1..]))
    ensures bs != [] && Reserve(bs, reserve) ==> |bs[0].reserve| == reserve && Reserve(bs[1..], reserve)
  {
    hide IsWhole;
    if bs != [] { assert bs == [bs[0]] + bs[1..]; }
  }

  // ----- CFFOLDER

  type BlockList = bs: seq<DataBlock> | |bs| < 0x1_0000

  datatype CabFolder = CabFolder(start: u32, compression: u16, reserve: Bytes, blocks: BlockList)

  function PrintFolder(d: CabFolder): Bytes
  {
    U32(d.start) + (U16(|d.blocks|) + (U16(d.compression) + d.reserve))
  }

  /** Stored, MSZIP or LZX; Quantum is not supported. */
  predicate IsSupported(d: CabFolder)
  {
    var kind := d.compression % 0x10;
    (kind == 0 || kind == 1 || kind == 3) && AreWhole(d.blocks)
  }

  function FolderOf(d: CabFolder): Folder
  {
    Folder(d.start, d.start + |PrintBlocks(d.blocks)|, ExpandedSize(d.blocks))
  }

  /** The reserved areas have their sizes, and the file holds the data where the folder record says. */
  ghost predicate IsStored(f: Bytes, d: CabFolder, folderReserve: nat, dataReserve: nat)
  {
    |d.reserve| == folderReserve && Reserve(d.blocks, dataReserve) && Holds(f, d.start, PrintBlocks(d.blocks))
  }

  lemma FolderReads(f: Bytes, pos: nat, d: CabFolder, folderReserve: nat, dataReserve: nat)
    requires IsStored(f, d, folderReserve, dataReserve) && Holds(f, pos, PrintFolder(d))
    ensures pos + 8 + folderReserve <= |f| && |PrintFolder(d)| == 8 + folderReserve
    ensures FolderAt(f, pos, dataReserve) == if IsSupported(d) then Ok(FolderOf(d)) else Throws
  {
    hide Holds, U16, U32, Le16, Le32, PrintBlock;
    var tail := U16(d.compression) + d.reserve;
    HoldsParts(f, pos, U32(d.start), U16(|d.blocks|) + tail);
    HoldsParts(f, pos + 4, U16(|d.blocks|), tail);
    HoldsParts(f, pos + 6, U16(d.compression), d.reserve);
    HoldsFits(f, pos, PrintFolder(d));
    HoldsFits(f, d.start, PrintBlocks(d.blocks));
    Reads32(f, pos, d.start);
    Reads16(f, pos + 4, |d.blocks|);
    Reads16(f, pos + 6, d.compression);
    BlocksRead(f, d.start, d.blocks, 0, dataReserve);
  }

  function PrintFolders(ds: seq<CabFolder>): Bytes
  {
    if ds == [] then [] else PrintFolder(ds[0]) + PrintFolders(ds[1..])
  }

  ghost predicate AreStored(f: Bytes, ds: seq<CabFolder>, folderReserve: nat, dataReserve: nat)
  {
    forall d :: d in ds ==> IsStored(f, d, folderReserve, dataReserve)
  }

  predicate AreSupported(ds: seq<CabFolder>) { forall d :: d in ds ==> IsSupported(d) }

  function FoldersOf(ds: seq<CabFolder>): (r: seq<Folder>)
    ensures |r| == |ds|
  {
    if ds == [] then [] else [FolderOf(ds[0])] + FoldersOf(ds[1..])
  }

  lemma {:induction false} FoldersRead(f: Bytes, pos: nat, ds: seq<CabFolder>, h: Header)
    requires AreStored(f, ds, h.folderReserve, h.dataReserve) && Holds(f, pos, PrintFolders(ds)) && pos <= |f|
    ensures |PrintFolders(ds)| == |ds| * (8 + h.folderReserve) && TablesEnd(pos, |ds|, h.folderReserve) <= |f|
    ensures Folders(f, pos, |ds|, h) == if AreSupported(ds) then Ok(FoldersOf(ds)) else Throws
    decreases |ds|
  {
    hide Holds, PrintFolder, PrintBlocks, IsSupported, FolderAt, FolderOf, IsStored;
    HoldsFits(f, pos, PrintFolders(ds));
    if ds != [] {
      var d := ds[0];
      assert ds == [d] + ds[1..];
      HoldsParts(f, pos, PrintFolder(d), PrintFolders(ds[1..]));
      FolderReads(f, pos, d, h.folderReserve, h.dataReserve);
      HoldsFits(f, pos, PrintFolder(d));
      FoldersRead(f, pos + 8 + h.folderReserve, ds[1..], h);
      Multiples(|ds|, 8 + h.folderReserve);
    }
  }

  lemma Multiples(n: nat, k: nat)
    requires n > 0
    ensures n * k == (n - 1) * k + k
  {
  }

  // ----- CFHEADER

  type Bytes2 = b: Bytes | |b| == 2 witness [0, 0]

  /** The optional reserve fields: their sizes, and the reserved area of the header itself. */
  datatype Reserves = Reserves(header: ShortBytes, folder: byte, data: byte)

  datatype CabHeader = CabHeader(reserved1: Bytes4, size: u32, reserved2: Bytes4, table: u32, reserved3: Bytes4,
                                 version: Bytes2, folders: u16, files: u16, previous: bool, next: bool, unknown: u13,
                                 setId: Bytes2, index: Bytes2, reserves: Option<Reserves>)

  type u13 = x: int | 0 <= x < 0x2000

  /** The flag word: a cabinet before this one, one after it, reserve fields, and bits without a meaning. */
  function Flags(h: CabHeader): u16
  {
    (if h.previous then 1 else 0) + (if h.next then 2 else 0) + (if h.reserves.Some? then 4 else 0) + 8 * h.unknown
  }

  function PrintReserves(r: Option<Reserves>): Bytes
  {
    match r
    case None => []
    case Some(v) => U16(|v.header|) + ([v.folder, v.data] + v.header)
  }

  function Counts(h: CabHeader): Bytes
  {
    U16(h.folders) + (U16(h.files) + (U16(Flags(h)) + (h.setId + (h.index + PrintReserves(h.reserves)))))
  }

  function PrintHeader(h: CabHeader): Bytes
  {
    [0x4d, 0x53, 0x43, 0x46] + (h.reserved1 + (U32(h.size) + (h.reserved2 + (U32(h.table) + (h.reserved3
      + (h.version + Counts(h)))))))
  }

  function HeaderOf(h: CabHeader): Header
  {
    var folder := if h.reserves.Some? then h.reserves.value.folder else 0;
    var data := if h.reserves.Some? then h.reserves.value.data else 0;
    Header(|PrintHeader(h)|, folder, data, h.folders, h.files, h.table)
  }

  /** Of at most 1 GiB, of the stated size, neither split nor with unknown flags, and its folder records in the file. */
  predicate IsWholeHeader(f: Bytes, h: CabHeader)
  {
    && |f| <= 0x4000_0000 && h.size == |f| && !h.previous && !h.next && h.unknown == 0
    && |PrintHeader(h)| + h.folders * (8 + HeaderOf(h).folderReserve) <= |f|
  }

  lemma HeaderFields(f: Bytes, h: CabHeader)
    requires Holds(f, 0, PrintHeader(h))
    ensures 36 <= |f| && f[..4] == [0x4d, 0x53, 0x43, 0x46] && Le32(f, 8) == h.size && Le32(f, 16) == h.table
    ensures Holds(f, 26, Counts(h)) && |PrintHeader(h)| == 26 + |Counts(h)|
  {
    hide Holds, U32, Le32, Counts;
    var magic: Bytes := [0x4d, 0x53, 0x43, 0x46];
    var g := h.version + Counts(h);
    var e := h.reserved2 + (U32(h.table) + (h.reserved3 + g));
    HoldsParts(f, 0, magic, h.reserved1 + (U32(h.size) + e));
    HoldsParts(f, 4, h.reserved1, U32(h.size) + e);
    HoldsParts(f, 8, U32(h.size), e);
    HoldsParts(f, 12, h.reserved2, U32(h.table) + (h.reserved3 + g));
    HoldsParts(f, 16, U32(h.table), h.reserved3 + g);
    HoldsParts(f, 20, h.reserved3, g);
    HoldsParts(f, 24, h.version, Counts(h));
    Reads32(f, 8, h.size);
    Reads32(f, 16, h.table);
    MagicIsRead(f, magic);
    CountFields(f, h);
  }

  lemma MagicIsRead(f: Bytes, magic: Bytes)
    requires |magic| == 4 && Holds(f, 0, magic)
    ensures |f| >= 4 && f[..4] == magic
  {
  }

  lemma CountFields(f: Bytes, h: CabHeader)
    requires Holds(f, 26, Counts(h))
    ensures |f| >= 36 && |Counts(h)| == 10 + |PrintReserves(h.reserves)| && Holds(f, 36, PrintReserves(h.reserves))
    ensures Le16(f, 26) == h.folders && Le16(f, 28) == h.files && Le16(f, 30) == Flags(h)
  {
    hide Holds, U16, Le16, PrintReserves, Flags;
    var d := h.index + PrintReserves(h.reserves);
    var c := U16(Flags(h)) + (h.setId + d);
    HoldsParts(f, 26, U16(h.folders), U16(h.files) + c);
    HoldsParts(f, 28, U16(h.files), c);
    HoldsParts(f, 30, U16(Flags(h)), h.setId + d);
    HoldsParts(f, 32, h.setId, d);
    HoldsParts(f, 34, h.index, PrintReserves(h.reserves));
    HoldsFits(f, 36, PrintReserves(h.reserves));
    Reads16(f, 26, h.folders);
    Reads16(f, 28, h.files);
    Reads16(f, 30, Flags(h));
  }

  lemma ReserveFields(f: Bytes, v: Reserves)
    requires Holds(f, 36, PrintReserves(Some(v)))
    ensures |f| >= 40 && Le16(f, 36) == |v.header| && f[38] == v.folder && f[39] == v.data
    ensures |PrintReserves(Some(v))| == 4 + |v.header|
  {
    hide Holds, U16, Le16;
    HoldsParts(f, 36, U16(|v.header|), [v.folder, v.data] + v.header);
    HoldsParts(f, 38, [v.folder, v.data], v.header);
    HoldsFits(f, 38, [v.folder, v.data]);
    HoldsAt(f, 38, [v.folder, v.data], 0);
    HoldsAt(f, 38, [v.folder, v.data], 1);
    Reads16(f, 36, |v.header|);
  }

  lemma FlagBits(h: CabHeader)
    ensures Flags(h) % 4 == 0 <==> !h.previous && !h.next
    ensures Flags(h) / 8 == 0 <==> h.unknown == 0
    ensures Flags(h) / 4 % 2 == 1 <==> h.reserves.Some?
  {
  }

  /** The header reads back, and one that is split, of another size or with unknown flags is refused. */
  lemma HeaderReads(f: Bytes, h: CabHeader)
    requires Holds(f, 0, PrintHeader(h))
    ensures ReadHeader(f) == if IsWholeHeader(f, h) then Ok(HeaderOf(h)) else Throws
  {
    hide Holds, PrintHeader, Counts, Flags, Le16, Le32, TablesEnd, PrintReserves;
    HeaderFields(f, h);
    CountFields(f, h);
    FlagBits(h);
    TablesAre(|PrintHeader(h)|, h.folders, HeaderOf(h).folderReserve);
    if h.reserves.Some? {
      ReserveFields(f, h.reserves.value);
    } else {
      NoReserves();
    }
  }

  lemma TablesAre(pos: nat, n: nat, reserve: nat)
    ensures TablesEnd(pos, n, reserve) == pos + n * (8 + reserve)
  {
  }

  lemma NoReserves()
    ensures PrintReserves(None) == []
  {
  }

  // ----- CFFILE

  type Name = b: Bytes | 0 !in b

  datatype CabFile = CabFile(name: Name, size: u32, offset: u32, folder: u16, date: u16, time: u16, attributes: u16)

  function PrintFile(r: CabFile): Bytes
  {
    U32(r.size) + (U32(r.offset) + (U16(r.folder) + (U16(r.date) + (U16(r.time)
      + (U16(r.attributes) + (r.name + [0]))))))
  }

  function RecordOf(r: CabFile): Record { Record(r.name, r.size, r.offset, r.folder, r.date, r.time, r.attributes) }

  lemma {:induction false} NameReads(f: Bytes, at: nat, name: Bytes, taken: nat)
    requires 0 !in name && Holds(f, at, name + [0]) && taken <= |name|
    ensures NameLength(f, at, taken) == if |name| <= 255 then Ok(|name|) else Throws
    decreases |name| - taken
  {
    HoldsFits(f, at, name + [0]);
    HoldsAt(f, at, name + [0], taken);
    if taken < |name| {
      assert name[taken] in name;
      NameReads(f, at, name, taken + 1);
    }
  }

  lemma FileFields(f: Bytes, at: nat, r: CabFile)
    requires Holds(f, at, PrintFile(r))
    ensures at + 17 <= |f| && |PrintFile(r)| == 17 + |r.name| && Holds(f, at + 16, r.name + [0])
    ensures Le32(f, at) == r.size && Le32(f, at + 4) == r.offset && Le16(f, at + 8) == r.folder
    ensures Le16(f, at + 10) == r.date && Le16(f, at + 12) == r.time && Le16(f, at + 14) == r.attributes
  {
    hide Holds, U16, U32, Le16, Le32;
    var g := r.name + [0];
    var e := U16(r.time) + (U16(r.attributes) + g);
    HoldsParts(f, at, U32(r.size), U32(r.offset) + (U16(r.folder) + (U16(r.date) + e)));
    HoldsParts(f, at + 4, U32(r.offset), U16(r.folder) + (U16(r.date) + e));
    HoldsParts(f, at + 8, U16(r.folder), U16(r.date) + e);
    HoldsParts(f, at + 10, U16(r.date), e);
    HoldsParts(f, at + 12, U16(r.time), U16(r.attributes) + g);
    HoldsParts(f, at + 14, U16(r.attributes), g);
    HoldsFits(f, at + 16, g);
    Reads32(f, at, r.size);
    Reads32(f, at + 4, r.offset);
    Reads16(f, at + 8, r.folder);
    Reads16(f, at + 10, r.date);
    Reads16(f, at + 12, r.time);
    Reads16(f, at + 14, r.attributes);
  }

  /** A record reads back, unless its name is longer than 255 bytes. */
  lemma FileReads(f: Bytes, at: nat, r: CabFile)
    requires Holds(f, at, PrintFile(r))
    ensures at + |PrintFile(r)| <= |f| && |PrintFile(r)| == 17 + |r.name|
    ensures RecordAt(f, at) == if |r.name| <= 255 then Ok(RecordOf(r)) else Throws
  {
    hide Holds, PrintFile, Le16, Le32, NameLength;
    FileFields(f, at, r);
    HoldsFits(f, at, PrintFile(r));
    NameReads(f, at + 16, r.name, 0);
    if |r.name| <= 255 {
      HoldsParts(f, at + 16, r.name, [0]);
      NameIs(f, at + 16, r.name);
    }
  }

  lemma NameIs(f: Bytes, at: nat, name: Bytes)
    requires Holds(f, at, name)
    ensures at + |name| <= |f| && f[at..at + |name|] == name
  {
  }

  function PrintFiles(rs: seq<CabFile>): Bytes { if rs == [] then [] else PrintFile(rs[0]) + PrintFiles(rs[1..]) }

  function RecordsOf(rs: seq<CabFile>): (r: seq<Record>)
    ensures |r| == |rs| && forall i :: 0 <= i < |rs| ==> r[i] == RecordOf(rs[i])
  {
    seq(|rs|, i requires 0 <= i < |rs| => RecordOf(rs[i]))
  }

  predicate AreNamed(rs: seq<CabFile>) { forall r :: r in rs ==> |r.name| <= 255 }

  /** The file is in a folder of the cabinet, within its data, under a safe name of at most 255 bytes. */
  predicate IsPlaced(r: CabFile, fs: seq<Folder>)
  {
    |r.name| <= 255 && r.folder < |fs| && r.offset + r.size <= fs[r.folder].expanded && SafeName(r.name)
  }

  predicate ArePlaced(rs: seq<CabFile>, fs: seq<Folder>) { forall r :: r in rs ==> IsPlaced(r, fs) }

  lemma FilesSplit(rs: seq<CabFile>, fs: seq<Folder>)
    ensures rs == [] ==> AreNamed(rs) && ArePlaced(rs, fs) && RecordsOf(rs) == []
    ensures rs != [] ==> (AreNamed(rs) <==> |rs[0].name| <= 255 && AreNamed(rs[1..]))
    ensures rs != [] ==> (ArePlaced(rs, fs) <==> IsPlaced(rs[0], fs) && ArePlaced(rs[1..], fs))
    ensures rs != [] ==> RecordsOf(rs) == [RecordOf(rs[0])] + RecordsOf(rs[1..])
  {
    if rs != [] {
      hide IsPlaced, RecordsOf;
      InSplit(rs);
      RecordsSplit(rs);
    }
  }

  lemma InSplit<T>(s: seq<T>)
    requires s != []
    ensures forall x :: x in s <==> x == s[0] || x in s[1..]
  {
    assert s == [s[0]] + s[1..];
  }

  lemma RecordsSplit(rs: seq<CabFile>)
    requires rs != []
    ensures RecordsOf(rs) == [RecordOf(rs[0])] + RecordsOf(rs[1..])
  {
  }

  lemma {:induction false} RawFilesRead(f: Bytes, at: nat, rs: seq<CabFile>)
    requires Holds(f, at, PrintFiles(rs))
    ensures RawRecords(f, at, |rs|) == if AreNamed(rs) then Ok(RecordsOf(rs)) else Throws
    decreases |rs|
  {
    hide Holds, PrintFile, RecordAt, RecordsOf, AreNamed;
    FilesSplit(rs, []);
    if rs != [] {
      HoldsParts(f, at, PrintFile(rs[0]), PrintFiles(rs[1..]));
      FileReads(f, at, rs[0]);
      RawFilesRead(f, at + |PrintFile(rs[0])|, rs[1..]);
    }
  }

  lemma {:induction false} FilesRead(f: Bytes, at: nat, rs: seq<CabFile>, fs: seq<Folder>)
    requires Holds(f, at, PrintFiles(rs)) && at <= |f|
    ensures Records(f, at, |rs|, fs) ==
            if ArePlaced(rs, fs) then Ok(FileTable(RecordsOf(rs), at + |PrintFiles(rs)|)) else Throws
    decreases |rs|
  {
    hide Holds, PrintFile, RecordAt, RecordsOf, ArePlaced, SafeName;
    FilesSplit(rs, fs);
    if rs != [] {
      HoldsParts(f, at, PrintFile(rs[0]), PrintFiles(rs[1..]));
      FileReads(f, at, rs[0]);
      FilesRead(f, at + |PrintFile(rs[0])|, rs[1..], fs);
    }
  }

  // ----- the whole cabinet

  /** The file holds the header, after it the folder records, the folders' data, and the file records. */
  ghost predicate IsCabinet(f: Bytes, h: CabHeader, ds: seq<CabFolder>, rs: seq<CabFile>)
  {
    && |ds| == h.folders && |rs| == h.files
    && Holds(f, 0, PrintHeader(h)) && Holds(f, |PrintHeader(h)|, PrintFolders(ds)) && Holds(f, h.table, PrintFiles(rs))
    && AreStored(f, ds, HeaderOf(h).folderReserve, HeaderOf(h).dataReserve)
  }

  /** Nothing in it is split or unsupported, and the file table lies behind the folder records. */
  predicate IsReadable(f: Bytes, h: CabHeader, ds: seq<CabFolder>, rs: seq<CabFile>)
  {
    && IsWholeHeader(f, h) && AreSupported(ds)
    && |PrintHeader(h)| + |PrintFolders(ds)| <= h.table && ArePlaced(rs, FoldersOf(ds))
  }

  /** The inspection reads back every field of a printed cabinet, and refuses exactly the unreadable ones. */
  lemma {:induction false} CabinetReads(f: Bytes, h: CabHeader, ds: seq<CabFolder>, rs: seq<CabFile>)
    requires IsCabinet(f, h, ds, rs)
    ensures LayoutOf(f) ==
            if IsReadable(f, h, ds, rs)
            then Ok(Layout(HeaderOf(h), FoldersOf(ds), FileTable(RecordsOf(rs), h.table + |PrintFiles(rs)|)))
            else Throws
  {
    hide Holds, PrintHeader, PrintFolders, PrintFiles, AreStored, ReadHeader, Folders, Records, ArePlaced,
         AreSupported, RecordsOf, FoldersOf;
    HeaderReads(f, h);
    HoldsFits(f, |PrintHeader(h)|, PrintFolders(ds));
    FoldersRead(f, |PrintHeader(h)|, ds, HeaderOf(h));
    HoldsFits(f, h.table, PrintFiles(rs));
    FilesRead(f, h.table, rs, FoldersOf(ds));
  }

  // ----- what the restoration compares

  predicate FitsMember(x: Record, m: Member, size: nat) { x.name == m.name && x.size == size }

  /** The records name the members, in order, with these sizes. */
  predicate Lists(xs: seq<Record>, ms: seq<Member>, sizes: seq<nat>)
    requires |sizes| == |ms|
  {
    |xs| == |ms| && forall k :: 0 <= k < |ms| ==> FitsMember(xs[k], ms[k], sizes[k])
  }

  lemma ListsSplit(first: Record, rest: seq<Record>, ms: seq<Member>, sizes: seq<nat>)
    requires |sizes| == |ms| > 0
    ensures Lists([first] + rest, ms, sizes) <==> FitsMember(first, ms[0], sizes[0]) && Lists(rest, ms[1..], sizes[1..])
  {
    hide FitsMember;
    var all := [first] + rest;
    if Lists(all, ms, sizes) {
      forall k | 0 <= k < |ms| - 1 ensures FitsMember(rest[k], ms[1..][k], sizes[1..][k]) {
        assert FitsMember(all[k + 1], ms[k + 1], sizes[k + 1]);
      }
    }
    if FitsMember(first, ms[0], sizes[0]) && Lists(rest, ms[1..], sizes[1..]) {
      forall k | 0 <= k < |ms| ensures FitsMember(all[k], ms[k], sizes[k]) {
        if k > 0 { assert FitsMember(rest[k - 1], ms[1..][k - 1], sizes[1..][k - 1]); }
      }
    }
  }

  /** The restoration goes on exactly when a plain walk of the table finds the names and sizes in order. */
  lemma {:induction false} MatchesIffListed(f: Bytes, at: nat, ms: seq<Member>, sizes: seq<nat>)
    requires |sizes| == |ms|
    ensures Matches(f, at, ms, sizes) <==>
            RawRecords(f, at, |ms|).Ok? && Lists(RawRecords(f, at, |ms|).value, ms, sizes)
    decreases |ms|
  {
    hide RecordAt, Lists;
    if ms == [] {
      NothingListed(sizes);
    } else if RecordAt(f, at).Ok? {
      var first := RecordAt(f, at).value;
      MatchesIffListed(f, Next(at, ms[0]), ms[1..], sizes[1..]);
      var rest := RawRecords(f, After(at, first), |ms| - 1);
      if rest.Ok? { ListsSplit(first, rest.value, ms, sizes); }
    }
  }

  lemma NothingListed(sizes: seq<nat>)
    requires sizes == []
    ensures Lists([], [], sizes)
  {
  }

  // ----- acceptance, in plain words

  /** A file takes this part of its folder's data. */
  function RangeOf(x: Record): Range { Range(x.offset, x.offset + x.size) }

  lemma {:induction false} ApartInFolder(a: Range, rs: seq<Record>, k: nat)
    ensures AllApart(a, RangesIn(rs, k)) <==> forall x :: x in rs && x.folder == k ==> Apart(a, RangeOf(x))
  {
    if rs != [] {
      ApartInFolder(a, rs[1..], k);
      assert rs == [rs[0]] + rs[1..];
      var head := if rs[0].folder == k then [RangeOf(rs[0])] else [];
      assert RangesIn(rs, k) == head + RangesIn(rs[1..], k);
      assert forall r :: r in RangesIn(rs, k) <==> r in head || r in RangesIn(rs[1..], k);
    }
  }

  /** No two files in folder `k` overlap. */
  predicate FilesApart(rs: seq<Record>, k: nat)
  {
    forall i, j :: 0 <= i < j < |rs| && rs[i].folder == k && rs[j].folder == k ==> Apart(RangeOf(rs[i]), RangeOf(rs[j]))
  }

  lemma {:induction false} DisjointInFolder(rs: seq<Record>, k: nat)
    ensures Disjoint(RangesIn(rs, k)) <==> FilesApart(rs, k)
  {
    hide Apart;
    if rs != [] {
      var x, rest := rs[0], rs[1..];
      DisjointInFolder(rest, k);
      ApartInFolder(RangeOf(x), rest, k);
      FilesApartSplit(rs, k);
      if x.folder == k {
        assert RangesIn(rs, k) == [RangeOf(x)] + RangesIn(rest, k);
        assert RangesIn(rs, k)[1..] == RangesIn(rest, k);
      } else {
        assert RangesIn(rs, k) == RangesIn(rest, k);
      }
    }
  }

  lemma FilesApartSplit(rs: seq<Record>, k: nat)
    requires rs != []
    ensures FilesApart(rs, k) <==>
            && FilesApart(rs[1..], k)
            && (rs[0].folder == k ==> forall x :: x in rs[1..] && x.folder == k ==> Apart(RangeOf(rs[0]), RangeOf(x)))
  {
    hide Apart;
    var rest := rs[1..];
    assert forall i :: 0 <= i < |rest| ==> rest[i] == rs[i + 1];
    if FilesApart(rs, k) {
      forall i, j | 0 <= i < j < |rest| && rest[i].folder == k && rest[j].folder == k
        ensures Apart(RangeOf(rest[i]), RangeOf(rest[j]))
      {
        assert Apart(RangeOf(rs[i + 1]), RangeOf(rs[j + 1]));
      }
    }
    if && FilesApart(rest, k)
       && (rs[0].folder == k ==> forall x :: x in rest && x.folder == k ==> Apart(RangeOf(rs[0]), RangeOf(x))) {
      forall i, j | 0 <= i < j < |rs| && rs[i].folder == k && rs[j].folder == k
        ensures Apart(RangeOf(rs[i]), RangeOf(rs[j]))
      {
        assert rs[j] == rest[j - 1];
        if i > 0 { assert rs[i] == rest[i - 1]; }
      }
    }
  }

  lemma {:induction false} DisjointPairs(rs: seq<Range>)
    ensures Disjoint(rs) <==> forall i, j :: 0 <= i < j < |rs| ==> Apart(rs[i], rs[j])
  {
    hide Apart;
    if rs != [] {
      var rest := rs[1..];
      DisjointPairs(rest);
      assert forall i :: 0 <= i < |rest| ==> rest[i] == rs[i + 1];
      if forall i, j :: 0 <= i < j < |rs| ==> Apart(rs[i], rs[j]) {
        forall i, j | 0 <= i < j < |rest| ensures Apart(rest[i], rest[j]) { assert Apart(rs[i + 1], rs[j + 1]); }
      }
      if Disjoint(rs) {
        forall i, j | 0 <= i < j < |rs| ensures Apart(rs[i], rs[j]) {
          assert rs[j] == rest[j - 1];
          if i > 0 { assert rs[i] == rest[i - 1]; }
        }
      }
    }
  }

  /** Folders and files lie apart, behind the file table. */
  ghost predicate LiesApart(c: Layout)
  {
    && (forall k :: 0 <= k < |c.folders| ==> FilesApart(c.table.records, k) && c.table.end <= c.folders[k].start)
    && (forall i, j :: 0 <= i < j < |c.folders| ==>
          c.folders[i].end <= c.folders[j].start || c.folders[j].end <= c.folders[i].start)
  }

  /** What is accepted: within 1 GiB and 65535 files in all, no name twice, and everything apart. */
  lemma AcceptableMeans(c: Layout, total: nat, count: nat)
    ensures Acceptable(c, total, count) <==>
            && count + |c.table.records| <= 65535 && total + Expanded(c.folders) <= 0x4000_0000
            && (forall i, j :: 0 <= i < j < |c.table.records| ==> c.table.records[i].name != c.table.records[j].name)
            && LiesApart(c)
  {
    hide RangesIn, FilesApart, Disjoint, Expanded;
    forall k | 0 <= k < |c.folders| ensures Disjoint(RangesIn(c.table.records, k)) <==> FilesApart(c.table.records, k) {
      DisjointInFolder(c.table.records, k);
    }
    DisjointPairs(Extents(c.folders));
  }

  function Ascii(s: string): Bytes
  {
    seq(|s|, i requires 0 <= i < |s| => if s[i] as int < 0x80 then s[i] as int else 0)
  }

  /** One path component: not empty, not a dot name, no separator, drive letter or control character. */
  lemma SafeNameMeans(name: Bytes)
    ensures SafeName(name) <==>
            && name != Ascii("") && name != Ascii(".") && name != Ascii("..")
            && forall c :: c in name ==> c !in Ascii("/\\:") && ' ' as int <= c != 0x7f
  {
    assert Ascii(".") == [0x2e] && Ascii("..") == [0x2e, 0x2e] && Ascii("/\\:") == [0x2f, 0x5c, 0x3a];
  }
}
