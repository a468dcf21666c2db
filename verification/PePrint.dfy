/**
 * PE images printed field by field (the PE Format's MS-DOS stub, COFF header, optional headers and attribute
 * certificate table), and what `pe_has_signature` of src/signing.cpp reads back from them.
 */
module PePrint {
  import opened Wire
  import opened Print
  import opened Cms
  import opened PeTable

  type Bytes2 = b: Bytes | |b| == 2 witness [0, 0]
  type Bytes4 = b: Bytes | |b| == 4 witness [0, 0, 0, 0]
  type u32 = x: int | 0 <= x < TWO_32

  /** A field as wide as an address: four bytes in PE32, eight in PE32+. */
  datatype Address = Address(low: Bytes4, high: Bytes4) {
    function Print(plus: bool): (b: Bytes)
      ensures |b| == if plus then 8 else 4
    {
      if plus then low + high else low
    }
  }

  datatype Directory = Directory(offset: u32, size: u32)

  datatype Standard = Standard(linker: Bytes2, code: Bytes4, data: Bytes4, bss: Bytes4, entry: Bytes4,
                               codeBase: Bytes4, dataBase: Bytes4)

  datatype Versions = Versions(osMajor: Bytes2, osMinor: Bytes2, major: Bytes2, minor: Bytes2, subMajor: Bytes2,
                               subMinor: Bytes2, win32: Bytes4)

  datatype Specific = Specific(base: Address, sections: Bytes4, files: Bytes4, versions: Versions, image: Bytes4,
                               headers: Bytes4, checksum: Bytes4, subsystem: Bytes2, dll: Bytes2, stack: Address,
                               stackCommit: Address, heap: Address, heapCommit: Address, loader: Bytes4)

  type DirectoryList = s: seq<Directory> | |s| < TWO_32

  datatype Optional = Optional(plus: bool, standard: Standard, specific: Specific, directories: DirectoryList)

  function PrintStandard(s: Standard, plus: bool): (b: Bytes)
    ensures |b| == if plus then 22 else 26
  {
    s.linker + s.code + s.data + s.bss + s.entry + s.codeBase + if plus then [] else s.dataBase
  }

  function PrintVersions(v: Versions): (b: Bytes)
    ensures |b| == 16
  {
    v.osMajor + v.osMinor + v.major + v.minor + v.subMajor + v.subMinor + v.win32
  }

  function PrintSpecific(s: Specific, plus: bool): (b: Bytes)
    ensures |b| == if plus then 84 else 64
  {
    s.base.Print(plus) + s.sections + s.files + PrintVersions(s.versions) + s.image + s.headers + s.checksum
      + s.subsystem + s.dll + s.stack.Print(plus) + s.stackCommit.Print(plus) + s.heap.Print(plus)
      + s.heapCommit.Print(plus) + s.loader
  }

  function PrintDirectory(d: Directory): (b: Bytes)
    ensures |b| == 8
  {
    U32(d.offset) + U32(d.size)
  }

  function PrintDirectories(ds: seq<Directory>): (b: Bytes)
    ensures |b| == 8 * |ds|
  {
    if ds == [] then [] else PrintDirectory(ds[0]) + PrintDirectories(ds[1..])
  }

  /** The optional header up to its directories. */
  function PrintFixed(o: Optional): Bytes
  {
    U16(if o.plus then 0x20b else 0x10b)
      + ((PrintStandard(o.standard, o.plus) + PrintSpecific(o.specific, o.plus)) + U32(|o.directories|))
  }

  function PrintOptional(o: Optional): Bytes { PrintFixed(o) + PrintDirectories(o.directories) }

  datatype Coff = Coff(machine: Bytes2, sections: Bytes2, stamp: Bytes4, symbols: Bytes4, symbolCount: Bytes4,
                       optionalSize: u16, characteristics: Bytes2)

  function CoffStart(c: Coff): (b: Bytes)
    ensures |b| == 20
  {
    [0x50, 0x45, 0, 0] + (c.machine + c.sections + c.stamp + c.symbols + c.symbolCount)
  }

  /** From the PE signature on. */
  function PrintHeaders(c: Coff, o: Optional): Bytes
  {
    CoffStart(c) + (U16(c.optionalSize) + (c.characteristics + PrintOptional(o)))
  }

  /** The MS-DOS header: its signature, 29 words, and where the PE signature is. */
  datatype Dos = Dos(words: DosWords, pe: u32)
  type DosWords = b: Bytes | |b| == 58 witness seq(58, _ => 0)

  function PrintDos(d: Dos): Bytes { [0x4d, 0x5a] + (d.words + U32(d.pe)) }

  ghost predicate IsImage(f: Bytes, d: Dos, c: Coff, o: Optional)
  {
    Holds(f, 0, PrintDos(d)) && Holds(f, d.pe, PrintHeaders(c, o))
  }

  // ----- reading the headers back

  lemma DosReads(f: Bytes, d: Dos)
    requires Holds(f, 0, PrintDos(d))
    ensures |f| >= 64 && f[0] == 0x4d && f[1] == 0x5a && Le32(f, 60) == d.pe
  {
    hide Holds, U32, Le32;
    var magic: Bytes := [0x4d, 0x5a];
    HoldsParts(f, 0, magic, d.words + U32(d.pe));
    HoldsParts(f, 2, d.words, U32(d.pe));
    HoldsFits(f, 60, U32(d.pe));
    HoldsAt(f, 0, magic, 0);
    HoldsAt(f, 0, magic, 1);
    Reads32(f, 60, d.pe);
  }

  lemma CoffReads(f: Bytes, pe: nat, c: Coff, o: Optional)
    requires Holds(f, pe, PrintHeaders(c, o))
    ensures pe + 24 <= |f| && f[pe..pe + 4] == [0x50, 0x45, 0, 0] && Le16(f, pe + 20) == c.optionalSize
    ensures Holds(f, pe + 24, PrintOptional(o))
  {
    hide Holds, U16, Le16, PrintOptional;
    var magic: Bytes := [0x50, 0x45, 0, 0];
    var rest := c.machine + c.sections + c.stamp + c.symbols + c.symbolCount;
    HoldsParts(f, pe, CoffStart(c), U16(c.optionalSize) + (c.characteristics + PrintOptional(o)));
    HoldsParts(f, pe, magic, rest);
    HoldsParts(f, pe + 20, U16(c.optionalSize), c.characteristics + PrintOptional(o));
    HoldsParts(f, pe + 22, c.characteristics, PrintOptional(o));
    HoldsFits(f, pe + 24, PrintOptional(o));
    MagicIsRead(f, pe, magic);
    Reads16(f, pe + 20, c.optionalSize);
  }

  lemma MagicIsRead(f: Bytes, at: nat, magic: Bytes)
    requires Holds(f, at, magic)
    ensures at + |magic| <= |f| && f[at..at + |magic|] == magic
  {
  }

  lemma FixedReads(f: Bytes, at: nat, o: Optional)
    requires Holds(f, at, PrintOptional(o))
    ensures |PrintFixed(o)| >= 4 && at + |PrintFixed(o)| <= |f|
    ensures Holds(f, at + |PrintFixed(o)|, PrintDirectories(o.directories))
    ensures Le16(f, at) == (if o.plus then 0x20b else 0x10b)
    ensures Le32(f, at + |PrintFixed(o)| - 4) == |o.directories|
    ensures Directories(Le16(f, at)) == |PrintFixed(o)|
  {
    hide Holds, U16, U32, Le16, Le32, PrintDirectories;
    var magic := U16(if o.plus then 0x20b else 0x10b);
    var middle := PrintStandard(o.standard, o.plus) + PrintSpecific(o.specific, o.plus);
    var count := U32(|o.directories|);
    HoldsParts(f, at, PrintFixed(o), PrintDirectories(o.directories));
    HoldsParts(f, at, magic, middle + count);
    HoldsParts(f, at + 2, middle, count);
    HoldsFits(f, at, PrintFixed(o));
    Reads16(f, at, if o.plus then 0x20b else 0x10b);
    Reads32(f, at + 2 + |middle|, |o.directories|);
    assert |PrintFixed(o)| == 2 + |middle| + 4;
  }

  lemma {:induction false} DirectoryReads(f: Bytes, at: nat, ds: seq<Directory>, k: nat)
    requires Holds(f, at, PrintDirectories(ds)) && k < |ds|
    ensures at + 8 * k + 8 <= |f| && Le32(f, at + 8 * k) == ds[k].offset && Le32(f, at + 8 * k + 4) == ds[k].size
    decreases k
  {
    hide Holds, U32, Le32;
    HoldsParts(f, at, PrintDirectory(ds[0]), PrintDirectories(ds[1..]));
    if k == 0 {
      HoldsParts(f, at, U32(ds[0].offset), U32(ds[0].size));
      HoldsFits(f, at + 4, U32(ds[0].size));
      Reads32(f, at, ds[0].offset);
      Reads32(f, at + 4, ds[0].size);
    } else {
      DirectoryReads(f, at + 8, ds[1..], k - 1);
    }
  }

  /** The fifth directory, when it is neither absent nor empty: aligned, behind the headers and in the file. */
  predicate IsCertificateTable(f: Bytes, d: Dos, c: Coff, o: Optional)
  {
    && |o.directories| >= 5
    && var t := o.directories[4];
       && t.offset != 0 && t.size != 0 && t.offset % 8 == 0
       && d.pe + 24 + c.optionalSize <= t.offset && t.offset + t.size <= |f|
  }

  /**
   * The certificate table that is found is the fifth directory; with fewer than five, or with that one all
   * zero, there is none. Anything else, and an optional header too short for what it counts, is refused.
   */
  lemma CertTableReads(f: Bytes, d: Dos, c: Coff, o: Optional)
    requires IsImage(f, d, c, o)
    ensures CertTable(f) ==
            var header := |PrintFixed(o)|;
            if c.optionalSize < header then Throws
            else if |o.directories| < 5 then Ok(None)
            else if c.optionalSize < header + 5 * |PrintDirectory(o.directories[4])| then Throws
            else if o.directories[4] == Directory(0, 0) then Ok(None)
            else if IsCertificateTable(f, d, c, o) then Ok(Some(Table(o.directories[4].offset, o.directories[4].size)))
            else Throws
  {
    hide Holds, PrintDos, PrintHeaders, PrintOptional, PrintFixed, PrintDirectories, Le16, Le32, Directories;
    DosReads(f, d);
    CoffReads(f, d.pe, c, o);
    FixedReads(f, d.pe + 24, o);
    FixedIsLong(o);
    if |o.directories| >= 5 { DirectoryReads(f, d.pe + 24 + |PrintFixed(o)|, o.directories, 4); }
  }

  lemma FixedIsLong(o: Optional)
    ensures |PrintFixed(o)| > 2
  {
  }

  /** Any other kind of optional header is refused. */
  lemma OtherHeaderRefused(f: Bytes, d: Dos, c: Coff, magic: u16)
    requires Holds(f, 0, PrintDos(d)) && magic != 0x10b && magic != 0x20b
    requires Holds(f, d.pe, CoffStart(c) + (U16(c.optionalSize) + (c.characteristics + U16(magic))))
    ensures CertTable(f) == Throws
  {
    hide Holds, PrintDos, Le16, Le32, U16;
    DosReads(f, d);
    HoldsParts(f, d.pe, CoffStart(c), U16(c.optionalSize) + (c.characteristics + U16(magic)));
    HoldsParts(f, d.pe + 20, U16(c.optionalSize), c.characteristics + U16(magic));
    HoldsParts(f, d.pe + 22, c.characteristics, U16(magic));
    HoldsFits(f, d.pe + 24, U16(magic));
    Reads16(f, d.pe + 24, magic);
  }

  // ----- the certificate table

  /** A WIN_CERTIFICATE: one message, zeros after it, and what fills it up to the next multiple of eight. */
  datatype Certificate = Certificate(revision: u16, kind: u16, cms: Bytes, zeros: nat, filler: Bytes)

  function Length(c: Certificate): nat { 8 + |c.cms| + c.zeros }

  function Zeros(n: nat): (b: Bytes)
    ensures |b| == n && forall i :: 0 <= i < n ==> b[i] == 0
  {
    seq(n, _ => 0)
  }

  function PrintCertificate(c: Certificate): Bytes
    requires Length(c) < TWO_32
  {
    U32(Length(c)) + (U16(c.revision) + (U16(c.kind) + ((c.cms + Zeros(c.zeros)) + c.filler)))
  }

  function PrintTable(cs: seq<Certificate>): Bytes
    requires forall i :: 0 <= i < |cs| ==> Length(cs[i]) < TWO_32
  {
    if cs == [] then [] else PrintCertificate(cs[0]) + PrintTable(cs[1..])
  }

  /** Entries start on multiples of eight; only the last may end without being filled up. */
  predicate IsFilled(c: Certificate, last: bool)
  {
    ((Length(c) + |c.filler|) % 8 == 0 && |c.filler| < 8) || (last && c.filler == [])
  }

  predicate AreFilled(cs: seq<Certificate>) { forall i :: 0 <= i < |cs| ==> IsFilled(cs[i], i == |cs| - 1) }

  /** A PKCS #7 SignedData certificate, revision 2.0, of at most 16 MiB. */
  predicate IsPkcs(c: Certificate) { c.revision == 0x0200 && c.kind == 0x0002 && Length(c) <= 0x100_0000 }

  predicate ArePkcs(cs: seq<Certificate>) { forall i :: 0 <= i < |cs| ==> IsPkcs(cs[i]) }

  function Lengths(cs: seq<Certificate>): (r: seq<nat>)
    ensures |r| == |cs| && forall i :: 0 <= i < |cs| ==> r[i] == Length(cs[i])
  {
    seq(|cs|, i requires 0 <= i < |cs| => Length(cs[i]))
  }

  ghost predicate AreSigned(cs: seq<Certificate>) { forall i :: 0 <= i < |cs| ==> HasSigner(cs[i].cms) == Ok(true) }

  lemma EntryReads(f: Bytes, at: nat, c: Certificate)
    requires Length(c) < TWO_32 && Holds(f, at, PrintCertificate(c))
    ensures at + Length(c) <= |f| && |PrintCertificate(c)| == Length(c) + |c.filler|
    ensures Le32(f, at) == Length(c) && Le16(f, at + 4) == c.revision && Le16(f, at + 6) == c.kind
    ensures f[at + 8..at + Length(c)] == c.cms + Zeros(c.zeros)
  {
    hide Holds, U16, U32, Le16, Le32, Zeros;
    var body := c.cms + Zeros(c.zeros);
    HoldsParts(f, at, U32(Length(c)), U16(c.revision) + (U16(c.kind) + (body + c.filler)));
    HoldsParts(f, at + 4, U16(c.revision), U16(c.kind) + (body + c.filler));
    HoldsParts(f, at + 6, U16(c.kind), body + c.filler);
    HoldsParts(f, at + 8, body, c.filler);
    MagicIsRead(f, at + 8, body);
    Reads32(f, at, Length(c));
    Reads16(f, at + 4, c.revision);
    Reads16(f, at + 6, c.kind);
  }

  lemma SignedThenZeros(cms: Bytes, zeros: nat)
    requires HasSigner(cms) == Ok(true)
    ensures IsSignedPadded(cms + Zeros(zeros))
  {
    hide HasSigner;
    var p := cms + Zeros(zeros);
    assert p[..|cms|] == cms;
    assert IsSignedThenZeros(p, |cms|);
  }

  lemma EntryIs(f: Bytes, at: nat, length: nat, c: Certificate)
    requires Length(c) < TWO_32 && Holds(f, at, PrintCertificate(c)) && HasSigner(c.cms) == Ok(true)
    requires |PrintCertificate(c)| <= length && at + length <= |f|
    ensures IsEntry(f, at, length, Length(c)) <==> IsPkcs(c)
  {
    hide Holds, PrintCertificate, Le16, Le32, HasSigner, IsSignedPadded;
    EntryReads(f, at, c);
    SignedThenZeros(c.cms, c.zeros);
  }

  lemma StrideIs(c: Certificate, last: bool, length: nat)
    requires Length(c) + |c.filler| <= length && IsFilled(c, last) && (last ==> length == Length(c) + |c.filler|)
    ensures Stride(Length(c), length) == Length(c) + |c.filler|
    ensures AlignUp(Length(c)) <= length || Length(c) == length
  {
    AlignUpBounds(Length(c));
    var n, k := Length(c), |c.filler|;
    if (n + k) % 8 == 0 && k < 8 {
      assert AlignUp(n) == n + k by { AlignIs(n, k); }
    }
  }

  lemma AlignIs(n: nat, k: nat)
    requires (n + k) % 8 == 0 && k < 8
    ensures AlignUp(n) == n + k
  {
    DivModIs(n + 7, 8, (n + k) / 8, 7 - k);
  }

  /** A printed table of signed messages is one that the walk accepts, exactly when every entry is of the right kind. */
  lemma {:induction false} TableReads(f: Bytes, at: nat, cs: seq<Certificate>)
    requires (forall i :: 0 <= i < |cs| ==> Length(cs[i]) < TWO_32) && Holds(f, at, PrintTable(cs))
    requires AreFilled(cs) && AreSigned(cs)
    ensures Tiles(f, at, |PrintTable(cs)|, Lengths(cs)) <==> ArePkcs(cs)
    decreases |cs|
  {
    hide Holds, PrintCertificate, IsEntry, AlignUp, Stride, IsPkcs, IsFilled, HasSigner;
    if cs != [] {
      var c, rest := cs[0], cs[1..];
      var length := |PrintTable(cs)|;
      HoldsFits(f, at, PrintTable(cs));
      HoldsParts(f, at, PrintCertificate(c), PrintTable(rest));
      EntryReads(f, at, c);
      EntryIs(f, at, length, c);
      RestOfTable(cs);
      if |cs| == 1 { assert PrintTable(rest) == []; }
      StrideIs(c, |cs| == 1, length);
      TableReads(f, at + Length(c) + |c.filler|, rest);
    }
  }

  lemma RestOfTable(cs: seq<Certificate>)
    requires cs != [] && AreFilled(cs) && AreSigned(cs)
    ensures IsFilled(cs[0], |cs| == 1) && HasSigner(cs[0].cms) == Ok(true) && AreFilled(cs[1..]) && AreSigned(cs[1..])
    ensures ArePkcs(cs) <==> IsPkcs(cs[0]) && ArePkcs(cs[1..])
    ensures Lengths(cs)[0] == Length(cs[0]) && Lengths(cs)[1..] == Lengths(cs[1..])
  {
    hide IsFilled, HasSigner, IsPkcs;
    assert forall i :: 0 <= i < |cs| - 1 ==> cs[1..][i] == cs[i + 1];
    forall i | 0 <= i < |cs| - 1 ensures IsFilled(cs[1..][i], i == |cs| - 2) && HasSigner(cs[1..][i].cms) == Ok(true) {
      assert IsFilled(cs[i + 1], i + 1 == |cs| - 1);
    }
    if IsPkcs(cs[0]) && ArePkcs(cs[1..]) {
      forall i | 0 <= i < |cs| ensures IsPkcs(cs[i]) { if i > 0 { assert IsPkcs(cs[1..][i - 1]); } }
    }
    if ArePkcs(cs) {
      forall i | 0 <= i < |cs| - 1 ensures IsPkcs(cs[1..][i]) { assert IsPkcs(cs[i + 1]); }
    }
  }

  /** An image whose fifth directory leads to a printed table of signed messages is found to be signed. */
  lemma {:induction false} SignedImageIsFound(f: Bytes, d: Dos, c: Coff, o: Optional, cs: seq<Certificate>)
    requires IsImage(f, d, c, o) && IsCertificateTable(f, d, c, o)
    requires c.optionalSize >= |PrintFixed(o)| + 5 * |PrintDirectory(o.directories[4])|
    requires (forall i :: 0 <= i < |cs| ==> Length(cs[i]) < TWO_32) && o.directories[4].size == |PrintTable(cs)|
    requires Holds(f, o.directories[4].offset, PrintTable(cs)) && AreFilled(cs) && AreSigned(cs) && ArePkcs(cs)
    ensures HasSignedTable(f)
  {
    hide Holds, PrintFixed, PrintDirectory, PrintTable, CertTable, Tiles, IsImage, AreFilled, AreSigned, ArePkcs;
    CertTableReads(f, d, c, o);
    TableReads(f, o.directories[4].offset, cs);
    NoEntries(cs);
    assert Lengths(cs) != [];
  }

  lemma {:induction false} NoEntries(cs: seq<Certificate>)
    requires (forall i :: 0 <= i < |cs| ==> Length(cs[i]) < TWO_32) && |PrintTable(cs)| > 0
    ensures cs != []
  {
  }
}
