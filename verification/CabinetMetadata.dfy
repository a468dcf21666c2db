/**
 * Restoring dates, times and attributes in a rebuilt cabinet, in place
 * (src/msi_recursive.cpp, `preserve_cabinet_metadata`).
 */
module CabinetMetadata {
  import opened Wire
  import opened Cabinet
  import opened CabinetInspect

  /** The six bytes that a record holds at offset 10. */
  function Meta(m: Member): (b: Bytes)
    ensures |b| == 6
  {
    [m.date % 0x100, m.date / 0x100, m.time % 0x100, m.time / 0x100, m.attributes % 0x100, m.attributes / 0x100]
  }

  function Patch(f: Bytes, at: nat, m: Member): (g: Bytes)
    requires at + 16 <= |f|
    ensures |g| == |f|
  {
    f[..at + 10] + Meta(m) + f[at + 16..]
  }

  function Next(at: nat, m: Member): nat { at + 17 + |m.name| }

  /** The records from `at` carry these names, and the sizes of the payload files, in order. */
  predicate Matches(f: Bytes, at: nat, ms: seq<Member>, sizes: seq<nat>)
    requires |sizes| == |ms|
    decreases |ms|
  {
    ms == [] ||
    (RecordAt(f, at).Ok? && RecordAt(f, at).value.size == sizes[0] && RecordAt(f, at).value.name == ms[0].name
     && Matches(f, Next(at, ms[0]), ms[1..], sizes[1..]))
  }

  /** The file with the metadata of every member written to its record. */
  function PatchAll(f: Bytes, at: nat, ms: seq<Member>): (g: Bytes)
    ensures |g| == |f|
    decreases |ms|
  {
    if ms == [] || at + 16 > |f| then f else PatchAll(Patch(f, at, ms[0]), Next(at, ms[0]), ms[1..])
  }

  predicate HasHeader(f: Bytes, count: nat)
  {
    |f| >= 36 && f[..4] == [0x4d, 0x53, 0x43, 0x46] && Le16(f, 28) == count
  }

  // ----- no write alters what a later iteration reads

  lemma {:induction false} NameLengthAgrees(f: Bytes, g: Bytes, at: nat, taken: nat)
    requires |f| == |g| && forall i :: at <= i < |f| ==> f[i] == g[i]
    ensures NameLength(f, at, taken) == NameLength(g, at, taken)
    decreases |f| - at - taken
  {
    if at + taken < |f| && taken <= 255 && f[at + taken] != 0 { NameLengthAgrees(f, g, at, taken + 1); }
  }

  lemma RecordAgrees(f: Bytes, g: Bytes, at: nat)
    requires |f| == |g| && forall i :: at <= i < |f| ==> f[i] == g[i]
    ensures RecordAt(f, at) == RecordAt(g, at)
  {
    if at + 17 <= |f| {
      NameLengthAgrees(f, g, at + 16, 0);
      if NameLength(f, at + 16, 0).Ok? {
        var n := NameLength(f, at + 16, 0).value;
        assert f[at + 16..at + 16 + n] == g[at + 16..at + 16 + n];
      }
    }
  }

  lemma {:induction false} MatchesAgrees(f: Bytes, g: Bytes, at: nat, ms: seq<Member>, sizes: seq<nat>)
    requires |sizes| == |ms| && |f| == |g| && forall i :: at <= i < |f| ==> f[i] == g[i]
    ensures Matches(f, at, ms, sizes) == Matches(g, at, ms, sizes)
    decreases |ms|
  {
    if ms != [] {
      RecordAgrees(f, g, at);
      MatchesAgrees(f, g, Next(at, ms[0]), ms[1..], sizes[1..]);
    }
  }

  lemma PatchKeepsRest(f: Bytes, at: nat, m: Member)
    requires at + 16 <= |f|
    ensures forall i :: 0 <= i < |f| && !(at + 10 <= i < at + 16) ==> Patch(f, at, m)[i] == f[i]
    ensures forall i :: 0 <= i < 6 ==> Patch(f, at, m)[at + 10 + i] == Meta(m)[i]
  {
  }

  /** Writing one record's metadata changes none of the checks on the records after it. */
  lemma {:induction false} PatchKeepsLaterMatches(f: Bytes, at: nat, m: Member, ms: seq<Member>, sizes: seq<nat>)
    requires at + 16 <= |f| && |sizes| == |ms|
    ensures Matches(Patch(f, at, m), Next(at, m), ms, sizes) == Matches(f, Next(at, m), ms, sizes)
  {
    hide Matches, Patch;
    PatchKeepsRest(f, at, m);
    MatchesAgrees(Patch(f, at, m), f, Next(at, m), ms, sizes);
  }

  /**
   * Succeeds exactly when the file as it was found names the members in order with the sizes of
   * their payload files, and then leaves the file with all metadata written.
   */
  method PreserveMetadata(file: array<byte>, members: seq<Member>, sizes: seq<nat>) returns (ok: bool)
    requires file.Length < TWO_64 && |sizes| == |members|
    modifies file
    ensures ok <==>
            && HasHeader(old(file[..]), |members|)
            && Matches(old(file[..]), Le32(old(file[..]), 16), members, sizes)
    ensures ok ==> file[..] == PatchAll(old(file[..]), Le32(old(file[..]), 16), members)
  {
    if file.Length < 36 { return false; }
    assert file[..][..4] == file[..4];
    if file[..4] != [0x4d, 0x53, 0x43, 0x46] || Le16(file[..], 28) != |members| { return false; }
    ghost var before := file[..];
    var table := Le32(file[..], 16);
    var cursor: u64 := table;
    for k := 0 to |members|
      invariant Matches(before, table, members, sizes) == Matches(file[..], cursor, members[k..], sizes[k..])
      invariant k < |members| || cursor < TWO_64
      invariant PatchAll(before, table, members) == PatchAll(file[..], cursor, members[k..])
    {
      var next := RestoreRecord(file, cursor, members[k], sizes[k], members[k..], sizes[k..]);
      if next.Throws? { return false; }
      assert members[k..][1..] == members[k + 1..] && sizes[k..][1..] == sizes[k + 1..];
      cursor := next.value;
    }
    assert members[|members|..] == [];
    return true;
  }

  /** One turn of the loop: check the record's size and name, then overwrite its six bytes. */
  method RestoreRecord(file: array<byte>, cursor: u64, m: Member, size: nat, ghost ms: seq<Member>,
                       ghost sizes: seq<nat>)
    returns (next: Outcome<u64>)
    requires file.Length < TWO_64 && |sizes| == |ms| > 0 && ms[0] == m && sizes[0] == size
    modifies file
    ensures next.Throws? ==> !Matches(old(file[..]), cursor, ms, sizes)
    ensures next.Ok? ==> next.value == Next(cursor, m)
    ensures next.Ok? ==> Matches(old(file[..]), cursor, ms, sizes) == Matches(file[..], next.value, ms[1..], sizes[1..])
    ensures next.Ok? ==> PatchAll(old(file[..]), cursor, ms) == PatchAll(file[..], next.value, ms[1..])
  {
    hide RecordAt, Patch, Matches, PatchAll;
    ghost var before := file[..];
    MatchesUnfolds(before, cursor, ms, sizes);
    if cursor > file.Length {
      NoRecordPastEnd(before, cursor);
      return Throws;
    }
    var record := ReadRecord(file[..], cursor);
    if record.Throws? { return Throws; }
    if record.value.size != size { return Throws; }
    if record.value.name != m.name { return Throws; }
    PatchKeepsLaterMatches(before, cursor, m, ms[1..], sizes[1..]);
    var metadata: u64 := cursor + 10;
    WriteBytes(file, metadata, Meta(m));
    assert file[..] == Patch(before, cursor, m) by { PatchIsWrite(before, cursor, m); }
    return Ok(Next(cursor, m));
  }

  lemma {:induction false} MatchesUnfolds(f: Bytes, at: nat, ms: seq<Member>, sizes: seq<nat>)
    requires |sizes| == |ms| > 0
    ensures Matches(f, at, ms, sizes) <==>
            && RecordAt(f, at).Ok? && RecordAt(f, at).value.size == sizes[0] && RecordAt(f, at).value.name == ms[0].name
            && Matches(f, Next(at, ms[0]), ms[1..], sizes[1..])
    ensures RecordAt(f, at).Ok? ==> PatchAll(f, at, ms) == PatchAll(Patch(f, at, ms[0]), Next(at, ms[0]), ms[1..])
  {
  }

  method WriteBytes(file: array<byte>, at: u64, b: Bytes)
    requires at + |b| <= file.Length
    modifies file
    ensures file[..] == old(file[..at]) + b + old(file[at + |b|..])
  {
    for i := 0 to |b|
      invariant forall j :: 0 <= j < i ==> file[at + j] == b[j]
      invariant forall j :: 0 <= j < file.Length && !(at <= j < at + i) ==> file[j] == old(file[j])
    {
      file[at + i] := b[i];
    }
    assert forall j :: at <= j < at + |b| ==> file[j] == b[j - at] by {
      forall j | at <= j < at + |b| ensures file[j] == b[j - at] { assert file[at + (j - at)] == b[j - at]; }
    }
  }

  lemma PatchIsWrite(f: Bytes, at: nat, m: Member)
    requires at + 16 <= |f|
    ensures Patch(f, at, m) == f[..at + 10] + Meta(m) + f[at + 10 + |Meta(m)|..]
  {
  }

  lemma NoRecordPastEnd(f: Bytes, at: nat)
    requires at > |f|
    ensures RecordAt(f, at).Throws?
  {
  }

  // ----- what the patched file holds

  /** Where the record of member `k` starts. */
  function Position(at: nat, ms: seq<Member>, k: nat): nat
    requires k <= |ms|
    decreases k
  {
    if k == 0 then at else Position(Next(at, ms[0]), ms[1..], k - 1)
  }

  /** Byte `i` is among the six that hold the metadata of member `k`. */
  predicate InWindow(at: nat, ms: seq<Member>, k: nat, i: nat)
    requires k < |ms|
  {
    Position(at, ms, k) + 10 <= i < Position(at, ms, k) + 16
  }

  lemma {:induction false} PositionAfter(at: nat, ms: seq<Member>, k: nat)
    requires k <= |ms|
    ensures at <= Position(at, ms, k)
    decreases k
  {
    if k > 0 { PositionAfter(Next(at, ms[0]), ms[1..], k - 1); }
  }

  /** Only the metadata windows change. */
  lemma {:induction false} PatchOnlyWindows(f: Bytes, at: nat, ms: seq<Member>, i: nat)
    requires i < |f| && forall k :: 0 <= k < |ms| ==> !InWindow(at, ms, k, i)
    ensures PatchAll(f, at, ms)[i] == f[i]
    decreases |ms|
  {
    if ms != [] && at + 16 <= |f| {
      assert !InWindow(at, ms, 0, i);
      PatchKeepsRest(f, at, ms[0]);
      forall k | 0 <= k < |ms| - 1 ensures !InWindow(Next(at, ms[0]), ms[1..], k, i) {
        assert !InWindow(at, ms, k + 1, i);
      }
      PatchOnlyWindows(Patch(f, at, ms[0]), Next(at, ms[0]), ms[1..], i);
    }
  }

  lemma {:induction false} PatchBefore(f: Bytes, at: nat, ms: seq<Member>, i: nat)
    requires i < |f| && i < at + 10
    ensures PatchAll(f, at, ms)[i] == f[i]
  {
    forall k | 0 <= k < |ms| ensures !InWindow(at, ms, k, i) { PositionAfter(at, ms, k); }
    PatchOnlyWindows(f, at, ms, i);
  }

  /** The window of each member holds its metadata. */
  lemma {:induction false} PatchFillsWindows(f: Bytes, at: nat, ms: seq<Member>, sizes: seq<nat>, k: nat, i: nat)
    requires |sizes| == |ms| && Matches(f, at, ms, sizes) && k < |ms| && InWindow(at, ms, k, i)
    ensures i < |f| && PatchAll(f, at, ms)[i] == Meta(ms[k])[i - Position(at, ms, k) - 10]
    decreases |ms|
  {
    hide RecordAt, Patch;
    MatchesUnfolds(f, at, ms, sizes);
    var g := Patch(f, at, ms[0]);
    PatchKeepsRest(f, at, ms[0]);
    if k == 0 {
      PatchBefore(g, Next(at, ms[0]), ms[1..], i);
      assert g[at + 10 + (i - at - 10)] == Meta(ms[0])[i - at - 10];
    } else {
      PatchKeepsLaterMatches(f, at, ms[0], ms[1..], sizes[1..]);
      PatchFillsWindows(g, Next(at, ms[0]), ms[1..], sizes[1..], k - 1, i);
    }
  }

  // ----- walking the file table again

  /** `n` records from `at`, as the inspection reads them before it checks them. */
  function RawRecords(f: Bytes, at: nat, n: nat): Outcome<seq<Record>>
    decreases n
  {
    if n == 0 then Ok([])
    else
      match RecordAt(f, at)
      case Throws => Throws
      case Ok(first) =>
        match RawRecords(f, After(at, first), n - 1)
        case Throws => Throws
        case Ok(rest) => Ok([first] + rest)
  }

  /** What the inspection accepts is what the plain walk reads. */
  lemma {:induction false} RecordsAreRaw(f: Bytes, at: nat, n: nat, fs: seq<Folder>)
    requires at <= |f| && Records(f, at, n, fs).Ok?
    ensures RawRecords(f, at, n) == Ok(Records(f, at, n, fs).value.records)
    decreases n
  {
    if n > 0 { RecordsAreRaw(f, After(at, RecordAt(f, at).value), n - 1, fs); }
  }

  /** A record that carries a member's name and metadata, and its payload's size. */
  predicate Restored(r: Record, m: Member, size: nat)
  {
    r.name == m.name && r.size == size && r.date == m.date && r.time == m.time && r.attributes == m.attributes
  }

  lemma PatchedRecord(f: Bytes, at: nat, m: Member)
    requires RecordAt(f, at).Ok?
    ensures RecordAt(Patch(f, at, m), at).Ok?
    ensures var r, s := RecordAt(f, at).value, RecordAt(Patch(f, at, m), at).value;
            s == r.(date := m.date, time := m.time, attributes := m.attributes)
  {
    hide Patch;
    var g := Patch(f, at, m);
    PatchKeepsRest(f, at, m);
    NameLengthAgrees(f, g, at + 16, 0);
    var n := NameLength(f, at + 16, 0).value;
    assert f[at + 16..at + 16 + n] == g[at + 16..at + 16 + n];
    assert Le32(g, at) == Le32(f, at) && Le32(g, at + 4) == Le32(f, at + 4) && Le16(g, at + 8) == Le16(f, at + 8);
    assert g[at + 10 + 0] == Meta(m)[0] && g[at + 10 + 1] == Meta(m)[1] && g[at + 10 + 2] == Meta(m)[2];
    assert g[at + 10 + 3] == Meta(m)[3] && g[at + 10 + 4] == Meta(m)[4] && g[at + 10 + 5] == Meta(m)[5];
  }

  /**
   * Walking the patched table finds every member's name, date, time and attributes in order,
   * with the size of its payload file.
   */
  lemma {:induction false} PatchedTableReads(f: Bytes, at: nat, ms: seq<Member>, sizes: seq<nat>)
    requires |sizes| == |ms| && Matches(f, at, ms, sizes)
    ensures var r := RawRecords(PatchAll(f, at, ms), at, |ms|);
            r.Ok? && |r.value| == |ms| && forall k :: 0 <= k < |ms| ==> Restored(r.value[k], ms[k], sizes[k])
    decreases |ms|
  {
    hide RecordAt, Patch;
    if ms != [] {
      MatchesUnfolds(f, at, ms, sizes);
      var g := Patch(f, at, ms[0]);
      var next := Next(at, ms[0]);
      var h := PatchAll(g, next, ms[1..]);
      PatchKeepsLaterMatches(f, at, ms[0], ms[1..], sizes[1..]);
      PatchedTableReads(g, next, ms[1..], sizes[1..]);
      PatchedRecord(f, at, ms[0]);
      FirstRecordStays(g, at, next, ms[1..]);
    }
  }

  lemma {:induction false} FirstRecordStays(g: Bytes, at: nat, next: nat, ms: seq<Member>)
    requires RecordAt(g, at).Ok? && next == After(at, RecordAt(g, at).value)
    ensures RecordAt(PatchAll(g, next, ms), at) == RecordAt(g, at)
  {
    hide PatchAll;
    var h := PatchAll(g, next, ms);
    forall i | 0 <= i < next ensures h[i] == g[i] { PatchBefore(g, next, ms, i); }
    var n := NameLength(g, at + 16, 0).value;
    NameLengthWithin(g, h, at + 16, 0, n);
    assert g[at + 16..at + 16 + n] == h[at + 16..at + 16 + n];
  }

  lemma {:induction false} NameLengthWithin(g: Bytes, h: Bytes, at: nat, taken: nat, n: nat)
    requires |g| == |h| && NameLength(g, at, taken) == Ok(n) && forall i :: at <= i <= at + n ==> g[i] == h[i]
    ensures NameLength(h, at, taken) == Ok(n)
    decreases n - taken
  {
    if taken < n { NameLengthWithin(g, h, at, taken + 1, n); }
  }

  // ----- the header stays readable unless the table was laid over it

  /** No window writes a byte to a place in `region` that does not hold it already. */
  predicate Spares(f: Bytes, at: nat, ms: seq<Member>, region: set<nat>)
  {
    forall k, i :: 0 <= k < |ms| && i in region && i < |f| && InWindow(at, ms, k, i) ==>
      Meta(ms[k])[i - Position(at, ms, k) - 10] == f[i]
  }

  predicate SameIn(f: Bytes, g: Bytes, region: set<nat>)
    requires |f| == |g|
  {
    forall i :: i in region && i < |f| ==> f[i] == g[i]
  }


  /** Where the header says where the file table is, and how long. */
  function LocatorBytes(): set<nat> { {16, 17, 18, 19, 28, 29} }

  /** Any part of the file survives exactly when the table's position and the metadata spare it. */
  lemma {:induction false} RegionSurvivesIffSpared(f: Bytes, at: nat, ms: seq<Member>, sizes: seq<nat>,
                                                   region: set<nat>)
    requires |sizes| == |ms| && Matches(f, at, ms, sizes)
    ensures SameIn(f, PatchAll(f, at, ms), region) <==> Spares(f, at, ms, region)
  {
    hide Matches, PatchAll, Meta, Position;
    forall k, i | 0 <= k < |ms| && i in region && i < |f| && InWindow(at, ms, k, i)
      ensures PatchAll(f, at, ms)[i] == Meta(ms[k])[i - Position(at, ms, k) - 10]
    {
      PatchFillsWindows(f, at, ms, sizes, k, i);
    }
    forall i | i in region && i < |f| && forall k :: 0 <= k < |ms| ==> !InWindow(at, ms, k, i)
      ensures PatchAll(f, at, ms)[i] == f[i]
    {
      PatchOnlyWindows(f, at, ms, i);
    }
  }

  /** A table that starts past the header, as the inspection demands, spares every part of it. */
  lemma TablePastHeaderIsSafe(f: Bytes, at: nat, ms: seq<Member>, region: set<nat>)
    requires at >= 26 && forall i :: i in region ==> i < 36
    ensures Spares(f, at, ms, region)
  {
    forall k, i | 0 <= k < |ms| && i in region && InWindow(at, ms, k, i) ensures false { PositionAfter(at, ms, k); }
  }

  /** The table can be found again: its offset and its length in the header are spared. */
  predicate TableStaysFound(f: Bytes, ms: seq<Member>)
    requires |f| >= 36
  {
    Spares(f, Le32(f, 16), ms, LocatorBytes())
  }

  /** The file table that a cabinet's own header points to. */
  function TableOf(f: Bytes): Outcome<seq<Record>>
  {
    if |f| < 36 then Throws else RawRecords(f, Le32(f, 16), Le16(f, 28))
  }

  ghost predicate IsRestored(f: Bytes, ms: seq<Member>, sizes: seq<nat>)
    requires |sizes| == |ms|
  {
    var r := TableOf(f);
    r.Ok? && |r.value| == |ms| && forall k :: 0 <= k < |ms| ==> Restored(r.value[k], ms[k], sizes[k])
  }

  /** The header names the same table, at the same place and of the same length. */
  predicate SameTable(f: Bytes, g: Bytes)
    requires |f| >= 36 && |g| >= 36
  {
    Le32(g, 16) == Le32(f, 16) && Le16(g, 28) == Le16(f, 28)
  }

  lemma SameTableIsSameBytes(f: Bytes, g: Bytes)
    requires |f| == |g| >= 36
    ensures SameTable(f, g) <==> SameIn(f, g, LocatorBytes())
  {
    if SameIn(f, g, LocatorBytes()) {
      assert 16 in LocatorBytes() && 17 in LocatorBytes() && 18 in LocatorBytes() && 19 in LocatorBytes();
      assert 28 in LocatorBytes() && 29 in LocatorBytes();
    }
    if SameTable(f, g) {
      LittleEndianIsInjective(f, g);
    }
  }

  lemma LittleEndianIsInjective(f: Bytes, g: Bytes)
    requires |f| == |g| >= 36 && SameTable(f, g)
    ensures f[16] == g[16] && f[17] == g[17] && f[18] == g[18] && f[19] == g[19] && f[28] == g[28] && f[29] == g[29]
  {
    DivModIs(Le32(f, 16), 0x1_0000, Le16(f, 18), Le16(f, 16));
    DivModIs(Le32(g, 16), 0x1_0000, Le16(g, 18), Le16(g, 16));
  }

  /** After the restoration the header names the same table exactly when those six bytes are spared. */
  lemma {:induction false} TableSurvivesIffFound(f: Bytes, ms: seq<Member>, sizes: seq<nat>)
    requires |sizes| == |ms| && |f| >= 36 && Matches(f, Le32(f, 16), ms, sizes)
    ensures SameTable(f, PatchAll(f, Le32(f, 16), ms)) <==> TableStaysFound(f, ms)
  {
    hide Matches, PatchAll, SameTable, SameIn, Spares, LocatorBytes;
    RegionSurvivesIffSpared(f, Le32(f, 16), ms, sizes, LocatorBytes());
    SameTableIsSameBytes(f, PatchAll(f, Le32(f, 16), ms));
  }

  /** Read through its own header, a patched cabinet whose table is found holds the members as they were. */
  lemma {:induction false} PatchedCabinetReads(f: Bytes, ms: seq<Member>, sizes: seq<nat>)
    requires |sizes| == |ms| && HasHeader(f, |ms|) && Matches(f, Le32(f, 16), ms, sizes)
    requires TableStaysFound(f, ms)
    ensures IsRestored(PatchAll(f, Le32(f, 16), ms), ms, sizes)
  {
    hide Matches, PatchAll, TableStaysFound, RawRecords;
    TableSurvivesIffFound(f, ms, sizes);
    PatchedTableReads(f, Le32(f, 16), ms, sizes);
  }

  /** A table laid over the header so that the first window covers the table offset itself. */
  lemma {:induction false} OverlaidTableLosesOffset(f: Bytes, m: Member)
    requires HasHeader(f, 1) && Le32(f, 16) == 6 && f[22] == 0x41 && f[23] == 0
    requires m.name == [0x41] && m.date % 0x100 != 6
    ensures Matches(f, 6, [m], [Le32(f, 6)])
    ensures Le32(PatchAll(f, 6, [m]), 16) != 6
  {
    assert NameLength(f, 22, 1) == Ok(1);
    assert f[22..23] == [0x41];
    assert [m][1..] == [] && [Le32(f, 6)][1..] == [];
    PatchKeepsRest(f, 6, m);
    var g := Patch(f, 6, m);
    assert g[16 + 0] == Meta(m)[0];
    assert PatchAll(g, Next(6, m), []) == g;
    LowOctetDiffers(g);
  }

  lemma LowOctetDiffers(g: Bytes)
    requires |g| >= 20 && g[16] != 6
    ensures Le32(g, 16) != 6
  {
    if Le32(g, 16) == 6 { DivModIs(Le32(g, 16), 0x100, g[17] as int + 0x100 * Le16(g, 18) as int, g[16]); }
  }

  function OverlaidCabinet(): Bytes
  {
    seq(36, i => if i == 0 then 0x4d else if i == 1 then 0x53 else if i == 2 then 0x43 else if i == 3 then 0x46
                 else if i == 7 then 4 else if i == 16 then 6 else if i == 22 then 0x41 else if i == 28 then 1 else 0)
  }

  /** One such file: every check of the restoration passes, and the header then points elsewhere. */
  lemma UnsafeHeaderExists()
    ensures var f, m := OverlaidCabinet(), Member([0x41], 0, 0x1234, 0, 0, 0);
            && HasHeader(f, 1) && Le32(f, 16) == 6 && Matches(f, 6, [m], [Le32(f, 6)])
            && Le32(PatchAll(f, 6, [m]), 16) != 6
  {
    hide Matches, PatchAll;
    var f, m := OverlaidCabinet(), Member([0x41], 0, 0x1234, 0, 0, 0);
    assert f[..4] == [f[0], f[1], f[2], f[3]];
    OverlaidTableLosesOffset(f, m);
  }
}
