/** The row checks of `rewrite_msi_payload`, loop by loop (src/msi_recursive.cpp). */
module MsiPreflight {
  import opened Wire
  import opened Cabinet
  import opened Msi

  datatype FileInfo = FileInfo(size: int32, sequence: int32, version: Bytes)

  function Info(row: FileRow): FileInfo { FileInfo(Value(row.size), Value(row.sequence), row.version) }

  function Integer(c: Cell): Outcome<int32> { if c.Garbage? then Throws else Ok(Value(c)) }

  /** The Media loop: ordered intervals, embedded cabinets, no cabinet twice. */
  method ReadMedia(rows: seq<MediaRow>) returns (r: Outcome<seq<Cab>>)
    ensures r.Ok? <==> MediaOk(rows)
    ensures r.Ok? ==> |r.value| == |rows| && forall i :: 0 <= i < |rows| ==> r.value[i] == CabFor(rows, i, [])
  {
    var cabs: seq<Cab>, names: set<Bytes>, previous: int := [], {}, 0;
    for i := 0 to |rows|
      invariant |cabs| == i && previous == Previous(rows, i)
      invariant forall k :: 0 <= k < i ==> cabs[k] == CabFor(rows, k, []) && MediaAt(rows, k)
      invariant forall n :: n in names <==> exists k :: 0 <= k < i && CabName(rows[k]) == n
      invariant forall k, l :: 0 <= k < l < i ==> rows[k].cabinet != rows[l].cabinet
    {
      var row := rows[i];
      var last := Integer(row.last);
      if last.Throws? { assert !MediaAt(rows, i); return Throws; }
      if last.value < previous { assert !MediaAt(rows, i); return Throws; }
      if |row.cabinet| < 2 || row.cabinet[0] != 0x23 { assert !MediaAt(rows, i); return Throws; }
      var name := row.cabinet[1..];
      assert row.cabinet == [0x23] + name;
      if name in names {
        var k :| 0 <= k < i && CabName(rows[k]) == name;
        assert MediaAt(rows, k) && rows[k].cabinet == [0x23] + CabName(rows[k]);
        return Throws;
      }
      assert MediaAt(rows, i);
      names := names + {name};
      cabs := cabs + [Cab(name, previous + 1, last.value, [])];
      previous := last.value;
    }
    return Ok(cabs);
  }

  ghost predicate IsFileMap(m: map<Bytes, FileInfo>, rows: seq<FileRow>)
  {
    && (forall i :: 0 <= i < |rows| ==> rows[i].key in m && m[rows[i].key] == Info(rows[i]))
    && (forall k :: k in m ==> exists i :: 0 <= i < |rows| && rows[i].key == k)
  }

  ghost predicate AreSequences(sequences: set<int32>, rows: seq<FileRow>)
  {
    forall s :: s in sequences <==> exists k :: 0 <= k < |rows| && Value(rows[k].sequence) == s
  }

  /** The File loop: embedded files, positive distinct sequences, distinct identifiers. */
  method ReadFiles(rows: seq<FileRow>, compressed: bool) returns (r: Outcome<map<Bytes, FileInfo>>)
    ensures r.Ok? <==> FilesOk(rows, compressed)
    ensures r.Ok? ==> IsFileMap(r.value, rows)
  {
    hide FilesOk, FileRowOk, AreSequences, IsFileMap;
    var files: map<Bytes, FileInfo>, sequences: set<int32> := map[], {};
    NoFiles(rows[..0], compressed);
    for i := 0 to |rows|
      invariant FilesOk(rows[..i], compressed)
      invariant IsFileMap(files, rows[..i]) && AreSequences(sequences, rows[..i])
    {
      var row := rows[i];
      FilesStep(files, sequences, rows, i, compressed);
      var fits := CheckFileRow(row, compressed);
      if !fits { return Throws; }
      var sequence := Value(row.sequence);
      if sequence in sequences { return Throws; }
      if row.key in files { return Throws; }
      sequences := sequences + {sequence};
      files := files[row.key := Info(row)];
    }
    assert rows[..|rows|] == rows;
    return Ok(files);
  }

  lemma NoFiles(rows: seq<FileRow>, compressed: bool)
    requires rows == []
    ensures FilesOk(rows, compressed) && IsFileMap(map[], rows) && AreSequences({}, rows)
  {
  }

  /** One more row is fine exactly when its own fields are and nothing in it repeats. */
  lemma FilesStep(m: map<Bytes, FileInfo>, sequences: set<int32>, rows: seq<FileRow>, i: nat, compressed: bool)
    requires i < |rows| && FilesOk(rows[..i], compressed) && IsFileMap(m, rows[..i])
             && AreSequences(sequences, rows[..i])
    ensures var ok := FileRowOk(rows[i], compressed) && Value(rows[i].sequence) !in sequences && rows[i].key !in m;
            && (ok ==> FilesOk(rows[..i + 1], compressed) && IsFileMap(m[rows[i].key := Info(rows[i])], rows[..i + 1])
                       && AreSequences(sequences + {Value(rows[i].sequence)}, rows[..i + 1]))
            && (!ok ==> !FilesOk(rows, compressed))
  {
    hide FileRowOk, FilesOk, IsFileMap, AreSequences;
    var row, head := rows[i], rows[..i];
    assert rows[..i + 1] == head + [row];
    if FileRowOk(row, compressed) && Value(row.sequence) !in sequences && row.key !in m {
      RowIsNew(m, sequences, head, row, compressed);
      FileMapStep(m, head, row);
      SequencesStep(sequences, head, row);
    } else {
      RowSpoils(m, sequences, rows, i, compressed);
    }
  }

  lemma RowIsNew(m: map<Bytes, FileInfo>, sequences: set<int32>, head: seq<FileRow>, row: FileRow, compressed: bool)
    requires FilesOk(head, compressed) && IsFileMap(m, head) && AreSequences(sequences, head)
    requires FileRowOk(row, compressed) && Value(row.sequence) !in sequences && row.key !in m
    ensures FilesOk(head + [row], compressed)
  {
    hide FileRowOk;
  }

  lemma RowSpoils(m: map<Bytes, FileInfo>, sequences: set<int32>, rows: seq<FileRow>, i: nat, compressed: bool)
    requires i < |rows| && IsFileMap(m, rows[..i]) && AreSequences(sequences, rows[..i])
    requires !FileRowOk(rows[i], compressed) || Value(rows[i].sequence) in sequences || rows[i].key in m
    ensures !FilesOk(rows, compressed)
  {
    hide FileRowOk;
    var row, head := rows[i], rows[..i];
    if !FileRowOk(row, compressed) {
    } else if Value(row.sequence) in sequences {
      var k :| 0 <= k < i && Value(head[k].sequence) == Value(row.sequence);
      assert Value(rows[k].sequence) == Value(rows[i].sequence);
    } else {
      var k :| 0 <= k < i && head[k].key == row.key;
      assert rows[k].key == rows[i].key;
    }
  }

  lemma SequencesStep(sequences: set<int32>, head: seq<FileRow>, row: FileRow)
    requires AreSequences(sequences, head)
    ensures AreSequences(sequences + {Value(row.sequence)}, head + [row])
  {
    var more := head + [row];
    assert more[|head|] == row;
    forall s
      ensures s in sequences + {Value(row.sequence)} <==> exists k :: 0 <= k < |more| && Value(more[k].sequence) == s
    {
      if s in sequences {
        var k :| 0 <= k < |head| && Value(head[k].sequence) == s;
        assert Value(more[k].sequence) == s;
      }
    }
  }

  method CheckFileRow(row: FileRow, compressed: bool) returns (ok: bool)
    ensures ok == FileRowOk(row, compressed)
  {
    var attributes := Integer(row.attributes);
    if attributes.Throws? { return false; }
    if Bit(attributes.value, 0x2000) || (!Bit(attributes.value, 0x4000) && !compressed) { return false; }
    var sequence, size := Integer(row.sequence), Integer(row.size);
    if sequence.Throws? || size.Throws? { return false; }
    return sequence.value > 0 && size.value >= 0;
  }

  lemma FileMapStep(m: map<Bytes, FileInfo>, head: seq<FileRow>, row: FileRow)
    requires IsFileMap(m, head) && row.key !in m
    ensures IsFileMap(m[row.key := Info(row)], head + [row])
  {
    var more, n := head + [row], m[row.key := Info(row)];
    assert more[|head|] == row;
    forall i | 0 <= i < |more| ensures more[i].key in n && n[more[i].key] == Info(more[i]) {
      if i < |head| { assert more[i] == head[i] && head[i].key in m; }
    }
    forall k | k in n ensures exists j :: 0 <= j < |more| && more[j].key == k {
      if k != row.key {
        var j :| 0 <= j < |head| && head[j].key == k;
        assert more[j].key == k;
      }
    }
  }

  method ReadHashes(rows: seq<HashRow>) returns (r: Outcome<set<Bytes>>)
    ensures r.Ok? <==> HashesOk(rows)
    ensures r.Ok? ==> forall n :: n in r.value <==> exists i :: 0 <= i < |rows| && rows[i].file == n
  {
    var hashed: set<Bytes> := {};
    for i := 0 to |rows|
      invariant forall k :: 0 <= k < i ==> !rows[k].options.Garbage? && Value(rows[k].options) == 0
      invariant forall n :: n in hashed <==> exists k :: 0 <= k < i && rows[k].file == n
    {
      var options := Integer(rows[i].options);
      if options.Throws? { return Throws; }
      if options.value != 0 { return Throws; }
      hashed := hashed + {rows[i].file};
    }
    return Ok(hashed);
  }

  // ----- the mapping check

  ghost predicate AreNames(found: set<Bytes>, ms: seq<Member>)
  {
    forall n :: n in found <==> IsMember(ms, n)
  }

  lemma MapsByTable(m: Member, c: Cab, files: map<Bytes, FileInfo>, rows: seq<FileRow>)
    requires IsFileMap(files, rows) && forall i, j :: 0 <= i < j < |rows| ==> rows[i].key != rows[j].key
    ensures Maps(m, c, rows) <==>
            && m.name in files && c.first <= files[m.name].sequence <= c.last && files[m.name].size == m.size
  {
    if m.name in files {
      var i :| 0 <= i < |rows| && rows[i].key == m.name;
      assert files[rows[i].key] == Info(rows[i]);
    }
    if Maps(m, c, rows) {
      var i :| 0 <= i < |rows| && rows[i].key == m.name && c.first <= Value(rows[i].sequence) <= c.last
        && Value(rows[i].size) == m.size;
      assert rows[i].key in files && files[rows[i].key] == Info(rows[i]);
    }
  }

  /** The loop over one cabinet's members: each has its own File row, not yet taken. */
  method MapMembers(c: Cab, files: map<Bytes, FileInfo>, found: set<Bytes>, ghost before: seq<Member>,
                    ghost rows: seq<FileRow>)
    returns (ok: bool, after: set<Bytes>)
    requires IsFileMap(files, rows) && forall i, j :: 0 <= i < j < |rows| ==> rows[i].key != rows[j].key
    requires AreNames(found, before) && DistinctMembers(before)
    ensures ok <==> CabMaps(c, rows) && DistinctMembers(before + c.members)
    ensures ok ==> AreNames(after, before + c.members)
  {
    hide Maps;
    after := found;
    ok := true;
    assert before + c.members[..0] == before;
    for k := 0 to |c.members|
      invariant AreNames(after, before + c.members[..k])
      invariant DistinctMembers(before + c.members[..k])
      invariant forall j :: 0 <= j < k ==> Maps(c.members[j], c, rows)
    {
      var m := c.members[k];
      ghost var seen := before + c.members[..k];
      MapsByTable(m, c, files, rows);
      if m.name !in files || m.name in after || files[m.name].sequence < c.first || files[m.name].sequence > c.last
         || files[m.name].size != m.size {
        assert m in c.members;
        if m.name in after { RepeatedMember(seen, c.members[k..]); assert seen + c.members[k..] == before + c.members; }
        return false, after;
      }
      MoreNames(after, seen, m);
      assert before + c.members[..k + 1] == seen + [m];
      after := after + {m.name};
    }
    assert c.members[..|c.members|] == c.members;
  }

  lemma RepeatedMember(seen: seq<Member>, rest: seq<Member>)
    requires rest != [] && IsMember(seen, rest[0].name)
    ensures !DistinctMembers(seen + rest)
  {
    var p :| 0 <= p < |seen| && seen[p].name == rest[0].name;
    var all := seen + rest;
    assert all[p].name == all[|seen|].name;
  }

  lemma MoreNames(found: set<Bytes>, seen: seq<Member>, m: Member)
    requires AreNames(found, seen) && DistinctMembers(seen) && m.name !in found
    ensures AreNames(found + {m.name}, seen + [m]) && DistinctMembers(seen + [m])
  {
    var longer := seen + [m];
    assert longer[|seen|].name == m.name;
    forall n ensures n in found + {m.name} <==> IsMember(longer, n) {
      if IsMember(seen, n) {
        var p :| 0 <= p < |seen| && seen[p].name == n;
        assert longer[p].name == n;
      }
    }
    forall i | 0 <= i < |seen| ensures seen[i].name != m.name { assert IsMember(seen, seen[i].name); }
  }
}
