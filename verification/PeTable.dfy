/** The certificate table of a PE image (src/signing.cpp, `pe_has_signature`). */
module PeTable {
  import opened Wire
  import opened Der
  import opened Fields
  import opened Cms
  import opened CmsCursor

  const MAX_CMS := 16 * 1024 * 1024

  datatype Table = Table(offset: nat, length: nat)

  predicate InFile(f: Bytes, at: nat, len: nat) { at + len <= |f| }

  /** Offset of the data directories in the optional header; zero for an unknown format. */
  function Directories(format: nat): nat { if format == 0x10b then 96 else if format == 0x20b then 112 else 0 }

  /** The certificate table entry, absent when there is no such directory or it is all zero. */
  function CertTable(f: Bytes): Outcome<Option<Table>>
  {
    if !InFile(f, 0, 64) || f[0] != 0x4d || f[1] != 0x5a then Throws
    else
      var pe := Le32(f, 60);
      if !InFile(f, pe, 26) || f[pe..pe + 4] != [0x50, 0x45, 0, 0] then Throws
      else
        var optLen, directories := Le16(f, pe + 20), Directories(Le16(f, pe + 24));
        if directories == 0 || optLen < directories || !InFile(f, pe + 20 + directories, 4) then Throws
        else if Le32(f, pe + 20 + directories) <= 4 then Ok(None)
        else if optLen < directories + 40 || !InFile(f, pe + 56 + directories, 8) then Throws
        else
          var offset, length := Le32(f, pe + 56 + directories), Le32(f, pe + 60 + directories);
          if offset == 0 && length == 0 then Ok(None)
          else if offset == 0 || length == 0 || offset % 8 != 0 then Throws
          else if offset < pe + 24 + optLen || offset + length > |f| then Throws
          else Ok(Some(Table(offset, length)))
  }

  // ----- what a table must look like

  /** `payload` is one signed message followed by nothing but zero bytes. */
  ghost predicate IsSignedPadded(payload: Bytes)
  {
    exists k :: 0 <= k <= |payload| && IsSignedThenZeros(payload, k)
  }

  ghost predicate IsSignedThenZeros(payload: Bytes, k: nat)
    requires k <= |payload|
  {
    HasSigner(payload[..k]) == Ok(true) && forall i :: k <= i < |payload| ==> payload[i] == 0
  }

  /** A WIN_CERTIFICATE of `n` bytes at `at`, with `length` bytes of table left. */
  ghost predicate IsEntry(f: Bytes, at: nat, length: nat, n: nat)
  {
    && 8 <= n <= length && n <= MAX_CMS && InFile(f, at, length)
    && Le32(f, at) == n && Le16(f, at + 4) == 0x200 && Le16(f, at + 6) == 2
    && IsSignedPadded(f[at + 8..at + n])
  }

  function AlignUp(n: nat): nat { (n + 7) / 8 * 8 }

  /** The bytes an entry takes: up to the next multiple of eight, which only the last may miss. */
  function Stride(n: nat, length: nat): nat { if AlignUp(n) <= length then AlignUp(n) else n }

  /** `sizes` are the entries that tile `length` bytes from `at`. */
  ghost predicate Tiles(f: Bytes, at: nat, length: nat, sizes: seq<nat>)
    decreases |sizes|
  {
    if sizes == [] then length == 0
    else
      var n := sizes[0];
      && IsEntry(f, at, length, n) && (AlignUp(n) <= length || n == length)
      && Tiles(f, at + Stride(n, length), length - Stride(n, length), sizes[1..])
  }

  /** Where entry `k` of a tiling starts: the entries before it, each up to a multiple of eight. */
  function EntryAt(at: nat, sizes: seq<nat>, k: nat): nat
    requires k <= |sizes|
    decreases k
  {
    if k == 0 then at else EntryAt(at + AlignUp(sizes[0]), sizes[1..], k - 1)
  }

  /** A signed entry of `n` bytes at `e`, which the table follows up to `end`. */
  ghost predicate IsPlaced(f: Bytes, e: nat, n: nat, end: nat)
  {
    && e % 8 == 0 && 8 <= n && e + n <= end <= |f|
    && Le32(f, e) == n && IsSignedPadded(f[e + 8..e + n])
  }

  lemma AlignUpBounds(n: nat)
    ensures n <= AlignUp(n) < n + 8 && AlignUp(n) % 8 == 0
  {
  }

  lemma AlignedSum(a: nat, b: nat)
    requires a % 8 == 0 && b % 8 == 0
    ensures (a + b) % 8 == 0
  {
  }

  lemma TilesFirst(f: Bytes, at: nat, length: nat, sizes: seq<nat>)
    requires Tiles(f, at, length, sizes) && sizes != [] && at % 8 == 0
    ensures IsPlaced(f, at, sizes[0], at + length)
    ensures |sizes| > 1 ==>
            && AlignUp(sizes[0]) <= length
            && Tiles(f, at + AlignUp(sizes[0]), length - AlignUp(sizes[0]), sizes[1..])
    ensures |sizes| == 1 ==> length <= AlignUp(sizes[0])
    ensures (at + AlignUp(sizes[0])) % 8 == 0
  {
    hide IsSignedPadded, AlignUp, Le16, Le32;
    var n := sizes[0];
    var step := Stride(n, length);
    AlignUpBounds(n);
    AlignedSum(at, AlignUp(n));
    if |sizes| > 1 {
      assert IsEntry(f, at + step, length - step, sizes[1..][0]);
    } else {
      assert Tiles(f, at + step, length - step, []);
    }
  }

  /**
   * In a tiling each entry starts on a multiple of eight where the entry before it, rounded up to
   * eight, ends; each lies inside the table; and the last one reaches the end of the table, with
   * or without its padding.
   */
  lemma {:induction false} TilesExactly(f: Bytes, at: nat, length: nat, sizes: seq<nat>, k: nat)
    requires Tiles(f, at, length, sizes) && k < |sizes| && at % 8 == 0
    ensures IsPlaced(f, EntryAt(at, sizes, k), sizes[k], at + length)
    ensures k + 1 < |sizes| ==> EntryAt(at, sizes, k + 1) <= at + length
    ensures k + 1 == |sizes| ==> at + length <= EntryAt(at, sizes, k + 1)
    decreases |sizes|
  {
    hide IsPlaced, AlignUp, Tiles;
    TilesFirst(f, at, length, sizes);
    if k > 0 {
      TilesExactly(f, at + AlignUp(sizes[0]), length - AlignUp(sizes[0]), sizes[1..], k - 1);
    } else {
      assert EntryAt(at + AlignUp(sizes[0]), sizes[1..], 0) == at + AlignUp(sizes[0]);
    }
  }

  // ----- the walk

  /** The sizes read by the walk, entry after entry. */
  ghost function Walk(f: Bytes, at: nat, length: nat): Outcome<seq<nat>>
    requires InFile(f, at, length)
    decreases length
  {
    if length == 0 then Ok([])
    else if length < 8 || !IsEntry(f, at, length, Le32(f, at)) then Throws
    else
      var n := Le32(f, at);
      if AlignUp(n) > length && n != length then Throws
      else
        match Walk(f, at + Stride(n, length), length - Stride(n, length))
        case Throws => Throws
        case Ok(rest) => Ok([n] + rest)
  }

  lemma {:induction false} WalkFindsTiling(f: Bytes, at: nat, length: nat)
    requires InFile(f, at, length) && Walk(f, at, length).Ok?
    ensures Tiles(f, at, length, Walk(f, at, length).value) && (length > 0 ==> Walk(f, at, length).value != [])
    decreases length
  {
    hide IsSignedPadded, Le16, AlignUp;
    if length > 0 {
      var n := Le32(f, at);
      var rest := Walk(f, at + Stride(n, length), length - Stride(n, length)).value;
      WalkFindsTiling(f, at + Stride(n, length), length - Stride(n, length));
      assert ([n] + rest)[1..] == rest;
    }
  }

  lemma WalkStep(f: Bytes, at: nat, length: nat, n: nat, rest: seq<nat>)
    requires IsEntry(f, at, length, n) && (AlignUp(n) <= length || n == length)
    requires Walk(f, at + Stride(n, length), length - Stride(n, length)) == Ok(rest)
    ensures Walk(f, at, length) == Ok([n] + rest)
  {
    hide IsSignedPadded, Le16, Le32, AlignUp;
  }

  lemma TilesUnfolds(f: Bytes, at: nat, length: nat, sizes: seq<nat>)
    requires Tiles(f, at, length, sizes)
    ensures if sizes == [] then length == 0
            else IsEntry(f, at, length, sizes[0]) && (AlignUp(sizes[0]) <= length || sizes[0] == length)
                 && Tiles(f, at + Stride(sizes[0], length), length - Stride(sizes[0], length), sizes[1..])
  {
    hide IsEntry, AlignUp;
  }

  lemma {:induction false} TilingIsWalked(f: Bytes, at: nat, length: nat, sizes: seq<nat>)
    requires InFile(f, at, length) && Tiles(f, at, length, sizes)
    ensures Walk(f, at, length) == Ok(sizes)
    decreases |sizes|
  {
    hide IsEntry, AlignUp, Tiles;
    TilesUnfolds(f, at, length, sizes);
    if sizes != [] {
      hide Walk;
      var n := sizes[0];
      TilingIsWalked(f, at + Stride(n, length), length - Stride(n, length), sizes[1..]);
      WalkStep(f, at, length, n, sizes[1..]);
      assert sizes == [n] + sizes[1..];
    }
  }

  method OnlyZeros(payload: Bytes, from: nat) returns (ok: bool)
    requires from <= |payload|
    ensures ok == forall i :: from <= i < |payload| ==> payload[i] == 0
  {
    for i := from to |payload|
      invariant forall j :: from <= j < i ==> payload[j] == 0
    {
      if payload[i] != 0 { return false; }
    }
    return true;
  }

  /** A payload can only hold the message that its first field spans. */
  lemma SignedPrefixIsFirstField(payload: Bytes, k: nat)
    requires k <= |payload| && HasSigner(payload[..k]).Ok?
    ensures ReadTlv(payload).Ok? && ReadTlv(payload).value.Total() == k
  {
    hide Elements, IsSignedData, IsSigner, Encodes;
    var p := payload[..k];
    var v := Parts(p, [SEQUENCE]).value[0];
    assert Elements(p).value == [v];
    SingleElement(p, v);
    assert Encodes(p, v);
    assert payload == p + payload[k..];
    EncodesIsRead(p, v, payload[k..]);
  }

  lemma EncodesIsRead(p: Bytes, v: Tlv, rest: Bytes)
    requires Encodes(p, v)
    ensures ReadTlv(p + rest) == Ok(v) && v.Total() == |p|
  {
    ReadIgnoresSuffix(p, rest);
  }

  /** The body of the loop: read the message, its padding and its signers. */
  method CheckPayload(payload: Bytes) returns (ok: bool)
    ensures ok == IsSignedPadded(payload)
  {
    hide HasSigner, ReadTlv;
    var der := ReadTlvInPlace(payload);
    forall k | 0 <= k <= |payload| && HasSigner(payload[..k]) == Ok(true)
      ensures der.Ok? && der.value.Total() == k
    {
      SignedPrefixIsFirstField(payload, k);
    }
    if der.Throws? { return false; }
    var zeros := OnlyZeros(payload, der.value.Total());
    if !zeros { return false; }
    var signer := HasSignerCursor(payload[..der.value.Total()]);
    ok := signer == Ok(true);
    if ok { assert IsSignedThenZeros(payload, der.value.Total()); }
  }

  /** One turn of the loop: the entry at `offset`, and the bytes to step over. */
  method CheckEntry(f: Bytes, offset: u64, length: u64) returns (r: Outcome<u64>)
    requires length > 0 && InFile(f, offset, length) && |f| < TWO_64
    ensures r.Throws? ==> Walk(f, offset, length).Throws?
    ensures r.Ok? ==> 0 < r.value <= length &&
                      Walk(f, offset, length).Ok? == Walk(f, offset + r.value, length - r.value).Ok?
  {
    hide IsSignedPadded;
    if length < 8 { return Throws; }
    var n: u64 := Le32(f, offset);
    if n < 8 || n > length || n > MAX_CMS || Le16(f, offset + 4) != 0x200 || Le16(f, offset + 6) != 2 { return Throws; }
    var signed := CheckPayload(f[offset + 8..offset + n]);
    if !signed { return Throws; }
    var aligned: u64 := (n + 7) / 8 * 8;
    if aligned > length {
      if n != length { return Throws; }
      aligned := n;
    }
    return Ok(aligned);
  }

  /** The certificate table is present and signed entries tile it. */
  ghost predicate HasSignedTable(f: Bytes)
  {
    CertTable(f).Ok? && CertTable(f).value.Some? &&
    exists sizes :: sizes != [] && Tiles(f, CertTable(f).value.value.offset, CertTable(f).value.value.length, sizes)
  }

  /** The certificate table is absent, or signed entries tile it. */
  ghost predicate IsReadableImage(f: Bytes) { CertTable(f) == Ok(None) || HasSignedTable(f) }

  /**
   * True exactly when the table is present and signed entries tile it; false exactly when it is
   * absent; anything else throws. Every offset and length stays within `uint64_t`.
   */
  method PeHasSignature(f: Bytes) returns (r: Outcome<bool>)
    requires |f| < TWO_64
    ensures r == Ok(false) <==> CertTable(f) == Ok(None)
    ensures r == Ok(true) <==> HasSignedTable(f)
    ensures r.Ok? <==> IsReadableImage(f)
  {
    hide CertTable, Tiles, Walk;
    var table :- ReadTable(f);
    if table.None? { return Ok(false); }
    var offset: u64, length: u64 := table.value.offset, table.value.length;
    ghost var whole := Walk(f, offset, length);
    forall sizes | Tiles(f, offset, length, sizes) ensures whole == Ok(sizes) {
      TilingIsWalked(f, offset, length, sizes);
    }
    var found := false;
    while length > 0
      invariant InFile(f, offset, length)
      invariant whole.Ok? == Walk(f, offset, length).Ok?
      invariant found || length > 0
      decreases length
    {
      var aligned :- CheckEntry(f, offset, length);
      found := true;
      offset := offset + aligned;
      length := length - aligned;
    }
    WalkEnds(f, offset);
    WalkFindsTiling(f, table.value.offset, table.value.length);
    return Ok(found);
  }

  lemma {:induction false} WalkEnds(f: Bytes, at: nat)
    requires InFile(f, at, 0)
    ensures Walk(f, at, 0).Ok?
  {
  }

  /** The header reads of `pe_has_signature`, each refused past the end of the file. */
  method ReadTable(f: Bytes) returns (r: Outcome<Option<Table>>)
    requires |f| < TWO_64
    ensures r == CertTable(f)
    ensures r.Ok? && r.value.Some? ==> InFile(f, r.value.value.offset, r.value.value.length) && r.value.value.length > 0
  {
    var size: u64 := |f|;
    if !InFile(f, 0, 64) { return Throws; }
    if f[0] != 0x4d || f[1] != 0x5a { return Throws; }
    var pe: u64 := Le32(f, 60);
    if !InFile(f, pe, 26) { return Throws; }
    if f[pe..pe + 4] != [0x50, 0x45, 0, 0] { return Throws; }
    var optLen, format := Le16(f, pe + 20), Le16(f, pe + 24);
    var directories := Directories(format);
    if directories == 0 || optLen < directories { return Throws; }
    var counts: u64 := pe + 24 + directories - 4;
    if !InFile(f, counts, 4) { return Throws; }
    if Le32(f, counts) <= 4 { return Ok(None); }
    if optLen < directories + 40 { return Throws; }
    var entry: u64 := pe + 24 + directories + 32;
    if !InFile(f, entry, 8) { return Throws; }
    var offset, length := Le32(f, entry), Le32(f, entry + 4);
    if offset == 0 && length == 0 { return Ok(None); }
    if offset == 0 || length == 0 || offset % 8 != 0 || offset < pe + 24 + optLen || offset > size { return Throws; }
    var room: u64 := size - offset;
    if length > room { return Throws; }
    return Ok(Some(Table(offset, length)));
  }
}
