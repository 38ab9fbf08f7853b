/** When the inspector accepts a manifest, byte by byte. */
module ManifestChecks {
  import opened Wrappers
  import opened Bytes
  import opened Flash
  import opened Manifest

  // ----- One record -----

  /** The field holds the path, ended by a NUL. */
  predicate Holds(raw: seq<byte>, p: Path) {
    |p| < |raw| && raw[..|p|] == p && 0 !in p && raw[|p|] == 0
  }

  lemma {:induction false} PathIsUpToZero(raw: seq<byte>, p: Path)
    requires Holds(raw, p)
    ensures UpToZero(raw) == p
    decreases |p|
  {
    if p != [] {
      assert raw[1..][..|p| - 1] == p[1..];
      PathIsUpToZero(raw[1..], p[1..]);
    }
  }

  lemma UpToZeroHolds(raw: seq<byte>)
    requires 0 in raw
    ensures Holds(raw, UpToZero(raw))
  {
    BeforeZero(raw);
    NoZeroBefore(raw);
  }

  lemma {:induction false} NoZeroBefore(raw: seq<byte>)
    ensures 0 !in UpToZero(raw)
    ensures |UpToZero(raw)| < |raw| ==> raw[|UpToZero(raw)|] == 0
    decreases |raw|
  {
    if raw != [] && raw[0] != 0 { NoZeroBefore(raw[1..]); }
  }

  /** What the 112 bytes of a record must be: the path of a compressed file below /www/, the
      compression and no reserved bit. */
  ghost predicate GoodRecord(lib: Library, b: seq<byte>, p: Path)
    requires |b| == 112
  {
    && Holds(b[..64], p) && lib.isUtf8(p)
    && |p| >= 5 && p[..5] == [0x2F, 0x77, 0x77, 0x77, 0x2F] && p[|p| - 3..] == [0x2E, 0x67, 0x7A]
    && b[100] == 1 && forall i :: 101 <= i < 112 ==> b[i] == 0
  }

  lemma RecordIff(lib: Library, b: seq<byte>, seen: set<Path>)
    requires |b| == 112
    ensures var r := ParseRecord(lib, UnpackRecord(b), seen);
      && (r.Ok? ==> GoodRecord(lib, b, r.value.path) && r.value.path !in seen
                    && r.value == Asset(r.value.path, U32(b, 64), b[68..100]))
      && forall p :: GoodRecord(lib, b, p) && p !in seen ==> r.Ok? && r.value.path == p
  {
    hide U32;
    var raw, r := b[..64], ParseRecord(lib, UnpackRecord(b), seen);
    assert b[101..112] == Zeros(11) <==> forall i :: 101 <= i < 112 ==> b[i] == 0 by { ZeroBytes(b); }
    if r.Ok? { UpToZeroHolds(raw); }
    forall p | GoodRecord(lib, b, p) && p !in seen ensures r.Ok? && r.value.path == p {
      PathIsUpToZero(raw, p);
      assert raw[|p|] == 0;
    }
  }

  lemma ZeroBytes(b: seq<byte>)
    requires |b| == 112
    ensures b[101..112] == Zeros(11) <==> forall i :: 101 <= i < 112 ==> b[i] == 0
  {
    if b[101..112] == Zeros(11) {
      forall i | 101 <= i < 112 ensures b[i] == 0 {
        assert b[i] == b[101..112][i - 101] == Zeros(11)[i - 101];
      }
    }
  }

  // ----- All records -----

  function RecordAt(records: seq<byte>, i: nat): (b: seq<byte>)
    requires i * 112 + 112 <= |records|
    ensures |b| == 112
  {
    records[i * 112..i * 112 + 112]
  }

  lemma Fits(records: seq<byte>, count: nat, i: nat)
    requires |records| == count * 112 && i < count
    ensures i * 112 + 112 <= |records|
  {
  }

  lemma RecordOfRest(records: seq<byte>, i: nat)
    requires i > 0 && i * 112 + 112 <= |records|
    ensures RecordAt(records[112..], i - 1) == RecordAt(records, i)
  {
    var from, rest := (i - 1) * 112, records[112..];
    assert rest[from..from + 112] == records[112 + from..112 + (from + 112)];
  }

  /** The paths of the records, all different. */
  ghost predicate GoodRecords(lib: Library, records: seq<byte>, paths: seq<Path>) {
    && |records| == |paths| * 112 && Distinct(paths)
    && forall i: nat :: i < |paths| ==> i * 112 + 112 <= |records| && GoodRecord(lib, RecordAt(records, i), paths[i])
  }

  lemma FirstGood(lib: Library, records: seq<byte>, paths: seq<Path>)
    requires paths != [] && |records| == |paths| * 112
    ensures GoodRecords(lib, records, paths) <==>
      && GoodRecord(lib, records[..112], paths[0]) && paths[0] !in paths[1..]
      && GoodRecords(lib, records[112..], paths[1..])
  {
    hide GoodRecord;
    var rest := records[112..];
    assert RecordAt(records, 0) == records[..112];
    forall i: nat | i < |paths| - 1 ensures i * 112 + 112 <= |rest| && RecordAt(rest, i) == RecordAt(records, i + 1) {
      RecordOfRest(records, i + 1);
    }
    if GoodRecord(lib, records[..112], paths[0]) && paths[0] !in paths[1..] && GoodRecords(lib, rest, paths[1..]) {
      forall i: nat | i < |paths|
        ensures i * 112 + 112 <= |records| && GoodRecord(lib, RecordAt(records, i), paths[i])
      {
        if i > 0 { assert GoodRecord(lib, RecordAt(rest, i - 1), paths[1..][i - 1]); }
      }
      forall i, j | 0 <= i < j < |paths| ensures paths[i] != paths[j] {
        assert paths[j] == paths[1..][j - 1];
      }
    }
  }

  function PathsOf(assets: seq<Asset>): (paths: seq<Path>)
    ensures |paths| == |assets| && forall i :: 0 <= i < |assets| ==> paths[i] == assets[i].path
  {
    seq(|assets|, i requires 0 <= i < |assets| => assets[i].path)
  }

  /** The size and the hash of an asset are those of its record. */
  ghost predicate Reported(assets: seq<Asset>, records: seq<byte>) {
    |records| == |assets| * 112 && forall i: nat :: i < |assets| ==>
      i * 112 + 112 <= |records|
      && assets[i].size == U32(RecordAt(records, i), 64) && assets[i].sha256 == RecordAt(records, i)[68..100]
  }

  lemma FirstReported(assets: seq<Asset>, records: seq<byte>)
    requires assets != [] && |records| == |assets| * 112
    requires assets[0].size == U32(records[..112], 64) && assets[0].sha256 == records[..112][68..100]
    requires Reported(assets[1..], records[112..])
    ensures Reported(assets, records)
  {
    hide U32;
    var rest := records[112..];
    assert RecordAt(records, 0) == records[..112];
    forall i: nat | i < |assets|
      ensures i * 112 + 112 <= |records|
      ensures assets[i].size == U32(RecordAt(records, i), 64) && assets[i].sha256 == RecordAt(records, i)[68..100]
    {
      if i > 0 {
        assert assets[1..][i - 1] == assets[i];
        RecordOfRest(records, i);
      }
    }
  }

  lemma {:induction false} AcceptedRecordsAreGood(lib: Library, records: seq<byte>, count: nat, seen: set<Path>)
    requires |records| == count * 112 && ParseRecords(lib, records, count, seen).Ok?
    ensures var assets := ParseRecords(lib, records, count, seen).value;
      && |assets| == count && GoodRecords(lib, records, PathsOf(assets)) && Reported(assets, records)
      && forall a <- assets :: a.path !in seen
    decreases count
  {
    hide GoodRecord, GoodRecords, Reported, ParseRecord, UnpackRecord, U32;
    if count == 0 {
      NoRecordIsGood(lib, records);
    } else {
      SameUnpacked(records);
      RecordIff(lib, records[..112], seen);
      var a := ParseRecord(lib, UnpackRecord(records), seen).value;
      AcceptedRecordsAreGood(lib, records[112..], count - 1, seen + {a.path});
      var assets := ParseRecords(lib, records, count, seen).value;
      assert assets == [a] + assets[1..];
      assert PathsOf(assets)[1..] == PathsOf(assets[1..]);
      forall p <- PathsOf(assets)[1..] ensures p != a.path {
        var i :| 0 <= i < |assets[1..]| && assets[1..][i].path == p;
      }
      FirstGood(lib, records, PathsOf(assets));
      FirstReported(assets, records);
    }
  }

  lemma NoRecordIsGood(lib: Library, records: seq<byte>)
    requires records == []
    ensures GoodRecords(lib, records, PathsOf([])) && Reported([], records)
  {
  }

  lemma SameUnpacked(records: seq<byte>)
    requires |records| >= 112
    ensures UnpackRecord(records[..112]) == UnpackRecord(records)
  {
    FirstRecord(records, 0);
    assert records[0..112] == records[..112] && records[0..] == records;
  }

  lemma SizeOfGood(lib: Library, records: seq<byte>, paths: seq<Path>)
    requires GoodRecords(lib, records, paths)
    ensures |records| == |paths| * 112
  {
  }

  lemma {:induction false} GoodRecordsAreAccepted(lib: Library, records: seq<byte>, paths: seq<Path>, seen: set<Path>)
    requires GoodRecords(lib, records, paths) && forall p <- paths :: p !in seen
    ensures |records| == |paths| * 112
    ensures var r := ParseRecords(lib, records, |paths|, seen);
      r.Ok? && |r.value| == |paths| && forall i :: 0 <= i < |paths| ==> r.value[i].path == paths[i]
    decreases |paths|
  {
    hide GoodRecord, GoodRecords, ParseRecord, UnpackRecord, U32;
    SizeOfGood(lib, records, paths);
    if paths != [] {
      FirstGood(lib, records, paths);
      SameUnpacked(records);
      RecordIff(lib, records[..112], seen);
      GoodRecordsAreAccepted(lib, records[112..], paths[1..], seen + {paths[0]});
    }
  }

  // ----- The whole manifest -----

  /** What the 64 bytes of the header must say of the whole: the format and its sizes, at least one
      record, an ordered range of firmware versions, two checksums and the identifier of the asset set. */
  ghost predicate GoodHeader(lib: Library, b: seq<byte>) {
    && |b| >= 64 && b[..4] == [0x56, 0x58, 0x57, 0x4D] && U16(b, 4) == 1 && U16(b, 6) == 64
    && U16(b, 16) == 112 && U16(b, 18) == 0
    && U16(b, 14) > 0 && |b| == 64 + U16(b, 14) * 112 && U32(b, 20) == |b| && U16(b, 10) <= U16(b, 12)
    && lib.crc32(b[..60]) == U32(b, 60) && lib.crc32(b[64..]) == U32(b, 56)
    && lib.sha256([0x56, 0x58, 0x41, 0x53, 0x53, 0x45, 0x54, 0] + b[4..6] + b[8..18] + b[64..]) == b[24..56]
  }

  lemma HeaderIff(lib: Library, b: seq<byte>)
    ensures CheckHeader(lib, b).None? <==> GoodHeader(lib, b)
  {
    hide U16, U32, Le16;
    if |b| >= 64 {
      var h := UnpackHeader(b);
      HalfFromBytes(b, 4);
      HalfFromBytes(b, 8);
      HalfFromBytes(b, 10);
      HalfFromBytes(b, 12);
      HalfFromBytes(b, 14);
      HalfFromBytes(b, 16);
      assert b[8..18] == b[8..10] + b[10..12] + b[12..14] + b[14..16] + b[16..18];
      if h.schema == 1 && h.recordSize == 112 {
        assert AssetSetBytes(h.versions, b[64..], h.count) == ASSET_SET_PREFIX + b[4..6] + b[8..18] + b[64..];
      }
    }
  }

  /** A manifest is accepted exactly if its header and each of its records are in order and its
      paths differ. */
  lemma InspectionAcceptsIff(lib: Library, data: seq<byte>)
    ensures Parse(lib, data).Ok? <==>
      GoodHeader(lib, data) && exists paths: seq<Path> ::
        |paths| == U16(data, 14) && GoodRecords(lib, data[64..], paths)
  {
    hide GoodHeader, GoodRecords, ParseRecords, U16, U32, CheckHeader;
    HeaderIff(lib, data);
    if GoodHeader(lib, data) {
      var count := U16(data, 14);
      GoodCount(lib, data);
      if Parse(lib, data).Ok? {
        AcceptedRecordsAreGood(lib, data[64..], count, {});
        var paths := PathsOf(Parse(lib, data).value.assets);
        assert |paths| == count && GoodRecords(lib, data[64..], paths);
      }
      if paths: seq<Path> :| |paths| == count && GoodRecords(lib, data[64..], paths) {
        GoodRecordsAreAccepted(lib, data[64..], paths, {});
      }
    }
  }

  lemma GoodCount(lib: Library, data: seq<byte>)
    requires GoodHeader(lib, data)
    ensures |data| >= 64 && |data[64..]| == U16(data, 14) * 112
  {
    hide U16, U32;
  }

  /** And the report is what its bytes say. */
  lemma ReportSays(lib: Library, data: seq<byte>)
    requires Parse(lib, data).Ok?
    ensures |data| >= 64
    ensures var r := Parse(lib, data).value;
      && r.versions == Versions(U16(data, 8), U16(data, 10), U16(data, 12)) && r.assetSet == data[24..56]
      && r.size == |data| && r.sha256 == lib.sha256(data)
      && GoodRecords(lib, data[64..], PathsOf(r.assets)) && Reported(r.assets, data[64..])
  {
    hide GoodHeader, GoodRecords, Reported, ParseRecords, U16, U32, CheckHeader;
    HeaderIff(lib, data);
    GoodCount(lib, data);
    AcceptedRecordsAreGood(lib, data[64..], U16(data, 14), {});
  }
}
