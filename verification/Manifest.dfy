/** The manifest of the web assets: a 64-byte header and one 112-byte record per asset, built
    beside the assets and inspected before an image is accepted. */
module Manifest {
  import opened Wrappers
  import opened Bytes
  import opened Flash

  const HEADER_SIZE: nat := 64
  const RECORD_SIZE: nat := 112
  const PATH_SIZE: nat := 64
  const SCHEMA: int := 1
  const COMPRESSION_GZIP: byte := 1
  const MAGIC: seq<byte> := [0x56, 0x58, 0x57, 0x4D]
  const ASSET_SET_PREFIX: seq<byte> := [0x56, 0x58, 0x41, 0x53, 0x53, 0x45, 0x54, 0]
  const WWW: seq<byte> := [0x2F, 0x77, 0x77, 0x77, 0x2F]
  const GZ: seq<byte> := [0x2E, 0x67, 0x7A]

  type Half = n: int | 0 <= n < 0x1_0000
  type Word = n: int | 0 <= n < 0x1_0000_0000
  type Digest = d: seq<byte> | |d| == 32 witness seq(32, _ => 0)

  /** A path is its UTF-8 encoding. */
  type Path = seq<byte>

  datatype ManifestError =
    | UnsupportedSchema | InvalidContract | InvalidAssetList
    | UnsafePath | PathTooLong | EmbeddedNul | Unreadable | InvalidGzip | SizeTooLarge
    | Truncated | InvalidHeader | InvalidRecordContract | InconsistentSize | InvalidRange
    | HeaderCrcMismatch | RecordsCrcMismatch | AssetSetMismatch
    | UnterminatedPath | NotUtf8 | InvalidRecord
    | SizeMismatch | Sha256Mismatch

  /** The hash, the checksum, the UTF-8 decoder and gzip. */
  datatype Library = Library(sha256: seq<byte> -> Digest, crc32: seq<byte> -> Word,
                             isUtf8: seq<byte> -> bool, gunzip: seq<byte> -> Option<seq<byte>>)

  /** What the asset directory holds under a relative path. */
  type Directory = Path -> Option<seq<byte>>

  datatype Contract = Contract(schema: int, www: int, firmwareMin: int, firmwareMax: int, paths: seq<Path>)

  datatype Asset = Asset(path: Path, size: Word, sha256: Digest)

  datatype Versions = Versions(www: Half, firmwareMin: Half, firmwareMax: Half)

  /** What both the generator and the inspector report. */
  datatype Report = Report(versions: Versions, assetSet: Digest, size: nat, sha256: Digest, assets: seq<Asset>)

  // ----- The layout -----

  function Le16(n: Half): (b: seq<byte>)
    ensures |b| == 2
  {
    [n % 256, n / 256]
  }

  datatype Header = Header(schema: Half, headerSize: Half, versions: Versions, count: Half, recordSize: Half,
                           flags: Half, total: Word, assetSet: Digest, recordsCrc: Word)

  /** The header up to its own CRC. */
  function PackHeader(h: Header): (b: seq<byte>)
    ensures |b| == HEADER_SIZE - 4
  {
    MAGIC + Le16(h.schema) + Le16(h.headerSize) + Le16(h.versions.www) + Le16(h.versions.firmwareMin)
    + Le16(h.versions.firmwareMax) + Le16(h.count) + Le16(h.recordSize) + Le16(h.flags) + Le32(h.total)
    + h.assetSet + Le32(h.recordsCrc)
  }

  function UnpackHeader(b: seq<byte>): Header
    requires |b| >= HEADER_SIZE
  {
    Header(U16(b, 4), U16(b, 6), Versions(U16(b, 8), U16(b, 10), U16(b, 12)), U16(b, 14), U16(b, 16),
           U16(b, 18), U32(b, 20), b[24..56], U32(b, 56))
  }

  datatype Record = Record(rawPath: seq<byte>, size: Word, sha256: Digest, compression: byte, reserved: seq<byte>)

  function PackRecord(r: Record): (b: seq<byte>)
    requires |r.rawPath| == PATH_SIZE && |r.reserved| == 11
    ensures |b| == RECORD_SIZE
  {
    r.rawPath + Le32(r.size) + r.sha256 + [r.compression] + r.reserved
  }

  function UnpackRecord(b: seq<byte>): (r: Record)
    requires |b| >= RECORD_SIZE
    ensures |r.rawPath| == PATH_SIZE && |r.reserved| == 11
  {
    Record(b[..64], U32(b, 64), b[68..100], b[100], b[101..112])
  }

  /** The record of an asset. */
  function RecordOf(a: Asset): (r: Record)
    requires |a.path| < PATH_SIZE
    ensures |r.rawPath| == PATH_SIZE && |r.reserved| == 11
  {
    Record(a.path + Zeros(PATH_SIZE - |a.path|), a.size, a.sha256, COMPRESSION_GZIP, Zeros(11))
  }

  predicate Short(assets: seq<Asset>) {
    forall a <- assets :: |a.path| < PATH_SIZE
  }

  function Records(assets: seq<Asset>): (b: seq<byte>)
    requires Short(assets)
    ensures |b| == |assets| * RECORD_SIZE
  {
    if assets == [] then [] else PackRecord(RecordOf(assets[0])) + Records(assets[1..])
  }

  function AssetSetBytes(v: Versions, records: seq<byte>, count: Half): seq<byte> {
    ASSET_SET_PREFIX
    + (Le16(SCHEMA) + Le16(v.www) + Le16(v.firmwareMin) + Le16(v.firmwareMax) + Le16(count) + Le16(RECORD_SIZE))
    + records
  }

  function AssetSetId(lib: Library, v: Versions, records: seq<byte>, count: Half): Digest {
    lib.sha256(AssetSetBytes(v, records, count))
  }

  function HeaderOf(lib: Library, v: Versions, records: seq<byte>, count: Half): Header {
    Header(SCHEMA, HEADER_SIZE, v, count, RECORD_SIZE, 0, (HEADER_SIZE + |records|) % 0x1_0000_0000,
           AssetSetId(lib, v, records, count), lib.crc32(records))
  }

  function Sealed(lib: Library, h: Header): (b: seq<byte>)
    ensures |b| == HEADER_SIZE
  {
    PackHeader(h) + Le32(lib.crc32(PackHeader(h)))
  }

  /** The manifest of a list of assets. */
  function Render(lib: Library, v: Versions, assets: seq<Asset>): seq<byte>
    requires Short(assets) && |assets| < 0x1_0000
  {
    Sealed(lib, HeaderOf(lib, v, Records(assets), |assets|)) + Records(assets)
  }

  function ReportOf(lib: Library, v: Versions, assets: seq<Asset>): Report
    requires Short(assets) && |assets| < 0x1_0000
  {
    var data := Render(lib, v, assets);
    Report(v, AssetSetId(lib, v, Records(assets), |assets|), |data|, lib.sha256(data), assets)
  }

  // ----- Building -----

  predicate StartsWith(s: seq<byte>, prefix: seq<byte>) { |prefix| <= |s| && s[..|prefix|] == prefix }

  predicate EndsWith(s: seq<byte>, suffix: seq<byte>) { |suffix| <= |s| && s[|s| - |suffix|..] == suffix }

  predicate SafePath(p: Path) { StartsWith(p, WWW) && EndsWith(p, GZ) }

  predicate Distinct(paths: seq<Path>) {
    forall i, j :: 0 <= i < j < |paths| ==> paths[i] != paths[j]
  }

  /** The asset at a path; a path with a NUL cannot be opened. */
  function AssetAt(lib: Library, dir: Directory, p: Path): Result<Asset, ManifestError> {
    if !SafePath(p) then Err(UnsafePath)
    else if |p| >= PATH_SIZE then Err(PathTooLong)
    else if 0 in p then Err(EmbeddedNul)
    else match dir(p[|WWW|..])
      case None => Err(Unreadable)
      case Some(compressed) =>
        if lib.gunzip(compressed).None? then Err(InvalidGzip)
        else if |compressed| >= 0x1_0000_0000 then Err(SizeTooLarge)
        else Ok(Asset(p, |compressed|, lib.sha256(compressed)))
  }

  function AssetsAt(lib: Library, dir: Directory, paths: seq<Path>): (r: Result<seq<Asset>, ManifestError>)
    ensures r.Ok? ==> |r.value| == |paths| && Short(r.value) && forall i :: 0 <= i < |paths| ==>
      Ok(r.value[i]) == AssetAt(lib, dir, paths[i])
    ensures r.Err? ==> exists p <- paths :: AssetAt(lib, dir, p) == Err(r.error)
  {
    if paths == [] then Ok([]) else
      match AssetAt(lib, dir, paths[0])
      case Err(e) => Err(e)
      case Ok(a) =>
        match AssetsAt(lib, dir, paths[1..])
        case Err(e) => Err(e)
        case Ok(rest) => Ok([a] + rest)
  }

  function CheckContract(c: Contract): (r: Option<ManifestError>)
    ensures r.None? <==> c.schema == SCHEMA && 0 <= c.www <= 0xFFFF && 0 <= c.firmwareMin <= c.firmwareMax <= 0xFFFF
                         && 0 < |c.paths| <= 0xFFFF && Distinct(c.paths)
  {
    if c.schema != SCHEMA then Some(UnsupportedSchema)
    else if !(0 <= c.www <= 0xFFFF && 0 <= c.firmwareMin <= c.firmwareMax <= 0xFFFF) then Some(InvalidContract)
    else if c.paths == [] || |c.paths| > 0xFFFF || !Distinct(c.paths) then Some(InvalidAssetList)
    else None
  }

  function Build(lib: Library, dir: Directory, c: Contract): Result<(seq<byte>, Report), ManifestError> {
    match CheckContract(c)
    case Some(e) => Err(e)
    case None =>
      match AssetsAt(lib, dir, c.paths)
      case Err(e) => Err(e)
      case Ok(assets) =>
        var v := Versions(c.www, c.firmwareMin, c.firmwareMax);
        Ok((Render(lib, v, assets), ReportOf(lib, v, assets)))
  }

  // ----- Inspecting -----

  function ParseRecord(lib: Library, r: Record, seen: set<Path>): (a: Result<Asset, ManifestError>)
    requires |r.rawPath| == PATH_SIZE
  {
    if 0 !in r.rawPath then Err(UnterminatedPath) else
      var p := UpToZero(r.rawPath);
      if !lib.isUtf8(p) then Err(NotUtf8)
      else if !SafePath(p) || p in seen || r.compression != COMPRESSION_GZIP
          || r.reserved != Zeros(|r.reserved|) then Err(InvalidRecord)
      else Ok(Asset(p, r.size, r.sha256))
  }

  function ParseRecords(lib: Library, records: seq<byte>, count: nat,
                        seen: set<Path>): Result<seq<Asset>, ManifestError>
    requires |records| == count * RECORD_SIZE
    decreases count
  {
    if count == 0 then Ok([]) else
      match ParseRecord(lib, UnpackRecord(records), seen)
      case Err(e) => Err(e)
      case Ok(a) =>
        match ParseRecords(lib, records[RECORD_SIZE..], count - 1, seen + {a.path})
        case Err(e) => Err(e)
        case Ok(rest) => Ok([a] + rest)
  }

  /** What is wrong with the header and the checks that cover the whole manifest. */
  function CheckHeader(lib: Library, data: seq<byte>): (r: Option<ManifestError>)
    ensures r.None? ==> |data| >= HEADER_SIZE && |data| == HEADER_SIZE + UnpackHeader(data).count * RECORD_SIZE
  {
    if |data| < HEADER_SIZE then Some(Truncated) else
      var h := UnpackHeader(data);
      if data[..4] != MAGIC || h.schema != SCHEMA || h.headerSize != HEADER_SIZE then Some(InvalidHeader)
      else if h.recordSize != RECORD_SIZE || h.flags != 0 || h.count == 0 then Some(InvalidRecordContract)
      else if h.total != |data| || h.total != HEADER_SIZE + h.count * RECORD_SIZE then Some(InconsistentSize)
      else if h.versions.firmwareMin > h.versions.firmwareMax then Some(InvalidRange)
      else if lib.crc32(data[..HEADER_SIZE - 4]) != U32(data, HEADER_SIZE - 4) then Some(HeaderCrcMismatch)
      else if lib.crc32(data[HEADER_SIZE..]) != h.recordsCrc then Some(RecordsCrcMismatch)
      else if AssetSetId(lib, h.versions, data[HEADER_SIZE..], h.count) != h.assetSet then Some(AssetSetMismatch)
      else None
  }

  function Parse(lib: Library, data: seq<byte>): Result<Report, ManifestError> {
    match CheckHeader(lib, data)
    case Some(e) => Err(e)
    case None =>
      var h := UnpackHeader(data);
      match ParseRecords(lib, data[HEADER_SIZE..], h.count, {})
      case Err(e) => Err(e)
      case Ok(assets) => Ok(Report(h.versions, h.assetSet, |data|, lib.sha256(data), assets))
  }

  // ----- The loops -----

  method BuildManifest(lib: Library, dir: Directory, c: Contract)
    returns (r: Result<(seq<byte>, Report), ManifestError>)
    ensures r == Build(lib, dir, c)
  {
    hide AssetAt, AssetsAt, PackRecord, RecordOf, AssetSetId, Distinct, Records, CheckContract, Sealed, HeaderOf,
      Build, Render, ReportOf;
    BuildBy(lib, dir, c);
    var problem := CheckContract(c);
    if problem.Some? { return Err(problem.value); }
    var records: seq<byte>, assets: seq<Asset> := [], [];
    NoRecords();
    assert c.paths[0..] == c.paths;
    NothingBefore(AssetsAt(lib, dir, c.paths));
    for i := 0 to |c.paths|
      invariant |assets| == i && Short(assets) && records == Records(assets)
      invariant AssetsAt(lib, dir, c.paths) == Prefixed(assets, AssetsAt(lib, dir, c.paths[i..]))
    {
      NextAsset(lib, dir, c.paths, i);
      var a := AssetAt(lib, dir, c.paths[i]);
      if a.Err? { return Err(a.error); }
      ShortPath(lib, dir, c.paths[i]);
      OneMoreRecord(assets, a.value);
      OneMoreItem(assets, a.value, AssetsAt(lib, dir, c.paths[i + 1..]));
      records := records + PackRecord(RecordOf(a.value));
      assets := assets + [a.value];
    }
    NoAssets(lib, dir, c.paths);
    assert assets + [] == assets;
    var v := Versions(c.www, c.firmwareMin, c.firmwareMax);
    var data := Sealed(lib, HeaderOf(lib, v, records, |c.paths|)) + records;
    r := Ok((data, Report(v, AssetSetId(lib, v, records, |c.paths|), |data|, lib.sha256(data), assets)));
  }

  /** Items found before the ones of `r`. */
  function Prefixed(items: seq<Asset>, r: Result<seq<Asset>, ManifestError>): Result<seq<Asset>, ManifestError> {
    if r.Err? then r else Ok(items + r.value)
  }

  lemma NothingBefore(r: Result<seq<Asset>, ManifestError>)
    ensures Prefixed([], r) == r
  {
    assert r.Ok? ==> [] + r.value == r.value;
  }

  lemma OneMoreItem(items: seq<Asset>, a: Asset, r: Result<seq<Asset>, ManifestError>)
    ensures Prefixed(items, Prefixed([a], r)) == Prefixed(items + [a], r)
  {
    assert r.Ok? ==> items + ([a] + r.value) == items + [a] + r.value;
  }

  lemma BuildBy(lib: Library, dir: Directory, c: Contract)
    ensures CheckContract(c).Some? ==> Build(lib, dir, c) == Err(CheckContract(c).value)
    ensures CheckContract(c).None? ==>
      && (AssetsAt(lib, dir, c.paths).Err? ==> Build(lib, dir, c) == Err(AssetsAt(lib, dir, c.paths).error))
      && (AssetsAt(lib, dir, c.paths).Ok? ==>
            var assets, v := AssetsAt(lib, dir, c.paths).value, Versions(c.www, c.firmwareMin, c.firmwareMax);
            var records := Records(assets);
            var data := Sealed(lib, HeaderOf(lib, v, records, |c.paths|)) + records;
            Build(lib, dir, c) == Ok((data,
                Report(v, AssetSetId(lib, v, records, |c.paths|), |data|, lib.sha256(data), assets))))
  {
    hide AssetsAt, Records, Sealed, HeaderOf, AssetSetId, Distinct;
  }

  lemma NoRecords()
    ensures Records([]) == []
  {
  }

  lemma NoAssets(lib: Library, dir: Directory, paths: seq<Path>)
    ensures AssetsAt(lib, dir, paths[|paths|..]) == Ok([])
  {
  }

  lemma NextAsset(lib: Library, dir: Directory, paths: seq<Path>, i: nat)
    requires i < |paths|
    ensures var first, rest := AssetAt(lib, dir, paths[i]), AssetsAt(lib, dir, paths[i + 1..]);
      AssetsAt(lib, dir, paths[i..]) == if first.Err? then Err(first.error) else Prefixed([first.value], rest)
  {
    hide AssetAt;
    assert paths[i..][0] == paths[i] && paths[i..][1..] == paths[i + 1..];
  }

  lemma ShortPath(lib: Library, dir: Directory, p: Path)
    ensures var r := AssetAt(lib, dir, p);
      r.Ok? ==> r.value.path == p && |p| < PATH_SIZE
  {
  }

  lemma {:induction false} OneMoreRecord(assets: seq<Asset>, a: Asset)
    requires Short(assets) && |a.path| < PATH_SIZE
    ensures Short(assets + [a]) && Records(assets + [a]) == Records(assets) + PackRecord(RecordOf(a))
  {
    hide PackRecord, RecordOf;
    if assets == [] {
      assert Records([a][1..]) == [];
    } else {
      OneMoreRecord(assets[1..], a);
      assert (assets + [a])[1..] == assets[1..] + [a];
    }
  }

  method ParseManifest(lib: Library, data: seq<byte>) returns (r: Result<Report, ManifestError>)
    ensures r == Parse(lib, data)
  {
    hide CheckHeader, ParseRecord, UnpackRecord;
    match CheckHeader(lib, data) {
      case Some(e) => return Err(e);
      case None =>
    }
    var h, records := UnpackHeader(data), data[HEADER_SIZE..];
    var assets: seq<Asset>, seen: set<Path> := [], {};
    ghost var goal := ParseRecords(lib, records, h.count, {});
    assert records[0..] == records;
    NothingBefore(goal);
    for i := 0 to h.count
      invariant goal == Prefixed(assets, ParseRecords(lib, records[i * RECORD_SIZE..], h.count - i, seen))
    {
      var from := i * RECORD_SIZE;
      FirstRecord(records, from);
      match ParseRecord(lib, UnpackRecord(records[from..from + RECORD_SIZE]), seen) {
        case Err(e) => return Err(e);
        case Ok(a) =>
          OneMoreItem(assets, a, ParseRecords(lib, records[from + RECORD_SIZE..], h.count - i - 1, seen + {a.path}));
          seen := seen + {a.path};
          assets := assets + [a];
      }
    }
    assert assets + [] == assets;
    r := Ok(Report(h.versions, h.assetSet, |data|, lib.sha256(data), assets));
  }

  lemma FirstRecord(records: seq<byte>, from: nat)
    requires from + RECORD_SIZE <= |records|
    ensures UnpackRecord(records[from..from + RECORD_SIZE]) == UnpackRecord(records[from..])
    ensures records[from..][RECORD_SIZE..] == records[from + RECORD_SIZE..]
  {
    hide U32;
    var one, all := records[from..from + RECORD_SIZE], records[from..];
    assert one == all[..RECORD_SIZE];
    assert one[..64] == all[..64] && one[68..100] == all[68..100] && one[101..112] == all[101..112];
    ReadWithin(all, 0, RECORD_SIZE, 64);
  }

  // ----- Fields are read back -----

  lemma HalfInside(b: seq<byte>, at: nat, n: Half)
    requires at + 2 <= |b| && b[at..at + 2] == Le16(n)
    ensures U16(b, at) == n
  {
    assert b[at] == b[at..at + 2][0] && b[at + 1] == b[at..at + 2][1];
  }

  /** The slices of a packed header. */
  lemma HeaderSlices(h: Header, tail: seq<byte>)
    ensures var b := PackHeader(h) + tail;
      && b[..4] == MAGIC && b[4..6] == Le16(h.schema) && b[6..8] == Le16(h.headerSize)
      && b[8..10] == Le16(h.versions.www)
      && b[10..12] == Le16(h.versions.firmwareMin) && b[12..14] == Le16(h.versions.firmwareMax)
      && b[14..16] == Le16(h.count)
      && b[16..18] == Le16(h.recordSize) && b[18..20] == Le16(h.flags) && b[20..24] == Le32(h.total)
      && b[24..56] == h.assetSet && b[56..60] == Le32(h.recordsCrc)
  {
    hide Le16, Le32;
  }

  lemma HeaderIsReadBack(h: Header, tail: seq<byte>)
    requires |tail| >= 4
    ensures (PackHeader(h) + tail)[..4] == MAGIC
    ensures UnpackHeader(PackHeader(h) + tail) == h
  {
    hide PackHeader, U16, U32, Le16, Le32;
    var b := PackHeader(h) + tail;
    HeaderSlices(h, tail);
    HalfInside(b, 4, h.schema);
    HalfInside(b, 6, h.headerSize);
    HalfInside(b, 8, h.versions.www);
    HalfInside(b, 10, h.versions.firmwareMin);
    HalfInside(b, 12, h.versions.firmwareMax);
    HalfInside(b, 14, h.count);
    HalfInside(b, 16, h.recordSize);
    HalfInside(b, 18, h.flags);
    WordInside(b, 20, h.total);
    WordInside(b, 56, h.recordsCrc);
  }

  lemma RecordIsReadBack(r: Record, tail: seq<byte>)
    requires |r.rawPath| == PATH_SIZE && |r.reserved| == 11
    ensures UnpackRecord(PackRecord(r) + tail) == r
  {
    hide U32, Le32;
    var b := PackRecord(r) + tail;
    assert b[64..68] == Le32(r.size);
    WordInside(b, 64, r.size);
  }

  // ----- What is built is accepted -----

  /** An asset that the generator lets into a manifest. */
  predicate Listable(lib: Library, a: Asset) {
    SafePath(a.path) && |a.path| < PATH_SIZE && 0 !in a.path && lib.isUtf8(a.path)
  }

  lemma RecordIsAccepted(lib: Library, a: Asset, seen: set<Path>)
    requires Listable(lib, a) && a.path !in seen
    ensures ParseRecord(lib, RecordOf(a), seen) == Ok(a)
  {
    hide SafePath;
    PaddedIsReadBack(a.path, PATH_SIZE - |a.path|);
    assert RecordOf(a).rawPath[|a.path|] == 0;
  }

  predicate AllListable(lib: Library, assets: seq<Asset>, seen: set<Path>) {
    && (forall a <- assets :: Listable(lib, a) && a.path !in seen)
    && (forall i, j :: 0 <= i < j < |assets| ==> assets[i].path != assets[j].path)
  }

  lemma {:induction false} RecordsAreAccepted(lib: Library, assets: seq<Asset>, seen: set<Path>)
    requires Short(assets) && AllListable(lib, assets, seen)
    ensures ParseRecords(lib, Records(assets), |assets|, seen) == Ok(assets)
  {
    hide PackRecord, RecordOf, UnpackRecord, ParseRecord, Listable;
    if assets != [] {
      var a, b := assets[0], Records(assets);
      RecordIsReadBack(RecordOf(a), Records(assets[1..]));
      RecordIsAccepted(lib, a, seen);
      assert b[RECORD_SIZE..] == Records(assets[1..]);
      assert AllListable(lib, assets[1..], seen + {a.path}) by {
        assert forall i :: 0 <= i < |assets| - 1 ==> assets[1..][i] == assets[i + 1];
      }
      RecordsAreAccepted(lib, assets[1..], seen + {a.path});
      assert [a] + assets[1..] == assets;
    }
  }

  lemma RenderedHeader(lib: Library, v: Versions, records: seq<byte>, count: Half)
    requires |records| == count * RECORD_SIZE && count > 0 && v.firmwareMin <= v.firmwareMax
    ensures var data := Sealed(lib, HeaderOf(lib, v, records, count)) + records;
      CheckHeader(lib, data) == None && UnpackHeader(data) == HeaderOf(lib, v, records, count)
        && data[HEADER_SIZE..] == records
  {
    hide PackHeader, UnpackHeader, AssetSetId, U32, Le32;
    var h := HeaderOf(lib, v, records, count);
    var crc := lib.crc32(PackHeader(h));
    var data := Sealed(lib, h) + records;
    assert data == PackHeader(h) + (Le32(crc) + records);
    HeaderIsReadBack(h, Le32(crc) + records);
    assert data[..60] == PackHeader(h) && data[60..64] == Le32(crc) && data[64..] == records;
    WordInside(data, 60, crc);
  }

  lemma RenderedIsAccepted(lib: Library, v: Versions, assets: seq<Asset>)
    requires v.firmwareMin <= v.firmwareMax && 0 < |assets| < 0x1_0000 && Short(assets) && AllListable(lib, assets, {})
    ensures Parse(lib, Render(lib, v, assets)) == Ok(ReportOf(lib, v, assets))
  {
    hide CheckHeader, UnpackHeader, PackHeader, AssetSetId, Records, AllListable, Sealed;
    RenderedHeader(lib, v, Records(assets), |assets|);
    RecordsAreAccepted(lib, assets, {});
  }

  /** The paths of a contract are strings. */
  predicate PathsAreStrings(lib: Library, c: Contract) {
    forall p <- c.paths :: lib.isUtf8(p)
  }

  /** Whatever the generator emits, the inspector accepts, and both report the same contract and assets. */
  lemma ManifestIsReadBack(lib: Library, dir: Directory, c: Contract)
    requires PathsAreStrings(lib, c) && Build(lib, dir, c).Ok?
    ensures var (data, report) := Build(lib, dir, c).value;
      && Parse(lib, data) == Ok(report)
      && report.versions == Versions(c.www, c.firmwareMin, c.firmwareMax)
      && |report.assets| == |c.paths| && report.size == |data| == HEADER_SIZE + |c.paths| * RECORD_SIZE
      && forall i :: 0 <= i < |c.paths| ==>
           var file := dir(c.paths[i][|WWW|..]);
           report.assets[i].path == c.paths[i] && file.Some? && report.assets[i].size == |file.value|
           && report.assets[i].sha256 == lib.sha256(file.value)
  {
    hide Render, Parse, Records, AssetsAt;
    var assets := AssetsAt(lib, dir, c.paths).value;
    BuiltAssets(lib, dir, c, assets);
    RenderedIsAccepted(lib, Versions(c.www, c.firmwareMin, c.firmwareMax), assets);
    RenderedSize(lib, Versions(c.www, c.firmwareMin, c.firmwareMax), assets);
  }

  lemma RenderedSize(lib: Library, v: Versions, assets: seq<Asset>)
    requires Short(assets) && |assets| < 0x1_0000
    ensures |Render(lib, v, assets)| == HEADER_SIZE + |assets| * RECORD_SIZE
  {
    hide PackHeader, Records;
  }

  lemma BuiltAssets(lib: Library, dir: Directory, c: Contract, assets: seq<Asset>)
    requires PathsAreStrings(lib, c) && CheckContract(c) == None && AssetsAt(lib, dir, c.paths) == Ok(assets)
    ensures AllListable(lib, assets, {}) && |assets| == |c.paths|
    ensures forall i :: 0 <= i < |assets| ==>
           var file := dir(c.paths[i][|WWW|..]);
           SafePath(c.paths[i]) && assets[i].path == c.paths[i] && file.Some? && assets[i].size == |file.value|
           && assets[i].sha256 == lib.sha256(file.value)
  {
    hide AssetsAt;
    forall i | 0 <= i < |assets| ensures Listable(lib, assets[i]) && assets[i].path == c.paths[i] {
      assert Ok(assets[i]) == AssetAt(lib, dir, c.paths[i]);
      assert c.paths[i] in c.paths;
    }
  }

  /** When the generator succeeds. */
  lemma BuildSucceedsIff(lib: Library, dir: Directory, c: Contract)
    ensures Build(lib, dir, c).Ok? <==>
      && c.schema == SCHEMA && 0 <= c.www <= 0xFFFF && 0 <= c.firmwareMin <= c.firmwareMax <= 0xFFFF
      && 0 < |c.paths| <= 0xFFFF && Distinct(c.paths)
      && forall p <- c.paths ::
           && SafePath(p) && |p| < PATH_SIZE && 0 !in p
           && var file := dir(p[|WWW|..]);
              file.Some? && lib.gunzip(file.value).Some? && |file.value| < 0x1_0000_0000
  {
    hide AssetsAt, Render, ReportOf, Distinct;
    var r := AssetsAt(lib, dir, c.paths);
    forall p <- c.paths
      ensures AssetAt(lib, dir, p).Ok? <==>
        && SafePath(p) && |p| < PATH_SIZE && 0 !in p
        && var file := dir(p[|WWW|..]);
           file.Some? && lib.gunzip(file.value).Some? && |file.value| < 0x1_0000_0000
    {
    }
    if r.Ok? {
      forall p <- c.paths ensures AssetAt(lib, dir, p).Ok? {
        var i :| 0 <= i < |c.paths| && c.paths[i] == p;
        assert Ok(r.value[i]) == AssetAt(lib, dir, c.paths[i]);
      }
    }
  }

  // ----- Asset files -----

  function CheckAsset(lib: Library, dir: Directory, a: Asset): Option<ManifestError> {
    match dir(if StartsWith(a.path, WWW) then a.path[|WWW|..] else a.path)
    case None => Some(Unreadable)
    case Some(file) =>
      if |file| != a.size then Some(SizeMismatch)
      else if lib.sha256(file) != a.sha256 then Some(Sha256Mismatch)
      else if lib.gunzip(file).None? then Some(InvalidGzip)
      else None
  }

  /** The file under the path of an asset, below /www/, is the one its record describes. */
  predicate Matches(lib: Library, dir: Directory, a: Asset) {
    var file := dir(if |a.path| >= 5 && a.path[..5] == [0x2F, 0x77, 0x77, 0x77, 0x2F] then a.path[5..] else a.path);
    && file.Some? && |file.value| == a.size && lib.sha256(file.value) == a.sha256 && lib.gunzip(file.value).Some?
  }

  /** The first file that differs from its record decides the error. */
  method VerifyAssets(lib: Library, dir: Directory, assets: seq<Asset>) returns (error: Option<ManifestError>)
    ensures error.None? <==> forall a <- assets :: Matches(lib, dir, a)
    ensures error.Some? ==> exists i :: 0 <= i < |assets| && CheckAsset(lib, dir, assets[i]) == error && forall j ::
      0 <= j < i ==> CheckAsset(lib, dir, assets[j]).None?
  {
    for i := 0 to |assets|
      invariant forall j :: 0 <= j < i ==> CheckAsset(lib, dir, assets[j]).None?
      invariant forall j :: 0 <= j < i ==> Matches(lib, dir, assets[j])
    {
      error := CheckAsset(lib, dir, assets[i]);
      assert error.None? <==> Matches(lib, dir, assets[i]);
      if error.Some? { return; }
    }
    error := None;
  }

  predicate Collide(lib: Library, x: seq<byte>, y: seq<byte>) {
    x != y && lib.sha256(x) == lib.sha256(y)
  }

  /** No asset file collides with the file now found under its name. */
  predicate NoFileCollides(lib: Library, built: Directory, found: Directory, p: Path)
    requires |p| >= |WWW|
  {
    var was, now := built(p[|WWW|..]), found(p[|WWW|..]);
    was.Some? && now.Some? ==> !Collide(lib, was.value, now.value)
  }

  /** Asset files pass against a generated manifest exactly when they are the files it was generated from. */
  lemma FilesAreTheOnesListed(lib: Library, built: Directory, found: Directory, c: Contract)
    requires PathsAreStrings(lib, c) && Build(lib, built, c).Ok?
    requires forall p <- c.paths :: |WWW| <= |p| ==> NoFileCollides(lib, built, found, p)
    ensures (forall a <- Build(lib, built, c).value.1.assets :: CheckAsset(lib, found, a).None?) <==>
      forall p <- c.paths :: |WWW| <= |p| && found(p[|WWW|..]) == built(p[|WWW|..])
  {
    hide Render, ReportOf, AssetsAt, CheckContract, CheckAsset;
    var assets := AssetsAt(lib, built, c.paths).value;
    assert Build(lib, built, c).value.1.assets == assets by { ReportedAssets(lib, built, c); }
    forall i | 0 <= i < |assets|
      ensures |WWW| <= |c.paths[i]|
      ensures CheckAsset(lib, found, assets[i]).None? <==> found(c.paths[i][|WWW|..]) == built(c.paths[i][|WWW|..])
    {
      assert Ok(assets[i]) == AssetAt(lib, built, c.paths[i]);
      assert c.paths[i] in c.paths;
      OneFile(lib, built, found, c.paths[i]);
    }
    Elementwise(lib, found, built, assets, c.paths);
  }

  lemma ReportedAssets(lib: Library, dir: Directory, c: Contract)
    requires Build(lib, dir, c).Ok?
    ensures CheckContract(c).None? && AssetsAt(lib, dir, c.paths) == Ok(Build(lib, dir, c).value.1.assets)
  {
    hide Render, AssetsAt, CheckContract;
  }

  lemma OneFile(lib: Library, built: Directory, found: Directory, p: Path)
    requires AssetAt(lib, built, p).Ok? && (|WWW| <= |p| ==> NoFileCollides(lib, built, found, p))
    ensures |WWW| <= |p|
    ensures CheckAsset(lib, found, AssetAt(lib, built, p).value).None? <==> found(p[|WWW|..]) == built(p[|WWW|..])
  {
  }

  lemma Elementwise(lib: Library, found: Directory, built: Directory, assets: seq<Asset>, paths: seq<Path>)
    requires |assets| == |paths|
    requires forall i :: 0 <= i < |assets| ==> |WWW| <= |paths[i]| && (
        CheckAsset(lib, found, assets[i]).None? <==> found(paths[i][|WWW|..]) == built(paths[i][|WWW|..])
      )
    ensures (forall a <- assets :: CheckAsset(lib, found, a).None?) <==>
      forall p <- paths :: |WWW| <= |p| && found(p[|WWW|..]) == built(p[|WWW|..])
  {
    hide CheckAsset;
    if forall a <- assets :: CheckAsset(lib, found, a).None? {
      forall p <- paths ensures |WWW| <= |p| && found(p[|WWW|..]) == built(p[|WWW|..]) {
        var i :| 0 <= i < |paths| && paths[i] == p;
        assert assets[i] in assets;
      }
    }
    if forall p <- paths :: |WWW| <= |p| && found(p[|WWW|..]) == built(p[|WWW|..]) {
      forall a <- assets ensures CheckAsset(lib, found, a).None? {
        var i :| 0 <= i < |assets| && assets[i] == a;
        assert paths[i] in paths;
      }
    }
  }

  // ----- What is accepted has one form -----

  lemma HalfFromBytes(b: seq<byte>, at: nat)
    requires at + 2 <= |b|
    ensures b[at..at + 2] == Le16(U16(b, at))
  {
    LowByte(b[at], b[at + 1]);
  }

  /** A header is determined by its fields. */
  lemma HeaderIsRebuilt(b: seq<byte>)
    requires |b| >= HEADER_SIZE && b[..4] == MAGIC
    ensures PackHeader(UnpackHeader(b)) == b[..60]
  {
    hide U16, U32, Le16, Le32;
    HalfFromBytes(b, 4);
    HalfFromBytes(b, 6);
    HalfFromBytes(b, 8);
    HalfFromBytes(b, 10);
    HalfFromBytes(b, 12);
    HalfFromBytes(b, 14);
    HalfFromBytes(b, 16);
    HalfFromBytes(b, 18);
    WordFromBytes(b, 20);
    WordFromBytes(b, 56);
    assert b[..60] == b[..4] + b[4..6] + b[6..8] + b[8..10] + b[10..12] + b[12..14] + b[14..16] + b[16..18] + b[18..20]
                      + b[20..24] + b[24..56] + b[56..60];
  }

  lemma RecordIsRebuilt(b: seq<byte>)
    requires |b| >= RECORD_SIZE
    ensures PackRecord(UnpackRecord(b)) == b[..RECORD_SIZE]
  {
    hide U32, Le32;
    WordFromBytes(b, 64);
    assert b[..112] == b[..64] + b[64..68] + b[68..100] + [b[100]] + b[101..112];
  }

  /** The path field is zero after its first NUL, as the generator writes it. */
  predicate ZeroPadded(raw: seq<byte>) {
    forall i {:trigger raw[i]} :: |UpToZero(raw)| <= i < |raw| ==> raw[i] == 0
  }

  predicate AllZeroPadded(records: seq<byte>, count: nat)
    requires |records| == count * RECORD_SIZE
    decreases count
  {
    count == 0 || (ZeroPadded(records[..PATH_SIZE]) && AllZeroPadded(records[RECORD_SIZE..], count - 1))
  }

  lemma {:induction false} BeforeZero(raw: seq<byte>)
    ensures |UpToZero(raw)| <= |raw| && UpToZero(raw) == raw[..|UpToZero(raw)|]
    ensures 0 in raw <==> |UpToZero(raw)| < |raw|
    decreases |raw|
  {
    if raw != [] && raw[0] != 0 {
      BeforeZero(raw[1..]);
      assert 0 in raw <==> 0 in raw[1..];
    }
  }

  /** An accepted record is the one its asset would get exactly when its path field is zero-padded. */
  lemma AcceptedRecord(lib: Library, r: Record, seen: set<Path>)
    requires |r.rawPath| == PATH_SIZE && |r.reserved| == 11 && ParseRecord(lib, r, seen).Ok?
    ensures var a := ParseRecord(lib, r, seen).value;
      |a.path| < PATH_SIZE && (RecordOf(a) == r <==> ZeroPadded(r.rawPath))
  {
    hide SafePath;
    BeforeZero(r.rawPath);
    var p, n := UpToZero(r.rawPath), PATH_SIZE - |UpToZero(r.rawPath)|;
    if ZeroPadded(r.rawPath) { assert r.rawPath == p + Zeros(n); }
    if r.rawPath == p + Zeros(n) {
      forall i | |p| <= i < |r.rawPath| ensures r.rawPath[i] == 0 {
        assert r.rawPath[i] == Zeros(n)[i - |p|];
      }
    }
  }

  lemma {:induction false} AcceptedRecords(lib: Library, records: seq<byte>, count: nat, seen: set<Path>)
    requires |records| == count * RECORD_SIZE && ParseRecords(lib, records, count, seen).Ok?
    ensures var assets := ParseRecords(lib, records, count, seen).value;
      |assets| == count && Short(assets) && (Records(assets) == records <==> AllZeroPadded(records, count))
    decreases count
  {
    hide ParseRecord, UnpackRecord, PackRecord, RecordOf, ZeroPadded;
    if count > 0 {
      var r := UnpackRecord(records);
      AcceptedRecord(lib, r, seen);
      var a, rest := ParseRecord(lib, r, seen).value, records[RECORD_SIZE..];
      AcceptedRecords(lib, rest, count - 1, seen + {a.path});
      var assets := ParseRecords(lib, records, count, seen).value;
      assert assets[1..] == ParseRecords(lib, rest, count - 1, seen + {a.path}).value;
      RecordIsRebuilt(records);
      RawPathOf(records);
      SameRecord(RecordOf(a), r);
      Concatenation(PackRecord(RecordOf(a)), Records(assets[1..]), records);
    }
  }

  lemma RawPathOf(b: seq<byte>)
    requires |b| >= RECORD_SIZE
    ensures UnpackRecord(b).rawPath == b[..PATH_SIZE]
  {
  }

  lemma SameRecord(q: Record, r: Record)
    requires |q.rawPath| == PATH_SIZE && |q.reserved| == 11 && |r.rawPath| == PATH_SIZE && |r.reserved| == 11
    ensures PackRecord(q) == PackRecord(r) <==> q == r
  {
    hide PackRecord, UnpackRecord;
    RecordIsReadBack(q, []);
    RecordIsReadBack(r, []);
  }

  lemma Concatenation(first: seq<byte>, rest: seq<byte>, all: seq<byte>)
    requires |first| <= |all|
    ensures first + rest == all <==> first == all[..|first|] && rest == all[|first|..]
  {
  }

  /** An accepted manifest is the one the generator writes for what the inspector reports exactly when
      its path fields are zero-padded: the inspector does not look behind the first NUL of a path. */
  lemma AcceptedIsRenderedIff(lib: Library, data: seq<byte>)
    requires Parse(lib, data).Ok?
    ensures var report := Parse(lib, data).value;
      && 0 < |report.assets| < 0x1_0000 && Short(report.assets) && |data| == HEADER_SIZE + |report.assets| * RECORD_SIZE
      && (Render(lib, report.versions, report.assets) == data <==> AllZeroPadded(data[HEADER_SIZE..], |report.assets|))
  {
    hide UnpackHeader, ParseRecords, Records, AllZeroPadded, Sealed, HeaderOf;
    var h, records := UnpackHeader(data), data[HEADER_SIZE..];
    AcceptedRecords(lib, records, h.count, {});
    AcceptedHeader(lib, data);
    var assets := Parse(lib, data).value.assets;
    if Render(lib, h.versions, assets) == data {
      assert Render(lib, h.versions, assets)[HEADER_SIZE..] == Records(assets);
    }
    assert data == data[..HEADER_SIZE] + records;
  }

  lemma AcceptedHeader(lib: Library, data: seq<byte>)
    requires CheckHeader(lib, data).None?
    ensures var h := UnpackHeader(data);
      h.count > 0 && data[..HEADER_SIZE] == Sealed(lib, HeaderOf(lib, h.versions, data[HEADER_SIZE..], h.count))
  {
    hide UnpackHeader, PackHeader, AssetSetId, U32, Le32;
    HeaderIsRebuilt(data);
    WordFromBytes(data, 60);
    assert data[..64] == data[..60] + data[60..64];
  }

  /** The record of an asset with something behind the NUL that ends its path. */
  function WithGarbage(a: Asset, garbage: seq<byte>): (r: Record)
    requires |a.path| + 1 + |garbage| == PATH_SIZE
    ensures |r.rawPath| == PATH_SIZE && |r.reserved| == 11
  {
    Record(a.path + [0] + garbage, a.size, a.sha256, COMPRESSION_GZIP, Zeros(11))
  }

  lemma {:induction false} EndsAtNul(p: Path, rest: seq<byte>)
    requires 0 !in p
    ensures UpToZero(p + [0] + rest) == p
  {
    if p == [] {
      assert ([] + [0] + rest)[0] == 0;
    } else {
      EndsAtNul(p[1..], rest);
      assert (p + [0] + rest)[1..] == p[1..] + [0] + rest;
    }
  }

  /** A sealed manifest with such a record is accepted and reported as the manifest of the asset,
      although it is not the one the generator writes. */
  lemma GarbageIsAccepted(lib: Library, v: Versions, a: Asset, garbage: seq<byte>) returns (data: seq<byte>)
    requires Listable(lib, a) && v.firmwareMin <= v.firmwareMax && |a.path| + 1 + |garbage| == PATH_SIZE
    requires exists i :: 0 <= i < |garbage| && garbage[i] != 0
    ensures var r := Parse(lib, data);
      r.Ok? && r.value.versions == v && r.value.assets == [a] && data != Render(lib, v, [a])
  {
    hide CheckHeader, UnpackHeader, PackHeader, AssetSetId, PackRecord, UnpackRecord, Sealed, SafePath, Render;
    var r := WithGarbage(a, garbage);
    var records := PackRecord(r);
    data := Sealed(lib, HeaderOf(lib, v, records, 1)) + records;
    RenderedHeader(lib, v, records, 1);
    RecordIsReadBack(r, []);
    assert records + [] == records && records[RECORD_SIZE..] == [];
    EndsAtNul(a.path, garbage);
    assert r.rawPath[|a.path|] == 0;
    assert ParseRecords(lib, [], 0, {} + {a.path}) == Ok([]);
    assert [a] + [] == [a];
    NotPadded(a, garbage);
    assert !AllZeroPadded(records, 1) by { RawPathOf(records); }
    AcceptedIsRenderedIff(lib, data);
  }

  lemma NotPadded(a: Asset, garbage: seq<byte>)
    requires |a.path| + 1 + |garbage| == PATH_SIZE && 0 !in a.path
    requires exists i :: 0 <= i < |garbage| && garbage[i] != 0
    ensures !ZeroPadded(WithGarbage(a, garbage).rawPath)
  {
    var raw := WithGarbage(a, garbage).rawPath;
    EndsAtNul(a.path, garbage);
    var i :| 0 <= i < |garbage| && garbage[i] != 0;
    assert raw[|a.path| + 1 + i] == garbage[i];
  }

  // ----- The asset-set identifier -----

  /** What the identifier of a manifest is the hash of. */
  function AssetSetInput(data: seq<byte>): seq<byte>
    requires |data| >= HEADER_SIZE
  {
    var h := UnpackHeader(data);
    AssetSetBytes(h.versions, data[HEADER_SIZE..], h.count)
  }

  /** The identifier names the whole manifest: two accepted manifests share it only when they are the
      same bytes or their identifiers are a collision. */
  lemma AssetSetNamesManifest(lib: Library, one: seq<byte>, two: seq<byte>)
    requires Parse(lib, one).Ok? && Parse(lib, two).Ok?
    ensures |one| >= HEADER_SIZE && |two| >= HEADER_SIZE
    ensures Parse(lib, one).value.assetSet == Parse(lib, two).value.assetSet <==>
            one == two || Collide(lib, AssetSetInput(one), AssetSetInput(two))
  {
    hide UnpackHeader, ParseRecords, Sealed, HeaderOf;
    AcceptedHeader(lib, one);
    AcceptedHeader(lib, two);
    if AssetSetInput(one) == AssetSetInput(two) {
      var g, h := UnpackHeader(one), UnpackHeader(two);
      SameSet(g.versions, one[HEADER_SIZE..], g.count, h.versions, two[HEADER_SIZE..], h.count);
      assert one == one[..HEADER_SIZE] + one[HEADER_SIZE..] && two == two[..HEADER_SIZE] + two[HEADER_SIZE..];
    }
  }

  lemma SameSet(v: Versions, r: seq<byte>, n: Half, w: Versions, s: seq<byte>, m: Half)
    requires AssetSetBytes(v, r, n) == AssetSetBytes(w, s, m)
    ensures v == w && r == s && n == m
  {
    hide Le16;
    var x, y := AssetSetBytes(v, r, n), AssetSetBytes(w, s, m);
    assert x[10..12] == Le16(v.www) && y[10..12] == Le16(w.www);
    assert x[12..14] == Le16(v.firmwareMin) && y[12..14] == Le16(w.firmwareMin);
    assert x[14..16] == Le16(v.firmwareMax) && y[14..16] == Le16(w.firmwareMax);
    assert x[16..18] == Le16(n) && y[16..18] == Le16(m);
    assert x[20..] == r && y[20..] == s;
    HalfInside(x, 10, v.www);
    HalfInside(x, 12, v.firmwareMin);
    HalfInside(x, 14, v.firmwareMax);
    HalfInside(x, 16, n);
    HalfInside(x, 10, w.www);
    HalfInside(x, 12, w.firmwareMin);
    HalfInside(x, 14, w.firmwareMax);
    HalfInside(x, 16, m);
  }
}
