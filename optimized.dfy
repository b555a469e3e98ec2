/** The sharded cache (optimized_version/src/cache.rs): the scan table cut
    into row-range shards, one file per shard and one per fragment window,
    each compressed, and a metadata file written last. The directory is
    `.timstof_cache_optimized`; the file system is passed in as a
    `FileSystem` and read as its map of files. */
module OptimizedCache {
  import opened Binary
  import opened Outcomes
  import opened Dataset
  import opened Partition
  import opened Serialize
  import opened FileStore
  import C = Compression

  const CACHE_DIR := ".timstof_cache_optimized"
  const FORMAT_VERSION: uint32 := 2
  const MS1_STREAM := "ms1"
  const MS2_STREAM := "ms2_window"
  /** Memory mapping is considered only above this many shards ... */
  const MMAP_MIN_SHARDS: nat := 4
  /** ... and only for files longer than this many bytes. */
  const MMAP_MIN_BYTES: nat := 10_000_000

  /** The record stored in the metadata file; times are ticks of the file
      system's clock since the epoch. */
  datatype CacheMetadata = CacheMetadata(
    version: uint32,
    compressionType: C.CompressionType,
    shardCount: nat,
    ms2WindowCount: nat,
    createdAt: nat,
    sourceModified: nat,
    parallelThreads: nat)
  {
    /** The usize and time fields fit in 64 bits. */
    predicate Fits() {
      && shardCount < TWO_TO_THE_64
      && ms2WindowCount < TWO_TO_THE_64
      && createdAt < TWO_TO_THE_64
      && sourceModified < TWO_TO_THE_64
      && parallelThreads < TWO_TO_THE_64
    }
  }

  /** The variant index of a compression type, in declaration order. */
  function CompressionTag(c: C.CompressionType): (t: uint32)
    ensures TagCompression(t) == Some(c)
  {
    match c
    case None => 0
    case Lz4 => 1
    case Zstd => 2
    case Hybrid => 3
  }

  function TagCompression(t: uint32): (r: Option<C.CompressionType>)
    ensures r.Some? <==> t < 4
  {
    if t == 0 then Some(C.CompressionType.None)
    else if t == 1 then Some(C.CompressionType.Lz4)
    else if t == 2 then Some(C.CompressionType.Zstd)
    else if t == 3 then Some(C.CompressionType.Hybrid)
    else None
  }

  /** The metadata file's bytes: its fields in declaration order, two of 4
      bytes and five of 8. */
  function EncodeMetadata(m: CacheMetadata): (r: Bytes)
    ensures |r| == 48
  {
    EncodeU32(m.version) +
    (EncodeU32(CompressionTag(m.compressionType)) +
    (EncodeU64(m.shardCount) +
    (EncodeU64(m.ms2WindowCount) +
    (EncodeU64(m.createdAt) +
    (EncodeU64(m.sourceModified) +
    (EncodeU64(m.parallelThreads) + []))))))
  }

  /** Reads a metadata file back. Like a JSON document, the record must take
      up the whole file: a short file, an unknown compression variant or
      bytes left over are refused. */
  function ParseMetadata(bs: Bytes): (r: Option<CacheMetadata>)
    ensures r.Some? ==> |bs| == 48 && r.value.Fits()
  {
    match DecodeU32(bs)
    case None => None
    case Some((version, b1)) =>
      match DecodeU32(b1)
      case None => None
      case Some((tag, b2)) =>
        match TagCompression(tag)
        case None => None
        case Some(compression) =>
          match DecodeU64(b2)
          case None => None
          case Some((shards, b3)) =>
            match DecodeU64(b3)
            case None => None
            case Some((windows, b4)) =>
              match DecodeU64(b4)
              case None => None
              case Some((created, b5)) =>
                match DecodeU64(b5)
                case None => None
                case Some((sourceModified, b6)) =>
                  match DecodeU64(b6)
                  case None => None
                  case Some((threads, b7)) =>
                    if b7 == [] then Some(CacheMetadata(version, compression, shards, windows, created, sourceModified, threads))
                    else None
  }

  lemma MetadataRoundTrip(m: CacheMetadata)
    requires m.Fits()
    ensures ParseMetadata(EncodeMetadata(m)) == Some(m)
  {
    var b7: Bytes := [];
    var b6 := EncodeU64(m.parallelThreads) + b7;
    var b5 := EncodeU64(m.sourceModified) + b6;
    var b4 := EncodeU64(m.createdAt) + b5;
    var b3 := EncodeU64(m.ms2WindowCount) + b4;
    var b2 := EncodeU64(m.shardCount) + b3;
    var b1 := EncodeU32(CompressionTag(m.compressionType)) + b2;
    U32RoundTrip(m.version, b1);
    U32RoundTrip(CompressionTag(m.compressionType), b2);
    U64RoundTrip(m.shardCount, b3);
    U64RoundTrip(m.ms2WindowCount, b4);
    U64RoundTrip(m.createdAt, b5);
    U64RoundTrip(m.sourceModified, b6);
    U64RoundTrip(m.parallelThreads, b7);
  }

  /** get_shard_path: `{source}.{type}.shard_{id}.cache`. */
  function ShardName(source: string, cacheType: string, shardId: nat): string {
    source + "." + cacheType + ".shard_" + Decimal(shardId) + ".cache"
  }

  /** get_metadata_path: `{source}.meta.json`. */
  function MetadataName(source: string): string {
    source + ".meta.json"
  }

  /** Different shards of one source have different files, whether they
      differ in stream or in index. */
  lemma ShardNamesDiffer(source: string, t1: string, i: nat, t2: string, j: nat)
    requires t1 in {MS1_STREAM, MS2_STREAM} && t2 in {MS1_STREAM, MS2_STREAM}
    requires (t1, i) != (t2, j)
    ensures ShardName(source, t1, i) != ShardName(source, t2, j)
  {
    var s1, s2 := ShardName(source, t1, i), ShardName(source, t2, j);
    if t1 != t2 {
      assert s1[|source| + 3] == t1[2];
      assert s2[|source| + 3] == t2[2];
    } else {
      var p := source + "." + t1 + ".shard_";
      assert s1 == p + Decimal(i) + ".cache";
      assert s2 == p + Decimal(j) + ".cache";
      assert s1[|p|..|s1| - 6] == Decimal(i);
      assert s2[|p|..|s2| - 6] == Decimal(j);
      DecimalRoundTrip(i);
      DecimalRoundTrip(j);
    }
  }

  /** The metadata file is not a shard file. */
  lemma MetadataNameDiffers(source: string, t: string, i: nat)
    requires t in {MS1_STREAM, MS2_STREAM}
    ensures MetadataName(source) != ShardName(source, t, i)
  {
    assert MetadataName(source)[|source| + 2] == 'e';
    assert ShardName(source, t, i)[|source| + 2] == t[1];
  }

  /** A shard file's bytes: the serialized shard, compressed. */
  function ShardBytes(shard: DataShard, compression: C.CompressionType): Bytes {
    C.CompressData(EncodeShard(shard, []), compression)
  }

  function ShardFile(source: string, cacheType: string, i: nat, shard: DataShard, compression: C.CompressionType): Write {
    Write(ShardName(source, cacheType, i), ShardBytes(shard, compression))
  }

  /** The files of one stream, shard i to `{source}.{type}.shard_{i}.cache`. */
  function ShardWrites(source: string, cacheType: string, shards: seq<DataShard>, compression: C.CompressionType): (ws: seq<Write>)
    ensures |ws| == |shards|
  {
    seq(|shards|, i requires 0 <= i < |shards| => ShardFile(source, cacheType, i, shards[i], compression))
  }

  /** Each window as the shard save writes for it, tagged with its key. */
  function WindowShards(pairs: seq<WindowPair>): (shards: seq<DataShard>)
    ensures |shards| == |pairs|
  {
    seq(|pairs|, i requires 0 <= i < |pairs| => WindowShard(pairs[i]))
  }

  /** The size save reports for a file: its length, or 0 when its save failed. */
  function ReportedSize(dirExists: bool, locked: set<string>, w: Write): nat {
    if CreateResult(dirExists, locked, w.name).Ok? then |w.content| else 0
  }

  function ReportedSizes(dirExists: bool, locked: set<string>, ws: seq<Write>): (r: seq<nat>)
    ensures |r| == |ws|
  {
    seq(|ws|, i requires 0 <= i < |ws| => ReportedSize(dirExists, locked, ws[i]))
  }

  lemma ReportedSizesSnoc(dirExists: bool, locked: set<string>, ws: seq<Write>, i: nat)
    requires i < |ws|
    ensures ReportedSizes(dirExists, locked, ws[..i + 1])
         == ReportedSizes(dirExists, locked, ws[..i]) + [ReportedSize(dirExists, locked, ws[i])]
  {
  }

  /** The mapped read is used only for a file of more than MMAP_MIN_BYTES
      bytes when the cache has more than MMAP_MIN_SHARDS shards; a file whose
      length cannot be read is read through the buffer. */
  predicate ReadsByMmap(shardCount: nat, fileLen: Option<nat>) {
    shardCount > MMAP_MIN_SHARDS && fileLen.Some? && fileLen.value > MMAP_MIN_BYTES
  }

  /** load_shard after the bytes are read: decompress, then deserialize. */
  function DecodeShardFile(read: Result<Bytes>, name: string, compression: C.CompressionType): Result<DataShard> {
    match read
    case Err(e) => Err(e)
    case Ok(bytes) =>
      match C.DecompressData(bytes, compression)
      case None => Err(Corrupt(name))
      case Some(raw) =>
        match DecodeShard(raw)
        case None => Err(Corrupt(name))
        case Some((shard, _)) => Ok(shard)
  }

  function ShardFromFile(files: Files, name: string, compression: C.CompressionType): Result<DataShard> {
    DecodeShardFile(ReadResult(files, name), name, compression)
  }

  /** A loaded shard turned back into a window: its range tag is the key. */
  function AsWindow(r: Result<DataShard>): Result<WindowPair> {
    match r
    case Err(e) => Err(e)
    case Ok(shard) => Ok(ShardWindow(shard))
  }

  function Ms1Results(files: Files, source: string, meta: CacheMetadata): seq<Result<DataShard>> {
    seq(meta.shardCount, i requires 0 <= i < meta.shardCount =>
      ShardFromFile(files, ShardName(source, MS1_STREAM, i), meta.compressionType))
  }

  function Ms2Results(files: Files, source: string, meta: CacheMetadata): seq<Result<WindowPair>> {
    seq(meta.ms2WindowCount, i requires 0 <= i < meta.ms2WindowCount =>
      AsWindow(ShardFromFile(files, ShardName(source, MS2_STREAM, i), meta.compressionType)))
  }

  /** load_metadata: read the file, then parse it. */
  function MetadataFromFile(files: Files, name: string): Result<CacheMetadata> {
    match ReadResult(files, name)
    case Err(e) => Err(e)
    case Ok(bytes) =>
      match ParseMetadata(bytes)
      case None => Err(Corrupt(name))
      case Some(meta) => Ok(meta)
  }

  /** What load_indexed_data returns for the files: the metadata, then the
      ms1 shards 0..shard_count merged in index order, then the windows
      0..ms2_window_count in index order; the first failure aborts, and is
      re-raised as an error of kind Other. A load that succeeds returns as
      many windows as the metadata records. */
  function Load(files: Files, source: string): (r: Result<(IndexedData, seq<WindowPair>)>)
    ensures r.Err? ==> r.error.Other?
    ensures r.Ok? ==> MetadataFromFile(files, MetadataName(source)).Ok?
    ensures r.Ok? ==> |r.value.1| == MetadataFromFile(files, MetadataName(source)).value.ms2WindowCount
  {
    match MetadataFromFile(files, MetadataName(source))
    case Err(e) => Err(Other(e))
    case Ok(meta) =>
      match Collect(Ms1Results(files, source, meta))
      case Err(e) => Err(Other(e))
      case Ok(shards) =>
        match Collect(Ms2Results(files, source, meta))
        case Err(e) => Err(Other(e))
        case Ok(windows) => Ok((Merge(shards), windows))
  }

  /** is_cache_valid: the metadata file exists and parses, and records a
      source time no earlier than the source's current one (the epoch when
      the file system reports none). */
  predicate IsCacheValid(files: Files, source: Source)
    ensures IsCacheValid(files, source) ==> MetadataName(source.name) in files
    ensures source.modified.None? ==> (IsCacheValid(files, source) <==> MetadataFromFile(files, MetadataName(source.name)).Ok?)
  {
    var name := MetadataName(source.name);
    && name in files
    && match MetadataFromFile(files, name)
       case Err(_) => false
       case Ok(meta) => meta.sourceModified >= source.modified.UnwrapOr(0)
  }

  /** The cache manager; its compression is always Hybrid. */
  datatype CacheManager = CacheManager(compressionType: C.CompressionType, parallelThreads: nat)
  {
    /** The metadata save records: the source time falls back to `now`. */
    function Metadata(source: Source, shardCount: nat, windowCount: nat, now: nat): CacheMetadata {
      CacheMetadata(FORMAT_VERSION, compressionType, shardCount, windowCount, now,
                    source.modified.UnwrapOr(now), parallelThreads)
    }

    /** Every file save writes, in the order the model writes them: the ms1
        shards, the windows, the metadata. */
    function SaveWrites(source: Source, ms1: IndexedData, pairs: seq<WindowPair>, now: nat): seq<Write>
      requires parallelThreads >= 1 || |ms1.mzValues| == 0
      requires ms1.HasRows(|ms1.mzValues|)
    {
      var shards := Split(ms1, parallelThreads);
      ShardWrites(source.name, MS1_STREAM, shards, compressionType)
        + ShardWrites(source.name, MS2_STREAM, WindowShards(pairs), compressionType)
        + [Write(MetadataName(source.name), EncodeMetadata(Metadata(source, |shards|, |pairs|, now)))]
    }

    /** save_shard: serialize, compress, create and write the file; the
        compressed length on success. */
    method SaveShard(fs: FileSystem, shard: DataShard, name: string, compression: C.CompressionType, now: nat)
      returns (r: Result<nat>)
      requires fs.Valid()
      modifies fs
      ensures fs.Valid()
      ensures fs.dirExists == old(fs.dirExists)
      ensures fs.files == WriteAll(old(fs.files), fs.dirExists, fs.locked, [Write(name, ShardBytes(shard, compression))], now)
      ensures var created := CreateResult(fs.dirExists, fs.locked, name);
        r == if created.Ok? then Ok(|ShardBytes(shard, compression)|) else Err(created.error)
    {
      var serialized := EncodeShard(shard, []);
      var compressed := C.CompressData(serialized, compression);
      var created := fs.Create(name, compressed, now);
      if created.Err? {
        return Err(created.error);
      }
      r := Ok(|compressed|);
    }

    /** The parallel save of one stream, in index order: every shard is
        saved, a failed one reported as size 0 and otherwise ignored. */
    method SaveShardFiles(fs: FileSystem, source: string, cacheType: string, shards: seq<DataShard>, now: nat)
      returns (sizes: seq<nat>)
      requires fs.Valid()
      modifies fs
      ensures fs.Valid()
      ensures fs.dirExists == old(fs.dirExists)
      ensures fs.files == WriteAll(old(fs.files), fs.dirExists, fs.locked, ShardWrites(source, cacheType, shards, compressionType), now)
      ensures sizes == ReportedSizes(fs.dirExists, fs.locked, ShardWrites(source, cacheType, shards, compressionType))
    {
      ghost var ws := ShardWrites(source, cacheType, shards, compressionType);
      ghost var start := fs.files;
      sizes := [];
      for i := 0 to |shards|
        invariant fs.Valid() && fs.dirExists == old(fs.dirExists)
        invariant fs.files == WriteAll(start, fs.dirExists, fs.locked, ws[..i], now)
        invariant sizes == ReportedSizes(fs.dirExists, fs.locked, ws[..i])
      {
        assert ws[i] == Write(ShardName(source, cacheType, i), ShardBytes(shards[i], compressionType));
        var size := SaveShard(fs, shards[i], ShardName(source, cacheType, i), compressionType, now);
        sizes := sizes + [if size.Ok? then size.value else 0];
        ReportedSizesSnoc(fs.dirExists, fs.locked, ws, i);
        WriteAllStep(start, fs.dirExists, fs.locked, ws, i, now);
      }
      assert ws[..|shards|] == ws;
    }

    /** save_indexed_data: the ms1 shards, then the windows, then the
        metadata, whose failure alone is the result, re-raised as an error
        of kind Other. */
    method SaveIndexedData(fs: FileSystem, source: Source, ms1: IndexedData, pairs: seq<WindowPair>, now: nat)
      returns (r: Result<()>, ms1Sizes: seq<nat>, ms2Sizes: seq<nat>)
      requires parallelThreads >= 1 || |ms1.mzValues| == 0
      requires ms1.HasRows(|ms1.mzValues|)
      requires fs.Valid()
      modifies fs
      ensures fs.Valid()
      ensures fs.dirExists == old(fs.dirExists)
      ensures fs.files == WriteAll(old(fs.files), fs.dirExists, fs.locked, SaveWrites(source, ms1, pairs, now), now)
      ensures var created := CreateResult(fs.dirExists, fs.locked, MetadataName(source.name));
        r == if created.Ok? then Ok(()) else Err(Other(created.error))
      ensures ms1Sizes == ReportedSizes(fs.dirExists, fs.locked, ShardWrites(source.name, MS1_STREAM, Split(ms1, parallelThreads), compressionType))
      ensures ms2Sizes == ReportedSizes(fs.dirExists, fs.locked, ShardWrites(source.name, MS2_STREAM, WindowShards(pairs), compressionType))
    {
      ghost var start := fs.files;
      var sourceModified := source.modified.UnwrapOr(now);
      var ms1Shards := SplitIntoShards(ms1, parallelThreads);
      var numShards := |ms1Shards|;
      ms1Sizes := SaveShardFiles(fs, source.name, MS1_STREAM, ms1Shards, now);
      var windows := WindowShards(pairs);
      ms2Sizes := SaveShardFiles(fs, source.name, MS2_STREAM, windows, now);
      var metadata := CacheMetadata(FORMAT_VERSION, compressionType, numShards, |pairs|, now, sourceModified, parallelThreads);
      var created := fs.Create(MetadataName(source.name), EncodeMetadata(metadata), now);
      r := if created.Ok? then Ok(()) else Err(Other(created.error));
      ghost var w1 := ShardWrites(source.name, MS1_STREAM, ms1Shards, compressionType);
      ghost var w2 := ShardWrites(source.name, MS2_STREAM, windows, compressionType);
      WriteAllConcat(start, fs.dirExists, fs.locked, w1, w2, now);
      WriteAllConcat(start, fs.dirExists, fs.locked, w1 + w2, [Write(MetadataName(source.name), EncodeMetadata(metadata))], now);
    }
  }

  /** CacheManager::with_threads: creates the cache directory. */
  method WithThreads(fs: FileSystem, parallelThreads: nat) returns (m: CacheManager)
    requires fs.Valid()
    modifies fs
    ensures fs.Valid()
    ensures m == CacheManager(C.CompressionType.Hybrid, parallelThreads)
    ensures fs.dirExists && fs.files == old(fs.files)
  {
    fs.CreateDirAll();
    m := CacheManager(C.CompressionType.Hybrid, parallelThreads);
  }

  /** load_shard: a buffered read of the whole file; that a saved shard
      reads back is ShardAfterSave. */
  method LoadShard(fs: FileSystem, name: string, compression: C.CompressionType) returns (r: Result<DataShard>)
    ensures r == ShardFromFile(fs.files, name, compression)
  {
    var bytes := fs.Read(name);
    r := DecodeShardFile(bytes, name, compression);
  }

  /** load_shard_mmap: the file mapped into memory. */
  method LoadShardMmap(fs: FileSystem, name: string, compression: C.CompressionType) returns (r: Result<DataShard>)
    ensures r == ShardFromFile(fs.files, name, compression)
  {
    var mapped := fs.Map(name);
    r := DecodeShardFile(mapped, name, compression);
  }

  /** One shard as load_indexed_data reads it: whichever read path the
      shard count and the file length select, the result is the same. */
  method LoadShardAt(fs: FileSystem, name: string, compression: C.CompressionType, shardCount: nat)
    returns (r: Result<DataShard>)
    ensures r == ShardFromFile(fs.files, name, compression)
  {
    if ReadsByMmap(shardCount, FileLen(fs.files, name)) {
      r := LoadShardMmap(fs, name, compression);
    } else {
      r := LoadShard(fs, name, compression);
    }
  }

  /** load_metadata: read and parse the metadata file; that a saved record
      reads back is MetadataAfterSave. */
  method LoadMetadata(fs: FileSystem, name: string) returns (r: Result<CacheMetadata>)
    ensures r == MetadataFromFile(fs.files, name)
  {
    var bytes := fs.Read(name);
    if bytes.Err? {
      return Err(bytes.error);
    }
    var parsed := ParseMetadata(bytes.value);
    if parsed.None? {
      return Err(Corrupt(name));
    }
    r := Ok(parsed.value);
  }

  /** The parallel read of the ms1 shards 0..shard_count, gathered in index order. */
  method LoadMs1Results(fs: FileSystem, source: string, meta: CacheMetadata) returns (rs: seq<Result<DataShard>>)
    ensures rs == Ms1Results(fs.files, source, meta)
  {
    rs := [];
    for i := 0 to meta.shardCount
      invariant rs == Ms1Results(fs.files, source, meta)[..i]
    {
      var shard := LoadShardAt(fs, ShardName(source, MS1_STREAM, i), meta.compressionType, meta.shardCount);
      rs := rs + [shard];
    }
  }

  /** The parallel read of the windows 0..ms2_window_count, gathered in index order. */
  method LoadMs2Results(fs: FileSystem, source: string, meta: CacheMetadata) returns (rs: seq<Result<WindowPair>>)
    ensures rs == Ms2Results(fs.files, source, meta)
  {
    rs := [];
    for i := 0 to meta.ms2WindowCount
      invariant rs == Ms2Results(fs.files, source, meta)[..i]
    {
      var shard := LoadShardAt(fs, ShardName(source, MS2_STREAM, i), meta.compressionType, meta.shardCount);
      rs := rs + [AsWindow(shard)];
    }
  }

  /** Pushing each gathered result with `?`: the values, or the first error. */
  method PushAll<T>(rs: seq<Result<T>>) returns (r: Result<seq<T>>)
    ensures r == Collect(rs)
  {
    var values: seq<T> := [];
    for i := 0 to |rs|
      invariant Collect(rs[..i]) == Ok(values)
    {
      assert rs[..i + 1][..i] == rs[..i];
      if rs[i].Err? {
        CollectFirstError(rs, i);
        return Err(rs[i].error);
      }
      values := values + [rs[i].value];
    }
    assert rs[..|rs|] == rs;
    r := Ok(values);
  }

  /** load_indexed_data: the metadata, the ms1 shards merged, the windows. */
  method LoadIndexedData(fs: FileSystem, source: Source) returns (r: Result<(IndexedData, seq<WindowPair>)>)
    ensures r == Load(fs.files, source.name)
  {
    var metaResult := LoadMetadata(fs, MetadataName(source.name));
    if metaResult.Err? {
      return Err(Other(metaResult.error));
    }
    var metadata := metaResult.value;
    var ms1Results := LoadMs1Results(fs, source.name, metadata);
    var ms1Shards := PushAll(ms1Results);
    if ms1Shards.Err? {
      return Err(Other(ms1Shards.error));
    }
    var ms1 := MergeShards(ms1Shards.value);
    var ms2Results := LoadMs2Results(fs, source.name, metadata);
    var pairs := PushAll(ms2Results);
    if pairs.Err? {
      return Err(Other(pairs.error));
    }
    r := Ok((ms1, pairs.value));
  }

  /** clear_cache: removes the directory if it is there; succeeds either
      way. Afterwards no source has a valid cache and every load fails for
      want of the metadata file. */
  method ClearCache(fs: FileSystem) returns (r: Result<()>)
    requires fs.Valid()
    modifies fs
    ensures fs.Valid()
    ensures r == Ok(()) && !fs.dirExists && fs.files == map[]
    ensures forall s: Source :: !IsCacheValid(fs.files, s)
    ensures forall source: string :: Load(fs.files, source) == Err(Other(NotFound(MetadataName(source))))
  {
    if fs.dirExists {
      fs.RemoveDirAll();
    }
    r := Ok(());
  }

  /** Where each file sits in the list a save writes: the ms1 shards, then
      the windows, then the metadata. */
  lemma SaveWritesLayout(m: CacheManager, source: Source, ms1: IndexedData, pairs: seq<WindowPair>, now: nat)
    requires m.parallelThreads >= 1 && ms1.Aligned()
    ensures var ws := m.SaveWrites(source, ms1, pairs, now);
      var shards := Split(ms1, m.parallelThreads);
      var c := m.compressionType;
      && |ws| == |shards| + |pairs| + 1
      && (forall i :: 0 <= i < |shards| ==> ws[i] == ShardFile(source.name, MS1_STREAM, i, shards[i], c))
      && (forall i :: 0 <= i < |pairs| ==>
            ws[|shards| + i] == ShardFile(source.name, MS2_STREAM, i, WindowShard(pairs[i]), c))
      && ws[|ws| - 1] == Write(MetadataName(source.name), EncodeMetadata(m.Metadata(source, |shards|, |pairs|, now)))
  {
  }

  /** A list of writes laid out as a save lays them out names every file once. */
  lemma LayoutNamesDistinct(source: string, ws: seq<Write>, n1: nat, n2: nat)
    requires |ws| == n1 + n2 + 1
    requires forall i :: 0 <= i < n1 ==> ws[i].name == ShardName(source, MS1_STREAM, i)
    requires forall i :: 0 <= i < n2 ==> ws[n1 + i].name == ShardName(source, MS2_STREAM, i)
    requires ws[n1 + n2].name == MetadataName(source)
    ensures Distinct(Names(ws))
  {
    forall i, j | 0 <= i < j < |ws|
      ensures Names(ws)[i] != Names(ws)[j]
    {
      var t1, k1 := if i < n1 then MS1_STREAM else MS2_STREAM, if i < n1 then i else i - n1;
      assert ws[i].name == ShardName(source, t1, k1);
      if j == n1 + n2 {
        MetadataNameDiffers(source, t1, k1);
      } else {
        var t2, k2 := if j < n1 then MS1_STREAM else MS2_STREAM, if j < n1 then j else j - n1;
        assert ws[j].name == ShardName(source, t2, k2);
        ShardNamesDiffer(source, t1, k1, t2, k2);
      }
    }
  }

  /** Every file a save writes has its own name, so no write of a save
      overwrites another. */
  lemma SaveNamesDistinct(m: CacheManager, source: Source, ms1: IndexedData, pairs: seq<WindowPair>, now: nat)
    requires m.parallelThreads >= 1 && ms1.Aligned()
    ensures Distinct(Names(m.SaveWrites(source, ms1, pairs, now)))
  {
    SaveWritesLayout(m, source, ms1, pairs, now);
    var ws := m.SaveWrites(source, ms1, pairs, now);
    var n1 := |Split(ms1, m.parallelThreads)|;
    forall i | 0 <= i < n1 ensures ws[i].name == ShardName(source.name, MS1_STREAM, i) {
    }
    forall i | 0 <= i < |pairs| ensures ws[n1 + i].name == ShardName(source.name, MS2_STREAM, i) {
    }
    LayoutNamesDistinct(source.name, ws, n1, |pairs|);
  }

  /** What a save needs for its files to read back: at least one shard,
      and every count, length and time within the 64 bits of the format. */
  predicate Saveable(m: CacheManager, source: Source, ms1: IndexedData, pairs: seq<WindowPair>, now: nat) {
    && 1 <= m.parallelThreads < TWO_TO_THE_64
    && ms1.Aligned() && ms1.Fits() && PairsFit(pairs)
    && now < TWO_TO_THE_64 && source.modified.UnwrapOr(now) < TWO_TO_THE_64
  }

  /** The saved metadata file reads back as the record save wrote. */
  lemma MetadataAfterSave(m: CacheManager, files: Files, locked: set<string>, source: Source,
                          ms1: IndexedData, pairs: seq<WindowPair>, now: nat)
    requires Saveable(m, source, ms1, pairs, now)
    requires CreateResult(true, locked, MetadataName(source.name)).Ok?
    ensures var after := WriteAll(files, true, locked, m.SaveWrites(source, ms1, pairs, now), now);
      MetadataFromFile(after, MetadataName(source.name))
        == Ok(m.Metadata(source, |Split(ms1, m.parallelThreads)|, |pairs|, now))
  {
    var meta := m.Metadata(source, |Split(ms1, m.parallelThreads)|, |pairs|, now);
    var ws := m.SaveWrites(source, ms1, pairs, now);
    SaveWritesLayout(m, source, ms1, pairs, now);
    SaveNamesDistinct(m, source, ms1, pairs, now);
    WriteAllLookup(files, true, locked, ws, now, |ws| - 1);
    MetadataRoundTrip(meta);
  }

  /** A saved shard file reads back as the shard. */
  lemma ShardAfterSave(files: Files, locked: set<string>, ws: seq<Write>, now: nat, k: nat,
                       name: string, shard: DataShard, compression: C.CompressionType)
    requires k < |ws| && Distinct(Names(ws)) && CreateResult(true, locked, name).Ok?
    requires ws[k] == Write(name, ShardBytes(shard, compression))
    requires shard.Table().Fits()
    ensures ShardFromFile(WriteAll(files, true, locked, ws, now), name, compression) == Ok(shard)
  {
    WriteAllLookup(files, true, locked, ws, now, k);
    ShardRoundTrip(shard, []);
  }

  /** After a save in which every file was created, the ms1 shards read back
      in order. */
  lemma Ms1AfterSave(m: CacheManager, files: Files, locked: set<string>, source: Source,
                     ms1: IndexedData, pairs: seq<WindowPair>, now: nat)
    requires Saveable(m, source, ms1, pairs, now)
    requires AllCreatable(true, locked, m.SaveWrites(source, ms1, pairs, now))
    ensures var after := WriteAll(files, true, locked, m.SaveWrites(source, ms1, pairs, now), now);
      var shards := Split(ms1, m.parallelThreads);
      Collect(Ms1Results(after, source.name, m.Metadata(source, |shards|, |pairs|, now))) == Ok(shards)
  {
    var shards := Split(ms1, m.parallelThreads);
    var ws := m.SaveWrites(source, ms1, pairs, now);
    var rs := Ms1Results(WriteAll(files, true, locked, ws, now), source.name, m.Metadata(source, |shards|, |pairs|, now));
    SaveWritesLayout(m, source, ms1, pairs, now);
    SaveNamesDistinct(m, source, ms1, pairs, now);
    forall i | 0 <= i < |shards|
      ensures rs[i] == Ok(shards[i])
    {
      SplitFits(ms1, m.parallelThreads, i);
      ShardAfterSave(files, locked, ws, now, i, ShardName(source.name, MS1_STREAM, i), shards[i], m.compressionType);
    }
    CollectAllOk(rs, shards);
  }

  /** After a save in which every file was created, the windows read back
      in order, each under its key. */
  lemma Ms2AfterSave(m: CacheManager, files: Files, locked: set<string>, source: Source,
                     ms1: IndexedData, pairs: seq<WindowPair>, now: nat)
    requires Saveable(m, source, ms1, pairs, now)
    requires AllCreatable(true, locked, m.SaveWrites(source, ms1, pairs, now))
    ensures var after := WriteAll(files, true, locked, m.SaveWrites(source, ms1, pairs, now), now);
      var shards := Split(ms1, m.parallelThreads);
      Collect(Ms2Results(after, source.name, m.Metadata(source, |shards|, |pairs|, now))) == Ok(pairs)
  {
    var n1 := |Split(ms1, m.parallelThreads)|;
    var after := WriteAll(files, true, locked, m.SaveWrites(source, ms1, pairs, now), now);
    var rs := Ms2Results(after, source.name, m.Metadata(source, n1, |pairs|, now));
    forall i | 0 <= i < |pairs|
      ensures rs[i] == Ok(pairs[i])
    {
      WindowAfterSave(m, files, locked, source, ms1, pairs, now, i);
    }
    CollectAllOk(rs, pairs);
  }

  /** Window `i` of a complete save reads back from its own shard file. */
  lemma WindowAfterSave(m: CacheManager, files: Files, locked: set<string>, source: Source,
                        ms1: IndexedData, pairs: seq<WindowPair>, now: nat, i: nat)
    requires Saveable(m, source, ms1, pairs, now) && i < |pairs|
    requires AllCreatable(true, locked, m.SaveWrites(source, ms1, pairs, now))
    ensures var after := WriteAll(files, true, locked, m.SaveWrites(source, ms1, pairs, now), now);
      AsWindow(ShardFromFile(after, ShardName(source.name, MS2_STREAM, i), m.compressionType)) == Ok(pairs[i])
  {
    var n1 := |Split(ms1, m.parallelThreads)|;
    var ws := m.SaveWrites(source, ms1, pairs, now);
    SaveWritesLayout(m, source, ms1, pairs, now);
    SaveNamesDistinct(m, source, ms1, pairs, now);
    ShardAfterSave(files, locked, ws, now, n1 + i, ShardName(source.name, MS2_STREAM, i), WindowShard(pairs[i]), m.compressionType);
    WindowShardRoundTrip(pairs[i]);
  }

  /** Loading what a save wrote gives back the scan table and the windows,
      when every file of the save was created. */
  lemma SaveThenLoad(m: CacheManager, files: Files, locked: set<string>, source: Source,
                     ms1: IndexedData, pairs: seq<WindowPair>, now: nat)
    requires Saveable(m, source, ms1, pairs, now)
    requires AllCreatable(true, locked, m.SaveWrites(source, ms1, pairs, now))
    ensures Load(WriteAll(files, true, locked, m.SaveWrites(source, ms1, pairs, now), now), source.name)
         == Ok((ms1, pairs))
  {
    SaveWritesLayout(m, source, ms1, pairs, now);
    MetadataAfterSave(m, files, locked, source, ms1, pairs, now);
    Ms1AfterSave(m, files, locked, source, ms1, pairs, now);
    Ms2AfterSave(m, files, locked, source, ms1, pairs, now);
    SplitMergeRoundTrip(ms1, m.parallelThreads);
  }

  /** Once the metadata is written, the cache is valid for a source time
      exactly when that time is no later than the one recorded (the
      source's time at save, or the save time when it had none). */
  lemma ValidAfterSave(m: CacheManager, files: Files, locked: set<string>, source: Source,
                       ms1: IndexedData, pairs: seq<WindowPair>, now: nat, later: Option<nat>)
    requires Saveable(m, source, ms1, pairs, now)
    requires CreateResult(true, locked, MetadataName(source.name)).Ok?
    ensures var after := WriteAll(files, true, locked, m.SaveWrites(source, ms1, pairs, now), now);
      IsCacheValid(after, Source(source.name, later)) <==> later.UnwrapOr(0) <= source.modified.UnwrapOr(now)
  {
    MetadataAfterSave(m, files, locked, source, ms1, pairs, now);
  }

  /** A shard file missing from the directory aborts the load with NotFound
      for the first such shard, re-raised as Other, once every shard before
      it has loaded. */
  lemma MissingShardAbortsLoad(files: Files, source: string, meta: CacheMetadata, k: nat)
    requires MetadataFromFile(files, MetadataName(source)) == Ok(meta)
    requires k < meta.shardCount && ShardName(source, MS1_STREAM, k) !in files
    requires forall i :: 0 <= i < k ==> Ms1Results(files, source, meta)[i].Ok?
    ensures Load(files, source) == Err(Other(NotFound(ShardName(source, MS1_STREAM, k))))
  {
    CollectFirstError(Ms1Results(files, source, meta), k);
  }

  /** An empty or removed cache directory holds no valid cache and loads
      nothing. */
  lemma ClearedCacheIsInvalid(source: Source)
    ensures !IsCacheValid(map[], source)
    ensures Load(map[], source.name) == Err(Other(NotFound(MetadataName(source.name))))
  {
  }

  /** get_cache_info counts a file when its extension is `cache`, under the
      part of its name before the first '.'. */
  function SourceKey(name: string): Option<string> {
    if Extension(name) == Some("cache") then Some(FirstComponent(name)) else None
  }

  /** get_cache_info counts every shard file of a source under the part of
      the source's name before its first '.'. */
  lemma ShardFileCounted(source: string, cacheType: string, shardId: nat)
    ensures SourceKey(ShardName(source, cacheType, shardId)) == Some(FirstComponent(source))
  {
    var stem := source + "." + cacheType + ".shard_" + Decimal(shardId);
    var rest := cacheType + ".shard_" + Decimal(shardId) + ".cache";
    assert ShardName(source, cacheType, shardId) == stem + "." + "cache";
    ExtensionOfSuffix(stem, "cache");
    assert ShardName(source, cacheType, shardId) == source + "." + rest;
    FirstComponentOf(source, rest);
  }

  /** get_cache_info never counts the metadata file. */
  lemma MetadataFileNotCounted(source: string)
    ensures SourceKey(MetadataName(source)) == None
  {
    assert MetadataName(source) == (source + ".meta") + "." + "json";
    ExtensionOfSuffix(source + ".meta", "json");
  }

  /** The first loop of get_cache_info: the size of every `.cache` file in
      the listing, added up under the part of its name before the first '.'. */
  method SumBySource(files: Files, entries: seq<string>) returns (sizes: map<string, nat>)
    requires Distinct(entries) && forall n :: n in entries ==> n in files
    ensures Gathered(files, entries, SourceKey, sizes)
  {
    sizes := map[];
    for i := 0 to |entries|
      invariant Gathered(files, entries[..i], SourceKey, sizes)
    {
      var name := entries[i];
      ghost var seen := entries[..i];
      assert entries[..i + 1] == seen + [name];
      assert name in files;
      var k := SourceKey(name);
      if k.Some? {
        var key := k.value;
        var before := if key in sizes then sizes[key] else 0;
        assert name !in seen;
        GatherAdd(files, seen, SourceKey, name, sizes);
        sizes := sizes[key := before + |files[name].content|];
      } else {
        GatherSkip(files, seen, SourceKey, name, sizes);
      }
    }
    assert entries[..|entries|] == entries;
  }

  /** get_cache_info: one entry per source name, the sizes of its `.cache`
      files summed and cut to 32 bits; nothing when the directory is gone. */
  method GetCacheInfo(fs: FileSystem) returns (info: seq<(string, nat)>)
    ensures !fs.dirExists ==> info == []
    ensures fs.dirExists ==> Listed(info) == AllGroupNames(fs.files, SourceKey)
    ensures forall i, j :: 0 <= i < j < |info| ==> info[i].0 != info[j].0
    ensures forall i :: 0 <= i < |info| ==> info[i].1 == GroupSize(fs.files, SourceKey, info[i].0) % TWO_TO_THE_32
  {
    info := [];
    if !fs.dirExists {
      return;
    }
    var entries := fs.ReadDir();
    var sizes := SumBySource(fs.files, entries);
    GatheredAll(fs.files, entries, SourceKey, sizes);
    info := SizesAsU32(sizes);
  }

  /** The second step of get_cache_info: the map as a list of pairs, each
      total cut to 32 bits (`as u32`). */
  method SizesAsU32(sizes: map<string, nat>) returns (info: seq<(string, nat)>)
    ensures Listed(info) == sizes.Keys
    ensures forall i, j :: 0 <= i < j < |info| ==> info[i].0 != info[j].0
    ensures forall i :: 0 <= i < |info| ==> info[i].0 in sizes && info[i].1 == sizes[info[i].0] % TWO_TO_THE_32
  {
    info := [];
    var keys := sizes.Keys;
    while keys != {}
      invariant keys <= sizes.Keys
      invariant Listed(info) == sizes.Keys - keys
      invariant forall i, j :: 0 <= i < j < |info| ==> info[i].0 != info[j].0
      invariant forall i :: 0 <= i < |info| ==> info[i].0 in sizes && info[i].1 == sizes[info[i].0] % TWO_TO_THE_32
      decreases keys
    {
      var key :| key in keys;
      var next := info + [(key, sizes[key] % TWO_TO_THE_32)];
      assert next[..|info|] == info;
      info := next;
      keys := keys - {key};
    }
  }
}
