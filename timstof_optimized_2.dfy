/** The single-file cache of timstof_optimized_2: like timstof_optimized,
    but always sequential, with the MS1 file never compressed and the MS2
    file compressed by a per-file rule; uncompressed files end in
    `.cache.bin`. */
module TimstofOptimized2 {
  import opened Binary
  import opened Outcomes
  import opened Dataset
  import opened Serialize
  import opened FileStore
  import StreamFile
  import C = Compression

  const CACHE_DIR := ".timstof_cache"
  const MIB: nat := 1024 * 1024
  const MS1_TYPE := "ms1_indexed"
  const MS2_TYPE := "ms2_indexed"

  datatype CacheConfig = CacheConfig(enableCompression: bool, bufferSize: nat, autoCompression: bool)

  /** CacheConfig::default: compression off, 32 MiB buffers, automatic
      compression decisions on. */
  const DEFAULT_CONFIG := CacheConfig(false, 32 * MIB, true)

  /** The first line and the start of the second of the metadata text;
      `stamp` is the clock reading as `{:?}` prints it. */
  function MetaHead(stamp: string): string {
    "cached at: " + stamp + "\nms2_windows: "
  }

  /** The last two lines of the metadata text. */
  function Ms2Lines(ms2Compression: bool): string {
    "ms2_compression: " + BoolText(ms2Compression) + "\nversion: 2.0\n"
  }

  /** The lines after the window count. */
  function MetaTail(ms2Compression: bool): string {
    "\ntype: indexed\nms1_compression: false\n" + Ms2Lines(ms2Compression)
  }

  /** The metadata text. */
  function MetaText(stamp: string, windows: nat, ms2Compression: bool): string {
    MetaHead(stamp) + Decimal(windows) + MetaTail(ms2Compression)
  }

  lemma MetaTailEnds(ms2Compression: bool)
    ensures EndsWith(MetaTail(ms2Compression), Ms2Lines(true)) <==> ms2Compression
  {
    var lines := Ms2Lines(ms2Compression);
    var suffix := Ms2Lines(true);
    EndsWithConcat("\ntype: indexed\nms1_compression: false\n", lines, suffix);
    if !ms2Compression {
      assert lines[|lines| - |suffix|..][0] == 's' != suffix[0];
    }
  }

  /** The metadata text records the window count on its `ms2_windows` line
      and whether the MS2 file is compressed on its `ms2_compression` line. */
  lemma MetaTextRecords(stamp: string, windows: nat, ms2Compression: bool)
    ensures var text := MetaText(stamp, windows, ms2Compression);
      var head := MetaHead(stamp);
      && text[..|head|] == head
      && ParseDecimal(LeadingDigits(text[|head|..])) == windows
      && (EndsWith(text, Ms2Lines(true)) <==> ms2Compression)
  {
    var tail := MetaTail(ms2Compression);
    ReadNumberAfter(MetaHead(stamp), windows, tail);
    MetaTailEnds(ms2Compression);
    EndsWithConcat(MetaHead(stamp) + Decimal(windows), tail, Ms2Lines(true));
  }

  /** lz4_flex's frame encoder buffers up to one 64 KiB block before it
      compresses and writes it. */
  const LZ4_BLOCK: nat := 65536

  /** The bytes of `n` the frame encoder has written out before it is
      finished: every whole block but the one still buffered. */
  function Flushed(n: nat): (k: nat)
    ensures k <= n && (n >= 1 ==> k < n)
  {
    if n == 0 then 0 else (n - 1) / LZ4_BLOCK * LZ4_BLOCK
  }

  /** save_data_to_file as written: the compressing branch drops the frame
      encoder without finish(), so the buffered last block and the end mark
      never reach the file. */
  function UnfinishedStored(data: Bytes, compress: bool): Bytes {
    if compress then C.Lz4Encode(data[..Flushed(|data|)]) else data
  }

  /** `{prefix}.cache.{ext}` is a cache file, and its name ends in `.lz4`
      exactly when `ext` is `lz4`. */
  lemma CacheFileName(prefix: string, ext: string)
    requires ext == "lz4" || ext == "bin"
    ensures IsCacheFile(prefix + ".cache." + ext)
    ensures EndsWith(prefix + ".cache." + ext, ".lz4") <==> ext == "lz4"
  {
    var tail := ".cache." + ext;
    assert prefix + ".cache." + ext == prefix + tail;
    EndsWithConcat(prefix, tail, tail);
    EndsWithConcat(prefix, tail, ".lz4");
    if ext == "lz4" {
      assert tail[6..] == ".lz4";
    } else {
      assert tail[9] == 'n';
    }
  }

  /** The extension of `{prefix}.cache.{ext}` is `ext`. */
  lemma CacheFileExtension(prefix: string, ext: string)
    requires ext == "lz4" || ext == "bin"
    ensures Extension(prefix + ".cache." + ext) == Some(ext)
  {
    assert prefix + ".cache." + ext == (prefix + ".cache") + "." + ext;
    ExtensionOfSuffix(prefix + ".cache", ext);
  }

  datatype CacheManager = CacheManager(config: CacheConfig) {
    /** should_compress_file: without automatic decisions the setting
        decides; with them only the MS2 file is compressed. */
    function ShouldCompressFile(cacheType: string): (r: bool)
      ensures r ==> config.enableCompression || config.autoCompression
      ensures config.autoCompression ==> (r <==> cacheType == MS2_TYPE)
    {
      if !config.autoCompression then config.enableCompression else cacheType == MS2_TYPE
    }

    /** get_cache_path: `{source}.{type}.cache.lz4` for a compressed file,
        `{source}.{type}.cache.bin` otherwise. get_cache_info counts the
        file, and its name ends in `.lz4` exactly when it is compressed. */
    function CachePath(source: string, cacheType: string): (r: string)
      ensures IsCacheFile(r)
      ensures EndsWith(r, ".lz4") <==> ShouldCompressFile(cacheType)
    {
      var ext := if ShouldCompressFile(cacheType) then "lz4" else "bin";
      CacheFileName(source + "." + cacheType, ext);
      source + "." + cacheType + ".cache." + ext
    }

    /** get_metadata_path: `{source}.meta`. */
    function MetadataPath(source: string): string {
      source + ".meta"
    }

    /** The three files a save writes, in order. The MS1 file is stored
        uncompressed whatever its name says. */
    function SaveWrites(source: string, ms1: IndexedData, pairs: seq<WindowPair>, stamp: string): seq<Write> {
      var compress := ShouldCompressFile(MS2_TYPE);
      [ Write(CachePath(source, MS1_TYPE), StreamFile.Stored(EncodeData(ms1, []), false)),
        Write(CachePath(source, MS2_TYPE), StreamFile.Stored(EncodePairs(pairs, []), compress)),
        Write(MetadataPath(source), Ascii(MetaText(stamp, |pairs|, compress))) ]
    }

    /** The same three writes as the source makes them, with the MS2 frame
        left unfinished. */
    function AsWrittenSaveWrites(source: string, ms1: IndexedData, pairs: seq<WindowPair>, stamp: string): seq<Write> {
      var compress := ShouldCompressFile(MS2_TYPE);
      [ Write(CachePath(source, MS1_TYPE), StreamFile.Stored(EncodeData(ms1, []), false)),
        Write(CachePath(source, MS2_TYPE), UnfinishedStored(EncodePairs(pairs, []), compress)),
        Write(MetadataPath(source), Ascii(MetaText(stamp, |pairs|, compress))) ]
    }

    /** is_cache_valid: all three files exist and the MS1 file is strictly
        newer than the source; a missing time counts as the epoch. */
    predicate IsCacheValid(files: Files, source: Source)
      ensures (forall n :: n in files ==> files[n].modified <= source.modified.UnwrapOr(0)) ==> !IsCacheValid(files, source)
    {
      var ms1 := CachePath(source.name, MS1_TYPE);
      && ms1 in files && CachePath(source.name, MS2_TYPE) in files && MetadataPath(source.name) in files
      && files[ms1].modified > source.modified.UnwrapOr(0)
    }

    /** load_indexed_data decides from the MS2 path's extension whether to
        decompress; that extension is `lz4` exactly when save compressed the
        file. */
    function Ms2Compressed(source: string): (r: bool)
      ensures r <==> ShouldCompressFile(MS2_TYPE)
    {
      CacheFileExtension(source + "." + MS2_TYPE, if ShouldCompressFile(MS2_TYPE) then "lz4" else "bin");
      Extension(CachePath(source, MS2_TYPE)) == Some("lz4")
    }

    function LoadMs1(files: Files, source: string): Result<IndexedData> {
      var name := CachePath(source, MS1_TYPE);
      StreamFile.Decoded(ReadResult(files, name), name, false, DecodeData)
    }

    function LoadMs2(files: Files, source: string): Result<seq<WindowPair>> {
      var name := CachePath(source, MS2_TYPE);
      StreamFile.Decoded(ReadResult(files, name), name, Ms2Compressed(source), DecodePairs)
    }

    /** What load_indexed_data returns: the MS1 error first, then the MS2
        error, else both values. */
    function Load(files: Files, source: string): (r: Result<(IndexedData, seq<WindowPair>)>)
      ensures r.Ok? <==> LoadMs1(files, source).Ok? && LoadMs2(files, source).Ok?
      ensures r.Ok? ==> r.value == (LoadMs1(files, source).value, LoadMs2(files, source).value)
      ensures LoadMs1(files, source).Err? ==> r == Err(LoadMs1(files, source).error)
    {
      var ms1 := LoadMs1(files, source);
      if ms1.Err? then Err(ms1.error)
      else
        var ms2 := LoadMs2(files, source);
        if ms2.Err? then Err(ms2.error) else Ok((ms1.value, ms2.value))
    }

    /** configure_for_threads: 16 MiB of buffer for one thread, 32 MiB for
        two to four, 64 MiB otherwise; automatic compression from two
        threads on. */
    function ConfigureForThreads(threadCount: nat): (r: CacheManager)
      ensures r.config.enableCompression == config.enableCompression
      ensures r.config.autoCompression <==> threadCount > 1
      ensures r.config.bufferSize in {16 * MIB, 32 * MIB, 64 * MIB}
      ensures threadCount == 1 <==> r.config.bufferSize == 16 * MIB
      ensures 2 <= threadCount <= 4 <==> r.config.bufferSize == 32 * MIB
    {
      var size := if threadCount == 1 then 16 * MIB else if 2 <= threadCount <= 4 then 32 * MIB else 64 * MIB;
      CacheManager(config.(bufferSize := size, autoCompression := threadCount > 1))
    }

    /** save_indexed_data: MS1 uncompressed, MS2 as should_compress_file
        says, then the metadata, each returning at its error (`?`). The MS2
        frame is finished here, as evidently intended; the frame the source
        leaves unfinished is AsWrittenSaveWrites. */
    method SaveIndexedData(fs: FileSystem, source: Source, ms1: IndexedData, pairs: seq<WindowPair>,
                           stamp: string, now: nat) returns (r: Result<()>)
      requires fs.Valid()
      modifies fs
      ensures fs.Valid()
      ensures fs.dirExists == old(fs.dirExists)
      ensures var plan := SaveWrites(source.name, ms1, pairs, stamp);
        && r == FirstError(fs.dirExists, fs.locked, plan)
        && fs.files == WriteAll(old(fs.files), fs.dirExists, fs.locked, plan[..FirstFailure(fs.dirExists, fs.locked, plan)], now)
    {
      var plan := SaveWrites(source.name, ms1, pairs, stamp);
      ghost var start := fs.files;
      FirstOfThree(fs.dirExists, fs.locked, plan[0], plan[1], plan[2]);
      ThreeElements(plan);
      var useCompression := ShouldCompressFile(MS2_TYPE);
      r := StreamFile.SaveDataToFile(fs, plan[0].name, EncodeData(ms1, []), false, now);
      if r.Err? {
        assert plan[..0] == [];
        return;
      }
      assert plan[..1] == [plan[0]];
      r := StreamFile.SaveDataToFile(fs, plan[1].name, EncodePairs(pairs, []), useCompression, now);
      WriteAllConcat(start, fs.dirExists, fs.locked, [plan[0]], [plan[1]], now);
      if r.Err? {
        return;
      }
      assert plan[..2] == [plan[0]] + [plan[1]];
      r := fs.Create(plan[2].name, plan[2].content, now);
      WriteAllConcat(start, fs.dirExists, fs.locked, [plan[0], plan[1]], [plan[2]], now);
      assert plan[..3] == [plan[0], plan[1]] + [plan[2]];
    }

    /** save_indexed_data as evidently intended, with the metadata file as the
        mark of a finished save: the old metadata file is removed first, and
        the save then writes the new one only after both data files. A save
        that fails therefore leaves no valid cache, and one that succeeds
        leaves the same files as SaveIndexedData. */
    method SaveCommittingLast(fs: FileSystem, source: Source, ms1: IndexedData, pairs: seq<WindowPair>,
                                stamp: string, now: nat) returns (r: Result<()>)
      requires fs.Valid()
      modifies fs
      ensures fs.Valid()
      ensures fs.dirExists == old(fs.dirExists)
      ensures r == FirstError(fs.dirExists, fs.locked, SaveWrites(source.name, ms1, pairs, stamp))
      ensures var plan := SaveWrites(source.name, ms1, pairs, stamp);
        fs.files == WriteAll(old(fs.files) - {MetadataPath(source.name)}, fs.dirExists, fs.locked,
                             plan[..FirstFailure(fs.dirExists, fs.locked, plan)], now)
      ensures r.Ok? ==> fs.files == WriteAll(old(fs.files), fs.dirExists, fs.locked, SaveWrites(source.name, ms1, pairs, stamp), now)
      ensures r.Err? ==> forall t: Option<nat> :: !IsCacheValid(fs.files, Source(source.name, t))
    {
      ghost var start := fs.files;
      var metaPath := MetadataPath(source.name);
      fs.Remove(metaPath);
      r := SaveIndexedData(fs, source, ms1, pairs, stamp, now);
      ghost var plan := SaveWrites(source.name, ms1, pairs, stamp);
      ghost var k := FirstFailure(fs.dirExists, fs.locked, plan);
      if r.Ok? {
        assert plan[..k] == plan && Names(plan)[2] == metaPath;
        WriteAllAfterRemove(start, fs.dirExists, fs.locked, plan, now, metaPath);
      } else {
        SaveNamesDistinct(this, source.name, plan);
        assert forall i :: 0 <= i < k ==> Names(plan[..k])[i] == plan[i].name;
        WriteAllOutside(start - {metaPath}, fs.dirExists, fs.locked, plan[..k], now, metaPath);
      }
    }

    /** load_indexed_data: MS1 read raw, then MS2 decompressed when its
        path ends in `.lz4`; each read returns at its error. What a save
        wrote loads back (SaveThenLoad). */
    method LoadIndexedData(fs: FileSystem, source: string) returns (r: Result<(IndexedData, seq<WindowPair>)>)
      ensures r == Load(fs.files, source)
    {
      var ms1 := StreamFile.LoadDataFromFile(fs, CachePath(source, MS1_TYPE), false, DecodeData);
      if ms1.Err? {
        return Err(ms1.error);
      }
      var ms2Path := CachePath(source, MS2_TYPE);
      var useCompression := Extension(ms2Path) == Some("lz4");
      var ms2 := StreamFile.LoadDataFromFile(fs, ms2Path, useCompression, DecodePairs);
      if ms2.Err? {
        return Err(ms2.error);
      }
      r := Ok((ms1.value, ms2.value));
    }
  }

  /** with_config: the cache directory is created (`new` passes the
      default configuration). */
  method WithConfig(fs: FileSystem, config: CacheConfig) returns (m: CacheManager)
    requires fs.Valid()
    modifies fs
    ensures fs.Valid()
    ensures m.config == config
    ensures fs.dirExists && fs.files == old(fs.files)
  {
    fs.CreateDirAll();
    m := CacheManager(config);
  }

  /** With two or more threads the MS2 file is compressed and the MS1 file
      is not; with fewer the configured setting decides both. */
  lemma ThreadsDecideCompression(m: CacheManager, threadCount: nat)
    ensures var r := m.ConfigureForThreads(threadCount);
      && (threadCount > 1 ==> r.ShouldCompressFile(MS2_TYPE) && !r.ShouldCompressFile(MS1_TYPE))
      && (threadCount <= 1 ==> r.ShouldCompressFile(MS1_TYPE) == r.ShouldCompressFile(MS2_TYPE) == m.config.enableCompression)
  {
  }

  /** The default manager stores the MS1 file raw and compresses the MS2
      file: compression is off, but automatic decisions are on. */
  lemma DefaultManager(source: string)
    ensures var m := CacheManager(DEFAULT_CONFIG);
      !EndsWith(m.CachePath(source, MS1_TYPE), ".lz4") && m.Ms2Compressed(source)
  {
  }

  /** From one thread on, more threads never mean a smaller buffer. */
  lemma BufferGrowsWithThreads(m: CacheManager, fewer: nat, more: nat)
    requires 1 <= fewer <= more
    ensures m.ConfigureForThreads(fewer).config.bufferSize <= m.ConfigureForThreads(more).config.bufferSize
  {
  }

  /** The three files of a save have three different names. */
  lemma SaveNamesDistinct(m: CacheManager, source: string, plan: seq<Write>)
    requires |plan| == 3
    requires plan[0].name == m.CachePath(source, MS1_TYPE) && plan[1].name == m.CachePath(source, MS2_TYPE)
    requires plan[2].name == m.MetadataPath(source)
    ensures Distinct(Names(plan))
  {
    PathsDistinct(m, source);
    DistinctThree(Names(plan));
  }

  /** The MS1, MS2 and metadata paths of one source are three different files. */
  lemma PathsDistinct(m: CacheManager, source: string)
    ensures m.CachePath(source, MS1_TYPE) != m.CachePath(source, MS2_TYPE)
    ensures m.CachePath(source, MS1_TYPE) != m.MetadataPath(source)
    ensures m.CachePath(source, MS2_TYPE) != m.MetadataPath(source)
  {
    var a, b, c := m.CachePath(source, MS1_TYPE), m.CachePath(source, MS2_TYPE), m.MetadataPath(source);
    assert a != b by {
      CachePathChar(m, source, MS1_TYPE, 2);
      CachePathChar(m, source, MS2_TYPE, 2);
    }
    assert c[|source| + 2] == 'e';
    assert a != c by {
      CachePathChar(m, source, MS1_TYPE, 1);
    }
    assert b != c by {
      CachePathChar(m, source, MS2_TYPE, 1);
    }
  }

  /** A cache path starts with the source name, a dot and the file's type. */
  lemma CachePathChar(m: CacheManager, source: string, cacheType: string, i: nat)
    requires i < |cacheType|
    ensures var r := m.CachePath(source, cacheType);
      |source| + 1 + i < |r| && r[|source| + 1 + i] == cacheType[i]
  {
    var ext := if m.ShouldCompressFile(cacheType) then "lz4" else "bin";
    var r := m.CachePath(source, cacheType);
    assert r == (source + "." + cacheType) + (".cache." + ext);
  }

  /** The file at position `k` of a save reads back as what was written. */
  lemma ReadAfterSave(m: CacheManager, files: Files, locked: set<string>, source: string,
                      ms1: IndexedData, pairs: seq<WindowPair>, stamp: string, now: nat, k: nat)
    requires k < 3 && AllCreatable(true, locked, m.SaveWrites(source, ms1, pairs, stamp))
    ensures var plan := m.SaveWrites(source, ms1, pairs, stamp);
      ReadResult(WriteAll(files, true, locked, plan, now), plan[k].name) == Ok(plan[k].content)
  {
    var plan := m.SaveWrites(source, ms1, pairs, stamp);
    SaveNamesDistinct(m, source, plan);
    WriteAllLookup(files, true, locked, plan, now, k);
  }

  lemma Ms1AfterSave(m: CacheManager, files: Files, locked: set<string>, source: string,
                     ms1: IndexedData, pairs: seq<WindowPair>, stamp: string, now: nat)
    requires ms1.Fits()
    requires AllCreatable(true, locked, m.SaveWrites(source, ms1, pairs, stamp))
    ensures m.LoadMs1(WriteAll(files, true, locked, m.SaveWrites(source, ms1, pairs, stamp), now), source) == Ok(ms1)
  {
    ReadAfterSave(m, files, locked, source, ms1, pairs, stamp, now, 0);
    DataRoundTrip(ms1, []);
    StreamFile.StoredThenDecoded(EncodeData(ms1, []), m.CachePath(source, MS1_TYPE), false, DecodeData, ms1, []);
  }

  lemma Ms2AfterSave(m: CacheManager, files: Files, locked: set<string>, source: string,
                     ms1: IndexedData, pairs: seq<WindowPair>, stamp: string, now: nat)
    requires PairsFit(pairs)
    requires AllCreatable(true, locked, m.SaveWrites(source, ms1, pairs, stamp))
    ensures m.LoadMs2(WriteAll(files, true, locked, m.SaveWrites(source, ms1, pairs, stamp), now), source) == Ok(pairs)
  {
    ReadAfterSave(m, files, locked, source, ms1, pairs, stamp, now, 1);
    PairsRoundTrip(pairs, []);
    StreamFile.StoredThenDecoded(EncodePairs(pairs, []), m.CachePath(source, MS2_TYPE), m.ShouldCompressFile(MS2_TYPE),
                                 DecodePairs, pairs, []);
  }

  /** Loading what a save with a finished frame wrote gives back both
      values, when every file was created, whatever the configuration. */
  lemma SaveThenLoad(m: CacheManager, files: Files, locked: set<string>, source: string,
                     ms1: IndexedData, pairs: seq<WindowPair>, stamp: string, now: nat)
    requires ms1.Fits() && PairsFit(pairs)
    requires AllCreatable(true, locked, m.SaveWrites(source, ms1, pairs, stamp))
    ensures m.Load(WriteAll(files, true, locked, m.SaveWrites(source, ms1, pairs, stamp), now), source) == Ok((ms1, pairs))
  {
    Ms1AfterSave(m, files, locked, source, ms1, pairs, stamp, now);
    Ms2AfterSave(m, files, locked, source, ms1, pairs, stamp, now);
  }

  /** As written, a manager that compresses the MS2 file cannot load it
      back: the unfinished encoder never writes out the last block, so the
      MS2 frame holds a strict prefix of the encoded windows, and the load
      reports that file corrupt. */
  lemma UnfinishedFrameLosesWindows(m: CacheManager, files: Files, locked: set<string>, source: string,
                                    ms1: IndexedData, pairs: seq<WindowPair>, stamp: string, now: nat)
    requires ms1.Fits() && PairsFit(pairs) && m.ShouldCompressFile(MS2_TYPE)
    requires AllCreatable(true, locked, m.AsWrittenSaveWrites(source, ms1, pairs, stamp))
    ensures m.Load(WriteAll(files, true, locked, m.AsWrittenSaveWrites(source, ms1, pairs, stamp), now), source)
         == Err(Corrupt(m.CachePath(source, MS2_TYPE)))
  {
    var plan := m.AsWrittenSaveWrites(source, ms1, pairs, stamp);
    var after := WriteAll(files, true, locked, plan, now);
    SaveNamesDistinct(m, source, plan);
    WriteAllLookup(files, true, locked, plan, now, 0);
    WriteAllLookup(files, true, locked, plan, now, 1);
    assert m.LoadMs1(after, source) == Ok(ms1) by {
      DataRoundTrip(ms1, []);
      StreamFile.StoredThenDecoded(EncodeData(ms1, []), m.CachePath(source, MS1_TYPE), false, DecodeData, ms1, []);
    }
    UnfinishedMs2Corrupt(m, after, source, pairs);
  }

  /** An MS2 file holding the unfinished frame of a window list holds the
      encoding cut short, which does not decode to a list. */
  lemma UnfinishedMs2Corrupt(m: CacheManager, files: Files, source: string, pairs: seq<WindowPair>)
    requires m.ShouldCompressFile(MS2_TYPE) && PairsFit(pairs)
    requires m.CachePath(source, MS2_TYPE) in files
    requires files[m.CachePath(source, MS2_TYPE)].content == UnfinishedStored(EncodePairs(pairs, []), true)
    ensures m.LoadMs2(files, source) == Err(Corrupt(m.CachePath(source, MS2_TYPE)))
  {
    var encoded := EncodePairs(pairs, []);
    var k := Flushed(|encoded|);
    assert |encoded| >= 8;
    PairsPrefixRefused(pairs, k);
    assert C.Lz4Decode(UnfinishedStored(encoded, true)) == Some(encoded[..k]);
  }

  /** After a save in which every file was created, the cache is valid
      exactly for source times strictly before the save. */
  lemma ValidAfterSave(m: CacheManager, files: Files, locked: set<string>, source: string,
                       ms1: IndexedData, pairs: seq<WindowPair>, stamp: string, now: nat, modified: Option<nat>)
    requires AllCreatable(true, locked, m.SaveWrites(source, ms1, pairs, stamp))
    ensures var after := WriteAll(files, true, locked, m.SaveWrites(source, ms1, pairs, stamp), now);
      m.IsCacheValid(after, Source(source, modified)) <==> modified.UnwrapOr(0) < now
  {
    ReadAfterSave(m, files, locked, source, ms1, pairs, stamp, now, 0);
    ReadAfterSave(m, files, locked, source, ms1, pairs, stamp, now, 1);
    ReadAfterSave(m, files, locked, source, ms1, pairs, stamp, now, 2);
    var plan := m.SaveWrites(source, ms1, pairs, stamp);
    SaveNamesDistinct(m, source, plan);
    WriteAllLookup(files, true, locked, plan, now, 0);
  }

  /** The first save of a source, into a directory without its metadata
      file: a save that fails never reaches the metadata file, so the cache
      stays invalid. Over an older cache this no longer holds
      (StaleWindowsSurviveFailedSave); SaveCommittingLast makes it hold
      there too. */
  lemma FailedSaveInvalid(m: CacheManager, files: Files, dirExists: bool, locked: set<string>,
                          source: Source, ms1: IndexedData, pairs: seq<WindowPair>, stamp: string, now: nat)
    requires m.MetadataPath(source.name) !in files
    requires FirstError(dirExists, locked, m.SaveWrites(source.name, ms1, pairs, stamp)).Err?
    ensures var plan := m.SaveWrites(source.name, ms1, pairs, stamp);
      !m.IsCacheValid(WriteAll(files, dirExists, locked, plan[..FirstFailure(dirExists, locked, plan)], now), source)
  {
    var plan := m.SaveWrites(source.name, ms1, pairs, stamp);
    var k := FirstFailure(dirExists, locked, plan);
    SaveNamesDistinct(m, source.name, plan);
    assert forall i :: 0 <= i < k ==> Names(plan[..k])[i] == plan[i].name;
    WriteAllOutside(files, dirExists, locked, plan[..k], now, m.MetadataPath(source.name));
  }

  /** A cache saved as written at `saved` is invalid for a source modified
      since, all three of its files are in place, and its MS2 file loads
      back when it is stored raw. */
  lemma OlderCache(m: CacheManager, source: string, oldMs1: IndexedData, oldPairs: seq<WindowPair>, oldStamp: string,
                   saved: nat, modified: nat)
    requires PairsFit(oldPairs) && saved <= modified
    ensures var before := WriteAll(map[], true, {}, m.AsWrittenSaveWrites(source, oldMs1, oldPairs, oldStamp), saved);
      && !m.IsCacheValid(before, Source(source, Some(modified)))
      && m.CachePath(source, MS2_TYPE) in before && m.MetadataPath(source) in before
      && before[m.CachePath(source, MS2_TYPE)].content == UnfinishedStored(EncodePairs(oldPairs, []), m.ShouldCompressFile(MS2_TYPE))
      && (!m.ShouldCompressFile(MS2_TYPE) ==> m.LoadMs2(before, source) == Ok(oldPairs))
  {
    var oldPlan := m.AsWrittenSaveWrites(source, oldMs1, oldPairs, oldStamp);
    SaveNamesDistinct(m, source, oldPlan);
    WriteAllLookup(map[], true, {}, oldPlan, saved, 0);
    WriteAllLookup(map[], true, {}, oldPlan, saved, 1);
    WriteAllLookup(map[], true, {}, oldPlan, saved, 2);
    if !m.ShouldCompressFile(MS2_TYPE) {
      RawAsWritten(m, source, oldMs1, oldPairs, oldStamp);
      Ms2AfterSave(m, map[], {}, source, oldMs1, oldPairs, oldStamp, saved);
    }
  }

  /** With MS2 stored raw the source's save and the corrected one write the
      same files. */
  lemma RawAsWritten(m: CacheManager, source: string, ms1: IndexedData, pairs: seq<WindowPair>, stamp: string)
    requires !m.ShouldCompressFile(MS2_TYPE)
    ensures m.AsWrittenSaveWrites(source, ms1, pairs, stamp) == m.SaveWrites(source, ms1, pairs, stamp)
  {
  }

  /** A save whose MS2 file cannot be created stops after the MS1 file,
      which the source's save and the corrected one write alike. */
  lemma AsWrittenFailsAlike(m: CacheManager, source: string, ms1: IndexedData, pairs: seq<WindowPair>, stamp: string)
    ensures var locked := {m.CachePath(source, MS2_TYPE)};
      var asWritten, corrected := m.AsWrittenSaveWrites(source, ms1, pairs, stamp), m.SaveWrites(source, ms1, pairs, stamp);
      && FirstError(true, locked, asWritten) == FirstError(true, locked, corrected)
      && asWritten[..FirstFailure(true, locked, asWritten)] == corrected[..FirstFailure(true, locked, corrected)]
  {
    var locked := {m.CachePath(source, MS2_TYPE)};
    var asWritten, corrected := m.AsWrittenSaveWrites(source, ms1, pairs, stamp), m.SaveWrites(source, ms1, pairs, stamp);
    FirstOfThree(true, locked, asWritten[0], asWritten[1], asWritten[2]);
    FirstOfThree(true, locked, corrected[0], corrected[1], corrected[2]);
    ThreeElements(asWritten);
    ThreeElements(corrected);
    assert asWritten[..1] == [asWritten[0]] == [corrected[0]] == corrected[..1];
  }

  /** What save_indexed_data does not guard against. Over an older cache of
      the same source, a save whose MS2 file cannot be created still
      replaces the MS1 file and reports the error. The MS1 file is now
      newer than the source, so the cache turns valid in every
      configuration. With MS2 stored raw it loads the new scan table with
      the old windows; a compressed MS2 file, left unfinished by the source,
      is reported corrupt instead. */
  lemma StaleWindowsSurviveFailedSave(m: CacheManager, source: string,
                                      oldMs1: IndexedData, oldPairs: seq<WindowPair>, oldStamp: string, saved: nat,
                                      ms1: IndexedData, pairs: seq<WindowPair>, stamp: string, modified: nat, now: nat)
    requires ms1.Fits() && PairsFit(oldPairs)
    requires saved <= modified < now
    ensures var before := WriteAll(map[], true, {}, m.AsWrittenSaveWrites(source, oldMs1, oldPairs, oldStamp), saved);
      var locked := {m.CachePath(source, MS2_TYPE)};
      var plan := m.AsWrittenSaveWrites(source, ms1, pairs, stamp);
      var after := WriteAll(before, true, locked, plan[..FirstFailure(true, locked, plan)], now);
      && !m.IsCacheValid(before, Source(source, Some(modified)))
      && FirstError(true, locked, plan) == Err(PermissionDenied(m.CachePath(source, MS2_TYPE)))
      && m.IsCacheValid(after, Source(source, Some(modified)))
      && (!m.ShouldCompressFile(MS2_TYPE) ==> m.Load(after, source) == Ok((ms1, oldPairs)))
      && (m.ShouldCompressFile(MS2_TYPE) ==> m.Load(after, source) == Err(Corrupt(m.CachePath(source, MS2_TYPE))))
  {
    var before := WriteAll(map[], true, {}, m.AsWrittenSaveWrites(source, oldMs1, oldPairs, oldStamp), saved);
    var locked := {m.CachePath(source, MS2_TYPE)};
    var plan := m.SaveWrites(source, ms1, pairs, stamp);
    var after := WriteAll(before, true, locked, plan[..FirstFailure(true, locked, plan)], now);
    var ms1Path, ms2Path := m.CachePath(source, MS1_TYPE), m.CachePath(source, MS2_TYPE);
    OlderCache(m, source, oldMs1, oldPairs, oldStamp, saved, modified);
    AsWrittenFailsAlike(m, source, ms1, pairs, stamp);
    FailedSaveEffect(m, source, before, ms1, pairs, stamp, now);
    assert m.LoadMs1(after, source) == Ok(ms1) by {
      DataRoundTrip(ms1, []);
      StreamFile.StoredThenDecoded(EncodeData(ms1, []), ms1Path, false, DecodeData, ms1, []);
    }
    assert ReadResult(after, ms2Path) == ReadResult(before, ms2Path);
    if m.ShouldCompressFile(MS2_TYPE) {
      UnfinishedMs2Corrupt(m, after, source, oldPairs);
    }
  }

  /** A save whose MS2 file cannot be created: it reports that error, it
      writes the MS1 file, and the MS2 and metadata files keep what they
      held. */
  lemma FailedSaveEffect(m: CacheManager, source: string, before: Files,
                         ms1: IndexedData, pairs: seq<WindowPair>, stamp: string, now: nat)
    ensures var ms1Path, ms2Path := m.CachePath(source, MS1_TYPE), m.CachePath(source, MS2_TYPE);
      var locked := {ms2Path};
      var plan := m.SaveWrites(source, ms1, pairs, stamp);
      var after := WriteAll(before, true, locked, plan[..FirstFailure(true, locked, plan)], now);
      && FirstError(true, locked, plan) == Err(PermissionDenied(ms2Path))
      && ms1Path in after && after[ms1Path] == Entry(plan[0].content, now)
      && (ms2Path in after <==> ms2Path in before) && (ms2Path in before ==> after[ms2Path] == before[ms2Path])
      && (m.MetadataPath(source) in after <==> m.MetadataPath(source) in before)
  {
    var locked := {m.CachePath(source, MS2_TYPE)};
    var plan := m.SaveWrites(source, ms1, pairs, stamp);
    var ms1Path, ms2Path, metaPath := m.CachePath(source, MS1_TYPE), m.CachePath(source, MS2_TYPE), m.MetadataPath(source);
    SaveNamesDistinct(m, source, plan);
    PathsDistinct(m, source);
    FirstOfThree(true, locked, plan[0], plan[1], plan[2]);
    ThreeElements(plan);
    var written := plan[..1];
    assert written == [plan[0]];
    assert Names(written) == [ms1Path];
    WriteAllLookup(before, true, locked, written, now, 0);
    WriteAllRefused(before, true, locked, written, now, ms2Path);
    WriteAllOutside(before, true, locked, written, now, metaPath);
  }

  /** With no cache files nothing is valid, and loading reports the missing
      MS1 file. */
  lemma EmptyCacheInvalid(m: CacheManager, source: Source)
    ensures !m.IsCacheValid(map[], source)
    ensures m.Load(map[], source.name) == Err(NotFound(m.CachePath(source.name, MS1_TYPE)))
  {
  }

  /** get_cache_info keeps a file whose name ends in `.cache.bin`,
      `.cache.lz4` or `.cache`. */
  predicate IsCacheFile(name: string) {
    EndsWith(name, ".cache.bin") || EndsWith(name, ".cache.lz4") || EndsWith(name, ".cache")
  }

  /** get_cache_info never counts the metadata file. */
  lemma MetadataFileNotCounted(m: CacheManager, source: string)
    ensures !IsCacheFile(m.MetadataPath(source))
  {
    var r := m.MetadataPath(source);
    assert r[|r| - 1] == 'a';
  }

  /** get_cache_info: every cache file once, with its size cut to 32 bits;
      nothing when the directory is gone. */
  method GetCacheInfo(fs: FileSystem) returns (info: seq<(string, nat)>)
    ensures !fs.dirExists ==> info == []
    ensures fs.dirExists ==> Listed(info) == set n | n in fs.files && IsCacheFile(n)
    ensures forall i, j :: 0 <= i < j < |info| ==> info[i].0 != info[j].0
    ensures forall i :: 0 <= i < |info| ==>
      info[i].0 in fs.files && IsCacheFile(info[i].0) && info[i].1 == |fs.files[info[i].0].content| % TWO_TO_THE_32
  {
    info := [];
    if fs.dirExists {
      var entries := fs.ReadDir();
      info := FileSizes(fs.files, entries, IsCacheFile);
      assert Kept(entries, IsCacheFile) == set n | n in fs.files && IsCacheFile(n);
    }
  }

  /** clear_cache: the directory goes, with every file in it; a missing
      directory is left as it is. Afterwards no manager finds a valid cache
      for any source. */
  method ClearCache(fs: FileSystem) returns (r: Result<()>)
    requires fs.Valid()
    modifies fs
    ensures fs.Valid()
    ensures r == Ok(()) && !fs.dirExists && fs.files == map[]
    ensures forall m: CacheManager, s: Source :: !m.IsCacheValid(fs.files, s)
  {
    if fs.dirExists {
      fs.RemoveDirAll();
    }
    r := Ok(());
  }
}
