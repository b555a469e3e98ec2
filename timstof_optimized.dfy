/** The single-file cache of timstof_optimized: the MS1 table in one file,
    the MS2 windows in another, and a text metadata file beside them, all
    in `.timstof_cache`, written by three parallel writers or one after
    another. */
module TimstofOptimized {
  import opened Binary
  import opened Outcomes
  import opened Dataset
  import opened Serialize
  import opened FileStore
  import StreamFile

  const CACHE_DIR := ".timstof_cache"
  const MIB: nat := 1024 * 1024
  const MS1_TYPE := "ms1_indexed"
  const MS2_TYPE := "ms2_indexed"

  datatype CacheConfig = CacheConfig(enableCompression: bool, compressionLevel: nat, bufferSize: nat, parallelIo: bool)

  /** CacheConfig::default: LZ4 at level 4, 128 MiB buffers, parallel I/O. */
  const DEFAULT_CONFIG := CacheConfig(true, 4, 128 * MIB, true)

  /** The first line and the start of the second of the metadata text;
      `stamp` is the clock reading as `{:?}` prints it. */
  function MetaHead(stamp: string): string {
    "cached at: " + stamp + "\nms2_windows: "
  }

  /** The lines after the window count. */
  function MetaTail(compression: bool): string {
    "\ntype: indexed\n" + "compression: " + BoolText(compression) + "\n"
  }

  /** The metadata text. */
  function MetaText(stamp: string, windows: nat, compression: bool): string {
    MetaHead(stamp) + Decimal(windows) + MetaTail(compression)
  }

  lemma MetaTailEnds(compression: bool)
    ensures EndsWith(MetaTail(compression), "compression: true\n") <==> compression
  {
    var tail := MetaTail(compression);
    if !compression {
      assert tail[|tail| - 18] == 'o';
    }
  }

  /** The metadata text records the window count on its `ms2_windows` line
      and the compression setting on its last line. */
  lemma MetaTextRecords(stamp: string, windows: nat, compression: bool)
    ensures var text := MetaText(stamp, windows, compression);
      var head := MetaHead(stamp);
      && text[..|head|] == head
      && ParseDecimal(LeadingDigits(text[|head|..])) == windows
      && (EndsWith(text, "compression: true\n") <==> compression)
  {
    var tail := MetaTail(compression);
    ReadNumberAfter(MetaHead(stamp), windows, tail);
    MetaTailEnds(compression);
    EndsWithConcat(MetaHead(stamp) + Decimal(windows), tail, "compression: true\n");
  }

  datatype CacheManager = CacheManager(config: CacheConfig) {
    /** get_cache_path: `{source}.{type}.cache.lz4`, or `.cache` when
        compression is off. Either way get_cache_info counts the file, and
        the name ends in `.lz4` exactly when compression is on. */
    function CachePath(source: string, cacheType: string): (r: string)
      ensures IsCacheFile(r)
      ensures EndsWith(r, ".lz4") <==> config.enableCompression
    {
      var stem := source + "." + cacheType;
      var suffix := if config.enableCompression then ".cache.lz4" else ".cache";
      EndsWithConcat(stem, suffix, ".cache");
      EndsWithConcat(stem, suffix, ".lz4");
      if config.enableCompression then EndsWithConcat(stem, suffix, ".cache.lz4"); stem + suffix
      else stem + suffix
    }

    /** get_metadata_path: `{source}.meta`. */
    function MetadataPath(source: string): string {
      source + ".meta"
    }

    /** The three files a save writes, in the order their results are
        checked: MS1, MS2, metadata. */
    function SaveWrites(source: string, ms1: IndexedData, pairs: seq<WindowPair>, stamp: string): seq<Write> {
      [ Write(CachePath(source, MS1_TYPE), StreamFile.Stored(EncodeData(ms1, []), config.enableCompression)),
        Write(CachePath(source, MS2_TYPE), StreamFile.Stored(EncodePairs(pairs, []), config.enableCompression)),
        Write(MetadataPath(source), Ascii(MetaText(stamp, |pairs|, config.enableCompression))) ]
    }

    /** is_cache_valid: all three files exist and the MS1 file is strictly
        newer than the source; a missing time counts as the epoch. */
    predicate IsCacheValid(files: Files, source: Source)
      ensures (forall n :: n in files ==> files[n].modified <= source.modified.UnwrapOr(0)) ==> !IsCacheValid(files, source)
    {
      var ms1 := CachePath(source.name, MS1_TYPE);
      && ms1 in files && CachePath(source.name, MS2_TYPE) in files && MetadataPath(source.name) in files
      && files[ms1].modified > source.modified.UnwrapOr(0)
    }

    function LoadMs1(files: Files, source: string): Result<IndexedData> {
      var name := CachePath(source, MS1_TYPE);
      StreamFile.Decoded(ReadResult(files, name), name, config.enableCompression, DecodeData)
    }

    function LoadMs2(files: Files, source: string): Result<seq<WindowPair>> {
      var name := CachePath(source, MS2_TYPE);
      StreamFile.Decoded(ReadResult(files, name), name, config.enableCompression, DecodePairs)
    }

    /** What load_indexed_data returns: the MS1 error first, then the MS2
        error, else both values. */
    function Load(files: Files, source: string): (r: Result<(IndexedData, seq<WindowPair>)>)
      ensures r.Ok? <==> LoadMs1(files, source).Ok? && LoadMs2(files, source).Ok?
      ensures r.Ok? ==> r.value == (LoadMs1(files, source).value, LoadMs2(files, source).value)
      ensures LoadMs1(files, source).Err? ==> r == Err(LoadMs1(files, source).error)
    {
      var ms1 := LoadMs1(files, source);
      var ms2 := LoadMs2(files, source);
      if ms1.Err? then Err(ms1.error)
      else if ms2.Err? then Err(ms2.error)
      else Ok((ms1.value, ms2.value))
    }

    /** configure_for_threads: one thread turns parallel I/O off and keeps
        the buffer; any other count turns it on with 64 MiB of buffer per
        thread, counting at most four threads and at least one. */
    function ConfigureForThreads(threadCount: nat): (r: CacheManager)
      ensures r.config.enableCompression == config.enableCompression
      ensures r.config.compressionLevel == config.compressionLevel
      ensures r.config.parallelIo <==> threadCount != 1
      ensures threadCount == 1 ==> r.config.bufferSize == config.bufferSize
      ensures threadCount != 1 ==> 64 * MIB <= r.config.bufferSize <= 256 * MIB
      ensures 2 <= threadCount <= 4 ==> r.config.bufferSize == threadCount * 64 * MIB
      ensures threadCount >= 4 ==> r.config.bufferSize == 256 * MIB
      ensures threadCount == 0 ==> r.config.bufferSize == 64 * MIB
    {
      if threadCount == 1 then
        CacheManager(config.(parallelIo := false))
      else
        var scaled := 64 * MIB * (if threadCount < 4 then threadCount else 4);
        CacheManager(config.(parallelIo := true, bufferSize := if scaled > 64 * MIB then scaled else 64 * MIB))
    }

    /** save_indexed_data. With parallel I/O all three files are written and
        the first error in the order MS1, MS2, metadata is returned; without
        it the writes stop at the first error. Either way the result is the
        first failed create. */
    method SaveIndexedData(fs: FileSystem, source: Source, ms1: IndexedData, pairs: seq<WindowPair>,
                           stamp: string, now: nat) returns (r: Result<()>)
      requires fs.Valid()
      modifies fs
      ensures fs.Valid()
      ensures fs.dirExists == old(fs.dirExists)
      ensures r == FirstError(fs.dirExists, fs.locked, SaveWrites(source.name, ms1, pairs, stamp))
      ensures var plan := SaveWrites(source.name, ms1, pairs, stamp);
        var written := if config.parallelIo then plan else plan[..FirstFailure(fs.dirExists, fs.locked, plan)];
        fs.files == WriteAll(old(fs.files), fs.dirExists, fs.locked, written, now)
    {
      var plan := SaveWrites(source.name, ms1, pairs, stamp);
      FirstOfThree(fs.dirExists, fs.locked, plan[0], plan[1], plan[2]);
      ThreeElements(plan);
      if config.parallelIo {
        r := SaveAll(fs, plan[0], plan[1], plan[2], now);
      } else {
        r := SaveInTurn(fs, plan[0], plan[1], plan[2], now);
      }
    }

    /** save_indexed_data as evidently intended, with the metadata file as
        the mark of a finished save: the old metadata file is removed first,
        and the new one written only once both data files were created. A
        save that fails therefore leaves no valid cache, and one that
        succeeds leaves the same files as the save above. */
    method SaveCommittingLast(fs: FileSystem, source: Source, ms1: IndexedData, pairs: seq<WindowPair>,
                              stamp: string, now: nat) returns (r: Result<()>)
      requires fs.Valid()
      modifies fs
      ensures fs.Valid()
      ensures fs.dirExists == old(fs.dirExists)
      ensures r == FirstError(fs.dirExists, fs.locked, SaveWrites(source.name, ms1, pairs, stamp))
      ensures var plan := SaveWrites(source.name, ms1, pairs, stamp);
        fs.files == WriteAll(old(fs.files) - {MetadataPath(source.name)}, fs.dirExists, fs.locked,
                             plan[..FirstFailure(fs.dirExists, fs.locked, plan)], now)
      ensures r.Ok? ==> fs.files == WriteAll(old(fs.files), fs.dirExists, fs.locked, SaveWrites(source.name, ms1, pairs, stamp), now)
      ensures r.Err? ==> forall t: Option<nat> :: !IsCacheValid(fs.files, Source(source.name, t))
    {
      ghost var start := fs.files;
      var plan := SaveWrites(source.name, ms1, pairs, stamp);
      var metaPath := MetadataPath(source.name);
      fs.Remove(metaPath);
      FirstOfThree(fs.dirExists, fs.locked, plan[0], plan[1], plan[2]);
      ThreeElements(plan);
      r := SaveInTurn(fs, plan[0], plan[1], plan[2], now);
      ghost var k := FirstFailure(fs.dirExists, fs.locked, plan);
      if r.Ok? {
        assert plan[..k] == plan && Names(plan)[2] == metaPath;
        WriteAllAfterRemove(start, fs.dirExists, fs.locked, plan, now, metaPath);
      } else {
        SaveNamesDistinct(this, source.name, ms1, pairs, stamp);
        assert forall i :: 0 <= i < k ==> Names(plan[..k])[i] == plan[i].name;
        WriteAllOutside(start - {metaPath}, fs.dirExists, fs.locked, plan[..k], now, metaPath);
      }
    }

    /** load_indexed_data. The parallel branch reads both files before
        looking at either result; the sequential one stops after a failed
        MS1 read. Both return the same. */
    method LoadIndexedData(fs: FileSystem, source: string) returns (r: Result<(IndexedData, seq<WindowPair>)>)
      ensures r == Load(fs.files, source)
    {
      if config.parallelIo {
        var ms1 := StreamFile.LoadDataFromFile(fs, CachePath(source, MS1_TYPE), config.enableCompression, DecodeData);
        var ms2 := StreamFile.LoadDataFromFile(fs, CachePath(source, MS2_TYPE), config.enableCompression, DecodePairs);
        if ms1.Err? {
          return Err(ms1.error);
        }
        if ms2.Err? {
          return Err(ms2.error);
        }
        r := Ok((ms1.value, ms2.value));
      } else {
        var ms1 := StreamFile.LoadDataFromFile(fs, CachePath(source, MS1_TYPE), config.enableCompression, DecodeData);
        if ms1.Err? {
          return Err(ms1.error);
        }
        var ms2 := StreamFile.LoadDataFromFile(fs, CachePath(source, MS2_TYPE), config.enableCompression, DecodePairs);
        if ms2.Err? {
          return Err(ms2.error);
        }
        r := Ok((ms1.value, ms2.value));
      }
    }
  }

  /** The parallel branch of save_indexed_data: the three writers all run,
      then their results are checked in order. */
  method SaveAll(fs: FileSystem, a: Write, b: Write, c: Write, now: nat) returns (r: Result<()>)
    requires fs.Valid()
    modifies fs
    ensures fs.Valid()
    ensures fs.dirExists == old(fs.dirExists)
    ensures r == FirstError(fs.dirExists, fs.locked, [a, b, c])
    ensures fs.files == WriteAll(old(fs.files), fs.dirExists, fs.locked, [a, b, c], now)
  {
    ghost var start := fs.files;
    FirstOfThree(fs.dirExists, fs.locked, a, b, c);
    var ra := fs.Create(a.name, a.content, now);
    WriteAllConcat(start, fs.dirExists, fs.locked, [a], [b], now);
    var rb := fs.Create(b.name, b.content, now);
    WriteAllConcat(start, fs.dirExists, fs.locked, [a, b], [c], now);
    var rc := fs.Create(c.name, c.content, now);
    assert [a, b, c] == [a, b] + [c];
    r := if ra.Err? then ra else if rb.Err? then rb else rc;
  }

  /** The sequential branch of save_indexed_data: each write returns at
      its error (`?`), so the files after a failure are never created. */
  method SaveInTurn(fs: FileSystem, a: Write, b: Write, c: Write, now: nat) returns (r: Result<()>)
    requires fs.Valid()
    modifies fs
    ensures fs.Valid()
    ensures fs.dirExists == old(fs.dirExists)
    ensures r == FirstError(fs.dirExists, fs.locked, [a, b, c])
    ensures fs.files == WriteAll(old(fs.files), fs.dirExists, fs.locked,
                                 [a, b, c][..FirstFailure(fs.dirExists, fs.locked, [a, b, c])], now)
  {
    ghost var start := fs.files;
    FirstOfThree(fs.dirExists, fs.locked, a, b, c);
    r := fs.Create(a.name, a.content, now);
    if r.Err? {
      assert [a, b, c][..0] == [];
      return;
    }
    assert [a, b, c][..1] == [a];
    r := fs.Create(b.name, b.content, now);
    WriteAllConcat(start, fs.dirExists, fs.locked, [a], [b], now);
    if r.Err? {
      return;
    }
    assert [a, b, c][..2] == [a] + [b];
    r := fs.Create(c.name, c.content, now);
    WriteAllConcat(start, fs.dirExists, fs.locked, [a, b], [c], now);
    assert [a, b, c][..3] == [a, b] + [c];
  }

  /** with_config: the cache directory is created (`new` passes the
      default configuration). */
  method WithConfig(fs: FileSystem, config: CacheConfig) returns (m: CacheManager)
    requires fs.Valid()
    modifies fs
    ensures fs.Valid()
    ensures m.config == config
    ensures fs.dirExists && fs.files == old(fs.files)
  {
    fs.CreateDirAll();
    m := CacheManager(config);
  }

  /** The three files of a save have three different names. */
  lemma SaveNamesDistinct(m: CacheManager, source: string, ms1: IndexedData, pairs: seq<WindowPair>, stamp: string)
    ensures Distinct(Names(m.SaveWrites(source, ms1, pairs, stamp)))
  {
    var plan := m.SaveWrites(source, ms1, pairs, stamp);
    PathsDistinct(m, source);
    DistinctThree(Names(plan));
  }

  /** The MS1, MS2 and metadata paths of one source are three different files. */
  lemma PathsDistinct(m: CacheManager, source: string)
    ensures m.CachePath(source, MS1_TYPE) != m.CachePath(source, MS2_TYPE)
    ensures m.CachePath(source, MS1_TYPE) != m.MetadataPath(source)
    ensures m.CachePath(source, MS2_TYPE) != m.MetadataPath(source)
  {
    var a, b, c := m.CachePath(source, MS1_TYPE), m.CachePath(source, MS2_TYPE), m.MetadataPath(source);
    assert a != b by {
      CachePathChar(m, source, MS1_TYPE, 2);
      CachePathChar(m, source, MS2_TYPE, 2);
    }
    assert c[|source| + 2] == 'e';
    assert a != c by {
      CachePathChar(m, source, MS1_TYPE, 1);
    }
    assert b != c by {
      CachePathChar(m, source, MS2_TYPE, 1);
    }
  }

  /** A cache path starts with the source name, a dot and the file's type. */
  lemma CachePathChar(m: CacheManager, source: string, cacheType: string, i: nat)
    requires i < |cacheType|
    ensures var r := m.CachePath(source, cacheType);
      |source| + 1 + i < |r| && r[|source| + 1 + i] == cacheType[i]
  {
    var suffix := if m.config.enableCompression then ".cache.lz4" else ".cache";
    assert m.CachePath(source, cacheType) == (source + "." + cacheType) + suffix;
  }

  /** The file at position `k` of a save reads back as what was written. */
  lemma ReadAfterSave(m: CacheManager, files: Files, locked: set<string>, source: string,
                      ms1: IndexedData, pairs: seq<WindowPair>, stamp: string, now: nat, k: nat)
    requires k < 3 && AllCreatable(true, locked, m.SaveWrites(source, ms1, pairs, stamp))
    ensures var plan := m.SaveWrites(source, ms1, pairs, stamp);
      ReadResult(WriteAll(files, true, locked, plan, now), plan[k].name) == Ok(plan[k].content)
  {
    SaveNamesDistinct(m, source, ms1, pairs, stamp);
    WriteAllLookup(files, true, locked, m.SaveWrites(source, ms1, pairs, stamp), now, k);
  }

  lemma Ms1AfterSave(m: CacheManager, files: Files, locked: set<string>, source: string,
                     ms1: IndexedData, pairs: seq<WindowPair>, stamp: string, now: nat)
    requires ms1.Fits()
    requires AllCreatable(true, locked, m.SaveWrites(source, ms1, pairs, stamp))
    ensures m.LoadMs1(WriteAll(files, true, locked, m.SaveWrites(source, ms1, pairs, stamp), now), source) == Ok(ms1)
  {
    ReadAfterSave(m, files, locked, source, ms1, pairs, stamp, now, 0);
    DataRoundTrip(ms1, []);
    StreamFile.StoredThenDecoded(EncodeData(ms1, []), m.CachePath(source, MS1_TYPE), m.config.enableCompression, DecodeData, ms1, []);
  }

  lemma Ms2AfterSave(m: CacheManager, files: Files, locked: set<string>, source: string,
                     ms1: IndexedData, pairs: seq<WindowPair>, stamp: string, now: nat)
    requires PairsFit(pairs)
    requires AllCreatable(true, locked, m.SaveWrites(source, ms1, pairs, stamp))
    ensures m.LoadMs2(WriteAll(files, true, locked, m.SaveWrites(source, ms1, pairs, stamp), now), source) == Ok(pairs)
  {
    ReadAfterSave(m, files, locked, source, ms1, pairs, stamp, now, 1);
    PairsRoundTrip(pairs, []);
    StreamFile.StoredThenDecoded(EncodePairs(pairs, []), m.CachePath(source, MS2_TYPE), m.config.enableCompression, DecodePairs, pairs, []);
  }

  /** Loading what a save wrote gives back both values, when every file was
      created, whatever the compression setting. */
  lemma SaveThenLoad(m: CacheManager, files: Files, locked: set<string>, source: string,
                     ms1: IndexedData, pairs: seq<WindowPair>, stamp: string, now: nat)
    requires ms1.Fits() && PairsFit(pairs)
    requires AllCreatable(true, locked, m.SaveWrites(source, ms1, pairs, stamp))
    ensures m.Load(WriteAll(files, true, locked, m.SaveWrites(source, ms1, pairs, stamp), now), source) == Ok((ms1, pairs))
  {
    Ms1AfterSave(m, files, locked, source, ms1, pairs, stamp, now);
    Ms2AfterSave(m, files, locked, source, ms1, pairs, stamp, now);
  }

  /** After a save in which every file was created, the cache is valid
      exactly for source times strictly before the save. */
  lemma ValidAfterSave(m: CacheManager, files: Files, locked: set<string>, source: string,
                       ms1: IndexedData, pairs: seq<WindowPair>, stamp: string, now: nat, modified: Option<nat>)
    requires AllCreatable(true, locked, m.SaveWrites(source, ms1, pairs, stamp))
    ensures var after := WriteAll(files, true, locked, m.SaveWrites(source, ms1, pairs, stamp), now);
      m.IsCacheValid(after, Source(source, modified)) <==> modified.UnwrapOr(0) < now
  {
    var plan := m.SaveWrites(source, ms1, pairs, stamp);
    SaveNamesDistinct(m, source, ms1, pairs, stamp);
    WriteAllLookup(files, true, locked, plan, now, 0);
    WriteAllLookup(files, true, locked, plan, now, 1);
    WriteAllLookup(files, true, locked, plan, now, 2);
  }

  /** The first save of a source, into a directory without its metadata
      file: a sequential save that fails never reaches the metadata file, so
      the cache stays invalid. Over an older cache this no longer holds
      (StaleWindowsSurviveFailedSave); SaveCommittingLast makes it hold
      there too. */
  lemma FailedSequentialSaveInvalid(m: CacheManager, files: Files, dirExists: bool, locked: set<string>,
                                    source: Source, ms1: IndexedData, pairs: seq<WindowPair>, stamp: string, now: nat)
    requires m.MetadataPath(source.name) !in files
    requires FirstError(dirExists, locked, m.SaveWrites(source.name, ms1, pairs, stamp)).Err?
    ensures var plan := m.SaveWrites(source.name, ms1, pairs, stamp);
      !m.IsCacheValid(WriteAll(files, dirExists, locked, plan[..FirstFailure(dirExists, locked, plan)], now), source)
  {
    var plan := m.SaveWrites(source.name, ms1, pairs, stamp);
    var k := FirstFailure(dirExists, locked, plan);
    SaveNamesDistinct(m, source.name, ms1, pairs, stamp);
    assert forall i :: 0 <= i < k ==> Names(plan[..k])[i] == plan[i].name;
    WriteAllOutside(files, dirExists, locked, plan[..k], now, m.MetadataPath(source.name));
  }

  /** A cache saved at `saved` is invalid for a source modified since,
      and its MS2 and metadata files are in place. */
  lemma OlderCache(m: CacheManager, source: string, oldMs1: IndexedData, oldPairs: seq<WindowPair>, oldStamp: string,
                   saved: nat, modified: nat)
    requires PairsFit(oldPairs) && saved <= modified
    ensures var before := WriteAll(map[], true, {}, m.SaveWrites(source, oldMs1, oldPairs, oldStamp), saved);
      && !m.IsCacheValid(before, Source(source, Some(modified)))
      && m.LoadMs2(before, source) == Ok(oldPairs)
      && m.MetadataPath(source) in before
  {
    var oldPlan := m.SaveWrites(source, oldMs1, oldPairs, oldStamp);
    ValidAfterSave(m, map[], {}, source, oldMs1, oldPairs, oldStamp, saved, Some(modified));
    Ms2AfterSave(m, map[], {}, source, oldMs1, oldPairs, oldStamp, saved);
    SaveNamesDistinct(m, source, oldMs1, oldPairs, oldStamp);
    WriteAllLookup(map[], true, {}, oldPlan, saved, 2);
  }

  /** What save_indexed_data does not guard against. Over an older cache of
      the same source, a save whose MS2 file cannot be created still
      replaces the MS1 file (and, with parallel I/O, the metadata), and
      reports the error. The MS1 file is now newer than the source, so the
      cache turns valid and loads the new scan table with the old windows. */
  lemma StaleWindowsSurviveFailedSave(m: CacheManager, source: string,
                                      oldMs1: IndexedData, oldPairs: seq<WindowPair>, oldStamp: string, saved: nat,
                                      ms1: IndexedData, pairs: seq<WindowPair>, stamp: string, modified: nat, now: nat)
    requires ms1.Fits() && PairsFit(oldPairs)
    requires saved <= modified < now
    ensures var before := WriteAll(map[], true, {}, m.SaveWrites(source, oldMs1, oldPairs, oldStamp), saved);
      var locked := {m.CachePath(source, MS2_TYPE)};
      var plan := m.SaveWrites(source, ms1, pairs, stamp);
      var written := if m.config.parallelIo then plan else plan[..FirstFailure(true, locked, plan)];
      var after := WriteAll(before, true, locked, written, now);
      && !m.IsCacheValid(before, Source(source, Some(modified)))
      && FirstError(true, locked, plan) == Err(PermissionDenied(m.CachePath(source, MS2_TYPE)))
      && m.IsCacheValid(after, Source(source, Some(modified)))
      && m.Load(after, source) == Ok((ms1, oldPairs))
  {
    var before := WriteAll(map[], true, {}, m.SaveWrites(source, oldMs1, oldPairs, oldStamp), saved);
    var locked := {m.CachePath(source, MS2_TYPE)};
    var plan := m.SaveWrites(source, ms1, pairs, stamp);
    var written := if m.config.parallelIo then plan else plan[..FirstFailure(true, locked, plan)];
    var after := WriteAll(before, true, locked, written, now);
    var ms1Path, ms2Path := m.CachePath(source, MS1_TYPE), m.CachePath(source, MS2_TYPE);
    OlderCache(m, source, oldMs1, oldPairs, oldStamp, saved, modified);
    FailedSaveEffect(m, source, before, ms1, pairs, stamp, now);
    assert m.LoadMs1(after, source) == Ok(ms1) by {
      DataRoundTrip(ms1, []);
      StreamFile.StoredThenDecoded(EncodeData(ms1, []), ms1Path, m.config.enableCompression, DecodeData, ms1, []);
    }
    assert ReadResult(after, ms2Path) == ReadResult(before, ms2Path);
  }

  /** A save whose MS2 file cannot be created: it reports that error, it
      writes the MS1 file, the MS2 file keeps what it held, and an existing
      metadata file stays. */
  lemma FailedSaveEffect(m: CacheManager, source: string, before: Files,
                         ms1: IndexedData, pairs: seq<WindowPair>, stamp: string, now: nat)
    ensures var ms1Path, ms2Path := m.CachePath(source, MS1_TYPE), m.CachePath(source, MS2_TYPE);
      var locked := {ms2Path};
      var plan := m.SaveWrites(source, ms1, pairs, stamp);
      var written := if m.config.parallelIo then plan else plan[..FirstFailure(true, locked, plan)];
      var after := WriteAll(before, true, locked, written, now);
      && FirstError(true, locked, plan) == Err(PermissionDenied(ms2Path))
      && ms1Path in after && after[ms1Path] == Entry(plan[0].content, now)
      && (ms2Path in after <==> ms2Path in before) && (ms2Path in before ==> after[ms2Path] == before[ms2Path])
      && (m.MetadataPath(source) in before ==> m.MetadataPath(source) in after)
  {
    var locked := {m.CachePath(source, MS2_TYPE)};
    var plan := m.SaveWrites(source, ms1, pairs, stamp);
    var ms2Path, metaPath := m.CachePath(source, MS2_TYPE), m.MetadataPath(source);
    SaveNamesDistinct(m, source, ms1, pairs, stamp);
    PathsDistinct(m, source);
    FirstOfThree(true, locked, plan[0], plan[1], plan[2]);
    ThreeElements(plan);
    var written := if m.config.parallelIo then plan else plan[..1];
    assert written[0] == plan[0];
    assert forall k :: 0 <= k < |written| ==> Names(written)[k] == Names(plan)[k];
    WriteAllLookup(before, true, locked, written, now, 0);
    WriteAllRefused(before, true, locked, written, now, ms2Path);
    if m.config.parallelIo {
      WriteAllLookup(before, true, locked, written, now, 2);
    } else {
      WriteAllOutside(before, true, locked, written, now, metaPath);
    }
  }

  /** With no cache files nothing is valid, and loading reports the missing
      MS1 file. */
  lemma EmptyCacheInvalid(m: CacheManager, source: Source)
    ensures !m.IsCacheValid(map[], source)
    ensures m.Load(map[], source.name) == Err(NotFound(m.CachePath(source.name, MS1_TYPE)))
  {
  }

  /** The default manager writes its files in parallel and compresses both
      data files. */
  lemma DefaultManager(source: string)
    ensures var m := CacheManager(DEFAULT_CONFIG);
      && m.config.parallelIo
      && EndsWith(m.CachePath(source, MS1_TYPE), ".lz4") && EndsWith(m.CachePath(source, MS2_TYPE), ".lz4")
  {
  }

  /** From two threads on, more threads never mean a smaller buffer. */
  lemma BufferGrowsWithThreads(m: CacheManager, fewer: nat, more: nat)
    requires 2 <= fewer <= more
    ensures m.ConfigureForThreads(fewer).config.bufferSize <= m.ConfigureForThreads(more).config.bufferSize
  {
  }

  /** get_cache_info keeps a file whose name ends in `.cache` or
      `.cache.lz4`. */
  predicate IsCacheFile(name: string) {
    EndsWith(name, ".cache") || EndsWith(name, ".cache.lz4")
  }

  /** get_cache_info never counts the metadata file. */
  lemma MetadataFileNotCounted(m: CacheManager, source: string)
    ensures !IsCacheFile(m.MetadataPath(source))
  {
    var r := m.MetadataPath(source);
    assert r[|r| - 1] == 'a';
  }

  /** get_cache_info: every cache file once, with its size cut to 32 bits;
      nothing when the directory is gone. */
  method GetCacheInfo(fs: FileSystem) returns (info: seq<(string, nat)>)
    ensures !fs.dirExists ==> info == []
    ensures fs.dirExists ==> Listed(info) == set n | n in fs.files && IsCacheFile(n)
    ensures forall i, j :: 0 <= i < j < |info| ==> info[i].0 != info[j].0
    ensures forall i :: 0 <= i < |info| ==>
      info[i].0 in fs.files && IsCacheFile(info[i].0) && info[i].1 == |fs.files[info[i].0].content| % TWO_TO_THE_32
  {
    info := [];
    if fs.dirExists {
      var entries := fs.ReadDir();
      info := FileSizes(fs.files, entries, IsCacheFile);
      assert Kept(entries, IsCacheFile) == set n | n in fs.files && IsCacheFile(n);
    }
  }

  /** clear_cache: the directory goes, with every file in it; a missing
      directory is left as it is. Afterwards no manager finds a valid cache
      for any source. */
  method ClearCache(fs: FileSystem) returns (r: Result<()>)
    requires fs.Valid()
    modifies fs
    ensures fs.Valid()
    ensures r == Ok(()) && !fs.dirExists && fs.files == map[]
    ensures forall m: CacheManager, s: Source :: !m.IsCacheValid(fs.files, s)
  {
    if fs.dirExists {
      fs.RemoveDirAll();
    }
    r := Ok(());
  }
}
