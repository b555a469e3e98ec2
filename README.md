# TimsTOF index cache, modelled in Dafny

The repository keeps an on-disk cache of the indexed TimsTOF data: the MS1 scan table (six parallel columns of retention time, mobility, m/z, intensity, frame and scan index) and the MS2 windows (an m/z range paired with a table of the same shape). It writes the cache once and reads it back on later runs. The cache manager has three versions. Each is modelled as one Dafny module:

- `OptimizedCache` (optimized_version/src/cache.rs) is the sharded cache.
  - The MS1 table is cut into row ranges, one per thread.
  - Every shard and every MS2 window is bincode-serialized, compressed (`Hybrid`, which means LZ4) and written to its own file.
  - A metadata record is written last.
  - Loading reads the metadata, reads every shard (by buffered read or memory map), stops at the first error, merges the MS1 shards in order and rebuilds the windows from their range tags.
- `TimstofOptimized` (timstof_optimized/src/cache.rs) uses one file for MS1, one for MS2 and a text metadata file.
  - The files are written either by three parallel writers or one after another, with an optional LZ4 frame around each file.
- `TimstofOptimized2` (timstof_optimized_2/src/cache.rs) works like the previous version, but always sequentially.
  - A per-file rule decides compression: with automatic decisions on, only the MS2 file is compressed.
  - The MS1 file is always stored raw.
  - Uncompressed files are named `.cache.bin`.
  - Load decides from the MS2 path's extension whether to decompress.

Shared modules:

- `Binary`: little-endian integers and decimal text.
- `Outcomes`: the error kinds, and the `?`-style gathering of results.
- `Dataset`: the data entities.
- `Partition`: `split_into_shards` and `merge_shards`.
- `Serialize`: the bincode layout of the tables, shards and window lists.
- `Compression`: compression frames.
- `FileStore`: the cache directory as a `FileSystem` object whose methods create, read, list and remove files.
- `StreamFile`: `save_data_to_file`/`load_data_from_file` of the two single-file versions.

How the model represents the program:

- Files are a map from name to bytes and modification time.
- A save is described by its list of writes (`WriteAll`), and each save method is proved to leave exactly that state.
- Clock readings and the source's modification time are parameters, counted in ticks of the file system's clock.
- `f32` values are kept as their 32-bit patterns (`uint32`), which is all the cache ever does with them.

## Model

| member | source | states |
|---|---|---|
| Binary.U32RoundTrip | optimized_version/src/cache.rs:241-266 | a u32 written in bincode's little-endian layout reads back, with the bytes after it untouched |
| Binary.U64RoundTrip | optimized_version/src/cache.rs:241-266 | a u64 (bincode length prefix, usize field) below 2^64 reads back, with the bytes after it untouched |
| Binary.DecimalRoundTrip | optimized_version/src/cache.rs:124-128 | the shard index printed in decimal in a file name parses back to the index, so different indices give different names |
| Binary.ReadNumberAfter | timstof_optimized/src/cache.rs:124-129 | a number printed after a fixed head and followed by a non-digit is read back from the text after the head |
| Outcomes.Collect | optimized_version/src/cache.rs:417-423 | pushing results with `?` succeeds exactly when every result is Ok, and then yields their values in order |
| Outcomes.CollectFirstError | optimized_version/src/cache.rs:417-423 | when every result before position k is Ok and the one at k is an error, gathering returns that error |
| Outcomes.CollectAllOk | optimized_version/src/cache.rs:454-460 | results that are each Ok(v_i) gather to exactly the values v_i |
| Dataset.WindowShardRoundTrip | optimized_version/src/cache.rs:336-344 | an MS2 window stored as a shard tagged with its m/z range turns back into the same (range, table) pair on load (lines 439-449) |
| Partition.FromIndexedSlice | optimized_version/src/cache.rs:67-84 | the shard for rows start..end has end - start aligned rows, and its range tag is the first and last m/z of the slice |
| Partition.CeilDivBounds | optimized_version/src/cache.rs:158 | points per shard is the ceiling of points / shards: enough shards cover every point, and one fewer does not |
| Partition.Split | optimized_version/src/cache.rs:152-171 | an empty table gives no shards, and a table is never cut into more shards than there are threads; every shard is aligned and non-empty |
| Partition.SplitAt | optimized_version/src/cache.rs:161-168 | shard i exists exactly when its start row i * per-shard is inside the table, and it holds rows i*p..min((i+1)*p, n) |
| Partition.SplitCount | optimized_version/src/cache.rs:152-171 | a non-empty table is cut into ceil(n / ceil(n / k)) shards, at least one and at most the number of threads |
| Partition.SplitCoversRows | optimized_version/src/cache.rs:161-168 | each shard is the table's rows between its start and end, and those bounds are inside the table |
| Partition.SplitFits | optimized_version/src/cache.rs:152-171 | a shard of a table that fits the 64-bit format fits it too |
| Partition.Merge | optimized_version/src/cache.rs:174-196 | the merged table has the shards' total point count (the capacity reserved) and is aligned when every shard is |
| Partition.MergeSplitPrefix | optimized_version/src/cache.rs:152-196 | merging the first j shards gives exactly the table's first min(j * per-shard, n) rows |
| Partition.SplitMergeRoundTrip | optimized_version/src/cache.rs:152-196 | merge_shards of split_into_shards returns the original aligned table, for every thread count from one up |
| Partition.SplitIntoShards | optimized_version/src/cache.rs:152-171 | the loop over shard indices yields exactly the shards of Split, whose properties are the lemmas above |
| Partition.MergeShards | optimized_version/src/cache.rs:174-196 | the extending loop yields exactly Merge of the shards |
| Serialize.SeqRoundTrip | optimized_version/src/cache.rs:241-266 | elements written one after another by an encoder that its decoder inverts read back in order |
| Serialize.VecRoundTrip | optimized_version/src/cache.rs:241-266 | a length-prefixed vector reads back, the rest of the stream untouched |
| Serialize.ColumnRoundTrip | optimized_version/src/cache.rs:241-266 | a column of 32-bit values reads back |
| Serialize.DataRoundTrip | timstof_optimized/src/cache.rs:243-291 | the six columns of a table serialized in field order read back as the same table |
| Serialize.RangeRoundTrip | optimized_version/src/cache.rs:56-64 | the (f32, f32) m/z range tag reads back |
| Serialize.ShardRoundTrip | optimized_version/src/cache.rs:241-266 | a serialized shard (table fields, then its range) deserializes to the same shard |
| Serialize.WindowRoundTrip | timstof_optimized/src/cache.rs:243-291 | one (range, table) window reads back |
| Serialize.PairsRoundTrip | timstof_optimized/src/cache.rs:243-291 | the vector of MS2 windows reads back as the same windows in the same order |
| Serialize.PairsPrefixRefused | timstof_optimized/src/cache.rs:243-291 | no strict prefix of an encoded window list decodes: bincode reads the count and then needs every byte of every window |
| Compression.Lz4Encode | optimized_version/src/cache.rs:202-209 | an LZ4 frame decodes to the data it was made from |
| Compression.ZstdEncode | optimized_version/src/cache.rs:210-212 | a Zstandard frame decodes to the data it was made from |
| Compression.CompressData | optimized_version/src/cache.rs:199-238 | for every compression type, decompress_data with the same type inverts compress_data |
| Compression.DispatchEquivalences | optimized_version/src/cache.rs:199-238 | None is the identity both ways, and Hybrid compresses and decompresses exactly as Lz4 |
| Compression.MismatchedFrameRefused | optimized_version/src/cache.rs:221-238 | LZ4 bytes given to the Zstandard decoder (and the reverse), or bytes shorter than a magic number, are refused |
| FileStore.FirstError | timstof_optimized/src/cache.rs:152-169 | stopping at the first failed create succeeds exactly when every file of the plan can be created, and otherwise returns the error of the first file that cannot |
| FileStore.FirstOfThree | timstof_optimized/src/cache.rs:140-151 | checking three writers' results in order gives the first error among them, the same as stopping at it |
| FileStore.WriteAllLookup | timstof_optimized/src/cache.rs:243-267 | after a plan of distinct names, each created file holds what was written to it |
| FileStore.WriteAllOutside | timstof_optimized/src/cache.rs:152-169 | a file no write of the plan names is left as it was |
| FileStore.FileSystem.Create | optimized_version/src/cache.rs:241-251 | File::create fails with NotFound without the directory and PermissionDenied on a locked name; otherwise the file holds exactly the bytes, stamped now |
| FileStore.FileSystem.Read | optimized_version/src/cache.rs:254-266 | opening and reading a file yields its bytes, or NotFound |
| FileStore.FileSystem.Map | optimized_version/src/cache.rs:269-279 | mapping a file yields the same bytes a read does |
| FileStore.FileSystem.ReadDir | optimized_version/src/cache.rs:487-488 | the directory listing names every file exactly once |
| FileStore.FileSystem.CreateDirAll | optimized_version/src/cache.rs:102-110 | after create_dir_all the directory exists and its files are kept |
| FileStore.FileSystem.RemoveDirAll | optimized_version/src/cache.rs:472-478 | remove_dir_all leaves no directory and no files |
| FileStore.GatherAdd | optimized_version/src/cache.rs:491-501 | adding a counted file's size to its group's running total keeps every group's total equal to the sum of its files seen so far |
| FileStore.GatheredAll | optimized_version/src/cache.rs:483-506 | after the whole listing, the groups are exactly the keys of the files present, each with the summed size of its files |
| FileStore.FileSizes | timstof_optimized/src/cache.rs:307-327 | the listing loop reports every accepted file exactly once with its length cut to 32 bits |
| StreamFile.StoredThenDecoded | timstof_optimized/src/cache.rs:243-291 | bytes stored with or without the LZ4 frame decode to the value they encode when read with the same setting |
| StreamFile.SaveDataToFile | timstof_optimized/src/cache.rs:243-267 | the file is created with the (optionally framed) bytes; the result is the create's result |
| StreamFile.LoadDataFromFile | timstof_optimized/src/cache.rs:270-291 | opening, unframing and decoding, each failure an error naming the file (a failed unframing or decoding is Corrupt, the source's kind Other) |
| OptimizedCache.CompressionTag | optimized_version/src/cache.rs:24-30 | every compression variant's stored tag reads back as that variant |
| OptimizedCache.TagCompression | optimized_version/src/cache.rs:24-30 | exactly the four tags 0..3 name a variant |
| OptimizedCache.MetadataRoundTrip | optimized_version/src/cache.rs:282-293 | save_metadata then load_metadata gives back the record whose fields fit 64 bits |
| OptimizedCache.ParseMetadata | optimized_version/src/cache.rs:289-293 | a record is accepted only when it takes up the whole file, and every field it yields fits 64 bits |
| OptimizedCache.IsCacheValid | optimized_version/src/cache.rs:130-149 | a valid cache has its metadata file; for a source without a modification time (the epoch) the cache is valid exactly when the metadata loads |
| OptimizedCache.Load | optimized_version/src/cache.rs:387-470 | every failure of the load is re-raised as an error of kind Other; a load that succeeds returns as many windows as the metadata records |
| OptimizedCache.ShardNamesDiffer | optimized_version/src/cache.rs:124-128 | two shards of one source that differ in stream or index have different file names |
| OptimizedCache.MetadataNameDiffers | optimized_version/src/cache.rs:118-128 | the `.meta.json` file is never a shard file |
| OptimizedCache.CacheManager.SaveShard | optimized_version/src/cache.rs:241-251 | the serialized, compressed shard is written and its compressed length returned, or the create's error |
| OptimizedCache.CacheManager.SaveShardFiles | optimized_version/src/cache.rs:314-352 | every shard of a stream is saved under its index; a failed one reports size 0 and does not stop the rest |
| OptimizedCache.CacheManager.SaveIndexedData | optimized_version/src/cache.rs:296-384 | the files are exactly the shards, windows and metadata written in turn; the result is the metadata create's alone, its error re-raised as kind Other; the reported sizes are those of the saved shards |
| OptimizedCache.WithThreads | optimized_version/src/cache.rs:102-110 | the manager uses Hybrid with the given threads and the cache directory exists |
| OptimizedCache.LoadShard | optimized_version/src/cache.rs:254-266 | a buffered read, decompression and deserialization of one shard file, each failure an error |
| OptimizedCache.LoadShardMmap | optimized_version/src/cache.rs:269-279 | the mapped read gives the same shard (or error) as the buffered one |
| OptimizedCache.LoadShardAt | optimized_version/src/cache.rs:401-415 | whichever read the shard count and file length select (more than 4 shards, more than 10,000,000 bytes), the result is the shard read from the file |
| OptimizedCache.LoadMetadata | optimized_version/src/cache.rs:289-293 | the metadata record read from its file, or NotFound, or Corrupt when it does not parse |
| OptimizedCache.LoadMs1Results | optimized_version/src/cache.rs:404-415 | one result per MS1 shard 0..shard_count, in index order |
| OptimizedCache.LoadMs2Results | optimized_version/src/cache.rs:428-452 | one result per window 0..ms2_window_count, each shard turned back into its (range, table) pair |
| OptimizedCache.PushAll | optimized_version/src/cache.rs:417-423 | the push loop with `?` returns exactly the gathered values or the first error |
| OptimizedCache.LoadIndexedData | optimized_version/src/cache.rs:387-470 | the load returns the metadata error, else the first MS1 shard error, else the first window error, each re-raised as kind Other, else the merged table and the windows |
| OptimizedCache.ClearCache | optimized_version/src/cache.rs:472-478 | the directory and all its files are gone afterwards and the call succeeds whether or not it existed; then no source has a valid cache and every load fails for want of the metadata file |
| OptimizedCache.SaveWritesLayout | optimized_version/src/cache.rs:310-366 | a save writes shard i of MS1 at position i, window i after all MS1 shards, and the metadata last, recording the shard and window counts |
| OptimizedCache.SaveNamesDistinct | optimized_version/src/cache.rs:118-128 | no file of a save has the name of another, so none overwrites another |
| OptimizedCache.MetadataAfterSave | optimized_version/src/cache.rs:354-369 | after a save whose metadata was created, the metadata file reads back as the record with the save's shard and window counts |
| OptimizedCache.ShardAfterSave | optimized_version/src/cache.rs:241-266 | a saved shard file loads back as the shard |
| OptimizedCache.Ms1AfterSave | optimized_version/src/cache.rs:404-423 | after a complete save, the MS1 shards load back as exactly the shards split_into_shards made |
| OptimizedCache.Ms2AfterSave | optimized_version/src/cache.rs:428-460 | after a complete save, the windows load back in order, each with its own range |
| OptimizedCache.SaveThenLoad | optimized_version/src/cache.rs:296-470 | load_indexed_data after a complete save_indexed_data returns the same MS1 table and MS2 windows |
| OptimizedCache.ValidAfterSave | optimized_version/src/cache.rs:130-149 | after a save, the cache is valid for a source time exactly when it is no later than the time recorded (the source's, or the save time when it had none) |
| OptimizedCache.MissingShardAbortsLoad | optimized_version/src/cache.rs:404-423 | a missing MS1 shard file, with every shard before it loaded, makes the load fail with NotFound for that shard, re-raised as kind Other |
| OptimizedCache.ClearedCacheIsInvalid | optimized_version/src/cache.rs:130-149 | an empty directory, as clear_cache leaves it, holds no valid cache, and loading it reports the missing metadata file as kind Other |
| OptimizedCache.ShardFileCounted | optimized_version/src/cache.rs:124-128 | a shard file's extension is `cache`, so get_cache_info counts it under the part of the source's name before its first '.' (lines 491-501) |
| OptimizedCache.MetadataFileNotCounted | optimized_version/src/cache.rs:118-122 | the metadata file's extension is `json`, so get_cache_info never counts it |
| OptimizedCache.SumBySource | optimized_version/src/cache.rs:487-506 | every file whose extension is `cache` adds its size to the total of the part of its name before the first '.', and no other file counts |
| OptimizedCache.GetCacheInfo | optimized_version/src/cache.rs:480-524 | one entry per source name with `.cache` files, each the sum of their sizes cut to 32 bits; nothing when the directory is gone |
| OptimizedCache.SizesAsU32 | optimized_version/src/cache.rs:509-520 | each source total appears exactly once, cut to 32 bits (`as u32`) |
| TimstofOptimized.MetaTailEnds | timstof_optimized/src/cache.rs:124-129 | the lines after the window count end in `compression: true` exactly when compression is on |
| TimstofOptimized.MetaTextRecords | timstof_optimized/src/cache.rs:124-129 | the metadata text starts with the timestamp line, gives back the window count on its `ms2_windows` line, and ends in `compression: true` exactly when compression is on |
| TimstofOptimized.CacheManager.CachePath | timstof_optimized/src/cache.rs:48-53 | a data file's name is one get_cache_info counts, and ends in `.lz4` exactly when compression is on |
| TimstofOptimized.CacheManager.IsCacheValid | timstof_optimized/src/cache.rs:61-80 | when no file is newer than the source (a missing time counting as the epoch), the cache is not valid |
| TimstofOptimized.CacheManager.Load | timstof_optimized/src/cache.rs:182-240 | the load succeeds exactly when both data files load, returns their two values, and reports an MS1 error before any MS2 error |
| TimstofOptimized.CacheManager.ConfigureForThreads | timstof_optimized/src/cache.rs:333-343 | one thread turns parallel I/O off and keeps the buffer; otherwise parallel I/O is on and the buffer is 64 MiB per thread for 2 to 4 threads, 256 MiB from 4 on, and 64 MiB for zero threads |
| TimstofOptimized.CacheManager.SaveIndexedData | timstof_optimized/src/cache.rs:83-179 | the result is the first failed create in the order MS1, MS2, metadata; the parallel branch writes all three files, the sequential one stops at the failure |
| TimstofOptimized.CacheManager.SaveCommittingLast | timstof_optimized/src/cache.rs:83-179 | the save with the metadata file removed first and written only after both data files: the result is the first failed create, a successful save leaves the same files as save_indexed_data, and a failed one leaves no valid cache for any source time |
| TimstofOptimized.CacheManager.LoadIndexedData | timstof_optimized/src/cache.rs:182-240 | both branches return the MS1 error first, then the MS2 error, else both values |
| TimstofOptimized.SaveAll | timstof_optimized/src/cache.rs:92-151 | the three parallel writers all run and their results are checked in order |
| TimstofOptimized.SaveInTurn | timstof_optimized/src/cache.rs:152-169 | the sequential writes stop at the first error, leaving the later files uncreated |
| TimstofOptimized.WithConfig | timstof_optimized/src/cache.rs:38-46 | the manager keeps the configuration and the cache directory exists |
| TimstofOptimized.SaveNamesDistinct | timstof_optimized/src/cache.rs:48-59 | the MS1, MS2 and metadata files have three different names |
| TimstofOptimized.ReadAfterSave | timstof_optimized/src/cache.rs:243-267 | after a complete save, each of the three files holds what was written to it |
| TimstofOptimized.Ms1AfterSave | timstof_optimized/src/cache.rs:182-240 | the saved MS1 file loads back as the table, with or without compression |
| TimstofOptimized.Ms2AfterSave | timstof_optimized/src/cache.rs:182-240 | the saved MS2 file loads back as the windows, with or without compression |
| TimstofOptimized.SaveThenLoad | timstof_optimized/src/cache.rs:83-240 | load after a complete save returns the same table and windows |
| TimstofOptimized.ValidAfterSave | timstof_optimized/src/cache.rs:61-80 | after a complete save, the cache is valid exactly for source times strictly before the save |
| TimstofOptimized.FailedSequentialSaveInvalid | timstof_optimized/src/cache.rs:152-169 | on the first save of a source (no metadata file yet), a sequential save that fails does not write the metadata file, so the cache stays invalid |
| TimstofOptimized.StaleWindowsSurviveFailedSave | timstof_optimized/src/cache.rs:92-169 | over an older cache, a save (parallel or sequential) whose MS2 file cannot be created reports the error, yet leaves a valid cache that loads the new MS1 table with the old windows |
| TimstofOptimized.FailedSaveEffect | timstof_optimized/src/cache.rs:92-169 | a save whose MS2 file cannot be created reports that error, replaces the MS1 file, leaves the MS2 file as it was and keeps an existing metadata file, in both branches |
| TimstofOptimized.EmptyCacheInvalid | timstof_optimized/src/cache.rs:61-80 | no files means no valid cache, and loading reports the missing MS1 file |
| TimstofOptimized.BufferGrowsWithThreads | timstof_optimized/src/cache.rs:333-343 | from two threads on, more threads never give a smaller buffer |
| TimstofOptimized.DefaultManager | timstof_optimized/src/cache.rs:21-30 | the default configuration writes in parallel and compresses both data files |
| TimstofOptimized.MetadataFileNotCounted | timstof_optimized/src/cache.rs:55-59 | the `.meta` file is not one get_cache_info counts |
| TimstofOptimized.GetCacheInfo | timstof_optimized/src/cache.rs:301-330 | every `.cache` or `.cache.lz4` file appears once with its size cut to 32 bits; nothing without the directory |
| TimstofOptimized.ClearCache | timstof_optimized/src/cache.rs:293-299 | the directory and its files are gone and the call succeeds; then no manager finds a valid cache for any source |
| TimstofOptimized2.MetaTailEnds | timstof_optimized_2/src/cache.rs:116-123 | the metadata ends in `ms2_compression: true` plus the version line exactly when the MS2 file is compressed |
| TimstofOptimized2.MetaTextRecords | timstof_optimized_2/src/cache.rs:116-123 | the metadata text starts with the timestamp line, gives back the window count, and records whether MS2 was compressed |
| TimstofOptimized2.Flushed | timstof_optimized_2/src/cache.rs:184-188 | an unfinished frame encoder has written strictly less than all of any non-empty input |
| TimstofOptimized2.CacheManager.ShouldCompressFile | timstof_optimized_2/src/cache.rs:57-69 | a file is compressed only when compression is on or decided automatically, and with automatic decisions exactly the MS2 file is |
| TimstofOptimized2.CacheManager.CachePath | timstof_optimized_2/src/cache.rs:43-48 | a data file's name is one get_cache_info counts, and ends in `.lz4` exactly when that file is compressed |
| TimstofOptimized2.CacheManager.IsCacheValid | timstof_optimized_2/src/cache.rs:71-90 | when no file is newer than the source (a missing time counting as the epoch), the cache is not valid |
| TimstofOptimized2.CacheManager.Ms2Compressed | timstof_optimized_2/src/cache.rs:155-158 | the extension load reads off the MS2 path is `lz4` exactly when save compressed that file |
| TimstofOptimized2.CacheManager.Load | timstof_optimized_2/src/cache.rs:139-169 | the load succeeds exactly when both data files load, returns their two values, and reports an MS1 error before any MS2 error |
| TimstofOptimized2.CacheManager.ConfigureForThreads | timstof_optimized_2/src/cache.rs:262-275 | automatic compression is on exactly from two threads; the buffer is 16 MiB exactly for one thread, 32 MiB exactly for 2 to 4, else 64 MiB |
| TimstofOptimized2.CacheManager.SaveIndexedData | timstof_optimized_2/src/cache.rs:93-136 | MS1 raw, MS2 compressed as should_compress_file says with its frame finished, then the metadata; the result is the first failed create and later files are not created |
| TimstofOptimized2.CacheManager.LoadIndexedData | timstof_optimized_2/src/cache.rs:139-169 | MS1 read raw, MS2 decompressed when its path ends in `.lz4`; the first error is returned |
| TimstofOptimized2.WithConfig | timstof_optimized_2/src/cache.rs:33-41 | the manager keeps the configuration and the cache directory exists |
| TimstofOptimized2.ThreadsDecideCompression | timstof_optimized_2/src/cache.rs:57-69 | from two threads on only MS2 is compressed; with one thread the configured setting decides both files |
| TimstofOptimized2.BufferGrowsWithThreads | timstof_optimized_2/src/cache.rs:262-275 | more threads never give a smaller buffer |
| TimstofOptimized2.DefaultManager | timstof_optimized_2/src/cache.rs:17-27 | the default configuration stores the MS1 file raw and compresses the MS2 file |
| TimstofOptimized2.SaveNamesDistinct | timstof_optimized_2/src/cache.rs:43-54 | the MS1, MS2 and metadata files have three different names |
| TimstofOptimized2.ReadAfterSave | timstof_optimized_2/src/cache.rs:172-196 | after a complete save, each of the three files holds what was written to it |
| TimstofOptimized2.Ms1AfterSave | timstof_optimized_2/src/cache.rs:139-169 | the raw MS1 file loads back as the table |
| TimstofOptimized2.Ms2AfterSave | timstof_optimized_2/src/cache.rs:139-169 | the MS2 file, with a finished frame, loads back as the windows under every configuration |
| TimstofOptimized2.SaveThenLoad | timstof_optimized_2/src/cache.rs:93-169 | with the frame finished, load after a complete save returns the same table and windows |
| TimstofOptimized2.UnfinishedFrameLosesWindows | timstof_optimized_2/src/cache.rs:184-188 | as written, a manager that compresses MS2 cannot load its own cache for any window list: the MS2 file holds the encoding without its last block and is reported corrupt |
| TimstofOptimized2.UnfinishedMs2Corrupt | timstof_optimized_2/src/cache.rs:184-188 | an MS2 file holding the unfinished frame of a window list fails to load with that file reported corrupt |
| TimstofOptimized2.ValidAfterSave | timstof_optimized_2/src/cache.rs:71-90 | after a complete save, the cache is valid exactly for source times strictly before the save |
| TimstofOptimized2.FailedSaveInvalid | timstof_optimized_2/src/cache.rs:93-136 | on the first save of a source (no metadata file yet), a failed save does not write the metadata file, so the cache stays invalid |
| TimstofOptimized2.StaleWindowsSurviveFailedSave | timstof_optimized_2/src/cache.rs:93-136 | with both saves as written: over an older cache, a save whose MS2 file cannot be created reports the error, yet leaves a cache that is valid in every configuration; with MS2 stored raw (automatic and explicit compression both off, as `configure_for_threads(1)` leaves the default) it loads the new MS1 table with the old windows, and with MS2 compressed it reports the MS2 file corrupt |
| TimstofOptimized2.FailedSaveEffect | timstof_optimized_2/src/cache.rs:93-136 | a save whose MS2 file cannot be created reports that error, replaces the MS1 file and leaves the MS2 and metadata files as they were |
| TimstofOptimized2.CacheManager.SaveCommittingLast | timstof_optimized_2/src/cache.rs:93-136 | the save with the metadata file removed first: the result is the first failed create, a successful save leaves the same files as save_indexed_data, and a failed one leaves no valid cache for any source time |
| TimstofOptimized2.EmptyCacheInvalid | timstof_optimized_2/src/cache.rs:71-90 | no files means no valid cache, and loading reports the missing MS1 file |
| TimstofOptimized2.MetadataFileNotCounted | timstof_optimized_2/src/cache.rs:50-54 | the `.meta` file is not one get_cache_info counts |
| TimstofOptimized2.GetCacheInfo | timstof_optimized_2/src/cache.rs:230-259 | every `.cache.bin`, `.cache.lz4` or `.cache` file appears once with its size cut to 32 bits |
| TimstofOptimized2.ClearCache | timstof_optimized_2/src/cache.rs:222-228 | the directory and its files are gone and the call succeeds; then no manager finds a valid cache for any source |

## Left out

- JSON metadata: the sharded cache's `.meta.json` record is stored as its fields in fixed-width binary rather than serde JSON text. What is kept is that the record reads back and that malformed content is refused.
- LZ4 and Zstandard block compression: a compressed stream is modelled as its frame (magic number, then payload). Decoders check the framing only.
- Clocks and file times: `SystemTime::now()` and the source's modification time are counts of the file system's clock ticks, passed in as parameters. The `{:?}` print of the clock in the metadata text is a `stamp` string parameter.
- Concurrency: the rayon parallel iterators, the `std::thread` writers and the async wrapper `save_indexed_data_async` are modelled as running in index order. The files they write have distinct names (`SaveNamesDistinct`), so the order does not change the result.
- Buffers and memory maps: `BufWriter`/`BufReader` capacities and `memmap2` are not modelled. The mapped read gives the same bytes as the buffered one.
- Console output and formatting: `println!`, `eprintln!`, timings and throughput are not modelled. Neither is the `size_str` text of get_cache_info, which uses floating point; the info entries are (name, size) pairs.
- Constructors and cloning: `CacheManager::new` (it calls `num_cpus::get()`), `impl Clone` and the unused `get_cache_path` of the sharded cache are not modelled. `ShardInfo` is never used in the source.
- benchmark_cache: this timing benchmark of timstof_optimized_2 builds synthetic data and prints rates, and is not part of the cache's behaviour.
- Other I/O failures: only `File::create` failures are modelled (missing directory, locked name). Failed writes, a failing `remove_dir_all`, a failing `fs::metadata` and I/O errors other than a missing file are not.
- OptimizedCache.CacheManager.SaveIndexedData: requires at least one thread when the table is non-empty, because `split_into_shards` divides by the thread count and panics on zero.
- OptimizedCache.CacheManager.SaveIndexedData: the `u64` sums of the reported sizes are not taken, so their overflow is not modelled.
- OptimizedCache.LoadIndexedData: an error names the file it concerns and its kind (NotFound, PermissionDenied, Corrupt), and a re-raised error keeps that cause inside Other. The source's `io::Error` carries a kind and the operating system's or library's message, and the re-raised one keeps only the message's text.
- OptimizedCache.MissingShardAbortsLoad: the missing shard is named in the error; the source's message is the operating system's text for a missing file.
- OptimizedCache.ClearedCacheIsInvalid: the missing metadata file is named in the error; the source's message is the operating system's text for a missing file.
- StreamFile.LoadDataFromFile: a frame or an encoding that does not decode is `Corrupt(name)`; the source reports these as the decoder's own error or an `io::Error` of kind Other, without the file name.
- FileStore.FileSystem.constructor: requires that a missing directory hold no files, the invariant `Valid` every method of the file system keeps.
- TimstofOptimized.CacheManager.SaveCommittingLast: writes the two data files one after another; written in parallel, the metadata would follow once both writers joined, which a model that runs writers in index order does not tell apart.
- TimstofOptimized2.CacheManager.SaveIndexedData: finishes the MS2 frame, as evidently intended; the unfinished frame of the source is `AsWrittenSaveWrites` (see Findings).
- OptimizedCache.SaveThenLoad: requires every count, length and time to fit the 64-bit fields of the format, and the table's columns to be aligned, as `from_indexed_slice` indexes all six by the m/z row count.

## Findings

| source | as written | input that shows it | evidently intended | confidence | as-written member | corrected member |
|---|---|---|---|---|---|---|
| timstof_optimized_2/src/cache.rs:184-188 | the compressing branch of save_data_to_file writes through an lz4_flex `FrameEncoder` and lets it drop without `finish()`, so the last buffered block (up to 64 KiB) and the frame's end mark never reach the file | the default configuration (automatic compression on, so MS2 is compressed) saving a table with no MS2 windows: the 8-byte window list stays in the encoder's buffer, the MS2 file holds an empty frame, and the load fails with that file corrupt | finish the frame (as timstof_optimized does), so that every compressed file loads back as what was saved | not executed | TimstofOptimized2.UnfinishedFrameLosesWindows | TimstofOptimized2.SaveThenLoad |
| timstof_optimized/src/cache.rs:92-169 | save_indexed_data overwrites the files of an existing cache in place and writes the metadata file without removing the old one first; validity (lines 61-80) asks only that the three files exist and the MS1 file be newer than the source | an older cache of the source, then a save whose MS2 file cannot be created: the MS1 file is replaced and the error returned, but the old MS2 and metadata files remain, so the cache is valid and loads the new MS1 table with the old windows | a save that fails leaves no valid cache: remove the metadata file first and write it only after both data files | not executed | TimstofOptimized.StaleWindowsSurviveFailedSave | TimstofOptimized.CacheManager.SaveCommittingLast |
| timstof_optimized_2/src/cache.rs:93-136 | save_indexed_data overwrites the files of an existing cache in place and writes the metadata file without removing the old one first; validity (lines 71-90) asks only that the three files exist and the MS1 file be newer than the source | with MS2 stored raw (automatic and explicit compression both off, as `configure_for_threads(1)` leaves the default), an older cache of the source, then a save whose MS2 file cannot be created: the MS1 file is replaced and the error returned, but the old MS2 and metadata files remain, so the cache is valid and loads the new MS1 table with the old windows (with MS2 compressed the cache is valid too, and its load fails) | a save that fails leaves no valid cache: remove the metadata file first and write it only after both data files | not executed | TimstofOptimized2.StaleWindowsSurviveFailedSave | TimstofOptimized2.CacheManager.SaveCommittingLast |
