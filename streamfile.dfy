/** One value per file, as the two single-file caches store it: the
    bincode bytes, written through an LZ4 frame encoder when compression is
    on, and read back through the matching decoder. */
module StreamFile {
  import opened Binary
  import opened Outcomes
  import opened FileStore
  import C = Compression

  /** The bytes save_data_to_file leaves in the file. */
  function Stored(data: Bytes, compress: bool): Bytes {
    if compress then C.Lz4Encode(data) else data
  }

  /** load_data_from_file once the file is opened: undo the frame when
      compression is on, then decode the value; a failed open, a bad frame
      and a failed decode are each an error for that file. */
  function Decoded<T>(read: Result<Bytes>, name: string, compress: bool, decode: Bytes -> Option<(T, Bytes)>): Result<T> {
    match read
    case Err(e) => Err(e)
    case Ok(bs) =>
      var raw := if compress then C.Lz4Decode(bs) else Some(bs);
      match raw
      case None => Err(Corrupt(name))
      case Some(payload) =>
        match decode(payload)
        case None => Err(Corrupt(name))
        case Some((v, _)) => Ok(v)
  }

  /** Whatever the setting, the stored bytes decode to the value they were
      encoded from, when read back with the same setting. */
  lemma StoredThenDecoded<T>(data: Bytes, name: string, compress: bool,
                             decode: Bytes -> Option<(T, Bytes)>, v: T, rest: Bytes)
    requires decode(data) == Some((v, rest))
    ensures Decoded(Ok(Stored(data, compress)), name, compress, decode) == Ok(v)
  {
  }

  /** save_data_to_file: create the file and write the stored bytes. */
  method SaveDataToFile(fs: FileSystem, name: string, data: Bytes, compress: bool, now: nat) returns (r: Result<()>)
    requires fs.Valid()
    modifies fs
    ensures fs.Valid()
    ensures fs.dirExists == old(fs.dirExists)
    ensures r == CreateResult(fs.dirExists, fs.locked, name)
    ensures fs.files == WriteAll(old(fs.files), fs.dirExists, fs.locked, [Write(name, Stored(data, compress))], now)
  {
    r := fs.Create(name, Stored(data, compress), now);
  }

  /** load_data_from_file: open the file and decode what it holds; that a
      saved file reads back is StoredThenDecoded. */
  method LoadDataFromFile<T>(fs: FileSystem, name: string, compress: bool, decode: Bytes -> Option<(T, Bytes)>)
    returns (r: Result<T>)
    ensures r == Decoded(ReadResult(fs.files, name), name, compress, decode)
  {
    var bytes := fs.Read(name);
    r := Decoded(bytes, name, compress, decode);
  }
}
