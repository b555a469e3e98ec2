/** The compression choices of the cache and their inverse transforms.

    A compressed stream is modelled as its frame: the format's magic number
    followed by the payload. The block compression inside a frame is not
    modelled; what is kept is that a decoder checks the framing and refuses
    bytes that were not produced by its own encoder. */
module Compression {
  import Binary

  type Bytes = Binary.Bytes

  /** The CompressionType of the sharded cache. */
  datatype CompressionType = None | Lz4 | Zstd | Hybrid

  /** The magic number that opens an LZ4 frame (0x184D2204, little-endian). */
  const LZ4_MAGIC: Bytes := [0x04, 0x22, 0x4D, 0x18]

  /** The magic number that opens a Zstandard frame (0xFD2FB528, little-endian). */
  const ZSTD_MAGIC: Bytes := [0x28, 0xB5, 0x2F, 0xFD]

  function Frame(magic: Bytes, payload: Bytes): Bytes {
    magic + payload
  }

  /** The payload of a frame opened by `magic`, or nothing if the bytes do not
      start with that magic number. */
  function Unframe(magic: Bytes, bs: Bytes): (r: Binary.Option<Bytes>)
    requires |magic| == 4
  {
    if |bs| >= 4 && bs[..4] == magic then Binary.Some(bs[4..]) else Binary.None
  }

  lemma UnframeFrame(magic: Bytes, payload: Bytes)
    requires |magic| == 4
    ensures Unframe(magic, Frame(magic, payload)) == Binary.Some(payload)
  {
    assert (magic + payload)[..4] == magic;
    assert (magic + payload)[4..] == payload;
  }

  /** An LZ4 frame encoder (level 4 in the sharded cache; lz4_flex elsewhere). */
  function Lz4Encode(data: Bytes): (r: Bytes)
    ensures Lz4Decode(r) == Binary.Some(data)
  {
    UnframeFrame(LZ4_MAGIC, data);
    Frame(LZ4_MAGIC, data)
  }

  function Lz4Decode(bs: Bytes): Binary.Option<Bytes> {
    Unframe(LZ4_MAGIC, bs)
  }

  function ZstdEncode(data: Bytes): (r: Bytes)
    ensures ZstdDecode(r) == Binary.Some(data)
  {
    UnframeFrame(ZSTD_MAGIC, data);
    Frame(ZSTD_MAGIC, data)
  }

  function ZstdDecode(bs: Bytes): Binary.Option<Bytes> {
    Unframe(ZSTD_MAGIC, bs)
  }

  /** compress_data: `Hybrid` delegates to `Lz4`. */
  function CompressData(data: Bytes, compression: CompressionType): (r: Bytes)
    ensures DecompressData(r, compression) == Binary.Some(data)
  {
    match compression
    case None => data
    case Lz4 => Lz4Encode(data)
    case Zstd => ZstdEncode(data)
    case Hybrid => Lz4Encode(data)
  }

  /** decompress_data: `Hybrid` delegates to `Lz4`. */
  function DecompressData(bs: Bytes, compression: CompressionType): Binary.Option<Bytes> {
    match compression
    case None => Binary.Some(bs)
    case Lz4 => Lz4Decode(bs)
    case Zstd => ZstdDecode(bs)
    case Hybrid => Lz4Decode(bs)
  }

  /** `None` passes bytes through unchanged, and `Hybrid` compresses and
      decompresses exactly as `Lz4` does. */
  lemma DispatchEquivalences(data: Bytes, bs: Bytes)
    ensures CompressData(data, None) == data && DecompressData(bs, None) == Binary.Some(bs)
    ensures CompressData(data, Hybrid) == CompressData(data, Lz4)
    ensures DecompressData(bs, Hybrid) == DecompressData(bs, Lz4)
  {
  }

  /** A frame decoded with the other format's decoder is refused, not
      misread; so is a stream too short to hold a magic number. */
  lemma {:induction false} MismatchedFrameRefused(data: Bytes, short: Bytes)
    requires |short| < 4
    ensures DecompressData(CompressData(data, Lz4), Zstd) == Binary.None
    ensures DecompressData(CompressData(data, Zstd), Lz4) == Binary.None
    ensures DecompressData(short, Lz4) == Binary.None && DecompressData(short, Zstd) == Binary.None
  {
    assert CompressData(data, Lz4)[0] == 0x04;
    assert CompressData(data, Zstd)[0] == 0x28;
  }
}
