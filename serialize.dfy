/** The binary encoding the cache files hold (bincode's default layout):
    a vector is its u64 length followed by its elements, a struct or a tuple
    is its fields in declaration order, integers are little-endian, an f32
    is its 32 bits. Decoding reads what it needs and leaves the rest.

    Each encoder takes the bytes that follow the value (`rest`), as a
    serializer writing into a stream would, so that a decoder's round trip
    is stated once for whatever comes after. */
module Serialize {
  import opened Binary
  import opened Dataset

  /** The elements of a sequence one after the other, each in the element
      encoding `enc`. */
  function EncodeSeq<T>(enc: (T, Bytes) -> Bytes, xs: seq<T>, rest: Bytes): Bytes {
    if xs == [] then rest else enc(xs[0], EncodeSeq(enc, xs[1..], rest))
  }

  /** Reads `count` elements with the element decoder `dec`. */
  function DecodeSeq<T>(dec: Bytes -> Option<(T, Bytes)>, bs: Bytes, count: nat): (r: Option<(seq<T>, Bytes)>)
    ensures r.Some? ==> |r.value.0| == count
    decreases count
  {
    if count == 0 then Some(([], bs))
    else
      match dec(bs)
      case None => None
      case Some((x, bs1)) =>
        match DecodeSeq(dec, bs1, count - 1)
        case None => None
        case Some((xs, bs2)) => Some(([x] + xs, bs2))
  }

  /** The elements round-trip when each element does. */
  lemma {:induction false} SeqRoundTrip<T>(enc: (T, Bytes) -> Bytes, dec: Bytes -> Option<(T, Bytes)>, ok: T -> bool,
                                           xs: seq<T>, rest: Bytes)
    requires forall x, r :: ok(x) ==> dec(enc(x, r)) == Some((x, r))
    requires forall i :: 0 <= i < |xs| ==> ok(xs[i])
    ensures DecodeSeq(dec, EncodeSeq(enc, xs, rest), |xs|) == Some((xs, rest))
  {
    if xs != [] {
      var tail := xs[1..];
      assert forall i :: 0 <= i < |tail| ==> tail[i] == xs[i + 1];
      SeqRoundTrip(enc, dec, ok, tail, rest);
      assert dec(enc(xs[0], EncodeSeq(enc, tail, rest))) == Some((xs[0], EncodeSeq(enc, tail, rest)));
      assert [xs[0]] + tail == xs;
    }
  }

  /** A decoder extends when bytes appended to its input pass through to
      what it leaves: it reads the same value from `bs + t` as from `bs`. */
  ghost predicate Extends<T>(dec: Bytes -> Option<(T, Bytes)>) {
    forall bs: Bytes, t: Bytes :: dec(bs).Some? ==> dec(bs + t) == Some((dec(bs).value.0, dec(bs).value.1 + t))
  }

  lemma {:induction false} SeqExtends<T>(dec: Bytes -> Option<(T, Bytes)>, bs: Bytes, count: nat, t: Bytes)
    requires Extends(dec) && DecodeSeq(dec, bs, count).Some?
    ensures var r := DecodeSeq(dec, bs, count).value;
      DecodeSeq(dec, bs + t, count) == Some((r.0, r.1 + t))
    decreases count
  {
    if count > 0 {
      var bs1 := dec(bs).value.1;
      SeqExtends(dec, bs1, count - 1, t);
    }
  }

  /** A Vec<T>: its u64 length, then its elements. */
  function EncodeVec<T>(enc: (T, Bytes) -> Bytes, xs: seq<T>, rest: Bytes): Bytes {
    EncodeU64(|xs|) + EncodeSeq(enc, xs, rest)
  }

  function DecodeVec<T>(dec: Bytes -> Option<(T, Bytes)>, bs: Bytes): Option<(seq<T>, Bytes)> {
    match DecodeU64(bs)
    case None => None
    case Some((n, rest)) => DecodeSeq(dec, rest, n)
  }

  lemma VecRoundTrip<T>(enc: (T, Bytes) -> Bytes, dec: Bytes -> Option<(T, Bytes)>, ok: T -> bool,
                        xs: seq<T>, rest: Bytes)
    requires forall x, r :: ok(x) ==> dec(enc(x, r)) == Some((x, r))
    requires forall i :: 0 <= i < |xs| ==> ok(xs[i])
    requires |xs| < TWO_TO_THE_64
    ensures DecodeVec(dec, EncodeVec(enc, xs, rest)) == Some((xs, rest))
  {
    U64RoundTrip(|xs|, EncodeSeq(enc, xs, rest));
    SeqRoundTrip(enc, dec, ok, xs, rest);
  }

  lemma VecExtends<T>(dec: Bytes -> Option<(T, Bytes)>, bs: Bytes, t: Bytes)
    requires Extends(dec) && DecodeVec(dec, bs).Some?
    ensures DecodeVec(dec, bs + t) == Some((DecodeVec(dec, bs).value.0, DecodeVec(dec, bs).value.1 + t))
  {
    var (n, rest) := DecodeU64(bs).value;
    DecodeU64Extends(bs, t);
    SeqExtends(dec, rest, n, t);
  }

  /** An f32 or u32 element: its four bytes. */
  function EncodeWord(x: uint32, rest: Bytes): Bytes {
    EncodeU32(x) + rest
  }

  /** A Vec<f32> or Vec<u32>. */
  function EncodeColumn(xs: seq<uint32>, rest: Bytes): Bytes {
    EncodeVec(EncodeWord, xs, rest)
  }

  function DecodeColumn(bs: Bytes): Option<(seq<uint32>, Bytes)> {
    DecodeVec(DecodeU32, bs)
  }

  lemma ColumnRoundTrip(xs: seq<uint32>, rest: Bytes)
    requires |xs| < TWO_TO_THE_64
    ensures DecodeColumn(EncodeColumn(xs, rest)) == Some((xs, rest))
  {
    forall x: uint32, r: Bytes
      ensures DecodeU32(EncodeWord(x, r)) == Some((x, r))
    {
      U32RoundTrip(x, r);
    }
    VecRoundTrip(EncodeWord, DecodeU32, (x: uint32) => true, xs, rest);
  }

  lemma ColumnExtends(bs: Bytes, t: Bytes)
    requires DecodeColumn(bs).Some?
    ensures DecodeColumn(bs + t) == Some((DecodeColumn(bs).value.0, DecodeColumn(bs).value.1 + t))
  {
    forall b: Bytes, u: Bytes | DecodeU32(b).Some?
      ensures DecodeU32(b + u) == Some((DecodeU32(b).value.0, DecodeU32(b).value.1 + u))
    {
      DecodeU32Extends(b, u);
    }
    VecExtends(DecodeU32, bs, t);
  }

  /** An IndexedTimsTOFData value: its six columns in order. */
  function EncodeData(d: IndexedData, rest: Bytes): Bytes {
    EncodeColumn(d.rtValuesMin,
      EncodeColumn(d.mobilityValues,
        EncodeColumn(d.mzValues,
          EncodeColumn(d.intensityValues,
            EncodeColumn(d.frameIndices,
              EncodeColumn(d.scanIndices, rest))))))
  }

  function DecodeData(bs: Bytes): Option<(IndexedData, Bytes)> {
    match DecodeColumn(bs)
    case None => None
    case Some((rt, bs1)) =>
      match DecodeColumn(bs1)
      case None => None
      case Some((mobility, bs2)) =>
        match DecodeColumn(bs2)
        case None => None
        case Some((mz, bs3)) =>
          match DecodeColumn(bs3)
          case None => None
          case Some((intensity, bs4)) =>
            match DecodeColumn(bs4)
            case None => None
            case Some((frame, bs5)) =>
              match DecodeColumn(bs5)
              case None => None
              case Some((scan, bs6)) => Some((IndexedData(rt, mobility, mz, intensity, frame, scan), bs6))
  }

  lemma DataRoundTrip(d: IndexedData, rest: Bytes)
    requires d.Fits()
    ensures DecodeData(EncodeData(d, rest)) == Some((d, rest))
  {
    var t5 := EncodeColumn(d.scanIndices, rest);
    var t4 := EncodeColumn(d.frameIndices, t5);
    var t3 := EncodeColumn(d.intensityValues, t4);
    var t2 := EncodeColumn(d.mzValues, t3);
    var t1 := EncodeColumn(d.mobilityValues, t2);
    ColumnRoundTrip(d.rtValuesMin, t1);
    ColumnRoundTrip(d.mobilityValues, t2);
    ColumnRoundTrip(d.mzValues, t3);
    ColumnRoundTrip(d.intensityValues, t4);
    ColumnRoundTrip(d.frameIndices, t5);
    ColumnRoundTrip(d.scanIndices, rest);
  }

  lemma DataExtends(bs: Bytes, t: Bytes)
    requires DecodeData(bs).Some?
    ensures DecodeData(bs + t) == Some((DecodeData(bs).value.0, DecodeData(bs).value.1 + t))
  {
    var bs1 := DecodeColumn(bs).value.1;
    var bs2 := DecodeColumn(bs1).value.1;
    var bs3 := DecodeColumn(bs2).value.1;
    var bs4 := DecodeColumn(bs3).value.1;
    var bs5 := DecodeColumn(bs4).value.1;
    ColumnExtends(bs, t);
    ColumnExtends(bs1, t);
    ColumnExtends(bs2, t);
    ColumnExtends(bs3, t);
    ColumnExtends(bs4, t);
    ColumnExtends(bs5, t);
  }

  /** An (f32, f32) mass range. */
  function EncodeRange(r: MzRange, rest: Bytes): Bytes {
    EncodeU32(r.0) + (EncodeU32(r.1) + rest)
  }

  function DecodeRange(bs: Bytes): Option<(MzRange, Bytes)> {
    match DecodeU32(bs)
    case None => None
    case Some((lo, bs1)) =>
      match DecodeU32(bs1)
      case None => None
      case Some((hi, bs2)) => Some(((lo, hi), bs2))
  }

  lemma RangeRoundTrip(r: MzRange, rest: Bytes)
    ensures DecodeRange(EncodeRange(r, rest)) == Some((r, rest))
  {
    U32RoundTrip(r.0, EncodeU32(r.1) + rest);
    U32RoundTrip(r.1, rest);
  }

  lemma RangeExtends(bs: Bytes, t: Bytes)
    requires DecodeRange(bs).Some?
    ensures DecodeRange(bs + t) == Some((DecodeRange(bs).value.0, DecodeRange(bs).value.1 + t))
  {
    DecodeU32Extends(bs, t);
    DecodeU32Extends(DecodeU32(bs).value.1, t);
  }

  /** A DataShard: the six columns, then the range tag. */
  function EncodeShard(s: DataShard, rest: Bytes): Bytes {
    EncodeData(s.Table(), EncodeRange(s.mzRange, rest))
  }

  function DecodeShard(bs: Bytes): Option<(DataShard, Bytes)> {
    match DecodeData(bs)
    case None => None
    case Some((d, bs1)) =>
      match DecodeRange(bs1)
      case None => None
      case Some((range, bs2)) =>
        Some((DataShard(d.rtValuesMin, d.mobilityValues, d.mzValues, d.intensityValues,
                        d.frameIndices, d.scanIndices, range), bs2))
  }

  lemma ShardRoundTrip(s: DataShard, rest: Bytes)
    requires s.Table().Fits()
    ensures DecodeShard(EncodeShard(s, rest)) == Some((s, rest))
  {
    DataRoundTrip(s.Table(), EncodeRange(s.mzRange, rest));
    RangeRoundTrip(s.mzRange, rest);
  }

  /** One ((f32, f32), IndexedTimsTOFData) element: the key, then the table. */
  function EncodeWindow(w: WindowPair, rest: Bytes): Bytes {
    EncodeRange(w.0, EncodeData(w.1, rest))
  }

  function DecodeWindow(bs: Bytes): Option<(WindowPair, Bytes)> {
    match DecodeRange(bs)
    case None => None
    case Some((range, bs1)) =>
      match DecodeData(bs1)
      case None => None
      case Some((d, bs2)) => Some(((range, d), bs2))
  }

  lemma WindowRoundTrip(w: WindowPair, rest: Bytes)
    requires w.1.Fits()
    ensures DecodeWindow(EncodeWindow(w, rest)) == Some((w, rest))
  {
    RangeRoundTrip(w.0, EncodeData(w.1, rest));
    DataRoundTrip(w.1, rest);
  }

  lemma WindowExtends(bs: Bytes, t: Bytes)
    requires DecodeWindow(bs).Some?
    ensures DecodeWindow(bs + t) == Some((DecodeWindow(bs).value.0, DecodeWindow(bs).value.1 + t))
  {
    RangeExtends(bs, t);
    DataExtends(DecodeRange(bs).value.1, t);
  }

  /** A window list read from `bs` is read from `bs + t` too, with `t`
      left over after it. */
  lemma PairsExtends(bs: Bytes, t: Bytes)
    ensures DecodePairs(bs).Some? ==>
      DecodePairs(bs + t) == Some((DecodePairs(bs).value.0, DecodePairs(bs).value.1 + t))
  {
    if DecodePairs(bs).Some? {
      forall b: Bytes, u: Bytes | DecodeWindow(b).Some?
        ensures DecodeWindow(b + u) == Some((DecodeWindow(b).value.0, DecodeWindow(b).value.1 + u))
      {
        WindowExtends(b, u);
      }
      VecExtends(DecodeWindow, bs, t);
    }
  }

  /** The fragment-window list and each of its tables fit the encoding. */
  predicate PairsFit(pairs: seq<WindowPair>) {
    && |pairs| < TWO_TO_THE_64
    && forall i :: 0 <= i < |pairs| ==> pairs[i].1.Fits()
  }

  /** A Vec<((f32, f32), IndexedTimsTOFData)>. */
  function EncodePairs(pairs: seq<WindowPair>, rest: Bytes): Bytes {
    EncodeVec(EncodeWindow, pairs, rest)
  }

  function DecodePairs(bs: Bytes): Option<(seq<WindowPair>, Bytes)> {
    DecodeVec(DecodeWindow, bs)
  }

  lemma PairsRoundTrip(pairs: seq<WindowPair>, rest: Bytes)
    requires PairsFit(pairs)
    ensures DecodePairs(EncodePairs(pairs, rest)) == Some((pairs, rest))
  {
    forall w: WindowPair, r: Bytes | w.1.Fits()
      ensures DecodeWindow(EncodeWindow(w, r)) == Some((w, r))
    {
      WindowRoundTrip(w, r);
    }
    VecRoundTrip(EncodeWindow, DecodeWindow, (w: WindowPair) => w.1.Fits(), pairs, rest);
  }

  /** A window list cut short anywhere does not decode: bincode reads the
      count first and then needs every byte of every window. */
  lemma PairsPrefixRefused(pairs: seq<WindowPair>, k: nat)
    requires PairsFit(pairs) && k < |EncodePairs(pairs, [])|
    ensures DecodePairs(EncodePairs(pairs, [])[..k]) == None
  {
    var encoded := EncodePairs(pairs, []);
    PairsRoundTrip(pairs, []);
    assert encoded[..k] + encoded[k..] == encoded;
    PairsExtends(encoded[..k], encoded[k..]);
  }
}
