/** The values being cached: the indexed scan table, its row-range shards and
    the fragment-window table. */
module Dataset {
  import opened Binary

  /** An IEEE-754 single-precision value, carried as its 32-bit pattern, so
      that equality is bit-for-bit (NaN payloads and infinities included). */
  type F32 = uint32

  /** One detected point: row i read across the six columns. */
  datatype Point = Point(rtValueMin: F32, mobility: F32, mz: F32, intensity: uint32, frame: uint32, scan: uint32)

  /** Six parallel columns; row i across the columns is one detected point. */
  datatype IndexedData = IndexedData(
    rtValuesMin: seq<F32>,
    mobilityValues: seq<F32>,
    mzValues: seq<F32>,
    intensityValues: seq<uint32>,
    frameIndices: seq<uint32>,
    scanIndices: seq<uint32>)
  {
    /** All six columns have one entry per row. */
    predicate Aligned() {
      && |rtValuesMin| == |mzValues|
      && |mobilityValues| == |mzValues|
      && |intensityValues| == |mzValues|
      && |frameIndices| == |mzValues|
      && |scanIndices| == |mzValues|
    }

    /** Every column has at least `n` entries, so rows 0..n can be sliced. */
    predicate HasRows(n: nat) {
      && |rtValuesMin| >= n
      && |mobilityValues| >= n
      && |mzValues| >= n
      && |intensityValues| >= n
      && |frameIndices| >= n
      && |scanIndices| >= n
    }

    function RowAt(i: nat): Point
      requires HasRows(i + 1)
    {
      Point(rtValuesMin[i], mobilityValues[i], mzValues[i], intensityValues[i], frameIndices[i], scanIndices[i])
    }

    /** Every column fits the u64 length prefix of the binary encoding. */
    predicate Fits() {
      && |rtValuesMin| < TWO_TO_THE_64
      && |mobilityValues| < TWO_TO_THE_64
      && |mzValues| < TWO_TO_THE_64
      && |intensityValues| < TWO_TO_THE_64
      && |frameIndices| < TWO_TO_THE_64
      && |scanIndices| < TWO_TO_THE_64
    }
  }

  /** The key of a fragment window: the (low, high) mass range it isolates. */
  type MzRange = (F32, F32)

  /** A window of the fragment table and the points it holds. */
  type WindowPair = (MzRange, IndexedData)

  /** A contiguous row range of a table, tagged with the mass values of its
      first and last row. */
  datatype DataShard = DataShard(
    rtValuesMin: seq<F32>,
    mobilityValues: seq<F32>,
    mzValues: seq<F32>,
    intensityValues: seq<uint32>,
    frameIndices: seq<uint32>,
    scanIndices: seq<uint32>,
    mzRange: MzRange)
  {
    function PointCount(): nat {
      |mzValues|
    }

    predicate Aligned() {
      && |rtValuesMin| == |mzValues|
      && |mobilityValues| == |mzValues|
      && |intensityValues| == |mzValues|
      && |frameIndices| == |mzValues|
      && |scanIndices| == |mzValues|
    }

    /** The six columns, without the range tag. */
    function Table(): IndexedData {
      IndexedData(rtValuesMin, mobilityValues, mzValues, intensityValues, frameIndices, scanIndices)
    }
  }

  /** A whole table saved as one shard, tagged with its window key. */
  function WindowShard(pair: WindowPair): DataShard {
    var (range, d) := pair;
    DataShard(d.rtValuesMin, d.mobilityValues, d.mzValues, d.intensityValues,
              d.frameIndices, d.scanIndices, range)
  }

  /** The window a loaded shard stands for. */
  function ShardWindow(s: DataShard): WindowPair {
    (s.mzRange, s.Table())
  }

  lemma WindowShardRoundTrip(pair: WindowPair)
    ensures ShardWindow(WindowShard(pair)) == pair
  {
  }
}
