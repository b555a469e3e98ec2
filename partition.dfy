/** The partitioner of the sharded cache: cutting a table into contiguous
    row ranges of near-equal size and concatenating them back. */
module Partition {
  import opened Binary
  import opened Dataset

  function Min(a: nat, b: nat): nat {
    if a < b then a else b
  }

  /** The shard holding rows start..end of `d`, tagged with the mass values
      of its first and last row (DataShard::from_indexed_slice). The slicing
      and indexing of the source panic unless these bounds hold. */
  function FromIndexedSlice(d: IndexedData, start: nat, end: nat): (s: DataShard)
    requires start < |d.mzValues| && 1 <= end && start <= end
    requires d.HasRows(end)
    ensures s.Aligned() && s.PointCount() == end - start
    ensures s.mzRange == (d.mzValues[start], d.mzValues[end - 1])
    ensures forall k :: 0 <= k < end - start ==> s.Table().RowAt(k) == d.RowAt(start + k)
  {
    DataShard(
      d.rtValuesMin[start..end],
      d.mobilityValues[start..end],
      d.mzValues[start..end],
      d.intensityValues[start..end],
      d.frameIndices[start..end],
      d.scanIndices[start..end],
      (d.mzValues[start], d.mzValues[end - 1]))
  }

  /** Rows a..b of every column. */
  function Rows(d: IndexedData, a: nat, b: nat): IndexedData
    requires a <= b && d.HasRows(b)
  {
    IndexedData(
      d.rtValuesMin[a..b],
      d.mobilityValues[a..b],
      d.mzValues[a..b],
      d.intensityValues[a..b],
      d.frameIndices[a..b],
      d.scanIndices[a..b])
  }

  /** ceil(n / k): the rows given to each shard when n rows are cut k ways. */
  function CeilDiv(n: nat, k: nat): nat
    requires k >= 1
  {
    (n + k - 1) / k
  }

  lemma CeilDivBounds(n: nat, k: nat)
    requires k >= 1
    ensures CeilDiv(n, k) * k >= n
    ensures CeilDiv(n, k) >= 1 ==> (CeilDiv(n, k) - 1) * k < n
    ensures n >= 1 ==> CeilDiv(n, k) >= 1
  {
    var q, r := (n + k - 1) / k, (n + k - 1) % k;
    assert n + k - 1 == q * k + r;
    assert (q - 1) * k == q * k - k;
  }

  lemma MulMonotone(a: nat, b: nat, p: nat)
    requires a <= b
    ensures a * p <= b * p
  {
    assert b * p == a * p + (b - a) * p;
  }

  /** With p rows per shard, shard i starts inside the table exactly when i
      is below ceil(n / p). */
  lemma ShardStartsInside(n: nat, p: nat, i: nat)
    requires p >= 1
    ensures i * p < n <==> i < CeilDiv(n, p)
  {
    CeilDivBounds(n, p);
    var c := CeilDiv(n, p);
    if i < c {
      MulMonotone(i, c - 1, p);
    } else {
      MulMonotone(c, i, p);
    }
  }

  /** Shard i of a table of n rows cut into shards of p rows. */
  function ShardAt(d: IndexedData, p: nat, i: nat): (s: DataShard)
    requires p >= 1 && i * p < |d.mzValues|
    requires d.HasRows(|d.mzValues|)
    ensures s.Aligned() && s.PointCount() >= 1
  {
    assert (i + 1) * p == i * p + p;
    FromIndexedSlice(d, i * p, Min((i + 1) * p, |d.mzValues|))
  }

  /** Cutting n >= 1 rows k ways gives shards of at least one row, and no
      more than k of them. */
  lemma ShardCountBound(n: nat, k: nat)
    requires n >= 1 && k >= 1
    ensures CeilDiv(n, k) >= 1 && CeilDiv(n, CeilDiv(n, k)) <= k
  {
    var p := CeilDiv(n, k);
    CeilDivBounds(n, k);
    ShardStartsInside(n, p, k);
    assert k * p == p * k;
  }

  /** What split_into_shards returns: ceil(n / k) rows per shard, shard i
      holding rows i*p .. min((i+1)*p, n), shards that would start past the
      last row left out. A table without rows gives no shards, whatever k is;
      otherwise k = 0 would divide by zero. */
  function Split(d: IndexedData, k: nat): (shards: seq<DataShard>)
    requires k >= 1 || |d.mzValues| == 0
    requires d.HasRows(|d.mzValues|)
    ensures |d.mzValues| == 0 ==> shards == []
    ensures |shards| <= k
    ensures forall i :: 0 <= i < |shards| ==> shards[i].Aligned() && shards[i].PointCount() > 0
  {
    var n := |d.mzValues|;
    if n == 0 then []
    else
      ShardCountBound(n, k);
      var p := CeilDiv(n, k);
      var count := CeilDiv(n, p);
      seq(count, i requires 0 <= i < count =>
        ShardStartsInside(n, p, i);
        ShardAt(d, p, i))
  }

  /** Shard i of the split exists exactly when it starts inside the
      table, and then it is the slice ShardAt names. */
  lemma SplitAt(d: IndexedData, k: nat, i: nat)
    requires k >= 1 && d.HasRows(|d.mzValues|) && |d.mzValues| >= 1
    ensures var n, p := |d.mzValues|, CeilDiv(|d.mzValues|, k);
      && (i < |Split(d, k)| <==> i * p < n)
      && (i < |Split(d, k)| ==> Split(d, k)[i] == FromIndexedSlice(d, i * p, Min((i + 1) * p, n)))
  {
    var n := |d.mzValues|;
    ShardCountBound(n, k);
    ShardStartsInside(n, CeilDiv(n, k), i);
  }

  /** Each shard covers exactly its row range, and the ranges follow each
      other without gap or overlap. */
  lemma SplitCoversRows(d: IndexedData, k: nat, i: nat)
    requires k >= 1 && d.HasRows(|d.mzValues|)
    requires i < |Split(d, k)|
    ensures var n, p := |d.mzValues|, CeilDiv(|d.mzValues|, k);
      && i * p < n
      && Split(d, k)[i].Table() == Rows(d, i * p, Min((i + 1) * p, n))
      && Split(d, k)[i].mzRange == (d.mzValues[i * p], d.mzValues[Min((i + 1) * p, n) - 1])
  {
    var n, p := |d.mzValues|, CeilDiv(|d.mzValues|, k);
    CeilDivBounds(n, k);
    ShardStartsInside(n, p, i);
    assert (i + 1) * p == i * p + p;
  }

  /** Each shard of a table whose columns fit the format fits it too. */
  lemma SplitFits(d: IndexedData, k: nat, i: nat)
    requires k >= 1 && d.Aligned() && d.Fits()
    requires i < |Split(d, k)|
    ensures Split(d, k)[i].Table().Fits()
  {
    SplitCoversRows(d, k, i);
  }

  /** The number of shards: ceil(n / ceil(n / k)), never more than k. */
  lemma SplitCount(d: IndexedData, k: nat)
    requires k >= 1 && d.HasRows(|d.mzValues|) && |d.mzValues| >= 1
    ensures |Split(d, k)| == CeilDiv(|d.mzValues|, CeilDiv(|d.mzValues|, k))
    ensures 1 <= |Split(d, k)| <= k
  {
    var n := |d.mzValues|;
    CeilDivBounds(n, k);
    CeilDivBounds(n, CeilDiv(n, k));
  }

  /** The concatenation of a table and a shard, column by column. */
  function Append(acc: IndexedData, s: DataShard): IndexedData {
    IndexedData(
      acc.rtValuesMin + s.rtValuesMin,
      acc.mobilityValues + s.mobilityValues,
      acc.mzValues + s.mzValues,
      acc.intensityValues + s.intensityValues,
      acc.frameIndices + s.frameIndices,
      acc.scanIndices + s.scanIndices)
  }

  function Empty(): IndexedData {
    IndexedData([], [], [], [], [], [])
  }

  /** The sum of the shards' point counts (the capacity merge_shards reserves). */
  function TotalPoints(shards: seq<DataShard>): nat {
    if shards == [] then 0 else TotalPoints(shards[..|shards| - 1]) + shards[|shards| - 1].PointCount()
  }

  /** The shards' columns concatenated in shard order (merge_shards); the
      range tags are dropped. */
  function Merge(shards: seq<DataShard>): (d: IndexedData)
    ensures |d.mzValues| == TotalPoints(shards)
    ensures (forall i :: 0 <= i < |shards| ==> shards[i].Aligned()) ==> d.Aligned()
  {
    if shards == [] then Empty()
    else Append(Merge(shards[..|shards| - 1]), shards[|shards| - 1])
  }

  /** Rows 0..a followed by a shard holding rows a..b are rows 0..b. */
  lemma AppendRows(d: IndexedData, a: nat, b: nat, s: DataShard)
    requires a <= b && d.HasRows(b)
    requires s.Table() == Rows(d, a, b)
    ensures Append(Rows(d, 0, a), s) == Rows(d, 0, b)
  {
    assert d.rtValuesMin[..a] + d.rtValuesMin[a..b] == d.rtValuesMin[..b];
    assert d.mobilityValues[..a] + d.mobilityValues[a..b] == d.mobilityValues[..b];
    assert d.mzValues[..a] + d.mzValues[a..b] == d.mzValues[..b];
    assert d.intensityValues[..a] + d.intensityValues[a..b] == d.intensityValues[..b];
    assert d.frameIndices[..a] + d.frameIndices[a..b] == d.frameIndices[..b];
    assert d.scanIndices[..a] + d.scanIndices[a..b] == d.scanIndices[..b];
  }

  lemma MergeSnoc(shards: seq<DataShard>, j: nat)
    requires 1 <= j <= |shards|
    ensures Merge(shards[..j]) == Append(Merge(shards[..j - 1]), shards[j - 1])
  {
    assert shards[..j][..j - 1] == shards[..j - 1];
  }

  /** The first j shards of a split merge to the rows they cover. */
  lemma {:induction false} MergeSplitPrefix(d: IndexedData, k: nat, j: nat)
    requires k >= 1 && |d.mzValues| >= 1 && d.HasRows(|d.mzValues|)
    requires j <= |Split(d, k)|
    ensures Merge(Split(d, k)[..j]) == Rows(d, 0, Min(j * CeilDiv(|d.mzValues|, k), |d.mzValues|))
  {
    var n, p := |d.mzValues|, CeilDiv(|d.mzValues|, k);
    var s := Split(d, k);
    if j == 0 {
      assert s[..0] == [];
    } else {
      MergeSplitPrefix(d, k, j - 1);
      MergeSnoc(s, j);
      SplitCoversRows(d, k, j - 1);
      var a, b := (j - 1) * p, Min(j * p, n);
      assert a + p == j * p;
      assert Min(a, n) == a;
      AppendRows(d, a, b, s[j - 1]);
    }
  }

  /** All rows of an aligned table are the table. */
  lemma RowsAll(d: IndexedData)
    requires d.Aligned()
    ensures Rows(d, 0, |d.mzValues|) == d
  {
    var n := |d.mzValues|;
    assert d.rtValuesMin[0..n] == d.rtValuesMin;
    assert d.mobilityValues[0..n] == d.mobilityValues;
    assert d.mzValues[0..n] == d.mzValues;
    assert d.intensityValues[0..n] == d.intensityValues;
    assert d.frameIndices[0..n] == d.frameIndices;
    assert d.scanIndices[0..n] == d.scanIndices;
  }

  /** Merging the shards of a split gives back the table, for every shard
      count k >= 1 (a table without rows included). */
  lemma SplitMergeRoundTrip(d: IndexedData, k: nat)
    requires k >= 1 && d.Aligned()
    ensures Merge(Split(d, k)) == d
  {
    var n := |d.mzValues|;
    if n >= 1 {
      var p := CeilDiv(n, k);
      var s := Split(d, k);
      var c := |s|;
      SplitCount(d, k);
      assert c == CeilDiv(n, p);
      CeilDivBounds(n, p);
      assert c * p >= n;
      MergeSplitPrefix(d, k, c);
      assert s[..c] == s;
      assert Min(c * p, n) == n;
      RowsAll(d);
    }
  }

  /** split_into_shards: pushes the shards that start inside the table. */
  method SplitIntoShards(d: IndexedData, numShards: nat) returns (shards: seq<DataShard>)
    requires numShards >= 1 || |d.mzValues| == 0
    requires d.HasRows(|d.mzValues|)
    ensures shards == Split(d, numShards)
  {
    var totalPoints := |d.mzValues|;
    if totalPoints == 0 {
      return [];
    }
    var pointsPerShard := (totalPoints + numShards - 1) / numShards;
    ghost var all := Split(d, numShards);
    shards := [];
    for i := 0 to numShards
      invariant shards == all[..Min(i, |all|)]
    {
      var start := i * pointsPerShard;
      var end := Min((i + 1) * pointsPerShard, totalPoints);
      SplitAt(d, numShards, i);
      if start < totalPoints {
        assert all[..i + 1] == all[..i] + [all[i]];
        shards := shards + [FromIndexedSlice(d, start, end)];
      }
    }
    assert all[..|all|] == all;
  }

  /** merge_shards: extends the six result columns shard by shard. */
  method MergeShards(shards: seq<DataShard>) returns (result: IndexedData)
    ensures result == Merge(shards)
  {
    var rt, mobility, mz, intensity, frame, scan := [], [], [], [], [], [];
    for i := 0 to |shards|
      invariant IndexedData(rt, mobility, mz, intensity, frame, scan) == Merge(shards[..i])
    {
      assert shards[..i + 1][..i] == shards[..i];
      rt := rt + shards[i].rtValuesMin;
      mobility := mobility + shards[i].mobilityValues;
      mz := mz + shards[i].mzValues;
      intensity := intensity + shards[i].intensityValues;
      frame := frame + shards[i].frameIndices;
      scan := scan + shards[i].scanIndices;
    }
    assert shards[..|shards|] == shards;
    result := IndexedData(rt, mobility, mz, intensity, frame, scan);
  }
}
