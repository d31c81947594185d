/** The message-passing vector-minimum task.  Rank 0 scatters the vector in
    blocks, every rank takes the minimum of its block (INT_MAX for an empty
    one) and an all-reduce with MIN combines the local minima.  The run of
    every rank is simulated here in rank order; the MIN combine is the fold
    MinOrMax over the ranks' local minima. */
module VecMinMpi {
  import opened CInt
  import BlockPartition
  import VecMinSeq

  /** Per-rank counts and displacements of the scatter. */
  datatype DistributionInfo = DistributionInfo(sendcounts: seq<int>, displacements: seq<int>, localCount: int)

  /** Fills the count and displacement arrays while advancing the offset.
      The displacements are the prefix sums of the counts, agree with the
      closed form `BlockPartition.Start`, and the counts add up to the total. */
  method CalculateDistribution(totalSize: nat, worldSize: nat) returns (info: DistributionInfo)
    requires worldSize >= 1
    ensures |info.sendcounts| == worldSize && |info.displacements| == worldSize
    ensures forall i :: 0 <= i < worldSize ==>
      info.sendcounts[i] == BlockPartition.Count(totalSize, worldSize, i) &&
      info.displacements[i] == BlockPartition.Start(totalSize, worldSize, i)
    ensures info.displacements[0] == 0
    ensures forall i :: 0 <= i < worldSize - 1 ==>
      info.displacements[i + 1] == info.displacements[i] + info.sendcounts[i]
    ensures BlockPartition.Sum(info.sendcounts) == totalSize
    ensures info.localCount == 0
  {
    var sendcounts := new int[worldSize];
    var displacements := new int[worldSize];
    var baseSize := totalSize / worldSize;
    var extraItems := totalSize % worldSize;
    var offset := 0;
    var i := 0;
    while i < worldSize
      invariant 0 <= i <= worldSize
      invariant offset == BlockPartition.Start(totalSize, worldSize, i)
      invariant offset == BlockPartition.Sum(sendcounts[..i])
      invariant forall j :: 0 <= j < i ==>
        sendcounts[j] == BlockPartition.Count(totalSize, worldSize, j) &&
        displacements[j] == BlockPartition.Start(totalSize, worldSize, j)
    {
      sendcounts[i] := baseSize + (if i < extraItems then 1 else 0);
      displacements[i] := offset;
      BlockPartition.StartStep(totalSize, worldSize, i);
      assert sendcounts[..i + 1][..i] == sendcounts[..i];
      offset := offset + sendcounts[i];
      i := i + 1;
    }
    BlockPartition.Bounds(totalSize, worldSize);
    forall j | 0 <= j < worldSize - 1
      ensures displacements[j + 1] == displacements[j] + sendcounts[j]
    {
      BlockPartition.StartStep(totalSize, worldSize, j);
    }
    assert sendcounts[..worldSize] == sendcounts[..];
    info := DistributionInfo(sendcounts[..], displacements[..], 0);
  }

  /** Local minimum of one rank's block: INT_MAX when the block is empty. */
  method ComputeLocalMinimum(localData: seq<Int32>) returns (m: Int32)
    ensures m == VecMinSeq.MinOrMax(localData)
    ensures |localData| == 0 ==> m == IntMax
    ensures forall i :: 0 <= i < |localData| ==> m <= localData[i]
  {
    if |localData| == 0 {
      return IntMax;
    }
    var localMin: Int32 := IntMax;
    var i := 0;
    while i < |localData|
      invariant 0 <= i <= |localData|
      invariant localMin == VecMinSeq.MinOrMax(localData[..i])
    {
      assert localData[..i + 1][..i] == localData[..i];
      localMin := Min(localData[i], localMin);
      i := i + 1;
    }
    assert localData[..i] == localData;
    m := localMin;
  }

  /** The block of the input that rank `r` receives. */
  function Block(input: seq<Int32>, worldSize: nat, r: nat): (b: seq<Int32>)
    requires worldSize >= 1 && r < worldSize
    ensures |b| == BlockPartition.Count(|input|, worldSize, r)
  {
    BlockPartition.PrefixSliceInside(|input|, worldSize, r);
    var s := BlockPartition.PrefixSum(|input|, worldSize, r);
    input[s .. s + BlockPartition.Count(|input|, worldSize, r)]
  }

  /** The local minimum rank `r` contributes: INT_MAX when the vector is
      empty (no scatter takes place), otherwise the minimum of its block. */
  function LocalMin(input: seq<Int32>, worldSize: nat, r: nat): Int32
    requires worldSize >= 1 && r < worldSize
  {
    if |input| > 0 then VecMinSeq.MinOrMax(Block(input, worldSize, r)) else IntMax
  }

  function LocalMinima(input: seq<Int32>, worldSize: nat): (ms: seq<Int32>)
    requires worldSize >= 1
    ensures |ms| == worldSize
  {
    seq(worldSize, r requires 0 <= r < worldSize => LocalMin(input, worldSize, r))
  }

  /** Rank r's local minimum is the minimum of its block, empty or not. */
  lemma LocalMinOfBlock(input: seq<Int32>, worldSize: nat, r: nat)
    requires worldSize >= 1 && r < worldSize
    ensures LocalMin(input, worldSize, r) == VecMinSeq.MinOrMax(Block(input, worldSize, r))
  {
    if |input| == 0 {
      BlockPartition.PrefixSliceInside(0, worldSize, r);
      assert |Block(input, worldSize, r)| == 0;
    }
  }

  /** Block i of `input` lies between the cut points i and i + 1, and
      ms[i] is its minimum. */
  predicate IsBlockMin(input: seq<Int32>, ms: seq<Int32>, cuts: seq<nat>, i: nat)
    requires i < |ms| && |cuts| == |ms| + 1
  {
    cuts[i] <= cuts[i + 1] <= |input| && ms[i] == VecMinSeq.MinOrMax(input[cuts[i] .. cuts[i + 1]])
  }

  /** Blocks cut from `input` at the points `cuts[0] == 0 <= cuts[1] <= ...`:
      the minima of the first r blocks combine to the minimum of the input
      up to cuts[r]. */
  lemma {:induction false} BlockMinima(input: seq<Int32>, ms: seq<Int32>, cuts: seq<nat>, r: nat)
    requires |cuts| == |ms| + 1 && cuts[0] == 0 && r <= |ms|
    requires forall i :: 0 <= i < |ms| ==> IsBlockMin(input, ms, cuts, i)
    ensures cuts[r] <= |input|
    ensures VecMinSeq.MinOrMax(ms[..r]) == VecMinSeq.MinOrMax(input[..cuts[r]])
  {
    if r == 0 {
      assert input[..0] == [];
    } else {
      assert IsBlockMin(input, ms, cuts, r - 1);
      BlockMinima(input, ms, cuts, r - 1);
      MinLast(ms, r);
      MinSplit(input, cuts[r - 1], cuts[r]);
    }
  }

  /** Adding one more local minimum to the MIN fold. */
  lemma MinLast(ms: seq<Int32>, r: nat)
    requires 1 <= r <= |ms|
    ensures VecMinSeq.MinOrMax(ms[..r]) == Min(VecMinSeq.MinOrMax(ms[..r - 1]), ms[r - 1])
  {
    BlockPartition.PrefixLast(ms, r);
    VecMinSeq.MinConcat(ms[..r - 1], [ms[r - 1]]);
  }

  /** The minimum of a prefix cut at `hi` combines the minimum of the prefix
      cut at `lo` with the minimum of the block [lo, hi). */
  lemma MinSplit(input: seq<Int32>, lo: nat, hi: nat)
    requires lo <= hi <= |input|
    ensures VecMinSeq.MinOrMax(input[..hi])
         == Min(VecMinSeq.MinOrMax(input[..lo]), VecMinSeq.MinOrMax(input[lo .. hi]))
  {
    BlockPartition.PrefixSplit(input, lo, hi);
    VecMinSeq.MinConcat(input[..lo], input[lo .. hi]);
  }

  /** Combining all ranks' local minima with MIN gives the sequential
      result, INT_MAX included for an empty vector. */
  lemma DistributedMinAgrees(input: seq<Int32>, worldSize: nat)
    requires worldSize >= 1
    ensures VecMinSeq.MinOrMax(LocalMinima(input, worldSize)) == VecMinSeq.MinOrMax(input)
  {
    var n := |input|;
    var ms := LocalMinima(input, worldSize);
    var cuts := BlockPartition.Cuts(n, worldSize);
    BlockPartition.CutsEnds(n, worldSize);
    forall i | 0 <= i < worldSize
      ensures IsBlockMin(input, ms, cuts, i)
    {
      LocalMinOfBlock(input, worldSize, i);
      BlockPartition.CutAt(n, worldSize, i);
    }
    BlockMinima(input, ms, cuts, worldSize);
    assert LocalMinima(input, worldSize)[..worldSize] == LocalMinima(input, worldSize);
    assert input[..|input|] == input;
  }

  /** The task object of one rank; `rank` and `worldSize` stand for the
      communicator's answers. */
  class Task {
    const input: seq<Int32>
    var output: Int32

    constructor (v: seq<Int32>)
      ensures input == v && output == 0
    {
      input := v;
      output := 0;
    }

    /** Rank 0 accepts an empty vector or one whose size fits in an `int`. */
    method Validation() returns (ok: bool)
      ensures ok <==> (|input| == 0 || |input| <= IntMax)
    {
      ok := true;
      if |input| != 0 {
        ok := |input| <= IntMax;
      }
    }

    method PreProcessing() returns (ok: bool)
      modifies this
      ensures ok && output == IntMax
    {
      output := IntMax;
      ok := true;
    }

    /** The part of the run rank `rank` executes before the all-reduce:
        INT_MAX for an empty vector, otherwise the minimum of the block the
        scatter delivers to it. */
    method RankMin(worldSize: nat, rank: nat) returns (localMin: Int32)
      requires rank < worldSize && |input| <= IntMax
      ensures localMin == LocalMin(input, worldSize, rank)
    {
      var totalSize := |input|;
      localMin := IntMax;
      if totalSize > 0 {
        var info := CalculateDistribution(totalSize, worldSize);
        var localCount := info.sendcounts[rank];
        var first := info.displacements[rank];
        BlockPartition.StartIsPrefixSum(totalSize, worldSize, rank);
        BlockPartition.PrefixSliceInside(totalSize, worldSize, rank);
        var localData := input[first .. first + localCount];
        assert localData == Block(input, worldSize, rank);
        localMin := ComputeLocalMinimum(localData);
      }
    }

    /** Every rank's part of the run, followed by the all-reduce with MIN,
        whose result every rank stores. */
    method Run(worldSize: nat) returns (ok: bool)
      requires worldSize >= 1 && |input| <= IntMax
      modifies this
      ensures ok && output == VecMinSeq.MinOrMax(input)
    {
      var locals: seq<Int32> := [];
      for rank := 0 to worldSize
        invariant locals == LocalMinima(input, worldSize)[..rank]
      {
        var localMin := RankMin(worldSize, rank);
        BlockPartition.PrefixLast(LocalMinima(input, worldSize), rank + 1);
        locals := locals + [localMin];
      }
      assert locals == LocalMinima(input, worldSize);
      DistributedMinAgrees(input, worldSize);
      output := VecMinSeq.MinOrMax(locals);
      ok := true;
    }
  }
}
