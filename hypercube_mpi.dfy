/** The message-passing hypercube task.  The worker count must be a power
    of two 2^d; the 2^n vertices are split in blocks over the ranks, every
    rank counts the edges of its block, and the counts are summed by a
    binomial tree: at round k a rank whose bit k is set sends its partial sum
    to rank xor 2^k and leaves, the others receive from that partner.  Rank 0
    then broadcasts the total.  The ranks are simulated here one after the
    other; the tree is simulated round by round on an array of partial sums. */
module HypercubeMpi {
  import opened CInt
  import opened HypercubeBits
  import BlockPartition

  /** The vertex range [start, end) of rank `rank`, as the closed form
      `rank * chunk + min(rank, remainder)` computes it.  It agrees with the
      block partition, and each range ends where the next begins. */
  function LocalRange(vertices: nat, rank: nat, size: nat): (range: (nat, nat))
    requires size >= 1
    ensures range.0 == BlockPartition.Start(vertices, size, rank)
    ensures range.1 == range.0 + BlockPartition.Count(vertices, size, rank)
    ensures range.1 == BlockPartition.Start(vertices, size, rank + 1)
  {
    var chunk := vertices / size;
    var remainder := vertices % size;
    var start := rank * chunk + (if rank < remainder then rank else remainder);
    var localSize := chunk + (if rank < remainder then 1 else 0);
    BlockPartition.StartStep(vertices, size, rank);
    (start, start + localSize)
  }

  /** The nested vertex/bit loop over [start, end). */
  method ComputeLocalEdges(start: nat, end: nat, n: nat) returns (localEdges: nat)
    ensures localEdges == RangeEdges(start, end, n)
  {
    localEdges := 0;
    var vertex := start;
    while vertex < end
      invariant start <= vertex && (vertex <= end || vertex == start)
      invariant localEdges == RangeEdges(start, vertex, n)
    {
      var bit := 0;
      while bit < n
        invariant 0 <= bit <= n
        invariant localEdges == RangeEdges(start, vertex, n) + VertexEdges(vertex, bit)
      {
        var neighbor := Xor(vertex, Pow2(bit));
        if vertex < neighbor {
          localEdges := localEdges + 1;
        }
        bit := bit + 1;
      }
      vertex := vertex + 1;
    }
  }

  /** The edge counts of the ranks' blocks. */
  function LocalCounts(vertices: nat, size: nat, n: nat): (cs: seq<nat>)
    requires size >= 1
    ensures |cs| == size
  {
    seq(size, r requires 0 <= r < size =>
      RangeEdges(BlockPartition.Start(vertices, size, r), BlockPartition.Start(vertices, size, r + 1), n))
  }

  /** The blocks of the first `r` ranks together count [0, Start(r)). */
  lemma {:induction false} PrefixCounts(vertices: nat, size: nat, n: nat, r: nat)
    requires size >= 1 && r <= size
    ensures BlockPartition.Sum(LocalCounts(vertices, size, n)[..r]) == RangeEdges(0, BlockPartition.Start(vertices, size, r), n)
  {
    var cs := LocalCounts(vertices, size, n);
    if r == 0 {
      BlockPartition.Bounds(vertices, size);
    } else {
      PrefixCounts(vertices, size, n, r - 1);
      assert cs[..r][..r - 1] == cs[..r - 1];
      BlockPartition.StartStep(vertices, size, r - 1);
      RangeAdditive(0, BlockPartition.Start(vertices, size, r - 1), BlockPartition.Start(vertices, size, r), n);
    }
  }

  /** Summing the ranks' counts gives the edges of the whole hypercube. */
  lemma LocalCountsSum(n: nat, size: nat)
    requires size >= 1
    ensures BlockPartition.Sum(LocalCounts(Pow2(n), size, n)) == EdgeFormula(n)
  {
    PrefixCounts(Pow2(n), size, n, size);
    BlockPartition.Bounds(Pow2(n), size);
    assert LocalCounts(Pow2(n), size, n)[..size] == LocalCounts(Pow2(n), size, n);
    HypercubeEdges(n);
  }

  /** Every rank's split and count before the reduction, each rank's
      count stored at its own index of the array of partial sums. */
  method CountAllRanks(vertices: nat, size: nat, n: nat) returns (sums: array<nat>)
    requires size >= 1
    ensures fresh(sums)
    ensures sums[..] == LocalCounts(vertices, size, n)
  {
    sums := new nat[size];
    for rank := 0 to size
      invariant forall r :: 0 <= r < rank ==> sums[r] == LocalCounts(vertices, size, n)[r]
    {
      var range := LocalRange(vertices, rank, size);
      var localEdges := ComputeLocalEdges(range.0, range.1, n);
      sums[rank] := localEdges;
    }
    assert sums[..] == LocalCounts(vertices, size, n);
  }

  /** The state of the tree before round k: each rank still in the loop
      holds the sum of the 2^k initial values of its aligned block, and each
      rank that left sent at its lowest set bit. */
  ghost predicate TreeState(orig: seq<nat>, sums: seq<nat>, sentAt: seq<int>, k: nat)
  {
    && |orig| == |sums| == |sentAt|
    && (forall r :: 0 <= r < |sums| ==> (sentAt[r] == -1 <==> Active(r, k)))
    && (forall r :: 0 < r < |sums| && sentAt[r] != -1 ==> sentAt[r] == LowestSetBit(r))
    && (forall r :: 0 <= r < |sums| && Active(r, k) ==> BlockSummed(orig, sums, r, k))
  }

  /** Rank r holds the sum of the 2^k initial values starting at r. */
  ghost predicate BlockSummed(orig: seq<nat>, sums: seq<nat>, r: nat, k: nat)
  {
    r + Pow2(k) <= |sums| == |orig| && sums[r] == BlockPartition.Sum(orig[r .. r + Pow2(k)])
  }

  /** Before round 0 every rank holds its own value and none has sent. */
  lemma InitialTreeState(orig: seq<nat>)
    ensures TreeState(orig, orig, seq(|orig|, _ => -1), 0)
  {
    forall r | 0 <= r < |orig| ensures BlockSummed(orig, orig, r, 0) {
      assert orig[r .. r + 1] == [orig[r]];
      assert BlockPartition.Sum([orig[r]]) == orig[r];
    }
  }

  /** After round d of 2^d ranks, rank 0 holds the total and every other
      rank has sent at its lowest set bit. */
  lemma FinalTreeState(orig: seq<nat>, sums: seq<nat>, sentAt: seq<int>, d: nat)
    requires |sums| == Pow2(d) && TreeState(orig, sums, sentAt, d)
    ensures sums[0] == BlockPartition.Sum(orig) && sentAt[0] == -1
    ensures forall r :: 0 < r < |sums| ==> sentAt[r] == LowestSetBit(r)
  {
    ActiveZero(d);
    assert BlockSummed(orig, sums, 0, d);
    assert orig[0 .. Pow2(d)] == orig;
    forall r | 0 < r < |sums| ensures sentAt[r] == LowestSetBit(r) {
      LowestSetBitBelow(r, d);
      ActiveMeansLowBitsClear(r, d);
    }
  }

  /** The binomial-tree reduction over `sums.Length == 2^d` ranks, round by
      round.  `sentAt[r]` is the round at which rank r sent its partial sum,
      -1 if it never sent.  Rank 0 never sends and ends with the sum of all
      initial values; every other rank sends exactly once, at its lowest set
      bit, after adding its partners' sums for all rounds below it. */
  method TreeReduce(sums: array<nat>, d: nat) returns (sentAt: seq<int>)
    requires sums.Length == Pow2(d)
    modifies sums
    ensures sums[0] == BlockPartition.Sum(old(sums[..]))
    ensures |sentAt| == sums.Length && sentAt[0] == -1
    ensures forall r :: 0 < r < sums.Length ==> sentAt[r] == LowestSetBit(r)
  {
    ghost var orig := sums[..];
    sentAt := seq(sums.Length, _ => -1);
    InitialTreeState(orig);
    for k := 0 to d
      invariant TreeState(orig, sums[..], sentAt, k)
    {
      sentAt := ReduceRound(sums, sentAt, k, d, orig);
    }
    FinalTreeState(orig, sums[..], sentAt, d);
  }

  /** The state inside round k (`next == k + 1`) once ranks 0 .. rank-1 have
      taken their step: those ranks are in the state after the round, the
      others are untouched. */
  ghost predicate RoundState(orig: seq<nat>, before: seq<nat>, sentAt0: seq<int>,
                             sums: seq<nat>, sentAt: seq<int>, rank: nat, next: nat)
  {
    && |orig| == |before| == |sums| == |sentAt| == |sentAt0| && rank <= |sums|
    && (forall r :: rank <= r < |sums| ==> sums[r] == before[r] && sentAt[r] == sentAt0[r])
    && (forall r :: 0 <= r < rank ==> (sentAt[r] == -1 <==> Active(r, next)))
    && (forall r :: 0 < r < |sums| && sentAt[r] != -1 ==> sentAt[r] == LowestSetBit(r))
    && (forall r :: 0 <= r < rank && Active(r, next) ==> BlockSummed(orig, sums, r, next))
  }

  /** Round k of the tree: every rank still in the loop either sends (bit k
      set) and leaves, or adds the partial sum of its partner rank xor 2^k. */
  method ReduceRound(sums: array<nat>, sentAt0: seq<int>, k: nat, d: nat, ghost orig: seq<nat>)
    returns (sentAt: seq<int>)
    requires sums.Length == Pow2(d) && k < d
    requires TreeState(orig, sums[..], sentAt0, k)
    modifies sums
    ensures TreeState(orig, sums[..], sentAt, k + 1)
  {
    var size := sums.Length;
    ghost var before := sums[..];
    sentAt := sentAt0;
    for rank := 0 to size
      invariant RoundState(orig, before, sentAt0, sums[..], sentAt, rank, k + 1)
    {
      sentAt := RankStep(sums, sentAt, rank, k, d, orig, before, sentAt0);
    }
  }

  /** The step of one rank in round k. */
  method RankStep(sums: array<nat>, sentAt1: seq<int>, rank: nat, k: nat, d: nat,
                  ghost orig: seq<nat>, ghost before: seq<nat>, ghost sentAt0: seq<int>)
    returns (sentAt: seq<int>)
    requires sums.Length == Pow2(d) && k < d && rank < sums.Length
    requires TreeState(orig, before, sentAt0, k)
    requires RoundState(orig, before, sentAt0, sums[..], sentAt1, rank, k + 1)
    modifies sums
    ensures RoundState(orig, before, sentAt0, sums[..], sentAt, rank + 1, k + 1)
  {
    var size := sums.Length;
    ghost var next := k + 1;
    ghost var mid := sums[..];
    sentAt := sentAt1;
    RankFacts(orig, before, sentAt0, rank, k, d);
    assert sentAt[rank] == sentAt0[rank] && mid[rank] == before[rank];
    if sentAt[rank] == -1 {
      var partner := Xor(rank, Pow2(k));
      if Bit(rank, k) {
        sentAt := sentAt[rank := k];
      } else if partner < size {
        var own := sums[rank];
        var received := sums[partner];
        assert own == before[rank] && received == before[partner];
        sums[rank] := own + received;
        assert sums[..] == mid[rank := own + received];
      }
    }
    StepKeepsRound(orig, before, sentAt0, mid, sentAt1, sums[..], sentAt, rank, next);
  }

  /** What round k means for one rank, by the three cases of its step: a
      rank that sent earlier stays out, an active rank with bit k set sends
      now at its lowest set bit, and an active rank with bit k clear stays
      in and its partner r xor 2^k == r + 2^k holds the block that follows
      its own. */
  lemma RankFacts(orig: seq<nat>, before: seq<nat>, sentAt0: seq<int>, r: nat, k: nat, d: nat)
    requires TreeState(orig, before, sentAt0, k) && |before| == Pow2(d) && r < |before| && k < d
    ensures sentAt0[r] != -1 ==> !Active(r, k + 1) && r > 0 && sentAt0[r] == LowestSetBit(r)
    ensures sentAt0[r] == -1 && Bit(r, k) ==> !Active(r, k + 1) && r > 0 && LowestSetBit(r) == k
    ensures sentAt0[r] == -1 && !Bit(r, k) ==>
      && Active(r, k + 1)
      && Xor(r, Pow2(k)) == r + Pow2(k) < Pow2(d)
      && r + Pow2(k + 1) <= Pow2(d)
      && before[r] + before[r + Pow2(k)] == BlockPartition.Sum(orig[r .. r + Pow2(k + 1)])
  {
    ActiveNext(r, k);
    ActiveZero(k);
    if sentAt0[r] == -1 {
      if Bit(r, k) {
        SendRound(r, k);
      } else {
        PartnerAbove(r, k, d);
        PartnerActive(r, k);
        assert BlockSummed(orig, before, r + Pow2(k), k);
        PairSum(orig, before, r, k);
      }
    }
  }

  /** One rank's step moves RoundState from `rank` to `rank + 1` when it
      changes only that rank's entries, and leaves that rank in the state
      after the round. */
  lemma StepKeepsRound(orig: seq<nat>, before: seq<nat>, sentAt0: seq<int>,
                       mid: seq<nat>, sentAt1: seq<int>, after: seq<nat>, sentAt: seq<int>,
                       rank: nat, next: nat)
    requires RoundState(orig, before, sentAt0, mid, sentAt1, rank, next) && rank < |mid|
    requires |after| == |mid| && |sentAt| == |sentAt1|
    requires after == mid[rank := after[rank]] && sentAt == sentAt1[rank := sentAt[rank]]
    requires sentAt[rank] == -1 <==> Active(rank, next)
    requires sentAt[rank] != -1 ==> rank > 0 && sentAt[rank] == LowestSetBit(rank)
    requires Active(rank, next) ==> BlockSummed(orig, after, rank, next)
    ensures RoundState(orig, before, sentAt0, after, sentAt, rank + 1, next)
  {
    forall r | 0 <= r < |mid| && r != rank
      ensures after[r] == mid[r] && sentAt[r] == sentAt1[r]
    {
      assert after[r] == mid[rank := after[rank]][r];
      assert sentAt[r] == sentAt1[rank := sentAt[rank]][r];
    }
    forall r | 0 <= r < rank && Active(r, next)
      ensures BlockSummed(orig, after, r, next)
    {
      assert BlockSummed(orig, mid, r, next);
    }
  }

  /** Two adjacent blocks of 2^k summed values make one block of 2^(k+1). */
  lemma PairSum(orig: seq<nat>, before: seq<nat>, r: nat, k: nat)
    requires BlockSummed(orig, before, r, k) && BlockSummed(orig, before, r + Pow2(k), k)
    ensures r + Pow2(k + 1) <= |orig|
    ensures before[r] + before[r + Pow2(k)] == BlockPartition.Sum(orig[r .. r + Pow2(k + 1)])
  {
    var p := r + Pow2(k);
    assert r + Pow2(k + 1) == p + Pow2(k);
    BlockPartition.SliceSplit(orig, r, p, p + Pow2(k));
    BlockPartition.SumConcat(orig[r .. p], orig[p .. p + Pow2(k)]);
  }

  /** The task object of one rank. */
  class Task {
    const input: int
    var output: Int32

    constructor (n: int)
      ensures input == n && output == 0
    {
      input := n;
      output := 0;
    }

    /** Accepted exactly when the worker count is a power of two. */
    method Validation(size: int) returns (ok: bool)
      ensures ok <==> size > 0 && exists k :: size == Pow2(k)
    {
      PowerOfTwoTest(size);
      ok := IsPowerOfTwo(size);
    }

    method PreProcessing() returns (ok: bool)
      modifies this
      ensures ok && output == 0
    {
      output := 0;
      ok := true;
    }

    /** Fails without computing when `size` is not a power of two; otherwise
        every rank counts its block, the tree reduction sums the counts at
        rank 0 and the broadcast total is every rank's output. */
    method Run(size: int) returns (ok: bool)
      requires 0 <= input < 64
      modifies this
      ensures ok <==> IsPowerOfTwo(size)
      ensures !ok ==> output == old(output)
      ensures ok ==> output == FromUnsigned(EdgeFormula(input))
    {
      if !IsPowerOfTwo(size) {
        return false;
      }
      PowerOfTwoTest(size);
      var dimension := Log2(size);
      var n: nat := input;
      var vertices := Pow2(n);
      var sums := CountAllRanks(vertices, size, n);
      LocalCountsSum(n, size);
      var sentAt := TreeReduce(sums, dimension);
      var sum := sums[0];
      output := FromUnsigned(sum);
      ok := true;
    }
  }
}
