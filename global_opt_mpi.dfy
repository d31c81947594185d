/** The message-passing global-optimisation task.  Rank 0 owns the pool of
    rectangles.  Every round it broadcasts the pool; each rank scores its
    block of the pool and reports its first maximal score with the global
    index; an all-reduce with MAXLOC picks the winner, and rank 0 splits it
    when an index was found.  After the rounds rank 0 stores the truncated
    smallest centre value.

    The ranks are simulated one after the other inside a round.  The
    all-reduce is the fold `MaxLocAll` over the ranks' pairs. */
module GlobalOptMpi {
  import opened CInt
  import opened Regions
  import BlockPartition
  import GlobalOptSeq

  // ------------------------------------------------------- distribution

  /** `local_n` is the rank's count and the loop-accumulated `offset` the
      sum of the counts of the lower ranks, which is the closed-form start
      of the rank's block (BlockPartition.StartIsPrefixSum). */
  method ComputeDistribution(total: nat, rank: nat, size: nat) returns (localN: nat, offset: nat)
    requires size >= 1
    ensures localN == BlockPartition.Count(total, size, rank)
    ensures offset == BlockPartition.PrefixSum(total, size, rank)
  {
    var base := total / size;
    var rem := total % size;
    localN := base + (if rank < rem then 1 else 0);
    offset := 0;
    for i := 0 to rank
      invariant offset == BlockPartition.PrefixSum(total, size, i)
    {
      offset := offset + base + (if i < rem then 1 else 0);
    }
  }

  // ------------------------------------------------------------- MAXLOC

  /** A block-local (value, index) pair with its index moved to the pool;
      the index -1 of a scan that found nothing stays -1. */
  function Shift(p: (real, int), offset: nat): (real, int)
  {
    if p.1 < 0 then p else (p.0, p.1 + offset)
  }

  /** Moving the result of a scan over a block of n scores that starts at
      `offset` gives a result over the pool indices [offset, offset + n),
      with the same value. */
  lemma ShiftedScan(p: (real, int), offset: nat, n: nat)
    requires ScanResult(p, 0, n)
    ensures Shift(p, offset).0 == p.0
    ensures ScanResult(Shift(p, offset), offset, offset + n)
    ensures p.1 >= 0 ==> Shift(p, offset).1 - offset == p.1
  {
  }

  /** MPI_MAXLOC on (value, index) pairs, as section 5.9.4 of MPI-3.1
      defines it: the larger value wins, and on equal values the smaller
      index. */
  function MaxLoc(a: (real, int), b: (real, int)): (c: (real, int))
    ensures c.0 >= a.0 && c.0 >= b.0
    ensures c == a || c == b
    ensures a.0 == b.0 ==> c.1 <= a.1 && c.1 <= b.1
  {
    if a.0 > b.0 then a
    else if b.0 > a.0 then b
    else (a.0, if a.1 <= b.1 then a.1 else b.1)
  }

  /** The operator is commutative and associative, so the order in which
      the all-reduce combines the ranks' pairs does not matter. */
  lemma MaxLocCommutesAndAssociates(a: (real, int), b: (real, int), c: (real, int))
    ensures MaxLoc(a, b) == MaxLoc(b, a)
    ensures MaxLoc(MaxLoc(a, b), c) == MaxLoc(a, MaxLoc(b, c))
  {
  }

  /** The all-reduce: the ranks' pairs combined with MAXLOC in rank
      order. */
  function MaxLocAll(ls: seq<(real, int)>): (real, int)
    requires |ls| >= 1
  {
    if |ls| == 1 then ls[0] else MaxLoc(MaxLocAll(ls[..|ls| - 1]), ls[|ls| - 1])
  }

  /** The scan of a later block replaces the scan of an earlier one only
      when it found a strictly larger value. */
  lemma MaxLocOfOrdered(a: (real, int), b: (real, int), n: int)
    requires ScanResult(a, 0, n) && ScanResult(b, n, b.1 + 1)
    ensures MaxLoc(a, b) == if b.0 > a.0 then b else a
  {
  }

  /** Scanning s + t is scanning s, scanning t and combining the two with
      MAXLOC. */
  lemma {:induction false} ScanConcat(s: seq<real>, t: seq<real>)
    ensures FirstArgMax(s + t) == MaxLoc(FirstArgMax(s), Shift(FirstArgMax(t), |s|))
  {
    var a := FirstArgMax(s);
    if |t| == 0 {
      assert s + t == s;
      MaxLocOfOrdered(a, FirstArgMax(t), |s|);
    } else {
      var u := t[..|t| - 1];
      var x := t[|t| - 1];
      ScanConcat(s, u);
      assert (s + t)[..|s + t| - 1] == s + u;
      assert (s + t)[|s + t| - 1] == x;
      var b := Shift(FirstArgMax(u), |s|);
      var c := Shift(FirstArgMax(t), |s|);
      MaxLocOfOrdered(a, b, |s|);
      MaxLocOfOrdered(a, c, |s|);
    }
  }

  // ------------------------------------------------- distributed argmax

  /** The pair rank `r` reports: the first maximal score of its block, with
      the index moved into the pool. */
  function SliceMax(scores: seq<real>, size: nat, r: nat): (real, int)
    requires size >= 1 && r < size
  {
    BlockPartition.PrefixSliceInside(|scores|, size, r);
    var lo := BlockPartition.PrefixSum(|scores|, size, r);
    var n := BlockPartition.Count(|scores|, size, r);
    Shift(FirstArgMax(scores[lo .. lo + n]), lo)
  }

  function LocalMaxima(scores: seq<real>, size: nat): (ls: seq<(real, int)>)
    requires size >= 1
    ensures |ls| == size
  {
    seq(size, r requires 0 <= r < size => SliceMax(scores, size, r))
  }

  /** The pairs of the first r ranks combine to the scan of the scores
      those ranks own. */
  lemma {:induction false} PrefixMaxima(scores: seq<real>, size: nat, r: nat)
    requires size >= 1 && 1 <= r <= size
    ensures BlockPartition.PrefixSum(|scores|, size, r) <= |scores|
    ensures MaxLocAll(LocalMaxima(scores, size)[..r])
         == FirstArgMax(scores[..BlockPartition.PrefixSum(|scores|, size, r)])
  {
    var n := |scores|;
    var ls := LocalMaxima(scores, size);
    BlockPartition.PrefixSliceInside(n, size, r - 1);
    var lo := BlockPartition.PrefixSum(n, size, r - 1);
    var hi := BlockPartition.PrefixSum(n, size, r);
    if r == 1 {
      assert ls[..1] == [ls[0]];
      assert scores[0 .. hi] == scores[..hi];
    } else {
      PrefixMaxima(scores, size, r - 1);
      assert ls[..r][..r - 1] == ls[..r - 1];
      ScanConcat(scores[..lo], scores[lo .. hi]);
      BlockPartition.PrefixSplit(scores, lo, hi);
    }
  }

  /** The all-reduce with MAXLOC over every rank finds the same pair as the
      sequential scan of the whole pool, for any number of ranks. */
  lemma DistributedMaxAgrees(scores: seq<real>, size: nat)
    requires size >= 1
    ensures MaxLocAll(LocalMaxima(scores, size)) == FirstArgMax(scores)
  {
    PrefixMaxima(scores, size, size);
    BlockPartition.PrefixTotal(|scores|, size);
    assert LocalMaxima(scores, size)[..size] == LocalMaxima(scores, size);
    assert scores[..|scores|] == scores;
  }

  // ------------------------------------------------------------- rounds

  /** The pool with the R of the rectangles in [lo, lo + n) set to their
      scores and every other rectangle untouched. */
  function ScoreSlice(diag: (real, real) -> real, pool: seq<Rect>, lo: nat, n: nat): (out: seq<Rect>)
    requires lo + n <= |pool|
    ensures |out| == |pool| && Shapes(out) == Shapes(pool)
    ensures forall j :: 0 <= j < |pool| && !(lo <= j < lo + n) ==> out[j] == pool[j]
  {
    var out := seq(|pool|, j requires 0 <= j < |pool| =>
      if lo <= j < lo + n then pool[j].(R := Score(diag, pool[j])) else pool[j]);
    assert forall j :: 0 <= j < |pool| ==> Shapes(out)[j] == Shapes(pool)[j];
    out
  }

  /** The index the all-reduce returns on a pool. */
  function GlobalIndex(diag: (real, real) -> real, pool: seq<Rect>, size: nat): (i: int)
    requires size >= 1
    ensures -1 <= i < |pool|
  {
    GlobalIndexBound(Scores(diag, pool), size);
    MaxLocAll(LocalMaxima(Scores(diag, pool), size)).1
  }

  lemma GlobalIndexBound(scores: seq<real>, size: nat)
    requires size >= 1
    ensures -1 <= MaxLocAll(LocalMaxima(scores, size)).1 < |scores|
  {
    DistributedMaxAgrees(scores, size);
  }

  /** The all-reduce picks the index the sequential scan picks. */
  lemma GlobalIndexIsFirst(diag: (real, real) -> real, pool: seq<Rect>, size: nat)
    requires size >= 1
    ensures GlobalIndex(diag, pool, size) == FirstArgMax(Scores(diag, pool)).1
  {
    DistributedMaxAgrees(Scores(diag, pool), size);
  }

  /** Rank 0's copy of the pool after it scored its own block. */
  function OwnScored(diag: (real, real) -> real, pool: seq<Rect>, size: nat): (own: seq<Rect>)
    requires size >= 1
    ensures |own| == |pool| && Shapes(own) == Shapes(pool)
  {
    BlockPartition.PrefixSliceInside(|pool|, size, 0);
    ScoreSlice(diag, pool, 0, BlockPartition.Count(|pool|, size, 0))
  }

  /** One round as rank 0 sees it: its own block scored, then the split of
      the all-reduce's winner when the index is not -1. */
  function MpiStep(diag: (real, real) -> real, pool: seq<Rect>, size: nat): (next: seq<Rect>)
    requires size >= 1 && ValidPool(pool)
    ensures ValidPool(next)
  {
    var own := OwnScored(diag, pool, size);
    ValidOfShapes(pool, own);
    var i := GlobalIndex(diag, pool, size);
    if i >= 0 then
      SplitKeepsValid(own, i);
      SplitAt(own, i)
    else own
  }

  /** Rank 0's pool after k rounds. */
  function MpiRefine(diag: (real, real) -> real, size: nat, k: nat): (pool: seq<Rect>)
    requires size >= 1
    ensures ValidPool(pool) && |pool| >= 1
  {
    if k == 0 then Seed else MpiStep(diag, MpiRefine(diag, size, k - 1), size)
  }

  /** With a bounded diagonal a round of rank 0 leaves the same shapes as a
      sequential round: the R values of other ranks' blocks are stale, but
      neither the scores nor the split read R. */
  lemma MpiStepAgrees(diag: (real, real) -> real, p: seq<Rect>, q: seq<Rect>, size: nat)
    requires size >= 1 && DiagBounded(diag) && ValidPool(p) && |p| > 0
    requires Shapes(p) == Shapes(q)
    ensures ValidPool(q) && |q| > 0
    ensures Shapes(MpiStep(diag, p, size)) == Shapes(GlobalOptSeq.Step(diag, q))
  {
    ValidOfShapes(p, q);
    ScoresOfShapes(diag, p, q);
    var i := GlobalOptSeq.BestIndex(diag, q);
    GlobalIndexIsFirst(diag, p, size);
    var own := OwnScored(diag, p, size);
    assert MpiStep(diag, p, size) == SplitAt(own, i);
    SplitShapes(own, ScoreAll(diag, q), i);
  }

  /** With a bounded diagonal, every round splits and rank 0's pool has the
      shapes of the sequential pool after the same number of rounds. */
  lemma {:induction false} MpiRefineAgrees(diag: (real, real) -> real, size: nat, k: nat)
    requires size >= 1 && DiagBounded(diag)
    ensures |MpiRefine(diag, size, k)| == 1 + 3 * k
    ensures Shapes(MpiRefine(diag, size, k)) == Shapes(GlobalOptSeq.Refine(diag, k))
  {
    if k > 0 {
      var p := MpiRefine(diag, size, k - 1);
      var q := GlobalOptSeq.Refine(diag, k - 1);
      MpiRefineAgrees(diag, size, k - 1);
      MpiStepAgrees(diag, p, q, size);
      assert MpiRefine(diag, size, k) == MpiStep(diag, p, size);
      assert GlobalOptSeq.Refine(diag, k) == GlobalOptSeq.Step(diag, q);
    }
  }

  /** The two variants store the same output. */
  lemma OutputsAgree(diag: (real, real) -> real, size: nat, k: nat)
    requires size >= 1 && DiagBounded(diag)
    ensures Truncate(BestValue(MpiRefine(diag, size, k)))
         == Truncate(BestValue(GlobalOptSeq.Refine(diag, k)))
  {
    MpiRefineAgrees(diag, size, k);
    BestValueOfShapes(MpiRefine(diag, size, k), GlobalOptSeq.Refine(diag, k));
  }

  // ------------------------------------------------------------ methods

  /** The scoring loop over a rank's block: it sets the R of the block's
      rectangles and returns the block's first maximal score with its pool
      index, or (-1e18, -1) when none exceeds -1e18. */
  method ComputeLocalMax(diag: (real, real) -> real, pool: seq<Rect>, offset: nat, localN: nat)
    returns (rects: seq<Rect>, localMaxR: real, localIndex: int)
    requires offset + localN <= |pool|
    ensures rects == ScoreSlice(diag, pool, offset, localN)
    ensures (localMaxR, localIndex)
         == Shift(FirstArgMax(Scores(diag, pool)[offset .. offset + localN]), offset)
  {
    ghost var block := Scores(diag, pool)[offset .. offset + localN];
    rects := pool;
    localMaxR := Sentinel;
    localIndex := -1;
    for i := 0 to localN
      invariant |rects| == |pool|
      invariant forall j :: 0 <= j < |pool| && !(offset <= j < offset + i) ==> rects[j] == pool[j]
      invariant forall j :: offset <= j < offset + i ==> rects[j] == pool[j].(R := Score(diag, pool[j]))
      invariant (localMaxR, localIndex) == Shift(FirstArgMax(block[..i]), offset)
    {
      var idx := offset + i;
      var scored := GlobalOptSeq.ScoreRect(diag, rects[idx]);
      rects := rects[idx := scored];
      assert block[i] == Score(diag, pool[idx]);
      assert block[..i + 1][..i] == block[..i];
      if rects[idx].R > localMaxR {
        localMaxR := rects[idx].R;
        localIndex := idx;
      }
    }
    assert block[..localN] == block;
  }

  /** Every rank's part of a round on its broadcast copy of the pool: the
      pairs the ranks contribute to the all-reduce and rank 0's copy after
      it scored its block. */
  method AllRanks(diag: (real, real) -> real, pool: seq<Rect>, size: nat)
    returns (own: seq<Rect>, locals: seq<(real, int)>)
    requires size >= 1
    ensures own == OwnScored(diag, pool, size)
    ensures locals == LocalMaxima(Scores(diag, pool), size)
  {
    var rectCount := |pool|;
    own := pool;
    locals := [];
    for rank := 0 to size
      invariant locals == LocalMaxima(Scores(diag, pool), size)[..rank]
      invariant rank > 0 ==> own == OwnScored(diag, pool, size)
    {
      var localN, offset := ComputeDistribution(rectCount, rank, size);
      BlockPartition.PrefixSliceInside(rectCount, size, rank);
      var rects, localMaxR, localIndex := ComputeLocalMax(diag, pool, offset, localN);
      assert (localMaxR, localIndex) == SliceMax(Scores(diag, pool), size, rank);
      if rank == 0 {
        assert rects == OwnScored(diag, pool, size);
        own := rects;
      }
      locals := locals + [(localMaxR, localIndex)];
    }
    assert locals == LocalMaxima(Scores(diag, pool), size)[..size];
  }

  /** One round: every rank's part, the all-reduce with MAXLOC, and rank
      0's split when an index was found. */
  method MpiRound(diag: (real, real) -> real, pool: seq<Rect>, size: nat) returns (next: seq<Rect>)
    requires size >= 1 && ValidPool(pool)
    ensures next == MpiStep(diag, pool, size)
  {
    var own, locals := AllRanks(diag, pool, size);
    var global := MaxLocAll(locals);
    assert global.1 == GlobalIndex(diag, pool, size);
    next := own;
    if global.1 >= 0 {
      next := GlobalOptSeq.SplitRect(own, global.1);
    }
  }

  /** The round loop of rank 0 from the seed pool. */
  method MpiRounds(diag: (real, real) -> real, size: nat, maxIters: int) returns (rects: seq<Rect>)
    requires size >= 1
    ensures rects == MpiRefine(diag, size, GlobalOptSeq.Iterations(maxIters))
  {
    rects := Seed;
    for iter := 0 to GlobalOptSeq.Iterations(maxIters)
      invariant rects == MpiRefine(diag, size, iter)
    {
      rects := MpiRound(diag, rects, size);
    }
  }

  /** The task object of one rank. */
  class Task {
    const input: Int32
    var output: Int32

    constructor (n: Int32)
      ensures input == n && output == 0
    {
      input := n;
      output := 0;
    }

    /** A positive round count and an untouched output are accepted. */
    method Validation() returns (ok: bool)
      ensures ok <==> input > 0 && output == 0
    {
      ok := input > 0 && output == 0;
    }

    /** Stores 2 * input, which must not overflow `int`, and succeeds when
        that is positive. */
    method PreProcessing() returns (ok: bool)
      requires IntMin <= 2 * input <= IntMax
      modifies this
      ensures output == 2 * input
      ensures ok <==> input > 0
    {
      output := 2 * input;
      ok := output > 0;
    }

    /** The run of rank `rank` of `size`: the rounds, then on rank 0 the
        truncated minimum over the centres; other ranks keep their output.
        No bound on the diagonal is needed: a round that finds no index
        does not split, and the pool stays valid either way. */
    method Run(diag: (real, real) -> real, rank: nat, size: nat) returns (ok: bool)
      requires rank < size
      modifies this
      ensures ok
      ensures rank == 0 ==> output == Truncate(BestValue(MpiRefine(diag, size, GlobalOptSeq.Iterations(input))))
      ensures rank == 0 ==> 0 <= output <= 91
      ensures rank != 0 ==> output == old(output)
    {
      var rects := MpiRounds(diag, size, input);
      if rank == 0 {
        var bestVal := GlobalOptSeq.MinOverCenters(rects);
        OutputRange(rects);
        output := Truncate(bestVal);
      }
      ok := true;
    }

    /** Accepts a non-negative output; Run leaves one on rank 0. */
    method PostProcessing() returns (ok: bool)
      ensures ok <==> output >= 0
    {
      ok := output >= 0;
    }
  }
}
