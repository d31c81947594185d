# Four parallel-programming tasks, modelled in Dafny

This project models the integer and sequence skeleton of four tasks from a
course repository of sequential (SEQ) and MPI task pairs:

- **Global optimisation by rectangle partitioning**
  (`likhanov_m_global_optimization`). A pool of rectangles starts as
  [-5, 5] x [-5, 5]. Every round scores each rectangle, erases the first one
  with the largest score and appends its four quadrants. The output is the
  smallest objective value over the centres of the final pool, cast to
  `int`. The MPI variant:
  - spreads the scoring over the ranks in blocks;
  - combines the per-rank (score, index) pairs with `MPI_MAXLOC`;
  - lets rank 0 split the pool.
- **Vector minimum** (`shkryleva_s_vec_min_val`). A scan from `INT_MAX`. The
  MPI variant:
  - scatters the vector in blocks;
  - takes each block's minimum;
  - combines the local minima with `MPI_MIN`.
- **Hypercube edge count** (`likhanov_m_hypercube`). It counts the edges
  {v, v xor 2^b} of the n-dimensional hypercube from their smaller endpoint.
  The MPI variant:
  - needs a power-of-two number of ranks;
  - splits the vertices into blocks;
  - sums the partial counts along a binomial tree towards rank 0;
  - broadcasts the total.
- **Trapezoid integration**, MPI variant (`dergynov_s_trapezoid_integration`).
  Only its input check and its split of the n subintervals over the ranks
  are modelled.

The modules are:

- `BlockPartition` (`partition.dfy`). The "base, plus one for the first
  `rem` ranks" split that every MPI variant uses. It has two forms:
  - the closed form `r * base + min(r, rem)`;
  - the running sum of the counts, kept as a loop's `offset` or as a
    displacement array.

  The module proves that the two forms agree, that the ranges are balanced,
  adjacent and ordered, and that they cover [0, total) with every index
  owned by exactly one rank.
- `CInt` (`cint.dfy`). The 32-bit `int` and the narrowing cast of a 64-bit
  unsigned count to it.
- `VecMinSeq` and `VecMinMpi`. The scan, the distribution arrays, the local
  minimum and a rank-by-rank run of the MPI task. The MPI result is proved
  equal to the sequential one.
- `HypercubeBits`. Powers of two, bits, xor and `and` on naturals. It also
  holds:
  - the edge count of a vertex range;
  - the proof that the whole cube has n * 2^(n-1) edges;
  - the bit facts the tree reduction rests on.
- `HypercubeSeq` and `HypercubeMpi`. The task objects. `HypercubeMpi` also
  holds:
  - the block split of the vertices;
  - the nested counting loop;
  - the tree reduction, simulated round by round over an array of partial
    sums, with one step per rank.
- `TrapezoidMpi`. The input checks of both variants and the subinterval
  range of each rank.
- `Regions`. The rectangles, the objective, the scores, the first argmax
  with its -1e18 sentinel, the split, the minimum over centres and the cast.
  Both global-optimisation variants share it.
- `GlobalOptSeq` and `GlobalOptMpi`:
  - the scoring and selection loops;
  - the split;
  - the round loop;
  - the task objects;
  - the proof that rank 0 of the MPI variant ends with the same pool, up to
    the cached scores, and the same output as the sequential variant.

Each task object is a `class Task` with `input` and `output` fields. Its
`Validation`, `PreProcessing` and `Run` methods return the source's boolean
result and update `output`. Only the two global-optimisation tasks also have
a `PostProcessing` method; in the other tasks it only returns `true`. An MPI run over `size` ranks is
simulated by a loop over the ranks. The collectives (`MPI_MIN`,
`MPI_MAXLOC`, the send/receive tree and the broadcasts) are functions or
array updates, and the methods that return one rank's result say which rank
they describe.

Two things from outside the model are passed in as parameters:

- the square root of the global optimiser, as the function
  `diag(dx, dy) = sqrt(dx^2 + dy^2)`, about which only the ghost bound
  `DiagBounded` is assumed: `diag(dx, dy) <= dx + dy` for non-negative
  sides;
- the MPI rank and world size.

Coordinates, scores and objective values are exact `real`s.

## Model

| member | source | states |
|---|---|---|
| BlockPartition.StartIsPrefixSum | tasks/likhanov_m_global_optimization/mpi/src/ops_mpi.cpp:40-50 | the offset the loop accumulates from the counts of lower ranks equals the closed form `r * base + min(r, rem)` |
| BlockPartition.StartStep | tasks/likhanov_m_hypercube/mpi/src/ops_mpi.cpp:49-56 | a rank's start plus its local size is the next rank's start |
| BlockPartition.Bounds | tasks/likhanov_m_hypercube/mpi/src/ops_mpi.cpp:49-56 | rank 0 starts at 0 and the range after the last rank starts at the total, in both forms |
| BlockPartition.Balanced | tasks/shkryleva_s_vec_min_val/mpi/src/ops_mpi.cpp:28-35 | any two counts differ by at most one and none is below total / parts |
| BlockPartition.Ordered | tasks/dergynov_s_trapezoid_integration/mpi/src/ops_mpi.cpp:48-52 | a lower rank's range ends no later than a higher rank's range starts |
| BlockPartition.SliceInside | tasks/likhanov_m_hypercube/mpi/src/ops_mpi.cpp:52-56 | every rank's range ends at or before the total |
| BlockPartition.PrefixSliceInside | tasks/likhanov_m_global_optimization/mpi/src/ops_mpi.cpp:44-49 | every rank's block `[offset, offset + local_n)` lies inside the pool |
| BlockPartition.PrefixTotal | tasks/likhanov_m_global_optimization/mpi/src/ops_mpi.cpp:46-49 | the counts of all ranks add up to the total |
| BlockPartition.ExactlyOneOwner | tasks/dergynov_s_trapezoid_integration/mpi/src/ops_mpi.cpp:48-52 | every index in [0, total) lies in the range of exactly one rank |
| BlockPartition.CutAt | tasks/shkryleva_s_vec_min_val/mpi/src/ops_mpi.cpp:31-36 | the cut points of the split are each rank's displacement and displacement plus count, inside the total |
| CInt.FromUnsigned | tasks/likhanov_m_hypercube/seq/src/ops_seq.cpp:39 | the cast of an unsigned count to `int` keeps counts up to INT_MAX and otherwise agrees with the count modulo 2^32 |
| VecMinSeq.MinOrMax | tasks/shkryleva_s_vec_min_val/seq/src/ops_seq.cpp:27-42 | the minimum is INT_MAX for an empty vector, is at most every element, and is an element of a non-empty vector |
| VecMinSeq.MinUnique | tasks/shkryleva_s_vec_min_val/seq/src/ops_seq.cpp:30-40 | any lower bound that is an element (INT_MAX for an empty vector) is that minimum |
| VecMinSeq.MinConcat | tasks/shkryleva_s_vec_min_val/mpi/src/ops_mpi.cpp:71-75 | the minimum of two concatenated parts is the smaller of their minima, which is what the MIN combine relies on |
| VecMinSeq.Task.constructor | tasks/shkryleva_s_vec_min_val/seq/src/ops_seq.cpp:12-16 | stores the vector and an output of 0 |
| VecMinSeq.Task.Validation | tasks/shkryleva_s_vec_min_val/seq/src/ops_seq.cpp:18-20 | always succeeds |
| VecMinSeq.Task.PreProcessing | tasks/shkryleva_s_vec_min_val/seq/src/ops_seq.cpp:22-25 | sets the output to INT_MAX and succeeds |
| VecMinSeq.Task.Run | tasks/shkryleva_s_vec_min_val/seq/src/ops_seq.cpp:27-42 | the scan leaves the minimum of the vector (INT_MAX when empty) and does not change the vector |
| VecMinMpi.CalculateDistribution | tasks/shkryleva_s_vec_min_val/mpi/src/ops_mpi.cpp:23-39 | the counts are the block sizes, the displacements start at 0 and grow by the counts, agree with the closed form, and the counts sum to the total |
| VecMinMpi.ComputeLocalMinimum | tasks/shkryleva_s_vec_min_val/mpi/src/ops_mpi.cpp:45-55 | INT_MAX for an empty block, otherwise a lower bound of the block that is one of its elements |
| VecMinMpi.Block | tasks/shkryleva_s_vec_min_val/mpi/src/ops_mpi.cpp:57-69 | the block the scatter delivers to a rank has that rank's count of elements |
| VecMinMpi.BlockMinima | tasks/shkryleva_s_vec_min_val/mpi/src/ops_mpi.cpp:137-139 | the minimum over the local minima of the first r consecutive blocks is the minimum of the prefix those blocks cover |
| VecMinMpi.DistributedMinAgrees | tasks/shkryleva_s_vec_min_val/mpi/src/ops_mpi.cpp:125-139 | the MIN of all ranks' local minima equals the sequential minimum, including INT_MAX for an empty vector |
| VecMinMpi.Task.constructor | tasks/shkryleva_s_vec_min_val/mpi/src/ops_mpi.cpp:79-83 | stores the vector and an output of 0 |
| VecMinMpi.Task.Validation | tasks/shkryleva_s_vec_min_val/mpi/src/ops_mpi.cpp:85-102 | succeeds exactly when the vector is empty or its length fits in `int` |
| VecMinMpi.Task.PreProcessing | tasks/shkryleva_s_vec_min_val/mpi/src/ops_mpi.cpp:104-107 | sets the output to INT_MAX and succeeds |
| VecMinMpi.Task.RankMin | tasks/shkryleva_s_vec_min_val/mpi/src/ops_mpi.cpp:125-135 | a rank's value before the all-reduce is INT_MAX for an empty vector, otherwise the minimum of its scattered block |
| VecMinMpi.Task.Run | tasks/shkryleva_s_vec_min_val/mpi/src/ops_mpi.cpp:109-141 | for every number of ranks, every rank stores the minimum of the whole vector |
| HypercubeBits.PowerOfTwoTest | tasks/likhanov_m_hypercube/mpi/src/ops_mpi.cpp:83-85 | `v > 0 && (v & (v - 1)) == 0` holds exactly when v is a power of two, and then v is 2 to the power of its logarithm |
| HypercubeBits.AndPredecessor | tasks/likhanov_m_hypercube/mpi/src/ops_mpi.cpp:84 | for v >= 1, v and v - 1 share no bit exactly when v is a power of two |
| HypercubeBits.Log2OfPow2 | tasks/likhanov_m_hypercube/mpi/src/ops_mpi.cpp:41 | the dimension taken from 2^d by log2 is d |
| HypercubeBits.ContributionIsClearBit | tasks/likhanov_m_hypercube/seq/src/ops_seq.cpp:32-35 | v is smaller than v xor 2^b exactly when bit b of v is clear |
| HypercubeBits.VertexEdgesAreClearBits | tasks/likhanov_m_hypercube/seq/src/ops_seq.cpp:31-36 | the inner loop counts, for a vertex, the bits below n that are clear in it |
| HypercubeBits.CountedOnce | tasks/likhanov_m_hypercube/seq/src/ops_seq.cpp:32-35 | each edge {u, u xor 2^b} is counted from exactly one of its two endpoints |
| HypercubeBits.RangeAdditive | tasks/likhanov_m_hypercube/mpi/src/ops_mpi.cpp:87-100 | the counts of adjacent vertex ranges add up to the count of their union |
| HypercubeBits.HypercubeEdges | tasks/likhanov_m_hypercube/seq/src/ops_seq.cpp:27-37 | the count over all 2^n vertices is n * 2^(n-1) |
| HypercubeBits.FormulaStep | tasks/likhanov_m_hypercube/seq/src/ops_seq.cpp:30-37 | the edge count of dimension k + 1 is twice that of dimension k plus 2^k |
| HypercubeBits.ActiveMeansLowBitsClear | tasks/likhanov_m_hypercube/mpi/src/ops_mpi.cpp:62-68 | a rank is still in the reduction loop at round k exactly when its bits below k are clear |
| HypercubeBits.SendRound | tasks/likhanov_m_hypercube/mpi/src/ops_mpi.cpp:65-67 | a rank still in the loop that sends at round k has k as its lowest set bit |
| HypercubeBits.LowestSetBitBelow | tasks/likhanov_m_hypercube/mpi/src/ops_mpi.cpp:62-67 | every rank 0 < r < 2^d has a lowest set bit below d, so it sends within the d rounds |
| HypercubeBits.PartnerAbove | tasks/likhanov_m_hypercube/mpi/src/ops_mpi.cpp:63-69 | a receiving rank's partner is `rank + 2^k`, and the pair's block fits below 2^d |
| HypercubeSeq.Task.constructor | tasks/likhanov_m_hypercube/seq/src/ops_seq.cpp:9-13 | stores the dimension and an output of 0 |
| HypercubeSeq.Task.Validation | tasks/likhanov_m_hypercube/seq/src/ops_seq.cpp:15-17 | succeeds exactly when the dimension is positive |
| HypercubeSeq.Task.PreProcessing | tasks/likhanov_m_hypercube/seq/src/ops_seq.cpp:19-22 | resets the output to 0 and succeeds |
| HypercubeSeq.Task.Run | tasks/likhanov_m_hypercube/seq/src/ops_seq.cpp:24-41 | the nested loops store the cast of n * 2^(n-1), which is exactly n * 2^(n-1) when that fits in `int` |
| BlockPartition.SumConcat | tasks/likhanov_m_hypercube/mpi/src/ops_mpi.cpp:72 | the sum of two concatenated parts is the sum of their sums |
| HypercubeMpi.LocalRange | tasks/likhanov_m_hypercube/mpi/src/ops_mpi.cpp:49-56 | a rank's vertex range starts at the closed-form start, has the block size, and ends where the next rank starts |
| HypercubeMpi.ComputeLocalEdges | tasks/likhanov_m_hypercube/mpi/src/ops_mpi.cpp:87-100 | the nested loops count the edges of the vertex range from their smaller endpoint |
| HypercubeMpi.PrefixCounts | tasks/likhanov_m_hypercube/mpi/src/ops_mpi.cpp:52-58 | the local counts of ranks below r sum to the count of the vertices below rank r's start |
| HypercubeMpi.CountAllRanks | tasks/likhanov_m_hypercube/mpi/src/ops_mpi.cpp:44-58 | every rank's split and count, run for each rank, leave each rank's count of its own block at its index of the partial sums |
| HypercubeMpi.LocalCountsSum | tasks/likhanov_m_hypercube/mpi/src/ops_mpi.cpp:44-58 | the local counts of all ranks sum to the sequential total n * 2^(n-1) |
| HypercubeMpi.InitialTreeState | tasks/likhanov_m_hypercube/mpi/src/ops_mpi.cpp:60 | before round 0 every rank holds its own count and none has sent |
| HypercubeMpi.FinalTreeState | tasks/likhanov_m_hypercube/mpi/src/ops_mpi.cpp:62-74 | after d rounds rank 0 holds the sum of all counts and never sent, and every other rank sent once, at its lowest set bit |
| HypercubeMpi.TreeReduce | tasks/likhanov_m_hypercube/mpi/src/ops_mpi.cpp:62-74 | the tree reduction over 2^d ranks leaves the sum of all partial counts at rank 0; rank 0 never sends and every other rank sends exactly once, in the round of its lowest set bit |
| HypercubeMpi.ReduceRound | tasks/likhanov_m_hypercube/mpi/src/ops_mpi.cpp:62-74 | one round takes the state "each active rank holds the sum of its 2^k-block" to the same state for 2^(k+1) |
| HypercubeMpi.RankStep | tasks/likhanov_m_hypercube/mpi/src/ops_mpi.cpp:63-73 | one rank's step in a round (send and leave, receive and add, or idle) keeps the round's state for the ranks done so far |
| HypercubeMpi.RankFacts | tasks/likhanov_m_hypercube/mpi/src/ops_mpi.cpp:63-73 | which of the three cases a rank is in at round k, and that a receiver's own and partner sums add to its doubled block |
| HypercubeMpi.PairSum | tasks/likhanov_m_hypercube/mpi/src/ops_mpi.cpp:69-72 | adding the partner's block sum to one's own gives the sum of the block twice as long |
| HypercubeMpi.Task.constructor | tasks/likhanov_m_hypercube/mpi/src/ops_mpi.cpp:12-16 | stores the dimension and an output of 0 |
| HypercubeMpi.Task.Validation | tasks/likhanov_m_hypercube/mpi/src/ops_mpi.cpp:18-23 | succeeds exactly when the number of ranks is a positive power of two |
| HypercubeMpi.Task.PreProcessing | tasks/likhanov_m_hypercube/mpi/src/ops_mpi.cpp:25-28 | resets the output to 0 and succeeds |
| HypercubeMpi.Task.Run | tasks/likhanov_m_hypercube/mpi/src/ops_mpi.cpp:30-81 | fails and changes nothing unless the number of ranks is a power of two; otherwise every rank stores the cast of n * 2^(n-1), as the sequential task does |
| TrapezoidMpi.ValidationIgnoresFunctionId | tasks/dergynov_s_trapezoid_integration/mpi/src/ops_mpi.cpp:17-20 | the MPI check accepts every input the sequential check accepts, and differs from it exactly on inputs with an unknown integrand selector, for example selector 3 |
| TrapezoidMpi.Run | tasks/dergynov_s_trapezoid_integration/mpi/src/ops_mpi.cpp:41-52 | the run reports success on every path; degenerate input leaves early with 0 on rank 0 and other ranks' output unchanged; otherwise the rank sums [start, end), where start is the sum of the lower ranks' counts and end - start is its count, inside [0, n] |
| TrapezoidMpi.RunResultsDiffer | tasks/dergynov_s_trapezoid_integration/mpi/src/ops_mpi.cpp:41-46 | the message-passing run takes its early exit exactly on the inputs where the sequential run reports failure (tasks/dergynov_s_trapezoid_integration/seq/src/ops_seq.cpp:30-32), yet reports success there, for example with n = 0 |
| TrapezoidMpi.ValidatedRunSums | tasks/dergynov_s_trapezoid_integration/mpi/src/ops_mpi.cpp:41-46 | a validated input never takes the degenerate exit |
| TrapezoidMpi.RangesAdjacent | tasks/dergynov_s_trapezoid_integration/mpi/src/ops_mpi.cpp:48-52 | rank 0 starts at 0, the last rank ends at n, and each range ends where the next one starts |
| TrapezoidMpi.EachSubintervalOnce | tasks/dergynov_s_trapezoid_integration/mpi/src/ops_mpi.cpp:48-57 | every subinterval index in [0, n) is summed by exactly one rank |
| TrapezoidMpi.SumsIsOwns | tasks/dergynov_s_trapezoid_integration/mpi/src/ops_mpi.cpp:48-57 | a rank sums index i exactly when i lies in its block of the common split |
| Regions.QuadrantsInside | tasks/likhanov_m_global_optimization/seq/src/ops_seq.cpp:72-82 | each of the four quadrants is a well-formed rectangle inside its parent, with score 0, and depends only on the parent's corners |
| Regions.QuadrantsTile | tasks/likhanov_m_global_optimization/seq/src/ops_seq.cpp:74-82 | a point lies in the parent exactly when it lies in some quadrant, and no point lies in two quadrants |
| Regions.SplitAt | tasks/likhanov_m_global_optimization/seq/src/ops_seq.cpp:72-82 | the split keeps the rectangles before and after the chosen one in order, drops it, appends its four quadrants in the source's order, and grows the pool by 3 |
| Regions.SplitKeepsValid | tasks/likhanov_m_global_optimization/seq/src/ops_seq.cpp:72-82 | a split keeps every rectangle well-formed and inside the domain |
| Regions.ScoreAll | tasks/likhanov_m_global_optimization/seq/src/ops_seq.cpp:51-64 | scoring changes only the R fields |
| Regions.FirstArgMax | tasks/likhanov_m_global_optimization/seq/src/ops_seq.cpp:48-70 | the scan from (-1e18, -1) returns either that pair or a larger value with an index inside the scores |
| Regions.FirstArgMaxSpec | tasks/likhanov_m_global_optimization/seq/src/ops_seq.cpp:66-69 | the index is -1 exactly when no score exceeds -1e18; otherwise its score is at least every score and strictly above every score at a smaller index |
| Regions.FirstArgMaxUnique | tasks/likhanov_m_global_optimization/seq/src/ops_seq.cpp:66-69 | an index whose score is maximal, above -1e18 and strictly above all earlier scores is the one the scan returns |
| Regions.ScoreAboveSentinel | tasks/likhanov_m_global_optimization/seq/src/ops_seq.cpp:54-64 | the score of a valid rectangle is at least -40, above the -1e18 sentinel |
| Regions.ArgMaxFound | tasks/likhanov_m_global_optimization/seq/src/ops_seq.cpp:66-72 | on a non-empty valid pool the scan finds an index, so the split never reads `rects[-1]` |
| Regions.BestValue | tasks/likhanov_m_global_optimization/seq/src/ops_seq.cpp:85-91 | the final minimum is at most 1e18 and at most the objective at every centre, and it is 1e18 or one of those values |
| Regions.BestValueOfValidPool | tasks/likhanov_m_global_optimization/seq/src/ops_seq.cpp:85-91 | on a non-empty valid pool the minimum is the objective at some centre and lies in [0, 91.25] |
| Regions.BestValueOfShapes | tasks/likhanov_m_global_optimization/mpi/src/ops_mpi.cpp:93-104 | the final minimum does not depend on the cached R fields |
| Regions.TruncateBounds | tasks/likhanov_m_global_optimization/seq/src/ops_seq.cpp:93 | the cast to `int` truncates toward zero |
| Regions.OutputRange | tasks/likhanov_m_global_optimization/seq/src/ops_seq.cpp:85-93 | the stored output of a non-empty valid pool lies in [0, 91], so the cast cannot overflow |
| GlobalOptSeq.Step | tasks/likhanov_m_global_optimization/seq/src/ops_seq.cpp:47-83 | a round keeps the pool valid and grows it by exactly 3 |
| GlobalOptSeq.Refine | tasks/likhanov_m_global_optimization/seq/src/ops_seq.cpp:44-83 | from the seed [-5, 5] x [-5, 5], the pool after k rounds holds exactly 1 + 3k valid rectangles |
| GlobalOptSeq.StepSplitsFirstBest | tasks/likhanov_m_global_optimization/seq/src/ops_seq.cpp:48-82 | a round erases the rectangle whose score is at least every score and strictly above all earlier scores, and appends its quadrants |
| GlobalOptSeq.ScoreAndSelect | tasks/likhanov_m_global_optimization/seq/src/ops_seq.cpp:48-70 | the scoring loop stores every rectangle's score in its R and returns the first maximal score and its index |
| GlobalOptSeq.ScoreRect | tasks/likhanov_m_global_optimization/seq/src/ops_seq.cpp:54-64 | the body of the scoring loop changes only R, to the objective at the centre minus 2 times the diagonal |
| GlobalOptSeq.SplitRect | tasks/likhanov_m_global_optimization/seq/src/ops_seq.cpp:72-82 | the erase and the four appends compute the split of the pool at the chosen index |
| GlobalOptSeq.MinOverCenters | tasks/likhanov_m_global_optimization/seq/src/ops_seq.cpp:85-91 | the loop from 1e18 computes the minimum of the objective over the centres |
| GlobalOptSeq.Round | tasks/likhanov_m_global_optimization/seq/src/ops_seq.cpp:48-82 | one pass of the round loop's body performs one round |
| GlobalOptSeq.Rounds | tasks/likhanov_m_global_optimization/seq/src/ops_seq.cpp:44-83 | the seed and the round loop give the pool after `max_iters` rounds, or the seed when `max_iters` is not positive |
| GlobalOptSeq.Task.constructor | tasks/likhanov_m_global_optimization/seq/src/ops_seq.cpp:12-16 | stores the round count and an output of 0 |
| GlobalOptSeq.Task.Validation | tasks/likhanov_m_global_optimization/seq/src/ops_seq.cpp:18-20 | succeeds exactly when the round count is positive and the output is still 0 |
| GlobalOptSeq.Task.PreProcessing | tasks/likhanov_m_global_optimization/seq/src/ops_seq.cpp:22-25 | stores 2 * input and succeeds exactly when the input is positive |
| GlobalOptSeq.Task.Run | tasks/likhanov_m_global_optimization/seq/src/ops_seq.cpp:27-96 | stores the truncated minimum over the centres of the pool after `input` rounds, a value in [0, 91] |
| GlobalOptSeq.Task.PostProcessing | tasks/likhanov_m_global_optimization/seq/src/ops_seq.cpp:98-100 | succeeds exactly when the output is non-negative, which Run guarantees |
| GlobalOptMpi.ComputeDistribution | tasks/likhanov_m_global_optimization/mpi/src/ops_mpi.cpp:40-50 | a rank's block size is the split's count and its offset, accumulated by the loop, is the sum of the lower ranks' counts |
| GlobalOptMpi.ShiftedScan | tasks/likhanov_m_global_optimization/mpi/src/ops_mpi.cpp:57-75 | the scan result of a block of n scores starting at `offset`, moved to pool indices, is a scan result over [offset, offset + n) with the same value, and a found index moves by exactly `offset` |
| GlobalOptMpi.MaxLoc | tasks/likhanov_m_global_optimization/mpi/src/ops_mpi.cpp:146-151 | the MAXLOC combine returns one of its two pairs, with the larger value, and on equal values the smaller index (section 5.9.4 of MPI-3.1) |
| GlobalOptMpi.MaxLocCommutesAndAssociates | tasks/likhanov_m_global_optimization/mpi/src/ops_mpi.cpp:151 | MAXLOC is commutative and associative, so the order in which the all-reduce combines does not matter |
| GlobalOptMpi.MaxLocOfOrdered | tasks/likhanov_m_global_optimization/mpi/src/ops_mpi.cpp:151 | for the results of two consecutive blocks, MAXLOC keeps the earlier one unless the later one is strictly larger |
| GlobalOptMpi.ScanConcat | tasks/likhanov_m_global_optimization/mpi/src/ops_mpi.cpp:52-77 | the first-argmax scan of two consecutive blocks is the MAXLOC of the two blocks' scans, with the second block's index shifted |
| GlobalOptMpi.PrefixMaxima | tasks/likhanov_m_global_optimization/mpi/src/ops_mpi.cpp:139-151 | MAXLOC over the first r ranks' local results is the first-argmax of the part of the pool their blocks cover |
| GlobalOptMpi.DistributedMaxAgrees | tasks/likhanov_m_global_optimization/mpi/src/ops_mpi.cpp:139-151 | MAXLOC over all ranks' local results equals the sequential first-argmax over the whole pool |
| GlobalOptMpi.ScoreSlice | tasks/likhanov_m_global_optimization/mpi/src/ops_mpi.cpp:57-71 | scoring a block changes only the R fields inside the block |
| GlobalOptMpi.GlobalIndex | tasks/likhanov_m_global_optimization/mpi/src/ops_mpi.cpp:146-153 | the combined index is -1 or a valid pool index |
| GlobalOptMpi.GlobalIndexBound | tasks/likhanov_m_global_optimization/mpi/src/ops_mpi.cpp:146-153 | MAXLOC over the local results gives -1 or an index inside the pool |
| GlobalOptMpi.GlobalIndexIsFirst | tasks/likhanov_m_global_optimization/mpi/src/ops_mpi.cpp:146-151 | the index the all-reduce yields is the sequential first-argmax of the scores |
| GlobalOptMpi.MpiStep | tasks/likhanov_m_global_optimization/mpi/src/ops_mpi.cpp:123-156 | rank 0's round, with the split guarded by `index >= 0`, keeps its pool valid |
| GlobalOptMpi.MpiRefine | tasks/likhanov_m_global_optimization/mpi/src/ops_mpi.cpp:119-156 | rank 0's pool after any number of rounds is valid and non-empty |
| GlobalOptMpi.MpiStepAgrees | tasks/likhanov_m_global_optimization/mpi/src/ops_mpi.cpp:123-156 | a round of rank 0 and a sequential round on pools that differ only in their R fields give pools that differ only in their R fields |
| GlobalOptMpi.MpiRefineAgrees | tasks/likhanov_m_global_optimization/mpi/src/ops_mpi.cpp:119-156 | after k rounds rank 0 holds 1 + 3k rectangles, the same as the sequential pool up to the cached R fields |
| GlobalOptMpi.OutputsAgree | tasks/likhanov_m_global_optimization/mpi/src/ops_mpi.cpp:158-161 | rank 0 stores the same output as the sequential task |
| GlobalOptMpi.ComputeLocalMax | tasks/likhanov_m_global_optimization/mpi/src/ops_mpi.cpp:52-77 | the loop scores exactly the rank's block and returns its first maximal score with its pool index, or (-1e18, -1) |
| GlobalOptMpi.AllRanks | tasks/likhanov_m_global_optimization/mpi/src/ops_mpi.cpp:136-144 | every rank's distribution and local maximum, in rank order, with rank 0's scored copy of the pool |
| GlobalOptMpi.MpiRound | tasks/likhanov_m_global_optimization/mpi/src/ops_mpi.cpp:124-155 | one pass of the round loop's body performs rank 0's round |
| GlobalOptMpi.MpiRounds | tasks/likhanov_m_global_optimization/mpi/src/ops_mpi.cpp:119-156 | the seed and the round loop give rank 0's pool after `max_iters` rounds |
| GlobalOptMpi.Task.constructor | tasks/likhanov_m_global_optimization/mpi/src/ops_mpi.cpp:13-17 | stores the round count and an output of 0 |
| GlobalOptMpi.Task.Validation | tasks/likhanov_m_global_optimization/mpi/src/ops_mpi.cpp:19-21 | succeeds exactly when the round count is positive and the output is still 0 |
| GlobalOptMpi.Task.PreProcessing | tasks/likhanov_m_global_optimization/mpi/src/ops_mpi.cpp:23-26 | stores 2 * input and succeeds exactly when the input is positive |
| GlobalOptMpi.Task.Run | tasks/likhanov_m_global_optimization/mpi/src/ops_mpi.cpp:107-164 | rank 0 stores the truncated minimum over the centres of its pool, a value in [0, 91]; other ranks keep their output |
| GlobalOptMpi.Task.PostProcessing | tasks/likhanov_m_global_optimization/mpi/src/ops_mpi.cpp:166-168 | succeeds exactly when the output is non-negative |

## Left out

- MPI transport is left out: the matching of sends and receives, the implicit synchronisation and freedom from deadlock. Only what each collective computes is modelled. One consequence: ranks with an empty block skip `MPI_Scatterv` in the vector-minimum task (tasks/shkryleva_s_vec_min_val/mpi/src/ops_mpi.cpp:61-66), and the model gives them an empty block.
- The broadcast of the rectangle pool as raw bytes is left out. It depends on the C++ memory layout. So is the `int` overflow of its byte count for very large pools.
- Floating point is left out. Coordinates, scores and objective values are exact reals. The square root is the parameter `diag`. Rounding, the 1e-2 tolerance of the tests, and the trapezoid integrand with its summation are not modelled.
- GlobalOptSeq.Task.Run requires `DiagBounded(diag)`. Without a bound on the diagonal, a score at or below -1e18 would make the source read `rects[-1]`. The MPI variant guards that index, so GlobalOptMpi.Task.Run needs no such requirement.
- GlobalOptSeq.Task.PreProcessing requires that `2 * input` fits in `int`. The source overflows otherwise.
- GlobalOptMpi.Task.PreProcessing requires that `2 * input` fits in `int`, for the same reason.
- HypercubeSeq.Task.Run requires 0 <= input < 64. A shift of a 64-bit value by a negative amount, or by 64 or more, is undefined in C++. The 64-bit wrap-around of the count is not modelled; it is not needed, because 2^32 divides 2^64, so the cast of the wrapped count equals `FromUnsigned` of the exact count.
- HypercubeMpi.Task.Run requires 0 <= input < 64, for the same reasons. `HypercubeMpi.Task.Validation` checks only the number of ranks, as the source does. The mod-2^64 wrap of `++local_edges` and `sum += received` in the unsigned 64-bit counting and reduction is not modelled; the sums are exact, and since 2^32 divides 2^64 the final cast of the wrapped total equals `FromUnsigned` of the exact total.
- VecMinMpi.Task.Run requires the vector length to fit in `int`, which is what Validation accepts. The source narrows the broadcast length to `int`.
- The vector-minimum MPI model starts from the broadcast vector length. Rank 0 sending the length is transport.
- The trapezoid task's sequential variant is modelled by its input check (`TrapezoidMpi.SeqValidation`) and by the success of its run (`TrapezoidMpi.SeqRunSucceeds`). Its constructor, PreProcessing and the summation are numeric.
- The `PostProcessing` steps of the vector-minimum, hypercube and trapezoid tasks are left out: each returns `true` and changes nothing.
- Headers, tests, performance drivers and the task framework around `Validation`/`PreProcessing`/`Run`/`PostProcessing` are not part of this model.
