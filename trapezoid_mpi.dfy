/** The integer skeleton of the message-passing trapezoid task: the input
    check and the split of the n subintervals of [a, b] over the ranks.  The
    floating-point integrand and the summation are not modelled; a run is
    described by the subinterval range a rank sums, or by the degenerate
    exit. */
module TrapezoidMpi {
  import BlockPartition
  import CInt

  /** Bounds a < b of the integral, the subinterval count and the integrand
      selector. */
  datatype Input = Input(a: real, b: real, n: int, funcId: int)

  /** The integrand selectors the common header knows: 0, 1 and 2. */
  predicate IsValidFunctionId(id: int)
  {
    0 <= id <= 2
  }

  /** The check of the message-passing variant. */
  predicate Validation(input: Input)
  {
    input.n > 0 && input.a < input.b
  }

  /** The check of the sequential variant, which also demands a known
      integrand. */
  predicate SeqValidation(input: Input)
  {
    input.n > 0 && input.a < input.b && IsValidFunctionId(input.funcId)
  }

  /** The message-passing check is weaker than the sequential one by
      exactly the integrand selector. */
  lemma ValidationIgnoresFunctionId(input: Input)
    ensures SeqValidation(input) ==> Validation(input)
    ensures Validation(input) && !SeqValidation(input) <==> Validation(input) && !IsValidFunctionId(input.funcId)
    ensures Validation(Input(0.0, 1.0, 1, 3)) && !SeqValidation(Input(0.0, 1.0, 1, 3))
  {
  }

  /** What one rank does in a run, with the result it reports: leave early,
      storing 0 when it is rank 0, or sum the subintervals [start, end). */
  datatype Step = Degenerate(ok: bool, output: real) | Summation(ok: bool, start: int, end: int)

  /** The run of rank `rank` of `size`, with the input broadcast from rank 0
      and `output` the value the rank held before.  The closed form
      `rank * base + min(rank, rem)` is the offset of the rank's range. */
  function Run(input: Input, rank: nat, size: nat, output: real): (s: Step)
    requires size >= 1 && rank < size
    ensures s.ok
    ensures s.Degenerate? <==> input.n <= 0 || !(input.a < input.b)
    ensures s.Degenerate? ==> s.output == if rank == 0 then 0.0 else output
    ensures s.Summation? ==>
      && 0 <= s.start <= s.end <= input.n
      && s.start == BlockPartition.PrefixSum(input.n, size, rank)
      && s.end - s.start == BlockPartition.Count(input.n, size, rank)
  {
    if input.n <= 0 || !(input.a < input.b) then
      Degenerate(true, if rank == 0 then 0.0 else output)
    else
      var base := input.n / size;
      var rem := input.n % size;
      var localN := base + (if rank < rem then 1 else 0);
      var start := rank * base + CInt.Min(rank, rem);
      BlockPartition.StartIsPrefixSum(input.n, size, rank);
      BlockPartition.SliceInside(input.n, size, rank);
      Summation(true, start, start + localN)
  }

  /** The result the sequential run reports: it fails on the input the
      message-passing run leaves early on. */
  predicate SeqRunSucceeds(input: Input)
  {
    !(input.n <= 0 || !(input.a < input.b))
  }

  /** On degenerate input the message-passing run reports success where the
      sequential run reports failure; on any other input both succeed. */
  lemma RunResultsDiffer(input: Input, rank: nat, size: nat, output: real)
    requires size >= 1 && rank < size
    ensures Run(input, rank, size, output).Degenerate? <==> !SeqRunSucceeds(input)
    ensures Run(input, rank, size, output).ok
    ensures Run(Input(0.0, 1.0, 0, 0), 0, 1, 5.0) == Degenerate(true, 0.0) && !SeqRunSucceeds(Input(0.0, 1.0, 0, 0))
  {
  }

  /** Every input that passes validation is summed, never the early exit. */
  lemma ValidatedRunSums(input: Input, rank: nat, size: nat, output: real)
    requires size >= 1 && rank < size && Validation(input)
    ensures Run(input, rank, size, output).Summation?
  {
  }

  /** The ranges are adjacent and exhaustive: rank 0 starts at 0, each rank
      ends where the next begins, and the last ends at n. */
  lemma RangesAdjacent(input: Input, size: nat, rank: nat)
    requires size >= 1 && rank < size && input.n > 0 && input.a < input.b
    ensures Run(input, 0, size, 0.0).start == 0
    ensures Run(input, size - 1, size, 0.0).end == input.n
    ensures rank + 1 < size ==> Run(input, rank, size, 0.0).end == Run(input, rank + 1, size, 0.0).start
  {
    BlockPartition.Bounds(input.n, size);
    BlockPartition.StartIsPrefixSum(input.n, size, 0);
    BlockPartition.StartIsPrefixSum(input.n, size, size - 1);
    BlockPartition.StartStep(input.n, size, size - 1);
    BlockPartition.StartIsPrefixSum(input.n, size, rank);
    BlockPartition.StartIsPrefixSum(input.n, size, rank + 1);
    BlockPartition.StartStep(input.n, size, rank);
  }

  /** Rank `rank` sums subinterval `i`. */
  predicate Sums(input: Input, size: nat, rank: nat, i: int)
    requires size >= 1
  {
    rank < size && input.n > 0 && input.a < input.b &&
    Run(input, rank, size, 0.0).start <= i < Run(input, rank, size, 0.0).end
  }

  /** Each subinterval index in [0, n) is summed by exactly one rank. */
  lemma EachSubintervalOnce(input: Input, size: nat, i: int)
    requires size >= 1 && input.n > 0 && input.a < input.b && 0 <= i < input.n
    ensures exists r :: Sums(input, size, r, i)
    ensures forall r, s :: Sums(input, size, r, i) && Sums(input, size, s, i) ==> r == s
  {
    BlockPartition.ExactlyOneOwner(input.n, size, i);
    var o :| BlockPartition.Owns(input.n, size, o, i);
    SumsIsOwns(input, size, o, i);
    assert Sums(input, size, o, i);
    forall r, s | Sums(input, size, r, i) && Sums(input, size, s, i) ensures r == s {
      SumsIsOwns(input, size, r, i);
      SumsIsOwns(input, size, s, i);
    }
  }

  /** A rank sums subinterval `i` exactly when `i` lies in its block. */
  lemma SumsIsOwns(input: Input, size: nat, r: nat, i: nat)
    requires size >= 1 && input.n > 0 && input.a < input.b
    ensures Sums(input, size, r, i) <==> BlockPartition.Owns(input.n, size, r, i)
  {
    if r < size {
      BlockPartition.StartIsPrefixSum(input.n, size, r);
    }
  }
}
