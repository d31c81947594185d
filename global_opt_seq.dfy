/** The sequential global-optimisation task.  A pool of rectangles starts
    as the domain [-5, 5] x [-5, 5]; every round scores each rectangle,
    erases the first one with the largest score and appends its four
    quadrants; the output is the smallest objective value over the centres
    of the final pool, truncated to `int`. */
module GlobalOptSeq {
  import opened CInt
  import opened Regions

  /** Number of rounds the loop `for (iter = 0; iter < max_iters; ++iter)`
      runs. */
  function Iterations(input: int): nat
  {
    if input > 0 then input else 0
  }

  /** The index the scan of a round selects.  The source reads
      `rects[best_index]` without a check, so a round needs the scan to find
      an index: the pool is non-empty and valid and the diagonal bounded,
      which makes every score exceed -1e18. */
  function BestIndex(diag: (real, real) -> real, pool: seq<Rect>): (i: nat)
    requires DiagBounded(diag) && ValidPool(pool) && |pool| > 0
    ensures i < |pool|
  {
    ArgMaxFound(diag, pool);
    FirstArgMax(Scores(diag, pool)).1
  }

  /** One round: score every rectangle and split the selected one. */
  function Step(diag: (real, real) -> real, pool: seq<Rect>): (next: seq<Rect>)
    requires DiagBounded(diag) && ValidPool(pool) && |pool| > 0
    ensures ValidPool(next) && |next| == |pool| + 3
  {
    var scored := ScoreAll(diag, pool);
    ValidOfShapes(pool, scored);
    SplitKeepsValid(scored, BestIndex(diag, pool));
    SplitAt(scored, BestIndex(diag, pool))
  }

  /** The pool after k rounds; it always holds 1 + 3k valid rectangles. */
  function Refine(diag: (real, real) -> real, k: nat): (pool: seq<Rect>)
    requires DiagBounded(diag)
    ensures ValidPool(pool) && |pool| == 1 + 3 * k
  {
    if k == 0 then Seed else Step(diag, Refine(diag, k - 1))
  }

  /** A round erases the rectangle whose score is maximal and strictly
      larger than every score before it, keeps the others in order and
      appends its quadrants. */
  lemma StepSplitsFirstBest(diag: (real, real) -> real, pool: seq<Rect>)
    requires DiagBounded(diag) && ValidPool(pool) && |pool| > 0
    ensures exists i :: (0 <= i < |pool| &&
      (forall j :: 0 <= j < |pool| ==> Score(diag, pool[j]) <= Score(diag, pool[i])) &&
      (forall j :: 0 <= j < i ==> Score(diag, pool[j]) < Score(diag, pool[i])) &&
      Shapes(Step(diag, pool)) == Shapes(SplitAt(pool, i)))
  {
    var i := BestIndex(diag, pool);
    var s := Scores(diag, pool);
    FirstArgMaxSpec(s);
    assert forall j :: 0 <= j < |pool| ==> s[j] == Score(diag, pool[j]);
    SplitShapes(ScoreAll(diag, pool), pool, i);
    assert Shapes(Step(diag, pool)) == Shapes(SplitAt(pool, i));
  }

  /** The scoring loop of a round: every R is set to the rectangle's score
      while the first maximal score and its index are tracked. */
  method ScoreAndSelect(diag: (real, real) -> real, pool: seq<Rect>)
    returns (rects: seq<Rect>, maxR: real, bestIndex: int)
    ensures rects == ScoreAll(diag, pool)
    ensures (maxR, bestIndex) == FirstArgMax(Scores(diag, pool))
  {
    rects := pool;
    maxR := Sentinel;
    bestIndex := -1;
    for i := 0 to |pool|
      invariant |rects| == |pool|
      invariant forall j :: 0 <= j < i ==> rects[j] == pool[j].(R := Score(diag, pool[j]))
      invariant forall j :: i <= j < |rects| ==> rects[j] == pool[j]
      invariant (maxR, bestIndex) == FirstArgMax(Scores(diag, pool)[..i])
    {
      var scored := ScoreRect(diag, rects[i]);
      rects := rects[i := scored];
      assert Scores(diag, pool)[..i + 1][..i] == Scores(diag, pool)[..i];
      if rects[i].R > maxR {
        maxR := rects[i].R;
        bestIndex := i;
      }
    }
    assert Scores(diag, pool)[..|pool|] == Scores(diag, pool);
  }

  /** The body of the scoring loop: the objective at the centre minus the
      Lipschitz constant times the diagonal, stored in R. */
  method ScoreRect(diag: (real, real) -> real, r: Rect) returns (scored: Rect)
    ensures scored == r.(R := Score(diag, r))
  {
    var xc := 0.5 * (r.x1 + r.x2);
    var yc := 0.5 * (r.y1 + r.y2);
    var dx := r.x2 - r.x1;
    var dy := r.y2 - r.y1;
    var d := diag(dx, dy);
    var val := TestFunction(xc, yc);
    scored := r.(R := val - Lipschitz * d);
  }

  /** The erase of the chosen rectangle and the four appends. */
  method SplitRect(pool: seq<Rect>, bestIndex: nat) returns (rects: seq<Rect>)
    requires bestIndex < |pool|
    ensures rects == SplitAt(pool, bestIndex)
  {
    var r := pool[bestIndex];
    var xm := 0.5 * (r.x1 + r.x2);
    var ym := 0.5 * (r.y1 + r.y2);
    rects := pool[..bestIndex] + pool[bestIndex + 1..];
    rects := rects + [Rect(r.x1, xm, r.y1, ym, 0.0)];
    rects := rects + [Rect(xm, r.x2, r.y1, ym, 0.0)];
    rects := rects + [Rect(r.x1, xm, ym, r.y2, 0.0)];
    rects := rects + [Rect(xm, r.x2, ym, r.y2, 0.0)];
  }

  /** The final loop `best_val = std::min(best_val, f(xc, yc))` from 1e18. */
  method MinOverCenters(rects: seq<Rect>) returns (bestVal: real)
    ensures bestVal == BestValue(rects)
  {
    bestVal := Unbounded;
    for k := 0 to |rects|
      invariant bestVal == BestValue(rects[..k])
    {
      var r := rects[k];
      var xc := 0.5 * (r.x1 + r.x2);
      var yc := 0.5 * (r.y1 + r.y2);
      assert rects[..k + 1][..k] == rects[..k];
      bestVal := MinReal(bestVal, TestFunction(xc, yc));
    }
    assert rects[..|rects|] == rects;
  }

  /** One round of the loop: score and select, then split. */
  method Round(diag: (real, real) -> real, pool: seq<Rect>) returns (next: seq<Rect>)
    requires DiagBounded(diag) && ValidPool(pool) && |pool| > 0
    ensures next == Step(diag, pool)
  {
    var scored, maxR, bestIndex := ScoreAndSelect(diag, pool);
    ArgMaxFound(diag, pool);
    next := SplitRect(scored, bestIndex);
  }

  /** The round loop from the seed pool. */
  method Rounds(diag: (real, real) -> real, maxIters: int) returns (rects: seq<Rect>)
    requires DiagBounded(diag)
    ensures rects == Refine(diag, Iterations(maxIters))
  {
    rects := Seed;
    for iter := 0 to Iterations(maxIters)
      invariant rects == Refine(diag, iter)
    {
      rects := Round(diag, rects);
    }
  }

  /** The task object: the number of rounds and the output value. */
  class Task {
    const input: Int32
    var output: Int32

    constructor (n: Int32)
      ensures input == n && output == 0
    {
      input := n;
      output := 0;
    }

    /** A positive round count and an untouched output are accepted. */
    method Validation() returns (ok: bool)
      ensures ok <==> input > 0 && output == 0
    {
      ok := input > 0 && output == 0;
    }

    /** Stores 2 * input, which must not overflow `int`, and succeeds when
        that is positive. */
    method PreProcessing() returns (ok: bool)
      requires IntMin <= 2 * input <= IntMax
      modifies this
      ensures output == 2 * input
      ensures ok <==> input > 0
    {
      output := 2 * input;
      ok := output > 0;
    }

    /** The rounds, then the minimum over the centres.  With exact reals the
        minimum lies in [0, 91.25], so the cast to `int` cannot overflow. */
    method Run(diag: (real, real) -> real) returns (ok: bool)
      requires DiagBounded(diag)
      modifies this
      ensures ok && output == Truncate(BestValue(Refine(diag, Iterations(input))))
      ensures 0 <= output <= 91
    {
      var rects := Rounds(diag, input);
      var bestVal := MinOverCenters(rects);
      OutputRange(rects);
      output := Truncate(bestVal);
      ok := true;
    }

    /** Accepts a non-negative output, which Run always leaves. */
    method PostProcessing() returns (ok: bool)
      ensures ok <==> output >= 0
    {
      ok := output >= 0;
    }
  }
}
