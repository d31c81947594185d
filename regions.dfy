/** The rectangles of the global-optimisation task and the operations both
    of its variants share: scoring, the first maximal score, the split of a
    rectangle into quadrants and the final minimum over centres.
    Coordinates are exact reals, so midpoints are exact.  The objective is
    the task's polynomial; the diagonal sqrt(dx*dx + dy*dy) is a parameter
    `diag`, of which only the bound of a true Euclidean norm is assumed
    where a property needs it. */
module Regions {

  /** A search rectangle [x1, x2] x [y1, y2] and its cached score R. */
  datatype Rect = Rect(x1: real, x2: real, y1: real, y2: real, R: real)

  /** The Lipschitz estimate m of the score. */
  const Lipschitz: real := 2.0
  /** The running maximum of a scan starts here (-1e18). */
  const Sentinel: real := -1_000_000_000_000_000_000.0
  /** The running minimum of the final scan starts here (1e18). */
  const Unbounded: real := 1_000_000_000_000_000_000.0

  /** The search domain [-5, 5] x [-5, 5] with score 0. */
  const Domain: Rect := Rect(-5.0, 5.0, -5.0, 5.0, 0.0)

  /** The pool a run starts from. */
  const Seed: seq<Rect> := [Domain]

  function Mid(lo: real, hi: real): real { 0.5 * (lo + hi) }

  /** The objective (x - 1.5)^2 + (y + 2)^2. */
  function TestFunction(x: real, y: real): real
  {
    (x - 1.5) * (x - 1.5) + (y + 2.0) * (y + 2.0)
  }

  function CenterValue(r: Rect): real
  {
    TestFunction(Mid(r.x1, r.x2), Mid(r.y1, r.y2))
  }

  /** The score of a rectangle: objective at the centre minus m times the
      diagonal.  It does not depend on the cached R. */
  function Score(diag: (real, real) -> real, r: Rect): real
  {
    CenterValue(r) - Lipschitz * diag(r.x2 - r.x1, r.y2 - r.y1)
  }

  /** `diag` is no larger than dx + dy on non-negative sides, as
      sqrt(dx*dx + dy*dy) is. */
  ghost predicate DiagBounded(diag: (real, real) -> real)
  {
    forall dx, dy :: 0.0 <= dx && 0.0 <= dy ==> diag(dx, dy) <= dx + dy
  }

  predicate WellFormed(r: Rect) { r.x1 < r.x2 && r.y1 < r.y2 }

  predicate Inside(r: Rect, outer: Rect)
  {
    outer.x1 <= r.x1 && r.x2 <= outer.x2 && outer.y1 <= r.y1 && r.y2 <= outer.y2
  }

  /** Every rectangle of the pool is well formed and lies in the domain. */
  predicate ValidPool(pool: seq<Rect>)
  {
    forall j :: 0 <= j < |pool| ==> WellFormed(pool[j]) && Inside(pool[j], Domain)
  }

  /** The half-open rectangle [x1, x2) x [y1, y2) holds the point (x, y). */
  predicate Contains(r: Rect, x: real, y: real)
  {
    r.x1 <= x < r.x2 && r.y1 <= y < r.y2
  }

  /** The rectangle with its cached score cleared: what the geometry of a
      pool is made of. */
  function Shape(r: Rect): Rect { r.(R := 0.0) }

  function Shapes(pool: seq<Rect>): (s: seq<Rect>)
    ensures |s| == |pool|
  {
    seq(|pool|, j requires 0 <= j < |pool| => Shape(pool[j]))
  }

  // ---------------------------------------------------------- quadrants

  /** The four quadrants, with score 0, in the order low-x/low-y,
      high-x/low-y, low-x/high-y, high-x/high-y. */
  function Quadrants(r: Rect): (qs: seq<Rect>)
    ensures |qs| == 4
  {
    var xm := Mid(r.x1, r.x2);
    var ym := Mid(r.y1, r.y2);
    [Rect(r.x1, xm, r.y1, ym, 0.0), Rect(xm, r.x2, r.y1, ym, 0.0),
     Rect(r.x1, xm, ym, r.y2, 0.0), Rect(xm, r.x2, ym, r.y2, 0.0)]
  }

  /** The quadrants of a well-formed rectangle are well formed, lie inside
      it, carry score 0 and depend only on its shape. */
  lemma QuadrantsInside(r: Rect)
    requires WellFormed(r)
    ensures forall q :: 0 <= q < 4 ==>
      WellFormed(Quadrants(r)[q]) && Inside(Quadrants(r)[q], r) && Quadrants(r)[q].R == 0.0
    ensures Quadrants(Shape(r)) == Quadrants(r)
  {
  }

  /** The quadrants tile the rectangle: a point lies in the rectangle exactly
      when it lies in one of them, and it never lies in two. */
  lemma QuadrantsTile(r: Rect, x: real, y: real)
    requires WellFormed(r)
    ensures Contains(r, x, y) <==> exists q :: 0 <= q < 4 && Contains(Quadrants(r)[q], x, y)
    ensures forall p, q :: 0 <= p < q < 4 ==>
      !(Contains(Quadrants(r)[p], x, y) && Contains(Quadrants(r)[q], x, y))
  {
    var qs := Quadrants(r);
    var xm := Mid(r.x1, r.x2);
    var ym := Mid(r.y1, r.y2);
    if Contains(r, x, y) {
      var q := (if x < xm then 0 else 1) + (if y < ym then 0 else 2);
      assert Contains(qs[q], x, y);
    }
  }

  // -------------------------------------------------------------- split

  /** Erase rectangle i, keeping the others in order, and append its four
      quadrants. */
  function SplitAt(pool: seq<Rect>, i: nat): (out: seq<Rect>)
    requires i < |pool|
    ensures |out| == |pool| + 3
    ensures forall j :: 0 <= j < i ==> out[j] == pool[j]
    ensures forall j :: i <= j < |pool| - 1 ==> out[j] == pool[j + 1]
    ensures forall q :: 0 <= q < 4 ==> out[|pool| - 1 + q] == Quadrants(pool[i])[q]
  {
    pool[..i] + pool[i + 1..] + Quadrants(pool[i])
  }

  /** Validity reads only the shapes. */
  lemma ValidOfShapes(p: seq<Rect>, q: seq<Rect>)
    requires Shapes(p) == Shapes(q) && ValidPool(p)
    ensures ValidPool(q)
  {
    forall j | 0 <= j < |q| ensures WellFormed(q[j]) && Inside(q[j], Domain) {
      ShapeAt(p, q, j);
    }
  }

  /** Splitting a valid pool gives a valid pool. */
  lemma SplitKeepsValid(pool: seq<Rect>, i: nat)
    requires i < |pool| && ValidPool(pool)
    ensures ValidPool(SplitAt(pool, i))
  {
    var out := SplitAt(pool, i);
    QuadrantsInside(pool[i]);
    forall j | 0 <= j < |out| ensures WellFormed(out[j]) && Inside(out[j], Domain) {
      if j >= |pool| - 1 {
        assert out[j] == Quadrants(pool[i])[j - (|pool| - 1)];
      }
    }
  }

  /** The shapes after a split depend only on the shapes before it. */
  lemma SplitShapes(p: seq<Rect>, q: seq<Rect>, i: nat)
    requires i < |p| && Shapes(p) == Shapes(q)
    ensures Shapes(SplitAt(p, i)) == Shapes(SplitAt(q, i))
  {
    ShapeAt(p, q, i);
    QuadrantsOfShape(p[i]);
    QuadrantsOfShape(q[i]);
    var a := SplitAt(p, i);
    var b := SplitAt(q, i);
    forall j | 0 <= j < |a| ensures Shape(a[j]) == Shape(b[j]) {
      if j < i {
        ShapeAt(p, q, j);
      } else if j < |p| - 1 {
        ShapeAt(p, q, j + 1);
      } else {
        assert a[j] == Quadrants(p[i])[j - (|p| - 1)];
      }
    }
  }

  /** Equal shapes of two pools are equal shapes at every index. */
  lemma ShapeAt(p: seq<Rect>, q: seq<Rect>, j: nat)
    requires Shapes(p) == Shapes(q) && j < |p|
    ensures Shape(p[j]) == Shape(q[j])
  {
    assert Shapes(p)[j] == Shapes(q)[j];
  }

  lemma QuadrantsOfShape(r: Rect)
    ensures Quadrants(Shape(r)) == Quadrants(r)
  {
  }

  // ------------------------------------------------------------ scoring

  function Scores(diag: (real, real) -> real, pool: seq<Rect>): (s: seq<real>)
    ensures |s| == |pool|
  {
    seq(|pool|, j requires 0 <= j < |pool| => Score(diag, pool[j]))
  }

  /** The pool with every R set to the rectangle's score. */
  function ScoreAll(diag: (real, real) -> real, pool: seq<Rect>): (out: seq<Rect>)
    ensures |out| == |pool|
    ensures Shapes(out) == Shapes(pool)
  {
    var out := seq(|pool|, j requires 0 <= j < |pool| => pool[j].(R := Score(diag, pool[j])));
    assert forall j :: 0 <= j < |pool| ==> Shapes(out)[j] == Shapes(pool)[j];
    out
  }

  /** Scores read only the shapes. */
  lemma ScoresOfShapes(diag: (real, real) -> real, p: seq<Rect>, q: seq<Rect>)
    requires Shapes(p) == Shapes(q)
    ensures Scores(diag, p) == Scores(diag, q)
  {
    forall j | 0 <= j < |p| ensures Score(diag, p[j]) == Score(diag, q[j]) {
      ShapeAt(p, q, j);
    }
  }

  /** What a scan over the indices [lo, hi) can return: index -1 exactly
      with the value -1e18, otherwise a larger value and an index in
      range. */
  predicate ScanResult(p: (real, int), lo: int, hi: int)
  {
    Sentinel <= p.0 && (p.1 == -1 <==> p.0 == Sentinel) && (p.1 == -1 || lo <= p.1 < hi)
  }

  /** The (value, index) of the first maximal score, as the scan with a
      strict comparison from (-1e18, -1) finds it; index -1 when no score
      exceeds -1e18.  What the pair means is stated by FirstArgMaxSpec. */
  function FirstArgMax(s: seq<real>): (best: (real, int))
    ensures ScanResult(best, 0, |s|)
  {
    if |s| == 0 then (Sentinel, -1)
    else
      var prev := FirstArgMax(s[..|s| - 1]);
      if s[|s| - 1] > prev.0 then (s[|s| - 1], |s| - 1) else prev
  }

  /** The scan returns a maximal score, the first index holding it, and
      index -1 exactly when no score exceeds -1e18. */
  lemma {:induction false} FirstArgMaxSpec(s: seq<real>)
    ensures FirstArgMax(s).1 == -1 ==> forall j :: 0 <= j < |s| ==> s[j] <= Sentinel
    ensures (forall j :: 0 <= j < |s| ==> s[j] <= Sentinel) ==> FirstArgMax(s).1 == -1
    ensures FirstArgMax(s).1 >= 0 ==> s[FirstArgMax(s).1] == FirstArgMax(s).0
    ensures forall j :: 0 <= j < |s| ==> s[j] <= FirstArgMax(s).0
    ensures forall j :: 0 <= j < FirstArgMax(s).1 ==> s[j] < FirstArgMax(s).0
  {
    if |s| > 0 {
      var t := s[..|s| - 1];
      FirstArgMaxSpec(t);
      assert forall j :: 0 <= j < |t| ==> t[j] == s[j];
    }
  }

  /** The first maximal index is the only index whose score is maximal and
      strictly above all earlier ones. */
  lemma FirstArgMaxUnique(s: seq<real>, i: nat)
    requires i < |s| && Sentinel < s[i]
    requires forall j :: 0 <= j < |s| ==> s[j] <= s[i]
    requires forall j :: 0 <= j < i ==> s[j] < s[i]
    ensures FirstArgMax(s) == (s[i], i)
  {
    FirstArgMaxSpec(s);
  }

  /** The scores of a valid pool stay above -1e18 when the diagonal is
      bounded: they are at least -40. */
  lemma ScoreAboveSentinel(diag: (real, real) -> real, r: Rect)
    requires DiagBounded(diag) && WellFormed(r) && Inside(r, Domain)
    ensures Score(diag, r) >= -40.0 > Sentinel
  {
    CenterValueRange(r);
    assert diag(r.x2 - r.x1, r.y2 - r.y1) <= (r.x2 - r.x1) + (r.y2 - r.y1);
  }

  /** On a non-empty valid pool with a bounded diagonal the scan finds an
      index. */
  lemma ArgMaxFound(diag: (real, real) -> real, pool: seq<Rect>)
    requires DiagBounded(diag) && ValidPool(pool) && |pool| > 0
    ensures FirstArgMax(Scores(diag, pool)).1 >= 0
  {
    ScoreAboveSentinel(diag, pool[0]);
    FirstArgMaxSpec(Scores(diag, pool));
  }

  // ------------------------------------------------------- final minimum

  /** The objective at the centre of a rectangle in the domain lies in
      [0, 91.25]. */
  lemma CenterValueRange(r: Rect)
    requires Inside(r, Domain) && WellFormed(r)
    ensures 0.0 <= CenterValue(r) <= 91.25
  {
    var u := Mid(r.x1, r.x2) - 1.5;
    var v := Mid(r.y1, r.y2) + 2.0;
    SquareBound(u, 6.5);
    SquareBound(v, 7.0);
  }

  /** For |u| <= c, 0 <= u * u <= c * c. */
  lemma SquareBound(u: real, c: real)
    requires 0.0 <= c && -c <= u <= c
    ensures 0.0 <= u * u <= c * c
  {
    MulNonneg(c - u, c + u);
    assert (c - u) * (c + u) == c * c - u * u;
    if u < 0.0 { MulNonneg(-u, -u); } else { MulNonneg(u, u); }
  }

  lemma MulNonneg(a: real, b: real)
    requires 0.0 <= a && 0.0 <= b
    ensures 0.0 <= a * b
  {
  }

  /** std::min(best, value): `value` when it is smaller, otherwise `best`. */
  function MinReal(best: real, value: real): real
  {
    if value < best then value else best
  }

  /** The running minimum of the objective over the centres, from 1e18. */
  function BestValue(pool: seq<Rect>): (v: real)
    ensures v <= Unbounded
    ensures forall j :: 0 <= j < |pool| ==> v <= CenterValue(pool[j])
    ensures v == Unbounded || exists j :: 0 <= j < |pool| && v == CenterValue(pool[j])
  {
    if |pool| == 0 then Unbounded
    else
      var prev := BestValue(pool[..|pool| - 1]);
      assert forall j :: 0 <= j < |pool| - 1 ==> pool[..|pool| - 1][j] == pool[j];
      MinReal(prev, CenterValue(pool[|pool| - 1]))
  }

  /** On a non-empty valid pool the minimum is attained at some centre and
      lies in [0, 91.25]. */
  lemma BestValueOfValidPool(pool: seq<Rect>)
    requires ValidPool(pool) && |pool| > 0
    ensures exists j :: 0 <= j < |pool| && BestValue(pool) == CenterValue(pool[j])
    ensures 0.0 <= BestValue(pool) <= 91.25
  {
    CenterValueRange(pool[0]);
    var v := BestValue(pool);
    if v != Unbounded {
      var j :| 0 <= j < |pool| && v == CenterValue(pool[j]);
      CenterValueRange(pool[j]);
    }
  }

  /** The final value reads only the shapes. */
  lemma {:induction false} BestValueOfShapes(p: seq<Rect>, q: seq<Rect>)
    requires Shapes(p) == Shapes(q)
    ensures BestValue(p) == BestValue(q)
  {
    if |p| > 0 {
      var n := |p| - 1;
      forall j | 0 <= j < n ensures Shapes(p[..n])[j] == Shapes(q[..n])[j] {
        ShapeAt(p, q, j);
      }
      assert Shapes(p[..n]) == Shapes(q[..n]);
      BestValueOfShapes(p[..n], q[..n]);
      ShapeAt(p, q, n);
    }
  }

  /** `static_cast<int>` of a real: truncation toward zero. */
  function Truncate(x: real): int
  {
    if x >= 0.0 then x.Floor else -((-x).Floor)
  }

  /** Truncation keeps the integer part: it never moves away from zero and
      moves by less than 1. */
  lemma TruncateBounds(x: real)
    ensures 0.0 <= x ==> Truncate(x) as real <= x < Truncate(x) as real + 1.0
    ensures x < 0.0 ==> Truncate(x) as real - 1.0 < x <= Truncate(x) as real
  {
  }

  /** The output of a non-empty valid pool, the truncated minimum, lies in
      [0, 91] and therefore fits in `int`. */
  lemma OutputRange(pool: seq<Rect>)
    requires ValidPool(pool) && |pool| > 0
    ensures 0 <= Truncate(BestValue(pool)) <= 91
  {
    BestValueOfValidPool(pool);
    TruncateBounds(BestValue(pool));
  }
}
