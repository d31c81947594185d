/** Bit arithmetic on non-negative integers and the edge count of the
    n-dimensional hypercube, as the hypercube task computes it: vertex `v`
    contributes one edge for every bit `b < n` with `v < v xor 2^b`. */
module HypercubeBits {

  /** 2 to the power `k` (the value of `1ULL << k`). */
  function Pow2(k: nat): (p: nat)
    ensures p >= 1
  {
    if k == 0 then 1 else 2 * Pow2(k - 1)
  }

  /** Bit `b` of `v` is set. */
  predicate Bit(v: nat, b: nat)
  {
    if b == 0 then v % 2 == 1 else Bit(v / 2, b - 1)
  }

  /** Bitwise exclusive or (operator `^`). */
  function Xor(a: nat, b: nat): nat
    decreases a + b
  {
    if a == 0 then b
    else if b == 0 then a
    else 2 * Xor(a / 2, b / 2) + (if a % 2 == b % 2 then 0 else 1)
  }

  /** Bitwise and (operator `&`). */
  function And(a: nat, b: nat): nat
  {
    if a == 0 || b == 0 then 0
    else 2 * And(a / 2, b / 2) + (if a % 2 == 1 && b % 2 == 1 then 1 else 0)
  }

  /** Floor of the base-2 logarithm; 0 for 0 and 1. */
  function Log2(v: nat): nat
  {
    if v <= 1 then 0 else 1 + Log2(v / 2)
  }

  /** The power-of-two test `value > 0 && (value & (value - 1)) == 0`. */
  predicate IsPowerOfTwo(value: int)
  {
    value > 0 && And(value, value - 1) == 0
  }

  // ---------------------------------------------------------------- bits

  lemma {:induction false} NoBitOfZero(b: nat)
    ensures !Bit(0, b)
  {
    if b > 0 { NoBitOfZero(b - 1); }
  }

  /** A value below 2^n has no bit at position n. */
  lemma {:induction false} NoBitAtTop(u: nat, n: nat)
    requires u < Pow2(n)
    ensures !Bit(u, n)
  {
    if n > 0 { NoBitAtTop(u / 2, n - 1); }
  }

  /** Adding 2^k leaves the bits below k unchanged. */
  lemma {:induction false} AddHighKeepsLowBits(v: nat, k: nat, j: nat)
    requires j < k
    ensures Bit(v + Pow2(k), j) == Bit(v, j)
  {
    assert Pow2(k) == 2 * Pow2(k - 1);
    if j > 0 {
      assert (v + Pow2(k)) / 2 == v / 2 + Pow2(k - 1);
      AddHighKeepsLowBits(v / 2, k - 1, j - 1);
    }
  }

  /** For u < 2^n, bit n of 2^n + u is set. */
  lemma {:induction false} TopBitOfUpperHalf(u: nat, n: nat)
    requires u < Pow2(n)
    ensures Bit(Pow2(n) + u, n)
  {
    if n > 0 {
      assert (Pow2(n) + u) / 2 == Pow2(n - 1) + u / 2;
      TopBitOfUpperHalf(u / 2, n - 1);
    }
  }

  /** Xor with 2^b clears bit b when it is set and sets it when it is clear. */
  lemma {:induction false} XorPow2(v: nat, b: nat)
    ensures Xor(v, Pow2(b)) == if Bit(v, b) then v - Pow2(b) else v + Pow2(b)
    ensures Bit(v, b) ==> v >= Pow2(b)
  {
    if b == 0 {
    } else if v == 0 {
      NoBitOfZero(b);
    } else {
      XorPow2(v / 2, b - 1);
      assert Pow2(b) / 2 == Pow2(b - 1) && Pow2(b) % 2 == 0;
    }
  }

  /** Flipping bit b of v flips nothing but bit b. */
  lemma {:induction false} FlipBit(v: nat, b: nat)
    ensures !Bit(v, b) ==> Bit(v + Pow2(b), b)
    ensures Bit(v, b) && v >= Pow2(b) ==> !Bit(v - Pow2(b), b)
  {
    if b > 0 {
      FlipBit(v / 2, b - 1);
      assert (v + Pow2(b)) / 2 == v / 2 + Pow2(b - 1);
      if v >= Pow2(b) {
        assert (v - Pow2(b)) / 2 == v / 2 - Pow2(b - 1);
      }
    }
  }

  // ------------------------------------------------------- power of two

  lemma {:induction false} AndSelf(w: nat)
    ensures And(w, w) == w
  {
    if w > 0 { AndSelf(w / 2); }
  }

  lemma {:induction false} Log2OfPow2(k: nat)
    ensures Log2(Pow2(k)) == k
  {
    if k > 0 {
      Log2OfPow2(k - 1);
      assert Pow2(k) / 2 == Pow2(k - 1);
    }
  }

  /** For positive v, `v & (v - 1)` is zero exactly when v is 2^Log2(v). */
  lemma {:induction false} AndPredecessor(v: nat)
    requires v >= 1
    ensures And(v, v - 1) == 0 <==> v == Pow2(Log2(v))
  {
    if v >= 2 {
      var w := v / 2;
      if v % 2 == 0 {
        AndPredecessor(w);
        assert (v - 1) / 2 == w - 1 && (v - 1) % 2 == 1;
        assert And(v, v - 1) == 2 * And(w, w - 1);
      } else {
        AndSelf(w);
        assert And(v, v - 1) == 2 * w;
        assert Pow2(Log2(v)) == 2 * Pow2(Log2(w));
      }
    }
  }

  /** The power-of-two test holds exactly for the powers of two. */
  lemma PowerOfTwoTest(value: int)
    ensures IsPowerOfTwo(value) <==> value > 0 && exists k :: value == Pow2(k)
    ensures IsPowerOfTwo(value) ==> value == Pow2(Log2(value))
  {
    if value > 0 {
      AndPredecessor(value);
      if exists k :: value == Pow2(k) {
        var k :| value == Pow2(k);
        Log2OfPow2(k);
      }
    }
  }

  // ------------------------------------------------------- edge counting

  /** 1 when vertex v is the smaller endpoint of its edge along bit b. */
  function Contribution(v: nat, b: nat): nat
  {
    if v < Xor(v, Pow2(b)) then 1 else 0
  }

  /** Edges counted from vertex v by the inner loop over bits 0 .. n-1. */
  function VertexEdges(v: nat, n: nat): nat
  {
    if n == 0 then 0 else VertexEdges(v, n - 1) + Contribution(v, n - 1)
  }

  /** Number of bits below n that are clear in v. */
  function ClearBits(v: nat, n: nat): nat
  {
    if n == 0 then 0 else ClearBits(v, n - 1) + (if Bit(v, n - 1) then 0 else 1)
  }

  /** Edges counted by the vertex loop over [s, e). */
  function RangeEdges(s: nat, e: nat, n: nat): nat
    decreases e
  {
    if e <= s then 0 else RangeEdges(s, e - 1, n) + VertexEdges(e - 1, n)
  }

  /** The number of edges of the n-dimensional hypercube, n * 2^(n-1). */
  function EdgeFormula(n: nat): nat
  {
    if n == 0 then 0 else n * Pow2(n - 1)
  }

  /** Vertex v is the smaller endpoint along bit b exactly when bit b of v
      is clear. */
  lemma ContributionIsClearBit(v: nat, b: nat)
    ensures Contribution(v, b) == if Bit(v, b) then 0 else 1
  {
    XorPow2(v, b);
  }

  /** Vertex v contributes one edge for each clear bit below n. */
  lemma {:induction false} VertexEdgesAreClearBits(v: nat, n: nat)
    ensures VertexEdges(v, n) == ClearBits(v, n)
  {
    if n > 0 {
      VertexEdgesAreClearBits(v, n - 1);
      ContributionIsClearBit(v, n - 1);
    }
  }

  /** Each edge {u, u xor 2^b} is counted from exactly one of its endpoints. */
  lemma CountedOnce(u: nat, b: nat)
    ensures Xor(Xor(u, Pow2(b)), Pow2(b)) == u
    ensures Contribution(u, b) + Contribution(Xor(u, Pow2(b)), b) == 1
  {
    XorPow2(u, b);
    FlipBit(u, b);
    var w := Xor(u, Pow2(b));
    XorPow2(w, b);
  }

  /** Counting over [a, b) and then [b, c) counts [a, c). */
  lemma {:induction false} RangeAdditive(a: nat, b: nat, c: nat, n: nat)
    requires a <= b <= c
    ensures RangeEdges(a, b, n) + RangeEdges(b, c, n) == RangeEdges(a, c, n)
    decreases c
  {
    if b < c {
      RangeAdditive(a, b, c - 1, n);
    }
  }

  /** Below 2^n, bit n is clear, so every vertex gains one edge. */
  lemma {:induction false} LowerHalf(m: nat, n: nat)
    requires m <= Pow2(n)
    ensures RangeEdges(0, m, n + 1) == RangeEdges(0, m, n) + m
  {
    if m > 0 {
      LowerHalf(m - 1, n);
      NoBitAtTop(m - 1, n);
      ContributionIsClearBit(m - 1, n);
    }
  }

  /** A vertex 2^n + u of the upper half counts, below bit n, what u counts. */
  lemma {:induction false} ShiftedVertex(u: nat, n: nat, k: nat)
    requires u < Pow2(n) && k <= n
    ensures VertexEdges(Pow2(n) + u, k) == VertexEdges(u, k)
  {
    if k > 0 {
      ShiftedVertex(u, n, k - 1);
      ContributionIsClearBit(u, k - 1);
      ContributionIsClearBit(Pow2(n) + u, k - 1);
      AddHighKeepsLowBits(u, n, k - 1);
    }
  }

  /** The upper half [2^n, 2^n + m) counts, in dimension n + 1, what [0, m)
      counts in dimension n. */
  lemma {:induction false} UpperHalf(m: nat, n: nat)
    requires m <= Pow2(n)
    ensures RangeEdges(Pow2(n), Pow2(n) + m, n + 1) == RangeEdges(0, m, n)
  {
    if m > 0 {
      UpperHalf(m - 1, n);
      TopBitOfUpperHalf(m - 1, n);
      ContributionIsClearBit(Pow2(n) + (m - 1), n);
      ShiftedVertex(m - 1, n, n);
    }
  }

  /** Counting over all 2^n vertices gives n * 2^(n-1) edges. */
  lemma {:induction false} HypercubeEdges(n: nat)
    ensures RangeEdges(0, Pow2(n), n) == EdgeFormula(n)
  {
    if n > 0 {
      var k := n - 1;
      HypercubeEdges(k);
      RangeAdditive(0, Pow2(k), Pow2(n), n);
      LowerHalf(Pow2(k), k);
      UpperHalf(Pow2(k), k);
      assert RangeEdges(0, Pow2(n), n) == 2 * EdgeFormula(k) + Pow2(k);
      FormulaStep(k);
    }
  }

  lemma FormulaStep(k: nat)
    ensures EdgeFormula(k + 1) == 2 * EdgeFormula(k) + Pow2(k)
  {
    if k > 0 {
      var p := Pow2(k - 1);
      assert Pow2(k) == 2 * p;
      calc {
        2 * EdgeFormula(k) + Pow2(k);
        2 * (k * p) + 2 * p;
        { assert 2 * (k * p) + 2 * p == (k + 1) * (2 * p); }
        (k + 1) * Pow2(k);
      }
    }
  }

  // ------------------------------------------------------ tree reduction

  /** A rank is still in the reduction loop at round k when none of its bits
      below k is set (see ActiveMeansLowBitsClear). */
  predicate Active(r: nat, k: nat)
  {
    k == 0 || (r % 2 == 0 && Active(r / 2, k - 1))
  }

  /** Active(r, k) says exactly that bits 0 .. k-1 of r are clear. */
  lemma ActiveMeansLowBitsClear(r: nat, k: nat)
    ensures Active(r, k) ==> forall j :: 0 <= j < k ==> !Bit(r, j)
    ensures (forall j :: 0 <= j < k ==> !Bit(r, j)) ==> Active(r, k)
  {
    if Active(r, k) {
      LowBitsOfActive(r, k);
    }
    if forall j :: 0 <= j < k ==> !Bit(r, j) {
      ActiveOfLowBits(r, k);
    }
  }

  lemma {:induction false} LowBitsOfActive(r: nat, k: nat)
    requires Active(r, k)
    ensures forall j :: 0 <= j < k ==> !Bit(r, j)
  {
    if k > 0 {
      LowBitsOfActive(r / 2, k - 1);
      forall j | 0 <= j < k ensures !Bit(r, j) {
        if j > 0 { assert !Bit(r / 2, j - 1); }
      }
    }
  }

  lemma {:induction false} ActiveOfLowBits(r: nat, k: nat)
    requires forall j :: 0 <= j < k ==> !Bit(r, j)
    ensures Active(r, k)
  {
    if k > 0 {
      assert !Bit(r, 0);
      forall j | 0 <= j < k - 1 ensures !Bit(r / 2, j) {
        assert !Bit(r, j + 1);
      }
      ActiveOfLowBits(r / 2, k - 1);
    }
  }

  /** A rank stays in the loop past round k exactly when bit k is clear. */
  lemma {:induction false} ActiveNext(r: nat, k: nat)
    ensures Active(r, k + 1) <==> Active(r, k) && !Bit(r, k)
  {
    if k > 0 { ActiveNext(r / 2, k - 1); }
  }

  /** Rank 0 stays in the loop for every round. */
  lemma {:induction false} ActiveZero(k: nat)
    ensures Active(0, k)
  {
    if k > 0 { ActiveZero(k - 1); }
  }

  /** The partner r + 2^k of a rank active at round k is active at round k. */
  lemma {:induction false} PartnerActive(r: nat, k: nat)
    requires Active(r, k)
    ensures Active(r + Pow2(k), k)
  {
    if k > 0 {
      assert (r + Pow2(k)) / 2 == r / 2 + Pow2(k - 1);
      PartnerActive(r / 2, k - 1);
    }
  }

  /** Position of the lowest set bit of a positive rank. */
  function LowestSetBit(r: nat): nat
    requires r > 0
  {
    if r % 2 == 1 then 0 else 1 + LowestSetBit(r / 2)
  }

  /** A rank with bit k set that is still active at round k has its lowest
      set bit at k: it sends exactly at that round. */
  lemma {:induction false} SendRound(r: nat, k: nat)
    requires Active(r, k) && Bit(r, k)
    ensures r > 0 && LowestSetBit(r) == k
  {
    if r == 0 { NoBitOfZero(k); }
    if k > 0 {
      SendRound(r / 2, k - 1);
    }
  }

  /** Every positive rank below 2^d has a set bit below d, the lowest of
      which is LowestSetBit(r). */
  lemma {:induction false} LowestSetBitBelow(r: nat, d: nat)
    requires 0 < r < Pow2(d)
    ensures LowestSetBit(r) < d && Bit(r, LowestSetBit(r)) && Active(r, LowestSetBit(r))
  {
    if r % 2 == 0 {
      LowestSetBitBelow(r / 2, d - 1);
    }
  }

  /** A rank active at round m lies m-aligned, so its block of 2^m ranks
      fits below 2^d. */
  lemma {:induction false} AlignedBlockFits(r: nat, m: nat, d: nat)
    requires Active(r, m) && r < Pow2(d) && m <= d
    ensures r + Pow2(m) <= Pow2(d)
  {
    if m > 0 {
      AlignedBlockFits(r / 2, m - 1, d - 1);
    }
  }

  /** At round k an active rank r with bit k clear has its partner
      r xor 2^k == r + 2^k above it, and the two blocks of 2^k ranks fit
      below 2^d. */
  lemma PartnerAbove(r: nat, k: nat, d: nat)
    requires r < Pow2(d) && k < d && Active(r, k) && !Bit(r, k)
    ensures Xor(r, Pow2(k)) == r + Pow2(k) && r + Pow2(k + 1) <= Pow2(d)
  {
    XorPow2(r, k);
    ActiveNext(r, k);
    AlignedBlockFits(r, k + 1, d);
  }
}
