/** The block distribution shared by the message-passing tasks: `total` items
    are split over `parts` ranks, every rank gets `total / parts` items and
    the first `total % parts` ranks get one more.  The closed form of a
    rank's first item, `r * base + min(r, rem)`, is the reference definition;
    the loop-accumulated offset and the prefix array of displacements used by
    the tasks are proved equal to it where they are modelled. */
module BlockPartition {
  import CInt

  /** Number of items owned by rank `r`. */
  function Count(total: nat, parts: nat, r: nat): nat
    requires parts >= 1
  {
    total / parts + (if r < total % parts then 1 else 0)
  }

  /** Index of the first item owned by rank `r` (closed form). */
  function Start(total: nat, parts: nat, r: nat): nat
    requires parts >= 1
  {
    r * (total / parts) + CInt.Min(r, total % parts)
  }

  /** The offset as the sum of the counts of all lower ranks. */
  function PrefixSum(total: nat, parts: nat, r: nat): nat
    requires parts >= 1
  {
    if r == 0 then 0 else PrefixSum(total, parts, r - 1) + Count(total, parts, r - 1)
  }

  /** The slice of rank `r` ends where the slice of rank `r + 1` begins. */
  lemma StartStep(total: nat, parts: nat, r: nat)
    requires parts >= 1
    ensures Start(total, parts, r) + Count(total, parts, r) == Start(total, parts, r + 1)
  {
    assert (r + 1) * (total / parts) == r * (total / parts) + total / parts;
  }

  /** The closed form and the running sum of counts agree for every rank. */
  lemma {:induction false} StartIsPrefixSum(total: nat, parts: nat, r: nat)
    requires parts >= 1
    ensures Start(total, parts, r) == PrefixSum(total, parts, r)
  {
    if r > 0 {
      StartIsPrefixSum(total, parts, r - 1);
      StartStep(total, parts, r - 1);
    }
  }

  /** The first slice starts at 0 and the last one ends at `total`, so the
      counts of all ranks add up to `total`. */
  lemma Bounds(total: nat, parts: nat)
    requires parts >= 1
    ensures Start(total, parts, 0) == 0
    ensures Start(total, parts, parts) == total
    ensures PrefixSum(total, parts, parts) == total
  {
    StartIsPrefixSum(total, parts, parts);
  }

  /** Any two counts differ by at most one. */
  lemma Balanced(total: nat, parts: nat, r: nat, s: nat)
    requires parts >= 1
    ensures Count(total, parts, r) <= Count(total, parts, s) + 1
    ensures Count(total, parts, r) >= total / parts
  {
  }

  /** Slices of lower ranks lie entirely before slices of higher ranks. */
  lemma {:induction false} Ordered(total: nat, parts: nat, r: nat, s: nat)
    requires parts >= 1 && r < s
    ensures Start(total, parts, r) + Count(total, parts, r) <= Start(total, parts, s)
    decreases s - r
  {
    StartStep(total, parts, r);
    if r + 1 < s {
      Ordered(total, parts, r + 1, s);
    }
  }

  /** True when item `i` lies in the slice of rank `r`. */
  predicate Owns(total: nat, parts: nat, r: nat, i: nat)
    requires parts >= 1
  {
    r < parts && Start(total, parts, r) <= i < Start(total, parts, r) + Count(total, parts, r)
  }

  /** Searches the ranks from `r` upwards for the one whose slice holds `i`. */
  function OwnerFrom(total: nat, parts: nat, i: nat, r: nat): (o: nat)
    requires parts >= 1 && r < parts
    requires Start(total, parts, r) <= i < total
    ensures r <= o && Owns(total, parts, o, i)
    decreases parts - r
  {
    StartStep(total, parts, r);
    if i < Start(total, parts, r + 1) then r
    else if r + 1 < parts then OwnerFrom(total, parts, i, r + 1)
    else
      Bounds(total, parts);
      assert false; r
  }

  /** Every item in [0, total) is owned by exactly one rank: the slices are
      exhaustive and do not overlap. */
  lemma ExactlyOneOwner(total: nat, parts: nat, i: nat)
    requires parts >= 1 && i < total
    ensures exists r :: Owns(total, parts, r, i)
    ensures forall r, s :: Owns(total, parts, r, i) && Owns(total, parts, s, i) ==> r == s
  {
    Bounds(total, parts);
    var o := OwnerFrom(total, parts, i, 0);
    forall r, s | Owns(total, parts, r, i) && Owns(total, parts, s, i)
      ensures r == s
    {
      if r < s { Ordered(total, parts, r, s); }
      if s < r { Ordered(total, parts, s, r); }
    }
  }

  /** Every slice lies inside [0, total). */
  lemma SliceInside(total: nat, parts: nat, r: nat)
    requires parts >= 1 && r < parts
    ensures Start(total, parts, r) + Count(total, parts, r) <= total
  {
    Bounds(total, parts);
    StartStep(total, parts, r);
    if r + 1 < parts { Ordered(total, parts, r + 1, parts); }
  }

  /** Every slice lies inside [0, total), with its start written as the
      running sum of counts. */
  lemma PrefixSliceInside(total: nat, parts: nat, r: nat)
    requires parts >= 1 && r < parts
    ensures PrefixSum(total, parts, r) + Count(total, parts, r) <= total
  {
    StartIsPrefixSum(total, parts, r);
    SliceInside(total, parts, r);
  }

  /** The counts of all ranks add up to `total`. */
  lemma PrefixTotal(total: nat, parts: nat)
    requires parts >= 1
    ensures PrefixSum(total, parts, parts) == total
  {
    Bounds(total, parts);
  }

  /** The cut points of all ranks: rank r's block is [c[r], c[r + 1]). */
  function Cuts(total: nat, parts: nat): (c: seq<nat>)
    requires parts >= 1
    ensures |c| == parts + 1
  {
    seq(parts + 1, i requires 0 <= i <= parts => PrefixSum(total, parts, i))
  }

  /** The cut points start at 0 and end at `total`. */
  lemma CutsEnds(total: nat, parts: nat)
    requires parts >= 1
    ensures Cuts(total, parts)[0] == 0 && Cuts(total, parts)[parts] == total
  {
    PrefixTotal(total, parts);
  }

  /** The block between the cut points r and r + 1 has rank r's count and
      lies inside [0, total). */
  lemma CutAt(total: nat, parts: nat, r: nat)
    requires parts >= 1 && r < parts
    ensures Cuts(total, parts)[r] == PrefixSum(total, parts, r)
    ensures Cuts(total, parts)[r + 1] == PrefixSum(total, parts, r) + Count(total, parts, r) <= total
  {
    assert Cuts(total, parts)[r + 1] == PrefixSum(total, parts, r + 1);
    PrefixSliceInside(total, parts, r);
  }

  /** A prefix cut at `hi` is the prefix cut at `lo` followed by the block
      [lo, hi): the shape in which the ranks' blocks add up. */
  lemma PrefixSplit<T>(s: seq<T>, lo: nat, hi: nat)
    requires lo <= hi <= |s|
    ensures s[..hi] == s[..lo] + s[lo..hi]
  {
  }

  /** A slice [lo, hi) is the slice [lo, mid) followed by [mid, hi). */
  lemma SliceSplit<T>(s: seq<T>, lo: nat, mid: nat, hi: nat)
    requires lo <= mid <= hi <= |s|
    ensures s[lo..hi] == s[lo..mid] + s[mid..hi]
  {
  }

  /** A non-empty prefix is the shorter prefix followed by its last
      element. */
  lemma PrefixLast<T>(s: seq<T>, r: nat)
    requires 1 <= r <= |s|
    ensures s[..r] == s[..r - 1] + [s[r - 1]]
  {
  }

  /** The sum of a sequence of counts. */
  function Sum(s: seq<int>): int
  {
    if |s| == 0 then 0 else Sum(s[..|s| - 1]) + s[|s| - 1]
  }

  lemma {:induction false} SumConcat(a: seq<int>, b: seq<int>)
    ensures Sum(a + b) == Sum(a) + Sum(b)
    decreases |b|
  {
    if |b| > 0 {
      assert (a + b)[..|a + b| - 1] == a + b[..|b| - 1];
      SumConcat(a, b[..|b| - 1]);
    } else {
      assert a + b == a;
    }
  }
}
