/** The sequential vector-minimum task: the smallest element of an `int`
    vector, or INT_MAX for an empty vector. */
module VecMinSeq {
  import opened CInt

  /** The minimum of `s`, starting from INT_MAX; for a non-empty vector this
      is its smallest element. */
  function MinOrMax(s: seq<Int32>): (m: Int32)
    ensures |s| == 0 ==> m == IntMax
    ensures forall i :: 0 <= i < |s| ==> m <= s[i]
    ensures |s| > 0 ==> m in s
  {
    if |s| == 0 then IntMax else Min(MinOrMax(s[..|s| - 1]), s[|s| - 1])
  }

  /** A lower bound of `s` that is INT_MAX for the empty vector and an
      element otherwise is MinOrMax(s): the two properties determine it. */
  lemma MinUnique(s: seq<Int32>, m: Int32)
    requires forall i :: 0 <= i < |s| ==> m <= s[i]
    requires if |s| == 0 then m == IntMax else m in s
    ensures m == MinOrMax(s)
  {
    var k := MinOrMax(s);
    if |s| > 0 {
      var i :| 0 <= i < |s| && s[i] == k;
      var j :| 0 <= j < |s| && s[j] == m;
    }
  }

  /** The minimum of a concatenation is the smaller of the two minima. */
  lemma MinConcat(a: seq<Int32>, b: seq<Int32>)
    ensures MinOrMax(a + b) == Min(MinOrMax(a), MinOrMax(b))
  {
    var m := Min(MinOrMax(a), MinOrMax(b));
    var s := a + b;
    forall i | 0 <= i < |s| ensures m <= s[i] {
      if i < |a| { assert s[i] == a[i]; } else { assert s[i] == b[i - |a|]; }
    }
    if |a| > 0 && m == MinOrMax(a) {
      var i :| 0 <= i < |a| && a[i] == m;
      assert s[i] == m;
    } else if |b| > 0 {
      var i :| 0 <= i < |b| && b[i] == MinOrMax(b);
      assert s[|a| + i] == b[i];
    }
    MinUnique(s, m);
  }

  /** The task object: the input vector and the output value. */
  class Task {
    const input: seq<Int32>
    var output: Int32

    constructor (v: seq<Int32>)
      ensures input == v && output == 0
    {
      input := v;
      output := 0;
    }

    /** Every input is accepted. */
    method Validation() returns (ok: bool)
      ensures ok
    {
      ok := true;
    }

    method PreProcessing() returns (ok: bool)
      modifies this
      ensures ok && output == IntMax
    {
      output := IntMax;
      ok := true;
    }

    /** The linear scan; the input vector is only read. */
    method Run() returns (ok: bool)
      modifies this
      ensures ok && output == MinOrMax(input)
    {
      if |input| == 0 {
        output := IntMax;
        return true;
      }
      var minVal := input[0];
      var i := 1;
      assert input[..1] == [input[0]];
      while i < |input|
        invariant 1 <= i <= |input|
        invariant minVal == MinOrMax(input[..i])
      {
        assert input[..i + 1][..i] == input[..i];
        minVal := Min(input[i], minVal);
        i := i + 1;
      }
      assert input[..i] == input;
      output := minVal;
      ok := true;
    }
  }
}
