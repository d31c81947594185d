/** The sequential hypercube task: count the edges of the n-dimensional
    hypercube by visiting every vertex and every bit. */
module HypercubeSeq {
  import opened CInt
  import opened HypercubeBits

  class Task {
    const input: int
    var output: Int32

    constructor (n: int)
      ensures input == n && output == 0
    {
      input := n;
      output := 0;
    }

    /** Only a positive dimension is accepted. */
    method Validation() returns (ok: bool)
      ensures ok <==> input > 0
    {
      ok := input > 0;
    }

    method PreProcessing() returns (ok: bool)
      modifies this
      ensures ok && output == 0
    {
      output := 0;
      ok := true;
    }

    /** The nested vertex/bit loop; the 64-bit count is narrowed to `int`.
        The shift `1 << dimension` needs a dimension below 64. */
    method Run() returns (ok: bool)
      requires 0 <= input < 64
      modifies this
      ensures ok && output == FromUnsigned(EdgeFormula(input))
      ensures input >= 1 && EdgeFormula(input) <= IntMax ==> output == input * Pow2(input - 1)
    {
      var dimension: nat := input;
      var vertices := Pow2(dimension);
      var totalEdges: nat := 0;
      var vertex := 0;
      while vertex < vertices
        invariant 0 <= vertex <= vertices
        invariant totalEdges == RangeEdges(0, vertex, dimension)
      {
        var bit := 0;
        while bit < dimension
          invariant 0 <= bit <= dimension
          invariant totalEdges == RangeEdges(0, vertex, dimension) + VertexEdges(vertex, bit)
        {
          var neighbor := Xor(vertex, Pow2(bit));
          if vertex < neighbor {
            totalEdges := totalEdges + 1;
          }
          bit := bit + 1;
        }
        vertex := vertex + 1;
      }
      HypercubeEdges(dimension);
      output := FromUnsigned(totalEdges);
      ok := true;
    }
  }
}
