/** The 32-bit `int` of the tasks and the narrowing of an unsigned 64-bit
    count to it. */
module CInt {

  const IntMax: int := 0x7fff_ffff
  const IntMin: int := -0x8000_0000

  /** A value of C++ `int`. */
  type Int32 = x: int | IntMin <= x <= IntMax

  /** `std::min` on integers. */
  function Min(a: int, b: int): int { if a <= b then a else b }

  /** `static_cast<int>` of a `uint64_t`: the low 32 bits read as a two's
      complement number. */
  function FromUnsigned(x: nat): (r: Int32)
    ensures x <= IntMax ==> r == x
    ensures (r - x) % 0x1_0000_0000 == 0
  {
    var low := x % 0x1_0000_0000;
    if low <= IntMax then low else low - 0x1_0000_0000
  }
}
