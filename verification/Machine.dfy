/** The fixed-width and truncating arithmetic the server's C++ code relies on. */
module Machine {

  const TWO_32 := 0x1_0000_0000
  const SIZE_MAX := 0xFFFF_FFFF_FFFF_FFFF

  /** Narrowing to a 32-bit two's-complement `int`. */
  function Int32(x: int): int {
    var m := x % TWO_32;
    if m < 0x8000_0000 then m else m - TWO_32
  }

  /** Conversion to the unsigned 64-bit `size_t`. */
  function SizeT(x: int): nat { x % (SIZE_MAX + 1) }

  /** Passing through `size_t` on the way to `int` changes nothing. */
  lemma NarrowTwice(x: int)
    ensures Int32(SizeT(x)) == Int32(x)
  {
    var q := x / (SIZE_MAX + 1);
    assert x == q * TWO_32 * TWO_32 + SizeT(x);
    assert x % TWO_32 == (SizeT(x) + (q * TWO_32) * TWO_32) % TWO_32 == SizeT(x) % TWO_32;
  }

  /** Integer division that rounds toward zero, as `std::chrono::duration_cast` does. */
  function TruncDiv(a: int, b: int): int
    requires b > 0
  {
    if a >= 0 then a / b else -((-a) / b)
  }
}
