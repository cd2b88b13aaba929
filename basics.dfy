/**
 * Shared vocabulary of the model: optional values, bytes, the unsigned
 * integer widths the C code uses, and `size_t` subtraction with its
 * wrap-around written out.
 */
module Basics {

  datatype Option<T> = None | Some(value: T)

  /** An `uint8_t`. */
  type Byte = x: int | 0 <= x < 0x100

  /** An `uint32_t`. */
  type Uint32 = x: int | 0 <= x < 0x1_0000_0000

  /** 2^64: one more than the largest `size_t`. */
  const SizeModulus: int := 0x1_0000_0000_0000_0000

  /** A `size_t` value. */
  type SizeT = x: int | 0 <= x < SizeModulus

  /** `a - b` on `size_t`: wraps to a huge value when `b > a`. */
  function USub(a: SizeT, b: SizeT): (r: SizeT)
    ensures b <= a ==> r == a - b
    ensures a < b ==> r == SizeModulus - (b - a) && r > a
  {
    if b <= a then a - b else SizeModulus - (b - a)
  }

  /** An integer taken modulo 2^64, as an expression of `size_t` type computes it. */
  function Wrap(x: int): (r: SizeT)
    ensures 0 <= x < SizeModulus ==> r == x
    ensures -SizeModulus <= x < 0 ==> r == x + SizeModulus
  {
    x % SizeModulus
  }

  function Min(a: int, b: int): (r: int)
    ensures r <= a && r <= b && (r == a || r == b)
  {
    if a <= b then a else b
  }

  /** `n` copies of `x`. */
  function Repeat<T>(x: T, n: nat): (r: seq<T>)
    ensures |r| == n
    ensures forall i :: 0 <= i < n ==> r[i] == x
  {
    seq(n, _ => x)
  }
}
