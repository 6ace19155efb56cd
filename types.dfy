/** Basic value types shared by every module: bytes, 16-bit words and the
    Option / Result wrappers that stand for Rust's `Option` and `Result`,
    and the uniqueness of Euclidean division that byte and calendar
    arithmetic rest on. */
module Types {

  /** An unsigned 8-bit value (Rust `u8`). */
  type Byte = x: int | 0 <= x < 0x100

  /** An unsigned 16-bit value (Rust `u16`): a packet word or a holding register. */
  type Word = x: int | 0 <= x < 0x1_0000

  datatype Option<+T> = None | Some(value: T)

  datatype Result<+T, +E> = Ok(value: T) | Err(error: E)

  /** Smallest and largest Rust `i16`. */
  const I16Min: int := -0x8000
  const I16Max: int := 0x7FFF

  /** Smallest and largest Rust `i64`. */
  const I64Min: int := -0x8000_0000_0000_0000
  const I64Max: int := 0x7FFF_FFFF_FFFF_FFFF

  predicate IsI16(x: int) { I16Min <= x <= I16Max }
  predicate IsI64(x: int) { I64Min <= x <= I64Max }

  /** Euclidean division is unique. */
  lemma DivModUnique(x: int, d: int, q: int, r: int)
    requires d > 0 && 0 <= r < d && x == q * d + r
    ensures x / d == q && x % d == r
  {
    var q', r' := x / d, x % d;
    assert (q - q') * d == r' - r;
    MultipleBounds(q - q', d);
  }

  /** A non-zero multiple of `d` is at least `d` away from zero. */
  lemma MultipleBounds(k: int, d: int)
    requires d > 0
    ensures k >= 1 ==> k * d >= d
    ensures k <= -1 ==> k * d <= -d
  {
    if k >= 1 {
      assert k * d == (k - 1) * d + d;
      assert (k - 1) * d >= 0;
    } else if k <= -1 {
      assert k * d == (k + 1) * d - d;
      assert (k + 1) * d <= 0;
    }
  }
}
