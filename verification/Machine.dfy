/** The machine integers the engine computes with, as ranges of `int`: where
    the program wraps, truncates or saturates, the models say so. */
module Machine {

  const TWO_63 := 0x8000_0000_0000_0000
  const TWO_64 := 0x1_0000_0000_0000_0000

  type byte = b: int | 0 <= b < 256
  type u32 = n: int | 0 <= n < 0x1_0000_0000
  type u64 = n: int | 0 <= n < TWO_64
  type i64 = n: int | -TWO_63 <= n < TWO_63

  const I64_MIN: i64 := -TWO_63
  const I64_MAX: i64 := TWO_63 - 1
  const U64_MAX: u64 := TWO_64 - 1

  // Two's complement: the i64 congruent to `n`.
  function Wrap(n: int): i64 {
    (n + TWO_63) % TWO_64 - TWO_63
  }

  // The casts `as i64` and `as u64`.
  function Signed(n: u64): i64 {
    if n < TWO_63 then n else n - TWO_64
  }

  function Unsigned(n: i64): u64 {
    if n >= 0 then n else n + TWO_64
  }

  lemma CastsAreInverse(n: u64)
    ensures Unsigned(Signed(n)) == n
  {
  }

  // `a.wrapping_add(b.wrapping_sub(a)) == b`.
  lemma WrappingDifference(a: i64, b: i64)
    ensures Wrap(a + Wrap(b - a)) == b
  {
  }
}
