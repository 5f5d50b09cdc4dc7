/** Machine words: the 64-bit slot, and the casts between integer widths. */
module Words {
  const TWO_TO_64: int := 0x1_0000_0000_0000_0000
  const TWO_TO_128: int := 0x1_0000_0000_0000_0000_0000_0000_0000_0000

  /** A word whose every arithmetic operation is checked not to overflow. */
  newtype u64 = x: int | 0 <= x < 0x1_0000_0000_0000_0000

  /** A word as the number it holds. */
  type Word = x: int | 0 <= x < 0x1_0000_0000_0000_0000

  /** A cast to the unsigned type of `modulus` values keeps the low bits. */
  function Unsigned(n: int, modulus: int): (r: int)
    requires modulus > 0
    ensures 0 <= r < modulus
  {
    n % modulus
  }

  /** A cast to the two's-complement type of `modulus` values keeps the low bits and reads the top one as the sign. */
  function Signed(n: int, modulus: int): int
    requires modulus > 0
  {
    var low := n % modulus;
    if low < modulus / 2 then low else low - modulus
  }

  /** Signed and unsigned readings of the same bits determine each other. */
  lemma CastsInvert(n: int, modulus: int)
    requires modulus > 0 && modulus % 2 == 0
    ensures 0 <= n < modulus ==> Unsigned(Signed(n, modulus), modulus) == n
    ensures -(modulus / 2) <= n < modulus / 2 ==> Signed(Unsigned(n, modulus), modulus) == n
    ensures -(modulus / 2) <= Signed(n, modulus) < modulus / 2
  {
    var half := modulus / 2;
    assert modulus == 2 * half;
    SignedParts(n, modulus, half);
    if 0 <= n < modulus {
      Remainder(n, modulus, 0, n);
      Remainder(n - modulus, modulus, -1, n);
    } else if -half <= n < 0 {
      Remainder(n, modulus, -1, n + modulus);
      SignedParts(n + modulus, modulus, half);
      Remainder(n + modulus, modulus, 0, n + modulus);
    }
    hide Signed;
  }

  /** What a signed cast gives, by the bits it keeps. */
  lemma SignedParts(n: int, modulus: int, half: int)
    requires half > 0 && modulus == 2 * half
    ensures Signed(n, modulus) == (if n % modulus < half then n % modulus else n % modulus - modulus)
    ensures -half <= Signed(n, modulus) < half
  {
  }

  lemma Remainder(n: int, modulus: int, quotient: int, rest: int)
    requires modulus > 0 && n == modulus * quotient + rest && 0 <= rest < modulus
    ensures n % modulus == rest && n / modulus == quotient
  {
    var actual := n / modulus;
    assert n == modulus * actual + n % modulus;
    if actual < quotient {
      Scaled(modulus, actual, quotient - 1);
    } else if quotient < actual {
      Scaled(modulus, quotient + 1, actual);
    }
  }

  lemma Scaled(factor: int, a: int, b: int)
    requires factor > 0 && a <= b
    ensures factor * a <= factor * b
  {
  }
}
