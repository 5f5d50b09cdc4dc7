/** The lossless order of the numeric port types, against the sets of numbers they hold. */
module NumericDomains {
  import opened PortTypes
  import opened Wrappers

  datatype NumericDomain =
    | Unsigned(bits: nat)
    | Signed(bits: nat)
    | Float(mantissa: nat, exponent: nat)

  /** The decision the type system makes, by counting bits. */
  predicate FitsIn(a: NumericDomain, b: NumericDomain)
    requires a.Signed? ==> a.bits >= 1
  {
    match (a, b)
    case (Unsigned(m), Unsigned(n)) => m <= n
    case (Unsigned(m), Signed(n)) => m < n
    case (Signed(m), Signed(n)) => m <= n
    case (Signed(_), Unsigned(_)) => false
    case (Unsigned(n), Float(mantissa, _)) => n <= mantissa
    case (Signed(n), Float(mantissa, _)) => n - 1 <= mantissa
    case (Float(_, _), Unsigned(_)) => false
    case (Float(_, _), Signed(_)) => false
    case (Float(m1, e1), Float(m2, e2)) => m1 <= m2 && e1 <= e2
  }

  function DomainOf(t: PortType): Option<NumericDomain> {
    match t
    case Bool => Some(Unsigned(1))
    case U8 => Some(Unsigned(8))
    case U16 => Some(Unsigned(16))
    case U32 => Some(Unsigned(32))
    case U64 => Some(Unsigned(64))
    case U128 => Some(Unsigned(128))
    case I8 => Some(Signed(8))
    case I16 => Some(Signed(16))
    case I32 => Some(Signed(32))
    case I64 => Some(Signed(64))
    case I128 => Some(Signed(128))
    case F16 => Some(Float(11, 5))
    case F32 => Some(Float(24, 8))
    case F64 => Some(Float(53, 11))
    case _ => None
  }

  // ----- The numbers a domain holds -----

  function Pow2(n: nat): int {
    if n == 0 then 1 else 2 * Pow2(n - 1)
  }

  /** Two to the power `q`, for exponents of either sign. */
  function Scale(q: int): real {
    PowersArePositive(if q >= 0 then q else -q);
    if q >= 0 then Pow2(q) as real else 1.0 / Pow2(-q) as real
  }

  /** `k` units of `2^q`. */
  function Units(k: int, q: int): real {
    k as real * Scale(q)
  }

  /** The greatest exponent of a binary format with `exponent` exponent bits. */
  function MaxExponent(exponent: nat): int
    requires exponent >= 1
  {
    Pow2(exponent - 1) - 1
  }

  /** The exponents of the last significand bit, from the subnormal numbers up. */
  function LeastQuantum(mantissa: nat, exponent: nat): int
    requires exponent >= 1
  {
    2 - MaxExponent(exponent) - mantissa
  }

  function GreatestQuantum(mantissa: nat, exponent: nat): int
    requires exponent >= 1
  {
    MaxExponent(exponent) - mantissa + 1
  }

  /** `x` is `k` units of `2^q`, within the format's significand and exponent range (section 3.3 of IEEE 754-2019). */
  ghost predicate FloatParts(mantissa: nat, exponent: nat, x: real, k: int, q: int)
    requires exponent >= 1
  {
    && -Pow2(mantissa) < k < Pow2(mantissa)
    && LeastQuantum(mantissa, exponent) <= q <= GreatestQuantum(mantissa, exponent)
    && x == Units(k, q)
  }

  ghost predicate Holds(domain: NumericDomain, x: real)
    requires WellFormed(domain)
  {
    match domain
    case Unsigned(bits) => x == x.Floor as real && 0 <= x.Floor < Pow2(bits)
    case Signed(bits) => x == x.Floor as real && -Pow2(bits - 1) <= x.Floor < Pow2(bits - 1)
    case Float(mantissa, exponent) => exists k: int, q: int :: FloatParts(mantissa, exponent, x, k, q)
  }

  /** Integers of at least one bit, and floats whose exponent range spans their significand. */
  predicate WellFormed(domain: NumericDomain) {
    match domain
    case Unsigned(bits) => bits >= 1
    case Signed(bits) => bits >= 1
    case Float(mantissa, exponent) => mantissa >= 1 && exponent >= 3 && MaxExponent(exponent) >= mantissa
  }

  ghost predicate Includes(big: NumericDomain, small: NumericDomain)
    requires WellFormed(big) && WellFormed(small)
  {
    forall x :: Holds(small, x) ==> Holds(big, x)
  }

  // ----- Powers -----

  lemma {:induction false} PowersArePositive(n: nat)
    ensures Pow2(n) >= 1
  {
    if n > 0 {
      PowersArePositive(n - 1);
    }
  }

  lemma {:induction false} PowersGrow(m: nat, n: nat)
    requires m < n
    ensures 2 * Pow2(m) <= Pow2(n) && Pow2(m) < Pow2(n)
  {
    PowersArePositive(m);
    if m < n - 1 {
      PowersGrow(m, n - 1);
    }
  }

  lemma PowersAreOrdered(m: nat, n: nat)
    requires m <= n
    ensures Pow2(m) <= Pow2(n)
  {
    if m < n {
      PowersGrow(m, n);
    }
  }

  lemma {:induction false} PowersMultiply(m: nat, n: nat)
    ensures Pow2(m + n) == Pow2(m) * Pow2(n)
  {
    if n > 0 {
      PowersMultiply(m, n - 1);
      assert Pow2(m) * (2 * Pow2(n - 1)) == 2 * (Pow2(m) * Pow2(n - 1));
    }
  }

  lemma ScaleDoubles(q: int)
    ensures Scale(q + 1) == 2.0 * Scale(q)
  {
    if q < 0 {
      PowersArePositive(-q);
      PowersArePositive(-q - 1);
      assert Pow2(-q) == 2 * Pow2(-q - 1);
      Halves(Pow2(-q - 1) as real);
    }
  }

  lemma Halves(x: real)
    requires x > 0.0
    ensures 1.0 / x == 2.0 * (1.0 / (2.0 * x))
  {
  }

  lemma ScaleIsPositive(q: int)
    ensures Scale(q) > 0.0
    ensures q <= 0 ==> Scale(q) <= 1.0
  {
    PowersArePositive(if q >= 0 then q else -q);
  }

  lemma {:induction false} ScaleIsOrdered(p: int, q: int)
    requires p <= q
    ensures Scale(p) <= Scale(q)
    decreases q - p
  {
    hide Scale;
    if p < q {
      ScaleIsOrdered(p, q - 1);
      ScaleDoubles(q - 1);
      ScaleIsPositive(q - 1);
    }
  }

  lemma UnitsDouble(k: int, q: int)
    ensures Units(2 * k, q) == Units(k, q + 1)
  {
    ScaleDoubles(q);
    hide Scale;
    Regroup(k as real, Scale(q));
  }

  lemma Regroup(k: real, scale: real)
    ensures (2.0 * k) * scale == k * (2.0 * scale)
  {
  }

  /** Moving powers of two between the units and their size keeps the number. */
  lemma {:induction false} UnitsShift(k: int, q: int, d: nat)
    ensures Units(k * Pow2(d), q) == Units(k, q + d)
    decreases d
  {
    hide Units;
    if d > 0 {
      UnitsDouble(k * Pow2(d - 1), q);
      UnitsShift(k, q + 1, d - 1);
      assert k * Pow2(d) == 2 * (k * Pow2(d - 1));
    }
  }

  lemma UnitsAreOrdered(j: int, k: int, q: int)
    requires j < k
    ensures Units(j, q) < Units(k, q)
  {
    ScaleIsPositive(q);
    hide Scale;
    StrictlyScaled(j as real, k as real, Scale(q));
  }

  lemma StrictlyScaled(a: real, b: real, scale: real)
    requires a < b && scale > 0.0
    ensures a * scale < b * scale
  {
  }

  lemma WholeUnits(k: int)
    ensures Units(k, 0) == k as real
    ensures Units(1, k) == Scale(k)
  {
    assert Scale(0) == 1.0;
  }

  // ----- What the float formats hold -----

  /** The integers up to the significand's width, and its next power of two, are floats. */
  lemma IntegerIsFloat(mantissa: nat, exponent: nat, n: int)
    requires WellFormed(Float(mantissa, exponent)) && -Pow2(mantissa) <= n <= Pow2(mantissa)
    ensures Holds(Float(mantissa, exponent), n as real)
  {
    PowersArePositive(mantissa - 1);
    if -Pow2(mantissa) < n < Pow2(mantissa) {
      assert Scale(0) == 1.0;
      assert FloatParts(mantissa, exponent, n as real, n, 0);
    } else {
      var k := if n > 0 then Pow2(mantissa - 1) else -Pow2(mantissa - 1);
      assert Scale(1) == 2.0 by {
        assert Pow2(1) == 2;
      }
      assert FloatParts(mantissa, exponent, n as real, k, 1);
    }
  }

  /** The first odd integer beyond the significand is not a float: it needs one more bit. */
  lemma OddBeyondSignificand(mantissa: nat, exponent: nat)
    requires WellFormed(Float(mantissa, exponent))
    ensures !Holds(Float(mantissa, exponent), (Pow2(mantissa) + 1) as real)
  {
    var x: real := (Pow2(mantissa) + 1) as real;
    forall k: int, q: int ensures !FloatParts(mantissa, exponent, x, k, q) {
      if k < Pow2(mantissa) {
        OddIsNoMultiple(mantissa, k, q);
      }
    }
  }

  lemma OddIsNoMultiple(mantissa: nat, k: int, q: int)
    requires mantissa >= 1 && k < Pow2(mantissa)
    ensures Units(k, q) != (Pow2(mantissa) + 1) as real
  {
    hide Units, Scale;
    PowersArePositive(mantissa);
    if q >= 1 {
      UnitsShift(2 * k, 0, q - 1);
      UnitsDouble(k, q - 1);
      WholeUnits(2 * k * Pow2(q - 1));
      Parity(k * Pow2(q - 1), Pow2(mantissa - 1));
    } else {
      UnitsAreOrdered(k, Pow2(mantissa), q);
      AtMostWhole(Pow2(mantissa), q);
    }
  }

  lemma AtMostWhole(k: nat, q: int)
    requires q <= 0
    ensures Units(k, q) <= k as real
  {
    ScaleIsPositive(q);
    hide Scale;
    assert k as real * Scale(q) <= k as real * 1.0;
  }

  lemma Parity(a: int, b: int)
    ensures (2 * a) as real != (2 * b + 1) as real
  {
  }

  /** One half is a float and no integer. */
  lemma HalfIsFloat(mantissa: nat, exponent: nat)
    requires WellFormed(Float(mantissa, exponent))
    ensures Holds(Float(mantissa, exponent), 0.5)
  {
    assert Scale(-1) == 0.5 by {
      assert Pow2(1) == 2;
    }
    PowersArePositive(mantissa - 1);
    PowersAreOrdered(2, exponent - 1);
    assert Pow2(2) == 4;
    assert FloatParts(mantissa, exponent, 0.5, 1, -1);
  }

  /** The top power of two of a format. */
  lemma TopPowerIsFloat(mantissa: nat, exponent: nat)
    requires WellFormed(Float(mantissa, exponent))
    ensures Holds(Float(mantissa, exponent), Scale(MaxExponent(exponent)))
  {
    var q := GreatestQuantum(mantissa, exponent);
    PowersArePositive(mantissa - 1);
    UnitsShift(1, q, mantissa - 1);
    WholeUnits(MaxExponent(exponent));
    assert FloatParts(mantissa, exponent, Scale(MaxExponent(exponent)), Pow2(mantissa - 1), q);
  }

  /** Every float of a format is below the power of two after its top one. */
  lemma FloatIsBelow(mantissa: nat, exponent: nat, x: real)
    requires WellFormed(Float(mantissa, exponent)) && Holds(Float(mantissa, exponent), x)
    ensures x < Scale(MaxExponent(exponent) + 1)
  {
    var k: int, q: int :| FloatParts(mantissa, exponent, x, k, q);
    hide Units, Scale;
    UnitsAreOrdered(k, Pow2(mantissa), q);
    UnitsShift(1, q, mantissa);
    WholeUnits(q + mantissa);
    ScaleIsOrdered(q + mantissa, MaxExponent(exponent) + 1);
  }

  /** More significand and more exponent hold every float: a quantum too large moves into the wider significand. */
  lemma FloatIsFloat(m1: nat, e1: nat, m2: nat, e2: nat, x: real)
    requires WellFormed(Float(m1, e1)) && WellFormed(Float(m2, e2)) && m1 <= m2 && e1 <= e2
    requires Holds(Float(m1, e1), x)
    ensures Holds(Float(m2, e2), x)
  {
    var k: int, q: int :| FloatParts(m1, e1, x, k, q);
    PowersAreOrdered(e1 - 1, e2 - 1);
    PowersAreOrdered(m1, m2);
    if q <= GreatestQuantum(m2, e2) {
      assert FloatParts(m2, e2, x, k, q);
    } else {
      var top := GreatestQuantum(m2, e2);
      var d := q - top;
      UnitsShift(k, top, d);
      PowersMultiply(m1, d);
      PowersAreOrdered(m1 + d, m2);
      PowersArePositive(d);
      StaysWithin(k, Pow2(m1), Pow2(d));
      assert FloatParts(m2, e2, x, k * Pow2(d), top) by {
        hide Units, Pow2;
      }
    }
  }

  lemma StaysWithin(k: int, bound: int, factor: int)
    requires -bound < k < bound && factor >= 1
    ensures -(bound * factor) < k * factor < bound * factor
  {
    Sooner(k, bound, factor);
    Sooner(-bound, k, factor);
  }

  lemma Sooner(a: int, b: int, factor: int)
    requires a < b && factor >= 1
    ensures a * factor < b * factor
  {
  }

  // ----- The decision is the inclusion -----

  lemma IntegersHold(domain: NumericDomain, n: int)
    requires WellFormed(domain) && !domain.Float?
    ensures Holds(domain, n as real) <==>
      if domain.Unsigned? then 0 <= n < Pow2(domain.bits) else -Pow2(domain.bits - 1) <= n < Pow2(domain.bits - 1)
  {
    assert (n as real).Floor == n;
  }

  lemma FitsIncludes(a: NumericDomain, b: NumericDomain)
    requires WellFormed(a) && WellFormed(b) && FitsIn(a, b)
    ensures Includes(b, a)
  {
    forall x | Holds(a, x) ensures Holds(b, x) {
      if a.Float? {
        FloatIsFloat(a.mantissa, a.exponent, b.mantissa, b.exponent, x);
      } else {
        var magnitude: nat := if a.Unsigned? then a.bits else a.bits - 1;
        var room: nat :=
          if b.Unsigned? then b.bits else if b.Signed? then b.bits - 1 else b.mantissa;
        PowersAreOrdered(magnitude, room);
        if b.Float? {
          IntegerIsFloat(b.mantissa, b.exponent, x.Floor);
        }
      }
    }
  }

  /** Too narrow a significand loses an odd integer. */
  lemma SignificandMisfit(a: NumericDomain, b: NumericDomain)
    requires WellFormed(a) && WellFormed(b) && b.Float?
    requires b.mantissa < if a.Unsigned? then a.bits else if a.Signed? then a.bits - 1 else a.mantissa
    ensures Holds(a, (Pow2(b.mantissa) + 1) as real) && !Holds(b, (Pow2(b.mantissa) + 1) as real)
  {
    OddBeyondSignificand(b.mantissa, b.exponent);
    PowersGrow(b.mantissa, if a.Unsigned? then a.bits else if a.Signed? then a.bits - 1 else a.mantissa);
    PowersGrow(0, b.mantissa);
    if a.Float? {
      IntegerIsFloat(a.mantissa, a.exponent, Pow2(b.mantissa) + 1);
    } else {
      IntegersHold(a, Pow2(b.mantissa) + 1);
    }
  }

  /** Too narrow an exponent loses the top power of two. */
  lemma ExponentMisfit(a: NumericDomain, b: NumericDomain)
    requires WellFormed(a) && WellFormed(b) && a.Float? && b.Float? && b.exponent < a.exponent
    ensures Holds(a, Scale(MaxExponent(a.exponent))) && !Holds(b, Scale(MaxExponent(a.exponent)))
  {
    TopPowerIsFloat(a.mantissa, a.exponent);
    var x := Scale(MaxExponent(a.exponent));
    PowersGrow(b.exponent - 1, a.exponent - 1);
    ScaleIsOrdered(MaxExponent(b.exponent) + 1, MaxExponent(a.exponent));
    if Holds(b, x) {
      FloatIsBelow(b.mantissa, b.exponent, x);
    }
  }

  /** Too few bits lose a power of two, and no unsigned domain holds minus one. */
  lemma IntegerMisfit(a: NumericDomain, b: NumericDomain) returns (n: int)
    requires WellFormed(a) && WellFormed(b) && !a.Float? && !b.Float? && !FitsIn(a, b)
    ensures Holds(a, n as real) && !Holds(b, n as real)
  {
    var room: nat := if b.Unsigned? then b.bits else b.bits - 1;
    var magnitude: nat := if a.Unsigned? then a.bits else a.bits - 1;
    PowersArePositive(magnitude);
    n := if a.Signed? && b.Unsigned? then -1 else Pow2(room);
    if n != -1 {
      PowersGrow(room, magnitude);
      PowersArePositive(room);
    }
    IntegersHold(a, n);
    IntegersHold(b, n);
  }

  /** A number that shows the conversion loses something. */
  lemma MisfitExcludes(a: NumericDomain, b: NumericDomain) returns (x: real)
    requires WellFormed(a) && WellFormed(b) && !FitsIn(a, b)
    ensures Holds(a, x) && !Holds(b, x)
  {
    if a.Float? && !b.Float? {
      HalfIsFloat(a.mantissa, a.exponent);
      x := 0.5;
    } else if a.Float? && a.mantissa <= b.mantissa {
      x := Scale(MaxExponent(a.exponent));
      ExponentMisfit(a, b);
    } else if b.Float? {
      x := (Pow2(b.mantissa) + 1) as real;
      SignificandMisfit(a, b);
    } else {
      var n := IntegerMisfit(a, b);
      x := n as real;
    }
  }

  /** Counting bits decides whether every number of one domain is a number of the other. */
  lemma FitsInIsInclusion(a: NumericDomain, b: NumericDomain)
    requires WellFormed(a) && WellFormed(b)
    ensures FitsIn(a, b) <==> Includes(b, a)
  {
    if FitsIn(a, b) {
      FitsIncludes(a, b);
    } else {
      var x := MisfitExcludes(a, b);
    }
  }

  lemma PortDomainsAreWellFormed(t: PortType)
    ensures DomainOf(t).Some? ==> WellFormed(DomainOf(t).value)
  {
    assert Pow2(4) == 16;
    assert Pow2(7) == 128;
    assert Pow2(10) == 1024;
  }

  /** So for any two port types that carry numbers, the decision is exact. */
  lemma PortConversionIsLossless(from: PortType, to: PortType)
    requires DomainOf(from).Some? && DomainOf(to).Some?
    ensures WellFormed(DomainOf(from).value) && WellFormed(DomainOf(to).value)
    ensures FitsIn(DomainOf(from).value, DomainOf(to).value)
       <==> Includes(DomainOf(to).value, DomainOf(from).value)
  {
    PortDomainsAreWellFormed(from);
    PortDomainsAreWellFormed(to);
    FitsInIsInclusion(DomainOf(from).value, DomainOf(to).value);
  }

  // ----- The domains, by their numbers -----

  /** The least and the greatest number of an integer port. */
  function Bounds(t: PortType): Option<(int, int)> {
    match t
    case Bool => Some((0, 1))
    case U8 => Some((0, 255))
    case U16 => Some((0, 65_535))
    case U32 => Some((0, 4_294_967_295))
    case U64 => Some((0, 18_446_744_073_709_551_615))
    case U128 => Some((0, 340_282_366_920_938_463_463_374_607_431_768_211_455))
    case I8 => Some((-128, 127))
    case I16 => Some((-32_768, 32_767))
    case I32 => Some((-2_147_483_648, 2_147_483_647))
    case I64 => Some((-9_223_372_036_854_775_808, 9_223_372_036_854_775_807))
    case I128 =>
      Some((-170_141_183_460_469_231_731_687_303_715_884_105_728, 170_141_183_460_469_231_731_687_303_715_884_105_727))
    case _ => None
  }

  lemma LiteralPowers()
    ensures Pow2(1) == 2 && Pow2(7) == 128 && Pow2(8) == 256 && Pow2(11) == 2_048 && Pow2(15) == 32_768 && Pow2(16) == 65_536
    ensures Pow2(24) == 16_777_216 && Pow2(31) == 2_147_483_648 && Pow2(32) == 4_294_967_296
    ensures Pow2(53) == 9_007_199_254_740_992 && Pow2(63) == 9_223_372_036_854_775_808 && Pow2(64) == 18_446_744_073_709_551_616
    ensures Pow2(127) == 170_141_183_460_469_231_731_687_303_715_884_105_728
    ensures Pow2(128) == 340_282_366_920_938_463_463_374_607_431_768_211_456
  {
    assert Pow2(4) == 16 && Pow2(8) == 256 && Pow2(12) == 4_096;
    PowersMultiply(8, 8);
    PowersMultiply(16, 8);
    PowersMultiply(16, 15);
    PowersMultiply(16, 16);
    PowersMultiply(32, 21);
    assert Pow2(21) == 2_097_152 by {
      PowersMultiply(16, 5);
      assert Pow2(5) == 32;
    }
    PowersMultiply(32, 31);
    PowersMultiply(32, 32);
    PowersMultiply(64, 63);
    PowersMultiply(64, 64);
  }

  /** An integer port holds the integers between its bounds, and no other number. */
  lemma PortHoldsBounds(t: PortType, x: real)
    requires Bounds(t).Some?
    ensures DomainOf(t).Some? && WellFormed(DomainOf(t).value)
    ensures Holds(DomainOf(t).value, x) <==>
      x == x.Floor as real && Bounds(t).value.0 <= x.Floor <= Bounds(t).value.1
  {
    LiteralPowers();
    hide Pow2;
  }

  /** The integers a float port holds without a gap, and its top power of two. */
  function Exactly(t: PortType): Option<(int, int)> {
    match t
    case F16 => Some((2_048, 15))
    case F32 => Some((16_777_216, 127))
    case F64 => Some((9_007_199_254_740_992, 1_023))
    case _ => None
  }

  /** A float port holds every integer up to the bound and not the next one, and the top power of two and not the next one. */
  lemma PortHoldsFloats(t: PortType, n: int)
    requires Exactly(t).Some?
    ensures DomainOf(t).Some? && WellFormed(DomainOf(t).value)
    ensures var (bound, top) := Exactly(t).value;
      var domain := DomainOf(t).value;
      && (-bound <= n <= bound ==> Holds(domain, n as real)) && !Holds(domain, (bound + 1) as real)
      && Holds(domain, Scale(top)) && !Holds(domain, Scale(top + 1))
  {
    PortDomainsAreWellFormed(t);
    LiteralPowers();
    var domain, bound, top := DomainOf(t).value, Exactly(t).value.0, Exactly(t).value.1;
    assert Pow2(4) == 16 && Pow2(10) == 1_024;
    assert MaxExponent(domain.exponent) == top && Pow2(domain.mantissa) == bound;
    hide Pow2, Holds, WellFormed;
    if -bound <= n <= bound {
      IntegerIsFloat(domain.mantissa, domain.exponent, n);
    }
    OddBeyondSignificand(domain.mantissa, domain.exponent);
    TopPowerIsFloat(domain.mantissa, domain.exponent);
    if Holds(domain, Scale(top + 1)) {
      FloatIsBelow(domain.mantissa, domain.exponent, Scale(top + 1));
    }
  }
}
