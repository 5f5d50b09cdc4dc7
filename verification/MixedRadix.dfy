/**
 * Mixed-radix decomposition of a counter into coordinates, in both of its
 * forms. Quotients and remainders never exceed the number divided, so no
 * machine word can overflow here and naturals stand for the 64-bit words.
 */
module MixedRadix {
  import opened Wrappers

  // ----- The digits -----

  /** The digit a radix takes off `n`: all of it for the zero radix. */
  function Taken(n: nat, radix: nat): (digit: nat)
    ensures radix > 0 ==> digit < radix
  {
    if radix == 0 then n else n % radix
  }

  /** What a radix leaves for the digits after it. */
  function Left(n: nat, radix: nat): (rest: nat)
    ensures radix > 0 ==> n == radix * rest + Taken(n, radix)
  {
    if radix == 0 then 0 else n / radix
  }

  /** The digits of `n`, least significant first; a zero radix takes all that is left. */
  function Digits(n: nat, radixes: seq<nat>): (digits: seq<nat>)
    ensures |digits| == |radixes|
    decreases |radixes|
  {
    if radixes == [] then []
    else [Taken(n, radixes[0])] + Digits(Left(n, radixes[0]), radixes[1..])
  }

  /** What the validator accepts: only the last radix may be zero. */
  ghost predicate Accepted(radixes: seq<nat>) {
    forall i :: 0 <= i < |radixes| - 1 ==> radixes[i] != 0
  }

  predicate Unbounded(radixes: seq<nat>) {
    radixes != [] && radixes[|radixes| - 1] == 0
  }

  /** The number of digit tuples of a list without a zero. */
  function Product(radixes: seq<nat>): int {
    if radixes == [] then 1 else radixes[0] * Product(radixes[1..])
  }

  /** The number a tuple of digits stands for. */
  function Value(digits: seq<nat>, radixes: seq<nat>): int
    requires |digits| == |radixes|
  {
    if digits == [] then 0
    else digits[0] + radixes[0] * Value(digits[1..], radixes[1..])
  }

  /** Each bounded digit is below its radix. */
  ghost predicate InRange(digits: seq<nat>, radixes: seq<nat>)
    requires |digits| == |radixes|
  {
    forall i :: 0 <= i < |digits| && radixes[i] != 0 ==> digits[i] < radixes[i]
  }

  // ----- The two forms and the validator -----

  method Decompose(input: nat, radixes: seq<nat>) returns (result: seq<nat>)
    ensures result == Digits(input, radixes)
  {
    var remainder := input;
    result := [];
    var i := 0;
    while i < |radixes|
      invariant 0 <= i <= |radixes| && |result| == i
      invariant result + Digits(remainder, radixes[i..]) == Digits(input, radixes)
    {
      var radix := radixes[i];
      ghost var left := Digits(remainder, radixes[i..]);
      assert radixes[i..][1..] == radixes[i + 1..];
      assert result + left == (result + [left[0]]) + left[1..];
      if radix == 0 {
        result := result + [remainder];
        remainder := 0;
      } else {
        result := result + [remainder % radix];
        remainder := remainder / radix;
      }
      i := i + 1;
    }
  }

  /** The compiled form writes the same digits over the front of the output buffer, and nothing else. */
  method DecomposeInPlace(radixes: seq<nat>, inputs: array<nat>, outputs: array<nat>)
    requires inputs.Length > 0 && |radixes| <= outputs.Length && inputs != outputs
    modifies outputs
    ensures outputs[..] == Digits(inputs[0], radixes) + old(outputs[|radixes|..])
  {
    var remainder := inputs[0];
    var i := 0;
    while i < |radixes|
      invariant 0 <= i <= |radixes|
      invariant outputs[..i] + Digits(remainder, radixes[i..]) == Digits(inputs[0], radixes)
      invariant forall k :: i <= k < outputs.Length ==> outputs[k] == old(outputs[k])
    {
      var radix := radixes[i];
      ghost var done, left := outputs[..i], Digits(remainder, radixes[i..]);
      assert radixes[i..][1..] == radixes[i + 1..];
      assert done + left == (done + [left[0]]) + left[1..];
      if radix == 0 {
        outputs[i] := remainder;
        remainder := 0;
      } else {
        outputs[i] := remainder % radix;
        remainder := remainder / radix;
      }
      i := i + 1;
      assert outputs[..i] == done + [left[0]];
    }
    assert outputs[..] == outputs[..i] + outputs[i..];
  }

  /** Accepts exactly the lists whose only zero is last, and otherwise names the first misplaced one. */
  method Validate(radixes: seq<nat>) returns (r: Result<(), nat>)
    ensures r.Ok? <==> Accepted(radixes)
    ensures r.Err? ==> r.error < |radixes| - 1 && radixes[r.error] == 0 && Accepted(radixes[..r.error + 1])
  {
    var i := 0;
    while i < |radixes| - 1
      invariant 0 <= i && (radixes != [] ==> i < |radixes|) && (radixes == [] ==> i == 0)
      invariant forall k :: 0 <= k < i ==> radixes[k] != 0
    {
      if radixes[i] == 0 {
        return Err(i);
      }
      i := i + 1;
    }
    return Ok(());
  }

  // ----- What the digits mean -----

  lemma {:induction false} DigitsInRange(n: nat, radixes: seq<nat>)
    ensures InRange(Digits(n, radixes), radixes)
    decreases |radixes|
  {
    hide Taken, Left;
    if radixes != [] {
      var rest := Left(n, radixes[0]);
      DigitsInRange(rest, radixes[1..]);
      var digits := Digits(n, radixes);
      assert digits[1..] == Digits(rest, radixes[1..]);
      forall i | 0 <= i < |digits| && radixes[i] != 0 ensures digits[i] < radixes[i] {
        assert i > 0 ==> digits[i] == digits[1..][i - 1] && radixes[i] == radixes[1..][i - 1];
      }
    }
  }

  /** With an unbounded last digit nothing is lost; otherwise the input comes back modulo the product. */
  lemma {:induction false} DigitsRecompose(n: nat, radixes: seq<nat>)
    requires Accepted(radixes)
    ensures Unbounded(radixes) ==> Value(Digits(n, radixes), radixes) == n
    ensures !Unbounded(radixes) ==> Product(radixes) > 0
    ensures !Unbounded(radixes) ==> Value(Digits(n, radixes), radixes) == n % Product(radixes)
    decreases |radixes|
  {
    if radixes == [] {
    } else if radixes[0] == 0 {
      assert radixes[1..] == [];
      assert Digits(n, radixes) == [n];
    } else {
      var radix, rest := radixes[0], radixes[1..];
      var left := Left(n, radix);
      TakenAndLeft(n, radix);
      hide Taken, Left;
      DigitsRecompose(left, rest);
      assert Digits(n, radixes)[1..] == Digits(left, rest);
      assert rest != [] ==> Unbounded(rest) == Unbounded(radixes);
      if !Unbounded(radixes) {
        RemainderOfProduct(n, radix, Product(rest));
      }
    }
  }

  lemma TakenAndLeft(n: nat, radix: nat)
    requires radix > 0
    ensures Taken(n, radix) == n % radix && Left(n, radix) == n / radix
  {
  }

  /** The digit and the rest are the only ones that add up to the number. */
  lemma TakenUnique(n: nat, radix: nat, rest: nat, digit: nat)
    requires n == radix * rest + digit && digit < radix
    ensures Taken(n, radix) == digit && Left(n, radix) == rest
  {
    QuotientUnique(n, radix, rest, digit);
  }

  lemma RemainderOfProduct(n: int, radix: int, rest: int)
    requires n >= 0 && radix > 0 && rest > 0
    ensures radix * rest > 0
    ensures n % (radix * rest) == n % radix + radix * ((n / radix) % rest)
  {
    var inner := n / radix;
    var quotient := inner / rest;
    var r := n % radix + radix * (inner % rest);
    assert n == radix * inner + n % radix;
    assert inner == rest * quotient + inner % rest;
    assert n == (radix * rest) * quotient + r by {
      assert radix * inner == radix * (rest * quotient) + radix * (inner % rest);
    }
    assert 0 <= r < radix * rest by {
      assert radix * (inner % rest) <= radix * (rest - 1);
    }
    QuotientUnique(n, radix * rest, quotient, r);
  }

  lemma QuotientUnique(n: int, divisor: int, quotient: int, r: int)
    requires divisor > 0 && n == divisor * quotient + r && 0 <= r < divisor
    ensures n % divisor == r && n / divisor == quotient
  {
    var actual := n / divisor;
    assert n == divisor * actual + n % divisor;
    if actual < quotient {
      Ordered(divisor, actual, quotient - 1);
    } else if quotient < actual {
      Ordered(divisor, quotient + 1, actual);
    }
  }

  lemma Ordered(factor: int, a: int, b: int)
    requires factor > 0 && a <= b
    ensures factor * a <= factor * b
  {
  }

  /** Digits in range are the digits of the number they stand for: the decomposition is onto and one to one. */
  lemma {:induction false} DigitsOfValue(digits: seq<nat>, radixes: seq<nat>)
    requires |digits| == |radixes| && Accepted(radixes) && InRange(digits, radixes)
    ensures Value(digits, radixes) >= 0
    ensures Digits(Value(digits, radixes), radixes) == digits
  {
    if digits != [] {
      var radix, rest := radixes[0], radixes[1..];
      if radix == 0 {
        assert rest == [] && digits == [digits[0]];
      } else {
        var inner := Value(digits[1..], rest);
        ValueIsNatural(digits[1..], rest);
        forall i | 0 <= i < |rest| && rest[i] != 0 ensures digits[1..][i] < rest[i] {
          assert digits[1..][i] == digits[i + 1] && rest[i] == radixes[i + 1];
        }
        DigitsOfValue(digits[1..], rest);
        TakenUnique(Value(digits, radixes), radix, inner, digits[0]);
        hide Taken, Left;
        assert digits == [digits[0]] + digits[1..];
      }
    }
  }

  lemma {:induction false} ValueIsNatural(digits: seq<nat>, radixes: seq<nat>)
    requires |digits| == |radixes|
    ensures Value(digits, radixes) >= 0
  {
    if digits != [] {
      ValueIsNatural(digits[1..], radixes[1..]);
    }
  }

  /** One step of a counter of wheels: the first wheel turns, and each full wheel starts over and turns the next. */
  function Tick(digits: seq<nat>, radixes: seq<nat>): seq<nat>
    requires |digits| == |radixes|
  {
    if digits == [] then []
    else if radixes[0] == 0 then
      [digits[0] + 1] + digits[1..]
    else if digits[0] + 1 < radixes[0] then [digits[0] + 1] + digits[1..]
    else [0] + Tick(digits[1..], radixes[1..])
  }

  /** The next number is one turn of the wheels: nested loops, innermost first. */
  lemma {:induction false} NextIsTick(n: nat, radixes: seq<nat>)
    ensures Digits(n + 1, radixes) == Tick(Digits(n, radixes), radixes)
    decreases |radixes|
  {
    if radixes != [] && radixes[0] != 0 {
      hide Taken, Left;
      var radix := radixes[0];
      var rest, digit := Left(n, radix), Taken(n, radix);
      assert Digits(n, radixes)[1..] == Digits(rest, radixes[1..]);
      if digit + 1 < radix {
        TakenUnique(n + 1, radix, rest, digit + 1);
      } else {
        assert radix * (rest + 1) == radix * rest + radix;
        TakenUnique(n + 1, radix, rest + 1, 0);
        NextIsTick(rest, radixes[1..]);
      }
    }
  }
}
