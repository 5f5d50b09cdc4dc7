/** What the spellings of integers lex to: hexadecimal digits, decimal digits, and the multiplying suffixes. */
module NumberText {
  import opened Wrappers
  import opened Lexer
  import opened PrintedText
  import T = Tokens

  // ----- Spellings of a number -----

  const LOWER: string := "0123456789abcdef"
  const UPPER: string := "0123456789ABCDEF"

  /**
   * Hexadecimal digits of a number, the last digit of `n % 16` behind those of
   * `n / 16`; either case, any number of leading zeros.
   */
  predicate SpellsHex(d: string, n: nat) {
    if d == "" then n == 0
    else
      && (d[|d| - 1] == LOWER[n % 16] || d[|d| - 1] == UPPER[n % 16])
      && SpellsHex(d[..|d| - 1], n / 16)
  }

  /** Decimal digits of a number, any number of leading zeros. */
  predicate SpellsDecimal(d: string, n: nat) {
    if d == "" then n == 0
    else d[|d| - 1] == "0123456789"[n % 10] && SpellsDecimal(d[..|d| - 1], n / 10)
  }

  /** Every number has a hexadecimal spelling, of any greater length too. */
  lemma {:induction false} HexSpelling(n: nat, zeros: nat) returns (d: string)
    ensures d != "" && |d| > zeros && SpellsHex(d, n)
    decreases n, zeros
  {
    var front := "";
    if n >= 16 {
      front := HexSpelling(n / 16, if zeros > 0 then zeros - 1 else 0);
    } else if zeros > 0 {
      front := HexSpelling(0, zeros - 1);
    }
    d := front + [LOWER[n % 16]];
    assert d[..|d| - 1] == front;
  }

  lemma HexDigitValue(c: char, v: nat)
    requires v < 16 && (c == LOWER[v] || c == UPPER[v])
    ensures IsHexDigit(c) && DigitValue(c) == v
  {
  }

  lemma DecimalDigitValue(c: char, v: nat)
    requires v < 10 && c == "0123456789"[v]
    ensures IsDigit(c) && IsHexDigit(c) && DigitValue(c) == v
  {
  }

  lemma {:induction false} HexValue(d: string, n: nat)
    requires SpellsHex(d, n)
    ensures (forall i :: 0 <= i < |d| ==> IsHexDigit(d[i])) && Number(d, 16) == n
  {
    if d != "" {
      HexValue(d[..|d| - 1], n / 16);
      HexDigitValue(d[|d| - 1], n % 16);
      hide IsHexDigit, DigitValue;
      assert forall i :: 0 <= i < |d| - 1 ==> d[i] == d[..|d| - 1][i];
    }
  }

  lemma {:induction false} DecimalValue(d: string, n: nat)
    requires SpellsDecimal(d, n)
    ensures (forall i :: 0 <= i < |d| ==> IsDigit(d[i])) && Number(d, 10) == n
  {
    if d != "" {
      DecimalValue(d[..|d| - 1], n / 10);
      DecimalDigitValue(d[|d| - 1], n % 10);
      hide DigitValue;
      assert forall i :: 0 <= i < |d| - 1 ==> d[i] == d[..|d| - 1][i];
    }
  }

  // ----- What they lex to -----

  lemma FailOne(s: string)
    requires s != [] && Next(s) == Fail(BadNumber)
    ensures Lex(s) == Err(BadNumber)
  {
  }

  /** A number, or the failure of a number too large. */
  function IntegerOr(v: nat, rest: Result<seq<T.Token>, LexError>): Result<seq<T.Token>, LexError> {
    if v <= 0xFFFF_FFFF_FFFF_FFFF then Prepend([T.IntLit(v)], rest) else Err(BadNumber)
  }

  lemma HexIsPiece(x: char, d: string, rest: string)
    requires (x == 'x' || x == 'X') && (forall i :: 0 <= i < |d| ==> IsHexDigit(d[i]))
    requires rest == "" || !IsHexDigit(rest[0])
    ensures var s := ['0', x] + d + rest;
      && DigitAt(s, 0)
      && NumberPiece(s) == if d == "" || Number(d, 16) > U64_MAX then Fail(BadNumber) else Emit(T.IntLit(Number(d, 16)), |d| + 2)
  {
    hide Number, Run, IsHexDigit, IntegerPiece;
    RunOfWhole(d, rest, IsHexDigit);
    HexParts(x, d, rest);
  }

  lemma HexParts(x: char, d: string, rest: string)
    ensures var s := ['0', x] + d + rest;
      |s| >= 2 && s[0] == '0' && s[1] == x && s[2..] == d + rest && s[2..][..|d|] == d
  {
    assert ['0', x] + d + rest == ['0', x] + (d + rest);
    assert (['0', x] + (d + rest))[2..] == d + rest;
  }

  /** `0x` and the hexadecimal digits of a number are that number, and fail without a digit or past 64 bits. */
  lemma LexHex(x: char, d: string, n: nat, rest: string)
    requires (x == 'x' || x == 'X') && SpellsHex(d, n)
    requires rest == "" || (rest[0] !in LOWER && rest[0] !in UPPER)
    ensures Lex(['0', x] + d + rest) == if d == "" then Err(BadNumber) else IntegerOr(n, Lex(rest))
  {
    var s := ['0', x] + d + rest;
    HexValue(d, n);
    NoHexDigit(rest);
    HexIsPiece(x, d, rest);
    hide Lex, Next, NumberPiece, Number, IsHexDigit, SpellsHex;
    NumberIsNext(s);
    if d == "" || n > U64_MAX {
      FailOne(s);
    } else {
      EmitOne(['0', x] + d, T.IntLit(n), rest);
    }
  }

  lemma NoHexDigit(rest: string)
    requires rest == "" || (rest[0] !in LOWER && rest[0] !in UPPER)
    ensures rest == "" || !IsHexDigit(rest[0])
  {
    if rest != "" && IsHexDigit(rest[0]) {
      HexIsListed(rest[0]);
    }
  }

  lemma HexIsListed(c: char)
    requires IsHexDigit(c)
    ensures c in LOWER || c in UPPER
  {
    if IsDigit(c) {
      assert c == LOWER[c as int - '0' as int];
    } else if 'a' <= c {
      assert c == LOWER[c as int - 'a' as int + 10];
    } else {
      assert c == UPPER[c as int - 'A' as int + 10];
    }
  }

  /** Decimal digits before a boundary are their number, leading zeros or not, and fail past 64 bits. */
  lemma LexDecimal(d: string, n: nat, rest: string)
    requires d != "" && SpellsDecimal(d, n) && Boundary(rest)
    ensures Lex(d + rest) == IntegerOr(n, Lex(rest))
  {
    var s := d + rest;
    DecimalValue(d, n);
    DigitRun(d, rest);
    BoundaryEndsNumber(s, |d|);
    PlainInteger(s, d, rest);
    hide Lex, Next, NumberPiece, Number, SpellsDecimal, IsDigit, Run;
    LexNumber(d, n, rest);
  }

  /** Where the digits run up to `d` and no fraction, exponent or `x` follows, the piece is that of the integer. */
  lemma PlainInteger(s: string, d: string, rest: string)
    requires s == d + rest && d != "" && (forall i :: 0 <= i < |d| ==> IsDigit(d[i])) && Run(s, IsDigit) == |d|
    requires |s| > 1 ==> s[1] != 'x' && s[1] != 'X'
    requires At(s, |d|) != Some('.') && !ExponentAt(s, |d|)
    ensures DigitAt(s, 0) && s[..|d|] == d && s[|d|..] == rest
    ensures (forall i :: 0 <= i < |d| ==> IsDigit(s[i])) && NumberPiece(s) == IntegerPiece(s, |d|)
  {
    assert s[0] == d[0];
    assert forall i :: 0 <= i < |d| ==> s[i] == d[i];
    hide IntegerPiece, IsDigit, Run;
  }

  // ----- Suffixes -----

  function Power(base: nat, k: nat): nat {
    if k == 0 then 1 else base * Power(base, k - 1)
  }

  /** The multiplying suffix of the power `k + 1`, of 1024 with an `i` and of 1000 without. */
  function SuffixText(k: nat, binary: bool): (s: string)
    requires k < 5
    ensures 1 <= |s| <= 2
  {
    ["KMGTP"[k]] + (if binary then "i" else "")
  }

  function SuffixPower(k: nat, binary: bool): nat {
    Power(if binary then 1024 else 1000, k + 1)
  }

  lemma PowersOfSuffixes()
    ensures SuffixPower(0, true) == 0x400 && SuffixPower(1, true) == 0x10_0000 && SuffixPower(2, true) == 0x4000_0000
    ensures SuffixPower(3, true) == 0x100_0000_0000 && SuffixPower(4, true) == 0x4_0000_0000_0000
    ensures SuffixPower(0, false) == 1_000 && SuffixPower(1, false) == 1_000_000 && SuffixPower(2, false) == 1_000_000_000
    ensures SuffixPower(3, false) == 1_000_000_000_000 && SuffixPower(4, false) == 1_000_000_000_000_000
  {
    assert Power(1024, 0) == 1 && Power(1000, 0) == 1;
    assert Power(1024, 1) == 0x400 && Power(1000, 1) == 1_000;
    assert Power(1024, 2) == 0x10_0000 && Power(1000, 2) == 1_000_000;
    assert Power(1024, 3) == 0x4000_0000 && Power(1000, 3) == 1_000_000_000;
    assert Power(1024, 4) == 0x100_0000_0000 && Power(1000, 4) == 1_000_000_000_000;
    assert Power(1024, 5) == 0x4_0000_0000_0000 && Power(1000, 5) == 1_000_000_000_000_000;
  }

  lemma SuffixIsRead(k: nat, binary: bool, rest: string)
    requires k < 5 && (rest == "" || !IsWordChar(rest[0]))
    ensures SuffixAt(SuffixText(k, binary) + rest) == Some(Suffix(SuffixPower(k, binary), |SuffixText(k, binary)|, false))
  {
    PowersOfSuffixes();
    var s := SuffixText(k, binary) + rest;
    assert s[0] == "KMGTP"[k];
    if binary {
      assert s[1] == 'i' && (rest != "" ==> s[2] == rest[0]);
    } else {
      assert rest != "" ==> s[1] == rest[0];
    }
    hide SuffixPower, Power;
  }

  lemma LettersEndDigits(d: string, suffix: string, rest: string)
    requires d != "" && (forall i :: 0 <= i < |d| ==> IsDigit(d[i]))
    requires suffix != "" && suffix[0] in "KMGTPmun"
    ensures var s := d + (suffix + rest);
      && Run(s, IsDigit) == |d| && s[1] != 'x' && s[1] != 'X' && At(s, |d|) != Some('.') && !ExponentAt(s, |d|)
  {
    var s := d + (suffix + rest);
    RunOfWhole(d, suffix + rest, IsDigit);
    assert s[|d|] == suffix[0];
    assert s[1] == if |d| > 1 then d[1] else suffix[0];
    hide Run;
  }

  lemma NoLess(n: nat, power: nat)
    requires power >= 1
    ensures n * power >= n
  {
  }

  lemma PowerIsSome(k: nat, binary: bool)
    requires k < 5
    ensures SuffixPower(k, binary) >= 1 && SuffixPower(k, binary) == Power(if binary then 1024 else 1000, k + 1)
    ensures SuffixText(k, binary)[0] in "KMGTPmun"
  {
    PowersOfSuffixes();
    hide Power;
  }

  lemma SuffixedPiece(d: string, n: nat, suffix: string, power: nat, rest: string)
    requires d != "" && SpellsDecimal(d, n) && suffix != "" && suffix[0] in "KMGTPmun" && power >= 1
    requires SuffixAt(suffix + rest) == Some(Suffix(power, |suffix|, false))
    ensures var s := d + (suffix + rest);
      DigitAt(s, 0) && NumberPiece(s) == if n * power > U64_MAX then Fail(BadNumber) else Emit(T.IntLit(n * power), |d| + |suffix|)
  {
    var s := d + (suffix + rest);
    DecimalValue(d, n);
    NoLess(n, power);
    hide SuffixAt, Number, SpellsDecimal, NumberPiece, Run, At, ExponentAt, IsDigit;
    LettersEndDigits(d, suffix, rest);
    PlainInteger(s, d, suffix + rest);
  }

  /** A number with a suffix is so many thousands or kibi units of that power, and fails exactly where that is past 64 bits. */
  lemma LexSuffixed(d: string, n: nat, k: nat, binary: bool, rest: string)
    requires d != "" && SpellsDecimal(d, n) && k < 5 && (rest == "" || !IsWordChar(rest[0]))
    ensures Lex(d + SuffixText(k, binary) + rest) == IntegerOr(n * Power(if binary then 1024 else 1000, k + 1), Lex(rest))
  {
    hide *;
    var suffix, power := SuffixText(k, binary), SuffixPower(k, binary);
    PowerIsSome(k, binary);
    SuffixIsRead(k, binary, rest);
    SuffixedPiece(d, n, suffix, power, rest);
    assert d + suffix + rest == d + (suffix + rest);
    LexNumber(d + suffix, n * power, rest);
  }

  /** What a number's piece says, the text lexes to. */
  lemma LexNumber(front: string, v: nat, rest: string)
    requires DigitAt(front + rest, 0) && front != ""
    requires NumberPiece(front + rest) == if v > U64_MAX then Fail(BadNumber) else Emit(T.IntLit(v), |front|)
    ensures Lex(front + rest) == IntegerOr(v, Lex(rest))
  {
    hide Lex, Next, NumberPiece;
    NumberIsNext(front + rest);
    if v > U64_MAX {
      FailOne(front + rest);
    } else {
      EmitOne(front, T.IntLit(v), rest);
    }
  }

  /** A dividing suffix leaves the number a float, spelled as it was. */
  lemma LexDivided(d: string, n: nat, k: nat, rest: string)
    requires d != "" && SpellsDecimal(d, n) && k < 3 && (rest == "" || !IsWordChar(rest[0]))
    ensures Lex(d + ["mun"[k]] + rest) ==
      if n <= 0xFFFF_FFFF_FFFF_FFFF then Prepend([T.FloatLit(d + ["mun"[k]])], Lex(rest)) else Err(BadNumber)
  {
    var suffix := ["mun"[k]];
    var s := d + (suffix + rest);
    assert d + suffix + rest == s;
    DecimalValue(d, n);
    assert suffix[0] in "KMGTPmun";
    DividingSuffix(k, rest);
    hide SuffixAt, Number, SpellsDecimal, IsWordChar;
    LettersEndDigits(d, suffix, rest);
    PlainInteger(s, d, suffix + rest);
    assert s[..|d| + 1] == d + suffix;
    assert IntegerPiece(s, |d|) == if n > U64_MAX then Fail(BadNumber) else Emit(T.FloatLit(d + suffix), |d| + 1);
    hide Lex, Next, NumberPiece, IntegerPiece, IsDigit, Run, At, ExponentAt;
    NumberIsNext(s);
    if n > U64_MAX {
      FailOne(s);
    } else {
      EmitOne(d + suffix, T.FloatLit(d + suffix), rest);
    }
  }

  lemma DividingSuffix(k: nat, rest: string)
    requires k < 3 && (rest == "" || !IsWordChar(rest[0]))
    ensures var r := SuffixAt(["mun"[k]] + rest); r.Some? && r.value.len == 1 && r.value.subunit
  {
    var s := ["mun"[k]] + rest;
    assert rest != "" ==> s[1] == rest[0];
  }
}
