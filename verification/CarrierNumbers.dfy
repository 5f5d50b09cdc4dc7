/** What numbers the carriers hold and how their bits are read, against the names and the domains of their port types. */
module CarrierNumbers {
  import opened Carriers
  import opened Registers
  import opened Words
  import opened Wrappers
  import N = NumericDomains
  import PT = PortTypes
  import Printer

  // ----- Bytes and lanes as digits -----

  function TwoTo(n: nat): (p: int)
    ensures p >= 1
  {
    if n == 0 then 1 else 2 * TwoTo(n - 1)
  }

  lemma {:induction false} TwoToAdds(m: nat, n: nat)
    ensures TwoTo(m + n) == TwoTo(m) * TwoTo(n)
  {
    if n > 0 {
      TwoToAdds(m, n - 1);
      assert TwoTo(m) * (2 * TwoTo(n - 1)) == 2 * (TwoTo(m) * TwoTo(n - 1));
    }
  }

  lemma {:induction false} BytesAreBits(n: nat)
    ensures Pow256(n) == TwoTo(8 * n)
  {
    if n > 0 {
      BytesAreBits(n - 1);
      TwoToAdds(8 * n - 8, 8);
      assert TwoTo(8) == 256;
    }
  }

  lemma DivideTwice(v: nat, a: int, b: int)
    requires a > 0 && b > 0
    ensures a * b > 0 && (v / a) / b == v / (a * b)
    ensures v % (a * b) == v % a + a * ((v / a) % b)
  {
    var quotient, low, high := v / a / b, v % a, (v / a) % b;
    assert v == a * (v / a) + low && v / a == b * quotient + high;
    assert v == (a * b) * quotient + (a * high + low) by {
      assert a * (b * quotient + high) == a * (b * quotient) + a * high;
      assert a * (b * quotient) == (a * b) * quotient;
    }
    assert 0 <= a * high + low < a * b by {
      Scaled(a, high + 1, b);
      Scaled(a, 0, high);
      assert a * (high + 1) == a * high + a;
    }
    Remainder(v, a * b, quotient, a * high + low);
  }

  /** The number of `n` little-endian bytes of `v` is `v` modulo their range. */
  lemma {:induction false} LowBytes(v: nat, n: nat)
    ensures FromLe(ToLe(v, n)) == v % Pow256(n)
    decreases n
  {
    if n > 0 {
      LowBytes(v / 256, n - 1);
      DivideTwice(v, 256, Pow256(n - 1));
      assert ToLe(v, n)[1..] == ToLe(v / 256, n - 1);
    }
  }

  /** The bytes from `w` on are those of the number without its `w` low bytes. */
  lemma {:induction false} BytesSplit(v: nat, n: nat, w: nat)
    requires w <= n
    ensures v / Pow256(w) >= 0
    ensures ToLe(v, n)[..w] == ToLe(v, w) && ToLe(v, n)[w..] == ToLe(v / Pow256(w), n - w)
    decreases w
  {
    if w > 0 {
      BytesSplit(v / 256, n - 1, w - 1);
      DivideTwice(v, 256, Pow256(w - 1));
      var rest := ToLe(v / 256, n - 1);
      assert ToLe(v, n) == [v % 256] + rest;
      assert ([v % 256] + rest)[..w] == [v % 256] + rest[..w - 1];
      assert ([v % 256] + rest)[w..] == rest[w - 1..];
    }
  }

  lemma {:induction false} Pow256Adds(m: nat, n: nat)
    ensures Pow256(m + n) == Pow256(m) * Pow256(n)
  {
    if n > 0 {
      Pow256Adds(m, n - 1);
      Exchanges(Pow256(m), 256, Pow256(n - 1));
    } else {
      assert Pow256(m) * 1 == Pow256(m);
    }
  }

  lemma Exchanges(a: int, b: int, c: int)
    ensures a * (b * c) == b * (a * c)
  {
  }

  /** Lane `i` of a word's bytes is read from the word without the lanes below it. */
  lemma {:induction false} LaneIsDigit(lane: Lane, v: nat, n: nat, i: nat)
    requires lane.width > 0 && lane.width * (i + 1) <= n
    ensures i < |LanesOf(lane, ToLe(v, n))| && v / Pow256(lane.width * i) >= 0
    ensures LanesOf(lane, ToLe(v, n))[i] == LaneValue(lane, ToLe(v / Pow256(lane.width * i), lane.width))
    decreases i
  {
    var w := lane.width;
    assert w * (i + 1) == w * i + w;
    Scaled(w, 0, i);
    BytesSplit(v, n, w);
    if i > 0 {
      var rest := v / Pow256(w);
      assert w * i == w * (i - 1) + w;
      LaneIsDigit(lane, rest, n - w, i - 1);
      DivideTwice(v, Pow256(w), Pow256(w * (i - 1)));
      Pow256Adds(w, w * (i - 1));
      assert LanesOf(lane, ToLe(v, n))[i] == LanesOf(lane, ToLe(rest, n - w))[i - 1];
    }
  }

  // ----- Layouts -----

  /** What a carrier's bits are: how many numbers of how many bits, and whether the top bit is a sign. Floats are bit patterns. */
  datatype Layout = Layout(count: nat, bits: nat, signed: bool)

  function LayoutOf(t: JitType): Layout
    requires !t.Bool? && !t.RegRaw?
  {
    match t
    case U8 => Layout(1, 8, false)
    case U16 => Layout(1, 16, false)
    case U32 => Layout(1, 32, false)
    case U64 => Layout(1, 64, false)
    case U128 => Layout(1, 128, false)
    case I8 => Layout(1, 8, true)
    case I16 => Layout(1, 16, true)
    case I32 => Layout(1, 32, true)
    case I64 => Layout(1, 64, true)
    case I128 => Layout(1, 128, true)
    case F16 => Layout(1, 16, false)
    case F32 => Layout(1, 32, false)
    case F64 => Layout(1, 64, false)
    case RegI8x16 => Layout(16, 8, true)
    case RegI16x8 => Layout(8, 16, true)
    case RegI32x4 => Layout(4, 32, true)
    case RegI64x2 => Layout(2, 64, true)
    case RegF16x8 => Layout(8, 16, false)
    case RegF32x4 => Layout(4, 32, false)
    case RegF64x2 => Layout(2, 64, false)
  }

  /** `n` is a number of so many bits: two's complement, or unsigned. */
  predicate InRange(n: int, bits: nat, signed: bool)
    requires bits >= 1
  {
    if signed then -TwoTo(bits - 1) <= n < TwoTo(bits - 1) else 0 <= n < TwoTo(bits)
  }

  /** The two numbers have the same low bits. */
  predicate SameBits(n: int, m: int, bits: nat) {
    n % TwoTo(bits) == m % TwoTo(bits)
  }

  /** The number above its first `i` groups of so many bits. */
  function Above(v: nat, bits: nat, i: nat): int {
    ProductIsNat(bits, i);
    v / TwoTo(bits * i)
  }

  lemma ProductIsNat(a: nat, b: nat)
    ensures a * b >= 0
  {
  }

  lemma PowersOfTwo()
    ensures TwoTo(7) == 0x80 && TwoTo(8) == 0x100 && TwoTo(15) == 0x8000 && TwoTo(16) == 0x1_0000
    ensures TwoTo(31) == 0x8000_0000 && TwoTo(32) == 0x1_0000_0000
    ensures 2 * TwoTo(63) == TwoTo(64) == TWO_TO_64 && 2 * TwoTo(127) == TwoTo(128) == TWO_TO_128
  {
    assert TwoTo(4) == 16 && TwoTo(7) == 0x80;
    assert TwoTo(12) == 0x1000 && TwoTo(15) == 0x8000;
    TwoToAdds(16, 16);
    assert TwoTo(32) == 2 * TwoTo(31);
    TwoToAdds(32, 32);
    TwoToAdds(64, 64);
    assert TwoTo(64) == 2 * TwoTo(63) && TwoTo(128) == 2 * TwoTo(127);
  }

  lemma CastsKeepRemainder(n: int, m: int, half: int)
    requires half >= 1 && m == 2 * half
    ensures Unsigned(n, m) % m == n % m && 0 <= Unsigned(n, m) < m
    ensures Signed(n, m) % m == n % m && -half <= Signed(n, m) < half
  {
    var low := n % m;
    Remainder(low, m, 0, low);
    Remainder(low - m, m, -1, low);
  }

  /** A cast keeps the low bits and lands in the range of its type. */
  lemma CastKeepsBits(n: int, bits: nat)
    requires bits >= 1
    ensures SameBits(Unsigned(n, TwoTo(bits)), n, bits) && InRange(Unsigned(n, TwoTo(bits)), bits, false)
    ensures SameBits(Signed(n, TwoTo(bits)), n, bits) && InRange(Signed(n, TwoTo(bits)), bits, true)
  {
    assert TwoTo(bits) == 2 * TwoTo(bits - 1);
    CastsKeepRemainder(n, TwoTo(bits), TwoTo(bits - 1));
    hide TwoTo, Signed, Unsigned;
  }

  lemma SmallerModulus(n: int, m: int, small: int, rest: int)
    requires small > 0 && rest > 0 && n % (small * rest) == m % (small * rest)
    ensures n % small == m % small
  {
    var big := small * rest;
    var q, r, low := n / big, m / big, n % big;
    assert n == big * q + low && m == big * r + low;
    Associates(small, rest, q);
    Associates(small, rest, r);
    Multiple(small, rest * q, low);
    Multiple(small, rest * r, low);
  }

  lemma Associates(a: int, b: int, c: int)
    ensures (a * b) * c == a * (b * c)
  {
  }

  lemma NarrowerBits(n: int, m: int, bits: nat, narrow: nat)
    requires narrow <= bits && SameBits(n, m, bits)
    ensures SameBits(n, m, narrow)
  {
    TwoToAdds(narrow, bits - narrow);
    hide TwoTo;
    SmallerModulus(n, m, TwoTo(narrow), TwoTo(bits - narrow));
  }

  lemma Multiple(m: int, k: int, low: int)
    requires m > 0
    ensures (m * k + low) % m == low % m
  {
    var q, r := low / m, low % m;
    assert low == m * q + r;
    assert m * k + low == m * (k + q) + r;
    Remainder(m * k + low, m, k + q, r);
  }

  // ----- Scalars -----

  /** The number in the slots a carrier takes. */
  function SlotNumber(t: JitType, slots: seq<Word>): nat
    requires Width(t) <= |slots|
  {
    var low: int := slots[0];
    if Width(t) == 1 then low
    else
      var high: int := slots[1];
      low + 0x1_0000_0000_0000_0000 * high
  }

  /**
   * A scalar read from its slots has the low bits of the number there, as many
   * as its type has, and is in that type's range; and the numbers of the type
   * are those in the range.
   */
  lemma ScalarBits(t: JitType, slots: seq<Word>, n: int)
    requires !t.Bool? && !t.RegRaw? && !LaneTyped(t) && Width(t) <= |slots|
    ensures var (l, v) := (LayoutOf(t), Read(t, slots));
      && l.count == 1 && v.Num? && SameBits(v.n, SlotNumber(t, slots), l.bits) && InRange(v.n, l.bits, l.signed)
      && (HasType(t, Num(n)) <==> InRange(n, l.bits, l.signed))
  {
    hide TwoTo, Signed, Unsigned, SameBits;
    PowersOfTwo();
    var l, s := LayoutOf(t), SlotNumber(t, slots);
    CastKeepsBits(s, l.bits);
    if t.I8? || t.I16? || t.I32? {
      TwoCastsKeepBits(s, l.bits);
    }
    if t.U64? || t.F64? || t.U128? {
      WholeKeepsBits(s, l.bits);
    }
  }

  /** Through the 64-bit signed word, as the narrow signed carriers are read. */
  lemma TwoCastsKeepBits(n: int, bits: nat)
    requires 1 <= bits <= 64
    ensures var r := Signed(Signed(n, TwoTo(64)), TwoTo(bits)); SameBits(r, n, bits) && InRange(r, bits, true)
  {
    hide TwoTo, Signed;
    CastKeepsBits(n, 64);
    CastKeepsBits(Signed(n, TwoTo(64)), bits);
    NarrowerBits(Signed(n, TwoTo(64)), n, 64, bits);
  }

  lemma WholeKeepsBits(n: int, bits: nat)
    ensures SameBits(n, n, bits)
  {
  }

  lemma FlagBits(slots: seq<Word>)
    requires slots != []
    ensures Read(JitType.Bool, slots) == Flag(slots[0] != 0)
  {
  }

  // ----- Lanes -----

  /** The element the views go by has the layout's width and sign. */
  lemma ElementIsLaidOut(t: JitType)
    requires LaneTyped(t)
    ensures var l := LayoutOf(t);
      && 8 * Element(t).width == l.bits && Element(t).signed == l.signed && LaneCount(Element(t)) == l.count
      && l.count * l.bits == 128
  {
  }

  /** The number of a lane's bytes: their bits, read with the lane's sign. */
  lemma LaneValueBits(lane: Lane, x: nat)
    requires ValidLane(lane)
    ensures var n := LaneValue(lane, ToLe(x, lane.width));
      SameBits(n, x, 8 * lane.width) && InRange(n, 8 * lane.width, lane.signed)
  {
    hide TwoTo, Pow256, Signed, FromLe, ToLe;
    var bits := 8 * lane.width;
    BytesAreBits(lane.width);
    LowBytes(x, lane.width);
    var low := x % TwoTo(bits);
    Remainder(low, TwoTo(bits), 0, low);
    CastKeepsBits(low, bits);
  }

  /** One lane: the low bits of the number above the lanes before it. */
  lemma OneLane(lane: Lane, v: nat, i: nat)
    requires ValidLane(lane) && lane.width * (i + 1) <= 16
    ensures i < |LanesOf(lane, ToLe(v, 16))|
    ensures var n := LanesOf(lane, ToLe(v, 16))[i];
      SameBits(n, Above(v, 8 * lane.width, i), 8 * lane.width) && InRange(n, 8 * lane.width, lane.signed)
  {
    hide *;
    WidthIsSome(lane);
    LaneIsDigit(lane, v, 16, i);
    AboveBytes(v, lane.width, i);
    LaneValueBits(lane, v / Pow256(lane.width * i));
  }

  lemma AboveBytes(v: nat, width: nat, i: nat)
    ensures width * i >= 0 && v / Pow256(width * i) == Above(v, 8 * width, i)
  {
    ProductIsNat(width, i);
    Nested(8, width, i);
    BytesAreBits(width * i);
    hide Pow256, TwoTo;
  }

  lemma WidthIsSome(lane: Lane)
    requires ValidLane(lane)
    ensures lane.width >= 1
  {
  }

  lemma Nested(a: nat, b: nat, c: nat)
    ensures a * (b * c) == a * b * c
  {
  }

  /** `n` has the bits of `v` from `bits * i` on, and is in the layout's range. */
  predicate HoldsBits(n: int, v: nat, l: Layout, i: nat) {
    l.bits >= 1 && SameBits(n, Above(v, l.bits, i), l.bits) && InRange(n, l.bits, l.signed)
  }

  lemma ViewLane(t: JitType, word: Bits128, i: nat)
    requires LaneTyped(t) && i < LayoutOf(t).count
    ensures i < |View(t, word)| && HoldsBits(View(t, word)[i], AsU128(word), LayoutOf(t), i)
  {
    hide TwoTo, LanesOf, Signed, Unsigned, ToLe, SameBits, Above, InRange;
    var lane := if t.RegF16x8? then Lane(2, true) else Element(t);
    ElementIsLaidOut(t);
    assert lane.width * (i + 1) <= 16;
    OneLane(lane, AsU128(word), i);
    if t.RegF16x8? {
      PowersOfTwo();
      Recast(LanesOf(lane, ToLeBytes(word))[i], Above(AsU128(word), 16, i), 16);
    }
  }

  lemma Recast(n: int, m: int, bits: nat)
    requires bits >= 1 && SameBits(n, m, bits)
    ensures SameBits(Unsigned(n, TwoTo(bits)), m, bits) && InRange(Unsigned(n, TwoTo(bits)), bits, false)
  {
    CastKeepsBits(n, bits);
    hide TwoTo, Unsigned;
  }

  lemma ViewCount(t: JitType, word: Bits128)
    requires LaneTyped(t)
    ensures |View(t, word)| == LayoutOf(t).count
  {
    hide LanesOf, ToLeBytes, BytesOf;
    LanesCount(if t.RegF16x8? then Lane(2, true) else Element(t), ToLeBytes(word));
    ElementIsLaidOut(t);
  }

  lemma FillsByLayout(t: JitType, ns: seq<int>)
    requires LaneTyped(t)
    ensures HasType(t, Lanes(ns)) <==>
      |ns| == LayoutOf(t).count && forall i :: 0 <= i < |ns| ==> InRange(ns[i], LayoutOf(t).bits, LayoutOf(t).signed)
  {
    hide InLane, InRange;
    ElementIsLaidOut(t);
    forall n: int ensures InLane(Element(t), n) <==> InRange(n, LayoutOf(t).bits, LayoutOf(t).signed) {
      LaneRange(Element(t), n);
    }
    hide LayoutOf, Element;
    assert HasType(t, Lanes(ns)) <==> Fills(Element(t), ns);
  }

  lemma LaneRange(lane: Lane, n: int)
    requires ValidLane(lane)
    ensures InLane(lane, n) <==> InRange(n, 8 * lane.width, lane.signed)
  {
    BytesAreBits(lane.width);
    assert TwoTo(8 * lane.width) == 2 * TwoTo(8 * lane.width - 1);
    hide TwoTo, Pow256;
  }

  /**
   * The lanes read from a register's slots: as many as the carrier's name says,
   * lane `i` with the bits of the word's number from `bits * i` on, each in the
   * range of its element; and the lists of the type are those in the range.
   */
  lemma LaneReads(t: JitType, slots: seq<Word>, ns: seq<int>)
    requires LaneTyped(t) && 2 <= |slots|
    ensures var (l, v) := (LayoutOf(t), Read(t, slots));
      && v.Lanes? && |v.lanes| == l.count
      && (forall i: nat :: i < l.count ==> HoldsBits(v.lanes[i], SlotNumber(t, slots), l, i))
      && (HasType(t, Lanes(ns)) <==> |ns| == l.count && forall i :: 0 <= i < |ns| ==> InRange(ns[i], l.bits, l.signed))
  {
    var word := Bits128(slots[0], slots[1]);
    WordOfSlots(t, slots);
    hide *;
    ViewCount(t, word);
    FillsByLayout(t, ns);
    forall i: nat | i < LayoutOf(t).count
      ensures HoldsBits(View(t, word)[i], AsU128(word), LayoutOf(t), i)
    {
      ViewLane(t, word, i);
    }
  }

  lemma WordOfSlots(t: JitType, slots: seq<Word>)
    requires LaneTyped(t) && 2 <= |slots|
    ensures Width(t) == 2 && LayoutOf(t).bits >= 1
    ensures AsU128(Bits128(slots[0], slots[1])) == SlotNumber(t, slots)
    ensures Read(t, slots) == Lanes(View(t, Bits128(slots[0], slots[1])))
  {
    hide View;
  }

  // ----- Layouts against the names and domains of the ports -----

  predicate FloatCarrier(t: JitType) {
    t.F16? || t.F32? || t.F64? || t.RegF16x8? || t.RegF32x4? || t.RegF64x2?
  }

  /** The keyword of a carrier's port spells the carrier's layout: `u8`, `f32`, `reg_i16x8`. */
  lemma KeywordSpellsLayout(t: JitType)
    requires !t.Bool? && !t.RegRaw?
    ensures var l := LayoutOf(t);
      var element := (if FloatCarrier(t) then "f" else if l.signed then "i" else "u") + Printer.Decimal(l.bits);
      PT.ToKeyword(Port(t)) == if LaneTyped(t) then "reg_" + element + "x" + Printer.Decimal(l.count) else element
  {
    hide Printer.Decimal, PT.ToKeyword;
    Decimals();
    if LaneTyped(t) {
      LaneKeywords(t);
    } else {
      ScalarKeywords(t);
    }
  }

  lemma ScalarKeywords(t: JitType)
    requires !t.Bool? && !t.RegRaw? && !LaneTyped(t)
    ensures PT.ToKeyword(Port(t)) ==
      (if FloatCarrier(t) then "f" else if LayoutOf(t).signed then "i" else "u") + Printer.Decimal(LayoutOf(t).bits)
  {
    hide Printer.Decimal;
    Decimals();
  }

  lemma LaneKeywords(t: JitType)
    requires LaneTyped(t)
    ensures PT.ToKeyword(Port(t)) ==
      "reg_" + ((if FloatCarrier(t) then "f" else "i") + Printer.Decimal(LayoutOf(t).bits)) + "x" + Printer.Decimal(LayoutOf(t).count)
    ensures FloatCarrier(t) || LayoutOf(t).signed
  {
    hide Printer.Decimal;
    Decimals();
  }

  lemma Decimals()
    ensures Printer.Decimal(8) == "8" && Printer.Decimal(16) == "16" && Printer.Decimal(32) == "32" && Printer.Decimal(64) == "64"
    ensures Printer.Decimal(128) == "128" && Printer.Decimal(2) == "2" && Printer.Decimal(4) == "4"
  {
    assert Printer.Decimal(1) == "1" && Printer.Decimal(3) == "3" && Printer.Decimal(6) == "6" && Printer.Decimal(12) == "12";
  }

  /** The numbers a carrier of integers holds are those of its port's domain; a float's significand and exponent fill its bits. */
  lemma CarrierHoldsDomain(t: JitType, n: int)
    requires !t.Bool? && !t.RegRaw? && !LaneTyped(t)
    ensures N.DomainOf(Port(t)).Some? && N.WellFormed(N.DomainOf(Port(t)).value)
    ensures var domain := N.DomainOf(Port(t)).value;
      if FloatCarrier(t) then domain.Float? && domain.mantissa + domain.exponent == LayoutOf(t).bits
      else !domain.Float? && (HasType(t, Num(n)) <==> N.Holds(domain, n as real))
  {
    hide HasType, N.Holds, N.WellFormed, TwoTo;
    N.PortDomainsAreWellFormed(Port(t));
    DomainIsLaidOut(t);
    if !FloatCarrier(t) {
      var slots: seq<Word> := [0, 0];
      ScalarBits(t, slots, n);
      IntegersOf(LayoutOf(t), n);
    }
  }

  /** The domain of a carrier's port has the layout's bits. */
  lemma DomainIsLaidOut(t: JitType)
    requires !t.Bool? && !t.RegRaw? && !LaneTyped(t)
    ensures N.DomainOf(Port(t)).Some?
    ensures var domain, l := N.DomainOf(Port(t)).value, LayoutOf(t);
      if FloatCarrier(t) then domain.Float? && domain.mantissa + domain.exponent == l.bits
      else domain == IntegerDomain(l)
  {
  }

  function IntegerDomain(l: Layout): N.NumericDomain {
    if l.signed then N.NumericDomain.Signed(l.bits) else N.NumericDomain.Unsigned(l.bits)
  }

  lemma IntegersOf(l: Layout, n: int)
    requires l.bits >= 1
    ensures N.WellFormed(IntegerDomain(l)) && (N.Holds(IntegerDomain(l), n as real) <==> InRange(n, l.bits, l.signed))
  {
    SamePowers(l.bits);
    SamePowers(l.bits - 1);
    assert (n as real).Floor == n;
    hide TwoTo, N.Pow2;
  }

  lemma {:induction false} SamePowers(n: nat)
    ensures N.Pow2(n) == TwoTo(n)
  {
    if n > 0 {
      SamePowers(n - 1);
    }
  }
}
