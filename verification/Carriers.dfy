/**
 * The carrier types of the compiled buffers: how a typed value rides a wire
 * of the interpreter, and how it rides one or two 64-bit slots.
 */
module Carriers {
  import opened Registers
  import opened Words
  import opened Wrappers
  import PT = PortTypes

  // ----- Types and values -----

  /** The primitive types that fit the slot buffer. */
  datatype JitType =
    | U64 | I64 | F64 | Bool | U8 | U16 | U32 | I8 | I16 | I32 | F32 | F16
    | U128 | I128
    | RegRaw | RegI8x16 | RegI16x8 | RegI32x4 | RegI64x2 | RegF16x8 | RegF32x4 | RegF64x2

  /** The view tag of a register word on a wire. */
  datatype RegLanes = Raw | I8x16 | I16x8 | I32x4 | I64x2 | F16x8 | F32x4 | F64x2

  type Int64 = x: int | -0x8000_0000_0000_0000 <= x < 0x8000_0000_0000_0000

  /** A shared payload the wires only pass on: its identity stands for it. */
  datatype Payload = Payload(id: nat)

  /** A value on a wire of the interpreter; floats are their bit patterns. */
  datatype Value =
    | U64(u: Word)
    | I64(i: Int64)
    | F64(bits: Word)
    | Bool(flag: bool)
    | U128(b: Bits128)
    | I128(b: Bits128)
    | Reg128(b: Bits128, view: RegLanes)
    | Str(text: seq<Byte>)
    | Bytes(bytes: seq<Byte>)
    | Json(payload: Payload)
    | Ext(payload: Payload)
    | Handle(payload: Payload)
    | VecF32(elems: seq<int>) | VecF64(elems: seq<int>) | VecF16(elems: seq<int>)
    | VecI8(elems: seq<int>) | VecI16(elems: seq<int>) | VecI32(elems: seq<int>) | VecI64(elems: seq<int>)
    | None

  /** A value of a carrier type, as a node body sees it. */
  datatype Native =
    | Num(n: int)
    | Flag(b: bool)
    | Whole(word: Bits128)
    | Lanes(lanes: seq<int>)

  function Width(t: JitType): (w: nat)
    ensures w == 1 || w == 2
  {
    match t
    case U128 | I128 | RegRaw | RegI8x16 | RegI16x8 | RegI32x4 | RegI64x2 | RegF16x8 | RegF32x4 | RegF64x2 => 2
    case _ => 1
  }

  function Port(t: JitType): PT.PortType {
    match t
    case U64 => PT.U64
    case I64 => PT.I64
    case F64 => PT.F64
    case Bool => PT.Bool
    case U8 => PT.U8
    case U16 => PT.U16
    case U32 => PT.U32
    case I8 => PT.I8
    case I16 => PT.I16
    case I32 => PT.I32
    case F32 => PT.F32
    case F16 => PT.F16
    case U128 => PT.U128
    case I128 => PT.I128
    case RegRaw => PT.Reg128
    case RegI8x16 => PT.RegI8x16
    case RegI16x8 => PT.RegI16x8
    case RegI32x4 => PT.RegI32x4
    case RegI64x2 => PT.RegI64x2
    case RegF16x8 => PT.RegF16x8
    case RegF32x4 => PT.RegF32x4
    case RegF64x2 => PT.RegF64x2
  }

  predicate LaneTyped(t: JitType) {
    t.RegI8x16? || t.RegI16x8? || t.RegI32x4? || t.RegI64x2? || t.RegF16x8? || t.RegF32x4? || t.RegF64x2?
  }

  /** The element of a lane-typed view: integers are signed, floats are bit patterns. */
  function Element(t: JitType): (lane: Lane)
    requires LaneTyped(t)
    ensures ValidLane(lane)
  {
    match t
    case RegI8x16 => Lane(1, true)
    case RegI16x8 => Lane(2, true)
    case RegI32x4 => Lane(4, true)
    case RegI64x2 => Lane(8, true)
    case RegF16x8 => Lane(2, false)
    case RegF32x4 => Lane(4, false)
    case RegF64x2 => Lane(8, false)
  }

  predicate Unsigned?(v: Native, modulus: int) {
    v.Num? && 0 <= v.n < modulus
  }

  predicate Signed?(v: Native, modulus: int) {
    v.Num? && -(modulus / 2) <= v.n < modulus / 2
  }

  /** As many lanes as fill the word, each in range. */
  ghost predicate Fills(lane: Lane, lanes: seq<int>)
    requires ValidLane(lane)
  {
    |lanes| == LaneCount(lane) && forall i :: 0 <= i < |lanes| ==> InLane(lane, lanes[i])
  }

  ghost predicate HasType(t: JitType, v: Native) {
    match t
    case U64 | F64 => Unsigned?(v, TWO_TO_64)
    case I64 => Signed?(v, TWO_TO_64)
    case Bool => v.Flag?
    case U8 => Unsigned?(v, 0x100)
    case U16 | F16 => Unsigned?(v, 0x1_0000)
    case U32 | F32 => Unsigned?(v, 0x1_0000_0000)
    case I8 => Signed?(v, 0x100)
    case I16 => Signed?(v, 0x1_0000)
    case I32 => Signed?(v, 0x1_0000_0000)
    case U128 => Unsigned?(v, TWO_TO_128)
    case I128 => Signed?(v, TWO_TO_128)
    case RegRaw => v.Whole?
    case _ => v.Lanes? && Fills(Element(t), v.lanes)
  }

  // ----- The views of a register word -----

  function Each(f: int -> int, lanes: seq<int>): (r: seq<int>)
    ensures |r| == |lanes| && forall i :: 0 <= i < |r| ==> r[i] == f(lanes[i])
  {
    seq(|lanes|, i requires 0 <= i < |lanes| => f(lanes[i]))
  }

  const TO_U16: int -> int := n => Unsigned(n, 0x1_0000)
  const TO_I16: int -> int := n => Signed(n, 0x1_0000)

  /** The lanes of a word; half floats go through the 16-bit integer lanes. */
  function View(t: JitType, word: Bits128): seq<int>
    requires LaneTyped(t)
  {
    if t.RegF16x8? then Each(TO_U16, LanesOf(Lane(2, true), ToLeBytes(word)))
    else LanesOf(Element(t), ToLeBytes(word))
  }

  function Unview(t: JitType, lanes: seq<int>): Bits128
    requires LaneTyped(t) && |lanes| == LaneCount(Element(t))
  {
    if t.RegF16x8? then
      BytesCount(Lane(2, true), Each(TO_I16, lanes));
      FromLeBytes(BytesOf(Lane(2, true), Each(TO_I16, lanes)))
    else
      BytesCount(Element(t), lanes);
      FromLeBytes(BytesOf(Element(t), lanes))
  }

  // ----- The interpreter's side -----

  function ViewTag(t: JitType): RegLanes
    requires LaneTyped(t)
  {
    match t
    case RegI8x16 => I8x16
    case RegI16x8 => I16x8
    case RegI32x4 => I32x4
    case RegI64x2 => I64x2
    case RegF16x8 => F16x8
    case RegF32x4 => F32x4
    case RegF64x2 => F64x2
  }

  function AsI64(v: Value): Option<int> {
    if v.I64? then Some(v.i)
    else if v.U64? then Some(Signed(v.u, TWO_TO_64))
    else Option.None
  }

  function Map(o: Option<int>, f: int -> int): Option<Native> {
    if o.Some? then Some(Num(f(o.value))) else Option.None
  }

  /** A typed value pulled off a wire; `None` where the source panics on a value its port does not carry. */
  function Extract(t: JitType, v: Value): Option<Native> {
    match t
    case U64 => if v.U64? then Some(Num(v.u)) else Option.None
    case U8 => if v.U64? then Some(Num(Unsigned(v.u, 0x100))) else Option.None
    case U16 | F16 => if v.U64? then Some(Num(Unsigned(v.u, 0x1_0000))) else Option.None
    case U32 | F32 => if v.U64? then Some(Num(Unsigned(v.u, 0x1_0000_0000))) else Option.None
    case I64 => Map(AsI64(v), n => n)
    case I8 => Map(AsI64(v), n => Signed(n, 0x100))
    case I16 => Map(AsI64(v), n => Signed(n, 0x1_0000))
    case I32 => Map(AsI64(v), n => Signed(n, 0x1_0000_0000))
    case F64 => if v.F64? then Some(Num(v.bits)) else Option.None
    case Bool => if v.Bool? then Some(Flag(v.flag)) else if v.U64? then Some(Flag(v.u != 0)) else Option.None
    case U128 => if v.U128? then Some(Num(AsU128(v.b))) else if v.U64? then Some(Num(v.u)) else Option.None
    case I128 =>
      if v.I128? then Some(Num(AsI128(v.b)))
      else if v.I64? then Some(Num(v.i))
      else if v.U64? then Some(Num(v.u))
      else Option.None
    case RegRaw => if v.Reg128? then Some(Whole(v.b)) else Option.None
    case _ => if v.Reg128? then Some(Lanes(View(t, v.b))) else Option.None
  }

  /** A typed value pushed onto a wire. */
  function Inject(t: JitType, v: Native): Value
    requires HasType(t, v)
  {
    match t
    case U64 | U8 | U16 | U32 | F32 | F16 => Value.U64(v.n)
    case I64 | I8 | I16 | I32 => Value.I64(v.n)
    case F64 => Value.F64(v.n)
    case Bool => Value.Bool(v.b)
    case U128 => Value.U128(FromU128(v.n))
    case I128 => Value.I128(FromI128(v.n))
    case RegRaw => Value.Reg128(v.word, Raw)
    case _ => Value.Reg128(Unview(t, v.lanes), ViewTag(t))
  }

  // ----- The compiled side -----

  /** The typed value in the slots at the front of a buffer. */
  function Read(t: JitType, slots: seq<Word>): Native
    requires Width(t) <= |slots|
  {
    match t
    case U64 | F64 => Num(slots[0])
    case I64 => Num(Signed(slots[0], TWO_TO_64))
    case Bool => Flag(slots[0] != 0)
    case U8 => Num(Unsigned(slots[0], 0x100))
    case U16 | F16 => Num(Unsigned(slots[0], 0x1_0000))
    case U32 | F32 => Num(Unsigned(slots[0], 0x1_0000_0000))
    case I8 => Num(Signed(Signed(slots[0], TWO_TO_64), 0x100))
    case I16 => Num(Signed(Signed(slots[0], TWO_TO_64), 0x1_0000))
    case I32 => Num(Signed(Signed(slots[0], TWO_TO_64), 0x1_0000_0000))
    case U128 => Num(AsU128(Bits128(slots[0], slots[1])))
    case I128 => Num(AsI128(Bits128(slots[0], slots[1])))
    case RegRaw => Whole(Bits128(slots[0], slots[1]))
    case _ => Lanes(View(t, Bits128(slots[0], slots[1])))
  }

  function Limbs(word: Bits128): seq<Word> {
    [word.lo, word.hi]
  }

  /** The slots a typed value is written as. */
  function Write(t: JitType, v: Native): (slots: seq<Word>)
    requires HasType(t, v)
    ensures |slots| == Width(t)
  {
    match t
    case U64 | F64 | U8 | U16 | U32 | F32 | F16 => [v.n]
    case I64 | I8 | I16 | I32 => [Unsigned(v.n, TWO_TO_64)]
    case Bool => [if v.b then 1 else 0]
    case U128 => Limbs(FromU128(v.n))
    case I128 => Limbs(FromI128(v.n))
    case RegRaw => Limbs(v.word)
    case _ => Limbs(Unview(t, v.lanes))
  }

  // ----- Values at the border of the compiled kernels -----

  datatype SlotColor = Imm1 | Imm2 | Ref2

  function Color(ty: PT.PortType): SlotColor {
    match ty
    case U128 | I128 | Reg128 | RegI8x16 | RegI16x8 | RegI32x4 | RegI64x2 | RegF16x8 | RegF32x4 | RegF64x2 => Imm2
    case VecF32 | VecI32 | VecF64 | VecI64 | VecF16 | VecI16 | VecI8 => Ref2
    case Str | Bytes | Json | Ext | Handle | Dyn => Ref2
    case _ => Imm1
  }

  function SlotWidth(ty: PT.PortType): nat {
    if Color(ty).Imm1? then 1 else 2
  }

  /** The value an immediate port's slots stand for. */
  function Decode(ty: PT.PortType, slots: seq<Word>): Value
    requires !Color(ty).Ref2? && SlotWidth(ty) <= |slots|
  {
    match ty
    case F64 => Value.F64(slots[0])
    case Bool => Value.Bool(slots[0] != 0)
    case I64 | I8 | I16 | I32 => SignedIsInt64(slots[0]); Value.I64(Signed(slots[0], TWO_TO_64))
    case U64 | U32 | U16 | U8 | F32 | F16 => Value.U64(slots[0])
    case U128 => Value.U128(Bits128(slots[0], slots[1]))
    case I128 => Value.I128(Bits128(slots[0], slots[1]))
    case Reg128 => Value.Reg128(Bits128(slots[0], slots[1]), Raw)
    case RegI8x16 => Value.Reg128(Bits128(slots[0], slots[1]), I8x16)
    case RegI16x8 => Value.Reg128(Bits128(slots[0], slots[1]), I16x8)
    case RegI32x4 => Value.Reg128(Bits128(slots[0], slots[1]), I32x4)
    case RegI64x2 => Value.Reg128(Bits128(slots[0], slots[1]), I64x2)
    case RegF16x8 => Value.Reg128(Bits128(slots[0], slots[1]), F16x8)
    case RegF32x4 => Value.Reg128(Bits128(slots[0], slots[1]), F32x4)
    case RegF64x2 => Value.Reg128(Bits128(slots[0], slots[1]), F64x2)
  }

  lemma SignedIsInt64(n: int)
    ensures -0x8000_0000_0000_0000 <= Signed(n, TWO_TO_64) < 0x8000_0000_0000_0000
  {
  }

  /** The slots a scalar value rides as; `None` where no scalar slot carries it. */
  function Encode(v: Value): Option<seq<Word>> {
    if v.U64? then Some([v.u])
    else if v.I64? then Some([Unsigned(v.i, TWO_TO_64)])
    else if v.F64? then Some([v.bits])
    else if v.Bool? then Some([if v.flag then 1 else 0])
    else if v.U128? || v.I128? || v.Reg128? then Some(Limbs(v.b))
    else Option.None
  }

  // ----- Laws -----

  function WordOf(lane: Lane, lanes: seq<int>): Bits128
    requires ValidLane(lane) && |lanes| == LaneCount(lane)
  {
    BytesCount(lane, lanes);
    FromLeBytes(BytesOf(lane, lanes))
  }

  /** Half-float lanes are the unsigned two-byte lanes, whatever the way there. */
  lemma HalfView(word: Bits128)
    ensures View(RegF16x8, word) == LanesOf(Lane(2, false), ToLeBytes(word))
  {
    UnsignedLanes(ToLeBytes(word));
  }

  lemma HalfUnview(lanes: seq<int>)
    requires Fills(Lane(2, false), lanes)
    ensures Unview(RegF16x8, lanes) == WordOf(Lane(2, false), lanes)
  {
    UnsignedBytes(lanes);
    BytesCount(Lane(2, false), lanes);
  }

  lemma {:induction false} UnsignedLanes(bytes: seq<Byte>)
    ensures Each(TO_U16, LanesOf(Lane(2, true), bytes)) == LanesOf(Lane(2, false), bytes)
    decreases |bytes|
  {
    if |bytes| >= 2 {
      UnsignedLanes(bytes[2..]);
      Pow256Of16();
      CastsInvert(FromLe(bytes[..2]), 0x1_0000);
      hide FromLe, Signed;
      assert LanesOf(Lane(2, true), bytes)[1..] == LanesOf(Lane(2, true), bytes[2..]);
      assert LanesOf(Lane(2, false), bytes)[1..] == LanesOf(Lane(2, false), bytes[2..]);
    }
  }

  lemma {:induction false} UnsignedBytes(lanes: seq<int>)
    requires forall i :: 0 <= i < |lanes| ==> InLane(Lane(2, false), lanes[i])
    ensures BytesOf(Lane(2, true), Each(TO_I16, lanes)) == BytesOf(Lane(2, false), lanes)
  {
    if lanes != [] {
      UnsignedBytes(lanes[1..]);
      assert Each(TO_I16, lanes)[1..] == Each(TO_I16, lanes[1..]);
      Pow256Of16();
      CastsInvert(lanes[0], 0x1_0000);
      assert InLane(Lane(2, false), lanes[0]);
      Remainder(lanes[0], 0x1_0000, 0, lanes[0]);
    }
  }

  lemma LanesInvert(lane: Lane, word: Bits128, lanes: seq<int>)
    requires ValidLane(lane)
    ensures var view := LanesOf(lane, ToLeBytes(word)); Fills(lane, view) && WordOf(lane, view) == word
    ensures Fills(lane, lanes) ==> LanesOf(lane, ToLeBytes(WordOf(lane, lanes))) == lanes
  {
    ViewsAreBijections(lane, word, lanes);
    hide LanesOf, BytesOf, ToLeBytes, FromLeBytes, InLane, LaneCount, ValidLane;
  }

  /** Views and words determine each other, for every lane type. */
  lemma ViewInverts(t: JitType, word: Bits128)
    requires LaneTyped(t)
    ensures Fills(Element(t), View(t, word)) && Unview(t, View(t, word)) == word
  {
    LanesInvert(Element(t), word, []);
    if t.RegF16x8? {
      HalfView(word);
      HalfUnview(View(t, word));
    }
    hide LanesOf, BytesOf, ToLeBytes, FromLeBytes, Fills;
  }

  lemma UnviewInverts(t: JitType, lanes: seq<int>)
    requires LaneTyped(t) && Fills(Element(t), lanes)
    ensures View(t, Unview(t, lanes)) == lanes
  {
    LanesInvert(Element(t), Bits128(0, 0), lanes);
    if t.RegF16x8? {
      HalfUnview(lanes);
      HalfView(Unview(t, lanes));
    }
    hide LanesOf, BytesOf, ToLeBytes, FromLeBytes, Fills;
  }

  lemma PortShape(t: JitType)
    ensures !Color(Port(t)).Ref2? && SlotWidth(Port(t)) == Width(t)
  {
  }

  lemma ReadHasType(t: JitType, slots: seq<Word>)
    requires Width(t) <= |slots|
    ensures HasType(t, Read(t, slots))
  {
    if Width(t) == 2 {
      WideHasType(t, slots);
    } else {
      NarrowHasType(t, slots);
    }
    hide Read, HasType;
  }

  lemma WideHasType(t: JitType, slots: seq<Word>)
    requires Width(t) == 2 && |slots| >= 2
    ensures HasType(t, Read(t, slots))
  {
    if LaneTyped(t) {
      LanesHaveType(t, slots);
    } else {
      LimbsInvert(Bits128(slots[0], slots[1]), 0);
      hide AsU128, AsI128, Fills, View, Element;
    }
  }

  lemma LanesHaveType(t: JitType, slots: seq<Word>)
    requires LaneTyped(t) && |slots| >= 2
    ensures HasType(t, Read(t, slots))
  {
    ViewInverts(t, Bits128(slots[0], slots[1]));
    hide Fills, View, Element;
  }

  lemma NarrowHasType(t: JitType, slots: seq<Word>)
    requires Width(t) == 1 && |slots| >= 1
    ensures HasType(t, Read(t, slots))
  {
    var n := Signed(slots[0], TWO_TO_64);
    CastsInvert(slots[0], TWO_TO_64);
    CastsInvert(n, 0x100);
    CastsInvert(n, 0x1_0000);
    CastsInvert(n, 0x1_0000_0000);
    hide Signed, Unsigned, Fills, View;
  }

  /** Reading a slot is extracting from the value the slot stands for, on every bit pattern. */
  lemma ReadIsExtract(t: JitType, slots: seq<Word>)
    requires Width(t) <= |slots|
    ensures !Color(Port(t)).Ref2? && SlotWidth(Port(t)) == Width(t)
    ensures Extract(t, Decode(Port(t), slots)) == Some(Read(t, slots))
    ensures HasType(t, Read(t, slots))
  {
    ReadHasType(t, slots);
    PortShape(t);
    if Width(t) == 1 {
      ReadIsExtractNarrow(t, slots);
    } else {
      ReadIsExtractWide(t, slots);
    }
    hide Read, Extract, Decode, Port, Color, HasType;
  }

  lemma ReadIsExtractNarrow(t: JitType, slots: seq<Word>)
    requires Width(t) == 1 <= |slots| && !Color(Port(t)).Ref2? && SlotWidth(Port(t)) == 1
    ensures Extract(t, Decode(Port(t), slots)) == Some(Read(t, slots))
  {
    hide Signed, Unsigned, Color, SlotWidth;
  }

  lemma ReadIsExtractWide(t: JitType, slots: seq<Word>)
    requires Width(t) == 2 <= |slots| && !Color(Port(t)).Ref2? && SlotWidth(Port(t)) == 2
    ensures Extract(t, Decode(Port(t), slots)) == Some(Read(t, slots))
  {
    hide AsU128, AsI128, View, Color, SlotWidth;
  }

  /** Writing a typed value and reading it back gives the value, sign and all. */
  lemma ReadInvertsWrite(t: JitType, v: Native)
    requires HasType(t, v)
    ensures Read(t, Write(t, v)) == v
  {
    if LaneTyped(t) {
      UnviewInverts(t, v.lanes);
      hide View, Unview, Fills;
    } else if Width(t) == 2 && v.Num? {
      LimbsInvert(Bits128(0, 0), v.n);
      hide FromU128, FromI128, AsU128, AsI128;
    } else if v.Num? {
      NarrowInverts(t, v.n);
    }
  }

  lemma NarrowInverts(t: JitType, n: int)
    requires Width(t) == 1 && HasType(t, Num(n))
    ensures Read(t, Write(t, Num(n))) == Num(n)
  {
    CastsInvert(n, TWO_TO_64);
    CastsInvert(n, 0x1_0000_0000);
    CastsInvert(n, 0x1_0000);
    CastsInvert(n, 0x100);
    SmallSigned(n, 0x1_0000_0000);
    SmallSigned(n, 0x1_0000);
    SmallSigned(n, 0x100);
    hide Signed, Unsigned;
  }

  /** A cast to a type that holds the number changes nothing. */
  lemma SmallSigned(n: int, modulus: int)
    requires modulus > 0 && modulus % 2 == 0
    ensures -(modulus / 2) <= n < modulus / 2 ==> Signed(n, modulus) == n
    ensures 0 <= n < modulus ==> Unsigned(n, modulus) == n
  {
    if 0 <= n < modulus {
      Remainder(n, modulus, 0, n);
    } else if -(modulus / 2) <= n < 0 {
      Remainder(n, modulus, -1, n + modulus);
    }
  }

  /** The slots written are the slots of the injected value, and a host that pulls them sees that value. */
  lemma WriteIsInject(t: JitType, v: Native)
    requires HasType(t, v)
    ensures Encode(Inject(t, v)) == Some(Write(t, v))
    ensures !Color(Port(t)).Ref2? && SlotWidth(Port(t)) == Width(t)
    ensures Decode(Port(t), Write(t, v)) == Inject(t, v)
  {
    PortShape(t);
    if Width(t) == 1 {
      WriteIsInjectNarrow(t, v);
    } else {
      WriteIsInjectWide(t, v);
    }
    hide Write, Inject, Decode, Encode, Port, Color, HasType;
  }

  lemma WriteIsInjectNarrow(t: JitType, v: Native)
    requires HasType(t, v) && Width(t) == 1 && !Color(Port(t)).Ref2? && SlotWidth(Port(t)) == 1
    ensures Encode(Inject(t, v)) == Some(Write(t, v))
    ensures Decode(Port(t), Write(t, v)) == Inject(t, v)
  {
    if v.Num? {
      CastsInvert(v.n, TWO_TO_64);
    }
    hide Color, SlotWidth, Signed, Unsigned;
  }

  lemma WriteIsInjectWide(t: JitType, v: Native)
    requires HasType(t, v) && Width(t) == 2 && !Color(Port(t)).Ref2? && SlotWidth(Port(t)) == 2
    ensures Encode(Inject(t, v)) == Some(Write(t, v))
    ensures Decode(Port(t), Write(t, v)) == Inject(t, v)
  {
    hide Color, SlotWidth, FromU128, FromI128, Unview, Fills;
  }

  /** On the interpreter alone a typed value survives its wire. */
  lemma ExtractInvertsInject(t: JitType, v: Native)
    requires HasType(t, v)
    ensures Extract(t, Inject(t, v)) == Some(v)
  {
    WriteIsInject(t, v);
    ReadInvertsWrite(t, v);
    ReadIsExtract(t, Write(t, v));
    hide Inject, Extract, Read, Write, Decode, HasType;
  }
}
