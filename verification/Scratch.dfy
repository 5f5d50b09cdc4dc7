/**
 * Step-owned scratch and the writes into it: a by-reference output is a
 * (pointer, length) pair into an entry of the step's own, and filling an entry
 * may move its buffer.
 */
module Scratches {
  import opened Carriers
  import opened Registers
  import opened Words
  import opened Wrappers
  import PT = PortTypes

  datatype ScratchElem = F32 | F64 | F16 | I8 | I16 | I32 | I64 | Str | Bytes | Value

  function VectorValue(elem: ScratchElem, elems: seq<int>): Carriers.Value
    requires Vector(elem)
  {
    match elem
    case F32 => VecF32(elems)
    case F64 => VecF64(elems)
    case F16 => VecF16(elems)
    case I8 => VecI8(elems)
    case I16 => VecI16(elems)
    case I32 => VecI32(elems)
    case I64 => VecI64(elems)
  }

  predicate Vector(elem: ScratchElem) {
    !elem.Str? && !elem.Bytes? && !elem.Value?
  }

  /** What an entry holds, as its variant keeps it. */
  datatype Content = Numbers(elems: seq<int>) | Chars(bytes: seq<Byte>) | Held(values: seq<Carriers.Value>)

  predicate Suits(elem: ScratchElem, content: Content) {
    if Vector(elem) then content.Numbers? else if elem.Value? then content.Held? && |content.values| <= 1 else content.Chars?
  }

  function Count(content: Content): nat {
    match content
    case Numbers(elems) => |elems|
    case Chars(bytes) => |bytes|
    case Held(values) => |values|
  }

  /** An entry's content as an owned value; a value entry that holds nothing reads as `None`. */
  function ContentValue(elem: ScratchElem, content: Content): Carriers.Value
    requires Suits(elem, content)
  {
    match elem
    case Str => Carriers.Value.Str(content.bytes)
    case Bytes => Carriers.Value.Bytes(content.bytes)
    case Value => if content.values == [] then Carriers.Value.None else content.values[0]
    case _ => VectorValue(elem, content.elems)
  }

  /** The content an entry takes from a value; `None` where the source panics. */
  function ContentOf(elem: ScratchElem, v: Carriers.Value): (r: Option<Content>)
    ensures r.Some? ==> Suits(elem, r.value) && ContentValue(elem, r.value) == v
  {
    match elem
    case Str => if v.Str? then Some(Chars(v.text)) else Option.None
    case Bytes => if v.Bytes? then Some(Chars(v.bytes)) else Option.None
    case Value => Some(Held([v]))
    case F32 => if v.VecF32? then Some(Numbers(v.elems)) else Option.None
    case F64 => if v.VecF64? then Some(Numbers(v.elems)) else Option.None
    case F16 => if v.VecF16? then Some(Numbers(v.elems)) else Option.None
    case I8 => if v.VecI8? then Some(Numbers(v.elems)) else Option.None
    case I16 => if v.VecI16? then Some(Numbers(v.elems)) else Option.None
    case I32 => if v.VecI32? then Some(Numbers(v.elems)) else Option.None
    case I64 => if v.VecI64? then Some(Numbers(v.elems)) else Option.None
  }

  /** One kernel-owned scratch buffer, rewritten in place. */
  class ScratchBuf {
    const elem: ScratchElem
    var content: Content
    var address: Word

    ghost predicate Valid()
      reads this
    {
      Suits(elem, content) && Count(content) < TWO_TO_64
    }

    /** The pair this entry currently publishes. */
    function PtrLen(): (Word, Word)
      reads this
      requires Valid()
    {
      var len: Word := Count(content);
      (address, len)
    }

    function ToValue(): Carriers.Value
      reads this
      requires Valid()
    {
      ContentValue(elem, content)
    }

    constructor (elem: ScratchElem)
      ensures Valid() && this.elem == elem && Count(content) == 0
    {
      this.elem := elem;
      content := if Vector(elem) then Numbers([]) else if elem.Value? then Held([]) else Chars([]);
    }

    /** Clear and refill: the new content may not fit the old allocation, and then the buffer moves. */
    method Refill(filled: Content)
      requires Valid() && Suits(elem, filled) && Count(filled) < TWO_TO_64
      modifies this
      ensures Valid() && content == filled
    {
      content := filled;
      address := *;
    }

    /** The setters by kind refuse an entry of another kind, and change nothing then. */
    method SetFromValue(v: Carriers.Value) returns (panicked: bool)
      requires Valid() && (ContentOf(elem, v).Some? ==> Count(ContentOf(elem, v).value) < TWO_TO_64)
      modifies this
      ensures Valid() && (panicked <==> ContentOf(elem, v).None?)
      ensures if panicked then content == old(content) && address == old(address) else ToValue() == v
    {
      var filled := ContentOf(elem, v);
      if filled.None? {
        return true;
      }
      Refill(filled.value);
      return false;
    }

    /** A value held by reference that may be absent: an absent one empties the entry, whose pair then has length zero. */
    method SetRefValue(v: Carriers.Value)
      requires Valid() && elem.Value?
      modifies this
      ensures Valid() && ToValue() == v
      ensures content == Held(if v == Carriers.Value.None then [] else [v])
      ensures PtrLen().1 == 0 <==> v == Carriers.Value.None
    {
      Refill(if v == Carriers.Value.None then Held([]) else Held([v]));
    }
  }

  // ----- Elements of a return -----

  /** One element of a return: a carrier, or a kind that takes a scratch entry of its own. */
  datatype SlotElem =
    | Jit(t: JitType)
    | Vec(elem: ScratchElem)
    | VecShared(elem: ScratchElem)
    | Text
    | Blob
    | Json
    | Ext
    | HandleArc
    | HandleWire

  /** What the body returned for one element. */
  datatype Outcome =
    | Scalar(v: Native)
    | Elements(elems: seq<int>)
    | Octets(bytes: seq<Byte>)
    | Shared(payload: Payload)
    | Wire(value: Carriers.Value)

  function ScratchFor(e: SlotElem): ScratchElem
    requires !e.Jit?
  {
    match e
    case Vec(elem) => elem
    case VecShared(elem) => elem
    case Text => ScratchElem.Str
    case Blob => ScratchElem.Bytes
    case _ => ScratchElem.Value
  }

  ghost predicate Returned(e: SlotElem, r: Outcome) {
    match e
    case Jit(t) => r.Scalar? && HasType(t, r.v)
    case Vec(elem) => Vector(elem) && r.Elements? && |r.elems| < TWO_TO_64
    case VecShared(elem) => Vector(elem) && r.Elements? && |r.elems| < TWO_TO_64
    case Text | Blob => r.Octets? && |r.bytes| < TWO_TO_64
    case Json | Ext | HandleArc => r.Shared?
    case HandleWire => r.Wire? && (r.value.Handle? || r.value == Carriers.Value.None)
  }

  /** The value the interpreter form puts on the output. */
  function Output(e: SlotElem, r: Outcome): Carriers.Value
    requires Returned(e, r)
  {
    match e
    case Jit(t) => Inject(t, r.v)
    case Vec(elem) => VectorValue(elem, r.elems)
    case VecShared(elem) => VectorValue(elem, r.elems)
    case Text => Carriers.Value.Str(r.bytes)
    case Blob => Carriers.Value.Bytes(r.bytes)
    case Json => Carriers.Value.Json(r.payload)
    case Ext => Carriers.Value.Ext(r.payload)
    case HandleArc => Carriers.Value.Handle(r.payload)
    case HandleWire => r.value
  }

  /** What a reader of an output's value makes of it, by the kind the output was declared: the body's result back. */
  function ReadBack(e: SlotElem, v: Carriers.Value): Option<Outcome> {
    match e
    case Jit(t) => var x := Extract(t, v); if x.Some? then Some(Scalar(x.value)) else Option.None
    case Vec(elem) => if Vector(elem) && ContentOf(elem, v).Some? then Some(Elements(ContentOf(elem, v).value.elems)) else Option.None
    case VecShared(elem) => if Vector(elem) && ContentOf(elem, v).Some? then Some(Elements(ContentOf(elem, v).value.elems)) else Option.None
    case Text => if v.Str? then Some(Octets(v.text)) else Option.None
    case Blob => if v.Bytes? then Some(Octets(v.bytes)) else Option.None
    case Json => if v.Json? then Some(Shared(v.payload)) else Option.None
    case Ext => if v.Ext? then Some(Shared(v.payload)) else Option.None
    case HandleArc => if v.Handle? then Some(Shared(v.payload)) else Option.None
    case HandleWire => Some(Wire(v))
  }

  /** The port type an output is declared with. */
  function DeclaredPort(e: SlotElem): PT.PortType {
    match e
    case Jit(t) => Port(t)
    case Vec(elem) => VectorPort(elem)
    case VecShared(elem) => VectorPort(elem)
    case Text => PT.Str
    case Blob => PT.Bytes
    case Json => PT.Json
    case Ext => PT.Ext
    case HandleArc => PT.Handle
    case HandleWire => PT.Handle
  }

  function VectorPort(elem: ScratchElem): PT.PortType {
    match elem
    case F32 => PT.VecF32
    case F64 => PT.VecF64
    case F16 => PT.VecF16
    case I8 => PT.VecI8
    case I16 => PT.VecI16
    case I32 => PT.VecI32
    case I64 => PT.VecI64
    case Str => PT.Str
    case Bytes => PT.Bytes
    case Value => PT.Dyn
  }

  /** An output is of its declared port's type, and a reader of that type gets the body's result from it. */
  lemma OutputReadsBack(e: SlotElem, r: Outcome)
    requires Returned(e, r)
    ensures ReadBack(e, Output(e, r)) == Some(r)
    ensures Output(e, r) != Carriers.Value.None ==> PortTypeOf(Output(e, r)) == CarrierPort(DeclaredPort(e))
  {
    if e.Jit? {
      ExtractInvertsInject(e.t, r.v);
      InjectedPort(e.t, r.v);
    }
    hide Extract, Inject, HasType;
  }

  lemma InjectedPort(t: JitType, v: Native)
    requires HasType(t, v)
    ensures PortTypeOf(Inject(t, v)) == CarrierPort(Port(t)) && !Inject(t, v).None?
  {
    hide HasType, Unview, FromU128, FromI128;
    if LaneTyped(t) {
      InjectedLanes(t, v);
    }
  }

  lemma InjectedLanes(t: JitType, v: Native)
    requires HasType(t, v) && LaneTyped(t)
    ensures PortTypeOf(Inject(t, v)) == CarrierPort(Port(t)) && !Inject(t, v).None?
  {
    hide Unview, FromU128, FromI128, Fills, Element, HasType;
    LanesAreLanes(t, v);
  }

  lemma LanesAreLanes(t: JitType, v: Native)
    requires HasType(t, v) && LaneTyped(t)
    ensures v.Lanes? && |v.lanes| == LaneCount(Element(t))
  {
  }

  // ----- Layout of a return: slots in order, scratch entries in order -----

  /** The room an element takes: slots of its own, or a pair and an entry. */
  datatype Shape = Slots(count: nat) | Pair(elem: ScratchElem)

  /** What is written there. */
  datatype Piece = Bits(slots: seq<Word>) | Filling(content: Content)

  predicate Fits(shape: Shape, piece: Piece) {
    match shape
    case Slots(count) => piece.Bits? && 1 <= |piece.slots| == count <= 2
    case Pair(elem) => piece.Filling? && Suits(elem, piece.content) && Count(piece.content) < TWO_TO_64
  }

  function ShapeOf(e: SlotElem): Shape {
    if e.Jit? then Slots(Width(e.t)) else Pair(ScratchFor(e))
  }

  function PieceOf(e: SlotElem, r: Outcome): Piece
    requires Returned(e, r)
  {
    match e
    case Jit(t) => Bits(Write(t, r.v))
    case Vec(_) => Filling(Numbers(r.elems))
    case VecShared(_) => Filling(Numbers(r.elems))
    case Text | Blob => Filling(Chars(r.bytes))
    case HandleWire => Filling(Held(if r.value == Carriers.Value.None then [] else [r.value]))
    case _ => Filling(Held([Output(e, r)]))
  }

  /** An element's piece fits its shape, and a by-reference one holds the value the interpreter puts out. */
  lemma PieceMeans(e: SlotElem, r: Outcome)
    requires Returned(e, r)
    ensures Fits(ShapeOf(e), PieceOf(e, r))
    ensures !e.Jit? ==> ContentValue(ScratchFor(e), PieceOf(e, r).content) == Output(e, r)
  {
  }

  function ShapeWidth(shape: Shape): nat {
    if shape.Slots? then shape.count else 2
  }

  function SlotAt(shapes: seq<Shape>, j: nat): nat
    requires j <= |shapes|
  {
    if j == 0 then 0 else SlotAt(shapes, j - 1) + ShapeWidth(shapes[j - 1])
  }

  function EntryAt(shapes: seq<Shape>, j: nat): nat
    requires j <= |shapes|
  {
    if j == 0 then 0 else EntryAt(shapes, j - 1) + (if shapes[j - 1].Pair? then 1 else 0)
  }

  /** The entries a return owns, in port order. */
  function ScratchLayout(shapes: seq<Shape>): seq<ScratchElem> {
    if shapes == [] then []
    else (if shapes[0].Pair? then [shapes[0].elem] else []) + ScratchLayout(shapes[1..])
  }

  lemma {:induction false} EntryOfTail(shapes: seq<Shape>, j: nat)
    requires 0 < j <= |shapes|
    ensures EntryAt(shapes, j) == (if shapes[0].Pair? then 1 else 0) + EntryAt(shapes[1..], j - 1)
  {
    if j > 1 {
      EntryOfTail(shapes, j - 1);
      assert shapes[1..][j - 2] == shapes[j - 1];
    }
  }

  /** The layout the kit declares has, for each by-reference element, its own entry of its own kind. */
  lemma {:induction false} LayoutHasEntry(shapes: seq<Shape>, j: nat)
    requires j < |shapes| && shapes[j].Pair?
    ensures EntryAt(shapes, j) < |ScratchLayout(shapes)|
    ensures ScratchLayout(shapes)[EntryAt(shapes, j)] == shapes[j].elem
  {
    if j > 0 {
      LayoutHasEntry(shapes[1..], j - 1);
      EntryOfTail(shapes, j);
    }
  }

  /** No two elements share a slot, and no two by-reference elements share an entry. */
  lemma {:induction false} LayoutIsDisjoint(shapes: seq<Shape>, i: nat, j: nat)
    requires i < j <= |shapes|
    ensures SlotAt(shapes, i) + ShapeWidth(shapes[i]) <= SlotAt(shapes, j)
    ensures shapes[i].Pair? ==> EntryAt(shapes, i) < EntryAt(shapes, j)
  {
    if i < j - 1 {
      LayoutIsDisjoint(shapes, i, j - 1);
    }
  }

  // ----- What a finished write leaves -----

  /** The scratch a kernel hands the closure: one entry for each one declared, no entry twice. */
  ghost predicate Owned(layout: seq<ScratchElem>, scratch: seq<ScratchBuf>) {
    && |scratch| == |layout|
    && (forall k :: 0 <= k < |scratch| ==> scratch[k].elem == layout[k])
    && (forall k, l :: 0 <= k < l < |scratch| ==> scratch[k] != scratch[l])
  }

  ghost predicate AllValid(scratch: seq<ScratchBuf>)
    reads scratch
  {
    forall k :: 0 <= k < |scratch| ==> scratch[k].Valid()
  }

  /** What an entry publishes and holds at one moment. */
  datatype Entry = Entry(pair: (Word, Word), content: Content)

  ghost function EntryOf(entry: ScratchBuf): Entry
    requires entry.Valid()
    reads entry
  {
    Entry(entry.PtrLen(), entry.content)
  }

  ghost function Entries(scratch: seq<ScratchBuf>): (r: seq<Entry>)
    requires AllValid(scratch)
    reads scratch
    ensures |r| == |scratch|
    ensures forall k :: 0 <= k < |r| ==> r[k] == EntryOf(scratch[k])
  {
    if scratch == [] then [] else [EntryOf(scratch[0])] + Entries(scratch[1..])
  }

  /** A piece stands at slot `at`: as its bits, or as the pair that entry `k` publishes now over the piece's content. */
  ghost predicate Stands(piece: Piece, at: nat, k: nat, slots: seq<Word>, entries: seq<Entry>) {
    match piece
    case Bits(bits) => at + |bits| <= |slots| && slots[at..at + |bits|] == bits
    case Filling(content) =>
      && at + 2 <= |slots| && k < |entries|
      && entries[k] == Entry((slots[at], slots[at + 1]), content)
  }

  ghost predicate AllFit(shapes: seq<Shape>, pieces: seq<Piece>) {
    |pieces| == |shapes| && forall j :: 0 <= j < |shapes| ==> Fits(shapes[j], pieces[j])
  }

  /** The first `n` pieces stand. */
  ghost predicate AllStand(shapes: seq<Shape>, pieces: seq<Piece>, n: nat, slots: seq<Word>, entries: seq<Entry>)
    requires n <= |shapes| == |pieces|
  {
    forall j :: 0 <= j < n ==> Stands(pieces[j], SlotAt(shapes, j), EntryAt(shapes, j), slots, entries)
  }

  /** A write past a piece's slots, into another entry than its own, leaves the piece standing. */
  lemma StillStands(piece: Piece, at: nat, k: nat, end: nat, next: nat, was: seq<Word>, now: seq<Word>, before: seq<Entry>, after: seq<Entry>)
    requires Stands(piece, at, k, was, before)
    requires at + (if piece.Bits? then |piece.slots| else 2) <= end && (piece.Filling? ==> k < next)
    requires |now| == |was| && forall s :: 0 <= s < end && s < |was| ==> now[s] == was[s]
    requires |after| == |before| && forall l :: 0 <= l < next && l < |before| ==> after[l] == before[l]
    ensures Stands(piece, at, k, now, after)
  {
    if piece.Bits? {
      assert now[at..at + |piece.slots|] == was[at..at + |piece.slots|];
    }
  }

  /** The write of piece `i` reached its own slots and its own entry, so all before it stand as they did. */
  lemma AllStandNext(shapes: seq<Shape>, pieces: seq<Piece>, i: nat, was: seq<Word>, now: seq<Word>, before: seq<Entry>, after: seq<Entry>)
    requires AllFit(shapes, pieces) && i < |shapes|
    requires AllStand(shapes, pieces, i, was, before)
    requires Stands(pieces[i], SlotAt(shapes, i), EntryAt(shapes, i), now, after)
    requires |now| == |was| && forall s :: 0 <= s < SlotAt(shapes, i) && s < |was| ==> now[s] == was[s]
    requires |after| == |before| && forall l :: 0 <= l < EntryAt(shapes, i) && l < |before| ==> after[l] == before[l]
    ensures AllStand(shapes, pieces, i + 1, now, after)
  {
    hide Stands, SlotAt, EntryAt, Suits, Count;
    forall j | 0 <= j < i ensures Stands(pieces[j], SlotAt(shapes, j), EntryAt(shapes, j), now, after) {
      LayoutIsDisjoint(shapes, j, i);
      assert Fits(shapes[j], pieces[j]);
      StillStands(pieces[j], SlotAt(shapes, j), EntryAt(shapes, j), SlotAt(shapes, i), EntryAt(shapes, i), was, now, before, after);
    }
  }

  // ----- The writes -----

  /** The write of one by-reference element into its entry. */
  method Fill(e: SlotElem, r: Outcome, entry: ScratchBuf)
    requires !e.Jit? && Returned(e, r) && entry.Valid() && entry.elem == ScratchFor(e)
    modifies entry
    ensures entry.Valid() && entry.content == PieceOf(e, r).content
  {
    if e.HandleWire? {
      entry.SetRefValue(r.value);
    } else if e.Vec? || e.VecShared? {
      entry.Refill(Numbers(r.elems));
    } else if e.Text? || e.Blob? {
      entry.Refill(Chars(r.bytes));
    } else {
      entry.Refill(Held([Output(e, r)]));
    }
  }

  /** The entry a write fills, if any. */
  ghost function Filled(e: SlotElem, k: nat, scratch: seq<ScratchBuf>): (entries: set<ScratchBuf>)
    ensures forall entry :: entry in entries ==> entry in scratch
  {
    if !e.Jit? && k < |scratch| then {scratch[k]} else {}
  }

  /** The write of one element: a carrier as its bits, a by-reference kind into entry `k` with its pair published. */
  method WriteElem(e: SlotElem, r: Outcome, k: nat, o: nat, outputs: array<Word>, scratch: seq<ScratchBuf>)
    requires Returned(e, r) && o + ShapeWidth(ShapeOf(e)) <= outputs.Length
    requires AllValid(scratch)
    requires !e.Jit? ==> k < |scratch| && scratch[k].elem == ScratchFor(e)
    modifies outputs, Filled(e, k, scratch)
    ensures AllValid(scratch)
    ensures Stands(PieceOf(e, r), o, k, outputs[..], Entries(scratch))
    ensures forall s :: 0 <= s < outputs.Length && !(o <= s < o + ShapeWidth(ShapeOf(e))) ==> outputs[s] == old(outputs[s])
    ensures forall l :: 0 <= l < |scratch| && (e.Jit? || scratch[l] != scratch[k]) ==> Entries(scratch)[l] == old(Entries(scratch))[l]
  {
    if e.Jit? {
      var slots := Write(e.t, r.v);
      outputs[o] := slots[0];
      if |slots| == 2 {
        outputs[o + 1] := slots[1];
      }
      hide Write;
      assert outputs[..][o..o + |slots|] == slots;
    } else {
      Fill(e, r, scratch[k]);
      var pair := scratch[k].PtrLen();
      outputs[o] := pair.0;
      outputs[o + 1] := pair.1;
      assert Entries(scratch)[k] == EntryOf(scratch[k]);
    }
  }

  function Shapes(elems: seq<SlotElem>): (shapes: seq<Shape>)
    ensures |shapes| == |elems| && forall j :: 0 <= j < |elems| ==> shapes[j] == ShapeOf(elems[j])
  {
    seq(|elems|, j requires 0 <= j < |elems| => ShapeOf(elems[j]))
  }

  ghost predicate AllReturned(elems: seq<SlotElem>, results: seq<Outcome>) {
    |results| == |elems| && forall j :: 0 <= j < |elems| ==> Returned(elems[j], results[j])
  }

  ghost function Pieces(elems: seq<SlotElem>, results: seq<Outcome>): (pieces: seq<Piece>)
    requires AllReturned(elems, results)
    ensures |pieces| == |elems| && forall j :: 0 <= j < |elems| ==> pieces[j] == PieceOf(elems[j], results[j])
  {
    seq(|elems|, j requires 0 <= j < |elems| => PieceOf(elems[j], results[j]))
  }

  lemma PiecesFit(elems: seq<SlotElem>, results: seq<Outcome>)
    requires AllReturned(elems, results)
    ensures AllFit(Shapes(elems), Pieces(elems, results))
  {
    forall j | 0 <= j < |elems| ensures Fits(Shapes(elems)[j], Pieces(elems, results)[j]) {
      PieceMeans(elems[j], results[j]);
    }
  }

  /** The slots a return takes. */
  function Room(elems: seq<SlotElem>): nat {
    SlotAt(Shapes(elems), |elems|)
  }

  /** The scratch entries a return declares. */
  function Declared(elems: seq<SlotElem>): seq<ScratchElem> {
    ScratchLayout(Shapes(elems))
  }

  /** Every element of a result stands in the slots and the entries. */
  ghost predicate AllWritten(elems: seq<SlotElem>, results: seq<Outcome>, slots: seq<Word>, entries: seq<Entry>)
    requires AllReturned(elems, results)
  {
    AllStand(Shapes(elems), Pieces(elems, results), |elems|, slots, entries)
  }

  /** What the write of element `i` may touch: its own slots, and no earlier element's entry. */
  lemma OwnEntry(elems: seq<SlotElem>, results: seq<Outcome>, i: nat, scratch: seq<ScratchBuf>)
    requires AllReturned(elems, results)
    requires i < |elems| && Owned(ScratchLayout(Shapes(elems)), scratch)
    ensures SlotAt(Shapes(elems), i) + ShapeWidth(ShapeOf(elems[i])) <= SlotAt(Shapes(elems), |elems|)
    ensures |results| == |elems| && Returned(elems[i], results[i])
    ensures !elems[i].Jit? ==>
      var k := EntryAt(Shapes(elems), i);
      && k < |scratch| && scratch[k].elem == ScratchFor(elems[i])
      && forall l :: 0 <= l < k ==> scratch[l] != scratch[k]
  {
    LayoutIsDisjoint(Shapes(elems), i, |elems|);
    if !elems[i].Jit? {
      LayoutHasEntry(Shapes(elems), i);
    }
  }

  lemma NextOffsets(shapes: seq<Shape>, i: nat)
    requires i < |shapes|
    ensures SlotAt(shapes, i + 1) == SlotAt(shapes, i) + ShapeWidth(shapes[i])
    ensures EntryAt(shapes, i + 1) == EntryAt(shapes, i) + (if shapes[i].Pair? then 1 else 0)
    ensures SlotAt(shapes, i + 1) <= SlotAt(shapes, |shapes|)
  {
    LayoutIsDisjoint(shapes, i, |shapes|);
  }

  /** One more element written: it stands, and so do all before it. */
  method WriteNext(elems: seq<SlotElem>, results: seq<Outcome>, i: nat, k: nat, o: nat, outputs: array<Word>, scratch: seq<ScratchBuf>,
      ghost shapes: seq<Shape>, ghost pieces: seq<Piece>)
    requires AllReturned(elems, results) && shapes == Shapes(elems) && pieces == Pieces(elems, results)
    requires i < |elems| && k == EntryAt(shapes, i) && o == SlotAt(shapes, i)
    requires Owned(ScratchLayout(shapes), scratch) && AllValid(scratch) && SlotAt(shapes, |elems|) <= outputs.Length
    requires AllStand(shapes, pieces, i, outputs[..], Entries(scratch))
    modifies outputs, scratch
    ensures AllValid(scratch)
    ensures AllStand(shapes, pieces, i + 1, outputs[..], Entries(scratch))
    ensures forall s :: o + ShapeWidth(shapes[i]) <= s < outputs.Length ==> outputs[s] == old(outputs[s])
  {
    hide *;
    OwnEntry(elems, results, i, scratch);
    PiecesFit(elems, results);
    ghost var was, before := outputs[..], Entries(scratch);
    WriteElem(elems[i], results[i], k, o, outputs, scratch);
    AllStandNext(shapes, pieces, i, was, outputs[..], before, Entries(scratch));
  }

  /**
   * The writes of a result, element by element: `k` is the next scratch entry
   * and `o` the next slot. Filling an entry may move its buffer, so what
   * matters is that every pair still matches its entry when all are written.
   */
  method WriteResult(elems: seq<SlotElem>, results: seq<Outcome>, outputs: array<Word>, scratch: seq<ScratchBuf>)
    requires AllReturned(elems, results)
    requires Owned(Declared(elems), scratch) && AllValid(scratch) && Room(elems) <= outputs.Length
    modifies outputs, scratch
    ensures AllValid(scratch)
    ensures AllWritten(elems, results, outputs[..], Entries(scratch))
    ensures outputs[Room(elems)..] == old(outputs[Room(elems)..])
  {
    hide *;
    ghost var shapes, pieces := Shapes(elems), Pieces(elems, results);
    ShapesOfReturn(elems);
    var k: nat, o: nat, i: nat := 0, 0, 0;
    NothingStands(shapes, pieces, outputs[..], Entries(scratch));
    while i < |elems|
      invariant i <= |elems| && k == EntryAt(shapes, i) && o == SlotAt(shapes, i) <= outputs.Length
      invariant AllValid(scratch)
      invariant AllStand(shapes, pieces, i, outputs[..], Entries(scratch))
      invariant forall s :: o <= s < outputs.Length ==> outputs[s] == old(outputs[s])
    {
      WriteNext(elems, results, i, k, o, outputs, scratch, shapes, pieces);
      NextOffsets(shapes, i);
      if !elems[i].Jit? {
        k := k + 1;
      }
      o := o + ShapeWidth(ShapeOf(elems[i]));
      i := i + 1;
    }
    AllAreWritten(elems, results, outputs[..], Entries(scratch));
  }

  lemma AllAreWritten(elems: seq<SlotElem>, results: seq<Outcome>, slots: seq<Word>, entries: seq<Entry>)
    requires AllReturned(elems, results) && AllStand(Shapes(elems), Pieces(elems, results), |elems|, slots, entries)
    ensures AllWritten(elems, results, slots, entries)
  {
  }

  lemma ShapesOfReturn(elems: seq<SlotElem>)
    ensures Room(elems) == SlotAt(Shapes(elems), |elems|) && Declared(elems) == ScratchLayout(Shapes(elems))
    ensures forall i :: 0 <= i < |elems| ==> Shapes(elems)[i] == ShapeOf(elems[i]) && (ShapeOf(elems[i]).Pair? <==> !elems[i].Jit?)
  {
  }

  lemma NothingStands(shapes: seq<Shape>, pieces: seq<Piece>, slots: seq<Word>, entries: seq<Entry>)
    requires |shapes| == |pieces|
    ensures AllStand(shapes, pieces, 0, slots, entries) && SlotAt(shapes, 0) == 0 && EntryAt(shapes, 0) == 0
  {
  }

  // ----- What a reader of the outputs sees -----

  /** The value a host reads for one output: decoded from its slots, or held by the entry its pair names. */
  ghost function ReadOutput(e: SlotElem, at: nat, k: nat, slots: seq<Word>, entries: seq<Entry>): Option<Carriers.Value> {
    if e.Jit? then
      PortShape(e.t);
      if at + Width(e.t) <= |slots| then Some(Decode(Port(e.t), slots[at..])) else Option.None
    else if at + 2 <= |slots| && k < |entries| && entries[k].pair == (slots[at], slots[at + 1])
        && Suits(ScratchFor(e), entries[k].content) then
      Some(ContentValue(ScratchFor(e), entries[k].content))
    else Option.None
  }

  lemma DecodeFront(t: JitType, slots: seq<Word>)
    requires Width(t) <= |slots|
    ensures !Color(Port(t)).Ref2? && SlotWidth(Port(t)) == Width(t)
    ensures Decode(Port(t), slots) == Decode(Port(t), slots[..Width(t)])
  {
    PortShape(t);
    hide Color, SlotWidth, Signed;
  }

  /** Once a result is written, every output reads as the value the interpreter form puts there. */
  lemma WrittenIsOutput(elems: seq<SlotElem>, results: seq<Outcome>, slots: seq<Word>, entries: seq<Entry>, j: nat)
    requires AllReturned(elems, results) && j < |elems|
    requires AllWritten(elems, results, slots, entries)
    ensures Returned(elems[j], results[j])
    ensures ReadOutput(elems[j], SlotAt(Shapes(elems), j), EntryAt(Shapes(elems), j), slots, entries)
         == Some(Output(elems[j], results[j]))
  {
    var e, r := elems[j], results[j];
    var at := SlotAt(Shapes(elems), j);
    assert Stands(Pieces(elems, results)[j], at, EntryAt(Shapes(elems), j), slots, entries);
    PieceMeans(e, r);
    if e.Jit? {
      DecodeFront(e.t, slots[at..]);
      assert slots[at..][..Width(e.t)] == Write(e.t, r.v);
      WriteIsInject(e.t, r.v);
    }
    hide Decode, Write, Inject, Returned, AllStand, SlotAt, EntryAt, ContentValue;
  }

  // ----- The polymorphic return -----

  function PortTypeOf(v: Carriers.Value): PT.PortType {
    match v
    case U64(_) => PT.U64
    case I64(_) => PT.I64
    case F64(_) => PT.F64
    case Bool(_) => PT.Bool
    case U128(_) => PT.U128
    case I128(_) => PT.I128
    case Reg128(_, view) => ViewPort(view)
    case Str(_) => PT.Str
    case Bytes(_) => PT.Bytes
    case Json(_) => PT.Json
    case Ext(_) => PT.Ext
    case Handle(_) => PT.Handle
    case VecF32(_) => PT.VecF32
    case VecF64(_) => PT.VecF64
    case VecF16(_) => PT.VecF16
    case VecI8(_) => PT.VecI8
    case VecI16(_) => PT.VecI16
    case VecI32(_) => PT.VecI32
    case VecI64(_) => PT.VecI64
    case None => PT.U64
  }

  function ViewPort(view: RegLanes): PT.PortType {
    match view
    case Raw => PT.Reg128
    case I8x16 => PT.RegI8x16
    case I16x8 => PT.RegI16x8
    case I32x4 => PT.RegI32x4
    case I64x2 => PT.RegI64x2
    case F16x8 => PT.RegF16x8
    case F32x4 => PT.RegF32x4
    case F64x2 => PT.RegF64x2
  }

  /** The port type of the value a port carries in flight. */
  function CarrierPort(ty: PT.PortType): PT.PortType {
    match ty
    case I8 | I16 | I32 => PT.I64
    case U32 | U16 | U8 | F32 | F16 => PT.U64
    case _ => ty
  }

  /** The scratch element a by-reference port's producer owns. */
  function ElemOf(ty: PT.PortType): ScratchElem
    requires Color(ty).Ref2?
  {
    match ty
    case VecF32 => ScratchElem.F32
    case VecF64 => ScratchElem.F64
    case VecF16 => ScratchElem.F16
    case VecI8 => ScratchElem.I8
    case VecI16 => ScratchElem.I16
    case VecI32 => ScratchElem.I32
    case VecI64 => ScratchElem.I64
    case Str => ScratchElem.Str
    case Bytes => ScratchElem.Bytes
    case _ => ScratchElem.Value
  }

  /** The output a value may be written to: one that carries its type, and an absent value only where anything goes. */
  predicate Admits(ty: PT.PortType, v: Carriers.Value) {
    ty.Dyn? || (PortTypeOf(v) == CarrierPort(ty) && !v.None?)
  }

  lemma AdmittedScalar(ty: PT.PortType, v: Carriers.Value)
    requires Admits(ty, v) && !Color(ty).Ref2?
    ensures Encode(v).Some? && |Encode(v).value| == SlotWidth(ty)
    ensures Decode(ty, Encode(v).value) == v
  {
    if Color(ty).Imm1? {
      AdmittedWord(ty, v);
    } else {
      AdmittedLimbs(ty, v);
    }
  }

  lemma AdmittedWord(ty: PT.PortType, v: Carriers.Value)
    requires Admits(ty, v) && Color(ty).Imm1?
    ensures Encode(v).Some? && |Encode(v).value| == 1
    ensures Decode(ty, Encode(v).value) == v
  {
    if v.I64? {
      CastsInvert(v.i, TWO_TO_64);
    }
    assert v.U64? || v.I64? || v.F64? || v.Bool?;
    hide Signed, Unsigned, Color, ViewPort;
  }

  lemma AdmittedLimbs(ty: PT.PortType, v: Carriers.Value)
    requires Admits(ty, v) && Color(ty).Imm2?
    ensures Encode(v).Some? && |Encode(v).value| == 2
    ensures Decode(ty, Encode(v).value) == v
  {
    assert v.U128? || v.I128? || v.Reg128?;
    hide Signed, Unsigned, Color;
  }

  lemma AdmittedReference(ty: PT.PortType, v: Carriers.Value)
    requires Admits(ty, v) && Color(ty).Ref2?
    ensures ContentOf(ElemOf(ty), v).Some?
  {
    hide ContentValue;
  }

  /** An absent value answers the type of a number, which no by-reference port carries. */
  lemma NoneIsNoReference(ty: PT.PortType)
    requires Color(ty).Ref2?
    ensures PortTypeOf(Carriers.Value.None) != CarrierPort(ty)
  {
  }

  lemma DecodePrefix(ty: PT.PortType, front: seq<Word>, slots: seq<Word>)
    requires !Color(ty).Ref2? && |front| == SlotWidth(ty) <= |slots| && slots[..|front|] == front
    ensures Decode(ty, slots) == Decode(ty, front)
  {
    assert slots[0] == front[0];
    assert |front| == 2 ==> slots[1] == front[1];
    hide Signed, Color;
  }

  /** A scalar's slots at the front of the outputs. */
  method WriteScalar(ty: PT.PortType, v: Carriers.Value, outputs: array<Word>)
    requires !Color(ty).Ref2? && Admits(ty, v) && SlotWidth(ty) <= outputs.Length
    modifies outputs
    ensures Decode(ty, outputs[..]) == v
    ensures forall s :: SlotWidth(ty) <= s < outputs.Length ==> outputs[s] == old(outputs[s])
  {
    AdmittedScalar(ty, v);
    hide Decode, Encode, Admits, Color;
    var slots := Encode(v).value;
    outputs[0] := slots[0];
    if |slots| == 2 {
      outputs[1] := slots[1];
    }
    assert outputs[..][..|slots|] == slots;
    DecodePrefix(ty, slots, outputs[..]);
  }

  /** A by-reference value in the step's first entry, and the pair it publishes then. */
  method WriteReference(ty: PT.PortType, v: Carriers.Value, entry: ScratchBuf, outputs: array<Word>)
    requires Color(ty).Ref2? && Admits(ty, v) && 2 <= outputs.Length
    requires entry.Valid() && entry.elem == ElemOf(ty)
    requires ContentOf(ElemOf(ty), v).Some? ==> Count(ContentOf(ElemOf(ty), v).value) < TWO_TO_64
    modifies outputs, entry
    ensures entry.Valid() && entry.ToValue() == v && (outputs[0], outputs[1]) == entry.PtrLen()
    ensures forall s :: 2 <= s < outputs.Length ==> outputs[s] == old(outputs[s])
  {
    AdmittedReference(ty, v);
    hide ElemOf, ContentOf, Admits, Color, ContentValue, Suits, Count;
    var refused := entry.SetFromValue(v);
    var pair := entry.PtrLen();
    outputs[0] := pair.0;
    outputs[1] := pair.1;
  }

  lemma PolyShape(ty: PT.PortType)
    ensures ty.Dyn? ==> Color(ty).Ref2?
    ensures Color(ty).Ref2? ==> SlotWidth(ty) == 2
  {
  }

  /**
   * A polymorphic return written by the resolved output type. It is refused
   * exactly when the output does not carry the value's type; otherwise reading
   * the output by that type, or through the pair, gives the value back.
   */
  method WritePoly(ty: PT.PortType, v: Carriers.Value, scratch: seq<ScratchBuf>, outputs: array<Word>) returns (panicked: bool)
    requires SlotWidth(ty) <= outputs.Length
    requires Color(ty).Ref2? ==> |scratch| > 0 && scratch[0].Valid() && scratch[0].elem == ElemOf(ty)
    requires Color(ty).Ref2? && ContentOf(ElemOf(ty), v).Some? ==> Count(ContentOf(ElemOf(ty), v).value) < TWO_TO_64
    modifies outputs, scratch
    ensures panicked <==> !Admits(ty, v)
    ensures panicked ==> outputs[..] == old(outputs[..])
    ensures !panicked && !Color(ty).Ref2? ==> Decode(ty, outputs[..]) == v
    ensures !panicked && Color(ty).Ref2? ==>
      && scratch[0].Valid() && scratch[0].ToValue() == v && (outputs[0], outputs[1]) == scratch[0].PtrLen()
    ensures forall s :: SlotWidth(ty) <= s < outputs.Length ==> outputs[s] == old(outputs[s])
  {
    hide Decode, PortTypeOf, CarrierPort, ElemOf, ContentOf, Color, SlotWidth;
    PolyShape(ty);
    if !ty.Dyn? && PortTypeOf(v) != CarrierPort(ty) {
      return true;
    }
    if Color(ty).Ref2? {
      NoneIsNoReference(ty);
      WriteReference(ty, v, scratch[0], outputs);
      return false;
    }
    if v.None? {
      return true;
    }
    WriteScalar(ty, v, outputs);
    return false;
  }
}
