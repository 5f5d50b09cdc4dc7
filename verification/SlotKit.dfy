/**
 * The general compiled closure over the slot buffer: arguments are read with
 * two counters, the next slot and the next port, and by-reference results are
 * written into the step's own scratch.
 */
module SlotKit {
  import opened Carriers
  import opened Registers
  import opened Scratches
  import opened Words
  import opened Wrappers
  import CK = CompiledKit
  import PT = PortTypes

  // ----- Signatures and arguments -----

  datatype VariadicElement = U64s | Bools | Texts | Anything

  /** One parameter by the way the kit reads it. */
  datatype Param =
    | Carrier(t: JitType)
    | Optional(t: JitType)
    | Configured(t: JitType)
    | Reference(ty: PT.PortType)
    | Poly
    | Const(value: Native)
    | Variadic(elem: VariadicElement)

  /** An element of a variadic list as the body sees it. */
  datatype Item = Number(u: Word) | Truth(flag: bool) | Letters(text: seq<Byte>) | Any(value: Carriers.Value)

  /** An argument as the body sees it. */
  datatype Arg =
    | Plain(v: Native)
    | Present(v: Native)
    | Absent
    | Config(v: Native)
    | Borrowed(value: Carriers.Value)
    | Cloned(value: Carriers.Value)
    | Items(items: seq<Item>)

  predicate Fixed(param: Param) {
    !param.Const? && !param.Variadic?
  }

  /** The port a fixed parameter declares; a polymorphic one takes any wire. */
  predicate Feeds(param: Param, ty: PT.PortType) {
    match param
    case Carrier(t) => ty == Port(t)
    case Optional(t) => ty == Port(t) && Width(t) == 1
    case Configured(t) => ty == Port(t)
    case Reference(declared) => ty == declared && Color(ty).Ref2? && !ty.Dyn?
    case Poly => true
    case Const(_) => false
    case Variadic(_) => false
  }

  predicate FeedsElement(elem: VariadicElement, ty: PT.PortType) {
    match elem
    case U64s => ty == PT.U64
    case Bools => ty == PT.Bool
    case Texts => ty == PT.Str
    case Anything => true
  }

  // ----- The wires -----

  /** What the pair of a by-reference wire stands for, by the wire's type: a given inverse of its producer's write. */
  type Memory = (PT.PortType, Word, Word) -> Carriers.Value

  function Decoded(ty: PT.PortType, slots: seq<Word>, load: Memory): Carriers.Value
    requires SlotWidth(ty) <= |slots|
  {
    if Color(ty).Ref2? then load(ty, slots[0], slots[1]) else Decode(ty, slots)
  }

  /** The slot at which wire `p` starts. */
  function WireAt(types: seq<PT.PortType>, p: nat): nat
    requires p <= |types|
  {
    if p == 0 then 0 else WireAt(types, p - 1) + SlotWidth(types[p - 1])
  }

  lemma {:induction false} WireAtGrows(types: seq<PT.PortType>, p: nat, q: nat)
    requires p < q <= |types|
    ensures WireAt(types, p) + SlotWidth(types[p]) <= WireAt(types, q)
  {
    if p < q - 1 {
      WireAtGrows(types, p, q - 1);
    }
  }

  /** The values the interpreter has on its wires, one per wire. */
  function WireValues(types: seq<PT.PortType>, slots: seq<Word>, load: Memory): (values: seq<Carriers.Value>)
    requires WireAt(types, |types|) <= |slots|
    ensures |values| == |types|
    ensures forall p :: 0 <= p < |types| ==> values[p] == WireValue(types, slots, load, p)
  {
    seq(|types|, p requires 0 <= p < |types| => WireValue(types, slots, load, p))
  }

  function WireValue(types: seq<PT.PortType>, slots: seq<Word>, load: Memory, p: nat): Carriers.Value
    requires p < |types| && WireAt(types, |types|) <= |slots|
  {
    WireAtGrows(types, p, |types|);
    Decoded(types[p], slots[WireAt(types, p)..], load)
  }

  // ----- The interpreter form -----

  function TypeMatches(ty: PT.PortType, v: Carriers.Value): bool {
    PortTypeOf(v) == ty && !v.None?
  }

  /** One argument from its wire; `None` where the source panics. */
  function EvalFixed(param: Param, v: Carriers.Value): Option<Arg>
    requires Fixed(param)
  {
    match param
    case Carrier(t) =>
      var x := Extract(t, v); if x.Some? then Some(Plain(x.value)) else Option.None
    case Optional(t) =>
      if v.None? then Some(Absent)
      else var x := Extract(t, v); if x.Some? then Some(Present(x.value)) else Option.None
    case Configured(t) =>
      var x := Extract(t, v); if x.Some? then Some(Config(x.value)) else Option.None
    case Reference(ty) => if TypeMatches(ty, v) then Some(Borrowed(v)) else Option.None
    case Poly => Some(Cloned(v))
  }

  function EvalItem(elem: VariadicElement, v: Carriers.Value): Option<Item> {
    match elem
    case U64s => if v.U64? then Some(Number(v.u)) else Option.None
    case Bools => if v.Bool? then Some(Truth(v.flag)) else Option.None
    case Texts => if v.Str? then Some(Letters(v.text)) else Option.None
    case Anything => Some(Any(v))
  }

  function EvalItems(elem: VariadicElement, values: seq<Carriers.Value>): Option<seq<Item>> {
    if values == [] then Some([])
    else
      var rest := EvalItems(elem, values[..|values| - 1]);
      var last := EvalItem(elem, values[|values| - 1]);
      if rest.Some? && last.Some? then Some(rest.value + [last.value]) else Option.None
  }

  function EvalArg(param: Param, values: seq<Carriers.Value>, wire: nat, position: nat, split: bool): Option<Arg> {
    match param
    case Const(c) => Some(Plain(c))
    case Variadic(elem) =>
      var items := EvalItems(elem, CK.Share(values, position, split));
      if items.Some? then Some(Items(items.value)) else Option.None
    case _ => if wire < |values| then EvalFixed(param, values[wire]) else Option.None
  }

  function CountFixed(params: seq<Param>): nat {
    if params == [] then 0 else CountFixed(params[..|params| - 1]) + (if Fixed(params[|params| - 1]) then 1 else 0)
  }

  function CountVariadic(params: seq<Param>): nat {
    if params == [] then 0 else CountVariadic(params[..|params| - 1]) + (if params[|params| - 1].Variadic? then 1 else 0)
  }

  /** The arguments of the first `n` parameters in the interpreter form: one wire for each fixed one, a share for each variadic. */
  function EvalArgs(params: seq<Param>, n: nat, values: seq<Carriers.Value>, split: bool): Option<seq<Arg>>
    requires n <= |params|
  {
    if n == 0 then Some([])
    else
      var rest := EvalArgs(params, n - 1, values, split);
      var arg := EvalArg(params[n - 1], values, CountFixed(params[..n - 1]), CountVariadic(params[..n - 1]), split);
      if rest.Some? && arg.Some? then Some(rest.value + [arg.value]) else Option.None
  }

  function InterpreterArgs(params: seq<Param>, values: seq<Carriers.Value>): Option<seq<Arg>> {
    EvalArgs(params, |params|, values, CountVariadic(params) == 2)
  }

  // ----- The kit's reads -----

  /** What a read of one parameter leaves: the argument and the two counters, the next slot and the next port. */
  datatype Step = Step(arg: Arg, i: nat, p: nat)

  datatype Listed = Listed(items: seq<Item>, i: nat, p: nat)

  datatype Reads = Reads(args: seq<Arg>, i: nat, p: nat)

  /** The width the kit moves on by after a fixed read; only a polymorphic port's is looked up at run time. */
  function ReadWidth(param: Param, types: seq<PT.PortType>, p: nat): nat
    requires Fixed(param)
  {
    match param
    case Carrier(t) => Width(t)
    case Optional(t) => 1
    case Configured(t) => Width(t)
    case Reference(_) => 2
    case Poly => if p < |types| then SlotWidth(types[p]) else 0
  }

  /** The read of one fixed parameter; `None` where an index is out of range or the pair holds another type. */
  function ReadFixed(param: Param, types: seq<PT.PortType>, slots: seq<Word>, load: Memory, i: nat, p: nat): (r: Option<Arg>)
    requires Fixed(param)
    ensures r.Some? ==> !r.value.Items?
  {
    if |slots| < i + ReadWidth(param, types, p) then Option.None
    else
      match param
      case Carrier(t) => Some(Plain(Read(t, slots[i..])))
      case Optional(t) => if Width(t) == 1 then Some(Present(Read(t, slots[i..]))) else Option.None
      case Configured(t) => Some(Config(Read(t, slots[i..])))
      case Reference(declared) =>
        var v := load(declared, slots[i], slots[i + 1]);
        if TypeMatches(declared, v) then Some(Borrowed(v)) else Option.None
      case Poly => if p < |types| then Some(Cloned(Decoded(types[p], slots[i..], load))) else Option.None
  }

  function ItemWidth(elem: VariadicElement, types: seq<PT.PortType>, p: nat): nat {
    match elem
    case U64s => 1
    case Bools => 1
    case Texts => 2
    case Anything => if p < |types| then SlotWidth(types[p]) else 0
  }

  function ReadItem(elem: VariadicElement, types: seq<PT.PortType>, slots: seq<Word>, load: Memory, i: nat, p: nat): Option<Item> {
    if |slots| < i + ItemWidth(elem, types, p) then Option.None
    else
      match elem
      case U64s => Some(Number(slots[i]))
      case Bools => Some(Truth(slots[i] != 0))
      case Texts =>
        var v := load(PT.Str, slots[i], slots[i + 1]);
        if v.Str? then Some(Letters(v.text)) else Option.None
      case Anything => if p < |types| then Some(Any(Decoded(types[p], slots[i..], load))) else Option.None
  }

  /** The reads of `count` elements, each moving both counters. */
  function KitItems(elem: VariadicElement, count: nat, types: seq<PT.PortType>, slots: seq<Word>, load: Memory,
      i: nat, p: nat): (r: Option<Listed>)
    ensures r.Some? ==> |r.value.items| == count && r.value.p == p + count
  {
    if count == 0 then Some(Listed([], i, p))
    else
      var rest := KitItems(elem, count - 1, types, slots, load, i, p);
      if rest.None? then Option.None else KitNextItem(elem, types, slots, load, rest.value)
  }

  function KitNextItem(elem: VariadicElement, types: seq<PT.PortType>, slots: seq<Word>, load: Memory, was: Listed): (r: Option<Listed>)
    ensures r.Some? ==> |r.value.items| == |was.items| + 1 && r.value.p == was.p + 1
  {
    var item := ReadItem(elem, types, slots, load, was.i, was.p);
    if item.None? then Option.None
    else Some(Listed(was.items + [item.value], was.i + ItemWidth(elem, types, was.p), was.p + 1))
  }

  /** How many ports a variadic takes: what the fixed ones leave, or its half of it. */
  function VariadicCount(params: seq<Param>, ports: nat, position: nat): nat
    requires CountFixed(params) <= ports
  {
    var free := ports - CountFixed(params);
    if CountVariadic(params) != 2 then free
    else if position == 0 then free / 2
    else free - free / 2
  }

  function KitList(params: seq<Param>, n: nat, types: seq<PT.PortType>, slots: seq<Word>, load: Memory, i: nat, p: nat): Option<Step>
    requires n < |params| && params[n].Variadic?
  {
    if |types| < CountFixed(params) then Option.None
    else
      var list := KitItems(params[n].elem, VariadicCount(params, |types|, CountVariadic(params[..n])), types, slots, load, i, p);
      if list.None? then Option.None else Some(Step(Items(list.value.items), list.value.i, list.value.p))
  }

  function KitParam(params: seq<Param>, n: nat, types: seq<PT.PortType>, slots: seq<Word>, load: Memory, i: nat, p: nat): Option<Step>
    requires n < |params|
  {
    var param := params[n];
    if param.Const? then Some(Step(Plain(param.value), i, p))
    else if param.Variadic? then KitList(params, n, types, slots, load, i, p)
    else
      var arg := ReadFixed(param, types, slots, load, i, p);
      if arg.None? then Option.None else Some(Step(arg.value, i + ReadWidth(param, types, p), p + 1))
  }

  /** The kit's reads of the first `n` parameters, in declaration order; `None` where one panics. */
  function KitReads(params: seq<Param>, n: nat, types: seq<PT.PortType>, slots: seq<Word>, load: Memory): Option<Reads>
    requires n <= |params|
  {
    if n == 0 then Some(Reads([], 0, 0))
    else
      var rest := KitReads(params, n - 1, types, slots, load);
      if rest.None? then Option.None else KitNext(params, n - 1, types, slots, load, rest.value)
  }

  function KitNext(params: seq<Param>, n: nat, types: seq<PT.PortType>, slots: seq<Word>, load: Memory, was: Reads): Option<Reads>
    requires n < |params|
  {
    var step := KitParam(params, n, types, slots, load, was.i, was.p);
    if step.None? then Option.None else Some(Reads(was.args + [step.value.arg], step.value.i, step.value.p))
  }

  /** The arguments the kit hands the body, for any signature over any wires. */
  function KitArgs(params: seq<Param>, types: seq<PT.PortType>, slots: seq<Word>, load: Memory): Option<seq<Arg>> {
    var read := KitReads(params, |params|, types, slots, load);
    if read.Some? then Some(read.value.args) else Option.None
  }

  // ----- The read loops -----

  lemma {:induction false} ItemsPanicStays(elem: VariadicElement, n: nat, count: nat, types: seq<PT.PortType>,
      slots: seq<Word>, load: Memory, i: nat, p: nat)
    requires n <= count && KitItems(elem, n, types, slots, load, i, p).None?
    ensures KitItems(elem, count, types, slots, load, i, p).None?
    decreases count - n
  {
    if n < count {
      ItemsPanicStays(elem, n + 1, count, types, slots, load, i, p);
    }
  }

  lemma {:induction false} ReadsPanicStays(params: seq<Param>, n: nat, types: seq<PT.PortType>, slots: seq<Word>, load: Memory)
    requires n <= |params| && KitReads(params, n, types, slots, load).None?
    ensures KitReads(params, |params|, types, slots, load).None?
    decreases |params| - n
  {
    if n < |params| {
      ReadsPanicStays(params, n + 1, types, slots, load);
    }
  }

  lemma KitNextItemIs(elem: VariadicElement, types: seq<PT.PortType>, slots: seq<Word>, load: Memory, was: Listed)
    ensures KitNextItem(elem, types, slots, load, was) ==
      var item := ReadItem(elem, types, slots, load, was.i, was.p);
      if item.None? then Option.None
      else Some(Listed(was.items + [item.value], was.i + ItemWidth(elem, types, was.p), was.p + 1))
  {
  }

  /** A variadic's reads: `count` elements, each moving both counters. */
  method ReadVariadic(elem: VariadicElement, count: nat, types: seq<PT.PortType>, slots: seq<Word>, load: Memory, i0: nat, p0: nat)
      returns (list: Option<Listed>)
    ensures list == KitItems(elem, count, types, slots, load, i0, p0)
    ensures ListFed(elem, count, types, slots, i0, p0) ==>
      ListIs(list, EvalItems(elem, WireValues(types, slots, load)[p0..p0 + count]), types, p0 + count)
  {
    var read := Listed([], i0, p0);
    var n := 0;
    KitItemsByLast(elem, 0, types, slots, load, i0, p0);
    ItemsAgreeIfFed(elem, count, types, slots, load, i0, p0);
    hide *;
    while n < count
      invariant 0 <= n <= count && KitItems(elem, n, types, slots, load, i0, p0) == Some(read)
    {
      KitItemsByLast(elem, n + 1, types, slots, load, i0, p0);
      KitNextItemIs(elem, types, slots, load, read);
      var item := ReadItem(elem, types, slots, load, read.i, read.p);
      if item.None? {
        ItemsPanicStays(elem, n + 1, count, types, slots, load, i0, p0);
        return Option.None;
      }
      read := Listed(read.items + [item.value], read.i + ItemWidth(elem, types, read.p), read.p + 1);
      n := n + 1;
    }
    list := Some(read);
  }

  /** The read of parameter `n` in the kit, and the counters after it. */
  method ReadParam(params: seq<Param>, n: nat, types: seq<PT.PortType>, slots: seq<Word>, load: Memory, i0: nat, p0: nat)
      returns (step: Option<Step>)
    requires n < |params|
    ensures step == KitParam(params, n, types, slots, load, i0, p0)
  {
    hide KitItems, ReadFixed, ReadWidth, CountFixed, CountVariadic, VariadicCount, ListIs, ElementsFed, EvalItems;
    var param := params[n];
    if param.Const? {
      return Some(Step(Plain(param.value), i0, p0));
    }
    if param.Variadic? {
      if |types| < CountFixed(params) {
        return Option.None;
      }
      var list := ReadVariadic(
        param.elem, VariadicCount(params, |types|, CountVariadic(params[..n])), types, slots, load, i0, p0);
      return if list.None? then Option.None else Some(Step(Items(list.value.items), list.value.i, list.value.p));
    }
    var arg := ReadFixed(param, types, slots, load, i0, p0);
    return if arg.None? then Option.None else Some(Step(arg.value, i0 + ReadWidth(param, types, p0), p0 + 1));
  }

  /**
   * The two-counter read loop, for any signature over any wires. Where the
   * wires are all fixed or all variadic it hands the body exactly what the
   * interpreter form does, and has read every port and slot it was to read.
   */
  method ReadArgs(params: seq<Param>, types: seq<PT.PortType>, slots: seq<Word>, load: Memory)
      returns (args: Option<seq<Arg>>, i: nat, p: nat)
    ensures args == KitArgs(params, types, slots, load)
    ensures WireAt(types, |types|) <= |slots| && Uniform(params, types) ==>
      && args == InterpreterArgs(params, WireValues(types, slots, load))
      && (args.Some? ==> p == (if CountVariadic(params) == 0 then CountFixed(params) else |types|) <= |types| && i == WireAt(types, p))
  {
    var read := Reads([], 0, 0);
    var n := 0;
    while n < |params|
      invariant 0 <= n <= |params| && KitReads(params, n, types, slots, load) == Some(read)
    {
      hide KitParam, Uniform, CountFixed, CountVariadic, EvalArgs;
      var step := ReadParam(params, n, types, slots, load, read.i, read.p);
      if step.None? {
        ReadsPanicStays(params, n + 1, types, slots, load);
        KitAgreesIfUniform(params, types, slots, load);
        return Option.None, read.i, read.p;
      }
      read := Reads(read.args + [step.value.arg], step.value.i, step.value.p);
      n := n + 1;
    }
    KitAgreesIfUniform(params, types, slots, load);
    hide KitReads, Uniform, CountFixed, CountVariadic, EvalArgs;
    return Some(read.args), read.i, read.p;
  }

  // ----- Signatures the two forms share -----

  predicate FedInOrder(params: seq<Param>, types: seq<PT.PortType>) {
    forall n :: 0 <= n < |params| && Fixed(params[n]) ==>
      CountFixed(params[..n]) < |types| && Feeds(params[n], types[CountFixed(params[..n])])
  }

  predicate SharesFed(params: seq<Param>, types: seq<PT.PortType>) {
    forall n :: 0 <= n < |params| && params[n].Variadic? ==>
      ElementsFed(params[n].elem, CK.Share(types, CountVariadic(params[..n]), CountVariadic(params) == 2))
  }

  predicate ElementsFed(elem: VariadicElement, types: seq<PT.PortType>) {
    forall k :: 0 <= k < |types| ==> FeedsElement(elem, types[k])
  }

  /** At most two variadics, and every wire of a type the interpreter's reads of it take. */
  predicate Wired(params: seq<Param>, types: seq<PT.PortType>) {
    CountVariadic(params) <= 2 && FedInOrder(params, types) && SharesFed(params, types)
  }

  /** The wires are all fixed or all variadic. */
  predicate OneKind(params: seq<Param>) {
    CountFixed(params) == 0 || CountVariadic(params) == 0
  }

  predicate Uniform(params: seq<Param>, types: seq<PT.PortType>) {
    OneKind(params) && Wired(params, types)
  }

  lemma FixedAgrees(param: Param, types: seq<PT.PortType>, slots: seq<Word>, load: Memory, p: nat)
    requires WireAt(types, |types|) <= |slots| && p < |types|
    requires Fixed(param) && Feeds(param, types[p])
    ensures WireAt(types, p) + ReadWidth(param, types, p) == WireAt(types, p + 1)
    ensures ReadFixed(param, types, slots, load, WireAt(types, p), p) == EvalFixed(param, WireValues(types, slots, load)[p])
  {
    WireAtGrows(types, p, |types|);
    if param.Carrier? || param.Optional? || param.Configured? {
      PortShape(param.t);
      ReadIsExtract(param.t, slots[WireAt(types, p)..]);
      assert !Decode(types[p], slots[WireAt(types, p)..]).None?;
    }
    hide Extract, Read, Decode, PortTypeOf;
  }

  lemma ItemAgrees(elem: VariadicElement, types: seq<PT.PortType>, slots: seq<Word>, load: Memory, p: nat)
    requires WireAt(types, |types|) <= |slots| && p < |types| && FeedsElement(elem, types[p])
    ensures WireAt(types, p) + ItemWidth(elem, types, p) == WireAt(types, p + 1)
    ensures ReadItem(elem, types, slots, load, WireAt(types, p), p) == EvalItem(elem, WireValues(types, slots, load)[p])
  {
    WireAtGrows(types, p, |types|);
  }

  /** A list read in the kit is the interpreter's, and both counters stand at wire `p`. */
  predicate ListIs(list: Option<Listed>, items: Option<seq<Item>>, types: seq<PT.PortType>, p: nat)
    requires p <= |types|
  {
    if list.None? then items.None? else list.value == Listed(list.value.items, WireAt(types, p), p) && items == Some(list.value.items)
  }

  /** The counters stand at wire `p`, and the next `count` wires feed the list. */
  predicate ListFed(elem: VariadicElement, count: nat, types: seq<PT.PortType>, slots: seq<Word>, i: nat, p: nat) {
    && WireAt(types, |types|) <= |slots| && p + count <= |types|
    && i == WireAt(types, p) && ElementsFed(elem, types[p..p + count])
  }

  lemma ItemsStep(elem: VariadicElement, values: seq<Carriers.Value>, v: Carriers.Value)
    ensures EvalItems(elem, values + [v]) ==
      if EvalItems(elem, values).Some? && EvalItem(elem, v).Some?
      then Some(EvalItems(elem, values).value + [EvalItem(elem, v).value]) else Option.None
  {
    assert (values + [v])[..|values|] == values;
  }

  lemma ItemsNext(elem: VariadicElement, types: seq<PT.PortType>, slots: seq<Word>, load: Memory, list: Option<Listed>,
      values: seq<Carriers.Value>, v: Carriers.Value, p: nat)
    requires p < |types| && ListIs(list, EvalItems(elem, values), types, p)
    requires WireAt(types, p) + ItemWidth(elem, types, p) == WireAt(types, p + 1)
    requires ReadItem(elem, types, slots, load, WireAt(types, p), p) == EvalItem(elem, v)
    ensures ListIs(if list.None? then Option.None else KitNextItem(elem, types, slots, load, list.value),
      EvalItems(elem, values + [v]), types, p + 1)
  {
    ItemsStep(elem, values, v);
    hide EvalItems, EvalItem, ReadItem, ItemWidth, WireAt;
  }

  lemma KitItemsByLast(elem: VariadicElement, count: nat, types: seq<PT.PortType>, slots: seq<Word>, load: Memory, i: nat, p: nat)
    ensures KitItems(elem, count, types, slots, load, i, p) ==
      if count == 0 then Some(Listed([], i, p))
      else
        var rest := KitItems(elem, count - 1, types, slots, load, i, p);
        if rest.None? then Option.None else KitNextItem(elem, types, slots, load, rest.value)
  {
  }

  lemma NoItems(elem: VariadicElement, types: seq<PT.PortType>, p: nat)
    requires p <= |types|
    ensures ListIs(Some(Listed([], WireAt(types, p), p)), EvalItems(elem, []), types, p)
  {
  }

  lemma {:induction false} ItemsAgree(elem: VariadicElement, count: nat, types: seq<PT.PortType>, slots: seq<Word>, load: Memory, p: nat)
    requires WireAt(types, |types|) <= |slots| && p + count <= |types|
    requires forall k :: p <= k < p + count ==> FeedsElement(elem, types[k])
    ensures ListIs(KitItems(elem, count, types, slots, load, WireAt(types, p), p),
      EvalItems(elem, WireValues(types, slots, load)[p..p + count]), types, p + count)
  {
    hide *;
    var values := WireValues(types, slots, load);
    KitItemsByLast(elem, count, types, slots, load, WireAt(types, p), p);
    if count == 0 {
      assert values[p..p] == [];
      NoItems(elem, types, p);
    } else {
      var last := p + count - 1;
      ItemsAgree(elem, count - 1, types, slots, load, p);
      ItemAgrees(elem, types, slots, load, last);
      ItemsNext(elem, types, slots, load, KitItems(elem, count - 1, types, slots, load, WireAt(types, p), p),
        values[p..last], values[last], last);
      assert values[p..p + count] == values[p..last] + [values[last]];
    }
  }

  lemma ItemsAgreeIfFed(elem: VariadicElement, count: nat, types: seq<PT.PortType>, slots: seq<Word>, load: Memory, i: nat, p: nat)
    ensures ListFed(elem, count, types, slots, i, p) ==>
      ListIs(KitItems(elem, count, types, slots, load, i, p),
        EvalItems(elem, WireValues(types, slots, load)[p..p + count]), types, p + count)
  {
    if ListFed(elem, count, types, slots, i, p) {
      ItemsAgreeWhereFed(elem, count, types, slots, load, p);
    }
    hide KitItems, EvalItems, WireValues, ListIs, WireAt, ElementsFed;
  }

  lemma ItemsAgreeWhereFed(elem: VariadicElement, count: nat, types: seq<PT.PortType>, slots: seq<Word>, load: Memory, p: nat)
    requires WireAt(types, |types|) <= |slots| && p + count <= |types| && ElementsFed(elem, types[p..p + count])
    ensures ListIs(KitItems(elem, count, types, slots, load, WireAt(types, p), p),
      EvalItems(elem, WireValues(types, slots, load)[p..p + count]), types, p + count)
  {
    forall k | p <= k < p + count ensures FeedsElement(elem, types[k]) {
      assert types[k] == types[p..p + count][k - p];
    }
    hide *;
    ItemsAgree(elem, count, types, slots, load, p);
  }

  // ----- Counting -----

  lemma CountStep(params: seq<Param>, n: nat)
    requires n < |params|
    ensures CountFixed(params[..n + 1]) == CountFixed(params[..n]) + (if Fixed(params[n]) then 1 else 0)
    ensures CountVariadic(params[..n + 1]) == CountVariadic(params[..n]) + (if params[n].Variadic? then 1 else 0)
  {
    assert params[..n + 1][..n] == params[..n];
  }

  lemma {:induction false} CountsGrow(params: seq<Param>, n: nat)
    requires n <= |params|
    ensures CountFixed(params[..n]) <= CountFixed(params) && CountVariadic(params[..n]) <= CountVariadic(params)
    decreases |params| - n
  {
    if n < |params| {
      CountStep(params, n);
      CountsGrow(params, n + 1);
    } else {
      assert params[..n] == params;
    }
  }

  /** The ports read before parameter `n`. */
  function Consumed(params: seq<Param>, n: nat, ports: nat): nat
    requires n <= |params|
  {
    var position := CountVariadic(params[..n]);
    if CountVariadic(params) == 0 then CountFixed(params[..n])
    else if position == 0 then 0
    else if CountVariadic(params) == 2 && position == 1 then ports / 2
    else ports
  }

  /** What the read of a fixed parameter finds, for signatures of one kind. */
  lemma OneWire(params: seq<Param>, types: seq<PT.PortType>, n: nat)
    requires Uniform(params, types) && n < |params| && Fixed(params[n])
    ensures var p := Consumed(params, n, |types|);
      && p == CountFixed(params[..n]) < |types| && Feeds(params[n], types[p])
      && Consumed(params, n + 1, |types|) == p + 1
  {
    CountStep(params, n);
    CountsGrow(params, n + 1);
    hide CountFixed, CountVariadic, Feeds, SharesFed;
  }

  lemma OneConst(params: seq<Param>, types: seq<PT.PortType>, n: nat)
    requires n < |params| && params[n].Const?
    ensures Consumed(params, n + 1, |types|) == Consumed(params, n, |types|)
  {
    CountStep(params, n);
  }

  function ShareStart(ports: nat, position: nat, split: bool): nat {
    if !split || position == 0 then 0 else ports / 2
  }

  function ShareCount(ports: nat, position: nat, split: bool): nat {
    if !split then ports else if position == 0 then ports / 2 else ports - ports / 2
  }

  lemma ShareIsSlice<T>(wires: seq<T>, position: nat, split: bool)
    ensures var start, count := ShareStart(|wires|, position, split), ShareCount(|wires|, position, split);
      start + count <= |wires| && CK.Share(wires, position, split) == wires[start..start + count]
  {
  }

  /** The ports a variadic takes are those of its share. */
  lemma OneCount(params: seq<Param>, types: seq<PT.PortType>, n: nat)
    requires Uniform(params, types) && n < |params| && params[n].Variadic?
    ensures var position, split := CountVariadic(params[..n]), CountVariadic(params) == 2;
      && CountFixed(params) == 0
      && Consumed(params, n, |types|) == ShareStart(|types|, position, split)
      && VariadicCount(params, |types|, position) == ShareCount(|types|, position, split)
      && Consumed(params, n + 1, |types|) == ShareStart(|types|, position, split) + ShareCount(|types|, position, split)
  {
    CountStep(params, n);
    CountsGrow(params, n + 1);
    hide CountFixed, CountVariadic, FedInOrder, SharesFed;
  }

  lemma SharesFedAt(params: seq<Param>, types: seq<PT.PortType>, n: nat)
    requires Uniform(params, types) && n < |params| && params[n].Variadic?
    ensures ElementsFed(params[n].elem, CK.Share(types, CountVariadic(params[..n]), CountVariadic(params) == 2))
  {
    hide CountFixed, CountVariadic, FedInOrder, ElementsFed, CK.Share;
  }

  lemma OneList(params: seq<Param>, types: seq<PT.PortType>, n: nat, values: seq<Carriers.Value>)
    requires Uniform(params, types) && n < |params| && params[n].Variadic? && |values| == |types|
    ensures CountFixed(params) == 0
    ensures var p := Consumed(params, n, |types|);
      var position := CountVariadic(params[..n]);
      var count := VariadicCount(params, |types|, position);
      && Consumed(params, n + 1, |types|) == p + count <= |types|
      && CK.Share(values, position, CountVariadic(params) == 2) == values[p..p + count]
      && ElementsFed(params[n].elem, types[p..p + count])
  {
    hide *;
    OneCount(params, types, n);
    ShareIsSlice(values, CountVariadic(params[..n]), CountVariadic(params) == 2);
    ShareIsSlice(types, CountVariadic(params[..n]), CountVariadic(params) == 2);
    SharesFedAt(params, types, n);
  }

  // ----- Where the forms agree -----

  /** A parameter's read in the kit is the interpreter's, and both counters stand at wire `p`. */
  predicate StepIs(step: Option<Step>, arg: Option<Arg>, types: seq<PT.PortType>, p: nat) {
    if step.None? then arg.None? else p <= |types| && step.value == Step(step.value.arg, WireAt(types, p), p) && arg == Some(step.value.arg)
  }

  function ListStep(list: Option<Listed>): Option<Step> {
    if list.None? then Option.None else Some(Step(Items(list.value.items), list.value.i, list.value.p))
  }

  function ListArg(items: Option<seq<Item>>): Option<Arg> {
    if items.None? then Option.None else Some(Items(items.value))
  }

  lemma ListIsStep(list: Option<Listed>, items: Option<seq<Item>>, types: seq<PT.PortType>, p: nat)
    requires p <= |types| && ListIs(list, items, types, p)
    ensures StepIs(ListStep(list), ListArg(items), types, p)
  {
    hide WireAt;
  }

  /** The read of a variadic in either form, by its elements. */
  lemma ListReads(params: seq<Param>, n: nat, types: seq<PT.PortType>, slots: seq<Word>, load: Memory, i: nat,
      p: nat, values: seq<Carriers.Value>)
    requires n < |params| && params[n].Variadic?
    ensures var position, split := CountVariadic(params[..n]), CountVariadic(params) == 2;
      && KitParam(params, n, types, slots, load, i, p) == (
        if |types| < CountFixed(params) then Option.None
        else ListStep(KitItems(params[n].elem, VariadicCount(params, |types|, position), types, slots, load, i, p)))
      && EvalArg(params[n], values, CountFixed(params[..n]), position, split)
        == ListArg(EvalItems(params[n].elem, CK.Share(values, position, split)))
  {
    hide KitItems, EvalItems, CountFixed, CountVariadic, VariadicCount, CK.Share;
  }

  lemma ListAgrees(params: seq<Param>, n: nat, types: seq<PT.PortType>, slots: seq<Word>, load: Memory)
    requires Uniform(params, types) && WireAt(types, |types|) <= |slots|
    requires n < |params| && params[n].Variadic? && Consumed(params, n, |types|) <= |types|
    ensures StepIs(KitParam(params, n, types, slots, load, WireAt(types, Consumed(params, n, |types|)), Consumed(params, n, |types|)),
      EvalArg(params[n], WireValues(types, slots, load), CountFixed(params[..n]), CountVariadic(params[..n]), CountVariadic(params) == 2),
      types, Consumed(params, n + 1, |types|))
  {
    hide *;
    var p, values := Consumed(params, n, |types|), WireValues(types, slots, load);
    OneList(params, types, n, values);
    var elem, count := params[n].elem, VariadicCount(params, |types|, CountVariadic(params[..n]));
    ListReads(params, n, types, slots, load, WireAt(types, p), p, values);
    ItemsAgreeWhereFed(elem, count, types, slots, load, p);
    ListIsStep(KitItems(elem, count, types, slots, load, WireAt(types, p), p), EvalItems(elem, values[p..p + count]), types, p + count);
  }

  lemma WireAgrees(params: seq<Param>, n: nat, types: seq<PT.PortType>, slots: seq<Word>, load: Memory)
    requires Uniform(params, types) && WireAt(types, |types|) <= |slots|
    requires n < |params| && Fixed(params[n]) && Consumed(params, n, |types|) <= |types|
    ensures StepIs(KitParam(params, n, types, slots, load, WireAt(types, Consumed(params, n, |types|)), Consumed(params, n, |types|)),
      EvalArg(params[n], WireValues(types, slots, load), CountFixed(params[..n]), CountVariadic(params[..n]), CountVariadic(params) == 2),
      types, Consumed(params, n + 1, |types|))
  {
    hide Uniform, Consumed, WireAt, WireValues, CountFixed, CountVariadic, ReadFixed, EvalFixed, ReadWidth, Feeds,
        KitList, EvalItems, CK.Share;
    OneWire(params, types, n);
    FixedAgrees(params[n], types, slots, load, Consumed(params, n, |types|));
  }

  lemma ParamAgrees(params: seq<Param>, n: nat, types: seq<PT.PortType>, slots: seq<Word>, load: Memory)
    requires Uniform(params, types) && WireAt(types, |types|) <= |slots|
    requires n < |params| && Consumed(params, n, |types|) <= |types|
    ensures StepIs(KitParam(params, n, types, slots, load, WireAt(types, Consumed(params, n, |types|)), Consumed(params, n, |types|)),
      EvalArg(params[n], WireValues(types, slots, load), CountFixed(params[..n]), CountVariadic(params[..n]), CountVariadic(params) == 2),
      types, Consumed(params, n + 1, |types|))
  {
    hide Uniform, Consumed, WireAt, WireValues, CountFixed, CountVariadic, ReadFixed, EvalFixed, ReadWidth, KitList, EvalItems, CK.Share;
    if params[n].Variadic? {
      ListAgrees(params, n, types, slots, load);
    } else if params[n].Const? {
      OneConst(params, types, n);
    } else {
      WireAgrees(params, n, types, slots, load);
    }
  }

  /** The kit's reads of the first parameters are the interpreter's, and both counters stand at the next wire. */
  predicate ReadsAre(read: Option<Reads>, args: Option<seq<Arg>>, types: seq<PT.PortType>, p: nat) {
    if read.None? then args.None?
    else p <= |types| && read.value == Reads(read.value.args, WireAt(types, p), p) && args == Some(read.value.args)
  }

  lemma {:induction false} KitAgrees(params: seq<Param>, n: nat, types: seq<PT.PortType>, slots: seq<Word>, load: Memory)
    requires Uniform(params, types) && WireAt(types, |types|) <= |slots| && n <= |params|
    ensures ReadsAre(KitReads(params, n, types, slots, load),
      EvalArgs(params, n, WireValues(types, slots, load), CountVariadic(params) == 2), types, Consumed(params, n, |types|))
  {
    if n == 0 {
      assert params[..0] == [];
    } else {
      KitAgrees(params, n - 1, types, slots, load);
      if KitReads(params, n - 1, types, slots, load).Some? {
        ParamAgrees(params, n - 1, types, slots, load);
      }
      hide Uniform, Consumed, KitParam, EvalArg, WireAt, WireValues, CountFixed, CountVariadic;
    }
  }

  lemma KitAgreesIfUniform(params: seq<Param>, types: seq<PT.PortType>, slots: seq<Word>, load: Memory)
    ensures WireAt(types, |types|) <= |slots| && Uniform(params, types) ==>
      ReadsAre(KitReads(params, |params|, types, slots, load), InterpreterArgs(params, WireValues(types, slots, load)), types,
        if CountVariadic(params) == 0 then CountFixed(params) else |types|)
  {
    if WireAt(types, |types|) <= |slots| && Uniform(params, types) {
      KitAgrees(params, |params|, types, slots, load);
      assert params[..|params|] == params;
      hide Uniform, KitReads, EvalArgs, WireAt, WireValues, CountFixed, CountVariadic;
    }
  }

  // ----- Where they part -----

  /** The elements of all the lists among the arguments. */
  function TotalItems(args: seq<Arg>): nat {
    if args == [] then 0
    else TotalItems(args[..|args| - 1]) + (var last := args[|args| - 1]; if last.Items? then |last.items| else 0)
  }

  lemma TotalStep(args: seq<Arg>, arg: Arg)
    ensures TotalItems(args + [arg]) == TotalItems(args) + (if arg.Items? then |arg.items| else 0)
  {
    assert (args + [arg])[..|args|] == args;
  }

  /** The elements the first `lists` variadics take of `wires`: one takes all of them, two take a half each. */
  function SharesTaken(lists: nat, wires: nat, split: bool): nat {
    if lists == 0 then 0 else if split && lists == 1 then wires / 2 else wires
  }

  lemma {:induction false} ItemsKeepCount(elem: VariadicElement, values: seq<Carriers.Value>)
    ensures EvalItems(elem, values).Some? ==> |EvalItems(elem, values).value| == |values|
  {
    if values != [] {
      ItemsKeepCount(elem, values[..|values| - 1]);
    }
  }

  /** A list the interpreter reads takes its share, and a list the kit reads its share of what the fixed ports leave. */
  lemma InterpreterAdds(params: seq<Param>, n: nat, values: seq<Carriers.Value>, was: seq<Arg>)
    requires n < |params| && CountVariadic(params) <= 2
    ensures var position, split := CountVariadic(params[..n]), CountVariadic(params) == 2;
      var arg := EvalArg(params[n], values, CountFixed(params[..n]), position, split);
      var taken := if params[n].Variadic? then ShareCount(|values|, position, split) else 0;
      arg.Some? ==> TotalItems(was + [arg.value]) == TotalItems(was) + taken
  {
    hide EvalItems, TotalItems, CountFixed, CountVariadic;
    var position, split := CountVariadic(params[..n]), CountVariadic(params) == 2;
    var arg := EvalArg(params[n], values, CountFixed(params[..n]), position, split);
    if arg.Some? {
      TotalStep(was, arg.value);
      if params[n].Variadic? {
        ItemsKeepCount(params[n].elem, CK.Share(values, position, split));
      }
    }
  }

  lemma KitAdds(params: seq<Param>, n: nat, types: seq<PT.PortType>, slots: seq<Word>, load: Memory, was: Reads)
    requires n < |params| && CountVariadic(params) <= 2 && CountFixed(params) <= |types|
    ensures var next, free := KitNext(params, n, types, slots, load, was), |types| - CountFixed(params);
      var taken := if params[n].Variadic? then ShareCount(free, CountVariadic(params[..n]), CountVariadic(params) == 2) else 0;
      next.Some? ==> TotalItems(next.value.args) == TotalItems(was.args) + taken
  {
    hide KitItems, TotalItems, CountFixed, CountVariadic, ReadFixed, ReadWidth;
    var step := KitParam(params, n, types, slots, load, was.i, was.p);
    if step.Some? {
      TotalStep(was.args, step.value.arg);
    }
  }

  lemma SharesAdd(params: seq<Param>, n: nat, wires: nat)
    requires n < |params| && CountVariadic(params) <= 2
    ensures var split := CountVariadic(params) == 2;
      SharesTaken(CountVariadic(params[..n + 1]), wires, split) == SharesTaken(CountVariadic(params[..n]), wires, split)
        + (if params[n].Variadic? then ShareCount(wires, CountVariadic(params[..n]), split) else 0)
  {
    CountStep(params, n);
    CountsGrow(params, n + 1);
    hide CountVariadic, CountFixed;
  }

  lemma {:induction false} InterpreterTotal(params: seq<Param>, n: nat, values: seq<Carriers.Value>)
    requires n <= |params| && CountVariadic(params) <= 2
    ensures var split := CountVariadic(params) == 2;
      EvalArgs(params, n, values, split).Some? ==>
        TotalItems(EvalArgs(params, n, values, split).value) == SharesTaken(CountVariadic(params[..n]), |values|, split)
  {
    var split := CountVariadic(params) == 2;
    assert params[..0] == [] && CountVariadic([]) == 0 && TotalItems([]) == 0;
    assert SharesTaken(0, |values|, split) == 0;
    hide TotalItems, CountFixed, CountVariadic, EvalArg, SharesTaken, ShareCount;
    if n > 0 && EvalArgs(params, n, values, split).Some? {
      InterpreterTotal(params, n - 1, values);
      SharesAdd(params, n - 1, |values|);
      InterpreterAdds(params, n - 1, values, EvalArgs(params, n - 1, values, split).value);
    }
  }

  lemma {:induction false} KitTotal(params: seq<Param>, n: nat, types: seq<PT.PortType>, slots: seq<Word>, load: Memory)
    requires n <= |params| && CountVariadic(params) <= 2 && CountFixed(params) <= |types|
    ensures KitReads(params, n, types, slots, load).Some? ==>
      TotalItems(KitReads(params, n, types, slots, load).value.args)
        == SharesTaken(CountVariadic(params[..n]), |types| - CountFixed(params), CountVariadic(params) == 2)
  {
    assert params[..0] == [] && CountVariadic([]) == 0 && TotalItems([]) == 0;
    assert SharesTaken(0, |types| - CountFixed(params), CountVariadic(params) == 2) == 0;
    hide TotalItems, CountFixed, CountVariadic, KitNext, SharesTaken, ShareCount;
    if n > 0 && KitReads(params, n, types, slots, load).Some? {
      KitTotal(params, n - 1, types, slots, load);
      SharesAdd(params, n - 1, |types| - CountFixed(params));
      KitAdds(params, n - 1, types, slots, load, KitReads(params, n - 1, types, slots, load).value);
    }
  }

  /** A variadic needs as many wires as the signature has fixed parameters, or the kit's count underflows. */
  lemma {:induction false} TooFewWires(params: seq<Param>, n: nat, types: seq<PT.PortType>, slots: seq<Word>, load: Memory)
    requires n <= |params| && |types| < CountFixed(params) && CountVariadic(params[..n]) > 0
    ensures KitReads(params, n, types, slots, load).None?
  {
    CountStep(params, n - 1);
    if !params[n - 1].Variadic? {
      TooFewWires(params, n - 1, types, slots, load);
    }
    hide CountFixed, CountVariadic;
  }

  /**
   * Fixed wires beside a variadic are where the forms part, whatever the
   * wires are: the interpreter hands the variadics every wire, the kit those
   * the fixed ones leave.
   */
  lemma MixedFormsDiffer(params: seq<Param>, types: seq<PT.PortType>, slots: seq<Word>, load: Memory)
    requires 1 <= CountVariadic(params) <= 2 && CountFixed(params) > 0
    requires WireAt(types, |types|) <= |slots| && InterpreterArgs(params, WireValues(types, slots, load)).Some?
    ensures KitArgs(params, types, slots, load) != InterpreterArgs(params, WireValues(types, slots, load))
  {
    hide KitReads, EvalArgs, TotalItems, CountFixed, CountVariadic, WireAt;
    assert params[..|params|] == params;
    if |types| < CountFixed(params) {
      TooFewWires(params, |params|, types, slots, load);
    } else {
      InterpreterTotal(params, |params|, WireValues(types, slots, load));
      KitTotal(params, |params|, types, slots, load);
    }
  }

  /**
   * The two forms hand the body the same arguments, or panic together, exactly
   * where the signature does not mix fixed wires with variadic ones: for every
   * signature, every number of wires the interpreter takes and every slot
   * content.
   */
  lemma FormsAgreeExactly(params: seq<Param>, types: seq<PT.PortType>, slots: seq<Word>, load: Memory)
    requires Wired(params, types) && WireAt(types, |types|) <= |slots|
    ensures var kit, interpreter := KitArgs(params, types, slots, load), InterpreterArgs(params, WireValues(types, slots, load));
      && (OneKind(params) ==> kit == interpreter)
      && (interpreter.Some? ==> (kit == interpreter <==> OneKind(params)))
  {
    KitAgreesIfUniform(params, types, slots, load);
    if !OneKind(params) && InterpreterArgs(params, WireValues(types, slots, load)).Some? {
      MixedFormsDiffer(params, types, slots, load);
    }
    hide KitReads, InterpreterArgs, CountFixed, CountVariadic, WireAt, FedInOrder, SharesFed;
  }

  /** The signatures the `u64` kit takes before this kit is asked; a constant here is a scalar one. */
  predicate U64KitTakes(params: seq<Param>, elems: seq<SlotElem>) {
    && (forall e :: e in elems ==> e.Jit?)
    && (forall param :: param in params ==> param.Carrier? || param.Const? || (param.Variadic? && param.elem.U64s?))
  }

  /** The smallest such signature, which a string return puts in this kit: both argument lists. */
  lemma MixedWitness(a: Word, b: Word, load: Memory)
    ensures var params, types, slots := [Carrier(JitType.U64), Variadic(U64s)], [PT.U64, PT.U64], [a, b];
      && WireAt(types, 2) == 2 && Wired(params, types) && !U64KitTakes(params, [SlotElem.Text])
      && InterpreterArgs(params, WireValues(types, slots, load)) == Some([Plain(Num(a)), Items([Number(a), Number(b)])])
      && KitArgs(params, types, slots, load) == Some([Plain(Num(a)), Items([Number(b)])])
  {
    var params, types: seq<PT.PortType>, slots := [Carrier(JitType.U64), Variadic(U64s)], [PT.U64, PT.U64], [a, b];
    assert WireAt(types, 1) == 1 && WireAt(types, 2) == 2;
    assert params[..0] == [] && params[..1] == [params[0]] && params[..2] == params;
    CountStep(params, 0);
    CountStep(params, 1);
    assert SlotElem.Text in [SlotElem.Text];
    var first, second := Carriers.Value.U64(a), Carriers.Value.U64(b);
    var values := WireValues(types, slots, load);
    assert values == ([] + [first]) + [second];
    ItemsStep(U64s, [] + [first], second);
    ItemsStep(U64s, [], first);
    assert ([] + [Number(a)]) + [Number(b)] == [Number(a), Number(b)];
    WitnessInterpreter(params, values, a, b);
    WitnessKit(params, types, slots, load, a, b);
  }

  lemma WitnessInterpreter(params: seq<Param>, values: seq<Carriers.Value>, a: Word, b: Word)
    requires params == [Carrier(JitType.U64), Variadic(U64s)] && values == [Carriers.Value.U64(a), Carriers.Value.U64(b)]
    requires CountFixed(params[..0]) == 0 && CountVariadic(params) == 1
    requires EvalItems(U64s, values) == Some([Number(a), Number(b)])
    ensures InterpreterArgs(params, values) == Some([Plain(Num(a)), Items([Number(a), Number(b)])])
  {
    hide CountFixed, CountVariadic, EvalItems;
    assert EvalArg(params[0], values, 0, 0, false) == Some(Plain(Num(a)));
    assert [] + [Plain(Num(a))] == [Plain(Num(a))];
    assert EvalArgs(params, 1, values, false) == Some([Plain(Num(a))]);
    assert [Plain(Num(a))] + [Items([Number(a), Number(b)])] == [Plain(Num(a)), Items([Number(a), Number(b)])];
  }

  lemma WitnessKit(params: seq<Param>, types: seq<PT.PortType>, slots: seq<Word>, load: Memory, a: Word, b: Word)
    requires params == [Carrier(JitType.U64), Variadic(U64s)] && |types| == 2 && slots == [a, b]
    requires CountFixed(params) == 1 && CountVariadic(params) == 1
    ensures KitArgs(params, types, slots, load) == Some([Plain(Num(a)), Items([Number(b)])])
  {
    hide CountFixed, CountVariadic;
    assert slots[0..][0] == a && Read(JitType.U64, slots[0..]) == Num(a);
    assert [] + [Plain(Num(a))] == [Plain(Num(a))] && [] + [Number(b)] == [Number(b)];
    assert ReadItem(U64s, types, slots, load, 1, 1) == Some(Number(b));
    assert KitReads(params, 1, types, slots, load) == Some(Reads([Plain(Num(a))], 1, 1));
    assert KitItems(U64s, 1, types, slots, load, 1, 1) == Some(Listed([Number(b)], 2, 2));
    assert [Plain(Num(a))] + [Items([Number(b)])] == [Plain(Num(a)), Items([Number(b)])];
  }

  // ----- The whole closure -----

  ghost predicate BodyReturns(elems: seq<SlotElem>, body: seq<Arg> -> seq<Outcome>) {
    forall args: seq<Arg> :: AllReturned(elems, body(args))
  }

  /**
   * The compiled closure, for any signature over any wires: it panics exactly
   * where a read does, and otherwise every output reads as the value the
   * interpreter form puts there for the same arguments, each by-reference one
   * through the pair its own scratch entry publishes when the run is over.
   * Where the wires are all fixed or all variadic, the arguments are the
   * interpreter's too.
   */
  method RunSlotKit(params: seq<Param>, types: seq<PT.PortType>, elems: seq<SlotElem>, body: seq<Arg> -> seq<Outcome>,
      slots: seq<Word>, load: Memory, outputs: array<Word>, scratch: seq<ScratchBuf>) returns (panicked: bool)
    requires BodyReturns(elems, body)
    requires Owned(Declared(elems), scratch) && AllValid(scratch) && Room(elems) <= outputs.Length
    modifies outputs, scratch
    ensures AllValid(scratch)
    ensures panicked <==> KitArgs(params, types, slots, load).None?
    ensures panicked ==> outputs[..] == old(outputs[..])
    ensures !panicked ==>
      var results := body(KitArgs(params, types, slots, load).value);
      forall j :: 0 <= j < |elems| ==>
        && AllReturned(elems, results) && Returned(elems[j], results[j])
        && ReadOutput(elems[j], SlotAt(Shapes(elems), j), EntryAt(Shapes(elems), j), outputs[..], Entries(scratch))
          == Some(Output(elems[j], results[j]))
    ensures WireAt(types, |types|) <= |slots| && Uniform(params, types) ==>
      KitArgs(params, types, slots, load) == InterpreterArgs(params, WireValues(types, slots, load))
  {
    assert forall args: seq<Arg> :: AllReturned(elems, body(args));
    hide *;
    var args, i, p := ReadArgs(params, types, slots, load);
    if args.None? {
      return true;
    }
    var results := body(args.value);
    WriteResult(elems, results, outputs, scratch);
    forall j | 0 <= j < |elems|
      ensures Returned(elems[j], results[j])
      ensures ReadOutput(elems[j], SlotAt(Shapes(elems), j), EntryAt(Shapes(elems), j), outputs[..], Entries(scratch))
           == Some(Output(elems[j], results[j]))
    {
      WrittenIsOutput(elems, results, outputs[..], Entries(scratch), j);
    }
    return false;
  }

  // ----- The closure of a polymorphic return -----

  /**
   * The type a polymorphic return is written by: the declared one, or with two
   * variadics the type of the first wire of the second half. `None` where the
   * kit declines the node: there is no such wire, or it is of another color
   * than the slots set aside for the output.
   */
  function ResolvedType(params: seq<Param>, types: seq<PT.PortType>, declared: PT.PortType): Option<PT.PortType> {
    if CountVariadic(params) != 2 then Some(declared)
    else if |types| < CountFixed(params) then Option.None
    else
      var first := CountFixed(params) + (|types| - CountFixed(params)) / 2;
      if first < |types| && Color(types[first]) == Color(declared) then Some(types[first]) else Option.None
  }

  /** A value small enough to have a length in the scratch entry of its type. */
  predicate Bounded(ty: PT.PortType, v: Carriers.Value) {
    Color(ty).Ref2? && ContentOf(ElemOf(ty), v).Some? ==> Count(ContentOf(ElemOf(ty), v).value) < TWO_TO_64
  }

  /** What a reader of a polymorphic output sees: its slots by its type, or the entry whose pair it holds. */
  ghost function ReadPoly(ty: PT.PortType, outputs: seq<Word>, scratch: seq<ScratchBuf>): Option<Carriers.Value>
    requires SlotWidth(ty) <= |outputs|
    reads scratch
  {
    if !Color(ty).Ref2? then Some(Decode(ty, outputs))
    else if |scratch| > 0 && scratch[0].Valid() && (outputs[0], outputs[1]) == scratch[0].PtrLen() then Some(scratch[0].ToValue())
    else Option.None
  }

  /**
   * The compiled closure of a polymorphic return. It panics exactly where a
   * read does or where the resolved type does not carry the body's value, and
   * otherwise the output reads as that value.
   */
  method RunPolyKit(params: seq<Param>, types: seq<PT.PortType>, declared: PT.PortType, body: seq<Arg> -> Carriers.Value,
      slots: seq<Word>, load: Memory, outputs: array<Word>, scratch: seq<ScratchBuf>) returns (panicked: bool)
    requires ResolvedType(params, types, declared).Some?
    requires forall args: seq<Arg> :: Bounded(ResolvedType(params, types, declared).value, body(args))
    requires SlotWidth(declared) <= outputs.Length
    requires Color(declared).Ref2? ==>
      |scratch| > 0 && scratch[0].Valid() && scratch[0].elem == ElemOf(ResolvedType(params, types, declared).value)
    modifies outputs, scratch
    ensures var args := KitArgs(params, types, slots, load);
      panicked <==> args.None? || !Admits(ResolvedType(params, types, declared).value, body(args.value))
    ensures panicked ==> outputs[..] == old(outputs[..])
    ensures !panicked ==>
      && SlotWidth(ResolvedType(params, types, declared).value) <= outputs.Length
      && ReadPoly(ResolvedType(params, types, declared).value, outputs[..], scratch)
        == Some(body(KitArgs(params, types, slots, load).value))
    ensures WireAt(types, |types|) <= |slots| && Uniform(params, types) ==>
      KitArgs(params, types, slots, load) == InterpreterArgs(params, WireValues(types, slots, load))
  {
    var ty := ResolvedType(params, types, declared).value;
    SameColor(ty, declared);
    hide ResolvedType, KitArgs, Uniform, Color, SlotWidth, WireAt, Admits, Decode, ElemOf, ContentOf;
    var args, i, p := ReadArgs(params, types, slots, load);
    if args.None? {
      return true;
    }
    assert Bounded(ty, body(args.value));
    panicked := WritePoly(ty, body(args.value), scratch, outputs);
  }

  lemma SameColor(ty: PT.PortType, other: PT.PortType)
    ensures Color(ty) == Color(other) ==> SlotWidth(ty) == SlotWidth(other)
    ensures Color(ty).Ref2? ==> SlotWidth(ty) == 2
  {
  }

  /** A pair on a wire of a typed reference holds a value of that type. */
  predicate Typed(ty: PT.PortType, v: Carriers.Value) {
    Color(ty).Ref2? && !ty.Dyn? ==> TypeMatches(ty, v)
  }

  /** A value read off a wire is one that an output of the wire's type admits. */
  lemma ReadIsAdmitted(ty: PT.PortType, slots: seq<Word>, load: Memory)
    requires SlotWidth(ty) <= |slots| && Typed(ty, Decoded(ty, slots, load))
    ensures Admits(ty, Decoded(ty, slots, load))
  {
    hide Signed;
  }

  /**
   * The type a split-halves return is written by is that of the second half's
   * first wire, and it admits every value of that half whose wire has the same
   * type: a node that returns one of its values is then never refused.
   */
  lemma ResolvedTypeAdmits(params: seq<Param>, types: seq<PT.PortType>, slots: seq<Word>, load: Memory, declared: PT.PortType, k: nat)
    requires Uniform(params, types) && CountVariadic(params) == 2 && WireAt(types, |types|) <= |slots|
    requires ResolvedType(params, types, declared).Some?
    requires var half := CK.Share(types, 1, true);
      k < |half| && half[k] == half[0] && Typed(half[0], CK.Share(WireValues(types, slots, load), 1, true)[k])
    ensures ResolvedType(params, types, declared) == Some(CK.Share(types, 1, true)[0])
    ensures Admits(CK.Share(types, 1, true)[0], CK.Share(WireValues(types, slots, load), 1, true)[k])
  {
    hide FedInOrder, SharesFed, CountFixed, CountVariadic, Color, Admits, Decoded, Typed;
    var p := |types| / 2 + k;
    WireAtGrows(types, p, |types|);
    ReadIsAdmitted(types[p], slots[WireAt(types, p)..], load);
  }
}
