/**
 * The two evaluation forms the node macro emits for a node over carriers:
 * the interpreter form reads one value per wire, the compiled form reads a
 * flat slot buffer at prefix-sum offsets. Both call the same body.
 */
module CompiledKit {
  import opened Carriers
  import opened Words
  import opened Wrappers

  /** A parameter of a node: a wire, a captured constant, or a list of all the wires. */
  datatype Param = Wire(t: JitType) | Const(value: Native) | Variadic

  datatype Arg = One(v: Native) | Many(words: seq<Word>)

  /** A node's signature and its body, of which nothing is known. */
  datatype Node = Node(params: seq<Param>, outs: seq<JitType>, body: seq<Arg> -> seq<Native>)

  ghost predicate AllTyped(types: seq<JitType>, values: seq<Native>) {
    |types| == |values| && forall i :: 0 <= i < |types| ==> HasType(types[i], values[i])
  }

  ghost predicate BodyTyped(node: Node) {
    forall args: seq<Arg> :: AllTyped(node.outs, node.body(args))
  }

  // ----- Layout -----

  function TotalWidth(types: seq<JitType>): nat {
    if types == [] then 0 else Width(types[0]) + TotalWidth(types[1..])
  }

  /** The slot at which value `i` of a list starts: the widths before it, added up. */
  function Offset(types: seq<JitType>, i: nat): nat
    requires i <= |types|
  {
    if i == 0 then 0 else Offset(types, i - 1) + Width(types[i - 1])
  }

  function WriteAll(types: seq<JitType>, values: seq<Native>): seq<Word>
    requires AllTyped(types, values)
  {
    if types == [] then [] else Write(types[0], values[0]) + WriteAll(types[1..], values[1..])
  }

  lemma {:induction false} OffsetOfTail(types: seq<JitType>, i: nat)
    requires 0 < i <= |types|
    ensures Offset(types, i) == Width(types[0]) + Offset(types[1..], i - 1)
  {
    if i > 1 {
      OffsetOfTail(types, i - 1);
      assert types[1..][i - 2] == types[i - 1];
    }
  }

  lemma {:induction false} WriteAllCounts(types: seq<JitType>, values: seq<Native>)
    requires AllTyped(types, values)
    ensures |WriteAll(types, values)| == TotalWidth(types) == Offset(types, |types|)
  {
    if types != [] {
      WriteAllCounts(types[1..], values[1..]);
      OffsetOfTail(types, |types|);
    }
  }

  lemma ReadLooksAhead(t: JitType, front: seq<Word>, rest: seq<Word>)
    requires |front| == Width(t)
    ensures Read(t, front + rest) == Read(t, front)
  {
    hide Signed, Unsigned, View;
  }

  /** Values written one after another are read back at their prefix-sum offsets. */
  lemma {:induction false} LayoutRoundTrip(types: seq<JitType>, values: seq<Native>, i: nat)
    requires AllTyped(types, values) && i < |types|
    ensures var slots := WriteAll(types, values);
      && Offset(types, i) + Width(types[i]) <= |slots|
      && Read(types[i], slots[Offset(types, i)..]) == values[i]
  {
    var first := Write(types[0], values[0]);
    var rest := WriteAll(types[1..], values[1..]);
    if i == 0 {
      ReadLooksAhead(types[0], first, rest);
      ReadInvertsWrite(types[0], values[0]);
      assert (first + rest)[0..] == first + rest;
    } else {
      LayoutRoundTrip(types[1..], values[1..], i - 1);
      OffsetOfTail(types, i);
      assert (first + rest)[Offset(types, i)..] == rest[Offset(types[1..], i - 1)..];
    }
  }

  // ----- The interpreter form -----

  function Variadics(params: seq<Param>): nat {
    if params == [] then 0 else (if params[0].Variadic? then 1 else 0) + Variadics(params[1..])
  }

  /** Every value as a `u64`; `None` where the source panics. */
  function AllU64(values: seq<Value>): Option<seq<Word>> {
    if values == [] then Some([])
    else
      var rest := AllU64(values[1..]);
      if values[0].U64? && rest.Some? then Some([values[0].u] + rest.value) else Option.None
  }

  /** What a variadic sees of the wires: all of them, or its half when there are two variadics. */
  function Share<T>(wires: seq<T>, position: nat, split: bool): seq<T> {
    var half := |wires| / 2;
    if !split then wires else if position == 0 then wires[..half] else wires[half..]
  }

  /** One argument of the interpreter form. */
  function EvalArg(param: Param, inputs: seq<Value>, wireIdx: nat, position: nat, split: bool): Option<Arg> {
    match param
    case Wire(t) =>
      if wireIdx >= |inputs| then Option.None
      else
        var v := Extract(t, inputs[wireIdx]);
        if v.Some? then Some(One(v.value)) else Option.None
    case Const(c) => Some(One(c))
    case Variadic =>
      var words := AllU64(Share(inputs, position, split));
      if words.Some? then Some(Many(words.value)) else Option.None
  }

  function Prepend(args: seq<Arg>, rest: Option<seq<Arg>>): Option<seq<Arg>> {
    if rest.Some? then Some(args + rest.value) else Option.None
  }

  /** The arguments of the interpreter form; the next wire is number `wireIdx`, the next variadic number `position`. */
  function EvalArgs(params: seq<Param>, inputs: seq<Value>, wireIdx: nat, position: nat, split: bool): Option<seq<Arg>>
    decreases |params|
  {
    if params == [] then Some([])
    else
      var first := EvalArg(params[0], inputs, wireIdx, position, split);
      var rest := EvalArgs(
        params[1..], inputs,
        if params[0].Wire? then wireIdx + 1 else wireIdx,
        if params[0].Variadic? then position + 1 else position, split);
      if first.Some? then Prepend([first.value], rest) else Option.None
  }

  function InterpreterArgs(node: Node, inputs: seq<Value>): Option<seq<Arg>> {
    EvalArgs(node.params, inputs, 0, 0, Variadics(node.params) == 2)
  }

  function InjectAll(types: seq<JitType>, values: seq<Native>): (r: seq<Value>)
    requires AllTyped(types, values)
    ensures |r| == |types| && forall i :: 0 <= i < |r| ==> r[i] == Inject(types[i], values[i])
  {
    if types == [] then [] else [Inject(types[0], values[0])] + InjectAll(types[1..], values[1..])
  }

  lemma Regroup<T>(a: seq<T>, b: seq<T>, c: seq<T>)
    ensures a + (b + c) == (a + b) + c
  {
  }

  lemma Empty(rest: Option<seq<Arg>>)
    ensures Prepend([], rest) == rest
  {
    if rest.Some? {
      assert [] + rest.value == rest.value;
    }
  }

  lemma EvalArgsStep(params: seq<Param>, i: nat, args: seq<Arg>, inputs: seq<Value>, wireIdx: nat, position: nat, split: bool)
    requires i < |params|
    ensures var first := EvalArg(params[i], inputs, wireIdx, position, split);
      var rest := EvalArgs(
        params[i + 1..], inputs,
        if params[i].Wire? then wireIdx + 1 else wireIdx,
        if params[i].Variadic? then position + 1 else position, split);
      Prepend(args, EvalArgs(params[i..], inputs, wireIdx, position, split))
      == if first.Some? then Prepend(args + [first.value], rest) else Option.None
  {
    hide EvalArg;
    assert params[i..][1..] == params[i + 1..];
    var first := EvalArg(params[i], inputs, wireIdx, position, split);
    var rest := EvalArgs(
      params[i + 1..], inputs,
      if params[i].Wire? then wireIdx + 1 else wireIdx,
      if params[i].Variadic? then position + 1 else position, split);
    if first.Some? && rest.Some? {
      Regroup(args, [first.value], rest.value);
    }
  }

  /** `eval`: bind the arguments in order, run the body, and put one value on each output. */
  method Eval(node: Node, inputs: seq<Value>, outputs: array<Value>) returns (panicked: bool)
    requires BodyTyped(node) && |node.outs| <= outputs.Length
    modifies outputs
    ensures panicked <==> InterpreterArgs(node, inputs).None?
    ensures !panicked ==>
      var result := node.body(InterpreterArgs(node, inputs).value);
      outputs[..] == InjectAll(node.outs, result) + old(outputs[|node.outs|..])
    ensures panicked ==> outputs[..] == old(outputs[..])
  {
    var split := Variadics(node.params) == 2;
    var args: seq<Arg> := [];
    var wireIdx: nat, position: nat, i: nat := 0, 0, 0;
    assert node.params[0..] == node.params;
    Empty(EvalArgs(node.params, inputs, 0, 0, split));
    hide EvalArg, BodyTyped;
    while i < |node.params|
      invariant i <= |node.params| && outputs[..] == old(outputs[..])
      invariant InterpreterArgs(node, inputs) == Prepend(args, EvalArgs(node.params[i..], inputs, wireIdx, position, split))
    {
      EvalArgsStep(node.params, i, args, inputs, wireIdx, position, split);
      var arg := EvalArg(node.params[i], inputs, wireIdx, position, split);
      if arg.None? {
        return true;
      }
      args := args + [arg.value];
      if node.params[i].Wire? {
        wireIdx := wireIdx + 1;
      } else if node.params[i].Variadic? {
        position := position + 1;
      }
      i := i + 1;
    }
    assert args + [] == args;
    CallTyped(node, args);
    InjectTuple(node.outs, node.body(args), outputs);
    return false;
  }

  method InjectTuple(types: seq<JitType>, values: seq<Native>, outputs: array<Value>)
    requires AllTyped(types, values) && |types| <= outputs.Length
    modifies outputs
    ensures outputs[..] == InjectAll(types, values) + old(outputs[|types|..])
  {
    hide HasType, Inject;
    var o := 0;
    while o < |types|
      invariant 0 <= o <= |types|
      invariant forall k :: 0 <= k < o ==> outputs[k] == Inject(types[k], values[k])
      invariant forall k :: o <= k < outputs.Length ==> outputs[k] == old(outputs[k])
    {
      outputs[o] := Inject(types[o], values[o]);
      o := o + 1;
    }
    assert outputs[..o] == InjectAll(types, values);
  }

  lemma CallTyped(node: Node, args: seq<Arg>)
    requires BodyTyped(node)
    ensures AllTyped(node.outs, node.body(args))
  {
  }

  // ----- The compiled form -----

  function ParamWidth(param: Param): nat {
    if param.Wire? then Width(param.t) else 0
  }

  function WiresWidth(params: seq<Param>): nat {
    if params == [] then 0 else ParamWidth(params[0]) + WiresWidth(params[1..])
  }

  function CompiledArg(param: Param, slots: seq<Word>, at: nat): Arg
    requires at + ParamWidth(param) <= |slots|
  {
    match param
    case Wire(t) => One(Read(t, slots[at..]))
    case Const(c) => One(c)
    case Variadic => Many(slots)
  }

  /** The arguments of the compiled form; the next wire starts at slot `at`, and a variadic is the buffer itself. */
  function CompiledArgs(params: seq<Param>, slots: seq<Word>, at: nat): seq<Arg>
    requires at + WiresWidth(params) <= |slots|
  {
    if params == [] then []
    else [CompiledArg(params[0], slots, at)] + CompiledArgs(params[1..], slots, at + ParamWidth(params[0]))
  }

  /** The compiled closure: read at prefix sums, run the body, write at prefix sums. */
  method RunCompiled(node: Node, inputs: seq<Word>, outputs: array<Word>)
    requires BodyTyped(node)
    requires WiresWidth(node.params) <= |inputs| && TotalWidth(node.outs) <= outputs.Length
    modifies outputs
    ensures outputs[..] ==
      WriteAll(node.outs, node.body(CompiledArgs(node.params, inputs, 0))) + old(outputs[TotalWidth(node.outs)..])
  {
    hide BodyTyped, Width, Read, Write, HasType, CompiledArg;
    var args: seq<Arg> := [];
    var wireBufIdx: nat, i: nat := 0, 0;
    assert node.params[0..] == node.params;
    assert [] + CompiledArgs(node.params, inputs, 0) == CompiledArgs(node.params, inputs, 0);
    while i < |node.params|
      invariant i <= |node.params| && wireBufIdx + WiresWidth(node.params[i..]) <= |inputs|
      invariant outputs[..] == old(outputs[..])
      invariant args + CompiledArgs(node.params[i..], inputs, wireBufIdx) == CompiledArgs(node.params, inputs, 0)
    {
      var param := node.params[i];
      assert node.params[i..][1..] == node.params[i + 1..];
      var arg := CompiledArg(param, inputs, wireBufIdx);
      Regroup(args, [arg], CompiledArgs(node.params[i + 1..], inputs, wireBufIdx + ParamWidth(param)));
      args := args + [arg];
      wireBufIdx := wireBufIdx + ParamWidth(param);
      i := i + 1;
    }
    assert CompiledArgs(node.params[i..], inputs, wireBufIdx) == [] && args + [] == args;
    CallTyped(node, args);
    WriteTuple(node.outs, node.body(args), outputs);
  }

  lemma WriteAllStep(types: seq<JitType>, values: seq<Native>, i: nat)
    requires AllTyped(types, values) && i < |types|
    ensures AllTyped(types[i..], values[i..]) && AllTyped(types[i + 1..], values[i + 1..])
    ensures WriteAll(types[i..], values[i..]) == Write(types[i], values[i]) + WriteAll(types[i + 1..], values[i + 1..])
    ensures TotalWidth(types[i..]) == Width(types[i]) + TotalWidth(types[i + 1..])
  {
    hide HasType, Write;
    assert types[i..][1..] == types[i + 1..] && values[i..][1..] == values[i + 1..];
  }

  /** The write of element `i`: its slots at `outOff`, and everything else as it was. */
  method WriteElement(types: seq<JitType>, values: seq<Native>, i: nat, outOff: nat, outputs: array<Word>)
    requires AllTyped(types, values) && i < |types| && outOff + TotalWidth(types[i..]) <= outputs.Length
    modifies outputs
    ensures AllTyped(types[i..], values[i..]) && AllTyped(types[i + 1..], values[i + 1..])
    ensures TotalWidth(types[i..]) == Width(types[i]) + TotalWidth(types[i + 1..])
    ensures outputs[..outOff + Width(types[i])] + WriteAll(types[i + 1..], values[i + 1..])
         == old(outputs[..outOff]) + WriteAll(types[i..], values[i..])
    ensures outputs[outOff + Width(types[i])..] == old(outputs[outOff + Width(types[i])..])
  {
    hide HasType, WriteAll, TotalWidth, Write;
    WriteAllStep(types, values, i);
    ghost var done := outputs[..outOff];
    var slots := Write(types[i], values[i]);
    WriteSlots(slots, outputs, outOff);
    Regroup(done, slots, WriteAll(types[i + 1..], values[i + 1..]));
    assert outputs[..outOff + Width(types[i])] == done + slots;
  }

  lemma NoElements(types: seq<JitType>, values: seq<Native>)
    requires AllTyped(types, values) && types == []
    ensures WriteAll(types, values) == [] && TotalWidth(types) == 0
  {
  }

  /** Each element of a result is written at the widths before it, added up. */
  method WriteTuple(types: seq<JitType>, values: seq<Native>, outputs: array<Word>)
    requires AllTyped(types, values) && TotalWidth(types) <= outputs.Length
    modifies outputs
    ensures outputs[..] == WriteAll(types, values) + old(outputs[TotalWidth(types)..])
  {
    hide HasType, WriteAll, TotalWidth, Width;
    var outOff: nat, i: nat := 0, 0;
    assert types[0..] == types && values[0..] == values;
    ghost var before := outputs[..];
    while i < |types|
      invariant i <= |types| == |values| && outOff + TotalWidth(types[i..]) == TotalWidth(types)
      invariant AllTyped(types[i..], values[i..])
      invariant outputs[..outOff] + WriteAll(types[i..], values[i..]) == WriteAll(types, values)
      invariant outputs[outOff..] == before[outOff..]
    {
      WriteElement(types, values, i, outOff, outputs);
      outOff := outOff + Width(types[i]);
      i := i + 1;
    }
    NoElements(types[i..], values[i..]);
    assert outputs[..] == outputs[..outOff] + outputs[outOff..];
  }

  /** One carrier's slots: one assignment, or two. */
  method WriteSlots(slots: seq<Word>, outputs: array<Word>, at: nat)
    requires 1 <= |slots| <= 2 && at + |slots| <= outputs.Length
    modifies outputs
    ensures outputs[..] == old(outputs[..at]) + slots + old(outputs[at + |slots|..])
  {
    outputs[at] := slots[0];
    if |slots| == 2 {
      outputs[at + 1] := slots[1];
    }
  }

  // ----- The diagram -----

  predicate NoVariadic(params: seq<Param>) {
    forall i :: 0 <= i < |params| ==> !params[i].Variadic?
  }

  /** The values the slots of the wires stand for, one per wire. */
  function WireValues(params: seq<Param>, slots: seq<Word>, at: nat): seq<Value>
    requires at + WiresWidth(params) <= |slots|
  {
    if params == [] then []
    else if params[0].Wire? then
      PortShape(params[0].t);
      [Decode(Port(params[0].t), slots[at..])] + WireValues(params[1..], slots, at + Width(params[0].t))
    else WireValues(params[1..], slots, at)
  }

  /** The values of a buffer of `u64` wires. */
  function U64Values(slots: seq<Word>): (values: seq<Value>)
    ensures |values| == |slots|
    ensures forall i :: 0 <= i < |slots| ==> values[i] == Value.U64(slots[i])
  {
    seq(|slots|, i requires 0 <= i < |slots| => Value.U64(slots[i]))
  }

  /** The interpreter's list of every variadic is the whole buffer. */
  predicate ListsAgree(params: seq<Param>, inputs: seq<Value>, slots: seq<Word>, position: nat, split: bool)
    decreases |params|
  {
    params == [] || (
      && (params[0].Variadic? ==> AllU64(Share(inputs, position, split)) == Some(slots))
      && ListsAgree(params[1..], inputs, slots, if params[0].Variadic? then position + 1 else position, split))
  }

  lemma SameCons<T>(a: T, x: seq<T>, b: T, y: seq<T>)
    ensures [a] + x == [b] + y <==> a == b && x == y
  {
    assert ([a] + x)[0] == a && ([a] + x)[1..] == x;
    assert ([b] + y)[0] == b && ([b] + y)[1..] == y;
  }

  /** One argument in the two forms: a wire or a constant is the same, a list where the interpreter reads the whole buffer. */
  lemma ArgAgrees(param: Param, slots: seq<Word>, at: nat, inputs: seq<Value>, wireIdx: nat, position: nat, split: bool)
    requires at + ParamWidth(param) <= |slots|
    requires param.Wire? ==> wireIdx < |inputs| && (PortShape(param.t); inputs[wireIdx] == Decode(Port(param.t), slots[at..]))
    ensures EvalArg(param, inputs, wireIdx, position, split) == Some(CompiledArg(param, slots, at))
      <==> (param.Variadic? ==> AllU64(Share(inputs, position, split)) == Some(slots))
  {
    hide Extract, Decode, Read, AllU64, Share;
    if param.Wire? {
      ReadIsExtract(param.t, slots[at..]);
    }
  }

  /** The wires after the first parameter, and the first parameter's own. */
  lemma NextWire(params: seq<Param>, slots: seq<Word>, at: nat, inputs: seq<Value>, wireIdx: nat)
    requires params != [] && at + WiresWidth(params) <= |slots| && wireIdx <= |inputs|
    requires WireValues(params, slots, at) <= inputs[wireIdx..]
    ensures var next := if params[0].Wire? then wireIdx + 1 else wireIdx;
      next <= |inputs| && WireValues(params[1..], slots, at + ParamWidth(params[0])) <= inputs[next..]
    ensures params[0].Wire? ==> (PortShape(params[0].t); inputs[wireIdx] == Decode(Port(params[0].t), slots[at..]))
  {
    if params[0].Wire? {
      PortShape(params[0].t);
      var tail := inputs[wireIdx..];
      assert inputs[wireIdx] == tail[0] && inputs[wireIdx + 1..] == tail[1..];
      var first := Decode(Port(params[0].t), slots[at..]);
      var rest := WireValues(params[1..], slots, at + Width(params[0].t));
      hide Decode, WiresWidth;
      assert [first] + rest <= tail;
      assert ([first] + rest)[1..] == rest && tail[..|rest| + 1][1..] == tail[1..][..|rest|];
    }
  }

  /** One value per wire or one slot run per wire: the body is handed the same arguments where the lists agree. */
  lemma {:induction false} ArgsAgree(params: seq<Param>, slots: seq<Word>, at: nat, inputs: seq<Value>, wireIdx: nat,
      position: nat, split: bool)
    requires at + WiresWidth(params) <= |slots| && wireIdx <= |inputs|
    requires WireValues(params, slots, at) <= inputs[wireIdx..]
    ensures EvalArgs(params, inputs, wireIdx, position, split) == Some(CompiledArgs(params, slots, at))
      <==> ListsAgree(params, inputs, slots, position, split)
    decreases |params|
  {
    hide Decode, AllU64, Share, EvalArg, CompiledArg, WireValues;
    if params != [] {
      var param, rest := params[0], params[1..];
      var nextWire, nextList := if param.Wire? then wireIdx + 1 else wireIdx, if param.Variadic? then position + 1 else position;
      NextWire(params, slots, at, inputs, wireIdx);
      ArgAgrees(param, slots, at, inputs, wireIdx, position, split);
      ArgsAgree(rest, slots, at + ParamWidth(param), inputs, nextWire, nextList, split);
      var first, others := EvalArg(param, inputs, wireIdx, position, split), EvalArgs(rest, inputs, nextWire, nextList, split);
      if first.Some? && others.Some? {
        SameCons(first.value, others.value, CompiledArg(param, slots, at), CompiledArgs(rest, slots, at + ParamWidth(param)));
      }
    }
  }

  lemma {:induction false} ListsAgreeEach(params: seq<Param>, inputs: seq<Value>, slots: seq<Word>, position: nat, split: bool)
    ensures ListsAgree(params, inputs, slots, position, split)
      <==> forall q :: position <= q < position + Variadics(params) ==> AllU64(Share(inputs, q, split)) == Some(slots)
    decreases |params|
  {
    if params != [] {
      hide AllU64, Share;
      ListsAgreeEach(params[1..], inputs, slots, if params[0].Variadic? then position + 1 else position, split);
    }
  }

  // ----- Where the lists agree -----

  /** The carriers whose one slot is what their value on the wire holds as a `u64`. */
  predicate RidesU64(t: JitType) {
    t.U64? || t.U8? || t.U16? || t.U32? || t.F32? || t.F16?
  }

  predicate WiresRideU64(params: seq<Param>) {
    forall param :: param in params && param.Wire? ==> RidesU64(param.t)
  }

  lemma WireRidesU64(t: JitType, slots: seq<Word>)
    requires Width(t) <= |slots|
    ensures SlotWidth(Port(t)) == Width(t) && !Color(Port(t)).Ref2?
    ensures RidesU64(t) ==> Width(t) == 1 && Decode(Port(t), slots) == Value.U64(slots[0])
    ensures !RidesU64(t) ==> !Decode(Port(t), slots).U64?
  {
    PortShape(t);
    hide Signed;
  }

  lemma {:induction false} AllU64IsAll(values: seq<Value>)
    ensures AllU64(values).Some? <==> forall v :: v in values ==> v.U64?
    ensures AllU64(values).Some? ==> |AllU64(values).value| == |values|
  {
    if values != [] {
      AllU64IsAll(values[1..]);
      assert values == [values[0]] + values[1..];
    }
  }

  lemma {:induction false} WordsOfU64Values(slots: seq<Word>)
    ensures AllU64(U64Values(slots)) == Some(slots)
  {
    if slots != [] {
      WordsOfU64Values(slots[1..]);
      assert U64Values(slots)[1..] == U64Values(slots[1..]);
      assert slots == [slots[0]] + slots[1..];
    }
  }

  lemma U64ValuesCons(slots: seq<Word>, i: nat, j: nat)
    requires i < j <= |slots|
    ensures U64Values(slots[i..j]) == [Value.U64(slots[i])] + U64Values(slots[i + 1..j])
  {
  }

  lemma RidesByFirst(params: seq<Param>)
    requires params != []
    ensures WiresRideU64(params) <==> (params[0].Wire? ==> RidesU64(params[0].t)) && WiresRideU64(params[1..])
  {
    hide RidesU64;
    assert params == [params[0]] + params[1..];
  }

  /** Some value is not a `u64`. */
  predicate OtherThanU64(values: seq<Value>) {
    exists v :: v in values && !v.U64?
  }

  lemma OtherByFirst(first: Value, rest: seq<Value>)
    ensures OtherThanU64([first] + rest) <==> !first.U64? || OtherThanU64(rest)
  {
    if !first.U64? {
      assert first in [first] + rest;
    } else if OtherThanU64(rest) {
      var v :| v in rest && !v.U64?;
      assert v in [first] + rest;
    }
  }

  /** No wire takes less than a slot, and every wire is a `u64` exactly where every carrier rides as one. */
  lemma {:induction false} WiresAreU64s(params: seq<Param>, slots: seq<Word>, at: nat)
    requires at + WiresWidth(params) <= |slots|
    ensures |WireValues(params, slots, at)| <= WiresWidth(params)
    ensures WiresRideU64(params) ==> WireValues(params, slots, at) == U64Values(slots[at..at + WiresWidth(params)])
    ensures !WiresRideU64(params) ==> OtherThanU64(WireValues(params, slots, at))
    decreases |params|
  {
    hide Decode, RidesU64, Color, SlotWidth, Port, Width, OtherThanU64, WiresRideU64;
    if params == [] {
      NoWiresRide();
    } else {
      var rest, next := params[1..], at + ParamWidth(params[0]);
      WiresAreU64s(rest, slots, next);
      RidesByFirst(params);
      if params[0].Wire? {
        WireRidesU64(params[0].t, slots[at..]);
        OtherByFirst(Decode(Port(params[0].t), slots[at..]), WireValues(rest, slots, next));
        U64ValuesCons(slots, at, at + WiresWidth(params));
      }
    }
  }

  lemma NoWiresRide()
    ensures WiresRideU64([])
  {
  }

  /** The values on the wires of a signature: the fixed ones first, and `u64`s on whatever slots they leave. */
  function Inputs(params: seq<Param>, slots: seq<Word>): seq<Value>
    requires WiresWidth(params) <= |slots|
  {
    WireValues(params, slots, 0) + U64Values(slots[WiresWidth(params)..])
  }

  lemma U64ValuesJoin(slots: seq<Word>, n: nat)
    requires n <= |slots|
    ensures U64Values(slots[0..n]) + U64Values(slots[n..]) == U64Values(slots)
  {
  }

  lemma WholeListAgrees(params: seq<Param>, slots: seq<Word>)
    requires WiresWidth(params) <= |slots|
    ensures |Inputs(params, slots)| <= |slots|
    ensures AllU64(Inputs(params, slots)) == Some(slots) <==> WiresRideU64(params)
  {
    hide WireValues, WiresWidth, WiresRideU64, AllU64;
    var wires, inputs := WireValues(params, slots, 0), Inputs(params, slots);
    WiresAreU64s(params, slots, 0);
    if WiresRideU64(params) {
      U64ValuesJoin(slots, WiresWidth(params));
      WordsOfU64Values(slots);
    } else {
      var v :| v in wires && !v.U64?;
      assert v in inputs;
      AllU64IsAll(inputs);
    }
  }

  lemma HalfListDiffers(inputs: seq<Value>, slots: seq<Word>)
    requires |inputs| <= |slots| && slots != []
    ensures AllU64(Share(inputs, 0, true)) != Some(slots)
  {
    AllU64IsAll(Share(inputs, 0, true));
    hide AllU64;
  }

  /** Two variadics get the wires in order: the first the lower half, the second the rest, which is one more of an odd number. */
  lemma SharesAreHalves<T>(lower: seq<T>, upper: seq<T>)
    requires |lower| <= |upper| <= |lower| + 1
    ensures Share(lower + upper, 0, true) == lower && Share(lower + upper, 1, true) == upper
  {
    assert |lower + upper| / 2 == |lower|;
  }

  lemma TwoListsOfU64s(node: Node, lower: seq<Word>, upper: seq<Word>)
    requires node.params == [Variadic, Variadic] && |lower| <= |upper| <= |lower| + 1
    ensures InterpreterArgs(node, U64Values(lower + upper)) == Some([Many(lower), Many(upper)])
  {
    var inputs := U64Values(lower + upper);
    SharesAreHalves(lower, upper);
    ShareOfU64Values(lower + upper, 0, true);
    ShareOfU64Values(lower + upper, 1, true);
    hide Share, AllU64;
    var rest := node.params[1..];
    assert rest == [Variadic] && rest[1..] == [] && Variadics(rest) == 1 && Variadics(node.params) == 2;
    assert EvalArgs(rest[1..], inputs, 0, 2, true) == Some([]);
    assert EvalArgs(rest, inputs, 0, 1, true) == Some([Many(upper)] + []);
    assert [Many(lower)] + ([Many(upper)] + []) == [Many(lower), Many(upper)];
  }

  /** The variadic's own words, as the interpreter slices them. */
  lemma ShareOfU64Values(slots: seq<Word>, position: nat, split: bool)
    ensures AllU64(Share(U64Values(slots), position, split)) == Some(Share(slots, position, split))
  {
    assert Share(U64Values(slots), position, split) == U64Values(Share(slots, position, split));
    WordsOfU64Values(Share(slots, position, split));
  }

  lemma EmptyListsAgree(position: nat, split: bool)
    ensures AllU64(Share([], position, split)) == Some([])
  {
  }

  /**
   * For every signature the `u64` kit takes and every bit pattern, the two
   * forms hand the body the same arguments exactly where there is no variadic,
   * or no slot at all, or one variadic beside wires that all ride as `u64`:
   * the kit hands a variadic the whole buffer, the interpreter one value per
   * wire, and half of the wires where there are two variadics.
   */
  lemma U64FormsAgree(node: Node, slots: seq<Word>)
    requires WiresWidth(node.params) <= |slots|
    ensures InterpreterArgs(node, Inputs(node.params, slots)) == Some(CompiledArgs(node.params, slots, 0)) <==>
      || Variadics(node.params) == 0
      || slots == []
      || (Variadics(node.params) != 2 && WiresRideU64(node.params))
  {
    var params, inputs, split := node.params, Inputs(node.params, slots), Variadics(node.params) == 2;
    assert inputs[0..] == inputs;
    ArgsAgree(params, slots, 0, inputs, 0, 0, split);
    ListsAgreeEach(params, inputs, slots, 0, split);
    WholeListAgrees(params, slots);
    hide EvalArgs, ListsAgree, Variadics, AllU64, WiresRideU64, Inputs, CompiledArgs, WiresWidth;
    assert forall q :: !split ==> Share(inputs, q, split) == inputs;
    if slots == [] {
      forall q: nat | q < Variadics(params) ensures AllU64(Share(inputs, q, split)) == Some(slots) {
        EmptyListsAgree(q, split);
      }
    } else if split {
      HalfListDiffers(inputs, slots);
    } else if Variadics(params) > 0 {
      assert Share(inputs, 0, split) == inputs;
    }
  }

  /** The slots of a list of scalar values, in order. */
  function EncodeAll(values: seq<Value>): Option<seq<Word>> {
    if values == [] then Some([])
    else
      var first, rest := Encode(values[0]), EncodeAll(values[1..]);
      if first.Some? && rest.Some? then Some(first.value + rest.value) else Option.None
  }

  /** The values a host reads off a buffer, by the port types of its outputs. */
  function DecodeAll(types: seq<JitType>, slots: seq<Word>): seq<Value>
    requires TotalWidth(types) <= |slots|
  {
    if types == [] then []
    else
      PortShape(types[0]);
      [Decode(Port(types[0]), slots)] + DecodeAll(types[1..], slots[Width(types[0])..])
  }

  lemma DecodeLooksAhead(t: JitType, front: seq<Word>, rest: seq<Word>)
    requires |front| == Width(t)
    ensures !Color(Port(t)).Ref2? && SlotWidth(Port(t)) == Width(t)
    ensures Decode(Port(t), front + rest) == Decode(Port(t), front)
  {
    PortShape(t);
    hide Color, SlotWidth, Signed;
  }

  lemma {:induction false} WriteAllIsInjectAll(types: seq<JitType>, values: seq<Native>)
    requires AllTyped(types, values)
    ensures EncodeAll(InjectAll(types, values)) == Some(WriteAll(types, values))
    ensures TotalWidth(types) == |WriteAll(types, values)|
    ensures DecodeAll(types, WriteAll(types, values)) == InjectAll(types, values)
  {
    WriteAllCounts(types, values);
    if types != [] {
      var first, rest := Write(types[0], values[0]), WriteAll(types[1..], values[1..]);
      WriteAllIsInjectAll(types[1..], values[1..]);
      WriteIsInject(types[0], values[0]);
      DecodeLooksAhead(types[0], first, rest);
      assert (first + rest)[|first|..] == rest;
      hide Decode, Encode, Inject, Write, HasType;
      assert InjectAll(types, values)[1..] == InjectAll(types[1..], values[1..]);
    }
  }

  lemma {:induction false} NoLists(params: seq<Param>, inputs: seq<Value>, slots: seq<Word>, position: nat, split: bool)
    requires NoVariadic(params)
    ensures ListsAgree(params, inputs, slots, position, split)
  {
    if params != [] {
      NoLists(params[1..], inputs, slots, position, split);
    }
  }

  /**
   * For every signature of wires and constants, every body and every bit
   * pattern: on the values the slots stand for, the interpreter form does not
   * panic, its output values encode to the slots the compiled form writes, and
   * a host that reads those slots sees those values.
   */
  lemma FormsAgree(node: Node, slots: seq<Word>)
    requires BodyTyped(node) && NoVariadic(node.params) && WiresWidth(node.params) <= |slots|
    ensures var args := CompiledArgs(node.params, slots, 0);
      var compiled := WriteAll(node.outs, node.body(args));
      && InterpreterArgs(node, WireValues(node.params, slots, 0)) == Some(args)
      && EncodeAll(InjectAll(node.outs, node.body(args))) == Some(compiled)
      && TotalWidth(node.outs) == |compiled|
      && DecodeAll(node.outs, compiled) == InjectAll(node.outs, node.body(args))
  {
    var inputs := WireValues(node.params, slots, 0);
    assert inputs[0..] == inputs;
    ArgsAgree(node.params, slots, 0, inputs, 0, 0, Variadics(node.params) == 2);
    NoLists(node.params, inputs, slots, 0, Variadics(node.params) == 2);
    hide EvalArgs, CompiledArgs, ListsAgree, NoVariadic, WiresWidth, WireValues;
    WriteAllIsInjectAll(node.outs, node.body(CompiledArgs(node.params, slots, 0)));
  }
}
