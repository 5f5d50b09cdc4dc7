/**
 * The comma of a structural object: the template text of an object whose
 * members may be directives, and every rendering of it.
 */
module TileStructural {
  import opened Wrappers

  // ----- Objects and templates -----

  /** A member written out, key and value: its text is given by its name. */
  datatype Member = Member(name: nat)

  /** The key of an entry, as the directive test reads it. */
  datatype Key = Static | ForKey | IfKey | ElseKey

  /** One entry of an object: a static member, or a directive over an object of members (`None` for any other value). */
  datatype Entry = Entry(key: Key, text: Member, members: Option<seq<Member>>)

  datatype Fault = StrayElse(index: nat) | NotAnObject(index: nat)

  /** Template text, one token at a time; a `for` block says whether it overrides the separator with nothing. */
  datatype Tok =
    | Item(member: Member)
    | Comma
    | ForOpen(noSep: bool)
    | IfOpen
    | ElseOpen
    | Close

  /** Where a directive member's separating comma goes. */
  datatype Position = Between | Leading | Trailing | Sep

  /** A template piece the text stands for. */
  datatype Piece =
    | Text(toks: seq<Tok>)
    | Repeat(noSep: bool, body: seq<Tok>)
    | Branch(taken: seq<Tok>, otherwise: Option<seq<Tok>>)

  // ----- Groups: an `@if` with its `@else` is one -----

  datatype Group =
    | Plain(member: Member)
    | For(body: seq<Member>)
    | If(taken: seq<Member>, otherwise: Option<seq<Member>>)

  /** The groups of the entries from `i` on, or the first fault. */
  function GroupsFrom(entries: seq<Entry>, i: nat): Result<seq<Group>, Fault>
    requires i <= |entries|
    decreases |entries| - i
  {
    if i == |entries| then Ok([])
    else
      var e := entries[i];
      match e.key
      case Static => Cons(Plain(e.text), GroupsFrom(entries, i + 1))
      case ElseKey => Err(StrayElse(i))
      case ForKey => if e.members.None? then Err(NotAnObject(i)) else Cons(For(e.members.value), GroupsFrom(entries, i + 1))
      case IfKey =>
        if e.members.None? then Err(NotAnObject(i))
        else if i + 1 < |entries| && entries[i + 1].key.ElseKey? then
          if entries[i + 1].members.None? then Err(NotAnObject(i + 1))
          else Cons(If(e.members.value, entries[i + 1].members), GroupsFrom(entries, i + 2))
        else Cons(If(e.members.value, None), GroupsFrom(entries, i + 1))
  }

  function Cons(g: Group, rest: Result<seq<Group>, Fault>): Result<seq<Group>, Fault> {
    if rest.Ok? then Ok([g] + rest.value) else rest
  }

  // ----- The template of an object -----

  function Joined(members: seq<Member>): seq<Tok> {
    if members == [] then []
    else if |members| == 1 then [Item(members[0])]
    else Joined(members[..|members| - 1]) + [Comma, Item(members[|members| - 1])]
  }

  function Body(members: seq<Member>, position: Position): seq<Tok> {
    (if position.Leading? then [Comma] else []) + Joined(members) + (if position.Trailing? then [Comma] else [])
  }

  function PositionOf(before: bool, after: bool): (position: Position)
    ensures !position.Between?
  {
    if before then Leading else if after then Trailing else Sep
  }

  function PieceOf(g: Group, before: bool, after: bool): Piece {
    if g.Plain? then Text((if before then [Comma] else []) + [Item(g.member)])
    else Placed(g, PositionOf(before, after))
  }

  /** The pieces of the groups, after a static member or not. */
  function Pieces(groups: seq<Group>, before: bool): seq<Piece> {
    if groups == [] then []
    else [PieceOf(groups[0], before, |groups| > 1)] + Pieces(groups[1..], before || groups[0].Plain?)
  }

  /** A piece as the text that spells it. */
  function Spelled(piece: Piece): seq<Tok> {
    match piece
    case Text(toks) => toks
    case Repeat(noSep, body) => Braced(ForOpen(noSep), body)
    case Branch(taken, None) => Braced(IfOpen, taken)
    case Branch(taken, Some(otherwise)) => Braced(IfOpen, taken) + Braced(ElseOpen, otherwise)
  }

  function Braced(open: Tok, body: seq<Tok>): seq<Tok> {
    [open] + body + [Close]
  }

  function SpelledAll(pieces: seq<Piece>): seq<Tok> {
    if pieces == [] then [] else Spelled(pieces[0]) + SpelledAll(pieces[1..])
  }

  // ----- The writer -----

  class Textualizer {
    var out: seq<Tok>

    constructor ()
      ensures out == []
    {
      out := [];
    }

    /** The members of a directive's object, with the comma its position calls for. */
    method Members(index: nat, value: Option<seq<Member>>, comma: Position) returns (r: Result<(), Fault>)
      modifies this
      ensures value.None? ==> r == Err(NotAnObject(index))
      ensures value.Some? ==> r.Ok? && out == old(out) + Body(value.value, comma)
    {
      if value.None? {
        return Err(NotAnObject(index));
      }
      var obj := value.value;
      if comma.Leading? {
        out := out + [Comma];
      }
      ghost var lead := out;
      assert lead + Joined(obj[..0]) == lead;
      var i := 0;
      while i < |obj|
        invariant 0 <= i <= |obj|
        invariant out == lead + Joined(obj[..i])
      {
        JoinedStep(obj, i);
        if i > 0 {
          out := out + [Comma];
        }
        out := out + [Item(obj[i])];
        i := i + 1;
      }
      assert obj[..i] == obj;
      if comma.Trailing? {
        out := out + [Comma];
      }
      assert out == old(out) + Body(obj, comma);
      return Ok(());
    }

    /** A block: its opening, its members, its close. */
    method Block(open: Tok, index: nat, value: Option<seq<Member>>, comma: Position) returns (r: Result<(), Fault>)
      modifies this
      ensures value.None? ==> r == Err(NotAnObject(index))
      ensures value.Some? ==> r.Ok? && out == old(out) + Braced(open, Body(value.value, comma))
    {
      hide Body;
      out := out + [open];
      r := Members(index, value, comma);
      if r.Ok? {
        out := out + [Close];
        assert out == old(out) + Braced(open, Body(value.value, comma));
      }
    }

    /** Whether a later entry is anything but an `@else`. */
    method HasAfter(entries: seq<Entry>, i: nat) returns (any: bool)
      requires i < |entries|
      ensures any <==> exists k :: i < k < |entries| && !entries[k].key.ElseKey?
    {
      var k := i + 1;
      while k < |entries|
        invariant i < k <= |entries|
        invariant forall l :: i < l < k ==> entries[l].key.ElseKey?
      {
        if !entries[k].key.ElseKey? {
          return true;
        }
        k := k + 1;
      }
      return false;
    }

    /** A static member: the ordinary comma between it and one before. */
    method Static(m: Member, emittedStatic: bool, ghost hasAfter: bool)
      modifies this
      ensures out == old(out) + Spelled(PieceOf(Plain(m), emittedStatic, hasAfter))
    {
      if emittedStatic {
        out := out + [Comma];
      }
      out := out + [Item(m)];
    }

    /** One directive's blocks: the same comma in the `@if` body and in its `@else` body. */
    method Directive(entries: seq<Entry>, i: nat, comma: Position) returns (r: Result<(), Fault>)
      requires i < |entries| && (entries[i].key.ForKey? || entries[i].key.IfKey?) && !comma.Between?
      modifies this
      ensures ObjectsUnder(entries, i) ==> r.Ok? && out == old(out) + Spelled(Placed(GroupAt(entries, i), comma))
      ensures !ObjectsUnder(entries, i) ==> r == Err(NotAnObject(if entries[i].members.None? then i else i + 1))
    {
      var e := entries[i];
      var open := if e.key.ForKey? then ForOpen(comma.Leading? || comma.Trailing?) else IfOpen;
      hide Body, Braced;
      ghost var start := out;
      r := Block(open, i, e.members, comma);
      if r.Ok? && e.key.IfKey? && i + 1 < |entries| && entries[i + 1].key.ElseKey? {
        r := Block(ElseOpen, i + 1, entries[i + 1].members, comma);
        if r.Ok? {
          Regroup(start, Braced(open, Body(e.members.value, comma)), Braced(ElseOpen, Body(entries[i + 1].members.value, comma)));
        }
      }
    }

    /** One turn of the object's loop: the group at `i`, and where the next one starts. */
    method Turn(entries: seq<Entry>, i: nat, emittedStatic: bool) returns (r: Result<nat, Fault>)
      requires i < |entries|
      modifies this
      ensures r.Ok? ==> i < r.value <= |entries|
      ensures GroupsFrom(entries, i).Ok? ==>
        && r.Ok? && GroupsFrom(entries, r.value).Ok?
        && out + Left(entries, r.value, emittedStatic || entries[i].key.Static?) == old(out) + Left(entries, i, emittedStatic)
      ensures GroupsFrom(entries, i).Err? ==>
        if r.Ok? then GroupsFrom(entries, r.value) == GroupsFrom(entries, i) else r.error == GroupsFrom(entries, i).error
    {
      hide PieceOf, Placed, Spelled, GroupAt, Left, PositionOf, GroupsFrom;
      var e := entries[i];
      FaultAt(entries, i);
      if e.key.ElseKey? {
        return Err(StrayElse(i));
      }
      var hasAfter := HasAfter(entries, i);
      if ObjectsUnder(entries, i) {
        LeftStep(entries, i, emittedStatic, hasAfter);
      }
      ghost var start := out;
      if e.key.Static? {
        Static(e.text, emittedStatic, hasAfter);
        GroupOfStatic(entries, i);
        Regroup(start, Spelled(PieceOf(Plain(e.text), emittedStatic, hasAfter)), Left(entries, i + 1, true));
        return Ok(i + 1);
      }
      var comma := PositionOf(emittedStatic, hasAfter);
      var done := Directive(entries, i, comma);
      if done.Err? {
        return Err(done.error);
      }
      PlacedIsPiece(entries, i, emittedStatic, hasAfter);
      var next := if HasElse(entries, i) then i + 2 else i + 1;
      Regroup(start, Spelled(Placed(GroupAt(entries, i), comma)), Left(entries, next, emittedStatic));
      return Ok(next);
    }

    /** The object's text: each group's comma depends on the static members written and the members left. */
    method Object(entries: seq<Entry>) returns (r: Result<(), Fault>)
      modifies this
      ensures GroupsFrom(entries, 0).Ok? ==>
        r.Ok? && out == old(out) + SpelledAll(Pieces(GroupsFrom(entries, 0).value, false))
      ensures GroupsFrom(entries, 0).Ok? ==>
        && |old(out)| <= |out| && CommasRightIffSafe(out[|old(out)|..], GroupsFrom(entries, 0).value)
        && KeepsMembers(out[|old(out)|..], entries, Directives(GroupsFrom(entries, 0).value))
      ensures GroupsFrom(entries, 0).Err? ==> r == Err(GroupsFrom(entries, 0).error)
    {
      ghost var before := out;
      ObjectTextIsRight(entries);
      assert GroupsFrom(entries, 0).Ok? ==>
        Left(entries, 0, false) == SpelledAll(Pieces(GroupsFrom(entries, 0).value, false));
      hide SpelledAll, Pieces, Left, GroupsFrom;
      var i: nat := 0;
      var emittedStatic := false;
      while i < |entries|
        invariant i <= |entries|
        invariant GroupsFrom(entries, 0).Err? ==> GroupsFrom(entries, i) == GroupsFrom(entries, 0)
        invariant GroupsFrom(entries, 0).Ok? ==>
          GroupsFrom(entries, i).Ok? && out + Left(entries, i, emittedStatic) == old(out) + Left(entries, 0, false)
        decreases |entries| - i
      {
        var next := Turn(entries, i, emittedStatic);
        if next.Err? {
          return Err(next.error);
        }
        emittedStatic := emittedStatic || entries[i].key.Static?;
        i := next.value;
      }
      NothingLeft(entries, emittedStatic);
      assert out + [] == out;
      hide *;
      assert GroupsFrom(entries, 0).Ok? ==> out[|before|..] == SpelledAll(Pieces(GroupsFrom(entries, 0).value, false));
      return Ok(());
    }
  }

  lemma JoinedStep(obj: seq<Member>, i: nat)
    requires i < |obj|
    ensures Joined(obj[..i + 1]) == Joined(obj[..i]) + (if i > 0 then [Comma] else []) + [Item(obj[i])]
  {
    assert obj[..i + 1][..i] == obj[..i];
  }

  lemma Regroup<T>(a: seq<T>, b: seq<T>, c: seq<T>)
    ensures a + (b + c) == (a + b) + c
  {
  }

  lemma NothingLeft(entries: seq<Entry>, before: bool)
    ensures Left(entries, |entries|, before) == [] && GroupsFrom(entries, |entries|).Ok?
  {
  }

  lemma GroupOfStatic(entries: seq<Entry>, i: nat)
    requires i < |entries| && entries[i].key.Static?
    ensures ObjectsUnder(entries, i) && GroupAt(entries, i) == Plain(entries[i].text) && !HasElse(entries, i)
  {
  }

  /** A directive's piece with its comma in one position. */
  function Placed(g: Group, position: Position): Piece
    requires !g.Plain?
  {
    match g
    case For(body) => Repeat(!position.Sep?, Body(body, position))
    case If(taken, None) => Branch(Body(taken, position), None)
    case If(taken, Some(otherwise)) => Branch(Body(taken, position), Some(Body(otherwise, position)))
  }

  lemma PlacedIsPiece(entries: seq<Entry>, i: nat, before: bool, after: bool)
    requires i < |entries| && ObjectsUnder(entries, i) && (entries[i].key.ForKey? || entries[i].key.IfKey?)
    ensures !GroupAt(entries, i).Plain?
    ensures PieceOf(GroupAt(entries, i), before, after) == Placed(GroupAt(entries, i), PositionOf(before, after))
  {
  }

  /** The text of the entries from `i` on. */
  function Left(entries: seq<Entry>, i: nat, before: bool): seq<Tok>
    requires i <= |entries|
  {
    if GroupsFrom(entries, i).Ok? then SpelledAll(Pieces(GroupsFrom(entries, i).value, before)) else []
  }

  /** Where the groups are well formed, another follows exactly when a later entry is no `@else`. */
  lemma {:induction false} LaterGroup(entries: seq<Entry>, i: nat)
    requires i <= |entries| && GroupsFrom(entries, i).Ok?
    ensures GroupsFrom(entries, i).value != [] <==> exists k :: i <= k < |entries| && !entries[k].key.ElseKey?
  {
    if i < |entries| {
      assert !entries[i].key.ElseKey?;
    }
  }

  predicate HasElse(entries: seq<Entry>, i: nat)
    requires i < |entries|
  {
    entries[i].key.IfKey? && i + 1 < |entries| && entries[i + 1].key.ElseKey?
  }

  predicate ObjectsUnder(entries: seq<Entry>, i: nat)
    requires i < |entries|
  {
    entries[i].key.Static? || (entries[i].members.Some? && (HasElse(entries, i) ==> entries[i + 1].members.Some?))
  }

  function GroupAt(entries: seq<Entry>, i: nat): Group
    requires i < |entries| && !entries[i].key.ElseKey? && ObjectsUnder(entries, i)
  {
    if entries[i].key.Static? then Plain(entries[i].text)
    else if entries[i].key.ForKey? then For(entries[i].members.value)
    else If(entries[i].members.value, if HasElse(entries, i) then entries[i + 1].members else None)
  }

  lemma FaultAt(entries: seq<Entry>, i: nat)
    requires i < |entries|
    ensures entries[i].key.ElseKey? ==> GroupsFrom(entries, i) == Err(StrayElse(i))
    ensures !entries[i].key.ElseKey? && !ObjectsUnder(entries, i) ==>
      GroupsFrom(entries, i) == Err(NotAnObject(if entries[i].members.None? then i else i + 1))
  {
  }

  /** One group's text comes first, and then the text of the entries after it. */
  lemma LeftStep(entries: seq<Entry>, i: nat, before: bool, hasAfter: bool)
    requires i < |entries| && !entries[i].key.ElseKey? && ObjectsUnder(entries, i)
    requires hasAfter <==> exists k :: i < k < |entries| && !entries[k].key.ElseKey?
    ensures var next := if HasElse(entries, i) then i + 2 else i + 1;
      && (GroupsFrom(entries, i).Err? ==> GroupsFrom(entries, next) == GroupsFrom(entries, i))
      && (GroupsFrom(entries, i).Ok? ==>
        && GroupsFrom(entries, next).Ok?
        && Left(entries, i, before)
          == Spelled(PieceOf(GroupAt(entries, i), before, hasAfter)) + Left(entries, next, before || entries[i].key.Static?))
  {
    var next := if HasElse(entries, i) then i + 2 else i + 1;
    if GroupsFrom(entries, i).Ok? {
      var rest := GroupsFrom(entries, next).value;
      var groups := GroupsFrom(entries, i).value;
      assert groups == [GroupAt(entries, i)] + rest;
      assert groups[1..] == rest;
      LaterGroup(entries, next);
      assert hasAfter <==> rest != [] by {
        if hasAfter {
          var k :| i < k < |entries| && !entries[k].key.ElseKey?;
          assert next <= k;
        }
      }
      var first := PieceOf(GroupAt(entries, i), before, hasAfter);
      var others := Pieces(rest, before || entries[i].key.Static?);
      assert Pieces(groups, before) == [first] + others;
      assert ([first] + others)[1..] == others;
    }
  }

  // ----- Renderings -----

  /** `times` renderings of a block; the encoding puts a comma between two unless the header says otherwise. */
  function Repeated(noSep: bool, body: seq<Tok>, times: nat): seq<Tok> {
    if times == 0 then []
    else if times == 1 then body
    else Repeated(noSep, body, times - 1) + (if noSep then [] else [Comma]) + body
  }

  /** One rendering of a piece: how often a `for` ran, whether an `if` was taken. */
  function Rendered(piece: Piece, choice: nat): seq<Tok> {
    match piece
    case Text(toks) => toks
    case Repeat(noSep, body) => Repeated(noSep, body, choice)
    case Branch(taken, otherwise) => if choice > 0 then taken else if otherwise.Some? then otherwise.value else []
  }

  function Rendering(pieces: seq<Piece>, choices: seq<nat>): seq<Tok>
    requires |pieces| == |choices|
  {
    if pieces == [] then [] else Rendered(pieces[0], choices[0]) + Rendering(pieces[1..], choices[1..])
  }

  /** Items and commas by turns, beginning with the one or the other. */
  predicate Alternates(toks: seq<Tok>, itemFirst: bool) {
    forall i :: 0 <= i < |toks| ==> if (i % 2 == 0) == itemFirst then toks[i].Item? else toks[i].Comma?
  }

  /** The members of an object (section 4 of RFC 8259): none, or one comma between each two and none at the ends. */
  predicate WellSeparated(toks: seq<Tok>) {
    toks == [] || Run(toks)
  }

  predicate Run(toks: seq<Tok>) {
    |toks| % 2 == 1 && Alternates(toks, true)
  }

  predicate Trailed(toks: seq<Tok>) {
    |toks| % 2 == 0 && Alternates(toks, true)
  }

  predicate Led(toks: seq<Tok>) {
    |toks| % 2 == 0 && Alternates(toks, false)
  }

  lemma AlternatesOn(a: seq<Tok>, b: seq<Tok>, itemFirst: bool)
    requires Alternates(a, itemFirst)
    requires Alternates(b, if |a| % 2 == 0 then itemFirst else !itemFirst)
    ensures Alternates(a + b, itemFirst)
  {
    forall i | 0 <= i < |a + b|
      ensures if (i % 2 == 0) == itemFirst then (a + b)[i].Item? else (a + b)[i].Comma?
    {
      if i >= |a| {
        assert (a + b)[i] == b[i - |a|];
      }
    }
  }

  lemma {:induction false} JoinedIsRun(members: seq<Member>)
    requires members != []
    ensures Run(Joined(members))
  {
    if |members| > 1 {
      var front := members[..|members| - 1];
      JoinedIsRun(front);
      AlternatesOn(Joined(front), [Comma, Item(members[|members| - 1])], true);
    }
  }

  lemma BodyShape(members: seq<Member>, position: Position)
    requires members != []
    ensures position.Leading? ==> Led(Body(members, position)) && Body(members, position) != []
    ensures position.Trailing? ==> Trailed(Body(members, position)) && Body(members, position) != []
    ensures position.Sep? ==> Run(Body(members, position))
  {
    JoinedIsRun(members);
    var joined := Joined(members);
    if position.Leading? {
      AlternatesOn([Comma], joined, false);
      assert Body(members, position) == [Comma] + joined;
    } else if position.Trailing? {
      AlternatesOn(joined, [Comma], true);
      assert Body(members, position) == joined + [Comma];
    } else {
      assert position.Sep? ==> Body(members, position) == joined;
    }
  }

  lemma {:induction false} RepeatedShape(noSep: bool, body: seq<Tok>, times: nat)
    ensures noSep && Led(body) ==> Led(Repeated(noSep, body, times))
    ensures noSep && Trailed(body) ==> Trailed(Repeated(noSep, body, times))
    ensures !noSep && Run(body) ==> WellSeparated(Repeated(noSep, body, times))
    ensures !noSep && Run(body) && times > 0 ==> Run(Repeated(noSep, body, times))
    decreases times
  {
    if times > 1 {
      RepeatedShape(noSep, body, times - 1);
      var before := Repeated(noSep, body, times - 1);
      if noSep {
        assert before + [] == before;
        if Led(body) {
          AlternatesOn(before, body, false);
        }
        if Trailed(body) {
          AlternatesOn(before, body, true);
        }
      } else if Run(body) {
        AlternatesOn(before, [Comma], true);
        AlternatesOn(before + [Comma], body, true);
      }
    }
  }

  predicate FullBodies(g: Group) {
    match g
    case Plain(_) => true
    case For(body) => body != []
    case If(taken, otherwise) => taken != [] && (otherwise.Some? ==> otherwise.value != [])
  }

  predicate AllFull(groups: seq<Group>) {
    forall i :: 0 <= i < |groups| ==> FullBodies(groups[i])
  }

  /** Whether a group renders something whatever is chosen. */
  predicate Always(g: Group) {
    g.Plain? || (g.If? && g.otherwise.Some?)
  }

  /** What each position leaves of a group, in every rendering. */
  lemma PieceShape(g: Group, before: bool, after: bool, choice: nat)
    requires FullBodies(g)
    ensures before ==> Led(Rendered(PieceOf(g, before, after), choice))
    ensures !before && g.Plain? ==> Run(Rendered(PieceOf(g, before, after), choice))
    ensures !before && !g.Plain? && after ==> Trailed(Rendered(PieceOf(g, before, after), choice))
    ensures !before && !after ==> WellSeparated(Rendered(PieceOf(g, before, after), choice))
    ensures !before && !after && Always(g) ==> Run(Rendered(PieceOf(g, before, after), choice))
    ensures !before && !g.Plain? && after && choice > 0 ==> Rendered(PieceOf(g, before, after), choice) != []
  {
    var position := PositionOf(before, after);
    NothingShape();
    hide Body, Repeated, Joined;
    if g.Plain? {
      assert [] + [Item(g.member)] == [Item(g.member)];
      assert [Comma] + [Item(g.member)] == [Comma, Item(g.member)];
    } else if g.For? {
      BodyShape(g.body, position);
      hide Run, Led, Trailed;
      RepeatedShape(!position.Sep?, Body(g.body, position), choice);
      RepeatedSome(!position.Sep?, Body(g.body, position), choice);
    } else {
      BodyShape(g.taken, position);
      if g.otherwise.Some? {
        BodyShape(g.otherwise.value, position);
      }
      hide Run, Led, Trailed;
    }
  }

  lemma NothingShape()
    ensures Led([]) && Trailed([]) && WellSeparated([])
  {
  }

  lemma RepeatedSome(noSep: bool, body: seq<Tok>, times: nat)
    requires body != []
    ensures times > 0 ==> Repeated(noSep, body, times) != []
  {
  }

  lemma {:induction false} PiecesCount(groups: seq<Group>, before: bool)
    ensures |Pieces(groups, before)| == |groups|
  {
    if groups != [] {
      PiecesCount(groups[1..], before || groups[0].Plain?);
    }
  }

  lemma ShapesJoin(a: seq<Tok>, b: seq<Tok>)
    ensures Trailed(a) && Trailed(b) ==> Trailed(a + b)
    ensures Trailed(a) && Run(b) ==> Run(a + b)
    ensures Run(a) && Led(b) ==> Run(a + b)
    ensures Led(a) && Led(b) ==> Led(a + b)
  {
    if Trailed(a) && (Trailed(b) || Run(b)) {
      AlternatesOn(a, b, true);
    }
    if Run(a) && Led(b) {
      AlternatesOn(a, b, true);
    }
    if Led(a) && Led(b) {
      AlternatesOn(a, b, false);
    }
  }

  /** Behind a static member every group brings its own comma, in front. */
  lemma {:induction false} RestIsLed(groups: seq<Group>, choices: seq<nat>)
    requires AllFull(groups) && |choices| == |groups|
    ensures |Pieces(groups, true)| == |choices| && Led(Rendering(Pieces(groups, true), choices))
  {
    if groups == [] {
      NothingShape();
    } else {
      RestIsLed(groups[1..], choices[1..]);
      PieceShape(groups[0], true, |groups| > 1, choices[0]);
      hide Led, PieceOf, Rendered;
      assert Pieces(groups, true)[1..] == Pieces(groups[1..], true);
      ShapesJoin(Rendered(PieceOf(groups[0], true, |groups| > 1), choices[0]), Rendering(Pieces(groups[1..], true), choices[1..]));
    }
  }

  predicate HasStatic(groups: seq<Group>) {
    exists i :: 0 <= i < |groups| && groups[i].Plain?
  }

  /** A rendering ends in an item when a static member, or a group that always renders, comes last among those in front. */
  predicate Anchored(groups: seq<Group>) {
    HasStatic(groups) || (groups != [] && Always(groups[|groups| - 1]))
  }

  lemma {:induction false} AnchoredIsRun(groups: seq<Group>, choices: seq<nat>)
    requires AllFull(groups) && |choices| == |groups| && Anchored(groups)
    ensures |Pieces(groups, false)| == |choices| && Run(Rendering(Pieces(groups, false), choices))
  {
    var g, rest := groups[0], groups[1..];
    var first := Rendered(PieceOf(g, false, |groups| > 1), choices[0]);
    PieceShape(g, false, |groups| > 1, choices[0]);
    if g.Plain? {
      RestIsLed(rest, choices[1..]);
      ShapesJoin(first, Rendering(Pieces(rest, true), choices[1..]));
      assert Pieces(groups, false)[1..] == Pieces(rest, true);
    } else if rest == [] {
      assert Pieces(rest, false) == [] && first + [] == first;
      assert Pieces(groups, false)[1..] == Pieces(rest, false);
    } else {
      assert Anchored(rest) by {
        if HasStatic(groups) {
          var i :| 0 <= i < |groups| && groups[i].Plain?;
          assert rest[i - 1].Plain?;
        } else {
          assert rest[|rest| - 1] == groups[|groups| - 1];
        }
      }
      AnchoredIsRun(rest, choices[1..]);
      ShapesJoin(first, Rendering(Pieces(rest, false), choices[1..]));
      assert Pieces(groups, false)[1..] == Pieces(rest, false);
    }
  }

  // ----- Counting items against commas -----

  /** Items less commas: one in every run, none in every directive that brings its comma. */
  function Surplus(toks: seq<Tok>): int {
    if toks == [] then 0
    else (if toks[0].Item? then 1 else if toks[0].Comma? then -1 else 0) + Surplus(toks[1..])
  }

  lemma {:induction false} SurplusJoin(a: seq<Tok>, b: seq<Tok>)
    ensures Surplus(a + b) == Surplus(a) + Surplus(b)
  {
    if a == [] {
      assert a + b == b;
    } else {
      assert (a + b)[1..] == a[1..] + b;
      SurplusJoin(a[1..], b);
    }
  }

  lemma {:induction false} SurplusOfTurns(toks: seq<Tok>, itemFirst: bool)
    requires Alternates(toks, itemFirst)
    ensures Surplus(toks) == if |toks| % 2 == 0 then 0 else if itemFirst then 1 else -1
  {
    if toks != [] {
      assert toks[0].Item? == itemFirst && toks[0].Comma? == !itemFirst;
      forall i | 0 <= i < |toks[1..]|
        ensures if (i % 2 == 0) == !itemFirst then toks[1..][i].Item? else toks[1..][i].Comma?
      {
        assert toks[1..][i] == toks[i + 1];
      }
      SurplusOfTurns(toks[1..], !itemFirst);
    }
  }

  lemma ShapeSurplus(toks: seq<Tok>)
    ensures Led(toks) || Trailed(toks) ==> Surplus(toks) == 0
    ensures Run(toks) ==> Surplus(toks) == 1
  {
    if Led(toks) {
      SurplusOfTurns(toks, false);
    } else if Trailed(toks) || Run(toks) {
      SurplusOfTurns(toks, true);
    }
  }

  /** The choice that leaves a group fewest items: its empty body if it has one, and no repetition otherwise. */
  function Worst(g: Group): nat {
    match g
    case Plain(_) => 0
    case For(body) => if body == [] then 1 else 0
    case If(taken, _) => if taken == [] then 1 else 0
  }

  function AllWorst(groups: seq<Group>): (choices: seq<nat>)
    ensures |choices| == |groups|
  {
    if groups == [] then [] else [Worst(groups[0])] + AllWorst(groups[1..])
  }

  /** An empty body renders its comma and nothing else, and nothing at all where no other member is. */
  lemma EmptyBodyRenders(g: Group, before: bool, after: bool)
    requires !FullBodies(g)
    ensures Rendered(PieceOf(g, before, after), Worst(g)) == if before || after then [Comma] else []
  {
    assert Body([], Leading) == [Comma] && Body([], Trailing) == [Comma] && Body([], Sep) == [];
  }

  lemma WorstSurplus(g: Group, before: bool, after: bool)
    ensures var t := Rendered(PieceOf(g, before, after), Worst(g));
      Surplus(t) <=
        if before || (after && !g.Plain?) then (if FullBodies(g) then 0 else -1)
        else if FullBodies(g) && Always(g) then 1 else 0
  {
    var t := Rendered(PieceOf(g, before, after), Worst(g));
    if FullBodies(g) {
      PieceShape(g, before, after, Worst(g));
      ShapeSurplus(t);
      if g.For? {
        assert t == [];
      } else if g.If? && g.otherwise.None? {
        assert t == [];
      }
    } else {
      EmptyBodyRenders(g, before, after);
      assert [Comma][1..] == [];
      assert Surplus([Comma]) == -1;
    }
  }

  predicate Sound(groups: seq<Group>) {
    AllFull(groups) && Anchored(groups)
  }

  /** The worst choices leave at most one item more than commas, and not even that in a template that is not sound. */
  lemma {:induction false} AllWorstSurplus(groups: seq<Group>, before: bool)
    ensures |Pieces(groups, before)| == |groups|
    ensures Surplus(Rendering(Pieces(groups, before), AllWorst(groups))) <=
      if before then (if AllFull(groups) then 0 else -1) else if Sound(groups) then 1 else 0
  {
    PiecesCount(groups, before);
    if groups != [] {
      var g, rest := groups[0], groups[1..];
      var after := before || g.Plain?;
      var first := Rendered(PieceOf(g, before, |groups| > 1), Worst(g));
      AllWorstSurplus(rest, after);
      WorstSurplus(g, before, |groups| > 1);
      TailFacts(groups);
      hide Surplus, FullBodies, AllFull, Anchored, Sound, PieceOf, Rendered, Worst;
      assert Pieces(groups, before)[1..] == Pieces(rest, after);
      assert AllWorst(groups)[1..] == AllWorst(rest);
      SurplusJoin(first, Rendering(Pieces(rest, after), AllWorst(rest)));
    }
  }

  /** How the conditions on a template come from its first group and the rest. */
  lemma TailFacts(groups: seq<Group>)
    requires groups != []
    ensures AllFull(groups) <==> FullBodies(groups[0]) && AllFull(groups[1..])
    ensures Surplus([]) == 0
    ensures groups[0].Plain? ==> FullBodies(groups[0])
    ensures groups[0].Plain? ==> (Sound(groups) <==> AllFull(groups[1..]))
    ensures !groups[0].Plain? && |groups| > 1 ==> (Sound(groups) <==> FullBodies(groups[0]) && Sound(groups[1..]))
    ensures |groups| == 1 ==> (Sound(groups) <==> FullBodies(groups[0]) && Always(groups[0]))
    ensures |groups| == 1 ==> !Sound(groups[1..]) && AllFull(groups[1..])
  {
    var rest := groups[1..];
    assert forall i :: 0 <= i < |rest| ==> rest[i] == groups[i + 1];
    assert forall i :: 0 < i < |groups| ==> groups[i] == rest[i - 1];
    if |groups| > 1 {
      assert rest[|rest| - 1] == groups[|groups| - 1];
    }
  }

  /** Choices that render something and leave no item over: the first group renders, and the rest their worst. */
  lemma Spoiler(groups: seq<Group>) returns (choices: seq<nat>)
    requires |groups| >= 2 && !Sound(groups)
    ensures |choices| == |groups| && |Pieces(groups, false)| == |groups|
    ensures Rendering(Pieces(groups, false), choices) != []
    ensures Surplus(Rendering(Pieces(groups, false), choices)) <= 0
  {
    var g, rest := groups[0], groups[1..];
    var choice := if FullBodies(g) && !g.Plain? then 1 else Worst(g);
    choices := [choice] + AllWorst(rest);
    var first := Rendered(PieceOf(g, false, true), choice);
    PiecesCount(groups, false);
    AllWorstSurplus(rest, g.Plain?);
    TailFacts(groups);
    assert Surplus(first) <= (if g.Plain? then 1 else if FullBodies(g) then 0 else -1) && first != [] by {
      if FullBodies(g) {
        PieceShape(g, false, true, choice);
        ShapeSurplus(first);
      } else {
        EmptyBodyRenders(g, false, true);
        WorstSurplus(g, false, true);
      }
    }
    hide Surplus, FullBodies, AllFull, Anchored, Sound, PieceOf, Rendered, Worst;
    assert choices[1..] == AllWorst(rest) && Pieces(groups, false)[1..] == Pieces(rest, g.Plain?);
    SurplusJoin(first, Rendering(Pieces(rest, g.Plain?), AllWorst(rest)));
  }

  /** A group alone: only a `@for` over no members goes wrong, from its second repetition on. */
  lemma LoneGroup(g: Group, choice: nat)
    ensures g.For? && g.body == [] ==> Rendered(PieceOf(g, false, false), 2) == [Comma]
    ensures !(g.For? && g.body == []) ==> WellSeparated(Rendered(PieceOf(g, false, false), choice))
  {
    if FullBodies(g) {
      PieceShape(g, false, false, choice);
    } else {
      assert Body([], Sep) == [];
      if g.For? {
        assert Repeated(false, [], 1) == [];
        assert Repeated(false, [], 2) == [] + [Comma] + [];
      } else {
        if g.taken != [] {
          BodyShape(g.taken, Sep);
        }
        if g.otherwise.Some? && g.otherwise.value != [] {
          BodyShape(g.otherwise.value, Sep);
        }
      }
    }
  }

  /** What a caller can tell from the groups alone. */
  predicate SafeGroups(groups: seq<Group>) {
    if |groups| <= 1 then groups == [] || !(groups[0].For? && groups[0].body == [])
    else AllFull(groups) && (HasStatic(groups) || Always(groups[|groups| - 1]))
  }

  /**
   * Whatever each `@for` renders and whichever arm each `@if` takes, the
   * members come out with exactly one comma between each two and none at the
   * ends, exactly when no directive body is empty and a static member is among
   * the groups or the last of them is an `@if` with an `@else`. A group alone
   * needs less: it goes wrong only as a `@for` over no members.
   */
  lemma CommasAreRight(groups: seq<Group>)
    ensures |Pieces(groups, false)| == |groups|
    ensures (forall choices: seq<nat> :: |choices| == |groups| ==> WellSeparated(Rendering(Pieces(groups, false), choices)))
      <==> SafeGroups(groups)
  {
    PiecesCount(groups, false);
    if |groups| <= 1 {
      forall choices: seq<nat> | |choices| == |groups| && SafeGroups(groups)
        ensures WellSeparated(Rendering(Pieces(groups, false), choices))
      {
        if |groups| == 1 {
          LoneGroup(groups[0], choices[0]);
          LoneRendering(groups, choices);
        }
      }
      if !SafeGroups(groups) {
        var twice: seq<nat> := [2];
        LoneGroup(groups[0], 2);
        LoneRendering(groups, twice);
        assert Rendering(Pieces(groups, false), twice)[0].Comma?;
        assert !WellSeparated(Rendering(Pieces(groups, false), twice));
      }
    } else if Sound(groups) {
      forall choices: seq<nat> | |choices| == |groups|
        ensures WellSeparated(Rendering(Pieces(groups, false), choices))
      {
        AnchoredIsRun(groups, choices);
      }
    } else {
      var choices := Spoiler(groups);
      ShapeSurplus(Rendering(Pieces(groups, false), choices));
      assert !WellSeparated(Rendering(Pieces(groups, false), choices));
    }
  }

  lemma LoneRendering(groups: seq<Group>, choices: seq<nat>)
    requires |groups| == 1 == |choices|
    ensures |Pieces(groups, false)| == 1
    ensures Rendering(Pieces(groups, false), choices) == Rendered(PieceOf(groups[0], false, false), choices[0])
  {
    var first := Rendered(PieceOf(groups[0], false, false), choices[0]);
    assert groups[1..] == [] && Pieces(groups, false)[1..] == [];
    assert first + [] == first;
  }

  /** One such object: a static member and a `@for` over no members, which renders its comma all the same. */
  lemma EmptyBodyLeavesComma(m: Member)
    ensures var groups := [Plain(m), For([])];
      |Pieces(groups, false)| == 2 && !SafeGroups(groups) && !WellSeparated(Rendering(Pieces(groups, false), [0, 1]))
  {
    var groups := [Plain(m), For([])];
    PiecesCount(groups, false);
    assert groups[1..] == [For([])] && groups[1..][1..] == [];
    var comma := PieceOf(For([]), true, false);
    assert Body([], Leading) == [Comma] && Rendered(comma, 1) == [Comma];
    var rest := Pieces(groups[1..], true);
    assert rest == [comma] && rest[1..] == [];
    assert Rendering(rest, [1]) == [Comma] + [];
    assert Pieces(groups, false)[1..] == rest && [0, 1][1..] == [1];
    assert Rendering(Pieces(groups, false), [0, 1]) == [Item(m)] + [Comma];
  }

  // ----- Nothing but commas is added, and nothing is lost -----

  function Items(toks: seq<Tok>): seq<Member> {
    if toks == [] then []
    else Items(toks[..|toks| - 1]) + (if toks[|toks| - 1].Item? then [toks[|toks| - 1].member] else [])
  }

  function Copies(members: seq<Member>, times: nat): seq<Member> {
    if times == 0 then [] else Copies(members, times - 1) + members
  }

  /** The members a choice asks of a group. */
  function Chosen(g: Group, choice: nat): seq<Member> {
    match g
    case Plain(m) => [m]
    case For(body) => Copies(body, choice)
    case If(taken, otherwise) => if choice > 0 then taken else if otherwise.Some? then otherwise.value else []
  }

  function AllChosen(groups: seq<Group>, choices: seq<nat>): seq<Member>
    requires |groups| == |choices|
  {
    if groups == [] then [] else Chosen(groups[0], choices[0]) + AllChosen(groups[1..], choices[1..])
  }

  lemma {:induction false} ItemsJoin(a: seq<Tok>, b: seq<Tok>)
    ensures Items(a + b) == Items(a) + Items(b)
  {
    if b == [] {
      assert a + b == a;
    } else {
      var front := b[..|b| - 1];
      assert (a + b)[..|a + b| - 1] == a + front;
      ItemsJoin(a, front);
    }
  }

  lemma ItemsOfLast(m: Member)
    ensures Items([Comma, Item(m)]) == [m] && Items([Item(m)]) == [m] && Items([]) == []
  {
    assert [Comma, Item(m)][..1] == [Comma] && [Comma][..0] == [] && [Item(m)][..0] == [];
  }

  lemma {:induction false} ItemsOfJoined(members: seq<Member>)
    ensures Items(Joined(members)) == members
  {
    hide Items;
    if members == [] {
      ItemsOfLast(Member(0));
    } else if |members| == 1 {
      ItemsOfLast(members[0]);
    } else {
      var front, last := members[..|members| - 1], members[|members| - 1];
      ItemsOfJoined(front);
      ItemsJoin(Joined(front), [Comma, Item(last)]);
      ItemsOfLast(last);
      hide Joined;
      assert members == front + [last];
    }
  }

  lemma ItemsOfBody(members: seq<Member>, position: Position)
    ensures Items(Body(members, position)) == members
  {
    var joined := Joined(members);
    ItemsOfJoined(members);
    assert Items([Comma]) == [] by {
      assert [Comma][..0] == [];
    }
    ItemsJoin(if position.Leading? then [Comma] else [], joined);
    ItemsJoin((if position.Leading? then [Comma] else []) + joined, if position.Trailing? then [Comma] else []);
  }

  lemma {:induction false} ItemsOfRepeated(noSep: bool, body: seq<Tok>, times: nat)
    ensures Items(Repeated(noSep, body, times)) == Copies(Items(body), times)
    decreases times
  {
    if times == 1 {
      assert Copies(Items(body), 0) + Items(body) == Items(body);
    } else if times > 1 {
      ItemsOfRepeated(noSep, body, times - 1);
      var before, sep := Repeated(noSep, body, times - 1), if noSep then [] else [Comma];
      assert Items([Comma]) == [] by {
        assert [Comma][..0] == [];
      }
      ItemsJoin(before, sep);
      ItemsJoin(before + sep, body);
      hide Items, Repeated;
      assert Items(before) + [] == Items(before);
    }
  }

  lemma ItemsOfPiece(g: Group, before: bool, after: bool, choice: nat)
    ensures Items(Rendered(PieceOf(g, before, after), choice)) == Chosen(g, choice)
  {
    var position := PositionOf(before, after);
    if g.Plain? {
      var lead := if before then [Comma] else [];
      ItemsJoin(lead, [Item(g.member)]);
      assert [Comma][..0] == [] && [Item(g.member)][..0] == [];
    } else if g.For? {
      ItemsOfBody(g.body, position);
      ItemsOfRepeated(!position.Sep?, Body(g.body, position), choice);
    } else {
      ItemsOfBody(g.taken, position);
      if g.otherwise.Some? {
        ItemsOfBody(g.otherwise.value, position);
      }
    }
  }

  /** Every rendering holds exactly the members its choices ask for, in order. */
  lemma {:induction false} RenderingKeepsMembers(groups: seq<Group>, before: bool, choices: seq<nat>)
    requires |choices| == |groups|
    ensures |Pieces(groups, before)| == |groups|
    ensures Items(Rendering(Pieces(groups, before), choices)) == AllChosen(groups, choices)
  {
    if groups != [] {
      var g, rest := groups[0], groups[1..];
      RenderingKeepsMembers(rest, before || g.Plain?, choices[1..]);
      ItemsOfPiece(g, before, |groups| > 1, choices[0]);
      ItemsJoin(Rendered(PieceOf(g, before, |groups| > 1), choices[0]), Rendering(Pieces(rest, before || g.Plain?), choices[1..]));
      assert Pieces(groups, before)[1..] == Pieces(rest, before || g.Plain?);
    }
  }

  // ----- What the text itself renders -----

  /** The tokens up to the close of a block, or all of them where none closes it. */
  function BodyLength(toks: seq<Tok>): (n: nat)
    ensures n <= |toks|
  {
    if toks == [] || toks[0].Close? then 0 else 1 + BodyLength(toks[1..])
  }

  function After(front: seq<Tok>, rest: Option<seq<Tok>>): Option<seq<Tok>> {
    if rest.Some? then Some(front + rest.value) else None
  }

  /**
   * The rendering of template text, read off its tokens: one choice for each
   * `for` and each `if`, in the order of the text. A `for` writes its block as
   * often as its choice says, with the encoding's comma between two unless the
   * header overrides the separator; an `if` writes its own block where its
   * choice is not zero, and the `else` block behind it, if any, where it is.
   * `None` where blocks do not close, an `else` has no `if`, or the choices are
   * not one for each.
   */
  function TextRendering(toks: seq<Tok>, choices: seq<nat>): Option<seq<Tok>>
    decreases |toks|
  {
    if toks == [] then if choices == [] then Some([]) else None
    else if toks[0].Item? || toks[0].Comma? then After([toks[0]], TextRendering(toks[1..], choices))
    else if toks[0].Close? || toks[0].ElseOpen? || choices == [] then None
    else
      var n := BodyLength(toks[1..]);
      if n == |toks| - 1 then None
      else
        var body, rest := toks[1..n + 1], toks[n + 2..];
        if toks[0].ForOpen? then After(Repeated(toks[0].noSep, body, choices[0]), TextRendering(rest, choices[1..]))
        else if rest != [] && rest[0].ElseOpen? then
          var m := BodyLength(rest[1..]);
          if m == |rest| - 1 then None
          else After(if choices[0] > 0 then body else rest[1..m + 1], TextRendering(rest[m + 2..], choices[1..]))
        else After(if choices[0] > 0 then body else [], TextRendering(rest, choices[1..]))
  }

  /** The choices for the directives among the groups. */
  function Picked(groups: seq<Group>, choices: seq<nat>): seq<nat>
    requires |choices| == |groups|
  {
    if groups == [] then []
    else (if groups[0].Plain? then [] else [choices[0]]) + Picked(groups[1..], choices[1..])
  }

  function Directives(groups: seq<Group>): nat {
    if groups == [] then 0 else (if groups[0].Plain? then 0 else 1) + Directives(groups[1..])
  }

  /** Choices for all groups that pick the given ones for the directives. */
  function Spread(groups: seq<Group>, picks: seq<nat>): (choices: seq<nat>)
    requires |picks| == Directives(groups)
    ensures |choices| == |groups|
  {
    if groups == [] then []
    else if groups[0].Plain? then [0] + Spread(groups[1..], picks)
    else [picks[0]] + Spread(groups[1..], picks[1..])
  }

  lemma {:induction false} SpreadPicks(groups: seq<Group>, picks: seq<nat>)
    requires |picks| == Directives(groups)
    ensures Picked(groups, Spread(groups, picks)) == picks
  {
    if groups != [] {
      var choices := Spread(groups, picks);
      if groups[0].Plain? {
        SpreadPicks(groups[1..], picks);
        assert choices[1..] == Spread(groups[1..], picks);
      } else {
        SpreadPicks(groups[1..], picks[1..]);
        assert choices[1..] == Spread(groups[1..], picks[1..]);
        assert picks == [picks[0]] + picks[1..];
      }
    }
  }

  lemma {:induction false} PickedCount(groups: seq<Group>, choices: seq<nat>)
    requires |choices| == |groups|
    ensures |Picked(groups, choices)| == Directives(groups)
  {
    if groups != [] {
      PickedCount(groups[1..], choices[1..]);
    }
  }

  /** Members and commas: what stands in a block. */
  predicate Flat(toks: seq<Tok>) {
    forall i :: 0 <= i < |toks| ==> toks[i].Item? || toks[i].Comma?
  }

  lemma {:induction false} JoinedIsFlat(members: seq<Member>)
    ensures Flat(Joined(members))
  {
    if |members| > 1 {
      JoinedIsFlat(members[..|members| - 1]);
    }
  }

  lemma BodyIsFlat(members: seq<Member>, position: Position)
    ensures Flat(Body(members, position))
  {
    JoinedIsFlat(members);
    hide Joined;
  }

  lemma {:induction false} FlatCloses(body: seq<Tok>, rest: seq<Tok>)
    requires Flat(body)
    ensures BodyLength(body + [Close] + rest) == |body|
  {
    var text := body + [Close] + rest;
    if body == [] {
      assert text[0] == Close;
    } else {
      assert text[0] == body[0] && text[1..] == body[1..] + [Close] + rest;
      FlatCloses(body[1..], rest);
    }
  }

  /** Where a block ends: its body, and what stands behind its close. */
  lemma BlockSplits(open: Tok, body: seq<Tok>, rest: seq<Tok>)
    requires Flat(body)
    ensures var text := Braced(open, body) + rest;
      && |text| == |body| + 2 + |rest| && text[0] == open && BodyLength(text[1..]) == |body|
      && text[1..|body| + 1] == body && text[|body| + 2..] == rest
  {
    var text := Braced(open, body) + rest;
    assert text[1..] == body + [Close] + rest;
    FlatCloses(body, rest);
    hide Flat, BodyLength;
  }

  lemma ForRenders(noSep: bool, body: seq<Tok>, rest: seq<Tok>, choice: nat, picks: seq<nat>)
    requires Flat(body)
    ensures TextRendering(Braced(ForOpen(noSep), body) + rest, [choice] + picks)
         == After(Repeated(noSep, body, choice), TextRendering(rest, picks))
  {
    hide Flat, Braced, Repeated;
    BlockSplits(ForOpen(noSep), body, rest);
    assert ([choice] + picks)[1..] == picks;
  }

  lemma IfRenders(taken: seq<Tok>, rest: seq<Tok>, choice: nat, picks: seq<nat>)
    requires Flat(taken) && (rest != [] ==> !rest[0].ElseOpen?)
    ensures TextRendering(Braced(IfOpen, taken) + rest, [choice] + picks)
         == After(if choice > 0 then taken else [], TextRendering(rest, picks))
  {
    hide Flat, Braced, Repeated;
    BlockSplits(IfOpen, taken, rest);
    assert ([choice] + picks)[1..] == picks;
  }

  lemma IfElseRenders(taken: seq<Tok>, otherwise: seq<Tok>, rest: seq<Tok>, choice: nat, picks: seq<nat>)
    requires Flat(taken) && Flat(otherwise)
    ensures TextRendering(Braced(IfOpen, taken) + (Braced(ElseOpen, otherwise) + rest), [choice] + picks)
         == After(if choice > 0 then taken else otherwise, TextRendering(rest, picks))
  {
    hide Flat, Braced, Repeated;
    BlockSplits(IfOpen, taken, Braced(ElseOpen, otherwise) + rest);
    BlockSplits(ElseOpen, otherwise, rest);
    assert ([choice] + picks)[1..] == picks;
  }

  lemma PlainRenders(m: Member, before: bool, rest: seq<Tok>, picks: seq<nat>)
    ensures var toks := (if before then [Comma] else []) + [Item(m)];
      TextRendering(toks + rest, picks) == After(toks, TextRendering(rest, picks))
  {
    assert ([Item(m)] + rest)[1..] == rest;
    if before {
      assert [Comma] + [Item(m)] == [Comma, Item(m)];
      assert ([Comma, Item(m)] + rest)[1..] == [Item(m)] + rest;
      if TextRendering(rest, picks).Some? {
        Regroup([Comma], [Item(m)], TextRendering(rest, picks).value);
      }
    } else {
      assert [] + [Item(m)] == [Item(m)];
    }
  }

  /** One group's text renders as its piece, whatever text follows it. */
  lemma PieceTextRenders(g: Group, before: bool, after: bool, rest: seq<Tok>, choice: nat, picks: seq<nat>)
    requires rest != [] ==> !rest[0].ElseOpen?
    ensures TextRendering(Spelled(PieceOf(g, before, after)) + rest, (if g.Plain? then [] else [choice]) + picks)
         == After(Rendered(PieceOf(g, before, after), choice), TextRendering(rest, picks))
  {
    hide TextRendering, Body, Repeated, Braced, After;
    var position := PositionOf(before, after);
    if g.Plain? {
      PlainRenders(g.member, before, rest, picks);
      assert [] + picks == picks;
    } else if g.For? {
      BodyIsFlat(g.body, position);
      ForRenders(!position.Sep?, Body(g.body, position), rest, choice, picks);
    } else {
      BodyIsFlat(g.taken, position);
      var taken := Body(g.taken, position);
      if g.otherwise.Some? {
        BodyIsFlat(g.otherwise.value, position);
        var otherwise := Body(g.otherwise.value, position);
        Regroup(Braced(IfOpen, taken), Braced(ElseOpen, otherwise), rest);
        IfElseRenders(taken, otherwise, rest, choice, picks);
      } else {
        IfRenders(taken, rest, choice, picks);
      }
    }
  }

  lemma NoElseFirst(groups: seq<Group>, before: bool)
    ensures var text := SpelledAll(Pieces(groups, before)); text != [] ==> !text[0].ElseOpen?
  {
    hide Body;
  }

  /** The text of the groups renders as their pieces do. */
  lemma {:induction false} TextIsPieces(groups: seq<Group>, before: bool, choices: seq<nat>)
    requires |choices| == |groups|
    ensures |Pieces(groups, before)| == |groups|
    ensures TextRendering(SpelledAll(Pieces(groups, before)), Picked(groups, choices))
         == Some(Rendering(Pieces(groups, before), choices))
  {
    PiecesCount(groups, before);
    if groups != [] {
      var g, rest := groups[0], groups[1..];
      var others := Pieces(rest, before || g.Plain?);
      TextIsPieces(rest, before || g.Plain?, choices[1..]);
      NoElseFirst(rest, before || g.Plain?);
      PieceTextRenders(g, before, |groups| > 1, SpelledAll(others), choices[0], Picked(rest, choices[1..]));
      hide TextRendering, PieceOf, Spelled, Rendered;
      assert Pieces(groups, before)[1..] == others;
    }
  }

  /** The text has a rendering for these choices, and its commas are right. */
  predicate RendersWell(text: seq<Tok>, picks: seq<nat>) {
    var r := TextRendering(text, picks);
    r.Some? && WellSeparated(r.value)
  }

  /** Every rendering of the text has its commas right, one choice for each directive, exactly where the groups are safe. */
  ghost predicate CommasRightIffSafe(text: seq<Tok>, groups: seq<Group>) {
    (forall picks: seq<nat> :: |picks| == Directives(groups) ==> RendersWell(text, picks)) <==> SafeGroups(groups)
  }

  /** Every rendering of the text holds exactly the members its choices ask of the entries, in order. */
  ghost predicate KeepsMembers(text: seq<Tok>, entries: seq<Entry>, directives: nat) {
    forall picks: seq<nat> :: |picks| == directives ==>
      TextRendering(text, picks).Some? && Items(TextRendering(text, picks).value) == Asked(entries, 0, picks, false)
  }

  lemma ObjectTextIsRight(entries: seq<Entry>)
    ensures GroupsFrom(entries, 0).Ok? ==>
      var groups := GroupsFrom(entries, 0).value;
      var text := SpelledAll(Pieces(groups, false));
      CommasRightIffSafe(text, groups) && KeepsMembers(text, entries, Directives(groups))
  {
    if GroupsFrom(entries, 0).Ok? {
      var groups := GroupsFrom(entries, 0).value;
      TextCommasAreRight(groups);
      hide GroupsFrom, CommasRightIffSafe, Pieces, SpelledAll, TextRendering, Asked;
      forall picks: seq<nat> | |picks| == Directives(groups)
        ensures var r := TextRendering(SpelledAll(Pieces(groups, false)), picks); r.Some? && Items(r.value) == Asked(entries, 0, picks, false)
      {
        TextKeepsMembers(entries, picks);
      }
    }
  }

  /** The commas of the text the writer writes. */
  lemma TextCommasAreRight(groups: seq<Group>)
    ensures CommasRightIffSafe(SpelledAll(Pieces(groups, false)), groups)
  {
    var text := SpelledAll(Pieces(groups, false));
    CommasAreRight(groups);
    hide TextRendering, Pieces, SpelledAll, Rendering, WellSeparated, SafeGroups;
    if SafeGroups(groups) {
      forall picks: seq<nat> | |picks| == Directives(groups) ensures RendersWell(text, picks) {
        TextIsPieces(groups, false, Spread(groups, picks));
        SpreadPicks(groups, picks);
      }
    } else {
      var choices: seq<nat> :| |choices| == |groups| && !WellSeparated(Rendering(Pieces(groups, false), choices));
      TextIsPieces(groups, false, choices);
      PickedCount(groups, choices);
      assert !RendersWell(text, Picked(groups, choices));
    }
  }

  /** The members the choices ask of the entries, entry by entry; `taken` says whether the `@if` just before was. */
  function Asked(entries: seq<Entry>, i: nat, picks: seq<nat>, taken: bool): seq<Member>
    requires i <= |entries|
    decreases |entries| - i
  {
    if i == |entries| then []
    else
      var e := entries[i];
      var members := if e.members.Some? then e.members.value else [];
      match e.key
      case Static => [e.text] + Asked(entries, i + 1, picks, false)
      case ElseKey => (if taken then [] else members) + Asked(entries, i + 1, picks, false)
      case ForKey => if picks == [] then [] else Copies(members, picks[0]) + Asked(entries, i + 1, picks[1..], false)
      case IfKey =>
        if picks == [] then []
        else (if picks[0] > 0 then members else []) + Asked(entries, i + 1, picks[1..], picks[0] > 0)
  }

  /** What a group's entries ask for is what the group's choice does. */
  lemma AskedStep(entries: seq<Entry>, i: nat, picks: seq<nat>, taken: bool)
    requires i < |entries| && !entries[i].key.ElseKey? && ObjectsUnder(entries, i)
    requires !entries[i].key.Static? ==> picks != []
    ensures var next := if HasElse(entries, i) then i + 2 else i + 1;
      var choice, left := if entries[i].key.Static? then 0 else picks[0], if entries[i].key.Static? then picks else picks[1..];
      Asked(entries, i, picks, taken)
        == Chosen(GroupAt(entries, i), choice) + Asked(entries, next, left, entries[i].key.IfKey? && !HasElse(entries, i) && choice > 0)
  {
    hide Copies;
    if HasElse(entries, i) {
      var own, other := if picks[0] > 0 then entries[i].members.value else [], if picks[0] > 0 then [] else entries[i + 1].members.value;
      Regroup(own, other, Asked(entries, i + 2, picks[1..], false));
      assert own + other == Chosen(GroupAt(entries, i), picks[0]);
    }
  }

  lemma {:induction false} AskedIsChosen(entries: seq<Entry>, i: nat, picks: seq<nat>, taken: bool)
    requires i <= |entries| && GroupsFrom(entries, i).Ok? && |picks| == Directives(GroupsFrom(entries, i).value)
    ensures Asked(entries, i, picks, taken) == AllChosen(GroupsFrom(entries, i).value, Spread(GroupsFrom(entries, i).value, picks))
    decreases |entries| - i
  {
    if i < |entries| {
      FaultAt(entries, i);
      var next := if HasElse(entries, i) then i + 2 else i + 1;
      var groups, rest := GroupsFrom(entries, i).value, GroupsFrom(entries, next).value;
      assert groups == [GroupAt(entries, i)] + rest && groups[1..] == rest;
      var left := if entries[i].key.Static? then picks else picks[1..];
      var choice := if entries[i].key.Static? then 0 else picks[0];
      AskedIsChosen(entries, next, left, entries[i].key.IfKey? && !HasElse(entries, i) && choice > 0);
      assert Spread(groups, picks) == [choice] + Spread(rest, left);
      assert Spread(groups, picks)[1..] == Spread(rest, left);
      AskedStep(entries, i, picks, taken);
      hide Asked, GroupsFrom, Spread, Copies, Directives;
    }
  }

  /** Every rendering of the text holds exactly the members its choices ask of the entries, in order. */
  lemma TextKeepsMembers(entries: seq<Entry>, picks: seq<nat>)
    requires GroupsFrom(entries, 0).Ok? && |picks| == Directives(GroupsFrom(entries, 0).value)
    ensures var r := TextRendering(SpelledAll(Pieces(GroupsFrom(entries, 0).value, false)), picks);
      r.Some? && Items(r.value) == Asked(entries, 0, picks, false)
  {
    hide *;
    var groups := GroupsFrom(entries, 0).value;
    var choices := Spread(groups, picks);
    SpreadPicks(groups, picks);
    TextIsPieces(groups, false, choices);
    RenderingKeepsMembers(groups, false, choices);
    AskedIsChosen(entries, 0, picks, false);
  }
}
