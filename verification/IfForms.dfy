/** The block form of conditional selection against the call form. */
module IfForms {
  import opened Wrappers
  import opened Ast
  import opened Parser
  import opened PrintedText
  import opened RoundTrip
  import T = Tokens

  /** The tokens spell an expression: before any token that ends one they parse to it, and leave the rest. */
  ghost predicate Spells(u: seq<T.Token>, e: Expr) {
    forall rest: seq<T.Token> :: T.Stream(rest) && Ends(rest[0]) ==>
      T.Stream(u + rest) && ParseExpr(u + rest) == Some((e, rest))
  }

  lemma SpelledParses(u: seq<T.Token>, e: Expr, rest: seq<T.Token>)
    requires Spells(u, e) && T.Stream(rest) && Ends(rest[0])
    ensures T.Stream(u + rest) && ParseExpr(u + rest) == Some((e, rest))
  {
    hide ParseExpr;
  }

  // ----- What spells an expression -----

  /** Printed tokens spell what they are read as. */
  lemma PrintedSpells(e: Expr)
    requires Printable(e)
    ensures Spells(TokensOf(e), Reread(e))
  {
    hide ParseExprBp, TokensOf, Reread, Printable;
    forall rest: seq<T.Token> | T.Stream(rest) && Ends(rest[0])
      ensures T.Stream(TokensOf(e) + rest) && ParseExpr(TokensOf(e) + rest) == Some((Reread(e), rest))
    {
      ParseExprPrinted(e, rest, 0);
    }
  }

  /** So does an operator between two of them, without parentheses. */
  lemma OperatorSpells(l: Expr, op: BinOp, r: Expr)
    requires Printable(l) && Printable(r)
    ensures Spells(TokensOf(l) + [OpToken(op)] + TokensOf(r), Binary(Reread(l), op, Reread(r)))
  {
    hide ParseExprBp, TokensOf, Reread, Printable, OpToken;
    forall rest: seq<T.Token> | T.Stream(rest) && Ends(rest[0])
      ensures T.Stream(TokensOf(l) + [OpToken(op)] + TokensOf(r) + rest)
      ensures ParseExpr(TokensOf(l) + [OpToken(op)] + TokensOf(r) + rest) == Some((Binary(Reread(l), op, Reread(r)), rest))
    {
      OperatorParses(l, op, r, rest);
    }
  }

  lemma OperatorParses(l: Expr, op: BinOp, r: Expr, rest: seq<T.Token>)
    requires Printable(l) && Printable(r) && T.Stream(rest) && Ends(rest[0])
    ensures T.Stream(TokensOf(l) + [OpToken(op)] + TokensOf(r) + rest)
    ensures ParseExpr(TokensOf(l) + [OpToken(op)] + TokensOf(r) + rest) == Some((Binary(Reread(l), op, Reread(r)), rest))
  {
    hide ParseAtom, TokensOf, ParsePostfixAs, Reread, OpToken, BinaryOperator, BindingPower, ParseOperators, Printable;
    var r2 := TokensOf(r) + rest;
    var r3 := [OpToken(op)] + r2;
    OperatorToken(op);
    ParseExprPrinted(r, rest, RightPower(op));
    OperatorsStep(Reread(l), op, r2, Reread(r), rest);
    ParseAtomPrinted(l, r3);
    NoCast(Reread(l), r3);
    EndStops(Binary(Reread(l), op, Reread(r)), rest, 0);
    assert ParseOperand(TokensOf(l) + r3) == Some((Reread(l), r3));
    Regroup4(TokensOf(l), [OpToken(op)], TokensOf(r), rest);
  }

  // ----- The first token of what spells an expression -----

  /** What cannot begin an expression. */
  lemma NoExpr(ts: seq<T.Token>)
    requires T.Stream(ts) && (ts[0] == T.RParen || ts[0] == T.Colon || Ends(ts[0]))
    ensures ParseExpr(ts) == None
  {
    assert ParseAtom(ts) == None;
    hide ParseAtom, ParsePostfixAs, ParseOperators;
    assert ParseOperand(ts) == None;
  }

  lemma SpelledBegins(u: seq<T.Token>, e: Expr)
    requires Spells(u, e)
    ensures u != [] && u[0] != T.RParen && u[0] != T.Colon && !Ends(u[0])
  {
    var rest := [T.Eof];
    SpelledParses(u, e, rest);
    if u == [] {
      assert u + rest == rest;
      NoExpr(rest);
    } else if u[0] == T.RParen || u[0] == T.Colon || Ends(u[0]) {
      assert (u + rest)[0] == u[0];
      NoExpr(u + rest);
    }
    hide ParseExpr;
  }

  /** A name before a colon is all that an expression takes of it. */
  lemma NamedStopsAtColon(ts: seq<T.Token>)
    requires T.Stream(ts) && ArgName(ts).Some? && ParseExpr(ts).Some?
    ensures ParseExpr(ts).value.1[0] == T.Colon
  {
    var rest := Tail(ts);
    assert rest[0] == T.Colon;
    NoExpr(rest);
    hide ParseExprBp;
    assert ParseIfBlock(rest) == None;
    assert ParseAtom(ts).Some? ==> ParseAtom(ts).value.1 == rest by {
      hide ParseExpr, ParseIfBlock, ParseCall, ParseFieldChain;
    }
    assert ParseExprBp(ts, 0) == ParseExpr(ts);
    ColonStops(ts);
  }

  lemma ColonStops(ts: seq<T.Token>)
    requires T.Stream(ts) && ts[0] != T.Eof && Tail(ts)[0] == T.Colon
    requires ParseAtom(ts).Some? ==> ParseAtom(ts).value.1 == Tail(ts)
    ensures ParseExprBp(ts, 0).Some? ==> ParseExprBp(ts, 0).value.1 == Tail(ts)
  {
    hide ParseAtom, BindingPower;
    if ParseAtom(ts).Some? {
      var e := ParseAtom(ts).value.0;
      assert ParsePostfixAs(e, Tail(ts)) == Some((e, Tail(ts)));
      assert ParseOperand(ts) == Some((e, Tail(ts)));
      assert ParseOperators(e, Tail(ts), 0) == Some((e, Tail(ts)));
    }
  }

  /** Tokens that spell an expression are no named argument. */
  lemma SpelledIsPositional(u: seq<T.Token>, e: Expr, rest: seq<T.Token>)
    requires Spells(u, e) && T.Stream(rest) && Ends(rest[0])
    ensures T.Stream(u + rest) && ParseArg(u + rest) == Some((Positional(e), rest))
  {
    SpelledParses(u, e, rest);
    if ArgName(u + rest).Some? {
      NamedStopsAtColon(u + rest);
    }
    hide ParseExpr, ArgName;
  }

  // ----- The two forms -----

  /** One arm of a chain: its condition and what it selects, as tokens. */
  datatype Arm = Arm(cond: seq<T.Token>, value: seq<T.Token>)

  /** `c { v } else …`, after the `if`: the next arm behind `else if`, or the last value in braces. */
  function BlockTail(arms: seq<Arm>, last: seq<T.Token>): seq<T.Token>
    requires arms != []
  {
    arms[0].cond + ([T.LBrace] + (arms[0].value + ([T.RBrace] + ([T.Ident("else")] + (
      if |arms| == 1 then [T.LBrace] + (last + [T.RBrace]) else [T.Ident("if")] + BlockTail(arms[1..], last))))))
  }

  /** `if c { v } else if c' { v' } else { w }`. */
  function BlockForm(arms: seq<Arm>, last: seq<T.Token>): seq<T.Token>
    requires arms != []
  {
    [T.Ident("if")] + BlockTail(arms, last)
  }

  /** `if(c, v, if(c', v', w))`. */
  function CallForm(arms: seq<Arm>, last: seq<T.Token>): seq<T.Token> {
    if arms == [] then last
    else
      [T.Ident("if")] + ([T.LParen] + (arms[0].cond + ([T.Comma] + (arms[0].value + ([T.Comma] + (
        CallForm(arms[1..], last) + [T.RParen]))))))
  }

  ghost predicate SpellsSome(u: seq<T.Token>) {
    exists e :: Spells(u, e)
  }

  /** Every condition and every value is an expression. */
  ghost predicate ArmsSpell(arms: seq<Arm>) {
    forall k :: 0 <= k < |arms| ==> SpellsSome(arms[k].cond) && SpellsSome(arms[k].value)
  }

  ghost function Meaning(u: seq<T.Token>): (e: Expr)
    requires SpellsSome(u)
    ensures Spells(u, e)
  {
    var e :| Spells(u, e);
    e
  }

  ghost function Selection(arms: seq<Arm>, last: seq<T.Token>): Expr
    requires ArmsSpell(arms) && SpellsSome(last)
  {
    if arms == [] then Meaning(last)
    else
      Call("if", [Positional(Meaning(arms[0].cond)), Positional(Meaning(arms[0].value)), Positional(Selection(arms[1..], last))])
  }

  // ----- The call form -----

  lemma LastArg(u: seq<T.Token>, e: Expr, rest: seq<T.Token>)
    requires Spells(u, e) && T.Stream(rest) && rest[0] == T.RParen
    ensures T.Stream(u + rest) && ParseArgs(u + rest) == Some(([Positional(e)], rest))
  {
    SpelledIsPositional(u, e, rest);
    hide ParseArg;
  }

  lemma ArgBefore(u: seq<T.Token>, e: Expr, inner: seq<T.Token>, args: seq<Arg>, rest: seq<T.Token>)
    requires Spells(u, e) && T.Stream(inner) && ParseArgs(inner) == Some((args, rest))
    ensures T.Stream(u + ([T.Comma] + inner)) && ParseArgs(u + ([T.Comma] + inner)) == Some(([Positional(e)] + args, rest))
  {
    hide ParseArg;
    TailOf(T.Comma, inner);
    SpelledIsPositional(u, e, [T.Comma] + inner);
  }

  lemma ThreeArgs(u: seq<T.Token>, c: Expr, v: seq<T.Token>, a: Expr, w: seq<T.Token>, b: Expr, rest: seq<T.Token>)
    requires Spells(u, c) && Spells(v, a) && Spells(w, b) && T.Stream(rest)
    ensures var inner := u + ([T.Comma] + (v + ([T.Comma] + (w + ([T.RParen] + rest)))));
      && T.Stream(inner) && inner[0] != T.RParen
      && ParseArgs(inner) == Some(([Positional(c), Positional(a), Positional(b)], [T.RParen] + rest))
  {
    hide Spells, ParseArgs;
    var r1 := [T.RParen] + rest;
    TailOf(T.RParen, rest);
    LastArg(w, b, r1);
    ArgBefore(v, a, w + r1, [Positional(b)], r1);
    ArgBefore(u, c, v + ([T.Comma] + (w + r1)), [Positional(a)] + [Positional(b)], r1);
    assert [Positional(c)] + ([Positional(a)] + [Positional(b)]) == [Positional(c), Positional(a), Positional(b)];
    SpelledBegins(u, c);
  }

  lemma CallGroups(u: seq<T.Token>, v: seq<T.Token>, w: seq<T.Token>, rest: seq<T.Token>)
    ensures [T.Ident("if")] + ([T.LParen] + (u + ([T.Comma] + (v + ([T.Comma] + (w + [T.RParen])))))) + rest
         == [T.Ident("if")] + ([T.LParen] + (u + ([T.Comma] + (v + ([T.Comma] + (w + ([T.RParen] + rest)))))))
  {
  }

  lemma {:induction false} CallFormParses(arms: seq<Arm>, last: seq<T.Token>, rest: seq<T.Token>)
    requires arms != [] && ArmsSpell(arms) && SpellsSome(last) && T.Stream(rest)
    ensures T.Stream(CallForm(arms, last) + rest)
    ensures ParseAtom(CallForm(arms, last) + rest) == Some((Selection(arms, last), rest))
    decreases |arms|, 0
  {
    var u, v, w := arms[0].cond, arms[0].value, CallForm(arms[1..], last);
    CallFormSpells(arms[1..], last);
    hide Spells, SpellsSome, ParseAtom, ParseArgs;
    var c, a, b := Meaning(u), Meaning(v), Selection(arms[1..], last);
    ThreeArgs(u, c, v, a, w, b, rest);
    var inner := u + ([T.Comma] + (v + ([T.Comma] + (w + ([T.RParen] + rest)))));
    CallParses("if", inner, [Positional(c), Positional(a), Positional(b)], rest);
    CallGroups(u, v, w, rest);
  }

  lemma {:induction false} CallFormSpells(arms: seq<Arm>, last: seq<T.Token>)
    requires ArmsSpell(arms) && SpellsSome(last)
    ensures Spells(CallForm(arms, last), Selection(arms, last))
    decreases |arms|, 1
  {
    hide Spells, SpellsSome, ArmsSpell, ParseAtom;
    if arms != [] {
      hide CallForm, Selection;
      forall rest: seq<T.Token> | T.Stream(rest)
        ensures T.Stream(CallForm(arms, last) + rest)
        ensures ParseAtom(CallForm(arms, last) + rest) == Some((Selection(arms, last), rest))
      {
        CallFormParses(arms, last, rest);
      }
      AtomSpells(CallForm(arms, last), Selection(arms, last));
    }
  }

  /** An atom alone is an expression. */
  lemma AtomSpells(u: seq<T.Token>, e: Expr)
    requires forall rest: seq<T.Token> :: T.Stream(rest) ==> T.Stream(u + rest) && ParseAtom(u + rest) == Some((e, rest))
    ensures Spells(u, e)
  {
    hide ParseAtom, ParsePostfixAs, ParseOperators;
    forall rest: seq<T.Token> | T.Stream(rest) && Ends(rest[0])
      ensures T.Stream(u + rest) && ParseExpr(u + rest) == Some((e, rest))
    {
      EndStops(e, rest, 0);
      assert ParseAtom(u + rest) == Some((e, rest));
      assert ParseOperand(u + rest) == Some((e, rest));
      assert ParseExprBp(u + rest, 0) == Some((e, rest));
    }
  }

  // ----- The block form -----

  lemma BracedParses(v: seq<T.Token>, a: Expr, rest: seq<T.Token>)
    requires Spells(v, a) && T.Stream(rest)
    ensures var ts := [T.LBrace] + (v + ([T.RBrace] + rest)); T.Stream(ts) && ParseBraced(ts) == Some((a, rest))
  {
    hide ParseExpr;
    TailOf(T.RBrace, rest);
    SpelledParses(v, a, [T.RBrace] + rest);
    TailOf(T.LBrace, v + ([T.RBrace] + rest));
    hide Spells;
  }

  lemma OtherwiseParses(ts: seq<T.Token>)
    requires T.Stream(ts)
    ensures T.Stream([T.Ident("else")] + ts) && ParseOtherwise([T.Ident("else")] + ts) == ParseElse(ts)
  {
    hide ParseElse;
    TailOf(T.Ident("else"), ts);
  }

  lemma BlockParses(u: seq<T.Token>, c: Expr, v: seq<T.Token>, a: Expr, ts: seq<T.Token>, b: Expr, rest: seq<T.Token>)
    requires Spells(u, c) && Spells(v, a) && T.Stream(ts) && ParseElse(ts) == Some((b, rest))
    ensures var block := u + ([T.LBrace] + (v + ([T.RBrace] + ([T.Ident("else")] + ts))));
      T.Stream(block) && ParseIfBlock(block) == Some((Call("if", [Positional(c), Positional(a), Positional(b)]), rest))
  {
    hide ParseExpr, ParseBraced, ParseElse, ParseOtherwise, Spells;
    OtherwiseParses(ts);
    var r1 := [T.Ident("else")] + ts;
    BracedParses(v, a, r1);
    var r2 := [T.LBrace] + (v + ([T.RBrace] + r1));
    SpelledParses(u, c, r2);
    assert ParseBranches(r2) == Some((a, b, rest));
  }

  lemma BlockGroups(u: seq<T.Token>, v: seq<T.Token>, w: seq<T.Token>, rest: seq<T.Token>)
    ensures u + ([T.LBrace] + (v + ([T.RBrace] + ([T.Ident("else")] + w)))) + rest
         == u + ([T.LBrace] + (v + ([T.RBrace] + ([T.Ident("else")] + (w + rest)))))
  {
  }

  lemma BracedElse(last: seq<T.Token>, b: Expr, rest: seq<T.Token>)
    requires Spells(last, b) && T.Stream(rest)
    ensures var ts := [T.LBrace] + (last + [T.RBrace]) + rest; T.Stream(ts) && ParseElse(ts) == Some((b, rest))
  {
    hide Spells, ParseBraced, ParseIfBlock;
    BracedParses(last, b, rest);
    assert [T.LBrace] + (last + [T.RBrace]) + rest == [T.LBrace] + (last + ([T.RBrace] + rest));
  }

  lemma ElseIf(tail: seq<T.Token>, b: Expr, rest: seq<T.Token>)
    requires T.Stream(tail + rest) && ParseIfBlock(tail + rest) == Some((b, rest))
    ensures var ts := [T.Ident("if")] + tail + rest; T.Stream(ts) && ParseElse(ts) == Some((b, rest))
  {
    hide ParseBraced, ParseIfBlock;
    TailOf(T.Ident("if"), tail + rest);
    assert [T.Ident("if")] + tail + rest == [T.Ident("if")] + (tail + rest);
  }

  /** The tokens behind `else`. */
  function ElsePart(arms: seq<Arm>, last: seq<T.Token>): seq<T.Token>
    requires arms != []
  {
    if |arms| == 1 then [T.LBrace] + (last + [T.RBrace]) else [T.Ident("if")] + BlockTail(arms[1..], last)
  }

  /** One arm and what is behind its `else`. */
  lemma BlockTailByArm(arms: seq<Arm>, last: seq<T.Token>)
    requires arms != [] && ArmsSpell(arms) && SpellsSome(last)
    ensures var (u, v) := (arms[0].cond, arms[0].value);
      && BlockTail(arms, last) == u + ([T.LBrace] + (v + ([T.RBrace] + ([T.Ident("else")] + ElsePart(arms, last)))))
      && SpellsSome(u) && SpellsSome(v) && ArmsSpell(arms[1..])
      && Selection(arms, last) == Call("if", [Positional(Meaning(u)), Positional(Meaning(v)), Positional(Selection(arms[1..], last))])
    ensures |arms| == 1 ==> Selection(arms[1..], last) == Meaning(last)
  {
    hide SpellsSome;
  }

  lemma {:induction false} BlockTailParses(arms: seq<Arm>, last: seq<T.Token>, rest: seq<T.Token>)
    requires arms != [] && ArmsSpell(arms) && SpellsSome(last) && T.Stream(rest)
    ensures T.Stream(BlockTail(arms, last) + rest)
    ensures ParseIfBlock(BlockTail(arms, last) + rest) == Some((Selection(arms, last), rest))
    decreases |arms|
  {
    hide Spells, SpellsSome, ArmsSpell, ParseIfBlock, ParseElse, BlockTail, Selection;
    BlockTailByArm(arms, last);
    var b, w := Selection(arms[1..], last), ElsePart(arms, last);
    if |arms| == 1 {
      BracedElse(last, b, rest);
    } else {
      BlockTailParses(arms[1..], last, rest);
      ElseIf(BlockTail(arms[1..], last), b, rest);
    }
    BlockParses(arms[0].cond, Meaning(arms[0].cond), arms[0].value, Meaning(arms[0].value), w + rest, b, rest);
    BlockGroups(arms[0].cond, arms[0].value, w, rest);
  }

  /** A condition in parentheses is read as the arguments of a call with one argument. */
  lemma ParenIsCall(ts: seq<T.Token>)
    requires T.Stream(ts) && ts[0] == T.LParen && ParseExpr(ts).Some?
    ensures ParseCall("if", Tail(ts)).Some?
    ensures exists e :: ParseCall("if", Tail(ts)).value.0 == Call("if", [Positional(e)])
  {
    var inner := Tail(ts);
    GroupInside(ts);
    var (e, rest) := ParseExpr(inner).value;
    if inner[0] == T.RParen {
      NoExpr(inner);
    }
    if ArgName(inner).Some? {
      NamedStopsAtColon(inner);
    }
    hide ParseExpr, ArgName;
    assert ParseArg(inner) == Some((Positional(e), rest));
    assert ParseArgs(inner) == Some(([Positional(e)], rest));
    assert ParseCall("if", inner).value.0 == Call("if", [Positional(e)]);
  }

  lemma GroupInside(ts: seq<T.Token>)
    requires T.Stream(ts) && ts[0] == T.LParen && ParseExpr(ts).Some?
    ensures ParseExpr(Tail(ts)).Some? && ParseExpr(Tail(ts)).value.1[0] == T.RParen
  {
    hide ParsePostfixAs, ParseOperators;
    assert ParseExpr(ts) == ParseExprBp(ts, 0);
    assert ParseOperand(ts).Some?;
    assert ParseAtom(ts).Some?;
    hide ParseExprBp;
    assert ParseGroup(Tail(ts)).Some?;
  }

  lemma IfBegins(ts: seq<T.Token>)
    requires T.Stream(ts)
    ensures T.Stream([T.Ident("if")] + ts)
    ensures ParseAtom([T.Ident("if")] + ts) == if ts[0] != T.LParen then ParseIfBlock(ts) else ParseCall("if", Tail(ts))
  {
    TailOf(T.Ident("if"), ts);
    hide ParseIfBlock, ParseCall;
  }

  /**
   * The block form, with any number of `else if` arms, parses to what the call
   * form parses to and leaves the same tokens, exactly where its first
   * condition does not begin with a parenthesis: `if (` begins a call.
   */
  lemma BlockIsCall(arms: seq<Arm>, last: seq<T.Token>, rest: seq<T.Token>)
    requires arms != [] && ArmsSpell(arms) && SpellsSome(last) && T.Stream(rest)
    ensures T.Stream(BlockForm(arms, last) + rest) && T.Stream(CallForm(arms, last) + rest)
    ensures ParseAtom(CallForm(arms, last) + rest).Some? && ParseAtom(CallForm(arms, last) + rest).value.1 == rest
    ensures arms[0].cond != []
    ensures ParseAtom(BlockForm(arms, last) + rest) == ParseAtom(CallForm(arms, last) + rest) <==> arms[0].cond[0] != T.LParen
  {
    var block := BlockTail(arms, last) + rest;
    BlockFacts(arms, last, rest);
    assert Selection(arms, last).Call? && |Selection(arms, last).args| == 3;
    hide *;
    CallFormParses(arms, last, rest);
    BlockTailParses(arms, last, rest);
    IfBegins(block);
    if arms[0].cond[0] == T.LParen {
      ConditionParses(arms, last, rest);
      ParenIsCall(block);
    }
  }

  lemma BlockFacts(arms: seq<Arm>, last: seq<T.Token>, rest: seq<T.Token>)
    requires arms != [] && ArmsSpell(arms)
    ensures arms[0].cond != [] && (BlockTail(arms, last) + rest)[0] == arms[0].cond[0]
    ensures BlockForm(arms, last) + rest == [T.Ident("if")] + (BlockTail(arms, last) + rest)
  {
    var u := arms[0].cond;
    assert SpellsSome(u);
    hide Spells;
    SpelledBegins(u, Meaning(u));
  }

  lemma ConditionParses(arms: seq<Arm>, last: seq<T.Token>, rest: seq<T.Token>)
    requires arms != [] && ArmsSpell(arms) && SpellsSome(last) && T.Stream(rest)
    ensures T.Stream(BlockTail(arms, last) + rest) && ParseExpr(BlockTail(arms, last) + rest).Some?
  {
    var u, v := arms[0].cond, arms[0].value;
    var w := ElsePart(arms, last);
    hide ParseExpr, Spells, SpellsSome, ArmsSpell, BlockTail, ElsePart;
    BlockTailByArm(arms, last);
    BlockGroups(u, v, w, rest);
    var after := [T.LBrace] + (v + ([T.RBrace] + ([T.Ident("else")] + (w + rest))));
    BraceStream(v, w, rest);
    SpelledParses(u, Meaning(u), after);
  }

  lemma BraceStream(v: seq<T.Token>, w: seq<T.Token>, rest: seq<T.Token>)
    requires T.Stream(rest)
    ensures var ts := [T.LBrace] + (v + ([T.RBrace] + ([T.Ident("else")] + (w + rest)))); T.Stream(ts) && Ends(ts[0])
  {
    StreamAfter(w, rest);
    TailOf(T.Ident("else"), w + rest);
    TailOf(T.RBrace, [T.Ident("else")] + (w + rest));
    StreamAfter(v, [T.RBrace] + ([T.Ident("else")] + (w + rest)));
    TailOf(T.LBrace, v + ([T.RBrace] + ([T.Ident("else")] + (w + rest))));
  }
}
