/** Parsing what the printer printed. */
module RoundTrip {
  import opened Wrappers
  import opened Ast
  import opened PortTypes
  import opened Interpolation
  import opened PrintedText
  import opened Parser
  import Lexer
  import Printer
  import T = Tokens

  // ------------------------------------------------------------------
  // What a printed expression reads back as
  // ------------------------------------------------------------------

  /** The expression with every string literal respelled and interpreted: what
      printing, lexing and parsing makes of it. */
  function Reread(e: Expr): Expr
    decreases e, 1
  {
    match e
    case StringLit(s) => Interpret(Respell(s))
    case ArrayLit(es) => ArrayLit(RereadList(es))
    case Call(f, args) => Call(f, RereadArgs(args))
    case Binary(l, op, r) => Binary(Reread(l), op, Reread(r))
    case UnaryNeg(x) => UnaryNeg(Reread(x))
    case UnaryBitNot(x) => UnaryBitNot(Reread(x))
    case Cast(x, ty) => Cast(Reread(x), ty)
    case _ => e
  }

  function RereadList(es: seq<Expr>): (r: seq<Expr>)
    ensures |r| == |es|
    decreases es, 0
  {
    if es == [] then [] else [Reread(es[0])] + RereadList(es[1..])
  }

  function RereadArgs(args: seq<Arg>): (r: seq<Arg>)
    ensures |r| == |args|
    decreases args, 0
  {
    if args == [] then [] else [RereadArg(args[0])] + RereadArgs(args[1..])
  }

  function RereadArg(arg: Arg): Arg
    decreases arg, 2
  {
    match arg
    case Positional(e) => Positional(Reread(e))
    case Named(name, e) => Named(name, Reread(e))
  }

  // ------------------------------------------------------------------
  // Printed tokens parse
  // ------------------------------------------------------------------

  /** A token that ends an expression. */
  predicate Ends(t: T.Token) {
    t == T.RParen || t == T.RBracket || t == T.Comma || t == T.LBrace || t == T.RBrace || t == T.Eof
  }

  /** A token that extends no name before it. */
  predicate Quiet(t: T.Token) {
    t != T.LParen && t != T.Dot
  }

  lemma StreamAfter(a: seq<T.Token>, rest: seq<T.Token>)
    requires T.Stream(rest)
    ensures T.Stream(a + rest)
  {
    assert (a + rest)[|a + rest| - 1] == rest[|rest| - 1];
  }

  lemma TailOf(t: T.Token, rest: seq<T.Token>)
    requires T.Stream(rest) && t != T.Eof
    ensures T.Stream([t] + rest) && ([t] + rest)[0] == t && Tail([t] + rest) == rest
  {
    StreamAfter([t], rest);
    assert ([t] + rest)[1..] == rest;
  }

  lemma FirstToken(e: Expr)
    ensures TokensOf(e) != []
    ensures var t := TokensOf(e)[0];
            t != T.RParen && t != T.RBracket && t != T.Eof && t != T.Comma
  {}

  lemma OperatorToken(op: BinOp)
    ensures BinaryOperator(OpToken(op)) == Some(op)
    ensures OpToken(op) != T.Eof && Quiet(OpToken(op)) && OpToken(op) != T.Ident("as")
  {}

  lemma EndStops(e: Expr, rest: seq<T.Token>, min: nat)
    requires T.Stream(rest) && Ends(rest[0])
    ensures ParsePostfixAs(e, rest) == Some((e, rest))
    ensures ParseOperators(e, rest, min) == Some((e, rest))
  {}

  lemma NoCast(e: Expr, rest: seq<T.Token>)
    requires T.Stream(rest) && rest[0] != T.Ident("as")
    ensures ParsePostfixAs(e, rest) == Some((e, rest))
  {}

  /** The tokens of a printed expression parse as an atom, whatever follows. */
  lemma {:induction false} ParseAtomPrinted(e: Expr, rest: seq<T.Token>)
    requires Printable(e) && T.Stream(rest) && Quiet(rest[0])
    ensures T.Stream(TokensOf(e) + rest)
    ensures ParseAtom(TokensOf(e) + rest) == Some((Reread(e), rest))
    decreases e, 1
  {
    match e
    case Ident(name) => ParseNamePrinted(name, rest);
    case IntLit(v) => TailOf(T.IntLit(v), rest);
    case StringLit(s) => TailOf(T.StringLit(Respell(s)), rest);
    case ArrayLit(es) => ParseArrayPrinted(es, rest);
    case Call(f, args) => ParseCallPrinted(f, args, rest);
    case Binary(l, op, r) => ParseBinaryPrinted(l, op, r, rest);
    case UnaryNeg(x) => ParseUnaryPrinted(e, T.Minus, x, rest);
    case UnaryBitNot(x) => ParseUnaryPrinted(e, T.Bang, x, rest);
    case FieldAccess(source, field) => ParseFieldPrinted(source, field, rest);
    case Cast(x, ty) => ParseCastPrinted(x, ty, rest);
  }

  /** The tokens of a printed expression parse as that expression before a token that
      ends one. */
  lemma ParseExprPrinted(e: Expr, rest: seq<T.Token>, min: nat)
    requires Printable(e) && T.Stream(rest) && Ends(rest[0])
    ensures T.Stream(TokensOf(e) + rest)
    ensures ParseExprBp(TokensOf(e) + rest, min) == Some((Reread(e), rest))
    decreases e, 2
  {
    ParseAtomPrinted(e, rest);
    hide ParseAtom, ParseOperators, ParsePostfixAs, TokensOf, Reread;
    EndStops(Reread(e), rest, min);
  }

  lemma ParseNamePrinted(name: string, rest: seq<T.Token>)
    requires IsName(name) && name != "if" && T.Stream(rest) && Quiet(rest[0])
    ensures T.Stream([NameToken(name)] + rest)
    ensures ParseAtom([NameToken(name)] + rest) == Some((Ident(name), rest))
  {
    NameIsNamed(name, rest);
    hide ParseAtom, ParseIfBlock, ParseCall, ParseFieldChain, IsName;
  }

  /** A name's token leads to its name, soft keyword or not. */
  lemma NameIsNamed(name: string, rest: seq<T.Token>)
    requires T.Stream(rest)
    ensures T.Stream([NameToken(name)] + rest)
    ensures ParseAtom([NameToken(name)] + rest)
         == if NameToken(name).Ident? then ParseNamed(name, rest) else ParseSoft(name, rest)
  {
    hide ParseNamed, ParseSoft;
    TailOf(NameToken(name), rest);
  }

  lemma NameIsExpected(name: string, rest: seq<T.Token>)
    requires T.Stream(rest)
    ensures T.Stream([NameToken(name)] + rest) && ExpectIdent([NameToken(name)] + rest) == Some((name, rest))
  {
    TailOf(NameToken(name), rest);
  }

  lemma ChainEnds(source: string, name: string, rest: seq<T.Token>)
    requires T.Stream(rest) && rest[0] != T.Dot
    ensures var ts := [T.Dot] + ([NameToken(name)] + rest);
      T.Stream(ts) && ParseFieldChain(source, ts) == Some((FieldAccess(source, name), rest))
  {
    hide NameToken, ExpectIdent;
    NameIsExpected(name, rest);
    TailOf(T.Dot, [NameToken(name)] + rest);
  }

  lemma ChainBegins(name: string, ts: seq<T.Token>)
    requires name != "if" && T.Stream(ts) && ts[0] == T.Dot
    ensures T.Stream([NameToken(name)] + ts) && ParseAtom([NameToken(name)] + ts) == ParseFieldChain(name, ts)
  {
    hide ParseAtom, ParseFieldChain, ParseIfBlock, ParseCall;
    NameIsNamed(name, ts);
  }

  lemma ParseFieldPrinted(source: string, field: string, rest: seq<T.Token>)
    requires IsName(source) && source != "if" && IsName(field) && T.Stream(rest) && Quiet(rest[0])
    ensures var ts := [NameToken(source)] + [T.Dot] + [NameToken(field)] + rest;
            T.Stream(ts) && ParseAtom(ts) == Some((FieldAccess(source, field), rest))
  {
    hide IsName, NameToken, ParseAtom, ParseFieldChain;
    var ts := [T.Dot] + ([NameToken(field)] + rest);
    ChainEnds(source, field, rest);
    assert ts[0] == T.Dot;
    ChainBegins(source, ts);
    Regroup4([NameToken(source)], [T.Dot], [NameToken(field)], rest);
  }

  /** A group: an expression that parses up to its closing parenthesis. */
  lemma GroupParses(inner: seq<T.Token>, e: Expr, rest: seq<T.Token>)
    requires T.Stream(inner) && T.Stream(rest)
    requires ParseExprBp(inner, 0) == Some((e, [T.RParen] + rest))
    ensures T.Stream([T.LParen] + inner) && ParseAtom([T.LParen] + inner) == Some((e, rest))
  {
    TailOf(T.LParen, inner);
    TailOf(T.RParen, rest);
    hide ParseExprBp;
    assert ParseExpr(inner) == Some((e, [T.RParen] + rest));
    assert ParseGroup(inner) == Some((e, rest));
  }

  lemma PrefixParses(t: T.Token, inner: seq<T.Token>, x: Expr, rest: seq<T.Token>)
    requires t == T.Minus || t == T.Bang
    requires T.Stream(inner) && ParseAtom(inner) == Some((x, rest))
    ensures T.Stream([t] + inner)
    ensures ParseAtom([t] + inner) == Some((if t == T.Minus then UnaryNeg(x) else UnaryBitNot(x), rest))
  {
    TailOf(t, inner);
  }

  lemma OperatorsStep(lhs: Expr, op: BinOp, inner: seq<T.Token>, rhs: Expr, rest: seq<T.Token>)
    requires T.Stream(inner) && T.Stream(rest) && ParseExprBp(inner, RightPower(op)) == Some((rhs, rest))
    ensures T.Stream([OpToken(op)] + inner)
    ensures ParseOperators(lhs, [OpToken(op)] + inner, 0) == ParseOperators(Binary(lhs, op, rhs), rest, 0)
  {
    OperatorToken(op);
    hide OpToken, BinaryOperator, BindingPower, ParseExprBp;
    TailOf(OpToken(op), inner);
  }

  lemma PrefixExprParses(t: T.Token, inner: seq<T.Token>, x: Expr, rest: seq<T.Token>)
    requires t == T.Minus || t == T.Bang
    requires T.Stream(inner) && T.Stream(rest) && ParseAtom(inner) == Some((x, [T.RParen] + rest))
    ensures T.Stream([t] + inner)
    ensures ParseExprBp([t] + inner, 0) == Some((if t == T.Minus then UnaryNeg(x) else UnaryBitNot(x), [T.RParen] + rest))
  {
    hide ParseAtom, ParseOperators, ParsePostfixAs;
    TailOf(T.RParen, rest);
    PrefixParses(t, inner, x, [T.RParen] + rest);
    EndStops(if t == T.Minus then UnaryNeg(x) else UnaryBitNot(x), [T.RParen] + rest, 0);
  }

  lemma RereadUnary(e: Expr, x: Expr)
    requires e == UnaryNeg(x) || e == UnaryBitNot(x)
    ensures Reread(e) == if e.UnaryNeg? then UnaryNeg(Reread(x)) else UnaryBitNot(Reread(x))
  {}

  lemma ParseUnaryPrinted(e: Expr, t: T.Token, x: Expr, rest: seq<T.Token>)
    requires (e == UnaryNeg(x) && t == T.Minus) || (e == UnaryBitNot(x) && t == T.Bang)
    requires Printable(x) && T.Stream(rest)
    ensures var ts := [T.LParen] + [t] + TokensOf(x) + [T.RParen] + rest;
            T.Stream(ts) && ParseAtom(ts) == Some((Reread(e), rest))
    decreases x, 3
  {
    hide *;
    RereadUnary(e, x);
    var r1 := [T.RParen] + rest;
    var r2 := TokensOf(x) + r1;
    TailOf(T.RParen, rest);
    ParseAtomPrinted(x, r1);
    PrefixExprParses(t, r2, Reread(x), rest);
    GroupParses([t] + r2, Reread(e), rest);
    Regroup5([T.LParen], [t], TokensOf(x), [T.RParen], rest);
  }

  lemma Regroup4(a: seq<T.Token>, b: seq<T.Token>, c: seq<T.Token>, d: seq<T.Token>)
    ensures a + b + c + d == a + (b + (c + d))
  {}

  lemma Regroup5(a: seq<T.Token>, b: seq<T.Token>, c: seq<T.Token>, d: seq<T.Token>, e: seq<T.Token>)
    ensures a + b + c + d + e == a + (b + (c + (d + e)))
  {}

  lemma Regroup6(a: seq<T.Token>, b: seq<T.Token>, c: seq<T.Token>, d: seq<T.Token>, e: seq<T.Token>, f: seq<T.Token>)
    ensures a + b + c + d + e + f == a + (b + (c + (d + (e + f))))
  {}

  lemma Regroup(a: seq<T.Token>, b: seq<T.Token>, c: seq<T.Token>)
    ensures a + b + c == a + (b + c)
  {}

  lemma ParseCastPrinted(x: Expr, ty: PortType, rest: seq<T.Token>)
    requires Printable(x) && T.Stream(rest)
    ensures var ts := [T.LParen] + TokensOf(x) + [T.Ident("as")] + [T.Ident(ToKeyword(ty))] + [T.RParen] + rest;
            T.Stream(ts) && ParseAtom(ts) == Some((Cast(Reread(x), ty), rest))
    decreases x, 3
  {
    hide ParseAtom, TokensOf, ParseOperators, ToKeyword, FromKeyword, Reread;
    var r1 := [T.RParen] + rest;
    var r2 := [T.Ident(ToKeyword(ty))] + r1;
    var r3 := [T.Ident("as")] + r2;
    var r4 := TokensOf(x) + r3;
    TailOf(T.RParen, rest);
    TailOf(T.Ident(ToKeyword(ty)), r1);
    TailOf(T.Ident("as"), r2);
    ParseAtomPrinted(x, r3);
    KeywordRoundTrip(ty);
    var e := Cast(Reread(x), ty);
    EndStops(e, r1, 0);
    assert ParsePostfixAs(Reread(x), r3) == ParsePostfixAs(e, r1);
    assert ParseExprBp(r4, 0) == Some((e, r1));
    GroupParses(r4, e, rest);
    Regroup6([T.LParen], TokensOf(x), [T.Ident("as")], [T.Ident(ToKeyword(ty))], [T.RParen], rest);
  }

  /** Every type is the one its keyword names. */
  lemma KeywordRoundTrip(ty: PortType)
    ensures FromKeyword(ToKeyword(ty)) == Some(ty)
  {
    hide FromKeyword, ToKeyword;
    if |ToKeyword(ty)| == 3 {
      ShortKeywordRoundTrip(ty);
    } else if |ToKeyword(ty)| <= 6 {
      MediumKeywordRoundTrip(ty);
    } else if |ToKeyword(ty)| == 7 {
      VectorKeywordRoundTrip(ty);
    } else {
      RegisterKeywordRoundTrip(ty);
    }
  }

  lemma ShortKeywordRoundTrip(ty: PortType)
    requires |ToKeyword(ty)| == 3
    ensures FromKeyword(ToKeyword(ty)) == Some(ty)
  {
    hide FromKeyword, ToKeyword;
    if ToKeyword(ty)[0] == 'u' || ToKeyword(ty)[0] == 'f' {
      UnsignedOrFloatRoundTrip(ty);
    } else {
      OtherShortRoundTrip(ty);
    }
  }

  lemma UnsignedOrFloatRoundTrip(ty: PortType)
    requires |ToKeyword(ty)| == 3 && (ToKeyword(ty)[0] == 'u' || ToKeyword(ty)[0] == 'f')
    ensures FromKeyword(ToKeyword(ty)) == Some(ty)
  {}

  lemma OtherShortRoundTrip(ty: PortType)
    requires |ToKeyword(ty)| == 3 && !(ToKeyword(ty)[0] == 'u' || ToKeyword(ty)[0] == 'f')
    ensures FromKeyword(ToKeyword(ty)) == Some(ty)
  {}

  lemma MediumKeywordRoundTrip(ty: PortType)
    requires |ToKeyword(ty)| != 3 && |ToKeyword(ty)| <= 6
    ensures FromKeyword(ToKeyword(ty)) == Some(ty)
  {}

  lemma VectorKeywordRoundTrip(ty: PortType)
    requires |ToKeyword(ty)| == 7
    ensures FromKeyword(ToKeyword(ty)) == Some(ty)
  {}

  lemma RegisterKeywordRoundTrip(ty: PortType)
    requires |ToKeyword(ty)| > 7
    ensures FromKeyword(ToKeyword(ty)) == Some(ty)
  {}

  lemma ParseBinaryPrinted(l: Expr, op: BinOp, r: Expr, rest: seq<T.Token>)
    requires Printable(l) && Printable(r) && T.Stream(rest)
    ensures var ts := [T.LParen] + TokensOf(l) + [OpToken(op)] + TokensOf(r) + [T.RParen] + rest;
            T.Stream(ts) && ParseAtom(ts) == Some((Binary(Reread(l), op, Reread(r)), rest))
    decreases Binary(l, op, r), 0
  {
    hide ParseAtom, TokensOf, ParsePostfixAs, Reread, OpToken, BinaryOperator, BindingPower, ParseOperators, Printable;
    var e := Binary(Reread(l), op, Reread(r));
    var r1 := [T.RParen] + rest;
    var r2 := TokensOf(r) + r1;
    var r3 := [OpToken(op)] + r2;
    OperatorToken(op);
    TailOf(T.RParen, rest);
    ParseExprPrinted(r, r1, RightPower(op));
    OperatorsStep(Reread(l), op, r2, Reread(r), r1);
    ParseAtomPrinted(l, r3);
    NoCast(Reread(l), r3);
    EndStops(e, r1, 0);
    assert ParseOperand(TokensOf(l) + r3) == Some((Reread(l), r3));
    assert ParseExprBp(TokensOf(l) + r3, 0) == Some((e, r1));
    GroupParses(TokensOf(l) + r3, e, rest);
    Regroup6([T.LParen], TokensOf(l), [OpToken(op)], TokensOf(r), [T.RParen], rest);
  }

  lemma ArrayParses(inner: seq<T.Token>, es: seq<Expr>, rest: seq<T.Token>)
    requires T.Stream(inner) && T.Stream(rest)
    requires if es == [] then inner == [T.RBracket] + rest
             else inner[0] != T.RBracket && ParseElements(inner) == Some((es, [T.RBracket] + rest))
    ensures T.Stream([T.LBracket] + inner)
    ensures ParseAtom([T.LBracket] + inner) == Some((ArrayLit(es), rest))
  {
    TailOf(T.LBracket, inner);
    TailOf(T.RBracket, rest);
    BracketIsArray(inner);
    hide ParseElements, ParseAtom;
    assert ParseArray(inner) == Some((ArrayLit(es), rest));
  }

  lemma BracketIsArray(inner: seq<T.Token>)
    requires T.Stream(inner)
    ensures T.Stream([T.LBracket] + inner) && ParseAtom([T.LBracket] + inner) == ParseArray(inner)
  {
    TailOf(T.LBracket, inner);
    hide ParseArray;
  }

  lemma ParseArrayPrinted(es: seq<Expr>, rest: seq<T.Token>)
    requires (forall x :: x in es ==> Printable(x)) && T.Stream(rest)
    ensures var ts := [T.LBracket] + TokensOfList(es) + [T.RBracket] + rest;
            T.Stream(ts) && ParseAtom(ts) == Some((ArrayLit(RereadList(es)), rest))
    decreases es, 1
  {
    var r1 := [T.RBracket] + rest;
    var r2 := TokensOfList(es) + r1;
    TailOf(T.RBracket, rest);
    StreamAfter(TokensOfList(es), r1);
    if es == [] {
      assert TokensOfList(es) == [] && RereadList(es) == [];
      assert r2 == r1;
    } else {
      FirstToken(es[0]);
      FirstOfList(es, r1);
      ParseElementsPrinted(es, r1);
    }
    hide ParseElements, ParseAtom, TokensOfList, TokensOf, RereadList, Printable;
    ArrayParses(r2, RereadList(es), rest);
    Regroup4([T.LBracket], TokensOfList(es), [T.RBracket], rest);
  }

  lemma FirstOfList(es: seq<Expr>, rest: seq<T.Token>)
    requires es != [] && TokensOf(es[0]) != []
    ensures (TokensOfList(es) + rest)[0] == TokensOf(es[0])[0]
  {
    hide TokensOf;
  }

  lemma {:induction false} ParseElementsPrinted(es: seq<Expr>, rest: seq<T.Token>)
    requires es != [] && (forall x :: x in es ==> Printable(x)) && T.Stream(rest) && Ends(rest[0]) && rest[0] != T.Comma
    ensures T.Stream(TokensOfList(es) + rest)
    ensures ParseElements(TokensOfList(es) + rest) == Some((RereadList(es), rest))
    decreases es, 0
  {
    hide ParseExprBp, TokensOf, Reread, TokensOfList, RereadList, Printable;
    ListByFirst(es);
    if |es| == 1 {
      ParseExprPrinted(es[0], rest, 0);
      assert ParseExpr(TokensOf(es[0]) + rest) == Some((Reread(es[0]), rest));
    } else {
      var r1 := TokensOfList(es[1..]) + rest;
      var r2 := [T.Comma] + r1;
      ParseElementsPrinted(es[1..], rest);
      TailOf(T.Comma, r1);
      ParseExprPrinted(es[0], r2, 0);
      MoreElements(TokensOf(es[0]), Reread(es[0]), TokensOfList(es[1..]), RereadList(es[1..]), rest);
    }
  }

  lemma MoreElements(first: seq<T.Token>, x: Expr, more: seq<T.Token>, xs: seq<Expr>, rest: seq<T.Token>)
    requires T.Stream(more + rest) && ParseElements(more + rest) == Some((xs, rest))
    requires T.Stream(first + ([T.Comma] + (more + rest)))
    requires ParseExprBp(first + ([T.Comma] + (more + rest)), 0) == Some((x, [T.Comma] + (more + rest)))
    ensures T.Stream(first + [T.Comma] + more + rest)
    ensures ParseElements(first + [T.Comma] + more + rest) == Some(([x] + xs, rest))
  {
    hide ParseExprBp;
    Regroup4(first, [T.Comma], more, rest);
    TailOf(T.Comma, more + rest);
    assert ParseExpr(first + ([T.Comma] + (more + rest))) == Some((x, [T.Comma] + (more + rest)));
  }

  lemma ListByFirst(es: seq<Expr>)
    requires es != []
    ensures TokensOfList(es) == if |es| == 1 then TokensOf(es[0]) else TokensOf(es[0]) + [T.Comma] + TokensOfList(es[1..])
    ensures RereadList(es) == if |es| == 1 then [Reread(es[0])] else [Reread(es[0])] + RereadList(es[1..])
  {
    hide TokensOf, Reread;
    if |es| == 1 {
      assert RereadList(es[1..]) == [];
      assert [Reread(es[0])] + [] == [Reread(es[0])];
    }
  }

  lemma CallParses(f: string, inner: seq<T.Token>, args: seq<Arg>, rest: seq<T.Token>)
    requires T.Stream(inner) && T.Stream(rest)
    requires if args == [] then inner == [T.RParen] + rest
             else inner[0] != T.RParen && ParseArgs(inner) == Some((args, [T.RParen] + rest))
    ensures var ts := [T.Ident(f)] + ([T.LParen] + inner);
            T.Stream(ts) && ParseAtom(ts) == Some((Call(f, args), rest))
  {
    TailOf(T.LParen, inner);
    TailOf(T.RParen, rest);
    TailOf(T.Ident(f), [T.LParen] + inner);
    hide ParseArgs, ParseIfBlock, ParseSoft;
    assert ParseCall(f, inner) == Some((Call(f, args), rest));
    assert ParseNamed(f, [T.LParen] + inner) == Some((Call(f, args), rest));
  }

  lemma ParseCallPrinted(f: string, args: seq<Arg>, rest: seq<T.Token>)
    requires (forall a :: a in args ==> PrintableArg(a)) && T.Stream(rest)
    ensures var ts := [T.Ident(f)] + [T.LParen] + TokensOfArgs(args) + [T.RParen] + rest;
            T.Stream(ts) && ParseAtom(ts) == Some((Call(f, RereadArgs(args)), rest))
    decreases args, 1
  {
    var r1 := [T.RParen] + rest;
    var r2 := TokensOfArgs(args) + r1;
    TailOf(T.RParen, rest);
    StreamAfter(TokensOfArgs(args), r1);
    if args == [] {
      assert TokensOfArgs(args) == [] && RereadArgs(args) == [];
      assert r2 == r1;
    } else {
      FirstArgToken(args[0]);
      FirstOfArgs(args, r1);
      ParseArgsPrinted(args, r1);
    }
    hide ParseArgs, ParseAtom, TokensOfArgs, TokensOfArg, RereadArgs, PrintableArg;
    CallParses(f, r2, RereadArgs(args), rest);
    Regroup5([T.Ident(f)], [T.LParen], TokensOfArgs(args), [T.RParen], rest);
  }

  lemma FirstOfArgs(args: seq<Arg>, rest: seq<T.Token>)
    requires args != [] && TokensOfArg(args[0]) != []
    ensures (TokensOfArgs(args) + rest)[0] == TokensOfArg(args[0])[0]
  {
    hide TokensOfArg;
  }

  lemma FirstArgToken(arg: Arg)
    ensures TokensOfArg(arg) != [] && TokensOfArg(arg)[0] != T.RParen
  {
    match arg
    case Positional(e) => FirstToken(e);
    case Named(_, _) =>
  }

  lemma {:induction false} ParseArgsPrinted(args: seq<Arg>, rest: seq<T.Token>)
    requires args != [] && (forall a :: a in args ==> PrintableArg(a)) && T.Stream(rest) && Ends(rest[0]) && rest[0] != T.Comma
    ensures T.Stream(TokensOfArgs(args) + rest)
    ensures ParseArgs(TokensOfArgs(args) + rest) == Some((RereadArgs(args), rest))
    decreases args, 0
  {
    hide ParseArg, TokensOfArg, RereadArg, TokensOfArgs, RereadArgs, PrintableArg;
    ArgsByFirst(args);
    if |args| == 1 {
      ParseArgPrinted(args[0], rest);
    } else {
      var r1 := TokensOfArgs(args[1..]) + rest;
      var r2 := [T.Comma] + r1;
      ParseArgsPrinted(args[1..], rest);
      TailOf(T.Comma, r1);
      ParseArgPrinted(args[0], r2);
      MoreArgs(TokensOfArg(args[0]), RereadArg(args[0]), TokensOfArgs(args[1..]), RereadArgs(args[1..]), rest);
    }
  }

  lemma MoreArgs(first: seq<T.Token>, x: Arg, more: seq<T.Token>, xs: seq<Arg>, rest: seq<T.Token>)
    requires T.Stream(more + rest) && ParseArgs(more + rest) == Some((xs, rest))
    requires T.Stream(first + ([T.Comma] + (more + rest)))
    requires ParseArg(first + ([T.Comma] + (more + rest))) == Some((x, [T.Comma] + (more + rest)))
    ensures T.Stream(first + [T.Comma] + more + rest)
    ensures ParseArgs(first + [T.Comma] + more + rest) == Some(([x] + xs, rest))
  {
    hide ParseArg;
    Regroup4(first, [T.Comma], more, rest);
    TailOf(T.Comma, more + rest);
  }

  lemma ArgsByFirst(args: seq<Arg>)
    requires args != []
    ensures TokensOfArgs(args) == if |args| == 1 then TokensOfArg(args[0]) else TokensOfArg(args[0]) + [T.Comma] + TokensOfArgs(args[1..])
    ensures RereadArgs(args) == if |args| == 1 then [RereadArg(args[0])] else [RereadArg(args[0])] + RereadArgs(args[1..])
  {
    hide TokensOfArg, RereadArg;
    if |args| == 1 {
      assert RereadArgs(args[1..]) == [];
      assert [RereadArg(args[0])] + [] == [RereadArg(args[0])];
    }
  }

  lemma ParseArgPrinted(arg: Arg, rest: seq<T.Token>)
    requires PrintableArg(arg) && T.Stream(rest) && Ends(rest[0])
    ensures T.Stream(TokensOfArg(arg) + rest)
    ensures ParseArg(TokensOfArg(arg) + rest) == Some((RereadArg(arg), rest))
    decreases arg, 2
  {
    match arg
    case Positional(e) =>
      NoArgName(e, rest);
      ParseExprPrinted(e, rest, 0);
      hide TokensOf, ParseExprBp, Reread, ArgName;
      assert ParseExpr(TokensOf(e) + rest) == Some((Reread(e), rest));
    case Named(name, e) =>
      ParseExprPrinted(e, rest, 0);
      ParseNamedArg(name, TokensOf(e) + rest, Reread(e), rest);
      hide TokensOf, ParseArg, Reread;
      Regroup([NameToken(name)] + [T.Colon], TokensOf(e), rest);
  }

  lemma ParseNamedArg(name: string, inner: seq<T.Token>, e: Expr, rest: seq<T.Token>)
    requires PlainWord(name) || name == "input"
    requires T.Stream(inner) && ParseExprBp(inner, 0) == Some((e, rest))
    ensures var ts := [NameToken(name)] + [T.Colon] + inner;
            T.Stream(ts) && ParseArg(ts) == Some((Named(name, e), rest))
  {
    var r2 := [T.Colon] + inner;
    TailOf(T.Colon, inner);
    TailOf(NameToken(name), r2);
    assert ArgName([NameToken(name)] + r2) == Some(name);
    hide ParseExprBp, PlainWord, ArgName;
    assert ParseExpr(inner) == Some((e, rest));
    Regroup([NameToken(name)], [T.Colon], inner);
  }

  /** A printed positional argument is not taken for a named one. */
  lemma NoArgName(e: Expr, rest: seq<T.Token>)
    requires Printable(e) && T.Stream(rest) && Ends(rest[0])
    ensures T.Stream(TokensOf(e) + rest) && ArgName(TokensOf(e) + rest) == None
  {
    StreamAfter(TokensOf(e), rest);
    FirstToken(e);
    var ts := TokensOf(e) + rest;
    assert ts[0] == TokensOf(e)[0];
    if e.Call? || e.FieldAccess? {
      assert ts[1] == TokensOf(e)[1];
    } else if e.Ident? {
      assert ts[1] == rest[0];
    }
  }

  /** Printing, lexing and parsing an expression rereads its string literals and keeps
      everything else. */
  lemma PrintedParses(e: Expr)
    requires Printable(e)
    ensures Lexer.Lex(Printer.Print(e)).Ok?
    ensures ParseExpression(Lexer.Lex(Printer.Print(e)).value) == Some(Reread(e))
  {
    LexOfPrint(e);
    ParseExprPrinted(e, [T.Eof], 0);
    hide ParseExprBp, TokensOf, Printer.Print, Lexer.Lex;
  }
}
