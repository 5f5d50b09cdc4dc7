/** Every expression the parser returns survives printing, lexing and parsing. */
module Reprint {
  import opened Wrappers
  import opened Ast
  import opened PortTypes
  import opened Interpolation
  import opened PrintedText
  import opened Parser
  import opened RoundTrip
  import L = Lexer
  import Printer
  import T = Tokens

  // ------------------------------------------------------------------
  // What the lexer and the parser can return
  // ------------------------------------------------------------------

  predicate LexedToken(t: T.Token) {
    (t.Ident? ==> PlainWord(t.name)) && (t.IntLit? ==> t.value <= L.U64_MAX)
  }

  predicate Lexed(ts: seq<T.Token>) {
    forall t :: t in ts ==> LexedToken(t)
  }

  /** An expression built from names and integers the lexer gives, in which every string
      literal is one that interpretation leaves alone. */
  predicate Returnable(e: Expr)
    decreases e, 1
  {
    match e
    case Ident(name) => IsName(name) && name != "if"
    case IntLit(v) => v <= L.U64_MAX
    case FloatLit(_) => true
    case StringLit(s) => Interpret(s) == e
    case ArrayLit(es) => forall x :: x in es ==> Returnable(x)
    case Call(f, args) => PlainWord(f) && forall a :: a in args ==> ReturnableArg(a)
    case Binary(l, _, r) => Returnable(l) && Returnable(r)
    case UnaryNeg(x) => Returnable(x)
    case UnaryBitNot(x) => Returnable(x)
    case FieldAccess(source, field) => IsName(source) && source != "if" && IsName(field)
    case Cast(x, _) => Returnable(x)
  }

  predicate ReturnableArg(arg: Arg)
    decreases arg, 2
  {
    match arg
    case Positional(e) => Returnable(e)
    case Named(name, e) => (PlainWord(name) || name == "input") && Returnable(e)
  }

  lemma NumberIsLexed(s: string)
    requires L.DigitAt(s, 0) && L.NumberPiece(s).Emit?
    ensures LexedToken(L.NumberPiece(s).token)
  {
    hide L.Number, L.Run, L.SuffixAt, L.Exponent;
  }

  lemma SymbolIsLexed(c: char, next: Option<char>)
    ensures L.SymbolPiece(c, next).Some? ==> LexedToken(L.SymbolPiece(c, next).value.token)
  {
    hide PlainWord;
  }

  lemma WordIsLexed(w: string)
    requires w != [] && L.IsWordStart(w[0]) && (forall i :: 0 <= i < |w| ==> L.IsWordChar(w[i])) && L.WordPiece(w).Emit?
    ensures LexedToken(L.WordPiece(w).token)
  {}

  lemma NextIsLexed(s: string)
    requires s != [] && L.Next(s).Emit?
    ensures LexedToken(L.Next(s).token)
  {
    hide L.NumberPiece, L.SymbolPiece, L.WordPiece, L.Number, PlainWord, L.Quoted, L.HeredocEnd, L.BlockComment;
    if L.IsDigit(s[0]) {
      NumberIsNext(s);
      NumberIsLexed(s);
    } else {
      SymbolIsLexed(s[0], L.At(s, 1));
      if L.IsWordStart(s[0]) {
        var w := s[..L.Run(s, L.IsWordChar)];
        if L.Next(s) == L.WordPiece(w) && L.WordPiece(w).Emit? && w != [] {
          WordIsLexed(w);
        }
      }
    }
  }

  lemma {:induction false} LexIsLexed(s: string)
    requires L.Lex(s).Ok?
    ensures Lexed(L.Lex(s).value)
    decreases |s|
  {
    if s != [] {
      match L.Next(s)
      case Skip(n) => LexIsLexed(s[n..]);
      case Emit(t, n) =>
        NextIsLexed(s);
        LexIsLexed(s[n..]);
    }
  }

  /** A word with an underscore inside is no keyword. */
  lemma Underscored(w: string, i: nat)
    requires i < |w| && w[i] == '_'
    ensures L.WordPiece(w) == L.Emit(T.Ident(w), |w|) && w != "if"
  {
    var reserved := ["const", "input", "extern", "shared", "volatile", "cursor", "over", "pragma", "tile", "for", "if"];
    assert w !in reserved;
  }

  /** Flattening a field chain makes a plain name. */
  lemma FlatName(source: string, field: string)
    requires IsName(source) && IsName(field)
    ensures PlainWord(source + "__" + field) && source + "__" + field != "if"
  {
    var w := source + "__" + field;
    assert w[|source|] == '_';
    Underscored(w, |source|);
    hide L.WordPiece;
    forall i | 0 <= i < |w|
      ensures L.IsWordChar(w[i])
    {
      if i < |source| { assert w[i] == source[i]; }
      else if i >= |source| + 2 { assert w[i] == field[i - |source| - 2]; }
    }
    assert w[0] == source[0];
  }

  // ------------------------------------------------------------------
  // Each parsing function returns returnable expressions
  // ------------------------------------------------------------------

  lemma ExprReturns(ts: seq<T.Token>)
    requires T.Stream(ts) && Lexed(ts) && ParseExpr(ts).Some?
    ensures Returnable(ParseExpr(ts).value.0) && Lexed(ParseExpr(ts).value.1)
    decreases T.Weight(ts), 7
  {
    ExprBpReturns(ts, 0);
  }

  lemma {:induction false} ExprBpReturns(ts: seq<T.Token>, min: nat)
    requires T.Stream(ts) && Lexed(ts) && ParseExprBp(ts, min).Some?
    ensures Returnable(ParseExprBp(ts, min).value.0) && Lexed(ParseExprBp(ts, min).value.1)
    decreases T.Weight(ts), 6
  {
    AtomReturns(ts);
    var (a, rest) := ParseAtom(ts).value;
    CastsReturn(a, rest);
    var (e, rest2) := ParsePostfixAs(a, rest).value;
    assert ParseOperand(ts) == Some((e, rest2));
    OperatorsReturn(e, rest2, min);
  }

  lemma {:induction false} CastsReturn(e: Expr, ts: seq<T.Token>)
    requires T.Stream(ts) && Lexed(ts) && Returnable(e) && ParsePostfixAs(e, ts).Some?
    ensures Returnable(ParsePostfixAs(e, ts).value.0) && Lexed(ParsePostfixAs(e, ts).value.1)
    decreases T.Weight(ts)
  {
    hide LexedToken, FromKeyword;
    if ts[0] == T.Ident("as") {
      var t := Tail(ts);
      CastsReturn(Cast(e, FromKeyword(t[0].name).value), Tail(t));
    }
  }

  lemma {:induction false} OperatorsReturn(lhs: Expr, ts: seq<T.Token>, min: nat)
    requires T.Stream(ts) && Lexed(ts) && Returnable(lhs) && ParseOperators(lhs, ts, min).Some?
    ensures Returnable(ParseOperators(lhs, ts, min).value.0) && Lexed(ParseOperators(lhs, ts, min).value.1)
    decreases T.Weight(ts), 4
  {
    assert BinaryOperator(T.Eof) == None;
    hide LexedToken, BindingPower, BinaryOperator, Returnable;
    if BinaryOperator(ts[0]).Some? && LeftPower(BinaryOperator(ts[0]).value) >= min {
      var op := BinaryOperator(ts[0]).value;
      ExprBpReturns(Tail(ts), RightPower(op));
      var (rhs, rest) := ParseExprBp(Tail(ts), RightPower(op)).value;
      BinaryReturnable(lhs, op, rhs);
      OperatorsReturn(Binary(lhs, op, rhs), rest, min);
    }
  }

  lemma BinaryReturnable(l: Expr, op: BinOp, r: Expr)
    requires Returnable(l) && Returnable(r)
    ensures Returnable(Binary(l, op, r))
  {}

  lemma {:induction false} AtomReturns(ts: seq<T.Token>)
    requires T.Stream(ts) && Lexed(ts) && ParseAtom(ts).Some?
    ensures Returnable(ParseAtom(ts).value.0) && Lexed(ParseAtom(ts).value.1)
    decreases T.Weight(ts), 4
  {
    assert LexedToken(ts[0]);
    hide PlainWord, ParseGroup, ParseArray, ParseNamed, ParseSoft, Interpret;
    match ts[0]
    case Minus | Bang => PrefixReturns(ts);
    case LParen => GroupReturns(Tail(ts));
    case StringLit(s) => InterpretReturns(s);
    case LBracket => ArrayReturns(Tail(ts));
    case Ident(name) => NamedReturns(name, Tail(ts));
    case Input => SoftReturns("input", Tail(ts));
    case Cursor => SoftReturns("cursor", Tail(ts));
    case Over => SoftReturns("over", Tail(ts));
    case _ =>
  }

  lemma {:induction false} PrefixReturns(ts: seq<T.Token>)
    requires T.Stream(ts) && Lexed(ts) && ParseAtom(ts).Some? && (ts[0].Minus? || ts[0].Bang?)
    ensures Returnable(ParseAtom(ts).value.0) && Lexed(ParseAtom(ts).value.1)
    decreases T.Weight(ts), 3
  {
    hide PlainWord, LexedToken, ParseGroup, ParseArray, ParseNamed, ParseSoft, Interpret;
    AtomReturns(Tail(ts));
  }

  lemma GroupReturns(ts: seq<T.Token>)
    requires T.Stream(ts) && Lexed(ts) && ParseGroup(ts).Some?
    ensures Returnable(ParseGroup(ts).value.0) && Lexed(ParseGroup(ts).value.1)
    decreases T.Weight(ts), 8
  {
    hide LexedToken;
    ExprReturns(ts);
  }

  lemma NamedReturns(name: string, ts: seq<T.Token>)
    requires T.Stream(ts) && Lexed(ts) && PlainWord(name) && ParseNamed(name, ts).Some?
    ensures Returnable(ParseNamed(name, ts).value.0) && Lexed(ParseNamed(name, ts).value.1)
    decreases T.Weight(ts), 11
  {
    hide PlainWord, LexedToken;
    if name == "if" && ts[0] != T.LParen {
      IfReturns(ts);
    } else if ts[0] == T.LParen {
      CallReturns(name, Tail(ts));
    } else {
      SoftReturns(name, ts);
    }
  }

  lemma SoftReturns(name: string, ts: seq<T.Token>)
    requires T.Stream(ts) && Lexed(ts) && IsName(name) && name != "if" && ParseSoft(name, ts).Some?
    ensures Returnable(ParseSoft(name, ts).value.0) && Lexed(ParseSoft(name, ts).value.1)
  {
    hide PlainWord, LexedToken;
    if ts[0] == T.Dot {
      ChainReturns(name, ts);
    }
  }

  lemma {:induction false} ChainReturns(source: string, ts: seq<T.Token>)
    requires T.Stream(ts) && Lexed(ts) && ts[0] == T.Dot && IsName(source) && source != "if"
    requires ParseFieldChain(source, ts).Some?
    ensures Returnable(ParseFieldChain(source, ts).value.0) && Lexed(ParseFieldChain(source, ts).value.1)
    decreases T.Weight(ts)
  {
    var t := Tail(ts);
    assert LexedToken(t[0]);
    hide PlainWord;
    var (field, rest) := ExpectIdent(t).value;
    assert IsName(field);
    if rest[0] == T.Dot {
      FlatName(source, field);
      ChainReturns(source + "__" + field, rest);
    }
  }

  lemma IfReturns(ts: seq<T.Token>)
    requires T.Stream(ts) && Lexed(ts) && ParseIfBlock(ts).Some?
    ensures Returnable(ParseIfBlock(ts).value.0) && Lexed(ParseIfBlock(ts).value.1)
    decreases T.Weight(ts), 10
  {
    hide PlainWord, LexedToken, Returnable;
    ExprReturns(ts);
    var (cond, rest) := ParseExpr(ts).value;
    BranchesReturn(rest);
    var (a, b, _) := ParseBranches(rest).value;
    IfCallReturns(cond, a, b);
  }

  lemma IfCallReturns(cond: Expr, a: Expr, b: Expr)
    requires Returnable(cond) && Returnable(a) && Returnable(b)
    ensures Returnable(Call("if", [Positional(cond), Positional(a), Positional(b)]))
  {
    hide PlainWord, ReturnableArg;
    IfIsWord();
    PositionalReturns(cond);
    PositionalReturns(a);
    PositionalReturns(b);
    assert Returnable(Call("if", [Positional(cond), Positional(a), Positional(b)]));
  }

  lemma PositionalReturns(e: Expr)
    requires Returnable(e)
    ensures ReturnableArg(Positional(e))
  {
    hide Returnable;
  }

  lemma IfIsWord()
    ensures PlainWord("if")
  {}

  lemma BranchesReturn(ts: seq<T.Token>)
    requires T.Stream(ts) && Lexed(ts) && ParseBranches(ts).Some?
    ensures var (a, b, rest) := ParseBranches(ts).value;
            Returnable(a) && Returnable(b) && Lexed(rest)
    decreases T.Weight(ts), 10
  {
    hide LexedToken, Returnable;
    BracedReturns(ts);
    var (_, rest) := ParseBraced(ts).value;
    ElseReturns(Tail(rest));
  }

  lemma ElseReturns(ts: seq<T.Token>)
    requires T.Stream(ts) && Lexed(ts) && ParseElse(ts).Some?
    ensures Returnable(ParseElse(ts).value.0) && Lexed(ParseElse(ts).value.1)
    decreases T.Weight(ts), 10
  {
    hide LexedToken, Returnable;
    if ts[0] == T.Ident("if") { IfReturns(Tail(ts)); } else { BracedReturns(ts); }
  }

  lemma BracedReturns(ts: seq<T.Token>)
    requires T.Stream(ts) && Lexed(ts) && ParseBraced(ts).Some?
    ensures Returnable(ParseBraced(ts).value.0) && Lexed(ParseBraced(ts).value.1)
    decreases T.Weight(ts), 9
  {
    hide LexedToken, Returnable;
    ExprReturns(Tail(ts));
  }

  lemma CallReturns(name: string, ts: seq<T.Token>)
    requires T.Stream(ts) && Lexed(ts) && PlainWord(name) && ParseCall(name, ts).Some?
    ensures Returnable(ParseCall(name, ts).value.0) && Lexed(ParseCall(name, ts).value.1)
    decreases T.Weight(ts), 10
  {
    hide LexedToken, PlainWord, ParseArgs, ReturnableArg;
    if ts[0] != T.RParen {
      ArgsReturn(ts);
    }
  }

  lemma {:induction false} ArgsReturn(ts: seq<T.Token>)
    requires T.Stream(ts) && Lexed(ts) && ParseArgs(ts).Some?
    ensures (forall a :: a in ParseArgs(ts).value.0 ==> ReturnableArg(a)) && Lexed(ParseArgs(ts).value.1)
    decreases T.Weight(ts), 9
  {
    hide LexedToken, ReturnableArg;
    ArgReturns(ts);
    var (_, rest) := ParseArg(ts).value;
    if rest[0] == T.Comma {
      ArgsReturn(Tail(rest));
    }
  }

  lemma ArgReturns(ts: seq<T.Token>)
    requires T.Stream(ts) && Lexed(ts) && ParseArg(ts).Some?
    ensures ReturnableArg(ParseArg(ts).value.0) && Lexed(ParseArg(ts).value.1)
    decreases T.Weight(ts), 8
  {
    assert LexedToken(ts[0]);
    hide PlainWord, Returnable;
    if ArgName(ts).Some? {
      ExprReturns(Tail(Tail(ts)));
    } else {
      ExprReturns(ts);
    }
  }

  lemma ArrayReturns(ts: seq<T.Token>)
    requires T.Stream(ts) && Lexed(ts) && ParseArray(ts).Some?
    ensures Returnable(ParseArray(ts).value.0) && Lexed(ParseArray(ts).value.1)
    decreases T.Weight(ts), 10
  {
    hide LexedToken, ParseElements;
    if ts[0] != T.RBracket {
      ElementsReturn(ts);
    }
  }

  lemma {:induction false} ElementsReturn(ts: seq<T.Token>)
    requires T.Stream(ts) && Lexed(ts) && ParseElements(ts).Some?
    ensures (forall x :: x in ParseElements(ts).value.0 ==> Returnable(x)) && Lexed(ParseElements(ts).value.1)
    decreases T.Weight(ts), 9
  {
    hide LexedToken, Returnable;
    ExprReturns(ts);
    var (_, rest) := ParseExpr(ts).value;
    if rest[0] == T.Comma {
      ElementsReturn(Tail(rest));
    }
  }

  // ------------------------------------------------------------------
  // Interpolated strings
  // ------------------------------------------------------------------

  /** An empty placeholder holds no expression. */
  lemma {:induction false} EmptyBodyFails(segments: seq<Segment>, n: nat)
    requires BodiesFit(segments, n) && Placeholder("") in segments
    ensures ParseBodies(segments, n) == None
    decreases |segments|
  {
    if segments[0] == Placeholder("") {
      assert ParseBody("") == None;
    } else {
      EmptyBodyFails(segments[1..], n);
    }
  }

  /** The format string made from an interpolated literal is a plain literal: interpreting
      it again leaves it alone. */
  lemma FormatIsFixed(s: string)
    requires Segments(s, "").Some? && HasPlaceholder(Segments(s, "").value)
    ensures var f := Format(Segments(s, "").value); Interpret(f) == StringLit(f)
  {
    var f := Format(Segments(s, "").value);
    FormatStays(s);
    if Segments(f, "").Some? {
      SegmentBodiesFit(f, "");
      EmptyBodyFails(Segments(f, "").value, |f|);
    }
  }

  lemma {:induction false} InterpretReturns(s: string)
    ensures Returnable(Interpret(s))
    decreases |s|, 3
  {
    match Segments(s, "")
    case None =>
    case Some(segments) =>
      if HasPlaceholder(segments) {
        SegmentBodiesFit(s, "");
        match ParseBodies(segments, |s|)
        case None =>
        case Some(es) =>
          BodiesReturn(segments, |s|);
          FormatIsFixed(s);
          PrintfReturns(Format(segments), es);
      }
  }

  lemma PrintfReturns(f: string, es: seq<Expr>)
    requires Interpret(f) == StringLit(f) && forall x :: x in es ==> Returnable(x)
    ensures Returnable(Call("printf", [Positional(StringLit(f))] + Positionals(es)))
  {
    assert PlainWord("printf");
    hide PlainWord, Interpret;
    PositionalsReturn(es);
    assert ReturnableArg(Positional(StringLit(f)));
  }

  lemma {:induction false} PositionalsReturn(es: seq<Expr>)
    requires forall x :: x in es ==> Returnable(x)
    ensures forall a :: a in Positionals(es) ==> ReturnableArg(a)
  {
    if es != [] {
      PositionalsReturn(es[1..]);
    }
  }

  lemma {:induction false} BodiesReturn(segments: seq<Segment>, n: nat)
    requires BodiesFit(segments, n) && ParseBodies(segments, n).Some?
    ensures forall x :: x in ParseBodies(segments, n).value ==> Returnable(x)
    decreases n, 2, |segments|
  {
    if segments != [] {
      hide Returnable;
      if segments[0].Placeholder? {
        BodyReturns(segments[0].body);
      }
      BodiesReturn(segments[1..], n);
    }
  }

  lemma BodyReturns(body: string)
    requires ParseBody(body).Some?
    ensures Returnable(ParseBody(body).value)
    decreases |body| + 1, 9
  {
    hide Returnable, L.Lex, Trim, LexedToken;
    var ts := L.Lex(Trim(body)).value;
    LexIsLexed(Trim(body));
    ExprReturns(ts);
  }

  // ------------------------------------------------------------------
  // The round trip
  // ------------------------------------------------------------------

  /** No float anywhere. */
  predicate Floatless(e: Expr)
    decreases e, 1
  {
    match e
    case FloatLit(_) => false
    case ArrayLit(es) => forall x :: x in es ==> Floatless(x)
    case Call(_, args) => forall a :: a in args ==> Floatless(a.value)
    case Binary(l, _, r) => Floatless(l) && Floatless(r)
    case UnaryNeg(x) => Floatless(x)
    case UnaryBitNot(x) => Floatless(x)
    case Cast(x, _) => Floatless(x)
    case _ => true
  }

  /** No carriage return in any string literal. */
  predicate NoReturns(e: Expr)
    decreases e, 1
  {
    match e
    case StringLit(s) => '\r' !in s
    case ArrayLit(es) => forall x :: x in es ==> NoReturns(x)
    case Call(_, args) => forall a :: a in args ==> NoReturns(a.value)
    case Binary(l, _, r) => NoReturns(l) && NoReturns(r)
    case UnaryNeg(x) => NoReturns(x)
    case UnaryBitNot(x) => NoReturns(x)
    case Cast(x, _) => NoReturns(x)
    case _ => true
  }

  lemma {:induction false} ReturnableIsPrintable(e: Expr)
    requires Returnable(e) && Floatless(e)
    ensures Printable(e)
    decreases e
  {
    match e
    case ArrayLit(es) =>
      forall x | x in es ensures Printable(x) { ReturnableIsPrintable(x); }
    case Call(f, args) =>
      forall a | a in args ensures PrintableArg(a) {
        assert ReturnableArg(a);
        ReturnableIsPrintable(a.value);
      }
    case Binary(l, _, r) =>
      ReturnableIsPrintable(l);
      ReturnableIsPrintable(r);
    case UnaryNeg(x) => ReturnableIsPrintable(x);
    case UnaryBitNot(x) => ReturnableIsPrintable(x);
    case Cast(x, _) => ReturnableIsPrintable(x);
    case _ =>
  }

  /** A returnable expression reads back as itself exactly when none of its string
      literals has a carriage return. */
  lemma {:induction false} RereadKeeps(e: Expr)
    requires Returnable(e)
    ensures Reread(e) == e <==> NoReturns(e)
    decreases e, 1
  {
    match e
    case StringLit(s) => StringRereads(s);
    case ArrayLit(es) => ListRereads(es);
    case Call(f, args) => ArgsReread(args);
    case Binary(l, _, r) =>
      RereadKeeps(l);
      RereadKeeps(r);
    case UnaryNeg(x) => RereadKeeps(x);
    case UnaryBitNot(x) => RereadKeeps(x);
    case Cast(x, _) => RereadKeeps(x);
    case _ =>
  }

  lemma StringRereads(s: string)
    requires Interpret(s) == StringLit(s)
    ensures Reread(StringLit(s)) == StringLit(s) <==> '\r' !in s
  {
    RespellKeeps(s);
    var r := Respell(s);
    assert Interpret(r) == StringLit(r) || Interpret(r).Call?;
  }

  lemma ConsEqual<X>(x: X, xs: seq<X>, ys: seq<X>)
    requires ys != []
    ensures [x] + xs == ys <==> x == ys[0] && xs == ys[1..]
  {
    if [x] + xs == ys { assert xs == ([x] + xs)[1..]; }
  }

  lemma {:induction false} ListRereads(es: seq<Expr>)
    requires forall x :: x in es ==> Returnable(x)
    ensures RereadList(es) == es <==> forall x :: x in es ==> NoReturns(x)
    decreases es, 0
  {
    if es != [] {
      RereadKeeps(es[0]);
      ListRereads(es[1..]);
      hide Reread, NoReturns, Returnable;
      assert RereadList(es) == [Reread(es[0])] + RereadList(es[1..]);
      hide RereadList;
      ConsEqual(Reread(es[0]), RereadList(es[1..]), es);
      assert es == [es[0]] + es[1..];
    }
  }

  lemma {:induction false} ArgsReread(args: seq<Arg>)
    requires forall a :: a in args ==> ReturnableArg(a)
    ensures RereadArgs(args) == args <==> forall a :: a in args ==> NoReturns(a.value)
    decreases args, 0
  {
    if args != [] {
      ArgRereads(args[0]);
      ArgsReread(args[1..]);
      hide RereadArg, NoReturns, ReturnableArg;
      assert RereadArgs(args) == [RereadArg(args[0])] + RereadArgs(args[1..]);
      hide RereadArgs;
      ConsEqual(RereadArg(args[0]), RereadArgs(args[1..]), args);
      assert args == [args[0]] + args[1..];
    }
  }

  lemma ArgRereads(arg: Arg)
    requires ReturnableArg(arg)
    ensures RereadArg(arg) == arg <==> NoReturns(arg.value)
    decreases arg, 2
  {
    RereadKeeps(arg.value);
    hide Reread, NoReturns, Returnable;
  }

  /** For every text the parser takes as a float-free expression, the printed expression
      lexes and parses, and parses to the same expression exactly when no string literal
      has a carriage return. */
  lemma ReprintedParsesTheSame(source: string, e: Expr)
    requires L.Lex(source).Ok? && ParseExpression(L.Lex(source).value) == Some(e)
    requires Floatless(e)
    ensures L.Lex(Printer.Print(e)).Ok?
    ensures ParseExpression(L.Lex(Printer.Print(e)).value).Some?
    ensures ParseExpression(L.Lex(Printer.Print(e)).value) == Some(e) <==> NoReturns(e)
  {
    LexIsLexed(source);
    ExprReturns(L.Lex(source).value);
    ReturnableIsPrintable(e);
    PrintedParses(e);
    RereadKeeps(e);
  }

  /** The string literal that holds one carriage return. */
  lemma CarriageReturnParses()
    ensures L.Lex("'\r'") == Ok([T.StringLit("\r")] + [T.Eof])
    ensures T.Stream([T.StringLit("\r")] + [T.Eof])
    ensures ParseExpression([T.StringLit("\r")] + [T.Eof]) == Some(StringLit("\r"))
  {
    LexCarriageReturn();
    InterpretCarriageReturn();
    hide L.Lex, Interpret;
    LiteralParses("\r");
  }

  lemma InterpretCarriageReturn()
    ensures Interpret("\r") == StringLit("\r")
  {
    var s := "\r";
    assert s[1..] == "" && "" + [s[0]] == s;
    assert Segments("", s) == Some([Literal(s)]);
    assert Segments(s, "") == Segments(s[1..], "" + [s[0]]);
    assert !HasPlaceholder([Literal(s)]);
  }

  lemma LiteralParses(s: string)
    requires Interpret(s) == StringLit(s)
    ensures T.Stream([T.StringLit(s)] + [T.Eof])
    ensures ParseExpression([T.StringLit(s)] + [T.Eof]) == Some(StringLit(s))
  {
    hide Interpret;
    TailOf(T.StringLit(s), [T.Eof]);
    EndStops(StringLit(s), [T.Eof], 0);
    var ts := [T.StringLit(s)] + [T.Eof];
    assert ParseAtom(ts) == Some((StringLit(s), [T.Eof]));
    hide ParseAtom, ParsePostfixAs, ParseOperators;
    assert ParseExprBp(ts, 0) == Some((StringLit(s), [T.Eof]));
  }

  lemma LexCarriageReturn()
    ensures L.Lex("'\r'") == Ok([T.StringLit("\r")] + [T.Eof])
  {
    var text := "'\r'";
    assert text[1..] == "\r'" && "\r'"[1..] == "'" && text[3..] == "";
    assert L.Quoted("'", '\'') == Some(("", 1));
    assert L.Quoted("\r'", '\'') == Some(("\r" + "", 2));
    assert |text| >= 3 ==> text[..3][0] == '\'';
    assert L.Next(text) == L.Emit(T.StringLit("\r"), 3);
    assert L.Lex("") == Ok([T.Eof]);
  }

  /** A string literal that holds a carriage return parses, and its printed form parses
      to something else. */
  lemma CarriageReturnIsLost()
    ensures exists source, e :: L.Lex(source).Ok? && ParseExpression(L.Lex(source).value) == Some(e)
                                && L.Lex(Printer.Print(e)).Ok? && ParseExpression(L.Lex(Printer.Print(e)).value) != Some(e)
  {
    CarriageReturnParses();
    var e := StringLit("\r");
    assert !NoReturns(e) && Floatless(e);
    hide L.Lex, ParseExpression, Printer.Print;
    ReprintedParsesTheSame("'\r'", e);
  }
}
