/** The expression parser over a token stream, as functions from a stream to a tree
    and the tokens left. `None` is a parse error. */
module Parser {
  import opened Wrappers
  import opened Ast
  import opened PortTypes
  import opened Interpolation
  import T = Tokens
  import Lexer

  type Reply<A> = Option<(A, seq<T.Token>)>

  /** What is left of a stream is a stream, and lighter. */
  predicate Left(rest: seq<T.Token>, ts: seq<T.Token>) {
    T.Stream(rest) && T.Weight(rest) < T.Weight(ts)
  }

  function Tail(ts: seq<T.Token>): (r: seq<T.Token>)
    requires T.Stream(ts) && ts[0] != T.Eof
    ensures T.Stream(r) && T.Weight(r) == T.Weight(ts) - T.TokenWeight(ts[0])
  {
    ts[1..]
  }

  /** The stream after the token `t`, if it comes next. */
  function Expect(t: T.Token, ts: seq<T.Token>): (r: Option<seq<T.Token>>)
    requires T.Stream(ts) && t != T.Eof
    ensures r.Some? ==> Left(r.value, ts)
  {
    if ts[0] == t then Some(Tail(ts)) else None
  }

  function BinaryOperator(t: T.Token): Option<BinOp> {
    match t
    case PipePipe => Some(Or)
    case AmpAmp => Some(And)
    case EqEq => Some(Eq)
    case BangEq => Some(Ne)
    case Lt => Some(Lt)
    case Gt => Some(Gt)
    case LtEq => Some(Le)
    case GtEq => Some(Ge)
    case Pipe => Some(BitOr)
    case Caret => Some(BitXor)
    case Ampersand => Some(BitAnd)
    case ShiftLeft => Some(Shl)
    case ShiftRight => Some(Shr)
    case Plus => Some(Add)
    case Minus => Some(Sub)
    case Star => Some(Mul)
    case Slash => Some(Div)
    case Percent => Some(Mod)
    case StarStar => Some(Pow)
    case _ => None
  }

  /** A name, a soft keyword included. */
  function ExpectIdent(ts: seq<T.Token>): (r: Reply<string>)
    requires T.Stream(ts)
    ensures r.Some? ==> Left(r.value.1, ts)
  {
    match ts[0]
    case Ident(name) => Some((name, Tail(ts)))
    case Input => Some(("input", Tail(ts)))
    case Cursor => Some(("cursor", Tail(ts)))
    case Over => Some(("over", Tail(ts)))
    case _ => None
  }

  // ------------------------------------------------------------------
  // Operators, casts and atoms
  // ------------------------------------------------------------------

  function ParseExpr(ts: seq<T.Token>): (r: Reply<Expr>)
    requires T.Stream(ts)
    ensures r.Some? ==> Left(r.value.1, ts)
    decreases T.Weight(ts), 7
  {
    ParseExprBp(ts, 0)
  }

  /** An expression whose operators all have a left power of at least `min`. */
  function ParseExprBp(ts: seq<T.Token>, min: nat): (r: Reply<Expr>)
    requires T.Stream(ts)
    ensures r.Some? ==> Left(r.value.1, ts)
    decreases T.Weight(ts), 6
  {
    match ParseOperand(ts)
    case None => None
    case Some((e, rest)) => ParseOperators(e, rest, min)
  }

  /** An atom and its casts. */
  function ParseOperand(ts: seq<T.Token>): (r: Reply<Expr>)
    requires T.Stream(ts)
    ensures r.Some? ==> Left(r.value.1, ts)
    decreases T.Weight(ts), 5
  {
    match ParseAtom(ts)
    case None => None
    case Some((a, rest)) => ParsePostfixAs(a, rest)
  }

  function ParseOperators(lhs: Expr, ts: seq<T.Token>, min: nat): (r: Reply<Expr>)
    requires T.Stream(ts)
    ensures r.Some? ==> T.Stream(r.value.1) && T.Weight(r.value.1) <= T.Weight(ts)
    decreases T.Weight(ts), 4
  {
    match BinaryOperator(ts[0])
    case None => Some((lhs, ts))
    case Some(op) =>
      if LeftPower(op) < min then Some((lhs, ts))
      else
        match ParseExprBp(Tail(ts), RightPower(op))
        case None => None
        case Some((rhs, rest)) => ParseOperators(Binary(lhs, op, rhs), rest, min)
  }

  function ParsePostfixAs(e: Expr, ts: seq<T.Token>): (r: Reply<Expr>)
    requires T.Stream(ts)
    ensures r.Some? ==> T.Stream(r.value.1) && T.Weight(r.value.1) <= T.Weight(ts)
    decreases T.Weight(ts)
  {
    if ts[0] != T.Ident("as") then Some((e, ts))
    else
      var t := Tail(ts);
      match t[0]
      case Ident(name) =>
        (match FromKeyword(name)
         case None => None
         case Some(ty) => ParsePostfixAs(Cast(e, ty), Tail(t)))
      case _ => None
  }

  function ParseAtom(ts: seq<T.Token>): (r: Reply<Expr>)
    requires T.Stream(ts)
    ensures r.Some? ==> Left(r.value.1, ts)
    decreases T.Weight(ts), 4
  {
    match ts[0]
    case Minus =>
      (match ParseAtom(Tail(ts)) case None => None case Some((e, rest)) => Some((UnaryNeg(e), rest)))
    case Bang =>
      (match ParseAtom(Tail(ts)) case None => None case Some((e, rest)) => Some((UnaryBitNot(e), rest)))
    case LParen => ParseGroup(Tail(ts))
    case StringLit(s) => Some((Interpret(s), Tail(ts)))
    case IntLit(v) => Some((Expr.IntLit(v), Tail(ts)))
    case FloatLit(text) => Some((Expr.FloatLit(text), Tail(ts)))
    case LBracket => ParseArray(Tail(ts))
    case Ident(name) => ParseNamed(name, Tail(ts))
    case Input => ParseSoft("input", Tail(ts))
    case Cursor => ParseSoft("cursor", Tail(ts))
    case Over => ParseSoft("over", Tail(ts))
    case _ => None
  }

  /** The rest of a parenthesised group. */
  function ParseGroup(ts: seq<T.Token>): (r: Reply<Expr>)
    requires T.Stream(ts)
    ensures r.Some? ==> Left(r.value.1, ts)
    decreases T.Weight(ts), 8
  {
    match ParseExpr(ts)
    case None => None
    case Some((e, rest)) =>
      match Expect(T.RParen, rest) case None => None case Some(after) => Some((e, after))
  }

  /** What a name begins: a block `if`, a call, a field chain, or itself. */
  function ParseNamed(name: string, ts: seq<T.Token>): (r: Reply<Expr>)
    requires T.Stream(ts)
    ensures r.Some? ==> T.Stream(r.value.1) && T.Weight(r.value.1) <= T.Weight(ts)
    decreases T.Weight(ts), 11
  {
    if name == "if" && ts[0] != T.LParen then ParseIfBlock(ts)
    else if ts[0] == T.LParen then ParseCall(name, Tail(ts))
    else ParseSoft(name, ts)
  }

  function ParseSoft(name: string, ts: seq<T.Token>): (r: Reply<Expr>)
    requires T.Stream(ts)
    ensures r.Some? ==> T.Stream(r.value.1) && T.Weight(r.value.1) <= T.Weight(ts)
  {
    if ts[0] == T.Dot then ParseFieldChain(name, ts) else Some((Expr.Ident(name), ts))
  }

  /** `if cond { a } else { b }`, after the `if`: the call `if(cond, a, b)`. */
  function ParseIfBlock(ts: seq<T.Token>): (r: Reply<Expr>)
    requires T.Stream(ts)
    ensures r.Some? ==> Left(r.value.1, ts)
    decreases T.Weight(ts), 10
  {
    match ParseExpr(ts)
    case None => None
    case Some((cond, rest)) =>
      match ParseBranches(rest)
      case None => None
      case Some((a, b, after)) => Some((Call("if", [Positional(cond), Positional(a), Positional(b)]), after))
  }

  predicate BranchesLeft(r: Option<(Expr, Expr, seq<T.Token>)>, ts: seq<T.Token>) {
    r.Some? ==> Left(r.value.2, ts)
  }

  function ParseBranches(ts: seq<T.Token>): (r: Option<(Expr, Expr, seq<T.Token>)>)
    requires T.Stream(ts)
    ensures BranchesLeft(r, ts)
    decreases T.Weight(ts), 12
  {
    hide T.Stream, T.Weight, ParseBraced, ParseOtherwise;
    match ParseBraced(ts)
    case None => None
    case Some((a, rest)) =>
      match ParseOtherwise(rest) case None => None case Some((b, after)) => Some((a, b, after))
  }

  /** `else` and its branch. */
  function ParseOtherwise(ts: seq<T.Token>): (r: Reply<Expr>)
    requires T.Stream(ts)
    ensures r.Some? ==> Left(r.value.1, ts)
    decreases T.Weight(ts), 11
  {
    match Expect(T.Ident("else"), ts) case None => None case Some(branch) => ParseElse(branch)
  }

  function ParseElse(ts: seq<T.Token>): (r: Reply<Expr>)
    requires T.Stream(ts)
    ensures r.Some? ==> Left(r.value.1, ts)
    decreases T.Weight(ts), 10
  {
    if ts[0] == T.Ident("if") then ParseIfBlock(Tail(ts)) else ParseBraced(ts)
  }

  /** `{ e }`. */
  function ParseBraced(ts: seq<T.Token>): (r: Reply<Expr>)
    requires T.Stream(ts)
    ensures r.Some? ==> Left(r.value.1, ts)
    decreases T.Weight(ts), 9
  {
    match Expect(T.LBrace, ts)
    case None => None
    case Some(inner) =>
      match ParseExpr(inner)
      case None => None
      case Some((e, rest)) =>
        match Expect(T.RBrace, rest) case None => None case Some(after) => Some((e, after))
  }

  /** `.a.b`: all but the last name flatten into the source. */
  function ParseFieldChain(source: string, ts: seq<T.Token>): (r: Reply<Expr>)
    requires T.Stream(ts) && ts[0] == T.Dot
    ensures r.Some? ==> Left(r.value.1, ts)
    decreases T.Weight(ts)
  {
    match ExpectIdent(Tail(ts))
    case None => None
    case Some((field, rest)) =>
      if rest[0] == T.Dot then ParseFieldChain(source + "__" + field, rest)
      else Some((FieldAccess(source, field), rest))
  }

  // ------------------------------------------------------------------
  // Calls and arrays
  // ------------------------------------------------------------------

  /** The arguments of a call, after its opening parenthesis. */
  function ParseCall(name: string, ts: seq<T.Token>): (r: Reply<Expr>)
    requires T.Stream(ts)
    ensures r.Some? ==> Left(r.value.1, ts)
    decreases T.Weight(ts), 10
  {
    if ts[0] == T.RParen then Some((Call(name, []), Tail(ts)))
    else
      match ParseArgs(ts)
      case None => None
      case Some((args, rest)) =>
        match Expect(T.RParen, rest) case None => None case Some(after) => Some((Call(name, args), after))
  }

  function ParseArgs(ts: seq<T.Token>): (r: Reply<seq<Arg>>)
    requires T.Stream(ts)
    ensures r.Some? ==> Left(r.value.1, ts)
    decreases T.Weight(ts), 9
  {
    match ParseArg(ts)
    case None => None
    case Some((arg, rest)) =>
      if rest[0] != T.Comma then Some(([arg], rest))
      else
        match ParseArgs(Tail(rest))
        case None => None
        case Some((args, after)) => Some(([arg] + args, after))
  }

  /** The name of a named argument, when a colon follows it. */
  function ArgName(ts: seq<T.Token>): (r: Option<string>)
    requires T.Stream(ts)
    ensures r.Some? ==> ts[0] != T.Eof && |ts| > 1 && ts[1] == T.Colon
  {
    if |ts| > 1 && ts[1] == T.Colon then
      match ts[0]
      case Ident(name) => Some(name)
      case Input => Some("input")
      case _ => None
    else None
  }

  function ParseArg(ts: seq<T.Token>): (r: Reply<Arg>)
    requires T.Stream(ts)
    ensures r.Some? ==> Left(r.value.1, ts)
    decreases T.Weight(ts), 8
  {
    match ArgName(ts)
    case Some(name) =>
      (match ParseExpr(Tail(Tail(ts))) case None => None case Some((e, rest)) => Some((Named(name, e), rest)))
    case None =>
      (match ParseExpr(ts) case None => None case Some((e, rest)) => Some((Positional(e), rest)))
  }

  /** The elements of an array, after its opening bracket. */
  function ParseArray(ts: seq<T.Token>): (r: Reply<Expr>)
    requires T.Stream(ts)
    ensures r.Some? ==> Left(r.value.1, ts)
    decreases T.Weight(ts), 10
  {
    if ts[0] == T.RBracket then Some((ArrayLit([]), Tail(ts)))
    else
      match ParseElements(ts)
      case None => None
      case Some((es, rest)) =>
        match Expect(T.RBracket, rest) case None => None case Some(after) => Some((ArrayLit(es), after))
  }

  function ParseElements(ts: seq<T.Token>): (r: Reply<seq<Expr>>)
    requires T.Stream(ts)
    ensures r.Some? ==> Left(r.value.1, ts)
    decreases T.Weight(ts), 9
  {
    match ParseExpr(ts)
    case None => None
    case Some((e, rest)) =>
      if rest[0] != T.Comma then Some(([e], rest))
      else
        match ParseElements(Tail(rest))
        case None => None
        case Some((es, after)) => Some(([e] + es, after))
  }

  // ------------------------------------------------------------------
  // Interpolated strings
  // ------------------------------------------------------------------

  /** A whole stream as one expression. */
  function ParseExpression(ts: seq<T.Token>): Option<Expr>
    requires T.Stream(ts)
    decreases T.Weight(ts), 8
  {
    match ParseExpr(ts)
    case None => None
    case Some((e, rest)) => if rest[0] == T.Eof then Some(e) else None
  }

  /** A string literal: itself, or a `printf` call when it has placeholders and each
      of them holds an expression. */
  function Interpret(s: string): Expr
    decreases |s|, 3
  {
    match Segments(s, "")
    case None => Expr.StringLit(s)
    case Some(segments) =>
      if !HasPlaceholder(segments) then Expr.StringLit(s)
      else
        SegmentBodiesFit(s, "");
        match ParseBodies(segments, |s|)
        case None => Expr.StringLit(s)
        case Some(es) => Call("printf", [Positional(Expr.StringLit(Format(segments)))] + Positionals(es))
  }

  function Positionals(es: seq<Expr>): seq<Arg> {
    if es == [] then [] else [Positional(es[0])] + Positionals(es[1..])
  }

  /** The expressions of the placeholders, if every one holds an expression. */
  function ParseBodies(segments: seq<Segment>, n: nat): Option<seq<Expr>>
    requires BodiesFit(segments, n)
    decreases n, 2, |segments|
  {
    if segments == [] then Some([])
    else match segments[0]
      case Literal(_) => ParseBodies(segments[1..], n)
      case Placeholder(body) =>
        (match ParseBody(body)
         case None => None
         case Some(e) =>
           match ParseBodies(segments[1..], n) case None => None case Some(es) => Some([e] + es))
  }

  function ParseBody(body: string): Option<Expr>
    decreases |body| + 1, 9
  {
    if Trim(body) == "" then None
    else
      match Lexer.Lex(Trim(body))
      case Err(_) => None
      case Ok(ts) => ParseExpression(ts)
  }

  /** The characters Unicode calls white space. */
  predicate IsWhitespace(c: char) {
    || '\U{0009}' <= c <= '\U{000D}' || c == ' ' || c == '\U{0085}' || c == '\U{00A0}' || c == '\U{1680}'
    || '\U{2000}' <= c <= '\U{200A}' || c == '\U{2028}' || c == '\U{2029}' || c == '\U{202F}' || c == '\U{205F}' || c == '\U{3000}'
  }

  function TrimStart(s: string): (r: string)
    ensures |r| <= |s|
  {
    if s != [] && IsWhitespace(s[0]) then TrimStart(s[1..]) else s
  }

  function TrimEnd(s: string): (r: string)
    ensures |r| <= |s|
  {
    if s != [] && IsWhitespace(s[|s| - 1]) then TrimEnd(s[..|s| - 1]) else s
  }

  function Trim(s: string): (r: string)
    ensures |r| <= |s|
  {
    TrimEnd(TrimStart(s))
  }
}
