/** Printed text lexes to exactly the tokens it was printed from: nothing merges,
    nothing splits. */
module PrintedText {
  import opened Wrappers
  import opened Ast
  import opened PortTypes
  import opened Printer
  import T = Tokens
  import opened Lexer

  // ------------------------------------------------------------------
  // The tokens an expression is printed as
  // ------------------------------------------------------------------

  /** A word that lexes as an identifier. */
  predicate PlainWord(w: string) {
    && w != [] && IsWordStart(w[0]) && (forall i :: 0 <= i < |w| ==> IsWordChar(w[i]))
    && WordPiece(w) == Emit(T.Ident(w), |w|)
  }

  /** A keyword that is a name where an expression stands. */
  predicate SoftWord(w: string) {
    w == "input" || w == "cursor" || w == "over"
  }

  predicate IsName(w: string) { PlainWord(w) || SoftWord(w) }

  function NameToken(w: string): T.Token {
    if w == "input" then T.Input
    else if w == "cursor" then T.Cursor
    else if w == "over" then T.Over
    else T.Ident(w)
  }

  function OpToken(op: BinOp): T.Token {
    match op
    case Add => T.Plus
    case Sub => T.Minus
    case Mul => T.Star
    case Div => T.Slash
    case Mod => T.Percent
    case Pow => T.StarStar
    case BitAnd => T.Ampersand
    case BitOr => T.Pipe
    case BitXor => T.Caret
    case Shl => T.ShiftLeft
    case Shr => T.ShiftRight
    case Eq => T.EqEq
    case Ne => T.BangEq
    case Lt => T.Lt
    case Gt => T.Gt
    case Le => T.LtEq
    case Ge => T.GtEq
    case And => T.AmpAmp
    case Or => T.PipePipe
  }

  /** A string after printing and lexing: a carriage return comes back as a backslash
      and an `r`. */
  function Respell(s: string): string {
    if s == [] then []
    else (if s[0] == '\r' then "\\r" else [s[0]]) + Respell(s[1..])
  }

  function TokensOf(e: Expr): seq<T.Token>
    decreases e, 1
  {
    match e
    case Ident(name) => [NameToken(name)]
    case IntLit(v) => [T.IntLit(v)]
    case FloatLit(text) => [T.FloatLit(text)]
    case StringLit(s) => [T.StringLit(Respell(s))]
    case ArrayLit(es) => [T.LBracket] + TokensOfList(es) + [T.RBracket]
    case Call(f, args) => [T.Ident(f)] + [T.LParen] + TokensOfArgs(args) + [T.RParen]
    case Binary(l, op, r) => [T.LParen] + TokensOf(l) + [OpToken(op)] + TokensOf(r) + [T.RParen]
    case UnaryNeg(x) => [T.LParen] + [T.Minus] + TokensOf(x) + [T.RParen]
    case UnaryBitNot(x) => [T.LParen] + [T.Bang] + TokensOf(x) + [T.RParen]
    case FieldAccess(source, field) => [NameToken(source)] + [T.Dot] + [NameToken(field)]
    case Cast(x, ty) => [T.LParen] + TokensOf(x) + [T.Ident("as")] + [T.Ident(ToKeyword(ty))] + [T.RParen]
  }

  function TokensOfList(es: seq<Expr>): seq<T.Token>
    decreases es, 0
  {
    if es == [] then []
    else if |es| == 1 then TokensOf(es[0])
    else TokensOf(es[0]) + [T.Comma] + TokensOfList(es[1..])
  }

  function TokensOfArgs(args: seq<Arg>): seq<T.Token>
    decreases args, 0
  {
    if args == [] then []
    else if |args| == 1 then TokensOfArg(args[0])
    else TokensOfArg(args[0]) + [T.Comma] + TokensOfArgs(args[1..])
  }

  function TokensOfArg(arg: Arg): seq<T.Token>
    decreases arg, 2
  {
    match arg
    case Positional(e) => TokensOf(e)
    case Named(name, e) => [NameToken(name)] + [T.Colon] + TokensOf(e)
  }

  /** Every name in the expression is one the lexer can give, every integer fits 64
      bits, and there is no float. */
  predicate Printable(e: Expr)
    decreases e, 1
  {
    match e
    case Ident(name) => IsName(name) && name != "if"
    case IntLit(v) => v <= U64_MAX
    case FloatLit(_) => false
    case StringLit(_) => true
    case ArrayLit(es) => forall x :: x in es ==> Printable(x)
    case Call(f, args) => PlainWord(f) && forall a :: a in args ==> PrintableArg(a)
    case Binary(l, _, r) => Printable(l) && Printable(r)
    case UnaryNeg(x) => Printable(x)
    case UnaryBitNot(x) => Printable(x)
    case FieldAccess(source, field) => IsName(source) && source != "if" && IsName(field)
    case Cast(x, _) => Printable(x)
  }

  predicate PrintableArg(arg: Arg)
    decreases arg, 2
  {
    match arg
    case Positional(e) => Printable(e)
    case Named(name, e) => (PlainWord(name) || name == "input") && Printable(e)
  }

  // ------------------------------------------------------------------
  // Lexing printed text
  // ------------------------------------------------------------------

  /** A text that follows a printed expression: its end, or a character that joins
      no token before it. */
  predicate Boundary(rest: string) {
    rest == [] || rest[0] == ' ' || rest[0] == ',' || rest[0] == ')' || rest[0] == ']'
  }

  /** One text lexes, and then the next: together they lex to both token runs. */
  lemma Then(a: string, ta: seq<T.Token>, b: string, tb: seq<T.Token>, rest: string)
    requires Lex(a + (b + rest)) == Prepend(ta, Lex(b + rest))
    requires Lex(b + rest) == Prepend(tb, Lex(rest))
    ensures Lex(a + b + rest) == Prepend(ta + tb, Lex(rest))
  {
    hide Lex;
    assert a + b + rest == a + (b + rest);
    if Lex(rest).Ok? {
      assert ta + (tb + Lex(rest).value) == ta + tb + Lex(rest).value;
    }
  }

  lemma ThenSpace(a: string, ta: seq<T.Token>, rest: string)
    requires Lex(a + (" " + rest)) == Prepend(ta, Lex(" " + rest))
    ensures Lex(a + " " + rest) == Prepend(ta, Lex(rest))
  {
    assert Lex(" " + rest) == Lex(rest) by { assert (" " + rest)[1..] == rest; }
    hide Lex;
    assert a + " " + rest == a + (" " + rest);
  }

  lemma EmitOne(text: string, t: T.Token, rest: string)
    requires text != [] && Next(text + rest) == Emit(t, |text|)
    ensures Lex(text + rest) == Prepend([t], Lex(rest))
  {
    assert (text + rest)[|text|..] == rest;
  }

  lemma NothingThen(rest: string)
    ensures Lex("" + rest) == Prepend([], Lex(rest))
  {
    hide Lex;
    assert "" + rest == rest;
    if Lex(rest).Ok? { assert [] + Lex(rest).value == Lex(rest).value; }
  }

  /** A text that begins with an operator character, and opens no comment or heredoc,
      begins with that operator. */
  lemma NextIsSymbol(s: string)
    requires s != [] && !IsBlank(s[0]) && !IsDigit(s[0]) && s[0] != '#'
    requires s[0] == '/' ==> At(s, 1) != Some('/') && At(s, 1) != Some('*')
    requires |s| >= 3 ==> s[0] != '<' || s[1] != '<' || s[2] != '<'
    requires SymbolPiece(s[0], At(s, 1)).Some?
    ensures Next(s) == SymbolPiece(s[0], At(s, 1)).value
  {
    hide SymbolPiece, NumberPiece, WordPiece, Lex;
    assert |s| >= 3 ==> s[..3][0] == s[0] && s[..3][1] == s[1] && s[..3][2] == s[2];
  }

  /** A bracket, comma or dot is its own token whatever follows, and so is a colon
      before a space. */
  lemma LexSymbol(text: string, t: T.Token, rest: string)
    requires (text == "(" && t == T.LParen) || (text == ")" && t == T.RParen) || (text == "[" && t == T.LBracket)
             || (text == "]" && t == T.RBracket) || (text == "," && t == T.Comma) || (text == "." && t == T.Dot)
             || (rest != [] && rest[0] == ' ' && text == ":" && t == T.Colon)
    ensures Lex(text + rest) == Prepend([t], Lex(rest))
  {
    hide Lex, Next;
    assert SymbolPiece(text[0], At(text + rest, 1)) == Some(Emit(t, 1));
    NextIsSymbol(text + rest);
    EmitOne(text, t, rest);
  }

  /** A prefix operator is its own token before anything that does not join it. */
  lemma LexPrefix(text: string, t: T.Token, rest: string)
    requires (text == "-" && t == T.Minus) || (text == "!" && t == T.Bang)
    requires rest != [] && rest[0] != '>' && rest[0] != '='
    ensures Lex(text + rest) == Prepend([t], Lex(rest))
  {
    hide Lex, Next;
    assert SymbolPiece(text[0], At(text + rest, 1)) == Some(Emit(t, 1));
    NextIsSymbol(text + rest);
    EmitOne(text, t, rest);
  }

  lemma OperatorPiece(op: BinOp)
    ensures var s := OpText(op);
            && 1 <= |s| <= 2
            && SymbolPiece(s[0], Some(if |s| == 2 then s[1] else ' ')) == Some(Emit(OpToken(op), |s|))
            && !IsBlank(s[0]) && !IsDigit(s[0]) && s[0] != '#'
            && (s[0] == '/' ==> |s| == 1)
  {}

  lemma LexOperator(op: BinOp, rest: string)
    ensures Lex(OpText(op) + (" " + rest)) == Prepend([OpToken(op)], Lex(" " + rest))
  {
    OperatorPiece(op);
    hide Lex, Next, OpText, OpToken, SymbolPiece;
    var text := OpText(op) + (" " + rest);
    assert text[|OpText(op)|] == ' ';
    NextIsSymbol(text);
    EmitOne(OpText(op), OpToken(op), " " + rest);
  }

  lemma RunOfWhole(w: string, rest: string, p: char -> bool)
    requires forall i :: 0 <= i < |w| ==> p(w[i])
    requires rest == [] || !p(rest[0])
    ensures Run(w + rest, p) == |w|
  {
    var s := w + rest;
    assert forall i :: 0 <= i < |w| ==> s[i] == w[i];
    assert rest != [] ==> s[|w|] == rest[0];
  }

  /** A name is one token when no word character follows it. */
  lemma NameIsNext(w: string, rest: string)
    requires IsName(w) && (rest == [] || !IsWordChar(rest[0]))
    ensures w != [] && Next(w + rest) == Emit(NameToken(w), |w|)
  {
    var s := w + rest;
    RunOfWhole(w, rest, IsWordChar);
    assert s[..|w|] == w && s[0] == w[0];
    assert |s| >= 3 ==> s[..3][0] == s[0];
  }

  lemma LexName(w: string, rest: string)
    requires IsName(w) && (rest == [] || !IsWordChar(rest[0]))
    ensures Lex(w + rest) == Prepend([NameToken(w)], Lex(rest))
  {
    NameIsNext(w, rest);
    hide *;
    EmitOne(w, NameToken(w), rest);
  }

  lemma DecimalDigits(v: nat)
    ensures Decimal(v) != []
    ensures forall i :: 0 <= i < |Decimal(v)| ==> IsDigit(Decimal(v)[i])
    ensures Number(Decimal(v), 10) == v
  {
    if v >= 10 {
      DecimalDigits(v / 10);
      var d := Decimal(v);
      assert d[..|d| - 1] == Decimal(v / 10);
    } else {
      assert Number(Decimal(v)[..0], 10) == 0;
    }
  }

  lemma NumberIsNext(s: string)
    requires DigitAt(s, 0)
    ensures Next(s) == NumberPiece(s)
  {
    hide NumberPiece;
    assert |s| >= 3 ==> s[..3][0] == s[0];
  }

  /** Nothing that extends a number begins at a boundary. */
  lemma BoundaryEndsNumber(s: string, n: nat)
    requires n <= |s| && Boundary(s[n..])
    ensures SuffixAt(s[n..]) == None && At(s, n) != Some('.') && !ExponentAt(s, n)
  {
    assert n < |s| ==> s[n..][0] == s[n];
  }

  lemma DigitRun(d: string, rest: string)
    requires d != [] && (forall i :: 0 <= i < |d| ==> IsDigit(d[i])) && Boundary(rest)
    ensures Run(d + rest, IsDigit) == |d| && (d + rest)[..|d|] == d && (d + rest)[|d|..] == rest
    ensures DigitAt(d + rest, 0) && (|d + rest| > 1 ==> (d + rest)[1] != 'x' && (d + rest)[1] != 'X')
  {
    RunOfWhole(d, rest, IsDigit);
    var s := d + rest;
    assert s[0] == d[0];
    assert |s| > 1 ==> s[1] == if |d| > 1 then d[1] else rest[0];
  }

  /** Digits before a boundary are an integer: no suffix, fraction or exponent follows. */
  lemma IntegerIsPiece(d: string, rest: string)
    requires d != [] && (forall i :: 0 <= i < |d| ==> IsDigit(d[i])) && Number(d, 10) <= U64_MAX && Boundary(rest)
    ensures NumberPiece(d + rest) == Emit(T.IntLit(Number(d, 10)), |d|)
  {
    hide Number, SuffixAt, Run, Boundary, ExponentAt, At, IsDigit;
    DigitRun(d, rest);
    BoundaryEndsNumber(d + rest, |d|);
  }

  /** A printed integer comes back by value. */
  lemma LexInteger(v: nat, rest: string)
    requires v <= U64_MAX && Boundary(rest)
    ensures Lex(Decimal(v) + rest) == Prepend([T.IntLit(v)], Lex(rest))
  {
    hide Lex, Next, NumberPiece, Decimal;
    DecimalDigits(v);
    IntegerIsPiece(Decimal(v), rest);
    assert (Decimal(v) + rest)[0] == Decimal(v)[0];
    NumberIsNext(Decimal(v) + rest);
    EmitOne(Decimal(v), T.IntLit(v), rest);
  }

  /** Escaped contents decode to the respelled string, up to the closing quote. */
  lemma {:induction false} QuotedEscape(s: string, rest: string)
    ensures Quoted(Escape(s) + "\"" + rest, '"') == Some((Respell(s), |Escape(s)| + 1))
  {
    var text := Escape(s) + "\"" + rest;
    if s != [] {
      QuotedEscape(s[1..], rest);
      var more := Escape(s[1..]) + "\"" + rest;
      assert text == EscapeChar(s[0]) + more;
      if |EscapeChar(s[0])| == 2 {
        assert text[2..] == more && text[0] == '\\' && text[1] == EscapeChar(s[0])[1];
      } else {
        assert text[1..] == more && text[0] == s[0];
      }
    }
  }

  lemma LexString(s: string, rest: string)
    ensures Lex("\"" + Escape(s) + "\"" + rest) == Prepend([T.StringLit(Respell(s))], Lex(rest))
  {
    var text := "\"" + Escape(s) + "\"" + rest;
    assert text[1..] == Escape(s) + "\"" + rest;
    QuotedEscape(s, rest);
    assert |text| >= 3 ==> text[..3][0] == '"';
    assert Next(text) == Emit(T.StringLit(Respell(s)), |Escape(s)| + 2);
    AfterBoth("\"" + Escape(s) + "\"", rest);
  }

  lemma AfterBoth(front: string, rest: string)
    ensures (front + rest)[|front|..] == rest
  {
  }

  /** A string comes back as it was printed exactly when it has no carriage return. */
  lemma {:induction false} RespellKeeps(s: string)
    ensures |Respell(s)| >= |s|
    ensures Respell(s) == s <==> '\r' !in s
  {
    if s != [] {
      RespellKeeps(s[1..]);
      assert s == [s[0]] + s[1..];
      if s[0] == '\r' {
        assert |Respell(s)| > |s|;
      } else {
        assert Respell(s)[1..] == Respell(s[1..]);
      }
    }
  }

  /** Every type keyword is a plain word. */
  lemma KeywordIsWord(ty: PortType)
    ensures PlainWord(ToKeyword(ty)) && NameToken(ToKeyword(ty)) == T.Ident(ToKeyword(ty))
  {
    hide PlainWord, ToKeyword, NameToken;
    match ty
    case Reg128 | RegI8x16 | RegI16x8 => IntegerRegisterIsWord(ty);
    case RegI32x4 | RegI64x2 => WideRegisterIsWord(ty);
    case RegF16x8 | RegF32x4 | RegF64x2 => FloatRegisterIsWord(ty);
    case VecF32 | VecF64 | VecF16 => FloatVectorIsWord(ty);
    case VecI32 | VecI64 => IntegerVectorIsWord(ty);
    case VecI16 | VecI8 => NarrowVectorIsWord(ty);
    case U8 | I8 | U16 | I16 | F16 | U32 | I32 | F32 => NarrowNumberIsWord(ty);
    case U64 | I64 | F64 | U128 | I128 => WideNumberIsWord(ty);
    case Bool | Str | Bytes => TextKeywordIsWord(ty);
    case Json | Ext => SharedKeywordIsWord(ty);
    case _ => OtherKeywordIsWord(ty);
  }

  lemma IntegerRegisterIsWord(ty: PortType)
    requires ty.Reg128? || ty.RegI8x16? || ty.RegI16x8?
    ensures PlainWord(ToKeyword(ty)) && NameToken(ToKeyword(ty)) == T.Ident(ToKeyword(ty))
  {}

  lemma WideRegisterIsWord(ty: PortType)
    requires ty.RegI32x4? || ty.RegI64x2?
    ensures PlainWord(ToKeyword(ty)) && NameToken(ToKeyword(ty)) == T.Ident(ToKeyword(ty))
  {}

  lemma FloatRegisterIsWord(ty: PortType)
    requires ty.RegF16x8? || ty.RegF32x4? || ty.RegF64x2?
    ensures PlainWord(ToKeyword(ty)) && NameToken(ToKeyword(ty)) == T.Ident(ToKeyword(ty))
  {}

  lemma FloatVectorIsWord(ty: PortType)
    requires ty.VecF32? || ty.VecF64? || ty.VecF16?
    ensures PlainWord(ToKeyword(ty)) && NameToken(ToKeyword(ty)) == T.Ident(ToKeyword(ty))
  {}

  lemma IntegerVectorIsWord(ty: PortType)
    requires ty.VecI32? || ty.VecI64?
    ensures PlainWord(ToKeyword(ty)) && NameToken(ToKeyword(ty)) == T.Ident(ToKeyword(ty))
  {}

  lemma NarrowVectorIsWord(ty: PortType)
    requires ty.VecI16? || ty.VecI8?
    ensures PlainWord(ToKeyword(ty)) && NameToken(ToKeyword(ty)) == T.Ident(ToKeyword(ty))
  {}

  lemma NarrowNumberIsWord(ty: PortType)
    requires ty.U8? || ty.I8? || ty.U16? || ty.I16? || ty.F16? || ty.U32? || ty.I32? || ty.F32?
    ensures PlainWord(ToKeyword(ty)) && NameToken(ToKeyword(ty)) == T.Ident(ToKeyword(ty))
  {}

  lemma WideNumberIsWord(ty: PortType)
    requires ty.U64? || ty.I64? || ty.F64? || ty.U128? || ty.I128?
    ensures PlainWord(ToKeyword(ty)) && NameToken(ToKeyword(ty)) == T.Ident(ToKeyword(ty))
  {}

  lemma OtherKeywordIsWord(ty: PortType)
    requires ty.Handle? || ty.Dyn?
    ensures PlainWord(ToKeyword(ty)) && NameToken(ToKeyword(ty)) == T.Ident(ToKeyword(ty))
  {}

  lemma SharedKeywordIsWord(ty: PortType)
    requires ty.Json? || ty.Ext?
    ensures PlainWord(ToKeyword(ty)) && NameToken(ToKeyword(ty)) == T.Ident(ToKeyword(ty))
  {}

  lemma TextKeywordIsWord(ty: PortType)
    requires ty.Bool? || ty.Str? || ty.Bytes?
    ensures PlainWord(ToKeyword(ty)) && NameToken(ToKeyword(ty)) == T.Ident(ToKeyword(ty))
  {}

  /** The printed expression, and whatever follows it, lexes to the expression's
      tokens and then what follows. */
  lemma {:induction false} LexPrinted(e: Expr, rest: string)
    requires Printable(e) && Boundary(rest)
    ensures Lex(Print(e) + rest) == Prepend(TokensOf(e), Lex(rest))
    decreases e, 1
  {
    match e
    case Ident(name) => LexName(name, rest);
    case IntLit(v) => LexInteger(v, rest);
    case StringLit(s) => LexString(s, rest);
    case ArrayLit(es) => LexArray(es, rest);
    case Call(f, args) => LexCall(f, args, rest);
    case Binary(l, op, r) => LexBinary(l, op, r, rest);
    case UnaryNeg(x) => LexUnary("-", T.Minus, x, rest);
    case UnaryBitNot(x) => LexUnary("!", T.Bang, x, rest);
    case FieldAccess(source, field) => LexField(source, field, rest);
    case Cast(x, ty) => LexCast(x, ty, rest);
  }

  lemma LexField(source: string, field: string, rest: string)
    requires IsName(source) && IsName(field) && Boundary(rest)
    ensures Lex(source + "." + field + rest) == Prepend([NameToken(source)] + [T.Dot] + [NameToken(field)], Lex(rest))
  {
    hide Lex, Next, IsName, NameToken;
    LexName(field, rest);
    LexSymbol(".", T.Dot, field + rest);
    LexName(source, "." + (field + rest));
    Then(source, [NameToken(source)], ".", [T.Dot], field + rest);
    Then(source + ".", [NameToken(source)] + [T.Dot], field, [NameToken(field)], rest);
  }

  lemma LexUnary(c: string, t: T.Token, x: Expr, rest: string)
    requires (c == "-" && t == T.Minus) || (c == "!" && t == T.Bang)
    requires Printable(x)
    ensures Lex("(" + c + Print(x) + ")" + rest) == Prepend([T.LParen] + [t] + TokensOf(x) + [T.RParen], Lex(rest))
    decreases x, 2
  {
    PrintStart(x);
    hide Lex, Next, Print, TokensOf, Printable;
    var r1 := ")" + rest;
    var r2 := Print(x) + r1;
    LexSymbol(")", T.RParen, rest);
    LexPrinted(x, r1);
    LexPrefix(c, t, r2);
    LexSymbol("(", T.LParen, c + r2);
    Then("(", [T.LParen], c, [t], r2);
    Then("(" + c, [T.LParen] + [t], Print(x), TokensOf(x), r1);
    Then("(" + c + Print(x), [T.LParen] + [t] + TokensOf(x), ")", [T.RParen], rest);
  }

  /** No printed expression begins with a character that would join an operator. */
  lemma PrintStart(e: Expr)
    requires Printable(e)
    ensures Print(e) != [] && Print(e)[0] != '>' && Print(e)[0] != '='
  {
    match e
    case IntLit(v) => DecimalDigits(v);
    case _ =>
  }

  lemma LexBinary(l: Expr, op: BinOp, r: Expr, rest: string)
    requires Printable(l) && Printable(r)
    ensures Lex("(" + Print(l) + " " + OpText(op) + " " + Print(r) + ")" + rest)
         == Prepend([T.LParen] + TokensOf(l) + [OpToken(op)] + TokensOf(r) + [T.RParen], Lex(rest))
    decreases Binary(l, op, r), 0
  {
    hide Lex, Next, Print, TokensOf, Printable, OpText, OpToken;
    var r1 := ")" + rest;
    LexSymbol(")", T.RParen, rest);
    LexPrinted(r, r1);
    LexLeft(l, op, Print(r) + r1);
    var a, t := "(" + Print(l) + " " + OpText(op) + " ", [T.LParen] + TokensOf(l) + [OpToken(op)];
    Then(a, t, Print(r), TokensOf(r), r1);
    Then(a + Print(r), t + TokensOf(r), ")", [T.RParen], rest);
  }

  /** The left operand and its operator. */
  lemma LexLeft(l: Expr, op: BinOp, rest: string)
    requires Printable(l)
    ensures Lex("(" + Print(l) + " " + OpText(op) + " " + rest) == Prepend([T.LParen] + TokensOf(l) + [OpToken(op)], Lex(rest))
    decreases l, 2
  {
    hide Lex, Next, Print, TokensOf, Printable, OpText, OpToken;
    var r3 := OpText(op) + (" " + rest);
    LexOperator(op, rest);
    LexPrinted(l, " " + r3);
    LexSymbol("(", T.LParen, Print(l) + (" " + r3));
    var a, t := "(" + Print(l), [T.LParen] + TokensOf(l);
    Then("(", [T.LParen], Print(l), TokensOf(l), " " + r3);
    ThenSpace(a, t, r3);
    Then(a + " ", t, OpText(op), [OpToken(op)], " " + rest);
    ThenSpace(a + " " + OpText(op), t + [OpToken(op)], rest);
  }

  lemma LexCast(x: Expr, ty: PortType, rest: string)
    requires Printable(x)
    ensures Lex("(" + Print(x) + " " + "as" + " " + ToKeyword(ty) + ")" + rest)
         == Prepend([T.LParen] + TokensOf(x) + [T.Ident("as")] + [T.Ident(ToKeyword(ty))] + [T.RParen], Lex(rest))
    decreases Cast(x, ty), 0
  {
    KeywordIsWord(ty);
    hide Lex, Next, Print, TokensOf, Printable, ToKeyword, PlainWord, NameToken;
    var word := ToKeyword(ty);
    var r1 := ")" + rest;
    var r2 := word + r1;
    var r3 := "as" + (" " + r2);
    LexSymbol(")", T.RParen, rest);
    LexName(word, r1);
    LexAs(" " + r2);
    LexPrinted(x, " " + r3);
    LexSymbol("(", T.LParen, Print(x) + (" " + r3));
    var a, t := "(" + Print(x), [T.LParen] + TokensOf(x);
    Then("(", [T.LParen], Print(x), TokensOf(x), " " + r3);
    ThenSpace(a, t, r3);
    Then(a + " ", t, "as", [T.Ident("as")], " " + r2);
    ThenSpace(a + " " + "as", t + [T.Ident("as")], r2);
    Then(a + " " + "as" + " ", t + [T.Ident("as")], word, [T.Ident(word)], r1);
    Then(a + " " + "as" + " " + word, t + [T.Ident("as")] + [T.Ident(word)], ")", [T.RParen], rest);
  }

  lemma LexAs(rest: string)
    requires rest != [] && rest[0] == ' '
    ensures Lex("as" + rest) == Prepend([T.Ident("as")], Lex(rest))
  {
    assert PlainWord("as");
    hide Lex, Next, PlainWord;
    LexName("as", rest);
  }

  lemma LexArray(es: seq<Expr>, rest: string)
    requires forall x :: x in es ==> Printable(x)
    ensures Lex("[" + PrintList(es) + "]" + rest) == Prepend([T.LBracket] + TokensOfList(es) + [T.RBracket], Lex(rest))
    decreases es, 1
  {
    hide Lex, Next, PrintList, TokensOfList, Printable;
    var r1 := "]" + rest;
    LexSymbol("]", T.RBracket, rest);
    LexList(es, r1);
    LexSymbol("[", T.LBracket, PrintList(es) + r1);
    Then("[", [T.LBracket], PrintList(es), TokensOfList(es), r1);
    Then("[" + PrintList(es), [T.LBracket] + TokensOfList(es), "]", [T.RBracket], rest);
  }

  lemma {:induction false} LexList(es: seq<Expr>, rest: string)
    requires (forall x :: x in es ==> Printable(x)) && Boundary(rest)
    ensures Lex(PrintList(es) + rest) == Prepend(TokensOfList(es), Lex(rest))
    decreases es, 0
  {
    hide Lex, Next, Print, TokensOf, Printable;
    if es == [] {
      NothingThen(rest);
    } else if |es| == 1 {
      LexPrinted(es[0], rest);
    } else {
      var a, t := Print(es[0]), TokensOf(es[0]);
      var r1 := PrintList(es[1..]) + rest;
      LexList(es[1..], rest);
      LexSymbol(",", T.Comma, " " + r1);
      LexPrinted(es[0], "," + (" " + r1));
      Then(a, t, ",", [T.Comma], " " + r1);
      ThenSpace(a + ",", t + [T.Comma], r1);
      Then(a + "," + " ", t + [T.Comma], PrintList(es[1..]), TokensOfList(es[1..]), rest);
    }
  }

  lemma PlainName(w: string)
    requires PlainWord(w)
    ensures NameToken(w) == T.Ident(w)
  {}

  lemma LexCall(f: string, args: seq<Arg>, rest: string)
    requires PlainWord(f) && forall a :: a in args ==> PrintableArg(a)
    ensures Lex(f + "(" + PrintArgs(args) + ")" + rest)
         == Prepend([T.Ident(f)] + [T.LParen] + TokensOfArgs(args) + [T.RParen], Lex(rest))
    decreases args, 1
  {
    hide Lex, Next, PrintArgs, TokensOfArgs, PrintableArg, PlainWord, NameToken;
    PlainName(f);
    var r1 := ")" + rest;
    var r2 := PrintArgs(args) + r1;
    LexSymbol(")", T.RParen, rest);
    LexArgs(args, r1);
    LexSymbol("(", T.LParen, r2);
    LexName(f, "(" + r2);
    Then(f, [T.Ident(f)], "(", [T.LParen], r2);
    Then(f + "(", [T.Ident(f)] + [T.LParen], PrintArgs(args), TokensOfArgs(args), r1);
    Then(f + "(" + PrintArgs(args), [T.Ident(f)] + [T.LParen] + TokensOfArgs(args), ")", [T.RParen], rest);
  }

  lemma {:induction false} LexArgs(args: seq<Arg>, rest: string)
    requires (forall a :: a in args ==> PrintableArg(a)) && Boundary(rest)
    ensures Lex(PrintArgs(args) + rest) == Prepend(TokensOfArgs(args), Lex(rest))
    decreases args, 0
  {
    hide Lex, Next, PrintArg, TokensOfArg, PrintableArg;
    if args == [] {
      NothingThen(rest);
    } else if |args| == 1 {
      LexArg(args[0], rest);
    } else {
      var a, t := PrintArg(args[0]), TokensOfArg(args[0]);
      var r1 := PrintArgs(args[1..]) + rest;
      LexArgs(args[1..], rest);
      LexSymbol(",", T.Comma, " " + r1);
      LexArg(args[0], "," + (" " + r1));
      Then(a, t, ",", [T.Comma], " " + r1);
      ThenSpace(a + ",", t + [T.Comma], r1);
      Then(a + "," + " ", t + [T.Comma], PrintArgs(args[1..]), TokensOfArgs(args[1..]), rest);
    }
  }

  lemma LexArg(arg: Arg, rest: string)
    requires PrintableArg(arg) && Boundary(rest)
    ensures Lex(PrintArg(arg) + rest) == Prepend(TokensOfArg(arg), Lex(rest))
    decreases arg, 2
  {
    hide Lex, Next, Print, TokensOf, Printable, PlainWord, NameToken;
    match arg
    case Positional(e) => LexPrinted(e, rest);
    case Named(name, e) =>
      var r1 := Print(e) + rest;
      LexPrinted(e, rest);
      LexSymbol(":", T.Colon, " " + r1);
      LexName(name, ":" + (" " + r1));
      Then(name, [NameToken(name)], ":", [T.Colon], " " + r1);
      ThenSpace(name + ":", [NameToken(name)] + [T.Colon], r1);
      Then(name + ":" + " ", [NameToken(name)] + [T.Colon], Print(e), TokensOf(e), rest);
  }

  /** Printing and lexing gives the tokens of the expression and the end of the stream. */
  lemma LexOfPrint(e: Expr)
    requires Printable(e)
    ensures Lex(Print(e)) == Ok(TokensOf(e) + [T.Eof])
  {
    LexPrinted(e, "");
    assert Print(e) + "" == Print(e);
  }
}
