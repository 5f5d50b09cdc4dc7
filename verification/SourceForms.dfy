/** The language's spellings: white space and comments, escapes, words, operators, field chains and placeholders. */
module SourceForms {
  import opened Wrappers
  import opened Ast
  import opened Parser
  import opened PrintedText
  import opened RoundTrip
  import opened Interpolation
  import L = Lexer
  import Precedence
  import Printer
  import T = Tokens

  // ----- White space and comments -----

  lemma SkipOne(front: string, rest: string)
    requires front != "" && L.Next(front + rest) == L.Skip(|front|)
    ensures L.Lex(front + rest) == L.Lex(rest)
  {
    hide L.Next;
    assert (front + rest)[|front|..] == rest;
  }

  /** White space between tokens says nothing. */
  lemma BlankIsSkipped(c: char, rest: string)
    requires c in " \t\n\r"
    ensures L.Lex([c] + rest) == L.Lex(rest)
  {
    hide L.NumberPiece, L.SymbolPiece, L.WordPiece;
    SkipOne([c], rest);
  }

  lemma LineCommentIsPiece(mark: string, text: string, rest: string)
    requires (mark == "//" || mark == "#") && '\n' !in text && (rest == "" || rest[0] == '\n')
    ensures L.Next(mark + text + rest) == L.Skip(|mark + text|)
  {
    var s := mark + text + rest;
    var p := (x: char) => x != '\n';
    RunOfWhole(mark + text, rest, p);
    assert s[0] == mark[0] && (mark == "//" ==> s[1] == '/');
    hide L.NumberPiece, L.SymbolPiece, L.WordPiece, L.Quoted;
    assert L.Run(s, x => x != '\n') == |mark + text| by {
      RunIsLength(s, |mark + text|);
    }
  }

  /** The run of characters that are no line end, where the first one stands at `n`. */
  lemma {:induction false} RunIsLength(s: string, n: nat)
    requires n <= |s| && (forall i :: 0 <= i < n ==> s[i] != '\n') && (n < |s| ==> s[n] == '\n')
    ensures L.Run(s, x => x != '\n') == n
  {
  }

  /** A comment says nothing: one to the end of its line. */
  lemma LineCommentIsSkipped(mark: string, text: string, rest: string)
    requires (mark == "//" || mark == "#") && '\n' !in text && (rest == "" || rest[0] == '\n')
    ensures L.Lex(mark + text + rest) == L.Lex(rest)
  {
    LineCommentIsPiece(mark, text, rest);
    SkipOne(mark + text, rest);
  }

  predicate ClosesAt(text: string, i: nat) {
    i + 1 < |text| && text[i] == '*' && text[i + 1] == '/'
  }

  // The close behind the text is the first one in the two.
  ghost predicate ClosesLast(text: string) {
    forall i: nat :: i < |text| ==> !ClosesAt(text + "*/", i)
  }

  lemma {:induction false} BlockLength(text: string, rest: string)
    requires ClosesLast(text)
    ensures L.BlockComment(text + "*/" + rest) == |text| + 2
  {
    var s := text + "*/" + rest;
    if text == "" {
      assert s[..2] == "*/";
    } else {
      assert !ClosesAt(text + "*/", 0);
      assert s[0] == (text + "*/")[0] && s[1] == (text + "*/")[1] && s[..2] == [s[0], s[1]];
      assert s[1..] == text[1..] + "*/" + rest;
      forall i: nat | i < |text[1..]| ensures !ClosesAt(text[1..] + "*/", i) {
        assert !ClosesAt(text + "*/", i + 1);
        assert (text + "*/")[1..] == text[1..] + "*/";
      }
      BlockLength(text[1..], rest);
    }
  }

  /** A comment says nothing: one up to the first close, line ends and all. */
  lemma BlockCommentIsSkipped(text: string, rest: string)
    requires ClosesLast(text)
    ensures L.Lex("/*" + text + "*/" + rest) == L.Lex(rest)
  {
    hide L.NumberPiece, L.SymbolPiece, L.WordPiece, L.Quoted, L.BlockComment, L.Run, L.Lex, ClosesLast;
    var s := "/*" + text + "*/" + rest;
    BlockLength(text, rest);
    assert s[2..] == text + "*/" + rest && s[0] == '/' && s[1] == '*';
    assert s == ("/*" + text + "*/") + rest;
    assert L.Next(s) == L.Skip(|text| + 4);
    SkipOne("/*" + text + "*/", rest);
  }

  // ----- Escapes and words -----

  /**
   * In a string `\n`, `\t`, `\\` and the escaped quote stand for one character;
   * any other escape stands for itself, backslash and all.
   */
  lemma EscapeReads(c: char, quote: char, more: string)
    requires quote == '"' || quote == '\''
    ensures L.Quoted(['\\', c] + more, quote) == L.Then(
      if c == 'n' then ['\n'] else if c == 't' then ['\t'] else if c == '\\' then ['\\']
      else if c == quote then [quote] else ['\\', c],
      2, L.Quoted(more, quote))
  {
    assert (['\\', c] + more)[2..] == more;
  }

  const RESERVED: seq<string> := ["const", "input", "extern", "shared", "volatile", "cursor", "over", "pragma", "tile", "for"]

  predicate IsWord(w: string) {
    w != "" && L.IsWordStart(w[0]) && forall i :: 0 <= i < |w| ==> L.IsWordChar(w[i])
  }

  /** The reserved words and their tokens; every other word is a name. */
  lemma ReservedWords(word: string, rest: string)
    requires rest == "" || !L.IsWordChar(rest[0])
    ensures word == "const" ==> L.Lex(word + rest) == L.Prepend([T.Const], L.Lex(rest))
    ensures word == "input" ==> L.Lex(word + rest) == L.Prepend([T.Input], L.Lex(rest))
    ensures word == "extern" ==> L.Lex(word + rest) == L.Prepend([T.Extern], L.Lex(rest))
    ensures word == "shared" ==> L.Lex(word + rest) == L.Prepend([T.Shared], L.Lex(rest))
    ensures word == "volatile" ==> L.Lex(word + rest) == L.Prepend([T.Volatile], L.Lex(rest))
    ensures word == "cursor" ==> L.Lex(word + rest) == L.Prepend([T.Cursor], L.Lex(rest))
    ensures word == "over" ==> L.Lex(word + rest) == L.Prepend([T.Over], L.Lex(rest))
    ensures word == "pragma" ==> L.Lex(word + rest) == L.Prepend([T.Pragma], L.Lex(rest))
    ensures IsWord(word) && word !in RESERVED ==> L.Lex(word + rest) == L.Prepend([T.Ident(word)], L.Lex(rest))
  {
    hide L.Lex, L.Next;
    if IsWord(word) {
      WordIsNext(word, rest);
      var piece := L.WordPiece(word);
      if piece.Emit? {
        EmitOne(word, piece.token, rest);
      }
    }
  }

  lemma WordIsNext(word: string, rest: string)
    requires IsWord(word)
    requires rest == "" || !L.IsWordChar(rest[0])
    ensures L.Next(word + rest) == L.WordPiece(word)
  {
    var s := word + rest;
    RunOfWhole(word, rest, L.IsWordChar);
    assert s[..|word|] == word && s[0] == word[0];
    assert |s| >= 3 ==> s[..3][0] == s[0];
    hide L.WordPiece, L.Run;
  }

  // ----- Operators -----

  /** Every operator as it is written, and what it is. */
  const OPERATORS: seq<(string, BinOp)> := [
    ("||", Or), ("&&", And), ("==", Eq), ("!=", Ne), ("<", Lt), (">", Gt), ("<=", Le), (">=", Ge), ("|", BitOr), ("^", BitXor),
    ("&", BitAnd), ("<<", Shl), (">>", Shr), ("+", Add), ("-", Sub), ("*", Mul), ("/", Div), ("%", Mod), ("**", Pow)
  ]

  lemma OperatorText(k: nat)
    requires k < |OPERATORS|
    ensures Printer.OpText(OPERATORS[k].1) == OPERATORS[k].0
  {
  }

  /** An operator's text before a space is one token, which the parser reads as that operator. */
  lemma OperatorReads(k: nat, rest: string) returns (t: T.Token)
    requires k < |OPERATORS|
    ensures L.Lex(OPERATORS[k].0 + (" " + rest)) == L.Prepend([t], L.Lex(rest))
    ensures BinaryOperator(t) == Some(OPERATORS[k].1) && t == OpToken(OPERATORS[k].1)
  {
    hide L.Lex, OpToken, BinaryOperator, Printer.OpText;
    var op := OPERATORS[k].1;
    OperatorText(k);
    LexOperator(op, rest);
    OperatorToken(op);
    BlankIsSkipped(' ', rest);
    t := OpToken(op);
    assert [' '] + rest == " " + rest;
  }

  /** Three operands and two operators between them, as text. */
  function TwoOperatorText(a: Expr, p: string, b: Expr, q: string, c: Expr): string
    requires Printable(a) && Printable(b) && Printable(c)
  {
    Printer.Print(a) + (" " + (p + (" " + (Printer.Print(b) + (" " + (q + (" " + Printer.Print(c))))))))
  }

  /** One operand, its operator, and what follows: the tokens of the text. */
  lemma OperandLexes(a: Expr, k: nat, rest: string)
    requires Printable(a) && k < |OPERATORS|
    ensures L.Lex(Printer.Print(a) + (" " + (OPERATORS[k].0 + (" " + rest))))
         == L.Prepend(TokensOf(a) + [OpToken(OPERATORS[k].1)], L.Lex(rest))
  {
    hide L.Lex, TokensOf, OpToken, Printable, Printer.Print, BinaryOperator;
    var text := OPERATORS[k].0 + (" " + rest);
    LexPrinted(a, " " + text);
    assert [' '] + text == " " + text;
    BlankIsSkipped(' ', text);
    var t := OperatorReads(k, rest);
    L.PrependTwice(TokensOf(a), [t], L.Lex(rest));
  }

  lemma TwoOperatorLexes(a: Expr, j: nat, b: Expr, k: nat, c: Expr)
    requires Printable(a) && Printable(b) && Printable(c) && j < |OPERATORS| && k < |OPERATORS|
    ensures L.Lex(TwoOperatorText(a, OPERATORS[j].0, b, OPERATORS[k].0, c))
         == Ok(TokensOf(a) + ([OpToken(OPERATORS[j].1)] + (TokensOf(b) + ([OpToken(OPERATORS[k].1)] + (TokensOf(c) + [T.Eof])))))
  {
    hide *;
    var p, q := OpToken(OPERATORS[j].1), OpToken(OPERATORS[k].1);
    TwoOperatorTextIs(a, OPERATORS[j].0, b, OPERATORS[k].0, c);
    var second := Printer.Print(b) + (" " + (OPERATORS[k].0 + (" " + Printer.Print(c))));
    OperandLexes(a, j, second);
    OperandLexes(b, k, Printer.Print(c));
    LexOfPrint(c);
    var last := TokensOf(c) + [T.Eof];
    PrependOk(TokensOf(b), q, last);
    PrependOk(TokensOf(a), p, TokensOf(b) + ([q] + last));
  }

  lemma PrependOk(a: seq<T.Token>, t: T.Token, rest: seq<T.Token>)
    ensures L.Prepend(a + [t], Ok(rest)) == Ok(a + ([t] + rest))
  {
    assert (a + [t]) + rest == a + ([t] + rest);
  }

  lemma TwoOperatorTextIs(a: Expr, p: string, b: Expr, q: string, c: Expr)
    requires Printable(a) && Printable(b) && Printable(c)
    ensures TwoOperatorText(a, p, b, q, c)
         == Printer.Print(a) + (" " + (p + (" " + (Printer.Print(b) + (" " + (q + (" " + Printer.Print(c))))))))
  {
  }

  lemma PrintedOperand(e: Expr, t: T.Token, rest: seq<T.Token>)
    requires Printable(e) && T.Stream([t] + rest) && (BinaryOperator(t).Some? || t == T.Eof)
    ensures T.Stream(TokensOf(e) + ([t] + rest)) && ParseOperand(TokensOf(e) + ([t] + rest)) == Some((Reread(e), [t] + rest))
  {
    hide TokensOf, ParseAtom, Reread, Printable;
    assert ([t] + rest)[0] == t;
    ParseAtomPrinted(e, [t] + rest);
    NoCast(Reread(e), [t] + rest);
  }

  /**
   * In source text too: of two operators over three operands the second takes
   * the middle one exactly where it stands on a higher level or both are `**`.
   */
  lemma TextGroupsByLevel(a: Expr, j: nat, b: Expr, k: nat, c: Expr)
    requires Printable(a) && Printable(b) && Printable(c) && j < |OPERATORS| && k < |OPERATORS|
    ensures var p, q := OPERATORS[j].1, OPERATORS[k].1;
      var lexed := L.Lex(TwoOperatorText(a, OPERATORS[j].0, b, OPERATORS[k].0, c));
      && lexed.Ok?
      && ParseExpression(lexed.value) == Some(
        if Precedence.Tighter(q, p) || (p == Pow && q == Pow) then Binary(Reread(a), p, Binary(Reread(b), q, Reread(c)))
        else Binary(Binary(Reread(a), p, Reread(b)), q, Reread(c)))
  {
    hide *;
    TwoOperatorLexes(a, j, b, k, c);
    TokensGroupByLevel(a, OPERATORS[j].1, b, OPERATORS[k].1, c);
    WholeExpression(TokensOf(a) + ([OpToken(OPERATORS[j].1)] + (TokensOf(b) + ([OpToken(OPERATORS[k].1)] + (TokensOf(c) + [T.Eof])))));
  }

  lemma WholeExpression(ts: seq<T.Token>)
    requires T.Stream(ts) && ParseExpr(ts).Some? && ParseExpr(ts).value.1 == [T.Eof]
    ensures ParseExpression(ts) == Some(ParseExpr(ts).value.0)
  {
    hide ParseExpr;
  }

  lemma TokensGroupByLevel(a: Expr, p: BinOp, b: Expr, q: BinOp, c: Expr)
    requires Printable(a) && Printable(b) && Printable(c)
    ensures var ts := TokensOf(a) + ([OpToken(p)] + (TokensOf(b) + ([OpToken(q)] + (TokensOf(c) + [T.Eof]))));
      && T.Stream(ts)
      && ParseExpr(ts) == Some((
        if Precedence.Tighter(q, p) || (p == Pow && q == Pow) then Binary(Reread(a), p, Binary(Reread(b), q, Reread(c)))
        else Binary(Binary(Reread(a), p, Reread(b)), q, Reread(c)), [T.Eof]))
  {
    hide TokensOf, OpToken, Printable, BinaryOperator, Precedence.Tighter, ParseExpr, ParseOperand, Reread, T.Stream, Tail;
    OperatorToken(p);
    OperatorToken(q);
    NoOperatorAtEnd();
    var r3 := [T.Eof];
    assert [T.Eof] + [] == r3;
    PrintedOperand(c, T.Eof, []);
    var ts2 := [OpToken(q)] + (TokensOf(c) + r3);
    TailOf(OpToken(q), TokensOf(c) + r3);
    PrintedOperand(b, OpToken(q), TokensOf(c) + r3);
    var ts1 := [OpToken(p)] + (TokensOf(b) + ts2);
    TailOf(OpToken(p), TokensOf(b) + ts2);
    PrintedOperand(a, OpToken(p), TokensOf(b) + ts2);
    Precedence.TwoOperators(TokensOf(a) + ts1, Reread(a), p, ts1, Reread(b), q, ts2, Reread(c), r3);
  }

  lemma NoOperatorAtEnd()
    ensures BinaryOperator(T.Eof) == None && T.Stream([T.Eof])
  {
  }

  // ----- Field chains -----

  /** `n0.n1. … .nk`, as tokens. */
  function ChainTokens(names: seq<string>): seq<T.Token>
    requires names != []
  {
    [NameToken(names[0])] + (if |names| == 1 then [] else [T.Dot] + ChainTokens(names[1..]))
  }

  /** The names with two underscores between each two. */
  function Flattened(names: seq<string>): string {
    if names == [] then "" else if |names| == 1 then names[0]
    else Flattened(names[..|names| - 1]) + "__" + names[|names| - 1]
  }

  lemma FlattenedMore(done: seq<string>, name: string)
    requires done != []
    ensures Flattened(done + [name]) == Flattened(done) + "__" + name
  {
    assert (done + [name])[..|done|] == done;
  }

  lemma ChainGoesOn(source: string, name: string, rest: seq<T.Token>)
    requires T.Stream(rest) && rest[0] == T.Dot
    ensures var ts := [T.Dot] + ([NameToken(name)] + rest);
      T.Stream(ts) && ParseFieldChain(source, ts) == ParseFieldChain(source + "__" + name, rest)
  {
    hide NameToken, ExpectIdent;
    NameIsExpected(name, rest);
    TailOf(T.Dot, [NameToken(name)] + rest);
  }

  lemma ChainTokensGroup(names: seq<string>, rest: seq<T.Token>)
    requires names != []
    ensures ChainTokens(names) + rest == [NameToken(names[0])] + (if |names| == 1 then rest else [T.Dot] + (ChainTokens(names[1..]) + rest))
  {
    ChainTokensIs(names);
    hide *;
    if |names| == 1 {
      assert ([NameToken(names[0])] + []) + rest == [NameToken(names[0])] + rest;
    } else {
      FourGroup([NameToken(names[0])], [T.Dot], ChainTokens(names[1..]), rest);
    }
  }

  lemma ChainTokensIs(names: seq<string>)
    requires names != []
    ensures ChainTokens(names) == [NameToken(names[0])] + (if |names| == 1 then [] else [T.Dot] + ChainTokens(names[1..]))
  {
  }

  lemma FourGroup(a: seq<T.Token>, b: seq<T.Token>, c: seq<T.Token>, d: seq<T.Token>)
    ensures (a + (b + c)) + d == a + (b + (c + d))
  {
  }

  lemma {:induction false} ChainIsRead(done: seq<string>, names: seq<string>, rest: seq<T.Token>)
    requires done != [] && names != [] && T.Stream(rest) && rest[0] != T.Dot
    ensures var ts := [T.Dot] + (ChainTokens(names) + rest);
      && T.Stream(ts)
      && ParseFieldChain(Flattened(done), ts) == Some((FieldAccess(Flattened(done + names[..|names| - 1]), names[|names| - 1]), rest))
    decreases |names|
  {
    hide NameToken, Flattened, ExpectIdent, ParseFieldChain, ChainTokens;
    ChainTokensGroup(names, rest);
    if |names| == 1 {
      assert done + names[..0] == done;
      ChainEnds(Flattened(done), names[0], rest);
    } else {
      ChainIsRead(done + [names[0]], names[1..], rest);
      FlattenedMore(done, names[0]);
      ChainGoesOn(Flattened(done), names[0], [T.Dot] + (ChainTokens(names[1..]) + rest));
      assert (done + [names[0]]) + names[1..][..|names| - 2] == done + names[..|names| - 1];
    }
  }

  /** A field chain is the field of its last name in the name the others flatten to. */
  lemma FieldChainParses(names: seq<string>, rest: seq<T.Token>)
    requires |names| >= 2 && names[0] != "if" && T.Stream(rest) && rest[0] != T.Dot
    ensures T.Stream(ChainTokens(names) + rest)
    ensures ParseAtom(ChainTokens(names) + rest) == Some((FieldAccess(Flattened(names[..|names| - 1]), names[|names| - 1]), rest))
  {
    hide ParseAtom, ParseFieldChain, ChainTokens, Flattened, NameToken;
    var ts := [T.Dot] + (ChainTokens(names[1..]) + rest);
    ChainIsRead([names[0]], names[1..], rest);
    OneFlattened(names[0]);
    assert [names[0]] + names[1..][..|names| - 2] == names[..|names| - 1];
    ChainTokensGroup(names, rest);
    ChainBegins(names[0], ts);
  }

  lemma OneFlattened(name: string)
    ensures Flattened([name]) == name
  {
  }

  // ----- Placeholders -----

  /** The bodies of the placeholders, in order. */
  function Bodies(segments: seq<Segment>): seq<string> {
    if segments == [] then []
    else Bodies(segments[..|segments| - 1]) + (var last := segments[|segments| - 1]; if last.Placeholder? then [last.body] else [])
  }

  lemma {:induction false} BodiesByFirst(segments: seq<Segment>)
    requires segments != []
    ensures Bodies(segments) == (if segments[0].Placeholder? then [segments[0].body] else []) + Bodies(segments[1..])
  {
    if |segments| == 1 {
      assert segments[..0] == [] && segments[1..] == [];
    } else {
      var front := segments[..|segments| - 1];
      BodiesByFirst(front);
      assert front[1..] == segments[1..][..|segments| - 2];
    }
  }

  /** Each body parses to the expression at its place. */
  ghost predicate Holds(bodies: seq<string>, es: seq<Expr>) {
    |es| == |bodies| && forall k :: 0 <= k < |es| ==> ParseBody(bodies[k]) == Some(es[k])
  }

  lemma HoldsMore(body: string, e: Expr, bodies: seq<string>, es: seq<Expr>)
    requires ParseBody(body) == Some(e) && Holds(bodies, es)
    ensures Holds([body] + bodies, [e] + es)
  {
    hide ParseBody;
  }

  lemma {:induction false} BodiesParse(segments: seq<Segment>, n: nat)
    requires BodiesFit(segments, n) && ParseBodies(segments, n).Some?
    ensures Holds(Bodies(segments), ParseBodies(segments, n).value)
  {
    hide ParseBody;
    if segments != [] {
      BodiesParse(segments[1..], n);
      BodiesByFirst(segments);
      hide Bodies, Holds;
      if segments[0].Placeholder? {
        HoldsMore(segments[0].body, ParseBody(segments[0].body).value, Bodies(segments[1..]), ParseBodies(segments[1..], n).value);
      } else {
        assert [] + Bodies(segments[1..]) == Bodies(segments[1..]);
      }
    }
  }

  lemma {:induction false} PositionalsAt(es: seq<Expr>)
    ensures |Positionals(es)| == |es| && forall k :: 0 <= k < |es| ==> Positionals(es)[k] == Positional(es[k])
  {
    if es != [] {
      PositionalsAt(es[1..]);
    }
  }

  /**
   * An interpolated literal becomes a call of `printf`: first the format, with
   * `{}` for each placeholder, and then what the placeholders hold, one by one
   * in the order of the text.
   */
  lemma PlaceholdersInOrder(s: string)
    requires !Interpret(s).StringLit?
    ensures Segments(s, "").Some? && Interpret(s).Call? && Interpret(s).func == "printf"
    ensures var bodies, args := Bodies(Segments(s, "").value), Interpret(s).args;
      && |args| == 1 + |bodies| && args[0] == Positional(Expr.StringLit(Format(Segments(s, "").value)))
      && forall k :: 0 <= k < |bodies| ==> args[k + 1].Positional? && ParseBody(bodies[k]) == Some(args[k + 1].value)
  {
    hide ParseBody, ParseBodies, Segments, Bodies, Format, Positionals;
    var segments := Segments(s, "").value;
    SegmentBodiesFit(s, "");
    BodiesParse(segments, |s|);
    PositionalsAt(ParseBodies(segments, |s|).value);
  }
}
