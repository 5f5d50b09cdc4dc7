/** The parser as the object it is: a token list and a position that moves through it.
    Each method returns what the function of the same name in `Parser` gives for the
    tokens ahead, and stops where that function stops. */
module TokenParsers {
  import opened Wrappers
  import opened Ast
  import opened PortTypes
  import opened Interpolation
  import P = Parser
  import Lexer
  import T = Tokens

  class TokenParser {
    const tokens: seq<T.Token>
    var pos: nat

    ghost predicate Valid()
      reads this
    {
      T.Stream(tokens) && pos < |tokens|
    }

    /** The tokens ahead. */
    ghost function Ahead(): (r: seq<T.Token>)
      requires Valid()
      reads this
      ensures T.Stream(r)
    {
      tokens[pos..]
    }

    /** The parse came out as `spec` says, and stopped where it says. */
    ghost predicate Replies<A>(spec: P.Reply<A>, r: Option<A>)
      reads this
    {
      && Valid()
      && match spec
         case None => r == None
         case Some((a, rest)) => r == Some(a) && Ahead() == rest
    }

    constructor (tokens: seq<T.Token>)
      requires T.Stream(tokens)
      ensures Valid() && Ahead() == tokens
    {
      this.tokens := tokens;
      this.pos := 0;
    }

    function Peek(): (t: T.Token)
      requires Valid()
      reads this
      ensures t == Ahead()[0]
    {
      tokens[pos]
    }

    method Advance()
      requires Valid() && Peek() != T.Eof
      modifies this
      ensures Valid() && Ahead() == P.Tail(old(Ahead()))
    {
      pos := pos + 1;
    }

    method Expect(t: T.Token) returns (ok: bool)
      requires Valid() && t != T.Eof
      modifies this
      ensures Valid()
      ensures match P.Expect(t, old(Ahead()))
              case None => !ok
              case Some(rest) => ok && Ahead() == rest
    {
      if Peek() == t {
        Advance();
        return true;
      }
      return false;
    }

    method ExpectIdent() returns (r: Option<string>)
      requires Valid()
      modifies this
      ensures Replies(P.ExpectIdent(old(Ahead())), r)
    {
      var t := Peek();
      if t.Ident? || t == T.Input || t == T.Cursor || t == T.Over {
        Advance();
        return Some(if t.Ident? then t.name else if t == T.Input then "input" else if t == T.Cursor then "cursor" else "over");
      }
      return None;
    }

    method ParseExpr() returns (r: Option<Expr>)
      requires Valid()
      modifies this
      ensures Replies(P.ParseExpr(old(Ahead())), r)
      decreases T.Weight(Ahead()), 7
    {
      r := ParseExprBp(0);
    }

    /** The operator loop: each pass hangs the tree so far under the next operator. */
    method ParseExprBp(min: nat) returns (r: Option<Expr>)
      requires Valid()
      modifies this
      ensures Replies(P.ParseExprBp(old(Ahead()), min), r)
      decreases T.Weight(Ahead()), 6
    {
      hide BindingPower, P.BinaryOperator, P.ParseExprBp, P.ParseAtom, P.ParsePostfixAs, P.ParseOperand;
      ghost var before := Ahead();
      OperandStep(before, min);
      var atom := ParseAtom();
      if atom.None? {
        return None;
      }
      var operand := ParsePostfixAs(atom.value);
      if operand.None? {
        return None;
      }
      var lhs := operand.value;
      while P.BinaryOperator(Peek()).Some?
        invariant Valid() && T.Weight(Ahead()) < T.Weight(before)
        invariant P.ParseOperators(lhs, Ahead(), min) == P.ParseExprBp(before, min)
        decreases T.Weight(Ahead())
      {
        var op := P.BinaryOperator(Peek()).value;
        if LeftPower(op) < min {
          break;
        }
        NotEof(Peek());
        Advance();
        var rhs := ParseExprBp(RightPower(op));
        if rhs.None? {
          return None;
        }
        lhs := Binary(lhs, op, rhs.value);
      }
      return Some(lhs);
    }

    method ParsePostfixAs(e: Expr) returns (r: Option<Expr>)
      requires Valid()
      modifies this
      ensures Replies(P.ParsePostfixAs(e, old(Ahead())), r)
    {
      hide FromKeyword;
      ghost var before := Ahead();
      var expr := e;
      while Peek() == T.Ident("as")
        invariant Valid() && T.Weight(Ahead()) <= T.Weight(before)
        invariant P.ParsePostfixAs(expr, Ahead()) == P.ParsePostfixAs(e, before)
        decreases T.Weight(Ahead())
      {
        Advance();
        if !Peek().Ident? {
          return None;
        }
        var ty := FromKeyword(Peek().name);
        if ty.None? {
          return None;
        }
        Advance();
        expr := Cast(expr, ty.value);
      }
      return Some(expr);
    }

    method ParseAtom() returns (r: Option<Expr>)
      requires Valid()
      modifies this
      ensures Replies(P.ParseAtom(old(Ahead())), r)
      decreases T.Weight(Ahead()), 4
    {
      hide P.ParseAtom;
      var t := Peek();
      if t == T.Minus || t == T.Bang {
        r := ParsePrefix();
      } else if t == T.LParen || t == T.LBracket {
        r := ParseBracketed();
      } else if t.Ident? || t == T.Input || t == T.Cursor || t == T.Over {
        r := ParseWord();
      } else {
        r := ParseLiteral();
      }
    }

    /** A prefix operator and the atom it applies to. */
    method ParsePrefix() returns (r: Option<Expr>)
      requires Valid() && (Peek() == T.Minus || Peek() == T.Bang)
      modifies this
      ensures Replies(P.ParseAtom(old(Ahead())), r)
      decreases T.Weight(Ahead()), 3
    {
      PrefixStep(Ahead());
      hide P.ParseAtom;
      var minus := Peek() == T.Minus;
      Advance();
      var e := ParseAtom();
      if e.None? {
        return None;
      }
      return Some(if minus then UnaryNeg(e.value) else UnaryBitNot(e.value));
    }

    /** A group or an array. */
    method ParseBracketed() returns (r: Option<Expr>)
      requires Valid() && (Peek() == T.LParen || Peek() == T.LBracket)
      modifies this
      ensures Replies(P.ParseAtom(old(Ahead())), r)
      decreases T.Weight(Ahead()), 3
    {
      BracketStep(Ahead());
      hide P.ParseAtom, P.ParseGroup, P.ParseArray;
      var group := Peek() == T.LParen;
      Advance();
      if group {
        r := ParseGroup();
      } else {
        r := ParseArrayLit();
      }
    }

    /** An atom that is a literal; anything else is an error here. */
    method ParseLiteral() returns (r: Option<Expr>)
      requires Valid() && Peek() !in {T.Minus, T.Bang, T.LParen, T.LBracket, T.Input, T.Cursor, T.Over} && !Peek().Ident?
      modifies this
      ensures Replies(P.ParseAtom(old(Ahead())), r)
      decreases T.Weight(Ahead()), 3
    {
      var t := Peek();
      if t.StringLit? {
        Advance();
        var e := ParseInterpolatedString(t.text);
        return Some(e);
      } else if t.IntLit? {
        Advance();
        return Some(IntLit(t.value));
      } else if t.FloatLit? {
        Advance();
        return Some(FloatLit(t.text));
      }
      return None;
    }

    /** An atom that begins with a name or a soft keyword. */
    method ParseWord() returns (r: Option<Expr>)
      requires Valid() && (Peek().Ident? || Peek() == T.Input || Peek() == T.Cursor || Peek() == T.Over)
      modifies this
      ensures Replies(P.ParseAtom(old(Ahead())), r)
      decreases T.Weight(Ahead()), 3
    {
      WordStep(Ahead());
      hide P.ParseAtom, P.ParseNamed, P.ParseSoft;
      var t := Peek();
      Advance();
      if t.Ident? {
        r := ParseNamed(t.name);
      } else {
        r := ParseSoft(if t == T.Input then "input" else if t == T.Cursor then "cursor" else "over");
      }
    }

    method ParseGroup() returns (r: Option<Expr>)
      requires Valid()
      modifies this
      ensures Replies(P.ParseGroup(old(Ahead())), r)
      decreases T.Weight(Ahead()), 8
    {
      var inner := ParseExpr();
      if inner.None? {
        return None;
      }
      var ok := Expect(T.RParen);
      return if ok then inner else None;
    }

    method ParseNamed(name: string) returns (r: Option<Expr>)
      requires Valid()
      modifies this
      ensures Replies(P.ParseNamed(name, old(Ahead())), r)
      decreases T.Weight(Ahead()), 11
    {
      if name == "if" && Peek() != T.LParen {
        r := ParseIfBlock();
      } else if Peek() == T.LParen {
        Advance();
        r := ParseCall(name);
      } else {
        r := ParseSoft(name);
      }
    }

    method ParseSoft(name: string) returns (r: Option<Expr>)
      requires Valid()
      modifies this
      ensures Replies(P.ParseSoft(name, old(Ahead())), r)
    {
      if Peek() == T.Dot {
        r := ParseFieldChain(name);
      } else {
        return Some(Ident(name));
      }
    }

    method ParseFieldChain(base: string) returns (r: Option<Expr>)
      requires Valid() && Peek() == T.Dot
      modifies this
      ensures Replies(P.ParseFieldChain(base, old(Ahead())), r)
    {
      ghost var before := Ahead();
      ChainStep(base, before);
      Advance();
      var source := base;
      var next := ExpectIdent();
      if next.None? {
        return None;
      }
      var field := next.value;
      hide P.ParseFieldChain;
      while Peek() == T.Dot
        invariant Valid()
        invariant P.ParseFieldChain(base, before) == Chained(source, field, Ahead())
        decreases T.Weight(Ahead())
      {
        ChainStep(source + "__" + field, Ahead());
        Advance();
        source := source + "__" + field;
        next := ExpectIdent();
        if next.None? {
          return None;
        }
        field := next.value;
      }
      return Some(FieldAccess(source, field));
    }

    method ParseIfBlock() returns (r: Option<Expr>)
      requires Valid()
      modifies this
      ensures Replies(P.ParseIfBlock(old(Ahead())), r)
      decreases T.Weight(Ahead()), 10
    {
      var cond := ParseExpr();
      if cond.None? {
        return None;
      }
      var branches := ParseBranches();
      if branches.None? {
        return None;
      }
      var (a, b) := branches.value;
      return Some(Call("if", [Positional(cond.value), Positional(a), Positional(b)]));
    }

    method ParseBranches() returns (r: Option<(Expr, Expr)>)
      requires Valid()
      modifies this
      ensures Valid()
      ensures match P.ParseBranches(old(Ahead()))
              case None => r == None
              case Some((a, b, rest)) => r == Some((a, b)) && Ahead() == rest
      decreases T.Weight(Ahead()), 12
    {
      hide P.ParseBraced, P.ParseOtherwise;
      var a := ParseBraced();
      if a.None? {
        return None;
      }
      var b := ParseOtherwise();
      return if b.Some? then Some((a.value, b.value)) else None;
    }

    method ParseOtherwise() returns (r: Option<Expr>)
      requires Valid()
      modifies this
      ensures Replies(P.ParseOtherwise(old(Ahead())), r)
      decreases T.Weight(Ahead()), 11
    {
      hide P.ParseElse;
      var found := Expect(T.Ident("else"));
      if !found {
        return None;
      }
      r := ParseElse();
    }

    method ParseElse() returns (r: Option<Expr>)
      requires Valid()
      modifies this
      ensures Replies(P.ParseElse(old(Ahead())), r)
      decreases T.Weight(Ahead()), 10
    {
      if Peek() == T.Ident("if") {
        Advance();
        r := ParseIfBlock();
      } else {
        r := ParseBraced();
      }
    }

    method ParseBraced() returns (r: Option<Expr>)
      requires Valid()
      modifies this
      ensures Replies(P.ParseBraced(old(Ahead())), r)
      decreases T.Weight(Ahead()), 9
    {
      var open := Expect(T.LBrace);
      if !open {
        return None;
      }
      var e := ParseExpr();
      if e.None? {
        return None;
      }
      var closed := Expect(T.RBrace);
      return if closed then e else None;
    }

    method ParseCall(name: string) returns (r: Option<Expr>)
      requires Valid()
      modifies this
      ensures Replies(P.ParseCall(name, old(Ahead())), r)
      decreases T.Weight(Ahead()), 10
    {
      if Peek() == T.RParen {
        Advance();
        return Some(Call(name, []));
      }
      var args := ParseArgs();
      if args.None? {
        return None;
      }
      var ok := Expect(T.RParen);
      return if ok then Some(Call(name, args.value)) else None;
    }

    method ParseArgs() returns (r: Option<seq<Arg>>)
      requires Valid()
      modifies this
      ensures Replies(P.ParseArgs(old(Ahead())), r)
      decreases T.Weight(Ahead()), 9
    {
      ghost var before := Ahead();
      var args: seq<Arg> := [];
      OntoNone(P.ParseArgs(before));
      while true
        invariant Valid() && T.Weight(Ahead()) <= T.Weight(before)
        invariant P.ParseArgs(before) == Onto(args, P.ParseArgs(Ahead()))
        decreases T.Weight(Ahead())
      {
        var arg := ParseArg();
        if arg.None? {
          return None;
        }
        if Peek() != T.Comma {
          return Some(args + [arg.value]);
        }
        Advance();
        OntoTwice(args, [arg.value], P.ParseArgs(Ahead()));
        args := args + [arg.value];
      }
    }

    method ParseArg() returns (r: Option<Arg>)
      requires Valid()
      modifies this
      ensures Replies(P.ParseArg(old(Ahead())), r)
      decreases T.Weight(Ahead()), 8
    {
      hide P.ParseExpr;
      ghost var before := Ahead();
      var name := None;
      if pos + 1 < |tokens| && tokens[pos + 1] == T.Colon {
        if Peek().Ident? {
          name := Some(Peek().name);
        } else if Peek() == T.Input {
          name := Some("input");
        }
      }
      assert name == P.ArgName(before);
      hide P.ArgName;
      if name.Some? {
        assert before[0] != T.Eof && P.Tail(before)[0] == T.Colon;
        Advance();
        Advance();
        var value := ParseExpr();
        return if value.Some? then Some(Named(name.value, value.value)) else None;
      }
      var e := ParseExpr();
      return if e.Some? then Some(Positional(e.value)) else None;
    }

    method ParseArrayLit() returns (r: Option<Expr>)
      requires Valid()
      modifies this
      ensures Replies(P.ParseArray(old(Ahead())), r)
      decreases T.Weight(Ahead()), 10
    {
      if Peek() == T.RBracket {
        Advance();
        return Some(ArrayLit([]));
      }
      var elements := ParseElements();
      if elements.None? {
        return None;
      }
      var ok := Expect(T.RBracket);
      return if ok then Some(ArrayLit(elements.value)) else None;
    }

    method ParseElements() returns (r: Option<seq<Expr>>)
      requires Valid()
      modifies this
      ensures Replies(P.ParseElements(old(Ahead())), r)
      decreases T.Weight(Ahead()), 9
    {
      ghost var before := Ahead();
      var elements: seq<Expr> := [];
      OntoNone(P.ParseElements(before));
      hide P.ParseExpr;
      while true
        invariant Valid() && T.Weight(Ahead()) <= T.Weight(before)
        invariant P.ParseElements(before) == Onto(elements, P.ParseElements(Ahead()))
        decreases T.Weight(Ahead())
      {
        var e := ParseExpr();
        if e.None? {
          return None;
        }
        if Peek() != T.Comma {
          return Some(elements + [e.value]);
        }
        Advance();
        OntoTwice(elements, [e.value], P.ParseElements(Ahead()));
        elements := elements + [e.value];
      }
    }

    /** A string literal, desugared to a `printf` call when its placeholders parse. */
    static method ParseInterpolatedString(s: string) returns (e: Expr)
      ensures e == P.Interpret(s)
      decreases |s|, 3
    {
      var scanned := ScanSegments(s);
      if scanned.None? || !HasPlaceholder(scanned.value) {
        return StringLit(s);
      }
      SegmentBodiesFit(s, "");
      var parsed := ParsePlaceholders(scanned.value, |s|);
      if parsed.None? {
        return StringLit(s);
      }
      var args := PrintfArgs(parsed.value.0, parsed.value.1);
      return Call("printf", args);
    }

    /** The format string and the placeholder expressions, gathered segment by segment. */
    static method ParsePlaceholders(segments: seq<Segment>, n: nat) returns (r: Option<(string, seq<Expr>)>)
      requires BodiesFit(segments, n)
      ensures r.None? <==> P.ParseBodies(segments, n).None?
      ensures r.Some? ==> r.value == (Format(segments), P.ParseBodies(segments, n).value)
      decreases n, 2
    {
      var format := "";
      var exprs: seq<Expr> := [];
      var i := 0;
      hide *;
      NothingGathered(segments, n);
      while i < |segments|
        invariant 0 <= i <= |segments| && BodiesFit(segments[i..], n)
        invariant format + Format(segments[i..]) == Format(segments)
        invariant P.ParseBodies(segments, n) == Gather(exprs, P.ParseBodies(segments[i..], n))
        decreases |segments| - i
      {
        PlaceholdersStep(segments, i, n);
        match segments[i] {
          case Literal(text) =>
            assert format + (text + Format(segments[i + 1..])) == (format + text) + Format(segments[i + 1..]);
            format := format + text;
          case Placeholder(body) =>
            var parsed := ParsePlaceholderBody(body);
            if parsed.None? {
              GatherFails(exprs, None);
              return None;
            }
            GatherTwice(exprs, [parsed.value], P.ParseBodies(segments[i + 1..], n));
            assert format + ("{}" + Format(segments[i + 1..])) == (format + "{}") + Format(segments[i + 1..]);
            exprs := exprs + [parsed.value];
            format := format + "{}";
        }
        i := i + 1;
      }
      NoPlaceholders(segments[i..], n);
      GatherFails(exprs, Some([]));
      assert format + "" == format;
      return Some((format, exprs));
    }

    static method PrintfArgs(format: string, exprs: seq<Expr>) returns (args: seq<Arg>)
      ensures args == [Positional(StringLit(format))] + P.Positionals(exprs)
    {
      args := [Positional(StringLit(format))];
      for k := 0 to |exprs|
        invariant args + P.Positionals(exprs[k..]) == [Positional(StringLit(format))] + P.Positionals(exprs)
      {
        assert exprs[k..][1..] == exprs[k + 1..];
        args := args + [Positional(exprs[k])];
      }
    }

    static method ParsePlaceholderBody(body: string) returns (r: Option<Expr>)
      ensures r == P.ParseBody(body)
      decreases |body| + 1, 9
    {
      var text := P.Trim(body);
      if text == "" {
        return None;
      }
      var lexed := Lexer.Lex(text);
      if lexed.Err? {
        return None;
      }
      var parser := new TokenParser(lexed.value);
      var e := parser.ParseExpr();
      return if e.Some? && parser.Peek() == T.Eof then e else None;
    }
  }

  lemma OperandStep(ts: seq<T.Token>, min: nat)
    requires T.Stream(ts)
    ensures P.ParseExprBp(ts, min)
         == match P.ParseAtom(ts)
            case None => None
            case Some((a, after)) =>
              match P.ParsePostfixAs(a, after)
              case None => None
              case Some((e, rest)) => P.ParseOperators(e, rest, min)
  {
    hide P.ParseAtom, P.ParsePostfixAs, P.ParseOperators;
  }

  lemma PrefixStep(ts: seq<T.Token>)
    requires T.Stream(ts) && (ts[0] == T.Minus || ts[0] == T.Bang)
    ensures P.ParseAtom(ts)
         == match P.ParseAtom(P.Tail(ts))
            case None => None
            case Some((e, rest)) => Some((if ts[0] == T.Minus then UnaryNeg(e) else UnaryBitNot(e), rest))
  {
    hide P.ParseNamed, P.ParseGroup, P.ParseArray, P.ParseSoft, P.Interpret;
  }

  lemma BracketStep(ts: seq<T.Token>)
    requires T.Stream(ts) && (ts[0] == T.LParen || ts[0] == T.LBracket)
    ensures P.ParseAtom(ts) == if ts[0] == T.LParen then P.ParseGroup(P.Tail(ts)) else P.ParseArray(P.Tail(ts))
  {
    hide P.ParseNamed, P.ParseGroup, P.ParseArray, P.ParseSoft, P.Interpret;
  }

  lemma WordStep(ts: seq<T.Token>)
    requires T.Stream(ts) && (ts[0].Ident? || ts[0] == T.Input || ts[0] == T.Cursor || ts[0] == T.Over)
    ensures P.ParseAtom(ts) ==
      if ts[0].Ident? then P.ParseNamed(ts[0].name, P.Tail(ts))
      else P.ParseSoft(if ts[0] == T.Input then "input" else if ts[0] == T.Cursor then "cursor" else "over", P.Tail(ts))
  {
    hide P.ParseNamed, P.ParseGroup, P.ParseArray, P.ParseSoft, P.Interpret;
  }

  /** The first segment's part in the format string and in the expressions. */
  lemma PlaceholdersStep(segments: seq<Segment>, i: nat, n: nat)
    requires BodiesFit(segments, n) && i < |segments|
    ensures BodiesFit(segments[i..], n) && BodiesFit(segments[i + 1..], n)
    ensures segments[i].Placeholder? ==> |segments[i].body| + 2 <= n
    ensures Format(segments[i..]) == (if segments[i].Literal? then segments[i].text else "{}") + Format(segments[i + 1..])
    ensures P.ParseBodies(segments[i..], n) ==
      if segments[i].Literal? then P.ParseBodies(segments[i + 1..], n)
      else
        var first := P.ParseBody(segments[i].body);
        if first.None? then None else Gather([first.value], P.ParseBodies(segments[i + 1..], n))
  {
    hide P.ParseBody;
    assert segments[i..][0] == segments[i] && segments[i..][1..] == segments[i + 1..];
  }

  lemma NothingGathered(segments: seq<Segment>, n: nat)
    requires BodiesFit(segments, n)
    ensures segments[0..] == segments && "" + Format(segments) == Format(segments)
    ensures P.ParseBodies(segments, n) == Gather([], P.ParseBodies(segments, n))
  {
    Gathered([], P.ParseBodies(segments, n));
  }

  lemma NoPlaceholders(segments: seq<Segment>, n: nat)
    requires segments == []
    ensures BodiesFit(segments, n) && Format(segments) == "" && P.ParseBodies(segments, n) == Some([])
  {
  }

  lemma GatherFails(collected: seq<Expr>, r: Option<seq<Expr>>)
    ensures r.None? ==> Gather(collected, r).None?
    ensures r == Some([]) ==> Gather(collected, r) == Some(collected)
  {
    assert collected + [] == collected;
  }

  /** What a field chain gives once `source.field` has been read. */
  function Chained(source: string, field: string, ts: seq<T.Token>): P.Reply<Expr>
    requires T.Stream(ts)
  {
    if ts[0] == T.Dot then P.ParseFieldChain(source + "__" + field, ts) else Some((FieldAccess(source, field), ts))
  }

  lemma ChainStep(source: string, ts: seq<T.Token>)
    requires T.Stream(ts) && ts[0] == T.Dot
    ensures P.ParseFieldChain(source, ts)
         == match P.ExpectIdent(P.Tail(ts)) case None => None case Some((field, rest)) => Chained(source, field, rest)
  {}

  lemma NotEof(t: T.Token)
    requires P.BinaryOperator(t).Some?
    ensures t != T.Eof
  {}

  /** A reply with what was collected before it. */
  function Onto<A>(collected: seq<A>, r: P.Reply<seq<A>>): P.Reply<seq<A>> {
    match r case None => None case Some((more, rest)) => Some((collected + more, rest))
  }

  lemma OntoTwice<A>(a: seq<A>, b: seq<A>, r: P.Reply<seq<A>>)
    ensures Onto(a, Onto(b, r)) == Onto(a + b, r)
  {
    if r.Some? { assert a + (b + r.value.0) == a + b + r.value.0; }
  }

  lemma OntoNone<A>(r: P.Reply<seq<A>>)
    ensures Onto([], r) == r
  {
    if r.Some? { assert [] + r.value.0 == r.value.0; }
  }

  function Gather(collected: seq<Expr>, r: Option<seq<Expr>>): Option<seq<Expr>> {
    match r case None => None case Some(more) => Some(collected + more)
  }

  lemma Gathered(none: seq<Expr>, r: Option<seq<Expr>>)
    requires none == []
    ensures Gather(none, r) == r
  {
    if r.Some? { assert none + r.value == r.value; }
  }

  lemma GatherTwice(a: seq<Expr>, b: seq<Expr>, r: Option<seq<Expr>>)
    ensures Gather(a, Gather(b, r)) == Gather(a + b, r)
  {
    if r.Some? { assert a + (b + r.value) == a + b + r.value; }
  }
}
