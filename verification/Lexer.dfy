/** The lexer: one piece of text at a time, longest match first. */
module Lexer {
  import opened Wrappers
  import opened Tokens

  datatype LexError = BadNumber | Unterminated | UnexpectedChar | RawCapture

  /** What the text at a position begins with. */
  datatype Piece = Skip(len: nat) | Emit(token: Token, len: nat) | Fail(error: LexError)

  const U64_MAX: nat := 0xFFFF_FFFF_FFFF_FFFF

  predicate IsDigit(c: char) { '0' <= c <= '9' }

  predicate IsLetter(c: char) { 'a' <= c <= 'z' || 'A' <= c <= 'Z' }

  predicate IsHexDigit(c: char) { IsDigit(c) || 'a' <= c <= 'f' || 'A' <= c <= 'F' }

  predicate IsWordStart(c: char) { IsLetter(c) || c == '_' }

  predicate IsWordChar(c: char) { IsWordStart(c) || IsDigit(c) }

  predicate IsBlank(c: char) { c == ' ' || c == '\t' || c == '\n' || c == '\r' || c == '\U{000C}' }

  /** The length of the longest prefix of `s` whose characters all satisfy `p`. */
  function Run(s: string, p: char -> bool): (n: nat)
    ensures n <= |s|
    ensures forall i :: 0 <= i < n ==> p(s[i])
    ensures n < |s| ==> !p(s[n])
  {
    if s == [] || !p(s[0]) then 0 else 1 + Run(s[1..], p)
  }

  function At(s: string, i: nat): Option<char> {
    if i < |s| then Some(s[i]) else None
  }

  predicate DigitAt(s: string, i: nat) { i < |s| && IsDigit(s[i]) }

  predicate WordCharAt(s: string, i: nat) { i < |s| && IsWordChar(s[i]) }

  function DigitValue(c: char): nat
    requires IsHexDigit(c)
  {
    if IsDigit(c) then c as nat - '0' as nat
    else if 'a' <= c then c as nat - 'a' as nat + 10
    else c as nat - 'A' as nat + 10
  }

  /** The value of a digit string, most significant digit first. */
  function Number(s: string, base: nat): nat
    requires forall i :: 0 <= i < |s| ==> IsHexDigit(s[i])
  {
    if s == [] then 0
    else Number(s[..|s| - 1], base) * base + DigitValue(s[|s| - 1])
  }

  // ------------------------------------------------------------------
  // Numbers
  // ------------------------------------------------------------------

  /** An SI suffix: its multiplier, its length, and whether it divides. */
  datatype Suffix = Suffix(multiplier: nat, len: nat, subunit: bool)

  function BinaryMultiplier(c: char): Option<nat> {
    match c
    case 'K' => Some(0x400)
    case 'M' => Some(0x10_0000)
    case 'G' => Some(0x4000_0000)
    case 'T' => Some(0x100_0000_0000)
    case 'P' => Some(0x4_0000_0000_0000)
    case _ => None
  }

  function DecimalMultiplier(c: char): Option<(nat, bool)> {
    match c
    case 'K' => Some((1_000, false))
    case 'M' => Some((1_000_000, false))
    case 'G' => Some((1_000_000_000, false))
    case 'T' => Some((1_000_000_000_000, false))
    case 'P' => Some((1_000_000_000_000_000, false))
    case 'm' => Some((1_000, true))
    case 'u' => Some((1_000_000, true))
    case 'n' => Some((1_000_000_000, true))
    case _ => None
  }

  /** The suffix at the start of `s`, when no word character follows it. */
  function SuffixAt(s: string): (r: Option<Suffix>)
    ensures r.Some? ==> 1 <= r.value.len <= |s|
  {
    if s == [] then None
    else if |s| > 1 && s[1] == 'i' && BinaryMultiplier(s[0]).Some? && !WordCharAt(s, 2) then
      Some(Suffix(BinaryMultiplier(s[0]).value, 2, false))
    else match DecimalMultiplier(s[0])
      case Some((m, sub)) => if WordCharAt(s, 1) then None else Some(Suffix(m, 1, sub))
      case None => None
  }

  /** The length of an exponent at the start of `s`, sign included; `None` when no
      digit follows. */
  function Exponent(s: string): (r: Option<nat>)
    requires s != [] && (s[0] == 'e' || s[0] == 'E')
    ensures r.Some? ==> r.value <= |s|
  {
    var sign := if |s| > 1 && (s[1] == '+' || s[1] == '-') then 2 else 1;
    var n := Run(s[sign..], IsDigit);
    if n == 0 then None else Some(sign + n)
  }

  predicate ExponentAt(s: string, i: nat) { i < |s| && (s[i] == 'e' || s[i] == 'E') }

  /** A number literal. */
  function NumberPiece(s: string): (r: Piece)
    requires DigitAt(s, 0)
    ensures r.Skip? ==> 1 <= r.len <= |s|
    ensures r.Emit? ==> TokenWeight(r.token) <= r.len <= |s|
  {
    if s[0] == '0' && |s| > 1 && (s[1] == 'x' || s[1] == 'X') then HexPiece(s)
    else
      var d := Run(s, IsDigit);
      if At(s, d) == Some('.') && DigitAt(s, d + 1) then
        var f := d + 1 + Run(s[d + 1..], IsDigit);
        if ExponentAt(s, f) then ExponentPiece(s, f) else FloatPiece(s, f)
      else if ExponentAt(s, d) then ExponentPiece(s, d)
      else IntegerPiece(s, d)
  }

  function HexPiece(s: string): (r: Piece)
    requires |s| >= 2
    ensures r.Fail? || (r.Emit? && TokenWeight(r.token) <= r.len <= |s|)
  {
    var n := Run(s[2..], IsHexDigit);
    if n == 0 || Number(s[2..][..n], 16) > U64_MAX then Fail(BadNumber)
    else Emit(IntLit(Number(s[2..][..n], 16)), 2 + n)
  }

  /** An integer of `d` digits, with its suffix applied. A dividing suffix makes it a float. */
  function IntegerPiece(s: string, d: nat): (r: Piece)
    requires 1 <= d <= |s| && forall i :: 0 <= i < d ==> IsDigit(s[i])
    ensures r.Fail? || (r.Emit? && TokenWeight(r.token) <= r.len <= |s|)
  {
    var v := Number(s[..d], 10);
    if v > U64_MAX then Fail(BadNumber)
    else match SuffixAt(s[d..])
      case None => Emit(IntLit(v), d)
      case Some(x) =>
        if x.subunit then Emit(FloatLit(s[..d + x.len]), d + x.len)
        else if v * x.multiplier > U64_MAX then Fail(BadNumber)
        else Emit(IntLit(v * x.multiplier), d + x.len)
  }

  function ExponentPiece(s: string, i: nat): (r: Piece)
    requires ExponentAt(s, i) && i > 0
    ensures r.Fail? || (r.Emit? && TokenWeight(r.token) <= r.len <= |s|)
  {
    match Exponent(s[i..])
    case Some(n) => FloatPiece(s, i + n)
    case None => Fail(BadNumber)
  }

  /** A float of `n` characters keeps its spelling, suffix included. */
  function FloatPiece(s: string, n: nat): (r: Piece)
    requires 1 <= n <= |s|
    ensures r.Emit? && TokenWeight(r.token) <= r.len <= |s|
  {
    var len := n + match SuffixAt(s[n..]) case Some(x) => x.len case None => 0;
    Emit(FloatLit(s[..len]), len)
  }

  // ------------------------------------------------------------------
  // Strings, heredocs, comments and words
  // ------------------------------------------------------------------

  /** What a backslash followed by `c` stands for in a string quoted by `quote`. */
  function Unescape(c: char, quote: char): string {
    if c == 'n' then "\n"
    else if c == 't' then "\t"
    else if c == '\\' then "\\"
    else if c == quote then [quote]
    else ['\\', c]
  }

  /** The contents of a string literal whose opening quote has been read, and the
      length up to and including its closing quote. */
  function Quoted(s: string, quote: char): (r: Option<(string, nat)>)
    ensures r.Some? ==> |r.value.0| + 1 <= r.value.1 <= |s|
  {
    if s == [] then None
    else if s[0] == quote then Some(("", 1))
    else if s[0] == '\\' && |s| > 1 then
      match Quoted(s[2..], quote)
      case Some((text, n)) => Some((Unescape(s[1], quote) + text, n + 2))
      case None => None
    else
      match Quoted(s[1..], quote)
      case Some((text, n)) => Some(([s[0]] + text, n + 1))
      case None => None
  }

  /** Where the `>>>` that closes a heredoc begins. */
  function HeredocEnd(s: string): (r: Option<nat>)
    ensures r.Some? ==> r.value + 3 <= |s|
  {
    if |s| < 3 then None
    else if s[..3] == ">>>" then Some(0)
    else match HeredocEnd(s[1..]) case Some(n) => Some(n + 1) case None => None
  }

  function StripNewlines(s: string): (r: string)
    ensures |r| <= |s|
  {
    var t := if s != [] && s[0] == '\n' then s[1..] else s;
    if t != [] && t[|t| - 1] == '\n' then t[..|t| - 1] else t
  }

  /** The length of a block comment after its opening, its close included. An
      unclosed one leaves the last character. */
  function BlockComment(s: string): (n: nat)
    ensures n <= |s|
  {
    if |s| < 2 then 0
    else if s[..2] == "*/" then 2
    else 1 + BlockComment(s[1..])
  }

  function WordPiece(word: string): Piece {
    if word == "const" then Emit(Const, |word|)
    else if word == "input" then Emit(Input, |word|)
    else if word == "extern" then Emit(Extern, |word|)
    else if word == "shared" then Emit(Shared, |word|)
    else if word == "volatile" then Emit(Volatile, |word|)
    else if word == "cursor" then Emit(Cursor, |word|)
    else if word == "over" then Emit(Over, |word|)
    else if word == "pragma" then Emit(Pragma, |word|)
    else if word == "tile" || word == "for" then Fail(RawCapture)
    else Emit(Ident(word), |word|)
  }

  /** The operator or bracket that begins with `c` and is followed by `next`. */
  function SymbolPiece(c: char, next: Option<char>): (r: Option<Piece>)
    ensures r.Some? ==> r.value.Emit? && 1 == TokenWeight(r.value.token) && 1 <= r.value.len && (r.value.len == 1 || (r.value.len == 2 && next.Some?))
  {
    match c
    case '(' => Some(Emit(LParen, 1))
    case ')' => Some(Emit(RParen, 1))
    case '[' => Some(Emit(LBracket, 1))
    case ']' => Some(Emit(RBracket, 1))
    case '{' => Some(Emit(LBrace, 1))
    case '}' => Some(Emit(RBrace, 1))
    case ',' => Some(Emit(Comma, 1))
    case '=' => Some(if next == Some('=') then Emit(EqEq, 2) else Emit(Eq, 1))
    case ':' => Some(if next == Some('=') then Emit(ColonEq, 2) else Emit(Colon, 1))
    case '+' => Some(Emit(Plus, 1))
    case '-' => Some(if next == Some('>') then Emit(Arrow, 2) else Emit(Minus, 1))
    case '*' => Some(if next == Some('*') then Emit(StarStar, 2) else Emit(Star, 1))
    case '/' => Some(Emit(Slash, 1))
    case '%' => Some(Emit(Percent, 1))
    case '^' => Some(Emit(Caret, 1))
    case '<' =>
      Some(if next == Some('<') then Emit(ShiftLeft, 2) else if next == Some('=') then Emit(LtEq, 2) else Emit(Lt, 1))
    case '>' =>
      Some(if next == Some('>') then Emit(ShiftRight, 2) else if next == Some('=') then Emit(GtEq, 2) else Emit(Gt, 1))
    case '.' => Some(Emit(Dot, 1))
    case '&' => Some(if next == Some('&') then Emit(AmpAmp, 2) else Emit(Ampersand, 1))
    case '|' => Some(if next == Some('|') then Emit(PipePipe, 2) else Emit(Pipe, 1))
    case '!' => Some(if next == Some('=') then Emit(BangEq, 2) else Emit(Bang, 1))
    case _ => None
  }

  /** The piece at the start of `s`. */
  function Next(s: string): (r: Piece)
    requires s != []
    ensures r.Skip? ==> 1 <= r.len <= |s|
    ensures r.Emit? ==> TokenWeight(r.token) <= r.len <= |s|
  {
    var c := s[0];
    if IsBlank(c) then Skip(1)
    else if c == '#' || (c == '/' && At(s, 1) == Some('/')) then Skip(Run(s, x => x != '\n'))
    else if c == '/' && At(s, 1) == Some('*') then Skip(2 + BlockComment(s[2..]))
    else if |s| >= 3 && s[..3] == "<<<" then
      match HeredocEnd(s[3..])
      case Some(n) => Emit(StringLit(StripNewlines(s[3..3 + n])), n + 6)
      case None => Fail(Unterminated)
    else if IsDigit(c) then NumberPiece(s)
    else match SymbolPiece(c, At(s, 1))
      case Some(piece) => piece
      case None =>
        if c == '"' || c == '\'' then
          match Quoted(s[1..], c)
          case Some((text, n)) => Emit(StringLit(text), n + 1)
          case None => Fail(Unterminated)
        else if IsWordStart(c) then WordPiece(s[..Run(s, IsWordChar)])
        else Fail(UnexpectedChar)
  }

  function Prepend(ts: seq<Token>, r: Result<seq<Token>, LexError>): Result<seq<Token>, LexError> {
    match r
    case Ok(us) => Ok(ts + us)
    case Err(e) => Err(e)
  }

  /** The tokens of a text, closed by `Eof`. */
  function Lex(s: string): (r: Result<seq<Token>, LexError>)
    ensures r.Ok? ==> Stream(r.value) && Weight(r.value) <= |s| + 1
  {
    if s == [] then Ok([Eof])
    else
      match Next(s)
      case Skip(n) => Lex(s[n..])
      case Emit(t, n) =>
        var r := Prepend([t], Lex(s[n..]));
        assert r.Ok? ==> r.value[1..] == Lex(s[n..]).value;
        r
      case Fail(e) => Err(e)
  }

  // ------------------------------------------------------------------
  // The loops
  // ------------------------------------------------------------------

  /** One step of a string literal at `i`. */
  lemma QuotedStep(s: string, i: nat, quote: char)
    requires i < |s|
    ensures Quoted(s[i..], quote)
         == if s[i] == quote then Some(("", 1))
            else if s[i] == '\\' && i + 1 < |s| then Then(Unescape(s[i + 1], quote), 2, Quoted(s[i + 2..], quote))
            else Then([s[i]], 1, Quoted(s[i + 1..], quote))
  {
    var t := s[i..];
    assert t[0] == s[i] && t[1..] == s[i + 1..];
    if i + 1 < |s| { assert t[2..] == s[i + 2..] && t[1] == s[i + 1]; }
  }

  /** A scan that took `n` characters and gave `text` before the rest. */
  function Then(text: string, n: nat, r: Option<(string, nat)>): Option<(string, nat)> {
    match r case None => None case Some((more, k)) => Some((text + more, k + n))
  }

  lemma ThenTwice(a: string, n: nat, b: string, k: nat, r: Option<(string, nat)>)
    ensures Then(a, n, Then(b, k, r)) == Then(a + b, n + k, r)
  {
    if r.Some? { assert a + (b + r.value.0) == a + b + r.value.0; }
  }

  /** The contents of a string literal from `start`, and the position after its close. */
  method ScanQuoted(chars: string, start: nat, quote: char) returns (r: Option<(string, nat)>)
    requires start <= |chars|
    ensures match Quoted(chars[start..], quote)
            case None => r == None
            case Some((text, n)) => r == Some((text, start + n))
  {
    hide Quoted, Unescape;
    var pos := start;
    var s := "";
    assert Quoted(chars[start..], quote).Some? ==> "" + Quoted(chars[start..], quote).value.0 == Quoted(chars[start..], quote).value.0;
    while pos < |chars| && chars[pos] != quote
      invariant start <= pos <= |chars|
      invariant Quoted(chars[start..], quote) == Then(s, pos - start, Quoted(chars[pos..], quote))
    {
      QuotedStep(chars, pos, quote);
      if chars[pos] == '\\' && pos + 1 < |chars| {
        ThenTwice(s, pos - start, Unescape(chars[pos + 1], quote), 2, Quoted(chars[pos + 2..], quote));
        pos := pos + 1;
        s := s + Unescape(chars[pos], quote);
      } else {
        ThenTwice(s, pos - start, [chars[pos]], 1, Quoted(chars[pos + 1..], quote));
        s := s + [chars[pos]];
      }
      pos := pos + 1;
    }
    if pos < |chars| {
      QuotedStep(chars, pos, quote);
      assert s + "" == s;
      return Some((s, pos + 1));
    }
    QuotedNothing(chars, quote);
    return None;
  }

  lemma QuotedNothing(s: string, quote: char)
    ensures Quoted(s[|s|..], quote) == None
  {}

  /** One piece of the text at `pos`. */
  lemma LexStep(s: string, pos: nat)
    requires pos < |s|
    ensures Lex(s[pos..])
         == match Next(s[pos..])
            case Skip(n) => Lex(s[pos + n..])
            case Emit(t, n) => Prepend([t], Lex(s[pos + n..]))
            case Fail(e) => Err(e)
  {
    var t := s[pos..];
    if !Next(t).Fail? { assert t[Next(t).len..] == s[pos + Next(t).len..]; }
  }

  lemma StringPiece(s: string, pos: nat)
    requires pos < |s| && (s[pos] == '"' || s[pos] == '\'')
    ensures Next(s[pos..])
         == match Quoted(s[pos + 1..], s[pos])
            case None => Fail(Unterminated)
            case Some((text, n)) => Emit(StringLit(text), n + 1)
  {
    hide Quoted, NumberPiece, WordPiece;
    var t := s[pos..];
    assert t[1..] == s[pos + 1..];
    assert |t| >= 3 ==> t[..3][0] == s[pos];
  }

  lemma PrependTwice(a: seq<Token>, b: seq<Token>, r: Result<seq<Token>, LexError>)
    ensures Prepend(a, Prepend(b, r)) == Prepend(a + b, r)
  {
    if r.Ok? { assert a + (b + r.value) == a + b + r.value; }
  }

  lemma LexEnds(s: string)
    ensures Lex(s[|s|..]) == Ok([Eof])
    ensures Prepend([], Lex(s[0..])) == Lex(s)
  {
    assert s[0..] == s;
    if Lex(s).Ok? { assert [] + Lex(s).value == Lex(s).value; }
  }

  /** The tokens of a source text, pushed one at a time. */
  method Tokenize(source: string) returns (r: Result<seq<Token>, LexError>)
    ensures r == Lex(source)
  {
    LexEnds(source);
    hide Lex, Next, Quoted;
    var tokens: seq<Token> := [];
    var pos := 0;
    while pos < |source|
      invariant 0 <= pos <= |source|
      invariant Lex(source) == Prepend(tokens, Lex(source[pos..]))
    {
      LexStep(source, pos);
      var c := source[pos];
      if c == '"' || c == '\'' {
        StringPiece(source, pos);
        var scanned := ScanQuoted(source, pos + 1, c);
        if scanned.None? {
          return Err(Unterminated);
        }
        PrependTwice(tokens, [StringLit(scanned.value.0)], Lex(source[scanned.value.1..]));
        tokens := tokens + [StringLit(scanned.value.0)];
        pos := scanned.value.1;
      } else {
        match Next(source[pos..]) {
          case Skip(n) =>
            pos := pos + n;
          case Emit(t, n) =>
            PrependTwice(tokens, [t], Lex(source[pos + n..]));
            tokens := tokens + [t];
            pos := pos + n;
          case Fail(e) =>
            return Err(e);
        }
      }
    }
    return Ok(tokens + [Eof]);
  }
}
