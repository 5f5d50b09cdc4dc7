/** Tokens of the expression language, and the weight of a token stream that parsing
    uses up. */
module Tokens {
  datatype Token =
    | Ident(name: string)
    | Const | Input | Extern | Shared | Volatile | Cursor | Over | Pragma
    | IntLit(value: nat) | FloatLit(text: string) | StringLit(text: string)
    | ColonEq | Eq | LParen | RParen | LBracket | RBracket | LBrace | RBrace
    | Comma | Colon | Dot | Arrow
    | Plus | Minus | Star | Slash | Percent | Caret | StarStar | ShiftLeft | ShiftRight
    | Ampersand | AmpAmp | Pipe | PipePipe | Bang
    | Lt | Gt | EqEq | BangEq | LtEq | GtEq
    | Eof

  /** What the lexer hands the parser: tokens closed by `Eof`. */
  predicate Stream(ts: seq<Token>) {
    ts != [] && ts[|ts| - 1] == Eof
  }

  function TokenWeight(t: Token): nat {
    1 + if t.StringLit? then |t.text| else 0
  }

  function Weight(ts: seq<Token>): nat {
    if ts == [] then 0 else TokenWeight(ts[0]) + Weight(ts[1..])
  }
}
