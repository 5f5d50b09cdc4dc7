/** The printer: the canonical text of an expression, fully parenthesised. */
module Printer {
  import opened Ast
  import opened PortTypes

  function OpText(op: BinOp): string {
    match op
    case Add => "+"
    case Sub => "-"
    case Mul => "*"
    case Div => "/"
    case Mod => "%"
    case Pow => "**"
    case BitAnd => "&"
    case BitOr => "|"
    case BitXor => "^"
    case Shl => "<<"
    case Shr => ">>"
    case Eq => "=="
    case Ne => "!="
    case Lt => "<"
    case Gt => ">"
    case Le => "<="
    case Ge => ">="
    case And => "&&"
    case Or => "||"
  }

  /** The decimal digits of a number. */
  function Decimal(v: nat): string {
    if v < 10 then [('0' as nat + v) as char] else Decimal(v / 10) + [('0' as nat + v % 10) as char]
  }

  function EscapeChar(c: char): string {
    if c == '\\' then "\\\\"
    else if c == '"' then "\\\""
    else if c == '\n' then "\\n"
    else if c == '\t' then "\\t"
    else if c == '\r' then "\\r"
    else [c]
  }

  function Escape(s: string): string {
    if s == [] then [] else EscapeChar(s[0]) + Escape(s[1..])
  }

  /** The escaped form, built a character at a time. */
  method EscapeString(s: string) returns (out: string)
    ensures out == Escape(s)
  {
    out := "";
    assert s[0..] == s && Escape([]) == "";
    hide *;
    for i := 0 to |s|
      invariant out + Escape(s[i..]) == Escape(s)
    {
      EscapeNext(out, s, i);
      out := out + EscapeChar(s[i]);
    }
    assert s[|s|..] == [];
  }

  lemma EscapeNext(done: string, s: string, i: nat)
    requires i < |s|
    ensures done + Escape(s[i..]) == (done + EscapeChar(s[i])) + Escape(s[i + 1..])
  {
    assert s[i..][0] == s[i] && s[i..][1..] == s[i + 1..];
    hide EscapeChar;
  }

  function Print(e: Expr): string
    decreases e, 1
  {
    match e
    case Ident(name) => name
    case IntLit(v) => Decimal(v)
    case FloatLit(text) => text
    case StringLit(s) => "\"" + Escape(s) + "\""
    case ArrayLit(es) => "[" + PrintList(es) + "]"
    case Call(f, args) => f + "(" + PrintArgs(args) + ")"
    case Binary(l, op, r) => "(" + Print(l) + " " + OpText(op) + " " + Print(r) + ")"
    case UnaryNeg(x) => "(" + "-" + Print(x) + ")"
    case UnaryBitNot(x) => "(" + "!" + Print(x) + ")"
    case FieldAccess(source, field) => source + "." + field
    case Cast(x, ty) => "(" + Print(x) + " " + "as" + " " + ToKeyword(ty) + ")"
  }

  function PrintList(es: seq<Expr>): string
    decreases es, 0
  {
    if es == [] then ""
    else if |es| == 1 then Print(es[0])
    else Print(es[0]) + "," + " " + PrintList(es[1..])
  }

  function PrintArgs(args: seq<Arg>): string
    decreases args, 0
  {
    if args == [] then ""
    else if |args| == 1 then PrintArg(args[0])
    else PrintArg(args[0]) + "," + " " + PrintArgs(args[1..])
  }

  function PrintArg(arg: Arg): string
    decreases arg, 2
  {
    match arg
    case Positional(e) => Print(e)
    case Named(name, e) => name + ":" + " " + Print(e)
  }
}
