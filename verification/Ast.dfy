/** The expression tree of the language, without source positions. */
module Ast {
  import opened PortTypes

  datatype BinOp =
    | Or | And
    | Eq | Ne
    | Lt | Gt | Le | Ge
    | BitOr | BitXor | BitAnd
    | Shl | Shr
    | Add | Sub
    | Mul | Div | Mod
    | Pow

  /** The binding powers of an operator: `left < right` associates to the left. */
  function BindingPower(op: BinOp): (nat, nat) {
    match op
    case Or => (1, 2)
    case And => (3, 4)
    case Eq | Ne => (5, 6)
    case Lt | Gt | Le | Ge => (7, 8)
    case BitOr => (9, 10)
    case BitXor => (11, 12)
    case BitAnd => (13, 14)
    case Shl | Shr => (15, 16)
    case Add | Sub => (17, 18)
    case Mul | Div | Mod => (19, 20)
    case Pow => (22, 21)
  }

  function LeftPower(op: BinOp): nat { BindingPower(op).0 }

  function RightPower(op: BinOp): nat { BindingPower(op).1 }

  /** Float literals keep their spelling: no arithmetic is done on them here. */
  datatype Expr =
    | Ident(name: string)
    | IntLit(value: nat)
    | FloatLit(text: string)
    | StringLit(text: string)
    | ArrayLit(elements: seq<Expr>)
    | Call(func: string, args: seq<Arg>)
    | Binary(lhs: Expr, op: BinOp, rhs: Expr)
    | UnaryNeg(inner: Expr)
    | UnaryBitNot(inner: Expr)
    | FieldAccess(source: string, field: string)
    | Cast(inner: Expr, ty: PortType)

  datatype Arg = Positional(value: Expr) | Named(name: string, value: Expr)
}
