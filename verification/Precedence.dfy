/** The parser's operator loop over tokens builds the one tree that the binding powers
    allow for the operands and operators it reads. */
module Precedence {
  import opened Wrappers
  import opened Ast
  import opened Parser
  import P = Pratt
  import T = Tokens

  /** A tree of operators as an expression. */
  function Collapse(t: P.Tree<Expr>): Expr {
    match t
    case Leaf(e) => e
    case Node(l, op, r) => Binary(Collapse(l), op, Collapse(r))
  }

  /** `(op operand)*`, read without any regard to precedence. */
  function ScanTail(ts: seq<T.Token>): (r: Reply<seq<(BinOp, Expr)>>)
    requires T.Stream(ts)
    ensures r.Some? ==> T.Stream(r.value.1)
    decreases T.Weight(ts)
  {
    match BinaryOperator(ts[0])
    case None => Some(([], ts))
    case Some(op) =>
      match ParseOperand(Tail(ts))
      case None => None
      case Some((e, rest)) =>
        match ScanTail(rest)
        case None => None
        case Some((items, end)) => Some(([(op, e)] + items, end))
  }

  /** `operand (op operand)*`. */
  function ScanChain(ts: seq<T.Token>): Reply<P.Chain<Expr>>
    requires T.Stream(ts)
  {
    match ParseOperand(ts)
    case None => None
    case Some((e, rest)) =>
      match ScanTail(rest)
      case None => None
      case Some((items, end)) => Some((P.Chain(e, items), end))
  }

  /** The operator loop returns the Pratt parse of the chain ahead of it, and stops where that does. */
  predicate Follows(tree: P.Tree<Expr>, ts: seq<T.Token>, min: nat)
    requires T.Stream(ts) && ScanTail(ts).Some?
  {
    var (items, end) := ScanTail(ts).value;
    var (whole, left) := P.Continue(BindingPower, tree, items, min);
    var r := ParseOperators(Collapse(tree), ts, min);
    r.Some? && r.value.0 == Collapse(whole) && ScanTail(r.value.1) == Some((left, end))
  }

  lemma ScanTailStep(ts: seq<T.Token>) returns (op: BinOp, a: Expr, rest: seq<T.Token>)
    requires T.Stream(ts) && ScanTail(ts).Some? && BinaryOperator(ts[0]).Some?
    ensures BinaryOperator(ts[0]) == Some(op) && ts[0] != T.Eof
    ensures ParseOperand(Tail(ts)) == Some((a, rest)) && T.Stream(rest) && T.Weight(rest) < T.Weight(ts)
    ensures ScanTail(rest).Some?
    ensures ScanTail(ts) == Some(([(op, a)] + ScanTail(rest).value.0, ScanTail(rest).value.1))
  {
    op := BinaryOperator(ts[0]).value;
    a, rest := ParseOperand(Tail(ts)).value.0, ParseOperand(Tail(ts)).value.1;
    hide ParseOperand;
  }

  /** The chain ends, or its next operator pulls less than `min`. */
  lemma FollowsToStop(tree: P.Tree<Expr>, ts: seq<T.Token>, min: nat)
    requires T.Stream(ts) && ScanTail(ts).Some?
    requires BinaryOperator(ts[0]).Some? ==> LeftPower(BinaryOperator(ts[0]).value) < min
    ensures Follows(tree, ts, min)
  {
    hide BindingPower, ParseExprBp, ParseOperand, Collapse;
    if BinaryOperator(ts[0]).Some? {
      var op, a, rest := ScanTailStep(ts);
    }
  }

  lemma OperatorsStep(lhs: Expr, ts: seq<T.Token>, min: nat, op: BinOp, a: Expr, rest: seq<T.Token>)
    requires T.Stream(ts) && BinaryOperator(ts[0]) == Some(op) && ts[0] != T.Eof && LeftPower(op) >= min
    requires ParseOperand(Tail(ts)) == Some((a, rest))
    ensures ParseOperators(lhs, ts, min) ==
      match ParseOperators(a, rest, RightPower(op))
      case None => None
      case Some((rhs, after)) => ParseOperators(Binary(lhs, op, rhs), after, min)
  {
    hide BindingPower, BinaryOperator, ParseOperand;
    assert ParseExprBp(Tail(ts), RightPower(op)) == ParseOperators(a, rest, RightPower(op));
  }

  lemma ContinueStep(tree: P.Tree<Expr>, op: BinOp, a: Expr, items: seq<(BinOp, Expr)>, min: nat)
    requires LeftPower(op) >= min
    ensures var (rhs, left) := P.Continue(BindingPower, P.Leaf(a), items, RightPower(op));
      P.Continue(BindingPower, tree, [(op, a)] + items, min) == P.Continue(BindingPower, P.Node(tree, op, rhs), left, min)
  {
    assert ([(op, a)] + items)[1..] == items;
  }

  /** The operator loop follows the Pratt parse of the chain ahead of it. */
  lemma {:induction false} OperatorsFollowChain(tree: P.Tree<Expr>, ts: seq<T.Token>, min: nat)
    requires T.Stream(ts) && ScanTail(ts).Some?
    ensures Follows(tree, ts, min)
    decreases T.Weight(ts), 1
  {
    hide BindingPower, LeftPower, RightPower, ParseOperators, ParseOperand, BinaryOperator, ScanTail, P.Continue;
    if BinaryOperator(ts[0]).None? || LeftPower(BinaryOperator(ts[0]).value) < min {
      FollowsToStop(tree, ts, min);
    } else {
      var op, a, rest := ScanTailStep(ts);
      OperatorsFollowChain(P.Leaf(a), rest, RightPower(op));
      var (rhs, left) := P.Continue(BindingPower, P.Leaf(a), ScanTail(rest).value.0, RightPower(op));
      var after := ParseOperators(a, rest, RightPower(op)).value.1;
      OperatorsFollowChain(P.Node(tree, op, rhs), after, min);
      OperatorsStep(Collapse(tree), ts, min, op, a, rest);
      ContinueStep(tree, op, a, ScanTail(rest).value.0, min);
    }
  }

  /** Where the operator loop succeeds and the chain goes on, the chain was readable. */
  lemma {:induction false} OperatorsScan(lhs: Expr, ts: seq<T.Token>, min: nat)
    requires T.Stream(ts) && ParseOperators(lhs, ts, min).Some?
    requires ScanTail(ParseOperators(lhs, ts, min).value.1).Some?
    ensures ScanTail(ts).Some?
    decreases T.Weight(ts)
  {
    hide BindingPower;
    if BinaryOperator(ts[0]).Some? {
      var op := BinaryOperator(ts[0]).value;
      if LeftPower(op) >= min {
        var (rhs, rest) := ParseExprBp(Tail(ts), RightPower(op)).value;
        OperatorsScan(Binary(lhs, op, rhs), rest, min);
        var (a, rest') := ParseOperand(Tail(ts)).value;
        OperatorsScan(a, rest', RightPower(op));
      }
    }
  }

  lemma {:induction false} LoopEndsAtNoOperator(lhs: Expr, ts: seq<T.Token>)
    requires T.Stream(ts) && ParseOperators(lhs, ts, 0).Some?
    ensures BinaryOperator(ParseOperators(lhs, ts, 0).value.1[0]) == None
    decreases T.Weight(ts)
  {
    hide BindingPower;
    if BinaryOperator(ts[0]).Some? {
      var op := BinaryOperator(ts[0]).value;
      var (rhs, rest) := ParseExprBp(Tail(ts), RightPower(op)).value;
      LoopEndsAtNoOperator(Binary(lhs, op, rhs), rest);
    }
  }

  /** A readable chain is parsed whole, to the tree the Pratt parse gives it. */
  lemma ChainParses(ts: seq<T.Token>)
    requires T.Stream(ts) && ScanChain(ts).Some?
    ensures var (chain, end) := ScanChain(ts).value;
            ParseExpr(ts) == Some((Collapse(P.Parse(BindingPower, chain.first, chain.tail, 0).0), end))
  {
    hide BindingPower;
    var (a, rest) := ParseOperand(ts).value;
    OperatorsFollowChain(P.Leaf(a), rest, 0);
    LoopEndsAtNoOperator(a, rest);
    hide ParseOperand, ParseOperators;
    var (chain, end) := ScanChain(ts).value;
    P.OneWellPlacedTree(BindingPower, chain, P.Leaf(a));
    var after := ParseOperators(a, rest, 0).value.1;
    assert ScanTail(after) == Some(([], after));
    assert ParseExpr(ts) == ParseExprBp(ts, 0) == ParseOperators(a, rest, 0);
  }

  lemma ParsedIsReadable(ts: seq<T.Token>)
    requires T.Stream(ts) && ParseExpr(ts).Some?
    ensures ScanChain(ts).Some?
  {
    hide BindingPower;
    assert ParseExpr(ts) == ParseExprBp(ts, 0);
    var (a, rest) := ParseOperand(ts).value;
    LoopEndsAtNoOperator(a, rest);
    OperatorsScan(a, rest, 0);
  }

  // ------------------------------------------------------------------
  // The language's levels
  // ------------------------------------------------------------------

  /** The operators from the loosest level to the tightest. All group to the left but the power operator. */
  const LEVELS: seq<set<BinOp>> := [
    {Or}, {And}, {Eq, Ne}, {Lt, Gt, Le, Ge}, {BitOr}, {BitXor}, {BitAnd}, {Shl, Shr}, {Add, Sub}, {Mul, Div, Mod}, {Pow}
  ]

  predicate StandsOn(op: BinOp, i: nat) {
    i < |LEVELS| && op in LEVELS[i]
  }

  /** `q` stands on a higher level than `p`. */
  predicate Tighter(q: BinOp, p: BinOp) {
    exists i: nat, j: nat :: i < j < |LEVELS| && StandsOn(p, i) && StandsOn(q, j)
  }

  /** Between two operators the second takes the operand: it is tighter, or both are powers, which group to the right. */
  predicate TakesOperand(p: BinOp, q: BinOp) {
    Tighter(q, p) || (p.Pow? && q.Pow?)
  }

  function LevelOf(op: BinOp): (i: nat)
    ensures i < |LEVELS| && StandsOn(op, i) && forall j: nat :: StandsOn(op, j) ==> j == i
  {
    match op
    case Or => 0
    case And => 1
    case Eq | Ne => 2
    case Lt | Gt | Le | Ge => 3
    case BitOr => 4
    case BitXor => 5
    case BitAnd => 6
    case Shl | Shr => 7
    case Add | Sub => 8
    case Mul | Div | Mod => 9
    case Pow => 10
  }

  lemma TighterByLevel(q: BinOp, p: BinOp)
    ensures Tighter(q, p) <==> LevelOf(p) < LevelOf(q)
  {
    hide LevelOf, StandsOn;
    var i, j := LevelOf(p), LevelOf(q);
    assert StandsOn(p, i) && StandsOn(q, j);
  }

  lemma PowersByLevel(op: BinOp)
    ensures LeftPower(op) == 2 * LevelOf(op) + (if op.Pow? then 2 else 1)
    ensures RightPower(op) == 2 * LevelOf(op) + (if op.Pow? then 1 else 2)
    ensures op.Pow? <==> LevelOf(op) == 10
    ensures LevelOf(op) <= 10
  {
  }

  /** The binding powers decide as the levels do. */
  lemma PowersAreLevels(p: BinOp, q: BinOp)
    ensures LeftPower(q) >= RightPower(p) <==> TakesOperand(p, q)
  {
    TighterByLevel(q, p);
    PowersByLevel(p);
    PowersByLevel(q);
    hide Tighter, LevelOf, BindingPower, LeftPower, RightPower;
  }

  /** Placed as the levels say: no operand's edge is an operator that would have left the operand to its parent. */
  ghost predicate Grouped(t: P.Tree<Expr>) {
    match t
    case Leaf(_) => true
    case Node(l, op, r) =>
      && Grouped(l) && Grouped(r)
      && (forall p :: p in P.RightSpine(l) ==> !TakesOperand(p, op))
      && (forall q :: q in P.LeftSpine(r) ==> TakesOperand(op, q))
  }

  lemma {:induction false} GroupedIsWellPlaced(t: P.Tree<Expr>)
    ensures Grouped(t) <==> P.WellPlaced(BindingPower, t)
  {
    if t.Node? {
      GroupedIsWellPlaced(t.left);
      GroupedIsWellPlaced(t.right);
      hide TakesOperand, BindingPower;
      forall p ensures BindingPower(p).1 > BindingPower(t.op).0 <==> !TakesOperand(p, t.op) {
        PowersAreLevels(p, t.op);
      }
      forall q ensures BindingPower(q).0 >= BindingPower(t.op).1 <==> TakesOperand(t.op, q) {
        PowersAreLevels(t.op, q);
      }
    }
  }

  lemma LastOperand(lhs: Expr, ts: seq<T.Token>, min: nat, op: BinOp, a: Expr, rest: seq<T.Token>)
    requires T.Stream(ts) && BinaryOperator(ts[0]) == Some(op) && ts[0] != T.Eof && LeftPower(op) >= min
    requires ParseOperand(Tail(ts)) == Some((a, rest)) && BinaryOperator(rest[0]) == None
    ensures ParseOperators(lhs, ts, min) == Some((Binary(lhs, op, a), rest))
  {
    OperatorsStep(lhs, ts, min, op, a, rest);
    hide BindingPower, BinaryOperator, ParseOperand;
  }

  lemma OperatorIsNoEnd(ts: seq<T.Token>)
    requires T.Stream(ts) && BinaryOperator(ts[0]).Some?
    ensures ts[0] != T.Eof
  {
  }

  /**
   * Two operators over three operands: the second takes the middle one exactly
   * where it stands on a higher level or both are powers.
   */
  lemma TwoOperators(ts: seq<T.Token>, a: Expr, p: BinOp, ts1: seq<T.Token>, b: Expr, q: BinOp, ts2: seq<T.Token>, c: Expr, rest: seq<T.Token>)
    requires T.Stream(ts) && ParseOperand(ts) == Some((a, ts1))
    requires BinaryOperator(ts1[0]) == Some(p) && ts1[0] != T.Eof && ParseOperand(Tail(ts1)) == Some((b, ts2))
    requires BinaryOperator(ts2[0]) == Some(q) && ts2[0] != T.Eof && ParseOperand(Tail(ts2)) == Some((c, rest))
    requires BinaryOperator(rest[0]) == None
    ensures ParseExpr(ts) == Some((
      if Tighter(q, p) || (p.Pow? && q.Pow?) then Binary(a, p, Binary(b, q, c)) else Binary(Binary(a, p, b), q, c), rest))
  {
    PowersAreLevels(p, q);
    hide BindingPower, LeftPower, RightPower, BinaryOperator, ParseOperand, Tighter, ParseOperators;
    assert ParseExpr(ts) == ParseOperators(a, ts1, 0);
    OperatorsStep(a, ts1, 0, p, b, ts2);
    if TakesOperand(p, q) {
      LastOperand(b, ts2, RightPower(p), q, c, rest);
      StopsAtEnd(Binary(a, p, Binary(b, q, c)), rest, 0);
    } else {
      StopsAtWeaker(b, ts2, RightPower(p), q);
      LastOperand(Binary(a, p, b), ts2, 0, q, c, rest);
    }
  }

  lemma StopsAtEnd(lhs: Expr, ts: seq<T.Token>, min: nat)
    requires T.Stream(ts) && BinaryOperator(ts[0]) == None
    ensures ParseOperators(lhs, ts, min) == Some((lhs, ts))
  {
    hide BinaryOperator, BindingPower;
  }

  lemma StopsAtWeaker(lhs: Expr, ts: seq<T.Token>, min: nat, op: BinOp)
    requires T.Stream(ts) && BinaryOperator(ts[0]) == Some(op) && LeftPower(op) < min
    ensures ParseOperators(lhs, ts, min) == Some((lhs, ts))
  {
    hide BinaryOperator, BindingPower;
  }

  /** The parser accepts exactly the chains of operands and operators, takes all of the
      chain, and returns the only tree over it that groups as the levels say. */
  lemma ParseIsTheWellPlacedTree(ts: seq<T.Token>)
    requires T.Stream(ts)
    ensures ParseExpr(ts).Some? <==> ScanChain(ts).Some?
    ensures ParseExpr(ts).Some? ==>
              var (e, rest) := ParseExpr(ts).value;
              var (chain, end) := ScanChain(ts).value;
              && rest == end
              && exists t :: Grouped(t) && P.Flatten(t) == chain && e == Collapse(t)
                             && forall u :: Grouped(u) && P.Flatten(u) == chain ==> u == t
  {
    if ParseExpr(ts).Some? { ParsedIsReadable(ts); }
    if ScanChain(ts).Some? {
      ChainParses(ts);
      hide BindingPower, ParseExpr, ScanChain, Grouped;
      var (chain, end) := ScanChain(ts).value;
      var t := P.Parse(BindingPower, chain.first, chain.tail, 0).0;
      P.OneWellPlacedTree(BindingPower, chain, t);
      GroupedIsWellPlaced(t);
      forall u | Grouped(u) && P.Flatten(u) == chain ensures u == t {
        GroupedIsWellPlaced(u);
        P.OneWellPlacedTree(BindingPower, chain, u);
      }
    }
  }
}
