/** Operator chains and the one tree that their binding powers allow. */
module Pratt {
  import opened Ast

  /** The powers of each operator. Nothing below depends on which they are. */
  type Powers = BinOp -> (nat, nat)

  /** A binary tree of operators over atoms. */
  datatype Tree<A> = Leaf(atom: A) | Node(left: Tree<A>, op: BinOp, right: Tree<A>)

  /** A chain `first (op atom)*`. */
  datatype Chain<A> = Chain(first: A, tail: seq<(BinOp, A)>)

  function Flatten<A>(t: Tree<A>): Chain<A> {
    match t
    case Leaf(a) => Chain(a, [])
    case Node(l, op, r) => Chain(Flatten(l).first, Flatten(l).tail + [(op, Flatten(r).first)] + Flatten(r).tail)
  }

  /** The operators from the root down the left children. */
  ghost function LeftSpine<A>(t: Tree<A>): set<BinOp> {
    match t
    case Leaf(_) => {}
    case Node(l, op, _) => {op} + LeftSpine(l)
  }

  ghost function RightSpine<A>(t: Tree<A>): set<BinOp> {
    match t
    case Leaf(_) => {}
    case Node(_, op, r) => {op} + RightSpine(r)
  }

  /** Each operator holds its operands against its neighbours: what lies on the
      right edge of a left operand binds that edge tighter than `op` pulls it, and
      what lies on the left edge of a right operand at least as tight. */
  ghost predicate WellPlaced<A>(pw: Powers, t: Tree<A>) {
    match t
    case Leaf(_) => true
    case Node(l, op, r) =>
      && WellPlaced(pw, l) && WellPlaced(pw, r)
      && (forall p :: p in RightSpine(l) ==> pw(p).1 > pw(op).0)
      && (forall q :: q in LeftSpine(r) ==> pw(q).0 >= pw(op).1)
  }

  /** The Pratt parse of a chain under a minimum power: the tree, and how much of
      the tail it took. */
  function Parse<A>(pw: Powers, first: A, tail: seq<(BinOp, A)>, min: nat): (r: (Tree<A>, seq<(BinOp, A)>))
    ensures |r.1| <= |tail|
    decreases |tail|, 1
  {
    Continue(pw, Leaf(first), tail, min)
  }

  function Continue<A>(pw: Powers, lhs: Tree<A>, tail: seq<(BinOp, A)>, min: nat): (r: (Tree<A>, seq<(BinOp, A)>))
    ensures |r.1| <= |tail|
    decreases |tail|, 0
  {
    if tail == [] || pw(tail[0].0).0 < min then (lhs, tail)
    else
      var (rhs, rest) := Parse(pw, tail[0].1, tail[1..], pw(tail[0].0).1);
      Continue(pw, Node(lhs, tail[0].0, rhs), rest, min)
  }

  /** The next operator of the tail pulls less than `min`. */
  predicate Stops<A>(pw: Powers, tail: seq<(BinOp, A)>, min: nat) {
    tail != [] ==> pw(tail[0].0).0 < min
  }

  /** The Pratt parse flattens to what it took. */
  lemma {:induction false} ParseFlattens<A>(pw: Powers, first: A, tail: seq<(BinOp, A)>, min: nat)
    ensures var (t, rest) := Parse(pw, first, tail, min);
            Flatten(t).first == first && Flatten(t).tail + rest == tail
    decreases |tail|, 1
  {
    ContinueFlattens(pw, Leaf(first), tail, min);
  }

  lemma {:induction false} ContinueFlattens<A>(pw: Powers, lhs: Tree<A>, tail: seq<(BinOp, A)>, min: nat)
    ensures var (t, rest) := Continue(pw, lhs, tail, min);
            Flatten(t).first == Flatten(lhs).first && Flatten(t).tail + rest == Flatten(lhs).tail + tail
    decreases |tail|, 0
  {
    if tail == [] || pw(tail[0].0).0 < min {
    } else {
      var (op, a) := tail[0];
      var (rhs, rest) := Parse(pw, a, tail[1..], pw(op).1);
      ParseFlattens(pw, a, tail[1..], pw(op).1);
      ContinueFlattens(pw, Node(lhs, op, rhs), rest, min);
      Regroup(Flatten(lhs).tail, Flatten(rhs).tail, rest, tail);
    }
  }

  lemma Regroup<X>(x: seq<X>, y: seq<X>, rest: seq<X>, tail: seq<X>)
    requires tail != [] && y + rest == tail[1..]
    ensures x + [tail[0]] + y + rest == x + tail
  {
    assert [tail[0]] + tail[1..] == tail;
    assert x + [tail[0]] + y + rest == x + ([tail[0]] + (y + rest));
  }

  /** The Pratt parse is well placed, and stops only where the minimum power or the
      end of the chain tells it to. */
  lemma {:induction false} ParseIsWellPlaced<A>(pw: Powers, first: A, tail: seq<(BinOp, A)>, min: nat)
    ensures var (t, rest) := Parse(pw, first, tail, min);
            && WellPlaced(pw, t)
            && Stops(pw, rest, min)
            && (forall q :: q in LeftSpine(t) ==> pw(q).0 >= min)
            && (rest != [] ==> forall p :: p in RightSpine(t) ==> pw(p).1 > pw(rest[0].0).0)
    decreases |tail|, 1
  {
    ContinueIsWellPlaced(pw, Leaf(first), tail, min);
  }

  lemma {:induction false} ContinueIsWellPlaced<A>(pw: Powers, lhs: Tree<A>, tail: seq<(BinOp, A)>, min: nat)
    requires WellPlaced(pw, lhs)
    requires forall q :: q in LeftSpine(lhs) ==> pw(q).0 >= min
    requires tail != [] ==> forall p :: p in RightSpine(lhs) ==> pw(p).1 > pw(tail[0].0).0
    ensures var (t, rest) := Continue(pw, lhs, tail, min);
            && WellPlaced(pw, t)
            && Stops(pw, rest, min)
            && (forall q :: q in LeftSpine(t) ==> pw(q).0 >= min)
            && (rest != [] ==> forall p :: p in RightSpine(t) ==> pw(p).1 > pw(rest[0].0).0)
    decreases |tail|, 0
  {
    if tail == [] || pw(tail[0].0).0 < min {
    } else {
      var (op, a) := tail[0];
      var (rhs, rest) := Parse(pw, a, tail[1..], pw(op).1);
      ParseIsWellPlaced(pw, a, tail[1..], pw(op).1);
      ContinueIsWellPlaced(pw, Node(lhs, op, rhs), rest, min);
    }
  }

  /** Parsing the flattening of a well-placed tree rebuilds the tree. */
  lemma {:induction false} ParseOfFlatten<A>(pw: Powers, t: Tree<A>, rest: seq<(BinOp, A)>, min: nat)
    requires WellPlaced(pw, t)
    requires forall q :: q in LeftSpine(t) ==> pw(q).0 >= min
    requires rest != [] ==> forall p :: p in RightSpine(t) ==> pw(p).1 > pw(rest[0].0).0
    ensures Parse(pw, Flatten(t).first, Flatten(t).tail + rest, min) == Continue(pw, t, rest, min)
    decreases t
  {
    match t
    case Leaf(a) =>
      assert Flatten(t).tail + rest == rest;
    case Node(l, op, r) =>
      var rest' := [(op, Flatten(r).first)] + (Flatten(r).tail + rest);
      assert Flatten(t).tail + rest == Flatten(l).tail + rest';
      ParseOfFlatten(pw, l, rest', min);
      ParseOfFlatten(pw, r, rest, pw(op).1);
      assert rest'[1..] == Flatten(r).tail + rest;
      assert Continue(pw, r, rest, pw(op).1) == (r, rest);
  }

  /** A chain has exactly one well-placed tree, and the Pratt parse, which takes the
      whole chain, is it. */
  lemma OneWellPlacedTree<A>(pw: Powers, chain: Chain<A>, t: Tree<A>)
    ensures var (p, rest) := Parse(pw, chain.first, chain.tail, 0);
            && rest == []
            && (WellPlaced(pw, t) && Flatten(t) == chain <==> t == p)
  {
    var (p, rest) := Parse(pw, chain.first, chain.tail, 0);
    ParseIsWellPlaced(pw, chain.first, chain.tail, 0);
    ParseFlattens(pw, chain.first, chain.tail, 0);
    assert Flatten(p).tail == chain.tail;
    if WellPlaced(pw, t) && Flatten(t) == chain {
      assert chain.tail + [] == chain.tail;
      ParseOfFlatten(pw, t, [], 0);
    }
  }
}
