/** Graphs in which every node has at most one outgoing edge: the shape that
    write-once parent links give a set of scopes. A graph is the map of its edges. */
module Graphs {
  import opened Wrappers

  /** The node `n` edges after `a`, if there are that many. */
  ghost function Walk<T>(g: map<T, T>, a: T, n: nat): Option<T> {
    if n == 0 then Some(a)
    else if a in g then Walk(g, g[a], n - 1)
    else None
  }

  ghost predicate Reaches<T>(g: map<T, T>, a: T, b: T) {
    exists n: nat :: Walk(g, a, n) == Some(b)
  }

  ghost predicate Ends<T>(g: map<T, T>, a: T) {
    exists n: nat :: Walk(g, a, n) == None
  }

  /** `a` comes back to itself after `n` edges. */
  ghost predicate Cycle<T>(g: map<T, T>, a: T, n: nat) {
    n > 0 && Walk(g, a, n) == Some(a)
  }

  ghost predicate Acyclic<T>(g: map<T, T>) {
    forall a, n: nat :: a in g ==> !Cycle(g, a, n)
  }

  lemma {:induction false} WalkSplit<T>(g: map<T, T>, a: T, m: nat, n: nat)
    requires Walk(g, a, m).Some?
    ensures Walk(g, a, m + n) == Walk(g, Walk(g, a, m).value, n)
  {
    if m > 0 {
      WalkSplit(g, g[a], m - 1, n);
    }
  }

  /** One edge more at the far end of a walk. */
  lemma WalkStep<T>(g: map<T, T>, a: T, n: nat)
    requires Walk(g, a, n).Some?
    ensures var b := Walk(g, a, n).value;
            Walk(g, a, n + 1) == if b in g then Some(g[b]) else None
  {
    WalkSplit(g, a, n, 1);
    var b := Walk(g, a, n).value;
    if b in g {
      assert Walk(g, b, 1) == Walk(g, g[b], 0);
    }
  }

  lemma {:induction false} WalkPrefix<T>(g: map<T, T>, a: T, m: nat, n: nat)
    requires m <= n && Walk(g, a, n).Some?
    ensures Walk(g, a, m).Some?
  {
    if m > 0 {
      WalkPrefix(g, g[a], m - 1, n - 1);
    }
  }

  /** A walk that stays on edges `h` shares with `g` is the same walk in `h`. */
  lemma {:induction false} WalkAgrees<T>(g: map<T, T>, h: map<T, T>, a: T, n: nat)
    requires Walk(g, a, n).Some?
    requires forall k: nat :: k < n ==> var b := Walk(g, a, k);
                                        b.Some? && b.value in g ==> b.value in h && h[b.value] == g[b.value]
    ensures Walk(h, a, n) == Walk(g, a, n)
  {
    if n > 0 {
      assert Walk(g, a, 0) == Some(a);
      forall k: nat | k < n - 1
        ensures Walk(g, g[a], k) == Walk(g, a, k + 1)
      {}
      WalkAgrees(g, h, g[a], n - 1);
    }
  }

  /** Adding edges keeps every walk. */
  lemma {:induction false} WalkMonotone<T>(g: map<T, T>, h: map<T, T>, a: T, n: nat)
    requires forall x :: x in g ==> x in h && h[x] == g[x]
    requires Walk(g, a, n).Some?
    ensures Walk(h, a, n) == Walk(g, a, n)
  {
    if n > 0 {
      WalkMonotone(g, h, g[a], n - 1);
    }
  }

  lemma {:induction false} CycleNeverEnds<T>(g: map<T, T>, a: T, n: nat, m: nat)
    requires Cycle(g, a, n)
    ensures Walk(g, a, m).Some?
    decreases m
  {
    if m <= n {
      WalkPrefix(g, a, m, n);
    } else {
      WalkSplit(g, a, n, m - n);
      CycleNeverEnds(g, a, n, m - n);
    }
  }

  /** Taking one node's edge away either shortens a walk or the walk met that node. */
  lemma {:induction false} WalkWithout<T>(g: map<T, T>, s: T, a: T, n: nat)
    requires Walk(g - {s}, a, n) == None
    ensures Walk(g, a, n) == None || Reaches(g, a, s)
  {
    if a == s {
      assert Walk(g, a, 0) == Some(s);
    } else if a in g {
      WalkWithout(g, s, g[a], n - 1);
      if Reaches(g, g[a], s) {
        var k: nat :| Walk(g, g[a], k) == Some(s);
        assert Walk(g, a, k + 1) == Some(s);
      }
    }
  }

  /** In an acyclic graph every walk ends. */
  lemma {:induction false} AcyclicEnds<T>(g: map<T, T>, a: T)
    requires Acyclic(g)
    ensures Ends(g, a)
    decreases |g|
  {
    if a !in g {
      assert Walk(g, a, 1) == None;
    } else {
      var h := g - {a};
      forall x, n: nat | x in h
        ensures !Cycle(h, x, n)
      {
        if Cycle(h, x, n) {
          WalkMonotone(h, g, x, n);
          assert Cycle(g, x, n);
        }
      }
      assert |h| < |g| by {
        assert h.Keys == g.Keys - {a};
        assert |h.Keys| < |g.Keys|;
      }
      AcyclicEnds(h, g[a]);
      var n: nat :| Walk(h, g[a], n) == None;
      WalkWithout(g, a, g[a], n);
      if Reaches(g, g[a], a) {
        var k: nat :| Walk(g, g[a], k) == Some(a);
        assert Cycle(g, a, k + 1);
      } else {
        assert Walk(g, a, n + 1) == None;
      }
    }
  }

  /** A graph is acyclic exactly when every walk in it ends. */
  lemma AcyclicIffWalksEnd<T>(g: map<T, T>)
    ensures Acyclic(g) <==> forall a :: a in g ==> Ends(g, a)
  {
    if Acyclic(g) {
      forall a | a in g ensures Ends(g, a) { AcyclicEnds(g, a); }
    }
    if forall a :: a in g ==> Ends(g, a) {
      forall a, n: nat | a in g ensures !Cycle(g, a, n) {
        var m: nat :| Walk(g, a, m) == None;
        if Cycle(g, a, n) { CycleNeverEnds(g, a, n, m); }
      }
    }
  }

  /** Giving a node without an edge an edge to a node that does not reach it
      closes no cycle. */
  lemma AddEdgeAcyclic<T>(g: map<T, T>, s: T, p: T)
    requires Acyclic(g) && s !in g && !Reaches(g, p, s)
    ensures Acyclic(g[s := p])
  {
    var h := g[s := p];
    assert h - {s} == g;
    forall a | a in h ensures Ends(h, a) {
      EndsAfterEdge(g, s, p, p);
      EndsAfterEdge(g, s, p, a);
    }
    AcyclicIffWalksEnd(h);
  }

  lemma EndsAfterEdge<T>(g: map<T, T>, s: T, p: T, a: T)
    requires Acyclic(g) && s !in g && !Reaches(g, p, s)
    ensures Ends(g[s := p], a)
  {
    var h := g[s := p];
    assert h - {s} == g;
    AcyclicEnds(g, p);
    var m: nat :| Walk(g, p, m) == None;
    WalkWithout(h, s, p, m);
    if Reaches(h, p, s) {
      NotReachedAfterEdge(g, s, p);
    }
    assert Walk(h, s, m + 1) == None;
    AcyclicEnds(g, a);
    var n: nat :| Walk(g, a, n) == None;
    WalkWithout(h, s, a, n);
    if Reaches(h, a, s) {
      var k: nat :| Walk(h, a, k) == Some(s);
      WalkSplit(h, a, k, m + 1);
      assert Walk(h, a, k + (m + 1)) == None;
    }
  }

  lemma NotReachedAfterEdge<T>(g: map<T, T>, s: T, p: T)
    requires s !in g && !Reaches(g, p, s)
    ensures !Reaches(g[s := p], p, s)
  {
    var h := g[s := p];
    if Reaches(h, p, s) {
      var n: nat :| Walk(h, p, n) == Some(s);
      NotReachedWithin(g, s, p, p, n);
    }
  }

  lemma {:induction false} NotReachedWithin<T>(g: map<T, T>, s: T, p: T, a: T, n: nat)
    requires s !in g && !Reaches(g, a, s)
    ensures Walk(g[s := p], a, n) != Some(s)
  {
    assert Walk(g, a, 0) == Some(a);
    if n > 0 && a in g {
      forall k: nat ensures Walk(g, g[a], k) != Some(s) {
        assert Walk(g, a, k + 1) != Some(s);
      }
      NotReachedWithin(g, s, p, g[a], n - 1);
    }
  }
}
