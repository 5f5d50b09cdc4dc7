/** The resource scope as the object it is: a slot for an accessor and a slot for a
    parent link, each written once, with the loops that follow the links. */
module ResourceScopes {
  import opened Wrappers
  import opened Graphs

  type Payload = nat

  /** A host's resource store, as its lookup by key. */
  type Accessor = string -> Option<Payload>

  datatype JoinError = CycleError

  /** The delegation graph of a set of scopes: every link that is set and live. */
  ghost function LiveGraph(all: set<Scope>): map<Scope, Scope>
    reads all
  {
    map s: Scope | s in all && s.parent != null && s.live :: s.parent
  }

  ghost predicate Closed(all: set<Scope>)
    reads all
  {
    forall s: Scope :: s in all && s.parent != null ==> s.parent in all
  }

  /** A set of scopes between joins. */
  ghost predicate Settled(all: set<Scope>)
    reads all
  {
    Closed(all) && Acyclic(LiveGraph(all))
  }

  /** The graph after `s.Join(p)`, as the join documents it. */
  ghost function Joined(all: set<Scope>, s: Scope, p: Scope): map<Scope, Scope>
    requires s in all
    reads all
  {
    if s.accessor.Some? || s.parent != null || Reaches(LiveGraph(all), p, s) then LiveGraph(all)
    else LiveGraph(all)[s := p]
  }

  /** The scope `n` links up from `s` is the nearest one with an accessor. */
  ghost predicate Nearest(all: set<Scope>, s: Scope, n: nat)
    requires Closed(all) && s in all
    reads all
  {
    !BareAt(all, s, n) && forall k: nat :: k < n ==> BareAt(all, s, k)
  }

  /** The accessor installed on the scope `n` links up from `s`. */
  ghost function AccessorAt(all: set<Scope>, s: Scope, n: nat): Accessor
    requires Closed(all) && s in all && !BareAt(all, s, n)
    reads all
  {
    WalkStaysIn(all, s, n);
    Walk(LiveGraph(all), s, n).value.accessor.value
  }

  /** The scope `k` links up from `s`, if there is one, has no accessor. */
  ghost predicate BareAt(all: set<Scope>, s: Scope, k: nat)
    requires Closed(all) && s in all
    reads all
  {
    WalkStaysIn(all, s, k);
    Walk(LiveGraph(all), s, k).Some? ==> Walk(LiveGraph(all), s, k).value.accessor.None?
  }

  lemma {:induction false} WalkStaysIn(all: set<Scope>, s: Scope, n: nat)
    requires Closed(all) && s in all
    ensures Walk(LiveGraph(all), s, n).Some? ==> Walk(LiveGraph(all), s, n).value in all
  {
    if n > 0 && s in LiveGraph(all) {
      WalkStaysIn(all, s.parent, n - 1);
    }
  }

  class Scope {
    var accessor: Option<Accessor>
    var parent: Scope?
    var live: bool

    constructor ()
      ensures accessor == None && parent == null
    {
      accessor, parent, live := None, null, false;
    }

    /** Install an accessor, unless one is installed. */
    method Install(a: Accessor) returns (r: Result<(), Accessor>)
      modifies this`accessor
      ensures old(accessor).None? ==> r == Ok(()) && accessor == Some(a)
      ensures old(accessor).Some? ==> r == Err(a) && accessor == old(accessor)
    {
      if accessor.Some? {
        return Err(a);
      }
      accessor := Some(a);
      return Ok(());
    }

    /** Whether `target` is this scope or one it delegates to. */
    method ReachesScope(target: Scope, ghost all: set<Scope>) returns (r: bool)
      requires Closed(all) && this in all
      requires Ends(LiveGraph(all), this) || Reaches(LiveGraph(all), this, target)
      ensures r <==> Reaches(LiveGraph(all), this, target)
    {
      ghost var g := LiveGraph(all);
      ghost var bound: nat :| Walk(g, this, bound) == None || Walk(g, this, bound) == Some(target);
      var scope := this;
      ghost var n: nat := 0;
      while scope != target
        invariant n <= bound && scope in all && Walk(g, this, n) == Some(scope)
        invariant forall k: nat :: k < n ==> Walk(g, this, k) != Some(target)
        decreases bound - n
      {
        WalkStep(g, this, n);
        if scope.parent == null || !scope.live {
          forall k: nat ensures Walk(g, this, k) != Some(target) {
            if k > n { NoWalkPastEnd(g, this, n + 1, k); }
          }
          return false;
        }
        if n == bound { assert false; }
        scope := scope.parent;
        n := n + 1;
      }
      return true;
    }

    /** Join this scope to `p`: the first walk, the link, and the second walk. */
    method Join(p: Scope, ghost all: set<Scope>) returns (r: Result<(), JoinError>)
      requires Settled(all) && this in all && p in all
      modifies this`parent, this`live
      ensures Settled(all)
      ensures r.Ok?
      ensures LiveGraph(all) == old(Joined(all, this, p))
    {
      ghost var g := LiveGraph(all);
      AcyclicEnds(g, p);
      if accessor.Some? {
        return Ok(());
      }
      var reached := p.ReachesScope(this, all);
      if reached {
        return Ok(());
      }
      if parent != null {
        return Ok(());
      }
      parent, live := p, true;
      assert LiveGraph(all) == g[this := p];
      AddEdgeAcyclic(g, this, p);
      NotReachedAfterEdge(g, this, p);
      AcyclicEnds(LiveGraph(all), p);
      r := Settle(all);
    }

    /** The second walk of a join that has set its link: if the parent now reaches
        this scope, sever the link. */
    method Settle(ghost all: set<Scope>) returns (r: Result<(), JoinError>)
      requires Closed(all) && this in all && parent != null && live
      requires Ends<Scope>(LiveGraph(all), parent) || Reaches<Scope>(LiveGraph(all), parent, this)
      modifies this`live
      ensures r.Err? <==> old(Reaches<Scope>(LiveGraph(all), parent, this))
      ensures LiveGraph(all) == if r.Err? then old(LiveGraph(all)) - {this} else old(LiveGraph(all))
      ensures Closed(all)
    {
      var again := parent.ReachesScope(this, all);
      if again {
        live := false;
        return Err(CycleError);
      }
      return Ok(());
    }

    /** The answer of the nearest installed accessor up the chain of live links. */
    method Lookup(key: string, ghost all: set<Scope>) returns (r: Option<Payload>)
      requires Settled(all) && this in all
      ensures forall n: nat :: Nearest(all, this, n) ==> r == AccessorAt(all, this, n)(key)
      ensures (forall k: nat :: BareAt(all, this, k)) ==> r == None
    {
      ghost var g := LiveGraph(all);
      AcyclicEnds(g, this);
      ghost var bound: nat :| Walk(g, this, bound) == None;
      var scope := this;
      ghost var n: nat := 0;
      while scope.accessor.None?
        invariant n <= bound && scope in all && Walk(g, this, n) == Some(scope)
        invariant forall k: nat :: k < n ==> BareAt(all, this, k)
        decreases bound - n
      {
        WalkStep(g, this, n);
        if scope.parent == null || !scope.live {
          forall k: nat
            ensures BareAt(all, this, k)
          {
            if k > n { NoWalkPastEnd(g, this, n + 1, k); }
          }
          return None;
        }
        if n == bound { assert false; }
        scope := scope.parent;
        n := n + 1;
      }
      assert !BareAt(all, this, n);
      return scope.accessor.value(key);
    }
  }

  lemma NoWalkPastEnd<T>(g: map<T, T>, a: T, n: nat, k: nat)
    requires n <= k && Walk(g, a, n) == None
    ensures Walk(g, a, k) == None
  {
    if Walk(g, a, k).Some? { WalkPrefix(g, a, n, k); }
  }
}
