/** What the join promises, over every run of the machine: no link is ever
    retargeted, every cycle is guarded by an unfinished call, and calls that run
    one at a time leave exactly the documented graph. */
module JoinSafety {
  import opened Wrappers
  import opened Graphs
  import opened JoinProtocol

  /** Every state of every run keeps the invariant. */
  lemma {:induction false} RunInv(steps: seq<Step>)
    ensures Inv(Run(steps))
  {
    if steps != [] {
      RunInv(steps[..|steps| - 1]);
      NextInv(Run(steps[..|steps| - 1]), steps[|steps| - 1]);
    }
  }

  /** Over any run, no link is retargeted or revived and no accessor is replaced. */
  lemma {:induction false} RunExtends(steps: seq<Step>, more: seq<Step>)
    ensures Extends(Run(steps), Run(steps + more))
  {
    if more == [] {
      assert steps + more == steps;
    } else {
      var all := steps + more;
      assert all[..|all| - 1] == steps + more[..|more| - 1];
      RunExtends(steps, more[..|more| - 1]);
      RunInv(all[..|all| - 1]);
      NextExtends(Run(all[..|all| - 1]), all[|all| - 1]);
    }
  }

  /** Some call that set the link of `x` has not finished its second walk or its
      severing store. */
  ghost predicate JoinUnsettled(st: State, x: Scope) {
    exists t :: t in st.pcs && st.pcs[t].self == x && Unsettled(st.pcs[t])
  }

  /** In every state of every run, each cycle of live links goes through a scope
      whose own join is unsettled. */
  lemma CycleHasUnsettledJoin(steps: seq<Step>, s: Scope, n: nat)
    requires Cycle(Live(Run(steps)), s, n)
    ensures exists k: nat :: k < n && Walk(Live(Run(steps)), s, k).Some? && JoinUnsettled(Run(steps), Walk(Live(Run(steps)), s, k).value)
  {
    var st := Run(steps);
    var g := Live(st);
    RunInv(steps);
    // The newest link of the cycle ...
    var i := NewestOnWalk(st, s, n);
    var x := Walk(g, s, i).value;
    // ... is reached back from its own parent over older links only.
    WalkSplit(g, s, i, n - i);
    WalkSplit(g, s, n, i);
    WalkSplit(g, x, n - i, i);
    assert Walk(g, x, n) == Some(x);
    var j := FirstReturn(g, x, n);
    var older := Older(st, st.links[x].stamp);
    assert x in g;
    forall k: nat | k < j - 1
      ensures Walk(g, g[x], k).Some? && Walk(g, g[x], k).value in older && older[Walk(g, g[x], k).value] == g[Walk(g, g[x], k).value]
    {
      assert Walk(g, x, k + 1) == Walk(g, g[x], k);
      WalkPrefix(g, x, k + 1, n);
      WalkPrefix(g, x, k + 2, n);
      WalkStep(g, x, k + 1);
      OnCycle(g, s, n, i, k + 1);
    }
    WalkAgrees(g, older, g[x], j - 1);
    assert Walk(older, g[x], j - 1) == Some(x);
    assert Guarded(st, older, g[x], x, j - 1);
    assert JoinUnsettled(st, x);
  }

  /** The index of a link of maximal stamp among the first `n` of a walk. */
  lemma {:induction false} NewestOnWalk(st: State, s: Scope, n: nat) returns (i: nat)
    requires n > 0 && Walk(Live(st), s, n).Some?
    ensures i < n && Walk(Live(st), s, i).Some? && Walk(Live(st), s, i).value in Live(st)
    ensures forall k: nat :: k < n ==> Walk(Live(st), s, k).Some? && Walk(Live(st), s, k).value in Live(st)
    ensures forall k: nat :: k < n ==> st.links[Walk(Live(st), s, k).value].stamp <= st.links[Walk(Live(st), s, i).value].stamp
  {
    var g := Live(st);
    WalkPrefix(g, s, n - 1, n);
    WalkStep(g, s, n - 1);
    i := n - 1;
    if n > 1 {
      var h := NewestOnWalk(st, s, n - 1);
      if st.links[Walk(g, s, n - 1).value].stamp < st.links[Walk(g, s, h).value].stamp {
        i := h;
      }
    }
  }

  /** The first of the returns of `x` to itself. */
  lemma FirstReturn(g: map<Scope, Scope>, x: Scope, n: nat) returns (j: nat)
    requires Cycle(g, x, n)
    ensures 0 < j <= n && Walk(g, x, j) == Some(x)
    ensures forall k: nat :: 0 < k < j ==> Walk(g, x, k) != Some(x)
  {
    j := 1;
    while Walk(g, x, j) != Some(x)
      invariant 0 < j <= n
      invariant forall k: nat :: 0 < k < j ==> Walk(g, x, k) != Some(x)
      decreases n - j
    {
      j := j + 1;
    }
  }

  /** A step count from a point of a cycle lands on a point of the cycle. */
  lemma {:induction false} OnCycle(g: map<Scope, Scope>, s: Scope, n: nat, i: nat, k: nat)
    requires Cycle(g, s, n) && i < n && k <= n
    ensures Walk(g, s, i).Some?
    ensures exists m: nat :: m < n && Walk(g, s, m) == Walk(g, Walk(g, s, i).value, k)
  {
    WalkPrefix(g, s, i, n);
    WalkSplit(g, s, i, k);
    if i + k < n {
    } else if i + k < n + n {
      WalkSplit(g, s, n, i + k - n);
    }
  }

  /** Whenever no call is between setting its link and settling it, the live links
      are acyclic and every walk over them ends. */
  lemma SettledIsAcyclic(steps: seq<Step>)
    requires forall t :: t in Run(steps).pcs ==> !Unsettled(Run(steps).pcs[t])
    ensures Acyclic(Live(Run(steps)))
    ensures forall s :: Ends(Live(Run(steps)), s)
  {
    var g := Live(Run(steps));
    forall s, n: nat | s in g
      ensures !Cycle(g, s, n)
    {
      if Cycle(g, s, n) {
        CycleHasUnsettledJoin(steps, s, n);
      }
    }
    forall s ensures Ends(g, s) { AcyclicEnds(g, s); }
  }

  /** A call that returns the cycle error has severed its own link for good, and the
      scope where its first walk stopped, another one, had no link then and has one now. */
  lemma CycleErrorMeansRace(steps: seq<Step>, t: Thread)
    requires t in Run(steps).pcs && Run(steps).pcs[t].Cycled?
    ensures var st := Run(steps); var pc := st.pcs[t];
            && pc.self in st.links && !st.links[pc.self].live
            && pc.end.Absent? && pc.end.scope != pc.self
            && pc.end.scope in st.links && pc.end.at <= st.links[pc.end.scope].stamp
  {
    RunInv(steps);
  }

  /** Once the call that set a link has settled with the link live, the link stays
      live over every run that follows. */
  lemma {:induction false} SettledLinkStays(steps: seq<Step>, more: seq<Step>, s: Scope)
    requires var st := Run(steps); s in st.links && st.links[s].live && !JoinUnsettled(st, s)
    ensures var st := Run(steps + more); s in st.links && st.links[s].live && !JoinUnsettled(st, s)
  {
    if more == [] {
      assert steps + more == steps;
    } else {
      var all := steps + more;
      assert all[..|all| - 1] == steps + more[..|more| - 1];
      SettledLinkStays(steps, more[..|more| - 1], s);
      StaysSettled(Run(all[..|all| - 1]), all[|all| - 1], s);
    }
  }

  lemma StaysSettled(st: State, step: Step, s: Scope)
    requires s in st.links && st.links[s].live && !JoinUnsettled(st, s)
    ensures var st' := Next(st, step); s in st'.links && st'.links[s].live && !JoinUnsettled(st', s)
  {
    var st' := Next(st, step);
    if step.Advance? && step.t in st.pcs {
      LinksAfter(st, step.t);
      forall t | t in st'.pcs
        ensures !(st'.pcs[t].self == s && Unsettled(st'.pcs[t]))
      {
        OnlyMoverAppears(st, step.t, t);
        if t != step.t { OtherPcs(st, step.t, t); }
      }
    }
  }

  // ------------------------------------------------------------------
  // One call running alone
  // ------------------------------------------------------------------

  /** The state after `n` steps of thread `t` alone. */
  function Alone(st: State, t: Thread, n: nat): State
    decreases n
  {
    if n == 0 then st else Alone(Next(st, Advance(t)), t, n - 1)
  }

  lemma {:induction false} AloneSplit(st: State, t: Thread, m: nat, n: nat)
    ensures Alone(st, t, m + n) == Alone(Alone(st, t, m), t, n)
    decreases m
  {
    if m > 0 {
      AloneSplit(Next(st, Advance(t)), t, m - 1, n);
    }
  }

  /** A first walk alone decides whether `s` is reached. */
  lemma {:induction false} FirstWalkAlone(st: State, t: Thread, s: Scope, p: Scope, c: Scope, m: nat) returns (n: nat, end: WalkEnd)
    requires t in st.pcs && st.pcs[t] == First(s, p, c) && Walk(Live(st), c, m) == None
    ensures Alone(st, t, n) == Goto(st, t, if Reaches(Live(st), c, s) then Returned(s, p) else SetLink(s, p, end))
    decreases m
  {
    var st1 := Next(st, Advance(t));
    assert Walk(Live(st), c, 0) == Some(c);
    if c == s {
      n, end := 1, Severed(c);
      assert Alone(st, t, 1) == Alone(st1, t, 0);
    } else if c !in st.links {
      n, end := 1, Absent(c, st.clock);
      assert Alone(st, t, 1) == Alone(st1, t, 0);
      ReachesThrough(Live(st), c, s);
    } else {
      var st2 := Next(st1, Advance(t));
      assert Alone(st, t, 2) == Alone(st1, t, 1) == Alone(st2, t, 0);
      ReachesThrough(Live(st), c, s);
      if st.links[c].live {
        assert Live(st2) == Live(st);
        n, end := FirstWalkAlone(st2, t, s, p, st.links[c].parent, m - 1);
        AloneSplit(st, t, 2, n);
        n := n + 2;
      } else {
        n, end := 2, Severed(c);
      }
    }
  }

  /** A second walk alone that does not reach `s` lets the call return. */
  lemma {:induction false} SecondWalkAlone(st: State, t: Thread, s: Scope, p: Scope, c: Scope, e: WalkEnd, m: nat) returns (n: nat)
    requires t in st.pcs && st.pcs[t] == Second(s, p, c, e) && Walk(Live(st), c, m) == None
    requires !Reaches(Live(st), c, s)
    ensures Alone(st, t, n) == Goto(st, t, Returned(s, p))
    decreases m
  {
    var st1 := Next(st, Advance(t));
    assert Walk(Live(st), c, 0) == Some(c);
    if c !in st.links {
      n := 1;
      assert Alone(st, t, 1) == Alone(st1, t, 0);
    } else {
      var st2 := Next(st1, Advance(t));
      assert Alone(st, t, 2) == Alone(st1, t, 1) == Alone(st2, t, 0);
      ReachesThrough(Live(st), c, s);
      n := 2;
      if st.links[c].live {
        assert Live(st2) == Live(st);
        n := SecondWalkAlone(st2, t, s, p, st.links[c].parent, e, m - 1);
        AloneSplit(st, t, 2, n);
        n := n + 2;
      }
    }
  }

  lemma ReachesThrough(g: map<Scope, Scope>, c: Scope, s: Scope)
    requires c != s
    ensures Reaches(g, c, s) <==> c in g && Reaches(g, g[c], s)
  {
    if Reaches(g, c, s) {
      var n: nat :| Walk(g, c, n) == Some(s);
      assert Walk(g, g[c], n - 1) == Some(s);
    }
    if c in g && Reaches(g, g[c], s) {
      var n: nat :| Walk(g, g[c], n) == Some(s);
      assert Walk(g, c, n + 1) == Some(s);
    }
  }

  /** The delegation graph that a join documents: it adds the one edge, unless the
      scope has its own accessor, already joined, or is the parent or its ancestor. */
  ghost function Joined(st: State, s: Scope, p: Scope): map<Scope, Scope> {
    if s in st.accessors || s in st.links || Reaches(Live(st), p, s) then Live(st) else Live(st)[s := p]
  }

  /** The rest of a call that is about to set its link, run alone over an acyclic graph
      in which the parent does not reach the scope. */
  lemma LinkAlone(st: State, t: Thread, s: Scope, p: Scope, end: WalkEnd) returns (n: nat)
    requires t in st.pcs && st.pcs[t] == SetLink(s, p, end)
    requires Acyclic(Live(st)) && !Reaches(Live(st), p, s)
    ensures var st' := Alone(st, t, n);
            && st'.pcs == st.pcs[t := Returned(s, p)] && st'.accessors == st.accessors
            && Live(st') == if s in st.links then Live(st) else Live(st)[s := p]
  {
    var st1 := Next(st, Advance(t));
    assert Alone(st, t, 1) == Alone(st1, t, 0);
    n := 1;
    if s !in st.links {
      assert Live(st1) == Live(st)[s := p];
      AddEdgeAcyclic(Live(st), s, p);
      NotReachedAfterEdge(Live(st), s, p);
      AcyclicEnds(Live(st1), p);
      var m: nat :| Walk(Live(st1), p, m) == None;
      var j := SecondWalkAlone(st1, t, s, p, p, end, m);
      AloneSplit(st, t, 1, j);
      n := j + 1;
    }
  }

  /** A call run alone from a settled state returns without error, and leaves exactly
      the documented graph. */
  lemma JoinAlone(steps: seq<Step>, t: Thread, s: Scope, p: Scope) returns (n: nat)
    requires forall u :: u in Run(steps).pcs ==> Finished(Run(steps).pcs[u])
    ensures var st := Run(steps); var st' := Alone(Next(st, Begin(t, s, p)), t, n);
            && t in st'.pcs && st'.pcs[t] == Returned(s, p)
            && Live(st') == Joined(st, s, p)
            && st'.accessors == st.accessors
  {
    var st := Run(steps);
    SettledIsAcyclic(steps);
    var st0 := Next(st, Begin(t, s, p));
    var st1 := Next(st0, Advance(t));
    assert Alone(st0, t, 1) == Alone(st1, t, 0);
    n := 1;
    if s !in st.accessors {
      assert Live(st1) == Live(st);
      assert Ends(Live(st), p);
      var m: nat :| Walk(Live(st), p, m) == None;
      var k, end := FirstWalkAlone(st1, t, s, p, p, m);
      AloneSplit(st0, t, 1, k);
      n := k + 1;
      if !Reaches(Live(st), p, s) {
        var st2 := Alone(st0, t, n);
        assert Live(st2) == Live(st);
        var j := LinkAlone(st2, t, s, p, end);
        AloneSplit(st0, t, n, j);
        n := n + j;
      }
    }
  }

  // ------------------------------------------------------------------
  // What does not hold
  // ------------------------------------------------------------------

  /** Two threads that join two scopes to each other at the same time. */
  const RACE: seq<Step> :=
    [Begin(0, 0, 1), Begin(1, 1, 0), Advance(0), Advance(1), Advance(0), Advance(1), Advance(0), Advance(1)]

  /** A cycle of live links can stand while the calls that closed it are unsettled. */
  lemma CycleCanStandBriefly()
    ensures exists steps, s, n: nat :: Cycle(Live(Run(steps)), s, n)
  {
    var s1 := Next(INIT, Begin(0, 0, 1));
    var s2 := Next(s1, Begin(1, 1, 0));
    var s3 := Next(Next(s2, Advance(0)), Advance(1));
    assert s3.pcs == map[0 := First(0, 1, 1), 1 := First(1, 0, 0)];
    var s4 := Next(Next(s3, Advance(0)), Advance(1));
    assert s4.pcs == map[0 := SetLink(0, 1, Absent(1, 0)), 1 := SetLink(1, 0, Absent(0, 0))];
    var s5 := Next(Next(s4, Advance(0)), Advance(1));
    assert s5.links == map[0 := Link(1, true, 0), 1 := Link(0, true, 1)];
    assert Live(s5) == map[0 := 1, 1 := 0];
    assert Walk(Live(s5), 0, 2) == Walk(Live(s5), 1, 1) == Walk(Live(s5), 0, 0);
    RunOfRace();
    assert Cycle(Live(Run(RACE)), 0, 2);
  }

  lemma RunOfRace()
    ensures Run(RACE) == Next(Next(Next(Next(Next(Next(Next(Next(INIT, RACE[0]), RACE[1]), RACE[2]), RACE[3]), RACE[4]), RACE[5]), RACE[6]), RACE[7])
  {
    forall k: nat | 0 < k <= 8
      ensures Run(RACE[..k]) == Next(Run(RACE[..k - 1]), RACE[k - 1])
    {
      assert RACE[..k][..k - 1] == RACE[..k - 1];
    }
    assert RACE[..8] == RACE;
    assert Run(RACE[..0]) == INIT;
  }
}
