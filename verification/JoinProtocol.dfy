/** The lock-free join of resource scopes, as a machine whose steps are single
    reads and writes of the shared slots.

    Any number of threads run `join` on any number of scopes, interleaved with
    installs, in any order: a run is any sequence of steps. A link carries the
    value of a clock that ticks at each link set, and a thread remembers how its
    first walk ended. Both only record history: no step's choice reads them. */
module JoinProtocol {
  import opened Wrappers
  import opened Graphs

  type Scope = nat
  type Thread = nat
  type Accessor = nat

  /** A write-once parent link and its severing flag. */
  datatype Link = Link(parent: Scope, live: bool, stamp: nat)

  /** How a first walk came to its end: at a scope whose slot was empty when the
      clock stood at `at`, or at a scope whose link was already severed. */
  datatype WalkEnd = Absent(scope: Scope, at: nat) | Severed(scope: Scope)

  /** Where a call `self.join(parent)` stands. */
  datatype Pc =
    | Check(self: Scope, parent: Scope)
    | First(self: Scope, parent: Scope, cursor: Scope)
    | FirstLive(self: Scope, parent: Scope, cursor: Scope)
    | SetLink(self: Scope, parent: Scope, end: WalkEnd)
    | Second(self: Scope, parent: Scope, cursor: Scope, end: WalkEnd)
    | SecondLive(self: Scope, parent: Scope, cursor: Scope, end: WalkEnd)
    | Reload(self: Scope, parent: Scope, end: WalkEnd)
    | Sever(self: Scope, parent: Scope, end: WalkEnd)
    | Returned(self: Scope, parent: Scope)
    | Cycled(self: Scope, parent: Scope, end: WalkEnd)

  predicate Finished(pc: Pc) {
    pc.Returned? || pc.Cycled?
  }

  /** The link is set, and the second walk or the severing store is not done. */
  predicate Unsettled(pc: Pc) {
    pc.Second? || pc.SecondLive? || pc.Reload? || pc.Sever?
  }

  datatype State = State(links: map<Scope, Link>, accessors: map<Scope, Accessor>, pcs: map<Thread, Pc>, clock: nat)

  datatype Step = Begin(t: Thread, self: Scope, parent: Scope) | Advance(t: Thread) | Install(s: Scope, a: Accessor)

  const INIT := State(map[], map[], map[], 0)

  /** One read or write by the thread whose call stands at `pc`. */
  function AdvancePc(st: State, t: Thread, pc: Pc): State {
    match pc
    case Check(s, p) =>
      Goto(st, t, if s in st.accessors then Returned(s, p) else First(s, p, p))
    case First(s, p, c) =>
      Goto(st, t,
           if c == s then Returned(s, p)
           else if c in st.links then FirstLive(s, p, c)
           else SetLink(s, p, Absent(c, st.clock)))
    case FirstLive(s, p, c) =>
      if c !in st.links then st
      else Goto(st, t,
                if st.links[c].live then First(s, p, st.links[c].parent)
                else SetLink(s, p, Severed(c)))
    case SetLink(s, p, e) =>
      if s in st.links then Goto(st, t, Returned(s, p))
      else Goto(st.(links := st.links[s := Link(p, true, st.clock)], clock := st.clock + 1), t, Second(s, p, p, e))
    case Second(s, p, c, e) =>
      Goto(st, t,
           if c == s then Reload(s, p, e)
           else if c in st.links then SecondLive(s, p, c, e)
           else Returned(s, p))
    case SecondLive(s, p, c, e) =>
      if c !in st.links then st
      else Goto(st, t,
                if st.links[c].live then Second(s, p, st.links[c].parent, e)
                else Returned(s, p))
    case Reload(s, p, e) =>
      Goto(st, t, if s in st.links then Sever(s, p, e) else Returned(s, p))
    case Sever(s, p, e) =>
      if s !in st.links then st
      else Goto(st.(links := st.links[s := st.links[s].(live := false)]), t, Cycled(s, p, e))
    case Returned(_, _) => st
    case Cycled(_, _, _) => st
  }

  function Goto(st: State, t: Thread, pc: Pc): State {
    st.(pcs := st.pcs[t := pc])
  }

  /** A step of the machine. A step that cannot be taken changes nothing. */
  function Next(st: State, step: Step): State {
    match step
    case Begin(t, s, p) =>
      if t in st.pcs && !Finished(st.pcs[t]) then st else Goto(st, t, Check(s, p))
    case Advance(t) =>
      if t in st.pcs then AdvancePc(st, t, st.pcs[t]) else st
    case Install(s, a) =>
      if s in st.accessors then st else st.(accessors := st.accessors[s := a])
  }

  /** The state after a run of `steps`. */
  function Run(steps: seq<Step>): State {
    if steps == [] then INIT
    else Next(Run(steps[..|steps| - 1]), steps[|steps| - 1])
  }

  /** The delegation graph: every live link. */
  function Live(st: State): map<Scope, Scope> {
    map s | s in st.links && st.links[s].live :: st.links[s].parent
  }

  /** The live links set before the clock stood at `bound`. */
  function Older(st: State, bound: nat): map<Scope, Scope> {
    map s | s in st.links && st.links[s].live && st.links[s].stamp < bound :: st.links[s].parent
  }

  /** Every link, severed or not. */
  function Raw(st: State): map<Scope, Scope> {
    map s | s in st.links :: st.links[s].parent
  }

  // ------------------------------------------------------------------
  // The invariant
  // ------------------------------------------------------------------

  ghost predicate StampsDistinct(st: State) {
    && (forall s :: s in st.links ==> st.links[s].stamp < st.clock)
    && (forall s, u :: s in st.links && u in st.links && s != u ==> st.links[s].stamp != st.links[u].stamp)
  }

  /** The thread's call set the link of `s` and will still see the walk through `x`. */
  predicate Watches(pc: Pc, s: Scope, x: Scope) {
    && Unsettled(pc)
    && pc.self == s
    && (pc.Second? || pc.SecondLive? ==> pc.cursor == x)
  }

  /** Some call is still walking the first `n` edges of the path from `p` in `g`
      on behalf of `s`. */
  ghost predicate Guarded(st: State, g: map<Scope, Scope>, p: Scope, s: Scope, n: nat) {
    exists t, k: nat ::
      t in st.pcs && k <= n && Walk(g, p, k).Some? && Watches(st.pcs[t], s, Walk(g, p, k).value)
  }

  /** If live older links lead from the parent of `s` back to `s`, the call that
      set the link of `s` is still walking and stands on that path. */
  ghost predicate CyclesGuarded(st: State) {
    forall s, n: nat ::
      s in st.links && st.links[s].live && Walk(Older(st, st.links[s].stamp), st.links[s].parent, n) == Some(s)
      ==> Guarded(st, Older(st, st.links[s].stamp), st.links[s].parent, s, n)
  }

  /** The first `m` edges from `p`, severed links included, avoid `s` and end at `e`. */
  ghost predicate Passed(st: State, p: Scope, m: nat, e: Scope, s: Scope) {
    Walk(Raw(st), p, m) == Some(e) && forall k: nat :: k < m ==> Walk(Raw(st), p, k) != Some(s)
  }

  /** The scope at which a first walk ended has been linked since it was read as absent. */
  predicate LinkedSince(st: State, end: WalkEnd) {
    end.Absent? && end.scope in st.links && end.at <= st.links[end.scope].stamp
  }

  ghost predicate EndHolds(st: State, end: WalkEnd) {
    match end
    case Absent(e, at) => at <= st.clock && (e in st.links ==> at <= st.links[e].stamp)
    case Severed(e) => e in st.links && !st.links[e].live
  }

  ghost predicate FirstWalkDone(st: State, s: Scope, p: Scope, end: WalkEnd) {
    && EndHolds(st, end)
    && end.scope != s
    && exists m: nat :: Passed(st, p, m, end.scope, s)
  }

  /** A second walk is still on the path of the first one, or the place where the
      first one stopped has been linked since. */
  ghost predicate OnFirstPath(st: State, s: Scope, p: Scope, c: Scope, end: WalkEnd) {
    || LinkedSince(st, end)
    || exists k: nat, m: nat :: k <= m && Walk(Raw(st), p, k) == Some(c) && Passed(st, p, m, end.scope, s)
  }

  ghost predicate PcHolds(st: State, pc: Pc) {
    match pc
    case Check(_, _) => true
    case First(s, p, c) => exists m: nat :: Passed(st, p, m, c, s)
    case FirstLive(s, p, c) => c != s && c in st.links && exists m: nat :: Passed(st, p, m, c, s)
    case SetLink(s, p, e) => FirstWalkDone(st, s, p, e)
    case Second(s, p, c, e) =>
      s in st.links && e.scope != s && EndHolds(st, e) && if c == s then LinkedSince(st, e) else OnFirstPath(st, s, p, c, e)
    case SecondLive(s, p, c, e) =>
      s in st.links && e.scope != s && EndHolds(st, e) && c != s && c in st.links && OnFirstPath(st, s, p, c, e)
    case Reload(s, p, e) => s in st.links && e.scope != s && LinkedSince(st, e)
    case Sever(s, p, e) => s in st.links && e.scope != s && LinkedSince(st, e)
    case Returned(_, _) => true
    case Cycled(s, p, e) => s in st.links && !st.links[s].live && e.scope != s && LinkedSince(st, e)
  }

  ghost predicate Inv(st: State) {
    && StampsDistinct(st)
    && CyclesGuarded(st)
    && forall t :: t in st.pcs ==> PcHolds(st, st.pcs[t])
  }

  // ------------------------------------------------------------------
  // What no step undoes
  // ------------------------------------------------------------------

  /** No link is retargeted or revived, no accessor is replaced, and links appear
      only with later stamps. */
  ghost predicate Extends(st: State, st': State) {
    && st.clock <= st'.clock
    && (forall s :: s in st.links ==> s in st'.links && st'.links[s].parent == st.links[s].parent && st'.links[s].stamp == st.links[s].stamp)
    && (forall s :: s in st.links && !st.links[s].live ==> !st'.links[s].live)
    && (forall s :: s in st'.links && s !in st.links ==> st.clock <= st'.links[s].stamp)
    && (forall s :: s in st.accessors ==> s in st'.accessors && st'.accessors[s] == st.accessors[s])
  }

  lemma PassedStable(st: State, st': State, p: Scope, m: nat, e: Scope, s: Scope)
    requires Extends(st, st') && Passed(st, p, m, e, s)
    ensures Passed(st', p, m, e, s)
  {
    WalkMonotone(Raw(st), Raw(st'), p, m);
    forall k: nat | k < m
      ensures Walk(Raw(st'), p, k) != Some(s)
    {
      WalkPrefix(Raw(st), p, k, m);
      WalkMonotone(Raw(st), Raw(st'), p, k);
    }
  }

  /** What is known of a call that does not move stays known. */
  lemma PcHoldsStable(st: State, st': State, pc: Pc)
    requires Extends(st, st') && PcHolds(st, pc)
    ensures PcHolds(st', pc)
  {
    match pc
    case Check(_, _) =>
    case First(s, p, c) =>
      var m: nat :| Passed(st, p, m, c, s);
      PassedStable(st, st', p, m, c, s);
    case FirstLive(s, p, c) =>
      var m: nat :| Passed(st, p, m, c, s);
      PassedStable(st, st', p, m, c, s);
    case SetLink(s, p, e) =>
      var m: nat :| Passed(st, p, m, e.scope, s);
      PassedStable(st, st', p, m, e.scope, s);
    case Second(s, p, c, e) =>
      if c != s { OnFirstPathStable(st, st', s, p, c, e); }
    case SecondLive(s, p, c, e) =>
      OnFirstPathStable(st, st', s, p, c, e);
    case Reload(_, _, _) =>
    case Sever(_, _, _) =>
    case Returned(_, _) =>
    case Cycled(_, _, _) =>
  }

  lemma OnFirstPathStable(st: State, st': State, s: Scope, p: Scope, c: Scope, e: WalkEnd)
    requires Extends(st, st') && OnFirstPath(st, s, p, c, e)
    ensures OnFirstPath(st', s, p, c, e)
  {
    if !LinkedSince(st, e) {
      var k: nat, m: nat :| k <= m && Walk(Raw(st), p, k) == Some(c) && Passed(st, p, m, e.scope, s);
      PassedStable(st, st', p, m, e.scope, s);
      WalkMonotone(Raw(st), Raw(st'), p, k);
    }
  }

  /** What a step does to the links: nothing, or it sets one absent link, or it
      severs one. */
  predicate LinksSame(st: State, st': State) {
    st'.links == st.links && st'.clock == st.clock
  }

  predicate LinkSet(st: State, st': State, s: Scope, p: Scope) {
    s !in st.links && st'.links == st.links[s := Link(p, true, st.clock)] && st'.clock == st.clock + 1
  }

  predicate LinkSevered(st: State, st': State, s: Scope) {
    s in st.links && st'.links == st.links[s := st.links[s].(live := false)] && st'.clock == st.clock
  }

  lemma LinksAfter(st: State, t: Thread)
    requires t in st.pcs
    ensures var st' := Next(st, Advance(t)); var pc := st.pcs[t];
            st'.accessors == st.accessors &&
            match pc
            case SetLink(s, p, e) =>
              if s in st.links then LinksSame(st, st')
              else LinkSet(st, st', s, p) && st'.pcs == st.pcs[t := Second(s, p, p, e)]
            case Sever(s, p, e) => LinksSame(st, st') || LinkSevered(st, st', s)
            case _ => LinksSame(st, st')
  {}

  lemma OtherPcs(st: State, t: Thread, u: Thread)
    requires u != t && u in st.pcs
    ensures u in Next(st, Advance(t)).pcs && Next(st, Advance(t)).pcs[u] == st.pcs[u]
  {}

  lemma NextExtends(st: State, step: Step)
    requires StampsDistinct(st)
    ensures Extends(st, Next(st, step)) && StampsDistinct(Next(st, step))
  {
    if step.Advance? && step.t in st.pcs {
      LinksAfter(st, step.t);
    }
  }

  // ------------------------------------------------------------------
  // Each step keeps the invariant
  // ------------------------------------------------------------------

  lemma PassedStep(st: State, p: Scope, m: nat, c: Scope, s: Scope)
    requires Passed(st, p, m, c, s) && c != s && c in st.links
    ensures Passed(st, p, m + 1, st.links[c].parent, s)
  {
    WalkStep(Raw(st), p, m);
  }

  /** The call that moves keeps what is known of it. */
  lemma AdvanceHolds(st: State, t: Thread)
    requires Inv(st) && t in st.pcs
    ensures var st' := Next(st, Advance(t)); t in st'.pcs && PcHolds(st', st'.pcs[t])
  {
    match st.pcs[t]
    case Check(s, p) =>
      assert Passed(Next(st, Advance(t)), p, 0, p, s);
    case First(_, _, _) => FirstHolds(st, t);
    case FirstLive(_, _, _) => FirstLiveHolds(st, t);
    case SetLink(_, _, _) => SetLinkHolds(st, t);
    case Second(_, _, _, _) => SecondHolds(st, t);
    case SecondLive(_, _, _, _) => SecondLiveHolds(st, t);
    case Reload(_, _, _) =>
    case Sever(_, _, _) => SeverHolds(st, t);
    case Returned(_, _) =>
    case Cycled(_, _, _) =>
  }

  lemma FirstHolds(st: State, t: Thread)
    requires StampsDistinct(st) && t in st.pcs && st.pcs[t].First? && PcHolds(st, st.pcs[t])
    ensures var st' := Next(st, Advance(t)); t in st'.pcs && PcHolds(st', st'.pcs[t])
  {
    var First(s, p, c) := st.pcs[t];
    var st' := Next(st, Advance(t));
    var m: nat :| Passed(st, p, m, c, s);
    NextExtends(st, Advance(t));
    PassedStable(st, st', p, m, c, s);
    if c != s && c !in st.links {
      assert st'.pcs[t] == SetLink(s, p, Absent(c, st.clock));
      assert EndHolds(st', Absent(c, st.clock));
    }
  }

  lemma FirstLiveHolds(st: State, t: Thread)
    requires StampsDistinct(st) && t in st.pcs && st.pcs[t].FirstLive? && PcHolds(st, st.pcs[t])
    ensures var st' := Next(st, Advance(t)); t in st'.pcs && PcHolds(st', st'.pcs[t])
  {
    var FirstLive(s, p, c) := st.pcs[t];
    var st' := Next(st, Advance(t));
    var m: nat :| Passed(st, p, m, c, s);
    PassedStep(st, p, m, c, s);
    NextExtends(st, Advance(t));
    PassedStable(st, st', p, m, c, s);
    PassedStable(st, st', p, m + 1, st.links[c].parent, s);
    if !st.links[c].live {
      assert st'.pcs[t] == SetLink(s, p, Severed(c));
      assert EndHolds(st', Severed(c));
    }
  }

  lemma SetLinkHolds(st: State, t: Thread)
    requires StampsDistinct(st) && t in st.pcs && st.pcs[t].SetLink? && PcHolds(st, st.pcs[t])
    ensures var st' := Next(st, Advance(t)); t in st'.pcs && PcHolds(st', st'.pcs[t])
  {
    var SetLink(s, p, e) := st.pcs[t];
    var st' := Next(st, Advance(t));
    LinksAfter(st, t);
    if s !in st.links {
      NextExtends(st, Advance(t));
      PcHoldsStable(st, st', st.pcs[t]);
      var m: nat :| Passed(st', p, m, e.scope, s);
      assert Walk(Raw(st'), p, 0) == Some(p);
      assert OnFirstPath(st', s, p, p, e);
    }
  }

  lemma SecondHolds(st: State, t: Thread)
    requires StampsDistinct(st) && t in st.pcs && st.pcs[t].Second? && PcHolds(st, st.pcs[t])
    ensures var st' := Next(st, Advance(t)); t in st'.pcs && PcHolds(st', st'.pcs[t])
  {
    NextExtends(st, Advance(t));
    PcHoldsStable(st, Next(st, Advance(t)), st.pcs[t]);
  }

  lemma SecondLiveHolds(st: State, t: Thread)
    requires StampsDistinct(st) && t in st.pcs && st.pcs[t].SecondLive? && PcHolds(st, st.pcs[t])
    ensures var st' := Next(st, Advance(t)); t in st'.pcs && PcHolds(st', st'.pcs[t])
  {
    var SecondLive(s, p, c, e) := st.pcs[t];
    var st' := Next(st, Advance(t));
    NextExtends(st, Advance(t));
    PcHoldsStable(st, st', st.pcs[t]);
    if st.links[c].live {
      SecondWalkStep(st, s, p, c, e);
      OnFirstPathStable(st, st', s, p, st.links[c].parent, e);
    }
  }

  lemma SeverHolds(st: State, t: Thread)
    requires StampsDistinct(st) && t in st.pcs && st.pcs[t].Sever? && PcHolds(st, st.pcs[t])
    ensures var st' := Next(st, Advance(t)); t in st'.pcs && PcHolds(st', st'.pcs[t])
  {
    NextExtends(st, Advance(t));
  }

  /** A second walk that follows a live link either stays on the first walk's path
      or leaves it through a link that the first walk did not see. */
  lemma SecondWalkStep(st: State, s: Scope, p: Scope, c: Scope, e: WalkEnd)
    requires c in st.links && st.links[c].live && c != s && e.scope != s
    requires EndHolds(st, e) && OnFirstPath(st, s, p, c, e)
    ensures LinkedSince(st, e) || (st.links[c].parent != s && OnFirstPath(st, s, p, st.links[c].parent, e))
  {
    if !LinkedSince(st, e) {
      var k: nat, m: nat :| k <= m && Walk(Raw(st), p, k) == Some(c) && Passed(st, p, m, e.scope, s);
      WalkStep(Raw(st), p, k);
      if k < m {
        assert Walk(Raw(st), p, k + 1) == Some(st.links[c].parent);
      }
    }
  }

  /** No step adds an edge to the graph of links older than a link that is set. */
  lemma OlderShrinks(st: State, st': State, bound: nat)
    requires Extends(st, st') && bound <= st.clock
    ensures forall x :: x in Older(st', bound) ==> x in Older(st, bound) && Older(st, bound)[x] == Older(st', bound)[x]
  {}

  /** Where the guard of a path stands after a step: it stays, or it follows the edge. */
  lemma WatchMoves(st: State, step: Step, t: Thread, s: Scope, x: Scope)
    requires t in st.pcs && Watches(st.pcs[t], s, x)
    requires x != s ==> x in st.links && st.links[x].live
    requires s in st.links && PcHolds(st, st.pcs[t])
    ensures var st' := Next(st, step);
            || (t in st'.pcs && Watches(st'.pcs[t], s, x))
            || (x != s && t in st'.pcs && Watches(st'.pcs[t], s, st.links[x].parent))
            || (s in st'.links && !st'.links[s].live)
  {
    var st' := Next(st, step);
    match step
    case Install(_, _) =>
    case Begin(_, _, _) =>
    case Advance(u) =>
      if u == t {
        match st.pcs[t] {
          case Second(_, _, _, _) =>
          case SecondLive(_, p, c, e) =>
            assert st'.pcs[t] == Second(s, p, st.links[c].parent, e);
          case Reload(_, _, _) =>
          case Sever(_, _, _) =>
        }
      } else {
        OtherPcs(st, u, t);
      }
  }

  /** The call that guards a path still guards it after any one step. */
  lemma GuardMoves(st: State, step: Step, s: Scope, n: nat)
    requires Inv(st) && s in st.links && Extends(st, Next(st, step))
    requires var st' := Next(st, step);
             st'.links[s].live && Walk(Older(st', st.links[s].stamp), st.links[s].parent, n) == Some(s)
    requires Guarded(st, Older(st, st.links[s].stamp), st.links[s].parent, s, n)
    ensures Guarded(Next(st, step), Older(Next(st, step), st.links[s].stamp), st.links[s].parent, s, n)
  {
    var st' := Next(st, step);
    var p := st.links[s].parent;
    var g, g' := Older(st, st.links[s].stamp), Older(st', st.links[s].stamp);
    var t, k: nat :| t in st.pcs && k <= n && Walk(g, p, k).Some? && Watches(st.pcs[t], s, Walk(g, p, k).value);
    OlderShrinks(st, st', st.links[s].stamp);
    WalkPrefix(g', p, k, n);
    WalkMonotone(g', g, p, k);
    var x := Walk(g, p, k).value;
    if x != s {
      OnPathHasEdge(g', p, k, n, s);
    }
    WatchMoves(st, step, t, s, x);
  }

  lemma NextCyclesGuarded(st: State, step: Step)
    requires Inv(st)
    ensures CyclesGuarded(Next(st, step))
  {
    var st' := Next(st, step);
    NextExtends(st, step);
    forall s, n: nat | && s in st'.links && st'.links[s].live
                       && Walk(Older(st', st'.links[s].stamp), st'.links[s].parent, n) == Some(s)
      ensures Guarded(st', Older(st', st'.links[s].stamp), st'.links[s].parent, s, n)
    {
      if s in st.links {
        var g := Older(st, st.links[s].stamp);
        OlderShrinks(st, st', st.links[s].stamp);
        WalkMonotone(Older(st', st.links[s].stamp), g, st.links[s].parent, n);
        GuardMoves(st, step, s, n);
      } else {
        NewLinkGuarded(st, step, s);
      }
    }
  }

  /** The call that sets a link starts its second walk at the parent. */
  lemma NewLinkGuarded(st: State, step: Step, s: Scope)
    requires s !in st.links && s in Next(st, step).links
    ensures forall g, n: nat :: Guarded(Next(st, step), g, Next(st, step).links[s].parent, s, n)
  {
    var st' := Next(st, step);
    var t := step.t;
    LinksAfter(st, t);
    var p := st'.links[s].parent;
    assert st'.pcs[t].Second? && st'.pcs[t].self == s && st'.pcs[t].cursor == p;
    forall g, n: nat ensures Guarded(st', g, p, s, n) {
      assert Walk(g, p, 0) == Some(p);
    }
  }

  /** A node on a walk to `s` that is not `s` itself has its edge in the graph. */
  lemma OnPathHasEdge(g: map<Scope, Scope>, p: Scope, k: nat, n: nat, s: Scope)
    requires k <= n && Walk(g, p, n) == Some(s) && Walk(g, p, k).Some? && Walk(g, p, k).value != s
    ensures k < n && Walk(g, p, k).value in g && Walk(g, p, k + 1) == Some(g[Walk(g, p, k).value])
  {
    WalkPrefix(g, p, k + 1, n);
    WalkStep(g, p, k);
  }

  lemma NextInv(st: State, step: Step)
    requires Inv(st)
    ensures Inv(Next(st, step))
  {
    var st' := Next(st, step);
    NextExtends(st, step);
    NextCyclesGuarded(st, step);
    forall t | t in st'.pcs
      ensures PcHolds(st', st'.pcs[t])
    {
      match step
      case Begin(u, _, _) =>
        if u != t || st' == st { PcHoldsStable(st, st', st.pcs[t]); }
      case Install(_, _) =>
        PcHoldsStable(st, st', st.pcs[t]);
      case Advance(u) =>
        if u == t && t in st.pcs {
          AdvanceHolds(st, t);
        } else {
          if u in st.pcs && t in st.pcs { OtherPcs(st, u, t); }
          OnlyMoverAppears(st, u, t);
          PcHoldsStable(st, st', st.pcs[t]);
        }
    }
  }

  lemma OnlyMoverAppears(st: State, u: Thread, t: Thread)
    requires t in Next(st, Advance(u)).pcs
    ensures t in st.pcs
  {}
}
