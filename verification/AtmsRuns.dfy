/** Properties of whole runs of the engine's operations. */
module AtmsRuns {
  import opened AtmsLogic
  import opened AtmsCascade
  import opened AtmsEngine

  // ----- invalidations from exact labels

  ghost function InvalidateAll(g: Graph, ids: seq<Id>): Graph
  {
    if ids == [] then g else Invalidated(InvalidateAll(g, ids[..|ids| - 1]), ids[|ids| - 1])
  }

  /** The assumptions among `ids` retracted, with no label propagated. */
  function Retracted(g: Graph, ids: set<Id>): Graph
  {
    map n | n in g :: if n in ids && g[n].kind.Assumption? then g[n].(isValid := false) else g[n]
  }

  lemma InvalidatedStep(g: Graph, n: Id)
    requires Exact(g)
    requires n in g ==> !g[n].kind.Derived?
    ensures Exact(Invalidated(g, n))
    ensures SameLogic(Invalidated(g, n), Retracted(g, {n}))
  {
    if n in g && g[n].kind.Assumption? {
      AssumptionPassKeepsExact(g, n);
      CascadeIsClosed(g, n);
      forall x | x in Cascade(g, n) && x != n ensures g[x].kind.Derived? {
        CascadeMembers(g, n, x);
      }
    }
  }

  lemma RetractedTwice(g: Graph, h: Graph, k: Graph, ids: set<Id>, n: Id)
    requires SameLogic(h, Retracted(g, ids)) && SameLogic(k, Retracted(h, {n}))
    ensures SameLogic(k, Retracted(g, ids + {n}))
  {
  }

  lemma {:induction false} InvalidateAllExact(g: Graph, ids: seq<Id>)
    requires Exact(g)
    requires forall n :: n in ids && n in g ==> !g[n].kind.Derived?
    ensures Exact(InvalidateAll(g, ids))
    ensures SameLogic(InvalidateAll(g, ids), Retracted(g, set n | n in ids))
  {
    if ids != [] {
      var front, n := ids[..|ids| - 1], ids[|ids| - 1];
      var h := InvalidateAll(g, front);
      InvalidateAllExact(g, front);
      InvalidatedStep(h, n) by {
        assert n in g && n in h ==> SameNode(h[n], Retracted(g, (set x | x in front))[n]);
      }
      RetractedTwice(g, h, Invalidated(h, n), (set x | x in front), n);
      assert (set x | x in ids) == (set x | x in front) + {n};
    }
  }

  /** Exact labels are determined by the justifications and the assumptions. */
  lemma ExactIsUnique(g: Graph, h: Graph)
    requires SameLogic(g, h) && Exact(g) && Exact(h)
    ensures g == h
  {
  }

  /** Incremental equals recomputed: any sequence of assumption invalidations from exact labels
      gives the graph a full re-evaluation of the retracted assumptions would give. */
  lemma IncrementalIsRecompute(g: Graph, ids: seq<Id>)
    requires Exact(g)
    requires forall n :: n in ids && n in g ==> !g[n].kind.Derived?
    ensures InvalidateAll(g, ids) == Evaluated(Retracted(g, set n | n in ids))
    ensures Evaluated(InvalidateAll(g, ids)) == InvalidateAll(g, ids)
  {
    var h, r := InvalidateAll(g, ids), Retracted(g, set n | n in ids);
    InvalidateAllExact(g, ids);
    EvaluatedIsExact(r);
    ExactIsUnique(h, Evaluated(r));
    EvaluatedFixpoints(h);
  }

  /** Order and repetition of the invalidations do not matter. */
  lemma InvalidationOrderIrrelevant(g: Graph, ids: seq<Id>, ids': seq<Id>)
    requires Exact(g)
    requires forall n :: n in ids && n in g ==> !g[n].kind.Derived?
    requires forall n :: n in ids <==> n in ids'
    ensures InvalidateAll(g, ids) == InvalidateAll(g, ids')
  {
    IncrementalIsRecompute(g, ids);
    IncrementalIsRecompute(g, ids');
    assert (set n | n in ids) == (set n | n in ids');
  }

  // ----- contradictions

  datatype Op = Invalidate(n: Id) | Contradict(a: Id, b: Id, strategy: string)

  datatype Beliefs = Beliefs(nodes: Graph, nogoods: seq<(Id, Id)>)

  ghost function Apply(s: Beliefs, op: Op): Beliefs
  {
    match op
    case Invalidate(n) => s.(nodes := Invalidated(s.nodes, n))
    case Contradict(a, b, strategy) =>
      Beliefs(Contradicted(s.nodes, a, b, strategy), s.nogoods + [(a, b)])
  }

  ghost function Run(s: Beliefs, ops: seq<Op>): Beliefs
  {
    if ops == [] then s else Apply(Run(s, ops[..|ops| - 1]), ops[|ops| - 1])
  }

  predicate KnownStrategy(strategy: string)
  {
    strategy in {"invalidate_a", "invalidate_b", "invalidate_both"}
  }

  predicate JointlyValid(g: Graph, a: Id, b: Id)
  {
    a in g && b in g && g[a].isValid && g[b].isValid
  }

  predicate IsPremise(g: Graph, n: Id)
  {
    n in g && g[n].kind.Premise?
  }

  /** Kinds are kept, labels only go from valid to invalid, and a PREMISE keeps its label. */
  ghost predicate Shrinks(g: Graph, h: Graph)
  {
    && (forall n :: n in g ==> n in h && h[n].kind == g[n].kind && (h[n].isValid ==> g[n].isValid))
    && (forall n :: n in g && g[n].kind.Premise? ==> h[n].isValid == g[n].isValid)
    && (forall n :: n in h && n !in g ==> !h[n].kind.Premise?)
  }

  lemma InvalidatedShrinks(g: Graph, n: Id)
    ensures Shrinks(g, Invalidated(g, n)) && Invalidated(g, n).Keys == g.Keys
    ensures forall x :: x in g ==> Invalidated(g, n)[x].justs == g[x].justs
    ensures n in g && !g[n].kind.Premise? ==> !Invalidated(g, n)[n].isValid
  {
  }

  lemma JustifiedShrinks(g: Graph, c: Id, ants: set<Id>)
    ensures Shrinks(g, Justified(g, c, ants))
    ensures ants <= Justified(g, c, ants).Keys && c in Justified(g, c, ants)
    ensures forall n :: n in Justified(g, c, ants) && n !in g && n != c ==> Justified(g, c, ants)[n].kind.Assumption?
    ensures forall n :: n in ants && n != c ==> (Justified(g, c, ants)[n].isValid <==> (n in g ==> g[n].isValid))
    ensures Justified(g, c, ants)[c].justs == (if c in g then g[c].justs else []) + [ants]
  {
  }

  lemma ShrinksTransitive(g: Graph, h: Graph, k: Graph)
    requires Shrinks(g, h) && Shrinks(h, k)
    ensures Shrinks(g, k)
  {
  }

  lemma ResolvedShrinks(h: Graph, a: Id, b: Id, strategy: string)
    requires a in h && b in h
    ensures var r := Resolved(h, a, b, strategy);
            Shrinks(h, r) && r.Keys == h.Keys && forall x :: x in h ==> r[x].justs == h[x].justs
  {
    if h[a].isValid && h[b].isValid {
      if strategy == "invalidate_a" {
        InvalidatedShrinks(h, a);
      } else if strategy == "invalidate_b" {
        InvalidatedShrinks(h, b);
      } else if strategy == "invalidate_both" {
        InvalidatedShrinks(h, a);
        InvalidatedShrinks(Invalidated(h, a), b);
        ShrinksTransitive(h, Invalidated(h, a), Invalidated(Invalidated(h, a), b));
      }
    }
  }

  lemma ContradictedShrinks(g: Graph, a: Id, b: Id, strategy: string)
    ensures Shrinks(g, Contradicted(g, a, b, strategy))
    ensures var h, r := Justified(g, "FALSE", {a, b}), Contradicted(g, a, b, strategy);
            Shrinks(h, r) && r.Keys == h.Keys && forall x :: x in h ==> r[x].justs == h[x].justs
  {
    var h := Justified(g, "FALSE", {a, b});
    JustifiedShrinks(g, "FALSE", {a, b});
    ResolvedShrinks(h, a, b, strategy);
    ShrinksTransitive(g, h, Resolved(h, a, b, strategy));
  }

  /** Over every run validity only shrinks and no PREMISE is ever invalidated. */
  lemma {:induction false} RunShrinks(s: Beliefs, ops: seq<Op>)
    ensures Shrinks(s.nodes, Run(s, ops).nodes)
  {
    if ops != [] {
      var s' := Run(s, ops[..|ops| - 1]);
      RunShrinks(s, ops[..|ops| - 1]);
      match ops[|ops| - 1]
      case Invalidate(n) => InvalidatedShrinks(s'.nodes, n);
      case Contradict(a, b, strategy) => ContradictedShrinks(s'.nodes, a, b, strategy);
    }
  }

  /** Registering a contradiction leaves the pair jointly valid exactly when it was jointly valid
      and the strategy is unknown or names only PREMISEs. */
  lemma ContradictionResolvedIff(g: Graph, a: Id, b: Id, strategy: string)
    ensures JointlyValid(Contradicted(g, a, b, strategy), a, b) <==>
            (a in g ==> g[a].isValid) && (b in g ==> g[b].isValid) &&
            match strategy
            case "invalidate_a" => IsPremise(g, a)
            case "invalidate_b" => IsPremise(g, b)
            case "invalidate_both" => IsPremise(g, a) && IsPremise(g, b)
            case _ => true
  {
    var h := Justified(g, "FALSE", {a, b});
    InvalidatedShrinks(h, a);
    InvalidatedShrinks(h, b);
    InvalidatedShrinks(Invalidated(h, a), b);
  }

  /** A known strategy that has a target other than a PREMISE. */
  ghost predicate Resolvable(g: Graph, op: Op)
  {
    op.Contradict? ==>
      match op.strategy
      case "invalidate_a" => !IsPremise(g, op.a)
      case "invalidate_b" => !IsPremise(g, op.b)
      case "invalidate_both" => !(IsPremise(g, op.a) && IsPremise(g, op.b))
      case _ => false
  }

  ghost predicate NogoodsResolved(s: Beliefs)
  {
    forall p :: p in s.nogoods ==> p.0 in s.nodes && p.1 in s.nodes && !JointlyValid(s.nodes, p.0, p.1)
  }

  /** Every registered pair is, and stays, not jointly valid. */
  lemma {:induction false} NogoodsStayResolved(s: Beliefs, ops: seq<Op>)
    requires NogoodsResolved(s)
    requires forall i :: 0 <= i < |ops| ==> Resolvable(s.nodes, ops[i])
    ensures NogoodsResolved(Run(s, ops))
  {
    if ops != [] {
      var front, op := ops[..|ops| - 1], ops[|ops| - 1];
      var s' := Run(s, front);
      NogoodsStayResolved(s, front);
      RunShrinks(s, front);
      match op
      case Invalidate(n) => InvalidatedShrinks(s'.nodes, n);
      case Contradict(a, b, strategy) =>
        assert Resolvable(s.nodes, op);
        ContradictedShrinks(s'.nodes, a, b, strategy);
        ContradictionResolvedIff(s'.nodes, a, b, strategy);
    }
  }

  /** Every justification of FALSE rests on a retracted assumption. */
  ghost predicate FalseBlocked(g: Graph)
  {
    "FALSE" in g ==>
      g["FALSE"].kind.Derived? &&
      forall j :: 0 <= j < |g["FALSE"].justs| ==> Retracts(g, g["FALSE"].justs[j])
  }

  ghost predicate Retracts(g: Graph, ants: set<Id>)
  {
    exists n :: n in ants && n in g && g[n].kind.Assumption? && !g[n].isValid
  }

  lemma BlockedIsUnprovable(g: Graph, path: set<Id>)
    requires FalseBlocked(g)
    ensures !Provable(g, "FALSE", path)
  {
    if "FALSE" in g {
      var justs, p := g["FALSE"].justs, path + {"FALSE"};
      forall j | 0 <= j < |justs| ensures !AllProvable(g, justs[j], p) {
        assert Retracts(g, justs[j]);
        var n :| n in justs[j] && n in g && g[n].kind.Assumption? && !g[n].isValid;
        assert !Provable(g, n, p);
      }
    }
  }

  lemma BlockedShrinks(g: Graph, h: Graph)
    requires FalseBlocked(g) && Shrinks(g, h)
    requires h.Keys == g.Keys && forall x :: x in g ==> h[x].justs == g[x].justs
    ensures FalseBlocked(h)
  {
  }

  lemma BlockedContradiction(g: Graph, a: Id, b: Id, strategy: string)
    requires FalseBlocked(g) && KnownStrategy(strategy)
    requires AssumptionOrNew(g, a) && AssumptionOrNew(g, b)
    ensures FalseBlocked(Contradicted(g, a, b, strategy))
  {
    var h, r := Justified(g, "FALSE", {a, b}), Contradicted(g, a, b, strategy);
    ContradictedShrinks(g, a, b, strategy);
    ContradictionResolvedIff(g, a, b, strategy);
    var justs := if "FALSE" in g then g["FALSE"].justs else [];
    assert h["FALSE"].justs == justs + [{a, b}];
    forall j | 0 <= j < |r["FALSE"].justs| ensures Retracts(r, r["FALSE"].justs[j]) {
      if j < |justs| {
        assert Retracts(g, justs[j]);
        var n :| n in justs[j] && n in g && g[n].kind.Assumption? && !g[n].isValid;
        assert r[n].kind.Assumption? && !r[n].isValid;
      } else {
        var n := if r[a].isValid then b else a;
        assert n in {a, b} && r[n].kind.Assumption? && !r[n].isValid;
      }
    }
  }

  predicate AssumptionOrNew(g: Graph, n: Id)
  {
    n != "FALSE" && (n in g ==> g[n].kind.Assumption?)
  }

  ghost predicate ResolvableAssumptions(g: Graph, op: Op)
  {
    op.Contradict? ==>
      KnownStrategy(op.strategy) && AssumptionOrNew(g, op.a) && AssumptionOrNew(g, op.b)
  }

  /** New nodes of a run are assumptions, except FALSE. */
  lemma {:induction false} NewNodesAreAssumptions(s: Beliefs, ops: seq<Op>)
    ensures forall n :: n in Run(s, ops).nodes && n !in s.nodes && n != "FALSE" ==> Run(s, ops).nodes[n].kind.Assumption?
  {
    if ops != [] {
      var front := ops[..|ops| - 1];
      NewNodesAreAssumptions(s, front);
      var s' := Run(s, front);
      match ops[|ops| - 1]
      case Invalidate(n) => InvalidatedShrinks(s'.nodes, n);
      case Contradict(a, b, strategy) => ContradictedShrinks(s'.nodes, a, b, strategy);
    }
  }

  /** For contradictions between assumptions, FALSE is never provable in any run. */
  lemma {:induction false} FalseNeverProvable(s: Beliefs, ops: seq<Op>, path: set<Id>)
    requires FalseBlocked(s.nodes)
    requires forall i :: 0 <= i < |ops| ==> ResolvableAssumptions(s.nodes, ops[i])
    ensures FalseBlocked(Run(s, ops).nodes)
    ensures !Provable(Run(s, ops).nodes, "FALSE", path)
  {
    if ops != [] {
      var front, op := ops[..|ops| - 1], ops[|ops| - 1];
      var s' := Run(s, front);
      FalseNeverProvable(s, front, path);
      RunShrinks(s, front);
      NewNodesAreAssumptions(s, front);
      match op
      case Invalidate(n) =>
        InvalidatedShrinks(s'.nodes, n);
        BlockedShrinks(s'.nodes, Invalidated(s'.nodes, n));
      case Contradict(a, b, strategy) =>
        assert ResolvableAssumptions(s.nodes, op);
        BlockedContradiction(s'.nodes, a, b, strategy);
    }
    BlockedIsUnprovable(Run(s, ops).nodes, path);
  }

  // ----- does registering a contradiction keep the labels exact?

  /** Everything labelled valid besides a new consequent `c` is supported after `c` is added. */
  lemma BelievedStaysSupported(g: Graph, c: Id, ants: set<Id>)
    requires c !in g && c !in ants && AntecedentsKnown(g) && Exact(g)
    ensures var h := Justified(g, c, ants);
            forall n :: n in h && n != c && h[n].isValid ==> n in LeastModel(h)
  {
  }

  lemma NothingElseSupported(g: Graph, c: Id, ants: set<Id>)
    requires c !in g && c !in ants && AntecedentsKnown(g) && Exact(g)
    ensures var h := Justified(g, c, ants);
            forall n :: n in h && n != c && n in LeastModel(h) ==> h[n].isValid
  {
    var h := Justified(g, c, ants);
    var m := set n | n in h && (n == c || h[n].isValid);
    LeastModelIsClosed(g);
    assert Closed(h, m) by {
      forall n | n in h && Fires(h, n, m) ensures n in m {
        if n in g {
          assert h[n] == g[n];
          if g[n].kind.Derived? {
            var j :| 0 <= j < |h[n].justs| && h[n].justs[j] <= m;
            assert forall x :: x in g[n].justs[j] ==> x in g && h[x] == g[x];
            assert g[n].justs[j] <= LeastModel(g);
          }
          assert Fires(g, n, LeastModel(g));
        }
      }
    }
    LeastModelIsLeast(h, m);
  }

  predicate AllValid(g: Graph, s: set<Id>)
  {
    forall n :: n in s ==> n in g && g[n].isValid
  }

  /** A new consequent keeps the labels exact exactly when its first justification fires. */
  lemma JustifiedExactIff(g: Graph, c: Id, ants: set<Id>)
    requires c !in g && c !in ants && AntecedentsKnown(g) && Exact(g)
    ensures Exact(Justified(g, c, ants)) <==> AllValid(Justified(g, c, ants), ants)
  {
    var h := Justified(g, c, ants);
    BelievedStaysSupported(g, c, ants);
    NothingElseSupported(g, c, ants);
    LeastModelIsFixpoint(h, c);
    assert h[c].justs == [ants];
    assert c in LeastModel(h) <==> h[c].justs[0] <= LeastModel(h);
  }

  lemma ResolvedKeepsExact(h: Graph, a: Id, b: Id, strategy: string)
    requires Exact(h) && a in h && b in h && h[a].kind.Assumption? && h[b].kind.Assumption?
    ensures Exact(Resolved(h, a, b, strategy))
  {
    if h[a].isValid && h[b].isValid {
      if strategy == "invalidate_a" {
        InvalidatedStep(h, a);
      } else if strategy == "invalidate_b" {
        InvalidatedStep(h, b);
      } else if strategy == "invalidate_both" {
        InvalidatedStep(h, a);
        InvalidatedShrinks(h, a);
        InvalidatedStep(Invalidated(h, a), b);
      }
    }
  }

  /** FALSE is born labelled valid, so the first contradiction between assumptions keeps the labels
      exact exactly when both were valid, that is, when a pass is run. */
  lemma FirstContradiction(g: Graph, a: Id, b: Id, strategy: string)
    requires Exact(g) && AntecedentsKnown(g) && "FALSE" !in g
    requires AssumptionOrNew(g, a) && AssumptionOrNew(g, b) && KnownStrategy(strategy)
    ensures Exact(Contradicted(g, a, b, strategy)) <==> (a in g ==> g[a].isValid) && (b in g ==> g[b].isValid)
  {
    JustifiedPair(g, "FALSE", a, b);
    FirstContradictionFrom(Justified(g, "FALSE", {a, b}), a, b, strategy);
  }

  lemma JustifiedPair(g: Graph, c: Id, a: Id, b: Id)
    requires c !in g && c != a && c != b && AntecedentsKnown(g) && Exact(g)
    requires a in g ==> g[a].kind.Assumption?
    requires b in g ==> g[b].kind.Assumption?
    ensures var h := Justified(g, c, {a, b});
            a in h && b in h && h[a].kind.Assumption? && h[b].kind.Assumption? &&
            (h[a].isValid <==> (a in g ==> g[a].isValid)) && (h[b].isValid <==> (b in g ==> g[b].isValid)) &&
            (Exact(h) <==> AllValid(h, {a, b}))
  {
    JustifiedExactIff(g, c, {a, b});
    JustifiedShrinks(g, c, {a, b});
  }

  lemma FirstContradictionFrom(h: Graph, a: Id, b: Id, strategy: string)
    requires a in h && b in h && h[a].kind.Assumption? && h[b].kind.Assumption?
    requires Exact(h) <==> AllValid(h, {a, b})
    ensures Exact(Resolved(h, a, b, strategy)) <==> h[a].isValid && h[b].isValid
  {
    assert a in {a, b} && b in {a, b};
    if h[a].isValid && h[b].isValid {
      ResolvedKeepsExact(h, a, b, strategy);
    }
  }

  // ----- later contradictions, and whole runs

  function AddJust(g: Graph, c: Id, ants: set<Id>): Graph
    requires c in g
  {
    g[c := g[c].(justs := g[c].justs + [ants])]
  }

  /** A justification that does not fire in the least model adds nothing to it. */
  lemma DeadJustAddsNothing(g: Graph, c: Id, ants: set<Id>)
    requires c in g && !(ants <= LeastModel(g))
    ensures LeastModel(AddJust(g, c, ants)) == LeastModel(g)
  {
    var h := AddJust(g, c, ants);
    LeastModelIsClosed(g);
    LeastModelIsClosed(h);
    assert Closed(h, LeastModel(g)) by {
      forall n | n in h && Fires(h, n, LeastModel(g)) ensures n in LeastModel(g) {
        assert Fires(g, n, LeastModel(g));
      }
    }
    LeastModelIsLeast(h, LeastModel(g));
    assert Closed(g, LeastModel(h)) by {
      forall n | n in g && Fires(g, n, LeastModel(h)) ensures n in LeastModel(h) {
        JustsKept(g, c, ants, n, LeastModel(h));
      }
    }
    LeastModelIsLeast(g, LeastModel(h));
  }

  lemma JustsKept(g: Graph, c: Id, ants: set<Id>, n: Id, s: set<Id>)
    requires c in g && n in g && Fires(g, n, s)
    ensures Fires(AddJust(g, c, ants), n, s)
  {
    if g[n].kind.Derived? {
      var j :| 0 <= j < |g[n].justs| && g[n].justs[j] <= s;
      assert AddJust(g, c, ants)[n].justs[j] == g[n].justs[j];
    }
  }

  lemma DependenceKept(g: Graph, c: Id, ants: set<Id>, x: Id, n: Id)
    requires c in g && x in g && DependsOn(g, x, n)
    ensures DependsOn(AddJust(g, c, ants), x, n)
  {
    var j :| 0 <= j < |g[x].justs| && n in g[x].justs[j];
    assert AddJust(g, c, ants)[x].justs[j] == g[x].justs[j];
  }

  /** Forcing `root` out kills a new justification that rests on it. */
  lemma CutKillsJust(g: Graph, c: Id, ants: set<Id>, root: Id)
    requires c in g && c != root && root in ants && root in g
    ensures LeastModel(Cut(AddJust(g, c, ants), root)) == LeastModel(Cut(g, root))
  {
    CutShrinks(g, root);
    DeadJustAddsNothing(Cut(g, root), c, ants);
    assert Cut(AddJust(g, c, ants), root) == AddJust(Cut(g, root), c, ants);
  }

  /** The pass reaches at least what it would have reached without the new justification. */
  lemma CascadeKept(g: Graph, c: Id, ants: set<Id>, root: Id)
    requires c in g && c != root && root in ants && root in g && g[root].kind.Assumption?
    ensures Cascade(g, root) <= Cascade(AddJust(g, c, ants), root)
  {
    var h := AddJust(g, c, ants);
    CascadeIsClosed(h, root);
    CutKillsJust(g, c, ants, root);
    forall n, x | n in Cascade(h, root) && Drags(g, Frozen(g, root), n, x) ensures x in Cascade(h, root) {
      ProvableIffLeastModel(Cut(g, root), x);
      ProvableIffLeastModel(Cut(h, root), x);
      DependenceKept(g, c, ants, x, n);
      assert Drags(h, Frozen(h, root), n, x);
    }
    CascadeIsLeast(g, root, Cascade(h, root));
  }

  /** Adding a justification and then invalidating an assumption it rests on leaves exact labels exact,
      although in between they need not be. */
  lemma LateJustPass(g: Graph, c: Id, ants: set<Id>, root: Id)
    requires Exact(g) && c in g && c != root && root in ants && root in g && g[root].kind.Assumption?
    ensures Exact(Deprecated(AddJust(g, c, ants), root))
  {
    var h := AddJust(g, c, ants);
    var d := Deprecated(h, root);
    CutKillsJust(g, c, ants, root);
    CascadeKept(g, c, ants, root);
    DeprecatedLogic(h, root);
    forall n | n in d ensures d[n].isValid <==> n in LeastModel(Cut(g, root)) {
      CascadeFromExact(g, root, n);
      LostLabel(h, root, n);
    }
  }

  /** A processed node loses its label and has no support; any other keeps its label. */
  lemma LostLabel(h: Graph, root: Id, n: Id)
    requires root in h && h[root].kind.Assumption? && n in h
    ensures n in Cascade(h, root) ==> !Deprecated(h, root)[n].isValid && n !in LeastModel(Cut(h, root))
    ensures n !in Cascade(h, root) ==> Deprecated(h, root)[n] == h[n]
  {
    CutShrinks(h, root);
    if n in Cascade(h, root) && n != root {
      CascadeMembers(h, root, n);
      ProvableIffLeastModel(Cut(h, root), n);
    }
  }

  /** Unknown assumptions come with an exact label. */
  lemma NewAssumptionsExact(g: Graph, ants: set<Id>)
    requires Exact(g) && AntecedentsKnown(g)
    ensures Exact(WithAssumptions(g, ants)) && AntecedentsKnown(WithAssumptions(g, ants))
  {
    var h := WithAssumptions(g, ants);
    var m := LeastModel(g) + (ants - g.Keys);
    LeastModelIsClosed(g);
    LeastModelIsClosed(h);
    assert Closed(h, m) by {
      forall n | n in h && Fires(h, n, m) ensures n in m {
        if n in g {
          KnownAntecedents(g, n, m, ants - g.Keys);
        }
      }
    }
    LeastModelIsLeast(h, m);
    assert Closed(g, LeastModel(h)) by {
      forall n | n in g && Fires(g, n, LeastModel(h)) ensures n in LeastModel(h) {
        assert Fires(h, n, LeastModel(h));
      }
    }
    LeastModelIsLeast(g, LeastModel(h));
    forall n | n in ants - g.Keys ensures n in LeastModel(h) {
      assert Fires(h, n, LeastModel(h));
    }
  }

  lemma KnownAntecedents(g: Graph, n: Id, m: set<Id>, born: set<Id>)
    requires AntecedentsKnown(g) && n in g && m == LeastModel(g) + born && born !! g.Keys
    requires Fires(g, n, m)
    ensures Fires(g, n, LeastModel(g))
  {
    if g[n].kind.Derived? {
      var j :| 0 <= j < |g[n].justs| && g[n].justs[j] <= m;
      assert g[n].justs[j] <= LeastModel(g);
    }
  }

  /** With FALSE registered, a contradiction between assumptions always keeps the labels exact. */
  lemma LaterContradiction(g: Graph, a: Id, b: Id, strategy: string)
    requires Exact(g) && AntecedentsKnown(g) && "FALSE" in g
    requires AssumptionOrNew(g, a) && AssumptionOrNew(g, b) && KnownStrategy(strategy)
    ensures Exact(Contradicted(g, a, b, strategy))
  {
    var k := WithAssumptions(g, {a, b});
    NewAssumptionsExact(g, {a, b});
    assert Justified(g, "FALSE", {a, b}) == AddJust(k, "FALSE", {a, b});
    LaterContradictionFrom(k, "FALSE", a, b, strategy);
  }

  lemma LaterContradictionFrom(k: Graph, c: Id, a: Id, b: Id, strategy: string)
    requires Exact(k) && KnownStrategy(strategy) && c in k && c != a && c != b
    requires a in k && b in k && k[a].kind.Assumption? && k[b].kind.Assumption?
    ensures Exact(Resolved(AddJust(k, c, {a, b}), a, b, strategy))
  {
    var h := AddJust(k, c, {a, b});
    assert a in {a, b} && b in {a, b};
    if !h[a].isValid || !h[b].isValid {
      DeadJustAddsNothing(k, c, {a, b});
    } else if strategy == "invalidate_b" {
      LateJustPass(k, c, {a, b}, b);
    } else {
      LateJustPass(k, c, {a, b}, a);
      if strategy == "invalidate_both" {
        InvalidatedShrinks(h, a);
        InvalidatedStep(Invalidated(h, a), b);
      }
    }
  }

  /** A contradiction between assumptions keeps the labels exact exactly when FALSE is registered already
      or both are valid. */
  lemma ContradictionExactIff(g: Graph, a: Id, b: Id, strategy: string)
    requires Exact(g) && AntecedentsKnown(g)
    requires AssumptionOrNew(g, a) && AssumptionOrNew(g, b) && KnownStrategy(strategy)
    ensures Exact(Contradicted(g, a, b, strategy)) <==>
            "FALSE" in g || ((a in g ==> g[a].isValid) && (b in g ==> g[b].isValid))
  {
    if "FALSE" in g {
      LaterContradiction(g, a, b, strategy);
    } else {
      FirstContradiction(g, a, b, strategy);
    }
  }

  /** The operation targets assumptions only. */
  ghost predicate OnAssumptions(g: Graph, op: Op)
  {
    match op
    case Invalidate(n) => n in g ==> !g[n].kind.Derived?
    case Contradict(a, b, strategy) => KnownStrategy(strategy) && AssumptionOrNew(g, a) && AssumptionOrNew(g, b)
  }

  lemma AntecedentsStayKnown(s: Beliefs, op: Op)
    requires AntecedentsKnown(s.nodes)
    ensures AntecedentsKnown(Apply(s, op).nodes)
  {
    match op
    case Invalidate(n) => InvalidatedShrinks(s.nodes, n);
    case Contradict(a, b, strategy) =>
      ContradictedShrinks(s.nodes, a, b, strategy);
      JustifiedKnown(s.nodes, "FALSE", {a, b});
  }

  lemma JustifiedKnown(g: Graph, c: Id, ants: set<Id>)
    requires AntecedentsKnown(g)
    ensures AntecedentsKnown(Justified(g, c, ants))
  {
    var h := Justified(g, c, ants);
    JustifiedShrinks(g, c, ants);
    forall x, j, n | x in h && 0 <= j < |h[x].justs| && n in h[x].justs[j] ensures n in h {
    }
  }

  /** Incremental equals recomputed for both operations: from exact labels with FALSE registered, every
      run of invalidations of and contradictions between assumptions keeps the labels exact, so a full
      re-evaluation at any point changes nothing. */
  lemma {:induction false} RunKeepsExact(s: Beliefs, ops: seq<Op>)
    requires Exact(s.nodes) && AntecedentsKnown(s.nodes) && "FALSE" in s.nodes
    requires forall i :: 0 <= i < |ops| ==> OnAssumptions(s.nodes, ops[i])
    ensures Exact(Run(s, ops).nodes) && AntecedentsKnown(Run(s, ops).nodes)
    ensures Evaluated(Run(s, ops).nodes) == Run(s, ops).nodes
  {
    if ops != [] {
      var front, op := ops[..|ops| - 1], ops[|ops| - 1];
      var s' := Run(s, front);
      RunKeepsExact(s, front);
      RunShrinks(s, front);
      NewNodesAreAssumptions(s, front);
      assert OnAssumptions(s.nodes, op) && OnAssumptions(s'.nodes, op);
      AntecedentsStayKnown(s', op);
      match op
      case Invalidate(n) => InvalidatedStep(s'.nodes, n);
      case Contradict(a, b, strategy) => ContradictionExactIff(s'.nodes, a, b, strategy);
    }
    EvaluatedFixpoints(Run(s, ops).nodes);
  }
}
