/** What one deprecation pass computes, independently of worklist order, and why it is the same
    as recomputing every label.
 */
module AtmsCascade {
  import opened AtmsLogic

  /** Some justification of `c` has `n` among its antecedents. */
  ghost predicate DependsOn(g: Graph, c: Id, n: Id)
    requires c in g
  {
    exists j :: 0 <= j < |g[c].justs| && n in g[c].justs[j]
  }

  /** The graph whose provability decides a pass started at `root`: a non-PREMISE root is out. */
  ghost function Frozen(g: Graph, root: Id): Graph
  {
    if root in g && g[root].kind.Premise? then g else Cut(g, root)
  }

  /** The pass moves from `n` to its dependent `c`. */
  ghost predicate Drags(g: Graph, f: Graph, n: Id, c: Id)
  {
    c in g && g[c].kind.Derived? && g[c].isValid && DependsOn(g, c, n) && !Provable(f, c, {})
  }

  ghost predicate CascadeClosed(g: Graph, root: Id, s: set<Id>)
  {
    (root in g ==> root in s) && forall n, c :: n in s && Drags(g, Frozen(g, root), n, c) ==> c in s
  }

  /** The nodes a pass processes: the least set holding the root and closed under `Drags`. */
  ghost function Cascade(g: Graph, root: Id): set<Id>
  {
    set n | n in g && forall s :: CascadeClosed(g, root, s) ==> n in s
  }

  lemma CascadeIsLeast(g: Graph, root: Id, s: set<Id>)
    requires CascadeClosed(g, root, s)
    ensures Cascade(g, root) <= s
  {
  }

  lemma CascadeIsClosed(g: Graph, root: Id)
    ensures CascadeClosed(g, root, Cascade(g, root))
  {
  }

  /** Everything processed besides the root was valid, DERIVED and has lost its support. */
  lemma CascadeMembers(g: Graph, root: Id, n: Id)
    requires n in Cascade(g, root) && n != root
    ensures n in g && g[n].kind.Derived? && g[n].isValid && !Provable(Frozen(g, root), n, {})
  {
    var f := Frozen(g, root);
    var s := set x | x in g && (x == root || (g[x].kind.Derived? && g[x].isValid && !Provable(f, x, {})));
    assert CascadeClosed(g, root, s);
    CascadeIsLeast(g, root, s);
  }

  /** What a pass has processed is unprovable in the frozen graph under any path. */
  lemma CascadeIsLost(g: Graph, root: Id, n: Id, path: set<Id>)
    requires n in Cascade(g, root) && !(g[n].kind.Premise?)
    ensures !Provable(Frozen(g, root), n, path)
  {
    if n != root {
      CascadeMembers(g, root, n);
      if Provable(Frozen(g, root), n, path) {
        ProvableAntitone(Frozen(g, root), n, {}, path);
      }
    }
  }

  /** Labels after the pass. */
  ghost function Deprecated(g: Graph, root: Id): Graph
  {
    map n | n in g ::
      if n in Cascade(g, root) && !g[n].kind.Premise? then g[n].(isValid := false) else g[n]
  }

  /** The set the pass returns. */
  ghost function Reported(g: Graph, root: Id): set<Id>
  {
    set n | n in Cascade(g, root) && g[n].isValid
  }

  ghost function Flipped(g: Graph, h: Graph): set<Id>
  {
    set n | n in g && n in h && g[n].isValid && !h[n].isValid
  }

  ghost predicate LabelsAre(g: Graph, s: set<Id>)
  {
    forall n :: n in g ==> (g[n].isValid <==> n in s)
  }

  // ----- what a pass does from any labels

  /** What can still be supported once the root is out; a PREMISE cannot be forced out. */
  ghost function Supported(g: Graph, root: Id): set<Id>
  {
    LeastModel(if root in g && g[root].kind.Premise? then g else Cut(g, root))
  }

  /** The nodes of the chain lead from the root along justifications, each one after the root a believed
      DERIVED node without support. */
  ghost predicate LossChain(g: Graph, root: Id, chain: seq<Id>)
  {
    && chain != [] && chain[0] == root && root in g
    && forall k :: 1 <= k < |chain| ==> Loses(g, root, chain[k]) && DependsOn(g, chain[k], chain[k - 1])
  }

  ghost predicate Loses(g: Graph, root: Id, c: Id)
  {
    c in g && g[c].kind.Derived? && g[c].isValid && c !in Supported(g, root)
  }

  ghost predicate LossReaches(g: Graph, root: Id, n: Id)
  {
    exists chain :: LossChain(g, root, chain) && chain[|chain| - 1] == n
  }

  /** The graph in which everything a loss chain reaches, other than a PREMISE, is labelled invalid. */
  ghost function WithoutLosses(g: Graph, root: Id): Graph
  {
    map n | n in g :: if LossReaches(g, root, n) && !g[n].kind.Premise? then g[n].(isValid := false) else g[n]
  }

  lemma LossReachesNext(g: Graph, root: Id, n: Id, c: Id)
    requires LossReaches(g, root, n) && Loses(g, root, c) && DependsOn(g, c, n)
    ensures LossReaches(g, root, c)
  {
    var chain :| LossChain(g, root, chain) && chain[|chain| - 1] == n;
    assert LossChain(g, root, chain + [c]);
    assert (chain + [c])[|chain + [c]| - 1] == c;
  }

  lemma DragsIffLoses(g: Graph, root: Id, n: Id, c: Id)
    ensures Drags(g, Frozen(g, root), n, c) <==> Loses(g, root, c) && DependsOn(g, c, n)
  {
    ProvableIffLeastModel(Frozen(g, root), c);
    assert root !in g ==> Cut(g, root) == g;
  }

  lemma {:induction false} ChainIsProcessed(g: Graph, root: Id, chain: seq<Id>, k: nat)
    requires LossChain(g, root, chain) && k < |chain|
    ensures chain[k] in Cascade(g, root)
  {
    CascadeIsClosed(g, root);
    if k > 0 {
      ChainIsProcessed(g, root, chain, k - 1);
      DragsIffLoses(g, root, chain[k - 1], chain[k]);
    }
  }

  /** From any labels, a pass processes exactly the nodes at the end of a loss chain. */
  lemma CascadeIffLossReaches(g: Graph, root: Id, n: Id)
    ensures n in Cascade(g, root) <==> LossReaches(g, root, n)
  {
    if chain :| LossChain(g, root, chain) && chain[|chain| - 1] == n {
      ChainIsProcessed(g, root, chain, |chain| - 1);
    }
    var s := set x | x in g && LossReaches(g, root, x);
    if root in g {
      assert LossChain(g, root, [root]) && [root][|[root]| - 1] == root;
    }
    forall x, c | x in s && Drags(g, Frozen(g, root), x, c) ensures c in s {
      DragsIffLoses(g, root, x, c);
      LossReachesNext(g, root, x, c);
    }
    CascadeIsLeast(g, root, s);
  }

  /** The result of a pass from any labels: what a loss chain reaches, and nothing else, is labelled
      invalid unless it is a PREMISE, and reported if it was valid. */
  lemma PassFromAnyLabels(g: Graph, root: Id)
    ensures forall n :: n in Reported(g, root) <==> n in g && g[n].isValid && LossReaches(g, root, n)
    ensures Deprecated(g, root) == WithoutLosses(g, root)
  {
    forall n ensures n in Cascade(g, root) <==> LossReaches(g, root, n) {
      CascadeIffLossReaches(g, root, n);
    }
  }

  /** From any labels, a DERIVED node that is still believed after a pass and depends on the root or on a
      reported node is supported without the root. */
  lemma DependentsAreSettled(g: Graph, root: Id, n: Id, c: Id)
    requires root in g && (n == root || n in Reported(g, root))
    requires c in g && g[c].kind.Derived? && Deprecated(g, root)[c].isValid && DependsOn(g, c, n)
    ensures c in LeastModel(if g[root].kind.Premise? then g else Cut(g, root))
  {
    CascadeIsClosed(g, root);
    DragsIffLoses(g, root, n, c);
  }

  /** The labels are exactly what the justifications support. */
  ghost predicate Exact(g: Graph)
  {
    LabelsAre(g, LeastModel(g))
  }

  /** The returned set is the set of nodes whose label flipped, except that a valid PREMISE given
      as root is reported although it keeps its label. */
  lemma ReportedIsFlipped(g: Graph, root: Id)
    ensures Reported(g, root) == Flipped(g, Deprecated(g, root)) <==>
            !(root in g && g[root].kind.Premise? && g[root].isValid)
    ensures Reported(g, root) - {root} == Flipped(g, Deprecated(g, root)) - {root}
  {
    CascadeIsClosed(g, root);
    forall n | n in Cascade(g, root) && n != root ensures g[n].kind.Derived? {
      CascadeMembers(g, root, n);
    }
    if root in g && g[root].kind.Premise? && g[root].isValid {
      assert root in Reported(g, root) && root !in Flipped(g, Deprecated(g, root));
    }
  }

  /** Validity only shrinks, and no PREMISE is touched. */
  lemma DeprecatedShrinks(g: Graph, root: Id)
    ensures Deprecated(g, root).Keys == g.Keys
    ensures forall n :: n in g ==>
              var h := Deprecated(g, root);
              h[n].kind == g[n].kind && h[n].justs == g[n].justs && (h[n].isValid ==> g[n].isValid)
    ensures forall n :: n in g && g[n].kind.Premise? ==> Deprecated(g, root)[n] == g[n]
    ensures root in g && !g[root].kind.Premise? ==> !Deprecated(g, root)[root].isValid
  {
  }

  /** The nodes believed before the pass that are not believed after it, together with what is
      still supported, satisfy every old justification: hence nothing was missed. */
  lemma NothingMissed(g: Graph, root: Id)
    requires Exact(g)
    requires root in g && !g[root].kind.Premise?
    ensures LeastModel(g) - Cascade(g, root) <= LeastModel(Cut(g, root))
  {
    var before, after, gone := LeastModel(g), LeastModel(Cut(g, root)), Cascade(g, root);
    var t := (before * gone) + after;
    CutShrinks(g, root);
    CascadeIsClosed(g, root);
    LeastModelIsClosed(g);
    LeastModelIsClosed(Cut(g, root));
    forall n | n in g && Fires(g, n, t) ensures n in t {
      assert Fires(g, n, before);
      if n != root && !Fires(Cut(g, root), n, after) {
        var j :| 0 <= j < |g[n].justs| && g[n].justs[j] <= t;
        var a :| a in g[n].justs[j] && a !in after;
        ProvableIffLeastModel(Cut(g, root), n);
        if n !in after {
          assert Drags(g, Frozen(g, root), a, n);
        }
      }
    }
    LeastModelIsLeast(g, t);
  }

  /** A node is processed by the pass exactly when it is the root or loses its support. */
  lemma CascadeFromExact(g: Graph, root: Id, n: Id)
    requires Exact(g)
    requires root in g && !g[root].kind.Premise? && n in g
    ensures n in LeastModel(Cut(g, root)) <==> g[n].isValid && n !in Cascade(g, root)
  {
    var cut := Cut(g, root);
    CutShrinks(g, root);
    CascadeIsClosed(g, root);
    if n in Cascade(g, root) {
      if n != root {
        CascadeMembers(g, root, n);
        ProvableIffLeastModel(cut, n);
      }
    } else {
      NothingMissed(g, root);
    }
  }

  /** One pass from exact labels leaves exactly the labels of the graph with the root forced out. */
  lemma PassIsExact(g: Graph, root: Id)
    requires Exact(g)
    requires root in g && !g[root].kind.Premise?
    ensures LabelsAre(Deprecated(g, root), LeastModel(Cut(g, root)))
    ensures Reported(g, root) == LeastModel(g) - LeastModel(Cut(g, root))
  {
    forall n | n in g
      ensures n in LeastModel(Cut(g, root)) <==> g[n].isValid && n !in Cascade(g, root)
      ensures n in Cascade(g, root) ==> !g[n].kind.Premise?
    {
      CascadeFromExact(g, root, n);
      if n in Cascade(g, root) && n != root {
        CascadeMembers(g, root, n);
      }
    }
  }

  lemma DeprecatedLogic(g: Graph, root: Id)
    requires root in g && g[root].kind.Assumption?
    ensures LeastModel(Deprecated(g, root)) == LeastModel(Cut(g, root))
  {
    var h, cut := Deprecated(g, root), Cut(g, root);
    DeprecatedShrinks(g, root);
    forall n | n in Cascade(g, root) && n != root ensures g[n].kind.Derived? {
      CascadeMembers(g, root, n);
    }
    forall s ensures Closed(h, s) <==> Closed(cut, s) {
      forall n | n in g ensures Fires(h, n, s) <==> Fires(cut, n, s) {
      }
    }
    assert forall n :: n in LeastModel(h) <==> n in LeastModel(cut);
  }

  /** Incremental equals recomputed: invalidating an ASSUMPTION keeps the labels exact. */
  lemma AssumptionPassKeepsExact(g: Graph, root: Id)
    requires Exact(g)
    requires root in g && g[root].kind.Assumption?
    ensures Exact(Deprecated(g, root))
  {
    PassIsExact(g, root);
    DeprecatedLogic(g, root);
  }

  lemma DerivedPassLogic(g: Graph, root: Id)
    requires root in g && g[root].kind.Derived?
    ensures SameLogic(g, Deprecated(g, root))
  {
    forall n | n in Cascade(g, root) && n != root ensures g[n].kind.Derived? {
      CascadeMembers(g, root, n);
    }
  }

  /** Forcing a DERIVED node out is lasting exactly when the node had no support anyway. */
  lemma DerivedPassIsExactIff(g: Graph, root: Id)
    requires Exact(g)
    requires root in g && g[root].kind.Derived?
    ensures Exact(Deprecated(g, root)) <==> !g[root].isValid
  {
    var h := Deprecated(g, root);
    PassIsExact(g, root);
    CutShrinks(g, root);
    DerivedPassLogic(g, root);
    SameLogicSameLeastModel(g, h);
    if root !in LeastModel(g) {
      CutOfUnsupported(g, root);
    } else {
      CascadeIsClosed(g, root);
      assert !h[root].isValid && root in LeastModel(h);
    }
  }

  // ----- graphs as they are built from a topology

  /** The node leans on the set: its one justification mentions a member. */
  ghost predicate LeansOn(node: Node, s: set<Id>)
  {
    node.kind.Derived? && |node.justs| == 1 && node.justs[0] * s != {}
  }

  ghost predicate LeansOnItself(g: Graph, s: set<Id>)
  {
    s != {} && s <= g.Keys && forall n :: n in s ==> LeansOn(g[n], s)
  }

  /** Every node is believed, and is an ASSUMPTION or has one justification. */
  ghost predicate Fresh(g: Graph)
  {
    forall n :: n in g ==> g[n].isValid && (g[n].kind.Assumption? || (g[n].kind.Derived? && |g[n].justs| == 1))
  }

  lemma LeaningIsInexact(g: Graph, s: set<Id>)
    requires Fresh(g) && LeansOnItself(g, s)
    ensures !Exact(g)
  {
    var n :| n in s;
    assert forall x :: x in s ==> LeansOn(g[x], s);
    CircularSupportIsNoSupport(g, s, n, {});
    ProvableIffLeastModel(g, n);
  }

  lemma UnsupportedLeans(g: Graph, s: set<Id>, n: Id)
    requires Fresh(g) && AntecedentsIn(g, g.Keys) && s == g.Keys - LeastModel(g) && n in s
    ensures LeansOn(g[n], s)
  {
    LeastModelIsFixpoint(g, n);
    if g[n].kind.Derived? {
      assert !(g[n].justs[0] <= LeastModel(g));
      var x :| x in g[n].justs[0] && x !in LeastModel(g);
      assert x in g[n].justs[0] * s;
    }
  }

  ghost predicate AntecedentsIn(g: Graph, s: set<Id>)
  {
    forall n, j :: n in g && 0 <= j < |g[n].justs| ==> g[n].justs[j] <= s
  }

  /** Believing everything is exact exactly when no set of nodes leans on itself. */
  lemma FreshExactIff(g: Graph)
    requires Fresh(g) && AntecedentsIn(g, g.Keys)
    ensures Exact(g) <==> !exists s :: LeansOnItself(g, s)
  {
    if s :| LeansOnItself(g, s) {
      LeaningIsInexact(g, s);
    } else {
      var s := g.Keys - LeastModel(g);
      forall n | n in s ensures LeansOn(g[n], s) {
        UnsupportedLeans(g, s, n);
      }
      assert !LeansOnItself(g, s);
      forall n | n in g ensures g[n].isValid <==> n in LeastModel(g) {
        assert n !in s;
      }
    }
  }

  // ----- full re-evaluation

  /** Labels after `evaluate_belief_states`. */
  ghost function Evaluated(g: Graph): Graph
  {
    map n | n in g ::
      match g[n].kind
      case Derived => g[n].(isValid := Provable(g, n, {}))
      case Premise => g[n].(isValid := true)
      case Assumption => g[n]
  }

  /** Re-evaluation yields the least model whatever the labels were before. */
  lemma EvaluatedIsExact(g: Graph)
    ensures Exact(Evaluated(g)) && LeastModel(Evaluated(g)) == LeastModel(g)
  {
    var h := Evaluated(g);
    SameLogicSameLeastModel(g, h);
    forall n | n in g ensures h[n].isValid <==> n in LeastModel(g) {
      ProvableIffLeastModel(g, n);
      LeastModelIsFixpoint(g, n);
    }
  }

  /** Re-evaluation changes nothing exactly when the labels are exact already. */
  lemma EvaluatedFixpoints(g: Graph)
    ensures Evaluated(g) == g <==> Exact(g)
  {
    EvaluatedIsExact(g);
    if Exact(g) {
      forall n | n in g ensures Evaluated(g)[n] == g[n] {
        ProvableIffLeastModel(g, n);
        LeastModelIsFixpoint(g, n);
      }
    }
  }

  lemma EvaluatedIdempotent(g: Graph)
    ensures Evaluated(Evaluated(g)) == Evaluated(g)
  {
    EvaluatedIsExact(g);
    EvaluatedFixpoints(Evaluated(g));
  }
}
