/** The truth-maintenance engine: nodes, reverse index and the operations that change them. */
module AtmsEngine {
  import opened Options
  import opened AtmsLogic
  import opened AtmsSearch
  import opened AtmsCascade

  type Index = map<Id, set<Id>>

  /** The reverse index lists exactly the consequents whose justifications mention a node. */
  ghost predicate IndexExact(g: Graph, index: Index)
  {
    forall n, c :: Listed(index, n, c) <==> (c in g && DependsOn(g, c, n))
  }

  ghost predicate Listed(index: Index, n: Id, c: Id)
  {
    n in index && c in index[n]
  }

  /** Everything a justification mentions is registered. */
  ghost predicate AntecedentsKnown(g: Graph)
  {
    forall c, j, n :: c in g && 0 <= j < |g[c].justs| && n in g[c].justs[j] ==> n in g
  }

  // ----- the effect of the operations on the nodes

  function Registered(g: Graph, n: Id, kind: NodeType, isValid: bool): Graph
  {
    g[n := Node(kind, isValid, if n in g then g[n].justs else [])]
  }

  /** Unknown antecedents are born as valid ASSUMPTIONs. */
  function WithAssumptions(g: Graph, ants: set<Id>): Graph
  {
    (map a | a in ants - g.Keys :: Node(Assumption, true, [])) + g
  }

  /** An unknown consequent is born as a valid DERIVED node, before its antecedents. */
  function Justified(g: Graph, c: Id, ants: set<Id>): Graph
  {
    var g1 := if c in g then g else Registered(g, c, Derived, true);
    var g2 := WithAssumptions(g1, ants);
    assert c in g1 && c in g2;
    g2[c := g2[c].(justs := g2[c].justs + [ants])]
  }

  ghost function Invalidated(g: Graph, n: Id): Graph
  {
    if n !in g || g[n].kind.Premise? then g else Deprecated(g, n)
  }

  ghost function InvalidatedReport(g: Graph, n: Id): set<Id>
  {
    if n !in g || g[n].kind.Premise? then {} else Reported(g, n)
  }

  /** Node map with the non-PREMISE members of `gone` labelled invalid. */
  ghost function Marked(g: Graph, gone: set<Id>): Graph
  {
    map n | n in g :: if n in gone && !g[n].kind.Premise? then g[n].(isValid := false) else g[n]
  }

  ghost function ValidAmong(g: Graph, s: set<Id>): set<Id>
  {
    set n | n in s && n in g && g[n].isValid
  }

  // ----- one deprecation pass

  lemma MarkOne(g: Graph, gone: set<Id>, n: Id)
    requires n in g && n !in gone
    ensures Marked(g, gone)[n] == g[n]
    ensures Marked(g, gone + {n}) ==
            if g[n].kind.Premise? then Marked(g, gone) else Marked(g, gone)[n := g[n].(isValid := false)]
  {
  }

  /** What holds between two rounds of the pass started at `root` on `g`. */
  ghost predicate PassState(g: Graph, root: Id, nodes: Graph, visited: set<Id>, work: seq<Id>, memo: Memo)
  {
    var f := Frozen(g, root);
    && nodes == Marked(g, visited)
    && (forall n :: n in visited || n in work ==> n == root || n in Cascade(g, root))
    && MemoSound(f, Some(memo))
    && (root !in visited ==> visited == {} && work == [root] && memo == map[])
    && (root in visited ==> Reads(nodes, f, Some(memo)))
  }

  ghost predicate Scanned(g: Graph, root: Id, visited: set<Id>, work: seq<Id>)
  {
    forall n, c :: n in visited && Drags(g, Frozen(g, root), n, c) ==> c in visited || c in work
  }

  /** Taking an already visited node off the worklist. */
  lemma DropVisited(g: Graph, root: Id, nodes: Graph, visited: set<Id>, work: seq<Id>, memo: Memo, n: Id)
    requires PassState(g, root, nodes, visited, work + [n], memo) && Scanned(g, root, visited, work + [n])
    requires n in visited
    ensures PassState(g, root, nodes, visited, work, memo) && Scanned(g, root, visited, work)
  {
  }

  /** A root that is not registered: the pass ends at once. */
  lemma DropUnknown(g: Graph, root: Id, nodes: Graph, visited: set<Id>, work: seq<Id>, memo: Memo, n: Id)
    requires PassState(g, root, nodes, visited, work + [n], memo) && Scanned(g, root, visited, work + [n])
    requires n !in visited && n !in g && AntecedentsKnown(g)
    ensures PassState(g, root, nodes, visited + {n}, work, memo) && Scanned(g, root, visited + {n}, work)
  {
  }

  /** Processing a node keeps the memo sound for the frozen graph. */
  lemma VisitReads(g: Graph, root: Id, visited: set<Id>, memo: Memo, n: Id)
    requires n in g && n !in visited && (n == root || root in visited)
    requires forall x :: x in visited + {n} ==> x == root || x in Cascade(g, root)
    requires MemoSound(Frozen(g, root), Some(memo))
    requires if root in visited then Reads(Marked(g, visited), Frozen(g, root), Some(memo)) else visited == {}
    ensures var memo' := if g[n].kind.Premise? then memo else memo[n := false];
            MemoSound(Frozen(g, root), Some(memo')) &&
            Reads(Marked(g, visited + {n}), Frozen(g, root), Some(memo'))
  {
    if n != root {
      CascadeMembers(g, root, n);
    }
  }

  /** A node comes off the worklist for the first time. */
  lemma Visit(g: Graph, root: Id, nodes: Graph, visited: set<Id>, work: seq<Id>, memo: Memo, n: Id)
    requires PassState(g, root, nodes, visited, work + [n], memo) && Scanned(g, root, visited, work + [n])
    requires n in g && n !in visited
    ensures root in visited + {n}
    ensures PassState(g, root, Marked(g, visited + {n}), visited + {n}, work,
                      if g[n].kind.Premise? then memo else memo[n := false])
    ensures Scanned(g, root, visited + {n} - {n}, work + [n])
  {
    assert n in work + [n] && forall x :: x in work ==> x in work + [n];
    if root !in visited {
      assert (work + [n])[|work|] == n && |work + [n]| == 1;
    }
    VisitReads(g, root, visited, memo, n);
    assert visited + {n} - {n} == visited;
  }

  /** A dependent that can no longer be proved belongs on the worklist. */
  lemma QueueDependent(g: Graph, root: Id, nodes: Graph, visited: set<Id>, work: seq<Id>, memo: Memo, n: Id, c: Id)
    requires PassState(g, root, nodes, visited, work, memo) && root in visited && n in visited && n in g
    requires Drags(g, Frozen(g, root), n, c)
    ensures PassState(g, root, nodes, visited, work + [c], memo)
  {
    CascadeIsClosed(g, root);
    assert c in Cascade(g, root);
  }

  /** Pushes the dependents of `n` that are labelled valid and can no longer be proved. */
  method ScanDependents(nodes: Graph, index: Index, n: Id, visited: set<Id>, work0: seq<Id>, memo0: Memo,
                        ghost g: Graph, ghost root: Id)
      returns (work: seq<Id>, memo: Memo)
    requires PassState(g, root, nodes, visited, work0, memo0)
    requires IndexExact(g, index) && n in visited && n in g && root in visited
    requires Scanned(g, root, visited - {n}, work0 + [n])
    ensures PassState(g, root, nodes, visited, work, memo)
    ensures Scanned(g, root, visited, work)
  {
    work, memo := work0, memo0;
    var kids := if n in index then index[n] else {};
    ghost var f := Frozen(g, root);
    var rest := kids;
    while rest != {}
      invariant rest <= kids
      invariant PassState(g, root, nodes, visited, work, memo)
      invariant forall c :: c in work0 ==> c in work
      invariant forall c :: c in kids - rest && Drags(g, f, n, c) ==> c in visited || c in work
    {
      var c :| c in rest;
      rest := rest - {c};
      if c in nodes && nodes[c].kind.Derived? && nodes[c].isValid {
        var r, memo' := IsNodeProvablyValid(nodes, c, {}, Some(memo), f);
        memo := memo'.value;
        if !r {
          assert Listed(index, n, c);
          QueueDependent(g, root, nodes, visited, work, memo, n, c);
          work := work + [c];
        }
      }
    }
    NowScanned(g, root, index, n, visited, work0, work);
  }

  /** The dependents of `n` found in the index are all there are. */
  lemma NowScanned(g: Graph, root: Id, index: Index, n: Id, visited: set<Id>, work0: seq<Id>, work: seq<Id>)
    requires IndexExact(g, index) && n in visited
    requires Scanned(g, root, visited - {n}, work0 + [n]) && forall c :: c in work0 ==> c in work
    requires forall c :: n in index && c in index[n] && Drags(g, Frozen(g, root), n, c) ==> c in visited || c in work
    ensures Scanned(g, root, visited, work)
  {
    var f := Frozen(g, root);
    forall m, c | m in visited && Drags(g, f, m, c) ensures c in visited || c in work {
      if m == n {
        assert Listed(index, n, c);
      } else {
        assert c in visited - {n} || c in work0 + [n];
      }
    }
  }

  lemma PassComplete(g: Graph, root: Id, nodes: Graph, visited: set<Id>, memo: Memo)
    requires PassState(g, root, nodes, visited, [], memo) && Scanned(g, root, visited, [])
    requires root in visited
    ensures visited * g.Keys == Cascade(g, root)
    ensures nodes == Deprecated(g, root)
    ensures ValidAmong(g, visited) == Reported(g, root)
  {
  }

  lemma PassStart(g: Graph, root: Id)
    ensures PassState(g, root, g, {}, [root], map[]) && Scanned(g, root, {}, [root])
  {
  }

  lemma PassProgress(g: Graph, root: Id, nodes: Graph, visited: set<Id>, work: seq<Id>, memo: Memo, n: Id)
    requires PassState(g, root, nodes, visited, work, memo)
    requires n in work
    ensures n in g.Keys + {root}
    ensures ValidAmong(g, visited + {n}) ==
            ValidAmong(g, visited) + if n !in visited && n in g && g[n].isValid then {n} else {}
  {
  }

  lemma DeprecatedIndex(g: Graph, root: Id, index: Index)
    requires IndexExact(g, index) && AntecedentsKnown(g)
    ensures IndexExact(Deprecated(g, root), index) && AntecedentsKnown(Deprecated(g, root))
  {
  }

  /** After a pass, a DERIVED node that is still believed and depends on the root or on a reported node
      is supported without the root. */
  ghost predicate Settled(g: Graph, root: Id, h: Graph, reported: set<Id>)
    requires root in g
  {
    forall n, c :: (n == root || n in reported) && c in h && h[c].kind.Derived? && h[c].isValid && DependsOn(h, c, n) ==>
      c in LeastModel(if g[root].kind.Premise? then g else Cut(g, root))
  }

  lemma PassSettles(g: Graph, root: Id)
    requires root in g
    ensures Settled(g, root, Deprecated(g, root), Reported(g, root))
  {
    var h := Deprecated(g, root);
    forall n, c | (n == root || n in Reported(g, root)) && c in h && h[c].kind.Derived? && h[c].isValid && DependsOn(h, c, n)
      ensures c in LeastModel(if g[root].kind.Premise? then g else Cut(g, root))
    {
      assert DependsOn(g, c, n);
      DependentsAreSettled(g, root, n, c);
    }
  }

  /** The effect of an invalidation from any labels. */
  ghost function ForcedOut(g: Graph, n: Id): Graph
  {
    if n !in g || g[n].kind.Premise? then g else WithoutLosses(g, n)
  }

  lemma InvalidationFlips(g: Graph, n: Id)
    ensures InvalidatedReport(g, n) == Flipped(g, Invalidated(g, n))
    ensures Invalidated(g, n) == ForcedOut(g, n)
  {
    if n in g && !g[n].kind.Premise? {
      ReportedIsFlipped(g, n);
      PassFromAnyLabels(g, n);
    }
  }

  class ATMSEngine {
    var nodes: Graph
    var contradictions: seq<(Id, Id)>
    var dependents: Index

    ghost predicate Valid()
      reads this
    {
      IndexExact(nodes, dependents) && AntecedentsKnown(nodes)
    }

    constructor ()
      ensures Valid() && nodes == map[] && contradictions == []
    {
      nodes, contradictions, dependents := map[], [], map[];
    }

    /** Registers a node, or updates the type and label of a known one. */
    method RegisterNode(n: Id, kind: NodeType, isValid: bool)
      requires Valid()
      modifies this`nodes
      ensures Valid() && nodes == Registered(old(nodes), n, kind, isValid)
      ensures nodes == old(nodes)[n := Node(kind, isValid, nodes[n].justs)]
      ensures nodes[n].justs == if n in old(nodes) then old(nodes)[n].justs else []
    {
      SameJustsSameIndex(nodes, Registered(nodes, n, kind, isValid), dependents);
      if n in nodes {
        nodes := nodes[n := nodes[n].(kind := kind, isValid := isValid)];
      } else {
        nodes := nodes[n := Node(kind, isValid, [])];
      }
    }

    method RegisterAntecedents(ants: set<Id>)
      requires Valid()
      modifies this`nodes
      ensures Valid() && nodes == WithAssumptions(old(nodes), ants)
    {
      var rest := ants;
      while rest != {}
        invariant Valid() && rest <= ants
        invariant nodes == WithAssumptions(old(nodes), ants - rest)
      {
        var a :| a in rest;
        rest := rest - {a};
        if a !in nodes {
          RegisterNode(a, Assumption, true);
        }
      }
      assert ants - {} == ants;
    }

    method AddJustification(c: Id, ants: set<Id>)
      requires Valid()
      modifies this`nodes, this`dependents
      ensures Valid() && nodes == Justified(old(nodes), c, ants)
      ensures nodes.Keys == old(nodes).Keys + {c} + ants
      ensures nodes[c].justs == (if c in old(nodes) then old(nodes)[c].justs else []) + [ants]
      ensures forall n :: n in old(nodes) ==>
                nodes[n].kind == old(nodes)[n].kind && nodes[n].isValid == old(nodes)[n].isValid &&
                (n != c ==> nodes[n].justs == old(nodes)[n].justs)
      ensures c !in old(nodes) ==> nodes[c].kind == Derived && nodes[c].isValid
      ensures forall n :: n in ants && n !in old(nodes) && n != c ==> nodes[n] == Node(Assumption, true, [])
    {
      if c !in nodes {
        RegisterNode(c, Derived, true);
      }
      RegisterAntecedents(ants);
      JustificationIndexed(nodes, c, ants);
      nodes := nodes[c := nodes[c].(justs := nodes[c].justs + [ants])];
      dependents := IndexJustification(dependents, c, ants);
    }

    /** A query without a memo; under the empty path it decides membership in the least model. */
    method IsProvable(n: Id, activePath: set<Id>) returns (r: bool)
      ensures r <==> Provable(nodes, n, activePath)
      ensures activePath == {} ==> (r <==> n in LeastModel(nodes))
    {
      var memo;
      r, memo := IsNodeProvablyValid(nodes, n, activePath, None, nodes);
      ProvableIffLeastModel(nodes, n);
    }

    /** One round of the pass: `n` has been taken off the worklist `rest + [n]`. */
    method ProcessNode(n: Id, visited: set<Id>, rest: seq<Id>, memo: Memo, ghost g: Graph, ghost root: Id)
        returns (worklist: seq<Id>, memo': Memo, flip: bool)
      requires PassState(g, root, nodes, visited, rest + [n], memo) && Scanned(g, root, visited, rest + [n])
      requires IndexExact(g, dependents) && AntecedentsKnown(g)
      modifies this`nodes
      ensures PassState(g, root, nodes, visited + {n}, worklist, memo')
      ensures Scanned(g, root, visited + {n}, worklist)
      ensures flip <==> n !in visited && n in g && g[n].isValid
      ensures n in visited ==> worklist == rest
    {
      worklist, memo', flip := rest, memo, false;
      if n in visited {
        DropVisited(g, root, nodes, visited, rest, memo, n);
        assert visited + {n} == visited;
      } else if n !in nodes {
        DropUnknown(g, root, nodes, visited, rest, memo, n);
      } else {
        Visit(g, root, nodes, visited, rest, memo, n);
        MarkOne(g, visited, n);
        flip := nodes[n].isValid;
        if !nodes[n].kind.Premise? {
          nodes := nodes[n := nodes[n].(isValid := false)];
          memo' := memo[n := false];
        }
        worklist, memo' := ScanDependents(nodes, dependents, n, visited + {n}, rest, memo', g, root);
      }
    }

    /** One deprecation pass: whatever order the worklist and the index are walked in, it labels
        exactly the nodes of `Cascade` invalid and returns those of them that were valid. */
    method PropagateDeprecation(root: Id) returns (cascadeSet: set<Id>)
      requires Valid()
      modifies this`nodes
      ensures Valid()
      ensures nodes == Deprecated(old(nodes), root)
      ensures cascadeSet == Reported(old(nodes), root)
      ensures forall n :: n in cascadeSet <==> n in old(nodes) && old(nodes)[n].isValid && LossReaches(old(nodes), root, n)
      ensures nodes == WithoutLosses(old(nodes), root)
      ensures root in old(nodes) ==> Settled(old(nodes), root, nodes, cascadeSet)
    {
      ghost var g := nodes;
      var visited: set<Id> := {};
      var memo: Memo := map[];
      var worklist := [root];
      cascadeSet := {};
      PassStart(g, root);
      while worklist != []
        invariant PassState(g, root, nodes, visited, worklist, memo) && Scanned(g, root, visited, worklist)
        invariant cascadeSet == ValidAmong(g, visited)
        decreases g.Keys + {root} - visited, |worklist|
      {
        var n, rest := worklist[|worklist| - 1], worklist[..|worklist| - 1];
        assert worklist == rest + [n];
        assert n in worklist;
        PassProgress(g, root, nodes, visited, worklist, memo, n);
        var flip;
        worklist, memo, flip := ProcessNode(n, visited, rest, memo, g, root);
        if flip {
          cascadeSet := cascadeSet + {n};
        }
        visited := visited + {n};
      }
      PassComplete(g, root, nodes, visited, memo);
      DeprecatedIndex(g, root, dependents);
      PassFromAnyLabels(g, root);
      if root in g {
        PassSettles(g, root);
      }
    }

    method InvalidateAssumption(n: Id) returns (cascadeSet: set<Id>)
      requires Valid()
      modifies this`nodes
      ensures Valid()
      ensures nodes == Invalidated(old(nodes), n)
      ensures cascadeSet == InvalidatedReport(old(nodes), n)
      ensures nodes == ForcedOut(old(nodes), n)
      ensures cascadeSet == Flipped(old(nodes), nodes)
    {
      InvalidationFlips(nodes, n);
      if n !in nodes || nodes[n].kind.Premise? {
        return {};
      }
      cascadeSet := PropagateDeprecation(n);
    }

    /** Records the pair, makes it a justification of FALSE, and resolves it if both are labelled valid. */
    method RegisterContradiction(a: Id, b: Id, strategy: string) returns (cascadeSet: set<Id>)
      requires Valid()
      modifies this
      ensures Valid()
      ensures contradictions == old(contradictions) + [(a, b)]
      ensures nodes == Contradicted(old(nodes), a, b, strategy)
      ensures cascadeSet == ResolvedReport(Justified(old(nodes), "FALSE", {a, b}), a, b, strategy)
      ensures cascadeSet == Flipped(Justified(old(nodes), "FALSE", {a, b}), nodes)
      ensures var h := Justified(old(nodes), "FALSE", {a, b});
              var targets := if !h[a].isValid || !h[b].isValid then []
                             else match strategy
                                  case "invalidate_a" => [a]
                                  case "invalidate_b" => [b]
                                  case "invalidate_both" => [a, b]
                                  case _ => [];
              Handled(h, nodes, targets)
    {
      ContradictionOutcome(Justified(nodes, "FALSE", {a, b}), a, b, strategy);
      contradictions := contradictions + [(a, b)];
      AddJustification("FALSE", {a, b});
      cascadeSet := {};
      if nodes[a].isValid && nodes[b].isValid {
        if strategy == "invalidate_a" {
          cascadeSet := InvalidateAssumption(a);
        } else if strategy == "invalidate_b" {
          cascadeSet := InvalidateAssumption(b);
        } else if strategy == "invalidate_both" {
          var first := InvalidateAssumption(a);
          var second := InvalidateAssumption(b);
          cascadeSet := first + second;
        }
      }
    }

    /** Relabels every node, in any order, sharing one memo. */
    method EvaluateBeliefStates()
      requires Valid()
      modifies this`nodes
      ensures Valid()
      ensures nodes == Evaluated(old(nodes))
      ensures SameLogic(old(nodes), nodes) && Exact(nodes)
    {
      ghost var g := nodes;
      var memo: Memo := map[];
      var rest := nodes.Keys;
      assert PartlyEvaluated(g, rest) == g;
      while rest != {}
        invariant rest <= g.Keys
        invariant nodes == PartlyEvaluated(g, rest)
        invariant MemoSound(g, Some(memo)) && Reads(nodes, g, Some(memo))
      {
        var n :| n in rest;
        EvaluateOne(g, rest, n);
        if nodes[n].kind.Derived? {
          var r, memo' := IsNodeProvablyValid(nodes, n, {}, Some(memo), g);
          memo := memo'.value;
          nodes := nodes[n := nodes[n].(isValid := r)];
        } else if nodes[n].kind.Premise? {
          nodes := nodes[n := nodes[n].(isValid := true)];
        }
        rest := rest - {n};
      }
      assert nodes == Evaluated(g);
      EvaluatedIsExact(g);
      SameJustsSameIndex(g, nodes, dependents);
    }
  }

  /** The nodes of `rest` still carry their old labels. */
  ghost function PartlyEvaluated(g: Graph, rest: set<Id>): Graph
  {
    map n | n in g :: if n in rest then g[n] else Evaluated(g)[n]
  }

  lemma EvaluateOne(g: Graph, rest: set<Id>, n: Id)
    requires n in rest && n in g
    ensures PartlyEvaluated(g, rest)[n] == g[n]
    ensures PartlyEvaluated(g, rest - {n}) == PartlyEvaluated(g, rest)[n := Evaluated(g)[n]]
    ensures forall m :: MemoSound(g, Some(m)) ==> Reads(PartlyEvaluated(g, rest - {n}), g, Some(m))
  {
  }

  /** Resolution of the pair by the chosen strategy; nothing is done unless both are labelled valid. */
  ghost function Resolved(h: Graph, a: Id, b: Id, strategy: string): Graph
    requires a in h && b in h
  {
    if !h[a].isValid || !h[b].isValid then h
    else if strategy == "invalidate_a" then Invalidated(h, a)
    else if strategy == "invalidate_b" then Invalidated(h, b)
    else if strategy == "invalidate_both" then Invalidated(Invalidated(h, a), b)
    else h
  }

  ghost function ResolvedReport(h: Graph, a: Id, b: Id, strategy: string): set<Id>
    requires a in h && b in h
  {
    if !h[a].isValid || !h[b].isValid then {}
    else if strategy == "invalidate_a" then InvalidatedReport(h, a)
    else if strategy == "invalidate_b" then InvalidatedReport(h, b)
    else if strategy == "invalidate_both" then InvalidatedReport(h, a) + InvalidatedReport(Invalidated(h, a), b)
    else {}
  }

  ghost function Contradicted(g: Graph, a: Id, b: Id, strategy: string): Graph
  {
    Resolved(Justified(g, "FALSE", {a, b}), a, b, strategy)
  }

  ghost function ForcedOutAll(g: Graph, targets: seq<Id>): Graph
  {
    if targets == [] then g else ForcedOut(ForcedOutAll(g, targets[..|targets| - 1]), targets[|targets| - 1])
  }

  /** What becomes of the pair and of the other nodes: the targets are forced out one after the other,
      those that are not PREMISEs lose their label, and no other ASSUMPTION or PREMISE loses its own. */
  ghost predicate Handled(h: Graph, t: Graph, targets: seq<Id>)
  {
    && t.Keys == h.Keys
    && (forall n :: n in targets && n in h && !h[n].kind.Premise? ==> !t[n].isValid)
    && (forall n :: n in h && n !in targets && !h[n].kind.Derived? ==> t[n] == h[n])
    && (forall n :: n in h ==> t[n] == h[n] || t[n] == h[n].(isValid := false))
    && t == ForcedOutAll(h, targets)
  }

  /** An invalidation turns labels off and leaves every other ASSUMPTION alone. */
  lemma InvalidationLocal(g: Graph, n: Id)
    ensures Invalidated(g, n).Keys == g.Keys
    ensures forall x :: x in g ==> Invalidated(g, n)[x] == g[x] || Invalidated(g, n)[x] == g[x].(isValid := false)
    ensures forall x :: x in g && x != n && !g[x].kind.Derived? ==> Invalidated(g, n)[x] == g[x]
    ensures n in g && !g[n].kind.Premise? ==> !Invalidated(g, n)[n].isValid
  {
    if n in g && !g[n].kind.Premise? {
      CascadeIsClosed(g, n);
      forall x | x in Cascade(g, n) && x != n ensures g[x].kind.Derived? {
        CascadeMembers(g, n, x);
      }
    }
  }

  lemma FlippedTwice(g: Graph, h: Graph, k: Graph)
    requires g.Keys == h.Keys == k.Keys
    requires forall n :: n in g && k[n].isValid ==> h[n].isValid
    requires forall n :: n in g && h[n].isValid ==> g[n].isValid
    ensures Flipped(g, h) + Flipped(h, k) == Flipped(g, k)
  {
  }

  lemma HandledOne(h: Graph, t: Graph, targets: seq<Id>, n: Id)
    requires Handled(h, t, targets)
    ensures Handled(h, Invalidated(t, n), targets + [n])
  {
    InvalidationLocal(t, n);
    InvalidationFlips(t, n);
    assert (targets + [n])[..|targets|] == targets;
  }

  lemma ResolvedOnes(h: Graph, a: Id, b: Id)
    requires a in h && b in h
    ensures Handled(h, h, []) && Handled(h, Invalidated(h, a), [a]) && Handled(h, Invalidated(h, b), [b])
    ensures Handled(h, Invalidated(Invalidated(h, a), b), [a, b])
  {
    HandledOne(h, h, [], a);
    HandledOne(h, h, [], b);
    HandledOne(h, Invalidated(h, a), [a], b);
    assert [] + [a] == [a] && [] + [b] == [b] && [a] + [b] == [a, b];
  }

  lemma ReportIsFlipped(h: Graph, a: Id, b: Id, strategy: string)
    requires a in h && b in h
    ensures ResolvedReport(h, a, b, strategy) == Flipped(h, Resolved(h, a, b, strategy))
  {
    var mid := Invalidated(h, a);
    InvalidationFlips(h, a);
    InvalidationFlips(h, b);
    InvalidationFlips(mid, b);
    InvalidationLocal(h, a);
    InvalidationLocal(mid, b);
    FlippedTwice(h, mid, Invalidated(mid, b));
  }

  /** The effect of the resolution, and its report, for every strategy and from any labels. */
  lemma ContradictionOutcome(h: Graph, a: Id, b: Id, strategy: string)
    requires a in h && b in h
    ensures ResolvedReport(h, a, b, strategy) == Flipped(h, Resolved(h, a, b, strategy))
    ensures var targets := if !h[a].isValid || !h[b].isValid then []
                           else match strategy
                                case "invalidate_a" => [a]
                                case "invalidate_b" => [b]
                                case "invalidate_both" => [a, b]
                                case _ => [];
            Handled(h, Resolved(h, a, b, strategy), targets)
  {
    ReportIsFlipped(h, a, b, strategy);
    ResolvedOnes(h, a, b);
  }

  lemma SameJustsSameIndex(g: Graph, h: Graph, index: Index)
    requires IndexExact(g, index) && AntecedentsKnown(g)
    requires forall c :: c in g ==> c in h && h[c].justs == g[c].justs
    requires forall c :: c in h && c !in g ==> h[c].justs == []
    ensures IndexExact(h, index) && AntecedentsKnown(h)
  {
  }

  method IndexJustification(index: Index, c: Id, ants: set<Id>) returns (index': Index)
    ensures forall n, x :: Listed(index', n, x) <==> Listed(index, n, x) || (x == c && n in ants)
  {
    index' := index;
    var rest := ants;
    while rest != {}
      invariant rest <= ants
      invariant forall n, x :: Listed(index', n, x) <==> Listed(index, n, x) || (x == c && n in ants - rest)
    {
      var a :| a in rest;
      ghost var before, left := index', rest;
      rest := rest - {a};
      index' := index'[a := (if a in index' then index'[a] else {}) + {c}];
      forall n, x ensures Listed(index', n, x) <==> Listed(index, n, x) || (x == c && n in ants - rest) {
        assert Listed(index', n, x) <==> Listed(before, n, x) || (n == a && x == c);
        assert n in ants - rest <==> n in ants - left || n == a;
      }
    }
  }

  lemma JustificationIndexed(g: Graph, c: Id, ants: set<Id>)
    requires c in g && ants <= g.Keys && AntecedentsKnown(g)
    ensures var h := g[c := g[c].(justs := g[c].justs + [ants])];
            AntecedentsKnown(h) &&
            forall n, x :: x in h && DependsOn(h, x, n) <==> (x in g && DependsOn(g, x, n)) || (x == c && n in ants)
  {
    var h := g[c := g[c].(justs := g[c].justs + [ants])];
    forall n ensures DependsOn(h, c, n) <==> DependsOn(g, c, n) || n in ants {
      if DependsOn(g, c, n) {
        var j :| 0 <= j < |g[c].justs| && n in g[c].justs[j];
        assert h[c].justs[j] == g[c].justs[j];
      }
      assert h[c].justs[|g[c].justs|] == ants;
    }
  }
}
