/** The infrastructure topology, its translation into an engine, and interventions.

    The forward-failure walk over the topology and the belief cascade over the translated engine
    are two independent computations; they are proved to agree on every graph.
 */
module CausalTopology {
  import opened Options
  import opened AtmsLogic
  import opened AtmsCascade
  import opened AtmsEngine

  datatype Edge = Edge(source: Id, target: Id, edgeType: string)

  /** Nodes with outgoing and incoming adjacency lists. */
  datatype CausalGraph = CausalGraph(nodeIds: set<Id>, outgoing: map<Id, seq<Edge>>, incoming: map<Id, seq<Edge>>)

  predicate IsForward(e: Edge) { e.edgeType == "connected_to" || e.edgeType == "host_application" }

  predicate IsReverse(e: Edge) { e.edgeType == "depends_on" || e.edgeType == "powered_by" }

  function At(adj: map<Id, seq<Edge>>, n: Id): seq<Edge>
  {
    if n in adj then adj[n] else []
  }

  /** Both adjacency lists hold the same edges, filed under their endpoints, all of them nodes. */
  ghost predicate WellFormed(cg: CausalGraph)
  {
    && (forall n, e :: e in At(cg.outgoing, n) ==> e.source == n && e in At(cg.incoming, e.target))
    && (forall n, e :: e in At(cg.incoming, n) ==> e.target == n && e in At(cg.outgoing, e.source))
    && (forall n, e :: e in At(cg.outgoing, n) ==> e.source in cg.nodeIds && e.target in cg.nodeIds)
  }

  ghost predicate HasEdge(cg: CausalGraph, e: Edge)
  {
    e in At(cg.outgoing, e.source)
  }

  /** A failure of `x` reaches `y` in one step. */
  ghost predicate FailsOver(cg: CausalGraph, x: Id, y: Id)
  {
    exists e :: HasEdge(cg, e) && Carries(e, x, y)
  }

  /** Failures run along the first two edge types and against the other two. */
  lemma FailureRules(cg: CausalGraph, x: Id, y: Id)
    ensures FailsOver(cg, x, y) <==>
            exists e :: HasEdge(cg, e) &&
              ((e == Edge(x, y, "connected_to") || e == Edge(x, y, "host_application")) ||
               (e == Edge(y, x, "depends_on") || e == Edge(y, x, "powered_by")))
  {
    if e :| HasEdge(cg, e) && Carries(e, x, y) {
      assert e == Edge(x, y, e.edgeType) || e == Edge(y, x, e.edgeType);
    }
    forall e | HasEdge(cg, e) &&
        (e == Edge(x, y, "connected_to") || e == Edge(x, y, "host_application") ||
         e == Edge(y, x, "depends_on") || e == Edge(y, x, "powered_by"))
      ensures Carries(e, x, y)
    {
    }
  }

  predicate Carries(e: Edge, x: Id, y: Id)
  {
    (IsForward(e) && e.source == x && e.target == y) || (IsReverse(e) && e.target == x && e.source == y)
  }

  ghost predicate IsEndpoint(rows: seq<Edge>, n: Id)
  {
    exists e :: e in rows && (n == e.source || n == e.target)
  }

  lemma EndpointStep(rows: seq<Edge>, e: Edge)
    ensures forall n :: IsEndpoint(rows + [e], n) <==> IsEndpoint(rows, n) || n == e.source || n == e.target
  {
    assert e in rows + [e] && forall x :: x in rows ==> x in rows + [e];
  }

  // ----- loading the topology rows

  /** A row of the topology table: an edge with the types its inserter gave to the two endpoints. */
  datatype Row = Row(edge: Edge, sourceType: string, targetType: string)

  function Named(r: Row, asSource: bool): Id
  {
    if asSource then r.edge.source else r.edge.target
  }

  function TypeGiven(r: Row, asSource: bool): string
  {
    if asSource then r.sourceType else r.targetType
  }

  /** The type given to `n` by the last row that names it on that side. */
  function LastType(rows: seq<Row>, n: Id, asSource: bool): Option<string>
  {
    if rows == [] then None
    else
      var r := rows[|rows| - 1];
      if Named(r, asSource) == n then Some(TypeGiven(r, asSource)) else LastType(rows[..|rows| - 1], n, asSource)
  }

  /** Types given to sources beat types given to targets. */
  function ResolvedType(rows: seq<Row>, n: Id): Option<string>
  {
    var t := LastType(rows, n, true);
    if t.Some? then t else LastType(rows, n, false)
  }

  function Known(types: map<Id, string>, n: Id): Option<string>
  {
    if n in types then Some(types[n]) else None
  }

  predicate Names(rows: seq<Row>, n: Id, asSource: bool)
  {
    exists r :: r in rows && Named(r, asSource) == n
  }

  /** Some row gives `n` this type on that side. */
  predicate Gives(rows: seq<Row>, n: Id, asSource: bool, t: string)
  {
    exists r :: r in rows && Named(r, asSource) == n && TypeGiven(r, asSource) == t
  }

  lemma {:induction false} LastTypeIsGiven(rows: seq<Row>, n: Id, asSource: bool)
    ensures LastType(rows, n, asSource).Some? <==> Names(rows, n, asSource)
    ensures LastType(rows, n, asSource).Some? ==> Gives(rows, n, asSource, LastType(rows, n, asSource).value)
  {
    if rows != [] {
      LastTypeIsGiven(rows[..|rows| - 1], n, asSource);
      assert rows == rows[..|rows| - 1] + [rows[|rows| - 1]];
    }
  }

  /** What the two dictionaries hold after the rows. */
  ghost predicate Typed(rows: seq<Row>, sources: map<Id, string>, targets: map<Id, string>)
  {
    && (forall n :: Known(sources, n) == LastType(rows, n, true))
    && (forall n :: n !in sources ==> Known(targets, n) == LastType(rows, n, false))
  }

  lemma LastTypeNext(rows: seq<Row>, r: Row, n: Id, asSource: bool)
    ensures LastType(rows + [r], n, asSource) ==
            if Named(r, asSource) == n then Some(TypeGiven(r, asSource)) else LastType(rows, n, asSource)
  {
    assert (rows + [r])[..|rows|] == rows;
  }

  lemma TypedNext(rows: seq<Row>, r: Row, sources: map<Id, string>, targets: map<Id, string>)
    requires Typed(rows, sources, targets)
    ensures var sources' := sources[r.edge.source := r.sourceType];
            Typed(rows + [r], sources', if r.edge.target in sources' then targets else targets[r.edge.target := r.targetType])
  {
    forall n ensures LastType(rows + [r], n, true) == if r.edge.source == n then Some(r.sourceType) else LastType(rows, n, true) {
      LastTypeNext(rows, r, n, true);
    }
    forall n ensures LastType(rows + [r], n, false) == if r.edge.target == n then Some(r.targetType) else LastType(rows, n, false) {
      LastTypeNext(rows, r, n, false);
    }
  }

  lemma TypedMerges(rows: seq<Row>, sources: map<Id, string>, targets: map<Id, string>)
    requires Typed(rows, sources, targets)
    ensures forall n :: Known(targets + sources, n) == ResolvedType(rows, n)
  {
    forall n ensures Known(targets + sources, n) == ResolvedType(rows, n) {
      assert Known(sources, n) == LastType(rows, n, true);
    }
  }

  function EdgesOf(rows: seq<Row>): seq<Edge>
  {
    if rows == [] then [] else EdgesOf(rows[..|rows| - 1]) + [rows[|rows| - 1].edge]
  }

  lemma {:induction false} EdgesAre(rows: seq<Row>, e: Edge)
    ensures e in EdgesOf(rows) <==> exists r :: r in rows && r.edge == e
  {
    if rows != [] {
      EdgesAre(rows[..|rows| - 1], e);
      assert rows == rows[..|rows| - 1] + [rows[|rows| - 1]];
    }
  }

  method FromRows(rows: seq<Row>) returns (cg: CausalGraph, types: map<Id, string>)
    ensures WellFormed(cg)
    ensures forall e :: HasEdge(cg, e) <==> exists r :: r in rows && r.edge == e
    ensures cg.nodeIds == types.Keys
    ensures forall n :: Known(types, n) == ResolvedType(rows, n)
  {
    var sourceTypes: map<Id, string>, targetTypes: map<Id, string> := map[], map[];
    var edges: seq<Edge> := [];
    for i := 0 to |rows|
      invariant edges == EdgesOf(rows[..i])
      invariant Typed(rows[..i], sourceTypes, targetTypes)
    {
      TypedNext(rows[..i], rows[i], sourceTypes, targetTypes);
      assert rows[..i + 1] == rows[..i] + [rows[i]] && rows[..i + 1][..i] == rows[..i];
      var r := rows[i];
      sourceTypes := sourceTypes[r.edge.source := r.sourceType];
      if r.edge.target !in sourceTypes {
        targetTypes := targetTypes[r.edge.target := r.targetType];
      }
      edges := edges + [r.edge];
    }
    assert rows[..|rows|] == rows;
    types := targetTypes + sourceTypes;
    TypedMerges(rows, sourceTypes, targetTypes);
    cg := FileEdges(edges);
    forall e ensures HasEdge(cg, e) <==> exists r :: r in rows && r.edge == e {
      EdgesAre(rows, e);
    }
    forall n ensures n in cg.nodeIds <==> n in types {
      TypedIffEndpoint(rows, n);
      assert Known(types, n) == ResolvedType(rows, n);
    }
  }

  lemma TypedIffEndpoint(rows: seq<Row>, n: Id)
    ensures ResolvedType(rows, n).Some? <==> IsEndpoint(EdgesOf(rows), n)
  {
    LastTypeIsGiven(rows, n, true);
    LastTypeIsGiven(rows, n, false);
    if IsEndpoint(EdgesOf(rows), n) {
      var e :| e in EdgesOf(rows) && (n == e.source || n == e.target);
      EdgesAre(rows, e);
      var r :| r in rows && r.edge == e;
      assert Named(r, true) == n || Named(r, false) == n;
    }
    if asSource :| Names(rows, n, asSource) {
      var r :| r in rows && Named(r, asSource) == n;
      EdgesAre(rows, r.edge);
    }
  }

  /** The graph that holds exactly these edges. */
  ghost predicate Filed(cg: CausalGraph, edges: seq<Edge>)
  {
    && WellFormed(cg)
    && (forall e :: HasEdge(cg, e) <==> e in edges)
    && (forall n :: n in cg.nodeIds <==> IsEndpoint(edges, n))
  }

  function Filing(edges: seq<Edge>): CausalGraph
  {
    if edges == [] then CausalGraph({}, map[], map[]) else AddEdge(Filing(edges[..|edges| - 1]), edges[|edges| - 1])
  }

  lemma {:induction false} FilingIsFiled(edges: seq<Edge>)
    ensures Filed(Filing(edges), edges)
  {
    if edges != [] {
      var front, e := edges[..|edges| - 1], edges[|edges| - 1];
      FilingIsFiled(front);
      assert edges == front + [e];
      FiledNext(Filing(front), front, e);
    }
  }

  lemma FiledNext(cg: CausalGraph, edges: seq<Edge>, e: Edge)
    requires Filed(cg, edges)
    ensures Filed(AddEdge(cg, e), edges + [e])
  {
    EndpointStep(edges, e);
    AddEdgeWellFormed(cg, e);
  }

  /** Both adjacency lists. */
  method FileEdges(edges: seq<Edge>) returns (cg: CausalGraph)
    ensures Filed(cg, edges)
  {
    cg := CausalGraph({}, map[], map[]);
    for i := 0 to |edges|
      invariant cg == Filing(edges[..i])
    {
      assert edges[..i + 1][..i] == edges[..i];
      cg := AddEdge(cg, edges[i]);
    }
    assert edges[..|edges|] == edges;
    FilingIsFiled(edges);
  }

  /** All rows that name `n` on that side give it the same type. */
  predicate Unanimous(rows: seq<Row>, n: Id, asSource: bool)
  {
    forall r, r' :: r in rows && r' in rows && Named(r, asSource) == n && Named(r', asSource) == n ==>
      TypeGiven(r, asSource) == TypeGiven(r', asSource)
  }

  ghost predicate Reordered(rows: seq<Row>, other: seq<Row>)
  {
    multiset(rows) == multiset(other)
  }

  lemma SameRows(rows: seq<Row>, other: seq<Row>)
    requires Reordered(rows, other)
    ensures forall r :: r in rows <==> r in other
  {
    forall r ensures r in rows <==> r in other {
      assert r in rows <==> r in multiset(rows);
      assert r in other <==> r in multiset(other);
    }
  }

  lemma UnanimousFixesType(rows: seq<Row>, other: seq<Row>, n: Id)
    requires Reordered(rows, other) && Unanimous(rows, n, Names(rows, n, true))
    ensures ResolvedType(rows, n) == ResolvedType(other, n)
  {
    SameRows(rows, other);
    LastTypeIsGiven(rows, n, true);
    LastTypeIsGiven(other, n, true);
    LastTypeIsGiven(rows, n, false);
    LastTypeIsGiven(other, n, false);
  }

  /** Any row can come last. */
  lemma MoveLast(rows: seq<Row>, r: Row) returns (other: seq<Row>)
    requires r in rows
    ensures Reordered(rows, other) && other != [] && other[|other| - 1] == r
  {
    var k :| 0 <= k < |rows| && rows[k] == r;
    other := rows[..k] + rows[k + 1..] + [r];
    assert rows == rows[..k] + [r] + rows[k + 1..];
  }

  /** Every row that counts for `n` decides in some order. */
  lemma CanDecide(rows: seq<Row>, r: Row, n: Id) returns (other: seq<Row>)
    requires r in rows && Named(r, Names(rows, n, true)) == n
    ensures Reordered(rows, other) && ResolvedType(other, n) == Some(TypeGiven(r, Names(rows, n, true)))
  {
    other := MoveLast(rows, r);
    SameRows(rows, other);
    LastTypeIsGiven(other, n, true);
  }

  /** The type of a node is independent of the order of the rows exactly when the rows that name it as
      a source agree, or, if there are none, those that name it as a target. */
  lemma TypeOrderIrrelevantIff(rows: seq<Row>, n: Id)
    ensures (forall other :: Reordered(rows, other) ==> ResolvedType(other, n) == ResolvedType(rows, n)) <==>
            Unanimous(rows, n, Names(rows, n, true))
  {
    var asSource := Names(rows, n, true);
    if Unanimous(rows, n, asSource) {
      forall other | Reordered(rows, other) ensures ResolvedType(other, n) == ResolvedType(rows, n) {
        UnanimousFixesType(rows, other, n);
      }
    } else {
      var r, r' :| r in rows && r' in rows && Named(r, asSource) == n && Named(r', asSource) == n &&
                   TypeGiven(r, asSource) != TypeGiven(r', asSource);
      var other := CanDecide(rows, r, n);
      var other' := CanDecide(rows, r', n);
    }
  }

  function AddEdge(cg: CausalGraph, e: Edge): CausalGraph
  {
    CausalGraph(cg.nodeIds + {e.source, e.target},
                cg.outgoing[e.source := At(cg.outgoing, e.source) + [e]],
                cg.incoming[e.target := At(cg.incoming, e.target) + [e]])
  }

  lemma AddEdgeWellFormed(cg: CausalGraph, e: Edge)
    requires WellFormed(cg)
    ensures WellFormed(AddEdge(cg, e))
    ensures forall x :: HasEdge(AddEdge(cg, e), x) <==> HasEdge(cg, x) || x == e
  {
    var h := AddEdge(cg, e);
    assert forall n, x :: x in At(h.outgoing, n) <==> x in At(cg.outgoing, n) || (n == e.source && x == e);
    assert forall n, x :: x in At(h.incoming, n) <==> x in At(cg.incoming, n) || (n == e.target && x == e);
  }

  // ----- failure closure

  ghost predicate ImpactClosed(cg: CausalGraph, s: set<Id>)
  {
    forall x, y :: x in s && FailsOver(cg, x, y) ==> y in s
  }

  /** All nodes a failure of `x` reaches, `x` included: the least closed set holding it. */
  ghost function Impacted(cg: CausalGraph, x: Id): set<Id>
  {
    set n | n in cg.nodeIds && forall s :: x in s && ImpactClosed(cg, s) ==> n in s
  }

  lemma ImpactedIsLeast(cg: CausalGraph, x: Id, s: set<Id>)
    requires x in s && ImpactClosed(cg, s)
    ensures Impacted(cg, x) <= s
  {
  }

  lemma ImpactedIsClosed(cg: CausalGraph, x: Id)
    requires WellFormed(cg)
    ensures ImpactClosed(cg, Impacted(cg, x))
    ensures x in cg.nodeIds ==> x in Impacted(cg, x)
  {
  }

  ghost predicate FrontierDone(cg: CausalGraph, visited: set<Id>, queue: seq<Id>)
  {
    forall x, y :: x in visited && x !in queue && FailsOver(cg, x, y) ==> y in visited
  }

  predicate Spreads(e: Edge, forward: bool)
  {
    if forward then IsForward(e) else IsReverse(e)
  }

  function EndOf(e: Edge, forward: bool): Id
  {
    if forward then e.target else e.source
  }

  ghost predicate IsEnd(edges: seq<Edge>, forward: bool, n: Id)
  {
    exists e :: e in edges && Spreads(e, forward) && EndOf(e, forward) == n
  }

  /** Enqueues the not yet visited far ends of the edges that spread failure in this direction. */
  method Expand(edges: seq<Edge>, forward: bool, visited0: set<Id>, queue0: seq<Id>)
      returns (visited: set<Id>, queue: seq<Id>)
    ensures forall n :: n in visited <==> n in visited0 || IsEnd(edges, forward, n)
    ensures forall n :: n in queue <==> n in queue0 || (n in visited && n !in visited0)
    ensures visited == visited0 ==> queue == queue0
  {
    visited, queue := visited0, queue0;
    for i := 0 to |edges|
      invariant forall n :: n in visited <==> n in visited0 || IsEnd(edges[..i], forward, n)
      invariant forall n :: n in queue <==> n in queue0 || (n in visited && n !in visited0)
      invariant visited == visited0 ==> queue == queue0
    {
      assert edges[..i + 1] == edges[..i] + [edges[i]];
      IsEndStep(edges[..i], edges[i], forward);
      if Spreads(edges[i], forward) && EndOf(edges[i], forward) !in visited {
        visited, queue := visited + {EndOf(edges[i], forward)}, queue + [EndOf(edges[i], forward)];
      }
    }
    assert edges[..|edges|] == edges;
  }

  lemma IsEndStep(edges: seq<Edge>, e: Edge, forward: bool)
    ensures forall n :: IsEnd(edges + [e], forward, n) <==>
              IsEnd(edges, forward, n) || (Spreads(e, forward) && EndOf(e, forward) == n)
  {
  }

  lemma EndsAreFailures(cg: CausalGraph, x: Id)
    requires WellFormed(cg)
    ensures forall y :: FailsOver(cg, x, y) <==>
              IsEnd(At(cg.outgoing, x), true, y) || IsEnd(At(cg.incoming, x), false, y)
  {
    forall y ensures FailsOver(cg, x, y) <==>
              IsEnd(At(cg.outgoing, x), true, y) || IsEnd(At(cg.incoming, x), false, y)
    {
      if FailsOver(cg, x, y) {
        var e :| HasEdge(cg, e) && Carries(e, x, y);
        assert Spreads(e, true) || Spreads(e, false);
      }
      if IsEnd(At(cg.outgoing, x), true, y) {
        var e :| e in At(cg.outgoing, x) && Spreads(e, true) && EndOf(e, true) == y;
        assert HasEdge(cg, e) && Carries(e, x, y);
      }
      if IsEnd(At(cg.incoming, x), false, y) {
        var e :| e in At(cg.incoming, x) && Spreads(e, false) && EndOf(e, false) == y;
        assert HasEdge(cg, e) && Carries(e, x, y);
      }
    }
  }

  /** Direction-aware breadth-first walk. */
  method ImpactedBy(cg: CausalGraph, failed: Id) returns (result: set<Id>)
    requires WellFormed(cg)
    ensures result == Impacted(cg, failed) - {failed}
  {
    var queue, visited := [failed], {failed};
    ImpactedIsClosed(cg, failed);
    while queue != []
      invariant failed in visited
      invariant forall n :: n in queue ==> n in visited
      invariant visited <= Impacted(cg, failed) + {failed}
      invariant FrontierDone(cg, visited, queue)
      decreases cg.nodeIds + {failed} - visited, |queue|
    {
      var node, rest := queue[0], queue[1..];
      assert queue == [node] + rest;
      EndsAreFailures(cg, node);
      StepFromFailed(cg, failed, node);
      visited, queue := Expand(At(cg.outgoing, node), true, visited, rest);
      visited, queue := Expand(At(cg.incoming, node), false, visited, queue);
    }
    ImpactedIsLeast(cg, failed, visited);
    result := visited - {failed};
  }

  lemma StepFromFailed(cg: CausalGraph, failed: Id, node: Id)
    requires WellFormed(cg) && node in Impacted(cg, failed) + {failed}
    ensures forall y :: FailsOver(cg, node, y) ==> y in Impacted(cg, failed)
  {
  }

  // ----- translation into an engine

  /** The direct causes of `n`. */
  ghost function Causes(cg: CausalGraph, n: Id): set<Id>
  {
    set x | x in cg.nodeIds && FailsOver(cg, x, n)
  }

  /** A node without causes is an ASSUMPTION; any other has one justification, all its causes. */
  ghost function Translated(cg: CausalGraph): Graph
  {
    map n | n in cg.nodeIds ::
      if Causes(cg, n) == {} then Node(Assumption, true, []) else Node(Derived, true, [Causes(cg, n)])
  }

  ghost predicate Gathered(cg: CausalGraph, deps: map<Id, set<Id>>, done: iset<Edge>)
  {
    deps.Keys == cg.nodeIds &&
    forall n, x :: n in deps ==> (x in deps[n] <==> exists e :: e in done && Carries(e, x, n))
  }

  /** FORWARD: the target depends on the source; REVERSE: the source depends on the target. */
  function AddDependency(deps: map<Id, set<Id>>, e: Edge): map<Id, set<Id>>
    requires e.source in deps && e.target in deps
  {
    if IsForward(e) then deps[e.target := deps[e.target] + {e.source}]
    else if IsReverse(e) then deps[e.source := deps[e.source] + {e.target}]
    else deps
  }

  lemma GatherOne(cg: CausalGraph, deps: map<Id, set<Id>>, done: iset<Edge>, e: Edge)
    requires Gathered(cg, deps, done) && e.source in cg.nodeIds && e.target in cg.nodeIds
    ensures Gathered(cg, AddDependency(deps, e), done + iset{e})
  {
  }

  ghost function EdgeSet(edges: seq<Edge>): iset<Edge>
  {
    iset e | e in edges
  }

  method GatherFrom(cg: CausalGraph, edges: seq<Edge>, deps0: map<Id, set<Id>>, ghost done: iset<Edge>)
      returns (deps: map<Id, set<Id>>)
    requires Gathered(cg, deps0, done)
    requires forall e :: e in edges ==> e.source in cg.nodeIds && e.target in cg.nodeIds
    ensures Gathered(cg, deps, done + EdgeSet(edges))
  {
    deps := deps0;
    assert done + EdgeSet(edges[..0]) == done;
    for i := 0 to |edges|
      invariant Gathered(cg, deps, done + EdgeSet(edges[..i]))
    {
      GatherOne(cg, deps, done + EdgeSet(edges[..i]), edges[i]);
      deps := AddDependency(deps, edges[i]);
      assert done + EdgeSet(edges[..i]) + iset{edges[i]} == done + EdgeSet(edges[..i + 1]);
    }
    assert edges[..|edges|] == edges;
  }

  method GatherDependencies(cg: CausalGraph) returns (deps: map<Id, set<Id>>)
    requires WellFormed(cg)
    ensures deps == map n | n in cg.nodeIds :: Causes(cg, n)
  {
    deps := map n | n in cg.nodeIds :: {};
    var sources := cg.outgoing.Keys;
    ghost var done: iset<Edge> := iset{};
    while sources != {}
      invariant sources <= cg.outgoing.Keys
      invariant forall e :: e in done <==> HasEdge(cg, e) && e.source !in sources
      invariant Gathered(cg, deps, done)
    {
      var src :| src in sources;
      sources := sources - {src};
      var edges := cg.outgoing[src];
      assert edges == At(cg.outgoing, src);
      deps := GatherFrom(cg, edges, deps, done);
      done := done + EdgeSet(edges);
    }
    forall n | n in cg.nodeIds ensures deps[n] == Causes(cg, n) {
      forall x ensures x in deps[n] <==> x in Causes(cg, n) {
        CausesAreNodes(cg, x, n);
      }
    }
  }

  lemma CausesAreNodes(cg: CausalGraph, x: Id, y: Id)
    requires WellFormed(cg)
    ensures FailsOver(cg, x, y) ==> x in cg.nodeIds && y in cg.nodeIds
  {
  }

  /** Which order the nodes are registered in does not matter: an antecedent met before its own
      turn is born as an ASSUMPTION and retyped when its turn comes. */
  method BuildAtms(cg: CausalGraph) returns (atms: ATMSEngine)
    requires WellFormed(cg)
    ensures fresh(atms) && atms.Valid() && atms.nodes == Translated(cg)
    ensures atms.nodes.Keys == cg.nodeIds && forall n :: n in cg.nodeIds ==> BuiltFor(cg, n, atms.nodes[n])
  {
    var deps := GatherDependencies(cg);
    atms := new ATMSEngine();
    var rest := cg.nodeIds;
    while rest != {}
      invariant fresh(atms) && atms.Valid() && rest <= cg.nodeIds
      invariant PartlyBuilt(cg, atms.nodes, rest)
    {
      var n :| n in rest;
      BuildOne(cg, atms.nodes, rest, n);
      if deps[n] != {} {
        atms.RegisterNode(n, Derived, true);
        atms.AddJustification(n, deps[n]);
      } else {
        atms.RegisterNode(n, Assumption, true);
      }
      rest := rest - {n};
    }
    forall n | n in cg.nodeIds ensures BuiltFor(cg, n, atms.nodes[n]) {
      TranslatedIsBuilt(cg, n);
    }
  }

  /** The node starts out believed: an ASSUMPTION if no failure reaches it in one step, else DERIVED with
      one justification, the nodes whose failures do. */
  ghost predicate BuiltFor(cg: CausalGraph, n: Id, node: Node)
  {
    && node.isValid
    && if forall x :: !FailsOver(cg, x, n) then node.kind == Assumption && node.justs == []
       else node.kind == Derived && |node.justs| == 1 && forall x :: x in node.justs[0] <==> FailsOver(cg, x, n)
  }

  lemma TranslatedIsBuilt(cg: CausalGraph, n: Id)
    requires WellFormed(cg) && n in cg.nodeIds
    ensures BuiltFor(cg, n, Translated(cg)[n])
  {
    forall x ensures x in Causes(cg, n) <==> FailsOver(cg, x, n) {
      CausesAreNodes(cg, x, n);
    }
  }

  /** Every node of the set fails with another one of it: failures run in a circle. */
  ghost predicate Circular(cg: CausalGraph, s: set<Id>)
  {
    s != {} && s <= cg.nodeIds && forall n :: n in s ==> CausedWithin(cg, s, n)
  }

  ghost predicate CausedWithin(cg: CausalGraph, s: set<Id>, n: Id)
  {
    exists x :: x in s && FailsOver(cg, x, n)
  }

  lemma LeansIffCaused(cg: CausalGraph, s: set<Id>, n: Id)
    requires n in s && s <= cg.nodeIds
    ensures LeansOn(Translated(cg)[n], s) <==> CausedWithin(cg, s, n)
  {
    forall x ensures x in Causes(cg, n) * s <==> x in s && FailsOver(cg, x, n) {
    }
    if x :| x in Causes(cg, n) * s {
      assert x in s && FailsOver(cg, x, n);
    }
  }

  /** Circular sets are those that lean on themselves in the engine. */
  lemma CircularIffLeans(cg: CausalGraph, g: Graph, s: set<Id>)
    requires g.Keys == cg.nodeIds
    requires s <= cg.nodeIds ==> forall n :: n in s ==> (LeansOn(g[n], s) <==> CausedWithin(cg, s, n))
    ensures Circular(cg, s) <==> LeansOnItself(g, s)
  {
  }

  lemma TranslatedIsFresh(cg: CausalGraph)
    ensures Fresh(Translated(cg)) && AntecedentsIn(Translated(cg), Translated(cg).Keys)
  {
  }

  /** The labels of a newly built engine are exact exactly when failures do not run in circles. */
  lemma BuiltExactIffAcyclic(cg: CausalGraph)
    ensures Exact(Translated(cg)) <==> !exists s :: Circular(cg, s)
  {
    TranslatedIsFresh(cg);
    FreshExactIff(Translated(cg));
    forall s ensures Circular(cg, s) <==> LeansOnItself(Translated(cg), s) {
      forall n | n in s && s <= cg.nodeIds ensures LeansOn(Translated(cg)[n], s) <==> CausedWithin(cg, s, n) {
        LeansIffCaused(cg, s, n);
      }
      CircularIffLeans(cg, Translated(cg), s);
    }
  }

  lemma BuildOne(cg: CausalGraph, g: Graph, rest: set<Id>, n: Id)
    requires PartlyBuilt(cg, g, rest) && n in rest && rest <= cg.nodeIds
    ensures Causes(cg, n) == {} ==> PartlyBuilt(cg, Registered(g, n, Assumption, true), rest - {n})
    ensures Causes(cg, n) != {} ==>
              PartlyBuilt(cg, Justified(Registered(g, n, Derived, true), n, Causes(cg, n)), rest - {n})
  {
  }

  ghost predicate PartlyBuilt(cg: CausalGraph, g: Graph, rest: set<Id>)
  {
    && cg.nodeIds - rest <= g.Keys <= cg.nodeIds
    && forall n :: n in g ==> g[n] == if n in rest then Node(Assumption, true, []) else Translated(cg)[n]
  }

  // ----- interventions

  ghost function Invalid(g: Graph): set<Id>
  {
    set n | n in g && !g[n].isValid
  }

  /** A translated engine whose invalid nodes are closed under failure: the state between passes. */
  ghost predicate Translation(cg: CausalGraph, g: Graph)
  {
    Shaped(cg, g) && ImpactClosed(cg, Invalid(g))
  }

  ghost predicate Shaped(cg: CausalGraph, g: Graph)
  {
    g.Keys == cg.nodeIds &&
    forall n :: n in g ==> g[n].kind == Translated(cg)[n].kind && g[n].justs == Translated(cg)[n].justs
  }

  lemma DependenceIsFailure(cg: CausalGraph, g: Graph, c: Id, n: Id)
    requires WellFormed(cg) && Translation(cg, g) && c in g
    ensures DependsOn(g, c, n) <==> FailsOver(cg, n, c)
    ensures DependsOn(g, c, n) ==> g[c].kind.Derived? && |g[c].justs| == 1 && n in g[c].justs[0]
  {
    CausesAreNodes(cg, n, c);
    if FailsOver(cg, n, c) {
      assert n in Causes(cg, c);
      assert g[c].justs == [Causes(cg, c)];
      assert n in g[c].justs[0];
    }
  }

  /** With a single justification, losing one antecedent loses the node. */
  lemma LossSpreads(f: Graph, n: Id, c: Id)
    requires c in f && f[c].kind.Derived? && |f[c].justs| == 1 && n in f[c].justs[0]
    requires !Provable(f, n, {} + {c})
    ensures !Provable(f, c, {})
  {
  }

  lemma CascadeFollowsFailures(cg: CausalGraph, g: Graph, root: Id, n: Id, c: Id)
    requires WellFormed(cg) && Translation(cg, g) && root in g
    requires n in Cascade(g, root) && FailsOver(cg, n, c) && c in g && g[c].isValid
    ensures c in Cascade(g, root)
  {
    CascadeIsClosed(g, root);
    if c != root {
      var f := Frozen(g, root);
      DependenceIsFailure(cg, g, c, n);
      CascadeIsLost(g, root, n, {} + {c});
      LossSpreads(f, n, c);
      assert Drags(g, f, n, c);
    }
  }

  lemma CascadeWithinFailures(cg: CausalGraph, g: Graph, root: Id)
    requires WellFormed(cg) && Translation(cg, g) && root in g
    ensures Cascade(g, root) <= Impacted(cg, root)
  {
    ImpactedIsClosed(cg, root);
    forall n, c | n in Impacted(cg, root) && Drags(g, Frozen(g, root), n, c) ensures c in Impacted(cg, root) {
      DependenceIsFailure(cg, g, c, n);
    }
    CascadeIsLeast(g, root, Impacted(cg, root));
  }

  lemma FailuresWithinCascade(cg: CausalGraph, g: Graph, root: Id)
    requires WellFormed(cg) && Translation(cg, g) && root in g
    ensures Impacted(cg, root) <= Invalid(g) + Cascade(g, root)
  {
    var s := Invalid(g) + Cascade(g, root);
    CascadeIsClosed(g, root);
    forall n, c | n in s && FailsOver(cg, n, c) ensures c in s {
      CausesAreNodes(cg, n, c);
      if n in Cascade(g, root) && g[c].isValid {
        CascadeFollowsFailures(cg, g, root, n, c);
      }
    }
    ImpactedIsLeast(cg, root, s);
  }

  lemma UnionClosed(cg: CausalGraph, s: set<Id>, t: set<Id>)
    requires ImpactClosed(cg, s) && ImpactClosed(cg, t)
    ensures ImpactClosed(cg, s + t)
  {
  }

  lemma PassOnShaped(cg: CausalGraph, g: Graph, root: Id)
    requires Shaped(cg, g)
    ensures Shaped(cg, Deprecated(g, root))
    ensures Invalid(Deprecated(g, root)) == Invalid(g) + Cascade(g, root)
    ensures Reported(g, root) == Cascade(g, root) - Invalid(g)
    ensures root in g ==> !g[root].kind.Premise?
  {
    assert forall n :: n in g ==> !g[n].kind.Premise?;
    DeprecatedShrinks(g, root);
  }

  /** A pass over a translated topology processes exactly the failure closure of its root, minus
      what had already failed. */
  lemma PassFollowsFailures(cg: CausalGraph, g: Graph, root: Id)
    requires WellFormed(cg) && Translation(cg, g) && root in g
    ensures Reported(g, root) == Impacted(cg, root) - Invalid(g)
    ensures Invalid(Deprecated(g, root)) == Invalid(g) + Impacted(cg, root)
    ensures Translation(cg, Deprecated(g, root)) && !g[root].kind.Premise?
  {
    CascadeWithinFailures(cg, g, root);
    FailuresWithinCascade(cg, g, root);
    PassOnShaped(cg, g, root);
    assert Invalid(g) + Cascade(g, root) == Invalid(g) + Impacted(cg, root);
    ImpactedIsClosed(cg, root);
    UnionClosed(cg, Invalid(g), Impacted(cg, root));
  }

  ghost function ImpactedByAny(cg: CausalGraph, targets: seq<Id>): set<Id>
  {
    set t, n | t in targets && t in cg.nodeIds && n in Impacted(cg, t) :: n
  }

  lemma ImpactedByOneMore(cg: CausalGraph, targets: seq<Id>, t: Id)
    ensures ImpactedByAny(cg, targets + [t]) ==
            ImpactedByAny(cg, targets) + if t in cg.nodeIds then Impacted(cg, t) else {}
  {
  }

  /** One target: invalidated, then forced out once more; the second pass adds nothing. */
  method InterveneOn(cg: CausalGraph, atms: ATMSEngine, n: Id) returns (cascade: set<Id>)
    requires WellFormed(cg) && atms.Valid() && Translation(cg, atms.nodes)
    modifies atms
    ensures atms.Valid() && Translation(cg, atms.nodes)
    ensures var impact := if n in cg.nodeIds then Impacted(cg, n) else {};
            Invalid(atms.nodes) == old(Invalid(atms.nodes)) + impact &&
            cascade == impact - old(Invalid(atms.nodes))
  {
    if n in cg.nodeIds {
      PassFollowsFailures(cg, atms.nodes, n);
    }
    cascade := atms.InvalidateAssumption(n);
    if n in atms.nodes {
      PassFollowsFailures(cg, atms.nodes, n);
      var again := atms.PropagateDeprecation(n);
      assert again == {};
      cascade := cascade + again;
    }
  }

  lemma TranslatedStart(cg: CausalGraph)
    ensures Translation(cg, Translated(cg)) && Invalid(Translated(cg)) == {}
  {
  }

  /** The intervention loop: the cascade of any list of targets, whatever its order, is the union of
      their failure closures. */
  method EvaluateIntervention(cg: CausalGraph, targets: seq<Id>) returns (cascade: set<Id>)
    requires WellFormed(cg)
    ensures cascade == ImpactedByAny(cg, targets)
  {
    var atms := BuildAtms(cg);
    TranslatedStart(cg);
    cascade := {};
    for i := 0 to |targets|
      invariant fresh(atms) && atms.Valid() && Translation(cg, atms.nodes)
      invariant cascade == Invalid(atms.nodes) == ImpactedByAny(cg, targets[..i])
    {
      assert targets[..i + 1] == targets[..i] + [targets[i]];
      ImpactedByOneMore(cg, targets[..i], targets[i]);
      var c := InterveneOn(cg, atms, targets[i]);
      cascade := cascade + c;
    }
    assert targets[..|targets|] == targets;
  }
}
