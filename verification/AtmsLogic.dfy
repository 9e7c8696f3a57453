/** Justification graphs and what they support.

    `Provable` is the recursive path-guarded proof search: a DERIVED node holds when some
    justification has all its antecedents provable without going through a node that is already
    being proved.  `LeastModel` is the declarative meaning: the intersection of all labellings
    that contain the premises and the valid assumptions and are closed under the justifications.
    The two are proved equal, so cutting cycles neither invents support nor loses a real proof.
 */
module AtmsLogic {

  type Id = string

  datatype NodeType = Assumption | Premise | Derived

  /** A node with its label and its justifications; each justification is its antecedent set. */
  datatype Node = Node(kind: NodeType, isValid: bool, justs: seq<set<Id>>)

  type Graph = map<Id, Node>

  /** Is `n` provable when the nodes on `path` may not be used as support? */
  ghost predicate Provable(g: Graph, n: Id, path: set<Id>)
    decreases g.Keys - path, 0
  {
    n in g &&
    match g[n].kind
    case Premise => true
    case Assumption => g[n].isValid
    case Derived =>
      n !in path &&
      assert g.Keys - (path + {n}) < g.Keys - path by { assert n in g.Keys - path; }
      exists j :: 0 <= j < |g[n].justs| && AllProvable(g, g[n].justs[j], path + {n})
  }

  ghost predicate AllProvable(g: Graph, ants: set<Id>, path: set<Id>)
    decreases g.Keys - path, 1
  {
    forall a :: a in ants ==> Provable(g, a, path)
  }

  /** A larger path only removes proofs. */
  lemma {:induction false} ProvableAntitone(g: Graph, n: Id, p: set<Id>, q: set<Id>)
    requires p <= q
    requires Provable(g, n, q)
    ensures Provable(g, n, p)
    decreases g.Keys - p
  {
    if g[n].kind.Derived? {
      var j :| 0 <= j < |g[n].justs| && AllProvable(g, g[n].justs[j], q + {n});
      assert n in g.Keys - p;
      forall a | a in g[n].justs[j] ensures Provable(g, a, p + {n}) {
        ProvableAntitone(g, a, p + {n}, q + {n});
      }
      assert AllProvable(g, g[n].justs[j], p + {n});
    }
  }

  /** If forbidding `c` destroys every proof of `n`, then `c` itself is provable. */
  lemma {:induction false} CutNodeIsProvable(g: Graph, n: Id, path: set<Id>, c: Id)
    requires Provable(g, n, path)
    requires !Provable(g, n, path + {c})
    ensures Provable(g, c, path)
    decreases g.Keys - path
  {
    if n != c {
      var j :| 0 <= j < |g[n].justs| && AllProvable(g, g[n].justs[j], path + {n});
      assert !AllProvable(g, g[n].justs[j], path + {c} + {n});
      var a :| a in g[n].justs[j] && !Provable(g, a, path + {c} + {n});
      assert path + {c} + {n} == path + {n} + {c};
      assert n in g.Keys - path;
      CutNodeIsProvable(g, a, path + {n}, c);
      ProvableAntitone(g, c, path, path + {n});
    }
  }

  // ----- the declarative meaning

  /** Does `n` get support when exactly the nodes of `s` are believed? */
  ghost predicate Fires(g: Graph, n: Id, s: set<Id>)
    requires n in g
  {
    match g[n].kind
    case Premise => true
    case Assumption => g[n].isValid
    case Derived => exists j :: 0 <= j < |g[n].justs| && g[n].justs[j] <= s
  }

  ghost predicate Closed(g: Graph, s: set<Id>)
  {
    forall n :: n in g && Fires(g, n, s) ==> n in s
  }

  ghost function LeastModel(g: Graph): set<Id>
  {
    set n | n in g && forall s :: Closed(g, s) ==> n in s
  }

  lemma LeastModelIsLeast(g: Graph, s: set<Id>)
    requires Closed(g, s)
    ensures LeastModel(g) <= s
  {
  }

  lemma LeastModelIsClosed(g: Graph)
    ensures Closed(g, LeastModel(g))
  {
  }

  /** The least model is a fixpoint: a node is in it exactly when it gets support from it. */
  lemma LeastModelIsFixpoint(g: Graph, n: Id)
    requires n in g
    ensures n in LeastModel(g) <==> Fires(g, n, LeastModel(g))
  {
    var m := LeastModel(g);
    LeastModelIsClosed(g);
    if n in m && !Fires(g, n, m) {
      var s := m - {n};
      assert Closed(g, s) by {
        forall x | x in g && Fires(g, x, s) ensures x in s {
          assert Fires(g, x, m);
        }
      }
      LeastModelIsLeast(g, s);
    }
  }

  lemma {:induction false} ProvableInEveryClosedSet(g: Graph, n: Id, path: set<Id>, s: set<Id>)
    requires Provable(g, n, path)
    requires Closed(g, s)
    ensures n in s
    decreases g.Keys - path
  {
    if g[n].kind.Derived? {
      var j :| 0 <= j < |g[n].justs| && AllProvable(g, g[n].justs[j], path + {n});
      assert n in g.Keys - path;
      forall a | a in g[n].justs[j] ensures a in s {
        ProvableInEveryClosedSet(g, a, path + {n}, s);
      }
    }
    assert Fires(g, n, s);
  }

  ghost function ProvableNodes(g: Graph): set<Id>
  {
    set n | n in g && Provable(g, n, {})
  }

  /** Whatever follows from provable antecedents is provable, although the path guard forbids
      proofs that revisit a node. */
  lemma ProvableNodesClosed(g: Graph)
    ensures Closed(g, ProvableNodes(g))
  {
    var s := ProvableNodes(g);
    forall n | n in g && Fires(g, n, s) ensures n in s {
      if g[n].kind.Derived? {
        var j :| 0 <= j < |g[n].justs| && g[n].justs[j] <= s;
        if a :| a in g[n].justs[j] && !Provable(g, a, {} + {n}) {
          CutNodeIsProvable(g, a, {}, n);
        } else {
          assert AllProvable(g, g[n].justs[j], {} + {n});
        }
      }
    }
  }

  /** Proof search from the empty path decides membership in the least model. */
  lemma ProvableIffLeastModel(g: Graph, n: Id)
    ensures Provable(g, n, {}) <==> n in LeastModel(g)
  {
    if Provable(g, n, {}) {
      forall s | Closed(g, s) ensures n in s {
        ProvableInEveryClosedSet(g, n, {}, s);
      }
    }
    ProvableNodesClosed(g);
    LeastModelIsLeast(g, ProvableNodes(g));
  }

  /** A set of nodes all of whose justifications lean on the set itself holds no provable node:
      circular support alone never makes anything valid. */
  lemma CircularSupportIsNoSupport(g: Graph, loop: set<Id>, n: Id, path: set<Id>)
    requires forall x :: x in loop && x in g ==> g[x].kind.Derived?
    requires forall x, j :: x in loop && x in g && 0 <= j < |g[x].justs| ==> g[x].justs[j] * loop != {}
    requires n in loop
    ensures !Provable(g, n, path)
  {
    var s := g.Keys - loop;
    assert Closed(g, s) by {
      forall x | x in g && Fires(g, x, s) ensures x in s {
      }
    }
    if Provable(g, n, path) {
      ProvableInEveryClosedSet(g, n, path, s);
    }
  }

  // ----- what provability depends on

  /** Labels of DERIVED and PREMISE nodes play no part in a proof. */
  ghost predicate SameNode(x: Node, y: Node)
  {
    x.kind == y.kind && x.justs == y.justs && (x.kind.Assumption? ==> x.isValid == y.isValid)
  }

  ghost predicate SameLogic(g: Graph, h: Graph)
  {
    g.Keys == h.Keys && forall n :: n in g ==> SameNode(g[n], h[n])
  }

  lemma {:induction false} SameLogicSameLeastModel(g: Graph, h: Graph)
    requires SameLogic(g, h)
    ensures LeastModel(g) == LeastModel(h)
  {
  }

  /** The graph in which `n` is forced out. */
  function Cut(g: Graph, n: Id): Graph
  {
    map x | x in g :: if x == n then Node(Assumption, false, []) else g[x]
  }

  /** Forcing a node out can only shrink the least model. */
  lemma CutShrinks(g: Graph, n: Id)
    ensures LeastModel(Cut(g, n)) <= LeastModel(g)
    ensures n !in LeastModel(Cut(g, n))
  {
    var h := Cut(g, n);
    forall s | Closed(g, s) ensures Closed(h, s) {
      forall x | x in h && Fires(h, x, s) ensures x in s {
        assert Fires(g, x, s);
      }
    }
    if n in LeastModel(h) {
      LeastModelIsFixpoint(h, n);
    }
  }

  /** Forcing out a node that has no support anyway changes nothing. */
  lemma CutOfUnsupported(g: Graph, n: Id)
    requires n !in LeastModel(g)
    ensures LeastModel(Cut(g, n)) == LeastModel(g)
  {
  }
}
