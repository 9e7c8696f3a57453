/** The explicit-stack proof search of the engine, proved against `Provable`.

    The machine keeps a stack of frames, one per DERIVED node under evaluation, and a return
    stack.  A frame walks through the justifications of its node; when an antecedent cannot be
    decided on the spot the frame is suspended and a child frame is pushed.
 */
module AtmsSearch {
  import opened Options
  import opened AtmsLogic

  type Memo = map<Id, bool>

  datatype Frame = Frame(
    nid: Id,           // node being evaluated
    path: set<Id>,     // active path including nid
    justIdx: nat,      // justification being checked
    ants: seq<Id>,     // its antecedents in iteration order
    antIdx: nat,       // next antecedent to evaluate
    antOk: bool,       // all antecedents so far were true
    found: bool)       // a satisfied justification was found

  // ----- the memo

  /** Every entry is the answer for the empty path. */
  ghost predicate MemoSound(f: Graph, memo: Option<Memo>)
  {
    memo.Some? ==> forall n :: n in memo.value ==> (memo.value[n] <==> Provable(f, n, {}))
  }

  /** `f` is the graph whose meaning is being computed while `g` is the graph being read: they
      may differ only at nodes that the memo already declares unprovable. */
  ghost predicate Reads(g: Graph, f: Graph, memo: Option<Memo>)
  {
    g.Keys == f.Keys &&
    forall n :: n in g ==> SameNode(g[n], f[n]) || (memo.Some? && n in memo.value && !memo.value[n])
  }

  /** Decides a node without a frame where that is possible.  A cached false is used under any
      path, a cached true only under the empty one. */
  function Leaf(g: Graph, memo: Option<Memo>, n: Id, path: set<Id>): Option<bool>
  {
    if memo.Some? && n in memo.value && !memo.value[n] then Some(false)
    else if memo.Some? && n in memo.value && path == {} then Some(true)
    else if n !in g then Some(false)
    else if g[n].kind.Premise? then Some(true)
    else if g[n].kind.Assumption? then Some(g[n].isValid)
    else if n in path then Some(false)
    else None
  }

  /** The memo is transparent: a leaf answer is the memo-free answer under the current path. */
  lemma LeafIsSound(g: Graph, f: Graph, memo: Option<Memo>, n: Id, path: set<Id>)
    requires MemoSound(f, memo) && Reads(g, f, memo)
    ensures Leaf(g, memo, n, path).Some? ==> (Leaf(g, memo, n, path).value <==> Provable(f, n, path))
    ensures Leaf(g, memo, n, path).None? ==>
              n in g && g[n].kind.Derived? && n !in path && SameNode(g[n], f[n])
  {
    if memo.Some? && n in memo.value && !memo.value[n] && Provable(f, n, path) {
      ProvableAntitone(f, n, {}, path);
    }
  }

  // ----- frames

  /** Iterating a frozenset: some enumeration of it, without repetition. */
  method ToList(s: set<Id>) returns (l: seq<Id>)
    ensures Lists(l, s)
  {
    l := [];
    var rest := s;
    while rest != {}
      invariant rest <= s
      invariant |l| + |rest| == |s|
      invariant forall x :: x in s <==> x in l || x in rest
    {
      var x :| x in rest;
      l, rest := l + [x], rest - {x};
    }
  }

  ghost predicate Lists(l: seq<Id>, s: set<Id>)
  {
    |l| == |s| && forall x :: x in l <==> x in s
  }

  ghost predicate FrameOk(g: Graph, f: Graph, fr: Frame)
  {
    && g.Keys == f.Keys && fr.nid in g && g[fr.nid].kind.Derived? && SameNode(g[fr.nid], f[fr.nid])
    && fr.nid in fr.path
    && fr.justIdx <= |g[fr.nid].justs|
    && Lists(fr.ants, if fr.justIdx < |g[fr.nid].justs| then g[fr.nid].justs[fr.justIdx] else {})
    && fr.antIdx <= |fr.ants|
    && fr.antOk && !fr.found
  }

  /** The value the frame has to report. */
  ghost predicate Goal(f: Graph, fr: Frame)
  {
    Provable(f, fr.nid, fr.path - {fr.nid})
  }

  ghost predicate RestOfAnts(f: Graph, fr: Frame)
  {
    forall i :: fr.antIdx <= i < |fr.ants| ==> Provable(f, fr.ants[i], fr.path)
  }

  ghost predicate LaterJust(f: Graph, fr: Frame)
    requires fr.nid in f
  {
    exists j :: fr.justIdx < j < |f[fr.nid].justs| && AllProvable(f, f[fr.nid].justs[j], fr.path)
  }

  /** What is left to evaluate, provided the antecedent under evaluation yields `v`. */
  ghost predicate Pending(f: Graph, fr: Frame, v: bool)
    requires fr.nid in f
  {
    (fr.justIdx < |f[fr.nid].justs| && v && RestOfAnts(f, fr)) || LaterJust(f, fr)
  }

  /** The frame is suspended on the antecedent `c`. */
  ghost predicate Waiting(f: Graph, fr: Frame, c: Id)
    requires fr.nid in f
  {
    c !in fr.path && (Goal(f, fr) <==> Pending(f, fr, Provable(f, c, fr.path)))
  }

  lemma FreshFrame(g: Graph, f: Graph, fr: Frame)
    requires FrameOk(g, f, fr) && fr.justIdx == 0 && fr.antIdx == 0
    ensures Goal(f, fr) <==> Pending(f, fr, true)
  {
    var justs := f[fr.nid].justs;
    assert fr.path - {fr.nid} + {fr.nid} == fr.path;
    assert Goal(f, fr) <==> exists j :: 0 <= j < |justs| && AllProvable(f, justs[j], fr.path);
    if 0 < |justs| {
      RestIsAll(f, fr, justs[0]);
    }
  }

  lemma RestIsAll(f: Graph, fr: Frame, ants: set<Id>)
    requires Lists(fr.ants, ants) && fr.antIdx == 0
    ensures RestOfAnts(f, fr) <==> AllProvable(f, ants, fr.path)
  {
  }

  /** Moving on to the next justification. */
  lemma NextJustification(g: Graph, f: Graph, fr: Frame, next: Frame)
    requires g.Keys == f.Keys && fr.nid in g && SameNode(g[fr.nid], f[fr.nid])
    requires fr.justIdx < |g[fr.nid].justs|
    requires next.nid == fr.nid && next.path == fr.path
    requires next.justIdx == fr.justIdx + 1 && next.antIdx == 0
    requires Lists(next.ants, if next.justIdx < |g[fr.nid].justs| then g[fr.nid].justs[next.justIdx] else {})
    ensures Pending(f, fr, false) <==> Pending(f, next, true)
  {
  }

  method MakeFrame(g: Graph, n: Id, path: set<Id>, ghost f: Graph) returns (fr: Frame)
    requires g.Keys == f.Keys && n in g && g[n].kind.Derived? && SameNode(g[n], f[n])
    ensures FrameOk(g, f, fr)
    ensures fr.nid == n && fr.path == path + {n} && fr.justIdx == 0 && fr.antIdx == 0
    ensures Goal(f, fr) <==> Pending(f, fr, true)
  {
    var ants := [];
    if g[n].justs != [] {
      ants := ToList(g[n].justs[0]);
    }
    fr := Frame(n, path + {n}, 0, ants, 0, true, false);
    FreshFrame(g, f, fr);
  }

  /** The frame after its current justification has failed. */
  method SkipJustification(g: Graph, fr: Frame, ghost f: Graph) returns (next: Frame)
    requires g.Keys == f.Keys && fr.nid in g && SameNode(g[fr.nid], f[fr.nid])
    requires fr.justIdx < |g[fr.nid].justs|
    ensures next.nid == fr.nid && next.path == fr.path && next.found == fr.found
    ensures next.justIdx == fr.justIdx + 1 && next.antIdx == 0 && next.antOk
    ensures Lists(next.ants, if next.justIdx < |g[fr.nid].justs| then g[fr.nid].justs[next.justIdx] else {})
    ensures Pending(f, fr, false) <==> Pending(f, next, true)
  {
    var j := fr.justIdx + 1;
    var ants := [];
    if j < |g[fr.nid].justs| {
      ants := ToList(g[fr.nid].justs[j]);
    }
    next := fr.(justIdx := j, ants := ants, antIdx := 0, antOk := true);
    NextJustification(g, f, fr, next);
  }

  // ----- termination: every round pushes a frame that is paid for, or pops one

  ghost function Total(justs: seq<set<Id>>): nat
  {
    if justs == [] then 0 else |justs[0]| + Total(justs[1..])
  }

  /** Antecedents of the frame that have not been started. */
  ghost function Remaining(g: Graph, fr: Frame): nat
    requires fr.nid in g && fr.justIdx <= |g[fr.nid].justs|
  {
    var ahead := if fr.antIdx <= |fr.ants| then |fr.ants| - fr.antIdx else 0;
    ahead + (if fr.justIdx < |g[fr.nid].justs| then Total(g[fr.nid].justs[fr.justIdx + 1..]) else 0)
  }

  lemma RemainingAfterSkip(g: Graph, fr: Frame, next: Frame)
    requires fr.nid in g && fr.justIdx < |g[fr.nid].justs|
    requires next.nid == fr.nid && next.justIdx == fr.justIdx + 1 && next.antIdx == 0
    requires Lists(next.ants, if next.justIdx < |g[fr.nid].justs| then g[fr.nid].justs[next.justIdx] else {})
    ensures Remaining(g, next) <= Remaining(g, fr)
  {
  }

  lemma RemainingFresh(g: Graph, fr: Frame)
    requires fr.nid in g && fr.justIdx == 0 && fr.antIdx == 0
    requires Lists(fr.ants, if 0 < |g[fr.nid].justs| then g[fr.nid].justs[0] else {})
    ensures Remaining(g, fr) == Total(g[fr.nid].justs)
  {
  }

  ghost function Price(m: nat, depth: nat): nat
  {
    if depth == 0 then 1 else 2 + m * Price(m, depth - 1)
  }

  ghost function Weight(g: Graph, m: nat, fr: Frame): (w: nat)
    requires fr.nid in g && fr.justIdx <= |g[fr.nid].justs|
    ensures 1 <= w
  {
    1 + Remaining(g, fr) * Price(m, |g.Keys - fr.path|)
  }

  ghost predicate Indexed(g: Graph, stack: seq<Frame>)
  {
    forall i :: 0 <= i < |stack| ==> stack[i].nid in g && stack[i].justIdx <= |g[stack[i].nid].justs|
  }

  ghost function StackWeight(g: Graph, m: nat, stack: seq<Frame>): nat
    requires Indexed(g, stack)
  {
    if stack == [] then 0
    else StackWeight(g, m, stack[..|stack| - 1]) + Weight(g, m, stack[|stack| - 1])
  }

  ghost predicate TotalsBounded(g: Graph, m: nat)
  {
    forall n :: n in g ==> Total(g[n].justs) <= m
  }

  lemma SomeBound(g: Graph, keys: set<Id>) returns (m: nat)
    requires keys <= g.Keys
    ensures forall n :: n in keys ==> Total(g[n].justs) <= m
  {
    m := 0;
    var rest := keys;
    while rest != {}
      invariant rest <= keys
      invariant forall n :: n in keys - rest ==> Total(g[n].justs) <= m
    {
      var n :| n in rest;
      rest := rest - {n};
      m := m + Total(g[n].justs);
    }
  }

  /** A pushed child costs less than the antecedent it was pushed for. */
  lemma PushIsPaid(g: Graph, m: nat, before: Frame, after: Frame, child: Frame)
    requires TotalsBounded(g, m)
    requires before.nid in g && before.justIdx <= |g[before.nid].justs|
    requires after.nid == before.nid && after.path == before.path
    requires after.justIdx <= |g[after.nid].justs|
    requires Remaining(g, after) < Remaining(g, before)
    requires child.nid in g && child.nid !in before.path && child.path == before.path + {child.nid}
    requires child.justIdx == 0 && Remaining(g, child) == Total(g[child.nid].justs)
    ensures Weight(g, m, after) + Weight(g, m, child) < Weight(g, m, before)
  {
    var d := |g.Keys - before.path|;
    assert g.Keys - child.path == g.Keys - before.path - {child.nid};
    var p := Price(m, d);
    assert p == 2 + m * Price(m, d - 1);
    Times(Remaining(g, child), m, Price(m, d - 1));
    Times(Remaining(g, after) + 1, Remaining(g, before), p);
    assert (Remaining(g, after) + 1) * p == Remaining(g, after) * p + p;
  }

  lemma Times(a: nat, b: nat, c: nat)
    requires a <= b
    ensures a * c <= b * c
  {
  }

  // ----- the machine

  lemma StepOverAntecedent(f: Graph, fr: Frame, v: bool)
    requires fr.nid in f && fr.antIdx < |fr.ants|
    requires v <==> Provable(f, fr.ants[fr.antIdx], fr.path)
    ensures Pending(f, fr, true) <==> Pending(f, fr.(antIdx := fr.antIdx + 1), v)
    ensures !v ==> (Pending(f, fr, true) <==> Pending(f, fr, false))
  {
  }

  /** What the answer about the next antecedent means for the frame. */
  lemma AntecedentAnswered(g: Graph, f: Graph, memo: Option<Memo>, fr: Frame)
    requires FrameOk(g, f, fr) && MemoSound(f, memo) && Reads(g, f, memo)
    requires fr.justIdx < |g[fr.nid].justs| && fr.antIdx < |fr.ants|
    ensures var ant, next := fr.ants[fr.antIdx], fr.(antIdx := fr.antIdx + 1);
            var leaf := Leaf(g, memo, ant, fr.path);
            && FrameOk(g, f, next) && Remaining(g, next) < Remaining(g, fr) && (Goal(f, next) <==> Goal(f, fr))
            && (Pending(f, fr, true) <==> Pending(f, next, Provable(f, ant, fr.path)))
            && (leaf == Some(true) ==> Provable(f, ant, fr.path))
            && (leaf == Some(false) ==> (Pending(f, fr, true) <==> Pending(f, fr, false)))
            && (leaf.None? ==> ant in g && g[ant].kind.Derived? && ant !in fr.path && SameNode(g[ant], f[ant]))
  {
    var ant := fr.ants[fr.antIdx];
    LeafIsSound(g, f, memo, ant, fr.path);
    StepOverAntecedent(f, fr, Provable(f, ant, fr.path));
  }

  /** Walks through the antecedents of the current justification until one fails, one needs a
      frame of its own (`child`), or all hold. */
  method ScanAntecedents(g: Graph, fr0: Frame, memo: Option<Memo>, ghost f: Graph)
      returns (fr: Frame, child: Option<Id>, failed: bool)
    requires FrameOk(g, f, fr0) && MemoSound(f, memo) && Reads(g, f, memo)
    requires fr0.justIdx < |g[fr0.nid].justs|
    requires Goal(f, fr0) <==> Pending(f, fr0, true)
    ensures FrameOk(g, f, fr) && fr.nid == fr0.nid && fr.path == fr0.path && fr.justIdx == fr0.justIdx
    ensures Remaining(g, fr) <= Remaining(g, fr0)
    ensures child.Some? ==>
              Waiting(f, fr, child.value) && Remaining(g, fr) < Remaining(g, fr0) &&
              child.value in g && g[child.value].kind.Derived? && SameNode(g[child.value], f[child.value])
    ensures child.None? ==> (Goal(f, fr0) <==> Pending(f, fr, !failed))
    ensures child.None? && !failed ==> fr.antIdx == |fr.ants|
  {
    fr, child, failed := fr0, None, false;
    while fr.antIdx < |fr.ants|
      invariant fr == fr0.(antIdx := fr.antIdx) && FrameOk(g, f, fr) && Remaining(g, fr) <= Remaining(g, fr0)
      invariant (Goal(f, fr0) <==> Goal(f, fr)) && (Goal(f, fr) <==> Pending(f, fr, true))
    {
      var ant := fr.ants[fr.antIdx];
      var leaf := Leaf(g, memo, ant, fr.path);
      AntecedentAnswered(g, f, memo, fr);
      if leaf.Some? && !leaf.value {
        failed := true;
        return;
      }
      fr := fr.(antIdx := fr.antIdx + 1);
      if leaf.None? {
        child := Some(ant);
        return;
      }
    }
  }

  /** Runs the top frame until it needs a child (`child` is the antecedent) or is done. */
  method AdvanceFrame(g: Graph, fr0: Frame, memo: Option<Memo>, ghost f: Graph)
      returns (fr: Frame, child: Option<Id>)
    requires FrameOk(g, f, fr0) && MemoSound(f, memo) && Reads(g, f, memo)
    requires Goal(f, fr0) <==> Pending(f, fr0, true)
    ensures fr.nid == fr0.nid && fr.path == fr0.path
    ensures child.None? ==> (fr.found <==> Goal(f, fr0))
    ensures child.Some? ==>
              FrameOk(g, f, fr) && Waiting(f, fr, child.value) && fr.justIdx < |g[fr.nid].justs| &&
              child.value in g && g[child.value].kind.Derived? && SameNode(g[child.value], f[child.value]) &&
              Remaining(g, fr) < Remaining(g, fr0)
  {
    fr, child := fr0, None;
    while fr.justIdx < |g[fr.nid].justs|
      invariant child.None?
      invariant fr.nid == fr0.nid && fr.path == fr0.path
      invariant FrameOk(g, f, fr) && Remaining(g, fr) <= Remaining(g, fr0)
      invariant Goal(f, fr) <==> Pending(f, fr, true)
    {
      var failed;
      fr, child, failed := ScanAntecedents(g, fr, memo, f);
      if child.Some? {
        return;
      }
      if !failed {
        fr := fr.(found := true);
        return;
      }
      var next := SkipJustification(g, fr, f);
      RemainingAfterSkip(g, fr, next);
      fr := next;
    }
  }

  /** Incorporates the value of the child frame that has just completed. */
  method Resume(g: Graph, fr0: Frame, v: bool, ghost c: Id, ghost f: Graph) returns (fr: Frame)
    requires FrameOk(g, f, fr0) && Waiting(f, fr0, c) && fr0.justIdx < |g[fr0.nid].justs|
    requires v <==> Provable(f, c, fr0.path)
    ensures FrameOk(g, f, fr) && fr.nid == fr0.nid && fr.path == fr0.path
    ensures Goal(f, fr) <==> Pending(f, fr, true)
    ensures Remaining(g, fr) <= Remaining(g, fr0)
  {
    fr := fr0;
    if !v {
      fr := SkipJustification(g, fr0, f);
      RemainingAfterSkip(g, fr0, fr);
    }
  }

  /** Every frame below the top waits for the frame above it. */
  ghost predicate Chained(g: Graph, f: Graph, stack: seq<Frame>)
  {
    && (forall i :: 0 <= i < |stack| ==> FrameOk(g, f, stack[i]))
    && (forall i :: 0 <= i < |stack| - 1 ==>
          stack[i].justIdx < |g[stack[i].nid].justs| &&
          Waiting(f, stack[i], stack[i + 1].nid) &&
          stack[i + 1].path == stack[i].path + {stack[i + 1].nid})
  }

  /** Without an answer the top frame is running; with one, it is the answer it waits for. */
  ghost predicate AnswerFits(g: Graph, f: Graph, top: Frame, ret: seq<bool>)
    requires FrameOk(g, f, top)
  {
    if ret == [] then Goal(f, top) <==> Pending(f, top, true)
    else exists c ::
      top.justIdx < |g[top.nid].justs| && Waiting(f, top, c) && (ret[0] <==> Provable(f, c, top.path))
  }

  /** `node` evaluated under `path` is at the bottom of the stack, or its value is on the return
      stack; the return stack holds at most one value, the answer the top frame waits for. */
  ghost predicate MachineOk(g: Graph, f: Graph, stack: seq<Frame>, ret: seq<bool>, node: Id, path: set<Id>)
  {
    && |ret| <= 1
    && Chained(g, f, stack)
    && (stack != [] ==> stack[0].nid == node && stack[0].path == path + {node} && node !in path)
    && (stack == [] ==> ret == [Provable(f, node, path)])
    && (stack != [] ==> AnswerFits(g, f, stack[|stack| - 1], ret))
  }

  lemma PushKeepsMachine(g: Graph, f: Graph, below: seq<Frame>, top: Frame, fr: Frame, kid: Frame,
                         ret: seq<bool>, node: Id, path: set<Id>)
    requires MachineOk(g, f, below + [top], ret, node, path)
    requires FrameOk(g, f, fr) && fr.nid == top.nid && fr.path == top.path
    requires FrameOk(g, f, kid) && fr.justIdx < |g[fr.nid].justs| && Waiting(f, fr, kid.nid)
    requires kid.path == fr.path + {kid.nid} && (Goal(f, kid) <==> Pending(f, kid, true))
    ensures MachineOk(g, f, below + [fr] + [kid], [], node, path)
  {
    var s, t := below + [top], below + [fr] + [kid];
    forall i | 0 <= i < |t| ensures FrameOk(g, f, t[i]) {
      assert i < |below| ==> t[i] == s[i];
    }
    forall i | 0 <= i < |t| - 1
      ensures t[i].justIdx < |g[t[i].nid].justs|
      ensures Waiting(f, t[i], t[i + 1].nid) && t[i + 1].path == t[i].path + {t[i + 1].nid}
    {
      if i < |below| {
        assert s[i] == t[i] && s[i + 1].nid == t[i + 1].nid && s[i + 1].path == t[i + 1].path;
      }
    }
    assert t[|t| - 1] == kid;
    assert t[0].nid == s[0].nid && t[0].path == s[0].path;
  }

  lemma PopKeepsMachine(g: Graph, f: Graph, below: seq<Frame>, top: Frame, ret: seq<bool>, node: Id, path: set<Id>)
    requires MachineOk(g, f, below + [top], ret, node, path)
    ensures MachineOk(g, f, below, [Goal(f, top)], node, path)
  {
    var s := below + [top];
    assert s[|below|] == top;
    forall i | 0 <= i < |below| ensures below[i] == s[i] {
    }
    if below == [] {
      assert top.path - {top.nid} == path;
    } else {
      var last := below[|below| - 1];
      assert last == s[|below| - 1];
      assert top.path - {top.nid} == last.path;
      assert Waiting(f, last, top.nid);
    }
  }

  lemma StackWeightTop(g: Graph, m: nat, below: seq<Frame>, top: Frame)
    requires Indexed(g, below) && top.nid in g && top.justIdx <= |g[top.nid].justs|
    ensures Indexed(g, below + [top])
    ensures StackWeight(g, m, below + [top]) == StackWeight(g, m, below) + Weight(g, m, top)
  {
  }

  /** The memo is written only for a frame started under the empty path. */
  function Remember(memo: Option<Memo>, fr: Frame): Option<Memo>
  {
    if memo.Some? && fr.path == {fr.nid} then Some(memo.value[fr.nid := fr.found]) else memo
  }

  ghost predicate Extends(memo: Option<Memo>, memo': Option<Memo>)
  {
    && (memo.Some? <==> memo'.Some?)
    && (memo.Some? ==> forall n :: n in memo.value ==> n in memo'.value && memo'.value[n] == memo.value[n])
  }

  lemma RememberIsSound(g: Graph, f: Graph, memo: Option<Memo>, fr: Frame)
    requires MemoSound(f, memo) && Reads(g, f, memo)
    requires fr.found <==> Goal(f, fr)
    ensures MemoSound(f, Remember(memo, fr)) && Reads(g, f, Remember(memo, fr))
    ensures Extends(memo, Remember(memo, fr))
  {
    if memo.Some? && fr.path == {fr.nid} {
      assert fr.path - {fr.nid} == {};
    }
  }

  lemma PushLightens(g: Graph, m: nat, below: seq<Frame>, top: Frame, fr: Frame, kid: Frame)
    requires Indexed(g, below) && TotalsBounded(g, m)
    requires top.nid in g && top.justIdx <= |g[top.nid].justs|
    requires fr.nid == top.nid && fr.path == top.path && fr.justIdx <= |g[top.nid].justs|
    requires Remaining(g, fr) < Remaining(g, top)
    requires kid.nid in g && kid.nid !in top.path && kid.path == top.path + {kid.nid}
    requires kid.justIdx == 0 && kid.antIdx == 0
    requires Lists(kid.ants, if 0 < |g[kid.nid].justs| then g[kid.nid].justs[0] else {})
    ensures Indexed(g, below + [fr] + [kid]) && Indexed(g, below + [top])
    ensures StackWeight(g, m, below + [fr] + [kid]) < StackWeight(g, m, below + [top])
  {
    RemainingFresh(g, kid);
    PushIsPaid(g, m, top, fr, kid);
    StackWeightTop(g, m, below, top);
    StackWeightTop(g, m, below, fr);
    StackWeightTop(g, m, below + [fr], kid);
  }

  lemma PopLightens(g: Graph, m: nat, below: seq<Frame>, top: Frame)
    requires Indexed(g, below) && top.nid in g && top.justIdx <= |g[top.nid].justs|
    ensures Indexed(g, below + [top])
    ensures StackWeight(g, m, below) < StackWeight(g, m, below + [top])
  {
  }

  /** The top frame takes up its child's answer, if there is one, and runs on. */
  method RunTop(g: Graph, top: Frame, ret: seq<bool>, memo: Option<Memo>, ghost f: Graph)
      returns (fr: Frame, child: Option<Id>)
    requires FrameOk(g, f, top) && MemoSound(f, memo) && Reads(g, f, memo)
    requires AnswerFits(g, f, top, ret)
    ensures fr.nid == top.nid && fr.path == top.path
    ensures child.None? ==> (fr.found <==> Goal(f, fr))
    ensures child.Some? ==>
              FrameOk(g, f, fr) && Waiting(f, fr, child.value) && fr.justIdx < |g[fr.nid].justs| &&
              child.value in g && g[child.value].kind.Derived? && SameNode(g[child.value], f[child.value]) &&
              Remaining(g, fr) < Remaining(g, top)
  {
    fr := top;
    if ret != [] {
      ghost var c :| top.justIdx < |g[top.nid].justs| && Waiting(f, top, c) && (ret[0] <==> Provable(f, c, top.path));
      fr := Resume(g, top, ret[0], c, f);
    }
    fr, child := AdvanceFrame(g, fr, memo, f);
  }

  lemma TopOf(g: Graph, f: Graph, below: seq<Frame>, top: Frame, ret: seq<bool>, node: Id, path: set<Id>)
    requires MachineOk(g, f, below + [top], ret, node, path)
    ensures FrameOk(g, f, top) && AnswerFits(g, f, top, ret) && Indexed(g, below)
  {
    var s := below + [top];
    assert s[|s| - 1] == top && forall i :: 0 <= i < |below| ==> s[i] == below[i];
  }

  /** A suspended top frame is replaced and its child pushed. */
  lemma PushRound(g: Graph, f: Graph, m: nat, below: seq<Frame>, top: Frame, fr: Frame, kid: Frame,
                  ret: seq<bool>, node: Id, path: set<Id>)
    requires MachineOk(g, f, below + [top], ret, node, path) && TotalsBounded(g, m)
    requires FrameOk(g, f, top) && FrameOk(g, f, fr) && fr.nid == top.nid && fr.path == top.path
    requires Remaining(g, fr) < Remaining(g, top)
    requires FrameOk(g, f, kid) && fr.justIdx < |g[fr.nid].justs| && Waiting(f, fr, kid.nid)
    requires kid.path == fr.path + {kid.nid} && (Goal(f, kid) <==> Pending(f, kid, true))
    requires kid.justIdx == 0 && kid.antIdx == 0
    ensures MachineOk(g, f, below + [fr] + [kid], [], node, path)
    ensures Indexed(g, below + [top]) && StackWeight(g, m, below + [fr] + [kid]) < StackWeight(g, m, below + [top])
  {
    TopOf(g, f, below, top, ret, node, path);
    PushKeepsMachine(g, f, below, top, fr, kid, ret, node, path);
    PushLightens(g, m, below, top, fr, kid);
  }

  /** A finished top frame is popped and its value returned. */
  lemma PopRound(g: Graph, f: Graph, m: nat, below: seq<Frame>, top: Frame, ret: seq<bool>, node: Id, path: set<Id>)
    requires MachineOk(g, f, below + [top], ret, node, path)
    ensures MachineOk(g, f, below, [Goal(f, top)], node, path)
    ensures Indexed(g, below + [top]) && StackWeight(g, m, below) < StackWeight(g, m, below + [top])
  {
    TopOf(g, f, below, top, ret, node, path);
    PopKeepsMachine(g, f, below, top, ret, node, path);
    PopLightens(g, m, below, top);
  }

  /** One round of the machine on a non-empty stack. */
  method Round(g: Graph, stack: seq<Frame>, ret: seq<bool>, memo: Option<Memo>,
               ghost f: Graph, ghost node: Id, ghost path: set<Id>, ghost m: nat)
      returns (stack': seq<Frame>, ret': seq<bool>, memo': Option<Memo>)
    requires stack != [] && MachineOk(g, f, stack, ret, node, path)
    requires MemoSound(f, memo) && Reads(g, f, memo) && TotalsBounded(g, m)
    ensures MachineOk(g, f, stack', ret', node, path)
    ensures MemoSound(f, memo') && Reads(g, f, memo') && Extends(memo, memo')
    ensures StackWeight(g, m, stack') < StackWeight(g, m, stack)
  {
    var below, top := stack[..|stack| - 1], stack[|stack| - 1];
    assert stack == below + [top];
    TopOf(g, f, below, top, ret, node, path);
    var fr, child := RunTop(g, top, ret, memo, f);
    if child.Some? {
      var kid := MakeFrame(g, child.value, fr.path, f);
      stack', ret', memo' := below + [fr] + [kid], [], memo;
      PushRound(g, f, m, below, top, fr, kid, ret, node, path);
    } else {
      stack', ret', memo' := below, [fr.found], Remember(memo, fr);
      PopRound(g, f, m, below, top, ret, node, path);
      RememberIsSound(g, f, memo, fr);
    }
  }

  /** The search: for every graph, node, starting path and sound memo it terminates with the
      answer of the recursive search, and every memo entry it writes is sound. */
  method IsNodeProvablyValid(g: Graph, nodeId: Id, activePath: set<Id>, memo: Option<Memo>, ghost f: Graph)
      returns (r: bool, memo': Option<Memo>)
    requires MemoSound(f, memo) && Reads(g, f, memo)
    ensures r <==> Provable(f, nodeId, activePath)
    ensures MemoSound(f, memo') && Reads(g, f, memo') && Extends(memo, memo')
  {
    memo' := memo;
    var leaf := Leaf(g, memo, nodeId, activePath);
    LeafIsSound(g, f, memo, nodeId, activePath);
    if leaf.Some? {
      return leaf.value, memo';
    }
    ghost var m := SomeBound(g, g.Keys);
    var root := MakeFrame(g, nodeId, activePath, f);
    var workStack: seq<Frame> := [root];
    var retStack: seq<bool> := [];
    while workStack != []
      invariant MachineOk(g, f, workStack, retStack, nodeId, activePath)
      invariant MemoSound(f, memo') && Reads(g, f, memo') && Extends(memo, memo')
      decreases StackWeight(g, m, workStack)
    {
      workStack, retStack, memo' := Round(g, workStack, retStack, memo', f, nodeId, activePath, m);
    }
    r := retStack[0];
  }
}
