/** The quarantine confirm/reject protocol as a state machine.

    Any number of confirming and rejecting calls run at once.  A confirming call claims the item in
    one transaction, stores the memory outside any transaction, and then either reverts the claim
    or writes the confirmation event in another transaction.  A rejecting call is one transaction.
    A call can stop for good between any two of its steps.
 */
module Quarantine {

  type ItemId = string
  type Agent = string
  type Pid = nat

  datatype Status = Pending | Confirmed(resolver: Agent) | Rejected(resolver: Agent)

  datatype Row = Row(author: Agent, status: Status)

  /** Where a call is.  `Claimed`, `Failed` and `Stored` hold the claim on the item; a call that
      stops there holds it for good. */
  datatype Call =
    | Confirming(item: ItemId, operator: Agent)
    | Rejecting(item: ItemId, operator: Agent)
    | Claimed(item: ItemId, operator: Agent)
    | Failed(item: ItemId, operator: Agent)
    | Stored(item: ItemId, operator: Agent)
    | Done
    | Stopped(at: Call)
  {
    /** The point a call is at, or was at when it stopped. */
    function Point(): Call
    {
      if Stopped? then at else this
    }

    /** Running or stopped, the call has claimed the item and its store has not returned. */
    predicate BeforeStore(i: ItemId)
    {
      (Point().Claimed? || Point().Failed?) && Point().item == i
    }

    /** Running or stopped, the call has stored the memory and not reported it. */
    predicate BeforeEvent(i: ItemId)
    {
      Point().Stored? && Point().item == i
    }

    predicate Holds(i: ItemId)
    {
      BeforeStore(i) || BeforeEvent(i)
    }
  }

  /** A successful store of the memory, and a resolution event, each naming its item. */
  datatype Entry = Entry(item: ItemId, operator: Agent)
  datatype Event = ConfirmedEvent(item: ItemId, operator: Agent) | RejectedEvent(item: ItemId, operator: Agent)

  datatype State = State(rows: map<ItemId, Row>, calls: map<Pid, Call>, stores: seq<Entry>, events: seq<Event>)

  /** One transaction or external call of one process, or the arrival of something new. */
  datatype Action =
    | QuarantineItem(item: ItemId, author: Agent)
    | Arrive(pid: Pid, confirm: bool, item: ItemId, operator: Agent)
    | Claim(pid: Pid)
    | StoreSucceeds(pid: Pid)
    | StoreFails(pid: Pid)
    | Revert(pid: Pid)
    | Finalise(pid: Pid)
    | Reject(pid: Pid)
    | Stop(pid: Pid)

  /** May `operator` resolve the item?  It must exist, be pending, and have another author. */
  predicate MayResolve(s: State, item: ItemId, operator: Agent)
  {
    item in s.rows && s.rows[item].status.Pending? && operator != s.rows[item].author
  }

  function SetStatus(s: State, item: ItemId, status: Status): State
  {
    if item in s.rows then s.(rows := s.rows[item := s.rows[item].(status := status)]) else s
  }

  function SetCall(s: State, pid: Pid, c: Call): State
  {
    s.(calls := s.calls[pid := c])
  }

  /** An action whose process is not at that point changes nothing. */
  function Step(s: State, a: Action): State
  {
    match a
    case QuarantineItem(item, author) =>
      if item in s.rows then s else s.(rows := s.rows[item := Row(author, Pending)])
    case Arrive(pid, confirm, item, operator) =>
      if pid in s.calls then s
      else SetCall(s, pid, if confirm then Confirming(item, operator) else Rejecting(item, operator))
    case Stop(pid) =>
      if pid in s.calls && !s.calls[pid].Stopped? then SetCall(s, pid, Stopped(s.calls[pid])) else s
    case Claim(pid) =>
      if pid !in s.calls || !s.calls[pid].Confirming? then s
      else
        var c := s.calls[pid];
        if MayResolve(s, c.item, c.operator)
        then SetCall(SetStatus(s, c.item, Confirmed(c.operator)), pid, Claimed(c.item, c.operator))
        else SetCall(s, pid, Done)
    case StoreSucceeds(pid) =>
      if pid !in s.calls || !s.calls[pid].Claimed? then s
      else
        var c := s.calls[pid];
        SetCall(s.(stores := s.stores + [Entry(c.item, c.operator)]), pid, Stored(c.item, c.operator))
    case StoreFails(pid) =>
      if pid !in s.calls || !s.calls[pid].Claimed? then s
      else SetCall(s, pid, Failed(s.calls[pid].item, s.calls[pid].operator))
    case Revert(pid) =>
      if pid !in s.calls || !s.calls[pid].Failed? then s
      else SetCall(SetStatus(s, s.calls[pid].item, Pending), pid, Done)
    case Finalise(pid) =>
      if pid !in s.calls || !s.calls[pid].Stored? then s
      else
        var c := s.calls[pid];
        SetCall(s.(events := s.events + [ConfirmedEvent(c.item, c.operator)]), pid, Done)
    case Reject(pid) =>
      if pid !in s.calls || !s.calls[pid].Rejecting? then s
      else
        var c := s.calls[pid];
        if MayResolve(s, c.item, c.operator)
        then SetCall(SetStatus(s, c.item, Rejected(c.operator)).(events := s.events + [RejectedEvent(c.item, c.operator)]), pid, Done)
        else SetCall(s, pid, Done)
  }

  function Run(s: State, actions: seq<Action>): State
  {
    if actions == [] then s else Step(Run(s, actions[..|actions| - 1]), actions[|actions| - 1])
  }

  predicate Initial(s: State)
  {
    s.calls == map[] && s.stores == [] && s.events == [] && forall i :: i in s.rows ==> s.rows[i].status.Pending?
  }

  // ----- the invariant

  predicate HasStore(stores: seq<Entry>, i: ItemId)
  {
    exists k :: 0 <= k < |stores| && stores[k].item == i
  }

  predicate HasEvent(events: seq<Event>, i: ItemId)
  {
    exists k :: 0 <= k < |events| && events[k].item == i
  }

  /** A claim is exclusive, is recorded on the row under the claimant's name, and nothing has been
      written about the item that the claimant has not written. */
  ghost predicate ClaimsOk(s: State)
  {
    && (forall p, q :: p in s.calls && q in s.calls && Contend(s.calls[p], s.calls[q]) ==> p == q)
    && (forall p :: p in s.calls ==> ClaimOk(s, s.calls[p]))
  }

  predicate Contend(c: Call, d: Call)
  {
    var p := c.Point();
    (p.Claimed? || p.Failed? || p.Stored?) && d.Holds(p.item)
  }

  ghost predicate ClaimOk(s: State, c: Call)
  {
    var p := c.Point();
    p.Claimed? || p.Failed? || p.Stored? ==>
      && p.item in s.rows && s.rows[p.item].status == Confirmed(p.operator)
      && !HasEvent(s.events, p.item)
      && (if p.Stored? then Entry(p.item, p.operator) in s.stores else !HasStore(s.stores, p.item))
  }

  /** What the state of the row says about the logs. */
  ghost predicate RowOk(s: State, i: ItemId)
    requires i in s.rows
  {
    match s.rows[i].status
    case Pending => !HasStore(s.stores, i) && !HasEvent(s.events, i)
    case Rejected(resolver) => resolver != s.rows[i].author && !HasStore(s.stores, i)
    case Confirmed(resolver) => resolver != s.rows[i].author
  }

  ghost predicate LogsOk(s: State)
  {
    && (forall j, k :: 0 <= j < k < |s.stores| ==> s.stores[j].item != s.stores[k].item)
    && (forall j, k :: 0 <= j < k < |s.events| ==> s.events[j].item != s.events[k].item)
    && (forall k :: 0 <= k < |s.stores| ==> StoreOk(s, s.stores[k]))
    && (forall k :: 0 <= k < |s.events| ==> EventOk(s, s.events[k]))
  }

  ghost predicate StoreOk(s: State, e: Entry)
  {
    e.item in s.rows && s.rows[e.item].status == Confirmed(e.operator)
  }

  ghost predicate EventOk(s: State, e: Event)
  {
    e.item in s.rows &&
    match e
    case ConfirmedEvent(item, operator) => s.rows[item].status == Confirmed(operator) && Entry(item, operator) in s.stores
    case RejectedEvent(item, operator) => s.rows[item].status == Rejected(operator)
  }

  ghost predicate Inv(s: State)
  {
    ClaimsOk(s) && LogsOk(s) && forall i :: i in s.rows ==> RowOk(s, i)
  }

  lemma InitialInv(s: State)
    requires Initial(s)
    ensures Inv(s)
  {
  }

  /** Nothing is held, stored or reported about a pending item. */
  lemma PendingIsFree(s: State, item: ItemId)
    requires Inv(s) && item in s.rows && s.rows[item].status.Pending?
    ensures !HasStore(s.stores, item) && !HasEvent(s.events, item)
    ensures forall p :: p in s.calls ==> !s.calls[p].Holds(item)
  {
    assert RowOk(s, item);
    forall p | p in s.calls ensures !s.calls[p].Holds(item) {
      assert ClaimOk(s, s.calls[p]);
    }
  }

  lemma ClaimKeepsInv(s: State, pid: Pid)
    requires Inv(s) && pid in s.calls && s.calls[pid].Confirming?
    requires MayResolve(s, s.calls[pid].item, s.calls[pid].operator)
    ensures Inv(Step(s, Claim(pid)))
  {
    PendingIsFree(s, s.calls[pid].item);
  }

  lemma RejectKeepsInv(s: State, pid: Pid)
    requires Inv(s) && pid in s.calls && s.calls[pid].Rejecting?
    requires MayResolve(s, s.calls[pid].item, s.calls[pid].operator)
    ensures Inv(Step(s, Reject(pid)))
  {
    PendingIsFree(s, s.calls[pid].item);
  }

  /** The store returns: the item had none before. */
  lemma StoreKeepsInv(s: State, pid: Pid)
    requires Inv(s) && pid in s.calls && s.calls[pid].Claimed?
    ensures Inv(Step(s, StoreSucceeds(pid)))
  {
  }

  /** The claimant gives the item back: nothing has been stored or reported about it. */
  lemma RevertKeepsInv(s: State, pid: Pid)
    requires Inv(s) && pid in s.calls && s.calls[pid].Failed?
    ensures Inv(Step(s, Revert(pid)))
  {
  }

  /** The confirmation event is the first event about the item. */
  lemma FinaliseKeepsInv(s: State, pid: Pid)
    requires Inv(s) && pid in s.calls && s.calls[pid].Stored?
    ensures Inv(Step(s, Finalise(pid)))
  {
  }

  /** Steps that touch neither a row nor a log. */
  lemma CallKeepsInv(s: State, pid: Pid, c: Call)
    requires Inv(s)
    requires c.Done? || c.Confirming? || c.Rejecting? ||
             (pid in s.calls && !s.calls[pid].Stopped? && c == Stopped(s.calls[pid])) ||
             (c.Failed? && pid in s.calls && s.calls[pid] == Claimed(c.item, c.operator))
    ensures Inv(SetCall(s, pid, c))
  {
  }

  lemma QuarantineKeepsInv(s: State, item: ItemId, author: Agent)
    requires Inv(s) && item !in s.rows
    ensures Inv(Step(s, QuarantineItem(item, author)))
  {
  }

  lemma StepKeepsInv(s: State, a: Action)
    requires Inv(s)
    ensures Inv(Step(s, a))
  {
    if Step(s, a) != s {
      match a
      case QuarantineItem(item, author) => QuarantineKeepsInv(s, item, author);
      case Arrive(pid, confirm, item, operator) =>
        CallKeepsInv(s, pid, if confirm then Confirming(item, operator) else Rejecting(item, operator));
      case Stop(pid) => CallKeepsInv(s, pid, Stopped(s.calls[pid]));
      case Claim(pid) =>
        var c := s.calls[pid];
        if MayResolve(s, c.item, c.operator) {
          ClaimKeepsInv(s, pid);
        } else {
          CallKeepsInv(s, pid, Done);
        }
      case Reject(pid) =>
        var c := s.calls[pid];
        if MayResolve(s, c.item, c.operator) {
          RejectKeepsInv(s, pid);
        } else {
          CallKeepsInv(s, pid, Done);
        }
      case StoreSucceeds(pid) => StoreKeepsInv(s, pid);
      case StoreFails(pid) => CallKeepsInv(s, pid, Failed(s.calls[pid].item, s.calls[pid].operator));
      case Revert(pid) => RevertKeepsInv(s, pid);
      case Finalise(pid) => FinaliseKeepsInv(s, pid);
    }
  }

  lemma {:induction false} RunKeepsInv(s: State, actions: seq<Action>)
    requires Initial(s)
    ensures Inv(Run(s, actions))
  {
    InitialInv(s);
    InvKept(s, actions);
  }

  lemma {:induction false} InvKept(s: State, actions: seq<Action>)
    requires Inv(s)
    ensures Inv(Run(s, actions))
  {
    if actions != [] {
      InvKept(s, actions[..|actions| - 1]);
      StepKeepsInv(Run(s, actions[..|actions| - 1]), actions[|actions| - 1]);
    }
  }

  // ----- every resolution can be traced to a call

  ghost predicate Traced(s: State, i: ItemId)
    requires i in s.rows
  {
    && (s.rows[i].status.Confirmed? && !HasStore(s.stores, i) ==> exists p :: p in s.calls && s.calls[p].BeforeStore(i))
    && (s.rows[i].status.Confirmed? && HasStore(s.stores, i) && !HasEvent(s.events, i) ==>
          exists p :: p in s.calls && s.calls[p].BeforeEvent(i))
    && (s.rows[i].status.Rejected? ==> HasEvent(s.events, i))
  }

  ghost predicate AllTraced(s: State)
  {
    forall i :: i in s.rows ==> Traced(s, i)
  }

  lemma LogsGrow(s: State, a: Action, i: ItemId)
    ensures HasStore(s.stores, i) ==> HasStore(Step(s, a).stores, i)
    ensures HasEvent(s.events, i) ==> HasEvent(Step(s, a).events, i)
  {
    var t := Step(s, a);
    if HasStore(s.stores, i) {
      var k :| 0 <= k < |s.stores| && s.stores[k].item == i;
      assert t.stores[k].item == i;
    }
    if HasEvent(s.events, i) {
      var k :| 0 <= k < |s.events| && s.events[k].item == i;
      assert t.events[k].item == i;
    }
  }

  lemma StoreTraced(s: State, pid: Pid)
    requires Inv(s) && pid in s.calls && s.calls[pid].Claimed?
    ensures s.calls[pid].item in s.rows && Traced(Step(s, StoreSucceeds(pid)), s.calls[pid].item)
  {
    var c, t := s.calls[pid], Step(s, StoreSucceeds(pid));
    assert ClaimOk(s, c);
    assert t.stores[|s.stores|].item == c.item && t.calls[pid].BeforeEvent(c.item);
  }

  lemma FinaliseTraced(s: State, pid: Pid)
    requires Inv(s) && pid in s.calls && s.calls[pid].Stored?
    ensures s.calls[pid].item in s.rows && Traced(Step(s, Finalise(pid)), s.calls[pid].item)
  {
    var c, t := s.calls[pid], Step(s, Finalise(pid));
    assert ClaimOk(s, c);
    var k :| 0 <= k < |s.stores| && s.stores[k] == Entry(c.item, c.operator);
    assert t.stores[k].item == c.item && t.events[|s.events|].item == c.item;
  }

  /** Stopping, or learning that the store failed, leaves the item held at the same point. */
  lemma HeldTraced(s: State, pid: Pid, c: Call, i: ItemId)
    requires pid in s.calls && i in s.rows && Traced(s, i)
    requires s.calls[pid].BeforeStore(i) ==> c.BeforeStore(i)
    requires s.calls[pid].BeforeEvent(i) ==> c.BeforeEvent(i)
    ensures Traced(SetCall(s, pid, c), i)
  {
    var t := SetCall(s, pid, c);
    if p :| p in s.calls && s.calls[p].BeforeStore(i) {
      assert p in t.calls && t.calls[p].BeforeStore(i);
    }
    if p :| p in s.calls && s.calls[p].BeforeEvent(i) {
      assert p in t.calls && t.calls[p].BeforeEvent(i);
    }
  }

  /** Only its own next step, or a stop, moves a call that holds an item. */
  lemma HolderMoves(s: State, a: Action, pid: Pid, i: ItemId)
    requires pid in s.calls && s.calls[pid].Holds(i) && Step(s, a).calls[pid] != s.calls[pid]
    ensures var c := s.calls[pid];
            && c.item == i && !c.Stopped?
            && (a == Stop(pid) || (c.Claimed? && (a == StoreSucceeds(pid) || a == StoreFails(pid))) ||
                (c.Failed? && a == Revert(pid)) || (c.Stored? && a == Finalise(pid)))
  {
  }

  /** The call of the acting process explains its own item after the step. */
  lemma ActorTraced(s: State, a: Action, pid: Pid, i: ItemId)
    requires Inv(s) && i in s.rows && Traced(s, i)
    requires pid in s.calls && s.calls[pid].Holds(i) && Step(s, a).calls[pid] != s.calls[pid]
    ensures i in Step(s, a).rows && Traced(Step(s, a), i)
  {
    HolderMoves(s, a, pid, i);
    if a.StoreSucceeds? {
      StoreTraced(s, pid);
    } else if a.Finalise? {
      FinaliseTraced(s, pid);
    } else if a.StoreFails? {
      HeldTraced(s, pid, Failed(i, s.calls[pid].operator), i);
    } else if a.Stop? {
      HeldTraced(s, pid, Stopped(s.calls[pid]), i);
    }
  }

  /** A claim or a rejection that goes through explains itself. */
  lemma ResolutionTraced(s: State, a: Action)
    requires Inv(s) && (a.Claim? || a.Reject?) && a.pid in s.calls
    requires if a.Claim? then s.calls[a.pid].Confirming? else s.calls[a.pid].Rejecting?
    requires MayResolve(s, s.calls[a.pid].item, s.calls[a.pid].operator)
    ensures Traced(Step(s, a), s.calls[a.pid].item)
  {
    var c, t := s.calls[a.pid], Step(s, a);
    assert RowOk(s, c.item);
    if a.Claim? {
      assert t.calls[a.pid].BeforeStore(c.item);
    } else {
      assert t.events[|s.events|].item == c.item;
    }
  }

  lemma TracesCarryOver(s: State, t: State, i: ItemId)
    requires i in s.rows && i in t.rows && t.rows[i] == s.rows[i] && Traced(s, i)
    requires HasStore(t.stores, i) <==> HasStore(s.stores, i)
    requires HasEvent(s.events, i) ==> HasEvent(t.events, i)
    requires forall p :: p in s.calls && s.calls[p].Holds(i) ==> p in t.calls && t.calls[p] == s.calls[p]
    ensures Traced(t, i)
  {
    if p :| p in s.calls && s.calls[p].BeforeStore(i) {
      assert p in t.calls && t.calls[p].BeforeStore(i);
    }
    if p :| p in s.calls && s.calls[p].BeforeEvent(i) {
      assert p in t.calls && t.calls[p].BeforeEvent(i);
    }
  }

  /** Only a holder of the item stores it. */
  lemma StoredByHolder(s: State, a: Action, i: ItemId)
    requires forall p :: p in s.calls && s.calls[p].Holds(i) ==> Step(s, a).calls[p] == s.calls[p]
    ensures HasStore(Step(s, a).stores, i) ==> HasStore(s.stores, i)
  {
    var t := Step(s, a);
    if a.StoreSucceeds? && a.pid in s.calls && s.calls[a.pid].Claimed? {
      assert t.calls[a.pid] != s.calls[a.pid];
      assert s.calls[a.pid].item != i;
    }
  }

  /** Items no claimant moved on are explained as before. */
  lemma BystanderTraced(s: State, a: Action, i: ItemId)
    requires i in s.rows && Traced(s, i) && i in Step(s, a).rows && Step(s, a).rows[i] == s.rows[i]
    requires forall p :: p in s.calls && s.calls[p].Holds(i) ==> Step(s, a).calls[p] == s.calls[p]
    ensures Traced(Step(s, a), i)
  {
    LogsGrow(s, a, i);
    StoredByHolder(s, a, i);
    TracesCarryOver(s, Step(s, a), i);
  }

  /** A row that changes while no holder moves is being resolved. */
  lemma ChangedRowIsResolved(s: State, a: Action, i: ItemId)
    requires Inv(s) && i in s.rows && i in Step(s, a).rows && Step(s, a).rows[i] != s.rows[i]
    requires forall p :: p in s.calls && s.calls[p].Holds(i) ==> Step(s, a).calls[p] == s.calls[p]
    ensures (a.Claim? || a.Reject?) && a.pid in s.calls
    ensures var c := s.calls[a.pid];
            (if a.Claim? then c.Confirming? else c.Rejecting?) && c.item == i && MayResolve(s, i, c.operator)
  {
  }

  lemma StepKeepsTraced(s: State, a: Action, i: ItemId)
    requires Inv(s) && AllTraced(s) && i in Step(s, a).rows
    ensures Traced(Step(s, a), i)
  {
    var t := Step(s, a);
    if i !in s.rows {
      assert t.rows[i].status.Pending?;
    } else if p :| p in s.calls && s.calls[p].Holds(i) && t.calls[p] != s.calls[p] {
      ActorTraced(s, a, p, i);
    } else if t.rows[i] == s.rows[i] {
      BystanderTraced(s, a, i);
    } else {
      ChangedRowIsResolved(s, a, i);
      ResolutionTraced(s, a);
    }
  }

  // ----- what holds in every run

  lemma {:induction false} RunTraced(s: State, actions: seq<Action>)
    requires Initial(s)
    ensures AllTraced(Run(s, actions))
  {
    if actions != [] {
      var s' := Run(s, actions[..|actions| - 1]);
      RunTraced(s, actions[..|actions| - 1]);
      RunKeepsInv(s, actions[..|actions| - 1]);
      forall i | i in Run(s, actions).rows ensures Traced(Run(s, actions), i) {
        StepKeepsTraced(s', actions[|actions| - 1], i);
      }
    }
  }

  /** In every interleaving: at most one store succeeds per item, at most one resolution event is
      written, only a stored item is reported confirmed, a rejected item is never stored, and nobody
      resolves an item of their own. */
  lemma AtMostOnce(s: State, actions: seq<Action>)
    requires Initial(s)
    ensures var t := Run(s, actions);
            && (forall j, k :: 0 <= j < k < |t.stores| ==> t.stores[j].item != t.stores[k].item)
            && (forall j, k :: 0 <= j < k < |t.events| ==> t.events[j].item != t.events[k].item)
            && (forall e :: e in t.events && e.ConfirmedEvent? ==> Entry(e.item, e.operator) in t.stores)
            && (forall i :: i in t.rows && t.rows[i].status.Rejected? ==> !HasStore(t.stores, i))
            && (forall i :: i in t.rows && !t.rows[i].status.Pending? ==> t.rows[i].status.resolver != t.rows[i].author)
  {
    RunKeepsInv(s, actions);
    var t := Run(s, actions);
    forall e | e in t.events && e.ConfirmedEvent? ensures Entry(e.item, e.operator) in t.stores {
      assert EventOk(t, e);
    }
    forall i | i in t.rows
      ensures t.rows[i].status.Rejected? ==> !HasStore(t.stores, i)
      ensures !t.rows[i].status.Pending? ==> t.rows[i].status.resolver != t.rows[i].author
    {
      assert RowOk(t, i);
    }
  }

  /** A call about to revert still owns the item: the row carries its operator's claim and nobody
      else's call holds it, so the revert overwrites nothing but its own claim. */
  lemma RevertIsOwn(s: State, actions: seq<Action>, pid: Pid)
    requires Initial(s)
    requires pid in Run(s, actions).calls && Run(s, actions).calls[pid].Failed?
    ensures var t := Run(s, actions);
            var c := t.calls[pid];
            && c.item in t.rows && t.rows[c.item].status == Confirmed(c.operator)
            && !HasStore(t.stores, c.item) && !HasEvent(t.events, c.item)
            && forall q :: q in t.calls && q != pid ==> !t.calls[q].Holds(c.item)
  {
    RunKeepsInv(s, actions);
    var t := Run(s, actions);
    assert ClaimOk(t, t.calls[pid]);
    forall q | q in t.calls && q != pid ensures !t.calls[q].Holds(t.calls[pid].item) {
      assert !Contend(t.calls[pid], t.calls[q]);
    }
  }

  lemma {:induction false} RunAppend(s: State, a: seq<Action>, b: seq<Action>)
    ensures Run(s, a + b) == Run(Run(s, a), b)
  {
    if b == [] {
      assert a + b == a;
    } else {
      RunAppend(s, a, b[..|b| - 1]);
      assert (a + b)[..|a + b| - 1] == a + b[..|b| - 1];
    }
  }

  lemma StepKeepsStored(s: State, a: Action, i: ItemId)
    requires Inv(s) && i in s.rows && (HasStore(s.stores, i) || HasEvent(s.events, i))
    ensures i in Step(s, a).rows && Step(s, a).rows[i] == s.rows[i]
  {
  }

  /** Once an item has been stored or reported, no later step changes its resolution. */
  lemma {:induction false} ResolutionIsFinal(s: State, before: seq<Action>, after: seq<Action>, i: ItemId)
    requires Initial(s)
    requires var t := Run(s, before); i in t.rows && (HasStore(t.stores, i) || HasEvent(t.events, i))
    ensures var u := Run(Run(s, before), after);
            i in u.rows && u.rows[i] == Run(s, before).rows[i] && (HasStore(u.stores, i) || HasEvent(u.events, i))
    decreases |after|
  {
    if after != [] {
      var front, a := after[..|after| - 1], after[|after| - 1];
      ResolutionIsFinal(s, before, front, i);
      var u := Run(Run(s, before), front);
      RunAppend(s, before, front);
      RunKeepsInv(s, before + front);
      StepKeepsStored(u, a, i);
      LogsGrow(u, a, i);
    }
  }

  /** An item is confirmed without its store exactly while some call, running or stopped, holds it
      before the store; and stored without its event exactly while some call holds it before that. */
  lemma UnfinishedIffHeld(s: State, actions: seq<Action>, i: ItemId)
    requires Initial(s) && i in Run(s, actions).rows
    ensures var t := Run(s, actions);
            && (t.rows[i].status.Confirmed? && !HasStore(t.stores, i) <==> exists p :: p in t.calls && t.calls[p].BeforeStore(i))
            && (HasStore(t.stores, i) && !HasEvent(t.events, i) <==> exists p :: p in t.calls && t.calls[p].BeforeEvent(i))
  {
    RunKeepsInv(s, actions);
    RunTraced(s, actions);
    var t := Run(s, actions);
    assert RowOk(t, i) && Traced(t, i);
    forall p | p in t.calls && t.calls[p].Holds(i) ensures ClaimOk(t, t.calls[p]) {
    }
    if k :| 0 <= k < |t.stores| && t.stores[k].item == i {
      assert StoreOk(t, t.stores[k]);
    }
  }

  /** When no call, running or stopped, holds the item, it is untouched, or confirmed with its store
      and its event, or rejected with its event and no store, whatever happens to other items. */
  lemma SettledOutcome(s: State, actions: seq<Action>, i: ItemId)
    requires Initial(s) && i in Run(s, actions).rows
    requires forall p :: p in Run(s, actions).calls ==> !Run(s, actions).calls[p].Holds(i)
    ensures var t := Run(s, actions);
            match t.rows[i].status
            case Pending => !HasStore(t.stores, i) && !HasEvent(t.events, i)
            case Confirmed(operator) => Entry(i, operator) in t.stores && ConfirmedEvent(i, operator) in t.events
            case Rejected(operator) => !HasStore(t.stores, i) && RejectedEvent(i, operator) in t.events
  {
    RunKeepsInv(s, actions);
    RunTraced(s, actions);
    var t := Run(s, actions);
    assert RowOk(t, i) && Traced(t, i);
    if k :| 0 <= k < |t.stores| && t.stores[k].item == i {
      assert StoreOk(t, t.stores[k]);
    }
    if k :| 0 <= k < |t.events| && t.events[k].item == i {
      assert EventOk(t, t.events[k]);
    }
  }

  lemma StepLeavesStopped(s: State, a: Action, pid: Pid)
    requires pid in s.calls && s.calls[pid].Stopped?
    ensures pid in Step(s, a).calls && Step(s, a).calls[pid] == s.calls[pid]
  {
  }

  lemma {:induction false} StoppedStays(s: State, actions: seq<Action>, pid: Pid)
    requires pid in s.calls && s.calls[pid].Stopped?
    ensures pid in Run(s, actions).calls && Run(s, actions).calls[pid] == s.calls[pid]
  {
    if actions != [] {
      StoppedStays(s, actions[..|actions| - 1], pid);
      StepLeavesStopped(Run(s, actions[..|actions| - 1]), actions[|actions| - 1], pid);
    }
  }

  /** Stopping a call that holds an item leaves the item stuck: whatever runs afterwards, it stays
      confirmed by that operator and unreported, and it is stored exactly if the store had returned
      before the stop. */
  lemma StuckForever(s: State, before: seq<Action>, after: seq<Action>, pid: Pid, i: ItemId)
    requires Initial(s) && pid in Run(s, before).calls && Run(s, before).calls[pid].Holds(i)
    ensures var c, u := Run(s, before).calls[pid], Run(Step(Run(s, before), Stop(pid)), after);
            && i in u.rows && u.rows[i].status == Confirmed(c.Point().operator)
            && !HasEvent(u.events, i) && (HasStore(u.stores, i) <==> c.BeforeEvent(i))
  {
    var t := Run(s, before + [Stop(pid)]);
    RunNext(s, before, Stop(pid));
    StoppedStays(t, after, pid);
    RunAppend(s, before + [Stop(pid)], after);
    RunKeepsInv(s, before + [Stop(pid)] + after);
    var u := Run(s, before + [Stop(pid)] + after);
    assert ClaimOk(u, u.calls[pid]);
  }

  lemma RunNext(s: State, actions: seq<Action>, a: Action)
    ensures Run(s, actions + [a]) == Step(Run(s, actions), a)
  {
    assert (actions + [a])[..|actions|] == actions;
  }

  // ----- what a whole call achieves

  lemma RunTwo(s: State, a: Action, b: Action)
    ensures Run(s, [a, b]) == Step(Step(s, a), b)
  {
    RunNext(s, [], a);
    assert [] + [a] == [a];
    RunNext(s, [a], b);
    assert [a] + [b] == [a, b];
  }

  lemma RunFour(s: State, a: Action, b: Action, c: Action, d: Action)
    ensures Run(s, [a, b, c, d]) == Step(Step(Step(Step(s, a), b), c), d)
  {
    RunTwo(s, a, b);
    RunNext(s, [a, b], c);
    assert [a, b] + [c] == [a, b, c];
    RunNext(s, [a, b, c], d);
    assert [a, b, c] + [d] == [a, b, c, d];
  }

  /** A new item is pending under its author; a known one is left alone. */
  lemma QuarantineAdds(s: State, i: ItemId, author: Agent)
    ensures var t := Step(s, QuarantineItem(i, author));
            && t == s.(rows := t.rows) && t.rows.Keys == s.rows.Keys + {i}
            && (i !in s.rows ==> t.rows[i] == Row(author, Pending))
            && forall j :: j in s.rows ==> t.rows[j] == s.rows[j]
  {
  }

  /** A whole rejection: an item that is pending and has another author ends up rejected by the
      operator, with exactly one event added; otherwise nothing happens. */
  lemma WholeReject(s: State, pid: Pid, i: ItemId, operator: Agent)
    requires pid !in s.calls
    ensures var t := Run(s, [Arrive(pid, false, i, operator), Reject(pid)]);
            var accepted := i in s.rows && s.rows[i].status == Pending && s.rows[i].author != operator;
            && t.calls == s.calls[pid := Done] && t.stores == s.stores
            && t.rows == (if accepted then s.rows[i := Row(s.rows[i].author, Rejected(operator))] else s.rows)
            && t.events == (if accepted then s.events + [RejectedEvent(i, operator)] else s.events)
  {
    RunTwo(s, Arrive(pid, false, i, operator), Reject(pid));
    assert s.calls[pid := Rejecting(i, operator)][pid := Done] == s.calls[pid := Done];
  }

  /** The first transaction of a confirmation. */
  lemma ClaimTakes(s: State, pid: Pid, i: ItemId, operator: Agent)
    requires pid !in s.calls
    ensures var t := Run(s, [Arrive(pid, true, i, operator), Claim(pid)]);
            var accepted := i in s.rows && s.rows[i].status == Pending && s.rows[i].author != operator;
            && t.calls == s.calls[pid := if accepted then Claimed(i, operator) else Done]
            && t.stores == s.stores && t.events == s.events
            && t.rows == (if accepted then s.rows[i := Row(s.rows[i].author, Confirmed(operator))] else s.rows)
  {
    RunTwo(s, Arrive(pid, true, i, operator), Claim(pid));
    assert s.calls[pid := Confirming(i, operator)][pid := Done] == s.calls[pid := Done];
    assert s.calls[pid := Confirming(i, operator)][pid := Claimed(i, operator)] == s.calls[pid := Claimed(i, operator)];
  }

  /** A whole confirmation whose store succeeds: the item ends up confirmed by the operator, with
      exactly one store and one event added. */
  lemma WholeConfirm(s: State, pid: Pid, i: ItemId, operator: Agent)
    requires pid !in s.calls
    requires i in s.rows && s.rows[i].status == Pending && s.rows[i].author != operator
    ensures var t := Run(Run(s, [Arrive(pid, true, i, operator), Claim(pid)]), [StoreSucceeds(pid), Finalise(pid)]);
            && t.calls == s.calls[pid := Done]
            && t.rows == s.rows[i := Row(s.rows[i].author, Confirmed(operator))]
            && t.stores == s.stores + [Entry(i, operator)]
            && t.events == s.events + [ConfirmedEvent(i, operator)]
  {
    ClaimTakes(s, pid, i, operator);
    var t := Run(s, [Arrive(pid, true, i, operator), Claim(pid)]);
    RunTwo(t, StoreSucceeds(pid), Finalise(pid));
    assert t.calls[pid := Stored(i, operator)][pid := Done] == s.calls[pid := Done];
  }

  /** A whole confirmation whose store fails gives back the rows, the stores and the events it found. */
  lemma FailedConfirmRestores(s: State, pid: Pid, i: ItemId, operator: Agent)
    requires pid !in s.calls
    requires i in s.rows && s.rows[i].status == Pending && s.rows[i].author != operator
    ensures Run(Run(s, [Arrive(pid, true, i, operator), Claim(pid)]), [StoreFails(pid), Revert(pid)]) ==
            s.(calls := s.calls[pid := Done])
  {
    ClaimTakes(s, pid, i, operator);
    var t := Run(s, [Arrive(pid, true, i, operator), Claim(pid)]);
    RunTwo(t, StoreFails(pid), Revert(pid));
    assert t.calls[pid := Failed(i, operator)][pid := Done] == s.calls[pid := Done];
    assert t.rows[i := s.rows[i]] == s.rows;
  }

  // ----- the same with other calls in between

  /** No action of the process itself. */
  predicate OthersOnly(actions: seq<Action>, pid: Pid)
  {
    forall k :: 0 <= k < |actions| ==> NotBy(actions[k], pid)
  }

  predicate NotBy(a: Action, pid: Pid)
  {
    a.QuarantineItem? || a.pid != pid
  }

  lemma HoldersStay(s: State, a: Action, pid: Pid, i: ItemId, p: Pid)
    requires Inv(s) && pid in s.calls && s.calls[pid].Holds(i) && NotBy(a, pid)
    requires p in s.calls && s.calls[p].Holds(i)
    ensures p in Step(s, a).calls && Step(s, a).calls[p] == s.calls[p]
  {
    assert Contend(s.calls[pid], s.calls[p]);
  }

  lemma HeldRowStays(s: State, a: Action, pid: Pid, i: ItemId)
    requires Inv(s) && pid in s.calls && s.calls[pid].Holds(i) && NotBy(a, pid)
    ensures i in s.rows && i in Step(s, a).rows && Step(s, a).rows[i] == s.rows[i]
  {
    assert ClaimOk(s, s.calls[pid]);
    if a.Revert? && a.pid in s.calls && s.calls[a.pid].Failed? {
      assert !Contend(s.calls[pid], s.calls[a.pid]);
    }
  }

  /** While a call holds an item, nobody else touches the call, the row, or what is logged about it. */
  lemma HeldIsUntouched(s: State, a: Action, pid: Pid, i: ItemId)
    requires Inv(s) && pid in s.calls && s.calls[pid].Holds(i) && NotBy(a, pid)
    ensures var t := Step(s, a);
            && i in s.rows && i in t.rows && t.rows[i] == s.rows[i]
            && pid in t.calls && t.calls[pid] == s.calls[pid]
            && (HasStore(t.stores, i) <==> HasStore(s.stores, i))
            && !HasEvent(s.events, i) && !HasEvent(t.events, i)
  {
    HeldRowStays(s, a, pid, i);
    forall p | p in s.calls && s.calls[p].Holds(i) ensures p in Step(s, a).calls && Step(s, a).calls[p] == s.calls[p] {
      HoldersStay(s, a, pid, i, p);
    }
    StoredByHolder(s, a, i);
    LogsGrow(s, a, i);
    assert ClaimOk(s, s.calls[pid]);
    StepKeepsInv(s, a);
    assert ClaimOk(Step(s, a), s.calls[pid]);
  }

  lemma {:induction false} HeldRun(s: State, others: seq<Action>, pid: Pid, i: ItemId)
    requires Inv(s) && pid in s.calls && s.calls[pid].Holds(i) && OthersOnly(others, pid)
    ensures var t := Run(s, others);
            && Inv(t) && i in s.rows && i in t.rows && t.rows[i] == s.rows[i]
            && pid in t.calls && t.calls[pid] == s.calls[pid]
            && (HasStore(t.stores, i) <==> HasStore(s.stores, i))
            && !HasEvent(s.events, i) && !HasEvent(t.events, i)
  {
    InvKept(s, others);
    assert ClaimOk(s, s.calls[pid]);
    if others != [] {
      var front := others[..|others| - 1];
      HeldRun(s, front, pid, i);
      assert NotBy(others[|others| - 1], pid);
      HeldIsUntouched(Run(s, front), others[|others| - 1], pid, i);
    }
  }

  /** A confirming call takes an item it may resolve. */
  lemma ClaimStep(s: State, pid: Pid, i: ItemId, operator: Agent)
    requires Inv(s) && pid in s.calls && s.calls[pid] == Confirming(i, operator)
    requires i in s.rows && s.rows[i].status == Pending && s.rows[i].author != operator
    ensures var t := Step(s, Claim(pid));
            && Inv(t) && i in t.rows && t.rows[i] == Row(s.rows[i].author, Confirmed(operator))
            && pid in t.calls && t.calls[pid] == Claimed(i, operator) && t.stores == s.stores && t.events == s.events
            && !HasStore(s.stores, i) && !HasEvent(s.events, i)
  {
    StepKeepsInv(s, Claim(pid));
    PendingIsFree(s, i);
  }

  lemma StoreStep(s: State, pid: Pid, i: ItemId, operator: Agent)
    requires Inv(s) && pid in s.calls && s.calls[pid] == Claimed(i, operator)
    ensures var t := Step(s, StoreSucceeds(pid));
            Inv(t) && t.rows == s.rows && pid in t.calls && t.calls[pid] == Stored(i, operator)
  {
    StepKeepsInv(s, StoreSucceeds(pid));
  }

  lemma FinaliseStep(s: State, pid: Pid, i: ItemId, operator: Agent)
    requires Inv(s) && pid in s.calls && s.calls[pid] == Stored(i, operator)
    ensures var t := Step(s, Finalise(pid));
            t.rows == s.rows && pid in t.calls && t.calls[pid] == Done &&
            Entry(i, operator) in t.stores && ConfirmedEvent(i, operator) in t.events
  {
    assert ClaimOk(s, s.calls[pid]);
    assert Step(s, Finalise(pid)).events[|s.events|] == ConfirmedEvent(i, operator);
  }

  lemma FailStep(s: State, pid: Pid, i: ItemId, operator: Agent)
    requires Inv(s) && pid in s.calls && s.calls[pid] == Claimed(i, operator)
    ensures var t := Step(s, StoreFails(pid));
            Inv(t) && t.rows == s.rows && t.stores == s.stores && t.events == s.events &&
            pid in t.calls && t.calls[pid] == Failed(i, operator)
  {
    StepKeepsInv(s, StoreFails(pid));
  }

  lemma RevertStep(s: State, pid: Pid, i: ItemId, operator: Agent)
    requires pid in s.calls && s.calls[pid] == Failed(i, operator) && i in s.rows
    ensures var t := Step(s, Revert(pid));
            t.rows == s.rows[i := Row(s.rows[i].author, Pending)] && t.stores == s.stores && t.events == s.events &&
            pid in t.calls && t.calls[pid] == Done
  {
  }

  /** Whatever the other calls do in between, a claimed confirmation whose store succeeds ends with the
      item confirmed, stored and reported under its operator. */
  lemma ConfirmCompletes(s: State, pid: Pid, i: ItemId, operator: Agent, others: seq<Action>, more: seq<Action>)
    requires Inv(s) && pid in s.calls && s.calls[pid] == Confirming(i, operator)
    requires i in s.rows && s.rows[i].status == Pending && s.rows[i].author != operator
    requires OthersOnly(others, pid) && OthersOnly(more, pid)
    ensures var stored := Step(Run(Step(s, Claim(pid)), others), StoreSucceeds(pid));
            var t := Step(Run(stored, more), Finalise(pid));
            && i in t.rows && t.rows[i] == Row(s.rows[i].author, Confirmed(operator))
            && Entry(i, operator) in t.stores && ConfirmedEvent(i, operator) in t.events
            && pid in t.calls && t.calls[pid] == Done
  {
    var claimed := Step(s, Claim(pid));
    ClaimStep(s, pid, i, operator);
    HeldRun(claimed, others, pid, i);
    var working := Run(claimed, others);
    StoreStep(working, pid, i, operator);
    var stored := Step(working, StoreSucceeds(pid));
    HeldRun(stored, more, pid, i);
    FinaliseStep(Run(stored, more), pid, i, operator);
  }

  /** Whatever the other calls do in between, a claimed confirmation whose store fails gives the item
      back as it found it: pending, not stored and not reported. */
  lemma FailureGivesBack(s: State, pid: Pid, i: ItemId, operator: Agent, others: seq<Action>, more: seq<Action>)
    requires Inv(s) && pid in s.calls && s.calls[pid] == Confirming(i, operator)
    requires i in s.rows && s.rows[i].status == Pending && s.rows[i].author != operator
    requires OthersOnly(others, pid) && OthersOnly(more, pid)
    ensures var failed := Step(Run(Step(s, Claim(pid)), others), StoreFails(pid));
            var t := Step(Run(failed, more), Revert(pid));
            && i in t.rows && t.rows[i] == s.rows[i]
            && !HasStore(t.stores, i) && !HasEvent(t.events, i)
            && pid in t.calls && t.calls[pid] == Done
  {
    var claimed := Step(s, Claim(pid));
    ClaimStep(s, pid, i, operator);
    HeldRun(claimed, others, pid, i);
    var working := Run(claimed, others);
    FailStep(working, pid, i, operator);
    var failed := Step(working, StoreFails(pid));
    HeldRun(failed, more, pid, i);
    RevertStep(Run(failed, more), pid, i, operator);
  }
}
