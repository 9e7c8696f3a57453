/** The lifecycle of agent-to-agent sharing grants, one SQL statement at a time.

    A call that reads a row and later writes it is two steps; between them any step of any other
    call may run.
 */
module Grants {
  import opened Options

  type GrantId = nat
  type Pid = nat
  type Ns = string
  type Agent = string

  // ----- scopes

  datatype ResourceType = Namespace | Memory | KgNode | Subgraph | UnknownType(name: string)

  datatype Scope = Scope(kind: ResourceType, id: string, permissions: seq<string>)

  /** Does one scope cover the resource?  A namespace scope covers everything inside it. */
  predicate ScopeCovers(s: Scope, kind: ResourceType, id: string, ns: Ns)
  {
    "read" in s.permissions &&
    ((s.kind == kind && s.id == id) ||
     (s.kind.Namespace? && s.id == ns && (kind.Memory? || kind.KgNode? || kind.Subgraph?)))
  }

  predicate Covers(scopes: seq<Scope>, kind: ResourceType, id: string, ns: Ns)
  {
    exists k :: 0 <= k < |scopes| && ScopeCovers(scopes[k], kind, id, ns)
  }

  method EnforceScope(scopes: seq<Scope>, kind: ResourceType, id: string, ns: Ns) returns (granted: bool)
    ensures granted <==> Covers(scopes, kind, id, ns)
    ensures granted <==>
            exists s :: s in scopes && "read" in s.permissions &&
              ((s.kind == kind && s.id == id) || (s.kind == Namespace && s.id == ns && kind in {Memory, KgNode, Subgraph}))
  {
    for i := 0 to |scopes|
      invariant forall k :: 0 <= k < i ==> !ScopeCovers(scopes[k], kind, id, ns)
    {
      var s := scopes[i];
      if "read" !in s.permissions {
        continue;
      }
      if s.kind == kind && s.id == id {
        return true;
      }
      if s.kind.Namespace? && s.id == ns && (kind.Memory? || kind.KgNode? || kind.Subgraph?) {
        return true;
      }
    }
    return false;
  }

  /** The scopes of `more` that are not there yet, appended in order. */
  function Merged(scopes: seq<Scope>, more: seq<Scope>): seq<Scope>
  {
    if more == [] then scopes
    else
      var m := Merged(scopes, more[..|more| - 1]);
      if more[|more| - 1] in m then m else m + [more[|more| - 1]]
  }

  method MergeScopes(scopes: seq<Scope>, more: seq<Scope>) returns (merged: seq<Scope>)
    ensures merged == Merged(scopes, more)
  {
    merged := scopes;
    for i := 0 to |more|
      invariant merged == Merged(scopes, more[..i])
    {
      assert more[..i + 1][..i] == more[..i];
      if more[i] !in merged {
        merged := merged + [more[i]];
      }
    }
    assert more[..|more|] == more;
  }

  lemma {:induction false} MergedMembers(scopes: seq<Scope>, more: seq<Scope>, s: Scope)
    ensures s in Merged(scopes, more) <==> s in scopes || s in more
    ensures scopes <= Merged(scopes, more)
  {
    if more != [] {
      MergedMembers(scopes, more[..|more| - 1], s);
      assert more == more[..|more| - 1] + [more[|more| - 1]];
    }
  }

  /** Every new scope is added at most once, and none that was there already. */
  lemma {:induction false} MergedOnce(scopes: seq<Scope>, more: seq<Scope>, i: nat, j: nat)
    requires i < j < |Merged(scopes, more)| && |scopes| <= j
    ensures Merged(scopes, more)[i] != Merged(scopes, more)[j]
  {
    if more != [] {
      var m := Merged(scopes, more[..|more| - 1]);
      MergedMembers(scopes, more[..|more| - 1], more[|more| - 1]);
      if j < |m| {
        MergedOnce(scopes, more[..|more| - 1], i, j);
      } else {
        assert m[i] in m;
      }
    }
  }

  /** Appending covers exactly what was covered before and what the new scopes cover. */
  lemma MergedCovers(scopes: seq<Scope>, more: seq<Scope>, kind: ResourceType, id: string, ns: Ns)
    ensures Covers(Merged(scopes, more), kind, id, ns) <==> Covers(scopes, kind, id, ns) || Covers(more, kind, id, ns)
  {
    var m := Merged(scopes, more);
    if k :| 0 <= k < |m| && ScopeCovers(m[k], kind, id, ns) {
      MergedMembers(scopes, more, m[k]);
    }
    if k :| 0 <= k < |scopes| && ScopeCovers(scopes[k], kind, id, ns) {
      MergedMembers(scopes, more, scopes[k]);
      var j :| 0 <= j < |m| && m[j] == scopes[k];
    }
    if k :| 0 <= k < |more| && ScopeCovers(more[k], kind, id, ns) {
      MergedMembers(scopes, more, more[k]);
      var j :| 0 <= j < |m| && m[j] == more[k];
    }
  }

  // ----- the table and the calls in flight

  datatype Status = Active | Revoked | Expired

  datatype Row = Row(owner: Ns, targetNs: Option<Ns>, targetAgent: Option<Agent>, scopes: seq<Scope>,
                     token: string, status: Status, expiresAt: int, oneTime: bool, usageCount: nat)

  /** Who presents which token, and when. */
  datatype Caller = Caller(token: string, ns: Ns, agent: Agent, now: int)

  /** What a call will write, decided by what it has read. */
  datatype Call =
    | WillAccept(grant: GrantId, readAt: nat, caller: Caller)
    | WillExpireIfActive(grant: GrantId)
    | WillExpire(grant: GrantId)
    | WillWriteScopes(grant: GrantId, scopes: seq<Scope>)
    | Finished

  /** A successful verification with its caller and the instants of its read and of its write. */
  datatype Success = Success(grant: GrantId, readAt: nat, wroteAt: nat, caller: Caller)

  datatype Log = NoSuccess | Logged(earlier: Log, last: Success)

  datatype State = State(rows: map<GrantId, Row>, calls: map<Pid, Call>, successes: Log, clock: nat)

  datatype Action =
    | Create(grant: GrantId, row: Row)
    | Revoke(grant: GrantId, owner: Ns)
    | VerifyRead(pid: Pid, caller: Caller)
    | StatusRead(pid: Pid, grant: GrantId, now: int)
    | UpdateRead(pid: Pid, grant: GrantId, owner: Ns, scopes: seq<Scope>, append: bool, now: int)
    | Write(pid: Pid)

  predicate Holds(s: State, g: GrantId, token: string)
  {
    g in s.rows && s.rows[g].token == token && s.rows[g].status.Active?
  }

  /** The active grant with this token, if any; tokens are unique. */
  ghost function Select(s: State, token: string): Option<GrantId>
  {
    if g :| Holds(s, g, token) then Some(g) else None
  }

  /** The decision of a verification on the row it has read. */
  function Decide(g: GrantId, r: Row, caller: Caller, clock: nat): Call
  {
    if r.expiresAt < caller.now then WillExpireIfActive(g)
    else if r.oneTime && r.usageCount >= 1 then Finished
    else if r.targetNs.Some? && r.targetNs.value != caller.ns then Finished
    else if r.targetAgent.Some? && r.targetAgent.value != caller.agent then Finished
    else WillAccept(g, clock, caller)
  }

  function SetCall(s: State, pid: Pid, c: Call): State
  {
    s.(calls := s.calls[pid := c])
  }

  function SetRow(s: State, g: GrantId, r: Row): State
  {
    s.(rows := s.rows[g := r])
  }

  /** The write statement of a call: the conditional and the unconditional expiry, the usage update,
      and the unconditional overwrite of the scopes. */
  function WriteStep(s: State, pid: Pid): State
  {
    if pid !in s.calls || s.calls[pid].Finished? || s.calls[pid].grant !in s.rows then s
    else
      var c := s.calls[pid];
      var r := s.rows[c.grant];
      var t := SetCall(s, pid, Finished);
      match c
      case WillAccept(g, readAt, caller) =>
        SetRow(t, g, r.(usageCount := r.usageCount + 1, status := if r.oneTime then Expired else r.status))
        .(successes := Logged(s.successes, Success(g, readAt, s.clock, caller)))
      case WillExpireIfActive(g) => if r.status.Active? then SetRow(t, g, r.(status := Expired)) else t
      case WillExpire(g) => SetRow(t, g, r.(status := Expired))
      case WillWriteScopes(g, scopes) => SetRow(t, g, r.(scopes := scopes))
  }

  ghost function Effect(s: State, a: Action): State
  {
    match a
    case Create(g, row) =>
      if g in s.rows || (exists h :: h in s.rows && s.rows[h].token == row.token) then s
      else SetRow(s, g, row.(status := Active, usageCount := 0))
    case Revoke(g, owner) =>
      if g in s.rows && s.rows[g].owner == owner && s.rows[g].status.Active?
      then SetRow(s, g, s.rows[g].(status := Revoked)) else s
    case VerifyRead(pid, caller) =>
      if pid in s.calls then s
      else
        var g := Select(s, caller.token);
        SetCall(s, pid, if g.None? then Finished else Decide(g.value, s.rows[g.value], caller, s.clock))
    case StatusRead(pid, g, now) =>
      if pid in s.calls then s
      else SetCall(s, pid, if g in s.rows && s.rows[g].status.Active? && s.rows[g].expiresAt < now then WillExpire(g) else Finished)
    case UpdateRead(pid, g, owner, scopes, append, now) =>
      if pid in s.calls then s
      else if g !in s.rows || s.rows[g].owner != owner || !s.rows[g].status.Active? || s.rows[g].expiresAt < now
      then SetCall(s, pid, Finished)
      else
        var final := if append then Merged(s.rows[g].scopes, scopes) else scopes;
        SetCall(s, pid, if final == [] then Finished else WillWriteScopes(g, final))
    case Write(pid) => WriteStep(s, pid)
  }

  ghost function Step(s: State, a: Action): State
  {
    Effect(s, a).(clock := s.clock + 1)
  }

  ghost function Run(s: State, actions: seq<Action>): State
  {
    if actions == [] then s else Step(Run(s, actions[..|actions| - 1]), actions[|actions| - 1])
  }

  predicate Initial(s: State)
  {
    s.rows == map[] && s.calls == map[] && s.successes.NoSuccess?
  }

  // ----- who is accepted

  ghost predicate TokensUnique(s: State)
  {
    forall g, h :: g in s.rows && h in s.rows && s.rows[g].token == s.rows[h].token ==> g == h
  }

  /** What never changes once a grant exists. */
  predicate SameGrant(r: Row, r': Row)
  {
    r'.owner == r.owner && r'.targetNs == r.targetNs && r'.targetAgent == r.targetAgent && r'.token == r.token &&
    r'.expiresAt == r.expiresAt && r'.oneTime == r.oneTime
  }

  lemma StepKeepsGrants(s: State, a: Action, g: GrantId)
    requires g in s.rows
    ensures g in Step(s, a).rows && SameGrant(s.rows[g], Step(s, a).rows[g])
  {
  }

  lemma StepKeepsTokens(s: State, a: Action)
    requires TokensUnique(s)
    ensures TokensUnique(Step(s, a))
  {
  }

  lemma {:induction false} RunKeepsTokens(s: State, actions: seq<Action>)
    requires Initial(s)
    ensures TokensUnique(Run(s, actions))
  {
    if actions != [] {
      RunKeepsTokens(s, actions[..|actions| - 1]);
      StepKeepsTokens(Run(s, actions[..|actions| - 1]), actions[|actions| - 1]);
    }
  }

  /** The row lets the caller in: it is the caller's token, unexpired, and bound to no other namespace
      or agent. */
  predicate Entitled(r: Row, c: Caller)
  {
    && r.token == c.token && c.now <= r.expiresAt
    && (r.targetNs == None || r.targetNs == Some(c.ns))
    && (r.targetAgent == None || r.targetAgent == Some(c.agent))
  }

  lemma VerifyPlans(s: State, pid: Pid, c: Caller, g: GrantId)
    requires TokensUnique(s) && pid !in s.calls
    requires g in s.rows && s.rows[g].status == Active && s.rows[g].token == c.token
    ensures Step(s, VerifyRead(pid, c)) ==
            s.(calls := s.calls[pid := Decide(g, s.rows[g], c, s.clock)], clock := s.clock + 1)
  {
    assert Holds(s, g, c.token);
    var h := Select(s, c.token);
    assert Holds(s, h.value, c.token);
  }

  /** The read of a verification plans an acceptance exactly when some active grant with the token is
      unexpired, unused if it may be used only once, and bound to nobody but the caller. */
  lemma AcceptsIff(s: State, pid: Pid, c: Caller)
    requires TokensUnique(s) && pid !in s.calls
    ensures var t := Step(s, VerifyRead(pid, c));
            && t == s.(calls := t.calls, clock := s.clock + 1) && t.calls.Keys == s.calls.Keys + {pid}
            && (forall p :: p in s.calls ==> t.calls[p] == s.calls[p])
            && forall g :: (t.calls[pid].WillAccept? && t.calls[pid].grant == g) <==>
                             g in s.rows && s.rows[g].status == Active && Entitled(s.rows[g], c) &&
                             (s.rows[g].oneTime ==> s.rows[g].usageCount == 0)
  {
    if h :| Holds(s, h, c.token) {
      VerifyPlans(s, pid, c, h);
      forall g | g in s.rows && s.rows[g].status == Active && Entitled(s.rows[g], c) ensures g == h {
        assert s.rows[g].token == s.rows[h].token;
      }
    } else {
      forall g | g in s.rows ensures !(s.rows[g].status == Active && Entitled(s.rows[g], c)) {
        assert !Holds(s, g, c.token);
      }
    }
  }

  predicate LoggedEntitled(rows: map<GrantId, Row>, log: Log)
  {
    log.Logged? ==>
      && LoggedEntitled(rows, log.earlier)
      && log.last.grant in rows && Entitled(rows[log.last.grant], log.last.caller)
  }

  ghost predicate AllEntitled(s: State)
  {
    && LoggedEntitled(s.rows, s.successes)
    && forall p :: p in s.calls && s.calls[p].WillAccept? ==> s.calls[p].grant in s.rows && Entitled(s.rows[s.calls[p].grant], s.calls[p].caller)
  }

  lemma {:induction false} LoggedEntitledLater(rows: map<GrantId, Row>, rows': map<GrantId, Row>, log: Log)
    requires LoggedEntitled(rows, log)
    requires forall g :: g in rows ==> g in rows' && SameGrant(rows[g], rows'[g])
    ensures LoggedEntitled(rows', log)
  {
    if log.Logged? {
      LoggedEntitledLater(rows, rows', log.earlier);
    }
  }

  lemma PlannedIsEntitled(s: State, a: Action)
    requires IsRead(a) && a.pid !in s.calls
    ensures var c := Effect(s, a).calls[a.pid];
            Effect(s, a) == SetCall(s, a.pid, c) && (c.WillAccept? ==> c.grant in s.rows && Entitled(s.rows[c.grant], c.caller))
  {
  }

  lemma LogsOfWrite(s: State, a: Action)
    ensures var t := Step(s, a);
            t.successes == s.successes ||
            (t.successes.Logged? && t.successes.earlier == s.successes && a.Write? && a.pid in s.calls &&
             s.calls[a.pid].WillAccept? && t.successes.last.grant == s.calls[a.pid].grant &&
             t.successes.last.caller == s.calls[a.pid].caller)
    ensures forall p :: p in Step(s, a).calls ==>
              var t := Step(s, a);
              (p in s.calls && t.calls[p] == s.calls[p]) || t.calls[p] == Finished || (IsRead(a) && a.pid == p && p !in s.calls)
  {
  }

  lemma StepKeepsEntitled(s: State, a: Action)
    requires AllEntitled(s)
    ensures AllEntitled(Step(s, a))
  {
    var t := Step(s, a);
    forall g | g in s.rows ensures g in t.rows && SameGrant(s.rows[g], t.rows[g]) {
      StepKeepsGrants(s, a, g);
    }
    LoggedEntitledLater(s.rows, t.rows, s.successes);
    LogsOfWrite(s, a);
    if IsRead(a) && a.pid !in s.calls {
      PlannedIsEntitled(s, a);
    }
  }

  /** In every interleaving, every successful verification was asked for by a caller its grant lets in. */
  lemma {:induction false} SuccessesAreEntitled(s: State, actions: seq<Action>)
    requires Initial(s)
    ensures AllEntitled(Run(s, actions))
  {
    if actions != [] {
      SuccessesAreEntitled(s, actions[..|actions| - 1]);
      StepKeepsEntitled(Run(s, actions[..|actions| - 1]), actions[|actions| - 1]);
    }
  }

  // ----- inactive stays inactive

  predicate Inactive(s: State, g: GrantId)
  {
    g in s.rows && !s.rows[g].status.Active?
  }

  lemma StepKeepsInactive(s: State, a: Action, g: GrantId)
    requires Inactive(s, g)
    ensures Inactive(Step(s, a), g)
  {
  }

  /** Over every interleaving a grant that is not active never becomes active again. */
  lemma {:induction false} InactiveForever(s: State, actions: seq<Action>, g: GrantId)
    requires Inactive(s, g)
    ensures Inactive(Run(s, actions), g)
  {
    if actions != [] {
      InactiveForever(s, actions[..|actions| - 1], g);
      StepKeepsInactive(Run(s, actions[..|actions| - 1]), actions[|actions| - 1], g);
    }
  }

  predicate LoggedReadBefore(log: Log, g: GrantId, t: nat)
  {
    log.Logged? ==> LoggedReadBefore(log.earlier, g, t) && (log.last.grant == g ==> log.last.readAt < t)
  }

  /** Every verification of the grant, successful or about to be, has read its row before `t`. */
  ghost predicate ReadBefore(s: State, g: GrantId, t: nat)
  {
    && LoggedReadBefore(s.successes, g, t)
    && forall p :: p in s.calls && s.calls[p].WillAccept? && s.calls[p].grant == g ==> s.calls[p].readAt < t
  }

  lemma {:induction false} LoggedReadBeforeLater(log: Log, g: GrantId, t: nat, t': nat)
    requires LoggedReadBefore(log, g, t) && t <= t'
    ensures LoggedReadBefore(log, g, t')
  {
    if log.Logged? {
      LoggedReadBeforeLater(log.earlier, g, t, t');
    }
  }

  lemma {:induction false} RunReadBefore(s: State, actions: seq<Action>, g: GrantId)
    requires Initial(s)
    ensures ReadBefore(Run(s, actions), g, Run(s, actions).clock)
  {
    if actions != [] {
      var s' := Run(s, actions[..|actions| - 1]);
      RunReadBefore(s, actions[..|actions| - 1], g);
      LoggedReadBeforeLater(s'.successes, g, s'.clock, s'.clock + 1);
    }
  }

  lemma {:induction false} InactiveReadBefore(s: State, actions: seq<Action>, g: GrantId, t: nat)
    requires Inactive(s, g) && ReadBefore(s, g, t)
    ensures ReadBefore(Run(s, actions), g, t)
  {
    if actions != [] {
      InactiveReadBefore(s, actions[..|actions| - 1], g, t);
      InactiveForever(s, actions[..|actions| - 1], g);
    }
  }

  /** Whatever runs before and after a revocation that goes through, every successful verification
      of the grant, however late it finishes, has read the row before the revocation. */
  lemma VerifiedOnlyBeforeRevoke(s: State, before: seq<Action>, g: GrantId, owner: Ns, after: seq<Action>)
    requires Initial(s)
    requires var t := Run(s, before); g in t.rows && t.rows[g].owner == owner && t.rows[g].status.Active?
    ensures var t := Run(s, before);
            ReadBefore(Run(Step(t, Revoke(g, owner)), after), g, t.clock)
  {
    RunReadBefore(s, before, g);
    InactiveReadBefore(Step(Run(s, before), Revoke(g, owner)), after, g, Run(s, before).clock);
  }

  // ----- usage accounting

  function CountOf(log: Log, g: GrantId): nat
  {
    if log.NoSuccess? then 0 else CountOf(log.earlier, g) + if log.last.grant == g then 1 else 0
  }

  ghost predicate UsageOk(s: State)
  {
    && (forall g :: g in s.rows ==> s.rows[g].usageCount == CountOf(s.successes, g))
    && (forall g :: g !in s.rows ==> CountOf(s.successes, g) == 0)
  }

  lemma StepKeepsUsage(s: State, a: Action)
    requires UsageOk(s)
    ensures UsageOk(Step(s, a))
  {
  }

  /** In every interleaving the usage counter of a grant is the number of its successful verifications. */
  lemma {:induction false} UsageIsSuccesses(s: State, actions: seq<Action>)
    requires Initial(s)
    ensures UsageOk(Run(s, actions))
  {
    if actions != [] {
      UsageIsSuccesses(s, actions[..|actions| - 1]);
      StepKeepsUsage(Run(s, actions[..|actions| - 1]), actions[|actions| - 1]);
    }
  }

  // ----- one-time grants

  /** Every logged success of the grant was written after instant `t`. */
  predicate AllAfter(log: Log, g: GrantId, t: nat)
  {
    log.Logged? ==> AllAfter(log.earlier, g, t) && (log.last.grant == g ==> t < log.last.wroteAt)
  }

  /** Every success of a one-time grant had read the row before the first one wrote it. */
  predicate AllOverlap(log: Log, g: GrantId)
  {
    log.Logged? ==> AllOverlap(log.earlier, g) && (log.last.grant == g ==> AllAfter(log.earlier, g, log.last.readAt))
  }

  ghost predicate OneTimeOk(s: State)
  {
    && UsageOk(s)
    && (forall g :: g in s.rows && s.rows[g].oneTime && s.rows[g].status.Active? ==> s.rows[g].usageCount == 0)
    && (forall p :: p in s.calls ==> CallOk(s, s.calls[p]))
    && (forall g :: g in s.rows && s.rows[g].oneTime ==> AllOverlap(s.successes, g))
  }

  ghost predicate CallOk(s: State, c: Call)
  {
    c.WillAccept? ==>
      c.readAt < s.clock && c.grant in s.rows && (s.rows[c.grant].oneTime ==> AllAfter(s.successes, c.grant, c.readAt))
  }

  lemma {:induction false} NoneIsAfter(log: Log, g: GrantId, t: nat)
    requires CountOf(log, g) == 0
    ensures AllAfter(log, g, t)
  {
    if log.Logged? {
      NoneIsAfter(log.earlier, g, t);
    }
  }

  lemma {:induction false} NoneOverlaps(log: Log, g: GrantId)
    requires CountOf(log, g) == 0
    ensures AllOverlap(log, g)
  {
    if log.Logged? {
      NoneOverlaps(log.earlier, g);
    }
  }

  lemma ReadKeepsOneTime(s: State, pid: Pid, c: Call)
    requires OneTimeOk(s) && pid !in s.calls
    requires c.WillAccept? ==> c.grant in s.rows && c.readAt == s.clock && (s.rows[c.grant].oneTime ==> s.rows[c.grant].usageCount == 0)
    ensures OneTimeOk(SetCall(s, pid, c).(clock := s.clock + 1))
  {
    var t := SetCall(s, pid, c).(clock := s.clock + 1);
    forall p | p in t.calls ensures CallOk(t, t.calls[p]) {
      if p in s.calls {
        assert CallOk(s, s.calls[p]);
      } else if c.WillAccept? && s.rows[c.grant].oneTime {
        NoneIsAfter(s.successes, c.grant, c.readAt);
      }
    }
  }

  lemma AcceptKeepsOneTime(s: State, pid: Pid)
    requires OneTimeOk(s) && pid in s.calls && s.calls[pid].WillAccept?
    ensures OneTimeOk(Step(s, Write(pid)))
  {
  }

  /** Writes that do not accept leave kind, usage and log of every grant alone. */
  lemma PlainWriteKeepsOneTime(s: State, pid: Pid)
    requires OneTimeOk(s) && pid in s.calls && !s.calls[pid].WillAccept?
    ensures OneTimeOk(Step(s, Write(pid)))
  {
    var t := Step(s, Write(pid));
    StepKeepsUsage(s, Write(pid));
    forall p | p in t.calls ensures CallOk(t, t.calls[p]) {
      assert p in s.calls && CallOk(s, s.calls[p]);
    }
  }

  lemma CreateKeepsOneTime(s: State, g: GrantId, row: Row)
    requires OneTimeOk(s)
    ensures OneTimeOk(Step(s, Create(g, row)))
  {
    var t := Step(s, Create(g, row));
    StepKeepsUsage(s, Create(g, row));
    if g !in s.rows {
      NoneOverlaps(s.successes, g);
    }
    forall p | p in t.calls ensures CallOk(t, t.calls[p]) {
      assert CallOk(s, s.calls[p]);
    }
  }

  lemma RevokeKeepsOneTime(s: State, g: GrantId, owner: Ns)
    requires OneTimeOk(s)
    ensures OneTimeOk(Step(s, Revoke(g, owner)))
  {
  }

  predicate IsRead(a: Action)
  {
    a.VerifyRead? || a.StatusRead? || a.UpdateRead?
  }

  /** A read records a decision about a known row; a one-time grant is only accepted unused. */
  lemma ReadDecides(s: State, a: Action)
    requires OneTimeOk(s) && IsRead(a) && a.pid !in s.calls
    ensures var c := Effect(s, a).calls[a.pid];
            && Effect(s, a) == SetCall(s, a.pid, c)
            && (c.Finished? || c.grant in s.rows)
            && (c.WillAccept? ==> c.readAt == s.clock && (s.rows[c.grant].oneTime ==> s.rows[c.grant].usageCount == 0))
  {
  }

  lemma IdleKeepsOneTime(s: State)
    requires OneTimeOk(s)
    ensures OneTimeOk(s.(clock := s.clock + 1))
  {
  }

  lemma StepKeepsOneTime(s: State, a: Action)
    requires OneTimeOk(s)
    ensures OneTimeOk(Step(s, a))
  {
    if a.Create? {
      CreateKeepsOneTime(s, a.grant, a.row);
    } else if a.Revoke? {
      RevokeKeepsOneTime(s, a.grant, a.owner);
    } else if IsRead(a) && a.pid !in s.calls {
      ReadDecides(s, a);
      ReadKeepsOneTime(s, a.pid, Effect(s, a).calls[a.pid]);
    } else if a.Write? && a.pid in s.calls {
      if s.calls[a.pid].WillAccept? {
        AcceptKeepsOneTime(s, a.pid);
      } else {
        PlainWriteKeepsOneTime(s, a.pid);
      }
    } else {
      IdleKeepsOneTime(s);
    }
  }

  lemma {:induction false} RunKeepsOneTime(s: State, actions: seq<Action>)
    requires Initial(s)
    ensures OneTimeOk(Run(s, actions))
  {
    if actions != [] {
      RunKeepsOneTime(s, actions[..|actions| - 1]);
      StepKeepsOneTime(Run(s, actions[..|actions| - 1]), actions[|actions| - 1]);
    }
  }

  /** In every interleaving, a one-time grant that has been used is no longer active, and all its
      successful verifications overlapped: each had read the row before the first one wrote it. */
  lemma OneTimeOnlyByOverlap(s: State, actions: seq<Action>, g: GrantId)
    requires Initial(s) && g in Run(s, actions).rows && Run(s, actions).rows[g].oneTime
    ensures AllOverlap(Run(s, actions).successes, g)
    ensures Run(s, actions).rows[g].usageCount >= 1 ==> Inactive(Run(s, actions), g)
  {
    RunKeepsOneTime(s, actions);
  }

  // ----- exactly when a one-time grant is used twice

  /** Verifications of the grant that have read and will accept. */
  ghost function InFlight(s: State, g: GrantId): set<Pid>
  {
    set p | p in s.calls && s.calls[p].WillAccept? && s.calls[p].grant == g
  }

  ghost function Used(s: State, g: GrantId): nat
  {
    if g in s.rows then s.rows[g].usageCount else 0
  }

  /** Uses that have happened and uses that are only waiting for their write. */
  ghost function Committed(s: State, g: GrantId): nat
  {
    Used(s, g) + |InFlight(s, g)|
  }

  lemma WriteLands(s: State, pid: Pid, g: GrantId)
    requires g in s.rows
    ensures var t := Step(s, Write(pid));
            g in t.rows && t.rows[g].oneTime == s.rows[g].oneTime &&
            Used(t, g) == Used(s, g) + (if pid in InFlight(s, g) then 1 else 0)
  {
  }

  /** A write turns a use in flight into a use, and neither adds nor loses one. */
  lemma WriteConserves(s: State, pid: Pid, g: GrantId)
    requires g in s.rows
    ensures var t := Step(s, Write(pid));
            g in t.rows && Committed(t, g) == Committed(s, g) && InFlight(t, g) == InFlight(s, g) - {pid}
  {
    WriteLands(s, pid, g);
    assert InFlight(Step(s, Write(pid)), g) == InFlight(s, g) - {pid};
  }

  predicate OnlyWrites(actions: seq<Action>)
  {
    forall k :: 0 <= k < |actions| ==> actions[k].Write?
  }

  lemma {:induction false} WritesConserve(s: State, actions: seq<Action>, g: GrantId)
    requires g in s.rows && OnlyWrites(actions)
    ensures g in Run(s, actions).rows && Committed(Run(s, actions), g) == Committed(s, g)
  {
    if actions != [] {
      var front := actions[..|actions| - 1];
      WritesConserve(s, front, g);
      assert actions[|actions| - 1].Write?;
      WriteConserves(Run(s, front), actions[|actions| - 1].pid, g);
    }
  }

  lemma RunNext(s: State, actions: seq<Action>, a: Action)
    ensures Run(s, actions + [a]) == Step(Run(s, actions), a)
  {
    assert (actions + [a])[..|actions|] == actions;
  }

  /** The calls in flight can all write, one after the other. */
  lemma {:induction false} Drain(s: State, actions: seq<Action>, g: GrantId) returns (all: seq<Action>)
    requires g in s.rows && OnlyWrites(actions)
    ensures OnlyWrites(all) && InFlight(Run(s, all), g) == {}
    decreases |InFlight(Run(s, actions), g)|
  {
    all := actions;
    var t := Run(s, actions);
    if InFlight(t, g) != {} {
      var p :| p in InFlight(t, g);
      WritesConserve(s, actions, g);
      WriteConserves(t, p, g);
      RunNext(s, actions, Write(p));
      all := Drain(s, actions + [Write(p)], g);
    }
  }

  /** The writes still to come can bring the counter to `n` exactly when the uses so far and the calls
      in flight add up to `n`. */
  lemma WritesReachIff(s: State, g: GrantId, n: nat)
    requires g in s.rows
    ensures (exists actions :: OnlyWrites(actions) && Used(Run(s, actions), g) >= n) <==> Committed(s, g) >= n
  {
    if actions :| OnlyWrites(actions) && Used(Run(s, actions), g) >= n {
      WritesConserve(s, actions, g);
    }
    var all := Drain(s, [], g);
    WritesConserve(s, all, g);
  }

  /** At no point of the schedule are two verifications of the grant in flight. */
  ghost predicate NeverTwoInFlight(s: State, actions: seq<Action>, g: GrantId)
  {
    |InFlight(Run(s, actions), g)| <= 1 && (actions != [] ==> NeverTwoInFlight(s, actions[..|actions| - 1], g))
  }

  lemma CallCommits(s: State, pid: Pid, c: Call, g: GrantId, clock: nat)
    requires pid !in s.calls
    ensures Committed(SetCall(s, pid, c).(clock := clock), g) ==
            Committed(s, g) + (if c.WillAccept? && c.grant == g then 1 else 0)
  {
    var t := SetCall(s, pid, c).(clock := clock);
    if c.WillAccept? && c.grant == g {
      assert InFlight(t, g) == InFlight(s, g) + {pid};
    } else {
      assert InFlight(t, g) == InFlight(s, g);
    }
  }

  lemma ReadCommits(s: State, a: Action, g: GrantId)
    requires OneTimeOk(s) && IsRead(a) && a.pid !in s.calls && g in s.rows && s.rows[g].oneTime
    ensures Committed(Step(s, a), g) == Committed(s, g) || (Committed(Step(s, a), g) == Committed(s, g) + 1 && Used(Step(s, a), g) == 0)
  {
    ReadDecides(s, a);
    var c := Effect(s, a).calls[a.pid];
    CallCommits(s, a.pid, c, g, s.clock + 1);
  }

  /** A step adds a use only by a read that finds the one-time grant unused. */
  lemma StepCommits(s: State, a: Action, g: GrantId)
    requires OneTimeOk(s) && g in s.rows && s.rows[g].oneTime
    ensures Committed(Step(s, a), g) >= Committed(s, g)
    ensures Committed(Step(s, a), g) == Committed(s, g) || Used(Step(s, a), g) == 0
  {
    if a.Write? {
      WriteConserves(s, a.pid, g);
    } else if IsRead(a) && a.pid !in s.calls {
      ReadCommits(s, a, g);
    } else {
      assert InFlight(Step(s, a), g) == InFlight(s, g);
    }
  }

  lemma KindIsKept(s: State, a: Action, g: GrantId)
    requires g in s.rows
    ensures g in Step(s, a).rows && Step(s, a).rows[g].oneTime == s.rows[g].oneTime
  {
  }

  lemma NothingBeforeCreation(s: State, g: GrantId)
    requires OneTimeOk(s) && g !in s.rows
    ensures Committed(s, g) == 0
  {
    assert forall p :: p in s.calls ==> CallOk(s, s.calls[p]);
    assert InFlight(s, g) == {};
  }

  lemma CreationCommits(s: State, a: Action, g: GrantId)
    requires OneTimeOk(s) && g !in s.rows && g in Step(s, a).rows
    ensures Committed(Step(s, a), g) == 0
  {
    NothingBeforeCreation(s, g);
    assert a.Create?;
    assert InFlight(Step(s, a), g) == InFlight(s, g);
  }

  lemma {:induction false} NoneBeforeCreation(s: State, actions: seq<Action>, g: GrantId)
    requires Initial(s) && g !in Run(s, actions).rows
    ensures NeverTwoInFlight(s, actions, g)
  {
    RunKeepsOneTime(s, actions);
    NothingBeforeCreation(Run(s, actions), g);
    if actions != [] {
      var front := actions[..|actions| - 1];
      if g in Run(s, front).rows {
        KindIsKept(Run(s, front), actions[|actions| - 1], g);
      }
      NoneBeforeCreation(s, front, g);
    }
  }

  lemma {:induction false} CommittedIff(s: State, actions: seq<Action>, g: GrantId)
    requires Initial(s) && g in Run(s, actions).rows && Run(s, actions).rows[g].oneTime
    ensures Committed(Run(s, actions), g) <= 1 <==> NeverTwoInFlight(s, actions, g)
  {
    if actions != [] {
      var front, a := actions[..|actions| - 1], actions[|actions| - 1];
      var t := Run(s, front);
      RunKeepsOneTime(s, front);
      if g in t.rows {
        KindIsKept(t, a, g);
        StepCommits(t, a, g);
        CommittedIff(s, front, g);
      } else {
        CreationCommits(t, a, g);
        NoneBeforeCreation(s, front, g);
      }
    }
  }

  /** In every interleaving, once no verification of a one-time grant is in flight, the grant has been
      used at most once exactly when at no point of the schedule two of them were in flight. */
  lemma OneTimeOnceIff(s: State, actions: seq<Action>, g: GrantId)
    requires Initial(s) && g in Run(s, actions).rows && Run(s, actions).rows[g].oneTime
    requires InFlight(Run(s, actions), g) == {}
    ensures Run(s, actions).rows[g].usageCount <= 1 <==> NeverTwoInFlight(s, actions, g)
  {
    CommittedIff(s, actions, g);
  }

  /** The overlap is possible: two verifications that both read before either writes both succeed. */
  lemma OneTimeUsedTwice(s: State, row: Row)
    requires Initial(s) && row.oneTime && row.expiresAt >= 0 && row.targetNs.None? && row.targetAgent.None?
    ensures var v1, v2 := VerifyRead(1, Caller(row.token, "ns", "a", 0)), VerifyRead(2, Caller(row.token, "ns", "b", 0));
            Used(Run(s, [Create(0, row), v1, v2, Write(1), Write(2)]), 0) == 2
  {
    var v1, v2 := VerifyRead(1, Caller(row.token, "ns", "a", 0)), VerifyRead(2, Caller(row.token, "ns", "b", 0));
    RunFive(s, Create(0, row), v1, v2, Write(1), Write(2));
    var s1 := Step(s, Create(0, row));
    ReadAccepts(s1, v1);
    ReadAccepts(Step(s1, v1), v2);
  }

  /** The read of a verification of the only grant, when it is active, unexpired, unused and open to all. */
  lemma ReadAccepts(s: State, v: Action)
    requires s.rows.Keys == {0} && v.VerifyRead? && v.pid !in s.calls
    requires var r := s.rows[0];
             r.token == v.caller.token && r.status.Active? && r.expiresAt >= v.caller.now && r.usageCount == 0 &&
             r.targetNs.None? && r.targetAgent.None?
    ensures Step(s, v) == State(s.rows, s.calls[v.pid := WillAccept(0, s.clock, v.caller)], s.successes, s.clock + 1)
  {
    assert Holds(s, 0, v.caller.token);
    assert Select(s, v.caller.token) == Some(0);
  }

  lemma RunTwo(s: State, a: Action, b: Action)
    ensures Run(s, [a, b]) == Step(Step(s, a), b)
  {
    RunNext(s, [], a);
    assert [] + [a] == [a];
    RunNext(s, [a], b);
    assert [a] + [b] == [a, b];
  }

  lemma RunFour(s: State, a: Action, b: Action, c: Action, d: Action)
    ensures Run(s, [a, b, c, d]) == Step(Step(Step(Step(s, a), b), c), d)
  {
    RunTwo(s, a, b);
    RunNext(s, [a, b], c);
    assert [a, b] + [c] == [a, b, c];
    RunNext(s, [a, b, c], d);
    assert [a, b, c] + [d] == [a, b, c, d];
  }

  lemma RunFive(s: State, a: Action, b: Action, c: Action, d: Action, e: Action)
    ensures Run(s, [a, b, c, d, e]) == Step(Step(Step(Step(Step(s, a), b), c), d), e)
  {
    RunFour(s, a, b, c, d);
    RunNext(s, [a, b, c, d], e);
    assert [a, b, c, d] + [e] == [a, b, c, d, e];
  }

  // ----- whole calls, one after the other

  /** A call that runs from its read to its write without interruption. */
  ghost function Whole(s: State, a: Action): State
  {
    if a.Write? then s
    else if a.Create? || a.Revoke? then Step(s, a)
    else Step(Step(s, a), Write(a.pid))
  }

  ghost function RunWhole(s: State, calls: seq<Action>): State
  {
    if calls == [] then s else Whole(RunWhole(s, calls[..|calls| - 1]), calls[|calls| - 1])
  }

  ghost predicate Quiet(s: State)
  {
    && OneTimeOk(s)
    && (forall p :: p in s.calls ==> s.calls[p].Finished?)
    && (forall g :: g in s.rows && s.rows[g].oneTime ==> s.rows[g].usageCount <= 1)
  }

  lemma WriteFinishes(t: State, pid: Pid)
    requires pid in t.calls && (t.calls[pid].Finished? || t.calls[pid].grant in t.rows)
    ensures Step(t, Write(pid)).calls == t.calls[pid := Finished] && Step(t, Write(pid)).rows.Keys == t.rows.Keys
  {
  }

  lemma WriteEndsQuiet(t: State, pid: Pid)
    requires OneTimeOk(t) && pid in t.calls
    requires forall p :: p in t.calls && p != pid ==> t.calls[p].Finished?
    requires forall g :: g in t.rows && t.rows[g].oneTime ==> t.rows[g].usageCount <= 1
    requires var c := t.calls[pid];
             (c.Finished? || c.grant in t.rows) &&
             (c.WillAccept? && t.rows[c.grant].oneTime ==> t.rows[c.grant].usageCount == 0)
    ensures Quiet(Step(t, Write(pid)))
  {
    var u := Step(t, Write(pid));
    WriteFinishes(t, pid);
    forall g | g in u.rows && u.rows[g].oneTime ensures u.rows[g].usageCount <= 1 {
      WriteLands(t, pid, g);
    }
    assert OneTimeOk(u) by {
      StepKeepsOneTime(t, Write(pid));
    }
  }

  lemma WholeKeepsQuiet(s: State, a: Action)
    requires Quiet(s)
    ensures Quiet(Whole(s, a))
  {
    StepKeepsOneTime(s, a);
    if IsRead(a) {
      if a.pid !in s.calls {
        ReadDecides(s, a);
      }
      WriteEndsQuiet(Step(s, a), a.pid);
    }
  }

  /** With whole calls atomic, a one-time grant is used at most once. */
  lemma {:induction false} OneTimeAtomic(s: State, calls: seq<Action>)
    requires Initial(s)
    ensures Quiet(RunWhole(s, calls))
  {
    if calls != [] {
      OneTimeAtomic(s, calls[..|calls| - 1]);
      WholeKeepsQuiet(RunWhole(s, calls[..|calls| - 1]), calls[|calls| - 1]);
    }
  }

  // ----- what a whole call achieves

  /** A whole verification by an entitled caller counts one use, ends a one-time grant and is logged; by
      any other caller it changes no row, except that an expired grant becomes so. */
  lemma WholeVerify(s: State, pid: Pid, c: Caller, g: GrantId)
    requires TokensUnique(s) && pid !in s.calls
    requires g in s.rows && s.rows[g].status == Active && s.rows[g].token == c.token
    ensures var r, t := s.rows[g], Whole(s, VerifyRead(pid, c));
            var accepted := Entitled(r, c) && (r.oneTime ==> r.usageCount == 0);
            && t.rows == s.rows[g := if accepted then r.(usageCount := r.usageCount + 1, status := if r.oneTime then Expired else Active)
                                     else if r.expiresAt < c.now then r.(status := Expired)
                                     else r]
            && t.successes == if accepted then Logged(s.successes, Success(g, s.clock, s.clock + 1, c)) else s.successes
  {
    VerifyPlans(s, pid, c, g);
  }

  /** A token of no active grant changes nothing. */
  lemma UnknownToken(s: State, pid: Pid, c: Caller)
    requires forall g :: g in s.rows && s.rows[g].status == Active ==> s.rows[g].token != c.token
    requires pid !in s.calls
    ensures var t := Whole(s, VerifyRead(pid, c)); t.rows == s.rows && t.successes == s.successes
  {
  }

  /** A whole update by the owner of an active, unexpired grant leaves exactly the new list when it
      replaces, and the old list with the new one merged in when it appends, unless that is empty; any
      other update leaves all rows alone. */
  lemma WholeUpdate(s: State, pid: Pid, g: GrantId, caller: Ns, scopes: seq<Scope>, append: bool, now: int)
    requires pid !in s.calls
    ensures var t := Whole(s, UpdateRead(pid, g, caller, scopes, append, now));
            t.successes == s.successes &&
            if g in s.rows && s.rows[g].owner == caller && s.rows[g].status == Active && now <= s.rows[g].expiresAt &&
               (scopes != [] || (append && s.rows[g].scopes != []))
            then t.rows == s.rows[g := s.rows[g].(scopes := if append then Merged(s.rows[g].scopes, scopes) else scopes)]
            else t.rows == s.rows
  {
    if g in s.rows {
      MergedNonempty(s.rows[g].scopes, scopes);
    }
  }

  lemma MergedNonempty(scopes: seq<Scope>, more: seq<Scope>)
    ensures Merged(scopes, more) == [] <==> scopes == [] && more == []
  {
    if scopes != [] {
      MergedMembers(scopes, more, scopes[0]);
    } else if more != [] {
      MergedMembers(scopes, more, more[0]);
    }
  }

  /** A revocation by the owner ends an active grant; any other one changes nothing. */
  lemma WholeRevoke(s: State, g: GrantId, caller: Ns)
    ensures var t := Step(s, Revoke(g, caller));
            t.calls == s.calls && t.successes == s.successes &&
            if g in s.rows && s.rows[g].owner == caller && s.rows[g].status == Active
            then t.rows == s.rows[g := s.rows[g].(status := Revoked)]
            else t.rows == s.rows
  {
  }

  /** A revocation between the read and the write of another call: an accepted verification is still
      counted, and ends a one-time grant as expired; a verification that found the grant expired leaves
      it revoked; a status check that did so makes it expired; new scopes are written all the same. */
  lemma RevokedWhilePending(s: State, pid: Pid, g: GrantId)
    requires pid in s.calls && !s.calls[pid].Finished? && s.calls[pid].grant == g
    requires g in s.rows && s.rows[g].status == Active
    ensures var r, t := s.rows[g], Step(Step(s, Revoke(g, s.rows[g].owner)), Write(pid));
            g in t.rows && t.rows[g] ==
            match s.calls[pid]
            case WillAccept(_, _, _) => r.(usageCount := r.usageCount + 1, status := if r.oneTime then Expired else Revoked)
            case WillExpireIfActive(_) => r.(status := Revoked)
            case WillExpire(_) => r.(status := Expired)
            case WillWriteScopes(_, scopes) => r.(status := Revoked, scopes := scopes)
            case Finished => r
  {
  }

  /** A whole status check ends an active grant that has expired, and changes nothing else. */
  lemma WholeStatus(s: State, pid: Pid, g: GrantId, now: int)
    requires pid !in s.calls
    ensures var t := Whole(s, StatusRead(pid, g, now));
            t.successes == s.successes &&
            if g in s.rows && s.rows[g].status == Active && s.rows[g].expiresAt < now
            then t.rows == s.rows[g := s.rows[g].(status := Expired)]
            else t.rows == s.rows
  {
  }

  /** A new grant with a new token is active and unused, whatever the row says. */
  lemma WholeCreate(s: State, g: GrantId, row: Row)
    requires g !in s.rows && forall h :: h in s.rows ==> s.rows[h].token != row.token
    ensures var t := Step(s, Create(g, row));
            t.calls == s.calls && t.successes == s.successes && t.rows.Keys == s.rows.Keys + {g} &&
            (forall h :: h in s.rows ==> t.rows[h] == s.rows[h]) &&
            SameGrant(row, t.rows[g]) && t.rows[g].scopes == row.scopes && t.rows[g].status == Active && t.rows[g].usageCount == 0
  {
  }

  /** An append that runs as a whole leaves everything covered that was covered before. */
  lemma AppendKeepsCoverage(s: State, a: Action, kind: ResourceType, id: string, ns: Ns)
    requires a.UpdateRead? && a.append && a.pid !in s.calls && a.grant in s.rows
    ensures Covers(s.rows[a.grant].scopes, kind, id, ns) ==> Covers(Whole(s, a).rows[a.grant].scopes, kind, id, ns)
    ensures Whole(s, a).rows[a.grant].scopes == s.rows[a.grant].scopes ||
            Whole(s, a).rows[a.grant].scopes == Merged(s.rows[a.grant].scopes, a.scopes)
  {
    MergedCovers(s.rows[a.grant].scopes, a.scopes, kind, id, ns);
  }

  // ----- appends with other calls in between

  predicate DoesNotWrite(actions: seq<Action>, pid: Pid)
  {
    Write(pid) !in actions
  }

  lemma StepKeepsPlan(s: State, a: Action, pid: Pid, g: GrantId)
    requires pid in s.calls && g in s.rows && a != Write(pid)
    ensures var t := Step(s, a); pid in t.calls && t.calls[pid] == s.calls[pid] && g in t.rows
  {
  }

  /** What a call is going to write stays fixed until it writes, whatever the other calls do. */
  lemma {:induction false} PlanStays(s: State, actions: seq<Action>, pid: Pid, g: GrantId)
    requires pid in s.calls && g in s.rows && DoesNotWrite(actions, pid)
    ensures var t := Run(s, actions); pid in t.calls && t.calls[pid] == s.calls[pid] && g in t.rows
  {
    if actions != [] {
      PlanStays(s, actions[..|actions| - 1], pid, g);
      assert actions[|actions| - 1] in actions;
      StepKeepsPlan(Run(s, actions[..|actions| - 1]), actions[|actions| - 1], pid, g);
    }
  }

  /** A readable scope has its like among the others: same kind, same resource, readable. */
  predicate Matched(x: Scope, scopes: seq<Scope>)
  {
    exists y :: y in scopes && "read" in y.permissions && y.kind == x.kind && y.id == x.id
  }

  /** Everything covered by `xs` is covered by `scopes`. */
  ghost predicate CoversAll(xs: seq<Scope>, scopes: seq<Scope>)
  {
    forall kind, id, ns :: Covers(xs, kind, id, ns) ==> Covers(scopes, kind, id, ns)
  }

  /** There is a namespace that no scope names. */
  lemma {:induction false} FreshNamespace(scopes: seq<Scope>) returns (ns: Ns)
    ensures forall k :: 0 <= k < |scopes| ==> |scopes[k].id| < |ns|
  {
    if scopes == [] {
      ns := "";
    } else {
      ns := FreshNamespace(scopes[1..]);
      ns := ns + scopes[0].id + "x";
    }
  }

  /** Coverage for every resource comes down to kinds and ids. */
  lemma CoversAllIff(xs: seq<Scope>, scopes: seq<Scope>)
    ensures CoversAll(xs, scopes) <==> forall x :: x in xs && "read" in x.permissions ==> Matched(x, scopes)
  {
    if CoversAll(xs, scopes) {
      var ns := FreshNamespace(scopes);
      forall x | x in xs && "read" in x.permissions ensures Matched(x, scopes) {
        assert ScopeCovers(x, x.kind, x.id, ns);
        assert Covers(xs, x.kind, x.id, ns);
        var j :| 0 <= j < |scopes| && ScopeCovers(scopes[j], x.kind, x.id, ns);
      }
    }
    if forall x :: x in xs && "read" in x.permissions ==> Matched(x, scopes) {
      forall kind, id, ns | Covers(xs, kind, id, ns) ensures Covers(scopes, kind, id, ns) {
        var k :| 0 <= k < |xs| && ScopeCovers(xs[k], kind, id, ns);
        assert xs[k] in xs;
        var y :| y in scopes && "read" in y.permissions && y.kind == xs[k].kind && y.id == xs[k].id;
        assert ScopeCovers(y, kind, id, ns);
      }
    }
  }

  lemma MergedMatches(x: Scope, scopes: seq<Scope>, more: seq<Scope>)
    ensures Matched(x, Merged(scopes, more)) <==> Matched(x, scopes) || Matched(x, more)
  {
    forall y: Scope ensures y in Merged(scopes, more) <==> y in scopes || y in more {
      MergedMembers(scopes, more, y);
    }
  }

  /** An append that goes through leaves what its read saw and the new scopes, whatever other calls do
      between its read and its write. */
  lemma AppendWrites(s: State, a: Action, others: seq<Action>)
    requires a.UpdateRead? && a.append && a.pid !in s.calls && DoesNotWrite(others, a.pid)
    requires Step(s, a).calls[a.pid].WillWriteScopes?
    ensures var t := Run(Step(s, a), others);
            var u := Step(t, Write(a.pid));
            a.grant in s.rows && a.grant in t.rows && a.grant in u.rows &&
            u.rows[a.grant].scopes == Merged(s.rows[a.grant].scopes, a.scopes)
  {
    PlanStays(Step(s, a), others, a.pid, a.grant);
  }

  /** Nothing covered at the write of an append is lost exactly when every readable scope then on the
      row has its like among those the read saw or among the new ones. */
  lemma AppendInterleavedIff(s: State, a: Action, others: seq<Action>)
    requires a.UpdateRead? && a.append && a.pid !in s.calls && DoesNotWrite(others, a.pid)
    requires Step(s, a).calls[a.pid].WillWriteScopes?
    ensures var t := Run(Step(s, a), others);
            var u := Step(t, Write(a.pid));
            var g := a.grant;
            g in s.rows && g in t.rows && g in u.rows &&
            (CoversAll(t.rows[g].scopes, u.rows[g].scopes) <==>
             forall x :: x in t.rows[g].scopes && "read" in x.permissions ==>
               Matched(x, s.rows[g].scopes) || Matched(x, a.scopes))
  {
    AppendWrites(s, a, others);
    var t := Run(Step(s, a), others);
    var read := s.rows[a.grant].scopes;
    CoversAllIff(t.rows[a.grant].scopes, Merged(read, a.scopes));
    forall x ensures Matched(x, Merged(read, a.scopes)) <==> Matched(x, read) || Matched(x, a.scopes) {
      MergedMatches(x, read, a.scopes);
    }
  }

  /** Two appends that both read before either writes. */
  lemma TwoAppends(s: State, row: Row, xs: seq<Scope>, ys: seq<Scope>)
    requires Initial(s) && row.scopes != [] && row.expiresAt >= 0
    ensures var a, b := UpdateRead(1, 0, row.owner, xs, true, 0), UpdateRead(2, 0, row.owner, ys, true, 0);
            var t := Step(Step(Step(s, Create(0, row)), a), b);
            && t.rows.Keys == {0} && 1 in t.calls && 2 in t.calls
            && t.calls[1] == WillWriteScopes(0, Merged(row.scopes, xs))
            && t.calls[2] == WillWriteScopes(0, Merged(row.scopes, ys))
  {
    var a := UpdateRead(1, 0, row.owner, xs, true, 0);
    var s1 := Step(s, Create(0, row));
    AppendPlans(s1, 1, xs);
    AppendPlans(Step(s1, a), 2, ys);
  }

  lemma ScopesWritten(s: State, pid: Pid)
    requires pid in s.calls && s.calls[pid].WillWriteScopes? && s.calls[pid].grant in s.rows
    ensures var t := Step(s, Write(pid));
            t.rows == s.rows[s.calls[pid].grant := s.rows[s.calls[pid].grant].(scopes := s.calls[pid].scopes)] &&
            t.calls == s.calls[pid := Finished]
  {
  }

  /** The second of two such appends drops from the coverage exactly what only the first one's scopes
      gave. */
  lemma LostAppend(s: State, row: Row, xs: seq<Scope>, ys: seq<Scope>, kind: ResourceType, id: string, ns: Ns)
    requires Initial(s) && row.scopes != [] && row.expiresAt >= 0
    ensures var a, b := UpdateRead(1, 0, row.owner, xs, true, 0), UpdateRead(2, 0, row.owner, ys, true, 0);
            var first, second := Run(s, [Create(0, row), a, b, Write(1)]), Run(s, [Create(0, row), a, b, Write(1), Write(2)]);
            0 in first.rows && 0 in second.rows &&
            (Covers(first.rows[0].scopes, kind, id, ns) && !Covers(second.rows[0].scopes, kind, id, ns) <==>
             Covers(xs, kind, id, ns) && !Covers(row.scopes, kind, id, ns) && !Covers(ys, kind, id, ns))
  {
    var a, b := UpdateRead(1, 0, row.owner, xs, true, 0), UpdateRead(2, 0, row.owner, ys, true, 0);
    RunFour(s, Create(0, row), a, b, Write(1));
    RunFive(s, Create(0, row), a, b, Write(1), Write(2));
    TwoAppends(s, row, xs, ys);
    var t := Step(Step(Step(s, Create(0, row)), a), b);
    ScopesWritten(t, 1);
    ScopesWritten(Step(t, Write(1)), 2);
    MergedCovers(row.scopes, xs, kind, id, ns);
    MergedCovers(row.scopes, ys, kind, id, ns);
  }

  /** The read of an append by the owner of an active, unexpired grant. */
  lemma AppendPlans(s: State, pid: Pid, more: seq<Scope>)
    requires 0 in s.rows && s.rows[0].status.Active? && s.rows[0].expiresAt >= 0 && s.rows[0].scopes != []
    requires pid !in s.calls
    ensures Step(s, UpdateRead(pid, 0, s.rows[0].owner, more, true, 0)) ==
            State(s.rows, s.calls[pid := WillWriteScopes(0, Merged(s.rows[0].scopes, more))], s.successes, s.clock + 1)
  {
    MergedMembers(s.rows[0].scopes, more, s.rows[0].scopes[0]);
  }
}
