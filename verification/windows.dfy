/** Mutual exclusion: any number of clients, each with its own clock, acquire and
    renew leases on one backend. A client knows only its local window; this
    module proves that a window never outlives the stored expiry, so that no two
    holders of a work ID ever have open windows at once. The backend clock never
    steps back and each client's offset from it is constant. */
module Windows {
  import opened Types
  import opened LeaseStore
  import opened Protocol
  import opened Renewal

  /** What Acquire hands a client: offset is backend time minus local time,
      deadline the local start of the acquiring call plus TTL. */
  datatype Lease = Lease(ttl: int, offset: int, deadline: int)

  /** The last Renew call of a renewal goroutine, on its own goroutine: once
      launched it may land at any later time, waited for or not. */
  datatype Call = NoCall | InFlight(start: int) | Returned(start: int, err: GoError)

  /** One StartRenewal on the lease with this token. */
  datatype Agent = Agent(token: nat, policy: Policy, loop: Loop, call: Call)

  datatype System = System(world: World, leases: map<nat, Lease>, relinquished: set<nat>, agents: map<nat, Agent>)

  datatype Action =
    | Elapse(to: int)
    | Acquires(op: Op, offset: int, start: int)
    | Performs(op: Op)
    | StartsRenewal(id: nat, token: nat, policy: Policy, reading: int)
    | Steps(id: nat, input: Input)
    | Lands(id: nat, at: Readings, lost: bool, failure: Sentinels)
    | Fails(id: nat, failure: Sentinels)

  function Initial(now: int): System {
    System(Start(now), map[], {}, map[])
  }

  // ---------- The transition relation ----------

  /** The error Renew returns for the backend's answer. */
  function RenewError(r: Reply): GoError {
    match r
    case Failed(ErrFenced) => Some({IsFenced})
    case Failed(ErrLeaseExpired) => Some({IsLeaseExpired})
    case _ => None
  }

  function RenewOp(s: System, id: nat, at: Readings): Op
    requires id in s.agents && s.agents[id].token in s.leases && s.agents[id].token in s.world.issued
  {
    Renew(s.world.issued[s.agents[id].token], s.leases[s.agents[id].token].ttl, at)
  }

  /** Every call with a lease's token uses the TTL the lease was acquired with. */
  predicate OwnTtl(s: System, op: Op) {
    (op.Checkpoint? || op.Renew?) && op.rec.token in s.leases ==> op.ttl == s.leases[op.rec.token].ttl
  }

  /** The latest clock reading an input brings, if any. */
  function ReadingOf(i: Input): Option<int> {
    match i
    case Stopped => None
    case ParentDone => None
    case WindowClosed(t) => Some(t)
    case Ticked(t) => Some(t)
    case Launched(t) => Some(t)
    case Ended(_, _, t) => Some(t)
    case Decide(t, _) => Some(t)
    case Woke(t) => Some(t)
    case Stored => None
  }

  predicate Owned(s: System, id: nat) {
    id in s.agents && s.agents[id].token in s.leases && s.agents[id].token in s.world.issued
  }

  predicate Possible(k: Kind, s: System, a: Action) {
    match a
    case Elapse(to) => s.world.now <= to
    case Acquires(op, offset, start) =>
      op.Acquire? && Timely(k, op, s.world.now) && start + offset <= op.at.check
    case Performs(op) => !op.Acquire? && Timely(k, op, s.world.now) && OwnTtl(s, op)
    case StartsRenewal(id, token, policy, reading) =>
      && id !in s.agents && token in s.leases
      && s.leases[token].deadline - s.leases[token].ttl <= reading && reading + s.leases[token].offset <= s.world.now
    case Steps(id, input) =>
      && Owned(s, id)
      && var agent := s.agents[id];
         && Enabled(agent.policy, agent.loop, input)
         && (ReadingOf(input).Some? ==> ReadingOf(input).value + s.leases[agent.token].offset <= s.world.now)
         && (input.Ended? && input.end.AttemptReturned? ==> agent.call == Returned(agent.loop.phase.start, input.err))
    case Lands(id, at, lost, failure) =>
      && Owned(s, id) && s.agents[id].call.InFlight? && Ordered(k, at, s.world.now)
    case Fails(id, failure) => Owned(s, id) && s.agents[id].call.InFlight?
  }

  function Gives(op: Op, r: Reply): set<nat> {
    if r == Done && (op.Release? || op.Forget?) then {op.rec.token} else {}
  }

  /** The system after one backend operation. */
  function Perform(k: Kind, s: System, op: Op): System {
    s.(world := Next(k, s.world, op), relinquished := s.relinquished + Gives(op, Apply(k, s.world.store, op).1))
  }

  /** An attempt of leaseClient.Acquire that took its start before calling the backend. */
  function AcquireLease(k: Kind, s: System, op: Op, offset: int, start: int): System
    requires op.Acquire?
  {
    var s', r := Perform(k, s, op), Apply(k, s.world.store, op).1;
    if r.Acquired? then s'.(leases := s.leases[r.lease.token := Lease(op.ttl, offset, start + op.ttl)]) else s'
  }

  function Do(k: Kind, s: System, a: Action): System
    requires Possible(k, s, a)
  {
    match a
    case Elapse(to) => s.(world := s.world.(now := to))
    case Acquires(op, offset, start) =>
      AcquireLease(k, s, op, offset, start)
    case Performs(op) => Perform(k, s, op)
    case StartsRenewal(id, token, policy, reading) =>
      s.(agents := s.agents[id := Agent(token, policy, Begin(s.leases[token].deadline, reading), NoCall)])
    case Steps(id, input) =>
      var agent := s.agents[id];
      var loop := Step(agent.policy, s.leases[agent.token].ttl, agent.loop, input);
      s.(agents := s.agents[id := agent.(loop := loop, call := if input.Launched? then InFlight(input.start) else agent.call)])
    case Lands(id, at, lost, failure) =>
      var op := RenewOp(s, id, at);
      var err := if lost then Some(failure) else RenewError(Apply(k, s.world.store, op).1);
      var s' := Perform(k, s, op);
      s'.(agents := s.agents[id := s.agents[id].(call := Returned(s.agents[id].call.start, err))])
    case Fails(id, failure) =>
      s.(agents := s.agents[id := s.agents[id].(call := Returned(s.agents[id].call.start, Some(failure)))])
  }

  // ---------- A bound on local time that storage honours ----------

  ghost predicate HeldBy(w: World, t: nat) {
    t in w.issued && w.issued[t].work in w.store.rows && w.store.rows[w.issued[t].work].token == t
  }

  /** The row of t, once it is held. */
  function RowOf(w: World, t: nat): Row
    requires t in w.issued && w.issued[t].work in w.store.rows
  {
    w.store.rows[w.issued[t].work]
  }

  /** bound, in backend time, is never beyond the stored expiry of t while the
      row stands without a declared exit; and if the row has gone to somebody
      else, then bound is past, unless t was given up. */
  ghost predicate Covered(w: World, given: bool, t: nat, bound: int) {
    t in w.issued &&
    if HeldBy(w, t) then RowOf(w, t).exitMode == ExitNone ==> bound <= RowOf(w, t).expiresAt
    else given || bound < w.now
  }

  ghost predicate DeclaredGiven(w: World, relinquished: set<nat>) {
    forall x <- w.store.rows :: w.store.rows[x].exitMode != ExitNone ==> w.store.rows[x].token in relinquished
  }

  lemma DeclaredGivenNext(k: Kind, s: System, op: Op)
    requires DeclaredGiven(s.world, s.relinquished)
    ensures DeclaredGiven(Perform(k, s, op).world, Perform(k, s, op).relinquished)
  {
    var s' := Perform(k, s, op);
    forall x | x in s'.world.store.rows && s'.world.store.rows[x].exitMode != ExitNone
      ensures s'.world.store.rows[x].token in s'.relinquished
    {
      if x in s.world.store.rows {
        RowNext(k, s.world, op, x);
        ReplyFacts(k, s.world.store, op);
      } else {
        RowCreated(k, s.world, op, x);
      }
    }
  }

  /** Storage stays ahead of every bound a client took from an earlier start of
      a call plus its TTL, whatever operation comes next. */
  lemma CoveredNext(k: Kind, s: System, op: Op, t: nat, bound: int)
    requires Inv(s.world) && Timely(k, op, s.world.now) && DeclaredGiven(s.world, s.relinquished)
    requires t in s.leases && OwnTtl(s, op)
    requires bound <= s.world.now + s.leases[t].ttl && Covered(s.world, t in s.relinquished, t, bound)
    ensures var s' := Perform(k, s, op); Covered(s'.world, t in s'.relinquished, t, bound)
  {
    InvNext(k, s.world, op);
    var rec := s.world.issued[t];
    if HeldBy(s.world, t) {
      HeldCoveredNext(k, s, op, t, bound);
    } else {
      FencedNext(k, s.world, op, rec);
      NotHeld(Next(k, s.world, op), t);
    }
  }

  lemma NotHeld(w: World, t: nat)
    requires Inv(w) && t in w.issued && !Held(w.store, w.issued[t])
    ensures !HeldBy(w, t)
  {
    var x := w.issued[t].work;
    assert x in w.store.rows ==> RowIssued(w, x);
  }

  /** What one operation does to the expiry of a held row. */
  lemma ExpiryNext(k: Kind, w: World, op: Op, x: WorkId)
    requires x in w.store.rows && ExitSettled(w, x) && Timely(k, op, w.now)
    requires w.store.rows[x].token <= w.store.counter
    ensures var w' := Next(k, w, op);
            var row := w.store.rows[x];
            && (x in w'.store.rows && w'.store.rows[x].token == row.token && w'.store.rows[x].exitMode == ExitNone ==>
                  w'.store.rows[x].expiresAt == row.expiresAt ||
                  ((op.Checkpoint? || op.Renew?) && op.rec.work == x && op.rec.token == row.token &&
                   w'.store.rows[x].expiresAt >= w.now + StoredTtl(k, op.ttl)))
            && (x in w'.store.rows && w'.store.rows[x].token == row.token && row.exitMode != ExitNone ==>
                  w'.store.rows[x].exitMode != ExitNone)
  {
  }

  /** How a row can be lost: somebody acquires or sweeps it after its expiry, or its holder forgets it. */
  lemma LossNext(k: Kind, w: World, op: Op, x: WorkId)
    requires x in w.store.rows && Timely(k, op, w.now)
    requires x in Next(k, w, op).store.rows ==> Next(k, w, op).store.rows[x].token != w.store.rows[x].token
    ensures w.store.rows[x].expiresAt < Next(k, w, op).now
            || (op.Forget? && op.rec.token == w.store.rows[x].token && Apply(k, w.store, op).1 == Done)
  {
  }

  lemma HeldCoveredNext(k: Kind, s: System, op: Op, t: nat, bound: int)
    requires Inv(s.world) && Timely(k, op, s.world.now) && DeclaredGiven(s.world, s.relinquished)
    requires t in s.leases && OwnTtl(s, op) && HeldBy(s.world, t)
    requires bound <= s.world.now + s.leases[t].ttl && Covered(s.world, t in s.relinquished, t, bound)
    requires t in Next(k, s.world, op).issued && Next(k, s.world, op).issued[t] == s.world.issued[t]
    ensures var s' := Perform(k, s, op); Covered(s'.world, t in s'.relinquished, t, bound)
  {
    var x := s.world.issued[t].work;
    assert RowIssued(s.world, x) && ExitSettled(s.world, x);
    if HeldBy(Next(k, s.world, op), t) {
      ExpiryNext(k, s.world, op, x);
      StoredTtlCovers(k, s.leases[t].ttl);
    } else {
      LossNext(k, s.world, op, x);
    }
  }

  // ---------- What every reachable system keeps ----------

  /** Every bound a client may act on: its Acquire deadline, its tracked window,
      and the window a Renew that succeeded will give it. */
  ghost predicate LeaseCovered(s: System, t: nat)
    requires t in s.leases
  {
    var l := s.leases[t];
    && l.deadline - l.ttl + l.offset <= s.world.now
    && Covered(s.world, t in s.relinquished, t, l.deadline + l.offset)
  }

  ghost predicate CallMatches(a: Agent) {
    match a.loop.phase
    case Idle => !a.call.InFlight?
    case Ready(_, _, _) => !a.call.InFlight?
    case Sleeping(_, _, _, _) => !a.call.InFlight?
    case Renewed => !a.call.InFlight?
    case Attempting(_, _, _, start) => a.call == InFlight(start) || (a.call.Returned? && a.call.start == start)
    case Answered(_, _, _, start, end, err) => end.AttemptReturned? ==> a.call == Returned(start, err)
    case Exited(_) => true
  }

  ghost predicate AgentCovered(s: System, id: nat)
    requires id in s.agents && s.agents[id].token in s.leases
  {
    var a := s.agents[id];
    var l := s.leases[a.token];
    var given := a.token in s.relinquished;
    && LoopInv(l.ttl, a.loop) && CallMatches(a)
    && a.loop.lastRead + l.offset <= s.world.now
    && Covered(s.world, given, a.token, a.loop.window + l.offset)
    && (a.call.InFlight? ==> a.call.start + l.offset <= s.world.now)
    && (a.call.Returned? ==> a.call.start + l.offset <= s.world.now)
    && (a.call.Returned? && a.call.err == None ==> Covered(s.world, given, a.token, a.call.start + l.ttl + l.offset))
  }

  ghost predicate SysInv(s: System) {
    && Inv(s.world) && DeclaredGiven(s.world, s.relinquished)
    && (forall t <- s.leases :: LeaseCovered(s, t))
    && (forall id <- s.agents :: s.agents[id].token in s.leases && AgentCovered(s, id))
  }

  lemma PerformLease(k: Kind, s: System, op: Op, t: nat)
    requires Inv(s.world) && DeclaredGiven(s.world, s.relinquished) && Timely(k, op, s.world.now) && OwnTtl(s, op)
    requires t in s.leases && LeaseCovered(s, t)
    ensures LeaseCovered(Perform(k, s, op), t)
  {
    InvNext(k, s.world, op);
    CoveredNext(k, s, op, t, s.leases[t].deadline + s.leases[t].offset);
  }

  lemma PerformAgent(k: Kind, s: System, op: Op, id: nat)
    requires Inv(s.world) && DeclaredGiven(s.world, s.relinquished) && Timely(k, op, s.world.now) && OwnTtl(s, op)
    requires id in s.agents && s.agents[id].token in s.leases && AgentCovered(s, id)
    ensures AgentCovered(Perform(k, s, op), id)
  {
    var a := s.agents[id];
    var l := s.leases[a.token];
    InvNext(k, s.world, op);
    CoveredNext(k, s, op, a.token, a.loop.window + l.offset);
    if a.call.Returned? && a.call.err == None {
      CoveredNext(k, s, op, a.token, a.call.start + l.ttl + l.offset);
    }
  }

  lemma PerformInv(k: Kind, s: System, op: Op)
    requires SysInv(s) && Timely(k, op, s.world.now) && OwnTtl(s, op)
    ensures SysInv(Perform(k, s, op))
  {
    InvNext(k, s.world, op);
    DeclaredGivenNext(k, s, op);
    forall t | t in s.leases
      ensures LeaseCovered(Perform(k, s, op), t)
    {
      PerformLease(k, s, op, t);
    }
    forall id | id in s.agents
      ensures AgentCovered(Perform(k, s, op), id)
    {
      PerformAgent(k, s, op, id);
    }
  }

  /** The stored expiry of a new lease is at least the client's start plus TTL. */
  lemma AcquireCovers(k: Kind, w: World, op: Op, bound: int)
    requires op.Acquire? && Timely(k, op, w.now) && bound <= op.at.check + op.ttl
    requires Apply(k, w.store, op).1.Acquired?
    ensures Covered(Next(k, w, op), false, Apply(k, w.store, op).1.lease.token, bound)
  {
    StoredTtlCovers(k, op.ttl);
  }

  /** So is the expiry a successful Renew stores. */
  lemma RenewCovers(k: Kind, w: World, op: Op, bound: int)
    requires Inv(w) && op.Renew? && Timely(k, op, w.now) && bound <= op.at.check + op.ttl
    requires op.rec.token in w.issued && w.issued[op.rec.token] == op.rec
    requires Apply(k, w.store, op).1 == Done
    ensures Covered(Next(k, w, op), false, op.rec.token, bound)
  {
    StoredTtlCovers(k, op.ttl);
  }

  /** A new lease does not disturb what held for the others. */
  lemma LeaseAdded(s: System, t: nat, l: Lease)
    requires SysInv(s) && t !in s.leases
    requires l.deadline - l.ttl + l.offset <= s.world.now
    requires Covered(s.world, t in s.relinquished, t, l.deadline + l.offset)
    ensures SysInv(s.(leases := s.leases[t := l]))
  {
    var s' := s.(leases := s.leases[t := l]);
    forall u | u in s'.leases
      ensures LeaseCovered(s', u)
    {
      assert u != t ==> LeaseCovered(s, u);
    }
    forall id | id in s'.agents
      ensures s'.agents[id].token in s'.leases && AgentCovered(s', id)
    {
      assert AgentCovered(s, id);
    }
  }

  /** A client that took start before the call gets a deadline storage honours. */
  lemma GrantCovers(k: Kind, s: System, op: Op, offset: int, start: int)
    requires Inv(s.world) && forall t <- s.leases :: t in s.world.issued
    requires op.Acquire? && Timely(k, op, s.world.now) && start + offset <= op.at.check
    requires Apply(k, s.world.store, op).1.Acquired?
    ensures var p, t := Perform(k, s, op), Apply(k, s.world.store, op).1.lease.token;
            && t !in p.leases && start + offset <= p.world.now
            && Covered(p.world, false, t, start + op.ttl + offset)
  {
    ReplyFacts(k, s.world.store, op);
    AcquireCovers(k, s.world, op, start + op.ttl + offset);
  }

  lemma LeasesIssued(s: System)
    requires SysInv(s)
    ensures forall t <- s.leases :: t in s.world.issued
  {
    forall t | t in s.leases
      ensures t in s.world.issued
    {
      assert LeaseCovered(s, t);
    }
  }

  lemma AcquireInv(k: Kind, s: System, op: Op, offset: int, start: int)
    requires SysInv(s) && op.Acquire? && Timely(k, op, s.world.now) && start + offset <= op.at.check
    ensures SysInv(AcquireLease(k, s, op, offset, start))
  {
    var p, r, l := Perform(k, s, op), Apply(k, s.world.store, op).1, Lease(op.ttl, offset, start + op.ttl);
    assert AcquireLease(k, s, op, offset, start) == if r.Acquired? then p.(leases := p.leases[r.lease.token := l]) else p;
    PerformInv(k, s, op);
    if r.Acquired? {
      LeasesIssued(s);
      GrantCovers(k, s, op, offset, start);
      LeaseAdded(p, r.lease.token, l);
    }
  }

  /** Changing one agent and nothing else. */
  lemma AgentReplaced(s: System, id: nat, a: Agent)
    requires SysInv(s) && a.token in s.leases
    requires AgentCovered(s.(agents := s.agents[id := a]), id)
    ensures SysInv(s.(agents := s.agents[id := a]))
  {
    var s' := s.(agents := s.agents[id := a]);
    forall t | t in s'.leases
      ensures LeaseCovered(s', t)
    {
      assert LeaseCovered(s, t);
    }
    forall j | j in s'.agents
      ensures s'.agents[j].token in s'.leases && AgentCovered(s', j)
    {
      assert j != id ==> AgentCovered(s, j);
    }
  }

  lemma CallStep(k: Kind, s: System, a: Action)
    requires a.Steps? && Possible(k, s, a) && CallMatches(s.agents[a.id])
    ensures CallMatches(Do(k, s, a).agents[a.id])
  {
  }

  lemma StepAgent(k: Kind, s: System, a: Action)
    requires a.Steps? && Possible(k, s, a) && AgentCovered(s, a.id)
    ensures AgentCovered(Do(k, s, a), a.id)
  {
    var agent := s.agents[a.id];
    var ttl := s.leases[agent.token].ttl;
    AccountedStep(agent.policy, ttl, agent.loop, a.input);
    WindowKeptStep(agent.policy, ttl, agent.loop, a.input);
    StepCovered(s, a.id, a.input);
    CallStep(k, s, a);
  }

  lemma StepInv(k: Kind, s: System, a: Action)
    requires SysInv(s) && a.Steps? && Possible(k, s, a)
    ensures SysInv(Do(k, s, a))
  {
    assert AgentCovered(s, a.id);
    StepAgent(k, s, a);
    AgentReplaced(s, a.id, Do(k, s, a).agents[a.id]);
  }

  /** The tracked window moves only to a bound storage has confirmed. */
  lemma StepCovered(s: System, id: nat, input: Input)
    requires id in s.agents && s.agents[id].token in s.leases && AgentCovered(s, id)
    requires Enabled(s.agents[id].policy, s.agents[id].loop, input)
    ensures var a := s.agents[id];
            var l := s.leases[a.token];
            var loop := Step(a.policy, l.ttl, a.loop, input);
            && (loop.window == a.loop.window
                || (a.call.Returned? && a.call.err == None && loop.window == a.call.start + l.ttl))
            && loop.lastRead == if ReadingOf(input).Some? && loop.lastRead != a.loop.lastRead
                                then ReadingOf(input).value else a.loop.lastRead
  {
  }

  lemma StartInv(k: Kind, s: System, a: Action)
    requires SysInv(s) && a.StartsRenewal? && Possible(k, s, a)
    ensures SysInv(Do(k, s, a))
  {
    var l := s.leases[a.token];
    assert LeaseCovered(s, a.token);
    BeginInv(l.ttl, l.deadline, a.reading);
    AgentReplaced(s, a.id, Do(k, s, a).agents[a.id]);
  }

  lemma LandAgent(k: Kind, s: System, a: Action)
    requires SysInv(s) && a.Lands? && Possible(k, s, a)
    requires AgentCovered(s, a.id) && AgentCovered(Perform(k, s, RenewOp(s, a.id, a.at)), a.id)
    ensures AgentCovered(Do(k, s, a), a.id)
  {
    var agent := s.agents[a.id];
    var l := s.leases[agent.token];
    var op := RenewOp(s, a.id, a.at);
    if !a.lost && Apply(k, s.world.store, op).1 == Done {
      RenewCovers(k, s.world, op, agent.call.start + l.ttl + l.offset);
    }
    RenewAnswers(k, s.world.store, op);
  }

  lemma RenewAnswers(k: Kind, s: Store, op: Op)
    requires op.Renew?
    ensures RenewError(Apply(k, s, op).1) == None <==> Apply(k, s, op).1 == Done
  {
  }

  lemma LandInv(k: Kind, s: System, a: Action)
    requires SysInv(s) && a.Lands? && Possible(k, s, a)
    ensures SysInv(Do(k, s, a))
  {
    var op := RenewOp(s, a.id, a.at);
    var p := Perform(k, s, op);
    PerformInv(k, s, op);
    assert AgentCovered(s, a.id) && AgentCovered(p, a.id);
    LandAgent(k, s, a);
    AgentReplaced(p, a.id, Do(k, s, a).agents[a.id]);
  }

  lemma FailInv(k: Kind, s: System, a: Action)
    requires SysInv(s) && a.Fails? && Possible(k, s, a)
    ensures SysInv(Do(k, s, a))
  {
    assert AgentCovered(s, a.id);
    AgentReplaced(s, a.id, Do(k, s, a).agents[a.id]);
  }

  lemma ElapseInv(k: Kind, s: System, a: Action)
    requires SysInv(s) && a.Elapse? && Possible(k, s, a)
    ensures SysInv(Do(k, s, a))
  {
    var s' := Do(k, s, a);
    assert forall x <- s'.world.store.rows :: RowIssued(s.world, x) && ExitSettled(s.world, x);
    forall t | t in s'.leases
      ensures LeaseCovered(s', t)
    {
      assert LeaseCovered(s, t);
    }
    forall id | id in s'.agents
      ensures s'.agents[id].token in s'.leases && AgentCovered(s', id)
    {
      assert AgentCovered(s, id);
    }
  }

  lemma SysInvNext(k: Kind, s: System, a: Action)
    requires SysInv(s) && Possible(k, s, a)
    ensures SysInv(Do(k, s, a))
  {
    match a
    case Elapse(_) => ElapseInv(k, s, a);
    case Acquires(op, offset, start) => AcquireInv(k, s, op, offset, start);
    case Performs(op) => PerformInv(k, s, op);
    case StartsRenewal(_, _, _, _) => StartInv(k, s, a);
    case Steps(_, _) => StepInv(k, s, a);
    case Lands(_, _, _, _) => LandInv(k, s, a);
    case Fails(_, _) => FailInv(k, s, a);
  }

  /** Some run from the start leads from one system to another. */
  ghost predicate Behaviour(k: Kind, states: seq<System>, actions: seq<Action>) {
    && |states| == |actions| + 1
    && (exists now :: states[0] == Initial(now))
    && forall i | 0 <= i < |actions| :: Possible(k, states[i], actions[i]) && states[i + 1] == Do(k, states[i], actions[i])
  }

  lemma {:induction false} BehaviourInv(k: Kind, states: seq<System>, actions: seq<Action>, i: nat)
    requires Behaviour(k, states, actions) && i < |states|
    ensures SysInv(states[i])
  {
    if i > 0 {
      BehaviourInv(k, states, actions, i - 1);
      SysInvNext(k, states[i - 1], actions[i - 1]);
    }
  }

  // ---------- The claims ----------

  /** Window soundness. In every state of every behaviour, what LeaseWindow
      reports, moved to the backend's clock, is at most the stored expiry while
      the token's row stands with no declared exit; and so is the window the
      goroutine is about to publish. */
  lemma WindowsAreSound(k: Kind, states: seq<System>, actions: seq<Action>, i: nat, id: nat)
    requires Behaviour(k, states, actions) && i < |states| && id in states[i].agents
    ensures var s := states[i];
            var a := s.agents[id];
            && a.token in s.leases && a.token in s.world.issued
            && a.loop.published <= a.loop.window
            && (HeldBy(s.world, a.token) && RowOf(s.world, a.token).exitMode == ExitNone ==>
                  a.loop.window + s.leases[a.token].offset <= RowOf(s.world, a.token).expiresAt)
  {
    BehaviourInv(k, states, actions, i);
    assert AgentCovered(states[i], id);
  }

  /** No step of a behaviour moves a published window backwards. */
  lemma PublishedNeverMovesBack(k: Kind, states: seq<System>, actions: seq<Action>, i: nat, id: nat)
    requires Behaviour(k, states, actions) && i < |actions| && id in states[i].agents
    ensures id in states[i + 1].agents
    ensures states[i].agents[id].loop.published <= states[i + 1].agents[id].loop.published
  {
    BehaviourInv(k, states, actions, i);
    assert AgentCovered(states[i], id);
    if actions[i].Steps? && actions[i].id == id {
      var a := states[i].agents[id];
      WindowNeverMovesBack(a.policy, states[i].leases[a.token].ttl, a.loop, actions[i].input);
    }
  }

  /** A goroutine never has two Renew calls in flight: when it launches one, the previous has come back. */
  lemma OneRenewInFlight(k: Kind, states: seq<System>, actions: seq<Action>, i: nat)
    requires Behaviour(k, states, actions) && i < |actions|
    requires actions[i].Steps? && actions[i].input.Launched?
    ensures !states[i].agents[actions[i].id].call.InFlight?
  {
    BehaviourInv(k, states, actions, i);
    assert AgentCovered(states[i], actions[i].id);
  }

  /** By its own clock, some holder of token t still has an open window at a
      backend reading: its acquiring deadline or the window of a renewal. */
  ghost predicate OpenAt(s: System, t: nat, reading: int) {
    t in s.leases && t !in s.relinquished &&
    (reading - s.leases[t].offset < s.leases[t].deadline
     || exists id :: id in s.agents && s.agents[id].token == t && reading - s.leases[t].offset < s.agents[id].loop.window)
  }

  /** While a window is open and its holder has not released or forgotten the
      lease, the row stands, undeclared and unexpired. */
  lemma OpenMeansHeld(s: System, t: nat, reading: int)
    requires SysInv(s) && OpenAt(s, t, reading) && s.world.now <= reading
    ensures HeldBy(s.world, t) && RowOf(s.world, t).exitMode == ExitNone && reading < RowOf(s.world, t).expiresAt
  {
    assert LeaseCovered(s, t);
    if reading - s.leases[t].offset >= s.leases[t].deadline {
      var id :| id in s.agents && s.agents[id].token == t && reading - s.leases[t].offset < s.agents[id].loop.window;
      assert AgentCovered(s, id);
    }
  }

  /** Mutual exclusion: in every state of every behaviour, at most one token of
      a work ID has an open window. */
  lemma MutualExclusion(k: Kind, states: seq<System>, actions: seq<Action>, i: nat, t: nat, u: nat)
    requires Behaviour(k, states, actions) && i < |states|
    requires OpenAt(states[i], t, states[i].world.now) && OpenAt(states[i], u, states[i].world.now)
    requires t in states[i].world.issued && u in states[i].world.issued
    requires states[i].world.issued[t].work == states[i].world.issued[u].work
    ensures t == u
  {
    BehaviourInv(k, states, actions, i);
    OpenMeansHeld(states[i], t, states[i].world.now);
    OpenMeansHeld(states[i], u, states[i].world.now);
  }

  /** While a holder's window is open, every Acquire of its work ID is refused
      with ErrLeaseHeld, and no Sweep removes its row. */
  lemma OpenWindowExcludesOthers(k: Kind, states: seq<System>, actions: seq<Action>, i: nat, t: nat, op: Op)
    requires Behaviour(k, states, actions) && i < |states| && t in states[i].world.issued
    requires Timely(k, op, states[i].world.now)
    ensures op.Acquire? && op.work == states[i].world.issued[t].work && OpenAt(states[i], t, op.at.check) ==>
              Apply(k, states[i].world.store, op).1 == Failed(ErrLeaseHeld)
    ensures op.Sweep? && OpenAt(states[i], t, op.now) ==>
              var s' := Next(k, states[i].world, op);
              HeldBy(s', t) && RowOf(s', t) == RowOf(states[i].world, t)
  {
    BehaviourInv(k, states, actions, i);
    if op.Acquire? && OpenAt(states[i], t, op.at.check) {
      OpenMeansHeld(states[i], t, op.at.check);
    } else if op.Sweep? && OpenAt(states[i], t, op.now) {
      OpenMeansHeld(states[i], t, op.now);
    }
  }

  // ---------- Where windows and losses come from ----------

  /** Action j was an Acquire that was granted token t. */
  ghost predicate Grants(k: Kind, s: System, a: Action, t: nat) {
    a.Acquires? && a.op.Acquire?
    && var r := Apply(k, s.world.store, a.op).1; r.Acquired? && r.lease.token == t
  }

  /** A lease is handed out once, by the Acquire that was granted its token: the
      deadline is that call's own local start plus its TTL, and stays so. */
  lemma LeaseNext(k: Kind, s: System, a: Action, t: nat)
    requires SysInv(s) && Possible(k, s, a)
    ensures t in s.leases ==>
              !Grants(k, s, a, t) && t in Do(k, s, a).leases && Do(k, s, a).leases[t] == s.leases[t]
    ensures t !in s.leases ==> (t in Do(k, s, a).leases <==> Grants(k, s, a, t))
    ensures Grants(k, s, a, t) ==> Do(k, s, a).leases[t] == Lease(a.op.ttl, a.offset, a.start + a.op.ttl)
  {
    LeasesIssued(s);
    if a.Acquires? {
      ReplyFacts(k, s.world.store, a.op);
    }
  }

  lemma {:induction false} LeaseFromAcquire(k: Kind, states: seq<System>, actions: seq<Action>, i: nat, t: nat)
    requires Behaviour(k, states, actions) && i < |states|
    ensures t in states[i].leases <==> exists j: nat :: j < i && Grants(k, states[j], actions[j], t)
    ensures forall j: nat | j < i && Grants(k, states[j], actions[j], t) ::
              t in states[i].leases &&
              states[i].leases[t] == Lease(actions[j].op.ttl, actions[j].offset, actions[j].start + actions[j].op.ttl)
  {
    if i > 0 {
      LeaseFromAcquire(k, states, actions, i - 1, t);
      BehaviourInv(k, states, actions, i - 1);
      LeaseNext(k, states[i - 1], actions[i - 1], t);
    }
  }

  /** The goroutine of an agent is a run of the renewal machine from its lease's deadline. */
  ghost predicate RunsFromDeadline(s: System, id: nat)
    requires id in s.agents && s.agents[id].token in s.leases
  {
    var a, l := s.agents[id], s.leases[s.agents[id].token];
    exists reading: int :: Reached(a.policy, l.ttl, Begin(l.deadline, reading), a.loop)
  }

  lemma RunsFromDeadlineNext(k: Kind, s: System, a: Action, id: nat)
    requires SysInv(s) && Possible(k, s, a) && id in Do(k, s, a).agents
    requires id in s.agents ==> RunsFromDeadline(s, id)
    ensures Do(k, s, a).agents[id].token in Do(k, s, a).leases && RunsFromDeadline(Do(k, s, a), id)
  {
    var s' := Do(k, s, a);
    var t := s'.agents[id].token;
    LeaseNext(k, s, a, t);
    if id !in s.agents {
      ReachedStart(a.policy, s.leases[t].ttl, Begin(s.leases[t].deadline, a.reading));
    } else {
      var agent, l := s.agents[id], s.leases[t];
      var reading: int :| Reached(agent.policy, l.ttl, Begin(l.deadline, reading), agent.loop);
      if a.Steps? && a.id == id {
        ReachedNext(agent.policy, l.ttl, Begin(l.deadline, reading), agent.loop, a.input);
      }
      assert Reached(agent.policy, l.ttl, Begin(l.deadline, reading), s'.agents[id].loop);
    }
  }

  lemma {:induction false} AgentRuns(k: Kind, states: seq<System>, actions: seq<Action>, i: nat, id: nat)
    requires Behaviour(k, states, actions) && i < |states| && id in states[i].agents
    ensures states[i].agents[id].token in states[i].leases && RunsFromDeadline(states[i], id)
  {
    if i > 0 {
      BehaviourInv(k, states, actions, i - 1);
      if id in states[i - 1].agents {
        AgentRuns(k, states, actions, i - 1, id);
      }
      RunsFromDeadlineNext(k, states[i - 1], actions[i - 1], id);
    }
  }

  /** Windows are exact. In every state of every behaviour, a goroutine's window,
      tracked and published, is its lease's deadline until a Renew of its own has
      returned nil, and then the local start of the last such call plus TTL. */
  lemma WindowsAreExact(k: Kind, states: seq<System>, actions: seq<Action>, i: nat, id: nat)
    requires Behaviour(k, states, actions) && i < |states| && id in states[i].agents
    ensures var a := states[i].agents[id];
            && a.token in states[i].leases
            && var l := states[i].leases[a.token];
               exists reading: int, inputs: seq<Input> ::
                 && EnabledRun(a.policy, l.ttl, Begin(l.deadline, reading), inputs)
                 && a.loop == RunLoop(a.policy, l.ttl, Begin(l.deadline, reading), inputs)
                 && a.loop.window == WindowAfter(l.deadline, l.ttl, inputs)
                 && a.loop.published == PublishedAfter(l.deadline, l.ttl, inputs)
  {
    AgentRuns(k, states, actions, i, id);
    var a := states[i].agents[id];
    var l := states[i].leases[a.token];
    var reading: int :| Reached(a.policy, l.ttl, Begin(l.deadline, reading), a.loop);
    var inputs :| EnabledRun(a.policy, l.ttl, Begin(l.deadline, reading), inputs)
                  && a.loop == RunLoop(a.policy, l.ttl, Begin(l.deadline, reading), inputs);
    WindowIsLastSuccess(a.policy, l.ttl, l.deadline, reading, inputs);
  }

  /** An accepted Release or Forget with token t. */
  predicate GivesUp(e: Event, t: nat) {
    e.reply == Done && (e.op.Release? || e.op.Forget?) && e.op.rec.token == t
  }

  predicate GivenUp(log: seq<Event>, t: nat) {
    log != [] && (GivesUp(log[|log| - 1], t) || GivenUp(log[..|log| - 1], t))
  }

  lemma PerformGives(k: Kind, s: System, op: Op, t: nat)
    requires t in s.relinquished <==> GivenUp(s.world.log, t)
    ensures t in Perform(k, s, op).relinquished <==> GivenUp(Perform(k, s, op).world.log, t)
  {
    var log := Next(k, s.world, op).log;
    assert log[..|log| - 1] == s.world.log;
  }

  lemma RelinquishedNext(k: Kind, s: System, a: Action, t: nat)
    requires Possible(k, s, a) && (t in s.relinquished <==> GivenUp(s.world.log, t))
    ensures t in Do(k, s, a).relinquished <==> GivenUp(Do(k, s, a).world.log, t)
  {
    match a
    case Acquires(op, _, _) => PerformGives(k, s, op, t);
    case Performs(op) => PerformGives(k, s, op, t);
    case Lands(id, at, _, _) => PerformGives(k, s, RenewOp(s, id, at), t);
    case _ =>
  }

  /** Relinquished tokens are those with an accepted Release or Forget, no more and no fewer. */
  lemma {:induction false} RelinquishedMeans(k: Kind, states: seq<System>, actions: seq<Action>, i: nat, t: nat)
    requires Behaviour(k, states, actions) && i < |states|
    ensures t in states[i].relinquished <==> GivenUp(states[i].world.log, t)
  {
    if i > 0 {
      RelinquishedMeans(k, states, actions, i - 1, t);
      RelinquishedNext(k, states[i - 1], actions[i - 1], t);
    }
  }

  /** What the client is told by a Renew that lands and whose reply arrives. */
  lemma LandsAnswers(k: Kind, s: System, a: Action)
    requires SysInv(s) && a.Lands? && !a.lost && Possible(k, s, a)
    ensures var t, err := s.agents[a.id].token, Do(k, s, a).agents[a.id].call.err;
            err == if !HeldBy(s.world, t) then Some({IsFenced})
                   else if a.at.check >= RowOf(s.world, t).expiresAt then Some({IsLeaseExpired}) else None
  {
    var t := s.agents[a.id].token;
    var rec := s.world.issued[t];
    if rec.work in s.world.store.rows {
      assert RowIssued(s.world, rec.work);
    }
  }

  /** A backend call that brings no answer does not claim that the lease was lost. */
  predicate HonestFailure(a: Action) {
    ((a.Lands? && a.lost) || a.Fails?) ==> IsFenced !in a.failure
  }

  ghost predicate Gone(s: System, t: nat) {
    t in s.world.issued && !HeldBy(s.world, t)
  }

  /** Wherever an agent has read ErrFenced, its lease is gone. */
  ghost predicate FencedIsGone(s: System, id: nat)
    requires id in s.agents
  {
    var a := s.agents[id];
    && (a.call.Returned? && Is(a.call.err, IsFenced) ==> Gone(s, a.token))
    && (a.loop.phase == Exited(ByFencing) ==> Gone(s, a.token))
  }

  lemma GoneStays(k: Kind, s: System, a: Action, t: nat)
    requires SysInv(s) && Possible(k, s, a) && Gone(s, t)
    ensures Gone(Do(k, s, a), t)
  {
    var w := s.world;
    var op := if a.Acquires? then a.op else if a.Performs? then a.op
              else if a.Lands? then RenewOp(s, a.id, a.at) else ReadCheckpoint(w.issued[t]);
    if a.Acquires? || a.Performs? || a.Lands? {
      assert !Held(w.store, w.issued[t]);
      InvNext(k, w, op);
      FencedNext(k, w, op, w.issued[t]);
      NotHeld(Next(k, w, op), t);
    }
  }

  lemma FencedIsGoneNext(k: Kind, s: System, a: Action, id: nat)
    requires SysInv(s) && Possible(k, s, a) && HonestFailure(a) && id in Do(k, s, a).agents
    requires id in s.agents ==> FencedIsGone(s, id)
    ensures FencedIsGone(Do(k, s, a), id)
  {
    var s' := Do(k, s, a);
    if id in s.agents {
      var t := s.agents[id].token;
      assert AgentCovered(s, id);
      if Gone(s, t) {
        GoneStays(k, s, a, t);
      } else if a.Lands? && a.id == id && !a.lost {
        LandsAnswers(k, s, a);
      }
    }
  }

  lemma FencedIsGoneAt(k: Kind, states: seq<System>, actions: seq<Action>, i: nat, id: nat)
    requires Behaviour(k, states, actions) && i < |actions| && HonestFailure(actions[i]) && id in states[i + 1].agents
    requires id in states[i].agents ==> FencedIsGone(states[i], id)
    ensures FencedIsGone(states[i + 1], id)
  {
    BehaviourInv(k, states, actions, i);
    FencedIsGoneNext(k, states[i], actions[i], id);
  }

  lemma {:induction false} FencedIsGoneRun(k: Kind, states: seq<System>, actions: seq<Action>, i: nat, id: nat)
    requires Behaviour(k, states, actions) && i < |states| && id in states[i].agents
    requires forall j | 0 <= j < |actions| :: HonestFailure(actions[j])
    ensures FencedIsGone(states[i], id)
  {
    if i > 0 {
      if id in states[i - 1].agents {
        FencedIsGoneRun(k, states, actions, i - 1, id);
      }
      FencedIsGoneAt(k, states, actions, i - 1, id);
    }
  }

  /** OnFenced tells the truth: in every state of every behaviour, once it has
      been called the lease is gone, to a successor or deleted. */
  lemma FencedMeansLost(k: Kind, states: seq<System>, actions: seq<Action>, i: nat, id: nat)
    requires Behaviour(k, states, actions) && i < |states| && id in states[i].agents
    requires forall j | 0 <= j < |actions| :: HonestFailure(actions[j])
    ensures states[i].agents[id].loop.fenced > 0 ==> !HeldBy(states[i].world, states[i].agents[id].token)
  {
    FencedIsGoneRun(k, states, actions, i, id);
    BehaviourInv(k, states, actions, i);
    assert AgentCovered(states[i], id);
  }
}
