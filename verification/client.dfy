/** leaseClient against a live backend: before any of its calls, other clients
    may have run any number of operations, and a call may fail without a reply,
    whether or not the backend executed it. */
module Client {
  import opened Types
  import opened LeaseStore
  import opened Protocol

  datatype Token = Token(rec: LeaseRecord, deadline: int)

  /** What others may do with one lease record while this client waits. */
  datatype Rule =
    | Anything
    | WorkInProgress(rec: LeaseRecord)  // anything but Release and Forget with it
    | LateCallsOnly(rec: LeaseRecord)   // a Renew may still land

  predicate Obeys(op: Op, rule: Rule) {
    match rule
    case Anything => true
    case WorkInProgress(rec) => NoExit(op, rec)
    case LateCallsOnly(rec) => NoWrite(op, rec)
  }

  ghost predicate Follows(k: Kind, w: World, w': World, ops: seq<Op>, rule: Rule) {
    TimelyRun(k, w.now, ops) && w' == Run(k, w, ops) && forall op <- ops :: Obeys(op, rule)
  }

  /** Others ran. */
  ghost predicate Leads(k: Kind, w: World, w': World, rule: Rule) {
    exists ops :: Follows(k, w, w', ops, rule)
  }

  function SentinelOf(e: Error): Sentinel {
    match e
    case ErrFenced => IsFenced
    case ErrLeaseHeld => IsLeaseHeld
    case ErrLeaseExpired => IsLeaseExpired
    case ErrInvalidExitMode => IsInvalidExitMode
    case ErrContext => IsCanceled
  }

  /** A call that brings no reply fails with a context or driver error. */
  predicate Transport(e: Sentinels) {
    e <= {IsCanceled, IsDeadlineExceeded}
  }

  /** The backend answered, and refused. */
  predicate Refused(err: GoError) {
    err != None && !Transport(err.value)
  }

  function CallError(r: Reply, lost: GoError): GoError {
    if lost != None then lost
    else if r.Failed? then Some({SentinelOf(r.error)})
    else None
  }

  /** How Acquire's answer follows from its attempts, each reported by one event.
      Without a wait there is one attempt. With one, attempts go on while they
      find the lease held; only a context error can end the wait before that. */
  ghost predicate AcquireAnswered(work: WorkId, waitForLease: bool, events: seq<GoError>, err: GoError) {
    if work == "" then events == [] && err == Some({})
    else
      && events != []
      && (forall i | 0 <= i < |events| - 1 :: Is(events[i], IsLeaseHeld))
      && (!waitForLease ==> |events| == 1)
      && var last := events[|events| - 1];
         if waitForLease && Is(last, IsLeaseHeld) then err == Some({IsCanceled}) || err == Some({IsDeadlineExceeded})
         else err == last
  }

  /** The attempts ended in a lease. */
  predicate Granted(events: seq<GoError>) {
    events != [] && events[|events| - 1] == None
  }

  /** One attempt: its local start, and the backend's time when it was answered. */
  datatype Span = Span(start: int, answered: int)

  /** Every attempt reads the clock anew, after the one before was answered. */
  predicate InTurn(spans: seq<Span>, offset: int, from: int, to: int) {
    if spans == [] then from <= to
    else
      var last := spans[|spans| - 1];
      && last.start + offset <= last.answered <= to
      && InTurn(spans[..|spans| - 1], offset, from, last.start + offset)
  }

  lemma InTurnLater(spans: seq<Span>, offset: int, from: int, to: int, later: int)
    requires InTurn(spans, offset, from, to) && to <= later
    ensures InTurn(spans, offset, from, later)
  {
  }

  lemma InTurnAppend(spans: seq<Span>, offset: int, from: int, to: int, span: Span)
    requires InTurn(spans, offset, from, to) && to <= span.start + offset <= span.answered
    ensures InTurn(spans + [span], offset, from, span.answered)
  {
    InTurnLater(spans, offset, from, to, span.start + offset);
    assert (spans + [span])[..|spans|] == spans;
  }

  class LeaseClient {
    const kind: Kind
    const holder: HolderId
    const ttl: int
    /** Backend time minus local time. */
    const offset: int
    var world: World
    var acquireEvents: seq<GoError>

    constructor (kind: Kind, holder: HolderId, ttl: int, offset: int, world: World)
      requires Inv(world)
      ensures this.kind == kind && this.holder == holder && this.ttl == ttl && this.offset == offset
      ensures this.world == world && acquireEvents == []
    {
      this.kind, this.holder, this.ttl, this.offset := kind, holder, ttl, offset;
      this.world, acquireEvents := world, [];
    }

    /** Nothing is said about what others do but that they obey rule. */
    method Others(ghost rule: Rule)
      requires Inv(world)
      modifies this`world
      ensures Inv(world) && old(world).now <= world.now && Leads(kind, old(world), world, rule)
    {
      assert Follows(kind, world, world, [], rule);
    }

    /** Reading the local clock takes time. */
    method Now() returns (t: int)
      requires Inv(world)
      modifies this`world
      ensures Inv(world) && t + offset == world.now && old(world).now <= world.now
      ensures world == old(world).(now := world.now)
    {
      var d :| d >= 0;
      assert forall x <- world.store.rows :: RowIssued(world, x) && ExitSettled(world, x);
      world := world.(now := world.now + d);
      return world.now - offset;
    }

    /** The readings the backend will take during a call. */
    method BackendClock() returns (at: Readings)
      ensures Ordered(kind, at, world.now)
    {
      var check :| world.now <= check;
      if kind.Postgres? {
        return Readings(check, check, check);
      }
      var stamp :| check <= stamp;
      var touch :| stamp <= touch;
      return Readings(check, stamp, touch);
    }

    /** One backend call. */
    method Invoke(op: Op) returns (r: Reply, lost: GoError)
      requires Inv(world) && Timely(kind, op, world.now)
      modifies this`world
      ensures Inv(world) && r == Apply(kind, old(world).store, op).1
      ensures lost == None ==> world == Next(kind, old(world), op)
      ensures world == old(world) || world == Next(kind, old(world), op)
      ensures lost.Some? ==> Transport(lost.value)
    {
      InvNext(kind, world, op);
      r := Apply(kind, world.store, op).1;
      var executed: bool, answered: bool := *, *;
      if executed || answered {
        world := Next(kind, world, op);
      }
      if answered {
        return r, None;
      }
      var failure :| Transport(failure);
      return r, Some(failure);
    }

    method Checkpoint(rec: LeaseRecord, state: Bytes) returns (err: GoError)
      requires Inv(world) && Issued(world, rec)
      modifies this`world
      ensures Inv(world) && Issued(world, rec)
      ensures Held(world.store, rec) ==>
                && Held(old(world).store, rec)
                && world.store.rows[rec.work].exitMode == old(world).store.rows[rec.work].exitMode
                && (err == None ==> world.store.rows[rec.work].checkpoint == Stored(state))
      ensures err == None ==> Held(world.store, rec) && world.store.rows[rec.work].exitMode == ExitNone
                              && old(world).now + ttl <= world.store.rows[rec.work].expiresAt
      ensures Refused(err) ==>
                && world.store == old(world).store
                && err == Some({if Held(world.store, rec) then IsLeaseExpired else IsFenced})
                && (Held(world.store, rec) ==> world.store.rows[rec.work].exitMode != ExitNone)
    {
      var at := BackendClock();
      var op := Op.Checkpoint(rec, state, ttl, at);
      InvNext(kind, world, op);
      StoredTtlCovers(kind, ttl);
      if Held(Next(kind, world, op).store, rec) {
        HeldBefore(kind, world, op, rec);
        UndeclaredNext(kind, world, op, rec);
      }
      var r, lost := Invoke(op);
      return CallError(r, lost);
    }

    /** Release records the mode exactly when it succeeds, unless the reply was
        lost; what the store refuses leaves no trace. */
    method Release(rec: LeaseRecord, mode: ExitMode) returns (err: GoError)
      requires Inv(world) && Issued(world, rec)
      modifies this`world
      ensures Inv(world) && Issued(world, rec)
      ensures !Declarable(mode) ==> err == Some({IsInvalidExitMode}) && world == old(world)
      ensures err == None ==>
                && Held(old(world).store, rec) && Held(world.store, rec)
                && world.store.rows[rec.work].exitMode == mode
                && world.store.rows[rec.work].checkpoint == old(world).store.rows[rec.work].checkpoint
      ensures Is(err, IsFenced) || Is(err, IsLeaseExpired) ==> world.store == old(world).store
      ensures Held(world.store, rec) ==>
                && Held(old(world).store, rec)
                && world.store.rows[rec.work].checkpoint == old(world).store.rows[rec.work].checkpoint
      ensures Refused(err) && Declarable(mode) ==>
                && err == Some({if Held(world.store, rec) then IsLeaseExpired else IsFenced})
                && (Held(world.store, rec) ==> world.store.rows[rec.work].expiresAt <= world.now)
    {
      if mode != ExitFinished && mode != ExitAbandoned && mode != ExitRetired {
        return Some({IsInvalidExitMode});
      }
      var at := BackendClock();
      InvNext(kind, world, Op.Release(rec, mode, at));
      var r, lost := Invoke(Op.Release(rec, mode, at));
      return CallError(r, lost);
    }

    method ReadCheckpoint(rec: LeaseRecord) returns (view: CheckpointView, err: GoError)
      requires Inv(world) && Issued(world, rec)
      modifies this`world
      ensures Inv(world) && Issued(world, rec) && world.store == old(world).store
      ensures err == None ==> ReadStep(world.store, rec) == Found(view)
      ensures Refused(err) <==> err == Some({IsFenced})
      ensures Is(err, IsFenced) ==> !Held(world.store, rec)
    {
      FencedReply(kind, world, Op.ReadCheckpoint(rec));
      var r, lost := Invoke(Op.ReadCheckpoint(rec));
      view := if r.Found? then r.view else CheckpointView(None, ExitNone, "");
      return view, CallError(r, lost);
    }

    ghost predicate GrantedTo(lease: LeaseRecord, work: WorkId)
      reads this
    {
      && Issued(world, lease) && lease.work == work && lease.holder == holder
      && Held(world.store, lease) && world.store.rows[work].exitMode == ExitNone
      && world.store.rows[work].expiresAt == lease.expiresAt
    }

    /** One attempt, begun at the local reading start. */
    method Attempt(work: WorkId) returns (start: int, lease: LeaseRecord, err: GoError)
      requires Inv(world)
      modifies this`world
      ensures Inv(world) && old(world).now <= start + offset <= world.now
      ensures err == None ==> GrantedTo(lease, work) && start + offset + ttl <= lease.expiresAt
      ensures Refused(err) ==> err == Some({IsLeaseHeld})
    {
      start := Now();
      Others(Anything);
      var at := BackendClock();
      var r, lost := Invoke(Op.Acquire(work, holder, ttl, at));
      StoredTtlCovers(kind, ttl);
      lease := if r.Acquired? then r.lease else LeaseRecord(work, holder, 0, 0);
      return start, lease, CallError(r, lost);
    }

    /** The poll loop. The context ends after at most patience waits. The token's
        deadline comes from the attempt that succeeded, and on the backend's
        clock it never exceeds the stored expiry. */
    method Acquire(work: WorkId, waitForLease: bool, patience: nat)
      returns (token: Token, err: GoError, ghost attempts: seq<GoError>, ghost spans: seq<Span>)
      requires Inv(world)
      modifies this
      ensures Inv(world)
      ensures acquireEvents == old(acquireEvents) + attempts && AcquireAnswered(work, waitForLease, attempts, err)
      ensures err == None <==> Granted(attempts)
      ensures forall e <- attempts :: Refused(e) ==> e == Some({IsLeaseHeld})
      ensures |spans| == |attempts| && InTurn(spans, offset, old(world).now, world.now)
      ensures err == None ==>
                && GrantedTo(token.rec, work)
                && token.deadline == spans[|spans| - 1].start + ttl
                && token.deadline + offset <= token.rec.expiresAt
    {
      token := Token(LeaseRecord(work, holder, 0, 0), 0);
      attempts, spans := [], [];
      if work == "" {
        return token, Some({}), attempts, spans;
      }
      var polls := 0;
      while true
        invariant Inv(world) && polls <= patience
        invariant acquireEvents == old(acquireEvents) + attempts
        invariant forall e <- attempts :: Is(e, IsLeaseHeld) && (Refused(e) ==> e == Some({IsLeaseHeld}))
        invariant |spans| == |attempts| && InTurn(spans, offset, old(world).now, world.now)
        invariant !waitForLease ==> attempts == []
        decreases patience - polls
      {
        ghost var before := world.now;
        var start, lease;
        start, lease, err := Attempt(work);
        acquireEvents := acquireEvents + [err];
        InTurnAppend(spans, offset, old(world).now, before, Span(start, world.now));
        attempts, spans := attempts + [err], spans + [Span(start, world.now)];
        if err == None {
          return Token(lease, start + ttl), None, attempts, spans;
        }
        if !waitForLease || !Is(err, IsLeaseHeld) {
          return token, err, attempts, spans;
        }
        var done: bool := *;
        if done || polls == patience {
          var deadlineExceeded: bool := *;
          return token, Some(if deadlineExceeded then {IsDeadlineExceeded} else {IsCanceled}), attempts, spans;
        }
        polls := polls + 1;
      }
    }
  }

  lemma HeldBefore(k: Kind, w: World, op: Op, rec: LeaseRecord)
    requires Inv(w) && Timely(k, op, w.now) && Issued(w, rec) && Held(Next(k, w, op).store, rec)
    ensures Held(w.store, rec)
  {
    if !Held(w.store, rec) {
      FencedNext(k, w, op, rec);
    }
  }

  /** Others can change nothing of a lease that is still held: not its declared
      exit, and its state only while its holder still works. */
  lemma OthersKeep(k: Kind, w: World, w': World, rule: Rule)
    requires Inv(w) && Leads(k, w, w', rule) && !rule.Anything? && Issued(w, rule.rec)
    ensures Issued(w', rule.rec)
    ensures Held(w'.store, rule.rec) ==>
              && Held(w.store, rule.rec)
              && var row, row' := w.store.rows[rule.rec.work], w'.store.rows[rule.rec.work];
                 row'.exitMode == row.exitMode && (rule.LateCallsOnly? ==> row'.checkpoint == row.checkpoint)
  {
    var ops :| Follows(k, w, w', ops, rule);
    InvRun(k, w, ops);
    if Held(w'.store, rule.rec) {
      UndeclaredRun(k, w, ops, rule.rec);
    }
  }
}