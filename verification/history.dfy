/** The store as its history decides it. Every answer, every deletion and every
    token is determined by the log of what was accepted before, with no reference
    to rows: when a lease lasts, who may write, what Sweep takes. */
module HistoryReference {
  import opened Types
  import opened LeaseStore
  import opened Protocol

  /** rec is the last one granted in the life of the row. */
  ghost predicate HoldsLast(es: seq<Event>, rec: LeaseRecord) {
    var holders := Holders(es);
    holders != [] && holders[|holders| - 1].holder == rec.holder && holders[|holders| - 1].token == rec.token
  }

  /** When the lease with this life ends, and when it was last written. */
  function Ends(k: Kind, es: seq<Event>): int
    requires es != []
  {
    ExpiryAfter(k, es[|es| - 1])
  }

  function Written(es: seq<Event>): int
    requires es != []
  {
    WrittenAt(es[|es| - 1])
  }

  ghost function ViewOf(es: seq<Event>): CheckpointView {
    var holders := Holders(es);
    if |holders| <= 1 then CheckpointView(LastState(es), ExitNone, "")
    else
      var left := DeclaredExit(BeforeLease(es));
      CheckpointView(LastState(es), if left == ExitNone then ExitExpired else left, holders[|holders| - 2].holder)
  }

  /** What Sweep takes: a retired life, or an undeclared one when asked, that is
      over and was last written longer ago than the retention. */
  ghost predicate Takes(k: Kind, es: seq<Event>, opts: SweepOptions, now: int) {
    && es != []
    && now > Ends(k, es) && now - Written(es) > KeptOptions(k, opts).retention
    && (DeclaredExit(es) == ExitRetired || (DeclaredExit(es) == ExitNone && opts.includeExpired))
  }

  /** The one answer an operation gets after a log. */
  ghost predicate Answered(k: Kind, log: seq<Event>, op: Op, r: Reply, removed: set<WorkId>) {
    match op
    case Acquire(work, holder, ttl, at) =>
      var es := Epoch(log, work);
      && removed == {}
      && if es != [] && at.check <= Ends(k, es) then r == Failed(ErrLeaseHeld)
         else r.Acquired? && r.lease == LeaseRecord(work, holder, r.lease.token, at.stamp + StoredTtl(k, ttl))
    case Checkpoint(rec, _, _, _) =>
      var es := Epoch(log, rec.work);
      && removed == {}
      && r == if !HoldsLast(es, rec) then Failed(ErrFenced)
              else if DeclaredExit(es) != ExitNone then Failed(ErrLeaseExpired) else Done
    case Renew(rec, _, at) =>
      var es := Epoch(log, rec.work);
      && removed == {}
      && if !HoldsLast(es, rec) then r == Failed(ErrFenced)
         else es != [] && r == if at.check >= Ends(k, es) then Failed(ErrLeaseExpired) else Done
    case Release(rec, mode, at) =>
      var es := Epoch(log, rec.work);
      && removed == {}
      && if !Declarable(mode) then r == Failed(ErrInvalidExitMode)
         else if !HoldsLast(es, rec) then r == Failed(ErrFenced)
         else es != [] && r == if at.check >= Ends(k, es) then Failed(ErrLeaseExpired) else Done
    case ReadCheckpoint(rec) =>
      var holders := Holders(Epoch(log, rec.work));
      && removed == {}
      && r == if holders == [] || holders[|holders| - 1].token != rec.token then Failed(ErrFenced)
              else Found(ViewOf(Epoch(log, rec.work)))
    case Forget(rec) =>
      if HoldsLast(Epoch(log, rec.work), rec) then r == Done && removed == {rec.work}
      else r == Failed(ErrFenced) && removed == {}
    case Sweep(opts, now) =>
      r == Swept(|removed|) && forall x :: x in removed <==> Takes(k, Epoch(log, x), opts, now)
  }

  /** An empty life has no holders. */
  lemma NobodyYet()
    ensures Holders([]) == []
  {
  }

  lemma SweptIsTaken(k: Kind, s: Store, log: seq<Event>, opts: SweepOptions, now: int)
    requires forall x :: FoldAt(k, s, log, x)
    ensures forall x :: x in SweptKeys(s, KeptOptions(k, opts), now) <==> Takes(k, Epoch(log, x), opts, now)
  {
    forall x
      ensures x in SweptKeys(s, KeptOptions(k, opts), now) <==> Takes(k, Epoch(log, x), opts, now)
    {
      assert FoldAt(k, s, log, x);
    }
  }

  lemma WorkOf(k: Kind, w: World, op: Op)
    requires FoldInv(k, w) && !op.Sweep?
    ensures Answered(k, w.log, op, Apply(k, w.store, op).1, w.store.rows.Keys - Apply(k, w.store, op).0.rows.Keys)
  {
    var x := if op.Acquire? then op.work else op.rec.work;
    assert FoldAt(k, w.store, w.log, x);
    NobodyYet();
    if op.Forget? && Held(w.store, op.rec) {
      assert w.store.rows.Keys - (w.store.rows - {op.rec.work}).Keys == {op.rec.work};
    }
  }

  /** In every run, the answer to any next operation and the rows it deletes are
      those the history calls for, and the rows are those with a life. */
  lemma HistoryDecides(k: Kind, now: int, ops: seq<Op>, op: Op)
    requires TimelyRun(k, now, ops)
    ensures var w := Run(k, Start(now), ops);
            var (s, r) := Apply(k, w.store, op);
            && Answered(k, w.log, op, r, w.store.rows.Keys - s.rows.Keys)
            && forall x :: x in w.store.rows <==> Epoch(w.log, x) != []
  {
    var w := Run(k, Start(now), ops);
    FoldRun(k, Start(now), ops);
    forall x
      ensures x in w.store.rows <==> Epoch(w.log, x) != []
    {
      assert FoldAt(k, w.store, w.log, x);
    }
    if op.Sweep? {
      SweptIsTaken(k, w.store, w.log, op.opts, op.now);
      var swept := SweptKeys(w.store, KeptOptions(k, op.opts), op.now);
      assert w.store.rows.Keys - (w.store.rows - swept).Keys == swept;
    } else {
      WorkOf(k, w, op);
    }
  }

  // ---------- How long a lease lasts ----------

  /** As long as the row stands, its life ends with the last event that concerns it. */
  lemma {:induction false} LifeEndsWith(log: seq<Event>, x: WorkId, i: nat)
    requires i < |log| && Concerns(log[i], x) && Epoch(log, x) != []
    requires forall j | i < j < |log| :: !Concerns(log[j], x)
    ensures Epoch(log, x)[|Epoch(log, x)| - 1] == log[i]
  {
    var n := |log| - 1;
    if i < n {
      assert forall j | i < j < n :: log[..n][j] == log[j];
      LifeEndsWith(log[..n], x, i);
    }
  }

  /** An accepted Acquire, Checkpoint or Renew of x, its TTL and its reading. */
  predicate Extends(e: Event, x: WorkId, ttl: int, at: Readings) {
    || (e.op.Acquire? && e.reply.Acquired? && e.op.work == x && e.op.ttl == ttl && e.op.at == at)
    || (e.op.Checkpoint? && e.reply == Done && e.op.rec.work == x && e.op.ttl == ttl && e.op.at == at)
    || (e.op.Renew? && e.reply == Done && e.op.rec.work == x && e.op.ttl == ttl && e.op.at == at)
  }

  /** A row has a declared exit exactly when the last write accepted was a Release. */
  ghost predicate LastDeclares(w: World, x: WorkId) {
    x in w.store.rows ==>
      && Epoch(w.log, x) != []
      && var last := Epoch(w.log, x)[|Epoch(w.log, x)| - 1];
         && (w.store.rows[x].exitMode != ExitNone <==> last.op.Release?)
         && (last.op.Release? ==> last.op.mode == w.store.rows[x].exitMode)
         && (last.op.Acquire? || last.op.Checkpoint? || last.op.Renew? || last.op.Release?)
  }

  lemma LastDeclaresNext(k: Kind, w: World, op: Op, x: WorkId)
    requires Inv(w) && Timely(k, op, w.now) && LastDeclares(w, x) && FoldAt(k, w.store, w.log, x)
    ensures LastDeclares(Next(k, w, op), x)
  {
    var w' := Next(k, w, op);
    var e := w'.log[|w.log|];
    assert w'.log[..|w.log|] == w.log;
    FoldNextAt(k, w, op, x);
    assert x in w.store.rows ==> ExitSettled(w, x);
    if x !in w.store.rows {
      RowCreated(k, w, op, x);
    } else if x in w'.store.rows {
      RowNext(k, w, op, x);
    }
  }

  lemma {:induction false} LastDeclaresRun(k: Kind, w: World, ops: seq<Op>, x: WorkId)
    requires Inv(w) && TimelyRun(k, w.now, ops) && LastDeclares(w, x) && FoldAt(k, w.store, w.log, x)
    ensures LastDeclares(Run(k, w, ops), x) && FoldAt(k, Run(k, w, ops).store, Run(k, w, ops).log, x)
    decreases |ops|
  {
    if ops != [] {
      InvNext(k, w, ops[0]);
      LastDeclaresNext(k, w, ops[0], x);
      FoldNextAt(k, w, ops[0], x);
      LastDeclaresRun(k, Next(k, w, ops[0]), ops[1..], x);
    }
  }

  /** e was the last write to x, and its row still stands. */
  ghost predicate LastWrite(w: World, i: nat, x: WorkId) {
    && i < |w.log| && x in w.store.rows && Concerns(w.log[i], x)
    && forall j | i < j < |w.log| :: !Concerns(w.log[j], x)
  }

  /** What the last write left behind. */
  lemma RowFromLast(k: Kind, now: int, ops: seq<Op>, i: nat, x: WorkId)
    requires TimelyRun(k, now, ops) && LastWrite(Run(k, Start(now), ops), i, x)
    ensures var w := Run(k, Start(now), ops);
            var row, e := w.store.rows[x], w.log[i];
            && row.expiresAt == ExpiryAfter(k, e) && row.updatedAt == WrittenAt(e)
            && (e.op.Acquire? || e.op.Checkpoint? || e.op.Renew? || e.op.Release?)
            && row.exitMode == (if e.op.Release? then e.op.mode else ExitNone)
            && (e.op.Release? ==> Declarable(e.op.mode) && row.expiresAt < w.now)
  {
    var w := Run(k, Start(now), ops);
    LastDeclaresRun(k, Start(now), ops, x);
    InvRun(k, Start(now), ops);
    assert ExitSettled(w, x);
    LifeEndsWith(w.log, x, i);
  }

  /** From an accepted Acquire, Checkpoint or Renew until the next accepted write:
      every Acquire of the work ID up to the reading plus the TTL is refused with
      ErrLeaseHeld, and every one a microsecond later or more succeeds; in between
      lies only PostgreSQL's rounding. This holds of a lapsed lease that a
      Checkpoint revived as of any other. */
  lemma LeaseLasts(k: Kind, now: int, ops: seq<Op>, i: nat, x: WorkId, ttl: int, at: Readings, acquire: Op)
    requires TimelyRun(k, now, ops) && LastWrite(Run(k, Start(now), ops), i, x)
    requires Extends(Run(k, Start(now), ops).log[i], x, ttl, at)
    requires acquire.Acquire? && acquire.work == x
    ensures var w := Run(k, Start(now), ops);
            var r := Apply(k, w.store, acquire).1;
            && (acquire.at.check <= at.stamp + ttl ==> r == Failed(ErrLeaseHeld))
            && (acquire.at.check >= at.stamp + ttl + MICROSECOND ==> r.Acquired?)
            && (k.Memory? && acquire.at.check > at.stamp + ttl ==> r.Acquired?)
            && at.stamp + ttl <= w.store.rows[x].expiresAt < at.stamp + ttl + MICROSECOND
            && w.store.rows[x].updatedAt == at.touch
  {
    RowFromLast(k, now, ops, i, x);
    IntervalIsCeiling(ttl);
    assert Run(k, Start(now), ops).store.rows[x].expiresAt == at.stamp + StoredTtl(k, ttl);
    Grants(k, Run(k, Start(now), ops).store, acquire);
  }

  lemma Grants(k: Kind, s: Store, acquire: Op)
    requires acquire.Acquire? && acquire.work in s.rows
    ensures var r := Apply(k, s, acquire).1;
            if acquire.at.check <= s.rows[acquire.work].expiresAt then r == Failed(ErrLeaseHeld) else r.Acquired?
  {
  }

  /** A Checkpoint by the last holder that declared nothing is accepted at any
      reading, however long ago the lease lapsed. */
  lemma CheckpointRevives(k: Kind, w: World, op: Op)
    requires op.Checkpoint? && Held(w.store, op.rec) && w.store.rows[op.rec.work].exitMode == ExitNone
    ensures var w' := Next(k, w, op);
            && Apply(k, w.store, op).1 == Done
            && Held(w'.store, op.rec)
            && op.at.stamp + op.ttl <= w'.store.rows[op.rec.work].expiresAt < op.at.stamp + op.ttl + MICROSECOND
  {
    IntervalIsCeiling(op.ttl);
  }

  // ---------- What Sweep takes ----------

  /** Whether Sweep takes a row is decided by the last accepted write and the
      options alone. After a Release it goes only if it was retired, once the
      retention is over. After any other write nothing is declared: it goes only
      if the caller asks for that, and then once the lease is over too. */
  lemma SweepDecides(k: Kind, now: int, ops: seq<Op>, i: nat, x: WorkId, opts: SweepOptions, t: int)
    requires TimelyRun(k, now, ops) && LastWrite(Run(k, Start(now), ops), i, x)
    requires Run(k, Start(now), ops).now <= t
    ensures var w := Run(k, Start(now), ops);
            var kept, retention := x in Next(k, w, Sweep(opts, t)).store.rows, KeptOptions(k, opts).retention;
            match w.log[i].op {
              case Release(_, mode, at) => kept <==> mode != ExitRetired || t - at.touch <= retention
              case Acquire(_, _, ttl, at) =>
                kept <==> !opts.includeExpired || t <= at.stamp + StoredTtl(k, ttl) || t - at.touch <= retention
              case Checkpoint(_, _, ttl, at) =>
                kept <==> !opts.includeExpired || t <= at.stamp + StoredTtl(k, ttl) || t - at.touch <= retention
              case Renew(_, ttl, at) =>
                kept <==> !opts.includeExpired || t <= at.stamp + StoredTtl(k, ttl) || t - at.touch <= retention
              case _ => false
            }
  {
    var w := Run(k, Start(now), ops);
    RowFromLast(k, now, ops, i, x);
    InvRun(k, Start(now), ops);
    SweepKeeps(k, w, opts, t, x);
  }

  // ---------- Tokens ----------

  function GrantsIn(log: seq<Event>): nat {
    if log == [] then 0 else GrantsIn(log[..|log| - 1]) + if log[|log| - 1].reply.Acquired? then 1 else 0
  }

  function AttemptsIn(log: seq<Event>): nat {
    if log == [] then 0 else AttemptsIn(log[..|log| - 1]) + if log[|log| - 1].op.Acquire? then 1 else 0
  }

  /** Grants of a work ID that had a life already. */
  function TakeoversIn(log: seq<Event>): nat {
    if log == [] then 0
    else
      var before, e := log[..|log| - 1], log[|log| - 1];
      TakeoversIn(before) + if e.reply.Acquired? && Epoch(before, e.reply.lease.work) != [] then 1 else 0
  }

  ghost predicate Counted(k: Kind, w: World) {
    w.store.counter == if k.Memory? then GrantsIn(w.log) else AttemptsIn(w.log) + TakeoversIn(w.log)
  }

  lemma CountedNext(k: Kind, w: World, op: Op)
    requires Counted(k, w) && FoldInv(k, w)
    ensures Counted(k, Next(k, w, op))
  {
    assert Next(k, w, op).log[..|w.log|] == w.log;
    if op.Acquire? {
      assert FoldAt(k, w.store, w.log, op.work);
    } else {
      ReplyFacts(k, w.store, op);
    }
  }

  lemma {:induction false} CountedRun(k: Kind, w: World, ops: seq<Op>)
    requires Inv(w) && TimelyRun(k, w.now, ops) && FoldInv(k, w) && Counted(k, w)
    ensures Counted(k, Run(k, w, ops))
    decreases |ops|
  {
    if ops != [] {
      CountedNext(k, w, ops[0]);
      InvNext(k, w, ops[0]);
      FoldRun(k, w, [ops[0]]);
      assert Run(k, w, [ops[0]]) == Next(k, w, ops[0]) by {
        assert [ops[0]][1..] == [];
      }
      CountedRun(k, Next(k, w, ops[0]), ops[1..]);
    }
  }

  /** Tokens are counted exactly. In memory the counter is the number of leases
      granted, so tokens are 1, 2, 3, …; in PostgreSQL every Acquire draws one,
      and a second when it takes over a row. A new lease gets the last drawn. */
  lemma TokensDrawn(k: Kind, now: int, ops: seq<Op>, acquire: Op)
    requires TimelyRun(k, now, ops) && acquire.Acquire?
    ensures var w := Run(k, Start(now), ops);
            && w.store.counter == (if k.Memory? then GrantsIn(w.log) else AttemptsIn(w.log) + TakeoversIn(w.log))
            && var (s, r) := Apply(k, w.store, acquire); r.Acquired? ==> r.lease.token == s.counter
  {
    CountedRun(k, Start(now), ops);
    ReplyFacts(k, Run(k, Start(now), ops).store, acquire);
  }
}
