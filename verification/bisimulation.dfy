/** The in-memory store and the SQL backend are the same store up to the names
    of tokens, although PostgreSQL also draws tokens for Acquires that fail or
    that replace a row. */
module Bisimulation {
  import opened Types
  import opened LeaseStore
  import opened PostgresBackend

  /** In-memory tokens to PostgreSQL tokens. */
  type Renaming = map<nat, nat>

  ghost predicate Increasing(ren: Renaming) {
    forall a <- ren, b <- ren :: a < b ==> ren[a] < ren[b]
  }

  function Rename(ren: Renaming, rec: LeaseRecord): LeaseRecord {
    if rec.token in ren then rec.(token := ren[rec.token]) else rec
  }

  function RenameOp(ren: Renaming, op: Op): Op {
    match op
    case Acquire(_, _, _, _) => op
    case Checkpoint(rec, state, ttl, at) => Checkpoint(Rename(ren, rec), state, ttl, at)
    case Renew(rec, ttl, at) => Renew(Rename(ren, rec), ttl, at)
    case Release(rec, mode, at) => Release(Rename(ren, rec), mode, at)
    case ReadCheckpoint(rec) => ReadCheckpoint(Rename(ren, rec))
    case Forget(rec) => Forget(Rename(ren, rec))
    case Sweep(_, _) => op
  }

  function RenameReply(ren: Renaming, r: Reply): Reply {
    if r.Acquired? then Acquired(Rename(ren, r.lease)) else r
  }

  /** The renaming after both sides answered an operation. */
  function Extend(ren: Renaming, r: Reply, q: Reply): Renaming {
    if r.Acquired? && q.Acquired? then ren[r.lease.token := q.lease.token] else ren
  }

  /** op carries a record some Acquire returned, or none. */
  predicate Known(ren: Renaming, op: Op) {
    op.Acquire? || op.Sweep? || op.rec.token in ren
  }

  predicate OnGrid(t: int) {
    t % MICROSECOND == 0
  }

  /** TTLs PostgreSQL can represent; see OneMicrosecondGrid for the others. */
  predicate WholeMicros(op: Op) {
    op.Acquire? || op.Checkpoint? || op.Renew? ==> op.ttl % MICROSECOND == 0
  }

  /** So with retentions, but when all readings are whole microseconds then one
      that is rounded down does no harm either; see OneMicrosecondRetention. */
  predicate Comparable(op: Op, grid: bool) {
    && WholeMicros(op)
    && (op.Sweep? ==>
          op.opts.retention % MICROSECOND == 0 || (grid && RoundedRetention(op.opts.retention) <= op.opts.retention))
  }

  ghost predicate SameRows(m: Store, p: Store, ren: Renaming) {
    && m.rows.Keys == p.rows.Keys
    && forall x <- m.rows :: m.rows[x].token in ren && p.rows[x] == m.rows[x].(token := ren[m.rows[x].token])
  }

  ghost predicate Related(m: Store, p: Store, ren: Renaming) {
    && (forall t: nat :: t in ren <==> 1 <= t <= m.counter)
    && Increasing(ren)
    && (forall t <- ren :: ren[t] <= p.counter)
    && SameRows(m, p, ren)
  }

  /** A fresh token above all others on both sides extends the renaming. */
  lemma Fresh(m: Store, p: Store, ren: Renaming, x: WorkId, row: Row, t: nat)
    requires Related(m, p, ren) && row.token == m.counter + 1 && t > p.counter
    ensures Related(Store(m.rows[x := row], row.token), Store(p.rows[x := row.(token := t)], t), ren[row.token := t])
  {
  }

  lemma Drawn(m: Store, p: Store, ren: Renaming, t: nat)
    requires Related(m, p, ren) && t >= p.counter
    ensures Related(m, p.(counter := t), ren)
  {
  }

  /** The two Acquires look at the same row, so they decide alike. */
  lemma AcquireAlike(m: Store, p: Store, x: WorkId, holder: HolderId, ttl: int, at: Readings)
    requires ttl % MICROSECOND == 0
    requires x in m.rows <==> x in p.rows
    requires x in m.rows ==> p.rows[x] == m.rows[x].(token := p.rows[x].token)
    ensures var (m', r) := AcquireStep(Memory, m, x, holder, ttl, at);
            var (p', q) := AcquireStep(Postgres, p, x, holder, ttl, at);
            if r == Failed(ErrLeaseHeld) then
              q == r && m' == m && p' == p.(counter := p.counter + 1)
            else
              var row := m'.rows[x];
              && row.token == m.counter + 1 && p'.counter > p.counter
              && m' == Store(m.rows[x := row], row.token)
              && p' == Store(p.rows[x := row.(token := p'.counter)], p'.counter)
              && r == Acquired(LeaseRecord(x, holder, row.token, row.expiresAt))
              && q == Acquired(LeaseRecord(x, holder, p'.counter, row.expiresAt))
  {
    IntervalIsCeiling(ttl);
  }

  lemma AcquireRelated(m: Store, p: Store, ren: Renaming, op: Op, now: int)
    requires Related(m, p, ren) && op.Acquire? && ReadsOnce(op, now) && WholeMicros(op)
    ensures var (m', r) := Apply(Memory, m, op);
            var (p', q) := Apply(Postgres, p, op);
            Related(m', p', Extend(ren, r, q)) && q == RenameReply(Extend(ren, r, q), r)
  {
    var x := op.work;
    AcquireAlike(m, p, x, op.holder, op.ttl, op.at);
    var (m', r) := AcquireStep(Memory, m, x, op.holder, op.ttl, op.at);
    var (p', q) := AcquireStep(Postgres, p, x, op.holder, op.ttl, op.at);
    if r == Failed(ErrLeaseHeld) {
      Drawn(m, p, ren, p'.counter);
    } else {
      Fresh(m, p, ren, x, m'.rows[x], p'.counter);
    }
  }

  lemma Written(m: Store, p: Store, ren: Renaming, x: WorkId, row: Row)
    requires Related(m, p, ren) && row.token in ren
    ensures Related(m.(rows := m.rows[x := row]), p.(rows := p.rows[x := row.(token := ren[row.token])]), ren)
  {
  }

  /** A renamed record identifies the renamed row exactly when the record identifies the row. */
  lemma HeldRelated(m: Store, p: Store, ren: Renaming, rec: LeaseRecord)
    requires Related(m, p, ren) && rec.token in ren
    ensures rec.work in m.rows <==> rec.work in p.rows
    ensures rec.work in m.rows ==> (m.rows[rec.work].token == rec.token <==> p.rows[rec.work].token == ren[rec.token])
    ensures Held(m, rec) <==> Held(p, Rename(ren, rec))
  {
    if rec.work in m.rows && m.rows[rec.work].token != rec.token {
      var t := m.rows[rec.work].token;
      assert ren[t] != ren[rec.token];
    }
  }

  /** The two writes look at the same row, so they write alike. */
  lemma WriteAlike(m: Store, p: Store, op: Op, t: nat)
    requires op.Checkpoint? || op.Renew? || op.Release?
    requires WholeMicros(op)
    requires Held(m, op.rec) <==> Held(p, op.rec.(token := t))
    requires Held(m, op.rec) ==> p.rows[op.rec.work] == m.rows[op.rec.work].(token := t)
    ensures var (m', r) := Apply(Memory, m, op);
            var (p', q) := Apply(Postgres, p, RenameOp(map[op.rec.token := t], op));
            && q == r && (r == Done || r.Failed?)
            && (r == Done ==>
                  var row := m'.rows[op.rec.work];
                  && Held(m, op.rec) && row.token == op.rec.token
                  && m' == m.(rows := m.rows[op.rec.work := row])
                  && p' == p.(rows := p.rows[op.rec.work := row.(token := t)]))
            && (r != Done ==> m' == m && p' == p)
  {
    if !op.Release? {
      IntervalIsCeiling(op.ttl);
    }
  }

  lemma WriteRelated(m: Store, p: Store, ren: Renaming, op: Op, now: int)
    requires Related(m, p, ren) && ReadsOnce(op, now) && WholeMicros(op) && Known(ren, op)
    requires op.Checkpoint? || op.Renew? || op.Release?
    ensures var (m', r) := Apply(Memory, m, op);
            var (p', q) := Apply(Postgres, p, RenameOp(ren, op));
            Related(m', p', ren) && q == r && !r.Acquired?
  {
    HeldRelated(m, p, ren, op.rec);
    WriteAlike(m, p, op, ren[op.rec.token]);
    assert RenameOp(map[op.rec.token := ren[op.rec.token]], op) == RenameOp(ren, op);
    var (m', r) := Apply(Memory, m, op);
    if r == Done {
      Written(m, p, ren, op.rec.work, m'.rows[op.rec.work]);
    }
  }

  lemma ReadOrForgetRelated(m: Store, p: Store, ren: Renaming, op: Op)
    requires Related(m, p, ren) && Known(ren, op) && (op.ReadCheckpoint? || op.Forget?)
    ensures var (m', r) := Apply(Memory, m, op);
            var (p', q) := Apply(Postgres, p, RenameOp(ren, op));
            Related(m', p', ren) && q == r && !r.Acquired?
  {
    HeldRelated(m, p, ren, op.rec);
  }

  /** Every row was last written at a whole microsecond. */
  ghost predicate RowsOnGrid(s: Store) {
    forall x <- s.rows :: OnGrid(s.rows[x].updatedAt)
  }

  lemma GridNext(m: Store, op: Op, now: int)
    requires RowsOnGrid(m) && ReadsOnce(op, now) && OnGrid(now)
    ensures RowsOnGrid(Apply(Memory, m, op).0)
  {
  }

  /** On the grid an age exceeds a retention exactly when it exceeds it rounded down. */
  lemma AgeOnGrid(age: int, retention: int)
    requires retention % MICROSECOND == 0 || (age % MICROSECOND == 0 && RoundedRetention(retention) <= retention)
    ensures age > retention <==> age > RoundedRetention(retention)
  {
    RoundingIsNearest(retention);
  }

  lemma SweptAlike(m: Store, p: Store, ren: Renaming, op: Op, grid: bool, x: WorkId)
    requires SameRows(m, p, ren) && op.Sweep? && Comparable(op, grid) && x in m.rows
    requires grid ==> RowsOnGrid(m) && OnGrid(op.now)
    ensures Sweepable(m.rows[x], op.opts, op.now) <==> Sweepable(p.rows[x], KeptOptions(Postgres, op.opts), op.now)
  {
    var age := op.now - m.rows[x].updatedAt;
    assert grid ==> age % MICROSECOND == 0;
    AgeOnGrid(age, op.opts.retention);
  }

  lemma SweepRelated(m: Store, p: Store, ren: Renaming, op: Op, grid: bool)
    requires Related(m, p, ren) && op.Sweep? && Comparable(op, grid)
    requires grid ==> RowsOnGrid(m) && OnGrid(op.now)
    ensures var (m', r) := Apply(Memory, m, op);
            var (p', q) := Apply(Postgres, p, op);
            Related(m', p', ren) && q == r
  {
    forall x | x in m.rows
      ensures Sweepable(m.rows[x], op.opts, op.now) <==> Sweepable(p.rows[x], KeptOptions(Postgres, op.opts), op.now)
    {
      SweptAlike(m, p, ren, op, grid, x);
    }
    assert SweptKeys(m, op.opts, op.now) == SweptKeys(p, KeptOptions(Postgres, op.opts), op.now);
  }

  datatype TimedOp = TimedOp(op: Op, now: int)

  /** Drive both backends with one sequence of operations, each on its own
      tokens: every reply agrees up to the renaming so far, and so do the rows. */
  ghost predicate Bisimilar(m: Store, db: Db, ren: Renaming, ops: seq<TimedOp>)
    decreases |ops|
  {
    && SameRows(m, Abs(db), ren) && Increasing(ren)
    && (ops != [] && Known(ren, ops[0].op) ==>
          var (m', r) := Apply(Memory, m, ops[0].op);
          var (db', q) := Call(db, RenameOp(ren, ops[0].op), ops[0].now);
          var ren' := Extend(ren, r, q);
          q == RenameReply(ren', r) && Bisimilar(m', db', ren', ops[1..]))
  }

  lemma {:induction false} StaysBisimilar(m: Store, db: Db, ren: Renaming, ops: seq<TimedOp>, grid: bool)
    requires Schema(db) && Related(m, Abs(db), ren) && (grid ==> RowsOnGrid(m))
    requires forall t <- ops :: ReadsOnce(t.op, t.now) && Comparable(t.op, grid) && (grid ==> OnGrid(t.now))
    ensures Bisimilar(m, db, ren, ops)
    decreases |ops|
  {
    if ops != [] && Known(ren, ops[0].op) {
      var op, now := ops[0].op, ops[0].now;
      assert ops[0] in ops;
      CallRefines(db, RenameOp(ren, op), now);
      if op.Acquire? {
        AcquireRelated(m, Abs(db), ren, op, now);
      } else if op.Sweep? {
        SweepRelated(m, Abs(db), ren, op, grid);
      } else if op.ReadCheckpoint? || op.Forget? {
        ReadOrForgetRelated(m, Abs(db), ren, op);
      } else {
        WriteRelated(m, Abs(db), ren, op, now);
      }
      var (m', r) := Apply(Memory, m, op);
      var (db', q) := Call(db, RenameOp(ren, op), now);
      if grid {
        GridNext(m, op, now);
      }
      StaysBisimilar(m', db', Extend(ren, r, q), ops[1..], grid);
    }
  }

  /** From the empty stores, on every sequence of operations over issued records
      in which each takes one clock reading; grid says that the readings are
      whole microseconds, as PostgreSQL's are. */
  lemma BackendsBisimilar(ops: seq<TimedOp>, grid: bool)
    requires forall t <- ops :: ReadsOnce(t.op, t.now) && Comparable(t.op, grid) && (grid ==> OnGrid(t.now))
    ensures Bisimilar(EMPTY, EMPTY_DB, map[], ops)
  {
    assert Abs(EMPTY_DB).rows == map[];
    StaysBisimilar(EMPTY, EMPTY_DB, map[], ops, grid);
  }

  /** The microsecond grid is necessary: a TTL keeps the two backends in step at
      every later microsecond exactly when it is a whole number of microseconds.
      Otherwise, at the first microsecond past the TTL, a second Acquire gets
      the lease in memory and ErrLeaseHeld from PostgreSQL. */
  lemma OneMicrosecondGrid(x: WorkId, a: HolderId, b: HolderId, ttl: int, now: int)
    requires now % MICROSECOND == 0
    ensures ttl % MICROSECOND == 0 <==>
              forall later: int | later % MICROSECOND == 0 ::
                AcquireStep(Memory, AcquireStep(Memory, EMPTY, x, a, ttl, Once(now)).0, x, b, ttl, Once(later)).1.Acquired? <==>
                Call(Call(EMPTY_DB, Acquire(x, a, ttl, Once(now)), now).0, Acquire(x, b, ttl, Once(later)), later).1.Acquired?
  {
    IntervalIsCeiling(ttl);
    var later := now + Interval(ttl);
    assert later % MICROSECOND == 0;
    assert AcquireStep(Memory, AcquireStep(Memory, EMPTY, x, a, ttl, Once(now)).0, x, b, ttl, Once(later)).1.Acquired?
        <==> later > now + ttl;
  }

  /** x acquired and retired at one reading, in memory and in PostgreSQL. */
  function Retired(x: WorkId, a: HolderId, now: int): Store {
    var s := AcquireStep(Memory, EMPTY, x, a, MILLISECOND, Once(now)).0;
    ReleaseStep(s, LeaseRecord(x, a, 1, now + MILLISECOND), ExitRetired, Once(now)).0
  }

  function RetiredDb(x: WorkId, a: HolderId, now: int): Db {
    var db := Call(EMPTY_DB, Acquire(x, a, MILLISECOND, Once(now)), now).0;
    Call(db, Release(LeaseRecord(x, a, 1, now + MILLISECOND), ExitRetired, Once(now)), now).0
  }

  lemma RetiredRows(x: WorkId, a: HolderId, now: int)
    ensures Retired(x, a, now).rows == map[x := Row(a, 1, now - MILLISECOND, None, ExitRetired, ExitNone, "", now)]
    ensures RetiredDb(x, a, now).leases ==
              map[x := SqlRow(a, 1, now - MILLISECOND, None, Some("retired"), "none", None, now)]
  {
  }

  /** A store and a database that hold just such a row. */
  ghost predicate HoldRetired(s: Store, db: Db, x: WorkId, a: HolderId, now: int) {
    && s.rows == map[x := Row(a, 1, now - MILLISECOND, None, ExitRetired, ExitNone, "", now)]
    && db.leases == map[x := SqlRow(a, 1, now - MILLISECOND, None, Some("retired"), "none", None, now)]
  }

  ghost predicate SweepsAgree(s: Store, db: Db, opts: SweepOptions, later: int) {
    SweepStep(Memory, s, opts, later).1 == Call(db, Sweep(opts, later), later).1
  }

  /** Each deletes the row once it has outlived what that backend makes of the retention. */
  lemma SweepsAgreeWhen(s: Store, db: Db, x: WorkId, a: HolderId, opts: SweepOptions, now: int, later: int)
    requires opts.retention > 0 && HoldRetired(s, db, x, a, now)
    ensures SweepsAgree(s, db, opts, later) <==>
              (later - now > opts.retention <==> later - now > RoundedRetention(opts.retention))
  {
    RoundingIsNearest(opts.retention);
    assert SweptKeys(s, opts, later) == if later - now > opts.retention then {x} else {};
    assert OldKeys(db, RoundedRetention(opts.retention), opts.includeExpired, later) ==
           if later - now > RoundedRetention(opts.retention) then {x} else {};
  }

  /** On the grid they agree at every later microsecond exactly when the last
      three digits of the retention are rounded down. Rounded up, the row that
      has just outlived it is deleted in memory and kept by PostgreSQL. */
  lemma AgreeOnGrid(s: Store, db: Db, x: WorkId, a: HolderId, opts: SweepOptions, now: int)
    requires OnGrid(now) && opts.retention > 0 && HoldRetired(s, db, x, a, now)
    ensures opts.retention % MICROSECOND < MICROSECOND / 2 <==>
              forall later: int | OnGrid(later) :: SweepsAgree(s, db, opts, later)
  {
    RoundingIsNearest(opts.retention);
    if RoundedRetention(opts.retention) <= opts.retention {
      forall later: int | OnGrid(later)
        ensures SweepsAgree(s, db, opts, later)
      {
        AgeOnGrid(later - now, opts.retention);
        SweepsAgreeWhen(s, db, x, a, opts, now, later);
      }
    } else {
      var later := now + RoundedRetention(opts.retention);
      SweepsAgreeWhen(s, db, x, a, opts, now, later);
      assert OnGrid(later) && !SweepsAgree(s, db, opts, later);
    }
  }

  /** The same for a retention: after one and the same history the two Sweeps
      agree at every later microsecond exactly when it is rounded down. */
  lemma OneMicrosecondRetention(x: WorkId, a: HolderId, opts: SweepOptions, now: int)
    requires OnGrid(now) && opts.retention > 0
    ensures opts.retention % MICROSECOND < MICROSECOND / 2 <==>
              forall later: int | OnGrid(later) :: SweepsAgree(Retired(x, a, now), RetiredDb(x, a, now), opts, later)
  {
    RetiredRows(x, a, now);
    AgreeOnGrid(Retired(x, a, now), RetiredDb(x, a, now), x, a, opts, now);
  }
}
