/** Whole histories of the SQL backend: any number of calls of any clients, their
    statements interleaved in any way. All of them together are linearizable:
    there is one order of the calls, in keeping with real time, in which the
    atomic store gives every call the answer it was given. */
module Linearizability {
  import opened Types
  import opened LeaseStore
  import opened Protocol
  import opened PostgresBackend

  /** A backend call that has returned: its first and its last statement. */
  datatype Call = Call(op: Op, first: nat, last: nat)

  datatype History = History(start: int, stmts: seq<TimedStmt>, calls: seq<Call>)

  /** The statement a call begins with. */
  function StmtOf(op: Op): Stmt {
    match op
    case Acquire(work, holder, ttl, _) => InsertLease(work, holder, Interval(ttl))
    case Checkpoint(_, _, _, _) => WriteOf(op)
    case Renew(_, _, _) => WriteOf(op)
    case Release(_, _, _) => WriteOf(op)
    case ReadCheckpoint(rec) => SelectCheckpoint(rec.work)
    case Forget(rec) => DeleteLease(rec)
    case Sweep(opts, _) => DeleteOld(RoundedRetention(opts.retention), opts.includeExpired)
  }

  predicate IsWriteOp(op: Op) {
    op.Checkpoint? || op.Renew? || op.Release?
  }

  /** The operation at the reading its statement took. */
  function Retimed(op: Op, now: int): Op {
    match op
    case Acquire(work, holder, ttl, _) => Acquire(work, holder, ttl, Once(now))
    case Checkpoint(rec, state, ttl, _) => Checkpoint(rec, state, ttl, Once(now))
    case Renew(rec, ttl, _) => Renew(rec, ttl, Once(now))
    case Release(rec, mode, _) => Release(rec, mode, Once(now))
    case ReadCheckpoint(_) => op
    case Forget(_) => op
    case Sweep(opts, _) => Sweep(opts, now)
  }

  /** What the backend makes of the rows of a call's one statement. */
  function Answer(op: Op, rows: Rows): Reply {
    match op
    case Acquire(work, holder, _, _) =>
      if rows.Returning? then Acquired(LeaseRecord(work, holder, rows.token, rows.expiresAt)) else Failed(ErrLeaseHeld)
    case ReadCheckpoint(rec) => ReadReply(rows, rec)
    case Forget(_) => if rows == Count(0) then Failed(ErrFenced) else Done
    case Sweep(_, _) => if rows.Count? then Swept(rows.n) else Swept(0)
    case _ => Done
  }

  /** The table before statement i, and what the statement returned. */
  function DbAt(h: History, i: nat): Db
    requires i <= |h.stmts|
  {
    ExecAll(EMPTY_DB, h.stmts[..i])
  }

  function RowsAt(h: History, i: nat): Rows
    requires i < |h.stmts|
  {
    Exec(DbAt(h, i), h.stmts[i].stmt, h.stmts[i].now).1
  }

  /** The answer a call was given. */
  function ReplyOf(h: History, c: Call): Reply
    requires c.first < |h.stmts| && c.last < |h.stmts|
  {
    if c.first == c.last then Answer(c.op, RowsAt(h, c.first))
    else if RowsAt(h, c.last) == NoRows then Failed(ErrFenced)
    else Failed(ErrLeaseExpired)
  }

  /** One statement, or an UPDATE that hit nothing and the SELECT that classifies
      it. A record that still matches then was issued before the call began: a
      forged one might be issued in between, and ErrLeaseExpired is then no answer
      of the atomic operation at all. */
  ghost predicate ProperCall(h: History, c: Call) {
    && c.first <= c.last < |h.stmts|
    && (c.op.Release? ==> Declarable(c.op.mode))
    && h.stmts[c.first].stmt == StmtOf(c.op)
    && (c.first == c.last && IsWriteOp(c.op) ==> RowsAt(h, c.first) != Count(0))
    && (c.first != c.last ==>
          && IsWriteOp(c.op) && RowsAt(h, c.first) == Count(0)
          && h.stmts[c.last].stmt == SelectHolder(c.op.rec)
          && (RowsAt(h, c.last) != NoRows ==>
                Issued(Run(Postgres, Start(h.start), OpsOf(h.stmts[..c.first])), c.op.rec)))
  }

  predicate Owns(c: Call, i: nat) {
    i == c.first || i == c.last
  }

  /** Every statement belongs to one call, unless it is the zero-row UPDATE of a
      call that has not yet returned. */
  ghost predicate Proper(h: History) {
    && InTime(h.start, h.stmts) && AllWellFormed(h.stmts)
    && (forall c <- h.calls :: ProperCall(h, c))
    && (forall a, b, i: nat | 0 <= a < b < |h.calls| && Owns(h.calls[a], i) :: !Owns(h.calls[b], i))
    && (forall i: nat | i < |h.stmts| && (forall c <- h.calls :: !Owns(c, i)) ::
          IsWrite(h.stmts[i].stmt) && RowsAt(h, i) == Count(0))
  }

  /** The statement at which a call takes effect: a fenced one at its SELECT, any other at its first. */
  function PointOf(h: History, c: Call): (i: nat)
    requires c.first < |h.stmts| && c.last < |h.stmts|
    ensures i < |h.stmts| && Owns(c, i)
  {
    if ReplyOf(h, c) == Failed(ErrFenced) then c.last else c.first
  }

  predicate Within(h: History, c: Call) {
    c.first < |h.stmts| && c.last < |h.stmts|
  }

  ghost predicate InRange(h: History, order: seq<nat>) {
    forall k | 0 <= k < |order| :: order[k] < |h.calls| && Within(h, h.calls[order[k]])
  }

  /** The operation of a call, at the reading of its point. */
  function OpAt(h: History, c: Call): Op
    requires c.first < |h.stmts| && c.last < |h.stmts|
  {
    Retimed(c.op, h.stmts[PointOf(h, c)].now)
  }

  /** The operations of some calls, in an order. */
  ghost function OpsIn(h: History, order: seq<nat>): (ops: seq<Op>)
    requires InRange(h, order)
    ensures |ops| == |order| && forall k | 0 <= k < |order| :: ops[k] == OpAt(h, h.calls[order[k]])
  {
    seq(|order|, k requires 0 <= k < |order| && InRange(h, order) => OpAt(h, h.calls[order[k]]))
  }

  ghost function RepliesIn(h: History, order: seq<nat>): (replies: seq<Reply>)
    requires InRange(h, order)
    ensures |replies| == |order| && forall k | 0 <= k < |order| :: replies[k] == ReplyOf(h, h.calls[order[k]])
  {
    seq(|order|, k requires 0 <= k < |order| && InRange(h, order) => ReplyOf(h, h.calls[order[k]]))
  }

  /** The atomic store, driven with ops from empty at readings that never step back, gives these replies. */
  ghost predicate Answers(start: int, ops: seq<Op>, replies: seq<Reply>) {
    var w := Run(Postgres, Start(start), ops);
    && TimelyRun(Postgres, start, ops)
    && |w.log| == |replies|
    && forall k | 0 <= k < |replies| :: w.log[k].reply == replies[k]
  }

  /** Run one after the other, the calls get the answers they were given. */
  ghost predicate Legal(h: History, order: seq<nat>) {
    InRange(h, order) && Answers(h.start, OpsIn(h, order), RepliesIn(h, order))
  }

  /** A call that returned before another began comes first. */
  ghost predicate RealTime(h: History, order: seq<nat>) {
    InRange(h, order) && forall a, b | 0 <= a < b < |order| :: h.calls[order[a]].first <= h.calls[order[b]].last
  }

  // ---------- One statement ----------

  lemma StmtWellFormed(op: Op)
    requires op.Release? ==> Declarable(op.mode)
    ensures WellFormed(StmtOf(op))
  {
    match op
    case Acquire(_, _, ttl, _) => IntervalTwice(ttl);
    case Checkpoint(_, _, ttl, _) => IntervalTwice(ttl);
    case Renew(_, ttl, _) => IntervalTwice(ttl);
    case Sweep(opts, _) => RoundingIsNearest(opts.retention);
    case _ =>
  }

  /** A call of one statement is atomic there. */
  lemma SingleStatement(db: Db, op: Op, now: int)
    requires Schema(db) && (op.Release? ==> Declarable(op.mode))
    requires IsWriteOp(op) ==> Exec(db, StmtOf(op), now).1 != Count(0)
    ensures var (db', rows) := Exec(db, StmtOf(op), now);
            Apply(Postgres, Abs(db), Retimed(op, now)) == (Abs(db'), Answer(op, rows))
  {
    CallRefines(db, Retimed(op, now), now);
    if IsWriteOp(op) {
      WriteOfRefines(Abs(db), Retimed(op, now), now);
      WriteRefines(db, StmtOf(op), now);
    }
  }

  lemma OneMore(h: History, i: nat)
    requires i < |h.stmts|
    ensures DbAt(h, i + 1) == Exec(DbAt(h, i), h.stmts[i].stmt, h.stmts[i].now).0
  {
    ExecAllSplit(EMPTY_DB, h.stmts[..i], [h.stmts[i]]);
    assert h.stmts[..i + 1] == h.stmts[..i] + [h.stmts[i]];
    assert [h.stmts[i]][1..] == [];
  }

  lemma SchemaAt(h: History, i: nat)
    requires InTime(h.start, h.stmts) && AllWellFormed(h.stmts) && i < |h.stmts|
    ensures Schema(DbAt(h, i)) && h.start <= h.stmts[i].now
  {
    var now := h.stmts[i].now;
    assert h.start <= h.stmts[i].now <= h.stmts[i].now;
    forall t | t in h.stmts[..i]
      ensures t.now <= now
    {
      var j :| 0 <= j < i && h.stmts[j] == t;
      assert h.stmts[j].now <= h.stmts[i].now;
    }
    Underway(h.start, h.stmts[..i], now);
  }

  /** At its point a call is atomic. */
  ghost predicate AtomicAt(h: History, c: Call, i: nat)
    requires Within(h, c) && i < |h.stmts|
  {
    Apply(Postgres, Abs(DbAt(h, i)), Retimed(c.op, h.stmts[i].now)) == (Abs(DbAt(h, i + 1)), ReplyOf(h, c))
  }

  lemma SingleAtPoint(h: History, c: Call)
    requires ProperCall(h, c) && c.first == c.last && Schema(DbAt(h, c.first))
    ensures AtomicAt(h, c, PointOf(h, c))
  {
    assert PointOf(h, c) == c.first;
    OneMore(h, c.first);
    SingleStatement(DbAt(h, c.first), c.op, h.stmts[c.first].now);
  }

  lemma FencedAtPoint(h: History, c: Call)
    requires ProperCall(h, c) && c.first != c.last && RowsAt(h, c.last) == NoRows
    ensures PointOf(h, c) == c.last && AtomicAt(h, c, c.last)
  {
    var now := h.stmts[c.last].now;
    OneMore(h, c.last);
    WriteOfRefines(Abs(DbAt(h, c.last)), Retimed(c.op, now), now);
    assert WriteOf(Retimed(c.op, now)) == h.stmts[c.first].stmt;
    WriteAnswer(Abs(DbAt(h, c.last)), h.stmts[c.first].stmt, now);
  }

  lemma ExpiredAtPoint(h: History, c: Call)
    requires InTime(h.start, h.stmts) && AllWellFormed(h.stmts) && ProperCall(h, c) && c.first != c.last
    requires RowsAt(h, c.last) != NoRows && DbAt(h, c.first + 1) == DbAt(h, c.first)
    ensures PointOf(h, c) == c.first && AtomicAt(h, c, c.first)
  {
    var now := h.stmts[c.first].now;
    WriteOfRefines(Abs(DbAt(h, c.first)), Retimed(c.op, now), now);
    assert WriteOf(Retimed(c.op, now)) == h.stmts[c.first].stmt;
    HistoryLinearizable(h.start, h.stmts, c.first, c.last);
  }

  lemma AtPoint(h: History, c: Call)
    requires InTime(h.start, h.stmts) && AllWellFormed(h.stmts) && ProperCall(h, c)
    ensures Within(h, c) && AtomicAt(h, c, PointOf(h, c))
  {
    if c.first == c.last {
      SchemaAt(h, c.first);
      SingleAtPoint(h, c);
    } else if RowsAt(h, c.last) == NoRows {
      FencedAtPoint(h, c);
    } else {
      assert IsWrite(h.stmts[c.first].stmt);
      NoEffect(h, c.first);
      ExpiredAtPoint(h, c);
    }
  }

  /** A zero-row UPDATE changes nothing. */
  lemma NoEffect(h: History, i: nat)
    requires InTime(h.start, h.stmts) && AllWellFormed(h.stmts)
    requires i < |h.stmts| && IsWrite(h.stmts[i].stmt) && RowsAt(h, i) == Count(0)
    ensures DbAt(h, i + 1) == DbAt(h, i)
  {
    SchemaAt(h, i);
    OneMore(h, i);
    assert h.stmts[i] in h.stmts;
    WriteRefines(DbAt(h, i), h.stmts[i].stmt, h.stmts[i].now);
  }

  /** Nor does the other statement of a call of two. */
  lemma OtherStatement(h: History, c: Call, i: nat)
    requires InTime(h.start, h.stmts) && AllWellFormed(h.stmts) && ProperCall(h, c) && Owns(c, i) && PointOf(h, c) != i
    ensures DbAt(h, i + 1) == DbAt(h, i)
  {
    if i == c.first {
      NoEffect(h, i);
    } else {
      OneMore(h, i);
    }
  }

  /** A statement at which no call takes effect changes nothing. */
  lemma NotAPoint(h: History, i: nat)
    requires Proper(h) && i < |h.stmts| && forall c <- h.calls :: Within(h, c) && PointOf(h, c) != i
    ensures DbAt(h, i + 1) == DbAt(h, i)
  {
    if c :| c in h.calls && Owns(c, i) {
      assert ProperCall(h, c);
      OtherStatement(h, c, i);
    } else {
      assert IsWrite(h.stmts[i].stmt) && RowsAt(h, i) == Count(0);
      NoEffect(h, i);
    }
  }

  // ---------- The order ----------

  /** order holds the calls that take effect before statement n, by their points. */
  ghost predicate SortedUpTo(h: History, n: nat, order: seq<nat>) {
    && InRange(h, order)
    && (forall a: nat | a < |h.calls| && Within(h, h.calls[a]) :: a in order <==> PointOf(h, h.calls[a]) < n)
    && (forall a, b | 0 <= a < b < |order| :: PointOf(h, h.calls[order[a]]) < PointOf(h, h.calls[order[b]]))
  }

  ghost predicate RunsUpTo(h: History, n: nat, order: seq<nat>)
    requires n <= |h.stmts|
  {
    && Legal(h, order)
    && var w := Run(Postgres, Start(h.start), OpsIn(h, order));
       && w.store == Abs(DbAt(h, n))
       && forall i | n <= i < |h.stmts| :: w.now <= h.stmts[i].now
  }

  lemma {:induction false} TimelyAppend(k: Kind, w: World, ops: seq<Op>, op: Op)
    requires TimelyRun(k, w.now, ops) && Timely(k, op, Run(k, w, ops).now)
    ensures TimelyRun(k, w.now, ops + [op])
    decreases |ops|
  {
    if ops == [] {
      assert (ops + [op])[1..] == [];
    } else {
      assert (ops + [op])[1..] == ops[1..] + [op];
      TimelyAppend(k, Next(k, w, ops[0]), ops[1..], op);
    }
  }

  lemma NextAt(w: World, op: Op, now: int, s: Store, r: Reply)
    requires op == Retimed(op, now) && w.now <= now && Apply(Postgres, w.store, op) == (s, r)
    ensures Timely(Postgres, op, w.now)
    ensures var w' := Next(Postgres, w, op);
            w'.store == s && w'.now <= now && w.log < w'.log && |w'.log| == |w.log| + 1 && w'.log[|w.log|].reply == r
  {
  }

  lemma AnswersAppend(start: int, ops: seq<Op>, replies: seq<Reply>, op: Op, now: int, s: Store, r: Reply)
    requires Answers(start, ops, replies)
    requires var w := Run(Postgres, Start(start), ops);
             op == Retimed(op, now) && w.now <= now && Apply(Postgres, w.store, op) == (s, r)
    ensures Answers(start, ops + [op], replies + [r])
    ensures var w' := Run(Postgres, Start(start), ops + [op]); w'.store == s && w'.now <= now
  {
    var w := Run(Postgres, Start(start), ops);
    NextAt(w, op, now, s, r);
    TimelyAppend(Postgres, Start(start), ops, op);
    RunAppend(Postgres, Start(start), ops, op);
    assert forall k | 0 <= k < |w.log| :: Next(Postgres, w, op).log[k] == w.log[k];
  }

  lemma InAppend(h: History, order: seq<nat>, a: nat)
    requires InRange(h, order) && a < |h.calls| && Within(h, h.calls[a])
    ensures InRange(h, order + [a])
    ensures OpsIn(h, order + [a]) == OpsIn(h, order) + [OpAt(h, h.calls[a])]
    ensures RepliesIn(h, order + [a]) == RepliesIn(h, order) + [ReplyOf(h, h.calls[a])]
  {
    var longer := order + [a];
    forall k | 0 <= k < |longer|
      ensures longer[k] < |h.calls| && Within(h, h.calls[longer[k]])
    {
      assert k < |order| ==> longer[k] == order[k];
    }
    var ops := OpsIn(h, order) + [OpAt(h, h.calls[a])];
    assert |OpsIn(h, longer)| == |ops| && forall k | 0 <= k < |longer| :: OpsIn(h, longer)[k] == ops[k];
    var replies := RepliesIn(h, order) + [ReplyOf(h, h.calls[a])];
    assert |RepliesIn(h, longer)| == |replies| && forall k | 0 <= k < |longer| :: RepliesIn(h, longer)[k] == replies[k];
  }

  lemma AtomicFrom(h: History, c: Call, n: nat, s: Store)
    requires Within(h, c) && n < |h.stmts| && PointOf(h, c) == n && AtomicAt(h, c, n) && s == Abs(DbAt(h, n))
    ensures OpAt(h, c) == Retimed(OpAt(h, c), h.stmts[n].now)
    ensures Apply(Postgres, s, OpAt(h, c)) == (Abs(DbAt(h, n + 1)), ReplyOf(h, c))
  {
  }

  /** The next call takes effect. */
  lemma TakesEffect(h: History, n: nat, order: seq<nat>, a: nat)
    requires InTime(h.start, h.stmts) && n < |h.stmts| && RunsUpTo(h, n, order)
    requires a < |h.calls| && Within(h, h.calls[a]) && PointOf(h, h.calls[a]) == n && AtomicAt(h, h.calls[a], n)
    ensures RunsUpTo(h, n + 1, order + [a])
  {
    var op, r := OpAt(h, h.calls[a]), ReplyOf(h, h.calls[a]);
    AtomicFrom(h, h.calls[a], n, Run(Postgres, Start(h.start), OpsIn(h, order)).store);
    AnswersAppend(h.start, OpsIn(h, order), RepliesIn(h, order), op, h.stmts[n].now, Abs(DbAt(h, n + 1)), r);
    InAppend(h, order, a);
    forall i | n + 1 <= i < |h.stmts|
      ensures Run(Postgres, Start(h.start), OpsIn(h, order + [a])).now <= h.stmts[i].now
    {
      assert h.stmts[n].now <= h.stmts[i].now;
    }
  }

  lemma NothingYet(h: History)
    requires Proper(h)
    ensures SortedUpTo(h, 0, []) && RunsUpTo(h, 0, [])
  {
    assert OpsIn(h, []) == [];
    assert Abs(DbAt(h, 0)).rows == map[];
    assert forall i | 0 <= i < |h.stmts| :: h.start <= h.stmts[i].now <= h.stmts[i].now;
  }

  lemma SortedAppend(h: History, n: nat, order: seq<nat>, a: nat)
    requires n < |h.stmts| && SortedUpTo(h, n, order)
    requires a < |h.calls| && Within(h, h.calls[a]) && PointOf(h, h.calls[a]) == n
    requires forall b: nat | b < |h.calls| && Within(h, h.calls[b]) && PointOf(h, h.calls[b]) == n :: b == a
    ensures SortedUpTo(h, n + 1, order + [a])
  {
    forall k | 0 <= k < |order|
      ensures PointOf(h, h.calls[order[k]]) < n
    {
      assert order[k] in order;
    }
  }

  lemma {:induction false} OrderUpTo(h: History, n: nat) returns (order: seq<nat>)
    requires Proper(h) && n <= |h.stmts|
    ensures SortedUpTo(h, n, order) && RunsUpTo(h, n, order)
  {
    if n == 0 {
      order := [];
      NothingYet(h);
    } else {
      order := OrderUpTo(h, n - 1);
      if a: nat :| a < |h.calls| && Within(h, h.calls[a]) && PointOf(h, h.calls[a]) == n - 1 {
        assert ProperCall(h, h.calls[a]);
        AtPoint(h, h.calls[a]);
        TakesEffect(h, n - 1, order, a);
        OneCallAt(h, n - 1, a);
        SortedAppend(h, n - 1, order, a);
        order := order + [a];
      } else {
        forall c | c in h.calls
          ensures Within(h, c) && PointOf(h, c) != n - 1
        {
          assert ProperCall(h, c);
          var a: nat :| a < |h.calls| && h.calls[a] == c;
        }
        NotAPoint(h, n - 1);
      }
    }
  }

  /** No two calls take effect at one statement. */
  lemma OneCallAt(h: History, i: nat, a: nat)
    requires Proper(h) && a < |h.calls| && Within(h, h.calls[a]) && PointOf(h, h.calls[a]) == i
    ensures forall b: nat | b < |h.calls| && Within(h, h.calls[b]) && PointOf(h, h.calls[b]) == i :: b == a
  {
    forall b: nat | b < |h.calls| && Within(h, h.calls[b]) && PointOf(h, h.calls[b]) == i
      ensures b == a
    {
      assert Owns(h.calls[a], i) && Owns(h.calls[b], i);
    }
  }

  /** The points keep real time, for each lies within its call. */
  lemma PointsKeepTime(h: History, n: nat, order: seq<nat>)
    requires SortedUpTo(h, n, order) && forall c <- h.calls :: c.first <= c.last
    ensures RealTime(h, order) && Distinct(order)
  {
    forall a, b | 0 <= a < b < |order|
      ensures h.calls[order[a]].first <= h.calls[order[b]].last && order[a] != order[b]
    {
      var c, d := h.calls[order[a]], h.calls[order[b]];
      assert c in h.calls && d in h.calls;
      assert c.first <= PointOf(h, c) < PointOf(h, d) <= d.last;
    }
  }

  /** Linearizability of whole histories. For any interleaving of the statements
      of any calls there is an order of all the calls, each exactly once, in
      keeping with real time, such that the atomic store, driven in that order,
      gives each call the answer it was given and ends with the rows of the table. */
  lemma Linearizable(h: History) returns (order: seq<nat>)
    requires Proper(h)
    ensures Distinct(order) && forall a: nat :: a in order <==> a < |h.calls|
    ensures RealTime(h, order) && Legal(h, order)
    ensures Run(Postgres, Start(h.start), OpsIn(h, order)).store == Abs(DbAt(h, |h.stmts|))
  {
    order := OrderUpTo(h, |h.stmts|);
    forall c | c in h.calls
      ensures Within(h, c) && c.first <= c.last
    {
      assert ProperCall(h, c);
    }
    PointsKeepTime(h, |h.stmts|, order);
    forall a: nat | a < |h.calls|
      ensures a in order
    {
      assert h.calls[a] in h.calls && Within(h, h.calls[a]);
    }
  }

  /** A Renew with a stale record and the Acquire that runs inside it. */
  function Overlapping(work: WorkId, a: HolderId, b: HolderId, ttl: int, now: int): History {
    var stale := LeaseRecord(work, a, 0, now);
    var renew, acquire := Op.Renew(stale, ttl, Once(now)), Op.Acquire(work, b, ttl, Once(now));
    History(now, [TimedStmt(StmtOf(renew), now), TimedStmt(StmtOf(acquire), now), TimedStmt(SelectHolder(stale), now)],
            [Call(renew, 0, 2), Call(acquire, 1, 1)])
  }

  /** Calls may overlap in a proper history; the one that began later comes first here. */
  lemma OverlappingIsProper(work: WorkId, a: HolderId, b: HolderId, ttl: int, now: int)
    ensures var h := Overlapping(work, a, b, ttl, now);
            Proper(h) && PointOf(h, h.calls[1]) < PointOf(h, h.calls[0])
  {
    var h := Overlapping(work, a, b, ttl, now);
    var stmts := h.stmts;
    StmtWellFormed(h.calls[0].op);
    StmtWellFormed(h.calls[1].op);
    assert stmts[..0] == [];
    OneMore(h, 0);
    OneMore(h, 1);
    assert DbAt(h, 0) == EMPTY_DB && DbAt(h, 1) == EMPTY_DB;
    assert work in DbAt(h, 2).leases && DbAt(h, 2).leases[work].fencing_token == 1;
    assert RowsAt(h, 0) == Count(0) && RowsAt(h, 2) == NoRows;
    assert forall c <- h.calls :: c == h.calls[0] || c == h.calls[1];
    assert ProperCall(h, h.calls[0]) && ProperCall(h, h.calls[1]);
    assert Owns(h.calls[0], 0) && Owns(h.calls[1], 1) && Owns(h.calls[0], 2);
    assert h.calls[0] in h.calls && h.calls[1] in h.calls;
  }
}
