/** Whole runs of the lease store: any number of clients, any operations, on a
    backend clock that never steps back. The log and the issued records are
    history: no operation reads them. */
module Protocol {
  import opened Types
  import opened LeaseStore

  /** One executed operation, its answer, and the rows it deleted. */
  datatype Event = Event(op: Op, reply: Reply, removed: set<WorkId>)

  datatype World = World(store: Store, now: int, issued: map<nat, LeaseRecord>, log: seq<Event>)

  function Start(now: int): World {
    World(EMPTY, now, map[], [])
  }

  predicate Ordered(k: Kind, at: Readings, now: int) {
    now <= at.check <= at.stamp <= at.touch && (k.Postgres? ==> at.check == at.touch)
  }

  predicate Timely(k: Kind, op: Op, now: int) {
    match op
    case Acquire(_, _, _, at) => Ordered(k, at, now)
    case Checkpoint(_, _, _, at) => Ordered(k, at, now)
    case Renew(_, _, at) => Ordered(k, at, now)
    case Release(_, _, at) => Ordered(k, at, now)
    case ReadCheckpoint(_) => true
    case Forget(_) => true
    case Sweep(_, t) => now <= t
  }

  /** The backend clock once op is done. */
  function After(op: Op, now: int): int {
    match op
    case Acquire(_, _, _, at) => at.touch
    case Checkpoint(_, _, _, at) => at.touch
    case Renew(_, _, at) => at.touch
    case Release(_, _, at) => at.touch
    case ReadCheckpoint(_) => now
    case Forget(_) => now
    case Sweep(_, t) => t
  }

  function RecordOf(op: Op): Option<LeaseRecord> {
    match op
    case Acquire(_, _, _, _) => None
    case Checkpoint(rec, _, _, _) => Some(rec)
    case Renew(rec, _, _) => Some(rec)
    case Release(rec, _, _) => Some(rec)
    case ReadCheckpoint(rec) => Some(rec)
    case Forget(rec) => Some(rec)
    case Sweep(_, _) => None
  }

  function Next(k: Kind, w: World, op: Op): World {
    var (s, r) := Apply(k, w.store, op);
    World(s, After(op, w.now),
          if r.Acquired? then w.issued[r.lease.token := r.lease] else w.issued,
          w.log + [Event(op, r, w.store.rows.Keys - s.rows.Keys)])
  }

  function Run(k: Kind, w: World, ops: seq<Op>): World
    decreases |ops|
  {
    if ops == [] then w else Run(k, Next(k, w, ops[0]), ops[1..])
  }

  predicate TimelyRun(k: Kind, now: int, ops: seq<Op>)
    decreases |ops|
  {
    ops == [] || (Timely(k, ops[0], now) && TimelyRun(k, After(ops[0], now), ops[1..]))
  }

  // ---------- The effect of one operation on one row ----------

  /** An accepted Checkpoint, Renew, Release or Forget on x. */
  predicate Accepted(e: Event, x: WorkId) {
    e.reply == Done && RecordOf(e.op).Some? && RecordOf(e.op).value.work == x
  }

  /** An acquisition of x, or an accepted write to it. */
  predicate Concerns(e: Event, x: WorkId) {
    (e.reply.Acquired? && e.reply.lease.work == x) || (Accepted(e, x) && !e.op.Forget?)
  }

  /** The expiry a row has once e was accepted, and when it was written: an
      Acquire, Checkpoint or Renew lasts its TTL from its own reading, whatever
      the expiry was before, and a Release ends the lease in the past. */
  function ExpiryAfter(k: Kind, e: Event): int {
    match e.op
    case Acquire(_, _, ttl, at) => at.stamp + StoredTtl(k, ttl)
    case Checkpoint(_, _, ttl, at) => at.stamp + StoredTtl(k, ttl)
    case Renew(_, ttl, at) => at.stamp + StoredTtl(k, ttl)
    case Release(_, _, at) => at.stamp - MILLISECOND
    case _ => 0
  }

  function WrittenAt(e: Event): int {
    After(e.op, 0)
  }

  /** How one event that concerns a row changes it. */
  predicate RowStep(k: Kind, row: Row, e: Event, row': Row) {
    && row'.expiresAt == ExpiryAfter(k, e) && row'.updatedAt == WrittenAt(e)
    && var stamped := row.(expiresAt := row'.expiresAt, updatedAt := row'.updatedAt);
       || (e.reply.Acquired? && row' == Row(e.reply.lease.holder, e.reply.lease.token, row'.expiresAt, row.checkpoint,
                                            ExitNone, PrevExit(Some(row)), row.holder, row'.updatedAt))
       || (e.op.Checkpoint? && e.reply == Done && row' == stamped.(checkpoint := Stored(e.op.state)))
       || (e.op.Renew? && e.reply == Done && row' == stamped)
       || (e.op.Release? && e.reply == Done && Declarable(e.op.mode) && row' == stamped.(exitMode := e.op.mode))
  }

  lemma RowNext(k: Kind, w: World, op: Op, x: WorkId)
    requires x in w.store.rows && x in Next(k, w, op).store.rows
    ensures var w' := Next(k, w, op);
            var e := w'.log[|w.log|];
            if Concerns(e, x) then RowStep(k, w.store.rows[x], e, w'.store.rows[x])
            else w'.store.rows[x] == w.store.rows[x]
    ensures Next(k, w, op).log[|w.log|].reply.Acquired? ==> op.Acquire?
  {
  }

  lemma RowCreated(k: Kind, w: World, op: Op, x: WorkId)
    requires x !in w.store.rows
    ensures var w' := Next(k, w, op);
            var e := w'.log[|w.log|];
            && x !in e.removed
            && (x in w'.store.rows <==> Concerns(e, x))
            && (x in w'.store.rows ==>
                  var row := w'.store.rows[x];
                  && e.reply.Acquired? && e.op.Acquire?
                  && row == Row(e.reply.lease.holder, e.reply.lease.token, ExpiryAfter(k, e), None,
                                ExitNone, ExitNone, "", WrittenAt(e)))
  {
  }

  /** A token comes only from an Acquire and lies above every earlier one; an
      accepted write found its record in the store. */
  lemma ReplyFacts(k: Kind, s: Store, op: Op)
    ensures var (s', r) := Apply(k, s, op);
            && s.counter <= s'.counter
            && (r.Acquired? ==> op.Acquire? && r.lease.work == op.work && r.lease.holder == op.holder
                                && s.counter < r.lease.token == s'.counter
                                && r.lease.expiresAt == op.at.stamp + StoredTtl(k, op.ttl))
            && (r == Done ==> RecordOf(op).Some? && Held(s, RecordOf(op).value))
  {
  }

  // ---------- What every operation keeps ----------

  ghost predicate TokensBounded(w: World) {
    forall t <- w.issued :: 1 <= t <= w.store.counter && w.issued[t].token == t
  }

  ghost predicate RowIssued(w: World, x: WorkId)
    requires x in w.store.rows
  {
    var r := w.store.rows[x];
    r.token in w.issued && w.issued[r.token].work == x && w.issued[r.token].holder == r.holder
  }

  /** A declared exit is one Release accepts, and its row has already expired. */
  ghost predicate ExitSettled(w: World, x: WorkId)
    requires x in w.store.rows
  {
    var r := w.store.rows[x];
    r.exitMode == ExitNone || (Declarable(r.exitMode) && r.expiresAt < w.now)
  }

  ghost predicate Inv(w: World) {
    && TokensBounded(w)
    && (forall x <- w.store.rows :: RowIssued(w, x))
    && (forall x <- w.store.rows :: ExitSettled(w, x))
  }

  lemma RowInvNext(k: Kind, w: World, op: Op, x: WorkId)
    requires Inv(w) && Timely(k, op, w.now) && x in Next(k, w, op).store.rows
    ensures RowIssued(Next(k, w, op), x) && ExitSettled(Next(k, w, op), x)
  {
    ReplyFacts(k, w.store, op);
    if x in w.store.rows {
      assert RowIssued(w, x) && ExitSettled(w, x);
      RowNext(k, w, op, x);
    } else {
      RowCreated(k, w, op, x);
    }
  }

  lemma InvNext(k: Kind, w: World, op: Op)
    requires Inv(w) && Timely(k, op, w.now)
    ensures Inv(Next(k, w, op)) && w.now <= Next(k, w, op).now
    ensures w.store.counter <= Next(k, w, op).store.counter
    ensures forall t <- w.issued :: t in Next(k, w, op).issued && Next(k, w, op).issued[t] == w.issued[t]
  {
    var w' := Next(k, w, op);
    assert TokensBounded(w');
    forall x | x in w'.store.rows
      ensures RowIssued(w', x) && ExitSettled(w', x)
    {
      RowInvNext(k, w, op, x);
    }
  }

  lemma {:induction false} InvRun(k: Kind, w: World, ops: seq<Op>)
    requires Inv(w) && TimelyRun(k, w.now, ops)
    ensures Inv(Run(k, w, ops)) && w.now <= Run(k, w, ops).now
    ensures forall t <- w.issued :: t in Run(k, w, ops).issued && Run(k, w, ops).issued[t] == w.issued[t]
    decreases |ops|
  {
    if ops != [] {
      InvNext(k, w, ops[0]);
      InvRun(k, Next(k, w, ops[0]), ops[1..]);
    }
  }

  /** Some operations, by anyone, lead from one world to the other. */
  ghost predicate Reaches(k: Kind, w: World, w': World) {
    exists ops :: TimelyRun(k, w.now, ops) && w' == Run(k, w, ops)
  }

  lemma ReachesInv(k: Kind, w: World, w': World)
    requires Inv(w) && Reaches(k, w, w')
    ensures Inv(w') && w.now <= w'.now
    ensures forall t <- w.issued :: t in w'.issued && w'.issued[t] == w.issued[t]
  {
    var ops :| TimelyRun(k, w.now, ops) && w' == Run(k, w, ops);
    InvRun(k, w, ops);
  }

  // ---------- Fencing is stable ----------

  /** rec was handed out by an Acquire of this run. */
  ghost predicate Issued(w: World, rec: LeaseRecord) {
    rec.token in w.issued && w.issued[rec.token].work == rec.work && w.issued[rec.token].holder == rec.holder
  }

  /** An operation answers ErrFenced exactly when its record no longer identifies
      the stored row; Release checks its mode first. ReadCheckpoint compares the
      token alone, which for issued records is the same test. */
  lemma FencedReply(k: Kind, w: World, op: Op)
    requires Inv(w) && RecordOf(op).Some? && Issued(w, RecordOf(op).value)
    ensures Apply(k, w.store, op).1 == Failed(ErrFenced) <==>
              !Held(w.store, RecordOf(op).value) && (op.Release? ==> Declarable(op.mode))
    ensures Apply(k, w.store, op).1.Failed? ==> Apply(k, w.store, op).0 == w.store
  {
  }

  lemma FencedNext(k: Kind, w: World, op: Op, rec: LeaseRecord)
    requires Inv(w) && Issued(w, rec) && !Held(w.store, rec)
    ensures !Held(Next(k, w, op).store, rec)
  {
  }

  lemma {:induction false} FencedRun(k: Kind, w: World, ops: seq<Op>, rec: LeaseRecord)
    requires Inv(w) && TimelyRun(k, w.now, ops) && Issued(w, rec) && !Held(w.store, rec)
    ensures !Held(Run(k, w, ops).store, rec)
    decreases |ops|
  {
    if ops != [] {
      InvNext(k, w, ops[0]);
      FencedNext(k, w, ops[0], rec);
      FencedRun(k, Next(k, w, ops[0]), ops[1..], rec);
    }
  }

  lemma StaysUnheld(k: Kind, w: World, w': World, rec: LeaseRecord)
    requires Inv(w) && Reaches(k, w, w') && Issued(w, rec) && !Held(w.store, rec)
    ensures !Held(w'.store, rec)
  {
    var ops :| TimelyRun(k, w.now, ops) && w' == Run(k, w, ops);
    FencedRun(k, w, ops, rec);
  }

  /** Once any operation with an issued record is fenced, then whatever happens
      in between, including deletion and reacquisition under the same holder ID,
      every later operation with it is fenced and changes nothing. */
  lemma FencedForever(k: Kind, w: World, op: Op, between: seq<Op>, later: Op)
    requires Inv(w) && RecordOf(op).Some? && Issued(w, RecordOf(op).value)
    requires Apply(k, w.store, op).1 == Failed(ErrFenced)
    requires TimelyRun(k, w.now, [op] + between)
    requires RecordOf(later) == RecordOf(op) && (later.Release? ==> Declarable(later.mode))
    ensures var w' := Run(k, w, [op] + between);
            Apply(k, w'.store, later) == (w'.store, Failed(ErrFenced))
  {
    var ops := [op] + between;
    FencedReply(k, w, op);
    FencedRun(k, w, ops, RecordOf(op).value);
    InvRun(k, w, ops);
    FencedReply(k, Run(k, w, ops), later);
  }

  // ---------- Writes happen in token order ----------

  /** The last token issued for x, 0 if there was none. */
  function LatestToken(log: seq<Event>, x: WorkId): nat {
    if log == [] then 0
    else
      var e := log[|log| - 1];
      if e.reply.Acquired? && e.reply.lease.work == x then e.reply.lease.token
      else LatestToken(log[..|log| - 1], x)
  }

  ghost predicate AcceptedLatest(log: seq<Event>, i: nat)
    requires i < |log|
  {
    forall x :: Accepted(log[i], x) ==> RecordOf(log[i].op).value.token == LatestToken(log[..i], x)
  }

  ghost predicate IssuesIncrease(log: seq<Event>, i: nat)
    requires i < |log|
  {
    forall x :: LatestToken(log[..i], x) <= LatestToken(log[..i + 1], x)
  }

  /** The rows agree with the log: a stored token is the latest one issued. */
  ghost predicate LogInv(w: World) {
    && (forall x :: LatestToken(w.log, x) <= w.store.counter)
    && (forall x <- w.store.rows :: w.store.rows[x].token == LatestToken(w.log, x))
    && (forall i: nat | i < |w.log| :: AcceptedLatest(w.log, i))
    && (forall i: nat | i < |w.log| :: IssuesIncrease(w.log, i))
  }

  /** Only an Acquire issues a token, and it issues one above every earlier token. */
  lemma LatestNext(k: Kind, w: World, op: Op, x: WorkId)
    requires LatestToken(w.log, x) <= w.store.counter
    requires x in w.store.rows ==> w.store.rows[x].token == LatestToken(w.log, x)
    ensures var w' := Next(k, w, op);
            && LatestToken(w.log, x) <= LatestToken(w'.log, x) <= w'.store.counter
            && (x in w'.store.rows ==> w'.store.rows[x].token == LatestToken(w'.log, x))
            && (Accepted(w'.log[|w.log|], x) ==> RecordOf(op).value.token == LatestToken(w.log, x))
  {
    assert Next(k, w, op).log[..|w.log|] == w.log;
    ReplyFacts(k, w.store, op);
    if x !in w.store.rows {
      RowCreated(k, w, op, x);
    } else if x in Next(k, w, op).store.rows {
      RowNext(k, w, op, x);
    }
  }

  lemma LogInvNext(k: Kind, w: World, op: Op)
    requires LogInv(w)
    ensures LogInv(Next(k, w, op))
  {
    var w' := Next(k, w, op);
    var n := |w.log|;
    assert |w'.log| == n + 1 && w'.log[..n] == w.log && w'.log[..n + 1] == w'.log;
    forall x
      ensures LatestToken(w.log, x) <= LatestToken(w'.log, x) <= w'.store.counter
      ensures x in w'.store.rows ==> w'.store.rows[x].token == LatestToken(w'.log, x)
      ensures Accepted(w'.log[n], x) ==> RecordOf(w'.log[n].op).value.token == LatestToken(w.log, x)
    {
      LatestNext(k, w, op, x);
    }
    forall i: nat | i < |w'.log|
      ensures AcceptedLatest(w'.log, i) && IssuesIncrease(w'.log, i)
    {
      if i < n {
        EarlierEntries(w.log, w'.log[n], i);
      }
    }
  }

  lemma EarlierEntries(log: seq<Event>, e: Event, i: nat)
    requires i < |log| && AcceptedLatest(log, i) && IssuesIncrease(log, i)
    ensures AcceptedLatest(log + [e], i) && IssuesIncrease(log + [e], i)
  {
    assert (log + [e])[..i] == log[..i] && (log + [e])[..i + 1] == log[..i + 1];
  }

  lemma {:induction false} LogInvRun(k: Kind, w: World, ops: seq<Op>)
    requires Inv(w) && TimelyRun(k, w.now, ops) && LogInv(w)
    ensures LogInv(Run(k, w, ops))
    decreases |ops|
  {
    if ops != [] {
      InvNext(k, w, ops[0]);
      LogInvNext(k, w, ops[0]);
      LogInvRun(k, Next(k, w, ops[0]), ops[1..]);
    }
  }

  lemma {:induction false} LatestGrows(log: seq<Event>, i: nat, j: nat, x: WorkId)
    requires i <= j <= |log|
    requires forall n: nat | n < |log| :: IssuesIncrease(log, n)
    ensures LatestToken(log[..i], x) <= LatestToken(log[..j], x)
    decreases j - i
  {
    if i < j {
      assert IssuesIncrease(log, i);
      LatestGrows(log, i + 1, j, x);
    }
  }

  /** In every run from the empty store, across deletion and reacquisition, an
      accepted write carries the latest token issued for its work ID, and two
      accepted writes on one work ID carry tokens in the order they happened. */
  lemma WritesInTokenOrder(k: Kind, now: int, ops: seq<Op>, i: nat, j: nat, x: WorkId)
    requires TimelyRun(k, now, ops)
    requires i <= j < |Run(k, Start(now), ops).log|
    requires Accepted(Run(k, Start(now), ops).log[i], x) && Accepted(Run(k, Start(now), ops).log[j], x)
    ensures var log := Run(k, Start(now), ops).log;
            && RecordOf(log[j].op).value.token == LatestToken(log[..j], x)
            && RecordOf(log[i].op).value.token <= RecordOf(log[j].op).value.token
  {
    LogInvRun(k, Start(now), ops);
    var log := Run(k, Start(now), ops).log;
    assert AcceptedLatest(log, i) && AcceptedLatest(log, j);
    LatestGrows(log, i, j, x);
  }

  // ---------- The row is an exact fold of history ----------

  /** What happened to x since its row was created; empty when there is no row. */
  function Epoch(log: seq<Event>, x: WorkId): seq<Event> {
    if log == [] then []
    else
      var e := log[|log| - 1];
      var before := Epoch(log[..|log| - 1], x);
      if x in e.removed then [] else if Concerns(e, x) then before + [e] else before
  }

  /** Everyone who held the row, in order. */
  function Holders(es: seq<Event>): seq<LeaseRecord> {
    if es == [] then []
    else
      var e := es[|es| - 1];
      Holders(es[..|es| - 1]) + if e.reply.Acquired? then [e.reply.lease] else []
  }

  /** The exit the last holder declared, ExitNone if it declared none. */
  function DeclaredExit(es: seq<Event>): ExitMode {
    if es == [] then ExitNone
    else
      var e := es[|es| - 1];
      if e.reply.Acquired? then ExitNone
      else if e.op.Release? then e.op.mode
      else DeclaredExit(es[..|es| - 1])
  }

  /** The last state written since creation, whoever wrote it. */
  function LastState(es: seq<Event>): Option<Bytes> {
    if es == [] then None
    else
      var e := es[|es| - 1];
      if e.op.Checkpoint? then Stored(e.op.state) else LastState(es[..|es| - 1])
  }

  /** What happened before the current holder acquired. */
  function BeforeLease(es: seq<Event>): seq<Event> {
    if es == [] then []
    else if es[|es| - 1].reply.Acquired? then es[..|es| - 1]
    else BeforeLease(es[..|es| - 1])
  }

  ghost predicate RowIsFold(k: Kind, row: Row, es: seq<Event>) {
    var holders := Holders(es);
    && |holders| > 0 && |es| > 0
    && row.expiresAt == ExpiryAfter(k, es[|es| - 1]) && row.updatedAt == WrittenAt(es[|es| - 1])
    && row.holder == holders[|holders| - 1].holder && row.token == holders[|holders| - 1].token
    && row.checkpoint == LastState(es)
    && row.exitMode == DeclaredExit(es)
    && (row.prevExit == ExitNone <==> |holders| == 1)
    && (|holders| == 1 ==> row.prevHolder == "")
    && (|holders| > 1 ==>
          && row.prevHolder == holders[|holders| - 2].holder
          && row.prevExit == if DeclaredExit(BeforeLease(es)) == ExitNone then ExitExpired
                             else DeclaredExit(BeforeLease(es)))
  }

  ghost predicate FoldAt(k: Kind, s: Store, log: seq<Event>, x: WorkId) {
    if x in s.rows then RowIsFold(k, s.rows[x], Epoch(log, x)) else Epoch(log, x) == []
  }

  ghost predicate FoldInv(k: Kind, w: World) {
    forall x :: FoldAt(k, w.store, w.log, x)
  }

  /** A fold extended by one event that concerns the row. */
  lemma FoldExtend(k: Kind, row: Row, es: seq<Event>, e: Event, row': Row)
    requires RowIsFold(k, row, es) && RowStep(k, row, e, row')
    requires row.exitMode == ExitNone || Declarable(row.exitMode)
    requires e.reply.Acquired? ==> e.op.Acquire?
    ensures RowIsFold(k, row', es + [e])
  {
    var es' := es + [e];
    assert es'[..|es|] == es;
    assert Holders(es') == Holders(es) + if e.reply.Acquired? then [e.reply.lease] else [];
    assert BeforeLease(es') == if e.reply.Acquired? then es else BeforeLease(es);
  }

  lemma FoldCreate(k: Kind, e: Event, row: Row)
    requires e.reply.Acquired? && e.op.Acquire?
    requires row == Row(e.reply.lease.holder, e.reply.lease.token, ExpiryAfter(k, e), None,
                        ExitNone, ExitNone, "", WrittenAt(e))
    ensures RowIsFold(k, row, [e])
  {
    var es := [e];
    assert es[..0] == [];
    assert Holders(es) == [e.reply.lease];
  }

  lemma FoldNextAt(k: Kind, w: World, op: Op, x: WorkId)
    requires Inv(w) && FoldAt(k, w.store, w.log, x)
    ensures FoldAt(k, Next(k, w, op).store, Next(k, w, op).log, x)
  {
    var s', log' := Next(k, w, op).store, Next(k, w, op).log;
    var e := log'[|w.log|];
    assert log'[..|w.log|] == w.log;
    assert x in w.store.rows ==> ExitSettled(w, x);
    if x !in w.store.rows {
      RowCreated(k, w, op, x);
      assert [] + [e] == [e];
      if x in s'.rows {
        FoldCreate(k, e, s'.rows[x]);
      }
    } else if x in s'.rows {
      RowNext(k, w, op, x);
      if Concerns(e, x) {
        FoldExtend(k, w.store.rows[x], Epoch(w.log, x), e, s'.rows[x]);
      }
    }
  }

  lemma {:induction false} FoldRun(k: Kind, w: World, ops: seq<Op>)
    requires Inv(w) && TimelyRun(k, w.now, ops) && FoldInv(k, w)
    ensures FoldInv(k, Run(k, w, ops))
    decreases |ops|
  {
    if ops != [] {
      InvNext(k, w, ops[0]);
      forall x {
        FoldNextAt(k, w, ops[0], x);
      }
      FoldRun(k, Next(k, w, ops[0]), ops[1..]);
    }
  }

  /** In every run, a successful ReadCheckpoint answers the last state written
      since the row was created, the previous holder, and how it exited:
      ExitNone exactly for the first holder, ExitExpired when the previous one
      declared nothing. */
  lemma ReadIsFoldOfHistory(k: Kind, now: int, ops: seq<Op>, rec: LeaseRecord)
    requires TimelyRun(k, now, ops)
    requires ReadStep(Run(k, Start(now), ops).store, rec).Found?
    ensures var w := Run(k, Start(now), ops);
            var view := ReadStep(w.store, rec).view;
            var es := Epoch(w.log, rec.work);
            var holders := Holders(es);
            && |holders| > 0 && holders[|holders| - 1].token == rec.token
            && view.state == LastState(es)
            && (view.prevExit == ExitNone <==> |holders| == 1)
            && view.prevHolder == (if |holders| == 1 then "" else holders[|holders| - 2].holder)
            && (|holders| > 1 ==>
                  view.prevExit == if DeclaredExit(BeforeLease(es)) == ExitNone then ExitExpired
                                   else DeclaredExit(BeforeLease(es)))
  {
    FoldRun(k, Start(now), ops);
    assert FoldAt(k, Run(k, Start(now), ops).store, Run(k, Start(now), ops).log, rec.work);
  }

  // ---------- A declared exit is irrevocable ----------

  /** op may acquire or delete x. Any other operation is harmless to a declared exit. */
  predicate MayReplace(op: Op, x: WorkId) {
    op.Sweep? || (op.Acquire? && op.work == x) || (op.Forget? && op.rec.work == x)
  }

  lemma {:induction false} DeclaredExitStays(k: Kind, w: World, ops: seq<Op>, x: WorkId)
    requires Inv(w) && TimelyRun(k, w.now, ops)
    requires x in w.store.rows && w.store.rows[x].exitMode != ExitNone
    requires forall op <- ops :: !MayReplace(op, x)
    ensures var w' := Run(k, w, ops);
            x in w'.store.rows && w'.store.rows[x] == w.store.rows[x]
    decreases |ops|
  {
    if ops != [] {
      assert ExitSettled(w, x) && !MayReplace(ops[0], x);
      InvNext(k, w, ops[0]);
      DeclaredExitStays(k, Next(k, w, ops[0]), ops[1..], x);
    }
  }

  /** Until somebody acquires or deletes the row, a declared exit cannot be
      changed by any late Checkpoint, Renew or Release, and an Acquire at any
      later reading succeeds at once and reports it. */
  lemma DeclaredExitIsIrrevocable(k: Kind, w: World, ops: seq<Op>, next: Op)
    requires Inv(w) && TimelyRun(k, w.now, ops)
    requires next.Acquire? && next.work in w.store.rows && w.store.rows[next.work].exitMode != ExitNone
    requires forall op <- ops :: !MayReplace(op, next.work)
    requires Timely(k, next, Run(k, w, ops).now)
    ensures var w' := Run(k, w, ops + [next]);
            && Apply(k, Run(k, w, ops).store, next).1.Acquired?
            && next.work in w'.store.rows
            && w'.store.rows[next.work].prevExit == w.store.rows[next.work].exitMode
            && w'.store.rows[next.work].prevHolder == w.store.rows[next.work].holder
            && w'.store.rows[next.work].checkpoint == w.store.rows[next.work].checkpoint
  {
    DeclaredExitStays(k, w, ops, next.work);
    InvRun(k, w, ops);
    assert ExitSettled(Run(k, w, ops), next.work);
    RunAppend(k, w, ops, next);
  }

  /** Whatever runs, including the holder's own late calls: as long as the row is
      not given to somebody else or deleted, a declared exit leaves it untouched. */
  lemma {:induction false} DeclaredRowFrozen(k: Kind, w: World, ops: seq<Op>, rec: LeaseRecord)
    requires Inv(w) && TimelyRun(k, w.now, ops) && Issued(w, rec)
    requires Held(w.store, rec) && w.store.rows[rec.work].exitMode != ExitNone
    requires Held(Run(k, w, ops).store, rec)
    ensures Run(k, w, ops).store.rows[rec.work] == w.store.rows[rec.work]
    decreases |ops|
  {
    if ops != [] {
      var w' := Next(k, w, ops[0]);
      InvNext(k, w, ops[0]);
      if Held(w'.store, rec) {
        FrozenNext(k, w, ops[0], rec);
        DeclaredRowFrozen(k, w', ops[1..], rec);
      } else {
        FencedRun(k, w', ops[1..], rec);
      }
    }
  }

  lemma FrozenNext(k: Kind, w: World, op: Op, rec: LeaseRecord)
    requires Inv(w) && Timely(k, op, w.now) && Held(w.store, rec) && Held(Next(k, w, op).store, rec)
    requires w.store.rows[rec.work].exitMode != ExitNone
    ensures Next(k, w, op).store.rows[rec.work] == w.store.rows[rec.work]
  {
    assert RowIssued(w, rec.work) && ExitSettled(w, rec.work);
  }

  // ---------- Handing over ----------

  /** What the next holder of rec's row reads, whatever ran in between. */
  function Inherited(k: Kind, w: World, acquire: Op): Reply
    requires acquire.Acquire? && Apply(k, w.store, acquire).1.Acquired?
  {
    var (s, r) := Apply(k, w.store, acquire);
    ReadStep(s, r.lease)
  }

  /** After a declared exit, the first Acquire of the row succeeds, and its
      holder reads exactly that exit, that holder and that state. */
  lemma DeclaredHandoff(k: Kind, w: World, ops: seq<Op>, rec: LeaseRecord, acquire: Op)
    requires Inv(w) && TimelyRun(k, w.now, ops) && Issued(w, rec)
    requires Held(w.store, rec) && w.store.rows[rec.work].exitMode != ExitNone
    requires Held(Run(k, w, ops).store, rec)
    requires acquire.Acquire? && acquire.work == rec.work && Timely(k, acquire, Run(k, w, ops).now)
    ensures var w' := Run(k, w, ops);
            && Apply(k, w'.store, acquire).1.Acquired?
            && Inherited(k, w', acquire) == Found(CheckpointView(w.store.rows[rec.work].checkpoint,
                                                                 w.store.rows[rec.work].exitMode, rec.holder))
  {
    DeclaredRowFrozen(k, w, ops, rec);
    InvRun(k, w, ops);
    assert ExitSettled(Run(k, w, ops), rec.work);
  }

  /** op does not let the holder of rec declare an exit or delete its row. */
  predicate NoExit(op: Op, rec: LeaseRecord) {
    (op.Release? || op.Forget?) ==> op.rec.token != rec.token
  }

  /** op leaves what rec's holder stored alone; a Renew may still land. */
  predicate NoWrite(op: Op, rec: LeaseRecord) {
    NoExit(op, rec) && (op.Checkpoint? ==> op.rec.token != rec.token)
  }

  lemma UndeclaredNext(k: Kind, w: World, op: Op, rec: LeaseRecord)
    requires Inv(w) && Timely(k, op, w.now) && Issued(w, rec) && NoExit(op, rec)
    requires Held(w.store, rec) && Held(Next(k, w, op).store, rec)
    ensures var row, row' := w.store.rows[rec.work], Next(k, w, op).store.rows[rec.work];
            && row'.exitMode == row.exitMode && row'.prevExit == row.prevExit && row'.prevHolder == row.prevHolder
            && (NoWrite(op, rec) ==> row'.checkpoint == row.checkpoint)
  {
    assert RowIssued(w, rec.work);
    RowNext(k, w, op, rec.work);
    ReplyFacts(k, w.store, op);
  }

  /** If rec's row is still rec's at the end, its declared exit is what it was,
      and so is its state if nobody checkpointed with rec. */
  lemma {:induction false} UndeclaredRun(k: Kind, w: World, ops: seq<Op>, rec: LeaseRecord)
    requires Inv(w) && TimelyRun(k, w.now, ops) && Issued(w, rec) && forall op <- ops :: NoExit(op, rec)
    requires Held(Run(k, w, ops).store, rec)
    ensures Held(w.store, rec)
    ensures var row, row' := w.store.rows[rec.work], Run(k, w, ops).store.rows[rec.work];
            && row'.exitMode == row.exitMode && row'.prevExit == row.prevExit && row'.prevHolder == row.prevHolder
            && ((forall op <- ops :: NoWrite(op, rec)) ==> row'.checkpoint == row.checkpoint)
    decreases |ops|
  {
    if !Held(w.store, rec) {
      FencedRun(k, w, ops, rec);
    } else if ops != [] {
      InvNext(k, w, ops[0]);
      UndeclaredRun(k, Next(k, w, ops[0]), ops[1..], rec);
      assert ops[0] in ops;
      UndeclaredNext(k, w, ops[0], rec);
    }
  }

  /** PrevExit and the previous holder are fixed for the life of a lease. */
  lemma {:induction false} PrevExitFixed(k: Kind, w: World, ops: seq<Op>, rec: LeaseRecord)
    requires Inv(w) && TimelyRun(k, w.now, ops) && Issued(w, rec) && Held(w.store, rec)
    requires Held(Run(k, w, ops).store, rec)
    ensures var row, row' := w.store.rows[rec.work], Run(k, w, ops).store.rows[rec.work];
            row'.prevExit == row.prevExit && row'.prevHolder == row.prevHolder
    decreases |ops|
  {
    if ops != [] {
      var w' := Next(k, w, ops[0]);
      InvNext(k, w, ops[0]);
      if Held(w'.store, rec) {
        assert RowIssued(w, rec.work);
        RowNext(k, w, ops[0], rec.work);
        ReplyFacts(k, w.store, ops[0]);
        PrevExitFixed(k, w', ops[1..], rec);
      } else {
        FencedRun(k, w', ops[1..], rec);
      }
    }
  }

  /** A holder that never declares an exit hands over as ExitExpired. */
  lemma LapsedHandoff(k: Kind, w: World, ops: seq<Op>, rec: LeaseRecord, acquire: Op)
    requires Inv(w) && TimelyRun(k, w.now, ops) && Issued(w, rec) && forall op <- ops :: NoExit(op, rec)
    requires Held(w.store, rec) && w.store.rows[rec.work].exitMode == ExitNone
    requires Held(Run(k, w, ops).store, rec)
    requires acquire.Acquire? && acquire.work == rec.work && Apply(k, Run(k, w, ops).store, acquire).1.Acquired?
    ensures var r := Inherited(k, Run(k, w, ops), acquire);
            r.Found? && r.view.prevExit == ExitExpired && r.view.prevHolder == rec.holder
  {
    UndeclaredRun(k, w, ops, rec);
  }

  lemma {:induction false} RunAppend(k: Kind, w: World, ops: seq<Op>, op: Op)
    ensures Run(k, w, ops + [op]) == Next(k, Run(k, w, ops), op)
    decreases |ops|
  {
    if ops == [] {
      assert (ops + [op])[1..] == [];
    } else {
      assert (ops + [op])[1..] == ops[1..] + [op];
      RunAppend(k, Next(k, w, ops[0]), ops[1..], op);
    }
  }

  // ---------- Sweep ----------

  /** Sweep leaves every held, finished or abandoned row in place, and no row
      that survives is changed. */
  lemma SweepKeeps(k: Kind, w: World, opts: SweepOptions, t: int, x: WorkId)
    requires Inv(w) && w.now <= t && x in w.store.rows
    ensures var w' := Next(k, w, Sweep(opts, t));
            var r := w.store.rows[x];
            && w'.store.counter == w.store.counter
            && (x in w'.store.rows <==> !Sweepable(r, KeptOptions(k, opts), t))
            && (x in w'.store.rows ==> w'.store.rows[x] == r)
            && (t <= r.expiresAt || r.exitMode == ExitFinished || r.exitMode == ExitAbandoned ==> x in w'.store.rows)
  {
  }
}
