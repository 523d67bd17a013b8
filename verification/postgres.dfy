/** The PostgreSQL backend: a table of leases, a fencing sequence, and the SQL
    statements as atomic steps, each with one reading of NOW(). Checkpoint,
    Renew and Release are two statements, an UPDATE and a SELECT that classifies
    an UPDATE which matched no row; anything may run in between. */
module PostgresBackend {
  import opened Types
  import opened LeaseStore
  import opened Protocol

  /** A row of worklease_leases. A NULL column is None. */
  datatype SqlRow = SqlRow(
    holder_id: string, fencing_token: nat, expires_at: int, checkpoint: Option<Bytes>,
    exit_mode: Option<string>, prev_exit_mode: string, prev_holder_id: Option<string>, updated_at: int)

  datatype Db = Db(leases: map<WorkId, SqlRow>, sequence: nat)

  function ExitText(m: ExitMode): string {
    match m
    case ExitNone => "none"
    case ExitFinished => "finished"
    case ExitAbandoned => "abandoned"
    case ExitRetired => "retired"
    case ExitExpired => "expired"
  }

  /** Unknown text reads as ExitExpired, the conservative interpretation. */
  function ExitModeFromSql(s: string): ExitMode {
    if s == ExitText(ExitNone) then ExitNone
    else if s == ExitText(ExitFinished) then ExitFinished
    else if s == ExitText(ExitAbandoned) then ExitAbandoned
    else if s == ExitText(ExitRetired) then ExitRetired
    else ExitExpired
  }

  lemma ExitTextRoundTrip(m: ExitMode)
    ensures ExitModeFromSql(ExitText(m)) == m
  {
    if m != ExitNone {
      assert ExitText(m)[0] != ExitText(ExitNone)[0];
      assert ExitText(ExitAbandoned)[0] == 'a' && ExitText(ExitFinished)[0] == 'f' && ExitText(ExitRetired)[0] == 'r'
             && ExitText(ExitExpired)[0] == 'e';
    }
  }

  /** The stored words, each read as its own mode; any other reads as an expiry. */
  lemma StoredWords(t: string)
    ensures ExitModeFromSql("none") == ExitNone && ExitModeFromSql("finished") == ExitFinished
    ensures ExitModeFromSql("abandoned") == ExitAbandoned && ExitModeFromSql("retired") == ExitRetired
    ensures t != "none" && t != "finished" && t != "abandoned" && t != "retired" ==> ExitModeFromSql(t) == ExitExpired
  {
    ExitTextRoundTrip(ExitFinished);
    ExitTextRoundTrip(ExitAbandoned);
    ExitTextRoundTrip(ExitRetired);
  }

  // ---------- The statements ----------

  /** WHERE work_id = … AND holder_id = … AND fencing_token = … */
  predicate Selects(db: Db, rec: LeaseRecord) {
    && rec.work in db.leases
    && db.leases[rec.work].holder_id == rec.holder
    && db.leases[rec.work].fencing_token == rec.token
  }

  function OldKeys(db: Db, retention: int, includeExpired: bool, now: int): set<WorkId> {
    set work | work in db.leases
               && db.leases[work].updated_at < now - retention
               && db.leases[work].expires_at < now
               && (db.leases[work].exit_mode == Some("retired") || (includeExpired && db.leases[work].exit_mode == None))
  }

  datatype Stmt =
    | InsertLease(work: WorkId, holder: string, interval: int)
    | UpdateCheckpoint(rec: LeaseRecord, state: Bytes, interval: int)
    | UpdateRenew(rec: LeaseRecord, interval: int)
    | UpdateRelease(rec: LeaseRecord, mode: string)
    | SelectHolder(rec: LeaseRecord)
    | SelectCheckpoint(work: WorkId)
    | DeleteLease(rec: LeaseRecord)
    | DeleteOld(retention: int, includeExpired: bool)

  /** What a statement returns: a lease row, a count of rows, or a stored checkpoint. */
  datatype Rows = Returning(token: nat, expiresAt: int) | Count(n: nat) | CheckpointRow(row: SqlRow) | NoRows

  /** INSERT … ON CONFLICT DO UPDATE … WHERE expires_at < NOW(). The rejected
      insert has already drawn a token; the update draws another. */
  function ExecInsert(db: Db, work: WorkId, holder: string, interval: int, now: int): (Db, Rows) {
    var excluded := SqlRow(holder, db.sequence + 1, now + interval, None, None, "none", None, now);
    if work !in db.leases then
      (Db(db.leases[work := excluded], db.sequence + 1), Returning(excluded.fencing_token, excluded.expires_at))
    else if db.leases[work].expires_at < now then
      var existing := db.leases[work];
      var row := SqlRow(excluded.holder_id, db.sequence + 2, excluded.expires_at, existing.checkpoint, None,
                        if existing.exit_mode == None then "expired" else existing.exit_mode.value,
                        Some(existing.holder_id), now);
      (Db(db.leases[work := row], db.sequence + 2), Returning(row.fencing_token, row.expires_at))
    else (db.(sequence := db.sequence + 1), NoRows)
  }

  function Exec(db: Db, stmt: Stmt, now: int): (Db, Rows) {
    match stmt
    case InsertLease(work, holder, interval) => ExecInsert(db, work, holder, interval, now)
    case UpdateCheckpoint(rec, state, interval) =>
      if Selects(db, rec) && db.leases[rec.work].exit_mode == None then
        var row := db.leases[rec.work].(checkpoint := Stored(state), expires_at := now + interval, updated_at := now);
        (db.(leases := db.leases[rec.work := row]), Count(1))
      else (db, Count(0))
    case UpdateRenew(rec, interval) =>
      if Selects(db, rec) && db.leases[rec.work].expires_at > now then
        var row := db.leases[rec.work].(expires_at := now + interval, updated_at := now);
        (db.(leases := db.leases[rec.work := row]), Count(1))
      else (db, Count(0))
    case UpdateRelease(rec, mode) =>
      if Selects(db, rec) && db.leases[rec.work].expires_at > now then
        var row := db.leases[rec.work].(exit_mode := Some(mode), expires_at := now - MILLISECOND, updated_at := now);
        (db.(leases := db.leases[rec.work := row]), Count(1))
      else (db, Count(0))
    case SelectHolder(rec) => (db, if Selects(db, rec) then Count(1) else NoRows)
    case SelectCheckpoint(work) => (db, if work in db.leases then CheckpointRow(db.leases[work]) else NoRows)
    case DeleteLease(rec) =>
      if Selects(db, rec) then (db.(leases := db.leases - {rec.work}), Count(1)) else (db, Count(0))
    case DeleteOld(retention, includeExpired) =>
      var stale := OldKeys(db, retention, includeExpired, now);
      (db.(leases := db.leases - stale), Count(|stale|))
  }

  // ---------- The rows a database stands for ----------

  function AbsRow(r: SqlRow): Row {
    Row(r.holder_id, r.fencing_token, r.expires_at, if r.checkpoint == Some([]) then None else r.checkpoint,
        if r.exit_mode == None then ExitNone else ExitModeFromSql(r.exit_mode.value),
        ExitModeFromSql(r.prev_exit_mode), if r.prev_holder_id == None then "" else r.prev_holder_id.value, r.updated_at)
  }

  function Abs(db: Db): Store {
    Store(map x | x in db.leases :: AbsRow(db.leases[x]), db.sequence)
  }

  /** The CHECK constraint on exit_mode. */
  predicate DeclaredText(t: string) {
    t == ExitText(ExitFinished) || t == ExitText(ExitAbandoned) || t == ExitText(ExitRetired)
  }

  ghost predicate Schema(db: Db) {
    forall x <- db.leases :: db.leases[x].exit_mode == None || DeclaredText(db.leases[x].exit_mode.value)
  }

  predicate WellFormed(stmt: Stmt) {
    && (stmt.UpdateRelease? ==> DeclaredText(stmt.mode))
    && (stmt.DeleteOld? ==> stmt.retention % MICROSECOND == 0)
    && (stmt.InsertLease? || stmt.UpdateCheckpoint? || stmt.UpdateRenew? ==> stmt.interval % MICROSECOND == 0)
  }

  lemma DeclaredTextMeans(t: string)
    requires DeclaredText(t)
    ensures Declarable(ExitModeFromSql(t)) && ExitText(ExitModeFromSql(t)) == t
  {
    ExitTextRoundTrip(ExitFinished);
    ExitTextRoundTrip(ExitAbandoned);
    ExitTextRoundTrip(ExitRetired);
  }

  function Once(now: int): Readings {
    Readings(now, now, now)
  }

  /** The store operation with the same effect on the rows as a statement. */
  function OpOf(stmt: Stmt, now: int): Op {
    match stmt
    case InsertLease(work, holder, interval) => Acquire(work, holder, interval, Once(now))
    case UpdateCheckpoint(rec, state, interval) => Checkpoint(rec, state, interval, Once(now))
    case UpdateRenew(rec, interval) => Renew(rec, interval, Once(now))
    case UpdateRelease(rec, mode) => Release(rec, ExitModeFromSql(mode), Once(now))
    case SelectHolder(rec) => ReadCheckpoint(rec)
    case SelectCheckpoint(work) => ReadCheckpoint(LeaseRecord(work, "", 0, 0))
    case DeleteLease(rec) => Forget(rec)
    case DeleteOld(retention, includeExpired) => Sweep(SweepOptions(retention, includeExpired), now)
  }

  lemma ExecKeepsSchema(db: Db, stmt: Stmt, now: int)
    requires Schema(db) && WellFormed(stmt)
    ensures Schema(Exec(db, stmt, now).0)
  {
  }

  lemma OldKeysAreSwept(db: Db, retention: int, includeExpired: bool, now: int)
    requires Schema(db)
    ensures OldKeys(db, retention, includeExpired, now) == SweptKeys(Abs(db), SweepOptions(retention, includeExpired), now)
  {
    forall x | x in db.leases && db.leases[x].exit_mode != None
      ensures db.leases[x].exit_mode == Some("retired") <==> AbsRow(db.leases[x]).exitMode == ExitRetired
      ensures AbsRow(db.leases[x]).exitMode != ExitNone
    {
      DeclaredTextMeans(db.leases[x].exit_mode.value);
    }
  }

  /** The UPDATE of a Checkpoint, Renew or Release. */
  predicate IsWrite(stmt: Stmt) {
    stmt.UpdateCheckpoint? || stmt.UpdateRenew? || stmt.UpdateRelease?
  }

  lemma AbsUpdate(db: Db, x: WorkId, row: SqlRow, n: nat)
    ensures Abs(Db(db.leases[x := row], n)) == Store(Abs(db).rows[x := AbsRow(row)], n)
  {
    assert Abs(Db(db.leases[x := row], n)).rows == Abs(db).rows[x := AbsRow(row)];
  }

  lemma AbsDelete(db: Db, xs: set<WorkId>)
    ensures Abs(Db(db.leases - xs, db.sequence)) == Store(Abs(db).rows - xs, db.sequence)
  {
    assert Abs(Db(db.leases - xs, db.sequence)).rows == Abs(db).rows - xs;
  }

  lemma DeclaredRow(db: Db, x: WorkId)
    requires Schema(db) && x in db.leases
    ensures AbsRow(db.leases[x]).exitMode == ExitNone <==> db.leases[x].exit_mode == None
    ensures db.leases[x].exit_mode != None ==> ExitText(AbsRow(db.leases[x]).exitMode) == db.leases[x].exit_mode.value
  {
    if db.leases[x].exit_mode != None {
      DeclaredTextMeans(db.leases[x].exit_mode.value);
    }
  }

  lemma InsertRefines(db: Db, work: WorkId, holder: string, interval: int, now: int)
    requires Schema(db) && interval % MICROSECOND == 0
    ensures var (db', rows) := ExecInsert(db, work, holder, interval, now);
            AcquireStep(Postgres, Abs(db), work, holder, interval, Once(now)) ==
            (Abs(db'), if rows == NoRows then Failed(ErrLeaseHeld)
                       else Acquired(LeaseRecord(work, holder, rows.token, rows.expiresAt)))
  {
    IntervalIsCeiling(interval);
    ExitTextRoundTrip(ExitNone);
    ExitTextRoundTrip(ExitExpired);
    var db' := ExecInsert(db, work, holder, interval, now).0;
    if work !in db.leases {
      AbsUpdate(db, work, db'.leases[work], db'.sequence);
    } else {
      DeclaredRow(db, work);
      AbsUpdate(db, work, db'.leases[work], db'.sequence);
    }
  }

  /** What an UPDATE tells: it hits its row exactly when the atomic operation
      succeeds, with the same new row, and otherwise changes nothing. */
  ghost predicate WriteAgrees(db: Db, write: Stmt, now: int)
    requires IsWrite(write)
  {
    var (db', rows) := Exec(db, write, now);
    var (s', r) := Apply(Postgres, Abs(db), OpOf(write, now));
    && rows.Count? && Abs(db') == s'
    && (r == Done <==> rows.n > 0)
    && (rows.n == 0 ==> db' == db && r == if Held(Abs(db), write.rec) then Failed(ErrLeaseExpired) else Failed(ErrFenced))
  }

  lemma CheckpointRefines(db: Db, rec: LeaseRecord, state: Bytes, interval: int, now: int)
    requires Schema(db) && interval % MICROSECOND == 0
    ensures WriteAgrees(db, UpdateCheckpoint(rec, state, interval), now)
  {
    IntervalIsCeiling(interval);
    if Selects(db, rec) {
      DeclaredRow(db, rec.work);
      AbsUpdate(db, rec.work, db.leases[rec.work].(checkpoint := Stored(state), expires_at := now + interval, updated_at := now),
                db.sequence);
    }
  }

  lemma RenewRefines(db: Db, rec: LeaseRecord, interval: int, now: int)
    requires Schema(db) && interval % MICROSECOND == 0
    ensures WriteAgrees(db, UpdateRenew(rec, interval), now)
  {
    IntervalIsCeiling(interval);
    if Selects(db, rec) {
      AbsUpdate(db, rec.work, db.leases[rec.work].(expires_at := now + interval, updated_at := now), db.sequence);
    }
  }

  lemma ReleaseRefines(db: Db, rec: LeaseRecord, mode: string, now: int)
    requires Schema(db) && DeclaredText(mode)
    ensures WriteAgrees(db, UpdateRelease(rec, mode), now)
  {
    DeclaredTextMeans(mode);
    if Selects(db, rec) {
      AbsUpdate(db, rec.work,
                db.leases[rec.work].(exit_mode := Some(mode), expires_at := now - MILLISECOND, updated_at := now), db.sequence);
    }
  }

  lemma WriteRefines(db: Db, write: Stmt, now: int)
    requires Schema(db) && IsWrite(write) && WellFormed(write)
    ensures WriteAgrees(db, write, now)
  {
    match write
    case UpdateCheckpoint(rec, state, interval) => CheckpointRefines(db, rec, state, interval, now);
    case UpdateRenew(rec, interval) => RenewRefines(db, rec, interval, now);
    case UpdateRelease(rec, mode) => ReleaseRefines(db, rec, mode, now);
  }

  /** Every WHERE clause is the matching Go condition of the in-memory backend:
      a statement changes the table exactly as the operation changes the rows. */
  lemma ExecRefines(db: Db, stmt: Stmt, now: int)
    requires Schema(db) && WellFormed(stmt)
    ensures Schema(Exec(db, stmt, now).0)
    ensures Abs(Exec(db, stmt, now).0) == Apply(Postgres, Abs(db), OpOf(stmt, now)).0
  {
    ExecKeepsSchema(db, stmt, now);
    if IsWrite(stmt) {
      WriteRefines(db, stmt, now);
    } else if stmt.InsertLease? {
      InsertRefines(db, stmt.work, stmt.holder, stmt.interval, now);
    } else if stmt.DeleteLease? {
      AbsDelete(db, {stmt.rec.work});
    } else if stmt.DeleteOld? {
      RoundingIsNearest(stmt.retention);
      OldKeysAreSwept(db, stmt.retention, stmt.includeExpired, now);
      AbsDelete(db, OldKeys(db, stmt.retention, stmt.includeExpired, now));
    }
  }

  // ---------- Two statements, and what runs in between ----------

  datatype TimedStmt = TimedStmt(stmt: Stmt, now: int)

  function ExecAll(db: Db, stmts: seq<TimedStmt>): Db
    decreases |stmts|
  {
    if stmts == [] then db else ExecAll(Exec(db, stmts[0].stmt, stmts[0].now).0, stmts[1..])
  }

  predicate InTime(now: int, stmts: seq<TimedStmt>) {
    forall i, j | 0 <= i <= j < |stmts| :: now <= stmts[i].now <= stmts[j].now
  }

  predicate AllWellFormed(stmts: seq<TimedStmt>) {
    forall t <- stmts :: WellFormed(t.stmt)
  }

  /** One backend call under interference: the UPDATE at reading now, whatever
      others ran in between, and, if no row matched, the classifying SELECT. */
  function TwoStatement(db: Db, write: Stmt, now: int, between: seq<TimedStmt>): (Db, Reply)
    requires IsWrite(write)
  {
    var (db1, rows) := Exec(db, write, now);
    if rows.n > 0 then (db1, Done)
    else
      var db2 := ExecAll(db1, between);
      (db2, if Exec(db2, SelectHolder(write.rec), now).1 == NoRows then Failed(ErrFenced) else Failed(ErrLeaseExpired))
  }

  function OpsOf(stmts: seq<TimedStmt>): seq<Op>
    decreases |stmts|
  {
    if stmts == [] then [] else [OpOf(stmts[0].stmt, stmts[0].now)] + OpsOf(stmts[1..])
  }

  /** What a run of statements does is what the run of their operations does. */
  lemma {:induction false} ExecAllRefines(db: Db, w: World, stmts: seq<TimedStmt>)
    requires Schema(db) && Abs(db) == w.store && Inv(w) && InTime(w.now, stmts) && AllWellFormed(stmts)
    ensures TimelyRun(Postgres, w.now, OpsOf(stmts))
    ensures Schema(ExecAll(db, stmts)) && Abs(ExecAll(db, stmts)) == Run(Postgres, w, OpsOf(stmts)).store
    decreases |stmts|
  {
    if stmts != [] {
      var first, rest := stmts[0], stmts[1..];
      var op := OpOf(first.stmt, first.now);
      assert first in stmts;
      ExecRefines(db, first.stmt, first.now);
      assert Timely(Postgres, op, w.now) && (After(op, w.now) == w.now || After(op, w.now) == first.now);
      InvNext(Postgres, w, op);
      assert OpsOf(stmts)[1..] == OpsOf(rest) && OpsOf(stmts)[0] == op;
      ExecAllRefines(Exec(db, first.stmt, first.now).0, Next(Postgres, w, op), rest);
    }
  }

  /** Linearizability of the two-statement calls, for any issued record and any
      statements by any clients in between. Success is the atomic operation at
      the UPDATE; ErrFenced is its answer at the SELECT, because a record once
      fenced stays fenced; ErrLeaseExpired is its answer back at the UPDATE,
      because a record that still matches at the SELECT matched then. A refused
      call changes nothing. */
  lemma TwoStatementLinearizable(db: Db, w: World, write: Stmt, now: int, between: seq<TimedStmt>, later: int)
    requires Schema(db) && Abs(db) == w.store && Inv(w) && w.now <= now
    requires IsWrite(write) && WellFormed(write) && Issued(w, write.rec)
    requires InTime(now, between) && AllWellFormed(between)
    ensures var (db', r) := TwoStatement(db, write, now, between);
            match r {
              case Done => Apply(Postgres, Abs(db), OpOf(write, now)) == (Abs(db'), Done)
              case Failed(ErrFenced) =>
                && db' == ExecAll(db, between)
                && Apply(Postgres, Abs(db'), OpOf(write, later)) == (Abs(db'), Failed(ErrFenced))
              case Failed(ErrLeaseExpired) =>
                && db' == ExecAll(db, between)
                && Apply(Postgres, Abs(db), OpOf(write, now)) == (Abs(db), Failed(ErrLeaseExpired))
              case _ => false
            }
  {
    WriteRefines(db, write, now);
    if Exec(db, write, now).1.n == 0 {
      StillMatches(db, w.(now := now), between, write.rec);
      if !Selects(ExecAll(db, between), write.rec) {
        WriteAnswer(Abs(ExecAll(db, between)), write, later);
      }
    }
  }

  /** A record that matches after any statements matched before them. */
  lemma StillMatches(db: Db, w: World, between: seq<TimedStmt>, rec: LeaseRecord)
    requires Schema(db) && Abs(db) == w.store && Inv(w) && InTime(w.now, between) && AllWellFormed(between)
    requires Issued(w, rec)
    ensures Selects(ExecAll(db, between), rec) <==> Held(Abs(ExecAll(db, between)), rec)
    ensures Selects(ExecAll(db, between), rec) ==> Held(Abs(db), rec)
  {
    ExecAllRefines(db, w, between);
    if !Held(w.store, rec) {
      FencedRun(Postgres, w, OpsOf(between), rec);
    }
  }

  lemma WriteAnswer(s: Store, write: Stmt, now: int)
    requires IsWrite(write) && WellFormed(write) && !Held(s, write.rec)
    ensures Apply(Postgres, s, OpOf(write, now)) == (s, Failed(ErrFenced))
  {
    if write.UpdateRelease? {
      DeclaredTextMeans(write.mode);
    }
  }

  lemma {:induction false} ExecAllSplit(db: Db, a: seq<TimedStmt>, b: seq<TimedStmt>)
    ensures ExecAll(db, a + b) == ExecAll(ExecAll(db, a), b)
    decreases |a|
  {
    if a == [] {
      assert a + b == b;
    } else {
      assert (a + b)[1..] == a[1..] + b;
      ExecAllSplit(Exec(db, a[0].stmt, a[0].now).0, a[1..], b);
    }
  }

  const EMPTY_DB := Db(map[], 0)

  /** The same over whole histories: in any run of statements from the empty
      table, a zero-row UPDATE at i and its classifying SELECT at j give the
      answer the atomic operation gives at j (ErrFenced) or at i
      (ErrLeaseExpired), and that operation changes nothing there. */
  lemma HistoryLinearizable(start: int, stmts: seq<TimedStmt>, i: nat, j: nat)
    requires i < j < |stmts| && InTime(start, stmts) && AllWellFormed(stmts)
    requires IsWrite(stmts[i].stmt) && stmts[j].stmt == SelectHolder(stmts[i].stmt.rec)
    requires Issued(Run(Postgres, Start(start), OpsOf(stmts[..i])), stmts[i].stmt.rec)
    requires Exec(ExecAll(EMPTY_DB, stmts[..i]), stmts[i].stmt, stmts[i].now).1 == Count(0)
    ensures var write := stmts[i].stmt;
            var atUpdate, atSelect := ExecAll(EMPTY_DB, stmts[..i]), ExecAll(EMPTY_DB, stmts[..j]);
            if Exec(atSelect, stmts[j].stmt, stmts[j].now).1 == NoRows then
              Apply(Postgres, Abs(atSelect), OpOf(write, stmts[j].now)) == (Abs(atSelect), Failed(ErrFenced))
            else
              Apply(Postgres, Abs(atUpdate), OpOf(write, stmts[i].now)) == (Abs(atUpdate), Failed(ErrLeaseExpired))
  {
    var before, between := stmts[..i], stmts[i + 1..j];
    var w, atUpdate := Run(Postgres, Start(start), OpsOf(before)), ExecAll(EMPTY_DB, before);
    Underway(start, before, stmts[i].now);
    TwoStatementLinearizable(atUpdate, w, stmts[i].stmt, stmts[i].now, between, stmts[j].now);
    WriteRefines(atUpdate, stmts[i].stmt, stmts[i].now);
    NoEffectAt(stmts, i, j);
  }

  /** The table and the store after a prefix of a history. */
  lemma Underway(start: int, stmts: seq<TimedStmt>, now: int)
    requires InTime(start, stmts) && AllWellFormed(stmts) && start <= now && forall t <- stmts :: t.now <= now
    ensures var w, db := Run(Postgres, Start(start), OpsOf(stmts)), ExecAll(EMPTY_DB, stmts);
            Schema(db) && Abs(db) == w.store && Inv(w) && w.now <= now
  {
    assert Abs(EMPTY_DB) == EMPTY;
    ExecAllRefines(EMPTY_DB, Start(start), stmts);
    InvRun(Postgres, Start(start), OpsOf(stmts));
    ClockOfRun(start, stmts, now);
  }

  /** A statement at i that changes nothing can be skipped on the way to j. */
  lemma NoEffectAt(stmts: seq<TimedStmt>, i: nat, j: nat)
    requires i < j < |stmts|
    requires Exec(ExecAll(EMPTY_DB, stmts[..i]), stmts[i].stmt, stmts[i].now).0 == ExecAll(EMPTY_DB, stmts[..i])
    ensures ExecAll(EMPTY_DB, stmts[..j]) == ExecAll(ExecAll(EMPTY_DB, stmts[..i]), stmts[i + 1..j])
  {
    var before, between := stmts[..i], stmts[i + 1..j];
    ExecAllSplit(EMPTY_DB, before, [stmts[i]] + between);
    assert stmts[..j] == before + ([stmts[i]] + between);
    assert ([stmts[i]] + between)[1..] == between;
  }

  lemma {:induction false} ClockOfRun(start: int, stmts: seq<TimedStmt>, now: int)
    requires InTime(start, stmts) && start <= now && forall t <- stmts :: t.now <= now
    ensures forall w: World | w.now == start :: Run(Postgres, w, OpsOf(stmts)).now <= now
    decreases |stmts|
  {
    if stmts != [] {
      var op := OpOf(stmts[0].stmt, stmts[0].now);
      var start' := After(op, start);
      assert stmts[0] in stmts && start' <= now;
      assert OpsOf(stmts)[1..] == OpsOf(stmts[1..]) && OpsOf(stmts)[0] == op;
      ClockOfRun(start', stmts[1..], now);
    }
  }

  // ---------- Whole backend calls ----------

  function Interval(ttl: int): int {
    IntervalMicros(ttl) * MICROSECOND
  }

  /** The statement of a Checkpoint, Renew or Release call. */
  function WriteOf(op: Op): Stmt
    requires op.Checkpoint? || op.Renew? || op.Release?
  {
    match op
    case Checkpoint(rec, state, ttl, _) => UpdateCheckpoint(rec, state, Interval(ttl))
    case Renew(rec, ttl, _) => UpdateRenew(rec, Interval(ttl))
    case Release(rec, mode, _) => UpdateRelease(rec, ExitText(mode))
  }

  function ReadReply(rows: Rows, rec: LeaseRecord): Reply {
    if !rows.CheckpointRow? || rows.row.fencing_token != rec.token then Failed(ErrFenced)
    else
      var row := AbsRow(rows.row);
      Found(CheckpointView(row.checkpoint, row.prevExit, row.prevHolder))
  }

  /** One backend call that nothing interrupts. */
  function Call(db: Db, op: Op, now: int): (Db, Reply) {
    match op
    case Acquire(work, holder, ttl, _) =>
      var (db', rows) := ExecInsert(db, work, holder, Interval(ttl), now);
      (db', if rows == NoRows then Failed(ErrLeaseHeld) else Acquired(LeaseRecord(work, holder, rows.token, rows.expiresAt)))
    case Checkpoint(_, _, _, _) => TwoStatement(db, WriteOf(op), now, [])
    case Renew(_, _, _) => TwoStatement(db, WriteOf(op), now, [])
    case Release(_, mode, _) =>
      if !Declarable(mode) then (db, Failed(ErrInvalidExitMode)) else TwoStatement(db, WriteOf(op), now, [])
    case ReadCheckpoint(rec) => (db, ReadReply(Exec(db, SelectCheckpoint(rec.work), now).1, rec))
    case Forget(rec) =>
      var (db', rows) := Exec(db, DeleteLease(rec), now);
      (db', if rows.n == 0 then Failed(ErrFenced) else Done)
    case Sweep(opts, _) =>
      var (db', rows) := Exec(db, DeleteOld(RoundedRetention(opts.retention), opts.includeExpired), now);
      (db', Swept(rows.n))
  }

  predicate ReadsOnce(op: Op, now: int) {
    match op
    case Acquire(_, _, _, at) => at == Once(now)
    case Checkpoint(_, _, _, at) => at == Once(now)
    case Renew(_, _, at) => at == Once(now)
    case Release(_, _, at) => at == Once(now)
    case ReadCheckpoint(_) => true
    case Forget(_) => true
    case Sweep(_, t) => t == now
  }

  /** Rounding a TTL up twice is rounding it up once. */
  lemma IntervalTwice(ttl: int)
    ensures Interval(ttl) % MICROSECOND == 0 && Interval(Interval(ttl)) == Interval(ttl)
  {
    IntervalIsCeiling(Interval(ttl));
  }

  lemma CallWriteRefines(db: Db, op: Op, now: int)
    requires Schema(db) && ReadsOnce(op, now)
    requires op.Checkpoint? || op.Renew? || (op.Release? && Declarable(op.mode))
    ensures Schema(Call(db, op, now).0)
    ensures var (db', r) := Call(db, op, now); Apply(Postgres, Abs(db), op) == (Abs(db'), r)
  {
    var write := WriteOf(op);
    WriteOfRefines(Abs(db), op, now);
    WriteRefines(db, write, now);
    ExecKeepsSchema(db, write, now);
  }

  /** The statement of a call is well formed and means what the call means. */
  lemma WriteOfRefines(s: Store, op: Op, now: int)
    requires ReadsOnce(op, now)
    requires op.Checkpoint? || op.Renew? || (op.Release? && Declarable(op.mode))
    ensures WellFormed(WriteOf(op)) && IsWrite(WriteOf(op)) && WriteOf(op).rec == op.rec
    ensures Apply(Postgres, s, op) == Apply(Postgres, s, OpOf(WriteOf(op), now))
  {
    match op {
      case Checkpoint(_, _, ttl, _) => IntervalTwice(ttl);
      case Renew(_, ttl, _) => IntervalTwice(ttl);
      case Release(_, mode, _) => ExitTextRoundTrip(mode);
    }
  }

  /** Uninterrupted, every call of the SQL backend is the atomic operation. */
  lemma CallRefines(db: Db, op: Op, now: int)
    requires Schema(db) && ReadsOnce(op, now)
    ensures Schema(Call(db, op, now).0)
    ensures var (db', r) := Call(db, op, now); Apply(Postgres, Abs(db), op) == (Abs(db'), r)
  {
    match op
    case Acquire(work, holder, ttl, _) =>
      IntervalTwice(ttl);
      InsertRefines(db, work, holder, Interval(ttl), now);
      ExecKeepsSchema(db, InsertLease(work, holder, Interval(ttl)), now);
    case Checkpoint(_, _, _, _) => CallWriteRefines(db, op, now);
    case Renew(_, _, _) => CallWriteRefines(db, op, now);
    case Release(_, mode, _) => if Declarable(mode) { CallWriteRefines(db, op, now); }
    case ReadCheckpoint(_) =>
    case Forget(rec) => AbsDelete(db, {rec.work});
    case Sweep(opts, _) =>
      OldKeysAreSwept(db, RoundedRetention(opts.retention), opts.includeExpired, now);
      AbsDelete(db, OldKeys(db, RoundedRetention(opts.retention), opts.includeExpired, now));
  }

  // ---------- The backend ----------

  /** op took effect at once, and r is its answer. */
  ghost predicate Performed(w: World, w': World, op: Op, r: Reply) {
    w' == Next(Postgres, w, op) && r == Apply(Postgres, w.store, op).1
  }

  /** What a caller may rely on, whatever ran during the call: early is the
      operation at the reading of the UPDATE, late at that of the SELECT. Success
      is early, taking effect at once. ErrFenced is the answer of late where the
      call ends, and ErrLeaseExpired that of early where it began; a refused call
      leaves only what others did. */
  ghost predicate Linearized(w: World, w': World, early: Op, late: Op, r: Reply)
    requires RecordOf(early).Some?
  {
    match r
    case Done => Performed(w, w', early, Done)
    case Failed(ErrFenced) =>
      Reaches(Postgres, w, w') && Apply(Postgres, w'.store, late) == (w'.store, Failed(ErrFenced))
    case Failed(ErrLeaseExpired) =>
      && Reaches(Postgres, w, w')
      && (Issued(w, RecordOf(early).value) ==> Apply(Postgres, w.store, early) == (w.store, Failed(ErrLeaseExpired)))
    case _ => false
  }

  /** Two calls with one issued record: once the first was told ErrFenced, so is
      any later one, whatever ran between and during them. */
  lemma FencedCallsStayFenced(w: World, w': World, early: Op, late: Op, v: World, v': World, op: Op, again: Op, r: Reply)
    requires Inv(w) && RecordOf(early).Some? && RecordOf(early) == RecordOf(late) == RecordOf(op) == RecordOf(again)
    requires Issued(w, RecordOf(early).value) && (op.Release? ==> Declarable(op.mode))
    requires Linearized(w, w', early, late, Failed(ErrFenced)) && Reaches(Postgres, w', v)
    requires Linearized(v, v', op, again, r)
    ensures r == Failed(ErrFenced)
  {
    ReachesInv(Postgres, w, w');
    ReachesInv(Postgres, w', v);
    FencedReply(Postgres, w', late);
    StaysUnheld(Postgres, w', v, RecordOf(early).value);
    FencedReply(Postgres, v, op);
  }

  /** Statements of other connections, from reading clock on. */
  lemma RunOfOthers(db: Db, w: World, clock: int, stmts: seq<TimedStmt>)
    requires Schema(db) && Abs(db) == w.store && Inv(w) && w.now <= clock
    requires InTime(clock, stmts) && AllWellFormed(stmts)
    ensures var w', last := Run(Postgres, w, OpsOf(stmts)), if stmts == [] then clock else stmts[|stmts| - 1].now;
            && Schema(ExecAll(db, stmts)) && Abs(ExecAll(db, stmts)) == w'.store && Inv(w')
            && w'.now <= last && clock <= last && Reaches(Postgres, w, w')
  {
    var last := if stmts == [] then clock else stmts[|stmts| - 1].now;
    assert InTime(w.now, stmts) by {
      assert forall i | 0 <= i < |stmts| :: clock <= stmts[i].now <= stmts[i].now;
    }
    forall t | t in stmts
      ensures t.now <= last
    {
      var i :| 0 <= i < |stmts| && stmts[i] == t;
      assert stmts[i].now <= stmts[|stmts| - 1].now;
    }
    ExecAllRefines(db, w, stmts);
    InvRun(Postgres, w, OpsOf(stmts));
    ClockOfRun(w.now, stmts, last);
  }

  /** The backend over a live database: other connections run between any two of
      its statements. world is the history the table has had, and clock the last
      reading of NOW(). */
  class Backend {
    var db: Db
    var clock: int
    ghost var world: World

    ghost predicate Valid()
      reads this
    {
      Schema(db) && Abs(db) == world.store && Inv(world) && world.now <= clock
    }

    constructor (now: int)
      ensures Valid() && world == Start(now)
    {
      db, clock, world := EMPTY_DB, now, Start(now);
      new;
      assert Abs(db).rows == map[];
    }

    /** Other connections run any statements, each with a later reading. */
    method Others()
      requires Valid()
      modifies this
      ensures Valid() && Reaches(Postgres, old(world), world) && old(clock) <= clock
    {
      assert InTime(clock, []) && AllWellFormed([]);
      var stmts: seq<TimedStmt> :| InTime(clock, stmts) && AllWellFormed(stmts);
      var last := if stmts == [] then clock else stmts[|stmts| - 1].now;
      RunOfOthers(db, world, clock, stmts);
      db, clock, world := ExecAll(db, stmts), last, Run(Postgres, world, OpsOf(stmts));
    }

    method Query(stmt: Stmt) returns (rows: Rows, now: int)
      modifies this`db, this`clock
      ensures (db, rows) == Exec(old(db), stmt, now) && old(clock) <= now == clock
    {
      var d :| d >= 0;
      now := clock + d;
      var (db', r) := Exec(db, stmt, now);
      db, clock := db', now;
      return r, now;
    }

    /** The statement that has just run was op. */
    ghost method Record(op: Op)
      requires Inv(world) && Timely(Postgres, op, world.now) && After(op, world.now) <= clock
      requires Schema(db) && Abs(db) == Apply(Postgres, world.store, op).0
      modifies this`world
      ensures Valid() && world == Next(Postgres, old(world), op)
    {
      InvNext(Postgres, world, op);
      world := Next(Postgres, world, op);
    }

    method Acquire(work: WorkId, holder: HolderId, ttl: int) returns (r: Reply, ghost now: int)
      requires Valid()
      modifies this
      ensures Valid() && old(clock) <= now
      ensures Performed(old(world), world, Op.Acquire(work, holder, ttl, Once(now)), r)
    {
      ghost var before := db;
      var rows, at := Query(InsertLease(work, holder, Interval(ttl)));
      now := at;
      CallRefines(before, Op.Acquire(work, holder, ttl, Once(at)), at);
      Record(Op.Acquire(work, holder, ttl, Once(at)));
      if rows == NoRows {
        return Failed(ErrLeaseHeld), now;
      }
      return Acquired(LeaseRecord(work, holder, rows.token, rows.expiresAt)), now;
    }

    /** An UPDATE that hit its row was the operation; one that did not changed nothing. */
    ghost method Landed(before: Db, op: Op, rows: Rows, now: int)
      requires op.Checkpoint? || op.Renew? || (op.Release? && Declarable(op.mode))
      requires ReadsOnce(op, now) && Timely(Postgres, op, world.now) && now <= clock
      requires Schema(before) && Abs(before) == world.store && Inv(world)
      requires (db, rows) == Exec(before, WriteOf(op), now)
      modifies this`world
      ensures Valid() && rows.Count?
      ensures rows.n > 0 ==> Performed(old(world), world, op, Done)
      ensures rows.n == 0 ==> world == old(world) && (Held(world.store, op.rec) ==>
                Apply(Postgres, world.store, op) == (world.store, Failed(ErrLeaseExpired)))
    {
      WriteOfRefines(world.store, op, now);
      WriteRefines(before, WriteOf(op), now);
      ExecKeepsSchema(before, WriteOf(op), now);
      if rows.n > 0 {
        Record(op);
      }
    }

    /** What the classifying SELECT tells of an operation whose UPDATE hit nothing. */
    lemma Classified(w: World, early: Op, late: Op, rows: Rows)
      requires Valid() && Inv(w) && Reaches(Postgres, w, world)
      requires early.Checkpoint? || early.Renew? || (early.Release? && Declarable(early.mode))
      requires (late.Checkpoint? || late.Renew? || (late.Release? && Declarable(late.mode))) && late.rec == early.rec
      requires Held(w.store, early.rec) ==> Apply(Postgres, w.store, early) == (w.store, Failed(ErrLeaseExpired))
      requires rows == if Selects(db, early.rec) then Count(1) else NoRows
      ensures Linearized(w, world, early, late, if rows == NoRows then Failed(ErrFenced) else Failed(ErrLeaseExpired))
    {
      assert Selects(db, early.rec) <==> Held(Abs(db), early.rec);
      if Issued(w, early.rec) && !Held(w.store, early.rec) {
        StaysUnheld(Postgres, w, world, early.rec);
      }
    }

    method Checkpoint(rec: LeaseRecord, state: Bytes, ttl: int) returns (r: Reply, ghost now: int, ghost later: int)
      requires Valid()
      modifies this
      ensures Valid() && old(clock) <= now <= later <= clock
      ensures Linearized(old(world), world, Op.Checkpoint(rec, state, ttl, Once(now)),
                         Op.Checkpoint(rec, state, ttl, Once(later)), r)
    {
      ghost var before := db;
      var rows, at := Query(UpdateCheckpoint(rec, state, Interval(ttl)));
      now, later := at, at;
      Landed(before, Op.Checkpoint(rec, state, ttl, Once(at)), rows, at);
      if rows.n > 0 {
        return Done, now, later;
      }
      Others();
      rows, at := Query(SelectHolder(rec));
      later := at;
      Classified(old(world), Op.Checkpoint(rec, state, ttl, Once(now)), Op.Checkpoint(rec, state, ttl, Once(at)), rows);
      if rows == NoRows {
        return Failed(ErrFenced), now, later;
      }
      return Failed(ErrLeaseExpired), now, later;
    }

    method Renew(rec: LeaseRecord, ttl: int) returns (r: Reply, ghost now: int, ghost later: int)
      requires Valid()
      modifies this
      ensures Valid() && old(clock) <= now <= later <= clock
      ensures Linearized(old(world), world, Op.Renew(rec, ttl, Once(now)), Op.Renew(rec, ttl, Once(later)), r)
    {
      ghost var before := db;
      var rows, at := Query(UpdateRenew(rec, Interval(ttl)));
      now, later := at, at;
      Landed(before, Op.Renew(rec, ttl, Once(at)), rows, at);
      if rows.n == 0 {
        Others();
        rows, at := Query(SelectHolder(rec));
        later := at;
        Classified(old(world), Op.Renew(rec, ttl, Once(now)), Op.Renew(rec, ttl, Once(at)), rows);
        if rows == NoRows {
          return Failed(ErrFenced), now, later;
        }
        return Failed(ErrLeaseExpired), now, later;
      }
      return Done, now, later;
    }

    method Release(rec: LeaseRecord, mode: ExitMode) returns (r: Reply, ghost now: int, ghost later: int)
      requires Valid()
      modifies this
      ensures Valid() && old(clock) <= now <= later <= clock
      ensures !Declarable(mode) ==> r == Failed(ErrInvalidExitMode) && world == old(world) && db == old(db)
      ensures Declarable(mode) ==>
                Linearized(old(world), world, Op.Release(rec, mode, Once(now)), Op.Release(rec, mode, Once(later)), r)
    {
      now, later := clock, clock;
      if mode != ExitFinished && mode != ExitAbandoned && mode != ExitRetired {
        return Failed(ErrInvalidExitMode), now, later;
      }
      ghost var before := db;
      var rows, at := Query(UpdateRelease(rec, ExitText(mode)));
      now, later := at, at;
      Landed(before, Op.Release(rec, mode, Once(at)), rows, at);
      if rows.n > 0 {
        return Done, now, later;
      }
      Others();
      rows, at := Query(SelectHolder(rec));
      later := at;
      Classified(old(world), Op.Release(rec, mode, Once(now)), Op.Release(rec, mode, Once(at)), rows);
      if rows == NoRows {
        return Failed(ErrFenced), now, later;
      }
      return Failed(ErrLeaseExpired), now, later;
    }

    method ReadCheckpoint(rec: LeaseRecord) returns (r: Reply)
      requires Valid()
      modifies this
      ensures Valid() && db == old(db)
      ensures Performed(old(world), world, Op.ReadCheckpoint(rec), r)
    {
      var rows, at := Query(SelectCheckpoint(rec.work));
      Record(Op.ReadCheckpoint(rec));
      if rows == NoRows {
        return Failed(ErrFenced);
      }
      if rows.row.fencing_token != rec.token {
        return Failed(ErrFenced);
      }
      var state := rows.row.checkpoint;
      if state == Some([]) {
        state := None;
      }
      return Found(CheckpointView(state, ExitModeFromSql(rows.row.prev_exit_mode),
                                  if rows.row.prev_holder_id == None then "" else rows.row.prev_holder_id.value));
    }

    method Forget(rec: LeaseRecord) returns (r: Reply)
      requires Valid()
      modifies this
      ensures Valid()
      ensures Performed(old(world), world, Op.Forget(rec), r)
    {
      ghost var before := db;
      var rows, at := Query(DeleteLease(rec));
      CallRefines(before, Op.Forget(rec), at);
      Record(Op.Forget(rec));
      if rows.n == 0 {
        return Failed(ErrFenced);
      }
      return Done;
    }

    method Sweep(opts: SweepOptions) returns (r: Reply, ghost now: int)
      requires Valid()
      modifies this
      ensures Valid() && old(clock) <= now
      ensures Performed(old(world), world, Op.Sweep(opts, now), r)
    {
      ghost var before := db;
      var rows, at := Query(DeleteOld(RoundedRetention(opts.retention), opts.includeExpired));
      now := at;
      CallRefines(before, Op.Sweep(opts, at), at);
      Record(Op.Sweep(opts, at));
      return Swept(rows.n), now;
    }
  }
}
