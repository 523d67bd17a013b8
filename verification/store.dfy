/** The lease store as a value: the rows, the fencing counter, and every backend
    operation as one atomic step. The in-memory backend reads its clock up to
    three times inside one operation and the readings are kept apart; a SQL
    statement reads NOW() once. */
module LeaseStore {
  import opened Types

  /** Which backend is modelled. They differ only in how a TTL is stored, how a
      retention is rounded, and how many tokens the fencing sequence draws. */
  datatype Kind = Memory | Postgres

  datatype Row = Row(
    holder: HolderId, token: nat, expiresAt: int, checkpoint: Option<Bytes>,
    exitMode: ExitMode, prevExit: ExitMode, prevHolder: HolderId, updatedAt: int)
  {
    predicate HeldBy(rec: LeaseRecord) { holder == rec.holder && token == rec.token }
  }

  datatype Store = Store(rows: map<WorkId, Row>, counter: nat)

  const EMPTY := Store(map[], 0)

  /** The clock readings of one operation, in the order they are taken. */
  datatype Readings = Readings(check: int, stamp: int, touch: int)

  datatype Op =
    | Acquire(work: WorkId, holder: HolderId, ttl: int, at: Readings)
    | Checkpoint(rec: LeaseRecord, state: Bytes, ttl: int, at: Readings)
    | Renew(rec: LeaseRecord, ttl: int, at: Readings)
    | Release(rec: LeaseRecord, mode: ExitMode, at: Readings)
    | ReadCheckpoint(rec: LeaseRecord)
    | Forget(rec: LeaseRecord)
    | Sweep(opts: SweepOptions, now: int)

  datatype Reply =
    | Acquired(lease: LeaseRecord)
    | Done
    | Found(view: CheckpointView)
    | Swept(deleted: nat)
    | Failed(error: Error)

  /** Go's integer division and remainder truncate toward zero. */
  function GoDiv(a: int, b: int): int
    requires b > 0
  {
    if a >= 0 then a / b else -((-a) / b)
  }

  function GoRem(a: int, b: int): int
    requires b > 0
  {
    a - GoDiv(a, b) * b
  }

  /** The whole microseconds formatInterval asks PostgreSQL for. */
  function IntervalMicros(d: int): int {
    var us := GoDiv(d, MICROSECOND);
    if GoRem(d, MICROSECOND) > 0 then us + 1 else us
  }

  /** formatInterval rounds up: the interval is the least whole number of
      microseconds that is not shorter than the duration asked for. */
  lemma IntervalIsCeiling(d: int)
    ensures d <= IntervalMicros(d) * MICROSECOND < d + MICROSECOND
    ensures d % MICROSECOND == 0 <==> IntervalMicros(d) * MICROSECOND == d
  {
    var q := (if d >= 0 then d else -d) / MICROSECOND;
    assert (if d >= 0 then d else -d) == q * MICROSECOND + (if d >= 0 then d else -d) % MICROSECOND;
    assert IntervalMicros(d) * MICROSECOND == d ==> d % MICROSECOND == 0;
  }

  function StoredTtl(k: Kind, ttl: int): int {
    if k.Memory? then ttl else IntervalMicros(ttl) * MICROSECOND
  }

  /** The retention the SQL backend asks for: seconds with six decimals, the nearest whole microsecond. */
  function RoundedRetention(d: int): int {
    (d + MICROSECOND / 2) / MICROSECOND * MICROSECOND
  }

  /** What either backend compares a row's age with. */
  function KeptOptions(k: Kind, opts: SweepOptions): SweepOptions {
    if k.Memory? then opts else opts.(retention := RoundedRetention(opts.retention))
  }

  lemma RoundingIsNearest(d: int)
    ensures RoundedRetention(d) % MICROSECOND == 0
    ensures d - MICROSECOND / 2 < RoundedRetention(d) <= d + MICROSECOND / 2
    ensures RoundedRetention(d) <= d <==> d % MICROSECOND < MICROSECOND / 2
    ensures d % MICROSECOND == 0 ==> RoundedRetention(d) == d
  {
  }

  /** Either backend stores an expiry at least a TTL after its reading. */
  lemma StoredTtlCovers(k: Kind, ttl: int)
    ensures ttl <= StoredTtl(k, ttl)
  {
    IntervalIsCeiling(ttl);
  }

  ghost predicate Held(s: Store, rec: LeaseRecord) {
    rec.work in s.rows && s.rows[rec.work].HeldBy(rec)
  }

  /** Tokens drawn by an Acquire that succeeds: an ON CONFLICT update draws one
      for the rejected insert and one for the update. */
  function Draws(k: Kind, existing: bool): nat {
    if k.Postgres? && existing then 2 else 1
  }

  function PrevExit(prior: Option<Row>): ExitMode {
    match prior
    case None => ExitNone
    case Some(r) => if r.exitMode == ExitNone then ExitExpired else r.exitMode
  }

  function AcquireStep(k: Kind, s: Store, work: WorkId, holder: HolderId, ttl: int, at: Readings): (Store, Reply) {
    if work in s.rows && at.check <= s.rows[work].expiresAt then
      (s.(counter := s.counter + if k.Postgres? then 1 else 0), Failed(ErrLeaseHeld))
    else
      var prior := if work in s.rows then Some(s.rows[work]) else None;
      var token := s.counter + Draws(k, prior.Some?);
      var row := Row(holder, token, at.stamp + StoredTtl(k, ttl),
                     if prior.Some? then prior.value.checkpoint else None, ExitNone,
                     PrevExit(prior), if prior.Some? then prior.value.holder else "", at.touch);
      (Store(s.rows[work := row], token), Acquired(LeaseRecord(work, holder, token, row.expiresAt)))
  }

  function CheckpointStep(k: Kind, s: Store, rec: LeaseRecord, state: Bytes, ttl: int, at: Readings): (Store, Reply) {
    if rec.work !in s.rows || !s.rows[rec.work].HeldBy(rec) then (s, Failed(ErrFenced))
    else
      var r := s.rows[rec.work];
      if r.exitMode != ExitNone then (s, Failed(ErrLeaseExpired))
      else
        var r' := r.(checkpoint := Stored(state), expiresAt := at.stamp + StoredTtl(k, ttl), updatedAt := at.touch);
        (s.(rows := s.rows[rec.work := r']), Done)
  }

  function RenewStep(k: Kind, s: Store, rec: LeaseRecord, ttl: int, at: Readings): (Store, Reply) {
    if rec.work !in s.rows || !s.rows[rec.work].HeldBy(rec) then (s, Failed(ErrFenced))
    else
      var r := s.rows[rec.work];
      if at.check >= r.expiresAt then (s, Failed(ErrLeaseExpired))
      else
        var r' := r.(expiresAt := at.stamp + StoredTtl(k, ttl), updatedAt := at.touch);
        (s.(rows := s.rows[rec.work := r']), Done)
  }

  function ReleaseStep(s: Store, rec: LeaseRecord, mode: ExitMode, at: Readings): (Store, Reply) {
    if !Declarable(mode) then (s, Failed(ErrInvalidExitMode))
    else if rec.work !in s.rows || !s.rows[rec.work].HeldBy(rec) then (s, Failed(ErrFenced))
    else
      var r := s.rows[rec.work];
      if r.expiresAt <= at.check then (s, Failed(ErrLeaseExpired))
      else
        var r' := r.(exitMode := mode, expiresAt := at.stamp - MILLISECOND, updatedAt := at.touch);
        (s.(rows := s.rows[rec.work := r']), Done)
  }

  function ReadStep(s: Store, rec: LeaseRecord): Reply {
    if rec.work !in s.rows || s.rows[rec.work].token != rec.token then Failed(ErrFenced)
    else
      var r := s.rows[rec.work];
      Found(CheckpointView(r.checkpoint, r.prevExit, r.prevHolder))
  }

  function ForgetStep(s: Store, rec: LeaseRecord): (Store, Reply) {
    if rec.work !in s.rows || !s.rows[rec.work].HeldBy(rec) then (s, Failed(ErrFenced))
    else (s.(rows := s.rows - {rec.work}), Done)
  }

  /** A row Sweep may delete: unheld, older than the retention, and retired or,
      when asked, lapsed with no declared exit. */
  predicate Sweepable(r: Row, opts: SweepOptions, now: int) {
    && now - r.updatedAt > opts.retention
    && now > r.expiresAt
    && (r.exitMode == ExitRetired || (opts.includeExpired && r.exitMode == ExitNone))
  }

  function SweptKeys(s: Store, opts: SweepOptions, now: int): set<WorkId> {
    set work | work in s.rows && Sweepable(s.rows[work], opts, now)
  }

  function SweepStep(k: Kind, s: Store, opts: SweepOptions, now: int): (Store, Reply) {
    var swept := SweptKeys(s, KeptOptions(k, opts), now);
    (s.(rows := s.rows - swept), Swept(|swept|))
  }

  function Apply(k: Kind, s: Store, op: Op): (Store, Reply) {
    match op
    case Acquire(work, holder, ttl, at) => AcquireStep(k, s, work, holder, ttl, at)
    case Checkpoint(rec, state, ttl, at) => CheckpointStep(k, s, rec, state, ttl, at)
    case Renew(rec, ttl, at) => RenewStep(k, s, rec, ttl, at)
    case Release(rec, mode, at) => ReleaseStep(s, rec, mode, at)
    case ReadCheckpoint(rec) => (s, ReadStep(s, rec))
    case Forget(rec) => ForgetStep(s, rec)
    case Sweep(opts, now) => SweepStep(k, s, opts, now)
  }
}
