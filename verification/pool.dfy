/** The pool: one slot per work ID, all looping at once over a shared counter of
    dead slots and a shared set of active work IDs. Each critical section, atomic
    operation or cancellation is one step, and any slot may take the next one. */
module SlotPool {
  import opened Types

  datatype Exit = Retired | Cancelled | Dead

  /** Which interval a sleeping slot waits out. */
  datatype Pace = Rerun | Idle | Backoff

  /** Where a slot's goroutine is. Condemned has taken the PermanentError branch;
      Dying is past dead.Add too, and last says that its Add reached the total. */
  datatype Phase =
    | Looping
    | Working
    | Cleaning(retired: bool)
    | Sleeping(pace: Pace)
    | Condemned
    | Dying(last: bool)
    | Exited(why: Exit)

  /** external is the caller's context, own the pool's cancel. */
  datatype Pool = Pool(
    ids: seq<WorkId>, slots: seq<Phase>, dead: nat, active: set<WorkId>, external: bool, own: bool)

  datatype Action =
    | EnterWork
    | LeaveWork(retired: bool)
    | RunReturns(err: GoError, permanent: bool)
    | Wakes
    | SleepCut
    | AddDead
    | Leave

  /** One step of slot i, or the caller cancelling its context. */
  datatype Move = Slot(i: nat, act: Action) | CallerCancels

  function Begin(ids: seq<WorkId>): Pool {
    Pool(ids, seq(|ids|, _ => Looping), 0, {}, false, false)
  }

  predicate ContextDone(p: Pool) {
    p.external || p.own
  }

  predicate Possible(p: Pool, m: Move) {
    m.CallerCancels? || (m.i < |p.slots| && m.i < |p.ids| &&
      match p.slots[m.i]
      case Looping => m.act.EnterWork? || (m.act.RunReturns? && m.act.err != None)
      case Working => m.act.LeaveWork?
      case Cleaning(_) => m.act.RunReturns?
      case Sleeping(_) => m.act.Wakes? || (m.act.SleepCut? && ContextDone(p))
      case Condemned => m.act.AddDead?
      case Dying(_) => m.act.Leave?
      case Exited(_) => false)
  }

  /** What a slot does once its Runner has returned; the first match wins. */
  function Next(p: Pool, retired: bool, err: GoError, permanent: bool): Phase {
    if err == None && retired then Exited(Retired)
    else if ContextDone(p) then Exited(Cancelled)
    else if err == None then Sleeping(Rerun)
    else if Is(err, IsFenced) then Looping
    else if permanent then Condemned
    else if Is(err, IsLeaseHeld) then Sleeping(Idle)
    else Sleeping(Backoff)
  }

  function Do(p: Pool, m: Move): Pool
    requires Possible(p, m)
  {
    if m.CallerCancels? then p.(external := true)
    else
      var i := m.i;
      match m.act
      case EnterWork => p.(slots := p.slots[i := Working], active := p.active + {p.ids[i]})
      case LeaveWork(retired) => p.(slots := p.slots[i := Cleaning(retired)], active := p.active - {p.ids[i]})
      case RunReturns(err, permanent) =>
        p.(slots := p.slots[i := Next(p, p.slots[i].Cleaning? && p.slots[i].retired, err, permanent)])
      case Wakes => p.(slots := p.slots[i := Looping])
      case SleepCut => p.(slots := p.slots[i := Exited(Cancelled)])
      case AddDead => p.(slots := p.slots[i := Dying(p.dead + 1 == |p.ids|)], dead := p.dead + 1)
      case Leave => p.(slots := p.slots[i := Exited(Dead)], own := p.own || p.slots[i].last)
  }

  function RunMoves(p: Pool, moves: seq<Move>): Pool
    requires PossibleRun(p, moves)
    decreases |moves|
  {
    if moves == [] then p else RunMoves(Do(p, moves[0]), moves[1..])
  }

  predicate PossibleRun(p: Pool, moves: seq<Move>)
    decreases |moves|
  {
    moves == [] || (Possible(p, moves[0]) && PossibleRun(Do(p, moves[0]), moves[1..]))
  }

  lemma Prepend(p: Pool, m: Move, moves: seq<Move>)
    requires Possible(p, m) && PossibleRun(Do(p, m), moves)
    ensures PossibleRun(p, [m] + moves) && RunMoves(p, [m] + moves) == RunMoves(Do(p, m), moves)
  {
    assert ([m] + moves)[1..] == moves;
  }

  /** A run is one part after the other. */
  lemma {:induction false} RunSplit(p: Pool, a: seq<Move>, b: seq<Move>)
    ensures PossibleRun(p, a + b) <==> PossibleRun(p, a) && PossibleRun(RunMoves(p, a), b)
    ensures PossibleRun(p, a + b) ==> RunMoves(p, a + b) == RunMoves(RunMoves(p, a), b)
    decreases |a|
  {
    if a == [] {
      assert a + b == b;
    } else {
      assert (a + b)[1..] == a[1..] + b;
      if Possible(p, a[0]) {
        RunSplit(Do(p, a[0]), a[1..], b);
      }
    }
  }

  // ---------- Accounting ----------

  /** The slot took the PermanentError branch and was counted. */
  predicate Died(s: Phase) {
    s.Dying? || s == Exited(Dead)
  }

  function CountDied(slots: seq<Phase>): nat {
    if slots == [] then 0 else CountDied(slots[..|slots| - 1]) + if Died(slots[|slots| - 1]) then 1 else 0
  }

  lemma {:induction false} CountUpdate(slots: seq<Phase>, i: nat, s: Phase)
    requires i < |slots|
    ensures CountDied(slots[i := s]) + (if Died(slots[i]) then 1 else 0) == CountDied(slots) + (if Died(s) then 1 else 0)
  {
    var n := |slots| - 1;
    if i < n {
      assert slots[i := s][..n] == slots[..n][i := s];
      CountUpdate(slots[..n], i, s);
    } else {
      assert slots[i := s][..n] == slots[..n];
    }
  }

  lemma {:induction false} CountAll(slots: seq<Phase>)
    ensures CountDied(slots) <= |slots|
    ensures CountDied(slots) == |slots| <==> forall s <- slots :: Died(s)
  {
    if slots != [] {
      var n := |slots| - 1;
      CountAll(slots[..n]);
      assert slots == slots[..n] + [slots[n]];
    }
  }

  lemma {:induction false} CountNone(slots: seq<Phase>)
    requires forall s <- slots :: !Died(s)
    ensures CountDied(slots) == 0
  {
    if slots != [] {
      CountNone(slots[..|slots| - 1]);
    }
  }

  ghost predicate Counted(p: Pool) {
    && |p.slots| == |p.ids|
    && p.dead == CountDied(p.slots)
    && (p.own ==> p.dead == |p.ids|)
    && (forall s <- p.slots :: s == Dying(true) ==> p.dead == |p.ids|)
    && (p.dead == |p.ids| && p.ids != [] ==> p.own || Dying(true) in p.slots)
  }

  lemma CountedNext(p: Pool, m: Move)
    requires Counted(p) && Possible(p, m)
    ensures Counted(Do(p, m))
  {
    if m.Slot? {
      var p' := Do(p, m);
      CountUpdate(p.slots, m.i, p'.slots[m.i]);
      CountAll(p.slots);
      CountAll(p'.slots);
      assert p.slots[m.i] in p.slots;
      forall s | s in p'.slots && s == Dying(true)
        ensures p'.dead == |p'.ids|
      {
        assert s != p'.slots[m.i] ==> s in p.slots;
      }
      StillDying(p, m);
    }
  }

  /** The slot that reached the total does not go without cancelling. */
  lemma StillDying(p: Pool, m: Move)
    requires |p.slots| == |p.ids| && Possible(p, m) && m.Slot?
    requires p.dead == |p.ids| && p.ids != [] ==> p.own || Dying(true) in p.slots
    requires p.dead == |p.ids| ==> !Do(p, m).slots[m.i].Dying?
    ensures Do(p, m).dead == |p.ids| && p.ids != [] ==> Do(p, m).own || Dying(true) in Do(p, m).slots
  {
    var p' := Do(p, m);
    if m.act.AddDead? {
      assert p'.slots[m.i] in p'.slots;
    } else if p.dead == |p.ids| && p.ids != [] && !p.own {
      var j :| 0 <= j < |p.slots| && p.slots[j] == Dying(true);
      if j != m.i {
        assert p'.slots[j] == Dying(true);
      }
    }
  }

  lemma {:induction false} CountedRun(p: Pool, moves: seq<Move>)
    requires Counted(p) && PossibleRun(p, moves)
    ensures Counted(RunMoves(p, moves)) && RunMoves(p, moves).ids == p.ids
    decreases |moves|
  {
    if moves != [] {
      CountedNext(p, moves[0]);
      CountedRun(Do(p, moves[0]), moves[1..]);
    }
  }

  predicate AllExited(p: Pool) {
    forall s <- p.slots :: s.Exited?
  }

  /** What Run returns once every slot has exited. */
  predicate AllSlotsDead(p: Pool) {
    p.dead == |p.ids|
  }

  /** At every interleaving, dead is the number of slots counted on the
      PermanentError branch; the pool's own cancel comes only when that is all of
      them, so it never reaches a slot still running; and Run ends with
      ErrAllSlotsDead exactly when every slot exited dead, so one retired or
      cancelled slot forces nil. */
  lemma PoolAccounting(ids: seq<WorkId>, moves: seq<Move>)
    requires PossibleRun(Begin(ids), moves)
    ensures var p := RunMoves(Begin(ids), moves);
            && p.dead == CountDied(p.slots)
            && (p.own ==> forall s <- p.slots :: Died(s))
            && (ids != [] && (forall s <- p.slots :: s == Exited(Dead)) ==> p.own)
            && (AllExited(p) ==> (AllSlotsDead(p) <==> forall s <- p.slots :: s == Exited(Dead)))
  {
    CountNone(Begin(ids).slots);
    CountedRun(Begin(ids), moves);
    CountAll(RunMoves(Begin(ids), moves).slots);
  }

  /** A slot stops on a cancelled context only if there is one. */
  ghost predicate CancelsExplained(p: Pool) {
    Exited(Cancelled) in p.slots ==> ContextDone(p)
  }

  lemma {:induction false} CancelsExplainedRun(p: Pool, moves: seq<Move>)
    requires CancelsExplained(p) && PossibleRun(p, moves)
    ensures CancelsExplained(RunMoves(p, moves))
    ensures RunMoves(p, moves).external <==> p.external || CallerCancels in moves
    decreases |moves|
  {
    if moves != [] {
      var p' := Do(p, moves[0]);
      if moves[0].Slot? {
        var i := moves[0].i;
        assert p'.slots == p.slots[i := p'.slots[i]];
        assert forall s <- p'.slots :: s == p'.slots[i] || s in p.slots;
      }
      CancelsExplainedRun(p', moves[1..]);
    }
  }

  /** Run returns nil exactly when some slot retired or stopped on a cancelled
      context, and that context was then the caller's: the pool never turns its
      own cancel into nil. If the caller never cancels, it takes a retirement. */
  lemma NilMeans(ids: seq<WorkId>, moves: seq<Move>)
    requires PossibleRun(Begin(ids), moves) && AllExited(RunMoves(Begin(ids), moves))
    ensures var p := RunMoves(Begin(ids), moves);
            && (!AllSlotsDead(p) <==> Exited(Retired) in p.slots || Exited(Cancelled) in p.slots)
            && (Exited(Cancelled) in p.slots ==> p.external && CallerCancels in moves)
            && (CallerCancels !in moves ==> (!AllSlotsDead(p) <==> Exited(Retired) in p.slots))
  {
    var p := RunMoves(Begin(ids), moves);
    PoolAccounting(ids, moves);
    CancelsExplainedRun(Begin(ids), moves);
    assert forall s <- p.slots :: s.why.Retired? || s.why.Cancelled? || s.why.Dead?;
  }

  /** The slot has taken the PermanentError branch: it will be counted dead. */
  predicate Doomed(s: Phase) {
    s.Condemned? || Died(s)
  }

  /** Once the caller has cancelled, no slot takes that branch any more. */
  lemma {:induction false} DoomFixed(p: Pool, moves: seq<Move>)
    requires p.external && PossibleRun(p, moves)
    ensures var p' := RunMoves(p, moves);
            |p'.slots| == |p.slots| && forall i | 0 <= i < |p.slots| :: Doomed(p'.slots[i]) <==> Doomed(p.slots[i])
    decreases |moves|
  {
    if moves != [] {
      DoomFixed(Do(p, moves[0]), moves[1..]);
    }
  }

  /** When a cancelled caller still gets ErrAllSlotsDead: exactly when, at the
      moment it cancels, every slot has taken the PermanentError branch. */
  lemma CancelDecides(ids: seq<WorkId>, before: seq<Move>, after: seq<Move>)
    requires PossibleRun(Begin(ids), before + ([CallerCancels] + after))
    requires AllExited(RunMoves(Begin(ids), before + ([CallerCancels] + after)))
    ensures PossibleRun(Begin(ids), before)
    ensures AllSlotsDead(RunMoves(Begin(ids), before + ([CallerCancels] + after))) <==>
              forall s <- RunMoves(Begin(ids), before).slots :: Doomed(s)
  {
    var moves := before + ([CallerCancels] + after);
    RunSplit(Begin(ids), before, [CallerCancels] + after);
    var p, end := RunMoves(Begin(ids), before), RunMoves(Begin(ids), moves);
    assert ([CallerCancels] + after)[1..] == after;
    assert end == RunMoves(Do(p, CallerCancels), after);
    DoomFixed(Do(p, CallerCancels), after);
    PoolAccounting(ids, moves);
    assert forall s <- end.slots :: s == Exited(Dead) <==> Doomed(s);
    assert (forall s <- end.slots :: Doomed(s)) <==> forall i | 0 <= i < |end.slots| :: Doomed(end.slots[i]);
    assert (forall s <- p.slots :: Doomed(s)) <==> forall i | 0 <= i < |p.slots| :: Doomed(p.slots[i]);
  }

  /** A cancelled caller does not force nil: cancelling after the last slot took
      the PermanentError branch still ends in ErrAllSlotsDead. */
  lemma CancelledYetAllDead(x: WorkId)
    ensures exists moves :: PossibleRun(Begin([x]), moves) &&
              var p := RunMoves(Begin([x]), moves); AllExited(p) && p.external && AllSlotsDead(p)
  {
    var m1, m2, m3 := Slot(0, RunReturns(Some({}), true)), Slot(0, AddDead), Slot(0, Leave);
    var p0 := Begin([x]);
    var p1 := Do(p0, m1);
    var p2 := Do(p1, CallerCancels);
    var p3 := Do(p2, m2);
    Prepend(p3, m3, []);
    Prepend(p2, m2, [m3] + []);
    Prepend(p1, CallerCancels, [m2] + ([m3] + []));
    Prepend(p0, m1, [CallerCancels] + ([m2] + ([m3] + [])));
    assert PossibleRun(p0, [m1] + ([CallerCancels] + ([m2] + ([m3] + []))));
    assert Do(p3, m3).slots == [Exited(Dead)];
  }

  // ---------- Active slots ----------

  /** Some slot of x is inside its marked WorkFn region. */
  ghost predicate Running(p: Pool, x: WorkId)
    requires |p.slots| == |p.ids|
  {
    exists i: nat :: i < |p.slots| && p.ids[i] == x && p.slots[i].Working?
  }

  ghost predicate ActiveExact(p: Pool) {
    |p.slots| == |p.ids| && forall x :: x in p.active <==> Running(p, x)
  }

  lemma RunningNext(p: Pool, m: Move, x: WorkId)
    requires |p.slots| == |p.ids| && Distinct(p.ids) && Possible(p, m) && m.Slot?
    ensures |Do(p, m).slots| == |p.ids| && Do(p, m).ids == p.ids
    ensures Running(Do(p, m), x) <==> if x == p.ids[m.i] then Do(p, m).slots[m.i].Working? else Running(p, x)
  {
    var p' := Do(p, m);
    assert p'.slots == p.slots[m.i := p'.slots[m.i]];
    if Running(p, x) && x != p.ids[m.i] {
      var i: nat :| i < |p.slots| && p.ids[i] == x && p.slots[i].Working?;
      assert p'.slots[i].Working?;
    }
  }

  lemma ActiveNext(p: Pool, m: Move)
    requires ActiveExact(p) && Distinct(p.ids) && Possible(p, m)
    ensures ActiveExact(Do(p, m))
  {
    var p' := Do(p, m);
    forall x
      ensures x in p'.active <==> Running(p', x)
    {
      if m.Slot? {
        RunningNext(p, m, x);
        if x == p.ids[m.i] {
          RunningHere(p, m.i);
        }
      } else {
        assert forall i: nat | i < |p.slots| :: p'.slots[i] == p.slots[i];
      }
    }
  }

  lemma RunningHere(p: Pool, i: nat)
    requires |p.slots| == |p.ids| && Distinct(p.ids) && i < |p.ids|
    ensures Running(p, p.ids[i]) <==> p.slots[i].Working?
  {
  }

  lemma {:induction false} ActiveRun(p: Pool, moves: seq<Move>)
    requires ActiveExact(p) && Distinct(p.ids) && PossibleRun(p, moves)
    ensures ActiveExact(RunMoves(p, moves))
    decreases |moves|
  {
    if moves != [] {
      ActiveNext(p, moves[0]);
      ActiveRun(Do(p, moves[0]), moves[1..]);
    }
  }

  /** ActiveSlots is exact at every interleaving if and only if the work IDs are
      distinct. With a duplicate, two slots mark one entry and the first to leave
      unmarks the other. */
  lemma ActiveIsExactIffDistinct(ids: seq<WorkId>)
    ensures Distinct(ids) <==> forall moves | PossibleRun(Begin(ids), moves) :: ActiveExact(RunMoves(Begin(ids), moves))
  {
    if Distinct(ids) {
      forall moves | PossibleRun(Begin(ids), moves)
        ensures ActiveExact(RunMoves(Begin(ids), moves))
      {
        ActiveRun(Begin(ids), moves);
      }
    } else {
      var i, j :| 0 <= i < j < |ids| && ids[i] == ids[j];
      var p0 := Begin(ids);
      var m1, m2, m3 := Slot(i, EnterWork), Slot(j, EnterWork), Slot(i, LeaveWork(false));
      var p1 := Do(p0, m1);
      var p2 := Do(p1, m2);
      var p3 := Do(p2, m3);
      Prepend(p2, m3, []);
      Prepend(p1, m2, [m3] + []);
      Prepend(p0, m1, [m2] + ([m3] + []));
      var moves := [m1] + ([m2] + ([m3] + []));
      assert p3.slots[j].Working? && p3.ids[j] !in p3.active;
      assert Running(p3, ids[j]);
      assert !ActiveExact(RunMoves(Begin(ids), moves));
    }
  }

  // ---------- New ----------

  datatype ConfigError =
    | ErrLeaseRequired
    | ErrEmptyWorkIDs
    | ErrEmptyWorkID(index: nat)
    | ErrDuplicateWorkID(first: nat, index: nat)
    | ErrWithWaitForLeaseProhibited
    | ErrWorkFnRequired

  predicate InvalidAt(ids: seq<WorkId>, i: nat)
    requires i < |ids|
  {
    ids[i] == "" || ids[i] in ids[..i]
  }

  ghost predicate FirstInvalid(ids: seq<WorkId>, i: nat) {
    i < |ids| && InvalidAt(ids, i) && forall j: nat | j < i :: !InvalidAt(ids, j)
  }

  /** The error for the least invalid index, and for a duplicate its earliest twin. */
  ghost predicate ScanVerdict(ids: seq<WorkId>, err: ConfigError) {
    match err
    case ErrEmptyWorkID(i) => FirstInvalid(ids, i) && ids[i] == ""
    case ErrDuplicateWorkID(first, i) =>
      FirstInvalid(ids, i) && ids[i] != "" && first < i && ids[first] == ids[i] && ids[i] !in ids[..first]
    case _ => false
  }

  /** The scan of cfg.WorkIDs, with a map from each ID to its index. */
  method ScanWorkIDs(ids: seq<WorkId>) returns (err: Option<ConfigError>)
    ensures err == None <==> Distinct(ids) && "" !in ids
    ensures err != None ==> ScanVerdict(ids, err.value)
  {
    var firstIndex: map<WorkId, nat> := map[];
    for i := 0 to |ids|
      invariant Distinct(ids[..i]) && "" !in ids[..i]
      invariant forall j: nat | j < i :: !InvalidAt(ids, j)
      invariant forall x :: x in firstIndex <==> x in ids[..i]
      invariant forall x <- firstIndex :: firstIndex[x] < i && ids[firstIndex[x]] == x
    {
      var id := ids[i];
      if id == "" {
        return Some(ErrEmptyWorkID(i));
      }
      if id in firstIndex {
        var first := firstIndex[id];
        assert !InvalidAt(ids, first);
        return Some(ErrDuplicateWorkID(first, i));
      }
      firstIndex := firstIndex[id := i];
    }
    assert ids[..|ids|] == ids;
    return None;
  }

  const SECOND := 1_000_000_000

  datatype Pacing = Pacing(idle: int, rerun: int, backoff: int)

  function Default(interval: int): int {
    if interval <= 0 then SECOND else interval
  }

  method New(lease: bool, ids: seq<WorkId>, waits: bool, fn: bool, pacing: Pacing)
    returns (err: Option<ConfigError>, effective: Pacing)
    ensures err == None <==> lease && ids != [] && Distinct(ids) && "" !in ids && !waits && fn
    ensures err == None ==> effective.idle > 0 && effective.rerun > 0 && effective.backoff > 0
    ensures !lease ==> err == Some(ErrLeaseRequired)
    ensures lease && ids == [] ==> err == Some(ErrEmptyWorkIDs)
    ensures lease && ids != [] && !(Distinct(ids) && "" !in ids) ==> err != None && ScanVerdict(ids, err.value)
    ensures lease && ids != [] && Distinct(ids) && "" !in ids && waits ==> err == Some(ErrWithWaitForLeaseProhibited)
    ensures lease && ids != [] && Distinct(ids) && "" !in ids && !waits && !fn ==> err == Some(ErrWorkFnRequired)
    ensures effective == Pacing(Default(pacing.idle), Default(pacing.rerun), Default(pacing.backoff))
  {
    effective := Pacing(Default(pacing.idle), Default(pacing.rerun), Default(pacing.backoff));
    if !lease {
      return Some(ErrLeaseRequired), effective;
    }
    if |ids| == 0 {
      return Some(ErrEmptyWorkIDs), effective;
    }
    err := ScanWorkIDs(ids);
    if err != None {
      return;
    }
    if waits {
      return Some(ErrWithWaitForLeaseProhibited), effective;
    }
    if !fn {
      return Some(ErrWorkFnRequired), effective;
    }
    return None, effective;
  }

  // ---------- The pool as it is written ----------

  /** The moves slot i made, in order. */
  function MovesOf(i: nat, moves: seq<Move>): seq<Action> {
    if moves == [] then []
    else (if moves[0].Slot? && moves[0].i == i then [moves[0].act] else []) + MovesOf(i, moves[1..])
  }

  /** Moves of the machine lead from p to q, and acts are those that slot i made. */
  ghost predicate Leads(p: Pool, q: Pool, i: nat, acts: seq<Action>) {
    exists moves :: PossibleRun(p, moves) && q == RunMoves(p, moves) && MovesOf(i, moves) == acts
  }

  lemma {:induction false} MovesOfSplit(i: nat, a: seq<Move>, b: seq<Move>)
    ensures MovesOf(i, a + b) == MovesOf(i, a) + MovesOf(i, b)
  {
    if a == [] {
      assert a + b == b;
    } else {
      assert (a + b)[1..] == a[1..] + b;
      MovesOfSplit(i, a[1..], b);
    }
  }

  lemma OneMoveOf(i: nat, m: Move)
    ensures MovesOf(i, [m]) == if m.Slot? && m.i == i then [m.act] else []
  {
    assert [m][1..] == [];
    assert MovesOf(i, []) == [];
  }

  lemma LeadsNowhere(p: Pool, i: nat)
    ensures Leads(p, p, i, [])
  {
    assert PossibleRun(p, []) && p == RunMoves(p, []) && MovesOf(i, []) == [];
  }

  lemma LeadsOn(p: Pool, q: Pool, r: Pool, i: nat, acts: seq<Action>, more: seq<Action>)
    requires Leads(p, q, i, acts) && Leads(q, r, i, more)
    ensures Leads(p, r, i, acts + more)
  {
    var a :| PossibleRun(p, a) && q == RunMoves(p, a) && MovesOf(i, a) == acts;
    var b :| PossibleRun(q, b) && r == RunMoves(q, b) && MovesOf(i, b) == more;
    RunSplit(p, a, b);
    MovesOfSplit(i, a, b);
    assert PossibleRun(p, a + b) && r == RunMoves(p, a + b) && MovesOf(i, a + b) == acts + more;
  }

  lemma LeadsByOne(p: Pool, i: nat, act: Action)
    requires Possible(p, Slot(i, act))
    ensures Leads(p, Do(p, Slot(i, act)), i, [act])
  {
    var moves := [Slot(i, act)];
    OneMoveOf(i, moves[0]);
    Prepend(p, moves[0], []);
    assert moves + [] == moves;
    assert PossibleRun(p, moves) && Do(p, Slot(i, act)) == RunMoves(p, moves);
  }

  /** How often a slot counts itself. */
  function Adds(acts: seq<Action>): nat {
    if acts == [] then 0 else (if acts[0].AddDead? then 1 else 0) + Adds(acts[1..])
  }

  lemma {:induction false} NoAdds(acts: seq<Action>)
    requires AddDead !in acts
    ensures Adds(acts) == 0
  {
    if acts != [] {
      NoAdds(acts[1..]);
    }
  }

  lemma {:induction false} AddsSplit(a: seq<Action>, b: seq<Action>)
    ensures Adds(a + b) == Adds(a) + Adds(b)
  {
    if a == [] {
      assert a + b == b;
    } else {
      assert (a + b)[1..] == a[1..] + b;
      AddsSplit(a[1..], b);
    }
  }

  /** No cancel is taken back, and dead grows by what each slot adds. */
  ghost predicate Grows(p: Pool, q: Pool, added: nat) {
    q.ids == p.ids && p.dead + added <= q.dead && (p.external ==> q.external) && (p.own ==> q.own)
  }

  lemma {:induction false} RunGrows(p: Pool, moves: seq<Move>, i: nat)
    requires PossibleRun(p, moves)
    ensures Grows(p, RunMoves(p, moves), Adds(MovesOf(i, moves)))
    decreases |moves|
  {
    if moves != [] {
      RunGrows(Do(p, moves[0]), moves[1..], i);
      var acts := MovesOf(i, moves);
      assert acts != MovesOf(i, moves[1..]) ==> acts[1..] == MovesOf(i, moves[1..]) && acts[0] == moves[0].act;
    }
  }

  lemma LeadsGrows(p: Pool, q: Pool, i: nat, acts: seq<Action>)
    requires Leads(p, q, i, acts)
    ensures Grows(p, q, Adds(acts))
  {
    var moves :| PossibleRun(p, moves) && q == RunMoves(p, moves) && MovesOf(i, moves) == acts;
    RunGrows(p, moves, i);
  }

  ghost predicate ReachedFrom(ids: seq<WorkId>, p: Pool) {
    exists moves :: PossibleRun(Begin(ids), moves) && p == RunMoves(Begin(ids), moves)
  }

  function Last(acts: seq<Action>): Option<Action> {
    if acts == [] then None else Some(acts[|acts| - 1])
  }

  function Previous(acts: seq<Action>): Option<Action> {
    if acts == [] then None else Last(acts[..|acts| - 1])
  }

  /** What a slot's own moves must have been for it to be where it is. */
  ghost predicate Told(phase: Phase, acts: seq<Action>) {
    match phase
    case Looping =>
      || acts == [] || Last(acts) == Some(Wakes)
      || (Last(acts).value.RunReturns? && Is(Last(acts).value.err, IsFenced))
    case Working => Last(acts) == Some(EnterWork)
    case Cleaning(retired) => Last(acts) == Some(LeaveWork(retired))
    case Sleeping(pace) =>
      && Last(acts).Some? && Last(acts).value.RunReturns?
      && var err := Last(acts).value.err;
         match pace {
           case Rerun => err == None && Previous(acts) != Some(LeaveWork(true))
           case Idle => Is(err, IsLeaseHeld) && !Is(err, IsFenced)
           case Backoff => err != None && !Is(err, IsFenced) && !Is(err, IsLeaseHeld)
         }
    case Condemned => Permanent(Last(acts))
    case Dying(_) => Last(acts) == Some(AddDead) && Permanent(Previous(acts))
    case Exited(Retired) =>
      && Last(acts).Some? && Last(acts).value.RunReturns? && Last(acts).value.err == None
      && Previous(acts) == Some(LeaveWork(true))
    case Exited(Cancelled) => Last(acts).Some? && (Last(acts).value.SleepCut? || Last(acts).value.RunReturns?)
    case Exited(Dead) =>
      && |acts| >= 3 && acts[|acts| - 1] == Leave && acts[|acts| - 2] == AddDead && Permanent(Some(acts[|acts| - 3]))
  }

  /** A Run that ended in a permanent error, and not because the lease was lost. */
  predicate Permanent(act: Option<Action>) {
    act.Some? && act.value.RunReturns? && act.value.permanent && act.value.err != None && !Is(act.value.err, IsFenced)
  }

  lemma LastOfLonger(acts: seq<Action>, act: Action)
    ensures Last(acts + [act]) == Some(act) && Previous(acts + [act]) == Last(acts)
    ensures |acts| >= 2 ==>
              var longer := acts + [act];
              longer[|longer| - 1] == act && Some(longer[|longer| - 2]) == Last(acts) && Some(longer[|longer| - 3]) == Previous(acts)
  {
    assert (acts + [act])[..|acts|] == acts;
    if |acts| >= 2 {
      assert acts[..|acts| - 1][|acts| - 2] == acts[|acts| - 2];
    }
  }

  /** A slot's own move, from what its moves had told so far. */
  lemma ToldByOwn(p: Pool, i: nat, act: Action, acts: seq<Action>)
    requires Possible(p, Slot(i, act)) && Told(p.slots[i], acts)
    ensures Told(Do(p, Slot(i, act)).slots[i], acts + [act])
  {
    LastOfLonger(acts, act);
    if p.slots[i].Dying? {
      assert |acts| >= 2;
    }
  }

  lemma ToldNext(p: Pool, m: Move, i: nat, acts: seq<Action>)
    requires Possible(p, m) && i < |p.slots| && Told(p.slots[i], acts)
    ensures i < |Do(p, m).slots| && Told(Do(p, m).slots[i], acts + MovesOf(i, [m]))
  {
    OneMoveOf(i, m);
    if m.Slot? && m.i == i {
      ToldByOwn(p, i, m.act, acts);
    } else {
      assert acts + [] == acts;
    }
  }

  lemma {:induction false} ToldRun(p: Pool, moves: seq<Move>, i: nat, acts: seq<Action>)
    requires PossibleRun(p, moves) && i < |p.slots| && Told(p.slots[i], acts)
    ensures i < |RunMoves(p, moves).slots| && Told(RunMoves(p, moves).slots[i], acts + MovesOf(i, moves))
    decreases |moves|
  {
    if moves == [] {
      assert acts + [] == acts;
    } else {
      ToldNext(p, moves[0], i, acts);
      ToldRun(Do(p, moves[0]), moves[1..], i, acts + MovesOf(i, [moves[0]]));
      assert [moves[0]] + moves[1..] == moves;
      MovesOfSplit(i, [moves[0]], moves[1..]);
      assert acts + MovesOf(i, [moves[0]]) + MovesOf(i, moves[1..]) == acts + (MovesOf(i, [moves[0]]) + MovesOf(i, moves[1..]));
    }
  }

  lemma ToldFromStart(ids: seq<WorkId>, moves: seq<Move>, i: nat)
    requires PossibleRun(Begin(ids), moves) && i < |ids|
    ensures |RunMoves(Begin(ids), moves).slots| == |ids| && Told(RunMoves(Begin(ids), moves).slots[i], MovesOf(i, moves))
  {
    CountNone(Begin(ids).slots);
    CountedRun(Begin(ids), moves);
    ToldRun(Begin(ids), moves, i, []);
    assert [] + MovesOf(i, moves) == MovesOf(i, moves);
  }

  /** The pool's own cancel finds every slot dead, so a context that is done
      while some slot is not was cancelled by the caller. */
  lemma ByTheCaller(ids: seq<WorkId>, moves: seq<Move>, i: nat)
    requires PossibleRun(Begin(ids), moves) && i < |ids|
    ensures var p := RunMoves(Begin(ids), moves);
            && |p.slots| == |ids| && (!Died(p.slots[i]) ==> (ContextDone(p) <==> CallerCancels in moves))
            && (p.slots[i] == Exited(Cancelled) ==> CallerCancels in moves)
  {
    var p := RunMoves(Begin(ids), moves);
    CountNone(Begin(ids).slots);
    CountedRun(Begin(ids), moves);
    CountAll(p.slots);
    CancelsExplainedRun(Begin(ids), moves);
    assert p.slots[i] in p.slots;
  }

  /** How a slot ends, on every run. It ends retired only after its work function
      retired and the run that followed answered nil; dead only after a permanent
      error that was counted; and cancelled only if the caller cancelled. So while
      the caller does not cancel, nothing but a retirement or a permanent error
      ends a slot. */
  lemma SlotEnds(ids: seq<WorkId>, moves: seq<Move>, i: nat)
    requires PossibleRun(Begin(ids), moves) && i < |ids|
    ensures var p, acts := RunMoves(Begin(ids), moves), MovesOf(i, moves);
            && |p.slots| == |ids|
            && (p.slots[i] == Exited(Retired) ==>
                  |acts| >= 2 && acts[|acts| - 1].RunReturns? && acts[|acts| - 1].err == None && acts[|acts| - 2] == LeaveWork(true))
            && (p.slots[i] == Exited(Dead) ==>
                  |acts| >= 3 && acts[|acts| - 1] == Leave && acts[|acts| - 2] == AddDead && Permanent(Some(acts[|acts| - 3])))
            && (p.slots[i] == Exited(Cancelled) ==> CallerCancels in moves)
  {
    ToldFromStart(ids, moves, i);
    ByTheCaller(ids, moves, i);
    RetiredMoves(RunMoves(Begin(ids), moves).slots[i], MovesOf(i, moves));
  }

  lemma RetiredMoves(phase: Phase, acts: seq<Action>)
    requires Told(phase, acts)
    ensures phase == Exited(Retired) ==>
              |acts| >= 2 && acts[|acts| - 1].RunReturns? && acts[|acts| - 1].err == None && acts[|acts| - 2] == LeaveWork(true)
  {
    if |acts| >= 2 {
      assert acts[..|acts| - 1][|acts| - 2] == acts[|acts| - 2];
    }
  }

  /** What a slot does next, for every answer of its run, told from its own moves
      and the context: the first match wins. */
  lemma AfterReturn(ids: seq<WorkId>, moves: seq<Move>, i: nat, err: GoError, permanent: bool)
    requires PossibleRun(Begin(ids), moves) && i < |ids|
    requires Possible(RunMoves(Begin(ids), moves), Slot(i, RunReturns(err, permanent)))
    ensures var p := RunMoves(Begin(ids), moves);
            var next := Do(p, Slot(i, RunReturns(err, permanent))).slots[i];
            if err == None && Last(MovesOf(i, moves)) == Some(LeaveWork(true)) then next == Exited(Retired)
            else if CallerCancels in moves then next == Exited(Cancelled)
            else if err == None then next == Sleeping(Rerun)
            else if Is(err, IsFenced) then next == Looping
            else if permanent then next == Condemned
            else if Is(err, IsLeaseHeld) then next == Sleeping(Idle)
            else next == Sleeping(Backoff)
  {
    ToldFromStart(ids, moves, i);
    ByTheCaller(ids, moves, i);
  }

  /** What slots do one after another, whatever runs meanwhile, stays within the runs of the pool. */
  lemma ReachedOn(ids: seq<WorkId>, p: Pool, q: Pool, i: nat, acts: seq<Action>)
    requires ReachedFrom(ids, p) && Leads(p, q, i, acts)
    ensures ReachedFrom(ids, q)
  {
    var a :| PossibleRun(Begin(ids), a) && p == RunMoves(Begin(ids), a);
    var b :| PossibleRun(p, b) && q == RunMoves(p, b) && MovesOf(i, b) == acts;
    RunSplit(Begin(ids), a, b);
    assert PossibleRun(Begin(ids), a + b) && q == RunMoves(Begin(ids), a + b);
  }

  /** One round of a slot: whether its work function was entered and retired, what
      its run answered, and whether a context was cancelled by then. */
  datatype Turn = Turn(entered: bool, retired: bool, err: GoError, permanent: bool, done: bool)

  /** The moves of a round up to the answer. */
  function Opening(turn: Turn): seq<Action> {
    (if turn.entered then [EnterWork, LeaveWork(turn.retired)] else []) + [RunReturns(turn.err, turn.permanent)]
  }

  lemma OpeningAddsNothing(turn: Turn, tail: seq<Action>)
    ensures Adds(Opening(turn) + tail) == Adds(tail)
  {
    NoAdds(Opening(turn));
    AddsSplit(Opening(turn), tail);
  }

  /** What follows each answer: the slot's further moves, and whether it is over. */
  predicate Answers(turn: Turn, tail: seq<Action>, exited: bool, phase: Phase) {
    if turn.err == None && turn.retired then tail == [] && exited && phase == Exited(Retired)
    else if turn.done then tail == [] && exited && phase == Exited(Cancelled)
    else if turn.err != None && Is(turn.err, IsFenced) then tail == [] && !exited
    else if turn.err != None && turn.permanent then tail == [AddDead, Leave] && exited && phase == Exited(Dead)
    else if exited then tail == [SleepCut] && phase == Exited(Cancelled)
    else tail == [Wakes]
  }

  /** What the slots share, and the code each of them runs. Between any two steps
      of one slot the others, and the caller, may take any steps of theirs.
      Whatever they do, every slot only ever takes steps of the machine; at is
      where the machine then is. */
  class Shared {
    const ids: seq<WorkId>
    var dead: nat
    var active: set<WorkId>
    var external: bool
    var own: bool
    ghost var at: Pool

    ghost predicate Follows()
      reads this
    {
      && at.ids == ids && |at.slots| == |ids|
      && dead == at.dead && active == at.active && external == at.external && own == at.own
    }

    constructor (ids: seq<WorkId>)
      ensures Follows() && this.ids == ids && at == Begin(ids)
    {
      this.ids := ids;
      dead, active, external, own := 0, {}, false, false;
      at := Begin(ids);
    }

    /** Record the step the code has just taken; from is where the method began. */
    ghost method Meet(from: Pool, acts: seq<Action>, i: nat, act: Action)
      requires Leads(from, at, i, acts) && Possible(at, Slot(i, act))
      modifies this`at
      ensures at == Do(old(at), Slot(i, act)) && Leads(from, at, i, acts + [act])
    {
      LeadsByOne(at, i, act);
      LeadsOn(from, at, Do(at, Slot(i, act)), i, acts, [act]);
      at := Do(at, Slot(i, act));
    }

    /** The others, and the caller, take any steps; slot i takes none. */
    method Others(i: nat)
      requires Follows() && i < |ids|
      modifies this
      ensures Follows() && at.slots[i] == old(at.slots[i])
      ensures Leads(old(at), at, i, [])
    {
      LeadsNowhere(at, i);
    }

    /** One Runner.Run of slot i: either it ends before the work function is
        entered, or the function runs between being marked and unmarked. */
    method RunOnce(i: nat) returns (err: GoError, retired: bool)
      requires Follows() && i < |ids| && at.slots[i] == Looping
      modifies this
      ensures Follows()
      ensures if at.slots[i] == Looping then err != None && !retired && Leads(old(at), at, i, [])
              else at.slots[i] == Cleaning(retired) && Leads(old(at), at, i, [EnterWork, LeaveWork(retired)])
    {
      ghost var from := at;
      Others(i);
      retired := false;
      var entered: bool := *;
      if !entered {
        var failure: Sentinels := *;
        return Some(failure), retired;
      }
      active := active + {ids[i]};
      Meet(from, [], i, EnterWork);
      Interlude(from, [EnterWork], i);
      retired := *;
      active := active - {ids[i]};
      Meet(from, [EnterWork], i, LeaveWork(retired));
      Interlude(from, [EnterWork, LeaveWork(retired)], i);
      err := *;
    }

    /** Others, in the middle of a method that began at from. */
    method Interlude(ghost from: Pool, ghost acts: seq<Action>, i: nat)
      requires Follows() && i < |ids| && Leads(from, at, i, acts)
      modifies this
      ensures Follows() && at.slots[i] == old(at.slots[i])
      ensures Leads(from, at, i, acts) && Leads(old(at), at, i, [])
    {
      Others(i);
      LeadsOn(from, old(at), at, i, acts, []);
      assert acts + [] == acts;
    }

    method Sleep(i: nat, pace: Pace) returns (slept: bool)
      requires Follows() && i < |ids| && at.slots[i] == Sleeping(pace)
      modifies this
      ensures Follows() && at.slots[i] == if slept then Looping else Exited(Cancelled)
      ensures Leads(old(at), at, i, [if slept then Wakes else SleepCut]) && (slept || external || own)
    {
      ghost var from := at;
      Others(i);
      var timer: bool := *;
      if (external || own) && !timer {
        Meet(from, [], i, SleepCut);
        return false;
      }
      Meet(from, [], i, Wakes);
      return true;
    }

    /** A dying slot counts itself, once; the last one cancels the rest. */
    method Die(i: nat) returns (last: bool)
      requires Follows() && i < |ids| && at.slots[i] == Condemned
      modifies this
      ensures Follows() && at.slots[i] == Exited(Dead)
      ensures Leads(old(at), at, i, [AddDead, Leave]) && old(dead) < dead
      ensures last ==> own && |ids| <= dead
    {
      ghost var from := at;
      Others(i);
      dead := dead + 1;
      last := dead == |ids|;
      Meet(from, [], i, AddDead);
      ghost var counted := at;
      Interlude(from, [AddDead], i);
      LeadsGrows(counted, at, i, []);
      if last {
        own := true;
      }
      Meet(from, [AddDead], i, Leave);
      LeadsGrows(from, at, i, [AddDead, Leave]);
    }

    /** One round of slot i: run once, then decide; the first match wins. done
        says that a context was cancelled when it decided. */
    method Round(i: nat) returns (exited: bool, ghost turn: Turn, ghost tail: seq<Action>)
      requires Follows() && i < |ids| && at.slots[i] == Looping
      modifies this
      ensures Follows() && if exited then at.slots[i].Exited? else at.slots[i] == Looping
      ensures Leads(old(at), at, i, Opening(turn) + tail)
      ensures turn.entered || (turn.err != None && !turn.retired)
      ensures Answers(turn, tail, exited, at.slots[i])
      ensures old(external || own) ==> turn.done
      ensures turn.done ==> external || own
      ensures Adds(Opening(turn) + tail) == if at.slots[i] == Exited(Dead) then 1 else 0
    {
      ghost var from := at;
      var err, retired := RunOnce(i);
      ghost var entered := at.slots[i] != Looping;
      var permanent: bool := *;
      turn := Turn(entered, retired, err, permanent, external || own);
      ghost var acts := if entered then [EnterWork, LeaveWork(retired)] else [];
      LeadsGrows(from, at, i, acts);
      Meet(from, acts, i, RunReturns(err, permanent));
      ghost var decided := at;
      exited, tail := Decide(i, turn, err, retired, permanent);
      LeadsOn(from, decided, at, i, Opening(turn), tail);
      LeadsGrows(decided, at, i, tail);
      OpeningAddsNothing(turn, tail);
    }

    /** What slot i does once its run has answered; the first match wins. */
    method Decide(i: nat, ghost turn: Turn, err: GoError, retired: bool, permanent: bool)
      returns (exited: bool, ghost tail: seq<Action>)
      requires Follows() && i < |ids| && turn.err == err && turn.retired == retired && turn.permanent == permanent
      requires turn.done == (external || own) && at.slots[i] == Next(at, retired, err, permanent)
      modifies this
      ensures Follows() && if exited then at.slots[i].Exited? else at.slots[i] == Looping
      ensures Leads(old(at), at, i, tail) && Answers(turn, tail, exited, at.slots[i])
      ensures Adds(tail) == if at.slots[i] == Exited(Dead) then 1 else 0
    {
      LeadsNowhere(at, i);
      tail := [];
      var slept := true;
      if err == None && retired {
        return true, tail;
      } else if external || own {
        return true, tail;
      } else if err == None {
        slept := Sleep(i, Rerun);
      } else if Is(err, IsFenced) {
        return false, tail;
      } else if permanent {
        var last := Die(i);
        return true, [AddDead, Leave];
      } else if Is(err, IsLeaseHeld) {
        slept := Sleep(i, Idle);
      } else {
        slept := Sleep(i, Backoff);
      }
      return !slept, [if slept then Wakes else SleepCut];
    }

    /** The goroutine of slot i, watched for some number of rounds. */
    method Loop(i: nat, rounds: nat) returns (exited: bool, ghost acts: seq<Action>)
      requires Follows() && i < |ids| && at.slots[i] == Looping
      modifies this
      ensures Follows() && if exited then at.slots[i].Exited? else at.slots[i] == Looping
      ensures Leads(old(at), at, i, acts)
      ensures Adds(acts) == if at.slots[i] == Exited(Dead) then 1 else 0
      ensures old(dead) + Adds(acts) <= dead && (old(external) ==> external) && (old(own) ==> own)
    {
      ghost var from := at;
      acts := [];
      exited := false;
      LeadsNowhere(at, i);
      for n := 0 to rounds
        invariant Follows() && at.slots[i] == Looping && !exited
        invariant Leads(from, at, i, acts) && Adds(acts) == 0
      {
        ghost var before := at;
        ghost var turn, tail;
        exited, turn, tail := Round(i);
        LeadsOn(from, before, at, i, acts, Opening(turn) + tail);
        AddsSplit(acts, Opening(turn) + tail);
        acts := acts + (Opening(turn) + tail);
        if exited {
          break;
        }
      }
      LeadsGrows(from, at, i, acts);
    }

    /** What Run returns once wg.Wait has, with every slot gone. */
    method Result() returns (allDead: bool)
      requires Follows() && ReachedFrom(ids, at) && AllExited(at)
      ensures allDead <==> forall s <- at.slots :: s == Exited(Dead)
    {
      ghost var moves :| PossibleRun(Begin(ids), moves) && at == RunMoves(Begin(ids), moves);
      PoolAccounting(ids, moves);
      return dead == |ids|;
    }

    /** With distinct work IDs, as New demands, the list is exact at any moment. */
    method ActiveSlots() returns (result: seq<WorkId>)
      requires Follows() && ReachedFrom(ids, at)
      ensures Distinct(result) && |result| == |active|
      ensures forall x :: x in result <==> x in active
      ensures Distinct(ids) ==> forall x :: x in result <==> Running(at, x)
    {
      result := [];
      var rest := active;
      while rest != {}
        invariant rest <= active && Distinct(result)
        invariant forall x :: x in result <==> x in active && x !in rest
        invariant |result| + |rest| == |active|
        decreases rest
      {
        var id :| id in rest;
        rest := rest - {id};
        result := result + [id];
      }
      ActiveHere();
    }

    lemma ActiveHere()
      requires Follows() && ReachedFrom(ids, at)
      ensures Distinct(ids) ==> ActiveExact(at)
    {
      if Distinct(ids) {
        var moves :| PossibleRun(Begin(ids), moves) && at == RunMoves(Begin(ids), moves);
        ActiveRun(Begin(ids), moves);
      }
    }
  }
}
