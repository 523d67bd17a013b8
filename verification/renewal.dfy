/** The renewal goroutine of StartRenewal: a select loop that renews the lease,
    retries with backoff inside the lease window, and reports every attempt. It
    is given twice, as a step function over everything a select or a clock can
    offer it, and as the loops themselves, which are proved to take only such
    steps. All times here are readings of the local monotonic clock. */
module Renewal {
  import opened Types

  // ---------- Backoff ----------

  datatype Policy = Policy(initial: int, max: int, jitter: real)

  const TWO_63 := 0x8000_0000_0000_0000

  predicate Int64(x: int) {
    -TWO_63 <= x < TWO_63
  }

  /** The sum of two int64s wraps around, and leaves the range by one turn at most. */
  function Wrap64(sum: int): int {
    if sum < -TWO_63 then sum + 2 * TWO_63 else if sum < TWO_63 then sum else sum - 2 * TWO_63
  }

  function NextBackoff(base: int, max: int): int {
    var next := Wrap64(base * 2);
    if next > max then max else next
  }

  /** Doubling with a cap, exactly when the doubled interval still fits an int64. */
  lemma NextBackoffExact(base: int, max: int)
    requires 0 < base <= max < TWO_63
    ensures NextBackoff(base, max) == Min(2 * base, max) <==> 2 * base < TWO_63
  {
  }

  /** What WithRenewalBackoff guarantees, whatever its arguments. */
  predicate Usable(p: Policy) {
    0 < p.initial <= p.max < TWO_63 && 0.0 <= p.jitter <= 1.0
  }

  /** Converting a float64 to a Duration truncates toward zero. */
  function Truncate(x: real): int {
    if x >= 0.0 then x.Floor else -(-x).Floor
  }

  /** All the jitter a base can get; negative once an interval has wrapped around. */
  function FullJitter(p: Policy, base: int): real {
    p.jitter * base as real
  }

  /** What backoffWait answers when the random number is r. */
  function WaitFor(full: real, base: int, r: real): int {
    Wrap64(base + Truncate(full * r))
  }

  /** A jitter that may be drawn: none, or some that stops short of the full one. */
  predicate Drawn(full: real, jitter: int) {
    jitter == 0 || (0 < jitter && jitter as real < full) || (jitter < 0 && full < jitter as real)
  }

  predicate DrawnWait(full: real, base: int, wait: int) {
    Int64(wait) && (Drawn(full, wait - base) || Drawn(full, wait + 2 * TWO_63 - base) || Drawn(full, wait - 2 * TWO_63 - base))
  }

  /** The waits backoffWait may draw: a sum that leaves int64 wraps around. */
  predicate BackoffWait(p: Policy, base: int, wait: int) {
    DrawnWait(FullJitter(p, base), base, wait)
  }

  /** x lies between nothing and all of full, which it does not reach. */
  predicate ShortOf(x: real, full: real) {
    x == 0.0 || 0.0 < x < full || full < x < 0.0
  }

  predicate SmallFor(full: real, base: int) {
    if base >= 0 then 0.0 <= full <= base as real else base as real <= full <= 0.0
  }

  lemma ProductPart(b: real, j: real)
    requires b >= 0.0 && 0.0 <= j <= 1.0
    ensures 0.0 <= j * b <= b
  {
    assert b - j * b == b * (1.0 - j);
  }

  lemma ProductUp(j: real, base: int)
    requires 0.0 <= j <= 1.0 && base >= 0
    ensures SmallFor(j * base as real, base)
  {
    ProductPart(base as real, j);
  }

  lemma ProductDown(j: real, base: int)
    requires 0.0 <= j <= 1.0 && base < 0
    ensures SmallFor(j * base as real, base)
  {
    var b := base as real;
    ProductPart(-b, j);
    assert j * -b == -(j * b);
  }

  lemma FullJitterIsSmall(p: Policy, base: int)
    requires 0.0 <= p.jitter <= 1.0
    ensures SmallFor(FullJitter(p, base), base)
  {
    if base >= 0 {
      ProductUp(p.jitter, base);
    } else {
      ProductDown(p.jitter, base);
    }
  }

  lemma ProductIsShort(full: real, r: real)
    requires 0.0 <= r < 1.0
    ensures ShortOf(full * r, full)
  {
    if full > 0.0 {
      assert 0.0 <= full * r < full;
    } else if full < 0.0 {
      assert full < full * r <= 0.0;
    }
  }

  lemma TruncatedIsDrawn(full: real, x: real)
    requires ShortOf(x, full)
    ensures Drawn(full, Truncate(x))
  {
    assert (-(-x).Floor) as real == -((-x).Floor as real);
  }

  lemma SumIsDrawn(full: real, base: int, jitter: int)
    requires Int64(base) && SmallFor(full, base) && Drawn(full, jitter)
    ensures DrawnWait(full, base, Wrap64(base + jitter))
  {
  }

  /** The jitter behind a wait. */
  lemma JitterOf(full: real, base: int, wait: int) returns (jitter: int)
    requires Int64(base) && SmallFor(full, base) && DrawnWait(full, base, wait)
    ensures Drawn(full, jitter) && wait == Wrap64(base + jitter)
  {
    jitter := if Drawn(full, wait - base) then wait - base
              else if Drawn(full, wait + 2 * TWO_63 - base) then wait + 2 * TWO_63 - base
              else wait - 2 * TWO_63 - base;
  }

  /** The random number behind a jitter. */
  lemma RandomFor(full: real, jitter: int) returns (r: real)
    requires Drawn(full, jitter)
    ensures 0.0 <= r < 1.0 && Truncate(full * r) == jitter
  {
    if jitter == 0 {
      r := 0.0;
    } else {
      r := jitter as real / full;
      assert r * full == jitter as real;
    }
  }

  lemma ShortIsDrawn(full: real, base: int, x: real)
    requires Int64(base) && SmallFor(full, base) && ShortOf(x, full)
    ensures DrawnWait(full, base, Wrap64(base + Truncate(x)))
  {
    TruncatedIsDrawn(full, x);
    SumIsDrawn(full, base, Truncate(x));
  }

  /** Without jitter, or with none drawn, the wait is the base. */
  lemma BaseIsDrawn(p: Policy, base: int)
    requires Int64(base)
    ensures BackoffWait(p, base, base)
  {
  }

  lemma DrawsOnly(full: real, base: int, r: real)
    requires SmallFor(full, base) && Int64(base) && 0.0 <= r < 1.0
    ensures DrawnWait(full, base, WaitFor(full, base, r))
  {
    ProductIsShort(full, r);
    ShortIsDrawn(full, base, full * r);
  }

  lemma NoJitter(p: Policy, base: int, r: real)
    requires p.jitter == 0.0 && Int64(base)
    ensures WaitFor(FullJitter(p, base), base, r) == base
  {
    assert FullJitter(p, base) == 0.0;
    assert FullJitter(p, base) * r == 0.0;
  }

  lemma DrawsAll(full: real, base: int, wait: int) returns (r: real)
    requires SmallFor(full, base) && Int64(base) && DrawnWait(full, base, wait)
    ensures 0.0 <= r < 1.0 && wait == WaitFor(full, base, r)
  {
    var jitter := JitterOf(full, base, wait);
    r := RandomFor(full, jitter);
  }

  /** backoffWait draws exactly these waits: all of them, and no others. */
  lemma WaitsAreDrawn(p: Policy, base: int, wait: int)
    requires 0.0 <= p.jitter <= 1.0 && Int64(base)
    ensures BackoffWait(p, base, wait) <==> exists r: real :: 0.0 <= r < 1.0 && wait == WaitFor(FullJitter(p, base), base, r)
  {
    var full := FullJitter(p, base);
    FullJitterIsSmall(p, base);
    if BackoffWait(p, base, wait) {
      var r := DrawsAll(full, base, wait);
    }
    forall r: real | 0.0 <= r < 1.0 && wait == WaitFor(full, base, r)
      ensures BackoffWait(p, base, wait)
    {
      DrawsOnly(full, base, r);
    }
  }

  /** No sum for this base leaves int64. */
  predicate WaitFits(p: Policy, base: int) {
    base as real + FullJitter(p, base) <= TWO_63 as real
  }

  lemma NeverShort(p: Policy, base: int, wait: int)
    requires 0.0 <= p.jitter <= 1.0 && 0 < base < TWO_63 && WaitFits(p, base) && BackoffWait(p, base, wait)
    ensures base <= wait
  {
    FullJitterIsSmall(p, base);
  }

  lemma WrapsShort(p: Policy, base: int)
    requires 0.0 <= p.jitter <= 1.0 && 0 < base < TWO_63 && !WaitFits(p, base)
    ensures BackoffWait(p, base, -TWO_63)
  {
    assert Drawn(FullJitter(p, base), TWO_63 - base);
  }

  /** A wait is never below its base exactly when no sum can wrap around. */
  lemma WaitNeverShortExactly(p: Policy, base: int)
    requires 0.0 <= p.jitter <= 1.0 && 0 < base < TWO_63
    ensures WaitFits(p, base) <==> forall wait | BackoffWait(p, base, wait) :: base <= wait
  {
    if WaitFits(p, base) {
      forall wait | BackoffWait(p, base, wait)
        ensures base <= wait
      {
        NeverShort(p, base, wait);
      }
    } else {
      WrapsShort(p, base);
    }
  }

  function Pow2(n: nat): nat {
    if n == 0 then 1 else 2 * Pow2(n - 1)
  }

  /** The least wait before retry k, counting from 0. */
  function RetryWait(p: Policy, k: nat): int {
    Min(p.initial * Pow2(k), p.max)
  }

  function TotalWait(p: Policy, n: nat): int {
    if n == 0 then 0 else TotalWait(p, n - 1) + RetryWait(p, n - 1)
  }

  /** Retry k + 1 doubles retry k exactly when the doubled interval fits an int64. */
  lemma RetryWaitDoubles(p: Policy, k: nat)
    requires Usable(p)
    ensures NextBackoff(RetryWait(p, k), p.max) == RetryWait(p, k + 1) <==> 2 * RetryWait(p, k) < TWO_63
    ensures RetryWait(p, k + 1) == Min(2 * RetryWait(p, k), p.max)
    ensures 0 < RetryWait(p, k) <= p.max
  {
    assert p.initial * Pow2(k + 1) == 2 * (p.initial * Pow2(k));
    assert p.initial * Pow2(k) >= 1 by {
      Pow2Positive(k);
    }
    NextBackoffExact(RetryWait(p, k), p.max);
  }

  lemma {:induction false} Pow2Positive(k: nat)
    ensures Pow2(k) >= 1
  {
    if k > 0 {
      Pow2Positive(k - 1);
    }
  }

  lemma {:induction false} TotalWaitGrows(p: Policy, n: nat)
    requires Usable(p)
    ensures n <= n * p.initial <= TotalWait(p, n)
  {
    if n > 0 {
      TotalWaitGrows(p, n - 1);
      Pow2Positive(n - 1);
      assert p.initial * Pow2(n - 1) >= p.initial;
      assert n * p.initial == (n - 1) * p.initial + p.initial;
      assert n <= n * p.initial;
    }
  }

  // ---------- Backoff inside one window ----------

  /** If a window of ttl has room for retry k, then its wait cannot wrap around,
      and nor can the next interval if there is room for one more. */
  predicate RetryFits(p: Policy, ttl: int, k: nat) {
    TotalWait(p, k) < ttl ==>
      WaitFits(p, RetryWait(p, k)) && (TotalWait(p, k + 1) < ttl ==> 2 * RetryWait(p, k) < TWO_63)
  }

  ghost predicate NoOverflow(p: Policy, ttl: int) {
    forall k: nat :: RetryFits(p, ttl, k)
  }

  lemma WaitFitsHalf(p: Policy, base: int)
    requires Usable(p) && 0 < 2 * base <= TWO_63
    ensures WaitFits(p, base)
  {
    FullJitterIsSmall(p, base);
  }

  /** A cap below 2^62 rules overflow out; so does a TTL of at most 2^61 with an
      initial interval of at most 2^62, whatever the cap; and without jitter a
      TTL of at most 2^62 alone. */
  lemma OrdinaryNeverOverflows(p: Policy, ttl: int)
    requires Usable(p)
    requires 2 * p.max < TWO_63 || (2 * p.initial <= TWO_63 && 4 * ttl <= TWO_63) || (p.jitter == 0.0 && 2 * ttl <= TWO_63)
    ensures NoOverflow(p, ttl)
  {
    forall k: nat
      ensures RetryFits(p, ttl, k)
    {
      RetryWaitDoubles(p, k);
      TotalWaitGrows(p, k);
      if p.jitter == 0.0 {
        assert FullJitter(p, RetryWait(p, k)) == 0.0;
      } else if TotalWait(p, k) < ttl {
        if k > 0 {
          TotalWaitGrows(p, k - 1);
          RetryWaitDoubles(p, k - 1);
        } else {
          assert Pow2(0) == 1;
        }
        WaitFitsHalf(p, RetryWait(p, k));
      }
    }
  }

  // ---------- The goroutine as a machine ----------

  datatype AttemptEnd = AttemptReturned | AttemptStopped | AttemptParentDone | AttemptWindowClosed

  datatype Exit = ByStop | ByParent | ByFencing | ByWindow | ByStoredExpiry

  /** Where the goroutine is. first is the clock reading that started the cycle. */
  datatype Phase =
    | Idle
    | Ready(attempt: nat, base: int, first: int)
    | Attempting(attempt: nat, base: int, first: int, start: int)
    | Answered(attempt: nat, base: int, first: int, start: int, end: AttemptEnd, err: GoError)
    | Sleeping(attempt: nat, base: int, first: int, wakes: int)
    | Renewed
    | Exited(why: Exit)

  datatype RenewEvent = OnRenew(attempt: nat, err: GoError)

  /** window belongs to the goroutine; published is what LeaseWindow reads.
      launched counts backend Renew calls, events are the OnRenew reports, fenced
      counts OnFenced, causes are the calls of cancelCause. */
  datatype Loop = Loop(
    phase: Phase, window: int, published: int, lastRead: int,
    launched: nat, events: seq<RenewEvent>, fenced: nat, causes: seq<Sentinels>)

  /** What a select branch, a clock reading or a Renew result brings. */
  datatype Input =
    | Stopped
    | ParentDone
    | WindowClosed(at: int)
    | Ticked(check: int)
    | Launched(start: int)
    | Ended(end: AttemptEnd, err: GoError, at: int)
    | Decide(check: int, wait: int)
    | Woke(check: int)
    | Stored

  function Begin(deadline: int, now: int): Loop {
    Loop(Idle, deadline, deadline, now, 0, [], 0, [])
  }

  predicate Enabled(p: Policy, m: Loop, i: Input) {
    match m.phase
    case Idle => i.Stopped? || i.ParentDone? || (i.WindowClosed? && m.window <= i.at && m.lastRead <= i.at)
                 || (i.Ticked? && m.lastRead <= i.check)
    case Ready(_, _, _) => i.Launched? && m.lastRead <= i.start
    case Attempting(_, _, _, _) =>
      && i.Ended? && m.lastRead <= i.at
      && (i.end.AttemptStopped? ==> i.err == Some({IsCanceled}))
      && (i.end.AttemptParentDone? ==> i.err == Some({IsCanceled}) || i.err == Some({IsDeadlineExceeded}))
      && (i.end.AttemptWindowClosed? ==> i.err == Some({IsDeadlineExceeded}) && m.window <= i.at)
    case Answered(_, base, _, _, _, _) => i.Decide? && m.lastRead <= i.check && BackoffWait(p, base, i.wait)
    case Sleeping(_, _, _, wakes) =>
      || i.Stopped? || i.ParentDone? || (i.WindowClosed? && m.window <= i.at && m.lastRead <= i.at)
      || (i.Woke? && m.lastRead <= i.check && wakes <= i.check)
    case Renewed => i.Stored?
    case Exited(_) => false
  }

  function Leave(m: Loop, why: Exit, cause: Sentinels): Loop {
    m.(phase := Exited(why), causes := m.causes + [cause])
  }

  const EXHAUSTED := {IsWindowExhausted}

  /** An ended attempt decides: exit, advance the window, or back off. */
  function Decided(ttl: int, m: Loop, check: int, wait: int): Loop
    requires m.phase.Answered?
  {
    var Answered(attempt, base, first, start, end, err) := m.phase;
    match end
    case AttemptStopped => m.(phase := Exited(ByStop))
    case AttemptParentDone => m.(phase := Exited(ByParent))
    case AttemptWindowClosed => Leave(m, ByWindow, EXHAUSTED)
    case AttemptReturned =>
      if Is(err, IsFenced) then Leave(m.(fenced := m.fenced + 1), ByFencing, {IsFenced})
      else if Is(err, IsLeaseExpired) then Leave(m, ByStoredExpiry, EXHAUSTED + {IsLeaseExpired})
      else if err == None then m.(window := start + ttl, phase := Renewed)
      else if check >= m.window then Leave(m.(lastRead := check), ByWindow, EXHAUSTED)
      else m.(phase := Sleeping(attempt, base, first, check + wait), lastRead := check)
  }

  function Step(p: Policy, ttl: int, m: Loop, i: Input): Loop {
    match m.phase
    case Idle =>
      if i.Stopped? then m.(phase := Exited(ByStop))
      else if i.ParentDone? then m.(phase := Exited(ByParent))
      else if i.WindowClosed? then Leave(m.(lastRead := i.at), ByWindow, EXHAUSTED)
      else if !i.Ticked? then m
      else if i.check >= m.window then Leave(m.(lastRead := i.check), ByWindow, EXHAUSTED)
      else m.(phase := Ready(1, p.initial, i.check), lastRead := i.check)
    case Ready(attempt, base, first) =>
      if i.Launched? then m.(phase := Attempting(attempt, base, first, i.start), lastRead := i.start, launched := m.launched + 1)
      else m
    case Attempting(attempt, base, first, start) =>
      if i.Ended? then
        m.(phase := Answered(attempt, base, first, start, i.end, i.err), lastRead := i.at,
           events := m.events + [OnRenew(attempt, i.err)])
      else m
    case Answered(_, _, _, _, _, _) => if i.Decide? then Decided(ttl, m, i.check, i.wait) else m
    case Sleeping(attempt, base, first, _) =>
      if i.Stopped? then m.(phase := Exited(ByStop))
      else if i.ParentDone? then m.(phase := Exited(ByParent))
      else if i.WindowClosed? then Leave(m.(lastRead := i.at), ByWindow, EXHAUSTED)
      else if !i.Woke? then m
      else if i.check >= m.window then Leave(m.(lastRead := i.check), ByWindow, EXHAUSTED)
      else m.(phase := Ready(attempt + 1, NextBackoff(base, p.max), first), lastRead := i.check)
    case Renewed => if i.Stored? then m.(published := m.window, phase := Idle) else m
    case Exited(_) => m
  }

  // ---------- What every step keeps ----------

  /** The number that follows an attempt: retries count up, a success starts over. */
  function Following(e: RenewEvent): nat {
    if e.err == None then 1 else e.attempt + 1
  }

  function NextAttempt(events: seq<RenewEvent>): nat {
    if events == [] then 1 else Following(events[|events| - 1])
  }

  ghost predicate Numbered(events: seq<RenewEvent>) {
    && (events != [] ==> events[0].attempt == 1)
    && forall i | 0 < i < |events| :: events[i].attempt == Following(events[i - 1])
  }

  /** The calls of cancelCause that have happened once the goroutine is in a phase. */
  function CausesOf(phase: Phase): seq<Sentinels> {
    match phase
    case Exited(ByFencing) => [{IsFenced}]
    case Exited(ByWindow) => [EXHAUSTED]
    case Exited(ByStoredExpiry) => [EXHAUSTED + {IsLeaseExpired}]
    case _ => []
  }

  ghost predicate NumberedNext(m: Loop) {
    match m.phase
    case Idle => NextAttempt(m.events) == 1
    case Renewed => NextAttempt(m.events) == 1
    case Ready(n, _, _) => NextAttempt(m.events) == n
    case Attempting(n, _, _, _) => NextAttempt(m.events) == n
    case Answered(n, _, _, _, _, err) => |m.events| > 0 && m.events[|m.events| - 1] == OnRenew(n, err)
    case Sleeping(n, _, _, _) => NextAttempt(m.events) == n + 1
    case Exited(why) => why.ByFencing? ==> |m.events| > 0 && Is(m.events[|m.events| - 1].err, IsFenced)
  }

  /** Attempts, events and the cancel cause. */
  ghost predicate Accounted(m: Loop) {
    && Numbered(m.events) && NumberedNext(m)
    && m.launched == |m.events| + (if m.phase.Attempting? then 1 else 0)
    && m.fenced == (if m.phase == Exited(ByFencing) then 1 else 0)
    && m.causes == CausesOf(m.phase)
  }

  /** In a cycle the window stands still; it never lies more than a TTL ahead. */
  ghost predicate WindowKept(ttl: int, m: Loop) {
    && m.window <= m.lastRead + ttl
    && match m.phase
       case Renewed => m.published <= m.window
       case Attempting(_, _, _, start) => m.published == m.window && m.window <= start + ttl && start <= m.lastRead
       case Answered(_, _, _, start, _, _) => m.published == m.window && m.window <= start + ttl && start <= m.lastRead
       case _ => m.published == m.window
  }

  ghost predicate LoopInv(ttl: int, m: Loop) {
    Accounted(m) && WindowKept(ttl, m)
  }

  /** The waits so far fit inside the window. */
  ghost predicate RetriesFit(p: Policy, ttl: int, m: Loop) {
    match m.phase
    case Ready(n, base, first) => AtAttempt(p, ttl, m, n, base, first) && first + TotalWait(p, n - 1) <= m.lastRead
    case Attempting(n, base, first, start) =>
      AtAttempt(p, ttl, m, n, base, first) && first + TotalWait(p, n - 1) <= start <= m.lastRead
    case Answered(n, base, first, start, _, _) =>
      AtAttempt(p, ttl, m, n, base, first) && first + TotalWait(p, n - 1) <= start <= m.lastRead
    case Sleeping(n, base, first, wakes) => AtAttempt(p, ttl, m, n, base, first) && first + TotalWait(p, n - 1) + base <= wakes
    case _ => true
  }

  predicate AtAttempt(p: Policy, ttl: int, m: Loop, n: nat, base: int, first: int) {
    n >= 1 && base == RetryWait(p, n - 1) && first + TotalWait(p, n - 1) < m.window <= first + ttl
  }

  lemma AccountedStep(p: Policy, ttl: int, m: Loop, i: Input)
    requires Accounted(m) && Enabled(p, m, i)
    ensures Accounted(Step(p, ttl, m, i))
  {
  }

  lemma WindowKeptStep(p: Policy, ttl: int, m: Loop, i: Input)
    requires WindowKept(ttl, m) && Enabled(p, m, i)
    ensures WindowKept(ttl, Step(p, ttl, m, i)) && m.lastRead <= Step(p, ttl, m, i).lastRead
  {
  }

  lemma RetriesFitStep(p: Policy, ttl: int, m: Loop, i: Input)
    requires Usable(p) && NoOverflow(p, ttl)
    requires WindowKept(ttl, m) && RetriesFit(p, ttl, m) && Enabled(p, m, i)
    ensures RetriesFit(p, ttl, Step(p, ttl, m, i))
  {
    match m.phase
    case Answered(n, base, _, _, _, _) =>
      assert RetryFits(p, ttl, n - 1);
      RetryWaitDoubles(p, n - 1);
      if BackoffWait(p, base, i.wait) {
        NeverShort(p, base, i.wait);
      }
    case Sleeping(n, base, first, wakes) =>
      assert RetryFits(p, ttl, n - 1);
      RetryWaitDoubles(p, n - 1);
    case _ =>
  }

  // ---------- Whole runs ----------

  function RunLoop(p: Policy, ttl: int, m: Loop, inputs: seq<Input>): Loop {
    if inputs == [] then m
    else Step(p, ttl, RunLoop(p, ttl, m, inputs[..|inputs| - 1]), inputs[|inputs| - 1])
  }

  ghost predicate EnabledRun(p: Policy, ttl: int, m: Loop, inputs: seq<Input>) {
    inputs == []
    || (EnabledRun(p, ttl, m, inputs[..|inputs| - 1])
        && Enabled(p, RunLoop(p, ttl, m, inputs[..|inputs| - 1]), inputs[|inputs| - 1]))
  }

  lemma BeginInv(ttl: int, deadline: int, now: int)
    requires deadline <= now + ttl
    ensures LoopInv(ttl, Begin(deadline, now))
  {
  }

  lemma {:induction false} AccountedRun(p: Policy, ttl: int, m: Loop, inputs: seq<Input>)
    requires Accounted(m) && EnabledRun(p, ttl, m, inputs)
    ensures Accounted(RunLoop(p, ttl, m, inputs))
  {
    if inputs != [] {
      var before := inputs[..|inputs| - 1];
      AccountedRun(p, ttl, m, before);
      AccountedStep(p, ttl, RunLoop(p, ttl, m, before), inputs[|inputs| - 1]);
    }
  }

  lemma {:induction false} WindowKeptRun(p: Policy, ttl: int, m: Loop, inputs: seq<Input>)
    requires WindowKept(ttl, m) && EnabledRun(p, ttl, m, inputs)
    ensures WindowKept(ttl, RunLoop(p, ttl, m, inputs))
  {
    if inputs != [] {
      var before := inputs[..|inputs| - 1];
      WindowKeptRun(p, ttl, m, before);
      WindowKeptStep(p, ttl, RunLoop(p, ttl, m, before), inputs[|inputs| - 1]);
    }
  }

  lemma {:induction false} RetriesFitRun(p: Policy, ttl: int, m: Loop, inputs: seq<Input>)
    requires Usable(p) && NoOverflow(p, ttl)
    requires WindowKept(ttl, m) && RetriesFit(p, ttl, m) && EnabledRun(p, ttl, m, inputs)
    ensures RetriesFit(p, ttl, RunLoop(p, ttl, m, inputs))
  {
    if inputs != [] {
      var before := inputs[..|inputs| - 1];
      WindowKeptRun(p, ttl, m, before);
      RetriesFitRun(p, ttl, m, before);
      RetriesFitStep(p, ttl, RunLoop(p, ttl, m, before), inputs[|inputs| - 1]);
    }
  }

  /** On every run: the cause is set at most once, and never on the stop and
      parent paths; every backend Renew is reported by exactly one OnRenew,
      numbered 1, 2, … within its cycle; OnFenced fires exactly once, on exit
      with cause ErrFenced, after an OnRenew that carried it. */
  lemma RenewalAccounting(p: Policy, ttl: int, deadline: int, now: int, inputs: seq<Input>)
    requires EnabledRun(p, ttl, Begin(deadline, now), inputs)
    ensures var m := RunLoop(p, ttl, Begin(deadline, now), inputs);
            && |m.causes| <= 1
            && (m.causes != [] ==> m.phase.Exited? && !m.phase.why.ByStop? && !m.phase.why.ByParent?)
            && (forall c <- m.causes :: IsFenced in c || IsWindowExhausted in c)
            && |m.events| <= m.launched <= |m.events| + 1
            && (m.launched != |m.events| ==> m.phase.Attempting?)
            && Numbered(m.events)
            && (m.fenced == 1 <==> m.causes == [{IsFenced}]) && m.fenced <= 1
            && (m.fenced == 1 ==> |m.events| > 0 && Is(m.events[|m.events| - 1].err, IsFenced))
  {
    AccountedRun(p, ttl, Begin(deadline, now), inputs);
    assert {IsWindowExhausted} != {IsFenced} by {
      assert IsWindowExhausted !in {IsFenced};
    }
    assert EXHAUSTED + {IsLeaseExpired} != {IsFenced} by {
      assert IsWindowExhausted in EXHAUSTED + {IsLeaseExpired};
    }
  }

  predicate InCycle(phase: Phase) {
    phase.Ready? || phase.Attempting? || phase.Answered? || phase.Sleeping?
  }

  /** On every run, while a cycle that started at reading first is at its n-th
      attempt: the window has not moved since, and the least waits before its
      n - 1 retries fit strictly inside what was left of it. So a cycle makes
      only so many attempts. AttemptsFitExactly says when overflow is ruled out. */
  lemma AttemptsFitWindow(p: Policy, ttl: int, deadline: int, now: int, inputs: seq<Input>)
    requires Usable(p) && NoOverflow(p, ttl)
    requires deadline <= now + ttl && EnabledRun(p, ttl, Begin(deadline, now), inputs)
    requires InCycle(RunLoop(p, ttl, Begin(deadline, now), inputs).phase)
    ensures var m := RunLoop(p, ttl, Begin(deadline, now), inputs);
            var left := m.window - m.phase.first;
            && m.window == m.published
            && m.phase.attempt >= 1
            && TotalWait(p, m.phase.attempt - 1) < left <= ttl
            && (m.phase.attempt - 1) * p.initial < left
            && m.phase.attempt <= left
  {
    WindowKeptRun(p, ttl, Begin(deadline, now), inputs);
    RetriesFitRun(p, ttl, Begin(deadline, now), inputs);
    var m := RunLoop(p, ttl, Begin(deadline, now), inputs);
    AttemptBound(p, ttl, m, m.phase.attempt, m.phase.base, m.phase.first);
  }

  lemma AttemptBound(p: Policy, ttl: int, m: Loop, n: nat, base: int, first: int)
    requires Usable(p) && AtAttempt(p, ttl, m, n, base, first)
    ensures (n - 1) * p.initial < m.window - first && n <= m.window - first
  {
    TotalWaitGrows(p, n - 1);
  }

  /** Neither the tracked nor the published window ever moves backwards. */
  lemma WindowNeverMovesBack(p: Policy, ttl: int, m: Loop, i: Input)
    requires WindowKept(ttl, m) && Enabled(p, m, i)
    ensures var m' := Step(p, ttl, m, i); m.window <= m'.window && m.published <= m'.published <= m'.window
  {
  }

  // ---------- What each input brings about ----------

  /** The local start of the last Renew call. */
  function LastLaunch(inputs: seq<Input>): Option<int> {
    if inputs == [] then None
    else
      match inputs[|inputs| - 1]
      case Launched(start) => Some(start)
      case _ => LastLaunch(inputs[..|inputs| - 1])
  }

  /** The last two inputs are a Renew call that returned nil and its evaluation. */
  predicate JustRenewed(inputs: seq<Input>) {
    && |inputs| >= 2 && inputs[|inputs| - 1].Decide?
    && var result := inputs[|inputs| - 2]; result.Ended? && result.end.AttemptReturned? && result.err == None
  }

  /** The window that the history of a goroutine gives: the deadline, until a
      Renew returns nil, and then the start of that call plus TTL. */
  function WindowAfter(deadline: int, ttl: int, inputs: seq<Input>): int {
    if inputs == [] then deadline
    else if JustRenewed(inputs) && LastLaunch(inputs).Some? then LastLaunch(inputs).value + ttl
    else WindowAfter(deadline, ttl, inputs[..|inputs| - 1])
  }

  /** And the window it has published by then. */
  function PublishedAfter(deadline: int, ttl: int, inputs: seq<Input>): int {
    if inputs == [] then deadline
    else if inputs[|inputs| - 1].Stored? then WindowAfter(deadline, ttl, inputs)
    else PublishedAfter(deadline, ttl, inputs[..|inputs| - 1])
  }

  /** Where the goroutine is, told from the last input. */
  ghost predicate Tracks(m: Loop, inputs: seq<Input>) {
    && (m.phase.Attempting? ==> LastLaunch(inputs) == Some(m.phase.start))
    && (m.phase.Answered? ==> LastLaunch(inputs) == Some(m.phase.start))
    && (m.phase.Answered? <==> inputs != [] && inputs[|inputs| - 1].Ended?)
    && (m.phase.Answered? ==>
          inputs[|inputs| - 1].end == m.phase.end && inputs[|inputs| - 1].err == m.phase.err)
    && (m.phase.Renewed? <==> JustRenewed(inputs))
  }

  lemma TracksNext(p: Policy, ttl: int, m: Loop, inputs: seq<Input>, i: Input)
    requires Tracks(m, inputs) && Enabled(p, m, i)
    ensures Tracks(Step(p, ttl, m, i), inputs + [i])
  {
    var longer := inputs + [i];
    assert longer[..|longer| - 1] == inputs;
    assert |longer| >= 2 ==> longer[|longer| - 2] == inputs[|inputs| - 1];
  }

  lemma {:induction false} TracksRun(p: Policy, ttl: int, deadline: int, now: int, inputs: seq<Input>)
    requires EnabledRun(p, ttl, Begin(deadline, now), inputs)
    ensures Tracks(RunLoop(p, ttl, Begin(deadline, now), inputs), inputs)
  {
    if inputs != [] {
      var before := inputs[..|inputs| - 1];
      TracksRun(p, ttl, deadline, now, before);
      assert before + [inputs[|inputs| - 1]] == inputs;
      TracksNext(p, ttl, RunLoop(p, ttl, Begin(deadline, now), before), before, inputs[|inputs| - 1]);
    }
  }

  /** On every run the tracked window is exactly the deadline until the first
      Renew that returned nil, and from then on the local start of the last one
      plus TTL; what is published is the tracked window when it was last stored. */
  lemma {:induction false} WindowIsLastSuccess(p: Policy, ttl: int, deadline: int, now: int, inputs: seq<Input>)
    requires EnabledRun(p, ttl, Begin(deadline, now), inputs)
    ensures var m := RunLoop(p, ttl, Begin(deadline, now), inputs);
            m.window == WindowAfter(deadline, ttl, inputs) && m.published == PublishedAfter(deadline, ttl, inputs)
    ensures JustRenewed(inputs) ==>
              var m := RunLoop(p, ttl, Begin(deadline, now), inputs);
              m.phase.Renewed? && LastLaunch(inputs).Some? && m.window == LastLaunch(inputs).value + ttl
  {
    if inputs != [] {
      var before, last := inputs[..|inputs| - 1], inputs[|inputs| - 1];
      WindowIsLastSuccess(p, ttl, deadline, now, before);
      TracksRun(p, ttl, deadline, now, before);
      TracksRun(p, ttl, deadline, now, inputs);
      assert last.Decide? && |inputs| >= 2 ==> inputs[|inputs| - 2] == before[|before| - 1];
    }
  }

  /** The inputs that end the goroutine, given its window. */
  predicate Ends(window: int, inputs: seq<Input>)
    requires inputs != []
  {
    match inputs[|inputs| - 1]
    case Stopped => true
    case ParentDone => true
    case WindowClosed(_) => true
    case Ticked(check) => check >= window
    case Woke(check) => check >= window
    case Decide(check, _) =>
      |inputs| >= 2 && inputs[|inputs| - 2].Ended? &&
      var result := inputs[|inputs| - 2];
      || !result.end.AttemptReturned? || Is(result.err, IsFenced) || Is(result.err, IsLeaseExpired)
      || (result.err != None && check >= window)
    case _ => false
  }

  /** And the causes they leave. */
  function CausesLeft(inputs: seq<Input>): seq<Sentinels>
    requires inputs != []
  {
    match inputs[|inputs| - 1]
    case Stopped => []
    case ParentDone => []
    case Decide(_, _) =>
      if |inputs| < 2 || !inputs[|inputs| - 2].Ended? then []
      else
        var result := inputs[|inputs| - 2];
        if result.end.AttemptStopped? || result.end.AttemptParentDone? then []
        else if result.end.AttemptWindowClosed? then [{IsWindowExhausted}]
        else if Is(result.err, IsFenced) then [{IsFenced}]
        else if Is(result.err, IsLeaseExpired) then [{IsWindowExhausted, IsLeaseExpired}]
        else [{IsWindowExhausted}]
    case _ => [{IsWindowExhausted}]
  }

  /** On every run: the goroutine exits exactly at such an input, with exactly
      that cause; OnFenced is called exactly when it is ErrFenced. */
  lemma ExitsAreExplained(p: Policy, ttl: int, deadline: int, now: int, inputs: seq<Input>)
    requires inputs != [] && EnabledRun(p, ttl, Begin(deadline, now), inputs)
    ensures var m := RunLoop(p, ttl, Begin(deadline, now), inputs);
            && (m.phase.Exited? <==> Ends(WindowAfter(deadline, ttl, inputs[..|inputs| - 1]), inputs))
            && (m.phase.Exited? ==> m.causes == CausesLeft(inputs) && m.fenced == if CausesLeft(inputs) == [{IsFenced}] then 1 else 0)
            && (!m.phase.Exited? ==> m.causes == [] && m.fenced == 0)
  {
    var before, last := inputs[..|inputs| - 1], inputs[|inputs| - 1];
    var m := RunLoop(p, ttl, Begin(deadline, now), before);
    WindowIsLastSuccess(p, ttl, deadline, now, before);
    TracksRun(p, ttl, deadline, now, before);
    AccountedRun(p, ttl, Begin(deadline, now), before);
    assert last.Decide? ==> inputs[|inputs| - 2] == before[|before| - 1];
    assert EXHAUSTED + {IsLeaseExpired} == {IsWindowExhausted, IsLeaseExpired};
    assert IsWindowExhausted in {IsWindowExhausted} && IsWindowExhausted !in {IsFenced};
    assert IsWindowExhausted in {IsWindowExhausted, IsLeaseExpired};
  }

  /** And what it does at any other input: it attempts at a tick and after a
      backoff, sleeps out the wait that was drawn after a failure, and goes back
      to waiting for ticks after a success. */
  lemma GoesOn(p: Policy, ttl: int, deadline: int, now: int, inputs: seq<Input>)
    requires inputs != [] && EnabledRun(p, ttl, Begin(deadline, now), inputs)
    requires !Ends(WindowAfter(deadline, ttl, inputs[..|inputs| - 1]), inputs)
    ensures var before := RunLoop(p, ttl, Begin(deadline, now), inputs[..|inputs| - 1]);
            var m := RunLoop(p, ttl, Begin(deadline, now), inputs);
            var i := inputs[|inputs| - 1];
            && (i.Ticked? ==> m.phase == Ready(1, p.initial, i.check))
            && (i.Launched? ==> m.phase.Attempting? && m.phase.start == i.start && m.launched == before.launched + 1)
            && (i.Ended? ==> m.events == before.events + [OnRenew(NextAttempt(before.events), i.err)])
            && (i.Decide? && JustRenewed(inputs) ==> m.phase.Renewed?)
            && (i.Decide? && !JustRenewed(inputs) ==>
                  m.phase.Sleeping? && m.phase.wakes == i.check + i.wait && BackoffWait(p, m.phase.base, i.wait))
            && (i.Woke? ==>
                  && before.phase.Sleeping? && before.phase.wakes <= i.check
                  && m.phase == Ready(before.phase.attempt + 1, NextBackoff(before.phase.base, p.max), before.phase.first))
            && (i.Stored? ==> m.phase.Idle? && m.published == WindowAfter(deadline, ttl, inputs))
  {
    var before := inputs[..|inputs| - 1];
    WindowIsLastSuccess(p, ttl, deadline, now, before);
    WindowIsLastSuccess(p, ttl, deadline, now, inputs);
    TracksRun(p, ttl, deadline, now, before);
    AccountedRun(p, ttl, Begin(deadline, now), before);
    assert inputs[|inputs| - 1].Decide? ==> inputs[|inputs| - 2] == before[|before| - 1];
  }

  /** m is where some enabled run from start leads. */
  ghost predicate Reached(p: Policy, ttl: int, start: Loop, m: Loop) {
    exists inputs :: EnabledRun(p, ttl, start, inputs) && m == RunLoop(p, ttl, start, inputs)
  }

  lemma ReachedStart(p: Policy, ttl: int, start: Loop)
    ensures Reached(p, ttl, start, start)
  {
    assert EnabledRun(p, ttl, start, []) && start == RunLoop(p, ttl, start, []);
  }

  lemma ReachedNext(p: Policy, ttl: int, start: Loop, m: Loop, i: Input)
    requires Reached(p, ttl, start, m) && Enabled(p, m, i)
    ensures Reached(p, ttl, start, Step(p, ttl, m, i))
  {
    var inputs :| EnabledRun(p, ttl, start, inputs) && m == RunLoop(p, ttl, start, inputs);
    var longer := inputs + [i];
    assert longer[..|longer| - 1] == inputs;
    assert EnabledRun(p, ttl, start, longer) && Step(p, ttl, m, i) == RunLoop(p, ttl, start, longer);
  }

  lemma ReachedInv(p: Policy, ttl: int, start: Loop, m: Loop)
    requires LoopInv(ttl, start) && Reached(p, ttl, start, m)
    ensures LoopInv(ttl, m)
  {
    var inputs :| EnabledRun(p, ttl, start, inputs) && m == RunLoop(p, ttl, start, inputs);
    AccountedRun(p, ttl, start, inputs);
    WindowKeptRun(p, ttl, start, inputs);
  }

  // ---------- When exactly attempts are bounded ----------

  /** The waits asked for before this attempt fit in what the window had left. */
  predicate Paced(p: Policy, m: Loop) {
    InCycle(m.phase) ==> m.phase.attempt >= 1 && TotalWait(p, m.phase.attempt - 1) < m.window - m.phase.first
  }

  ghost predicate AlwaysPaced(p: Policy, ttl: int) {
    forall deadline: int, now: int, m: Loop |
      deadline <= now + ttl && Reached(p, ttl, Begin(deadline, now), m) :: Paced(p, m)
  }

  /** From an attempt, a failure that is retried after wait, at reading at. */
  lemma RetryOnce(p: Policy, ttl: int, start: Loop, m: Loop, wait: int, at: int) returns (m': Loop)
    requires Reached(p, ttl, start, m) && m.phase.Ready? && BackoffWait(p, m.phase.base, wait)
    requires m.lastRead + wait <= at && m.lastRead <= at < m.window
    ensures Reached(p, ttl, start, m') && m'.window == m.window && m'.lastRead == at
    ensures m'.phase == Ready(m.phase.attempt + 1, NextBackoff(m.phase.base, p.max), m.phase.first)
  {
    var failed: GoError := Some({});
    ReachedNext(p, ttl, start, m, Launched(m.lastRead));
    var launched := Step(p, ttl, m, Launched(m.lastRead));
    ReachedNext(p, ttl, start, launched, Ended(AttemptReturned, failed, m.lastRead));
    var answered := Step(p, ttl, launched, Ended(AttemptReturned, failed, m.lastRead));
    ReachedNext(p, ttl, start, answered, Decide(m.lastRead, wait));
    var sleeping := Step(p, ttl, answered, Decide(m.lastRead, wait));
    ReachedNext(p, ttl, start, sleeping, Woke(at));
    m' := Step(p, ttl, sleeping, Woke(at));
  }

  /** As long as nothing overflows, a window of left has k retries after the least waits. */
  lemma {:induction false} RetryOften(p: Policy, ttl: int, left: int, k: nat) returns (m: Loop)
    requires Usable(p) && TotalWait(p, k) < left <= ttl && forall j: nat | j < k :: RetryFits(p, ttl, j)
    ensures Reached(p, ttl, Begin(left, 0), m) && m.window == left && m.lastRead == TotalWait(p, k)
    ensures m.phase == Ready(k + 1, RetryWait(p, k), 0)
  {
    if k == 0 {
      assert Pow2(0) == 1;
      ReachedStart(p, ttl, Begin(left, 0));
      ReachedNext(p, ttl, Begin(left, 0), Begin(left, 0), Ticked(0));
      m := Step(p, ttl, Begin(left, 0), Ticked(0));
    } else {
      RetryWaitDoubles(p, k - 1);
      var before := RetryOften(p, ttl, left, k - 1);
      assert RetryFits(p, ttl, k - 1);
      m := RetryOnce(p, ttl, Begin(left, 0), before, RetryWait(p, k - 1), TotalWait(p, k));
    }
  }

  lemma Unpaced(p: Policy, ttl: int, left: int, m: Loop)
    requires left <= ttl && Reached(p, ttl, Begin(left, 0), m) && !Paced(p, m)
    ensures !AlwaysPaced(p, ttl)
  {
  }

  /** Attempt k + 1 is the last the least waits leave room for, but its wait is none. */
  lemma TooEarly(p: Policy, ttl: int, left: int, m: Loop, k: nat, wait: int)
    requires Usable(p) && left == TotalWait(p, k) + 1 <= ttl
    requires Reached(p, ttl, Begin(left, 0), m) && m.window == left && m.lastRead < left
    requires m.phase.Ready? && m.phase.attempt == k + 1 && m.phase.first == 0
    requires wait <= 0 && BackoffWait(p, m.phase.base, wait)
    ensures !AlwaysPaced(p, ttl)
  {
    var early := RetryOnce(p, ttl, Begin(left, 0), m, wait, m.lastRead);
    RetryWaitDoubles(p, k);
    Unpaced(p, ttl, left, early);
  }

  /** A wait that wraps around lets an attempt come too early. */
  lemma EarlyWait(p: Policy, ttl: int, k: nat)
    requires Usable(p) && (forall j: nat | j < k :: RetryFits(p, ttl, j))
    requires TotalWait(p, k) < ttl && !WaitFits(p, RetryWait(p, k))
    ensures !AlwaysPaced(p, ttl)
  {
    var m := RetryOften(p, ttl, TotalWait(p, k) + 1, k);
    RetryWaitDoubles(p, k);
    WrapsShort(p, RetryWait(p, k));
    TooEarly(p, ttl, TotalWait(p, k) + 1, m, k, -TWO_63);
  }

  /** So does an interval that wraps around: it is negative, and so is the wait after it. */
  lemma EarlyInterval(p: Policy, ttl: int, k: nat)
    requires Usable(p) && (forall j: nat | j < k :: RetryFits(p, ttl, j))
    requires TotalWait(p, k + 1) < ttl && 2 * RetryWait(p, k) >= TWO_63
    ensures !AlwaysPaced(p, ttl)
  {
    var left, wait := TotalWait(p, k + 1) + 1, RetryWait(p, k);
    RetryWaitDoubles(p, k);
    var m := RetryOften(p, ttl, left, k);
    BaseIsDrawn(p, wait);
    var wrapped := RetryOnce(p, ttl, Begin(left, 0), m, wait, TotalWait(p, k + 1));
    assert wrapped.phase == Ready(k + 2, 2 * wait - 2 * TWO_63, 0);
    BaseIsDrawn(p, wrapped.phase.base);
    TooEarly(p, ttl, left, wrapped, k + 1, wrapped.phase.base);
  }

  lemma {:induction false} Overrun(p: Policy, ttl: int, k: nat)
    requires Usable(p) && !RetryFits(p, ttl, k)
    ensures !AlwaysPaced(p, ttl)
  {
    if j: nat :| j < k && !RetryFits(p, ttl, j) {
      Overrun(p, ttl, j);
    } else if !WaitFits(p, RetryWait(p, k)) {
      EarlyWait(p, ttl, k);
    } else {
      EarlyInterval(p, ttl, k);
    }
  }

  /** For every policy an option can store and every TTL: all attempts of all
      runs are paced if and only if no wait or interval that the window has room
      for wraps around. */
  lemma AttemptsFitExactly(p: Policy, ttl: int)
    requires Usable(p)
    ensures AlwaysPaced(p, ttl) <==> NoOverflow(p, ttl)
  {
    if NoOverflow(p, ttl) {
      forall deadline: int, now: int, m: Loop | deadline <= now + ttl && Reached(p, ttl, Begin(deadline, now), m)
        ensures Paced(p, m)
      {
        var inputs :| EnabledRun(p, ttl, Begin(deadline, now), inputs) && m == RunLoop(p, ttl, Begin(deadline, now), inputs);
        RetriesFitRun(p, ttl, Begin(deadline, now), inputs);
      }
    } else {
      var k: nat :| !RetryFits(p, ttl, k);
      Overrun(p, ttl, k);
    }
  }

  // ---------- Options ----------

  /** The options that shape renewal; each With… option writes the fields it sets. */
  class RenewalConfig {
    var interval: int
    var backoffInitial: int
    var backoffMax: int
    var backoffJitter: real

    constructor (ttl: int)
      ensures interval == if ttl >= 2 then ttl / 2 else 1
      ensures backoffInitial == 100 * MILLISECOND && backoffMax == 5000 * MILLISECOND && backoffJitter == 0.2
      ensures forall window :: NoOverflow(Chosen(), window)
    {
      interval := if ttl / 2 > 1 then ttl / 2 else 1;
      backoffInitial, backoffMax, backoffJitter := 100 * MILLISECOND, 5000 * MILLISECOND, 0.2;
      new;
      forall window {
        OrdinaryNeverOverflows(Chosen(), window);
      }
    }

    ghost function Chosen(): Policy
      reads this
    {
      Policy(backoffInitial, backoffMax, backoffJitter)
    }

    /** Any arguments at all leave a usable policy; usable ones are kept as given. */
    method WithRenewalBackoff(initial: int, maxInterval: int, jitter: real)
      modifies this`backoffInitial, this`backoffMax, this`backoffJitter
      ensures 0 < backoffInitial <= backoffMax && 0.0 <= backoffJitter <= 1.0
      ensures backoffMax == if maxInterval > 0 then maxInterval else MILLISECOND
      ensures 0 < initial <= backoffMax ==> backoffInitial == initial
      ensures initial > backoffMax ==> backoffInitial == backoffMax
      ensures initial <= 0 ==> backoffInitial == Min(MILLISECOND, backoffMax)
      ensures 0.0 <= jitter <= 1.0 ==> backoffJitter == jitter
      ensures jitter < 0.0 ==> backoffJitter == 0.0
      ensures jitter > 1.0 ==> backoffJitter == 1.0
      ensures maxInterval < TWO_63 ==> Usable(Chosen())
    {
      var initial, maxInterval, jitter := initial, maxInterval, jitter;
      if initial <= 0 {
        initial := MILLISECOND;
      }
      if maxInterval <= 0 {
        maxInterval := MILLISECOND;
      }
      if jitter < 0.0 {
        jitter := 0.0;
      }
      if jitter > 1.0 {
        jitter := 1.0;
      }
      if initial > maxInterval {
        initial := maxInterval;
      }
      backoffInitial, backoffMax, backoffJitter := initial, maxInterval, jitter;
    }
  }

  // ---------- The goroutine as it is written ----------

  /** The loops over their variables. Whatever the scheduler, the clock and the
      backend do, the goroutine only ever takes enabled steps of the machine; at is
      where the machine then is. */
  class Goroutine {
    const policy: Policy
    const ttl: int
    ghost const deadline: int
    ghost const started: int
    var clock: int
    var window: int
    var published: int
    var launched: nat
    var events: seq<RenewEvent>
    var fenced: nat
    var causes: seq<Sentinels>
    ghost var at: Loop

    ghost predicate Follows()
      reads this
    {
      && Usable(policy) && deadline <= started + ttl
      && Reached(policy, ttl, Begin(deadline, started), at)
      && at.lastRead <= clock
      && window == at.window && published == at.published && launched == at.launched
      && events == at.events && fenced == at.fenced && causes == at.causes
    }

    constructor (policy: Policy, ttl: int, deadline: int, now: int)
      requires Usable(policy) && deadline <= now + ttl
      ensures Follows() && at.phase.Idle? && window == deadline
      ensures this.policy == policy && this.ttl == ttl
    {
      this.policy, this.ttl, this.deadline, this.started := policy, ttl, deadline, now;
      clock, window, published := now, deadline, deadline;
      launched, events, fenced, causes := 0, [], 0, [];
      at := Begin(deadline, now);
      ReachedStart(policy, ttl, Begin(deadline, now));
    }

    /** Record the step the code below is about to take, or has just taken. */
    ghost method Meet(i: Input)
      requires Reached(policy, ttl, Begin(deadline, started), at) && Enabled(policy, at, i)
      modifies this`at
      ensures Reached(policy, ttl, Begin(deadline, started), at) && at == Step(policy, ttl, old(at), i)
    {
      ReachedNext(policy, ttl, Begin(deadline, started), at, i);
      at := Step(policy, ttl, at, i);
    }

    method Now() returns (t: int)
      modifies this`clock
      ensures t == clock && old(clock) <= clock
    {
      var d :| d >= 0;
      clock := clock + d;
      return clock;
    }

    /** Block until some branch of a select is ready: something that happens
        elsewhere, or a timer set for until. Several may be ready at once. */
    method Await(until: int) returns (other: bool, stop: bool, parent: bool, timer: bool)
      modifies this`clock
      ensures old(clock) <= clock && (other || stop || parent || timer) && (timer ==> until <= clock)
    {
      var d :| d >= 0;
      clock := clock + d;
      other, stop, parent, timer := *, *, *, *;
      if !other && !stop && !parent && clock < until {
        clock := until;
      }
      timer := (timer || (!other && !stop && !parent)) && until <= clock;
    }

    method RenewAttempt(attempt: nat) returns (start: int, end: AttemptEnd, err: GoError)
      requires Follows() && at.phase.Ready? && at.phase.attempt == attempt
      modifies this
      ensures Follows() && window == old(window) && published == old(published) && old(clock) <= start <= clock
      ensures at.phase == Answered(attempt, old(at.phase.base), old(at.phase.first), start, end, err)
    {
      start := Now();
      launched := launched + 1;
      Meet(Launched(start));
      var res, stop, parent, timer := Await(window);
      if {
        case res =>
          end := AttemptReturned;
          err := *;
        case stop =>
          end, err := AttemptStopped, Some({IsCanceled});
        case parent =>
          var deadlineExceeded: bool := *;
          end, err := AttemptParentDone, Some(if deadlineExceeded then {IsDeadlineExceeded} else {IsCanceled});
        case timer =>
          end, err := AttemptWindowClosed, Some({IsDeadlineExceeded});
      }
      Meet(Ended(end, err, clock));
      events := events + [OnRenew(attempt, err)];
    }

    method CancelCause(cause: Sentinels)
      modifies this`causes
      ensures causes == old(causes) + [cause]
    {
      causes := causes + [cause];
    }

    /** backoffWait, when the random number is r. */
    method DrawWait(base: int, r: real) returns (wait: int)
      requires Usable(policy) && Int64(base) && 0.0 <= r < 1.0
      ensures BackoffWait(policy, base, wait) && wait == WaitFor(FullJitter(policy, base), base, r)
    {
      if policy.jitter <= 0.0 {
        BaseIsDrawn(policy, base);
        NoJitter(policy, base, r);
        return base;
      }
      FullJitterIsSmall(policy, base);
      DrawsOnly(FullJitter(policy, base), base, r);
      return Wrap64(base + Truncate(FullJitter(policy, base) * r));
    }

    /** After a non-fencing error: wait out the backoff, unless the window closes
        or the goroutine is told to leave first. */
    method Backoff(base: int) returns (again: bool)
      requires Follows() && at.phase.Answered? && at.phase.base == base && Int64(base)
      requires at.phase.end.AttemptReturned? && at.phase.err.Some?
      requires !Is(at.phase.err, IsFenced) && !Is(at.phase.err, IsLeaseExpired)
      modifies this
      ensures Follows() && window == old(window) && published == old(published) && old(clock) <= clock
      ensures again ==> old(clock) <= clock < window && (WaitFits(policy, base) ==> old(clock) + base <= clock)
      ensures again ==> at.phase == Ready(old(at.phase.attempt) + 1, NextBackoff(base, policy.max), old(at.phase.first))
      ensures !again ==> at.phase.Exited?
    {
      var check := Now();
      var r: real :| 0.0 <= r < 1.0;
      var wait := DrawWait(base, r);
      if 0 < base && WaitFits(policy, base) {
        NeverShort(policy, base, wait);
      }
      Meet(Decide(check, wait));
      if !(check < window) {
        CancelCause(EXHAUSTED);
        return false;
      }
      again := Sleep(check + wait);
    }

    /** The select of a backoff, with a timer that fires at wakes. */
    method Sleep(wakes: int) returns (again: bool)
      requires Follows() && at.phase.Sleeping? && at.phase.wakes == wakes
      modifies this
      ensures Follows() && window == old(window) && published == old(published) && old(clock) <= clock
      ensures again ==> old(clock) <= clock < window && wakes <= clock
      ensures again ==>
                at.phase == Ready(old(at.phase.attempt) + 1, NextBackoff(old(at.phase.base), policy.max), old(at.phase.first))
      ensures !again ==> at.phase.Exited?
    {
      var woke, stop, parent, timer := Await(window);
      if {
        case stop =>
          Meet(Stopped);
          return false;
        case parent =>
          Meet(ParentDone);
          return false;
        case timer =>
          Meet(WindowClosed(clock));
          CancelCause(EXHAUSTED);
          return false;
        case woke =>
          if clock < wakes {
            clock := wakes;
          }
      }
      var check := Now();
      Meet(Woke(check));
      if !(check < window) {
        CancelCause(EXHAUSTED);
        return false;
      }
      return true;
    }

    /** The ends of an attempt that end its cycle. */
    method Conclude(ghost base: int, start: int, end: AttemptEnd, err: GoError) returns (renewed: bool)
      requires Follows() && at.phase.Answered? && at.phase.base == base && Int64(base)
      requires at.phase.start == start && at.phase.end == end && at.phase.err == err
      requires end == AttemptReturned ==> err == None || Is(err, IsFenced) || Is(err, IsLeaseExpired)
      modifies this
      ensures Follows() && published == old(published) && clock == old(clock)
      ensures if renewed then at.phase.Renewed? && window == start + ttl else at.phase.Exited? && window == old(window)
      ensures renewed <==> end.AttemptReturned? && err == None
    {
      Meet(Decide(clock, base));
      if end == AttemptStopped || end == AttemptParentDone {
        return false;
      }
      if end == AttemptWindowClosed {
        CancelCause(EXHAUSTED);
        return false;
      }
      if Is(err, IsFenced) {
        fenced := fenced + 1;
        CancelCause({IsFenced});
        return false;
      } else if Is(err, IsLeaseExpired) {
        CancelCause(EXHAUSTED + {IsLeaseExpired});
        return false;
      }
      window := start + ttl;
      return true;
    }

    /** One cycle, watched for some number of retries. It ends before they are used
        up when there are as many as the window had nanoseconds left and nothing
        overflows. */
    method RenewCycle(retries: nat) returns (ended: bool, renewed: bool, ghost start: int)
      requires Follows() && at.phase.Ready? && at.phase.attempt == 1 && at.phase.base == policy.initial
      modifies this
      ensures Follows() && published == old(published)
      ensures if !ended then at.phase.Ready? else if renewed then at.phase.Renewed? else at.phase.Exited?
      ensures window == (if ended && renewed then start + ttl else old(window)) && old(clock) <= start <= clock
      ensures NoOverflow(policy, ttl) && old(window - at.phase.first) <= retries ==> ended
    {
      var attempt := 1;
      var base := policy.initial;
      start := clock;
      for n := 0 to retries
        invariant Follows() && at.phase == Ready(attempt, base, old(at.phase.first))
        invariant attempt == n + 1 && Int64(base) && published == old(published) && window == old(window)
        invariant old(clock) <= start <= clock
      {
        var launched, end, err := RenewAttempt(attempt);
        start := launched;
        if end != AttemptReturned || err == None || Is(err, IsFenced) || Is(err, IsLeaseExpired) {
          renewed := Conclude(base, launched, end, err);
          return true, renewed, start;
        }
        var again := Backoff(base);
        if !again {
          return true, false, start;
        }
        base := NextBackoff(base, policy.max);
        attempt := attempt + 1;
      }
      AttemptsHere();
      return false, false, start;
    }

    lemma AttemptsHere()
      requires Follows() && InCycle(at.phase)
      ensures NoOverflow(policy, ttl) ==> at.phase.attempt <= window - at.phase.first <= ttl
    {
      if NoOverflow(policy, ttl) {
        var inputs :| EnabledRun(policy, ttl, Begin(deadline, started), inputs)
                      && at == RunLoop(policy, ttl, Begin(deadline, started), inputs);
        AttemptsFitWindow(policy, ttl, deadline, started, inputs);
      }
    }

    lemma WindowHere()
      requires Follows()
      ensures published <= window && (!at.phase.Renewed? ==> published == window)
    {
      BeginInv(ttl, deadline, started);
      ReachedInv(policy, ttl, Begin(deadline, started), at);
    }

    /** The outer select: wait for the next tick. */
    method AwaitTick() returns (ticked: bool)
      requires Follows() && at.phase.Idle?
      modifies this
      ensures Follows() && published == old(published) && window == old(window) && old(clock) <= clock
      ensures if ticked then at.phase.Ready? && at.phase.attempt == 1 && at.phase.base == policy.initial else at.phase.Exited?
    {
      var tick, stop, parent, timer := Await(window);
      if {
        case stop =>
          Meet(Stopped);
          return false;
        case parent =>
          Meet(ParentDone);
          return false;
        case timer =>
          Meet(WindowClosed(clock));
          CancelCause(EXHAUSTED);
          return false;
        case tick =>
      }
      var check := Now();
      Meet(Ticked(check));
      if !(check < window) {
        CancelCause(EXHAUSTED);
        return false;
      }
      return true;
    }

    /** StartRenewal's goroutine, watched for some number of ticks and of retries
        in a cycle. With ttl retries or more, no cycle outlasts the watch.
        renewals are the local starts of the Renew calls that returned nil. */
    method Loop(ticks: nat, retries: nat) returns (ghost renewals: seq<int>)
      requires Follows() && at.phase.Idle?
      modifies this
      ensures Follows() && (at.phase.Idle? || at.phase.Exited? || at.phase.Ready?)
      ensures NoOverflow(policy, ttl) && ttl <= retries ==> !at.phase.Ready?
      ensures old(published) <= published == window
      ensures published == if renewals == [] then old(window) else renewals[|renewals| - 1] + ttl
      ensures forall i | 0 <= i < |renewals| :: old(clock) <= renewals[i] <= clock
    {
      WindowHere();
      renewals := [];
      for n := 0 to ticks
        invariant Follows() && at.phase.Idle? && old(published) <= published == window
        invariant published == if renewals == [] then old(window) else renewals[|renewals| - 1] + ttl
        invariant old(clock) <= clock && forall i | 0 <= i < |renewals| :: old(clock) <= renewals[i] <= clock
      {
        var ticked := AwaitTick();
        WindowHere();
        if !ticked {
          return;
        }
        AttemptsHere();
        ghost var start;
        var ended, renewed;
        ended, renewed, start := RenewCycle(retries);
        WindowHere();
        if !ended || !renewed {
          return;
        }
        Meet(Stored);
        published := window;
        renewals := renewals + [start];
      }
    }
  }
}
