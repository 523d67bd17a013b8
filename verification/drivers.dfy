/** Runner.Run and Elect: both hold a lease while a function runs, and map how
    it went to a declared exit. What the function and the renewal goroutine did
    is given: the function's outcome, and the cause of the renewal context after
    stopRenewal. Other clients run between any two calls; after the function has
    returned only late Renew calls still carry the token. */
module Drivers {
  import opened Types
  import opened LeaseStore
  import opened Protocol
  import opened Client

  /** How the work function ended; a final state of nil is None. */
  datatype Work = Completed(final: Option<Bytes>, err: GoError) | Panicked

  datatype Result = Returned(err: GoError) | Propagated

  datatype ReleaseCall = ReleaseCall(mode: ExitMode, err: GoError)

  /** How far a driver got. */
  datatype Stage = NotAcquired | NotRead | Ran

  datatype Callback = OnElected | OnLost | OnRelinquished

  datatype Pace = IdleWait | BackoffWait

  /** The lease was fenced, or its window ran out: no exit is declared. */
  predicate Lost(workErr: GoError, cause: GoError) {
    Is(workErr, IsFenced) || Is(cause, IsFenced) || Is(cause, IsWindowExhausted)
  }

  function ModeFor(workErr: GoError): ExitMode {
    if Is(workErr, IsRetire) then ExitRetired else if workErr == None then ExitFinished else ExitAbandoned
  }

  predicate Recorded(releases: seq<ReleaseCall>) {
    |releases| == 1 && releases[0].err == None && (releases[0].mode == ExitFinished || releases[0].mode == ExitRetired)
  }

  /** The one mapping from an outcome to a Release call, or none, and an error.
      checkpoint is the error of the final Checkpoint, None if it stored the
      state or there was none to store: fenced, it ends the run with no Release;
      otherwise it turns any outcome into ExitAbandoned. */
  ghost predicate Maps(workErr: GoError, cause: GoError, checkpoint: GoError, releases: seq<ReleaseCall>, err: GoError) {
    && (if Lost(workErr, cause) || Is(checkpoint, IsFenced) then releases == []
        else |releases| == 1 && releases[0].mode == if checkpoint == None then ModeFor(workErr) else ExitAbandoned)
    && (err == None <==> Recorded(releases))
    && (Is(err, IsFenced) <==>
          || Is(workErr, IsFenced) || Is(cause, IsFenced) || Is(checkpoint, IsFenced)
          || (releases != [] && Is(releases[0].err, IsFenced)))
    && (Is(err, IsFenced) ==> err == Some({IsFenced}))
    && (!Is(err, IsFenced) && err != None ==>
          if Failing(workErr, cause) then err == workErr
          else if Lost(workErr, cause) then err == cause
          else if checkpoint != None then err == checkpoint
          else err == releases[0].err)
  }

  /** The function's own error comes first, except a retirement that was to be recorded. */
  predicate Failing(workErr: GoError, cause: GoError) {
    workErr != None && (Is(workErr, IsRetire) ==> Lost(workErr, cause))
  }

  /** The mapping leaves no choice: two drivers that meet the same outcome and
      the same answers make the same Release call and return the same error. */
  lemma MappingDetermines(workErr: GoError, cause: GoError, checkpoint: GoError,
                          r1: seq<ReleaseCall>, e1: GoError, r2: seq<ReleaseCall>, e2: GoError)
    requires Maps(workErr, cause, checkpoint, r1, e1) && Maps(workErr, cause, checkpoint, r2, e2)
    requires r1 != [] && r2 != [] ==> r1[0].err == r2[0].err
    ensures r1 == r2 && e1 == e2
  {
    if r1 != [] {
      assert r1 == [r1[0]] && r2 == [r2[0]];
    }
  }

  /** The mapping in the sentinels' own terms. */
  lemma MappingMeans(workErr: GoError, cause: GoError, checkpoint: GoError, releases: seq<ReleaseCall>, err: GoError)
    requires Maps(workErr, cause, checkpoint, releases, err)
    ensures cause.Some? && (IsFenced in cause.value || IsWindowExhausted in cause.value) ==> releases == [] && err != None
    ensures workErr.Some? && IsFenced in workErr.value ==> releases == [] && err == Some({IsFenced})
    ensures cause == None && workErr == None && checkpoint == None ==> |releases| == 1 && releases[0].mode == ExitFinished
    ensures cause == None && workErr == Some({IsRetire}) && checkpoint == None ==>
              |releases| == 1 && releases[0].mode == ExitRetired
    ensures cause == None && workErr.Some? && IsFenced !in workErr.value && IsRetire !in workErr.value && checkpoint == None ==>
              |releases| == 1 && releases[0].mode == ExitAbandoned && (err == workErr || err == Some({IsFenced}))
    ensures cause == None && checkpoint.Some? && IsFenced !in checkpoint.value && !Is(workErr, IsFenced) ==>
              |releases| == 1 && releases[0].mode == ExitAbandoned && err != None
  {
  }

  /** A lease that was acquired and whose exit was not recorded is left undeclared. */
  ghost predicate LeftUndeclared(w: World, rec: LeaseRecord) {
    Inv(w) && Issued(w, rec) && (Held(w.store, rec) ==> w.store.rows[rec.work].exitMode == ExitNone)
  }

  /** The row carries the exit, and the state if any was handed in. */
  ghost predicate LeftDeclared(w: World, rec: LeaseRecord, mode: ExitMode, final: Option<Bytes>) {
    && Inv(w) && Issued(w, rec) && Held(w.store, rec)
    && w.store.rows[rec.work].exitMode == mode
    && (final.Some? ==> w.store.rows[rec.work].checkpoint == Stored(final.value))
  }

  /** No wait after a context error, the idle wait while another holds the lease,
      BackoffInterval otherwise. */
  function PacesAfterRefusal(err: GoError, interval: int): seq<Pace> {
    if Is(err, IsCanceled) || Is(err, IsDeadlineExceeded) then []
    else if Is(err, IsLeaseHeld) then [IdleWait]
    else if interval > 0 then [BackoffWait] else []
  }

  /** If the row is still rec's, it was before, with the same state. */
  ghost predicate KeepsState(w: World, w': World, rec: LeaseRecord) {
    Held(w'.store, rec) ==>
      Held(w.store, rec) && w'.store.rows[rec.work].checkpoint == w.store.rows[rec.work].checkpoint
  }

  class Driver {
    const client: LeaseClient
    /** The error of the final Checkpoint, if one was made. */
    var checkpoints: seq<GoError>
    /** The error of ReadCheckpoint, if it was called. */
    var readErrs: seq<GoError>
    var releases: seq<ReleaseCall>
    var callbacks: seq<Callback>
    var paces: seq<Pace>
    /** What ReadCheckpoint answered, handed to the work function. */
    var prior: CheckpointView
    /** The world ReadCheckpoint was answered in. */
    ghost var readFrom: World
    ghost var stage: Stage
    ghost var rec: LeaseRecord

    constructor (client: LeaseClient)
      ensures this.client == client && readErrs == [] && checkpoints == [] && releases == [] && callbacks == [] && paces == []
    {
      this.client := client;
      readErrs, checkpoints, releases, callbacks, paces, stage := [], [], [], [], [], NotAcquired;
      rec := LeaseRecord("", "", 0, 0);
      prior, readFrom := CheckpointView(None, ExitNone, ""), client.world;
    }

    /** Let others run. They cannot declare an exit for this lease, and unless the
        holder is still working they cannot change its state. */
    method Meanwhile(ghost rule: Rule)
      requires !rule.Anything? && LeftUndeclared(client.world, rule.rec)
      modifies client`world
      ensures LeftUndeclared(client.world, rule.rec)
      ensures rule.LateCallsOnly? ==> KeepsState(old(client.world), client.world, rule.rec)
    {
      client.Others(rule);
      OthersKeep(client.kind, old(client.world), client.world, rule);
    }

    method Release(lease: LeaseRecord, mode: ExitMode) returns (err: GoError)
      requires LeftUndeclared(client.world, lease) && Declarable(mode)
      modifies this`releases, client`world
      ensures releases == old(releases) + [ReleaseCall(mode, err)] && KeepsState(old(client.world), client.world, lease)
      ensures err == None ==> LeftDeclared(client.world, lease, mode, None)
      ensures Is(err, IsFenced) || Is(err, IsLeaseExpired) ==> LeftUndeclared(client.world, lease)
      ensures Inv(client.world)
    {
      err := client.Release(lease, mode);
      releases := releases + [ReleaseCall(mode, err)];
    }

    ghost function CheckpointError(): GoError
      reads this
    {
      if checkpoints == [] then None else checkpoints[0]
    }

    /** Once the final Checkpoint has succeeded, the row keeps the final state
        for as long as it is the holder's, whatever becomes of the Release. */
    ghost predicate KeepsFinal(lease: LeaseRecord, outcome: Work)
      reads this, client
    {
      outcome.Completed? && outcome.final.Some? && checkpoints == [None] && Held(client.world.store, lease) ==>
        client.world.store.rows[lease.work].checkpoint == Stored(outcome.final.value)
    }

    /** The final Checkpoint, and what others may do before the Release. */
    method StoreFinal(lease: LeaseRecord, final: Bytes) returns (err: GoError)
      requires LeftUndeclared(client.world, lease) && checkpoints == []
      modifies this`checkpoints, client`world
      ensures LeftUndeclared(client.world, lease) && checkpoints == [err]
      ensures err == None && Held(client.world.store, lease) ==>
                client.world.store.rows[lease.work].checkpoint == Stored(final)
    {
      err := client.Checkpoint(lease, final);
      checkpoints := [err];
      Meanwhile(LateCallsOnly(lease));
    }

    /** Run's final Checkpoint and Release, once the outcome is known not to be lost. */
    method Cleanup(lease: LeaseRecord, workErr: GoError, final: Option<Bytes>) returns (err: GoError)
      requires LeftUndeclared(client.world, lease) && checkpoints == [] && releases == [] && !Is(workErr, IsFenced)
      modifies this`checkpoints, this`releases, client`world
      ensures |checkpoints| == if final == None then 0 else 1
      ensures Maps(workErr, None, CheckpointError(), releases, err)
      ensures err == None ==> LeftDeclared(client.world, lease, releases[0].mode, final)
      ensures releases == [] || Is(releases[0].err, IsFenced) || Is(releases[0].err, IsLeaseExpired) ==>
                LeftUndeclared(client.world, lease)
      ensures KeepsFinal(lease, Completed(final, workErr))
    {
      var mode, ret := ExitAbandoned, workErr;
      if Is(workErr, IsRetire) {
        mode, ret := ExitRetired, None;
      } else if workErr == None {
        mode := ExitFinished;
      }
      var successClass := ret == None;
      if final != None {
        var cpErr := StoreFinal(lease, final.value);
        if cpErr != None {
          if Is(cpErr, IsFenced) {
            return Some({IsFenced});
          }
          mode := ExitAbandoned;
          if successClass {
            ret := cpErr;
          }
        }
      }
      var relErr := Release(lease, mode);
      if relErr != None {
        if Is(relErr, IsFenced) {
          return Some({IsFenced});
        }
        if ret == None {
          return relErr;
        }
      }
      return ret;
    }

    /** Runner.Run. */
    method Run(work: WorkId, waitForLease: bool, patience: nat, outcome: Work, cause: GoError)
      returns (result: Result, ghost attempts: seq<GoError>)
      requires Inv(client.world) && readErrs == [] && checkpoints == [] && releases == []
      modifies this, client
      ensures client.acquireEvents == old(client.acquireEvents) + attempts
      ensures |readErrs| == if Granted(attempts) then 1 else 0
      ensures stage == if !Granted(attempts) then NotAcquired else if readErrs == [None] then Ran else NotRead
      ensures stage.NotAcquired? ==> result.Returned? && AcquireAnswered(work, waitForLease, attempts, result.err)
      ensures stage.NotRead? ==> result == Returned(if Is(readErrs[0], IsFenced) then Some({IsFenced}) else readErrs[0])
      ensures stage.Ran? && outcome.Completed? ==>
                result.Returned? && Maps(outcome.err, cause, CheckpointError(), releases, result.err)
      ensures |checkpoints| ==
                if stage.Ran? && outcome.Completed? && !Lost(outcome.err, cause) && outcome.final != None then 1 else 0
      ensures !stage.Ran? || outcome.Panicked? ==> releases == [] && result != Returned(None)
      ensures stage.Ran? && outcome.Panicked? ==> result.Propagated?
      ensures result == Returned(None) <==> Recorded(releases)
      ensures result == Returned(None) ==>
                && stage.Ran? && outcome.Completed? && releases[0].mode == ModeFor(outcome.err)
                && LeftDeclared(client.world, rec, releases[0].mode, outcome.final)
      ensures stage.Ran? ==> KeepsFinal(rec, outcome) && ReadStep(readFrom.store, rec) == Found(prior)
      ensures !stage.NotAcquired? ==> rec.work == work && rec.holder == client.holder
      ensures !stage.NotAcquired? &&
              (releases == [] || Is(releases[0].err, IsFenced) || Is(releases[0].err, IsLeaseExpired)) ==>
                LeftUndeclared(client.world, rec)
    {
      stage := NotAcquired;
      var token, err, answers, spans := client.Acquire(work, waitForLease, patience);
      attempts := answers;
      if err != None {
        return Returned(err), attempts;
      }
      stage, rec := NotRead, token.rec;
      var readErr := ReadPrior(token.rec);
      if readErr != None {
        if Is(readErr, IsFenced) {
          return Returned(Some({IsFenced})), attempts;
        }
        return Returned(readErr), attempts;
      }
      stage := Ran;
      result := Attend(token.rec, outcome, cause);
    }

    method ReadPrior(lease: LeaseRecord) returns (err: GoError)
      requires LeftUndeclared(client.world, lease)
      modifies this`readErrs, this`prior, this`readFrom, client`world
      ensures LeftUndeclared(client.world, lease) && readErrs == [err]
      ensures err == None ==> ReadStep(readFrom.store, lease) == Found(prior)
    {
      Meanwhile(LateCallsOnly(lease));
      var view, readErr := client.ReadCheckpoint(lease);
      readErrs := [readErr];
      prior, readFrom := view, client.world;
      return readErr;
    }

    /** Run, from the work function on. */
    method Attend(lease: LeaseRecord, outcome: Work, cause: GoError) returns (result: Result)
      requires LeftUndeclared(client.world, lease) && checkpoints == [] && releases == []
      modifies this`checkpoints, this`releases, client`world
      ensures outcome.Completed? ==>
                result.Returned? && Maps(outcome.err, cause, CheckpointError(), releases, result.err)
      ensures |checkpoints| == if outcome.Completed? && !Lost(outcome.err, cause) && outcome.final != None then 1 else 0
      ensures outcome.Panicked? ==> result.Propagated? && releases == []
      ensures KeepsFinal(lease, outcome)
      ensures result == Returned(None) ==>
                && releases[0].mode == ModeFor(outcome.err)
                && LeftDeclared(client.world, lease, releases[0].mode, outcome.final)
      ensures releases == [] || Is(releases[0].err, IsFenced) || Is(releases[0].err, IsLeaseExpired) ==>
                LeftUndeclared(client.world, lease)
    {
      Meanwhile(WorkInProgress(lease));
      if outcome.Panicked? {
        return Propagated;
      }
      var workErr := outcome.err;
      if Is(workErr, IsFenced) || Is(cause, IsFenced) {
        return Returned(Some({IsFenced}));
      }
      if Is(cause, IsWindowExhausted) {
        if workErr != None {
          return Returned(workErr);
        }
        return Returned(cause);
      }
      Meanwhile(LateCallsOnly(lease));
      var ret := Cleanup(lease, workErr, outcome.final);
      return Returned(ret);
    }

    method Backoff(interval: int)
      modifies this`paces
      ensures paces == old(paces) + if interval > 0 then [BackoffWait] else []
    {
      if interval > 0 {
        paces := paces + [BackoffWait];
      }
    }

    /** Elect's Release, once the outcome is known not to be lost. */
    method Relinquish(lease: LeaseRecord, fnErr: GoError, interval: int) returns (err: GoError)
      requires LeftUndeclared(client.world, lease) && releases == [] && !Is(fnErr, IsFenced)
      modifies this`releases, this`callbacks, this`paces, client`world
      ensures |releases| == 1 && Maps(fnErr, None, None, releases, err)
      ensures err == None ==> LeftDeclared(client.world, lease, releases[0].mode, None)
      ensures Is(releases[0].err, IsFenced) || Is(releases[0].err, IsLeaseExpired) ==> LeftUndeclared(client.world, lease)
      ensures callbacks == old(callbacks) + if Recorded(releases) then [OnRelinquished] else []
      ensures paces == old(paces) + if !Is(err, IsFenced) && interval > 0 then [BackoffWait] else []
    {
      var mode, ret := ExitAbandoned, fnErr;
      if Is(fnErr, IsRetire) {
        mode, ret := ExitRetired, None;
      } else if fnErr == None {
        mode := ExitFinished;
      }
      var relErr := Release(lease, mode);
      if relErr == None && mode != ExitAbandoned {
        callbacks := callbacks + [OnRelinquished];
      }
      if Is(relErr, IsFenced) {
        return Some({IsFenced});
      }
      if relErr != None && ret == None {
        ret := relErr;
      }
      Backoff(interval);
      return ret;
    }

    /** Elect, once its function and the renewal have ended. */
    method Conclude(lease: LeaseRecord, fnErr: GoError, cause: GoError, interval: int) returns (err: GoError)
      requires LeftUndeclared(client.world, lease) && releases == []
      modifies this`releases, this`callbacks, this`paces, client`world
      ensures Maps(fnErr, cause, None, releases, err)
      ensures err == None ==> LeftDeclared(client.world, lease, releases[0].mode, None)
      ensures releases == [] || Is(releases[0].err, IsFenced) || Is(releases[0].err, IsLeaseExpired) ==>
                LeftUndeclared(client.world, lease)
      ensures callbacks == old(callbacks) + if Recorded(releases) then [OnRelinquished] else []
      ensures paces == old(paces) + if !Is(err, IsFenced) && interval > 0 then [BackoffWait] else []
    {
      if Is(fnErr, IsFenced) || Is(cause, IsFenced) {
        return Some({IsFenced});
      }
      if Is(cause, IsWindowExhausted) {
        Backoff(interval);
        return if fnErr == None then cause else fnErr;
      }
      Meanwhile(LateCallsOnly(lease));
      err := Relinquish(lease, fnErr, interval);
    }

    /** Elect, with every callback set. lostEarly says that the renewal context
        was cancelled when the function returned while the caller's was not: then
        the renewal goroutine cancelled it, and left its cause. */
    method Elect(work: WorkId, waitForLease: bool, patience: nat, interval: int, outcome: Work, cause: GoError, lostEarly: bool)
      returns (result: Result, ghost attempts: seq<GoError>)
      requires Inv(client.world) && releases == [] && callbacks == [] && paces == []
      requires lostEarly ==> Is(cause, IsFenced) || Is(cause, IsWindowExhausted)
      modifies this, client
      ensures client.acquireEvents == old(client.acquireEvents) + attempts
      ensures stage == if Granted(attempts) then Ran else NotAcquired
      ensures stage.NotAcquired? ==> result.Returned? && AcquireAnswered(work, waitForLease, attempts, result.err)
      ensures stage.Ran? && outcome.Completed? ==> result.Returned? && Maps(outcome.err, cause, None, releases, result.err)
      ensures !stage.Ran? || outcome.Panicked? ==> releases == [] && result != Returned(None)
      ensures result == Returned(None) ==> LeftDeclared(client.world, rec, releases[0].mode, None)
      ensures stage.Ran? ==> rec.work == work && rec.holder == client.holder
      ensures stage.Ran? && (releases == [] || Is(releases[0].err, IsFenced) || Is(releases[0].err, IsLeaseExpired)) ==>
                LeftUndeclared(client.world, rec)
      ensures callbacks == (if stage.Ran? then [OnElected] else [])
                           + (if stage.Ran? && outcome.Completed? && lostEarly then [OnLost] else [])
                           + (if Recorded(releases) then [OnRelinquished] else [])
      ensures !(OnLost in callbacks && OnRelinquished in callbacks)
      ensures paces == if !stage.Ran? then PacesAfterRefusal(result.err, interval)
                       else if result.Propagated? || Is(result.err, IsFenced) || interval <= 0 then [] else [BackoffWait]
      ensures waitForLease ==> IdleWait !in paces
    {
      stage := NotAcquired;
      var token, err, answers, spans := client.Acquire(work, waitForLease, patience);
      attempts := answers;
      if err != None {
        if Is(err, IsCanceled) || Is(err, IsDeadlineExceeded) {
        } else if Is(err, IsLeaseHeld) {
          paces := paces + [IdleWait];
        } else {
          Backoff(interval);
        }
        return Returned(err), attempts;
      }
      stage, rec := Ran, token.rec;
      callbacks := [OnElected];
      result := Preside(token.rec, interval, outcome, cause, lostEarly);
    }

    /** Elect, from its function on. */
    method Preside(lease: LeaseRecord, interval: int, outcome: Work, cause: GoError, lostEarly: bool) returns (result: Result)
      requires LeftUndeclared(client.world, lease) && releases == []
      requires lostEarly ==> Is(cause, IsFenced) || Is(cause, IsWindowExhausted)
      modifies this`releases, this`callbacks, this`paces, client`world
      ensures if outcome.Completed? then result.Returned? && Maps(outcome.err, cause, None, releases, result.err)
              else result.Propagated? && releases == []
      ensures result == Returned(None) ==> LeftDeclared(client.world, lease, releases[0].mode, None)
      ensures releases == [] || Is(releases[0].err, IsFenced) || Is(releases[0].err, IsLeaseExpired) ==>
                LeftUndeclared(client.world, lease)
      ensures callbacks == old(callbacks) + (if outcome.Completed? && lostEarly then [OnLost] else [])
                                          + (if Recorded(releases) then [OnRelinquished] else [])
      ensures lostEarly ==> !Recorded(releases)
      ensures paces == old(paces) + if result.Propagated? || Is(result.err, IsFenced) || interval <= 0 then [] else [BackoffWait]
    {
      Meanwhile(WorkInProgress(lease));
      if outcome.Panicked? {
        return Propagated;
      }
      var fnErr := outcome.err;
      if lostEarly {
        callbacks := callbacks + [OnLost];
      }
      var ret := Conclude(lease, fnErr, cause, interval);
      return Returned(ret);
    }
  }

  /** End to end: after a run that returned nil, whatever others and late calls
      do, the next holder of the row reads the exit the run declared, its holder,
      and its final state; an empty one reads as nil. */
  lemma SuccessorReadsExit(k: Kind, w: World, rec: LeaseRecord, mode: ExitMode, final: Option<Bytes>, ops: seq<Op>, acquire: Op)
    requires LeftDeclared(w, rec, mode, final) && Declarable(mode)
    requires TimelyRun(k, w.now, ops) && Held(Run(k, w, ops).store, rec)
    requires acquire.Acquire? && acquire.work == rec.work && Timely(k, acquire, Run(k, w, ops).now)
    ensures var w' := Run(k, w, ops);
            && Apply(k, w'.store, acquire).1.Acquired?
            && var r := Inherited(k, w', acquire);
               && r.Found? && r.view.prevExit == mode && r.view.prevHolder == rec.holder
               && (final.Some? ==> r.view.state == Stored(final.value))
  {
    DeclaredHandoff(k, w, ops, rec, acquire);
  }

  /** After any outcome that recorded nothing, a successor to this lease reads ExitExpired. */
  lemma SuccessorReadsExpired(k: Kind, w: World, rec: LeaseRecord, ops: seq<Op>, acquire: Op)
    requires LeftUndeclared(w, rec)
    requires TimelyRun(k, w.now, ops) && (forall op <- ops :: NoExit(op, rec)) && Held(Run(k, w, ops).store, rec)
    requires acquire.Acquire? && acquire.work == rec.work && Apply(k, Run(k, w, ops).store, acquire).1.Acquired?
    ensures var r := Inherited(k, Run(k, w, ops), acquire);
            r.Found? && r.view.prevExit == ExitExpired && r.view.prevHolder == rec.holder
  {
    UndeclaredRun(k, w, ops, rec);
    LapsedHandoff(k, w, ops, rec, acquire);
  }
}
