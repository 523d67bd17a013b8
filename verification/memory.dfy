/** The in-process backend: heap records updated in place under one mutex, so
    each method is one atomic step. Every method is proved to be the operation
    of LeaseStore on the value the heap stands for, and of no other record. The
    clock readings a call takes are its parameters, in order; cancelled says
    that the call's context was already done. */
module MemoryBackend {
  import opened Types
  import opened LeaseStore

  class Record {
    var holderID: HolderId
    var fencingToken: nat
    var expiresAt: int
    var checkpoint: Option<Bytes>
    var exitMode: ExitMode
    var prevExit: ExitMode
    var prevHolderID: HolderId
    var updatedAt: int
    /** The work ID the record was made for. */
    ghost const work: WorkId

    constructor (row: Row, ghost work: WorkId)
      ensures View() == row && this.work == work
    {
      this.work := work;
      holderID, fencingToken, expiresAt, checkpoint := row.holder, row.token, row.expiresAt, row.checkpoint;
      exitMode, prevExit, prevHolderID, updatedAt := row.exitMode, row.prevExit, row.prevHolder, row.updatedAt;
    }

    ghost function View(): Row
      reads this
    {
      Row(holderID, fencingToken, expiresAt, checkpoint, exitMode, prevExit, prevHolderID, updatedAt)
    }

    predicate HeldBy(rec: LeaseRecord)
      reads this
    {
      holderID == rec.holder && fencingToken == rec.token
    }
  }

  /** What the heap's records say, as values. */
  ghost function Views(records: map<WorkId, Record>): map<WorkId, Row>
    reads records.Values
  {
    map x | x in records :: records[x].View()
  }

  class Backend {
    var records: map<WorkId, Record>
    var counter: nat

    /** No two work IDs share a record, for each knows its own. */
    ghost predicate Valid()
      reads this
    {
      forall x <- records :: records[x].work == x
    }

    ghost function State(): Store
      reads this, records.Values
    {
      Store(Views(records), counter)
    }

    constructor ()
      ensures Valid() && State() == EMPTY
    {
      records, counter := map[], 0;
    }

    method Acquire(cancelled: bool, work: WorkId, holder: HolderId, ttl: int, at: Readings) returns (r: Reply)
      requires Valid()
      modifies this
      ensures Valid() && fresh(records.Values - old(records.Values))
      ensures (State(), r) == if cancelled then (old(State()), Failed(ErrContext))
                              else AcquireStep(Memory, old(State()), work, holder, ttl, at)
    {
      if cancelled {
        return Failed(ErrContext);
      }
      var found := work in records;
      if found && !(at.check > records[work].expiresAt) {
        return Failed(ErrLeaseHeld);
      }
      ghost var prior := if found then Some(records[work].View()) else None;
      counter := counter + 1;
      var prevCheckpoint: Option<Bytes> := None;
      var prevExit := ExitNone;
      var prevHolder := "";
      if found {
        var row := records[work];
        prevCheckpoint, prevExit, prevHolder := row.checkpoint, row.exitMode, row.holderID;
        if prevExit == ExitNone {
          prevExit := ExitExpired;
        }
      }
      assert prevExit == PrevExit(prior);
      var rec := new Record(Row(holder, counter, at.stamp + ttl, prevCheckpoint, ExitNone, prevExit, prevHolder, at.touch), work);
      assert Views(records) == old(Views(records));
      ViewsWith(records, work, rec);
      records := records[work := rec];
      return Acquired(LeaseRecord(work, holder, counter, rec.expiresAt));
    }

    method Checkpoint(cancelled: bool, rec: LeaseRecord, state: Bytes, ttl: int, at: Readings) returns (r: Reply)
      requires Valid()
      modifies records.Values
      ensures (State(), r) == if cancelled then (old(State()), Failed(ErrContext))
                              else CheckpointStep(Memory, old(State()), rec, state, ttl, at)
    {
      ghost var spec := CheckpointStep(Memory, State(), rec, state, ttl, at);
      if cancelled {
        return Failed(ErrContext);
      }
      if rec.work !in records || !records[rec.work].HeldBy(rec) {
        return Failed(ErrFenced);
      }
      var row := records[rec.work];
      if row.exitMode != ExitNone {
        return Failed(ErrLeaseExpired);
      }
      if |state| == 0 {
        row.checkpoint := None;
      } else {
        row.checkpoint := Some(state);
      }
      row.expiresAt := at.stamp + ttl;
      row.updatedAt := at.touch;
      assert State().rows == spec.0.rows;
      return Done;
    }

    method Renew(cancelled: bool, rec: LeaseRecord, ttl: int, at: Readings) returns (r: Reply)
      requires Valid()
      modifies records.Values
      ensures (State(), r) == if cancelled then (old(State()), Failed(ErrContext))
                              else RenewStep(Memory, old(State()), rec, ttl, at)
    {
      ghost var spec := RenewStep(Memory, State(), rec, ttl, at);
      if cancelled {
        return Failed(ErrContext);
      }
      if rec.work !in records || !records[rec.work].HeldBy(rec) {
        return Failed(ErrFenced);
      }
      var row := records[rec.work];
      if !(at.check < row.expiresAt) {
        return Failed(ErrLeaseExpired);
      }
      row.expiresAt := at.stamp + ttl;
      row.updatedAt := at.touch;
      assert State().rows == spec.0.rows;
      return Done;
    }

    method Release(cancelled: bool, rec: LeaseRecord, mode: ExitMode, at: Readings) returns (r: Reply)
      requires Valid()
      modifies records.Values
      ensures (State(), r) == if Declarable(mode) && cancelled then (old(State()), Failed(ErrContext))
                              else ReleaseStep(old(State()), rec, mode, at)
    {
      ghost var spec := ReleaseStep(State(), rec, mode, at);
      if mode != ExitFinished && mode != ExitAbandoned && mode != ExitRetired {
        return Failed(ErrInvalidExitMode);
      }
      if cancelled {
        return Failed(ErrContext);
      }
      if rec.work !in records || !records[rec.work].HeldBy(rec) {
        return Failed(ErrFenced);
      }
      var row := records[rec.work];
      if !(row.expiresAt > at.check) {
        return Failed(ErrLeaseExpired);
      }
      row.exitMode := mode;
      row.expiresAt := at.stamp - MILLISECOND;
      row.updatedAt := at.touch;
      assert State().rows == spec.0.rows;
      return Done;
    }

    method ReadCheckpoint(cancelled: bool, rec: LeaseRecord) returns (r: Reply)
      requires Valid()
      ensures r == if cancelled then Failed(ErrContext) else ReadStep(State(), rec)
    {
      if cancelled {
        return Failed(ErrContext);
      }
      if rec.work !in records || records[rec.work].fencingToken != rec.token {
        return Failed(ErrFenced);
      }
      var row := records[rec.work];
      return Found(CheckpointView(row.checkpoint, row.prevExit, row.prevHolderID));
    }

    method Forget(cancelled: bool, rec: LeaseRecord) returns (r: Reply)
      requires Valid()
      modifies this
      ensures Valid() && records.Values <= old(records.Values)
      ensures (State(), r) == if cancelled then (old(State()), Failed(ErrContext)) else ForgetStep(old(State()), rec)
    {
      if cancelled {
        return Failed(ErrContext);
      }
      if rec.work !in records || !records[rec.work].HeldBy(rec) {
        return Failed(ErrFenced);
      }
      ViewsWithout(records, {rec.work});
      records := records - {rec.work};
      return Done;
    }

    /** Sweep deletes while it walks the map; order is whatever order the
        runtime's map iteration takes. */
    method Sweep(cancelled: bool, opts: SweepOptions, now: int, order: seq<WorkId>) returns (r: Reply)
      requires Valid() && Enumerates(order, records.Keys)
      modifies this`records
      ensures Valid()
      ensures (State(), r) == if cancelled then (old(State()), Failed(ErrContext)) else SweepStep(Memory, old(State()), opts, now)
    {
      if cancelled {
        return Failed(ErrContext);
      }
      var deleted := 0;
      ghost var all := State();
      ghost var gone: set<WorkId> := {};
      for i := 0 to |order|
        invariant records == old(records) - gone
        invariant gone == SweptAmong(all, order, i, opts, now).0
        invariant deleted == SweptAmong(all, order, i, opts, now).1
      {
        NotYetSwept(all, order, i, opts, now);
        var row := records[order[i]];
        assert row.View() == all.rows[order[i]];
        if now - row.updatedAt <= opts.retention {
          continue;
        }
        if !(now > row.expiresAt) {
          continue;
        }
        if row.exitMode != ExitRetired && !(opts.includeExpired && row.exitMode == ExitNone) {
          continue;
        }
        MinusOneMore(old(records), gone, order[i]);
        records := records - {order[i]};
        deleted, gone := deleted + 1, gone + {order[i]};
      }
      SweptAmongAll(all, order, opts, now);
      ViewsWithout(old(records), gone);
      return Swept(deleted);
    }
  }

  /** order lists every key exactly once. */
  ghost predicate Enumerates<T(!new)>(order: seq<T>, keys: set<T>) {
    Distinct(order) && forall x :: x in order <==> x in keys
  }

  /** The rows deleted, and how many, once the first n of order were visited. */
  ghost function SweptAmong(s: Store, order: seq<WorkId>, n: nat, opts: SweepOptions, now: int): (set<WorkId>, nat)
    requires n <= |order|
  {
    if n == 0 then ({}, 0)
    else
      var x := order[n - 1];
      var (gone, count) := SweptAmong(s, order, n - 1, opts, now);
      if x in s.rows && Sweepable(s.rows[x], opts, now) then (gone + {x}, count + 1) else (gone, count)
  }

  lemma {:induction false} SweptAmongIsFilter(s: Store, order: seq<WorkId>, n: nat, opts: SweepOptions, now: int)
    requires n <= |order| && Distinct(order)
    ensures var (gone, count) := SweptAmong(s, order, n, opts, now);
            && (forall x <- gone :: x in s.rows && Sweepable(s.rows[x], opts, now))
            && (forall i | 0 <= i < |order| && order[i] in s.rows ::
                  order[i] in gone <==> i < n && Sweepable(s.rows[order[i]], opts, now))
            && |gone| == count
  {
    if n != 0 {
      SweptAmongIsFilter(s, order, n - 1, opts, now);
    }
  }

  lemma MinusOneMore<K, V>(m: map<K, V>, s: set<K>, x: K)
    ensures m - s - {x} == m - (s + {x})
  {
  }

  lemma ViewsWith(records: map<WorkId, Record>, x: WorkId, rec: Record)
    ensures Views(records[x := rec]) == Views(records)[x := rec.View()]
  {
  }

  lemma ViewsWithout(records: map<WorkId, Record>, gone: set<WorkId>)
    ensures Views(records - gone) == Views(records) - gone
  {
  }

  /** The walk meets no key twice, so the key it stands at is still there. */
  lemma NotYetSwept(s: Store, order: seq<WorkId>, i: nat, opts: SweepOptions, now: int)
    requires i < |order| && Enumerates(order, s.rows.Keys)
    ensures order[i] in s.rows && order[i] !in SweptAmong(s, order, i, opts, now).0
    ensures SweptAmong(s, order, i + 1, opts, now) ==
            var (gone, count) := SweptAmong(s, order, i, opts, now);
            if Sweepable(s.rows[order[i]], opts, now) then (gone + {order[i]}, count + 1) else (gone, count)
  {
    SweptAmongIsFilter(s, order, i, opts, now);
    assert order[i] in order;
  }

  lemma SweptAmongAll(s: Store, order: seq<WorkId>, opts: SweepOptions, now: int)
    requires Enumerates(order, s.rows.Keys)
    ensures SweptAmong(s, order, |order|, opts, now) == (SweptKeys(s, opts, now), |SweptKeys(s, opts, now)|)
  {
    SweptAmongIsFilter(s, order, |order|, opts, now);
    var gone := SweptAmong(s, order, |order|, opts, now).0;
    forall x | x in SweptKeys(s, opts, now)
      ensures x in gone
    {
      var i :| 0 <= i < |order| && order[i] == x;
    }
    assert gone == SweptKeys(s, opts, now);
  }
}
