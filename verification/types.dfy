/** The vocabulary of package backend: exit modes, errors, lease records and
    checkpoints, shared by both stores and by every client of them. */
module Types {

  datatype Option<+T> = None | Some(value: T)

  type WorkId = string
  type HolderId = string
  newtype Byte = b: int | 0 <= b < 256

  /** Checkpointed state. A nil and an empty slice mean the same to every backend, so both are []. */
  type Bytes = seq<Byte>

  /** Durations and clock readings are nanoseconds. */
  const MICROSECOND := 1_000
  const MILLISECOND := 1_000_000

  datatype ExitMode = ExitNone | ExitFinished | ExitAbandoned | ExitRetired | ExitExpired

  /** The modes a holder may declare with Release. */
  predicate Declarable(mode: ExitMode) {
    mode == ExitFinished || mode == ExitAbandoned || mode == ExitRetired
  }

  datatype Error = ErrFenced | ErrLeaseHeld | ErrLeaseExpired | ErrInvalidExitMode | ErrContext

  datatype LeaseRecord = LeaseRecord(work: WorkId, holder: HolderId, token: nat, expiresAt: int)

  /** What ReadCheckpoint answers. */
  datatype CheckpointView = CheckpointView(state: Option<Bytes>, prevExit: ExitMode, prevHolder: HolderId)

  datatype SweepOptions = SweepOptions(retention: int, includeExpired: bool)

  /** A nil or empty state clears the stored checkpoint. */
  function Stored(state: Bytes): Option<Bytes> {
    if state == [] then None else Some(state)
  }

  /** A Go error is known by the sentinels it matches with errors.Is; None is nil. */
  datatype Sentinel =
    | IsFenced | IsLeaseHeld | IsLeaseExpired | IsInvalidExitMode | IsWindowExhausted | IsRetire
    | IsCanceled | IsDeadlineExceeded

  type Sentinels = set<Sentinel>
  type GoError = Option<Sentinels>

  predicate Is(e: GoError, s: Sentinel) {
    e.Some? && s in e.value
  }

  ghost predicate Distinct<T(!new)>(xs: seq<T>) {
    forall i, j | 0 <= i < j < |xs| :: xs[i] != xs[j]
  }

  function Min(a: int, b: int): int {
    if a < b then a else b
  }
}
