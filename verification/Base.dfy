/** Vocabulary shared by every module: machine integers as bounded mathematical
    integers, optional values and the error codes a decision can depend on. */
module Base {
  const U32_MAX: int := 0xFFFF_FFFF
  const U64_MAX: int := 0xFFFF_FFFF_FFFF_FFFF

  type U8 = x: int | 0 <= x <= 0xFF
  type U16 = x: int | 0 <= x <= 0xFFFF
  type U32 = x: int | 0 <= x <= 0xFFFF_FFFF
  type U64 = x: int | 0 <= x <= 0xFFFF_FFFF_FFFF_FFFF
  type I64 = x: int | -0x8000_0000_0000_0000 <= x <= 0x7FFF_FFFF_FFFF_FFFF

  type Byte = U8
  type Bytes = seq<Byte>

  /** Milliseconds; the smallest value stands for "no time". */
  type Millis = I64
  const NO_TIME: Millis := -0x8000_0000_0000_0000
  const MAX_TIME: Millis := 0x7FFF_FFFF_FFFF_FFFF

  datatype Option<+T> = None | Some(value: T)

  datatype ErrorCode =
    | InvalidArgument
    | OutOfRange
    | ContradictoryEvidence
    | UnknownRegion
    | UnknownResource
    | BoundExceeded
    | TruncatedFrame
    | MalformedFrame
    | UnsupportedVersion
    | FrameTooLarge
    | IntegrityMismatch
    | NotStarted
    | StaleEpoch
    | UnknownEpoch
    | UnknownPublisher
    | StaleIncarnation
    | DuplicateFrame
    | OutOfOrderSequence
    | StaleGeneration
    | DurableGrowthExceeded
    | PersistenceIoError
    | PersistenceTruncated
    | PersistenceCorrupt
    | PersistenceVersionUnsupported
    | MissingEvidence

  datatype Result<+T> = Ok(value: T) | Err(error: ErrorCode)

  /** Elapsed time between two instants: saturates, never wraps, and treats a
      missing or later start as no elapsed time at all. */
  function ElapsedMs(from: Millis, to: Millis): (r: Millis)
    ensures 0 <= r
    ensures from != NO_TIME && to != NO_TIME && from <= to && to - from <= MAX_TIME ==> r == to - from
  {
    if from == NO_TIME || to == NO_TIME || to <= from then 0
    else if to - from > MAX_TIME then MAX_TIME
    else to - from
  }

  /** Age of an observation: a missing observation or one stamped in the future
      is as old as can be, so it is never mistaken for fresh evidence. */
  function AgeMs(observed: Millis, now: Millis): (r: Millis)
    ensures 0 <= r
    ensures r < MAX_TIME ==> observed != NO_TIME && now != NO_TIME && observed + r == now
  {
    if observed == NO_TIME || now == NO_TIME || now < observed || now - observed >= MAX_TIME then MAX_TIME
    else now - observed
  }

  /** Observed not after now, and at most so long before it. */
  predicate WithinAge(observed: Millis, now: Millis, maxAge: U32) {
    observed != NO_TIME && now != NO_TIME && observed <= now <= observed + maxAge
  }

  lemma AgeExactly(observed: Millis, now: Millis, maxAge: U32)
    ensures AgeMs(observed, now) <= maxAge <==> WithinAge(observed, now, maxAge)
  {
  }

  function Min(a: int, b: int): (r: int)
    ensures r <= a && r <= b && (r == a || r == b)
  {
    if a < b then a else b
  }

  function Max(a: int, b: int): (r: int)
    ensures a <= r && b <= r && (r == a || r == b)
  {
    if a < b then b else a
  }
}
