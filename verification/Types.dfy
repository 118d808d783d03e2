/** The messages and records of the CometBLS light client. */
module Types {
  import opened Ints
  import opened Options

  /** A block height: revisions first, then the height inside the revision. */
  datatype Height = Height(revisionNumber: u64, revisionHeight: u64)
  {
    predicate LT(other: Height) {
      revisionNumber < other.revisionNumber
      || (revisionNumber == other.revisionNumber && revisionHeight < other.revisionHeight)
    }

    predicate LTE(other: Height) {
      LT(other) || this == other
    }

    predicate IsZero() {
      this == ZERO_HEIGHT
    }
  }

  const ZERO_HEIGHT := Height(0, 0)

  /** The marker that every freeze stores. */
  const FROZEN_HEIGHT := Height(0, 1)

  const NANOS_PER_SECOND: int := 1_000_000_000

  type Nanos = x: int | 0 <= x < NANOS_PER_SECOND

  datatype Time = Time(seconds: i64, nanos: Nanos)
  {
    /** Nanoseconds since the epoch in a signed 64-bit integer. */
    function UnixNano(): i64 {
      I64(seconds * NANOS_PER_SECOND + nanos)
    }
  }

  datatype ClientState = ClientState(
    chainId: Bytes,
    trustingPeriod: u64,
    unbondingPeriod: u64,
    maxClockDrift: u64,
    frozenHeight: Height,
    latestHeight: Height)

  /** `root` is the hash inside the Merkle root. */
  datatype ConsensusState = ConsensusState(timestamp: u64, root: Bytes, nextValidatorsHash: Bytes)

  datatype LightHeader = LightHeader(
    height: i64,
    time: Time,
    validatorsHash: Bytes,
    nextValidatorsHash: Bytes,
    appHash: Bytes)

  datatype Header = Header(
    signedHeader: Option<LightHeader>,
    trustedHeight: Option<Height>,
    zeroKnowledgeProof: Bytes)

  datatype Misbehaviour = Misbehaviour(header1: Option<Header>, header2: Option<Header>)
}
