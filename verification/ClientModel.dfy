/**
 The light client as a state machine over a plain map from heights to consensus states.
 `ClientStore` shows that the byte-keyed store with its index behaves like this map.
 */
module ClientModel {
  import opened Ints
  import opened Options
  import opened Types

  /** A consensus state with the time and height at which it was processed. */
  datatype Entry = Entry(state: ConsensusState, processedTime: u64, processedHeight: Height)

  type Entries = map<Height, Entry>

  datatype State = State(client: Option<ClientState>, cons: Entries)

  const EMPTY := State(None, map[])

  /** What the host chain says about the block and the transaction being executed. */
  datatype Context = Context(
    blockTime: Time, selfHeight: Height, checkTx: bool, reCheckTx: bool, simulate: bool)
  {
    function Now(): u64 {
      U64(blockTime.UnixNano())
    }

    predicate Prunes() {
      (!checkTx && !reCheckTx) || simulate
    }
  }

  /** A header that passed basic validation: both nested messages are there. */
  type CheckedHeader = h: Header | h.signedHeader.Some? && h.trustedHeight.Some?
    witness Header(Some(LightHeader(0, Time(0, 0), [], [], [])), Some(ZERO_HEIGHT), [])

  function HeaderHeight(h: CheckedHeader): Height {
    Height(h.trustedHeight.value.revisionNumber, U64(h.signedHeader.value.height))
  }

  function HeaderConsensus(h: CheckedHeader): ConsensusState {
    var light := h.signedHeader.value;
    ConsensusState(U64(light.time.UnixNano()), light.appHash, light.nextValidatorsHash)
  }

  /** The part of a header that the zero-knowledge proof speaks about. */
  datatype ProverLightHeader = ProverLightHeader(
    chainId: Bytes, height: i64, time: Time, validatorsHash: Bytes, nextValidatorsHash: Bytes, appHash: Bytes)

  /** Proof bytes, trusted validators hash and header: the cryptographic check, left arbitrary. */
  type ProofCheck = (Bytes, Bytes, ProverLightHeader) -> bool

  datatype Error =
    | ConsensusStateNotFound
    | InvalidHeaderHeight
    | InvalidHeaderTimestamp
    | InvalidHeader
    | InvalidProof
    | InvalidSubstitute
    | ProcessedTimeNotFound
    | ProcessedHeightNotFound
    | DelayPeriodNotPassed
    | UpdateClientFailed

  // ---------- least and greatest heights ----------

  ghost function MinOf(s: set<Height>): (m: Height)
    requires s != {}
    ensures m in s && forall x <- s :: m.LTE(x)
  {
    var x :| x in s;
    if s == {x} then x
    else
      assert s == (s - {x}) + {x};
      var m := MinOf(s - {x});
      if m.LT(x) then m else x
  }

  ghost function MaxOf(s: set<Height>): (m: Height)
    requires s != {}
    ensures m in s && forall x <- s :: x.LTE(m)
  {
    var x :| x in s;
    if s == {x} then x
    else
      assert s == (s - {x}) + {x};
      var m := MaxOf(s - {x});
      if x.LT(m) then m else x
  }

  /** The consensus state at the least stored height above `h`. */
  ghost function NextState(cons: Entries, h: Height): Option<ConsensusState> {
    var above := set x | x in cons && h.LT(x);
    if above == {} then None else Some(cons[MinOf(above)].state)
  }

  /** The consensus state at the greatest stored height below `h`. */
  ghost function PreviousState(cons: Entries, h: Height): Option<ConsensusState> {
    var below := set x | x in cons && x.LT(h);
    if below == {} then None else Some(cons[MaxOf(below)].state)
  }

  // ---------- the operations ----------

  /** The sum wraps at 64 bits, as in the source. */
  predicate IsExpired(trustingPeriod: u64, timestamp: u64, now: u64) {
    U64(timestamp + trustingPeriod) <= now
  }

  datatype Status = Active | Frozen | Expired

  function StatusOf(cs: ClientState, cons: Entries, now: u64): Status {
    if !cs.frozenHeight.IsZero() then Frozen
    else if cs.latestHeight !in cons then Expired
    else if IsExpired(cs.trustingPeriod, cons[cs.latestHeight].state.timestamp, now) then Expired
    else Active
  }

  function VerifyHeader(cs: ClientState, cons: Entries, ctx: Context, h: CheckedHeader, zk: ProofCheck)
    : (r: Result<(), Error>)
  {
    var trusted, light := h.trustedHeight.value, h.signedHeader.value;
    if trusted !in cons then Err(ConsensusStateNotFound)
    else if HeaderHeight(h).revisionNumber != trusted.revisionNumber then Err(InvalidHeaderHeight)
    else if cons[trusted].state.timestamp >= U64(light.time.UnixNano()) then Err(InvalidHeaderTimestamp)
    else if HeaderHeight(h).LTE(trusted) then Err(InvalidHeader)
    else if light.time.UnixNano() >= I64(ctx.blockTime.UnixNano() + I64(cs.maxClockDrift)) then Err(InvalidHeader)
    else if light.height == I64(I64(trusted.revisionHeight) + 1)
         && light.validatorsHash != cons[trusted].state.nextValidatorsHash then Err(InvalidHeader)
    else if |cs.chainId| > 31 then Err(InvalidProof)
    else if !zk(h.zeroKnowledgeProof, cons[trusted].state.nextValidatorsHash,
                ProverLightHeader(cs.chainId, light.height, light.time, light.validatorsHash,
                                  light.nextValidatorsHash, light.appHash)) then Err(InvalidProof)
    else Ok(())
  }

  /** The check that the source makes: the stored state at this height, else the two neighbours. */
  ghost predicate Misbehaves(cons: Entries, height: Height, state: ConsensusState) {
    if height in cons then cons[height].state != state
    else
      var prev, next := PreviousState(cons, height), NextState(cons, height);
      (prev.Some? && prev.value.timestamp >= state.timestamp)
      || (next.Some? && next.value.timestamp <= state.timestamp)
  }

  ghost function PruneOldest(cons: Entries, trustingPeriod: u64, now: u64): Entries {
    if cons == map[] then cons
    else
      var oldest := MinOf(cons.Keys);
      if IsExpired(trustingPeriod, cons[oldest].state.timestamp, now) then cons - {oldest} else cons
  }

  function ExpiredHeights(cons: Entries, trustingPeriod: u64, now: u64): set<Height> {
    set h | h in cons && IsExpired(trustingPeriod, cons[h].state.timestamp, now)
  }

  function PruneAllExpired(cons: Entries, trustingPeriod: u64, now: u64): Entries {
    cons - ExpiredHeights(cons, trustingPeriod, now)
  }

  /** Prune first; a height that is already stored is left alone; otherwise store it. */
  ghost function UpdateState(s: State, cs: ClientState, ctx: Context, h: CheckedHeader): State {
    var cons := if ctx.Prunes() then PruneOldest(s.cons, cs.trustingPeriod, ctx.Now()) else s.cons;
    var height := HeaderHeight(h);
    if height in cons then s.(cons := cons)
    else
      State(Some(if cs.latestHeight.LT(height) then cs.(latestHeight := height) else cs),
            cons[height := Entry(HeaderConsensus(h), ctx.Now(), ctx.selfHeight)])
  }

  function Initialize(s: State, cs: ClientState, state: ConsensusState, ctx: Context): State {
    State(Some(cs), s.cons[cs.latestHeight := Entry(state, ctx.Now(), ctx.selfHeight)])
  }

  function Freeze(s: State, cs: ClientState): State {
    s.(client := Some(cs.(frozenHeight := FROZEN_HEIGHT)))
  }

  /** Equality after the fields that may differ are zeroed in both copies. */
  predicate IsMatchingClientState(subject: ClientState, substitute: ClientState) {
    subject.(latestHeight := ZERO_HEIGHT, frozenHeight := ZERO_HEIGHT, trustingPeriod := 0, chainId := [])
    == substitute.(latestHeight := ZERO_HEIGHT, frozenHeight := ZERO_HEIGHT, trustingPeriod := 0, chainId := [])
  }

  function Recover(s: State, cs: ClientState, substitute: Entries, substituteClient: ClientState, now: u64)
    : (r: Result<State, Error>)
  {
    var height := substituteClient.latestHeight;
    if !IsMatchingClientState(cs, substituteClient) then Err(InvalidSubstitute)
    else if height !in substitute then Err(ConsensusStateNotFound)
    else
      var frozen := if StatusOf(cs, s.cons, now).Frozen? then ZERO_HEIGHT else cs.frozenHeight;
      Ok(State(Some(cs.(frozenHeight := frozen, latestHeight := height, chainId := substituteClient.chainId,
                        trustingPeriod := substituteClient.trustingPeriod)),
               s.cons[height := substitute[height]]))
  }

  /** Both delays are inclusive and both sums wrap at 64 bits. */
  function VerifyDelayPeriodPassed(cons: Entries, ctx: Context, height: Height, delayTime: u64, delayBlocks: u64)
    : (r: Result<(), Error>)
  {
    if delayTime != 0 && height !in cons then Err(ProcessedTimeNotFound)
    else if delayTime != 0 && ctx.Now() < U64(cons[height].processedTime + delayTime) then Err(DelayPeriodNotPassed)
    else if delayBlocks == 0 then Ok(())
    else if height !in cons then Err(ProcessedHeightNotFound)
    else
      var p := cons[height].processedHeight;
      if ctx.selfHeight.LT(Height(p.revisionNumber, U64(p.revisionHeight + delayBlocks)))
      then Err(DelayPeriodNotPassed) else Ok(())
  }

  // ---------- the state machine ----------

  /** One call of the host: the keeper creates a client once, checks Active before it handles a message. */
  datatype Step =
    | CreateClient(ctx: Context, cs: ClientState, state: ConsensusState)
    | SubmitHeader(ctx: Context, header: CheckedHeader, zk: ProofCheck)
    | SubmitMisbehaviour(ctx: Context, verified: bool)
    | PruneExpired(ctx: Context)
    | RecoverClient(ctx: Context, substitute: Entries, substituteClient: ClientState)

  predicate IsActive(s: State, now: u64) {
    s.client.Some? && StatusOf(s.client.value, s.cons, now).Active?
  }

  /** The header is taken up: the client is active, the header verifies and shows no misbehaviour. */
  ghost predicate Accepts(s: State, ctx: Context, h: CheckedHeader, zk: ProofCheck) {
    IsActive(s, ctx.Now())
    && VerifyHeader(s.client.value, s.cons, ctx, h, zk).Ok?
    && !Misbehaves(s.cons, HeaderHeight(h), HeaderConsensus(h))
  }

  ghost function HandleHeader(s: State, ctx: Context, h: CheckedHeader, zk: ProofCheck): State {
    if !IsActive(s, ctx.Now()) || VerifyHeader(s.client.value, s.cons, ctx, h, zk).Err? then s
    else if Misbehaves(s.cons, HeaderHeight(h), HeaderConsensus(h)) then Freeze(s, s.client.value)
    else UpdateState(s, s.client.value, ctx, h)
  }

  ghost function Next(s: State, step: Step): State {
    match step
    case CreateClient(ctx, cs, state) => if s == EMPTY then Initialize(s, cs, state, ctx) else s
    case SubmitHeader(ctx, header, zk) => HandleHeader(s, ctx, header, zk)
    case SubmitMisbehaviour(ctx, verified) =>
      if IsActive(s, ctx.Now()) && verified then Freeze(s, s.client.value) else s
    case PruneExpired(ctx) =>
      if s.client.None? then s
      else s.(cons := PruneAllExpired(s.cons, s.client.value.trustingPeriod, ctx.Now()))
    case RecoverClient(ctx, substitute, substituteClient) =>
      if s.client.None? then s
      else
        var r := Recover(s, s.client.value, substitute, substituteClient, ctx.Now());
        if r.Ok? then r.value else s
  }

  ghost function Run(s: State, steps: seq<Step>): State
    decreases |steps|
  {
    if steps == [] then s else Run(Next(s, steps[0]), steps[1..])
  }

  lemma {:induction false} RunConcat(s: State, a: seq<Step>, b: seq<Step>)
    ensures Run(s, a + b) == Run(Run(s, a), b)
    decreases |a|
  {
    if a == [] {
      assert a + b == b;
    } else {
      assert (a + b)[1..] == a[1..] + b;
      RunConcat(Next(s, a[0]), a[1..], b);
    }
  }

  lemma RunOne(s: State, steps: seq<Step>, step: Step)
    requires steps == [step]
    ensures Run(s, steps) == Next(s, step)
  {
    assert Run(Next(s, step), steps[1..]) == Next(s, step);
  }

  /** The state before step `i` of a run. */
  ghost function At(s: State, steps: seq<Step>, i: nat): State
    requires i <= |steps|
  {
    Run(s, steps[..i])
  }

  lemma AtNext(s: State, steps: seq<Step>, i: nat)
    requires i < |steps|
    ensures At(s, steps, i + 1) == Next(At(s, steps, i), steps[i])
  {
    assert steps[..i + 1] == steps[..i] + [steps[i]];
    RunConcat(s, steps[..i], [steps[i]]);
  }

  lemma AtEnd(s: State, steps: seq<Step>)
    ensures At(s, steps, |steps|) == Run(s, steps)
  {
    assert steps[..|steps|] == steps;
  }

  /** What is left of the run from step `i` on leads to its end. */
  lemma AtRest(s: State, steps: seq<Step>, i: nat)
    requires i <= |steps|
    ensures Run(At(s, steps, i), steps[i..]) == Run(s, steps)
  {
    assert steps == steps[..i] + steps[i..];
    RunConcat(s, steps[..i], steps[i..]);
  }

  predicate WithoutRecovery(steps: seq<Step>) {
    forall i | 0 <= i < |steps| :: !steps[i].RecoverClient?
  }
}
