/**
 The light client said once more, in plain numbers and fields: block times in nanoseconds, header
 fields by name, flags one by one, and the whole store in place of neighbours. The state machine of
 `ClientModel` is proved to do exactly this.
 */
module ClientMeaning {
  import opened Ints
  import opened Options
  import opened Types
  import opened ClientModel
  import opened ClientRuns
  import opened Returns
  import Recovery

  // ---------- times ----------

  /** What is left of a number in an unsigned 64-bit word. */
  function Low64(x: int): (r: u64) {
    x % 0x1_0000_0000_0000_0000
  }

  /** Nanoseconds since 1970. */
  function Nanoseconds(t: Time): int {
    t.seconds * 1_000_000_000 + t.nanos
  }

  lemma TimeMeans(t: Time)
    ensures U64(t.UnixNano()) == Unsigned(t.UnixNano()) == Low64(Nanoseconds(t))
    ensures -0x8000_0000_0000_0000 <= Nanoseconds(t) < 0x8000_0000_0000_0000 ==> t.UnixNano() == Nanoseconds(t)
  {
  }

  /** The block time of the host in nanoseconds, in full. */
  lemma NowMeans(ctx: Context)
    ensures ctx.Now() == Low64(Nanoseconds(ctx.blockTime))
    ensures 0 <= Nanoseconds(ctx.blockTime) < 0x1_0000_0000_0000_0000 ==> ctx.Now() == Nanoseconds(ctx.blockTime)
  {
    TimeMeans(ctx.blockTime);
  }

  /** The trusting period since the timestamp is over at the block time. */
  predicate PeriodOver(cs: ClientState, timestamp: u64, ctx: Context) {
    Low64(timestamp + cs.trustingPeriod) <= Low64(Nanoseconds(ctx.blockTime))
  }

  lemma ExpiredMeans(cs: ClientState, timestamp: u64, ctx: Context)
    ensures IsExpired(cs.trustingPeriod, timestamp, ctx.Now()) <==> PeriodOver(cs, timestamp, ctx)
  {
    NowMeans(ctx);
  }

  predicate IsLive(cs: ClientState, cons: Entries, ctx: Context) {
    cs.frozenHeight == Height(0, 0) && cs.latestHeight in cons
    && !PeriodOver(cs, cons[cs.latestHeight].state.timestamp, ctx)
  }

  /** Frozen by a marker, else active while the latest state is there and its period is not over. */
  lemma StatusMeans(cs: ClientState, cons: Entries, ctx: Context)
    ensures StatusOf(cs, cons, ctx.Now())
         == if cs.frozenHeight != Height(0, 0) then Frozen else if IsLive(cs, cons, ctx) then Active else Expired
  {
    if cs.latestHeight in cons {
      ExpiredMeans(cs, cons[cs.latestHeight].state.timestamp, ctx);
    }
  }

  /** The delay check with each of its errors. */
  lemma DelayMeans(cons: Entries, ctx: Context, h: Height, delayTime: u64, delayBlocks: u64)
    ensures var r := VerifyDelayPeriodPassed(cons, ctx, h, delayTime, delayBlocks);
            var now, at := Low64(Nanoseconds(ctx.blockTime)), ctx.selfHeight;
            var early := delayTime > 0 && h in cons && now < Low64(cons[h].processedTime + delayTime);
            var low := delayBlocks > 0 && h in cons
                       && at.LT(Height(cons[h].processedHeight.revisionNumber,
                                       Low64(cons[h].processedHeight.revisionHeight + delayBlocks)));
            && (r == Err(ProcessedTimeNotFound) <==> delayTime > 0 && h !in cons)
            && (r == Err(ProcessedHeightNotFound) <==> delayTime == 0 && delayBlocks > 0 && h !in cons)
            && (r == Err(DelayPeriodNotPassed) <==> early || low)
            && (r == Ok(()) <==> (delayTime == 0 && delayBlocks == 0) || (h in cons && !early && !low))
  {
    NowMeans(ctx);
  }

  // ---------- one header ----------

  /** The height of a header: its revision is that of the height it trusts. */
  function HeightOf(h: CheckedHeader): Height {
    Height(h.trustedHeight.value.revisionNumber, Unsigned(h.signedHeader.value.height))
  }

  /** What a header stores: its time, its application hash and the validators of the next block. */
  function StateOf(h: CheckedHeader): ConsensusState {
    var light := h.signedHeader.value;
    ConsensusState(Low64(Nanoseconds(light.time)), light.appHash, light.nextValidatorsHash)
  }

  lemma HeaderMeans(h: CheckedHeader)
    ensures HeaderHeight(h) == HeightOf(h) && HeaderConsensus(h) == StateOf(h)
  {
    TimeMeans(h.signedHeader.value.time);
  }

  /** Below the block time plus the clock drift, as signed numbers. */
  predicate InTime(cs: ClientState, ctx: Context, h: CheckedHeader) {
    h.signedHeader.value.time.UnixNano() < TimeLimit(ctx.blockTime.UnixNano(), cs.maxClockDrift)
  }

  /** The next block after the trusted one must come from the validators that the trusted one announced. */
  predicate IsChained(cons: Entries, h: CheckedHeader)
    requires h.trustedHeight.value in cons
  {
    Unsigned(h.signedHeader.value.height) == h.trustedHeight.value.revisionHeight + 1
    ==> h.signedHeader.value.validatorsHash == cons[h.trustedHeight.value].state.nextValidatorsHash
  }

  predicate IsProved(cs: ClientState, cons: Entries, h: CheckedHeader, zk: ProofCheck)
    requires h.trustedHeight.value in cons
  {
    var light := h.signedHeader.value;
    |cs.chainId| <= 31
    && zk(h.zeroKnowledgeProof, cons[h.trustedHeight.value].state.nextValidatorsHash,
          ProverLightHeader(cs.chainId, light.height, light.time, light.validatorsHash, light.nextValidatorsHash,
                            light.appHash))
  }

  predicate IsLater(cons: Entries, h: CheckedHeader)
    requires h.trustedHeight.value in cons
  {
    cons[h.trustedHeight.value].state.timestamp < Low64(Nanoseconds(h.signedHeader.value.time))
  }

  predicate IsHigher(h: CheckedHeader) {
    h.trustedHeight.value.revisionHeight < Unsigned(h.signedHeader.value.height)
  }

  /** Each error of the verification, and when it is given. */
  lemma VerifyHeaderMeans(cs: ClientState, cons: Entries, ctx: Context, h: CheckedHeader, zk: ProofCheck)
    ensures var r := VerifyHeader(cs, cons, ctx, h, zk);
            var trusted := h.trustedHeight.value;
            if trusted !in cons then r == Err(ConsensusStateNotFound)
            else if !IsLater(cons, h) then r == Err(InvalidHeaderTimestamp)
            else if !IsHigher(h) || !InTime(cs, ctx, h) || !IsChained(cons, h) then r == Err(InvalidHeader)
            else if !IsProved(cs, cons, h, zk) then r == Err(InvalidProof)
            else r == Ok(())
  {
    var trusted, light := h.trustedHeight.value, h.signedHeader.value;
    TimeMeans(light.time);
    assert U64(light.height) == Unsigned(light.height);
    assert I64(ctx.blockTime.UnixNano() + I64(cs.maxClockDrift))
        == TimeLimit(ctx.blockTime.UnixNano(), cs.maxClockDrift);
    assert trusted.revisionHeight + 1 < TWO_64 ==>
        (light.height == I64(I64(trusted.revisionHeight) + 1)
         <==> Unsigned(light.height) == trusted.revisionHeight + 1);
  }

  /** The header contradicts what is stored: another state at its height, or a time out of order. */
  ghost predicate Contradicts(cons: Entries, h: CheckedHeader) {
    if HeightOf(h) in cons then cons[HeightOf(h)].state != StateOf(h)
    else !Fits(cons, HeightOf(h), StateOf(h).timestamp)
  }

  lemma MisbehavesMeans(cons: Entries, h: CheckedHeader, e: Entry)
    requires Monotone(cons) && e.state == StateOf(h)
    ensures Misbehaves(cons, HeightOf(h), StateOf(h)) <==> Contradicts(cons, h)
  {
    if HeightOf(h) !in cons {
      FitsMeans(cons, HeightOf(h), e);
    }
  }

  /** What an executed transaction, or a simulated one, prunes: the lowest height if its period is over. */
  ghost predicate GoesNow(cons: Entries, cs: ClientState, ctx: Context, x: Height) {
    x in cons && ((!ctx.checkTx && !ctx.reCheckTx) || ctx.simulate)
    && PeriodOver(cs, cons[x].state.timestamp, ctx)
    && forall y <- cons :: x.LTE(y)
  }

  ghost function Remaining(cons: Entries, cs: ClientState, ctx: Context): Entries {
    map x | x in cons && !GoesNow(cons, cs, ctx, x) :: cons[x]
  }

  lemma PruningMeans(cons: Entries, cs: ClientState, ctx: Context)
    ensures (if ctx.Prunes() then PruneOldest(cons, cs.trustingPeriod, ctx.Now()) else cons) == Remaining(cons, cs, ctx)
  {
    if cons != map[] {
      var oldest := MinOf(cons.Keys);
      ExpiredMeans(cs, cons[oldest].state.timestamp, ctx);
      assert forall x <- cons :: (forall y <- cons :: x.LTE(y)) <==> x == oldest;
    }
  }

  function EntryOf(ctx: Context, h: CheckedHeader): Entry {
    Entry(StateOf(h), Low64(Nanoseconds(ctx.blockTime)), ctx.selfHeight)
  }

  /** The state after a header that is taken up. */
  ghost function Taken(s: State, cs: ClientState, ctx: Context, h: CheckedHeader): State {
    var height, rest := HeightOf(h), Remaining(s.cons, cs, ctx);
    if height in rest then State(Some(cs), rest)
    else State(Some(cs.(latestHeight := if cs.latestHeight.LT(height) then height else cs.latestHeight)),
               rest[height := EntryOf(ctx, h)])
  }

  lemma UpdateMeans(s: State, cs: ClientState, ctx: Context, h: CheckedHeader)
    requires s.client == Some(cs)
    ensures UpdateState(s, cs, ctx, h) == Taken(s, cs, ctx, h)
  {
    PruningMeans(s.cons, cs, ctx);
    HeaderMeans(h);
    NowMeans(ctx);
  }

  /** The header is taken up, or would be if it did not contradict the store. */
  ghost predicate IsVerified(cs: ClientState, cons: Entries, ctx: Context, h: CheckedHeader, zk: ProofCheck) {
    h.trustedHeight.value in cons && IsLater(cons, h) && IsHigher(h) && InTime(cs, ctx, h) && IsChained(cons, h)
    && IsProved(cs, cons, h, zk)
  }

  /**
   Main result: what a header message does to any store in time order. An inactive client and a header that
   does not verify change nothing; a header that contradicts the store freezes the client; any other prunes
   the lowest expired state and is stored with its own fields.
   */
  lemma HeaderStepMeans(s: State, ctx: Context, h: CheckedHeader, zk: ProofCheck)
    requires Monotone(s.cons)
    ensures Next(s, SubmitHeader(ctx, h, zk))
         == if s.client.None? then s
            else
              var cs := s.client.value;
              if !IsLive(cs, s.cons, ctx) || !IsVerified(cs, s.cons, ctx, h, zk) then s
              else if Contradicts(s.cons, h) then State(Some(cs.(frozenHeight := Height(0, 1))), s.cons)
              else Taken(s, cs, ctx, h)
  {
    if s.client.Some? {
      var cs := s.client.value;
      StatusMeans(cs, s.cons, ctx);
      VerifyHeaderMeans(cs, s.cons, ctx, h, zk);
      HeaderMeans(h);
      MisbehavesMeans(s.cons, h, EntryOf(ctx, h));
      UpdateMeans(s, cs, ctx, h);
    }
  }

  // ---------- the other calls ----------

  lemma CreateMeans(s: State, ctx: Context, cs: ClientState, state: ConsensusState)
    ensures Next(s, CreateClient(ctx, cs, state))
         == if s.client.Some? || s.cons != map[] then s
            else State(Some(cs), map[cs.latestHeight := Entry(state, Low64(Nanoseconds(ctx.blockTime)), ctx.selfHeight)])
  {
    NowMeans(ctx);
  }

  /** Misbehaviour freezes an active client if and only if it verifies. */
  lemma MisbehaviourMeans(s: State, ctx: Context, verified: bool)
    ensures Next(s, SubmitMisbehaviour(ctx, verified))
         == if s.client.Some? && IsLive(s.client.value, s.cons, ctx) && verified
            then State(Some(s.client.value.(frozenHeight := Height(0, 1))), s.cons) else s
  {
    if s.client.Some? {
      StatusMeans(s.client.value, s.cons, ctx);
    }
  }

  lemma PruneExpiredMeans(s: State, ctx: Context)
    ensures Next(s, PruneExpired(ctx))
         == if s.client.None? then s
            else s.(cons := map x | x in s.cons && !PeriodOver(s.client.value, s.cons[x].state.timestamp, ctx) :: s.cons[x])
  {
    if s.client.Some? {
      forall x | x in s.cons
        ensures IsExpired(s.client.value.trustingPeriod, s.cons[x].state.timestamp, ctx.Now())
           <==> PeriodOver(s.client.value, s.cons[x].state.timestamp, ctx)
      {
        ExpiredMeans(s.client.value, s.cons[x].state.timestamp, ctx);
      }
    }
  }

  /** A recovery with its errors; the client is never frozen after it. */
  lemma RecoverMeans(s: State, cs: ClientState, substitute: Entries, other: ClientState, now: u64)
    ensures Recover(s, cs, substitute, other, now)
         == if cs.unbondingPeriod != other.unbondingPeriod || cs.maxClockDrift != other.maxClockDrift
            then Err(InvalidSubstitute)
            else if other.latestHeight !in substitute then Err(ConsensusStateNotFound)
            else Ok(State(Some(ClientState(other.chainId, other.trustingPeriod, cs.unbondingPeriod, cs.maxClockDrift,
                                           Height(0, 0), other.latestHeight)),
                          s.cons[other.latestHeight := substitute[other.latestHeight]]))
  {
    Recovery.MatchingMeans(cs, other);
  }

  lemma RecoverStepMeans(s: State, ctx: Context, substitute: Entries, other: ClientState)
    ensures var s' := Next(s, RecoverClient(ctx, substitute, other));
            if s.client.None? then s' == s
            else var r := Recover(s, s.client.value, substitute, other, ctx.Now());
                 s' == if r.Ok? then r.value else s
  {
  }
}
