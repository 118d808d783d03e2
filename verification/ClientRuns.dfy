/** What every run of the light client keeps. */
module ClientRuns {
  import opened Ints
  import opened Options
  import opened Types
  import opened ClientModel

  /** Consensus timestamps strictly increase with the height. */
  ghost predicate Monotone(cons: Entries) {
    forall a, b :: a in cons && b in cons && a.LT(b) ==> cons[a].state.timestamp < cons[b].state.timestamp
  }

  /** The latest height of the client bounds the stored heights, all of one revision. */
  ghost predicate Bounded(s: State) {
    (s.client.None? ==> s.cons == map[])
    && forall h <- s.cons :: s.client.Some? && h.LTE(s.client.value.latestHeight)
                             && h.revisionNumber == s.client.value.latestHeight.revisionNumber
  }

  ghost predicate Invariant(s: State) {
    Monotone(s.cons) && Bounded(s)
  }

  /** The neighbour check of the source decides the global question. */
  lemma NeighbourCheckIsGlobal(cons: Entries, height: Height, e: Entry)
    requires Monotone(cons)
    ensures !Misbehaves(cons, height, e.state)
       <==> (height in cons ==> cons[height].state == e.state) && Monotone(cons[height := e])
  {
    var grown := cons[height := e];
    if height !in cons {
      var below := set x | x in cons && x.LT(height);
      var above := set x | x in cons && height.LT(x);
      if below != {} && Monotone(grown) {
        assert MaxOf(below) in grown && height in grown;
      }
      if above != {} && Monotone(grown) {
        assert MinOf(above) in grown && height in grown;
      }
      if !Misbehaves(cons, height, e.state) {
        forall a, b | a in grown && b in grown && a.LT(b)
          ensures grown[a].state.timestamp < grown[b].state.timestamp
        {
          if b == height {
            assert a in below;
          } else if a == height {
            assert b in above;
          }
        }
      }
    }
  }

  lemma PruneOldestIsPart(cons: Entries, period: u64, now: u64)
    ensures var pruned := PruneOldest(cons, period, now);
            pruned.Keys <= cons.Keys && forall h <- pruned :: pruned[h] == cons[h]
  {
  }

  /** An accepted header lies above its trusted height, in the revision of the client. */
  lemma AcceptedHeight(s: State, ctx: Context, h: CheckedHeader, zk: ProofCheck)
    requires Accepts(s, ctx, h, zk)
    ensures h.trustedHeight.value in s.cons && h.trustedHeight.value.LT(HeaderHeight(h))
    ensures Bounded(s) ==> HeaderHeight(h).revisionNumber == s.client.value.latestHeight.revisionNumber
  {
  }

  lemma PartIsMonotone(whole: Entries, part: Entries)
    requires Monotone(whole) && forall x <- part :: x in whole && part[x].state == whole[x].state
    ensures Monotone(part)
  {
  }

  /** What an update leaves is part of the old store with the new state in it. */
  lemma UpdateIsPart(s: State, cs: ClientState, ctx: Context, h: CheckedHeader)
    requires s.client == Some(cs) && !Misbehaves(s.cons, HeaderHeight(h), HeaderConsensus(h))
    ensures var s', height := UpdateState(s, cs, ctx, h), HeaderHeight(h);
            (forall x <- s'.cons :: x == height || x in s.cons)
            && (forall x <- s'.cons ::
                  s'.cons[x].state == if x == height then HeaderConsensus(h) else s.cons[x].state)
            && (s'.client == s.client
                || (s'.client == Some(cs.(latestHeight := height)) && cs.latestHeight.LT(height)))
            && (height in s'.cons && height !in s.cons ==> height.LTE(s'.client.value.latestHeight))
  {
    PruneOldestIsPart(s.cons, cs.trustingPeriod, ctx.Now());
  }

  lemma UpdateKeepsInvariant(s: State, ctx: Context, h: CheckedHeader, zk: ProofCheck)
    requires Invariant(s) && Accepts(s, ctx, h, zk)
    ensures Invariant(UpdateState(s, s.client.value, ctx, h))
  {
    var cs := s.client.value;
    var e := Entry(HeaderConsensus(h), ctx.Now(), ctx.selfHeight);
    AcceptedHeight(s, ctx, h, zk);
    NeighbourCheckIsGlobal(s.cons, HeaderHeight(h), e);
    var s' := UpdateState(s, cs, ctx, h);
    UpdateIsPart(s, cs, ctx, h);
    PartIsMonotone(s.cons[HeaderHeight(h) := e], s'.cons);
  }

  lemma StepKeepsInvariant(s: State, step: Step)
    requires Invariant(s) && !step.RecoverClient?
    ensures Invariant(Next(s, step))
  {
    if step.SubmitHeader? && Accepts(s, step.ctx, step.header, step.zk) {
      UpdateKeepsInvariant(s, step.ctx, step.header, step.zk);
    }
  }

  /** Main result: in every run, timestamps increase with height and the latest height is the top. */
  lemma {:induction false} RunKeepsInvariant(s: State, steps: seq<Step>)
    requires Invariant(s) && WithoutRecovery(steps)
    ensures Invariant(Run(s, steps))
    decreases |steps|
  {
    if steps != [] {
      StepKeepsInvariant(s, steps[0]);
      RunKeepsInvariant(Next(s, steps[0]), steps[1..]);
    }
  }

  lemma EveryRunIsMonotone(steps: seq<Step>)
    requires WithoutRecovery(steps)
    ensures Monotone(Run(EMPTY, steps).cons) && Bounded(Run(EMPTY, steps))
  {
    RunKeepsInvariant(EMPTY, steps);
  }

  // ---------- what one accepted header does ----------

  /** A signed number read as unsigned. */
  function Unsigned(x: i64): u64 {
    if x < 0 then x + TWO_64 else x
  }

  /** An unsigned number read as signed. */
  function Signed(x: u64): i64 {
    if x < TWO_63 then x else x - TWO_64
  }

  /** A header must be older than this: the sum runs into negative times once it passes 2^63. */
  function TimeLimit(blockTime: i64, drift: u64): i64 {
    if blockTime + drift < TWO_63 then blockTime + drift else blockTime + drift - TWO_64
  }

  /**
   A header verifies exactly when it extends a stored state: later and higher as unsigned numbers, not
   too far ahead of the block as signed ones, chained by its validators if it is the next block, proved.
   */
  lemma VerifiedHeaderMeans(cs: ClientState, cons: Entries, ctx: Context, h: CheckedHeader, zk: ProofCheck)
    ensures var trusted, light := h.trustedHeight.value, h.signedHeader.value;
            VerifyHeader(cs, cons, ctx, h, zk).Ok?
            <==> trusted in cons
                 && cons[trusted].state.timestamp < Unsigned(light.time.UnixNano())
                 && light.time.UnixNano() < TimeLimit(ctx.blockTime.UnixNano(), cs.maxClockDrift)
                 && trusted.revisionHeight < Unsigned(light.height)
                 && (Unsigned(light.height) == trusted.revisionHeight + 1
                     ==> light.validatorsHash == cons[trusted].state.nextValidatorsHash)
                 && |cs.chainId| <= 31
                 && zk(h.zeroKnowledgeProof, cons[trusted].state.nextValidatorsHash,
                       ProverLightHeader(cs.chainId, light.height, light.time, light.validatorsHash,
                                         light.nextValidatorsHash, light.appHash))
  {
    var trusted, light := h.trustedHeight.value, h.signedHeader.value;
    assert U64(light.height) == Unsigned(light.height);
    assert U64(light.time.UnixNano()) == Unsigned(light.time.UnixNano());
    assert I64(ctx.blockTime.UnixNano() + I64(cs.maxClockDrift))
        == TimeLimit(ctx.blockTime.UnixNano(), cs.maxClockDrift);
    assert trusted.revisionHeight + 1 < TWO_64 ==>
        (light.height == I64(I64(trusted.revisionHeight) + 1)
         <==> Unsigned(light.height) == trusted.revisionHeight + 1);
  }

  lemma AtMostOne(gone: set<Height>, h: Height)
    requires gone <= {h}
    ensures |gone| <= 1
  {
    if gone != {} {
      assert gone == {h};
    }
  }

  /** The header is stored unless it was there, and no other entry changes. */
  lemma AcceptedHeaderStores(s: State, ctx: Context, h: CheckedHeader, zk: ProofCheck)
    requires Invariant(s) && Accepts(s, ctx, h, zk)
    ensures var s', height, cs := HandleHeader(s, ctx, h, zk), HeaderHeight(h), s.client.value;
            && height in s'.cons && s'.cons[height].state == HeaderConsensus(h)
            && (height !in s.cons ==> s'.cons[height] == Entry(HeaderConsensus(h), ctx.Now(), ctx.selfHeight))
            && (forall x <- s'.cons :: x != height ==> x in s.cons && s'.cons[x] == s.cons[x])
            && s'.client == Some(cs.(latestHeight := if cs.latestHeight.LT(height) then height else cs.latestHeight))
  {
    AcceptedHeight(s, ctx, h, zk);
    assert MinOf(s.cons.Keys).LTE(h.trustedHeight.value);
  }

  /** At most the lowest state goes, and only if it is expired and the transaction is executed. */
  lemma AcceptedHeaderPrunes(s: State, ctx: Context, h: CheckedHeader, zk: ProofCheck)
    requires Accepts(s, ctx, h, zk)
    ensures var s' := HandleHeader(s, ctx, h, zk);
            && |s.cons.Keys - s'.cons.Keys| <= 1
            && forall x <- s.cons :: x !in s'.cons ==>
                 ctx.Prunes() && IsExpired(s.client.value.trustingPeriod, s.cons[x].state.timestamp, ctx.Now())
                 && forall y <- s'.cons :: x.LT(y)
  {
    AcceptedHeight(s, ctx, h, zk);
    var s' := HandleHeader(s, ctx, h, zk);
    var oldest := MinOf(s.cons.Keys);
    assert oldest.LTE(h.trustedHeight.value);
    assert s.cons.Keys - s'.cons.Keys <= {oldest};
    AtMostOne(s.cons.Keys - s'.cons.Keys, oldest);
  }

  // ---------- staying active ----------

  /** An accepted header above the latest height is later than the latest state. */
  lemma NewLatestIsLater(s: State, ctx: Context, h: CheckedHeader, zk: ProofCheck)
    requires Invariant(s) && Accepts(s, ctx, h, zk) && s.client.value.latestHeight.LT(HeaderHeight(h))
    ensures s.cons[s.client.value.latestHeight].state.timestamp < HeaderConsensus(h).timestamp
  {
    var latest, height := s.client.value.latestHeight, HeaderHeight(h);
    var e := Entry(HeaderConsensus(h), ctx.Now(), ctx.selfHeight);
    NeighbourCheckIsGlobal(s.cons, height, e);
    var grown := s.cons[height := e];
    assert latest in grown && height in grown;
  }

  /**
   An accepted header leaves the client active at the same block time, unless its own timestamp
   plus the trusting period wraps around so far that the new latest state counts as expired.
   */
  lemma AcceptedHeaderStaysActive(s: State, ctx: Context, h: CheckedHeader, zk: ProofCheck)
    requires Invariant(s) && Accepts(s, ctx, h, zk)
    ensures var cs, state := s.client.value, HeaderConsensus(h);
            IsActive(HandleHeader(s, ctx, h, zk), ctx.Now())
            <==> !(cs.latestHeight.LT(HeaderHeight(h)) && IsExpired(cs.trustingPeriod, state.timestamp, ctx.Now()))
    ensures s.client.value.trustingPeriod + HeaderConsensus(h).timestamp < TWO_64
            ==> IsActive(HandleHeader(s, ctx, h, zk), ctx.Now())
  {
    AcceptedHeaderStores(s, ctx, h, zk);
    AcceptedHeaderPrunes(s, ctx, h, zk);
    ActiveAfterUpdate(s, HandleHeader(s, ctx, h, zk), HeaderHeight(h), ctx.Now());
    if s.client.value.latestHeight.LT(HeaderHeight(h)) {
      NewLatestIsLater(s, ctx, h, zk);
    }
  }

  lemma ActiveAfterUpdate(s: State, s': State, height: Height, now: u64)
    requires IsActive(s, now) && height in s'.cons
    requires var cs := s.client.value;
             s'.client == Some(cs.(latestHeight := if cs.latestHeight.LT(height) then height else cs.latestHeight))
    requires height in s.cons ==> s'.cons[height].state == s.cons[height].state
    requires forall x <- s'.cons :: x != height ==> x in s.cons && s'.cons[x] == s.cons[x]
    requires forall x <- s.cons :: x !in s'.cons ==>
               IsExpired(s.client.value.trustingPeriod, s.cons[x].state.timestamp, now)
    ensures IsActive(s', now)
       <==> !(s.client.value.latestHeight.LT(height)
              && IsExpired(s.client.value.trustingPeriod, s'.cons[height].state.timestamp, now))
  {
  }

  // ---------- heights only move up ----------

  /** Every stored height is at least `floor`. */
  ghost predicate AtLeast(cons: Entries, floor: Height) {
    forall h <- cons :: floor.LTE(h)
  }

  /** Every stored height is above `floor`. */
  ghost predicate Above(cons: Entries, floor: Height) {
    forall h <- cons :: floor.LT(h)
  }

  lemma StepKeepsFloor(s: State, step: Step, floor: Height)
    requires s.client.Some? && !step.RecoverClient?
    ensures Next(s, step).client.Some?
    ensures AtLeast(s.cons, floor) ==> AtLeast(Next(s, step).cons, floor)
    ensures Above(s.cons, floor) ==> Above(Next(s, step).cons, floor)
  {
    if step.SubmitHeader? && Accepts(s, step.ctx, step.header, step.zk) {
      AcceptedHeight(s, step.ctx, step.header, step.zk);
      PruneOldestIsPart(s.cons, s.client.value.trustingPeriod, step.ctx.Now());
    }
  }

  /** Main result: in every run the lowest stored height never moves down. */
  lemma {:induction false} RunKeepsFloor(s: State, steps: seq<Step>, floor: Height)
    requires s.client.Some? && WithoutRecovery(steps)
    ensures Run(s, steps).client.Some?
    ensures AtLeast(s.cons, floor) ==> AtLeast(Run(s, steps).cons, floor)
    ensures Above(s.cons, floor) ==> Above(Run(s, steps).cons, floor)
    decreases |steps|
  {
    if steps != [] {
      StepKeepsFloor(s, steps[0], floor);
      RunKeepsFloor(Next(s, steps[0]), steps[1..], floor);
    }
  }

  // ---------- entries never change, pruned heights never return ----------

  /** From `before` to `after`, a stored entry is either kept as it was or gone below the floor. */
  ghost predicate KeptOrPassed(before: Entries, after: Entries) {
    forall h <- before :: if h in after then after[h] == before[h] else Above(after, h)
  }

  /**
   The expiry of a higher state wraps at 64 bits and has passed, that of a lower one does not wrap and
   has not: pruning now would leave a gap.
   */
  ghost predicate Straddles(cons: Entries, period: u64, now: u64) {
    exists x, y :: x in cons && y in cons && x.LT(y)
      && now < cons[x].state.timestamp + period < TWO_64 <= cons[y].state.timestamp + period <= TWO_64 + now
  }

  lemma ExpiredAboveLive(cons: Entries, period: u64, now: u64, x: Height, y: Height)
    requires Monotone(cons) && x in cons && y in cons && x.LT(y)
    ensures IsExpired(period, cons[y].state.timestamp, now) && !IsExpired(period, cons[x].state.timestamp, now)
       <==> now < cons[x].state.timestamp + period < TWO_64
            <= cons[y].state.timestamp + period <= TWO_64 + now
  {
    assert cons[x].state.timestamp < cons[y].state.timestamp;
  }

  /** On an ordered store, pruning all expired states leaves no gap exactly when the store does not straddle. */
  lemma PruneAllKeepsOrPassesIff(cons: Entries, period: u64, now: u64)
    requires Monotone(cons)
    ensures KeptOrPassed(cons, PruneAllExpired(cons, period, now)) <==> !Straddles(cons, period, now)
  {
    var after := PruneAllExpired(cons, period, now);
    if Straddles(cons, period, now) {
      var x, y :| x in cons && y in cons && x.LT(y)
        && now < cons[x].state.timestamp + period < TWO_64 <= cons[y].state.timestamp + period <= TWO_64 + now;
      ExpiredAboveLive(cons, period, now, x, y);
      assert y !in after && x in after && !Above(after, y);
    }
    if !KeptOrPassed(cons, after) {
      var y :| y in cons && y !in after && !Above(after, y);
      var x :| x in after && !y.LT(x);
      ExpiredAboveLive(cons, period, now, x, y);
    }
  }

  lemma UpdateKeepsOrPasses(s: State, ctx: Context, h: CheckedHeader, zk: ProofCheck)
    requires Accepts(s, ctx, h, zk)
    ensures KeptOrPassed(s.cons, UpdateState(s, s.client.value, ctx, h).cons)
  {
    AcceptedHeight(s, ctx, h, zk);
    var after := UpdateState(s, s.client.value, ctx, h).cons;
    forall x | x in s.cons
      ensures if x in after then after[x] == s.cons[x] else Above(after, x)
    {
      assert MinOf(s.cons.Keys).LTE(h.trustedHeight.value);
    }
  }

  /** The step is no pruning of a straddling store. */
  ghost predicate PrunesInOrder(s: State, step: Step) {
    step.PruneExpired? && s.client.Some?
    ==> !Straddles(s.cons, s.client.value.trustingPeriod, step.ctx.Now())
  }

  lemma StepKeepsOrPassesIff(s: State, step: Step)
    requires Invariant(s) && !step.RecoverClient?
    ensures KeptOrPassed(s.cons, Next(s, step).cons) <==> PrunesInOrder(s, step)
  {
    if step.SubmitHeader? && Accepts(s, step.ctx, step.header, step.zk) {
      UpdateKeepsOrPasses(s, step.ctx, step.header, step.zk);
    } else if step.PruneExpired? && s.client.Some? {
      PruneAllKeepsOrPassesIff(s.cons, s.client.value.trustingPeriod, step.ctx.Now());
    }
  }

  /** No step of the run prunes a straddling store: what the caller can check before each pruning. */
  ghost predicate OrderlyRun(s: State, steps: seq<Step>) {
    WithoutRecovery(steps) && forall i | 0 <= i < |steps| :: PrunesInOrder(At(s, steps, i), steps[i])
  }

  lemma KeepsOrPassesOn(from: Entries, mid: State, step: Step)
    requires Invariant(mid) && PrunesInOrder(mid, step) && !step.RecoverClient?
    requires KeptOrPassed(from, mid.cons) && (from != map[] ==> mid.client.Some?)
    ensures KeptOrPassed(from, Next(mid, step).cons)
    ensures from != map[] ==> Next(mid, step).client.Some?
  {
    StepKeepsOrPassesIff(mid, step);
    var after := Next(mid, step).cons;
    forall h | h in from
      ensures mid.client.Some? && Next(mid, step).client.Some?
      ensures if h in after then after[h] == from[h] else Above(after, h)
    {
      StepKeepsFloor(mid, step, h);
    }
  }

  lemma {:induction false} KeepsOrPassesBetween(s: State, steps: seq<Step>, i: nat, j: nat)
    requires Invariant(s) && OrderlyRun(s, steps) && i <= j <= |steps|
    ensures KeptOrPassed(At(s, steps, i).cons, At(s, steps, j).cons)
    ensures At(s, steps, i).cons != map[] ==> At(s, steps, j).client.Some?
    decreases j
  {
    if i == j {
      RunKeepsInvariant(s, steps[..i]);
    } else {
      KeepsOrPassesBetween(s, steps, i, j - 1);
      RunKeepsInvariant(s, steps[..j - 1]);
      AtNext(s, steps, j - 1);
      KeepsOrPassesOn(At(s, steps, i).cons, At(s, steps, j - 1), steps[j - 1]);
    }
  }

  /** Between any two states of the run, entries are kept or passed. */
  ghost predicate EntriesStand(s: State, steps: seq<Step>) {
    forall i, j :: 0 <= i <= j <= |steps| ==> KeptOrPassed(At(s, steps, i).cons, At(s, steps, j).cons)
  }

  /**
   Main result: in a run, what is stored at a height never changes while it is stored, and once it is
   pruned all stored heights are above it, exactly when no pruning meets a straddling store.
   */
  lemma RunKeepsOrPassesIff(s: State, steps: seq<Step>)
    requires Invariant(s) && WithoutRecovery(steps)
    ensures EntriesStand(s, steps) <==> OrderlyRun(s, steps)
  {
    if OrderlyRun(s, steps) {
      forall i, j | 0 <= i <= j <= |steps|
        ensures KeptOrPassed(At(s, steps, i).cons, At(s, steps, j).cons)
      {
        KeepsOrPassesBetween(s, steps, i, j);
      }
    }
    if EntriesStand(s, steps) {
      forall i | 0 <= i < |steps|
        ensures PrunesInOrder(At(s, steps, i), steps[i])
      {
        RunKeepsInvariant(s, steps[..i]);
        AtNext(s, steps, i);
        assert KeptOrPassed(At(s, steps, i).cons, At(s, steps, i + 1).cons);
        StepKeepsOrPassesIff(At(s, steps, i), steps[i]);
      }
    }
  }

  // ---------- no wrap-around ----------

  /** No stored timestamp plus `period` reaches 2^64, and the client's own period is no longer. */
  ghost predicate NoWrap(s: State, period: u64) {
    (s.client.Some? ==> s.client.value.trustingPeriod <= period)
    && forall h <- s.cons :: s.cons[h].state.timestamp + period < TWO_64
  }

  /** What the submitter can check of a step: its timestamp plus the period does not reach 2^64. */
  ghost predicate OrdinaryTimes(step: Step, period: u64) {
    match step
    case CreateClient(_, cs, state) => cs.trustingPeriod <= period && state.timestamp + period < TWO_64
    case SubmitHeader(_, header, _) => HeaderConsensus(header).timestamp + period < TWO_64
    case _ => true
  }

  lemma StepKeepsNoWrap(s: State, step: Step, period: u64)
    requires NoWrap(s, period) && OrdinaryTimes(step, period) && !step.RecoverClient?
    ensures NoWrap(Next(s, step), period) && PrunesInOrder(s, step)
  {
    if step.SubmitHeader? && Accepts(s, step.ctx, step.header, step.zk) {
      PruneOldestIsPart(s.cons, s.client.value.trustingPeriod, step.ctx.Now());
    }
  }

  lemma {:induction false} NoWrapBefore(s: State, steps: seq<Step>, period: u64, i: nat)
    requires NoWrap(s, period) && WithoutRecovery(steps) && i <= |steps|
    requires forall j | 0 <= j < |steps| :: OrdinaryTimes(steps[j], period)
    ensures NoWrap(At(s, steps, i), period)
    decreases i
  {
    if i > 0 {
      NoWrapBefore(s, steps, period, i - 1);
      StepKeepsNoWrap(At(s, steps, i - 1), steps[i - 1], period);
      AtNext(s, steps, i - 1);
    }
  }

  /** When no submitted timestamp reaches 2^64 with the trusting period added, every run is orderly. */
  lemma OrdinaryRunIsOrderly(s: State, steps: seq<Step>, period: u64)
    requires Invariant(s) && NoWrap(s, period) && WithoutRecovery(steps)
    requires forall i | 0 <= i < |steps| :: OrdinaryTimes(steps[i], period)
    ensures OrderlyRun(s, steps)
    ensures Invariant(Run(s, steps)) && NoWrap(Run(s, steps), period)
  {
    forall i | 0 <= i < |steps|
      ensures PrunesInOrder(At(s, steps, i), steps[i])
    {
      NoWrapBefore(s, steps, period, i);
      StepKeepsNoWrap(At(s, steps, i), steps[i], period);
    }
    RunKeepsInvariant(s, steps);
    NoWrapBefore(s, steps, period, |steps|);
    AtEnd(s, steps);
  }

  /** Resubmitting a stored header leaves its entry alone although pruning runs first. */
  lemma ResubmissionChangesNothing(s: State, ctx: Context, h: CheckedHeader, zk: ProofCheck)
    requires Accepts(s, ctx, h, zk) && HeaderHeight(h) in s.cons
    ensures var s' := HandleHeader(s, ctx, h, zk);
            HeaderHeight(h) in s'.cons && s'.cons[HeaderHeight(h)] == s.cons[HeaderHeight(h)]
            && s'.client == s.client && s'.cons.Keys <= s.cons.Keys
  {
    AcceptedHeight(s, ctx, h, zk);
    assert MinOf(s.cons.Keys).LTE(h.trustedHeight.value);
  }

  // ---------- creation ----------

  /** A created client is active exactly when it is not frozen and its first state has not expired. */
  lemma CreatedClient(ctx: Context, cs: ClientState, state: ConsensusState)
    ensures var s := Next(EMPTY, CreateClient(ctx, cs, state));
            && s.cons == map[cs.latestHeight := Entry(state, ctx.Now(), ctx.selfHeight)]
            && (IsActive(s, ctx.Now())
                <==> cs.frozenHeight == Height(0, 0) && U64(state.timestamp + cs.trustingPeriod) > ctx.Now())
  {
  }

  // ---------- freezing ----------

  ghost predicate IsFrozen(s: State) {
    s.client.Some? && !s.client.value.frozenHeight.IsZero()
  }

  /** A verified header freezes an active client exactly when the store shows it to conflict. */
  lemma ConflictFreezes(s: State, ctx: Context, h: CheckedHeader, zk: ProofCheck)
    requires Invariant(s) && IsActive(s, ctx.Now()) && VerifyHeader(s.client.value, s.cons, ctx, h, zk).Ok?
    ensures var s', height, e := HandleHeader(s, ctx, h, zk), HeaderHeight(h),
                                 Entry(HeaderConsensus(h), ctx.Now(), ctx.selfHeight);
            && (IsFrozen(s')
                <==> (height in s.cons && s.cons[height].state != e.state) || !Monotone(s.cons[height := e]))
            && (IsFrozen(s') ==> s'.cons == s.cons && s'.client.value.frozenHeight == Height(0, 1)
                                 && !IsActive(s', ctx.Now()))
  {
    NeighbourCheckIsGlobal(s.cons, HeaderHeight(h), Entry(HeaderConsensus(h), ctx.Now(), ctx.selfHeight));
  }

  /** Main result: only a recovery thaws a client; until then its client state stands still and nothing is stored. */
  lemma {:induction false} OnlyRecoveryThaws(s: State, steps: seq<Step>)
    requires IsFrozen(s) && WithoutRecovery(steps)
    ensures Run(s, steps).client == s.client
    ensures Run(s, steps).cons.Keys <= s.cons.Keys
    decreases |steps|
  {
    if steps != [] {
      OnlyRecoveryThaws(Next(s, steps[0]), steps[1..]);
    }
  }
}
