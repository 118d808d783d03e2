/** When a pruned height can be stored again, and when it never is. */
module Returns {
  import opened Ints
  import opened Options
  import opened Types
  import opened ClientModel
  import opened ClientRuns
  import opened Delays

  // ---------- gone for good ----------

  /** The step does not prune `h` while a lower state lives on. */
  ghost predicate GoesInOrder(s: State, step: Step, h: Height) {
    step.PruneExpired? && s.client.Some? && h in s.cons
    && IsExpired(s.client.value.trustingPeriod, s.cons[h].state.timestamp, step.ctx.Now())
    ==> forall x <- s.cons :: x.LT(h) ==>
          IsExpired(s.client.value.trustingPeriod, s.cons[x].state.timestamp, step.ctx.Now())
  }

  /** When a height goes, everything left is above it exactly when it goes in order. */
  lemma RemovalLeavesAboveIff(s: State, step: Step, h: Height)
    requires s.client.Some? && !step.RecoverClient? && h in s.cons && h !in Next(s, step).cons
    ensures Above(Next(s, step).cons, h) <==> GoesInOrder(s, step, h)
  {
    var after := Next(s, step).cons;
    if step.PruneExpired? {
      if Above(after, h) {
        forall x | x in s.cons && x.LT(h)
          ensures IsExpired(s.client.value.trustingPeriod, s.cons[x].state.timestamp, step.ctx.Now())
        {
          assert x !in after;
        }
      }
    } else {
      StepOnHeight(s, step, h);
    }
  }

  /** In a store that does not straddle every height goes in order. */
  lemma NoStraddleInOrder(s: State, step: Step, h: Height)
    requires Monotone(s.cons) && PrunesInOrder(s, step)
    ensures GoesInOrder(s, step, h)
  {
    if step.PruneExpired? && s.client.Some? && h in s.cons {
      forall x | x in s.cons && x.LT(h)
        ensures !(IsExpired(s.client.value.trustingPeriod, s.cons[h].state.timestamp, step.ctx.Now())
                  && !IsExpired(s.client.value.trustingPeriod, s.cons[x].state.timestamp, step.ctx.Now()))
      {
        ExpiredAboveLive(s.cons, s.client.value.trustingPeriod, step.ctx.Now(), x, h);
      }
    }
  }

  /** The step at which a height that is stored and later is not goes for the first time. */
  lemma {:induction false} Removal(s: State, steps: seq<Step>, h: Height, j: nat) returns (i: nat)
    requires j <= |steps| && h in s.cons && h !in At(s, steps, j).cons
    ensures i < j && h in At(s, steps, i).cons && h !in At(s, steps, i + 1).cons
    decreases j
  {
    i := j - 1;
    if h !in At(s, steps, i).cons {
      i := Removal(s, steps, h, j - 1);
    }
  }

  lemma WentInOrder(s: State, steps: seq<Step>, h: Height) returns (i: nat)
    requires s.client.Some? && WithoutRecovery(steps)
    requires forall i | 0 <= i < |steps| :: GoesInOrder(At(s, steps, i), steps[i], h)
    requires h in s.cons && h !in Run(s, steps).cons
    ensures i <= |steps| && Above(At(s, steps, i).cons, h)
  {
    AtEnd(s, steps);
    var k := Removal(s, steps, h, |steps|);
    ClientStays(s, steps, k);
    AtNext(s, steps, k);
    RemovalLeavesAboveIff(At(s, steps, k), steps[k], h);
    i := k + 1;
  }

  /** A height that was stored and went in order never comes back, whatever happens to other heights. */
  lemma PrunedNeverReturns(s: State, before: seq<Step>, after: seq<Step>, h: Height)
    requires s.client.Some? && WithoutRecovery(before) && WithoutRecovery(after)
    requires forall i | 0 <= i < |before| :: GoesInOrder(At(s, before, i), before[i], h)
    requires h in s.cons && h !in Run(s, before).cons
    ensures h !in Run(s, before + after).cons
  {
    var i := WentInOrder(s, before, h);
    var steps := before + after;
    assert steps[..i] == before[..i];
    GoneForGood(s, steps, h, i);
  }

  // ---------- stored again ----------

  /** A state with this timestamp keeps the store in time order. */
  ghost predicate Fits(cons: Entries, h: Height, timestamp: u64) {
    forall y <- cons :: (y.LT(h) ==> cons[y].state.timestamp < timestamp)
                        && (h.LT(y) ==> timestamp < cons[y].state.timestamp)
  }

  /** Some header for the height, with some proof, is taken up in the block. */
  ghost predicate CanBeSubmitted(s: State, ctx: Context, h: Height) {
    exists header: CheckedHeader, zk: ProofCheck :: Accepts(s, ctx, header, zk) && HeaderHeight(header) == h
  }

  /** A lower stored state of the revision can be trusted, and this time is later than it and early enough. */
  ghost predicate IsOpening(s: State, ctx: Context, h: Height, trusted: Height, time: i64)
    requires s.client.Some?
  {
    trusted in s.cons && trusted.LT(h) && trusted.revisionNumber == h.revisionNumber
    && time < TimeLimit(ctx.blockTime.UnixNano(), s.client.value.maxClockDrift)
    && Fits(s.cons, h, Unsigned(time))
  }

  ghost predicate HasOpening(s: State, ctx: Context, h: Height)
    requires s.client.Some?
  {
    exists trusted, time :: IsOpening(s, ctx, h, trusted, time)
  }

  function TimeOf(nanos: i64): (t: Time)
    ensures t.UnixNano() == nanos
  {
    Time(nanos / NANOS_PER_SECOND, nanos % NANOS_PER_SECOND)
  }

  lemma FitsMeans(cons: Entries, h: Height, e: Entry)
    requires Monotone(cons) && h !in cons
    ensures Fits(cons, h, e.state.timestamp) <==> !Misbehaves(cons, h, e.state)
  {
    NeighbourCheckIsGlobal(cons, h, e);
    var grown := cons[h := e];
    if Monotone(grown) {
      forall y | y in cons
        ensures y.LT(h) ==> cons[y].state.timestamp < e.state.timestamp
        ensures h.LT(y) ==> e.state.timestamp < cons[y].state.timestamp
      {
        assert y in grown && h in grown;
      }
    }
  }

  /** The header that uses an opening. */
  function HeaderInto(s: State, h: Height, trusted: Height, time: i64): CheckedHeader
    requires trusted in s.cons
  {
    var light := LightHeader(Signed(h.revisionHeight), TimeOf(time), s.cons[trusted].state.nextValidatorsHash, [], []);
    Header(Some(light), Some(trusted), [])
  }

  lemma OpeningIsUsed(s: State, ctx: Context, h: Height, trusted: Height, time: i64, zk: ProofCheck)
    requires Invariant(s) && IsActive(s, ctx.Now()) && h !in s.cons && |s.client.value.chainId| <= 31
    requires IsOpening(s, ctx, h, trusted, time)
    requires forall proof, hash, header :: zk(proof, hash, header)
    ensures var header := HeaderInto(s, h, trusted, time);
            HeaderHeight(header) == h && Accepts(s, ctx, header, zk)
  {
    var header := HeaderInto(s, h, trusted, time);
    assert HeaderHeight(header) == h && HeaderConsensus(header).timestamp == Unsigned(time);
    VerifiedHeaderMeans(s.client.value, s.cons, ctx, header, zk);
    FitsMeans(s.cons, h, Entry(HeaderConsensus(header), ctx.Now(), ctx.selfHeight));
  }

  lemma AcceptedUsesOpening(s: State, ctx: Context, header: CheckedHeader, zk: ProofCheck)
    requires Invariant(s) && Accepts(s, ctx, header, zk) && HeaderHeight(header) !in s.cons
    ensures |s.client.value.chainId| <= 31
    ensures IsOpening(s, ctx, HeaderHeight(header), header.trustedHeight.value, header.signedHeader.value.time.UnixNano())
  {
    VerifiedHeaderMeans(s.client.value, s.cons, ctx, header, zk);
    FitsMeans(s.cons, HeaderHeight(header), Entry(HeaderConsensus(header), ctx.Now(), ctx.selfHeight));
    assert HeaderConsensus(header).timestamp == Unsigned(header.signedHeader.value.time.UnixNano());
  }

  /**
   Main result: a height that is not stored can be stored in a block exactly when the client is active, its
   chain id fits the proof, and between the neighbours there is a time below the limit and a lower state.
   */
  lemma StorableIff(s: State, ctx: Context, h: Height)
    requires Invariant(s) && s.client.Some? && h !in s.cons
    ensures CanBeSubmitted(s, ctx, h)
       <==> IsActive(s, ctx.Now()) && |s.client.value.chainId| <= 31 && HasOpening(s, ctx, h)
  {
    if CanBeSubmitted(s, ctx, h) {
      var header: CheckedHeader, zk: ProofCheck :| Accepts(s, ctx, header, zk) && HeaderHeight(header) == h;
      AcceptedUsesOpening(s, ctx, header, zk);
    }
    if IsActive(s, ctx.Now()) && |s.client.value.chainId| <= 31 && HasOpening(s, ctx, h) {
      var trusted, time :| IsOpening(s, ctx, h, trusted, time);
      var zk: ProofCheck := (_, _, _) => true;
      OpeningIsUsed(s, ctx, h, trusted, time, zk);
    }
  }

  // ---------- both halves together ----------

  /** Some run without recovery from here stores the height. */
  ghost predicate CanReturn(s: State, h: Height) {
    exists steps :: WithoutRecovery(steps) && h in Run(s, steps).cons
  }

  lemma PruningIsPart(s: State, ctx: Context)
    requires Invariant(s) && s.client.Some?
    ensures var s' := Next(s, PruneExpired(ctx));
            Invariant(s') && s'.client == s.client && s'.cons.Keys <= s.cons.Keys
            && forall x <- s'.cons :: s'.cons[x] == s.cons[x]
  {
    StepKeepsInvariant(s, PruneExpired(ctx));
  }

  /** The old time of a height that went out of order still fits. */
  lemma OldTimeFits(s: State, ctx: Context, h: Height, again: Context) returns (trusted: Height)
    requires Invariant(s) && s.client.Some? && h in s.cons && h !in Next(s, PruneExpired(ctx)).cons
    requires !GoesInOrder(s, PruneExpired(ctx), h)
    requires Signed(s.cons[h].state.timestamp) < TimeLimit(again.blockTime.UnixNano(), s.client.value.maxClockDrift)
    ensures Next(s, PruneExpired(ctx)).client == s.client
    ensures IsOpening(Next(s, PruneExpired(ctx)), again, h, trusted, Signed(s.cons[h].state.timestamp))
  {
    PruningIsPart(s, ctx);
    trusted :| trusted in s.cons && trusted.LT(h)
      && !IsExpired(s.client.value.trustingPeriod, s.cons[trusted].state.timestamp, ctx.Now());
    var s' := Next(s, PruneExpired(ctx));
    assert trusted in s'.cons;
    assert Fits(s'.cons, h, s.cons[h].state.timestamp);
    assert Unsigned(Signed(s.cons[h].state.timestamp)) == s.cons[h].state.timestamp;
  }

  lemma AcceptedReturns(s: State, ctx: Context, header: CheckedHeader, zk: ProofCheck)
    requires Invariant(s) && Accepts(s, ctx, header, zk)
    ensures CanReturn(s, HeaderHeight(header))
  {
    AcceptedHeaderStores(s, ctx, header, zk);
    var step := SubmitHeader(ctx, header, zk);
    RunOne(s, [step], step);
    assert WithoutRecovery([step]) && HeaderHeight(header) in Run(s, [step]).cons;
  }

  lemma OutOfOrderReturns(s: State, ctx: Context, h: Height, again: Context)
    requires Invariant(s) && s.client.Some? && h in s.cons && h !in Next(s, PruneExpired(ctx)).cons
    requires !GoesInOrder(s, PruneExpired(ctx), h)
    requires IsActive(Next(s, PruneExpired(ctx)), again.Now()) && |s.client.value.chainId| <= 31
    requires Signed(s.cons[h].state.timestamp) < TimeLimit(again.blockTime.UnixNano(), s.client.value.maxClockDrift)
    ensures CanReturn(Next(s, PruneExpired(ctx)), h)
  {
    var s' := Next(s, PruneExpired(ctx));
    PruningIsPart(s, ctx);
    var trusted := OldTimeFits(s, ctx, h, again);
    var zk: ProofCheck := (_, _, _) => true;
    var header := HeaderInto(s', h, trusted, Signed(s.cons[h].state.timestamp));
    OpeningIsUsed(s', again, h, trusted, Signed(s.cons[h].state.timestamp), zk);
    AcceptedReturns(s', again, header, zk);
  }

  /**
   Main result: a height that a pruning drops can come back in some continuation exactly when the pruning
   leaves a lower state, for a client that is active with a chain id that fits the proof at a time at which
   the old header is not too far ahead.
   */
  lemma PrunedReturnsIff(s: State, ctx: Context, h: Height, again: Context)
    requires Invariant(s) && s.client.Some? && h in s.cons && h !in Next(s, PruneExpired(ctx)).cons
    requires IsActive(Next(s, PruneExpired(ctx)), again.Now()) && |s.client.value.chainId| <= 31
    requires Signed(s.cons[h].state.timestamp) < TimeLimit(again.blockTime.UnixNano(), s.client.value.maxClockDrift)
    ensures CanReturn(Next(s, PruneExpired(ctx)), h) <==> !GoesInOrder(s, PruneExpired(ctx), h)
  {
    var s' := Next(s, PruneExpired(ctx));
    if GoesInOrder(s, PruneExpired(ctx), h) {
      RemovalLeavesAboveIff(s, PruneExpired(ctx), h);
      forall steps | WithoutRecovery(steps)
        ensures h !in Run(s', steps).cons
      {
        RunKeepsFloor(s', steps, h);
      }
    } else {
      OutOfOrderReturns(s, ctx, h, again);
    }
  }
}
