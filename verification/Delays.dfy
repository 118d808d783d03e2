/** Delay periods: what the check means, and when a delay that has passed stays passed. */
module Delays {
  import opened Ints
  import opened Types
  import opened ClientModel
  import opened ClientRuns

  /** A sum that starts again at zero when it reaches 2^64 has been reached. */
  predicate Reached(sum: nat, now: u64) {
    if sum < TWO_64 then sum <= now else sum <= now + TWO_64
  }

  /** A delay has passed exactly when it is zero or its sum, counted past 2^64 from zero, is reached. */
  lemma DelayPassedMeans(cons: Entries, ctx: Context, h: Height, delayTime: u64, delayBlocks: u64)
    ensures VerifyDelayPeriodPassed(cons, ctx, h, delayTime, delayBlocks).Ok?
       <==> (delayTime == 0 || (h in cons && Reached(cons[h].processedTime + delayTime, ctx.Now())))
            && (delayBlocks == 0
                || (h in cons
                    && var p := cons[h].processedHeight;
                    p.revisionNumber < ctx.selfHeight.revisionNumber
                    || (p.revisionNumber == ctx.selfHeight.revisionNumber
                        && Reached(p.revisionHeight + delayBlocks, ctx.selfHeight.revisionHeight))))
  {
    if h in cons {
      var sum, blocks := cons[h].processedTime + delayTime, cons[h].processedHeight.revisionHeight + delayBlocks;
      assert Reached(sum, ctx.Now()) <==> U64(sum) <= ctx.Now();
      assert Reached(blocks, ctx.selfHeight.revisionHeight) <==> U64(blocks) <= ctx.selfHeight.revisionHeight;
    }
  }

  // ---------- one height along a run ----------

  /** The step is no pruning of all expired states that finds this height expired. */
  ghost predicate Spares(s: State, step: Step, h: Height) {
    step.PruneExpired? && s.client.Some? && h in s.cons
    ==> !IsExpired(s.client.value.trustingPeriod, s.cons[h].state.timestamp, step.ctx.Now())
  }

  /** What a caller can check before each pruning of the run. */
  ghost predicate SparedAll(s: State, steps: seq<Step>, h: Height) {
    forall i | 0 <= i < |steps| :: Spares(At(s, steps, i), steps[i], h)
  }

  /** An entry that a step keeps is kept as it was; a spared one that goes leaves only heights above it. */
  lemma StepOnHeight(s: State, step: Step, h: Height)
    requires s.client.Some? && !step.RecoverClient? && h in s.cons
    ensures h in Next(s, step).cons ==> Next(s, step).cons[h] == s.cons[h]
    ensures Spares(s, step, h) && h !in Next(s, step).cons ==> Above(Next(s, step).cons, h)
    ensures !Spares(s, step, h) ==> h !in Next(s, step).cons
  {
    if step.SubmitHeader? && Accepts(s, step.ctx, step.header, step.zk) {
      UpdateKeepsOrPasses(s, step.ctx, step.header, step.zk);
    }
  }

  predicate IsHeaderFor(step: Step, h: Height) {
    step.SubmitHeader? && HeaderHeight(step.header) == h
  }

  /** A height is stored only by a header for it, with the time of the block. */
  lemma StoredAnew(s: State, step: Step, h: Height)
    requires s.client.Some? && !step.RecoverClient? && h !in s.cons && h in Next(s, step).cons
    ensures IsHeaderFor(step, h) && Next(s, step).cons[h].processedTime == step.ctx.Now()
  {
    if step.SubmitHeader? && Accepts(s, step.ctx, step.header, step.zk) {
      PruneOldestIsPart(s.cons, s.client.value.trustingPeriod, step.ctx.Now());
    }
  }

  lemma ClientStays(s: State, steps: seq<Step>, i: nat)
    requires s.client.Some? && WithoutRecovery(steps) && i <= |steps|
    ensures At(s, steps, i).client.Some?
  {
    RunKeepsFloor(s, steps[..i], ZERO_HEIGHT);
  }

  /** Once all stored heights are above `h`, it is not there at the end. */
  lemma GoneForGood(s: State, steps: seq<Step>, h: Height, i: nat)
    requires s.client.Some? && WithoutRecovery(steps) && i <= |steps| && Above(At(s, steps, i).cons, h)
    ensures h !in Run(s, steps).cons
  {
    ClientStays(s, steps, i);
    RunKeepsFloor(At(s, steps, i), steps[i..], h);
    AtRest(s, steps, i);
  }

  lemma {:induction false} SparedIsKept(s: State, steps: seq<Step>, h: Height, i: nat)
    requires s.client.Some? && WithoutRecovery(steps) && SparedAll(s, steps, h) && i <= |steps|
    requires h in s.cons && h in Run(s, steps).cons
    ensures h in At(s, steps, i).cons && At(s, steps, i).cons[h] == s.cons[h]
    decreases i
  {
    if i > 0 {
      SparedIsKept(s, steps, h, i - 1);
      ClientStays(s, steps, i - 1);
      AtNext(s, steps, i - 1);
      StepOnHeight(At(s, steps, i - 1), steps[i - 1], h);
      if h !in At(s, steps, i).cons {
        GoneForGood(s, steps, h, i);
      }
    }
  }

  /** Some delay tells the two processed times apart. The last nanosecond acts like minus one. */
  predicate Differ(time: u64, newTime: u64) {
    newTime != time && !(time == 0 && newTime == TWO_64 - 1)
  }

  /** No header for the height is handled in a block of the given time. */
  ghost predicate InOtherBlocks(steps: seq<Step>, h: Height, time: u64) {
    forall i | 0 <= i < |steps| :: IsHeaderFor(steps[i], h) ==> Differ(time, steps[i].ctx.Now())
  }

  lemma {:induction false} StoredWithNewTime(s: State, steps: seq<Step>, h: Height, time: u64, i: nat, j: nat)
    requires s.client.Some? && WithoutRecovery(steps) && InOtherBlocks(steps, h, time) && i <= j <= |steps|
    requires h !in At(s, steps, i).cons && h in At(s, steps, j).cons
    ensures Differ(time, At(s, steps, j).cons[h].processedTime)
    decreases j
  {
    var mid := At(s, steps, j - 1);
    ClientStays(s, steps, j - 1);
    AtNext(s, steps, j - 1);
    if h in mid.cons {
      StepOnHeight(mid, steps[j - 1], h);
      StoredWithNewTime(s, steps, h, time, i, j - 1);
    } else {
      StoredAnew(mid, steps[j - 1], h);
    }
  }

  /**
   A height that is stored at both ends of a run has its old entry at the end exactly when every pruning
   spared it; else it was stored again, with the time of another block.
   */
  lemma EntryStandsIff(s: State, steps: seq<Step>, h: Height)
    requires s.client.Some? && WithoutRecovery(steps) && h in s.cons && h in Run(s, steps).cons
    requires InOtherBlocks(steps, h, s.cons[h].processedTime)
    ensures Run(s, steps).cons[h] == s.cons[h] <==> SparedAll(s, steps, h)
    ensures !SparedAll(s, steps, h) ==> Differ(s.cons[h].processedTime, Run(s, steps).cons[h].processedTime)
  {
    AtEnd(s, steps);
    if SparedAll(s, steps, h) {
      SparedIsKept(s, steps, h, |steps|);
    } else {
      var i :| 0 <= i < |steps| && !Spares(At(s, steps, i), steps[i], h);
      ClientStays(s, steps, i);
      AtNext(s, steps, i);
      StepOnHeight(At(s, steps, i), steps[i], h);
      StoredWithNewTime(s, steps, h, s.cons[h].processedTime, i + 1, |steps|);
    }
  }

  // ---------- delays ----------

  predicate Grows(ctx: Context, later: Context) {
    ctx.Now() <= later.Now() && ctx.selfHeight.LTE(later.selfHeight)
  }

  /** A delay that has passed before has passed after. */
  ghost predicate Stands(before: Entries, after: Entries, h: Height, ctx: Context, later: Context,
                         delayTime: u64, delayBlocks: u64)
  {
    Grows(ctx, later) && VerifyDelayPeriodPassed(before, ctx, h, delayTime, delayBlocks).Ok?
    ==> VerifyDelayPeriodPassed(after, later, h, delayTime, delayBlocks).Ok?
  }

  ghost predicate DelaysStand(before: Entries, after: Entries, h: Height) {
    forall ctx, later, delayTime, delayBlocks :: Stands(before, after, h, ctx, later, delayTime, delayBlocks)
  }

  /** A delay that has passed stays passed while block time and height grow and every pruning spares the height. */
  lemma DelayStaysPassed(s: State, steps: seq<Step>, h: Height, ctx: Context, later: Context,
                         delayTime: u64, delayBlocks: u64)
    requires s.client.Some? && WithoutRecovery(steps) && SparedAll(s, steps, h)
    requires h in s.cons && VerifyDelayPeriodPassed(s.cons, ctx, h, delayTime, delayBlocks).Ok?
    requires Grows(ctx, later) && h in Run(s, steps).cons
    ensures VerifyDelayPeriodPassed(Run(s, steps).cons, later, h, delayTime, delayBlocks).Ok?
  {
    SparedIsKept(s, steps, h, |steps|);
    AtEnd(s, steps);
  }

  /** The delay that ends just when the clock wraps, or one of a nanosecond, tells the times apart. */
  lemma NewTimeShows(before: Entries, after: Entries, h: Height)
    requires h in before && h in after && Differ(before[h].processedTime, after[h].processedTime)
    ensures !DelaysStand(before, after, h)
  {
    var time := before[h].processedTime;
    var now, delay := if time == 0 then 1 else 0, if time == 0 then 1 else TWO_64 - time;
    var ctx := Context(Time(0, now), ZERO_HEIGHT, false, false, false);
    assert ctx.Now() == now;
    DelayPassedMeans(before, ctx, h, delay, 0);
    DelayPassedMeans(after, ctx, h, delay, 0);
    assert !Stands(before, after, h, ctx, ctx, delay, 0);
  }

  /**
   Main result: all delays that have passed for a height stay passed along a run exactly when no pruning
   of the run finds the height expired. No header for it may be handled at the very time that it was stored.
   */
  lemma DelaysStandIff(s: State, steps: seq<Step>, h: Height)
    requires s.client.Some? && WithoutRecovery(steps) && h in s.cons && h in Run(s, steps).cons
    requires InOtherBlocks(steps, h, s.cons[h].processedTime)
    ensures DelaysStand(s.cons, Run(s, steps).cons, h) <==> SparedAll(s, steps, h)
  {
    EntryStandsIff(s, steps, h);
    if SparedAll(s, steps, h) {
      forall ctx, later, delayTime, delayBlocks
        ensures Stands(s.cons, Run(s, steps).cons, h, ctx, later, delayTime, delayBlocks)
      {
        if Grows(ctx, later) && VerifyDelayPeriodPassed(s.cons, ctx, h, delayTime, delayBlocks).Ok? {
          DelayStaysPassed(s, steps, h, ctx, later, delayTime, delayBlocks);
        }
      }
    } else {
      NewTimeShows(s.cons, Run(s, steps).cons, h);
    }
  }

  /** An orderly run spares every height that is still stored at its end. */
  lemma OrderlyRunSpares(s: State, steps: seq<Step>, h: Height)
    requires Invariant(s) && s.client.Some? && OrderlyRun(s, steps) && h in Run(s, steps).cons
    ensures SparedAll(s, steps, h)
  {
    forall i | 0 <= i < |steps|
      ensures Spares(At(s, steps, i), steps[i], h)
    {
      if h in At(s, steps, i).cons && !Spares(At(s, steps, i), steps[i], h) {
        ClientStays(s, steps, i);
        AtNext(s, steps, i);
        StepOnHeight(At(s, steps, i), steps[i], h);
        KeepsOrPassesBetween(s, steps, i, i + 1);
        GoneForGood(s, steps, h, i + 1);
      }
    }
  }
}
