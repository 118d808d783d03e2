/** Recovery of a frozen or expired client from a substitute. */
module Recovery {
  import opened Ints
  import opened Options
  import opened Types
  import opened ClientModel
  import opened ClientRuns

  /** Zeroing and comparing checks exactly the unbonding period and the clock drift. */
  lemma MatchingMeans(a: ClientState, b: ClientState)
    ensures IsMatchingClientState(a, b)
       <==> a.unbondingPeriod == b.unbondingPeriod && a.maxClockDrift == b.maxClockDrift
  {
    if IsMatchingClientState(a, b) {
      var x := a.(latestHeight := ZERO_HEIGHT, frozenHeight := ZERO_HEIGHT, trustingPeriod := 0, chainId := []);
      var y := b.(latestHeight := ZERO_HEIGHT, frozenHeight := ZERO_HEIGHT, trustingPeriod := 0, chainId := []);
      assert x.unbondingPeriod == y.unbondingPeriod && x.maxClockDrift == y.maxClockDrift;
    }
  }

  /**
   An active substitute that matches makes the subject active at the same block time,
   whatever state the subject was in, and fixes what it takes over and what it keeps.
   */
  lemma RecoveryActivates(s: State, cs: ClientState, substitute: Entries, other: ClientState, now: u64)
    requires StatusOf(other, substitute, now).Active?
    ensures var r := Recover(s, cs, substitute, other, now);
            (r.Ok? <==> cs.unbondingPeriod == other.unbondingPeriod && cs.maxClockDrift == other.maxClockDrift)
            && (r.Ok? ==>
                  IsActive(r.value, now)
                  && r.value.client == Some(other)
                  && r.value.cons.Keys == s.cons.Keys + {other.latestHeight}
                  && r.value.cons[other.latestHeight] == substitute[other.latestHeight]
                  && forall h <- s.cons :: h != other.latestHeight ==> r.value.cons[h] == s.cons[h])
  {
    MatchingMeans(cs, other);
  }

  /** A recovery keeps the run invariant exactly when the new latest state fits on top of the old store. */
  lemma RecoveryKeepsInvariantIff(s: State, cs: ClientState, substitute: Entries, other: ClientState, now: u64)
    requires Invariant(s) && s.client == Some(cs)
    requires Recover(s, cs, substitute, other, now).Ok?
    ensures var top := other.latestHeight;
            Invariant(Recover(s, cs, substitute, other, now).value)
            <==> AtMost(s.cons, top)
                 && !Misbehaves(s.cons - {top}, top, substitute[top].state)
  {
    var top := other.latestHeight;
    var rest := s.cons - {top};
    NeighbourCheckIsGlobal(rest, top, substitute[top]);
    assert rest[top := substitute[top]] == s.cons[top := substitute[top]];
    var after := Recover(s, cs, substitute, other, now).value;
    if Bounded(after) {
      forall h | h in s.cons
        ensures h.LTE(top) && h.revisionNumber == top.revisionNumber
      {
        assert h in after.cons;
      }
    }
  }

  /** All stored heights are in the revision of `top` and not above it. */
  ghost predicate AtMost(cons: Entries, top: Height) {
    forall h <- cons :: h.LTE(top) && h.revisionNumber == top.revisionNumber
  }

  /** The step is no recovery, or one whose new latest state fits on top of the store. */
  ghost predicate RecoversInOrder(s: State, step: Step) {
    step.RecoverClient? && s.client.Some?
    && Recover(s, s.client.value, step.substitute, step.substituteClient, step.ctx.Now()).Ok?
    ==> var top := step.substituteClient.latestHeight;
        AtMost(s.cons, top) && !Misbehaves(s.cons - {top}, top, step.substitute[top].state)
  }

  lemma StepKeepsInvariantIff(s: State, step: Step)
    requires Invariant(s)
    ensures Invariant(Next(s, step)) <==> RecoversInOrder(s, step)
  {
    if !step.RecoverClient? {
      StepKeepsInvariant(s, step);
    } else if s.client.Some? && Recover(s, s.client.value, step.substitute, step.substituteClient, step.ctx.Now()).Ok? {
      RecoveryKeepsInvariantIff(s, s.client.value, step.substitute, step.substituteClient, step.ctx.Now());
    }
  }

  /** Every recovery of the run puts its new latest state on top of the store, in time order. */
  ghost predicate OrderlyRecoveries(s: State, steps: seq<Step>) {
    forall i | 0 <= i < |steps| :: RecoversInOrder(At(s, steps, i), steps[i])
  }

  lemma {:induction false} InvariantBefore(s: State, steps: seq<Step>, i: nat)
    requires Invariant(s) && i <= |steps| && OrderlyRecoveries(s, steps)
    ensures Invariant(At(s, steps, i))
    decreases i
  {
    if i > 0 {
      InvariantBefore(s, steps, i - 1);
      AtNext(s, steps, i - 1);
      StepKeepsInvariantIff(At(s, steps, i - 1), steps[i - 1]);
    }
  }

  /** Main result: every state of a run, recoveries included, is in order exactly when the recoveries are. */
  lemma RunKeepsInvariantIff(s: State, steps: seq<Step>)
    requires Invariant(s)
    ensures (forall i | 0 <= i <= |steps| :: Invariant(At(s, steps, i))) <==> OrderlyRecoveries(s, steps)
  {
    if OrderlyRecoveries(s, steps) {
      forall i | 0 <= i <= |steps|
        ensures Invariant(At(s, steps, i))
      {
        InvariantBefore(s, steps, i);
      }
    }
    if forall i | 0 <= i <= |steps| :: Invariant(At(s, steps, i)) {
      forall i | 0 <= i < |steps|
        ensures RecoversInOrder(At(s, steps, i), steps[i])
      {
        AtNext(s, steps, i);
        assert Invariant(At(s, steps, i)) && Invariant(At(s, steps, i + 1));
        StepKeepsInvariantIff(At(s, steps, i), steps[i]);
      }
    }
  }

  /** A client that passes the validation of the source, created in the block at 100 nanoseconds. */
  function Created(height: u64, timestamp: u64): Step {
    CreateClient(BLOCK, ClientState(Ascii("c-1"), 100, 200, 1, ZERO_HEIGHT, Height(1, height)),
                 ConsensusState(timestamp, [1], []))
  }

  const BLOCK := Context(Time(0, 100), Height(9, 9), false, false, false)

  lemma SubjectFreezes()
    ensures var s := Next(Next(EMPTY, Created(5, 90)), SubmitMisbehaviour(BLOCK, true));
            s.client.Some? && StatusOf(s.client.value, s.cons, BLOCK.Now()).Frozen?
            && s.client.value.unbondingPeriod == 200 && s.client.value.maxClockDrift == 1
            && Height(1, 5) in s.cons && s.cons[Height(1, 5)].state.timestamp == 90
  {
    var s := Next(EMPTY, Created(5, 90));
    assert IsActive(s, BLOCK.Now());
  }

  /** Recovery alone does not check the order of timestamps: it can store an older time on top. */
  lemma RecoveryCanBreakMonotone(subject: seq<Step>, substitute: seq<Step>)
    requires |subject| == 2 && subject[0] == Created(5, 90) && subject[1] == SubmitMisbehaviour(BLOCK, true)
    requires |substitute| == 1 && substitute[0] == Created(6, 80)
    ensures var s, t := Run(EMPTY, subject), Run(EMPTY, substitute);
            s.client.Some? && StatusOf(s.client.value, s.cons, BLOCK.Now()).Frozen?
            && IsActive(t, BLOCK.Now())
            && var recovered := Next(s, RecoverClient(BLOCK, t.cons, t.client.value));
               IsActive(recovered, BLOCK.Now()) && !Monotone(recovered.cons)
  {
    SubjectFreezes();
    AtNext(EMPTY, subject, 0);
    AtNext(EMPTY, subject, 1);
    AtEnd(EMPTY, subject);
    RunOne(EMPTY, substitute, Created(6, 80));
    var s, t := Run(EMPTY, subject), Run(EMPTY, substitute);
    assert IsActive(t, BLOCK.Now()) && Height(1, 6) in t.cons && t.cons[Height(1, 6)].state.timestamp == 80;
    RecoveryActivates(s, s.client.value, t.cons, t.client.value, BLOCK.Now());
    var recovered := Next(s, RecoverClient(BLOCK, t.cons, t.client.value));
    assert Height(1, 5) in recovered.cons && Height(1, 6) in recovered.cons && Height(1, 5).LT(Height(1, 6));
  }
}
