/** What goes wrong when a timestamp plus the trusting period wraps at 64 bits: runs from the empty store. */
module Wrap {
  import opened Ints
  import opened Options
  import opened Types
  import opened ClientModel
  import opened ClientRuns

  /** A block in which transactions are executed. */
  function Block(nanos: Nanos): Context {
    Context(Time(0, nanos), Height(9, nanos), false, false, false)
  }

  /** A client state and a consensus state that pass the validation of the source. */
  const CLIENT := ClientState(Ascii("c-1"), 200, 300, 1, ZERO_HEIGHT, Height(1, 5))

  const CREATED_STATE := ConsensusState(10, [1], [])

  /** A header that trusts the created state and whose time is before 1970. */
  function EarlyHeader(height: i64, nanosBefore: Nanos): CheckedHeader
    requires nanosBefore > 0
  {
    Header(Some(LightHeader(height, Time(-1, NANOS_PER_SECOND - nanosBefore), [], [], [1])), Some(Height(1, 5)), [])
  }

  function Anything(proof: Bytes, trusted: Bytes, header: ProverLightHeader): bool {
    true
  }

  function Create(nanos: Nanos): Step {
    CreateClient(Block(nanos), CLIENT, CREATED_STATE)
  }

  function Submit(nanos: Nanos, height: i64, nanosBefore: Nanos): Step
    requires nanosBefore > 0
  {
    SubmitHeader(Block(nanos), EarlyHeader(height, nanosBefore), Anything)
  }

  function EarlyEntry(nanos: Nanos, nanosBefore: Nanos): Entry
    requires nanosBefore > 0
  {
    Entry(ConsensusState(TWO_64 - nanosBefore, [1], []), nanos, Height(9, nanos))
  }

  /** Accepting an early header while the created state is live: it is stored, nothing is pruned. */
  lemma Accepted(s: State, nanos: Nanos, height: i64, nanosBefore: Nanos)
    requires nanosBefore > 0 && height > 5 && nanos < 210
    requires IsActive(s, nanos) && s.client == Some(CLIENT.(latestHeight := s.client.value.latestHeight))
    requires Invariant(s) && Height(1, 5) in s.cons && s.cons[Height(1, 5)].state == CREATED_STATE
    requires AtLeast(s.cons, Height(1, 5)) && Height(1, height) !in s.cons
    requires Monotone(s.cons[Height(1, height) := EarlyEntry(nanos, nanosBefore)])
    ensures Accepts(s, Block(nanos), EarlyHeader(height, nanosBefore), Anything)
    ensures var s' := Next(s, Submit(nanos, height, nanosBefore));
            s'.cons == s.cons[Height(1, height) := EarlyEntry(nanos, nanosBefore)]
            && s'.client == Some(CLIENT.(latestHeight := if s.client.value.latestHeight.LT(Height(1, height))
                                                         then Height(1, height) else s.client.value.latestHeight))
  {
    var ctx, h := Block(nanos), EarlyHeader(height, nanosBefore);
    assert ctx.Now() == nanos && h.signedHeader.value.time.UnixNano() + nanosBefore == 0;
    assert HeaderHeight(h) == Height(1, height) && HeaderConsensus(h) == EarlyEntry(nanos, nanosBefore).state;
    VerifiedHeaderMeans(s.client.value, s.cons, ctx, h, Anything);
    NeighbourCheckIsGlobal(s.cons, Height(1, height), EarlyEntry(nanos, nanosBefore));
    assert MinOf(s.cons.Keys) == Height(1, 5);
  }

  lemma Start(nanos: Nanos)
    requires nanos < 210
    ensures var s := Next(EMPTY, Create(nanos));
            s == State(Some(CLIENT), map[Height(1, 5) := Entry(CREATED_STATE, nanos, Height(9, nanos))])
            && IsActive(s, nanos) && Invariant(s)
  {
  }

  /** An accepted header can leave its client expired at the very block that accepts it. */
  lemma AcceptedHeaderCanExpire()
    ensures var s := Run(EMPTY, [Create(150)]);
            var header := EarlyHeader(7, 100);
            Accepts(s, Block(150), header, Anything)
            && var s' := Next(s, Submit(150, 7, 100));
               s'.client.Some? && StatusOf(s'.client.value, s'.cons, Block(150).Now()).Expired?
  {
    Start(150);
    Accepted(Next(EMPTY, Create(150)), 150, 7, 100);
  }

  const CREATED := Entry(CREATED_STATE, 50, Height(9, 50))

  function Stored(top: u64, cons: Entries): State {
    State(Some(CLIENT.(latestHeight := Height(1, top))), cons)
  }

  // the states of the run below
  const FIRST := Stored(5, map[Height(1, 5) := CREATED])
  const SECOND := Stored(6, map[Height(1, 5) := CREATED, Height(1, 6) := EarlyEntry(50, 100)])
  const THIRD := Stored(7, map[Height(1, 5) := CREATED, Height(1, 6) := EarlyEntry(50, 100),
                               Height(1, 7) := EarlyEntry(50, 50)])
  const FOURTH := Stored(7, map[Height(1, 5) := CREATED, Height(1, 7) := EarlyEntry(50, 50)])
  const FIFTH := Stored(7, map[Height(1, 5) := CREATED, Height(1, 6) := EarlyEntry(105, 100),
                               Height(1, 7) := EarlyEntry(50, 50)])

  lemma Creation()
    ensures Leads(EMPTY, Create(50), FIRST)
  {
    Start(50);
  }

  lemma FirstHeader()
    ensures Leads(FIRST, Submit(50, 6, 100), SECOND)
  {
    Accepted(FIRST, 50, 6, 100);
  }

  lemma SecondHeader()
    ensures Leads(SECOND, Submit(50, 7, 50), THIRD)
  {
    Accepted(SECOND, 50, 7, 50);
  }

  lemma PruningLeavesGap()
    ensures Leads(THIRD, PruneExpired(Block(105)), FOURTH)
    ensures Straddles(THIRD.cons, CLIENT.trustingPeriod, Block(105).Now())
  {
    assert ExpiredHeights(THIRD.cons, 200, 105) == {Height(1, 6)};
    assert THIRD.cons - {Height(1, 6)} == FOURTH.cons;
    assert Height(1, 5) in THIRD.cons && Height(1, 6) in THIRD.cons && Height(1, 5).LT(Height(1, 6));
  }

  lemma Resubmission()
    ensures Leads(FOURTH, Submit(105, 6, 100), FIFTH)
  {
    Accepted(FOURTH, 105, 6, 100);
  }

  /** One step of a run, seen from given states. */
  ghost predicate Leads(from: State, step: Step, to: State) {
    Next(from, step) == to
  }

  lemma {:induction false} RunThrough(states: seq<State>, steps: seq<Step>, i: nat)
    requires |states| == |steps| + 1 && i <= |steps|
    requires forall j :: 0 <= j < |steps| ==> Leads(states[j], steps[j], states[j + 1])
    ensures At(states[0], steps, i) == states[i]
    decreases i
  {
    if i > 0 {
      RunThrough(states, steps, i - 1);
      AtNext(states[0], steps, i - 1);
      assert Leads(states[i - 1], steps[i - 1], states[i]);
    }
  }

  /** Two early headers, a pruning that takes the lower one only, and that header once more. */
  ghost predicate IsTheRun(steps: seq<Step>) {
    |steps| == 5 && steps[0] == Create(50) && steps[1] == Submit(50, 6, 100) && steps[2] == Submit(50, 7, 50)
    && steps[3] == PruneExpired(Block(105)) && steps[4] == Submit(105, 6, 100)
  }

  lemma Path(steps: seq<Step>)
    requires IsTheRun(steps)
    ensures At(EMPTY, steps, 3) == THIRD && At(EMPTY, steps, 4) == FOURTH && Run(EMPTY, steps) == FIFTH
  {
    Creation();
    FirstHeader();
    SecondHeader();
    PruningLeavesGap();
    Resubmission();
    var states := [EMPTY, FIRST, SECOND, THIRD, FOURTH, FIFTH];
    RunThrough(states, steps, 3);
    RunThrough(states, steps, 4);
    RunThrough(states, steps, 5);
    AtEnd(EMPTY, steps);
  }

  /** A pruned height comes back: the pruning meets a straddling store and leaves a gap. */
  lemma PrunedHeightReturns(steps: seq<Step>)
    requires IsTheRun(steps)
    ensures Height(1, 6) in At(EMPTY, steps, 3).cons
    ensures Straddles(At(EMPTY, steps, 3).cons, CLIENT.trustingPeriod, Block(105).Now())
    ensures Height(1, 6) !in At(EMPTY, steps, 4).cons
    ensures Height(1, 6) in Run(EMPTY, steps).cons
  {
    Path(steps);
    PruningLeavesGap();
  }

  /** It comes back with a new processed time, so a delay that had passed is running again. */
  lemma PassedDelayRunsAgain(steps: seq<Step>)
    requires IsTheRun(steps)
    ensures VerifyDelayPeriodPassed(At(EMPTY, steps, 3).cons, Block(105), Height(1, 6), 55, 0).Ok?
    ensures VerifyDelayPeriodPassed(Run(EMPTY, steps).cons, Block(159), Height(1, 6), 55, 0)
         == Err(DelayPeriodNotPassed)
  {
    Path(steps);
  }
}
