/** Where results, answers and keys come from: each goes back to a step of the run. */
module PollHistory {
  import opened Ints
  import opened Poll

  /** The state before step `n` of a run. */
  function At(s: State, steps: seq<Step>, n: nat): State
    requires n <= |steps|
  {
    Run(s, steps[..n])
  }

  /** Step `n` of the run takes place and is this one. */
  ghost predicate Happens(s: State, steps: seq<Step>, n: nat, step: Step) {
    n < |steps| && steps[n] == step && Enabled(At(s, steps, n), step)
  }

  lemma AtNext(s: State, steps: seq<Step>, n: nat)
    requires n < |steps|
    ensures At(s, steps, n + 1) == Next(At(s, steps, n), steps[n])
  {
    LastStep(s, steps, n);
  }

  lemma AtEnd(s: State, steps: seq<Step>)
    ensures At(s, steps, |steps|) == Run(s, steps)
  {
    assert steps[..|steps|] == steps;
  }

  // ---------- results ----------

  lemma ProvedStep(s: State, step: Step, t: Tid, outcome: Outcome)
    requires t in Next(s, step).jobs && Next(s, step).jobs[t].phase == Proved(outcome)
    ensures t in s.jobs && s.jobs[t].key == Next(s, step).jobs[t].key
    ensures s.jobs[t].phase == Proved(outcome) || (step == Prove(t, outcome) && Enabled(s, step))
  {
  }

  /** The proof of this job gave this outcome at step `n`. */
  ghost predicate ProofEnds(s: State, steps: seq<Step>, n: nat, t: Tid, key: Key, outcome: Outcome) {
    Happens(s, steps, n, Prove(t, outcome)) && Runs(At(s, steps, n), t, key)
  }

  lemma {:induction false} ProvedHow(maxJobs: u32, steps: seq<Step>, j: nat, t: Tid, outcome: Outcome) returns (n: nat)
    requires j <= |steps|
    requires var s := At(Init(maxJobs), steps, j); t in s.jobs && s.jobs[t].phase == Proved(outcome)
    ensures n < j && ProofEnds(Init(maxJobs), steps, n, t, At(Init(maxJobs), steps, j).jobs[t].key, outcome)
    decreases j
  {
    n := j - 1;
    AtNext(Init(maxJobs), steps, n);
    var s := At(Init(maxJobs), steps, n);
    ProvedStep(s, steps[n], t, outcome);
    if s.jobs[t].phase == Proved(outcome) {
      n := ProvedHow(maxJobs, steps, j - 1, t, outcome);
    }
  }

  lemma FinishedStep(s: State, step: Step, key: Key, outcome: Outcome)
    requires key in Next(s, step).results && Next(s, step).results[key] == Finished(outcome)
    ensures (key in s.results && s.results[key] == Finished(outcome))
            || (step.Store? && Enabled(s, step) && s.jobs[step.t] == Job(key, Proved(outcome)))
  {
  }

  lemma {:induction false} FinishedHow(maxJobs: u32, steps: seq<Step>, j: nat, key: Key, outcome: Outcome)
    returns (n: nat, t: Tid)
    requires j <= |steps|
    requires var s := At(Init(maxJobs), steps, j); key in s.results && s.results[key] == Finished(outcome)
    ensures n < j && ProofEnds(Init(maxJobs), steps, n, t, key, outcome)
    decreases j
  {
    AtNext(Init(maxJobs), steps, j - 1);
    var s := At(Init(maxJobs), steps, j - 1);
    FinishedStep(s, steps[j - 1], key, outcome);
    if key in s.results && s.results[key] == Finished(outcome) {
      n, t := FinishedHow(maxJobs, steps, j - 1, key, outcome);
    } else {
      t := steps[j - 1].t;
      n := ProvedHow(maxJobs, steps, j - 1, t, outcome);
    }
  }

  /** Main result: a result in the table is the outcome of a proof that ran for that key in this run. */
  lemma ResultsAreProved(maxJobs: u32, steps: seq<Step>, key: Key, outcome: Outcome)
    requires var s := Run(Init(maxJobs), steps); key in s.results && s.results[key] == Finished(outcome)
    ensures exists n, t :: ProofEnds(Init(maxJobs), steps, n, t, key, outcome)
  {
    AtEnd(Init(maxJobs), steps);
    var n, t := FinishedHow(maxJobs, steps, |steps|, key, outcome);
  }

  lemma {:induction false} ProvedWaits(s: State, steps: seq<Step>, t: Tid, outcome: Outcome)
    requires JobsHavePollers(s) && t in s.jobs && s.jobs[t].phase == Proved(outcome)
    requires forall n | 0 <= n < |steps| :: steps[n] != Store(t)
    ensures t in Run(s, steps).jobs && Run(s, steps).jobs[t] == s.jobs[t]
    decreases |steps|
  {
    if steps != [] {
      WaitStep(s, steps[0], t, outcome);
      assert steps[0] != Store(t);
      ProvedWaits(Next(s, steps[0]), steps[1..], t, outcome);
    }
  }

  lemma WaitStep(s: State, step: Step, t: Tid, outcome: Outcome)
    requires JobsHavePollers(s) && t in s.jobs && s.jobs[t].phase == Proved(outcome) && step != Store(t)
    ensures JobsHavePollers(Next(s, step)) && t in Next(s, step).jobs && Next(s, step).jobs[t] == s.jobs[t]
  {
    if Enabled(s, step) {
      JobsHavePollersKept(s, step);
    }
  }

  /** Main result: the outcome of a proof, whenever it is stored, is what the table holds from then on. */
  lemma ProofIsStored(s: State, t: Tid, outcome: Outcome, between: seq<Step>, after: seq<Step>)
    requires Invariant(s) && Enabled(s, Prove(t, outcome))
    requires forall n | 0 <= n < |between| :: between[n] != Store(t)
    ensures var before := Run(Next(s, Prove(t, outcome)), between);
            var s' := Run(Next(before, Store(t)), after);
            Enabled(before, Store(t)) && s.jobs[t].key in s'.results && s'.results[s.jobs[t].key] == Finished(outcome)
  {
    var s1 := Next(s, Prove(t, outcome));
    StepKeepsInvariant(s, Prove(t, outcome));
    assert s1.jobs[t] == Job(s.jobs[t].key, Proved(outcome));
    ProvedWaits(s1, between, t, outcome);
    RunKeepsInvariant(s1, between);
    var before := Run(s1, between);
    StepKeepsInvariant(before, Store(t));
    ResultsAreForever(Next(before, Store(t)), after, s.jobs[t].key, t);
  }

  // ---------- answers ----------

  /** This step gives the poller this answer, and why. */
  ghost predicate Answers(s: State, step: Step, t: Tid, key: Key, answer: Answer) {
    t in s.pollers && s.pollers[t].key == key && Enabled(s, step)
    && match answer
       case IsPending =>
         (step == LoadOrStore(t) && key in s.results && s.results[key] == Pending)
         || (step == Spawn(t) && Runs(s, t, key) && s.jobs[t].phase == NotStarted
             && Runs(Next(s, step), t, key) && Next(s, step).jobs[t].phase == Proving)
       case IsFinished(outcome) => step == LoadOrStore(t) && key in s.results && s.results[key] == Finished(outcome)
       case Busy => step == Reject(t) && key !in Next(s, step).results
  }

  lemma AnswerStep(s: State, step: Step, t: Tid)
    requires JobsHavePollers(s) && t in Next(s, step).pollers && Next(s, step).pollers[t].Answered?
    ensures var p := Next(s, step).pollers[t];
            (t in s.pollers && s.pollers[t] == p) || Answers(s, step, t, p.key, p.answer)
  {
  }

  lemma {:induction false} AnsweredHow(maxJobs: u32, steps: seq<Step>, j: nat, t: Tid) returns (n: nat)
    requires j <= |steps|
    requires var s := At(Init(maxJobs), steps, j); t in s.pollers && s.pollers[t].Answered?
    ensures var p := At(Init(maxJobs), steps, j).pollers[t];
            n < j && Answers(At(Init(maxJobs), steps, n), steps[n], t, p.key, p.answer)
    decreases j
  {
    n := j - 1;
    AtNext(Init(maxJobs), steps, n);
    var s := At(Init(maxJobs), steps, n);
    InitHolds(maxJobs);
    RunKeepsInvariant(Init(maxJobs), steps[..n]);
    AnswerStep(s, steps[n], t);
    if t in s.pollers && s.pollers[t] == At(Init(maxJobs), steps, j).pollers[t] {
      n := AnsweredHow(maxJobs, steps, j - 1, t);
    }
  }

  /**
   Main result: every answer was given by a step of the poller itself that justifies it: pending for an entry
   that was pending or for the proof it started itself, finished for the outcome that it found, busy for
   the entry that it withdrew.
   */
  lemma AnswersAreJustified(maxJobs: u32, steps: seq<Step>, t: Tid)
    requires var s := Run(Init(maxJobs), steps); t in s.pollers && s.pollers[t].Answered?
    ensures var p := Run(Init(maxJobs), steps).pollers[t];
            exists n :: 0 <= n < |steps| && Answers(At(Init(maxJobs), steps, n), steps[n], t, p.key, p.answer)
  {
    AtEnd(Init(maxJobs), steps);
    var n := AnsweredHow(maxJobs, steps, |steps|, t);
  }

  // ---------- keys ----------

  lemma ArrivalStep(s: State, step: Step, t: Tid)
    requires t in Next(s, step).pollers
    ensures var key := Next(s, step).pollers[t].key;
            (t in s.pollers && s.pollers[t].key == key) || (step == Arrive(t, key) && Enabled(s, step))
  {
  }

  lemma {:induction false} ArrivedHow(maxJobs: u32, steps: seq<Step>, j: nat, t: Tid) returns (n: nat)
    requires j <= |steps| && t in At(Init(maxJobs), steps, j).pollers
    ensures n < j && Happens(Init(maxJobs), steps, n, Arrive(t, At(Init(maxJobs), steps, j).pollers[t].key))
    decreases j
  {
    n := j - 1;
    AtNext(Init(maxJobs), steps, n);
    var s := At(Init(maxJobs), steps, n);
    ArrivalStep(s, steps[n], t);
    if t in s.pollers && s.pollers[t].key == At(Init(maxJobs), steps, j).pollers[t].key {
      n := ArrivedHow(maxJobs, steps, j - 1, t);
    }
  }

  /** A job works on the key of its poller, and its proof run is counted once it has started. */
  ghost predicate JobsMatch(s: State) {
    forall t <- s.jobs :: t in s.pollers && s.jobs[t].key == s.pollers[t].key
                          && s.runs[s.jobs[t].key] == if s.jobs[t].phase.NotStarted? then 0 else 1
  }

  lemma JobsMatchKept(s: State, step: Step)
    requires Invariant(s) && JobsMatch(s)
    ensures JobsMatch(Next(s, step))
  {
    if Enabled(s, step) {
      var s' := Apply(s, step);
      StepKeepsInvariant(s, step);
      RunsAfter(s, step);
      forall t | t in s'.jobs
        ensures t in s'.pollers && s'.jobs[t].key == s'.pollers[t].key
        ensures s'.runs[s'.jobs[t].key] == if s'.jobs[t].phase.NotStarted? then 0 else 1
      {
        JobMatchKept(s, step, t);
      }
    }
  }

  /** A job's key is that of its poller after the step, as before. */
  lemma JobKeyKept(s: State, step: Step, t: Tid)
    requires JobsHavePollers(s) && JobsMatch(s) && Enabled(s, step) && t in Apply(s, step).jobs
    ensures var s' := Apply(s, step); t in s'.pollers && s'.jobs[t].key == s'.pollers[t].key
  {
  }

  /** A job that has started had started before, or starts now. */
  lemma StartedHow(s: State, step: Step, t: Tid)
    requires Enabled(s, step) && t in Apply(s, step).jobs && !Apply(s, step).jobs[t].phase.NotStarted?
    ensures t in s.jobs && s.jobs[t].key == Apply(s, step).jobs[t].key
    ensures !s.jobs[t].phase.NotStarted? || step == Spawn(t)
  {
  }

  lemma JobMatchKept(s: State, step: Step, t: Tid)
    requires JobsHavePollers(s) && JobsMatch(s) && Enabled(s, step) && t in Apply(s, step).jobs
    requires ProvedOnce(Apply(s, step))
    ensures var s' := Apply(s, step);
            t in s'.pollers && s'.jobs[t].key == s'.pollers[t].key
            && s'.runs[s'.jobs[t].key] == if s'.jobs[t].phase.NotStarted? then 0 else 1
  {
    var s' := Apply(s, step);
    var key := s'.jobs[t].key;
    RunsAfter(s, step);
    JobKeyKept(s, step, t);
    assert s'.runs[key] <= 1;
    if !s'.jobs[t].phase.NotStarted? {
      StartedHow(s, step, t);
      assert step == Spawn(t) ==> s.pollers[t].key == key;
      assert s'.runs[key] >= 1;
    }
  }

  lemma {:induction false} RunKeepsJobsMatch(s: State, steps: seq<Step>)
    requires Invariant(s) && JobsMatch(s)
    ensures JobsMatch(Run(s, steps))
    decreases |steps|
  {
    if steps != [] {
      StepKeepsInvariant(s, steps[0]);
      JobsMatchKept(s, steps[0]);
      RunKeepsJobsMatch(Next(s, steps[0]), steps[1..]);
    }
  }

  /**
   Main result: in every run a poller works on the key with which it arrived, its job works on the same key,
   and the key has exactly one proof run once that job has started.
   */
  lemma KeysAreKept(maxJobs: u32, steps: seq<Step>, t: Tid)
    requires t in Run(Init(maxJobs), steps).pollers
    ensures var s := Run(Init(maxJobs), steps);
            var key := s.pollers[t].key;
            && (exists n :: 0 <= n < |steps| && Happens(Init(maxJobs), steps, n, Arrive(t, key)))
            && (t in s.jobs ==> s.jobs[t].key == key
                                && s.runs[key] == if s.jobs[t].phase.NotStarted? then 0 else 1)
  {
    AtEnd(Init(maxJobs), steps);
    var n := ArrivedHow(maxJobs, steps, |steps|, t);
    InitHolds(maxJobs);
    RunKeepsJobsMatch(Init(maxJobs), steps);
  }
}
