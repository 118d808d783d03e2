/**
 The proof-job protocol of the prover server as interleaved atomic steps: a load-or-store result
 table, a compare-and-swap job counter with a cap, and one background worker per admitted request.
 Both servers run this protocol; any number of pollers and workers may be in flight.
 */
module Poll {
  import opened Ints

  /** Requests are known by their SHA-256 digest. */
  type Key = b: Bytes | |b| == 32 witness seq(32, _ => 0)

  type Tid = nat

  datatype Outcome = Response(bytes: Bytes) | Failure(message: Bytes)

  datatype Entry = Pending | Finished(outcome: Outcome)

  datatype Answer = IsPending | IsFinished(outcome: Outcome) | Busy

  /** Where a call of `Poll` is. */
  datatype Poller =
    | Arrived(key: Key)
    | Owner(key: Key)
    | Loaded(key: Key, seen: u32)
    | Admitted(key: Key)
    | Answered(key: Key, answer: Answer)

  /** Where the job of an admitted request is. The goroutine starts in `Proving`. */
  datatype Phase =
    | NotStarted
    | Proving
    | Proved(outcome: Outcome)
    | Stored
    | Releasing(seen: u32)
    | Released

  datatype Job = Job(key: Key, phase: Phase)

  /** `runs` counts how often a proof was started for each key. */
  datatype State = State(
    maxJobs: u32,
    nbJobs: u32,
    results: map<Key, Entry>,
    pollers: map<Tid, Poller>,
    jobs: map<Tid, Job>,
    runs: multiset<Key>)

  function Init(maxJobs: u32): State {
    State(maxJobs, 0, map[], map[], map[], multiset{})
  }

  function U32(x: int): u32 {
    x % TWO_32
  }

  /** One atomic action of the poller or the worker with this thread id. */
  datatype Step =
    | Arrive(t: Tid, key: Key)
    | LoadOrStore(t: Tid)
    | LoadJobs(t: Tid)
    | Reject(t: Tid)
    | TryAdmit(t: Tid)
    | Spawn(t: Tid)
    | Prove(t: Tid, outcome: Outcome)
    | Store(t: Tid)
    | LoadRelease(t: Tid)
    | TryRelease(t: Tid)

  predicate Enabled(s: State, step: Step) {
    var t := step.t;
    match step
    case Arrive(_, _) => t !in s.pollers
    case LoadOrStore(_) => t in s.pollers && s.pollers[t].Arrived?
    case LoadJobs(_) => t in s.pollers && s.pollers[t].Owner?
    case Reject(_) => t in s.pollers && s.pollers[t].Loaded? && s.pollers[t].seen >= s.maxJobs
    case TryAdmit(_) => t in s.pollers && s.pollers[t].Loaded? && s.pollers[t].seen < s.maxJobs
    case Spawn(_) => t in s.pollers && s.pollers[t].Admitted? && t in s.jobs
    case Prove(_, _) => t in s.jobs && s.jobs[t].phase.Proving?
    case Store(_) => t in s.jobs && s.jobs[t].phase.Proved?
    case LoadRelease(_) => t in s.jobs && s.jobs[t].phase.Stored?
    case TryRelease(_) => t in s.jobs && s.jobs[t].phase.Releasing?
  }

  /** The compare-and-swap of this step takes effect. */
  predicate Swaps(s: State, step: Step)
    requires Enabled(s, step)
  {
    (step.TryAdmit? && s.nbJobs == s.pollers[step.t].seen)
    || (step.TryRelease? && s.nbJobs == s.jobs[step.t].phase.seen)
  }

  function WithPhase(s: State, t: Tid, phase: Phase): State
    requires t in s.jobs
  {
    s.(jobs := s.jobs[t := s.jobs[t].(phase := phase)])
  }

  function WithPoller(s: State, t: Tid, p: Poller): State {
    s.(pollers := s.pollers[t := p])
  }

  /** What a poller answers from an entry that it found in the table. */
  function AnswerFrom(e: Entry): Answer {
    if e.Pending? then IsPending else IsFinished(e.outcome)
  }

  function Apply(s: State, step: Step): State
    requires Enabled(s, step)
  {
    var t := step.t;
    match step
    case Arrive(_, key) => WithPoller(s, t, Arrived(key))
    case LoadOrStore(_) =>
      var key := s.pollers[t].key;
      if key in s.results then WithPoller(s, t, Answered(key, AnswerFrom(s.results[key])))
      else WithPoller(s.(results := s.results[key := Pending]), t, Owner(key))
    case LoadJobs(_) => WithPoller(s, t, Loaded(s.pollers[t].key, s.nbJobs))
    case Reject(_) =>
      var key := s.pollers[t].key;
      WithPoller(s.(results := s.results - {key}), t, Answered(key, Busy))
    case TryAdmit(_) =>
      var key := s.pollers[t].key;
      if Swaps(s, step)
      then WithPoller(s.(nbJobs := U32(s.pollers[t].seen + 1), jobs := s.jobs[t := Job(key, NotStarted)]),
                      t, Admitted(key))
      else WithPoller(s, t, Owner(key))
    case Spawn(_) =>
      var key := s.pollers[t].key;
      WithPoller(WithPhase(s.(runs := s.runs + multiset{key}), t, Proving), t, Answered(key, IsPending))
    case Prove(_, outcome) => WithPhase(s, t, Proved(outcome))
    case Store(_) =>
      var j := s.jobs[t];
      WithPhase(s.(results := s.results[j.key := Finished(j.phase.outcome)]), t, Stored)
    case LoadRelease(_) => WithPhase(s, t, Releasing(s.nbJobs))
    case TryRelease(_) =>
      if Swaps(s, step)
      then WithPhase(s.(nbJobs := U32(s.jobs[t].phase.seen - 1)), t, Released)
      else WithPhase(s, t, Stored)
  }

  /** A step that is not enabled does nothing. */
  function Next(s: State, step: Step): State {
    if Enabled(s, step) then Apply(s, step) else s
  }

  function Run(s: State, steps: seq<Step>): State
    decreases |steps|
  {
    if steps == [] then s else Run(Next(s, steps[0]), steps[1..])
  }

  // ---------- the invariant ----------

  /** Jobs that were admitted and have not given their slot back. */
  function Live(s: State): set<Tid> {
    set t | t in s.jobs && !s.jobs[t].phase.Released?
  }

  /** The poller has put the pending entry there and has not decided yet. */
  predicate Owns(s: State, t: Tid, key: Key) {
    t in s.pollers && (s.pollers[t].Owner? || s.pollers[t].Loaded?) && s.pollers[t].key == key
  }

  predicate Runs(s: State, t: Tid, key: Key) {
    t in s.jobs && s.jobs[t].key == key
  }

  /** Nothing has been stored for the job yet. */
  predicate Unfinished(p: Phase) {
    p.NotStarted? || p.Proving? || p.Proved?
  }

  ghost predicate OwnerAlone(s: State) {
    && (forall t, key :: Owns(s, t, key) ==> key in s.results && s.results[key].Pending?)
    && (forall t, u, key :: Owns(s, t, key) && Owns(s, u, key) ==> t == u)
    && (forall t, u, key :: Owns(s, t, key) ==> !Runs(s, u, key))
  }

  ghost predicate OneJobPerKey(s: State) {
    forall t, u, key :: Runs(s, t, key) && Runs(s, u, key) ==> t == u
  }

  /** A job has an entry, pending exactly until its outcome is stored. */
  ghost predicate JobsRecorded(s: State) {
    forall t, key :: Runs(s, t, key) ==>
      key in s.results && (s.results[key].Pending? <==> Unfinished(s.jobs[t].phase))
  }

  /** A job belongs to a poller that was admitted, and starts when that poller moves on. */
  ghost predicate JobsHavePollers(s: State) {
    && (forall t <- s.jobs :: t in s.pollers && (s.pollers[t].Admitted? || s.pollers[t].Answered?))
    && (forall t <- s.jobs :: s.jobs[t].phase.NotStarted? <==> s.pollers[t].Admitted?)
    && (forall t <- s.pollers :: s.pollers[t].Admitted? ==> Runs(s, t, s.pollers[t].key))
  }

  /** Every result in the table was put there by a job. */
  ghost predicate ResultsExplained(s: State) {
    forall key <- s.results :: s.results[key].Finished? ==> exists t :: Runs(s, t, key)
  }

  /** The thread will either withdraw the pending entry or finish it. */
  predicate Responsible(s: State, t: Tid, key: Key) {
    Owns(s, t, key) || (Runs(s, t, key) && Unfinished(s.jobs[t].phase))
  }

  /** No entry is pending without somebody responsible for it. */
  ghost predicate PendingExplained(s: State) {
    forall key <- s.results :: s.results[key].Pending? ==> exists t :: Responsible(s, t, key)
  }

  ghost predicate ProvedOnce(s: State) {
    && (forall key :: s.runs[key] <= 1)
    && (forall key :: s.runs[key] > 0 ==> exists t :: Runs(s, t, key))
    && (forall t <- s.jobs :: s.jobs[t].phase.NotStarted? ==> s.runs[s.jobs[t].key] == 0)
  }

  ghost predicate Counted(s: State) {
    s.nbJobs == |Live(s)| && s.nbJobs <= s.maxJobs
  }

  /** A finished answer repeats the entry of the table. */
  ghost predicate AnswersTrue(s: State) {
    forall t <- s.pollers :: s.pollers[t].Answered? && s.pollers[t].answer.IsFinished? ==>
      s.pollers[t].key in s.results && s.results[s.pollers[t].key] == Finished(s.pollers[t].answer.outcome)
  }

  ghost predicate Invariant(s: State) {
    OwnerAlone(s) && OneJobPerKey(s) && JobsRecorded(s) && JobsHavePollers(s) && ResultsExplained(s)
    && PendingExplained(s) && ProvedOnce(s) && Counted(s) && AnswersTrue(s)
  }

  lemma InitHolds(maxJobs: u32)
    ensures Invariant(Init(maxJobs))
  {
  }

  /** Who owns a key and which jobs exist changes only in these ways. */
  lemma Frame(s: State, step: Step)
    requires JobsHavePollers(s) && Enabled(s, step)
    ensures var s' := Apply(s, step);
            && (forall t, key :: Runs(s, t, key) ==> Runs(s', t, key))
            && (forall t, key :: Runs(s', t, key) ==>
                  Runs(s, t, key) || (t == step.t && step.TryAdmit? && Swaps(s, step) && Owns(s, t, key)))
            && (forall t, key :: Owns(s', t, key) ==>
                  Owns(s, t, key) || (t == step.t && step.LoadOrStore? && key == s.pollers[t].key && key !in s.results))
  {
  }

  lemma OwnerAloneKept(s: State, step: Step)
    requires OwnerAlone(s) && JobsRecorded(s) && JobsHavePollers(s) && Enabled(s, step)
    ensures OwnerAlone(Apply(s, step))
  {
    Frame(s, step);
    assert step.Reject? ==> Owns(s, step.t, s.pollers[step.t].key);
    assert step.TryAdmit? ==> Owns(s, step.t, s.pollers[step.t].key);
    assert step.Store? ==> Runs(s, step.t, s.jobs[step.t].key);
  }

  lemma OneJobPerKeyKept(s: State, step: Step)
    requires OwnerAlone(s) && OneJobPerKey(s) && JobsHavePollers(s) && Enabled(s, step)
    ensures OneJobPerKey(Apply(s, step))
  {
    Frame(s, step);
  }

  lemma JobsRecordedKept(s: State, step: Step)
    requires OwnerAlone(s) && OneJobPerKey(s) && JobsRecorded(s) && JobsHavePollers(s) && Enabled(s, step)
    ensures JobsRecorded(Apply(s, step))
  {
    var s' := Apply(s, step);
    Frame(s, step);
    assert step.Reject? ==> Owns(s, step.t, s.pollers[step.t].key);
    assert step.Store? ==> Runs(s, step.t, s.jobs[step.t].key);
    forall t, key | Runs(s', t, key)
      ensures key in s'.results && (s'.results[key].Pending? <==> Unfinished(s'.jobs[t].phase))
    {
      if !Runs(s, t, key) {
        assert Owns(s, t, key);
      }
    }
  }

  lemma JobsHavePollersKept(s: State, step: Step)
    requires JobsHavePollers(s) && Enabled(s, step)
    ensures JobsHavePollers(Apply(s, step))
  {
    var s' := Apply(s, step);
    forall t | t in s'.jobs
      ensures t in s'.pollers && (s'.pollers[t].Admitted? || s'.pollers[t].Answered?)
      ensures s'.jobs[t].phase.NotStarted? <==> s'.pollers[t].Admitted?
    {
      assert t != step.t ==> t in s.jobs && s'.jobs[t] == s.jobs[t];
    }
    forall t | t in s'.pollers && s'.pollers[t].Admitted?
      ensures Runs(s', t, s'.pollers[t].key)
    {
      assert t != step.t ==> Runs(s, t, s.pollers[t].key);
    }
  }

  lemma ResultsExplainedKept(s: State, step: Step)
    requires ResultsExplained(s) && JobsHavePollers(s) && Enabled(s, step)
    ensures ResultsExplained(Apply(s, step))
  {
    var s' := Apply(s, step);
    Frame(s, step);
    forall key | key in s'.results && s'.results[key].Finished?
      ensures exists t :: Runs(s', t, key)
    {
      if key in s.results && s.results[key].Finished? {
        var t :| Runs(s, t, key);
        assert Runs(s', t, key);
      } else {
        assert Runs(s', step.t, key);
      }
    }
  }

  /** Responsibility ends only with the entry withdrawn or finished. */
  lemma ResponsibleKept(s: State, step: Step, t: Tid, key: Key)
    requires JobsHavePollers(s) && Enabled(s, step) && Responsible(s, t, key)
    ensures var s' := Apply(s, step);
            Responsible(s', t, key) || key !in s'.results || s'.results[key].Finished?
  {
  }

  lemma PendingExplainedKept(s: State, step: Step)
    requires OwnerAlone(s) && JobsHavePollers(s) && PendingExplained(s) && Enabled(s, step)
    ensures PendingExplained(Apply(s, step))
  {
    var s' := Apply(s, step);
    forall key | key in s'.results && s'.results[key].Pending?
      ensures exists t :: Responsible(s', t, key)
    {
      if key in s.results && s.results[key].Pending? {
        var t :| Responsible(s, t, key);
        ResponsibleKept(s, step, t, key);
      } else {
        assert Responsible(s', step.t, key);
      }
    }
  }

  lemma RunsHaveJobs(s: State, step: Step, key: Key)
    requires OwnerAlone(s) && OneJobPerKey(s) && JobsHavePollers(s) && ProvedOnce(s) && Enabled(s, step)
    ensures Apply(s, step).runs[key] <= 1
    ensures Apply(s, step).runs[key] > 0 ==> exists t :: Runs(Apply(s, step), t, key)
  {
    var s' := Apply(s, step);
    Frame(s, step);
    RunsAfter(s, step);
    assert step.Spawn? ==> Runs(s, step.t, s.pollers[step.t].key) && s.jobs[step.t].phase.NotStarted?;
    if s.runs[key] > 0 {
      var t :| Runs(s, t, key);
      assert Runs(s', t, key);
    } else if s'.runs[key] > 0 {
      assert Runs(s', step.t, key);
    }
  }

  lemma ProvedOnceKept(s: State, step: Step)
    requires OwnerAlone(s) && OneJobPerKey(s) && JobsHavePollers(s) && ProvedOnce(s) && Enabled(s, step)
    ensures ProvedOnce(Apply(s, step))
  {
    var s' := Apply(s, step);
    forall key
      ensures s'.runs[key] <= 1
      ensures s'.runs[key] > 0 ==> exists t :: Runs(s', t, key)
    {
      RunsHaveJobs(s, step, key);
    }
    forall t | t in s'.jobs && s'.jobs[t].phase.NotStarted?
      ensures s'.runs[s'.jobs[t].key] == 0
    {
      NotStartedYet(s, step, t);
    }
  }

  /** Proof runs are counted by `Spawn` only. */
  lemma RunsAfter(s: State, step: Step)
    requires Enabled(s, step)
    ensures Apply(s, step).runs == if step.Spawn? then s.runs + multiset{s.pollers[step.t].key} else s.runs
  {
  }

  /** A job that has not started is one just admitted, or it was there and is not the one being started. */
  lemma NotStartedBefore(s: State, step: Step, t: Tid)
    requires Enabled(s, step) && t in Apply(s, step).jobs && Apply(s, step).jobs[t].phase.NotStarted?
    ensures var job := Apply(s, step).jobs[t];
            if t == step.t && step.TryAdmit? then Owns(s, t, job.key) || (t in s.jobs && s.jobs[t] == job)
            else t in s.jobs && s.jobs[t] == job && !(step.Spawn? && t == step.t)
  {
  }

  lemma NotStartedYet(s: State, step: Step, t: Tid)
    requires OwnerAlone(s) && OneJobPerKey(s) && JobsHavePollers(s) && ProvedOnce(s) && Enabled(s, step)
    requires t in Apply(s, step).jobs && Apply(s, step).jobs[t].phase.NotStarted?
    ensures Apply(s, step).runs[Apply(s, step).jobs[t].key] == 0
  {
    var key := Apply(s, step).jobs[t].key;
    RunsAfter(s, step);
    NotStartedBefore(s, step, t);
    assert step.Spawn? ==> Runs(s, step.t, s.pollers[step.t].key);
    assert Runs(s, t, key) || Owns(s, t, key);
  }

  /** Only a successful compare-and-swap changes who holds a slot. */
  lemma LiveAfter(s: State, step: Step)
    requires JobsHavePollers(s) && Enabled(s, step)
    ensures var live := Live(Apply(s, step));
            if !Swaps(s, step) then live == Live(s)
            else if step.TryAdmit? then step.t !in Live(s) && live == Live(s) + {step.t}
            else step.t in Live(s) && live == Live(s) - {step.t}
  {
    var s' := Apply(s, step);
    if !Swaps(s, step) {
      assert forall t :: t in Live(s') <==> t in Live(s);
    } else if step.TryAdmit? {
      assert forall t :: t in Live(s') <==> t in Live(s) || t == step.t;
    } else {
      assert forall t :: t in Live(s') <==> t in Live(s) && t != step.t;
    }
  }

  lemma CountedKept(s: State, step: Step)
    requires Counted(s) && JobsHavePollers(s) && Enabled(s, step)
    ensures Counted(Apply(s, step))
  {
    LiveAfter(s, step);
    CountAfter(s, step, Live(s), Live(Apply(s, step)));
  }

  /** The counter after a step; where a slot is taken or held it does not wrap. */
  lemma CounterAfter(s: State, step: Step)
    requires Enabled(s, step) && (step.TryRelease? && Swaps(s, step) ==> s.nbJobs >= 1)
    ensures Apply(s, step).nbJobs == if !Swaps(s, step) then s.nbJobs
                                     else if step.TryAdmit? then s.nbJobs + 1 else s.nbJobs - 1
    ensures Apply(s, step).maxJobs == s.maxJobs
  {
  }

  lemma CountAfter(s: State, step: Step, before: set<Tid>, after: set<Tid>)
    requires Enabled(s, step) && s.nbJobs == |before| <= s.maxJobs
    requires if !Swaps(s, step) then after == before
             else if step.TryAdmit? then step.t !in before && after == before + {step.t}
             else step.t in before && after == before - {step.t}
    ensures Apply(s, step).nbJobs == |after| <= Apply(s, step).maxJobs
  {
    CounterAfter(s, step);
  }

  lemma AnswersTrueKept(s: State, step: Step)
    requires OwnerAlone(s) && JobsRecorded(s) && AnswersTrue(s) && Enabled(s, step)
    ensures AnswersTrue(Apply(s, step))
  {
    assert step.Reject? ==> Owns(s, step.t, s.pollers[step.t].key);
    assert step.Store? ==> Runs(s, step.t, s.jobs[step.t].key);
  }

  lemma StepKeepsInvariant(s: State, step: Step)
    requires Invariant(s)
    ensures Invariant(Next(s, step))
  {
    if Enabled(s, step) {
      OwnerAloneKept(s, step);
      OneJobPerKeyKept(s, step);
      JobsRecordedKept(s, step);
      JobsHavePollersKept(s, step);
      ResultsExplainedKept(s, step);
      PendingExplainedKept(s, step);
      ProvedOnceKept(s, step);
      CountedKept(s, step);
      AnswersTrueKept(s, step);
    }
  }

  /**
   Main result: in every interleaving the counter is the number of jobs that hold a slot and stays
   within the cap, a key has one owner at most and one job at most, and one proof run at most.
   */
  lemma {:induction false} RunKeepsInvariant(s: State, steps: seq<Step>)
    requires Invariant(s)
    ensures Invariant(Run(s, steps))
    decreases |steps|
  {
    if steps != [] {
      StepKeepsInvariant(s, steps[0]);
      RunKeepsInvariant(Next(s, steps[0]), steps[1..]);
    }
  }

  lemma EveryInterleaving(maxJobs: u32, steps: seq<Step>)
    ensures var s := Run(Init(maxJobs), steps);
            && s.nbJobs == |Live(s)| <= maxJobs
            && (forall key :: s.runs[key] <= 1)
            && (forall t, u, key :: Owns(s, t, key) && Owns(s, u, key) ==> t == u)
            && (forall t, u, key :: Runs(s, t, key) && Runs(s, u, key) ==> t == u)
  {
    InitHolds(maxJobs);
    RunKeepsInvariant(Init(maxJobs), steps);
    CapIsConstant(Init(maxJobs), steps);
  }

  lemma {:induction false} CapIsConstant(s: State, steps: seq<Step>)
    ensures Run(s, steps).maxJobs == s.maxJobs
    decreases |steps|
  {
    if steps != [] {
      CapIsConstant(Next(s, steps[0]), steps[1..]);
    }
  }

  // ---------- admitted requests and their results stay ----------

  lemma FinishedKept(s: State, step: Step, key: Key)
    requires OwnerAlone(s) && JobsRecorded(s) && Enabled(s, step) && key in s.results && s.results[key].Finished?
    ensures key in Apply(s, step).results && Apply(s, step).results[key] == s.results[key]
  {
    assert step.Reject? ==> Owns(s, step.t, s.pollers[step.t].key);
    assert step.Store? ==> Runs(s, step.t, s.jobs[step.t].key);
  }

  lemma StepKeepsResults(s: State, step: Step, key: Key)
    requires Invariant(s)
    ensures forall t :: Runs(s, t, key) ==> Runs(Next(s, step), t, key)
    ensures key in s.results && s.results[key].Finished? ==>
              key in Next(s, step).results && Next(s, step).results[key] == s.results[key]
  {
    if Enabled(s, step) {
      Frame(s, step);
      if key in s.results && s.results[key].Finished? {
        FinishedKept(s, step, key);
      }
    }
  }

  /** Main result: an admitted key never leaves the table and a stored result never changes. */
  lemma {:induction false} ResultsAreForever(s: State, steps: seq<Step>, key: Key, t: Tid)
    requires Invariant(s)
    ensures Runs(s, t, key) ==> Runs(Run(s, steps), t, key) && key in Run(s, steps).results
    ensures key in s.results && s.results[key].Finished? ==>
              key in Run(s, steps).results && Run(s, steps).results[key] == s.results[key]
    decreases |steps|
  {
    if steps != [] {
      StepKeepsInvariant(s, steps[0]);
      StepKeepsResults(s, steps[0], key);
      ResultsAreForever(Next(s, steps[0]), steps[1..], key, t);
    }
  }

  /** All finished answers for a key agree, whenever they were given. */
  lemma FinishedAnswersAgree(maxJobs: u32, steps: seq<Step>, t: Tid, u: Tid)
    requires var s := Run(Init(maxJobs), steps);
             t in s.pollers && u in s.pollers && s.pollers[t].Answered? && s.pollers[u].Answered?
             && s.pollers[t].key == s.pollers[u].key
             && s.pollers[t].answer.IsFinished? && s.pollers[u].answer.IsFinished?
    ensures Run(Init(maxJobs), steps).pollers[t].answer == Run(Init(maxJobs), steps).pollers[u].answer
  {
    InitHolds(maxJobs);
    RunKeepsInvariant(Init(maxJobs), steps);
  }

  /** Every poller has its answer and every job has stored its outcome. */
  ghost predicate Settled(s: State) {
    && (forall t :: t in s.pollers ==> s.pollers[t].Answered?)
    && (forall t :: t in s.jobs ==> !Unfinished(s.jobs[t].phase))
  }

  lemma SettledEntry(s: State, key: Key)
    requires JobsRecorded(s) && ResultsExplained(s) && PendingExplained(s) && Settled(s)
    ensures key in s.results <==> exists t :: Runs(s, t, key)
    ensures key in s.results ==> s.results[key].Finished?
  {
    assert forall t :: !Responsible(s, t, key);
  }

  /** In every settled state the table holds a result for exactly the admitted keys: nothing is stuck. */
  lemma NothingStuck(maxJobs: u32, steps: seq<Step>, key: Key)
    requires Settled(Run(Init(maxJobs), steps))
    ensures var s := Run(Init(maxJobs), steps);
            (key in s.results <==> exists t :: Runs(s, t, key)) && (key in s.results ==> s.results[key].Finished?)
  {
    InitHolds(maxJobs);
    RunKeepsInvariant(Init(maxJobs), steps);
    SettledEntry(Run(Init(maxJobs), steps), key);
  }

  // ---------- runs ----------

  lemma {:induction false} RunConcat(s: State, a: seq<Step>, b: seq<Step>)
    ensures Run(s, a + b) == Run(Run(s, a), b)
    decreases |a|
  {
    if a == [] {
      assert a + b == b;
    } else {
      assert (a + b)[1..] == a[1..] + b;
      RunConcat(Next(s, a[0]), a[1..], b);
    }
  }

  lemma RunOne(s: State, step: Step)
    ensures Run(s, [step]) == Next(s, step)
  {
    assert [step][1..] == [];
    assert Run(Next(s, step), []) == Next(s, step);
  }

  // ---------- progress ----------

  /** The counter moves only by a successful compare-and-swap, by one, up or down. */
  lemma CounterMoves(s: State, step: Step)
    requires Invariant(s)
    ensures Next(s, step).nbJobs != s.nbJobs <==> Enabled(s, step) && Swaps(s, step)
    ensures Next(s, step).nbJobs != s.nbJobs ==>
              Next(s, step).nbJobs == if step.TryAdmit? then s.nbJobs + 1 else s.nbJobs - 1
  {
    if Enabled(s, step) {
      assert Swaps(s, step) && step.TryRelease? ==> step.t in Live(s);
      CounterAfter(s, step);
    }
  }

  /** Some compare-and-swap succeeds in the run. */
  ghost predicate SwapIn(s: State, steps: seq<Step>) {
    exists n :: 0 <= n < |steps| && SwapAt(s, steps, n)
  }

  ghost predicate SwapAt(s: State, steps: seq<Step>, n: nat)
    requires n < |steps|
  {
    Enabled(Run(s, steps[..n]), steps[n]) && Swaps(Run(s, steps[..n]), steps[n])
  }

  lemma {:induction false} ChangeMeansSwap(s: State, steps: seq<Step>)
    requires Invariant(s) && Run(s, steps).nbJobs != s.nbJobs
    ensures SwapIn(s, steps)
    decreases |steps|
  {
    var s' := Next(s, steps[0]);
    CounterMoves(s, steps[0]);
    StepKeepsInvariant(s, steps[0]);
    if s'.nbJobs != s.nbJobs {
      assert SwapAt(s, steps, 0);
    } else {
      ChangeMeansSwap(s', steps[1..]);
      var k :| 0 <= k < |steps[1..]| && SwapAt(s', steps[1..], k);
      assert steps[..k + 1][1..] == steps[1..][..k];
      assert SwapAt(s, steps, k + 1);
    }
  }

  /** Lock freedom: an admission fails its compare-and-swap only if another one succeeded since its load. */
  lemma FailedAdmissionMeansProgress(s: State, t: Tid, steps: seq<Step>)
    requires Invariant(s) && Enabled(s, LoadJobs(t))
    requires var loaded := Next(s, LoadJobs(t));
             var later := Run(loaded, steps);
             t in later.pollers && later.pollers[t] == loaded.pollers[t]
             && Enabled(later, TryAdmit(t)) && !Swaps(later, TryAdmit(t))
    ensures SwapIn(Next(s, LoadJobs(t)), steps)
  {
    StepKeepsInvariant(s, LoadJobs(t));
    ChangeMeansSwap(Next(s, LoadJobs(t)), steps);
  }

  /** The same for a worker that gives its slot back. */
  lemma FailedReleaseMeansProgress(s: State, t: Tid, steps: seq<Step>)
    requires Invariant(s) && Enabled(s, LoadRelease(t))
    requires var loaded := Next(s, LoadRelease(t));
             var later := Run(loaded, steps);
             t in later.jobs && later.jobs[t] == loaded.jobs[t]
             && Enabled(later, TryRelease(t)) && !Swaps(later, TryRelease(t))
    ensures SwapIn(Next(s, LoadRelease(t)), steps)
  {
    StepKeepsInvariant(s, LoadRelease(t));
    ChangeMeansSwap(Next(s, LoadRelease(t)), steps);
  }

  // ---------- turned away ----------

  /** The poller was turned away, or is about to be. */
  predicate TurnedAway(s: State, t: Tid) {
    t in s.pollers
    && ((s.pollers[t].Loaded? && s.pollers[t].seen >= s.maxJobs) || (s.pollers[t].Answered? && s.pollers[t].answer.Busy?))
  }

  /** Step `n` is the poller's own load of the counter, and it finds every slot taken. */
  ghost predicate LoadsFull(s: State, steps: seq<Step>, t: Tid, n: nat)
    requires n < |steps|
  {
    var at := Run(s, steps[..n]);
    steps[n] == LoadJobs(t) && Enabled(at, steps[n]) && |Live(at)| == at.maxJobs
  }

  lemma NewlyTurnedAway(s: State, step: Step, t: Tid)
    requires Counted(s) && TurnedAway(Next(s, step), t) && !TurnedAway(s, t)
    ensures step == LoadJobs(t) && Enabled(s, step) && |Live(s)| == s.maxJobs
  {
  }

  lemma LastStep(s: State, steps: seq<Step>, n: nat)
    requires n < |steps|
    ensures Run(s, steps[..n + 1]) == Next(Run(s, steps[..n]), steps[n])
  {
    assert steps[..n + 1] == steps[..n] + [steps[n]];
    RunConcat(s, steps[..n], [steps[n]]);
    RunOne(Run(s, steps[..n]), steps[n]);
  }

  /** The load that decided: every slot was taken then, and the poller was turned away from then on to `n`. */
  ghost predicate Decided(s: State, steps: seq<Step>, t: Tid, k: nat, n: nat)
    requires n <= |steps|
  {
    k < n && LoadsFull(s, steps, t, k) && forall m :: k < m <= n ==> TurnedAway(Run(s, steps[..m]), t)
  }

  lemma DecidedLonger(s: State, steps: seq<Step>, t: Tid, k: nat, n: nat)
    requires n < |steps| && Decided(s, steps, t, k, n) && TurnedAway(Run(s, steps[..n + 1]), t)
    ensures Decided(s, steps, t, k, n + 1)
  {
  }

  lemma {:induction false} FullWhenLoaded(s: State, steps: seq<Step>, t: Tid, n: nat) returns (k: nat)
    requires Invariant(s) && !TurnedAway(s, t) && n <= |steps| && TurnedAway(Run(s, steps[..n]), t)
    ensures Decided(s, steps, t, k, n)
    decreases n
  {
    k := n - 1;
    LastStep(s, steps, k);
    var at := Run(s, steps[..k]);
    if TurnedAway(at, t) {
      k := FullWhenLoaded(s, steps, t, n - 1);
      DecidedLonger(s, steps, t, k, n - 1);
    } else {
      RunKeepsInvariant(s, steps[..k]);
      NewlyTurnedAway(at, steps[k], t);
    }
  }

  /**
   Main result: whoever is turned away in a run loaded the counter itself in that run while every slot
   was taken, and has been on its way out ever since.
   */
  lemma BusyMeansFull(maxJobs: u32, steps: seq<Step>, t: Tid)
    requires TurnedAway(Run(Init(maxJobs), steps), t)
    ensures exists k :: 0 <= k < |steps| && Decided(Init(maxJobs), steps, t, k, |steps|)
  {
    assert steps[..|steps|] == steps;
    InitHolds(maxJobs);
    var k := FullWhenLoaded(Init(maxJobs), steps, t, |steps|);
  }
}
