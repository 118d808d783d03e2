/** Nothing blocks for ever: from every state the protocol can still be brought to rest. */
module PollSettle {
  import opened Ints
  import opened Poll

  /** The poller has its answer and its job, if it has one, has given the slot back. */
  predicate Rests(s: State, t: Tid) {
    (t in s.pollers ==> s.pollers[t].Answered?) && (t in s.jobs ==> s.jobs[t].phase.Released?)
  }

  /** What the thread does next; a proof that is asked for ends with the given outcome. */
  function NextOf(s: State, t: Tid, outcome: Outcome): Step
    requires t in s.pollers
  {
    match s.pollers[t]
    case Arrived(_) => LoadOrStore(t)
    case Owner(_) => LoadJobs(t)
    case Loaded(_, seen) => if seen >= s.maxJobs then Reject(t) else TryAdmit(t)
    case Admitted(_) => Spawn(t)
    case Answered(_, _) =>
      if t !in s.jobs then LoadJobs(t)
      else
        match s.jobs[t].phase
        case Proving => Prove(t, outcome)
        case Proved(_) => Store(t)
        case Releasing(_) => TryRelease(t)
        case _ => LoadRelease(t)
  }

  /** How far the thread is from rest when nobody else moves: a stale load costs a round. */
  function Distance(s: State, t: Tid): nat
    requires t in s.pollers
  {
    match s.pollers[t]
    case Arrived(_) => 12
    case Loaded(_, seen) => if seen == s.nbJobs then 9 else 11
    case Owner(_) => 10
    case Admitted(_) => 8
    case Answered(_, _) =>
      if t !in s.jobs then 0
      else
        match s.jobs[t].phase
        case NotStarted => 8
        case Proving => 6
        case Proved(_) => 5
        case Releasing(seen) => if seen == s.nbJobs then 2 else 4
        case Stored => 3
        case Released => 0
  }

  /** All other threads are where they were. */
  ghost predicate OthersStay(s: State, s': State, t: Tid) {
    && (forall u :: u != t ==> (u in s'.pollers <==> u in s.pollers) && (u in s'.jobs <==> u in s.jobs))
    && (forall u :: u != t && u in s.pollers ==> s'.pollers[u] == s.pollers[u])
    && (forall u :: u != t && u in s.jobs ==> s'.jobs[u] == s.jobs[u])
    && t in s'.pollers
  }

  /** The poller's own steps. */
  lemma PollerStep(s: State, t: Tid, outcome: Outcome)
    requires JobsHavePollers(s) && t in s.pollers && !s.pollers[t].Answered?
    ensures var step := NextOf(s, t, outcome);
            Enabled(s, step) && Distance(Next(s, step), t) < Distance(s, t)
  {
    assert s.pollers[t].Admitted? ==> Runs(s, t, s.pollers[t].key);
    assert t in s.jobs ==> s.pollers[t].Admitted?;
  }

  /** The steps of its job. */
  lemma JobStep(s: State, t: Tid, outcome: Outcome)
    requires JobsHavePollers(s) && t in s.pollers && s.pollers[t].Answered? && !Rests(s, t)
    ensures var step := NextOf(s, t, outcome);
            Enabled(s, step) && Distance(Next(s, step), t) < Distance(s, t)
  {
    assert !s.jobs[t].phase.NotStarted?;
  }

  lemma OnlyOneMoves(s: State, step: Step)
    requires Enabled(s, step) && step.t in s.pollers
    ensures OthersStay(s, Next(s, step), step.t)
  {
  }

  lemma OneStep(s: State, t: Tid, outcome: Outcome)
    requires JobsHavePollers(s) && t in s.pollers && !Rests(s, t)
    ensures var step := NextOf(s, t, outcome);
            Enabled(s, step) && OthersStay(s, Next(s, step), t) && Distance(Next(s, step), t) < Distance(s, t)
  {
    if s.pollers[t].Answered? {
      JobStep(s, t, outcome);
    } else {
      PollerStep(s, t, outcome);
    }
    OnlyOneMoves(s, NextOf(s, t, outcome));
  }

  /** A thread that moves alone comes to rest. */
  lemma {:induction false} Alone(s: State, t: Tid, outcome: Outcome) returns (steps: seq<Step>)
    requires Invariant(s) && t in s.pollers
    ensures Rests(Run(s, steps), t) && OthersStay(s, Run(s, steps), t)
    decreases Distance(s, t)
  {
    if Rests(s, t) {
      steps := [];
    } else {
      var step := NextOf(s, t, outcome);
      OneStep(s, t, outcome);
      StepKeepsInvariant(s, step);
      var rest := Alone(Next(s, step), t, outcome);
      steps := [step] + rest;
      RunConcat(s, [step], rest);
      RunOne(s, step);
    }
  }

  function Restless(s: State): set<Tid> {
    set t | t in s.pollers && !Rests(s, t)
  }

  lemma AtRest(s: State)
    requires Invariant(s) && Restless(s) == {}
    ensures Settled(s) && s.nbJobs == 0
  {
    assert forall t <- s.pollers :: t !in Restless(s);
    assert Live(s) == {};
  }

  lemma {:induction false} CanRest(s: State, outcome: Outcome) returns (steps: seq<Step>)
    requires Invariant(s)
    ensures Settled(Run(s, steps)) && Run(s, steps).nbJobs == 0
    decreases |Restless(s)|
  {
    if Restless(s) == {} {
      AtRest(s);
      steps := [];
    } else {
      var t :| t in Restless(s);
      var first := Alone(s, t, outcome);
      RunKeepsInvariant(s, first);
      var s' := Run(s, first);
      OneFewer(s, s', t);
      var rest := CanRest(s', outcome);
      steps := first + rest;
      RunConcat(s, first, rest);
    }
  }

  lemma OneFewer(s: State, s': State, t: Tid)
    requires t in Restless(s) && Rests(s', t) && OthersStay(s, s', t)
    ensures |Restless(s')| < |Restless(s)|
  {
    assert Restless(s') == Restless(s) - {t};
  }

  /**
   Main result: from every state that a run reaches, some continuation answers every poller, stores every
   outcome and gives every slot back.
   */
  lemma EveryRunCanSettle(maxJobs: u32, steps: seq<Step>)
    ensures exists more ::
              var s := Run(Init(maxJobs), steps + more);
              Settled(s) && s.nbJobs == 0
  {
    InitHolds(maxJobs);
    RunKeepsInvariant(Init(maxJobs), steps);
    var more := CanRest(Run(Init(maxJobs), steps), Failure([]));
    RunConcat(Init(maxJobs), steps, more);
    assert Settled(Run(Init(maxJobs), steps + more));
  }
}
