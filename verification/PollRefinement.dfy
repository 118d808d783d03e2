/**
 What the interleaved protocol amounts to: a table that runs each key once and at most `capacity`
 keys at a time. Every atomic step of the protocol is one allowed action of this table, or none.
 */
module PollRefinement {
  import opened Ints
  import opened Poll

  datatype Table = Table(capacity: u32, active: set<Key>, finished: map<Key, Outcome>)

  datatype Action = Nothing | Admit(key: Key) | Finish(key: Key, outcome: Outcome) | Release(key: Key)

  /** A key is admitted once, while a slot is free; it finishes once; it frees its slot after that. */
  ghost predicate Allowed(a: Table, action: Action) {
    match action
    case Nothing => true
    case Admit(key) => key !in a.active && key !in a.finished && |a.active| < a.capacity
    case Finish(key, _) => key in a.active && key !in a.finished
    case Release(key) => key in a.active && key in a.finished
  }

  function Do(a: Table, action: Action): Table {
    match action
    case Nothing => a
    case Admit(key) => a.(active := a.active + {key})
    case Finish(key, outcome) => a.(finished := a.finished[key := outcome])
    case Release(key) => a.(active := a.active - {key})
  }

  function ActiveKeys(s: State): set<Key> {
    set t | t in Live(s) :: s.jobs[t].key
  }

  function FinishedKeys(s: State): map<Key, Outcome> {
    map key | key in s.results && s.results[key].Finished? :: s.results[key].outcome
  }

  function View(s: State): Table {
    Table(s.maxJobs, ActiveKeys(s), FinishedKeys(s))
  }

  /** The action that a step takes effect with. */
  function ActionOf(s: State, step: Step): Action {
    if !Enabled(s, step) then Nothing
    else if step.TryAdmit? && Swaps(s, step) then Admit(s.pollers[step.t].key)
    else if step.Store? then Finish(s.jobs[step.t].key, s.jobs[step.t].phase.outcome)
    else if step.TryRelease? && Swaps(s, step) then Release(s.jobs[step.t].key)
    else Nothing
  }

  /** Different jobs have different keys, so keys and jobs are equally many. */
  lemma {:induction false} OneKeyPerJob(s: State, ts: set<Tid>)
    requires OneJobPerKey(s) && ts <= s.jobs.Keys
    ensures |set t | t in ts :: s.jobs[t].key| == |ts|
  {
    if ts != {} {
      var t :| t in ts;
      var rest := ts - {t};
      OneKeyPerJob(s, rest);
      var all, some := (set u | u in ts :: s.jobs[u].key), (set u | u in rest :: s.jobs[u].key);
      assert Runs(s, t, s.jobs[t].key);
      assert forall u <- rest :: Runs(s, u, s.jobs[u].key);
      assert s.jobs[t].key !in some;
      assert all == some + {s.jobs[t].key};
    }
  }

  /** The keys of the live jobs, when no job changes its key. */
  lemma ActiveKeysOf(s: State, s': State, key: Key, t: Tid)
    requires OneJobPerKey(s) && forall u <- Live(s) :: u in s'.jobs && s'.jobs[u].key == s.jobs[u].key
    ensures Live(s') == Live(s) ==> ActiveKeys(s') == ActiveKeys(s)
    ensures Live(s') == Live(s) + {t} && Runs(s', t, key) ==> ActiveKeys(s') == ActiveKeys(s) + {key}
    ensures Live(s') == Live(s) - {t} && Runs(s, t, key) ==> ActiveKeys(s') == ActiveKeys(s) - {key}
  {
    assert forall u <- Live(s) :: Runs(s, u, s.jobs[u].key);
    if Live(s') == Live(s) + {t} && Runs(s', t, key) {
      assert forall k :: k in ActiveKeys(s') <==> k in ActiveKeys(s) || k == key;
    }
  }

  lemma SlotFree(s: State, step: Step)
    requires Invariant(s) && Enabled(s, step) && step.TryAdmit? && Swaps(s, step)
    ensures Allowed(View(s), Admit(s.pollers[step.t].key))
  {
    var key := s.pollers[step.t].key;
    OneKeyPerJob(s, Live(s));
    assert Owns(s, step.t, key);
    assert forall t <- Live(s) :: Runs(s, t, s.jobs[t].key);
  }

  lemma JobActive(s: State, t: Tid)
    requires JobsRecorded(s) && t in Live(s)
    ensures var key := s.jobs[t].key;
            key in ActiveKeys(s) && (key in FinishedKeys(s) <==> !Unfinished(s.jobs[t].phase))
  {
    assert Runs(s, t, s.jobs[t].key);
  }

  lemma ActionAllowed(s: State, step: Step)
    requires Invariant(s) && Enabled(s, step)
    ensures Allowed(View(s), ActionOf(s, step))
  {
    if step.TryAdmit? && Swaps(s, step) {
      SlotFree(s, step);
    } else if step.Store? || step.TryRelease? {
      JobActive(s, step.t);
    }
  }

  lemma ActiveAfter(s: State, step: Step)
    requires OneJobPerKey(s) && JobsHavePollers(s) && Enabled(s, step)
    ensures ActiveKeys(Apply(s, step)) == Do(View(s), ActionOf(s, step)).active
  {
    var s' := Apply(s, step);
    LiveAfter(s, step);
    KeysKept(s, step);
    if step.TryAdmit? {
      ActiveKeysOf(s, s', s.pollers[step.t].key, step.t);
    } else if step.TryRelease? {
      ActiveKeysOf(s, s', s.jobs[step.t].key, step.t);
    } else {
      ActiveKeysOf(s, s', seq(32, _ => 0), step.t);
    }
  }

  lemma KeysKept(s: State, step: Step)
    requires JobsHavePollers(s) && Enabled(s, step)
    ensures forall t <- s.jobs :: t in Apply(s, step).jobs && Apply(s, step).jobs[t].key == s.jobs[t].key
  {
  }

  lemma ResultsAfter(s: State, step: Step)
    requires OwnerAlone(s) && JobsRecorded(s) && Enabled(s, step)
    ensures FinishedKeys(Apply(s, step))
         == if step.Store? then FinishedKeys(s)[s.jobs[step.t].key := s.jobs[step.t].phase.outcome] else FinishedKeys(s)
  {
    var s' := Apply(s, step);
    if step.Store? {
      assert FinishedKeys(s') == FinishedKeys(s)[s.jobs[step.t].key := s.jobs[step.t].phase.outcome];
    } else if step.Reject? {
      assert Owns(s, step.t, s.pollers[step.t].key);
      assert FinishedKeys(s') == FinishedKeys(s);
    } else if step.LoadOrStore? {
      assert FinishedKeys(s') == FinishedKeys(s);
    } else {
      assert s'.results == s.results;
    }
  }

  lemma FinishedAfter(s: State, step: Step)
    requires OwnerAlone(s) && JobsRecorded(s) && Enabled(s, step)
    ensures FinishedKeys(Apply(s, step)) == Do(View(s), ActionOf(s, step)).finished
  {
    ResultsAfter(s, step);
  }

  /** Main result: every step of the protocol is one allowed action of the table. */
  lemma StepRefines(s: State, step: Step)
    requires Invariant(s)
    ensures Allowed(View(s), ActionOf(s, step))
    ensures View(Next(s, step)) == Do(View(s), ActionOf(s, step))
  {
    if Enabled(s, step) {
      ActionAllowed(s, step);
      ActiveAfter(s, step);
      FinishedAfter(s, step);
    }
  }

  function Actions(s: State, steps: seq<Step>): seq<Action>
    decreases |steps|
  {
    if steps == [] then [] else [ActionOf(s, steps[0])] + Actions(Next(s, steps[0]), steps[1..])
  }

  /** A run of the table in which every action is allowed. */
  ghost predicate Path(a: Table, actions: seq<Action>, b: Table)
    decreases |actions|
  {
    if actions == [] then a == b
    else Allowed(a, actions[0]) && Path(Do(a, actions[0]), actions[1..], b)
  }

  /** Main result: every interleaving is a run of the table. */
  lemma {:induction false} RunRefines(s: State, steps: seq<Step>)
    requires Invariant(s)
    ensures Path(View(s), Actions(s, steps), View(Run(s, steps)))
    decreases |steps|
  {
    if steps != [] {
      StepRefines(s, steps[0]);
      StepKeepsInvariant(s, steps[0]);
      RunRefines(Next(s, steps[0]), steps[1..]);
      assert Actions(s, steps)[1..] == Actions(Next(s, steps[0]), steps[1..]);
    }
  }

  function Count(actions: seq<Action>, key: Key): nat {
    if actions == [] then 0 else (if actions[0] == Admit(key) then 1 else 0) + Count(actions[1..], key)
  }

  /** In a run of the table a key is admitted at most once, and never after it was active or finished. */
  lemma {:induction false} AdmittedOnce(a: Table, actions: seq<Action>, b: Table, key: Key)
    requires Path(a, actions, b)
    ensures Count(actions, key) <= if key in a.active || key in a.finished then 0 else 1
    decreases |actions|
  {
    if actions != [] {
      AdmittedOnce(Do(a, actions[0]), actions[1..], b, key);
    }
  }
}
