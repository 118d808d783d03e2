/**
 What a "pending" answer is worth. The entry may have been put there by a poller that has not been
 admitted yet; other requests can take every slot first, and then the entry is withdrawn.
 */
module PollPromise {
  import opened Ints
  import opened BigEndian
  import opened Poll

  // ---------- fresh keys and threads ----------

  /** The number of keys there are. */
  const KEY_SPACE: nat := Pow(256, 32)

  function NumberedKey(n: nat): Key {
    ToBytes(n, 32)
  }

  lemma NumberedKeysDiffer(m: nat, n: nat)
    requires m < KEY_SPACE && n < KEY_SPACE && NumberedKey(m) == NumberedKey(n)
    ensures m == n
  {
    DecodeEncode(m, 32);
    DecodeEncode(n, 32);
  }

  /** A set with `n` numbered keys in it has at least that many elements. */
  lemma {:induction false} NumberedKeysCount(keys: set<Key>, n: nat)
    requires n <= KEY_SPACE && forall i | 0 <= i < n :: NumberedKey(i) in keys
    ensures n <= |keys|
    decreases n
  {
    if n > 0 {
      var last := NumberedKey(n - 1);
      forall i | 0 <= i < n - 1
        ensures NumberedKey(i) in keys - {last}
      {
        if NumberedKey(i) == last {
          NumberedKeysDiffer(i, n - 1);
        }
      }
      NumberedKeysCount(keys - {last}, n - 1);
    }
  }

  lemma FreshKey(keys: set<Key>) returns (key: Key)
    requires |keys| < KEY_SPACE
    ensures key !in keys
  {
    if forall i | 0 <= i < |keys| + 1 :: NumberedKey(i) in keys {
      NumberedKeysCount(keys, |keys| + 1);
      assert false;
    }
    var i :| 0 <= i < |keys| + 1 && NumberedKey(i) !in keys;
    key := NumberedKey(i);
  }

  lemma {:induction false} FreshTid(ts: set<Tid>) returns (u: Tid)
    ensures forall t <- ts :: t < u
  {
    if ts == {} {
      u := 0;
    } else {
      var t :| t in ts;
      var m := FreshTid(ts - {t});
      u := m + t + 1;
      assert forall x <- ts :: x == t || x in ts - {t};
    }
  }

  // ---------- filling the slots ----------

  /** The owner is where it was and its key still has no job. */
  ghost predicate Undecided(s: State, t: Tid, key: Key) {
    Invariant(s) && Owns(s, t, key)
  }

  /** There are new keys for all the slots that are free. */
  ghost predicate HasRoom(s: State) {
    |s.results| + s.maxJobs - s.nbJobs <= KEY_SPACE
  }

  lemma ChainOfFour(s: State, a: Step, b: Step, c: Step, d: Step)
    ensures Run(s, [a, b, c, d]) == Next(Next(Next(Next(s, a), b), c), d)
  {
    assert [a, b, c, d] == [a] + ([b] + ([c] + [d]));
    RunConcat(s, [a], [b] + ([c] + [d]));
    RunOne(s, a);
    RunConcat(Next(s, a), [b], [c] + [d]);
    RunOne(Next(s, a), b);
    RunConcat(Next(Next(s, a), b), [c], [d]);
    RunOne(Next(Next(s, a), b), c);
    RunOne(Next(Next(Next(s, a), b), c), d);
  }

  /** The four steps of an admission without interference. */
  lemma FourSteps(s: State, u: Tid, k: Key)
    requires u !in s.pollers && k !in s.results && s.nbJobs < s.maxJobs
    ensures var s' := Next(Next(Next(Next(s, Arrive(u, k)), LoadOrStore(u)), LoadJobs(u)), TryAdmit(u));
            s'.nbJobs == s.nbJobs + 1 && s'.maxJobs == s.maxJobs && s'.pollers == s.pollers[u := Admitted(k)]
            && s'.results == s.results[k := Pending]
  {
    var s1 := Next(s, Arrive(u, k));
    var s2 := Next(s1, LoadOrStore(u));
    var s3 := Next(s2, LoadJobs(u));
    assert s3.pollers == s.pollers[u := Loaded(k, s.nbJobs)];
  }

  lemma Admission(s: State, u: Tid, k: Key) returns (steps: seq<Step>)
    requires u !in s.pollers && k !in s.results && s.nbJobs < s.maxJobs
    ensures var s' := Run(s, steps);
            s'.nbJobs == s.nbJobs + 1 && s'.maxJobs == s.maxJobs && s'.pollers == s.pollers[u := Admitted(k)]
            && s'.results == s.results[k := Pending]
  {
    steps := [Arrive(u, k), LoadOrStore(u), LoadJobs(u), TryAdmit(u)];
    ChainOfFour(s, Arrive(u, k), LoadOrStore(u), LoadJobs(u), TryAdmit(u));
    FourSteps(s, u, k);
  }

  /** A new request with a new key takes one more slot and leaves the owner alone. */
  lemma TakeSlot(s: State, t: Tid, key: Key) returns (steps: seq<Step>)
    requires Undecided(s, t, key) && s.nbJobs < s.maxJobs && HasRoom(s)
    ensures var s' := Run(s, steps);
            Undecided(s', t, key) && HasRoom(s') && s'.pollers[t] == s.pollers[t]
            && s'.nbJobs == s.nbJobs + 1 && s'.maxJobs == s.maxJobs
  {
    assert |s.results.Keys| == |s.results|;
    var k := FreshKey(s.results.Keys);
    var u := FreshTid(s.pollers.Keys);
    steps := Admission(s, u, k);
    RunKeepsInvariant(s, steps);
    assert t < u;
    OneMore(s.results, k);
  }

  lemma OneMore(results: map<Key, Entry>, k: Key)
    requires k !in results
    ensures |results[k := Pending]| == |results| + 1
  {
  }

  lemma {:induction false} TakeAllSlots(s: State, t: Tid, key: Key) returns (steps: seq<Step>)
    requires Undecided(s, t, key) && HasRoom(s)
    ensures var s' := Run(s, steps);
            Undecided(s', t, key) && s'.pollers[t] == s.pollers[t] && s'.nbJobs == s'.maxJobs
    decreases s.maxJobs - s.nbJobs
  {
    if s.nbJobs >= s.maxJobs {
      steps := [];
    } else {
      var first := TakeSlot(s, t, key);
      var rest := TakeAllSlots(Run(s, first), t, key);
      steps := first + rest;
      RunConcat(s, first, rest);
    }
  }

  // ---------- turning the owner away ----------

  lemma LoadAndReject(s: State, t: Tid, key: Key)
    requires t in s.pollers && s.pollers[t] == Owner(key) && s.nbJobs >= s.maxJobs
    ensures key !in Run(s, [LoadJobs(t), Reject(t)]).results
  {
    RunConcat(s, [LoadJobs(t)], [Reject(t)]);
    RunOne(s, LoadJobs(t));
    RunOne(Next(s, LoadJobs(t)), Reject(t));
    assert [LoadJobs(t), Reject(t)] == [LoadJobs(t)] + [Reject(t)];
  }

  /** With every slot taken, an undecided owner withdraws its entry, whatever it loaded before. */
  lemma OwnerWithdraws(s: State, t: Tid, key: Key) returns (steps: seq<Step>)
    requires Undecided(s, t, key) && s.nbJobs == s.maxJobs
    ensures key !in Run(s, steps).results
  {
    if s.pollers[t].Owner? {
      steps := [LoadJobs(t), Reject(t)];
      LoadAndReject(s, t, key);
    } else if s.pollers[t].seen >= s.maxJobs {
      steps := [Reject(t)];
      RunOne(s, Reject(t));
    } else {
      var s' := Next(s, TryAdmit(t));
      assert s'.pollers[t] == Owner(key);
      LoadAndReject(s', t, key);
      steps := [TryAdmit(t)] + [LoadJobs(t), Reject(t)];
      RunConcat(s, [TryAdmit(t)], [LoadJobs(t), Reject(t)]);
      RunOne(s, TryAdmit(t));
    }
  }

  lemma CanBeWithdrawn(s: State, t: Tid, key: Key) returns (steps: seq<Step>)
    requires Undecided(s, t, key) && HasRoom(s)
    ensures key !in Run(s, steps).results
  {
    var fill := TakeAllSlots(s, t, key);
    var leave := OwnerWithdraws(Run(s, fill), t, key);
    steps := fill + leave;
    RunConcat(s, fill, leave);
  }

  /**
   Main result: a pending key stays in the table in every continuation exactly when a job for it has
   been admitted. As long as its owner is undecided, some continuation removes it. The slots that are
   free must not outnumber the digests that are not in the table.
   */
  lemma PendingIsKeptIff(s: State, key: Key)
    requires Invariant(s) && key in s.results && s.results[key].Pending? && HasRoom(s)
    ensures (forall steps :: key in Run(s, steps).results) <==> (exists t :: Runs(s, t, key))
  {
    if t :| Runs(s, t, key) {
      forall steps
        ensures key in Run(s, steps).results
      {
        ResultsAreForever(s, steps, key, t);
      }
    } else {
      var t :| Responsible(s, t, key);
      assert Owns(s, t, key);
      var steps := CanBeWithdrawn(s, t, key);
      assert key !in Run(s, steps).results;
    }
  }

  // ---------- an answer without a proof ----------

  lemma {:induction false} AnswerStands(s: State, steps: seq<Step>, t: Tid)
    requires t in s.pollers && s.pollers[t].Answered?
    ensures t in Run(s, steps).pollers && Run(s, steps).pollers[t] == s.pollers[t]
    decreases |steps|
  {
    if steps != [] {
      AnswerStands(Next(s, steps[0]), steps[1..], t);
    }
  }

  lemma RoomForAll()
    ensures TWO_32 < KEY_SPACE
  {
    assert Pow(256, 4) == TWO_32;
    PowGrows(4, 32);
  }

  lemma {:induction false} PowGrows(m: nat, n: nat)
    requires m < n
    ensures Pow(256, m) < Pow(256, n)
    decreases n
  {
    if m < n - 1 {
      PowGrows(m, n - 1);
    }
  }

  /** Whatever the cap, a poller can be told "pending" for a key that is then withdrawn. */
  lemma PendingIsNoPromise(maxJobs: u32, key: Key) returns (steps: seq<Step>)
    ensures var s := Run(Init(maxJobs), steps);
            1 in s.pollers && s.pollers[1] == Answered(key, IsPending) && key !in s.results
  {
    var two := [Arrive(0, key), LoadOrStore(0), Arrive(1, key), LoadOrStore(1)];
    ChainOfFour(Init(maxJobs), two[0], two[1], two[2], two[3]);
    var s := Run(Init(maxJobs), two);
    InitHolds(maxJobs);
    RunKeepsInvariant(Init(maxJobs), two);
    assert Owns(s, 0, key) && s.pollers[1] == Answered(key, IsPending);
    assert s.results == map[key := Pending];
    RoomForAll();
    var rest := CanBeWithdrawn(s, 0, key);
    AnswerStands(s, rest, 1);
    steps := two + rest;
    RunConcat(Init(maxJobs), two, rest);
  }
}
