/** Where everything in the store comes from: every entry goes back to one call of the run. */
module ClientHistory {
  import opened Ints
  import opened Options
  import opened Types
  import opened ClientModel
  import opened ClientRuns
  import opened ClientMeaning

  /** The step puts this entry at the height, out of the fields of the call. */
  ghost predicate Wrote(s: State, step: Step, h: Height, e: Entry) {
    match step
    case CreateClient(ctx, cs, state) =>
      cs.latestHeight == h && e == Entry(state, Low64(Nanoseconds(ctx.blockTime)), ctx.selfHeight)
    case SubmitHeader(ctx, header, zk) =>
      Accepts(s, ctx, header, zk)
      && h == Height(header.trustedHeight.value.revisionNumber, Unsigned(header.signedHeader.value.height))
      && e.state.timestamp == Low64(Nanoseconds(header.signedHeader.value.time))
      && e.state.root == header.signedHeader.value.appHash
      && e.state.nextValidatorsHash == header.signedHeader.value.nextValidatorsHash
      && e.processedTime == Low64(Nanoseconds(ctx.blockTime)) && e.processedHeight == ctx.selfHeight
    case RecoverClient(_, substitute, other) => other.latestHeight == h && h in substitute && e == substitute[h]
    case _ => false
  }

  /** An entry that is there after a step was there before, or the step wrote it. */
  lemma KeptOrWritten(s: State, step: Step, h: Height)
    requires h in Next(s, step).cons
    ensures var e := Next(s, step).cons[h];
            (h in s.cons && s.cons[h] == e) || Wrote(s, step, h, e)
  {
    match step
    case CreateClient(ctx, _, _) =>
      NowMeans(ctx);
    case SubmitHeader(ctx, header, zk) =>
      if Accepts(s, ctx, header, zk) {
        UpdateMeans(s, s.client.value, ctx, header);
      }
    case _ =>
  }

  /** Step `k` wrote the entry, and it has been there unchanged since, up to state `j`. */
  ghost predicate StoredSince(s: State, steps: seq<Step>, k: nat, j: nat, h: Height, e: Entry)
    requires j <= |steps|
  {
    k < j && Wrote(At(s, steps, k), steps[k], h, e)
    && forall m :: k < m <= j ==> h in At(s, steps, m).cons && At(s, steps, m).cons[h] == e
  }

  lemma StoredLonger(s: State, steps: seq<Step>, k: nat, j: nat, h: Height, e: Entry)
    requires j < |steps| && StoredSince(s, steps, k, j, h, e)
    requires h in At(s, steps, j + 1).cons && At(s, steps, j + 1).cons[h] == e
    ensures StoredSince(s, steps, k, j + 1, h, e)
  {
  }

  lemma {:induction false} Origin(steps: seq<Step>, h: Height, j: nat) returns (k: nat)
    requires j <= |steps| && h in At(EMPTY, steps, j).cons
    ensures StoredSince(EMPTY, steps, k, j, h, At(EMPTY, steps, j).cons[h])
    decreases j
  {
    k := j - 1;
    AtNext(EMPTY, steps, k);
    var s, e := At(EMPTY, steps, k), At(EMPTY, steps, j).cons[h];
    KeptOrWritten(s, steps[k], h);
    if h in s.cons && s.cons[h] == e {
      k := Origin(steps, h, j - 1);
      StoredLonger(EMPTY, steps, k, j - 1, h, e);
    }
  }

  /**
   Main result: in every run, recoveries included, each stored entry was written by one call of the run
   out of the fields of that call and has stood unchanged since.
   */
  lemma EveryEntryHasOrigin(steps: seq<Step>, h: Height)
    requires h in Run(EMPTY, steps).cons
    ensures exists k :: 0 <= k < |steps| && StoredSince(EMPTY, steps, k, |steps|, h, Run(EMPTY, steps).cons[h])
  {
    AtEnd(EMPTY, steps);
    var k := Origin(steps, h, |steps|);
  }

  /** The validators that a call announces for the block after the height it stores. */
  function Announced(step: Step): Bytes {
    match step
    case CreateClient(_, _, state) => state.nextValidatorsHash
    case SubmitHeader(_, header, _) => header.signedHeader.value.nextValidatorsHash
    case RecoverClient(_, substitute, other) =>
      if other.latestHeight in substitute then substitute[other.latestHeight].state.nextValidatorsHash else []
    case _ => []
  }

  /**
   Main result: an accepted header goes back to the call that stored the height it trusts. Its proof is
   checked against the validators which that call announced, and the next block after that height must
   come from exactly those validators.
   */
  lemma AcceptedHeaderIsChained(steps: seq<Step>, j: nat) returns (k: nat)
    requires j < |steps| && steps[j].SubmitHeader?
    requires Accepts(At(EMPTY, steps, j), steps[j].ctx, steps[j].header, steps[j].zk)
    ensures k < j
    ensures var trusted, light := steps[j].header.trustedHeight.value, steps[j].header.signedHeader.value;
            var s := At(EMPTY, steps, j);
            && trusted in s.cons && StoredSince(EMPTY, steps, k, j, trusted, s.cons[trusted])
            && (Unsigned(light.height) == trusted.revisionHeight + 1 ==> light.validatorsHash == Announced(steps[k]))
            && steps[j].zk(steps[j].header.zeroKnowledgeProof, Announced(steps[k]),
                           ProverLightHeader(s.client.value.chainId, light.height, light.time, light.validatorsHash,
                                             light.nextValidatorsHash, light.appHash))
  {
    var s, step := At(EMPTY, steps, j), steps[j];
    VerifyHeaderMeans(s.client.value, s.cons, step.ctx, step.header, step.zk);
    k := Origin(steps, step.header.trustedHeight.value, j);
  }
}
