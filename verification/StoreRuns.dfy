/** Whole runs on the byte-keyed store: what is proved of the state machine holds of the bytes. */
module StoreRuns {
  import opened Types
  import opened StoreKeys
  import opened ClientStores
  import Model = ClientModel
  import Runs = ClientRuns

  /** Only the empty client is stored in no keys at all. */
  lemma NoKeysMeansEmpty(ks: KeyScheme, kv: Kv, s: Model.State)
    requires Represents(ks, kv, s)
    ensures kv == map[] <==> s == Model.EMPTY
  {
    if kv == map[] {
      assert Holds(ks, kv, s, ClientId);
      forall h
        ensures h !in s.cons
      {
        assert Holds(ks, kv, s, ConsensusId(h));
      }
    }
    forall k | k in kv
      ensures s != Model.EMPTY
    {
      assert IsKey(ks, k);
      var id :| k == ks.key(id);
      assert Holds(ks, kv, s, id);
    }
  }

  method SubmitMisbehaviour(store: ClientStore, ctx: Model.Context, verified: bool)
    requires store.Valid()
    modifies store
    ensures store.Valid() && store.view == Model.Next(old(store.view), Model.SubmitMisbehaviour(ctx, verified))
  {
    store.Lookup(ZERO_HEIGHT);
    var client := store.GetClientState();
    if client.None? {
      return;
    }
    var status := store.Status(client.value, ctx);
    if status == Model.Active && verified {
      store.UpdateStateOnMisbehaviour(client.value);
    }
  }

  method PruneExpired(store: ClientStore, ctx: Model.Context)
    requires store.Valid()
    modifies store
    ensures store.Valid() && store.view == Model.Next(old(store.view), Model.PruneExpired(ctx))
  {
    store.Lookup(ZERO_HEIGHT);
    var client := store.GetClientState();
    if client.Some? {
      var _ := store.PruneAllExpiredConsensusStates(client.value, ctx);
    }
  }

  method RecoverClient(store: ClientStore, ctx: Model.Context, substitute: ClientStore, substituteClient: ClientState)
    requires store.Valid() && substitute.Valid()
    modifies store
    ensures store.Valid()
    ensures store.view == Model.Next(old(store.view),
                                     Model.RecoverClient(ctx, old(substitute.view).cons, substituteClient))
  {
    store.Lookup(ZERO_HEIGHT);
    var client := store.GetClientState();
    if client.Some? {
      var _ := store.CheckSubstituteAndUpdateState(ctx, client.value, substitute, substituteClient);
    }
  }

  /** One step of the state machine; a recovery reads its substitute from that client's own store. */
  method Execute(store: ClientStore, step: Model.Step, substitute: ClientStore)
    requires store.Valid() && substitute.Valid()
    requires step.RecoverClient? ==> substitute.view.cons == step.substitute
    modifies store
    ensures store.Valid() && store.view == Model.Next(old(store.view), step)
  {
    match step
    case CreateClient(ctx, cs, state) =>
      NoKeysMeansEmpty(store.keys, store.kv, store.view);
      if store.kv == map[] {
        store.Initialize(ctx, cs, state);
      }
    case SubmitHeader(ctx, header, zk) =>
      var _ := store.HandleHeader(ctx, header, zk);
    case SubmitMisbehaviour(ctx, verified) =>
      SubmitMisbehaviour(store, ctx, verified);
    case PruneExpired(ctx) =>
      PruneExpired(store, ctx);
    case RecoverClient(ctx, _, substituteClient) =>
      RecoverClient(store, ctx, substitute, substituteClient);
  }

  /** Every recovery in the list finds its substitute in a store other than the subject's. */
  ghost predicate Supplied(store: ClientStore, steps: seq<Model.Step>, substitutes: seq<ClientStore>)
    reads substitutes
  {
    |substitutes| == |steps|
    && forall i | 0 <= i < |steps| ::
         substitutes[i] != store && substitutes[i].Valid()
         && (steps[i].RecoverClient? ==> substitutes[i].view.cons == steps[i].substitute)
  }

  /** A whole run on the bytes is the run of the state machine. */
  method ExecuteAll(store: ClientStore, steps: seq<Model.Step>, substitutes: seq<ClientStore>)
    requires store.Valid() && Supplied(store, steps, substitutes)
    modifies store
    ensures store.Valid() && store.view == Model.Run(old(store.view), steps)
  {
    ghost var start := store.view;
    var i := 0;
    while i < |steps|
      invariant 0 <= i <= |steps|
      invariant store.Valid() && store.view == Model.At(start, steps, i)
      invariant Supplied(store, steps, substitutes)
    {
      Execute(store, steps[i], substitutes[i]);
      Model.AtNext(start, steps, i);
      i := i + 1;
    }
    Model.AtEnd(start, steps);
  }

  /**
   After any run without recovery from a new store, the bytes under the consensus keys are in time
   order: a later height holds a later timestamp.
   */
  method Replay(steps: seq<Model.Step>) returns (store: ClientStore)
    requires Model.WithoutRecovery(steps)
    ensures store.Valid() && store.keys == KEYS && store.view == Model.Run(Model.EMPTY, steps)
    ensures forall a: Height, b: Height
              | a.LT(b) && store.GetConsensusState(a).Some? && store.GetConsensusState(b).Some? ::
              store.GetConsensusState(a).value.timestamp < store.GetConsensusState(b).value.timestamp
  {
    store := new ClientStore();
    var other := new ClientStore();
    ExecuteAll(store, steps, seq(|steps|, _ => other));
    Runs.EveryRunIsMonotone(steps);
    forall a: Height, b: Height | a.LT(b) && store.GetConsensusState(a).Some? && store.GetConsensusState(b).Some?
      ensures store.GetConsensusState(a).value.timestamp < store.GetConsensusState(b).value.timestamp
    {
      store.Lookup(a);
      store.Lookup(b);
    }
  }
}
