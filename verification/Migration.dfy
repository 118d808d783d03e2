/** The store migration that prunes the expired consensus states of every client. */
module Migration {
  import opened Ints
  import opened Options
  import opened Types
  import opened ClientStores
  import Model = ClientModel
  import Pruning

  datatype Error = ClientNotFound | InvalidClient

  type Views = seq<Model.State>

  /** What pruning leaves of one client. */
  ghost function Pruned(s: Model.State, now: u64): Model.State {
    if s.client.None? then s
    else s.(cons := Model.PruneAllExpired(s.cons, s.client.value.trustingPeriod, now))
  }

  ghost function ExpiredCount(s: Model.State, now: u64): nat {
    if s.client.None? then 0 else |Model.ExpiredHeights(s.cons, s.client.value.trustingPeriod, now)|
  }

  /** Consensus states stored by the first `n` clients together. */
  ghost function Stored(views: Views, n: nat): nat
    requires n <= |views|
  {
    if n == 0 then 0 else Stored(views, n - 1) + |views[n - 1].cons|
  }

  ghost function TotalExpired(views: Views, now: u64, n: nat): nat
    requires n <= |views|
  {
    if n == 0 then 0 else TotalExpired(views, now, n - 1) + ExpiredCount(views[n - 1], now)
  }

  /** Summed over the clients, the counts are the drop in stored states. */
  lemma {:induction false} TotalIsTheDrop(before: Views, after: Views, now: u64, n: nat)
    requires |before| == |after| && n <= |before|
    requires forall i :: 0 <= i < n ==> after[i] == Pruned(before[i], now)
    ensures TotalExpired(before, now, n) == Stored(before, n) - Stored(after, n)
  {
    if n > 0 {
      TotalIsTheDrop(before, after, now, n - 1);
      var s := before[n - 1];
      if s.client.Some? {
        Pruning.PruneAllCounts(s.cons, s.client.value.trustingPeriod, now);
      }
    }
  }

  ghost predicate Distinct(stores: seq<ClientStore>) {
    forall i, j :: 0 <= i < j < |stores| ==> stores[i] != stores[j]
  }

  /** The stores are well-formed and stand for these states. */
  ghost predicate Shows(stores: seq<ClientStore>, views: Views)
    reads stores
  {
    |stores| == |views| && forall i :: 0 <= i < |stores| ==> stores[i].Valid() && stores[i].view == views[i]
  }

  /** Why the loop stops at a client: it has no client state, or one that another module decodes. */
  function Stops(s: Model.State, foreign: bool): Option<Error> {
    if s.client.None? then Some(ClientNotFound) else if foreign then Some(InvalidClient) else None
  }

  /** One turn of the loop. */
  method PruneClient(stores: seq<ClientStore>, i: nat, foreign: bool, ctx: Model.Context, ghost views: Views)
    returns (r: Result<nat, Error>)
    requires Distinct(stores) && Shows(stores, views) && i < |stores|
    modifies stores[i]
    ensures Stops(views[i], foreign).None? ==>
              r == Ok(ExpiredCount(views[i], ctx.Now())) && Shows(stores, views[i := Pruned(views[i], ctx.Now())])
    ensures Stops(views[i], foreign).Some? ==> r == Err(Stops(views[i], foreign).value) && Shows(stores, views)
  {
    stores[i].Lookup(ZERO_HEIGHT);
    var client := stores[i].GetClientState();
    if client.None? {
      return Err(ClientNotFound);
    }
    if foreign {
      return Err(InvalidClient);
    }
    var n := stores[i].PruneAllExpiredConsensusStates(client.value, ctx);
    forall j | 0 <= j < |stores| && j != i
      ensures stores[j].Valid() && stores[j].view == views[j]
    {
      assert old(stores[j].Valid());
    }
    return Ok(n);
  }

  /** The first `n` clients are pruned and the others are as before. */
  ghost predicate PrunedUpTo(before: Views, after: Views, now: u64, n: nat) {
    |before| == |after| && n <= |before|
    && forall i :: 0 <= i < |before| ==> after[i] == if i < n then Pruned(before[i], now) else before[i]
  }

  lemma PrunedOneMore(before: Views, after: Views, now: u64, n: nat)
    requires PrunedUpTo(before, after, now, n) && n < |before|
    ensures PrunedUpTo(before, after[n := Pruned(after[n], now)], now, n + 1)
  {
  }

  /**
   Prunes the clients in turn. The total is the drop in stored states over all clients; the first client
   that `Stops` gives its error, with the `n` clients before it pruned and the rest untouched.
   */
  method PruneInTurn(stores: seq<ClientStore>, foreign: seq<bool>, ctx: Model.Context,
                     ghost before: Views)
    returns (r: Result<nat, Error>, ghost after: Views, ghost n: nat)
    requires Distinct(stores) && Shows(stores, before) && |foreign| == |stores|
    modifies stores
    ensures Shows(stores, after) && PrunedUpTo(before, after, ctx.Now(), n)
    ensures forall i :: 0 <= i < n ==> Stops(before[i], foreign[i]).None?
    ensures r.Ok? ==> n == |stores| && r.value == Stored(before, |before|) - Stored(after, |after|)
    ensures r.Err? ==> n < |stores| && Stops(before[n], foreign[n]) == Some(r.error)
  {
    after := before;
    n := 0;
    var total, i := 0, 0;
    while i < |stores|
      invariant n == i <= |stores| && Shows(stores, after)
      invariant forall j :: 0 <= j < i ==> Stops(before[j], foreign[j]).None?
      invariant PrunedUpTo(before, after, ctx.Now(), i)
      invariant total == TotalExpired(before, ctx.Now(), i)
    {
      var count := PruneClient(stores, i, foreign[i], ctx, after);
      if count.Err? {
        return count, after, n;
      }
      PrunedOneMore(before, after, ctx.Now(), i);
      after := after[i := Pruned(after[i], ctx.Now())];
      total := total + count.value;
      i := i + 1;
      n := i;
    }
    TotalIsTheDrop(before, after, ctx.Now(), i);
    return Ok(total), after, n;
  }

  /** The migration, with the reason for each error: no client state, or one of another type. */
  method PruneExpiredConsensusStates(stores: seq<ClientStore>, foreign: seq<bool>, ctx: Model.Context,
                                     ghost before: Views)
    returns (r: Result<nat, Error>, ghost after: Views, ghost n: nat)
    requires Distinct(stores) && Shows(stores, before) && |foreign| == |stores|
    modifies stores
    ensures Shows(stores, after) && PrunedUpTo(before, after, ctx.Now(), n)
    ensures forall i :: 0 <= i < n ==> before[i].client.Some? && !foreign[i]
    ensures r.Ok? ==> n == |stores| && r.value == Stored(before, |before|) - Stored(after, |after|)
    ensures r == Err(ClientNotFound) ==> n < |stores| && before[n].client.None?
    ensures r == Err(InvalidClient) ==> n < |stores| && before[n].client.Some? && foreign[n]
  {
    r, after, n := PruneInTurn(stores, foreign, ctx, before);
    assert forall i :: 0 <= i < n ==> Stops(before[i], foreign[i]).None?;
  }
}
