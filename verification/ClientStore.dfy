/**
 The byte-keyed store of one client: text keys for the values, big-endian iteration keys for the
 order. Every operation is proved against the plain-map model in `ClientModel`.
 */
module ClientStores {
  import opened Ints
  import opened Options
  import opened BigEndian
  import opened Types
  import opened StoreKeys
  import Model = ClientModel

  /** Stored values, decoded. */
  datatype Value =
    | ClientV(client: ClientState)
    | ConsensusV(consensus: ConsensusState)
    | TimeV(time: u64)
    | HeightV(height: Height)
    | KeyV(key: Bytes)

  type Kv = map<Bytes, Value>

  // ---------- the store represents a plain map ----------

  /** What is stored under each key of a state. */
  ghost function Content(ks: KeyScheme, s: Model.State, id: KeyId): Option<Value> {
    match id
    case ClientId => if s.client.Some? then Some(ClientV(s.client.value)) else None
    case ConsensusId(h) => if h in s.cons then Some(ConsensusV(s.cons[h].state)) else None
    case ProcessedTimeId(h) => if h in s.cons then Some(TimeV(s.cons[h].processedTime)) else None
    case ProcessedHeightId(h) => if h in s.cons then Some(HeightV(s.cons[h].processedHeight)) else None
    case IterationId(h) => if h in s.cons then Some(KeyV(ks.key(ConsensusId(h)))) else None
  }

  function Get(kv: Kv, k: Bytes): Option<Value> {
    if k in kv then Some(kv[k]) else None
  }

  ghost predicate IsKey(ks: KeyScheme, k: Bytes) {
    exists id :: k == ks.key(id)
  }

  ghost predicate Holds(ks: KeyScheme, kv: Kv, s: Model.State, id: KeyId) {
    Get(kv, ks.key(id)) == Content(ks, s, id)
  }

  /** A height has its four values together or not at all, and the store holds nothing else. */
  ghost predicate Represents(ks: KeyScheme, kv: Kv, s: Model.State) {
    && (forall id :: Holds(ks, kv, s, id))
    && (forall k <- kv :: IsKey(ks, k))
  }

  /** Writing one key changes what is stored under that key only. */
  lemma KeyWritten(ks: KeyScheme, kv: Kv, id: KeyId, v: Value, other: KeyId)
    requires ks.Lawful()
    ensures Get(kv[ks.key(id) := v], ks.key(other)) == if other == id then Some(v) else Get(kv, ks.key(other))
    ensures Get(kv - {ks.key(id)}, ks.key(other)) == if other == id then None else Get(kv, ks.key(other))
  {
    assert ks.Apart(id, other);
  }

  function WithEntry(ks: KeyScheme, kv: Kv, h: Height, e: Model.Entry): Kv {
    kv[ks.key(ConsensusId(h)) := ConsensusV(e.state)]
      [ks.key(ProcessedTimeId(h)) := TimeV(e.processedTime)]
      [ks.key(ProcessedHeightId(h)) := HeightV(e.processedHeight)]
      [ks.key(IterationId(h)) := KeyV(ks.key(ConsensusId(h)))]
  }

  lemma EntryWritten(ks: KeyScheme, kv: Kv, s: Model.State, h: Height, e: Model.Entry)
    requires ks.Lawful() && Represents(ks, kv, s)
    ensures Represents(ks, WithEntry(ks, kv, h, e), s.(cons := s.cons[h := e]))
  {
    var kv1 := kv[ks.key(ConsensusId(h)) := ConsensusV(e.state)];
    var kv2 := kv1[ks.key(ProcessedTimeId(h)) := TimeV(e.processedTime)];
    var kv3 := kv2[ks.key(ProcessedHeightId(h)) := HeightV(e.processedHeight)];
    var kv4 := WithEntry(ks, kv, h, e);
    var s' := s.(cons := s.cons[h := e]);
    forall id
      ensures Holds(ks, kv4, s', id)
    {
      assert Holds(ks, kv, s, id);
      KeyWritten(ks, kv, ConsensusId(h), ConsensusV(e.state), id);
      KeyWritten(ks, kv1, ProcessedTimeId(h), TimeV(e.processedTime), id);
      KeyWritten(ks, kv2, ProcessedHeightId(h), HeightV(e.processedHeight), id);
      KeyWritten(ks, kv3, IterationId(h), KeyV(ks.key(ConsensusId(h))), id);
    }
  }

  function WithoutEntry(ks: KeyScheme, kv: Kv, h: Height): Kv {
    kv - {ks.key(ConsensusId(h))} - {ks.key(ProcessedTimeId(h))} - {ks.key(ProcessedHeightId(h))}
    - {ks.key(IterationId(h))}
  }

  lemma EntryDeleted(ks: KeyScheme, kv: Kv, s: Model.State, h: Height)
    requires ks.Lawful() && Represents(ks, kv, s)
    ensures Represents(ks, WithoutEntry(ks, kv, h), s.(cons := s.cons - {h}))
  {
    var kv1 := kv - {ks.key(ConsensusId(h))};
    var kv2 := kv1 - {ks.key(ProcessedTimeId(h))};
    var kv3 := kv2 - {ks.key(ProcessedHeightId(h))};
    var kv4 := WithoutEntry(ks, kv, h);
    var s' := s.(cons := s.cons - {h});
    forall id
      ensures Holds(ks, kv4, s', id)
    {
      assert Holds(ks, kv, s, id);
      KeyWritten(ks, kv, ConsensusId(h), KeyV([]), id);
      KeyWritten(ks, kv1, ProcessedTimeId(h), KeyV([]), id);
      KeyWritten(ks, kv2, ProcessedHeightId(h), KeyV([]), id);
      KeyWritten(ks, kv3, IterationId(h), KeyV([]), id);
    }
  }

  lemma ClientWritten(ks: KeyScheme, kv: Kv, s: Model.State, cs: ClientState)
    requires ks.Lawful() && Represents(ks, kv, s)
    ensures Represents(ks, kv[ks.key(ClientId) := ClientV(cs)], s.(client := Some(cs)))
  {
    var kv', s' := kv[ks.key(ClientId) := ClientV(cs)], s.(client := Some(cs));
    forall id
      ensures Holds(ks, kv', s', id)
    {
      assert Holds(ks, kv, s, id);
      KeyWritten(ks, kv, ClientId, ClientV(cs), id);
    }
  }

  /** Everything under the iteration prefix is the iteration key of a stored height. */
  lemma IndexEntry(ks: KeyScheme, kv: Kv, s: Model.State, k: Bytes)
    requires ks.Lawful() && Represents(ks, kv, s) && k in kv && ks.prefix <= k
    ensures var h := ks.heightOf(k);
            h in s.cons && k == ks.key(IterationId(h)) && kv[k] == KeyV(ks.key(ConsensusId(h)))
  {
    assert IsKey(ks, k);
    var id :| k == ks.key(id);
    assert Holds(ks, kv, s, id) && ks.Marked(id) && ks.ReadsBack(id.height);
  }

  // ---------- iterators ----------

  ghost predicate Ascending(keys: seq<Bytes>) {
    forall i, j :: 0 <= i < j < |keys| ==> LexLess(keys[i], keys[j])
  }

  lemma InsertFront(k: Bytes, keys: seq<Bytes>)
    requires keys != [] && LexLess(k, keys[0]) && Ascending(keys)
    ensures Ascending([k] + keys)
  {
    forall j | 0 < j < |keys|
      ensures LexLess(k, keys[j])
    {
      LexTransitive(k, keys[0], keys[j]);
    }
  }

  function Insert(k: Bytes, keys: seq<Bytes>): (r: seq<Bytes>)
    requires Ascending(keys) && k !in keys
    ensures forall x :: x in r <==> x == k || x in keys
    ensures Ascending(r)
  {
    if keys == [] then [k]
    else if LexLess(k, keys[0]) then
      InsertFront(k, keys);
      [k] + keys
    else
      LexTotal(k, keys[0]);
      assert keys == [keys[0]] + keys[1..];
      var rest := Insert(k, keys[1..]);
      assert forall x <- rest :: LexLess(keys[0], x);
      [keys[0]] + rest
  }

  /** What a store iterator walks over: the given keys in byte order. */
  method SortedKeys(keys: set<Bytes>) returns (r: seq<Bytes>)
    ensures Ascending(r)
    ensures forall k :: k in r <==> k in keys
  {
    r := [];
    var rest := keys;
    while rest != {}
      invariant rest <= keys
      invariant Ascending(r)
      invariant forall k :: k in r <==> k in keys && k !in rest
    {
      var k :| k in rest;
      r := Insert(k, r);
      rest := rest - {k};
    }
  }

  /** `keys` visits the index entries of exactly the heights in `hs`, in byte order. */
  ghost predicate Walks(ks: KeyScheme, keys: seq<Bytes>, hs: set<Height>) {
    && Ascending(keys)
    && (forall k <- keys :: ks.heightOf(k) in hs && k == ks.key(IterationId(ks.heightOf(k))))
    && (forall h <- hs :: ks.key(IterationId(h)) in keys)
  }

  /** Walking the index visits the heights themselves in order. */
  lemma WalkOrder(ks: KeyScheme, keys: seq<Bytes>, hs: set<Height>, i: nat, h: Height)
    requires ks.Lawful() && Walks(ks, keys, hs) && i < |keys| && h in hs
    ensures var at := ks.heightOf(keys[i]);
            at == h
            || (at.LT(h) && ks.key(IterationId(h)) in keys[i + 1..])
            || (h.LT(at) && ks.key(IterationId(h)) in keys[..i])
  {
    var at := ks.heightOf(keys[i]);
    assert keys[i] in keys && ks.Sorted(at, h) && ks.Sorted(h, at);
    var j :| 0 <= j < |keys| && keys[j] == ks.key(IterationId(h));
    assert i == j ==> ks.ReadsBack(h);
    if j < i {
      assert keys[..i][j] == keys[j];
    } else if i < j {
      assert keys[i + 1..][j - i - 1] == keys[j];
    }
  }

  /** The heights of the first keys of a walk. */
  ghost predicate Visited(ks: KeyScheme, keys: seq<Bytes>, hs: seq<Height>) {
    |hs| <= |keys| && forall i :: 0 <= i < |hs| ==> hs[i] == ks.heightOf(keys[i])
  }

  /** The callback stopped at the last of the heights, if at all, and says so. */
  ghost predicate StopsWith(stop: Height -> bool, hs: seq<Height>, stopped: bool) {
    (forall i :: 0 <= i < |hs| - 1 ==> !stop(hs[i]))
    && (stopped <==> hs != [] && stop(hs[|hs| - 1]))
  }

  lemma StopsNext(stop: Height -> bool, hs: seq<Height>, h: Height)
    requires StopsWith(stop, hs, false)
    ensures StopsWith(stop, hs + [h], stop(h))
  {
    forall i | 0 <= i < |hs|
      ensures !stop((hs + [h])[i])
    {
      assert (hs + [h])[i] == hs[i];
    }
  }

  lemma VisitedNext(ks: KeyScheme, keys: seq<Bytes>, hs: seq<Height>)
    requires Visited(ks, keys, hs) && |hs| < |keys|
    ensures Visited(ks, keys, hs + [ks.heightOf(keys[|hs|])])
  {
  }

  /** Calls back on one height after the other until it is told to stop. */
  method Visit(ks: KeyScheme, keys: seq<Bytes>, stop: Height -> bool) returns (hs: seq<Height>)
    ensures Visited(ks, keys, hs) && forall i :: 0 <= i < |hs| - 1 ==> !stop(hs[i])
    ensures |hs| == |keys| || (hs != [] && stop(hs[|hs| - 1]))
  {
    hs := [];
    var stopped := false;
    while |hs| < |keys| && !stopped
      invariant Visited(ks, keys, hs) && StopsWith(stop, hs, stopped)
      decreases |keys| - |hs|
    {
      var height := ks.heightOf(keys[|hs|]);
      StopsNext(stop, hs, height);
      VisitedNext(ks, keys, hs);
      hs, stopped := hs + [height], stop(height);
    }
  }

  /** The first heights of a walk are in order, and the others are above the last of them. */
  lemma WalkPrefix(ks: KeyScheme, keys: seq<Bytes>, all: set<Height>, hs: seq<Height>)
    requires ks.Lawful() && Walks(ks, keys, all) && Visited(ks, keys, hs)
    ensures forall i, j :: 0 <= i < j < |hs| ==> hs[i].LT(hs[j])
    ensures forall h <- hs :: h in all
    ensures forall h <- all :: h in hs || (|hs| < |keys| && (hs != [] ==> hs[|hs| - 1].LT(h)))
  {
    forall i, j | 0 <= i < j < |hs|
      ensures hs[i].LT(hs[j])
    {
      assert keys[i] in keys && keys[j] in keys && ks.Sorted(hs[i], hs[j]);
    }
    forall h | h in hs
      ensures h in all
    {
      var j :| 0 <= j < |hs| && hs[j] == h;
      assert keys[j] in keys;
    }
    forall h | h in all
      ensures h in hs || (|hs| < |keys| && (hs != [] ==> hs[|hs| - 1].LT(h)))
    {
      WalkReaches(ks, keys, all, hs, h);
    }
  }

  /** A height of the walk is among the first ones or above the last of them. */
  lemma WalkReaches(ks: KeyScheme, keys: seq<Bytes>, all: set<Height>, hs: seq<Height>, h: Height)
    requires ks.Lawful() && Walks(ks, keys, all) && Visited(ks, keys, hs) && h in all
    ensures h in hs || (|hs| < |keys| && (hs != [] ==> hs[|hs| - 1].LT(h)))
  {
    assert ks.ReadsBack(h);
    var i :| 0 <= i < |keys| && keys[i] == ks.key(IterationId(h));
    if i < |hs| {
      assert hs[i] == h;
    } else if hs != [] {
      var last := hs[|hs| - 1];
      assert keys[|hs| - 1] in keys && ks.Sorted(last, h);
    }
  }

  ghost function Range(cons: Model.Entries, start: Option<Height>, end: Option<Height>): set<Height> {
    set x | x in cons && (start.Some? ==> start.value.LTE(x)) && (end.Some? ==> x.LT(end.value))
  }

  lemma InRange(ks: KeyScheme, x: Height, start: Option<Height>, end: Option<Height>)
    requires ks.Lawful()
    ensures start.Some? ==> (LexLess(ks.key(IterationId(x)), ks.key(IterationId(start.value))) <==> !start.value.LTE(x))
    ensures end.Some? ==> (LexLess(ks.key(IterationId(x)), ks.key(IterationId(end.value))) <==> x.LT(end.value))
  {
    assert start.Some? ==> ks.Sorted(x, start.value);
    assert end.Some? ==> ks.Sorted(x, end.value);
  }

  // ---------- one client's store ----------

  class ClientStore {
    const keys: KeyScheme
    var kv: Kv
    ghost var view: Model.State

    ghost predicate Valid()
      reads this
    {
      keys.Lawful() && Represents(keys, kv, view)
    }

    constructor ()
      ensures Valid() && view == Model.EMPTY && keys == KEYS
    {
      KeysAreLawful();
      keys := KEYS;
      kv := map[];
      view := Model.EMPTY;
    }

    function GetClientState(): Option<ClientState>
      reads this
    {
      match Get(kv, keys.key(ClientId))
      case Some(ClientV(cs)) => Some(cs)
      case _ => None
    }

    function Load(key: Bytes): Option<ConsensusState>
      reads this
    {
      match Get(kv, key)
      case Some(ConsensusV(state)) => Some(state)
      case _ => None
    }

    function GetConsensusState(h: Height): Option<ConsensusState>
      reads this
    {
      Load(keys.key(ConsensusId(h)))
    }

    function GetProcessedTime(h: Height): Option<u64>
      reads this
    {
      match Get(kv, keys.key(ProcessedTimeId(h)))
      case Some(TimeV(time)) => Some(time)
      case _ => None
    }

    function GetProcessedHeight(h: Height): Option<Height>
      reads this
    {
      match Get(kv, keys.key(ProcessedHeightId(h)))
      case Some(HeightV(height)) => Some(height)
      case _ => None
    }

    /** The getters read the plain map: all of a height's data is there or none of it. */
    lemma Lookup(h: Height)
      requires Valid()
      ensures GetClientState() == view.client
      ensures GetConsensusState(h) == if h in view.cons then Some(view.cons[h].state) else None
      ensures GetProcessedTime(h) == if h in view.cons then Some(view.cons[h].processedTime) else None
      ensures GetProcessedHeight(h) == if h in view.cons then Some(view.cons[h].processedHeight) else None
      ensures Get(kv, keys.key(IterationId(h))) == if h in view.cons then Some(KeyV(keys.key(ConsensusId(h)))) else None
    {
      assert Holds(keys, kv, view, ClientId) && Holds(keys, kv, view, ConsensusId(h));
      assert Holds(keys, kv, view, IterationId(h));
      assert Holds(keys, kv, view, ProcessedTimeId(h)) && Holds(keys, kv, view, ProcessedHeightId(h));
    }

    method SetClientState(cs: ClientState)
      modifies this`kv
      ensures kv == old(kv)[keys.key(ClientId) := ClientV(cs)]
    {
      kv := kv[keys.key(ClientId) := ClientV(cs)];
    }

    method SetConsensusState(state: ConsensusState, h: Height)
      modifies this`kv
      ensures kv == old(kv)[keys.key(ConsensusId(h)) := ConsensusV(state)]
    {
      kv := kv[keys.key(ConsensusId(h)) := ConsensusV(state)];
    }

    method SetConsensusMetadataWithValues(h: Height, processedHeight: Height, processedTime: u64)
      modifies this`kv
      ensures kv == old(kv)[keys.key(ProcessedTimeId(h)) := TimeV(processedTime)]
                      [keys.key(ProcessedHeightId(h)) := HeightV(processedHeight)]
                      [keys.key(IterationId(h)) := KeyV(keys.key(ConsensusId(h)))]
    {
      kv := kv[keys.key(ProcessedTimeId(h)) := TimeV(processedTime)];
      kv := kv[keys.key(ProcessedHeightId(h)) := HeightV(processedHeight)];
      kv := kv[keys.key(IterationId(h)) := KeyV(keys.key(ConsensusId(h)))];
    }

    /** Deletes the consensus state and its metadata. */
    method DeleteConsensus(h: Height)
      requires Valid()
      modifies this
      ensures Valid() && view == old(view).(cons := old(view).cons - {h})
    {
      kv := kv - {keys.key(ConsensusId(h))};
      kv := kv - {keys.key(ProcessedTimeId(h))};
      kv := kv - {keys.key(ProcessedHeightId(h))};
      kv := kv - {keys.key(IterationId(h))};
      EntryDeleted(keys, old(kv), view, h);
      view := view.(cons := view.cons - {h});
    }

    method Initialize(ctx: Model.Context, cs: ClientState, state: ConsensusState)
      requires Valid()
      modifies this
      ensures Valid() && view == Model.Initialize(old(view), cs, state, ctx)
    {
      SetClientState(cs);
      ClientWritten(keys, old(kv), view, cs);
      EntryWritten(keys, kv, view.(client := Some(cs)), cs.latestHeight,
                   Model.Entry(state, ctx.Now(), ctx.selfHeight));
      SetConsensusState(state, cs.latestHeight);
      SetConsensusMetadataWithValues(cs.latestHeight, ctx.selfHeight, ctx.Now());
      view := Model.Initialize(view, cs, state, ctx);
    }

    /** The index entries that a store iterator visits from `start` (inclusive) to `end` (exclusive). */
    method Iterator(start: Option<Height>, end: Option<Height>) returns (r: seq<Bytes>)
      requires Valid()
      ensures Walks(keys, r, Range(view.cons, start, end))
      ensures forall k <- r :: k in kv && kv[k] == KeyV(keys.key(ConsensusId(keys.heightOf(k))))
    {
      r := SortedKeys(
        set k | k in kv && keys.prefix <= k
                && (start.Some? ==> !LexLess(k, keys.key(IterationId(start.value))))
                && (end.Some? ==> LexLess(k, keys.key(IterationId(end.value)))));
      forall k | k in r
        ensures var h := keys.heightOf(k);
                h in Range(view.cons, start, end) && k == keys.key(IterationId(h))
                && kv[k] == KeyV(keys.key(ConsensusId(h)))
      {
        IndexEntry(keys, kv, view, k);
        InRange(keys, keys.heightOf(k), start, end);
      }
      forall h | h in Range(view.cons, start, end)
        ensures keys.key(IterationId(h)) in r
      {
        assert Holds(keys, kv, view, IterationId(h)) && keys.Marked(IterationId(h));
        InRange(keys, h, start, end);
      }
    }

    /** The least stored height above `h`, found by walking the index from `h` upwards. */
    method GetNextConsensusState(h: Height) returns (r: Option<ConsensusState>)
      requires Valid()
      ensures r == Model.NextState(view.cons, h)
    {
      var walk := Iterator(Some(h), None);
      ghost var visited := Range(view.cons, Some(h), None);
      ghost var above := set x | x in view.cons && h.LT(x);
      if |walk| == 0 {
        assert above <= visited == {};
        return None;
      }
      var i := 0;
      assert walk[0] in walk;
      if kv[walk[0]] == KeyV(keys.key(ConsensusId(h))) {
        i := 1;
      }
      assert i == 1 ==> keys.Apart(ConsensusId(keys.heightOf(walk[0])), ConsensusId(h));
      forall x | x in above
        ensures i < |walk| && keys.heightOf(walk[i]).LTE(x)
      {
        assert keys.ReadsBack(x);
        WalkOrder(keys, walk, visited, 0, x);
        if i < |walk| {
          WalkOrder(keys, walk, visited, i, x);
        }
      }
      if i >= |walk| {
        assert above == {};
        return None;
      }
      ghost var next := keys.heightOf(walk[i]);
      assert walk[i] in walk;
      assert i == 1 ==> LexLess(walk[0], walk[1]) && keys.Sorted(h, next);
      assert next in above && Model.MinOf(above) == next;
      Lookup(next);
      r := Load(kv[walk[i]].key);
    }

    /** The greatest stored height below `h`: the first one that the reverse iterator meets. */
    method GetPreviousConsensusState(h: Height) returns (r: Option<ConsensusState>)
      requires Valid()
      ensures r == Model.PreviousState(view.cons, h)
    {
      var walk := Iterator(None, Some(h));
      ghost var below := set x | x in view.cons && x.LT(h);
      assert Range(view.cons, None, Some(h)) == below;
      if |walk| == 0 {
        assert below == {};
        return None;
      }
      var last := |walk| - 1;
      assert walk[last] in walk;
      ghost var previous := keys.heightOf(walk[last]);
      forall x | x in below
        ensures x.LTE(previous)
      {
        WalkOrder(keys, walk, below, last, x);
      }
      assert Model.MaxOf(below) == previous;
      Lookup(previous);
      r := Load(kv[walk[last]].key);
    }

    /** Frozen, Expired or Active, read from the store. */
    method Status(cs: ClientState, ctx: Model.Context) returns (r: Model.Status)
      requires Valid()
      ensures r == Model.StatusOf(cs, view.cons, ctx.Now())
    {
      if !cs.frozenHeight.IsZero() {
        return Model.Frozen;
      }
      var latest := GetConsensusState(cs.latestHeight);
      Lookup(cs.latestHeight);
      if latest.None? {
        return Model.Expired;
      }
      r := if Model.IsExpired(cs.trustingPeriod, latest.value.timestamp, ctx.Now()) then Model.Expired else Model.Active;
    }

    method VerifyHeader(cs: ClientState, ctx: Model.Context, h: Model.CheckedHeader, zk: Model.ProofCheck)
      returns (r: Result<(), Model.Error>)
      requires Valid()
      ensures r == Model.VerifyHeader(cs, view.cons, ctx, h, zk)
    {
      var trusted, light := h.trustedHeight.value, h.signedHeader.value;
      var found := GetConsensusState(trusted);
      Lookup(trusted);
      if found.None? {
        return Err(Model.ConsensusStateNotFound);
      }
      var state := found.value;
      if Model.HeaderHeight(h).revisionNumber != trusted.revisionNumber {
        return Err(Model.InvalidHeaderHeight);
      }
      if state.timestamp >= U64(light.time.UnixNano()) {
        return Err(Model.InvalidHeaderTimestamp);
      }
      if Model.HeaderHeight(h).LTE(trusted) {
        return Err(Model.InvalidHeader);
      }
      if light.time.UnixNano() >= I64(ctx.blockTime.UnixNano() + I64(cs.maxClockDrift)) {
        return Err(Model.InvalidHeader);
      }
      if light.height == I64(I64(trusted.revisionHeight) + 1) && light.validatorsHash != state.nextValidatorsHash {
        return Err(Model.InvalidHeader);
      }
      if |cs.chainId| > 31 {
        return Err(Model.InvalidProof);
      }
      var ok := zk(h.zeroKnowledgeProof, state.nextValidatorsHash,
                   Model.ProverLightHeader(cs.chainId, light.height, light.time, light.validatorsHash,
                                           light.nextValidatorsHash, light.appHash));
      r := if ok then Ok(()) else Err(Model.InvalidProof);
    }

    /** Same height with another state, or a timestamp out of order with a neighbour. */
    method CheckForMisbehaviour(h: Model.CheckedHeader) returns (r: bool)
      requires Valid()
      ensures r == Model.Misbehaves(view.cons, Model.HeaderHeight(h), Model.HeaderConsensus(h))
    {
      var height, state := Model.HeaderHeight(h), Model.HeaderConsensus(h);
      var existing := GetConsensusState(height);
      Lookup(height);
      if existing.Some? {
        return existing.value != state;
      }
      var prev := GetPreviousConsensusState(height);
      var next := GetNextConsensusState(height);
      if prev.Some? && prev.value.timestamp >= state.timestamp {
        return true;
      }
      if next.Some? && next.value.timestamp <= state.timestamp {
        return true;
      }
      return false;
    }

    /**
     The heights that a walk over the index reports to a callback which says when to stop: the lowest
     stored heights in order, each once, up to and including the first one at which it stops.
     */
    method IterateConsensusStateAscending(stop: Height -> bool) returns (hs: seq<Height>)
      requires Valid()
      ensures forall i, j :: 0 <= i < j < |hs| ==> hs[i].LT(hs[j])
      ensures forall h <- hs :: h in view.cons
      ensures forall i :: 0 <= i < |hs| - 1 ==> !stop(hs[i])
      ensures forall h <- view.cons :: h in hs || (hs != [] && stop(hs[|hs| - 1]) && hs[|hs| - 1].LT(h))
    {
      var walk := Iterator(None, None);
      hs := Visit(keys, walk, stop);
      WalkPrefix(keys, walk, Range(view.cons, None, None), hs);
    }

    /** Deletes the lowest stored height if it is expired. The panic of the source cannot happen. */
    method PruneOldestConsensusState(cs: ClientState, ctx: Model.Context) returns (panicked: bool)
      requires Valid()
      modifies this
      ensures Valid() && !panicked
      ensures view == old(view).(cons := Model.PruneOldest(old(view).cons, cs.trustingPeriod, ctx.Now()))
    {
      var hs := IterateConsensusStateAscending(_ => true);
      if |hs| == 0 {
        assert view.cons.Keys == {};
        return false;
      }
      var height := hs[0];
      assert height in hs && |hs| == 1;
      assert Model.MinOf(view.cons.Keys) == height;
      Lookup(height);
      var found := GetConsensusState(height);
      if found.None? {
        return true;
      }
      if Model.IsExpired(cs.trustingPeriod, found.value.timestamp, ctx.Now()) {
        DeleteConsensus(height);
      }
      return false;
    }

    /** Collects the expired heights first, then deletes them; the early stop of the source cannot happen. */
    method PruneAllExpiredConsensusStates(cs: ClientState, ctx: Model.Context) returns (n: nat)
      requires Valid()
      modifies this
      ensures Valid()
      ensures view == old(view).(cons := Model.PruneAllExpired(old(view).cons, cs.trustingPeriod, ctx.Now()))
      ensures n == |Model.ExpiredHeights(old(view).cons, cs.trustingPeriod, ctx.Now())|
    {
      var hs := IterateConsensusStateAscending(_ => false);
      ghost var expired := Model.ExpiredHeights(view.cons, cs.trustingPeriod, ctx.Now());
      var heights := CollectExpired(hs, cs, ctx);
      ListLength(heights, expired);
      assert Elements(heights) == expired;
      DeleteAll(heights);
      n := |heights|;
    }

    /** The callback of that walk, height by height. */
    method CollectExpired(hs: seq<Height>, cs: ClientState, ctx: Model.Context) returns (heights: seq<Height>)
      requires Valid() && ListOf(hs, view.cons.Keys)
      ensures ListOf(heights, Model.ExpiredHeights(view.cons, cs.trustingPeriod, ctx.Now()))
    {
      ghost var expired := Model.ExpiredHeights(view.cons, cs.trustingPeriod, ctx.Now());
      heights := [];
      var i := 0;
      while i < |hs|
        invariant i <= |hs| && ListOf(heights, Elements(hs[..i]) * expired)
      {
        Lookup(hs[i]);
        var found := GetConsensusState(hs[i]);
        assert hs[i] in hs;
        if found.None? {
          break;
        }
        ListNext(hs, i, heights, expired);
        if Model.IsExpired(cs.trustingPeriod, found.value.timestamp, ctx.Now()) {
          heights := heights + [hs[i]];
        }
        i := i + 1;
      }
      assert hs[..i] == hs;
      assert Elements(hs) * expired == expired;
    }

    method DeleteAll(heights: seq<Height>)
      requires Valid()
      modifies this
      ensures Valid() && view == old(view).(cons := old(view).cons - Elements(heights))
    {
      var i := 0;
      while i < |heights|
        invariant 0 <= i <= |heights|
        invariant Valid() && view == old(view).(cons := old(view).cons - Elements(heights[..i]))
      {
        DeleteConsensus(heights[i]);
        assert heights[..i + 1] == heights[..i] + [heights[i]];
        assert Elements(heights[..i + 1]) == Elements(heights[..i]) + {heights[i]};
        i := i + 1;
      }
      assert heights[..i] == heights;
    }

    /** Prune, ignore a height that is already there, else store it and move the latest height up. */
    method UpdateState(cs: ClientState, ctx: Model.Context, h: Model.CheckedHeader)
      returns (height: Height, panicked: bool)
      requires Valid()
      modifies this
      ensures Valid() && !panicked && height == Model.HeaderHeight(h)
      ensures view == Model.UpdateState(old(view), cs, ctx, h)
    {
      height, panicked := Model.HeaderHeight(h), false;
      if ctx.Prunes() {
        panicked := PruneOldestConsensusState(cs, ctx);
      }
      var existing := GetConsensusState(height);
      Lookup(height);
      if existing.Some? {
        return;
      }
      var cs' := if cs.latestHeight.LT(height) then cs.(latestHeight := height) else cs;
      var state := Model.HeaderConsensus(h);
      ClientWritten(keys, kv, view, cs');
      EntryWritten(keys, kv[keys.key(ClientId) := ClientV(cs')], view.(client := Some(cs')), height,
                   Model.Entry(state, ctx.Now(), ctx.selfHeight));
      SetClientState(cs');
      SetConsensusState(state, height);
      SetConsensusMetadataWithValues(height, ctx.selfHeight, ctx.Now());
      view := Model.UpdateState(old(view), cs, ctx, h);
    }

    method UpdateStateOnMisbehaviour(cs: ClientState)
      requires Valid()
      modifies this
      ensures Valid() && view == Model.Freeze(old(view), cs)
    {
      ClientWritten(keys, kv, view, cs.(frozenHeight := FROZEN_HEIGHT));
      SetClientState(cs.(frozenHeight := FROZEN_HEIGHT));
      view := Model.Freeze(view, cs);
    }

    /** A header message as the host handles it: require Active, verify, then freeze or update. */
    method HandleHeader(ctx: Model.Context, h: Model.CheckedHeader, zk: Model.ProofCheck) returns (accepted: bool)
      requires Valid()
      modifies this
      ensures Valid() && view == Model.HandleHeader(old(view), ctx, h, zk)
      ensures accepted <==> Model.Accepts(old(view), ctx, h, zk)
    {
      var client := GetClientState();
      Lookup(ZERO_HEIGHT);
      if client.None? {
        return false;
      }
      var cs := client.value;
      var status := Status(cs, ctx);
      if status != Model.Active {
        return false;
      }
      var verified := VerifyHeader(cs, ctx, h, zk);
      if verified.Err? {
        return false;
      }
      var misbehaves := CheckForMisbehaviour(h);
      if misbehaves {
        UpdateStateOnMisbehaviour(cs);
        return false;
      }
      var _, _ := UpdateState(cs, ctx, h);
      return true;
    }

    /** Copies the latest state of the substitute. The missing-metadata errors cannot happen. */
    method CheckSubstituteAndUpdateState(ctx: Model.Context, cs: ClientState, substitute: ClientStore,
                                         substituteClient: ClientState)
      returns (r: Result<(), Model.Error>)
      requires Valid() && substitute.Valid()
      modifies this
      ensures Valid()
      ensures var spec := Model.Recover(old(view), cs, old(substitute.view).cons, substituteClient, ctx.Now());
              if spec.Ok? then r == Ok(()) && view == spec.value
              else r == Err(spec.error) && view == old(view)
    {
      if !Model.IsMatchingClientState(cs, substituteClient) {
        return Err(Model.InvalidSubstitute);
      }
      var status := Status(cs, ctx);
      var cs' := if status == Model.Frozen then cs.(frozenHeight := ZERO_HEIGHT) else cs;
      var height := substituteClient.latestHeight;
      var state := substitute.GetConsensusState(height);
      substitute.Lookup(height);
      if state.None? {
        return Err(Model.ConsensusStateNotFound);
      }
      ghost var e := substitute.view.cons[height];
      KeyWritten(keys, kv, ConsensusId(height), ConsensusV(e.state), ProcessedTimeId(height));
      KeyWritten(keys, kv, ConsensusId(height), ConsensusV(e.state), ProcessedHeightId(height));
      SetConsensusState(state.value, height);
      var processedHeight := substitute.GetProcessedHeight(height);
      if processedHeight.None? {
        return Err(Model.UpdateClientFailed);
      }
      var processedTime := substitute.GetProcessedTime(height);
      if processedTime.None? {
        return Err(Model.UpdateClientFailed);
      }
      SetConsensusMetadataWithValues(height, processedHeight.value, processedTime.value);
      EntryWritten(keys, old(kv), view, height, e);
      view := view.(cons := view.cons[height := e]);
      cs' := cs'.(latestHeight := height, chainId := substituteClient.chainId,
                  trustingPeriod := substituteClient.trustingPeriod);
      ClientWritten(keys, kv, view, cs');
      SetClientState(cs');
      view := view.(client := Some(cs'));
      return Ok(());
    }

    method VerifyDelayPeriodPassed(ctx: Model.Context, height: Height, delayTime: u64, delayBlocks: u64)
      returns (r: Result<(), Model.Error>)
      requires Valid()
      ensures r == Model.VerifyDelayPeriodPassed(view.cons, ctx, height, delayTime, delayBlocks)
    {
      Lookup(height);
      if delayTime != 0 {
        var processedTime := GetProcessedTime(height);
        if processedTime.None? {
          return Err(Model.ProcessedTimeNotFound);
        }
        if ctx.Now() < U64(processedTime.value + delayTime) {
          return Err(Model.DelayPeriodNotPassed);
        }
      }
      if delayBlocks != 0 {
        var processed := GetProcessedHeight(height);
        if processed.None? {
          return Err(Model.ProcessedHeightNotFound);
        }
        var p := processed.value;
        if ctx.selfHeight.LT(Height(p.revisionNumber, U64(p.revisionHeight + delayBlocks))) {
          return Err(Model.DelayPeriodNotPassed);
        }
      }
      return Ok(());
    }
  }

  function Elements(list: seq<Height>): set<Height> {
    set h | h in list
  }

  /** A list of the elements of a set, each once. */
  ghost predicate ListOf(list: seq<Height>, s: set<Height>) {
    (forall h :: h in list <==> h in s) && forall i, j :: 0 <= i < j < |list| ==> list[i] != list[j]
  }

  lemma ListAppend(list: seq<Height>, s: set<Height>, h: Height)
    requires ListOf(list, s) && h !in s
    ensures ListOf(list + [h], s + {h})
  {
    forall i, j | 0 <= i < j < |list + [h]|
      ensures (list + [h])[i] != (list + [h])[j]
    {
      assert (list + [h])[i] in list;
    }
  }

  lemma ListNext(hs: seq<Height>, i: nat, heights: seq<Height>, chosen: set<Height>)
    requires i < |hs| && (forall j :: 0 <= j < i ==> hs[j] != hs[i]) && ListOf(heights, Elements(hs[..i]) * chosen)
    ensures ListOf(if hs[i] in chosen then heights + [hs[i]] else heights, Elements(hs[..i + 1]) * chosen)
  {
    assert hs[..i + 1] == hs[..i] + [hs[i]];
    if hs[i] in chosen {
      ListAppend(heights, Elements(hs[..i]) * chosen, hs[i]);
      assert Elements(hs[..i + 1]) * chosen == Elements(hs[..i]) * chosen + {hs[i]};
    } else {
      assert Elements(hs[..i + 1]) * chosen == Elements(hs[..i]) * chosen;
    }
  }

  lemma {:induction false} ListLength(list: seq<Height>, s: set<Height>)
    requires ListOf(list, s)
    ensures |list| == |s|
  {
    if list == [] {
      assert s == {};
    } else {
      var last := list[|list| - 1];
      var rest := list[..|list| - 1];
      assert list == rest + [last];
      ListLength(rest, s - {last});
    }
  }
}
