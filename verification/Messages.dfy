/** The five messages of the light client on the wire. */
module Messages {
  import opened Ints
  import opened Options
  import opened Types
  import opened Varint
  import opened Wire
  import opened Items

  /**
   A message type from another package: its bytes, how bytes are merged into a value, and the values
   that it refuses to marshal (times outside the years 1 to 9999, for one).
   */
  datatype SubCodec<!T> = SubCodec(enc: T -> Bytes, dec: (T, Bytes) -> Result<T, Error>, refuses: T -> bool)

  /** The sub-codec gives this value back when it decodes into a fresh one. */
  predicate RoundTripsAt<T(==)>(c: SubCodec<T>, zero: T, t: T) {
    c.dec(zero, c.enc(t)) == Ok(t)
  }

  /** Go's zero time is the first of January of year one. */
  const ZERO_TIME := Time(-62_135_596_800, 0)
  const ZERO_CLIENT_STATE := ClientState([], 0, 0, 0, ZERO_HEIGHT, ZERO_HEIGHT)
  const ZERO_CONSENSUS_STATE := ConsensusState(0, [], [])
  const ZERO_LIGHT_HEADER := LightHeader(0, ZERO_TIME, [], [], [])
  const ZERO_HEADER := Header(None, None, [])
  const ZERO_MISBEHAVIOUR := Misbehaviour(None, None)

  function DecodeNested<M>(s: Schema<M>, m: M, b: Bytes): Result<M, Error> {
    if |b| < TWO_63 then Decode(s, m, b) else Err(InvalidLength)
  }

  // ---------- ClientState ----------

  function ClientStateItems(hc: SubCodec<Height>, m: ClientState): (its: seq<Item>)
    ensures |its| == 6 && Numbered(its)
  {
    [BytesItem(1, m.chainId), NumberItem(2, m.trustingPeriod), NumberItem(3, m.unbondingPeriod),
     NumberItem(4, m.maxClockDrift), MessageItem(5, Some(hc.enc(m.frozenHeight))),
     MessageItem(6, Some(hc.enc(m.latestHeight)))]
  }

  function ClientStateBytes(hc: SubCodec<Height>, m: ClientState): Bytes {
    BytesFrom(ClientStateItems(hc, m), 0)
  }

  function ClientStateKind(n: int): Kind {
    if n == 1 || n == 5 || n == 6 then BytesField else if 2 <= n <= 4 then VarintField else UnknownField
  }

  function AssignClientState(hc: SubCodec<Height>, m: ClientState, n: int, p: Payload): Result<ClientState, Error> {
    match p
    case Number(v) =>
      Ok(if n == 2 then m.(trustingPeriod := v) else if n == 3 then m.(unbondingPeriod := v) else m.(maxClockDrift := v))
    case Data(b) =>
      if n == 1 then Ok(m.(chainId := b))
      else if n == 5 then
        var h :- hc.dec(m.frozenHeight, b);
        Ok(m.(frozenHeight := h))
      else
        var h :- hc.dec(m.latestHeight, b);
        Ok(m.(latestHeight := h))
  }

  function ClientStateSchema(hc: SubCodec<Height>): Schema<ClientState> {
    Schema(n => ClientStateKind(n), (m, n, p) => AssignClientState(hc, m, n, p))
  }

  /** Main result: decoding the bytes of a client state into a fresh one gives it back. */
  lemma ClientStateRoundTrip(hc: SubCodec<Height>, m: ClientState)
    requires |ClientStateBytes(hc, m)| < TWO_63
    requires RoundTripsAt(hc, ZERO_HEIGHT, m.frozenHeight) && RoundTripsAt(hc, ZERO_HEIGHT, m.latestHeight)
    ensures Decode(ClientStateSchema(hc), ZERO_CLIENT_STATE, ClientStateBytes(hc, m)) == Ok(m)
  {
    var s, its := ClientStateSchema(hc), ClientStateItems(hc, m);
    var m5 := m.(latestHeight := ZERO_HEIGHT);
    var m4 := m5.(frozenHeight := ZERO_HEIGHT);
    var m3 := m4.(maxClockDrift := 0);
    var m2 := m3.(unbondingPeriod := 0);
    var m1 := m2.(trustingPeriod := 0);
    assert AssignItem(s, m5, its[5]) == Ok(m) && AssignItem(s, m4, its[4]) == Ok(m5);
    assert AssignItem(s, m3, its[3]) == Ok(m4) && AssignItem(s, m2, its[2]) == Ok(m3);
    assert AssignItem(s, m1, its[1]) == Ok(m2) && AssignItem(s, ZERO_CLIENT_STATE, its[0]) == Ok(m1);
    assert AssignFrom(s, m5, its, 5) == Ok(m);
    assert AssignFrom(s, m3, its, 3) == Ok(m);
    assert AssignFrom(s, m1, its, 1) == Ok(m);
    ItemsDecode(s, ZERO_CLIENT_STATE, its, 0);
  }

  // ---------- ConsensusState ----------

  function ConsensusStateItems(rc: SubCodec<Bytes>, m: ConsensusState): (its: seq<Item>)
    ensures |its| == 3 && Numbered(its)
  {
    [NumberItem(1, m.timestamp), MessageItem(2, Some(rc.enc(m.root))), BytesItem(3, m.nextValidatorsHash)]
  }

  function ConsensusStateBytes(rc: SubCodec<Bytes>, m: ConsensusState): Bytes {
    BytesFrom(ConsensusStateItems(rc, m), 0)
  }

  function ConsensusStateKind(n: int): Kind {
    if n == 1 then VarintField else if n == 2 || n == 3 then BytesField else UnknownField
  }

  function AssignConsensusState(rc: SubCodec<Bytes>, m: ConsensusState, n: int, p: Payload)
    : Result<ConsensusState, Error>
  {
    match p
    case Number(v) => Ok(m.(timestamp := v))
    case Data(b) =>
      if n == 2 then
        var root :- rc.dec(m.root, b);
        Ok(m.(root := root))
      else Ok(m.(nextValidatorsHash := b))
  }

  function ConsensusStateSchema(rc: SubCodec<Bytes>): Schema<ConsensusState> {
    Schema(n => ConsensusStateKind(n), (m, n, p) => AssignConsensusState(rc, m, n, p))
  }

  lemma ConsensusStateRoundTrip(rc: SubCodec<Bytes>, m: ConsensusState)
    requires |ConsensusStateBytes(rc, m)| < TWO_63 && RoundTripsAt(rc, [], m.root)
    ensures Decode(ConsensusStateSchema(rc), ZERO_CONSENSUS_STATE, ConsensusStateBytes(rc, m)) == Ok(m)
  {
    var s, its := ConsensusStateSchema(rc), ConsensusStateItems(rc, m);
    var m2 := m.(nextValidatorsHash := []);
    var m1 := m2.(root := []);
    assert AssignItem(s, m2, its[2]) == Ok(m) && AssignItem(s, m1, its[1]) == Ok(m2);
    assert AssignItem(s, ZERO_CONSENSUS_STATE, its[0]) == Ok(m1);
    assert AssignFrom(s, m2, its, 2) == Ok(m);
    assert AssignFrom(s, m1, its, 1) == Ok(m);
    ItemsDecode(s, ZERO_CONSENSUS_STATE, its, 0);
  }

  // ---------- LightHeader ----------

  function LightHeaderItems(tc: SubCodec<Time>, m: LightHeader): (its: seq<Item>)
    ensures |its| == 5 && Numbered(its)
  {
    [NumberItem(1, U64(m.height)), MessageItem(2, Some(tc.enc(m.time))), BytesItem(3, m.validatorsHash),
     BytesItem(4, m.nextValidatorsHash), BytesItem(5, m.appHash)]
  }

  function LightHeaderBytes(tc: SubCodec<Time>, m: LightHeader): Bytes {
    BytesFrom(LightHeaderItems(tc, m), 0)
  }

  function LightHeaderKind(n: int): Kind {
    if n == 1 then VarintField else if 2 <= n <= 5 then BytesField else UnknownField
  }

  function AssignLightHeader(tc: SubCodec<Time>, m: LightHeader, n: int, p: Payload): Result<LightHeader, Error> {
    match p
    case Number(v) => Ok(m.(height := I64(v)))
    case Data(b) =>
      if n == 2 then
        var t :- tc.dec(m.time, b);
        Ok(m.(time := t))
      else if n == 3 then Ok(m.(validatorsHash := b))
      else if n == 4 then Ok(m.(nextValidatorsHash := b))
      else Ok(m.(appHash := b))
  }

  function LightHeaderSchema(tc: SubCodec<Time>): Schema<LightHeader> {
    Schema(n => LightHeaderKind(n), (m, n, p) => AssignLightHeader(tc, m, n, p))
  }

  /** Negative heights travel as their two's complement and come back negative. */
  lemma LightHeaderRoundTrip(tc: SubCodec<Time>, m: LightHeader)
    requires |LightHeaderBytes(tc, m)| < TWO_63 && RoundTripsAt(tc, ZERO_TIME, m.time)
    ensures Decode(LightHeaderSchema(tc), ZERO_LIGHT_HEADER, LightHeaderBytes(tc, m)) == Ok(m)
  {
    var s, its := LightHeaderSchema(tc), LightHeaderItems(tc, m);
    var m4 := m.(appHash := []);
    var m3 := m4.(nextValidatorsHash := []);
    var m2 := m3.(validatorsHash := []);
    var m1 := m2.(time := ZERO_TIME);
    assert I64(U64(m.height)) == m.height;
    assert AssignItem(s, m4, its[4]) == Ok(m) && AssignItem(s, m3, its[3]) == Ok(m4);
    assert AssignItem(s, m2, its[2]) == Ok(m3) && AssignItem(s, m1, its[1]) == Ok(m2);
    assert AssignItem(s, ZERO_LIGHT_HEADER, its[0]) == Ok(m1);
    assert AssignFrom(s, m4, its, 4) == Ok(m);
    assert AssignFrom(s, m2, its, 2) == Ok(m);
    assert AssignFrom(s, m1, its, 1) == Ok(m);
    ItemsDecode(s, ZERO_LIGHT_HEADER, its, 0);
  }

  // ---------- Header ----------

  function OptionBytes<T>(enc: T -> Bytes, t: Option<T>): Option<Bytes> {
    if t.None? then None else Some(enc(t.value))
  }

  function HeaderItems(hc: SubCodec<Height>, tc: SubCodec<Time>, m: Header): (its: seq<Item>)
    ensures |its| == 3 && Numbered(its)
  {
    [MessageItem(1, OptionBytes(l => LightHeaderBytes(tc, l), m.signedHeader)),
     MessageItem(2, OptionBytes(hc.enc, m.trustedHeight)), BytesItem(3, m.zeroKnowledgeProof)]
  }

  function HeaderBytes(hc: SubCodec<Height>, tc: SubCodec<Time>, m: Header): Bytes {
    BytesFrom(HeaderItems(hc, tc, m), 0)
  }

  function HeaderKind(n: int): Kind {
    if 1 <= n <= 3 then BytesField else UnknownField
  }

  /** A nested message that is already there is merged into; an absent one starts fresh. */
  function AssignHeader(hc: SubCodec<Height>, tc: SubCodec<Time>, m: Header, n: int, p: Payload): Result<Header, Error> {
    match p
    case Number(_) => Err(WrongWireType)
    case Data(b) =>
      if n == 1 then
        var l :- DecodeNested(LightHeaderSchema(tc),
                              if m.signedHeader.Some? then m.signedHeader.value else ZERO_LIGHT_HEADER, b);
        Ok(m.(signedHeader := Some(l)))
      else if n == 2 then
        var h :- hc.dec(if m.trustedHeight.Some? then m.trustedHeight.value else ZERO_HEIGHT, b);
        Ok(m.(trustedHeight := Some(h)))
      else Ok(m.(zeroKnowledgeProof := b))
  }

  function HeaderSchema(hc: SubCodec<Height>, tc: SubCodec<Time>): Schema<Header> {
    Schema(n => HeaderKind(n), (m, n, p) => AssignHeader(hc, tc, m, n, p))
  }

  /** The foreign values inside a header round trip. */
  ghost predicate HeaderParts(hc: SubCodec<Height>, tc: SubCodec<Time>, m: Header) {
    (m.signedHeader.Some? ==> RoundTripsAt(tc, ZERO_TIME, m.signedHeader.value.time))
    && (m.trustedHeight.Some? ==> RoundTripsAt(hc, ZERO_HEIGHT, m.trustedHeight.value))
  }

  lemma HeaderRoundTrip(hc: SubCodec<Height>, tc: SubCodec<Time>, m: Header)
    requires |HeaderBytes(hc, tc, m)| < TWO_63 && HeaderParts(hc, tc, m)
    ensures Decode(HeaderSchema(hc, tc), ZERO_HEADER, HeaderBytes(hc, tc, m)) == Ok(m)
  {
    var s, its := HeaderSchema(hc, tc), HeaderItems(hc, tc, m);
    var m2 := m.(zeroKnowledgeProof := []);
    var m1 := m2.(trustedHeight := None);
    if m.signedHeader.Some? {
      DataLength(its, 0);
      LightHeaderRoundTrip(tc, m.signedHeader.value);
    }
    assert AssignItem(s, m2, its[2]) == Ok(m) && AssignItem(s, m1, its[1]) == Ok(m2);
    assert AssignItem(s, ZERO_HEADER, its[0]) == Ok(m1);
    assert AssignFrom(s, m2, its, 2) == Ok(m);
    assert AssignFrom(s, m1, its, 1) == Ok(m);
    ItemsDecode(s, ZERO_HEADER, its, 0);
  }

  // ---------- Misbehaviour ----------

  function MisbehaviourItems(hc: SubCodec<Height>, tc: SubCodec<Time>, m: Misbehaviour): (its: seq<Item>)
    ensures |its| == 2 && Numbered(its)
  {
    [MessageItem(1, OptionBytes(h => HeaderBytes(hc, tc, h), m.header1)),
     MessageItem(2, OptionBytes(h => HeaderBytes(hc, tc, h), m.header2))]
  }

  function MisbehaviourBytes(hc: SubCodec<Height>, tc: SubCodec<Time>, m: Misbehaviour): Bytes {
    BytesFrom(MisbehaviourItems(hc, tc, m), 0)
  }

  function MisbehaviourKind(n: int): Kind {
    if n == 1 || n == 2 then BytesField else UnknownField
  }

  function AssignMisbehaviour(hc: SubCodec<Height>, tc: SubCodec<Time>, m: Misbehaviour, n: int, p: Payload)
    : Result<Misbehaviour, Error>
  {
    match p
    case Number(_) => Err(WrongWireType)
    case Data(b) =>
      if n == 1 then
        var h :- DecodeNested(HeaderSchema(hc, tc), if m.header1.Some? then m.header1.value else ZERO_HEADER, b);
        Ok(m.(header1 := Some(h)))
      else
        var h :- DecodeNested(HeaderSchema(hc, tc), if m.header2.Some? then m.header2.value else ZERO_HEADER, b);
        Ok(m.(header2 := Some(h)))
  }

  function MisbehaviourSchema(hc: SubCodec<Height>, tc: SubCodec<Time>): Schema<Misbehaviour> {
    Schema(n => MisbehaviourKind(n), (m, n, p) => AssignMisbehaviour(hc, tc, m, n, p))
  }

  lemma MisbehaviourRoundTrip(hc: SubCodec<Height>, tc: SubCodec<Time>, m: Misbehaviour)
    requires |MisbehaviourBytes(hc, tc, m)| < TWO_63
    requires m.header1.Some? ==> HeaderParts(hc, tc, m.header1.value)
    requires m.header2.Some? ==> HeaderParts(hc, tc, m.header2.value)
    ensures Decode(MisbehaviourSchema(hc, tc), ZERO_MISBEHAVIOUR, MisbehaviourBytes(hc, tc, m)) == Ok(m)
  {
    var s, its := MisbehaviourSchema(hc, tc), MisbehaviourItems(hc, tc, m);
    var m1 := m.(header2 := None);
    if m.header1.Some? {
      DataLength(its, 0);
      HeaderRoundTrip(hc, tc, m.header1.value);
    }
    if m.header2.Some? {
      DataLength(its, 1);
      HeaderRoundTrip(hc, tc, m.header2.value);
    }
    assert AssignItem(s, m1, its[1]) == Ok(m) && AssignItem(s, ZERO_MISBEHAVIOUR, its[0]) == Ok(m1);
    assert AssignFrom(s, m1, its, 1) == Ok(m);
    ItemsDecode(s, ZERO_MISBEHAVIOUR, its, 0);
  }

  // ---------- a sub-codec of the same make ----------

  function HeightItems(h: Height): (its: seq<Item>)
    ensures |its| == 2 && Numbered(its)
  {
    [NumberItem(1, h.revisionNumber), NumberItem(2, h.revisionHeight)]
  }

  function HeightKind(n: int): Kind {
    if n == 1 || n == 2 then VarintField else UnknownField
  }

  function AssignHeight(h: Height, n: int, p: Payload): Result<Height, Error> {
    if p.Data? then Err(WrongWireType)
    else Ok(if n == 1 then h.(revisionNumber := p.v) else h.(revisionHeight := p.v))
  }

  /** Heights as a message of two numbers: an example of a sub-codec. */
  function HeightCodec(): SubCodec<Height> {
    SubCodec(h => BytesFrom(HeightItems(h), 0),
             (h, b) => DecodeNested(Schema(n => HeightKind(n), (x, n, p) => AssignHeight(x, n, p)), h, b),
             h => false)
  }

  lemma {:induction false} EncodedAtMost(v: nat, k: nat)
    requires k > 0 && v < Pow(128, k)
    ensures |Encode(v)| <= k
    decreases k
  {
    if v >= 128 {
      assert Pow(128, 1) == 128;
      EncodedAtMost(v / 128, k - 1);
    }
  }

  /** The assumption of the round trips can be met, at every height. */
  lemma HeightCodecRoundTrips(h: Height)
    ensures RoundTripsAt(HeightCodec(), ZERO_HEIGHT, h)
  {
    var s := Schema((n: int) => HeightKind(n), (x: Height, n: int, p: Payload) => AssignHeight(x, n, p));
    var its := HeightItems(h);
    HeightIsShort(h);
    var m1 := Height(h.revisionNumber, 0);
    assert AssignItem(s, m1, its[1]) == Ok(h) && AssignItem(s, ZERO_HEIGHT, its[0]) == Ok(m1);
    assert AssignFrom(s, m1, its, 1) == Ok(h);
    ItemsDecode(s, ZERO_HEIGHT, its, 0);
  }

  lemma HeightIsShort(h: Height)
    ensures |BytesFrom(HeightItems(h), 0)| <= 22
  {
    TenGroups();
    EncodedAtMost(h.revisionNumber, 10);
    EncodedAtMost(h.revisionHeight, 10);
    var parts := Parts(HeightItems(h));
    assert Concat(parts, 1) == parts[1] + Concat(parts, 2);
  }

  lemma TenGroups()
    ensures Pow(128, 10) > TWO_64
  {
    PowAdd(128, 1, 1);
    assert Pow(128, 1) == 128;
    PowAdd(128, 2, 2);
    PowAdd(128, 4, 4);
    PowAdd(128, 8, 2);
  }
}
