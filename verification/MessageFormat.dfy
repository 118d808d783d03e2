/**
 The five messages byte by byte: which tag stands before which field, which field a tag sets when it
 is read, and which field numbers a message does not know.
 */
module MessageFormat {
  import opened Ints
  import opened Options
  import opened Types
  import opened Varint
  import opened Wire
  import opened WireLaws
  import opened Items
  import opened Messages

  // ---------- the bytes of a field ----------

  function NumberPart(tag: byte, v: nat): Bytes {
    if v == 0 then [] else [tag] + Encode(v)
  }

  function Delimited(tag: byte, b: Bytes): Bytes {
    [tag] + Encode(|b|) + b
  }

  function BytesPart(tag: byte, b: Bytes): Bytes {
    if b == [] then [] else Delimited(tag, b)
  }

  lemma FirstOf(its: seq<Item>, j: nat, first: Bytes, rest: Bytes)
    requires Numbered(its) && j < |its| && ItemBytes(its[j]) == first && BytesFrom(its, j + 1) == rest
    ensures BytesFrom(its, j) == first + rest
  {
  }

  lemma TwoParts(its: seq<Item>, j: nat, a: Bytes, b: Bytes)
    requires Numbered(its) && j + 2 == |its| && ItemBytes(its[j]) == a && ItemBytes(its[j + 1]) == b
    ensures BytesFrom(its, j) == a + b
  {
    FirstOf(its, j + 1, b, []);
    assert b + [] == b;
    FirstOf(its, j, a, b);
  }

  lemma ThreeParts(its: seq<Item>, j: nat, a: Bytes, b: Bytes, c: Bytes)
    requires Numbered(its) && j + 3 == |its|
    requires ItemBytes(its[j]) == a && ItemBytes(its[j + 1]) == b && ItemBytes(its[j + 2]) == c
    ensures BytesFrom(its, j) == a + b + c
  {
    TwoParts(its, j + 1, b, c);
    FirstOf(its, j, a, b + c);
    assert a + (b + c) == a + b + c;
  }

  lemma Regroup(a: Bytes, b: Bytes, c: Bytes)
    ensures a + (b + c) == (a + b) + c
  {
  }

  lemma FiveParts(its: seq<Item>, j: nat, a: Bytes, b: Bytes, c: Bytes, d: Bytes, e: Bytes)
    requires Numbered(its) && j + 5 == |its| && ItemBytes(its[j]) == a && ItemBytes(its[j + 1]) == b
    requires ItemBytes(its[j + 2]) == c && ItemBytes(its[j + 3]) == d && ItemBytes(its[j + 4]) == e
    ensures BytesFrom(its, j) == a + b + c + d + e
  {
    ThreeParts(its, j + 2, c, d, e);
    FirstOf(its, j + 1, b, c + d + e);
    FirstOf(its, j, a, b + (c + d + e));
    Regroup(a, b, c + d + e);
    Regroup(a + b, c + d, e);
    Regroup(a + b, c, d);
  }

  lemma SixParts(its: seq<Item>, a: Bytes, b: Bytes, c: Bytes, d: Bytes, e: Bytes, f: Bytes)
    requires Numbered(its) && |its| == 6
    requires ItemBytes(its[0]) == a && ItemBytes(its[1]) == b && ItemBytes(its[2]) == c
    requires ItemBytes(its[3]) == d && ItemBytes(its[4]) == e && ItemBytes(its[5]) == f
    ensures BytesFrom(its, 0) == a + b + c + d + e + f
  {
    FiveParts(its, 1, b, c, d, e, f);
    FirstOf(its, 0, a, b + c + d + e + f);
    Regroup(a, b + c + d + e, f);
    Regroup(a, b + c + d, e);
    Regroup(a, b + c, d);
    Regroup(a, b, c);
  }

  // ---------- the layout of every message ----------

  lemma ClientStateLayout(hc: SubCodec<Height>, m: ClientState)
    ensures ClientStateBytes(hc, m)
         == BytesPart(0x0a, m.chainId) + NumberPart(0x10, m.trustingPeriod) + NumberPart(0x18, m.unbondingPeriod)
            + NumberPart(0x20, m.maxClockDrift) + Delimited(0x2a, hc.enc(m.frozenHeight))
            + Delimited(0x32, hc.enc(m.latestHeight))
  {
    SixParts(ClientStateItems(hc, m), BytesPart(0x0a, m.chainId), NumberPart(0x10, m.trustingPeriod),
             NumberPart(0x18, m.unbondingPeriod), NumberPart(0x20, m.maxClockDrift),
             Delimited(0x2a, hc.enc(m.frozenHeight)), Delimited(0x32, hc.enc(m.latestHeight)));
  }

  lemma ConsensusStateLayout(rc: SubCodec<Bytes>, m: ConsensusState)
    ensures ConsensusStateBytes(rc, m)
         == NumberPart(0x08, m.timestamp) + Delimited(0x12, rc.enc(m.root)) + BytesPart(0x1a, m.nextValidatorsHash)
  {
    ThreeParts(ConsensusStateItems(rc, m), 0, NumberPart(0x08, m.timestamp), Delimited(0x12, rc.enc(m.root)),
               BytesPart(0x1a, m.nextValidatorsHash));
  }

  /** A negative height is written as the number that has the same 64 bits. */
  function HeightBits(height: i64): u64 {
    if height < 0 then height + 0x1_0000_0000_0000_0000 else height
  }

  lemma LightHeaderLayout(tc: SubCodec<Time>, m: LightHeader)
    ensures LightHeaderBytes(tc, m)
         == NumberPart(0x08, HeightBits(m.height)) + Delimited(0x12, tc.enc(m.time)) + BytesPart(0x1a, m.validatorsHash)
            + BytesPart(0x22, m.nextValidatorsHash) + BytesPart(0x2a, m.appHash)
  {
    assert U64(m.height) == HeightBits(m.height);
    FiveParts(LightHeaderItems(tc, m), 0, NumberPart(0x08, HeightBits(m.height)), Delimited(0x12, tc.enc(m.time)),
              BytesPart(0x1a, m.validatorsHash), BytesPart(0x22, m.nextValidatorsHash), BytesPart(0x2a, m.appHash));
  }

  lemma SignedHeaderPart(tc: SubCodec<Time>, h: Option<LightHeader>)
    ensures ItemBytes(MessageItem(1, OptionBytes(l => LightHeaderBytes(tc, l), h)))
         == if h.None? then [] else Delimited(0x0a, LightHeaderBytes(tc, h.value))
  {
  }

  lemma HeaderLayout(hc: SubCodec<Height>, tc: SubCodec<Time>, m: Header)
    ensures HeaderBytes(hc, tc, m)
         == (if m.signedHeader.None? then [] else Delimited(0x0a, LightHeaderBytes(tc, m.signedHeader.value)))
            + (if m.trustedHeight.None? then [] else Delimited(0x12, hc.enc(m.trustedHeight.value)))
            + BytesPart(0x1a, m.zeroKnowledgeProof)
  {
    var its := HeaderItems(hc, tc, m);
    SignedHeaderPart(tc, m.signedHeader);
    ThreeParts(its, 0, ItemBytes(its[0]),
               if m.trustedHeight.None? then [] else Delimited(0x12, hc.enc(m.trustedHeight.value)),
               BytesPart(0x1a, m.zeroKnowledgeProof));
  }

  lemma MisbehaviourLayout(hc: SubCodec<Height>, tc: SubCodec<Time>, m: Misbehaviour)
    ensures MisbehaviourBytes(hc, tc, m)
         == (if m.header1.None? then [] else Delimited(0x0a, HeaderBytes(hc, tc, m.header1.value)))
            + (if m.header2.None? then [] else Delimited(0x12, HeaderBytes(hc, tc, m.header2.value)))
  {
    TwoParts(MisbehaviourItems(hc, tc, m), 0,
             if m.header1.None? then [] else Delimited(0x0a, HeaderBytes(hc, tc, m.header1.value)),
             if m.header2.None? then [] else Delimited(0x12, HeaderBytes(hc, tc, m.header2.value)));
  }

  // ---------- reading one field ----------

  /** A number under a known tag is assigned, or refused if the field holds bytes. */
  lemma NumberIsRead<M>(s: Schema<M>, m: M, tag: byte, v: u64)
    requires 8 <= tag < 128 && tag % 8 == 0
    ensures |[tag] + Encode(v)| < TWO_63
    ensures s.kind(tag / 8) == VarintField ==> Decode(s, m, [tag] + Encode(v)) == s.assign(m, tag / 8, Number(v))
    ensures s.kind(tag / 8) == BytesField ==> Decode(s, m, [tag] + Encode(v)) == Err(WrongWireType)
  {
    var d := [tag] + Encode(v);
    EncodedIsShort(v);
    TagReads(tag, Encode(v));
    assert d[0..] == d;
    ReadBack(v, []);
    assert d[1..] == Encode(v) == Encode(v) + [];
    assert I32(tag / 8) == tag / 8;
    FieldStep(s, m, d, 0, Ok((tag, 1)));
    DecodeStep(s, m, d, 0, Field(s, m, d, 0));
  }

  lemma EncodedIsShort(v: u64)
    ensures |Encode(v)| <= 10
  {
    TenGroups();
    EncodedAtMost(v, 10);
  }

  /** Bytes under a known tag are assigned, or refused if the field holds a number. */
  lemma DataIsRead<M>(s: Schema<M>, m: M, tag: byte, b: Bytes)
    requires 8 <= tag < 128 && tag % 8 == 2 && |Delimited(tag, b)| < TWO_63
    ensures s.kind(tag / 8) == BytesField ==> Decode(s, m, Delimited(tag, b)) == s.assign(m, tag / 8, Data(b))
    ensures s.kind(tag / 8) == VarintField ==> Decode(s, m, Delimited(tag, b)) == Err(WrongWireType)
  {
    var d, body := Delimited(tag, b), Encode(|b|) + b;
    assert d == [tag] + body;
    TagReads(tag, body);
    assert d[0..] == d && d[1..] == body;
    DataReads(b, body);
    DataTagged(s, m, d, tag, b, 1 + |Encode(|b|)|);
    FieldStep(s, m, d, 0, Ok((tag, 1)));
    DecodeStep(s, m, d, 0, Field(s, m, d, 0));
  }

  lemma DataTagged<M>(s: Schema<M>, m: M, d: Slice, tag: byte, b: Bytes, k: nat)
    requires 8 <= tag < 128 && tag % 8 == 2 && 1 <= k && k + |b| == |d| && d[k..] == b
    requires Read(d[1..], 0) == Ok((|b|, k - 1))
    ensures s.kind(tag / 8) == BytesField ==>
              var one := s.assign(m, tag / 8, Data(b));
              TaggedField(s, m, d, 0, 1, tag) == if one.Ok? then Ok((one.value, |d|)) else Err(one.error)
    ensures s.kind(tag / 8) == VarintField ==> TaggedField(s, m, d, 0, 1, tag) == Err(WrongWireType)
  {
    assert d[k..k + |b|] == b;
    SliceAssigned(s, m, d, k, |b|, tag / 8);
    assert I32(tag / 8) == tag / 8;
  }

  /** Reading a number into a field of a message has this effect. */
  ghost predicate SetsNumber<M>(s: Schema<M>, m: M, tag: byte, v: u64, r: M) {
    |[tag] + Encode(v)| < TWO_63 && Decode(s, m, [tag] + Encode(v)) == Ok(r)
  }

  /** Reading bytes into a field of a message has this effect, in an input of any allowed length. */
  ghost predicate SetsBytes<M>(s: Schema<M>, m: M, tag: byte, b: Bytes, r: Result<M, Error>) {
    |Delimited(tag, b)| < TWO_63 ==> Decode(s, m, Delimited(tag, b)) == r
  }

  /** The field is there, but not with this wire type. */
  ghost predicate RefusesNumber<M>(s: Schema<M>, m: M, tag: byte, v: u64) {
    |[tag] + Encode(v)| < TWO_63 && Decode(s, m, [tag] + Encode(v)) == Err(WrongWireType)
  }

  ghost predicate RefusesBytes<M>(s: Schema<M>, m: M, tag: byte, b: Bytes) {
    |Delimited(tag, b)| < TWO_63 ==> Decode(s, m, Delimited(tag, b)) == Err(WrongWireType)
  }

  lemma BytesAreRead<M>(s: Schema<M>, m: M, tag: byte, b: Bytes)
    requires 8 <= tag < 128 && tag % 8 == 2
    ensures s.kind(tag / 8) == BytesField ==> SetsBytes(s, m, tag, b, s.assign(m, tag / 8, Data(b)))
    ensures s.kind(tag / 8) == VarintField ==> RefusesBytes(s, m, tag, b)
  {
    if |Delimited(tag, b)| < TWO_63 {
      DataIsRead(s, m, tag, b);
    }
  }

  /** A nested value that a sub-codec read, put where it belongs; its error otherwise. */
  function Put<T, M>(r: Result<T, Error>, put: T -> M): Result<M, Error> {
    if r.Ok? then Ok(put(r.value)) else Err(r.error)
  }

  /** Decoding starts from empty fields; an unset time is the start of the year one, 719162 days before 1970. */
  lemma FreshMessages()
    ensures ZERO_CLIENT_STATE == ClientState([], 0, 0, 0, Height(0, 0), Height(0, 0))
    ensures ZERO_CONSENSUS_STATE == ConsensusState(0, [], [])
    ensures ZERO_LIGHT_HEADER == LightHeader(0, Time(-719_162 * 86_400, 0), [], [], [])
    ensures ZERO_HEADER == Header(None, None, []) && ZERO_MISBEHAVIOUR == Misbehaviour(None, None)
  {
  }

  // ---------- the field table of every message ----------

  lemma ClientStateNumbers(hc: SubCodec<Height>, m: ClientState, v: u64)
    ensures var s := ClientStateSchema(hc);
            && SetsNumber(s, m, 0x10, v, m.(trustingPeriod := v))
            && SetsNumber(s, m, 0x18, v, m.(unbondingPeriod := v))
            && SetsNumber(s, m, 0x20, v, m.(maxClockDrift := v))
  {
    var s := ClientStateSchema(hc);
    NumberIsRead(s, m, 0x10, v);
    NumberIsRead(s, m, 0x18, v);
    NumberIsRead(s, m, 0x20, v);
  }

  lemma ClientStateFields(hc: SubCodec<Height>, m: ClientState, b: Bytes)
    ensures var s := ClientStateSchema(hc);
            && SetsBytes(s, m, 0x0a, b, Ok(m.(chainId := b)))
            && SetsBytes(s, m, 0x2a, b, Put(hc.dec(m.frozenHeight, b), (h: Height) => m.(frozenHeight := h)))
            && SetsBytes(s, m, 0x32, b, Put(hc.dec(m.latestHeight, b), (h: Height) => m.(latestHeight := h)))
  {
    var s := ClientStateSchema(hc);
    BytesAreRead(s, m, 0x0a, b);
    BytesAreRead(s, m, 0x2a, b);
    BytesAreRead(s, m, 0x32, b);
  }

  lemma ClientStateWireTypes(hc: SubCodec<Height>, m: ClientState, v: u64, b: Bytes)
    ensures var s := ClientStateSchema(hc);
            && RefusesNumber(s, m, 0x08, v) && RefusesNumber(s, m, 0x28, v) && RefusesNumber(s, m, 0x30, v)
            && RefusesBytes(s, m, 0x12, b) && RefusesBytes(s, m, 0x1a, b) && RefusesBytes(s, m, 0x22, b)
  {
    var s := ClientStateSchema(hc);
    NumberIsRead(s, m, 0x08, v);
    NumberIsRead(s, m, 0x28, v);
    NumberIsRead(s, m, 0x30, v);
    BytesAreRead(s, m, 0x12, b);
    BytesAreRead(s, m, 0x1a, b);
    BytesAreRead(s, m, 0x22, b);
  }

  lemma ConsensusStateFields(rc: SubCodec<Bytes>, m: ConsensusState, v: u64, b: Bytes)
    ensures var s := ConsensusStateSchema(rc);
            && SetsNumber(s, m, 0x08, v, m.(timestamp := v))
            && SetsBytes(s, m, 0x12, b, Put(rc.dec(m.root, b), (root: Bytes) => m.(root := root)))
            && SetsBytes(s, m, 0x1a, b, Ok(m.(nextValidatorsHash := b)))
            && RefusesBytes(s, m, 0x0a, b) && RefusesNumber(s, m, 0x10, v) && RefusesNumber(s, m, 0x18, v)
  {
    var s := ConsensusStateSchema(rc);
    NumberIsRead(s, m, 0x08, v);
    BytesAreRead(s, m, 0x12, b);
    BytesAreRead(s, m, 0x1a, b);
    BytesAreRead(s, m, 0x0a, b);
    NumberIsRead(s, m, 0x10, v);
    NumberIsRead(s, m, 0x18, v);
  }

  lemma LightHeaderFields(tc: SubCodec<Time>, m: LightHeader, v: u64, b: Bytes)
    ensures var s := LightHeaderSchema(tc);
            && (forall height: i64 | HeightBits(height) == v :: SetsNumber(s, m, 0x08, v, m.(height := height)))
            && SetsBytes(s, m, 0x12, b, Put(tc.dec(m.time, b), (t: Time) => m.(time := t)))
            && SetsBytes(s, m, 0x1a, b, Ok(m.(validatorsHash := b)))
            && SetsBytes(s, m, 0x22, b, Ok(m.(nextValidatorsHash := b)))
            && SetsBytes(s, m, 0x2a, b, Ok(m.(appHash := b)))
  {
    var s := LightHeaderSchema(tc);
    NumberIsRead(s, m, 0x08, v);
    BytesAreRead(s, m, 0x12, b);
    BytesAreRead(s, m, 0x1a, b);
    BytesAreRead(s, m, 0x22, b);
    BytesAreRead(s, m, 0x2a, b);
  }

  lemma LightHeaderWireTypes(tc: SubCodec<Time>, m: LightHeader, v: u64, b: Bytes)
    ensures var s := LightHeaderSchema(tc);
            && RefusesBytes(s, m, 0x0a, b) && RefusesNumber(s, m, 0x10, v) && RefusesNumber(s, m, 0x18, v)
            && RefusesNumber(s, m, 0x20, v) && RefusesNumber(s, m, 0x28, v)
  {
    var s := LightHeaderSchema(tc);
    BytesAreRead(s, m, 0x0a, b);
    NumberIsRead(s, m, 0x10, v);
    NumberIsRead(s, m, 0x18, v);
    NumberIsRead(s, m, 0x20, v);
    NumberIsRead(s, m, 0x28, v);
  }

  /** Nested headers are merged into what is there, or into a fresh one. */
  lemma HeaderFields(hc: SubCodec<Height>, tc: SubCodec<Time>, m: Header, v: u64, b: Slice)
    ensures var s := HeaderSchema(hc, tc);
            var light := if m.signedHeader.Some? then m.signedHeader.value else ZERO_LIGHT_HEADER;
            var height := if m.trustedHeight.Some? then m.trustedHeight.value else ZERO_HEIGHT;
            && SetsBytes(s, m, 0x0a, b, Put(Decode(LightHeaderSchema(tc), light, b),
                                            (l: LightHeader) => m.(signedHeader := Some(l))))
            && SetsBytes(s, m, 0x12, b, Put(hc.dec(height, b), (h: Height) => m.(trustedHeight := Some(h))))
            && SetsBytes(s, m, 0x1a, b, Ok(m.(zeroKnowledgeProof := b)))
            && RefusesNumber(s, m, 0x08, v) && RefusesNumber(s, m, 0x10, v) && RefusesNumber(s, m, 0x18, v)
  {
    var s := HeaderSchema(hc, tc);
    BytesAreRead(s, m, 0x0a, b);
    BytesAreRead(s, m, 0x12, b);
    BytesAreRead(s, m, 0x1a, b);
    NumberIsRead(s, m, 0x08, v);
    NumberIsRead(s, m, 0x10, v);
    NumberIsRead(s, m, 0x18, v);
  }

  lemma MisbehaviourFields(hc: SubCodec<Height>, tc: SubCodec<Time>, m: Misbehaviour, v: u64, b: Slice)
    ensures var s := MisbehaviourSchema(hc, tc);
            var first := if m.header1.Some? then m.header1.value else ZERO_HEADER;
            var second := if m.header2.Some? then m.header2.value else ZERO_HEADER;
            && SetsBytes(s, m, 0x0a, b, Put(Decode(HeaderSchema(hc, tc), first, b), (h: Header) => m.(header1 := Some(h))))
            && SetsBytes(s, m, 0x12, b, Put(Decode(HeaderSchema(hc, tc), second, b), (h: Header) => m.(header2 := Some(h))))
            && RefusesNumber(s, m, 0x08, v) && RefusesNumber(s, m, 0x10, v)
  {
    var s := MisbehaviourSchema(hc, tc);
    BytesAreRead(s, m, 0x0a, b);
    BytesAreRead(s, m, 0x12, b);
    NumberIsRead(s, m, 0x08, v);
    NumberIsRead(s, m, 0x10, v);
  }

  /** The field number that a tag carries: the low 32 bits of what is left of it without the wire type. */
  function FieldNumber(t: Tree): int
    requires WellFormed(t)
  {
    var bits := (Read(t.tag, 0).value.0 / 8) % 0x1_0000_0000;
    if bits < 0x8000_0000 then bits else bits - 0x1_0000_0000
  }

  /** Main result: the numbers that each message does not know, and skips, are all those outside its table. */
  lemma UnknownNumbers(hc: SubCodec<Height>, rc: SubCodec<Bytes>, tc: SubCodec<Time>, t: Tree)
    requires WellFormed(t)
    ensures IsUnknown(ClientStateSchema(hc), t) <==> FieldNumber(t) > 6
    ensures IsUnknown(ConsensusStateSchema(rc), t) <==> FieldNumber(t) > 3
    ensures IsUnknown(LightHeaderSchema(tc), t) <==> FieldNumber(t) > 5
    ensures IsUnknown(HeaderSchema(hc, tc), t) <==> FieldNumber(t) > 3
    ensures IsUnknown(MisbehaviourSchema(hc, tc), t) <==> FieldNumber(t) > 2
  {
  }
}
