/**
 Marshalling into a buffer that is filled from its end. Each method writes the message so that it
 ends at `end`, exactly `Size` bytes, and touches nothing else.
 */
module Marshal {
  import opened Ints
  import opened Options
  import opened Types
  import opened Varint
  import opened Items
  import Wire
  import opened Messages

  // ---------- sizes ----------

  function NumberSize(v: u64): nat {
    if v == 0 then 0 else 1 + Sov(v)
  }

  function MessageSize(l: nat): nat {
    1 + l + Sov(l)
  }

  function BytesSize(l: nat): nat {
    if l > 0 then MessageSize(l) else 0
  }

  function ClientStateSize(hc: SubCodec<Height>, m: ClientState): nat {
    BytesSize(|m.chainId|) + NumberSize(m.trustingPeriod) + NumberSize(m.unbondingPeriod)
    + NumberSize(m.maxClockDrift) + MessageSize(|hc.enc(m.frozenHeight)|) + MessageSize(|hc.enc(m.latestHeight)|)
  }

  function ConsensusStateSize(rc: SubCodec<Bytes>, m: ConsensusState): nat {
    NumberSize(m.timestamp) + MessageSize(|rc.enc(m.root)|) + BytesSize(|m.nextValidatorsHash|)
  }

  function LightHeaderSize(tc: SubCodec<Time>, m: LightHeader): nat {
    NumberSize(U64(m.height)) + MessageSize(|tc.enc(m.time)|) + BytesSize(|m.validatorsHash|)
    + BytesSize(|m.nextValidatorsHash|) + BytesSize(|m.appHash|)
  }

  function HeaderSize(hc: SubCodec<Height>, tc: SubCodec<Time>, m: Header): nat {
    (if m.signedHeader.None? then 0 else MessageSize(LightHeaderSize(tc, m.signedHeader.value)))
    + (if m.trustedHeight.None? then 0 else MessageSize(|hc.enc(m.trustedHeight.value)|))
    + BytesSize(|m.zeroKnowledgeProof|)
  }

  function MisbehaviourSize(hc: SubCodec<Height>, tc: SubCodec<Time>, m: Misbehaviour): nat {
    (if m.header1.None? then 0 else MessageSize(HeaderSize(hc, tc, m.header1.value)))
    + (if m.header2.None? then 0 else MessageSize(HeaderSize(hc, tc, m.header2.value)))
  }

  lemma NumberLength(number: nat, v: u64)
    requires number <= 15
    ensures |ItemBytes(NumberItem(number, v))| == NumberSize(v)
  {
    SovIsLength(v);
  }

  lemma DataItemLength(number: nat, b: Bytes)
    requires number <= 15
    ensures |ItemBytes(MessageItem(number, Some(b)))| == MessageSize(|b|)
    ensures |ItemBytes(BytesItem(number, b))| == BytesSize(|b|)
  {
    SovIsLength(|b|);
  }

  lemma OptionLength(number: nat, b: Option<Bytes>)
    requires number <= 15
    ensures |ItemBytes(MessageItem(number, b))| == if b.None? then 0 else MessageSize(|b.value|)
  {
    if b.Some? {
      DataItemLength(number, b.value);
    }
  }

  lemma ItemAndRest(its: seq<Item>, j: nat, length: nat, rest: nat)
    requires Numbered(its) && j < |its| && |ItemBytes(its[j])| == length && |BytesFrom(its, j + 1)| == rest
    ensures |BytesFrom(its, j)| == length + rest
  {
  }

  lemma TwoLengths(its: seq<Item>, j: nat, a: nat, b: nat)
    requires Numbered(its) && j + 2 == |its|
    requires |ItemBytes(its[j])| == a && |ItemBytes(its[j + 1])| == b
    ensures |BytesFrom(its, j)| == a + b
  {
    ItemAndRest(its, j + 1, b, 0);
    ItemAndRest(its, j, a, b);
  }

  lemma ThreeLengths(its: seq<Item>, j: nat, a: nat, b: nat, c: nat)
    requires Numbered(its) && j + 3 == |its|
    requires |ItemBytes(its[j])| == a && |ItemBytes(its[j + 1])| == b && |ItemBytes(its[j + 2])| == c
    ensures |BytesFrom(its, j)| == a + b + c
  {
    TwoLengths(its, j + 1, b, c);
    ItemAndRest(its, j, a, b + c);
  }

  lemma SixLengths(its: seq<Item>, a: nat, b: nat, c: nat, d: nat, e: nat, f: nat)
    requires Numbered(its) && |its| == 6
    requires |ItemBytes(its[0])| == a && |ItemBytes(its[1])| == b && |ItemBytes(its[2])| == c
    requires |ItemBytes(its[3])| == d && |ItemBytes(its[4])| == e && |ItemBytes(its[5])| == f
    ensures |BytesFrom(its, 0)| == a + b + c + d + e + f
  {
    ThreeLengths(its, 3, d, e, f);
    ItemAndRest(its, 2, c, d + e + f);
    ItemAndRest(its, 1, b, c + (d + e + f));
    ItemAndRest(its, 0, a, b + (c + (d + e + f)));
  }

  /** The size formula of every message is the length of its bytes. */
  lemma ClientStateSizeIsLength(hc: SubCodec<Height>, m: ClientState)
    ensures ClientStateSize(hc, m) == |ClientStateBytes(hc, m)|
  {
    DataItemLength(1, m.chainId);
    NumberLength(2, m.trustingPeriod);
    NumberLength(3, m.unbondingPeriod);
    NumberLength(4, m.maxClockDrift);
    DataItemLength(5, hc.enc(m.frozenHeight));
    DataItemLength(6, hc.enc(m.latestHeight));
    SixLengths(ClientStateItems(hc, m), BytesSize(|m.chainId|), NumberSize(m.trustingPeriod),
               NumberSize(m.unbondingPeriod), NumberSize(m.maxClockDrift),
               MessageSize(|hc.enc(m.frozenHeight)|), MessageSize(|hc.enc(m.latestHeight)|));
  }

  lemma ConsensusStateSizeIsLength(rc: SubCodec<Bytes>, m: ConsensusState)
    ensures ConsensusStateSize(rc, m) == |ConsensusStateBytes(rc, m)|
  {
    NumberLength(1, m.timestamp);
    DataItemLength(2, rc.enc(m.root));
    DataItemLength(3, m.nextValidatorsHash);
    ThreeLengths(ConsensusStateItems(rc, m), 0, NumberSize(m.timestamp), MessageSize(|rc.enc(m.root)|),
                 BytesSize(|m.nextValidatorsHash|));
  }

  lemma FiveLengths(its: seq<Item>, a: nat, b: nat, c: nat, d: nat, e: nat)
    requires Numbered(its) && |its| == 5 && |ItemBytes(its[0])| == a && |ItemBytes(its[1])| == b
    requires |ItemBytes(its[2])| == c && |ItemBytes(its[3])| == d && |ItemBytes(its[4])| == e
    ensures |BytesFrom(its, 0)| == a + b + c + d + e
  {
    ThreeLengths(its, 2, c, d, e);
    ItemAndRest(its, 1, b, c + d + e);
    ItemAndRest(its, 0, a, b + (c + d + e));
  }

  lemma LightHeaderSizeIsLength(tc: SubCodec<Time>, m: LightHeader)
    ensures LightHeaderSize(tc, m) == |LightHeaderBytes(tc, m)|
  {
    NumberLength(1, U64(m.height));
    DataItemLength(2, tc.enc(m.time));
    DataItemLength(3, m.validatorsHash);
    DataItemLength(4, m.nextValidatorsHash);
    DataItemLength(5, m.appHash);
    FiveLengths(LightHeaderItems(tc, m), NumberSize(U64(m.height)), MessageSize(|tc.enc(m.time)|),
                BytesSize(|m.validatorsHash|), BytesSize(|m.nextValidatorsHash|), BytesSize(|m.appHash|));
  }

  lemma SignedHeaderLength(tc: SubCodec<Time>, h: Option<LightHeader>)
    ensures |ItemBytes(MessageItem(1, OptionBytes(l => LightHeaderBytes(tc, l), h)))|
         == if h.None? then 0 else MessageSize(LightHeaderSize(tc, h.value))
  {
    OptionLength(1, OptionBytes(l => LightHeaderBytes(tc, l), h));
    if h.Some? {
      LightHeaderSizeIsLength(tc, h.value);
    }
  }

  lemma HeaderSizeIsLength(hc: SubCodec<Height>, tc: SubCodec<Time>, m: Header)
    ensures HeaderSize(hc, tc, m) == |HeaderBytes(hc, tc, m)|
  {
    var its := HeaderItems(hc, tc, m);
    SignedHeaderLength(tc, m.signedHeader);
    OptionLength(2, OptionBytes(hc.enc, m.trustedHeight));
    DataItemLength(3, m.zeroKnowledgeProof);
    ThreeLengths(its, 0, |ItemBytes(its[0])|, |ItemBytes(its[1])|, BytesSize(|m.zeroKnowledgeProof|));
  }

  lemma HeaderPartLength(hc: SubCodec<Height>, tc: SubCodec<Time>, number: nat, h: Option<Header>)
    requires number <= 15
    ensures |ItemBytes(MessageItem(number, OptionBytes(x => HeaderBytes(hc, tc, x), h)))|
         == if h.None? then 0 else MessageSize(HeaderSize(hc, tc, h.value))
  {
    OptionLength(number, OptionBytes(x => HeaderBytes(hc, tc, x), h));
    if h.Some? {
      HeaderSizeIsLength(hc, tc, h.value);
    }
  }

  lemma MisbehaviourSizeIsLength(hc: SubCodec<Height>, tc: SubCodec<Time>, m: Misbehaviour)
    ensures MisbehaviourSize(hc, tc, m) == |MisbehaviourBytes(hc, tc, m)|
  {
    var its := MisbehaviourItems(hc, tc, m);
    HeaderPartLength(hc, tc, 1, m.header1);
    HeaderPartLength(hc, tc, 2, m.header2);
    TwoLengths(its, 0, |ItemBytes(its[0])|, |ItemBytes(its[1])|);
  }

  // ---------- filling the buffer ----------

  /**
   The message was written so that it ends at `end`, or a value in it was refused: then bytes before
   `end` may be half written.
   */
  ghost predicate Marshalled(r: Result<nat, Error>, refused: bool, before: Bytes, after: Bytes, end: nat,
                             bytes: Bytes)
  {
    |bytes| <= end <= |before| == |after|
    && if refused then r == Err(BadSubMessage) && after[end..] == before[end..]
       else r == Ok(|bytes|) && after == Splice(before, end - |bytes|, bytes)
  }

  lemma Done(job: Job, after: Bytes, i: nat)
    requires job.Valid() && job.filled(after, i, 0)
    ensures i <= job.end
    ensures Marshalled(Ok(job.end - i), false, job.orig, after, job.end, BytesFrom(job.its, 0))
  {
    Finish(job, after, i);
  }

  /** A value in front of what is filled was refused. */
  lemma Refused(job: Job, before: Bytes, after: Bytes, i: nat, j: nat)
    requires job.Valid() && j <= |job.its| && job.filled(before, i, j)
    requires i <= |before| == |after| && after[i..] == before[i..]
    ensures Marshalled(Err(BadSubMessage), true, job.orig, after, job.end, BytesFrom(job.its, 0))
  {
    assert job.Means(before, i, j);
    assert after[i..][job.end - i..] == before[i..][job.end - i..];
  }

  method PutForeign<T>(c: SubCodec<T>, buf: array<byte>, i: nat, number: nat, t: T, ghost job: Job, ghost j: nat)
    returns (r: Result<nat, Error>)
    requires job.Valid() && j < |job.its| && job.filled(buf[..], i, j + 1) && |job.orig| == buf.Length
    requires job.its[j] == MessageItem(number, Some(c.enc(t)))
    modifies buf
    ensures r.Ok? <==> !c.refuses(t)
    ensures r.Ok? ==> job.filled(buf[..], r.value, j)
    ensures r.Err? ==> Marshalled(r, true, job.orig, buf[..], job.end, BytesFrom(job.its, 0))
  {
    if c.refuses(t) {
      RoomLeft(job, buf[..], i, j);
      Refused(job, buf[..], buf[..], i, j + 1);
      return Err(BadSubMessage);
    }
    var start := PutMessage(buf, i, number, c.enc(t), job, j);
    return Ok(start);
  }

  /** Fills the bytes before `end` from back to front. */
  method FillClientState(hc: SubCodec<Height>, m: ClientState, buf: array<byte>, end: nat)
    returns (r: Result<nat, Error>)
    requires |ClientStateBytes(hc, m)| <= end <= buf.Length < TWO_63
    modifies buf
    ensures Marshalled(r, hc.refuses(m.latestHeight) || hc.refuses(m.frozenHeight),
                       old(buf[..]), buf[..], end, ClientStateBytes(hc, m))
  {
    ghost var job := Start(ClientStateItems(hc, m), end, buf[..]);
    r := PutForeign(hc, buf, end, 6, m.latestHeight, job, 5);
    if r.Err? {
      return;
    }
    r := PutForeign(hc, buf, r.value, 5, m.frozenHeight, job, 4);
    if r.Err? {
      return;
    }
    var i := PutNumber(buf, r.value, 4, m.maxClockDrift, job, 3);
    i := PutNumber(buf, i, 3, m.unbondingPeriod, job, 2);
    i := PutNumber(buf, i, 2, m.trustingPeriod, job, 1);
    i := PutBytes(buf, i, 1, m.chainId, job, 0);
    Done(job, buf[..], i);
    r := Ok(end - i);
  }

  method MarshalClientState(hc: SubCodec<Height>, m: ClientState, buf: array<byte>, end: nat)
    returns (r: Result<nat, Error>)
    requires |ClientStateBytes(hc, m)| <= end <= buf.Length < TWO_63
    modifies buf
    ensures Marshalled(r, hc.refuses(m.latestHeight) || hc.refuses(m.frozenHeight),
                       old(buf[..]), buf[..], end, ClientStateBytes(hc, m))
    ensures r.Ok? ==> r.value == ClientStateSize(hc, m)
  {
    ClientStateSizeIsLength(hc, m);
    r := FillClientState(hc, m, buf, end);
  }

  /** Fills the bytes before `end` from back to front. */
  method FillConsensusState(rc: SubCodec<Bytes>, m: ConsensusState, buf: array<byte>, end: nat)
    returns (r: Result<nat, Error>)
    requires |ConsensusStateBytes(rc, m)| <= end <= buf.Length < TWO_63
    modifies buf
    ensures Marshalled(r, rc.refuses(m.root),
                       old(buf[..]), buf[..], end, ConsensusStateBytes(rc, m))
  {
    ghost var job := Start(ConsensusStateItems(rc, m), end, buf[..]);
    var i := PutBytes(buf, end, 3, m.nextValidatorsHash, job, 2);
    r := PutForeign(rc, buf, i, 2, m.root, job, 1);
    if r.Err? {
      return;
    }
    i := PutNumber(buf, r.value, 1, m.timestamp, job, 0);
    Done(job, buf[..], i);
    r := Ok(end - i);
  }

  method MarshalConsensusState(rc: SubCodec<Bytes>, m: ConsensusState, buf: array<byte>, end: nat)
    returns (r: Result<nat, Error>)
    requires |ConsensusStateBytes(rc, m)| <= end <= buf.Length < TWO_63
    modifies buf
    ensures Marshalled(r, rc.refuses(m.root),
                       old(buf[..]), buf[..], end, ConsensusStateBytes(rc, m))
    ensures r.Ok? ==> r.value == ConsensusStateSize(rc, m)
  {
    ConsensusStateSizeIsLength(rc, m);
    r := FillConsensusState(rc, m, buf, end);
  }

  /** Fills the bytes before `end` from back to front. */
  method FillLightHeader(tc: SubCodec<Time>, m: LightHeader, buf: array<byte>, end: nat)
    returns (r: Result<nat, Error>)
    requires |LightHeaderBytes(tc, m)| <= end <= buf.Length < TWO_63
    modifies buf
    ensures Marshalled(r, tc.refuses(m.time), old(buf[..]), buf[..], end, LightHeaderBytes(tc, m))
  {
    ghost var job := Start(LightHeaderItems(tc, m), end, buf[..]);
    var i := PutBytes(buf, end, 5, m.appHash, job, 4);
    i := PutBytes(buf, i, 4, m.nextValidatorsHash, job, 3);
    i := PutBytes(buf, i, 3, m.validatorsHash, job, 2);
    r := PutForeign(tc, buf, i, 2, m.time, job, 1);
    if r.Err? {
      return;
    }
    i := PutNumber(buf, r.value, 1, U64(m.height), job, 0);
    Done(job, buf[..], i);
    r := Ok(end - i);
  }

  method MarshalLightHeader(tc: SubCodec<Time>, m: LightHeader, buf: array<byte>, end: nat)
    returns (r: Result<nat, Error>)
    requires |LightHeaderBytes(tc, m)| <= end <= buf.Length < TWO_63
    modifies buf
    ensures Marshalled(r, tc.refuses(m.time), old(buf[..]), buf[..], end, LightHeaderBytes(tc, m))
    ensures r.Ok? ==> r.value == LightHeaderSize(tc, m)
  {
    LightHeaderSizeIsLength(tc, m);
    r := FillLightHeader(tc, m, buf, end);
  }

  lemma NestedRoom(job: Job, content: Bytes, i: nat, number: nat, b: Bytes, j: nat)
    requires job.Valid() && j < |job.its| && job.filled(content, i, j + 1)
    requires job.its[j] == MessageItem(number, Some(b))
    ensures |b| <= i <= |content| == |job.orig|
  {
    RoomLeft(job, content, i, j);
    DataItemLength(number, b);
  }

  /** What follows the writing of a nested message up to `i`: its length and tag, unless it was refused. */
  method PutNested(buf: array<byte>, i: nat, number: nat, nested: Result<nat, Error>, ghost refused: bool,
                   ghost b: Bytes, ghost before: Bytes, ghost job: Job, ghost j: nat) returns (r: Result<nat, Error>)
    requires job.Valid() && j < |job.its| && job.filled(before, i, j + 1) && |job.orig| == buf.Length
    requires job.its[j] == MessageItem(number, Some(b)) && Marshalled(nested, refused, before, buf[..], i, b)
    modifies buf
    ensures r.Ok? <==> !refused
    ensures r.Ok? ==> job.filled(buf[..], r.value, j)
    ensures r.Err? ==> Marshalled(r, true, job.orig, buf[..], job.end, BytesFrom(job.its, 0))
  {
    if nested.Err? {
      Refused(job, before, buf[..], i, j + 1);
      return nested;
    }
    var start := PutPrefix(buf, i - nested.value, number, nested.value, i, b, before, job, j);
    return Ok(start);
  }

  predicate LightHeaderRefused(tc: SubCodec<Time>, h: Option<LightHeader>) {
    h.Some? && tc.refuses(h.value.time)
  }

  /** The nested header is written in place first, then its length and tag in front of it. */
  method PutLightHeader(tc: SubCodec<Time>, buf: array<byte>, i: nat, h: Option<LightHeader>,
                        ghost job: Job, ghost j: nat) returns (r: Result<nat, Error>)
    requires job.Valid() && j < |job.its| && job.filled(buf[..], i, j + 1) && |job.orig| == buf.Length
    requires job.its[j] == MessageItem(1, OptionBytes(x => LightHeaderBytes(tc, x), h))
    modifies buf
    ensures r.Ok? <==> !LightHeaderRefused(tc, h)
    ensures r.Ok? ==> job.filled(buf[..], r.value, j)
    ensures r.Err? ==> Marshalled(r, true, job.orig, buf[..], job.end, BytesFrom(job.its, 0))
  {
    if h.None? {
      Absent(job, buf[..], i, j);
      return Ok(i);
    }
    ghost var before, b := buf[..], LightHeaderBytes(tc, h.value);
    assert job.its[j] == MessageItem(1, Some(b));
    NestedRoom(job, before, i, 1, b, j);
    var filled := FillLightHeader(tc, h.value, buf, i);
    r := PutNested(buf, i, 1, filled, tc.refuses(h.value.time), b, before, job, j);
  }

  method PutTrustedHeight(hc: SubCodec<Height>, buf: array<byte>, i: nat, h: Option<Height>,
                          ghost job: Job, ghost j: nat) returns (r: Result<nat, Error>)
    requires job.Valid() && j < |job.its| && job.filled(buf[..], i, j + 1) && |job.orig| == buf.Length
    requires job.its[j] == MessageItem(2, OptionBytes(hc.enc, h))
    modifies buf
    ensures r.Ok? <==> !(h.Some? && hc.refuses(h.value))
    ensures r.Ok? ==> job.filled(buf[..], r.value, j)
    ensures r.Err? ==> Marshalled(r, true, job.orig, buf[..], job.end, BytesFrom(job.its, 0))
  {
    if h.None? {
      Absent(job, buf[..], i, j);
      return Ok(i);
    }
    r := PutForeign(hc, buf, i, 2, h.value, job, j);
  }

  predicate HeaderRefused(hc: SubCodec<Height>, tc: SubCodec<Time>, m: Header) {
    (m.trustedHeight.Some? && hc.refuses(m.trustedHeight.value)) || LightHeaderRefused(tc, m.signedHeader)
  }

  /** Fills the bytes before `end` from back to front. */
  method FillHeader(hc: SubCodec<Height>, tc: SubCodec<Time>, m: Header, buf: array<byte>, end: nat)
    returns (r: Result<nat, Error>)
    requires |HeaderBytes(hc, tc, m)| <= end <= buf.Length < TWO_63
    modifies buf
    ensures Marshalled(r, HeaderRefused(hc, tc, m), old(buf[..]), buf[..], end, HeaderBytes(hc, tc, m))
  {
    ghost var job := Start(HeaderItems(hc, tc, m), end, buf[..]);
    var i := PutBytes(buf, end, 3, m.zeroKnowledgeProof, job, 2);
    r := PutTrustedHeight(hc, buf, i, m.trustedHeight, job, 1);
    if r.Err? {
      return;
    }
    r := PutLightHeader(tc, buf, r.value, m.signedHeader, job, 0);
    if r.Err? {
      return;
    }
    Done(job, buf[..], r.value);
    r := Ok(end - r.value);
  }

  method MarshalHeader(hc: SubCodec<Height>, tc: SubCodec<Time>, m: Header, buf: array<byte>, end: nat)
    returns (r: Result<nat, Error>)
    requires |HeaderBytes(hc, tc, m)| <= end <= buf.Length < TWO_63
    modifies buf
    ensures Marshalled(r, HeaderRefused(hc, tc, m), old(buf[..]), buf[..], end, HeaderBytes(hc, tc, m))
    ensures r.Ok? ==> r.value == HeaderSize(hc, tc, m)
  {
    HeaderSizeIsLength(hc, tc, m);
    r := FillHeader(hc, tc, m, buf, end);
  }

  method PutHeader(hc: SubCodec<Height>, tc: SubCodec<Time>, buf: array<byte>, i: nat, number: nat, h: Option<Header>,
                   ghost job: Job, ghost j: nat) returns (r: Result<nat, Error>)
    requires job.Valid() && j < |job.its| && job.filled(buf[..], i, j + 1) && |job.orig| == buf.Length
    requires job.its[j] == MessageItem(number, OptionBytes(x => HeaderBytes(hc, tc, x), h))
    modifies buf
    ensures r.Ok? <==> !(h.Some? && HeaderRefused(hc, tc, h.value))
    ensures r.Ok? ==> job.filled(buf[..], r.value, j)
    ensures r.Err? ==> Marshalled(r, true, job.orig, buf[..], job.end, BytesFrom(job.its, 0))
  {
    if h.None? {
      Absent(job, buf[..], i, j);
      return Ok(i);
    }
    ghost var before, b := buf[..], HeaderBytes(hc, tc, h.value);
    assert job.its[j] == MessageItem(number, Some(b));
    NestedRoom(job, before, i, number, b, j);
    var filled := FillHeader(hc, tc, h.value, buf, i);
    r := PutNested(buf, i, number, filled, HeaderRefused(hc, tc, h.value), b, before, job, j);
  }

  predicate MisbehaviourRefused(hc: SubCodec<Height>, tc: SubCodec<Time>, m: Misbehaviour) {
    (m.header2.Some? && HeaderRefused(hc, tc, m.header2.value))
    || (m.header1.Some? && HeaderRefused(hc, tc, m.header1.value))
  }

  /** Fills the bytes before `end` from back to front. */
  method FillMisbehaviour(hc: SubCodec<Height>, tc: SubCodec<Time>, m: Misbehaviour, buf: array<byte>, end: nat)
    returns (r: Result<nat, Error>)
    requires |MisbehaviourBytes(hc, tc, m)| <= end <= buf.Length < TWO_63
    modifies buf
    ensures Marshalled(r, MisbehaviourRefused(hc, tc, m),
                       old(buf[..]), buf[..], end, MisbehaviourBytes(hc, tc, m))
  {
    ghost var job := Start(MisbehaviourItems(hc, tc, m), end, buf[..]);
    r := PutHeader(hc, tc, buf, end, 2, m.header2, job, 1);
    if r.Err? {
      return;
    }
    r := PutHeader(hc, tc, buf, r.value, 1, m.header1, job, 0);
    if r.Err? {
      return;
    }
    Done(job, buf[..], r.value);
    r := Ok(end - r.value);
  }

  method MarshalMisbehaviour(hc: SubCodec<Height>, tc: SubCodec<Time>, m: Misbehaviour, buf: array<byte>, end: nat)
    returns (r: Result<nat, Error>)
    requires |MisbehaviourBytes(hc, tc, m)| <= end <= buf.Length < TWO_63
    modifies buf
    ensures Marshalled(r, MisbehaviourRefused(hc, tc, m),
                       old(buf[..]), buf[..], end, MisbehaviourBytes(hc, tc, m))
    ensures r.Ok? ==> r.value == MisbehaviourSize(hc, tc, m)
  {
    MisbehaviourSizeIsLength(hc, tc, m);
    r := FillMisbehaviour(hc, tc, m, buf, end);
  }

  // ---------- over the wire ----------

  /** A buffer that has exactly the right size is filled completely. */
  lemma ExactFit(before: Bytes, b: Bytes)
    requires |before| == |b|
    ensures Splice(before, 0, b) == b
  {
  }

  /** Marshal into a buffer of exactly `Size` bytes, then unmarshal into a fresh message. */
  method ClientStateOverTheWire(hc: SubCodec<Height>, m: ClientState) returns (r: Result<ClientState, Error>)
    requires |ClientStateBytes(hc, m)| < TWO_63
    requires RoundTripsAt(hc, ZERO_HEIGHT, m.frozenHeight) && RoundTripsAt(hc, ZERO_HEIGHT, m.latestHeight)
    ensures r == if hc.refuses(m.latestHeight) || hc.refuses(m.frozenHeight) then Err(BadSubMessage) else Ok(m)
  {
    ClientStateSizeIsLength(hc, m);
    var buf := new byte[ClientStateSize(hc, m)];
    ghost var before := buf[..];
    var n := MarshalClientState(hc, m, buf, buf.Length);
    if n.Err? {
      return Err(n.error);
    }
    ExactFit(before, ClientStateBytes(hc, m));
    ClientStateRoundTrip(hc, m);
    var decoded, _ := Wire.Unmarshal(ClientStateSchema(hc), ZERO_CLIENT_STATE, buf[..]);
    r := decoded;
  }

  method MisbehaviourOverTheWire(hc: SubCodec<Height>, tc: SubCodec<Time>, m: Misbehaviour)
    returns (r: Result<Misbehaviour, Error>)
    requires |MisbehaviourBytes(hc, tc, m)| < TWO_63
    requires m.header1.Some? ==> HeaderParts(hc, tc, m.header1.value)
    requires m.header2.Some? ==> HeaderParts(hc, tc, m.header2.value)
    ensures r == if MisbehaviourRefused(hc, tc, m) then Err(BadSubMessage) else Ok(m)
  {
    MisbehaviourSizeIsLength(hc, tc, m);
    var buf := new byte[MisbehaviourSize(hc, tc, m)];
    ghost var before := buf[..];
    var n := MarshalMisbehaviour(hc, tc, m, buf, buf.Length);
    if n.Err? {
      return Err(n.error);
    }
    ExactFit(before, MisbehaviourBytes(hc, tc, m));
    MisbehaviourRoundTrip(hc, tc, m);
    var decoded, _ := Wire.Unmarshal(MisbehaviourSchema(hc, tc), ZERO_MISBEHAVIOUR, buf[..]);
    r := decoded;
  }
}
