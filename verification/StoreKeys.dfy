/**
 Keys of one client's store. Consensus states live under decimal text keys whose byte order is
 not the height order; the iteration keys carry the height in sixteen big-endian bytes.
 */
module StoreKeys {
  import opened Ints
  import opened BigEndian
  import opened Types

  const CLIENT_STATE_KEY: Bytes := Ascii("clientState")
  const CONSENSUS_PREFIX: Bytes := Ascii("consensusStates/")
  const PROCESSED_TIME: Bytes := Ascii("/processedTime")
  const PROCESSED_HEIGHT: Bytes := Ascii("/processedHeight")
  const ITERATE_PREFIX: Bytes := Ascii("iterateConsensusStates")
  const DASH: byte := 45

  /** Decimal text without leading zeros. */
  function Decimal(n: nat): (r: Bytes)
    ensures |r| > 0
  {
    if n < 10 then [48 + n] else Decimal(n / 10) + [48 + n % 10]
  }

  predicate IsDigit(b: byte) {
    48 <= b < 58
  }

  lemma {:induction false} DecimalDigits(n: nat)
    ensures forall b <- Decimal(n) :: IsDigit(b)
  {
    if n >= 10 {
      DecimalDigits(n / 10);
    }
  }

  lemma {:induction false} DecimalInjective(a: nat, b: nat)
    requires Decimal(a) == Decimal(b)
    ensures a == b
  {
    var x, y := Decimal(a), Decimal(b);
    assert x[|x| - 1] == y[|y| - 1];
    if a >= 10 && b >= 10 {
      assert x[..|x| - 1] == Decimal(a / 10);
      assert y[..|y| - 1] == Decimal(b / 10);
      DecimalInjective(a / 10, b / 10);
    }
  }

  /** Nothing, or something that cannot continue a decimal number. */
  predicate EndsNumber(s: Bytes) {
    s == [] || !IsDigit(s[0])
  }

  lemma DecimalDelimited(a: nat, s: Bytes, b: nat, t: Bytes)
    requires EndsNumber(s) && EndsNumber(t)
    requires Decimal(a) + s == Decimal(b) + t
    ensures a == b && s == t
  {
    DecimalDigits(a);
    DecimalDigits(b);
    var x, y := Decimal(a), Decimal(b);
    var whole := x + s;
    assert forall i | 0 <= i < |x| :: whole[i] == x[i] && x[i] in x;
    assert forall i | 0 <= i < |y| :: whole[i] == y[i] && y[i] in y;
    assert |x| < |whole| ==> !IsDigit(whole[|x|]);
    assert |y| < |whole| ==> !IsDigit(whole[|y|]);
    assert x == whole[..|x|] == y;
    assert s == whole[|x|..] == t;
    DecimalInjective(a, b);
  }

  function HeightText(h: Height): Bytes {
    Decimal(h.revisionNumber) + [DASH] + Decimal(h.revisionHeight)
  }

  function ConsensusStateKey(h: Height): Bytes {
    CONSENSUS_PREFIX + HeightText(h)
  }

  function ProcessedTimeKey(h: Height): Bytes {
    ConsensusStateKey(h) + PROCESSED_TIME
  }

  function ProcessedHeightKey(h: Height): Bytes {
    ConsensusStateKey(h) + PROCESSED_HEIGHT
  }

  lemma SamePrefix(p: Bytes, u: Bytes, v: Bytes)
    requires p + u == p + v
    ensures u == v
  {
    assert (p + u)[|p|..] == u && (p + v)[|p|..] == v;
  }

  lemma KeyText(h: Height, s: Bytes)
    ensures ConsensusStateKey(h) + s
         == CONSENSUS_PREFIX + (Decimal(h.revisionNumber) + ([DASH] + (Decimal(h.revisionHeight) + s)))
  {
    Regroup(CONSENSUS_PREFIX, Decimal(h.revisionNumber), [DASH], Decimal(h.revisionHeight), s);
  }

  lemma Regroup(p: Bytes, a: Bytes, dash: Bytes, b: Bytes, s: Bytes)
    ensures p + (a + dash + b) + s == p + (a + (dash + (b + s)))
  {
  }

  /** The text keys of different heights, and of different kinds, never meet. */
  lemma TextKeysInjective(a: Height, s: Bytes, b: Height, t: Bytes)
    requires EndsNumber(s) && EndsNumber(t)
    requires ConsensusStateKey(a) + s == ConsensusStateKey(b) + t
    ensures a == b && s == t
  {
    KeyText(a, s);
    KeyText(b, t);
    var x, y := Decimal(a.revisionHeight) + s, Decimal(b.revisionHeight) + t;
    SamePrefix(CONSENSUS_PREFIX, Decimal(a.revisionNumber) + ([DASH] + x), Decimal(b.revisionNumber) + ([DASH] + y));
    DecimalDelimited(a.revisionNumber, [DASH] + x, b.revisionNumber, [DASH] + y);
    SamePrefix([DASH], x, y);
    DecimalDelimited(a.revisionHeight, s, b.revisionHeight, t);
  }

  function BigEndianHeightBytes(h: Height): (r: Bytes)
    ensures |r| == 16
  {
    ToBytes(h.revisionNumber, 8) + ToBytes(h.revisionHeight, 8)
  }

  function IterationKey(h: Height): (r: Bytes)
    ensures |r| == |ITERATE_PREFIX| + 16
  {
    ITERATE_PREFIX + BigEndianHeightBytes(h)
  }

  lemma Pow256()
    ensures Pow(256, 8) == TWO_64
  {
    assert Pow(256, 2) == 0x1_0000;
    assert Pow(256, 4) == 0x1_0000_0000;
    assert Pow(256, 6) == 0x1_0000_0000_0000;
  }

  /** The height that an iteration key refers to. */
  function HeightFromIterationKey(k: Bytes): (h: Height)
    requires |k| == |ITERATE_PREFIX| + 16
  {
    var be := k[|ITERATE_PREFIX|..];
    EncodeDecode(be[..8]);
    EncodeDecode(be[8..]);
    Pow256();
    Height(FromBytes(be[..8]), FromBytes(be[8..]))
  }

  /** Reading an iteration key back gives the height it was made from, and the other way round. */
  lemma IterationKeyRoundTrip(h: Height)
    ensures HeightFromIterationKey(IterationKey(h)) == h
  {
    Pow256();
    DecodeEncode(h.revisionNumber, 8);
    DecodeEncode(h.revisionHeight, 8);
    var be := IterationKey(h)[|ITERATE_PREFIX|..];
    assert be == BigEndianHeightBytes(h);
    assert be[..8] == ToBytes(h.revisionNumber, 8);
    assert be[8..] == ToBytes(h.revisionHeight, 8);
  }

  lemma IterationKeyOnto(k: Bytes)
    requires |k| == |ITERATE_PREFIX| + 16 && ITERATE_PREFIX <= k
    ensures IterationKey(HeightFromIterationKey(k)) == k
  {
    var be := k[|ITERATE_PREFIX|..];
    EncodeDecode(be[..8]);
    EncodeDecode(be[8..]);
    assert be == be[..8] + be[8..];
    assert k == ITERATE_PREFIX + be;
  }

  lemma {:induction false} LexConcat(a: Bytes, x: Bytes, b: Bytes, y: Bytes)
    requires |a| == |b|
    ensures LexLess(a + x, b + y) <==> LexLess(a, b) || (a == b && LexLess(x, y))
  {
    if a == [] {
      assert a + x == x && b + y == y;
    } else {
      assert (a + x)[1..] == a[1..] + x && (b + y)[1..] == b[1..] + y;
      LexConcat(a[1..], x, b[1..], y);
      assert a == [a[0]] + a[1..] && b == [b[0]] + b[1..];
    }
  }

  /** The byte order of the index is the height order. */
  lemma IndexOrderIsHeightOrder(a: Height, b: Height)
    ensures LexLess(BigEndianHeightBytes(a), BigEndianHeightBytes(b)) <==> a.LT(b)
  {
    Pow256();
    DecodeEncode(a.revisionNumber, 8);
    DecodeEncode(b.revisionNumber, 8);
    DecodeEncode(a.revisionHeight, 8);
    DecodeEncode(b.revisionHeight, 8);
    OrderIsNumeric(ToBytes(a.revisionNumber, 8), ToBytes(b.revisionNumber, 8));
    OrderIsNumeric(ToBytes(a.revisionHeight, 8), ToBytes(b.revisionHeight, 8));
    LexConcat(ToBytes(a.revisionNumber, 8), ToBytes(a.revisionHeight, 8),
              ToBytes(b.revisionNumber, 8), ToBytes(b.revisionHeight, 8));
  }

  // ---------- the laws that the store relies on ----------

  datatype KeyId =
    | ClientId
    | ConsensusId(height: Height)
    | ProcessedTimeId(height: Height)
    | ProcessedHeightId(height: Height)
    | IterationId(height: Height)

  function KeyOf(id: KeyId): Bytes {
    match id
    case ClientId => CLIENT_STATE_KEY
    case ConsensusId(h) => ConsensusStateKey(h)
    case ProcessedTimeId(h) => ProcessedTimeKey(h)
    case ProcessedHeightId(h) => ProcessedHeightKey(h)
    case IterationId(h) => IterationKey(h)
  }

  /** Keys, the prefix of the iteration keys, and how a height is read back from one. */
  datatype KeyScheme = KeyScheme(key: KeyId -> Bytes, prefix: Bytes, heightOf: Bytes -> Height)
  {
    ghost predicate Apart(a: KeyId, b: KeyId) {
      key(a) == key(b) ==> a == b
    }

    ghost predicate Marked(id: KeyId) {
      prefix <= key(id) <==> id.IterationId?
    }

    ghost predicate ReadsBack(h: Height) {
      heightOf(key(IterationId(h))) == h
    }

    ghost predicate Sorted(a: Height, b: Height) {
      LexLess(key(IterationId(a)), key(IterationId(b))) <==> a.LT(b)
    }

    /** No two keys meet, the prefix marks the iteration keys, and these sort by height. */
    ghost predicate Lawful() {
      && (forall a, b :: Apart(a, b))
      && (forall id :: Marked(id))
      && (forall h :: ReadsBack(h))
      && (forall a, b :: Sorted(a, b))
    }
  }

  const KEYS := KeyScheme(
    id => KeyOf(id),
    ITERATE_PREFIX,
    k => if |k| == |ITERATE_PREFIX| + 16 then HeightFromIterationKey(k) else ZERO_HEIGHT)

  function TextSuffix(id: KeyId): (s: Bytes) {
    match id
    case ProcessedTimeId(_) => PROCESSED_TIME
    case ProcessedHeightId(_) => PROCESSED_HEIGHT
    case _ => []
  }

  lemma PrefixMarksIterationKeys(id: KeyId)
    ensures ITERATE_PREFIX <= KeyOf(id) <==> id.IterationId?
    ensures |KeyOf(id)| > 1 && (id.ClientId? <==> KeyOf(id)[1] == 108)
  {
    var i, c := ITERATE_PREFIX, CONSENSUS_PREFIX;
    assert i[0] == 105 && i[1] == 116 && c[0] == 99 && c[1] == 111;
    assert CLIENT_STATE_KEY[0] == 99 && CLIENT_STATE_KEY[1] == 108;
    if id.IterationId? {
      assert IterationKey(id.height)[1] == i[1];
    } else if !id.ClientId? {
      var k := ConsensusStateKey(id.height) + TextSuffix(id);
      assert k[0] == c[0] && k[1] == c[1];
      assert KeyOf(id) == k;
    }
  }

  lemma KeysInjective(a: KeyId, b: KeyId)
    requires KeyOf(a) == KeyOf(b)
    ensures a == b
  {
    PrefixMarksIterationKeys(a);
    PrefixMarksIterationKeys(b);
    if a.IterationId? {
      IterationKeyRoundTrip(a.height);
      IterationKeyRoundTrip(b.height);
    } else if !a.ClientId? {
      assert PROCESSED_TIME[0] == 47 && PROCESSED_HEIGHT[0] == 47;
      assert |PROCESSED_TIME| != |PROCESSED_HEIGHT|;
      var s, t := TextSuffix(a), TextSuffix(b);
      assert KeyOf(a) == ConsensusStateKey(a.height) + s && KeyOf(b) == ConsensusStateKey(b.height) + t;
      TextKeysInjective(a.height, s, b.height, t);
    }
  }

  /** The keys of the source obey the laws. */
  lemma KeysAreLawful()
    ensures KEYS.Lawful()
  {
    forall a, b
      ensures KEYS.Apart(a, b)
    {
      if KEYS.key(a) == KEYS.key(b) {
        KeysInjective(a, b);
      }
    }
    forall id
      ensures KEYS.Marked(id)
    {
      PrefixMarksIterationKeys(id);
    }
    forall h
      ensures KEYS.ReadsBack(h)
    {
      IterationKeyRoundTrip(h);
    }
    forall a, b
      ensures KEYS.Sorted(a, b)
    {
      LexCommonPrefix(ITERATE_PREFIX, BigEndianHeightBytes(a), BigEndianHeightBytes(b));
      IndexOrderIsHeightOrder(a, b);
    }
  }

  // ---------- the keys as texts ----------

  predicate Spells(b: Bytes, text: string) {
    |b| == |text| && forall i | 0 <= i < |b| :: b[i] == text[i] as int
  }

  function DecimalValue(b: Bytes): int {
    if b == [] then 0 else 10 * DecimalValue(b[..|b| - 1]) + b[|b| - 1] - 48
  }

  /** Digits without a leading zero that stand for the number. */
  lemma {:induction false} DecimalMeans(n: nat)
    ensures DecimalValue(Decimal(n)) == n
    ensures forall b <- Decimal(n) :: IsDigit(b)
    ensures n > 0 ==> Decimal(n)[0] != 48
  {
    DecimalDigits(n);
    if n >= 10 {
      DecimalMeans(n / 10);
      assert Decimal(n)[..|Decimal(n)| - 1] == Decimal(n / 10);
    } else {
      assert DecimalValue([48 + n]) == 10 * DecimalValue([48 + n][..0]) + n;
    }
  }

  lemma Spelled(text: string)
    requires forall i | 0 <= i < |text| :: text[i] as int < 256
    ensures Spells(Ascii(text), text)
  {
  }

  /** The words in the keys. */
  lemma KeyWords()
    ensures Spells(CLIENT_STATE_KEY, "clientState") && Spells(CONSENSUS_PREFIX, "consensusStates/")
    ensures Spells(PROCESSED_TIME, "/processedTime") && Spells(PROCESSED_HEIGHT, "/processedHeight")
    ensures Spells(ITERATE_PREFIX, "iterateConsensusStates") && [DASH] == ['-' as int]
  {
    Spelled("clientState");
    Spelled("consensusStates/");
    Spelled("/processedTime");
    Spelled("/processedHeight");
    Spelled("iterateConsensusStates");
  }

  /** The keys of one height: the words of `KeyWords` around the two numbers. */
  lemma KeyTexts(h: Height)
    ensures KeyOf(ClientId) == CLIENT_STATE_KEY
    ensures KeyOf(ConsensusId(h)) == CONSENSUS_PREFIX + (Decimal(h.revisionNumber) + [DASH] + Decimal(h.revisionHeight))
    ensures KeyOf(ProcessedTimeId(h)) == KeyOf(ConsensusId(h)) + PROCESSED_TIME
    ensures KeyOf(ProcessedHeightId(h)) == KeyOf(ConsensusId(h)) + PROCESSED_HEIGHT
  {
  }

  lemma TwoWords(prefix: Bytes, a: Bytes, b: Bytes)
    requires |a| == 8
    ensures var k := prefix + (a + b);
            k[..|prefix|] == prefix && k[|prefix|..|prefix| + 8] == a && k[|prefix| + 8..] == b
  {
  }

  /** The prefix and then both numbers, most significant byte first, in eight bytes each. */
  lemma IterationKeyText(h: Height)
    ensures var k, n := KeyOf(IterationId(h)), |ITERATE_PREFIX|;
            |k| == n + 16 && k[..n] == ITERATE_PREFIX
            && FromBytes(k[n..n + 8]) == h.revisionNumber && FromBytes(k[n + 8..]) == h.revisionHeight
  {
    Pow256();
    DecodeEncode(h.revisionNumber, 8);
    DecodeEncode(h.revisionHeight, 8);
    TwoWords(ITERATE_PREFIX, ToBytes(h.revisionNumber, 8), ToBytes(h.revisionHeight, 8));
  }

  /** These are the keys that a store uses. */
  lemma KeysInUse(id: KeyId)
    ensures KEYS.key(id) == KeyOf(id) && KEYS.prefix == ITERATE_PREFIX
  {
  }
}
