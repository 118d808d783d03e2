/** Laws of the tag loop: concatenated inputs merge in turn, and unknown fields change nothing. */
module WireLaws {
  import opened Ints
  import opened Options
  import opened Varint
  import opened Wire

  // ---------- a decoded prefix is decoded the same way in a longer input ----------

  lemma ReadIn(d: Bytes, q: Bytes, i: nat)
    requires i <= |d| && d <= q && Read(d[i..], 0).Ok?
    ensures Read(q[i..], 0) == Read(d[i..], 0)
  {
    ReadLocal(d[i..], 0, q[|d|..]);
    assert q[i..] == d[i..] + q[|d|..];
  }

  lemma PayloadLocal(d: Slice, q: Slice, j: nat, wireType: nat, depth: nat)
    requires j <= |d| && d <= q && PayloadEnd(d, j, wireType, depth).Ok?
    ensures PayloadEnd(q, j, wireType, depth) == PayloadEnd(d, j, wireType, depth)
  {
    if wireType == 0 || wireType == 2 {
      ReadIn(d, q, j);
    }
  }

  /** The results of skipping `d` from every index and depth, as a function value. */
  type Ends = (nat, nat) -> Result<nat, Error>

  ghost predicate EndsAt(f: Ends, d: Slice, i: nat, depth: nat) {
    f(i, depth) == FieldEnd(d, i, depth)
  }

  ghost predicate AreEnds(f: Ends, d: Slice) {
    forall i: nat, depth: nat :: EndsAt(f, d, i, depth)
  }

  function AfterField(f: Ends, k: nat, depth: nat): Result<nat, Error> {
    if depth == 0 then Ok(k) else f(k, depth)
  }

  lemma SkipStep(f: Ends, d: Slice, i: nat, depth: nat, wire: nat, n: nat, k: nat, depth': nat)
    requires AreEnds(f, d) && i + n <= |d| && Read(d[i..], 0) == Ok((wire, n))
    requires PayloadEnd(d, i + n, wire % 8, depth) == Ok((k, depth'))
    ensures f(i, depth) == AfterField(f, k, depth')
  {
    assert EndsAt(f, d, i, depth) && EndsAt(f, d, k, depth');
  }

  /** What a successful skip did at `i`. */
  lemma SkipInverse(f: Ends, d: Slice, i: nat, depth: nat) returns (wire: nat, n: nat, k: nat, depth': nat)
    requires AreEnds(f, d) && f(i, depth).Ok?
    ensures i < |d| && Read(d[i..], 0) == Ok((wire, n)) && i + n <= |d|
    ensures PayloadEnd(d, i + n, wire % 8, depth) == Ok((k, depth')) && i + n <= k
    ensures f(i, depth) == AfterField(f, k, depth') && k <= f(i, depth).value
  {
    assert EndsAt(f, d, i, depth);
    var tag := Read(d[i..], 0).value;
    wire, n := tag.0, tag.1;
    var next := PayloadEnd(d, i + n, wire % 8, depth).value;
    k, depth' := next.0, next.1;
    assert EndsAt(f, d, k, depth');
  }

  lemma {:induction false} SkipLocal(f: Ends, d: Slice, g: Ends, q: Slice, i: nat, depth: nat)
    requires d <= q && AreEnds(f, d) && AreEnds(g, q) && f(i, depth).Ok?
    ensures g(i, depth) == f(i, depth)
    decreases if i < |d| then |d| - i else 0
  {
    var wire, n, k, depth' := SkipInverse(f, d, i, depth);
    ReadIn(d, q, i);
    PayloadLocal(d, q, i + n, wire % 8, depth);
    SkipStep(g, q, i, depth, wire, n, k, depth');
    if depth' != 0 {
      SkipLocal(f, d, g, q, k, depth');
    }
  }

  lemma FieldEndLocal(d: Slice, q: Slice)
    requires d <= q && FieldEnd(d, 0, 0).Ok?
    ensures FieldEnd(q, 0, 0) == FieldEnd(d, 0, 0)
  {
    var f: Ends := (i, depth) => FieldEnd(d, i, depth);
    var g: Ends := (i, depth) => FieldEnd(q, i, depth);
    assert AreEnds(f, d) && AreEnds(g, q);
    SkipLocal(f, d, g, q, 0, 0);
  }

  lemma NumberLocal<M>(s: Schema<M>, m: M, d: Slice, q: Slice, j: nat, number: int, wireType: nat)
    requires j <= |d| && d <= q && NumberField(s, m, d, j, number, wireType).Ok?
    ensures NumberField(s, m, q, j, number, wireType) == NumberField(s, m, d, j, number, wireType)
  {
    ReadIn(d, q, j);
  }

  /** A length that runs past the input: an overflowing index and a late end are two errors for it. */
  predicate TooLong(e: Error) {
    e.InvalidLength? || e.UnexpectedEof?
  }

  /** A slice inside the input is assigned. */
  lemma SliceAssigned<M>(s: Schema<M>, m: M, d: Slice, start: nat, length: nat, number: int)
    requires start + length <= |d|
    ensures var one := s.assign(m, number, Data(d[start..start + length]));
            SlicedField(s, m, d, start, length, number)
            == if one.Ok? then Ok((one.value, start + length)) else Err(one.error)
  {
  }

  /** A length that is negative or runs past the input is refused. */
  lemma SliceRefused<M>(s: Schema<M>, m: M, d: Slice, start: nat, length: i64, number: int)
    requires start <= |d| && (length < 0 || start + length > |d|)
    ensures var r := SlicedField(s, m, d, start, length, number);
            r.Err? && TooLong(r.error) && (length < 0 ==> r.error.InvalidLength?)
  {
  }

  lemma SlicedLocal<M>(s: Schema<M>, m: M, d: Slice, q: Slice, start: nat, length: i64, number: int)
    requires start <= |d| && d <= q && SlicedField(s, m, d, start, length, number).Ok?
    ensures SlicedField(s, m, q, start, length, number) == SlicedField(s, m, d, start, length, number)
  {
    if 0 <= length && start + length <= |d| {
      assert q[start..start + length] == d[start..start + length];
      SliceAssigned(s, m, d, start, length, number);
      SliceAssigned(s, m, q, start, length, number);
    } else {
      SliceRefused(s, m, d, start, length, number);
    }
  }

  lemma DataLocal<M>(s: Schema<M>, m: M, d: Slice, q: Slice, j: nat, number: int, wireType: nat)
    requires j <= |d| && d <= q && DataField(s, m, d, j, number, wireType).Ok?
    ensures DataField(s, m, q, j, number, wireType) == DataField(s, m, d, j, number, wireType)
  {
    ReadIn(d, q, j);
    var (v, k) := Read(d[j..], 0).value;
    SlicedLocal(s, m, d, q, j + k, I64(v), number);
  }

  lemma SkippedLocal<M>(m: M, d: Slice, q: Slice, i: nat)
    requires i < |d| && d <= q && SkippedField(m, d, i).Ok?
    ensures SkippedField(m, q, i) == SkippedField(m, d, i)
  {
    assert d[i..] <= q[i..];
    FieldEndLocal(d[i..], q[i..]);
  }

  lemma TaggedLocal<M>(s: Schema<M>, m: M, d: Slice, q: Slice, i: nat, j: nat, wire: nat)
    requires i < j <= |d| && d <= q && TaggedField(s, m, d, i, j, wire).Ok?
    ensures TaggedField(s, m, q, i, j, wire) == TaggedField(s, m, d, i, j, wire)
  {
    var number, wireType := I32(wire / 8), wire % 8;
    match s.kind(number)
    case VarintField => NumberLocal(s, m, d, q, j, number, wireType);
    case BytesField => DataLocal(s, m, d, q, j, number, wireType);
    case UnknownField => SkippedLocal(m, d, q, i);
  }

  lemma FieldStep<M>(s: Schema<M>, m: M, d: Slice, i: nat, r: Result<(nat, nat), Error>)
    requires i < |d| && r == Read(d[i..], 0)
    ensures Field(s, m, d, i) == if r.Ok? then TaggedField(s, m, d, i, i + r.value.1, r.value.0) else Err(r.error)
  {
  }

  // ---------- the tag loop as function values ----------

  /** What follows a tag, one round, and the outcome from every index, over one input. */
  type Tails<!M> = (M, nat, nat, nat) -> Parsed<M>
  type Rounds<!M> = (M, nat) -> Parsed<M>
  type Outcomes<!M> = (M, nat) -> Result<M, Error>

  ghost predicate TailAt<M>(t: Tails<M>, s: Schema<M>, d: Slice, m: M, i: nat, j: nat, wire: nat) {
    i < j <= |d| ==> t(m, i, j, wire) == TaggedField(s, m, d, i, j, wire)
  }

  ghost predicate RoundAt<M>(f: Rounds<M>, s: Schema<M>, d: Slice, m: M, i: nat) {
    i < |d| ==> f(m, i) == Field(s, m, d, i)
  }

  ghost predicate OutcomeAt<M>(g: Outcomes<M>, s: Schema<M>, d: Slice, m: M, i: nat) {
    i <= |d| ==> g(m, i) == DecodeFrom(s, m, d, i)
  }

  ghost predicate LoopAt<M>(g: Outcomes<M>, f: Rounds<M>, n: nat, m: M, i: nat) {
    i <= n ==>
      && (i < n && f(m, i).Ok? ==> i < f(m, i).value.1 <= n)
      && g(m, i) == if i == n then Ok(m)
                    else if f(m, i).Ok? then g(f(m, i).value.0, f(m, i).value.1)
                    else Err(f(m, i).error)
  }

  ghost predicate IsLoop<M(!new)>(g: Outcomes<M>, f: Rounds<M>, n: nat) {
    forall m: M, i: nat :: LoopAt(g, f, n, m, i)
  }

  /** The three together are the decoder of `s` on `d`. */
  ghost predicate Decodes<M(!new)>(g: Outcomes<M>, f: Rounds<M>, t: Tails<M>, s: Schema<M>, d: Slice) {
    && IsLoop(g, f, |d|)
    && (forall m: M, i: nat, j: nat, wire: nat :: TailAt(t, s, d, m, i, j, wire))
    && (forall m: M, i: nat :: RoundAt(f, s, d, m, i))
    && (forall m: M, i: nat :: OutcomeAt(g, s, d, m, i))
  }

  lemma DecodeStep<M>(s: Schema<M>, m: M, d: Slice, i: nat, one: Parsed<M>)
    requires i < |d| && one == Field(s, m, d, i)
    ensures DecodeFrom(s, m, d, i) == if one.Ok? then DecodeFrom(s, one.value.0, d, one.value.1) else Err(one.error)
  {
  }

  lemma DecoderLoop<M(!new)>(s: Schema<M>, d: Slice, g: Outcomes<M>, f: Rounds<M>, m: M, i: nat)
    requires forall m: M, i: nat :: RoundAt(f, s, d, m, i)
    requires forall m: M, i: nat :: OutcomeAt(g, s, d, m, i)
    ensures LoopAt(g, f, |d|, m, i)
  {
    assert OutcomeAt(g, s, d, m, i) && RoundAt(f, s, d, m, i);
    if i < |d| {
      var one := Field(s, m, d, i);
      DecodeStep(s, m, d, i, one);
      assert one.Ok? ==> OutcomeAt(g, s, d, one.value.0, one.value.1);
    }
  }

  lemma DecoderOf<M(!new)>(s: Schema<M>, d: Slice) returns (g: Outcomes<M>, f: Rounds<M>, t: Tails<M>)
    ensures Decodes(g, f, t, s, d)
  {
    t := (m: M, i: nat, j: nat, wire: nat) =>
      if i < j <= |d| then TaggedField(s, m, d, i, j, wire) else Err(UnexpectedEof);
    f := (m: M, i: nat) => if i < |d| then Field(s, m, d, i) else Err(UnexpectedEof);
    g := (m: M, i: nat) => if i <= |d| then DecodeFrom(s, m, d, i) else Err(UnexpectedEof);
    forall m: M, i: nat
      ensures LoopAt(g, f, |d|, m, i)
    {
      DecoderLoop(s, d, g, f, m, i);
    }
  }

  /** A round reads the tag and goes on with what follows it. */
  lemma RoundStep<M(!new)>(g: Outcomes<M>, f: Rounds<M>, t: Tails<M>, s: Schema<M>, d: Slice, m: M, i: nat,
                           r: Result<(nat, nat), Error>)
    requires Decodes(g, f, t, s, d) && i < |d| && r == Read(d[i..], 0)
    ensures f(m, i) == if r.Ok? then t(m, i, i + r.value.1, r.value.0) else Err(r.error)
  {
    FieldStep(s, m, d, i, r);
    assert RoundAt(f, s, d, m, i);
    assert r.Ok? ==> TailAt(t, s, d, m, i, i + r.value.1, r.value.0);
  }

  // ---------- whole inputs in longer ones ----------

  lemma TailLocal<M(!new)>(g: Outcomes<M>, f: Rounds<M>, t: Tails<M>, g': Outcomes<M>, f': Rounds<M>, t': Tails<M>,
                           s: Schema<M>, d: Slice, q: Slice, m: M, i: nat, j: nat, wire: nat)
    requires Decodes(g, f, t, s, d) && Decodes(g', f', t', s, q) && d <= q && i < j <= |d| && t(m, i, j, wire).Ok?
    ensures t'(m, i, j, wire) == t(m, i, j, wire)
  {
    assert TailAt(t, s, d, m, i, j, wire) && TailAt(t', s, q, m, i, j, wire);
    TaggedLocal(s, m, d, q, i, j, wire);
  }

  lemma RoundLocal<M(!new)>(g: Outcomes<M>, f: Rounds<M>, t: Tails<M>, g': Outcomes<M>, f': Rounds<M>, t': Tails<M>,
                            s: Schema<M>, d: Slice, q: Slice, m: M, i: nat)
    requires Decodes(g, f, t, s, d) && Decodes(g', f', t', s, q) && d <= q && i < |d| && f(m, i).Ok?
    ensures f'(m, i) == f(m, i)
  {
    var r := Read(d[i..], 0);
    RoundStep(g, f, t, s, d, m, i, r);
    ReadIn(d, q, i);
    RoundStep(g', f', t', s, q, m, i, r);
    TailLocal(g, f, t, g', f', t', s, d, q, m, i, i + r.value.1, r.value.0);
  }

  lemma {:induction false} LoopLocal<M(!new)>(g: Outcomes<M>, f: Rounds<M>, t: Tails<M>,
                                              g': Outcomes<M>, f': Rounds<M>, t': Tails<M>,
                                              s: Schema<M>, d: Slice, q: Slice, m: M, i: nat)
    requires Decodes(g, f, t, s, d) && Decodes(g', f', t', s, q) && d <= q && i <= |d| && g(m, i).Ok?
    ensures g'(m, i) == g'(g(m, i).value, |d|)
    decreases |d| - i
  {
    assert LoopAt(g, f, |d|, m, i) && LoopAt(g', f', |q|, m, i);
    if i < |d| {
      RoundLocal(g, f, t, g', f', t', s, d, q, m, i);
      LoopLocal(g, f, t, g', f', t', s, d, q, f(m, i).value.0, f(m, i).value.1);
    }
  }

  // ---------- the position in the input does not matter ----------

  /** The same error, except that the two errors of a length past the input count as one. */
  predicate SameError(e: Error, f: Error) {
    e == f || (TooLong(e) && TooLong(f))
  }

  /** Both succeed with the same value, or both fail with the same error. */
  predicate Same<M(==)>(a: Result<M, Error>, b: Result<M, Error>) {
    if a.Ok? then a == b else b.Err? && SameError(a.error, b.error)
  }

  ghost predicate Moved<M>(a: Result<(M, nat), Error>, b: Result<(M, nat), Error>, offset: nat) {
    if a.Ok? then b.Ok? && a.value == (b.value.0, b.value.1 + offset) else b.Err? && SameError(a.error, b.error)
  }

  // In what follows `d` is the rest of `q` from `offset` on, and primed indices are those in `q`.

  ghost predicate IsRest(q: Bytes, offset: nat, d: Bytes) {
    offset <= |q| && q[offset..] == d
  }

  lemma RestOf(q: Bytes, offset: nat, d: Bytes, i: nat, i': nat)
    requires IsRest(q, offset, d) && i <= |d| && i' == offset + i
    ensures q[i'..] == d[i..]
  {
  }

  lemma SliceOf(q: Bytes, offset: nat, d: Bytes, i: nat, i': nat, length: nat)
    requires IsRest(q, offset, d) && i + length <= |d| && i' == offset + i
    ensures i' + length <= |q| && q[i'..i' + length] == d[i..i + length]
  {
    assert q[offset..][i..i + length] == q[i'..i' + length];
  }

  lemma NumberMoved<M>(s: Schema<M>, m: M, q: Slice, offset: nat, d: Slice, j: nat, j': nat, number: int, wireType: nat)
    requires IsRest(q, offset, d) && j <= |d| && j' == offset + j
    ensures Moved(NumberField(s, m, q, j', number, wireType), NumberField(s, m, d, j, number, wireType), offset)
  {
    RestOf(q, offset, d, j, j');
  }

  lemma SlicedMoved<M>(s: Schema<M>, m: M, q: Slice, offset: nat, d: Slice, j: nat, j': nat, length: i64, number: int)
    requires IsRest(q, offset, d) && j <= |d| && j' == offset + j
    ensures Moved(SlicedField(s, m, q, j', length, number), SlicedField(s, m, d, j, length, number), offset)
  {
    if 0 <= length && j + length <= |d| {
      SliceOf(q, offset, d, j, j', length);
      SliceAssigned(s, m, d, j, length, number);
      SliceAssigned(s, m, q, j', length, number);
    } else {
      SliceRefused(s, m, d, j, length, number);
      SliceRefused(s, m, q, j', length, number);
    }
  }

  lemma DataStep<M>(s: Schema<M>, m: M, d: Slice, j: nat, number: int, v: nat, k: nat)
    requires j <= |d| && Read(d[j..], 0) == Ok((v, k))
    ensures DataField(s, m, d, j, number, 2) == SlicedField(s, m, d, j + k, I64(v), number)
  {
  }

  lemma DataMoved<M>(s: Schema<M>, m: M, q: Slice, offset: nat, d: Slice, j: nat, j': nat, number: int, wireType: nat)
    requires IsRest(q, offset, d) && j <= |d| && j' == offset + j
    ensures Moved(DataField(s, m, q, j', number, wireType), DataField(s, m, d, j, number, wireType), offset)
  {
    RestOf(q, offset, d, j, j');
    if Read(d[j..], 0).Ok? {
      var (v, k) := Read(d[j..], 0).value;
      SlicedMoved(s, m, q, offset, d, j + k, j' + k, I64(v), number);
    }
  }

  lemma SkippedMoved<M>(m: M, q: Slice, offset: nat, d: Slice, i: nat, i': nat)
    requires IsRest(q, offset, d) && i < |d| && i' == offset + i
    ensures Moved(SkippedField(m, q, i'), SkippedField(m, d, i), offset)
  {
    RestOf(q, offset, d, i, i');
  }

  lemma TaggedMoved<M>(s: Schema<M>, m: M, q: Slice, offset: nat, d: Slice, i: nat, i': nat, j: nat, j': nat, wire: nat)
    requires IsRest(q, offset, d) && i < j <= |d| && i' == offset + i && j' == offset + j
    ensures Moved(TaggedField(s, m, q, i', j', wire), TaggedField(s, m, d, i, j, wire), offset)
  {
    var number, wireType := I32(wire / 8), wire % 8;
    match s.kind(number)
    case VarintField => NumberMoved(s, m, q, offset, d, j, j', number, wireType);
    case BytesField => DataMoved(s, m, q, offset, d, j, j', number, wireType);
    case UnknownField => SkippedMoved(m, q, offset, d, i, i');
  }

  lemma MovedSame<M>(a: Parsed<M>, b: Parsed<M>, a': Parsed<M>, b': Parsed<M>, offset: nat)
    requires Moved(a, b, offset) && a == a' && b == b'
    ensures Moved(a', b', offset)
  {
  }

  lemma TailMoved<M(!new)>(g: Outcomes<M>, f: Rounds<M>, t: Tails<M>, g': Outcomes<M>, f': Rounds<M>, t': Tails<M>,
                           s: Schema<M>, q: Slice, offset: nat, d: Slice, m: M,
                           i: nat, i': nat, j: nat, j': nat, wire: nat)
    requires Decodes(g, f, t, s, d) && Decodes(g', f', t', s, q) && IsRest(q, offset, d)
    requires i < j <= |d| && i' == offset + i && j' == offset + j
    ensures Moved(t'(m, i', j', wire), t(m, i, j, wire), offset)
  {
    assert TailAt(t, s, d, m, i, j, wire) && TailAt(t', s, q, m, i', j', wire);
    TaggedMoved(s, m, q, offset, d, i, i', j, j', wire);
    MovedSame(TaggedField(s, m, q, i', j', wire), TaggedField(s, m, d, i, j, wire),
              t'(m, i', j', wire), t(m, i, j, wire), offset);
  }

  lemma RoundMoved<M(!new)>(g: Outcomes<M>, f: Rounds<M>, t: Tails<M>, g': Outcomes<M>, f': Rounds<M>, t': Tails<M>,
                            s: Schema<M>, q: Slice, offset: nat, d: Slice, m: M, i: nat, i': nat)
    requires Decodes(g, f, t, s, d) && Decodes(g', f', t', s, q) && IsRest(q, offset, d)
    requires i < |d| && i' == offset + i
    ensures Moved(f'(m, i'), f(m, i), offset)
  {
    RestOf(q, offset, d, i, i');
    var r := Read(d[i..], 0);
    RoundStep(g, f, t, s, d, m, i, r);
    RoundStep(g', f', t', s, q, m, i', r);
    if r.Ok? {
      var (wire, n) := r.value;
      TailMoved(g, f, t, g', f', t', s, q, offset, d, m, i, i', i + n, i' + n, wire);
    }
  }

  /** The position of the input does not matter for its outcome. */
  lemma {:induction false} LoopMoved<M(!new)>(g: Outcomes<M>, f: Rounds<M>, t: Tails<M>,
                                              g': Outcomes<M>, f': Rounds<M>, t': Tails<M>,
                                              s: Schema<M>, q: Slice, offset: nat, d: Slice, m: M, i: nat, i': nat)
    requires Decodes(g, f, t, s, d) && Decodes(g', f', t', s, q) && IsRest(q, offset, d)
    requires i <= |d| && i' == offset + i
    ensures Same(g'(m, i'), g(m, i))
    decreases |d| - i
  {
    assert LoopAt(g, f, |d|, m, i) && LoopAt(g', f', |q|, m, i');
    if i < |d| {
      RoundMoved(g, f, t, g', f', t', s, q, offset, d, m, i, i');
      if f(m, i).Ok? {
        LoopMoved(g, f, t, g', f', t', s, q, offset, d, f(m, i).value.0, f(m, i).value.1, f'(m, i').value.1);
      }
    }
  }

  /** Main result: decoding a concatenation is decoding the second part into the message of the first. */
  lemma DecodeConcat<M(!new)>(s: Schema<M>, m: M, a: Slice, b: Slice)
    requires |a + b| < TWO_63 && Decode(s, m, a).Ok?
    ensures Same(Decode(s, m, a + b), Decode(s, Decode(s, m, a).value, b))
  {
    var q := a + b;
    var ga, fa, ta := DecoderOf(s, a);
    var gb, fb, tb := DecoderOf(s, b);
    var gq, fq, tq := DecoderOf(s, q);
    assert OutcomeAt(ga, s, a, m, 0) && OutcomeAt(gq, s, q, m, 0);
    var m' := ga(m, 0).value;
    assert OutcomeAt(gb, s, b, m', 0);
    LoopLocal(ga, fa, ta, gq, fq, tq, s, a, q, m, 0);
    LoopMoved(gb, fb, tb, gq, fq, tq, s, q, |a|, b, m', 0, |a|);
  }

  // ---------- the grammar of fields ----------

  /** A field of any message: groups nest, and the end tag need not repeat the field number. */
  datatype Tree =
    | VarintTree(tag: Bytes, value: Bytes)
    | FixedTree(tag: Bytes, value: Bytes)
    | LengthTree(tag: Bytes, length: Bytes, value: Bytes)
    | GroupTree(tag: Bytes, children: seq<Tree>, end: Bytes)

  ghost predicate IsVarint(b: Bytes) {
    Read(b, 0).Ok? && Read(b, 0).value.1 == |b|
  }

  ghost predicate IsTag(b: Bytes, wireType: nat) {
    IsVarint(b) && Read(b, 0).value.0 % 8 == wireType
  }

  ghost predicate WellFormed(t: Tree) {
    match t
    case VarintTree(tag, value) => IsTag(tag, 0) && IsVarint(value)
    case FixedTree(tag, value) => (IsTag(tag, 1) && |value| == 8) || (IsTag(tag, 5) && |value| == 4)
    case LengthTree(tag, length, value) => IsTag(tag, 2) && IsVarint(length) && Read(length, 0).value.0 == |value|
    case GroupTree(tag, children, end) => IsTag(tag, 3) && IsTag(end, 4) && forall c <- children :: WellFormed(c)
  }

  function TreeBytes(t: Tree): Bytes {
    match t
    case VarintTree(tag, value) => tag + value
    case FixedTree(tag, value) => tag + value
    case LengthTree(tag, length, value) => tag + length + value
    case GroupTree(tag, children, end) => tag + ForestBytes(children) + end
  }

  function ForestBytes(ts: seq<Tree>): Bytes {
    if ts == [] then [] else TreeBytes(ts[0]) + ForestBytes(ts[1..])
  }

  ghost predicate AllWellFormed(ts: seq<Tree>) {
    forall t <- ts :: WellFormed(t)
  }

  // ---------- skipping accepts exactly the grammar ----------

  lemma ReadPrefix(d: Bytes, i: nat, b: Bytes)
    requires i <= |d| && IsVarint(b) && b <= d[i..]
    ensures Read(d[i..], 0) == Read(b, 0)
  {
    ReadLocal(b, 0, d[i..][|b|..]);
    assert d[i..] == b + d[i..][|b|..];
  }

  lemma Split(d: Bytes, i: nat, a: Bytes, b: Bytes)
    requires i <= |d| && a + b <= d[i..]
    ensures a <= d[i..] && i + |a| <= |d| && b <= d[i + |a|..]
  {
    assert d[i + |a|..] == d[i..][|a|..];
    assert (a + b)[..|a|] == a && (a + b)[|a|..] == b;
  }

  /** What a leaf looks like at `i`: its tag is read there and the payload ends where the leaf ends. */
  ghost predicate LeafAt(t: Tree, d: Slice, i: nat, depth: nat)
    requires WellFormed(t)
  {
    i + |t.tag| <= |d| && Read(d[i..], 0) == Read(t.tag, 0)
    && PayloadEnd(d, i + |t.tag|, Read(t.tag, 0).value.0 % 8, depth) == Ok((i + |TreeBytes(t)|, depth))
  }

  lemma VarintLeaf(t: Tree, d: Slice, i: nat, depth: nat)
    requires WellFormed(t) && t.VarintTree? && i <= |d| && TreeBytes(t) <= d[i..]
    ensures LeafAt(t, d, i, depth)
  {
    Split(d, i, t.tag, t.value);
    ReadPrefix(d, i, t.tag);
    ReadPrefix(d, i + |t.tag|, t.value);
  }

  lemma FixedLeaf(t: Tree, d: Slice, i: nat, depth: nat)
    requires WellFormed(t) && t.FixedTree? && i <= |d| && TreeBytes(t) <= d[i..]
    ensures LeafAt(t, d, i, depth)
  {
    Split(d, i, t.tag, t.value);
    ReadPrefix(d, i, t.tag);
  }

  lemma LengthEnd(d: Slice, j: nat, n: nat, v: nat, depth: nat)
    requires j <= |d| && Read(d[j..], 0) == Ok((v, n)) && j + n + v <= |d|
    ensures PayloadEnd(d, j, 2, depth) == Ok((j + n + v, depth))
  {
  }

  lemma LengthAt(tag: Bytes, length: Bytes, value: Bytes, d: Slice, i: nat, depth: nat)
    requires IsTag(tag, 2) && IsVarint(length) && Read(length, 0).value.0 == |value|
    requires i <= |d| && tag + length + value <= d[i..]
    ensures i + |tag| <= |d| && Read(d[i..], 0) == Read(tag, 0)
    ensures PayloadEnd(d, i + |tag|, 2, depth) == Ok((i + |tag + length + value|, depth))
  {
    Split(d, i, tag + length, value);
    Split(d, i, tag, length);
    ReadPrefix(d, i, tag);
    ReadPrefix(d, i + |tag|, length);
    LengthEnd(d, i + |tag|, |length|, |value|, depth);
  }

  lemma LengthLeaf(t: Tree, d: Slice, i: nat, depth: nat)
    requires WellFormed(t) && t.LengthTree? && i <= |d| && TreeBytes(t) <= d[i..]
    ensures LeafAt(t, d, i, depth)
  {
    LengthAt(t.tag, t.length, t.value, d, i, depth);
  }

  lemma SkipLeaf(f: Ends, t: Tree, d: Slice, i: nat, depth: nat)
    requires AreEnds(f, d) && WellFormed(t) && !t.GroupTree? && LeafAt(t, d, i, depth)
    ensures f(i, depth) == AfterField(f, i + |TreeBytes(t)|, depth)
  {
    SkipStep(f, d, i, depth, Read(t.tag, 0).value.0, |t.tag|, i + |TreeBytes(t)|, depth);
  }

  lemma SkipGroup(f: Ends, tag: Bytes, inside: Bytes, end: Bytes, d: Slice, i: nat, depth: nat)
    requires AreEnds(f, d) && IsTag(tag, 3) && IsTag(end, 4) && i <= |d| && tag + inside + end <= d[i..]
    requires f(i + |tag|, depth + 1) == f(i + |tag| + |inside|, depth + 1)
    ensures f(i, depth) == AfterField(f, i + |tag + inside + end|, depth)
  {
    Split(d, i, tag + inside, end);
    Split(d, i, tag, inside);
    var k := i + |tag + inside|;
    ReadPrefix(d, i, tag);
    SkipStep(f, d, i, depth, Read(tag, 0).value.0, |tag|, i + |tag|, depth + 1);
    ReadPrefix(d, k, end);
    SkipStep(f, d, k, depth + 1, Read(end, 0).value.0, |end|, k + |end|, depth);
  }

  /** The loop passes over a whole tree, whatever nesting it has. */
  lemma {:induction false} SkipTree(f: Ends, t: Tree, d: Slice, i: nat, depth: nat)
    requires AreEnds(f, d) && WellFormed(t) && i <= |d| && TreeBytes(t) <= d[i..]
    ensures f(i, depth) == AfterField(f, i + |TreeBytes(t)|, depth)
    decreases t
  {
    match t
    case VarintTree(_, _) => VarintLeaf(t, d, i, depth); SkipLeaf(f, t, d, i, depth);
    case FixedTree(_, _) => FixedLeaf(t, d, i, depth); SkipLeaf(f, t, d, i, depth);
    case LengthTree(_, _, _) => LengthLeaf(t, d, i, depth); SkipLeaf(f, t, d, i, depth);
    case GroupTree(tag, children, end) =>
      var inside := ForestBytes(children);
      Split(d, i, tag + inside, end);
      Split(d, i, tag, inside);
      SkipForest(f, children, d, i + |tag|, depth + 1);
      SkipGroup(f, tag, inside, end, d, i, depth);
  }

  lemma {:induction false} SkipForest(f: Ends, ts: seq<Tree>, d: Slice, i: nat, depth: nat)
    requires AreEnds(f, d) && AllWellFormed(ts) && depth > 0 && i <= |d| && ForestBytes(ts) <= d[i..]
    ensures f(i, depth) == f(i + |ForestBytes(ts)|, depth)
    decreases ts
  {
    if ts != [] {
      Split(d, i, TreeBytes(ts[0]), ForestBytes(ts[1..]));
      SkipTree(f, ts[0], d, i, depth);
      SkipForest(f, ts[1..], d, i + |TreeBytes(ts[0])|, depth);
    }
  }

  lemma SkipWholeTree(t: Tree, d: Slice)
    requires WellFormed(t) && TreeBytes(t) <= d
    ensures FieldEnd(d, 0, 0) == Ok(|TreeBytes(t)|)
  {
    var f: Ends := (i, depth) => FieldEnd(d, i, depth);
    assert d[0..] == d;
    SkipTree(f, t, d, 0, 0);
  }

  lemma VarintAt(d: Bytes, i: nat, wire: nat, n: nat)
    requires i <= |d| && Read(d[i..], 0) == Ok((wire, n))
    ensures i + n <= |d| && IsVarint(d[i..i + n]) && Read(d[i..i + n], 0) == Ok((wire, n))
  {
    ReadLocal(d[i..], 0, []);
    assert d[i..][..n] == d[i..i + n];
  }

  /** The bytes from `i` to `k` are a leaf with the tag that ends at `j`. */
  ghost predicate IsLeaf(t: Tree, d: Bytes, i: nat, j: nat, k: nat) {
    i <= j <= k <= |d| && WellFormed(t) && TreeBytes(t) == d[i..k] && t.tag == d[i..j]
  }

  lemma VarintLeafTree(d: Slice, i: nat, j: nat, k: nat) returns (t: Tree)
    requires i <= j <= k <= |d| && IsTag(d[i..j], 0) && PayloadEnd(d, j, 0, 0) == Ok((k, 0))
    ensures IsLeaf(t, d, i, j, k)
  {
    var (v, m) := Read(d[j..], 0).value;
    VarintAt(d, j, v, m);
    t := VarintTree(d[i..j], d[j..k]);
    assert d[i..k] == d[i..j] + d[j..k];
  }

  lemma LengthLeafOf(d: Slice, i: nat, j: nat, n: nat, v: nat) returns (t: Tree)
    requires i <= j <= |d| && IsTag(d[i..j], 2) && Read(d[j..], 0) == Ok((v, n)) && j + n + v <= |d|
    ensures IsLeaf(t, d, i, j, j + n + v) && t.LengthTree? && t.value == d[j + n..j + n + v]
  {
    VarintAt(d, j, v, n);
    t := LengthTree(d[i..j], d[j..j + n], d[j + n..j + n + v]);
    ThreeParts(d, i, j, j + n, j + n + v);
  }

  lemma LengthLeafTree(d: Slice, i: nat, j: nat, k: nat) returns (t: Tree)
    requires i <= j <= k <= |d| && IsTag(d[i..j], 2) && PayloadEnd(d, j, 2, 0) == Ok((k, 0))
    ensures IsLeaf(t, d, i, j, k)
  {
    var (v, n) := Read(d[j..], 0).value;
    ReadFits(d[j..], v, n);
    t := LengthLeafOf(d, i, j, n, v);
  }

  lemma ThreeParts(d: Bytes, i: nat, j: nat, l: nat, k: nat)
    requires i <= j <= l <= k <= |d|
    ensures d[i..k] == d[i..j] + d[j..l] + d[l..k]
  {
  }

  lemma FixedLeafTree(d: Slice, i: nat, j: nat, k: nat, wireType: nat) returns (t: Tree)
    requires i <= j <= k <= |d| && IsTag(d[i..j], wireType)
    requires (wireType == 1 && k == j + 8) || (wireType == 5 && k == j + 4)
    ensures IsLeaf(t, d, i, j, k)
  {
    t := FixedTree(d[i..j], d[j..k]);
    assert d[i..k] == d[i..j] + d[j..k];
  }

  /** The wire types whose payload is not a group. */
  lemma LeafEnd(d: Slice, j: nat, k: nat, wireType: nat, depth: nat, depth': nat)
    requires j <= k <= |d| && wireType != 3 && wireType != 4
    requires PayloadEnd(d, j, wireType, depth) == Ok((k, depth'))
    ensures depth' == depth && PayloadEnd(d, j, wireType, 0) == Ok((k, 0))
    ensures wireType == 0 || wireType == 2 || (wireType == 1 && k == j + 8) || (wireType == 5 && k == j + 4)
  {
  }

  lemma LeafTree(d: Slice, i: nat, j: nat, k: nat, wireType: nat) returns (t: Tree)
    requires i <= j <= k <= |d| && IsTag(d[i..j], wireType) && PayloadEnd(d, j, wireType, 0) == Ok((k, 0))
    requires wireType == 0 || wireType == 2 || (wireType == 1 && k == j + 8) || (wireType == 5 && k == j + 4)
    ensures IsLeaf(t, d, i, j, k)
  {
    if wireType == 0 {
      t := VarintLeafTree(d, i, j, k);
    } else if wireType == 2 {
      t := LengthLeafTree(d, i, j, k);
    } else {
      t := FixedLeafTree(d, i, j, k, wireType);
    }
  }

  /** What one round of the loop passes over: a start tag, an end tag or a whole leaf. */
  datatype Piece = Open(tag: Bytes) | Close(tag: Bytes) | Whole(t: Tree)

  ghost predicate PieceAt(p: Piece, b: Bytes, depth: nat, depth': nat) {
    match p
    case Open(tag) => IsTag(tag, 3) && b == tag && depth' == depth + 1
    case Close(tag) => IsTag(tag, 4) && b == tag && depth == depth' + 1
    case Whole(t) => WellFormed(t) && b == TreeBytes(t) && depth' == depth
  }

  lemma NextPiece(f: Ends, d: Slice, i: nat, depth: nat, end: nat) returns (p: Piece, k: nat, depth': nat)
    requires AreEnds(f, d) && f(i, depth) == Ok(end) && end <= |d|
    ensures i < k <= end && AfterField(f, k, depth') == Ok(end) && PieceAt(p, d[i..k], depth, depth')
  {
    var wire, n, k0, depth0 := SkipInverse(f, d, i, depth);
    k, depth' := k0, depth0;
    VarintAt(d, i, wire, n);
    if wire % 8 == 4 {
      p := Close(d[i..i + n]);
    } else if wire % 8 == 3 {
      p := Open(d[i..i + n]);
    } else {
      LeafEnd(d, i + n, k, wire % 8, depth, depth');
      var t := LeafTree(d, i, i + n, k, wire % 8);
      p := Whole(t);
    }
  }

  /** The open groups, innermost first: what is left in each and its end tag. */
  datatype Level = Level(forest: seq<Tree>, end: Bytes)

  ghost predicate WellFormedLevels(ls: seq<Level>) {
    forall l <- ls :: AllWellFormed(l.forest) && IsTag(l.end, 4)
  }

  function LevelBytes(ls: seq<Level>): Bytes {
    if ls == [] then [] else ForestBytes(ls[0].forest) + ls[0].end + LevelBytes(ls[1..])
  }

  /** Puts a tree in front of what is left in the innermost group. */
  function Prepend(t: Tree, ls: seq<Level>): seq<Level>
    requires ls != []
  {
    [Level([t] + ls[0].forest, ls[0].end)] + ls[1..]
  }

  lemma PrependBytes(t: Tree, ls: seq<Level>, u: Bytes)
    requires ls != [] && WellFormed(t) && WellFormedLevels(ls) && u == TreeBytes(t)
    ensures LevelBytes(Prepend(t, ls)) == u + LevelBytes(ls)
    ensures WellFormedLevels(Prepend(t, ls))
  {
    var forest := ls[0].forest;
    assert ([t] + forest)[1..] == forest;
    var inside, end, outer := ForestBytes(forest), ls[0].end, LevelBytes(ls[1..]);
    assert ForestBytes([t] + forest) == u + inside;
    assert Prepend(t, ls)[1..] == ls[1..];
    assert (u + inside) + end + outer == u + (inside + end + outer);
  }

  lemma EndLevelBytes(tag: Bytes, ls: seq<Level>)
    requires IsTag(tag, 4) && WellFormedLevels(ls)
    ensures LevelBytes([Level([], tag)] + ls) == tag + LevelBytes(ls)
    ensures WellFormedLevels([Level([], tag)] + ls)
  {
    assert ([Level([], tag)] + ls)[1..] == ls;
  }

  /** The innermost group closes: as a tree it goes in front of the next level. */
  lemma CloseGroup(tag: Bytes, ls: seq<Level>) returns (t: Tree)
    requires ls != [] && IsTag(tag, 3) && WellFormedLevels(ls)
    ensures WellFormed(t) && t.tag == tag && TreeBytes(t) + LevelBytes(ls[1..]) == tag + LevelBytes(ls)
  {
    t := GroupTree(tag, ls[0].forest, ls[0].end);
    var inside := ForestBytes(ls[0].forest);
    assert tag + (inside + ls[0].end + LevelBytes(ls[1..])) == (tag + inside + ls[0].end) + LevelBytes(ls[1..]);
  }

  /** What was skipped up to the end of the outermost open group splits into levels. */
  lemma {:induction false} SkippedLevels(f: Ends, d: Slice, i: nat, depth: nat, end: nat) returns (ls: seq<Level>)
    requires AreEnds(f, d) && depth > 0 && i <= end <= |d| && f(i, depth) == Ok(end)
    ensures |ls| == depth && WellFormedLevels(ls) && LevelBytes(ls) == d[i..end]
    decreases end - i
  {
    var p, k, depth' := NextPiece(f, d, i, depth, end);
    var inner: seq<Level> := [];
    if depth' > 0 {
      inner := SkippedLevels(f, d, k, depth', end);
    }
    assert d[i..end] == d[i..k] + d[k..end];
    ls := AddPiece(p, d[i..k], depth, inner);
  }

  lemma AddPiece(p: Piece, b: Bytes, depth: nat, inner: seq<Level>) returns (ls: seq<Level>)
    requires depth > 0 && PieceAt(p, b, depth, |inner|) && WellFormedLevels(inner)
    ensures |ls| == depth && WellFormedLevels(ls) && LevelBytes(ls) == b + LevelBytes(inner)
  {
    match p
    case Close(tag) =>
      ls := [Level([], tag)] + inner;
      EndLevelBytes(tag, inner);
    case Open(tag) =>
      ls := GroupLevels(tag, inner);
    case Whole(t) =>
      ls := Prepend(t, inner);
      PrependBytes(t, inner, b);
  }

  lemma GroupLevels(tag: Bytes, inner: seq<Level>) returns (ls: seq<Level>)
    requires |inner| > 1 && IsTag(tag, 3) && WellFormedLevels(inner)
    ensures |ls| == |inner| - 1 && WellFormedLevels(ls) && LevelBytes(ls) == tag + LevelBytes(inner)
  {
    var t := CloseGroup(tag, inner);
    ls := Prepend(t, inner[1..]);
    PrependBytes(t, inner[1..], TreeBytes(t));
  }

  lemma SkippedTree(f: Ends, d: Slice, end: nat) returns (t: Tree)
    requires AreEnds(f, d) && f(0, 0) == Ok(end) && end <= |d|
    ensures WellFormed(t) && TreeBytes(t) == d[..end]
  {
    var p, k, depth' := NextPiece(f, d, 0, 0, end);
    assert d[..end] == d[0..k] + d[k..end];
    if p.Open? {
      var levels := SkippedLevels(f, d, k, 1, end);
      OutermostLevel(levels);
      t := CloseGroup(p.tag, levels);
    } else {
      t := p.t;
    }
  }

  lemma OutermostLevel(ls: seq<Level>)
    requires |ls| == 1
    ensures LevelBytes(ls[1..]) == []
  {
  }

  /** Main result: skipping succeeds inside the input exactly on the fields of the grammar. */
  lemma SkipAcceptsGrammar(d: Slice, end: nat)
    requires end <= |d|
    ensures FieldEnd(d, 0, 0) == Ok(end) <==> exists t :: WellFormed(t) && TreeBytes(t) == d[..end]
  {
    if FieldEnd(d, 0, 0) == Ok(end) {
      var f: Ends := (i, depth) => FieldEnd(d, i, depth);
      assert AreEnds(f, d);
      var t := SkippedTree(f, d, end);
    }
    forall t | WellFormed(t) && TreeBytes(t) == d[..end]
      ensures FieldEnd(d, 0, 0) == Ok(end)
    {
      SkipWholeTree(t, d);
    }
  }

  // ---------- errors ----------

  /** What the loop says of a field that it cannot pass over. */
  lemma SkipErrors(d: Slice, wire: nat, n: nat)
    requires d != [] && n <= |d| && Read(d, 0) == Ok((wire, n))
    ensures wire % 8 == 4 ==> FieldEnd(d, 0, 0) == Err(UnexpectedEndOfGroup)
    ensures wire % 8 == 6 || wire % 8 == 7 ==> FieldEnd(d, 0, 0) == Err(IllegalWireType)
    ensures wire % 8 == 0 && Read(d[n..], 0).Err? ==> FieldEnd(d, 0, 0) == Err(Read(d[n..], 0).error)
    ensures wire % 8 == 2 && Read(d[n..], 0).Err? ==> FieldEnd(d, 0, 0) == Err(Read(d[n..], 0).error)
    ensures wire % 8 == 2 && Read(d[n..], 0).Ok? && Read(d[n..], 0).value.0 >= TWO_63 ==>
              FieldEnd(d, 0, 0) == Err(InvalidLength)
  {
    assert d[0..] == d;
    if wire % 8 == 2 && Read(d[n..], 0).Ok? {
      var (v, k) := Read(d[n..], 0).value;
      ReadFits(d[n..], v, k);
    }
  }

  /** What a decoder says of a tag: groups may not end here, and field numbers are positive. */
  lemma TagErrors<M>(s: Schema<M>, m: M, d: Slice, i: nat, wire: nat, n: nat)
    requires i < |d| && Read(d[i..], 0) == Ok((wire, n))
    ensures var bits := (wire / 8) % 0x1_0000_0000;
            && (wire % 8 == 4 ==> Field(s, m, d, i) == Err(EndGroup))
            && (wire % 8 != 4 && (bits == 0 || bits >= 0x8000_0000) ==> Field(s, m, d, i) == Err(IllegalTag))
  {
    FieldStep(s, m, d, i, Ok((wire, n)));
  }

  /** A broken varint is the decoder's own error. */
  lemma BrokenTag<M>(s: Schema<M>, m: M, d: Slice, i: nat)
    requires i < |d| && Read(d[i..], 0).Err?
    ensures Field(s, m, d, i) == Err(Read(d[i..], 0).error)
    ensures FieldEnd(d[i..], 0, 0) == Err(Read(d[i..], 0).error)
  {
    FieldStep(s, m, d, i, Read(d[i..], 0));
    assert d[i..][0..] == d[i..];
  }

  // ---------- unknown fields ----------

  /** The tag carries a legal field number that the message does not define. */
  ghost predicate IsUnknown<M>(s: Schema<M>, t: Tree)
    requires WellFormed(t)
  {
    var number := I32(Read(t.tag, 0).value.0 / 8);
    number > 0 && s.kind(number) == UnknownField
  }

  lemma UnknownSkipped<M>(s: Schema<M>, m: M, t: Tree, d: Slice)
    requires WellFormed(t) && IsUnknown(s, t) && d == TreeBytes(t)
    ensures |d| > 0 && Field(s, m, d, 0) == Ok((m, |d|))
  {
    assert d[0..] == d && t.tag <= d;
    SkipWholeTree(t, d);
    ReadPrefix(d, 0, t.tag);
  }

  lemma UnknownAlone<M>(s: Schema<M>, m: M, t: Tree)
    requires WellFormed(t) && IsUnknown(s, t) && |TreeBytes(t)| < TWO_63
    ensures Decode(s, m, TreeBytes(t)) == Ok(m)
  {
    var d := TreeBytes(t);
    UnknownSkipped(s, m, t, d);
    DecodeStep(s, m, d, 0, Ok((m, |d|)));
  }

  lemma SameOutcome<M>(x: Result<M, Error>, y: Result<M, Error>, z: Result<M, Error>, w: Result<M, Error>)
    requires Same(x, y) && Same(y, z) && Same(w, z)
    ensures Same(x, w)
  {
  }

  /** Main result: an unknown field between any two decodable parts does not change the outcome. */
  lemma UnknownFieldIgnored<M(!new)>(s: Schema<M>, m: M, a: Slice, t: Tree, b: Slice)
    requires |a + (TreeBytes(t) + b)| < TWO_63
    requires Decode(s, m, a).Ok? && WellFormed(t) && IsUnknown(s, t)
    ensures Same(Decode(s, m, a + (TreeBytes(t) + b)), Decode(s, m, a + b))
  {
    var m1, u := Decode(s, m, a).value, TreeBytes(t);
    DecodeConcat(s, m, a, u + b);
    DecodeConcat(s, m, a, b);
    UnknownAlone(s, m1, t);
    DecodeConcat(s, m1, u, b);
    SameOutcome(Decode(s, m, a + (u + b)), Decode(s, m1, u + b), Decode(s, m1, b), Decode(s, m, a + b));
  }
}
