/** What the decoders accept, said without positions: lists of fields in the grammar of `WireLaws`. */
module WireGrammar {
  import opened Ints
  import opened Options
  import opened Varint
  import opened Wire
  import opened WireLaws

  /** What a field means for a message, by its number and shape. */
  ghost function AssignTree<M>(s: Schema<M>, m: M, t: Tree): Result<M, Error>
    requires WellFormed(t)
  {
    var number := I32(Read(t.tag, 0).value.0 / 8);
    if number <= 0 then Err(IllegalTag)
    else
      match s.kind(number)
      case VarintField =>
        if t.VarintTree? then s.assign(m, number, Number(U64(Read(t.value, 0).value.0))) else Err(WrongWireType)
      case BytesField =>
        if t.LengthTree? then s.assign(m, number, Data(t.value)) else Err(WrongWireType)
      case UnknownField => Ok(m)
  }

  /** The fields one after the other. */
  ghost function AssignForest<M>(s: Schema<M>, m: M, ts: seq<Tree>): Result<M, Error>
    requires AllWellFormed(ts)
  {
    if ts == [] then Ok(m)
    else
      var m' :- AssignTree(s, m, ts[0]);
      AssignForest(s, m', ts[1..])
  }

  lemma TagFirst(t: Tree, d: Bytes, i: nat)
    requires WellFormed(t) && i <= |d| && TreeBytes(t) <= d[i..]
    ensures i + |t.tag| <= |d| && d[i..i + |t.tag|] == t.tag && Read(d[i..], 0) == Read(t.tag, 0) && |t.tag| > 0
  {
    assert t.tag <= TreeBytes(t);
    assert d[i..][..|t.tag|] == d[i..i + |t.tag|];
    ReadPrefix(d, i, t.tag);
  }

  // ---------- a field of the grammar is read as such ----------

  lemma NumberRead<M>(s: Schema<M>, m: M, t: Tree, d: Slice, i: nat, number: int)
    requires WellFormed(t) && t.VarintTree? && i <= |d| && TreeBytes(t) <= d[i..]
    requires s.assign(m, number, Number(U64(Read(t.value, 0).value.0))).Ok?
    ensures i + |t.tag| <= |d|
    ensures NumberField(s, m, d, i + |t.tag|, number, 0)
         == Ok((s.assign(m, number, Number(U64(Read(t.value, 0).value.0))).value, i + |TreeBytes(t)|))
  {
    Split(d, i, t.tag, t.value);
    ReadPrefix(d, i + |t.tag|, t.value);
  }

  /** Where the parts of a length-delimited field are. */
  lemma LengthParts(t: Tree, d: Slice, i: nat)
    requires WellFormed(t) && t.LengthTree? && i <= |d| && TreeBytes(t) <= d[i..]
    ensures var j := i + |t.tag|; var start := j + |t.length|; var post := start + |t.value|;
            post == i + |TreeBytes(t)| <= |d| && d[start..post] == t.value
            && Read(d[j..], 0) == Ok((|t.value|, |t.length|))
  {
    Split(d, i, t.tag + t.length, t.value);
    Split(d, i, t.tag, t.length);
    ReadPrefix(d, i + |t.tag|, t.length);
    var start := i + |t.tag + t.length|;
    assert d[start..][..|t.value|] == d[start..start + |t.value|];
  }

  lemma DataRead<M>(s: Schema<M>, m: M, t: Tree, d: Slice, i: nat, number: int)
    requires WellFormed(t) && t.LengthTree? && i <= |d| && TreeBytes(t) <= d[i..]
    requires s.assign(m, number, Data(t.value)).Ok?
    ensures i + |t.tag| <= |d|
    ensures DataField(s, m, d, i + |t.tag|, number, 2)
         == Ok((s.assign(m, number, Data(t.value)).value, i + |TreeBytes(t)|))
  {
    LengthParts(t, d, i);
    SliceAssigned(s, m, d, i + |t.tag| + |t.length|, |t.value|, number);
  }

  lemma UnknownRead<M>(m: M, t: Tree, d: Slice, i: nat)
    requires WellFormed(t) && i < |d| && TreeBytes(t) <= d[i..]
    ensures SkippedField(m, d, i) == Ok((m, i + |TreeBytes(t)|))
  {
    SkipWholeTree(t, d[i..]);
  }

  lemma TreeIsTagged<M>(s: Schema<M>, m: M, t: Tree, d: Slice, i: nat)
    requires WellFormed(t) && i < |d| && TreeBytes(t) <= d[i..] && AssignTree(s, m, t).Ok?
    ensures i < i + |t.tag| <= |d|
    ensures TaggedField(s, m, d, i, i + |t.tag|, Read(t.tag, 0).value.0)
         == Ok((AssignTree(s, m, t).value, i + |TreeBytes(t)|))
  {
    TagFirst(t, d, i);
    var number := I32(Read(t.tag, 0).value.0 / 8);
    match s.kind(number)
    case VarintField => NumberRead(s, m, t, d, i, number);
    case BytesField => DataRead(s, m, t, d, i, number);
    case UnknownField => UnknownRead(m, t, d, i);
  }

  lemma TreeIsTail<M(!new)>(g: Outcomes<M>, f: Rounds<M>, tail: Tails<M>, s: Schema<M>, m: M, t: Tree,
                            d: Slice, i: nat)
    requires Decodes(g, f, tail, s, d)
    requires WellFormed(t) && i < |d| && TreeBytes(t) <= d[i..] && AssignTree(s, m, t).Ok?
    ensures tail(m, i, i + |t.tag|, Read(t.tag, 0).value.0) == Ok((AssignTree(s, m, t).value, i + |TreeBytes(t)|))
  {
    TreeIsTagged(s, m, t, d, i);
    assert TailAt(tail, s, d, m, i, i + |t.tag|, Read(t.tag, 0).value.0);
  }

  lemma TreeIsRound<M(!new)>(g: Outcomes<M>, f: Rounds<M>, tail: Tails<M>, s: Schema<M>, m: M, t: Tree,
                             d: Slice, i: nat)
    requires Decodes(g, f, tail, s, d)
    requires WellFormed(t) && i < |d| && TreeBytes(t) <= d[i..] && AssignTree(s, m, t).Ok?
    ensures f(m, i) == Ok((AssignTree(s, m, t).value, i + |TreeBytes(t)|))
  {
    TagFirst(t, d, i);
    RoundStep(g, f, tail, s, d, m, i, Read(t.tag, 0));
    TreeIsTail(g, f, tail, s, m, t, d, i);
  }

  // ---------- a field that is read is one of the grammar ----------

  lemma NumberIsTree<M>(s: Schema<M>, m: M, d: Slice, i: nat, j: nat, number: int) returns (t: Tree)
    requires i <= j <= |d| && IsTag(d[i..j], 0) && NumberField(s, m, d, j, number, 0).Ok?
    ensures var (m', k) := NumberField(s, m, d, j, number, 0).value;
            IsLeaf(t, d, i, j, k) && t.VarintTree? && s.assign(m, number, Number(U64(Read(t.value, 0).value.0))) == Ok(m')
  {
    var (v, n) := Read(d[j..], 0).value;
    VarintAt(d, j, v, n);
    t := VarintTree(d[i..j], d[j..j + n]);
    assert d[i..j + n] == d[i..j] + d[j..j + n];
  }

  /** A slice that was assigned lies inside the input. */
  lemma SliceIsInside<M>(s: Schema<M>, m: M, d: Slice, start: nat, v: nat, number: int)
    requires start <= |d| && v < TWO_64 && SlicedField(s, m, d, start, I64(v), number).Ok?
    ensures var (m', k) := SlicedField(s, m, d, start, I64(v), number).value;
            k == start + v && s.assign(m, number, Data(d[start..k])) == Ok(m')
  {
    var length := I64(v);
    if 0 <= length && start + length <= |d| {
      SliceAssigned(s, m, d, start, length, number);
    } else {
      SliceRefused(s, m, d, start, length, number);
    }
  }

  /** Where a data field that was assigned ends, and what was assigned. */
  lemma DataInside<M>(s: Schema<M>, m: M, d: Slice, j: nat, number: int) returns (v: nat, n: nat)
    requires j <= |d| && DataField(s, m, d, j, number, 2).Ok?
    ensures Read(d[j..], 0) == Ok((v, n)) && j + n + v <= |d|
    ensures var (m', k) := DataField(s, m, d, j, number, 2).value;
            k == j + n + v && s.assign(m, number, Data(d[j + n..j + n + v])) == Ok(m')
  {
    v, n := Read(d[j..], 0).value.0, Read(d[j..], 0).value.1;
    ReadFits(d[j..], v, n);
    DataStep(s, m, d, j, number, v, n);
    SliceIsInside(s, m, d, j + n, v, number);
  }

  lemma DataIsTree<M>(s: Schema<M>, m: M, d: Slice, i: nat, j: nat, number: int) returns (t: Tree)
    requires i <= j <= |d| && IsTag(d[i..j], 2) && DataField(s, m, d, j, number, 2).Ok?
    ensures var (m', k) := DataField(s, m, d, j, number, 2).value;
            IsLeaf(t, d, i, j, k) && t.LengthTree? && s.assign(m, number, Data(t.value)) == Ok(m')
  {
    var v, n := DataInside(s, m, d, j, number);
    t := LengthLeafOf(d, i, j, n, v);
  }

  lemma UnknownIsTree<M>(m: M, d: Slice, i: nat) returns (t: Tree)
    requires i < |d| && SkippedField(m, d, i).Ok?
    ensures WellFormed(t) && TreeBytes(t) == d[i..SkippedField(m, d, i).value.1]
  {
    var end := FieldEnd(d[i..], 0, 0).value;
    SkipAcceptsGrammar(d[i..], end);
    t :| WellFormed(t) && TreeBytes(t) == d[i..][..end];
    assert d[i..][..end] == d[i..i + end];
  }

  /** The tree of a field whose tag has been read. */
  ghost predicate IsTreeOf<M>(s: Schema<M>, m: M, d: Bytes, i: nat, r: Parsed<M>, t: Tree) {
    r.Ok? && i <= r.value.1 <= |d| && WellFormed(t) && TreeBytes(t) == d[i..r.value.1]
    && AssignTree(s, m, t) == Ok(r.value.0)
  }

  lemma TaggedIsTree<M>(s: Schema<M>, m: M, d: Slice, i: nat, j: nat, wire: nat) returns (t: Tree)
    requires i < j <= |d| && IsVarint(d[i..j]) && Read(d[i..j], 0) == Read(d[i..], 0) == Ok((wire, j - i))
    requires TaggedField(s, m, d, i, j, wire).Ok?
    ensures IsTreeOf(s, m, d, i, TaggedField(s, m, d, i, j, wire), t)
  {
    var number := I32(wire / 8);
    match s.kind(number)
    case VarintField =>
      t := NumberIsTree(s, m, d, i, j, number);
    case BytesField =>
      t := DataIsTree(s, m, d, i, j, number);
    case UnknownField =>
      t := UnknownIsTree(m, d, i);
      TagOfRest(t, d, i, SkippedField(m, d, i).value.1);
  }

  lemma TailIsTree<M(!new)>(g: Outcomes<M>, f: Rounds<M>, tail: Tails<M>, s: Schema<M>, m: M, d: Slice,
                            i: nat, j: nat, wire: nat)
    returns (t: Tree)
    requires Decodes(g, f, tail, s, d) && i < j <= |d| && IsVarint(d[i..j])
    requires Read(d[i..j], 0) == Read(d[i..], 0) == Ok((wire, j - i)) && tail(m, i, j, wire).Ok?
    ensures IsTreeOf(s, m, d, i, tail(m, i, j, wire), t)
  {
    assert TailAt(tail, s, d, m, i, j, wire);
    t := TaggedIsTree(s, m, d, i, j, wire);
  }

  lemma RoundIsTree<M(!new)>(g: Outcomes<M>, f: Rounds<M>, tail: Tails<M>, s: Schema<M>, m: M, d: Slice, i: nat)
    returns (t: Tree)
    requires Decodes(g, f, tail, s, d) && i < |d| && f(m, i).Ok?
    ensures IsTreeOf(s, m, d, i, f(m, i), t)
  {
    var tag := Read(d[i..], 0);
    RoundStep(g, f, tail, s, d, m, i, tag);
    var (wire, n) := tag.value;
    VarintAt(d, i, wire, n);
    t := TailIsTree(g, f, tail, s, m, d, i, i + n, wire);
  }

  lemma TagOfRest(t: Tree, d: Bytes, i: nat, k: nat)
    requires i <= k <= |d| && WellFormed(t) && TreeBytes(t) == d[i..k]
    ensures Read(d[i..], 0) == Read(t.tag, 0)
  {
    assert d[i..k] <= d[i..];
    TagFirst(t, d, i);
  }

  // ---------- whole messages ----------

  lemma {:induction false} ForestDecodes<M(!new)>(g: Outcomes<M>, f: Rounds<M>, tail: Tails<M>, s: Schema<M>, m: M,
                                                  ts: seq<Tree>, d: Slice, i: nat)
    requires Decodes(g, f, tail, s, d)
    requires AllWellFormed(ts) && i <= |d| && ForestBytes(ts) == d[i..] && AssignForest(s, m, ts).Ok?
    ensures g(m, i) == AssignForest(s, m, ts)
    decreases ts
  {
    assert LoopAt(g, f, |d|, m, i);
    if ts != [] {
      var t, rest := ts[0], ts[1..];
      TagOfFront(t, ForestBytes(rest));
      assert d[i..] == TreeBytes(t) + ForestBytes(rest);
      TreeIsRound(g, f, tail, s, m, t, d, i);
      var k := i + |TreeBytes(t)|;
      assert d[k..] == d[i..][|TreeBytes(t)|..];
      ForestDecodes(g, f, tail, s, AssignTree(s, m, t).value, rest, d, k);
    }
  }

  lemma TagOfFront(t: Tree, rest: Bytes)
    requires WellFormed(t)
    ensures |TreeBytes(t) + rest| > 0
  {
    assert |t.tag| > 0;
  }

  lemma {:induction false} DecodedForest<M(!new)>(g: Outcomes<M>, f: Rounds<M>, tail: Tails<M>, s: Schema<M>, m: M,
                                                  d: Slice, i: nat)
    returns (ts: seq<Tree>)
    requires Decodes(g, f, tail, s, d) && i <= |d| && g(m, i).Ok?
    ensures AllWellFormed(ts) && ForestBytes(ts) == d[i..] && AssignForest(s, m, ts) == g(m, i)
    decreases |d| - i
  {
    assert LoopAt(g, f, |d|, m, i);
    if i == |d| {
      ts := [];
    } else {
      var t := RoundIsTree(g, f, tail, s, m, d, i);
      var (m', k) := f(m, i).value;
      var rest := DecodedForest(g, f, tail, s, m', d, k);
      ts := [t] + rest;
      assert ts[1..] == rest;
      assert d[i..] == d[i..k] + d[k..];
    }
  }

  /**
   Main result: a byte string decodes to a message exactly when it is a list of fields of the grammar
   that fit the message type, and the message is what assigning them in order gives.
   */
  lemma DecodeAcceptsGrammar<M(!new)>(s: Schema<M>, m: M, d: Slice, r: M)
    ensures Decode(s, m, d) == Ok(r)
       <==> exists ts :: AllWellFormed(ts) && ForestBytes(ts) == d && AssignForest(s, m, ts) == Ok(r)
  {
    assert d[0..] == d;
    var g, f, tail := DecoderOf(s, d);
    assert OutcomeAt(g, s, d, m, 0);
    if Decode(s, m, d) == Ok(r) {
      var ts := DecodedForest(g, f, tail, s, m, d, 0);
    }
    forall ts | AllWellFormed(ts) && ForestBytes(ts) == d && AssignForest(s, m, ts) == Ok(r)
      ensures Decode(s, m, d) == Ok(r)
    {
      ForestDecodes(g, f, tail, s, m, ts, d, 0);
    }
  }
}
