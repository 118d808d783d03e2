/** Messages as lists of fields in order: their bytes, and what decoding those bytes assigns. */
module Items {
  import opened Ints
  import opened Options
  import opened Varint
  import opened Wire
  import opened WireLaws

  /** A field of a message; a field without payload is not written. */
  datatype Item = Item(number: nat, payload: Option<Payload>)

  function ItemBytes(it: Item): Bytes
    requires it.number <= 15
  {
    match it.payload
    case None => []
    case Some(Number(v)) => [8 * it.number] + Encode(v)
    case Some(Data(b)) => [8 * it.number + 2] + Encode(|b|) + b
  }

  predicate Numbered(its: seq<Item>) {
    forall i | 0 <= i < |its| :: 1 <= its[i].number <= 15
  }

  /** The parts from `j` on, one after the other. */
  function Concat(parts: seq<Bytes>, j: nat): Bytes
    requires j <= |parts|
    decreases |parts| - j
  {
    if j == |parts| then [] else parts[j] + Concat(parts, j + 1)
  }

  function Parts(its: seq<Item>): (parts: seq<Bytes>)
    requires Numbered(its)
    ensures |parts| == |its|
  {
    seq(|its|, i requires 0 <= i < |its| => ItemBytes(its[i]))
  }

  /** The bytes of the items from `j` on. */
  function BytesFrom(its: seq<Item>, j: nat): Bytes
    requires Numbered(its) && j <= |its|
  {
    Concat(Parts(its), j)
  }

  /** The bytes of the parts from `i` on are part of the whole. */
  lemma {:induction false} ConcatLength(parts: seq<Bytes>, j: nat, i: nat)
    requires j <= i <= |parts|
    ensures |Concat(parts, i)| <= |Concat(parts, j)|
    decreases i - j
  {
    if j < i {
      ConcatLength(parts, j + 1, i);
    }
  }

  lemma DataLength(its: seq<Item>, i: nat)
    requires Numbered(its) && i < |its|
    ensures |ItemBytes(its[i])| + |BytesFrom(its, i + 1)| <= |BytesFrom(its, 0)|
    ensures its[i].payload.Some? && its[i].payload.value.Data? ==> |its[i].payload.value.b| < |ItemBytes(its[i])|
  {
    ConcatLength(Parts(its), 0, i);
  }

  /** Assigns one item. */
  function AssignItem<M>(s: Schema<M>, m: M, it: Item): Result<M, Error> {
    if it.payload.None? then Ok(m) else s.assign(m, it.number, it.payload.value)
  }

  /** Assigns the items from `j` on, in order. */
  function AssignFrom<M>(s: Schema<M>, m: M, its: seq<Item>, j: nat): Result<M, Error>
    requires j <= |its|
    decreases |its| - j
  {
    if j == |its| then Ok(m)
    else
      var m' :- AssignItem(s, m, its[j]);
      AssignFrom(s, m', its, j + 1)
  }

  /** The message type has these fields with these kinds. */
  ghost predicate Fits<M>(s: Schema<M>, it: Item) {
    it.payload.Some? ==> s.kind(it.number) == if it.payload.value.Number? then VarintField else BytesField
  }

  ghost predicate AllFit<M>(s: Schema<M>, its: seq<Item>) {
    Numbered(its) && forall i | 0 <= i < |its| :: Fits(s, its[i])
  }

  lemma TagReads(tag: byte, rest: Bytes)
    requires tag < 128
    ensures Read([tag] + rest, 0) == Ok((tag, 1))
  {
    assert Encode(tag) == [tag];
    ReadBack(tag, rest);
  }

  lemma NumberItemDecodes<M>(s: Schema<M>, m: M, it: Item)
    requires 1 <= it.number <= 15 && it.payload.Some? && it.payload.value.Number? && Fits(s, it)
    requires |ItemBytes(it)| < TWO_63 && s.assign(m, it.number, it.payload.value).Ok?
    ensures Field(s, m, ItemBytes(it), 0) == Ok((s.assign(m, it.number, it.payload.value).value, |ItemBytes(it)|))
  {
    var v := it.payload.value.v;
    var d := ItemBytes(it);
    TagReads(8 * it.number, Encode(v));
    assert d[0..] == d;
    ReadBack(v, []);
    assert d[1..] == Encode(v) == Encode(v) + [];
  }

  lemma DataReads(b: Bytes, d: Bytes)
    requires |b| < TWO_63 && d == Encode(|b|) + b
    ensures Read(d, 0) == Ok((|b|, |Encode(|b|)|)) && |d| == |Encode(|b|)| + |b| && d[|Encode(|b|)|..] == b
  {
    ReadBack(|b|, b);
  }

  lemma DataItemDecodes<M>(s: Schema<M>, m: M, it: Item)
    requires 1 <= it.number <= 15 && it.payload.Some? && it.payload.value.Data? && Fits(s, it)
    requires |ItemBytes(it)| < TWO_63 && s.assign(m, it.number, it.payload.value).Ok?
    ensures Field(s, m, ItemBytes(it), 0) == Ok((s.assign(m, it.number, it.payload.value).value, |ItemBytes(it)|))
  {
    var b := it.payload.value.b;
    var d := ItemBytes(it);
    var tag, body := 8 * it.number + 2, Encode(|b|) + b;
    assert d == [tag] + body;
    TagReads(tag, body);
    assert d[0..] == d && d[1..] == body;
    DataReads(b, body);
    TaggedData(s, m, d, tag, b, |d| - |b|);
  }

  lemma TaggedData<M>(s: Schema<M>, m: M, d: Slice, tag: nat, b: Bytes, k: nat)
    requires 10 <= tag < 128 && tag % 8 == 2 && s.kind(tag / 8) == BytesField
    requires 1 <= k && k + |b| == |d| && d[k..] == b && Read(d[1..], 0) == Ok((|b|, k - 1))
    requires s.assign(m, tag / 8, Data(b)).Ok?
    ensures TaggedField(s, m, d, 0, 1, tag) == Ok((s.assign(m, tag / 8, Data(b)).value, |d|))
  {
    assert d[k..|d|] == b;
  }

  lemma ItemDecodes<M>(s: Schema<M>, m: M, it: Item)
    requires 1 <= it.number <= 15 && Fits(s, it) && |ItemBytes(it)| < TWO_63 && AssignItem(s, m, it).Ok?
    ensures Decode(s, m, ItemBytes(it)) == AssignItem(s, m, it)
  {
    if it.payload.Some? {
      if it.payload.value.Number? {
        NumberItemDecodes(s, m, it);
      } else {
        DataItemDecodes(s, m, it);
      }
      DecodeStep(s, m, ItemBytes(it), 0, Field(s, m, ItemBytes(it), 0));
    }
  }

  /** Main result: decoding the bytes of a list of items assigns the items in order. */
  lemma {:induction false} ItemsDecode<M(!new)>(s: Schema<M>, m: M, its: seq<Item>, j: nat)
    requires AllFit(s, its) && j <= |its| && |BytesFrom(its, j)| < TWO_63 && AssignFrom(s, m, its, j).Ok?
    ensures Decode(s, m, BytesFrom(its, j)) == AssignFrom(s, m, its, j)
    decreases |its| - j
  {
    if j < |its| {
      var a, b := ItemBytes(its[j]), BytesFrom(its, j + 1);
      assert BytesFrom(its, j) == a + b;
      ItemDecodes(s, m, its[j]);
      var m' := AssignItem(s, m, its[j]).value;
      ItemsDecode(s, m', its, j + 1);
      DecodeConcat(s, m, a, b);
    }
  }

  // ---------- writing items backwards ----------

  lemma SpliceBefore(s: Bytes, i: nat, b: Bytes, a: Bytes)
    requires |a| <= i && i + |b| <= |s|
    ensures Splice(Splice(s, i, b), i - |a|, a) == Splice(s, i - |a|, a + b)
  {
  }

  /**
   A message on its way into a buffer: its items, where it ends, what the buffer held before, and
   the property `filled(content, i, j)` that the items from `j` on stand between `i` and the end.
   */
  datatype Job = Job(its: seq<Item>, end: nat, orig: Bytes, filled: (Bytes, nat, nat) -> bool)
  {
    ghost predicate Fits() {
      Numbered(its) && |BytesFrom(its, 0)| <= end <= |orig| < TWO_63
    }

    /** Everything else in the buffer is as it was. */
    ghost predicate Means(content: Bytes, i: nat, j: nat)
      requires Numbered(its)
    {
      filled(content, i, j)
      <==> j <= |its| && i + |BytesFrom(its, j)| == end <= |orig| && content == Splice(orig, i, BytesFrom(its, j))
    }

    ghost predicate Valid() {
      Fits() && forall content: Bytes, i: nat, j: nat :: Means(content, i, j)
    }

    /** The item in front of `j` still fits. */
    lemma Room(j: nat)
      requires Fits() && j < |its|
      ensures |ItemBytes(its[j])| + |BytesFrom(its, j + 1)| == |BytesFrom(its, j)| <= end
      ensures its[j].payload.Some? && its[j].payload.value.Data? ==> |its[j].payload.value.b| < end
    {
      DataLength(its, j);
      ConcatLength(Parts(its), 0, j);
    }
  }

  /** Starts a job: nothing is filled yet. */
  lemma Start(its: seq<Item>, end: nat, orig: Bytes) returns (job: Job)
    requires Numbered(its) && |BytesFrom(its, 0)| <= end <= |orig| < TWO_63
    ensures job.Valid() && job.its == its && job.end == end && job.orig == orig
    ensures job.filled(orig, end, |its|)
  {
    job := Job(its, end, orig, (content: Bytes, i: nat, j: nat) =>
      j <= |its| && i + |BytesFrom(its, j)| == end && content == Splice(orig, i, BytesFrom(its, j)));
    assert BytesFrom(its, |its|) == [];
    SpliceNothing(orig, end);
  }

  /** A finished job: the whole message ends at the end, and the rest of the buffer is untouched. */
  lemma Finish(job: Job, content: Bytes, i: nat)
    requires job.Valid() && job.filled(content, i, 0)
    ensures i + |BytesFrom(job.its, 0)| == job.end <= |job.orig|
    ensures content == Splice(job.orig, i, BytesFrom(job.its, 0))
  {
    assert job.Means(content, i, 0);
  }

  /** Copies `b` so that it ends at `i`. */
  method CopyBytes(buf: array<byte>, i: nat, b: Bytes) returns (start: nat)
    requires |b| <= i <= buf.Length
    modifies buf
    ensures start == i - |b| && buf[..] == Splice(old(buf[..]), start, b)
  {
    start := i - |b|;
    ghost var orig := buf[..];
    for k := 0 to |b|
      invariant buf[..] == Splice(orig, start, b[..k])
    {
      SpliceAppend(orig, start, b[..k], b[k]);
      buf[start + k] := b[k];
      assert b[..k + 1] == b[..k] + [b[k]];
    }
    assert b[..|b|] == b;
  }

  /** Writes a varint that ends at `i`, and a tag in front of it. */
  method PutTagged(buf: array<byte>, i: nat, tag: byte, v: u64) returns (start: nat)
    requires 1 + |Encode(v)| <= i <= buf.Length
    modifies buf
    ensures start == i - |Encode(v)| - 1
    ensures buf[..] == Splice(old(buf[..]), start, [tag] + Encode(v))
  {
    ghost var orig := buf[..];
    var at := EncodeVarint(buf, i, v);
    SpliceBefore(orig, at, Encode(v), [tag]);
    start := at - 1;
    ghost var mid := buf[..];
    buf[start] := tag;
    assert buf[..] == Splice(mid, start, [tag]);
  }

  /** Writing the next item in front of what is filled keeps it filled. */
  lemma FilledBefore(job: Job, before: Bytes, after: Bytes, i: nat, j: nat)
    requires job.Valid() && j < |job.its| && job.filled(before, i, j + 1) && |ItemBytes(job.its[j])| <= i <= |before|
    requires after == Splice(before, i - |ItemBytes(job.its[j])|, ItemBytes(job.its[j]))
    ensures job.filled(after, i - |ItemBytes(job.its[j])|, j)
  {
    assert job.Means(before, i, j + 1) && job.Means(after, i - |ItemBytes(job.its[j])|, j);
    SpliceBefore(job.orig, i, BytesFrom(job.its, j + 1), ItemBytes(job.its[j]));
  }

  /** What is filled so far leaves room for the item in front. */
  lemma RoomLeft(job: Job, content: Bytes, i: nat, j: nat)
    requires job.Valid() && j < |job.its| && job.filled(content, i, j + 1)
    ensures |ItemBytes(job.its[j])| <= i <= |content| == |job.orig|
    ensures var p := job.its[j].payload; p.Some? && p.value.Data? ==> |p.value.b| < TWO_63
  {
    assert job.Means(content, i, j + 1);
    job.Room(j);
  }

  lemma SpliceNothing(s: Bytes, i: nat)
    requires i <= |s|
    ensures Splice(s, i, []) == s
  {
  }

  /** An absent item writes nothing. */
  lemma Absent(job: Job, content: Bytes, i: nat, j: nat)
    requires job.Valid() && j < |job.its| && job.filled(content, i, j + 1) && job.its[j].payload.None?
    ensures job.filled(content, i, j)
  {
    RoomLeft(job, content, i, j);
    SpliceNothing(content, i);
    FilledBefore(job, content, content, i, j);
  }

  /** A number field: nothing for zero. */
  method PutNumber(buf: array<byte>, i: nat, number: nat, v: u64, ghost job: Job, ghost j: nat) returns (start: nat)
    requires job.Valid() && j < |job.its| && job.filled(buf[..], i, j + 1) && job.its[j] == NumberItem(number, v)
    modifies buf
    ensures job.filled(buf[..], start, j)
  {
    if v == 0 {
      Absent(job, buf[..], i, j);
      return i;
    }
    RoomLeft(job, buf[..], i, j);
    ghost var before := buf[..];
    start := PutTagged(buf, i, 8 * number, v);
    FilledBefore(job, before, buf[..], i, j);
  }

  /** Length and tag in front of a payload that has already been written from `i` to `end`. */
  method PutPrefix(buf: array<byte>, i: nat, number: nat, size: nat, ghost end: nat, ghost b: Bytes,
                   ghost before: Bytes, ghost job: Job, ghost j: nat) returns (start: nat)
    requires job.Valid() && j < |job.its| && job.its[j] == MessageItem(number, Some(b)) && size == |b|
    requires job.filled(before, end, j + 1) && i + |b| == end <= |before| && buf[..] == Splice(before, i, b)
    modifies buf
    ensures job.filled(buf[..], start, j)
  {
    RoomLeft(job, before, end, j);
    start := PutTagged(buf, i, 8 * number + 2, size);
    SpliceBefore(before, i, b, [8 * number + 2] + Encode(size));
    FilledBefore(job, before, buf[..], end, j);
  }

  /** A nested message: always written, even when it is empty. */
  method PutMessage(buf: array<byte>, i: nat, number: nat, b: Bytes, ghost job: Job, ghost j: nat)
    returns (start: nat)
    requires job.Valid() && j < |job.its| && job.filled(buf[..], i, j + 1)
    requires job.its[j] == MessageItem(number, Some(b))
    modifies buf
    ensures job.filled(buf[..], start, j)
  {
    RoomLeft(job, buf[..], i, j);
    ghost var before := buf[..];
    var at := CopyBytes(buf, i, b);
    start := PutPrefix(buf, at, number, |b|, i, b, before, job, j);
  }

  /** A bytes or string field: nothing when it is empty. */
  method PutBytes(buf: array<byte>, i: nat, number: nat, b: Bytes, ghost job: Job, ghost j: nat)
    returns (start: nat)
    requires job.Valid() && j < |job.its| && job.filled(buf[..], i, j + 1) && job.its[j] == BytesItem(number, b)
    modifies buf
    ensures job.filled(buf[..], start, j)
  {
    if |b| > 0 {
      start := PutMessage(buf, i, number, b, job, j);
    } else {
      Absent(job, buf[..], i, j);
      start := i;
    }
  }

  function NumberItem(number: nat, v: u64): Item {
    Item(number, if v == 0 then None else Some(Number(v)))
  }

  function BytesItem(number: nat, b: Bytes): Item {
    Item(number, if b == [] then None else Some(Data(b)))
  }

  function MessageItem(number: nat, b: Option<Bytes>): Item {
    Item(number, if b.None? then None else Some(Data(b.value)))
  }
}
