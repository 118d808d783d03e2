/**
 The tag loop shared by all generated decoders, and the skipping of unknown fields.
 */
module Wire {
  import opened Ints
  import opened Options
  import opened Varint

  /** Lengths are Go ints: no byte slice reaches 2^63. */
  type Slice = d: Bytes | |d| < TWO_63

  // ---------- skipping one field ----------

  /** Position after the payload of a field of this wire type, and the new group depth. */
  function PayloadEnd(d: Slice, j: nat, wireType: nat, depth: nat): (r: Result<(int, nat), Error>)
    requires j <= |d|
    ensures r.Ok? ==> r.value.0 < 0 || j <= r.value.0
  {
    match wireType
    case 0 =>
      var (_, n) :- Read(d[j..], 0);
      Ok((j + n, depth))
    case 1 => Ok((Add64(j, 8), depth))
    case 2 =>
      var (v, n) :- Read(d[j..], 0);
      var length := I64(v);
      if length < 0 then Err(InvalidLength) else Ok((Add64(j + n, length), depth))
    case 3 => Ok((j, depth + 1))
    case 4 => if depth == 0 then Err(UnexpectedEndOfGroup) else Ok((j, depth - 1))
    case 5 => Ok((Add64(j, 4), depth))
    case _ => Err(IllegalWireType)
  }

  /** Position after the field that starts at `i`, inside `depth` open groups. It may exceed the input. */
  function FieldEnd(d: Slice, i: nat, depth: nat): (r: Result<nat, Error>)
    ensures r.Ok? ==> i < r.value
    decreases if i < |d| then |d| - i else 0
  {
    if i >= |d| then Err(UnexpectedEof)
    else
      var (wire, n) :- Read(d[i..], 0);
      var (k, depth') :- PayloadEnd(d, i + n, wire % 8, depth);
      if k < 0 then Err(InvalidLength)
      else if depth' == 0 then Ok(k)
      else FieldEnd(d, k, depth')
  }

  /** The switch over the wire type. */
  method SkipPayload(d: Slice, j: nat, wireType: nat, depth: nat) returns (r: Result<(int, nat), Error>)
    requires j <= |d|
    ensures r == PayloadEnd(d, j, wireType, depth)
  {
    match wireType {
      case 0 =>
        var v := DecodeVarint(d, j);
        r := if v.Ok? then Ok((v.value.1, depth)) else Err(v.error);
      case 1 =>
        r := Ok((Add64(j, 8), depth));
      case 2 =>
        var v := DecodeVarint(d, j);
        if v.Err? {
          return Err(v.error);
        }
        var length := I64(v.value.0);
        r := if length < 0 then Err(InvalidLength) else Ok((Add64(v.value.1, length), depth));
      case 3 =>
        r := Ok((j, depth + 1));
      case 4 =>
        r := if depth == 0 then Err(UnexpectedEndOfGroup) else Ok((j, depth - 1));
      case 5 =>
        r := Ok((Add64(j, 4), depth));
      case _ =>
        r := Err(IllegalWireType);
    }
  }

  /** The skipping loop of the source. It advances by at least one byte on success. */
  method Skip(d: Slice) returns (r: Result<nat, Error>)
    ensures r == FieldEnd(d, 0, 0)
    ensures r.Ok? ==> r.value >= 1
  {
    var i, depth := 0, 0;
    while i < |d|
      invariant FieldEnd(d, 0, 0) == FieldEnd(d, i, depth)
      decreases |d| - i
    {
      var tag := DecodeVarint(d, i);
      if tag.Err? {
        return Err(tag.error);
      }
      var next := SkipPayload(d, tag.value.1, tag.value.0 % 8, depth);
      if next.Err? {
        return Err(next.error);
      }
      if next.value.0 < 0 {
        return Err(InvalidLength);
      }
      i, depth := next.value.0, next.value.1;
      if depth == 0 {
        return Ok(i);
      }
    }
    return Err(UnexpectedEof);
  }

  // ---------- one message ----------

  datatype Kind = VarintField | BytesField | UnknownField

  datatype Payload = Number(v: u64) | Data(b: Bytes)

  /** The field table of a message type: which fields it has and how each one is assigned. */
  datatype Schema<!M> = Schema(kind: int -> Kind, assign: (M, int, Payload) -> Result<M, Error>)

  /** A message together with the index up to which the input was used for it. */
  type Parsed<M> = Result<(M, nat), Error>

  function NumberField<M>(s: Schema<M>, m: M, d: Slice, j: nat, number: int, wireType: nat): (r: Parsed<M>)
    requires j <= |d|
    ensures r.Ok? ==> j < r.value.1 <= |d|
  {
    if wireType != 0 then Err(WrongWireType)
    else
      var (v, k) :- Read(d[j..], 0);
      var m' :- s.assign(m, number, Number(U64(v)));
      Ok((m', j + k))
  }

  /** The `length` bytes from `start` on, once the length has been read. */
  function SlicedField<M>(s: Schema<M>, m: M, d: Slice, start: nat, length: i64, number: int): (r: Parsed<M>)
    requires start <= |d|
    ensures r.Ok? ==> start <= r.value.1 <= |d|
  {
    var post := Add64(start, length);
    if length < 0 || post < 0 then Err(InvalidLength)
    else if post > |d| then Err(UnexpectedEof)
    else
      var m' :- s.assign(m, number, Data(d[start..post]));
      Ok((m', post))
  }

  function DataField<M>(s: Schema<M>, m: M, d: Slice, j: nat, number: int, wireType: nat): (r: Parsed<M>)
    requires j <= |d|
    ensures r.Ok? ==> j < r.value.1 <= |d|
  {
    if wireType != 2 then Err(WrongWireType)
    else
      var (v, k) :- Read(d[j..], 0);
      SlicedField(s, m, d, j + k, I64(v), number)
  }

  function SkippedField<M>(m: M, d: Slice, i: nat): (r: Parsed<M>)
    requires i < |d|
    ensures r.Ok? ==> i < r.value.1 <= |d|
  {
    var k :- FieldEnd(d[i..], 0, 0);
    if I64(i + k) < 0 then Err(InvalidLength)
    else if i + k > |d| then Err(UnexpectedEof)
    else Ok((m, i + k))
  }

  /** What follows the tag at `i`, by field number: the payload starts at `j`. */
  function TaggedField<M>(s: Schema<M>, m: M, d: Slice, i: nat, j: nat, wire: nat): (r: Parsed<M>)
    requires i < j <= |d|
    ensures r.Ok? ==> i < r.value.1 <= |d|
  {
    var number, wireType := I32(wire / 8), wire % 8;
    if wireType == 4 then Err(EndGroup)
    else if number <= 0 then Err(IllegalTag)
    else
      match s.kind(number)
      case VarintField => NumberField(s, m, d, j, number, wireType)
      case BytesField => DataField(s, m, d, j, number, wireType)
      case UnknownField => SkippedField(m, d, i)
  }

  /** Reads one field at `i` into `m`. */
  function Field<M>(s: Schema<M>, m: M, d: Slice, i: nat): (r: Parsed<M>)
    requires i < |d|
    ensures r.Ok? ==> i < r.value.1 <= |d|
  {
    var (wire, n) :- Read(d[i..], 0);
    TaggedField(s, m, d, i, i + n, wire)
  }

  /** Reads fields from `i` to the end of the input. */
  function DecodeFrom<M>(s: Schema<M>, m: M, d: Slice, i: nat): (r: Result<M, Error>)
    requires i <= |d|
    decreases |d| - i
  {
    if i == |d| then Ok(m)
    else
      var (m', k) :- Field(s, m, d, i);
      DecodeFrom(s, m', d, k)
  }

  function Decode<M>(s: Schema<M>, m: M, d: Slice): (r: Result<M, Error>) {
    DecodeFrom(s, m, d, 0)
  }

  method UnmarshalNumber<M>(s: Schema<M>, m: M, d: Slice, j: nat, number: int, wireType: nat) returns (r: Parsed<M>)
    requires j <= |d|
    ensures r == NumberField(s, m, d, j, number, wireType)
  {
    if wireType != 0 {
      return Err(WrongWireType);
    }
    var v := DecodeVarint(d, j);
    if v.Err? {
      return Err(v.error);
    }
    var updated := s.assign(m, number, Number(v.value.0));
    r := if updated.Ok? then Ok((updated.value, v.value.1)) else Err(updated.error);
  }

  method UnmarshalData<M>(s: Schema<M>, m: M, d: Slice, j: nat, number: int, wireType: nat) returns (r: Parsed<M>)
    requires j <= |d|
    ensures r == DataField(s, m, d, j, number, wireType)
  {
    if wireType != 2 {
      return Err(WrongWireType);
    }
    var v := DecodeVarint(d, j);
    if v.Err? {
      return Err(v.error);
    }
    var length, start := I64(v.value.0), v.value.1;
    if length < 0 {
      return Err(InvalidLength);
    }
    var post := Add64(start, length);
    if post < 0 {
      return Err(InvalidLength);
    }
    if post > |d| {
      return Err(UnexpectedEof);
    }
    var updated := s.assign(m, number, Data(d[start..post]));
    r := if updated.Ok? then Ok((updated.value, post)) else Err(updated.error);
  }

  method UnmarshalUnknown<M>(m: M, d: Slice, i: nat) returns (r: Parsed<M>)
    requires i < |d|
    ensures r == SkippedField(m, d, i)
  {
    var skippy := Skip(d[i..]);
    if skippy.Err? {
      return Err(skippy.error);
    }
    if I64(i + skippy.value) < 0 {
      return Err(InvalidLength);
    }
    if i + skippy.value > |d| {
      return Err(UnexpectedEof);
    }
    return Ok((m, i + skippy.value));
  }

  /** One round of the tag loop: every index is in range and the index advances. */
  method UnmarshalField<M>(s: Schema<M>, m: M, d: Slice, i: nat) returns (r: Parsed<M>)
    requires i < |d|
    ensures r == Field(s, m, d, i)
  {
    var tag := DecodeVarint(d, i);
    if tag.Err? {
      return Err(tag.error);
    }
    var (wire, at) := tag.value;
    var number, wireType := I32(wire / 8), wire % 8;
    if wireType == 4 {
      return Err(EndGroup);
    }
    if number <= 0 {
      return Err(IllegalTag);
    }
    match s.kind(number) {
      case VarintField =>
        r := UnmarshalNumber(s, m, d, at, number, wireType);
      case BytesField =>
        r := UnmarshalData(s, m, d, at, number, wireType);
      case UnknownField =>
        r := UnmarshalUnknown(m, d, i);
    }
  }

  /** The tag loop: on every input it ends, with an error or with the whole input consumed. */
  method Unmarshal<M>(s: Schema<M>, m0: M, d: Slice) returns (r: Result<M, Error>, consumed: nat)
    ensures r == Decode(s, m0, d)
    ensures r.Ok? ==> consumed == |d|
  {
    var m, i := m0, 0;
    while i < |d|
      invariant i <= |d| && Decode(s, m0, d) == DecodeFrom(s, m, d, i)
      decreases |d| - i
    {
      var one := UnmarshalField(s, m, d, i);
      if one.Err? {
        return Err(one.error), i;
      }
      m, i := one.value.0, one.value.1;
    }
    return Ok(m), i;
  }
}
