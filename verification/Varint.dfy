/** Base-128 varints: the encoder that fills a buffer, the size formula and the decoding loop. */
module Varint {
  import opened Ints
  import opened Options

  datatype Error =
    | IntOverflow
    | UnexpectedEof
    | InvalidLength
    | UnexpectedEndOfGroup
    | IllegalWireType
    | EndGroup
    | IllegalTag
    | WrongWireType
    | BadSubMessage

  // ---------- bits ----------

  function BitOr(x: nat, y: nat): nat
    decreases x + y
  {
    if x == 0 || y == 0 then x + y
    else (if x % 2 == 1 || y % 2 == 1 then 1 else 0) + 2 * BitOr(x / 2, y / 2)
  }

  /** The number of bits needed to write `x`. */
  function BitLength(x: nat): nat {
    if x == 0 then 0 else 1 + BitLength(x / 2)
  }

  /** A 64-bit left shift: what leaves the word is lost. */
  function Shl64(x: nat, shift: nat): u64 {
    U64(x * Pow(2, shift))
  }

  lemma {:induction false} PowAdd(b: nat, m: nat, n: nat)
    ensures Pow(b, m + n) == Pow(b, m) * Pow(b, n)
  {
    if m > 0 {
      PowAdd(b, m - 1, n);
      MulAssociative(b, Pow(b, m - 1), Pow(b, n));
    }
  }

  lemma MulAssociative(x: nat, y: nat, z: nat)
    ensures x * (y * z) == (x * y) * z
  {
  }

  /** Or-ing in bits above the ones already there is adding them. */
  lemma {:induction false} OrDisjoint(x: nat, y: nat, k: nat)
    requires x < Pow(2, k)
    ensures BitOr(x, y * Pow(2, k)) == x + y * Pow(2, k)
    decreases k
  {
    if k > 0 && x > 0 && y > 0 {
      var h := y * Pow(2, k - 1);
      assert y * Pow(2, k) == 2 * h;
      assert h > 0;
      OrDisjoint(x / 2, y, k - 1);
      assert (2 * h) / 2 == h && (2 * h) % 2 == 0;
    }
  }

  /** The weight of the byte group `k`: 128 to the power `k`. */
  function Weight(k: nat): (w: nat)
    requires k <= 10
  {
    if k == 0 then 1 else if k == 1 then 0x80 else if k == 2 then 0x4000 else if k == 3 then 0x20_0000
    else if k == 4 then 0x1000_0000 else if k == 5 then 0x8_0000_0000 else if k == 6 then 0x400_0000_0000
    else if k == 7 then 0x2_0000_0000_0000 else if k == 8 then 0x100_0000_0000_0000
    else if k == 9 then 0x8000_0000_0000_0000 else 0x40_0000_0000_0000_0000
  }

  lemma {:induction false} WeightIsPower(k: nat)
    requires k <= 10
    ensures Weight(k) == Pow(2, 7 * k)
  {
    if k > 0 {
      WeightIsPower(k - 1);
      PowAdd(2, 7, 7 * (k - 1));
      assert Pow(2, 3) == 8;
      PowAdd(2, 3, 4);
      assert Pow(2, 4) == 16;
    }
  }

  /** A shifted byte group: of the tenth one only the lowest bit stays in the word. */
  function Group(x: nat, k: nat): nat
    requires k < 10
  {
    if k < 9 then x * Weight(k) else (x % 2) * Weight(9)
  }

  lemma ShiftedGroup(x: nat, k: nat)
    requires x < 128 && k < 10
    ensures Shl64(x, 7 * k) == Group(x, k)
  {
    WeightIsPower(k);
    if k < 9 {
      GroupFits(x, k);
    } else {
      assert x == 2 * (x / 2) + x % 2;
      assert x * Weight(9) == (x / 2) * TWO_64 + (x % 2) * Weight(9);
    }
  }

  lemma GroupFits(x: nat, k: nat)
    requires x < 128 && k < 10
    ensures Group(x, k) + Weight(k) <= Weight(k + 1)
    ensures Group(x, k) < TWO_64
  {
    if k < 9 {
      assert (x + 1) * Weight(k) <= 128 * Weight(k);
    }
  }

  // ---------- encoding ----------

  function Encode(v: nat): (r: Bytes)
    ensures |r| > 0
  {
    if v < 128 then [v] else [v % 128 + 128] + Encode(v / 128)
  }

  /** The size formula of the source: seven bits of the word go into each byte. */
  function Sov(v: nat): nat {
    (BitLength(BitOr(v, 1)) + 6) / 7
  }

  lemma BitLengthHalves(x: nat, y: nat)
    requires y > 0 && y == x / 2
    ensures BitLength(x) == 1 + BitLength(y)
  {
  }

  lemma BitLengthShift(x: nat)
    requires x >= 128
    ensures BitLength(x) == 7 + BitLength(x / 128)
  {
    BitLengthHalves(x, x / 2);
    BitLengthHalves(x / 2, x / 4);
    BitLengthHalves(x / 4, x / 8);
    BitLengthHalves(x / 8, x / 16);
    BitLengthHalves(x / 16, x / 32);
    BitLengthHalves(x / 32, x / 64);
    BitLengthHalves(x / 64, x / 128);
  }

  lemma {:induction false} BitLengthSmall(x: nat, k: nat)
    requires 0 < x < Pow(2, k)
    ensures 1 <= BitLength(x) <= k
    decreases k
  {
    if x > 1 {
      BitLengthSmall(x / 2, k - 1);
    }
  }

  lemma {:induction false} EncodedLength(x: nat)
    requires x > 0
    ensures |Encode(x)| == (BitLength(x) + 6) / 7
  {
    if x < 128 {
      WeightIsPower(1);
      BitLengthSmall(x, 7);
    } else {
      BitLengthShift(x);
      EncodedLength(x / 128);
    }
  }

  lemma OrOne(v: nat)
    ensures BitOr(v, 1) == if v % 2 == 1 then v else v + 1
  {
    if v > 0 {
      assert BitOr(v / 2, 0) == v / 2;
    }
  }

  /** Setting the lowest bit does not change the length. */
  lemma SameLength(v: nat)
    requires v % 2 == 0 && v > 0
    ensures |Encode(v + 1)| == |Encode(v)|
  {
    assert (v + 1) / 128 == v / 128;
  }

  /** The size formula gives the number of bytes that the loop emits. */
  lemma SovIsLength(v: nat)
    ensures Sov(v) == |Encode(v)|
  {
    OrOne(v);
    if v % 2 == 0 {
      if v > 0 {
        SameLength(v);
      }
      EncodedLength(v + 1);
    } else {
      EncodedLength(v);
    }
  }

  /** `s` with `data` written over the bytes from `i` on. */
  function Splice(s: Bytes, i: nat, data: Bytes): Bytes
    requires i + |data| <= |s|
  {
    s[..i] + data + s[i + |data|..]
  }

  lemma SpliceAppend(s: Bytes, i: nat, done: Bytes, x: byte)
    requires i + |done| < |s|
    ensures Splice(s, i, done)[i + |done| := x] == Splice(s, i, done + [x])
  {
  }

  /** `done` is written from `base` on and `rest` is still to be encoded after it. */
  ghost predicate Encoding(orig: Bytes, now: Bytes, base: nat, done: Bytes, rest: nat, all: Bytes) {
    done + Encode(rest) == all && base + |all| <= |orig| && |now| == |orig|
    && now == Splice(orig, base, done)
  }

  lemma EncodeMore(orig: Bytes, now: Bytes, base: nat, done: Bytes, rest: nat, all: Bytes)
    requires Encoding(orig, now, base, done, rest, all)
    ensures rest >= 128 ==>
              base + |done| < |now|
              && Encoding(orig, now[base + |done| := rest % 128 + 128], base, done + [rest % 128 + 128],
                          rest / 128, all)
    ensures rest < 128 ==> base + |done| < |now| && now[base + |done| := rest] == Splice(orig, base, all)
  {
    if rest >= 128 {
      var x := rest % 128 + 128;
      assert Encode(rest) == [x] + Encode(rest / 128);
      assert done + ([x] + Encode(rest / 128)) == (done + [x]) + Encode(rest / 128);
      SpliceAppend(orig, base, done, x);
    } else {
      SpliceAppend(orig, base, done, rest);
    }
  }

  /** Writes the varint so that it ends at `offset`, and returns where it starts. */
  method EncodeVarint(buf: array<byte>, offset: nat, v: u64) returns (base: nat)
    requires |Encode(v)| <= offset <= buf.Length
    modifies buf
    ensures base == offset - |Encode(v)|
    ensures buf[..] == Splice(old(buf[..]), base, Encode(v))
  {
    SovIsLength(v);
    base := offset - Sov(v);
    var at, rest: nat := base, v;
    ghost var orig, done: Bytes, all := buf[..], [], Encode(v);
    while rest >= 128
      invariant at == base + |done| && Encoding(orig, buf[..], base, done, rest, all)
    {
      EncodeMore(orig, buf[..], base, done, rest, all);
      buf[at] := rest % 128 + 128;
      done := done + [rest % 128 + 128];
      rest := rest / 128;
      at := at + 1;
    }
    EncodeMore(orig, buf[..], base, done, rest, all);
    buf[at] := rest;
  }

  // ---------- decoding ----------

  /** Value (already shifted into place) and number of bytes of the varint at the front of `d`. */
  function Read(d: Bytes, shift: nat): (r: Result<(nat, nat), Error>)
    ensures r.Ok? ==> 1 <= r.value.1 <= |d|
    decreases |d|
  {
    if shift >= 64 then Err(IntOverflow)
    else if |d| == 0 then Err(UnexpectedEof)
    else
      var group := Shl64(d[0] % 128, shift);
      if d[0] < 128 then Ok((group, 1)) else After(group, 1, Read(d[1..], shift + 7))
  }

  /** A result that continues after `n` bytes with the value `v` read so far. */
  function After(v: nat, n: nat, r: Result<(nat, nat), Error>): Result<(nat, nat), Error> {
    match r
    case Ok((high, m)) => Ok((v + high, n + m))
    case Err(e) => Err(e)
  }

  lemma ReadAt(d: Bytes, at: nat, shift: nat)
    requires at < |d| && shift < 64
    ensures var group := Shl64(d[at] % 128, shift);
            Read(d[at..], shift)
            == if d[at] < 128 then Ok((group, 1)) else After(group, 1, Read(d[at + 1..], shift + 7))
  {
    assert d[at..][0] == d[at] && d[at..][1..] == d[at + 1..];
  }

  /** The bits read from group `k` on are a multiple of its weight and fit in the word. */
  lemma {:induction false} ReadRange(d: Bytes, k: nat)
    requires k <= 10 && Read(d, 7 * k).Ok?
    ensures k < 10 && exists q: nat :: Read(d, 7 * k).value.0 == q * Weight(k) < TWO_64
    decreases |d|
  {
    var x := d[0] % 128;
    ShiftedGroup(x, k);
    GroupFits(x, k);
    if d[0] < 128 {
      var q := if k < 9 then x else x % 2;
      assert Read(d, 7 * k).value.0 == q * Weight(k);
    } else {
      ReadRange(d[1..], k + 1);
      var high := Read(d[1..], 7 * (k + 1)).value.0;
      var q: nat :| high == q * Weight(k + 1) < TWO_64;
      GroupsFit(x, q, k);
      assert Read(d, 7 * k).value.0 == (x + q * 128) * Weight(k);
    }
  }

  lemma GroupsFit(x: nat, q: nat, k: nat)
    requires x < 128 && k < 9 && q * Weight(k + 1) < TWO_64
    ensures Group(x, k) + q * Weight(k + 1) == (x + q * 128) * Weight(k) < TWO_64
  {
    assert q * (128 * Weight(k)) == (q * 128) * Weight(k);
  }

  /** `v` holds the first `k` groups and the rest of the varint starts at `at`. */
  ghost predicate Decoding(d: Bytes, i: nat, at: nat, v: nat, k: nat, shift: nat) {
    i <= at <= |d| && k <= 10 && shift == 7 * k && v < Weight(k)
    && Read(d[i..], 0) == After(v, at - i, Read(d[at..], shift))
  }

  lemma AfterAfter(v: nat, n: nat, group: nat, r: Result<(nat, nat), Error>)
    ensures After(v, n, After(group, 1, r)) == After(v + group, n + 1, r)
  {
  }

  lemma AddGroup(d: Bytes, i: nat, at: nat, v: nat, k: nat, shift: nat, group: nat)
    requires Decoding(d, i, at, v, k, shift) && at < |d| && k < 10 && v + group < Weight(k + 1)
    requires Read(d[at..], shift) == After(group, 1, Read(d[at + 1..], shift + 7))
    ensures Decoding(d, i, at + 1, v + group, k + 1, shift + 7)
  {
    AfterAfter(v, at - i, group, Read(d[at + 1..], shift + 7));
  }

  lemma LastGroup(d: Bytes, i: nat, at: nat, v: nat, k: nat, shift: nat, group: nat)
    requires Decoding(d, i, at, v, k, shift) && at < |d| && Read(d[at..], shift) == Ok((group, 1))
    ensures Read(d[i..], 0) == Ok((v + group, at + 1 - i)) && v + group < TWO_64
  {
    ReadFits(d[i..], v + group, at + 1 - i);
  }

  /** Whichever way group `k` continues, or-ing in its shifted bits keeps up with reading. */
  lemma NextGroup(d: Bytes, i: nat, at: nat, v: nat, k: nat, shift: nat)
    requires Decoding(d, i, at, v, k, shift) && at < |d| && k < 10
    ensures var v' := BitOr(v, Shl64(d[at] % 128, shift));
            if d[at] < 128 then Read(d[i..], 0) == Ok((v', at + 1 - i)) && v' < TWO_64
            else Decoding(d, i, at + 1, v', k + 1, shift + 7)
  {
    var group := Shl64(d[at] % 128, shift);
    ReadAt(d, at, shift);
    OrGroup(v, d[at] % 128, k, shift);
    if d[at] < 128 {
      LastGroup(d, i, at, v, k, shift, group);
    } else {
      AddGroup(d, i, at, v, k, shift, group);
    }
  }

  lemma ReadFits(d: Bytes, v: nat, n: nat)
    requires Read(d, 0) == Ok((v, n))
    ensures v < TWO_64
  {
    ReadRange(d, 0);
  }

  /** The decoding loop of the source, with or-ed groups; it equals the reading of `d` at `i`. */
  method DecodeVarint(d: Bytes, i: nat) returns (r: Result<(u64, nat), Error>)
    requires i <= |d|
    ensures r == After(0, i, Read(d[i..], 0))
  {
    var v: nat, shift: nat, at := 0, 0, i;
    ghost var k := 0;
    while true
      invariant Decoding(d, i, at, v, k, shift)
      decreases |d| - at
    {
      if shift >= 64 {
        return Err(IntOverflow);
      }
      if at >= |d| {
        return Err(UnexpectedEof);
      }
      var b := d[at];
      NextGroup(d, i, at, v, k, shift);
      v := BitOr(v, Shl64(b % 128, shift));
      at := at + 1;
      if b < 128 {
        return Ok((v, at));
      }
      shift := shift + 7;
      k := k + 1;
    }
  }

  lemma OrGroup(v: nat, x: nat, k: nat, shift: nat)
    requires k < 10 && shift == 7 * k && v < Weight(k) && x < 128
    ensures BitOr(v, Shl64(x, shift)) == v + Shl64(x, shift) < Weight(k + 1)
  {
    ShiftedGroup(x, k);
    GroupFits(x, k);
    WeightIsPower(k);
    OrDisjoint(v, if k < 9 then x else x % 2, 7 * k);
  }

  lemma SmallGroup(v: nat, k: nat)
    requires v < 128 && k < 10 && v * Weight(k) < TWO_64
    ensures Group(v, k) == v * Weight(k)
  {
    if k == 9 {
      assert v < 2;
    }
  }

  lemma SplitGroup(v: nat, k: nat)
    requires v >= 128 && k < 10 && v * Weight(k) < TWO_64
    ensures k < 9 && Group(v % 128, k) + (v / 128) * Weight(k + 1) == v * Weight(k)
  {
    assert k < 9;
    var low, high := v % 128, v / 128;
    assert (128 * high + low) * Weight(k) == high * (128 * Weight(k)) + low * Weight(k);
  }

  lemma ReadLast(v: nat, k: nat, rest: Bytes)
    requires k < 10 && v < 128 && v * Weight(k) < TWO_64
    ensures Read([v] + rest, 7 * k) == Ok((v * Weight(k), 1))
  {
    ShiftedGroup(v, k);
    SmallGroup(v, k);
  }

  lemma ReadCons(x: byte, rest: Bytes, shift: nat)
    requires x >= 128 && shift < 64
    ensures Read([x] + rest, shift) == After(Shl64(x - 128, shift), 1, Read(rest, shift + 7))
  {
    assert ([x] + rest)[1..] == rest && x % 128 == x - 128;
  }

  lemma ReadMore(low: nat, k: nat, rest: Bytes)
    requires k < 9 && low < 128
    ensures Read([low + 128] + rest, 7 * k) == After(Group(low, k), 1, Read(rest, 7 * (k + 1)))
  {
    ShiftedGroup(low, k);
    ReadCons(low + 128, rest, 7 * k);
  }

  /** Reading what was encoded gives the value back, whatever follows. */
  lemma {:induction false} ReadEncoded(v: nat, k: nat, rest: Bytes)
    requires k < 10 && v * Weight(k) < TWO_64
    ensures Read(Encode(v) + rest, 7 * k) == Ok((v * Weight(k), |Encode(v)|))
    decreases v
  {
    if v < 128 {
      ReadLast(v, k, rest);
    } else {
      SplitGroup(v, k);
      var low, tail := v % 128 + 128, Encode(v / 128);
      assert ([low] + tail) + rest == [low] + (tail + rest);
      ReadMore(v % 128, k, tail + rest);
      ReadEncoded(v / 128, k + 1, rest);
    }
  }

  lemma ReadBack(v: u64, rest: Bytes)
    ensures Read(Encode(v) + rest, 0) == Ok((v, |Encode(v)|))
  {
    ReadEncoded(v, 0, rest);
  }

  /** A varint is read from its own bytes only. */
  lemma {:induction false} ReadLocal(d: Bytes, shift: nat, e: Bytes)
    requires Read(d, shift).Ok?
    ensures Read(d + e, shift) == Read(d, shift)
    ensures Read(d[..Read(d, shift).value.1], shift) == Read(d, shift)
    decreases |d|
  {
    var n := Read(d, shift).value.1;
    assert (d + e)[1..] == d[1..] + e;
    if d[0] >= 128 {
      ReadLocal(d[1..], shift + 7, e);
      assert d[..n][1..] == d[1..][..n - 1];
    }
  }

  // ---------- what the bytes mean ----------

  /** Seven bits of every byte, the lowest first. */
  function Value(b: Bytes): nat {
    if b == [] then 0 else b[0] % 128 + 128 * Value(b[1..])
  }

  /** All bytes but the last one say that more follow. */
  predicate IsGroupList(b: Bytes) {
    b != [] && b[|b| - 1] < 128 && forall i | 0 <= i < |b| - 1 :: b[i] >= 128
  }

  lemma MoreGroups(x: byte, rest: Bytes)
    requires x >= 128
    ensures IsGroupList([x] + rest) <==> IsGroupList(rest)
    ensures Value([x] + rest) == x - 128 + 128 * Value(rest)
  {
    var b := [x] + rest;
    assert b[1..] == rest;
    if rest != [] {
      assert b[|b| - 1] == rest[|rest| - 1];
      assert forall i | 0 <= i < |rest| - 1 :: b[i + 1] == rest[i];
      assert forall i | 0 < i < |b| - 1 :: b[i] == rest[i - 1];
    }
  }

  /** The encoding carries the number, ends where it says, and is as short as it can be. */
  lemma {:induction false} EncodeMeans(v: nat)
    ensures Value(Encode(v)) == v && IsGroupList(Encode(v))
    ensures |Encode(v)| > 1 ==> Encode(v)[|Encode(v)| - 1] > 0
  {
    if v >= 128 {
      EncodeMeans(v / 128);
      var rest := Encode(v / 128);
      MoreGroups(v % 128 + 128, rest);
      assert Encode(v)[|Encode(v)| - 1] == rest[|rest| - 1];
      assert |rest| == 1 ==> rest == [v / 128];
    } else {
      assert Value([v]) == v % 128 + 128 * Value([]);
    }
  }

  /** The first `k` bytes all say that more follow. */
  predicate AllMore(d: Bytes, k: nat) {
    k <= |d| && forall i | 0 <= i < k :: d[i] >= 128
  }

  lemma {:induction false} ReadShape(d: Bytes, k: nat)
    requires k <= 10
    ensures Read(d, 7 * k).Ok? ==> var n := Read(d, 7 * k).value.1; k + n <= 10 && IsGroupList(d[..n])
    ensures Read(d, 7 * k) == Err(IntOverflow) <==> AllMore(d, 10 - k)
    ensures Read(d, 7 * k) == Err(UnexpectedEof) <==> |d| < 10 - k && AllMore(d, |d|)
    decreases |d|
  {
    if k < 10 && d != [] && d[0] >= 128 {
      ReadShape(d[1..], k + 1);
      assert 7 * k + 7 == 7 * (k + 1);
      var r := Read(d, 7 * k);
      if r.Ok? {
        var n := r.value.1;
        MoreGroups(d[0], d[1..][..n - 1]);
        assert d[..n] == [d[0]] + d[1..][..n - 1];
      }
      MoreLeft(d, 10 - k);
      MoreLeft(d, |d|);
    }
  }

  lemma {:induction false} ReadErrors(d: Bytes, shift: nat)
    ensures Read(d, shift).Err? ==> Read(d, shift).error.IntOverflow? || Read(d, shift).error.UnexpectedEof?
    decreases |d|
  {
    if d != [] {
      ReadErrors(d[1..], shift + 7);
    }
  }

  lemma MoreLeft(d: Bytes, k: nat)
    requires d != [] && d[0] >= 128 && k > 0
    ensures AllMore(d, k) <==> AllMore(d[1..], k - 1)
  {
    if AllMore(d[1..], k - 1) {
      forall i | 0 <= i < k
        ensures d[i] >= 128
      {
        assert i > 0 ==> d[i] == d[1..][i - 1];
      }
    }
  }

  lemma ModOf(x: nat, q: nat)
    requires x < TWO_64
    ensures (x + TWO_64 * q) % TWO_64 == x
  {
  }

  lemma AddMod(a: nat, b: nat)
    requires a + b % TWO_64 < TWO_64
    ensures a + b % TWO_64 == (a + b) % TWO_64
  {
    ModOf(a + b % TWO_64, b / TWO_64);
  }

  lemma Distribute(x: nat, value: nat, k: nat)
    requires k < 9
    ensures (x + 128 * value) * Weight(k) == x * Weight(k) + value * Weight(k + 1)
  {
    assert value * (128 * Weight(k)) == (128 * value) * Weight(k);
  }

  lemma LastValue(x: nat, k: nat)
    requires x < 128 && k < 10
    ensures Group(x, k) == (x * Weight(k)) % TWO_64
  {
    GroupFits(x, k);
    if k < 9 {
      ModOf(x * Weight(k), 0);
    } else {
      assert x * Weight(9) == (x % 2) * Weight(9) + TWO_64 * (x / 2);
      ModOf((x % 2) * Weight(9), x / 2);
    }
  }

  /** What is read is the value of the bytes, cut to 64 bits. */
  lemma {:induction false} ReadValue(d: Bytes, k: nat)
    requires k < 10 && Read(d, 7 * k).Ok?
    ensures var (v, n) := Read(d, 7 * k).value; v == (Value(d[..n]) * Weight(k)) % TWO_64
    decreases |d|
  {
    var x, n := d[0] % 128, Read(d, 7 * k).value.1;
    ShiftedGroup(x, k);
    if d[0] < 128 {
      assert d[..1] == [d[0]] && Value([d[0]]) == x + 128 * Value([]);
      LastValue(x, k);
    } else {
      assert 7 * k + 7 == 7 * (k + 1);
      ReadShape(d, k);
      ReadValue(d[1..], k + 1);
      var rest := d[1..][..n - 1];
      assert d[..n] == [d[0]] + rest;
      MoreGroups(d[0], rest);
      AddGroupValue(d, k, x, n, Value(rest));
    }
  }

  lemma AddGroupValue(d: Bytes, k: nat, x: nat, n: nat, high: nat)
    requires k < 9 && x < 128 && Read(d, 7 * k) == Ok((Group(x, k) + (high * Weight(k + 1)) % TWO_64, n))
    ensures Group(x, k) + (high * Weight(k + 1)) % TWO_64 == ((x + 128 * high) * Weight(k)) % TWO_64
  {
    ReadRange(d, k);
    Distribute(x, high, k);
    AddMod(x * Weight(k), high * Weight(k + 1));
  }

  /**
   Main result: reading takes the bytes up to the first one that ends a number, at most ten, and gives
   their value cut to 64 bits; ten bytes that all continue overflow, and fewer are an early end.
   */
  lemma ReadMeans(d: Bytes)
    ensures Read(d, 0).Ok? ==>
              var (v, n) := Read(d, 0).value;
              n <= 10 && IsGroupList(d[..n]) && v == Value(d[..n]) % 0x1_0000_0000_0000_0000
    ensures Read(d, 0) == Err(IntOverflow) <==> AllMore(d, 10)
    ensures Read(d, 0) == Err(UnexpectedEof) <==> |d| < 10 && AllMore(d, |d|)
    ensures Read(d, 0).Err? ==> Read(d, 0).error.IntOverflow? || Read(d, 0).error.UnexpectedEof?
  {
    ReadShape(d, 0);
    ReadErrors(d, 0);
    if Read(d, 0).Ok? {
      ReadValue(d, 0);
    }
  }
}
