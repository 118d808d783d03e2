/** Big-endian byte strings and the byte-wise order that a key-value store iterates in. */
module BigEndian {
  import opened Ints

  /** `v` in exactly `len` bytes, most significant first; higher bits are cut off. */
  function ToBytes(v: nat, len: nat): (r: Bytes)
    ensures |r| == len
  {
    if len == 0 then [] else ToBytes(v / 256, len - 1) + [v % 256]
  }

  function FromBytes(b: Bytes): (r: nat)
  {
    if |b| == 0 then 0 else 256 * FromBytes(b[..|b| - 1]) + b[|b| - 1]
  }

  lemma {:induction false} DecodeEncode(v: nat, len: nat)
    requires v < Pow(256, len)
    ensures FromBytes(ToBytes(v, len)) == v
  {
    if len > 0 {
      DecodeEncode(v / 256, len - 1);
      assert ToBytes(v, len)[..len - 1] == ToBytes(v / 256, len - 1);
    }
  }

  lemma {:induction false} EncodeDecode(b: Bytes)
    ensures FromBytes(b) < Pow(256, |b|)
    ensures ToBytes(FromBytes(b), |b|) == b
  {
    if |b| > 0 {
      EncodeDecode(b[..|b| - 1]);
      assert b == b[..|b| - 1] + [b[|b| - 1]];
    }
  }

  lemma ShiftDigits(head: nat, p: nat, low: nat, last: nat)
    ensures 256 * (head * p + low) + last == head * (256 * p) + (256 * low + last)
  {
    assert 256 * (head * p) == head * (256 * p);
  }

  lemma LastByte(b: Bytes, init: Bytes, last: byte)
    requires b == init + [last]
    ensures FromBytes(b) == 256 * FromBytes(init) + last
  {
    assert b[..|b| - 1] == init;
  }

  /** The value read from the most significant end. */
  lemma {:induction false} FromBytesHead(b: Bytes)
    requires |b| > 0
    ensures FromBytes(b) == b[0] * Pow(256, |b| - 1) + FromBytes(b[1..])
  {
    if |b| > 1 {
      var init, last := b[..|b| - 1], b[|b| - 1];
      FromBytesHead(init);
      LastByte(b, init, last);
      LastByte(b[1..], init[1..], last);
      ShiftDigits(b[0], Pow(256, |b| - 2), FromBytes(init[1..]), last);
    } else {
      LastByte(b, [], b[0]);
    }
  }

  /** Strict lexicographic order, the order of store iterators. */
  predicate LexLess(a: Bytes, b: Bytes) {
    if b == [] then false
    else if a == [] then true
    else a[0] < b[0] || (a[0] == b[0] && LexLess(a[1..], b[1..]))
  }

  lemma {:induction false} LexTotal(a: Bytes, b: Bytes)
    ensures LexLess(a, b) || a == b || LexLess(b, a)
    ensures !(LexLess(a, b) && LexLess(b, a))
    ensures !LexLess(a, a)
    decreases |a|
  {
    if a != [] {
      if b != [] {
        LexTotal(a[1..], b[1..]);
        if a[1..] == b[1..] && a[0] == b[0] {
          assert a == [a[0]] + a[1..] == b;
        }
      } else {
        LexTotal(a[1..], a[1..]);
      }
    }
  }

  lemma {:induction false} LexTransitive(a: Bytes, b: Bytes, c: Bytes)
    requires LexLess(a, b) && LexLess(b, c)
    ensures LexLess(a, c)
    decreases |a|
  {
    if a != [] && a[0] == b[0] == c[0] {
      LexTransitive(a[1..], b[1..], c[1..]);
    }
  }

  lemma {:induction false} LexCommonPrefix(p: Bytes, a: Bytes, b: Bytes)
    ensures LexLess(p + a, p + b) <==> LexLess(a, b)
  {
    if p == [] {
      assert p + a == a && p + b == b;
    } else {
      assert (p + a)[1..] == p[1..] + a;
      assert (p + b)[1..] == p[1..] + b;
      LexCommonPrefix(p[1..], a, b);
    }
  }

  /** The leading digit decides, and the lower digits break a tie. */
  lemma LeadingDigit(a: nat, b: nat, p: nat, x: nat, y: nat)
    requires x < p && y < p
    ensures a * p + x < b * p + y <==> a < b || (a == b && x < y)
  {
    if a < b {
      assert (a + 1) * p <= b * p;
    } else if b < a {
      assert (b + 1) * p <= a * p;
    }
  }

  /** On byte strings of one length the store order is the numeric order. */
  lemma {:induction false} OrderIsNumeric(a: Bytes, b: Bytes)
    requires |a| == |b|
    ensures LexLess(a, b) <==> FromBytes(a) < FromBytes(b)
  {
    if |a| > 0 {
      FromBytesHead(a);
      FromBytesHead(b);
      OrderIsNumeric(a[1..], b[1..]);
      EncodeDecode(a[1..]);
      EncodeDecode(b[1..]);
      LeadingDigit(a[0], b[0], Pow(256, |a| - 1), FromBytes(a[1..]), FromBytes(b[1..]));
    }
  }
}
