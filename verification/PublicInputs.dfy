/**
 The bytes that prover and verifier hash into the public input of the proof. Each side builds them
 on its own, appending to a buffer through one 32-byte scratch array that it reuses.
 */
module PublicInputs {
  import opened Ints
  import opened Options
  import opened BigEndian
  import opened Types
  import ClientModel
  import Varint

  /** The eight values that are hashed together. */
  datatype Inputs = Inputs(
    chainId: Bytes,
    height: i64,
    seconds: i64,
    nanos: Nanos,
    validatorsHash: Bytes,
    nextValidatorsHash: Bytes,
    appHash: Bytes,
    trustedHash: Bytes)

  function Abs(x: int): nat {
    if x < 0 then -x else x
  }

  /** The value fits into the scratch array; otherwise writing it panics. */
  predicate FitsWord(b: Bytes) {
    FromBytes(b) < Pow(256, 32)
  }

  predicate Writable(x: Inputs) {
    FitsWord(x.chainId) && FitsWord(x.validatorsHash) && FitsWord(x.nextValidatorsHash) && FitsWord(x.trustedHash)
  }

  /** A byte string read as a number and written back in 32 bytes: leading zeros are not kept. */
  function Word(b: Bytes): Bytes {
    ToBytes(FromBytes(b), 32)
  }

  /** The absolute value of a number in 32 bytes: the sign is not kept. */
  function SignedWord(x: int): Bytes {
    ToBytes(Abs(x), 32)
  }

  /** Seven words, with the application hash at its own length in between. */
  function Preimage(x: Inputs): Bytes {
    Word(x.chainId) + SignedWord(x.height) + SignedWord(x.seconds) + SignedWord(x.nanos)
    + Word(x.validatorsHash) + Word(x.nextValidatorsHash) + x.appHash + Word(x.trustedHash)
  }

  // ---------- building the bytes ----------

  lemma ShiftFits(v: nat, n: nat)
    requires n > 0
    ensures v < Pow(256, n) <==> v / 256 < Pow(256, n - 1)
  {
  }

  /** Fills the array with the number, most significant byte first; a number that is too large panics. */
  method FillBytes(buf: array<byte>, v: nat) returns (panicked: bool)
    modifies buf
    ensures panicked <==> v >= Pow(256, buf.Length)
    ensures !panicked ==> buf[..] == ToBytes(v, buf.Length)
  {
    var rest: nat, i := v, buf.Length;
    while i > 0
      invariant 0 <= i <= buf.Length
      invariant ToBytes(v, buf.Length) == ToBytes(rest, i) + buf[i..]
      invariant v < Pow(256, buf.Length) <==> rest < Pow(256, i)
    {
      ShiftFits(rest, i);
      ghost var done := buf[i..];
      buf[i - 1] := rest % 256;
      assert buf[i - 1..] == [rest % 256] + done;
      assert ToBytes(rest / 256, i - 1) + [rest % 256] + done == ToBytes(rest / 256, i - 1) + ([rest % 256] + done);
      rest := rest / 256;
      i := i - 1;
    }
    panicked := rest != 0;
  }

  /** The growing buffer and the scratch array that the writers share. */
  class Writer {
    var buff: Bytes
    var panicked: bool
    const padded: array<byte>

    ghost predicate Valid()
      reads this
    {
      padded.Length == 32
    }

    constructor ()
      ensures Valid() && buff == [] && !panicked && fresh(padded)
    {
      buff := [];
      panicked := false;
      padded := new byte[32];
    }

    method WriteI64(x: i64)
      requires Valid()
      modifies this, padded
      ensures Valid() && panicked == old(panicked) && buff == old(buff) + SignedWord(x)
    {
      SmallNumber(x);
      var p := FillBytes(padded, Abs(x));
      panicked := panicked || p;
      buff := buff + padded[..];
    }

    method WriteMiMCHash(b: Bytes)
      requires Valid()
      modifies this, padded
      ensures Valid() && panicked == (old(panicked) || !FitsWord(b))
      ensures FitsWord(b) ==> buff == old(buff) + Word(b)
    {
      var p := FillBytes(padded, FromBytes(b));
      panicked := panicked || p;
      buff := buff + padded[..];
    }

    method WriteHash(b: Bytes)
      requires Valid()
      modifies this
      ensures Valid() && panicked == old(panicked) && buff == old(buff) + b
    {
      buff := buff + b;
    }
  }

  lemma SmallNumber(x: i64)
    ensures Abs(x) < Pow(256, 32)
  {
    Values();
  }

  /** The bytes hold these values, each at its place; numbers lose their sign. */
  ghost predicate Holds(p: Bytes, chainId: Bytes, height: i64, time: Time, validatorsHash: Bytes,
                        nextValidatorsHash: Bytes, appHash: Bytes, trustedHash: Bytes)
  {
    var n := 192 + |appHash|;
    |p| == n + 32
    && FromBytes(p[..32]) == FromBytes(chainId)
    && (FromBytes(p[32..64]) == height || FromBytes(p[32..64]) + height == 0)
    && (FromBytes(p[64..96]) == time.seconds || FromBytes(p[64..96]) + time.seconds == 0)
    && FromBytes(p[96..128]) == time.nanos
    && FromBytes(p[128..160]) == FromBytes(validatorsHash)
    && FromBytes(p[160..192]) == FromBytes(nextValidatorsHash)
    && p[192..n] == appHash
    && FromBytes(p[n..]) == FromBytes(trustedHash)
  }

  /** All values that are written as words are below 2^256. */
  ghost predicate AllFit(chainId: Bytes, validatorsHash: Bytes, nextValidatorsHash: Bytes, trustedHash: Bytes) {
    FromBytes(chainId) < Pow(256, 32) && FromBytes(validatorsHash) < Pow(256, 32)
    && FromBytes(nextValidatorsHash) < Pow(256, 32) && FromBytes(trustedHash) < Pow(256, 32)
  }

  lemma WordHolds(b: Bytes)
    requires FitsWord(b)
    ensures FromBytes(Word(b)) == FromBytes(b)
  {
    DecodeEncode(FromBytes(b), 32);
  }

  lemma NumberHolds(x: i64)
    ensures FromBytes(SignedWord(x)) == x || FromBytes(SignedWord(x)) + x == 0
  {
    SmallNumber(x);
    DecodeEncode(Abs(x), 32);
  }

  /** The pre-image read back, word by word. */
  lemma PreimageHolds(x: Inputs)
    requires Writable(x)
    ensures Holds(Preimage(x), x.chainId, x.height, Time(x.seconds, x.nanos), x.validatorsHash,
                  x.nextValidatorsHash, x.appHash, x.trustedHash)
  {
    PartsOf(x);
    WordHolds(x.chainId);
    NumberHolds(x.height);
    NumberHolds(x.seconds);
    NumberHolds(x.nanos);
    WordHolds(x.validatorsHash);
    WordHolds(x.nextValidatorsHash);
    WordHolds(x.trustedHash);
  }

  /** What the verifier hashes: the chain id comes from its client state. */
  function VerifierInputs(h: ClientModel.ProverLightHeader, trustedHash: Bytes): Inputs {
    Inputs(h.chainId, h.height, h.time.seconds, h.time.nanos, h.validatorsHash, h.nextValidatorsHash, h.appHash,
           trustedHash)
  }

  /** What the prover hashes: the chain id comes from the vote, the rest from the untrusted header. */
  function ProverInputs(chainId: Bytes, h: LightHeader, trustedHash: Bytes): Inputs {
    Inputs(chainId, h.height, h.time.seconds, h.time.nanos, h.validatorsHash, h.nextValidatorsHash, h.appHash,
           trustedHash)
  }

  /** The eight writes of the verifier in order; nothing if one of them panics. */
  method VerifierPreimage(h: ClientModel.ProverLightHeader, trustedHash: Bytes) returns (r: Option<Bytes>)
    ensures r == var x := VerifierInputs(h, trustedHash); if Writable(x) then Some(Preimage(x)) else None
    ensures r.Some? <==> AllFit(h.chainId, h.validatorsHash, h.nextValidatorsHash, trustedHash)
    ensures r.Some? ==> Holds(r.value, h.chainId, h.height, h.time, h.validatorsHash, h.nextValidatorsHash,
                              h.appHash, trustedHash)
  {
    ghost var x := VerifierInputs(h, trustedHash);
    if Writable(x) {
      PreimageHolds(x);
    }
    var w := new Writer();
    w.WriteMiMCHash(h.chainId);
    w.WriteI64(h.height);
    w.WriteI64(h.time.seconds);
    w.WriteI64(h.time.nanos);
    w.WriteMiMCHash(h.validatorsHash);
    w.WriteMiMCHash(h.nextValidatorsHash);
    w.WriteHash(h.appHash);
    w.WriteMiMCHash(trustedHash);
    assert [] + Word(h.chainId) == Word(h.chainId);
    r := if w.panicked then None else Some(w.buff);
  }

  /** The eight writes of the prover. */
  method ProverPreimage(chainId: Bytes, h: LightHeader, trustedHash: Bytes) returns (r: Option<Bytes>)
    ensures r == var x := ProverInputs(chainId, h, trustedHash); if Writable(x) then Some(Preimage(x)) else None
    ensures r.Some? <==> AllFit(chainId, h.validatorsHash, h.nextValidatorsHash, trustedHash)
    ensures r.Some? ==> Holds(r.value, chainId, h.height, h.time, h.validatorsHash, h.nextValidatorsHash,
                              h.appHash, trustedHash)
  {
    ghost var x := ProverInputs(chainId, h, trustedHash);
    if Writable(x) {
      PreimageHolds(x);
    }
    var w := new Writer();
    w.WriteMiMCHash(chainId);
    w.WriteI64(h.height);
    w.WriteI64(h.time.seconds);
    w.WriteI64(h.time.nanos);
    w.WriteMiMCHash(h.validatorsHash);
    w.WriteMiMCHash(h.nextValidatorsHash);
    w.WriteHash(h.appHash);
    w.WriteMiMCHash(trustedHash);
    assert [] + Word(chainId) == Word(chainId);
    r := if w.panicked then None else Some(w.buff);
  }

  // ---------- what the bytes determine ----------

  lemma Values()
    ensures Pow(256, 8) == TWO_64
    ensures Pow(256, 31) == 0x1_0000_0000_0000_0000_0000_0000_0000_0000_0000_0000_0000_0000_0000_0000_0000_00
    ensures Pow(256, 32) > Pow(256, 31) > TWO_64
  {
    assert Pow(256, 2) == 0x1_0000;
    Varint.PowAdd(256, 2, 2);
    Varint.PowAdd(256, 4, 4);
    Varint.PowAdd(256, 8, 8);
    Varint.PowAdd(256, 4, 3);
    assert Pow(256, 3) == 0x100_0000;
    Varint.PowAdd(256, 8, 7);
    Varint.PowAdd(256, 16, 15);
  }

  lemma WordsDetermine(a: nat, b: nat)
    requires a < Pow(256, 32) && b < Pow(256, 32)
    ensures ToBytes(a, 32) == ToBytes(b, 32) <==> a == b
  {
    DecodeEncode(a, 32);
    DecodeEncode(b, 32);
  }

  /** The numbers and the application hash are the same. */
  predicate SameNumbers(a: Inputs, b: Inputs) {
    && FromBytes(a.chainId) == FromBytes(b.chainId)
    && Abs(a.height) == Abs(b.height)
    && Abs(a.seconds) == Abs(b.seconds)
    && a.nanos == b.nanos
    && FromBytes(a.validatorsHash) == FromBytes(b.validatorsHash)
    && FromBytes(a.nextValidatorsHash) == FromBytes(b.nextValidatorsHash)
    && a.appHash == b.appHash
    && FromBytes(a.trustedHash) == FromBytes(b.trustedHash)
  }

  lemma CutWords(a: Bytes, b: Bytes, c: Bytes, d: Bytes, rest: Bytes)
    requires |a| == |b| == |c| == |d| == 32
    ensures var p := a + b + c + d + rest;
            p[..32] == a && p[32..64] == b && p[64..96] == c && p[96..128] == d && p[128..] == rest
  {
  }

  lemma CutTail(e: Bytes, f: Bytes, hash: Bytes, g: Bytes)
    requires |e| == |f| == 32
    ensures var q := e + f + hash + g;
            q[..32] == e && q[32..64] == f && q[64..64 + |hash|] == hash && q[64 + |hash|..] == g
  {
  }

  /** Cutting a pre-image into its parts: the length tells how long the application hash is. */
  lemma PartsOf(x: Inputs)
    ensures var p, n := Preimage(x), 192 + |x.appHash|;
            |p| == n + 32 && p[..32] == Word(x.chainId) && p[32..64] == SignedWord(x.height)
            && p[64..96] == SignedWord(x.seconds) && p[96..128] == SignedWord(x.nanos)
            && p[128..160] == Word(x.validatorsHash) && p[160..192] == Word(x.nextValidatorsHash)
            && p[192..n] == x.appHash && p[n..] == Word(x.trustedHash)
  {
    var head := Word(x.chainId) + SignedWord(x.height) + SignedWord(x.seconds) + SignedWord(x.nanos);
    var tail := Word(x.validatorsHash) + Word(x.nextValidatorsHash) + x.appHash + Word(x.trustedHash);
    var p, n := Preimage(x), 192 + |x.appHash|;
    assert p == head + tail;
    CutWords(Word(x.chainId), SignedWord(x.height), SignedWord(x.seconds), SignedWord(x.nanos), tail);
    CutTail(Word(x.validatorsHash), Word(x.nextValidatorsHash), x.appHash, Word(x.trustedHash));
    assert p[128..160] == tail[..32] && p[160..192] == tail[32..64];
    assert p[192..n] == tail[64..n - 128] && p[n..] == tail[n - 128..];
  }

  predicate SameWords(a: Inputs, b: Inputs) {
    && Word(a.chainId) == Word(b.chainId)
    && SignedWord(a.height) == SignedWord(b.height)
    && SignedWord(a.seconds) == SignedWord(b.seconds)
    && SignedWord(a.nanos) == SignedWord(b.nanos)
    && Word(a.validatorsHash) == Word(b.validatorsHash)
    && Word(a.nextValidatorsHash) == Word(b.nextValidatorsHash)
    && a.appHash == b.appHash
    && Word(a.trustedHash) == Word(b.trustedHash)
  }

  lemma PreimageIsItsWords(a: Inputs, b: Inputs)
    ensures Preimage(a) == Preimage(b) <==> SameWords(a, b)
  {
    PartsOf(a);
    PartsOf(b);
  }

  lemma HashWords(a: Bytes, b: Bytes)
    requires FromBytes(a) < Pow(256, 32) && FromBytes(b) < Pow(256, 32)
    ensures Word(a) == Word(b) <==> FromBytes(a) == FromBytes(b)
  {
    WordsDetermine(FromBytes(a), FromBytes(b));
  }

  lemma NumberWords(a: i64, b: i64)
    ensures SignedWord(a) == SignedWord(b) <==> Abs(a) == Abs(b)
  {
    SmallNumber(a);
    SmallNumber(b);
    WordsDetermine(Abs(a), Abs(b));
  }

  /** Main result: two pre-images are equal exactly when the numbers in them are. */
  lemma PreimageDetermines(a: Inputs, b: Inputs)
    requires Writable(a) && Writable(b)
    ensures Preimage(a) == Preimage(b) <==> SameNumbers(a, b)
  {
    PreimageIsItsWords(a, b);
    HashWords(a.chainId, b.chainId);
    NumberWords(a.height, b.height);
    NumberWords(a.seconds, b.seconds);
    NumberWords(a.nanos, b.nanos);
    HashWords(a.validatorsHash, b.validatorsHash);
    HashWords(a.nextValidatorsHash, b.nextValidatorsHash);
    HashWords(a.trustedHash, b.trustedHash);
  }

  /** A chain id that the verifier accepts and 32-byte hashes, with no negative number. */
  predicate WellFormed(x: Inputs) {
    && 1 <= |x.chainId| <= 31 && x.chainId[0] != 0
    && x.height >= 0 && x.seconds >= 0
    && |x.validatorsHash| == |x.nextValidatorsHash| == |x.trustedHash| == 32
  }

  lemma {:induction false} PowMonotone(m: nat, n: nat)
    ensures m <= n ==> Pow(256, m) <= Pow(256, n)
    decreases n
  {
    if m < n {
      PowMonotone(m, n - 1);
    }
  }

  lemma WellFormedIsWritable(x: Inputs)
    requires WellFormed(x)
    ensures Writable(x)
  {
    EncodeDecode(x.chainId);
    PowMonotone(|x.chainId|, 32);
    EncodeDecode(x.validatorsHash);
    EncodeDecode(x.nextValidatorsHash);
    EncodeDecode(x.trustedHash);
  }

  /** Without leading zeros the length shows in the number. */
  lemma LengthShows(a: Bytes, b: Bytes)
    requires |a| > 0 && |b| > 0 && a[0] != 0 && b[0] != 0 && FromBytes(a) == FromBytes(b)
    ensures a == b
  {
    LeadingByte(a);
    LeadingByte(b);
    EncodeDecode(a);
    EncodeDecode(b);
    PowMonotone(|a|, |b| - 1);
    PowMonotone(|b|, |a| - 1);
  }

  lemma LeadingByte(a: Bytes)
    requires |a| > 0 && a[0] != 0
    ensures FromBytes(a) >= Pow(256, |a| - 1)
  {
    FromBytesHead(a);
    AtLeastOnce(a[0], Pow(256, |a| - 1));
  }

  lemma AtLeastOnce(x: nat, p: nat)
    requires x >= 1
    ensures x * p >= p
  {
  }

  /** Main result: well-formed headers with the same pre-image agree in all eight fields. */
  lemma PreimageInjective(a: Inputs, b: Inputs)
    requires WellFormed(a) && WellFormed(b)
    ensures Writable(a) && Writable(b)
    ensures Preimage(a) == Preimage(b) <==> a == b
  {
    WellFormedIsWritable(a);
    WellFormedIsWritable(b);
    PreimageDetermines(a, b);
    if SameNumbers(a, b) {
      LengthShows(a.chainId, b.chainId);
      EncodeDecode(a.validatorsHash);
      EncodeDecode(b.validatorsHash);
      EncodeDecode(a.nextValidatorsHash);
      EncodeDecode(b.nextValidatorsHash);
      EncodeDecode(a.trustedHash);
      EncodeDecode(b.trustedHash);
    }
  }

  /** Prover and verifier hash the same bytes exactly when they speak about the same header and validators. */
  lemma ProverAndVerifierAgree(h: ClientModel.ProverLightHeader, trusted: Bytes, chainId: Bytes, l: LightHeader, root: Bytes)
    requires WellFormed(VerifierInputs(h, trusted)) && WellFormed(ProverInputs(chainId, l, root))
    ensures Preimage(VerifierInputs(h, trusted)) == Preimage(ProverInputs(chainId, l, root))
       <==> h == ClientModel.ProverLightHeader(chainId, l.height, l.time, l.validatorsHash, l.nextValidatorsHash, l.appHash)
            && trusted == root
  {
    PreimageInjective(VerifierInputs(h, trusted), ProverInputs(chainId, l, root));
  }

  /** Outside the well-formed headers the sign of a height and leading NULs of a chain id are lost. */
  lemma SignAndLeadingZerosAreLost(x: Inputs)
    requires Writable(x) && x.height > 0
    ensures var y := x.(height := -x.height, chainId := [0] + x.chainId);
            y != x && Writable(y) && Preimage(y) == Preimage(x)
  {
    var y := x.(height := -x.height, chainId := [0] + x.chainId);
    LeadingZero(x.chainId, y.chainId);
    PreimageDetermines(x, y);
  }

  lemma LeadingZero(b: Bytes, padded: Bytes)
    requires padded == [0] + b
    ensures FromBytes(padded) == FromBytes(b)
  {
    FromBytesHead(padded);
    assert padded[1..] == b;
  }

  // ---------- from the digest to the field ----------

  /** The order of the BN254 scalar field. */
  const BN254_R: nat := 21888242871839275222246405745257275088548364400416034343698204186575808495617

  lemma FieldOrder()
    ensures BN254_R == 0x30644e72e131a029b85045b68181585d2833e84879b9709143e1f593f0000001
  {
  }

  /** The last 31 bytes of the digest as a field element. */
  function DigestElement(digest: Bytes): nat
    requires |digest| == 32
  {
    FromBytes(digest[1..]) % BN254_R
  }

  /** The tail is below the modulus, so nothing is reduced and different tails stay different. */
  lemma DigestNeverReduced(d: Bytes, e: Bytes)
    requires |d| == |e| == 32
    ensures DigestElement(d) == FromBytes(d[1..])
    ensures DigestElement(d) == DigestElement(e) <==> d[1..] == e[1..]
  {
    TailBelowModulus(d[1..]);
    TailBelowModulus(e[1..]);
    EncodeDecode(d[1..]);
    EncodeDecode(e[1..]);
  }

  lemma TailBelowModulus(tail: Bytes)
    requires |tail| == 31
    ensures FromBytes(tail) % BN254_R == FromBytes(tail)
  {
    Values();
    EncodeDecode(tail);
    SmallMod(FromBytes(tail), BN254_R);
  }

  lemma SmallMod(x: nat, n: nat)
    requires x < n
    ensures x % n == x
  {
  }

  /** The keyed hash mapped into the field: never zero, never out of range, so neither panic can happen. */
  method HashToField(mac: Bytes, modulus: nat) returns (panicked: bool, element: nat)
    requires 2 <= modulus < Pow(256, 32)
    ensures !panicked && 1 <= element < modulus
    ensures (element - 1) % (modulus - 1) == FromBytes(mac) % (modulus - 1)
  {
    var num := FromBytes(mac);
    num := num % (modulus - 1);
    SmallMod(num, modulus - 1);
    num := num + 1;
    var overflow := num >= Pow(256, 32);
    var valBytes := ToBytes(num, 32);
    DecodeEncode(num, 32);
    element := FromBytes(valBytes);
    panicked := overflow || element >= modulus;
  }
}
