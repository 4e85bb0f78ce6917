/** The checksummed envelope of playdate/store/codec.go. */
module Envelope {
  import opened Common

  const HEADER_SIZE: nat := 16
  /** "GPDS" */
  const MAGIC: bytes := [0x47, 0x50, 0x44, 0x53]
  const FNV_OFFSET: uint32 := 2166136261
  const FNV_PRIME: nat := 16777619
  /** FNV_PRIME * FNV_INVERSE == 1 + 3513497 * 2^32 */
  const FNV_INVERSE: nat := 899433627

  // ------------------------------------------------------------ little endian

  function Put32(value: uint32): (s: bytes)
    ensures |s| == 4
  {
    [value % 256, value / 256 % 256, value / 256 / 256 % 256, value / 256 / 256 / 256]
  }

  /** Two digits in base 256, the low one first. */
  function Join(low: int, high: int): int
  {
    low + 256 * high
  }

  function At32(s: bytes, p: nat): uint32
    requires p + 4 <= |s|
  {
    Join(s[p], Join(s[p + 1], Join(s[p + 2], s[p + 3])))
  }

  lemma PutThenAt(value: uint32)
    ensures At32(Put32(value), 0) == value
  {
  }

  lemma AtThenPut(s: bytes, p: nat)
    requires p + 4 <= |s|
    ensures Put32(At32(s, p)) == s[p..p + 4]
  {
    Digit256(s[p], Join(s[p + 1], Join(s[p + 2], s[p + 3])));
    Digit256(s[p + 1], Join(s[p + 2], s[p + 3]));
    Digit256(s[p + 2], s[p + 3]);
    hide Join;
    assert s[p..p + 4] == [s[p], s[p + 1], s[p + 2], s[p + 3]];
  }

  lemma Digit256(low: int, high: int)
    requires 0 <= low < 256
    ensures Join(low, high) % 256 == low && Join(low, high) / 256 == high
  {
  }

  // ----------------------------------------------------------------- checksum

  /** Bitwise exclusive or. */
  function Xor(a: nat, b: nat): nat
  {
    if a == 0 && b == 0 then 0 else 2 * Xor(a / 2, b / 2) + (a % 2 + b % 2) % 2
  }

  lemma XorDigits(a: nat, b: nat)
    ensures Xor(a, b) / 2 == Xor(a / 2, b / 2) && Xor(a, b) % 2 == (a % 2 + b % 2) % 2
  {
  }

  lemma Halves(x: nat, a: nat, d: nat)
    requires x / 2 == a / 2 && x % 2 == ((a % 2 + d) % 2 + d) % 2
    ensures x == a
  {
  }

  lemma {:induction false} XorTwice(a: nat, b: nat)
    ensures Xor(Xor(a, b), b) == a
  {
    if a != 0 || b != 0 {
      XorTwice(a / 2, b / 2);
      XorDigits(a, b);
      XorDigits(Xor(a, b), b);
      hide Xor;
      Halves(Xor(Xor(a, b), b), a, b % 2);
    }
  }

  lemma {:induction false} XorSymmetric(a: nat, b: nat)
    ensures Xor(a, b) == Xor(b, a)
  {
    if a != 0 || b != 0 {
      XorSymmetric(a / 2, b / 2);
    }
  }

  lemma {:induction false} XorBounded(a: nat, b: nat, n: nat)
    requires a < Power2(n) && b < Power2(n)
    ensures Xor(a, b) < Power2(n)
    decreases n
  {
    if n > 0 {
      XorBounded(a / 2, b / 2, n - 1);
    }
  }

  lemma Power32()
    ensures Power2(32) == U32
  {
    assert Power2(8) == 256;
    assert Power2(16) == 65536 by {
      assert Power2(12) == 4096;
    }
    assert Power2(24) == 16777216 by {
      assert Power2(20) == 1048576;
    }
    assert Power2(28) == 268435456;
  }

  lemma XorByte(value: uint32, octet: byte)
    ensures Xor(value, octet) < U32
  {
    Power32();
    XorBounded(value, octet, 32);
  }

  /** One FNV-1a step. */
  function Step(value: uint32, octet: byte): uint32
  {
    (Xor(value, octet) * FNV_PRIME) % 0x1_0000_0000
  }

  function Fold(value: uint32, payload: bytes): uint32
    decreases |payload|
  {
    if payload == [] then value else Fold(Step(value, payload[0]), payload[1..])
  }

  function Checksum(payload: bytes): uint32
  {
    Fold(FNV_OFFSET, payload)
  }

  /** Multiplying by the prime modulo 2^32 is undone by multiplying with its inverse. */
  lemma PrimeInvertible(x: uint32)
    ensures (x * FNV_PRIME) % 0x1_0000_0000 * FNV_INVERSE % 0x1_0000_0000 == x
  {
    var q := x * FNV_PRIME / 0x1_0000_0000;
    var r := x * FNV_PRIME % 0x1_0000_0000;
    var k := 3513497 * x - FNV_INVERSE * q;
    assert r * FNV_INVERSE == x + 0x1_0000_0000 * k;
  }

  /** A step is injective in the state, for a fixed octet. */
  lemma StepInjectiveInState(a: uint32, b: uint32, octet: byte)
    requires Step(a, octet) == Step(b, octet)
    ensures a == b
  {
    XorByte(a, octet);
    XorByte(b, octet);
    PrimeInvertible(Xor(a, octet));
    PrimeInvertible(Xor(b, octet));
    XorTwice(a, octet);
    XorTwice(b, octet);
  }

  /** A step is injective in the octet, for a fixed state. */
  lemma StepInjectiveInOctet(value: uint32, a: byte, b: byte)
    requires Step(value, a) == Step(value, b)
    ensures a == b
  {
    XorByte(value, a);
    XorByte(value, b);
    PrimeInvertible(Xor(value, a));
    PrimeInvertible(Xor(value, b));
    XorSymmetric(value, a);
    XorSymmetric(value, b);
    XorTwice(a, value);
    XorTwice(b, value);
  }

  lemma {:induction false} FoldInjective(a: uint32, b: uint32, payload: bytes)
    requires Fold(a, payload) == Fold(b, payload)
    ensures a == b
    decreases |payload|
  {
    hide Step;
    if payload != [] {
      FoldInjective(Step(a, payload[0]), Step(b, payload[0]), payload[1..]);
      StepInjectiveInState(a, b, payload[0]);
    }
  }

  /** Changing one byte of the payload changes its checksum. */
  lemma {:induction false} OneByteChangesFold(value: uint32, payload: bytes, i: nat, b: byte)
    requires i < |payload| && payload[i] != b
    ensures Fold(value, payload) != Fold(value, payload[i := b])
    decreases |payload|
  {
    hide Step;
    var other := payload[i := b];
    if i == 0 {
      assert other[1..] == payload[1..];
      if Fold(value, payload) == Fold(value, other) {
        FoldInjective(Step(value, payload[0]), Step(value, b), payload[1..]);
        StepInjectiveInOctet(value, payload[0], b);
      }
    } else {
      assert other[1..] == payload[1..][i - 1 := b];
      OneByteChangesFold(Step(value, payload[0]), payload[1..], i - 1, b);
    }
  }

  // ----------------------------------------------------------------- envelope

  function Header(version: uint32, size: uint32, sum: uint32): (s: bytes)
    ensures |s| == HEADER_SIZE
  {
    MAGIC + Put32(version) + Put32(size) + Put32(sum)
  }

  /** The size field is the length truncated to 32 bits. */
  function Encode(version: uint32, payload: bytes): (s: bytes)
    ensures |s| == HEADER_SIZE + |payload|
  {
    Header(version, |payload| % 0x1_0000_0000, Checksum(payload)) + payload
  }

  /** The version and payload of a valid envelope, or None for a corrupt one. */
  function Decode(encoded: bytes, maximumSize: uint32): Option<(uint32, bytes)>
  {
    if |encoded| < HEADER_SIZE || encoded[..4] != MAGIC then None
    else
      var version := At32(encoded, 4);
      var size := At32(encoded, 8);
      var payload := encoded[HEADER_SIZE..];
      if version == 0 || size > maximumSize then None
      else if size + HEADER_SIZE != |encoded| then None
      else if At32(encoded, 12) != Checksum(payload) then None
      else Some((version, payload))
  }

  lemma HeaderFields(version: uint32, size: uint32, sum: uint32, payload: bytes)
    ensures var e := Header(version, size, sum) + payload;
            && |e| == HEADER_SIZE + |payload|
            && e[..4] == MAGIC && At32(e, 4) == version && At32(e, 8) == size && At32(e, 12) == sum
            && e[HEADER_SIZE..] == payload
  {
    var e := Header(version, size, sum) + payload;
    PutThenAt(version);
    PutThenAt(size);
    PutThenAt(sum);
    assert e[..4] == MAGIC;
    assert e[4..8] == Put32(version) && e[8..12] == Put32(size) && e[12..16] == Put32(sum);
    AtLocal(e, 4);
    AtLocal(e, 8);
    AtLocal(e, 12);
  }

  lemma AtLocal(s: bytes, p: nat)
    requires p + 4 <= |s|
    ensures At32(s, p) == At32(s[p..p + 4], 0)
  {
  }

  /** An envelope is its header fields and its payload. */
  lemma HeaderRebuilt(e: bytes)
    requires |e| >= HEADER_SIZE && e[..4] == MAGIC
    ensures e == Header(At32(e, 4), At32(e, 8), At32(e, 12)) + e[HEADER_SIZE..]
  {
    AtThenPut(e, 4);
    AtThenPut(e, 8);
    AtThenPut(e, 12);
    hide Put32, At32;
    assert e == e[..4] + e[4..8] + e[8..12] + e[12..16] + e[16..];
  }

  /**
   * decode accepts exactly the envelopes encode produces for a nonzero
   * version and an allowed payload size, and returns what went in.
   */
  lemma DecodeExact(encoded: bytes, maximumSize: uint32, version: uint32, payload: bytes)
    ensures Decode(encoded, maximumSize) == Some((version, payload)) <==>
            version != 0 && |payload| <= maximumSize && encoded == Encode(version, payload)
  {
    hide Put32, At32, Checksum, Header;
    if |encoded| >= HEADER_SIZE && encoded[..4] == MAGIC {
      HeaderRebuilt(encoded);
    }
    if |payload| <= maximumSize {
      HeaderFields(version, |payload|, Checksum(payload), payload);
    }
  }

  /** A payload within a 32-bit limit has its length in the size field. */
  lemma SmallSize(version: uint32, payload: bytes, maximumSize: uint32)
    requires |payload| <= maximumSize
    ensures Encode(version, payload) == Header(version, |payload|, Checksum(payload)) + payload
  {
  }

  /** The version field's bytes. */
  predicate InVersion(i: nat)
  {
    4 <= i < 8
  }

  /**
   * Substituting one byte of a valid envelope is detected exactly unless it
   * turns the version field into another nonzero version.
   */
  lemma SubstitutionDetected(version: uint32, payload: bytes, maximumSize: uint32, i: nat, b: byte)
    requires version != 0 && |payload| <= maximumSize
    requires i < HEADER_SIZE + |payload| && Encode(version, payload)[i] != b
    ensures var other := Encode(version, payload)[i := b];
            Decode(other, maximumSize).None? <==> !InVersion(i) || At32(other, 4) == 0
    ensures var other := Encode(version, payload)[i := b];
            Decode(other, maximumSize).Some? ==>
              Decode(other, maximumSize).value == (At32(other, 4), payload)
  {
    var e := Encode(version, payload);
    var other := e[i := b];
    SmallSize(version, payload, maximumSize);
    HeaderFields(version, |payload|, Checksum(payload), payload);
    hide Encode, Header, Checksum, At32;
    if i < 4 {
      assert other[..4][i] == b;
    } else if i < 8 {
      assert other[..4] == MAGIC;
      SameField(e, other, 8);
      SameField(e, other, 12);
      assert other[16..] == payload;
    } else if i < 12 {
      FieldChanged(e, 8, i, b);
    } else if i < 16 {
      SameField(e, other, 8);
      FieldChanged(e, 12, i, b);
      assert other[16..] == payload;
    } else {
      SameField(e, other, 12);
      assert other[16..] == payload[i - 16 := b];
      ChecksumChanged(payload, i - 16, b);
    }
  }

  lemma ChecksumChanged(payload: bytes, i: nat, b: byte)
    requires i < |payload| && payload[i] != b
    ensures Checksum(payload[i := b]) != Checksum(payload)
  {
    OneByteChangesFold(FNV_OFFSET, payload, i, b);
  }

  lemma SameField(e: bytes, other: bytes, p: nat)
    requires |e| == |other| && p + 4 <= |e| && forall k :: p <= k < p + 4 ==> e[k] == other[k]
    ensures At32(other, p) == At32(e, p)
  {
  }

  lemma FieldChanged(e: bytes, p: nat, i: nat, b: byte)
    requires p <= i < p + 4 <= |e| && e[i] != b
    ensures At32(e[i := b], p) != At32(e, p)
  {
    AtThenPut(e, p);
    AtThenPut(e[i := b], p);
    assert e[p..p + 4][i - p] != e[i := b][p..p + 4][i - p];
  }

  // ------------------------------------------------------------- the format

  /** The number whose little-endian digits stand at `p`. */
  function Digits256(e: bytes, p: nat): int
    requires p + 4 <= |e|
  {
    Weighted(e[p], e[p + 1], e[p + 2], e[p + 3])
  }

  function Weighted(a: int, b: int, c: int, d: int): int
  {
    a + 0x100 * b + 0x1_0000 * c + 0x100_0000 * d
  }

  /** "GPDS", then version, length and checksum as little-endian numbers, then the payload. */
  lemma EnvelopeFormat(version: uint32, payload: bytes)
    requires |payload| < U32
    ensures var e := Encode(version, payload);
            && |e| == 16 + |payload|
            && e[..4] == ['G' as int, 'P' as int, 'D' as int, 'S' as int]
            && Digits256(e, 4) == version && Digits256(e, 8) == |payload| && Digits256(e, 12) == Checksum(payload)
            && e[16..] == payload
  {
    var e := Encode(version, payload);
    HeaderFields(version, |payload|, Checksum(payload), payload);
    DigitsAt(e, 4);
    DigitsAt(e, 8);
    DigitsAt(e, 12);
    hide Digits256, At32, Checksum, Header;
  }

  lemma DigitsAt(e: bytes, p: nat)
    requires p + 4 <= |e|
    ensures Digits256(e, p) == At32(e, p)
  {
  }

  /** The published FNV-1a values of the empty string and of "a". */
  lemma ChecksumVectors()
    ensures Checksum([]) == 0x811C_9DC5 && Checksum(['a' as int]) == 0xE40C_292C
  {
    hide *;
    ChecksumShort(0x61);
    XorVector();
    StepVector();
  }

  lemma ChecksumShort(octet: byte)
    ensures Checksum([]) == FNV_OFFSET && Checksum([octet]) == Step(FNV_OFFSET, octet)
  {
    hide Step;
    assert [octet][1..] == [];
    assert Fold(Step(FNV_OFFSET, octet), []) == Step(FNV_OFFSET, octet);
  }

  lemma StepVector()
    requires Xor(0x811C_9DC5, 0x61) == 0x811C_9DA4
    ensures FNV_OFFSET == 0x811C_9DC5 && Step(FNV_OFFSET, 0x61) == 0xE40C_292C
  {
    hide Xor;
    assert 0x811C_9DA4 * FNV_PRIME == 8461672 * 0x1_0000_0000 + 0xE40C_292C;
  }

  lemma XorVector()
    ensures Xor(0x811C_9DC5, 0x61) == 0x811C_9DA4
  {
    hide Xor;
    XorStep(2166136261, 97);
    XorStep(1083068130, 48);
    XorStep(541534065, 24);
    XorStep(270767032, 12);
    XorStep(135383516, 6);
    XorStep(67691758, 3);
    XorStep(33845879, 1);
    XorZero(16922939);
  }

  lemma XorStep(a: nat, b: nat)
    ensures Xor(a, b) == 2 * Xor(a / 2, b / 2) + (a % 2 + b % 2) % 2
  {
  }

  lemma {:induction false} XorZero(a: nat)
    ensures Xor(a, 0) == a
  {
    if a > 0 {
      XorZero(a / 2);
    }
  }

  // ------------------------------------------------------- the loops of codec.go

  method ComputeChecksum(payload: bytes) returns (value: uint32)
    ensures value == Checksum(payload)
  {
    value := FNV_OFFSET;
    assert payload[0..] == payload;
    for i := 0 to |payload|
      invariant Fold(value, payload[i..]) == Checksum(payload)
    {
      hide Step;
      assert payload[i..][0] == payload[i] && payload[i..][1..] == payload[i + 1..];
      XorByte(value, payload[i]);
      value := Mixed(value, payload[i]);
    }
  }

  /** value ^= octet; value *= prime, both on 32 bits. */
  method Mixed(value: uint32, octet: byte) returns (r: uint32)
    ensures r == Step(value, octet)
  {
    XorByte(value, octet);
    var mixed: uint32 := Xor(value, octet);
    r := (mixed * FNV_PRIME) % 0x1_0000_0000;
  }

  method PutUint32(target: array<byte>, at: nat, value: uint32)
    requires at + 4 <= target.Length
    modifies target
    ensures target[..] == Placed(old(target[..]), at, value)
  {
    target[at] := value % 256;
    target[at + 1] := value / 256 % 256;
    target[at + 2] := value / 256 / 256 % 256;
    target[at + 3] := value / 256 / 256 / 256;
  }

  /** `s` with four bytes replaced by a little-endian number. */
  function Placed(s: bytes, at: nat, value: uint32): bytes
    requires at + 4 <= |s|
    ensures |Placed(s, at, value)| == |s|
  {
    s[..at] + Put32(value) + s[at + 4..]
  }

  method EncodeBytes(version: uint32, payload: bytes) returns (encoded: array<byte>)
    ensures fresh(encoded) && encoded[..] == Encode(version, payload)
  {
    var blank := MAGIC + Zeros(12) + payload;
    encoded := new byte[HEADER_SIZE + |payload|](i requires 0 <= i < HEADER_SIZE + |payload| => blank[i]);
    assert encoded[..] == blank;
    var sum := ComputeChecksum(payload);
    hide Put32, Checksum, Placed, Encode;
    PutUint32(encoded, 4, version);
    PutUint32(encoded, 8, |payload| % 0x1_0000_0000);
    PutUint32(encoded, 12, sum);
    Assembled(version, payload);
  }

  function Zeros(n: nat): (s: bytes)
    ensures |s| == n
  {
    seq(n, _ => 0)
  }

  /** Writing the magic, the three fields and the payload in place makes the envelope. */
  lemma Assembled(version: uint32, payload: bytes)
    ensures Placed(Placed(Placed(MAGIC + Zeros(12) + payload, 4, version), 8, |payload| % 0x1_0000_0000), 12, Checksum(payload))
         == Encode(version, payload)
  {
    hide Put32, Checksum, Zeros;
    var first := Placed(MAGIC + Zeros(12) + payload, 4, version);
    assert first == MAGIC + Put32(version) + Zeros(12)[4..] + payload;
    var size: uint32 := |payload| % 0x1_0000_0000;
    var second := Placed(first, 8, size);
    assert second == MAGIC + Put32(version) + Put32(size) + Zeros(12)[8..] + payload;
  }
}
