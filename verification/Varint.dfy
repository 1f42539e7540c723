/**
 Base-128 varints (Protocol Buffers Encoding, section "Base 128 Varints") as the
 generated Go code writes and reads them.
 */
module Varint {
  import opened Basics

  datatype WireError =
    | IntOverflow          // "proto: integer overflow"
    | UnexpectedEOF        // io.ErrUnexpectedEOF
    | InvalidLength        // "proto: negative length found during unmarshaling"
    | UnexpectedEndOfGroup // "proto: unexpected end of group"
    | EndGroupTag          // "wiretype end group for non-group"
    | IllegalTag           // "illegal tag"
    | WrongWireType        // "wrong wireType"
    | IllegalWireType      // "illegal wireType"

  /** A decoded varint: its value and the number of bytes it took. */
  datatype Decoded = Decoded(value: nat, size: nat)

  // ---------------------------------------------------------------- writing

  /** The bytes of a varint, low seven bits first. */
  function Encode(v: nat): (b: Bytes)
    ensures |b| >= 1
  {
    if v < 128 then [v] else [v % 128 + 128] + Encode(v / 128)
  }

  /** `math/bits.Len64`: the number of bits needed to write x. */
  function BitLength(x: nat): nat {
    if x == 0 then 0 else 1 + BitLength(x / 2)
  }

  /** `sovTypes`: (bits.Len64(x|1) + 6) / 7. */
  function Sov(x: nat): nat {
    (BitLength(if x % 2 == 0 then x + 1 else x) + 6) / 7
  }

  /** Three bits at a time. */
  lemma ThreeBits(x: nat)
    ensures BitLength(x) <= 3 + BitLength(x / 8)
    ensures x >= 8 ==> BitLength(x) == 3 + BitLength(x / 8)
  {
    assert x / 2 / 2 == x / 4 && x / 4 / 2 == x / 8;
    assert BitLength(x / 4) <= 1 + BitLength(x / 8);
    assert BitLength(x / 2) <= 1 + BitLength(x / 4);
  }

  lemma BitLengthStep(x: nat)
    requires x >= 128
    ensures BitLength(x) == 7 + BitLength(x / 128)
  {
    assert BitLength(x / 64) == 1 + BitLength(x / 64 / 2);
    hide BitLength;
    ThreeBits(x);
    ThreeBits(x / 8);
    assert x / 8 / 8 == x / 64 && x / 64 / 2 == x / 128;
  }

  lemma OddBitLength(x: nat)
    requires x >= 1
    ensures BitLength(if x % 2 == 0 then x + 1 else x) == BitLength(x)
  {
    assert (x + 1) / 2 == x / 2 || x % 2 == 1;
  }

  lemma SmallBitLength(x: nat)
    requires x < 128
    ensures BitLength(x) <= 7
    ensures x >= 1 ==> BitLength(x) >= 1
  {
    assert x / 64 < 2 && BitLength(x / 64) <= 1;
    assert x >= 1 ==> BitLength(x) >= 1;
    hide BitLength;
    ThreeBits(x);
    ThreeBits(x / 8);
    assert x / 8 / 8 == x / 64;
  }

  /** The size arithmetic agrees with the number of bytes the writing loop produces. */
  lemma {:induction false} SovIsLength(v: nat)
    ensures Sov(v) == |Encode(v)|
  {
    if v == 0 {
      assert BitLength(1) == 1 + BitLength(0);
    } else {
      OddBitLength(v);
      if v < 128 {
        SmallBitLength(v);
      } else {
        BitLengthStep(v);
        SovIsLength(v / 128);
        OddBitLength(v / 128);
      }
    }
  }

  /**
   `encodeVarintTypes` and `encodeVarintFabric`: write v so that it ends just before
   `offset`, and return where it begins. Everything outside those bytes is kept.
   */
  method EncodeInto(a: array<byte>, offset: nat, v: nat) returns (base: nat)
    requires Sov(v) <= offset <= a.Length
    modifies a
    ensures base + Sov(v) == offset
    ensures a[base..] == Encode(v) + old(a[offset..])
    ensures a[..base] == old(a[..base])
  {
    SovIsLength(v);
    hide Sov, BitLength;
    base := offset - Sov(v);
    var at, w := base, v;
    while w >= 128
      invariant base <= at && at + |Encode(w)| == offset
      invariant a[base..at] + Encode(w) == Encode(v)
      invariant a[..base] == old(a[..base])
      invariant a[offset..] == old(a[offset..])
      decreases w
    {
      ghost var done := a[base..at];
      a[at] := w % 128 + 128;
      assert a[base..at + 1] == done + [w % 128 + 128];
      assert done + Encode(w) == done + [w % 128 + 128] + Encode(w / 128);
      w, at := w / 128, at + 1;
    }
    ghost var done := a[base..at];
    a[at] := w;
    assert a[base..] == done + [w] + a[offset..];
  }

  // ---------------------------------------------------------------- reading

  /**
   The bits a varint carries, before truncation to 64: `left` bytes may still be
   read, so that an eleventh byte is an overflow.
   */
  function RawVarint(s: Bytes, left: nat): (r: Result<Decoded, WireError>)
    ensures r.Ok? ==> 1 <= r.value.size <= |s| && r.value.size <= left
  {
    if left == 0 then Err(IntOverflow)
    else if s == [] then Err(UnexpectedEOF)
    else if s[0] < 128 then Ok(Decoded(s[0], 1))
    else
      match RawVarint(s[1..], left - 1)
      case Err(e) => Err(e)
      case Ok(d) => Ok(Decoded(s[0] % 128 + 128 * d.value, d.size + 1))
  }

  /** What the shift loops of the generated code compute, on the bytes still to be read. */
  function Read(s: Bytes): (r: Result<Decoded, WireError>)
    ensures r.Ok? ==> 1 <= r.value.size <= |s| && r.value.size <= 10 && r.value.value < TWO64
  {
    match RawVarint(s, 10)
    case Err(e) => Err(e)
    case Ok(d) => Ok(Decoded(d.value % TWO64, d.size))
  }

  function Pow128(k: nat): (r: nat)
    ensures r >= 1
  {
    if k == 0 then 1 else 128 * Pow128(k - 1)
  }

  /** Ten groups of seven bits hold every 64-bit value. */
  lemma TenGroups()
    ensures Pow128(10) >= TWO64
  {
    FourGroups(0);
    FourGroups(4);
    assert Pow128(0) == 1 && Pow128(9) == 128 * Pow128(8) && Pow128(10) == 128 * Pow128(9);
  }

  lemma FourGroups(k: nat)
    ensures Pow128(k + 4) == 0x1000_0000 * Pow128(k)
  {
    assert Pow128(k + 1) == 128 * Pow128(k) && Pow128(k + 2) == 128 * Pow128(k + 1);
    assert Pow128(k + 3) == 128 * Pow128(k + 2) && Pow128(k + 4) == 128 * Pow128(k + 3);
  }

  /** Base 128, least significant group first, with the high bit set on every byte but the last. */
  lemma {:induction false} EncodeAt(v: nat, i: nat)
    requires i < |Encode(v)|
    ensures Encode(v)[i] == v / Pow128(i) % 128 + if i == |Encode(v)| - 1 then 0 else 128
    ensures i == |Encode(v)| - 1 ==> v / Pow128(i) < 128
    decreases i
  {
    if i > 0 {
      EncodeAt(v / 128, i - 1);
      assert Pow128(i) == 128 * Pow128(i - 1);
      DivideTwice(v, Pow128(i - 1));
    }
  }

  lemma DivideTwice(v: nat, p: nat)
    requires p >= 1
    ensures v / 128 / p == v / (128 * p)
  {
    var w := 128 * p;
    var q, r := v / w, v % w;
    assert v == w * q + r;
    assert w * q == 128 * (p * q);
    assert v / 128 == p * q + r / 128 && r / 128 < p;
    OneQuotient(p, q, r / 128, v / 128 / p, v / 128 % p);
  }

  lemma OneQuotient(p: nat, q: int, r: nat, d: int, k: nat)
    requires r < p && k < p && p * q + r == p * d + k
    ensures q == d
  {
    assert p * (d - q) == r - k;
    if d > q {
      AtLeastOnce(p, d - q);
    } else if d < q {
      AtLeastOnce(p, q - d);
    }
  }

  lemma AtLeastOnce(p: nat, n: int)
    requires n >= 1
    ensures p * n >= p
  {
    assert p * n == p + p * (n - 1);
  }

  lemma {:induction false} RawRoundTrip(v: nat, left: nat, rest: Bytes)
    requires left >= 1 && v < Pow128(left)
    ensures RawVarint(Encode(v) + rest, left) == Ok(Decoded(v, |Encode(v)|))
  {
    if v >= 128 {
      assert Pow128(1) == 128;
      assert Pow128(left) == 128 * Pow128(left - 1);
      RawRoundTrip(v / 128, left - 1, rest);
      assert (Encode(v) + rest)[1..] == Encode(v / 128) + rest;
    }
  }

  /** Reading a written 64-bit value gives it back, whatever follows. */
  lemma RoundTrip(v: uint64, rest: Bytes)
    ensures Read(Encode(v) + rest) == Ok(Decoded(v, |Encode(v)|))
  {
    hide Pow128, Encode, RawVarint;
    TenGroups();
    RawRoundTrip(v, 10, rest);
  }

  /** A tag below 128 is one byte. */
  lemma OneByte(t: nat, rest: Bytes)
    requires t < 128
    ensures Read([t] + rest) == Ok(Decoded(t, 1))
  {
    assert Encode(t) == [t];
    hide Read, Encode;
    RoundTrip(t, rest);
  }

  /** Go's `x << shift` on a uint64, with `shift` a multiple of seven. */
  function ShiftLeft(x: nat, sevens: nat): (r: nat)
    ensures r < TWO64
  {
    x * Pow128(sevens) % TWO64
  }

  /** One more group of seven bits, added below or above the truncation point. */
  lemma AccumulateGroup(acc: nat, b: nat, p: nat, rest: nat)
    ensures (acc + b * p % TWO64 + (128 * p) * rest) % TWO64 == (acc + p * (b + 128 * rest)) % TWO64
  {
    var q := b * p / TWO64;
    assert b * p == q * TWO64 + b * p % TWO64;
    assert acc + p * (b + 128 * rest) == acc + b * p % TWO64 + (128 * p) * rest + q * TWO64;
    AddMultiple(acc + b * p % TWO64 + (128 * p) * rest, q);
  }

  lemma AddMultiple(x: nat, q: nat)
    ensures (x + q * TWO64) % TWO64 == x % TWO64
  {
  }

  /** What the loop has read so far, `acc`, and what is left account for the whole varint. */
  ghost predicate Accounts(whole: Result<Decoded, WireError>, acc: nat, sevens: nat, rest: Bytes) {
    sevens <= 10 &&
    match RawVarint(rest, 10 - sevens)
    case Err(e) => whole == Err(e)
    case Ok(d) => whole.Ok? && whole.value.size == sevens + d.size
                  && whole.value.value % TWO64 == (acc + Pow128(sevens) * d.value) % TWO64
  }

  lemma AccountsStep(whole: Result<Decoded, WireError>, acc: nat, sevens: nat, rest: Bytes)
    requires Accounts(whole, acc, sevens, rest) && sevens < 10 && rest != []
    ensures rest[0] >= 128 ==> Accounts(whole, (acc + ShiftLeft(rest[0] % 128, sevens)) % TWO64, sevens + 1, rest[1..])
    ensures rest[0] < 128 ==> whole.Ok? && whole.value.size == sevens + 1
                              && whole.value.value % TWO64 == (acc + ShiftLeft(rest[0], sevens)) % TWO64
  {
    hide Pow128, ShiftLeft;
    var b := rest[0] % 128;
    if rest[0] < 128 {
      GroupSum(acc, b, sevens, 0);
    } else {
      var tail := RawVarint(rest[1..], 9 - sevens);
      if tail.Ok? {
        GroupSum(acc, b, sevens, tail.value.value);
      }
    }
  }

  /** The next group may be added before the rest is read. */
  lemma GroupSum(acc: nat, b: nat, sevens: nat, rest: nat)
    ensures (acc + Pow128(sevens) * (b + 128 * rest)) % TWO64
         == ((acc + ShiftLeft(b, sevens)) % TWO64 + Pow128(sevens + 1) * rest) % TWO64
    ensures (acc + Pow128(sevens) * b) % TWO64 == (acc + ShiftLeft(b, sevens)) % TWO64
  {
    assert Pow128(sevens + 1) == 128 * Pow128(sevens);
    var p := Pow128(sevens);
    AccumulateGroup(acc, b, p, rest);
    AccumulateGroup(acc, b, p, 0);
    ModAdd(acc + ShiftLeft(b, sevens), Pow128(sevens + 1) * rest);
  }

  lemma ModAdd(x: nat, y: nat)
    ensures (x % TWO64 + y) % TWO64 == (x + y) % TWO64
  {
    var q := x / TWO64;
    AddMultiple(x % TWO64 + y, q);
  }

  /**
   The shift loop itself, from index `start`. The groups of seven bits do not
   overlap, so the source's `|=` is an addition.
   */
  method ReadAt(data: Bytes, start: nat) returns (r: Result<Decoded, WireError>)
    requires start <= |data|
    ensures r == Read(data[start..])
  {
    assert Pow128(0) == 1;
    hide Pow128, ShiftLeft;
    var at, sevens: nat, acc: nat := start, 0, 0;
    ghost var whole := RawVarint(data[start..], 10);
    while true
      invariant start <= at <= |data| && sevens == at - start <= 10
      invariant acc < TWO64
      invariant Accounts(whole, acc, sevens, data[at..])
      decreases |data| - at
    {
      if 7 * sevens >= 64 {
        return Err(IntOverflow);
      }
      if at >= |data| {
        return Err(UnexpectedEOF);
      }
      var b := data[at];
      AccountsStep(whole, acc, sevens, data[at..]);
      assert data[at..][1..] == data[at + 1..];
      acc := (acc + ShiftLeft(b % 128, sevens)) % TWO64;
      if b < 128 {
        return Ok(Decoded(acc, sevens + 1));
      }
      at, sevens := at + 1, sevens + 1;
    }
  }
}
