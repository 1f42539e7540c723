/**
 Values shared by every part of the model: Go byte slices and strings, optional
 values, results, and the byte-wise order that `strings.Compare` uses.
 */
module Basics {

  type byte = x: int | 0 <= x < 256

  /** A Go `[]byte` or `string`: both are sequences of bytes. */
  type Bytes = seq<byte>

  /** `None` is Go's nil, which differs in memory from an empty slice. */
  datatype Option<+T> = None | Some(value: T)

  /** The bytes of a slice; those of nil are none. */
  function Content(o: Option<Bytes>): Bytes {
    match o case None => [] case Some(b) => b
  }

  function Find<K, V>(m: map<K, V>, k: K): Option<V> {
    if k in m then Some(m[k]) else None
  }

  datatype Result<+T, +E> = Ok(value: T) | Err(error: E)

  const TWO31: int := 0x8000_0000
  const TWO32: int := 0x1_0000_0000
  const TWO63: int := 0x8000_0000_0000_0000
  const TWO64: int := 0x1_0000_0000_0000_0000

  type uint32 = x: int | 0 <= x < TWO32
  type uint64 = x: int | 0 <= x < TWO64
  type int32 = x: int | -TWO31 <= x < TWO31
  type int64 = x: int | -TWO63 <= x < TWO63

  /** Go's conversion `uint64(x)` of a signed 64-bit value. */
  function ToUint64(x: int64): (r: uint64) {
    if x < 0 then x + TWO64 else x
  }

  /** The 64-bit two's complement reading of any integer: Go's int64 arithmetic wraps to it. */
  function WrapInt64(x: int): (r: int64) {
    var low := x % TWO64;
    if low < TWO63 then low else low - TWO64
  }

  /** The same for 32 bits. */
  function WrapInt32(x: int): (r: int32) {
    var low := x % TWO32;
    if low < TWO31 then low else low - TWO32
  }

  /** The bytes of an ASCII literal. */
  function Ascii(s: string): (b: Bytes)
    ensures |b| == |s|
    ensures forall i :: 0 <= i < |s| ==> b[i] == s[i] as int % 256
  {
    seq(|s|, i requires 0 <= i < |s| => s[i] as int % 256)
  }

  // ---------------------------------------------------------------- order

  /** Byte-wise lexicographic order: `strings.Compare(a, b) < 0`. */
  predicate Less(a: Bytes, b: Bytes) {
    if b == [] then false
    else if a == [] then true
    else a[0] < b[0] || (a[0] == b[0] && Less(a[1..], b[1..]))
  }

  lemma {:induction false} LessIrreflexive(a: Bytes)
    ensures !Less(a, a)
  {
    if a != [] {
      LessIrreflexive(a[1..]);
    }
  }

  lemma {:induction false} LessTransitive(a: Bytes, b: Bytes, c: Bytes)
    requires Less(a, b) && Less(b, c)
    ensures Less(a, c)
  {
    if a != [] && a[0] == b[0] && b[0] == c[0] {
      LessTransitive(a[1..], b[1..], c[1..]);
    }
  }

  lemma {:induction false} LessTotal(a: Bytes, b: Bytes)
    ensures a == b || Less(a, b) || Less(b, a)
  {
    if a != [] && b != [] && a[0] == b[0] {
      LessTotal(a[1..], b[1..]);
      assert a == [a[0]] + a[1..] && b == [b[0]] + b[1..];
    }
  }

  lemma LessAsymmetric(a: Bytes, b: Bytes)
    requires Less(a, b)
    ensures !Less(b, a) && a != b
  {
    LessIrreflexive(a);
    if Less(b, a) {
      LessTransitive(a, b, a);
    }
  }

  /** A common prefix does not matter to the order. */
  lemma {:induction false} LessPrefix(p: Bytes, a: Bytes, b: Bytes)
    ensures Less(p + a, p + b) <==> Less(a, b)
  {
    if p == [] {
      assert p + a == a && p + b == b;
    } else {
      assert (p + a)[1..] == p[1..] + a && (p + b)[1..] == p[1..] + b;
      LessPrefix(p[1..], a, b);
    }
  }
}
