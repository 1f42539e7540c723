/**
 The textual forms that ledger keys and event attributes are built from: decimal
 numbers, lower-case hex (section 8 of RFC 4648), and segments joined by a separator.
 */
module Text {
  import opened Basics

  const SLASH: byte := 47
  const DASH: byte := 45

  // ---------------------------------------------------------------- decimal

  predicate IsDigit(b: byte) {
    48 <= b <= 57
  }

  predicate AllDigits(s: Bytes) {
    forall i :: 0 <= i < |s| ==> IsDigit(s[i])
  }

  /** `fmt.Sprintf("%v", n)` of an unsigned number. */
  function Decimal(n: nat): (s: Bytes)
    ensures s != [] && AllDigits(s)
  {
    if n < 10 then [48 + n] else Decimal(n / 10) + [48 + n % 10]
  }

  function DecimalValue(s: Bytes): nat
    requires AllDigits(s)
  {
    if s == [] then 0 else 10 * DecimalValue(s[..|s| - 1]) + (s[|s| - 1] - 48)
  }

  /** `strconv.ParseUint(s, 10, 64)`; None is an error. */
  function ParseUint(s: Bytes): Option<uint64> {
    if s == [] || !AllDigits(s) || DecimalValue(s) >= TWO64 then None else Some(DecimalValue(s))
  }

  lemma {:induction false} DecimalRoundTrip(n: nat)
    ensures DecimalValue(Decimal(n)) == n
  {
    var s := Decimal(n);
    if n < 10 {
      assert s[..0] == [];
      assert DecimalValue(s[..0]) == 0;
    } else {
      DecimalRoundTrip(n / 10);
      assert s[..|s| - 1] == Decimal(n / 10);
    }
  }

  lemma ParseDecimal(n: uint64)
    ensures ParseUint(Decimal(n)) == Some(n)
  {
    DecimalRoundTrip(n);
  }

  function Zeros(z: nat): Bytes {
    seq(z, i => 48)
  }

  lemma {:induction false} ZerosAreNothing(z: nat)
    ensures AllDigits(Zeros(z)) && DecimalValue(Zeros(z)) == 0
  {
    if z > 0 {
      ZerosAreNothing(z - 1);
      assert Zeros(z)[..z - 1] == Zeros(z - 1);
    }
  }

  lemma {:induction false} PaddedValue(z: nat, n: nat)
    ensures var s := Zeros(z) + Decimal(n); AllDigits(s) && DecimalValue(s) == n
  {
    var s := Zeros(z) + Decimal(n);
    if n < 10 {
      ZerosAreNothing(z);
      assert s[..|s| - 1] == Zeros(z);
    } else {
      PaddedValue(z, n / 10);
      assert s[..|s| - 1] == Zeros(z) + Decimal(n / 10);
    }
  }

  /** Digits spell a number exactly when they are its decimal form after any number of zeros. */
  lemma {:induction false} SpelledOut(s: Bytes) returns (z: nat)
    requires s != [] && AllDigits(s)
    ensures s == Zeros(z) + Decimal(DecimalValue(s))
    decreases |s|
  {
    var t, d := s[..|s| - 1], s[|s| - 1] - 48;
    assert s == t + [48 + d];
    if t == [] {
      z := 0;
    } else {
      z := SpelledOut(t);
      if DecimalValue(t) == 0 {
        z := z + 1;
        assert t == Zeros(z);
      }
    }
  }

  lemma ParseUintExactly(s: Bytes, n: uint64)
    ensures ParseUint(s) == Some(n) <==> exists z :: s == Zeros(z) + Decimal(n)
  {
    if ParseUint(s) == Some(n) {
      var z := SpelledOut(s);
    }
    forall z | s == Zeros(z) + Decimal(n) ensures ParseUint(s) == Some(n) {
      PaddedValue(z, n);
    }
  }

  lemma DecimalInjective(m: nat, n: nat)
    requires Decimal(m) == Decimal(n)
    ensures m == n
  {
    DecimalRoundTrip(m);
    DecimalRoundTrip(n);
  }

  // ---------------------------------------------------------------- hex

  function HexDigit(x: nat): (b: byte)
    requires x < 16
  {
    if x < 10 then 48 + x else 87 + x
  }

  predicate IsLowerHex(b: byte) {
    IsDigit(b) || 97 <= b <= 102
  }

  /** `hex.EncodeToString`. */
  function Hex(b: Bytes): (s: Bytes)
    ensures |s| == 2 * |b|
    ensures forall i :: 0 <= i < |s| ==> IsLowerHex(s[i])
  {
    if b == [] then [] else [HexDigit(b[0] / 16), HexDigit(b[0] % 16)] + Hex(b[1..])
  }

  /** Either case is read. */
  function HexValue(b: byte): Option<nat> {
    if IsDigit(b) then Some(b - 48)
    else if 97 <= b <= 102 then Some(b - 87)
    else if 65 <= b <= 70 then Some(b - 55)
    else None
  }

  /** `hex.DecodeString`; None is an error, from an odd length or a byte that is no digit. */
  function UnHex(s: Bytes): Option<Bytes> {
    if s == [] then Some([])
    else if |s| == 1 then None
    else
      match (HexValue(s[0]), HexValue(s[1]), UnHex(s[2..]))
      case (Some(hi), Some(lo), Some(rest)) =>
        if hi < 16 && lo < 16 then Some([16 * hi + lo] + rest) else None
      case _ => None
  }

  /** The decoded bytes, or none. */
  function HexBytes(s: Bytes): Bytes {
    match UnHex(s) case Some(b) => b case None => []
  }

  lemma {:induction false} HexRoundTrip(b: Bytes)
    ensures UnHex(Hex(b)) == Some(b)
  {
    if b != [] {
      HexRoundTrip(b[1..]);
      assert Hex(b)[2..] == Hex(b[1..]);
      assert b == [b[0]] + b[1..];
    }
  }

  /** ASCII letters in lower case. */
  function Lower(s: Bytes): Bytes {
    seq(|s|, i requires 0 <= i < |s| => if 65 <= s[i] <= 90 then s[i] + 32 else s[i])
  }

  lemma {:induction false} UnHexIsLowered(s: Bytes)
    requires UnHex(s).Some?
    ensures Lower(s) == Hex(UnHex(s).value)
    decreases |s|
  {
    if s != [] {
      var rest := s[2..];
      UnHexIsLowered(rest);
      var b := UnHex(s).value;
      assert b[1..] == UnHex(rest).value;
      assert Lower(s) == [Lower(s)[0], Lower(s)[1]] + Lower(rest);
    }
  }

  lemma {:induction false} LoweredIsUnHexed(s: Bytes, b: Bytes)
    requires Lower(s) == Hex(b)
    ensures UnHex(s) == Some(b)
    decreases |s|
  {
    if b != [] {
      assert |s| >= 2;
      assert Lower(s)[2..] == Lower(s[2..]) && Hex(b)[2..] == Hex(b[1..]);
      LoweredIsUnHexed(s[2..], b[1..]);
      assert Lower(s)[0] == HexDigit(b[0] / 16) && Lower(s)[1] == HexDigit(b[0] % 16);
      assert b == [b[0]] + b[1..];
    }
  }

  /** The texts that are read are those whose lower-case form is hex, and they are read as what it spells. */
  lemma UnHexExactly(s: Bytes, b: Bytes)
    ensures UnHex(s) == Some(b) <==> Lower(s) == Hex(b)
  {
    if UnHex(s) == Some(b) {
      UnHexIsLowered(s);
    }
    if Lower(s) == Hex(b) {
      LoweredIsUnHexed(s, b);
    }
  }

  lemma HexInjective(a: Bytes, b: Bytes)
    requires Hex(a) == Hex(b)
    ensures a == b
  {
    HexRoundTrip(a);
    HexRoundTrip(b);
  }

  /** Hex keeps the byte-wise order, so that a range of keys is a range of their hex forms. */
  lemma {:induction false} HexOrder(a: Bytes, b: Bytes)
    ensures Less(Hex(a), Hex(b)) <==> Less(a, b)
  {
    if a != [] && b != [] {
      HexOrder(a[1..], b[1..]);
      var s, t := Hex(a), Hex(b);
      assert s[1..][1..] == Hex(a[1..]) && t[1..][1..] == Hex(b[1..]);
      assert Less(s[1..], t[1..]) <==> s[1] < t[1] || (s[1] == t[1] && Less(Hex(a[1..]), Hex(b[1..])));
    }
  }

  lemma {:induction false} HexPrefix(p: Bytes, k: Bytes)
    ensures Hex(p + k) == Hex(p) + Hex(k)
  {
    if p == [] {
      assert p + k == k;
    } else {
      assert (p + k)[1..] == p[1..] + k;
      HexPrefix(p[1..], k);
    }
  }

  // ---------------------------------------------------------------- separated segments

  predicate Free(s: Bytes, sep: byte) {
    forall i :: 0 <= i < |s| ==> s[i] != sep
  }

  /** Segments with a separator between each two. */
  function Join(segs: seq<Bytes>, sep: byte): Bytes
    requires segs != []
  {
    if |segs| == 1 then segs[0] else segs[0] + ([sep] + Join(segs[1..], sep))
  }

  /** `strings.Split`: the pieces between the separators. */
  function Split(s: Bytes, sep: byte): (segs: seq<Bytes>)
    ensures segs != []
  {
    if s == [] then [[]]
    else
      var rest := Split(s[1..], sep);
      if s[0] == sep then [[]] + rest else [[s[0]] + rest[0]] + rest[1..]
  }

  lemma {:induction false} SplitFirst(a: Bytes, rest: Bytes, sep: byte)
    requires Free(a, sep)
    ensures Split(a, sep) == [a]
    ensures Split(a + ([sep] + rest), sep) == [a] + Split(rest, sep)
  {
    var s := a + ([sep] + rest);
    if a == [] {
      assert s[1..] == rest;
    } else {
      SplitFirst(a[1..], rest, sep);
      assert s[1..] == a[1..] + ([sep] + rest);
      assert a == [a[0]] + a[1..];
    }
  }

  /** Joining segments that do not hold the separator loses nothing. */
  lemma {:induction false} SplitJoin(segs: seq<Bytes>, sep: byte)
    requires segs != [] && forall i :: 0 <= i < |segs| ==> Free(segs[i], sep)
    ensures Split(Join(segs, sep), sep) == segs
    decreases |segs|
  {
    if |segs| == 1 {
      SplitFirst(segs[0], [], sep);
    } else {
      SplitFirst(segs[0], Join(segs[1..], sep), sep);
      SplitJoin(segs[1..], sep);
      assert segs == [segs[0]] + segs[1..];
    }
  }

  lemma SplitStep(b: byte, s: Bytes, sep: byte)
    ensures var rest := Split(s, sep);
            Split([b] + s, sep) == if b == sep then [[]] + rest else [[b] + rest[0]] + rest[1..]
  {
    assert ([b] + s)[1..] == s;
  }

  lemma SplitNothing(sep: byte)
    ensures Split([], sep) == [[]]
  {}

  lemma TailAppend(x: seq<Bytes>, y: seq<Bytes>, head: Bytes)
    requires x != []
    ensures [head + (x + y)[0]] + (x + y)[1..] == ([head + x[0]] + x[1..]) + y
    ensures [[]] + (x + y) == ([[]] + x) + y
  {
    assert (x + y)[1..] == x[1..] + y;
  }

  /** Splitting what is joined from two parts splits each of them, whatever they hold. */
  lemma {:induction false} SplitAppend(a: Bytes, rest: Bytes, sep: byte)
    ensures Split(a + ([sep] + rest), sep) == Split(a, sep) + Split(rest, sep)
  {
    hide Split;
    if a == [] {
      SplitNothing(sep);
      SplitStep(sep, rest, sep);
      assert a + ([sep] + rest) == [sep] + rest;
    } else {
      var tail := a[1..];
      SplitAppend(tail, rest, sep);
      SplitStep(a[0], tail, sep);
      SplitStep(a[0], tail + ([sep] + rest), sep);
      TailAppend(Split(tail, sep), Split(rest, sep), [a[0]]);
      assert a == [a[0]] + tail;
      assert a + ([sep] + rest) == [a[0]] + (tail + ([sep] + rest));
    }
  }

  lemma {:induction false} OnePieceIsFree(a: Bytes, sep: byte)
    requires |Split(a, sep)| == 1
    ensures Free(a, sep)
  {
    if a != [] {
      OnePieceIsFree(a[1..], sep);
      assert a == [a[0]] + a[1..];
    }
  }

  /** Joined segments of any kind: never fewer pieces than segments, and as many only if none holds the separator. */
  lemma {:induction false} SplitPieces(segs: seq<Bytes>, sep: byte)
    requires segs != []
    ensures var pieces, n := Split(Join(segs, sep), sep), |segs| - 1;
            && |pieces| >= |segs|
            && (|pieces| == |segs| ==> forall i :: 0 <= i < |segs| ==> Free(segs[i], sep))
            && (Free(segs[0], sep) ==> pieces[0] == segs[0])
            && (Free(segs[n], sep) ==> pieces[|pieces| - 1] == segs[n])
    decreases |segs|
  {
    if Free(segs[0], sep) {
      SplitFirst(segs[0], [], sep);
    } else if |Split(segs[0], sep)| == 1 {
      OnePieceIsFree(segs[0], sep);
    }
    if |segs| > 1 {
      SplitAppend(segs[0], Join(segs[1..], sep), sep);
      SplitPieces(segs[1..], sep);
    }
  }

  lemma JoinInjective(a: seq<Bytes>, b: seq<Bytes>, sep: byte)
    requires a != [] && forall i :: 0 <= i < |a| ==> Free(a[i], sep)
    requires b != [] && forall i :: 0 <= i < |b| ==> Free(b[i], sep)
    requires Join(a, sep) == Join(b, sep)
    ensures a == b
  {
    SplitJoin(a, sep);
    SplitJoin(b, sep);
  }
}
