/**
 The message level of the wire format (Protocol Buffers Encoding, section "Message
 Structure"): the field loop that every generated `Unmarshal` repeats, and the
 function that skips unknown fields.
 */
module Wire {
  import opened Basics
  import opened Varint

  /** The wire types the known fields of this repository use: 0 and 2. */
  datatype Kind = VarintKind | BytesKind

  datatype Payload = VarintPayload(v: uint64) | BytesPayload(b: Bytes)

  /**
   What differs between two generated `Unmarshal` functions: which field numbers are
   known, with which wire type, and what a decoded field does to the message.
   */
  datatype Schema<!M> = Schema(
    kind: int -> Option<Kind>,
    step: (M, int, Payload) -> Result<M, WireError>)

  function WireType(k: Kind): nat {
    match k case VarintKind => 0 case BytesKind => 2
  }

  // ---------------------------------------------------------------- skipping

  /** One round of the skip loop: how far it went, and how many groups are then open. */
  datatype SkipStep = SkipStep(size: nat, depth: nat)

  /**
   One round of `skipTypes` and `skipFabric` at index `at`, where `s` is what is left
   of the input and `depth` groups are open.
   */
  function SkipRound(s: Bytes, depth: nat, at: nat): (r: Result<SkipStep, WireError>)
    ensures r.Ok? ==> r.value.size >= 1 && at + r.value.size < TWO63
  {
    match Read(s)
    case Err(e) => Err(e)
    case Ok(tag) =>
      match SkipBody(s[tag.size..], tag.value % 8, depth)
      case Err(e) => Err(e)
      case Ok(step) =>
        if at + tag.size + step.size >= TWO63 then Err(InvalidLength)  // the index has wrapped
        else Ok(SkipStep(tag.size + step.size, step.depth))
  }

  /** The switch of the skip loop, after the tag. */
  function SkipBody(rest: Bytes, wireType: nat, depth: nat): (r: Result<SkipStep, WireError>) {
    match wireType
    case 0 =>
      (match Read(rest)
       case Err(e) => Err(e)
       case Ok(d) => Ok(SkipStep(d.size, depth)))
    case 1 => Ok(SkipStep(8, depth))
    case 2 =>
      (match Read(rest)
       case Err(e) => Err(e)
       case Ok(d) => if d.value >= TWO63 then Err(InvalidLength) else Ok(SkipStep(d.size + d.value, depth)))
    case 3 => Ok(SkipStep(0, depth + 1))
    case 4 => if depth == 0 then Err(UnexpectedEndOfGroup) else Ok(SkipStep(0, depth - 1))
    case 5 => Ok(SkipStep(4, depth))
    case _ => Err(IllegalWireType)
  }

  /** The whole skip loop; the result is the index after the field, which may lie past the input. */
  function SkipFrom(s: Bytes, depth: nat, at: nat): (r: Result<nat, WireError>)
    ensures r.Ok? ==> at < r.value < TWO63
    decreases |s|
  {
    if s == [] then Err(UnexpectedEOF)
    else
      match SkipRound(s, depth, at)
      case Err(e) => Err(e)
      case Ok(step) =>
        if step.depth == 0 then Ok(at + step.size)
        else if step.size > |s| then Err(UnexpectedEOF)
        else SkipFrom(s[step.size..], step.depth, at + step.size)
  }

  method SkipBodyAt(data: Bytes, at: nat, wireType: nat, depth: nat) returns (r: Result<SkipStep, WireError>)
    requires at <= |data|
    ensures r == SkipBody(data[at..], wireType, depth)
  {
    match wireType {
      case 0 =>
        var d := ReadAt(data, at);
        return if d.Err? then Err(d.error) else Ok(SkipStep(d.value.size, depth));
      case 1 =>
        return Ok(SkipStep(8, depth));
      case 2 =>
        var d := ReadAt(data, at);
        if d.Err? {
          return Err(d.error);
        }
        return if d.value.value >= TWO63 then Err(InvalidLength)
          else Ok(SkipStep(d.value.size + d.value.value, depth));
      case 3 =>
        return Ok(SkipStep(0, depth + 1));
      case 4 =>
        return if depth == 0 then Err(UnexpectedEndOfGroup) else Ok(SkipStep(0, depth - 1));
      case 5 =>
        return Ok(SkipStep(4, depth));
      case _ =>
        return Err(IllegalWireType);
    }
  }

  /** The skip loop over the slice `data`: it stops, and never reads outside the slice. */
  method Skip(data: Bytes) returns (r: Result<nat, WireError>)
    ensures r == SkipFrom(data, 0, 0)
  {
    hide Read, SkipBody;
    var at, depth: nat := 0, 0;
    while at < |data|
      invariant SkipFrom(data, 0, 0)
             == if at <= |data| then SkipFrom(data[at..], depth, at) else Err(UnexpectedEOF)
      decreases |data| - at
    {
      ghost var s := data[at..];
      var tag := ReadAt(data, at);
      if tag.Err? {
        return Err(tag.error);
      }
      assert s[tag.value.size..] == data[at + tag.value.size..];
      var step := SkipBodyAt(data, at + tag.value.size, tag.value.value % 8, depth);
      if step.Err? {
        return Err(step.error);
      }
      var next := at + tag.value.size + step.value.size;
      if next >= TWO63 {
        return Err(InvalidLength);
      }
      assert next <= |data| ==> s[next - at..] == data[next..];
      at, depth := next, step.value.depth;
      if depth == 0 {
        return Ok(at);
      }
    }
    return Err(UnexpectedEOF);
  }

  // ---------------------------------------------------------------- decoding

  /** Go's `int32(wire >> 3)`. */
  function FieldNumber(tag: nat): int32 {
    WrapInt32(tag / 8)
  }

  /** One round of a field loop: the message it leaves and the bytes it used. */
  datatype Round<+M> = Round(message: M, size: nat)

  /** A known field: `s` begins after the tag, at position `pos` of the input. */
  function KnownField<M>(sc: Schema<M>, m: M, num: int, kind: Kind, s: Bytes, pos: nat): (r: Result<Round<M>, WireError>)
    ensures r.Ok? ==> 1 <= r.value.size <= |s|
  {
    match Read(s)
    case Err(e) => Err(e)
    case Ok(d) =>
      if kind == VarintKind then
        match sc.step(m, num, VarintPayload(d.value))
        case Err(e) => Err(e)
        case Ok(m') => Ok(Round(m', d.size))
      else if d.value >= TWO63 || pos + d.size + d.value >= TWO63 then Err(InvalidLength)
      else if d.size + d.value > |s| then Err(UnexpectedEOF)
      else
        match sc.step(m, num, BytesPayload(s[d.size..d.size + d.value]))
        case Err(e) => Err(e)
        case Ok(m') => Ok(Round(m', d.size + d.value))
  }

  /** A field the message does not know: `s` begins with its tag. */
  function UnknownField<M>(m: M, s: Bytes, pos: nat): (r: Result<Round<M>, WireError>)
    ensures r.Ok? ==> 1 <= r.value.size <= |s|
  {
    match SkipFrom(s, 0, 0)
    case Err(e) => Err(e)
    case Ok(k) =>
      if pos + k >= TWO63 then Err(InvalidLength)
      else if k > |s| then Err(UnexpectedEOF)
      else Ok(Round(m, k))
  }

  /** One round of a generated `Unmarshal` at position `pos`: it uses at least one byte and no more than there are. */
  function OneField<M>(sc: Schema<M>, m: M, s: Bytes, pos: nat): (r: Result<Round<M>, WireError>)
    ensures r.Ok? ==> 1 <= r.value.size <= |s|
  {
    match Read(s)
    case Err(e) => Err(e)
    case Ok(tag) =>
      var num := FieldNumber(tag.value);
      if tag.value % 8 == 4 then Err(EndGroupTag)
      else if num <= 0 then Err(IllegalTag)
      else
        match sc.kind(num)
        case None => UnknownField(m, s, pos)
        case Some(kind) =>
          if tag.value % 8 != WireType(kind) then Err(WrongWireType)
          else
            match KnownField(sc, m, num, kind, s[tag.size..], pos + tag.size)
            case Err(e) => Err(e)
            case Ok(k) => Ok(Round(k.message, tag.size + k.size))
  }

  /** A generated `Unmarshal` on what is left of the input, from position `pos` on. */
  function Decode<M>(sc: Schema<M>, m: M, s: Bytes, pos: nat): (r: Result<M, WireError>)
    decreases |s|
  {
    if s == [] then Ok(m)
    else
      match OneField(sc, m, s, pos)
      case Err(e) => Err(e)
      case Ok(k) => Decode(sc, k.message, s[k.size..], pos + k.size)
  }

  method KnownFieldAt<M>(sc: Schema<M>, m: M, num: int, kind: Kind, data: Bytes, at: nat)
    returns (r: Result<Round<M>, WireError>)
    requires at <= |data|
    ensures r == KnownField(sc, m, num, kind, data[at..], at)
  {
    ghost var s := data[at..];
    var d := ReadAt(data, at);
    if d.Err? {
      return Err(d.error);
    }
    var i := at + d.value.size;
    var payload, size := VarintPayload(d.value.value), d.value.size;
    if kind == BytesKind {
      if d.value.value >= TWO63 || i + d.value.value >= TWO63 {
        return Err(InvalidLength);
      }
      var post := i + d.value.value;
      if post > |data| {
        return Err(UnexpectedEOF);
      }
      assert s[i - at..post - at] == data[i..post];
      payload, size := BytesPayload(data[i..post]), post - at;
    }
    match sc.step(m, num, payload) {
      case Err(e) => return Err(e);
      case Ok(next) => return Ok(Round(next, size));
    }
  }

  method UnknownFieldAt<M>(m: M, data: Bytes, at: nat) returns (r: Result<Round<M>, WireError>)
    requires at <= |data|
    ensures r == UnknownField(m, data[at..], at)
  {
    hide SkipFrom;
    var k := Skip(data[at..]);
    if k.Err? {
      return Err(k.error);
    }
    if at + k.value >= TWO63 {
      return Err(InvalidLength);
    }
    if at + k.value > |data| {
      return Err(UnexpectedEOF);
    }
    return Ok(Round(m, k.value));
  }

  /** The body of the field loop. */
  method OneFieldAt<M>(sc: Schema<M>, m: M, data: Bytes, at: nat) returns (r: Result<Round<M>, WireError>)
    requires at < |data|
    ensures r == OneField(sc, m, data[at..], at)
  {
    hide Read, UnknownField, KnownField;
    var tag := ReadAt(data, at);
    if tag.Err? {
      return Err(tag.error);
    }
    var num := FieldNumber(tag.value.value);
    if tag.value.value % 8 == 4 {
      return Err(EndGroupTag);
    }
    if num <= 0 {
      return Err(IllegalTag);
    }
    var kind := sc.kind(num);
    if kind.None? {
      r := UnknownFieldAt(m, data, at);
      return;
    }
    if tag.value.value % 8 != WireType(kind.value) {
      return Err(WrongWireType);
    }
    assert data[at..][tag.value.size..] == data[at + tag.value.size..];
    var k := KnownFieldAt(sc, m, num, kind.value, data, at + tag.value.size);
    match k {
      case Err(e) => return Err(e);
      case Ok(x) => return Ok(Round(x.message, tag.value.size + x.size));
    }
  }

  /**
   The generated field loop. That it verifies says that on every input it stops,
   reads only inside the input, and leaves each round further on than it began.
   */
  method Unmarshal<M>(sc: Schema<M>, m0: M, data: Bytes) returns (r: Result<M, WireError>)
    ensures r == Decode(sc, m0, data, 0)
  {
    hide OneField;
    var m, at := m0, 0;
    while at < |data|
      invariant at <= |data|
      invariant Decode(sc, m0, data, 0) == Decode(sc, m, data[at..], at)
      decreases |data| - at
    {
      var k := OneFieldAt(sc, m, data, at);
      if k.Err? {
        return Err(k.error);
      }
      assert data[at..][k.value.size..] == data[at + k.value.size..];
      m, at := k.value.message, at + k.value.size;
    }
    return Ok(m);
  }

  // ---------------------------------------------------------------- known fields

  /** A field holding a varint: a one-byte tag, then the value. */
  function VarintField(num: nat, v: nat): Bytes
    requires 1 <= num <= 15
  {
    [num * 8] + Encode(v)
  }

  /** A length-delimited field: a one-byte tag, the length, then the bytes. */
  function BytesField(num: nat, b: Bytes): Bytes
    requires 1 <= num <= 15
  {
    [num * 8 + 2] + Encode(|b|) + b
  }

  lemma TagParts(num: nat, wireType: nat)
    requires num <= 15 && wireType < 8
    ensures (num * 8 + wireType) % 8 == wireType && FieldNumber(num * 8 + wireType) == num
  {}

  /** A one-byte tag of a known field hands the rest to the code for that field. */
  lemma OneTagged<M>(sc: Schema<M>, m: M, num: nat, kind: Kind, s: Bytes, pos: nat)
    requires 1 <= num <= 15 && sc.kind(num) == Some(kind)
    ensures OneField(sc, m, [num * 8 + WireType(kind)] + s, pos)
         == match KnownField(sc, m, num, kind, s, pos + 1)
            case Err(e) => Err(e)
            case Ok(k) => Ok(Round(k.message, 1 + k.size))
  {
    hide Read, UnknownField, KnownField;
    var t := num * 8 + WireType(kind);
    OneByte(t, s);
    TagParts(num, WireType(kind));
    assert ([t] + s)[1..] == s;
  }

  /** The field loop takes a written varint field and goes on with the rest. */
  lemma DecodeVarintField<M>(sc: Schema<M>, m: M, num: nat, v: uint64, rest: Bytes, pos: nat)
    requires 1 <= num <= 15 && sc.kind(num) == Some(VarintKind)
    ensures Decode(sc, m, VarintField(num, v) + rest, pos)
         == match sc.step(m, num, VarintPayload(v))
            case Err(e) => Err(e)
            case Ok(m') => Decode(sc, m', rest, pos + |VarintField(num, v)|)
  {
    hide Read, Encode, OneField;
    var s := VarintField(num, v) + rest;
    assert s == [num * 8] + (Encode(v) + rest);
    OneTagged(sc, m, num, VarintKind, Encode(v) + rest, pos);
    RoundTrip(v, rest);
    assert s[1 + |Encode(v)|..] == rest;
  }

  lemma KnownBytes<M>(sc: Schema<M>, m: M, num: nat, b: Bytes, rest: Bytes, pos: nat)
    requires pos + |Encode(|b|)| + |b| < TWO63
    ensures KnownField(sc, m, num, BytesKind, Encode(|b|) + (b + rest), pos)
         == match sc.step(m, num, BytesPayload(b))
            case Err(e) => Err(e)
            case Ok(m') => Ok(Round(m', |Encode(|b|)| + |b|))
  {
    hide Read, Encode;
    RoundTrip(|b|, b + rest);
    var n := |Encode(|b|)|;
    assert (Encode(|b|) + (b + rest))[n..n + |b|] == b;
  }

  /** The same for a length-delimited field. */
  lemma DecodeBytesField<M>(sc: Schema<M>, m: M, num: nat, b: Bytes, rest: Bytes, pos: nat)
    requires 1 <= num <= 15 && sc.kind(num) == Some(BytesKind)
    requires pos + |BytesField(num, b)| < TWO63
    ensures Decode(sc, m, BytesField(num, b) + rest, pos)
         == match sc.step(m, num, BytesPayload(b))
            case Err(e) => Err(e)
            case Ok(m') => Decode(sc, m', rest, pos + |BytesField(num, b)|)
  {
    hide Encode, OneField, KnownField;
    var s := BytesField(num, b) + rest;
    var body := Encode(|b|) + (b + rest);
    assert s == [num * 8 + 2] + body;
    OneTagged(sc, m, num, BytesKind, body, pos);
    KnownBytes(sc, m, num, b, rest, pos + 1);
    assert s[1 + |Encode(|b|)| + |b|..] == rest;
  }

  // ---------------------------------------------------------------- unknown fields

  /** Any field the wire format allows, with nested groups. */
  datatype Field =
    | Varint64(num: nat, v: uint64)
    | Fixed64(num: nat, b: Bytes)
    | Delimited(num: nat, b: Bytes)
    | Group(num: nat, fields: Fields)
    | Fixed32(num: nat, b: Bytes)

  datatype Fields = NoFields | More(head: Field, tail: Fields)

  /** Field numbers have 29 bits, and the fixed-size payloads their fixed size. */
  predicate WellFormed(f: Field) {
    1 <= f.num < 0x2000_0000 &&
    match f
    case Varint64(_, _) => true
    case Fixed64(_, b) => |b| == 8
    case Delimited(_, _) => true
    case Group(_, fs) => AllWellFormed(fs)
    case Fixed32(_, b) => |b| == 4
  }

  predicate AllWellFormed(fs: Fields) {
    match fs
    case NoFields => true
    case More(f, rest) => WellFormed(f) && AllWellFormed(rest)
  }

  function FieldBytes(f: Field): (b: Bytes) {
    match f
    case Varint64(num, v) => Encode(num * 8) + Encode(v)
    case Fixed64(num, b) => Encode(num * 8 + 1) + b
    case Delimited(num, b) => Encode(num * 8 + 2) + (Encode(|b|) + b)
    case Group(num, fs) => Encode(num * 8 + 3) + (FieldsBytes(fs) + Encode(num * 8 + 4))
    case Fixed32(num, b) => Encode(num * 8 + 5) + b
  }

  function FieldsBytes(fs: Fields): (b: Bytes) {
    match fs
    case NoFields => []
    case More(f, rest) => FieldBytes(f) + FieldsBytes(rest)
  }

  /** What the skip loop does once a field is behind it. */
  function AfterSkip(rest: Bytes, depth: nat, i: nat): Result<nat, WireError> {
    if depth == 0 then Ok(i) else SkipFrom(rest, depth, i)
  }

  /** A tag followed by `body`, which the switch passes over, is one round of the loop. */
  lemma SkipOne(tag: uint64, body: Bytes, rest: Bytes, depth: nat, depth': nat, at: nat)
    requires SkipBody(body + rest, tag % 8, depth) == Ok(SkipStep(|body|, depth'))
    requires at + |Encode(tag)| + |body| < TWO63
    ensures SkipFrom(Encode(tag) + (body + rest), depth, at)
         == AfterSkip(rest, depth', at + |Encode(tag)| + |body|)
  {
    hide Read, Encode, SkipBody;
    var t := Encode(tag);
    var s := t + (body + rest);
    RoundTrip(tag, body + rest);
    assert s[|t|..] == body + rest;
    assert s[|t| + |body|..] == rest;
  }

  lemma SkipVarint(num: nat, v: uint64, rest: Bytes, depth: nat, at: nat)
    requires 1 <= num < 0x2000_0000 && at + |Encode(num * 8) + Encode(v)| < TWO63
    ensures SkipFrom(Encode(num * 8) + Encode(v) + rest, depth, at) == AfterSkip(rest, depth, at + |Encode(num * 8) + Encode(v)|)
  {
    hide Read, Encode, SkipFrom;
    assert Encode(num * 8) + Encode(v) + rest == Encode(num * 8) + (Encode(v) + rest);
    RoundTrip(v, rest);
    SkipOne(num * 8, Encode(v), rest, depth, depth, at);
  }

  /** A payload of fixed size: eight bytes under wire type 1, four under wire type 5. */
  lemma SkipFixed(num: nat, wireType: nat, b: Bytes, rest: Bytes, depth: nat, at: nat)
    requires 1 <= num < 0x2000_0000 && ((wireType == 1 && |b| == 8) || (wireType == 5 && |b| == 4))
    requires at + |Encode(num * 8 + wireType) + b| < TWO63
    ensures SkipFrom(Encode(num * 8 + wireType) + b + rest, depth, at)
         == AfterSkip(rest, depth, at + |Encode(num * 8 + wireType) + b|)
  {
    hide Read, Encode, SkipFrom;
    assert Encode(num * 8 + wireType) + b + rest == Encode(num * 8 + wireType) + (b + rest);
    SkipOne(num * 8 + wireType, b, rest, depth, depth, at);
  }

  lemma SkipDelimited(num: nat, b: Bytes, rest: Bytes, depth: nat, at: nat)
    requires 1 <= num < 0x2000_0000 && at + |Encode(num * 8 + 2) + (Encode(|b|) + b)| < TWO63
    ensures SkipFrom(Encode(num * 8 + 2) + (Encode(|b|) + b) + rest, depth, at)
         == AfterSkip(rest, depth, at + |Encode(num * 8 + 2) + (Encode(|b|) + b)|)
  {
    hide Read, Encode, SkipFrom;
    var body := Encode(|b|) + b;
    assert Encode(num * 8 + 2) + body + rest == Encode(num * 8 + 2) + (body + rest);
    assert body + rest == Encode(|b|) + (b + rest);
    RoundTrip(|b|, b + rest);
    SkipOne(num * 8 + 2, body, rest, depth, depth, at);
  }

  /**
   The skip loop passes over exactly one field, however deeply its groups nest, and
   whatever follows it.
   */
  lemma {:induction false} SkipField(f: Field, rest: Bytes, depth: nat, at: nat)
    requires WellFormed(f) && at + |FieldBytes(f)| + |rest| < TWO63
    ensures SkipFrom(FieldBytes(f) + rest, depth, at) == AfterSkip(rest, depth, at + |FieldBytes(f)|)
    decreases f
  {
    hide Encode, SkipFrom, AfterSkip;
    match f {
      case Varint64(num, v) => SkipVarint(num, v, rest, depth, at);
      case Fixed64(num, b) => SkipFixed(num, 1, b, rest, depth, at);
      case Delimited(num, b) => SkipDelimited(num, b, rest, depth, at);
      case Fixed32(num, b) => SkipFixed(num, 5, b, rest, depth, at);
      case Group(num, fs) => SkipGroup(num, fs, rest, depth, at);
    }
  }

  lemma {:induction false} SkipGroup(num: nat, fs: Fields, rest: Bytes, depth: nat, at: nat)
    requires 1 <= num < 0x2000_0000 && AllWellFormed(fs)
    requires at + |FieldBytes(Group(num, fs))| + |rest| < TWO63
    ensures SkipFrom(FieldBytes(Group(num, fs)) + rest, depth, at)
         == AfterSkip(rest, depth, at + |FieldBytes(Group(num, fs))|)
    decreases fs, 1
  {
    hide Read, Encode, SkipFrom, FieldsBytes;
    var open, inner, close := Encode(num * 8 + 3), FieldsBytes(fs), Encode(num * 8 + 4);
    var tail := inner + (close + rest);
    assert FieldBytes(Group(num, fs)) + rest == open + ([] + tail);
    assert [] + tail == tail;
    SkipOne(num * 8 + 3, [], tail, depth, depth + 1, at);
    SkipFields(fs, close + rest, depth + 1, at + |open|);
    assert close + rest == close + ([] + rest);
    SkipOne(num * 8 + 4, [], rest, depth + 1, depth, at + |open| + |inner|);
  }

  /** Inside an open group the loop passes over a list of fields. */
  lemma {:induction false} SkipFields(fs: Fields, rest: Bytes, depth: nat, at: nat)
    requires depth > 0
    requires AllWellFormed(fs) && at + |FieldsBytes(fs)| + |rest| < TWO63
    ensures SkipFrom(FieldsBytes(fs) + rest, depth, at) == SkipFrom(rest, depth, at + |FieldsBytes(fs)|)
    decreases fs, 0
  {
    hide Encode, SkipFrom;
    match fs {
      case NoFields =>
        assert FieldsBytes(fs) + rest == rest;
      case More(f, tail) =>
        assert FieldsBytes(fs) + rest == FieldBytes(f) + (FieldsBytes(tail) + rest);
        SkipField(f, FieldsBytes(tail) + rest, depth, at);
        SkipFields(tail, rest, depth, at + |FieldBytes(f)|);
    }
  }

  function TagOf(f: Field): nat {
    f.num * 8 + match f
                case Varint64(_, _) => 0
                case Fixed64(_, _) => 1
                case Delimited(_, _) => 2
                case Group(_, _) => 3
                case Fixed32(_, _) => 5
  }

  lemma LeadingTag(f: Field, rest: Bytes)
    requires WellFormed(f)
    ensures Read(FieldBytes(f) + rest) == Ok(Decoded(TagOf(f), |Encode(TagOf(f))|))
  {
    var t := Encode(TagOf(f));
    var body := FieldBytes(f)[|t|..];
    assert FieldBytes(f) + rest == t + (body + rest);
    RoundTrip(TagOf(f), body + rest);
  }

  /** A field the message does not know, of any shape, leaves no trace in what is decoded. */
  lemma DecodeUnknownField<M>(sc: Schema<M>, m: M, f: Field, rest: Bytes, pos: nat)
    requires WellFormed(f) && sc.kind(f.num) == None
    requires pos + |FieldBytes(f)| + |rest| < TWO63
    ensures Decode(sc, m, FieldBytes(f) + rest, pos) == Decode(sc, m, rest, pos + |FieldBytes(f)|)
  {
    hide Read, Encode, SkipFrom, FieldBytes, KnownField;
    var s := FieldBytes(f) + rest;
    LeadingTag(f, rest);
    SkipField(f, rest, 0, 0);
    assert FieldNumber(TagOf(f)) == f.num && TagOf(f) % 8 != 4;
    assert s[|FieldBytes(f)|..] == rest;
  }

  // ---------------------------------------------------------------- concatenation

  lemma {:induction false} RawVarintExtends(s: Bytes, t: Bytes, left: nat)
    requires RawVarint(s, left).Ok?
    ensures RawVarint(s + t, left) == RawVarint(s, left)
  {
    if s[0] >= 128 {
      assert (s + t)[1..] == s[1..] + t;
      RawVarintExtends(s[1..], t, left - 1);
    }
  }

  lemma ReadExtends(s: Bytes, t: Bytes)
    requires Read(s).Ok?
    ensures Read(s + t) == Read(s)
  {
    RawVarintExtends(s, t, 10);
  }

  lemma SkipRoundExtends(s: Bytes, t: Bytes, depth: nat, at: nat)
    requires SkipRound(s, depth, at).Ok?
    ensures SkipRound(s + t, depth, at) == SkipRound(s, depth, at)
  {
    ReadExtends(s, t);
    var tag := Read(s).value;
    var rest := s[tag.size..];
    assert (s + t)[tag.size..] == rest + t;
    if tag.value % 8 == 0 || tag.value % 8 == 2 {
      ReadExtends(rest, t);
    }
  }

  lemma {:induction false} SkipExtends(s: Bytes, t: Bytes, depth: nat, at: nat)
    requires SkipFrom(s, depth, at).Ok?
    ensures SkipFrom(s + t, depth, at) == SkipFrom(s, depth, at)
    decreases |s|
  {
    hide SkipRound;
    SkipRoundExtends(s, t, depth, at);
    var step := SkipRound(s, depth, at).value;
    if step.depth > 0 {
      assert (s + t)[step.size..] == s[step.size..] + t;
      SkipExtends(s[step.size..], t, step.depth, at + step.size);
    }
  }

  lemma KnownFieldExtends<M>(sc: Schema<M>, m: M, num: int, kind: Kind, s: Bytes, t: Bytes, pos: nat)
    requires KnownField(sc, m, num, kind, s, pos).Ok?
    ensures KnownField(sc, m, num, kind, s + t, pos) == KnownField(sc, m, num, kind, s, pos)
  {
    ReadExtends(s, t);
    var d := Read(s).value;
    if kind == BytesKind {
      assert (s + t)[d.size..d.size + d.value] == s[d.size..d.size + d.value];
    }
  }

  lemma OneFieldExtends<M>(sc: Schema<M>, m: M, s: Bytes, t: Bytes, pos: nat)
    requires OneField(sc, m, s, pos).Ok?
    ensures OneField(sc, m, s + t, pos) == OneField(sc, m, s, pos)
  {
    hide Read, SkipFrom, KnownField;
    ReadExtends(s, t);
    var tag := Read(s).value;
    var num := FieldNumber(tag.value);
    match sc.kind(num) {
      case None =>
        SkipExtends(s, t, 0, 0);
      case Some(kind) =>
        assert (s + t)[tag.size..] == s[tag.size..] + t;
        KnownFieldExtends(sc, m, num, kind, s[tag.size..], t, pos + tag.size);
    }
  }

  /**
   Decoding a concatenation is decoding the first part and going on from the message
   it gave: the merging law of the wire format.
   */
  lemma {:induction false} DecodeConcat<M>(sc: Schema<M>, m: M, s: Bytes, t: Bytes, pos: nat)
    requires Decode(sc, m, s, pos).Ok?
    ensures Decode(sc, m, s + t, pos) == Decode(sc, Decode(sc, m, s, pos).value, t, pos + |s|)
    decreases |s|
  {
    hide OneField;
    if s == [] {
      assert s + t == t;
    } else {
      OneFieldExtends(sc, m, s, t, pos);
      var k := OneField(sc, m, s, pos).value;
      assert (s + t)[k.size..] == s[k.size..] + t;
      DecodeConcat(sc, k.message, s[k.size..], t, pos + k.size);
    }
  }
}
