/**
 The positional parser that reads packets and acknowledgements back out of the events
 that the channel module emits.
 */
module EventParser {
  import opened Basics
  import opened Text
  import opened Events
  import Keys

  // ---------------------------------------------------------------- the parser

  /** `Misplaced` is a failed position assertion, `Invalid` a failed `ValidateBasic`, `Crash` a panic. */
  datatype Parsed<+T> = Done(value: T) | Misplaced | Invalid | Crash

  /**
   What is read: the value to start from, the position that each attribute key is asserted
   to stand at, whether a value can be read for that position, and how it is stored.
   */
  datatype Shape<!T> = Shape(
    empty: T,
    position: Bytes -> Option<nat>,
    decodes: (nat, Bytes) -> bool,
    put: (T, nat, Bytes) -> T)

  /** One turn of the attribute loop: the value is read before its position is checked. */
  function Step<T>(sh: Shape<T>, t: T, i: nat, a: Attribute): Parsed<T> {
    match sh.position(a.key)
    case None => Done(t)
    case Some(j) =>
      if !sh.decodes(j, a.value) then Crash
      else if i != j then Misplaced
      else Done(sh.put(t, j, a.value))
  }

  function ParseAttributes<T>(sh: Shape<T>, attrs: seq<Attribute>): Parsed<T> {
    if attrs == [] then Done(sh.empty)
    else
      var n := |attrs| - 1;
      match ParseAttributes(sh, attrs[..n])
      case Done(t) => Step(sh, t, n, attrs[n])
      case failed => failed
  }

  /** Every attribute that the parser knows stands at its position and can be read. */
  predicate WellPlaced<T>(sh: Shape<T>, attrs: seq<Attribute>) {
    forall i :: 0 <= i < |attrs| ==> Placed(sh, i, attrs[i])
  }

  predicate Placed<T>(sh: Shape<T>, i: nat, a: Attribute) {
    match sh.position(a.key)
    case None => true
    case Some(j) => j == i && sh.decodes(j, a.value)
  }

  /** An event parses if and only if its attributes are well placed. */
  lemma {:induction false} ParsesExactly<T>(sh: Shape<T>, attrs: seq<Attribute>)
    ensures ParseAttributes(sh, attrs).Done? <==> WellPlaced(sh, attrs)
    decreases |attrs|
  {
    if attrs != [] {
      var n := |attrs| - 1;
      ParsesExactly(sh, attrs[..n]);
      assert attrs == attrs[..n] + [attrs[n]];
      assert WellPlaced(sh, attrs) <==> WellPlaced(sh, attrs[..n]) && Placed(sh, n, attrs[n]);
    }
  }

  lemma {:induction false} StopsAt<T>(sh: Shape<T>, attrs: seq<Attribute>, n: nat)
    requires n <= |attrs| && !ParseAttributes(sh, attrs[..n]).Done?
    ensures ParseAttributes(sh, attrs) == ParseAttributes(sh, attrs[..n])
    decreases |attrs|
  {
    hide Step;
    if n == |attrs| {
      assert attrs[..n] == attrs;
    } else {
      var i := |attrs| - 1;
      assert attrs[..i][..n] == attrs[..n];
      StopsAt(sh, attrs[..i], n);
    }
  }

  method ParseEvent<T>(sh: Shape<T>, attrs: seq<Attribute>) returns (r: Parsed<T>)
    ensures r == ParseAttributes(sh, attrs)
  {
    var t := sh.empty;
    for i := 0 to |attrs|
      invariant ParseAttributes(sh, attrs[..i]) == Done(t)
    {
      assert attrs[..i + 1][..i] == attrs[..i];
      var next := Step(sh, t, i, attrs[i]);
      if !next.Done? {
        StopsAt(sh, attrs, i + 1);
        return next;
      }
      t := next.value;
    }
    assert attrs[..|attrs|] == attrs;
    return Done(t);
  }

  /** The events of one kind, in order; the first that fails decides. */
  function ParseEvents<T>(sh: Shape<T>, kind: Bytes, valid: T -> bool, events: seq<Event>): Parsed<seq<T>> {
    if events == [] then Done([])
    else
      var n := |events| - 1;
      match ParseEvents(sh, kind, valid, events[..n])
      case Done(ts) => AddEvent(sh, kind, valid, ts, events[n])
      case failed => failed
  }

  function AddEvent<T>(sh: Shape<T>, kind: Bytes, valid: T -> bool, ts: seq<T>, ev: Event): Parsed<seq<T>> {
    if ev.kind != kind then Done(ts)
    else
      match ParseAttributes(sh, ev.attributes)
      case Done(t) => if valid(t) then Done(ts + [t]) else Invalid
      case Misplaced => Misplaced
      case Invalid => Invalid
      case Crash => Crash
  }

  lemma {:induction false} EventsStopAt<T>(sh: Shape<T>, kind: Bytes, valid: T -> bool, events: seq<Event>, n: nat)
    requires n <= |events| && !ParseEvents(sh, kind, valid, events[..n]).Done?
    ensures ParseEvents(sh, kind, valid, events) == ParseEvents(sh, kind, valid, events[..n])
    decreases |events|
  {
    hide AddEvent;
    if n == |events| {
      assert events[..n] == events;
    } else {
      var i := |events| - 1;
      assert events[..i][..n] == events[..n];
      EventsStopAt(sh, kind, valid, events[..i], n);
    }
  }

  /** `getPacketsFromEvents` and `getPacketAcknowledgementsFromEvents`. */
  method GetFromEvents<T>(sh: Shape<T>, kind: Bytes, valid: T -> bool, events: seq<Event>) returns (r: Parsed<seq<T>>)
    ensures r == ParseEvents(sh, kind, valid, events)
  {
    hide ParseAttributes;
    var ts: seq<T> := [];
    for i := 0 to |events|
      invariant ParseEvents(sh, kind, valid, events[..i]) == Done(ts)
    {
      assert events[..i + 1][..i] == events[..i];
      assert ParseEvents(sh, kind, valid, events[..i + 1]) == AddEvent(sh, kind, valid, ts, events[i]);
      if events[i].kind != kind {
        continue;
      }
      var t := ParseEvent(sh, events[i].attributes);
      match t {
        case Done(x) =>
          if !valid(x) {
            EventsStopAt(sh, kind, valid, events, i + 1);
            return Invalid;
          }
          ts := ts + [x];
        case Misplaced =>
          EventsStopAt(sh, kind, valid, events, i + 1);
          return Misplaced;
        case Invalid =>
          EventsStopAt(sh, kind, valid, events, i + 1);
          return Invalid;
        case Crash =>
          EventsStopAt(sh, kind, valid, events, i + 1);
          return Crash;
      }
    }
    assert events[..|events|] == events;
    return Done(ts);
  }

  /** What the events of one kind carry, in order, as their attributes read. */
  function Carried<T>(kind: Bytes, read: seq<Attribute> -> T, events: seq<Event>): seq<T> {
    if events == [] then []
    else
      var n := |events| - 1;
      var before := Carried(kind, read, events[..n]);
      if events[n].kind == kind then before + [read(events[n].attributes)] else before
  }

  /** An event of the kind has well-placed attributes that read as something valid. */
  predicate Readable<T>(sh: Shape<T>, kind: Bytes, valid: T -> bool, read: seq<Attribute> -> T, ev: Event) {
    ev.kind == kind ==> WellPlaced(sh, ev.attributes) && valid(read(ev.attributes))
  }

  /** The parser gives well-placed attributes that reading. */
  ghost predicate Spells<T>(sh: Shape<T>, read: seq<Attribute> -> T) {
    forall attrs :: WellPlaced(sh, attrs) ==> ParseAttributes(sh, attrs) == Done(read(attrs))
  }

  /**
   An event list of any length and mix parses if and only if every event of the kind is
   readable, and then to exactly what those events carry, in order.
   */
  lemma {:induction false} EventsParseExactly<T>(sh: Shape<T>, kind: Bytes, valid: T -> bool, read: seq<Attribute> -> T, events: seq<Event>)
    requires Spells(sh, read)
    ensures ParseEvents(sh, kind, valid, events).Done? <==> forall i :: 0 <= i < |events| ==> Readable(sh, kind, valid, read, events[i])
    ensures ParseEvents(sh, kind, valid, events).Done? ==> ParseEvents(sh, kind, valid, events).value == Carried(kind, read, events)
    decreases |events|
  {
    hide ParseAttributes, WellPlaced;
    if events != [] {
      var n := |events| - 1;
      EventsParseExactly(sh, kind, valid, read, events[..n]);
      assert forall i :: 0 <= i < n ==> events[..n][i] == events[i];
      ParsesExactly(sh, events[n].attributes);
    }
  }

  // ---------------------------------------------------------------- attribute names

  /** The attribute keys, by the position each is asserted at. */
  function Name(j: nat): Bytes
    requires j < 10
  {
    match j
    case 0 => Ascii("packet_data")
    case 1 => Ascii("packet_data_hex")
    case 2 => Ascii("packet_timeout_height")
    case 3 => Ascii("packet_timeout_timestamp")
    case 4 => Ascii("packet_sequence")
    case 5 => Ascii("packet_src_port")
    case 6 => Ascii("packet_src_channel")
    case 7 => Ascii("packet_dst_port")
    case 8 => Ascii("packet_dst_channel")
    case 9 => Ascii("packet_ack")
  }

  /** The length of a name and its ninth byte tell the names apart. */
  function Tell(j: nat): (int, int)
    requires j < 10
  {
    match j
    case 0 => (11, 97)
    case 1 => (15, 97)
    case 2 => (21, 105)
    case 3 => (24, 105)
    case 4 => (15, 101)
    case 5 => (15, 114)
    case 6 => (18, 114)
    case 7 => (15, 115)
    case 8 => (18, 115)
    case 9 => (10, 99)
  }

  lemma NameTells(j: nat)
    requires j < 10
    ensures |Name(j)| == Tell(j).0 && Name(j)[8] == Tell(j).1
  {}

  lemma NamesDiffer(i: nat, j: nat)
    requires i < 10 && j < 10 && Name(i) == Name(j)
    ensures i == j
  {
    NameTells(i);
    NameTells(j);
    hide Name;
  }

  function PositionFrom(key: Bytes, j: nat, end: nat): (r: Option<nat>)
    requires j <= end <= 10
    ensures r.Some? ==> j <= r.value < end && key == Name(r.value)
    ensures r.None? ==> forall i :: j <= i < end ==> key != Name(i)
    decreases end - j
  {
    if j == end then None
    else if key == Name(j) then Some(j)
    else PositionFrom(key, j + 1, end)
  }

  /** The cases of the switch over the attribute key. */
  function PacketPosition(key: Bytes): Option<nat> {
    PositionFrom(key, 0, 9)
  }

  function AckPosition(key: Bytes): Option<nat> {
    PositionFrom(key, 4, 10)
  }

  lemma PositionOfName(j: nat, first: nat, end: nat)
    requires first <= end <= 10 && j < 10
    ensures PositionFrom(Name(j), first, end) == if first <= j < end then Some(j) else None
  {
    hide Name;
    var r := PositionFrom(Name(j), first, end);
    if r.Some? {
      NamesDiffer(r.value, j);
    }
  }

  // ---------------------------------------------------------------- packets

  datatype Packet = Packet(
    sequence: uint64,
    sourcePort: Bytes,
    sourceChannel: Bytes,
    destinationPort: Bytes,
    destinationChannel: Bytes,
    data: Bytes,
    timeoutRevision: uint64,
    timeoutHeight: uint64,
    timeoutTimestamp: uint64)

  const EMPTY_PACKET := Packet(0, [], [], [], [], [], 0, 0, 0)

  function Number(v: Bytes): uint64 {
    match ParseUint(v) case Some(n) => n case None => 0
  }

  /** The two numbers of a timeout height; more than two parts are not refused. */
  function Revision(v: Bytes): uint64 {
    Number(Split(v, DASH)[0])
  }

  function Height(v: Bytes): uint64 {
    var parts := Split(v, DASH);
    if |parts| < 2 then 0 else Number(parts[1])
  }

  predicate HeightDecodes(v: Bytes) {
    var parts := Split(v, DASH);
    |parts| >= 2 && ParseUint(parts[0]).Some? && ParseUint(parts[1]).Some?
  }

  predicate HeightReadsAs(v: Bytes, a: Bytes, b: Bytes) {
    && (HeightDecodes(v) <==> ParseUint(a).Some? && ParseUint(b).Some?)
    && (HeightDecodes(v) ==> Revision(v) == ParseUint(a).value && Height(v) == ParseUint(b).value)
  }

  /** Every text has no dash, one or more: the numbers are those around the first, up to the second. */
  lemma HeightExactly(a: Bytes, b: Bytes, rest: Bytes)
    requires Free(a, DASH) && Free(b, DASH)
    ensures !HeightDecodes(a)
    ensures HeightReadsAs(a + ([DASH] + b), a, b)
    ensures HeightReadsAs(a + ([DASH] + (b + ([DASH] + rest))), a, b)
  {
    SplitFirst(a, b, DASH);
    SplitFirst(b, rest, DASH);
    SplitFirst(a, b + ([DASH] + rest), DASH);
  }

  predicate PacketDecodes(j: nat, v: Bytes) {
    if j == 1 then UnHex(v).Some?
    else if j == 2 then HeightDecodes(v)
    else if j == 3 || j == 4 then ParseUint(v).Some?
    else true
  }

  function PutInPacket(p: Packet, j: nat, v: Bytes): Packet {
    match j
    case 0 => EMPTY_PACKET.(data := v)
    case 1 => p.(data := HexBytes(v))
    case 2 => p.(timeoutRevision := Revision(v), timeoutHeight := Height(v))
    case 3 => p.(timeoutTimestamp := Number(v))
    case 4 => p.(sequence := Number(v))
    case 5 => p.(sourcePort := v)
    case 6 => p.(sourceChannel := v)
    case 7 => p.(destinationPort := v)
    case 8 => p.(destinationChannel := v)
    case _ => p
  }

  function PacketShape(): Shape<Packet> {
    Shape(EMPTY_PACKET, PacketPosition, PacketDecodes, PutInPacket)
  }

  /** The value of the attribute at a position, if it has the key for that position. */
  function At(attrs: seq<Attribute>, j: nat): Option<Bytes>
    requires j < 10
  {
    if j < |attrs| && attrs[j].key == Name(j) then Some(attrs[j].value) else None
  }

  function TextAt(attrs: seq<Attribute>, j: nat): Bytes
    requires j < 10
  {
    match At(attrs, j) case Some(v) => v case None => []
  }

  function NumberAt(attrs: seq<Attribute>, j: nat): uint64
    requires j < 10
  {
    match At(attrs, j) case Some(v) => Number(v) case None => 0
  }

  /** The packet that the nine positions spell; hex data comes before plain data. */
  function PacketAt(attrs: seq<Attribute>): Packet {
    Packet(
      NumberAt(attrs, 4), TextAt(attrs, 5), TextAt(attrs, 6), TextAt(attrs, 7), TextAt(attrs, 8),
      match At(attrs, 1) { case Some(v) => HexBytes(v) case None => TextAt(attrs, 0) },
      match At(attrs, 2) { case Some(v) => Revision(v) case None => 0 },
      match At(attrs, 2) { case Some(v) => Height(v) case None => 0 },
      NumberAt(attrs, 3))
  }

  lemma AtPrefix(attrs: seq<Attribute>, j: nat)
    requires attrs != [] && j < 10
    ensures At(attrs[..|attrs| - 1], j) == if j < |attrs| - 1 then At(attrs, j) else None
  {}

  lemma PacketAtStep(attrs: seq<Attribute>, n: nat)
    requires |attrs| == n + 1
    ensures PacketAt(attrs)
         == if n < 9 && attrs[n].key == Name(n) then PutInPacket(PacketAt(attrs[..n]), n, attrs[n].value)
            else PacketAt(attrs[..n])
  {
    hide Name, HexBytes, Number, Revision, Height;
    AtPrefix(attrs, 0);
    AtPrefix(attrs, 1);
    AtPrefix(attrs, 2);
    AtPrefix(attrs, 3);
    AtPrefix(attrs, 4);
    AtPrefix(attrs, 5);
    AtPrefix(attrs, 6);
    AtPrefix(attrs, 7);
    AtPrefix(attrs, 8);
  }

  /** A send-packet event that parses gives the packet that its positions spell. */
  lemma {:induction false} PacketFromPositions(attrs: seq<Attribute>)
    requires WellPlaced(PacketShape(), attrs)
    ensures ParseAttributes(PacketShape(), attrs) == Done(PacketAt(attrs))
    decreases |attrs|
  {
    hide Name, PacketAt, PutInPacket, PacketDecodes;
    if attrs == [] {
      NothingSpelt();
    } else {
      var n := |attrs| - 1;
      var sh := PacketShape();
      PacketFromPositions(attrs[..n]);
      PacketAtStep(attrs, n);
      assert Placed(sh, n, attrs[n]);
      assert sh.position(attrs[n].key) == PacketPosition(attrs[n].key);
      if n < 9 && attrs[n].key == Name(n) {
        PositionOfName(n, 0, 9);
      }
    }
  }

  lemma PacketSpells()
    ensures Spells(PacketShape(), PacketAt)
  {
    hide WellPlaced, ParseAttributes, PacketAt;
    forall attrs | WellPlaced(PacketShape(), attrs)
      ensures ParseAttributes(PacketShape(), attrs) == Done(PacketAt(attrs))
    {
      PacketFromPositions(attrs);
    }
  }

  lemma NothingSpelt()
    ensures PacketAt([]) == EMPTY_PACKET
  {}

  /** The attributes that the channel module gives a send-packet event, before some that are not read. */
  function PacketAttributes(p: Packet): (attrs: seq<Attribute>)
    ensures |attrs| == 9
    ensures forall j :: 0 <= j < 9 ==> attrs[j].key == Name(j)
  {
    [ Attribute(Ascii("packet_data"), p.data), Attribute(Ascii("packet_data_hex"), Hex(p.data)),
      Attribute(Ascii("packet_timeout_height"), Keys.HeightText(p.timeoutRevision, p.timeoutHeight)),
      Attribute(Ascii("packet_timeout_timestamp"), Decimal(p.timeoutTimestamp)),
      Attribute(Ascii("packet_sequence"), Decimal(p.sequence)),
      Attribute(Ascii("packet_src_port"), p.sourcePort), Attribute(Ascii("packet_src_channel"), p.sourceChannel),
      Attribute(Ascii("packet_dst_port"), p.destinationPort), Attribute(Ascii("packet_dst_channel"), p.destinationChannel) ]
  }

  lemma HeightReads(r: uint64, h: uint64)
    ensures var v := Keys.HeightText(r, h);
            HeightDecodes(v) && Revision(v) == r && Height(v) == h
  {
    Keys.HeightForm(r, h);
    hide Keys.HeightText, Join, Decimal, ParseUint;
    SplitJoin([Decimal(r), Decimal(h)], DASH);
    ParseDecimal(r);
    ParseDecimal(h);
  }

  lemma PacketSpelt(p: Packet, extra: seq<Attribute>)
    ensures PacketAt(PacketAttributes(p) + extra) == p
  {
    HexRoundTrip(p.data);
    HeightReads(p.timeoutRevision, p.timeoutHeight);
    ParseDecimal(p.timeoutTimestamp);
    ParseDecimal(p.sequence);
    hide Name, Hex, UnHex, Decimal, ParseUint, Revision, Height, Keys.HeightText;
    var attrs := PacketAttributes(p) + extra;
    forall j | 0 <= j < 9
      ensures At(attrs, j) == Some(PacketAttributes(p)[j].value)
    {
      assert attrs[j] == PacketAttributes(p)[j];
    }
  }

  lemma PacketPlaced(p: Packet, extra: seq<Attribute>)
    requires forall i :: 0 <= i < |extra| ==> PacketPosition(extra[i].key).None?
    ensures WellPlaced(PacketShape(), PacketAttributes(p) + extra)
  {
    HexRoundTrip(p.data);
    HeightReads(p.timeoutRevision, p.timeoutHeight);
    ParseDecimal(p.timeoutTimestamp);
    ParseDecimal(p.sequence);
    hide Name, Hex, UnHex, Decimal, ParseUint, HeightDecodes, Keys.HeightText;
    var attrs := PacketAttributes(p) + extra;
    forall i | 0 <= i < |attrs|
      ensures Placed(PacketShape(), i, attrs[i])
    {
      if i < 9 {
        PositionOfName(i, 0, 9);
        assert attrs[i] == PacketAttributes(p)[i];
        assert PacketDecodes(i, attrs[i].value);
      } else {
        assert attrs[i] == extra[i - 9];
      }
    }
  }

  /** Every packet survives being written as an event and parsed back. */
  lemma PacketRoundTrip(p: Packet, extra: seq<Attribute>)
    requires forall i :: 0 <= i < |extra| ==> PacketPosition(extra[i].key).None?
    ensures ParseAttributes(PacketShape(), PacketAttributes(p) + extra) == Done(p)
  {
    hide PacketAt, PacketAttributes, WellPlaced;
    PacketPlaced(p, extra);
    PacketSpelt(p, extra);
    PacketFromPositions(PacketAttributes(p) + extra);
  }

  // ---------------------------------------------------------------- acknowledgements

  datatype Ack = Ack(
    sourcePort: Bytes,
    sourceChannel: Bytes,
    destinationPort: Bytes,
    destinationChannel: Bytes,
    sequence: uint64,
    data: Bytes)

  const EMPTY_ACK := Ack([], [], [], [], 0, [])

  predicate AckDecodes(j: nat, v: Bytes) {
    j == 4 ==> ParseUint(v).Some?
  }

  function PutInAck(a: Ack, j: nat, v: Bytes): Ack {
    match j
    case 4 => a.(sequence := Number(v))
    case 5 => a.(sourcePort := v)
    case 6 => a.(sourceChannel := v)
    case 7 => a.(destinationPort := v)
    case 8 => a.(destinationChannel := v)
    case 9 => a.(data := v)
    case _ => a
  }

  function AckShape(): Shape<Ack> {
    Shape(EMPTY_ACK, AckPosition, AckDecodes, PutInAck)
  }

  /** The acknowledgement that the last six positions spell. */
  function AckAt(attrs: seq<Attribute>): Ack {
    Ack(TextAt(attrs, 5), TextAt(attrs, 6), TextAt(attrs, 7), TextAt(attrs, 8), NumberAt(attrs, 4), TextAt(attrs, 9))
  }

  lemma AckAtStep(attrs: seq<Attribute>, n: nat)
    requires |attrs| == n + 1
    ensures AckAt(attrs)
         == if 4 <= n < 10 && attrs[n].key == Name(n) then PutInAck(AckAt(attrs[..n]), n, attrs[n].value)
            else AckAt(attrs[..n])
  {
    hide Name, Number;
    AtPrefix(attrs, 4);
    AtPrefix(attrs, 5);
    AtPrefix(attrs, 6);
    AtPrefix(attrs, 7);
    AtPrefix(attrs, 8);
    AtPrefix(attrs, 9);
  }

  /** A write-acknowledgement event that parses gives the acknowledgement that its positions spell. */
  lemma {:induction false} AckFromPositions(attrs: seq<Attribute>)
    requires WellPlaced(AckShape(), attrs)
    ensures ParseAttributes(AckShape(), attrs) == Done(AckAt(attrs))
    decreases |attrs|
  {
    hide Name, AckAt, PutInAck, AckDecodes;
    if attrs == [] {
      assert AckAt([]) == EMPTY_ACK by {
        NoAckSpelt();
      }
    } else {
      var n := |attrs| - 1;
      var sh := AckShape();
      AckFromPositions(attrs[..n]);
      AckAtStep(attrs, n);
      assert Placed(sh, n, attrs[n]);
      assert sh.position(attrs[n].key) == AckPosition(attrs[n].key);
      if 4 <= n < 10 && attrs[n].key == Name(n) {
        PositionOfName(n, 4, 10);
      }
    }
  }

  lemma AckSpells()
    ensures Spells(AckShape(), AckAt)
  {
    hide WellPlaced, ParseAttributes, AckAt;
    forall attrs | WellPlaced(AckShape(), attrs)
      ensures ParseAttributes(AckShape(), attrs) == Done(AckAt(attrs))
    {
      AckFromPositions(attrs);
    }
  }

  lemma NoAckSpelt()
    ensures AckAt([]) == EMPTY_ACK
  {}

  /** A write-acknowledgement event has the packet's attributes, then the acknowledgement. */
  function AckAttributes(p: Packet, data: Bytes): (attrs: seq<Attribute>)
    ensures |attrs| == 10
    ensures forall j :: 0 <= j < 10 ==> attrs[j].key == Name(j)
  {
    PacketAttributes(p) + [Attribute(Ascii("packet_ack"), data)]
  }

  lemma AckSpelt(p: Packet, data: Bytes, extra: seq<Attribute>)
    ensures AckAt(AckAttributes(p, data) + extra)
         == Ack(p.sourcePort, p.sourceChannel, p.destinationPort, p.destinationChannel, p.sequence, data)
  {
    ParseDecimal(p.sequence);
    hide Name, Hex, Decimal, ParseUint, Keys.HeightText;
    var attrs := AckAttributes(p, data) + extra;
    forall j | 0 <= j < 10
      ensures At(attrs, j) == Some(AckAttributes(p, data)[j].value)
    {
      assert attrs[j] == AckAttributes(p, data)[j];
    }
  }

  lemma AckPlaced(p: Packet, data: Bytes, extra: seq<Attribute>)
    requires forall i :: 0 <= i < |extra| ==> AckPosition(extra[i].key).None?
    ensures WellPlaced(AckShape(), AckAttributes(p, data) + extra)
  {
    ParseDecimal(p.sequence);
    hide Name, Hex, Decimal, ParseUint, Keys.HeightText;
    var attrs := AckAttributes(p, data) + extra;
    forall i | 0 <= i < |attrs|
      ensures Placed(AckShape(), i, attrs[i])
    {
      if i < 10 {
        PositionOfName(i, 4, 10);
        assert attrs[i] == AckAttributes(p, data)[i];
        assert AckDecodes(i, attrs[i].value);
      } else {
        assert attrs[i] == extra[i - 10];
      }
    }
  }

  /** Every acknowledgement survives being written as an event and parsed back. */
  lemma AckRoundTrip(p: Packet, data: Bytes, extra: seq<Attribute>)
    requires forall i :: 0 <= i < |extra| ==> AckPosition(extra[i].key).None?
    ensures ParseAttributes(AckShape(), AckAttributes(p, data) + extra)
         == Done(Ack(p.sourcePort, p.sourceChannel, p.destinationPort, p.destinationChannel, p.sequence, data))
  {
    hide AckAt, AckAttributes, WellPlaced;
    AckPlaced(p, data, extra);
    AckSpelt(p, data, extra);
    AckFromPositions(AckAttributes(p, data) + extra);
  }
}
