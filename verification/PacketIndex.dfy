/**
 The index of sent packets and written acknowledgements that event handlers keep on the
 ledger beside everything else.
 */
module PacketIndex {
  import opened Basics
  import opened Text
  import opened Events
  import opened LedgerStub
  import opened EventParser
  import Keys

  /** The packet codec and validation of the channel module. */
  datatype Codec = Codec(marshal: Packet -> Bytes, unmarshal: Bytes -> Option<Packet>, valid: Packet -> bool)

  /** The codec reads what it wrote, and valid packets have identifiers without a slash, as in ICS-24. */
  ghost predicate Lawful(c: Codec) {
    (forall p :: c.unmarshal(c.marshal(p)) == Some(p))
    && (forall p :: c.valid(p) ==> Free(p.sourcePort, SLASH) && Free(p.sourceChannel, SLASH))
  }

  datatype Handled = Continue | Refused | Crashed

  /** A key of the ledger and the value it is set to. */
  datatype Entry = Entry(key: Bytes, value: Bytes)

  /** The entries put one after the other. */
  function PutAll(state: Ledger, entries: seq<Entry>): Ledger {
    if entries == [] then state
    else
      var n := |entries| - 1;
      PutAll(state, entries[..n])[entries[n].key := entries[n].value]
  }

  /** The value of the last entry for a key. */
  function LastFor(entries: seq<Entry>, key: Bytes): Option<Bytes> {
    if entries == [] then None
    else
      var n := |entries| - 1;
      if entries[n].key == key then Some(entries[n].value) else LastFor(entries[..n], key)
  }

  /** Putting entries gives each key its last value and leaves every other key alone. */
  lemma {:induction false} PutAllAt(state: Ledger, entries: seq<Entry>, key: Bytes)
    ensures match LastFor(entries, key)
            case Some(v) => key in PutAll(state, entries) && PutAll(state, entries)[key] == v
            case None => (key in PutAll(state, entries) <==> key in state)
                         && (key in state ==> PutAll(state, entries)[key] == state[key])
    decreases |entries|
  {
    if entries != [] {
      PutAllAt(state, entries[..|entries| - 1], key);
    }
  }

  // ---------------------------------------------------------------- packets

  const PACKETS: Bytes := Ascii("/packets")
  const ACKS: Bytes := Ascii("/acks")

  function PacketEntry(c: Codec, p: Packet): Entry {
    Entry(Keys.MakePacketKey(PACKETS, p.sourcePort, p.sourceChannel, p.sequence), c.marshal(p))
  }

  function PacketEntries(c: Codec, ps: seq<Packet>): (r: seq<Entry>)
    ensures |r| == |ps|
    ensures forall i :: 0 <= i < |ps| ==> r[i] == PacketEntry(c, ps[i])
  {
    seq(|ps|, i requires 0 <= i < |ps| => PacketEntry(c, ps[i]))
  }

  /** The last packet that was sent on a channel with a sequence number. */
  function LastPacket(ps: seq<Packet>, port: Bytes, channel: Bytes, n: uint64): Option<Packet> {
    if ps == [] then None
    else
      var p := ps[|ps| - 1];
      if p.sourcePort == port && p.sourceChannel == channel && p.sequence == n then Some(p)
      else LastPacket(ps[..|ps| - 1], port, channel, n)
  }

  const SEND_PACKET: Bytes := Ascii("send_packet")
  const WRITE_ACK: Bytes := Ascii("write_acknowledgement")

  /** `HandlePacketEvent`: nothing is put unless every event parses; a panic aborts the transaction. */
  method HandlePacketEvent(stub: Stub, c: Codec, events: seq<Event>) returns (r: Handled)
    modifies stub
    ensures match ParseEvents(PacketShape(), SEND_PACKET, c.valid, events)
            case Done(ps) => r == Continue && stub.state == PutAll(old(stub.state), PacketEntries(c, ps))
            case Crash => r == Crashed && stub.state == old(stub.state)
            case _ => r == Refused && stub.state == old(stub.state)
  {
    hide PacketEntry, ParseEvents;
    var parsed := GetFromEvents(PacketShape(), SEND_PACKET, c.valid, events);
    if !parsed.Done? {
      return if parsed.Crash? then Crashed else Refused;
    }
    var ps := parsed.value;
    ghost var entries := PacketEntries(c, ps);
    for i := 0 to |ps|
      invariant stub.state == PutAll(old(stub.state), entries[..i])
    {
      assert entries[..i + 1][..i] == entries[..i];
      var e := PacketEntry(c, ps[i]);
      stub.PutState(e.key, e.value);
    }
    assert entries[..|ps|] == entries;
    return Continue;
  }

  datatype Answer = Found(packet: Packet) | NotFound | Undecodable

  /** `QueryPacket`, up to its JSON form. */
  function QueryPacket(state: Ledger, c: Codec, port: Bytes, channel: Bytes, n: uint64): Answer {
    var k := Keys.MakePacketKey(PACKETS, port, channel, n);
    if k !in state then NotFound
    else match c.unmarshal(state[k]) case Some(p) => Found(p) case None => Undecodable
  }

  lemma PacketKeyIs(prefix: Bytes, port: Bytes, channel: Bytes, n: uint64)
    ensures Keys.Render(prefix, Keys.PacketIndex(port, channel, n)) == Keys.MakePacketKey(PACKETS, port, channel, n)
    ensures Keys.Render(prefix, Keys.AckIndex(port, channel, n)) == Keys.MakePacketKey(ACKS, port, channel, n)
  {
    hide Keys.MakePacketKey;
  }

  lemma PacketKeyInjective(p: Packet, port: Bytes, channel: Bytes, n: uint64)
    requires Free(p.sourcePort, SLASH) && Free(p.sourceChannel, SLASH)
    requires Keys.MakePacketKey(PACKETS, p.sourcePort, p.sourceChannel, p.sequence) == Keys.MakePacketKey(PACKETS, port, channel, n)
    ensures p.sourcePort == port && p.sourceChannel == channel && p.sequence == n
  {
    hide Keys.MakePacketKey, Keys.Render;
    PacketKeyIs([], p.sourcePort, p.sourceChannel, p.sequence);
    PacketKeyIs([], port, channel, n);
    Keys.KeysNeverCollide([], Keys.PacketIndex(port, channel, n), Keys.PacketIndex(p.sourcePort, p.sourceChannel, p.sequence));
  }

  lemma {:induction false} LastEntry(c: Codec, ps: seq<Packet>, port: Bytes, channel: Bytes, n: uint64)
    requires forall i :: 0 <= i < |ps| ==> Free(ps[i].sourcePort, SLASH) && Free(ps[i].sourceChannel, SLASH)
    ensures LastFor(PacketEntries(c, ps), Keys.MakePacketKey(PACKETS, port, channel, n))
         == match LastPacket(ps, port, channel, n) case Some(p) => Some(c.marshal(p)) case None => None
    decreases |ps|
  {
    hide Keys.MakePacketKey;
    if ps != [] {
      var i := |ps| - 1;
      LastEntry(c, ps[..i], port, channel, n);
      assert PacketEntries(c, ps)[..i] == PacketEntries(c, ps[..i]);
      if PacketEntry(c, ps[i]).key == Keys.MakePacketKey(PACKETS, port, channel, n) {
        PacketKeyInjective(ps[i], port, channel, n);
      }
    }
  }

  /** What a query should find after some packets: the last for the channel and number, or what there was before. */
  function AnswerAfter(state: Ledger, c: Codec, ps: seq<Packet>, port: Bytes, channel: Bytes, n: uint64): Answer {
    match LastPacket(ps, port, channel, n)
    case Some(p) => Found(p)
    case None => QueryPacket(state, c, port, channel, n)
  }

  /**
   After the packets of a transaction have been indexed, a query finds the last one sent on
   the channel with the sequence number, and otherwise what it found before.
   */
  lemma QueryFindsLast(state: Ledger, c: Codec, ps: seq<Packet>, port: Bytes, channel: Bytes, n: uint64)
    requires Lawful(c)
    requires forall i :: 0 <= i < |ps| ==> c.valid(ps[i])
    ensures QueryPacket(PutAll(state, PacketEntries(c, ps)), c, port, channel, n) == AnswerAfter(state, c, ps, port, channel, n)
  {
    hide Keys.MakePacketKey, LastFor, LastPacket, PacketEntries;
    LastEntry(c, ps, port, channel, n);
    PutAllAt(state, PacketEntries(c, ps), Keys.MakePacketKey(PACKETS, port, channel, n));
  }

  /** The same lookup before and after. */
  predicate SameAt(before: Ledger, after: Ledger, key: Bytes) {
    Find(before, key) == Find(after, key)
  }

  /** An index key of one kind is no key of another kind, whatever the identifiers. */
  lemma OtherKind(prefix: Bytes, k: Keys.Key, index: Keys.Key)
    requires index.PacketIndex? || index.AckIndex?
    requires k.PacketIndex? != index.PacketIndex? || k.AckIndex? != index.AckIndex?
    ensures Keys.Render(prefix, k) != Keys.Render(prefix, index)
  {
    hide Keys.Render;
    if Keys.Render(prefix, k) == Keys.Render(prefix, index) {
      Keys.SameGroup(prefix, k, index);
    }
  }

  lemma {:induction false} NoEntryFor(entries: seq<Entry>, key: Bytes)
    requires forall i :: 0 <= i < |entries| ==> entries[i].key != key
    ensures LastFor(entries, key) == None
    decreases |entries|
  {
    if entries != [] {
      NoEntryFor(entries[..|entries| - 1], key);
    }
  }

  /** Indexing packets touches no other kind of key: no sequence, commitment, acknowledgement or database key. */
  lemma OtherKeysKept(state: Ledger, c: Codec, ps: seq<Packet>, prefix: Bytes, k: Keys.Key)
    requires !k.PacketIndex?
    ensures SameAt(state, PutAll(state, PacketEntries(c, ps)), Keys.Render(prefix, k))
  {
    hide Keys.Render, Keys.MakePacketKey, LastFor;
    var entries, key := PacketEntries(c, ps), Keys.Render(prefix, k);
    forall i | 0 <= i < |entries|
      ensures entries[i].key != key
    {
      PacketKeyIs(prefix, ps[i].sourcePort, ps[i].sourceChannel, ps[i].sequence);
      OtherKind(prefix, k, Keys.PacketIndex(ps[i].sourcePort, ps[i].sourceChannel, ps[i].sequence));
    }
    NoEntryFor(entries, key);
    PutAllAt(state, entries, key);
  }

  /** Whatever is parsed was found valid. */
  lemma {:induction false} ParsedAreValid(c: Codec, events: seq<Event>)
    requires ParseEvents(PacketShape(), SEND_PACKET, c.valid, events).Done?
    ensures var ps := ParseEvents(PacketShape(), SEND_PACKET, c.valid, events).value;
            forall i :: 0 <= i < |ps| ==> c.valid(ps[i])
    decreases |events|
  {
    hide ParseAttributes;
    if events != [] {
      ParsedAreValid(c, events[..|events| - 1]);
    }
  }

  /**
   From events to the answer of a query: the events are indexed if and only if every
   send-packet event is well placed and spells a valid packet, and then a query finds the
   last packet spelt for the channel and sequence number, and otherwise what it found before.
   */
  lemma IndexedEvents(state: Ledger, c: Codec, events: seq<Event>, port: Bytes, channel: Bytes, n: uint64)
    requires Lawful(c)
    ensures var r := ParseEvents(PacketShape(), SEND_PACKET, c.valid, events);
            && (r.Done? <==> forall i :: 0 <= i < |events| ==> Readable(PacketShape(), SEND_PACKET, c.valid, PacketAt, events[i]))
            && (r.Done? ==> QueryPacket(PutAll(state, PacketEntries(c, r.value)), c, port, channel, n)
                            == AnswerAfter(state, c, Carried(SEND_PACKET, PacketAt, events), port, channel, n))
  {
    hide QueryPacket, AnswerAfter, PutAll, ParseEvents, Carried, LastPacket, Readable, PacketAt;
    PacketSpells();
    EventsParseExactly(PacketShape(), SEND_PACKET, c.valid, PacketAt, events);
    var r := ParseEvents(PacketShape(), SEND_PACKET, c.valid, events);
    if r.Done? {
      ParsedAreValid(c, events);
      QueryFindsLast(state, c, r.value, port, channel, n);
    }
  }

  // ---------------------------------------------------------------- acknowledgements

  function AckEntry(a: Ack): Entry {
    Entry(Keys.MakePacketKey(ACKS, a.destinationPort, a.destinationChannel, a.sequence), a.data)
  }

  function AckEntries(acks: seq<Ack>): (r: seq<Entry>)
    ensures |r| == |acks|
    ensures forall i :: 0 <= i < |acks| ==> r[i] == AckEntry(acks[i])
  {
    seq(|acks|, i requires 0 <= i < |acks| => AckEntry(acks[i]))
  }

  /** `getPacketAcknowledgementsFromEvents` validates nothing. */
  predicate AnyAck(a: Ack) {
    true
  }

  /** `HandlePacketAcknowledgementEvent`: like packets, all or none. */
  method HandlePacketAcknowledgementEvent(stub: Stub, events: seq<Event>) returns (r: Handled)
    modifies stub
    ensures match ParseEvents(AckShape(), WRITE_ACK, AnyAck, events)
            case Done(acks) => r == Continue && stub.state == PutAll(old(stub.state), AckEntries(acks))
            case Crash => r == Crashed && stub.state == old(stub.state)
            case _ => r == Refused && stub.state == old(stub.state)
  {
    hide AckEntry, ParseEvents;
    var parsed := GetFromEvents(AckShape(), WRITE_ACK, AnyAck, events);
    if !parsed.Done? {
      return if parsed.Crash? then Crashed else Refused;
    }
    var acks := parsed.value;
    ghost var entries := AckEntries(acks);
    for i := 0 to |acks|
      invariant stub.state == PutAll(old(stub.state), entries[..i])
    {
      assert entries[..i + 1][..i] == entries[..i];
      var e := AckEntry(acks[i]);
      stub.PutState(e.key, e.value);
    }
    assert entries[..|acks|] == entries;
    return Continue;
  }

  /** The data of the last acknowledgement written on a channel for a sequence number. */
  function LastAck(acks: seq<Ack>, port: Bytes, channel: Bytes, n: uint64): Option<Bytes> {
    if acks == [] then None
    else
      var a := acks[|acks| - 1];
      if a.destinationPort == port && a.destinationChannel == channel && a.sequence == n then Some(a.data)
      else LastAck(acks[..|acks| - 1], port, channel, n)
  }

  /** `QueryPacketAcknowledgement`, up to its base64 form. */
  function QueryPacketAcknowledgement(state: Ledger, port: Bytes, channel: Bytes, n: uint64): Option<Bytes> {
    var k := Keys.MakePacketKey(ACKS, port, channel, n);
    if k in state then Some(state[k]) else None
  }

  function AckAfter(state: Ledger, acks: seq<Ack>, port: Bytes, channel: Bytes, n: uint64): Option<Bytes> {
    match LastAck(acks, port, channel, n)
    case Some(data) => Some(data)
    case None => QueryPacketAcknowledgement(state, port, channel, n)
  }

  lemma {:induction false} LastAckEntry(acks: seq<Ack>, port: Bytes, channel: Bytes, n: uint64)
    requires Free(port, SLASH) && Free(channel, SLASH)
    ensures LastFor(AckEntries(acks), Keys.MakePacketKey(ACKS, port, channel, n)) == LastAck(acks, port, channel, n)
    decreases |acks|
  {
    hide Keys.MakePacketKey, Keys.Render;
    if acks != [] {
      var i := |acks| - 1;
      var a := acks[i];
      LastAckEntry(acks[..i], port, channel, n);
      assert AckEntries(acks)[..i] == AckEntries(acks[..i]);
      if AckEntry(a).key == Keys.MakePacketKey(ACKS, port, channel, n) {
        PacketKeyIs([], a.destinationPort, a.destinationChannel, a.sequence);
        PacketKeyIs([], port, channel, n);
        Keys.KeysNeverCollide([], Keys.AckIndex(a.destinationPort, a.destinationChannel, a.sequence), Keys.AckIndex(port, channel, n));
      }
    }
  }

  /** After acknowledgements have been indexed, a query finds the last one, and otherwise what it found before. */
  lemma AckQueryFindsLast(state: Ledger, acks: seq<Ack>, port: Bytes, channel: Bytes, n: uint64)
    requires Free(port, SLASH) && Free(channel, SLASH)
    ensures QueryPacketAcknowledgement(PutAll(state, AckEntries(acks)), port, channel, n) == AckAfter(state, acks, port, channel, n)
  {
    hide Keys.MakePacketKey, LastFor, LastAck, AckEntries;
    LastAckEntry(acks, port, channel, n);
    PutAllAt(state, AckEntries(acks), Keys.MakePacketKey(ACKS, port, channel, n));
  }

  /** Indexing acknowledgements touches no other kind of key. */
  lemma AckOtherKeysKept(state: Ledger, acks: seq<Ack>, prefix: Bytes, k: Keys.Key)
    requires !k.AckIndex?
    ensures SameAt(state, PutAll(state, AckEntries(acks)), Keys.Render(prefix, k))
  {
    hide Keys.Render, Keys.MakePacketKey, LastFor;
    var entries, key := AckEntries(acks), Keys.Render(prefix, k);
    forall i | 0 <= i < |entries|
      ensures entries[i].key != key
    {
      PacketKeyIs(prefix, acks[i].destinationPort, acks[i].destinationChannel, acks[i].sequence);
      OtherKind(prefix, k, Keys.AckIndex(acks[i].destinationPort, acks[i].destinationChannel, acks[i].sequence));
    }
    NoEntryFor(entries, key);
    PutAllAt(state, entries, key);
  }

  /** A query for an acknowledgement that is shared with another channel's. */
  lemma AckMisread(port: Bytes, channel: Bytes, n: uint64) returns (p: Packet)
    requires !(Free(port, SLASH) && Free(channel, SLASH))
    ensures var acks := [Ack([], [], p.destinationPort, p.destinationChannel, n, [])];
            p.sequence == n && p.sourcePort == [] && p.sourceChannel == []
            && QueryPacketAcknowledgement(PutAll(map[], AckEntries(acks)), port, channel, n) == Some([])
            && AckAfter(map[], acks, port, channel, n) == None
  {
    hide Keys.MakePacketKey, Keys.Render;
    var q, c := Keys.OtherIndexKey([], port, channel, n);
    PacketKeyIs([], q, c, n);
    PacketKeyIs([], port, channel, n);
    p := EMPTY_PACKET.(destinationPort := q, destinationChannel := c, sequence := n);
    var a := Ack([], [], q, c, n, []);
    OneAck(map[], a);
    assert [a][..0] == [] && LastAck([a], port, channel, n) == None;
  }

  lemma OneAck(state: Ledger, a: Ack)
    ensures PutAll(state, AckEntries([a])) == state[AckEntry(a).key := a.data]
  {
    var entries := AckEntries([a]);
    assert entries == [AckEntry(a)] && entries[..0] == [];
  }

  /** A query always finds the last acknowledgement that any events spell for it, or what there was before. */
  ghost predicate AckQueryAnswers(port: Bytes, channel: Bytes, n: uint64) {
    forall state, events :: AckEventsAnswered(state, events, port, channel, n)
  }

  predicate AckEventsAnswered(state: Ledger, events: seq<Event>, port: Bytes, channel: Bytes, n: uint64) {
    var r := ParseEvents(AckShape(), WRITE_ACK, AnyAck, events);
    r.Done? ==> QueryPacketAcknowledgement(PutAll(state, AckEntries(r.value)), port, channel, n)
                == AckAfter(state, Carried(WRITE_ACK, AckAt, events), port, channel, n)
  }

  /** Events are indexed if and only if every write-acknowledgement event is well placed. */
  lemma IndexedAckEvents(state: Ledger, events: seq<Event>, port: Bytes, channel: Bytes, n: uint64)
    ensures ParseEvents(AckShape(), WRITE_ACK, AnyAck, events).Done?
       <==> forall i :: 0 <= i < |events| ==> Readable(AckShape(), WRITE_ACK, AnyAck, AckAt, events[i])
    ensures Free(port, SLASH) && Free(channel, SLASH) ==> AckEventsAnswered(state, events, port, channel, n)
  {
    hide QueryPacketAcknowledgement, AckAfter, PutAll, ParseEvents, Carried, LastAck, Readable, AckAt, Free;
    AckSpells();
    EventsParseExactly(AckShape(), WRITE_ACK, AnyAck, AckAt, events);
    var r := ParseEvents(AckShape(), WRITE_ACK, AnyAck, events);
    if r.Done? && Free(port, SLASH) && Free(channel, SLASH) {
      AckQueryFindsLast(state, r.value, port, channel, n);
    }
  }

  /**
   A query for an acknowledgement is always answered rightly if and only if it has no slash:
   acknowledgements are not validated, and one whose slash stands elsewhere has the same key.
   */
  lemma AckQueryExactly(port: Bytes, channel: Bytes, n: uint64)
    ensures AckQueryAnswers(port, channel, n) <==> Free(port, SLASH) && Free(channel, SLASH)
  {
    hide Free, AckEventsAnswered;
    if Free(port, SLASH) && Free(channel, SLASH) {
      forall state, events
        ensures AckEventsAnswered(state, events, port, channel, n)
      {
        IndexedAckEvents(state, events, port, channel, n);
      }
    } else {
      var p := AckMisread(port, channel, n);
      MisreadEvent(p, port, channel, n);
    }
  }

  lemma MisreadEvent(p: Packet, port: Bytes, channel: Bytes, n: uint64)
    requires var acks := [Ack([], [], p.destinationPort, p.destinationChannel, n, [])];
             p.sequence == n && p.sourcePort == [] && p.sourceChannel == []
             && QueryPacketAcknowledgement(PutAll(map[], AckEntries(acks)), port, channel, n) == Some([])
             && AckAfter(map[], acks, port, channel, n) == None
    ensures !AckEventsAnswered(map[], [Event(WRITE_ACK, AckAttributes(p, []))], port, channel, n)
  {
    hide QueryPacketAcknowledgement, AckAfter, PutAll, AckEntries, ParseAttributes, AckAttributes, AckAt;
    var attrs, a := AckAttributes(p, []), Ack([], [], p.destinationPort, p.destinationChannel, n, []);
    assert attrs + [] == attrs;
    AckRoundTrip(p, [], []);
    ParsesExactly(AckShape(), attrs);
    AckFromPositions(attrs);
    var events := [Event(WRITE_ACK, attrs)];
    assert events[..0] == [];
    assert ParseEvents(AckShape(), WRITE_ACK, AnyAck, events) == Done([] + [a]) && [] + [a] == [a];
    assert Carried(WRITE_ACK, AckAt, events) == [] + [a];
  }
}
