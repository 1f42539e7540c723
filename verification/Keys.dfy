/**
 The keys under which everything is written to the one flat ledger of a chaincode, and
 the theorem that two different things never share a key.
 */
module Keys {
  import opened Basics
  import opened Text

  // ---------------------------------------------------------------- the source's key makers

  function HostLead(prefix: Bytes): Bytes {
    Ascii("h/k:") + prefix + Ascii("/")
  }

  function MakeCurrentSequenceKey(prefix: Bytes): Bytes {
    HostLead(prefix) + Ascii("current")
  }

  function MakeSequenceKey(prefix: Bytes, n: uint64): Bytes {
    HostLead(prefix) + (Ascii("seq/") + Decimal(n))
  }

  function MakeEntryKey(prefix: Bytes, path: Bytes): Bytes {
    Ascii("e/k:") + prefix + Ascii("/") + path
  }

  function MakeSequenceCommitmentEntryKey(n: uint64): Bytes {
    Ascii("h/_/seq/") + (Decimal(n) + Ascii("/commitment"))
  }

  function MakeClientStateCommitmentEntryKey(prefix: Bytes, clientId: Bytes): Bytes {
    HostLead(prefix) + (Ascii("clients/") + (clientId + Ascii("/clientState")))
  }

  /** `Height.String`: revision number and height. */
  function HeightText(revision: uint64, height: uint64): Bytes {
    Decimal(revision) + (Ascii("-") + Decimal(height))
  }

  function MakeConsensusStateCommitmentEntryKey(prefix: Bytes, clientId: Bytes, revision: uint64, height: uint64): Bytes {
    HostLead(prefix) + (Ascii("clients/") + (clientId + (Ascii("/consensusStates/")
    + (HeightText(revision, height) + Ascii("/commitment")))))
  }

  function MakeConnectionStateCommitmentEntryKey(prefix: Bytes, connectionId: Bytes): Bytes {
    HostLead(prefix) + (Ascii("connections/") + (connectionId + Ascii("/commitment")))
  }

  /** The path of a channel below a host prefix such as "channelEnds" or "acks". */
  function ChannelPath(kind: Bytes, port: Bytes, channel: Bytes): Bytes {
    kind + (Ascii("/ports/") + (port + (Ascii("/channels/") + channel)))
  }

  function MakeChannelStateCommitmentEntryKey(prefix: Bytes, port: Bytes, channel: Bytes): Bytes {
    HostLead(prefix) + (ChannelPath(Ascii("channelEnds"), port, channel) + Ascii("/commitment"))
  }

  function PacketPath(kind: Bytes, port: Bytes, channel: Bytes, n: uint64): Bytes {
    ChannelPath(kind, port, channel) + (Ascii("/sequences/") + Decimal(n))
  }

  function MakePacketCommitmentEntryKey(prefix: Bytes, port: Bytes, channel: Bytes, n: uint64): Bytes {
    MakeEntryKey(prefix, PacketPath(Ascii("commitments"), port, channel, n))
  }

  function MakePacketAcknowledgementEntryKey(prefix: Bytes, port: Bytes, channel: Bytes, n: uint64): Bytes {
    MakeEntryKey(prefix, PacketPath(Ascii("acks"), port, channel, n))
  }

  function MakePacketReceiptAbsenceEntryKey(prefix: Bytes, port: Bytes, channel: Bytes, n: uint64): Bytes {
    MakeEntryKey(prefix, PacketPath(Ascii("receipts"), port, channel, n))
  }

  function MakeNextSequenceRecvEntryKey(prefix: Bytes, port: Bytes, channel: Bytes): Bytes {
    MakeEntryKey(prefix, ChannelPath(Ascii("nextSequenceRecv"), port, channel))
  }

  /** `makePacketKey` and `makePacketAcknowledgementKey`. */
  function MakePacketKey(keyPrefix: Bytes, port: Bytes, channel: Bytes, n: uint64): Bytes {
    keyPrefix + (Ascii("/") + (port + (Ascii("/") + (channel + (Ascii("/") + Decimal(n))))))
  }

  // ---------------------------------------------------------------- everything that is written

  datatype Key =
    | Current
    | SequenceAt(n: uint64)
    | SequenceCommitment(n: uint64)
    | Client(id: Bytes)
    | Consensus(id: Bytes, revision: uint64, height: uint64)
    | Connection(id: Bytes)
    | Channel(port: Bytes, channel: Bytes)
    | PacketCommitment(port: Bytes, channel: Bytes, n: uint64)
    | PacketAck(port: Bytes, channel: Bytes, n: uint64)
    | PacketReceipt(port: Bytes, channel: Bytes, n: uint64)
    | NextRecv(port: Bytes, channel: Bytes)
    | PacketIndex(port: Bytes, channel: Bytes, n: uint64)
    | AckIndex(port: Bytes, channel: Bytes, n: uint64)
    | Database(key: Bytes)

  /** The ledger key of each. */
  function Render(prefix: Bytes, k: Key): Bytes {
    match k
    case Current => MakeCurrentSequenceKey(prefix)
    case SequenceAt(n) => MakeSequenceKey(prefix, n)
    case SequenceCommitment(n) => MakeSequenceCommitmentEntryKey(n)
    case Client(id) => MakeClientStateCommitmentEntryKey(prefix, id)
    case Consensus(id, r, h) => MakeConsensusStateCommitmentEntryKey(prefix, id, r, h)
    case Connection(id) => MakeConnectionStateCommitmentEntryKey(prefix, id)
    case Channel(p, c) => MakeChannelStateCommitmentEntryKey(prefix, p, c)
    case PacketCommitment(p, c, n) => MakePacketCommitmentEntryKey(prefix, p, c, n)
    case PacketAck(p, c, n) => MakePacketAcknowledgementEntryKey(prefix, p, c, n)
    case PacketReceipt(p, c, n) => MakePacketReceiptAbsenceEntryKey(prefix, p, c, n)
    case NextRecv(p, c) => MakeNextSequenceRecvEntryKey(prefix, p, c)
    case PacketIndex(p, c, n) => MakePacketKey(Ascii("/packets"), p, c, n)
    case AckIndex(p, c, n) => MakePacketKey(Ascii("/acks"), p, c, n)
    case Database(b) => Hex(b)
  }

  lemma DatabaseKey(prefix: Bytes, b: Bytes)
    ensures Render(prefix, Database(b)) == Hex(b)
  {}

  /** Identifiers without a slash; the identifiers of ICS-24 have none. */
  predicate Plain(k: Key) {
    match k
    case Client(id) => Free(id, SLASH)
    case Consensus(id, _, _) => Free(id, SLASH)
    case Connection(id) => Free(id, SLASH)
    case Channel(p, c) => Free(p, SLASH) && Free(c, SLASH)
    case PacketCommitment(p, c, _) => Free(p, SLASH) && Free(c, SLASH)
    case PacketAck(p, c, _) => Free(p, SLASH) && Free(c, SLASH)
    case PacketReceipt(p, c, _) => Free(p, SLASH) && Free(c, SLASH)
    case NextRecv(p, c) => Free(p, SLASH) && Free(c, SLASH)
    case PacketIndex(p, c, _) => Free(p, SLASH) && Free(c, SLASH)
    case AckIndex(p, c, _) => Free(p, SLASH) && Free(c, SLASH)
    case _ => true
  }

  // ---------------------------------------------------------------- keys as paths

  /** What precedes the path part of a key. */
  function Lead(prefix: Bytes, k: Key): Bytes {
    match k
    case SequenceCommitment(_) => Ascii("h/_/")
    case PacketCommitment(_, _, _) => Ascii("e/k:") + prefix + Ascii("/")
    case PacketAck(_, _, _) => Ascii("e/k:") + prefix + Ascii("/")
    case PacketReceipt(_, _, _) => Ascii("e/k:") + prefix + Ascii("/")
    case NextRecv(_, _) => Ascii("e/k:") + prefix + Ascii("/")
    case PacketIndex(_, _, _) => Ascii("/packets/")
    case AckIndex(_, _, _) => Ascii("/acks/")
    case Database(_) => []
    case _ => Ascii("h/k:") + prefix + Ascii("/")
  }

  /** The path part, as segments. */
  function Segments(k: Key): (segs: seq<Bytes>)
    ensures segs != []
  {
    match k
    case Current => [Ascii("current")]
    case SequenceAt(n) => [Ascii("seq"), Decimal(n)]
    case SequenceCommitment(n) => [Ascii("seq"), Decimal(n), Ascii("commitment")]
    case Client(id) => [Ascii("clients"), id, Ascii("clientState")]
    case Consensus(id, r, h) => [Ascii("clients"), id, Ascii("consensusStates"), HeightText(r, h), Ascii("commitment")]
    case Connection(id) => [Ascii("connections"), id, Ascii("commitment")]
    case Channel(p, c) => [Ascii("channelEnds"), Ascii("ports"), p, Ascii("channels"), c, Ascii("commitment")]
    case PacketCommitment(p, c, n) => [Ascii("commitments"), Ascii("ports"), p, Ascii("channels"), c, Ascii("sequences"), Decimal(n)]
    case PacketAck(p, c, n) => [Ascii("acks"), Ascii("ports"), p, Ascii("channels"), c, Ascii("sequences"), Decimal(n)]
    case PacketReceipt(p, c, n) => [Ascii("receipts"), Ascii("ports"), p, Ascii("channels"), c, Ascii("sequences"), Decimal(n)]
    case NextRecv(p, c) => [Ascii("nextSequenceRecv"), Ascii("ports"), p, Ascii("channels"), c]
    case PacketIndex(p, c, n) => [p, c, Decimal(n)]
    case AckIndex(p, c, n) => [p, c, Decimal(n)]
    case Database(b) => [Hex(b)]
  }

  lemma JoinCons(a: Bytes, segs: seq<Bytes>)
    requires segs != []
    ensures Join([a] + segs, SLASH) == a + ([SLASH] + Join(segs, SLASH))
  {
    assert ([a] + segs)[1..] == segs;
  }

  lemma Join2(a: Bytes, b: Bytes)
    ensures Join([a, b], SLASH) == a + ([SLASH] + b)
  {
    JoinCons(a, [b]);
    assert [a] + [b] == [a, b];
  }

  lemma Join3(a: Bytes, b: Bytes, c: Bytes)
    ensures Join([a, b, c], SLASH) == a + ([SLASH] + (b + ([SLASH] + c)))
  {
    Join2(b, c);
    JoinCons(a, [b, c]);
    assert [a] + [b, c] == [a, b, c];
  }

  lemma Join5(a: Bytes, b: Bytes, c: Bytes, d: Bytes, e: Bytes)
    ensures Join([a, b, c, d, e], SLASH) == a + ([SLASH] + (b + ([SLASH] + (c + ([SLASH] + (d + ([SLASH] + e)))))))
  {
    Join3(c, d, e);
    JoinCons(b, [c, d, e]);
    JoinCons(a, [b, c, d, e]);
    assert [b] + [c, d, e] == [b, c, d, e] && [a] + [b, c, d, e] == [a, b, c, d, e];
  }

  lemma HostLiterals()
    ensures Free(Ascii("current"), SLASH) && Free(Ascii("seq"), SLASH) && Free(Ascii("commitment"), SLASH)
  {}

  lemma ClientLiterals()
    ensures Free(Ascii("clients"), SLASH) && Free(Ascii("clientState"), SLASH) && Free(Ascii("consensusStates"), SLASH)
  {}

  lemma ConnectionLiterals()
    ensures Free(Ascii("connections"), SLASH) && Free(Ascii("channelEnds"), SLASH) && Free(Ascii("ports"), SLASH)
  {}

  lemma PacketLiterals()
    ensures Free(Ascii("channels"), SLASH) && Free(Ascii("commitments"), SLASH) && Free(Ascii("sequences"), SLASH)
  {}

  lemma OtherLiterals()
    ensures Free(Ascii("acks"), SLASH) && Free(Ascii("receipts"), SLASH) && Free(Ascii("nextSequenceRecv"), SLASH)
  {}

  lemma SegmentsFree(k: Key)
    requires Plain(k)
    ensures forall i :: 0 <= i < |Segments(k)| ==> Free(Segments(k)[i], SLASH)
  {
    HostLiterals();
    ClientLiterals();
    ConnectionLiterals();
    PacketLiterals();
    OtherLiterals();
    hide Ascii;
    if k.Consensus? {
      assert Free(HeightText(k.revision, k.height), SLASH) by { HeightFree(k.revision, k.height); }
    }
  }

  lemma HeightFree(r: uint64, h: uint64)
    ensures Free(HeightText(r, h), SLASH)
  {
    assert Ascii("-") == [DASH];
  }

  lemma HeightForm(r: uint64, h: uint64)
    ensures HeightText(r, h) == Join([Decimal(r), Decimal(h)], DASH)
  {
    assert Ascii("-") == [DASH];
    assert [Decimal(r), Decimal(h)][1..] == [Decimal(h)];
  }

  lemma HeightInjective(r: uint64, h: uint64, r': uint64, h': uint64)
    requires HeightText(r, h) == HeightText(r', h')
    ensures r == r' && h == h'
  {
    HeightForm(r, h);
    HeightForm(r', h');
    var a, b := [Decimal(r), Decimal(h)], [Decimal(r'), Decimal(h')];
    hide Join, Decimal, HeightText;
    JoinInjective(a, b, DASH);
    assert a[0] == b[0] && a[1] == b[1];
    DecimalInjective(r, r');
    DecimalInjective(h, h');
  }

  // ---------------------------------------------------------------- the path form is the key

  /** A literal between two slashes. */
  lemma Slashed(literal: Bytes, name: Bytes, rest: Bytes)
    requires literal == [SLASH] + name + [SLASH]
    ensures literal + rest == [SLASH] + (name + ([SLASH] + rest))
  {}

  lemma ChannelForm(kind: Bytes, p: Bytes, c: Bytes)
    ensures ChannelPath(kind, p, c) == Join([kind, Ascii("ports"), p, Ascii("channels"), c], SLASH)
  {
    assert Ascii("/ports/") == [SLASH] + Ascii("ports") + [SLASH];
    assert Ascii("/channels/") == [SLASH] + Ascii("channels") + [SLASH];
    hide Join, Ascii;
    Slashed(Ascii("/ports/"), Ascii("ports"), p + (Ascii("/channels/") + c));
    Slashed(Ascii("/channels/"), Ascii("channels"), c);
    Join5(kind, Ascii("ports"), p, Ascii("channels"), c);
  }

  lemma {:induction false} JoinMore(segs: seq<Bytes>, more: seq<Bytes>)
    requires segs != [] && more != []
    ensures Join(segs + more, SLASH) == Join(segs, SLASH) + ([SLASH] + Join(more, SLASH))
    decreases |segs|
  {
    if |segs| == 1 {
      assert segs == [segs[0]];
      JoinCons(segs[0], more);
    } else {
      assert segs + more == [segs[0]] + (segs[1..] + more);
      JoinCons(segs[0], segs[1..] + more);
      JoinMore(segs[1..], more);
    }
  }

  lemma PacketForm(kind: Bytes, p: Bytes, c: Bytes, n: uint64)
    ensures PacketPath(kind, p, c, n)
         == Join([kind, Ascii("ports"), p, Ascii("channels"), c, Ascii("sequences"), Decimal(n)], SLASH)
  {
    assert Ascii("/sequences/") == [SLASH] + Ascii("sequences") + [SLASH];
    hide Join, Ascii, ChannelPath;
    ChannelForm(kind, p, c);
    var segs, more := [kind, Ascii("ports"), p, Ascii("channels"), c], [Ascii("sequences"), Decimal(n)];
    JoinMore(segs, more);
    Join2(Ascii("sequences"), Decimal(n));
    assert segs + more == [kind, Ascii("ports"), p, Ascii("channels"), c, Ascii("sequences"), Decimal(n)];
    Slashed(Ascii("/sequences/"), Ascii("sequences"), Decimal(n));
  }

  lemma HostLeadIs(prefix: Bytes)
    ensures HostLead(prefix) == Ascii("h/k:") + prefix + Ascii("/")
  {}

  lemma HostForm(prefix: Bytes, k: Key)
    requires Group(k) < 2
    ensures Render(prefix, k) == Lead(prefix, k) + Join(Segments(k), SLASH)
  {
    hide Join, HostLead, Decimal, HeightText, ChannelPath, PacketPath;
    HostLeadIs(prefix);
    match k {
      case Current =>
        JoinOne(Ascii("current"));
      case SequenceAt(n) =>
        SequenceForm(n);
      case SequenceCommitment(n) =>
        SequenceCommitmentForm(n);
      case Client(id) =>
        ClientForm(prefix, id);
      case Consensus(id, r, h) =>
        ConsensusForm(prefix, id, r, h);
      case Connection(id) =>
        ConnectionForm(prefix, id);
      case Channel(p, c) =>
        ChannelKeyForm(prefix, p, c);
    }
  }

  lemma EntryForm(prefix: Bytes, k: Key)
    requires Group(k) == 2
    ensures Render(prefix, k) == Lead(prefix, k) + Join(Segments(k), SLASH)
  {
    hide Join, Ascii, Decimal, ChannelPath, PacketPath;
    match k {
      case PacketCommitment(p, c, n) =>
        PacketForm(Ascii("commitments"), p, c, n);
      case PacketAck(p, c, n) =>
        PacketForm(Ascii("acks"), p, c, n);
      case PacketReceipt(p, c, n) =>
        PacketForm(Ascii("receipts"), p, c, n);
      case NextRecv(p, c) =>
        ChannelForm(Ascii("nextSequenceRecv"), p, c);
    }
  }

  lemma IndexKeyForm(prefix: Bytes, k: Key)
    requires k.PacketIndex? || k.AckIndex?
    ensures Render(prefix, k) == Lead(prefix, k) + Join(Segments(k), SLASH)
  {
    IndexLeads();
    hide Join, Ascii, Decimal, MakePacketKey;
    IndexForm(if k.PacketIndex? then Ascii("/packets") else Ascii("/acks"), k.port, k.channel, k.n);
  }

  lemma IndexLeads()
    ensures Ascii("/packets/") == Ascii("/packets") + [SLASH] && Ascii("/acks/") == Ascii("/acks") + [SLASH]
  {}

  /** Every key is its lead followed by its segments. */
  lemma RenderForm(prefix: Bytes, k: Key)
    requires !k.Database?
    ensures Render(prefix, k) == Lead(prefix, k) + Join(Segments(k), SLASH)
  {
    hide Render, Lead, Join, Segments;
    if Group(k) < 2 {
      HostForm(prefix, k);
    } else if Group(k) == 2 {
      EntryForm(prefix, k);
    } else {
      IndexKeyForm(prefix, k);
    }
  }

  lemma SequenceForm(n: uint64)
    ensures Ascii("seq/") + Decimal(n) == Join([Ascii("seq"), Decimal(n)], SLASH)
  {
    assert Ascii("seq/") == Ascii("seq") + [SLASH];
    hide Ascii, Decimal, Join;
    Join2(Ascii("seq"), Decimal(n));
  }

  lemma JoinOne(a: Bytes)
    ensures Join([a], SLASH) == a
  {}

  lemma SequenceCommitmentForm(n: uint64)
    ensures MakeSequenceCommitmentEntryKey(n)
         == Ascii("h/_/") + Join([Ascii("seq"), Decimal(n), Ascii("commitment")], SLASH)
  {
    assert Ascii("h/_/seq/") == Ascii("h/_/") + Ascii("seq") + [SLASH];
    CommitmentSlash();
    hide Ascii, Decimal, Join;
    Join3(Ascii("seq"), Decimal(n), Ascii("commitment"));
  }

  lemma ClientForm(prefix: Bytes, id: Bytes)
    ensures MakeClientStateCommitmentEntryKey(prefix, id)
         == HostLead(prefix) + Join([Ascii("clients"), id, Ascii("clientState")], SLASH)
  {
    ClientsSlash();
    assert Ascii("/clientState") == [SLASH] + Ascii("clientState");
    hide Ascii, HostLead, Join;
    Join3(Ascii("clients"), id, Ascii("clientState"));
  }

  lemma ConsensusForm(prefix: Bytes, id: Bytes, r: uint64, h: uint64)
    ensures MakeConsensusStateCommitmentEntryKey(prefix, id, r, h)
         == HostLead(prefix)
            + Join([Ascii("clients"), id, Ascii("consensusStates"), HeightText(r, h), Ascii("commitment")], SLASH)
  {
    hide Ascii, HostLead, HeightText, Join;
    ClientsSlash();
    ConsensusSlash();
    CommitmentSlash();
    Slashed(Ascii("/consensusStates/"), Ascii("consensusStates"), HeightText(r, h) + Ascii("/commitment"));
    Join5(Ascii("clients"), id, Ascii("consensusStates"), HeightText(r, h), Ascii("commitment"));
  }

  lemma ClientsSlash()
    ensures Ascii("clients/") == Ascii("clients") + [SLASH]
  {}

  lemma ConsensusSlash()
    ensures Ascii("/consensusStates/") == [SLASH] + Ascii("consensusStates") + [SLASH]
  {}

  lemma CommitmentSlash()
    ensures Ascii("/commitment") == [SLASH] + Ascii("commitment")
  {}

  lemma ConnectionForm(prefix: Bytes, id: Bytes)
    ensures MakeConnectionStateCommitmentEntryKey(prefix, id)
         == HostLead(prefix) + Join([Ascii("connections"), id, Ascii("commitment")], SLASH)
  {
    assert Ascii("connections/") == Ascii("connections") + [SLASH];
    CommitmentSlash();
    hide Ascii, HostLead, Join;
    Join3(Ascii("connections"), id, Ascii("commitment"));
  }

  lemma ChannelKeyForm(prefix: Bytes, p: Bytes, c: Bytes)
    ensures MakeChannelStateCommitmentEntryKey(prefix, p, c)
         == HostLead(prefix)
            + Join([Ascii("channelEnds"), Ascii("ports"), p, Ascii("channels"), c, Ascii("commitment")], SLASH)
  {
    CommitmentSlash();
    hide Ascii, HostLead, Join, ChannelPath;
    var segs := [Ascii("channelEnds"), Ascii("ports"), p, Ascii("channels"), c];
    ChannelForm(Ascii("channelEnds"), p, c);
    JoinMore(segs, [Ascii("commitment")]);
    JoinOne(Ascii("commitment"));
    assert segs + [Ascii("commitment")]
        == [Ascii("channelEnds"), Ascii("ports"), p, Ascii("channels"), c, Ascii("commitment")];
  }

  lemma IndexForm(lead: Bytes, p: Bytes, c: Bytes, n: uint64)
    ensures MakePacketKey(lead, p, c, n) == lead + [SLASH] + Join([p, c, Decimal(n)], SLASH)
  {
    assert Ascii("/") == [SLASH];
    hide Ascii, Decimal, Join;
    Join3(p, c, Decimal(n));
  }

  // ---------------------------------------------------------------- no two things share a key

  /** The kinds of key that can be told apart by their first bytes. */
  function Group(k: Key): nat {
    match k
    case SequenceCommitment(_) => 1
    case PacketCommitment(_, _, _) => 2
    case PacketAck(_, _, _) => 2
    case PacketReceipt(_, _, _) => 2
    case NextRecv(_, _) => 2
    case PacketIndex(_, _, _) => 3
    case AckIndex(_, _, _) => 4
    case Database(_) => 5
    case _ => 0
  }

  /** The first three bytes of the keys of a group. */
  function Mark(group: nat): Bytes
    requires group < 5
  {
    match group
    case 0 => Ascii("h/k")
    case 1 => Ascii("h/_")
    case 2 => Ascii("e/k")
    case 3 => Ascii("/pa")
    case 4 => Ascii("/ac")
  }

  lemma LeadMark(prefix: Bytes, k: Key)
    requires !k.Database?
    ensures |Lead(prefix, k)| >= 3 && Lead(prefix, k)[..3] == Mark(Group(k))
  {
    var lead := Lead(prefix, k);
    match Group(k) {
      case 0 => assert lead[..3] == Ascii("h/k:")[..3] == Mark(0);
      case 1 => assert lead[..3] == Mark(1);
      case 2 => assert lead[..3] == Ascii("e/k:")[..3] == Mark(2);
      case 3 => assert lead[..3] == Mark(3);
      case 4 => assert lead[..3] == Mark(4);
    }
  }

  lemma MarksDiffer(g: nat, g': nat)
    requires g < 5 && g' < 5 && Mark(g) == Mark(g')
    ensures g == g'
    ensures SLASH in Mark(g)[..2]
  {
    var a, b := Mark(g), Mark(g');
    assert a[0] == b[0] && a[1] == b[1] && a[2] == b[2];
    assert a[..2][0] == a[0] && a[..2][1] == a[1];
  }

  lemma RenderMark(prefix: Bytes, k: Key)
    requires !k.Database?
    ensures |Render(prefix, k)| >= 3 && Render(prefix, k)[..3] == Mark(Group(k))
    ensures SLASH in Render(prefix, k)[..2]
  {
    hide Render, Lead, Segments, Mark, Join;
    RenderForm(prefix, k);
    LeadMark(prefix, k);
    assert Render(prefix, k)[..3] == Lead(prefix, k)[..3];
    MarksDiffer(Group(k), Group(k));
    assert Render(prefix, k)[..2] == Mark(Group(k))[..2];
  }

  lemma SameGroup(prefix: Bytes, k: Key, l: Key)
    requires Render(prefix, k) == Render(prefix, l)
    ensures Group(k) == Group(l)
  {
    if k.Database? || l.Database? {
      if !k.Database? || !l.Database? {
        RenderMark(prefix, if k.Database? then l else k);
        assert false;
      }
    } else {
      RenderMark(prefix, k);
      RenderMark(prefix, l);
      hide Render, Mark;
      MarksDiffer(Group(k), Group(l));
    }
  }

  lemma SameLead(prefix: Bytes, k: Key, l: Key)
    requires Group(k) == Group(l)
    ensures Lead(prefix, k) == Lead(prefix, l)
  {}

  lemma SegmentsInjective(k: Key, l: Key)
    requires !k.Database? && Group(k) == Group(l) && Segments(k) == Segments(l)
    ensures k == l
  {
    var a, b := Segments(k), Segments(l);
    hide Decimal, HeightText;
    assert a[0] == b[0] && |a[0]| == |b[0]|;
    assert |a| > 1 ==> a[1] == b[1];
    assert |a| > 2 ==> a[2] == b[2];
    assert |a| > 4 ==> a[3] == b[3] && a[4] == b[4];
    assert |a| > 6 ==> a[6] == b[6];
    if k.Consensus? {
      HeightInjective(k.revision, k.height, l.revision, l.height);
    } else if !k.Current? && !k.Client? && !k.Connection? && !k.Channel? && !k.NextRecv? {
      DecimalInjective(k.n, l.n);
    }
  }

  /** The paths that begin with a literal: all but those of the two indexes. */
  lemma LiteralEnds(k: Key)
    requires Group(k) < 3
    ensures Free(Segments(k)[0], SLASH)
    ensures k.Client? ==> Free(Segments(k)[2], SLASH)
  {
    HostLiterals();
    ClientLiterals();
    ConnectionLiterals();
    PacketLiterals();
    OtherLiterals();
    hide Ascii;
  }

  /** The first segment tells the number of segments, but for the two kinds below a client. */
  lemma FirstTells(k: Key, l: Key)
    requires Group(k) == Group(l) < 3 && Segments(k)[0] == Segments(l)[0]
    ensures |Segments(k)| == |Segments(l)| || (k.Client? && l.Consensus?) || (k.Consensus? && l.Client?)
  {
    var a, b := Segments(k)[0], Segments(l)[0];
    hide Decimal, HeightText;
    assert |a| == |b| && a[0] == b[0] && a[1] == b[1];
  }

  lemma ClientIsNoConsensus()
    ensures Ascii("clientState") != Ascii("commitment")
  {
    assert |Ascii("clientState")| != |Ascii("commitment")|;
  }

  /** Equal paths have as many segments, if only one of them is known to be free of slashes. */
  lemma SameLength(k: Key, l: Key)
    requires !k.Database? && Group(k) == Group(l) && Plain(l)
    requires Join(Segments(k), SLASH) == Join(Segments(l), SLASH)
    ensures |Segments(k)| == |Segments(l)|
  {
    SegmentsFree(l);
    SplitJoin(Segments(l), SLASH);
    SplitPieces(Segments(k), SLASH);
    if Group(k) < 3 {
      LiteralEnds(k);
      FirstTells(k, l);
      ClientIsNoConsensus();
      hide Ascii, Decimal, HeightText, Join, Split;
    }
  }

  /**
   No two different things are written under the same ledger key: sequences, the nine
   kinds of commitment, the packet and acknowledgement indexes, and the database. One of
   the two may even hold slashes in its identifiers.
   */
  lemma KeysNeverCollide(prefix: Bytes, k: Key, l: Key)
    requires Plain(l)
    requires Render(prefix, k) == Render(prefix, l)
    ensures k == l
  {
    SameGroup(prefix, k, l);
    if k.Database? {
      HexInjective(k.key, l.key);
    } else {
      RenderForm(prefix, k);
      RenderForm(prefix, l);
      SameLead(prefix, k, l);
      hide Render, Lead, Join, Segments, Plain;
      var n := |Lead(prefix, k)|;
      assert Render(prefix, k)[n..] == Join(Segments(k), SLASH);
      assert Render(prefix, l)[n..] == Join(Segments(l), SLASH);
      SameLength(k, l);
      SegmentsFree(l);
      SplitJoin(Segments(l), SLASH);
      SplitPieces(Segments(k), SLASH);
      JoinInjective(Segments(k), Segments(l), SLASH);
      SegmentsInjective(k, l);
    }
  }

  /** With a slash in both keys they do collide: one may be moved from the port to the channel of an index key. */
  lemma SlashCollides(prefix: Bytes, p: Bytes, q: Bytes, c: Bytes, n: uint64)
    ensures Render(prefix, AckIndex(p + [SLASH] + q, c, n)) == Render(prefix, AckIndex(p, q + [SLASH] + c, n))
    ensures Render(prefix, PacketIndex(p + [SLASH] + q, c, n)) == Render(prefix, PacketIndex(p, q + [SLASH] + c, n))
  {
    assert Ascii("/") == [SLASH];
    hide Ascii, Decimal;
    MoveSegment(p, q, c, [SLASH] + Decimal(n));
  }

  lemma MoveSegment(p: Bytes, q: Bytes, c: Bytes, t: Bytes)
    ensures (p + [SLASH] + q) + ([SLASH] + (c + t)) == p + ([SLASH] + ((q + [SLASH] + c) + t))
  {}

  lemma SlashSplits(s: Bytes) returns (a: Bytes, b: Bytes)
    requires !Free(s, SLASH)
    ensures s == a + [SLASH] + b
  {
    var i :| 0 <= i < |s| && s[i] == SLASH;
    a, b := s[..i], s[i + 1..];
  }

  /** Another port and channel that make the same index keys. */
  lemma OtherIndexKey(prefix: Bytes, p: Bytes, c: Bytes, n: uint64) returns (p': Bytes, c': Bytes)
    requires !(Free(p, SLASH) && Free(c, SLASH))
    ensures p' != p && Render(prefix, AckIndex(p', c', n)) == Render(prefix, AckIndex(p, c, n))
    ensures Render(prefix, PacketIndex(p', c', n)) == Render(prefix, PacketIndex(p, c, n))
  {
    hide Render;
    if !Free(p, SLASH) {
      var a, b := SlashSplits(p);
      p', c' := a, b + [SLASH] + c;
      SlashCollides(prefix, a, b, c, n);
      assert |p'| < |p|;
    } else {
      var a, b := SlashSplits(c);
      p', c' := p + [SLASH] + a, b;
      SlashCollides(prefix, p, a, b, n);
      assert |p'| > |p|;
    }
  }

  /** An index key is shared by no other key if and only if its port and channel have no slash. */
  lemma IndexKeyExactly(prefix: Bytes, k: Key)
    requires k.PacketIndex? || k.AckIndex?
    ensures (forall l :: Render(prefix, l) == Render(prefix, k) ==> l == k) <==> Free(k.port, SLASH) && Free(k.channel, SLASH)
  {
    hide Render, Free;
    if Free(k.port, SLASH) && Free(k.channel, SLASH) {
      forall l | Render(prefix, l) == Render(prefix, k)
        ensures l == k
      {
        KeysNeverCollide(prefix, l, k);
      }
    } else {
      var p, c := OtherIndexKey(prefix, k.port, k.channel, k.n);
      var l := if k.AckIndex? then AckIndex(p, c, k.n) else PacketIndex(p, c, k.n);
      assert Render(prefix, l) == Render(prefix, k) && l != k;
    }
  }
}
