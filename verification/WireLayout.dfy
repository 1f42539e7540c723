/**
 What each message looks like on the wire, tag byte by tag byte, apart from the schemas
 that the reader and the writer share. A tag is eight times the field number plus the wire
 type, as in section "Message Structure" of the Protocol Buffers encoding.
 */
module WireLayout {
  import opened Basics
  import opened Messages
  import opened Varint
  import opened Wire
  import opened Codec

  /** A number, left out when it is zero. */
  function Num(tag: byte, v: uint64): Bytes {
    if v == 0 then [] else [tag] + Encode(v)
  }

  /** Bytes with their length, always written. */
  function Block(tag: byte, b: Bytes): Bytes {
    [tag] + Encode(|b|) + b
  }

  /** Bytes that are left out when there are none. */
  function Text(tag: byte, b: Bytes): Bytes {
    if b == [] then [] else Block(tag, b)
  }

  /** A nested message that is left out when it is nil. */
  function Maybe(tag: byte, b: Option<Bytes>): Bytes {
    match b case None => [] case Some(x) => Block(tag, x)
  }

  /** One block for each, in order. */
  function Each(tag: byte, items: seq<Bytes>): Bytes {
    if items == [] then [] else Each(tag, items[..|items| - 1]) + Block(tag, items[|items| - 1])
  }

  lemma {:induction false} EachFirst(tag: byte, items: seq<Bytes>)
    requires items != []
    ensures Each(tag, items) == Block(tag, items[0]) + Each(tag, items[1..])
    decreases |items|
  {
    var n := |items| - 1;
    if n > 0 {
      EachFirst(tag, items[..n]);
      assert items[..n][1..] == items[1..][..n - 1];
    } else {
      assert items[..0] == [] && items[1..] == [];
    }
  }

  lemma FieldLayout(num: nat, b: Bytes)
    requires 1 <= num <= 15
    ensures BytesField(num, b) == Block(num * 8 + 2, b)
  {
    hide Encode;
  }

  lemma {:induction false} RepeatedLayout(num: nat, items: seq<Bytes>)
    requires 1 <= num <= 15
    ensures Repeated(num, items) == Each(num * 8 + 2, items)
    decreases |items|
  {
    hide Block, BytesField, Each;
    if items == [] {
      EachNone(num * 8 + 2);
    } else {
      FieldLayout(num, items[0]);
      RepeatedLayout(num, items[1..]);
      EachFirst(num * 8 + 2, items);
    }
  }

  lemma EachNone(tag: byte)
    ensures Each(tag, []) == []
  {}

  lemma SequenceLayout(m: Sequence)
    ensures SequenceBytes(m) == Num(0x08, m.value) + Num(0x10, ToUint64(m.timestamp))
  {
    hide Encode;
  }

  /** For instance. */
  lemma SequenceExamples()
    ensures SequenceBytes(Sequence(1, 2)) == [0x08, 0x01, 0x10, 0x02]
    ensures SequenceBytes(Sequence(300, 0)) == [0x08, 0xac, 0x02]
  {
    assert Encode(1) == [1] && Encode(2) == [2] && Encode(300) == [0xac, 0x02];
  }

  lemma CommitmentEntryLayout(m: CommitmentEntry)
    ensures CommitmentEntryBytes(m) == Text(0x0a, m.key) + Text(0x12, m.value)
  {
    hide Encode;
  }

  lemma ConsensusStateLayout(m: ConsensusState)
    ensures ConsensusStateBytes(m) == Num(0x08, ToUint64(m.timestamp))
  {
    hide Encode;
  }

  lemma MessageProofLayout(m: MessageProof)
    ensures MessageProofBytes(m) == Each(0x0a, m.identities) + Each(0x12, m.signatures)
  {
    hide Encode, Repeated, Each;
    RepeatedLayout(1, m.identities);
    RepeatedLayout(2, m.signatures);
  }

  lemma CommitmentProofLayout(m: CommitmentProof)
    ensures CommitmentProofBytes(m)
         == Text(0x0a, Content(m.proposal)) + (Num(0x10, m.nsIndex) + (Num(0x18, m.writeSetIndex)
            + (Each(0x22, m.identities) + Each(0x2a, m.signatures))))
  {
    hide Encode, Repeated, Each;
    RepeatedLayout(4, m.identities);
    RepeatedLayout(5, m.signatures);
  }

  lemma ChaincodeIDLayout(m: ChaincodeID)
    ensures ChaincodeIDBytes(m) == Text(0x0a, m.path) + (Text(0x12, m.name) + Text(0x1a, m.version))
  {
    hide Encode;
  }

  lemma ChaincodeHeaderLayout(m: ChaincodeHeader)
    ensures ChaincodeHeaderBytes(m) == Block(0x0a, SequenceBytes(m.sequence)) + Block(0x12, CommitmentProofBytes(m.proof))
  {
    hide Encode, SequenceBytes, CommitmentProofBytes;
  }

  function ProofBytes(p: Option<MessageProof>): Option<Bytes> {
    match p case None => None case Some(x) => Some(MessageProofBytes(x))
  }

  lemma ChaincodeInfoLayout(m: ChaincodeInfo)
    ensures ChaincodeInfoBytes(m)
         == Text(0x0a, m.channelId) + (Block(0x12, ChaincodeIDBytes(m.chaincodeId)) + (Text(0x1a, Content(m.endorsementPolicy))
            + (Text(0x22, Content(m.ibcPolicy)) + Maybe(0x2a, ProofBytes(m.proof)))))
  {
    hide Encode, ChaincodeIDBytes, MessageProofBytes;
  }

  lemma MSPHeaderLayout(m: MSPHeader)
    ensures MSPHeaderBytes(m)
         == Num(0x08, ToUint64(m.typ)) + (Text(0x12, m.mspId) + (Text(0x1a, Content(m.config))
            + (Text(0x22, Content(m.policy)) + Maybe(0x2a, ProofBytes(m.proof)))))
  {
    hide Encode, MessageProofBytes;
  }

  lemma MSPHeadersLayout(m: MSPHeaders)
    ensures MSPHeadersBytes(m) == Each(0x0a, MapSeq(MSPHeaderBytes, m.headers))
  {
    hide Repeated, Each;
    RepeatedLayout(1, MapSeq(MSPHeaderBytes, m.headers));
  }

  lemma MSPInfoLayout(m: MSPInfo)
    ensures MSPInfoBytes(m)
         == Text(0x0a, m.mspId) + (Text(0x12, Content(m.config)) + (Text(0x1a, Content(m.policy))
            + (if m.freezed then [0x20, 0x01] else [])))
  {
    assert Encode(1) == [1];
    hide Encode;
  }

  lemma MSPInfosLayout(m: MSPInfos)
    ensures MSPInfosBytes(m) == Each(0x0a, MapSeq(MSPInfoBytes, m.infos))
  {
    hide Repeated, Each;
    RepeatedLayout(1, MapSeq(MSPInfoBytes, m.infos));
  }

  lemma ClientStateLayout(m: ClientState)
    ensures ClientStateBytes(m)
         == Text(0x0a, m.id) + (Block(0x12, ChaincodeHeaderBytes(m.lastChaincodeHeader))
            + (Block(0x1a, ChaincodeInfoBytes(m.lastChaincodeInfo)) + Block(0x22, MSPInfosBytes(m.lastMspInfos))))
  {
    hide Encode, ChaincodeHeaderBytes, ChaincodeInfoBytes, MSPInfosBytes;
  }

  lemma HeaderLayout(m: Header)
    ensures HeaderBytes(m)
         == (match m.chaincodeHeader case None => [] case Some(x) => Block(0x0a, ChaincodeHeaderBytes(x)))
            + ((match m.chaincodeInfo case None => [] case Some(x) => Block(0x12, ChaincodeInfoBytes(x)))
               + (match m.mspHeaders case None => [] case Some(x) => Block(0x1a, MSPHeadersBytes(x))))
  {
    hide Encode, ChaincodeHeaderBytes, ChaincodeInfoBytes, MSPHeadersBytes;
  }
}
