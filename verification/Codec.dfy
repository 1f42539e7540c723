/**
 Encoding and decoding of every message of `commitment/types.pb.go` and
 `fabric.pb.go`: the bytes the writers produce, the fields the readers know, and the
 round trips between the two.
 */
module Codec {
  import opened Basics
  import opened Varint
  import opened Wire
  import opened Messages

  // ---------------------------------------------------------------- pieces of a message

  /** A varint field, left out when it is zero. */
  function OptVarint(num: nat, v: uint64): Bytes
    requires 1 <= num <= 15
  {
    if v == 0 then [] else VarintField(num, v)
  }

  /** A string or bytes field, left out when it is empty. */
  function OptBytes(num: nat, b: Bytes): Bytes
    requires 1 <= num <= 15
  {
    if b == [] then [] else BytesField(num, b)
  }

  /** A nullable sub-message, left out when it is nil. */
  function OptMessage(num: nat, b: Option<Bytes>): Bytes
    requires 1 <= num <= 15
  {
    match b case None => [] case Some(x) => BytesField(num, x)
  }

  /** A repeated field: every element, even an empty one. */
  function Repeated(num: nat, items: seq<Bytes>): Bytes
    requires 1 <= num <= 15
  {
    if items == [] then [] else BytesField(num, items[0]) + Repeated(num, items[1..])
  }

  /** What is left of a bytes field once it has been on the wire: empty becomes nil. */
  function NormalBytes(o: Option<Bytes>): Option<Bytes> {
    if o == Some([]) then None else o
  }

  function MapSeq<A, B>(f: A -> B, s: seq<A>): (r: seq<B>)
    ensures |r| == |s|
    ensures forall i :: 0 <= i < |s| ==> r[i] == f(s[i])
  {
    seq(|s|, i requires 0 <= i < |s| => f(s[i]))
  }

  // ---------------------------------------------------------------- decoding the pieces

  lemma DecodeOptVarint<M>(sc: Schema<M>, m: M, m': M, num: nat, v: uint64, rest: Bytes, pos: nat)
    requires 1 <= num <= 15 && sc.kind(num) == Some(VarintKind)
    requires if v == 0 then m' == m else sc.step(m, num, VarintPayload(v)) == Ok(m')
    ensures Decode(sc, m, OptVarint(num, v) + rest, pos) == Decode(sc, m', rest, pos + |OptVarint(num, v)|)
  {
    hide Decode, Encode;
    if v == 0 {
      assert OptVarint(num, v) + rest == rest;
    } else {
      DecodeVarintField(sc, m, num, v, rest, pos);
    }
  }

  lemma DecodeMessage<M>(sc: Schema<M>, m: M, m': M, num: nat, b: Bytes, rest: Bytes, pos: nat)
    requires 1 <= num <= 15 && sc.kind(num) == Some(BytesKind)
    requires pos + |BytesField(num, b)| < TWO63
    requires sc.step(m, num, BytesPayload(b)) == Ok(m')
    ensures Decode(sc, m, BytesField(num, b) + rest, pos) == Decode(sc, m', rest, pos + |BytesField(num, b)|)
  {
    hide Decode, Encode;
    DecodeBytesField(sc, m, num, b, rest, pos);
  }

  lemma DecodeOptBytes<M>(sc: Schema<M>, m: M, m': M, num: nat, b: Bytes, rest: Bytes, pos: nat)
    requires 1 <= num <= 15 && sc.kind(num) == Some(BytesKind)
    requires pos + |OptBytes(num, b)| < TWO63
    requires if b == [] then m' == m else sc.step(m, num, BytesPayload(b)) == Ok(m')
    ensures Decode(sc, m, OptBytes(num, b) + rest, pos) == Decode(sc, m', rest, pos + |OptBytes(num, b)|)
  {
    hide Decode, Encode;
    if b == [] {
      assert OptBytes(num, b) + rest == rest;
    } else {
      DecodeMessage(sc, m, m', num, b, rest, pos);
    }
  }

  lemma DecodeOptMessage<M>(sc: Schema<M>, m: M, m': M, num: nat, b: Option<Bytes>, rest: Bytes, pos: nat)
    requires 1 <= num <= 15 && sc.kind(num) == Some(BytesKind)
    requires pos + |OptMessage(num, b)| < TWO63
    requires if b.None? then m' == m else sc.step(m, num, BytesPayload(b.value)) == Ok(m')
    ensures Decode(sc, m, OptMessage(num, b) + rest, pos) == Decode(sc, m', rest, pos + |OptMessage(num, b)|)
  {
    hide Decode, Encode;
    if b.None? {
      assert OptMessage(num, b) + rest == rest;
    } else {
      DecodeMessage(sc, m, m', num, b.value, rest, pos);
    }
  }

  /** A repeated field is decoded element by element: `ms[i]` is the message before element i. */
  lemma {:induction false} DecodeRepeated<M>(sc: Schema<M>, ms: seq<M>, num: nat, items: seq<Bytes>, rest: Bytes, pos: nat)
    requires 1 <= num <= 15 && sc.kind(num) == Some(BytesKind)
    requires pos + |Repeated(num, items)| < TWO63
    requires |ms| == |items| + 1
    requires forall i :: 0 <= i < |items| ==> sc.step(ms[i], num, BytesPayload(items[i])) == Ok(ms[i + 1])
    ensures Decode(sc, ms[0], Repeated(num, items) + rest, pos)
         == Decode(sc, ms[|items|], rest, pos + |Repeated(num, items)|)
    decreases |items|
  {
    hide Decode, Encode;
    if items == [] {
      assert Repeated(num, items) + rest == rest;
    } else {
      var first, others := BytesField(num, items[0]), Repeated(num, items[1..]);
      assert Repeated(num, items) + rest == first + (others + rest);
      DecodeMessage(sc, ms[0], ms[1], num, items[0], others + rest, pos);
      DecodeRepeated(sc, ms[1..], num, items[1..], rest, pos + |first|);
    }
  }

  // ---------------------------------------------------------------- Sequence

  function SequenceBytes(m: Sequence): Bytes {
    OptVarint(1, m.value) + OptVarint(2, ToUint64(m.timestamp))
  }

  function SequenceKind(num: int): Option<Kind> {
    if num == 1 || num == 2 then Some(VarintKind) else None
  }

  function SequenceStep(m: Sequence, num: int, p: Payload): Result<Sequence, WireError> {
    match p
    case VarintPayload(v) => if num == 1 then Ok(m.(value := v)) else Ok(m.(timestamp := WrapInt64(v)))
    case BytesPayload(_) => Ok(m)
  }

  const SEQUENCE_SCHEMA: Schema<Sequence> := Schema(SequenceKind, SequenceStep)
  const ZERO_SEQUENCE := Sequence(0, 0)

  function DecodeSequence(b: Bytes): Result<Sequence, WireError> {
    Decode(SEQUENCE_SCHEMA, ZERO_SEQUENCE, b, 0)
  }

  /** Every sequence survives the wire, negative timestamps with their ten-byte varints included. */
  lemma SequenceRoundTrip(m: Sequence)
    ensures DecodeSequence(SequenceBytes(m)) == Ok(m)
  {
    hide Decode, Encode;
    var second := OptVarint(2, ToUint64(m.timestamp));
    var m1 := Sequence(m.value, 0);
    DecodeOptVarint(SEQUENCE_SCHEMA, ZERO_SEQUENCE, m1, 1, m.value, second, 0);
    DecodeOptVarint(SEQUENCE_SCHEMA, m1, m, 2, ToUint64(m.timestamp), [], |OptVarint(1, m.value)|);
    assert second + [] == second;
    DecodeDone(SEQUENCE_SCHEMA, m, |SequenceBytes(m)|);
  }

  lemma DecodeDone<M>(sc: Schema<M>, m: M, pos: nat)
    ensures Decode(sc, m, [], pos) == Ok(m)
  {}

  /** Two sequences with the same bytes are the same: comparing `Sequence.Bytes` compares sequences. */
  lemma SequenceInjective(a: Sequence, b: Sequence)
    requires SequenceBytes(a) == SequenceBytes(b)
    ensures a == b
  {
    SequenceRoundTrip(a);
    SequenceRoundTrip(b);
  }

  // ---------------------------------------------------------------- CommitmentEntry, ConsensusState

  function CommitmentEntryBytes(m: CommitmentEntry): Bytes {
    OptBytes(1, m.key) + OptBytes(2, m.value)
  }

  function CommitmentEntryKind(num: int): Option<Kind> {
    if num == 1 || num == 2 then Some(BytesKind) else None
  }

  function CommitmentEntryStep(m: CommitmentEntry, num: int, p: Payload): Result<CommitmentEntry, WireError> {
    match p
    case BytesPayload(b) => if num == 1 then Ok(m.(key := b)) else Ok(m.(value := b))
    case VarintPayload(_) => Ok(m)
  }

  const COMMITMENT_ENTRY_SCHEMA: Schema<CommitmentEntry> := Schema(CommitmentEntryKind, CommitmentEntryStep)
  const ZERO_COMMITMENT_ENTRY := CommitmentEntry([], [])

  lemma CommitmentEntryRoundTrip(m: CommitmentEntry)
    requires |CommitmentEntryBytes(m)| < TWO63
    ensures Decode(COMMITMENT_ENTRY_SCHEMA, ZERO_COMMITMENT_ENTRY, CommitmentEntryBytes(m), 0) == Ok(m)
  {
    hide Decode, Encode;
    var sc, m1 := COMMITMENT_ENTRY_SCHEMA, CommitmentEntry(m.key, []);
    var f1, f2 := OptBytes(1, m.key), OptBytes(2, m.value);
    DecodeOptBytes(sc, ZERO_COMMITMENT_ENTRY, m1, 1, m.key, f2, 0);
    DecodeOptBytes(sc, m1, m, 2, m.value, [], |f1|);
    assert f2 + [] == f2;
    DecodeDone(sc, m, |f1 + f2|);
  }

  function ConsensusStateBytes(m: ConsensusState): Bytes {
    OptVarint(1, ToUint64(m.timestamp))
  }

  function ConsensusStateKind(num: int): Option<Kind> {
    if num == 1 then Some(VarintKind) else None
  }

  function ConsensusStateStep(m: ConsensusState, num: int, p: Payload): Result<ConsensusState, WireError> {
    match p
    case VarintPayload(v) => Ok(ConsensusState(WrapInt64(v)))
    case BytesPayload(_) => Ok(m)
  }

  const CONSENSUS_STATE_SCHEMA: Schema<ConsensusState> := Schema(ConsensusStateKind, ConsensusStateStep)
  const ZERO_CONSENSUS_STATE := ConsensusState(0)

  lemma ConsensusStateRoundTrip(m: ConsensusState)
    ensures Decode(CONSENSUS_STATE_SCHEMA, ZERO_CONSENSUS_STATE, ConsensusStateBytes(m), 0) == Ok(m)
  {
    hide Decode, Encode;
    var f1 := ConsensusStateBytes(m);
    DecodeOptVarint(CONSENSUS_STATE_SCHEMA, ZERO_CONSENSUS_STATE, m, 1, ToUint64(m.timestamp), [], 0);
    assert f1 + [] == f1;
    DecodeDone(CONSENSUS_STATE_SCHEMA, m, |f1|);
  }

  // ---------------------------------------------------------------- MessageProof

  function MessageProofBytes(m: MessageProof): Bytes {
    Repeated(1, m.identities) + Repeated(2, m.signatures)
  }

  function MessageProofKind(num: int): Option<Kind> {
    if num == 1 || num == 2 then Some(BytesKind) else None
  }

  function MessageProofStep(m: MessageProof, num: int, p: Payload): Result<MessageProof, WireError> {
    match p
    case BytesPayload(b) =>
      if num == 1 then Ok(m.(identities := m.identities + [b])) else Ok(m.(signatures := m.signatures + [b]))
    case VarintPayload(_) => Ok(m)
  }

  const MESSAGE_PROOF_SCHEMA: Schema<MessageProof> := Schema(MessageProofKind, MessageProofStep)
  const ZERO_MESSAGE_PROOF := MessageProof([], [])

  lemma TakeNext<T>(s: seq<T>)
    ensures forall i :: 0 <= i < |s| ==> s[..i] + [s[i]] == s[..i + 1]
  {}

  lemma MessageProofRoundTrip(m: MessageProof)
    requires |MessageProofBytes(m)| < TWO63
    ensures Decode(MESSAGE_PROOF_SCHEMA, ZERO_MESSAGE_PROOF, MessageProofBytes(m), 0) == Ok(m)
  {
    hide Decode, Encode, Repeated;
    var sc, ids, sigs := MESSAGE_PROOF_SCHEMA, m.identities, m.signatures;
    var f1, f2 := Repeated(1, ids), Repeated(2, sigs);
    TakeNext(ids);
    TakeNext(sigs);
    var ms1 := seq(|ids| + 1, i requires 0 <= i <= |ids| => MessageProof(ids[..i], []));
    var ms2 := seq(|sigs| + 1, i requires 0 <= i <= |sigs| => MessageProof(ids, sigs[..i]));
    DecodeRepeated(sc, ms1, 1, ids, f2, 0);
    DecodeRepeated(sc, ms2, 2, sigs, [], |f1|);
    assert ids[..|ids|] == ids && sigs[..|sigs|] == sigs;
    assert ms1[0] == ZERO_MESSAGE_PROOF && ms1[|ids|] == ms2[0] && ms2[|sigs|] == m;
    assert f2 + [] == f2;
    DecodeDone(sc, m, |f1 + f2|);
  }

  // ---------------------------------------------------------------- CommitmentProof

  function CommitmentProofBytes(m: CommitmentProof): Bytes {
    OptBytes(1, Content(m.proposal)) + (OptVarint(2, m.nsIndex) + (OptVarint(3, m.writeSetIndex)
    + (Repeated(4, m.identities) + Repeated(5, m.signatures))))
  }

  function CommitmentProofKind(num: int): Option<Kind> {
    if num == 2 || num == 3 then Some(VarintKind)
    else if num == 1 || num == 4 || num == 5 then Some(BytesKind)
    else None
  }

  function CommitmentProofStep(m: CommitmentProof, num: int, p: Payload): Result<CommitmentProof, WireError> {
    match p
    case VarintPayload(v) =>
      if num == 2 then Ok(m.(nsIndex := v % TWO32)) else Ok(m.(writeSetIndex := v % TWO32))
    case BytesPayload(b) =>
      if num == 1 then Ok(m.(proposal := Some(b)))
      else if num == 4 then Ok(m.(identities := m.identities + [b]))
      else Ok(m.(signatures := m.signatures + [b]))
  }

  const COMMITMENT_PROOF_SCHEMA: Schema<CommitmentProof> := Schema(CommitmentProofKind, CommitmentProofStep)
  const ZERO_COMMITMENT_PROOF := CommitmentProof(None, 0, 0, [], [])

  function NormalCommitmentProof(m: CommitmentProof): CommitmentProof {
    m.(proposal := NormalBytes(m.proposal))
  }

  lemma CommitmentProofRoundTrip(m: CommitmentProof)
    requires |CommitmentProofBytes(m)| < TWO63
    ensures Decode(COMMITMENT_PROOF_SCHEMA, ZERO_COMMITMENT_PROOF, CommitmentProofBytes(m), 0) == Ok(NormalCommitmentProof(m))
  {
    hide Decode, Encode, Repeated, OptBytes, OptVarint;
    var sc, p, ids, sigs := COMMITMENT_PROOF_SCHEMA, NormalBytes(m.proposal), m.identities, m.signatures;
    var f1, f2, f3 := OptBytes(1, Content(m.proposal)), OptVarint(2, m.nsIndex), OptVarint(3, m.writeSetIndex);
    var f4, f5 := Repeated(4, ids), Repeated(5, sigs);
    var m1 := CommitmentProof(p, 0, 0, [], []);
    var m2 := m1.(nsIndex := m.nsIndex);
    TakeNext(ids);
    TakeNext(sigs);
    var ms3 := seq(|ids| + 1, i requires 0 <= i <= |ids| => CommitmentProof(p, m.nsIndex, m.writeSetIndex, ids[..i], []));
    var ms4 := seq(|sigs| + 1, i requires 0 <= i <= |sigs| => CommitmentProof(p, m.nsIndex, m.writeSetIndex, ids, sigs[..i]));
    assert ids[..|ids|] == ids && sigs[..|sigs|] == sigs;
    DecodeOptBytes(sc, ZERO_COMMITMENT_PROOF, m1, 1, Content(m.proposal), f2 + (f3 + (f4 + f5)), 0);
    DecodeOptVarint(sc, m1, m2, 2, m.nsIndex, f3 + (f4 + f5), |f1|);
    DecodeOptVarint(sc, m2, ms3[0], 3, m.writeSetIndex, f4 + f5, |f1| + |f2|);
    DecodeRepeated(sc, ms3, 4, ids, f5, |f1| + |f2| + |f3|);
    DecodeRepeated(sc, ms4, 5, sigs, [], |f1| + |f2| + |f3| + |f4|);
    assert f5 + [] == f5;
    DecodeDone(sc, ms4[|sigs|], |CommitmentProofBytes(m)|);
  }

  // ---------------------------------------------------------------- ChaincodeID, ChaincodeHeader

  function ChaincodeIDBytes(m: ChaincodeID): Bytes {
    OptBytes(1, m.path) + (OptBytes(2, m.name) + OptBytes(3, m.version))
  }

  function ChaincodeIDKind(num: int): Option<Kind> {
    if 1 <= num <= 3 then Some(BytesKind) else None
  }

  function ChaincodeIDStep(m: ChaincodeID, num: int, p: Payload): Result<ChaincodeID, WireError> {
    match p
    case BytesPayload(b) =>
      if num == 1 then Ok(m.(path := b)) else if num == 2 then Ok(m.(name := b)) else Ok(m.(version := b))
    case VarintPayload(_) => Ok(m)
  }

  const CHAINCODE_ID_SCHEMA: Schema<ChaincodeID> := Schema(ChaincodeIDKind, ChaincodeIDStep)
  const ZERO_CHAINCODE_ID := ChaincodeID([], [], [])

  lemma ChaincodeIDRoundTrip(m: ChaincodeID)
    requires |ChaincodeIDBytes(m)| < TWO63
    ensures Decode(CHAINCODE_ID_SCHEMA, ZERO_CHAINCODE_ID, ChaincodeIDBytes(m), 0) == Ok(m)
  {
    hide Decode, Encode;
    var sc := CHAINCODE_ID_SCHEMA;
    var f1, f2, f3 := OptBytes(1, m.path), OptBytes(2, m.name), OptBytes(3, m.version);
    var m1 := ChaincodeID(m.path, [], []);
    var m2 := m1.(name := m.name);
    DecodeOptBytes(sc, ZERO_CHAINCODE_ID, m1, 1, m.path, f2 + f3, 0);
    DecodeOptBytes(sc, m1, m2, 2, m.name, f3, |f1|);
    DecodeOptBytes(sc, m2, m, 3, m.version, [], |f1| + |f2|);
    assert f3 + [] == f3;
    DecodeDone(sc, m, |ChaincodeIDBytes(m)|);
  }

  function ChaincodeHeaderBytes(m: ChaincodeHeader): Bytes {
    BytesField(1, SequenceBytes(m.sequence)) + BytesField(2, CommitmentProofBytes(m.proof))
  }

  function ChaincodeHeaderKind(num: int): Option<Kind> {
    if num == 1 || num == 2 then Some(BytesKind) else None
  }

  function ChaincodeHeaderStep(m: ChaincodeHeader, num: int, p: Payload): Result<ChaincodeHeader, WireError> {
    match p
    case VarintPayload(_) => Ok(m)
    case BytesPayload(b) =>
      if num == 1 then
        match Decode(SEQUENCE_SCHEMA, m.sequence, b, 0)
        case Err(e) => Err(e)
        case Ok(x) => Ok(m.(sequence := x))
      else
        match Decode(COMMITMENT_PROOF_SCHEMA, m.proof, b, 0)
        case Err(e) => Err(e)
        case Ok(x) => Ok(m.(proof := x))
  }

  const CHAINCODE_HEADER_SCHEMA: Schema<ChaincodeHeader> := Schema(ChaincodeHeaderKind, ChaincodeHeaderStep)
  const ZERO_CHAINCODE_HEADER := ChaincodeHeader(ZERO_SEQUENCE, ZERO_COMMITMENT_PROOF)

  function NormalChaincodeHeader(m: ChaincodeHeader): ChaincodeHeader {
    m.(proof := NormalCommitmentProof(m.proof))
  }

  lemma ChaincodeHeaderRoundTrip(m: ChaincodeHeader)
    requires |ChaincodeHeaderBytes(m)| < TWO63
    ensures Decode(CHAINCODE_HEADER_SCHEMA, ZERO_CHAINCODE_HEADER, ChaincodeHeaderBytes(m), 0) == Ok(NormalChaincodeHeader(m))
  {
    hide Decode, Encode, SequenceBytes, CommitmentProofBytes;
    var sc := CHAINCODE_HEADER_SCHEMA;
    var b1, b2 := SequenceBytes(m.sequence), CommitmentProofBytes(m.proof);
    var f1, f2 := BytesField(1, b1), BytesField(2, b2);
    var m1, m2 := ZERO_CHAINCODE_HEADER.(sequence := m.sequence), NormalChaincodeHeader(m);
    SequenceRoundTrip(m.sequence);
    CommitmentProofRoundTrip(m.proof);
    DecodeMessage(sc, ZERO_CHAINCODE_HEADER, m1, 1, b1, f2, 0);
    DecodeMessage(sc, m1, m2, 2, b2, [], |f1|);
    assert f2 + [] == f2;
    DecodeDone(sc, m2, |f1 + f2|);
  }

  // ---------------------------------------------------------------- ChaincodeInfo

  function OptProof(p: Option<MessageProof>): Option<Bytes> {
    match p case None => None case Some(x) => Some(MessageProofBytes(x))
  }

  /** A nullable proof: the first occurrence starts from a zero message, later ones merge. */
  function MergeProof(p: Option<MessageProof>, b: Bytes): Result<Option<MessageProof>, WireError> {
    match Decode(MESSAGE_PROOF_SCHEMA, if p.None? then ZERO_MESSAGE_PROOF else p.value, b, 0)
    case Err(e) => Err(e)
    case Ok(x) => Ok(Some(x))
  }

  lemma MergeProofRoundTrip(p: MessageProof)
    requires |MessageProofBytes(p)| < TWO63
    ensures MergeProof(None, MessageProofBytes(p)) == Ok(Some(p))
  {
    MessageProofRoundTrip(p);
  }

  function ChaincodeInfoBytes(m: ChaincodeInfo): Bytes {
    OptBytes(1, m.channelId) + (BytesField(2, ChaincodeIDBytes(m.chaincodeId))
    + (OptBytes(3, Content(m.endorsementPolicy)) + (OptBytes(4, Content(m.ibcPolicy)) + OptMessage(5, OptProof(m.proof)))))
  }

  function ChaincodeInfoKind(num: int): Option<Kind> {
    if 1 <= num <= 5 then Some(BytesKind) else None
  }

  function ChaincodeInfoStep(m: ChaincodeInfo, num: int, p: Payload): Result<ChaincodeInfo, WireError> {
    match p
    case VarintPayload(_) => Ok(m)
    case BytesPayload(b) =>
      if num == 1 then Ok(m.(channelId := b))
      else if num == 2 then
        match Decode(CHAINCODE_ID_SCHEMA, m.chaincodeId, b, 0)
        case Err(e) => Err(e)
        case Ok(x) => Ok(m.(chaincodeId := x))
      else if num == 3 then Ok(m.(endorsementPolicy := Some(b)))
      else if num == 4 then Ok(m.(ibcPolicy := Some(b)))
      else
        match MergeProof(m.proof, b)
        case Err(e) => Err(e)
        case Ok(x) => Ok(m.(proof := x))
  }

  const CHAINCODE_INFO_SCHEMA: Schema<ChaincodeInfo> := Schema(ChaincodeInfoKind, ChaincodeInfoStep)
  const ZERO_CHAINCODE_INFO := ChaincodeInfo([], ZERO_CHAINCODE_ID, None, None, None)

  function NormalChaincodeInfo(m: ChaincodeInfo): ChaincodeInfo {
    m.(endorsementPolicy := NormalBytes(m.endorsementPolicy), ibcPolicy := NormalBytes(m.ibcPolicy))
  }

  lemma ChaincodeInfoRoundTrip(m: ChaincodeInfo)
    requires |ChaincodeInfoBytes(m)| < TWO63
    ensures Decode(CHAINCODE_INFO_SCHEMA, ZERO_CHAINCODE_INFO, ChaincodeInfoBytes(m), 0) == Ok(NormalChaincodeInfo(m))
  {
    hide Decode, Encode, ChaincodeIDBytes, MessageProofBytes, MergeProof, OptBytes;
    var sc, ccid := CHAINCODE_INFO_SCHEMA, ChaincodeIDBytes(m.chaincodeId);
    var f1, f2, f3 := OptBytes(1, m.channelId), BytesField(2, ccid), OptBytes(3, Content(m.endorsementPolicy));
    var f4, f5 := OptBytes(4, Content(m.ibcPolicy)), OptMessage(5, OptProof(m.proof));
    var m1 := ZERO_CHAINCODE_INFO.(channelId := m.channelId);
    var m2 := m1.(chaincodeId := m.chaincodeId);
    var m3 := m2.(endorsementPolicy := NormalBytes(m.endorsementPolicy));
    var m4 := m3.(ibcPolicy := NormalBytes(m.ibcPolicy));
    var m5 := NormalChaincodeInfo(m);
    ChaincodeIDRoundTrip(m.chaincodeId);
    if m.proof.Some? {
      MergeProofRoundTrip(m.proof.value);
    }
    DecodeOptBytes(sc, ZERO_CHAINCODE_INFO, m1, 1, m.channelId, f2 + (f3 + (f4 + f5)), 0);
    DecodeMessage(sc, m1, m2, 2, ccid, f3 + (f4 + f5), |f1|);
    DecodeOptBytes(sc, m2, m3, 3, Content(m.endorsementPolicy), f4 + f5, |f1| + |f2|);
    DecodeOptBytes(sc, m3, m4, 4, Content(m.ibcPolicy), f5, |f1| + |f2| + |f3|);
    DecodeOptMessage(sc, m4, m5, 5, OptProof(m.proof), [], |f1| + |f2| + |f3| + |f4|);
    assert f5 + [] == f5;
    DecodeDone(sc, m5, |ChaincodeInfoBytes(m)|);
  }

  // ---------------------------------------------------------------- MSPHeader, MSPHeaders

  function MSPHeaderBytes(m: MSPHeader): Bytes {
    OptVarint(1, ToUint64(m.typ)) + (OptBytes(2, m.mspId) + (OptBytes(3, Content(m.config))
    + (OptBytes(4, Content(m.policy)) + OptMessage(5, OptProof(m.proof)))))
  }

  function MSPHeaderKind(num: int): Option<Kind> {
    if num == 1 then Some(VarintKind) else if 2 <= num <= 5 then Some(BytesKind) else None
  }

  function MSPHeaderStep(m: MSPHeader, num: int, p: Payload): Result<MSPHeader, WireError> {
    match p
    case VarintPayload(v) => Ok(m.(typ := WrapInt32(v)))
    case BytesPayload(b) =>
      if num == 2 then Ok(m.(mspId := b))
      else if num == 3 then Ok(m.(config := Some(b)))
      else if num == 4 then Ok(m.(policy := Some(b)))
      else
        match MergeProof(m.proof, b)
        case Err(e) => Err(e)
        case Ok(x) => Ok(m.(proof := x))
  }

  const MSP_HEADER_SCHEMA: Schema<MSPHeader> := Schema(MSPHeaderKind, MSPHeaderStep)
  const ZERO_MSP_HEADER := MSPHeader(0, [], None, None, None)

  function NormalMSPHeader(m: MSPHeader): MSPHeader {
    m.(config := NormalBytes(m.config), policy := NormalBytes(m.policy))
  }

  lemma MSPHeaderRoundTrip(m: MSPHeader)
    requires |MSPHeaderBytes(m)| < TWO63
    ensures Decode(MSP_HEADER_SCHEMA, ZERO_MSP_HEADER, MSPHeaderBytes(m), 0) == Ok(NormalMSPHeader(m))
  {
    hide Decode, Encode, MessageProofBytes, MergeProof, OptBytes, OptVarint;
    var sc, t := MSP_HEADER_SCHEMA, ToUint64(m.typ);
    var f1, f2, f3 := OptVarint(1, t), OptBytes(2, m.mspId), OptBytes(3, Content(m.config));
    var f4, f5 := OptBytes(4, Content(m.policy)), OptMessage(5, OptProof(m.proof));
    var m1 := ZERO_MSP_HEADER.(typ := m.typ);
    var m2 := m1.(mspId := m.mspId);
    var m3 := m2.(config := NormalBytes(m.config));
    var m4 := m3.(policy := NormalBytes(m.policy));
    var m5 := NormalMSPHeader(m);
    if m.proof.Some? {
      MergeProofRoundTrip(m.proof.value);
    }
    DecodeOptVarint(sc, ZERO_MSP_HEADER, m1, 1, t, f2 + (f3 + (f4 + f5)), 0);
    DecodeOptBytes(sc, m1, m2, 2, m.mspId, f3 + (f4 + f5), |f1|);
    DecodeOptBytes(sc, m2, m3, 3, Content(m.config), f4 + f5, |f1| + |f2|);
    DecodeOptBytes(sc, m3, m4, 4, Content(m.policy), f5, |f1| + |f2| + |f3|);
    DecodeOptMessage(sc, m4, m5, 5, OptProof(m.proof), [], |f1| + |f2| + |f3| + |f4|);
    assert f5 + [] == f5;
    DecodeDone(sc, m5, |MSPHeaderBytes(m)|);
  }

  function MSPHeadersBytes(m: MSPHeaders): Bytes {
    Repeated(1, MapSeq(MSPHeaderBytes, m.headers))
  }

  function MSPHeadersKind(num: int): Option<Kind> {
    if num == 1 then Some(BytesKind) else None
  }

  function MSPHeadersStep(m: MSPHeaders, num: int, p: Payload): Result<MSPHeaders, WireError> {
    match p
    case VarintPayload(_) => Ok(m)
    case BytesPayload(b) =>
      match Decode(MSP_HEADER_SCHEMA, ZERO_MSP_HEADER, b, 0)
      case Err(e) => Err(e)
      case Ok(x) => Ok(MSPHeaders(m.headers + [x]))
  }

  const MSP_HEADERS_SCHEMA: Schema<MSPHeaders> := Schema(MSPHeadersKind, MSPHeadersStep)
  const ZERO_MSP_HEADERS := MSPHeaders([])

  function NormalMSPHeaders(m: MSPHeaders): MSPHeaders {
    MSPHeaders(MapSeq(NormalMSPHeader, m.headers))
  }

  /** Every element of a repeated field is no longer than the field. */
  lemma {:induction false} RepeatedBound(num: nat, items: seq<Bytes>, i: nat)
    requires 1 <= num <= 15 && i < |items|
    ensures |items[i]| <= |Repeated(num, items)|
    decreases |items|
  {
    if i > 0 {
      RepeatedBound(num, items[1..], i - 1);
    }
  }

  lemma MSPHeadersRoundTrip(m: MSPHeaders)
    requires |MSPHeadersBytes(m)| < TWO63
    ensures Decode(MSP_HEADERS_SCHEMA, ZERO_MSP_HEADERS, MSPHeadersBytes(m), 0) == Ok(NormalMSPHeaders(m))
  {
    hide Decode, Encode, Repeated, MSPHeaderBytes, NormalMSPHeader;
    var sc, items, out := MSP_HEADERS_SCHEMA, MapSeq(MSPHeaderBytes, m.headers), NormalMSPHeaders(m).headers;
    TakeNext(out);
    var ms := seq(|out| + 1, i requires 0 <= i <= |out| => MSPHeaders(out[..i]));
    forall i | 0 <= i < |items|
      ensures sc.step(ms[i], 1, BytesPayload(items[i])) == Ok(ms[i + 1])
    {
      RepeatedBound(1, items, i);
      MSPHeaderRoundTrip(m.headers[i]);
    }
    DecodeRepeated(sc, ms, 1, items, [], 0);
    assert out[..|out|] == out;
    assert Repeated(1, items) + [] == Repeated(1, items);
    DecodeDone(sc, ms[|out|], |Repeated(1, items)|);
  }

  // ---------------------------------------------------------------- MSPInfo, MSPInfos

  function MSPInfoBytes(m: MSPInfo): Bytes {
    OptBytes(1, m.mspId) + (OptBytes(2, Content(m.config)) + (OptBytes(3, Content(m.policy))
    + OptVarint(4, if m.freezed then 1 else 0)))
  }

  function MSPInfoKind(num: int): Option<Kind> {
    if num == 4 then Some(VarintKind) else if 1 <= num <= 3 then Some(BytesKind) else None
  }

  function MSPInfoStep(m: MSPInfo, num: int, p: Payload): Result<MSPInfo, WireError> {
    match p
    case VarintPayload(v) => Ok(m.(freezed := v != 0))
    case BytesPayload(b) =>
      if num == 1 then Ok(m.(mspId := b))
      else if num == 2 then Ok(m.(config := Some(b)))
      else Ok(m.(policy := Some(b)))
  }

  const MSP_INFO_SCHEMA: Schema<MSPInfo> := Schema(MSPInfoKind, MSPInfoStep)
  const ZERO_MSP_INFO := MSPInfo([], None, None, false)

  function NormalMSPInfo(m: MSPInfo): MSPInfo {
    m.(config := NormalBytes(m.config), policy := NormalBytes(m.policy))
  }

  lemma MSPInfoRoundTrip(m: MSPInfo)
    requires |MSPInfoBytes(m)| < TWO63
    ensures Decode(MSP_INFO_SCHEMA, ZERO_MSP_INFO, MSPInfoBytes(m), 0) == Ok(NormalMSPInfo(m))
  {
    hide Decode, Encode, OptBytes, OptVarint;
    var sc, z: uint64 := MSP_INFO_SCHEMA, if m.freezed then 1 else 0;
    var f1, f2 := OptBytes(1, m.mspId), OptBytes(2, Content(m.config));
    var f3, f4 := OptBytes(3, Content(m.policy)), OptVarint(4, z);
    var m1 := ZERO_MSP_INFO.(mspId := m.mspId);
    var m2 := m1.(config := NormalBytes(m.config));
    var m3 := m2.(policy := NormalBytes(m.policy));
    var m4 := NormalMSPInfo(m);
    DecodeOptBytes(sc, ZERO_MSP_INFO, m1, 1, m.mspId, f2 + (f3 + f4), 0);
    DecodeOptBytes(sc, m1, m2, 2, Content(m.config), f3 + f4, |f1|);
    DecodeOptBytes(sc, m2, m3, 3, Content(m.policy), f4, |f1| + |f2|);
    DecodeOptVarint(sc, m3, m4, 4, z, [], |f1| + |f2| + |f3|);
    assert f4 + [] == f4;
    DecodeDone(sc, m4, |MSPInfoBytes(m)|);
  }

  function MSPInfosBytes(m: MSPInfos): Bytes {
    Repeated(1, MapSeq(MSPInfoBytes, m.infos))
  }

  function MSPInfosKind(num: int): Option<Kind> {
    if num == 1 then Some(BytesKind) else None
  }

  function MSPInfosStep(m: MSPInfos, num: int, p: Payload): Result<MSPInfos, WireError> {
    match p
    case VarintPayload(_) => Ok(m)
    case BytesPayload(b) =>
      match Decode(MSP_INFO_SCHEMA, ZERO_MSP_INFO, b, 0)
      case Err(e) => Err(e)
      case Ok(x) => Ok(MSPInfos(m.infos + [x]))
  }

  const MSP_INFOS_SCHEMA: Schema<MSPInfos> := Schema(MSPInfosKind, MSPInfosStep)
  const ZERO_MSP_INFOS := MSPInfos([])

  function NormalMSPInfos(m: MSPInfos): MSPInfos {
    MSPInfos(MapSeq(NormalMSPInfo, m.infos))
  }

  lemma MSPInfosRoundTrip(m: MSPInfos)
    requires |MSPInfosBytes(m)| < TWO63
    ensures Decode(MSP_INFOS_SCHEMA, ZERO_MSP_INFOS, MSPInfosBytes(m), 0) == Ok(NormalMSPInfos(m))
  {
    hide Decode, Encode, Repeated, MSPInfoBytes, NormalMSPInfo;
    var sc, items, out := MSP_INFOS_SCHEMA, MapSeq(MSPInfoBytes, m.infos), NormalMSPInfos(m).infos;
    TakeNext(out);
    var ms := seq(|out| + 1, i requires 0 <= i <= |out| => MSPInfos(out[..i]));
    forall i | 0 <= i < |items|
      ensures sc.step(ms[i], 1, BytesPayload(items[i])) == Ok(ms[i + 1])
    {
      RepeatedBound(1, items, i);
      MSPInfoRoundTrip(m.infos[i]);
    }
    DecodeRepeated(sc, ms, 1, items, [], 0);
    assert out[..|out|] == out;
    assert Repeated(1, items) + [] == Repeated(1, items);
    DecodeDone(sc, ms[|out|], |Repeated(1, items)|);
  }

  // ---------------------------------------------------------------- ClientState

  function ClientStateBytes(m: ClientState): Bytes {
    OptBytes(1, m.id) + (BytesField(2, ChaincodeHeaderBytes(m.lastChaincodeHeader))
    + (BytesField(3, ChaincodeInfoBytes(m.lastChaincodeInfo)) + BytesField(4, MSPInfosBytes(m.lastMspInfos))))
  }

  function ClientStateKind(num: int): Option<Kind> {
    if 1 <= num <= 4 then Some(BytesKind) else None
  }

  function ClientStateStep(m: ClientState, num: int, p: Payload): Result<ClientState, WireError> {
    match p
    case VarintPayload(_) => Ok(m)
    case BytesPayload(b) =>
      if num == 1 then Ok(m.(id := b))
      else if num == 2 then
        match Decode(CHAINCODE_HEADER_SCHEMA, m.lastChaincodeHeader, b, 0)
        case Err(e) => Err(e)
        case Ok(x) => Ok(m.(lastChaincodeHeader := x))
      else if num == 3 then
        match Decode(CHAINCODE_INFO_SCHEMA, m.lastChaincodeInfo, b, 0)
        case Err(e) => Err(e)
        case Ok(x) => Ok(m.(lastChaincodeInfo := x))
      else
        match Decode(MSP_INFOS_SCHEMA, m.lastMspInfos, b, 0)
        case Err(e) => Err(e)
        case Ok(x) => Ok(m.(lastMspInfos := x))
  }

  const CLIENT_STATE_SCHEMA: Schema<ClientState> := Schema(ClientStateKind, ClientStateStep)
  const ZERO_CLIENT_STATE := ClientState([], ZERO_CHAINCODE_HEADER, ZERO_CHAINCODE_INFO, ZERO_MSP_INFOS)

  function NormalClientState(m: ClientState): ClientState {
    ClientState(m.id, NormalChaincodeHeader(m.lastChaincodeHeader),
                NormalChaincodeInfo(m.lastChaincodeInfo), NormalMSPInfos(m.lastMspInfos))
  }

  /** A stored client state is read back as it was, up to empty byte fields becoming nil. */
  lemma ClientStateRoundTrip(m: ClientState)
    requires |ClientStateBytes(m)| < TWO63
    ensures Decode(CLIENT_STATE_SCHEMA, ZERO_CLIENT_STATE, ClientStateBytes(m), 0) == Ok(NormalClientState(m))
  {
    hide Decode, Encode, ChaincodeHeaderBytes, ChaincodeInfoBytes, MSPInfosBytes, OptBytes;
    var sc := CLIENT_STATE_SCHEMA;
    var b2, b3 := ChaincodeHeaderBytes(m.lastChaincodeHeader), ChaincodeInfoBytes(m.lastChaincodeInfo);
    var b4 := MSPInfosBytes(m.lastMspInfos);
    var f1, f2, f3, f4 := OptBytes(1, m.id), BytesField(2, b2), BytesField(3, b3), BytesField(4, b4);
    var m1 := ZERO_CLIENT_STATE.(id := m.id);
    var m2 := m1.(lastChaincodeHeader := NormalChaincodeHeader(m.lastChaincodeHeader));
    var m3 := m2.(lastChaincodeInfo := NormalChaincodeInfo(m.lastChaincodeInfo));
    var m4 := NormalClientState(m);
    ChaincodeHeaderRoundTrip(m.lastChaincodeHeader);
    ChaincodeInfoRoundTrip(m.lastChaincodeInfo);
    MSPInfosRoundTrip(m.lastMspInfos);
    DecodeOptBytes(sc, ZERO_CLIENT_STATE, m1, 1, m.id, f2 + (f3 + f4), 0);
    DecodeMessage(sc, m1, m2, 2, b2, f3 + f4, |f1|);
    DecodeMessage(sc, m2, m3, 3, b3, f4, |f1| + |f2|);
    DecodeMessage(sc, m3, m4, 4, b4, [], |f1| + |f2| + |f3|);
    assert f4 + [] == f4;
    DecodeDone(sc, m4, |ClientStateBytes(m)|);
  }

  // ---------------------------------------------------------------- Header

  function OptChaincodeHeader(h: Option<ChaincodeHeader>): Option<Bytes> {
    match h case None => None case Some(x) => Some(ChaincodeHeaderBytes(x))
  }

  function OptChaincodeInfo(h: Option<ChaincodeInfo>): Option<Bytes> {
    match h case None => None case Some(x) => Some(ChaincodeInfoBytes(x))
  }

  function OptMSPHeaders(h: Option<MSPHeaders>): Option<Bytes> {
    match h case None => None case Some(x) => Some(MSPHeadersBytes(x))
  }

  function HeaderBytes(m: Header): Bytes {
    OptMessage(1, OptChaincodeHeader(m.chaincodeHeader)) + (OptMessage(2, OptChaincodeInfo(m.chaincodeInfo))
    + OptMessage(3, OptMSPHeaders(m.mspHeaders)))
  }

  function HeaderKind(num: int): Option<Kind> {
    if 1 <= num <= 3 then Some(BytesKind) else None
  }

  function HeaderStep(m: Header, num: int, p: Payload): Result<Header, WireError> {
    match p
    case VarintPayload(_) => Ok(m)
    case BytesPayload(b) =>
      if num == 1 then
        match Decode(CHAINCODE_HEADER_SCHEMA, if m.chaincodeHeader.None? then ZERO_CHAINCODE_HEADER else m.chaincodeHeader.value, b, 0)
        case Err(e) => Err(e)
        case Ok(x) => Ok(m.(chaincodeHeader := Some(x)))
      else if num == 2 then
        match Decode(CHAINCODE_INFO_SCHEMA, if m.chaincodeInfo.None? then ZERO_CHAINCODE_INFO else m.chaincodeInfo.value, b, 0)
        case Err(e) => Err(e)
        case Ok(x) => Ok(m.(chaincodeInfo := Some(x)))
      else
        match Decode(MSP_HEADERS_SCHEMA, if m.mspHeaders.None? then ZERO_MSP_HEADERS else m.mspHeaders.value, b, 0)
        case Err(e) => Err(e)
        case Ok(x) => Ok(m.(mspHeaders := Some(x)))
  }

  const HEADER_SCHEMA: Schema<Header> := Schema(HeaderKind, HeaderStep)
  const ZERO_HEADER := Header(None, None, None)

  function NormalHeader(m: Header): Header {
    Header(match m.chaincodeHeader case None => None case Some(x) => Some(NormalChaincodeHeader(x)),
           match m.chaincodeInfo case None => None case Some(x) => Some(NormalChaincodeInfo(x)),
           match m.mspHeaders case None => None case Some(x) => Some(NormalMSPHeaders(x)))
  }

  lemma HeaderRoundTrip(m: Header)
    requires |HeaderBytes(m)| < TWO63
    ensures Decode(HEADER_SCHEMA, ZERO_HEADER, HeaderBytes(m), 0) == Ok(NormalHeader(m))
  {
    hide Decode, Encode, ChaincodeHeaderBytes, ChaincodeInfoBytes, MSPHeadersBytes;
    hide NormalChaincodeHeader, NormalChaincodeInfo, NormalMSPHeaders;
    var sc, m3 := HEADER_SCHEMA, NormalHeader(m);
    var b1, b2 := OptChaincodeHeader(m.chaincodeHeader), OptChaincodeInfo(m.chaincodeInfo);
    var b3 := OptMSPHeaders(m.mspHeaders);
    var f1, f2, f3 := OptMessage(1, b1), OptMessage(2, b2), OptMessage(3, b3);
    var m1 := Header(m3.chaincodeHeader, None, None);
    var m2 := Header(m3.chaincodeHeader, m3.chaincodeInfo, None);
    if m.chaincodeHeader.Some? {
      ChaincodeHeaderRoundTrip(m.chaincodeHeader.value);
    }
    if m.chaincodeInfo.Some? {
      ChaincodeInfoRoundTrip(m.chaincodeInfo.value);
    }
    if m.mspHeaders.Some? {
      MSPHeadersRoundTrip(m.mspHeaders.value);
    }
    DecodeOptMessage(sc, ZERO_HEADER, m1, 1, b1, f2 + f3, 0);
    DecodeOptMessage(sc, m1, m2, 2, b2, f3, |f1|);
    DecodeOptMessage(sc, m2, m3, 3, b3, [], |f1| + |f2|);
    assert f3 + [] == f3;
    DecodeDone(sc, m3, |HeaderBytes(m)|);
  }
}
