/**
 The messages of `commitment/types.proto` and `fabric.proto`. A `bytes` field of a
 message is an optional byte string, because nil and empty differ in memory though
 not on the wire; a `string` field is a byte string.
 */
module Messages {
  import opened Basics

  datatype Sequence = Sequence(value: uint64, timestamp: int64)

  datatype CommitmentEntry = CommitmentEntry(key: Bytes, value: Bytes)

  datatype ConsensusState = ConsensusState(timestamp: int64)

  datatype MessageProof = MessageProof(identities: seq<Bytes>, signatures: seq<Bytes>)

  datatype CommitmentProof = CommitmentProof(
    proposal: Option<Bytes>, nsIndex: uint32, writeSetIndex: uint32,
    identities: seq<Bytes>, signatures: seq<Bytes>)

  datatype ChaincodeID = ChaincodeID(path: Bytes, name: Bytes, version: Bytes)

  datatype ChaincodeHeader = ChaincodeHeader(sequence: Sequence, proof: CommitmentProof)

  datatype ChaincodeInfo = ChaincodeInfo(
    channelId: Bytes, chaincodeId: ChaincodeID,
    endorsementPolicy: Option<Bytes>, ibcPolicy: Option<Bytes>, proof: Option<MessageProof>)

  // The values of the enum MSPHeaderType; the field itself holds any int32.
  const CREATE: int32 := 0
  const UPDATE_POLICY: int32 := 1
  const UPDATE_CONFIG: int32 := 2
  const FREEZE: int32 := 3

  datatype MSPHeader = MSPHeader(
    typ: int32, mspId: Bytes, config: Option<Bytes>, policy: Option<Bytes>, proof: Option<MessageProof>)

  datatype MSPHeaders = MSPHeaders(headers: seq<MSPHeader>)

  datatype MSPInfo = MSPInfo(mspId: Bytes, config: Option<Bytes>, policy: Option<Bytes>, freezed: bool)

  datatype MSPInfos = MSPInfos(infos: seq<MSPInfo>)

  datatype ClientState = ClientState(
    id: Bytes, lastChaincodeHeader: ChaincodeHeader, lastChaincodeInfo: ChaincodeInfo, lastMspInfos: MSPInfos)

  datatype Header = Header(
    chaincodeHeader: Option<ChaincodeHeader>, chaincodeInfo: Option<ChaincodeInfo>, mspHeaders: Option<MSPHeaders>)
}
