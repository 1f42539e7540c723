/**
 The generated `Size`, `MarshalToSizedBuffer` and `Marshal` functions. A message is
 written backwards into a buffer: each writer is given the index before which its
 message must end, and everything behind that index is kept.
 */
module BufferWriter {
  import opened Basics
  import opened Varint
  import opened Wire
  import opened Messages
  import opened Codec

  // ---------------------------------------------------------------- sizes

  function SizeVarint(v: uint64): nat {
    if v == 0 then 0 else 1 + Sov(v)
  }

  function SizeMessage(l: nat): nat {
    1 + l + Sov(l)
  }

  function SizeBytes(l: nat): nat {
    if l == 0 then 0 else SizeMessage(l)
  }

  function SizeRepeated(items: seq<Bytes>): nat {
    if items == [] then 0 else SizeMessage(|items[0]|) + SizeRepeated(items[1..])
  }

  lemma SizeVarintIsLength(num: nat, v: uint64)
    requires 1 <= num <= 15
    ensures SizeVarint(v) == |OptVarint(num, v)|
  {
    SovIsLength(v);
  }

  lemma SizeMessageIsLength(num: nat, b: Bytes)
    requires 1 <= num <= 15
    ensures SizeMessage(|b|) == |BytesField(num, b)|
    ensures SizeBytes(|b|) == |OptBytes(num, b)|
  {
    SovIsLength(|b|);
  }

  lemma {:induction false} SizeRepeatedIsLength(num: nat, items: seq<Bytes>)
    requires 1 <= num <= 15
    ensures SizeRepeated(items) == |Repeated(num, items)|
  {
    if items != [] {
      SizeMessageIsLength(num, items[0]);
      SizeRepeatedIsLength(num, items[1..]);
    }
  }

  function SizeSequence(m: Sequence): nat {
    SizeVarint(m.value) + SizeVarint(ToUint64(m.timestamp))
  }

  function SizeCommitmentProof(m: CommitmentProof): nat {
    SizeBytes(|Content(m.proposal)|) + SizeVarint(m.nsIndex) + SizeVarint(m.writeSetIndex)
    + SizeRepeated(m.identities) + SizeRepeated(m.signatures)
  }

  function SizeMessageProof(m: MessageProof): nat {
    SizeRepeated(m.identities) + SizeRepeated(m.signatures)
  }

  function SizeOptProof(p: Option<MessageProof>): nat {
    match p case None => 0 case Some(x) => SizeMessage(SizeMessageProof(x))
  }

  function SizeChaincodeID(m: ChaincodeID): nat {
    SizeBytes(|m.path|) + SizeBytes(|m.name|) + SizeBytes(|m.version|)
  }

  function SizeChaincodeHeader(m: ChaincodeHeader): nat {
    SizeMessage(SizeSequence(m.sequence)) + SizeMessage(SizeCommitmentProof(m.proof))
  }

  function SizeChaincodeInfo(m: ChaincodeInfo): nat {
    SizeBytes(|m.channelId|) + SizeMessage(SizeChaincodeID(m.chaincodeId))
    + SizeBytes(|Content(m.endorsementPolicy)|) + SizeBytes(|Content(m.ibcPolicy)|) + SizeOptProof(m.proof)
  }

  function SizeMSPHeader(m: MSPHeader): nat {
    SizeVarint(ToUint64(m.typ)) + SizeBytes(|m.mspId|)
    + SizeBytes(|Content(m.config)|) + SizeBytes(|Content(m.policy)|) + SizeOptProof(m.proof)
  }

  function SizeMSPInfo(m: MSPInfo): nat {
    SizeBytes(|m.mspId|) + SizeBytes(|Content(m.config)|) + SizeBytes(|Content(m.policy)|)
    + if m.freezed then 2 else 0
  }

  function SizeMSPInfos(m: MSPInfos): nat
    decreases |m.infos|
  {
    if m.infos == [] then 0
    else SizeMessage(SizeMSPInfo(m.infos[0])) + SizeMSPInfos(MSPInfos(m.infos[1..]))
  }

  function SizeClientState(m: ClientState): nat {
    SizeBytes(|m.id|) + SizeMessage(SizeChaincodeHeader(m.lastChaincodeHeader))
    + SizeMessage(SizeChaincodeInfo(m.lastChaincodeInfo)) + SizeMessage(SizeMSPInfos(m.lastMspInfos))
  }

  lemma SizeSequenceIsLength(m: Sequence)
    ensures SizeSequence(m) == |SequenceBytes(m)|
  {
    SizeVarintIsLength(1, m.value);
    SizeVarintIsLength(2, ToUint64(m.timestamp));
  }

  lemma SizeProofsAreLengths(m: MessageProof, c: CommitmentProof)
    ensures SizeMessageProof(m) == |MessageProofBytes(m)|
    ensures SizeCommitmentProof(c) == |CommitmentProofBytes(c)|
  {
    hide Sov, Encode;
    SizeRepeatedIsLength(1, m.identities);
    SizeRepeatedIsLength(2, m.signatures);
    SizeMessageIsLength(1, Content(c.proposal));
    SizeVarintIsLength(2, c.nsIndex);
    SizeVarintIsLength(3, c.writeSetIndex);
    SizeRepeatedIsLength(4, c.identities);
    SizeRepeatedIsLength(5, c.signatures);
  }

  lemma SizeOptProofIsLength(p: Option<MessageProof>)
    ensures SizeOptProof(p) == |OptMessage(5, OptProof(p))|
  {
    hide Sov, Encode, MessageProofBytes, SizeMessageProof, SizeMessage, BytesField;
    if p.Some? {
      SizeProofsAreLengths(p.value, ZERO_COMMITMENT_PROOF);
      SizeMessageIsLength(5, MessageProofBytes(p.value));
    }
  }

  lemma SizeMSPHeaderIsLength(m: MSPHeader)
    ensures SizeMSPHeader(m) == |MSPHeaderBytes(m)|
  {
    hide Sov, Encode, OptBytes, OptMessage, SizeOptProof;
    SizeVarintIsLength(1, ToUint64(m.typ));
    SizeMessageIsLength(2, m.mspId);
    SizeMessageIsLength(3, Content(m.config));
    SizeMessageIsLength(4, Content(m.policy));
    SizeOptProofIsLength(m.proof);
  }

  lemma SizeMSPInfoIsLength(m: MSPInfo)
    ensures SizeMSPInfo(m) == |MSPInfoBytes(m)|
  {
    hide Sov, OptBytes, SizeMessage, BytesField;
    SizeMessageIsLength(1, m.mspId);
    SizeMessageIsLength(2, Content(m.config));
    SizeMessageIsLength(3, Content(m.policy));
  }

  lemma {:induction false} SizeMSPInfosIsLength(m: MSPInfos)
    ensures SizeMSPInfos(m) == |MSPInfosBytes(m)|
    decreases |m.infos|
  {
    hide Sov, Encode, SizeMSPInfo, MSPInfoBytes, SizeMessage, BytesField;
    if m.infos != [] {
      var tail := MSPInfos(m.infos[1..]);
      assert MapSeq(MSPInfoBytes, m.infos)[1..] == MapSeq(MSPInfoBytes, tail.infos);
      SizeMSPInfosIsLength(tail);
      SizeMSPInfoIsLength(m.infos[0]);
      SizeMessageIsLength(1, MSPInfoBytes(m.infos[0]));
    }
  }

  lemma SizeChaincodeInfoIsLength(m: ChaincodeInfo)
    ensures SizeChaincodeInfo(m) == |ChaincodeInfoBytes(m)|
  {
    hide Sov, Encode, OptBytes, BytesField, OptMessage, SizeOptProof, SizeMessage;
    SizeMessageIsLength(1, m.chaincodeId.path);
    SizeMessageIsLength(2, m.chaincodeId.name);
    SizeMessageIsLength(3, m.chaincodeId.version);
    SizeMessageIsLength(1, m.channelId);
    SizeMessageIsLength(2, ChaincodeIDBytes(m.chaincodeId));
    SizeMessageIsLength(3, Content(m.endorsementPolicy));
    SizeMessageIsLength(4, Content(m.ibcPolicy));
    SizeOptProofIsLength(m.proof);
  }

  lemma SizeChaincodeHeaderIsLength(m: ChaincodeHeader)
    ensures SizeChaincodeHeader(m) == |ChaincodeHeaderBytes(m)|
  {
    hide Sov, Encode, SequenceBytes, CommitmentProofBytes, SizeSequence, SizeCommitmentProof, SizeMessage, BytesField;
    SizeSequenceIsLength(m.sequence);
    SizeProofsAreLengths(ZERO_MESSAGE_PROOF, m.proof);
    SizeMessageIsLength(1, SequenceBytes(m.sequence));
    SizeMessageIsLength(2, CommitmentProofBytes(m.proof));
  }

  /** The size a client state asks its buffer for is the number of bytes it is written in, at every level. */
  lemma SizeClientStateIsLength(m: ClientState)
    ensures SizeClientState(m) == |ClientStateBytes(m)|
  {
    hide Sov, Encode, SizeMessage, BytesField, OptBytes;
    hide ChaincodeHeaderBytes, ChaincodeInfoBytes, MSPInfosBytes, SizeChaincodeHeader, SizeChaincodeInfo, SizeMSPInfos;
    SizeChaincodeHeaderIsLength(m.lastChaincodeHeader);
    SizeChaincodeInfoIsLength(m.lastChaincodeInfo);
    SizeMSPInfosIsLength(m.lastMspInfos);
    SizeMessageIsLength(1, m.id);
    SizeMessageIsLength(2, ChaincodeHeaderBytes(m.lastChaincodeHeader));
    SizeMessageIsLength(3, ChaincodeInfoBytes(m.lastChaincodeInfo));
    SizeMessageIsLength(4, MSPInfosBytes(m.lastMspInfos));
  }

  // ---------------------------------------------------------------- writing the pieces

  /** From `before` to `after`, exactly the bytes between j and i changed, and they now hold `piece`. */
  ghost predicate Wrote(before: Bytes, after: Bytes, i: nat, j: nat, piece: Bytes) {
    j + |piece| == i <= |before| && after == before[..j] + piece + before[i..]
  }

  /** Writing one piece in front of another writes their concatenation. */
  lemma Chain(b0: Bytes, b1: Bytes, b2: Bytes, i: nat, j: nat, k: nat, p: Bytes, q: Bytes)
    requires Wrote(b0, b1, i, j, p) && Wrote(b1, b2, j, k, q)
    ensures Wrote(b0, b2, i, k, q + p)
  {
    assert b1[..k] == b0[..k];
    assert b1[j..] == p + b0[i..];
  }

  lemma NothingWritten(b: Bytes, i: nat)
    requires i <= |b|
    ensures Wrote(b, b, i, i, [])
  {
    assert b == b[..i] + [] + b[i..];
  }

  /** A tag byte in front of index i. */
  method PutByte(a: array<byte>, i: nat, x: byte) returns (j: nat)
    requires 1 <= i <= a.Length
    modifies a
    ensures j + 1 == i && Wrote(old(a[..]), a[..], i, j, [x])
  {
    ghost var b := a[..];
    j := i - 1;
    a[j] := x;
    assert a[..] == b[..j] + [x] + b[i..];
  }

  method PutSize(a: array<byte>, i: nat, v: nat) returns (j: nat)
    requires |Encode(v)| <= i <= a.Length
    modifies a
    ensures j + |Encode(v)| == i && Wrote(old(a[..]), a[..], i, j, Encode(v))
  {
    SovIsLength(v);
    hide Sov, Encode;
    ghost var b := a[..];
    j := EncodeInto(a, i, v);
    assert a[..] == a[..j] + a[j..];
    assert b[i..] == old(a[i..]) && b[..j] == old(a[..j]);
  }

  /** The tag and length in front of a payload that already lies at index i. */
  method PutPrefix(a: array<byte>, i: nat, num: nat, size: nat) returns (j: nat)
    requires 1 <= num <= 15 && 1 + |Encode(size)| <= i <= a.Length
    modifies a
    ensures j + 1 + |Encode(size)| == i
    ensures Wrote(old(a[..]), a[..], i, j, [num * 8 + 2] + Encode(size))
  {
    hide Encode, Wrote;
    ghost var b0 := a[..];
    var k := PutSize(a, i, size);
    ghost var b1 := a[..];
    j := PutByte(a, k, num * 8 + 2);
    Chain(b0, b1, a[..], i, k, j, Encode(size), [num * 8 + 2]);
  }

  method PutVarint(a: array<byte>, i: nat, num: nat, v: uint64) returns (j: nat)
    requires 1 <= num <= 15 && |OptVarint(num, v)| <= i <= a.Length
    modifies a
    ensures j + |OptVarint(num, v)| == i && Wrote(old(a[..]), a[..], i, j, OptVarint(num, v))
  {
    hide Encode, Wrote;
    ghost var b0 := a[..];
    j := i;
    if v != 0 {
      var k := PutSize(a, i, v);
      ghost var b1 := a[..];
      j := PutByte(a, k, num * 8);
      Chain(b0, b1, a[..], i, k, j, Encode(v), [num * 8]);
    } else {
      NothingWritten(b0, i);
    }
  }

  method PutCopy(a: array<byte>, i: nat, b: Bytes) returns (j: nat)
    requires |b| <= i <= a.Length
    modifies a
    ensures j + |b| == i && Wrote(old(a[..]), a[..], i, j, b)
  {
    ghost var b0 := a[..];
    j := i - |b|;
    forall k | 0 <= k < |b| {
      a[j + k] := b[k];
    }
    assert a[..] == b0[..j] + b + b0[i..];
  }

  method PutBytes(a: array<byte>, i: nat, num: nat, b: Bytes) returns (j: nat)
    requires 1 <= num <= 15 && |BytesField(num, b)| <= i <= a.Length
    modifies a
    ensures j + |BytesField(num, b)| == i && Wrote(old(a[..]), a[..], i, j, BytesField(num, b))
  {
    hide Encode, Wrote;
    ghost var b0 := a[..];
    var k := PutCopy(a, i, b);
    ghost var b1 := a[..];
    j := PutPrefix(a, k, num, |b|);
    Chain(b0, b1, a[..], i, k, j, b, [num * 8 + 2] + Encode(|b|));
  }

  method PutOptBytes(a: array<byte>, i: nat, num: nat, b: Bytes) returns (j: nat)
    requires 1 <= num <= 15 && |OptBytes(num, b)| <= i <= a.Length
    modifies a
    ensures j + |OptBytes(num, b)| == i && Wrote(old(a[..]), a[..], i, j, OptBytes(num, b))
  {
    hide BytesField, Wrote;
    j := i;
    if |b| > 0 {
      j := PutBytes(a, i, num, b);
    } else {
      NothingWritten(a[..], i);
    }
  }

  lemma {:induction false} RepeatedSplit(num: nat, items: seq<Bytes>, k: nat)
    requires 1 <= num <= 15 && k <= |items|
    ensures Repeated(num, items) == Repeated(num, items[..k]) + Repeated(num, items[k..])
    decreases k
  {
    hide BytesField;
    if k == 0 {
      assert items[0..] == items;
    } else {
      assert items[1..][..k - 1] == items[..k][1..] && items[1..][k - 1..] == items[k..];
      RepeatedSplit(num, items[1..], k - 1);
    }
  }

  /** The part of a repeated field from element k on, and room for element k - 1. */
  lemma RepeatedStep(num: nat, items: seq<Bytes>, k: nat)
    requires 1 <= num <= 15 && k < |items|
    ensures Repeated(num, items[k..]) == BytesField(num, items[k]) + Repeated(num, items[k + 1..])
    ensures |Repeated(num, items[k..])| <= |Repeated(num, items)|
  {
    hide BytesField;
    assert items[k..][1..] == items[k + 1..];
    RepeatedSplit(num, items, k);
  }

  /** The loop over a repeated bytes field: from the last element to the first. */
  method PutRepeated(a: array<byte>, i: nat, num: nat, items: seq<Bytes>) returns (j: nat)
    requires 1 <= num <= 15 && |Repeated(num, items)| <= i <= a.Length
    modifies a
    ensures j + |Repeated(num, items)| == i && Wrote(old(a[..]), a[..], i, j, Repeated(num, items))
  {
    hide BytesField, Wrote, Repeated;
    ghost var b0 := a[..];
    j := i;
    var k := |items|;
    RepeatedNone(num, items[k..]);
    NothingWritten(b0, i);
    while k > 0
      invariant 0 <= k <= |items|
      invariant j + |Repeated(num, items[k..])| == i
      invariant Wrote(b0, a[..], i, j, Repeated(num, items[k..]))
    {
      k := k - 1;
      RepeatedStep(num, items, k);
      ghost var b1 := a[..];
      var j' := PutBytes(a, j, num, items[k]);
      Chain(b0, b1, a[..], i, j, j', Repeated(num, items[k + 1..]), BytesField(num, items[k]));
      j := j';
    }
    assert items[0..] == items;
  }

  lemma RepeatedNone(num: nat, items: seq<Bytes>)
    requires 1 <= num <= 15 && items == []
    ensures Repeated(num, items) == []
  {}

  // ---------------------------------------------------------------- writing the messages

  /** `Sequence.MarshalToSizedBuffer`: the timestamp first, then the value in front of it. */
  method WriteSequence(a: array<byte>, end: nat, m: Sequence) returns (n: nat)
    requires |SequenceBytes(m)| <= end <= a.Length
    modifies a
    ensures n == |SequenceBytes(m)| && Wrote(old(a[..]), a[..], end, end - n, SequenceBytes(m))
  {
    hide OptVarint, Wrote;
    ghost var b0 := a[..];
    var i1 := PutVarint(a, end, 2, ToUint64(m.timestamp));
    ghost var b1, f1 := a[..], OptVarint(2, ToUint64(m.timestamp));
    var i2 := PutVarint(a, i1, 1, m.value);
    Chain(b0, b1, a[..], end, i1, i2, f1, OptVarint(1, m.value));
    n := end - i2;
  }

  method WriteCommitmentEntry(a: array<byte>, end: nat, m: CommitmentEntry) returns (n: nat)
    requires |CommitmentEntryBytes(m)| <= end <= a.Length
    modifies a
    ensures n == |CommitmentEntryBytes(m)| && Wrote(old(a[..]), a[..], end, end - n, CommitmentEntryBytes(m))
  {
    hide OptBytes, Wrote;
    ghost var b0 := a[..];
    var i1 := PutOptBytes(a, end, 2, m.value);
    ghost var b1, f1 := a[..], OptBytes(2, m.value);
    var i2 := PutOptBytes(a, i1, 1, m.key);
    Chain(b0, b1, a[..], end, i1, i2, f1, OptBytes(1, m.key));
    n := end - i2;
  }

  method WriteConsensusState(a: array<byte>, end: nat, m: ConsensusState) returns (n: nat)
    requires |ConsensusStateBytes(m)| <= end <= a.Length
    modifies a
    ensures n == |ConsensusStateBytes(m)| && Wrote(old(a[..]), a[..], end, end - n, ConsensusStateBytes(m))
  {
    hide OptVarint, Wrote;
    ghost var b0 := a[..];
    var i1 := PutVarint(a, end, 1, ToUint64(m.timestamp));
    n := end - i1;
  }

  method WriteMessageProof(a: array<byte>, end: nat, m: MessageProof) returns (n: nat)
    requires |MessageProofBytes(m)| <= end <= a.Length
    modifies a
    ensures n == |MessageProofBytes(m)| && Wrote(old(a[..]), a[..], end, end - n, MessageProofBytes(m))
  {
    hide Repeated, Wrote;
    ghost var b0 := a[..];
    var i1 := PutRepeated(a, end, 2, m.signatures);
    ghost var b1, f1 := a[..], Repeated(2, m.signatures);
    var i2 := PutRepeated(a, i1, 1, m.identities);
    Chain(b0, b1, a[..], end, i1, i2, f1, Repeated(1, m.identities));
    n := end - i2;
  }

  method WriteCommitmentProof(a: array<byte>, end: nat, m: CommitmentProof) returns (n: nat)
    requires |CommitmentProofBytes(m)| <= end <= a.Length
    modifies a
    ensures n == |CommitmentProofBytes(m)| && Wrote(old(a[..]), a[..], end, end - n, CommitmentProofBytes(m))
  {
    hide Repeated, OptVarint, OptBytes, Wrote;
    ghost var b0 := a[..];
    var i1 := PutRepeated(a, end, 5, m.signatures);
    ghost var b1, f1 := a[..], Repeated(5, m.signatures);
    var i2 := PutRepeated(a, i1, 4, m.identities);
    Chain(b0, b1, a[..], end, i1, i2, f1, Repeated(4, m.identities));
    ghost var b2, f2 := a[..], Repeated(4, m.identities) + f1;
    var i3 := PutVarint(a, i2, 3, m.writeSetIndex);
    Chain(b0, b2, a[..], end, i2, i3, f2, OptVarint(3, m.writeSetIndex));
    ghost var b3, f3 := a[..], OptVarint(3, m.writeSetIndex) + f2;
    var i4 := PutVarint(a, i3, 2, m.nsIndex);
    Chain(b0, b3, a[..], end, i3, i4, f3, OptVarint(2, m.nsIndex));
    ghost var b4, f4 := a[..], OptVarint(2, m.nsIndex) + f3;
    var i5 := PutOptBytes(a, i4, 1, Content(m.proposal));
    Chain(b0, b4, a[..], end, i4, i5, f4, OptBytes(1, Content(m.proposal)));
    n := end - i5;
  }

  method WriteChaincodeID(a: array<byte>, end: nat, m: ChaincodeID) returns (n: nat)
    requires |ChaincodeIDBytes(m)| <= end <= a.Length
    modifies a
    ensures n == |ChaincodeIDBytes(m)| && Wrote(old(a[..]), a[..], end, end - n, ChaincodeIDBytes(m))
  {
    hide OptBytes, Wrote;
    ghost var b0 := a[..];
    var i1 := PutOptBytes(a, end, 3, m.version);
    ghost var b1, f1 := a[..], OptBytes(3, m.version);
    var i2 := PutOptBytes(a, i1, 2, m.name);
    Chain(b0, b1, a[..], end, i1, i2, f1, OptBytes(2, m.name));
    ghost var b2, f2 := a[..], OptBytes(2, m.name) + f1;
    var i3 := PutOptBytes(a, i2, 1, m.path);
    Chain(b0, b2, a[..], end, i2, i3, f2, OptBytes(1, m.path));
    n := end - i3;
  }

  /** A sub-message: written first, then its length and tag in front of it. */
  method PutMessageProof(a: array<byte>, i: nat, num: nat, m: MessageProof) returns (j: nat)
    requires 1 <= num <= 15 && |BytesField(num, MessageProofBytes(m))| <= i <= a.Length
    modifies a
    ensures j + |BytesField(num, MessageProofBytes(m))| == i
    ensures Wrote(old(a[..]), a[..], i, j, BytesField(num, MessageProofBytes(m)))
  {
    hide MessageProofBytes, Encode, Wrote;
    ghost var b0 := a[..];
    var size := WriteMessageProof(a, i, m);
    ghost var b1 := a[..];
    j := PutPrefix(a, i - size, num, size);
    Chain(b0, b1, a[..], i, i - size, j, MessageProofBytes(m), [num * 8 + 2] + Encode(size));
  }

  method PutCommitmentProof(a: array<byte>, i: nat, num: nat, m: CommitmentProof) returns (j: nat)
    requires 1 <= num <= 15 && |BytesField(num, CommitmentProofBytes(m))| <= i <= a.Length
    modifies a
    ensures j + |BytesField(num, CommitmentProofBytes(m))| == i
    ensures Wrote(old(a[..]), a[..], i, j, BytesField(num, CommitmentProofBytes(m)))
  {
    hide CommitmentProofBytes, Encode, Wrote;
    ghost var b0 := a[..];
    var size := WriteCommitmentProof(a, i, m);
    ghost var b1 := a[..];
    j := PutPrefix(a, i - size, num, size);
    Chain(b0, b1, a[..], i, i - size, j, CommitmentProofBytes(m), [num * 8 + 2] + Encode(size));
  }

  method PutSequence(a: array<byte>, i: nat, num: nat, m: Sequence) returns (j: nat)
    requires 1 <= num <= 15 && |BytesField(num, SequenceBytes(m))| <= i <= a.Length
    modifies a
    ensures j + |BytesField(num, SequenceBytes(m))| == i
    ensures Wrote(old(a[..]), a[..], i, j, BytesField(num, SequenceBytes(m)))
  {
    hide SequenceBytes, Encode, Wrote;
    ghost var b0 := a[..];
    var size := WriteSequence(a, i, m);
    ghost var b1 := a[..];
    j := PutPrefix(a, i - size, num, size);
    Chain(b0, b1, a[..], i, i - size, j, SequenceBytes(m), [num * 8 + 2] + Encode(size));
  }

  method PutChaincodeID(a: array<byte>, i: nat, num: nat, m: ChaincodeID) returns (j: nat)
    requires 1 <= num <= 15 && |BytesField(num, ChaincodeIDBytes(m))| <= i <= a.Length
    modifies a
    ensures j + |BytesField(num, ChaincodeIDBytes(m))| == i
    ensures Wrote(old(a[..]), a[..], i, j, BytesField(num, ChaincodeIDBytes(m)))
  {
    hide ChaincodeIDBytes, Encode, Wrote;
    ghost var b0 := a[..];
    var size := WriteChaincodeID(a, i, m);
    ghost var b1 := a[..];
    j := PutPrefix(a, i - size, num, size);
    Chain(b0, b1, a[..], i, i - size, j, ChaincodeIDBytes(m), [num * 8 + 2] + Encode(size));
  }

  method PutOptProof(a: array<byte>, i: nat, p: Option<MessageProof>) returns (j: nat)
    requires |OptMessage(5, OptProof(p))| <= i <= a.Length
    modifies a
    ensures j + |OptMessage(5, OptProof(p))| == i && Wrote(old(a[..]), a[..], i, j, OptMessage(5, OptProof(p)))
  {
    hide BytesField, MessageProofBytes, Wrote;
    j := i;
    if p.Some? {
      j := PutMessageProof(a, i, 5, p.value);
    } else {
      NothingWritten(a[..], i);
    }
  }

  /** The flag of an MSPInfo: two literal bytes, or nothing. */
  method PutFreezed(a: array<byte>, i: nat, freezed: bool) returns (j: nat)
    requires |OptVarint(4, if freezed then 1 else 0)| <= i <= a.Length
    modifies a
    ensures j + |OptVarint(4, if freezed then 1 else 0)| == i
    ensures Wrote(old(a[..]), a[..], i, j, OptVarint(4, if freezed then 1 else 0))
  {
    hide Wrote;
    ghost var b0 := a[..];
    j := i;
    if freezed {
      assert OptVarint(4, 1) == [0x20] + [1];
      var k := PutByte(a, i, 1);
      ghost var b1 := a[..];
      j := PutByte(a, k, 0x20);
      Chain(b0, b1, a[..], i, k, j, [1], [0x20]);
    } else {
      NothingWritten(b0, i);
    }
  }

  method WriteChaincodeHeader(a: array<byte>, end: nat, m: ChaincodeHeader) returns (n: nat)
    requires |ChaincodeHeaderBytes(m)| <= end <= a.Length
    modifies a
    ensures n == |ChaincodeHeaderBytes(m)| && Wrote(old(a[..]), a[..], end, end - n, ChaincodeHeaderBytes(m))
  {
    hide BytesField, CommitmentProofBytes, SequenceBytes, Wrote;
    ghost var b0 := a[..];
    var i1 := PutCommitmentProof(a, end, 2, m.proof);
    ghost var b1, f1 := a[..], BytesField(2, CommitmentProofBytes(m.proof));
    var i2 := PutSequence(a, i1, 1, m.sequence);
    Chain(b0, b1, a[..], end, i1, i2, f1, BytesField(1, SequenceBytes(m.sequence)));
    n := end - i2;
  }

  method WriteChaincodeInfo(a: array<byte>, end: nat, m: ChaincodeInfo) returns (n: nat)
    requires |ChaincodeInfoBytes(m)| <= end <= a.Length
    modifies a
    ensures n == |ChaincodeInfoBytes(m)| && Wrote(old(a[..]), a[..], end, end - n, ChaincodeInfoBytes(m))
  {
    hide OptBytes, OptMessage, BytesField, ChaincodeIDBytes, Wrote;
    ghost var b0 := a[..];
    var i1 := PutOptProof(a, end, m.proof);
    ghost var b1, f1 := a[..], OptMessage(5, OptProof(m.proof));
    var i2 := PutOptBytes(a, i1, 4, Content(m.ibcPolicy));
    Chain(b0, b1, a[..], end, i1, i2, f1, OptBytes(4, Content(m.ibcPolicy)));
    ghost var b2, f2 := a[..], OptBytes(4, Content(m.ibcPolicy)) + f1;
    var i3 := PutOptBytes(a, i2, 3, Content(m.endorsementPolicy));
    Chain(b0, b2, a[..], end, i2, i3, f2, OptBytes(3, Content(m.endorsementPolicy)));
    ghost var b3, f3 := a[..], OptBytes(3, Content(m.endorsementPolicy)) + f2;
    var i4 := PutChaincodeID(a, i3, 2, m.chaincodeId);
    Chain(b0, b3, a[..], end, i3, i4, f3, BytesField(2, ChaincodeIDBytes(m.chaincodeId)));
    ghost var b4, f4 := a[..], BytesField(2, ChaincodeIDBytes(m.chaincodeId)) + f3;
    var i5 := PutOptBytes(a, i4, 1, m.channelId);
    Chain(b0, b4, a[..], end, i4, i5, f4, OptBytes(1, m.channelId));
    n := end - i5;
  }

  method WriteMSPHeader(a: array<byte>, end: nat, m: MSPHeader) returns (n: nat)
    requires |MSPHeaderBytes(m)| <= end <= a.Length
    modifies a
    ensures n == |MSPHeaderBytes(m)| && Wrote(old(a[..]), a[..], end, end - n, MSPHeaderBytes(m))
  {
    hide OptBytes, OptVarint, OptMessage, Wrote;
    ghost var b0 := a[..];
    var i1 := PutOptProof(a, end, m.proof);
    ghost var b1, f1 := a[..], OptMessage(5, OptProof(m.proof));
    var i2 := PutOptBytes(a, i1, 4, Content(m.policy));
    Chain(b0, b1, a[..], end, i1, i2, f1, OptBytes(4, Content(m.policy)));
    ghost var b2, f2 := a[..], OptBytes(4, Content(m.policy)) + f1;
    var i3 := PutOptBytes(a, i2, 3, Content(m.config));
    Chain(b0, b2, a[..], end, i2, i3, f2, OptBytes(3, Content(m.config)));
    ghost var b3, f3 := a[..], OptBytes(3, Content(m.config)) + f2;
    var i4 := PutOptBytes(a, i3, 2, m.mspId);
    Chain(b0, b3, a[..], end, i3, i4, f3, OptBytes(2, m.mspId));
    ghost var b4, f4 := a[..], OptBytes(2, m.mspId) + f3;
    var i5 := PutVarint(a, i4, 1, ToUint64(m.typ));
    Chain(b0, b4, a[..], end, i4, i5, f4, OptVarint(1, ToUint64(m.typ)));
    n := end - i5;
  }

  method WriteMSPInfo(a: array<byte>, end: nat, m: MSPInfo) returns (n: nat)
    requires |MSPInfoBytes(m)| <= end <= a.Length
    modifies a
    ensures n == |MSPInfoBytes(m)| && Wrote(old(a[..]), a[..], end, end - n, MSPInfoBytes(m))
  {
    hide OptBytes, OptVarint, Wrote;
    ghost var b0 := a[..];
    var i1 := PutFreezed(a, end, m.freezed);
    ghost var b1, f1 := a[..], OptVarint(4, if m.freezed then 1 else 0);
    var i2 := PutOptBytes(a, i1, 3, Content(m.policy));
    Chain(b0, b1, a[..], end, i1, i2, f1, OptBytes(3, Content(m.policy)));
    ghost var b2, f2 := a[..], OptBytes(3, Content(m.policy)) + f1;
    var i3 := PutOptBytes(a, i2, 2, Content(m.config));
    Chain(b0, b2, a[..], end, i2, i3, f2, OptBytes(2, Content(m.config)));
    ghost var b3, f3 := a[..], OptBytes(2, Content(m.config)) + f2;
    var i4 := PutOptBytes(a, i3, 1, m.mspId);
    Chain(b0, b3, a[..], end, i3, i4, f3, OptBytes(1, m.mspId));
    n := end - i4;
  }

  method PutMSPInfo(a: array<byte>, i: nat, num: nat, m: MSPInfo) returns (j: nat)
    requires 1 <= num <= 15 && |BytesField(num, MSPInfoBytes(m))| <= i <= a.Length
    modifies a
    ensures j + |BytesField(num, MSPInfoBytes(m))| == i
    ensures Wrote(old(a[..]), a[..], i, j, BytesField(num, MSPInfoBytes(m)))
  {
    hide MSPInfoBytes, Encode, Wrote;
    ghost var b0 := a[..];
    var size := WriteMSPInfo(a, i, m);
    ghost var b1 := a[..];
    j := PutPrefix(a, i - size, num, size);
    Chain(b0, b1, a[..], i, i - size, j, MSPInfoBytes(m), [num * 8 + 2] + Encode(size));
  }

  method PutMSPHeader(a: array<byte>, i: nat, num: nat, m: MSPHeader) returns (j: nat)
    requires 1 <= num <= 15 && |BytesField(num, MSPHeaderBytes(m))| <= i <= a.Length
    modifies a
    ensures j + |BytesField(num, MSPHeaderBytes(m))| == i
    ensures Wrote(old(a[..]), a[..], i, j, BytesField(num, MSPHeaderBytes(m)))
  {
    hide MSPHeaderBytes, Encode, Wrote;
    ghost var b0 := a[..];
    var size := WriteMSPHeader(a, i, m);
    ghost var b1 := a[..];
    j := PutPrefix(a, i - size, num, size);
    Chain(b0, b1, a[..], i, i - size, j, MSPHeaderBytes(m), [num * 8 + 2] + Encode(size));
  }

  /** The loop over a repeated message field, from the last element to the first. */
  method WriteMSPInfos(a: array<byte>, end: nat, m: MSPInfos) returns (n: nat)
    requires |MSPInfosBytes(m)| <= end <= a.Length
    modifies a
    ensures n == |MSPInfosBytes(m)| && Wrote(old(a[..]), a[..], end, end - n, MSPInfosBytes(m))
  {
    hide MSPInfoBytes, BytesField, Wrote, Repeated;
    ghost var b0, items := a[..], MapSeq(MSPInfoBytes, m.infos);
    var i: nat, k := end, |m.infos|;
    RepeatedNone(1, items[k..]);
    NothingWritten(b0, end);
    while k > 0
      invariant 0 <= k <= |items|
      invariant i + |Repeated(1, items[k..])| == end
      invariant Wrote(b0, a[..], end, i, Repeated(1, items[k..]))
    {
      k := k - 1;
      RepeatedStep(1, items, k);
      ghost var b1 := a[..];
      var j := PutMSPInfo(a, i, 1, m.infos[k]);
      Chain(b0, b1, a[..], end, i, j, Repeated(1, items[k + 1..]), BytesField(1, items[k]));
      i := j;
    }
    assert items[0..] == items;
    n := end - i;
  }

  /** The loop over a repeated message field, from the last element to the first. */
  method WriteMSPHeaders(a: array<byte>, end: nat, m: MSPHeaders) returns (n: nat)
    requires |MSPHeadersBytes(m)| <= end <= a.Length
    modifies a
    ensures n == |MSPHeadersBytes(m)| && Wrote(old(a[..]), a[..], end, end - n, MSPHeadersBytes(m))
  {
    hide MSPHeaderBytes, BytesField, Wrote, Repeated;
    ghost var b0, items := a[..], MapSeq(MSPHeaderBytes, m.headers);
    var i: nat, k := end, |m.headers|;
    RepeatedNone(1, items[k..]);
    NothingWritten(b0, end);
    while k > 0
      invariant 0 <= k <= |items|
      invariant i + |Repeated(1, items[k..])| == end
      invariant Wrote(b0, a[..], end, i, Repeated(1, items[k..]))
    {
      k := k - 1;
      RepeatedStep(1, items, k);
      ghost var b1 := a[..];
      var j := PutMSPHeader(a, i, 1, m.headers[k]);
      Chain(b0, b1, a[..], end, i, j, Repeated(1, items[k + 1..]), BytesField(1, items[k]));
      i := j;
    }
    assert items[0..] == items;
    n := end - i;
  }

  method PutMSPInfos(a: array<byte>, i: nat, num: nat, m: MSPInfos) returns (j: nat)
    requires 1 <= num <= 15 && |BytesField(num, MSPInfosBytes(m))| <= i <= a.Length
    modifies a
    ensures j + |BytesField(num, MSPInfosBytes(m))| == i
    ensures Wrote(old(a[..]), a[..], i, j, BytesField(num, MSPInfosBytes(m)))
  {
    hide MSPInfosBytes, Encode, Wrote;
    ghost var b0 := a[..];
    var size := WriteMSPInfos(a, i, m);
    ghost var b1 := a[..];
    j := PutPrefix(a, i - size, num, size);
    Chain(b0, b1, a[..], i, i - size, j, MSPInfosBytes(m), [num * 8 + 2] + Encode(size));
  }

  method PutChaincodeInfo(a: array<byte>, i: nat, num: nat, m: ChaincodeInfo) returns (j: nat)
    requires 1 <= num <= 15 && |BytesField(num, ChaincodeInfoBytes(m))| <= i <= a.Length
    modifies a
    ensures j + |BytesField(num, ChaincodeInfoBytes(m))| == i
    ensures Wrote(old(a[..]), a[..], i, j, BytesField(num, ChaincodeInfoBytes(m)))
  {
    hide ChaincodeInfoBytes, Encode, Wrote;
    ghost var b0 := a[..];
    var size := WriteChaincodeInfo(a, i, m);
    ghost var b1 := a[..];
    j := PutPrefix(a, i - size, num, size);
    Chain(b0, b1, a[..], i, i - size, j, ChaincodeInfoBytes(m), [num * 8 + 2] + Encode(size));
  }

  method PutChaincodeHeader(a: array<byte>, i: nat, num: nat, m: ChaincodeHeader) returns (j: nat)
    requires 1 <= num <= 15 && |BytesField(num, ChaincodeHeaderBytes(m))| <= i <= a.Length
    modifies a
    ensures j + |BytesField(num, ChaincodeHeaderBytes(m))| == i
    ensures Wrote(old(a[..]), a[..], i, j, BytesField(num, ChaincodeHeaderBytes(m)))
  {
    hide ChaincodeHeaderBytes, Encode, Wrote;
    ghost var b0 := a[..];
    var size := WriteChaincodeHeader(a, i, m);
    ghost var b1 := a[..];
    j := PutPrefix(a, i - size, num, size);
    Chain(b0, b1, a[..], i, i - size, j, ChaincodeHeaderBytes(m), [num * 8 + 2] + Encode(size));
  }

  /** `ClientState.MarshalToSizedBuffer`: the three sub-messages and the identifier, last to first. */
  method WriteClientState(a: array<byte>, end: nat, m: ClientState) returns (n: nat)
    requires |ClientStateBytes(m)| <= end <= a.Length
    modifies a
    ensures n == |ClientStateBytes(m)| && Wrote(old(a[..]), a[..], end, end - n, ClientStateBytes(m))
  {
    hide OptBytes, BytesField, MSPInfosBytes, ChaincodeInfoBytes, ChaincodeHeaderBytes, Wrote;
    ghost var b0 := a[..];
    var i1 := PutMSPInfos(a, end, 4, m.lastMspInfos);
    ghost var b1, f1 := a[..], BytesField(4, MSPInfosBytes(m.lastMspInfos));
    var i2 := PutChaincodeInfo(a, i1, 3, m.lastChaincodeInfo);
    Chain(b0, b1, a[..], end, i1, i2, f1, BytesField(3, ChaincodeInfoBytes(m.lastChaincodeInfo)));
    ghost var b2, f2 := a[..], BytesField(3, ChaincodeInfoBytes(m.lastChaincodeInfo)) + f1;
    var i3 := PutChaincodeHeader(a, i2, 2, m.lastChaincodeHeader);
    Chain(b0, b2, a[..], end, i2, i3, f2, BytesField(2, ChaincodeHeaderBytes(m.lastChaincodeHeader)));
    ghost var b3, f3 := a[..], BytesField(2, ChaincodeHeaderBytes(m.lastChaincodeHeader)) + f2;
    var i4 := PutOptBytes(a, i3, 1, m.id);
    Chain(b0, b3, a[..], end, i3, i4, f3, OptBytes(1, m.id));
    n := end - i4;
  }

  /** `Sequence.Marshal`: a buffer of exactly the announced size is filled down to index 0. */
  method MarshalSequence(m: Sequence) returns (b: Bytes)
    ensures b == SequenceBytes(m)
  {
    SizeSequenceIsLength(m);
    hide SequenceBytes, SizeSequence;
    var size := SizeSequence(m);
    var a := new byte[size];
    var n := WriteSequence(a, size, m);
    assert n == size;
    b := a[..n];
  }

  /** `MSPHeader.Marshal`: a buffer of exactly the announced size is filled down to index 0. */
  method MarshalMSPHeader(m: MSPHeader) returns (b: Bytes)
    ensures b == MSPHeaderBytes(m)
  {
    SizeMSPHeaderIsLength(m);
    hide MSPHeaderBytes, SizeMSPHeader;
    var size := SizeMSPHeader(m);
    var a := new byte[size];
    var n := WriteMSPHeader(a, size, m);
    assert n == size;
    b := a[..n];
  }

  /** `ChaincodeInfo.Marshal`: a buffer of exactly the announced size is filled down to index 0. */
  method MarshalChaincodeInfo(m: ChaincodeInfo) returns (b: Bytes)
    ensures b == ChaincodeInfoBytes(m)
  {
    SizeChaincodeInfoIsLength(m);
    hide ChaincodeInfoBytes, SizeChaincodeInfo;
    var size := SizeChaincodeInfo(m);
    var a := new byte[size];
    var n := WriteChaincodeInfo(a, size, m);
    assert n == size;
    b := a[..n];
  }

  /** `ClientState.Marshal`: a buffer of exactly the announced size is filled down to index 0. */
  method MarshalClientState(m: ClientState) returns (b: Bytes)
    ensures b == ClientStateBytes(m)
  {
    SizeClientStateIsLength(m);
    hide ClientStateBytes, SizeClientState;
    var size := SizeClientState(m);
    var a := new byte[size];
    var n := WriteClientState(a, size, m);
    assert n == size;
    b := a[..n];
  }
}
