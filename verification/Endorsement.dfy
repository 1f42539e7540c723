/**
 The commitment entries that the chaincode endorses and the checks of the counterparty's
 client that accept them.
 */
module Endorsement {
  import opened Basics
  import opened Messages
  import opened Wire
  import opened Codec
  import opened LedgerStub
  import Keys
  import L = LightClient

  // ---------------------------------------------------------------- big-endian numbers

  /** `sdk.Uint64ToBigEndian`, from the last byte on. */
  function BigEndian(n: nat, width: nat): (b: Bytes)
    ensures |b| == width
  {
    if width == 0 then [] else BigEndian(n / 256, width - 1) + [n % 256]
  }

  function FromBigEndian(b: Bytes): nat {
    if b == [] then 0 else 256 * FromBigEndian(b[..|b| - 1]) + b[|b| - 1]
  }

  function Bound(width: nat): nat {
    if width == 0 then 1 else 256 * Bound(width - 1)
  }

  lemma {:induction false} BigEndianRoundTrip(n: nat, width: nat)
    requires n < Bound(width)
    ensures FromBigEndian(BigEndian(n, width)) == n
    decreases width
  {
    if width > 0 {
      BigEndianRoundTrip(n / 256, width - 1);
      var b := BigEndian(n, width);
      assert b[..|b| - 1] == BigEndian(n / 256, width - 1);
    }
  }

  lemma EightBytes()
    ensures Bound(8) == TWO64
  {
    assert Bound(1) == 256 && Bound(2) == 256 * Bound(1) && Bound(3) == 256 * Bound(2) && Bound(4) == TWO32;
    assert Bound(5) == 256 * Bound(4) && Bound(6) == 256 * Bound(5) && Bound(7) == 256 * Bound(6);
  }

  lemma BigEndianInjective(m: uint64, n: uint64)
    requires BigEndian(m, 8) == BigEndian(n, 8)
    ensures m == n
  {
    EightBytes();
    hide BigEndian, Bound;
    BigEndianRoundTrip(m, 8);
    BigEndianRoundTrip(n, 8);
  }

  // ---------------------------------------------------------------- the endorsing side

  /**
   What the keepers of the application hold, as the endorsing functions read it: marshalled
   states, stored commitments and acknowledgement hashes, receipts and counters.
   */
  datatype App = App(
    clients: map<Bytes, Bytes>,
    consensus: map<(Bytes, uint64, uint64), Bytes>,
    connections: map<Bytes, Bytes>,
    channels: map<(Bytes, Bytes), Bytes>,
    commitments: map<(Bytes, Bytes, uint64), Bytes>,
    acks: map<(Bytes, Bytes, uint64), Bytes>,
    receipts: set<(Bytes, Bytes, uint64)>,
    nextRecv: map<(Bytes, Bytes), uint64>)

  datatype Request =
    | EndorseClientState(id: Bytes)
    | EndorseConsensusState(id: Bytes, height: uint64)
    | EndorseConnectionState(id: Bytes)
    | EndorseChannelState(port: Bytes, channel: Bytes)
    | EndorsePacketCommitment(port: Bytes, channel: Bytes, n: uint64)
    | EndorsePacketAcknowledgement(port: Bytes, channel: Bytes, n: uint64)
    | EndorsePacketReceiptAbsence(port: Bytes, channel: Bytes, n: uint64)
    | EndorseNextSequenceRecv(port: Bytes, channel: Bytes)

  /** What is read for a request; None is the error that nothing was found, or that a receipt was. */
  function Read(app: App, req: Request): Option<Bytes> {
    match req
    case EndorseClientState(id) => Find(app.clients, id)
    case EndorseConsensusState(id, h) => Find(app.consensus, (id, 0, h))
    case EndorseConnectionState(id) => Find(app.connections, id)
    case EndorseChannelState(p, c) => Find(app.channels, (p, c))
    case EndorsePacketCommitment(p, c, n) => Find(app.commitments, (p, c, n))
    case EndorsePacketAcknowledgement(p, c, n) => Find(app.acks, (p, c, n))
    case EndorsePacketReceiptAbsence(p, c, n) => if (p, c, n) in app.receipts then None else Some([0])
    case EndorseNextSequenceRecv(p, c) =>
      match Find(app.nextRecv, (p, c)) case None => None case Some(n) => Some(BigEndian(n, 8))
  }

  /** The key that the request's entry is made with; heights have revision 0. */
  function EntryKey(prefix: Bytes, req: Request): Bytes {
    match req
    case EndorseClientState(id) => Keys.MakeClientStateCommitmentEntryKey(prefix, id)
    case EndorseConsensusState(id, h) => Keys.MakeConsensusStateCommitmentEntryKey(prefix, id, 0, h)
    case EndorseConnectionState(id) => Keys.MakeConnectionStateCommitmentEntryKey(prefix, id)
    case EndorseChannelState(p, c) => Keys.MakeChannelStateCommitmentEntryKey(prefix, p, c)
    case EndorsePacketCommitment(p, c, n) => Keys.MakePacketCommitmentEntryKey(prefix, p, c, n)
    case EndorsePacketAcknowledgement(p, c, n) => Keys.MakePacketAcknowledgementEntryKey(prefix, p, c, n)
    case EndorsePacketReceiptAbsence(p, c, n) => Keys.MakePacketReceiptAbsenceEntryKey(prefix, p, c, n)
    case EndorseNextSequenceRecv(p, c) => Keys.MakeNextSequenceRecvEntryKey(prefix, p, c)
  }

  function EntryOf(prefix: Bytes, app: App, req: Request): Option<L.Write> {
    match Read(app, req) case None => None case Some(v) => Some(L.Write(EntryKey(prefix, req), v))
  }

  /** The endorsing functions: the entry is put on the ledger, or nothing changes. */
  method Endorse(stub: Stub, prefix: Bytes, app: App, req: Request) returns (r: Option<L.Write>)
    modifies stub
    ensures r == EntryOf(prefix, app, req)
    ensures stub.state == match r case None => old(stub.state) case Some(e) => old(stub.state)[e.key := e.value]
  {
    r := EntryOf(prefix, app, req);
    if r.Some? {
      stub.PutState(r.value.key, r.value.value);
    }
  }

  // ---------------------------------------------------------------- the verifying side

  /** What the client is asked to verify, with states marshalled. */
  datatype Claim =
    | ClientIs(id: Bytes, state: Bytes)
    | ConsensusIs(id: Bytes, revision: uint64, height: uint64, state: Bytes)
    | ConnectionIs(id: Bytes, state: Bytes)
    | ChannelIs(port: Bytes, channel: Bytes, state: Bytes)
    | CommitmentIs(port: Bytes, channel: Bytes, n: uint64, commitment: Bytes)
    | AckIs(port: Bytes, channel: Bytes, n: uint64, ack: Bytes)
    | NoReceipt(port: Bytes, channel: Bytes, n: uint64)
    | NextRecvIs(port: Bytes, channel: Bytes, next: uint64)

  function ClaimKey(c: Claim): Keys.Key {
    match c
    case ClientIs(id, _) => Keys.Client(id)
    case ConsensusIs(id, r, h, _) => Keys.Consensus(id, r, h)
    case ConnectionIs(id, _) => Keys.Connection(id)
    case ChannelIs(p, c, _) => Keys.Channel(p, c)
    case CommitmentIs(p, c, n, _) => Keys.PacketCommitment(p, c, n)
    case AckIs(p, c, n, _) => Keys.PacketAck(p, c, n)
    case NoReceipt(p, c, n) => Keys.PacketReceipt(p, c, n)
    case NextRecvIs(p, c, _) => Keys.NextRecv(p, c)
  }

  /** The expected value; `commit` is `CommitAcknowledgement`. */
  function ClaimValue(commit: Bytes -> Bytes, c: Claim): Bytes {
    match c
    case ClientIs(_, b) => b
    case ConsensusIs(_, _, _, b) => b
    case ConnectionIs(_, b) => b
    case ChannelIs(_, _, b) => b
    case CommitmentIs(_, _, _, b) => b
    case AckIs(_, _, _, a) => commit(a)
    case NoReceipt(_, _, _) => [0]
    case NextRecvIs(_, _, n) => BigEndian(n, 8)
  }

  /** The arguments that every verification has. */
  datatype Arguments = Arguments(revision: uint64, height: uint64, prefix: Option<Bytes>, proof: Option<Bytes>)

  /** `produceVerificationArgs`; the client's own height has revision 0. */
  function ProduceVerificationArgs(cs: ClientState, consensus: map<(uint64, uint64), ConsensusState>, args: Arguments)
    : Option<CommitmentProof>
  {
    if args.revision > 0 || cs.lastChaincodeHeader.sequence.value < args.height then None
    else if args.prefix.None? || args.proof.None? then None
    else
      match Decode(COMMITMENT_PROOF_SCHEMA, ZERO_COMMITMENT_PROOF, args.proof.value, 0)
      case Err(_) => None
      case Ok(p) => if (args.revision, args.height) in consensus then Some(p) else None
  }

  /** The eight verification functions. */
  function Verify(env: L.Env, commit: Bytes -> Bytes, cs: ClientState, consensus: map<(uint64, uint64), ConsensusState>,
                  args: Arguments, c: Claim): L.Verdict {
    match ProduceVerificationArgs(cs, consensus, args)
    case None => L.Reject
    case Some(proof) =>
      match L.Configs(env, cs.lastMspInfos.infos)
      case None => L.Reject
      case Some(configs) =>
        if args.prefix.None? then L.Reject
        else
          L.VerifyCommitment(env, cs.lastChaincodeInfo.chaincodeId, cs.lastChaincodeInfo.endorsementPolicy, proof,
                             Keys.Render(args.prefix.value, ClaimKey(c)), ClaimValue(commit, c), configs)
  }

  // ---------------------------------------------------------------- agreement

  /** The checks on the arguments that a verification makes before it looks at the proof. */
  predicate ArgumentsValid(cs: ClientState, consensus: map<(uint64, uint64), ConsensusState>, args: Arguments) {
    args.revision == 0 && args.height <= cs.lastChaincodeHeader.sequence.value && (args.revision, args.height) in consensus
    && args.prefix.Some? && args.proof.Some?
  }

  /** The arguments are taken if and only if they pass every one of these checks and the proof decodes, and then as that proof. */
  lemma ArgumentsExactly(cs: ClientState, consensus: map<(uint64, uint64), ConsensusState>, args: Arguments, p: CommitmentProof)
    ensures ProduceVerificationArgs(cs, consensus, args) == Some(p)
       <==> ArgumentsValid(cs, consensus, args)
            && Decode(COMMITMENT_PROOF_SCHEMA, ZERO_COMMITMENT_PROOF, args.proof.value, 0) == Ok(p)
  {
    hide Decode;
  }

  /** Valid arguments whose proof selects the write under the client's policy, configs and chaincode. */
  ghost predicate Certifies(env: L.Env, cs: ClientState, consensus: map<(uint64, uint64), ConsensusState>, args: Arguments, w: L.Write) {
    ArgumentsValid(cs, consensus, args)
    && Decode(COMMITMENT_PROOF_SCHEMA, ZERO_COMMITMENT_PROOF, args.proof.value, 0).Ok?
    && L.Selects(env, cs, Decode(COMMITMENT_PROOF_SCHEMA, ZERO_COMMITMENT_PROOF, args.proof.value, 0).value, w)
  }

  /** A claim is accepted if and only if the write that the arguments certify is the claim's key with its value. */
  lemma AcceptedExactly(env: L.Env, commit: Bytes -> Bytes, cs: ClientState, consensus: map<(uint64, uint64), ConsensusState>,
                        args: Arguments, c: Claim)
    ensures Verify(env, commit, cs, consensus, args, c) == L.Accept
       <==> args.prefix.Some?
            && Certifies(env, cs, consensus, args, L.Write(Keys.Render(args.prefix.value, ClaimKey(c)), ClaimValue(commit, c)))
  {
    hide Decode, Keys.Render, ClaimKey, ClaimValue, L.Configs, L.VerifyCommitment, L.ProposalSigned;
    var configs := L.Configs(env, cs.lastMspInfos.infos);
    var decoded := ProduceVerificationArgs(cs, consensus, args);
    if configs.Some? && decoded.Some? {
      L.CommitmentVerdict(env, cs.lastChaincodeInfo.chaincodeId, cs.lastChaincodeInfo.endorsementPolicy, decoded.value,
                          Keys.Render(args.prefix.value, ClaimKey(c)), ClaimValue(commit, c), configs.value);
    }
  }

  /** The arguments certify at most one write. */
  lemma CertifiedOnce(env: L.Env, cs: ClientState, consensus: map<(uint64, uint64), ConsensusState>, args: Arguments, v: L.Write, w: L.Write)
    requires Certifies(env, cs, consensus, args, v) && Certifies(env, cs, consensus, args, w)
    ensures v == w
  {
    hide Decode, L.Configs, L.ProposalSigned;
  }

  /** A relayer's proof reaches the check as it was built. */
  lemma ProofArrives(cs: ClientState, consensus: map<(uint64, uint64), ConsensusState>, args: Arguments, proof: CommitmentProof)
    requires args.proof == Some(CommitmentProofBytes(proof)) && |CommitmentProofBytes(proof)| < TWO63
    requires args.revision == 0 && args.height <= cs.lastChaincodeHeader.sequence.value
    requires args.prefix.Some? && (args.revision, args.height) in consensus
    ensures ProduceVerificationArgs(cs, consensus, args) == Some(NormalCommitmentProof(proof))
  {
    hide Decode, CommitmentProofBytes;
    CommitmentProofRoundTrip(proof);
  }

  /** What a request is about. */
  function Subject(req: Request): Keys.Key {
    match req
    case EndorseClientState(id) => Keys.Client(id)
    case EndorseConsensusState(id, h) => Keys.Consensus(id, 0, h)
    case EndorseConnectionState(id) => Keys.Connection(id)
    case EndorseChannelState(p, c) => Keys.Channel(p, c)
    case EndorsePacketCommitment(p, c, n) => Keys.PacketCommitment(p, c, n)
    case EndorsePacketAcknowledgement(p, c, n) => Keys.PacketAck(p, c, n)
    case EndorsePacketReceiptAbsence(p, c, n) => Keys.PacketReceipt(p, c, n)
    case EndorseNextSequenceRecv(p, c) => Keys.NextRecv(p, c)
  }

  lemma EntryKeyRenders(prefix: Bytes, req: Request)
    ensures EntryKey(prefix, req) == Keys.Render(prefix, Subject(req))
  {}

  /** A claim is true of the application. */
  predicate Holds(commit: Bytes -> Bytes, app: App, c: Claim) {
    match c
    case ClientIs(id, b) => Find(app.clients, id) == Some(b)
    case ConsensusIs(id, r, h, b) => Find(app.consensus, (id, r, h)) == Some(b)
    case ConnectionIs(id, b) => Find(app.connections, id) == Some(b)
    case ChannelIs(p, ch, b) => Find(app.channels, (p, ch)) == Some(b)
    case CommitmentIs(p, ch, n, b) => Find(app.commitments, (p, ch, n)) == Some(b)
    case AckIs(p, ch, n, a) => Find(app.acks, (p, ch, n)) == Some(commit(a))
    case NoReceipt(p, ch, n) => (p, ch, n) !in app.receipts
    case NextRecvIs(p, ch, n) => Find(app.nextRecv, (p, ch)) == Some(n)
  }

  /** On the same subject, the value endorsed is the value expected exactly when the claim is true. */
  lemma ValuesAgree(commit: Bytes -> Bytes, app: App, req: Request, c: Claim)
    requires Subject(req) == ClaimKey(c)
    ensures Read(app, req) == Some(ClaimValue(commit, c)) <==> Holds(commit, app, c)
  {
    hide BigEndian;
    if c.NextRecvIs? {
      match Find(app.nextRecv, (c.port, c.channel))
      case None =>
      case Some(n) =>
        if BigEndian(n, 8) == BigEndian(c.next, 8) {
          BigEndianInjective(n, c.next);
        }
    }
  }

  /**
   When the certified write is the entry of a request, a claim is accepted if and only if it
   is about the same subject and true of the application that endorsed it. So each endorsing
   function agrees with its verifying function, and with no other kind, identifier or number.
   */
  lemma EndorsedAgreement(env: L.Env, commit: Bytes -> Bytes, cs: ClientState, consensus: map<(uint64, uint64), ConsensusState>,
                          args: Arguments, prefix: Bytes, app: App, req: Request, c: Claim)
    requires args.prefix == Some(prefix) && Keys.Plain(ClaimKey(c))
    requires EntryOf(prefix, app, req).Some? && Certifies(env, cs, consensus, args, EntryOf(prefix, app, req).value)
    ensures Verify(env, commit, cs, consensus, args, c) == L.Accept <==> Subject(req) == ClaimKey(c) && Holds(commit, app, c)
  {
    hide Certifies, Verify, Keys.Render, Keys.Plain, Holds, Read, ClaimValue, Subject, ClaimKey, EntryKey;
    var e := EntryOf(prefix, app, req).value;
    var w := L.Write(Keys.Render(prefix, ClaimKey(c)), ClaimValue(commit, c));
    AcceptedExactly(env, commit, cs, consensus, args, c);
    EntryKeyRenders(prefix, req);
    if Certifies(env, cs, consensus, args, w) {
      CertifiedOnce(env, cs, consensus, args, e, w);
      Keys.KeysNeverCollide(prefix, Subject(req), ClaimKey(c));
      ValuesAgree(commit, app, req, c);
    } else if Subject(req) == ClaimKey(c) {
      ValuesAgree(commit, app, req, c);
    }
  }

  // ---------------------------------------------------------------- over whole runs

  /** What writes to the chain's ledger: an endorsement on the application of the moment, or anything else. */
  datatype Occasion = Endorsing(app: App, req: Request) | Writing(key: Keys.Key, value: Bytes)

  /** The kinds of key that only the endorsing functions of claims write. */
  predicate IsClaimKey(k: Keys.Key) {
    k.Client? || k.Consensus? || k.Connection? || k.Channel? || k.PacketCommitment? || k.PacketAck?
    || k.PacketReceipt? || k.NextRecv?
  }

  predicate Proper(o: Occasion) {
    o.Writing? ==> !IsClaimKey(o.key)
  }

  function WriteOf(prefix: Bytes, o: Occasion): Option<L.Write> {
    match o
    case Endorsing(app, req) => EntryOf(prefix, app, req)
    case Writing(k, v) => Some(L.Write(Keys.Render(prefix, k), v))
  }

  /** Whether a write was made on some occasion of a run. */
  predicate MadeIn(prefix: Bytes, run: seq<Occasion>, w: L.Write) {
    exists i :: 0 <= i < |run| && WriteOf(prefix, run[i]) == Some(w)
  }

  /** The claim was true of the application when it was endorsed. */
  predicate TrueAt(commit: Bytes -> Bytes, o: Occasion, c: Claim) {
    o.Endorsing? && Subject(o.req) == ClaimKey(c) && Holds(commit, o.app, c)
  }

  /**
   Over any run of the chain: if policies certify only what was written in the run, an
   accepted claim was true of the application at an endorsement of that run.
   */
  lemma AcceptedWasTrue(env: L.Env, commit: Bytes -> Bytes, cs: ClientState, consensus: map<(uint64, uint64), ConsensusState>,
                        args: Arguments, prefix: Bytes, run: seq<Occasion>, c: Claim)
    requires args.prefix == Some(prefix) && Keys.Plain(ClaimKey(c))
    requires forall i :: 0 <= i < |run| ==> Proper(run[i])
    requires forall w :: Certifies(env, cs, consensus, args, w) ==> MadeIn(prefix, run, w)
    requires Verify(env, commit, cs, consensus, args, c) == L.Accept
    ensures exists i :: 0 <= i < |run| && TrueAt(commit, run[i], c)
  {
    hide Certifies, Verify, Keys.Render, Keys.Plain, Proper, WriteOf, TrueAt, ClaimKey, ClaimValue;
    var w := L.Write(Keys.Render(prefix, ClaimKey(c)), ClaimValue(commit, c));
    AcceptedExactly(env, commit, cs, consensus, args, c);
    var i :| 0 <= i < |run| && WriteOf(prefix, run[i]) == Some(w);
    AcceptedOccasion(env, commit, cs, consensus, args, prefix, run[i], c);
  }

  lemma AcceptedOccasion(env: L.Env, commit: Bytes -> Bytes, cs: ClientState, consensus: map<(uint64, uint64), ConsensusState>,
                         args: Arguments, prefix: Bytes, o: Occasion, c: Claim)
    requires args.prefix == Some(prefix) && Keys.Plain(ClaimKey(c)) && Proper(o)
    requires WriteOf(prefix, o) == Some(L.Write(Keys.Render(prefix, ClaimKey(c)), ClaimValue(commit, c)))
    requires Verify(env, commit, cs, consensus, args, c) == L.Accept
    ensures TrueAt(commit, o, c)
  {
    hide Certifies, Verify, Keys.Render, Keys.Plain, Holds, EntryOf, Subject, ClaimKey, ClaimValue;
    AcceptedExactly(env, commit, cs, consensus, args, c);
    match o
    case Endorsing(app, req) =>
      EndorsedAgreement(env, commit, cs, consensus, args, prefix, app, req, c);
    case Writing(k, v) =>
      Keys.KeysNeverCollide(prefix, k, ClaimKey(c));
      ClaimsHaveClaimKeys(c);
  }

  lemma ClaimsHaveClaimKeys(c: Claim)
    ensures IsClaimKey(ClaimKey(c))
  {}

  /** An entry endorsed for a claim never passes for a sequence commitment. */
  lemma NoSequenceFromClaims(env: L.Env, cs: ClientState, prefix: Bytes, app: App, req: Request, h: ChaincodeHeader)
    requires EntryOf(prefix, app, req).Some?
    requires L.Selects(env, cs, h.proof, EntryOf(prefix, app, req).value)
    ensures L.VerifyChaincodeHeader(env, cs, h) != L.Accept
  {
    hide L.VerifyChaincodeHeader, L.Configs, L.ProposalSigned, Keys.Render, Keys.Plain, Read, Subject, SequenceBytes, EntryKey;
    L.ChaincodeHeaderVerdict(env, cs, h);
    EntryKeyRenders(prefix, req);
    SequenceKeyDiffers(prefix, req, h.sequence.value);
  }

  lemma SequenceKeyDiffers(prefix: Bytes, req: Request, n: uint64)
    ensures Keys.Render(prefix, Subject(req)) != Keys.MakeSequenceCommitmentEntryKey(n)
  {
    var k := Keys.SequenceCommitment(n);
    assert Keys.Render(prefix, k) == Keys.MakeSequenceCommitmentEntryKey(n);
    hide Keys.Render, Keys.MakeSequenceCommitmentEntryKey;
    if Keys.Render(prefix, Subject(req)) == Keys.Render(prefix, k) {
      Keys.KeysNeverCollide(prefix, Subject(req), k);
    }
  }
}
