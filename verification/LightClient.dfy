/**
 The Fabric light client: the checks of `checkValidity`, the effect of `update`, and
 why whatever passes the first can be applied by the second. Policy evaluation, MSP
 setup and the parsing of Fabric's own messages are parameters.
 */
module LightClient {
  import opened Basics
  import opened Messages
  import opened Codec
  import opened MspTable
  import Keys

  // ---------------------------------------------------------------- what is taken as given

  datatype SignedData = SignedData(data: Bytes, identity: Bytes, signature: Bytes)

  datatype Write = Write(key: Bytes, value: Bytes)

  /** A transaction's chaincode ID (nil when absent) and its writes, by namespace. */
  datatype RwSet = RwSet(chaincodeId: Option<ChaincodeID>, namespaces: seq<seq<Write>>)

  /** `getPolicyEvaluator`: an error, a failed type assertion (a panic), or an evaluator. */
  datatype Evaluator = NoEvaluator | WrongPolicyType | Evaluator(handle: nat)

  datatype Env = Env(
    parseConfig: Bytes -> Option<nat>,               // proto.Unmarshal of an MSPConfig
    evaluator: (Bytes, seq<nat>) -> Evaluator,       // policy bytes and MSP configs
    satisfied: (nat, seq<SignedData>) -> bool,       // policy.EvaluateSignedData
    rwset: Bytes -> Option<RwSet>)                   // getTxReadWriteSetFromProposalResponsePayload

  datatype Verdict = Accept | Reject | Panic

  // ---------------------------------------------------------------- basic validation

  /** `MSPHeader.ValidateBasic`. */
  predicate ValidHeader(mh: MSPHeader) {
    mh.mspId != [] && mh.proof.Some? &&
    if mh.typ == CREATE then mh.config.Some? && mh.policy.Some?
    else if mh.typ == UPDATE_POLICY then mh.config.None? && mh.policy.Some?
    else if mh.typ == UPDATE_CONFIG then mh.config.Some? && mh.policy.None?
    else mh.typ == FREEZE && mh.config.None? && mh.policy.None?
  }

  predicate AscendingIds(hs: seq<MSPHeader>) {
    forall i, j :: 0 <= i < j < |hs| ==> Less(hs[i].mspId, hs[j].mspId)
  }

  predicate ValidBatch(hs: seq<MSPHeader>) {
    (forall i :: 0 <= i < |hs| ==> ValidHeader(hs[i])) && AscendingIds(hs)
  }

  /**
   `MSPHeaders.ValidateBasic`: with a set of seen IDs and the previous ID it checks that
   every header is valid and that the IDs strictly ascend.
   */
  method ValidateBatch(hs: seq<MSPHeader>) returns (ok: bool)
    ensures ok <==> ValidBatch(hs)
  {
    var seen: set<Bytes>, prev: Bytes := {}, [];
    for i := 0 to |hs|
      invariant seen == set k | 0 <= k < i :: hs[k].mspId
      invariant prev == if i == 0 then [] else hs[i - 1].mspId
      invariant ValidBatch(hs[..i])
    {
      var mh := hs[i];
      if !ValidHeader(mh) {
        return false;
      }
      if mh.mspId in seen || Less(mh.mspId, prev) {
        OutOfOrder(hs, i);
        return false;
      }
      assert i > 0 ==> hs[i - 1].mspId in seen;
      LastIsGreatest(hs[..i], mh);
      assert hs[..i + 1] == hs[..i] + [mh];
      seen, prev := seen + {mh.mspId}, mh.mspId;
    }
    assert hs[..|hs|] == hs;
    return true;
  }

  lemma OutOfOrder(hs: seq<MSPHeader>, i: nat)
    requires i < |hs|
    requires (exists k :: 0 <= k < i && hs[k].mspId == hs[i].mspId) || (i > 0 && Less(hs[i].mspId, hs[i - 1].mspId))
    ensures !AscendingIds(hs)
  {
    if AscendingIds(hs) {
      if k :| 0 <= k < i && hs[k].mspId == hs[i].mspId {
        LessIrreflexive(hs[i].mspId);
        assert false;
      } else {
        LessAsymmetric(hs[i].mspId, hs[i - 1].mspId);
      }
    }
  }

  lemma LastIsGreatest(hs: seq<MSPHeader>, mh: MSPHeader)
    requires AscendingIds(hs)
    requires hs != [] ==> !Less(mh.mspId, hs[|hs| - 1].mspId) && mh.mspId != hs[|hs| - 1].mspId
    ensures AscendingIds(hs + [mh])
  {
    if hs != [] {
      var last := hs[|hs| - 1].mspId;
      LessTotal(mh.mspId, last);
      forall k | 0 <= k < |hs|
        ensures Less(hs[k].mspId, mh.mspId)
      {
        if k < |hs| - 1 {
          LessTransitive(hs[k].mspId, last, mh.mspId);
        }
      }
    }
  }

  /** `Header.ValidateBasic`. */
  predicate ValidBasic(h: Header) {
    (h.chaincodeHeader.Some? || h.chaincodeInfo.Some? || h.mspHeaders.Some?)
    && (h.mspHeaders.Some? ==> ValidBatch(h.mspHeaders.value.headers))
  }

  // ---------------------------------------------------------------- verification

  /** `GetMSPPBConfigs`: the parsed configs of the entries that are not frozen, or an error. */
  function Configs(env: Env, infos: Infos): Option<seq<nat>> {
    if infos == [] then Some([])
    else if infos[0].freezed then Configs(env, infos[1..])
    else if infos[0].config.None? then None
    else
      match env.parseConfig(infos[0].config.value)
      case None => None
      case Some(c) =>
        match Configs(env, infos[1..])
        case None => None
        case Some(cs) => Some([c] + cs)
  }

  /** Every entry that is not frozen has a config, and it parses. */
  predicate AllParse(env: Env, infos: Infos) {
    forall k :: 0 <= k < |infos| && !infos[k].freezed ==> infos[k].config.Some? && env.parseConfig(infos[k].config.value).Some?
  }

  predicate Increasing(ks: seq<nat>) {
    forall i, j :: 0 <= i < j < |ks| ==> ks[i] < ks[j]
  }

  /** The numbers are the indices of the entries that are not frozen, in order. */
  ghost predicate UnfrozenAt(infos: Infos, ks: seq<nat>) {
    Increasing(ks) && forall k: nat :: k in ks <==> k < |infos| && !infos[k].freezed
  }

  /** The configs are, in order, what the configs of exactly those entries parse to. */
  ghost predicate ParsedAt(env: Env, infos: Infos, ks: seq<nat>, configs: seq<nat>) {
    UnfrozenAt(infos, ks) && |configs| == |ks| && forall j :: 0 <= j < |ks| ==> ParsesTo(env, infos, ks[j], configs[j])
  }

  predicate ParsesTo(env: Env, infos: Infos, k: nat, c: nat) {
    k < |infos| && infos[k].config.Some? && env.parseConfig(infos[k].config.value) == Some(c)
  }

  function ShiftOne(ks: seq<nat>): (r: seq<nat>)
    ensures |r| == |ks| && forall j :: 0 <= j < |ks| ==> r[j] == ks[j] + 1
  {
    seq(|ks|, j requires 0 <= j < |ks| => ks[j] + 1)
  }

  lemma ShiftUnfrozen(infos: Infos, ks: seq<nat>)
    requires infos != [] && UnfrozenAt(infos[1..], ks)
    ensures UnfrozenAt(infos, if infos[0].freezed then ShiftOne(ks) else [0] + ShiftOne(ks))
  {
    var shifted := ShiftOne(ks);
    var r := if infos[0].freezed then shifted else [0] + shifted;
    forall k: nat
      ensures k in r <==> k < |infos| && !infos[k].freezed
    {
      assert k in shifted <==> k > 0 && k - 1 in ks by {
        if k > 0 && k - 1 in ks {
          var j :| 0 <= j < |ks| && ks[j] == k - 1;
          assert shifted[j] == k;
        }
      }
      if 0 < k < |infos| {
        assert infos[k] == infos[1..][k - 1];
      }
    }
  }

  lemma {:induction false} ConfigsParse(env: Env, infos: Infos)
    ensures Configs(env, infos).Some? <==> AllParse(env, infos)
    decreases |infos|
  {
    if infos != [] {
      var rest := infos[1..];
      ConfigsParse(env, rest);
      assert forall k :: 0 < k < |infos| ==> infos[k] == rest[k - 1];
      assert forall k :: 0 <= k < |rest| ==> rest[k] == infos[k + 1];
    }
  }

  lemma ParsesFirst(env: Env, infos: Infos, c: nat)
    requires infos != [] && infos[0].config.Some? && env.parseConfig(infos[0].config.value) == Some(c)
    ensures ParsesTo(env, infos, 0, c)
  {}

  lemma ParsesLater(env: Env, infos: Infos, k: nat, c: nat)
    requires infos != [] && ParsesTo(env, infos[1..], k, c)
    ensures ParsesTo(env, infos, k + 1, c)
  {}

  lemma ShiftParsed(env: Env, infos: Infos, ks: seq<nat>, configs: seq<nat>)
    requires infos != [] && infos[0].freezed && ParsedAt(env, infos[1..], ks, configs)
    ensures ParsedAt(env, infos, ShiftOne(ks), configs)
  {
    hide UnfrozenAt, ParsesTo;
    ShiftUnfrozen(infos, ks);
    forall j | 0 <= j < |ks|
      ensures ParsesTo(env, infos, ShiftOne(ks)[j], configs[j])
    {
      ParsesLater(env, infos, ks[j], configs[j]);
    }
  }

  lemma PrependParsed(env: Env, infos: Infos, ks: seq<nat>, configs: seq<nat>, c: nat)
    requires infos != [] && !infos[0].freezed && ParsedAt(env, infos[1..], ks, configs)
    requires infos[0].config.Some? && env.parseConfig(infos[0].config.value) == Some(c)
    ensures ParsedAt(env, infos, [0] + ShiftOne(ks), [c] + configs)
  {
    hide UnfrozenAt, ParsesTo;
    ParsesFirst(env, infos, c);
    ShiftUnfrozen(infos, ks);
    var r, all := [0] + ShiftOne(ks), [c] + configs;
    forall j | 0 <= j < |r|
      ensures ParsesTo(env, infos, r[j], all[j])
    {
      if j > 0 {
        var i := j - 1;
        assert ParsesTo(env, infos[1..], ks[i], configs[i]);
        ParsesLater(env, infos, ks[i], configs[i]);
        assert r[j] == ks[i] + 1 && all[j] == configs[i];
      }
    }
  }

  /** The configs exist if and only if every unfrozen entry's parses, and then they are those, each once and in order. */
  lemma {:induction false} ConfigsExactly(env: Env, infos: Infos) returns (ks: seq<nat>)
    ensures Configs(env, infos).Some? <==> AllParse(env, infos)
    ensures Configs(env, infos).Some? ==> ParsedAt(env, infos, ks, Configs(env, infos).value)
    decreases |infos|
  {
    hide AllParse, ParsedAt;
    ConfigsParse(env, infos);
    ks := [];
    if infos == [] {
      NoneParsed(env);
    } else if Configs(env, infos).Some? {
      ks := ConfigsExactly(env, infos[1..]);
      var rest := Configs(env, infos[1..]).value;
      if infos[0].freezed {
        ShiftParsed(env, infos, ks, rest);
        ks := ShiftOne(ks);
      } else {
        PrependParsed(env, infos, ks, rest, env.parseConfig(infos[0].config.value).value);
        ks := [0] + ShiftOne(ks);
      }
    }
  }

  lemma NoneParsed(env: Env)
    ensures ParsedAt(env, [], [], [])
  {}

  method GetMSPPBConfigs(env: Env, infos: Infos) returns (r: Option<seq<nat>>)
    ensures r == Configs(env, infos)
    ensures r.Some? <==> AllParse(env, infos)
    ensures r.Some? ==> exists ks :: ParsedAt(env, infos, ks, r.value)
  {
    ghost var ks := ConfigsExactly(env, infos);
    hide AllParse, ParsedAt;
    var configs: seq<nat> := [];
    assert infos[0..] == infos;
    assert Configs(env, infos).Some? ==> [] + Configs(env, infos).value == Configs(env, infos).value;
    for i := 0 to |infos|
      invariant Configs(env, infos) == Prepend(configs, Configs(env, infos[i..]))
    {
      var mi := infos[i];
      ghost var rest := Configs(env, infos[i + 1..]);
      assert infos[i..][1..] == infos[i + 1..];
      if mi.freezed {
        continue;
      }
      if mi.config.None? {
        return None;
      }
      var c := env.parseConfig(mi.config.value);
      if c.None? {
        return None;
      }
      assert rest.Some? ==> configs + ([c.value] + rest.value) == configs + [c.value] + rest.value;
      configs := configs + [c.value];
    }
    assert configs + [] == configs;
    return Some(configs);
  }

  ghost function Prepend(a: seq<nat>, b: Option<seq<nat>>): Option<seq<nat>> {
    match b case None => None case Some(s) => Some(a + s)
  }

  /** `makeSignedDataListWithMessageProof`, with as many identities as signatures. */
  function MessageSignatures(proof: MessageProof, value: Bytes): seq<SignedData>
    requires |proof.signatures| <= |proof.identities|
  {
    seq(|proof.signatures|, i requires 0 <= i < |proof.signatures| =>
      SignedData(value, proof.identities[i], proof.signatures[i]))
  }

  /** `VerifyEndorsedMessage`. Fewer identities than signatures is an index out of range. */
  function VerifyMessage(env: Env, policy: Option<Bytes>, proof: MessageProof, value: Bytes, configs: seq<nat>): Verdict {
    match env.evaluator(Content(policy), configs)
    case NoEvaluator => Reject
    case WrongPolicyType => Panic
    case Evaluator(p) =>
      if |proof.identities| < |proof.signatures| then Panic
      else if env.satisfied(p, MessageSignatures(proof, value)) then Accept
      else Reject
  }

  /** `CommitmentProof.ToSignedData`: each endorser signs the proposal followed by its identity. */
  function ProposalSignatures(proof: CommitmentProof): seq<SignedData>
    requires |proof.signatures| <= |proof.identities|
  {
    seq(|proof.signatures|, i requires 0 <= i < |proof.signatures| =>
      SignedData(Content(proof.proposal) + proof.identities[i], proof.identities[i], proof.signatures[i]))
  }

  /** `ensureWriteSetIncludesCommitment`: a namespace index out of range is a panic. */
  function SelectedWrite(rw: RwSet, proof: CommitmentProof, key: Bytes, value: Bytes): Verdict {
    if |rw.namespaces| <= proof.nsIndex then Panic
    else
      var writes := rw.namespaces[proof.nsIndex];
      if |writes| <= proof.writeSetIndex then Reject
      else if writes[proof.writeSetIndex] == Write(key, value) then Accept
      else Reject
  }

  /** `VerifyEndorsedCommitment`. */
  function VerifyCommitment(env: Env, ccid: ChaincodeID, policy: Option<Bytes>, proof: CommitmentProof,
                            key: Bytes, value: Bytes, configs: seq<nat>): Verdict {
    match env.evaluator(Content(policy), configs)
    case NoEvaluator => Reject
    case WrongPolicyType => Panic
    case Evaluator(p) =>
      if |proof.identities| < |proof.signatures| then Panic
      else if !env.satisfied(p, ProposalSignatures(proof)) then Reject
      else
        match env.rwset(Content(proof.proposal))
        case None => Reject
        case Some(rw) =>
          if rw.chaincodeId.None? then Panic
          else if rw.chaincodeId.value != ccid then Reject
          else SelectedWrite(rw, proof, key, value)
  }

  // ---------------------------------------------------------------- what a verdict means

  /** The policy is satisfied by the proof's signatures, each over the message and by the identity beside it. */
  ghost predicate MessageSigned(env: Env, policy: Option<Bytes>, proof: MessageProof, value: Bytes, configs: seq<nat>) {
    exists p, sigs :: env.evaluator(Content(policy), configs) == Evaluator(p)
                      && |sigs| == |proof.signatures| <= |proof.identities|
                      && (forall i :: 0 <= i < |sigs| ==> sigs[i] == SignedData(value, proof.identities[i], proof.signatures[i]))
                      && env.satisfied(p, sigs)
  }

  lemma MessageVerdict(env: Env, policy: Option<Bytes>, proof: MessageProof, value: Bytes, configs: seq<nat>)
    ensures VerifyMessage(env, policy, proof, value, configs) == Accept <==> MessageSigned(env, policy, proof, value, configs)
    ensures VerifyMessage(env, policy, proof, value, configs) == Panic
       <==> env.evaluator(Content(policy), configs) == WrongPolicyType
            || (env.evaluator(Content(policy), configs).Evaluator? && |proof.identities| < |proof.signatures|)
  {
    if |proof.signatures| <= |proof.identities| {
      var all := MessageSignatures(proof, value);
      assert forall sigs: seq<SignedData> :: |sigs| == |all| && (forall i :: 0 <= i < |sigs| ==> sigs[i] == all[i]) ==> sigs == all;
      if MessageSigned(env, policy, proof, value, configs) {
        var p, sigs :| env.evaluator(Content(policy), configs) == Evaluator(p)
                       && |sigs| == |proof.signatures| <= |proof.identities|
                       && (forall i :: 0 <= i < |sigs| ==> sigs[i] == SignedData(value, proof.identities[i], proof.signatures[i]))
                       && env.satisfied(p, sigs);
        assert sigs == all;
      }
    }
  }

  /** The policy is satisfied by the proof's signatures, each over the proposal followed by the identity beside it. */
  ghost predicate ProposalSigned(env: Env, policy: Option<Bytes>, proof: CommitmentProof, configs: seq<nat>) {
    exists p, sigs :: env.evaluator(Content(policy), configs) == Evaluator(p)
                      && |sigs| == |proof.signatures| <= |proof.identities|
                      && (forall i :: 0 <= i < |sigs| ==>
                            sigs[i] == SignedData(Content(proof.proposal) + proof.identities[i], proof.identities[i], proof.signatures[i]))
                      && env.satisfied(p, sigs)
  }

  lemma ProposalVerdict(env: Env, policy: Option<Bytes>, proof: CommitmentProof, configs: seq<nat>)
    ensures ProposalSigned(env, policy, proof, configs)
       <==> env.evaluator(Content(policy), configs).Evaluator? && |proof.signatures| <= |proof.identities|
            && env.satisfied(env.evaluator(Content(policy), configs).handle, ProposalSignatures(proof))
  {
    if ProposalSigned(env, policy, proof, configs) {
      var p, sigs :| env.evaluator(Content(policy), configs) == Evaluator(p)
                     && |sigs| == |proof.signatures| <= |proof.identities|
                     && (forall i :: 0 <= i < |sigs| ==>
                           sigs[i] == SignedData(Content(proof.proposal) + proof.identities[i], proof.identities[i], proof.signatures[i]))
                     && env.satisfied(p, sigs);
      assert sigs == ProposalSignatures(proof);
    }
  }

  /** The endorsed transaction of a proof selects a write of the given chaincode. */
  predicate SelectsIn(rw: RwSet, ccid: ChaincodeID, proof: CommitmentProof, w: Write) {
    rw.chaincodeId == Some(ccid)
    && proof.nsIndex < |rw.namespaces| && proof.writeSetIndex < |rw.namespaces[proof.nsIndex]|
    && rw.namespaces[proof.nsIndex][proof.writeSetIndex] == w
  }

  /** A commitment is accepted if and only if its proof is signed under the policy and selects the key with the value. */
  lemma CommitmentVerdict(env: Env, ccid: ChaincodeID, policy: Option<Bytes>, proof: CommitmentProof, key: Bytes, value: Bytes, configs: seq<nat>)
    ensures VerifyCommitment(env, ccid, policy, proof, key, value, configs) == Accept
       <==> ProposalSigned(env, policy, proof, configs) && env.rwset(Content(proof.proposal)).Some?
            && SelectsIn(env.rwset(Content(proof.proposal)).value, ccid, proof, Write(key, value))
    ensures VerifyCommitment(env, ccid, policy, proof, key, value, configs) == Panic
       <==> env.evaluator(Content(policy), configs) == WrongPolicyType
            || (env.evaluator(Content(policy), configs).Evaluator? && |proof.identities| < |proof.signatures|)
            || (ProposalSigned(env, policy, proof, configs) && env.rwset(Content(proof.proposal)).Some?
                && (var rw := env.rwset(Content(proof.proposal)).value;
                    rw.chaincodeId.None? || (rw.chaincodeId == Some(ccid) && |rw.namespaces| <= proof.nsIndex)))
  {
    hide ProposalSigned, ProposalSignatures;
    ProposalVerdict(env, policy, proof, configs);
  }

  function SignBytes(mh: MSPHeader): Bytes {
    MSPHeaderBytes(mh.(proof := None))
  }

  function InfoSignBytes(info: ChaincodeInfo): Bytes {
    ChaincodeInfoBytes(info.(proof := None))
  }

  /** `VerifyMSPHeader` and the four functions it dispatches to. */
  function VerifyMSPHeader(env: Env, cs: ClientState, mh: MSPHeader): Verdict {
    if !KnownType(mh) || mh.proof.None? then Reject
    else
      var infos := cs.lastMspInfos.infos;
      var idx := IndexOf(infos, mh.mspId);
      if mh.typ == CREATE && idx != -1 then Reject
      else if mh.typ != CREATE && (idx == -1 || infos[idx].freezed) then Reject
      else
        match Configs(env, infos)
        case None => Reject
        case Some(configs) =>
          var policy := if mh.typ == UPDATE_CONFIG then infos[idx].policy else cs.lastChaincodeInfo.ibcPolicy;
          VerifyMessage(env, policy, mh.proof.value, SignBytes(mh), configs)
  }

  function VerifyAll(env: Env, cs: ClientState, hs: seq<MSPHeader>): Verdict {
    if hs == [] then Accept
    else
      var v := VerifyMSPHeader(env, cs, hs[0]);
      if v == Accept then VerifyAll(env, cs, hs[1..]) else v
  }

  /** `VerifyMSPHeaders`: every header against the same client state, stopping at the first failure. */
  method VerifyMSPHeaders(env: Env, cs: ClientState, hs: seq<MSPHeader>) returns (v: Verdict)
    ensures v == VerifyAll(env, cs, hs)
    ensures v == Accept <==> forall h :: h in hs ==> VerifyMSPHeader(env, cs, h) == Accept
  {
    for i := 0 to |hs|
      invariant VerifyAll(env, cs, hs) == VerifyAll(env, cs, hs[i..])
      invariant forall k :: 0 <= k < i ==> VerifyMSPHeader(env, cs, hs[k]) == Accept
    {
      assert hs[i..][1..] == hs[i + 1..];
      v := VerifyMSPHeader(env, cs, hs[i]);
      if v != Accept {
        return v;
      }
    }
    return Accept;
  }

  lemma {:induction false} VerifyAllEach(env: Env, cs: ClientState, hs: seq<MSPHeader>)
    ensures VerifyAll(env, cs, hs) == Accept <==> forall h :: h in hs ==> VerifyMSPHeader(env, cs, h) == Accept
  {
    hide VerifyMSPHeader;
    if hs != [] {
      VerifyAllEach(env, cs, hs[1..]);
      assert hs == [hs[0]] + hs[1..];
    }
  }

  /** `VerifyChaincodeHeader`. */
  function VerifyChaincodeHeader(env: Env, cs: ClientState, h: ChaincodeHeader): Verdict {
    match Configs(env, cs.lastMspInfos.infos)
    case None => Reject
    case Some(configs) =>
      VerifyCommitment(env, cs.lastChaincodeInfo.chaincodeId, cs.lastChaincodeInfo.endorsementPolicy, h.proof,
                       Keys.MakeSequenceCommitmentEntryKey(h.sequence.value), SequenceBytes(h.sequence), configs)
  }

  /** `VerifyChaincodeInfo`. */
  function VerifyChaincodeInfo(env: Env, cs: ClientState, info: ChaincodeInfo): Verdict {
    if info.proof.None? then Reject
    else
      match Configs(env, cs.lastMspInfos.infos)
      case None => Reject
      case Some(configs) =>
        VerifyMessage(env, cs.lastChaincodeInfo.ibcPolicy, info.proof.value, InfoSignBytes(info), configs)
  }

  /** The height and time checks: strictly later, and the next height, which wraps at 2^64. */
  predicate Follows(last: Sequence, next: Sequence) {
    next.timestamp > last.timestamp && next.value == (last.value + 1) % TWO64
  }

  /** `checkValidity`. */
  function CheckValidity(env: Env, cs: ClientState, h: Header): Verdict {
    if !ValidBasic(h) then Reject
    else
      var v1 := match h.chaincodeHeader
                case None => Accept
                case Some(ch) =>
                  if !Follows(cs.lastChaincodeHeader.sequence, ch.sequence) then Reject
                  else VerifyChaincodeHeader(env, cs, ch);
      if v1 != Accept then v1
      else
        var v2 := match h.chaincodeInfo
                  case None => Accept
                  case Some(info) =>
                    if Content(info.endorsementPolicy) == [] then Reject
                    else VerifyChaincodeInfo(env, cs, info);
        if v2 != Accept then v2
        else
          match h.mspHeaders
          case None => Accept
          case Some(mhs) => VerifyAll(env, cs, mhs.headers)
  }

  // ---------------------------------------------------------------- update

  datatype Update = Update(client: ClientState, consensus: Option<ConsensusState>)

  /** `update`: None is a panic. */
  function Apply(cs: ClientState, h: Header): Option<Update> {
    if !ValidBasic(h) then None
    else
      var cs1 := match h.chaincodeInfo
                 case None => cs
                 case Some(info) => cs.(lastChaincodeInfo := info);
      var cs2 := match h.chaincodeHeader
                 case None => cs1
                 case Some(ch) => cs1.(lastChaincodeHeader := ch);
      var cons := match h.chaincodeHeader
                  case None => None
                  case Some(ch) => Some(ConsensusState(ch.sequence.timestamp));
      match h.mspHeaders
      case None => Some(Update(cs2, cons))
      case Some(mhs) =>
        match ApplyAll(cs2.lastMspInfos.infos, mhs.headers)
        case None => None
        case Some(infos) => Some(Update(cs2.(lastMspInfos := MSPInfos(infos)), cons))
  }

  datatype Outcome = Updated(update: Update) | Rejected | Panicked

  /** `CheckHeaderAndUpdateState`. */
  function CheckHeaderAndUpdateState(env: Env, cs: ClientState, h: Header): Outcome {
    match CheckValidity(env, cs, h)
    case Reject => Rejected
    case Panic => Panicked
    case Accept =>
      match Apply(cs, h)
      case None => Panicked
      case Some(u) => Updated(u)
  }

  // ---------------------------------------------------------------- what acceptance means

  /**
   The change a header asks for was accepted under this state alone: its unfrozen
   configs, and the IBC policy, or for a config change the policy of that MSP.
   */
  ghost predicate Authorized(env: Env, cs: ClientState, mh: MSPHeader) {
    var infos := cs.lastMspInfos.infos;
    var idx := IndexOf(infos, mh.mspId);
    mh.proof.Some? && Configs(env, infos).Some?
    && (mh.typ == UPDATE_CONFIG ==> idx >= 0)
    && MessageSigned(env, if mh.typ == UPDATE_CONFIG then infos[idx].policy else cs.lastChaincodeInfo.ibcPolicy,
                     mh.proof.value, SignBytes(mh), Configs(env, infos).value)
  }

  ghost predicate InfoAuthorized(env: Env, cs: ClientState, info: ChaincodeInfo) {
    info.proof.Some? && Configs(env, cs.lastMspInfos.infos).Some?
    && MessageSigned(env, cs.lastChaincodeInfo.ibcPolicy, info.proof.value, InfoSignBytes(info),
                     Configs(env, cs.lastMspInfos.infos).value)
  }

  /** A proof selects a write that the client's endorsement policy, configs and chaincode stand for. */
  ghost predicate Selects(env: Env, cs: ClientState, proof: CommitmentProof, w: Write) {
    Configs(env, cs.lastMspInfos.infos).Some?
    && ProposalSigned(env, cs.lastChaincodeInfo.endorsementPolicy, proof, Configs(env, cs.lastMspInfos.infos).value)
    && env.rwset(Content(proof.proposal)).Some?
    && SelectsIn(env.rwset(Content(proof.proposal)).value, cs.lastChaincodeInfo.chaincodeId, proof, w)
  }

  /** A chaincode header's proof selects the commitment of its own sequence. */
  ghost predicate SequenceEndorsed(env: Env, cs: ClientState, ch: ChaincodeHeader) {
    Selects(env, cs, ch.proof, Write(Keys.MakeSequenceCommitmentEntryKey(ch.sequence.value), SequenceBytes(ch.sequence)))
  }

  lemma ChaincodeHeaderVerdict(env: Env, cs: ClientState, ch: ChaincodeHeader)
    ensures VerifyChaincodeHeader(env, cs, ch) == Accept <==> SequenceEndorsed(env, cs, ch)
  {
    hide VerifyCommitment, Configs, ProposalSigned, SequenceBytes, Keys.MakeSequenceCommitmentEntryKey;
    if Configs(env, cs.lastMspInfos.infos).Some? {
      CommitmentVerdict(env, cs.lastChaincodeInfo.chaincodeId, cs.lastChaincodeInfo.endorsementPolicy, ch.proof,
                        Keys.MakeSequenceCommitmentEntryKey(ch.sequence.value), SequenceBytes(ch.sequence),
                        Configs(env, cs.lastMspInfos.infos).value);
    }
  }

  lemma InfoVerdict(env: Env, cs: ClientState, info: ChaincodeInfo)
    ensures VerifyChaincodeInfo(env, cs, info) == Accept <==> InfoAuthorized(env, cs, info)
  {
    hide VerifyMessage, MessageSigned, Configs, InfoSignBytes;
    if info.proof.Some? && Configs(env, cs.lastMspInfos.infos).Some? {
      MessageVerdict(env, cs.lastChaincodeInfo.ibcPolicy, info.proof.value, InfoSignBytes(info),
                     Configs(env, cs.lastMspInfos.infos).value);
    }
  }

  /** The MSP headers of a header; none when the part is absent. */
  function Batch(h: Header): seq<MSPHeader> {
    match h.mspHeaders case None => [] case Some(mhs) => mhs.headers
  }

  lemma AscendingDistinct(hs: seq<MSPHeader>)
    requires AscendingIds(hs)
    ensures DistinctIds(hs)
  {
    forall i, j | 0 <= i < j < |hs|
      ensures hs[i].mspId != hs[j].mspId
    {
      LessIrreflexive(hs[i].mspId);
    }
  }

  /** A header's change makes sense for the table: a create of what is absent, or any other of what is there and not frozen. */
  ghost predicate Timely(infos: Infos, mh: MSPHeader) {
    Suits(View(infos), mh) && (mh.typ != CREATE ==> !View(infos)[mh.mspId].freezed)
  }

  /** A valid MSP header is accepted if and only if it is timely and authorized. */
  lemma HeaderAcceptedExactly(env: Env, cs: ClientState, mh: MSPHeader)
    requires ValidHeader(mh)
    ensures VerifyMSPHeader(env, cs, mh) == Accept <==> Timely(cs.lastMspInfos.infos, mh) && Authorized(env, cs, mh)
  {
    hide VerifyMessage, MessageSigned, Configs, SignBytes;
    var infos := cs.lastMspInfos.infos;
    ViewIndex(infos, mh.mspId);
    if Configs(env, infos).Some? && (mh.typ == UPDATE_CONFIG ==> IndexOf(infos, mh.mspId) >= 0) {
      MessageVerdict(env, if mh.typ == UPDATE_CONFIG then infos[IndexOf(infos, mh.mspId)].policy else cs.lastChaincodeInfo.ibcPolicy,
                     mh.proof.value, SignBytes(mh), Configs(env, infos).value);
    }
  }

  /**
   A header is accepted if and only if it has some part, its chaincode header follows the last
   one and is endorsed, its chaincode info has a policy and is authorized, and its MSP headers
   ascend, each of them valid, timely and authorized, all under the state before the header.
   */
  lemma HeaderAccepted(env: Env, cs: ClientState, h: Header)
    ensures CheckValidity(env, cs, h) == Accept
       <==> (h.chaincodeHeader.Some? || h.chaincodeInfo.Some? || h.mspHeaders.Some?)
            && (h.chaincodeHeader.Some? ==> Follows(cs.lastChaincodeHeader.sequence, h.chaincodeHeader.value.sequence)
                                            && SequenceEndorsed(env, cs, h.chaincodeHeader.value))
            && (h.chaincodeInfo.Some? ==> Content(h.chaincodeInfo.value.endorsementPolicy) != []
                                          && InfoAuthorized(env, cs, h.chaincodeInfo.value))
            && AscendingIds(Batch(h))
            && forall mh :: mh in Batch(h) ==> ValidHeader(mh) && Timely(cs.lastMspInfos.infos, mh) && Authorized(env, cs, mh)
  {
    hide VerifyMSPHeader, VerifyChaincodeHeader, VerifyChaincodeInfo, Authorized, InfoAuthorized, SequenceEndorsed;
    hide Timely, Follows, ValidHeader, AscendingIds;
    assert ValidBatch(Batch(h)) <==> AscendingIds(Batch(h)) && forall mh :: mh in Batch(h) ==> ValidHeader(mh);
    VerifyAllEach(env, cs, Batch(h));
    if h.chaincodeHeader.Some? {
      ChaincodeHeaderVerdict(env, cs, h.chaincodeHeader.value);
    }
    if h.chaincodeInfo.Some? {
      InfoVerdict(env, cs, h.chaincodeInfo.value);
    }
    forall mh | mh in Batch(h) && ValidHeader(mh)
      ensures VerifyMSPHeader(env, cs, mh) == Accept <==> Timely(cs.lastMspInfos.infos, mh) && Authorized(env, cs, mh)
    {
      HeaderAcceptedExactly(env, cs, mh);
    }
    assert h.mspHeaders.None? ==> ValidBatch(Batch(h)) by { EmptyBatchValid(); }
  }

  lemma EmptyBatchValid()
    ensures ValidBatch([])
  {}

  /** Each header of an accepted batch names a known type, suits the old table, touches nothing frozen, and is authorized. */
  lemma AcceptedBatch(env: Env, cs: ClientState, h: Header)
    requires CheckValidity(env, cs, h) == Accept
    ensures DistinctIds(Batch(h)) && AllSuit(View(cs.lastMspInfos.infos), Batch(h))
    ensures forall mh :: mh in Batch(h) ==> ValidHeader(mh) && Authorized(env, cs, mh)
    ensures forall mh :: mh in Batch(h) && mh.typ != CREATE ==> !View(cs.lastMspInfos.infos)[mh.mspId].freezed
  {
    hide CheckValidity, Authorized, SequenceEndorsed, View, Follows, InfoAuthorized;
    HeaderAccepted(env, cs, h);
    AscendingDistinct(Batch(h));
    forall mh | mh in Batch(h)
      ensures Suits(View(cs.lastMspInfos.infos), mh)
      ensures mh.typ != CREATE ==> !View(cs.lastMspInfos.infos)[mh.mspId].freezed
    {
      assert Timely(cs.lastMspInfos.infos, mh);
    }
  }

  // ---------------------------------------------------------------- no panic after acceptance

  lemma {:induction false} InsertIds(infos: Infos, info: MSPInfo)
    ensures View(infos).Keys <= View(Insert(infos, info)).Keys
    decreases |infos|
  {
    if infos != [] {
      if Less(info.mspId, infos[0].mspId) {
        assert Insert(infos, info)[1..] == infos;
      } else {
        InsertIds(infos[1..], info);
        assert Insert(infos, info)[1..] == Insert(infos[1..], info);
      }
    }
  }

  lemma {:induction false} ReviseIds(infos: Infos, idx: nat, info: MSPInfo)
    requires idx < |infos| && info.mspId == infos[idx].mspId
    ensures View(infos[idx := info]).Keys == View(infos).Keys
    decreases |infos|
  {
    var r := infos[idx := info];
    if idx == 0 {
      assert r[1..] == infos[1..];
    } else {
      ReviseIds(infos[1..], idx - 1, info);
      assert r[1..] == infos[1..][idx - 1 := info];
    }
  }

  /** A batch whose updates name known entries is applied without a panic, to a table in any order. */
  lemma {:induction false} ApplyAllNoPanic(infos: Infos, hs: seq<MSPHeader>)
    requires forall h :: h in hs ==> KnownType(h) && (h.typ != CREATE ==> h.mspId in View(infos))
    ensures ApplyAll(infos, hs).Some?
    decreases |hs|
  {
    if hs != [] {
      var h := hs[0];
      assert h in hs;
      ViewIndex(infos, h.mspId);
      if h.typ == CREATE {
        InsertIds(infos, NewInfo(h));
      } else {
        var idx := IndexOf(infos, h.mspId);
        ReviseIds(infos, idx, Revised(infos[idx], h));
      }
      var next := ApplyHeader(infos, h).value;
      assert View(infos).Keys <= View(next).Keys;
      hide ApplyHeader, View;
      ApplyAllNoPanic(next, hs[1..]);
    }
  }

  /**
   Verify-then-apply: whatever header `checkValidity` accepts, of any length and mix of
   types, `update` applies without a panic, although it applies in sequence what was
   verified against the old state.
   */
  lemma AcceptedIsApplied(env: Env, cs: ClientState, h: Header)
    requires CheckValidity(env, cs, h) == Accept
    ensures CheckHeaderAndUpdateState(env, cs, h).Updated?
  {
    AcceptedBatch(env, cs, h);
    var infos := cs.lastMspInfos.infos;
    assert ValidBasic(h);
    forall mh | mh in Batch(h)
      ensures KnownType(mh) && (mh.typ != CREATE ==> mh.mspId in View(infos))
    {
      assert Suits(View(infos), mh);
    }
    ApplyAllNoPanic(infos, Batch(h));
  }

  /**
   From a table in any order, an accepted header leaves a table whose map is the old one
   updated at once, and which is as orderly as the old one.
   */
  lemma AcceptedTable(env: Env, cs: ClientState, h: Header)
    requires CheckValidity(env, cs, h) == Accept
    ensures AllSuit(View(cs.lastMspInfos.infos), Batch(h))
    ensures Apply(cs, h).Some?
    ensures var infos := Apply(cs, h).value.client.lastMspInfos.infos;
            View(infos) == Simultaneous(View(cs.lastMspInfos.infos), Batch(h))
            && AsOrderly(cs.lastMspInfos.infos, infos)
  {
    AcceptedBatch(env, cs, h);
    assert ValidBasic(h);
    hide CheckValidity, AsOrderly;
    ApplyAllRefines(cs.lastMspInfos.infos, Batch(h));
  }
}
