/**
 The two chains together: a Fabric chain that advances and endorses its sequences, and
 the light client of it that a counterparty keeps.
 */
module TwoChains {
  import opened Basics
  import opened Messages
  import opened Codec
  import opened LedgerStub
  import opened SequenceManager
  import opened ChainHistory
  import K = Keys
  import L = LightClient
  import R = ClientRuns

  /** The chain, and at the counterparty the client state and the consensus states by height. */
  datatype World = World(chain: Chain, client: ClientState, consensus: map<uint64, ConsensusState>)

  datatype Action = OnChain(event: Event) | OnClient(header: Header)

  /** `GetSelfConsensusState`. */
  function SelfConsensusState(ledger: Ledger, prefix: Bytes, height: uint64): Option<ConsensusState> {
    match GetSequence(ledger, prefix, height)
    case Err(_) => None
    case Ok(s) => Some(ConsensusState(s.timestamp))
  }

  /**
   What an endorsement is trusted for: if a proof's proposal is the record of a
   transaction, the write the proof selects in it was made on the chain, by whatever
   transaction.
   */
  ghost predicate Backed(env: L.Env, c: Chain, proof: CommitmentProof) {
    var rw := env.rwset(Content(proof.proposal));
    rw.Some? && proof.nsIndex < |rw.value.namespaces| && proof.writeSetIndex < |rw.value.namespaces[proof.nsIndex]|
    ==> rw.value.namespaces[proof.nsIndex][proof.writeSetIndex] in c.written
  }

  /** Any event of the chain, and any header at all: only a proof that satisfies the client's policy must be backed. */
  ghost predicate Allowed(env: L.Env, w: World, a: Action) {
    match a
    case OnChain(e) => Legal(e)
    case OnClient(h) =>
      h.chaincodeHeader.Some? && L.VerifyChaincodeHeader(env, w.client, h.chaincodeHeader.value) == L.Accept
      ==> Backed(env, w.chain, h.chaincodeHeader.value.proof)
  }

  function StoreConsensus(consensus: map<uint64, ConsensusState>, h: Header, u: L.Update): map<uint64, ConsensusState> {
    if u.consensus.Some? && h.chaincodeHeader.Some?
    then consensus[h.chaincodeHeader.value.sequence.value := u.consensus.value]
    else consensus
  }

  /** One step of either side; a client update stores what `CheckHeaderAndUpdateState` returns. */
  function Next(env: L.Env, cfg: CommitmentConfig, prefix: Bytes, w: World, a: Action): World {
    match a
    case OnChain(e) => w.(chain := Step(cfg, prefix, w.chain, e))
    case OnClient(h) =>
      match L.CheckHeaderAndUpdateState(env, w.client, h)
      case Updated(u) =>
        w.(client := NormalClientState(u.client), consensus := StoreConsensus(w.consensus, h, u))
      case _ => w
  }

  function NextHistory(cfg: CommitmentConfig, hist: seq<Sequence>, a: Action): (r: seq<Sequence>)
    requires hist != []
    ensures hist <= r
  {
    match a case OnChain(e) => Grow(cfg, hist, e) case OnClient(_) => hist
  }

  // ---------------------------------------------------------------- agreement

  predicate InHistory(hist: seq<Sequence>, s: Sequence) {
    1 <= s.value <= |hist| && hist[s.value - 1] == s
  }

  /** The client is at a sequence of the chain's history and has its consensus state, and every consensus state it stored is the chain's. */
  ghost predicate Agrees(hist: seq<Sequence>, client: ClientState, consensus: map<uint64, ConsensusState>) {
    InHistory(hist, client.lastChaincodeHeader.sequence)
    && client.lastChaincodeHeader.sequence.value in consensus
    && forall h :: h in consensus ==> 1 <= h <= |hist| && consensus[h] == ConsensusState(hist[h - 1].timestamp)
  }

  /** A chaincode header that a client accepts carries a sequence of the chain's history. */
  lemma AcceptedSequence(env: L.Env, prefix: Bytes, c: Chain, hist: seq<Sequence>, cs: ClientState, ch: ChaincodeHeader)
    requires Inv(prefix, c, hist) && Backed(env, c, ch.proof)
    requires L.VerifyChaincodeHeader(env, cs, ch) == L.Accept
    ensures InHistory(hist, ch.sequence)
  {
    hide K.MakeSequenceCommitmentEntryKey, SequenceBytes, Stored, L.Configs;
    var n := ch.sequence.value;
    var w := L.Write(K.MakeSequenceCommitmentEntryKey(n), SequenceBytes(ch.sequence));
    assert w in c.written;
    SequenceInjective(ch.sequence, hist[n - 1]);
  }

  lemma ClientKeeps(env: L.Env, cfg: CommitmentConfig, prefix: Bytes, w: World, hist: seq<Sequence>, h: Header)
    requires Inv(prefix, w.chain, hist) && Agrees(hist, w.client, w.consensus)
    requires Allowed(env, w, OnClient(h))
    ensures var w' := Next(env, cfg, prefix, w, OnClient(h)); Agrees(hist, w'.client, w'.consensus)
  {
    hide Inv, Backed, L.Apply, L.CheckValidity, L.VerifyChaincodeHeader;
    if L.CheckValidity(env, w.client, h) == L.Accept {
      L.AcceptedIsApplied(env, w.client, h);
      R.AcceptedParts(env, w.client, h);
      R.AppliedParts(env, w.client, h);
      if h.chaincodeHeader.Some? {
        AcceptedSequence(env, prefix, w.chain, hist, w.client, h.chaincodeHeader.value);
      }
    }
  }

  lemma GrowthKeeps(hist: seq<Sequence>, longer: seq<Sequence>, client: ClientState, consensus: map<uint64, ConsensusState>)
    requires Agrees(hist, client, consensus) && hist <= longer
    ensures Agrees(longer, client, consensus)
  {}

  /** One step of either chain keeps the history and the agreement. */
  lemma NextKeeps(env: L.Env, cfg: CommitmentConfig, prefix: Bytes, w: World, hist: seq<Sequence>, a: Action)
    requires hist != [] && Inv(prefix, w.chain, hist) && |NextHistory(cfg, hist, a)| < TWO64
    requires Agrees(hist, w.client, w.consensus) && Allowed(env, w, a)
    ensures var w' := Next(env, cfg, prefix, w, a);
            var hist' := NextHistory(cfg, hist, a);
            Inv(prefix, w'.chain, hist') && Agrees(hist', w'.client, w'.consensus)
  {
    hide Inv, Agrees, Step, Grow, L.CheckHeaderAndUpdateState, Backed;
    match a {
      case OnChain(e) =>
        StepKeeps(cfg, prefix, w.chain, hist, e);
        GrowthKeeps(hist, Grow(cfg, hist, e), w.client, w.consensus);
      case OnClient(h) =>
        ClientKeeps(env, cfg, prefix, w, hist, h);
    }
  }

  // ---------------------------------------------------------------- runs of both

  function RunWorld(env: L.Env, cfg: CommitmentConfig, prefix: Bytes, w: World, acts: seq<Action>): World {
    if acts == [] then w
    else Next(env, cfg, prefix, RunWorld(env, cfg, prefix, w, acts[..|acts| - 1]), acts[|acts| - 1])
  }

  function RunWorldHistory(cfg: CommitmentConfig, hist: seq<Sequence>, acts: seq<Action>): (r: seq<Sequence>)
    requires hist != []
    ensures r != []
  {
    if acts == [] then hist
    else NextHistory(cfg, RunWorldHistory(cfg, hist, acts[..|acts| - 1]), acts[|acts| - 1])
  }

  /** Every action of a run is allowed where it happens. */
  ghost predicate AllowedRun(env: L.Env, cfg: CommitmentConfig, prefix: Bytes, w: World, acts: seq<Action>) {
    acts == [] ||
    (AllowedRun(env, cfg, prefix, w, acts[..|acts| - 1])
     && Allowed(env, RunWorld(env, cfg, prefix, w, acts[..|acts| - 1]), acts[|acts| - 1]))
  }

  lemma {:induction false} RunKeeps(env: L.Env, cfg: CommitmentConfig, prefix: Bytes, w: World, hist: seq<Sequence>, acts: seq<Action>)
    requires hist != [] && Inv(prefix, w.chain, hist) && |RunWorldHistory(cfg, hist, acts)| < TWO64
    requires Agrees(hist, w.client, w.consensus) && AllowedRun(env, cfg, prefix, w, acts)
    ensures var w' := RunWorld(env, cfg, prefix, w, acts);
            var hist' := RunWorldHistory(cfg, hist, acts);
            Inv(prefix, w'.chain, hist') && Agrees(hist', w'.client, w'.consensus) && hist <= hist'
    decreases |acts|
  {
    hide Inv, Agrees, Next, NextHistory, Allowed;
    if acts != [] {
      var rest, a := acts[..|acts| - 1], acts[|acts| - 1];
      RunKeeps(env, cfg, prefix, w, hist, rest);
      NextKeeps(env, cfg, prefix, RunWorld(env, cfg, prefix, w, rest), RunWorldHistory(cfg, hist, rest), a);
    }
  }

  /**
   Two-chain agreement. Take any interleaving of sequence updates, endorsements, any
   other writes of the chaincode and any headers submitted to the client, where what its
   policy certifies are writes that some transaction of the chain made, from a client
   created at a sequence of the chain's history. Then the client's latest sequence is always in that history, and at
   every height the consensus state it stored is the one the chain reports of itself.
   */
  lemma Agreement(env: L.Env, cfg: CommitmentConfig, prefix: Bytes, w: World, hist: seq<Sequence>, acts: seq<Action>)
    requires hist != [] && Inv(prefix, w.chain, hist) && |RunWorldHistory(cfg, hist, acts)| < TWO64
    requires Agrees(hist, w.client, w.consensus) && AllowedRun(env, cfg, prefix, w, acts)
    ensures InAgreement(RunWorld(env, cfg, prefix, w, acts), prefix)
  {
    hide Inv, AllowedRun, RunWorld, RunWorldHistory, GetSequence;
    RunKeeps(env, cfg, prefix, w, hist, acts);
    ReadsBack(prefix, RunWorld(env, cfg, prefix, w, acts).chain, RunWorldHistory(cfg, hist, acts));
  }

  /** What the client holds is what the chain's ledger says, at the latest height, which is stored, and at every stored one. */
  ghost predicate InAgreement(w: World, prefix: Bytes) {
    var s := w.client.lastChaincodeHeader.sequence;
    GetSequence(w.chain.ledger, prefix, s.value) == Ok(s) && s.value in w.consensus
    && forall h :: h in w.consensus ==> SelfConsensusState(w.chain.ledger, prefix, h) == Some(w.consensus[h])
  }

  /** A client just created: its latest sequence, and a consensus state for it. */
  function Created(c: Chain, client: ClientState): World {
    var s := client.lastChaincodeHeader.sequence;
    World(c, client, map[s.value := ConsensusState(s.timestamp)])
  }

  /** The sequences of a chain's run followed by those of both chains' run. */
  function WholeHistory(cfg: CommitmentConfig, tm: int64, es: seq<Event>, acts: seq<Action>): seq<Sequence> {
    RunWorldHistory(cfg, RunHistory(cfg, [Sequence(1, tm)], es), acts)
  }

  /** Agreement from the very start: one `InitSequence`, any run of the chain, then the client, then any interleaving. */
  lemma AgreementFromInit(env: L.Env, cfg: CommitmentConfig, prefix: Bytes, b: Chain, c: Chain, now: int64, tm: int64,
                          es: seq<Event>, client: ClientState, acts: seq<Action>)
    requires Initial(cfg, prefix, b, c, now, tm) && |WholeHistory(cfg, tm, es, acts)| < TWO64
    requires forall e :: e in es ==> Legal(e)
    requires InHistory(RunHistory(cfg, [Sequence(1, tm)], es), client.lastChaincodeHeader.sequence)
    requires AllowedRun(env, cfg, prefix, Created(RunChain(cfg, prefix, c, es), client), acts)
    ensures InAgreement(RunWorld(env, cfg, prefix, Created(RunChain(cfg, prefix, c, es), client), acts), prefix)
  {
    hide Inv, Initial, AllowedRun, RunWorld, InAgreement, RunHistory;
    InitialInv(cfg, prefix, b, c, now, tm);
    var hist := RunHistory(cfg, [Sequence(1, tm)], es);
    HistoryOnlyGrows(cfg, hist, acts);
    HistoryKept(cfg, prefix, c, [Sequence(1, tm)], es);
    Agreement(env, cfg, prefix, Created(RunChain(cfg, prefix, c, es), client), hist, acts);
  }

  lemma {:induction false} HistoryOnlyGrows(cfg: CommitmentConfig, hist: seq<Sequence>, acts: seq<Action>)
    requires hist != []
    ensures hist <= RunWorldHistory(cfg, hist, acts)
    decreases |acts|
  {
    hide NextHistory;
    if acts != [] {
      HistoryOnlyGrows(cfg, hist, acts[..|acts| - 1]);
    }
  }

  /** With sane clocks the height cannot wrap, however long the run. */
  lemma {:induction false} SaneClocksSuffice(cfg: CommitmentConfig, hist: seq<Sequence>, acts: seq<Action>)
    requires Spaced(cfg, hist) && Seconds(cfg.minTimeInterval) >= 1
    requires forall a :: a in acts && a.OnChain? ==> SaneClock(cfg, a.event)
    ensures Spaced(cfg, RunWorldHistory(cfg, hist, acts)) && |RunWorldHistory(cfg, hist, acts)| < TWO63
    decreases |acts|
  {
    hide Grow, Seconds;
    assert hist != [];
    hide Spaced;
    if acts != [] {
      var a := acts[|acts| - 1];
      SaneClocksSuffice(cfg, hist, acts[..|acts| - 1]);
      if a.OnChain? {
        GrowSpaced(cfg, RunWorldHistory(cfg, hist, acts[..|acts| - 1]), a.event);
      }
    }
    RateBound(cfg, RunWorldHistory(cfg, hist, acts));
  }

  // ---------------------------------------------------------------- catching up

  /** From height k on, each stored timestamp is later than the one before. */
  predicate Ascends(hist: seq<Sequence>, k: nat) {
    forall i :: 1 <= i && k <= i < |hist| ==> hist[i - 1].timestamp < hist[i].timestamp
  }

  /** Timestamps an interval apart ascend everywhere. */
  lemma SpacedAscends(cfg: CommitmentConfig, hist: seq<Sequence>, k: nat)
    requires Spaced(cfg, hist) && Seconds(cfg.minTimeInterval) >= 1
    ensures Ascends(hist, k)
  {
    hide Seconds;
    forall i | 1 <= i && k <= i < |hist|
      ensures hist[i - 1].timestamp < hist[i].timestamp
    {
      var j := i - 1;
      assert hist[j].timestamp + Seconds(cfg.minTimeInterval) <= hist[j + 1].timestamp;
    }
  }

  /** They need not: at the epoch the chain stores two heights with one timestamp. */
  lemma EpochDoesNotAscend()
    ensures FirstSequence(DEFAULT_CONFIG, 0, 0) == Ok(Sequence(1, 0))
    ensures Grow(DEFAULT_CONFIG, [Sequence(1, 0)], Advance(0, 0)) == [Sequence(1, 0), Sequence(2, 0)]
    ensures !Ascends([Sequence(1, 0), Sequence(2, 0)], 1)
  {
    var hist := [Sequence(1, 0), Sequence(2, 0)];
    assert hist[1 - 1].timestamp == hist[1].timestamp;
  }

  /** A header that carries a chaincode header only. */
  function Only(ch: ChaincodeHeader): Header {
    Header(Some(ch), None, None)
  }

  function At(cs: ClientState, ch: ChaincodeHeader): ClientState {
    cs.(lastChaincodeHeader := NormalChaincodeHeader(ch))
  }

  lemma OnlyStep(env: L.Env, cs: ClientState, ch: ChaincodeHeader)
    requires R.Good(cs) && L.Follows(cs.lastChaincodeHeader.sequence, ch.sequence)
    requires L.VerifyChaincodeHeader(env, cs, ch) == L.Accept
    ensures R.Step(env, cs, Only(ch), At(cs, ch)) && R.Good(At(cs, ch))
  {
    hide L.VerifyChaincodeHeader, L.Follows;
    R.NormalIsGood(cs);
  }

  /** The states a client goes through with the headers `chs`. */
  function Through(cs: ClientState, chs: seq<ChaincodeHeader>): (states: seq<ClientState>)
    ensures |states| == |chs| + 1
    ensures forall j :: 0 <= j <= |chs| ==> states[j] == if j == 0 then cs else At(cs, chs[j - 1])
  {
    seq(|chs| + 1, j requires 0 <= j <= |chs| => if j == 0 then cs else At(cs, chs[j - 1]))
  }

  function Headers(chs: seq<ChaincodeHeader>): seq<Header> {
    MapSeq(Only, chs)
  }

  /** The client is at the first of some sequences, and there are endorsed headers for all the others. */
  predicate Endorsed(env: L.Env, cs: ClientState, seqs: seq<Sequence>, chs: seq<ChaincodeHeader>) {
    |seqs| == |chs| + 1 && cs.lastChaincodeHeader.sequence == seqs[0]
    && forall j :: 0 <= j < |chs| ==> chs[j].sequence == seqs[j + 1] && L.VerifyChaincodeHeader(env, cs, chs[j]) == L.Accept
  }

  /** Each passes the height and time checks of a client at the one before. */
  predicate Chained(seqs: seq<Sequence>) {
    forall i :: 1 <= i < |seqs| ==> L.Follows(seqs[i - 1], seqs[i])
  }

  /** A chaincode header is verified with the configs and policies alone, not with the header before it. */
  lemma SameVerdict(env: L.Env, cs: ClientState, before: ChaincodeHeader, ch: ChaincodeHeader)
    ensures L.VerifyChaincodeHeader(env, At(cs, before), ch) == L.VerifyChaincodeHeader(env, cs, ch)
  {
    hide L.VerifyCommitment, L.Configs;
  }

  lemma FollowState(env: L.Env, cs: ClientState, seqs: seq<Sequence>, chs: seq<ChaincodeHeader>, j: nat)
    requires R.Good(cs) && Endorsed(env, cs, seqs, chs) && j <= |chs|
    ensures var s := Through(cs, chs)[j];
            R.Good(s) && s.lastChaincodeHeader.sequence == seqs[j]
            && (j < |chs| ==> L.VerifyChaincodeHeader(env, s, chs[j]) == L.Accept)
  {
    hide L.VerifyChaincodeHeader;
    if j > 0 {
      var i := j - 1;
      assert chs[i].sequence == seqs[i + 1];
      R.NormalIsGood(At(cs, chs[i]));
      if j < |chs| {
        SameVerdict(env, cs, chs[i], chs[j]);
      }
    }
  }

  lemma FollowStep(env: L.Env, cs: ClientState, seqs: seq<Sequence>, chs: seq<ChaincodeHeader>, j: nat)
    requires R.Good(cs) && Endorsed(env, cs, seqs, chs) && Chained(seqs) && j < |chs|
    ensures R.Step(env, Through(cs, chs)[j], Only(chs[j]), Through(cs, chs)[j + 1])
  {
    hide R.Good, R.Step, L.VerifyChaincodeHeader, L.Follows, NormalChaincodeHeader;
    FollowState(env, cs, seqs, chs, j);
    var i := j + 1;
    assert L.Follows(seqs[i - 1], seqs[i]) && chs[j].sequence == seqs[j + 1];
    OnlyStep(env, Through(cs, chs)[j], chs[j]);
  }

  /** Headers that follow one another are all accepted, and take the client to the last of them. */
  lemma FollowRun(env: L.Env, cs: ClientState, seqs: seq<Sequence>, chs: seq<ChaincodeHeader>)
    requires R.Good(cs) && Endorsed(env, cs, seqs, chs) && Chained(seqs)
    ensures R.Run(env, Through(cs, chs), Headers(chs))
    ensures |seqs| == |chs| + 1 && Through(cs, chs)[|chs|].lastChaincodeHeader.sequence == seqs[|chs|]
  {
    EndorsedLength(env, cs, seqs, chs);
    hide Chained, Endorsed, R.Good, R.Step, R.Run, Through, Only, At, L.VerifyChaincodeHeader;
    var states, hs := Through(cs, chs), Headers(chs);
    forall j: nat | j < |chs|
      ensures R.StepAt(env, states, hs, j)
    {
      FollowStep(env, cs, seqs, chs, j);
    }
    R.RunOfSteps(env, states, hs);
    FollowState(env, cs, seqs, chs, |chs|);
  }

  lemma EndorsedLength(env: L.Env, cs: ClientState, seqs: seq<Sequence>, chs: seq<ChaincodeHeader>)
    requires Endorsed(env, cs, seqs, chs)
    ensures |seqs| == |chs| + 1
  {
    hide L.VerifyChaincodeHeader;
  }

  lemma AscendsChained(hist: seq<Sequence>, k: nat)
    requires Numbered(hist) && Ascends(hist, k) && 1 <= k <= |hist|
    ensures Chained(hist[k - 1..])
  {
    var seqs := hist[k - 1..];
    forall i | 1 <= i < |seqs|
      ensures L.Follows(seqs[i - 1], seqs[i])
    {
      var j := k - 1 + i;
      assert hist[j - 1].timestamp < hist[j].timestamp && seqs[i] == hist[j] && seqs[i - 1] == hist[j - 1];
    }
  }

  /**
   Catching up: a client at height k that is given the endorsed sequences k+1, k+2, ...
   accepts every one of them and ends at the last, after exactly as many updates as it was
   behind, if the timestamps from k on ascend.
   */
  lemma CatchUp(env: L.Env, hist: seq<Sequence>, cs: ClientState, k: nat, chs: seq<ChaincodeHeader>)
    requires Numbered(hist) && Ascends(hist, k) && 1 <= k <= |hist|
    requires R.Good(cs) && Endorsed(env, cs, hist[k - 1..], chs)
    ensures R.Run(env, Through(cs, chs), Headers(chs))
    ensures |chs| == |hist| - k && Through(cs, chs)[|chs|].lastChaincodeHeader.sequence == hist[|hist| - 1]
  {
    hide Ascends, R.Good, R.Run, Through, Endorsed, Chained;
    AscendsChained(hist, k);
    FollowRun(env, cs, hist[k - 1..], chs);
  }

  /** From one `InitSequence` after the epoch, through any run with sane clocks, a client at any height reaches the current sequence. */
  lemma CatchUpFromInit(env: L.Env, cfg: CommitmentConfig, prefix: Bytes, b: Chain, c: Chain, now: int64, tm: int64,
                        es: seq<Event>, cs: ClientState, k: nat, chs: seq<ChaincodeHeader>)
    requires Initial(cfg, prefix, b, c, now, tm) && Sane(cfg, now) && tm > 0
    requires forall e :: e in es ==> Legal(e) && SaneClock(cfg, e)
    requires R.Good(cs) && 1 <= k <= |RunHistory(cfg, [Sequence(1, tm)], es)|
    requires Endorsed(env, cs, RunHistory(cfg, [Sequence(1, tm)], es)[k - 1..], chs)
    ensures R.Run(env, Through(cs, chs), Headers(chs))
    ensures GetCurrentSequence(RunChain(cfg, prefix, c, es).ledger, prefix)
         == Ok(Through(cs, chs)[|chs|].lastChaincodeHeader.sequence)
  {
    hide Inv, Spaced, Seconds, Initial, RunHistory, R.Good, R.Run, GetCurrentSequence, Ascends, Endorsed;
    var hist := RunHistory(cfg, [Sequence(1, tm)], es);
    InitialInv(cfg, prefix, b, c, now, tm);
    FirstIsSane(cfg, prefix, b, c, now, tm);
    SpacingKept(cfg, [Sequence(1, tm)], es);
    HistoryKept(cfg, prefix, c, [Sequence(1, tm)], es);
    InvNumbered(prefix, RunChain(cfg, prefix, c, es), hist);
    ReadsBack(prefix, RunChain(cfg, prefix, c, es), hist);
    SpacedAscends(cfg, hist, k);
    CatchUp(env, hist, cs, k, chs);
  }

  // ---------------------------------------------------------------- heights that wrap


  /** An environment whose policies are always satisfied, and whose proposals are the sequences they commit to. */
  function WrapEnv(): L.Env {
    L.Env(_ => None, (_, _) => L.Evaluator(0), (_, _) => true, WrapWrites)
  }

  function WrapWrites(proposal: Bytes): Option<L.RwSet> {
    match DecodeSequence(proposal)
    case Err(_) => None
    case Ok(s) => Some(L.RwSet(Some(ZERO_CHAINCODE_ID), [[L.Write(K.MakeSequenceCommitmentEntryKey(s.value), SequenceBytes(s))]]))
  }

  function WrapHeader(s: Sequence): ChaincodeHeader {
    ChaincodeHeader(s, CommitmentProof(NormalBytes(Some(SequenceBytes(s))), 0, 0, [], []))
  }

  function WrapClient(s: Sequence): ClientState {
    ClientState([], WrapHeader(s), ChaincodeInfo([], ZERO_CHAINCODE_ID, None, None, None), MSPInfos([]))
  }

  lemma WrapAccepts(first: Sequence, s: Sequence)
    ensures R.Good(WrapClient(first))
    ensures L.VerifyChaincodeHeader(WrapEnv(), WrapClient(first), WrapHeader(s)) == L.Accept
  {
    SequenceRoundTrip(s);
    hide SequenceBytes, DecodeSequence, K.MakeSequenceCommitmentEntryKey;
    assert Content(NormalBytes(Some(SequenceBytes(s)))) == SequenceBytes(s);
  }

  /** Heights do wrap: from any other first sequence a client has a run of accepted headers that ends at height 0. */
  lemma WrapRun(first: Sequence) returns (env: L.Env, states: seq<ClientState>, hs: seq<Header>)
    requires !R.CannotWrap(first)
    ensures R.Run(env, states, hs) && R.Good(states[0]) && states[0].lastChaincodeHeader.sequence == first
    ensures states[|hs|].lastChaincodeHeader.sequence.value == 0
  {
    hide L.VerifyChaincodeHeader, R.Good, R.Run, SequenceBytes;
    var seqs := R.WrapWitness(first);
    var chs := seq(|seqs| - 1, j requires 0 <= j < |seqs| - 1 => WrapHeader(seqs[j + 1]));
    env := WrapEnv();
    var cs := WrapClient(first);
    WrapAccepts(first, first);
    forall j | 0 <= j < |chs|
      ensures L.VerifyChaincodeHeader(env, cs, chs[j]) == L.Accept
    {
      WrapAccepts(first, seqs[j + 1]);
    }
    FollowRun(env, cs, seqs, chs);
    states, hs := Through(cs, chs), Headers(chs);
  }

  // ---------------------------------------------------------------- when it cannot

  lemma NotPast(hist: seq<Sequence>, s: Sequence, next: Sequence, i: nat)
    requires Numbered(hist) && InHistory(hist, s) && InHistory(hist, next) && L.Follows(s, next)
    requires 1 <= i < |hist| && hist[i].timestamp <= hist[i - 1].timestamp && s.value <= i
    ensures next.value <= i
  {}

  /** The client moves by at most one height, and not past a timestamp that does not ascend. */
  lemma StuckStep(env: L.Env, cfg: CommitmentConfig, prefix: Bytes, w: World, hist: seq<Sequence>, a: Action, i: nat)
    requires Inv(prefix, w.chain, hist) && Agrees(hist, w.client, w.consensus) && Allowed(env, w, a)
    requires 1 <= i < |hist| && hist[i].timestamp <= hist[i - 1].timestamp
    requires w.client.lastChaincodeHeader.sequence.value <= i
    ensures Next(env, cfg, prefix, w, a).client.lastChaincodeHeader.sequence.value <= i
  {
    InvNumbered(prefix, w.chain, hist);
    hide Inv, Numbered, Backed, Step, InHistory, L.Follows, L.Apply, L.CheckValidity, L.VerifyChaincodeHeader;
    if a.OnClient? && L.CheckValidity(env, w.client, a.header) == L.Accept {
      var h := a.header;
      L.AcceptedIsApplied(env, w.client, h);
      R.AcceptedParts(env, w.client, h);
      R.AppliedParts(env, w.client, h);
      if h.chaincodeHeader.Some? {
        AcceptedSequence(env, prefix, w.chain, hist, w.client, h.chaincodeHeader.value);
        NotPast(hist, w.client.lastChaincodeHeader.sequence, h.chaincodeHeader.value.sequence, i);
      }
    }
  }

  /** Through every allowed run the client stays at or below the height before such a timestamp. */
  lemma {:induction false} StuckBelow(env: L.Env, cfg: CommitmentConfig, prefix: Bytes, w: World, hist: seq<Sequence>, acts: seq<Action>, i: nat)
    requires hist != [] && Inv(prefix, w.chain, hist) && |RunWorldHistory(cfg, hist, acts)| < TWO64
    requires Agrees(hist, w.client, w.consensus) && AllowedRun(env, cfg, prefix, w, acts)
    requires 1 <= i < |hist| && hist[i].timestamp <= hist[i - 1].timestamp
    requires w.client.lastChaincodeHeader.sequence.value <= i
    ensures RunWorld(env, cfg, prefix, w, acts).client.lastChaincodeHeader.sequence.value <= i
    decreases |acts|
  {
    hide Inv, Agrees, Next, NextHistory, Allowed;
    if acts != [] {
      var rest, a := acts[..|acts| - 1], acts[|acts| - 1];
      StuckBelow(env, cfg, prefix, w, hist, rest, i);
      RunKeeps(env, cfg, prefix, w, hist, rest);
      StuckStep(env, cfg, prefix, RunWorld(env, cfg, prefix, w, rest), RunWorldHistory(cfg, hist, rest), a, i);
    }
  }

  /** The client updates with the headers `chs`, as actions. */
  function Submit(chs: seq<ChaincodeHeader>): (acts: seq<Action>)
    ensures |acts| == |chs|
    ensures forall j :: 0 <= j < |chs| ==> acts[j] == OnClient(Only(chs[j]))
  {
    seq(|chs|, j requires 0 <= j < |chs| => OnClient(Only(chs[j])))
  }

  lemma NextIsStep(env: L.Env, cfg: CommitmentConfig, prefix: Bytes, w: World, h: Header, s: ClientState)
    requires R.Step(env, w.client, h, s)
    ensures Next(env, cfg, prefix, w, OnClient(h)).client == s && Next(env, cfg, prefix, w, OnClient(h)).chain == w.chain
  {
    hide L.CheckHeaderAndUpdateState;
  }

  /** Submitting the endorsed headers one after the other is an allowed run, and takes the client through its states. */
  lemma {:induction false} SubmitRuns(env: L.Env, cfg: CommitmentConfig, prefix: Bytes, w: World, hist: seq<Sequence>,
                                       seqs: seq<Sequence>, chs: seq<ChaincodeHeader>, j: nat)
    requires R.Good(w.client) && Endorsed(env, w.client, seqs, chs) && Chained(seqs) && hist != []
    requires forall i :: 0 <= i < |chs| ==> Backed(env, w.chain, chs[i].proof)
    requires j <= |chs|
    ensures AllowedRun(env, cfg, prefix, w, Submit(chs)[..j]) && RunWorldHistory(cfg, hist, Submit(chs)[..j]) == hist
    ensures var w' := RunWorld(env, cfg, prefix, w, Submit(chs)[..j]);
            w'.client == Through(w.client, chs)[j] && w'.chain == w.chain
    decreases j
  {
    hide Endorsed, Chained, Backed, Through, R.Good, R.Step, Next, L.VerifyChaincodeHeader;
    if j == 0 {
      assert Through(w.client, chs)[0] == w.client;
    } else {
      var acts, rest := Submit(chs)[..j], Submit(chs)[..j - 1];
      assert acts[..|acts| - 1] == rest && acts[j - 1] == OnClient(Only(chs[j - 1]));
      SubmitRuns(env, cfg, prefix, w, hist, seqs, chs, j - 1);
      FollowStep(env, w.client, seqs, chs, j - 1);
      NextIsStep(env, cfg, prefix, RunWorld(env, cfg, prefix, w, rest), Only(chs[j - 1]), Through(w.client, chs)[j]);
    }
  }

  /** The client reaches the end of the history in some allowed run. */
  ghost predicate CanCatchUp(env: L.Env, cfg: CommitmentConfig, prefix: Bytes, w: World, hist: seq<Sequence>)
    requires hist != []
  {
    exists acts :: AllowedRun(env, cfg, prefix, w, acts) && |RunWorldHistory(cfg, hist, acts)| < TWO64
                   && RunWorld(env, cfg, prefix, w, acts).client.lastChaincodeHeader.sequence.value >= |hist|
  }

  lemma SubmitCatchesUp(env: L.Env, cfg: CommitmentConfig, prefix: Bytes, w: World, hist: seq<Sequence>, k: nat, chs: seq<ChaincodeHeader>)
    requires hist != [] && Numbered(hist) && Ascends(hist, k) && 1 <= k <= |hist|
    requires R.Good(w.client) && Endorsed(env, w.client, hist[k - 1..], chs)
    requires forall i :: 0 <= i < |chs| ==> Backed(env, w.chain, chs[i].proof)
    ensures CanCatchUp(env, cfg, prefix, w, hist)
  {
    hide Ascends, Endorsed, Chained, Backed, R.Good, RunWorld, RunWorldHistory, AllowedRun, Through;
    var seqs := hist[k - 1..];
    AscendsChained(hist, k);
    SubmitRuns(env, cfg, prefix, w, hist, seqs, chs, |chs|);
    assert Submit(chs)[..|chs|] == Submit(chs);
    EndorsedLength(env, w.client, seqs, chs);
    FollowState(env, w.client, seqs, chs, |chs|);
  }

  lemma CannotCatchUp(env: L.Env, cfg: CommitmentConfig, prefix: Bytes, w: World, hist: seq<Sequence>, i: nat)
    requires hist != [] && Inv(prefix, w.chain, hist) && Agrees(hist, w.client, w.consensus)
    requires 1 <= i < |hist| && hist[i].timestamp <= hist[i - 1].timestamp
    requires w.client.lastChaincodeHeader.sequence.value <= i
    ensures !CanCatchUp(env, cfg, prefix, w, hist)
  {
    hide Inv, Agrees, RunWorld, RunWorldHistory, AllowedRun;
    forall acts | AllowedRun(env, cfg, prefix, w, acts) && |RunWorldHistory(cfg, hist, acts)| < TWO64
      ensures RunWorld(env, cfg, prefix, w, acts).client.lastChaincodeHeader.sequence.value < |hist|
    {
      StuckBelow(env, cfg, prefix, w, hist, acts, i);
    }
  }

  /**
   A client at height k, for which the later sequences have been endorsed, can catch up if
   and only if the timestamps from k on ascend. Otherwise no run whatever gets it there.
   */
  lemma CatchUpExactly(env: L.Env, cfg: CommitmentConfig, prefix: Bytes, w: World, hist: seq<Sequence>, chs: seq<ChaincodeHeader>)
    requires hist != [] && Inv(prefix, w.chain, hist) && Agrees(hist, w.client, w.consensus) && R.Good(w.client)
    requires Endorsed(env, w.client, hist[w.client.lastChaincodeHeader.sequence.value - 1..], chs)
    requires forall i :: 0 <= i < |chs| ==> Backed(env, w.chain, chs[i].proof)
    ensures CanCatchUp(env, cfg, prefix, w, hist) <==> Ascends(hist, w.client.lastChaincodeHeader.sequence.value)
  {
    hide Inv, Agrees, Numbered, Ascends, Backed, Endorsed, R.Good, CanCatchUp;
    InvNumbered(prefix, w.chain, hist);
    var k := w.client.lastChaincodeHeader.sequence.value;
    AgreesAt(hist, w.client, w.consensus);
    if Ascends(hist, k) {
      SubmitCatchesUp(env, cfg, prefix, w, hist, k, chs);
    } else {
      var i := WhereItDoesNot(hist, k);
      CannotCatchUp(env, cfg, prefix, w, hist, i);
    }
  }

  lemma AgreesAt(hist: seq<Sequence>, client: ClientState, consensus: map<uint64, ConsensusState>)
    requires Agrees(hist, client, consensus)
    ensures 1 <= client.lastChaincodeHeader.sequence.value <= |hist|
  {}

  lemma WhereItDoesNot(hist: seq<Sequence>, k: nat) returns (i: nat)
    requires !Ascends(hist, k)
    ensures 1 <= i && k <= i < |hist| && hist[i].timestamp <= hist[i - 1].timestamp
  {
    i :| 1 <= i && k <= i < |hist| && hist[i - 1].timestamp >= hist[i].timestamp;
  }

  /** And no shorter run gets there: each update raises the height by at most one. */
  lemma NoShortcut(env: L.Env, states: seq<ClientState>, hs: seq<Header>)
    requires R.Run(env, states, hs) && R.Good(states[0])
    requires R.CannotWrap(states[0].lastChaincodeHeader.sequence)
    ensures states[|hs|].lastChaincodeHeader.sequence.value <= states[0].lastChaincodeHeader.sequence.value + |hs|
  {
    hide R.Step, R.Good;
    var seqs := seq(|states|, i requires 0 <= i < |states| => states[i].lastChaincodeHeader.sequence);
    R.ClientHeights(env, states, hs);
    MovesBound(seqs);
  }

  lemma {:induction false} MovesBound(seqs: seq<Sequence>)
    requires seqs != []
    ensures R.Moves(seqs) <= |seqs| - 1
    decreases |seqs|
  {
    if |seqs| > 1 {
      MovesBound(seqs[..|seqs| - 1]);
    }
  }
}
