/**
 What holds over whole runs of a light client: who may change what, that freezing is
 for ever, that nothing is removed, and that heights never wrap.
 */
module ClientRuns {
  import opened Basics
  import opened Messages
  import opened Wire
  import opened Codec
  import opened MspTable
  import opened LightClient
  import I = InPlaceTable
  import V = Varint

  // ---------------------------------------------------------------- runs

  /** One client update: an accepted header's state is stored and read back, anything else changes nothing. */
  ghost predicate Step(env: Env, s: ClientState, h: Header, s': ClientState) {
    match CheckHeaderAndUpdateState(env, s, h)
    case Updated(u) => s' == NormalClientState(u.client)
    case _ => s' == s
  }

  ghost predicate Run(env: Env, states: seq<ClientState>, hs: seq<Header>) {
    |states| == |hs| + 1 && forall i :: 0 <= i < |hs| ==> Step(env, states[i], hs[i], states[i + 1])
  }

  /** One step of a run, named by its number. */
  ghost predicate StepAt(env: Env, states: seq<ClientState>, hs: seq<Header>, i: nat)
    requires |states| == |hs| + 1 && i < |hs|
  {
    Step(env, states[i], hs[i], states[i + 1])
  }

  lemma RunOfSteps(env: Env, states: seq<ClientState>, hs: seq<Header>)
    requires |states| == |hs| + 1 && forall i :: 0 <= i < |hs| ==> StepAt(env, states, hs, i)
    ensures Run(env, states, hs)
  {
    hide Step;
    forall i | 0 <= i < |hs|
      ensures Step(env, states[i], hs[i], states[i + 1])
    {
      assert StepAt(env, states, hs, i);
    }
  }

  /** A state as it is read from the store, with a table in any order. */
  predicate Good(s: ClientState) {
    NormalClientState(s) == s
  }

  ghost function TableOf(s: ClientState): Table {
    View(s.lastMspInfos.infos)
  }

  ghost function Lookup(s: ClientState, id: Bytes): Option<MSPInfo> {
    Find(TableOf(s), id)
  }

  /** `createMSPInitialClientState`: the first table, from create headers only. */
  method InitialTable(hs: seq<MSPHeader>) returns (r: Option<Infos>)
    ensures r.Some? <==> forall i :: 0 <= i < |hs| ==> hs[i].typ == CREATE
    ensures r.Some? ==> r.value == MapSeq(NewInfo, hs)
    ensures r.Some? && AscendingIds(hs) ==> Ascending(r.value)
  {
    var infos: Infos := [];
    for i := 0 to |hs|
      invariant infos == MapSeq(NewInfo, hs[..i])
      invariant forall k :: 0 <= k < i ==> hs[k].typ == CREATE
    {
      if hs[i].typ != CREATE {
        return None;
      }
      infos := infos + [NewInfo(hs[i])];
    }
    assert hs[..|hs|] == hs;
    return Some(infos);
  }

  // ---------------------------------------------------------------- storing a table

  function NormalInfos(infos: Infos): Infos {
    MapSeq(NormalMSPInfo, infos)
  }

  /** The table entry by entry in its stored form. */
  ghost function NormalTable(t: Table): Table {
    map id | id in t :: NormalMSPInfo(t[id])
  }

  lemma {:induction false} NormalView(infos: Infos)
    ensures View(NormalInfos(infos)) == NormalTable(View(infos))
    decreases |infos|
  {
    if infos != [] {
      assert NormalInfos(infos)[1..] == NormalInfos(infos[1..]);
      NormalView(infos[1..]);
    }
  }

  lemma NormalIsGood(s: ClientState)
    ensures Good(NormalClientState(s))
  {
    var infos := s.lastMspInfos.infos;
    var once := NormalInfos(infos);
    assert NormalInfos(once) == once;
  }

  // ---------------------------------------------------------------- chain of trust

  /** What a header makes of an entry: nothing frozen is touched, and only the field its type names changes. */
  predicate Permits(old_: Option<MSPInfo>, mh: MSPHeader, new_: Option<MSPInfo>) {
    if mh.typ == CREATE then
      old_.None? && new_ == Some(MSPInfo(mh.mspId, NormalBytes(mh.config), NormalBytes(mh.policy), false))
    else
      old_.Some? && !old_.value.freezed
      && new_ == Some(if mh.typ == UPDATE_POLICY then old_.value.(policy := NormalBytes(mh.policy))
                      else if mh.typ == UPDATE_CONFIG then old_.value.(config := NormalBytes(mh.config))
                      else old_.value.(freezed := true))
  }

  /** An entry is as it was, or one header of the batch changed it, authorized under the state before. */
  ghost predicate Justified(env: Env, s: ClientState, h: Header, id: Bytes, s': ClientState) {
    Lookup(s', id) == Lookup(s, id)
    || exists mh :: mh in Batch(h) && mh.mspId == id && ValidHeader(mh) && Authorized(env, s, mh)
                    && Permits(Lookup(s, id), mh, Lookup(s', id))
  }

  ghost predicate InfoJustified(env: Env, s: ClientState, h: Header, s': ClientState) {
    s'.lastChaincodeInfo == s.lastChaincodeInfo
    || (h.chaincodeInfo.Some? && InfoAuthorized(env, s, h.chaincodeInfo.value)
        && s'.lastChaincodeInfo == NormalChaincodeInfo(h.chaincodeInfo.value))
  }

  ghost predicate HeaderJustified(env: Env, s: ClientState, h: Header, s': ClientState) {
    s'.lastChaincodeHeader == s.lastChaincodeHeader
    || (h.chaincodeHeader.Some? && Follows(s.lastChaincodeHeader.sequence, h.chaincodeHeader.value.sequence)
        && SequenceEndorsed(env, s, h.chaincodeHeader.value)
        && s'.lastChaincodeHeader == NormalChaincodeHeader(h.chaincodeHeader.value))
  }

  lemma AcceptedParts(env: Env, s: ClientState, h: Header)
    requires CheckValidity(env, s, h) == Accept
    ensures h.chaincodeInfo.Some? ==> InfoAuthorized(env, s, h.chaincodeInfo.value)
    ensures h.chaincodeHeader.Some? ==> Follows(s.lastChaincodeHeader.sequence, h.chaincodeHeader.value.sequence)
                                        && VerifyChaincodeHeader(env, s, h.chaincodeHeader.value) == Accept
                                        && SequenceEndorsed(env, s, h.chaincodeHeader.value)
  {
    hide CheckValidity, VerifyChaincodeHeader, SequenceEndorsed, InfoAuthorized, Follows, Authorized, Timely;
    HeaderAccepted(env, s, h);
    if h.chaincodeHeader.Some? {
      ChaincodeHeaderVerdict(env, s, h.chaincodeHeader.value);
    }
  }

  /** The state an accepted header leaves, part by part. */
  lemma AppliedParts(env: Env, s: ClientState, h: Header)
    requires CheckValidity(env, s, h) == Accept && Apply(s, h).Some?
    ensures var s' := Apply(s, h).value.client;
            s'.id == s.id
            && s'.lastChaincodeInfo == (match h.chaincodeInfo case None => s.lastChaincodeInfo case Some(i) => i)
            && s'.lastChaincodeHeader == (match h.chaincodeHeader case None => s.lastChaincodeHeader case Some(c) => c)
    ensures Apply(s, h).value.consensus
         == (match h.chaincodeHeader case None => None case Some(c) => Some(ConsensusState(c.sequence.timestamp)))
  {
    hide CheckValidity, ValidBasic, ApplyAll;
  }

  /** An accepted header stores a good state, with the old table updated at once as orderly as before. */
  lemma AcceptedStored(env: Env, s: ClientState, h: Header, s': ClientState)
    requires Good(s) && CheckValidity(env, s, h) == Accept && Step(env, s, h, s')
    ensures Good(s') && AllSuit(TableOf(s), Batch(h))
    ensures TableOf(s') == NormalTable(Simultaneous(TableOf(s), Batch(h))) && NormalTable(TableOf(s)) == TableOf(s)
    ensures AsOrderly(s.lastMspInfos.infos, s'.lastMspInfos.infos)
  {
    AcceptedIsApplied(env, s, h);
    AcceptedTable(env, s, h);
    var u := Apply(s, h).value.client;
    hide CheckValidity, Apply, Simultaneous;
    assert s' == NormalClientState(u);
    NormalIsGood(u);
    NormalView(u.lastMspInfos.infos);
    NormalView(s.lastMspInfos.infos);
    hide View, AllSuit;
  }

  /** What the update of a table makes of each entry. */
  lemma EntryPermitted(t: Table, hs: seq<MSPHeader>, mh: MSPHeader)
    requires DistinctIds(hs) && AllSuit(t, hs) && mh in hs && NormalTable(t) == t
    requires mh.typ != CREATE ==> !t[mh.mspId].freezed
    ensures Permits(Find(t, mh.mspId), mh, Find(NormalTable(Simultaneous(t, hs)), mh.mspId))
  {
    hide Simultaneous, AllSuit;
    SimultaneousNamed(t, hs, mh);
    AllSuitEach(t, hs, mh);
    assert mh.mspId in t ==> NormalMSPInfo(t[mh.mspId]) == t[mh.mspId];
  }

  lemma AllSuitEach(t: Table, hs: seq<MSPHeader>, mh: MSPHeader)
    requires AllSuit(t, hs) && mh in hs
    ensures Suits(t, mh)
  {}

  /** Every entry after an accepted header is justified. */
  lemma AcceptedEntry(env: Env, s: ClientState, h: Header, s': ClientState, id: Bytes)
    requires Good(s) && CheckValidity(env, s, h) == Accept && Step(env, s, h, s')
    ensures Good(s') && Justified(env, s, h, id, s')
    ensures Lookup(s, id).Some? ==> Lookup(s', id).Some?
  {
    hide CheckValidity, Step, Good, Authorized, ValidHeader, Simultaneous, Permits, TableOf;
    AcceptedBatch(env, s, h);
    AcceptedStored(env, s, h, s');
    var hs, t := Batch(h), TableOf(s);
    assert t == View(s.lastMspInfos.infos) by { SameTable(s); }
    hide View;
    if id in HeaderIds(hs) {
      var mh := HeaderFor(hs, id);
      EntryPermitted(t, hs, mh);
      SimultaneousNamed(t, hs, mh);
    } else {
      SimultaneousOther(t, hs, id);
      assert id in t ==> NormalMSPInfo(t[id]) == t[id];
    }
  }

  lemma SameTable(s: ClientState)
    ensures TableOf(s) == View(s.lastMspInfos.infos)
  {}

  /** The same for any step. */
  lemma StepEntry(env: Env, s: ClientState, h: Header, s': ClientState, id: Bytes)
    requires Good(s) && Step(env, s, h, s')
    ensures Good(s') && Justified(env, s, h, id, s')
    ensures Lookup(s, id).Some? ==> Lookup(s', id).Some?
  {
    if CheckValidity(env, s, h) == Accept {
      AcceptedEntry(env, s, h, s', id);
    } else {
      hide CheckValidity;
      assert s' == s;
    }
  }

  lemma StepParts(env: Env, s: ClientState, h: Header, s': ClientState)
    requires Good(s) && Step(env, s, h, s')
    ensures InfoJustified(env, s, h, s') && HeaderJustified(env, s, h, s')
  {
    if CheckValidity(env, s, h) == Accept {
      AcceptedIsApplied(env, s, h);
      AcceptedParts(env, s, h);
      AppliedParts(env, s, h);
      hide CheckValidity, Apply, VerifyChaincodeHeader, SequenceEndorsed, InfoAuthorized, Follows;
      assert NormalChaincodeInfo(s.lastChaincodeInfo) == s.lastChaincodeInfo;
      assert NormalChaincodeHeader(s.lastChaincodeHeader) == s.lastChaincodeHeader;
    } else {
      hide CheckValidity;
      assert s' == s;
    }
  }

  lemma {:induction false} RunGood(env: Env, states: seq<ClientState>, hs: seq<Header>, i: nat)
    requires Run(env, states, hs) && Good(states[0]) && i < |states|
    ensures Good(states[i])
    decreases i
  {
    if i > 0 {
      hide Step, Good;
      RunGood(env, states, hs, i - 1);
      StepEntry(env, states[i - 1], hs[i - 1], states[i], []);
    }
  }

  lemma StepOrderly(env: Env, s: ClientState, h: Header, s': ClientState)
    requires Good(s) && Step(env, s, h, s')
    ensures AsOrderly(s.lastMspInfos.infos, s'.lastMspInfos.infos)
  {
    hide Good;
    if CheckValidity(env, s, h) == Accept {
      hide AsOrderly;
      AcceptedStored(env, s, h, s');
    } else {
      hide CheckValidity;
      assert s' == s;
    }
  }

  /** Through every run an ascending table stays ascending, and distinct IDs stay distinct. */
  lemma {:induction false} TableStaysOrderly(env: Env, states: seq<ClientState>, hs: seq<Header>, i: nat)
    requires Run(env, states, hs) && Good(states[0]) && i < |states|
    ensures AsOrderly(states[0].lastMspInfos.infos, states[i].lastMspInfos.infos)
    decreases i
  {
    if i > 0 {
      hide Step, Good, Ascending, Distinct;
      TableStaysOrderly(env, states, hs, i - 1);
      RunGood(env, states, hs, i - 1);
      StepOrderly(env, states[i - 1], hs[i - 1], states[i]);
    }
  }

  /** Step i of a run, seen at one entry. */
  lemma RunEntry(env: Env, states: seq<ClientState>, hs: seq<Header>, i: nat, id: Bytes)
    requires Run(env, states, hs) && Good(states[0]) && i < |hs|
    ensures Justified(env, states[i], hs[i], id, states[i + 1])
    ensures Holds(states[i], id) ==> Holds(states[i + 1], id)
  {
    hide Step, Good, Justified, Lookup;
    RunGood(env, states, hs, i);
    StepEntry(env, states[i], hs[i], states[i + 1], id);
  }

  /**
   The chain of trust, over every run: each change of an MSP entry, of the chaincode
   info or of the chaincode header was accepted under the state just before it and no
   other, and each entry changed only as its header's type allows.
   */
  lemma ChainOfTrust(env: Env, states: seq<ClientState>, hs: seq<Header>, i: nat, id: Bytes)
    requires Run(env, states, hs) && Good(states[0]) && i < |hs|
    ensures Justified(env, states[i], hs[i], id, states[i + 1])
    ensures InfoJustified(env, states[i], hs[i], states[i + 1])
    ensures HeaderJustified(env, states[i], hs[i], states[i + 1])
  {
    hide Step, Good, Justified, InfoJustified, HeaderJustified;
    RunGood(env, states, hs, i);
    RunEntry(env, states, hs, i, id);
    StepParts(env, states[i], hs[i], states[i + 1]);
  }

  ghost predicate Holds(s: ClientState, id: Bytes) {
    Lookup(s, id).Some?
  }

  ghost predicate Frozen(s: ClientState, id: Bytes, e: MSPInfo) {
    Lookup(s, id) == Some(e) && e.freezed
  }

  lemma FrozenStep(env: Env, s: ClientState, h: Header, id: Bytes, s': ClientState, e: MSPInfo)
    requires Justified(env, s, h, id, s') && Frozen(s, id, e)
    ensures Frozen(s', id, e)
  {
    hide Lookup, Authorized, ValidHeader;
  }

  /** A frozen MSP stays in the table, frozen, with its config and policy, for the rest of every run. */
  lemma {:induction false} FrozenForever(env: Env, states: seq<ClientState>, hs: seq<Header>, i: nat, j: nat, id: Bytes, e: MSPInfo)
    requires Run(env, states, hs) && Good(states[0]) && i <= j < |states|
    requires Frozen(states[i], id, e)
    ensures Frozen(states[j], id, e)
    decreases j
  {
    hide Step, Good, Frozen, Justified, Lookup;
    if i < j {
      FrozenForever(env, states, hs, i, j - 1, id, e);
      RunEntry(env, states, hs, j - 1, id);
      FrozenStep(env, states[j - 1], hs[j - 1], id, states[j], e);
    }
  }

  /** No MSP is ever removed. */
  lemma {:induction false} NothingRemoved(env: Env, states: seq<ClientState>, hs: seq<Header>, i: nat, j: nat, id: Bytes)
    requires Run(env, states, hs) && Good(states[0]) && i <= j < |states|
    requires Holds(states[i], id)
    ensures Holds(states[j], id)
    decreases j
  {
    hide Step, Good, Justified, Holds;
    if i < j {
      NothingRemoved(env, states, hs, i, j - 1, id);
      RunEntry(env, states, hs, j - 1, id);
    }
  }

  /** No MSP without a name ever enters a table. */
  lemma {:induction false} NoneNameless(env: Env, states: seq<ClientState>, hs: seq<Header>, j: nat)
    requires Run(env, states, hs) && Good(states[0]) && j < |states| && !Holds(states[0], [])
    ensures !Holds(states[j], [])
    decreases j
  {
    hide Step, Good, Justified, Holds;
    if j > 0 {
      NoneNameless(env, states, hs, j - 1);
      RunEntry(env, states, hs, j - 1, []);
      NamelessStep(env, states[j - 1], hs[j - 1], states[j]);
    }
  }

  lemma NamelessStep(env: Env, s: ClientState, h: Header, s': ClientState)
    requires Justified(env, s, h, [], s') && !Holds(s, [])
    ensures !Holds(s', [])
  {
    hide Lookup, Authorized, Permits;
  }

  // ---------------------------------------------------------------- frozen MSPs and the configs

  /** A table without the entries of one MSP. */
  function Without(infos: Infos, id: Bytes): Infos {
    if infos == [] then []
    else if infos[0].mspId == id then Without(infos[1..], id)
    else [infos[0]] + Without(infos[1..], id)
  }

  predicate AllFrozen(infos: Infos, id: Bytes) {
    forall k :: 0 <= k < |infos| && infos[k].mspId == id ==> infos[k].freezed
  }

  function CountUnfrozen(infos: Infos): nat {
    if infos == [] then 0 else CountUnfrozen(infos[1..]) + if infos[0].freezed then 0 else 1
  }

  /** There are as many configs as entries that are not frozen, and leaving entries out loses no others. */
  lemma {:induction false} ConfigsCount(env: Env, infos: Infos, id: Bytes)
    requires Configs(env, infos).Some?
    ensures |Configs(env, infos).value| == CountUnfrozen(infos)
    ensures Configs(env, Without(infos, id)).Some? && |Configs(env, Without(infos, id)).value| == CountUnfrozen(Without(infos, id))
    decreases |infos|
  {
    if infos != [] {
      ConfigsCount(env, infos[1..], id);
      assert infos[0].mspId != id ==> Without(infos, id)[1..] == Without(infos[1..], id);
    }
  }

  lemma {:induction false} UnfrozenSplit(infos: Infos, id: Bytes)
    ensures CountUnfrozen(Without(infos, id)) <= CountUnfrozen(infos)
    ensures CountUnfrozen(Without(infos, id)) == CountUnfrozen(infos) ==> AllFrozen(infos, id)
    decreases |infos|
  {
    if infos != [] {
      UnfrozenSplit(infos[1..], id);
      assert infos[0].mspId != id ==> Without(infos, id)[1..] == Without(infos[1..], id);
      assert forall k :: 0 < k < |infos| ==> infos[k] == infos[1..][k - 1];
    }
  }

  lemma {:induction false} FrozenDoNotCount(env: Env, infos: Infos, id: Bytes)
    requires AllFrozen(infos, id)
    ensures Configs(env, infos) == Configs(env, Without(infos, id))
    decreases |infos|
  {
    if infos != [] {
      FrozenDoNotCount(env, infos[1..], id);
      assert infos[0].mspId != id ==> Without(infos, id)[1..] == Without(infos[1..], id);
    }
  }

  /** An MSP contributes nothing to the configs that proofs are checked with if and only if all its entries are frozen. */
  lemma CountsExactly(env: Env, infos: Infos, id: Bytes)
    requires Configs(env, infos).Some?
    ensures Configs(env, infos) == Configs(env, Without(infos, id)) <==> AllFrozen(infos, id)
  {
    hide Configs, Without, CountUnfrozen, AllFrozen;
    if AllFrozen(infos, id) {
      FrozenDoNotCount(env, infos, id);
    } else {
      ConfigsCount(env, infos, id);
      UnfrozenSplit(infos, id);
    }
  }

  lemma NormalCons(x: MSPInfo, rest: Infos)
    ensures NormalInfos([x] + rest) == [NormalMSPInfo(x)] + NormalInfos(rest)
  {}

  lemma {:induction false} NormalEntries(infos: Infos, id: Bytes)
    ensures Entries(NormalInfos(infos), id) == NormalInfos(Entries(infos, id))
    decreases |infos|
  {
    if infos != [] {
      var x, rest := infos[0], infos[1..];
      NormalEntries(rest, id);
      NormalCons(x, rest);
      NormalCons(x, Entries(rest, id));
      hide NormalInfos;
      assert infos == [x] + rest;
      assert ([NormalMSPInfo(x)] + NormalInfos(rest))[1..] == NormalInfos(rest);
    }
  }

  /** No accepted header names a frozen MSP. */
  lemma FrozenNotNamed(env: Env, s: ClientState, h: Header, id: Bytes, e: MSPInfo)
    requires CheckValidity(env, s, h) == Accept && Frozen(s, id, e)
    ensures forall mh :: mh in Batch(h) ==> mh.mspId != id
  {
    hide CheckValidity, Authorized, ValidHeader;
    AcceptedBatch(env, s, h);
  }

  lemma FrozenEntriesStep(env: Env, s: ClientState, h: Header, s': ClientState, id: Bytes, e: MSPInfo)
    requires Good(s) && Step(env, s, h, s') && Frozen(s, id, e)
    ensures Entries(s'.lastMspInfos.infos, id) == Entries(s.lastMspInfos.infos, id)
  {
    if CheckValidity(env, s, h) == Accept {
      AcceptedIsApplied(env, s, h);
      FrozenNotNamed(env, s, h, id, e);
      var u := Apply(s, h).value.client;
      AppliedInfos(s, h);
      hide CheckValidity, Apply, Frozen, ApplyAll, Entries;
      BatchKeepsEntries(s.lastMspInfos.infos, Batch(h), id);
      NormalEntries(u.lastMspInfos.infos, id);
      NormalEntries(s.lastMspInfos.infos, id);
      assert s'.lastMspInfos.infos == NormalInfos(u.lastMspInfos.infos);
      assert s.lastMspInfos.infos == NormalInfos(s.lastMspInfos.infos);
    } else {
      hide CheckValidity;
      assert s' == s;
    }
  }

  /** The table that an update leaves is the batch applied to the old one. */
  lemma AppliedInfos(s: ClientState, h: Header)
    requires Apply(s, h).Some?
    ensures ApplyAll(s.lastMspInfos.infos, Batch(h)) == Some(Apply(s, h).value.client.lastMspInfos.infos)
  {
    hide ValidBasic;
  }

  /** All entries of an ID stay as they are, through every run, once the first of them is frozen. */
  lemma {:induction false} FrozenEntriesKept(env: Env, states: seq<ClientState>, hs: seq<Header>, i: nat, j: nat, id: Bytes, e: MSPInfo)
    requires Run(env, states, hs) && Good(states[0]) && i <= j < |states| && Frozen(states[i], id, e)
    ensures Entries(states[j].lastMspInfos.infos, id) == Entries(states[i].lastMspInfos.infos, id)
    decreases j
  {
    hide Step, Good, Frozen, Entries;
    if i < j {
      FrozenEntriesKept(env, states, hs, i, j - 1, id, e);
      FrozenForever(env, states, hs, i, j - 1, id, e);
      RunGood(env, states, hs, j - 1);
      FrozenEntriesStep(env, states[j - 1], hs[j - 1], states[j], id, e);
    }
  }

  lemma SameFreezing(a: Infos, b: Infos, id: Bytes)
    requires Entries(a, id) == Entries(b, id) && AllFrozen(a, id)
    ensures AllFrozen(b, id)
  {
    hide Entries;
    EntriesAt(a, id);
    EntriesAt(b, id);
    forall k | 0 <= k < |b| && b[k].mspId == id
      ensures b[k].freezed
    {
      assert b[k] in a;
    }
  }

  /**
   Once an MSP is frozen, proofs are checked without it for the rest of every run, if and only
   if the table then held no unfrozen entry of the same ID.
   */
  lemma FrozenNeverCounts(env: Env, states: seq<ClientState>, hs: seq<Header>, i: nat, j: nat, id: Bytes, e: MSPInfo)
    requires Run(env, states, hs) && Good(states[0]) && i <= j < |states| && Frozen(states[i], id, e)
    requires Configs(env, states[j].lastMspInfos.infos).Some?
    ensures Configs(env, states[j].lastMspInfos.infos) == Configs(env, Without(states[j].lastMspInfos.infos, id))
       <==> AllFrozen(states[i].lastMspInfos.infos, id)
  {
    hide Run, Good, Frozen, Configs, Without, AllFrozen, Entries;
    FrozenEntriesKept(env, states, hs, i, j, id, e);
    var before, after := states[i].lastMspInfos.infos, states[j].lastMspInfos.infos;
    CountsExactly(env, after, id);
    if AllFrozen(before, id) {
      SameFreezing(before, after, id);
    }
    if AllFrozen(after, id) {
      SameFreezing(after, before, id);
    }
  }

  /** In a table of distinct IDs there is no other entry. */
  lemma DistinctAllFrozen(s: ClientState, id: Bytes, e: MSPInfo)
    requires Distinct(s.lastMspInfos.infos) && Frozen(s, id, e)
    ensures AllFrozen(s.lastMspInfos.infos, id)
  {
    ViewIndex(s.lastMspInfos.infos, id);
  }

  /** With policies that are always satisfied and configs that always parse. */
  function WillingEnv(): Env {
    Env(_ => Some(0), (_, _) => Evaluator(0), (_, _) => true, _ => None)
  }

  function TwiceListed(id: Bytes, config: Bytes, freezed: bool): ClientState {
    ClientState([], ZERO_CHAINCODE_HEADER, ZERO_CHAINCODE_INFO,
                MSPInfos([MSPInfo(id, Some(config), None, freezed), MSPInfo(id, Some(config), None, false)]))
  }

  function FreezeOf(id: Bytes): Header {
    Header(None, None, Some(MSPHeaders([MSPHeader(FREEZE, id, None, None, Some(MessageProof([], [])))])))
  }

  /** An MSP that is listed twice is frozen once: the second entry still counts after the accepted header. */
  lemma SecondEntryCounts(id: Bytes, config: Bytes)
    requires id != [] && config != []
    ensures var env, s, s' := WillingEnv(), TwiceListed(id, config, false), TwiceListed(id, config, true);
            && Good(s) && CheckValidity(env, s, FreezeOf(id)) == Accept && Step(env, s, FreezeOf(id), s')
            && Frozen(s', id, s'.lastMspInfos.infos[0]) && Configs(env, s'.lastMspInfos.infos) == Some([0])
            && Configs(env, Without(s'.lastMspInfos.infos, id)) == Some([])
  {
    var env, s, s' := WillingEnv(), TwiceListed(id, config, false), TwiceListed(id, config, true);
    var first, second := MSPInfo(id, Some(config), None, true), MSPInfo(id, Some(config), None, false);
    TwoEntries(env, second, second);
    TwoEntries(env, first, second);
    FreezeAccepted(env, s, id);
    var mh := Batch(FreezeOf(id))[0];
    assert ApplyHeader([second, second], mh) == Some([second, second][0 := first]);
    assert [second, second][0 := first] == [first, second];
    assert Batch(FreezeOf(id))[1..] == [];
    assert ApplyAll([second, second], Batch(FreezeOf(id))) == Some([first, second]);
    assert NormalInfos([first, second]) == [first, second] && NormalInfos([second, second]) == [second, second];
    hide CheckValidity, ApplyAll, Configs, Without;
  }

  /** The same header changes the table of its caller, through the shared array. */
  lemma CallerTableChanged(id: Bytes, config: Bytes)
    requires id != [] && config != []
    ensures var s := TwiceListed(id, config, false);
            && CheckValidity(WillingEnv(), s, FreezeOf(id)) == Accept
            && ApplyAll(s.lastMspInfos.infos, I.BeforeFirstCreate(Batch(FreezeOf(id))))
               == Some(TwiceListed(id, config, true).lastMspInfos.infos)
            && s.lastMspInfos.infos != TwiceListed(id, config, true).lastMspInfos.infos
  {
    SecondEntryCounts(id, config);
    var hs := Batch(FreezeOf(id));
    assert hs[1..] == [] && I.BeforeFirstCreate(hs) == hs;
    var second := MSPInfo(id, Some(config), None, false);
    var infos := [second, second];
    assert ApplyHeader(infos, hs[0]) == Some(infos[0 := second.(freezed := true)]);
    assert infos[0 := second.(freezed := true)] == [second.(freezed := true), second];
    hide CheckValidity;
    assert infos[0] != [second.(freezed := true), second][0];
  }

  lemma TwoEntries(env: Env, a: MSPInfo, b: MSPInfo)
    requires a.mspId == b.mspId && a.config.Some? && b.config.Some? && !b.freezed && env.parseConfig == WillingEnv().parseConfig
    ensures Configs(env, [a, b]) == Some(if a.freezed then [0] else [0, 0])
    ensures Without([a, b], a.mspId) == [] && Configs(env, []) == Some([]) && View([a, b])[a.mspId] == a
  {
    assert [a, b][1..] == [b] && [b][1..] == [];
    assert Configs(env, [b]) == Some([0] + []);
    assert [0] + [0] == [0, 0] && [0] + [] == [0];
    assert Without([b], a.mspId) == [];
  }

  lemma FreezeAccepted(env: Env, s: ClientState, id: Bytes)
    requires env == WillingEnv() && id != [] && Configs(env, s.lastMspInfos.infos).Some?
    requires IndexOf(s.lastMspInfos.infos, id) >= 0 && !s.lastMspInfos.infos[IndexOf(s.lastMspInfos.infos, id)].freezed
    ensures CheckValidity(env, s, FreezeOf(id)) == Accept
  {
    var h := FreezeOf(id);
    var mh := Batch(h)[0];
    assert Batch(h) == [mh];
    ViewIndex(s.lastMspInfos.infos, id);
    HeaderAccepted(env, s, h);
    hide CheckValidity, SignBytes, Configs;
    assert Authorized(env, s, mh) && Timely(s.lastMspInfos.infos, mh);
  }

  // ---------------------------------------------------------------- what a signature covers

  /**
   What is signed is everything but the proof: two valid MSP headers have the same signed
   bytes if and only if they ask for the same change. On valid headers even the difference
   between nil and empty is signed, through the type.
   */
  lemma SignBytesInjective(a: MSPHeader, b: MSPHeader)
    requires ValidHeader(a) && ValidHeader(b) && |SignBytes(a)| < TWO63
    ensures SignBytes(a) == SignBytes(b) <==> a.(proof := None) == b.(proof := None)
  {
    if SignBytes(a) == SignBytes(b) {
      MSPHeaderRoundTrip(a.(proof := None));
      MSPHeaderRoundTrip(b.(proof := None));
      hide MSPHeaderBytes;
      assert NormalMSPHeader(a.(proof := None)) == NormalMSPHeader(b.(proof := None));
    }
  }

  /** The same for chaincode info, up to nil and empty policies. */
  lemma InfoSignBytesInjective(a: ChaincodeInfo, b: ChaincodeInfo)
    requires |InfoSignBytes(a)| < TWO63
    ensures InfoSignBytes(a) == InfoSignBytes(b)
       <==> NormalChaincodeInfo(a.(proof := None)) == NormalChaincodeInfo(b.(proof := None))
  {
    if InfoSignBytes(a) == InfoSignBytes(b) {
      ChaincodeInfoRoundTrip(a.(proof := None));
      ChaincodeInfoRoundTrip(b.(proof := None));
    }
  }

  /**
   Storing a table keeps the configs it yields exactly when no entry that is not frozen
   has an empty config: such an entry is nil when read back, and nil is refused.
   */
  lemma {:induction false} StoredConfigs(env: Env, infos: Infos)
    requires Configs(env, infos).Some?
    ensures Configs(env, NormalInfos(infos)) == Configs(env, infos)
        <==> forall i :: 0 <= i < |infos| && !infos[i].freezed ==> infos[i].config != Some([])
    ensures Configs(env, NormalInfos(infos)) == Configs(env, infos) || Configs(env, NormalInfos(infos)) == None
    decreases |infos|
  {
    if infos != [] {
      StoredConfigs(env, infos[1..]);
      assert NormalInfos(infos)[1..] == NormalInfos(infos[1..]);
      assert forall i :: 0 < i < |infos| ==> infos[i] == infos[1..][i - 1];
      assert forall i :: 0 <= i < |infos[1..]| ==> infos[1..][i] == infos[i + 1];
    }
  }

  /** An empty config reaches a client: a header whose config field is written out with length zero decodes to one. */
  lemma EmptyConfigArrives(m: MSPHeader)
    requires |MSPHeaderBytes(m)| + 2 < TWO63
    ensures Decode(MSP_HEADER_SCHEMA, ZERO_MSP_HEADER, MSPHeaderBytes(m) + BytesField(3, []), 0)
         == Ok(NormalMSPHeader(m).(config := Some([])))
    ensures ValidHeader(m) && m.config.Some? && m.policy != Some([])
            ==> ValidHeader(NormalMSPHeader(m).(config := Some([])))
  {
    hide Decode, V.Encode, MSPHeaderBytes;
    var b, field := MSPHeaderBytes(m), BytesField(3, []);
    MSPHeaderRoundTrip(m);
    DecodeConcat(MSP_HEADER_SCHEMA, ZERO_MSP_HEADER, b, field, 0);
    assert field + [] == field;
    assert |field| == 2 by { EmptyFieldSize(); }
    DecodeBytesField(MSP_HEADER_SCHEMA, NormalMSPHeader(m), 3, [], [], |b|);
    DecodeDone(MSP_HEADER_SCHEMA, NormalMSPHeader(m).(config := Some([])), |b| + |field|);
  }

  lemma EmptyFieldSize()
    ensures |BytesField(3, [])| == 2
  {}

  lemma {:induction false} MissingConfig(env: Env, infos: Infos, i: nat)
    requires i < |infos| && !infos[i].freezed && infos[i].config.None?
    ensures Configs(env, infos) == None
    decreases |infos|
  {
    if i > 0 {
      MissingConfig(env, infos[1..], i - 1);
    }
  }

  /** An accepted header that gives an MSP an empty config leaves a state without configs. */
  lemma EmptyConfigStored(env: Env, s: ClientState, h: Header, s': ClientState, mh: MSPHeader)
    requires Good(s) && CheckValidity(env, s, h) == Accept && Step(env, s, h, s')
    requires mh in Batch(h) && mh.typ in {CREATE, UPDATE_CONFIG} && mh.config == Some([])
    ensures Configs(env, s'.lastMspInfos.infos) == None
  {
    hide CheckValidity, Step, Good, Authorized, ValidHeader, Simultaneous, Configs;
    AcceptedBatch(env, s, h);
    AcceptedStored(env, s, h, s');
    EntryPermitted(TableOf(s), Batch(h), mh);
    ViewIndex(s'.lastMspInfos.infos, mh.mspId);
    MissingConfig(env, s'.lastMspInfos.infos, IndexOf(s'.lastMspInfos.infos, mh.mspId));
  }

  /** A state without configs accepts nothing that would change it. */
  lemma DisabledStep(env: Env, s: ClientState, h: Header, s': ClientState)
    requires Good(s) && Configs(env, s.lastMspInfos.infos) == None && Step(env, s, h, s')
    ensures s' == s
  {
    hide Configs, ValidBasic;
    HeaderAccepted(env, s, h);
    if CheckValidity(env, s, h) == Accept {
      hide CheckValidity;
      NoPartAuthorized(env, s, h);
    }
  }

  lemma NoPartAuthorized(env: Env, s: ClientState, h: Header)
    requires Configs(env, s.lastMspInfos.infos) == None && CheckValidity(env, s, h) == Accept
    ensures h.chaincodeHeader.None? && h.chaincodeInfo.None? && Batch(h) == []
  {
    hide Configs, ValidBasic, CheckValidity;
    assert Batch(h) == [] || Batch(h)[0] in Batch(h);
    HeaderAccepted(env, s, h);
  }

  /** So such a header disables the client for the rest of every run. */
  lemma {:induction false} DisabledForever(env: Env, states: seq<ClientState>, hs: seq<Header>, i: nat, j: nat)
    requires Run(env, states, hs) && Good(states[0]) && i <= j < |states|
    requires Configs(env, states[i].lastMspInfos.infos) == None
    ensures states[j] == states[i]
    decreases j
  {
    hide Step, Good, Configs;
    if i < j {
      DisabledForever(env, states, hs, i, j - 1);
      RunGood(env, states, hs, j - 1);
      DisabledStep(env, states[j - 1], hs[j - 1], states[j]);
    }
  }

  // ---------------------------------------------------------------- progress

  /** The latest sequences of a run: each is the one before, or follows it. */
  predicate Progression(seqs: seq<Sequence>) {
    seqs != [] && forall i :: 0 <= i < |seqs| - 1 ==> seqs[i + 1] == seqs[i] || Follows(seqs[i], seqs[i + 1])
  }

  /** How often the sequence moved on. */
  function Moves(seqs: seq<Sequence>): nat {
    if |seqs| <= 1 then 0
    else Moves(seqs[..|seqs| - 1]) + if seqs[|seqs| - 1] == seqs[|seqs| - 2] then 0 else 1
  }

  lemma NextHeight(x: nat)
    ensures (x % TWO64 + 1) % TWO64 == (x + 1) % TWO64
  {}

  lemma {:induction false} MovesCount(seqs: seq<Sequence>)
    requires Progression(seqs)
    ensures seqs[|seqs| - 1].timestamp >= seqs[0].timestamp + Moves(seqs)
    ensures seqs[|seqs| - 1].value == (seqs[0].value + Moves(seqs)) % TWO64
    decreases |seqs|
  {
    if |seqs| > 1 {
      var before := seqs[..|seqs| - 1];
      MovesCount(before);
      assert before[|before| - 1] == seqs[|seqs| - 2];
      NextHeight(seqs[0].value + Moves(before));
    }
  }

  /** A sequence from which no progression can wrap: the timestamps run out first. */
  predicate CannotWrap(first: Sequence) {
    first.value - first.timestamp <= TWO63
  }

  /** From such a sequence every height of every progression is the first plus the number of moves, without wrapping. */
  lemma HeightsDoNotWrap(seqs: seq<Sequence>)
    requires Progression(seqs) && CannotWrap(seqs[0])
    ensures seqs[|seqs| - 1].value == seqs[0].value + Moves(seqs)
  {
    MovesCount(seqs);
  }

  /** And from no other: otherwise sequences can follow one another to height 0. */
  lemma WrapWitness(first: Sequence) returns (seqs: seq<Sequence>)
    requires !CannotWrap(first)
    ensures seqs != [] && seqs[0] == first && forall i :: 1 <= i < |seqs| ==> Follows(seqs[i - 1], seqs[i])
    ensures seqs[|seqs| - 1].value == 0
  {
    var n := TWO64 - first.value;
    seqs := seq(n + 1, i requires 0 <= i <= n =>
      Sequence(if i == n then 0 else first.value + i, first.timestamp + i));
  }

  /** A run of the client is a progression of its latest sequences. */
  lemma RunProgresses(env: Env, states: seq<ClientState>, hs: seq<Header>)
    requires Run(env, states, hs) && Good(states[0])
    ensures Progression(seq(|states|, i requires 0 <= i < |states| => states[i].lastChaincodeHeader.sequence))
  {
    var seqs := seq(|states|, i requires 0 <= i < |states| => states[i].lastChaincodeHeader.sequence);
    forall i | 0 <= i < |seqs| - 1
      ensures seqs[i + 1] == seqs[i] || Follows(seqs[i], seqs[i + 1])
    {
      hide Step, Good, Follows, InfoJustified;
      RunGood(env, states, hs, i);
      StepParts(env, states[i], hs[i], states[i + 1]);
    }
  }

  /**
   Client progress: in every run that starts where heights cannot wrap, the height has
   grown by exactly the number of accepted chaincode headers that moved it.
   */
  lemma ClientHeights(env: Env, states: seq<ClientState>, hs: seq<Header>)
    requires Run(env, states, hs) && Good(states[0])
    requires CannotWrap(states[0].lastChaincodeHeader.sequence)
    ensures var seqs := seq(|states|, i requires 0 <= i < |states| => states[i].lastChaincodeHeader.sequence);
            states[|hs|].lastChaincodeHeader.sequence.value == states[0].lastChaincodeHeader.sequence.value + Moves(seqs)
  {
    RunProgresses(env, states, hs);
    HeightsDoNotWrap(seq(|states|, i requires 0 <= i < |states| => states[i].lastChaincodeHeader.sequence));
  }
}
