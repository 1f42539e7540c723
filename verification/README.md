# A model of the Fabric IBC module

This project models the core of yui-fabric-ibc, which lets a Hyperledger Fabric chaincode take
part in IBC, and proves properties of that model in Dafny. `dafny verify dfyconfig.toml` verifies all of it.

The model has five parts.

- **Wire codec.** `Varint`, `Wire`, `Messages`, `Codec` and `BufferWriter` are the generated protobuf
  code: the backwards writer into a pre-sized buffer, the size arithmetic, and the forward parser with
  group skipping. The parser is generic in a schema, and each message type has a schema, a byte form
  and a round trip; `WireLayout` states the bytes of each message by its literal tags.
- **Light client.** `MspTable` and `InPlaceTable` are the sorted MSP table, as a value and as the shared
  array that the Go code writes into. `LightClient` is `CheckHeaderAndUpdateState` with everything it
  calls. `ClientRuns` proves what holds over whole runs of accepted headers.
- **Chain and agreement.** `SequenceManager` is the height and timestamp counter, `ChainHistory` the
  chain with all its writes, and `TwoChains` the chain and its counterparty client together. `Quorum` is
  the threshold of the policies that the relayer makes.
- **Ledger.** `Text` and `Keys` are the textual keys, `LedgerStub` the flat ledger, `LedgerDb` the hex
  database with iterators and batches on it, `Stores` the prefixed stores, and `Endorsement` the
  commitment entries and the client functions that verify them.
- **Transactions and events.** `RunTx` is transaction execution on nested caches, `EventParser` and
  `PacketIndex` are the positional event parser and the packet index.

Conventions. Go strings and byte slices are sequences of bytes, and `None` is nil where nil and empty
differ. Panics are outcomes, not preconditions. Integer wrap-around is written out. Parsing of MSP
configs, policy construction and evaluation, and the decoding of an endorsed proposal are functions of an
environment (`LightClient.Env`), about which nothing is assumed; the agreement theorems say explicitly
which proofs they trust, and for what. The clock and transaction timestamps are parameters.

Properties that turned out not to hold everywhere have their exact condition: the minimum interval and
ascending timestamps (`SequenceManager.IntervalEnforced`, `TimesAscendExactly`), catching up
(`TwoChains.CatchUpExactly`), wrap-around of client heights (`ClientRuns.HeightsDoNotWrap` and
`TwoChains.WrapRun`), the caller's table under in-place writes (`InPlaceTable.CallerTableKept`), empty
configs after storing (`ClientRuns.StoredConfigs`, with `EmptyConfigStored` and `DisabledForever` for what
follows), store isolation (`Stores.IsolatedExactly`), iterators that panic on foreign keys
(`Stores.SharedPanics`), frozen MSPs of a repeated ID (`ClientRuns.FrozenNeverCounts`), a second
initialisation (`ChainHistory.SecondInit`) and queries for acknowledgements with a slash
(`PacketIndex.AckQueryExactly`). Keys collide only when both hold a slash in an identifier
(`Keys.KeysNeverCollide`, `Keys.SlashCollides`); the identifiers that ICS-24 allows have none.

The comment on `VerifyPacketReceiptAbsence` speaks of an acknowledgement; the code and the model are
about the receipt.

## Model

| member | source | states |
|---|---|---|
| `TwoChains.Agreement` | light-clients/fabric/types/update.go:49-74 | Two-chain agreement over every interleaving of sequence updates, endorsements, other writes under any keys and any client updates, rejected and forged ones included, whatever the clocks: the client's latest sequence is the one the chain stores at that height and has a consensus state, and every consensus state it stored is what `GetSelfConsensusState` returns there. |
| `TwoChains.AgreementFromInit` | chaincode/chaincode.go:95-120 | The same from one `InitSequence` on: any run of the chain, a client created at some sequence of its history, then any interleaving. |
| `TwoChains.SaneClocksSuffice` | chaincode/commitment/sequence.go:102-113 | With an interval of at least a second, clocks away from the end of time and spaced positive timestamps to start from, no run, however long, reaches 2^63 heights, so the length condition of agreement always holds. |
| `TwoChains.AcceptedSequence` | light-clients/fabric/types/fabric.go:19-33 | A chaincode header that a client accepts, with a proof that selects a write made on the chain, carries a sequence of the chain's history (injectivity of keys and of sequence bytes). |
| `TwoChains.NextKeeps` | light-clients/fabric/keeper/client_keeper.go:37-43 | Every single step of either chain keeps the stored history and the agreement. |
| `TwoChains.CatchUp` | light-clients/fabric/types/update.go:49-66 | A client at height k that is given the endorsed later sequences accepts every one and ends at the last, after exactly as many updates as it was behind, if the timestamps from k on ascend. |
| `TwoChains.CatchUpExactly` | light-clients/fabric/types/update.go:49-66 | With the later sequences endorsed, some allowed run brings the client to the end of the history if and only if the timestamps from its height on strictly ascend. |
| `TwoChains.CatchUpFromInit` | chaincode/commitment/sequence.go:54-113 | From one `InitSequence` with a positive timestamp, through any run with clocks away from the end of time, a client at any height of the history reaches what `GetCurrentSequence` returns. |
| `TwoChains.StuckBelow` | light-clients/fabric/types/update.go:49-66 | Where a stored timestamp does not exceed the one before it, no client gets past the earlier height in any allowed run. |
| `TwoChains.EpochDoesNotAscend` | chaincode/commitment/sequence.go:102-113 | Such a history exists: with clock and timestamps 0 the chain stores two heights with one timestamp. |
| `TwoChains.WrapRun` | light-clients/fabric/types/update.go:49-66 | From every first sequence that `ClientRuns.CannotWrap` excludes there is a run of accepted headers, with a satisfied policy, that ends at height 0. |
| `TwoChains.NoShortcut` | light-clients/fabric/types/client_state.go:60-72 | No run gets there with fewer updates. |
| `SequenceManager.Manager.InitSequence` | chaincode/commitment/sequence.go:54-67 | Validates against a previous timestamp of 0 and writes sequence 1 under both keys, or changes nothing; there is no guard against a second call. |
| `SequenceManager.Manager.UpdateSequence` | chaincode/commitment/sequence.go:81-100 | Writes the next height (modulo 2^64) with the transaction's timestamp under both keys, or returns the error and changes nothing. |
| `SequenceManager.Manager.StoreBoth` | chaincode/commitment/sequence.go:147-163 | The current key and the history key are both set, and nothing else. |
| `SequenceManager.TimestampVerdict` | chaincode/commitment/sequence.go:102-113 | For every clock, previous and next timestamp and config: which timestamps are refused as future, as past or as too soon, each if and only if, with the int64 sums wrapped; the others are accepted. |
| `SequenceManager.AcceptedWindow` | chaincode/commitment/sequence.go:102-113 | Where no sum wraps a timestamp is accepted if and only if it is within the skew on both sides of the clock and, after a positive one, at least the interval later. |
| `SequenceManager.SecondsExactly` | chaincode/commitment/sequence.go:102-113 | A duration counts as its whole seconds, toward zero. |
| `SequenceManager.IntervalEnforced` | chaincode/commitment/sequence.go:102-113 | The minimum interval is enforced for every clock if and only if the previous timestamp is positive and the sum does not wrap. |
| `SequenceManager.IntervalMissed` | chaincode/commitment/sequence.go:102-113 | Otherwise there is a clock with which the previous timestamp itself is accepted again. |
| `SequenceManager.TimesAscendExactly` | chaincode/commitment/sequence.go:102-113 | Every accepted timestamp is later than the previous one if and only if that one is positive and the sum with the interval does not wrap. |
| `ChainHistory.EndorseSequenceCommitment` | chaincode/chaincode.go:95-120 | Endorsing the current or a given height writes exactly one entry, the one it returns. |
| `ChainHistory.InitSequence` | chaincode/chaincode.go:59-61 | `InitSequence` of the chaincode, on the stub, is the initial step of a run when the chain is clean. |
| `ChainHistory.UpdateSequence` | chaincode/chaincode.go:91-93 | `UpdateSequence` of the chaincode, on the stub, is the advance step of a run. |
| `ChainHistory.SecondInit` | chaincode/commitment/sequence.go:54-67 | A second `InitSequence` leaves the stored history as it was if and only if that is the first height alone with the same timestamp. |
| `ChainHistory.StepKeeps` | chaincode/commitment/sequence.go:147-163 | Every event keeps: all heights from 1 on are stored under their own keys, none beyond, the last as the current one, and every sequence commitment ever written is the sequence of its height. |
| `ChainHistory.HistoryKept` | chaincode/commitment/sequence.go:147-163 | The same over every run and every clock, with the old history a prefix of the new: no stored height ever changes. |
| `ChainHistory.RateBound` | chaincode/commitment/sequence.go:102-113 | The number of heights is bounded by the time between first and last timestamp, in intervals. |
| `ChainHistory.RunFromInit` | chaincode/commitment/sequence.go:54-113 | From initialisation with a positive timestamp, through any run with clocks away from the end of time: complete history, and (heights - 1) intervals fit between the first timestamp and the latest clock plus skew. |
| `LightClient.ValidateBatch` | light-clients/fabric/types/header.go:147-165 | The loop with a seen-map and a previous ID accepts exactly the batches of valid headers with strictly ascending IDs. |
| `LightClient.GetMSPPBConfigs` | light-clients/fabric/types/msp.go:21-39 | The loop succeeds if and only if every unfrozen entry has a config that parses, and then yields exactly their parsed configs, in the order of the table. |
| `LightClient.ConfigsExactly` | light-clients/fabric/types/msp.go:21-39 | The configs are the parsed config bytes at a strictly increasing list of exactly the unfrozen indices. |
| `LightClient.MessageVerdict` | light-clients/fabric/types/fabric.go:152-162 | An endorsed message is accepted if and only if the policy has an evaluator under the configs and is satisfied by one signed-data item for each signature: the message itself, the identity at that place and the signature; more signatures than identities panic. |
| `LightClient.CommitmentVerdict` | light-clients/fabric/types/fabric.go:165-214 | An endorsed commitment is accepted if and only if the proposal is signed so that the policy is satisfied, names the chaincode, and its write set holds exactly that key and value at the given indices; the panics are characterised too. |
| `LightClient.ChaincodeHeaderVerdict` | light-clients/fabric/types/fabric.go:19-33 | A chaincode header is accepted if and only if its proof selects, under the configs and endorsement policy of the state, the write of its sequence under the commitment key of its height. |
| `LightClient.InfoVerdict` | light-clients/fabric/types/fabric.go:36-45 | Chaincode info is accepted if and only if it has a proof and its signed bytes are endorsed under the IBC policy of the state. |
| `LightClient.VerifyMSPHeaders` | light-clients/fabric/types/fabric.go:47-54 | The loop stops at the first header that is not accepted against the unchanged state. |
| `LightClient.VerifyAllEach` | light-clients/fabric/types/fabric.go:47-149 | A batch is accepted if and only if every header is, each against the pre-state. |
| `LightClient.HeaderAcceptedExactly` | light-clients/fabric/types/fabric.go:58-149 | A valid MSP header is accepted if and only if it creates what is absent, or changes what is present and not frozen, and is authorized: a signature list over its own signed bytes satisfies the IBC policy for a create, a policy change and a freeze, and that MSP's own policy for a config change, always with the unfrozen configs. |
| `LightClient.HeaderAccepted` | light-clients/fabric/types/update.go:39-102 | `checkValidity` accepts if and only if some part is present, a chaincode header is the next height, later and endorsed, chaincode info has a policy and is authorized, the MSP headers have ascending IDs, and each is valid, timely and authorized: all under the state before the header, and stated by signatures and policies rather than by the verifying functions. |
| `LightClient.AcceptedBatch` | light-clients/fabric/types/fabric.go:58-149 | In an accepted header the MSP headers have distinct IDs, and each is valid, suits the old table and is authorized under it. |
| `LightClient.ApplyAllNoPanic` | light-clients/fabric/types/update.go:132-192 | A batch of known types whose updates name entries of the table is applied without an index of -1 or a panic, whatever the order of the table. |
| `LightClient.AcceptedIsApplied` | light-clients/fabric/types/update.go:17-35 | Verify-then-apply soundness: a header that `checkValidity` accepts is applied without panic, for every batch length and mix. |
| `LightClient.AcceptedTable` | light-clients/fabric/types/update.go:106-137 | From a table in any order an accepted header yields a table whose map is the simultaneous update of the old one; an ascending table stays ascending and distinct IDs stay distinct. |
| `MspTable.InsertRefines` | light-clients/fabric/types/update.go:154-171 | In a list of any order inserting a new MSP adds exactly its entry to the map, and keeps ascending order and distinct IDs. |
| `MspTable.ReviseRefines` | light-clients/fabric/types/update.go:173-192 | In a list of any order writing one element changes exactly that entry of the map and no ID. |
| `MspTable.ApplyAllRefines` | light-clients/fabric/types/update.go:132-137 | On a list of any order the sequential fold over a batch with distinct, suitable IDs is the simultaneous update of the map, and keeps ascending order and distinct IDs. |
| `MspTable.OrderIndependent` | light-clients/fabric/types/update.go:132-137 | Any permutation of such a batch gives the same map, and from an ascending list the same list. |
| `MspTable.Canonical` | light-clients/fabric/types/header.go:147-165 | An ascending table is determined by its map. |
| `InPlaceTable.FindIndex` | light-clients/fabric/types/msp.go:79-86 | The search loop finds the first entry with the ID, or -1. |
| `InPlaceTable.CreateMSPInfo` | light-clients/fabric/types/update.go:154-171 | Builds a fresh array with the new entry in its place and leaves the old array as it was. |
| `InPlaceTable.ReviseMSPInfo` | light-clients/fabric/types/update.go:173-192 | Writes one element of the shared array, or reports the index -1. |
| `InPlaceTable.UpdateMSPInfos` | light-clients/fabric/types/update.go:132-152 | With in-place writes and aliasing the returned table is still the batch applied to the old one; the caller's array has become the old table with only the headers before the first create applied. |
| `InPlaceTable.CallerTableKept` | light-clients/fabric/types/update.go:173-192 | The caller's table, in any order, is left as it was if and only if no header before the first create changes its entry. |
| `ClientRuns.InitialTable` | relay/client-tx.go:37-51 | The relayer's loop builds the table from create headers and refuses any other type. |
| `ClientRuns.ChainOfTrust` | light-clients/fabric/types/fabric.go:36-149 | Over every run, from a table in any order: each change of an MSP entry, of the chaincode info or of the chaincode header was accepted under the state immediately before it and changed only what its type allows. |
| `ClientRuns.AppliedParts` | light-clients/fabric/types/update.go:106-130 | An accepted header stores exactly its chaincode info and chaincode header where it has them, keeps the others and the client ID, and returns a consensus state with its timestamp if and only if it has a chaincode header. |
| `ClientRuns.FrozenForever` | light-clients/fabric/types/fabric.go:90-149 | A frozen MSP stays in the table, frozen, with its config and policy, through every later state of every run. |
| `ClientRuns.NothingRemoved` | light-clients/fabric/types/update.go:187-192 | No MSP ID is ever removed. |
| `ClientRuns.NoneNameless` | light-clients/fabric/types/header.go:107-110 | In every run from a table without one, no entry has an empty ID. |
| `ClientRuns.FrozenNeverCounts` | light-clients/fabric/types/msp.go:21-39 | Once an MSP is frozen, the configs of every later state of every run are those of the table without it if and only if the table then held no unfrozen entry of the same ID; tables may repeat any IDs. |
| `ClientRuns.CountsExactly` | light-clients/fabric/types/msp.go:21-39 | In any table an MSP contributes nothing to the configs if and only if all its entries are frozen. |
| `ClientRuns.FrozenEntriesKept` | light-clients/fabric/types/fabric.go:90-149 | All entries of an ID stay as they are through every run once the first of them is frozen. |
| `ClientRuns.SecondEntryCounts` | light-clients/fabric/types/msp.go:21-39 | A freeze is accepted for an MSP that is listed twice, reaches the first entry only, and the second still counts in the state it leaves. |
| `ClientRuns.CallerTableChanged` | light-clients/fabric/types/update.go:187-192 | An accepted freeze changes the table of its caller through the shared array. |
| `ClientRuns.TableStaysOrderly` | light-clients/fabric/types/update.go:154-171 | Through every run an ascending table stays ascending and distinct IDs stay distinct. |
| `ClientRuns.SignBytesInjective` | light-clients/fabric/types/header.go:132-139 | Two valid MSP headers have the same signed bytes if and only if they ask for the same change. |
| `ClientRuns.InfoSignBytesInjective` | light-clients/fabric/types/header.go:88-95 | The same for chaincode info, up to nil and empty policies. |
| `ClientRuns.StoredConfigs` | light-clients/fabric/types/msp.go:21-39 | Storing and reading back a table keeps its configs if and only if no unfrozen entry has an empty, non-nil config. |
| `ClientRuns.EmptyConfigArrives` | light-clients/fabric/types/fabric.pb.go:2464-2668 | A config field written out with length zero decodes to an empty, non-nil config, and such a header is valid. |
| `ClientRuns.EmptyConfigStored` | light-clients/fabric/types/update.go:173-178 | An accepted create or config change with an empty config leaves a state from which no configs can be read. |
| `ClientRuns.DisabledForever` | light-clients/fabric/types/msp.go:21-39 | From such a state on the client never changes again, whatever headers follow. |
| `ClientRuns.RunProgresses` | light-clients/fabric/types/update.go:49-66 | In every run the latest sequence stays or is followed by the next height with a later timestamp. |
| `ClientRuns.HeightsDoNotWrap` | light-clients/fabric/types/update.go:49-66 | When first height minus first timestamp is at most 2^63 the uint64 height never wraps. |
| `ClientRuns.ClientHeights` | light-clients/fabric/types/client_state.go:60-72 | In every such run the height has grown by exactly the number of chaincode headers that moved it. |
| `Varint.SovIsLength` | chaincode/commitment/types.pb.go:271-273 | The size formula from the bit length equals the number of bytes of the varint, for every value. |
| `Varint.EncodeInto` | chaincode/commitment/types.pb.go:228-238 | The backwards varint writer fills exactly the bytes before the offset and leaves all others. |
| `Varint.ReadAt` | chaincode/commitment/types.pb.go:283-299 | The shift loop, with its overflow and end-of-input errors and the lost high bits of a tenth byte, computes the specified reading, in bounds on every input. |
| `Varint.RoundTrip` | chaincode/commitment/types.pb.go:283-299 | Every uint64 is read back from its encoding, whatever follows. |
| `Varint.EncodeAt` | chaincode/commitment/types.pb.go:228-238 | Byte i of a varint is the i-th group of seven bits, least significant first, with the high bit set on all but the last. |
| `Wire.Skip` | chaincode/commitment/types.pb.go:479-556 | On every input the skip loop ends, reads in bounds and consumes at least one byte, with nested groups and length overflow. |
| `Wire.SkipField` | chaincode/commitment/types.pb.go:479-556 | It skips exactly one well-formed field of any wire type, groups to any depth included. |
| `Wire.Unmarshal` | chaincode/commitment/types.pb.go:277-364 | On every byte string and for every message schema the outer loop terminates, stays in bounds and computes the specified decoding or its error. |
| `Wire.OneField` | chaincode/commitment/types.pb.go:277-364 | Every outer iteration consumes at least one byte and no more than there are. |
| `Wire.DecodeUnknownField` | chaincode/commitment/types.pb.go:348-358 | A well-formed field with an unknown number does not affect the rest. |
| `Wire.DecodeConcat` | light-clients/fabric/types/fabric.pb.go:1637-1817 | Decoding a concatenation is decoding its second part into the message that the first part gave. |
| `Codec.SequenceRoundTrip` | chaincode/commitment/types.pb.go:277-364 | Unmarshal after marshal is the identity for every height and every int64 timestamp, negative ones included. |
| `Codec.SequenceInjective` | chaincode/commitment/sequence.go:22-28 | `Sequence.Bytes` is injective. |
| `Codec.CommitmentEntryRoundTrip` | chaincode/commitment/types.pb.go:365-478 | Round trip of commitment entries. |
| `Codec.ConsensusStateRoundTrip` | light-clients/fabric/types/fabric.pb.go:1818-1886 | Round trip of consensus states. |
| `Codec.MessageProofRoundTrip` | light-clients/fabric/types/fabric.pb.go:3339-3452 | Round trip of message proofs with repeated fields in order. |
| `Codec.CommitmentProofRoundTrip` | light-clients/fabric/types/fabric.pb.go:3153-3338 | Round trip of commitment proofs, up to a nil or empty proposal. |
| `Codec.ChaincodeIDRoundTrip` | light-clients/fabric/types/fabric.pb.go:2923-3068 | Round trip of chaincode IDs. |
| `Codec.ChaincodeHeaderRoundTrip` | light-clients/fabric/types/fabric.pb.go:2045-2160 | Round trip of the nested chaincode header. |
| `Codec.ChaincodeInfoRoundTrip` | light-clients/fabric/types/fabric.pb.go:2161-2379 | Round trip of chaincode info, nested ID and optional proof included. |
| `Codec.MSPHeaderRoundTrip` | light-clients/fabric/types/fabric.pb.go:2464-2668 | Round trip of MSP headers, any int32 type included, up to nil and empty byte fields. |
| `Codec.MSPHeadersRoundTrip` | light-clients/fabric/types/fabric.pb.go:2380-2463 | Round trip of a batch in order. |
| `Codec.MSPInfoRoundTrip` | light-clients/fabric/types/fabric.pb.go:2753-2922 | Round trip of a table entry, up to nil and empty byte fields. |
| `Codec.MSPInfosRoundTrip` | light-clients/fabric/types/fabric.pb.go:2669-2752 | Round trip of the table in order. |
| `Codec.ClientStateRoundTrip` | light-clients/fabric/types/fabric.pb.go:1637-1817 | Round trip of the whole client state. |
| `Codec.HeaderRoundTrip` | light-clients/fabric/types/fabric.pb.go:1887-2044 | Round trip of headers with each of the three optional parts present or absent. |
| `WireLayout.SequenceLayout` | chaincode/commitment/types.pb.go:173-189 | On the wire a sequence is its height after tag 08 and its timestamp after tag 10, each left out when zero. |
| `WireLayout.CommitmentEntryLayout` | chaincode/commitment/types.pb.go:206-227 | A commitment entry is its key after 0a and its value after 12. |
| `WireLayout.ConsensusStateLayout` | light-clients/fabric/types/fabric.pb.go:817-828 | A consensus state is its timestamp after 08. |
| `WireLayout.MessageProofLayout` | light-clients/fabric/types/fabric.pb.go:1334-1358 | A message proof is its identities, each after 0a, then its signatures, each after 12. |
| `WireLayout.CommitmentProofLayout` | light-clients/fabric/types/fabric.pb.go:1276-1317 | A commitment proof has tags 0a, 10, 18, and 22 and 2a for each identity and signature, in that order. |
| `WireLayout.ChaincodeIDLayout` | light-clients/fabric/types/fabric.pb.go:1202-1229 | A chaincode ID has tags 0a, 12 and 1a for path, name and version. |
| `WireLayout.ChaincodeHeaderLayout` | light-clients/fabric/types/fabric.pb.go:904-930 | A chaincode header always has its sequence after 0a and its proof after 12. |
| `WireLayout.ChaincodeInfoLayout` | light-clients/fabric/types/fabric.pb.go:947-996 | Chaincode info has tags 0a, 12, 1a, 22 and 2a, the ID always there and the proof only when not nil. |
| `WireLayout.MSPHeaderLayout` | light-clients/fabric/types/fabric.pb.go:1050-1094 | An MSP header has tags 08, 12, 1a, 22 and 2a, the proof only when not nil. |
| `WireLayout.MSPHeadersLayout` | light-clients/fabric/types/fabric.pb.go:1013-1033 | A batch is its headers in order, each after 0a. |
| `WireLayout.MSPInfoLayout` | light-clients/fabric/types/fabric.pb.go:1148-1185 | A table entry has tags 0a, 12 and 1a, and 20 01 when frozen. |
| `WireLayout.MSPInfosLayout` | light-clients/fabric/types/fabric.pb.go:1111-1131 | The table is its entries in order, each after 0a. |
| `WireLayout.ClientStateLayout` | light-clients/fabric/types/fabric.pb.go:757-800 | A client state has tags 0a, 12, 1a and 22, the last three always there. |
| `WireLayout.HeaderLayout` | light-clients/fabric/types/fabric.pb.go:845-887 | A header has tags 0a, 12 and 1a for the parts that are present. |
| `WireLayout.SequenceExamples` | chaincode/commitment/types.pb.go:173-189 | For instance height 1 with timestamp 2 is 08 01 10 02, and height 300 with timestamp 0 is 08 ac 02. |
| `BufferWriter.SizeSequenceIsLength` | chaincode/commitment/types.pb.go:239-252 | `Size` of a sequence is the length of its bytes. |
| `BufferWriter.SizeMSPHeaderIsLength` | light-clients/fabric/types/fabric.pb.go:1478-1505 | `Size` of an MSP header is the length of its bytes. |
| `BufferWriter.SizeMSPInfoIsLength` | light-clients/fabric/types/fabric.pb.go:1521-1544 | `Size` of a table entry is the length of its bytes. |
| `BufferWriter.SizeMSPInfosIsLength` | light-clients/fabric/types/fabric.pb.go:1506-1520 | `Size` of the table, a sum over nested sizes, is the length of its bytes. |
| `BufferWriter.SizeChaincodeInfoIsLength` | light-clients/fabric/types/fabric.pb.go:1436-1462 | `Size` of chaincode info is the length of its bytes. |
| `BufferWriter.SizeChaincodeHeaderIsLength` | light-clients/fabric/types/fabric.pb.go:1423-1435 | `Size` of a chaincode header is the length of its bytes. |
| `BufferWriter.SizeClientStateIsLength` | light-clients/fabric/types/fabric.pb.go:1371-1389 | `Size` of the client state is the length of its bytes. |
| `BufferWriter.SizeProofsAreLengths` | light-clients/fabric/types/fabric.pb.go:1579-1630 | `Size` of both kinds of proof is the length of their bytes. |
| `BufferWriter.WriteSequence` | chaincode/commitment/types.pb.go:173-189 | Writes exactly the sequence's bytes before the end index and nothing else. |
| `BufferWriter.WriteCommitmentEntry` | chaincode/commitment/types.pb.go:206-227 | The same for commitment entries. |
| `BufferWriter.WriteConsensusState` | light-clients/fabric/types/fabric.pb.go:817-828 | The same for consensus states. |
| `BufferWriter.WriteMessageProof` | light-clients/fabric/types/fabric.pb.go:1334-1358 | The same for message proofs, with its backward loops over repeated fields. |
| `BufferWriter.WriteCommitmentProof` | light-clients/fabric/types/fabric.pb.go:1276-1317 | The same for commitment proofs. |
| `BufferWriter.WriteChaincodeID` | light-clients/fabric/types/fabric.pb.go:1202-1229 | The same for chaincode IDs. |
| `BufferWriter.WriteChaincodeHeader` | light-clients/fabric/types/fabric.pb.go:904-930 | The same for chaincode headers. |
| `BufferWriter.WriteChaincodeInfo` | light-clients/fabric/types/fabric.pb.go:947-996 | The same for chaincode info. |
| `BufferWriter.WriteMSPHeader` | light-clients/fabric/types/fabric.pb.go:1050-1094 | The same for MSP headers. |
| `BufferWriter.WriteMSPHeaders` | light-clients/fabric/types/fabric.pb.go:1013-1033 | The same for a batch, last header first. |
| `BufferWriter.WriteMSPInfo` | light-clients/fabric/types/fabric.pb.go:1148-1185 | The same for a table entry. |
| `BufferWriter.WriteMSPInfos` | light-clients/fabric/types/fabric.pb.go:1111-1131 | The same for the table, last entry first. |
| `BufferWriter.WriteClientState` | light-clients/fabric/types/fabric.pb.go:757-800 | The same for the client state and all its nested messages. |
| `BufferWriter.MarshalSequence` | chaincode/commitment/types.pb.go:158-167 | The pre-sized buffer is filled exactly: the writer ends at offset 0. |
| `BufferWriter.MarshalMSPHeader` | light-clients/fabric/types/fabric.pb.go:1035-1044 | The same for MSP headers. |
| `BufferWriter.MarshalChaincodeInfo` | light-clients/fabric/types/fabric.pb.go:932-941 | The same for chaincode info. |
| `BufferWriter.MarshalClientState` | light-clients/fabric/types/fabric.pb.go:742-751 | The same for the client state. |
| `Quorum.ThresholdIsExact` | relay/commitment.go:35-49 | Any two sets of signers that satisfy a threshold over n MSPs share one if and only if the threshold is at least n/2+1, the one that both policy makers use. |
| `Keys.KeysNeverCollide` | chaincode/commitment/commitment.go:49-206 | On one ledger no two different keys of any kind are equal as soon as one of the two has identifiers without a slash: sequences, all commitment kinds, packet and acknowledgement index, and hex database keys. The other may hold slashes, as an unvalidated receipt-absence request can. |
| `Keys.RenderMark` | chaincode/commitment/key.go:9-19 | Every key that is not the database's has a slash among its first two bytes, so it is no hex string. |
| `Keys.SlashCollides` | chaincode/packet_event_handler.go:76-78 | With slashes in both, two different acknowledgements, or packets, share an index key. |
| `Keys.IndexKeyExactly` | chaincode/packet_event_handler.go:97-99 | An index key is shared by no other key if and only if its port and channel have no slash. |
| `Keys.RenderForm` | chaincode/commitment/commitment.go:49-206 | Every key but the database's is as its format string spells it: its literal lead with the store prefix, then its path segments joined by slashes. |
| `LedgerStub.Stub.GetStateByRange` | chaincode/tests/stub/stub.go:34-52 | A scan yields exactly the pairs in the half-open range, ascending. |
| `LedgerStub.OneListing` | chaincode/tests/stub/stub.go:34-52 | A range has only one listing. |
| `Text.ParseUintExactly` | chaincode/packet_event_handler.go:224-230 | A text reads as a number if and only if it is its decimal form after any number of zeros. |
| `Text.UnHexExactly` | chaincode/x/compat/db.go:252-258 | A text reads as bytes if and only if its lower-case form is their hex. |
| `LedgerDb.DB.Get` | chaincode/x/compat/db.go:34-40 | Reads the byte-keyed map that the ledger stands for; an empty key is an error. |
| `LedgerDb.DB.Set` | chaincode/x/compat/db.go:55-63 | Updates exactly one key of that map, or returns the error and changes nothing. |
| `LedgerDb.DB.Delete` | chaincode/x/compat/db.go:69-75 | Removes exactly one key of that map. |
| `LedgerDb.DB.NewIterator` | chaincode/x/compat/db.go:81-93 | Refuses empty non-nil bounds; otherwise its remaining items are the ledger's listing between the hex bounds. |
| `LedgerDb.Iterator.Next` | chaincode/x/compat/db.go:240-250 | Drops the first remaining item. |
| `LedgerDb.IterationRefines` | chaincode/x/compat/db.go:81-93 | Over a range that holds only database keys an iterator yields exactly the byte-keyed pairs of the half-open byte range, in ascending byte order. |
| `LedgerDb.IterationPanics` | chaincode/x/compat/db.go:252-258 | An iterator panics on its way if and only if its range holds a key that does not decode. |
| `LedgerDb.ReverseIterator` | chaincode/x/compat/db.go:272-279 | Draining and reversing yields the forward list reversed, or the panic. |
| `LedgerDb.ReverseSlice` | chaincode/x/compat/db.go:281-287 | Swapping from both ends reverses the array in place. |
| `LedgerDb.DB.NewReverseIterator` | chaincode/x/compat/db.go:95-102 | The reverse of what the one listing of the range decodes to, or the panic. |
| `LedgerDb.BatchDB.Set` | chaincode/x/compat/db.go:154-165 | Appends a command, or refuses it when closed or invalid. |
| `LedgerDb.BatchDB.Delete` | chaincode/x/compat/db.go:167-176 | Appends a command, or refuses it when closed or invalid. |
| `LedgerDb.BatchDB.Write` | chaincode/x/compat/db.go:126-138 | An open batch never fails on validation, leaves the map with the commands executed in order and every ledger key outside the database as it was, and is closed. |
| `Stores.OwnWrite` | chaincode/store/store.go:99-113 | A write or removal through a store changes exactly that key of the store's own map. |
| `Stores.OnLedger` | chaincode/store/store.go:99-113 | A store's key is on the flat ledger as the hex of its literal prefix, name, slash and key, and nowhere else. |
| `Stores.IsolatedExactly` | chaincode/store/store.go:99-113 | No write through one store, under any key that a store takes, can ever show in another if and only if neither name with its slash begins the other. |
| `Stores.PlainNamesApart` | chaincode/store/store.go:99-113 | Names without a slash overlap only if equal. |
| `Stores.KVStore.Set` | chaincode/store/store.go:112-113 | A store's set changes its own view at one key, no view of a store whose name does not overlap, and no ledger key outside the database. |
| `Stores.KVStore.Delete` | chaincode/store/store.go:112-113 | The same for removal. |
| `Stores.MultiStore.MountStoreWithDB` | chaincode/store/store.go:55-71 | Panics on a repeated key or name, so mounted names are always distinct. |
| `Stores.WriteKeepsShared` | chaincode/commitment/key.go:9-19 | Whatever the chaincode writes or deletes, the ledger holds only database keys and marked protocol keys. |
| `Stores.SharedPanics` | chaincode/x/compat/db.go:252-258 | On such a ledger an iterator panics if and only if a protocol key is in its range. |
| `Stores.UnboundedPanics` | chaincode/x/compat/db.go:81-93 | For instance any unbounded iteration on a ledger where a sequence has been stored. |
| `Stores.StoreIteration` | chaincode/x/compat/db.go:81-93 | A store's prefix iteration on the shared ledger never meets a protocol key, passes over an entry at the bare prefix, and yields exactly the store's own pairs in the range, ascending. |
| `Endorsement.Endorse` | chaincode/chaincode.go:122-352 | Each endorsing function writes exactly the entry it returns, or nothing when the keeper has nothing to endorse. |
| `Endorsement.CertifiedOnce` | light-clients/fabric/types/fabric.go:165-214 | The arguments of a verification certify at most one write. |
| `Endorsement.ProofArrives` | light-clients/fabric/types/client_state.go:443-485 | A marshalled proof reaches the policy evaluation as it was built. |
| `Endorsement.ArgumentsExactly` | light-clients/fabric/types/client_state.go:443-485 | The arguments of a verification are taken if and only if the revision is 0, the height is at most the latest, it has a consensus state, there is a prefix, and the proof decodes; and then to what the proof decodes to. |
| `Endorsement.AcceptedExactly` | light-clients/fabric/types/client_state.go:144-438 | A claim is accepted if and only if the arguments are valid and the signed proposal writes the value of the claim under its key. |
| `Endorsement.EndorsedAgreement` | light-clients/fabric/types/client_state.go:144-438 | When the certified write is the entry of an endorsement, for any identifiers in the request, a claim is accepted if and only if it is about the same kind, identifier and number and is true of the application that endorsed it. |
| `Endorsement.AcceptedWasTrue` | chaincode/chaincode.go:122-352 | Over any run of the chain, with endorsements and writes under any identifiers: if what policies certify was written in the run, an accepted claim was true of the application at an endorsement of that run. |
| `Endorsement.NoSequenceFromClaims` | light-clients/fabric/types/fabric.go:19-33 | An entry endorsed for a claim never passes for a sequence commitment. |
| `Endorsement.BigEndianInjective` | chaincode/commitment/commitment.go:189-198 | The big-endian form of the next sequence is injective. |
| `RunTx.LookupSees` | chaincode/store/store.go:172-179 | A read through two caches is a read of the flattened map. |
| `RunTx.ScanCached` | chaincode/store/store.go:172-179 | A range scan through two caches is the listing of the flattened map. |
| `RunTx.FlushNested` | chaincode/app/baseapp.go:234-256 | Writing the upper cache into the lower one changes neither what is seen nor what will be written. |
| `RunTx.WriteToCache` | chaincode/app/baseapp.go:234-245 | Writing a cache entry by entry into another merges it. |
| `RunTx.WriteToStore` | chaincode/app/baseapp.go:255-256 | Writing a cache entry by entry into the store leaves what was seen. |
| `RunTx.Execute` | chaincode/app/baseapp.go:277-292 | Any handler of reads, range scans, writes and removals on two caches does what it does on the plain map that it sees, and writes only the upper cache. |
| `RunTx.ValidateBasicTxMsgs` | chaincode/app/baseapp.go:329-342 | An empty transaction is refused as such; there is no complaint if and only if there are messages and all are valid, and otherwise it is that of the first invalid one. |
| `RunTx.RunMsgs` | chaincode/app/baseapp.go:260-326 | The message loop on caches is the sequential execution on a plain map, stopping at the first failure or missing route. |
| `RunTx.MessagesConcat` | chaincode/app/baseapp.go:268-314 | Messages run in stretches: the second starts from what the first left, data and events follow in order, and the whole fails exactly as the second does. |
| `RunTx.BaseApp.RunTx` | chaincode/app/baseapp.go:185-258 | For any transaction and any handlers: the messages run, as on a plain map, on what the ante handler left and in the context it returned, and on success the store is what they left and the result carries the ante events before theirs; a decoding error, a complaint, and a failure of ante or messages are each returned as themselves, with the store unchanged. |
| `RunTx.TransactionExactly` | chaincode/app/baseapp.go:185-258 | The same of the specification, case by case, with and without an ante handler and a returned context. |
| `RunTx.OneMessage` | chaincode/app/baseapp.go:268-314 | A message by either kind of route: one data item with its type, log 0, and the action event with the name of the route before its own events; or its own error. |
| `RunTx.NoRoute` | chaincode/app/baseapp.go:283-291 | A message without a route or handler is refused and changes nothing. |
| `RunTx.ResultShape` | chaincode/app/baseapp.go:268-314 | A success has one data item and one log for each message, in order, with its type and its number. |
| `RunTx.PerformedAt` | chaincode/store/store.go:172-179 | What a read, a write, a removal and a scan answer, and what each does to every key. |
| `RunTx.ReadsOwnWrites` | chaincode/store/store.go:172-179 | A handler reads back what it has just written, and anything else as it was. |
| `EventParser.ParseEvent` | chaincode/packet_event_handler.go:112-157 | The attribute loop with its position assertions computes the specified parse; a value is read before its position is checked. |
| `EventParser.ParsesExactly` | chaincode/packet_event_handler.go:112-157 | An event parses if and only if every known attribute stands at its asserted position and can be read. |
| `EventParser.GetFromEvents` | chaincode/packet_event_handler.go:101-164 | The event loop skips other kinds, stops at the first failure and keeps order. |
| `EventParser.EventsParseExactly` | chaincode/packet_event_handler.go:101-164 | Event lists of any length and mix parse if and only if every event of the kind is well placed and reads as something valid, and then to exactly what those events spell, in order. |
| `EventParser.PacketFromPositions` | chaincode/packet_event_handler.go:112-153 | A well-placed send-packet event gives the packet that its nine positions spell. |
| `EventParser.HeightExactly` | chaincode/packet_event_handler.go:128-133 | For every text: without a dash it is no height, and otherwise the two numbers are those before and after the first dash, up to a second one, and it is read if and only if both are numbers. |
| `EventParser.PacketRoundTrip` | chaincode/packet_event_handler.go:112-153 | Every packet survives being written as event attributes and parsed back (hex, decimal and height text included). |
| `EventParser.AckFromPositions` | chaincode/packet_event_handler.go:185-210 | A well-placed write-acknowledgement event gives what its positions spell. |
| `EventParser.AckRoundTrip` | chaincode/packet_event_handler.go:185-210 | Every acknowledgement survives being written and parsed back. |
| `EventParser.NamesDiffer` | chaincode/packet_event_handler.go:114-153 | The attribute names are pairwise different, so each has one position. |
| `PacketIndex.HandlePacketEvent` | chaincode/packet_event_handler.go:56-74 | Puts every parsed packet in order, or nothing at all when an event fails. |
| `PacketIndex.HandlePacketAcknowledgementEvent` | chaincode/packet_event_handler.go:81-95 | The same for acknowledgements. |
| `PacketIndex.PutAllAt` | chaincode/packet_event_handler.go:62-71 | After the puts each key has its last value and every other key is as it was. |
| `PacketIndex.QueryFindsLast` | chaincode/packet_event_handler.go:24-41 | A query on any port, channel and sequence finds the last such packet, and otherwise what it found before. |
| `PacketIndex.OtherKeysKept` | chaincode/packet_event_handler.go:62-71 | Indexing packets, with any identifiers, touches no key of any other kind. |
| `PacketIndex.IndexedEvents` | chaincode/packet_event_handler.go:56-74 | From events to the answer of a query: the events are indexed if and only if every send-packet event is well placed and spells a valid packet, and then the query finds the last packet spelt for it, or what it found before. |
| `PacketIndex.IndexedAckEvents` | chaincode/packet_event_handler.go:81-95 | Events are indexed if and only if every write-acknowledgement event is well placed, and then a query without slashes finds the last acknowledgement spelt for it, whatever identifiers the others have, or what it found before. |
| `PacketIndex.AckQueryExactly` | chaincode/packet_event_handler.go:44-53 | Over all ledgers and events a query for an acknowledgement is answered rightly if and only if its port and channel have no slash; otherwise an event exists whose acknowledgement, for another channel, it returns. |
| `PacketIndex.AckOtherKeysKept` | chaincode/packet_event_handler.go:87-92 | Indexing acknowledgements, with any identifiers, touches no key of any other kind. |

## Left out

- Cryptography, X.509 and MSP setup, and policy evaluation: foreign libraries, represented by `LightClient.Env`.
- The generated code of `Prefix`, and the buffer writers of `Header` and the top-level `Marshal` of the remaining messages: the same pattern again. The byte form and round trip of `Header` are modelled.
- Round trips are for byte forms shorter than 2^63, the largest length a Go slice can have.
- Encoding by shifts and bitwise or is modelled with division, remainder and addition.
- JSON and base64 wrapping of entries, packets and responses.
- Real Fabric read-your-writes rules, ordering and concurrency control: the ledger is the map of the repository's own stub.
- `PrefixDB`, `dbadapter`, `cachekv` and `cachemulti` are library code: a prefixed store is its key prefix and iteration range, and a cache is its map of dirty entries. A store that is given a database of its own, transient and memory stores, tracing and queries are not modelled.
- RunTx.Execute: a handler is any choice of a bounded number of actions from the replies so far; a bound exists for every single execution. Writes that bypass the stores through the stub are not modelled.
- Endorsement.Endorse: the eight functions are one, over what the keepers of ibc-go return; the cached context that each opens holds no writes, so its writer is left out.
- `GetHeight` of a header dereferences its chaincode header, so a header without one panics wherever its height is read, for instance by a caller that stores a consensus state. The model has the update alone and does not read the height of such a header.
- Marshalling the result data of a transaction, the textual log, gas and the block header.
- EventParser.PacketRoundTrip: the attribute names and event types are those of the channel module of ibc-go, which is not part of the repository.
- PacketIndex.QueryFindsLast: the packet codec and `ValidateBasic` belong to ibc-go and are parameters, of which only the round trip and slash-free identifiers are used.
- ClientRuns.InfoSignBytesInjective: nil and empty policies of chaincode info sign alike, so the statement is up to that difference.
- TwoChains.Agreement: stated for histories of fewer than 2^64 heights, beyond which the height itself wraps; `TwoChains.SaneClocksSuffice` shows when that is always so.
- Endorsement.AcceptedWasTrue: that policies certify only writes of the chain is its hypothesis; what makes endorsers honest is outside the code.
- `Validate` of the client state, misbehaviour, upgrade and proposal handling, which accept or refuse outright.
- The relayer's gateway, wallet, queries and commands.
- Quorum.ThresholdIsExact: over distinct MSP IDs; how the policy library counts signers is not modelled.
- The gRPC router and server, keeper wiring, the ante signer check and path splitting.
