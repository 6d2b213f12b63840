# Opencoin: a verified model

Opencoin is a small blockchain node written in Go. This project models its sequential core in
Dafny and proves what that core is for. There are five components, and several of the main
results cross between them.

- **Wire codec** (`Wire`, `Encoding`, `AccountCodec`, `PayloadCodec`, `TimestampCodec`): the
  printers and parse loops for the Protocol Buffers wire format. Varints, tags,
  length-delimited fields and groups follow the Protocol Buffers Encoding specification
  ("Base 128 Varints", "Length-Delimited Records"). A message is a list of fields; each parse
  loop is a method proved equal to one fold over the fields.
- **Mempool** (`CandidateHeap`, `TxPool`): nonce-sorted queues and the heap-driven selection of a
  block's contents. `container/heap` is modelled concretely, sift up and sift down, over the
  file's own `Less`, `Swap`, `Push` and `Pop`.
- **Execution** (`Rc`, `Contracts`, `Ledger`, `AccountStore`, `ChainState`): resource credits with
  64-bit arithmetic written out, the transaction state machine, the byte-level store with its
  read-your-writes overlay, preview and commit. `Ledger` states what a transaction does to a
  map of accounts; `ChainState` has the code's step-by-step updates and is proved against it.
- **Commitments** (`Merkle`, `StateRoot`, `StateDag`): the level-by-level Merkle loop, the state
  root over the store's key range, the graph of state versions and its pruning.
- **Consensus** (`Validators`, `Rotation`, `Quorum`, `Consensus`): the validator registry and its
  ordered set, stake-weighted rotation, quorum certificates with packed bitmaps, and the
  engine's handling of proposals, votes, view changes and finalization.

`BlockAssembly` ties the mempool to execution, and the last part of `Consensus` ties a proposal
to the block that is finalized. `Scenarios` and `VoteScenarios` instantiate the model with concrete
wallets and engines, to show that the failures reported below are reached. `Machine`, `Types`,
`Auth`, `Bytewise` and `Sorting` are shared ground: fixed-width integers, the records, key and
signature rules over uninterpreted cryptography, byte-string order, and the contract of `sort.Slice`.

`dafny verify dfyconfig.toml` checks everything. No proof relies on automatic induction: the option
`--manual-lemma-induction` may be added.

## How to read it

- Go's `string` and `[]byte` are sequences of bytes; `uint64`, `int64`, `uint8` and `uint32` are
  bounded integers, and every unchecked operation reduces explicitly (`Wrap64`, `WrapSigned`).
- Errors are values: each operation returns the error of the branch taken, in the code's order of
  checks.
- Iteration over a Go map is a loop that picks any remaining key, so results proved about such a
  loop do not depend on the order.
- Hashing, signature verification and address derivation are function parameters. A lemma that
  needs them collision-free says so, for the byte strings concerned only: the strings hashed for
  two roots, the two messages one vote is compared on, the keys carried in one pool.
- A `ghost` parameter or result exists for the proof and is not part of the modelled operation.

## What the proofs found

Each of these is a statement in the model about the code as it is.

- A transfer whose payload names the sender as receiver destroys the amount: the sender's own
  write replaces the credit (`Ledger.Conservation`, `Ledger.SelfTransferLoss`). A deploy onto the
  sender's own address loses the code in the same way (`Ledger.Delivered`).
- An account with no stake can never send a transaction again, staking included, because its
  credits are capped at zero (`Ledger.StakelessForever`).
- The pool selects by stored credits, the preview charges refreshed ones. A selected block can be
  previewed, as far as credits go, if and only if each transaction and its sender's later ones cost
  no more than the credits the sender's stake at that point may hold (`BlockAssembly.SelectedExactly`).
  An undelegation earlier in the block can break this (`Scenarios.SelectedStarves`), and so can one
  in an earlier block, because credits are clipped only at the next refresh
  (`Scenarios.LaterBlockStarves`). A proposer that meets this makes no proposal
  (`Consensus.ProposalExactly`).
- Nothing ever removes a transaction from a queue, so a sender one of whose transactions was selected
  and applied is never selected again (`BlockAssembly.SelectedSenderStuck`, `TxPool.StaleHeadBlocks`).
- A transaction that could be authenticated stops being so when its sender had no key and another
  of its transactions registers a different key with the same address, and only then
  (`Ledger.RunStaysAuthentic`).
- A block time is accepted within the skew of the median, except where the median plus or minus the
  skew leaves an int64: the bounds wrap, and the test goes wrong (`Rc.AcceptedExactly`).
- `Regen` works on a wrapped time difference; it gives the intended value exactly when the
  difference fits in an int64 or the account is already at its cap (`Rc.Params.RegenExact`). A zero
  `Beta` leaves out the stake factor as well.
- The two-thirds test multiplies in uint64. It is right for every signed power exactly when three
  times the total fits in 64 bits (`Quorum.ThresholdExact`).
- `HandlePrecommitVote` looks at a vote's height only when it arrives and at its round never, so a
  certificate is valid exactly when every vote in it happens to be for the engine's height and round
  (`Quorum.ValidExactly`, `Consensus.CertificateValid`). A vote that arrives after a timeout makes a
  certificate `VerifyQC` refuses (`VoteScenarios.LateVote`). Finalizing drops only the votes for the
  finalized hash; a vote left under another hash enters any certificate later built for it, and spoils
  it (`Consensus.LeftoverSpoils`, `VoteScenarios.LeftoverVote`). `VerifyQC` never looks at power: a
  certificate nobody signed passes (`Quorum.PowerUnchecked`).
- Account keys of addresses that start with byte 0xFF lie outside the range the state root covers
  (`StateRoot.UncoveredUnseen`). Leaves join key and record without a length, so different accounts
  can share one (`StateRoot.LeafAmbiguous`): a block that deploys code `ValidateWasmCode` accepts and one
  that makes a transfer have the same preview root from one ledger (`Scenarios.TwoStatesOneRoot`). This
  concerns previews: `NewContractEngine` never makes the map `compiled` (`pkg/contracts/engine.go:57-70`), so
  a deploy whose module compiles ends in a write to a nil map (line 116) before it can be committed.
- State versions are stored under state roots but name block hashes as parents. Every version of a run
  of blocks is a tip if and only if no block hash named as a parent is also an earlier state root
  (`ChainState.VersionsStayTips`).
- `proto/` declares `param_change` as a submessage of a governance proposal; the Go encoder writes
  its two strings as flat fields 3 and 4. The model follows the code.

## Model

| member | source | states |
|---|---|---|
| Wire.TakeBytes | pkg/encoding/unmarshal.go:24-33 | what one length-delimited branch of a parse loop does with its field: the field the fold reads, refused on another wire type or a short input |
| Wire.TakeVarint | pkg/encoding/unmarshal.go:44-53 | the same for a varint branch |
| Wire.SkipField | pkg/encoding/unmarshal.go:74-79 | the default branch: an unknown field of any wire type, groups included, is passed over whole or refused |
| Wire.EncodeInjective | pkg/encoding/protobuf.go:13-29 | two lists of printed fields with the same bytes are the same list |
| Wire.FoldIgnores | pkg/encoding/unmarshal.go:74-79 | a well-formed field that a decoder passes over can be inserted between any two fields without effect |
| Wire.VarintMeans | pkg/encoding/protobuf.go:13-29 | a printed varint is its value in base 128, the top bit set on all bytes but the last, and no byte too many |
| Wire.ConsumeVarintMeans | pkg/encoding/unmarshal.go:44-53 | a varint is read as its value in base 128 exactly when it ends within ten bytes and its value fits in 64 bits |
| Wire.SkippedBytes | pkg/encoding/unmarshal.go:74-79 | how much an unknown field takes: a varint to its end, four or eight bytes for the fixed widths, a length and that many bytes; an end of group or an undefined wire type is refused |
| Encoding.MarshalTransaction | pkg/encoding/protobuf.go:13-29 | the buffer grown append by append is the encoding of the transaction's five fields |
| Encoding.MarshalBlock | pkg/encoding/protobuf.go:32-60 | the same for a block with any number of nested transactions and signatures |
| Encoding.MarshalBlockForHash | pkg/encoding/protobuf.go:64-88 | the same without the signatures |
| Encoding.MarshalProposal | pkg/encoding/protobuf.go:108-124 | the same for a proposal around an encoded block |
| Encoding.MarshalPrecommitVote | pkg/encoding/protobuf.go:127-143 | the same for a vote |
| Encoding.MarshalViewChange | pkg/encoding/protobuf.go:171-185 | the same for a view change |
| Encoding.TxLayout | pkg/encoding/protobuf.go:13-29 | byte by byte: from, to, nonce, payload, signature, each under the key byte of its number and wire type |
| Encoding.BlockLayout | pkg/encoding/protobuf.go:32-88 | the same for a block: header fields, then each transaction, then, unless it is hashed, each signature |
| Encoding.ProposalLayout | pkg/encoding/protobuf.go:108-124 | the same for a proposal |
| Encoding.VoteLayout | pkg/encoding/protobuf.go:127-143 | the same for a vote |
| Encoding.ViewChangeLayout | pkg/encoding/protobuf.go:171-185 | the same for a view change |
| Encoding.UnmarshalTransaction | pkg/encoding/unmarshal.go:12-83 | on every byte string the loop terminates and agrees with the fold over the fields, failures included |
| Encoding.UnmarshalBlock | pkg/encoding/unmarshal.go:86-181 | the same for blocks, whose transactions are decoded in turn |
| Encoding.TxRoundTrip | pkg/encoding/unmarshal.go:12-83 | decoding an encoded transaction gives it back |
| Encoding.TxInjective | pkg/encoding/hash.go:17-23 | the bytes hashed for a transaction determine it |
| Encoding.BlockRoundTrip | pkg/encoding/unmarshal.go:86-181 | decoding an encoded block gives it back, for any number of transactions and signatures |
| Encoding.HashedBytesDecode | pkg/encoding/protobuf.go:62-88 | the bytes that are hashed decode to the block without its signatures |
| Encoding.HashedBytesIdentify | pkg/encoding/protobuf.go:62-88 | two blocks have the same hashed bytes if and only if they agree on everything but their signatures |
| Encoding.VoteInjective | pkg/encoding/protobuf.go:127-143 | the bytes of a vote determine hash, height, round and validator |
| Encoding.KindsApart | pkg/consensus/signing.go:9-41 | votes, proposals and view changes never have the same bytes |
| Encoding.TxIgnoresUnknown | pkg/encoding/unmarshal.go:74-79 | a well-formed field with an unknown number changes no decoded transaction, wherever it stands |
| Encoding.BlockIgnoresUnknown | pkg/encoding/unmarshal.go:172-177 | the same for blocks |
| Encoding.TxFieldSets | pkg/encoding/unmarshal.go:22-80 | after whatever was read, each known field sets its entry and leaves the others; of a repeated field the last one counts |
| Encoding.TxRefusesType | pkg/encoding/unmarshal.go:22-80 | a known field of another wire type spoils the input, wherever it stands |
| Encoding.BlockFieldSets | pkg/encoding/unmarshal.go:86-181 | the same for a block: hashes are refused unless they have 32 bytes, and each transaction or signature is one more |
| Encoding.BlockRefusesType | pkg/encoding/unmarshal.go:86-181 | the same for a block |
| AccountCodec.MarshalAccount | pkg/state/codec.go:11-38 | the stored bytes of an account, code and key only when not empty |
| AccountCodec.UnmarshalAccount | pkg/state/codec.go:41-149 | on every byte string the loop terminates and agrees with the fold |
| AccountCodec.AccountLayout | pkg/state/codec.go:11-38 | byte by byte: the seven fixed fields under their key bytes, then code and key when not empty |
| AccountCodec.AccountRoundTrip | pkg/state/codec.go:11-149 | decoding a stored account gives it back, times carried as uint64 included |
| AccountCodec.AccountInjective | pkg/state/codec.go:11-38 | the stored bytes determine the account |
| AccountCodec.AccountIgnoresUnknown | pkg/state/codec.go:140-145 | a field with an unknown number changes nothing |
| AccountCodec.AccountFieldSets | pkg/state/codec.go:41-149 | after whatever was read, each of the nine fields sets its entry and leaves the others |
| AccountCodec.AccountRefusesType | pkg/state/codec.go:41-149 | a known field of another wire type spoils the record |
| TimestampCodec.EncodeTimestamps | pkg/state/store.go:140-150 | a 32-bit count and big-endian 64-bit entries |
| TimestampCodec.DecodeTimestamps | pkg/state/store.go:152-167 | the counted entries, or an error when the input is too short |
| TimestampCodec.WindowRoundTrip | pkg/state/store.go:140-167 | the stored window decodes to itself |
| TimestampCodec.WindowLayout | pkg/state/store.go:140-150 | byte by byte: the count weighs 256 to the power of the bytes after it, and each entry is the time modulo 2^64 |
| TimestampCodec.WindowReads | pkg/state/store.go:152-167 | which bytes decode, and to which count and entries, in weights of 256 |
| PayloadCodec.EncodePayload | pkg/tx/payload_encoding.go:18-117 | the envelope of the variant's bytes and, when given, the key |
| PayloadCodec.EncodeTransfer | pkg/tx/payload_encoding.go:290-301 | the fields of a transfer |
| PayloadCodec.EncodeStakeDelegate | pkg/tx/payload_encoding.go:303-314 | the fields of a delegation |
| PayloadCodec.EncodeStakeUndelegate | pkg/tx/payload_encoding.go:316-327 | the fields of an undelegation |
| PayloadCodec.EncodeContractDeploy | pkg/tx/payload_encoding.go:329-340 | the fields of a deploy |
| PayloadCodec.EncodeContractCall | pkg/tx/payload_encoding.go:342-357 | the fields of a call, one per argument |
| PayloadCodec.EncodeGovernanceProposal | pkg/tx/payload_encoding.go:359-374 | the fields of a proposal |
| PayloadCodec.EncodeGovernanceVote | pkg/tx/payload_encoding.go:376-387 | the fields of a vote |
| PayloadCodec.InnerLayout | pkg/tx/payload_encoding.go:290-387 | each of the seven variants byte by byte |
| PayloadCodec.PayloadLayout | pkg/tx/payload_encoding.go:18-117 | the envelope byte by byte: the variant under the key byte of its number, then the key |
| PayloadCodec.DecodePayloadBytes | pkg/tx/payload_encoding.go:120-288 | on every byte string the loop terminates and agrees with the fold: one variant, at most one non-empty key |
| PayloadCodec.DecodeTransfer | pkg/tx/payload_encoding.go:389-427 | the same for a transfer's own bytes |
| PayloadCodec.DecodeStakeDelegate | pkg/tx/payload_encoding.go:429-467 | the same for a delegation |
| PayloadCodec.DecodeStakeUndelegate | pkg/tx/payload_encoding.go:469-507 | the same for an undelegation |
| PayloadCodec.DecodeContractDeploy | pkg/tx/payload_encoding.go:509-547 | the same for a deploy |
| PayloadCodec.DecodeContractCall | pkg/tx/payload_encoding.go:549-597 | the same for a call, arguments collected in order |
| PayloadCodec.DecodeGovernanceProposal | pkg/tx/payload_encoding.go:599-657 | the same for a proposal |
| PayloadCodec.DecodeGovernanceVote | pkg/tx/payload_encoding.go:659-697 | the same for a vote, its option cut to eight bits |
| PayloadCodec.InnerRoundTrip | pkg/tx/payload_encoding.go:290-697 | each of the seven variants decodes from its own bytes to itself |
| PayloadCodec.PayloadRoundTrip | pkg/tx/payload_encoding.go:18-288 | the payload and the key decode to themselves, for every variant, any key and any argument list |
| PayloadCodec.PayloadIgnoresUnknown | pkg/tx/payload_encoding.go:120-288 | a field with an unknown number changes nothing in an envelope |
| PayloadCodec.InnerIgnoresUnknown | pkg/tx/payload_encoding.go:389-697 | nor in any variant's own bytes |
| PayloadCodec.SecondVariantRefused | pkg/tx/payload_encoding.go:120-288 | an envelope with two variants is refused, whatever the second contains |
| PayloadCodec.InnerFieldSets | pkg/tx/payload_encoding.go:389-697 | after whatever was read, each field of each variant sets its entry, a call's arguments one more each, an option cut to eight bits |
| PayloadCodec.InnerRefusesType | pkg/tx/payload_encoding.go:389-697 | a known field of another wire type spoils a variant's bytes |
| PayloadCodec.EnvelopeFieldSets | pkg/tx/payload_encoding.go:120-288 | the variant read is the one of the field's number, and neither a variant nor a key may come twice |
| PayloadCodec.EnvelopeRefusesType | pkg/tx/payload_encoding.go:120-288 | a known field of another wire type spoils an envelope |
| PayloadCodec.DecodedWithin | pkg/tx/payload_encoding.go:120-288 | no recipient or code decoded from a payload is longer than the payload |
| Auth.ResolveSenderPubKey | pkg/tx/verify.go:14-43 | a key is resolved if and only if the stored and the carried one are each empty or of 32 bytes, not both empty, equal if both are there, and the stored one, or else the carried one, has the sender's address; that one is the result, to be registered when none was stored |
| Auth.SigningCommits | pkg/tx/signing.go:9-16 | the bytes a sender signs fix parties, nonce and payload |
| Ledger.AuthenticatesExactly | pkg/tx/verify.go:14-64 | which error or which sender, key and payload a transaction is authenticated as, in terms of the decoded payload, the two keys, the address function and the verifier |
| Rc.Params.RCMax | pkg/rc/rc.go:83-91 | the cap is alpha times stake, saturated at 2^64 - 1 |
| Rc.Params.Regen | pkg/rc/rc.go:94-130 | the step-by-step saturating computation gives min(min(credits + beta * stake * seconds, alpha * stake), 2^64 - 1); the stake factor is left out for beta 0, nothing is added when the clock runs back, and a difference beyond an int64 wraps |
| Rc.Params.Cost | pkg/rc/rc.go:133-153 | the step-by-step saturating sum equals the three-product sum capped at 2^64 - 1 |
| Rc.Params.RegenExact | pkg/rc/rc.go:98-101 | regeneration is that of the true time difference if and only if the difference fits in an int64 or the credits are already at the cap |
| Rc.Params.RegenComposes | pkg/rc/rc.go:94-130 | regenerating in two steps is regenerating in one |
| Rc.Params.RegenKeeps | pkg/rc/rc.go:94-130 | credits within the cap are never lowered |
| Rc.Params.RegenBounded | pkg/rc/rc.go:94-130 | time adds at most beta per second and unit of stake, a clock that runs back nothing, and never beyond alpha per unit of stake |
| Rc.Params.CostMonotone | pkg/rc/rc.go:133-153 | more work never costs less |
| Rc.MedianSplitsWindow | pkg/rc/rc.go:67-80 | fewer than half the window lies below the median and at least half does not lie above it |
| Rc.MedianInMajority | pkg/rc/rc.go:67-80 | what holds a majority of the window holds the median |
| Rc.AcceptedBounds | pkg/consensus/hotstuff.go:151-161 | for every window and skew, the bounds compared are the wrapped ones |
| Rc.AcceptedExactly | pkg/consensus/hotstuff.go:151-161 | the accepted times are those within the skew of the median if and only if neither bound leaves an int64 |
| Rc.AcceptedNearMajority | pkg/consensus/hotstuff.go:151-161 | so it lies within the skew of any majority of the window |
| Rc.EffectiveIsNearest | pkg/rc/rc.go:50-64 | where no bound wraps, the effective time is the one within the skew of the median that is nearest to the block's own |
| Rc.WindowIsLastTimes | pkg/state/state.go:122-129 | the window stays the last n raw timestamps |
| Rc.WindowDrift | pkg/state/state.go:122-129 | after k accepted blocks no entry has left the initial range by more than k times the skew |
| CandidateHeap.TxHeap.Swap | pkg/mempool/mempool.go:201-201 | two items change places |
| CandidateHeap.TxHeap.Push | pkg/mempool/mempool.go:202-204 | heap order is kept and one item added |
| CandidateHeap.TxHeap.Pop | pkg/mempool/mempool.go:205-211 | heap order is kept, and no other item has a higher cost than the item removed, or the same cost and a smaller hash |
| CandidateHeap.NotAfterAntisymmetric | pkg/mempool/mempool.go:195-200 | items with different hashes are never tied |
| CandidateHeap.FirstMeans | pkg/mempool/mempool.go:195-200 | the heap's order in plain costs and hashes: the higher cost first, then the smaller hash |
| Bytewise.LexMeans | pkg/mempool/mempool.go:199-199 | the byte order is that of the first byte that differs, a proper prefix being smaller |
| TxPool.Mempool.AddTx | pkg/mempool/mempool.go:41-97 | a transaction is admitted if and only if parties, payload, key, signature, nonce and credits are in order, each in plain terms, and its nonce is not queued; which error each refused one meets; an admitted one joins its sender's queue, which stays strictly sorted by nonce; no other queue changes |
| TxPool.Mempool.InsertByNonce | pkg/mempool/mempool.go:80-94 | the insertion loop refuses exactly the nonces already queued and keeps the queue strictly sorted |
| TxPool.Mempool.LoadSenders | pkg/mempool/mempool.go:113-123 | the starting state of every sender with an account and a queue, or an error if any lookup fails |
| TxPool.Mempool.SeedHeap | pkg/mempool/mempool.go:125-146 | the heap holds exactly the eligible first transactions |
| TxPool.Mempool.TakeBest | pkg/mempool/mempool.go:149-180 | one round of the loop takes the best eligible head of all senders and leaves the heap holding the eligible heads that remain |
| TxPool.Mempool.SelectForBlock | pkg/mempool/mempool.go:101-183 | the result is that of a run that stops only when the block is full, nothing is eligible, or a due transaction cannot be costed; each transaction it takes costs more than any other sender's due and affordable one, or as much with no larger hash |
| TxPool.Selector.PicksOutbid | pkg/mempool/mempool.go:149-180 | the same of every run the specification allows |
| TxPool.Selector.SelectionIsSimple | pkg/mempool/mempool.go:99-183 | with hashes distinct across senders every such run returns what rescanning all heads at each step returns, whatever the iteration order |
| TxPool.Selector.TakeableIsLongest | pkg/mempool/mempool.go:128-181 | a prefix of a queue can be taken if and only if its nonces are consecutive from the account's and its total cost is within the credits |
| TxPool.Selector.SenderShare | pkg/mempool/mempool.go:128-182 | a selection takes from each sender such a prefix, and the longest one whenever the block has room left |
| TxPool.StaleHeadBlocks | pkg/mempool/mempool.go:131-133 | a queue whose head is behind the account's nonce yields nothing, and no admissible addition changes that |
| BlockAssembly.SelectedSenderStuck | pkg/mempool/mempool.go:126-146 | once a block that took something from a sender is applied, and while its nonce does not wrap, its whole queue yields nothing in every later state, whatever its credits and whatever was added |
| BlockAssembly.CostCovers | pkg/tx/coster.go:19-57 | the coster's cost is at least what a preview charges, and equal for everything but deploys, whose code counts one instruction a byte |
| BlockAssembly.SelectionSucceeds | pkg/mempool/mempool.go:134-172 | on a pool filled by AddTx no selection fails for its cost |
| BlockAssembly.SelectedExactly | pkg/state/state.go:196-304 | the preview of a selected block never fails for a nonce, its parties or a payload; unless it fails for a key, funds, stake or a contract, it succeeds if and only if every transaction and its sender's later ones in the block cost no more than the credits its sender's stake at that point may hold; with an authentic pool that carries one key for each sender without one, no key is at fault |
| BlockAssembly.PreviewedAffordable | pkg/state/state.go:196-304 | the same condition holds of every block, selected or not, whose preview succeeds |
| BlockAssembly.UndelegatesLastAffordable | pkg/state/state.go:237-243 | stored credits within their caps and undelegations last are sufficient for it |
| BlockAssembly.SelectedNeverStarved | pkg/state/state.go:196-304 | a corollary: while stored credits are within their caps and a sender's undelegation is its last transaction in the block, no block of selected transactions is short of credits |
| BlockAssembly.UndelegationStarves | pkg/state/state.go:237-243 | after an undelegation of any amount the sender's next transaction at the same time, if it fails for nothing else, is applied if and only if it costs no more than the credits left and the credits the remaining stake may hold; with no stake left it fails at any time |
| Scenarios.SelectedStarves | pkg/mempool/mempool.go:101-183 | one selection takes a sender's undelegation and its next transaction, from a pool and a state in order; no preview of the block succeeds |
| Scenarios.LaterBlockStarves | pkg/state/state.go:298-304 | after an applied undelegation stored credits exceed their cap; a later block that holds only the sender's next transaction is selected, and no preview of it succeeds |
| BlockAssembly.AdmittedAuthentic | pkg/mempool/mempool.go:48-65 | what the pool admits is authenticated as the preview does it |
| BlockAssembly.PoolStaysAuthentic | pkg/state/state.go:185-194 | after a step every transaction of the pool can still be authenticated if and only if the queued ones of the step's sender resolve to the step's key |
| BlockAssembly.ApartAgree | pkg/tx/verify.go:14-43 | in an authentic pool senders without a stored key carry one key each, unless two keys in the pool share an address |
| BlockAssembly.PoolHashesDistinct | pkg/mempool/mempool.go:141-145 | if no two queued transactions collide, hashes are distinct across senders |
| AccountStore.PutGood | pkg/state/store.go:82-92 | storing an account's bytes under its key updates the map of accounts at its address and nothing else |
| AccountStore.PutElsewhere | pkg/state/store.go:13-23 | a write under any other key leaves the accounts alone |
| AccountStore.RecordsMean | pkg/state/store.go:13-23 | the accounts are what lies under "acct/" and an address, the window what lies under "meta/last_timestamps" |
| AccountStore.Store.GetLastTimestamps | pkg/state/store.go:117-127 | the stored window, empty when there is none |
| AccountStore.Batch.Get | pkg/state/store.go:50-52 | a batch reads its own writes first, then the store |
| AccountStore.Batch.GetAccount | pkg/state/store.go:69-80 | the account under an address as the batch sees it, a zero account when missing |
| AccountStore.Batch.SetAccount | pkg/state/store.go:82-92 | the batch's accounts gain one entry, its window is unchanged |
| AccountStore.Batch.SetLastTimestamps | pkg/state/store.go:135-138 | the batch's window is replaced, its accounts are unchanged |
| AccountStore.Batch.SetBlock | pkg/state/store.go:217-228 | the batch as seen afterwards: the block's bytes under "block/" and its hash, the hash under "block_height/" and the big-endian height, everything else as it was; accounts and window are unchanged |
| AccountStore.Batch.Commit | pkg/state/state.go:144-146 | all writes reach the store at once |
| Ledger.SomeTransferApplies | pkg/state/state.go:166-307 | an encoded transfer between any two short addresses can be applied |
| Ledger.AppliedOutcome | pkg/state/state.go:197-306 | after a successful transaction the sender has used the nonce it carried and the clock it was given, and every other account has the nonce, stake, credits and key it had |
| Ledger.SenderExactly | pkg/state/state.go:196-306 | the sender afterwards, field by field, with the charge written out |
| Ledger.OthersExactly | pkg/state/state.go:212-288 | every account but the sender's stays as it was, but for the balance of the one a transfer goes to and the code of the one a deploy goes to |
| Ledger.RefusedExactly | pkg/state/state.go:166-306 | when a transaction is refused for its parties, authentication, nonce, balance, stake, a missing engine or a failed contract |
| Ledger.Delivered | pkg/state/state.go:212-296 | what each payload delivers once all writes are in: funds, stake, code, the self-addressed cases included |
| Ledger.Authorized | pkg/state/state.go:185-194 | nothing is applied without a signature under the key the sender's account then holds, which is bound to its address; no held key changes |
| Ledger.RunAuthorized | pkg/state/state.go:185-194 | all of a sender's transactions in a run are signed under one key, the one its account ends up with |
| Ledger.StaysAuthentic | pkg/state/state.go:185-194 | the same for one step: the step is another sender's, or was resolved to the same key |
| Ledger.RunStaysAuthentic | pkg/state/state.go:185-194 | over every run, a transaction once authenticated can still be at the end if and only if its sender had a key or every key the run carries for that sender is the one it carries |
| Ledger.Conservation | pkg/state/state.go:213-243 | no transaction raises the total of balances and stakes; while it fits in 64 bits it is kept exactly but for a transfer to oneself |
| Ledger.RunConservation | pkg/state/state.go:213-306 | the same over every run, with the exact loss |
| Ledger.NothingWraps | pkg/state/state.go:217-242 | if the total fits in 64 bits at the start of a run, no addition of the run that is kept wraps |
| Ledger.NonceCounts | pkg/state/state.go:200-303 | an account's nonce counts its applied transactions |
| Ledger.NoReplay | pkg/state/state.go:200-303 | no sender and nonce are applied twice in a run |
| Ledger.ChargeIsCost | pkg/state/state.go:298-304 | the credits a transaction takes are the cost of its size, instructions and writes, by payload |
| Ledger.TokenBucket | pkg/state/state.go:197-304 | over any run with constant stake and clock differences within an int64, charges plus remaining credits are at most the starting credits plus beta per unit of stake and second the clock moves forward, however often it runs back |
| Ledger.BucketAfterFirst | pkg/state/state.go:197-304 | from the first regeneration on, alpha per unit of stake takes the place of the starting credits |
| Ledger.ClimbIsElapsed | pkg/state/state.go:197-204 | while the clock does not run back, the seconds counted are the time that has passed |
| Ledger.StakelessCannotSend | pkg/rc/rc.go:94-97 | a transaction of an account without stake always fails |
| Ledger.StakelessForever | pkg/rc/rc.go:94-97 | over every run an account without stake sends nothing and stays without stake |
| ChainState.State.LoadSender | pkg/state/state.go:174-194 | the sender with its key resolved, registered if it is the first, and the signature checked; otherwise the first error |
| ChainState.State.ApplyPayload | pkg/state/state.go:212-296 | each payload's checks, assignments and writes, in the code's order, have the specified effect; in plain terms, no account in the batch changes but the balance a transfer raises and the code a deploy replaces |
| ChainState.State.SettleSender | pkg/state/state.go:298-306 | the charge, the nonce and the sender's own write, which comes last |
| ChainState.State.ApplyTransaction | pkg/state/state.go:166-307 | running a transaction on the overlay is applying it to the map of accounts, error for error |
| ChainState.State.ExecuteTransactions | pkg/state/state.go:116-120 | running a list on the overlay is applying the list to the map, up to the first error |
| ChainState.State.PreviewBlock | pkg/state/state.go:46-80 | the root of the accounts after the block's transactions, or the first error; the store is not written |
| ChainState.BlockTimeIsNearest | pkg/state/state.go:46-64 | transactions run at the time within the skew of the median that is nearest to the block's |
| ChainState.PreviewedContracts | pkg/state/state.go:244-288 | which contract transactions a preview refuses, and that a call is charged for the engine's two estimates |
| ChainState.State.FinishBlock | pkg/state/state.go:122-146 | window, root check, block record and commit |
| ChainState.State.ApplyBlock | pkg/state/state.go:83-154 | which error a block meets; store and graph are untouched on any error; otherwise accounts, window, block record and version are exactly the new ones |
| ChainState.BlockHashCommits | pkg/encoding/hash.go:25-32 | without a collision, blocks with one hash have the same transactions and differ in their signatures at most |
| ChainState.ContractFreeAgrees | pkg/state/state.go:244-288 | a block without contracts needs nothing from the engine |
| ChainState.CommitFollowsPreview | pkg/state/state.go:83-136 | when the engine's reports agree with its estimates a block is committed if and only if its preview gives the root it carries, what is committed is what was previewed, and the second root check never fires |
| ChainState.BlocksAreOneRun | pkg/state/state.go:83-154 | a run of applied blocks is one run of their transactions, at the times the window gives |
| ChainState.BlocksNeverReplay | pkg/state/state.go:200-303 | no two transactions of a run of blocks share sender and nonce |
| ChainState.BlocksConserve | pkg/state/state.go:213-306 | a run of blocks creates no balance or stake and loses only what is transferred to oneself |
| ChainState.BlocksCountNonces | pkg/state/state.go:200-303 | after a run of blocks an account's nonce counts its transactions |
| ChainState.BlocksKeepWindow | pkg/state/state.go:122-129 | after a run of blocks the window holds the raw timestamps of the last ones |
| ChainState.BlocksDrift | pkg/state/state.go:122-129 | after a run of blocks whose times were accepted, the stored window has drifted by at most the skew per block |
| ChainState.BlocksTokenBucket | pkg/state/state.go:83-154 | the token bucket over a run of blocks, at the times their windows give |
| ChainState.VersionsAreRoots | pkg/state/state.go:147-152 | the versions of a run are exactly the state roots of its blocks |
| ChainState.VersionsStayTips | pkg/state/state.go:147-152 | after any run of blocks every version is a tip if and only if no new version named an earlier version's root as its predecessor |
| Merkle.NextLevel | pkg/state/merkle.go:61-74 | one pass pairs neighbours: node i of the next level is the hash of byte 1, node 2i and node 2i + 1, or node 2i again when there is none |
| Merkle.MerkleRoot | pkg/state/merkle.go:55-77 | the loop computes the root of the recursively defined tree, and terminates |
| Merkle.TreeOfPairs | pkg/state/merkle.go:60-75 | pairing neighbours lowers the tree by exactly one level |
| Merkle.RootFixesLeaves | pkg/state/merkle.go:55-77 | without collisions, trees of one height with one root have the same leaves in the same places |
| Merkle.HeightsDiffer | pkg/state/merkle.go:38-77 | without collisions a lower tree never has the root of a higher one, because leaves and nodes carry different tags |
| Merkle.RootDeterminesData | pkg/state/merkle.go:38-77 | without collisions the root of a list of distinct leaves determines the list, its length included |
| StateRoot.VisitedExactly | pkg/state/store.go:94-98 | the iterator's range is exactly the account keys whose address does not start with 0xFF |
| StateRoot.CollectItems | pkg/state/merkle.go:23-34 | every record in range is collected once, with its bytes |
| StateRoot.ComputeStateRoot | pkg/state/merkle.go:18-53 | the root of the covered accounts in address order, the zero hash when there are none |
| StateRoot.RootMeans | pkg/state/merkle.go:18-53 | for the covered addresses in ascending order: the root of the hashes of byte 0, "acct/", address and record; 32 zero bytes when there are none |
| StateRoot.LeafInjective | pkg/state/merkle.go:38-45 | a leaf determines its account when addresses are free of byte 0x0A |
| StateRoot.RootDeterminesState | pkg/state/merkle.go:18-53 | two states have the same root if and only if they agree on every covered account, whatever their sizes |
| StateRoot.UncoveredUnseen | pkg/state/store.go:95-98 | a write to an address that starts with 0xFF changes no root |
| StateRoot.LeafAmbiguous | pkg/state/merkle.go:38-45 | for every address of up to 37 bytes there are two different accounts with one leaf, a contract's and an empty one under an address that starts with the contract's |
| StateRoot.ShadowCodeValid | pkg/contracts/engine.go:287-302 | the contract engine accepts that contract's code, unless the address holds, or has a length that puts there, what the scan takes for a floating-point opcode |
| Scenarios.TwoStatesOneRoot | pkg/state/state.go:46-80 | from one ledger a block with a deploy and a block with a transfer preview to different covered accounts and to the same root, under every hash |
| StateDag.DAG.AddNode | pkg/state/dag.go:28-46 | a known root is refused and changes nothing; otherwise the node is stored, each parent's list grows by it as often as it names that parent, and tips lose its parents and gain it |
| StateDag.DAG.UpdateTips | pkg/state/dag.go:49-62 | the tips that are no parents, in order, then the new node |
| StateDag.DAG.Walk | pkg/state/dag.go:86-95 | the recursive marking terminates on every graph, cyclic or not, and adds exactly reachable nodes together with all their children |
| StateDag.DAG.PruneNonFinal | pkg/state/dag.go:81-114 | exactly the nodes reachable from the final root are kept, and as tips exactly the kept nodes with a parent and no child, each once |
| StateDag.AddKeepsTips | pkg/state/dag.go:28-62 | adding a node keeps the tips the childless nodes if and only if the node is not its own parent and has no child yet |
| StateDag.PruneKeepsLinks | pkg/state/dag.go:97-113 | pruning leaves no dangling child link |
| StateDag.PrunedTips | pkg/state/dag.go:103-113 | after a prune the tips are the childless nodes, but for a final root with neither parent nor child |
| StateDag.PruneComposes | pkg/state/dag.go:81-114 | pruning to a node and then to its descendant is pruning to the descendant |
| StateDag.RunTips | pkg/state/dag.go:28-114 | in every run that adds parents before children tips are childless, childless nodes with a parent are tips, and without pruning the two agree |
| Validators.DPoS.RegisterValidator | pkg/consensus/dpos.go:29-52 | which registrations are refused and why; an accepted one adds exactly one entry, with the given key, stake and commission |
| Validators.RegisterMeans | pkg/consensus/dpos.go:29-52 | when a registration is accepted, and the table it leaves |
| Validators.DPoS.Delegate | pkg/consensus/dpos.go:55-69 | which delegations are refused; an accepted one changes one validator's power and one delegation |
| Validators.DelegateMeans | pkg/consensus/dpos.go:55-69 | when a delegation is accepted, and the table it leaves, sums as uint64 |
| Validators.DPoS.Undelegate | pkg/consensus/dpos.go:72-87 | the same for undelegations |
| Validators.UndelegateMeans | pkg/consensus/dpos.go:72-87 | when an undelegation is accepted, and the table it leaves |
| Validators.DPoS.ValidatorSet | pkg/consensus/dpos.go:112-141 | the registered validators in order of power and address, positions and address index inverse to each other, and their total power |
| Validators.SetUnique | pkg/consensus/dpos.go:116-134 | a registry has one validator set, so iteration order does not matter |
| Validators.RunBacked | pkg/consensus/dpos.go:29-87 | over every run of these operations power is stake plus delegations |
| Validators.DelegationUndone | pkg/consensus/dpos.go:55-87 | undelegating what was just delegated is accepted, and undoes it, if and only if the delegation did not wrap |
| Rotation.IsExpectedProposer | pkg/consensus/hotstuff.go:328-345 | the loop accepts exactly the rotation's choice |
| Rotation.OneProposer | pkg/consensus/hotstuff.go:332-344 | while anyone has power every turn has exactly one accepted address, and it is registered |
| Rotation.ChosenExactly | pkg/consensus/hotstuff.go:336-343 | a validator's seeds are the interval between its prefix sums |
| Rotation.FairRotation | pkg/consensus/hotstuff.go:328-345 | over any TotalPower consecutive turns each validator proposes exactly Power times |
| Quorum.SetBit | pkg/consensus/hotstuff.go:308-308 | setting a bit changes that bit only |
| Quorum.BitMeans | pkg/consensus/qc.go:21-24 | seat 8j + k is the bit of weight 2 to the k in byte j |
| Quorum.CollectVotes | pkg/consensus/hotstuff.go:299-310 | in any order of votes: bit i is set exactly when validator i voted, signature i is that vote's, and power is summed over the voters, nobody twice |
| Quorum.TryBuildQC | pkg/consensus/hotstuff.go:294-322 | a certificate exactly when the threshold test passes, carrying exactly those bits and signatures |
| Quorum.ThresholdExact | pkg/consensus/hotstuff.go:311-313 | the wrapping test is right for every possible signed power if and only if 3 * total fits in 64 bits |
| Quorum.BuiltHasQuorum | pkg/consensus/hotstuff.go:299-313 | the power of the set bits of a built certificate is the power that voted, and passes the test |
| Quorum.QuorumsOverlap | pkg/consensus/hotstuff.go:294-322 | the signers any two certificates share hold more than a third of the power |
| Quorum.HonestInBoth | pkg/consensus/hotstuff.go:294-322 | so with at most a third of the power faulty some other validator signed both |
| Quorum.VerifyQC | pkg/consensus/qc.go:11-46 | accepts exactly when there are validators, the bitmap has their number of bits, and every set bit has a signature that verifies for the certificate's hash, height and round under that validator's key; otherwise reports the first faulty seat |
| Quorum.SignBytesCommit | pkg/consensus/signing.go:24-31 | the bytes of a precommit signature fix hash, height, round and validator |
| Quorum.BuiltIsValid | pkg/consensus/hotstuff.go:203-222 | whatever the verifier: a built certificate is valid if and only if every validator's signature in it verifies for the message that names the certificate's height and round |
| Quorum.CurrentIsValid | pkg/consensus/qc.go:18-45 | filed, signed votes of the certificate's height and round make it valid under any verifier |
| Quorum.ValidExactly | pkg/consensus/qc.go:18-45 | if no validator's signature verifies both for its vote and for the different message that is rebuilt, those are the only valid ones |
| Quorum.StrayVoteSpoils | pkg/consensus/hotstuff.go:299-322 | a vote for another height or round is in the certificate, bit, signature and power, and makes it invalid |
| Quorum.PowerUnchecked | pkg/consensus/qc.go:21-44 | an empty certificate passes |
| Consensus.Engine.IsProposer | pkg/consensus/hotstuff.go:324-326 | whether it is this node's turn |
| Consensus.Engine.ProposeBlock | pkg/consensus/hotstuff.go:77-121 | only in turn; the block holds a selection of the pool under the own state, the next height, the last finalized hash, the own address and the root of its own preview; the proposal carries the engine's round and a signature over all of it; an error otherwise |
| Consensus.DraftedFields | pkg/consensus/hotstuff.go:84-121 | the same of the block and proposal drafted around any transactions |
| Consensus.Engine.CheckHeader | pkg/consensus/hotstuff.go:131-150 | no fault exactly when height, predecessor, proposer and the registered proposer's signature over the proposal are right; otherwise the first fault |
| Consensus.Engine.HandleProposal | pkg/consensus/hotstuff.go:124-191 | a vote exactly when the header is in order, the time accepted and the root that of the own preview; it names the block's hash, height and round and is signed; otherwise the first thing wrong |
| Consensus.Engine.HandlePrecommitVote | pkg/consensus/hotstuff.go:194-230 | a vote is accepted exactly when it is for the next height and verifies under its validator's key; then it replaces that validator's vote for that hash and no other, and may complete a certificate; refused votes change nothing |
| Consensus.Engine.HandleViewChange | pkg/consensus/hotstuff.go:233-258 | a message is accepted exactly when it is for the next height and verifies under its validator's key; it moves the round up, never down, and nothing else moves it |
| Consensus.Engine.OnTimeout | pkg/consensus/hotstuff.go:261-266 | the round advances by one |
| Consensus.Engine.FinalizeBlock | pkg/consensus/hotstuff.go:269-292 | the caller's block gains the certificate's signatures exactly when their number is that of the validators, and keeps every other field; on error engine and store are unchanged; on success that block is stored under its hash, which is the last finalized one, and height, round, validators and votes are the next height's |
| Consensus.CertificateValid | pkg/consensus/hotstuff.go:203-222 | at every height, a certificate built for a hash is valid if and only if all votes recorded for that hash are of the engine's height and round |
| VoteScenarios.LateVote | pkg/consensus/hotstuff.go:194-230 | an engine that times out once and then receives a vote for its first round builds a certificate from it that VerifyQC refuses |
| Consensus.LeftoverSpoils | pkg/consensus/hotstuff.go:203-286 | after a finalization, a vote of an earlier height left under another hash enters the certificate a new vote completes for that hash, and spoils it |
| VoteScenarios.LeftoverVote | pkg/consensus/hotstuff.go:194-292 | an engine finalizes a block with a valid certificate and then completes, with one new vote for another hash, a certificate that holds a vote of the height before, and that VerifyQC refuses |
| Consensus.SeatsStay | pkg/consensus/dpos.go:29-87 | no operation of the registry removes a validator or changes its key, so a set's keys stay the registered ones |
| Consensus.AcceptedProposal | pkg/consensus/hotstuff.go:131-169 | the proposer of an accepted proposal is the one registered validator whose turn it is, whose registered key signed it; its time is near any majority of the window, and its root is that of its own preview |
| Consensus.OwnProposalAccepted | pkg/consensus/hotstuff.go:77-191 | a node standing where the proposer stood finds nothing wrong with its proposal |
| Consensus.VotedIsFinal | pkg/consensus/hotstuff.go:162-284 | a proposal a node voted for can be finalized there with the signatures attached; what is committed is what was previewed for the vote, under the hash that was voted for |
| Consensus.ProposalExactly | pkg/consensus/hotstuff.go:84-103 | a proposer's own preview never fails for a nonce, the parties or a payload; unless it fails for a key, funds, stake or a contract, it succeeds if and only if the selection is affordable in the sense of SelectedExactly |
| Consensus.ProposalNeverStarved | pkg/consensus/hotstuff.go:84-103 | a corollary: while stored credits are within their caps and undelegations come last, no proposal is short of nonces or credits |

## Left out

- Networking, sessions, HTTP, the command line, configuration and genesis files: input and output only.
- Storage errors and Pebble's internals: the store is a map, a batch an overlay map, a commit one assignment.
- The consensus metadata keys (`SetConsensusState`, `GetConsensusState`): persistence of three scalars.
- The contract runtime: `contracts.ContractEngine` appears as the estimates by contract address a preview asks for and as one report per executed transaction; `ValidateWasmCode` and `EstimateInstructions` are modelled byte for byte, the interpreter is not. The engine handed to `FinalizeBlock` is the node's own.
- Slashing and jailing: `SlashDoubleSign` resets power to stake and would break the power invariant by design.
- `pkg/governance` and `pkg/network/abci.go`: simple map operations, and a build-tagged file that refers to types that no longer exist.
- Mutexes: every modelled method holds its lock throughout, so each is one step.
- Network-wide agreement and liveness: the engine keeps no record of its own earlier votes, so what is proved is overlap of quorums, not one block per height.
- `applyTransaction`, the variant of execution that writes straight to the store: nothing calls it.
- The difference between a nil and an empty slice, error texts, and nil-pointer arguments.
- Pointers to accounts and transactions: `get` returns a fresh copy on every call, so they are values here; validators, whose fields are updated through shared pointers, are objects. The copies in a validator set share their `Delegations` maps with the registry; a seat carries only what consensus reads.
- `sort.Slice` and `container/heap` are modelled from their contracts and published algorithms; results about sorting use only that the output is sorted.
- Aggregated signatures of certificates: never filled in.
- Sizes: transactions are assumed to fit in 2^48 bytes per byte string (`TxFits`, `AccountFits`), as every Go allocation does, so that a length always equals its uint64 form; `windowN` is assumed to fit in the 32-bit count of the stored window.
- BlockAssembly.SelectedNeverStarved: assumes stored credits within their caps, which an undelegation breaks until the next refresh; `BlockAssembly.SelectedExactly` does not.
- Consensus.ProposalNeverStarved: the same assumptions; `Consensus.ProposalExactly` does without them.
- TxPool.Selector.SelectionIsSimple: assumes hashes distinct across senders; without that the order among equal items of different senders depends on map iteration.
- Rotation.FairRotation: assumes the total power fits in 64 bits and the turns do not wrap; `Rotation.OneProposer` needs neither.
- BlockAssembly.SelectedExactly: assumes a total of balances and stakes within 64 bits, which `Ledger.RunConservation` keeps for good; when funds or stake run short is not characterized, because it depends on what other senders transfer in the block.
