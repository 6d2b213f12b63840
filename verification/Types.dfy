/** The values that travel between nodes and the account record kept in the store. */
module Types {
  import opened Wrappers
  import opened Machine

  datatype Transaction = Transaction(
    from: Address, to: Address, nonce: uint64, payload: Bytes, signature: Bytes)

  datatype Block = Block(
    height: uint64, prevHash: Hash, stateRoot: Hash, timestamp: int64, proposer: Address,
    transactions: seq<Transaction>, validatorSigs: seq<Bytes>)

  datatype PrecommitVote = PrecommitVote(
    blockHash: Hash, height: uint64, round: uint64, validator: Address, signature: Bytes)

  datatype Proposal = Proposal(block: Block, round: uint64, proposerSig: Bytes)

  datatype ViewChange = ViewChange(height: uint64, round: uint64, validator: Address, signature: Bytes)

  datatype Account = Account(
    address: Address, balance: uint64, nonce: uint64, stake: uint64,
    rc: uint64, rcMax: uint64, lastTime: int64, code: Bytes, pubKey: Bytes)

  /** The account a missing address stands for. */
  function ZeroAccount(a: Address): Account { Account(a, 0, 0, 0, 0, 0, 0, [], []) }

  datatype Payload =
    | Transfer(to: Address, amount: uint64)
    | StakeDelegate(validator: Address, amount: uint64)
    | StakeUndelegate(validator: Address, amount: uint64)
    | ContractDeploy(wasmCode: Bytes, salt: Bytes)
    | ContractCall(contract: Address, entry: Bytes, args: seq<Bytes>)
    | GovernanceProposal(title: Bytes, description: Bytes, paramKey: Bytes, paramValue: Bytes)
    | GovernanceVote(proposalId: uint64, option: uint8)

  datatype PayloadEnvelope = PayloadEnvelope(payload: Payload, senderPubKey: Bytes)
}
