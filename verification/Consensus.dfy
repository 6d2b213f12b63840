/** The consensus engine: proposals, votes, view changes and finalization (pkg/consensus/hotstuff.go). */
module Consensus {
  import opened Wrappers
  import opened Machine
  import opened Types
  import opened Validators
  import opened Rotation
  import opened Quorum
  import opened Sorting
  import AccountCodec
  import AccountStore
  import BlockAssembly
  import ChainState
  import Encoding
  import Ledger
  import PayloadCodec
  import Rc
  import TxPool

  datatype VoteError = UnexpectedVoteHeight | UnknownValidator | BadVoteSignature

  datatype ViewChangeError = UnexpectedViewHeight | UnknownViewValidator | BadViewSignature

  datatype ProposalError =
    | UnexpectedHeight | UnexpectedPrevHash | UnexpectedProposer | UnknownProposer | BadProposerSignature
    | TimestampOutsideWindow | PreviewFailed(error: ChainState.BlockError) | WrongStateRoot

  datatype ProposeError = NotProposer | SelectionFailed | OwnPreviewFailed(error: ChainState.BlockError)

  /** Where an engine stands between messages. */
  datatype Standing = Standing(height: uint64, round: uint64, lastFinalized: Hash, vset: ValidatorSet)

  /** What a proposer signs: the proposal without its signature, its block without the validators'. */
  function ProposalSignBytes(p: Proposal): Bytes {
    Encoding.ProposalBytes(Proposal(p.block.(validatorSigs := []), p.round, []))
  }

  function ViewChangeSignBytes(vc: ViewChange): Bytes { Encoding.ViewChangeBytes(vc.(signature := [])) }

  function VotesFor(votes: map<Hash, Votes>, h: Hash): Votes { if h in votes then votes[h] else map[] }

  // ----- what a proposal is checked for -----

  /** Everything before the state: height, predecessor, proposer and signature. */
  function HeaderFault(at: Standing, verify: Verifier, prop: Proposal): Option<ProposalError> {
    if prop.block.height != Wrap64(at.height + 1) then Some(UnexpectedHeight)
    else if prop.block.prevHash != at.lastFinalized then Some(UnexpectedPrevHash)
    else if Proposer(at.vset, Wrap64(at.height + at.round)) != Some(prop.block.proposer) then Some(UnexpectedProposer)
    else
      match SeatKey(at.vset, prop.block.proposer)
      case None => Some(UnknownProposer)
      case Some(key) =>
        if verify(ProposalSignBytes(prop), prop.proposerSig, key) then None else Some(BadProposerSignature)
  }

  /** The first thing wrong with a proposal at a standing, a ledger and a window. */
  ghost function ProposalFault(rules: Ledger.Rules, l: Ledger.Accounts, window: seq<int64>,
                               contracts: Option<ChainState.ContractEngine>, at: Standing, verify: Verifier,
                               prop: Proposal): Option<ProposalError> {
    if HeaderFault(at, verify, prop).Some? then HeaderFault(at, verify, prop)
    else if !Rc.TimestampAccepted(prop.block.timestamp, window, rules.params.maxSkewSec) then
      Some(TimestampOutsideWindow)
    else
      match ChainState.PreviewResult(rules, l, window, prop.block, contracts)
      case Err(e) => Some(PreviewFailed(e))
      case Ok(root) => if root != prop.block.stateRoot then Some(WrongStateRoot) else None
  }

  /** Every recorded vote is filed under its hash and validator, comes from a validator, and verified. */
  ghost predicate AllFiled(votes: map<Hash, Votes>, vset: ValidatorSet, verify: Verifier) {
    forall h, a {:trigger votes[h][a]} :: h in votes && a in votes[h] ==>
      SeatKey(vset, a).Some? && VoteFiled(vset, verify, h, a, votes[h][a])
  }

  /** votes with v recorded. */
  function Recorded(votes: map<Hash, Votes>, v: PrecommitVote): map<Hash, Votes> {
    votes[v.blockHash := VotesFor(votes, v.blockHash)[v.validator := v]]
  }

  lemma FiledMore(votes: map<Hash, Votes>, vset: ValidatorSet, verify: Verifier, v: PrecommitVote)
    requires AllFiled(votes, vset, verify)
    requires SeatKey(vset, v.validator).Some? && VoteFiled(vset, verify, v.blockHash, v.validator, v)
    ensures AllFiled(Recorded(votes, v), vset, verify)
  {
    hide VoteFiled, SeatKey;
  }

  /** The validators of a set are registered, under the keys the set gives them. */
  ghost predicate SeatsIn(vset: ValidatorSet, t: Table) {
    forall a :: a in vset.indexByAddr ==> a in t && SeatKey(vset, a) == Some(t[a].pubKey)
  }

  lemma OwnSeats(t: Table, vset: ValidatorSet)
    requires IsValidatorSet(t, vset)
    ensures SeatsIn(vset, t)
  {
    hide PowerOf, Wrap64, Ahead;
  }

  /** No operation of the registry removes a validator or changes its key. */
  lemma SeatsStay(limits: Limits, t: Table, op: Op, vset: ValidatorSet)
    requires SeatsIn(vset, t)
    ensures SeatsIn(vset, limits.Perform(t, op))
  {
    hide SeatKey;
  }

  /** Recorded votes stay filed when the engine moves on to the registry's current set. */
  lemma FiledUnderNext(votes: map<Hash, Votes>, vset: ValidatorSet, t: Table, next: ValidatorSet, verify: Verifier,
                       voted: Hash)
    requires AllFiled(votes, vset, verify) && SeatsIn(vset, t) && IsValidatorSet(t, next)
    ensures AllFiled(votes - {voted}, next, verify) && SeatsIn(next, t)
  {
    hide IsValidatorSet, SeatKey;
    OwnSeats(t, next);
    forall h, a | h in votes - {voted} && a in votes[h]
      ensures SeatKey(next, a).Some? && VoteFiled(next, verify, h, a, votes[h][a])
    {
      assert SeatKey(vset, a).Some? && VoteFiled(vset, verify, h, a, votes[h][a]);
      SeatListed(vset, a);
      assert t[a].pubKey == SeatKey(vset, a).value;
      NextListed(t, next, a);
    }
  }

  lemma SeatListed(vset: ValidatorSet, a: Address)
    ensures SeatKey(vset, a).Some? ==> a in vset.indexByAddr
  {
  }

  lemma NextListed(t: Table, vset: ValidatorSet, a: Address)
    requires IsValidatorSet(t, vset) && a in t
    ensures a in vset.indexByAddr
  {
  }

  /** State.GetAccount over stored bytes: a record that does not decode is an error, a missing one a zero account. */
  function StoredView(kv: AccountStore.KV): TxPool.View {
    (a: Address) =>
      if AccountStore.AccountKey(a) !in kv then TxPool.Found(ZeroAccount(a))
      else
        match AccountCodec.DecodeAccount(kv[AccountStore.AccountKey(a)])
        case None => TxPool.Failed
        case Some(acct) => TxPool.Found(acct)
  }

  class Engine {
    const state: ChainState.State
    const dpos: DPoS
    const pool: TxPool.Mempool
    const contracts: Option<ChainState.ContractEngine>
    const verify: Verifier
    const sign: Bytes -> Bytes
    const self: Address
    const blockMaxTxs: int
    var vset: ValidatorSet
    var height: uint64
    var round: uint64
    var lastFinalized: Hash
    var votes: map<Hash, Votes>

    constructor (state: ChainState.State, dpos: DPoS, pool: TxPool.Mempool,
                 contracts: Option<ChainState.ContractEngine>, self: Address, sign: Bytes -> Bytes, verify: Verifier,
                 blockMaxTxs: int)
      requires state.Valid() && dpos.Valid()
      ensures Valid() && VotesFiled() && SeatsCurrent() && votes == map[] && IsValidatorSet(dpos.TableOf(), vset)
      ensures At() == Standing(0, 0, ZERO_HASH, vset)
      ensures this.state == state && this.dpos == dpos && this.pool == pool && this.contracts == contracts
      ensures this.self == self && this.sign == sign && this.verify == verify && this.blockMaxTxs == blockMaxTxs
    {
      hide IsValidatorSet, Consistent;
      this.state, this.dpos, this.pool, this.contracts := state, dpos, pool, contracts;
      this.self, this.sign, this.verify, this.blockMaxTxs := self, sign, verify, blockMaxTxs;
      this.vset := Ranking([], 0, map[]);
      this.height, this.round, this.lastFinalized, this.votes := 0, 0, ZERO_HASH, map[];
      new;
      vset := dpos.ValidatorSet();
      SetConsistent(dpos.TableOf(), vset);
      OwnSeats(dpos.TableOf(), vset);
    }

    ghost predicate Valid()
      reads this, state.store
    {
      state.Valid() && Consistent(vset)
    }

    function At(): Standing
      reads this
    {
      Standing(height, round, lastFinalized, vset)
    }

    ghost predicate VotesFiled()
      reads this
    {
      AllFiled(votes, vset, verify)
    }

    /** The engine's validators are registered under the keys it knows. */
    ghost predicate SeatsCurrent()
      reads this, dpos, dpos.validators.Values
    {
      SeatsIn(vset, dpos.TableOf())
    }

    method IsProposer() returns (ok: bool)
      ensures ok <==> Proposer(vset, Wrap64(height + round)) == Some(self)
    {
      ok := IsExpectedProposer(vset, height, round, self);
    }

    function VoteFault(vote: PrecommitVote): Option<VoteError>
      reads this
    {
      if vote.height != Wrap64(height + 1) then Some(UnexpectedVoteHeight)
      else
        match SeatKey(vset, vote.validator)
        case None => Some(UnknownValidator)
        case Some(key) => if verify(SignBytes(vote), vote.signature, key) then None else Some(BadVoteSignature)
    }

    /** A vote without fault replaces any earlier one of its validator for that hash, and may complete a certificate. */
    method HandlePrecommitVote(vote: PrecommitVote) returns (r: Result<Option<QC>, VoteError>)
      requires Valid()
      modifies this`votes
      ensures old(VoteFault(vote)).Some? ==> r == Err(old(VoteFault(vote)).value) && votes == old(votes)
      ensures old(VoteFault(vote)).None? ==>
        && votes == Recorded(old(votes), vote)
        && r.Ok? && Built(vset, height, round, vote.blockHash, VotesFor(votes, vote.blockHash), r.value)
      ensures r.Ok? <==>
                && vote.height == Wrap64(height + 1)
                && vote.validator in vset.indexByAddr && vset.indexByAddr[vote.validator] < |vset.validators|
                && verify(Encoding.VoteBytes(vote.(signature := [])), vote.signature,
                          vset.validators[vset.indexByAddr[vote.validator]].pubKey)
      ensures r.Ok? ==>
        && votes.Keys == old(votes).Keys + {vote.blockHash}
        && (forall h :: h in old(votes) && h != vote.blockHash ==> votes[h] == old(votes)[h])
        && votes[vote.blockHash]
             == (if vote.blockHash in old(votes) then old(votes)[vote.blockHash] else map[])[vote.validator := vote]
      ensures old(VotesFiled()) ==> VotesFiled()
    {
      hide Built, Consistent, Encoding.VoteBytes, AllFiled;
      if vote.height != Wrap64(height + 1) {
        return Err(UnexpectedVoteHeight);
      }
      var voteBytes := Encoding.MarshalPrecommitVote(vote.(signature := []));
      var pk := SeatKey(vset, vote.validator);
      if pk.None? {
        return Err(UnknownValidator);
      }
      if !verify(voteBytes, vote.signature, pk.value) {
        return Err(BadVoteSignature);
      }
      if VotesFiled() {
        FiledMore(votes, vset, verify, vote);
      }
      var vmap := VotesFor(votes, vote.blockHash);
      vmap := vmap[vote.validator := vote];
      votes := votes[vote.blockHash := vmap];
      var qc := TryBuildQC(vset, height, round, vote.blockHash, vmap);
      r := Ok(qc);
    }

    method OnTimeout()
      modifies this`round
      ensures round == Wrap64(old(round) + 1)
      ensures old(VotesFiled()) ==> VotesFiled()
    {
      round := Wrap64(round + 1);
    }

    function ViewFault(vc: ViewChange): Option<ViewChangeError>
      reads this
    {
      if vc.height != Wrap64(height + 1) then Some(UnexpectedViewHeight)
      else
        match SeatKey(vset, vc.validator)
        case None => Some(UnknownViewValidator)
        case Some(key) => if verify(ViewChangeSignBytes(vc), vc.signature, key) then None else Some(BadViewSignature)
    }

    /** One validator's word is enough to move to any later round. */
    method HandleViewChange(vc: ViewChange) returns (err: Option<ViewChangeError>)
      modifies this`round
      ensures err == old(ViewFault(vc))
      ensures round == if err.None? && vc.round > old(round) then vc.round else old(round)
      ensures old(VotesFiled()) ==> VotesFiled()
      ensures err.None? <==>
                && vc.height == Wrap64(height + 1)
                && vc.validator in vset.indexByAddr && vset.indexByAddr[vc.validator] < |vset.validators|
                && verify(Encoding.ViewChangeBytes(vc.(signature := [])), vc.signature,
                          vset.validators[vset.indexByAddr[vc.validator]].pubKey)
      ensures round != old(round) ==> err.None? && old(round) < vc.round == round
    {
      hide Encoding.ViewChangeBytes;
      if vc.height != Wrap64(height + 1) {
        return Some(UnexpectedViewHeight);
      }
      var pk := SeatKey(vset, vc.validator);
      if pk.None? {
        return Some(UnknownViewValidator);
      }
      var msg := Encoding.MarshalViewChange(vc.(signature := []));
      if !verify(msg, vc.signature, pk.value) {
        return Some(BadViewSignature);
      }
      if vc.round > round {
        round := vc.round;
      }
      err := None;
    }

    /** The checks before the state of HandleProposal. */
    method CheckHeader(prop: Proposal) returns (err: Option<ProposalError>)
      ensures err == HeaderFault(At(), verify, prop)
      ensures err.None? <==>
                && prop.block.height == Wrap64(height + 1) && prop.block.prevHash == lastFinalized
                && Proposer(vset, Wrap64(height + round)) == Some(prop.block.proposer)
                && prop.block.proposer in vset.indexByAddr
                && vset.indexByAddr[prop.block.proposer] < |vset.validators|
                && verify(Encoding.ProposalBytes(Proposal(prop.block.(validatorSigs := []), prop.round, [])),
                          prop.proposerSig, vset.validators[vset.indexByAddr[prop.block.proposer]].pubKey)
    {
      hide Encoding.ProposalBytes, Proposer;
      if prop.block.height != Wrap64(height + 1) {
        return Some(UnexpectedHeight);
      }
      if prop.block.prevHash != lastFinalized {
        return Some(UnexpectedPrevHash);
      }
      var expected := IsExpectedProposer(vset, height, round, prop.block.proposer);
      if !expected {
        return Some(UnexpectedProposer);
      }
      var propBytes := Encoding.MarshalProposal(Proposal(prop.block.(validatorSigs := []), prop.round, []));
      var pk := SeatKey(vset, prop.block.proposer);
      if pk.None? {
        return Some(UnknownProposer);
      }
      if !verify(propBytes, prop.proposerSig, pk.value) {
        return Some(BadProposerSignature);
      }
      err := None;
    }

    method HandleProposal(prop: Proposal) returns (r: Result<PrecommitVote, ProposalError>)
      requires Valid() && ChainState.BlockFits(prop.block)
      ensures var fault := ProposalFault(state.rules, state.store.Accounts(), state.store.Window(), contracts, At(),
          verify, prop);
        if fault.Some? then r == Err(fault.value)
        else
          var vote := PrecommitVote(ChainState.BlockHash(state.rules, prop.block), prop.block.height, prop.round,
            self, []);
          r == Ok(vote.(signature := sign(SignBytes(vote))))
      ensures r.Ok? <==>
                && HeaderFault(At(), verify, prop).None?
                && Rc.TimestampAccepted(prop.block.timestamp, state.store.Window(), state.rules.params.maxSkewSec)
                && ChainState.PreviewResult(state.rules, state.store.Accounts(), state.store.Window(), prop.block,
                     contracts) == Ok(prop.block.stateRoot)
      ensures r.Ok? ==>
        && r.value.blockHash == state.rules.crypto.sha(Encoding.BlockBytesForHash(prop.block))
        && r.value.height == prop.block.height && r.value.round == prop.round && r.value.validator == self
        && r.value.signature == sign(Encoding.VoteBytes(r.value.(signature := [])))
    {
      hide HeaderFault, ChainState.PreviewResult, Encoding.VoteBytes, Encoding.BlockBytesForHash, Rc.EffectiveTime;
      hide Consistent;
      var err := CheckHeader(prop);
      if err.Some? {
        return Err(err.value);
      }
      var lastTimestamps := state.store.GetLastTimestamps();
      if |lastTimestamps| > 0 {
        var effective := Rc.EffectiveTime(prop.block.timestamp, lastTimestamps, state.rules.params.maxSkewSec);
        if effective != prop.block.timestamp {
          return Err(TimestampOutsideWindow);
        }
      }
      var previewRoot := state.PreviewBlock(prop.block, contracts);
      if previewRoot.Err? {
        return Err(PreviewFailed(previewRoot.error));
      }
      if previewRoot.value != prop.block.stateRoot {
        return Err(WrongStateRoot);
      }
      var headerBytes := Encoding.MarshalBlockForHash(prop.block);
      var vote := PrecommitVote(state.rules.crypto.sha(headerBytes), prop.block.height, prop.round, self, []);
      var voteBytes := Encoding.MarshalPrecommitVote(vote);
      r := Ok(vote.(signature := sign(voteBytes)));
    }

    /** A proposal from the pool's best transactions, previewed on the own state. */
    method ProposeBlock(now: int64)
      returns (r: Result<Proposal, ProposeError>, ghost run: TxPool.Run, ghost chosen: Option<seq<Transaction>>)
      requires Valid() && PoolFits(pool.pool)
      ensures Proposer(vset, Wrap64(height + round)) != Some(self) ==> r == Err(NotProposer)
      ensures Proposer(vset, Wrap64(height + round)) == Some(self) ==>
        && (if blockMaxTxs <= 0 then chosen == Some([])
            else pool.selector.Selection(TxPool.Initial(pool.pool, BlockAssembly.ViewOf(state.store.Accounts())),
              blockMaxTxs, run, chosen))
        && r == match chosen {
                  case None => Err(SelectionFailed)
                  case Some(txs) => ProposeResult(state.rules, state.store.Accounts(), state.store.Window(), contracts,
                    At(), self, sign, txs, now)
                }
      ensures r.Ok? ==>
        var b := r.value.block;
        && b.height == Wrap64(height + 1) && b.prevHash == lastFinalized && b.timestamp == now && b.proposer == self
        && chosen == Some(b.transactions) && r.value.round == round
        && b.validatorSigs == seq(|vset.validators|, _ => [])
        && ChainState.PreviewResult(state.rules, state.store.Accounts(), state.store.Window(), b, contracts)
             == Ok(b.stateRoot)
        && r.value.proposerSig
             == sign(Encoding.ProposalBytes(Proposal(b.(validatorSigs := []), r.value.round, [])))
    {
      hide ChainState.PreviewResult, Encoding.ProposalBytes, Consistent, Proposer, AccountStore.WellFormed;
      hide AccountStore.LedgerOf, TxPool.Selector.Selection, TxPool.ViewFails, TxPool.Initial, ProposeResult;
      hide TxPool.Selector.Outbids, StoredView, BlockAssembly.ViewOf, PoolFits;
      chosen, run := None, TxPool.Run.Run([map[]], [], []);
      var proposer := IsProposer();
      if !proposer {
        r := Err(NotProposer);
        return;
      }
      StoredInitial(pool.pool, state.store.kv);
      var selected;
      selected, run := pool.SelectForBlock(blockMaxTxs, StoredView(state.store.kv));
      chosen := selected;
      if selected.None? {
        r := Err(SelectionFailed);
        return;
      }
      SelectedFit(pool.selector, pool.pool, StoredView(state.store.kv), blockMaxTxs, run, selected.value);
      r := Draft(selected.value, now);
      if r.Ok? {
        DraftedFields(state.rules, state.store.Accounts(), state.store.Window(), contracts, At(), self, sign,
          selected.value, now, r.value);
      }
    }

    /** The rest of ProposeBlock: the block around the selection, previewed and signed. */
    method Draft(txs: seq<Transaction>, now: int64) returns (r: Result<Proposal, ProposeError>)
      requires Valid() && forall i :: 0 <= i < |txs| ==> ChainState.TxFits(txs[i])
      ensures r == ProposeResult(state.rules, state.store.Accounts(), state.store.Window(), contracts, At(), self, sign,
                txs, now)
    {
      hide ChainState.PreviewResult, Encoding.ProposalBytes, Consistent, AccountStore.WellFormed, AccountStore.LedgerOf;
      var block := DraftBlock(At(), self, txs, now);
      var root := state.PreviewBlock(block, contracts);
      if root.Err? {
        r := Err(OwnPreviewFailed(root.error));
        return;
      }
      block := block.(stateRoot := root.value);
      var prop := Proposal(block, round, []);
      var propBytes := Encoding.MarshalProposal(Proposal(prop.block.(validatorSigs := []), prop.round, []));
      r := Ok(prop.(proposerSig := sign(propBytes)));
    }

    /** The end of FinalizeBlock: the next height, the current validators, round 0. */
    method MoveOn(block: Block, voted: Hash)
      requires Valid() && dpos.Valid()
      modifies this
      ensures Valid() && IsValidatorSet(dpos.TableOf(), vset)
      ensures At() == Standing(block.height, 0, ChainState.BlockHash(state.rules, block), vset)
      ensures votes == old(votes) - {voted}
      ensures old(VotesFiled() && SeatsCurrent()) ==> VotesFiled() && SeatsCurrent()
    {
      hide IsValidatorSet, Consistent, Encoding.BlockBytesForHash, DPoS.TableOf, DPoS.Valid, AllFiled, SeatsIn;
      ghost var before, was := votes, vset;
      height := block.height;
      var headerBytes := Encoding.MarshalBlockForHash(block);
      lastFinalized := state.rules.crypto.sha(headerBytes);
      vset := dpos.ValidatorSet();
      SetConsistent(dpos.TableOf(), vset);
      round := 0;
      votes := votes - {voted};
      if old(VotesFiled() && SeatsCurrent()) {
        FiledUnderNext(before, was, dpos.TableOf(), vset, verify, voted);
      }
    }

    /**
     * The caller's block gains the certificate's signatures even when it cannot be applied.
     * Votes recorded for other blocks stay, whatever height they were cast for.
     */
    method FinalizeBlock(block: Block, qc: QC, reports: nat -> ChainState.Report)
      returns (err: Option<ChainState.BlockError>, signed: Block)
      requires Valid() && dpos.Valid() && ChainState.BlockFits(block)
      modifies this, state.store, state.dag
      ensures Valid() && signed == WithSignatures(block, qc, old(vset))
      ensures signed == block.(validatorSigs := signed.validatorSigs)
      ensures signed.validatorSigs
           == if |qc.signatures| == |old(vset).validators| then qc.signatures else block.validatorSigs
      ensures err.None? ==>
        var hash := state.rules.crypto.sha(Encoding.BlockBytesForHash(signed));
        && height == block.height && round == 0 && lastFinalized == hash
        && AccountStore.Ascii("block/") + hash in state.store.kv
        && state.store.kv[AccountStore.Ascii("block/") + hash] == Encoding.BlockBytes(signed)
      ensures var applied := ChainState.ApplyResult(state.rules, old(state.store.Accounts()),
          old(state.store.Window()), signed, contracts, reports);
        && err == (match applied case Err(e) => Some(e) case Ok(_) => None)
        && (err.None? ==>
              && state.Committed(applied.value, old(state.store.Window()), signed)
              && At() == Standing(block.height, 0, ChainState.BlockHash(state.rules, signed), vset)
              && votes == old(votes) - {qc.blockHash})
      ensures err.None? ==> IsValidatorSet(dpos.TableOf(), vset)
      ensures err.Some? ==> At() == old(At()) && votes == old(votes) && state.store.kv == old(state.store.kv)
      ensures err.Some? ==> state.dag.Value() == old(state.dag.Value())
      ensures old(VotesFiled() && SeatsCurrent()) ==> VotesFiled() && SeatsCurrent()
    {
      hide ChainState.ApplyResult, ChainState.State.Committed, ChainState.VersionAdded, Encoding.BlockBytesForHash;
      hide IsValidatorSet, Consistent, AllFiled, SeatsIn, DPoS.TableOf, DPoS.Valid, AccountStore.WellFormed;
      hide AccountStore.LedgerOf, AccountStore.WindowOf, AccountStore.Ascii;
      signed := block;
      if |qc.signatures| == |vset.validators| {
        signed := signed.(validatorSigs := qc.signatures);
      }
      ghost var applied := ChainState.ApplyResult(state.rules, state.store.Accounts(), state.store.Window(), signed,
        contracts, reports);
      var root := state.ApplyBlock(signed, contracts, reports);
      if root.Err? {
        err := Some(root.error);
        return;
      }
      signed := signed.(stateRoot := root.value);
      ChainState.RecordStored(state, applied.value, old(state.store.Window()), signed);
      MoveOn(signed, qc.blockHash);
      err := None;
    }
  }

  // ----- proposing -----

  function DraftBlock(at: Standing, self: Address, txs: seq<Transaction>, now: int64): Block {
    Block(Wrap64(at.height + 1), at.lastFinalized, ZERO_HASH, now, self, txs, seq(|at.vset.validators|, _ => []))
  }

  ghost function ProposeResult(rules: Ledger.Rules, l: Ledger.Accounts, window: seq<int64>,
                               contracts: Option<ChainState.ContractEngine>, at: Standing, self: Address,
                               sign: Bytes -> Bytes, txs: seq<Transaction>,
                               now: int64): Result<Proposal, ProposeError> {
    match ChainState.PreviewResult(rules, l, window, DraftBlock(at, self, txs, now), contracts)
    case Err(e) => Err(OwnPreviewFailed(e))
    case Ok(root) =>
      var p := Proposal(DraftBlock(at, self, txs, now).(stateRoot := root), at.round, []);
      Ok(p.(proposerSig := sign(ProposalSignBytes(p))))
  }

  /** What a drafted proposal says, and that the signature is over all of it. */
  lemma DraftedFields(rules: Ledger.Rules, l: Ledger.Accounts, window: seq<int64>,
                      contracts: Option<ChainState.ContractEngine>, at: Standing, self: Address, sign: Bytes -> Bytes,
                      txs: seq<Transaction>, now: int64, p: Proposal)
    requires ProposeResult(rules, l, window, contracts, at, self, sign, txs, now) == Ok(p)
    ensures var b := p.block;
      && b.height == Wrap64(at.height + 1) && b.prevHash == at.lastFinalized && b.timestamp == now
      && b.proposer == self && b.transactions == txs && p.round == at.round
      && b.validatorSigs == seq(|at.vset.validators|, _ => [])
      && ChainState.PreviewResult(rules, l, window, b, contracts) == Ok(b.stateRoot)
      && p.proposerSig == sign(Encoding.ProposalBytes(Proposal(b.(validatorSigs := []), p.round, [])))
  {
    hide ChainState.PreviewResult, Encoding.ProposalBytes;
    var draft := DraftBlock(at, self, txs, now);
    PreviewIgnores(rules, l, window, contracts, draft, p.block.stateRoot, draft.validatorSigs);
  }

  function WithSignatures(block: Block, qc: QC, vset: ValidatorSet): Block {
    if |qc.signatures| == |vset.validators| then block.(validatorSigs := qc.signatures) else block
  }

  ghost predicate PoolFits(pool: TxPool.Pool) {
    forall a, t :: a in pool && t in pool[a] ==> ChainState.TxFits(t)
  }

  lemma StoredViewIs(kv: AccountStore.KV, a: Address)
    requires AccountStore.WellFormed(kv)
    ensures StoredView(kv)(a) == TxPool.Found(Ledger.Get(AccountStore.LedgerOf(kv), a))
  {
    hide AccountCodec.DecodeAccount, AccountStore.LedgerOf;
    AccountStore.LedgerKeys(kv, a);
    AccountStore.KeyRoundTrip(a);
  }

  lemma StoredInitial(pool: TxPool.Pool, kv: AccountStore.KV)
    requires AccountStore.WellFormed(kv)
    ensures TxPool.Initial(pool, StoredView(kv))
        == TxPool.Initial(pool, BlockAssembly.ViewOf(AccountStore.LedgerOf(kv)))
    ensures !TxPool.ViewFails(pool, StoredView(kv))
  {
    hide AccountStore.WellFormed, AccountStore.LedgerOf, StoredView;
    forall a
      ensures StoredView(kv)(a) == BlockAssembly.ViewOf(AccountStore.LedgerOf(kv))(a) && !StoredView(kv)(a).Failed?
    {
      StoredViewIs(kv, a);
    }
  }

  /** Everything selected was in the pool. */
  lemma SelectedFit(selector: TxPool.Selector, pool: TxPool.Pool, view: TxPool.View, max: int, run: TxPool.Run,
                    txs: seq<Transaction>)
    requires PoolFits(pool)
    requires max <= 0 ==> txs == []
    requires max > 0 ==>
        !TxPool.ViewFails(pool, view) && selector.Selection(TxPool.Initial(pool, view), max, run, Some(txs))
    ensures forall i :: 0 <= i < |txs| ==> ChainState.TxFits(txs[i])
  {
    hide ChainState.TxFits;
    if max > 0 {
      forall k | 0 <= k < |txs|
        ensures ChainState.TxFits(txs[k])
      {
        BlockAssembly.QueuesAlong(selector, pool, run, k);
        selector.PickedAt(run, k);
      }
    }
  }

  // ----- votes and certificates -----

  /**
   * At every height, a certificate an engine builds for h passes VerifyQC exactly when every
   * vote it has recorded for h was cast for the engine's own height and round.
   */
  lemma CertificateValid(e: Engine, h: Hash, qc: QC)
    requires e.Valid() && h in e.votes && Built(e.vset, e.height, e.round, h, e.votes[h], Some(qc))
    requires forall a :: a in e.votes[h] ==>
      && SeatKey(e.vset, a).Some? && VoteFiled(e.vset, e.verify, h, a, e.votes[h][a]) && |e.votes[h][a].signature| > 0
      && VoteFits(e.votes[h], a) && Separates(e.vset, e.verify, e.height, e.round, h, e.votes[h], a)
    ensures QCValid(qc, e.vset, e.verify) <==>
              forall a :: a in e.votes[h] ==>
                e.votes[h][a].height == Wrap64(e.height + 1) && e.votes[h][a].round == e.round
  {
    hide Built, VoteFiled, Consistent, QCValid, VoteFits, Separates, Wrap64, SeatKey;
    ValidExactly(e.vset, e.verify, e.height, e.round, h, e.votes[h], qc);
    if forall a :: a in e.vset.indexByAddr ==> CastIn(e.votes[h], a, e.height, e.round) {
      forall a | a in e.votes[h]
        ensures CastIn(e.votes[h], a, e.height, e.round)
      {
        SeatListed(e.vset, a);
      }
    }
  }

  /**
   * A vote left over from an earlier height: when a block has been finalized and the hash
   * the vote is filed under receives a new one, the old vote is in the certificate, bit,
   * signature and power, and spoils it.
   */
  lemma LeftoverSpoils(vset: ValidatorSet, verify: Verifier, height: uint64, round: uint64, before: map<Hash, Votes>,
                       finalized: Hash, h: Hash, vote: PrecommitVote, a: Address, qc: QC)
    requires Consistent(vset) && h in before && a in before[h] && h != finalized
    requires before[h][a].height != Wrap64(height + 1) && a in vset.indexByAddr
    requires vote.blockHash == h && vote.validator != a
    requires Built(vset, height, round, h, Recorded(before - {finalized}, vote)[h], Some(qc))
    ensures var idx := vset.indexByAddr[a];
      && idx < |qc.signatures| && idx / 8 < |qc.bitmap|
      && BitSet(qc.bitmap, idx) && qc.signatures[idx] == before[h][a].signature
    ensures SignedPower(vset, qc) == VotedPower(vset, Recorded(before - {finalized}, vote)[h])
    ensures VoteFiled(vset, verify, h, a, before[h][a]) && VoteFits(before[h], a)
            && Separates(vset, verify, height, round, h, before[h], a) ==>
              !QCValid(qc, vset, verify)
  {
    hide Built, Consistent, QCValid, VoteFiled, BitSet, Wrap64, VotedPower, SignedPower;
    var votes := Recorded(before - {finalized}, vote)[h];
    assert a in votes && votes[a] == before[h][a];
    StrayVoteSpoils(vset, verify, height, round, h, votes, qc, a);
  }

  // ----- a proposal's way through the network -----

  lemma PreviewIgnores(rules: Ledger.Rules, l: Ledger.Accounts, window: seq<int64>,
                       contracts: Option<ChainState.ContractEngine>, block: Block, root: Hash, sigs: seq<Bytes>)
    ensures ChainState.PreviewResult(rules, l, window, block.(stateRoot := root, validatorSigs := sigs), contracts)
         == ChainState.PreviewResult(rules, l, window, block, contracts)
  {
    hide ChainState.RootOf, Ledger.ApplyAll;
  }

  /**
   * A node that stands where the proposer stood, with the same accounts and window, finds
   * nothing wrong with its proposal, if the proposer's signature verifies and its clock is
   * within the window.
   */
  lemma OwnProposalAccepted(rules: Ledger.Rules, l: Ledger.Accounts, window: seq<int64>,
                            contracts: Option<ChainState.ContractEngine>, at: Standing, self: Address,
                            sign: Bytes -> Bytes, verify: Verifier, txs: seq<Transaction>, now: int64, prop: Proposal)
    requires ProposeResult(rules, l, window, contracts, at, self, sign, txs, now) == Ok(prop)
    requires Proposer(at.vset, Wrap64(at.height + at.round)) == Some(self) && SeatKey(at.vset, self).Some?
    requires verify(ProposalSignBytes(prop), sign(ProposalSignBytes(prop)), SeatKey(at.vset, self).value)
    requires Rc.TimestampAccepted(now, window, rules.params.maxSkewSec)
    ensures ProposalFault(rules, l, window, contracts, at, verify, prop) == None
  {
    hide ChainState.PreviewResult, Encoding.ProposalBytes, Proposer, SeatKey, Rc.TimestampAccepted;
    PreviewIgnores(rules, l, window, contracts, DraftBlock(at, self, txs, now), prop.block.stateRoot,
      DraftBlock(at, self, txs, now).validatorSigs);
  }

  lemma AcceptedHeader(t: Table, at: Standing, verify: Verifier, prop: Proposal)
    requires IsValidatorSet(t, at.vset) && HeaderFault(at, verify, prop) == None
    ensures prop.block.height == Wrap64(at.height + 1) && prop.block.prevHash == at.lastFinalized
    ensures prop.block.proposer in t && Proposer(at.vset, Wrap64(at.height + at.round)) == Some(prop.block.proposer)
    ensures verify(ProposalSignBytes(prop), prop.proposerSig, t[prop.block.proposer].pubKey)
  {
    hide Proposer, Ahead, Wrap64, PowerOf, ProposalSignBytes;
    ProposerRegistered(t, at.vset, Wrap64(at.height + at.round));
  }

  /**
   * An accepted proposal extends the last finalized block by one, comes signed from the one
   * validator whose turn it is, and carries a time near any majority of the window and the
   * root of its own preview.
   */
  lemma AcceptedProposal(t: Table, rules: Ledger.Rules, l: Ledger.Accounts, window: seq<int64>,
                         contracts: Option<ChainState.ContractEngine>, at: Standing, verify: Verifier, prop: Proposal,
                         lo: int, hi: int)
    requires IsValidatorSet(t, at.vset) && ProposalFault(rules, l, window, contracts, at, verify, prop) == None
    ensures prop.block.height == Wrap64(at.height + 1) && prop.block.prevHash == at.lastFinalized
    ensures prop.block.proposer in t && Proposer(at.vset, Wrap64(at.height + at.round)) == Some(prop.block.proposer)
    ensures prop.block.proposer in t ==>
        verify(ProposalSignBytes(prop), prop.proposerSig, t[prop.block.proposer].pubKey)
    ensures ChainState.PreviewResult(rules, l, window, prop.block, contracts) == Ok(prop.block.stateRoot)
    ensures 2 * Count(window, Rc.InRange(lo, hi)) > |window| && rules.params.maxSkewSec >= 0
            && -TWO63 <= lo - rules.params.maxSkewSec && hi + rules.params.maxSkewSec < TWO63 ==>
              lo - rules.params.maxSkewSec <= prop.block.timestamp <= hi + rules.params.maxSkewSec
  {
    hide ChainState.PreviewResult, HeaderFault, IsValidatorSet, Proposer, Wrap64, Count, Rc.EffectiveTime;
    hide Rc.TimestampAccepted, ProposalSignBytes;
    AcceptedHeader(t, at, verify, prop);
    if 2 * Count(window, Rc.InRange(lo, hi)) > |window| && rules.params.maxSkewSec >= 0
       && -TWO63 <= lo - rules.params.maxSkewSec && hi + rules.params.maxSkewSec < TWO63 {
      Rc.AcceptedNearMajority(prop.block.timestamp, window, rules.params.maxSkewSec, lo, hi);
    }
  }

  /**
   * A proposal a node voted for can be finalized there: while accounts and window are what
   * they were and the engine's reports agree with its estimates, ApplyBlock succeeds with
   * the signatures attached, what it commits is what was previewed for the vote, and the
   * block's hash is still the one that was voted for.
   */
  lemma VotedIsFinal(rules: Ledger.Rules, l: Ledger.Accounts, window: seq<int64>,
                     contracts: Option<ChainState.ContractEngine>, at: Standing, verify: Verifier, prop: Proposal,
                     qc: QC, reports: nat -> ChainState.Report)
    requires ProposalFault(rules, l, window, contracts, at, verify, prop) == None
    requires ChainState.ReportsAgree(contracts, reports, prop.block.transactions)
    ensures var applied := ChainState.ApplyResult(rules, l, window, WithSignatures(prop.block, qc, at.vset), contracts,
        reports);
      && applied.Ok?
      && ChainState.Execute(rules, l, window, prop.block, contracts, ChainState.Preview) == Ok(applied.value)
      && ChainState.BlockHash(rules, WithSignatures(prop.block, qc, at.vset)) == ChainState.BlockHash(rules, prop.block)
  {
    hide ChainState.PreviewResult, ChainState.ApplyResult, ChainState.ReportsAgree, HeaderFault, Rc.TimestampAccepted;
    hide Ledger.ApplyAll;
    var signed := WithSignatures(prop.block, qc, at.vset);
    assert signed == prop.block.(stateRoot := prop.block.stateRoot, validatorSigs := signed.validatorSigs);
    PreviewIgnores(rules, l, window, contracts, prop.block, prop.block.stateRoot, signed.validatorSigs);
    ChainState.CommitFollowsPreview(rules, l, window, signed, contracts, reports);
  }

  /**
   * When a proposer's own preview succeeds: with a pool filled by AddTx, unless a key, funds,
   * stake or a contract is at fault, exactly when what it selected is affordable. Its preview
   * never fails for a nonce, the parties or a payload.
   */
  lemma ProposalExactly(rules: Ledger.Rules, l: Ledger.Accounts, window: seq<int64>,
                        contracts: Option<ChainState.ContractEngine>, pool: TxPool.Pool, max: nat, run: TxPool.Run,
                        at: Standing, self: Address, sign: Bytes -> Bytes, txs: seq<Transaction>, now: int64)
    requires TxPool.PoolOk(pool) && Ledger.LedgerOk(l) && Ledger.Total(l) <= MAX64
    requires BlockAssembly.PoolSelector(rules, contracts).Selection(TxPool.Initial(pool, BlockAssembly.ViewOf(l)), max,
        run, Some(txs))
    ensures var r := ProposeResult(rules, l, window, contracts, at, self, sign, txs, now);
      && (r.Err? ==> r.error.OwnPreviewFailed? && r.error.error.BadTransaction?)
      && (r.Err? ==>
            r.error.error.error.InsufficientRC? || BlockAssembly.NotForWantOfCredits(r.error.error.error))
      && (r.Err? && BlockAssembly.PoolAuthentic(rules, pool, l) && BlockAssembly.PoolKeysAgree(pool, l) ==>
            r.error.error.error.InsufficientRC? || BlockAssembly.FundsOrContracts(r.error.error.error))
      && (r.Ok? || r.error.error.error.InsufficientRC? ==>
            (r.Ok? <==> BlockAssembly.Affordable(rules, contracts, l, txs)))
  {
    hide BlockAssembly.PoolAuthentic, BlockAssembly.PoolKeysAgree, TxPool.PoolOk, BlockAssembly.Affordable,
      TxPool.Selector.Selection, ChainState.Execute, Encoding.ProposalBytes;
    BlockAssembly.SelectedExactly(rules, contracts, pool, l, max, run, window, DraftBlock(at, self, txs, now));
  }

  /** So while credits are within their caps and undelegations come last, no proposal is short of nonces or credits. */
  lemma ProposalNeverStarved(rules: Ledger.Rules, l: Ledger.Accounts, window: seq<int64>,
                             contracts: Option<ChainState.ContractEngine>, pool: TxPool.Pool, max: nat, run: TxPool.Run,
                             at: Standing, self: Address, sign: Bytes -> Bytes, txs: seq<Transaction>, now: int64)
    requires TxPool.PoolOk(pool) && Ledger.LedgerOk(l) && Ledger.Total(l) <= MAX64
        && BlockAssembly.WithinCaps(rules, pool, l)
    requires BlockAssembly.PoolSelector(rules, contracts).Selection(TxPool.Initial(pool, BlockAssembly.ViewOf(l)), max,
        run, Some(txs))
    requires BlockAssembly.UndelegatesLast(txs)
    ensures var r := ProposeResult(rules, l, window, contracts, at, self, sign, txs, now);
      r.Err? ==>
        && r.error.OwnPreviewFailed? && r.error.error.BadTransaction?
        && BlockAssembly.NotForWantOfCredits(r.error.error.error)
        && (BlockAssembly.PoolAuthentic(rules, pool, l) && BlockAssembly.PoolKeysAgree(pool, l) ==>
              BlockAssembly.FundsOrContracts(r.error.error.error))
  {
    hide BlockAssembly.PoolAuthentic, BlockAssembly.PoolKeysAgree, TxPool.PoolOk, BlockAssembly.WithinCaps,
      BlockAssembly.UndelegatesLast, TxPool.Selector.Selection, ChainState.Execute, Encoding.ProposalBytes;
    BlockAssembly.SelectedNeverStarved(rules, contracts, pool, l, max, run, window, DraftBlock(at, self, txs, now));
  }
}
