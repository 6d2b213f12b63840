/**
 * Engines that come to build certificates VerifyQC refuses: votes of an earlier round, and votes
 * left over from an earlier height (pkg/consensus/hotstuff.go, qc.go).
 */
module VoteScenarios {
  import opened Wrappers
  import opened Machine
  import opened Types
  import opened Validators
  import opened Quorum
  import opened Consensus
  import AccountStore
  import ChainState
  import Encoding
  import Ledger
  import TxPool
  import Wire

  // ----- votes and who casts them -----

  /** A scheme in which a message is its own signature: it verifies for that message and no other. */
  predicate Echo(message: Bytes, signature: Bytes, key: Bytes) { signature == message }

  function Cast(h: Hash, height: uint64, round: uint64, a: Address): PrecommitVote {
    var vote := PrecommitVote(h, height, round, a, []);
    vote.(signature := SignBytes(vote))
  }

  /** Votes of one validator for one hash at different heights or rounds are different messages. */
  lemma CastsApart(h: Hash, a: Address, height: uint64, round: uint64, height': uint64, round': uint64)
    requires AccountStore.FitsMemory(a) && (height != height' || round != round')
    ensures SignBytes(PrecommitVote(h, height, round, a, [])) != SignBytes(PrecommitVote(h, height', round', a, []))
  {
    hide Wire.Encode;
    var v, w := PrecommitVote(h, height, round, a, []), PrecommitVote(h, height', round', a, []);
    Wire.EncodedSize(Encoding.VoteFields(v), AccountStore.MAX_ALLOC);
    if SignBytes(v) == SignBytes(w) {
      Encoding.VoteInjective(v, w);
    }
  }

  /** A certificate that carries a's vote for another height or round is refused. */
  lemma StrayIsRefused(vset: ValidatorSet, height: uint64, round: uint64, h: Hash, votes: Votes, qc: QC, a: Address,
                       height': uint64, round': uint64)
    requires Consistent(vset) && Built(vset, height, round, h, votes, Some(qc)) && AccountStore.FitsMemory(a)
    requires a in votes && SeatKey(vset, a).Some? && votes[a] == Cast(h, height', round', a)
    requires height' != Wrap64(height + 1) || round' != round
    ensures !QCValid(qc, vset, Echo)
  {
    hide Encoding.VoteBytes, Wrap64, Consistent, Built, QCValid;
    CastsApart(h, a, height', round', Wrap64(height + 1), round);
    BuiltIsValid(vset, Echo, height, round, h, votes, qc);
    SeatListed(vset, a);
    assert !SignsRebuilt(vset, Echo, height, round, h, votes, a);
  }

  lemma {:induction false} EqualPowers(vs: seq<Seat>, p: uint64)
    requires forall i :: 0 <= i < |vs| ==> vs[i].power == p
    ensures PowerOf(vs) == |vs| * p
    decreases |vs|
  {
    if vs == [] {
      assert 0 * p == 0;
    } else {
      EqualPowers(vs[1..], p);
      assert |vs| * p == (|vs| - 1) * p + p;
    }
  }

  /** A set of a and b, equally powerful, or of one of them alone. */
  ghost predicate Pair(t: Table, a: Address, b: Address, p: uint64) {
    t.Keys == {a, b} && t[a].power == t[b].power == p && 0 < p && 6 * p <= MAX64
  }

  lemma PairSeats(t: Table, vset: ValidatorSet, a: Address, b: Address, p: uint64)
    requires IsValidatorSet(t, vset) && Pair(t, a, b, p)
    ensures Consistent(vset) && SeatKey(vset, a).Some? && SeatKey(vset, b).Some?
    ensures 0 < PowerOf(vset.validators) == vset.totalPower <= 2 * p
    ensures forall i :: 0 <= i < |vset.validators| ==> vset.validators[i].operator in {a, b}
  {
    hide PowerOf, Ahead;
    SetConsistent(t, vset);
    var vs := vset.validators;
    forall i | 0 <= i < |vs|
      ensures vs[i].operator in {a, b} && vs[i].power == p
    {
      assert vs[i].operator in t;
    }
    assert vset.indexByAddr[a] < |vs|;
    NoThird(vset, a, b);
    EqualPowers(vs, p);
    assert |vs| == 1 || |vs| == 2;
  }

  lemma DistinctSeats(vset: ValidatorSet, i: nat, j: nat)
    requires Consistent(vset) && i < j < |vset.validators|
    ensures vset.validators[i].operator != vset.validators[j].operator
  {
    hide PowerOf, Wrap64;
  }

  lemma NoThird(vset: ValidatorSet, a: Address, b: Address)
    requires Consistent(vset)
    requires forall i :: 0 <= i < |vset.validators| ==> vset.validators[i].operator in {a, b}
    ensures |vset.validators| <= 2
  {
    hide Consistent;
    if |vset.validators| > 2 {
      DistinctSeats(vset, 0, 1);
      DistinctSeats(vset, 0, 2);
      DistinctSeats(vset, 1, 2);
      assert false;
    }
  }

  /** When everyone has voted there is a certificate. */
  lemma EveryoneVoted(vset: ValidatorSet, height: uint64, round: uint64, h: Hash, votes: Votes, r: Option<QC>)
    requires Consistent(vset) && Built(vset, height, round, h, votes, r)
    requires forall i :: 0 <= i < |vset.validators| ==> vset.validators[i].operator in votes
    requires 0 < PowerOf(vset.validators) == vset.totalPower && 3 * vset.totalPower <= MAX64
    ensures r.Some?
  {
    hide Collects;
    var vs := vset.validators;
    assert forall x :: x in vs ==> Among(votes.Keys)(x) == Anyone()(x);
    PowerAgrees(vs, Among(votes.Keys), Anyone());
    SmallWrap();
  }

  // ----- a vote of an earlier round -----

  /**
   * One validator, whose vote for round 0 arrives after a timeout: the engine accepts it,
   * builds a certificate from it for round 1, and VerifyQC refuses that.
   */
  method LateVote(state: ChainState.State, pool: TxPool.Mempool, a: Address, key: Bytes, stake: uint64, h: Hash)
    returns (e: Engine, qc: QC, fault: Option<Fault>)
    requires state.Valid() && AccountStore.FitsMemory(a) && 0 < stake && 6 * stake <= MAX64
    ensures e.Valid() && e.VotesFiled() && e.height == 0 && e.round == 1
    ensures e.votes == map[h := map[a := Cast(h, 1, 0, a)]]
    ensures Built(e.vset, e.height, e.round, h, e.votes[h], Some(qc))
    ensures !QCValid(qc, e.vset, e.verify) && fault.Some?
  {
    hide AccountStore.WellFormed, AccountStore.LedgerOf, DPoS.Valid;
    hide Built, Consistent, IsValidatorSet, QCValid, Cast, SeatKey, PowerOf, AllFiled, DPoS.TableOf;
    var dpos := new DPoS(Limits.Limits(1, 1));
    var refused := dpos.RegisterValidator(a, key, stake, 0);
    e := new Engine(state, dpos, pool, None, a, b => b, Echo, 0);
    ghost var t := dpos.TableOf();
    assert Pair(t, a, a, stake);
    PairSeats(t, e.vset, a, a, stake);
    e.OnTimeout();
    CastBy(h, 1, 0, a);
    var r := Receive(e, h, 1, 0, a);
    assert e.votes == map[h := map[a := Cast(h, 1, 0, a)]] && VotesFor(e.votes, h) == e.votes[h];
    EveryoneVoted(e.vset, e.height, e.round, h, e.votes[h], r);
    qc := r.value;
    StrayIsRefused(e.vset, e.height, e.round, h, e.votes[h], qc, a, 1, 0);
    fault := VerifyQC(qc, e.vset, e.verify);
  }

  /** The engine receives a's vote for h. */
  method Receive(e: Engine, h: Hash, height: uint64, round: uint64, a: Address) returns (qc: Option<QC>)
    requires e.Valid() && height == Wrap64(e.height + 1) && SeatKey(e.vset, a).Some? && e.verify == Echo
    modifies e`votes
    ensures e.votes == Recorded(old(e.votes), Cast(h, height, round, a))
    ensures Built(e.vset, e.height, e.round, h, VotesFor(e.votes, h), qc)
    ensures old(e.VotesFiled()) ==> e.VotesFiled()
  {
    hide Built, Consistent, Recorded, VotesFor, Cast, SeatKey, Wrap64, Encoding.VoteBytes, AllFiled;
    CastAccepted(e, h, height, round, a);
    var r := e.HandlePrecommitVote(Cast(h, height, round, a));
    qc := r.value;
  }

  lemma CastAccepted(e: Engine, h: Hash, height: uint64, round: uint64, a: Address)
    requires height == Wrap64(e.height + 1) && SeatKey(e.vset, a).Some? && e.verify == Echo
    ensures e.VoteFault(Cast(h, height, round, a)).None? && Cast(h, height, round, a).blockHash == h
  {
  }

  lemma CastBy(h: Hash, height: uint64, round: uint64, a: Address)
    ensures var vote := Cast(h, height, round, a); vote.blockHash == h && vote.validator == a
  {
  }

  // ----- a vote left over by a finalization -----

  /** Nothing happens in an empty block that carries the root of the accounts as they are. */
  ghost predicate Uneventful(rules: Ledger.Rules, l: Ledger.Accounts, block: Block) {
    block.transactions == [] && block.stateRoot == ChainState.RootOf(rules, l)
  }

  lemma UneventfulApplies(rules: Ledger.Rules, l: Ledger.Accounts, window: seq<int64>, block: Block,
                          engine: Option<ChainState.ContractEngine>, reports: nat -> ChainState.Report)
    requires Uneventful(rules, l, block)
    ensures ChainState.ApplyResult(rules, l, window, block, engine, reports) == Ok(l)
  {
    hide ChainState.RootOf;
  }

  method TwoValidators(a: Address, b: Address, keyA: Bytes, keyB: Bytes, stake: uint64) returns (dpos: DPoS)
    requires a != b && 0 < stake && 6 * stake <= MAX64
    ensures fresh(dpos) && dpos.Valid() && Pair(dpos.TableOf(), a, b, stake)
  {
    hide DPoS.TableOf;
    dpos := new DPoS(Limits.Limits(1, 2));
    var refused := dpos.RegisterValidator(a, keyA, stake, 0);
    assert dpos.TableOf() == map[a := Entry(keyA, stake, stake, map[], 0)];
    refused := dpos.RegisterValidator(b, keyB, stake, 0);
  }

  /** Votes of a and b for the certificate's own height and round make it valid. */
  lemma CurrentCasts(vset: ValidatorSet, height: uint64, round: uint64, h: Hash, votes: Votes, qc: QC)
    requires Consistent(vset) && Built(vset, height, round, h, votes, Some(qc))
    requires forall a :: a in votes ==> votes[a] == Cast(h, Wrap64(height + 1), round, a)
    ensures QCValid(qc, vset, Echo)
  {
    hide Wire.Encode, Consistent, Built, QCValid, Wrap64;
    forall a | a in votes
      ensures VoteFiled(vset, Echo, h, a, votes[a]) && |votes[a].signature| > 0
    {
      Wire.EncodeStart(Encoding.VoteFields(votes[a].(signature := [])));
    }
    CurrentIsValid(vset, Echo, height, round, h, votes, qc);
  }

  lemma BothRecorded(votes: map<Hash, Votes>, h: Hash, v: PrecommitVote, w: PrecommitVote)
    requires h !in votes && v.blockHash == w.blockHash == h
    ensures var both := map[v.validator := v, w.validator := w];
      Recorded(Recorded(votes, v), w) == votes[h := both] && VotesFor(votes[h := both], h) == both
  {
  }

  /** Both validators vote for a new hash at the engine's own height and round: a valid certificate. */
  method BothVote(e: Engine, h: Hash, a: Address, b: Address, p: uint64, ghost t: Table) returns (qc: QC)
    requires e.Valid() && e.VotesFiled() && e.verify == Echo && h !in e.votes && a != b
    requires IsValidatorSet(t, e.vset) && Pair(t, a, b, p)
    modifies e`votes
    ensures e.Valid() && e.VotesFiled()
    ensures var height := Wrap64(e.height + 1);
      && e.votes == old(e.votes)[h := map[a := Cast(h, height, e.round, a), b := Cast(h, height, e.round, b)]]
      && qc.blockHash == h && qc.height == height && qc.round == e.round
    ensures QCValid(qc, e.vset, Echo)
  {
    hide AccountStore.WellFormed, AccountStore.LedgerOf, DPoS.Valid;
    hide Consistent, IsValidatorSet, QCValid, Cast, SeatKey, PowerOf, AllFiled, Wrap64, QuorumTest, Collects;
    PairSeats(t, e.vset, a, b, p);
    var height := Wrap64(e.height + 1);
    CastBy(h, height, e.round, a);
    CastBy(h, height, e.round, b);
    var r := Receive(e, h, height, e.round, a);
    r := Receive(e, h, height, e.round, b);
    BothRecorded(old(e.votes), h, Cast(h, height, e.round, a), Cast(h, height, e.round, b));
    EveryoneVoted(e.vset, e.height, e.round, h, e.votes[h], r);
    qc := r.value;
    CurrentCasts(e.vset, e.height, e.round, h, e.votes[h], qc);
  }

  /** b's vote for h at a new height completes a certificate with a's vote of the height before in it. */
  method OldVoteCounts(e: Engine, h: Hash, a: Address, b: Address, p: uint64, ghost t: Table)
    returns (qc: QC, fault: Option<Fault>)
    requires e.Valid() && e.VotesFiled() && e.verify == Echo && e.height == 1 && e.round == 0
    requires e.votes == map[h := map[a := Cast(h, 1, 0, a)]] && a != b && AccountStore.FitsMemory(a)
    requires IsValidatorSet(t, e.vset) && Pair(t, a, b, p)
    modifies e`votes
    ensures e.Valid() && e.VotesFiled()
    ensures e.votes == map[h := map[a := Cast(h, 1, 0, a), b := Cast(h, 2, 0, b)]]
    ensures Built(e.vset, e.height, e.round, h, e.votes[h], Some(qc))
    ensures !QCValid(qc, e.vset, Echo) && fault.Some?
  {
    hide AccountStore.WellFormed, AccountStore.LedgerOf, DPoS.Valid;
    hide Built, Consistent, IsValidatorSet, QCValid, Cast, SeatKey, PowerOf, AllFiled;
    PairSeats(t, e.vset, a, b, p);
    CastBy(h, 2, 0, b);
    var r := Receive(e, h, 2, 0, b);
    assert VotesFor(e.votes, h) == e.votes[h];
    EveryoneVoted(e.vset, e.height, e.round, h, e.votes[h], r);
    qc := r.value;
    StrayIsRefused(e.vset, e.height, e.round, h, e.votes[h], qc, a, 1, 0);
    fault := VerifyQC(qc, e.vset, e.verify);
  }

  /** A first height: a votes for h, and after a timeout both vote for another hash. */
  method FirstHeight(state: ChainState.State, pool: TxPool.Mempool, dpos: DPoS, a: Address, b: Address, p: uint64,
                     h: Hash, other: Hash) returns (e: Engine, qc: QC)
    requires state.Valid() && dpos.Valid() && Pair(dpos.TableOf(), a, b, p) && a != b && h != other
    ensures fresh(e) && e.state == state && e.dpos == dpos && e.verify == Echo && e.contracts == None
    ensures e.Valid() && e.VotesFiled() && e.SeatsCurrent() && IsValidatorSet(dpos.TableOf(), e.vset)
    ensures e.votes == map[h := map[a := Cast(h, 1, 0, a)],
                           other := map[a := Cast(other, 1, 1, a), b := Cast(other, 1, 1, b)]]
    ensures qc.blockHash == other && qc.height == 1 && qc.round == 1 && QCValid(qc, e.vset, Echo)
  {
    hide AccountStore.WellFormed, AccountStore.LedgerOf, DPoS.Valid;
    hide Built, Consistent, IsValidatorSet, QCValid, Cast, SeatKey, PowerOf, AllFiled, DPoS.TableOf, SeatsIn;
    e := new Engine(state, dpos, pool, None, a, m => m, Echo, 0);
    ghost var t := dpos.TableOf();
    PairSeats(t, e.vset, a, b, p);
    CastBy(h, 1, 0, a);
    var r := Receive(e, h, 1, 0, a);
    e.OnTimeout();
    assert e.votes == map[h := map[a := Cast(h, 1, 0, a)]];
    qc := BothVote(e, other, a, b, p, t);
    OnlyOneLeft(h, map[a := Cast(h, 1, 0, a)], other, map[a := Cast(other, 1, 1, a), b := Cast(other, 1, 1, b)]);
    assert dpos.TableOf() == t;
  }

  lemma SignaturesUnhashed(rules: Ledger.Rules, l: Ledger.Accounts, block: Block, qc: QC, vset: ValidatorSet)
    ensures ChainState.BlockHash(rules, WithSignatures(block, qc, vset)) == ChainState.BlockHash(rules, block)
    ensures Uneventful(rules, l, block) ==> Uneventful(rules, l, WithSignatures(block, qc, vset))
  {
    hide ChainState.RootOf;
  }

  /** An uneventful block is finalized: the engine moves on and forgets the votes for the certified hash only. */
  method FinalizeUneventful(e: Engine, block: Block, qc: QC, reports: nat -> ChainState.Report)
    requires e.Valid() && e.dpos.Valid() && e.VotesFiled() && e.SeatsCurrent()
    requires Uneventful(e.state.rules, e.state.store.Accounts(), block)
    modifies e, e.state.store, e.state.dag
    ensures e.Valid() && e.VotesFiled() && IsValidatorSet(e.dpos.TableOf(), e.vset)
    ensures e.height == block.height && e.round == 0 && e.votes == old(e.votes) - {qc.blockHash}
    ensures e.lastFinalized == ChainState.BlockHash(e.state.rules, block)
  {
    hide AccountStore.WellFormed, AccountStore.LedgerOf, DPoS.Valid;
    hide Consistent, IsValidatorSet, AllFiled, DPoS.TableOf, SeatsIn, ChainState.BlockHash, ChainState.ApplyResult;
    hide ChainState.RootOf, ChainState.State.Committed, WithSignatures;
    SignaturesUnhashed(e.state.rules, e.state.store.Accounts(), block, qc, e.vset);
    UneventfulApplies(e.state.rules, e.state.store.Accounts(), e.state.store.Window(),
      WithSignatures(block, qc, e.vset), e.contracts, reports);
    var err, signed := e.FinalizeBlock(block, qc, reports);
  }

  lemma OnlyOneLeft(h: Hash, x: Votes, other: Hash, y: Votes)
    requires h != other
    ensures map[h := x, other := y] - {other} == map[h := x]
    ensures map[h := x][other := y] == map[h := x, other := y]
  {
  }

  /**
   * Two validators. The first votes for h in round 0; a timeout later both vote for a block
   * that is finalized with a valid certificate. Then the second votes for h at the next
   * height, and the engine builds a certificate with the first one's old vote in it, which
   * VerifyQC refuses.
   */
  method LeftoverVote(state: ChainState.State, pool: TxPool.Mempool, a: Address, b: Address, keyA: Bytes, keyB: Bytes,
                      stake: uint64, h: Hash, block: Block, reports: nat -> ChainState.Report)
    returns (e: Engine, final: QC, qc: QC, fault: Option<Fault>)
    requires state.Valid() && a != b && AccountStore.FitsMemory(a) && AccountStore.FitsMemory(b)
    requires 0 < stake && 6 * stake <= MAX64
    requires Uneventful(state.rules, state.store.Accounts(), block) && block.height == 1
    requires h != ChainState.BlockHash(state.rules, block)
    modifies state.store, state.dag
    ensures e.Valid() && e.VotesFiled() && e.height == 1 && e.round == 0
    ensures e.lastFinalized == ChainState.BlockHash(state.rules, block)
    ensures final.blockHash == ChainState.BlockHash(state.rules, block) && final.height == 1 && final.round == 1
    ensures QCValid(final, e.vset, e.verify)
    ensures e.votes == map[h := map[a := Cast(h, 1, 0, a), b := Cast(h, 2, 0, b)]]
    ensures Built(e.vset, e.height, e.round, h, e.votes[h], Some(qc))
    ensures !QCValid(qc, e.vset, e.verify) && fault.Some?
  {
    hide AccountStore.WellFormed, AccountStore.LedgerOf, DPoS.Valid;
    hide Built, Consistent, IsValidatorSet, QCValid, Cast, SeatKey, PowerOf, AllFiled, DPoS.TableOf, SeatsIn;
    hide ChainState.BlockHash, ChainState.RootOf, Uneventful;
    var dpos := TwoValidators(a, b, keyA, keyB, stake);
    ghost var t := dpos.TableOf();
    var done := ChainState.BlockHash(state.rules, block);
    e, final := FirstHeight(state, pool, dpos, a, b, stake, h, done);
    ghost var before := e.vset;
    FinalizeUneventful(e, block, final, reports);
    assert dpos.TableOf() == t;
    SetUnique(t, before, e.vset);
    OnlyOneLeft(h, map[a := Cast(h, 1, 0, a)], done, map[a := Cast(done, 1, 1, a), b := Cast(done, 1, 1, b)]);
    qc, fault := OldVoteCounts(e, h, a, b, stake, t);
  }
}
