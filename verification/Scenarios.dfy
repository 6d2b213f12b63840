/**
 * Runs that exist: what a wallet with a working signature can bring about, and where that falls
 * short of what is promised.
 */
module Scenarios {
  import opened Wrappers
  import opened Machine
  import opened Types
  import opened Bytewise
  import opened Ledger
  import AccountCodec
  import AccountStore
  import Auth
  import BlockAssembly
  import CandidateHeap
  import ChainState
  import Contracts
  import Encoding
  import Merkle
  import PayloadCodec
  import Rc
  import StateRoot
  import TxPool
  import Wire

  /** An address, its key, and a way to sign for it. */
  datatype Wallet = Wallet(address: Address, key: Bytes, sign: Bytes -> Bytes)

  ghost predicate Works(crypto: Auth.Crypto, w: Wallet) {
    && 0 < |w.address| <= 64 && |w.key| == Auth.KEY_SIZE && crypto.addressOf(w.key) == Some(w.address)
    && forall m {:trigger w.sign(m)} :: |w.sign(m)| == Auth.SIGNATURE_SIZE && crypto.verify(w.key, m, w.sign(m))
  }

  function Signed(w: Wallet, to: Address, nonce: uint64, p: Payload): Transaction {
    var unsigned := Transaction(w.address, to, nonce, PayloadCodec.PayloadBytes(p, w.key), []);
    unsigned.(signature := w.sign(Auth.SigningBytes(unsigned)))
  }

  /** A payload the transactions here carry: its byte strings are short and few. */
  predicate Small(p: Payload) {
    && |PayloadCodec.InnerFields(p)| <= 2
    && forall i :: 0 <= i < |PayloadCodec.InnerFields(p)| && PayloadCodec.InnerFields(p)[i].value.Chunk? ==>
         |PayloadCodec.InnerFields(p)[i].value.b| <= 128
  }

  lemma SmallPayload(p: Payload, key: Bytes)
    requires Small(p) && |key| <= 64
    ensures |PayloadCodec.PayloadBytes(p, key)| <= 1000
  {
    hide Wire.Encode;
    Wire.EncodedSize(PayloadCodec.InnerFields(p), 128);
    Wire.EncodedSize(PayloadCodec.EnvelopeFields(p, key), 296);
  }

  lemma SignedSize(crypto: Auth.Crypto, w: Wallet, to: Address, nonce: uint64, p: Payload)
    requires Works(crypto, w) && Small(p) && |to| <= 128
    ensures 0 < |Encoding.TxBytes(Signed(w, to, nonce, p))| <= 6000
  {
    hide Wire.Encode, PayloadCodec.PayloadBytes, Auth.SigningBytes;
    SmallPayload(p, w.key);
    var tx := Signed(w, to, nonce, p);
    Wire.EncodedSize(Encoding.TxFields(tx), 1000);
    Wire.EncodeStart(Encoding.TxFields(tx));
  }

  /** A signed transaction is authentic for an account that has no key or the wallet's. */
  lemma SignedAuthentic(rules: Rules, w: Wallet, acct: Account, to: Address, nonce: uint64, p: Payload)
    requires Works(rules.crypto, w) && Small(p) && (acct.pubKey == [] || acct.pubKey == w.key)
    ensures Authenticate(rules, acct, Signed(w, to, nonce, p)) == Ok(Sender(acct.(pubKey := w.key), p))
  {
    hide PayloadCodec.DecodePayload, PayloadCodec.PayloadBytes, Encoding.TxBytes;
    SmallPayload(p, w.key);
    PayloadCodec.PayloadRoundTrip(p, w.key);
    var tx := Signed(w, to, nonce, p);
    assert tx.(signature := []) == Transaction(w.address, to, nonce, PayloadCodec.PayloadBytes(p, w.key), []);
  }

  /** What applying it comes to. */
  lemma SignedStep(rules: Rules, w: Wallet, l: Accounts, to: Address, nonce: uint64, p: Payload, now: int64,
                   outcome: ContractOutcome)
    requires Works(rules.crypto, w) && Small(p) && to != []
    requires Get(l, w.address).nonce == nonce && (Get(l, w.address).pubKey == [] || Get(l, w.address).pubKey == w.key)
    ensures var sender, tx := Refresh(rules, Get(l, w.address).(pubKey := w.key), now), Signed(w, to, nonce, p);
      ApplyTx(rules, l, Step(tx, now, outcome))
        == match PayloadEffect(l, sender, tx, p, outcome) { case Err(e) => Err(e) case Ok(e) => Settle(rules, tx, e) }
  {
    hide PayloadEffect, Settle, Refresh, Authenticate, PayloadCodec.PayloadBytes, Auth.SigningBytes;
    SignedAuthentic(rules, w, Get(l, w.address), to, nonce, p);
    RefreshKeepsNonce(rules, Get(l, w.address).(pubKey := w.key), now);
  }

  lemma RefreshKeepsNonce(rules: Rules, acct: Account, now: int64)
    ensures Refresh(rules, acct, now).nonce == acct.nonce
  {
  }

  // ----- an account whose credits never run short -----

  function CostOfTx(rules: Rules, tx: Transaction, writes: uint64): uint64 {
    rules.params.CostOf(Len64(Encoding.TxBytes(tx)), 0, writes)
  }

  /** Stake and credits at the largest uint64. */
  function Whale(w: Wallet, nonce: uint64, rc: uint64, rcMax: uint64, last: int64, key: Bytes): Account {
    Account(w.address, 0, nonce, MAX64, rc, rcMax, last, [], key)
  }

  lemma FullBucket(params: Rc.Params, last: int64, now: int64)
    requires params.alpha >= 1
    ensures params.RCMax(MAX64) == MAX64
    ensures params.RegenRC(MAX64, MAX64, last, now) == MAX64
  {
    Rc.MulMonotone(MAX64, 1, params.alpha);
    Rc.MulNonNegative(params.Rate(MAX64), Rc.Max0(WrapSigned(now - last)));
  }

  /** Prices no higher than a genesis may set. */
  predicate GenesisPrices(params: Rc.Params) {
    1 <= params.cSize <= 1_000_000 && params.cStorage <= 1_000_000
  }

  const MOST: int := 6_002_000_000

  lemma LowCost(params: Rc.Params, size: uint64, writes: uint64)
    requires GenesisPrices(params) && 0 < size <= 6000 && writes <= 2
    ensures 0 < params.CostOf(size, 0, writes) <= MOST
  {
    Rc.MulMonotone(size, 0, params.cSize);
    assert params.cSize * size <= 1_000_000 * 6000 by {
      Rc.MulMonotone(size, params.cSize, 1_000_000);
      Rc.MulMonotone(1_000_000, size, 6000);
    }
    assert params.cStorage * writes <= 1_000_000 * 2 by {
      Rc.MulMonotone(writes, params.cStorage, 1_000_000);
    }
    CostPositive(params, size, 0, writes);
  }

  lemma LowCostOfSigned(rules: Rules, w: Wallet, to: Address, nonce: uint64, p: Payload, writes: uint64)
    requires Works(rules.crypto, w) && Small(p) && GenesisPrices(rules.params) && |to| <= 128 && writes <= 2
    ensures 0 < CostOfTx(rules, Signed(w, to, nonce, p), writes) <= MOST
  {
    hide Encoding.TxBytes, Rc.Params.CostOf, Signed;
    SignedSize(rules.crypto, w, to, nonce, p);
    SmallWrap();
    LowCost(rules.params, Len64(Encoding.TxBytes(Signed(w, to, nonce, p))), writes);
  }

  function Vote(w: Wallet): Transaction { Signed(w, w.address, 1, GovernanceVote(0, 0)) }

  /** The wallet's account after its first transaction, whatever that cost. */
  function AfterFirst(w: Wallet, cost: uint64, now: int64): Account { Whale(w, 1, MAX64 - cost, MAX64, now, w.key) }

  /** A first transaction that touches one new account. */
  lemma FirstSettles(rules: Rules, w: Wallet, l: Accounts, to: Address, p: Payload, now: int64,
                     outcome: ContractOutcome, other: Account, writes: uint64)
    requires Works(rules.crypto, w) && Small(p) && rules.params.alpha >= 1 && to != []
    requires Get(l, w.address) == Whale(w, 0, MAX64, 0, 0, []) && other.address != w.address
    requires var sender := Whale(w, 0, MAX64, MAX64, now, w.key);
      PayloadEffect(l, sender, Signed(w, to, 0, p), p, outcome) == Ok(Effect(sender, Put(l, other), 0, writes))
    ensures var tx := Signed(w, to, 0, p);
      ApplyTx(rules, l, Step(tx, now, outcome))
        == Ok(Put(Put(l, other), AfterFirst(w, CostOfTx(rules, tx, writes), now)))
  {
    hide Rc.Params.RegenRC, Rc.Params.RCMax, Rc.Params.CostOf, ApplyTx, Encoding.TxBytes, PayloadCodec.PayloadBytes;
    hide Auth.SigningBytes, PayloadEffect;
    SignedStep(rules, w, l, to, 0, p, now, outcome);
    FullBucket(rules.params, 0, now);
  }

  // ----- spending credits without a trace -----

  /** A stake whose cap pays for a transaction and is well below the credits a whale has left. */
  const KEPT: uint64 := 0x4_0000_0000

  predicate ModestAlpha(params: Rc.Params) { 1 <= params.alpha <= 0x2000_0000 }

  lemma KeptCap(params: Rc.Params)
    requires ModestAlpha(params)
    ensures MOST <= params.alpha * KEPT <= MAX64 - 2 * MOST && params.RCMax(KEPT) == params.alpha * KEPT
  {
    Rc.MulMonotone(KEPT, 1, params.alpha);
    Rc.MulMonotone(KEPT, params.alpha, 0x2000_0000);
  }

  /** The wallet gives up its stake but for KEPT. */
  function Trim(w: Wallet): Transaction { Signed(w, w.address, 1, StakeUndelegate([], MAX64 - KEPT)) }

  function SecondVote(w: Wallet): Transaction { Signed(w, w.address, 2, GovernanceVote(0, 0)) }

  function Trimmed(rules: Rules, w: Wallet, cost: uint64, now: int64): Account
    requires cost + CostOfTx(rules, Trim(w), 1) <= MAX64
  {
    Account(w.address, MAX64 - KEPT, 2, KEPT, MAX64 - cost - CostOfTx(rules, Trim(w), 1), rules.params.RCMax(KEPT), now,
            [], w.key)
  }

  /** What the first transaction cost is forgotten when the next refresh clips the credits. */
  function Clipped(rules: Rules, w: Wallet, now: int64): Account
    requires CostOfTx(rules, SecondVote(w), 1) <= rules.params.RCMax(KEPT)
  {
    Account(w.address, MAX64 - KEPT, 3, KEPT, rules.params.RCMax(KEPT) - CostOfTx(rules, SecondVote(w), 1),
            rules.params.RCMax(KEPT), now, [], w.key)
  }

  lemma TrimSettles(rules: Rules, w: Wallet, l: Accounts, cost: uint64, now: int64, outcome: ContractOutcome)
    requires Works(rules.crypto, w) && ModestAlpha(rules.params) && Get(l, w.address) == AfterFirst(w, cost, now)
    requires cost + CostOfTx(rules, Trim(w), 1) <= MAX64
    ensures ApplyTx(rules, l, Step(Trim(w), now, outcome)) == Ok(Put(l, Trimmed(rules, w, cost, now)))
  {
    hide Rc.Params.RegenRC, Rc.Params.RCMax, Rc.Params.CostOf, ApplyTx, Encoding.TxBytes, PayloadCodec.PayloadBytes;
    hide Auth.SigningBytes;
    SignedStep(rules, w, l, w.address, 1, StakeUndelegate([], MAX64 - KEPT), now, outcome);
    FullBucket(rules.params, 0, now);
    rules.params.RegenAtOnce(MAX64 - cost, MAX64, now);
  }

  lemma SecondVoteSettles(rules: Rules, w: Wallet, l: Accounts, cost: uint64, now: int64, outcome: ContractOutcome)
    requires Works(rules.crypto, w) && ModestAlpha(rules.params) && cost <= MOST
    requires CostOfTx(rules, Trim(w), 1) <= MOST && CostOfTx(rules, SecondVote(w), 1) <= rules.params.RCMax(KEPT)
    requires Get(l, w.address) == Trimmed(rules, w, cost, now)
    ensures ApplyTx(rules, l, Step(SecondVote(w), now, outcome)) == Ok(Put(l, Clipped(rules, w, now)))
  {
    hide Rc.Params.RegenRC, Rc.Params.RCMax, Rc.Params.CostOf, ApplyTx, Encoding.TxBytes, PayloadCodec.PayloadBytes;
    hide Auth.SigningBytes;
    SignedStep(rules, w, l, w.address, 2, GovernanceVote(0, 0), now, outcome);
    KeptCap(rules.params);
    rules.params.RegenAtOnce(MAX64 - cost - CostOfTx(rules, Trim(w), 1), KEPT, now);
  }

  // ----- two states with one root -----

  lemma LexExtends(x: Bytes, a: Bytes, t: Bytes)
    requires LexLess(x, a)
    ensures LexLess(x, a + t)
    decreases |a|
  {
    if x != [] && x[0] == a[0] {
      assert (a + t)[1..] == a[1..] + t;
      LexExtends(x[1..], a[1..], t);
    }
  }

  /** The leaves of a ledger of two accounts. */
  lemma TwoLeaves(x: Address, xs: Account, y: Address, ys: Account)
    requires LexLess(x, y) && StateRoot.Covered(x) && StateRoot.Covered(y)
    ensures StateRoot.LeafList(map[x := xs, y := ys])
         == [StateRoot.LeafData(AccountStore.AccountKey(x), AccountCodec.AccountBytes(xs)),
             StateRoot.LeafData(AccountStore.AccountKey(y), AccountCodec.AccountBytes(ys))]
  {
    hide LexLess, StateRoot.Covered, StateRoot.SortedList, StateRoot.LeafData, AccountStore.AccountKey;
    hide AccountCodec.AccountBytes;
    LexTrichotomy(x, y);
    var l := map[x := xs, y := ys];
    var covered := StateRoot.CoveredAddresses(l);
    assert covered == {x, y};
    StateRoot.SortedListUnique([x, y], covered);
  }

  /** The wallet alone on the ledger. */
  function Alone(w: Wallet): Accounts { map[w.address := Whale(w, 0, MAX64, 0, 0, [])] }

  /** A block of a first transaction and the two that hide what it cost. */
  function Hiding(w: Wallet, first: Transaction): seq<Transaction> { [first, Trim(w), SecondVote(w)] }

  lemma HidingCosts(rules: Rules, w: Wallet)
    requires Works(rules.crypto, w) && ModestAlpha(rules.params) && GenesisPrices(rules.params)
    ensures CostOfTx(rules, Trim(w), 1) <= MOST && CostOfTx(rules, SecondVote(w), 1) <= MOST
    ensures MOST <= rules.params.RCMax(KEPT)
  {
    hide Signed, CostOfTx, Rc.Params.RCMax;
    LowCostOfSigned(rules, w, w.address, 1, StakeUndelegate([], MAX64 - KEPT), 1);
    LowCostOfSigned(rules, w, w.address, 2, GovernanceVote(0, 0), 1);
    KeptCap(rules.params);
  }

  lemma HidingSettles(rules: Rules, w: Wallet, first: Step, other: Account, cost: uint64, second: ContractOutcome,
                      third: ContractOutcome)
    requires Works(rules.crypto, w) && ModestAlpha(rules.params) && cost <= MOST && other.address != w.address
    requires CostOfTx(rules, Trim(w), 1) <= MOST && CostOfTx(rules, SecondVote(w), 1) <= rules.params.RCMax(KEPT)
    requires ApplyTx(rules, Alone(w), first) == Ok(Put(Put(Alone(w), other), AfterFirst(w, cost, first.now)))
    ensures ApplyAll(rules, Alone(w), [first, Step(Trim(w), first.now, second), Step(SecondVote(w), first.now, third)])
        == Ok(map[w.address := Clipped(rules, w, first.now), other.address := other])
  {
    hide ApplyTx, ApplyAll, Trim, SecondVote, CostOfTx, Rc.Params.RCMax;
    var mid := Put(Put(Alone(w), other), AfterFirst(w, cost, first.now));
    var low := Put(mid, Trimmed(rules, w, cost, first.now));
    TrimSettles(rules, w, mid, cost, first.now, second);
    SecondVoteSettles(rules, w, low, cost, first.now, third);
    var rest := [Step(Trim(w), first.now, second), Step(SecondVote(w), first.now, third)];
    ApplyOne(rules, Alone(w), first);
    TwoSteps(rules, mid, rest[0], low, rest[1]);
    ApplyAllConcat(rules, Alone(w), [first], rest);
    assert [first] + rest == [first, rest[0], rest[1]];
    assert Put(low, Clipped(rules, w, first.now))
        == map[w.address := Clipped(rules, w, first.now), other.address := other];
  }

  lemma TwoSteps(rules: Rules, l: Accounts, s: Step, mid: Accounts, t: Step)
    requires ApplyTx(rules, l, s) == Ok(mid)
    ensures ApplyAll(rules, l, [s, t]) == ApplyTx(rules, mid, t)
  {
    hide ApplyTx, ApplyAll;
    ApplyOne(rules, l, s);
    ApplyOne(rules, mid, t);
    ApplyAllConcat(rules, l, [s], [t]);
    assert [s] + [t] == [s, t];
  }

  /** The preview of such a block, from what its first transaction does. */
  lemma HidingPreview(rules: Rules, w: Wallet, engine: ChainState.ContractEngine, window: seq<int64>, block: Block,
                      first: Transaction, other: Account, cost: uint64)
    requires Works(rules.crypto, w) && ModestAlpha(rules.params) && GenesisPrices(rules.params)
    requires block.transactions == Hiding(w, first) && cost <= MOST && other.address != w.address
    requires var now := ChainState.BlockTime(rules, window, block);
      ApplyTx(rules, Alone(w), Step(first, now, ChainState.OutcomeOf(Some(engine), ChainState.Preview, 0, first)))
        == Ok(Put(Put(Alone(w), other), AfterFirst(w, cost, now)))
    ensures CostOfTx(rules, SecondVote(w), 1) <= rules.params.RCMax(KEPT)
    ensures var now := ChainState.BlockTime(rules, window, block);
      ChainState.Execute(rules, Alone(w), window, block, Some(engine), ChainState.Preview)
        == Ok(map[w.address := Clipped(rules, w, now), other.address := other])
  {
    hide ApplyTx, ApplyAll, Trim, SecondVote, CostOfTx, Clipped, AfterFirst, Rc.Params.RCMax, Rc.EffectiveTime, Works;
    hide ChainState.OutcomeOf;
    var now := ChainState.BlockTime(rules, window, block);
    var steps := ChainState.StepsOf(Some(engine), ChainState.Preview, now, block.transactions);
    HidingCosts(rules, w);
    HidingSettles(rules, w, steps[0], other, cost, steps[1].outcome, steps[2].outcome);
    assert steps == [steps[0], steps[1], steps[2]];
  }

  lemma SignedParties(w: Wallet, to: Address, nonce: uint64, p: Payload)
    ensures var tx := Signed(w, to, nonce, p); tx.from == w.address && tx.to == to && tx.nonce == nonce
  {
  }

  function Deploy(w: Wallet, a: Address): Transaction
    requires |a| <= 37
  {
    Signed(w, a, 0, ContractDeploy(StateRoot.ShadowCode(a), []))
  }

  function SendNothing(w: Wallet, b: Address): Transaction { Signed(w, b, 0, Transfer(b, 0)) }

  lemma SmallDeploy(p: Payload)
    requires p.ContractDeploy? && |p.wasmCode| <= 128 && p.salt == []
    ensures Small(p)
  {
  }

  /** Deploying the shadow module at a: a fresh contract account with that code. */
  lemma DeploySettles(rules: Rules, w: Wallet, a: Address, now: int64, outcome: ContractOutcome)
    requires Works(rules.crypto, w) && rules.params.alpha >= 1 && GenesisPrices(rules.params)
    requires 0 < |a| <= 37 && a != w.address && outcome.Ran?
    ensures CostOfTx(rules, Deploy(w, a), 1) <= MOST
    ensures var other := StateRoot.Bare(a, StateRoot.ShadowCode(a));
      ApplyTx(rules, Alone(w), Step(Deploy(w, a), now, outcome))
        == Ok(Put(Put(Alone(w), other), AfterFirst(w, CostOfTx(rules, Deploy(w, a), 1), now)))
  {
    hide ApplyTx, StateRoot.ShadowCode, StateRoot.ShadowAddress, Signed, CostOfTx, AfterFirst, Works, GenesisPrices;
    StateRoot.ShadowSizes(a);
    var p := ContractDeploy(StateRoot.ShadowCode(a), []);
    SmallDeploy(p);
    SignedParties(w, a, 0, p);
    FirstSettles(rules, w, Alone(w), a, p, now, outcome, StateRoot.Bare(a, StateRoot.ShadowCode(a)), 1);
    LowCostOfSigned(rules, w, a, 0, p, 1);
  }

  /** Transferring nothing to b: a fresh, empty account. */
  lemma TransferSettles(rules: Rules, w: Wallet, b: Address, now: int64, outcome: ContractOutcome)
    requires Works(rules.crypto, w) && rules.params.alpha >= 1 && GenesisPrices(rules.params)
    requires 0 < |b| <= 128 && b != w.address
    ensures CostOfTx(rules, SendNothing(w, b), 2) <= MOST
    ensures ApplyTx(rules, Alone(w), Step(SendNothing(w, b), now, outcome))
        == Ok(Put(Put(Alone(w), StateRoot.Bare(b, [])), AfterFirst(w, CostOfTx(rules, SendNothing(w, b), 2), now)))
  {
    hide ApplyTx, Signed, CostOfTx, AfterFirst, Works, GenesisPrices;
    FirstSettles(rules, w, Alone(w), b, Transfer(b, 0), now, outcome, StateRoot.Bare(b, []), 2);
    LowCostOfSigned(rules, w, b, 0, Transfer(b, 0), 2);
  }

  /** A preview lets a deploy of acceptable code through. */
  lemma DeployPreviewed(rules: Rules, w: Wallet, engine: ChainState.ContractEngine, a: Address)
    requires Works(rules.crypto, w) && |a| <= 37 && Contracts.ValidateWasmCode(StateRoot.ShadowCode(a))
    ensures ChainState.OutcomeOf(Some(engine), ChainState.Preview, 0, Deploy(w, a)) == Ran(0, 1)
  {
    hide PayloadCodec.DecodePayload, PayloadCodec.PayloadBytes, Auth.SigningBytes, Authenticate, StateRoot.ShadowCode;
    StateRoot.ShadowSizes(a);
    var p, acct := ContractDeploy(StateRoot.ShadowCode(a), []), ZeroAccount(w.address);
    SmallDeploy(p);
    SignedAuthentic(rules, w, acct, a, 0, p);
    AuthenticDecodes(rules, acct, Deploy(w, a));
  }

  lemma ShadowAfter(w: Wallet, a: Address)
    requires 0 < |a| <= 37 && LexLess(w.address, a) && StateRoot.Covered(a)
    ensures var b := StateRoot.ShadowAddress(a);
      LexLess(w.address, b) && StateRoot.Covered(b) && a != b && a != w.address && b != w.address
  {
    hide StateRoot.ShadowAddress, LexLess;
    var b := StateRoot.ShadowAddress(a);
    StateRoot.ShadowExtends(a);
    assert b == a + b[|a|..];
    LexExtends(w.address, a, b[|a|..]);
    LexTrichotomy(w.address, a);
    LexTrichotomy(w.address, b);
  }

  /** The two ledgers have the same leaves in the same order. */
  lemma SameLeaves(w: Wallet, x: Account, a: Address)
    requires 0 < |a| <= 37 && LexLess(w.address, a) && StateRoot.Covered(w.address) && StateRoot.Covered(a)
    ensures var b := StateRoot.ShadowAddress(a);
      StateRoot.LeafList(map[w.address := x, a := StateRoot.Bare(a, StateRoot.ShadowCode(a))])
        == StateRoot.LeafList(map[w.address := x, b := StateRoot.Bare(b, [])])
  {
    hide StateRoot.ShadowCode, StateRoot.ShadowAddress, LexLess, StateRoot.LeafList, StateRoot.Covered;
    StateRoot.LeafAmbiguous(a);
    ShadowAfter(w, a);
    TwoLeaves(w.address, x, a, StateRoot.Bare(a, StateRoot.ShadowCode(a)));
    TwoLeaves(w.address, x, StateRoot.ShadowAddress(a), StateRoot.Bare(StateRoot.ShadowAddress(a), []));
  }

  lemma SameLeavesSameRoot(h: Merkle.Hasher, l: Accounts, m: Accounts)
    requires StateRoot.LeafList(l) == StateRoot.LeafList(m)
    ensures StateRoot.StateRoot(h, l) == StateRoot.StateRoot(h, m)
  {
    hide StateRoot.LeafList;
  }

  /**
   * Two blocks with one preview root: one deploys an acceptable contract at a, the other
   * transfers nothing to the shadow address of a, and both go on to hide what that cost.
   * Both previews succeed at any common time, their states are different, and under every
   * hash the roots are the same.
   */
  lemma TwoStatesOneRoot(rules: Rules, w: Wallet, a: Address, engine: ChainState.ContractEngine, window: seq<int64>,
                         left: Block, right: Block)
    requires Works(rules.crypto, w) && ModestAlpha(rules.params) && GenesisPrices(rules.params)
    requires 0 < |a| <= 37 && |a| !in {8, 13, 20} && StateRoot.NoFloats(a)
    requires LexLess(w.address, a) && StateRoot.Covered(w.address) && StateRoot.Covered(a)
    requires left.transactions == Hiding(w, Deploy(w, a)) && left.timestamp == right.timestamp
    requires right.transactions == Hiding(w, SendNothing(w, StateRoot.ShadowAddress(a)))
    ensures LedgerOk(Alone(w))
    ensures var x := ChainState.Execute(rules, Alone(w), window, left, Some(engine), ChainState.Preview);
      var y := ChainState.Execute(rules, Alone(w), window, right, Some(engine), ChainState.Preview);
      && x.Ok? && y.Ok? && StateRoot.Visible(x.value) != StateRoot.Visible(y.value)
      && a in x.value && Contracts.ValidateWasmCode(x.value[a].code)
      && ChainState.PreviewResult(rules, Alone(w), window, left, Some(engine))
           == ChainState.PreviewResult(rules, Alone(w), window, right, Some(engine))
  {
    hide ApplyTx, ChainState.Execute, Hiding, Deploy, SendNothing, Clipped, StateRoot.ShadowCode, LexLess;
    hide StateRoot.LeafList, StateRoot.ShadowAddress, Contracts.ValidateWasmCode, StateRoot.StateRoot, Works;
    hide StateRoot.Covered, StateRoot.NoFloats, ChainState.OutcomeOf, AfterFirst, CostOfTx, Rc.EffectiveTime;
    var b, now := StateRoot.ShadowAddress(a), ChainState.BlockTime(rules, window, left);
    StateRoot.LeafAmbiguous(a);
    StateRoot.ShadowCodeValid(a);
    ShadowAfter(w, a);
    DeployPreviewed(rules, w, engine, a);
    DeploySettles(rules, w, a, now, Ran(0, 1));
    HidingPreview(rules, w, engine, window, left, Deploy(w, a), StateRoot.Bare(a, StateRoot.ShadowCode(a)),
      CostOfTx(rules, Deploy(w, a), 1));
    TransferSettles(rules, w, b, now, ChainState.OutcomeOf(Some(engine), ChainState.Preview, 0, SendNothing(w, b)));
    HidingPreview(rules, w, engine, window, right, SendNothing(w, b), StateRoot.Bare(b, []),
      CostOfTx(rules, SendNothing(w, b), 2));
    SameLeaves(w, Clipped(rules, w, now), a);
    var x := map[w.address := Clipped(rules, w, now), a := StateRoot.Bare(a, StateRoot.ShadowCode(a))];
    var y := map[w.address := Clipped(rules, w, now), b := StateRoot.Bare(b, [])];
    SameLeavesSameRoot(rules.crypto.sha, x, y);
    SeenOnce(w.address, Clipped(rules, w, now), a, StateRoot.Bare(a, StateRoot.ShadowCode(a)), b,
      StateRoot.Bare(b, []));
  }

  lemma SeenOnce(w: Address, x: Account, a: Address, y: Account, b: Address, z: Account)
    requires StateRoot.Covered(a) && a != w && a != b
    ensures StateRoot.Visible(map[w := x, a := y]) != StateRoot.Visible(map[w := x, b := z])
  {
    hide StateRoot.Covered;
    assert a in StateRoot.Visible(map[w := x, a := y]) && a !in StateRoot.Visible(map[w := x, b := z]);
  }

  // ----- two transactions of one selection, the second of which cannot be paid for -----

  /** The wallet gives up all its stake, and then votes. */
  function GiveUp(w: Wallet, validator: Address): Transaction {
    Signed(w, w.address, 0, StakeUndelegate(validator, MAX64))
  }

  function TwoQueued(w: Wallet, validator: Address): TxPool.Pool { map[w.address := [GiveUp(w, validator), Vote(w)]] }

  /** Like Alone, but with the credits a stake of this size is capped at. */
  lemma PoolIsFine(rules: Rules, w: Wallet, validator: Address)
    requires Works(rules.crypto, w) && rules.params.alpha >= 1 && |validator| <= 128
    ensures var pool, l := TwoQueued(w, validator), Alone(w);
      && TxPool.PoolOk(pool) && LedgerOk(l) && Total(l) <= MAX64
      && BlockAssembly.WithinCaps(rules, pool, l) && BlockAssembly.PoolAuthentic(rules, pool, l)
  {
    hide Rc.Params.RCMax, PayloadCodec.DecodePayload, Authenticate, PayloadCodec.PayloadBytes, Auth.SigningBytes;
    FullBucket(rules.params, 0, 0);
    var acct := Whale(w, 0, MAX64, 0, 0, []);
    SignedAuthentic(rules, w, acct, w.address, 0, StakeUndelegate(validator, MAX64));
    SignedAuthentic(rules, w, acct, w.address, 1, GovernanceVote(0, 0));
    AuthenticDecodes(rules, acct, GiveUp(w, validator));
    AuthenticDecodes(rules, acct, Vote(w));
    TotalRemove(Alone(w), w.address);
    assert Alone(w) - {w.address} == map[];
  }

  lemma AuthenticDecodes(rules: Rules, acct: Account, tx: Transaction)
    requires Authenticate(rules, acct, tx).Ok?
    ensures PayloadCodec.DecodePayload(tx.payload).Some? && PayloadOf(tx) == Authenticate(rules, acct, tx).value.payload
  {
    hide PayloadCodec.DecodePayload;
  }

  lemma CostOfSigned(rules: Rules, engine: Option<ChainState.ContractEngine>, w: Wallet, nonce: uint64, p: Payload)
    requires Works(rules.crypto, w) && Small(p) && GenesisPrices(rules.params)
    requires p.StakeUndelegate? || p.GovernanceVote?
    ensures var tx := Signed(w, w.address, nonce, p);
      && BlockAssembly.Cost(rules.params, engine, tx) == Some(CostOfTx(rules, tx, 1))
      && 0 < CostOfTx(rules, tx, 1) <= MOST
  {
    hide PayloadCodec.DecodePayload, PayloadCodec.PayloadBytes, Encoding.TxBytes, Auth.SigningBytes, Rc.Params.CostOf;
    hide Authenticate;
    var acct, tx := Whale(w, nonce, 0, 0, 0, []), Signed(w, w.address, nonce, p);
    SignedAuthentic(rules, w, acct, w.address, nonce, p);
    AuthenticDecodes(rules, acct, tx);
    SignedSize(rules.crypto, w, w.address, nonce, p);
    SmallWrap();
    LowCost(rules.params, Len64(Encoding.TxBytes(tx)), 1);
  }

  /** With one sender there is one head to pick. */
  lemma OnlySender(selector: TxPool.Selector, a: Address, st: TxPool.SenderState)
    requires selector.Eligible(st)
    ensures selector.IsBest(map[a := st], a)
    ensures selector.Take(map[a := st], a) == map[a := selector.Advance(st)]
  {
    CandidateHeap.NotAfterTotal(selector.Head(a, st), selector.Head(a, st));
  }

  /** A sender's two affordable transactions are taken one after the other. */
  lemma BothTaken(selector: TxPool.Selector, a: Address, st: TxPool.SenderState) returns (run: TxPool.Run)
    requires |st.queue| == 2 && st.cursor == 0 && st.nonce == st.queue[0].nonce == 0 && st.queue[1].nonce == 1
    requires selector.cost(st.queue[0]).Some? && selector.cost(st.queue[1]).Some?
    requires selector.cost(st.queue[0]).value + selector.cost(st.queue[1]).value <= st.rc
    ensures selector.Selection(map[a := st], 2, run, Some(st.queue))
  {
    var st1 := selector.Advance(st);
    var st2 := selector.Advance(st1);
    OnlySender(selector, a, st);
    OnlySender(selector, a, st1);
    run := TxPool.Run.Run([map[a := st], map[a := st1], map[a := st2]], [a, a], st.queue);
    forall k {:trigger run.picks[k]} | 0 <= k < |run.picks|
      ensures selector.Picked(run.states[k], run.picks[k], run.txs[k], run.states[k + 1])
    {
      assert k == 0 || k == 1;
    }
  }

  /** The pool's two transactions make one selection. */
  lemma BothSelected(rules: Rules, engine: Option<ChainState.ContractEngine>, w: Wallet, validator: Address)
    returns (run: TxPool.Run)
    requires Works(rules.crypto, w) && GenesisPrices(rules.params) && |validator| <= 128
    ensures BlockAssembly.PoolSelector(rules, engine).Selection(
              TxPool.Initial(TwoQueued(w, validator), BlockAssembly.ViewOf(Alone(w))), 2, run,
                Some([GiveUp(w, validator), Vote(w)]))
  {
    hide BlockAssembly.Cost, CostOfTx, TxPool.Selector.Selection, PayloadCodec.PayloadBytes, Auth.SigningBytes;
    var selector, queue := BlockAssembly.PoolSelector(rules, engine), [GiveUp(w, validator), Vote(w)];
    CostOfSigned(rules, engine, w, 0, StakeUndelegate(validator, MAX64));
    CostOfSigned(rules, engine, w, 1, GovernanceVote(0, 0));
    var st := TxPool.SenderState(0, MAX64, 0, queue);
    run := BothTaken(selector, w.address, st);
    assert TxPool.Initial(TwoQueued(w, validator), BlockAssembly.ViewOf(Alone(w))) == map[w.address := st];
  }

  /** The wallet's account once it has given up its stake. */
  function Stakeless(w: Wallet, rc: uint64, now: int64): Account {
    Account(w.address, MAX64, 1, 0, rc, 0, now, [], w.key)
  }

  lemma GiveUpSettles(rules: Rules, w: Wallet, validator: Address, now: int64, outcome: ContractOutcome)
    requires Works(rules.crypto, w) && rules.params.alpha >= 1 && |validator| <= 128
    ensures var tx := GiveUp(w, validator);
      ApplyTx(rules, Alone(w), Step(tx, now, outcome))
        == Ok(map[w.address := Stakeless(w, MAX64 - CostOfTx(rules, tx, 1), now)])
  {
    hide Rc.Params.RegenRC, Rc.Params.CostOf, ApplyTx, Encoding.TxBytes, PayloadCodec.PayloadBytes, Auth.SigningBytes;
    SignedStep(rules, w, Alone(w), w.address, 0, StakeUndelegate(validator, MAX64), now, outcome);
    FullBucket(rules.params, 0, now);
    var left := Stakeless(w, MAX64 - CostOfTx(rules, GiveUp(w, validator), 1), now);
    assert Put(Alone(w), left) == map[w.address := left];
  }

  lemma VoteStarves(rules: Rules, w: Wallet, rc: uint64, last: int64, now: int64, outcome: ContractOutcome)
    requires Works(rules.crypto, w) && GenesisPrices(rules.params)
    ensures ApplyTx(rules, map[w.address := Stakeless(w, rc, last)], Step(Vote(w), now, outcome)) == Err(InsufficientRC)
  {
    hide Rc.Params.RegenRC, Rc.Params.RCMax, Rc.Params.CostOf, ApplyTx, Encoding.TxBytes, PayloadCodec.PayloadBytes;
    hide Auth.SigningBytes;
    var l := map[w.address := Stakeless(w, rc, last)];
    SignedStep(rules, w, l, w.address, 1, GovernanceVote(0, 0), now, outcome);
    EmptyBucket(rules.params, rc, last, now);
    CostOfSigned(rules, None, w, 1, GovernanceVote(0, 0));
  }

  /**
   * Why undelegations must come last: one selection takes both of a sender's transactions,
   * from a pool and a state that meet every other condition, and the block cannot be
   * previewed at any time, because the second transaction cannot be paid for.
   */
  lemma SelectedStarves(rules: Rules, engine: Option<ChainState.ContractEngine>, w: Wallet, validator: Address,
                        window: seq<int64>, block: Block) returns (run: TxPool.Run)
    requires Works(rules.crypto, w) && rules.params.alpha >= 1 && GenesisPrices(rules.params) && |validator| <= 128
    requires block.transactions == [GiveUp(w, validator), Vote(w)]
    ensures var pool, l := TwoQueued(w, validator), Alone(w);
      && TxPool.PoolOk(pool) && LedgerOk(l) && Total(l) <= MAX64
      && BlockAssembly.WithinCaps(rules, pool, l) && BlockAssembly.PoolAuthentic(rules, pool, l)
      && BlockAssembly.PoolSelector(rules, engine).Selection(
           TxPool.Initial(pool, BlockAssembly.ViewOf(l)), 2, run, Some(block.transactions))
      && ChainState.Execute(rules, l, window, block, engine, ChainState.Preview) == Err(InsufficientRC)
  {
    hide TxPool.PoolOk, BlockAssembly.WithinCaps, BlockAssembly.PoolAuthentic, TxPool.Selector.Selection, Total;
    hide TxPool.Initial;
    hide ApplyTx, ApplyAll, GiveUp, Vote, CostOfTx, Rc.EffectiveTime, ChainState.OutcomeOf, TwoQueued;
    PoolIsFine(rules, w, validator);
    run := BothSelected(rules, engine, w, validator);
    var now := ChainState.BlockTime(rules, window, block);
    var steps := ChainState.StepsOf(engine, ChainState.Preview, now, block.transactions);
    GiveUpSettles(rules, w, validator, now, steps[0].outcome);
    var rc := MAX64 - CostOfTx(rules, GiveUp(w, validator), 1);
    VoteStarves(rules, w, rc, now, now, steps[1].outcome);
    TwoSteps(rules, Alone(w), steps[0], map[w.address := Stakeless(w, rc, now)], steps[1]);
    assert steps == [steps[0], steps[1]];
  }

  // ----- a later block -----

  function VoteQueued(w: Wallet): TxPool.Pool { map[w.address := [Vote(w)]] }

  /** An affordable transaction alone in a queue is taken. */
  lemma OneTaken(selector: TxPool.Selector, a: Address, st: TxPool.SenderState) returns (run: TxPool.Run)
    requires |st.queue| == 1 && st.cursor == 0 && st.nonce == st.queue[0].nonce
    requires selector.cost(st.queue[0]).Some? && selector.cost(st.queue[0]).value <= st.rc
    ensures selector.Selection(map[a := st], 1, run, Some(st.queue))
  {
    var st1 := selector.Advance(st);
    OnlySender(selector, a, st);
    run := TxPool.Run.Run([map[a := st], map[a := st1]], [a], st.queue);
    forall k {:trigger run.picks[k]} | 0 <= k < |run.picks|
      ensures selector.Picked(run.states[k], run.picks[k], run.txs[k], run.states[k + 1])
    {
      assert k == 0;
    }
  }

  /** The account that has given up its stake still has a pool and a ledger in order, but not its credits. */
  lemma LeftoverIsFine(rules: Rules, w: Wallet, rc: uint64, last: int64)
    requires Works(rules.crypto, w) && rc > 0
    ensures var pool, l := VoteQueued(w), map[w.address := Stakeless(w, rc, last)];
      && TxPool.PoolOk(pool) && LedgerOk(l) && Total(l) <= MAX64 && BlockAssembly.PoolAuthentic(rules, pool, l)
      && !BlockAssembly.WithinCaps(rules, pool, l) && BlockAssembly.UndelegatesLast([Vote(w)])
  {
    hide PayloadCodec.DecodePayload, Authenticate, PayloadCodec.PayloadBytes, Auth.SigningBytes;
    var l := map[w.address := Stakeless(w, rc, last)];
    EmptyCap(rules.params);
    SignedAuthentic(rules, w, Stakeless(w, rc, last), w.address, 1, GovernanceVote(0, 0));
    AuthenticDecodes(rules, Stakeless(w, rc, last), Vote(w));
    TotalRemove(l, w.address);
    assert l - {w.address} == map[];
  }

  lemma EmptyCap(params: Rc.Params)
    ensures params.RCMax(0) == 0
  {
  }

  lemma VoteSelected(rules: Rules, engine: Option<ChainState.ContractEngine>, w: Wallet, rc: uint64, last: int64)
    returns (run: TxPool.Run)
    requires Works(rules.crypto, w) && GenesisPrices(rules.params) && rc >= MOST
    ensures BlockAssembly.PoolSelector(rules, engine).Selection(
              TxPool.Initial(VoteQueued(w), BlockAssembly.ViewOf(map[w.address := Stakeless(w, rc, last)])), 1, run,
                Some([Vote(w)]))
  {
    hide BlockAssembly.Cost, CostOfTx, TxPool.Selector.Selection, PayloadCodec.PayloadBytes, Auth.SigningBytes;
    CostOfSigned(rules, engine, w, 1, GovernanceVote(0, 0));
    var st := TxPool.SenderState(1, rc, 0, [Vote(w)]);
    run := OneTaken(BlockAssembly.PoolSelector(rules, engine), w.address, st);
    assert TxPool.Initial(VoteQueued(w), BlockAssembly.ViewOf(map[w.address := Stakeless(w, rc, last)]))
        == map[w.address := st];
  }

  /**
   * The code itself leaves credits above their cap, and no order of undelegations helps then:
   * once GiveUp has been applied, a block that holds nothing but the vote is selected, and
   * its preview fails, whenever it is.
   */
  lemma LaterBlockStarves(rules: Rules, engine: Option<ChainState.ContractEngine>, w: Wallet, validator: Address,
                          earlier: int64, outcome: ContractOutcome, window: seq<int64>, block: Block)
    returns (l: Accounts, run: TxPool.Run)
    requires Works(rules.crypto, w) && rules.params.alpha >= 1 && GenesisPrices(rules.params) && |validator| <= 128
    requires block.transactions == [Vote(w)]
    ensures ApplyTx(rules, Alone(w), Step(GiveUp(w, validator), earlier, outcome)) == Ok(l)
    ensures var pool := VoteQueued(w);
      && TxPool.PoolOk(pool) && LedgerOk(l) && Total(l) <= MAX64 && BlockAssembly.PoolAuthentic(rules, pool, l)
      && !BlockAssembly.WithinCaps(rules, pool, l) && BlockAssembly.UndelegatesLast(block.transactions)
      && BlockAssembly.PoolSelector(rules, engine).Selection(
           TxPool.Initial(pool, BlockAssembly.ViewOf(l)), 1, run, Some(block.transactions))
      && ChainState.Execute(rules, l, window, block, engine, ChainState.Preview) == Err(InsufficientRC)
  {
    hide TxPool.PoolOk, BlockAssembly.WithinCaps, BlockAssembly.PoolAuthentic, TxPool.Selector.Selection, Total;
    hide BlockAssembly.UndelegatesLast, CostOfTx, TxPool.Initial, VoteQueued, Vote, Signed, Works, Alone;
    hide ApplyTx, GiveUp, Rc.EffectiveTime, ChainState.Execute, ChainState.OutcomeOf, LedgerOk, Stakeless;
    CostOfSigned(rules, engine, w, 0, StakeUndelegate(validator, MAX64));
    GiveUpSettles(rules, w, validator, earlier, outcome);
    GiveUpIs(w, validator);
    var rc := MAX64 - CostOfTx(rules, GiveUp(w, validator), 1);
    l := map[w.address := Stakeless(w, rc, earlier)];
    LeftoverIsFine(rules, w, rc, earlier);
    run := VoteSelected(rules, engine, w, rc, earlier);
    var now := ChainState.BlockTime(rules, window, block);
    SingleExecuted(rules, l, window, block, engine, Vote(w));
    VoteStarves(rules, w, rc, earlier, now, ChainState.OutcomeOf(engine, ChainState.Preview, 0, Vote(w)));
  }

  lemma SingleExecuted(rules: Rules, l: Accounts, window: seq<int64>, block: Block,
                       engine: Option<ChainState.ContractEngine>, tx: Transaction)
    requires block.transactions == [tx]
    ensures var now := ChainState.BlockTime(rules, window, block);
      ChainState.Execute(rules, l, window, block, engine, ChainState.Preview)
        == ApplyTx(rules, l, Step(tx, now, ChainState.OutcomeOf(engine, ChainState.Preview, 0, tx)))
  {
    hide ApplyTx, Rc.EffectiveTime, ChainState.OutcomeOf;
    var now := ChainState.BlockTime(rules, window, block);
    var steps := ChainState.StepsOf(engine, ChainState.Preview, now, block.transactions);
    ApplyOne(rules, l, steps[0]);
    assert steps == [steps[0]];
  }

  lemma GiveUpIs(w: Wallet, validator: Address)
    ensures GiveUp(w, validator) == Signed(w, w.address, 0, StakeUndelegate(validator, MAX64))
  {
  }
}
