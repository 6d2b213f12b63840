/**
 * From the pool to the preview: a selected block is never short of nonces or credits
 * (pkg/tx/coster.go and its callers).
 */
module BlockAssembly {
  import opened Wrappers
  import opened Machine
  import opened Types
  import opened Ledger
  import Auth
  import Contracts
  import Encoding
  import PayloadCodec
  import Rc
  import TxPool
  import CandidateHeap
  import ChainState

  // ----- the cost the pool works with -----

  /** Coster.Cost: the charge expected for a transaction, if its payload decodes. */
  function Cost(params: Rc.Params, engine: Option<ChainState.ContractEngine>, tx: Transaction): Option<uint64> {
    var env := PayloadCodec.DecodePayload(tx.payload);
    if env.None? then None
    else
      var work := Estimate(engine, env.value.payload);
      Some(params.CostOf(Len64(Encoding.TxBytes(tx)), work.0, work.1))
  }

  /** Instructions and state writes expected of a payload. */
  function Estimate(engine: Option<ChainState.ContractEngine>, p: Payload): (uint64, uint64) {
    match p
    case Transfer(_, _) => (0, 2)
    case StakeDelegate(_, _) => (0, 1)
    case StakeUndelegate(_, _) => (0, 1)
    case ContractDeploy(code, _) => (if engine.Some? then Contracts.EstimateInstructions(code) else 0, 1)
    case ContractCall(contract, _, _) =>
      if engine.Some? then (engine.value.instructions(contract), engine.value.stateWrites(contract)) else (0, 1)
    case GovernanceProposal(_, _, _, _) => (0, 1)
    case GovernanceVote(_, _) => (0, 1)
  }

  /** A preview charges no more than the coster said, and for anything but a deploy exactly that. */
  lemma CostCovers(rules: Rules, l: Accounts, sender: Account, tx: Transaction,
                   engine: Option<ChainState.ContractEngine>, i: nat)
    requires PayloadCodec.DecodePayload(tx.payload).Some?
    requires PayloadEffect(l, sender, tx, PayloadOf(tx), ChainState.OutcomeOf(engine, ChainState.Preview, i, tx)).Ok?
    ensures var e := PayloadEffect(l, sender, tx, PayloadOf(tx),
        ChainState.OutcomeOf(engine, ChainState.Preview, i, tx)).value;
      && Cost(rules.params, engine, tx).Some?
      && ExecutionCost(rules, tx, e) <= Cost(rules.params, engine, tx).value
      && (!PayloadOf(tx).ContractDeploy? ==> ExecutionCost(rules, tx, e) == Cost(rules.params, engine, tx).value)
    ensures PayloadOf(tx).ContractDeploy? ==>
        Cost(rules.params, engine, tx)
          == Some(rules.params.CostOf(Len64(Encoding.TxBytes(tx)), |PayloadOf(tx).wasmCode| % TWO64, 1))
  {
    hide PayloadCodec.DecodePayload, Encoding.TxBytes, Rc.Params.CostOf;
    var e := PayloadEffect(l, sender, tx, PayloadOf(tx), ChainState.OutcomeOf(engine, ChainState.Preview, i, tx)).value;
    var work := Estimate(engine, PayloadOf(tx));
    assert e.instructions <= work.0 && e.stateWrites == work.1;
    rules.params.CostMonotone(Len64(Encoding.TxBytes(tx)), e.instructions, work.0, e.stateWrites, work.1);
  }

  // ----- the pool's view of the state -----

  function PoolSelector(rules: Rules, engine: Option<ChainState.ContractEngine>): TxPool.Selector {
    TxPool.Selector.Selector((tx: Transaction) => Cost(rules.params, engine, tx), rules.crypto)
  }

  /** State.GetAccount: every address has an account. */
  function ViewOf(l: Accounts): TxPool.View { (a: Address) => TxPool.Found(Get(l, a)) }

  /** With decoding payloads nothing in the pool fails to be costed, so a selection always succeeds. */
  lemma NothingFails(rules: Rules, engine: Option<ChainState.ContractEngine>, pool: TxPool.Pool, l: Accounts,
                     ss: TxPool.Senders)
    requires TxPool.PoolOk(pool) && QueuesOf(ss, pool)
    ensures !PoolSelector(rules, engine).AnyFails(ss)
  {
    hide PayloadCodec.DecodePayload, Encoding.TxBytes, Rc.Params.CostOf;
    forall a | a in ss
      ensures !PoolSelector(rules, engine).Fails(ss[a])
    {
      if PoolSelector(rules, engine).Ready(ss[a]) {
        assert PayloadCodec.DecodePayload(pool[a][ss[a].cursor].payload).Some?;
      }
    }
  }

  /** The senders work through the pool's queues. */
  ghost predicate QueuesOf(ss: TxPool.Senders, pool: TxPool.Pool) {
    forall a :: a in ss ==> a in pool && ss[a].queue == pool[a]
  }

  // ----- undelegations -----

  /** No transaction among the first k is an undelegation by a. */
  ghost predicate Keeps(txs: seq<Transaction>, k: nat, a: Address)
    requires k <= |txs|
  {
    forall i :: 0 <= i < k && txs[i].from == a && PayloadCodec.DecodePayload(txs[i].payload).Some? ==>
      !PayloadOf(txs[i]).StakeUndelegate?
  }

  /** A sender's undelegation is its last transaction in the list. */
  ghost predicate UndelegatesLast(txs: seq<Transaction>) {
    forall k :: 0 <= k < |txs| ==> Keeps(txs, k, txs[k].from)
  }

  // ----- what a block's transactions are charged, and on what stake -----

  /** What a preview charges the i-th transaction. */
  function Charge(rules: Rules, engine: Option<ChainState.ContractEngine>, txs: seq<Transaction>, i: nat): uint64
    requires i < |txs|
  {
    if PayloadCodec.DecodePayload(txs[i].payload).None? then 0 else DueFor(rules, PreviewStep(engine, 0, txs, i))
  }

  function PreviewStep(engine: Option<ChainState.ContractEngine>, now: int64, txs: seq<Transaction>, k: nat): Step
    requires k < |txs|
  {
    ChainState.StepOf(engine, ChainState.Preview, now, txs, k)
  }

  /** What a's transactions from the i-th on are charged. */
  function Spent(rules: Rules, engine: Option<ChainState.ContractEngine>, txs: seq<Transaction>, i: nat,
                 a: Address): nat
    requires i <= |txs|
    decreases |txs| - i
  {
    if i == |txs| then 0
    else (if txs[i].from == a then Charge(rules, engine, txs, i) else 0) + Spent(rules, engine, txs, i + 1, a)
  }

  /** What a transaction adds to its sender's stake. */
  function StakeChange(tx: Transaction): int {
    var env := PayloadCodec.DecodePayload(tx.payload);
    if env.None? then 0
    else
      match env.value.payload
      case StakeDelegate(_, amount) => amount
      case StakeUndelegate(_, amount) => 0 - amount
      case _ => 0
  }

  /** a's stored stake, with its delegations before the i-th transaction and without its undelegations. */
  function StakeBefore(l: Accounts, txs: seq<Transaction>, i: nat, a: Address): int
    requires i <= |txs|
  {
    if i == 0 then Get(l, a).stake
    else StakeBefore(l, txs, i - 1, a) + if txs[i - 1].from == a then StakeChange(txs[i - 1]) else 0
  }

  /** The i-th transaction and its sender's later ones cost no more than that stake may hold in credits. */
  predicate Afforded(rules: Rules, engine: Option<ChainState.ContractEngine>, l: Accounts, txs: seq<Transaction>,
                     i: nat)
    requires i < |txs|
  {
    Spent(rules, engine, txs, i, txs[i].from) <= Min(rules.params.alpha * StakeBefore(l, txs, i, txs[i].from), MAX64)
  }

  predicate Affordable(rules: Rules, engine: Option<ChainState.ContractEngine>, l: Accounts, txs: seq<Transaction>) {
    forall i :: 0 <= i < |txs| ==> Afforded(rules, engine, l, txs, i)
  }

  /** The errors a selected transaction may still meet. */
  predicate NotForWantOfCredits(e: TxError) {
    !e.InvalidParties? && !e.BadPayload? && !e.InvalidNonce? && !e.InsufficientRC?
  }

  /** The errors an authentic one may still meet: funds, stake and contracts. */
  predicate FundsOrContracts(e: TxError) {
    e.InsufficientBalance? || e.InsufficientStake? || e.NoEngine? || e.ContractFailed?
  }

  predicate InPool(pool: TxPool.Pool, a: Address, t: Transaction) { a in pool && t in pool[a] }

  /** Every queued transaction can be authenticated. */
  ghost predicate PoolAuthentic(rules: Rules, pool: TxPool.Pool, l: Accounts) {
    forall a, t {:trigger InPool(pool, a, t)} :: InPool(pool, a, t) ==> Authentic(rules, l, t)
  }

  /** The queued transactions of a sender that has no key stored yet carry one and the same key. */
  ghost predicate PoolKeysAgree(pool: TxPool.Pool, l: Accounts) {
    forall a, t, u {:trigger InPool(pool, a, t), InPool(pool, a, u)} ::
      InPool(pool, a, t) && InPool(pool, a, u) && Get(l, a).pubKey == [] ==> CarriedKey(t) == CarriedKey(u)
  }

  /** No two keys carried in the pool, different from each other, have the same address. */
  ghost predicate CarriedApart(crypto: Auth.Crypto, pool: TxPool.Pool) {
    forall a, t, b, u {:trigger InPool(pool, a, t), InPool(pool, b, u)} ::
      InPool(pool, a, t) && InPool(pool, b, u) && crypto.addressOf(CarriedKey(t)) == crypto.addressOf(CarriedKey(u)) ==>
        CarriedKey(t) == CarriedKey(u)
  }

  lemma ApartAgree(rules: Rules, pool: TxPool.Pool, l: Accounts)
    requires TxPool.PoolOk(pool) && PoolAuthentic(rules, pool, l) && CarriedApart(rules.crypto, pool)
    ensures PoolKeysAgree(pool, l)
  {
    hide Authenticate, ResolvedKey, CarriedKey, PayloadCodec.DecodePayload;
    forall a, t, u | InPool(pool, a, t) && InPool(pool, a, u) && Get(l, a).pubKey == []
      ensures CarriedKey(t) == CarriedKey(u)
    {
      ResolvedIs(rules, Get(l, t.from), t);
      ResolvedIs(rules, Get(l, u.from), u);
    }
  }

  /** The pool authenticates what it admits as the preview will. */
  lemma AdmittedAuthentic(m: TxPool.Mempool, rules: Rules, l: Accounts, txn: Transaction)
    requires m.selector.crypto == rules.crypto && m.Admission(txn, ViewOf(l)).None?
    ensures Authentic(rules, l, txn)
  {
    hide PayloadCodec.DecodePayload, Auth.ResolveSenderPubKey, Auth.SignatureValid;
  }

  /**
   * An authentic pool stays so under a step exactly when its sender's queued transactions resolve
   * to the step's key.
   */
  lemma PoolStaysAuthentic(rules: Rules, pool: TxPool.Pool, l: Accounts, s: Step)
    requires LedgerOk(l) && ApplyTx(rules, l, s).Ok? && PoolAuthentic(rules, pool, l)
    ensures Authentic(rules, l, s.tx)
    ensures PoolAuthentic(rules, pool, ApplyTx(rules, l, s).value) <==>
              forall a, t {:trigger InPool(pool, a, t)} :: InPool(pool, a, t) && t.from == s.tx.from ==>
                ResolvedKey(rules, Get(l, t.from), t) == ResolvedKey(rules, Get(l, s.tx.from), s.tx)
  {
    hide Authenticate, ApplyTx, ResolvedKey;
    StepKey(rules, l, s);
    forall a, t | InPool(pool, a, t)
      ensures Authentic(rules, ApplyTx(rules, l, s).value, t) <==>
                (s.tx.from == t.from ==>
                  ResolvedKey(rules, Get(l, s.tx.from), s.tx) == ResolvedKey(rules, Get(l, t.from), t))
    {
      StaysAuthentic(rules, l, s, t);
    }
  }

  /** Applying a queued transaction leaves a pool whose keys agree authentic, and its keys in agreement. */
  lemma PoolStep(rules: Rules, pool: TxPool.Pool, l: Accounts, s: Step)
    requires TxPool.PoolOk(pool) && LedgerOk(l) && ApplyTx(rules, l, s).Ok? && InPool(pool, s.tx.from, s.tx)
    requires PoolAuthentic(rules, pool, l) && PoolKeysAgree(pool, l)
    ensures PoolAuthentic(rules, pool, ApplyTx(rules, l, s).value) && PoolKeysAgree(pool, ApplyTx(rules, l, s).value)
  {
    hide Authenticate, ApplyTx, ResolvedKey, CarriedKey, PayloadCodec.DecodePayload, Auth.SignatureValid;
    PoolStaysAuthentic(rules, pool, l, s);
    ResolvedIs(rules, Get(l, s.tx.from), s.tx);
    forall a, t | InPool(pool, a, t) && t.from == s.tx.from
      ensures ResolvedKey(rules, Get(l, t.from), t) == ResolvedKey(rules, Get(l, s.tx.from), s.tx)
    {
      ResolvedIs(rules, Get(l, t.from), t);
    }
    StepKey(rules, l, s);
    forall a, t, u | InPool(pool, a, t) && InPool(pool, a, u) && Get(ApplyTx(rules, l, s).value, a).pubKey == []
      ensures CarriedKey(t) == CarriedKey(u)
    {
      Authorized(rules, l, s, a);
    }
  }

  /** A preview charges no more than the pool reckoned with. */
  lemma ChargeWithinCost(rules: Rules, engine: Option<ChainState.ContractEngine>, txs: seq<Transaction>, i: nat)
    requires i < |txs| && PayloadCodec.DecodePayload(txs[i].payload).Some?
    ensures Cost(rules.params, engine, txs[i]).Some?
    ensures Charge(rules, engine, txs, i) <= Cost(rules.params, engine, txs[i]).value
  {
    hide PayloadCodec.DecodePayload, Encoding.TxBytes, Rc.Params.CostOf;
    var p := PayloadOf(txs[i]);
    var work, most := WorkOf(p, ChainState.Outcome(engine, ChainState.Preview, i, p)), Estimate(engine, p);
    assert work.0 <= most.0 && work.1 <= most.1;
    rules.params.CostMonotone(Len64(Encoding.TxBytes(txs[i])), work.0, most.0, work.1, most.1);
  }

  lemma EffectCharged(rules: Rules, l: Accounts, sender: Account, engine: Option<ChainState.ContractEngine>,
                      txs: seq<Transaction>, i: nat)
    requires i < |txs| && PayloadCodec.DecodePayload(txs[i].payload).Some?
    requires var outcome := ChainState.OutcomeOf(engine, ChainState.Preview, i, txs[i]);
      PayloadEffect(l, sender, txs[i], PayloadOf(txs[i]), outcome).Ok?
    ensures var outcome := ChainState.OutcomeOf(engine, ChainState.Preview, i, txs[i]);
      ExecutionCost(rules, txs[i], PayloadEffect(l, sender, txs[i], PayloadOf(txs[i]), outcome).value)
        == Charge(rules, engine, txs, i)
  {
    hide PayloadCodec.DecodePayload, Encoding.TxBytes, Rc.Params.CostOf, ChainState.OutcomeOf;
  }

  /** The credits the sender of the i-th transaction has before it is charged. */
  function CreditsAt(rules: Rules, l: Accounts, txs: seq<Transaction>, i: nat, now: int64): uint64
    requires i < |txs|
  {
    var was := Get(l, txs[i].from);
    rules.params.RegenRC(was.rc, was.stake, was.lastTime, now)
  }

  /** A transaction whose turn it is is applied, or lacks credits, or fails for what the pool does not look at. */
  lemma StepCases(rules: Rules, l: Accounts, engine: Option<ChainState.ContractEngine>, now: int64,
                  txs: seq<Transaction>, k: nat)
    requires k < |txs| && txs[k].from != [] && txs[k].to != [] && PayloadCodec.DecodePayload(txs[k].payload).Some?
    requires LedgerOk(l) && txs[k].nonce == Get(l, txs[k].from).nonce
    ensures var r := ApplyTx(rules, l, PreviewStep(engine, now, txs, k));
      r.Err? ==>
        && (r.error.InsufficientRC? ==> CreditsAt(rules, l, txs, k, now) < Charge(rules, engine, txs, k))
        && (r.error.InsufficientRC? || NotForWantOfCredits(r.error))
        && (Authentic(rules, l, txs[k]) ==> r.error.InsufficientRC? || FundsOrContracts(r.error))
  {
    hide PayloadCodec.DecodePayload, Rc.Params.RegenRC, Rc.Params.RCMax, Auth.ResolveSenderPubKey, Auth.SignatureValid;
    hide PayloadEffect, Charge, ExecutionCost, ChainState.OutcomeOf;
    var tx, was, s := txs[k], Get(l, txs[k].from), PreviewStep(engine, now, txs, k);
    var auth := Authenticate(rules, was, tx);
    if auth.Ok? {
      var sender := Refresh(rules, auth.value.account, now);
      assert sender.rc == CreditsAt(rules, l, txs, k, now) && sender.nonce == was.nonce;
      var effect := PayloadEffect(l, sender, tx, PayloadOf(tx), s.outcome);
      EffectErrors(l, sender, tx, PayloadOf(tx), s.outcome);
      if effect.Ok? {
        EffectKeeps(l, sender, tx, PayloadOf(tx), s.outcome);
        EffectCharged(rules, l, sender, engine, txs, k);
      }
    }
  }

  lemma EffectErrors(l: Accounts, sender: Account, tx: Transaction, p: Payload, outcome: ContractOutcome)
    ensures PayloadEffect(l, sender, tx, p, outcome).Err? ==>
        FundsOrContracts(PayloadEffect(l, sender, tx, p, outcome).error)
  {
  }

  lemma EffectStake(l: Accounts, sender: Account, tx: Transaction, outcome: ContractOutcome)
    requires PayloadCodec.DecodePayload(tx.payload).Some? && sender.balance + sender.stake <= MAX64
    requires PayloadEffect(l, sender, tx, PayloadOf(tx), outcome).Ok?
    ensures PayloadEffect(l, sender, tx, PayloadOf(tx), outcome).value.sender.stake == sender.stake + StakeChange(tx)
  {
    hide PayloadCodec.DecodePayload;
  }

  /** What an applied transaction leaves its sender: what is left of its credits, and its changed stake. */
  lemma StepSpends(rules: Rules, l: Accounts, engine: Option<ChainState.ContractEngine>, now: int64,
                   txs: seq<Transaction>, k: nat)
    requires k < |txs| && LedgerOk(l) && Total(l) <= MAX64
    requires ApplyTx(rules, l, PreviewStep(engine, now, txs, k)).Ok?
    ensures var was, became := Get(l, txs[k].from),
        Get(ApplyTx(rules, l, PreviewStep(engine, now, txs, k)).value, txs[k].from);
      && became.rc == CreditsAt(rules, l, txs, k, now) - Charge(rules, engine, txs, k)
      && became.lastTime == now
      && became.stake == was.stake + StakeChange(txs[k])
  {
    hide PayloadCodec.DecodePayload, Rc.Params.RegenRC, Rc.Params.RCMax, PayloadEffect, Charge, ExecutionCost, Settle;
    hide ApplyTx, Total, StakeChange, ChainState.OutcomeOf;
    var tx, was, s := txs[k], Get(l, txs[k].from), PreviewStep(engine, now, txs, k);
    var sender, e := Stages(rules, l, s);
    EffectKeeps(l, sender, tx, PayloadOf(tx), s.outcome);
    SettledSender(rules, tx, e);
    EffectCharged(rules, l, sender, engine, txs, k);
    WorthWithinTotal(l, tx.from);
    EffectStake(l, sender, tx, s.outcome);
  }

  /** After k transactions l is sound and holds the stakes foretold for it. */
  ghost predicate Foretold(start: Accounts, l: Accounts, txs: seq<Transaction>, k: nat)
    requires k <= |txs|
  {
    LedgerOk(l) && Total(l) <= MAX64 && forall a :: Get(l, a).stake == StakeBefore(start, txs, k, a)
  }

  lemma StepForetold(rules: Rules, start: Accounts, l: Accounts, engine: Option<ChainState.ContractEngine>, now: int64,
                     txs: seq<Transaction>, k: nat)
    requires k < |txs| && Foretold(start, l, txs, k) && ApplyTx(rules, l, PreviewStep(engine, now, txs, k)).Ok?
    ensures Foretold(start, ApplyTx(rules, l, PreviewStep(engine, now, txs, k)).value, txs, k + 1)
  {
    hide ApplyTx, Total, StakeChange, CreditsAt, Charge, Rc.Params.RegenRC;
    var s := PreviewStep(engine, now, txs, k);
    AppliedOutcome(rules, l, s);
    Conservation(rules, l, s);
    StepSpends(rules, l, engine, now, txs, k);
    forall a
      ensures Get(ApplyTx(rules, l, s).value, a).stake == StakeBefore(start, txs, k + 1, a)
    {
      if a != s.tx.from {
        assert SameButBalanceAndCode(Get(l, a), Get(ApplyTx(rules, l, s).value, a));
      }
    }
  }

  // ----- what was previewed could be afforded -----

  /** Once a's clock stands at the block's time nothing regenerates: a's charges come out of what it has. */
  lemma {:induction false} SpentFromCredits(rules: Rules, l: Accounts, engine: Option<ChainState.ContractEngine>,
                                            now: int64, txs: seq<Transaction>, k: nat, a: Address)
    requires k <= |txs| && LedgerOk(l) && Total(l) <= MAX64 && Get(l, a).lastTime == now
    requires ApplyAll(rules, l, ChainState.StepsOf(engine, ChainState.Preview, now, txs)[k..]).Ok?
    ensures Spent(rules, engine, txs, k, a) <= Get(l, a).rc
    decreases |txs| - k
  {
    hide ApplyTx, Total, StakeChange, Charge, Rc.Params.RegenRC;
    if k < |txs| {
      var next := FirstOfRest(rules, l, engine, now, txs, k);
      SpentFromCredits(rules, next, engine, now, txs, k + 1, a);
      if txs[k].from == a {
        rules.params.RegenAtOnce(Get(l, a).rc, Get(l, a).stake, now);
      }
    }
  }

  /** The first step of a successful rest of a preview. */
  lemma FirstOfRest(rules: Rules, l: Accounts, engine: Option<ChainState.ContractEngine>, now: int64,
                    txs: seq<Transaction>, k: nat) returns (next: Accounts)
    requires k < |txs| && LedgerOk(l) && Total(l) <= MAX64
    requires ApplyAll(rules, l, ChainState.StepsOf(engine, ChainState.Preview, now, txs)[k..]).Ok?
    ensures ApplyTx(rules, l, PreviewStep(engine, now, txs, k)) == Ok(next) && LedgerOk(next) && Total(next) <= MAX64
    ensures ApplyAll(rules, next, ChainState.StepsOf(engine, ChainState.Preview, now, txs)[k + 1..]).Ok?
    ensures var was, became := Get(l, txs[k].from), Get(next, txs[k].from);
      became.rc == CreditsAt(rules, l, txs, k, now) - Charge(rules, engine, txs, k) && became.lastTime == now
    ensures forall a :: a != txs[k].from ==>
        Get(next, a).rc == Get(l, a).rc && Get(next, a).lastTime == Get(l, a).lastTime
  {
    hide ApplyTx, Total, StakeChange, Charge, CreditsAt, Rc.Params.RegenRC;
    var steps, s := ChainState.StepsOf(engine, ChainState.Preview, now, txs), PreviewStep(engine, now, txs, k);
    assert steps[k..][0] == s && steps[k..][1..] == steps[k + 1..];
    next := ApplyTx(rules, l, s).value;
    AppliedOutcome(rules, l, s);
    Conservation(rules, l, s);
    StepSpends(rules, l, engine, now, txs, k);
    forall a | a != txs[k].from
      ensures Get(next, a).rc == Get(l, a).rc && Get(next, a).lastTime == Get(l, a).lastTime
    {
      assert SameButBalanceAndCode(Get(l, a), Get(next, a));
    }
  }

  lemma {:induction false} AffordedFrom(rules: Rules, start: Accounts, l: Accounts,
                                        engine: Option<ChainState.ContractEngine>, now: int64, txs: seq<Transaction>,
                                        k: nat, i: nat)
    requires k <= i < |txs| && Foretold(start, l, txs, k)
    requires ApplyAll(rules, l, ChainState.StepsOf(engine, ChainState.Preview, now, txs)[k..]).Ok?
    ensures Afforded(rules, engine, start, txs, i)
    decreases i - k
  {
    hide ApplyTx, Total, StakeChange, StakeBefore, Charge, Rc.Params.RegenRC, Rc.Params.RCMax;
    var next := FirstOfRest(rules, l, engine, now, txs, k);
    StepForetold(rules, start, l, engine, now, txs, k);
    if k < i {
      AffordedFrom(rules, start, next, engine, now, txs, k + 1, i);
    } else {
      var a := txs[k].from;
      SpentFromCredits(rules, next, engine, now, txs, k + 1, a);
      rules.params.RegenBetween(Get(l, a).rc, Get(l, a).stake, Get(l, a).lastTime, now);
    }
  }

  /** Whatever block it is, and at whatever time: if its preview succeeds it was affordable. */
  lemma PreviewedAffordable(rules: Rules, engine: Option<ChainState.ContractEngine>, l: Accounts, now: int64,
                            txs: seq<Transaction>)
    requires LedgerOk(l) && Total(l) <= MAX64
    requires ApplyAll(rules, l, ChainState.StepsOf(engine, ChainState.Preview, now, txs)).Ok?
    ensures Affordable(rules, engine, l, txs)
  {
    hide ApplyAll, Total, Afforded;
    var steps := ChainState.StepsOf(engine, ChainState.Preview, now, txs);
    assert steps[0..] == steps;
    forall i | 0 <= i < |txs|
      ensures Afforded(rules, engine, l, txs, i)
    {
      AffordedFrom(rules, l, l, engine, now, txs, 0, i);
    }
  }

  // ----- what was selected and can be afforded is not short of credits -----

  /** Stored credits never exceed what the stake allows. */
  ghost predicate WithinCaps(rules: Rules, pool: TxPool.Pool, l: Accounts) {
    forall a :: a in pool ==> Get(l, a).rc <= rules.params.RCMax(Get(l, a).stake)
  }

  /** Selection never changes a queue. */
  lemma {:induction false} QueuesAlong(selector: TxPool.Selector, pool: TxPool.Pool, run: TxPool.Run, k: nat)
    requires selector.Greedy(run) && k <= |run.picks| && QueuesOf(run.states[0], pool)
    ensures QueuesOf(run.states[k], pool)
    decreases k
  {
    if k > 0 {
      QueuesAlong(selector, pool, run, k - 1);
      selector.PickedAt(run, k - 1);
    }
  }

  /** Pick k takes an eligible head from the queue of its own sender. */
  lemma PickFromPool(rules: Rules, engine: Option<ChainState.ContractEngine>, pool: TxPool.Pool, run: TxPool.Run,
                     k: nat)
    requires TxPool.PoolOk(pool) && PoolSelector(rules, engine).Greedy(run) && k < |run.picks|
        && QueuesOf(run.states[0], pool)
    ensures |run.txs| == |run.picks|
    ensures var tx, ss := run.txs[k], run.states[k];
      && tx.from != [] && tx.to != [] && PayloadCodec.DecodePayload(tx.payload).Some?
      && tx.from in ss && PoolSelector(rules, engine).Eligible(ss[tx.from])
        && ss[tx.from].queue[ss[tx.from].cursor] == tx
      && InPool(pool, tx.from, tx)
      && run.states[k + 1] == PoolSelector(rules, engine).Take(ss, tx.from)
  {
    hide Cost, PayloadCodec.DecodePayload;
    QueuesAlong(PoolSelector(rules, engine), pool, run, k);
    PoolSelector(rules, engine).PickedAt(run, k);
  }

  /** What the pool has reckoned covers what will be charged. */
  lemma {:induction false} PicksCovered(rules: Rules, engine: Option<ChainState.ContractEngine>, pool: TxPool.Pool,
                                        run: TxPool.Run, k: nat, a: Address)
    requires TxPool.PoolOk(pool) && PoolSelector(rules, engine).Greedy(run) && k <= |run.picks|
        && QueuesOf(run.states[0], pool)
    requires |run.txs| == |run.picks| && |run.states| == |run.picks| + 1
    ensures a in run.states[k] ==> Spent(rules, engine, run.txs, k, a) <= run.states[k][a].rc
    decreases |run.picks| - k
  {
    hide Cost, Charge, PayloadCodec.DecodePayload, TxPool.Selector.Greedy, TxPool.PoolOk;
    if k < |run.picks| {
      PickFromPool(rules, engine, pool, run, k);
      PicksCovered(rules, engine, pool, run, k + 1, a);
      ChargeWithinCost(rules, engine, run.txs, k);
    }
  }

  /** The pool's nonces are the accounts', and if the block is affordable its senders can pay for the rest of it. */
  ghost predicate Solvent(rules: Rules, engine: Option<ChainState.ContractEngine>, start: Accounts, l: Accounts,
                        ss: TxPool.Senders, txs: seq<Transaction>, k: nat)
    requires k <= |txs|
  {
    && Foretold(start, l, txs, k)
    && (forall a :: a in ss ==> Get(l, a).nonce == ss[a].nonce)
    && (Affordable(rules, engine, start, txs) ==>
          forall a :: a in ss ==> Spent(rules, engine, txs, k, a) <= Get(l, a).rc)
  }

  /** An affordable transaction finds the credits for itself and for what its sender has left to send. */
  lemma AffordedCredits(rules: Rules, engine: Option<ChainState.ContractEngine>, start: Accounts, l: Accounts,
                      ss: TxPool.Senders, txs: seq<Transaction>, k: nat, now: int64)
    requires k < |txs| && Solvent(rules, engine, start, l, ss, txs, k) && txs[k].from in ss
    requires Affordable(rules, engine, start, txs)
    ensures Charge(rules, engine, txs, k) + Spent(rules, engine, txs, k + 1, txs[k].from)
         <= CreditsAt(rules, l, txs, k, now)
  {
    hide Charge, Total, StakeBefore, Rc.Params.RegenRC, Rc.Params.RCMax;
    var was := Get(l, txs[k].from);
    assert Afforded(rules, engine, start, txs, k);
    rules.params.RegenBetween(was.rc, was.stake, was.lastTime, now);
  }

  lemma StepSolvent(rules: Rules, engine: Option<ChainState.ContractEngine>, start: Accounts, l: Accounts,
                  ss: TxPool.Senders, txs: seq<Transaction>, k: nat, now: int64)
    requires k < |txs| && Solvent(rules, engine, start, l, ss, txs, k)
    requires txs[k].from in ss && PoolSelector(rules, engine).Eligible(ss[txs[k].from])
    requires ss[txs[k].from].queue[ss[txs[k].from].cursor] == txs[k]
    requires ApplyTx(rules, l, PreviewStep(engine, now, txs, k)).Ok?
    ensures Solvent(rules, engine, start, ApplyTx(rules, l, PreviewStep(engine, now, txs, k)).value,
              PoolSelector(rules, engine).Take(ss, txs[k].from), txs, k + 1)
  {
    hide ApplyTx, Foretold, Affordable, Cost, Charge, StakeChange, CreditsAt, Total, Rc.Params.RegenRC;
    var a, s := txs[k].from, PreviewStep(engine, now, txs, k);
    var next, after := ApplyTx(rules, l, s).value, PoolSelector(rules, engine).Take(ss, a);
    StepForetold(rules, start, l, engine, now, txs, k);
    ForetoldSound(start, l, txs, k);
    AppliedOutcome(rules, l, s);
    StepSpends(rules, l, engine, now, txs, k);
    if Affordable(rules, engine, start, txs) {
      AffordedCredits(rules, engine, start, l, ss, txs, k, now);
    }
    forall b | b in after
      ensures Get(next, b).nonce == after[b].nonce
      ensures Affordable(rules, engine, start, txs) ==> Spent(rules, engine, txs, k + 1, b) <= Get(next, b).rc
    {
      if b != a {
        assert SameButBalanceAndCode(Get(l, b), Get(next, b));
      }
    }
  }

  lemma ForetoldSound(start: Accounts, l: Accounts, txs: seq<Transaction>, k: nat)
    requires k <= |txs| && Foretold(start, l, txs, k)
    ensures LedgerOk(l) && Total(l) <= MAX64
  {
    hide Total;
  }

  /** From pick k on, the preview of what is selected runs through, or fails for want of credits or another reason. */
  lemma {:induction false} SelectedFrom(rules: Rules, engine: Option<ChainState.ContractEngine>, pool: TxPool.Pool,
                                        run: TxPool.Run, now: int64, start: Accounts, l: Accounts, k: nat)
    requires TxPool.PoolOk(pool) && PoolSelector(rules, engine).Greedy(run) && k <= |run.picks|
        && QueuesOf(run.states[0], pool)
    requires |run.txs| == |run.picks| && Solvent(rules, engine, start, l, run.states[k], run.txs, k)
    ensures var r := ApplyAll(rules, l, ChainState.StepsOf(engine, ChainState.Preview, now, run.txs)[k..]);
      r.Err? ==>
        && (r.error.InsufficientRC? ==> !Affordable(rules, engine, start, run.txs))
        && (r.error.InsufficientRC? || NotForWantOfCredits(r.error))
        && (PoolAuthentic(rules, pool, l) && PoolKeysAgree(pool, l) ==>
              r.error.InsufficientRC? || FundsOrContracts(r.error))
    decreases |run.picks| - k
  {
    hide Cost, Charge, CreditsAt, PayloadCodec.DecodePayload, ApplyTx, Foretold, Affordable, Spent;
    hide TxPool.Selector.Eligible, TxPool.Selector.Greedy, TxPool.PoolOk, Authenticate, CarriedKey;
    PoolSelector(rules, engine).GreedyShape(run);
    var txs := run.txs;
    var steps := ChainState.StepsOf(engine, ChainState.Preview, now, txs);
    if k < |txs| {
      PickFromPool(rules, engine, pool, run, k);
      ForetoldSound(start, l, txs, k);
      EligibleNonce(PoolSelector(rules, engine), run.states[k][txs[k].from]);
      StepCases(rules, l, engine, now, txs, k);
      if Affordable(rules, engine, start, txs) {
        AffordedCredits(rules, engine, start, l, run.states[k], txs, k, now);
      }
      assert steps[k..][0] == steps[k] && steps[k..][1..] == steps[k + 1..];
      if ApplyTx(rules, l, steps[k]).Ok? {
        StepSolvent(rules, engine, start, l, run.states[k], txs, k, now);
        if PoolAuthentic(rules, pool, l) && PoolKeysAgree(pool, l) {
          PoolStep(rules, pool, l, steps[k]);
        }
        SelectedFrom(rules, engine, pool, run, now, start, ApplyTx(rules, l, steps[k]).value, k + 1);
      }
    }
  }

  lemma EligibleNonce(selector: TxPool.Selector, st: TxPool.SenderState)
    requires selector.Eligible(st)
    ensures st.queue[st.cursor].nonce == st.nonce
  {
  }

  lemma {:induction false} StartSolvent(rules: Rules, engine: Option<ChainState.ContractEngine>, pool: TxPool.Pool,
                                        l: Accounts, run: TxPool.Run)
    requires TxPool.PoolOk(pool) && LedgerOk(l) && Total(l) <= MAX64
    requires PoolSelector(rules, engine).Greedy(run) && run.states[0] == TxPool.Initial(pool, ViewOf(l))
    requires |run.txs| == |run.picks|
    ensures Solvent(rules, engine, l, l, run.states[0], run.txs, 0)
  {
    hide Total, TxPool.PoolOk, TxPool.Selector.Greedy, Affordable;
    PoolSelector(rules, engine).GreedyShape(run);
    forall a | a in run.states[0]
      ensures Spent(rules, engine, run.txs, 0, a) <= Get(l, a).rc && Get(l, a).nonce == run.states[0][a].nonce
    {
      PicksCovered(rules, engine, pool, run, 0, a);
    }
  }

  /**
   * When a selected block can be previewed. However the senders are interleaved and whenever
   * it is, the preview never fails for a nonce, for its parties or for a payload; unless it
   * fails for a key, for funds, stake or a contract, it succeeds exactly when every
   * transaction, together with its sender's later ones, costs no more than the credits the
   * stake its sender has by then may hold. If the pool is authentic, and its keys agree, no
   * key is at fault.
   */
  lemma SelectedExactly(rules: Rules, engine: Option<ChainState.ContractEngine>, pool: TxPool.Pool, l: Accounts,
                        max: nat, run: TxPool.Run, window: seq<int64>, block: Block)
    requires TxPool.PoolOk(pool) && LedgerOk(l) && Total(l) <= MAX64
    requires PoolSelector(rules, engine).Selection(TxPool.Initial(pool, ViewOf(l)), max, run, Some(block.transactions))
    ensures var r := ChainState.Execute(rules, l, window, block, engine, ChainState.Preview);
      && (r.Err? ==> r.error.InsufficientRC? || NotForWantOfCredits(r.error))
      && (r.Err? && PoolAuthentic(rules, pool, l) && PoolKeysAgree(pool, l) ==>
            r.error.InsufficientRC? || FundsOrContracts(r.error))
      && (r.Ok? || r.error.InsufficientRC? ==> (r.Ok? <==> Affordable(rules, engine, l, block.transactions)))
  {
    hide Cost, PayloadCodec.DecodePayload, ApplyTx, Solvent, Affordable, TxPool.Selector.Greedy, Total, TxPool.PoolOk;
    hide PoolAuthentic, PoolKeysAgree;
    var now := ChainState.BlockTime(rules, window, block);
    var steps := ChainState.StepsOf(engine, ChainState.Preview, now, block.transactions);
    PoolSelector(rules, engine).GreedyShape(run);
    StartSolvent(rules, engine, pool, l, run);
    SelectedFrom(rules, engine, pool, run, now, l, l, 0);
    assert steps[0..] == steps;
    if ApplyAll(rules, l, steps).Ok? {
      PreviewedAffordable(rules, engine, l, now, block.transactions);
    }
  }

  // ----- two conditions under which a selection is affordable -----

  lemma {:induction false} SpentShrinks(rules: Rules, engine: Option<ChainState.ContractEngine>, txs: seq<Transaction>,
                                        i: nat, a: Address)
    requires i <= |txs|
    ensures Spent(rules, engine, txs, i, a) <= Spent(rules, engine, txs, 0, a)
    decreases i
  {
    hide Charge;
    if i > 0 {
      SpentShrinks(rules, engine, txs, i - 1, a);
    }
  }

  lemma {:induction false} StakeKept(l: Accounts, txs: seq<Transaction>, i: nat, a: Address)
    requires i <= |txs| && Keeps(txs, i, a)
    ensures StakeBefore(l, txs, i, a) >= Get(l, a).stake
    decreases i
  {
    hide PayloadCodec.DecodePayload;
    if i > 0 {
      StakeKept(l, txs, i - 1, a);
    }
  }

  /** With stored credits within their caps, a selection in which undelegations come last is affordable. */
  lemma UndelegatesLastAffordable(rules: Rules, engine: Option<ChainState.ContractEngine>, pool: TxPool.Pool,
                                  l: Accounts, max: nat, run: TxPool.Run, txs: seq<Transaction>)
    requires TxPool.PoolOk(pool) && WithinCaps(rules, pool, l) && UndelegatesLast(txs)
    requires PoolSelector(rules, engine).Selection(TxPool.Initial(pool, ViewOf(l)), max, run, Some(txs))
    ensures Affordable(rules, engine, l, txs)
  {
    hide Cost, Charge, Spent, StakeBefore, Keeps, TxPool.Selector.Greedy, TxPool.PoolOk, TxPool.Selector.Eligible;
    hide Rc.Params.RCMax, PayloadCodec.DecodePayload;
    PoolSelector(rules, engine).GreedyShape(run);
    forall i | 0 <= i < |txs|
      ensures Afforded(rules, engine, l, txs, i)
    {
      var a, stake := txs[i].from, Get(l, txs[i].from).stake;
      PickFromPool(rules, engine, pool, run, i);
      PickedSender(rules, engine, pool, l, run, i);
      InitialSender(pool, l, a, PoolSelector(rules, engine), run, i);
      PicksCovered(rules, engine, pool, run, 0, a);
      SpentShrinks(rules, engine, txs, i, a);
      StakeKept(l, txs, i, a);
      Rc.MulMonotone(rules.params.alpha, stake, StakeBefore(l, txs, i, a));
    }
  }

  /**
   * So while stored credits are within their caps and no sender transacts after an
   * undelegation of its own, a block of selected transactions is never short of credits.
   */
  lemma SelectedNeverStarved(rules: Rules, engine: Option<ChainState.ContractEngine>, pool: TxPool.Pool, l: Accounts,
                             max: nat, run: TxPool.Run, window: seq<int64>, block: Block)
    requires TxPool.PoolOk(pool) && LedgerOk(l) && Total(l) <= MAX64 && WithinCaps(rules, pool, l)
    requires PoolSelector(rules, engine).Selection(TxPool.Initial(pool, ViewOf(l)), max, run, Some(block.transactions))
    requires UndelegatesLast(block.transactions)
    ensures var r := ChainState.Execute(rules, l, window, block, engine, ChainState.Preview);
      r.Err? ==>
        NotForWantOfCredits(r.error)
        && (PoolAuthentic(rules, pool, l) && PoolKeysAgree(pool, l) ==> FundsOrContracts(r.error))
  {
    hide TxPool.PoolOk, Total, TxPool.Selector.Selection, ChainState.Execute, Affordable, PoolAuthentic, PoolKeysAgree;
    SelectedExactly(rules, engine, pool, l, max, run, window, block);
    UndelegatesLastAffordable(rules, engine, pool, l, max, run, block.transactions);
  }

  /** On a pool AddTx has filled, a selection never fails. */
  lemma SelectionSucceeds(rules: Rules, engine: Option<ChainState.ContractEngine>, pool: TxPool.Pool, l: Accounts,
                          max: nat, run: TxPool.Run, r: Option<seq<Transaction>>)
    requires TxPool.PoolOk(pool)
    requires PoolSelector(rules, engine).Selection(TxPool.Initial(pool, ViewOf(l)), max, run, r)
    ensures r.Some?
  {
    hide Cost, PayloadCodec.DecodePayload;
    PoolSelector(rules, engine).GreedyShape(run);
    QueuesAlong(PoolSelector(rules, engine), pool, run, |run.picks|);
    NothingFails(rules, engine, pool, l, run.Last());
  }

  /**
   * Undelegating takes credits along: at the same time, the sender's next transaction, unless
   * it fails for another reason, is applied exactly when it costs no more than the credits
   * that are left and the credits the remaining stake may hold. Without any stake left it
   * fails whenever it comes, if bytes cost anything.
   */
  lemma UndelegationStarves(rules: Rules, l: Accounts, s: Step, t: Step)
    requires LedgerOk(l) && ApplyTx(rules, l, s).Ok? && PayloadCodec.DecodePayload(s.tx.payload).Some?
    requires PayloadOf(s.tx).StakeUndelegate? && t.tx.from == s.tx.from
    ensures PayloadOf(s.tx).amount <= Get(l, s.tx.from).stake
    ensures var after, left := ApplyTx(rules, l, s).value, Get(l, s.tx.from).stake - PayloadOf(s.tx).amount;
      var r := ApplyTx(rules, after, t);
      && (t.now == s.now && (r.Ok? || r.error.InsufficientRC?) ==>
            PayloadCodec.DecodePayload(t.tx.payload).Some?
            && (r.Ok? <==> DueFor(rules, t) <= Min(Get(after, s.tx.from).rc, rules.params.alpha * left)))
      && (left == 0 && rules.params.cSize >= 1 && Len64(Encoding.TxBytes(t.tx)) > 0 ==> r.Err?)
  {
    hide PayloadCodec.DecodePayload, Rc.Params.RegenRC, Rc.Params.RCMax, ExecutionCost, DueFor, Settle, ApplyTx;
    hide Encoding.TxBytes;
    var sender, e := Stages(rules, l, s);
    EffectKeeps(l, sender, s.tx, PayloadOf(s.tx), s.outcome);
    SettledSender(rules, s.tx, e);
    var after, left := ApplyTx(rules, l, s).value, Get(l, s.tx.from).stake - PayloadOf(s.tx).amount;
    DueWithinCredits(rules, after, t);
    rules.params.RegenAtOnce(Get(after, s.tx.from).rc, left, s.now);
    if left == 0 && rules.params.cSize >= 1 && Len64(Encoding.TxBytes(t.tx)) > 0 {
      StakelessCannotSend(rules, after, t);
    }
  }

  // ----- what a selection leaves behind in the pool -----

  /** A picked sender's first queued transaction had the account's nonce, and the picked one is its own. */
  lemma PickedSender(rules: Rules, engine: Option<ChainState.ContractEngine>, pool: TxPool.Pool, l: Accounts,
                     run: TxPool.Run, k: nat)
    requires TxPool.PoolOk(pool) && PoolSelector(rules, engine).Greedy(run) && k < |run.picks|
    requires run.states[0] == TxPool.Initial(pool, ViewOf(l))
    ensures |run.txs| == |run.picks| && run.txs[k].from == run.picks[k]
    ensures run.picks[k] in pool && |pool[run.picks[k]]| > 0
        && pool[run.picks[k]][0].nonce == Get(l, run.picks[k]).nonce
  {
    hide Cost, PayloadCodec.DecodePayload;
    var selector, a := PoolSelector(rules, engine), run.picks[k];
    QueuesAlong(selector, pool, run, k);
    selector.PickedAt(run, k);
    InitialSender(pool, l, a, selector, run, k);
    selector.ShareAlong(run, a, k);
    assert selector.Takeable(run.states[0][a]) >= selector.Takeable(run.states[k][a]) >= 1;
  }

  lemma InitialSender(pool: TxPool.Pool, l: Accounts, a: Address, selector: TxPool.Selector, run: TxPool.Run, k: nat)
    requires selector.Greedy(run) && k < |run.picks| && a in run.states[k]
        && run.states[0] == TxPool.Initial(pool, ViewOf(l))
    ensures a in run.states[0] && run.states[0][a] == TxPool.SenderState(Get(l, a).nonce, Get(l, a).rc, 0, pool[a])
        && a in pool
  {
    SameSenders(selector, run, k);
  }

  lemma {:induction false} SameSenders(selector: TxPool.Selector, run: TxPool.Run, k: nat)
    requires selector.Greedy(run) && k <= |run.picks|
    ensures run.states[k].Keys == run.states[0].Keys
    decreases k
  {
    if k > 0 {
      SameSenders(selector, run, k - 1);
      selector.PickedAt(run, k - 1);
    }
  }

  lemma StepCounted(steps: seq<Step>, k: nat, a: Address)
    requires k < |steps| && steps[k].tx.from == a
    ensures CountFrom(steps, a) >= 1
  {
    CountSplit(steps, k, a);
    assert steps[k..][0] == steps[k];
  }

  /**
   * Nothing prunes the pool: once a block that took something from a has been applied, and
   * while a's nonce does not wrap, a's whole queue yields nothing in any later state,
   * whatever credits a has and whatever AddTx, which admits no nonce below the account's,
   * has added to the queue since.
   */
  lemma SelectedSenderStuck(rules: Rules, engine: Option<ChainState.ContractEngine>, pool: TxPool.Pool, l: Accounts,
                            max: nat, run: TxPool.Run, out: seq<Transaction>, k: nat, steps: seq<Step>,
                            later: seq<Transaction>, added: seq<Transaction>, rc: uint64)
    requires TxPool.PoolOk(pool) && LedgerOk(l)
    requires PoolSelector(rules, engine).Selection(TxPool.Initial(pool, ViewOf(l)), max, run, Some(out))
    requires k < |run.picks| && |out| <= |steps| && forall i :: 0 <= i < |out| ==> steps[i].tx == out[i]
    requires ApplyAll(rules, l, steps).Ok?
    requires Get(l, run.picks[k]).nonce + CountFrom(steps, run.picks[k]) <= MAX64
    requires TxPool.NonceSorted(later) && run.picks[k] in pool
    requires multiset(later) == multiset(pool[run.picks[k]]) + multiset(added)
    requires forall t :: t in added ==> t.nonce > Get(l, run.picks[k]).nonce
    ensures var now := Get(ApplyAll(rules, l, steps).value, run.picks[k]).nonce;
      PoolSelector(rules, engine).Takeable(TxPool.SenderState(now, rc, 0, later)) == 0
  {
    hide Cost, PayloadCodec.DecodePayload, ApplyAll, CountFrom;
    var a, selector := run.picks[k], PoolSelector(rules, engine);
    selector.GreedyShape(run);
    PickedSender(rules, engine, pool, l, run, k);
    StepCounted(steps, k, a);
    NonceCounts(rules, l, steps, a);
    SmallWrap();
    HeadStays(pool[a], later, added);
  }

  lemma NoneBelowHead(q: seq<Transaction>, later: seq<Transaction>, added: seq<Transaction>, t: Transaction)
    requires TxPool.NonceSorted(q) && |q| > 0 && t in later
    requires multiset(later) == multiset(q) + multiset(added) && forall u :: u in added ==> u.nonce > q[0].nonce
    ensures t.nonce >= q[0].nonce
  {
    TxPool.HeadIsLeast(q);
    assert t in multiset(later);
  }

  /** Additions with larger nonces leave the head of a queue where it is. */
  lemma HeadStays(q: seq<Transaction>, later: seq<Transaction>, added: seq<Transaction>)
    requires TxPool.NonceSorted(q) && TxPool.NonceSorted(later) && |q| > 0
    requires multiset(later) == multiset(q) + multiset(added) && forall t :: t in added ==> t.nonce > q[0].nonce
    ensures |later| > 0 && later[0] == q[0]
  {
    assert q[0] in multiset(later);
    var i :| 0 <= i < |later| && later[i] == q[0];
    NoneBelowHead(q, later, added, later[0]);
  }

  // ----- hashes -----

  /** No two transactions of the pool have the same hash without having the same bytes, which fit in memory. */
  ghost predicate PoolCollisionFree(crypto: Auth.Crypto, pool: TxPool.Pool) {
    && (forall a, t {:trigger InPool(pool, a, t)} :: InPool(pool, a, t) ==> |Encoding.TxBytes(t)| <= MAX64)
    && forall a, t, b, u {:trigger InPool(pool, a, t), InPool(pool, b, u)} ::
         InPool(pool, a, t) && InPool(pool, b, u)
           && Auth.HashTransaction(crypto, t) == Auth.HashTransaction(crypto, u) ==>
           Encoding.TxBytes(t) == Encoding.TxBytes(u)
  }

  /**
   * Queues of different senders hold different transactions, so their hashes differ: selection is
   * the simple algorithm.
   */
  lemma PoolHashesDistinct(crypto: Auth.Crypto, pool: TxPool.Pool, view: TxPool.View)
    requires TxPool.PoolOk(pool) && PoolCollisionFree(crypto, pool)
    ensures TxPool.HashesDistinct(TxPool.Initial(pool, view), crypto)
  {
    hide Encoding.TxBytes, PayloadCodec.DecodePayload;
    var ss := TxPool.Initial(pool, view);
    forall a, b, t, u | TxPool.Queued(ss, a, t) && TxPool.Queued(ss, b, u) && a != b
      ensures Auth.HashTransaction(crypto, t) != Auth.HashTransaction(crypto, u)
    {
      assert InPool(pool, a, t) && InPool(pool, b, u);
      assert t.from == a && u.from == b;
      if Encoding.TxBytes(t) == Encoding.TxBytes(u) {
        Encoding.TxInjective(t, u);
        assert false;
      }
    }
  }
}
